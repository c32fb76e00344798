/**
 * Which style applies to the current operation: copied from the settings,
 * or derived from the active project's development dependencies; and the
 * package.json namespace that holds the ignore list for that style.
 */
module StyleResolution {
  import opened Wrappers
  import opened Settings

  /** The style names the formatter understands. */
  const STANDARD := "standard"
  const SEMI_STANDARD := "semi-standard"

  /** The npm package names behind those styles. */
  const STANDARD_PACKAGE := "standard"
  const SEMISTANDARD_PACKAGE := "semistandard"

  /** The module's `style` field: `None` is `null` or `undefined`. */
  type Style = Option<string>

  /** A style the transform acts on; any other value turns formatting off. */
  predicate IsFixerStyle(style: Style) {
    style == Some(STANDARD) || style == Some(SEMI_STANDARD)
  }

  /** `devDeps[name]` is truthy: declared with a non-empty version string. */
  predicate Declares(devDeps: map<string, string>, name: string) {
    name in devDeps && devDeps[name] != ""
  }

  /**
   * `getStyleFromDevDeps`: `standard` wins over `semistandard`; neither, no
   * `devDependencies`, or no active editor gives no style.
   */
  function StyleFromDevDeps(hasEditor: bool, devDeps: Option<map<string, string>>): (r: Style)
    ensures r == Some(STANDARD) <==>
      hasEditor && devDeps.Some? && Declares(devDeps.value, STANDARD_PACKAGE)
    ensures r == Some(SEMI_STANDARD) <==>
      hasEditor && devDeps.Some? && !Declares(devDeps.value, STANDARD_PACKAGE)
      && Declares(devDeps.value, SEMISTANDARD_PACKAGE)
    ensures r == None || r == Some(STANDARD) || r == Some(SEMI_STANDARD)
  {
    if !hasEditor then None
    else if devDeps.Some? && (Declares(devDeps.value, "standard") || Declares(devDeps.value, "semistandard")) then
      if Declares(devDeps.value, "standard") then Some("standard")
      else if Declares(devDeps.value, "semistandard") then Some("semi-standard")
      else None
    else None
  }

  /**
   * The value `setStyle` stores in the module's `style` field: the configured
   * string verbatim with detection off; with detection on, the detected
   * style, `standard` first.
   */
  function ResolveStyle(cfg: Config, hasEditor: bool, devDeps: Option<map<string, string>>): (r: Style)
    ensures !cfg.checkStyleDevDependencies ==> r == Some(cfg.style)
    ensures cfg.checkStyleDevDependencies ==>
      (r == Some(STANDARD) <==> hasEditor && devDeps.Some? && Declares(devDeps.value, STANDARD_PACKAGE))
    ensures cfg.checkStyleDevDependencies ==>
      (r.None? <==> !hasEditor || devDeps.None?
                    || (!Declares(devDeps.value, STANDARD_PACKAGE) && !Declares(devDeps.value, SEMISTANDARD_PACKAGE)))
    ensures cfg.checkStyleDevDependencies ==> r.None? || IsFixerStyle(r)
  {
    if cfg.checkStyleDevDependencies then StyleFromDevDeps(hasEditor, devDeps)
    else Some(cfg.style)
  }

  /** With detection off the configured style is taken verbatim, whatever the project declares. */
  lemma ConfiguredStyleVerbatim(cfg: Config, hasEditor: bool, devDeps: Option<map<string, string>>,
                                otherEditor: bool, otherDeps: Option<map<string, string>>)
    requires !cfg.checkStyleDevDependencies
    ensures ResolveStyle(cfg, hasEditor, devDeps) == ResolveStyle(cfg, otherEditor, otherDeps) == Some(cfg.style)
  {
  }

  /** The package.json section `getPackageConfig` reads. */
  function Namespace(style: Style): (ns: string)
    ensures ns == SEMISTANDARD_PACKAGE <==> style == Some(SEMI_STANDARD)
    ensures ns == STANDARD_PACKAGE || ns == SEMISTANDARD_PACKAGE
  {
    if style == Some("semi-standard") then "semistandard" else "standard"
  }

  /** The package whose `lintText` the transform calls for a fixer style. */
  function PackageName(style: Style): (name: string)
    requires IsFixerStyle(style)
    ensures name == (if style == Some(STANDARD) then STANDARD_PACKAGE else SEMISTANDARD_PACKAGE)
    ensures name == Namespace(style)
  {
    if style.value == "standard" then "standard" else "semistandard"
  }

  /** `getPackageConfig`: nothing without an active editor, else the style's section. */
  function PackageConfigFor(hasEditor: bool, style: Style, project: Project): (pc: Option<PackageConfig>) {
    if !hasEditor then None else project.section(Namespace(style))
  }
}
