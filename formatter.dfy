/**
 * The package object: its `style` field, `setStyle`, `format` and the
 * `onWillSave` hook installed by `handleEvents`.
 */
module Formatter {
  import opened Wrappers
  import opened Settings
  import opened StyleResolution
  import opened Transform
  import opened Editor
  import PathText
  import Eligibility

  /** `format`'s selection option: `None` (undefined) means on. */
  function SelectionMode(option: Option<bool>): (m: bool)
    ensures option.None? ==> m
    ensures option.Some? ==> m == option.value
  {
    option.GetOr(true)
  }

  /** The selection is the text source: selection mode is on and something is selected. */
  predicate UsesSelection(selectionMode: bool, selStart: nat, selEnd: nat) {
    selectionMode && selStart < selEnd
  }

  /** The text handed to the transform: the selection, or else the whole buffer. */
  function SourceText(text: string, selStart: nat, selEnd: nat, selectionMode: bool): (src: string)
    requires selStart <= selEnd <= |text|
    ensures UsesSelection(selectionMode, selStart, selEnd) ==> src == text[selStart..selEnd] && src != ""
    ensures !UsesSelection(selectionMode, selStart, selEnd) ==> src == text
  {
    var selected := if selectionMode then text[selStart..selEnd] else "";
    if selected != "" then selected else text
  }

  /** The text written back: the transformed text, or the source on a transform error. */
  function Outcome(src: string, r: Transformed): (out: string) {
    match r
    case Failed(_) => src
    case Done(t) => t
  }

  /** The buffer after `format`, as a function of the buffer and selection before it. */
  function Applied(text: string, selStart: nat, selEnd: nat, selectionMode: bool,
                   style: Style, usePrettier: bool, tools: Tools): (r: string)
    requires selStart <= selEnd <= |text|
    ensures UsesSelection(selectionMode, selStart, selEnd) ==>
      && |r| >= |text| - (selEnd - selStart)
      && r[..selStart] == text[..selStart]
      && r[|r| - (|text| - selEnd)..] == text[selEnd..]
    ensures TransformText(SourceText(text, selStart, selEnd, selectionMode), style, usePrettier, tools).Failed? ==> r == text
  {
    SourceWrittenBackRestores(text, selStart, selEnd, selectionMode);
    var src := SourceText(text, selStart, selEnd, selectionMode);
    var out := Outcome(src, TransformText(src, style, usePrettier, tools));
    if UsesSelection(selectionMode, selStart, selEnd) then text[..selStart] + out + text[selEnd..]
    else out
  }

  /** Outside the fixer styles `format` rewrites the buffer with what it already held. */
  lemma NoStyleKeepsBuffer(text: string, selStart: nat, selEnd: nat, selectionMode: bool,
                           style: Style, usePrettier: bool, tools: Tools)
    requires selStart <= selEnd <= |text|
    requires !IsFixerStyle(style)
    ensures Applied(text, selStart, selEnd, selectionMode, style, usePrettier, tools) == text
  {
    SourceWrittenBackRestores(text, selStart, selEnd, selectionMode);
  }

  /** Writing the source text back over the source range restores the buffer. */
  lemma SourceWrittenBackRestores(text: string, selStart: nat, selEnd: nat, selectionMode: bool)
    requires selStart <= selEnd <= |text|
    ensures var src := SourceText(text, selStart, selEnd, selectionMode);
      (if UsesSelection(selectionMode, selStart, selEnd) then text[..selStart] + src + text[selEnd..] else src) == text
  {
    if UsesSelection(selectionMode, selStart, selEnd) {
      assert text[..selStart] + text[selStart..selEnd] + text[selEnd..] == text;
    }
  }

  /**
   * With a non-empty selection in selection mode only the selected range is
   * replaced: the text before and after it is kept, and the transform saw
   * the selected text alone.
   */
  lemma SelectionOnlyReplacesRange(text: string, selStart: nat, selEnd: nat,
                                   style: Style, usePrettier: bool, tools: Tools)
    requires selStart < selEnd <= |text|
    ensures var after := Applied(text, selStart, selEnd, true, style, usePrettier, tools);
      var out := Outcome(text[selStart..selEnd], TransformText(text[selStart..selEnd], style, usePrettier, tools));
      && |after| == |text| - (selEnd - selStart) + |out|
      && after[..selStart] == text[..selStart]
      && after[selStart..selStart + |out|] == out
      && after[selStart + |out|..] == text[selEnd..]
  {
  }

  /** Otherwise the whole buffer is the source and is replaced by the outcome. */
  lemma WholeBufferReplaced(text: string, selStart: nat, selEnd: nat, selectionMode: bool,
                            style: Style, usePrettier: bool, tools: Tools)
    requires selStart <= selEnd <= |text|
    requires !UsesSelection(selectionMode, selStart, selEnd)
    ensures Applied(text, selStart, selEnd, selectionMode, style, usePrettier, tools)
         == Outcome(text, TransformText(text, style, usePrettier, tools))
  {
  }

  /** How far the save hook gets before returning. */
  datatype SaveStep = Skipped | StyleOnly | Formatted

  /**
   * The save hook's chain of early returns. `path`, `modified` and
   * `formatOnSave` belong to the saved editor; the style and the package
   * configuration come from the active one (`hasActive`), as `handleEvents` does.
   */
  function SaveDecision(path: Option<string>, modified: bool, cfg: Config, hasActive: bool,
                        project: Project, findRoot: string -> Option<string>,
                        matches: (string, string) -> bool): (d: SaveStep)
    ensures d == Skipped <==> !(path.Some? && path.value != "" && modified && cfg.formatOnSave)
    ensures d == Formatted <==>
      && path.Some? && path.value != "" && modified && cfg.formatOnSave
      && Eligibility.FileSupported(
           PathText.RelativePath(path.value, findRoot(path.value)),
           cfg.honorPackageConfig,
           PackageConfigFor(hasActive, ResolveStyle(cfg, hasActive, project.devDependencies), project),
           matches)
  {
    if path.None? || path.value == "" then Skipped
    else if !modified then Skipped
    else if !cfg.formatOnSave then Skipped
    else
      var style := ResolveStyle(cfg, hasActive, project.devDependencies);
      var relativePath := PathText.RelativePath(path.value, findRoot(path.value));
      if Eligibility.FileSupported(relativePath, cfg.honorPackageConfig,
                                   PackageConfigFor(hasActive, style, project), matches)
      then Formatted
      else StyleOnly
  }

  /**
   * For a modified file below its project root, saved with format-on-save
   * on, the eligibility test is applied to the path below the root.
   */
  lemma SaveBelowRoot(root: string, rel: string, cfg: Config, hasActive: bool, project: Project,
                      findRoot: string -> Option<string>, matches: (string, string) -> bool)
    requires findRoot(root + "/" + rel) == Some(root)
    requires cfg.formatOnSave
    ensures SaveDecision(Some(root + "/" + rel), true, cfg, hasActive, project, findRoot, matches) == Formatted
        <==> Eligibility.FileSupported(rel, cfg.honorPackageConfig,
               PackageConfigFor(hasActive, ResolveStyle(cfg, hasActive, project.devDependencies), project),
               matches)
  {
    PathText.RelativePathUnderRoot(root, rel);
  }

  /** A modified `.js` file below its root is formatted on save when no ignore list is honoured. */
  lemma SaveFormatsScriptBelowRoot(root: string, stem: string, cfg: Config, hasActive: bool, project: Project,
                                   findRoot: string -> Option<string>, matches: (string, string) -> bool)
    requires |stem| > 0 && stem[|stem| - 1] != '/'
    requires findRoot(root + "/" + (stem + ".js")) == Some(root)
    requires cfg.formatOnSave && !cfg.honorPackageConfig
    ensures SaveDecision(Some(root + "/" + (stem + ".js")), true, cfg, hasActive, project, findRoot, matches) == Formatted
  {
    PathText.ExtnameOfSuffixed(stem, ".js");
    SaveBelowRoot(root, stem + ".js", cfg, hasActive, project, findRoot, matches);
  }

  /**
   * Without an active editor no package configuration is found, so the
   * ignore list is never consulted and only the extension decides.
   */
  lemma NoActiveEditorSkipsIgnoreList(file: string, honor: bool, style: Style, project: Project,
                                      matches: (string, string) -> bool)
    ensures Eligibility.FileSupported(file, honor, PackageConfigFor(false, style, project), matches)
        <==> PathText.Extname(file) == ".js" || PathText.Extname(file) == ".jsx"
  {
  }

  /** With the default settings saving never formats, and the style is `standard`. */
  lemma DefaultsNeverFormatOnSave(path: Option<string>, modified: bool, hasActive: bool, project: Project,
                                  findRoot: string -> Option<string>, matches: (string, string) -> bool)
    ensures SaveDecision(path, modified, DEFAULTS, hasActive, project, findRoot, matches) == Skipped
    ensures ResolveStyle(DEFAULTS, hasActive, project.devDependencies) == Some(STANDARD)
  {
  }

  class StandardFormatter {
    /** The style of the current operation; `null` until `setStyle` runs. */
    var style: Style

    constructor ()
      ensures style == None
    {
      style := None;
    }

    /** `setStyle`: recompute the style from the settings and the active project. */
    method SetStyle(hasActive: bool, cfg: Config, project: Project)
      modifies this
      ensures style == ResolveStyle(cfg, hasActive, project.devDependencies)
    {
      if cfg.checkStyleDevDependencies {
        style := StyleFromDevDeps(hasActive, project.devDependencies);
      } else {
        style := Some(cfg.style);
      }
    }

    /**
     * `format(options)` on the active editor (`null`: none, a no-op). The
     * buffer becomes `Applied(...)` of the old buffer and selection, and the
     * cursor ends where it started.
     */
    method Format(editor: TextEditor?, selectionOption: Option<bool>, cfg: Config, tools: Tools)
      requires editor != null ==> editor.Valid()
      modifies editor
      ensures editor != null ==> editor.Valid()
      ensures editor != null ==> editor.text == Applied(old(editor.text), old(editor.selStart), old(editor.selEnd),
                                                        SelectionMode(selectionOption), style, cfg.usePrettier, tools)
      ensures editor != null ==> editor.cursor == old(editor.cursor) && editor.path == old(editor.path)
    {
      var selection := SelectionMode(selectionOption);
      if editor == null {
        return;
      }
      var selectedText := if selection then editor.SelectedText() else "";
      var text := if selectedText != "" then selectedText else editor.text;
      var cursorPosition := editor.cursor;
      var transformed := match TransformText(text, style, cfg.usePrettier, tools)
        case Failed(_) => text
        case Done(t) => t;
      if selectedText != "" {
        editor.SetTextInBufferRange(editor.selStart, editor.selEnd, transformed);
      } else {
        editor.SetText(transformed);
      }
      editor.SetCursorScreenPosition(cursorPosition);
    }

    /**
     * The `onWillSave` callback for `editor`. `active` is the workspace's
     * active editor, which `setStyle`, `fileSupported` and `format` consult;
     * it may be `editor` itself. Skipped saves leave the style alone; only a
     * `Formatted` decision touches the active buffer, which is then
     * formatted whole.
     */
    method OnWillSave(editor: TextEditor, active: TextEditor?, cfg: Config, project: Project,
                      findRoot: string -> Option<string>, matches: (string, string) -> bool, tools: Tools)
      requires editor.Valid()
      requires active != null ==> active.Valid()
      modifies this, active
      ensures var d := SaveDecision(old(editor.path), old(editor.modified), cfg, active != null,
                                    project, findRoot, matches);
        && (d == Skipped ==> style == old(style))
        && (d != Skipped ==> style == ResolveStyle(cfg, active != null, project.devDependencies))
        && (active != null && d != Formatted ==> unchanged(active))
        && (active != null && d == Formatted ==>
              && active.Valid()
              && active.text == Applied(old(active.text), old(active.selStart), old(active.selEnd),
                                        false, style, cfg.usePrettier, tools)
              && active.cursor == old(active.cursor)
              && active.path == old(active.path))
    {
      var path := editor.path;
      if path.None? || path.value == "" {
        return;
      }
      if !editor.modified {
        return;
      }
      if !cfg.formatOnSave {
        return;
      }
      SetStyle(active != null, cfg, project);
      var relativePath := PathText.RelativePath(path.value, findRoot(path.value));
      if Eligibility.FileSupported(relativePath, cfg.honorPackageConfig,
                                   PackageConfigFor(active != null, style, project), matches) {
        Format(active, Some(false), cfg, tools);
      }
    }
  }
}
