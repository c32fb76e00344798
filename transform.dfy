/**
 * `transformText`: an optional prettier pass, then the style's `lintText`
 * in fix mode. Both libraries are opaque; the model only sees the shape of
 * what they return.
 */
module Transform {
  import opened Wrappers
  import opened StyleResolution

  /**
   * What `lintText` hands its callback: an error, or the `results` list of
   * which only each entry's `output` matters (`None`: not a string).
   */
  datatype LintOutcome = LintError(error: string) | LintOk(results: seq<Option<string>>)

  /** What `transformText` hands its callback: `(e)` or `(null, text)`. */
  datatype Transformed = Failed(error: string) | Done(text: string)

  /**
   * The two libraries. `prettier` returns `None` where `prettier.format`
   * throws; `lint` is keyed by package name.
   */
  datatype Tools = Tools(
    prettier: string -> Option<string>,
    lint: (string, string) -> LintOutcome)

  /** The text after the optional prettier pass; a failing pass leaves it as it was. */
  function Prettified(text: string, usePrettier: bool, prettier: string -> Option<string>): (r: string)
    ensures r == text || (usePrettier && prettier(text) == Some(r))
    ensures usePrettier && prettier(text).Some? ==> prettier(text) == Some(r)
  {
    if usePrettier then
      match prettier(text)
      case Some(t) => t
      case None => text
    else text
  }

  /** `results[0].output` when it is a string, else the text that was linted. */
  function FixedText(results: seq<Option<string>>, linted: string): (r: string)
    ensures r == linted || (|results| > 0 && results[0] == Some(r))
    ensures |results| > 0 && results[0].Some? ==> results[0] == Some(r)
  {
    if |results| > 0 && results[0].Some? then results[0].value else linted
  }

  /**
   * The outcome of `transformText`. Outside the two fixer styles the text
   * passes through untouched; otherwise a lint error is propagated, and on
   * success the result is the lint output, or the linted text when there is
   * none.
   */
  function TransformText(text: string, style: Style, usePrettier: bool, tools: Tools): (r: Transformed)
    ensures !IsFixerStyle(style) ==> r == Done(text)
    ensures IsFixerStyle(style) ==>
      var linted := Prettified(text, usePrettier, tools.prettier);
      match tools.lint(PackageName(style), linted)
      case LintError(e) => r == Failed(e)
      case LintOk(rs) => r.Done? && (r.text == linted || (|rs| > 0 && rs[0] == Some(r.text)))
  {
    if style == Some("standard") || style == Some("semi-standard") then
      var text' := Prettified(text, usePrettier, tools.prettier);
      match tools.lint(PackageName(style), text')
      case LintError(e) => Failed(e)
      case LintOk(rs) => Done(FixedText(rs, text'))
    else Done(text)
  }

  /** Outside the fixer styles neither library is consulted: any tools give the same pass-through. */
  lemma NoStyleIgnoresTools(text: string, style: Style, usePrettier: bool, tools: Tools, others: Tools)
    requires !IsFixerStyle(style)
    ensures TransformText(text, style, usePrettier, tools) == TransformText(text, style, usePrettier, others) == Done(text)
  {
  }

  /** The transform fails exactly when the style is a fixer style and linting the prettified text fails. */
  lemma FailsIffLintFails(text: string, style: Style, usePrettier: bool, tools: Tools)
    ensures TransformText(text, style, usePrettier, tools).Failed? <==>
      IsFixerStyle(style) && tools.lint(PackageName(style), Prettified(text, usePrettier, tools.prettier)).LintError?
  {
  }

  /** A string `output` in the first result is what the transform returns. */
  lemma LintOutputUsed(text: string, style: Style, usePrettier: bool, tools: Tools, rs: seq<Option<string>>)
    requires IsFixerStyle(style)
    requires tools.lint(PackageName(style), Prettified(text, usePrettier, tools.prettier)) == LintOk(rs)
    requires |rs| > 0 && rs[0].Some?
    ensures TransformText(text, style, usePrettier, tools) == Done(rs[0].value)
  {
  }

  /** A prettier failure is swallowed: the result is as if prettier were switched off. */
  lemma PrettierFailureSwallowed(text: string, style: Style, tools: Tools)
    requires tools.prettier(text).None?
    ensures TransformText(text, style, true, tools) == TransformText(text, style, false, tools)
  {
  }

  /**
   * Already-compliant text comes back unchanged: when prettier is off, fails
   * or is a no-op, and lint reports no fixed output.
   */
  lemma CompliantTextUnchanged(text: string, style: Style, usePrettier: bool, tools: Tools)
    requires usePrettier ==> tools.prettier(text) == Some(text) || tools.prettier(text).None?
    requires IsFixerStyle(style) ==>
      tools.lint(PackageName(style), text).LintOk?
      && var rs := tools.lint(PackageName(style), text).results; |rs| == 0 || rs[0].None?
    ensures TransformText(text, style, usePrettier, tools) == Done(text)
  {
  }
}
