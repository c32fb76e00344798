/**
 * `fileSupported`: whether the save hook may format a file, given its path
 * relative to the project root.
 */
module Eligibility {
  import opened Wrappers
  import opened Settings
  import PathText

  /** The module's `fileTypes`. */
  const FILE_TYPES: seq<string> := [".js", ".jsx"]

  /** `types.indexOf(x)`: the first position holding `x`, or -1. */
  function IndexOfType(types: seq<string>, x: string): (r: int)
    ensures r == -1 <==> x !in types
    ensures r != -1 ==> 0 <= r < |types| && types[r] == x && x !in types[..r]
  {
    if |types| == 0 then -1
    else if types[0] == x then 0
    else
      var r := IndexOfType(types[1..], x);
      if r == -1 then -1
      else
        assert types[..r + 1] == [types[0]] + types[1..][..r];
        r + 1
  }

  /** `patterns.some(p => matches(file, p))`. */
  function AnyMatch(file: string, patterns: seq<string>, matches: (string, string) -> bool): (b: bool)
    ensures b <==> exists k :: 0 <= k < |patterns| && matches(file, patterns[k])
  {
    if |patterns| == 0 then false
    else if matches(file, patterns[0]) then true
    else
      var rest := AnyMatch(file, patterns[1..], matches);
      assert forall k :: 1 <= k < |patterns| ==> patterns[k] == patterns[1..][k - 1];
      rest
  }

  /** The package's own ignore list claims the file. */
  ghost predicate Ignored(file: string, honor: bool, pc: Option<PackageConfig>, matches: (string, string) -> bool) {
    honor && pc.Some? && pc.value.ignore.Some?
    && exists k :: 0 <= k < |pc.value.ignore.value| && matches(file, pc.value.ignore.value[k])
  }

  /**
   * `fileSupported(file)`: an ignore match vetoes regardless of extension;
   * otherwise the extension must be exactly `.js` or `.jsx`.
   */
  function FileSupported(file: string, honor: bool, pc: Option<PackageConfig>,
                         matches: (string, string) -> bool): (r: bool)
    ensures r <==> !Ignored(file, honor, pc, matches)
                   && (PathText.Extname(file) == ".js" || PathText.Extname(file) == ".jsx")
  {
    if honor && pc.Some? && pc.value.ignore.Some? && AnyMatch(file, pc.value.ignore.value, matches) then false
    else IndexOfType(FILE_TYPES, PathText.Extname(file)) != -1
  }

  /** An ignore match vetoes the file whatever its extension. */
  lemma IgnoreVetoesAnyExtension(file: string, honor: bool, pc: Option<PackageConfig>,
                                 matches: (string, string) -> bool)
    requires Ignored(file, honor, pc, matches)
    ensures !FileSupported(file, honor, pc, matches)
  {
  }

  /** An ignored TypeScript file, matched by the only ignore pattern, is rejected. */
  lemma IgnoredFileExample(matches: (string, string) -> bool)
    requires matches("src/foo.ts", "src/**")
    ensures !FileSupported("src/foo.ts", true, Some(PackageConfig(Some(["src/**"]))), matches)
  {
    assert ["src/**"][0] == "src/**";
  }

  /** A `.js` file is accepted when the package configuration is not honoured. */
  lemma JavaScriptFileExample(pc: Option<PackageConfig>, matches: (string, string) -> bool)
    ensures FileSupported("src/foo.js", false, pc, matches)
  {
    assert "src/foo.js" == "src/foo" + ".js";
    PathText.ExtnameOfSuffixed("src/foo", ".js");
  }

  /** A `.txt` file is rejected whatever the configuration. */
  lemma TextFileExample(honor: bool, pc: Option<PackageConfig>, matches: (string, string) -> bool)
    ensures !FileSupported("src/foo.txt", honor, pc, matches)
  {
    assert "src/foo.txt"[..7] == "src/foo";
    assert "src/foo.txt" == "src/foo" + ".txt";
    PathText.ExtnameOfSuffixed("src/foo", ".txt");
    assert PathText.Extname("src/foo.txt") == ".txt";
  }

  /** Membership is case-sensitive: `.JS` is not a supported extension. */
  lemma UpperCaseExtensionRejected(stem: string, honor: bool, pc: Option<PackageConfig>,
                                   matches: (string, string) -> bool)
    requires |stem| > 0 && stem[|stem| - 1] != '/'
    ensures !FileSupported(stem + ".JS", honor, pc, matches)
  {
    PathText.ExtnameOfSuffixed(stem, ".JS");
  }
}
