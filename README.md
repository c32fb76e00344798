# atom-standard-formatter, modelled in Dafny

The Atom package `atom-standard-formatter` formats JavaScript with the
`standard` or `semistandard` linter in fix mode, optionally after a prettier
pass. It decides three things of its own, and this project models exactly those
and proves what they promise:

- **whether a save may format** (`fileSupported`, applied to the saved file's
  project-relative path): an ignore glob from the project's package.json vetoes
  first; otherwise the extension must be `.js` or `.jsx`. `format` then
  rewrites the workspace's active editor, which need not be the saved one
  (after "Save All", or a save in a pane without focus). An active `notes.md`
  can then be reformatted because a `.js` file was saved. The model keeps
  the two editors apart and reproduces this;
- **which style** applies (`setStyle`, `getStyleFromDevDeps`, the namespace
  choice in `getPackageConfig`): the configured style verbatim, or the style
  read from the project's `devDependencies`, where `standard` wins over
  `semistandard`;
- **how a transform is applied** (`transformText`, `format`, the `onWillSave`
  callback of `handleEvents`): pass-through outside the two styles, lint errors
  fall back to the original text, a non-empty selection is the only range
  replaced, and the cursor is put back where it was.

Modules, one per component:

- `Wrappers`: `Option` (`None` is JavaScript's `null`/`undefined`).
- `Settings`: the five settings and their declared defaults; `Project`, what
  pkg-config finds from the active editor's path.
- `PathText`: the host string operations used: `path.extname`, the first-occurrence
  `replace` with an empty replacement, `substring(1)`, and the hook's relative path.
- `StyleResolution`: style detection, the style-to-package mapping and the
  namespace of the ignore list.
- `Eligibility`: `fileSupported`.
- `Transform`: `transformText`, with prettier and `lintText` as opaque functions.
- `Editor`: the slice of Atom's `TextEditor` that `format` uses: buffer text,
  one selected range, cursor, path, modified flag. Its mutators promise nothing
  about the cursor, so `format` has to restore it.
- `Formatter`: the package object (`StandardFormatter`, with its `style`
  field), `setStyle`, `format`, the save hook, and the buffer-level properties.

Foreign code becomes parameters: the glob matcher is `matches(file, pattern)`;
pkg-config is a `Project` value; `find-root` is `findRoot(path)`, with `None`
where it throws; prettier is `string -> Option<string>`, with `None` where
`prettier.format` throws; `lintText` is `lint(packageName, text)`, which returns a
`LintOutcome`. The asynchronous lint callback is a returned value.

The configuration schema offers only `standard` and `semi-standard` as style
values; there is no "none" value. Formatting is off only when the style is
something else: no style detected from the dev dependencies, or no active
editor when detection is on. The model follows the code here:
`Settings.Config.style` is any string, and `StyleResolution.IsFixerStyle`
decides whether the transform acts.

## Model

| member | source | states |
|---|---|---|
| PathText.Extname | lib/atom-standard-formatter.js:35 | the extension is empty, or a suffix of the last path component that starts with its only '.', contains no '/' and is not the whole component |
| PathText.ExtnameOfSuffixed | lib/atom-standard-formatter.js:35 | a name `stem + ext` has extension `ext` when `ext` is one dotted suffix and the stem does not end in '/' |
| PathText.IndexOfFrom | lib/atom-standard-formatter.js:200 | the result is the first position at or after `i` where the root string occurs, or -1 when it does not occur there at all |
| PathText.RemoveFirst | lib/atom-standard-formatter.js:200 | with no occurrence of the root the path is kept; otherwise exactly the first occurrence is cut out |
| PathText.DropFirst | lib/atom-standard-formatter.js:200 | `substring(1)`: the empty string stays empty, otherwise the result is the string without its first character |
| PathText.RelativePath | lib/atom-standard-formatter.js:197-203 | when no project root is found the path is used verbatim; when the root does not occur in the path, the path still loses its first character; otherwise the root's first occurrence is cut out and the first character dropped |
| PathText.RelativePathUnderRoot | lib/atom-standard-formatter.js:195-203 | for `root + "/" + rel` with root `root`, removing the root's first occurrence and the next character gives exactly `rel` |
| Eligibility.IndexOfType | lib/atom-standard-formatter.js:36 | `indexOf` is -1 iff the extension is not in the list; otherwise it is the first position holding it |
| Eligibility.AnyMatch | lib/atom-standard-formatter.js:25-27 | `some` holds iff some ignore pattern matches the file |
| Eligibility.FileSupported | lib/atom-standard-formatter.js:17-37 | the file is supported iff no ignore pattern of an honoured, present package config matches it and its extension is exactly `.js` or `.jsx` |
| Eligibility.IgnoreVetoesAnyExtension | lib/atom-standard-formatter.js:22-31 | a matching ignore pattern rejects the file whatever its extension is |
| Eligibility.IgnoredFileExample | lib/atom-standard-formatter.js:22-31 | `src/foo.ts` matched by the ignore list is rejected |
| Eligibility.JavaScriptFileExample | lib/atom-standard-formatter.js:15 | `src/foo.js` is accepted when package config is not honoured |
| Eligibility.TextFileExample | lib/atom-standard-formatter.js:35-36 | `src/foo.txt` is rejected under every configuration |
| Eligibility.UpperCaseExtensionRejected | lib/atom-standard-formatter.js:15 | extension membership is case-sensitive: `.JS` files are rejected |
| StyleResolution.StyleFromDevDeps | lib/atom-standard-formatter.js:136-157 | `standard` declared gives `standard` even with `semistandard` also declared; only `semistandard` gives `semi-standard`; neither, no dev-deps or no active editor gives no style |
| StyleResolution.ResolveStyle | lib/atom-standard-formatter.js:124-134 | with detection off the configured style verbatim; with detection on `standard` iff `standard` is declared (with an active editor), no style iff neither package is declared or there is no editor or dev-deps, and never anything but the two fixer styles or none |
| StyleResolution.ConfiguredStyleVerbatim | lib/atom-standard-formatter.js:124-134 | with detection off the configured style is copied verbatim and the project's dependencies do not matter |
| StyleResolution.Namespace | lib/atom-standard-formatter.js:168-172 | the ignore list is read from `semistandard` iff the style is `semi-standard`, from `standard` otherwise |
| StyleResolution.PackageName | lib/atom-standard-formatter.js:93-96 | `standard` lints with package `standard`, `semi-standard` with `semistandard`, which is the same namespace the ignore list comes from |
| Transform.Prettified | lib/atom-standard-formatter.js:98-108 | the text is either unchanged or prettier's output, and prettier's output whenever prettier is on and succeeds |
| Transform.FixedText | lib/atom-standard-formatter.js:111-116 | the result is either the linted text or the first result's string output, and that output whenever it is a string |
| Transform.TransformText | lib/atom-standard-formatter.js:90-122 | outside the fixer styles the text is returned unchanged; otherwise a lint error is propagated, and a successful lint yields its first output or the linted text |
| Transform.NoStyleIgnoresTools | lib/atom-standard-formatter.js:119-121 | outside the fixer styles the result is the input whatever prettier and lint would do, so neither is consulted |
| Transform.FailsIffLintFails | lib/atom-standard-formatter.js:109-110 | the transform fails exactly when a fixer style is active and linting the prettified text errors |
| Transform.LintOutputUsed | lib/atom-standard-formatter.js:111-116 | a string `results[0].output` is the result |
| Transform.PrettierFailureSwallowed | lib/atom-standard-formatter.js:98-108 | a throwing prettier pass gives the same result as prettier switched off |
| Transform.CompliantTextUnchanged | lib/atom-standard-formatter.js:98-116 | when prettier is off, throws or changes nothing and lint reports no output, the text comes back bit-identical |
| Formatter.SelectionMode | lib/atom-standard-formatter.js:60-64 | selection mode is on when the option is undefined, and equals the given flag otherwise |
| Formatter.SourceText | lib/atom-standard-formatter.js:63-71 | the transform sees the selection when selection mode is on and it is non-empty, else the whole buffer |
| Formatter.SourceWrittenBackRestores | lib/atom-standard-formatter.js:76-85 | writing the source text back over its range restores the buffer |
| Formatter.Applied | lib/atom-standard-formatter.js:73-85 | with a used selection the buffer before and after the selected range is kept; when the transform fails the buffer comes back exactly as it was, so output is never partial |
| Formatter.NoStyleKeepsBuffer | lib/atom-standard-formatter.js:73-85 | outside the fixer styles `format` leaves the buffer text as it was |
| Formatter.SelectionOnlyReplacesRange | lib/atom-standard-formatter.js:78-82 | with a non-empty selection only the selected range is replaced, by the transform of the selected text; the text before and after is kept |
| Formatter.WholeBufferReplaced | lib/atom-standard-formatter.js:83-85 | otherwise the whole buffer becomes the transform of the whole buffer |
| Formatter.SaveDecision | lib/atom-standard-formatter.js:177-209 | the hook stops before `setStyle` iff the path is missing or empty, the buffer unmodified or format-on-save off; it formats iff, in addition, the relative path is supported |
| Formatter.SaveBelowRoot | lib/atom-standard-formatter.js:195-207 | for a file below a found project root, eligibility is decided on the path below that root |
| Formatter.SaveFormatsScriptBelowRoot | lib/atom-standard-formatter.js:181-207 | a modified `.js` file below its root is formatted on save when format-on-save is on and no ignore list is honoured |
| Formatter.DefaultsNeverFormatOnSave | lib/atom-standard-formatter.js:212-239 | with the default settings saving never formats, and the style resolves to `standard` |
| Formatter.NoActiveEditorSkipsIgnoreList | lib/atom-standard-formatter.js:159-164 | without an active editor no package config is found, so only the extension decides eligibility |
| Formatter.StandardFormatter.constructor | lib/atom-standard-formatter.js:14 | the style starts as null |
| Formatter.StandardFormatter.SetStyle | lib/atom-standard-formatter.js:124-134 | the stored style is the dev-dependency style iff detection is on, and the configured style otherwise |
| Formatter.StandardFormatter.Format | lib/atom-standard-formatter.js:59-88 | with no active editor nothing happens; otherwise the buffer becomes `Applied` of the old buffer and selection, and the cursor and path end as they started |
| Formatter.StandardFormatter.OnWillSave | lib/atom-standard-formatter.js:177-209 | early returns leave the style untouched; past them the style is recomputed; the active buffer is untouched unless the decision is to format, in which case it is formatted whole and its cursor and path are kept; eligibility is judged on the saved editor's path, but the editor rewritten is the active one, which need not be the saved one |

## Left out

- The `activate` command handler, `deactivate` and editor observation (lines 39-57): host registration, no decision of the package's own.
- `Settings.Config.formatOnSave` stands for the value read in the saved editor's root scope (lines 185-190); scope-specific overrides are not modelled. The other four settings are read unscoped.
- Formatter.DefaultsNeverFormatOnSave: assumes there is no scope-specific override of `formatOnSave`.
- The config schema (lines 212-239) beyond its defaults, kept as `Settings.DEFAULTS`; Atom's enum validation of `style` is not modelled, so any string may be configured.
- Glob semantics of `minimatch`, the `pkg-config` and `find-root` file-system lookups, and the `loophole` sandbox: opaque parameters.
- The internals of prettier and `lintText`. The constant prettier options `parser: 'babel'` and `singleQuote: true` are part of the opaque `prettier` function.
- The prettier `semi` option is not modelled: it reads `this.style` inside a callback where `this` is not bound reliably, so its value is not determined by the style.
- PathText.Extname: only POSIX separators, and not Node's handling of trailing '/' or of the name `..`; neither reaches a `.js`/`.jsx` decision on a saved file's path.
- The asynchronous lint callback and concurrent format operations. The callback is modelled as a returned value.
- Logging to the console on lint and prettier errors.
- `package.json` values of any type other than the ones modelled. An `ignore` that is not an array, or a non-string `devDependencies` value, is not modelled.
- Editor positions: the selected range is a pair of buffer offsets rather than Atom `Point`s, only the last selection is modelled, and `setCursorScreenPosition` is taken to place the cursor exactly, without clipping to the new buffer.
- Editor.TextEditor.SetText and Editor.TextEditor.SetTextInBufferRange: the `modified` flag is modelled as "modified before, or changed now", not as Atom's comparison with the saved file contents; it is only meaningful before the save hook writes to the buffer, which is the only place it is read.
