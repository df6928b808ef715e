# no-relative-import-paths, modelled in Dafny

This project models the ESLint rule `no-relative-import-paths` as the repository ships it
(`no-relative-import-paths-compat.js`). The rule looks at every import declaration.
An import that climbs out of its folder (`"../…"`) is reported when it is a candidate
(see below) and either no depth budget is configured or its depth exceeds the budget. An import of the same folder
(`"./…"`) is reported unless same-folder imports are allowed. Each report carries a fix.
The fix rewrites the string literal to the target's path relative to the configured root
folder, behind an alias prefix such as `@`.

The model has four modules:

- `Strings` (`strings.dfy`) covers the JavaScript string and array operations the rule
  calls: `startsWith`, `split("/")`, `filter(String)` and `join("/")`. It proves the
  facts about them the rest of the model needs: splitting and joining are inverse, and
  joining pieces that have no empty segment leaves no empty segment.
- `PosixPath` (`posix_path.dfy`) covers the POSIX behaviour of Node's `path.join`,
  `path.normalize`, `path.dirname` and `path.relative`, with the separator `/`.
  Normalisation walks the `/`-separated pieces with a stack (`Walk`).
  `dirname` is the same string scan Node performs.
  `relative` climbs one `..` for every name of `from` below the common ancestor, then
  descends through the rest of `to`.
  The main facts proved:
  - `relative` completes a round trip (`RelativeRoundTrip`).
  - `join` with `../` pieces pops names (`JoinUps`).
  - `dirname` drops the last name (`DirnameAbs`).
- `NoRelativeImportPaths` (`no_relative_import_paths.dfy`) covers the rule itself.
  It contains:
  - the option defaulting of `create` (`Create`);
  - `isParentFolder` and `isSameFolder` (the predicates `IsParentFolder` and
    `IsSameFolder`);
  - `getRelativePathDepth`, as the loop `RelativePathDepth` proved equal to the recursive
    `Depth`;
  - `getAbsolutePath` (`GetAbsolutePath`);
  - the `ImportDeclaration` handler (`OnImportDeclaration`). It is a pure function that
    returns the list of reports `context.report` would receive.
- `ShippedConfig` (`shipped_config.dfy`) covers the rule under the options both
  configuration factories ship: `allowSameFolder: true, allowedDepth: 2,
  rootDir: "app/src", prefix: "@"`. Only `index.js` (line 25) wires in the rule modelled
  here. `flat-config.js` (line 14) loads the upstream `eslint-plugin-no-relative-import-paths`
  package and shares only these options with it. The module also covers the concrete
  cases the rule's behaviour turns on. Each case is proved for every working directory its
  `requires` admits (`cwd` is a list of plain names). `LibOutsideRoot` and
  `FileOutsideRoot` are stated for a working directory other than `/`. Most cases are proved for
  any imported names, with the literal cases (`"../shared"`, `"../shared/util"`,
  `"../../src2/y"`) as instances.

A few terms used below:

- An import is *ascending* when it starts with `"../"`.
- An ascending import is a *candidate* when `isParentFolder` holds. With no root folder,
  every ascending import is a candidate. With a root folder, both the resolved target and
  the linted file must start with the root's absolute path, compared as plain strings.
- The *depth* of an import is its number of leading `"../"` groups.

Three consequences of the code are easy to miss:

- **Depth budget without a root folder.** With `rootDir` empty, every ascending import is
  a candidate (no-relative-import-paths-compat.js:21). The `allowedDepth` test on lines
  92-95 still applies to it. `EmptyRootKeepsDepthBudget` and `AscentWithoutRoot` state
  this: with a budget of 5, `"../a"` is not reported.
- **The fix is a fixed point only with a prefix.** Linting the fixed import again never
  reports it when the prefix is non-empty and does not itself begin a relative path
  (`FixIsAccepted`). With the default empty prefix, the fix can be relative again.
  `UnprefixedFixRepeats` gives the input. The working directory is `parent/c` and the
  file `a.ts` sits directly in it. With no root folder, `"../x"` climbs out of the working
  directory and is reported. Its fix is `"../x"` once more.
- **"Inside the root" is a string-prefix test.** The test is on strings, not on path
  segments, so a sibling folder such as `app/src2` counts as inside `app/src`
  (`SiblingCountsAsInside`).

## Model

| member | source | states |
|---|---|---|
| Strings.Split | no-relative-import-paths-compat.js:48 | `split(sep)` always yields at least one piece, and no piece contains the separator |
| Strings.NonEmpty | no-relative-import-paths-compat.js:50 | `filter(String)` keeps exactly the non-empty strings, never lengthens the list, and changes nothing when no string is empty |
| Strings.NonEmptyAppend | no-relative-import-paths-compat.js:50 | `filter(String)` works element by element: filtering `a + b` is filtering `a`, then `b`, keeping the order |
| Strings.NonEmptySingle | no-relative-import-paths-compat.js:50 | a single string is kept exactly when it is not empty |
| Strings.StartsWithChars | no-relative-import-paths-compat.js:20-23 | `startsWith(prefix)` holds exactly when the string is at least as long and agrees with the prefix at each position |
| Strings.JoinWithLength | no-relative-import-paths-compat.js:51 | `join("/")` of a non-empty list is as long as its elements together plus one separator between each pair |
| Strings.JoinSplit | no-relative-import-paths-compat.js:48-51 | joining the pieces of a split with the same separator gives back the string |
| Strings.SplitJoin | no-relative-import-paths-compat.js:48-51 | splitting a join of a non-empty list of separator-free pieces gives back the pieces |
| Strings.SplitConcat | no-relative-import-paths-compat.js:46 | splitting `a + "/" + b` is splitting `a` and `b` separately |
| Strings.JoinWithNoEmptySegment | no-relative-import-paths-compat.js:50-51 | joining non-empty pieces without empty segments gives a string with no leading, trailing or doubled separator |
| PosixPath.Walk | no-relative-import-paths-compat.js:13 | normalising separator-free pieces keeps the stack made of non-empty pieces, and of plain names for an absolute path |
| PosixPath.Normalize | no-relative-import-paths-compat.js:13 | `path.normalize` never returns "" and keeps a path absolute exactly when it was absolute |
| PosixPath.Join | no-relative-import-paths-compat.js:13 | `path.join` onto an absolute path gives an absolute path |
| PosixPath.TrimTrailingSeps | no-relative-import-paths-compat.js:15 | the scan of `dirname` returns a prefix of the path, never drops the first character, ends in a non-separator when longer than one character, and drops only separators |
| PosixPath.TrimLastName | no-relative-import-paths-compat.js:15 | the scan of `dirname` returns a prefix of the path, ends in a separator when longer than one character, and drops only non-separator characters |
| PosixPath.Dirname | no-relative-import-paths-compat.js:15 | `path.dirname` of an absolute path is absolute |
| PosixPath.Segments | no-relative-import-paths-compat.js:44-47 | an absolute path resolves to a list of plain names |
| PosixPath.CommonPrefixLength | no-relative-import-paths-compat.js:44-47 | the length of the longest common prefix: both lists agree up to it and differ right after it |
| PosixPath.Ups | no-relative-import-paths-compat.js:44-47 | `n` pieces, each of them ".." |
| PosixPath.Steps | no-relative-import-paths-compat.js:44-47 | the steps of `path.relative` are ".." or plain names, and there are none exactly when both ends are the same |
| PosixPath.Relative | no-relative-import-paths-compat.js:44-47 | `path.relative` is "" exactly when both paths resolve to the same names; otherwise each of its pieces is ".." or a plain name |
| PosixPath.WalkSteps | no-relative-import-paths-compat.js:44-47 | walking the steps of `relative` from the names of `from` reaches the names of `to` |
| PosixPath.RelativeRoundTrip | no-relative-import-paths-compat.js:44-47 | resolving `from + "/" + relative(from, to)` reaches `to` |
| PosixPath.RelativeBetween | no-relative-import-paths-compat.js:44-47 | between two folders below a common base that part at their first name: one ".." per name of the first, then the names of the second |
| PosixPath.WalkNames | no-relative-import-paths-compat.js:13 | normalising plain names pushes each of them |
| PosixPath.WalkUps | no-relative-import-paths-compat.js:14-17 | normalising `n` ".." pieces over plain names pops `n` of them |
| PosixPath.WalkUpsThenNames | no-relative-import-paths-compat.js:14-17 | `k` ".." pieces and then plain names pop `k` names and push the others |
| PosixPath.SegmentsAbs | no-relative-import-paths-compat.js:13 | a path that is already normalised resolves to its own names |
| PosixPath.SegmentsAppend | no-relative-import-paths-compat.js:14-17 | the names of `a + "/" + b` are those of `a`, walked further by the pieces of `b` |
| PosixPath.JoinAbs | no-relative-import-paths-compat.js:14-17 | `path.join` of a normalised absolute path and a non-empty path that does not end in "/" is the normalised walk of that path's pieces |
| PosixPath.JoinUps | no-relative-import-paths-compat.js:14-17 | joining `ups` ".." pieces and plain names onto a folder drops `ups` names and appends the others |
| PosixPath.NormalizeAbs | no-relative-import-paths-compat.js:13 | normalising an already normalised absolute path changes nothing (the case `rootDir == ""`) |
| PosixPath.DirnameAbs | no-relative-import-paths-compat.js:15 | `path.dirname` of a normalised absolute path drops its last name |
| PosixPath.NamesJoin | no-relative-import-paths-compat.js:48-51 | plain names joined by "/" split back into themselves, end in a name and do not start with "../" |
| NoRelativeImportPaths.Create | no-relative-import-paths-compat.js:81-86 | `allowedDepth` is taken without a default, so 0 stays distinct from absent; `allowSameFolder` is true only when given as true; `rootDir` and `prefix` default to "" |
| NoRelativeImportPaths.RootPath | no-relative-import-paths-compat.js:13 | the absolute root folder, `path.join(cwd, rootDir)`, is absolute when the working directory is |
| NoRelativeImportPaths.TargetPath | no-relative-import-paths-compat.js:14-17 | the import's target, `path.join(path.dirname(filename), importPath)`, is absolute when the file's path is |
| NoRelativeImportPaths.IsParentFolder | no-relative-import-paths-compat.js:12-25 | a candidate starts with "../"; with no root folder, exactly the paths starting with "../" are candidates; with a root folder, both the target and the file of a candidate start with the root's path |
| NoRelativeImportPaths.IsSameFolder | no-relative-import-paths-compat.js:27-29 | a same-folder import is exactly one whose first two characters are "./" |
| NoRelativeImportPaths.RepeatString | no-relative-import-paths-compat.js:31-38 | `n` copies of a string have `n` times its length |
| NoRelativeImportPaths.Depth | no-relative-import-paths-compat.js:31-38 | the depth count uses at most a third of the path's length |
| NoRelativeImportPaths.RelativePathDepth | no-relative-import-paths-compat.js:31-38 | the `while` loop that strips leading "../" returns the depth `Depth(p)` |
| NoRelativeImportPaths.DepthShape | no-relative-import-paths-compat.js:33-36 | the path starts with `Depth(p)` copies of "../", and what remains does not start with another one |
| NoRelativeImportPaths.DepthIsMaximal | no-relative-import-paths-compat.js:33-36 | every number of "../" copies that the path starts with is at most `Depth(p)` |
| NoRelativeImportPaths.DepthStep | no-relative-import-paths-compat.js:33-35 | one more leading "../" adds one to the depth |
| NoRelativeImportPaths.DepthOfAscent | no-relative-import-paths-compat.js:31-38 | `k` copies of "../" in front of a path that does not ascend give depth `k` |
| NoRelativeImportPaths.DepthExamples | no-relative-import-paths-compat.js:31-38 | "../../../x" has depth 3; "x", "./x" and "..x" have depth 0 |
| NoRelativeImportPaths.GetAbsolutePath | no-relative-import-paths-compat.js:40-52 | with a prefix that has no empty segment, the replacement has no leading, trailing or doubled "/" |
| NoRelativeImportPaths.GetAbsolutePathShape | no-relative-import-paths-compat.js:40-52 | the replacement is the relative path from the root to the target; behind the prefix and a "/" when there is a prefix; the prefix alone when the target is the root |
| NoRelativeImportPaths.ReplacementResolvesToTarget | no-relative-import-paths-compat.js:40-52 | the replacement names the import's target: resolved from the root folder, the part after the prefix reaches the target |
| NoRelativeImportPaths.OnImportDeclaration | no-relative-import-paths-compat.js:89-120 | one import declaration yields at most one report |
| NoRelativeImportPaths.PrefixesExclusive | no-relative-import-paths-compat.js:19-29 | no path starts with both "./" and "../" |
| NoRelativeImportPaths.NonRelativeNeverReported | no-relative-import-paths-compat.js:89-120 | a path that starts with neither "./" nor "../" is never reported |
| NoRelativeImportPaths.SameFolderVerdict | no-relative-import-paths-compat.js:109 | a "./" import is reported exactly when same-folder imports are not allowed |
| NoRelativeImportPaths.AscentVerdict | no-relative-import-paths-compat.js:91-95 | a "../" import is reported exactly when it is a candidate and either no budget is set or its depth exceeds the budget |
| NoRelativeImportPaths.AscentWithoutRoot | no-relative-import-paths-compat.js:19-24 | with no root folder, the verdict on an ascending import depends only on its depth and the budget, never on the file or the working directory |
| NoRelativeImportPaths.EscapingAscentNotReported | no-relative-import-paths-compat.js:19-23 | with a root folder, an ascent whose target or whose file does not start with the root's path is never reported |
| NoRelativeImportPaths.ReportShape | no-relative-import-paths-compat.js:96-105 | every report carries the node, the fixed message, and a fix that replaces the literal without its quotes by the computed path |
| NoRelativeImportPaths.PrefixedIsNotRelative | no-relative-import-paths-compat.js:40-52 | a replacement behind a prefix that is not itself relative starts with neither "./" nor "../" |
| NoRelativeImportPaths.FixIsAccepted | no-relative-import-paths-compat.js:89-120 | with a non-empty prefix that does not begin a relative path, the import a fix produces is never reported |
| ShippedConfig.CreateDefaults | index.js:261-269 | the shipped options yield budget 2, same-folder imports allowed, root "app/src" and prefix "@"; no options yield no budget and empty root and prefix; an explicit budget of 0 is kept |
| ShippedConfig.RootIsAppSrc | flat-config.js:243-251 | the shipped root "app/src" joined onto any working directory is `cwd/app/src` |
| ShippedConfig.RootFolder | flat-config.js:243-251 | the shipped root folder is `cwd/app/src`, and `cwd/app/src/feature/x.ts` starts with it |
| ShippedConfig.ImportTarget | no-relative-import-paths-compat.js:14-17 | an import climbing `ups` folders from a file in `dir`, then descending through plain names, reaches `dir` without `ups` names plus those names, at depth `ups` |
| ShippedConfig.DepthBudget | no-relative-import-paths-compat.js:91-95 | from `cwd/app/src/feature/x.ts`, with root "app/src", a depth-1 import `"../<names>"` of plain names into the root is a candidate, reported exactly when no budget or a budget below 1 is set |
| ShippedConfig.DepthOneIntoRoot | no-relative-import-paths-compat.js:89-95 | from `cwd/app/src/feature/x.ts`, with root "app/src", every depth-1 import whose target starts with the root's path, however it is spelled, is a candidate, reported exactly when no budget or a budget below 1 is set |
| ShippedConfig.DepthBudgetExample | no-relative-import-paths-compat.js:91-95 | "../shared" from `cwd/app/src/feature/x.ts`: a budget of 1 gives no report; a budget of 0 or none gives one |
| ShippedConfig.ShippedRelative | no-relative-import-paths-compat.js:44-47 | from `cwd/app/src/feature/x.ts`, the path from the shipped root to a depth-1 target `cwd/app/src/<parts>` is `<parts>` |
| ShippedConfig.ShippedReplacement | no-relative-import-paths-compat.js:40-52 | under the shipped root and prefix, that import is rewritten to "@/<parts>" |
| ShippedConfig.ShippedBudget | index.js:261-269 | under the shipped options (budget 2), a depth-1 import of plain names from `cwd/app/src/feature/x.ts` into the root is not reported |
| ShippedConfig.ShippedShallowNeverReported | no-relative-import-paths-compat.js:89-120 | under the shipped options, no import of depth at most 2 is reported, from any file: same-folder imports are allowed and every such ascent stays within the budget |
| ShippedConfig.ShippedReplacementExample | no-relative-import-paths-compat.js:40-52 | "../shared/util" from `cwd/app/src/feature/x.ts` becomes "@/shared/util", and is not reported under the shipped options |
| ShippedConfig.SiblingPrefix | no-relative-import-paths-compat.js:22 | a folder of `cwd/app` whose name extends "src" starts, as a string, with `cwd/app/src` |
| ShippedConfig.SiblingCountsAsInside | no-relative-import-paths-compat.js:19-23 | from `cwd/app/src/feature/x.ts`, a depth-2 import into a sibling such as `cwd/app/src2/…` is a candidate |
| ShippedConfig.SiblingReplacement | no-relative-import-paths-compat.js:40-52 | the replacement of such a sibling import climbs out of the root behind the prefix: "@/../…" |
| ShippedConfig.SiblingVerdict | no-relative-import-paths-compat.js:91-95 | such a sibling import is reported exactly when no budget or a budget below 2 is set |
| ShippedConfig.SiblingExample | no-relative-import-paths-compat.js:19-23 | "../../src2/y" from `cwd/app/src/feature/x.ts` is a candidate and becomes "@/../src2/y" |
| ShippedConfig.LibOutsideRoot | no-relative-import-paths-compat.js:23 | the file `cwd/lib/x.ts` does not start with the root folder `cwd/app/src` |
| ShippedConfig.LibImport | no-relative-import-paths-compat.js:14-17 | from `cwd/lib/x.ts`, a depth-1 import reaches `cwd/<names>` |
| ShippedConfig.LibImportTarget | no-relative-import-paths-compat.js:22 | from `cwd/lib/x.ts`, "../app/src/<parts>" points inside the root folder |
| ShippedConfig.FileOutsideRoot | no-relative-import-paths-compat.js:19-23 | from the file `cwd/lib/x.ts`, outside the root, "../app/src/<parts>" points inside the root and is still never reported (the general fact is `EscapingAscentNotReported`) |
| ShippedConfig.EmptyRootKeepsDepthBudget | no-relative-import-paths-compat.js:91-95 | with no root folder and a budget of 5, "../a" is not reported from any file |
| ShippedConfig.UnprefixedFixRepeats | no-relative-import-paths-compat.js:40-52 | with no root folder and no prefix, with the working directory `parent/c` and the file `a.ts` directly in it, "../x" climbs out of the working directory and is reported; its fix is "../x" again, which is reported again |

`RootPath` and `TargetPath` are also the two `path.join` calls of `getAbsolutePath`
(no-relative-import-paths-compat.js:45-46). `Message` is the message constant (:54).

## Left out

- Node's `path` module is modelled for POSIX only, with separator "/". Windows drive
  letters, the "\" separator and cross-drive `relative` are not modelled.
- `GetAbsolutePath`, `OnImportDeclaration` and the lemmas about them require absolute
  `cwd` and `filename`. For relative arguments, `path.relative` would first resolve them
  against `process.cwd()`, which is process state the model does not have.
- The ESLint host is not modelled: AST traversal, delivery of `context.report`, and how
  and in what order `fixer.replaceTextRange` is applied. The handler returns the reports
  instead of sending them.
- Validation of the options against `meta.schema` (no-relative-import-paths-compat.js:59-78)
  is done by the host. `allowedDepth` is modelled as an optional integer, not a JavaScript
  number, so fractional or non-finite budgets are not modelled.
- The message text is carried as an opaque constant.
- `index.js` and `flat-config.js` are configuration factories; only the rule options they
  ship are used (`ShippedConfig.Shipped`). `flat-config.js` applies those options to the
  upstream `eslint-plugin-no-relative-import-paths` package, whose code is not part of
  this model.
- ShippedConfig.FileOutsideRoot: stated for a non-empty working directory only, because
  the proof works on the names below it; the root "/" would behave the same way.
- ShippedConfig.LibOutsideRoot: stated for a non-empty working directory only, for the
  same reason; with the working directory "/", `/lib/x.ts` does not start with `/app/src`
  either.
