# TuentiYuiCombo in Dafny

`TuentiYuiCombo` is a small PHP combo server for YUI: one request names
several JavaScript files in its query string (`a/b.js&c/d.2.js&…`), and
the server answers with all of them concatenated into one response. Each
identifier is validated before anything is read:

1. its directory part (`dirname`) must match `/^[a-z0-9-][a-z0-9-\/]*$/`;
2. its file name (`basename`) may hold at most two dots, one for the
   extension and one for a version token;
3. the file `yuiPath . dir . '/' . name` must exist. Otherwise the request
   is marked "400 Bad Request", but validation goes on with the remaining
   identifiers;
4. a name with exactly two dots is *versioned* and turns on far-future
   cache headers. When the sentinel file `.require-versions` exists in the
   base directory, unversioned names are dropped silently.

Rendering sends `Cache-Control`/`Expires` when caching is on, then the
JavaScript content type, and then streams every accepted file in request
order.

The model is in six modules:

- `PhpStrings` (`php_strings.dfy`) models the PHP built-ins the class uses:
  - `implode` and `explode` on one separator character;
  - `array_filter`, which drops the falsy strings "" and "0";
  - Unix `dirname` and `basename`, in full: trailing slashes, bare names,
    the root and the empty path;
  - `substr_count` with the needle ".".
- `DirPattern` (`dir_pattern.dfy`) holds the directory pattern as a
  predicate, including PCRE's rule that `$` also matches before a final
  newline, plus a scanning method proved to decide it.
- `YuiCombo` (`combo.dfy`) holds the class:
  - its state as a `Combo` value;
  - the four validation rules as a `Verdict` per identifier;
  - `addScripts` as a fold over the identifiers;
  - the constructor, `generateQueryString` and `parse`.
- `ComboProperties` (`combo_properties.dfy`) gives a reference description
  of which identifiers are accepted or reported missing. It proves that the
  fold computes exactly that, for any list.
- `ComboRender` (`render.dfy`) models `render`: the header list and the
  body, as a method with a loop.
- `ComboScenarios` (`scenarios.dfy`) works through concrete requests for
  any base path. They cover a mixed request, the empty request, path
  traversal, a bare root-level name and the sentinel.

The environment enters the model as plain values:

- the filesystem is the set of paths for which `file_exists` is true;
- `readfile` is a map from paths to byte contents;
- the clock and the `gmdate` formatting are parameters;
- `header` calls are recorded in the state (`badRequest`) or returned as a
  list of strings.

Behaviour of the code that the model keeps:

- **Root-level scripts are never served.** `dirname("yui.js")` is `"."`,
  and the pattern refuses it. An identifier without a directory is therefore
  always skipped (`BareNameSkipped`, `RootLevelRejected`).
- **`enableCache` means "at least one accepted name was versioned"**
  (`ValidateEachCache`, `NewComboCache`). When the sentinel exists, only
  versioned names are accepted, so caching is on exactly when at least one
  file is served (`CacheWhenVersionsRequired`).
- **`parse` drops "0" as well as empty segments**, since `array_filter`
  removes every falsy string. This loses nothing, because validation
  would skip both anyway (`FalsyScriptRejected`,
  `ValidateEachIgnoresFalsy`). So parsing a generated query string builds
  exactly the combo built from the list itself (`ParseGeneratedQuery`).
- **A directory followed by one trailing line feed passes the pattern**,
  because the pattern has no `D` modifier.

## Model

| member | source | states |
|---|---|---|
| PhpStrings.Explode | TuentiYuiCombo.php:38 | `explode` returns at least one segment, no segment holds the separator, and joining the segments with the separator gives back the input |
| PhpStrings.ExplodeImplode | TuentiYuiCombo.php:25-38 | splitting a joined non-empty list of separator-free strings gives back the list |
| PhpStrings.ArrayFilter | TuentiYuiCombo.php:38 | `array_filter` keeps exactly the entries that are neither "" nor "0", and never adds any |
| PhpStrings.ArrayFilterAppend | TuentiYuiCombo.php:38 | filtering distributes over concatenation, so kept entries stay in request order |
| PhpStrings.ArrayFilterKeepsTruthy | TuentiYuiCombo.php:38 | a list without falsy entries passes through the filter unchanged |
| PhpStrings.Basename | TuentiYuiCombo.php:61 | a file name never contains a slash |
| PhpStrings.BareName | TuentiYuiCombo.php:61-62 | a non-empty name without slashes has directory "." and is its own file name |
| PhpStrings.DirnameBasenameJoin | TuentiYuiCombo.php:61-72 | for a directory not ending in a slash and a non-empty slash-free name, `dirname`/`basename` of `dir/name` give back the two parts, so the resolved file is `dir/name` |
| PhpStrings.DotCountIsMultiplicity | TuentiYuiCombo.php:68 | the dot count of a name is the number of times '.' occurs in it |
| DirPattern.MatchDirPattern | TuentiYuiCombo.php:65 | the left-to-right scan answers true exactly when the directory matches the pattern, trailing-newline rule included |
| DirPattern.ForbiddenCharRejected | TuentiYuiCombo.php:65 | one character outside `[a-z0-9-/]` that is not a final line feed makes the directory fail |
| DirPattern.DirectoryPolicy | TuentiYuiCombo.php:64-65 | a directory that is empty, starts with a slash, or holds a dot, a space or an upper-case letter never matches |
| ComboProperties.AcceptedScripts | TuentiYuiCombo.php:60-89 | the accepted identifiers are exactly those of the request that pass the policy, exist, and are versioned or not required to be |
| ComboProperties.Resolve | TuentiYuiCombo.php:72 | each identifier maps, position by position, to base path + directory + "/" + name |
| ComboProperties.ClassifyMatchesReference | TuentiYuiCombo.php:61-89 | the verdict on one identifier accepts exactly the accepted ones, with their resolved file and versioned flag, and reports missing exactly the policy-passing ones whose file is absent |
| ComboProperties.InvalidDirectorySkipped | TuentiYuiCombo.php:65 | an identifier whose directory fails the pattern leaves the state unchanged, so no file and no 400 |
| ComboProperties.ForbiddenDirectorySkipped | TuentiYuiCombo.php:64-65 | a directory with a dot (so any `..`), a space or an upper-case letter, or one starting with a slash, is skipped whatever exists on disk |
| ComboProperties.BareNameSkipped | TuentiYuiCombo.php:61-65 | an identifier without a slash changes nothing, because root-level names are never served |
| ComboProperties.TooManyDotsSkipped | TuentiYuiCombo.php:67-69 | a name with more than two dots changes nothing, even when the file exists |
| ComboProperties.MissingFileFlagged | TuentiYuiCombo.php:71-83 | a policy-passing identifier whose file is absent sets the 400 flag and changes nothing else |
| ComboProperties.VersionedFileAccepted | TuentiYuiCombo.php:85-89 | an existing two-dot name is appended and enables caching, with or without the sentinel |
| ComboProperties.UnversionedFileRule | TuentiYuiCombo.php:85-89 | an existing name with at most one dot is dropped silently when versions are required; otherwise it is appended and the cache flag is unchanged |
| ComboProperties.FalsyScriptRejected | TuentiYuiCombo.php:61-65 | the identifiers "" and "0" always fail the directory pattern |
| ComboProperties.ValidateEachIsApplyAll | TuentiYuiCombo.php:60-90 | the loop equals judging every identifier against the same base path, sentinel flag and disk, then applying the verdicts in order; no verdict depends on earlier identifiers |
| ComboProperties.ValidateEachAppend | TuentiYuiCombo.php:60-90 | validating two lists one after the other is validating their concatenation |
| ComboProperties.ValidateEachKeepsConfig | TuentiYuiCombo.php:60-90 | the loop never changes the base path or the sentinel flag |
| ComboProperties.ValidateEachScripts | TuentiYuiCombo.php:72-89 | the loop appends exactly the accepted identifiers' files, in request order, after the earlier files |
| ComboProperties.ValidateEachCache | TuentiYuiCombo.php:85-86 | after the loop the cache flag is set iff it was set before or some accepted identifier is versioned |
| ComboProperties.ValidateEachBadRequest | TuentiYuiCombo.php:73-83 | after the loop the 400 flag is set iff it was set before or some policy-passing identifier named a missing file; validation goes on after a miss |
| ComboProperties.ValidateEachIgnoresFalsy | TuentiYuiCombo.php:36-40 | removing the falsy identifiers before validation gives the same state as validating the unfiltered list |
| ComboProperties.NewCombo | TuentiYuiCombo.php:46-58 | a new combo records the base path and whether the sentinel exists, and holds exactly the accepted identifiers' files, in request order |
| ComboProperties.NewComboCache | TuentiYuiCombo.php:85-86 | a new combo sends cache headers iff some accepted identifier is versioned |
| ComboProperties.NewComboBadRequest | TuentiYuiCombo.php:71-83 | a new combo is a 400 iff some identifier passes the policy but names a missing file |
| ComboProperties.AddScriptsExtends | TuentiYuiCombo.php:57-91 | a later `addScripts` checks the sentinel again and appends the newly accepted files; a cache or 400 flag already set stays set |
| ComboProperties.NewScriptsExist | TuentiYuiCombo.php:71-89 | every file a combo will stream exists and starts with the base path |
| ComboProperties.CacheWhenVersionsRequired | TuentiYuiCombo.php:85-89 | with the sentinel present every accepted identifier is versioned, so caching is on iff at least one file is served |
| ComboProperties.QueryRoundTrip | TuentiYuiCombo.php:25-40 | parsing a generated query string gives back the list when no identifier is falsy or holds `&` |
| ComboProperties.ParseGeneratedQuery | TuentiYuiCombo.php:25-40 | for identifiers without `&`, building a combo from the generated query string gives the same combo as building it from the list itself |
| ComboRender.RenderHeaders | TuentiYuiCombo.php:98-105 | exactly three headers when caching is on and one when it is off; the content-type header is always last; `Cache-Control` and `Expires` (now + 315360000 s) are present iff caching is on, and come first in that order |
| ComboRender.Render | TuentiYuiCombo.php:98-110 | `render` sends those headers and a body that is the accepted files' bytes concatenated in order |
| ComboRender.BodyAppend | TuentiYuiCombo.php:107-109 | the body of two file lists in a row is the two bodies concatenated |
| ComboRender.BodyLayout | TuentiYuiCombo.php:107-109 | each file's bytes appear unchanged in the body, right after the bytes of the files before it |
| ComboScenarios.Resolves | TuentiYuiCombo.php:61-72 | an identifier `dir/name` resolves to the base path followed by the identifier |
| ComboScenarios.ThreeKinds | TuentiYuiCombo.php:57-90 | without the sentinel, an existing plain file, an existing versioned file and a missing file give the two files in order, caching and a 400 |
| ComboScenarios.TwoKindsVersionsRequired | TuentiYuiCombo.php:57-90 | with the sentinel, an existing plain file is dropped and an existing versioned one is served with caching and no 400 |
| ComboScenarios.MixedRequest | TuentiYuiCombo.php:46-90 | the request `a/b.js, c/d.2.js, missing/e.js` serves the first two, turns caching on and is a 400 |
| ComboScenarios.MixedRequestBody | TuentiYuiCombo.php:107-109 | that request's body is the bytes of `a/b.js` followed by those of `c/d.2.js` |
| ComboScenarios.EmptyRequest | TuentiYuiCombo.php:36-109 | the empty query string serves nothing, sends only the content type, is not a 400, and has an empty body |
| ComboScenarios.TraversalRejected | TuentiYuiCombo.php:62-65 | "../../etc/passwd" is skipped before the disk is consulted, for any base path and disk |
| ComboScenarios.RootLevelRejected | TuentiYuiCombo.php:61-65 | "yui.js" is never served, even when the file exists |
| ComboScenarios.SentinelRequest | TuentiYuiCombo.php:58-89 | with the sentinel, `a/b.js, c/d.2.js` serves only the versioned file, with caching and no 400 |

## Left out

- `header()` is not modelled as a side effect. The 400 status becomes the
  `badRequest` flag (repeated calls collapse into one). The render headers
  are returned as a list, so how PHP merges or overrides them is not
  modelled.
- `time()` and `gmdate()` are parameters (`now`, `httpDate`). The date
  format itself is not modelled; only that `Expires` carries the date of
  `now + 315360000`.
- `file_exists` is membership in a set of paths. Directories, permissions,
  symbolic links and the race between `file_exists` and `readfile` are not
  modelled.
- `readfile` is a lookup in a map. A path the map lacks contributes no
  bytes; PHP's warning for an unreadable file is not modelled.
- `basename` counts every character as one unit. PHP's locale-dependent
  multibyte handling is not modelled, and neither are Windows backslash
  separators in `dirname`/`basename`.
- PHP array keys are not modelled: `array_filter` keeps the original keys,
  but `foreach` in `addScripts` ignores them, so a sequence is enough.
  Non-string array elements are not modelled.
- The class does no URL decoding: the query string is split and validated
  exactly as it is passed to `parse`. Any decoding a caller does first is
  outside the model. `generateQueryString` does not escape `&`, so
  identifiers holding `&` do not survive the round trip.
  `ComboProperties.QueryRoundTrip` and `ComboProperties.ParseGeneratedQuery`
  therefore require identifiers without `&`.
