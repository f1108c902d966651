# better-npm-audit: input resolution, configuration strategy and file helpers

A Dafny model of the part of better-npm-audit that turns command options
and a configuration path into the five values handed to the audit runner:

- `handleInput` (module `Handlers`) builds the `npm audit` command from its
  tokens, resolves the audit level (option, then `NPM_CONFIG_AUDIT_LEVEL`,
  then `info`), picks the configuration path (default `.nsprc`), loads the
  exception configuration through the selected strategy, and normalises the
  `exclude`, `moduleIgnore` and `includeColumns` flags. The callback `fn` is
  modelled as the returned `Resolved` record: `Ok` is its single call, `Err`
  a throw before it is reached.
- `nsprcReader` / `nsprcReaderContext` / `fromNsprcFile` / `fromConfigFile`
  (module `Nsprc`) choose a strategy from the text after the last `.` of the
  path (`nsprc`: file, `js`/`ts`: module, anything else: 'Unsupported file
  type') and run it. The two strategies form the closed datatype `Strategy`;
  the loaders are `ReadNsprcFile` and `ReadConfigFile`.
- `readFile` and `getProjectRoot` (module `FileUtils`): reading degrades
  every failure to `false`; the project-root search is a `while` loop that
  climbs `dirname` until a directory holds `package.json`, and throws
  'Project root not found' at the root.
- The JavaScript built-ins they rely on (module `JsString`): `split` with a
  one-character separator (never empty, `''` gives `['']`, join undoes it),
  `join`, `trim` (stated for any whitespace test and used with the
  ECMAScript whitespace set, `JsString.IsWhitespace`), and the
  `filter(Boolean)` idiom on strings.
- The configuration value types of `src/types/nsprc.d.ts` (module `Types`).

The file system, `JSON.parse`, `isJsonString`, `process.cwd()` and dynamic
`import` are fields of the `FileSystem` and `Host` records; `existsSync` is a
function parameter of `GetProjectRoot`; `getExceptionsIds`, the environment
variable and the npm version test are parameters of `HandleInput`.

Where the code and its tests differ, the model follows the code:
`moduleIgnore` is split without trimming or filtering, so `lodash, moment`
gives `['lodash', ' moment']` (`Handlers.ModuleIgnoreExample`) and
`undefined`/`null` items are kept (`Handlers.ModuleIgnoreKeepsItems`);
likewise `includeColumns` keeps `undefined` and `null`
(`Handlers.IncludeColumnsKeepsItems`). The tests that appear to expect otherwise
(test/handlers/flags.test.ts:204-218 and 242-250) check with `calledWith`,
which also matches an earlier call of the same stub.

## Model

| member | source | states |
|---|---|---|
| `JsString.Split` | src/handlers/handleInput.ts:53 | `split(sep)` always yields at least one piece, no piece holds the separator, and joining the pieces with the separator gives the input back |
| `JsString.JoinEnds` | src/handlers/handleInput.ts:37 | `join(sep)` starts with the first piece, puts the separator right after it when there is a second piece, and ends with the last piece |
| `JsString.SplitJoin` | src/handlers/handleInput.ts:53 | split undoes join for any non-empty list of separator-free pieces, so split and join are inverse |
| `JsString.TrimStart` | src/handlers/handleInput.ts:50-56 | the first half of `trim()` (lines 50 and 56): the result is a suffix of the input, everything removed is whitespace, and it does not start with whitespace |
| `JsString.TrimEnd` | src/handlers/handleInput.ts:50-56 | the second half of `trim()` (lines 50 and 56): the result is a prefix of the input, everything removed is whitespace, and it does not end with whitespace |
| `JsString.Trim` | src/handlers/handleInput.ts:50 | `trim()` gives a string with no whitespace at either end, made of the input's characters, and empty exactly when the input is all whitespace |
| `JsString.TrimInfix` | src/handlers/handleInput.ts:50 | `trim()` keeps one contiguous infix of the input, and everything cut off before and after it is whitespace |
| `JsString.WhitespaceExamples` | src/handlers/handleInput.ts:50 | tab, line feed, carriage return, no-break space, ideographic space and byte order mark are removed by `trim()`; the comma is not whitespace |
| `JsString.SpaceIsWhitespace` | src/handlers/handleInput.ts:50 | the space is removed by `trim()` |
| `JsString.AlphanumericNotWhitespace` | src/handlers/handleInput.ts:50 | ASCII letters and digits are never removed by `trim()` |
| `JsString.TrimSurrounded` | src/handlers/handleInput.ts:56 | trimming removes exactly the whitespace around a trimmed core: whitespace + core + whitespace trims to core |
| `JsString.TrimTrimmed` | src/handlers/handleInput.ts:50 | trimming a string with no whitespace at its ends leaves it unchanged |
| `JsString.TrimLeadingSpace` | src/handlers/handleInput.ts:50 | one leading space is trimmed away from a trimmed non-empty item whenever the space counts as whitespace (it does for `trim()`) |
| `JsString.DropEmpty` | src/handlers/handleInput.ts:36 | `filter(Boolean)` keeps every non-empty string as often as it occurs and no empty one, and changes nothing when no item is empty |
| `JsString.DropEmptyAppend` | src/handlers/handleInput.ts:51 | the filter keeps input order: it distributes over concatenation |
| `JsString.TrimAll` | src/handlers/handleInput.ts:50 | `map(each => each.trim())` trims each item in place |
| `JsString.SplitTrimmed` | src/handlers/handleInput.ts:48-51 | split, trim, drop empty: every result is non-empty, trimmed and comma-free |
| `JsString.SplitTrimmedJoin` | src/handlers/handleInput.ts:54-57 | on a comma-joined list the result is exactly the trimmed items with the empty ones dropped, in order |
| `JsString.SplitTrimmedRoundTrip` | src/handlers/handleInput.ts:48-51 | a list of non-empty trimmed comma-free items survives join then split-trim-filter unchanged (the empty list included) |
| `JsString.SplitTrimmedEmpty` | src/handlers/handleInput.ts:48-51 | an empty flag (the `''` default) yields no items |
| `FileUtils.ReadFile` | src/utils/file.ts:11-21 | a read failure or non-JSON content gives `false`; readable JSON content gives its `JSON.parse` result, or `false` when parsing throws; any other result is the parsed content of a readable JSON file; it never throws |
| `FileUtils.Dirname` | src/utils/file.ts:33 | `dirname` drops the last segment, and the root is its own parent |
| `FileUtils.PackageJsonPath` | src/utils/file.ts:32 | `path.join(dir, 'package.json')` is `dir` extended by exactly one segment, `package.json` |
| `FileUtils.GetProjectRoot` | src/utils/file.ts:31-40 | the result holds `package.json`, is the start directory or an ancestor, and no directory visited before it holds one; it throws 'Project root not found' exactly when no directory from the start up to the root holds one; the loop terminates because each step moves to a strictly shorter parent |
| `Nsprc.ReadNsprcFile` | src/utils/nsprc.ts:5-7 | `fromNsprcFile` returns `readFile`'s result unchanged, `false` included |
| `Nsprc.ModuleSpecifier` | src/utils/nsprc.ts:10 | the imported specifier is the working directory, one `/`, then the configuration path |
| `Nsprc.ReadConfigFile` | src/utils/nsprc.ts:9-17 | a failed import propagates its error; a module whose `requestNsprcFile` is not a function gives `false`; otherwise the result of calling it |
| `Nsprc.NsprcReaderContext` | src/utils/nsprc.ts:19-21 | applying a strategy to a path gives exactly that strategy's result for the path; the file strategy never fails |
| `Nsprc.Extension` | src/utils/nsprc.ts:24 | the extension is dot-free, is a suffix of the path, and is preceded by a `.` unless it is the whole path |
| `Nsprc.ExtensionAfterLastDot` | src/utils/nsprc.ts:24 | for every stem and dot-free `ext`, the extension of `stem.ext` is `ext` |
| `Nsprc.ExtensionWithoutDot` | src/utils/nsprc.ts:24 | a path without a `.` is its own extension |
| `Nsprc.NsprcReader` | src/utils/nsprc.ts:23-33 | `nsprc` selects the file strategy, `js` or `ts` the module strategy, and every other extension (any case variant included) fails with 'Unsupported file type'; exactly one of the three happens |
| `Nsprc.NsprcPathNeverFails` | src/utils/nsprc.ts:26-27 | every `*.nsprc` path selects the file strategy, and running it yields the file's content or `false`, never an error |
| `Nsprc.NsprcExamples` | test/utils/nsprc.test.ts:77-80 | `.nsprc` and `path/to/.nsprc` select the file strategy |
| `Nsprc.ModuleExamples` | test/utils/nsprc.test.ts:82-90 | `test/__mocks__/configFile.ts` and `path/to/config.ts` select the module strategy |
| `Nsprc.UnsupportedExamples` | test/utils/nsprc.test.ts:92-94 | `path/to/config.txt` is unsupported |
| `Nsprc.CaseSensitiveExamples` | src/utils/nsprc.ts:26-32 | the comparison is case-sensitive: for every stem, `.TS`, `.JS` and `.NSPRC` are unsupported |
| `Handlers.Get` | src/handlers/handleInput.ts:41 | lodash `get(o, k, d)` uses the default only when the field is absent; a present empty value is kept |
| `Handlers.ProductionOnlyOption` | src/handlers/handleInput.ts:12-19 | the flag is `--production` or `--omit=dev`, and `--production` exactly when npm is at most 8.13.2 |
| `Handlers.CommandTokens` | src/handlers/handleInput.ts:30-35 | three tokens: `npm audit`, the production flag exactly when `production` is set (else empty), `--registry=<url>` exactly when a non-empty registry is given (else empty) |
| `Handlers.AuditCommand` | src/handlers/handleInput.ts:30-37 | the command is `npm audit`, then the production flag when `production` is set, then `--registry=<url>` when a non-empty registry is given, separated by single spaces, with no empty token |
| `Handlers.JoinNonEmpty` | src/handlers/handleInput.ts:36-37 | filtering out empty tokens and joining with a space gives the non-empty tokens with exactly one space between neighbours |
| `Handlers.AuditLevel` | src/handlers/handleInput.ts:40-41 | a present `level` option wins (an empty one becomes `info`, not the environment value); an absent one falls back to a non-empty `NPM_CONFIG_AUDIT_LEVEL`, else `info`; the level is never empty |
| `Handlers.InputFilePath` | src/handlers/handleInput.ts:44 | the configuration path is `configFile` when non-empty, else `.nsprc` |
| `Handlers.CmdExceptions` | src/handlers/handleInput.ts:48-51 | the exclude ids are the flag's comma-separated pieces, each trimmed, the empty ones dropped, in input order (`''` when absent); so each is non-empty, trimmed and comma-free, and an absent flag gives none |
| `Handlers.CmdModuleIgnore` | src/handlers/handleInput.ts:53 | the raw comma split: at least one item, joining with `,` gives the flag back, absent gives `['']` |
| `Handlers.CmdIncludeColumns` | src/handlers/handleInput.ts:54-57 | the columns are the flag's comma-separated pieces, each trimmed, the empty ones dropped, in input order (`''` when absent); so each is non-empty, trimmed and comma-free, and an absent flag gives none |
| `Handlers.HandleInput` | src/handlers/handleInput.ts:25-60 | `fn` is skipped (an error) exactly when the path's extension is unsupported or the module strategy fails (the import fails, or `requestNsprcFile` throws or rejects); an unsupported extension aborts with 'Unsupported file type'; an `.nsprc` path always reaches `fn`, with the exception ids computed from that file's content and the exclude ids; a `.js`/`.ts` path whose strategy succeeds reaches `fn` with the ids computed from the module's configuration, and one whose import or `requestNsprcFile` call fails aborts with that error; whenever `fn` is reached its ids come from the selected strategy's result; the other four values are the command, level and list normalisations above |
| `Handlers.DefaultInvocation` | test/handlers/flags.test.ts:10-21 | with no options and no environment variable, `fn` receives `npm audit`, `info`, `[]` (when the `.nsprc` configuration adds no ids), `['']` and `[]` |
| `Handlers.ExcludeExample` | test/handlers/flags.test.ts:40-43 | the exclude flag `1567, 1902` gives the ids `1567` and `1902` |
| `Handlers.SpacedPair` | src/handlers/handleInput.ts:48-51 | for any two non-empty, trimmed, comma-free ids, `a, b` gives `[a, b]`: the space after the comma is trimmed |
| `Handlers.ModuleIgnoreExample` | src/handlers/handleInput.ts:53 | the module-ignore flag `lodash, moment` gives `lodash` and ` moment`, space kept |
| `Handlers.ModuleIgnoreKeepsItems` | test/handlers/flags.test.ts:210-218 | the module-ignore flags `lodash,undefined,moment` and `lodash,null,moment` keep all three items, `undefined` and `null` included |
| `Handlers.IncludeColumnsKeepsItems` | test/handlers/flags.test.ts:242-250 | the include-columns flags `ID,undefined,Module` and `ID,null,Module` keep all three columns |
| `Handlers.PlainItemsRoundTrip` | src/handlers/handleInput.ts:54-57 | three comma-free items that start and end with a letter or digit survive joining with commas and the split-trim-filter unchanged |
| `Handlers.SplitThree` | src/handlers/handleInput.ts:53 | splitting `a,b,c` at the commas gives the three comma-free items back |

## Left out

- `getExceptionsIds` (src/utils/vulnerability) is not part of this model: it is a parameter of `HandleInput`, so the active/expiry rules, de-duplication and the 'Exception IDs' console output are not modelled.
- `getNpmVersion` and `semver.satisfies(version, '<=8.13.2')` are replaced by the boolean `npmAtMost8132`.
- `fs.readFileSync`, `fs.existsSync`, `isJsonString` (src/utils/common, not part of this model), `JSON.parse`, `process.cwd()` and dynamic `import` are oracles; their own behaviour is not modelled.
- `async`/`await`: every step is awaited in sequence, so the model is sequential functions; a rejected promise is an `Err`.
- `process.env` is read once and becomes the `envAuditLevel` input; the model never writes it.
- `Handlers.HandleInput`: `production` is an optional boolean and only `true` is truthy; other truthy JavaScript values for it are not modelled. Options present with value `null` are not modelled.
- `Types.Expiry`: a numeric `expiry` is an integer; JavaScript floating point is not modelled (no member reads it).
- `Types.NsprcFileOrBool`: `JSON.parse` results are limited to the declared `NsprcFile | boolean`; numbers, arrays and `null` are not modelled.
- `FileUtils.GetProjectRoot`: a path is its list of segments below the root; `..`, `.` segments, trailing separators, drive letters and path normalisation are not modelled, and the default start `process.cwd()` is an explicit argument.
- Strings are sequences of Unicode scalar values, while JavaScript strings are UTF-16 code units, so lone surrogates cannot be represented; `split(',')` and `trim()` are unaffected because the comma and every whitespace character are single code units in the Basic Multilingual Plane.
