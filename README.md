# kosmojs route pipeline, modelled in Dafny

This project models the development-time route pipeline of kosmojs: how a file
under the `api` or `pages` source folders becomes a route, how routes are
resolved and cached, how the plugin's worker reacts to file events and drives
the generators, and what the generators write.

- `PathTokens` and `Paths`: the tokens of a route path (static segments,
  required, optional and rest parameters), their `const` names, and the path
  helpers shared by the generators.
- `Routes`: `resolveRouteFile`, route names and import names, route entries
  with their typed parameters and the types file each API route gets.
- `Cache`: the per-route cache file, its hash over the route file and the
  files its types reference, its validation and its persistence (class `Disk`).
- `Resolver`: the resolvers built for the route files, and one resolution
  pass over them.
- `Worker`: the orchestrator (class `Worker`): the resolved routes kept in an
  insertion-ordered map, the generators called on start-up and on each
  create / update / delete event, and the related routes an update re-runs.
- `Plugin`: the ordering of the configured generators, the build pass, and
  the host side of the worker's messages (class `Host`).
- `Output`: `renderToFile` and its overwrite rules (class `Files`).
- `RoutePaths`, `SolidGenerator`, `ApiGenerator`, `SsrGenerator`, `TypeboxGenerator`: the path patterns, route
  ordering and generated files of the Solid, API, SSR and TypeBox generators.
- `Cli`: the validators of the project scaffolding command.
- `Text`, `OrderedMap`, `Wrappers`: the JavaScript string, `Map` and
  `Option`/`Result` behaviour the rest relies on.

File contents, rendered templates and the type checker's answers are values
passed in; nothing reads a disk or runs a compiler.

## Model

| member | source | states |
|---|---|---|
| Text.IndexOf | packages/core/dev/src/base-plugin/cache.ts:76 | the position found is the first occurrence of the pattern, and none means it occurs nowhere |
| Text.ReplaceFirst | packages/core/dev/src/base-plugin/routes.ts:78 | `replace` with a string pattern leaves a text without the pattern unchanged |
| Text.Split | packages/core/devlib/src/routes.ts:10 | `split` on one character gives at least one piece, and no piece holds the separator |
| Text.JoinSplit | packages/core/devlib/src/routes.ts:10 | joining the pieces of a split with the separator gives back the text |
| Text.SplitJoin | packages/core/dev/src/base-plugin/routes.ts:79 | splitting a join of separator-free pieces gives back the pieces |
| Text.NatToString | packages/core/devlib/src/routes.ts:18 | a number prints as a non-empty run of decimal digits |
| Text.TrimLeft | packages/core/dev/src/cli/base.ts:80 | `trimStart` removes exactly the leading white space |
| Text.TrimRight | packages/core/dev/src/cli/base.ts:80 | `trimEnd` removes exactly the trailing white space |
| Text.TrimEmpty | packages/core/dev/src/cli/base.ts:88 | a text trims to nothing iff it is all white space |
| Text.Crc32 | packages/core/devlib/src/routes.ts:18 | the checksum lies in the unsigned 32-bit range |
| OrderedMap.Set | packages/core/dev/src/base-plugin/routes.ts:310 | `map.set` stores the value, keeps an existing key in place, and appends a new key at the end of the order |
| OrderedMap.Values | packages/core/dev/src/base-plugin/worker.ts:189 | `Array.from(map.values())` lists one value per key, in insertion order |
| OrderedMap.Empty | packages/core/dev/src/base-plugin/routes.ts:97-100 | a new map has no key |
| Output.Files.constructor | packages/generators/api-generator/src/factory.ts:54-68 | the files start as given |
| Output.Files.RenderToFile | packages/generators/api-generator/src/factory.ts:54-68 | one `renderToFile` call replaces the file's text iff its overwrite rule accepts the current content (`undefined` for a missing file) |
| Output.RuleSpec | packages/generators/solid-generator/src/factory.ts:144-149 | `!c?.trim().length` accepts a missing or blank file; `c?.trim().length === 0` accepts only an existing blank file; the `index.html` rule refuses only a non-blank file holding the marker |
| Output.ApplyAppend | packages/generators/api-generator/src/factory.ts:180-200 | calls made one after another compose |
| Output.ApplySnoc | packages/generators/api-generator/src/factory.ts:45-69 | one more call is one more step |
| Output.ApplyUntouched | packages/generators/api-generator/src/factory.ts:54-68 | a path no call names keeps its content, or stays absent |
| Output.ApplyKeepsRefused | packages/generators/solid-generator/src/factory.ts:178-181 | a file survives every call whose rule refuses its current content |
| Output.ApplyKeepsAbsent | packages/generators/api-generator/src/factory.ts:63-66 | a missing file stays missing when every call naming it refuses a missing file |
| Output.ApplyLastAlways | packages/generators/api-generator/src/factory.ts:165-176 | the last call naming a path without an overwrite rule decides its content |
| PathTokens.FindExt | packages/core/devlib/src/routes.ts:11 | the extension match found is the leftmost position where `\.([\w\d-]+)$` matches, and none exists when the result is None |
| PathTokens.SplitExtShape | packages/core/devlib/src/routes.ts:11 | base and extension concatenate back to the segment; the extension is empty or a dot followed by extension characters; it is empty exactly when the pattern matches nowhere |
| PathTokens.ExtAtUnique | packages/core/devlib/src/routes.ts:11 | the `$`-anchored extension pattern can match at one position only |
| PathTokens.NoDotNoExtension | packages/core/devlib/src/routes.ts:11 | a segment without a dot keeps its whole text as base and has an empty extension |
| PathTokens.FindExtFrom | packages/core/devlib/src/routes.ts:11 | the scan returns the first matching position at or after its start |
| PathTokens.Underscored | packages/core/devlib/src/routes.ts:18 | `replace(/\W/g, "_")` keeps the length, keeps word characters and turns every other character into `_` |
| PathTokens.ConstNameShape | packages/core/devlib/src/routes.ts:13-21 | a name of word characters is its own constant; otherwise the constant is the underscored name, `_` and the checksum of the raw segment; either way it has word characters only |
| PathTokens.Tokens | packages/core/devlib/src/routes.ts:5-59 | `pathTokensFactory`: one token per segment, classified by the three bracket patterns; stated by `PathTokens.TokensFollowSegments` and the classification lemmas |
| PathTokens.TokensFollowSegments | packages/core/devlib/src/routes.ts:10 | one token per `/`-separated segment, in order, each holding its raw segment; joining the raw segments with `/` gives back the path |
| PathTokens.Origs | packages/core/devlib/src/routes.ts:52 | the raw segments of a token list, position by position |
| PathTokens.TokenExtension | packages/core/devlib/src/routes.ts:11 | a token's base and extension concatenate to its raw segment, and the extension is empty or a dot with extension characters |
| PathTokens.ClassifyOrder | packages/core/devlib/src/routes.ts:25-49 | a base is a parameter iff one of the three forms matches; rest is tested before optional before required, and exactly one flag is set |
| PathTokens.RestShadowsRequired | packages/core/devlib/src/routes.ts:26-33 | a rest form also matches the required pattern, yet is classified as rest, with the name between `[...` and `]` |
| PathTokens.EmptyBracketsStatic | packages/core/devlib/src/routes.ts:41-48 | `[]` matches no form and is a static segment |
| PathTokens.TokenPath | packages/core/devlib/src/routes.ts:54 | a token's path is `/` exactly for a first segment `index`; otherwise it is the raw segment |
| PathTokens.ParamStartsWithBracket | packages/core/devlib/src/routes.ts:25 | only a segment starting with `[` yields a parameter |
| PathTokens.RequiredWithExtension | packages/core/devlib/src/routes.ts:10-57 | `[id].json` is a required `id` with base `[id]` and extension `.json` |
| PathTokens.OptionalWithExtension | packages/core/devlib/src/routes.ts:10-57 | `[[id]].json` is an optional `id` with base `[[id]]` and extension `.json` |
| PathTokens.ParamNameWithin | packages/core/devlib/src/routes.ts:14 | every character of a parameter name comes from its raw segment |
| Paths.NonEmpty | packages/core/devlib/src/paths.ts:40-41 | the parts `path.join` keeps are exactly the non-empty ones, in order; with `Paths.NonEmptyCounts`, each non-empty part is kept as many times as it occurs |
| Paths.NonEmptyCounts | packages/core/devlib/src/paths.ts:40-41 | the kept parts are the given ones, with the same multiplicity, less every empty part |
| Paths.NonEmptySingle | packages/core/devlib/src/paths.ts:40-41 | a single part is kept iff it is not empty |
| Paths.NonEmptyAppend | packages/core/devlib/src/paths.ts:40-41 | dropping empty parts distributes over concatenation of part lists |
| Paths.ResolveUnderRoot | packages/core/devlib/src/paths.ts:39-41 | with a non-empty application root the result is that root, `/` and the root-less result; with none (or an empty one) it is the root-less result |
| Paths.SourceShortcut | packages/core/devlib/src/paths.ts:27-28 | `@` names the source folder itself |
| Paths.CoreAndLibIgnoreSourceFolder | packages/core/devlib/src/paths.ts:29-30 | `coreDir` and `libDir` are the table's entries whatever the source folder |
| Paths.LibAndSourceNesting | packages/core/devlib/src/paths.ts:31-37 | a `...LibDir` key lies under `libDir` and then the source folder; every other key lies directly under the source folder |
| Routes.ResolveTypesFlag | packages/core/dev/src/base-plugin/routes.ts:56-62 | the flag is set iff some generator's options ask for resolved types |
| Routes.ResolveRouteFile | packages/core/dev/src/base-plugin/routes.ts:76-94 | `resolveRouteFile`: strips the root, splits on `/`, checks source folder, folder and depth, and matches the route globs; its accept and reject cases are stated by `Routes.RouteFileRoundTrip` and `Routes.AcceptedShape` |
| Routes.RouteFileRoundTrip | packages/core/dev/src/base-plugin/routes.ts:76-94 | a file under the root is accepted iff it lies in the configured source folder, at least one level inside the route folder, and matches the route glob; then the result is the folder and the rest joined with `/`, and joining root, source folder, folder and rest gives the file back |
| Routes.RelativeSegments | packages/core/dev/src/base-plugin/routes.ts:77-79 | after removing the root prefix, the segments are the source folder, the route folder and the rest |
| Routes.AcceptedShape | packages/core/dev/src/base-plugin/routes.ts:87-93 | an accepted file is in the API or pages folder, has at least two segments, walks only non-dot directories and ends in `index.ts` (API) or a page index file |
| Routes.JoinedDirName | packages/core/dev/src/base-plugin/routes.ts:113-117 | slash-free segments joined with `/` split back into themselves, and `dirname` of the joined path is all but the last segment |
| Routes.Entries | packages/core/dev/src/base-plugin/routes.ts:102-138 | files that are not route files are skipped; every entry is in a route folder and is derived from its accepted file; with `Routes.EntriesAppend` and `Routes.EntriesMembers` this is the `flatMap` over the files |
| Routes.FileEntries | packages/core/dev/src/base-plugin/routes.ts:103-138 | the `flatMap` callback: at most one entry, in a route folder, derived from the accepted file |
| Routes.EntriesAppend | packages/core/dev/src/base-plugin/routes.ts:102-138 | the entries of two lists of files are the entries of the first followed by those of the second, as `flatMap` concatenates |
| Routes.EntriesMembers | packages/core/dev/src/base-plugin/routes.ts:102-138 | an entry is produced iff some file resolves to its folder and file and the entry is the one derived from them |
| Routes.FileFullpathExpand | packages/core/dev/src/base-plugin/routes.ts:111 | with non-empty parts, the full path is root, source folder, folder and file joined with `/` |
| Routes.FullpathFolderDistinct | packages/core/dev/src/base-plugin/routes.ts:111 | an API route and a page route never share a full path, so they never share a resolver key |
| Routes.DeriveEntry | packages/core/dev/src/base-plugin/routes.ts:109-137 | the entry `resolversFactory` builds for an accepted file: name, folder, file, full path, tokens, import name and import path; stated by `Routes.EntryNameIsImportPath`, `Routes.FileFullpathExpand` and `Routes.ImportNameIsIdentifier` |
| Routes.EntryNameIsImportPath | packages/core/dev/src/base-plugin/routes.ts:113-117 | a route's name equals its import path, with one token per segment of the import path |
| Routes.BeforeBracket | packages/core/dev/src/base-plugin/routes.ts:121 | the part before the first `[` contains no `[` |
| Routes.BeforeBracketPrefix | packages/core/dev/src/base-plugin/routes.ts:121 | that part is a prefix of the import path, and all of it when there is no `[` |
| Routes.TrimStart | packages/core/dev/src/base-plugin/routes.ts:122 | `^\W+` removal leaves a suffix that is empty or starts with a word character, and it is empty iff the text has no word character |
| Routes.TrimEnd | packages/core/dev/src/base-plugin/routes.ts:122 | `\W+$` removal leaves a prefix that is empty or ends with a word character |
| Routes.Collapse | packages/core/dev/src/base-plugin/routes.ts:123 | replacing each `\W+` run by `_` leaves word characters only, and non-empty text stays non-empty |
| Routes.CollapseWord | packages/core/dev/src/base-plugin/routes.ts:123 | text of word characters is left unchanged |
| Routes.SanitizeIdempotent | packages/core/dev/src/base-plugin/routes.ts:121-123 | the cleaned name has word characters only, is idempotent, leaves word-only text alone, and is empty iff the text has no word character |
| Routes.LabelledChecksum | packages/core/dev/src/base-plugin/routes.ts:119-125 | joining two word-only parts with `_` gives a word-only text ending in `_` and the second part |
| Routes.ImportName | packages/core/dev/src/base-plugin/routes.ts:119-125 | the text before the first `[`, sanitised, then `_` and the checksum of the import path; stated by `Routes.ImportNameIsIdentifier` |
| Routes.ImportNameIsIdentifier | packages/core/dev/src/base-plugin/routes.ts:119-125 | an import name has word characters only and ends in `_` and the checksum of the import path |
| Routes.ParamsSchema | packages/core/dev/src/base-plugin/routes.ts:152-154 | the schema has at most one entry per token |
| Routes.SchemaAppend | packages/core/dev/src/base-plugin/routes.ts:152-154 | the schema of concatenated tokens is the concatenation of their schemas |
| Routes.SchemaMembers | packages/core/dev/src/base-plugin/routes.ts:152-154 | the schema holds exactly the parameters of the tokens |
| Routes.OptionalIffNoRequired | packages/core/dev/src/base-plugin/routes.ts:156-158 | `optionalParams` holds iff no token is a required parameter (an empty schema included) |
| Routes.At | packages/core/dev/src/base-plugin/routes.ts:197 | `at(index)` finds an element iff the index lies in `-length .. length-1` |
| Routes.NumericFrom | packages/core/dev/src/base-plugin/routes.ts:195-201 | at most one numeric name per refinement |
| Routes.NumericAppend | packages/core/dev/src/base-plugin/routes.ts:195-201 | numeric names of concatenated refinements concatenate |
| Routes.NumericParamsSpec | packages/core/dev/src/base-plugin/routes.ts:194-202 | a refinement adds its parameter's name iff its text is `number` and `at(index)` finds a parameter; no refinements give no numeric parameters |
| Routes.ParamsId | packages/core/dev/src/base-plugin/routes.ts:211 | the parameters' type id starts with `ParamsT` and is followed by the checksum |
| Routes.TypeRefs | packages/core/dev/src/base-plugin/routes.ts:231 | the reducer walks all payload types and then all response types |
| Routes.OverridesFrom | packages/core/dev/src/base-plugin/routes.ts:231-239 | the reducer keeps the object well-formed |
| Routes.OverridesFromSpec | packages/core/dev/src/base-plugin/routes.ts:231-239 | the reducer keeps earlier keys first; its keys are the old ones and the ids of skipped types; skipped ids map to `never`, other keys keep their value |
| Routes.OverridesSpec | packages/core/dev/src/base-plugin/routes.ts:231-239 | the overrides start with the refine type name mapped to itself (unless a skipped type has that id), and every skipped id maps to `never` |
| Cache.CacheFactory | packages/core/dev/src/base-plugin/cache.ts:29-44 | the handle keeps the route's full path and the application root; its cache file is `cache.json` under the route's import path in the API library folder of the source folder; the hashing context is the cache version and the `resolveTypes` flag |
| Cache.FileHash | packages/core/dev/src/base-plugin/cache.ts:128-147 | a missing or empty file hashes to 0 |
| Cache.Validated | packages/core/dev/src/base-plugin/cache.ts:88-119 | validation returns the record itself, and only a record with type declarations and referenced files; a record with no hash or a zero hash is refused |
| Cache.StripAsWritten | packages/core/dev/src/base-plugin/cache.ts:76 | the key as written: the first occurrence of the root and a slash is removed wherever it is; `Cache.StripAsWrittenMisses` states where this goes wrong |
| Cache.StripRoot | packages/core/dev/src/base-plugin/cache.ts:72-78 | the corrected key: it agrees with the code as written whenever the file lies under the root |
| Cache.RefKey | packages/core/dev/src/base-plugin/cache.ts:76 | chooses between the key as written and the corrected key; both agree for a file under the root |
| Cache.StripResolve | packages/core/dev/src/base-plugin/cache.ts:76 | a corrected key resolves back to its file (cache.ts:111) |
| Cache.RefHashes | packages/core/dev/src/base-plugin/cache.ts:70-78 | the referenced-file object is well-formed |
| Cache.DictEntries | packages/core/dev/src/base-plugin/cache.ts:109 | `Object.entries` lists each key with its value, in insertion order |
| Cache.RefHashesFresh | packages/core/dev/src/base-plugin/cache.ts:72-78 | each stored hash is the hash of the file its key resolves to |
| Cache.RefHashesKeys | packages/core/dev/src/base-plugin/cache.ts:72-78 | every referenced file gets a key, and every key comes from a referenced file |
| Cache.PersistedRefsFresh | packages/core/dev/src/base-plugin/cache.ts:109-116 | right after persisting, every referenced-file check passes |
| Cache.Disk.constructor | packages/core/dev/src/base-plugin/cache.ts:29-44 | starts from the given files and cache files, with no types file written and no source file refreshed |
| Cache.Disk.GetCache | packages/core/dev/src/base-plugin/cache.ts:46-58 | a missing or unparsable cache file gives nothing; otherwise the record, validated when asked |
| Cache.Disk.ValidateCache | packages/core/dev/src/base-plugin/cache.ts:88-119 | the early-return checks in order compute exactly `Validated`: non-zero hash, complete record, route hash, then every referenced hash |
| Cache.Persisted | packages/core/dev/src/base-plugin/cache.ts:60-86 | the record `persistCache` writes: the route hash, the referenced hashes by key and the data; stated by `Cache.PersistThenValidate`, `Cache.PersistedRefsFresh` and `Cache.StripAsWrittenNeverValidates` |
| Cache.CollectRefHashes | packages/core/dev/src/base-plugin/cache.ts:72-78 | the loop over the referenced files builds exactly the referenced-file object `Cache.RefHashes` specifies |
| Cache.Disk.PersistCache | packages/core/dev/src/base-plugin/cache.ts:60-86 | writes the record with the route hash and the referenced hashes to the cache file, returns it, and changes nothing else |
| Cache.Disk.Refresh | packages/core/dev/src/base-plugin/routes.ts:172-174 | records the reload of the route's source file and changes nothing else |
| Cache.Disk.WriteTypes | packages/core/dev/src/base-plugin/routes.ts:250-254 | writes the route's `types.ts` and changes nothing else |
| Cache.PersistThenValidate | packages/core/dev/src/base-plugin/cache.ts:60-119 | round trip: a record persisted while the route file hashes to non-zero validates, unchanged, while no file changes |
| Cache.PersistThenGetCache | packages/core/dev/src/base-plugin/cache.ts:46-119 | after persisting, a validating read of the cache file returns the record just written |
| Cache.RouteChangeInvalidates | packages/core/dev/src/base-plugin/cache.ts:100-107 | a route file whose salted hash changed invalidates the record |
| Cache.ReferenceChangeInvalidates | packages/core/dev/src/base-plugin/cache.ts:109-116 | any referenced file whose hash changed invalidates the record |
| Cache.EmptyRouteNeverValidates | packages/core/dev/src/base-plugin/cache.ts:91-107 | an empty or missing route file never validates |
| Cache.MissingReferenceFreshIffZero | packages/core/dev/src/base-plugin/cache.ts:133-138 | a deleted referenced file passes its check iff its stored hash is 0 |
| Cache.GetCacheWithoutValidation | packages/core/dev/src/base-plugin/cache.ts:49-57 | without validation the parsed record is returned unchecked; a missing or unparsable file gives nothing either way |
| Cache.StripAsWrittenMisses | packages/core/dev/src/base-plugin/cache.ts:76 | as written, a file outside the root that contains the root and a slash further in loses that occurrence, and its key no longer resolves back to it |
| Cache.StripAsWrittenExample | packages/core/dev/src/base-plugin/cache.ts:76 | with root `/app`, `/srv/app/types.ts` is stored under `/srvtypes.ts` |
| Cache.StripAsWrittenNeverValidates | packages/core/dev/src/base-plugin/cache.ts:109-116 | as written, a referenced file that does not start with the root but holds the root and a slash further in, with a non-zero hash, is stored under a key that resolves to no file, so the record fails validation (`Validated` gives none) although nothing changed |
| Resolver.FindResolved | packages/core/dev/src/base-plugin/routes.ts:256-258 | `find` by name: nothing without resolved types; a found type has the id and comes from the list; nothing found means no type has that name |
| Resolver.Assemble | packages/core/dev/src/base-plugin/routes.ts:282-302 | the route keeps its entry and `optionalParams`, and has one expanded path per stored referenced file |
| Resolver.PageHandler | packages/core/dev/src/base-plugin/routes.ts:325-343 | a page handler yields a page route for its own entry |
| Resolver.RefinedSchema | packages/core/dev/src/base-plugin/routes.ts:218-223 | one template entry per schema parameter, in order, the i-th holding the i-th parameter and `paramsRefinements?.at(i)`: none without refinements, else present iff i is within the refinements |
| Resolver.ApiHandler | packages/core/dev/src/base-plugin/routes.ts:151-308 | never changes source files. A validated cache hit is reused with no write. A miss refreshes the source only when the updated file is the route itself, and runs the extractor; a failing extractor writes nothing. A successful miss writes `types.ts` with the resolved template iff types are resolved, persists the record with the `ParamsT` id, the schema and the numeric parameters, and builds the route from it. When the route hashes to non-zero, the next validated read is a hit |
| Resolver.RunResolver | packages/core/dev/src/base-plugin/routes.ts:310 | a handler result is about its own entry; a page handler touches nothing |
| Resolver.SetKeepsWellKeyed | packages/core/dev/src/base-plugin/routes.ts:310 | `resolvers.set(fileFullpath, {name, handler})` keeps every resolver keyed by its full path and named after its route |
| Resolver.SetKeepsApiFirst | packages/core/dev/src/base-plugin/routes.ts:345 | setting a page resolver on a key that holds no API resolver keeps the API resolvers ahead of the page ones |
| Resolver.InsertApi | packages/core/dev/src/base-plugin/routes.ts:140-311 | the first loop inserts exactly the API entries, each under its full path |
| Resolver.PageKeyFree | packages/core/dev/src/base-plugin/routes.ts:313-346 | a page's key never holds an API resolver |
| Resolver.InsertPages | packages/core/dev/src/base-plugin/routes.ts:313-346 | the second loop keeps every API key and adds every page entry under its full path, the API resolvers staying first |
| Resolver.ResolversFactory | packages/core/dev/src/base-plugin/routes.ts:96-349 | one resolver per route entry, keyed by its full path and named after its route; API resolvers come before page resolvers in the map's order |
| Worker.Referencing | packages/core/dev/src/base-plugin/worker.ts:146-156 | collecting the referencing routes' resolvers keeps the map well-formed |
| Worker.ReferencingSpec | packages/core/dev/src/base-plugin/worker.ts:146-156 | the collected keys are the earlier ones plus the full path of every API route that references the file and has a resolver, each mapped to that resolver |
| Worker.PicksValues | packages/core/dev/src/base-plugin/worker.ts:146-150 | over a map keyed by full path, picking a route among its values is a lookup by key |
| Worker.ReferencingRoutes | packages/core/dev/src/base-plugin/worker.ts:146-156 | the referenced-file selection holds exactly the resolved API routes that list the file and have a resolver |
| Worker.RelatedSpec | packages/core/dev/src/base-plugin/worker.ts:135-157 | each selected resolver is the one stored under its key; a resolved route selects only its own resolver; any other file selects exactly the referencing API routes |
| Worker.FailedRouteNotRetried | packages/core/dev/src/base-plugin/worker.ts:138-157 | a route file that never resolved, and that no API route references, re-runs no resolver when it changes |
| Worker.EntriesSingle | packages/core/dev/src/base-plugin/routes.ts:102-138 | for a single file the entries are empty or the file's own derived entry (`Routes.FileEntries`) |
| Worker.FactorySingle | packages/core/dev/src/base-plugin/worker.ts:118 | for a single file the factory's map is non-empty iff the file is a route file, and its first resolver is that file's |
| Worker.FirstResolver | packages/core/dev/src/base-plugin/worker.ts:118 | `const [resolver] = resolversFactory([file]).values()` yields the file's own resolver, or none |
| Worker.CheckRouteFile | packages/core/dev/src/base-plugin/worker.ts:236-239 | the listener's route-file test is `resolveRouteFile` |
| Worker.EventKindOf | packages/core/dev/src/base-plugin/worker.ts:241-249 | exactly `add`, `change` and `unlink` have a handler |
| Worker.Registered | packages/core/dev/src/base-plugin/worker.ts:287-299 | a name is registered iff some generator of that name resolved; the order is stated by `Worker.RegisteredAppend` and `Worker.RegisteredOne` |
| Worker.RegisteredAppend | packages/core/dev/src/base-plugin/worker.ts:287-291 | the loop pushes in configuration order: the handlers of `a + b` are those of `a` followed by those of `b` |
| Worker.RegisteredOne | packages/core/dev/src/base-plugin/worker.ts:289-291 | one generator pushes its own name iff its factory resolved, and nothing otherwise |
| Worker.ApplyOutcomes | packages/core/dev/src/base-plugin/worker.ts:265-279 | storing the resolved routes keeps the map well-formed |
| Worker.ApplyKeepsKeys | packages/core/dev/src/base-plugin/worker.ts:265-279 | runs never remove a route and keep the map keyed by full path |
| Worker.ApplyKeepsUntouched | packages/core/dev/src/base-plugin/worker.ts:269-278 | a failing resolver leaves the previous route (or its absence) in place |
| Worker.ApplyLastWins | packages/core/dev/src/base-plugin/worker.ts:161-173 | the last successful run for a full path decides its route |
| Worker.ApplyKeysExactly | packages/core/dev/src/base-plugin/worker.ts:265-279 | the stored keys are the earlier ones plus the full path of every successful run |
| Worker.Worker.constructor | packages/core/dev/src/base-plugin/worker.ts:67-79 | start-up state: the factory's resolvers, keyed by full path with API resolvers first, no route resolved, no handler registered |
| Worker.Worker.Apply | packages/core/dev/src/base-plugin/worker.ts:269-278 | one guarded run logs its outcome; success stores the route under its full path, failure changes no map |
| Worker.Worker.Register | packages/core/dev/src/base-plugin/worker.ts:121-131 | on success the resolver is recorded under the file and its route under the route's full path; on failure both maps stay as they were |
| Worker.Worker.CreateEvent | packages/core/dev/src/base-plugin/worker.ts:117-133 | a file without a resolver changes nothing; otherwise its resolver runs once and is registered only on success |
| Worker.Worker.SelectRelated | packages/core/dev/src/base-plugin/worker.ts:136-157 | the loop builds exactly `Related` |
| Worker.Worker.RunRelated | packages/core/dev/src/base-plugin/worker.ts:161-173 | each related resolver runs once, in order; a failure does not stop the rest; the routes become the earlier ones updated by the outcomes |
| Worker.Worker.UpdateEvent | packages/core/dev/src/base-plugin/worker.ts:135-176 | the related resolvers are selected before any runs, then run in order as `RunRelated` states; the resolvers map is unchanged |
| Worker.Worker.RunWatchHandlers | packages/core/dev/src/base-plugin/worker.ts:182-206 | every registered handler is called once, in order, on the same snapshot of routes and the event; a failing handler does not skip the later ones; no map changes |
| Worker.Worker.HandleEvent | packages/core/dev/src/base-plugin/worker.ts:178-180 | the create handler either changes nothing (no route) or logs the created resolver's outcome and, when it resolves, adds the resolver and its route; the update handler runs the related resolvers in order, logs them and applies their outcomes to the routes, leaving the resolvers; the delete handler changes no map |
| Worker.Worker.Dispatch | packages/core/dev/src/base-plugin/worker.ts:230-260 | directory events, non-route files and unknown events change nothing; otherwise the state handler runs before the generators see the event, with the create and update effects of `Worker.Worker.HandleEvent`; a delete changes no map |
| Worker.Worker.ResolveAll | packages/core/dev/src/base-plugin/worker.ts:262-282 | every resolver runs once, in map order; the routes are the stored outcomes |
| Worker.Worker.InitGenerators | packages/core/dev/src/base-plugin/worker.ts:284-302 | the handlers registered are `Registered(gens)` |
| Worker.Worker.Start | packages/core/dev/src/base-plugin/worker.ts:262-304 | after start-up the resolved routes are exactly those whose resolver succeeded, the handlers are the generators that initialised, and each handler ran once with no event |
| Plugin.FirstOfKind | packages/core/dev/src/base-plugin/index.ts:171-173 | `find` by kind returns a configured generator of that kind, and nothing iff none has it |
| Plugin.FirstOfKindIsFirst | packages/core/dev/src/base-plugin/index.ts:171-173 | the generator found is the first of its kind |
| Plugin.UserGenerators | packages/core/dev/src/base-plugin/index.ts:187-191 | the filter keeps exactly the generators without a reserved kind |
| Plugin.UserGeneratorsAppend | packages/core/dev/src/base-plugin/index.ts:187-191 | the filter keeps the order of what it keeps |
| Plugin.CountKindAppend | packages/core/dev/src/base-plugin/index.ts:179-194 | counts of a kind add up over concatenation |
| Plugin.Ordered | packages/core/dev/src/base-plugin/index.ts:179-194 | the generator list the plugin runs: stub, API, fetch, user generators, SSR; stated by `Plugin.GeneratorOrder` and `Plugin.GeneratorKindsOnce` |
| Plugin.GeneratorOrder | packages/core/dev/src/base-plugin/index.ts:179-194 | the stub generator runs first; then the first configured API generator or the built-in one; then the first fetch generator or the built-in one; then the user generators in order; and the first SSR generator last, present iff one is configured |
| Plugin.GeneratorKindsOnce | packages/core/dev/src/base-plugin/index.ts:179-194 | exactly one API and one fetch generator run, and one SSR generator iff one is configured: later generators of a reserved kind are dropped |
| Plugin.Modules | packages/core/dev/src/base-plugin/index.ts:40-42 | one `(moduleImport, moduleConfig)` pair per generator |
| Plugin.Reimport | packages/core/dev/src/base-plugin/worker.ts:51-53 | the worker rebuilds one generator per pair |
| Plugin.ModulesRoundTrip | packages/core/dev/src/base-plugin/index.ts:40-42 | handing the pairs to the worker keeps the generators and their order, when each module's default export rebuilds its generator (worker.ts:51-53) |
| Plugin.FirstFailure | packages/core/dev/src/base-plugin/index.ts:222-232 | every generator before the stopping one initialised and its handler completed; the stopping one failed in one of the two |
| Plugin.RunGeneratorsOnce | packages/core/dev/src/base-plugin/index.ts:222-232 | generators run in order on all routes with no event; the first factory or handler that throws ends the pass, and only a pass without a failure succeeds |
| Plugin.ResolveOnce | packages/core/dev/src/base-plugin/index.ts:209-220 | every resolver runs in map order and its route is collected, stopping at the first that throws; source files are not changed |
| Plugin.EveryEntryResolved | packages/core/dev/src/base-plugin/index.ts:206-220 | a loop that went through every resolver produced a route for every entry |
| Plugin.BuildPass | packages/core/dev/src/base-plugin/index.ts:205-233 | the build collects routes of the discovered entries, API routes first; a failed resolver loop runs no generator; a complete one covers every entry and then runs the generators until the first failure |
| Plugin.SpinnerStep | packages/core/dev/src/base-plugin/index.ts:86-98 | a progress message removes its spinner iff it succeeds or fails; other spinners are untouched; a live spinner keeps the text it started with |
| Plugin.LastFor | packages/core/dev/src/base-plugin/index.ts:86-98 | the last message for an id comes from the stream and has that id; none iff no message names it |
| Plugin.SpinnerLive | packages/core/dev/src/base-plugin/index.ts:86-98 | a spinner is live iff the last message for its id neither succeeded nor failed; ids no message names keep their state |
| Plugin.ReportKeepsStack | packages/core/dev/src/base-plugin/index.ts:99-104 | an error with a stack prints the first stack line as headline and the rest as trace, losing nothing |
| Plugin.ReadyAtMostOnce | packages/core/dev/src/base-plugin/index.ts:114-121 | the ready listener removes itself, so `onReady` runs once if `"ready"` ever arrives and never otherwise |
| Plugin.Host.constructor | packages/core/dev/src/base-plugin/index.ts:68-121 | a new host has no spinner, no report, an attached ready listener and no ready call |
| Plugin.Host.Receive | packages/core/dev/src/base-plugin/index.ts:83-121 | one message updates the spinners, appends an error report, or detaches the ready listener and calls `onReady` |
| Plugin.Host.ReceiveAll | packages/core/dev/src/base-plugin/index.ts:83-121 | over a stream: the spinners are the folded progress messages, and `onReady` ran as `ReadyAtMostOnce` states |
| RoutePaths.EscapePlus | packages/generators/solid-generator/src/factory.ts:325 | escaping lengthens or keeps the text, and text without `+` is unchanged |
| RoutePaths.EscapeHead | packages/generators/solid-generator/src/factory.ts:325 | an escaped text has no `+` in its first two places: every `+` follows its two backslashes |
| RoutePaths.EscapeRoundTrip | packages/generators/solid-generator/src/factory.ts:325 | escaping loses nothing: reading each `\\+` back as `+` gives the original |
| RoutePaths.StaticSegments | packages/generators/solid-generator/src/factory.ts:187-189 | the static count never exceeds the number of tokens |
| RoutePaths.StaticPlusParams | packages/generators/solid-generator/src/factory.ts:187-189 | every token is counted either as static or in the parameter schema |
| RoutePaths.TextLeTotal | packages/generators/solid-generator/src/factory.ts:230 | the path order compares any two paths |
| RoutePaths.TextLeTrans | packages/generators/solid-generator/src/factory.ts:230 | the path order is transitive |
| RoutePaths.KeyLeTotal | packages/generators/solid-generator/src/factory.ts:210-232 | the comparator (more static segments first, then by path) relates any two routes |
| RoutePaths.KeyLeTrans | packages/generators/solid-generator/src/factory.ts:210-232 | the comparator is transitive, so the sort is well-defined |
| RoutePaths.Insert | packages/generators/solid-generator/src/factory.ts:210-232 | inserting adds exactly one element |
| RoutePaths.InsertPermutes | packages/generators/solid-generator/src/factory.ts:210-232 | inserting adds the element and keeps every other one, each as often |
| RoutePaths.InsertSorted | packages/generators/solid-generator/src/factory.ts:210-232 | inserting into a sorted list keeps it sorted |
| RoutePaths.SortBy | packages/generators/solid-generator/src/factory.ts:210-232 | sorting keeps the length |
| RoutePaths.SortBySpec | packages/generators/solid-generator/src/factory.ts:210-232 | the sorted table is ordered by the comparator and is a permutation of the input |
| RoutePaths.SortedStaticsFirst | packages/generators/solid-generator/src/factory.ts:211-226 | in the sorted table a route with more static segments comes before one with fewer, so `/users/account` precedes `/users/:id` |
| RoutePaths.Pages | packages/generators/solid-generator/src/factory.ts:156-159 | the page routes of the entries, in order: a route is listed iff its page entry is present |
| RoutePaths.Apis | packages/generators/api-generator/src/factory.ts:101-110 | the API routes of the entries, in order: a route is listed iff its API entry is present |
| RoutePaths.FirstMatch | packages/generators/solid-generator/src/factory.ts:161-163 | `find` returns a pair from the list whose pattern matches the name, and nothing iff no pattern matches |
| RoutePaths.FirstMatchIsFirst | packages/generators/solid-generator/src/factory.ts:161-163 | the pair found is the first whose pattern matches |
| RoutePaths.ChooseTemplate | packages/generators/solid-generator/src/factory.ts:169 | the template is the fallback, or the non-empty template of a matching custom pattern |
| SolidGenerator.SegmentRoundTrip | packages/generators/solid-generator/src/factory.ts:312-323 | an index `/` contributes nothing; any other readable token contributes one non-empty, slash-free element (`*name`, `:name?`, `:name` or the path) that the router decodes back to the token's shape |
| SolidGenerator.ElementsShapes | packages/generators/solid-generator/src/factory.ts:311-323 | the elements line up one-to-one with the contributing tokens' shapes, each decoding to its shape |
| SolidGenerator.PathFactory | packages/generators/solid-generator/src/factory.ts:310-326 | the router path of a page: its elements joined with `/`, then `+`-escaped; stated by `SolidGenerator.PathFactoryRoundTrip` |
| SolidGenerator.PathFactoryRoundTrip | packages/generators/solid-generator/src/factory.ts:310-326 | the router recovers every parameter and static segment, in order, from the generated path |
| SolidGenerator.IndexPathExample | packages/generators/solid-generator/src/factory.ts:322 | the route `index` gets the empty router path |
| SolidGenerator.ParamPathExample | packages/generators/solid-generator/src/factory.ts:310-326 | the route `index/[id]` gets the router path `:id` |
| SolidGenerator.PageRecords | packages/generators/solid-generator/src/factory.ts:192-209 | one record per page entry, in order, each with its path `join("/", pathFactory(tokens))` |
| SolidGenerator.IndexRoutesSpec | packages/generators/solid-generator/src/factory.ts:191-232 | the router table is a permutation of the page records; it holds every page entry and nothing else; it is sorted with more static segments first and then by path |
| SolidGenerator.Eligible | packages/generators/solid-generator/src/factory.ts:238-265 | exactly the API routes that handle GET and whose parameters are all optional |
| SolidGenerator.ResourceRoutesSpec | packages/generators/solid-generator/src/factory.ts:238-269 | `apiRoutes` holds exactly the eligible API entries, each as often as it occurs, ordered by name |
| SolidGenerator.PageTemplateSpec | packages/generators/solid-generator/src/factory.ts:161-169 | the welcome page iff the route is `index`; otherwise the first matching custom template when non-empty, else the default page |
| SolidGenerator.GeneratePublicFiles | packages/generators/solid-generator/src/factory.ts:155-185 | the files after the loop are those after `PublicWrites`: each page file is filled only while blank |
| SolidGenerator.GenerateIndexFiles | packages/generators/solid-generator/src/factory.ts:191-293 | the files after the loop are those after the three library writes, rendered from the context |
| SolidGenerator.WatchHandler | packages/generators/solid-generator/src/factory.ts:296-306 | page files are filled on the first call and on create events, then the library files are always regenerated |
| SolidGenerator.PublicWritesPages | packages/generators/solid-generator/src/factory.ts:155-185 | one blank-only write per page entry, in entry order |
| SolidGenerator.HandlerKeepsEditedPages | packages/generators/solid-generator/src/factory.ts:178-181 | outside the three library files, a file with non-blank text is never changed by the handler |
| SolidGenerator.HandlerOnlyIndexOnChange | packages/generators/solid-generator/src/factory.ts:300-305 | on update and delete events only the three library files can change |
| SolidGenerator.HandlerRegeneratesIndex | packages/generators/solid-generator/src/factory.ts:281-292 | on every call each library file holds its rendering of the current context, when the three names are distinct |
| SolidGenerator.ScaffoldWrites | packages/generators/solid-generator/src/factory.ts:120-153 | one write per scaffold file, under the source folder, with its overwrite rule; stated by `SolidGenerator.ScaffoldKeepsUserFiles` |
| SolidGenerator.ScaffoldKeepsUserFiles | packages/generators/solid-generator/src/factory.ts:120-153 | a scaffold file the user has written to is kept; `index.html` only while it still holds `<!--app-html-->`; the other scaffold files whenever they are not blank |
| ApiGenerator.Elements | packages/generators/api-generator/src/factory.ts:205-217 | `flatMap` collects exactly one element per token other than the index `/` (`RoutePaths.Shapes`) |
| ApiGenerator.ElementsShapes | packages/generators/api-generator/src/factory.ts:205-217 | position by position, each element decodes to the shape of its contributing token |
| ApiGenerator.SegmentRoundTrip | packages/generators/api-generator/src/factory.ts:206-217 | a token contributes nothing iff it is the index `/`; any other readable token contributes one element (`{*name}`, `{/:name}`, `:name` or the bare path) that decodes back to its shape |
| ApiGenerator.PathFactory | packages/generators/api-generator/src/factory.ts:204-220 | the router path of an API route: its elements joined with `/`, then `+`-escaped; stated by `ApiGenerator.PathFactoryUnescapes` and `ApiGenerator.SegmentRoundTrip` |
| ApiGenerator.PathFactoryUnescapes | packages/generators/api-generator/src/factory.ts:204-220 | undoing the `+` escape gives the elements joined with `/` |
| ApiGenerator.Aliases | packages/generators/api-generator/src/factory.ts:123-138 | at most one alias entry per alias pair |
| ApiGenerator.AliasesSpec | packages/generators/api-generator/src/factory.ts:123-140 | one alias entry per pair naming the route, each built from its URL; a route no alias names is listed once, as its base entry |
| ApiGenerator.AliasImportName | packages/generators/api-generator/src/factory.ts:131 | an alias's import name stays an identifier, ending in `_` and the checksum of the URL |
| ApiGenerator.UnsortedMembers | packages/generators/api-generator/src/factory.ts:102-141 | every API route has its base entry, and every entry belongs to one of the routes |
| ApiGenerator.IndexEntriesSpec | packages/generators/api-generator/src/factory.ts:101-163 | the index table is a permutation of the unsorted entries; it holds every API route's base entry and only entries of API routes; it is sorted with more static tokens first and then by path |
| ApiGenerator.Related | packages/generators/api-generator/src/factory.ts:182-186 | exactly the API entries whose full path is the event's file |
| ApiGenerator.GeneratePublicFiles | packages/generators/api-generator/src/factory.ts:44-70 | the files after the loop are those after `PublicWrites`: each API route file is filled only when it exists and is blank |
| ApiGenerator.GenerateLibFiles | packages/generators/api-generator/src/factory.ts:72-95 | the files after the loop are those after `LibWrites`: each API route's library `index.ts` is replaced |
| ApiGenerator.WatchHandler | packages/generators/api-generator/src/factory.ts:180-200 | the files after the handler are those after `HandlerWrites`: the route writes the event selects, then the index |
| ApiGenerator.PublicWritesApis | packages/generators/api-generator/src/factory.ts:44-70 | one write per API entry, in order |
| ApiGenerator.LibWritesApis | packages/generators/api-generator/src/factory.ts:72-95 | one write per API entry, in order |
| ApiGenerator.HandlerWrites | packages/generators/api-generator/src/factory.ts:180-200 | the writes of one watch-handler call, in order; stated by `ApiGenerator.HandlerWritesShape` |
| ApiGenerator.HandlerWritesShape | packages/generators/api-generator/src/factory.ts:180-200 | route files are filled on the first call and on create; library files on every call but delete; with an event, only the related entries are in scope |
| ApiGenerator.RouteWritesAvoid | packages/generators/api-generator/src/factory.ts:54-92 | a path that is neither a route file nor a library file in scope is never named |
| ApiGenerator.RouteWritesRules | packages/generators/api-generator/src/factory.ts:63-66 | outside the library files, every write fills a blank route file only |
| ApiGenerator.HandlerOnlyTouchesRelated | packages/generators/api-generator/src/factory.ts:181-192 | with an event, only the index and the files of the routes whose file is the event's can change |
| ApiGenerator.HandlerOnDelete | packages/generators/api-generator/src/factory.ts:181-199 | a delete event rewrites the index and nothing else |
| ApiGenerator.HandlerRegeneratesIndex | packages/generators/api-generator/src/factory.ts:199 | every call rewrites the index from the current entries |
| ApiGenerator.HandlerRouteFiles | packages/generators/api-generator/src/factory.ts:65 | a missing route file is never created, and one the user has written to is kept |
| SsrGenerator.Collapse | packages/generators/ssr-generator/src/factory.ts:38 | the global `/{` replacement never lengthens the text |
| SsrGenerator.CollapseClean | packages/generators/ssr-generator/src/factory.ts:38 | the scan passes a clean element through unchanged and continues with what follows it |
| SsrGenerator.CollapseJoin | packages/generators/ssr-generator/src/factory.ts:37-38 | for clean elements, joining with `/` and then dropping each `/` before `{` is gluing: every element is separated by `/` except one that opens a `{...}` group, which attaches to the one before it |
| SsrGenerator.ElementClean | packages/generators/ssr-generator/src/factory.ts:25-36 | the element of a slash-free token has no `/{` inside and no trailing `/` |
| SsrGenerator.TokensSlashFree | packages/generators/ssr-generator/src/factory.ts:24-36 | every token of a route path is slash-free, static text and parameter names alike |
| SsrGenerator.Pattern | packages/generators/ssr-generator/src/factory.ts:23-40 | the route pattern the SSR server matches; stated by `SsrGenerator.PatternGlue` |
| SsrGenerator.PatternGlue | packages/generators/ssr-generator/src/factory.ts:23-40 | the pattern of a route is its elements glued and then `+`-escaped |
| SsrGenerator.CollapseRescan | packages/generators/ssr-generator/src/factory.ts:38 | the scan does not re-read its output: `//{` becomes `/{` |
| SsrGenerator.Ends | packages/generators/ssr-generator/src/factory.ts:56-61 | the variation ends below `n` are indices below `n` |
| SsrGenerator.EndsSpec | packages/generators/ssr-generator/src/factory.ts:56-61 | the ends are strictly increasing, and an index is an end iff it is the last token or the next token is optional or rest |
| SsrGenerator.Variations | packages/generators/ssr-generator/src/factory.ts:55-62 | one router pattern per variation end |
| SsrGenerator.Manifest | packages/generators/ssr-generator/src/factory.ts:64-76 | one manifest path per variation end |
| SsrGenerator.EndsCountBelow | packages/generators/ssr-generator/src/factory.ts:56-61 | the ends below `n` are as many as the optional or rest tokens among positions 1 to `n` |
| SsrGenerator.VariationCount | packages/generators/ssr-generator/src/factory.ts:55-76 | a route has one variation for its full path plus one per optional or rest token after the first, and as many manifest paths |
| SsrGenerator.LastVariation | packages/generators/ssr-generator/src/factory.ts:55-76 | the last variation is the route's full pattern, and the last manifest path is its full path under the pages folder |
| SsrGenerator.VariationsAligned | packages/generators/ssr-generator/src/factory.ts:55-76 | pattern and manifest path of the same variation cover the same prefix, and the token after that prefix is optional or rest |
| SsrGenerator.OptionalTailExample | packages/generators/ssr-generator/src/factory.ts:42-62 | `a/[[b]]` yields `a` and then `a{/:b}`, shortest first |
| SsrGenerator.BundledRoutes | packages/generators/ssr-generator/src/factory.ts:145-152 | routes are bundled iff there is no event and the command is `build`, and then exactly the page routes |
| TypeboxGenerator.FindPayload | packages/generators/typebox-generator/src/factory.ts:58 | `find` by method returns the first payload type of that method, and nothing iff there is none |
| TypeboxGenerator.FindResponse | packages/generators/typebox-generator/src/factory.ts:59-61 | `find` by method returns the first response type of that method, and nothing iff there is none |
| TypeboxGenerator.RouteMethods | packages/generators/typebox-generator/src/factory.ts:55-63 | one item per method, in the route's order, each with its first payload type and its first response type |
| TypeboxGenerator.FirstPayloadUnique | packages/generators/typebox-generator/src/factory.ts:58 | the first match is unique, so the item is determined by the route |
| TypeboxGenerator.Somes | packages/generators/typebox-generator/src/factory.ts:66-80 | dropping `undefined` keeps exactly the present values, in order |
| TypeboxGenerator.SomesAppend | packages/generators/typebox-generator/src/factory.ts:64-81 | dropping `undefined` distributes over concatenation |
| TypeboxGenerator.PayloadSources | packages/generators/typebox-generator/src/factory.ts:66-68 | the payload types' resolved types, position by position |
| TypeboxGenerator.ResponseSources | packages/generators/typebox-generator/src/factory.ts:69-71 | the response types' resolved types, position by position |
| TypeboxGenerator.Literals | packages/generators/typebox-generator/src/factory.ts:72-81 | each resolved type keeps its name and gets its text rewritten as a TypeBox literal |
| TypeboxGenerator.ResolvedTypesOrder | packages/generators/typebox-generator/src/factory.ts:64-81 | the params type comes first, then the payload types, then the response types, each group in declaration order |
| TypeboxGenerator.LiteralsAppend | packages/generators/typebox-generator/src/factory.ts:72-81 | the rewrite distributes over concatenation |
| TypeboxGenerator.ResolvedTypesMembers | packages/generators/typebox-generator/src/factory.ts:64-81 | a type is listed iff the params, some payload or some response of the route resolved to it |
| TypeboxGenerator.Affected | packages/generators/typebox-generator/src/factory.ts:96-101 | exactly the API entries defined in the updated file or referencing it |
| TypeboxGenerator.Selection | packages/generators/typebox-generator/src/factory.ts:92-108 | the entries whose schemas a call regenerates; stated by `TypeboxGenerator.SelectionSpec` |
| TypeboxGenerator.SelectionSpec | packages/generators/typebox-generator/src/factory.ts:92-108 | the schemas regenerated are every API route's on the first call, those defined in or referencing the file on an update, and none on create or delete |
| TypeboxGenerator.GenerateLibFiles | packages/generators/typebox-generator/src/factory.ts:44-89 | the files after the loop are those after `SchemaWrites`: one write per API entry |
| TypeboxGenerator.WatchHandler | packages/generators/typebox-generator/src/factory.ts:92-108 | the files after the handler are those after the schema writes of the selection |
| TypeboxGenerator.SchemaWritesApis | packages/generators/typebox-generator/src/factory.ts:45-51 | one write per API entry, in order, at `apiLibDir/<importPath>/schemas.ts` |
| TypeboxGenerator.SchemaWritesFill | packages/generators/typebox-generator/src/factory.ts:44-89 | after the loop every API route's schema file holds that route's rendering |
| TypeboxGenerator.HandlerFiles | packages/generators/typebox-generator/src/factory.ts:92-108 | the handler rewrites the schema file of every selected route and leaves every other file as it was |
| Cli.ValidateName | packages/core/dev/src/cli/base.ts:61-69 | a name is accepted iff it is present, non-empty and made only of `[\w.@$+-]` characters; a missing or empty name gets the invalid-name message, any other rejection the character message |
| Cli.NameIsOneSegment | packages/core/dev/src/cli/base.ts:65-67 | an accepted name is a single path segment: no `/`, no `\`, no white space |
| Cli.DotNamesPass | packages/core/dev/src/cli/base.ts:65-67 | the names `.` and `..` are accepted |
| Cli.ValidateBase | packages/core/dev/src/cli/base.ts:71-85 | the slash message is returned iff the base is missing or does not start with `/`; the traversal message iff it starts with `/` and its trimmed text holds `../` or `/./`; no message iff it starts with `/` and holds neither |
| Cli.BaseAcceptedSegments | packages/core/dev/src/cli/base.ts:75-83 | in an accepted base, no segment of the trimmed text but the last is `..`, and no interior segment is `.` |
| Cli.TrailingParentPasses | packages/core/dev/src/cli/base.ts:75-83 | a trailing `/..` is accepted: both patterns need a slash after the dots |
| Cli.TraversalInsideSegment | packages/core/dev/src/cli/base.ts:75-83 | `/a../b` is refused as a traversal although none of its segments is `..`: the test is on the text |
| Cli.DotsWithinSegment | packages/core/dev/src/cli/base.ts:75-83 | the segments of `/a../b` are the empty one, `a..` and `b` |
| Cli.ValidatePort | packages/core/dev/src/cli/base.ts:87-92 | `validatePort` as written: a falsy port (`undefined`, `0`, `NaN`, `""`) or one whose `String(port)`, trimmed, has a non-digit is refused; stated by `Cli.PortNumber`, `Cli.NonFinitePortsRefused` and `Cli.BlankPortPasses` |
| Cli.ValidatePortStrict | packages/core/dev/src/cli/base.ts:87-92 | the corrected check, which also refuses an empty trimmed text; stated by `Cli.PortStrictAccepts` and `Cli.PortStrictDiffers` |
| Cli.PortNumber | packages/core/dev/src/cli/base.ts:87-92 | a numeric port is accepted iff it is positive and below 10^21; from 10^21 on `String` prints exponent text, which is refused |
| Cli.NumberString | packages/core/dev/src/cli/base.ts:88 | `String(n)` for a number with an integer value: plain decimal below 10^21 in magnitude, exponent text `d.ddde+x` from there on; stated by `Cli.PortNumber` and `Cli.ExponentRefused` |
| Cli.ExponentRefused | packages/core/dev/src/cli/base.ts:87-92 | a number of 10^21 or more in magnitude prints as a text with nothing to trim and an `e`, so it is refused |
| Cli.ExponentText | packages/core/dev/src/cli/base.ts:88 | a sign, digits and points, `e+` and digits form a text `trim` keeps and that holds a non-digit |
| Cli.NonFinitePortsRefused | packages/core/dev/src/cli/base.ts:87-92 | `NaN` (falsy) and both infinities (`Infinity`, `-Infinity`) are refused |
| Cli.BlankPortPasses | packages/core/dev/src/cli/base.ts:88 | as written, a port text of white space only is accepted |
| Cli.PortStrictAccepts | packages/core/dev/src/cli/base.ts:87-92 | with the corrected check, an accepted port is a non-empty run of digits once trimmed |
| Cli.PortStrictDiffers | packages/core/dev/src/cli/base.ts:87-92 | the corrected check differs from the written one exactly on non-empty texts of white space |
| Cli.AssertNoError | packages/core/dev/src/cli/base.ts:94-99 | `assertNoError` throws iff the validator returned a non-empty message; the thrown message starts with `✗ ERROR: ` and ends with that message |
| Cli.ValidatorsThrow | packages/core/dev/src/cli/base.ts:61-99 | every validator message makes `assertNoError` throw, and acceptance lets it pass |
| Cli.Excluded | packages/core/dev/src/cli/base.ts:39-41 | `exclude.some(...)` holds iff some item matches: a name equal to the basename, or a pattern whose `test` accepts the path |
| Cli.CopiedSpec | packages/core/dev/src/cli/base.ts:37-49 | a path is copied iff no exclude matches it, so an empty list copies everything |
| Cli.ExcludeNameByBasename | packages/core/dev/src/cli/base.ts:40 | a name exclude removes exactly the paths whose last segment is that name, at any depth |

## Left out

- File system, processes and timing: globbing the route files (`packages/core/dev/src/base-plugin/routes.ts:351-359`), `pathExists`, `cp`, `mkdir`, the worker thread and its `parentPort`, and the spinner messages (`packages/core/dev/src/base-plugin/worker.ts:83-115`) are not modelled; file contents are a map passed in.
- The TypeScript type checker: `resolveRouteSignature`, its extractor (`packages/core/dev/src/base-plugin/routes.ts:183-192`) and `literalTypesResolver` (`packages/core/dev/src/base-plugin/routes.ts:230-243`) become caller-supplied functions (`Resolver.Collaborators`).
- Template rendering and formatters: the types file templates become the `Cache.TypesFile` value, and every other template is a rendered text passed in; the formatters are left out.
- Text.Crc32: a stand-in for the `crc` package's CRC-32; the model relies only on its 32-bit range, not on its value.
- The cache hash input is a plain concatenation; `JSON.stringify` escaping of the hashed values is not modelled.
- `localeCompare` is replaced by character-code order, and the order `sort` leaves among equal keys is not modelled.
- Node's `path.join` and `path.resolve` are modelled without `.`/`..` normalisation (`Paths.JoinPath`, `Routes.ResolveAgainst`); the root is taken as absolute without a trailing slash, and `Cli.Basename` assumes no trailing slash.
- The `defaults` module is not part of this model; its `apiDir` (`"api"`) and `pagesDir` (`"pages"`) values are the ones the repository's tests build paths with (`packages/core/dev/test/routes/resolver.test.ts:53`, `packages/generators/ssr-generator/test/factory.test.ts:37`); the other folders are a parameter.
- Plugin: `config()` (`packages/core/dev/src/base-plugin/index.ts:131-141`), the output folder and watcher set-up in `configResolved` (`packages/core/dev/src/base-plugin/index.ts:146-162`) and the dev-server API handler in `configureServer` (`packages/core/dev/src/base-plugin/index.ts:236-260`) are left out; a stub generator is taken to have no reserved kind.
- Routes.PageIndexFiles: the page-file extensions are fixed in code at `ts`, `tsx`, `vue` and `svelte` (`packages/core/dev/src/base-plugin/routes.ts:73`) and do not depend on the configured framework; the model has the same fixed set.
- Cache.Disk.PersistCache: the model persists the corrected key (`Cache.StripRoot`), not `file.replace(`${appRoot}/`, "")` as written at `packages/core/dev/src/base-plugin/cache.ts:76`; the two agree only for referenced files under the root, and `Resolver.ApiHandler`'s "next validated read is a hit" holds under the corrected key. The code as written is modelled by `Cache.StripAsWritten` and reported under Findings.
- Output.Files.RenderToFile: the code of `renderToFile` is not part of this model. A call without an `overwrite` option is taken to always replace the file, and an `overwrite` predicate is taken to receive `undefined` when the file does not exist; the lemmas on library and index writes rest on this.
- Worker.Worker.Dispatch: events are modelled as processed one at a time, each to completion and after `Worker.Worker.Start`. In the source the `watcher.on("all", async ...)` listener (`packages/core/dev/src/base-plugin/worker.ts:230-260`) is not awaited, so two events can interleave, and the watcher exists (208) before the start-up loop (262).
- PathTokens.Underscored: texts are modelled as sequences of Unicode scalar values, not of UTF-16 code units as JavaScript has them; a character outside the Basic Multilingual Plane becomes one `_` here where `/\W/g` makes two, and `.length` and `trim` (`Text.Trim`) count it once.
- Worker.Worker: `deleteEventHandler` is a no-op in the source (`packages/core/dev/src/base-plugin/worker.ts:178-180`), and so it is here.
- SolidGenerator: the `tsconfig` checks (`packages/generators/solid-generator/src/factory.ts:58-86`), the meta resolver (92-101), and the styles and unwrap files (105-118) are left out; `randomCongratMessage` is part of the rendered page text passed in. The scaffold is stated as a list of writes (`SolidGenerator.ScaffoldWrites`) rather than a method.
- ApiGenerator: `resolveMeta` and the import path map are left out.
- SsrGenerator: the esbuild/vite bundling of `generateLibFiles` (`packages/generators/ssr-generator/src/factory.ts:78-142`) is left out; only which routes are bundled is modelled. The comment above the optional-tail variations (42-54) lists them longest first and uncollapsed, while the code (55-62) emits them shortest first; the model follows the code.
- TypeboxGenerator: the scaffold loop (`packages/generators/typebox-generator/src/factory.ts:27-43`) is left out, and the TypeBox literal text is a parameter.
- SolidGenerator and ApiGenerator path parsing: their round trips require readable static segments; a static segment that starts with `:` or `{` reads back as a parameter.
- Cli: the error line's colour (`packages/core/dev/src/cli/base.ts:97`) is left out; the model prints `✗ ERROR: ` followed by the message. Fractional port numbers are not modelled.
- Cli.NumberString: a numeric port is an exact integer; from 10^21 on its exponent text takes the integer's own significant digits as mantissa, where JavaScript prints the shortest digits of the nearest double. Only the `e` in that text matters to `validatePort`.

## Findings

| source | as written | input that shows it | evidently intended | confidence | as-written member | corrected member |
|---|---|---|---|---|---|---|
| packages/core/dev/src/base-plugin/cache.ts:76 | `file.replace(`${appRoot}/`, "")` removes the first occurrence of the root anywhere in the path, not only as a prefix | root `/app`, referenced file `/srv/app/types.ts` is stored as `/srvtypes.ts`, which does not resolve back to the file, so the cache never validates | strip the root only when the path starts with it | not executed | Cache.StripAsWrittenNeverValidates | Cache.PersistThenValidate |
| packages/core/dev/src/cli/base.ts:88 | `validatePort` accepts a port text of white space only: it is truthy, and its trimmed text has no non-digit | `"  "` | reject a port whose trimmed text is empty | not executed | Cli.BlankPortPasses | Cli.PortStrictAccepts |
