# typescript-pnp-plugin, modelled in Dafny

A model of the tsserver plugin in `src/index.ts`. The plugin makes module
and type-reference resolution inside the TypeScript language service go
through a Plug'n'Play map (`.pnp.js`).

- Each project gets a `ProjectHandler`. It keeps one existence flag per
  candidate `.pnp.js` path (one per ancestor directory, nearest first).
- The handler's active path `pnpPath` is the first candidate whose flag is
  true. It is recomputed after every watch event on a candidate, and the
  project is refreshed after that.
- The handler replaces the project's two batch resolvers. They resolve
  every name through the PnP resolver with the current active path. They
  log one failure report per name that has no resolved value.
- A process-wide `Plugin` registry creates handlers lazily. On its first
  registration it installs, once, a wrapper around
  `ts.nodeModuleNameResolver`. For config-file lookups the wrapper uses the
  first handler, in registration order, that has an active path.

Modules:

- `Wrappers`: `Option`.
- `Messages`: the log text, plus `Join` and `Split`.
- `Selection`: the candidate table as values.
- `Resolution`: the opaque resolver and the failure log of a batch.
- `Host`: the project, as a trace of the calls the plugin makes on it.
- `Handler`: the `ProjectHandler` class.
- `Registry`: the `Plugin` class.
- `Scenario`: clients that walk through a `/repo/pkg` project.

The things the plugin says to the host are recorded in `Project.calls`, in
order: log lines, watch registrations, module-cache evictions, refreshes
and config reloads. That is how the ordering promises are stated.

## Model

| member | source | states |
|---|---|---|
| Messages.FormatResolutionFailedMessage | src/index.ts:5-18 | the failure report: the five lines type, PnP (the path, or `no` when it is undefined or empty), From, Request and Result, joined by `\n` |
| Messages.ProjectLine | src/index.ts:33-35 | a handler log line: the plugin tag, the project name, `: `, then the message |
| Messages.PluginLine | src/index.ts:158-163 | a plugin log line: the plugin tag, then the message |
| Messages.FailureMessageLines | src/index.ts:5-18 | the failure report splits into exactly five lines in the order type, PnP, From, Request, Result; the PnP line shows `no` for an undefined or empty path |
| Messages.SplitJoin | src/index.ts:12-18 | splitting `lines.join('\n')` at `\n` gives back the lines when none of them holds `\n` |
| Messages.Split | src/index.ts:18 | not a model of source lines: the reference inverse of the `.join('\n')` at line 18, reading `split` on one character; it always yields at least one piece |
| Messages.SplitWithoutSeparator | src/index.ts:12-18 | a text without the separator splits into itself alone |
| Messages.SplitAfterFirstSeparator | src/index.ts:12-18 | a text whose first separator follows `a` splits into `a` followed by the pieces of the rest |
| Selection.InsertionOrder | src/index.ts:51-54 | the key order of the `pnpProjects` map after `set` over each candidate: a new key goes last, a repeated key keeps its place |
| Selection.FirstPresent | src/index.ts:39-48 | the first key, in table order, whose flag is true, or none |
| Selection.InsertionOrderKeys | src/index.ts:38-54 | the table filled by `Map.set` over the candidates holds each path once, and exactly the candidate paths |
| Selection.InsertionOrderOfDistinct | src/index.ts:51-54 | when `walkUp` yields each path once, the table order is the candidate order |
| Selection.FirstPresentIsFirst | src/index.ts:39-48 | the active path is a candidate flagged as existing with no earlier candidate flagged; it is absent iff no candidate is flagged |
| Selection.FirstPresentAt | src/index.ts:39-48 | conversely, the first flagged candidate is the active path |
| Selection.FirstPresentAppend | src/index.ts:40-45 | nearer candidates decide first: a later part of the table matters only when the earlier part has no flagged candidate |
| Selection.FirstPresentFrame | src/index.ts:40-45 | the flag of a path outside the table does not affect the active path |
| Selection.AfterFlagChange | src/index.ts:55-57 | after one candidate's flag changes, the active path is the nearer flagged candidate if there is one, else that candidate if it now exists, else the first flagged candidate beyond it |
| Selection.CreatedNearerBecomesActive | src/index.ts:55-57 | a map file appearing where no nearer one exists becomes active |
| Selection.DeletedActiveFallsBack | src/index.ts:55-57 | deleting the active map file falls back to the next flagged candidate beyond it, or to none |
| Resolution.FailureLog | src/index.ts:78-89 | the log of one `resolveAndLog` call: one failure report, built from the resolver's result for the given path, when that result has no resolved value, and nothing otherwise |
| Resolution.BatchFailureLogAppend | src/index.ts:94-110 | the failure log of a batch is the log of its first part followed by the log of the rest, so each name contributes its own report in batch order |
| Resolution.BatchFailureLogCount | src/index.ts:87-89 | a batch logs exactly one report per position whose result has no resolved value, repeated names included |
| Handler.SetPnpCalls | src/index.ts:114-123 | the host calls of `setPnpProject`: for a truthy path, a module-cache eviction then `updated PnP API`, with ` to '<p>'` only when the path changed; otherwise `removed PnP API` |
| Handler.ProjectHandler.constructor | src/index.ts:21-31 | the host sees, in order: resolvers installed, one watch per candidate, the first `setPnpProject`, the reload log line, the config reload; the table is the candidates in insertion order, each flagged by `fileExists` |
| Handler.ProjectHandler.Log | src/index.ts:33-35 | appends one project log line made of the tag, the project name and the message |
| Handler.ProjectHandler.Patch | src/index.ts:66-111 | records that the two batch resolvers were replaced, and nothing else |
| Handler.ProjectHandler.Watch | src/index.ts:37-64 | fills the table with one flag per candidate from `fileExists`, registers one watch per candidate in order, then makes the first flagged candidate active |
| Handler.ProjectHandler.InferPnpProject | src/index.ts:39-48 | changes only `pnpPath`, to the first flagged candidate or none, and makes exactly the host calls of one `setPnpProject` |
| Handler.ProjectHandler.SetPnpProject | src/index.ts:114-123 | stores its argument; a truthy path evicts the module cache and logs `updated PnP API`, with ` to '<p>'` only when the path changed; otherwise logs `removed PnP API` |
| Handler.ProjectHandler.OnWatchEvent | src/index.ts:55-60 | only the event's flag changes, to false iff the kind is Deleted; the active path is the one of Selection.AfterFlagChange; the host sees the `setPnpProject` calls, then the refresh log line, then the refresh |
| Handler.ProjectHandler.ResolveAndLog | src/index.ts:67-92 | returns the PnP resolver's result unchanged for the current `pnpPath`, and logs exactly one failure report iff that result has no resolved value |
| Handler.ProjectHandler.ResolveBatch | src/index.ts:94-110 | the result has the batch's length; element i is the selected part of resolving name i on its own; the log grows by the batch's failure log |
| Handler.ProjectHandler.ResolveModuleNames | src/index.ts:94-99 | the same as ResolveBatch with the `resolveModuleNames` kind and the `resolvedModule` projection |
| Handler.ProjectHandler.ResolveTypeReferenceDirectives | src/index.ts:101-110 | the same as ResolveBatch with the `resolveTypeReferenceDirectives` kind and the `resolvedTypeReferenceDirective` projection |
| Registry.TruthyPaths | src/index.ts:171 | the `.filter` of the handlers' active paths: the truthy ones, in registration order |
| Registry.FilterHeadIsFirstTruthy | src/index.ts:171-173 | the filtered list of truthy paths is non-empty iff some path is truthy, and its head is the first truthy path |
| Registry.FirstTruthyIsFirst | src/index.ts:171-173 | the chosen path is truthy with no truthy path before it; it is absent iff no handler has a truthy path |
| Registry.Plugin.constructor | src/index.ts:141-142 | the registry starts empty with the wrapper not installed |
| Registry.Plugin.UseProject | src/index.ts:148-156 | installs the wrapper iff the registry was empty, so the install count is 1 from the first registration on; a known project changes nothing; a new one gets a fresh handler appended after the existing ones, with the candidates' insertion order, each flag from `fileExists`, and the project's host calls of the handler's construction in order |
| Registry.Plugin.Log | src/index.ts:158-163 | writes one plugin log line to the first registered project only, and to none when there is none |
| Registry.Plugin.NodeModuleNameResolver | src/index.ts:165-191 | once installed, a lookup whose trailing argument is `true` goes through the PnP resolver with the first truthy active path, logging one `config file` report on a miss; every other call returns the original resolver's result and logs nothing |
| Scenario.NewRepoHandler | src/index.ts:37-64 | a project whose only map file is `/repo/.pnp.js` among `/repo/pkg`, `/repo`, `/` gets that path as its active path |
| Scenario.MissIsReported | src/index.ts:78-91 | with a resolver that misses only for `/repo/.pnp.js`, resolving `lodash` from `/repo/pkg/src/index.ts` adds exactly one log line to the project, and that report shows `PnP: /repo/.pnp.js`, the containing file and the request |
| Scenario.NearerMapTakesOver | src/index.ts:55-57 | a map file created in `/repo/pkg` becomes active, and deleting it falls back to `/repo/.pnp.js` |
| Scenario.InstallOnce | src/index.ts:148-151 | two registrations of one project and one of another install the config-file wrapper exactly once |

## Left out

- `tsc-pnp`'s `resolveModuleName` and `getResolvedValue`, and `JSON.stringify`, are foreign code. They are the fields of `Resolution.Resolver`, so the model says nothing about how a name is resolved. In particular it does not show that with no active path the PnP resolver falls back to the host resolver unchanged.
- `walkUp` and `path.join` are foreign code. The handler takes the joined candidate paths as given, assumed nearest first. Repeated paths are handled as the JavaScript `Map` handles them.
- `ts.resolveModuleName`, `ts.resolveTypeReferenceDirective` and the original `ts.nodeModuleNameResolver` are parameters `(name, containingFile) -> result`. The compiler options, the resolution host and the extra arguments are bound into them. The options are read once per call in the source, so binding them per call is equivalent.
- `serverHost.fileExists` is a function of the path. `serverHost.watchFile` is a recorded `WatchFile` call. Event delivery is a call of `OnWatchEvent`. `OnWatchEvent` requires the path to be a candidate, because only candidates have a callback.
- `ts.FileWatcherEventKind` is modelled with its three values. The rule "false iff Deleted" covers any other value the same way.
- `delete require.cache[...]`, `refreshFiles` and `reloadOptions` reach Node's module cache and internal tsserver APIs. They are the recorded events `InvalidateModule`, `RefreshFiles` and `ReloadOptions`, not modelled.
- Replacing `project.resolveModuleNames` and friends on the live host object is the recorded event `InstallResolvers`. The replaced resolvers are the handler's methods. The global `ts.nodeModuleNameResolver` replacement is the counter `wrapperInstalls`, and the wrapper is the method `NodeModuleNameResolver`.
- The variadic `...args` of the wrapper is reduced to the boolean `lookupConfig`, meaning that the last argument is exactly `true`.
- `init`, `create` and `setTypeScript` are plugin-factory plumbing and are not modelled: `create` only registers the project and returns its language service unchanged.
- Messages.FailureMessageLines: requires that no part of the report contains a newline. Without that, the report splits into more than five lines.
- SetPnpProject: assumes `require.resolve(pnpPath)` (src/index.ts:116) does not throw. When it throws, the source neither logs nor stores the path. The watch callback (src/index.ts:57-59) then stops before the refresh log line and the refresh, and the handler's constructor stops before the config reload.
- ResolveBatch: assumes the PnP resolver and the host resolver do not throw. When one throws, the source's `.map` (src/index.ts:95, 102) stops at that name. The failure reports of the earlier names stay in the log, and no batch result is returned.
- UseProject: assumes the handler's constructor does not throw. When it throws at src/index.ts:154, `projects` stays empty, so the next `useProject` runs src/index.ts:149-150 again and wraps the wrapper a second time. The install count of exactly one is proved only under this assumption.
