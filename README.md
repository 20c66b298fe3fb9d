# Load.js core in Dafny

Load.js is a browser package loader. Packages are registered with the file
that provides them, the packages they depend on, a size and a type (code,
resource or external script). `import` gathers the closure of a package
into the import set. The scheduler (`_tryImport`) repeatedly takes out the
entries whose dependencies are ready and fetches their files. When a file
arrives it calls `provide`, `provideResource` or `provideExternal`. That
fires the import promises, evaluates the package if it was asked for, and
runs the scheduler again. A page-side work-order queue hands orders to web
workers from a periodic tick.

The model has six modules:

- `Values`: the JavaScript values the loader inspects, its errors, and a
  `Result` type. An `Err` stands for an exception that skips the rest of the
  call.
- `Registry`: the `_packs` and `_files` records and the pure state steps.
  These are registration (`AddDep`), provision (`Deliver`, `LoadResource`),
  evaluation (`EvaluateStep`) and the fetch guard (`Fetch`), with lemmas on
  each.
- `Schedule`: closure under dependencies (`Covered`, `Closed`), the
  readiness test (`Ready`), the split one scan makes (`Blocked`, `Removed`,
  `Batch`) and the byte count (`Bytes`).
- `Manifests`: manifest data, the legacy-array upgrade, the
  relative-directory rule of `loadDeps` and the path-prefix rule of
  `loadDepsObject`.
- `Loader`: the class `Loader` whose fields are the loader's globals. Its
  methods change them in place as the source does. Each method is proved
  against the `Registry`/`Schedule` functions. The provide/import cascade is
  proved to preserve `Valid` and the evolution relation `Evolved`.
- `WorkOrders`: the pool size, the class `WorkQueue` (submit, tick,
  completion) and the reference function `Dispatch` for one tick, with its
  FIFO, idle-only, distinct-target and work-conservation lemmas.

Modelling choices:

- Listeners and promise resolvers are numbered. Every call to one is
  appended to `trace` (`Loader`), `posted` or `resolved` (`WorkQueue`).
- A thunk is `Thunk(id)`, and what calling it returns is the loader's
  `apply` parameter. What it does besides returning a value is not modelled.
- Workers are named by their index in creation order.
- The work-queue tick runs on copies of the three fields and writes them
  back once the walk is over (`Tick` calls `Walk`). Nothing else runs in
  between in the single-threaded page.

The code's behaviour, which the model follows, in places where a reader might expect otherwise:

- Package states are not monotone. `provide` and `provideExternal` put any
  package that was not importing back to STATE_SEEN, even one that has run
  (`Registry.DeliverRegresses`).
- `provideResource` goes straight to STATE_RAN.
- `isImported` tests `state >= STATE_IMPORTED`, so running and ran packages
  count as imported.
- `_fireListeners` passes every listener the package's current `obj`. The
  `arg` its callers pass is ignored.
- `import` settles its promise by the first call of its resolver. A throw
  from the scheduler after that call leaves it fulfilled
  (`Loader.Loader.Import`).
- `evaluate` throws TypeError when the thunk returns a truthy value and the
  package's options are a primitive, since `"noSeal" in options` needs an
  object. `provide(name, thunk, true)` does this. The package stays in
  STATE_RUNNING with the returned value as its obj (`Registry.SealThrows`).
- A manifest row without a type is registered with an invalid type, and
  importing it throws `ImportError` (`Kind.Invalid`).
- With threading on, the pool has `ceil(max(h/2, 1))` workers, since the
  loop counts down from a possibly fractional value. An unknown
  `hardwareConcurrency` makes the count NaN, which gives no workers.
  `USE_THREADING` is false in the source, so the default pool is empty.

## Model

| member | source | states |
|---|---|---|
| Registry.Level | Load.js:51-56 | the state's number, at most 5; the numbering 0..5 in declaration order is the function's definition, matching STATE_NONE..STATE_RAN, and every `<`/`>=` test uses it |
| Registry.Strip | Load.js:430-431 | a `>` name is `>` followed by the stripped name; any other name is unchanged |
| Registry.IsImported | Load.js:767-773 | a name is imported iff it is registered and in STATE_IMPORTED, STATE_RUNNING or STATE_RAN |
| Registry.RegisterFromAt | Load.js:796-803 | after the overwrite loop has handled indices k.., a listed name holds the new record exactly when the overwrite rule held before the call; an unlisted name is untouched |
| Registry.AddDepEffect | Load.js:793-813 | `addDependency` registers every provided name, replacing its record iff it was unregistered, or at STATE_NONE with an unknown file or a file providing fewer names; other names are untouched; the file entry is replaced with its fetched flag cleared |
| Registry.AddDepKeepsStarted | Load.js:798-800 | registration never overwrites a package that has left STATE_NONE |
| Registry.AddDepGrows | Load.js:793-813 | registration adds exactly the provided names and the file to the registry, and removes nothing |
| Registry.Deliver | Load.js:342-351 | provision registers the name and stores the new obj |
| Registry.DeliverEffect | Load.js:336-351 | provision yields STATE_IMPORTED iff the package was registered and importing, STATE_SEEN in every other case; a registered record keeps file, deps, size and type; an unregistered name gets an `about:blank` record; other names are untouched |
| Registry.DeliverRegresses | Load.js:342-348 | providing a package that has run puts it back to STATE_SEEN, so states are not monotone |
| Registry.DeliverTwice | Load.js:342-348 | provision is not idempotent: importing becomes imported, then seen |
| Registry.LoadResourceEffect | Load.js:367-376 | `provideResource` sets STATE_RAN and the data, so the name counts as imported; a registered record keeps file and type; other names are untouched |
| Registry.LoadResource | Load.js:370-376 | the registry afterwards holds the old names and this one, which is in STATE_RAN with the data as its obj |
| Registry.EvaluateRunningGuard | Load.js:492 | evaluating a running package changes nothing, returns `undefined` and fires nothing |
| Registry.EvaluateStep | Load.js:491-527 | one evaluation keeps the record's file, deps, size, type and `evalOnImport`, and leaves its state unchanged, running (after a throw) or ran |
| Registry.EvaluateRunsThunk | Load.js:494-521 | an imported code package runs its thunk, stores the result as obj, returns it and ends in STATE_RAN; nothing else in the record changes |
| Registry.EvaluateFires | Load.js:491-527 | the ready listeners fire iff evaluation neither throws nor hits the guard; a firing evaluation returns the final obj; it throws iff it is an imported code package whose obj has no callable first element, or whose thunk returns a truthy value while its options are a primitive |
| Registry.EvaluateIdempotent | Load.js:491-527 | a second evaluation leaves the record as the first left it and returns the same value |
| Registry.MarkImporting | Load.js:683-685 | marking a file group keeps the set of registered names |
| Registry.MarkImportingAt | Load.js:683-685 | exactly the listed packages become STATE_IMPORTING and nothing else in any record changes |
| Registry.FetchAtMostOnce | Load.js:680-681 | a code or external file group is fetched at most once: after a fetch the flag is set and fetching again changes nothing |
| Registry.FetchMarksGroup | Load.js:680-685 | after a first fetch every package of the group is importing and keeps its file |
| Registry.Fetch | Load.js:680-685 | a fetch keeps the registered names and files and leaves the file's fetched flag set |
| Schedule.NoDupBound | Load.js:572-579 | a duplicate-free import set of registered names is no longer than the registry, which bounds the closure's recursion |
| Schedule.CoveredGrows | Load.js:573-578 | a name the closure may skip stays skippable as the import set grows |
| Schedule.ClosedGrows | Load.js:583-589 | an entry closed under its dependencies stays closed as the import set grows |
| Schedule.ClosureStep | Load.js:583-589 | one closure step: once the recursive call covers dependency i, the first i + 1 dependencies are covered and every later entry is closed |
| Schedule.ReachStep | Load.js:580-589 | what the nested call appends was reached from its argument, a dependency of the entry at `start`, so every entry after `start` is a dependency of an earlier one |
| Schedule.ExpandStep | Load.js:583-589 | one pass of the dependency loop keeps the loop's facts on the grown import set: entries below importing, reached from `start`, and (without a throw) the first i + 1 dependencies covered and later entries closed |
| Schedule.DeferredNeverBlocks | Load.js:612-613 | adding a `>` dependency changes no package's readiness, both ways |
| Schedule.SameFileReady | Load.js:618-620 | a package whose hard dependencies are all registered in its own file is ready whatever their states |
| Schedule.BlockedBy | Load.js:611-630 | a package is not ready iff some hard dependency is unregistered, or below STATE_IMPORTED in another file |
| Schedule.ScanSplit | Load.js:606-638 | a scan keeps an entry iff it is not ready, removes it iff it is ready, and batches it iff it is removed at most seen; kept and removed together are as long as the import set |
| Schedule.BatchShrinks | Load.js:633-636 | a non-empty batch means the import set got shorter, which makes the provide/import recursion terminate |
| Schedule.BlockedNoDup | Load.js:633-636 | the kept entries stay duplicate-free and registered |
| Schedule.ScanStep | Load.js:606-638 | the entry at index j is kept or batched on its own readiness and state alone |
| Schedule.BatchStep | Load.js:633-636 | the entry at index j joins the batch iff it is ready and at most seen |
| Schedule.ScanAdvance | Load.js:633-636 | splicing the ready entry at the cursor, or stepping past a blocked one, leaves the in-place scan one original entry further on |
| Schedule.ScanEmpty | Load.js:599-601 | an empty import set gives an empty scan |
| Schedule.BytesAppend | Load.js:958-965 | the byte count adds up over concatenation |
| Schedule.BytesSplit | Load.js:606-638 | a scan moves bytes out of the remaining count: kept plus removed equals the count before |
| Schedule.BytesNonNegative | Load.js:958-965 | with non-negative sizes the remaining byte count is non-negative |
| Manifests.Split | Load.js:867-868 | splitting on `/` yields at least one piece |
| Manifests.JoinSplit | Load.js:867-868 | joining the split pieces with `/` gives the path back |
| Manifests.SplitNoSlash | Load.js:867-868 | a path without `/` is a single piece |
| Manifests.SplitLastSegment | Load.js:867-868 | splitting `a/b`, with `b` free of slashes, gives the pieces of `a` then `b` |
| Manifests.RelativeDirIsPrefix | Load.js:865-869 | the directory of `a/b`, with `b` free of slashes, is `a/` |
| Manifests.RelativeDirBare | Load.js:865-866 | a path without `/` lies in `./` |
| Manifests.ResolveIdempotent | Load.js:830 | under an absolute base a resolved path is absolute, so resolving twice is resolving once |
| Manifests.ResolveRelative | Load.js:830 | a relative path becomes the base followed by the path, and its own text is kept after the base |
| Manifests.UpgradeCanonical | Load.js:821-824 | the upgrade is idempotent and keeps the rows in order; a legacy array loads exactly as version 0 of the object form with the same rows and no nested manifests |
| Manifests.ResolveAll | Load.js:827-833 | resolving keeps the number of rows |
| Manifests.ResolveAllAt | Load.js:827-833 | row k of the resolved rows is row k with only its file resolved |
| Manifests.ResolveAllEach | Load.js:827-833 | rows resolved one index at a time, in any order, are the resolved rows |
| Manifests.RegisterRowsGrows | Load.js:827-834 | loading a manifest registers every name any row provides and keeps every name already registered |
| Manifests.RegisterRowsKeepsStarted | Load.js:827-834 | loading a manifest never overwrites a package that has left STATE_NONE |
| Loader.CallsOfAt | Load.js:171-175 | firing a list calls each listener once, in list order, with the argument |
| Loader.FirstCall | Load.js:546-563 | the first call of a listener after a point in the trace, if any: none iff the listener was not called, otherwise a call at an index with no earlier call of that listener |
| Loader.EvolvedTrans | Load.js:336-406 | the cascade's invariant composes across nested provide/evaluate/import steps |
| Loader.StaysEmpty | Load.js:176 | a listener list that was fired stays empty for the rest of the cascade |
| Loader.QuietEvolved | Load.js:342-353 | a step that keeps the import promises, the import set and the errors, adds names and files, only extends the trace and only empties ready lists is an evolution |
| Loader.FiredEvolved | Load.js:170-178 | firing the import promises of a name, calling each one in order, is an evolution |
| Loader.FiredAnswered | Load.js:170-178 | every import promise of an emptied list was called in the trace appended by the firing |
| Loader.Loader.constructor | Load.js:49-128 | the loader starts with empty registry, import set, listener maps, trace and errors |
| Loader.Loader.FireListeners | Load.js:170-178 | the trace gains one call per listener of the name, in order, with the package's current obj; that list is emptied; other lists are kept |
| Loader.Loader.Evaluate | Load.js:491-528 | `evaluate` applies `EvaluateStep` to the record, fires `_readies` iff the step fires, sets `_currentEval` only while the thunk runs (left set if it throws); a package that has run returns its obj and only fires its ready listeners; an unregistered name throws TypeError and changes nothing |
| Loader.Loader.RunThunk | Load.js:494-521 | the running window of `evaluate` stores exactly `EvaluateStep`'s record, reports whether it ran without a throw, and restores `_currentEval` only then |
| Loader.Loader.Provide | Load.js:336-365 | a package that ends up seen returns at once with only its record changed; one that became imported fires its import promises with the stored `[pack, options]`, and then its ready listeners if it was asked for with `>` and evaluated without a throw, all before anything the scheduler does; its import-promise list ends empty; a throwing evaluation returns that throw |
| Loader.Loader.ReceiveCode | Load.js:336-361 | up to the scheduler run, `provide` leaves exactly `Deliver`'s record for a seen package and nothing else changed; for an imported one, the import promises are fired with the stored obj and, if asked for with `>`, the record, ready listeners and `_currentEval` are exactly those of `EvaluateStep` |
| Loader.Loader.Announce | Load.js:355-361 | an imported package's import promises are called in order with its obj and emptied, then it is evaluated iff `evalOnImport`, with the record, result and ready listeners of `EvaluateStep` |
| Loader.Loader.ProvideResource | Load.js:367-385 | the import promises and then the ready listeners are called with the data, before anything the scheduler does, and both lists end empty; the name stays registered |
| Loader.Loader.ReceiveResource | Load.js:367-381 | up to the scheduler run the registry is exactly `LoadResource` (STATE_RAN with the data), the import promises then the ready listeners are called with the data and emptied, and nothing else changes |
| Loader.Loader.ResourceArrived | Load.js:705-709 | a fetched resource is provided and the scheduler runs once more; the import promises and ready listeners of the name are called with the content first and both lists end empty |
| Loader.Loader.ProvideExternal | Load.js:387-409 | the import promises always fire with the script, then the ready listeners iff `EvaluateStep` of the delivered record fires, before anything the scheduler does; the import-promise list ends empty; a throwing evaluation returns that throw |
| Loader.Loader.ReceiveExternal | Load.js:387-405 | up to the scheduler run the record is `EvaluateStep` of `Deliver`'s, the import promises fire with the script and the ready listeners iff the step fires, and the result and `_currentEval` are the step's |
| Loader.Loader.Require | Load.js:429-447 | with a listener: called at once with the obj if the package has run, queued in `_readies` otherwise; a registered plain name is then evaluated (result returned); a `>` name only sets `evalOnImport` (for `>>name` of a package that has run, also on the twice-stripped name, with the listener given `undefined`); an unregistered name returns `undefined` |
| Loader.Loader.ReadyListener | Load.js:433-440 | a package that has run fires its ready listeners and then the new listener with its obj, leaving the registry as it was; for a name that still starts with `>` the inner `require` only marks the twice-stripped package `evalOnImport` and the listener gets `undefined`; otherwise the listener is queued under the name and nothing else changes |
| Loader.Loader.Import | Load.js:546-563 | an imported package fulfils with `true` and nothing changes; otherwise the resolver is queued under the stripped name, the promise is fulfilled iff the resolver was called after the call began, with the argument of its first call; pending means the resolver is still queued, and a rejection carries the throw that came before any call; an unknown name not in the import set rejects with DependencyError |
| Loader.Loader.AddToImportSet | Load.js:572-590 | the import set only grows at the end; present or at-least-importing names add nothing; an unregistered name throws DependencyError; otherwise the name is appended first and every later appended entry is a dependency of an earlier appended one (nothing outside the closure is added); on success the name is covered and every appended entry is below importing and closed under its dependencies |
| Loader.Loader.AddDependenciesOf | Load.js:581-589 | the loop over the pushed package's dependencies appends only entries below importing that are reached from it, stops at the first throw, and on success leaves every appended entry closed |
| Loader.Loader.DepsReady | Load.js:610-631 | the dependency loop answers exactly `Ready` |
| Loader.Loader.ScanBatch | Load.js:606-638 | the in-place splice scan leaves exactly the blocked entries, in order, and collects exactly the batch |
| Loader.Loader.TryImport | Load.js:598-654 | an empty import set changes nothing; otherwise every entry left in the import set is one the scan found blocked (so every ready entry is gone), and the invariant and the evolution of the state are kept |
| Loader.Loader.DoImportFile | Load.js:663-753 | per type: a seen code package is re-provided from its stored obj, firing its import promises with `[obj[0], obj[1] or {}]` before anything else (TypeError on an undefined obj); a seen external one is provided with no script, firing its import promises and then its ready listeners iff that evaluation fires; a code or external group is otherwise fetched at most once (`Fetch`); a resource's group is marked importing; an unknown file throws TypeError (code: after creating an empty entry); an invalid type throws ImportError and changes nothing |
| Loader.Loader.ImportCode | Load.js:667-698 | the code case of `_doImportFile`: the re-provide of a seen package with its trace prefix, or the fetch of its group, `Fetch` exactly, or TypeError with an empty file entry |
| Loader.Loader.ImportExternal | Load.js:714-748 | the external case of `_doImportFile`: the provide of a seen package with no script, with its trace prefix, or the fetch of its group, `Fetch` exactly, or TypeError |
| Loader.Loader.FetchGroup | Load.js:680-685 | setting the fetched flag and marking the group importing is exactly `Fetch` |
| Loader.Loader.MarkGroup | Load.js:683-685 | the loop equals `MarkImporting` on the provided list |
| Loader.Loader.Abort | Load.js:758-760 | the import set is emptied |
| Loader.Loader.ReportError | Load.js:943-947 | a truthy error is recorded and the import set dropped; a falsy one changes nothing |
| Loader.Loader.GetBytes | Load.js:958-965 | the sum, taken last entry first, equals `Bytes` of the import set |
| Loader.Loader.AddDependency | Load.js:793-813 | the registry afterwards is exactly `AddDep` of the registry before |
| Loader.Loader.AlsoDepends | Load.js:901-903 | a registered package's deps gain the extra names at the end; an unregistered one throws TypeError |
| Loader.Loader.LoadDepsObject | Load.js:817-846 | the data returned is the upgraded manifest with every relative path prefixed; the registry is `RegisterRows` of it, last row first; the nested manifests are returned for loading |
| Loader.Loader.LoadRow | Load.js:830-833 | one row gets its relative path prefixed (`ResolveRow`) and is registered, exactly `AddDep` |
| WorkOrders.WorkerCountCeiling | Load.js:251-253 | with threading and a known concurrency h the pool is the smallest positive size n with 2n >= h |
| WorkOrders.WorkerCountNone | Load.js:81 | without threading, or with an unknown concurrency, there are no workers |
| WorkOrders.SuffixIncreasing | Load.js:275 | taking orders from the head keeps the ids increasing and below the counter |
| WorkOrders.OccupyEffect | Load.js:278 | after the posts a worker is busy iff it was busy before or was posted to, and no worker is added |
| WorkOrders.TargetsAt | Load.js:270-281 | the k-th target and task of a tick are those of the k-th post |
| WorkOrders.DispatchFifo | Load.js:275-277 | the k-th post of a tick carries the k-th queued order, and a tick posts no more than the queue holds |
| WorkOrders.DispatchIdle | Load.js:270-273 | a tick posts only to workers that were idle when it started |
| WorkOrders.DispatchDistinct | Load.js:270-281 | no worker gets two orders in one tick |
| WorkOrders.DispatchCount | Load.js:268-283 | a tick posts the smaller of the queue length and the number of idle workers |
| WorkOrders.PostStep | Load.js:275-278 | one post takes the queue head to the idle worker and keeps the tick's invariants |
| WorkOrders.TickQueue | Load.js:275 | the orders left are the queue after the posted prefix, and the posted tasks are that prefix |
| WorkOrders.TickFlags | Load.js:278 | a tick adds no worker to the busy map |
| WorkOrders.Walk | Load.js:270-281 | the walk posts exactly `Dispatch`, leaves the queue after the posted prefix and marks exactly the posted workers busy |
| WorkOrders.WorkQueue.constructor | Load.js:223-257 | the pool has `WorkerCount` idle workers numbered in creation order, and nothing is queued |
| WorkOrders.WorkQueue.Submit | Load.js:311-314 | the order is appended under the next id, the counter grows by one and the id's resolver is kept |
| WorkOrders.WorkQueue.Tick | Load.js:268-283 | the posts are `Dispatch` of the queue and the busy map; the queue is what they leave; the busy map is `Occupy` of the posts; the queue invariant holds |
| WorkOrders.WorkQueue.Complete | Load.js:258-264 | the worker turns idle and the id's resolver is removed and called with the result; an id without one throws TypeError after the removal |

## Left out

- DOM and network I/O (script tags, `importScripts`, `_xhrGet`, `document.createElement("a")` for the absolute path): fetches are the state changes around them, and their completions are separate calls (`ProvideExternal`, `ResourceArrived`).
- `JSON.parse` of manifest text and the `_depFiles` cache of `loadDeps`: the model takes parsed data; `loadDeps` is modelled only by its directory rule (`RelativeDir`).
- `Object.seal` in `evaluate` and its `noSeal` and `alsoSeal` options: the model has no property attributes, so sealing changes nothing it holds. The one throw it models is the TypeError of `"noSeal" in options` on a primitive options value (`Registry.SealThrows`). Throws from `alsoSeal` are not modelled, because the model has no property values. These come from a list that is not an array, or from a listed property whose value is not an object, where `"prototype" in pack[v]` throws.
- What a thunk does besides returning its value, including re-entrant calls into the loader: `apply` gives only the result.
- Re-entrant listeners: `_fireListeners` (Load.js:170-178) calls each `require` listener and each import resolver synchronously, and such a function may call back into the loader. The model records each call in `trace` and does nothing else for it. A listener that calls `require` or `provide` is not modelled.
- Listener and resolver numbers are taken to be distinct, as distinct JavaScript functions are; the model does not enforce it. An import resolver is a fresh promise's `fulfill`, so `Import` assumes no other list holds its number.
- JavaScript's `name in _packs` also finds names inherited from `Object.prototype`, such as `toString`. The model's maps hold only the registered names, so it treats such a name as unregistered.
- Worker-side behaviour: the worker's `onmessage`, `submitWorkOrder` inside a worker, the `_load_packss` messages `addDependency` posts to workers, and `postMessage` transfer semantics.
- The 10 ms timer of the tick and real concurrency: `Tick` is one run of the callback.
- Logging (`_log`, `console.warn`, the `trace` flag of `_tryImport`) and `load.debug`, `getErrors`, and the error constructors' prototypes.
- `importAll`, `importMatch`, `importAndEvaluate`, `lie`, the `requireResource`/`requireExternal`/`suggest` wrappers, and the final self-provide of `load`: thin wrappers over the modelled operations.
- The `if(!size) size = 0` coercion: sizes are integers in the model, so it is the identity.
- Loader.Loader.TryImport: states the invariant, the evolution and that only blocked entries remain in the import set, not the final registry contents, because nested provides can change any record; nor the order of the batch's imports (last first), because each import's effect on the trace depends on nested provides.
- Loader.Loader.Provide: states the records, listeners and calls up to the scheduler run exactly (in `Loader.Loader.ReceiveCode`), but after the run only the calls made first, the emptied import-promise list and the throw. The scheduler's own provides and fetches may change any record, including this one (a later `provide` puts it back to STATE_SEEN).
- Loader.Loader.ProvideResource: does not state the final record, for the same reason. `Loader.Loader.ReceiveResource` states that, up to the scheduler run, the record is in STATE_RAN with the data.
- Loader.Loader.ResourceArrived: does not state the final record, for the same reason as `ProvideResource`.
- Loader.Loader.ProvideExternal: does not state the final record, for the same reason. `Loader.Loader.ReceiveExternal` states the record up to the scheduler run.
- Loader.Loader.DoImportFile: for a seen code or external package, states the calls of the nested provide, not the final records, for the same reason.
- Loader.Loader.ImportCode: for a seen package, states the calls of the nested `provide`, not the final records, for the same reason.
- Loader.Loader.ImportExternal: for a seen package, states the calls of the nested `provideExternal`, not the final records, for the same reason.
- Loader.Loader.Import: does not state the import set afterwards, because the scheduler may provide packages synchronously.
