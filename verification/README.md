# Component loader, node store, Timer and BreakpointListener

A Dafny model of the front-end bootstrap code in `src/js`. It covers:

- **The decorators** (`decorators.js`). `@component(name)` and `@dependencies(list)` write `componentName` and `dependencies` onto a component class. Module `Registry` models a class as a `Definition` object whose fields the decorators update in place.
- **The node store** (`utils.js:1-29`). This is the per-element record store behind `getData`/`setData`. Module `DataStore` has two versions:
  - `NodeStore`, the WeakMap path: a map from element identity to record;
  - `TaggedStore`, the fallback path: the `lastId` counter, the `myCustomDataTag` tags and the `store` object.

  `DataStore` also holds the lookups `getComponent`, `findComponent`, `findComponents` and `findComponentWithId`. They run over the tree of module `Dom`, whose `querySelector`/`querySelectorAll` are tree-order searches with exact attribute equality.
- **The loader** (`loader.js`). `LoadModel` states what one `load(root, componentsList, isDependency)` does, as ghost functions from the world before the call to the outcome after it:
  - the world is the node store records plus the trace of constructor calls;
  - the outcome also says whether a constructor exception escaped.

  `ComponentLoader.Loader` is the imperative loader. It has the source's two nested `forEach` loops and its recursion for dependencies, and it is proved to produce exactly that outcome. `LoadProperties` proves what the outcome implies. `LoaderScenarios` runs the entry point of `app.js` and a self-dependent component.
- **`Timer`** (`utils.js:57-84`). Module `Timers` models it as a class whose fields are the closure variables. The host's timeout queue is modelled in `Timeouts`.
- **`BreakpointListener`** (`utils.js:94-138`). Module `Breakpoints` models the bucket computation of `checkView` and the debounced `resize` listener.

The model follows the code, not the intended design, in two places:

- **Construction is not at most once.** The guard `name in getData(el).loadedComponents` tests for a property key of an array, not for membership, so it is false for ordinary names. Also, a successful construction replaces the record by `{component: obj}`, which drops `loadedComponents`. So an element reached a second time is constructed again: by a second `load`, or by the outer scan after a dependency pass. `LoadProperties.ConstructedTwice` and `LoaderScenarios.SelfDependentLoad` show this.
- **Cyclic dependencies terminate.** Each nested `load(el, ...)` scans only the proper descendants of `el`, so recursion ends even for a component that lists itself as its own dependency.

## Model

| member | source | states |
|---|---|---|
| Registry.Definition.constructor | src/js/decorators.js:1-11 | a class starts with neither decorator field set, and its constructor behaviour is fixed |
| Registry.Component | src/js/decorators.js:1-5 | `@component(name)` sets `componentName` to `name`; `dependencies` is untouched and nothing else may change |
| Registry.Dependencies | src/js/decorators.js:7-11 | `@dependencies(list)` stores that very list, order kept; `componentName` is untouched |
| Registry.FindIndex | src/js/loader.js:8 | `componentsList.find`: the result is the first definition whose name equals `name`; when there is none, no definition has that name |
| Dom.Select | src/js/loader.js:5 | a query result holds exactly the matching nodes and is no longer than the nodes searched; order and multiplicity are fixed by `SelectAppend` and `SelectOne` |
| Dom.SelectAppend | src/js/loader.js:5 | the matches of a concatenation are the matches of the first part followed by those of the second, so a query keeps document order |
| Dom.SelectOne | src/js/loader.js:5 | one node gives exactly one entry when it matches and none otherwise; with `SelectAppend` this gives one entry per matching node |
| Dom.QueryAll | src/js/utils.js:40-45 | `querySelectorAll(sel)` holds exactly the descendants that match `sel`, and no more entries than there are descendants |
| Dom.Query | src/js/utils.js:35-38 | `querySelector(sel)` is a matching descendant, and `null` exactly when no descendant matches |
| Dom.FirstMatch | src/js/utils.js:35-38 | the index of the first matching node, with no match before it; None exactly when nothing matches |
| Dom.SelectHeadIsFirstMatch | src/js/utils.js:35-47 | the first match is the head of the list of all matches, and there is none exactly when that list is empty |
| Dom.QueryIsHeadOfQueryAll | src/js/utils.js:35-47 | `querySelector(sel)` is the first element of `querySelectorAll(sel)`, or `null` when that is empty |
| Dom.ScanSmaller | src/js/loader.js:5 | the elements `load` visits carry `data-component`, are strictly smaller than the root, and never include the root |
| Dom.ScanTransitive | src/js/loader.js:5-13 | an element visited by a dependency load on `el` is also visited by the load that reached `el` |
| Dom.Split | src/js/loader.js:6 | `split(',')` yields at least one piece, and no piece contains a comma |
| Dom.JoinSplit | src/js/loader.js:6 | joining the pieces of an attribute with commas gives the attribute back |
| Dom.SplitJoin | src/js/loader.js:6 | splitting comma-free names joined by commas gives the names back |
| Dom.SplitSingle | src/js/loader.js:6 | an attribute without a comma names a single component, itself |
| DataStore.GetData | src/js/utils.js:23-25 | `getData(el)` is the element's record, and `undefined` exactly when it has none |
| DataStore.NodeStore.constructor | src/js/utils.js:2-3 | `new WeakMap()`: no element has a record |
| DataStore.TaggedStore.Get | src/js/utils.js:17-19 | the fallback `get` returns a stored record: a tagged element's is under its tag, and an untagged element reads whatever is under the `undefined` key |
| DataStore.NodeStore.Set | src/js/utils.js:23-29 | `setData` replaces the element's whole record; every other element keeps its record |
| DataStore.TaggedStore.constructor | src/js/utils.js:4-7 | the fallback store starts with counter 0, no tags and an empty table |
| DataStore.TaggedStore.Set | src/js/utils.js:9-19 | on an element's first set: tags it with the counter, advances the counter, reads back the record. On a later set: writes under the `undefined` key; the element keeps reading its first record and every untagged element reads the new one. Tags stay distinct and below the counter |
| DataStore.FallbackLoadScenario | src/js/utils.js:9-19 | the loader's two `setData` calls on one element, on the fallback store: the element still reads `{loadedComponents: []}`, and an element never set reads `{component: obj}` |
| DataStore.GetComponent | src/js/utils.js:31-33 | a TypeError exactly when the element has no record; otherwise the record's component, possibly `undefined` |
| DataStore.ComponentsOf | src/js/utils.js:46 | `elements.map(getData(e).component)`: succeeds exactly when every element has a record, keeping length and order |
| DataStore.FindComponent | src/js/utils.js:35-38 | the component of the first element under `parent` (or the document) whose `data-component` is the class name; a TypeError exactly when there is none or it has no record |
| DataStore.FindComponents | src/js/utils.js:40-47 | one entry per matching element of the document, in tree order; a TypeError exactly when one of them has no record |
| DataStore.FindComponentWithId | src/js/utils.js:49-55 | the component of the first element in tree order whose `data-component` is the class name and whose id is `id`; a TypeError exactly when there is none or it has no record. That element is one of the elements `findComponents` looks at |
| DataStore.FindComponentIsFirstOfFindComponents | src/js/utils.js:35-47 | `findComponent` on the document returns the first entry of `findComponents`, and throws when that list is empty |
| LoadModel.IsArrayKey | src/js/loader.js:20 | `name in loadedComponents` tests for a property key of the array. On an empty array only `length` and the inherited keys are keys. Any other key is a decimal index below the length |
| LoadModel.Options | src/js/loader.js:21-28 | the options are never falsy. They are `{}` without an attribute, and `{}` when evaluation throws or gives a falsy value. Otherwise they are the evaluated value |
| ComponentLoader.Loader.constructor | src/js/loader.js:3-4 | a loader over a given store, with an empty call trace |
| ComponentLoader.Loader.Load | src/js/loader.js:4-47 | the new store and trace, and whether an exception escaped, are exactly `LoadSpec` of the old state |
| ComponentLoader.Loader.LoadElement | src/js/loader.js:5-7 | the inner loop over an element's names produces exactly `LoadNames` from the first name |
| ComponentLoader.Loader.LoadName | src/js/loader.js:7-14 | one name produces exactly `LoadModel.LoadName`: skipped when unresolved, otherwise dependencies first, then instantiation |
| ComponentLoader.Loader.Instantiate | src/js/loader.js:15-32 | the record, key test, options, constructor call and record replacement for one name produce exactly `LoadModel.Instantiate` |
| LoadProperties.EffectTrans | src/js/loader.js:5-7 | two successive steps confined to a scope are together confined to it |
| LoadProperties.InstantiateEffect | src/js/loader.js:15-32 | instantiating a requested name on `el` touches only `el`'s record, into one of the two loader shapes, and appends at most one call, on `el` |
| LoadProperties.LoadEffect | src/js/loader.js:4-32 | a whole `load(root, list)`: keeps earlier calls. Each new call is on a proper descendant of `root` carrying `data-component`, for a name it requests. Only those elements' records change, each into `{loadedComponents: []}` or `{component: obj}`. After an escaped exception, the last call's element still has no component record |
| LoadProperties.LoadKeepsLoadedEmpty | src/js/loader.js:15-32 | from a store whose recorded arrays are all empty, e.g. a fresh one, every recorded `loadedComponents` array stays empty after a load |
| LoadProperties.SkipOnlyOnArrayKeys | src/js/loader.js:20-30 | with empty recorded arrays, the "already loaded" branch is taken exactly for `length` and inherited keys. Any other name gives one call with freshly evaluated options |
| LoadProperties.ConstructionReplacesRecord | src/js/loader.js:29-32 | after a construction that returned, the element's record is `{component: obj}` for that very call, and `loadedComponents` is gone |
| LoadProperties.ConstructedTwice | src/js/loader.js:15-32 | handling the same ordinary name twice on an element constructs it twice, with the same options |
| LoadProperties.RecordWithoutLoadedIsReset | src/js/loader.js:15-19 | a record without `loadedComponents` becomes `{loadedComponents: []}`, dropping a stored component; it holds the new instance only when construction succeeds |
| LoadProperties.UnresolvedNamesNoEffect | src/js/loader.js:8-10 | when no requested name resolves, `load` changes neither the records nor the trace |
| LoadProperties.DependenciesFirst | src/js/loader.js:12-30 | for one name on `el`, every call before the last is on a descendant of `el`; a call on `el` comes last and is for `name`; without dependencies at most one call is made |
| LoadProperties.ThenInstantiate | src/js/loader.js:13-30 | after a dependency pass confined to `el`'s descendants, instantiation adds at most one call, on `el`, at the end |
| LoadProperties.NamesCallOnEl | src/js/loader.js:6-12 | without dependency lists, the names of one element lead to calls on that element only |
| LoadProperties.LoadInTreeOrder | src/js/loader.js:5 | without dependency lists, constructor calls follow tree order: each call's element has a position in the scan, and positions never decrease |
| LoaderScenarios.AppLoad | src/js/app.js:10-14 | `Loader.load(document, [Body])` on a page with `<body data-component="body">` makes one call with `{}` and records the instance on the body |
| LoaderScenarios.AppScenario | src/js/app.js:10-14 | the same run through the decorator, the store and the imperative loader |
| LoaderScenarios.DivDependencies | src/js/loader.js:12-13 | the dependency pass of a self-dependent div constructs the span below it, and nothing else |
| LoaderScenarios.SelfDependentLoad | src/js/loader.js:5-32 | a self-dependent component on a div with a span child terminates. It constructs the span, then the div, then the span again, and the records hold the last instances |
| LoaderScenarios.SpanRevisited | src/js/loader.js:15-32 | the outer scan reaching that span after the div constructs it a second time |
| LoaderScenarios.SelfDependentScenario | src/js/loader.js:4-32 | the same run through the decorators and the imperative loader: three calls, the span's first and last |
| Timeouts.TimeoutDelay | src/js/utils.js:70-74 | the delay `setTimeout` uses: always below 2^31. It is the requested value itself within [0, 2^31) and 0 for negative 32-bit values. Outside that range it is congruent to the value modulo 2^32, unless the wrapped value is negative, when it is 0 |
| Timeouts.Cancel | src/js/utils.js:64 | `clearTimeout(id)` keeps exactly the countdowns with another id, and never adds any |
| Timeouts.CancelAbsent | src/js/utils.js:64 | clearing an id that is not pending leaves the queue as it was |
| Timeouts.CancelKeepsIncreasing | src/js/utils.js:64 | clearing keeps the remaining countdowns in the order they were armed |
| Timeouts.RemoveAt | src/js/utils.js:70-74 | running one countdown removes exactly that one and keeps the order of the rest |
| Timers.Timer.constructor | src/js/utils.js:58-82 | `remaining` starts at `delay` and the constructor's `resume` arms one countdown of `delay` from now, with the first id |
| Timers.Timer.Pause | src/js/utils.js:63-66 | clears the latest countdown only; `remaining` loses the time since `start`, and `start` itself is unchanged |
| Timers.Timer.Resume | src/js/utils.js:68-76 | restarts the clock and arms a countdown of `remaining` with a fresh id, leaving earlier countdowns pending |
| Timers.Timer.Reset | src/js/utils.js:78-80 | only `remaining` returns to `delay` |
| Timers.Timer.Fire | src/js/utils.js:70-74 | a due countdown runs: it leaves the queue, `remaining` returns to `delay`, a full-delay countdown is armed and the callback runs at `now` |
| Timers.PauseResumeScenario | src/js/utils.js:58-82 | a 1000 ms timer paused after 400 ms is due 600 ms after resuming, then every 1000 ms |
| Timers.QuirksScenario | src/js/utils.js:63-76 | resuming a running timer leaves two countdowns pending, and pausing twice subtracts the elapsed time twice |
| Breakpoints.FirstAbove | src/js/utils.js:105-109 | the first table position from `lo` whose width exceeds the viewport width, with none before it; None when there is none |
| Breakpoints.BucketFor | src/js/utils.js:101-110 | the bucket is never `null`, and is `undefined` exactly for an empty table |
| Breakpoints.Bucket | src/js/utils.js:101-110 | the downward loop of `checkView` computes `BucketFor` |
| Breakpoints.BucketIsLastReached | src/js/utils.js:101-110 | for ascending widths and non-empty names, the bucket is the last breakpoint the width has reached |
| Breakpoints.BucketBelowFirst | src/js/utils.js:108 | below the first width the bucket is "xs" |
| Breakpoints.UsualBuckets | src/js/utils.js:101-110 | with xs 0, sm 640, md 768, lg 1024: 700 and 701 give sm, 800 gives md, 1024 gives lg, 20 and -5 give xs |
| Breakpoints.BreakpointListener.constructor | src/js/utils.js:95-136 | starts from `null` with nothing pending, and the first check reports its bucket as changed |
| Breakpoints.BreakpointListener.CheckView | src/js/utils.js:100-120 | stores the bucket of the current width and reports it, with `hasChanged` true exactly when it differs from the stored one |
| Breakpoints.BreakpointListener.Listener | src/js/utils.js:122-132 | an unchanged width does nothing. A new width is stored and any pending check cleared; a single check is armed 250 ms later |
| Breakpoints.BreakpointListener.FireCheck | src/js/utils.js:130 | the pending check runs: the queue empties and one report is added |
| Breakpoints.ResizeScenario | src/js/utils.js:94-137 | from 700 px, 701 px keeps "sm" (reported unchanged), and two quick resizes to 800 px coalesce into one check reporting "md" |

## Left out

- DataStore.GetComponent, DataStore.ComponentsOf, DataStore.FindComponent, DataStore.FindComponents, DataStore.FindComponentWithId and ComponentLoader.Loader read and write the WeakMap records only. They are not modelled over `TaggedStore`, the fallback path. There, the loader's second `setData` on an element (`loader.js:32`) writes under the `undefined` key, so the element keeps its `{loadedComponents: ...}` record and `getComponent` on it gives `undefined` instead of the instance. Any element never set reads that last instance instead of throwing. `DataStore.FallbackLoadScenario` shows both on `TaggedStore`. On that path the kept record also holds the pushed name (`loader.js:31`), because the array is shared; records held as values show it still empty.
- WeakMap weakness and garbage collection: records are a map from element identity to record.
- `console.debug` messages and the `isDependency` flag, which only selects one. Also the `setTimeout` that removes `app-loading` (`loader.js:33-45`): it has no effect on records or construction.
- JavaScript `eval` of `data-component-options`: it is the parameter `Env.eval`, which returns a value or fails. The evaluated text depends on nothing but the attribute: a direct `eval` inside the callback could also read its locals (`el`, `name`, `component`, `existing`) and the imported `setData`, and could have side effects, and neither is modelled. So `LoadProperties.ConstructedTwice` gets the same options twice only under this assumption. The keys every array inherits are the parameter `Env.inherited`.
- What a constructor does besides being called and possibly throwing. A `Definition` carries only the `throws` predicate, and the trace records each call.
- CSS selector parsing: names and ids are compared for exact equality. Quoting or special characters in a class name or id are not modelled.
- `Object.keys` ordering of the breakpoint table: the table is given as a sequence of pairs in key order. The `breakpoints()` step of `gulpfile.js` that builds it is not part of this model.
- Time and width are integers. Fractional milliseconds, `NaN` and non-numeric table values are not modelled.
- Timeout ids are handed out by a counter per `Timer` and per `BreakpointListener`. The host's single, global id sequence is not modelled.
- Which due countdown the event loop runs first is the parameter `k` of `Timers.Timer.Fire`. The event loop itself is not modelled.
- Timers.Timer: the browser's minimum of 4 ms for timeouts nested more than five deep is not modelled. A `Timer` reaches that depth, because each firing re-arms from inside its own callback. `TimeoutDelay` is the delay before that clamping.
- Dom.Node: nothing requires the `ref`s of distinct elements of one document to differ, although the DOM guarantees it. The loader lemmas hold for every tree, with or without that condition.
- Event listeners: `addEventListener('resize', ...)` is the `Listener` method, called with the new `window.innerWidth`.
- LoadProperties.LoadEffect: when an exception escapes, it states only that the element of the last call still has a `loadedComponents` record. That the array is empty follows from `LoadKeepsLoadedEmpty` when the store started with empty arrays.
