# Hooter, modelled in Dafny

Hooter is an in-process event and hook dispatcher for JavaScript. A *hooter* keeps
registered events, each with an execution mode (`auto`, `asIs`, `sync`, `async`).
It also keeps a store of *handlers*: functions hooked to an event name, or to a
wildcard pattern over names. Hooks land at the start, in the middle or at the end
of that store. *Tooting* an event builds an event object, collects the handlers
matching its name, appends the optional callback, and hands the list to the
coroutine engine of the event's mode. A *proxy* of a hooter forwards everything
to its source. A proxy made with `bind(owner)` also stamps the owner on every
event it toots as `tooter`. The TypeScript generation adds disallowed event
names per proxy, after- and result-routines built by generator wrapping, and
per-event toot functions. Effect handlers (`toot`, `hook…`, `fork`, `throw`) let
routines running under the engine call back into their hooter. Two ordering
helpers, `sortItems` and `sortPlugins`, turn before/after declarations into a
dependency graph and list its vertices in visiting order.

The model is written as pure functions over immutable values. Each hooter
operation takes the dispatcher state and returns the new state, or the error the
source throws. Both generations are modelled, as separate modules:

| module | file | what it models |
|---|---|---|
| `Wrappers`, `Seqs` | wrappers.dfy, seqs.dfy | `Option`/`Result`; an order-preserving filter and sequence facts |
| `JsValues` | js_values.dfy | JavaScript values: truthiness, identity, property reads, `Object.assign`, generator wrapping |
| `Registry` | registry.dfy | the push-or-unshift insertion shared by the reversible stores |
| `RecordStore` | record_store.dfy | `src/Store.js` and `src/Record.js` |
| `HandlerStore` | handler_store.dfy | `src/HandlerStore.js` |
| `HookStore` | hook_store.dfy | `src/HookStore.js` |
| `SegmentedStore` | segmented_store.dfy | `src/Store.ts`: start, middle and end segments |
| `HandlerJs`, `RoutineJs`, `UtilsJs` | handler_js.dfy, routine_js.dfy, utils_js.dfy | `src/Handler.js`, `src/Routine.js`, `src/utils.js` |
| `RoutinesTs`, `EventsTs` | routines.dfy, events.dfy | `src/routines.ts`, `src/events.ts` |
| `Dispatch` | dispatch.dfy | the event object and what a toot hands to the engine |
| `HooterJs` | hooter_js.dfy | `src/Hooter.js`, `src/HooterBase.js`, `src/HooterProxy.js` |
| `HooterBaseTs`, `HooterTs` | hooter_base_ts.dfy, hooter_ts.dfy | `src/HooterBase.ts`, `src/Hooter.ts`, `src/HooterProxy.ts` |
| `ThrowEffect`, `EffectsJs`, `EffectsTs` | throw_effect.dfy, effects_js.dfy, effects_ts.dfy | `src/effects.js`, `src/effects.ts` |
| `DagMap` | dag_map.dfy | the observable contract of the `dag-map` package |
| `SortItems`, `SortPlugins` | sort_items.dfy, sort_plugins.dfy | `src/sortItems.ts`, `src/sortPlugins.ts` |

A dispatcher and its proxies are one `View` datatype. `Root` is the hooter
itself. `Proxy(source, owner, …)` is a proxy, and `source = None` is a proxy
without a source. `Connected(v)` holds when the chain of sources reaches the
root. Functions and handlers are identified by a natural number. The next free
identity is part of the state, so the identity of a new routine is
deterministic.

`src/Hooter.js` asks for `./Store`, and it calls `prepend`, `append` and `add`.
Of the two store files, only `src/Store.ts` has those methods, so the JavaScript
hooter is modelled over the segmented store of `src/Store.ts`. `src/Store.js`
is modelled on its own as `RecordStore`.

## Model

| member | source | states |
|---|---|---|
| JsValues.Assign | src/HooterBase.ts:157-159 | `Object.assign`: the result has exactly the keys of both maps; the source's value wins on a shared key; the target's value stays everywhere else |
| JsValues.WrapperFor | src/Handler.js:18-26 | a function gets the delegating generator wrapper exactly when it is a generator function |
| JsValues.Forward | src/Handler.js:18-26 | a wrapper applies the wrapped function to the same `this` and arguments, and delegates exactly when it is the generator wrapper |
| Registry.Insert | src/Store.js:22-26 | `put` into a reversed store puts the new entry first and keeps the rest; otherwise it puts it last |
| Registry.InsertAllOrder | src/Store.js:19-29 | a series of puts gives the reverse of the series before the old entries when reversed, and the old entries followed by the series otherwise |
| RecordStore.NewRecord | src/Record.js:2-10 | a record needs a truthy store and then keeps store, key and value as given |
| RecordStore.NewStore | src/Store.js:5-13 | constructing fails exactly when no matching function is given; a new store is empty and reversed when `reverse` is truthy |
| RecordStore.Put | src/Store.js:19-29 | the new record refers to this store, and it is inserted at the front or the back according to `reverse` |
| RecordStore.Get | src/Store.js:15-39 | an undefined needle gives every record in order; otherwise exactly the records the needle is, or whose key the matcher accepts, in store order |
| RecordStore.Del | src/Store.js:41-49 | an undefined needle clears the store; otherwise exactly the matching records go and the rest keep their order |
| RecordStore.Unhook | src/Record.js:12-14 | a record deletes itself from the store it refers to and leaves any other store alone |
| RecordStore.PutKeepsValid | src/Store.js:19-29 | putting a record with a fresh identity keeps every record's identity unique and its store reference correct |
| RecordStore.DelPartitions | src/Store.js:31-49 | after `del(n)` nothing matches `n`; what `get(n)` returned and what `del(n)` kept together make up the old store, as multisets |
| RecordStore.UnhookRemovesOnlyItself | src/Record.js:12-14 | when the matcher accepts no key for the record itself, unhooking removes exactly that record and no other |
| RecordStore.PutAllInserts | src/Store.js:19-29 | a series of puts inserts the created records exactly as the insertion rule says |
| RecordStore.PutAllOrder | src/Store.js:19-39 | after a series of puts, `get()` lists the new records in put order, or in reverse order for a reversed store |
| HandlerStore.New | src/HandlerStore.js:14-18 | a new handler store is empty and is reversed exactly when `reverse` is truthy |
| HandlerStore.Put | src/HandlerStore.js:24-34 | `put` creates a handler for this store with key and function, and inserts it at the front or the back according to `reverse` |
| HandlerStore.Get | src/HandlerStore.js:20-38 | `get(n)` returns, in order, exactly the handlers whose function is `n` or whose key the matcher accepts |
| HandlerStore.Del | src/HandlerStore.js:40-44 | `del(n)` keeps, in order, exactly the handlers that do not match `n` |
| HandlerStore.DelHandler | src/HandlerStore.js:46-48 | `delHandler(h)` keeps, in order, exactly the handlers other than `h` |
| HandlerStore.Unhook | src/HandlerStore.js:8-10 | a handler unhooks itself from the store it refers to; any other store is left unchanged |
| HandlerStore.PutKeepsValid | src/HandlerStore.js:24-34 | putting with a fresh identity keeps identities unique and store references correct |
| HandlerStore.DelPartitions | src/HandlerStore.js:36-44 | after `del(n)` nothing matches `n`; `get(n)` and what `del(n)` kept together make up the old store |
| HandlerStore.DelByFunction | src/HandlerStore.js:20-22 | deleting by a function removes every handler wrapping that function |
| HandlerStore.UnhookRemovesOnlyItself | src/HandlerStore.js:8-10 | unhooking a stored handler removes exactly that handler |
| HookStore.New | src/HookStore.js:8-13 | a new hook store is empty and is reversed exactly when `reverse` is truthy |
| HookStore.Put | src/HookStore.js:19-29 | `put` creates a hook of key and function and inserts it at the front or the back according to `reverse` |
| HookStore.Get | src/HookStore.js:15-33 | `get(n)` returns, in order, exactly the hooks whose function is `n` or whose key the matcher accepts |
| HookStore.Del | src/HookStore.js:35-37 | `del(n)` keeps, in order, exactly the hooks that do not match `n` |
| HookStore.DelPartitions | src/HookStore.js:31-37 | after `del(n)` nothing matches `n`; `get(n)` and what `del(n)` kept together make up the old store |
| HookStore.PutAllOrder | src/HookStore.js:19-29 | a series of puts lists the hooks in put order, or reversed before the old hooks in a reversed store |
| HookStore.PutAllInserts | src/HookStore.js:19-29 | a series of puts inserts exactly as the insertion rule says |
| SegmentedStore.New | src/Store.ts:1-6 | a new segmented store is empty and keeps its matching function |
| SegmentedStore.Prepend | src/Store.ts:8-10 | `prepend` appends to the start segment only |
| SegmentedStore.Add | src/Store.ts:12-14 | `add` appends to the middle segment only |
| SegmentedStore.Append | src/Store.ts:16-18 | `append` puts the item at the front of the end segment only |
| SegmentedStore.Get | src/Store.ts:20-28 | without a needle, the start, middle and end segments in that order; with one, exactly the items it matches, as a subsequence of that listing |
| SegmentedStore.Del | src/Store.ts:30-46 | without a needle, everything goes; with one, nothing matching remains, and each segment keeps its non-matching items in order |
| SegmentedStore.DelKeepsTheRest | src/Store.ts:20-46 | deletion keeps exactly the listing filtered by the negated matcher; `get(n)` and the kept items together make up the old listing |
| SegmentedStore.DelInserted | src/Store.ts:30-46 | deleting an item inserted into a store where nothing else matches restores the old listing exactly |
| SegmentedStore.RunOrder | src/Store.ts:8-18 | after any series of prepends, adds and appends, prepended items come first in call order, then added ones in call order, then appended ones in reverse call order |
| SegmentedStore.RunStart | src/Store.ts:8-10 | after any series of calls the start segment has grown by exactly the prepended items, in call order |
| SegmentedStore.RunItems | src/Store.ts:12-14 | after any series of calls the normal segment has grown by exactly the added items, in call order |
| SegmentedStore.RunEnd | src/Store.ts:16-18 | after any series of calls the end segment has grown in front by exactly the appended items, most recent first |
| SegmentedStore.GetAfterRun | src/Store.ts:8-28 | `get()` after a series of calls on a new store lists the prepended items, the added items, and the reversed appended items |
| HandlerJs.New | src/Handler.js:7-34 | creation fails exactly when the store has no `del` method, and then when the function is not a function; otherwise the handler keeps store, key and function, and its wrapper follows the generator test |
| HandlerJs.Unhook | src/Handler.js:3-5 | `unhook` calls `del` on the handler's store with the handler itself |
| HandlerJs.InvokeForwards | src/Handler.js:18-26 | calling a handler applies its function to the same `this` and arguments, delegating exactly for a generator function |
| RoutineJs.New | src/Routine.js:3-29 | creation fails first when there is no hooter, then when the function is not a function; a routine records hooter, the hooter's owner and the function |
| RoutineJs.AsValue | src/Routine.js:14-22 | a routine is a generator function exactly when its wrapper delegates |
| RoutineJs.InvokeForwards | src/Routine.js:14-22 | calling a routine applies its function to the same `this` and arguments, delegating exactly for a generator function |
| UtilsJs.CreateEvent | src/utils.js:4-19 | the event has name, mode (default `auto`) and args (default `[]`), has `tooter` exactly when it is truthy and `cb` exactly when it is truthy, and no other key |
| UtilsJs.Unhook | src/utils.js:25-31 | unhooking fails exactly when the routine has no hooter; otherwise it calls the hooter's `unhook` with the routine |
| UtilsJs.CreatedRoutineUnhooks | src/utils.js:25-31 | a routine created with a truthy hooter can always unhook itself |
| RoutinesTs.VariantFor | src/routines.ts:48-70 | the wrapper runs after the next handlers exactly in after mode, and delegates exactly for a generator function |
| RoutinesTs.Create | src/routines.ts:38-77 | creation fails with the function error exactly when the mode is not result and the function is not a function; a result routine needs no function; the routine records hooter, owner and function |
| RoutinesTs.AsValue | src/routines.ts:52-70 | a routine is a generator function exactly unless it is the plain call wrapper |
| RoutinesTs.Start | src/routines.ts:27-69 | observer and after routines first yield `next` with the arguments; the other routines call the function at once, delegating for a generator |
| RoutinesTs.Resume | src/routines.ts:27-61 | a result routine stores and returns what the next handlers gave back; an after routine calls the function with it |
| RoutinesTs.ResultRoundTrip | src/routines.ts:26-36 | a result routine yields the arguments, and then returns and records exactly the value it receives |
| RoutinesTs.AfterRoundTrip | src/routines.ts:52-61 | an after routine yields the arguments and then calls the function on the value it receives |
| RoutinesTs.DefaultForwards | src/routines.ts:62-70 | a default routine applies the function to its `this` and arguments |
| EventsTs.IsUserEventCases | src/events.ts:21-23 | a user event is an array, or an object whose `mode` is missing or falsy; nothing else is |
| ThrowEffect.ThrowHandler | src/effects.ts:33-45 | the execution is marked completed; an `Error` without an event gets the execution's context as its event; anything else is rethrown unchanged |
| ThrowEffect.AnnotateOnce | src/effects.ts:33-45 | an error rethrown through nested executions keeps the event of the innermost one |
| Dispatch.NeedleOf | src/Store.ts:20-31 | only an undefined needle means "everything" |
| Dispatch.Items | src/Hooter.js:93-98 | the engine gets the handlers in order, followed by the callback exactly when it is truthy |
| Dispatch.Deliver | src/Hooter.js:93-107 | nothing runs exactly when there are no handlers and no callback; otherwise the engine runs the items on the event as `this` with its args, and it is the default engine exactly for mode `auto` |
| Dispatch.CallbackRunsLast | src/Hooter.js:96-98 | with a callback, something always runs, and the callback is the last item |
| HooterJs.ProxyOf | src/HooterProxy.js:11-13 | a proxy reaches the root exactly when its source does, and has no owner |
| HooterJs.Bind | src/HooterBase.js:27-32 | `bind(owner)` gives a proxy with that owner that reaches the root exactly when the bound view does |
| HooterJs.New | src/Hooter.js:43-44 | a new hooter has no events and no handlers, and its state is valid |
| HooterJs.LookupAsWritten | src/Hooter.js:51-53 | plain property access finds a registered event, and also finds every name inherited from `Object.prototype` |
| HooterJs.Lookup | src/Hooter.js:51-53 | an own-property lookup finds exactly the registered events |
| HooterJs.ModeOf | src/HooterBase.js:104-105 | an unregistered event runs in `auto`; a registered one in its mode; an inherited property has no mode |
| HooterJs.RegisterRootAsWritten | src/Hooter.js:59-75 | registration fails when the name is not a non-empty string, when the lookup finds the name, inherited names included, or when the mode is not one of the four |
| HooterJs.RegisterRoot | src/Hooter.js:59-75 | registration fails exactly for a bad name, an already registered name or an invalid mode, with that error, in that order; on success only that name's mode is added |
| HooterJs.HookHandlerRoot | src/Hooter.js:77-87 | the handler is stamped with the store; `start` prepends it, `end` appends it, and any other priority adds it to the middle; nothing else changes |
| HooterJs.HookHandler | src/HooterProxy.js:55-63 | through any chain of proxies a hook lands as on the root, or fails with the missing-source error |
| HooterJs.Unhook | src/Hooter.js:89-91 | `unhook(n)` deletes what `n` matches from the store; `unhook()` deletes everything |
| HooterJs.CreateHandler | src/HooterBase.js:34-48 | a lone function is hooked to `**`; otherwise a non-string name is a `TypeError`; a string name needs a function; the routine belongs to this view and its owner |
| HooterJs.Hook | src/HooterBase.js:50-54 | a hook succeeds only with a handler `_createHandler` accepts, and uses up one identity |
| HooterJs.CreateEvent | src/HooterBase.js:92-133 | the name, read from an object argument, must be a non-empty string; the event is the utility event of the view's owner, name, looked-up mode, args and callback, with an object argument's own fields merged last |
| HooterJs.TootEvent | src/Hooter.js:93-107 | on the root a toot delivers the handlers matching the event's name; a proxy forwards or fails with the missing-source error |
| HooterJs.TootOutcome | src/HooterBase.js:92-146 | every toot ends one of four ways, checked in order: a name that is not a non-empty string is refused; a view that does not reach the root has no source; a mode that is not valid is refused; otherwise the handlers matching the name, then the callback, go to the engine with the created event |
| HooterJs.TootDisconnected | src/HooterProxy.js:15-73 | with a good name, a toot through a view that does not reach the root fails for want of a source |
| HooterJs.TootInvalidMode | src/HooterBase.js:92-111 | with a good name, through a view that reaches the root, a mode that is not valid makes the toot fail with the mode error |
| HooterJs.TootDelivers | src/HooterBase.js:92-146 | with a good name and a valid mode, through a view that reaches the root, the toot hands the matching handlers and the event to the engine |
| HooterJs.ConnectedCreateEvent | src/HooterBase.js:92-111 | through a view that reaches the root, a good name creates an event carrying it exactly when the mode it finds is valid |
| HooterJs.ConnectedTootEvent | src/Hooter.js:93-107 | `_tootEvent` through a view that reaches the root delivers the handlers matching the event's name |
| HooterJs.ConnectedForwards | src/HooterProxy.js:15-73 | a view that reaches the root answers every operation exactly as the root does |
| HooterJs.DisconnectedFails | src/HooterProxy.js:15-73 | a view that does not reach the root fails every operation with the missing-source error |
| HooterJs.RegisterKeepsValid | src/Hooter.js:59-75 | a successful registration went to the root and keeps the state valid: valid modes, correct store stamps, unique identities |
| HooterJs.HookLands | src/Hooter.js:77-87 | a successful hook was made through a connected view and lands in the segment its priority names, stamped with the root's store |
| HooterJs.HookKeepsValid | src/HooterBase.js:50-54 | a hook keeps the state valid, and adds exactly one new handler with a fresh identity |
| HooterJs.UnhookKeepsValid | src/Hooter.js:89-91 | unhooking keeps the state valid and only removes handlers |
| HooterJs.DelKeepsValid | src/Hooter.js:89-91 | deleting from the root's store keeps it valid and adds no handler |
| HooterJs.UnhookRemovesOnlyItself | src/HooterBase.js:45 | a stored handler's own `unhook` removes exactly that handler, as long as names never match a function |
| HooterJs.DelFresh | src/HooterBase.js:18-20 | deleting by the value of a freshly inserted handler restores the old listing |
| HooterJs.HookThenUnhook | src/HooterBase.js:45-52 | hooking and then unhooking the returned handler gives back the handler listing from before |
| HooterJs.AfterVariantsAreOrdinary | src/HooterBase.js:68-78 | `hookAfter`, `hookStartAfter` and `hookEndAfter` behave exactly like `hook`, `hookStart` and `hookEnd`, because the routine ignores its type |
| HooterJs.ResultVariantsNeedAFunction | src/HooterBase.js:80-90 | the result variants pass no function, so with a string name they always fail; only a lone function argument lets them hook it to `**` |
| HooterJs.CreateEventFailsOnlyOnName | src/HooterBase.js:92-111 | in a valid state, creating an event fails exactly when the name is not a non-empty string |
| HooterJs.BoundEventsCarryOwner | src/HooterBase.js:119-121 | an event tooted through `bind(owner)` with a truthy owner has that owner as `tooter` |
| HooterJs.UserEventOverrides | src/HooterBase.js:127-130 | a user event's `mode` and `tooter` override the registered mode and the owner, unchecked |
| HooterJs.EventOfName | src/HooterBase.js:92-126 | tooting a plain name builds the event of that name with its registered mode, the args (default `[]`) and the callback when given |
| HooterJs.TootRunsMatchingHandlers | src/Hooter.js:93-107 | a toot runs the handlers matching the name, then the callback, by the engine of the registered mode; with neither nothing runs |
| HooterJs.InheritedNameBlocksRegistration | src/Hooter.js:64-66 | as written, `register('constructor', 'auto')` on a fresh hooter fails as already registered; the corrected lookup accepts it |
| HooterJs.LookupAsWrittenAgrees | src/Hooter.js:51-53 | the lookup as written and the own-entries lookup agree on every name except an inherited one never registered, and for that one the lookup as written finds no valid mode, so `_createEvent` throws the mode error |
| HooterJs.InheritedNameBlocksToots | src/HooterBase.js:104-111 | as written, tooting `toString` reads an inherited property's missing mode and fails the mode check; the corrected lookup runs it in `auto` |
| HooterBaseTs.CreateHandler | src/HooterBase.ts:68-77 | `_createHandler` fails exactly when a non-result routine gets no function; the handler is the created routine keyed by the event |
| HooterBaseTs.VariantTable | src/HooterBase.ts:92-122 | `Start` and `End` in a variant's name select the priority, `After` selects the after mode, and only `hookResult` observes |
| HooterBaseTs.ReadName | src/HooterBase.ts:131-140 | the name is the user event's `name` or the argument itself, and must be a non-empty string |
| HooterBaseTs.BuildEvent | src/HooterBase.ts:142-161 | the event has name, mode (the registered one when truthy, else `auto`), args (default `[]`) and `cb` exactly when truthy; a user event's fields win and fill in the rest |
| HooterTs.NewProxy | src/HooterProxy.ts:14-34 | a proxy copies the source's `registeredEventsOnly` unless the settings define it, takes the settings' disallowed events, and has no owner |
| HooterTs.ProxyOf | src/Hooter.ts:78-80 | only the hooter itself has `proxy()`; a proxy of it has no settings |
| HooterTs.Bind | src/HooterBase.ts:58-62 | `bind(owner)` on the hooter gives a connected proxy with that owner and no disallowed events; on a proxy it fails for lack of `proxy()` |
| HooterTs.New | src/Hooter.ts:60-68 | a new hooter has the configured events, an empty store, and a valid state |
| HooterTs.GetEvent | src/Hooter.ts:82-84 | on the root, the configured entry of the name, or undefined without configuration; a proxy without a source throws a bare error |
| HooterTs.HookHandlerRoot | src/Hooter.ts:90-98 | `Start` prepends, `End` appends, anything else adds; nothing else changes |
| HooterTs.HookHandlerAsWritten | src/HooterProxy.ts:60-66 | on the root the handler lands by priority; a proxy forwards without the priority; nothing but the store changes |
| HooterTs.HookGenericAsWritten | src/HooterBase.ts:81-90 | as written, a successful hook returns the handler `_createHandler` builds and uses up one identity |
| HooterTs.HookLandsAsWritten | src/HooterProxy.ts:60-66 | as written, a successful hook was made through a connected view; it lands where its priority says when made on the root, and at the end of the normal segment when made through a proxy |
| HooterTs.HookHandler | src/HooterProxy.ts:60-66 | the corrected forwarding: a proxy passes the priority on, so every view hooks as the root does, and only the store changes |
| HooterTs.HookGeneric | src/HooterBase.ts:81-90 | a successful hook returns the handler `_createHandler` builds and uses up one identity |
| HooterTs.CreateEvent | src/HooterProxy.ts:68-76 | creating fails exactly when the name is invalid; the event is built from the looked-up entry, and a proxy then sets `tooter` to its owner |
| HooterTs.TootEvent | src/HooterProxy.ts:78-88 | on the root a toot delivers the matching handlers; a proxy refuses its disallowed names, then forwards or fails for lack of a source |
| HooterTs.TootGenericOutcome | src/HooterBase.ts:126-173 | every toot ends one of four ways, checked in order: a name that is not a non-empty string is refused; a view that does not reach the root fails the event lookup with a bare error; a proxy on the way that disallows the name refuses it; otherwise the handlers matching the name, then the callback, go to the engine with the created event |
| HooterTs.TootGenericDisconnected | src/HooterProxy.ts:36-88 | with a readable name, a toot through a view that does not reach the root fails the event lookup with a bare error |
| HooterTs.TootGenericConnected | src/HooterProxy.ts:36-88 | with a readable name, through a view that reaches the root, the toot is refused if a proxy on the way disallows the name and otherwise delivers the matching handlers |
| HooterTs.CreatedEventIsNamed | src/HooterBase.ts:126-162 | through a view that reaches the root, a readable name always creates an event, and the event carries that name |
| HooterTs.EventToots | src/Hooter.ts:70-76 | a toot function exists for exactly the configured event names |
| HooterTs.ConnectedForwards | src/HooterProxy.ts:36-88 | a connected view answers as the root does, except that a toot of a name some proxy on the way disallows is refused |
| HooterTs.DisconnectedFails | src/HooterProxy.ts:36-88 | a view that does not reach the root fails every operation, with a bare error for `getEvent` and after the disallowed-name check for toots |
| HooterTs.ProxyDropsPriority | src/HooterProxy.ts:60-66 | as written, hooking through any connected proxy adds to the middle segment whatever the priority |
| HooterTs.HookStartThroughBoundProxy | src/HooterProxy.ts:60-66 | as written, `hookStart` through `bind(owner)` lands in the middle segment; corrected, it lands at the start |
| HooterTs.HookLands | src/HooterBase.ts:81-90 | a successful hook was made through a connected view, is keyed by the event, belongs to the view, and lands where its priority says |
| HooterTs.HookKeepsValid | src/HooterBase.ts:81-90 | a hook keeps the state valid and adds exactly one new handler |
| HooterTs.DelFresh | src/HooterBase.ts:43-49 | a handler value is never a string, so deleting by a freshly inserted handler removes just it |
| HooterTs.HookThenUnhook | src/HooterBase.ts:75 | hooking and then calling the returned handler's `unhook` gives back the listing from before |
| HooterTs.CreateEventFailsOnlyOnName | src/HooterBase.ts:126-162 | through a connected view, creating an event fails exactly when the name is invalid |
| HooterTs.EventOfName | src/HooterBase.ts:126-162 | through a connected view, the event built for a plain name carries the name, its configured mode, the args and the callback when truthy |
| HooterTs.ProxyEventsCarryOwner | src/HooterProxy.ts:68-76 | an event created by a proxy has the proxy's owner as `tooter`, even over a user event's own |
| HooterTs.DisallowedNamesRefused | src/HooterProxy.ts:78-81 | tooting a name the proxy disallows always fails with that name |
| HooterTs.TootRunsMatchingHandlers | src/Hooter.ts:104-120 | a toot not refused runs the matching handlers, then the callback, by the engine of the configured mode; with neither nothing runs |
| HooterTs.EventTootTootsItsName | src/Hooter.ts:70-76 | a configured event's toot function toots that name with its arguments and no callback |
| EffectsTs.Toot | src/effects.ts:58-60 | the toot effect carries the event and args and no callback |
| EffectsTs.TootWith | src/effects.ts:62-68 | the toot-with effect carries the event, args and callback |
| EffectsTs.HookEffectOf | src/effects.ts:84-151 | each hook effect carries the event and the mode and priority of the method of the same name; only `hookResult` carries no function |
| EffectsTs.TootHandler | src/effects.ts:47-56 | without a hooter in the state the handler throws; otherwise it is `tootGeneric` on it |
| EffectsTs.HookHandler | src/effects.ts:70-82 | without a hooter the handler throws; otherwise it is `hookGeneric` with the effect's fields |
| EffectsTs.ForkHandler | src/effects.ts:153-164 | a fork needs a hooter and a function; it forks a default routine of that function for the hooter and its owner |
| EffectsTs.HookEffectIsHookMethod | src/effects.ts:70-151 | handling a hook effect does exactly what the hook method of the same name does |
| EffectsTs.TootIsTootWithoutCallback | src/effects.ts:47-68 | `toot` is handled as `tootWith` with an undefined callback |
| EffectsTs.BoundRoutineTootsCarryOwner | src/effects.ts:47-56 | a routine hooked through `bind(owner)` toots events that carry the owner as `tooter` |
| EffectsJs.Toot | src/effects.js:30-32 | the toot effect is exactly `{effect, event, args}` |
| EffectsJs.TootWith | src/effects.js:34-36 | the toot-with effect is exactly `{effect, event, args, cb}` |
| EffectsJs.HookEffectOf | src/effects.js:49-71 | each hook effect has event and function; `mode` is there exactly for the start and end variants; `after: true` exactly for the after variants |
| EffectsJs.TootHandler | src/effects.js:19-28 | without a hooter the handler throws; otherwise it toots the effect's event, args and callback |
| EffectsJs.HookHandler | src/effects.js:38-47 | without a hooter the handler throws; otherwise it hooks with the effect's `mode` as the priority |
| EffectsJs.ForkHandler | src/effects.js:73-80 | a fork needs a hooter and a function; the forked effect holds just the routine, args and mode |
| EffectsJs.HookEffectIsHookMethod | src/effects.js:38-71 | handling a hook effect does exactly what the hook method of the same name does |
| EffectsJs.TootIsTootWithoutCallback | src/effects.js:19-36 | `toot` is handled as `tootWith` with an undefined callback |
| EffectsJs.BoundRoutineTootsCarryOwner | src/effects.js:19-28 | a routine hooked through `bind(owner)` toots events that carry the owner as `tooter` |
| DagMap.Edges | src/sortItems.ts:108-130 | `add(key, value, before, after)` declares that `key` runs before every `before` key and after every `after` key |
| DagMap.TopoSort | src/sortItems.ts:132-138 | the depth-first walk lists every vertex once with all predecessors first, or returns a cycle |
| DagMap.KeyOrder | src/sortItems.ts:132-138 | the visiting order lists every mentioned key once and respects every declared edge; on failure it returns a cycle of declared edges |
| DagMap.KeyOrderFailsIffCycle | src/sortItems.ts:132-138 | the graph throws exactly when the declarations contain a cycle |
| DagMap.KeyOrderHonoursEdge | src/sortItems.ts:132-138 | both ends of every declared edge are visited, the earlier one first |
| DagMap.TwoCycleFails | src/sortItems.ts:108-138 | two keys declared to run before each other make the graph throw |
| DagMap.NoEdgesKeepsMentionOrder | src/sortItems.ts:132-138 | without declarations the keys are visited in the order they were first mentioned |
| DagMap.Each | src/sortItems.ts:132-138 | `each` visits the stored values in the visiting order, and throws exactly on a cycle |
| SortItems.MakeItemKey | src/sortItems.ts:20-23 | the key is the index alone exactly when the item has no name |
| SortItems.ItemKeysDistinct | src/sortItems.ts:20-23 | two items share a key only when they share an index |
| SortItems.AllTags | src/sortItems.ts:30-36 | every item carries the wildcard `**` and exactly its own tags besides |
| SortItems.Push | src/sortItems.ts:38-53 | registering a key touches only the bucket it names |
| SortItems.MapTagsToItemKeysBuckets | src/sortItems.ts:25-56 | the buckets built item by item equal the buckets read off the items directly |
| SortItems.BucketMembers | src/sortItems.ts:25-56 | an index is in a tag's bucket exactly when that item carries the tag in that bucket, and each bucket is ascending |
| SortItems.ScanAfter | src/sortItems.ts:92-101 | the `after` bucket is read from its end; it never yields the item's own key; without stopping it yields every other key |
| SortItems.ScanAfterReverses | src/sortItems.ts:92-101 | without stopping, the scan is the bucket without the own key, reversed |
| SortItems.ScanAfterReachesLater | src/sortItems.ts:92-101 | when stopping at its own key, an item still reaches every later key of the bucket |
| SortItems.ResolveDep | src/sortItems.ts:67-103 | a dependency tag resolves to the normal bucket, to the `before` bucket only when skipping and not itself before, and to the `after` scan, never to the item's own key |
| SortItems.ResolveDeps | src/sortItems.ts:58-106 | the resolved keys are exactly the union over the dependency tags |
| SortItems.UnknownTagResolvesToNothing | src/sortItems.ts:73 | a tag no item carries resolves to nothing |
| SortItems.BeforeResolutionSkipsBeforeBucket | src/sortItems.ts:76-83 | a `goesBefore` resolution never targets an item that names the tag in `goesBefore` itself |
| SortItems.AfterResolutionTargetsBeforeOnlyWhenSkipping | src/sortItems.ts:76-83 | a `goesAfter` resolution targets the `before` bucket only for the wildcard or one of the item's own tags |
| SortItems.Entries | src/sortItems.ts:108-130 | one `add` per item, in order, with its resolved `goesBefore` and `goesAfter` keys |
| SortItems.SortItems | src/sortItems.ts:140-143 | sorting fails exactly when the declarations form a cycle |
| SortItems.MentionedAreIndices | src/sortItems.ts:108-130 | the keys the graph sees are exactly the item indices |
| SortItems.ValueOfIndex | src/sortItems.ts:108-130 | each index stores its own item |
| SortItems.ItemOrderPermutes | src/sortItems.ts:132-143 | the visiting order lists every item index exactly once |
| SortItems.SortItemsPermutes | src/sortItems.ts:132-143 | a successful sort returns the items in the visiting order, a permutation of the input |
| SortItems.EdgeHonoured | src/sortItems.ts:108-143 | every declared edge between items is honoured by the result |
| SortItems.ResolvesBefore | src/sortItems.ts:58-106 | `goesBefore: [tag]` resolves to every other item carrying the tag outside its `before` bucket |
| SortItems.ResolvesAfter | src/sortItems.ts:58-106 | `goesAfter: [tag]` resolves to the normal carriers, the `before` carriers when skipping, and the `after` carriers registered later or when not skipping |
| SortItems.GoesBeforeTag | src/sortItems.ts:25-143 | an item naming a tag in `goesBefore` runs before every other item carrying it, except those that also name it in `goesBefore` |
| SortItems.GoesAfterTag | src/sortItems.ts:25-143 | an item naming a tag in `goesAfter` runs after the items `ResolvesAfter` describes |
| SortItems.LaterAfterItemsRunFirst | src/sortItems.ts:92-101 | items naming a tag they carry in `goesAfter` run in reverse registration order among themselves |
| SortItems.MutualGoesBeforeFails | src/sortItems.ts:108-143 | two items that must each precede the other make the sort throw |
| SortItems.BothWaysFails | src/sortItems.ts:38-106 | an item naming a tag in both `goesBefore` and `goesAfter`, while another item carries it normally, makes the sort throw |
| SortItems.UnconstrainedOrder | src/sortItems.ts:108-143 | without `goesBefore` and `goesAfter`, the indices are visited in order |
| SortItems.UnconstrainedKeepsOrder | src/sortItems.ts:140-143 | without `goesBefore` and `goesAfter`, sorting returns the items unchanged |
| SortPlugins.Relate | src/sortPlugins.ts:11-17 | relating a word appends the name to that word's list only |
| SortPlugins.BuildRelationsSpec | src/sortPlugins.ts:8-20 | the relation map built plugin by plugin equals the one read off the plugins directly |
| SortPlugins.ExpectedRelatedMembers | src/sortPlugins.ts:8-20 | a word is related to exactly the names of the plugins named or tagged with it |
| SortPlugins.RelatedMembers | src/sortPlugins.ts:8-20 | in the built map, a word relates to exactly the plugins carrying it |
| SortPlugins.Expand | src/sortPlugins.ts:27-41 | an entry list expands to exactly the names related to some entry; unrelated entries are dropped |
| SortPlugins.ExpandMembers | src/sortPlugins.ts:22-41 | an expanded list names exactly the plugins carrying one of the entries |
| SortPlugins.PluginEntries | src/sortPlugins.ts:22-44 | one `add` per plugin: its name, the plugin, and the expanded `before` and `after` lists |
| SortPlugins.SortPlugins | src/sortPlugins.ts:4-51 | sorting fails exactly when a plugin has no name or the expanded declarations form a cycle |
| SortPlugins.MentionedAreNames | src/sortPlugins.ts:22-44 | the keys the graph sees are exactly the plugin names |
| SortPlugins.EdgeHonoured | src/sortPlugins.ts:43-50 | every declared edge between plugin names is honoured by the visiting order |
| SortPlugins.BeforeEntryHonoured | src/sortPlugins.ts:27-33 | a plugin listing `x` in `before` runs before every plugin named or tagged `x` |
| SortPlugins.AfterEntryHonoured | src/sortPlugins.ts:35-41 | a plugin listing `x` in `after` runs after every plugin named or tagged `x` |
| SortPlugins.SelfReferenceFails | src/sortPlugins.ts:8-44 | a plugin listing its own name or tag in `before` or `after` makes the sort fail |
| SortPlugins.OrderListsNames | src/sortPlugins.ts:46-50 | with distinct names, the visiting order lists every name once |
| SortPlugins.ResultFollowsOrder | src/sortPlugins.ts:46-50 | with distinct names, each position of the result holds the plugin whose name is visited there |
| SortPlugins.SortPluginsPermutes | src/sortPlugins.ts:46-50 | with distinct names, a successful sort returns each plugin exactly once |
| SortPlugins.RelateAsWritten | src/sortPlugins.ts:11-17 | as written, relating a word throws exactly when it is an inherited name not yet related, and otherwise relates it as the own-words model does |
| SortPlugins.RelateTagsAsWrittenSpec | src/sortPlugins.ts:14-19 | as written, relating the tags throws exactly when one of them is an inherited name, and otherwise builds what the own-words model builds |
| SortPlugins.BuildRelationsAsWrittenSpec | src/sortPlugins.ts:8-20 | as written, building the relations throws exactly when some plugin is named or tagged with an inherited name, and otherwise builds the own-words map |
| SortPlugins.BuildRelationsAsWrittenStep | src/sortPlugins.ts:9-19 | as written, the last plugin's step throws exactly when it is named or tagged with an inherited name |
| SortPlugins.ExpandAsWrittenSpec | src/sortPlugins.ts:27-41 | as written, an entry list throws exactly when it holds an inherited name, and otherwise expands as the own-words model does |
| SortPlugins.EntriesAsWrittenFails | src/sortPlugins.ts:22-44 | as written, expanding the `before` and `after` lists throws exactly when some plugin lists an inherited name there; which error comes first when an earlier plugin's `add` also throws is not stated |
| SortPlugins.EntriesAsWrittenValue | src/sortPlugins.ts:22-44 | as written, the `add` calls that succeed carry each plugin with its expanded `before` and `after` lists |
| SortPlugins.SortPluginsAsWrittenSpec | src/sortPlugins.ts:4-51 | as written, a plugin that mentions an inherited name makes the sort throw a type error, unless an earlier plugin's `add` throws first, which is not modelled; without such a mention it does what the own-words sort does |
| SortPlugins.PluginNamedConstructor | src/sortPlugins.ts:11-12 | as written, a plugin named `constructor` makes the sort throw; with own words it sorts |
| SortPlugins.BeforeEntryToString | src/sortPlugins.ts:29-30 | as written, `before: ['toString']` with no plugin carrying it makes the sort throw; with own words the entry is dropped |

## Left out

- The coroutine engine (`corrie`) is a dependency outside the repository, and so are its settings and effect plumbing. A toot is modelled up to the `Dispatch.Outcome` it hands to the engine: the engine, its mode, the items, the event as `this`, and the args. What the handlers then compute is not modelled.
- `wrap(fn)` returns an engine-wrapped function and is left out for the same reason.
- The wildcard matcher (`wildcard-match`) is a parameter. The JavaScript lemmas about unhooking a handler assume it never accepts a key for a function needle (`HooterJs.StringsOnly`). The TypeScript `matchHandler` never passes a function to it.
- The `Hooter` constructors' settings merging (state, effect handlers, engine settings) is left out. `HooterJs.New` and `HooterTs.New` model only the resulting events and empty store.
- Generator detection through `Object.getPrototypeOf` is replaced by a `generator` flag on function values.
- `defineProperty` non-enumerability, fresh arrays returned by `get` and `slice`, and mutation through aliases are not modelled. Values are immutable, so a returned listing can never be changed afterwards.
- Strict equality is modelled by identity for functions and objects. NaN and arrays compared by reference are not distinguished beyond that.
- `async` execution and the `this` binding of callbacks are left out.
- DagMap.TopoSort: when the declarations contain several cycles, the cycle reported may differ from the one the package reports. Only the fact that it throws is promised.
- SortPlugins.SortPlugins: when a plugin has no name and the declarations also form a cycle, which of the two errors is raised first is not modelled.
- `src/sortPlugins.ts` imports `WrappedPlugin` from `./Hooter`, which does not export it. The model uses the plugin's `raw` description directly.
- HooterTs.GetEvent: the configured events are looked up as own properties. Plain property access would also find names inherited from `Object.prototype`, as in the JavaScript finding below.
- HooterTs.Bind: a TypeScript proxy has no `proxy()` method, so `bind` on a proxy fails with a "not a function" error instead of returning a proxy of the proxy.
- `src/Hooter.js` asks for `./Store` (the record store), but it calls methods only `src/Store.ts` has. The model uses the segmented store for the JavaScript hooter.
- HooterTs.HookGeneric: built on the corrected forwarding of the first finding below, so the priority survives a proxy. As written, a hook made through a proxy lands at the end of the normal segment whatever its priority; `HooterTs.HookGenericAsWritten` and `HooterTs.HookLandsAsWritten` state that.
- HooterTs.HookLands: states where a hook lands with the priority forwarded. As written, that holds only for hooks made on the root (`HooterTs.HookLandsAsWritten`).
- HooterTs.HookWith: the public hook methods are built on the corrected `HooterTs.HookGeneric`, with the same difference through a proxy.
- HooterTs.ConnectedForwards: its hook clause is about the corrected `HooterTs.HookHandler`. As written, a proxy forwards without the priority (`HooterTs.ProxyDropsPriority`).
- HooterTs.HookKeepsValid: stated for the corrected hook. As written, the store differs only in which segment a hook made through a proxy lands in.
- HooterTs.HookThenUnhook: stated for the corrected hook. As written, a hook made through a proxy lands in a different segment before it is unhooked.
- EffectsTs.HookHandler: delegates to the corrected `HooterTs.HookGeneric`, with the same difference through a proxy.
- SortPlugins.Relate: relates own words only, the corrected half of the third finding below. As written, an inherited name such as `constructor` makes `push` throw (`SortPlugins.RelateAsWritten`).
- SortPlugins.Expand: expands own words only, the corrected half of the third finding. As written, an entry such as `toString` that no plugin carries is spread and throws (`SortPlugins.ExpandAsWrittenSpec`).
- SortPlugins.SortPlugins: the corrected sort of the third finding. As written, it throws a type error when a plugin mentions an inherited name (`SortPlugins.SortPluginsAsWrittenSpec`).
- SortItems.MapTagsToItemKeysBuckets: the tag map holds own entries only and keeps no state between calls. In the source it is a plain object. A tag `__proto__` makes its bucket object `Object.prototype` itself, so every other tag's bucket object then finds and shares those bucket lists, in this call and in every later one. A tag such as `toString` keeps its buckets on a built-in function, where later calls find them again. This global state is not modelled.
- SortItems.BucketMembers: holds for the own-entries tag map, so it is weaker than the source in the same way. Once a `__proto__` tag has been used, an item can appear in the bucket of a tag it does not carry.
- SortItems.UnknownTagResolvesToNothing: holds in the source only while `Object.prototype` and the built-in functions carry no bucket lists. After a `__proto__` tag, or an inherited tag name in an earlier call, a tag no item carries can resolve to items.
- HooterJs.CreateEvent: `_createEvent` is stated over the own-entries lookup, the corrected half of the second finding below. As written, an inherited name never registered, such as `toString`, fails the mode check instead (`HooterJs.InheritedNameBlocksToots`); for every other name the two lookups agree (`HooterJs.LookupAsWrittenAgrees`).
- HooterJs.TootOutcome: its four outcomes are classified over the own-entries lookup. As written, an inherited name never registered, such as `toString`, fails the mode check instead (`HooterJs.InheritedNameBlocksToots`); for every other name the two lookups agree (`HooterJs.LookupAsWrittenAgrees`).
- HooterJs.TootInvalidMode: the mode error is stated over the own-entries lookup. As written, an inherited name never registered, such as `toString`, fails the mode check instead (`HooterJs.InheritedNameBlocksToots`); for every other name the two lookups agree (`HooterJs.LookupAsWrittenAgrees`).
- HooterJs.TootDelivers: delivery is stated over the own-entries lookup. As written, an inherited name never registered, such as `toString`, fails the mode check instead (`HooterJs.InheritedNameBlocksToots`); for every other name the two lookups agree (`HooterJs.LookupAsWrittenAgrees`).
- HooterJs.ConnectedCreateEvent: "an event exactly when the mode is valid" is stated over the own-entries lookup. As written, an inherited name never registered, such as `toString`, fails the mode check instead (`HooterJs.InheritedNameBlocksToots`); for every other name the two lookups agree (`HooterJs.LookupAsWrittenAgrees`).
- HooterJs.CreateEventFailsOnlyOnName: "only the name can fail" holds over the own-entries lookup. As written, an inherited name never registered, such as `toString`, fails the mode check instead (`HooterJs.InheritedNameBlocksToots`); for every other name the two lookups agree (`HooterJs.LookupAsWrittenAgrees`).
- HooterJs.BoundEventsCarryOwner: the event is shown to exist over the own-entries lookup. As written, an inherited name never registered, such as `toString`, fails the mode check instead (`HooterJs.InheritedNameBlocksToots`); for every other name the two lookups agree (`HooterJs.LookupAsWrittenAgrees`).
- HooterJs.UserEventOverrides: the merge is shown over the own-entries lookup. As written, an inherited name never registered, such as `toString`, fails the mode check instead (`HooterJs.InheritedNameBlocksToots`); for every other name the two lookups agree (`HooterJs.LookupAsWrittenAgrees`).
- HooterJs.EventOfName: the event is shown to exist over the own-entries lookup. As written, an inherited name never registered, such as `toString`, fails the mode check instead (`HooterJs.InheritedNameBlocksToots`); for every other name the two lookups agree (`HooterJs.LookupAsWrittenAgrees`).
- HooterJs.TootRunsMatchingHandlers: the toot is shown to succeed over the own-entries lookup. As written, an inherited name never registered, such as `toString`, fails the mode check instead (`HooterJs.InheritedNameBlocksToots`); for every other name the two lookups agree (`HooterJs.LookupAsWrittenAgrees`).
- SortPlugins.EntriesAsWrittenFails: the `before` and `after` lists of every plugin are expanded before any `add`. In the source each plugin's `add` runs before the next plugin's lists are expanded. So a missing name or a cycle found at an earlier `add` throws dag-map's error first, and a later inherited entry is never reached, as in `[{name:'A', before:['A']}, {name:'B', before:['toString']}]`.
- SortPlugins.SortPluginsAsWrittenSpec: the type error is modelled whenever a plugin mentions an inherited name. The source raises it only when no earlier plugin's `add` throws first, for the reason given for `SortPlugins.EntriesAsWrittenFails`.
- The tests under `tests/` are not modelled. They are read only for the expected behaviour.

## Findings

| source | as written | input that shows it | evidently intended | confidence | as-written member | corrected member |
|---|---|---|---|---|---|---|
| src/HooterProxy.ts:60-66 | a proxy's `_hookHandler(handler)` forwards without the priority argument, so the source adds the handler to the middle segment | `hooter.bind(owner).hookStart('e', fn)`: the handler lands in the middle segment, not at the start | forward the priority, as `src/HooterProxy.js:55-63` does | not executed; high | HooterTs.HookHandlerAsWritten, HooterTs.HookGenericAsWritten (shown by HooterTs.ProxyDropsPriority, HooterTs.HookStartThroughBoundProxy, HooterTs.HookLandsAsWritten) | HooterTs.HookHandler, HooterTs.HookGeneric |
| src/Hooter.js:51-53, 64 | `this.events[name]` is a plain property read on an ordinary object, so names inherited from `Object.prototype` count as found | `register('constructor', 'auto')` on a fresh hooter throws "already registered"; `toot('toString')` reads an undefined mode and throws the mode error | look up own properties only | not executed; medium | HooterJs.LookupAsWritten, HooterJs.RegisterRootAsWritten (shown by HooterJs.InheritedNameBlocksRegistration, HooterJs.InheritedNameBlocksToots, HooterJs.LookupAsWrittenAgrees) | HooterJs.Lookup, HooterJs.RegisterRoot |
| src/sortPlugins.ts:11-12, 29-30 | `relations` is a plain object, so a word inherited from `Object.prototype` finds a built-in member: `relations[x] \|\| []` keeps it and `push` is not a function, and spreading it into `realBefore` or `realAfter` is not iterable | a plugin named or tagged `constructor`, or `before: ['toString']` with no plugin carrying it, makes the sort throw a type error | relate and expand own words only | not executed; medium | SortPlugins.RelateAsWritten, SortPlugins.SortPluginsAsWritten (shown by SortPlugins.SortPluginsAsWrittenSpec, SortPlugins.PluginNamedConstructor, SortPlugins.BeforeEntryToString) | SortPlugins.Relate, SortPlugins.Expand, SortPlugins.SortPlugins |
