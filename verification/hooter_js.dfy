/** The dispatcher of the JavaScript generation: the root dispatcher
    (`Hooter`), the operations it shares with its proxies (`HooterBase`) and
    the proxies themselves (`HooterProxy`).

    A dispatcher is seen through a `View`: the root, or a proxy with an
    optional source and an owner. Everything a proxy does it forwards to its
    source, so every operation is defined on the root's `State` and a view;
    a proxy without a source fails. The wildcard matcher is a parameter of
    the store's matching function, and the execution engine is described by
    `Dispatch.Outcome` rather than run. */
module HooterJs {
  import opened Wrappers
  import opened JsValues
  import opened Dispatch
  import SegmentedStore
  import RoutineJs
  import UtilsJs

  /** The execution modes an event may be registered with. */
  const Modes: seq<string> := ["auto", "asIs", "sync", "async"]

  predicate IsMode(v: Value) {
    v.Str? && v.s in Modes
  }

  datatype View = Root | Proxy(source: Option<View>, owner: Value)

  /** The `owner` field of a dispatcher; the root never has one. */
  function OwnerOf(v: View): Value {
    if v.Root? then Undefined else v.owner
  }

  /** A view whose chain of sources reaches the root. */
  predicate Connected(v: View) {
    v.Root? || (v.source.Some? && Connected(v.source.value))
  }

  /** `proxy()`: a proxy of this view without an owner. */
  function ProxyOf(v: View): (p: View)
    ensures Connected(p) <==> Connected(v)
    ensures OwnerOf(p) == Undefined
  {
    Proxy(Some(v), Undefined)
  }

  /** `bind(owner)`: a proxy of this view owned by `owner`. */
  function Bind(v: View, owner: Value): (p: View)
    ensures Connected(p) <==> Connected(v)
    ensures OwnerOf(p) == owner
  {
    Proxy(Some(v), owner)
  }

  /** A handler: its routine, the event name it listens to, and the store it
      was hooked into (`undefined` until then). */
  datatype Handler = Handler(routine: RoutineJs.Routine<View>, key: string, store: Value)

  function HandlerValue(h: Handler): Value {
    RoutineJs.AsValue(h.routine)
  }

  /** `matchHandler`: the handler itself, or a needle the wildcard matcher
      accepts for the handler's key. */
  predicate MatchHandler(wildcard: (string, Value) -> bool, h: Handler, needle: Value) {
    Refers(needle, h.routine.self) || wildcard(h.key, needle)
  }

  function Matcher(wildcard: (string, Value) -> bool): (Handler, Value) -> bool {
    (h: Handler, n: Value) => MatchHandler(wildcard, h, n)
  }

  /** The wildcard matcher accepts only string patterns. */
  ghost predicate StringsOnly(wildcard: (string, Value) -> bool) {
    forall k, n :: wildcard(k, n) ==> n.Str?
  }

  type HandlerStore = SegmentedStore.Store<Handler, Value>

  /** The root dispatcher: the registered event modes by name, the handler
      store and its identity, and the next free function identity. */
  datatype State = State(events: map<string, Value>, store: HandlerStore, storeRef: nat, nextId: nat)

  function StoreValue(st: State): Value {
    Obj(st.storeRef, map[])
  }

  /** A new root dispatcher: no events, no handlers. */
  function New(wildcard: (string, Value) -> bool, storeRef: nat, nextId: nat): (st: State)
    ensures st.events == map[] && SegmentedStore.All(st.store) == []
    ensures st.store.matcher == Matcher(wildcard)
    ensures Valid(st)
  {
    State(map[], SegmentedStore.New(Matcher(wildcard)), storeRef, nextId)
  }

  /** What the root keeps true: registered modes are valid; every stored
      handler was hooked into this store, has an identity below `nextId` and
      was created through a view that reaches the root; and no two stored
      handlers share an identity. */
  ghost predicate Valid(st: State) {
    && (forall n :: n in st.events ==> IsMode(st.events[n]))
    && (forall h :: h in SegmentedStore.All(st.store) ==>
          h.store == StoreValue(st) && h.routine.self < st.nextId && Connected(h.routine.hooter))
    && (forall a, b :: a in SegmentedStore.All(st.store) && b in SegmentedStore.All(st.store) && a.routine.self == b.routine.self ==> a == b)
  }

  datatype Error =
    | NoSource                   // a proxy without a source
    | InvalidName                // an event name must be a non-empty string
    | AlreadyRegistered(name: string)
    | InvalidMode                // not one of `Modes`
    | NameNotString              // the `TypeError` of `_createHandler`
    | RoutineFailed(cause: RoutineJs.RoutineError)

  /** What reading `events[name]` finds: a registered `{mode}` entry, or
      something inherited from `Object.prototype`. */
  datatype Entry = Registered(mode: Value) | Inherited

  /** The lookup as written: plain property access, which also finds the
      inherited names. */
  function LookupAsWritten(events: map<string, Value>, name: string): (r: Option<Entry>)
    ensures r.None? <==> name !in events && name !in InheritedNames
    ensures name in events ==> r == Some(Registered(events[name]))
  {
    if name in events then Some(Registered(events[name]))
    else if name in InheritedNames then Some(Inherited)
    else None
  }

  /** The lookup the dispatcher evidently intends: own entries only. */
  function Lookup(events: map<string, Value>, name: string): (r: Option<Entry>)
    ensures r.None? <==> name !in events
    ensures r.Some? ==> r == Some(Registered(events[name]))
  {
    if name in events then Some(Registered(events[name])) else None
  }

  /** The mode `_createEvent` reads off what `getEvent` found: `auto` when
      nothing was found; an inherited function has no `mode`. */
  function ModeOf(found: Option<Entry>): (m: Value)
    ensures found.None? ==> m == Str("auto")
    ensures found.Some? && found.value.Registered? ==> m == found.value.mode
    ensures found.Some? && found.value.Inherited? ==> m == Undefined
  {
    match found
    case None => Str("auto")
    case Some(Registered(m)) => m
    case Some(Inherited) => Undefined
  }

  /** `getEvent(name)`. */
  function GetEvent(st: State, v: View, name: string): (r: Result<Option<Entry>, Error>)
    ensures v.Root? ==> r == Ok(Lookup(st.events, name))
    ensures r.Err? ==> r == Err(NoSource)
    decreases v
  {
    match v
    case Root => Ok(Lookup(st.events, name))
    case Proxy(source, _) => if source.None? then Err(NoSource) else GetEvent(st, source.value, name)
  }

  /** `handlers(needle)`: every handler for an `undefined` needle, otherwise
      the matching ones. */
  function Handlers(st: State, v: View, needle: Value): (r: Result<seq<Handler>, Error>)
    ensures v.Root? ==> r == Ok(SegmentedStore.Get(st.store, NeedleOf(needle)))
    ensures r.Err? ==> r == Err(NoSource)
    decreases v
  {
    match v
    case Root => Ok(SegmentedStore.Get(st.store, NeedleOf(needle)))
    case Proxy(source, _) => if source.None? then Err(NoSource) else Handlers(st, source.value, needle)
  }

  /** `register(name, mode)` on the root, with the lookup as written. */
  function RegisterRootAsWritten(st: State, name: Value, mode: Value): (r: Result<State, Error>)
    ensures r.Err? <==> !name.Str? || name.s == "" || LookupAsWritten(st.events, name.s).Some? || !IsMode(mode)
  {
    if !name.Str? || name.s == "" then Err(InvalidName)
    else if LookupAsWritten(st.events, name.s).Some? then Err(AlreadyRegistered(name.s))
    else if !IsMode(mode) then Err(InvalidMode)
    else Ok(st.(events := st.events[name.s := mode]))
  }

  /** `register(name, mode)` on the root, with the own-entries lookup: the
      name must be a non-empty string not yet registered, the mode one of
      `Modes`, and the checks are made in that order. */
  function RegisterRoot(st: State, name: Value, mode: Value): (r: Result<State, Error>)
    ensures r == Err(InvalidName) <==> !name.Str? || name.s == ""
    ensures r.Err? <==> !name.Str? || name.s == "" || name.s in st.events || !IsMode(mode)
    ensures r.Err? && r != Err(InvalidName) ==> (r == Err(AlreadyRegistered(name.s)) <==> name.s in st.events)
    ensures r.Ok? ==> r.value == st.(events := st.events[name.s := mode])
  {
    if !name.Str? || name.s == "" then Err(InvalidName)
    else if Lookup(st.events, name.s).Some? then Err(AlreadyRegistered(name.s))
    else if !IsMode(mode) then Err(InvalidMode)
    else Ok(st.(events := st.events[name.s := mode]))
  }

  function Register(st: State, v: View, name: Value, mode: Value): (r: Result<State, Error>)
    ensures v.Root? ==> r == RegisterRoot(st, name, mode)
    decreases v
  {
    match v
    case Root => RegisterRoot(st, name, mode)
    case Proxy(source, _) => if source.None? then Err(NoSource) else Register(st, source.value, name, mode)
  }

  /** `_hookHandler(handler, priority)` on the root: the handler is given
      this store, then `start` prepends it, `end` appends it, and anything
      else adds it to the normal segment. */
  function HookHandlerRoot(st: State, h: Handler, priority: Value): (r: (State, Handler))
    ensures r.1 == h.(store := StoreValue(st))
    ensures r.0.events == st.events && r.0.storeRef == st.storeRef && r.0.nextId == st.nextId
    ensures priority == Str("start") ==> r.0.store == SegmentedStore.Prepend(st.store, r.1)
    ensures priority == Str("end") ==> r.0.store == SegmentedStore.Append(st.store, r.1)
    ensures priority != Str("start") && priority != Str("end") ==> r.0.store == SegmentedStore.Add(st.store, r.1)
  {
    var stored := h.(store := StoreValue(st));
    var store :=
      if priority == Str("start") then SegmentedStore.Prepend(st.store, stored)
      else if priority == Str("end") then SegmentedStore.Append(st.store, stored)
      else SegmentedStore.Add(st.store, stored);
    (st.(store := store), stored)
  }

  function HookHandler(st: State, v: View, h: Handler, priority: Value): (r: Result<(State, Handler), Error>)
    ensures v.Root? ==> r == Ok(HookHandlerRoot(st, h, priority))
    ensures r.Err? ==> r == Err(NoSource)
    ensures r.Ok? ==> r.value.0.events == st.events && r.value.0.storeRef == st.storeRef && r.value.0.nextId == st.nextId
    decreases v
  {
    match v
    case Root => Ok(HookHandlerRoot(st, h, priority))
    case Proxy(source, _) => if source.None? then Err(NoSource) else HookHandler(st, source.value, h, priority)
  }

  /** `unhook(handler)`: deletes what the needle matches; an `undefined`
      needle deletes every handler. */
  function Unhook(st: State, v: View, needle: Value): (r: Result<State, Error>)
    ensures v.Root? ==> r == Ok(st.(store := SegmentedStore.Del(st.store, NeedleOf(needle))))
    ensures r.Err? ==> r == Err(NoSource)
    decreases v
  {
    match v
    case Root => Ok(st.(store := SegmentedStore.Del(st.store, NeedleOf(needle))))
    case Proxy(source, _) => if source.None? then Err(NoSource) else Unhook(st, source.value, needle)
  }

  /** The `unhook` method a handler carries: unhooks it through the view
      that created it. */
  function HandlerUnhook(st: State, h: Handler): Result<State, Error> {
    Unhook(st, h.routine.hooter, HandlerValue(h))
  }

  /** `_createHandler(eventName, fn)`: a lone function is hooked to every
      event (`**`); otherwise the event name must be a string. The routine
      gets the next free identity. */
  function CreateHandler(st: State, v: View, eventName: Value, fn: Value): (r: Result<Handler, Error>)
    ensures !Truthy(fn) && eventName.Func? ==>
      r == Ok(Handler(RoutineJs.New(st.nextId, Some(v), OwnerOf, eventName).value, "**", Undefined))
    ensures r == Err(NameNotString) <==> (Truthy(fn) || !eventName.Func?) && !eventName.Str?
    ensures eventName.Str? ==> (r.Err? <==> !fn.Func?)
    ensures eventName.Str? && fn.Func? ==>
      r == Ok(Handler(RoutineJs.New(st.nextId, Some(v), OwnerOf, fn).value, eventName.s, Undefined))
    ensures r.Ok? ==> r.value.routine.hooter == v && r.value.routine.owner == OwnerOf(v) && r.value.routine.self == st.nextId
  {
    var (key, f) :=
      if !Truthy(fn) && eventName.Func? then ("**", eventName)
      else if eventName.Str? then (eventName.s, fn)
      else ("", Undefined);
    if (Truthy(fn) || !eventName.Func?) && !eventName.Str? then Err(NameNotString)
    else
      match RoutineJs.New(st.nextId, Some(v), OwnerOf, f)
      case Err(e) => Err(RoutineFailed(e))
      case Ok(routine) => Ok(Handler(routine, key, Undefined))
  }

  /** `_hook(event, fn, priority)`: creates a handler and hooks it through
      the same view; the routine type `_hook` also receives is never used. */
  function Hook(st: State, v: View, eventName: Value, fn: Value, priority: Value): (r: Result<(State, Handler), Error>)
    ensures r.Ok? ==> CreateHandler(st, v, eventName, fn).Ok?
    ensures r.Ok? ==> r.value.0.nextId == st.nextId + 1
  {
    var h :- CreateHandler(st, v, eventName, fn);
    HookHandler(st.(nextId := st.nextId + 1), v, h, priority)
  }

  /** The public hook methods. */
  datatype HookVariant =
    | PlainHook | HookStart | HookEnd
    | HookAfter | HookStartAfter | HookEndAfter
    | HookResult | HookStartResult | HookEndResult

  /** The priority each method passes to `_hook`. */
  function PriorityOf(m: HookVariant): Value {
    match m
    case PlainHook => Undefined
    case HookStart => Str("start")
    case HookEnd => Str("end")
    case HookAfter => Null
    case HookStartAfter => Str("start")
    case HookEndAfter => Str("end")
    case HookResult => Null
    case HookStartResult => Str("start")
    case HookEndResult => Str("end")
  }

  predicate Observes(m: HookVariant) {
    m.HookResult? || m.HookStartResult? || m.HookEndResult?
  }

  /** A hook method called with `eventName` and `fn`; the result methods pass
      `null` for the function. */
  function HookWith(st: State, v: View, m: HookVariant, eventName: Value, fn: Value): Result<(State, Handler), Error> {
    Hook(st, v, eventName, if Observes(m) then Null else fn, PriorityOf(m))
  }

  /** The name `_createEvent` reads: a truthy object's `name` field, and
      otherwise the argument itself. */
  function EventName(nameArg: Value): Value {
    if Truthy(nameArg) && IsObject(nameArg) then Field(nameArg, "name") else nameArg
  }

  /** `_createEvent(name, args, cb)`: a truthy object is a user event whose
      `name` is read; the name must be a non-empty string; the mode is the
      registered one or `auto` and must be valid; `tooter` is the view's
      owner when it has one; and a user event's fields are merged last,
      unchecked. */
  function CreateEvent(st: State, v: View, nameArg: Value, args: Value, cb: Value): (r: Result<Event, Error>)
    ensures var name := EventName(nameArg);
      (r == Err(InvalidName) <==> !name.Str? || name.s == "")
      && (r.Ok? ==> "name" in r.value && r.value["name"] == name)
    ensures r.Ok? ==> GetEvent(st, v, r.value["name"].s).Ok?
    ensures r.Ok? && !nameArg.Obj? ==>
      r.value == UtilsJs.CreateEvent(OwnerOf(v), nameArg, ModeOf(GetEvent(st, v, nameArg.s).value), args, cb)
    ensures r.Ok? && nameArg.Obj? ==>
      r.value == Assign(UtilsJs.CreateEvent(OwnerOf(v), r.value["name"], ModeOf(GetEvent(st, v, r.value["name"].s).value), args, cb), nameArg.fields)
  {
    var name := EventName(nameArg);
    if !name.Str? || name.s == "" then Err(InvalidName)
    else
      var found :- GetEvent(st, v, name.s);
      var mode := ModeOf(found);
      if !IsMode(mode) then Err(InvalidMode)
      else
        var base := UtilsJs.CreateEvent(OwnerOf(v), name, mode, args, cb);
        Ok(if nameArg.Obj? then Assign(base, nameArg.fields) else base)
  }

  /** `_tootEvent(event)`: the handlers matching the event's name, then its
      callback, handed to the engine. */
  function TootEvent(st: State, v: View, e: Event): (r: Result<Outcome<Handler>, Error>)
    ensures v.Root? ==> r == Ok(Deliver(SegmentedStore.Get(st.store, NeedleOf(Prop(e, "name"))), e))
    ensures r.Err? ==> r == Err(NoSource)
    decreases v
  {
    match v
    case Root => Ok(Deliver(SegmentedStore.Get(st.store, NeedleOf(Prop(e, "name"))), e))
    case Proxy(source, _) => if source.None? then Err(NoSource) else TootEvent(st, source.value, e)
  }

  /** `_toot(event, args, cb)`; `toot(event, ...args)` passes no callback and
      `tootWith(event, cb, ...args)` passes `cb`. */
  function Toot(st: State, v: View, nameArg: Value, args: Value, cb: Value): (r: Result<Outcome<Handler>, Error>)
    ensures r.Ok? ==> CreateEvent(st, v, nameArg, args, cb).Ok?
    ensures r.Ok? ==> TootEvent(st, v, CreateEvent(st, v, nameArg, args, cb).value) == r
  {
    var e :- CreateEvent(st, v, nameArg, args, cb);
    TootEvent(st, v, e)
  }

  /** A view that reaches the root behaves exactly like the root. */
  lemma {:induction false} ConnectedForwards(st: State, v: View, name: string, needle: Value, mode: Value, h: Handler, e: Event)
    requires Connected(v)
    ensures GetEvent(st, v, name) == GetEvent(st, Root, name)
    ensures Handlers(st, v, needle) == Handlers(st, Root, needle)
    ensures Register(st, v, needle, mode) == Register(st, Root, needle, mode)
    ensures HookHandler(st, v, h, mode) == HookHandler(st, Root, h, mode)
    ensures Unhook(st, v, needle) == Unhook(st, Root, needle)
    ensures TootEvent(st, v, e) == TootEvent(st, Root, e)
    decreases v
  {
    if v.Proxy? {
      ConnectedForwards(st, v.source.value, name, needle, mode, h, e);
    }
  }

  /** A view whose chain ends in a proxy without a source fails every
      forwarded operation. */
  lemma DisconnectedFails(st: State, v: View, name: string, needle: Value, mode: Value, h: Handler, e: Event)
    requires !Connected(v)
    ensures GetEvent(st, v, name) == Err(NoSource)
    ensures Handlers(st, v, needle) == Err(NoSource)
    ensures Register(st, v, needle, mode) == Err(NoSource)
    ensures HookHandler(st, v, h, mode) == Err(NoSource)
    ensures Unhook(st, v, needle) == Err(NoSource)
    ensures TootEvent(st, v, e) == Err(NoSource)
  {
    DisconnectedReadsFail(st, v, name, needle, e);
    DisconnectedWritesFail(st, v, needle, mode, h);
  }

  /** The lookups and the toot of a disconnected view fail. */
  lemma {:induction false} DisconnectedReadsFail(st: State, v: View, name: string, needle: Value, e: Event)
    requires !Connected(v)
    ensures GetEvent(st, v, name) == Err(NoSource)
    ensures Handlers(st, v, needle) == Err(NoSource)
    ensures TootEvent(st, v, e) == Err(NoSource)
    decreases v
  {
    if v.source.Some? {
      DisconnectedReadsFail(st, v.source.value, name, needle, e);
    }
  }

  /** The registrations and removals of a disconnected view fail. */
  lemma {:induction false} DisconnectedWritesFail(st: State, v: View, needle: Value, mode: Value, h: Handler)
    requires !Connected(v)
    ensures Register(st, v, needle, mode) == Err(NoSource)
    ensures HookHandler(st, v, h, mode) == Err(NoSource)
    ensures Unhook(st, v, needle) == Err(NoSource)
    decreases v
  {
    if v.source.Some? {
      DisconnectedWritesFail(st, v.source.value, needle, mode, h);
    }
  }

  /** Registering through any view is registering on the root, or fails
      for want of a source. */
  lemma RegisterKeepsValid(st: State, v: View, name: Value, mode: Value)
    requires Valid(st)
    requires Register(st, v, name, mode).Ok?
    ensures Connected(v)
    ensures Register(st, v, name, mode) == RegisterRoot(st, name, mode)
    ensures Valid(Register(st, v, name, mode).value)
  {
    var h := Handler(RoutineJs.Routine(0, PlainWrapper, Root, Undefined, Undefined), "", Undefined);
    if !Connected(v) {
      DisconnectedFails(st, v, "", name, mode, h, map[]);
    }
    ConnectedForwards(st, v, "", name, mode, h, map[]);
  }

  /** Hooking through a view that reaches the root puts the handler, now
      carrying this store, at the end of the start segment for `start`, at
      the front of the end segment for `end`, and at the end of the normal
      segment otherwise; it fails through any other view. */
  lemma HookLands(st: State, v: View, eventName: Value, fn: Value, priority: Value)
    requires Hook(st, v, eventName, fn, priority).Ok?
    ensures Connected(v)
    ensures var (st1, h) := Hook(st, v, eventName, fn, priority).value;
      && h == CreateHandler(st, v, eventName, fn).value.(store := StoreValue(st))
      && st1.events == st.events && st1.storeRef == st.storeRef
      && (priority == Str("start") ==> st1.store == SegmentedStore.Prepend(st.store, h))
      && (priority == Str("end") ==> st1.store == SegmentedStore.Append(st.store, h))
      && (priority != Str("start") && priority != Str("end") ==> st1.store == SegmentedStore.Add(st.store, h))
  {
    var h := CreateHandler(st, v, eventName, fn).value;
    var st0 := st.(nextId := st.nextId + 1);
    if !Connected(v) {
      DisconnectedFails(st0, v, "", Undefined, priority, h, map[]);
    }
    ConnectedForwards(st0, v, "", Undefined, priority, h, map[]);
  }

  /** Hooking keeps the root valid and adds exactly the new handler, whose
      identity is the one that was free. */
  lemma HookKeepsValid(st: State, v: View, eventName: Value, fn: Value, priority: Value)
    requires Valid(st)
    requires Hook(st, v, eventName, fn, priority).Ok?
    ensures var (st1, h) := Hook(st, v, eventName, fn, priority).value;
      && Valid(st1)
      && h.routine.self == st.nextId && h !in SegmentedStore.All(st.store)
      && (forall x :: x in SegmentedStore.All(st1.store) <==> x in SegmentedStore.All(st.store) || x == h)
  {
    HookLands(st, v, eventName, fn, priority);
    var (st1, h) := Hook(st, v, eventName, fn, priority).value;
    assert forall x :: x in SegmentedStore.All(st1.store) <==> x in SegmentedStore.All(st.store) || x == h;
  }

  /** Unhooking through any view keeps the root valid and only removes
      handlers. */
  lemma UnhookKeepsValid(st: State, v: View, needle: Value)
    requires Valid(st)
    requires Unhook(st, v, needle).Ok?
    ensures Valid(Unhook(st, v, needle).value)
    ensures forall x :: x in SegmentedStore.All(Unhook(st, v, needle).value.store) ==> x in SegmentedStore.All(st.store)
  {
    var h := Handler(RoutineJs.Routine(0, PlainWrapper, Root, Undefined, Undefined), "", Undefined);
    if !Connected(v) {
      DisconnectedFails(st, v, "", needle, Undefined, h, map[]);
    }
    assert Unhook(st, v, needle) == Unhook(st, Root, needle) by {
      ConnectedForwards(st, v, "", needle, Undefined, h, map[]);
    }
    DelKeepsValid(st, NeedleOf(needle));
  }

  /** Deleting from the root's store keeps it valid and adds nothing. */
  lemma DelKeepsValid(st: State, needle: Option<Value>)
    requires Valid(st)
    ensures var st1 := st.(store := SegmentedStore.Del(st.store, needle));
      && Valid(st1)
      && forall x :: x in SegmentedStore.All(st1.store) ==> x in SegmentedStore.All(st.store)
  {
    if needle.Some? {
      SegmentedStore.DelKeepsTheRest(st.store, needle.value);
    }
  }

  /** A stored handler's own `unhook` removes that handler and no other,
      provided the wildcard matcher ignores non-string needles. */
  lemma UnhookRemovesOnlyItself(st: State, wildcard: (string, Value) -> bool, h: Handler)
    requires Valid(st) && st.store.matcher == Matcher(wildcard) && StringsOnly(wildcard)
    requires h in SegmentedStore.All(st.store)
    ensures HandlerUnhook(st, h).Ok?
    ensures forall x :: x in SegmentedStore.All(HandlerUnhook(st, h).value.store) <==> x in SegmentedStore.All(st.store) && x != h
  {
    var hd := Handler(RoutineJs.Routine(0, PlainWrapper, Root, Undefined, Undefined), "", Undefined);
    var n := HandlerValue(h);
    ConnectedForwards(st, h.routine.hooter, "", n, Undefined, hd, map[]);
    assert HandlerUnhook(st, h) == Ok(st.(store := SegmentedStore.Del(st.store, Some(n))));
    DelOwnValue(st.store, wildcard, h);
  }

  /** Deleting by a stored handler's own value, when no other handler shares
      its identity, removes that handler and no other. */
  lemma DelOwnValue(s: HandlerStore, wildcard: (string, Value) -> bool, h: Handler)
    requires s.matcher == Matcher(wildcard) && StringsOnly(wildcard)
    requires h in SegmentedStore.All(s)
    requires forall x :: x in SegmentedStore.All(s) && x.routine.self == h.routine.self ==> x == h
    ensures forall x :: x in SegmentedStore.All(SegmentedStore.Del(s, Some(HandlerValue(h)))) <==> x in SegmentedStore.All(s) && x != h
  {
    var n := HandlerValue(h);
    forall x | x in SegmentedStore.All(s)
      ensures s.matcher(x, n) <==> x == h
    {
      assert !wildcard(x.key, n);
    }
  }

  /** `s1` is `s0` with `h` hooked at some priority. */
  ghost predicate Inserted(s0: HandlerStore, s1: HandlerStore, h: Handler) {
    s1 == SegmentedStore.Prepend(s0, h) || s1 == SegmentedStore.Append(s0, h) || s1 == SegmentedStore.Add(s0, h)
  }

  /** Deleting, by its own value, a handler just inserted whose identity no
      other handler has restores the listing. */
  lemma DelFresh(s0: HandlerStore, s1: HandlerStore, h: Handler, wildcard: (string, Value) -> bool)
    requires s0.matcher == Matcher(wildcard) && StringsOnly(wildcard)
    requires Inserted(s0, s1, h)
    requires forall x :: x in SegmentedStore.All(s0) ==> x.routine.self != h.routine.self
    ensures SegmentedStore.All(SegmentedStore.Del(s1, Some(HandlerValue(h)))) == SegmentedStore.All(s0)
  {
    var a := if s1 == SegmentedStore.Prepend(s0, h) then s0.start else s0.start + s0.items;
    var b := if s1 == SegmentedStore.Prepend(s0, h) then s0.items + s0.end else s0.end;
    assert SegmentedStore.All(s1) == a + [h] + b;
    forall x | x in a + b ensures !s1.matcher(x, HandlerValue(h)) {
      assert x in SegmentedStore.All(s0);
      assert !wildcard(x.key, HandlerValue(h));
    }
    SegmentedStore.DelInserted(s0, s1, h, HandlerValue(h), a, b);
  }

  /** Hooking a handler and calling its `unhook` gives back the listing the
      store had before, element for element. */
  lemma HookThenUnhook(st: State, wildcard: (string, Value) -> bool, v: View, eventName: Value, fn: Value, priority: Value)
    requires Valid(st) && st.store.matcher == Matcher(wildcard) && StringsOnly(wildcard)
    requires Hook(st, v, eventName, fn, priority).Ok?
    ensures var r := Hook(st, v, eventName, fn, priority).value;
      && HandlerUnhook(r.0, r.1).Ok?
      && SegmentedStore.All(HandlerUnhook(r.0, r.1).value.store) == SegmentedStore.All(st.store)
  {
    HookLands(st, v, eventName, fn, priority);
    HookKeepsValid(st, v, eventName, fn, priority);
    var r := Hook(st, v, eventName, fn, priority).value;
    var h := r.1;
    assert Inserted(st.store, r.0.store, h);
    assert forall x :: x in SegmentedStore.All(st.store) ==> x.routine.self != h.routine.self;
    UnhookFresh(st.store, r.0, h, wildcard);
  }

  /** A handler just inserted, with an identity no earlier handler has,
      unhooks itself through a view that reaches the root and leaves the
      earlier listing. */
  lemma UnhookFresh(s0: HandlerStore, st1: State, h: Handler, wildcard: (string, Value) -> bool)
    requires Connected(h.routine.hooter) && Inserted(s0, st1.store, h)
    requires s0.matcher == Matcher(wildcard) && StringsOnly(wildcard)
    requires forall x :: x in SegmentedStore.All(s0) ==> x.routine.self != h.routine.self
    ensures HandlerUnhook(st1, h).Ok?
    ensures SegmentedStore.All(HandlerUnhook(st1, h).value.store) == SegmentedStore.All(s0)
  {
    var hd := Handler(RoutineJs.Routine(0, PlainWrapper, Root, Undefined, Undefined), "", Undefined);
    var n := HandlerValue(h);
    ConnectedForwards(st1, h.routine.hooter, "", n, Undefined, hd, map[]);
    assert HandlerUnhook(st1, h) == Ok(st1.(store := SegmentedStore.Del(st1.store, Some(n))));
    DelFresh(s0, st1.store, h, wildcard);
  }

  /** The method a variant would be without `After` in its name. */
  function WithoutAfter(m: HookVariant): HookVariant {
    match m
    case HookAfter => PlainHook
    case HookStartAfter => HookStart
    case HookEndAfter => HookEnd
    case _ => m
  }

  /** `hookAfter`, `hookStartAfter` and `hookEndAfter` hook exactly what
      `hook`, `hookStart` and `hookEnd` hook: the routine type they pass is
      dropped, and `null` and `undefined` priorities both mean normal. */
  lemma AfterVariantsAreOrdinary(st: State, v: View, m: HookVariant, eventName: Value, fn: Value)
    ensures HookWith(st, v, m, eventName, fn) == HookWith(st, v, WithoutAfter(m), eventName, fn)
  {
    if m == HookAfter {
      HookNullIsNormal(st, v, eventName, fn);
    } else if m != WithoutAfter(m) {
      SamePriorityHooksAlike(st, v, m, WithoutAfter(m), eventName, fn);
    }
  }

  /** Two non-observing methods that pass the same priority hook alike. */
  lemma SamePriorityHooksAlike(st: State, v: View, m: HookVariant, n: HookVariant, eventName: Value, fn: Value)
    requires !Observes(m) && !Observes(n) && PriorityOf(m) == PriorityOf(n)
    ensures HookWith(st, v, m, eventName, fn) == HookWith(st, v, n, eventName, fn)
  {
  }

  /** A `null` priority hooks exactly like an absent one. */
  lemma HookNullIsNormal(st: State, v: View, eventName: Value, fn: Value)
    ensures Hook(st, v, eventName, fn, Null) == Hook(st, v, eventName, fn, Undefined)
  {
    var c := CreateHandler(st, v, eventName, fn);
    if c.Ok? {
      NullPriorityIsNormal(st.(nextId := st.nextId + 1), v, c.value);
    }
  }

  lemma NullPriorityIsNormal(st: State, v: View, h: Handler)
    ensures HookHandler(st, v, h, Null) == HookHandler(st, v, h, Undefined)
  {
    if Connected(v) {
      ConnectedForwards(st, v, "", Undefined, Null, h, map[]);
      ConnectedForwards(st, v, "", Undefined, Undefined, h, map[]);
    } else {
      DisconnectedFails(st, v, "", Undefined, Null, h, map[]);
      DisconnectedFails(st, v, "", Undefined, Undefined, h, map[]);
    }
  }

  /** The result methods pass no function: with an event name they always
      fail, and given a lone function instead they hook that function to
      every event like `hook` would. */
  lemma ResultVariantsNeedAFunction(st: State, v: View, m: HookVariant, eventName: Value)
    requires Observes(m)
    ensures eventName.Str? ==> HookWith(st, v, m, eventName, Undefined) == Err(RoutineFailed(RoutineJs.FnRequired))
    ensures !eventName.Str? && !eventName.Func? ==> HookWith(st, v, m, eventName, Undefined) == Err(NameNotString)
    ensures eventName.Func? && Connected(v) ==>
      && HookWith(st, v, m, eventName, Undefined).Ok?
      && HookWith(st, v, m, eventName, Undefined).value.1.key == "**"
      && HookWith(st, v, m, eventName, Undefined).value.1.routine.fn == eventName
  {
    if eventName.Func? && Connected(v) {
      var c := CreateHandler(st, v, eventName, Null).value;
      ConnectedForwards(st.(nextId := st.nextId + 1), v, "", Undefined, PriorityOf(m), c, map[]);
    }
  }

  /** On a valid root, through a view that reaches it, creating an event
      fails only for a bad name: every registered mode is valid. */
  lemma CreateEventFailsOnlyOnName(st: State, v: View, nameArg: Value, args: Value, cb: Value)
    requires Valid(st) && Connected(v)
    ensures var name := EventName(nameArg);
      CreateEvent(st, v, nameArg, args, cb).Err? <==> !name.Str? || name.s == ""
  {
    var name := EventName(nameArg);
    if name.Str? && name.s != "" {
      var h := Handler(RoutineJs.Routine(0, PlainWrapper, Root, Undefined, Undefined), "", Undefined);
      ConnectedForwards(st, v, name.s, Undefined, Undefined, h, map[]);
      assert IsMode(ModeOf(Lookup(st.events, name.s)));
    }
  }

  /** An event tooted by name through a bound view carries the owner as its
      `tooter`, whatever the view was bound to before: the outermost owner
      wins. */
  lemma BoundEventsCarryOwner(st: State, v: View, owner: Value, name: string, args: Value, cb: Value)
    requires Valid(st) && Connected(v) && Truthy(owner) && name != ""
    ensures CreateEvent(st, Bind(v, owner), Str(name), args, cb).Ok?
    ensures var e := CreateEvent(st, Bind(v, owner), Str(name), args, cb).value;
      "tooter" in e && e["tooter"] == owner
  {
    CreateEventFailsOnlyOnName(st, Bind(v, owner), Str(name), args, cb);
  }

  /** A user event's own fields are merged last and unchecked: its `mode`
      and `tooter` replace the registered mode and the owner. */
  lemma UserEventOverrides(st: State, v: View, id: nat, name: string, mode: Value, tooter: Value, args: Value)
    requires Valid(st) && Connected(v) && name != ""
    ensures var user := Obj(id, map["name" := Str(name), "mode" := mode, "tooter" := tooter]);
      && CreateEvent(st, v, user, args, Undefined).Ok?
      && CreateEvent(st, v, user, args, Undefined).value["mode"] == mode
      && CreateEvent(st, v, user, args, Undefined).value["tooter"] == tooter
  {
    var user := Obj(id, map["name" := Str(name), "mode" := mode, "tooter" := tooter]);
    CreateEventFailsOnlyOnName(st, v, user, args, Undefined);
  }

  /** The event a name creates through a view that reaches a valid root. */
  lemma EventOfName(st: State, v: View, name: string, args: Value, cb: Value)
    requires Valid(st) && Connected(v) && name != ""
    ensures CreateEvent(st, v, Str(name), args, cb).Ok?
    ensures var e := CreateEvent(st, v, Str(name), args, cb).value;
      && Prop(e, "name") == Str(name)
      && Prop(e, "mode") == ModeOf(Lookup(st.events, name))
      && Prop(e, "args") == (if Truthy(args) then args else Arr([]))
      && Prop(e, "cb") == (if Truthy(cb) then cb else Undefined)
  {
    CreateEventFailsOnlyOnName(st, v, Str(name), args, cb);
    var h := Handler(RoutineJs.Routine(0, PlainWrapper, Root, Undefined, Undefined), "", Undefined);
    ConnectedForwards(st, v, name, Undefined, Undefined, h, map[]);
  }

  /** Tooting a name through a view that reaches a valid root runs the
      handlers matching the name, then the callback, by the registered
      mode's engine (the default one for `auto` or no registration); with
      neither handlers nor callback nothing runs. */
  lemma TootRunsMatchingHandlers(st: State, v: View, name: string, args: seq<Value>, cb: Value)
    requires Valid(st) && Connected(v) && name != ""
    ensures Toot(st, v, Str(name), Arr(args), cb).Ok?
    ensures var o := Toot(st, v, Str(name), Arr(args), cb).value;
      var handlers := SegmentedStore.Get(st.store, Some(Str(name)));
      var mode := ModeOf(Lookup(st.events, name));
      && (o.NothingRun? <==> |handlers| == 0 && !Truthy(cb))
      && (o.Run? ==> o.items == Items(handlers, cb) && o.args == Arr(args)
                     && (o.engine.DefaultEngine? <==> mode == Str("auto"))
                     && (o.engine.ModeEngine? ==> o.engine.mode == mode))
  {
    EventOfName(st, v, name, Arr(args), cb);
    var e := CreateEvent(st, v, Str(name), Arr(args), cb).value;
    var h := Handler(RoutineJs.Routine(0, PlainWrapper, Root, Undefined, Undefined), "", Undefined);
    ConnectedForwards(st, v, name, Undefined, Undefined, h, e);
    var handlers := SegmentedStore.Get(st.store, Some(Str(name)));
    assert Toot(st, v, Str(name), Arr(args), cb) == Ok(Deliver(handlers, e));
    DeliverEvent(handlers, e, ModeOf(Lookup(st.events, name)), Arr(args), cb);
  }

  /** Every toot, on any view and with any arguments, ends in one of four
      ways, checked in this order: a name that is not a non-empty string is
      refused; a view that does not reach the root has no source; a mode
      that is not valid is refused; otherwise the handlers matching the
      name, then the callback, are handed to the engine with the created
      event. */
  lemma TootOutcome(st: State, v: View, nameArg: Value, args: Value, cb: Value)
    ensures var name := EventName(nameArg);
      var r := Toot(st, v, nameArg, args, cb);
      && (!name.Str? || name.s == "" ==> r == Err(InvalidName))
      && (name.Str? && name.s != "" && !Connected(v) ==> r == Err(NoSource))
      && (name.Str? && name.s != "" && Connected(v) && !IsMode(ModeOf(Lookup(st.events, name.s))) ==> r == Err(InvalidMode))
      && (name.Str? && name.s != "" && Connected(v) && IsMode(ModeOf(Lookup(st.events, name.s))) ==>
            && CreateEvent(st, v, nameArg, args, cb).Ok?
            && r == Ok(Deliver(SegmentedStore.Get(st.store, Some(name)), CreateEvent(st, v, nameArg, args, cb).value)))
  {
    var name := EventName(nameArg);
    if !name.Str? || name.s == "" {
      assert CreateEvent(st, v, nameArg, args, cb) == Err(InvalidName);
    } else {
      if !Connected(v) {
        TootDisconnected(st, v, nameArg, args, cb, name.s);
      } else if IsMode(ModeOf(Lookup(st.events, name.s))) {
        TootDelivers(st, v, nameArg, args, cb, name.s);
      } else {
        TootInvalidMode(st, v, nameArg, args, cb, name.s);
      }
    }
  }

  lemma TootDisconnected(st: State, v: View, nameArg: Value, args: Value, cb: Value, name: string)
    requires !Connected(v) && name != ""
    requires EventName(nameArg) == Str(name)
    ensures Toot(st, v, nameArg, args, cb) == Err(NoSource)
  {
    DisconnectedReadsFail(st, v, name, Undefined, map[]);
  }

  lemma TootInvalidMode(st: State, v: View, nameArg: Value, args: Value, cb: Value, name: string)
    requires Connected(v) && name != "" && !IsMode(ModeOf(Lookup(st.events, name)))
    requires EventName(nameArg) == Str(name)
    ensures Toot(st, v, nameArg, args, cb) == Err(InvalidMode)
  {
    ConnectedCreateEvent(st, v, nameArg, args, cb, name);
  }

  lemma TootDelivers(st: State, v: View, nameArg: Value, args: Value, cb: Value, name: string)
    requires Connected(v) && name != "" && IsMode(ModeOf(Lookup(st.events, name)))
    requires EventName(nameArg) == Str(name)
    ensures CreateEvent(st, v, nameArg, args, cb).Ok?
    ensures Toot(st, v, nameArg, args, cb) == Ok(Deliver(SegmentedStore.Get(st.store, Some(Str(name))), CreateEvent(st, v, nameArg, args, cb).value))
  {
    ConnectedCreateEvent(st, v, nameArg, args, cb, name);
    var e := CreateEvent(st, v, nameArg, args, cb).value;
    ConnectedTootEvent(st, v, e);
  }

  lemma {:induction false} ConnectedTootEvent(st: State, v: View, e: Event)
    requires Connected(v)
    ensures TootEvent(st, v, e) == Ok(Deliver(SegmentedStore.Get(st.store, NeedleOf(Prop(e, "name"))), e))
    decreases v
  {
    if v.Proxy? {
      ConnectedTootEvent(st, v.source.value, e);
    }
  }

  /** Through a view that reaches the root, a good name creates an event
      carrying it exactly when the mode it finds is valid. */
  lemma ConnectedCreateEvent(st: State, v: View, nameArg: Value, args: Value, cb: Value, name: string)
    requires Connected(v) && name != ""
    requires EventName(nameArg) == Str(name)
    ensures CreateEvent(st, v, nameArg, args, cb).Ok? <==> IsMode(ModeOf(Lookup(st.events, name)))
    ensures CreateEvent(st, v, nameArg, args, cb).Err? ==> CreateEvent(st, v, nameArg, args, cb) == Err(InvalidMode)
    ensures CreateEvent(st, v, nameArg, args, cb).Ok? ==> Prop(CreateEvent(st, v, nameArg, args, cb).value, "name") == Str(name)
  {
    var h := Handler(RoutineJs.Routine(0, PlainWrapper, Root, Undefined, Undefined), "", Undefined);
    ConnectedForwards(st, v, name, Undefined, Undefined, h, map[]);
  }

  /** As written, `register` rejects an inherited name such as `constructor`
      as already registered on a dispatcher that has registered nothing;
      with the own-entries lookup it is accepted. */
  lemma InheritedNameBlocksRegistration(st: State)
    requires "constructor" !in st.events
    ensures RegisterRootAsWritten(st, Str("constructor"), Str("auto")) == Err(AlreadyRegistered("constructor"))
    ensures RegisterRoot(st, Str("constructor"), Str("auto")).Ok?
  {
  }

  /** As written, tooting an unregistered inherited name such as `toString`
      reads the mode of a built-in function, which is not a valid mode, so
      `_createEvent` throws; with the own-entries lookup the event is an
      ordinary `auto` event. */
  lemma InheritedNameBlocksToots(events: map<string, Value>)
    requires "toString" !in events
    ensures !IsMode(ModeOf(LookupAsWritten(events, "toString")))
    ensures ModeOf(Lookup(events, "toString")) == Str("auto") && IsMode(Str("auto"))
  {
  }

  /** The two lookups part only on an inherited name that was never
      registered, and there the lookup as written finds no valid mode: every
      statement made here over `Lookup` holds as written for every other
      name, and for those names `_createEvent` as written throws the mode
      error. */
  lemma LookupAsWrittenAgrees(events: map<string, Value>, name: string)
    ensures LookupAsWritten(events, name) == Lookup(events, name) <==> name in events || name !in InheritedNames
    ensures name !in events && name in InheritedNames ==> !IsMode(ModeOf(LookupAsWritten(events, name)))
  {
  }
}
