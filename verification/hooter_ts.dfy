/** The dispatcher of the TypeScript generation: the root dispatcher
    (`Hooter`) and its proxies (`HooterProxy`), on top of `HooterBaseTs`.

    As in the JavaScript generation, a dispatcher is seen through a `View`
    and every operation is defined on the root's `State` and a view. A proxy
    here also carries the event names it refuses to toot and the
    `registeredEventsOnly` flag it inherits or is given, and it stamps its
    owner on every event it creates. */
module HooterTs {
  import opened Wrappers
  import opened JsValues
  import opened Dispatch
  import SegmentedStore
  import RoutinesTs
  import opened HooterBaseTs

  datatype View = Root | Proxy(source: Option<View>, owner: Value, disallowed: seq<string>, registeredEventsOnly: Value)

  function OwnerOf(v: View): Value {
    if v.Root? then Undefined else v.owner
  }

  function RegisteredEventsOnly(v: View): Value {
    if v.Root? then Undefined else v.registeredEventsOnly
  }

  /** A view whose chain of sources reaches the root. */
  predicate Connected(v: View) {
    v.Root? || (v.source.Some? && Connected(v.source.value))
  }

  /** Some proxy on the chain from `v` refuses to toot `name`. */
  predicate Blocks(v: View, name: Value) {
    v.Proxy? && ((name.Str? && name.s in v.disallowed) || (v.source.Some? && Blocks(v.source.value, name)))
  }

  datatype ProxySettings = ProxySettings(disallowedEvents: Option<seq<string>>, registeredEventsOnly: Value)

  /** `new HooterProxy(source, settings)`: no owner; the refused names given,
      if any; the source's `registeredEventsOnly` unless the settings define
      it, in which case its truthiness. */
  function NewProxy(source: View, settings: Option<ProxySettings>): (p: View)
    ensures p.Proxy? && p.source == Some(source) && p.owner == Undefined
    ensures p.disallowed == (if settings.Some? && settings.value.disallowedEvents.Some? then settings.value.disallowedEvents.value else [])
    ensures settings.None? || settings.value.registeredEventsOnly.Undefined? ==> p.registeredEventsOnly == RegisteredEventsOnly(source)
    ensures settings.Some? && !settings.value.registeredEventsOnly.Undefined? ==>
      p.registeredEventsOnly == Bool(Truthy(settings.value.registeredEventsOnly))
  {
    match settings
    case None => Proxy(Some(source), Undefined, [], RegisteredEventsOnly(source))
    case Some(s) =>
      var disallowed := if s.disallowedEvents.Some? then s.disallowedEvents.value else [];
      var only := if s.registeredEventsOnly.Undefined? then RegisteredEventsOnly(source) else Bool(Truthy(s.registeredEventsOnly));
      Proxy(Some(source), Undefined, disallowed, only)
  }

  datatype Error =
    | NoSource                   // a proxy without a source
    | BareError                  // `getEvent` on a proxy without a source throws an error with no message
    | InvalidName                // an event name must be a non-empty string
    | Disallowed(name: Value)    // the event cannot be tooted via this proxy
    | NotAFunction(member: string) // calling a method the object does not have
    | RoutineFailed(cause: RoutinesTs.RoutineError)

  /** `proxy()`: the root creates a proxy with no settings; a proxy has no
      `proxy` method of its own. */
  function ProxyOf(v: View): (r: Result<View, Error>)
    ensures v.Root? <==> r.Ok?
    ensures r.Ok? ==> r.value == NewProxy(Root, None)
  {
    if v.Root? then Ok(NewProxy(Root, None)) else Err(NotAFunction("proxy"))
  }

  /** `bind(owner)`: a new proxy owned by `owner`. */
  function Bind(v: View, owner: Value): (r: Result<View, Error>)
    ensures v.Root? <==> r.Ok?
    ensures r.Ok? ==> r.value.Proxy? && Connected(r.value) && OwnerOf(r.value) == owner && r.value.disallowed == []
  {
    var p :- ProxyOf(v);
    Ok(p.(owner := owner))
  }

  type THandler = HooterBaseTs.Handler<View>

  function Matcher(wildcard: (string, string) -> bool): (THandler, Value) -> bool {
    (h: THandler, n: Value) => MatchHandler(wildcard, h, n)
  }

  /** The root dispatcher: the configured events (absent when the settings
      have none), the handler store and the next free function identity. */
  datatype State = State(registered: Option<map<string, Value>>, store: SegmentedStore.Store<THandler, Value>, nextId: nat)

  /** A new root dispatcher with the given configured events. */
  function New(wildcard: (string, string) -> bool, events: Option<map<string, Value>>, nextId: nat): (st: State)
    ensures st.registered == events && SegmentedStore.All(st.store) == []
    ensures st.store.matcher == Matcher(wildcard)
    ensures Valid(st)
  {
    State(events, SegmentedStore.New(Matcher(wildcard)), nextId)
  }

  /** What the root keeps true: every stored handler has an identity below
      `nextId` and was created through a view that reaches the root, and no
      two stored handlers share an identity. */
  ghost predicate Valid(st: State) {
    && (forall h :: h in SegmentedStore.All(st.store) ==> h.routine.self < st.nextId && Connected(h.routine.hooter))
    && (forall a, b :: a in SegmentedStore.All(st.store) && b in SegmentedStore.All(st.store) && a.routine.self == b.routine.self ==> a == b)
  }

  /** `getEvent(name)`: the configured entry, `undefined` when there is none
      or no events were configured. */
  function GetEvent(st: State, v: View, name: string): (r: Result<Value, Error>)
    ensures v.Root? ==> r == Ok(if st.registered.Some? then Prop(st.registered.value, name) else Undefined)
    ensures r.Err? ==> r == Err(BareError)
    decreases v
  {
    match v
    case Root => Ok(if st.registered.Some? then Prop(st.registered.value, name) else Undefined)
    case Proxy(source, _, _, _) => if source.None? then Err(BareError) else GetEvent(st, source.value, name)
  }

  /** `handlers(needle)`. */
  function Handlers(st: State, v: View, needle: Value): (r: Result<seq<THandler>, Error>)
    ensures v.Root? ==> r == Ok(SegmentedStore.Get(st.store, NeedleOf(needle)))
    ensures r.Err? ==> r == Err(NoSource)
    decreases v
  {
    match v
    case Root => Ok(SegmentedStore.Get(st.store, NeedleOf(needle)))
    case Proxy(source, _, _, _) => if source.None? then Err(NoSource) else Handlers(st, source.value, needle)
  }

  /** `unhook(handler)`: deletes what the needle matches; an `undefined`
      needle deletes every handler. */
  function Unhook(st: State, v: View, needle: Value): (r: Result<State, Error>)
    ensures v.Root? ==> r == Ok(st.(store := SegmentedStore.Del(st.store, NeedleOf(needle))))
    ensures r.Err? ==> r == Err(NoSource)
    decreases v
  {
    match v
    case Root => Ok(st.(store := SegmentedStore.Del(st.store, NeedleOf(needle))))
    case Proxy(source, _, _, _) => if source.None? then Err(NoSource) else Unhook(st, source.value, needle)
  }

  /** The `unhook` method a handler carries: unhooks it through the view
      that created it. */
  function HandlerUnhook(st: State, h: THandler): Result<State, Error> {
    Unhook(st, h.routine.hooter, HandlerValue(h))
  }

  /** `_hookHandler(handler, priority)` on the root; `None` is a priority
      that was not passed, which counts as normal. */
  function HookHandlerRoot(st: State, h: THandler, priority: Option<Priority>): (r: State)
    ensures r.registered == st.registered && r.nextId == st.nextId
    ensures priority == Some(Start) ==> r.store == SegmentedStore.Prepend(st.store, h)
    ensures priority == Some(End) ==> r.store == SegmentedStore.Append(st.store, h)
    ensures priority != Some(Start) && priority != Some(End) ==> r.store == SegmentedStore.Add(st.store, h)
  {
    var store :=
      if priority == Some(Start) then SegmentedStore.Prepend(st.store, h)
      else if priority == Some(End) then SegmentedStore.Append(st.store, h)
      else SegmentedStore.Add(st.store, h);
    st.(store := store)
  }

  /** `_hookHandler` as written: a proxy forwards the handler but not the
      priority. */
  function HookHandlerAsWritten(st: State, v: View, h: THandler, priority: Option<Priority>): (r: Result<State, Error>)
    ensures v.Root? ==> r == Ok(HookHandlerRoot(st, h, priority))
    ensures r.Err? ==> r == Err(NoSource)
    ensures r.Ok? ==> r.value.registered == st.registered && r.value.nextId == st.nextId
    decreases v
  {
    match v
    case Root => Ok(HookHandlerRoot(st, h, priority))
    case Proxy(source, _, _, _) => if source.None? then Err(NoSource) else HookHandlerAsWritten(st, source.value, h, None)
  }

  /** `_hookHandler` with the priority forwarded, as the JavaScript proxy
      does. */
  function HookHandler(st: State, v: View, h: THandler, priority: Option<Priority>): (r: Result<State, Error>)
    ensures v.Root? ==> r == Ok(HookHandlerRoot(st, h, priority))
    ensures r.Err? ==> r == Err(NoSource)
    ensures r.Ok? ==> r.value.registered == st.registered && r.value.nextId == st.nextId
    decreases v
  {
    match v
    case Root => Ok(HookHandlerRoot(st, h, priority))
    case Proxy(source, _, _, _) => if source.None? then Err(NoSource) else HookHandler(st, source.value, h, priority)
  }

  /** `hookGeneric(mode, priority, event, fn)`: creates a handler for this
      view with the next free identity and hooks it with the priority. */
  function HookGeneric(st: State, v: View, mode: RoutinesTs.Mode, priority: Priority, event: string, fn: Value): (r: Result<(State, THandler), Error>)
    ensures r.Ok? ==> CreateHandler(st.nextId, v, OwnerOf, mode, event, fn) == Ok(r.value.1)
    ensures r.Ok? ==> r.value.0.nextId == st.nextId + 1
  {
    match CreateHandler(st.nextId, v, OwnerOf, mode, event, fn)
    case Err(e) => Err(RoutineFailed(e))
    case Ok(h) =>
      var st1 :- HookHandler(st.(nextId := st.nextId + 1), v, h, Some(priority));
      Ok((st1, h))
  }

  /** `hookGeneric` as written: the same, but a proxy forwards the handler
      without the priority. */
  function HookGenericAsWritten(st: State, v: View, mode: RoutinesTs.Mode, priority: Priority, event: string, fn: Value): (r: Result<(State, THandler), Error>)
    ensures r.Ok? ==> CreateHandler(st.nextId, v, OwnerOf, mode, event, fn) == Ok(r.value.1)
    ensures r.Ok? ==> r.value.0.nextId == st.nextId + 1
  {
    match CreateHandler(st.nextId, v, OwnerOf, mode, event, fn)
    case Err(e) => Err(RoutineFailed(e))
    case Ok(h) =>
      var st1 :- HookHandlerAsWritten(st.(nextId := st.nextId + 1), v, h, Some(priority));
      Ok((st1, h))
  }

  /** One of the public hook methods. */
  function HookWith(st: State, v: View, m: HookVariant, event: string, fn: Value): Result<(State, THandler), Error> {
    HookGeneric(st, v, VariantParams(m).0, VariantParams(m).1, event, fn)
  }

  /** `_createEvent(name, args, cb)`, the base construction followed, on a
      proxy, by setting `tooter` to the proxy's owner, even an undefined
      one, over whatever the user event gave. */
  function CreateEvent(st: State, v: View, nameArg: Value, args: Value, cb: Value): (r: Result<Event, Error>)
    ensures ReadName(nameArg).Err? <==> r == Err(Error.InvalidName)
    ensures r.Ok? ==> GetEvent(st, v, ReadName(nameArg).value.0).Ok?
    ensures r.Ok? ==>
      var (name, user) := ReadName(nameArg).value;
      var base := BuildEvent(name, GetEvent(st, v, name).value, args, cb, user);
      r.value == if v.Proxy? then base["tooter" := v.owner] else base
  {
    match ReadName(nameArg)
    case Err(_) => Err(Error.InvalidName)
    case Ok((name, user)) =>
      var registered :- GetEvent(st, v, name);
      var base := BuildEvent(name, registered, args, cb, user);
      Ok(if v.Proxy? then base["tooter" := v.owner] else base)
  }

  /** `_tootEvent(event)`: a proxy refuses its disallowed names, then
      forwards; the root hands the handlers matching the name, then the
      callback, to the engine. */
  function TootEvent(st: State, v: View, e: Event): (r: Result<Outcome<THandler>, Error>)
    ensures v.Root? ==> r == Ok(Deliver(SegmentedStore.Get(st.store, NeedleOf(Prop(e, "name"))), e))
    ensures r.Err? ==> r == Err(NoSource) || r == Err(Disallowed(Prop(e, "name")))
    decreases v
  {
    match v
    case Root => Ok(Deliver(SegmentedStore.Get(st.store, NeedleOf(Prop(e, "name"))), e))
    case Proxy(source, _, disallowed, _) =>
      var name := Prop(e, "name");
      if name.Str? && name.s in disallowed then Err(Disallowed(name))
      else if source.None? then Err(NoSource)
      else TootEvent(st, source.value, e)
  }

  /** `tootGeneric(event, args, cb)`; `toot(event, ...args)` passes no
      callback and `tootWith(event, cb, ...args)` passes `cb`. */
  function TootGeneric(st: State, v: View, nameArg: Value, args: Value, cb: Value): (r: Result<Outcome<THandler>, Error>)
    ensures r.Ok? ==> CreateEvent(st, v, nameArg, args, cb).Ok?
    ensures r.Ok? ==> TootEvent(st, v, CreateEvent(st, v, nameArg, args, cb).value) == r
  {
    var e :- CreateEvent(st, v, nameArg, args, cb);
    TootEvent(st, v, e)
  }

  /** The names `assignEventToots` gives a toot function: every configured
      event. */
  function EventToots(st: State): (names: set<string>)
    ensures forall n :: n in names <==> st.registered.Some? && n in st.registered.value
  {
    if st.registered.Some? then st.registered.value.Keys else {}
  }

  /** The toot function of a configured event: a toot of its name on the
      root. */
  function EventToot(st: State, name: string, args: seq<Value>): Result<Outcome<THandler>, Error>
    requires name in EventToots(st)
  {
    TootGeneric(st, Root, Str(name), Arr(args), Undefined)
  }

  /** A view that reaches the root behaves like the root, except that a
      proxy on the way may refuse to toot the event. */
  lemma {:induction false} ConnectedForwards(st: State, v: View, name: string, needle: Value, h: THandler, priority: Option<Priority>, e: Event)
    requires Connected(v)
    ensures GetEvent(st, v, name) == GetEvent(st, Root, name)
    ensures Handlers(st, v, needle) == Handlers(st, Root, needle)
    ensures Unhook(st, v, needle) == Unhook(st, Root, needle)
    ensures HookHandler(st, v, h, priority) == HookHandler(st, Root, h, priority)
    ensures TootEvent(st, v, e) == if Blocks(v, Prop(e, "name")) then Err(Disallowed(Prop(e, "name"))) else TootEvent(st, Root, e)
    decreases v
  {
    if v.Proxy? {
      ConnectedForwards(st, v.source.value, name, needle, h, priority, e);
    }
  }

  /** A view whose chain ends in a proxy without a source fails every
      forwarded operation; `getEvent` fails with a bare error. */
  lemma {:induction false} DisconnectedFails(st: State, v: View, name: string, needle: Value, h: THandler, priority: Option<Priority>, e: Event)
    requires !Connected(v)
    ensures GetEvent(st, v, name) == Err(BareError)
    ensures Handlers(st, v, needle) == Err(NoSource)
    ensures Unhook(st, v, needle) == Err(NoSource)
    ensures HookHandler(st, v, h, priority) == Err(NoSource)
    ensures HookHandlerAsWritten(st, v, h, priority) == Err(NoSource)
    ensures TootEvent(st, v, e) == if Blocks(v, Prop(e, "name")) then Err(Disallowed(Prop(e, "name"))) else Err(NoSource)
    decreases v
  {
    if v.source.Some? {
      DisconnectedFails(st, v.source.value, name, needle, h, None, e);
      DisconnectedFails(st, v.source.value, name, needle, h, priority, e);
    }
  }

  /** As written, hooking through any proxy that reaches the root lands in
      the normal segment, whatever the priority. */
  lemma {:induction false} ProxyDropsPriority(st: State, v: View, h: THandler, priority: Option<Priority>)
    requires Connected(v) && v.Proxy?
    ensures HookHandlerAsWritten(st, v, h, priority) == Ok(st.(store := SegmentedStore.Add(st.store, h)))
    decreases v
  {
    var src := v.source.value;
    if src.Proxy? {
      ProxyDropsPriority(st, src, h, None);
    }
  }

  /** The discrepancy on a concrete call: `hookStart` through a bound proxy
      puts the handler at the end of the normal segment as written, and at
      the end of the start segment with the priority forwarded. */
  lemma HookStartThroughBoundProxy(st: State, owner: Value, h: THandler)
    ensures var p := Bind(Root, owner).value;
      && HookHandlerAsWritten(st, p, h, Some(Start)).value.store.start == st.store.start
      && HookHandlerAsWritten(st, p, h, Some(Start)).value.store.items == st.store.items + [h]
      && HookHandler(st, p, h, Some(Start)).value.store.start == st.store.start + [h]
      && HookHandler(st, p, h, Some(Start)).value.store.items == st.store.items
  {
    var p := Bind(Root, owner).value;
    ProxyDropsPriority(st, p, h, Some(Start));
    ConnectedForwards(st, p, "", Undefined, h, Some(Start), map[]);
  }

  /** Hooking through a view that reaches the root puts the handler at the
      end of the start segment for `Start`, at the front of the end segment
      for `End`, and at the end of the normal segment for `Normal`; it fails
      through any other view. */
  lemma HookLands(st: State, v: View, mode: RoutinesTs.Mode, priority: Priority, event: string, fn: Value)
    requires HookGeneric(st, v, mode, priority, event, fn).Ok?
    ensures Connected(v)
    ensures var (st1, h) := HookGeneric(st, v, mode, priority, event, fn).value;
      && h.routine.self == st.nextId && h.routine.hooter == v && h.key == event
      && st1.registered == st.registered
      && st1.store == HookHandlerRoot(st, h, Some(priority)).store
  {
    var h := CreateHandler(st.nextId, v, OwnerOf, mode, event, fn).value;
    var st0 := st.(nextId := st.nextId + 1);
    if !Connected(v) {
      DisconnectedFails(st0, v, "", Undefined, h, Some(priority), map[]);
    }
    ConnectedForwards(st0, v, "", Undefined, h, Some(priority), map[]);
  }

  /** As written, a successful hook lands where its priority says only when
      made on the root itself; made through a proxy it lands at the end of
      the normal segment whatever the priority. Everything else is as with
      the priority forwarded. */
  lemma HookLandsAsWritten(st: State, v: View, mode: RoutinesTs.Mode, priority: Priority, event: string, fn: Value)
    requires HookGenericAsWritten(st, v, mode, priority, event, fn).Ok?
    ensures Connected(v)
    ensures var (st1, h) := HookGenericAsWritten(st, v, mode, priority, event, fn).value;
      && h.routine.self == st.nextId && h.routine.hooter == v && h.key == event
      && st1.registered == st.registered
      && st1.store == (if v.Root? then HookHandlerRoot(st, h, Some(priority)).store else SegmentedStore.Add(st.store, h))
    ensures v.Root? ==> HookGenericAsWritten(st, v, mode, priority, event, fn) == HookGeneric(st, v, mode, priority, event, fn)
  {
    var h := CreateHandler(st.nextId, v, OwnerOf, mode, event, fn).value;
    var st0 := st.(nextId := st.nextId + 1);
    if !Connected(v) {
      DisconnectedFails(st0, v, "", Undefined, h, Some(priority), map[]);
    } else if v.Proxy? {
      ProxyDropsPriority(st0, v, h, Some(priority));
    }
  }

  /** Hooking keeps the root valid and adds exactly the new handler. */
  lemma HookKeepsValid(st: State, v: View, mode: RoutinesTs.Mode, priority: Priority, event: string, fn: Value)
    requires Valid(st)
    requires HookGeneric(st, v, mode, priority, event, fn).Ok?
    ensures var (st1, h) := HookGeneric(st, v, mode, priority, event, fn).value;
      && Valid(st1) && h !in SegmentedStore.All(st.store)
      && (forall x :: x in SegmentedStore.All(st1.store) <==> x in SegmentedStore.All(st.store) || x == h)
  {
    HookLands(st, v, mode, priority, event, fn);
  }

  /** `s1` is `s0` with `h` hooked at some priority. */
  ghost predicate Inserted(s0: SegmentedStore.Store<THandler, Value>, s1: SegmentedStore.Store<THandler, Value>, h: THandler) {
    s1 == SegmentedStore.Prepend(s0, h) || s1 == SegmentedStore.Append(s0, h) || s1 == SegmentedStore.Add(s0, h)
  }

  /** Deleting, by its own value, a handler just inserted whose identity no
      other handler has restores the listing; a handler value is never a
      string, so the wildcard matcher plays no part. */
  lemma DelFresh(s0: SegmentedStore.Store<THandler, Value>, s1: SegmentedStore.Store<THandler, Value>, h: THandler, wildcard: (string, string) -> bool)
    requires s0.matcher == Matcher(wildcard)
    requires Inserted(s0, s1, h)
    requires forall x :: x in SegmentedStore.All(s0) ==> x.routine.self != h.routine.self
    ensures SegmentedStore.All(SegmentedStore.Del(s1, Some(HandlerValue(h)))) == SegmentedStore.All(s0)
  {
    var a := if s1 == SegmentedStore.Prepend(s0, h) then s0.start else s0.start + s0.items;
    var b := if s1 == SegmentedStore.Prepend(s0, h) then s0.items + s0.end else s0.end;
    assert SegmentedStore.All(s1) == a + [h] + b;
    forall x | x in a + b ensures !s1.matcher(x, HandlerValue(h)) {
      assert x in SegmentedStore.All(s0);
    }
    SegmentedStore.DelInserted(s0, s1, h, HandlerValue(h), a, b);
  }

  /** Hooking a handler and calling its `unhook` gives back the listing the
      store had before, element for element. */
  lemma HookThenUnhook(st: State, wildcard: (string, string) -> bool, v: View, mode: RoutinesTs.Mode, priority: Priority, event: string, fn: Value)
    requires Valid(st) && st.store.matcher == Matcher(wildcard)
    requires HookGeneric(st, v, mode, priority, event, fn).Ok?
    ensures var r := HookGeneric(st, v, mode, priority, event, fn).value;
      && HandlerUnhook(r.0, r.1).Ok?
      && SegmentedStore.All(HandlerUnhook(r.0, r.1).value.store) == SegmentedStore.All(st.store)
  {
    HookLands(st, v, mode, priority, event, fn);
    var r := HookGeneric(st, v, mode, priority, event, fn).value;
    var h := r.1;
    assert Inserted(st.store, r.0.store, h);
    ConnectedForwards(r.0, h.routine.hooter, "", HandlerValue(h), h, None, map[]);
    DelFresh(st.store, r.0.store, h, wildcard);
  }

  /** Through a view that reaches the root, creating an event fails only for
      a bad name. */
  lemma CreateEventFailsOnlyOnName(st: State, v: View, nameArg: Value, args: Value, cb: Value)
    requires Connected(v)
    ensures CreateEvent(st, v, nameArg, args, cb).Err? <==> ReadName(nameArg).Err?
  {
    if ReadName(nameArg).Ok? {
      var h := Handler(RoutinesTs.Routine(0, RoutinesTs.Call, Root, Undefined, Undefined, Undefined), "");
      ConnectedForwards(st, v, ReadName(nameArg).value.0, Undefined, h, None, map[]);
    }
  }

  /** Every event a proxy creates has the proxy's owner as its `tooter`,
      even over a `tooter` the user event supplied, and even when the owner
      is undefined. */
  lemma ProxyEventsCarryOwner(st: State, v: View, nameArg: Value, args: Value, cb: Value)
    requires v.Proxy? && Connected(v) && ReadName(nameArg).Ok?
    ensures CreateEvent(st, v, nameArg, args, cb).Ok?
    ensures var e := CreateEvent(st, v, nameArg, args, cb).value;
      "tooter" in e && e["tooter"] == v.owner
  {
    CreateEventFailsOnlyOnName(st, v, nameArg, args, cb);
  }

  /** A toot through a proxy that refuses the name fails before anything
      runs, whether or not the proxy reaches the root. */
  lemma DisallowedNamesRefused(st: State, v: View, name: string, args: Value, cb: Value)
    requires name != "" && Blocks(v, Str(name))
    requires CreateEvent(st, v, Str(name), args, cb).Ok?
    ensures TootGeneric(st, v, Str(name), args, cb) == Err(Disallowed(Str(name)))
  {
    var e := CreateEvent(st, v, Str(name), args, cb).value;
    assert Prop(e, "name") == Str(name);
    var h := Handler(RoutinesTs.Routine(0, RoutinesTs.Call, Root, Undefined, Undefined, Undefined), "");
    if Connected(v) {
      ConnectedForwards(st, v, name, Undefined, h, None, e);
    } else {
      DisconnectedFails(st, v, name, Undefined, h, None, e);
    }
  }

  /** The mode an event named `name` gets: the configured entry's `mode`,
      or `auto` when there is no truthy entry. */
  function ConfiguredMode(st: State, name: string): Value {
    var entry := if st.registered.Some? then Prop(st.registered.value, name) else Undefined;
    if Truthy(entry) then Field(entry, "mode") else Str("auto")
  }

  /** Through a view that reaches the root, the event created for a plain
      name carries the name, its configured mode, the arguments and the
      callback when it is truthy. */
  lemma EventOfName(st: State, v: View, name: string, args: seq<Value>, cb: Value)
    requires Connected(v) && name != ""
    ensures CreateEvent(st, v, Str(name), Arr(args), cb).Ok?
    ensures var e := CreateEvent(st, v, Str(name), Arr(args), cb).value;
      && Prop(e, "name") == Str(name)
      && Prop(e, "mode") == ConfiguredMode(st, name)
      && Prop(e, "args") == Arr(args)
      && Prop(e, "cb") == (if Truthy(cb) then cb else Undefined)
  {
    CreateEventFailsOnlyOnName(st, v, Str(name), Arr(args), cb);
    var h := Handler(RoutinesTs.Routine(0, RoutinesTs.Call, Root, Undefined, Undefined, Undefined), "");
    ConnectedForwards(st, v, name, Undefined, h, None, map[]);
  }

  /** Tooting a name through a view that reaches the root and does not
      refuse it runs the handlers matching the name, then the callback, by
      the engine of the configured mode; with neither handlers nor callback
      nothing runs. */
  lemma TootRunsMatchingHandlers(st: State, v: View, name: string, args: seq<Value>, cb: Value)
    requires Connected(v) && name != "" && !Blocks(v, Str(name))
    ensures TootGeneric(st, v, Str(name), Arr(args), cb).Ok?
    ensures var o := TootGeneric(st, v, Str(name), Arr(args), cb).value;
      var handlers := SegmentedStore.Get(st.store, Some(Str(name)));
      && (o.NothingRun? <==> |handlers| == 0 && !Truthy(cb))
      && (o.Run? ==> o.items == Items(handlers, cb) && o.args == Arr(args)
                     && (o.engine.DefaultEngine? <==> ConfiguredMode(st, name) == Str("auto"))
                     && (o.engine.ModeEngine? ==> o.engine.mode == ConfiguredMode(st, name)))
  {
    EventOfName(st, v, name, args, cb);
    var e := CreateEvent(st, v, Str(name), Arr(args), cb).value;
    var h := Handler(RoutinesTs.Routine(0, RoutinesTs.Call, Root, Undefined, Undefined, Undefined), "");
    ConnectedForwards(st, v, name, Undefined, h, None, e);
    var handlers := SegmentedStore.Get(st.store, Some(Str(name)));
    assert TootGeneric(st, v, Str(name), Arr(args), cb) == Ok(Deliver(handlers, e));
    DeliverEvent(handlers, e, ConfiguredMode(st, name), Arr(args), cb);
  }

  /** Every toot, on any view and with any arguments, ends in one of four
      ways, checked in this order: a name that is not a non-empty string is
      refused; a view that does not reach the root fails to look the event
      up; a proxy on the way that refuses the name refuses it; otherwise the
      handlers matching the name, then the callback, are handed to the
      engine with the created event. */
  lemma TootGenericOutcome(st: State, v: View, nameArg: Value, args: Value, cb: Value)
    ensures var r := TootGeneric(st, v, nameArg, args, cb);
      && (ReadName(nameArg).Err? ==> r == Err(Error.InvalidName))
      && (ReadName(nameArg).Ok? && !Connected(v) ==> r == Err(BareError))
      && (ReadName(nameArg).Ok? && Connected(v) ==>
            var name := Str(ReadName(nameArg).value.0);
            && CreateEvent(st, v, nameArg, args, cb).Ok?
            && Prop(CreateEvent(st, v, nameArg, args, cb).value, "name") == name
            && r == if Blocks(v, name) then Err(Disallowed(name))
                    else Ok(Deliver(SegmentedStore.Get(st.store, Some(name)), CreateEvent(st, v, nameArg, args, cb).value)))
  {
    if ReadName(nameArg).Ok? {
      if Connected(v) {
        TootGenericConnected(st, v, nameArg, args, cb);
      } else {
        TootGenericDisconnected(st, v, nameArg, args, cb);
      }
    }
  }

  lemma TootGenericDisconnected(st: State, v: View, nameArg: Value, args: Value, cb: Value)
    requires !Connected(v) && ReadName(nameArg).Ok?
    ensures TootGeneric(st, v, nameArg, args, cb) == Err(BareError)
  {
    var h := Handler(RoutinesTs.Routine(0, RoutinesTs.Call, Root, Undefined, Undefined, Undefined), "");
    DisconnectedFails(st, v, ReadName(nameArg).value.0, Undefined, h, None, map[]);
  }

  lemma TootGenericConnected(st: State, v: View, nameArg: Value, args: Value, cb: Value)
    requires Connected(v) && ReadName(nameArg).Ok?
    ensures CreateEvent(st, v, nameArg, args, cb).Ok?
    ensures var name := Str(ReadName(nameArg).value.0);
      && Prop(CreateEvent(st, v, nameArg, args, cb).value, "name") == name
      && TootGeneric(st, v, nameArg, args, cb) ==
           if Blocks(v, name) then Err(Disallowed(name))
           else Ok(Deliver(SegmentedStore.Get(st.store, Some(name)), CreateEvent(st, v, nameArg, args, cb).value))
  {
    var h := Handler(RoutinesTs.Routine(0, RoutinesTs.Call, Root, Undefined, Undefined, Undefined), "");
    CreatedEventIsNamed(st, v, nameArg, args, cb);
    ConnectedForwards(st, v, ReadName(nameArg).value.0, Undefined, h, None, CreateEvent(st, v, nameArg, args, cb).value);
  }

  /** Through a view that reaches the root, a readable name always creates
      an event, and the event carries that name, whether it came as a
      string or as a user event's `name`. */
  lemma CreatedEventIsNamed(st: State, v: View, nameArg: Value, args: Value, cb: Value)
    requires Connected(v) && ReadName(nameArg).Ok?
    ensures CreateEvent(st, v, nameArg, args, cb).Ok?
    ensures Prop(CreateEvent(st, v, nameArg, args, cb).value, "name") == Str(ReadName(nameArg).value.0)
  {
    CreateEventFailsOnlyOnName(st, v, nameArg, args, cb);
    var (name, user) := ReadName(nameArg).value;
    if user.Some? {
      assert Field(nameArg, "name") == Str(name);
      assert "name" in user.value && user.value["name"] == Str(name);
    }
  }

  /** The toot function of a configured event toots that event on the root
      with its arguments and no callback. */
  lemma EventTootTootsItsName(st: State, name: string, args: seq<Value>)
    requires name in EventToots(st) && name != ""
    ensures EventToot(st, name, args).Ok?
    ensures var o := EventToot(st, name, args).value;
      var handlers := SegmentedStore.Get(st.store, Some(Str(name)));
      (o.NothingRun? <==> |handlers| == 0) && (o.Run? ==> o.items == Items(handlers, Undefined) && o.args == Arr(args))
  {
    TootRunsMatchingHandlers(st, Root, name, args, Undefined);
  }
}
