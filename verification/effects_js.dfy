/** The effects of the JavaScript generation (`effects.js`). Effect
    descriptors are plain objects, given by their own fields; a handler
    destructures them, so an absent field reads as `undefined`. The
    dispatcher the running routine belongs to is `hooter` (`None` when it
    has none). The `throw` handler is in `ThrowEffect`. */
module EffectsJs {
  import opened Wrappers
  import opened JsValues
  import opened Dispatch
  import RoutineJs
  import HooterJs

  /** `toot(event, ...args)`: `{effect: 'toot', event, args}`. */
  function Toot(event: Value, args: seq<Value>): (e: Event)
    ensures e.Keys == {"effect", "event", "args"}
    ensures e["effect"] == Str("toot") && e["event"] == event && e["args"] == Arr(args)
  {
    map["effect" := Str("toot"), "event" := event, "args" := Arr(args)]
  }

  /** `tootWith(event, cb, ...args)`: the same with a `cb` field. */
  function TootWith(event: Value, cb: Value, args: seq<Value>): (e: Event)
    ensures e.Keys == {"effect", "event", "args", "cb"}
    ensures e["effect"] == Str("toot") && e["event"] == event && e["args"] == Arr(args) && e["cb"] == cb
  {
    Toot(event, args)["cb" := cb]
  }

  /** The hook effects: `hook`, `hookStart`, `hookEnd`, `hookAfter`,
      `hookStartAfter` and `hookEndAfter`. The priority travels in `mode`
      and only where it is `start` or `end`; `after` is `true` only for the
      after variants. There is no result variant. */
  function HookEffectOf(m: HooterJs.HookVariant, event: Value, fn: Value): (e: Event)
    requires !HooterJs.Observes(m)
    ensures "effect" in e && "event" in e && "fn" in e
    ensures e["effect"] == Str("hook") && e["event"] == event && e["fn"] == fn
    ensures "mode" in e <==> m in {HooterJs.HookStart, HooterJs.HookEnd, HooterJs.HookStartAfter, HooterJs.HookEndAfter}
    ensures "mode" in e ==> e["mode"] == HooterJs.PriorityOf(m)
    ensures "after" in e <==> m in {HooterJs.HookAfter, HooterJs.HookStartAfter, HooterJs.HookEndAfter}
    ensures "after" in e ==> e["after"] == Bool(true)
    ensures forall f :: f in e ==> f in {"effect", "event", "fn", "mode", "after"}
  {
    var base := map["effect" := Str("hook"), "event" := event, "fn" := fn];
    var withMode :=
      if m in {HooterJs.HookStart, HooterJs.HookStartAfter} then base["mode" := Str("start")]
      else if m in {HooterJs.HookEnd, HooterJs.HookEndAfter} then base["mode" := Str("end")]
      else base;
    if m in {HooterJs.HookAfter, HooterJs.HookStartAfter, HooterJs.HookEndAfter} then withMode["after" := Bool(true)] else withMode
  }

  datatype HandlerError = HooterUndefined | Failed(cause: HooterJs.Error)

  function Lift<T>(r: Result<T, HooterJs.Error>): (l: Result<T, HandlerError>)
    ensures r.Ok? <==> l.Ok?
    ensures r.Ok? ==> l.value == r.value
    ensures r.Err? ==> l == Err(Failed(r.error))
  {
    match r
    case Ok(v) => Ok(v)
    case Err(e) => Err(Failed(e))
  }

  /** `tootHandler`: `_toot(event, args, cb)` on the routine's dispatcher. */
  function TootHandler(st: HooterJs.State, hooter: Option<HooterJs.View>, e: Event): (r: Result<Outcome<HooterJs.Handler>, HandlerError>)
    ensures hooter.None? <==> r == Err(HooterUndefined)
    ensures hooter.Some? ==> r == Lift(HooterJs.Toot(st, hooter.value, Prop(e, "event"), Prop(e, "args"), Prop(e, "cb")))
  {
    match hooter
    case None => Err(HooterUndefined)
    case Some(v) => Lift(HooterJs.Toot(st, v, Prop(e, "event"), Prop(e, "args"), Prop(e, "cb")))
  }

  /** `hookHandler`: `_hook(event, fn, mode, after)` on the routine's
      dispatcher; `after` reaches no code that reads it. */
  function HookHandler(st: HooterJs.State, hooter: Option<HooterJs.View>, e: Event): (r: Result<(HooterJs.State, HooterJs.Handler), HandlerError>)
    ensures hooter.None? <==> r == Err(HooterUndefined)
    ensures hooter.Some? ==> r == Lift(HooterJs.Hook(st, hooter.value, Prop(e, "event"), Prop(e, "fn"), Prop(e, "mode")))
  {
    match hooter
    case None => Err(HooterUndefined)
    case Some(v) => Lift(HooterJs.Hook(st, v, Prop(e, "event"), Prop(e, "fn"), Prop(e, "mode")))
  }

  /** `forkHandler`: wraps the effect's routine for the running routine's
      dispatcher and hands `{routine, args, mode}` on to the engine's fork
      handler. The descriptor it builds has no `effect` field. */
  function ForkHandler(self: nat, hooter: Option<HooterJs.View>, e: Event): (r: Result<(Event, RoutineJs.Routine<HooterJs.View>), RoutineJs.RoutineError>)
    ensures r.Err? <==> hooter.None? || !Prop(e, "routine").Func?
    ensures r.Ok? ==>
      var (forked, routine) := r.value;
      && forked.Keys == {"routine", "args", "mode"}
      && forked["routine"] == RoutineJs.AsValue(routine)
      && forked["args"] == Prop(e, "args") && forked["mode"] == Prop(e, "mode")
      && routine.fn == Prop(e, "routine") && routine.hooter == hooter.value
      && routine.owner == HooterJs.OwnerOf(hooter.value)
  {
    var routine :- RoutineJs.New(self, hooter, HooterJs.OwnerOf, Prop(e, "routine"));
    Ok((map["routine" := RoutineJs.AsValue(routine), "args" := Prop(e, "args"), "mode" := Prop(e, "mode")], routine))
  }

  /** A hook effect does, on the routine's dispatcher, what the dispatcher
      method of the same name does. */
  lemma HookEffectIsHookMethod(st: HooterJs.State, v: HooterJs.View, m: HooterJs.HookVariant, event: Value, fn: Value)
    requires !HooterJs.Observes(m)
    ensures HookHandler(st, Some(v), HookEffectOf(m, event, fn)) == Lift(HooterJs.HookWith(st, v, m, event, fn))
  {
    HooterJs.AfterVariantsAreOrdinary(st, v, m, event, fn);
  }

  /** `toot` is `tootWith` with an undefined callback. */
  lemma TootIsTootWithoutCallback(st: HooterJs.State, hooter: Option<HooterJs.View>, event: Value, args: seq<Value>)
    ensures TootHandler(st, hooter, Toot(event, args)) == TootHandler(st, hooter, TootWith(event, Undefined, args))
  {
  }

  /** A routine hooked through a view bound to a truthy owner toots, by
      name, events that carry that owner as `tooter`. */
  lemma BoundRoutineTootsCarryOwner(st: HooterJs.State, owner: Value, event: Value, fn: Value, name: string, args: seq<Value>)
    requires HooterJs.Valid(st) && Truthy(owner) && name != ""
    requires HooterJs.Hook(st, HooterJs.Bind(HooterJs.Root, owner), event, fn, Undefined).Ok?
    ensures var h := HooterJs.Hook(st, HooterJs.Bind(HooterJs.Root, owner), event, fn, Undefined).value.1;
      var r := TootHandler(st, Some(h.routine.hooter), Toot(Str(name), args));
      r.Ok? && r.value.Run? ==> "tooter" in r.value.context && r.value.context["tooter"] == owner
  {
    var p := HooterJs.Bind(HooterJs.Root, owner);
    HooterJs.HookLands(st, p, event, fn, Undefined);
    HooterJs.BoundEventsCarryOwner(st, HooterJs.Root, owner, name, Arr(args), Undefined);
    var e := HooterJs.CreateEvent(st, p, Str(name), Arr(args), Undefined).value;
    var hd := HooterJs.Handler(RoutineJs.Routine(0, PlainWrapper, HooterJs.Root, Undefined, Undefined), "", Undefined);
    HooterJs.ConnectedForwards(st, p, name, Undefined, Undefined, hd, e);
  }
}
