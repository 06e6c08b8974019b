/** The effects of the TypeScript generation (`effects.ts`): the effect
    descriptors a routine yields to toot, hook or fork, and the handlers the
    engine calls with them. A handler acts on the dispatcher the running
    routine belongs to, given here as `hooter` (`None` when the routine has
    none). The `throw` handler is in `ThrowEffect`. */
module EffectsTs {
  import opened Wrappers
  import opened JsValues
  import opened Dispatch
  import RoutinesTs
  import opened HooterBaseTs
  import HooterTs

  /** `{effect: 'toot', event, args[, cb]}`. */
  datatype TootEffect = TootEffect(event: Value, args: seq<Value>, cb: Option<Value>)

  /** `toot(event, ...args)`: no callback. */
  function Toot(event: Value, args: seq<Value>): (e: TootEffect)
    ensures e.event == event && e.args == args && e.cb.None?
  {
    TootEffect(event, args, None)
  }

  /** `tootWith(event, cb, ...args)`. */
  function TootWith(event: Value, cb: Value, args: seq<Value>): (e: TootEffect)
    ensures e.event == event && e.args == args && e.cb == Some(cb)
  {
    TootEffect(event, args, Some(cb))
  }

  /** `{effect: 'hook', event, priority, routineMode[, fn]}`. */
  datatype HookEffect = HookEffect(event: string, priority: Priority, routineMode: RoutinesTs.Mode, fn: Option<Value>)

  /** The effect each hook function builds: the same mode and priority as
      the dispatcher method of that name, and no function for `hookResult`. */
  function HookEffectOf(m: HookVariant, event: string, fn: Value): (e: HookEffect)
    ensures e.event == event && (e.routineMode, e.priority) == VariantParams(m)
    ensures e.fn.None? <==> m == HookResult
    ensures e.fn.Some? ==> e.fn.value == fn
  {
    HookEffect(event, VariantParams(m).1, VariantParams(m).0, if m == HookResult then None else Some(fn))
  }

  /** `{effect: 'fork', routine, mode, args}`. */
  datatype ForkEffect = ForkEffect(routine: Value, mode: Value, args: Value)

  datatype HandlerError = HooterUndefined | Failed(cause: HooterTs.Error)

  function Lift<T>(r: Result<T, HooterTs.Error>): (l: Result<T, HandlerError>)
    ensures r.Ok? <==> l.Ok?
    ensures r.Ok? ==> l.value == r.value
    ensures r.Err? ==> l == Err(Failed(r.error))
  {
    match r
    case Ok(v) => Ok(v)
    case Err(e) => Err(Failed(e))
  }

  /** `tootHandler`: toots the effect's event on the routine's dispatcher. */
  function TootHandler(st: HooterTs.State, hooter: Option<HooterTs.View>, e: TootEffect): (r: Result<Outcome<HooterTs.THandler>, HandlerError>)
    ensures hooter.None? <==> r == Err(HooterUndefined)
    ensures hooter.Some? ==> r == Lift(HooterTs.TootGeneric(st, hooter.value, e.event, Arr(e.args), e.cb.GetOr(Undefined)))
  {
    match hooter
    case None => Err(HooterUndefined)
    case Some(v) => Lift(HooterTs.TootGeneric(st, v, e.event, Arr(e.args), e.cb.GetOr(Undefined)))
  }

  /** `hookHandler`: hooks on the routine's dispatcher with the effect's mode
      and priority. */
  function HookHandler(st: HooterTs.State, hooter: Option<HooterTs.View>, e: HookEffect): (r: Result<(HooterTs.State, HooterTs.THandler), HandlerError>)
    ensures hooter.None? <==> r == Err(HooterUndefined)
    ensures hooter.Some? ==> r == Lift(HooterTs.HookGeneric(st, hooter.value, e.routineMode, e.priority, e.event, e.fn.GetOr(Undefined)))
  {
    match hooter
    case None => Err(HooterUndefined)
    case Some(v) => Lift(HooterTs.HookGeneric(st, v, e.routineMode, e.priority, e.event, e.fn.GetOr(Undefined)))
  }

  /** `forkHandler`: wraps the effect's routine in a default routine of the
      running routine's dispatcher and forks that, with the same mode and
      arguments; the engine's own fork handler is outside the model. */
  function ForkHandler(self: nat, hooter: Option<HooterTs.View>, e: ForkEffect): (r: Result<(ForkEffect, RoutinesTs.Routine<HooterTs.View>), RoutinesTs.RoutineError>)
    ensures r.Err? <==> !e.routine.Func? || hooter.None?
    ensures r.Ok? ==>
      var (forked, routine) := r.value;
      && forked == ForkEffect(RoutinesTs.AsValue(routine), e.mode, e.args)
      && routine.fn == e.routine && routine.hooter == hooter.value && routine.owner == HooterTs.OwnerOf(hooter.value)
      && (routine.variant.Delegate? <==> e.routine.generator)
      && (routine.variant.Call? <==> !e.routine.generator)
  {
    var routine :- RoutinesTs.Create(self, hooter, HooterTs.OwnerOf, RoutinesTs.Default, e.routine);
    Ok((ForkEffect(RoutinesTs.AsValue(routine), e.mode, e.args), routine))
  }

  /** A hook effect does, on the routine's dispatcher, what the dispatcher
      method of the same name does. */
  lemma HookEffectIsHookMethod(st: HooterTs.State, v: HooterTs.View, m: HookVariant, event: string, fn: Value)
    ensures HookHandler(st, Some(v), HookEffectOf(m, event, fn)) == Lift(HooterTs.HookWith(st, v, m, event, fn))
  {
    if m == HookResult {
      assert CreateHandler(st.nextId, v, HooterTs.OwnerOf, RoutinesTs.ResultMode, event, fn)
          == CreateHandler(st.nextId, v, HooterTs.OwnerOf, RoutinesTs.ResultMode, event, Undefined);
    }
  }

  /** `toot` is `tootWith` with an undefined callback. */
  lemma TootIsTootWithoutCallback(st: HooterTs.State, hooter: Option<HooterTs.View>, event: Value, args: seq<Value>)
    ensures TootHandler(st, hooter, Toot(event, args)) == TootHandler(st, hooter, TootWith(event, Undefined, args))
  {
  }

  /** A routine hooked through a bound proxy toots events that carry the
      proxy's owner as `tooter`. */
  lemma BoundRoutineTootsCarryOwner(st: HooterTs.State, owner: Value, m: HookVariant, event: string, fn: Value, name: string, args: seq<Value>)
    requires HooterTs.HookWith(st, HooterTs.Bind(HooterTs.Root, owner).value, m, event, fn).Ok?
    requires name != ""
    ensures var h := HooterTs.HookWith(st, HooterTs.Bind(HooterTs.Root, owner).value, m, event, fn).value.1;
      var r := TootHandler(st, Some(h.routine.hooter), Toot(Str(name), args));
      r.Ok? && r.value.Run? ==> "tooter" in r.value.context && r.value.context["tooter"] == owner
  {
    var p := HooterTs.Bind(HooterTs.Root, owner).value;
    var (mode, priority) := VariantParams(m);
    HooterTs.HookLands(st, p, mode, priority, event, fn);
    HooterTs.ProxyEventsCarryOwner(st, p, Str(name), Arr(args), Undefined);
    var e := HooterTs.CreateEvent(st, p, Str(name), Arr(args), Undefined).value;
    var hd := Handler(RoutinesTs.Routine(0, RoutinesTs.Call, HooterTs.Root, Undefined, Undefined, Undefined), "");
    HooterTs.ConnectedForwards(st, p, name, Undefined, hd, None, e);
  }
}
