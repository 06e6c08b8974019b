/** What a dispatcher hands to the execution engine when an event is tooted
    (`_tootEvent`, identical in both generations): the matching handlers,
    then the event's callback if it has one, run by the default engine for
    the `auto` mode and by the engine of that name otherwise. The engine
    itself is outside the model; the outcome describes the call. */
module Dispatch {
  import opened Wrappers
  import opened JsValues

  /** An event object, by its own fields. */
  type Event = map<string, Value>

  datatype Invocable<H> = HandlerItem(h: H) | Callback(cb: Value)

  datatype Engine = DefaultEngine | ModeEngine(mode: Value)

  /** `NothingRun` when there is nothing to call; otherwise the engine, the
      functions it composes, the `this` it applies them to and the arguments. */
  datatype Outcome<H> = NothingRun | Run(engine: Engine, items: seq<Invocable<H>>, context: Event, args: Value)

  /** A store needle: `undefined` means "no needle". */
  function NeedleOf(v: Value): (r: Option<Value>)
    ensures r.None? <==> v.Undefined?
    ensures r.Some? ==> r.value == v
  {
    if v.Undefined? then None else Some(v)
  }

  /** The handlers, then the callback when it is truthy. */
  function Items<H>(handlers: seq<H>, cb: Value): (r: seq<Invocable<H>>)
    ensures |r| == |handlers| + (if Truthy(cb) then 1 else 0)
    ensures forall i :: 0 <= i < |handlers| ==> r[i] == HandlerItem(handlers[i])
    ensures Truthy(cb) ==> r[|handlers|] == Callback(cb)
  {
    seq(|handlers|, i requires 0 <= i < |handlers| => HandlerItem(handlers[i]))
      + (if Truthy(cb) then [Callback(cb)] else [])
  }

  /** `_tootEvent` once the handlers for the event's name are known. */
  function Deliver<H>(handlers: seq<H>, e: Event): (r: Outcome<H>)
    ensures r.NothingRun? <==> |handlers| == 0 && !Truthy(Prop(e, "cb"))
    ensures r.Run? ==>
      && r.items == Items(handlers, Prop(e, "cb"))
      && r.context == e && r.args == Prop(e, "args")
      && (r.engine.DefaultEngine? <==> Prop(e, "mode") == Str("auto"))
      && (r.engine.ModeEngine? ==> r.engine.mode == Prop(e, "mode"))
  {
    var items := Items(handlers, Prop(e, "cb"));
    if |items| == 0 then NothingRun
    else if Prop(e, "mode") == Str("auto") then Run(DefaultEngine, items, e, Prop(e, "args"))
    else Run(ModeEngine(Prop(e, "mode")), items, e, Prop(e, "args"))
  }

  /** Delivering an event whose mode, arguments and callback slot hold
      `mode`, `args` and `cb` (an untruthy callback is stored as `undefined`)
      runs the handlers then `cb` with `args`, by the engine `mode` names. */
  lemma DeliverEvent<H>(handlers: seq<H>, e: Event, mode: Value, args: Value, cb: Value)
    requires Prop(e, "mode") == mode && Prop(e, "args") == args
    requires Prop(e, "cb") == (if Truthy(cb) then cb else Undefined)
    ensures var o := Deliver(handlers, e);
      && (o.NothingRun? <==> |handlers| == 0 && !Truthy(cb))
      && (o.Run? ==> o.items == Items(handlers, cb) && o.args == args
                     && (o.engine.DefaultEngine? <==> mode == Str("auto"))
                     && (o.engine.ModeEngine? ==> o.engine.mode == mode))
  {
    if !Truthy(cb) {
      assert Items(handlers, Prop(e, "cb")) == Items(handlers, cb);
    }
  }

  /** The callback always runs, and it runs last, after every handler. */
  lemma CallbackRunsLast<H>(handlers: seq<H>, e: Event)
    requires Truthy(Prop(e, "cb"))
    ensures Deliver(handlers, e).Run?
    ensures var items := Deliver(handlers, e).items;
      items[|items| - 1] == Callback(Prop(e, "cb")) && forall i :: 0 <= i < |items| - 1 ==> items[i].HandlerItem?
  {
  }
}
