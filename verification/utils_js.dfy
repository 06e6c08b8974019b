/** The helpers of the JavaScript generation (`utils.js`): building an event
    object with defaults, and the `unhook` method routines share. */
module UtilsJs {
  import opened Wrappers
  import opened JsValues
  import RoutineJs
  import opened Dispatch

  /** `createEvent(tooter, name, mode, args, cb)`. */
  function CreateEvent(tooter: Value, name: Value, mode: Value, args: Value, cb: Value): (e: Event)
    ensures "name" in e && e["name"] == name
    ensures "mode" in e && e["mode"] == (if Truthy(mode) then mode else Str("auto"))
    ensures "args" in e && e["args"] == (if Truthy(args) then args else Arr([]))
    ensures "tooter" in e <==> Truthy(tooter)
    ensures "tooter" in e ==> e["tooter"] == tooter
    ensures "cb" in e <==> Truthy(cb)
    ensures "cb" in e ==> e["cb"] == cb
    ensures forall f :: f in e ==> f in {"name", "mode", "args", "tooter", "cb"}
  {
    var base := map["name" := name, "mode" := (if Truthy(mode) then mode else Str("auto")),
                    "args" := (if Truthy(args) then args else Arr([]))];
    var withTooter := if Truthy(tooter) then base["tooter" := tooter] else base;
    if Truthy(cb) then withTooter["cb" := cb] else withTooter
  }

  datatype UnhookError = HooterUndefined

  /** `unhook` called on a routine: calls `unhook` on the routine's
      dispatcher with the routine, or throws when it has none. */
  function Unhook(r: RoutineJs.Routine<Value>): (c: Result<MethodCall, UnhookError>)
    ensures c.Err? <==> !Truthy(r.hooter)
    ensures c.Ok? ==> c.value == MethodCall(r.hooter, "unhook", [RoutineJs.AsValue(r)])
  {
    if !Truthy(r.hooter) then Err(HooterUndefined)
    else Ok(MethodCall(r.hooter, "unhook", [RoutineJs.AsValue(r)]))
  }

  /** A routine built for a truthy dispatcher can always unhook itself. */
  lemma CreatedRoutineUnhooks(self: nat, hooter: Value, fn: Value)
    requires Truthy(hooter) && fn.Func?
    ensures RoutineJs.New(self, Some(hooter), h => Field(h, "owner"), fn).Ok?
    ensures Unhook(RoutineJs.New(self, Some(hooter), h => Field(h, "owner"), fn).value).Ok?
  {
  }
}
