/** The dispatcher base class of the TypeScript generation (`HooterBase`):
    handler matching, the table of hook variants, and event construction.
    The wildcard matcher is a parameter; the dispatcher type `H` is left open. */
module HooterBaseTs {
  import opened Wrappers
  import opened JsValues
  import opened RoutinesTs
  import EventsTs
  import opened Dispatch

  /** Where a handler goes in the store. */
  datatype Priority = Start | Normal | End

  /** A handler: a routine with the event name it was hooked to. */
  datatype Handler<H> = Handler(routine: Routine<H>, key: string)

  function HandlerValue<H>(h: Handler<H>): Value {
    AsValue(h.routine)
  }

  /** `matchHandler`: a string needle is matched against the key with the
      wildcard matcher; any other needle matches only the handler itself. */
  predicate MatchHandler<H>(wildcard: (string, string) -> bool, h: Handler<H>, needle: Value) {
    if needle.Str? then wildcard(h.key, needle.s) else Refers(needle, h.routine.self)
  }

  /** `_createHandler`: a routine of the given mode for this dispatcher, keyed
      by the event name. */
  function CreateHandler<H>(self: nat, hooter: H, ownerOf: H -> Value, mode: Mode, event: string, fn: Value): (r: Result<Handler<H>, RoutineError>)
    ensures r.Err? <==> mode != ResultMode && !fn.Func?
    ensures r.Ok? ==> r.value.key == event && Create(self, Some(hooter), ownerOf, mode, fn) == Ok(r.value.routine)
  {
    var routine :- Create(self, Some(hooter), ownerOf, mode, fn);
    Ok(Handler(routine, event))
  }

  /** The public hook methods. */
  datatype HookVariant = Hook | HookStart | HookEnd | HookAfter | HookStartAfter | HookEndAfter | HookResult

  /** The routine mode and priority each hook method passes to `hookGeneric`. */
  function VariantParams(v: HookVariant): (Mode, Priority) {
    match v
    case Hook => (Default, Normal)
    case HookStart => (Default, Start)
    case HookEnd => (Default, End)
    case HookAfter => (After, Normal)
    case HookStartAfter => (After, Start)
    case HookEndAfter => (After, End)
    case HookResult => (ResultMode, Normal)
  }

  /** The table read row by row: `Start` and `End` in the name select the
      priority, `After` the after mode, and only `hookResult` observes. */
  lemma VariantTable(v: HookVariant)
    ensures VariantParams(v).1 == Start <==> v in {HookStart, HookStartAfter}
    ensures VariantParams(v).1 == End <==> v in {HookEnd, HookEndAfter}
    ensures VariantParams(v).0 == After <==> v in {HookAfter, HookStartAfter, HookEndAfter}
    ensures VariantParams(v).0 == ResultMode <==> v == HookResult
  {
  }

  datatype EventError = InvalidName

  /** The first step of `_createEvent`: a user event gives its `name` field
      and its fields to merge; anything else is the name itself. The name
      must be a non-empty string. */
  function ReadName(arg: Value): (r: Result<(string, Option<map<string, Value>>), EventError>)
    ensures r.Ok? ==> r.value.0 != ""
    ensures r.Ok? && EventsTs.IsUserEvent(arg) ==> Field(arg, "name") == Str(r.value.0)
    ensures r.Ok? && !EventsTs.IsUserEvent(arg) ==> arg == Str(r.value.0) && r.value.1.None?
    ensures r.Err? <==>
      var name := if EventsTs.IsUserEvent(arg) then Field(arg, "name") else arg;
      !name.Str? || name.s == ""
  {
    var user := EventsTs.IsUserEvent(arg);
    var name := if user then Field(arg, "name") else arg;
    if !name.Str? || name.s == "" then Err(InvalidName)
    else Ok((name.s, if user && arg.Obj? then Some(arg.fields) else None))
  }

  /** The rest of `_createEvent`: `registered` is what `getEvent(name)`
      returned. The mode is the registered one, else `auto`; `args` defaults
      to an empty array; `cb` is present only when given; a user event's own
      fields are merged last and override all of these. */
  function BuildEvent(name: string, registered: Value, args: Value, cb: Value, user: Option<map<string, Value>>): (e: Event)
    ensures user.None? ==> "name" in e && e["name"] == Str(name)
    ensures user.None? ==> "mode" in e && e["mode"] == (if Truthy(registered) then Field(registered, "mode") else Str("auto"))
    ensures user.None? ==> "args" in e && e["args"] == (if Truthy(args) then args else Arr([]))
    ensures user.None? ==> ("cb" in e <==> Truthy(cb))
    ensures user.Some? ==> forall f :: f in user.value ==> f in e && e[f] == user.value[f]
    ensures forall f :: f in e <==> f in {"name", "mode", "args"} || (f == "cb" && Truthy(cb)) || (user.Some? && f in user.value)
    ensures user.Some? && "name" !in user.value ==> e["name"] == Str(name)
    ensures user.Some? && "mode" !in user.value ==> e["mode"] == (if Truthy(registered) then Field(registered, "mode") else Str("auto"))
  {
    var base := map["name" := Str(name),
                    "mode" := (if Truthy(registered) then Field(registered, "mode") else Str("auto")),
                    "args" := (if Truthy(args) then args else Arr([]))];
    var computed := if Truthy(cb) then base["cb" := cb] else base;
    match user
    case None => computed
    case Some(fields) => Assign(computed, fields)
  }
}
