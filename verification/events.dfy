/** The event vocabulary of the TypeScript generation (`events.ts`): the test
    that tells a user-supplied event object from an event name or from a
    registered event entry. */
module EventsTs {
  import opened JsValues

  /** `isUserEvent(obj)`: a truthy object whose `mode` is absent or falsy. */
  predicate IsUserEvent(obj: Value) {
    Truthy(obj) && IsObject(obj) && !Truthy(Field(obj, "mode"))
  }

  /** `isUserEvent` case by case: never for `null`, `undefined` or any
      primitive or function; always for an array; for a plain object exactly
      when its `mode` is absent or falsy. */
  lemma IsUserEventCases(obj: Value)
    ensures obj.Undefined? || obj.Null? ==> !IsUserEvent(obj)
    ensures obj.Bool? || obj.Num? || obj.Str? || obj.Func? ==> !IsUserEvent(obj)
    ensures obj.Arr? ==> IsUserEvent(obj)
    ensures obj.Obj? ==> (IsUserEvent(obj) <==> "mode" !in obj.fields || !Truthy(obj.fields["mode"]))
  {
  }
}
