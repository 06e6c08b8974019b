/** The `throw` effect handler, identical in both generations: annotate an
    `Error` with the event being executed unless it already carries one, mark
    the execution completed, and rethrow the same value. */
module ThrowEffect {
  import opened JsValues

  /** A thrown value: an `Error` object (its identity and its `event` field)
      or anything else. */
  datatype Thrown = ErrorObject(id: nat, event: Value) | Other(v: Value)

  /** The parts of the engine's execution record the handler touches. */
  datatype Execution = Execution(status: string, context: Value)

  /** `throwHandler(effect, execution)`: the value thrown and the execution after. */
  function ThrowHandler(err: Thrown, ex: Execution): (r: (Thrown, Execution))
    ensures r.1 == ex.(status := "completed")
    ensures err.Other? ==> r.0 == err
    ensures err.ErrorObject? ==> r.0.ErrorObject? && r.0.id == err.id
    ensures err.ErrorObject? && Truthy(err.event) ==> r.0 == err
    ensures err.ErrorObject? && !Truthy(err.event) ==> r.0.event == ex.context
  {
    var thrown := if err.ErrorObject? && !Truthy(err.event) then err.(event := ex.context) else err;
    (thrown, ex.(status := "completed"))
  }

  /** The first annotation sticks: an error rethrown through the handler of
      an enclosing execution keeps the event it was first annotated with, as
      long as that event is truthy (an event object always is). */
  lemma AnnotateOnce(err: Thrown, inner: Execution, outer: Execution)
    requires Truthy(inner.context)
    ensures ThrowHandler(ThrowHandler(err, inner).0, outer).0 == ThrowHandler(err, inner).0
  {
  }
}
