/** Routine construction of the JavaScript generation (`Routine`): a wrapper
    around a user function that remembers the dispatcher it belongs to and
    that dispatcher's owner. The dispatcher type `H` is left open. */
module RoutineJs {
  import opened Wrappers
  import opened JsValues

  datatype RoutineError = HooterRequired | FnRequired

  /** The wrapper function object (`self` is its identity) and its fields. */
  datatype Routine<H> = Routine(self: nat, wrapper: Wrapper, hooter: H, owner: Value, fn: Value)

  /** `Routine(hooter, fn)`. `hooter` is `None` for a falsy argument, and
      `ownerOf` reads the `owner` field of a dispatcher. */
  function New<H>(self: nat, hooter: Option<H>, ownerOf: H -> Value, fn: Value): (r: Result<Routine<H>, RoutineError>)
    ensures r.Err? <==> hooter.None? || !fn.Func?
    ensures r == Err(HooterRequired) <==> hooter.None?
    ensures r.Ok? ==>
      && r.value.self == self && r.value.hooter == hooter.value
      && r.value.owner == ownerOf(hooter.value) && r.value.fn == fn
      && (r.value.wrapper.GeneratorWrapper? <==> fn.generator)
  {
    if hooter.None? then Err(HooterRequired)
    else if !fn.Func? then Err(FnRequired)
    else Ok(Routine(self, WrapperFor(fn), hooter.value, ownerOf(hooter.value), fn))
  }

  /** The routine as a JavaScript value. */
  function AsValue<H>(r: Routine<H>): (v: Value)
    ensures v.Func? && v.id == r.self && (v.generator <==> r.wrapper.GeneratorWrapper?)
  {
    Func(r.self, r.wrapper.GeneratorWrapper?)
  }

  /** Calling the routine calls `fn` with the same `this` and arguments. */
  function Invoke<H>(r: Routine<H>, thisArg: Value, args: seq<Value>): (a: Apply)
    ensures a == Forward(r.wrapper, r.fn, thisArg, args)
  {
    Forward(r.wrapper, r.fn, thisArg, args)
  }

  /** A routine built from a function delegates to it exactly when the
      function is a generator function, and passes `this` and the arguments
      through unchanged. */
  lemma InvokeForwards<H>(self: nat, hooter: H, ownerOf: H -> Value, fn: Value, thisArg: Value, args: seq<Value>)
    requires New(self, Some(hooter), ownerOf, fn).Ok?
    ensures var a := Invoke(New(self, Some(hooter), ownerOf, fn).value, thisArg, args);
      a.fn == fn && a.thisArg == thisArg && a.args == args && (a.delegate <==> fn.generator)
  {
  }
}
