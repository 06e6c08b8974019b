/** Routine construction of the TypeScript generation (`createRoutine`).

    A routine is fixed at creation to one of five behaviours, chosen from its
    mode and from whether its function is a generator function:
    a result observer, an "after" routine that delegates or calls, and a
    default routine that delegates or calls. The dispatcher type `H` is left
    open; `ownerOf` reads its `owner` field. */
module RoutinesTs {
  import opened Wrappers
  import opened JsValues

  datatype Mode = Default | After | ResultMode

  datatype Variant = Observer | AfterDelegate | AfterCall | Delegate | Call

  datatype RoutineError =
    | FnRequired     // a non-result routine without a function
    | HooterMissing  // reading `owner` off an undefined dispatcher fails

  /** The routine function object (`self` is its identity) and its fields;
      `fn` is `undefined` for a result observer, and `value` is what a
      result observer last received. */
  datatype Routine<H> = Routine(self: nat, variant: Variant, hooter: H, owner: Value, fn: Value, value: Value)

  /** The behaviour a non-result routine gets. */
  function VariantFor(mode: Mode, generator: bool): (v: Variant)
    requires mode != ResultMode
    ensures v.AfterDelegate? || v.AfterCall? <==> mode == After
    ensures v.AfterDelegate? || v.Delegate? <==> generator
  {
    match mode
    case After => if generator then AfterDelegate else AfterCall
    case Default => if generator then Delegate else Call
  }

  /** `createRoutine(hooter, mode, fn)`. */
  function Create<H>(self: nat, hooter: Option<H>, ownerOf: H -> Value, mode: Mode, fn: Value): (r: Result<Routine<H>, RoutineError>)
    ensures r == Err(FnRequired) <==> mode != ResultMode && !fn.Func?
    ensures r == Err(HooterMissing) <==> (mode == ResultMode || fn.Func?) && hooter.None?
    ensures r.Ok? ==>
      && r.value.self == self && r.value.hooter == hooter.value && r.value.owner == ownerOf(hooter.value)
      && r.value.value == Undefined
      && (r.value.variant.Observer? <==> mode == ResultMode)
      && (mode == ResultMode ==> r.value.fn == Undefined)
      && (mode != ResultMode ==> r.value.fn == fn && r.value.variant == VariantFor(mode, fn.generator))
  {
    if mode == ResultMode then
      match hooter
      case None => Err(HooterMissing)
      case Some(h) => Ok(Routine(self, Observer, h, ownerOf(h), Undefined, Undefined))
    else if !fn.Func? then Err(FnRequired)
    else
      match hooter
      case None => Err(HooterMissing)
      case Some(h) => Ok(Routine(self, VariantFor(mode, fn.generator), h, ownerOf(h), fn, Undefined))
  }

  /** The routine as a JavaScript value: every behaviour but `Call` is a
      generator function. */
  function AsValue<H>(r: Routine<H>): (v: Value)
    ensures v.Func? && v.id == r.self && (v.generator <==> !r.variant.Call?)
  {
    Func(r.self, !r.variant.Call?)
  }

  /** What a routine does first, when called with `thisArg` and `args`. */
  datatype Step =
    | YieldNext(args: seq<Value>)  // yields `{effect: 'next', args}`
    | Calls(call: Apply)           // calls or delegates to `fn`
    | Returns(v: Value)            // returns `v`

  predicate Yields(v: Variant) {
    v.Observer? || v.AfterDelegate? || v.AfterCall?
  }

  function Start<H>(r: Routine<H>, thisArg: Value, args: seq<Value>): (s: Step)
    ensures Yields(r.variant) <==> s == YieldNext(args)
    ensures !Yields(r.variant) ==> s == Calls(Apply(r.fn, thisArg, args, r.variant.Delegate?))
  {
    match r.variant
    case Observer => YieldNext(args)
    case AfterDelegate => YieldNext(args)
    case AfterCall => YieldNext(args)
    case Delegate => Calls(Apply(r.fn, thisArg, args, true))
    case Call => Calls(Apply(r.fn, thisArg, args, false))
  }

  /** What a routine that yielded does when resumed with `received`, and the
      routine afterwards: an observer stores the value and returns it; an
      "after" routine hands it to `fn` as the only argument. */
  function Resume<H>(r: Routine<H>, thisArg: Value, received: Value): (res: (Step, Routine<H>))
    requires Yields(r.variant)
    ensures r.variant.Observer? ==> res.0 == Returns(received) && res.1 == r.(value := received)
    ensures !r.variant.Observer? ==>
      res.0 == Calls(Apply(r.fn, thisArg, [received], r.variant.AfterDelegate?)) && res.1 == r
  {
    match r.variant
    case Observer => (Returns(received), r.(value := received))
    case AfterDelegate => (Calls(Apply(r.fn, thisArg, [received], true)), r)
    case AfterCall => (Calls(Apply(r.fn, thisArg, [received], false)), r)
  }

  /** A result routine yields `next` with its arguments, then returns and
      remembers exactly the value it is resumed with. */
  lemma ResultRoundTrip<H>(self: nat, h: H, ownerOf: H -> Value, fn: Value, thisArg: Value, args: seq<Value>, received: Value)
    ensures var r := Create(self, Some(h), ownerOf, ResultMode, fn).value;
      && Start(r, thisArg, args) == YieldNext(args)
      && Resume(r, thisArg, received).0 == Returns(received)
      && Resume(r, thisArg, received).1.value == received
  {
  }

  /** An "after" routine yields `next` with its arguments first, and only
      then calls its function, with the resumed result as the argument. */
  lemma AfterRoundTrip<H>(self: nat, h: H, ownerOf: H -> Value, fn: Value, thisArg: Value, args: seq<Value>, received: Value)
    requires fn.Func?
    ensures var r := Create(self, Some(h), ownerOf, After, fn).value;
      && Start(r, thisArg, args) == YieldNext(args)
      && Resume(r, thisArg, received).0 == Calls(Apply(fn, thisArg, [received], fn.generator))
  {
  }

  /** A default routine calls its function at once with the same `this` and
      arguments, delegating exactly when the function is a generator. */
  lemma DefaultForwards<H>(self: nat, h: H, ownerOf: H -> Value, fn: Value, thisArg: Value, args: seq<Value>)
    requires fn.Func?
    ensures Start(Create(self, Some(h), ownerOf, Default, fn).value, thisArg, args) ==
      Calls(Forward(WrapperFor(fn), fn, thisArg, args))
  {
  }
}
