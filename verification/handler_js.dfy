/** The handler factory of the JavaScript generation (`Handler`): a wrapper
    around a user function carrying its store, key and function, which
    unhooks itself by calling the store's `del` with itself. */
module HandlerJs {
  import opened Wrappers
  import opened JsValues

  datatype HandlerError = StoreWithDelRequired | FnRequired

  /** The wrapper function object (`self` is its identity) and its fields. */
  datatype Handler = Handler(self: nat, wrapper: Wrapper, store: Value, key: Value, fn: Value)

  /** `store && typeof store.del === 'function'`. */
  predicate HasDel(store: Value) {
    Truthy(store) && Field(store, "del").Func?
  }

  /** `Handler(store, key, fn)`; `self` is the identity of the new wrapper. */
  function New(self: nat, store: Value, key: Value, fn: Value): (r: Result<Handler, HandlerError>)
    ensures r == Err(StoreWithDelRequired) <==> !HasDel(store)
    ensures r == Err(FnRequired) <==> HasDel(store) && !fn.Func?
    ensures r.Ok? ==>
      && r.value.self == self && r.value.store == store && r.value.key == key && r.value.fn == fn
      && (r.value.wrapper.GeneratorWrapper? <==> fn.generator)
  {
    if !HasDel(store) then Err(StoreWithDelRequired)
    else if !fn.Func? then Err(FnRequired)
    else Ok(Handler(self, WrapperFor(fn), store, key, fn))
  }

  /** The handler as a JavaScript value. */
  function AsValue(h: Handler): (v: Value)
    ensures Refers(v, h.self) && v.Func?
  {
    Func(h.self, h.wrapper.GeneratorWrapper?)
  }

  /** `handler.unhook()`: calls `del` on the handler's store with the handler. */
  function Unhook(h: Handler): (c: MethodCall)
    ensures c.receiver == h.store && c.name == "del" && |c.args| == 1 && Refers(c.args[0], h.self)
  {
    MethodCall(h.store, "del", [AsValue(h)])
  }

  /** Calling the handler calls `fn` with the same `this` and arguments,
      delegating when `fn` is a generator function. */
  function Invoke(h: Handler, thisArg: Value, args: seq<Value>): (a: Apply)
    ensures a == Forward(h.wrapper, h.fn, thisArg, args)
  {
    Forward(h.wrapper, h.fn, thisArg, args)
  }

  /** For every handler the factory accepts, calling it forwards to `fn` and
      delegates exactly when `fn` is a generator function. */
  lemma InvokeForwards(self: nat, store: Value, key: Value, fn: Value, thisArg: Value, args: seq<Value>)
    requires New(self, store, key, fn).Ok?
    ensures var a := Invoke(New(self, store, key, fn).value, thisArg, args);
      a.fn == fn && a.thisArg == thisArg && a.args == args && (a.delegate <==> fn.generator)
  {
  }
}
