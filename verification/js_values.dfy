/** The JavaScript values the dispatcher inspects: primitives, functions,
    arrays and objects. Functions and objects carry the identity `===`
    compares; a function also says whether it is a generator function, which
    the source finds out by inspecting its prototype. Arrays are compared by
    contents, which no operation of the model depends on. An object's
    fields are the properties a read finds short of `Object.prototype`: its
    own fields, and for an instance of one of the source's classes (a store,
    say) the methods of its class as well, such as `del`. */
module JsValues {

  datatype Value =
    | Undefined
    | Null
    | Bool(b: bool)
    | Num(n: int)
    | Str(s: string)
    | Func(id: nat, generator: bool)
    | Arr(elems: seq<Value>)
    | Obj(id: nat, fields: map<string, Value>)

  /** JavaScript truthiness. Numbers are integers here, so `NaN` does not occur. */
  predicate Truthy(v: Value) {
    match v
    case Undefined => false
    case Null => false
    case Bool(b) => b
    case Num(n) => n != 0
    case Str(s) => s != ""
    case _ => true
  }

  /** `typeof v === 'object'`, which holds for `null` as well. */
  predicate IsObject(v: Value) {
    v.Null? || v.Arr? || v.Obj?
  }

  /** `v === <the object or function with identity id>`. The model
      draws the identities of functions and objects from one supply, so an
      identity names at most one of them. */
  predicate Refers(v: Value, id: nat) {
    (v.Func? || v.Obj?) && v.id == id
  }

  /** `a === b`: primitives by value, everything else by identity. */
  predicate StrictEquals(a: Value, b: Value) {
    match a
    case Undefined => b.Undefined?
    case Null => b.Null?
    case Bool(x) => b.Bool? && b.b == x
    case Num(x) => b.Num? && b.n == x
    case Str(x) => b.Str? && b.s == x
    case Func(id, _) => b.Func? && b.id == id
    case Arr(xs) => b.Arr? && b.elems == xs
    case Obj(id, _) => b.Obj? && b.id == id
  }

  /** `v[f]` for a name `Object.prototype` does not carry: the object's
      field, `undefined` when there is none. */
  function Field(v: Value, f: string): (r: Value)
    ensures !v.Obj? ==> r == Undefined
    ensures v.Obj? ==> r == Prop(v.fields, f)
  {
    if v.Obj? then Prop(v.fields, f) else Undefined
  }

  /** The field `f` of a plain object given by its fields, `undefined` when absent. */
  function Prop(fields: map<string, Value>, f: string): (r: Value)
    ensures f !in fields ==> r == Undefined
  {
    if f in fields then fields[f] else Undefined
  }

  /** The names every plain object inherits from `Object.prototype`. Read
      off an object without an own field of that name, each finds a built-in
      function, or for `__proto__` the prototype object itself: a truthy
      value that is neither an array nor iterable. */
  const InheritedNames: set<string> := {
    "constructor", "hasOwnProperty", "isPrototypeOf", "propertyIsEnumerable",
    "toLocaleString", "toString", "valueOf", "__proto__",
    "__defineGetter__", "__defineSetter__", "__lookupGetter__", "__lookupSetter__"
  }

  /** `Object.assign(target, source)` on own fields: every field of `source`
      overwrites the field of that name, every other field of `target` stays. */
  function Assign(target: map<string, Value>, source: map<string, Value>): (r: map<string, Value>)
    ensures forall f :: f in r <==> f in target || f in source
    ensures forall f :: f in source ==> r[f] == source[f]
    ensures forall f :: f in target && f !in source ==> r[f] == target[f]
  {
    target + source
  }

  /** `fn.apply(thisArg, args)`, a call handed to code outside the model;
      `delegate` marks delegation with `yield*` from a generator. */
  datatype Apply = Apply(fn: Value, thisArg: Value, args: seq<Value>, delegate: bool)

  /** `receiver[method](...args)`, a method call handed to code outside the model. */
  datatype MethodCall = MethodCall(receiver: Value, name: string, args: seq<Value>)

  /** A wrapper function: plain, or a generator function when what it wraps is one. */
  datatype Wrapper = PlainWrapper | GeneratorWrapper

  /** The wrapper a function gets: a generator wrapper exactly for a
      generator function. */
  function WrapperFor(fn: Value): (w: Wrapper)
    ensures w.GeneratorWrapper? <==> fn.Func? && fn.generator
  {
    if fn.Func? && fn.generator then GeneratorWrapper else PlainWrapper
  }

  /** What calling a wrapper does: call the wrapped function with the same
      `this` and arguments, delegating to it when the wrapper is a generator. */
  function Forward(w: Wrapper, fn: Value, thisArg: Value, args: seq<Value>): (a: Apply)
    ensures a.fn == fn && a.thisArg == thisArg && a.args == args
    ensures a.delegate <==> w.GeneratorWrapper?
  {
    Apply(fn, thisArg, args, w.GeneratorWrapper?)
  }
}
