/** The handler registry of the JavaScript generation (`HandlerStore`).

    Handlers are kept in a list; `put` appends a new handler, or puts it in
    front in reverse mode. A needle selects a handler when it is the handler's
    function, or when the matching function accepts the handler's key and the
    needle. A handler unhooks itself by identity, so other handlers with the
    same key and function stay. */
module HandlerStore {
  import opened Seqs
  import opened JsValues
  import Registry

  /** A handler object: its identity, its store, its key and its function. */
  datatype Handler<K> = Handler(id: nat, store: Value, key: K, fn: Value)

  datatype Store<!K> = Store(id: nat, handlers: seq<Handler<K>>, matcher: (K, Value) -> bool, reverse: bool)

  /** The store as a JavaScript value, as its handlers refer to it. */
  function Self<K>(s: Store<K>): (v: Value)
    ensures Refers(v, s.id)
  {
    Obj(s.id, map[])
  }

  /** `new HandlerStore(match, reverse)`; the matching function is not checked. */
  function New<K>(id: nat, matcher: (K, Value) -> bool, reverse: Value): (s: Store<K>)
    ensures s.id == id && s.handlers == [] && s.matcher == matcher && s.reverse == Truthy(reverse)
  {
    Store(id, [], matcher, Truthy(reverse))
  }

  /** `matchHandler`: the needle is the handler's function, or the key matches. */
  predicate MatchHandler<K>(s: Store<K>, h: Handler<K>, needle: Value) {
    StrictEquals(h.fn, needle) || s.matcher(h.key, needle)
  }

  function Selected<K>(s: Store<K>, needle: Value): Handler<K> -> bool {
    h => MatchHandler(s, h, needle)
  }

  function Kept<K>(s: Store<K>, needle: Value): Handler<K> -> bool {
    h => !MatchHandler(s, h, needle)
  }

  /** `put`: a new handler of this store, appended (prepended in reverse
      mode); `newId` is the identity the new handler object gets. */
  function Put<K>(s: Store<K>, key: K, fn: Value, newId: nat): (r: (Store<K>, Handler<K>))
    ensures r.1 == Handler(newId, Self(s), key, fn)
    ensures r.0 == s.(handlers := Registry.Insert(s.handlers, r.1, s.reverse))
  {
    var h := Handler(newId, Self(s), key, fn);
    (s.(handlers := Registry.Insert(s.handlers, h, s.reverse)), h)
  }

  /** `get`: the handlers the needle selects, in store order. There is no
      special case for `undefined`: the matching function decides. */
  function Get<K(==,!new)>(s: Store<K>, needle: Value): (r: seq<Handler<K>>)
    ensures IsSubsequence(r, s.handlers)
    ensures forall h :: h in r <==> h in s.handlers && MatchHandler(s, h, needle)
  {
    FilterSubsequence(s.handlers, Selected(s, needle));
    Filter(s.handlers, Selected(s, needle))
  }

  /** `del`: drops the handlers the needle selects; the others keep their order. */
  function Del<K(==,!new)>(s: Store<K>, needle: Value): (r: Store<K>)
    ensures r.id == s.id && r.matcher == s.matcher && r.reverse == s.reverse
    ensures IsSubsequence(r.handlers, s.handlers)
    ensures forall h :: h in r.handlers <==> h in s.handlers && !MatchHandler(s, h, needle)
  {
    FilterSubsequence(s.handlers, Kept(s, needle));
    s.(handlers := Filter(s.handlers, Kept(s, needle)))
  }

  function Other<K>(h: Handler<K>): Handler<K> -> bool {
    (x: Handler<K>) => x.id != h.id
  }

  /** `delHandler`: drops exactly the handler object given, by identity. */
  function DelHandler<K(==,!new)>(s: Store<K>, h: Handler<K>): (r: Store<K>)
    ensures r.id == s.id && r.matcher == s.matcher && r.reverse == s.reverse
    ensures IsSubsequence(r.handlers, s.handlers)
    ensures forall x :: x in r.handlers <==> x in s.handlers && x.id != h.id
  {
    FilterSubsequence(s.handlers, Other(h));
    s.(handlers := Filter(s.handlers, Other(h)))
  }

  /** `handler.unhook()`: `delHandler` on the handler's own store; a handler
      of another store leaves this one as it is. */
  function Unhook<K(==,!new)>(s: Store<K>, h: Handler<K>): (r: Store<K>)
    ensures !Refers(h.store, s.id) ==> r == s
    ensures Refers(h.store, s.id) ==> r == DelHandler(s, h)
  {
    if Refers(h.store, s.id) then DelHandler(s, h) else s
  }

  /** No two handlers share an identity. */
  ghost predicate Valid<K>(s: Store<K>) {
    forall i, j :: 0 <= i < |s.handlers| && 0 <= j < |s.handlers| && s.handlers[i].id == s.handlers[j].id ==> i == j
  }

  lemma PutKeepsValid<K>(s: Store<K>, key: K, fn: Value, newId: nat)
    requires Valid(s)
    requires forall i :: 0 <= i < |s.handlers| ==> s.handlers[i].id != newId
    ensures Valid(Put(s, key, fn, newId).0)
  {
    var hs := Put(s, key, fn, newId).0.handlers;
    if s.reverse {
      assert forall i :: 1 <= i < |hs| ==> hs[i] == s.handlers[i - 1];
    } else {
      assert forall i :: 0 <= i < |s.handlers| ==> hs[i] == s.handlers[i];
    }
  }

  /** After `del(needle)` the needle selects nothing, and the handlers
      `get(needle)` listed and the handlers left account for every one once. */
  lemma DelPartitions<K(!new)>(s: Store<K>, needle: Value)
    ensures Get(Del(s, needle), needle) == []
    ensures multiset(Get(s, needle)) + multiset(Del(s, needle).handlers) == multiset(s.handlers)
  {
    FilterPartition(s.handlers, Selected(s, needle), Kept(s, needle));
    var t := Del(s, needle);
    FilterKeepsNone(t.handlers, Selected(t, needle));
  }

  /** Deleting by a function drops every handler of that function, whatever
      its key. */
  lemma DelByFunction<K(!new)>(s: Store<K>, f: nat, g: bool)
    ensures forall h :: h in Del(s, Func(f, g)).handlers ==> !StrictEquals(h.fn, Func(f, g))
    ensures forall h :: h in s.handlers && h.fn.Func? && h.fn.id == f ==> h !in Del(s, Func(f, g)).handlers
  {
  }

  /** Unhooking a handler removes that handler object and nothing else, even
      when other handlers share its key and function; unlike `del`, no
      matching function is consulted. */
  lemma UnhookRemovesOnlyItself<K(!new)>(s: Store<K>, h: Handler<K>)
    requires Valid(s) && h in s.handlers && Refers(h.store, s.id)
    ensures forall x :: x in Unhook(s, h).handlers <==> x in s.handlers && x != h
  {
    forall x | x in s.handlers && x != h ensures x.id != h.id {
      var i :| 0 <= i < |s.handlers| && s.handlers[i] == x;
      var j :| 0 <= j < |s.handlers| && s.handlers[j] == h;
    }
  }
}
