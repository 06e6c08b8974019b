/** The hook registry of the JavaScript generation (`HookStore`): like the
    handler registry, but its hooks hold only a key and a function and cannot
    unhook themselves. */
module HookStore {
  import opened Seqs
  import opened JsValues
  import Registry

  datatype Hook<K> = Hook(key: K, fn: Value)

  datatype Store<!K> = Store(hooks: seq<Hook<K>>, matcher: (K, Value) -> bool, reverse: bool)

  /** `new HookStore(match, reverse)`; the matching function is not checked. */
  function New<K>(matcher: (K, Value) -> bool, reverse: Value): (s: Store<K>)
    ensures s.hooks == [] && s.matcher == matcher && s.reverse == Truthy(reverse)
  {
    Store([], matcher, Truthy(reverse))
  }

  /** `matchHook`: the needle is the hook's function, or the key matches. */
  predicate MatchHook<K>(s: Store<K>, h: Hook<K>, needle: Value) {
    StrictEquals(h.fn, needle) || s.matcher(h.key, needle)
  }

  function Selected<K>(s: Store<K>, needle: Value): Hook<K> -> bool {
    h => MatchHook(s, h, needle)
  }

  function Kept<K>(s: Store<K>, needle: Value): Hook<K> -> bool {
    h => !MatchHook(s, h, needle)
  }

  /** `put`: the new hook, appended (prepended in reverse mode), and returned. */
  function Put<K>(s: Store<K>, key: K, fn: Value): (r: (Store<K>, Hook<K>))
    ensures r.1 == Hook(key, fn)
    ensures r.0 == s.(hooks := Registry.Insert(s.hooks, r.1, s.reverse))
  {
    (s.(hooks := Registry.Insert(s.hooks, Hook(key, fn), s.reverse)), Hook(key, fn))
  }

  /** `get`: the hooks the needle selects, in store order. */
  function Get<K(==,!new)>(s: Store<K>, needle: Value): (r: seq<Hook<K>>)
    ensures IsSubsequence(r, s.hooks)
    ensures forall h :: h in r <==> h in s.hooks && MatchHook(s, h, needle)
  {
    FilterSubsequence(s.hooks, Selected(s, needle));
    Filter(s.hooks, Selected(s, needle))
  }

  /** `del`: drops the hooks the needle selects; the others keep their order. */
  function Del<K(==,!new)>(s: Store<K>, needle: Value): (r: Store<K>)
    ensures r.matcher == s.matcher && r.reverse == s.reverse
    ensures IsSubsequence(r.hooks, s.hooks)
    ensures forall h :: h in r.hooks <==> h in s.hooks && !MatchHook(s, h, needle)
  {
    FilterSubsequence(s.hooks, Kept(s, needle));
    s.(hooks := Filter(s.hooks, Kept(s, needle)))
  }

  /** After `del(needle)` the needle selects nothing, and the hooks
      `get(needle)` listed and the hooks left account for every one once. */
  lemma DelPartitions<K(!new)>(s: Store<K>, needle: Value)
    ensures Get(Del(s, needle), needle) == []
    ensures multiset(Get(s, needle)) + multiset(Del(s, needle).hooks) == multiset(s.hooks)
  {
    FilterPartition(s.hooks, Selected(s, needle), Kept(s, needle));
    var t := Del(s, needle);
    FilterKeepsNone(t.hooks, Selected(t, needle));
  }

  /** Several `put` calls in a row. */
  function PutAll<K>(s: Store<K>, entries: seq<Hook<K>>): (t: Store<K>)
    ensures t.reverse == s.reverse && t.matcher == s.matcher
    decreases |entries|
  {
    if |entries| == 0 then s else PutAll(Put(s, entries[0].key, entries[0].fn).0, entries[1..])
  }

  /** Hooks are listed in `put` order, and in reverse mode most recent first. */
  lemma {:induction false} PutAllOrder<K>(s: Store<K>, entries: seq<Hook<K>>)
    ensures PutAll(s, entries).hooks == if s.reverse then Reverse(entries) + s.hooks else s.hooks + entries
    decreases |entries|
  {
    PutAllInserts(s, entries);
    Registry.InsertAllOrder(s.hooks, entries, s.reverse);
  }

  lemma {:induction false} PutAllInserts<K>(s: Store<K>, entries: seq<Hook<K>>)
    ensures PutAll(s, entries).hooks == Registry.InsertAll(s.hooks, entries, s.reverse)
    decreases |entries|
  {
    if |entries| > 0 {
      PutAllInserts(Put(s, entries[0].key, entries[0].fn).0, entries[1..]);
    }
  }
}
