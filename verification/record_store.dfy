/** The flat record store of the JavaScript generation (`Store` with `Record`).

    A store holds records in a list; `put` appends a new record, or puts it in
    front in reverse mode. A needle selects a record when it is that very
    record, or when the store's matching function accepts the record's key and
    the needle. A record unhooks itself by deleting itself from its store. */
module RecordStore {
  import opened Wrappers
  import opened Seqs
  import opened JsValues
  import Registry

  /** A record object: its identity, the store it was given, its key and value. */
  datatype Record<K, V> = Record(id: nat, store: Value, key: K, value: V)

  datatype RecordError = StoreRequired

  /** The record as a JavaScript value, as it is passed to `del`. */
  function AsValue<K, V>(r: Record<K, V>): (v: Value)
    ensures Refers(v, r.id)
  {
    Obj(r.id, map[])
  }

  /** `new Record(store, key, value)`; `id` is the identity the new object gets. */
  function NewRecord<K, V>(id: nat, store: Value, key: K, value: V): (r: Result<Record<K, V>, RecordError>)
    ensures r.Err? <==> !Truthy(store)
    ensures r.Ok? ==> r.value.id == id && r.value.store == store && r.value.key == key && r.value.value == value
  {
    if !Truthy(store) then Err(StoreRequired) else Ok(Record(id, store, key, value))
  }

  datatype Store<!K, V> = Store(id: nat, records: seq<Record<K, V>>, matcher: (K, Value) -> bool, reverse: bool)

  datatype StoreError = MatcherRequired

  /** The store as a JavaScript value, as records refer to it. */
  function Self<K, V>(s: Store<K, V>): (v: Value)
    ensures Refers(v, s.id) && Truthy(v)
  {
    Obj(s.id, map[])
  }

  /** `new Store(match, reverse)`: `matcher` is `None` when the argument is not
      a function; `reverse` is read for its truthiness. */
  function NewStore<K, V>(id: nat, matcher: Option<(K, Value) -> bool>, reverse: Value): (r: Result<Store<K, V>, StoreError>)
    ensures r.Err? <==> matcher.None?
    ensures r.Ok? ==> r.value.id == id && r.value.records == [] && r.value.matcher == matcher.value
    ensures r.Ok? ==> r.value.reverse == Truthy(reverse)
  {
    match matcher
    case None => Err(MatcherRequired)
    case Some(m) => Ok(Store(id, [], m, Truthy(reverse)))
  }

  /** `matchRecord`: the needle is the record itself, or its key matches. */
  predicate MatchRecord<K, V>(s: Store<K, V>, r: Record<K, V>, needle: Value) {
    Refers(needle, r.id) || s.matcher(r.key, needle)
  }

  function Selected<K, V>(s: Store<K, V>, needle: Value): Record<K, V> -> bool {
    r => MatchRecord(s, r, needle)
  }

  function Kept<K, V>(s: Store<K, V>, needle: Value): Record<K, V> -> bool {
    r => !MatchRecord(s, r, needle)
  }

  /** `put`: a new record of this store, appended (prepended in reverse mode);
      `newId` is the identity the new record object gets. */
  function Put<K, V>(s: Store<K, V>, key: K, value: V, newId: nat): (r: (Store<K, V>, Record<K, V>))
    ensures r.1 == Record(newId, Self(s), key, value)
    ensures NewRecord(newId, Self(s), key, value) == Ok(r.1)
    ensures r.0 == s.(records := Registry.Insert(s.records, r.1, s.reverse))
  {
    var rec := Record(newId, Self(s), key, value);
    (s.(records := Registry.Insert(s.records, rec, s.reverse)), rec)
  }

  /** `get`: a copy of every record when the needle is `undefined`, otherwise
      the records the needle selects, in store order. */
  function Get<K(==,!new), V(==,!new)>(s: Store<K, V>, needle: Value): (r: seq<Record<K, V>>)
    ensures needle.Undefined? ==> r == s.records
    ensures forall x :: x in r <==> x in s.records && (needle.Undefined? || MatchRecord(s, x, needle))
    ensures !needle.Undefined? ==> r == Filter(s.records, Selected(s, needle))
    ensures IsSubsequence(r, s.records)
  {
    if needle.Undefined? then
      SubsequenceOfItself(s.records);
      s.records
    else
      FilterSubsequence(s.records, Selected(s, needle));
      Filter(s.records, Selected(s, needle))
  }

  /** `del`: drops every record when the needle is `undefined`, otherwise the
      records the needle selects; the others keep their order. */
  function Del<K(==,!new), V(==,!new)>(s: Store<K, V>, needle: Value): (r: Store<K, V>)
    ensures r.id == s.id && r.matcher == s.matcher && r.reverse == s.reverse
    ensures forall x :: x in r.records <==> x in s.records && !needle.Undefined? && !MatchRecord(s, x, needle)
    ensures IsSubsequence(r.records, s.records)
  {
    if needle.Undefined? then
      s.(records := [])
    else
      FilterSubsequence(s.records, Kept(s, needle));
      s.(records := Filter(s.records, Kept(s, needle)))
  }

  /** `record.unhook()`: the record deletes itself from the store it refers to;
      a record of another store leaves this one as it is. */
  function Unhook<K(==,!new), V(==,!new)>(s: Store<K, V>, r: Record<K, V>): (t: Store<K, V>)
    ensures !Refers(r.store, s.id) ==> t == s
    ensures Refers(r.store, s.id) ==> t == Del(s, AsValue(r))
  {
    if Refers(r.store, s.id) then Del(s, AsValue(r)) else s
  }

  /** No two records share an identity. */
  ghost predicate Valid<K, V>(s: Store<K, V>) {
    forall i, j :: 0 <= i < |s.records| && 0 <= j < |s.records| && s.records[i].id == s.records[j].id ==> i == j
  }

  lemma PutKeepsValid<K, V>(s: Store<K, V>, key: K, value: V, newId: nat)
    requires Valid(s)
    requires forall i :: 0 <= i < |s.records| ==> s.records[i].id != newId
    ensures Valid(Put(s, key, value, newId).0)
  {
    var rs := Put(s, key, value, newId).0.records;
    if s.reverse {
      assert forall i :: 1 <= i < |rs| ==> rs[i] == s.records[i - 1];
    } else {
      assert forall i :: 0 <= i < |s.records| ==> rs[i] == s.records[i];
    }
  }

  /** After `del(needle)` the needle selects nothing, and the records
      `get(needle)` listed and the records left account for every record once. */
  lemma DelPartitions<K(!new), V(!new)>(s: Store<K, V>, needle: Value)
    requires !needle.Undefined?
    ensures Get(Del(s, needle), needle) == []
    ensures multiset(Get(s, needle)) + multiset(Del(s, needle).records) == multiset(s.records)
  {
    FilterPartition(s.records, Selected(s, needle), Kept(s, needle));
    var t := Del(s, needle);
    FilterKeepsNone(t.records, Selected(t, needle));
  }

  /** Unhooking a record removes that record and nothing else, not even
      records with the same key and value, provided the matching function does
      not accept keys against the record object itself. */
  lemma UnhookRemovesOnlyItself<K(!new), V(!new)>(s: Store<K, V>, r: Record<K, V>)
    requires Valid(s) && r in s.records && Refers(r.store, s.id)
    requires forall k :: !s.matcher(k, AsValue(r))
    ensures r !in Unhook(s, r).records
    ensures forall x :: x in Unhook(s, r).records <==> x in s.records && x != r
  {
    var t := Unhook(s, r);
    var j :| 0 <= j < |s.records| && s.records[j] == r;
    forall x | x in s.records && x != r ensures x in t.records {
      var i :| 0 <= i < |s.records| && s.records[i] == x;
      assert !MatchRecord(s, x, AsValue(r));
    }
  }

  /** Several `put` calls in a row; the new records get the identities
      `firstId`, `firstId + 1`, ... */
  function PutAll<K, V>(s: Store<K, V>, entries: seq<(K, V)>, firstId: nat): (t: Store<K, V>)
    ensures t.id == s.id && t.reverse == s.reverse && t.matcher == s.matcher
    decreases |entries|
  {
    if |entries| == 0 then s
    else PutAll(Put(s, entries[0].0, entries[0].1, firstId).0, entries[1..], firstId + 1)
  }

  /** The records those calls create, in call order. */
  function Created<K, V>(s: Store<K, V>, entries: seq<(K, V)>, firstId: nat): (rs: seq<Record<K, V>>)
    ensures |rs| == |entries|
    ensures forall i :: 0 <= i < |entries| ==> rs[i] == Record(firstId + i, Self(s), entries[i].0, entries[i].1)
  {
    seq(|entries|, i requires 0 <= i < |entries| => Record(firstId + i, Self(s), entries[i].0, entries[i].1))
  }

  lemma {:induction false} PutAllInserts<K, V>(s: Store<K, V>, entries: seq<(K, V)>, firstId: nat)
    ensures PutAll(s, entries, firstId).records == Registry.InsertAll(s.records, Created(s, entries, firstId), s.reverse)
    decreases |entries|
  {
    if |entries| > 0 {
      var t := Put(s, entries[0].0, entries[0].1, firstId).0;
      PutAllInserts(t, entries[1..], firstId + 1);
      assert Created(t, entries[1..], firstId + 1) == Created(s, entries, firstId)[1..];
    }
  }

  /** `get()` lists records in `put` order, and in reverse mode most recent
      first. */
  lemma PutAllOrder<K(!new), V(!new)>(s: Store<K, V>, entries: seq<(K, V)>, firstId: nat)
    ensures Get(PutAll(s, entries, firstId), Undefined) ==
      if s.reverse then Reverse(Created(s, entries, firstId)) + s.records
      else s.records + Created(s, entries, firstId)
  {
    PutAllInserts(s, entries, firstId);
    Registry.InsertAllOrder(s.records, Created(s, entries, firstId), s.reverse);
  }
}
