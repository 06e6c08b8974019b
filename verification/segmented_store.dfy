/** The three-segment handler store of the TypeScript generation (`Store`).

    Items hooked with start priority are pushed onto the start segment, items
    with normal priority onto the normal segment, and items with end priority
    are put in front of the end segment. Listing concatenates the segments;
    the matching function given at construction decides which items a needle
    selects. */
module SegmentedStore {
  import opened Wrappers
  import opened Seqs

  datatype Store<!T, !N> = Store(start: seq<T>, items: seq<T>, end: seq<T>, matcher: (T, N) -> bool)

  /** A store with no items. */
  function New<T, N>(matcher: (T, N) -> bool): (r: Store<T, N>)
    ensures All(r) == [] && r.matcher == matcher
  {
    Store([], [], [], matcher)
  }

  /** Every item: start segment, then normal segment, then end segment. */
  function All<T, N>(s: Store<T, N>): seq<T> {
    s.start + s.items + s.end
  }

  /** `prepend`: pushes onto the start segment; nothing else changes. */
  function Prepend<T, N>(s: Store<T, N>, x: T): (r: Store<T, N>)
    ensures r.start == s.start + [x]
    ensures r.items == s.items && r.end == s.end && r.matcher == s.matcher
  {
    s.(start := s.start + [x])
  }

  /** `add`: pushes onto the normal segment; nothing else changes. */
  function Add<T, N>(s: Store<T, N>, x: T): (r: Store<T, N>)
    ensures r.items == s.items + [x]
    ensures r.start == s.start && r.end == s.end && r.matcher == s.matcher
  {
    s.(items := s.items + [x])
  }

  /** `append`: unshifts onto the end segment; nothing else changes. */
  function Append<T, N>(s: Store<T, N>, x: T): (r: Store<T, N>)
    ensures r.end == [x] + s.end
    ensures r.start == s.start && r.items == s.items && r.matcher == s.matcher
  {
    s.(end := [x] + s.end)
  }

  /** The items a needle selects, and the items it leaves. */
  function Selected<T, N>(s: Store<T, N>, n: N): T -> bool {
    x => s.matcher(x, n)
  }

  function Kept<T, N>(s: Store<T, N>, n: N): T -> bool {
    x => !s.matcher(x, n)
  }

  /** `get`: every item when no needle is given, otherwise the items the
      needle matches, in listing order. */
  function Get<T(==,!new), N>(s: Store<T, N>, needle: Option<N>): (r: seq<T>)
    ensures needle.None? ==> r == All(s)
    ensures IsSubsequence(r, All(s))
    ensures forall x :: x in r <==> x in All(s) && (needle.None? || s.matcher(x, needle.value))
  {
    match needle
    case None =>
      assert IsSubsequence(All(s), All(s)) by { SubsequenceOfItself(All(s)); }
      All(s)
    case Some(n) =>
      FilterSubsequence(All(s), Selected(s, n));
      Filter(All(s), Selected(s, n))
  }

  /** `del`: empties the store when no needle is given, otherwise drops the
      matching items from each segment and keeps the others in place; either
      way the needle selects nothing afterwards. */
  function Del<T(==,!new), N>(s: Store<T, N>, needle: Option<N>): (r: Store<T, N>)
    ensures r.matcher == s.matcher
    ensures Get(r, needle) == []
    ensures needle.None? ==> All(r) == []
    ensures needle.Some? ==>
      && (forall x :: x in r.start <==> x in s.start && !s.matcher(x, needle.value))
      && (forall x :: x in r.items <==> x in s.items && !s.matcher(x, needle.value))
      && (forall x :: x in r.end <==> x in s.end && !s.matcher(x, needle.value))
    ensures needle.Some? ==>
      && r.start == Filter(s.start, Kept(s, needle.value))
      && r.items == Filter(s.items, Kept(s, needle.value))
      && r.end == Filter(s.end, Kept(s, needle.value))
    ensures IsSubsequence(r.start, s.start) && IsSubsequence(r.items, s.items) && IsSubsequence(r.end, s.end)
  {
    match needle
    case None => Store([], [], [], s.matcher)
    case Some(n) =>
      var r := Store(Filter(s.start, Kept(s, n)), Filter(s.items, Kept(s, n)), Filter(s.end, Kept(s, n)), s.matcher);
      FilterKeepsNone(All(r), Selected(r, n));
      FilterSubsequence(s.start, Kept(s, n));
      FilterSubsequence(s.items, Kept(s, n));
      FilterSubsequence(s.end, Kept(s, n));
      r
  }

  /** `del(needle)` keeps exactly the items `get(needle)` does not list, in
      their listing order: together the two account for every item once. */
  lemma DelKeepsTheRest<T(!new), N>(s: Store<T, N>, n: N)
    ensures All(Del(s, Some(n))) == Filter(All(s), Kept(s, n))
    ensures multiset(Get(s, Some(n))) + multiset(All(Del(s, Some(n)))) == multiset(All(s))
  {
    FilterAppend(s.start, s.items, Kept(s, n));
    FilterAppend(s.start + s.items, s.end, Kept(s, n));
    FilterPartition(All(s), Selected(s, n), Kept(s, n));
  }

  /** Deleting by a needle that selects one inserted item and nothing of
      the old listing gives back the old listing. */
  lemma DelInserted<T(!new), N>(s0: Store<T, N>, s1: Store<T, N>, x: T, n: N, a: seq<T>, b: seq<T>)
    requires All(s0) == a + b && All(s1) == a + [x] + b
    requires s1.matcher(x, n)
    requires forall y :: y in a + b ==> !s1.matcher(y, n)
    ensures All(Del(s1, Some(n))) == All(s0)
  {
    DelKeepsTheRest(s1, n);
    assert forall y :: y in a ==> y in a + b;
    assert forall y :: y in b ==> y in a + b;
    FilterDropsOne(a, x, b, Kept(s1, n));
  }

  /** One registration call. */
  datatype Op<T> = PrependOp(x: T) | AddOp(x: T) | AppendOp(x: T)

  function Apply<T, N>(s: Store<T, N>, op: Op<T>): Store<T, N> {
    match op
    case PrependOp(x) => Prepend(s, x)
    case AddOp(x) => Add(s, x)
    case AppendOp(x) => Append(s, x)
  }

  /** The calls applied one after the other. */
  function Run<T, N>(s: Store<T, N>, ops: seq<Op<T>>): Store<T, N>
    decreases |ops|
  {
    if |ops| == 0 then s else Run(Apply(s, ops[0]), ops[1..])
  }

  /** The items of the calls of one kind, in call order. */
  ghost function OfKind<T>(ops: seq<Op<T>>, prepend: bool, add: bool): seq<T>
    decreases |ops|
  {
    if |ops| == 0 then []
    else
      var op := ops[0];
      var head := if (op.PrependOp? && prepend) || (op.AddOp? && add) || (op.AppendOp? && !prepend && !add) then [op.x] else [];
      head + OfKind(ops[1..], prepend, add)
  }

  /** A run of calls never changes the matching function. */
  lemma {:induction false} RunKeepsMatcher<T, N>(s: Store<T, N>, ops: seq<Op<T>>)
    ensures Run(s, ops).matcher == s.matcher
    decreases |ops|
  {
    if |ops| > 0 {
      RunKeepsMatcher(Apply(s, ops[0]), ops[1..]);
    }
  }

  /** The start segment grows by the prepended items, in call order. */
  lemma {:induction false} RunStart<T, N>(s: Store<T, N>, ops: seq<Op<T>>)
    ensures Run(s, ops).start == s.start + OfKind(ops, true, false)
    decreases |ops|
  {
    if |ops| > 0 {
      RunStart(Apply(s, ops[0]), ops[1..]);
    }
  }

  /** The normal segment grows by the added items, in call order. */
  lemma {:induction false} RunItems<T, N>(s: Store<T, N>, ops: seq<Op<T>>)
    ensures Run(s, ops).items == s.items + OfKind(ops, false, true)
    decreases |ops|
  {
    if |ops| > 0 {
      RunItems(Apply(s, ops[0]), ops[1..]);
    }
  }

  /** The end segment grows in front by the appended items, most recent first. */
  lemma {:induction false} RunEnd<T, N>(s: Store<T, N>, ops: seq<Op<T>>)
    ensures Run(s, ops).end == Reverse(OfKind(ops, false, false)) + s.end
    decreases |ops|
  {
    if |ops| > 0 {
      var op, tail := ops[0], ops[1..];
      var s1, later := Apply(s, op), OfKind(tail, false, false);
      RunEnd(s1, tail);
      assert Run(s, ops) == Run(s1, tail);
      if op.AppendOp? {
        assert s1.end == [op.x] + s.end;
        assert OfKind(ops, false, false) == [op.x] + later;
        ReverseCons(op.x, later);
        assert Reverse(later) + ([op.x] + s.end) == (Reverse(later) + [op.x]) + s.end;
      } else {
        assert s1.end == s.end;
        assert OfKind(ops, false, false) == later;
      }
    }
  }

  /** The listing order a run of calls produces: start items in call order,
      then normal items in call order, then end items most recent first. */
  lemma RunOrder<T, N>(s: Store<T, N>, ops: seq<Op<T>>)
    ensures Run(s, ops).start == s.start + OfKind(ops, true, false)
    ensures Run(s, ops).items == s.items + OfKind(ops, false, true)
    ensures Run(s, ops).end == Reverse(OfKind(ops, false, false)) + s.end
    ensures Run(s, ops).matcher == s.matcher
  {
    RunStart(s, ops);
    RunItems(s, ops);
    RunEnd(s, ops);
    RunKeepsMatcher(s, ops);
  }

  /** From an empty store, `get()` lists the start items, normal items and end
      items of a run of calls in the order above. */
  lemma GetAfterRun<T(!new), N>(matcher: (T, N) -> bool, ops: seq<Op<T>>)
    ensures Get(Run(New(matcher), ops), None) ==
      OfKind(ops, true, false) + OfKind(ops, false, true) + Reverse(OfKind(ops, false, false))
  {
    RunOrder(New(matcher), ops);
  }
}
