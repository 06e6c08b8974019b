/** The priority-aware ordering of registered items (`sortItems`).

    Every item carries the wildcard tag `**` and its own tags. Under each tag
    the items fall into three buckets: those that name the tag in `goesBefore`,
    those that name it in `goesAfter` (when not in `goesBefore`), and the rest.
    An item's `goesBefore`/`goesAfter` tags are resolved to the keys of the
    items it must precede or follow, and the resulting declarations are handed
    to the dependency graph, whose visiting order is the result. */
module SortItems {
  import opened Wrappers
  import opened Seqs
  import DagMap

  /** A registered item. An absent `tags`, `goesBefore` or `goesAfter` list
      behaves exactly like an empty one, and an absent or empty `name` like
      no name at all, so both are modelled by the empty value. */
  datatype Item = Item(name: string, tags: seq<string>, goesBefore: seq<string>, goesAfter: seq<string>)

  datatype Priority = Before | Normal | After

  /** The three buckets of one tag, each listing item keys in registration order. */
  datatype TagObject = TagObject(before: seq<nat>, normal: seq<nat>, after: seq<nat>)

  type TagMap = map<string, TagObject>

  const Wildcard: string := "**"

  // ---------------------------------------------------------------------------
  // Item keys
  // ---------------------------------------------------------------------------

  function DigitChar(d: nat): char
    requires d < 10
  {
    "0123456789"[d]
  }

  predicate IsDigit(c: char) {
    '0' <= c <= '9'
  }

  /** `String(n)` for a natural number. */
  function Decimal(n: nat): (s: string)
    ensures |s| > 0
    ensures forall i :: 0 <= i < |s| ==> IsDigit(s[i])
    decreases n
  {
    if n < 10 then [DigitChar(n)] else Decimal(n / 10) + [DigitChar(n % 10)]
  }

  /** Reads a string of decimal digits back as a number. */
  function ParseDecimal(s: string): nat
    requires forall i :: 0 <= i < |s| ==> IsDigit(s[i])
    decreases |s|
  {
    if |s| == 0 then 0
    else
      assert IsDigit(s[|s| - 1]);
      10 * ParseDecimal(s[..|s| - 1]) + (s[|s| - 1] as int - '0' as int)
  }

  lemma {:induction false} DecimalRoundTrip(n: nat)
    ensures ParseDecimal(Decimal(n)) == n
    decreases n
  {
    if n >= 10 {
      DecimalRoundTrip(n / 10);
      var s := Decimal(n);
      assert s[..|s| - 1] == Decimal(n / 10);
    }
  }

  /** What follows the index in an item's key: nothing, or the name in
      parentheses. */
  function KeySuffix(item: Item): (r: string)
    ensures r == [] || r[0] == ' '
  {
    if item.name != "" then " (" + item.name + ")" else ""
  }

  /** The key an item is registered under: its index, followed by its name in
      parentheses when it has one. */
  function MakeItemKey(item: Item, index: nat): (key: string)
    ensures item.name == "" <==> key == Decimal(index)
  {
    Decimal(index) + KeySuffix(item)
  }

  /** The leading run of digits of `s`. */
  function DigitPrefix(s: string): string
    decreases |s|
  {
    if |s| == 0 || !IsDigit(s[0]) then [] else [s[0]] + DigitPrefix(s[1..])
  }

  lemma {:induction false} DigitPrefixOf(d: string, rest: string)
    requires forall i :: 0 <= i < |d| ==> IsDigit(d[i])
    requires rest == [] || !IsDigit(rest[0])
    ensures DigitPrefix(d + rest) == d
    decreases |d|
  {
    if |d| > 0 {
      assert (d + rest)[1..] == d[1..] + rest;
      DigitPrefixOf(d[1..], rest);
    } else {
      assert d + rest == rest;
    }
  }

  /** Distinct indices give distinct keys, whatever the names: the graph can
      be keyed by index without changing which keys coincide. */
  lemma ItemKeysDistinct(a: Item, i: nat, b: Item, j: nat)
    requires MakeItemKey(a, i) == MakeItemKey(b, j)
    ensures i == j
  {
    DigitPrefixOf(Decimal(i), KeySuffix(a));
    DigitPrefixOf(Decimal(j), KeySuffix(b));
    DecimalRoundTrip(i);
    DecimalRoundTrip(j);
  }

  // ---------------------------------------------------------------------------
  // Tag buckets
  // ---------------------------------------------------------------------------

  /** The wildcard tag followed by the item's own tags, repetitions included. */
  function AllTags(item: Item): (r: seq<string>)
    ensures Wildcard in r
    ensures forall t :: t in r <==> t == Wildcard || t in item.tags
  {
    [Wildcard] + item.tags
  }

  /** The bucket `item` joins under `tag`: `goesBefore` wins over `goesAfter`. */
  function BucketOf(item: Item, tag: string): Priority {
    if tag in item.goesBefore then Before
    else if tag in item.goesAfter then After
    else Normal
  }

  function Bucket(t: TagObject, p: Priority): seq<nat> {
    match p
    case Before => t.before
    case Normal => t.normal
    case After => t.after
  }

  /** Appends `key` to bucket `p`, leaving the other two alone. */
  function Push(t: TagObject, p: Priority, key: nat): (r: TagObject)
    ensures forall q :: Bucket(r, q) == Bucket(t, q) + (if q == p then [key] else [])
  {
    match p
    case Before => t.(before := t.before + [key])
    case Normal => t.(normal := t.normal + [key])
    case After => t.(after := t.after + [key])
  }

  /** The buckets of `tag`; a tag nobody carries has three empty ones, which
      the resolution treats exactly like a missing tag object. */
  function TagObjectOf(m: TagMap, tag: string): TagObject {
    if tag in m then m[tag] else TagObject([], [], [])
  }

  /** Registers `key` under each of `tags`, in order. */
  function PlaceTags(m: TagMap, item: Item, key: nat, tags: seq<string>): TagMap
    decreases |tags|
  {
    if |tags| == 0 then m
    else
      var t := tags[0];
      PlaceTags(m[t := Push(TagObjectOf(m, t), BucketOf(item, t), key)], item, key, tags[1..])
  }

  /** The buckets of every tag, built item by item (`mapTagsToItemKeys`). */
  function MapTagsToItemKeys(items: seq<Item>): TagMap
    decreases |items|
  {
    if |items| == 0 then map[]
    else
      var n := |items| - 1;
      PlaceTags(MapTagsToItemKeys(items[..n]), items[n], n, AllTags(items[n]))
  }

  /** The reference bucket of one tag, read off the items directly: each item
      whose bucket under `tag` is `p` contributes its index once per
      occurrence of `tag` among its tags, in item order. */
  ghost function ExpectedBucket(items: seq<Item>, tag: string, p: Priority): seq<nat>
    decreases |items|
  {
    if |items| == 0 then []
    else
      var n := |items| - 1;
      ExpectedBucket(items[..n], tag, p)
        + (if BucketOf(items[n], tag) == p then Repeat(n, Count(AllTags(items[n]), tag)) else [])
  }

  lemma {:induction false} PlaceTagsBuckets(m: TagMap, item: Item, key: nat, tags: seq<string>, tag: string, p: Priority)
    ensures Bucket(TagObjectOf(PlaceTags(m, item, key, tags), tag), p)
         == Bucket(TagObjectOf(m, tag), p) + (if BucketOf(item, tag) == p then Repeat(key, Count(tags, tag)) else [])
    decreases |tags|
  {
    if |tags| > 0 {
      var t := tags[0];
      var m' := m[t := Push(TagObjectOf(m, t), BucketOf(item, t), key)];
      PlaceTagsBuckets(m', item, key, tags[1..], tag, p);
      if BucketOf(item, tag) == p {
        var c := Count(tags[1..], tag);
        if t == tag {
          assert [key] + Repeat(key, c) == Repeat(key, c + 1);
        }
      }
    }
  }

  /** The last item's step of the fold appends its index to the bucket it
      puts `tag` in, once per occurrence of `tag` among its tags. */
  lemma MapTagsToItemKeysStep(items: seq<Item>, tag: string, p: Priority)
    requires |items| > 0
    ensures var n := |items| - 1;
      Bucket(TagObjectOf(MapTagsToItemKeys(items), tag), p)
        == Bucket(TagObjectOf(MapTagsToItemKeys(items[..n]), tag), p)
          + (if BucketOf(items[n], tag) == p then Repeat(n, Count(AllTags(items[n]), tag)) else [])
  {
    var n := |items| - 1;
    PlaceTagsBuckets(MapTagsToItemKeys(items[..n]), items[n], n, AllTags(items[n]), tag, p);
  }

  /** The fold over the items builds exactly the reference buckets. */
  lemma {:induction false} MapTagsToItemKeysBuckets(items: seq<Item>, tag: string, p: Priority)
    ensures Bucket(TagObjectOf(MapTagsToItemKeys(items), tag), p) == ExpectedBucket(items, tag, p)
    decreases |items|
  {
    if |items| > 0 {
      MapTagsToItemKeysBuckets(items[..|items| - 1], tag, p);
      MapTagsToItemKeysStep(items, tag, p);
    }
  }

  ghost predicate Ascending(s: seq<nat>) {
    forall i, j :: 0 <= i < j < |s| ==> s[i] <= s[j]
  }

  /** The reference bucket holds the indices of exactly the items that carry
      the tag in that bucket, below the number of items, in ascending order. */
  lemma {:induction false} ExpectedBucketSpec(items: seq<Item>, tag: string, p: Priority)
    ensures forall x: nat :: x in ExpectedBucket(items, tag, p) <==>
      x < |items| && tag in AllTags(items[x]) && BucketOf(items[x], tag) == p
    ensures Ascending(ExpectedBucket(items, tag, p))
    decreases |items|
  {
    if |items| > 0 {
      var n := |items| - 1;
      ExpectedBucketSpec(items[..n], tag, p);
      CountPositive(AllTags(items[n]), tag);
      var prev := ExpectedBucket(items[..n], tag, p);
      assert forall x :: x in prev ==> x < n;
      var r := ExpectedBucket(items, tag, p);
      forall a, b | 0 <= a < b < |r| ensures r[a] <= r[b] {
        if b >= |prev| {
          assert r[b] == n;
          if a < |prev| {
            assert r[a] == prev[a] && prev[a] in prev;
          }
        } else {
          assert r[a] == prev[a] && r[b] == prev[b];
        }
      }
      forall x: nat ensures x in ExpectedBucket(items, tag, p) <==>
        x < |items| && tag in AllTags(items[x]) && BucketOf(items[x], tag) == p
      {
        var extra := if BucketOf(items[n], tag) == p then Repeat(n, Count(AllTags(items[n]), tag)) else [];
        assert r == prev + extra;
        assert x in extra <==> x == n && BucketOf(items[n], tag) == p && tag in AllTags(items[n]) by {
          if x in extra {
            var k :| 0 <= k < |extra| && extra[k] == x;
          }
          if x == n && BucketOf(items[n], tag) == p && tag in AllTags(items[n]) {
            assert extra[0] == n;
          }
        }
        if x < n {
          assert items[..n][x] == items[x];
        }
      }
    }
  }

  /** Every item's index lies in one bucket of every tag it carries. */
  lemma BucketMembers(items: seq<Item>, tag: string, p: Priority, x: nat)
    ensures x in Bucket(TagObjectOf(MapTagsToItemKeys(items), tag), p) <==>
      x < |items| && tag in AllTags(items[x]) && BucketOf(items[x], tag) == p
    ensures Ascending(Bucket(TagObjectOf(MapTagsToItemKeys(items), tag), p))
  {
    MapTagsToItemKeysBuckets(items, tag, p);
    ExpectedBucketSpec(items, tag, p);
  }

  // ---------------------------------------------------------------------------
  // Dependency resolution
  // ---------------------------------------------------------------------------

  /** The bucket without the resolving item's own key. */
  function Without(s: seq<nat>, key: nat): (r: seq<nat>)
    ensures forall x :: x in r <==> x in s && x != key
  {
    Filter(s, x => x != key)
  }

  /** Reads the `after` bucket from its end, skipping the resolving item's own
      key, or stopping at it when `stopAtKey` holds. */
  function ScanAfter(after: seq<nat>, key: nat, stopAtKey: bool): (r: seq<nat>)
    ensures key !in r
    ensures forall x :: x in r ==> x in after
    ensures !stopAtKey ==> forall x :: x in r <==> x in after && x != key
    decreases |after|
  {
    if |after| == 0 then []
    else
      var x := after[|after| - 1];
      if x != key then [x] + ScanAfter(after[..|after| - 1], key, stopAtKey)
      else if stopAtKey then []
      else ScanAfter(after[..|after| - 1], key, stopAtKey)
  }

  /** Without stopping, the scan is the bucket minus the key, reversed. */
  lemma {:induction false} ScanAfterReverses(after: seq<nat>, key: nat)
    ensures ScanAfter(after, key, false) == Reverse(Without(after, key))
    decreases |after|
  {
    if |after| > 0 {
      var init, x := after[..|after| - 1], after[|after| - 1];
      assert after == init + [x];
      ScanAfterReverses(init, key);
      WithoutSnoc(init, x, key);
      if x != key {
        ReverseSnoc(Without(init, key), x);
      }
    }
  }

  /** Dropping `key` from a sequence extended by one element. */
  lemma WithoutSnoc(s: seq<nat>, x: nat, key: nat)
    ensures Without(s + [x], key) == Without(s, key) + (if x != key then [x] else [])
  {
    FilterAppend(s, [x], y => y != key);
    assert [x][1..] == [];
  }

  /** When stopping, the scan still reaches every later key of an ascending
      bucket. */
  lemma {:induction false} ScanAfterReachesLater(after: seq<nat>, key: nat, x: nat)
    requires Ascending(after) && x in after && key < x
    ensures x in ScanAfter(after, key, true)
    decreases |after|
  {
    var init, last := after[..|after| - 1], after[|after| - 1];
    assert after == init + [last];
    assert x <= last by {
      var i :| 0 <= i < |after| && after[i] == x;
    }
    if x != last {
      ScanAfterReachesLater(init, key, x);
    }
  }

  /** Whether `dep` is the wildcard or one of the resolving item's own tags. */
  predicate Skip(dep: string, tags: seq<string>) {
    dep == Wildcard || dep in tags
  }

  /** The keys one dependency tag resolves to. */
  function ResolveDep(m: TagMap, key: nat, tags: seq<string>, dep: string, p: Priority): (r: seq<nat>)
    ensures key !in r
    ensures forall x :: x in r <==>
      || (Skip(dep, tags) && p != Before && x in TagObjectOf(m, dep).before && x != key)
      || (x in TagObjectOf(m, dep).normal && x != key)
      || x in ScanAfter(TagObjectOf(m, dep).after, key, Skip(dep, tags) && p == After)
  {
    var t := TagObjectOf(m, dep);
    var skip := Skip(dep, tags);
    (if skip && p != Before then Without(t.before, key) else [])
      + Without(t.normal, key)
      + ScanAfter(t.after, key, skip && p == After)
  }

  /** `resolveDeps`: the keys of the items the dependency tags `deps` name. */
  function ResolveDeps(m: TagMap, key: nat, tags: seq<string>, deps: seq<string>, p: Priority): (r: seq<nat>)
    ensures key !in r
    ensures forall x :: x in r <==> exists i :: 0 <= i < |deps| && x in ResolveDep(m, key, tags, deps[i], p)
    decreases |deps|
  {
    if |deps| == 0 then []
    else
      var r := ResolveDep(m, key, tags, deps[0], p) + ResolveDeps(m, key, tags, deps[1..], p);
      assert forall x :: x in r <==> exists i :: 0 <= i < |deps| && x in ResolveDep(m, key, tags, deps[i], p) by {
        forall x | x in r ensures exists i :: 0 <= i < |deps| && x in ResolveDep(m, key, tags, deps[i], p) {
          if x !in ResolveDep(m, key, tags, deps[0], p) {
            var i :| 0 <= i < |deps| - 1 && x in ResolveDep(m, key, tags, deps[1..][i], p);
            assert deps[1..][i] == deps[i + 1];
          }
        }
        forall x | exists i :: 0 <= i < |deps| && x in ResolveDep(m, key, tags, deps[i], p) ensures x in r {
          var i :| 0 <= i < |deps| && x in ResolveDep(m, key, tags, deps[i], p);
          if i > 0 {
            assert deps[1..][i - 1] == deps[i];
          }
        }
      }
      r
  }

  lemma {:induction false} NoCarrierEmptyBucket(items: seq<Item>, tag: string, p: Priority)
    requires forall i :: 0 <= i < |items| ==> tag !in AllTags(items[i])
    ensures ExpectedBucket(items, tag, p) == []
    ensures Bucket(TagObjectOf(MapTagsToItemKeys(items), tag), p) == []
    decreases |items|
  {
    MapTagsToItemKeysBuckets(items, tag, p);
    if |items| > 0 {
      var n := |items| - 1;
      NoCarrierEmptyBucket(items[..n], tag, p);
      CountPositive(AllTags(items[n]), tag);
    }
  }

  /** A dependency tag no item carries resolves to nothing. */
  lemma UnknownTagResolvesToNothing(items: seq<Item>, key: nat, tags: seq<string>, dep: string, p: Priority)
    requires forall i :: 0 <= i < |items| ==> dep !in AllTags(items[i])
    ensures ResolveDep(MapTagsToItemKeys(items), key, tags, dep, p) == []
  {
    var t := TagObjectOf(MapTagsToItemKeys(items), dep);
    forall q ensures Bucket(t, q) == [] {
      NoCarrierEmptyBucket(items, dep, q);
    }
    assert Bucket(t, Before) == [] && Bucket(t, Normal) == [] && Bucket(t, After) == [];
  }

  /** A `goesBefore` resolution never targets an item that itself names the
      tag in `goesBefore`, so such items keep their relative order. */
  lemma BeforeResolutionSkipsBeforeBucket(items: seq<Item>, key: nat, tags: seq<string>, dep: string, x: nat)
    requires x in ResolveDep(MapTagsToItemKeys(items), key, tags, dep, Before)
    ensures x < |items| && BucketOf(items[x], dep) != Before
  {
    var t := TagObjectOf(MapTagsToItemKeys(items), dep);
    if x in t.normal {
      BucketMembers(items, dep, Normal, x);
    } else {
      BucketMembers(items, dep, After, x);
    }
  }

  /** A `goesAfter` resolution targets the `before` bucket only for the
      wildcard or one of the resolving item's own tags. */
  lemma AfterResolutionTargetsBeforeOnlyWhenSkipping(items: seq<Item>, key: nat, tags: seq<string>, dep: string, x: nat)
    requires x in ResolveDep(MapTagsToItemKeys(items), key, tags, dep, After)
    requires x < |items| && BucketOf(items[x], dep) == Before
    ensures Skip(dep, tags)
  {
    var t := TagObjectOf(MapTagsToItemKeys(items), dep);
    BucketMembers(items, dep, Normal, x);
    BucketMembers(items, dep, After, x);
    assert x !in t.normal && x !in t.after;
    assert x !in ScanAfter(t.after, key, Skip(dep, tags));
  }

  /** The `add` call of item `i`: its index, the item, and its resolved
      `goesBefore` and `goesAfter` keys. */
  function EntryOf(items: seq<Item>, m: TagMap, i: nat): DagMap.Entry<nat, Item>
    requires i < |items|
  {
    var item := items[i];
    DagMap.Entry(i, item,
      ResolveDeps(m, i, item.tags, item.goesBefore, Before),
      ResolveDeps(m, i, item.tags, item.goesAfter, After))
  }

  /** `createDagMapForItems`: one `add` per item, in order. */
  function Entries(items: seq<Item>): (r: seq<DagMap.Entry<nat, Item>>)
    ensures |r| == |items|
    ensures forall i :: 0 <= i < |items| ==> r[i] == EntryOf(items, MapTagsToItemKeys(items), i)
  {
    var m := MapTagsToItemKeys(items);
    seq(|items|, i requires 0 <= i < |items| => EntryOf(items, m, i))
  }

  /** `sortItems`: the items in the graph's visiting order, or the cycle that
      makes the graph throw. */
  function SortItems(items: seq<Item>): (r: Result<seq<Item>, seq<nat>>)
    ensures r.Err? <==> DagMap.HasKeyCycle(DagMap.Edges(Entries(items)))
  {
    DagMap.Each(Entries(items))
  }

  // ---------------------------------------------------------------------------
  // Properties
  // ---------------------------------------------------------------------------

  /** The visiting order of the item indices. */
  function ItemOrder(items: seq<Item>): Result<seq<nat>, seq<nat>> {
    DagMap.KeyOrder(Entries(items))
  }

  /** Every resolved key is the index of an item. */
  lemma ResolvedKeysInRange(items: seq<Item>, deps: seq<string>, key: nat, tags: seq<string>, p: Priority, x: nat)
    requires x in ResolveDeps(MapTagsToItemKeys(items), key, tags, deps, p)
    ensures x < |items|
  {
    var m := MapTagsToItemKeys(items);
    var i :| 0 <= i < |deps| && x in ResolveDep(m, key, tags, deps[i], p);
    var t := TagObjectOf(m, deps[i]);
    if x in t.before {
      BucketMembers(items, deps[i], Before, x);
    } else if x in t.normal {
      BucketMembers(items, deps[i], Normal, x);
    } else {
      BucketMembers(items, deps[i], After, x);
    }
  }

  /** The keys the `add` calls mention are exactly the item indices. */
  lemma MentionedAreIndices(items: seq<Item>, x: nat)
    ensures x in DagMap.Mentioned(Entries(items)) <==> x < |items|
  {
    var es := Entries(items);
    if x in DagMap.Mentioned(es) {
      var i :| 0 <= i < |es| && DagMap.Mentions(es[i], x);
      if x in es[i].before {
        ResolvedKeysInRange(items, items[i].goesBefore, i, items[i].tags, Before, x);
      } else if x in es[i].after {
        ResolvedKeysInRange(items, items[i].goesAfter, i, items[i].tags, After, x);
      }
    } else if x < |items| {
      assert DagMap.Mentions(es[x], x);
    }
  }

  /** Each index is the key of exactly one `add` call, which stores its item. */
  lemma ValueOfIndex(items: seq<Item>, k: nat)
    requires k < |items|
    ensures DagMap.ValueOf(Entries(items), k) == Some(items[k])
  {
    var es := Entries(items);
    assert es[k].key == k;
  }

  /** The visiting order lists every item index exactly once. */
  lemma ItemOrderPermutes(items: seq<Item>)
    requires ItemOrder(items).Ok?
    ensures var order := ItemOrder(items).value;
      && Distinct(order) && |order| == |items|
      && (forall i :: 0 <= i < |items| ==> i in order)
      && (forall k :: 0 <= k < |order| ==> order[k] < |items|)
  {
    var order := ItemOrder(items).value;
    assert forall x :: x in order <==> x in DagMap.Mentioned(Entries(items));
    assert forall x: nat :: x in order <==> x < |items| by {
      forall x: nat ensures x in order <==> x < |items| {
        MentionedAreIndices(items, x);
      }
    }
    IndexPermutation(order, |items|);
  }

  lemma IndexPermutation(order: seq<nat>, n: nat)
    requires Distinct(order)
    requires forall x: nat :: x in order <==> x < n
    ensures |order| == n
    ensures forall i :: 0 <= i < n ==> i in order
    ensures forall k :: 0 <= k < |order| ==> order[k] < n
  {
    DistinctCoverLength(order, n);
    forall k | 0 <= k < |order| ensures order[k] < n {
      assert order[k] in order;
    }
  }

  /** On success the result is a permutation of the items: the items in the
      visiting order, which lists every index exactly once. */
  lemma SortItemsPermutes(items: seq<Item>)
    requires SortItems(items).Ok?
    ensures ItemOrder(items).Ok?
    ensures var order := ItemOrder(items).value;
      && Distinct(order) && |order| == |items|
      && (forall i :: 0 <= i < |items| ==> i in order)
      && (forall k :: 0 <= k < |order| ==> order[k] < |items|)
      && |SortItems(items).value| == |order|
      && (forall k :: 0 <= k < |order| ==> SortItems(items).value[k] == items[order[k]])
  {
    var es := Entries(items);
    assert DagMap.Each(es).Ok?;
    ItemOrderPermutes(items);
    var order := ItemOrder(items).value;
    forall k | k in order ensures DagMap.ValueOf(es, k).Some? {
      ValueOfIndex(items, k);
    }
    DagMap.ValuesAllAdded(es, order);
    var vals := DagMap.Values(es, order);
    assert SortItems(items).value == vals;
    forall k | 0 <= k < |order| ensures vals[k] == items[order[k]] {
      ValueOfIndex(items, order[k]);
    }
  }

  /** Item `i` runs before item `j` in the visiting order. */
  ghost predicate RunsBefore(items: seq<Item>, i: nat, j: nat) {
    && ItemOrder(items).Ok?
    && i in ItemOrder(items).value && j in ItemOrder(items).value
    && IndexOf(ItemOrder(items).value, i) < IndexOf(ItemOrder(items).value, j)
  }

  /** A declared edge between two items is honoured by the visiting order. */
  lemma EdgeHonoured(items: seq<Item>, i: nat, j: nat)
    requires ItemOrder(items).Ok? && i < |items| && j < |items|
    requires DagMap.Edge(i, j) in DagMap.Edges(Entries(items))
    ensures RunsBefore(items, i, j)
  {
    DagMap.KeyOrderHonoursEdge(Entries(items), DagMap.Edge(i, j));
  }

  /** `goesBefore: [tag]` resolves to every other item carrying `tag` outside
      its `before` bucket. */
  lemma ResolvesBefore(items: seq<Item>, i: nat, j: nat, tag: string)
    requires i < |items| && j < |items| && i != j
    requires tag in items[i].goesBefore
    requires tag in AllTags(items[j]) && BucketOf(items[j], tag) != Before
    ensures j in Entries(items)[i].before
  {
    var m := MapTagsToItemKeys(items);
    var k := IndexOf(items[i].goesBefore, tag);
    BucketMembers(items, tag, BucketOf(items[j], tag), j);
    assert j in ResolveDep(m, i, items[i].tags, items[i].goesBefore[k], Before);
  }

  /** `goesAfter: [tag]` resolves to the items `GoesAfterTag` describes. */
  lemma ResolvesAfter(items: seq<Item>, i: nat, j: nat, tag: string)
    requires i < |items| && j < |items| && i != j
    requires tag in items[i].goesAfter
    requires tag in AllTags(items[j])
    requires || BucketOf(items[j], tag) == Normal
             || (BucketOf(items[j], tag) == Before && Skip(tag, items[i].tags))
             || (BucketOf(items[j], tag) == After && (i < j || !Skip(tag, items[i].tags)))
    ensures j in Entries(items)[i].after
  {
    var m := MapTagsToItemKeys(items);
    var k := IndexOf(items[i].goesAfter, tag);
    var t := TagObjectOf(m, tag);
    BucketMembers(items, tag, BucketOf(items[j], tag), j);
    if BucketOf(items[j], tag) == After && Skip(tag, items[i].tags) {
      ScanAfterReachesLater(t.after, i, j);
    }
    assert j in ResolveDep(m, i, items[i].tags, items[i].goesAfter[k], After);
  }

  /** An item naming tag `tag` in `goesBefore` runs before every other item
      that carries the tag without also naming it in `goesBefore`. */
  lemma GoesBeforeTag(items: seq<Item>, i: nat, j: nat, tag: string)
    requires ItemOrder(items).Ok? && i < |items| && j < |items| && i != j
    requires tag in items[i].goesBefore
    requires tag in AllTags(items[j]) && BucketOf(items[j], tag) != Before
    ensures RunsBefore(items, i, j)
  {
    var es := Entries(items);
    ResolvesBefore(items, i, j, tag);
    DagMap.DeclaredEdge(es, i, DagMap.Edge(i, j));
    EdgeHonoured(items, i, j);
  }

  /** An item naming tag `tag` in `goesAfter` runs after every other item that
      carries the tag normally; after the items that name it in `goesBefore`
      when `tag` is the wildcard or one of its own tags; and after the items
      that also name it in `goesAfter` when `tag` is neither, or when they
      were registered later. */
  lemma GoesAfterTag(items: seq<Item>, i: nat, j: nat, tag: string)
    requires ItemOrder(items).Ok? && i < |items| && j < |items| && i != j
    requires tag in items[i].goesAfter
    requires tag in AllTags(items[j])
    requires || BucketOf(items[j], tag) == Normal
             || (BucketOf(items[j], tag) == Before && Skip(tag, items[i].tags))
             || (BucketOf(items[j], tag) == After && (i < j || !Skip(tag, items[i].tags)))
    ensures RunsBefore(items, j, i)
  {
    var es := Entries(items);
    ResolvesAfter(items, i, j, tag);
    DagMap.DeclaredEdge(es, i, DagMap.Edge(j, i));
    EdgeHonoured(items, j, i);
  }

  /** Items that name a tag they carry in `goesAfter` run in reverse
      registration order among themselves. */
  lemma LaterAfterItemsRunFirst(items: seq<Item>, i: nat, j: nat, tag: string)
    requires ItemOrder(items).Ok? && i < j < |items|
    requires tag in items[i].goesAfter && tag in AllTags(items[j]) && BucketOf(items[j], tag) == After
    ensures RunsBefore(items, j, i)
  {
    GoesAfterTag(items, i, j, tag);
  }

  /** Two items that must each precede the other make the sort throw. */
  lemma MutualGoesBeforeFails(items: seq<Item>, i: nat, j: nat, ti: string, tj: string)
    requires i < |items| && j < |items| && i != j
    requires ti in items[i].goesBefore && ti in AllTags(items[j]) && BucketOf(items[j], ti) != Before
    requires tj in items[j].goesBefore && tj in AllTags(items[i]) && BucketOf(items[i], tj) != Before
    ensures SortItems(items).Err?
  {
    var es := Entries(items);
    ResolvesBefore(items, i, j, ti);
    ResolvesBefore(items, j, i, tj);
    DagMap.DeclaredEdge(es, i, DagMap.Edge(i, j));
    DagMap.DeclaredEdge(es, j, DagMap.Edge(j, i));
    DagMap.TwoCycleFails(es, i, j);
  }

  /** An item that names the same tag in both `goesBefore` and `goesAfter`
      while another item carries it normally makes the sort throw. */
  lemma BothWaysFails(items: seq<Item>, i: nat, j: nat, tag: string)
    requires i < |items| && j < |items| && i != j
    requires tag in items[i].goesBefore && tag in items[i].goesAfter
    requires tag in AllTags(items[j]) && BucketOf(items[j], tag) == Normal
    ensures SortItems(items).Err?
  {
    var es := Entries(items);
    ResolvesBefore(items, i, j, tag);
    ResolvesAfter(items, i, j, tag);
    DagMap.DeclaredEdge(es, i, DagMap.Edge(i, j));
    DagMap.DeclaredEdge(es, i, DagMap.Edge(j, i));
    DagMap.TwoCycleFails(es, i, j);
  }

  lemma {:induction false} MentionedWithoutDeps(es: seq<DagMap.Entry<nat, Item>>)
    requires forall i :: 0 <= i < |es| ==> es[i].key == i && es[i].before == [] && es[i].after == []
    ensures DagMap.Mentioned(es) == Range(|es|)
    decreases |es|
  {
    if |es| > 0 {
      var n := |es| - 1;
      MentionedWithoutDeps(es[..n]);
      assert Range(n) + [n] == Range(|es|);
    }
  }

  /** Without `goesBefore` and `goesAfter`, the indices are visited in order. */
  lemma UnconstrainedOrder(items: seq<Item>)
    requires forall i :: 0 <= i < |items| ==> items[i].goesBefore == [] && items[i].goesAfter == []
    ensures ItemOrder(items) == Ok(Range(|items|))
  {
    var es := Entries(items);
    var n := |items|;
    assert forall i :: 0 <= i < n ==> es[i].key == i && es[i].before == [] && es[i].after == [];
    DagMap.EdgesWithoutDeps(es);
    DagMap.NoEdgesKeepsMentionOrder(es);
    MentionedWithoutDeps(es);
    DedupDistinct(Range(n));
  }

  /** The values stored under the indices, in index order, are the items. */
  lemma ValuesInIndexOrder(items: seq<Item>)
    ensures DagMap.Values(Entries(items), Range(|items|)) == items
  {
    var es := Entries(items);
    var n := |items|;
    RangeMembers(n);
    forall k | k in Range(n) ensures DagMap.ValueOf(es, k).Some? {
      ValueOfIndex(items, k);
    }
    DagMap.ValuesAllAdded(es, Range(n));
    forall k | 0 <= k < n ensures DagMap.Values(es, Range(n))[k] == items[k] {
      ValueOfIndex(items, k);
    }
  }

  /** Items without `goesBefore` or `goesAfter` keep their order. */
  lemma UnconstrainedKeepsOrder(items: seq<Item>)
    requires forall i :: 0 <= i < |items| ==> items[i].goesBefore == [] && items[i].goesAfter == []
    ensures SortItems(items) == Ok(items)
  {
    UnconstrainedOrder(items);
    ValuesInIndexOrder(items);
  }
}
