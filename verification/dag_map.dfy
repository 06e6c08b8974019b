/** A model of the `dag-map` package the ordering code delegates to (the package
    itself is not part of this model; its observable contract is).

    `add(key, value, before, after)` registers `key` with `value` and declares
    that `key` runs before every key in `before` and after every key in `after`;
    `each` visits the keys in an order that respects every declaration, and the
    package throws when the declarations form a cycle.

    Vertices are numbered in the order their keys are first mentioned by the
    `add` calls. Each vertex keeps its predecessors in the order the edges were
    declared. The walk starts from every vertex without successors (a sink), in
    vertex order, and performs a depth-first search over predecessors, emitting a
    vertex after all its predecessors: this is the tie-breaking rule the package
    implements, so the order of unconstrained vertices is reproduced exactly. */
module DagMap {
  import opened Wrappers
  import opened Seqs

  /** One `add(key, value, before, after)` call. */
  datatype Entry<K, V> = Entry(key: K, value: V, before: seq<K>, after: seq<K>)

  /** A declared edge: `earlier` runs before `later`. */
  datatype Edge<K> = Edge(earlier: K, later: K)

  // ---------------------------------------------------------------------------
  // The graph over vertex numbers and its depth-first walk
  // ---------------------------------------------------------------------------

  /** `preds[w]` lists the vertices that must run before `w`, in declaration
      order; `sinks` lists the vertices that have no successor, in vertex order. */
  datatype Graph = Graph(n: nat, sinks: seq<nat>, preds: seq<seq<nat>>)

  ghost predicate Valid(g: Graph) {
    && |g.preds| == g.n
    && (forall w, k :: 0 <= w < g.n && 0 <= k < |g.preds[w]| ==> g.preds[w][k] < g.n)
    && Below(g.sinks, g.n)
  }

  ghost predicate Below(s: seq<nat>, n: nat) {
    forall k :: 0 <= k < |s| ==> s[k] < n
  }

  /** Every vertex of `d` is preceded in `d` by all its predecessors. */
  ghost predicate Closed(g: Graph, d: seq<nat>) {
    forall j, u :: 0 <= j < |d| && d[j] < |g.preds| && u in g.preds[d[j]] ==> u in d[..j]
  }

  /** `u` is a vertex and `w` one of its predecessors. */
  ghost predicate Link(g: Graph, u: nat, w: nat) {
    u < |g.preds| && w in g.preds[u]
  }

  /** Each element of `c` is a predecessor of the element before it. */
  ghost predicate Chain(g: Graph, c: seq<nat>)
    decreases |c|
  {
    |c| <= 1 || (Link(g, c[0], c[1]) && Chain(g, c[1..]))
  }

  /** A chain whose first element is also a predecessor of its last one. */
  ghost predicate IsCycle(g: Graph, c: seq<nat>) {
    && |c| > 0
    && Below(c, g.n)
    && Chain(g, c)
    && Link(g, c[|c| - 1], c[0])
  }

  ghost predicate Disjoint(d: seq<nat>, path: seq<nat>) {
    forall x :: x in d ==> x !in path
  }

  /** `d` extends `done` at the end. */
  ghost predicate Grows(done: seq<nat>, d: seq<nat>) {
    |done| <= |d| && d[..|done|] == done && (forall x :: x in done ==> x in d)
  }

  /** A duplicate-free, predecessor-closed listing of every vertex. */
  ghost predicate IsTopoOrder(g: Graph, order: seq<nat>) {
    && Below(order, g.n)
    && Distinct(order)
    && Closed(g, order)
    && (forall v :: 0 <= v < g.n ==> v in order)
  }

  /** The vertices the search may still enter from `path`. */
  function Pending(g: Graph, path: seq<nat>): set<nat> {
    Universe(g.n) - Elements(path)
  }

  /** Enters `v` (path holds the vertices being visited), visits its
      predecessors and then emits `v`; a predecessor found on the path closes a
      cycle, which is returned instead. */
  function VisitVertex(g: Graph, v: nat, path: seq<nat>, done: seq<nat>): (r: Result<seq<nat>, seq<nat>>)
    requires Valid(g) && v < g.n && v !in path && v !in done
    requires Below(path, g.n) && Chain(g, path)
    requires |path| > 0 ==> Link(g, path[|path| - 1], v)
    requires Below(done, g.n) && Distinct(done) && Closed(g, done) && Disjoint(done, path)
    ensures r.Ok? ==> && Grows(done, r.value) && v in r.value
                      && Below(r.value, g.n) && Distinct(r.value)
                      && Closed(g, r.value) && Disjoint(r.value, path)
    ensures r.Err? ==> IsCycle(g, r.error)
    decreases Pending(g, path), 0, 0
  {
    var path' := path + [v];
    assert v in Pending(g, path) && v !in Pending(g, path');
    ChainExtend(g, path, v);
    match VisitPreds(g, g.preds[v], path', done)
    case Err(c) => Err(c)
    case Ok(d) =>
      EmitVertex(g, v, path, done, d);
      Ok(d + [v])
  }

  /** Emitting `v` after all its predecessors keeps the walk's invariants. */
  lemma EmitVertex(g: Graph, v: nat, path: seq<nat>, done: seq<nat>, d: seq<nat>)
    requires Valid(g) && v < g.n && v !in path
    requires Grows(done, d) && Below(d, g.n) && Distinct(d) && Closed(g, d)
    requires Disjoint(d, path + [v])
    requires forall p :: p in g.preds[v] ==> p in d
    ensures Grows(done, d + [v]) && v in d + [v]
    ensures Below(d + [v], g.n) && Distinct(d + [v])
    ensures Closed(g, d + [v]) && Disjoint(d + [v], path)
  {
    var d' := d + [v];
    assert v in path + [v];
    forall j, u | 0 <= j < |d'| && d'[j] < |g.preds| && u in g.preds[d'[j]]
      ensures u in d'[..j]
    {
      if j < |d| {
        assert d'[..j] == d[..j] && d'[j] == d[j];
      } else {
        assert d'[..j] == d;
      }
    }
    assert d'[..|done|] == d[..|done|];
    forall x | x in d ensures x !in path {
      assert x !in path + [v];
    }
  }

  /** Visits the predecessors `ps` of the last vertex on `path`, in order,
      skipping those already emitted. */
  function VisitPreds(g: Graph, ps: seq<nat>, path: seq<nat>, done: seq<nat>): (r: Result<seq<nat>, seq<nat>>)
    requires Valid(g) && |path| > 0 && Below(path, g.n) && Chain(g, path)
    requires forall p :: p in ps ==> p in g.preds[path[|path| - 1]]
    requires Below(done, g.n) && Distinct(done) && Closed(g, done) && Disjoint(done, path)
    ensures r.Ok? ==> && Grows(done, r.value)
                      && Below(r.value, g.n) && Distinct(r.value)
                      && Closed(g, r.value) && Disjoint(r.value, path)
                      && (forall p :: p in ps ==> p in r.value)
    ensures r.Err? ==> IsCycle(g, r.error)
    decreases Pending(g, path), 1, |ps|
  {
    if |ps| == 0 then Ok(done)
    else
      var p := ps[0];
      var last := path[|path| - 1];
      assert ps[0] in ps;
      assert forall q :: q in ps[1..] ==> q in ps;
      if p in done then VisitPreds(g, ps[1..], path, done)
      else if p in path then
        var i := IndexOf(path, p);
        var c := path[i..];
        ChainSuffix(g, path, i);
        assert c[|c| - 1] == last;
        Err(c)
      else
        match VisitVertex(g, p, path, done)
        case Err(c) => Err(c)
        case Ok(d) =>
          var r := VisitPreds(g, ps[1..], path, d);
          assert r.Ok? ==> r.value[..|done|] == d[..|done|];
          r
  }

  /** Starts a search from every vertex of `vs` not emitted yet, in order. */
  function Walk(g: Graph, vs: seq<nat>, done: seq<nat>): (r: Result<seq<nat>, seq<nat>>)
    requires Valid(g) && Below(vs, g.n)
    requires Below(done, g.n) && Distinct(done) && Closed(g, done)
    ensures r.Ok? ==> && Grows(done, r.value)
                      && Below(r.value, g.n) && Distinct(r.value) && Closed(g, r.value)
                      && (forall v :: v in vs ==> v in r.value)
    ensures r.Err? ==> IsCycle(g, r.error)
    decreases |vs|
  {
    if |vs| == 0 then Ok(done)
    else if vs[0] in done then Walk(g, vs[1..], done)
    else
      match VisitVertex(g, vs[0], [], done)
      case Err(c) => Err(c)
      case Ok(d) =>
        var r := Walk(g, vs[1..], d);
        assert r.Ok? ==> r.value[..|done|] == d[..|done|];
        r
  }

  /** The walk from the sinks; a second pass over all vertices only has work to
      do when some vertex reaches no sink, which needs a cycle, and then finds it. */
  function TopoSort(g: Graph): (r: Result<seq<nat>, seq<nat>>)
    requires Valid(g)
    ensures r.Ok? ==> IsTopoOrder(g, r.value)
    ensures r.Err? ==> IsCycle(g, r.error)
  {
    match Walk(g, g.sinks, [])
    case Err(c) => Err(c)
    case Ok(d) =>
      var r := Walk(g, Range(g.n), d);
      assert forall v :: 0 <= v < g.n ==> v in Range(g.n) by {
        forall v | 0 <= v < g.n ensures v in Range(g.n) {
          assert Range(g.n)[v] == v;
        }
      }
      r
  }

  lemma {:induction false} ChainExtend(g: Graph, path: seq<nat>, v: nat)
    requires Chain(g, path)
    requires |path| > 0 ==> Link(g, path[|path| - 1], v)
    ensures Chain(g, path + [v])
    decreases |path|
  {
    if |path| > 1 {
      ChainExtend(g, path[1..], v);
      assert (path + [v])[1..] == path[1..] + [v];
    }
  }

  lemma {:induction false} ChainSuffix(g: Graph, path: seq<nat>, i: nat)
    requires Chain(g, path) && i <= |path|
    ensures Chain(g, path[i..])
    decreases i
  {
    if i > 0 && |path| > 1 {
      ChainSuffix(g, path[1..], i - 1);
      assert path[1..][i - 1..] == path[i..];
    }
  }

  /** Consecutive elements of a chain are linked. */
  lemma {:induction false} ChainAt(g: Graph, c: seq<nat>, k: nat)
    requires Chain(g, c) && k + 1 < |c|
    ensures Link(g, c[k], c[k + 1])
    decreases k
  {
    if k > 0 {
      ChainAt(g, c[1..], k - 1);
    }
  }

  // ---------------------------------------------------------------------------
  // The keyed layer: what `add` and `each` do
  // ---------------------------------------------------------------------------

  predicate Mentions<K(==), V>(e: Entry<K, V>, k: K) {
    k == e.key || k in e.before || k in e.after
  }

  /** Every key in the order the `add` calls mention it: the added key, then
      its `before` keys, then its `after` keys. */
  function Mentioned<K(==,!new), V>(entries: seq<Entry<K, V>>): (r: seq<K>)
    ensures forall k :: k in r <==> exists i :: 0 <= i < |entries| && Mentions(entries[i], k)
    decreases |entries|
  {
    if |entries| == 0 then []
    else
      var init := entries[..|entries| - 1];
      var e := entries[|entries| - 1];
      assert entries == init + [e];
      Mentioned(init) + [e.key] + e.before + e.after
  }

  /** The vertices, numbered by first mention. */
  function VertexKeys<K(==,!new), V>(entries: seq<Entry<K, V>>): (keys: seq<K>)
    ensures Distinct(keys)
    ensures forall k :: k in keys <==> k in Mentioned(entries)
  {
    Dedup(Mentioned(entries))
  }

  function BeforeEdges<K>(key: K, before: seq<K>): (r: seq<Edge<K>>)
    ensures |r| == |before|
    ensures forall i :: 0 <= i < |before| ==> r[i] == Edge(key, before[i])
  {
    seq(|before|, i requires 0 <= i < |before| => Edge(key, before[i]))
  }

  function AfterEdges<K>(key: K, after: seq<K>): (r: seq<Edge<K>>)
    ensures |r| == |after|
    ensures forall i :: 0 <= i < |after| ==> r[i] == Edge(after[i], key)
  {
    seq(|after|, i requires 0 <= i < |after| => Edge(after[i], key))
  }

  /** `e` declares the edge `d`. */
  predicate Declares<K(==), V>(e: Entry<K, V>, d: Edge<K>) {
    (d.earlier == e.key && d.later in e.before) || (d.later == e.key && d.earlier in e.after)
  }

  /** The edges the `add` calls declare, in declaration order. */
  function Edges<K(==,!new), V>(entries: seq<Entry<K, V>>): (r: seq<Edge<K>>)
    ensures forall d :: d in r <==> exists i :: 0 <= i < |entries| && Declares(entries[i], d)
    decreases |entries|
  {
    if |entries| == 0 then []
    else
      var init := entries[..|entries| - 1];
      var e := entries[|entries| - 1];
      assert entries == init + [e];
      var r := Edges(init) + BeforeEdges(e.key, e.before) + AfterEdges(e.key, e.after);
      assert forall d :: d in BeforeEdges(e.key, e.before) <==> d.earlier == e.key && d.later in e.before by {
        forall d ensures d in BeforeEdges(e.key, e.before) <==> d.earlier == e.key && d.later in e.before {
          if d.earlier == e.key && d.later in e.before {
            assert BeforeEdges(e.key, e.before)[IndexOf(e.before, d.later)] == d;
          }
        }
      }
      assert forall d :: d in AfterEdges(e.key, e.after) <==> d.later == e.key && d.earlier in e.after by {
        forall d ensures d in AfterEdges(e.key, e.after) <==> d.later == e.key && d.earlier in e.after {
          if d.later == e.key && d.earlier in e.after {
            assert AfterEdges(e.key, e.after)[IndexOf(e.after, d.earlier)] == d;
          }
        }
      }
      r
  }

  /** Entries without `before` and `after` keys declare no edge. */
  lemma {:induction false} EdgesWithoutDeps<K(!new), V>(entries: seq<Entry<K, V>>)
    requires forall i :: 0 <= i < |entries| ==> entries[i].before == [] && entries[i].after == []
    ensures Edges(entries) == []
    decreases |entries|
  {
    if |entries| > 0 {
      EdgesWithoutDeps(entries[..|entries| - 1]);
    }
  }

  /** An edge an entry declares is among the declared edges. */
  lemma DeclaredEdge<K(!new), V>(entries: seq<Entry<K, V>>, i: nat, d: Edge<K>)
    requires i < |entries| && Declares(entries[i], d)
    ensures d in Edges(entries)
  {
  }

  /** Both ends of every declared edge are vertices. */
  lemma EdgeEndsMentioned<K(!new), V>(entries: seq<Entry<K, V>>, d: Edge<K>)
    requires d in Edges(entries)
    ensures d.earlier in Mentioned(entries) && d.later in Mentioned(entries)
  {
  }

  /** Whether `key` has an outgoing edge, i.e. is not a sink. */
  predicate HasOut<K(==)>(edges: seq<Edge<K>>, key: K) {
    exists i :: 0 <= i < |edges| && edges[i].earlier == key
  }

  /** The vertex numbers of the declared predecessors of `w`, in declaration
      order, repetitions included. */
  function PredIndices<K(==)>(keys: seq<K>, edges: seq<Edge<K>>, w: K): (r: seq<nat>)
    requires forall d :: d in edges ==> d.earlier in keys
    ensures forall i :: i in r ==> i < |keys|
    decreases |edges|
  {
    if |edges| == 0 then []
    else
      var d := edges[|edges| - 1];
      PredIndices(keys, edges[..|edges| - 1], w) + (if d.later == w then [IndexOf(keys, d.earlier)] else [])
  }

  /** Vertex `i` is listed as a predecessor of `w` exactly when the edge from
      its key to `w` was declared. */
  lemma {:induction false} PredIndicesSpec<K>(keys: seq<K>, edges: seq<Edge<K>>, w: K, i: nat)
    requires Distinct(keys)
    requires forall d :: d in edges ==> d.earlier in keys
    ensures i in PredIndices(keys, edges, w) <==> i < |keys| && Edge(keys[i], w) in edges
    decreases |edges|
  {
    if |edges| > 0 {
      var init := edges[..|edges| - 1];
      var d := edges[|edges| - 1];
      assert edges == init + [d];
      assert forall x :: x in init ==> x in edges;
      PredIndicesSpec(keys, init, w, i);
      if d.later == w {
        var j := IndexOf(keys, d.earlier);
        if i < |keys| && keys[i] == d.earlier {
          assert i == j;
        }
      }
    }
  }

  /** The vertices without an outgoing edge, in vertex order. */
  function Sinks<K(==)>(keys: seq<K>, edges: seq<Edge<K>>): (r: seq<nat>)
    ensures forall v: nat :: v in r <==> v < |keys| && !HasOut(edges, keys[v])
  {
    RangeMembers(|keys|);
    Filter<nat>(Range(|keys|), (v: nat) => v < |keys| && !HasOut(edges, keys[v]))
  }

  /** The predecessors of every vertex, without repetitions. */
  function Preds<K(==)>(keys: seq<K>, edges: seq<Edge<K>>): (r: seq<seq<nat>>)
    requires forall d :: d in edges ==> d.earlier in keys
    ensures |r| == |keys|
    ensures forall w :: 0 <= w < |keys| ==> r[w] == Dedup(PredIndices(keys, edges, keys[w]))
  {
    seq(|keys|, w requires 0 <= w < |keys| => Dedup(PredIndices(keys, edges, keys[w])))
  }

  /** The graph the `add` calls build. */
  function BuildGraph<K(==,!new), V>(entries: seq<Entry<K, V>>): (g: Graph)
    ensures Valid(g)
    ensures g.n == |VertexKeys(entries)|
  {
    var keys := VertexKeys(entries);
    var edges := Edges(entries);
    assert forall d :: d in edges ==> d.earlier in keys by {
      forall d | d in edges ensures d.earlier in keys {
        EdgeEndsMentioned(entries, d);
      }
    }
    var sinks := Sinks(keys, edges);
    var preds := Preds(keys, edges);
    assert forall w, k :: 0 <= w < |keys| && 0 <= k < |preds[w]| ==> preds[w][k] < |keys| by {
      forall w, k | 0 <= w < |keys| && 0 <= k < |preds[w]| ensures preds[w][k] < |keys| {
        assert preds[w][k] in PredIndices(keys, edges, keys[w]);
      }
    }
    assert forall k :: 0 <= k < |sinks| ==> sinks[k] < |keys| by {
      forall k | 0 <= k < |sinks| ensures sinks[k] < |keys| {
        assert sinks[k] in sinks;
      }
    }
    Graph(|keys|, sinks, preds)
  }

  /** `ks` runs `earlier` before `later` for every declared edge. */
  ghost predicate Respects<K>(ks: seq<K>, edges: seq<Edge<K>>) {
    forall i, j :: 0 <= i < |ks| && 0 <= j < |ks| && Edge(ks[i], ks[j]) in edges ==> i < j
  }

  /** Each key of `c` must run after the next one. */
  ghost predicate KeyChain<K>(edges: seq<Edge<K>>, c: seq<K>)
    decreases |c|
  {
    |c| <= 1 || (Edge(c[1], c[0]) in edges && KeyChain(edges, c[1..]))
  }

  /** A chain of keys whose last must also run after its first: no order can
      satisfy all these edges. */
  ghost predicate IsKeyCycle<K>(edges: seq<Edge<K>>, c: seq<K>) {
    |c| > 0 && KeyChain(edges, c) && Edge(c[0], c[|c| - 1]) in edges
  }

  ghost predicate HasKeyCycle<K(!new)>(edges: seq<Edge<K>>) {
    exists c :: IsKeyCycle(edges, c)
  }

  /** The keys of a cycle found among vertex numbers. */
  function KeysOf<K>(keys: seq<K>, vs: seq<nat>): (r: seq<K>)
    requires forall i :: 0 <= i < |vs| ==> vs[i] < |keys|
    ensures |r| == |vs|
    ensures forall i :: 0 <= i < |vs| ==> r[i] == keys[vs[i]]
  {
    seq(|vs|, i requires 0 <= i < |vs| => keys[vs[i]])
  }

  /** The order `each` visits the keys in, or the cycle that makes `add` throw.
      The order lists every mentioned key once and respects every declared edge;
      a reported cycle is made of declared edges. */
  function KeyOrder<K(==,!new), V>(entries: seq<Entry<K, V>>): (r: Result<seq<K>, seq<K>>)
    ensures r.Ok? ==> Distinct(r.value)
    ensures r.Ok? ==> forall k :: k in r.value <==> k in Mentioned(entries)
    ensures r.Ok? ==> Respects(r.value, Edges(entries))
    ensures r.Err? ==> IsKeyCycle(Edges(entries), r.error)
  {
    var keys := VertexKeys(entries);
    var g := BuildGraph(entries);
    match TopoSort(g)
    case Ok(order) =>
      var ks := KeysOf(keys, order);
      OrderToKeys(entries, order);
      Ok(ks)
    case Err(c) =>
      CycleToKeys(entries, c);
      Err(KeysOf(keys, c))
  }

  lemma PredsOfBuiltGraph<K(!new), V>(entries: seq<Entry<K, V>>, u: nat, w: nat)
    requires w < |VertexKeys(entries)|
    ensures u in BuildGraph(entries).preds[w] <==>
            u < |VertexKeys(entries)| && Edge(VertexKeys(entries)[u], VertexKeys(entries)[w]) in Edges(entries)
  {
    var keys := VertexKeys(entries);
    var edges := Edges(entries);
    forall d | d in edges ensures d.earlier in keys {
      EdgeEndsMentioned(entries, d);
    }
    PredIndicesSpec(keys, edges, keys[w], u);
  }

  lemma OrderToKeys<K(!new), V>(entries: seq<Entry<K, V>>, order: seq<nat>)
    requires IsTopoOrder(BuildGraph(entries), order)
    ensures var ks := KeysOf(VertexKeys(entries), order);
      && Distinct(ks)
      && (forall k :: k in ks <==> k in Mentioned(entries))
      && Respects(ks, Edges(entries))
  {
    var keys := VertexKeys(entries);
    var g := BuildGraph(entries);
    var ks := KeysOf(keys, order);
    forall k | k in Mentioned(entries) ensures k in ks {
      var v := IndexOf(keys, k);
      var i := IndexOf(order, v);
      assert ks[i] == k;
    }
    forall i, j | 0 <= i < |ks| && 0 <= j < |ks| && Edge(ks[i], ks[j]) in Edges(entries)
      ensures i < j
    {
      PredsOfBuiltGraph(entries, order[i], order[j]);
      assert order[i] in order[..j];
      var m := IndexOf(order[..j], order[i]);
      assert order[m] == order[i];
    }
  }

  lemma CycleToKeys<K(!new), V>(entries: seq<Entry<K, V>>, c: seq<nat>)
    requires IsCycle(BuildGraph(entries), c)
    ensures IsKeyCycle(Edges(entries), KeysOf(VertexKeys(entries), c))
  {
    var g := BuildGraph(entries);
    var keys := VertexKeys(entries);
    ChainToKeys(entries, c);
    PredsOfBuiltGraph(entries, c[0], c[|c| - 1]);
  }

  lemma {:induction false} ChainToKeys<K(!new), V>(entries: seq<Entry<K, V>>, c: seq<nat>)
    requires Chain(BuildGraph(entries), c) && Below(c, BuildGraph(entries).n)
    ensures KeyChain(Edges(entries), KeysOf(VertexKeys(entries), c))
    decreases |c|
  {
    if |c| > 1 {
      var keys := VertexKeys(entries);
      ChainToKeys(entries, c[1..]);
      PredsOfBuiltGraph(entries, c[1], c[0]);
      assert KeysOf(keys, c)[1..] == KeysOf(keys, c[1..]);
    }
  }

  /** Along a chain the positions in an edge-respecting order fall. */
  lemma {:induction false} ChainPositions<K>(ks: seq<K>, edges: seq<Edge<K>>, c: seq<K>)
    requires Respects(ks, edges)
    requires forall d :: d in edges ==> d.earlier in ks && d.later in ks
    requires KeyChain(edges, c) && |c| > 0 && c[0] in ks
    ensures c[|c| - 1] in ks && IndexOf(ks, c[|c| - 1]) <= IndexOf(ks, c[0])
    decreases |c|
  {
    if |c| > 1 {
      assert Edge(c[1], c[0]) in edges;
      ChainPositions(ks, edges, c[1..]);
      var i, j := IndexOf(ks, c[1]), IndexOf(ks, c[0]);
      assert Edge(ks[i], ks[j]) in edges;
    }
  }

  /** No order respecting every edge exists when the edges hold a cycle. */
  lemma NoCycleUnderOrder<K>(ks: seq<K>, edges: seq<Edge<K>>, c: seq<K>)
    requires Respects(ks, edges)
    requires forall d :: d in edges ==> d.earlier in ks && d.later in ks
    ensures !IsKeyCycle(edges, c)
  {
    if IsKeyCycle(edges, c) {
      var last := c[|c| - 1];
      assert Edge(c[0], last) in edges;
      ChainPositions(ks, edges, c);
    }
  }

  /** `add` throws exactly when the declared edges hold a cycle. */
  lemma KeyOrderFailsIffCycle<K(!new), V>(entries: seq<Entry<K, V>>)
    ensures KeyOrder(entries).Err? <==> HasKeyCycle(Edges(entries))
  {
    var r := KeyOrder(entries);
    if r.Ok? {
      forall d | d in Edges(entries) ensures d.earlier in r.value && d.later in r.value {
        EdgeEndsMentioned(entries, d);
      }
      forall c ensures !IsKeyCycle(Edges(entries), c) {
        NoCycleUnderOrder(r.value, Edges(entries), c);
      }
    }
  }

  /** `each` visits the earlier end of every declared edge before its later end. */
  lemma KeyOrderHonoursEdge<K(!new), V>(entries: seq<Entry<K, V>>, d: Edge<K>)
    requires KeyOrder(entries).Ok? && d in Edges(entries)
    ensures var order := KeyOrder(entries).value;
      d.earlier in order && d.later in order && IndexOf(order, d.earlier) < IndexOf(order, d.later)
  {
    var order := KeyOrder(entries).value;
    EdgeEndsMentioned(entries, d);
    var a, b := IndexOf(order, d.earlier), IndexOf(order, d.later);
    assert Edge(order[a], order[b]) in Edges(entries);
  }

  /** `each` visits every vertex exactly once. */
  lemma KeyOrderLength<K(!new), V>(entries: seq<Entry<K, V>>)
    requires KeyOrder(entries).Ok?
    ensures |KeyOrder(entries).value| == |VertexKeys(entries)|
  {
    DistinctSameElementsLength(KeyOrder(entries).value, VertexKeys(entries));
  }

  /** Two keys that must each run before the other make `add` throw. */
  lemma TwoCycleFails<K(!new), V>(entries: seq<Entry<K, V>>, u: K, w: K)
    requires Edge(u, w) in Edges(entries) && Edge(w, u) in Edges(entries)
    ensures KeyOrder(entries).Err?
  {
    assert IsKeyCycle(Edges(entries), [w, u]);
    KeyOrderFailsIffCycle(entries);
  }

  /** A walk over vertices already emitted emits nothing more. */
  lemma {:induction false} WalkAllDone(g: Graph, vs: seq<nat>, done: seq<nat>)
    requires Valid(g) && Below(vs, g.n)
    requires Below(done, g.n) && Distinct(done) && Closed(g, done)
    requires forall v :: v in vs ==> v in done
    ensures Walk(g, vs, done) == Ok(done)
    decreases |vs|
  {
    if |vs| > 0 {
      assert vs[0] in vs;
      assert forall v :: v in vs[1..] ==> v in vs;
      WalkAllDone(g, vs[1..], done);
    }
  }

  /** Without edges, the walk emits the vertices in vertex order. */
  lemma {:induction false} WalkWithoutEdges(g: Graph, k: nat)
    requires Valid(g) && k <= g.n
    requires forall w :: 0 <= w < g.n ==> g.preds[w] == []
    ensures Walk(g, Range(g.n)[k..], Range(g.n)[..k]) == Ok(Range(g.n))
    decreases g.n - k
  {
    var r := Range(g.n);
    if k == g.n {
      assert r[k..] == [] && r[..k] == r;
    } else {
      var done := r[..k];
      assert r[k..][0] == k && r[k..][1..] == r[k + 1..];
      assert k !in done;
      assert VisitPreds(g, [], [k], done) == Ok(done);
      assert VisitVertex(g, k, [], done) == Ok(done + [k]);
      assert done + [k] == r[..k + 1];
      WalkWithoutEdges(g, k + 1);
    }
  }

  /** Entries that declare no edge are visited in the order their keys were
      first mentioned. */
  lemma NoEdgesKeepsMentionOrder<K(!new), V>(entries: seq<Entry<K, V>>)
    requires Edges(entries) == []
    ensures KeyOrder(entries) == Ok(VertexKeys(entries))
  {
    var keys := VertexKeys(entries);
    var g := BuildGraph(entries);
    var n := |keys|;
    forall w | 0 <= w < n ensures g.preds[w] == [] {
      assert PredIndices(keys, [], keys[w]) == [];
    }
    RangeMembers(n);
    FilterKeepsAll<nat>(Range(n), (v: nat) => v < |keys| && !HasOut(Edges(entries), keys[v]));
    assert g.sinks == Range(n);
    WalkWithoutEdges(g, 0);
    assert Range(n)[0..] == Range(n) && Range(n)[..0] == [];
    WalkAllDone(g, Range(n), Range(n));
    assert KeysOf(keys, Range(n)) == keys;
  }

  /** The value the last `add` of `k` stored, if `k` was added at all. */
  function ValueOf<K(==), V>(entries: seq<Entry<K, V>>, k: K): (r: Option<V>)
    ensures r.None? <==> forall i :: 0 <= i < |entries| ==> entries[i].key != k
    ensures r.Some? ==> exists i :: && 0 <= i < |entries| && entries[i].key == k && entries[i].value == r.value
                                    && forall j :: i < j < |entries| ==> entries[j].key != k
    decreases |entries|
  {
    if |entries| == 0 then None
    else
      var e := entries[|entries| - 1];
      if e.key == k then Some(e.value)
      else ValueOf(entries[..|entries| - 1], k)
  }

  /** What `each` hands to a callback that keeps the values present: the value
      of every visited key that was added, in visiting order. */
  function Values<K(==), V>(entries: seq<Entry<K, V>>, ks: seq<K>): (r: seq<V>)
    ensures |r| <= |ks|
    decreases |ks|
  {
    if |ks| == 0 then []
    else
      match ValueOf(entries, ks[0])
      case Some(v) => [v] + Values(entries, ks[1..])
      case None => Values(entries, ks[1..])
  }

  /** When every visited key was added, the values line up with the keys. */
  lemma {:induction false} ValuesAllAdded<K, V>(entries: seq<Entry<K, V>>, ks: seq<K>)
    requires forall k :: k in ks ==> ValueOf(entries, k).Some?
    ensures |Values(entries, ks)| == |ks|
    ensures forall i :: 0 <= i < |ks| ==> Values(entries, ks)[i] == ValueOf(entries, ks[i]).value
    decreases |ks|
  {
    if |ks| > 0 {
      var tail := ks[1..];
      assert ks[0] in ks;
      assert forall k :: k in tail ==> k in ks;
      ValuesAllAdded(entries, tail);
      var r := [ValueOf(entries, ks[0]).value] + Values(entries, tail);
      assert Values(entries, ks) == r;
      forall i | 0 <= i < |ks| ensures r[i] == ValueOf(entries, ks[i]).value {
        if i > 0 {
          assert ks[i] == tail[i - 1];
        }
      }
    }
  }

  /** `each` collecting the present values, or the cycle that made `add` throw. */
  function Each<K(==,!new), V>(entries: seq<Entry<K, V>>): (r: Result<seq<V>, seq<K>>)
    ensures r.Err? <==> HasKeyCycle(Edges(entries))
    ensures r.Ok? <==> KeyOrder(entries).Ok?
    ensures r.Ok? ==> r.value == Values(entries, KeyOrder(entries).value)
  {
    KeyOrderFailsIffCycle(entries);
    match KeyOrder(entries)
    case Ok(ks) => Ok(Values(entries, ks))
    case Err(c) => Err(c)
  }
}
