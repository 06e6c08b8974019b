/** The insertion discipline shared by the flat registries: `push` normally,
    `unshift` in reverse mode. */
module Registry {
  import opened Seqs

  function Insert<T>(xs: seq<T>, x: T, reverse: bool): (r: seq<T>)
    ensures |r| == |xs| + 1
    ensures reverse ==> r[0] == x && r[1..] == xs
    ensures !reverse ==> r[|xs|] == x && r[..|xs|] == xs
  {
    if reverse then [x] + xs else xs + [x]
  }

  /** Inserting `ys` one after the other. */
  function InsertAll<T>(xs: seq<T>, ys: seq<T>, reverse: bool): seq<T>
    decreases |ys|
  {
    if |ys| == 0 then xs else InsertAll(Insert(xs, ys[0], reverse), ys[1..], reverse)
  }

  /** Successive inserts keep call order, and reverse it in reverse mode:
      the most recently inserted element comes first. */
  lemma {:induction false} InsertAllOrder<T>(xs: seq<T>, ys: seq<T>, reverse: bool)
    ensures InsertAll(xs, ys, reverse) == if reverse then Reverse(ys) + xs else xs + ys
    decreases |ys|
  {
    if |ys| > 0 {
      InsertAllOrder(Insert(xs, ys[0], reverse), ys[1..], reverse);
      if reverse {
        assert Reverse(ys) == Reverse(ys[1..]) + [ys[0]];
      } else {
        assert xs + ys == (xs + [ys[0]]) + ys[1..];
      }
    }
  }
}
