/** Relational operations over sequences of rows, by row index:
    the inner equi-join that `pd.merge(..., how="inner")` computes (one
    output pair for every related pair of rows, in left-row order and,
    within a left row, in right-row order) and the left anti-join that
    `merge(..., how="left", indicator=True)` filtered to "left_only" gives. */
module Joins {

  /** Lexicographic order on index pairs. */
  predicate PairLess(p: (nat, nat), q: (nat, nat)) {
    p.0 < q.0 || (p.0 == q.0 && p.1 < q.1)
  }

  predicate StrictlySorted(ps: seq<(nat, nat)>) {
    forall a, b :: 0 <= a < b < |ps| ==> PairLess(ps[a], ps[b])
  }

  /** The pairs (i, j), j < m, of left row `x` (at index i) with the right rows it relates to. */
  function RowPairs<A, B>(x: A, i: nat, ys: seq<B>, m: nat, rel: (A, B) -> bool): seq<(nat, nat)>
    requires m <= |ys|
  {
    if m == 0 then []
    else
      var prev := RowPairs(x, i, ys, m - 1, rel);
      if rel(x, ys[m - 1]) then prev + [(i, m - 1)] else prev
  }

  /** RowPairs holds exactly the related pairs of row i, in right-row order. */
  lemma {:induction false} RowPairsFacts<A, B>(x: A, i: nat, ys: seq<B>, m: nat, rel: (A, B) -> bool)
    requires m <= |ys|
    ensures var r := RowPairs(x, i, ys, m, rel);
      && (forall p :: p in r ==> p.0 == i && p.1 < m && rel(x, ys[p.1]))
      && (forall j :: 0 <= j < m && rel(x, ys[j]) ==> (i, j) in r)
      && StrictlySorted(r)
  {
    if m > 0 {
      RowPairsFacts(x, i, ys, m - 1, rel);
      var prev := RowPairs(x, i, ys, m - 1, rel);
      if rel(x, ys[m - 1]) {
        var r := prev + [(i, m - 1)];
        forall a, b | 0 <= a < b < |r| ensures PairLess(r[a], r[b]) {
          assert r[a] == prev[a] && prev[a] in prev;
        }
      }
    }
  }

  /** The join restricted to the first n left rows. */
  function JoinUpTo<A, B>(xs: seq<A>, ys: seq<B>, n: nat, rel: (A, B) -> bool): seq<(nat, nat)>
    requires n <= |xs|
  {
    if n == 0 then []
    else JoinUpTo(xs, ys, n - 1, rel) + RowPairs(xs[n - 1], n - 1, ys, |ys|, rel)
  }

  /** Every pair of JoinUpTo relates a left row below n to a right row. */
  lemma {:induction false} JoinUpToSound<A, B>(xs: seq<A>, ys: seq<B>, n: nat, rel: (A, B) -> bool)
    requires n <= |xs|
    ensures forall p :: p in JoinUpTo(xs, ys, n, rel) ==> p.0 < n && p.1 < |ys| && rel(xs[p.0], ys[p.1])
  {
    if n > 0 {
      JoinUpToSound(xs, ys, n - 1, rel);
      RowPairsFacts(xs[n - 1], n - 1, ys, |ys|, rel);
    }
  }

  /** Every related pair with left row below n is in JoinUpTo. */
  lemma {:induction false} JoinUpToComplete<A, B>(xs: seq<A>, ys: seq<B>, n: nat, rel: (A, B) -> bool)
    requires n <= |xs|
    ensures forall i, j :: 0 <= i < n && 0 <= j < |ys| && rel(xs[i], ys[j]) ==> (i, j) in JoinUpTo(xs, ys, n, rel)
  {
    if n > 0 {
      JoinUpToComplete(xs, ys, n - 1, rel);
      RowPairsFacts(xs[n - 1], n - 1, ys, |ys|, rel);
      var prev, row := JoinUpTo(xs, ys, n - 1, rel), RowPairs(xs[n - 1], n - 1, ys, |ys|, rel);
      forall i, j | 0 <= i < n && 0 <= j < |ys| && rel(xs[i], ys[j]) ensures (i, j) in prev + row {
        if i < n - 1 { assert (i, j) in prev; } else { assert (i, j) in row; }
      }
    }
  }

  /** JoinUpTo is in left-row order, then right-row order. */
  lemma {:induction false} JoinUpToSorted<A, B>(xs: seq<A>, ys: seq<B>, n: nat, rel: (A, B) -> bool)
    requires n <= |xs|
    ensures StrictlySorted(JoinUpTo(xs, ys, n, rel))
  {
    if n > 0 {
      JoinUpToSorted(xs, ys, n - 1, rel);
      JoinUpToSound(xs, ys, n - 1, rel);
      RowPairsFacts(xs[n - 1], n - 1, ys, |ys|, rel);
      SortedConcat(JoinUpTo(xs, ys, n - 1, rel), RowPairs(xs[n - 1], n - 1, ys, |ys|, rel), n - 1);
    }
  }

  lemma SortedConcat(a: seq<(nat, nat)>, b: seq<(nat, nat)>, i: nat)
    requires StrictlySorted(a) && StrictlySorted(b)
    requires forall p :: p in a ==> p.0 < i
    requires forall p :: p in b ==> p.0 == i
    ensures StrictlySorted(a + b)
  {
    forall x, y | 0 <= x < y < |a + b| ensures PairLess((a + b)[x], (a + b)[y]) {
      if y < |a| {
        assert (a + b)[x] == a[x] && (a + b)[y] == a[y];
      } else if x >= |a| {
        assert (a + b)[x] == b[x - |a|] && (a + b)[y] == b[y - |a|];
      } else {
        assert (a + b)[x] == a[x] && (a + b)[y] == b[y - |a|];
        assert a[x] in a && b[y - |a|] in b;
      }
    }
  }

  /** `pd.merge(xs, ys, how="inner")` on the relation `rel`, by row index. */
  function Join<A, B>(xs: seq<A>, ys: seq<B>, rel: (A, B) -> bool): (r: seq<(nat, nat)>)
    ensures forall p :: p in r <==> p.0 < |xs| && p.1 < |ys| && rel(xs[p.0], ys[p.1])
    ensures StrictlySorted(r)
  {
    JoinUpToSound(xs, ys, |xs|, rel);
    JoinUpToComplete(xs, ys, |xs|, rel);
    JoinUpToSorted(xs, ys, |xs|, rel);
    JoinUpTo(xs, ys, |xs|, rel)
  }

  /** The pair at position q of the join relates its two rows. */
  lemma JoinAt<A, B>(xs: seq<A>, ys: seq<B>, rel: (A, B) -> bool, q: nat)
    requires q < |Join(xs, ys, rel)|
    ensures var p := Join(xs, ys, rel)[q]; p.0 < |xs| && p.1 < |ys| && rel(xs[p.0], ys[p.1])
  {
    assert Join(xs, ys, rel)[q] in Join(xs, ys, rel);
  }

  /** Every related pair sits at some position of the join. */
  lemma JoinHas<A, B>(xs: seq<A>, ys: seq<B>, rel: (A, B) -> bool, i: nat, j: nat)
    requires i < |xs| && j < |ys| && rel(xs[i], ys[j])
    ensures exists q :: 0 <= q < |Join(xs, ys, rel)| && Join(xs, ys, rel)[q] == (i, j)
  {
    assert (i, j) in Join(xs, ys, rel);
  }

  /** A strictly sorted sequence has no repeated pair. */
  lemma SortedDistinct(ps: seq<(nat, nat)>)
    requires StrictlySorted(ps)
    ensures forall a, b :: 0 <= a < |ps| && 0 <= b < |ps| && a != b ==> ps[a] != ps[b]
  {
  }

  lemma {:induction false} RowPairsAll<A, B>(x: A, i: nat, ys: seq<B>, m: nat, rel: (A, B) -> bool)
    requires m <= |ys|
    requires forall j :: 0 <= j < m ==> rel(x, ys[j])
    ensures |RowPairs(x, i, ys, m, rel)| == m
  {
    if m > 0 { RowPairsAll(x, i, ys, m - 1, rel); }
  }

  lemma {:induction false} JoinUpToAll<A, B>(xs: seq<A>, ys: seq<B>, n: nat, rel: (A, B) -> bool)
    requires n <= |xs|
    requires forall i, j :: 0 <= i < |xs| && 0 <= j < |ys| ==> rel(xs[i], ys[j])
    ensures |JoinUpTo(xs, ys, n, rel)| == n * |ys|
  {
    if n == 0 {
      assert JoinUpTo(xs, ys, 0, rel) == [];
    } else {
      JoinUpToAll(xs, ys, n - 1, rel);
      JoinUpToStep(xs, ys, n, rel);
    }
  }

  /** One more fully related left row adds |ys| pairs. */
  lemma JoinUpToStep<A, B>(xs: seq<A>, ys: seq<B>, n: nat, rel: (A, B) -> bool)
    requires 0 < n <= |xs|
    requires |JoinUpTo(xs, ys, n - 1, rel)| == (n - 1) * |ys|
    requires forall j :: 0 <= j < |ys| ==> rel(xs[n - 1], ys[j])
    ensures |JoinUpTo(xs, ys, n, rel)| == n * |ys|
  {
    RowPairsAll(xs[n - 1], n - 1, ys, |ys|, rel);
    JoinUpToLen(xs, ys, n, rel);
    MulStep(n, |ys|);
  }

  lemma JoinUpToLen<A, B>(xs: seq<A>, ys: seq<B>, n: nat, rel: (A, B) -> bool)
    requires 0 < n <= |xs|
    ensures |JoinUpTo(xs, ys, n, rel)| == |JoinUpTo(xs, ys, n - 1, rel)| + |RowPairs(xs[n - 1], n - 1, ys, |ys|, rel)|
  {
  }

  lemma MulStep(n: nat, k: nat)
    requires n > 0
    ensures (n - 1) * k + k == n * k
  {
  }

  /** When every left row relates to every right row the join is the full
      cross product: duplicates are not collapsed. */
  lemma CrossProduct<A, B>(xs: seq<A>, ys: seq<B>, rel: (A, B) -> bool)
    requires forall i, j :: 0 <= i < |xs| && 0 <= j < |ys| ==> rel(xs[i], ys[j])
    ensures |Join(xs, ys, rel)| == |xs| * |ys|
  {
    JoinUpToAll(xs, ys, |xs|, rel);
  }

  /** The pairs of `ps` that satisfy `keep`, in order (`df[mask]`). */
  function FilterPairs(ps: seq<(nat, nat)>, keep: ((nat, nat)) -> bool): (r: seq<(nat, nat)>)
    ensures forall p :: p in r <==> p in ps && keep(p)
    ensures StrictlySorted(ps) ==> StrictlySorted(r)
  {
    if ps == [] then []
    else
      var rest := FilterPairs(ps[1..], keep);
      assert forall p :: p in ps[1..] ==> p in ps;
      if keep(ps[0]) then
        assert StrictlySorted(ps) ==> forall p :: p in rest ==> PairLess(ps[0], p);
        [ps[0]] + rest
      else rest
  }

  /** Indices i < n of the left rows related to no right row, increasing. */
  function AntiJoinUpTo<A, B>(xs: seq<A>, ys: seq<B>, n: nat, rel: (A, B) -> bool): (r: seq<nat>)
    requires n <= |xs|
    ensures forall i :: i in r <==> 0 <= i < n && forall j :: 0 <= j < |ys| ==> !rel(xs[i], ys[j])
    ensures forall a, b :: 0 <= a < b < |r| ==> r[a] < r[b]
  {
    if n == 0 then []
    else
      var prev := AntiJoinUpTo(xs, ys, n - 1, rel);
      if forall j :: 0 <= j < |ys| ==> !rel(xs[n - 1], ys[j]) then
        assert forall a :: 0 <= a < |prev| ==> prev[a] in prev;
        prev + [n - 1]
      else prev
  }

  /** `xs.merge(ys, how="left", indicator=True)` kept to "left_only":
      each unrelated left row once, in order. */
  function AntiJoin<A, B>(xs: seq<A>, ys: seq<B>, rel: (A, B) -> bool): (r: seq<nat>)
    ensures forall i :: i in r <==> 0 <= i < |xs| && forall j :: 0 <= j < |ys| ==> !rel(xs[i], ys[j])
    ensures forall a, b :: 0 <= a < b < |r| ==> r[a] < r[b]
  {
    AntiJoinUpTo(xs, ys, |xs|, rel)
  }

  /** Two strictly sorted sequences of pairs with the same members are
      equal: the order of a join's output is determined by its members. */
  lemma {:induction false} SortedEqual(a: seq<(nat, nat)>, b: seq<(nat, nat)>)
    requires StrictlySorted(a) && StrictlySorted(b)
    requires forall p :: p in a <==> p in b
    ensures a == b
  {
    if a != [] {
      assert b != [] by { assert a[0] in b; }
      SortedHead(a, b);
      SortedTail(a);
      SortedTail(b);
      forall p ensures p in a[1..] <==> p in b[1..] {
        SortedMembers(a, p);
        SortedMembers(b, p);
      }
      SortedEqual(a[1..], b[1..]);
      assert a == [a[0]] + a[1..] && b == [b[0]] + b[1..];
    } else {
      NoMembers(b);
    }
  }

  /** A sequence without members is empty. */
  lemma NoMembers<T>(b: seq<T>)
    requires forall p :: p !in b
    ensures b == []
  {
    HeadIn(b);
  }

  lemma HeadIn<T>(b: seq<T>)
    ensures b != [] ==> b[0] in b
  {
  }

  /** The least members coincide. */
  lemma SortedHead(a: seq<(nat, nat)>, b: seq<(nat, nat)>)
    requires a != [] && b != [] && StrictlySorted(a) && StrictlySorted(b)
    requires forall p :: p in a <==> p in b
    ensures a[0] == b[0]
  {
    HeadLeast(a, b[0]);
    HeadLeast(b, a[0]);
  }

  /** The head of a strictly sorted sequence is below every other member. */
  lemma HeadLeast(a: seq<(nat, nat)>, p: (nat, nat))
    requires a != [] && StrictlySorted(a) && p in a
    ensures p == a[0] || PairLess(a[0], p)
  {
    var i :| 0 <= i < |a| && a[i] == p;
    if i > 0 {
      assert PairLess(a[0], a[i]);
    }
  }

  lemma SortedTail(a: seq<(nat, nat)>)
    requires a != [] && StrictlySorted(a)
    ensures StrictlySorted(a[1..])
  {
    forall x, y | 0 <= x < y < |a[1..]| ensures PairLess(a[1..][x], a[1..][y]) {
      assert a[1..][x] == a[x + 1] && a[1..][y] == a[y + 1];
    }
  }

  /** In a strictly sorted sequence the tail holds every member but the head. */
  lemma SortedMembers(a: seq<(nat, nat)>, p: (nat, nat))
    requires a != [] && StrictlySorted(a)
    ensures p in a[1..] <==> p in a && p != a[0]
  {
    if p in a[1..] {
      var i :| 0 <= i < |a[1..]| && a[1..][i] == p;
      assert a[i + 1] == p && PairLess(a[0], a[i + 1]);
    }
    if p in a && p != a[0] {
      var i :| 0 <= i < |a| && a[i] == p;
      assert a[1..][i - 1] == p;
    }
  }

  /** The pairs failing `keep`. */
  function Rejected(keep: ((nat, nat)) -> bool): ((nat, nat)) -> bool {
    p => !keep(p)
  }

  /** A mask and its complement split the rows between them. */
  lemma {:induction false} FilterSplit(ps: seq<(nat, nat)>, keep: ((nat, nat)) -> bool)
    ensures |FilterPairs(ps, keep)| + |FilterPairs(ps, Rejected(keep))| == |ps|
  {
    if ps != [] {
      FilterSplit(ps[1..], keep);
    }
  }
}
