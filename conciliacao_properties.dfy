/** What `conciliar_movimentos_db` (backend/utils/conciliacao.py) guarantees:
    the inner loop picks the first eligible unused ledger record of greatest
    score, provided that score beats the initial -1; the outer loop uses each
    ledger record at most once and gives each bank record at most one match;
    every status is 'conciliado'; the residual lists keep the input order and
    their lengths complement the match count. */
module ConciliacaoProperties {
  import opened Base
  import opened PyText
  import opened Dates
  import opened Conciliacao

  // ========================================================= the inner loop

  /** An unused, eligible ledger position below m. */
  predicate Open(e: Record, cont: seq<Record>, used: set<nat>, tol: real, thr: real,
                 ratio: (string, string) -> real, k: nat)
    requires e.valorLiq.Some? && Netted(cont) && k < |cont|
  {
    k !in used && Eligible(e, cont[k], tol, thr, ratio)
  }

  /** The inner loop keeps the first open candidate of greatest score, and
      only when that score is above -1; it keeps nothing exactly when no
      open candidate scores above -1. */
  lemma {:induction false} BestUpToSpec(e: Record, cont: seq<Record>, used: set<nat>, tol: real, thr: real,
                                        ratio: (string, string) -> real, m: nat)
    requires e.valorLiq.Some? && Netted(cont) && m <= |cont|
    ensures var b := BestUpTo(e, cont, used, tol, thr, ratio, m);
      && (b.0.None? <==> forall k :: 0 <= k < m && Open(e, cont, used, tol, thr, ratio, k) ==> Score(e, cont[k], ratio) <= NoMatch)
      && (b.0.None? ==> b.1 == NoMatch)
      && (b.0.Some? ==>
            var j := b.0.value;
            && j < m && Open(e, cont, used, tol, thr, ratio, j)
            && b.1 == Score(e, cont[j], ratio) && b.1 > NoMatch
            && (forall k :: 0 <= k < m && Open(e, cont, used, tol, thr, ratio, k) ==> Score(e, cont[k], ratio) <= b.1)
            && (forall k :: 0 <= k < j && Open(e, cont, used, tol, thr, ratio, k) ==> Score(e, cont[k], ratio) < b.1))
  {
    if m > 0 {
      BestUpToSpec(e, cont, used, tol, thr, ratio, m - 1);
    }
  }

  /** With the default tolerance and threshold (indeed whenever the tolerance
      is below 2 + threshold) every open candidate scores above -1, so a bank
      record with an open candidate always gets a match. */
  lemma {:induction false} SentinelHarmless(e: Record, cont: seq<Record>, used: set<nat>, tol: real, thr: real,
                                            ratio: (string, string) -> real, k: nat)
    requires e.valorLiq.Some? && Netted(cont) && k < |cont|
    requires tol < 2.0 + thr && Open(e, cont, used, tol, thr, ratio, k)
    ensures BestUpTo(e, cont, used, tol, thr, ratio, |cont|).0.Some?
  {
    BestUpToSpec(e, cont, used, tol, thr, ratio, |cont|);
  }

  /** With a tolerance of 3 an eligible candidate whose amount is 2.9 away
      and whose similarity is 0.6 scores -1.3: it cannot beat the initial
      -1, and the bank record stays unmatched. */
  lemma SentinelDropsEligible(e: Record, c: Record, ratio: (string, string) -> real)
    requires e.valorLiq == Some(0.0) && c.valorLiq == Some(2.9)
    requires e.dataMov == c.dataMov && |e.descritivo| > 0 && |c.descritivo| > 0
    requires ratio(e.descritivo, c.descritivo) == 0.6
    ensures Eligible(e, c, 3.0, DefaultThreshold, ratio)
    ensures BestUpTo(e, [c], {}, 3.0, DefaultThreshold, ratio, 1).0.None?
    ensures GreedyUpTo([e], [c], 3.0, DefaultThreshold, ratio, 1).matches == []
  {
    assert Score(e, c, ratio) == -1.3;
    assert BestUpTo(e, [c], {}, 3.0, DefaultThreshold, ratio, 0) == (None, NoMatch);
  }

  // ========================================================= the outer loop

  /** The ledger positions consumed by the pairs of bank rows before i. */
  function UsedBefore(pairs: seq<(nat, nat)>, i: nat): set<nat> {
    set q | 0 <= q < |pairs| && pairs[q].0 < i :: pairs[q].1
  }

  /** The bank rows that got a match. */
  function Firsts(pairs: seq<(nat, nat)>): set<nat> {
    set q | 0 <= q < |pairs| :: pairs[q].0
  }

  /** The pairs stay in range, the bank records strictly increase (each at
      most once, in input order) and no ledger record occurs twice. */
  predicate PairsShape(pairs: seq<(nat, nat)>, n: nat, m: nat) {
    && (forall q :: 0 <= q < |pairs| ==> pairs[q].0 < n && pairs[q].1 < m)
    && (forall a, b :: 0 <= a < b < |pairs| ==> pairs[a].0 < pairs[b].0)
    && (forall a, b :: 0 <= a < b < |pairs| ==> pairs[a].1 != pairs[b].1)
  }

  /** Every pair is the choice the inner loop made at that bank record's
      turn, over the ledger records still unused then, and is eligible. */
  predicate PairsChosen(ext: seq<Record>, cont: seq<Record>, tol: real, thr: real,
                        ratio: (string, string) -> real, pairs: seq<(nat, nat)>, matches: seq<Match>)
    requires Netted(ext) && Netted(cont) && |pairs| == |matches|
    requires forall q :: 0 <= q < |pairs| ==> pairs[q].0 < |ext| && pairs[q].1 < |cont|
  {
    forall q :: 0 <= q < |pairs| ==>
      && matches[q] == MatchOf(ext[pairs[q].0], cont[pairs[q].1], tol)
      && Eligible(ext[pairs[q].0], cont[pairs[q].1], tol, thr, ratio)
      && pairs[q].1 !in UsedBefore(pairs, pairs[q].0)
      && BestUpTo(ext[pairs[q].0], cont, UsedBefore(pairs, pairs[q].0), tol, thr, ratio, |cont|).0
         == Some(pairs[q].1)
  }

  /** A bank record below n without a match had no candidate beating -1 at
      its turn. */
  predicate NoneLeft(ext: seq<Record>, cont: seq<Record>, tol: real, thr: real,
                     ratio: (string, string) -> real, pairs: seq<(nat, nat)>, n: nat)
    requires Netted(ext) && Netted(cont) && n <= |ext|
  {
    forall i :: 0 <= i < n && i !in Firsts(pairs) ==>
      BestUpTo(ext[i], cont, UsedBefore(pairs, i), tol, thr, ratio, |cont|).0.None?
  }

  /** What the greedy loop maintains after n bank records. */
  predicate GreedyInv(ext: seq<Record>, cont: seq<Record>, tol: real, thr: real,
                      ratio: (string, string) -> real, n: nat, g: Greedy)
    requires Netted(ext) && Netted(cont) && n <= |ext|
  {
    && |g.pairs| == |g.matches|
    && PairsShape(g.pairs, n, |cont|)
    && g.used == UsedBefore(g.pairs, n)
    && PairsChosen(ext, cont, tol, thr, ratio, g.pairs, g.matches)
    && NoneLeft(ext, cont, tol, thr, ratio, g.pairs, n)
  }

  lemma {:induction false} GreedyFacts(ext: seq<Record>, cont: seq<Record>, tol: real, thr: real,
                                       ratio: (string, string) -> real, n: nat)
    requires Netted(ext) && Netted(cont) && n <= |ext|
    ensures GreedyInv(ext, cont, tol, thr, ratio, n, GreedyUpTo(ext, cont, tol, thr, ratio, n))
  {
    if n == 0 {
      assert UsedBefore([], 0) == {};
    } else {
      var g := GreedyUpTo(ext, cont, tol, thr, ratio, n - 1);
      GreedyFacts(ext, cont, tol, thr, ratio, n - 1);
      var b := BestUpTo(ext[n - 1], cont, g.used, tol, thr, ratio, |cont|);
      if b.0.None? {
        assert GreedyUpTo(ext, cont, tol, thr, ratio, n) == g;
        GreedySkip(ext, cont, tol, thr, ratio, n, g);
      } else {
        var j := b.0.value;
        BestUpToSpec(ext[n - 1], cont, g.used, tol, thr, ratio, |cont|);
        assert GreedyUpTo(ext, cont, tol, thr, ratio, n)
          == Greedy(g.pairs + [(n - 1, j)], g.used + {j}, g.matches + [MatchOf(ext[n - 1], cont[j], tol)]);
        GreedyTake(ext, cont, tol, thr, ratio, n, g, j);
      }
    }
  }

  /** A bank record without a match leaves the state as it was. */
  lemma GreedySkip(ext: seq<Record>, cont: seq<Record>, tol: real, thr: real,
                   ratio: (string, string) -> real, n: nat, g: Greedy)
    requires Netted(ext) && Netted(cont) && 0 < n <= |ext|
    requires GreedyInv(ext, cont, tol, thr, ratio, n - 1, g)
    requires BestUpTo(ext[n - 1], cont, g.used, tol, thr, ratio, |cont|).0.None?
    ensures GreedyInv(ext, cont, tol, thr, ratio, n, g)
  {
    assert UsedBefore(g.pairs, n) == UsedBefore(g.pairs, n - 1);
    assert n - 1 !in Firsts(g.pairs);
  }

  /** A bank record matched to ledger position j extends the state. */
  lemma GreedyTake(ext: seq<Record>, cont: seq<Record>, tol: real, thr: real,
                   ratio: (string, string) -> real, n: nat, g: Greedy, j: nat)
    requires Netted(ext) && Netted(cont) && 0 < n <= |ext| && j < |cont|
    requires GreedyInv(ext, cont, tol, thr, ratio, n - 1, g)
    requires BestUpTo(ext[n - 1], cont, g.used, tol, thr, ratio, |cont|).0 == Some(j)
    requires j !in g.used && Eligible(ext[n - 1], cont[j], tol, thr, ratio)
    ensures GreedyInv(ext, cont, tol, thr, ratio, n,
                      Greedy(g.pairs + [(n - 1, j)], g.used + {j}, g.matches + [MatchOf(ext[n - 1], cont[j], tol)]))
  {
    var ps := g.pairs + [(n - 1, j)];
    var ms := g.matches + [MatchOf(ext[n - 1], cont[j], tol)];
    TakeShape(g.pairs, n, |cont|, j, g.used);
    UsedBeforeStep(g.pairs, n - 1, j);
    TakeChosen(ext, cont, tol, thr, ratio, n, g, j);
    TakeNoneLeft(ext, cont, tol, thr, ratio, n, g, j);
  }

  lemma TakeShape(pairs: seq<(nat, nat)>, n: nat, m: nat, j: nat, used: set<nat>)
    requires 0 < n && j < m && PairsShape(pairs, n - 1, m)
    requires used == UsedBefore(pairs, n - 1) && j !in used
    ensures PairsShape(pairs + [(n - 1, j)], n, m)
  {
    var ps := pairs + [(n - 1, j)];
    forall a, b | 0 <= a < b < |ps| ensures ps[a].1 != ps[b].1 {
      if b == |pairs| {
        assert ps[a] == pairs[a];
        assert pairs[a].1 in UsedBefore(pairs, n - 1);
      }
    }
  }

  lemma TakeChosen(ext: seq<Record>, cont: seq<Record>, tol: real, thr: real,
                   ratio: (string, string) -> real, n: nat, g: Greedy, j: nat)
    requires Netted(ext) && Netted(cont) && 0 < n <= |ext| && j < |cont|
    requires GreedyInv(ext, cont, tol, thr, ratio, n - 1, g)
    requires BestUpTo(ext[n - 1], cont, g.used, tol, thr, ratio, |cont|).0 == Some(j)
    requires j !in g.used && Eligible(ext[n - 1], cont[j], tol, thr, ratio)
    ensures var ps := g.pairs + [(n - 1, j)];
      && (forall q :: 0 <= q < |ps| ==> ps[q].0 < |ext| && ps[q].1 < |cont|)
      && PairsChosen(ext, cont, tol, thr, ratio, ps, g.matches + [MatchOf(ext[n - 1], cont[j], tol)])
  {
    var ps := g.pairs + [(n - 1, j)];
    var ms := g.matches + [MatchOf(ext[n - 1], cont[j], tol)];
    assert forall q :: 0 <= q < |ps| ==> ps[q].0 < |ext| && ps[q].1 < |cont|;
    forall q | 0 <= q < |ps|
      ensures && ms[q] == MatchOf(ext[ps[q].0], cont[ps[q].1], tol)
              && Eligible(ext[ps[q].0], cont[ps[q].1], tol, thr, ratio)
              && ps[q].1 !in UsedBefore(ps, ps[q].0)
              && BestUpTo(ext[ps[q].0], cont, UsedBefore(ps, ps[q].0), tol, thr, ratio, |cont|).0 == Some(ps[q].1)
    {
      UsedBeforeAppend(g.pairs, n - 1, j, ps[q].0);
      if q < |g.pairs| {
        assert ps[q] == g.pairs[q] && ms[q] == g.matches[q];
      } else {
        assert ps[q] == (n - 1, j) && ms[q] == MatchOf(ext[n - 1], cont[j], tol);
      }
    }
  }

  lemma FirstsGrow(pairs: seq<(nat, nat)>, p: (nat, nat))
    ensures Firsts(pairs) <= Firsts(pairs + [p])
  {
    forall x | x in Firsts(pairs) ensures x in Firsts(pairs + [p]) {
      var q :| 0 <= q < |pairs| && pairs[q].0 == x;
      assert (pairs + [p])[q].0 == x;
    }
  }

  lemma TakeNoneLeft(ext: seq<Record>, cont: seq<Record>, tol: real, thr: real,
                     ratio: (string, string) -> real, n: nat, g: Greedy, j: nat)
    requires Netted(ext) && Netted(cont) && 0 < n <= |ext|
    requires NoneLeft(ext, cont, tol, thr, ratio, g.pairs, n - 1)
    ensures NoneLeft(ext, cont, tol, thr, ratio, g.pairs + [(n - 1, j)], n)
  {
    var ps := g.pairs + [(n - 1, j)];
    assert n - 1 in Firsts(ps) by { assert ps[|g.pairs|].0 == n - 1; }
    forall i | 0 <= i < n && i !in Firsts(ps)
      ensures BestUpTo(ext[i], cont, UsedBefore(ps, i), tol, thr, ratio, |cont|).0.None?
    {
      UsedBeforeAppend(g.pairs, n - 1, j, i);
      FirstsGrow(g.pairs, (n - 1, j));
    }
  }

  lemma UsedBeforeAppend(pairs: seq<(nat, nat)>, k: nat, j: nat, i: nat)
    requires i <= k
    ensures UsedBefore(pairs + [(k, j)], i) == UsedBefore(pairs, i)
  {
    var ps := pairs + [(k, j)];
    forall x | x in UsedBefore(ps, i) ensures x in UsedBefore(pairs, i) {
      var q :| 0 <= q < |ps| && ps[q].0 < i && ps[q].1 == x;
      assert q < |pairs| && pairs[q] == ps[q];
    }
    forall x | x in UsedBefore(pairs, i) ensures x in UsedBefore(ps, i) {
      var q :| 0 <= q < |pairs| && pairs[q].0 < i && pairs[q].1 == x;
      assert ps[q] == pairs[q];
    }
  }

  lemma UsedBeforeStep(pairs: seq<(nat, nat)>, k: nat, j: nat)
    requires forall q :: 0 <= q < |pairs| ==> pairs[q].0 < k
    ensures UsedBefore(pairs + [(k, j)], k + 1) == UsedBefore(pairs, k) + {j}
  {
    var ps := pairs + [(k, j)];
    forall x | x in UsedBefore(ps, k + 1) ensures x in UsedBefore(pairs, k) + {j} {
      var q :| 0 <= q < |ps| && ps[q].0 < k + 1 && ps[q].1 == x;
      if q < |pairs| { assert pairs[q] == ps[q]; }
    }
    forall x | x in UsedBefore(pairs, k) + {j} ensures x in UsedBefore(ps, k + 1) {
      if x == j {
        assert ps[|pairs|] == (k, j);
      } else {
        var q :| 0 <= q < |pairs| && pairs[q].0 < k && pairs[q].1 == x;
        assert ps[q] == pairs[q];
      }
    }
  }

  /** No ledger record is used twice and no bank record matched twice:
      the ids of `conciliados` are distinct on both sides when the input ids
      are. */
  lemma {:induction false} Exclusive(ext: seq<Record>, cont: seq<Record>, tol: real, thr: real,
                                     ratio: (string, string) -> real)
    requires Netted(ext) && Netted(cont)
    requires UniqueIds(ext) && UniqueIds(cont)
    ensures var ms := GreedyUpTo(ext, cont, tol, thr, ratio, |ext|).matches;
      forall a, b :: 0 <= a < b < |ms| ==> ms[a].extratoId != ms[b].extratoId && ms[a].contabilidadeId != ms[b].contabilidadeId
  {
    GreedyFacts(ext, cont, tol, thr, ratio, |ext|);
  }

  /** Every record of `conciliados` is 'conciliado': eligibility already
      bounds the amount difference by the tolerance, so the 'diferença'
      branch is never taken. */
  lemma {:induction false} AlwaysConciliado(ext: seq<Record>, cont: seq<Record>, tol: real, thr: real,
                                            ratio: (string, string) -> real)
    requires Netted(ext) && Netted(cont)
    ensures var ms := GreedyUpTo(ext, cont, tol, thr, ratio, |ext|).matches;
      forall q :: 0 <= q < |ms| ==>
        ms[q].status == Conciliado && Abs(ms[q].extratoValorLiq - ms[q].contabValorLiq) <= tol
  {
    GreedyFacts(ext, cont, tol, thr, ratio, |ext|);
  }

  // =============================================================== residuals

  predicate UniqueIds(rs: seq<Record>) {
    forall a, b :: 0 <= a < b < |rs| ==> rs[a].id != rs[b].id
  }

  function Ids(rs: seq<Record>): set<int> {
    set k | 0 <= k < |rs| :: rs[k].id
  }

  /** The residual comprehension keeps exactly the records whose id is not
      among the matched ids. */
  lemma {:induction false} WithoutMembers(rs: seq<Record>, ids: set<int>)
    ensures forall x :: x in Without(rs, ids) <==> x in rs && x.id !in ids
  {
    if rs != [] {
      var init := rs[..|rs| - 1];
      WithoutMembers(init, ids);
      assert rs == init + [rs[|rs| - 1]];
    }
  }

  /** ... and keeps them in input order: filtering a concatenation filters
      each part. */
  lemma {:induction false} WithoutConcat(a: seq<Record>, b: seq<Record>, ids: set<int>)
    ensures Without(a + b, ids) == Without(a, ids) + Without(b, ids)
    decreases |b|
  {
    if b == [] {
      assert a + b == a;
    } else {
      var b' := b[..|b| - 1];
      assert (a + b)[..|a + b| - 1] == a + b';
      WithoutConcat(a, b', ids);
    }
  }

  /** The ids of a list are those of its front and the id of its last record. */
  lemma IdsSnoc(rs: seq<Record>)
    requires rs != []
    ensures Ids(rs) == Ids(rs[..|rs| - 1]) + {rs[|rs| - 1].id}
  {
    var init := rs[..|rs| - 1];
    forall y | y in Ids(rs) ensures y in Ids(init) + {rs[|rs| - 1].id} {
      var k :| 0 <= k < |rs| && rs[k].id == y;
      if k < |rs| - 1 { assert init[k] == rs[k]; }
    }
    forall y | y in Ids(init) ensures y in Ids(rs) {
      var k :| 0 <= k < |init| && init[k].id == y;
      assert rs[k] == init[k];
    }
  }

  /** Adding a fresh id to a set of ids adds one to the matched count when
      the id is matched, and nothing otherwise. */
  lemma MatchedCountStep(ids: set<int>, before: set<int>, y: int)
    requires y !in before
    ensures |ids * (before + {y})| == |ids * before| + (if y in ids then 1 else 0)
  {
    if y in ids {
      assert ids * (before + {y}) == (ids * before) + {y};
    } else {
      assert ids * (before + {y}) == ids * before;
    }
  }

  /** With distinct ids, the residual list has one record less per
      matched id that occurs in the input. */
  lemma {:induction false} WithoutCount(rs: seq<Record>, ids: set<int>)
    requires UniqueIds(rs)
    ensures |Without(rs, ids)| + |ids * Ids(rs)| == |rs|
  {
    if rs != [] {
      var init := rs[..|rs| - 1];
      var x := rs[|rs| - 1];
      assert UniqueIds(init);
      WithoutCount(init, ids);
      IdsSnoc(rs);
      assert x.id !in Ids(init);
      MatchedCountStep(ids, Ids(init), x.id);
    } else {
      assert Ids(rs) == {};
    }
  }

  /** The set of elements of a sequence of ids. */
  function Image(xs: seq<int>): set<int> {
    set k | 0 <= k < |xs| :: xs[k]
  }

  /** Distinct ids number as many as the sequence is long. */
  lemma {:induction false} DistinctCount(xs: seq<int>)
    requires forall a, b :: 0 <= a < b < |xs| ==> xs[a] != xs[b]
    ensures |Image(xs)| == |xs|
  {
    if xs != [] {
      var init := xs[..|xs| - 1];
      DistinctCount(init);
      assert Image(xs) == Image(init) + {xs[|xs| - 1]} by {
        forall y | y in Image(xs) ensures y in Image(init) + {xs[|xs| - 1]} {
          var k :| 0 <= k < |xs| && xs[k] == y;
          if k < |xs| - 1 { assert init[k] == xs[k]; }
        }
        forall y | y in Image(init) ensures y in Image(xs) {
          var k :| 0 <= k < |init| && init[k] == y;
          assert xs[k] == init[k];
        }
      }
      assert xs[|xs| - 1] !in Image(init);
    } else {
      assert Image(xs) == {};
    }
  }

  /** Matches whose ids are those of distinct records carry distinct ids,
      all of them ids of those records. */
  lemma {:induction false} MatchIdsCount(rs: seq<Record>, pos: seq<nat>, ids: seq<int>)
    requires UniqueIds(rs) && |pos| == |ids|
    requires forall q :: 0 <= q < |pos| ==> pos[q] < |rs| && ids[q] == rs[pos[q]].id
    requires forall a, b :: 0 <= a < b < |pos| ==> pos[a] != pos[b]
    ensures Image(ids) <= Ids(rs) && |Image(ids)| == |ids|
  {
    forall a, b | 0 <= a < b < |ids| ensures ids[a] != ids[b] {
      var x, y := pos[a], pos[b];
      if x < y { assert rs[x].id != rs[y].id; } else { assert rs[y].id != rs[x].id; }
    }
    DistinctCount(ids);
    forall y | y in Image(ids) ensures y in Ids(rs) {
      var q :| 0 <= q < |ids| && ids[q] == y;
      assert rs[pos[q]].id == y;
    }
  }

  /** The bank ids of `conciliados` are distinct ids of bank records. */
  lemma {:induction false} ExtIdsCount(ext: seq<Record>, cont: seq<Record>, tol: real, thr: real,
                                       ratio: (string, string) -> real)
    requires Netted(ext) && Netted(cont) && UniqueIds(ext)
    ensures var ms := GreedyUpTo(ext, cont, tol, thr, ratio, |ext|).matches;
      ExtIds(ms) <= Ids(ext) && |ExtIds(ms)| == |ms|
  {
    var g := GreedyUpTo(ext, cont, tol, thr, ratio, |ext|);
    GreedyFacts(ext, cont, tol, thr, ratio, |ext|);
    var ms := g.matches;
    var pos := seq(|ms|, q requires 0 <= q < |ms| => g.pairs[q].0);
    var ids := seq(|ms|, q requires 0 <= q < |ms| => ms[q].extratoId);
    MatchIdsCount(ext, pos, ids);
    ImageIsExtIds(ms, ids);
  }

  /** The ledger ids of `conciliados` are distinct ids of ledger records. */
  lemma {:induction false} ContIdsCount(ext: seq<Record>, cont: seq<Record>, tol: real, thr: real,
                                        ratio: (string, string) -> real)
    requires Netted(ext) && Netted(cont) && UniqueIds(cont)
    ensures var ms := GreedyUpTo(ext, cont, tol, thr, ratio, |ext|).matches;
      ContIds(ms) <= Ids(cont) && |ContIds(ms)| == |ms|
  {
    var g := GreedyUpTo(ext, cont, tol, thr, ratio, |ext|);
    GreedyFacts(ext, cont, tol, thr, ratio, |ext|);
    var ms := g.matches;
    var pos := seq(|ms|, q requires 0 <= q < |ms| => g.pairs[q].1);
    var ids := seq(|ms|, q requires 0 <= q < |ms| => ms[q].contabilidadeId);
    MatchIdsCount(cont, pos, ids);
    ImageIsContIds(ms, ids);
  }

  lemma ImageIsExtIds(ms: seq<Match>, ids: seq<int>)
    requires |ids| == |ms| && forall q :: 0 <= q < |ms| ==> ids[q] == ms[q].extratoId
    ensures ExtIds(ms) == Image(ids)
  {
    forall y | y in ExtIds(ms) ensures y in Image(ids) {
      var m :| m in ms && m.extratoId == y;
      var q :| 0 <= q < |ms| && ms[q] == m;
      assert ids[q] == y;
    }
  }

  lemma ImageIsContIds(ms: seq<Match>, ids: seq<int>)
    requires |ids| == |ms| && forall q :: 0 <= q < |ms| ==> ids[q] == ms[q].contabilidadeId
    ensures ContIds(ms) == Image(ids)
  {
    forall y | y in ContIds(ms) ensures y in Image(ids) {
      var m :| m in ms && m.contabilidadeId == y;
      var q :| 0 <= q < |ms| && ms[q] == m;
      assert ids[q] == y;
    }
  }

  /** The summary: with distinct ids on each side, `conciliados +
      somente_extrato == total_extrato` and `conciliados +
      somente_contabilidade == total_contabilidade`. */
  lemma {:induction false} SummaryCounts(ext: seq<Record>, cont: seq<Record>, tol: real, thr: real,
                                         ratio: (string, string) -> real)
    requires Netted(ext) && Netted(cont) && UniqueIds(ext) && UniqueIds(cont)
    ensures var o := Matched(ext, cont, tol, thr, ratio);
      && o.summary.totalExtrato == |ext| && o.summary.totalContabilidade == |cont|
      && o.summary.conciliados + o.summary.somenteExtrato == o.summary.totalExtrato
      && o.summary.conciliados + o.summary.somenteContabilidade == o.summary.totalContabilidade
  {
    var ms := GreedyUpTo(ext, cont, tol, thr, ratio, |ext|).matches;
    ExtIdsCount(ext, cont, tol, thr, ratio);
    ContIdsCount(ext, cont, tol, thr, ratio);
    assert ExtIds(ms) * Ids(ext) == ExtIds(ms);
    assert ContIds(ms) * Ids(cont) == ContIds(ms);
    WithoutCount(ext, ExtIds(ms));
    WithoutCount(cont, ContIds(ms));
  }

  // ================================================================ records

  /** `format_data` writes a "%Y-%m-%d" date back unchanged. */
  lemma FormatDataIso(dt: Date)
    requires ValidDate(dt)
    ensures FormatData(Some(FormatIso(dt))) == Some(FormatIso(dt))
  {
    IsoRoundTrip(dt);
  }

  /** `format_data` turns a "%d/%m/%Y" date into "%Y-%m-%d". */
  lemma FormatDataDmy(dt: Date)
    requires ValidDate(dt)
    ensures FormatData(Some(FormatDmy(dt))) == Some(FormatIso(dt))
  {
    DmyRoundTrip(dt);
    assert FormatDmy(dt)[4] != '-';
  }

  /** Formatting twice is formatting once: a date comes out in the form
      `format_data` itself accepts, anything else comes out unchanged. */
  lemma FormatDataIdempotent(d: Option<string>)
    ensures FormatData(FormatData(d)) == FormatData(d)
  {
    if d.Some? && |d.value| > 0 {
      match ParseIso(d.value)
      case Some(dt) => IsoRoundTrip(dt);
      case None =>
        match ParseDmy(d.value)
        case Some(dt) => IsoRoundTrip(dt);
        case None =>
    }
  }

  /** A converted record's description is upper-cased and stripped. */
  lemma DescritivoShape(r: DbRow)
    requires ToRecord(r).Ok?
    ensures var t := ToRecord(r).value.descritivo;
      && (t != [] ==> !IsSpace(t[0]) && !IsSpace(t[|t| - 1]))
      && forall c :: c in t ==> !IsAsciiLower(c)
  {
    UpperNoAsciiLower(if r.descritivo.Some? then r.descritivo.value else "");
  }
}
