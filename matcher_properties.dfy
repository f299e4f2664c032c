/** What `reconcile_movements` promises about its result: the exact
    matches are the merged pairs, the fuzzy matches and the suggestions are
    the stage-2 decisions of the rows left open by stage 1, the unmatched
    lists are the rows no match flagged, and the summary counts the lists.

    Neither stage is exclusive on the ledger side: stage 1 emits every
    merged pair, and stage 2 chooses among the ledger rows open after
    stage 1, so one ledger row can be matched by several bank rows. */
module MatcherProperties {
  import opened Base
  import opened Numbers
  import opened Joins
  import opened MovementMatcher

  // ------------------------------------------------------------ stage 1

  /** Entry q of stage 1 is the entry of merged pair q: two rows with equal
      amounts and equal movement dates, amount and date differences 0. */
  lemma {:induction false} ExactSound(ext: seq<Movement>, cont: seq<Movement>, sim: (string, string) -> real, q: nat)
    requires q < |Join(ext, cont, SameKey)|
    ensures var m := ExactMatches(ext, cont, sim)[q];
      && (m.extIdx, m.contIdx) == Join(ext, cont, SameKey)[q]
      && m.extIdx < |ext| && m.contIdx < |cont| && SameKey(ext[m.extIdx], cont[m.contIdx])
      && m.status == MatchedExact && m.amountDiff == 0.0 && m.dateDiff == Some(0)
      && m.amount == ext[m.extIdx].amount && m.similarity == sim(ext[m.extIdx].desc, cont[m.contIdx].desc)
  {
    var ps := Join(ext, cont, SameKey);
    JoinInRange(ext, cont);
    ExactEntryAt(ext, cont, ps, sim, |ps|, q);
    JoinAt(ext, cont, SameKey, q);
  }

  /** Every pair of rows with equal amounts and equal movement dates has a
      `matched_exact` entry. */
  lemma {:induction false} ExactComplete(ext: seq<Movement>, cont: seq<Movement>, sim: (string, string) -> real,
                                         i: nat, j: nat)
    requires i < |ext| && j < |cont| && SameKey(ext[i], cont[j])
    ensures exists q :: (0 <= q < |ExactMatches(ext, cont, sim)|
      && ExactMatches(ext, cont, sim)[q].extIdx == i && ExactMatches(ext, cont, sim)[q].contIdx == j)
  {
    JoinHas(ext, cont, SameKey, i, j);
    var q :| 0 <= q < |Join(ext, cont, SameKey)| && Join(ext, cont, SameKey)[q] == (i, j);
    ExactSound(ext, cont, sim, q);
  }

  /** No two `matched_exact` entries are for the same pair of rows. */
  lemma {:induction false} ExactDistinct(ext: seq<Movement>, cont: seq<Movement>, sim: (string, string) -> real,
                                         a: nat, b: nat)
    requires a < b < |ExactMatches(ext, cont, sim)|
    ensures var ms := ExactMatches(ext, cont, sim);
      (ms[a].extIdx, ms[a].contIdx) != (ms[b].extIdx, ms[b].contIdx)
  {
    var ps := Join(ext, cont, SameKey);
    ExactSound(ext, cont, sim, a);
    ExactSound(ext, cont, sim, b);
    assert PairLess(ps[a], ps[b]);
  }

  /** No "already used" check in stage 1: a bank row with two ledger rows
      of its amount and date gets two `matched_exact` entries. */
  lemma {:induction false} ExactRepeatsBankRow(ext: seq<Movement>, cont: seq<Movement>, sim: (string, string) -> real,
                                               i: nat, j1: nat, j2: nat)
    requires i < |ext| && j1 < j2 < |cont| && SameKey(ext[i], cont[j1]) && SameKey(ext[i], cont[j2])
    ensures exists q1, q2 :: (0 <= q1 < |ExactMatches(ext, cont, sim)| && 0 <= q2 < |ExactMatches(ext, cont, sim)|
      && q1 != q2 && ExactMatches(ext, cont, sim)[q1].extIdx == i && ExactMatches(ext, cont, sim)[q2].extIdx == i)
  {
    var ms := ExactMatches(ext, cont, sim);
    ExactComplete(ext, cont, sim, i, j1);
    var q1 :| 0 <= q1 < |ms| && ms[q1].extIdx == i && ms[q1].contIdx == j1;
    ExactComplete(ext, cont, sim, i, j2);
    var q2 :| 0 <= q2 < |ms| && ms[q2].extIdx == i && ms[q2].contIdx == j2;
    assert q1 != q2;
  }

  /** When every row has the same amount and date, stage 1 emits the full
      cross product. */
  lemma {:induction false} ExactCrossProduct(ext: seq<Movement>, cont: seq<Movement>, sim: (string, string) -> real)
    requires forall i, j :: 0 <= i < |ext| && 0 <= j < |cont| ==> SameKey(ext[i], cont[j])
    ensures |ExactMatches(ext, cont, sim)| == |ext| * |cont|
  {
    CrossProduct(ext, cont, SameKey);
  }

  // ------------------------------------------------------------ stage 2

  /** The decision of every bank row, each taken on the ledger flags left by
      stage 1. */
  function Outcomes(ext: seq<Movement>, cont: seq<Movement>, hitExt: seq<bool>, hitCont: seq<bool>,
                    tol: real, thr: real, sim: (string, string) -> real): (os: seq<Outcome>)
    requires |hitExt| == |ext| && |hitCont| == |cont|
    ensures |os| == |ext|
    ensures forall i :: 0 <= i < |ext| ==> os[i] == RowOutcome(ext, cont, hitExt, hitCont, tol, thr, sim, i)
  {
    seq(|ext|, i requires 0 <= i < |ext| => RowOutcome(ext, cont, hitExt, hitCont, tol, thr, sim, i))
  }

  predicate ValidOutcomes(os: seq<Outcome>, m: nat) {
    forall i :: 0 <= i < |os| && !os[i].NoDecision? ==> os[i].j < m
  }

  /** Stage 2 replayed from given decisions: what its loop does with the
      decisions of the first n bank rows. */
  function Replay(ext: seq<Movement>, cont: seq<Movement>, sim: (string, string) -> real, os: seq<Outcome>,
                  hitExt: seq<bool>, hitCont: seq<bool>, n: nat): (st: Stage)
    requires |os| == |ext| == |hitExt| && |hitCont| == |cont| && n <= |ext| && ValidOutcomes(os, |cont|)
    ensures |st.extFlags| == |ext| && |st.contFlags| == |cont|
  {
    if n == 0 then Stage([], [], hitExt, hitCont)
    else
      var st := Replay(ext, cont, sim, os, hitExt, hitCont, n - 1);
      var i := n - 1;
      match os[i]
      case Accept(j) =>
        Stage(st.fuzzy + [PairEntry(i, ext[i], j, cont[j], sim, MatchedFuzzy)], st.potential,
              st.extFlags[i := true], st.contFlags[j := true])
      case Suggest(j) =>
        Stage(st.fuzzy, st.potential + [PairEntry(i, ext[i], j, cont[j], sim, Potential)],
              st.extFlags, st.contFlags)
      case NoDecision => st
  }

  lemma {:induction false} OutcomesValid(ext: seq<Movement>, cont: seq<Movement>, hitExt: seq<bool>, hitCont: seq<bool>,
                                         tol: real, thr: real, sim: (string, string) -> real)
    requires |hitExt| == |ext| && |hitCont| == |cont|
    ensures ValidOutcomes(Outcomes(ext, cont, hitExt, hitCont, tol, thr, sim), |cont|)
  {
    var os := Outcomes(ext, cont, hitExt, hitCont, tol, thr, sim);
    forall i | 0 <= i < |os| && !os[i].NoDecision? ensures os[i].j < |cont| {
      assert os[i] == RowOutcome(ext, cont, hitExt, hitCont, tol, thr, sim, i);
    }
  }

  /** Stage 2 is the replay of its own decisions. */
  lemma {:induction false} Stage2Replays(ext: seq<Movement>, cont: seq<Movement>, hitExt: seq<bool>, hitCont: seq<bool>,
                                         tol: real, thr: real, sim: (string, string) -> real, n: nat)
    requires |hitExt| == |ext| && |hitCont| == |cont| && n <= |ext|
    ensures ValidOutcomes(Outcomes(ext, cont, hitExt, hitCont, tol, thr, sim), |cont|)
    ensures Stage2(ext, cont, hitExt, hitCont, tol, thr, sim, n)
      == Replay(ext, cont, sim, Outcomes(ext, cont, hitExt, hitCont, tol, thr, sim), hitExt, hitCont, n)
  {
    OutcomesValid(ext, cont, hitExt, hitCont, tol, thr, sim);
    if n > 0 {
      Stage2Replays(ext, cont, hitExt, hitCont, tol, thr, sim, n - 1);
    }
  }

  /** A bank row is flagged after the replay exactly when it was flagged
      before or its decision is an acceptance. */
  lemma {:induction false} ReplayExtFlag(ext: seq<Movement>, cont: seq<Movement>, sim: (string, string) -> real,
                                         os: seq<Outcome>, hitExt: seq<bool>, hitCont: seq<bool>, n: nat, x: nat)
    requires |os| == |ext| == |hitExt| && |hitCont| == |cont| && n <= |ext| && ValidOutcomes(os, |cont|) && x < |ext|
    ensures Replay(ext, cont, sim, os, hitExt, hitCont, n).extFlags[x] <==> hitExt[x] || (x < n && os[x].Accept?)
  {
    if n > 0 {
      ReplayExtFlag(ext, cont, sim, os, hitExt, hitCont, n - 1, x);
    }
  }

  /** A ledger row is flagged after the replay exactly when it was flagged
      before or some decision accepts it. */
  lemma {:induction false} ReplayContFlag(ext: seq<Movement>, cont: seq<Movement>, sim: (string, string) -> real,
                                          os: seq<Outcome>, hitExt: seq<bool>, hitCont: seq<bool>, n: nat, y: nat)
    requires |os| == |ext| == |hitExt| && |hitCont| == |cont| && n <= |ext| && ValidOutcomes(os, |cont|) && y < |cont|
    ensures Replay(ext, cont, sim, os, hitExt, hitCont, n).contFlags[y]
      <==> hitCont[y] || exists x :: 0 <= x < n && os[x] == Accept(y)
  {
    if n > 0 {
      ReplayContFlag(ext, cont, sim, os, hitExt, hitCont, n - 1, y);
      if os[n - 1] == Accept(y) {
        assert exists x :: 0 <= x < n && os[x] == Accept(y);
      }
    }
  }

  /** Every fuzzy entry of the replay records an acceptance. */
  lemma {:induction false} ReplayFuzzy(ext: seq<Movement>, cont: seq<Movement>, sim: (string, string) -> real,
                                       os: seq<Outcome>, hitExt: seq<bool>, hitCont: seq<bool>, n: nat, q: nat)
    requires |os| == |ext| == |hitExt| && |hitCont| == |cont| && n <= |ext| && ValidOutcomes(os, |cont|)
    requires q < |Replay(ext, cont, sim, os, hitExt, hitCont, n).fuzzy|
    ensures var m := Replay(ext, cont, sim, os, hitExt, hitCont, n).fuzzy[q];
      && m.extIdx < n && os[m.extIdx] == Accept(m.contIdx) && m.contIdx < |cont|
      && m == PairEntry(m.extIdx, ext[m.extIdx], m.contIdx, cont[m.contIdx], sim, MatchedFuzzy)
  {
    if n > 0 {
      var prev := Replay(ext, cont, sim, os, hitExt, hitCont, n - 1);
      if q < |prev.fuzzy| {
        ReplayFuzzy(ext, cont, sim, os, hitExt, hitCont, n - 1, q);
      }
    }
  }

  /** Every suggestion of the replay records a suggested decision. */
  lemma {:induction false} ReplayPotential(ext: seq<Movement>, cont: seq<Movement>, sim: (string, string) -> real,
                                           os: seq<Outcome>, hitExt: seq<bool>, hitCont: seq<bool>, n: nat, q: nat)
    requires |os| == |ext| == |hitExt| && |hitCont| == |cont| && n <= |ext| && ValidOutcomes(os, |cont|)
    requires q < |Replay(ext, cont, sim, os, hitExt, hitCont, n).potential|
    ensures var m := Replay(ext, cont, sim, os, hitExt, hitCont, n).potential[q];
      && m.extIdx < n && os[m.extIdx] == Suggest(m.contIdx) && m.contIdx < |cont|
      && m == PairEntry(m.extIdx, ext[m.extIdx], m.contIdx, cont[m.contIdx], sim, Potential)
  {
    if n > 0 {
      var prev := Replay(ext, cont, sim, os, hitExt, hitCont, n - 1);
      if q < |prev.potential| {
        ReplayPotential(ext, cont, sim, os, hitExt, hitCont, n - 1, q);
      }
    }
  }

  /** Every acceptance has its fuzzy entry. */
  lemma {:induction false} ReplayFuzzyComplete(ext: seq<Movement>, cont: seq<Movement>, sim: (string, string) -> real,
                                               os: seq<Outcome>, hitExt: seq<bool>, hitCont: seq<bool>, n: nat, x: nat)
    requires |os| == |ext| == |hitExt| && |hitCont| == |cont| && x < n <= |ext| && ValidOutcomes(os, |cont|)
    requires os[x].Accept?
    ensures exists q :: (0 <= q < |Replay(ext, cont, sim, os, hitExt, hitCont, n).fuzzy|
      && Replay(ext, cont, sim, os, hitExt, hitCont, n).fuzzy[q].extIdx == x)
  {
    var fs := Replay(ext, cont, sim, os, hitExt, hitCont, n).fuzzy;
    var prev := Replay(ext, cont, sim, os, hitExt, hitCont, n - 1).fuzzy;
    if x < n - 1 {
      ReplayFuzzyComplete(ext, cont, sim, os, hitExt, hitCont, n - 1, x);
      var q :| 0 <= q < |prev| && prev[q].extIdx == x;
      assert fs[q] == prev[q];
    } else {
      assert fs[|fs| - 1].extIdx == x;
    }
  }

  /** Every suggested decision has its `potential` entry. */
  lemma {:induction false} ReplayPotentialComplete(ext: seq<Movement>, cont: seq<Movement>, sim: (string, string) -> real,
                                                   os: seq<Outcome>, hitExt: seq<bool>, hitCont: seq<bool>, n: nat, x: nat)
    requires |os| == |ext| == |hitExt| && |hitCont| == |cont| && x < n <= |ext| && ValidOutcomes(os, |cont|)
    requires os[x].Suggest?
    ensures exists q :: (0 <= q < |Replay(ext, cont, sim, os, hitExt, hitCont, n).potential|
      && Replay(ext, cont, sim, os, hitExt, hitCont, n).potential[q].extIdx == x)
  {
    var ps := Replay(ext, cont, sim, os, hitExt, hitCont, n).potential;
    var prev := Replay(ext, cont, sim, os, hitExt, hitCont, n - 1).potential;
    if x < n - 1 {
      ReplayPotentialComplete(ext, cont, sim, os, hitExt, hitCont, n - 1, x);
      var q :| 0 <= q < |prev| && prev[q].extIdx == x;
      assert ps[q] == prev[q];
    } else {
      assert ps[|ps| - 1].extIdx == x;
    }
  }

  /** The fuzzy entries are in bank-row order, one per bank row at most. */
  lemma {:induction false} ReplayFuzzyOrdered(ext: seq<Movement>, cont: seq<Movement>, sim: (string, string) -> real,
                                              os: seq<Outcome>, hitExt: seq<bool>, hitCont: seq<bool>, n: nat, a: nat, b: nat)
    requires |os| == |ext| == |hitExt| && |hitCont| == |cont| && n <= |ext| && ValidOutcomes(os, |cont|)
    requires a < b < |Replay(ext, cont, sim, os, hitExt, hitCont, n).fuzzy|
    ensures var fs := Replay(ext, cont, sim, os, hitExt, hitCont, n).fuzzy; fs[a].extIdx < fs[b].extIdx
  {
    var prev := Replay(ext, cont, sim, os, hitExt, hitCont, n - 1).fuzzy;
    if b < |prev| {
      ReplayFuzzyOrdered(ext, cont, sim, os, hitExt, hitCont, n - 1, a, b);
    } else {
      ReplayFuzzy(ext, cont, sim, os, hitExt, hitCont, n - 1, a);
      assert Replay(ext, cont, sim, os, hitExt, hitCont, n).fuzzy[b].extIdx == n - 1;
    }
  }

  // ------------------------------------------------------------ results

  /** The decisions of stage 2 in `reconcile_movements`. */
  function PassOutcomes(ext: seq<Movement>, cont: seq<Movement>, tol: real, thr: real,
                        sim: (string, string) -> real): (os: seq<Outcome>)
    ensures |os| == |ext|
  {
    Outcomes(ext, cont, ExtHits(ext, cont), ContHits(ext, cont), tol, thr, sim)
  }

  /** Stage 2 of `reconcile_movements` is the replay of its decisions. */
  lemma {:induction false} PassReplays(ext: seq<Movement>, cont: seq<Movement>, tol: real, thr: real,
                                       sim: (string, string) -> real)
    ensures ValidOutcomes(PassOutcomes(ext, cont, tol, thr, sim), |cont|)
    ensures FuzzyPass(ext, cont, tol, thr, sim)
      == Replay(ext, cont, sim, PassOutcomes(ext, cont, tol, thr, sim), ExtHits(ext, cont), ContHits(ext, cont), |ext|)
  {
    Stage2Replays(ext, cont, ExtHits(ext, cont), ContHits(ext, cont), tol, thr, sim, |ext|);
  }

  /** The decision for bank row x: none when it has an exact partner. */
  lemma {:induction false} PassOutcomeAt(ext: seq<Movement>, cont: seq<Movement>, tol: real, thr: real,
                                         sim: (string, string) -> real, x: nat)
    requires x < |ext|
    ensures PassOutcomes(ext, cont, tol, thr, sim)[x]
      == if ExtHit(ext, cont, x) then NoDecision else Decide(ext[x], cont, ContHits(ext, cont), tol, thr, sim)
  {
    assert ExtHits(ext, cont)[x] == ExtHit(ext, cont, x);
  }

  /** An accepted ledger row had no exact partner. */
  lemma AcceptedOpen(ext: seq<Movement>, cont: seq<Movement>, tol: real, thr: real,
                     sim: (string, string) -> real, x: nat, y: nat)
    requires x < |ext| && !ExtHit(ext, cont, x) && Decide(ext[x], cont, ContHits(ext, cont), tol, thr, sim) == Accept(y)
    ensures y < |cont| && !ContHit(ext, cont, y)
  {
    assert !ContHits(ext, cont)[y];
  }

  /** Fuzzy entry q of stage 2 records an acceptance. */
  lemma {:induction false} PassFuzzyAt(ext: seq<Movement>, cont: seq<Movement>, tol: real, thr: real,
                                       sim: (string, string) -> real, q: nat)
    requires q < |FuzzyPass(ext, cont, tol, thr, sim).fuzzy|
    ensures var m := FuzzyPass(ext, cont, tol, thr, sim).fuzzy[q];
      && m.extIdx < |ext| && m.contIdx < |cont| && PassOutcomes(ext, cont, tol, thr, sim)[m.extIdx] == Accept(m.contIdx)
      && m == PairEntry(m.extIdx, ext[m.extIdx], m.contIdx, cont[m.contIdx], sim, MatchedFuzzy)
  {
    PassReplays(ext, cont, tol, thr, sim);
    ReplayFuzzy(ext, cont, sim, PassOutcomes(ext, cont, tol, thr, sim), ExtHits(ext, cont), ContHits(ext, cont), |ext|, q);
  }

  /** Suggestion q of stage 2 records a suggested decision. */
  lemma {:induction false} PassPotentialAt(ext: seq<Movement>, cont: seq<Movement>, tol: real, thr: real,
                                           sim: (string, string) -> real, q: nat)
    requires q < |FuzzyPass(ext, cont, tol, thr, sim).potential|
    ensures var m := FuzzyPass(ext, cont, tol, thr, sim).potential[q];
      && m.extIdx < |ext| && m.contIdx < |cont| && PassOutcomes(ext, cont, tol, thr, sim)[m.extIdx] == Suggest(m.contIdx)
      && m == PairEntry(m.extIdx, ext[m.extIdx], m.contIdx, cont[m.contIdx], sim, Potential)
  {
    PassReplays(ext, cont, tol, thr, sim);
    ReplayPotential(ext, cont, sim, PassOutcomes(ext, cont, tol, thr, sim), ExtHits(ext, cont), ContHits(ext, cont), |ext|, q);
  }

  /** Every acceptance of stage 2 has its fuzzy entry. */
  lemma {:induction false} PassFuzzyComplete(ext: seq<Movement>, cont: seq<Movement>, tol: real, thr: real,
                                             sim: (string, string) -> real, x: nat)
    requires x < |ext| && PassOutcomes(ext, cont, tol, thr, sim)[x].Accept?
    ensures exists q :: (0 <= q < |FuzzyPass(ext, cont, tol, thr, sim).fuzzy|
      && FuzzyPass(ext, cont, tol, thr, sim).fuzzy[q].extIdx == x)
  {
    PassReplays(ext, cont, tol, thr, sim);
    ReplayFuzzyComplete(ext, cont, sim, PassOutcomes(ext, cont, tol, thr, sim), ExtHits(ext, cont), ContHits(ext, cont),
                        |ext|, x);
  }

  /** Every suggested decision of stage 2 has its suggestion. */
  lemma {:induction false} PassPotentialComplete(ext: seq<Movement>, cont: seq<Movement>, tol: real, thr: real,
                                                 sim: (string, string) -> real, x: nat)
    requires x < |ext| && PassOutcomes(ext, cont, tol, thr, sim)[x].Suggest?
    ensures exists q :: (0 <= q < |FuzzyPass(ext, cont, tol, thr, sim).potential|
      && FuzzyPass(ext, cont, tol, thr, sim).potential[q].extIdx == x)
  {
    PassReplays(ext, cont, tol, thr, sim);
    ReplayPotentialComplete(ext, cont, sim, PassOutcomes(ext, cont, tol, thr, sim), ExtHits(ext, cont), ContHits(ext, cont),
                            |ext|, x);
  }

  /** The fuzzy entries of stage 2 are in bank-row order. */
  lemma {:induction false} PassFuzzyOrdered(ext: seq<Movement>, cont: seq<Movement>, tol: real, thr: real,
                                            sim: (string, string) -> real, a: nat, b: nat)
    requires a < b < |FuzzyPass(ext, cont, tol, thr, sim).fuzzy|
    ensures FuzzyPass(ext, cont, tol, thr, sim).fuzzy[a].extIdx < FuzzyPass(ext, cont, tol, thr, sim).fuzzy[b].extIdx
  {
    PassReplays(ext, cont, tol, thr, sim);
    ReplayFuzzyOrdered(ext, cont, sim, PassOutcomes(ext, cont, tol, thr, sim), ExtHits(ext, cont), ContHits(ext, cont),
                       |ext|, a, b);
  }

  /** The entries after the exact ones are the fuzzy entries of stage 2. */
  lemma MatchAt(ext: seq<Movement>, cont: seq<Movement>, tol: real, thr: real,
                sim: (string, string) -> real, q: nat)
    requires |ExactMatches(ext, cont, sim)| <= q < |Reconciled(ext, cont, tol, thr, sim).matches|
    ensures q - |ExactMatches(ext, cont, sim)| < |FuzzyPass(ext, cont, tol, thr, sim).fuzzy|
    ensures Reconciled(ext, cont, tol, thr, sim).matches[q]
      == FuzzyPass(ext, cont, tol, thr, sim).fuzzy[q - |ExactMatches(ext, cont, sim)|]
  {
  }

  /** Two equal bank rows have the same exact partners. */
  lemma SameRowHits(ext: seq<Movement>, cont: seq<Movement>, i1: nat, i2: nat)
    requires i1 < |ext| && i2 < |ext| && ext[i1] == ext[i2]
    ensures ExtHit(ext, cont, i1) == ExtHit(ext, cont, i2)
  {
  }

  /** Every entry after the exact ones is a fuzzy match: a bank row with no
      exact partner, for which stage 2 accepted a ledger row with no exact
      partner; it records that pair, its raw similarity, the rounded amount
      difference and the day gap. */
  lemma {:induction false} FuzzySound(ext: seq<Movement>, cont: seq<Movement>, tol: real, thr: real,
                                      sim: (string, string) -> real, q: nat)
    requires |ExactMatches(ext, cont, sim)| <= q < |Reconciled(ext, cont, tol, thr, sim).matches|
    ensures var m := Reconciled(ext, cont, tol, thr, sim).matches[q];
      && m.extIdx < |ext| && m.contIdx < |cont|
      && !ExtHit(ext, cont, m.extIdx) && !ContHit(ext, cont, m.contIdx)
      && Decide(ext[m.extIdx], cont, ContHits(ext, cont), tol, thr, sim) == Accept(m.contIdx)
      && m == PairEntry(m.extIdx, ext[m.extIdx], m.contIdx, cont[m.contIdx], sim, MatchedFuzzy)
  {
    var k := |ExactMatches(ext, cont, sim)|;
    var fs := FuzzyPass(ext, cont, tol, thr, sim).fuzzy;
    PassFuzzyAt(ext, cont, tol, thr, sim, q - k);
    var m := fs[q - k];
    assert Reconciled(ext, cont, tol, thr, sim).matches[q] == m;
    PassOutcomeAt(ext, cont, tol, thr, sim, m.extIdx);
    AcceptedOpen(ext, cont, tol, thr, sim, m.extIdx, m.contIdx);
  }

  /** A bank row with no exact partner whose best candidate clears the
      threshold gets its fuzzy match. */
  lemma {:induction false} FuzzyComplete(ext: seq<Movement>, cont: seq<Movement>, tol: real, thr: real,
                                         sim: (string, string) -> real, x: nat)
    requires x < |ext| && !ExtHit(ext, cont, x) && Decide(ext[x], cont, ContHits(ext, cont), tol, thr, sim).Accept?
    ensures exists q :: (|ExactMatches(ext, cont, sim)| <= q < |Reconciled(ext, cont, tol, thr, sim).matches|
      && Reconciled(ext, cont, tol, thr, sim).matches[q].extIdx == x)
  {
    var k := |ExactMatches(ext, cont, sim)|;
    var fs := FuzzyPass(ext, cont, tol, thr, sim).fuzzy;
    PassOutcomeAt(ext, cont, tol, thr, sim, x);
    PassFuzzyComplete(ext, cont, tol, thr, sim, x);
    var q :| 0 <= q < |fs| && fs[q].extIdx == x;
    assert |Reconciled(ext, cont, tol, thr, sim).matches| == k + |fs|;
    MatchAt(ext, cont, tol, thr, sim, k + q);
  }

  /** The fuzzy matches are in bank-row order. */
  lemma {:induction false} FuzzyOrdered(ext: seq<Movement>, cont: seq<Movement>, tol: real, thr: real,
                                        sim: (string, string) -> real, a: nat, b: nat)
    requires |ExactMatches(ext, cont, sim)| <= a < b < |Reconciled(ext, cont, tol, thr, sim).matches|
    ensures Reconciled(ext, cont, tol, thr, sim).matches[a].extIdx < Reconciled(ext, cont, tol, thr, sim).matches[b].extIdx
  {
    var k := |ExactMatches(ext, cont, sim)|;
    MatchAt(ext, cont, tol, thr, sim, a);
    MatchAt(ext, cont, tol, thr, sim, b);
    PassFuzzyOrdered(ext, cont, tol, thr, sim, a - k, b - k);
  }

  /** No stage-2 snapshot check: two identical open bank rows whose best
      candidate clears the threshold are both matched to that one ledger
      row. */
  lemma {:induction false} LedgerRowMatchedTwice(ext: seq<Movement>, cont: seq<Movement>, tol: real, thr: real,
                                                 sim: (string, string) -> real, i1: nat, i2: nat, j: nat)
    requires i1 < i2 < |ext| && ext[i1] == ext[i2] && !ExtHit(ext, cont, i1)
    requires Decide(ext[i1], cont, ContHits(ext, cont), tol, thr, sim) == Accept(j)
    ensures exists q1, q2 :: (0 <= q1 < q2 < |Reconciled(ext, cont, tol, thr, sim).matches|
      && Reconciled(ext, cont, tol, thr, sim).matches[q1].extIdx == i1
      && Reconciled(ext, cont, tol, thr, sim).matches[q2].extIdx == i2
      && Reconciled(ext, cont, tol, thr, sim).matches[q1].contIdx == j
      && Reconciled(ext, cont, tol, thr, sim).matches[q2].contIdx == j)
  {
    var ms := Reconciled(ext, cont, tol, thr, sim).matches;
    var k := |ExactMatches(ext, cont, sim)|;
    SameRowHits(ext, cont, i1, i2);
    FuzzyComplete(ext, cont, tol, thr, sim, i1);
    var q1 :| k <= q1 < |ms| && ms[q1].extIdx == i1;
    FuzzyComplete(ext, cont, tol, thr, sim, i2);
    var q2 :| k <= q2 < |ms| && ms[q2].extIdx == i2;
    FuzzySound(ext, cont, tol, thr, sim, q1);
    FuzzySound(ext, cont, tol, thr, sim, q2);
    if q2 < q1 {
      FuzzyOrdered(ext, cont, tol, thr, sim, q2, q1);
    }
    assert q1 != q2;
  }

  /** Every suggestion is for a bank row with no exact partner, for which
      stage 2 rejected the fuzzy match and suggested that ledger row; the
      bank row stays in `unmatched_extrato`. */
  lemma {:induction false} PotentialSound(ext: seq<Movement>, cont: seq<Movement>, tol: real, thr: real,
                                          sim: (string, string) -> real, q: nat)
    requires q < |Reconciled(ext, cont, tol, thr, sim).potential|
    ensures var r := Reconciled(ext, cont, tol, thr, sim); var m := r.potential[q];
      && m.extIdx < |ext| && m.contIdx < |cont| && !ExtHit(ext, cont, m.extIdx)
      && Decide(ext[m.extIdx], cont, ContHits(ext, cont), tol, thr, sim) == Suggest(m.contIdx)
      && m == PairEntry(m.extIdx, ext[m.extIdx], m.contIdx, cont[m.contIdx], sim, Potential)
      && m.extIdx in r.unmatchedExt
  {
    var ps := FuzzyPass(ext, cont, tol, thr, sim).potential;
    PassPotentialAt(ext, cont, tol, thr, sim, q);
    var m := ps[q];
    assert Reconciled(ext, cont, tol, thr, sim).potential[q] == m;
    PassOutcomeAt(ext, cont, tol, thr, sim, m.extIdx);
    UnmatchedExt(ext, cont, tol, thr, sim, m.extIdx);
  }

  /** Every bank row with no exact partner, whose window is not empty and
      whose best candidate misses the threshold, gets a suggestion. */
  lemma {:induction false} PotentialComplete(ext: seq<Movement>, cont: seq<Movement>, tol: real, thr: real,
                                             sim: (string, string) -> real, x: nat)
    requires x < |ext| && !ExtHit(ext, cont, x) && Decide(ext[x], cont, ContHits(ext, cont), tol, thr, sim).Suggest?
    ensures exists q :: (0 <= q < |Reconciled(ext, cont, tol, thr, sim).potential|
      && Reconciled(ext, cont, tol, thr, sim).potential[q].extIdx == x)
  {
    var ps := FuzzyPass(ext, cont, tol, thr, sim).potential;
    PassOutcomeAt(ext, cont, tol, thr, sim, x);
    PassPotentialComplete(ext, cont, tol, thr, sim, x);
    var q :| 0 <= q < |ps| && ps[q].extIdx == x;
    assert Reconciled(ext, cont, tol, thr, sim).potential[q] == ps[q];
  }

  /** `unmatched_extrato`: the bank rows with neither an exact partner nor an
      accepted fuzzy match. */
  lemma {:induction false} UnmatchedExt(ext: seq<Movement>, cont: seq<Movement>, tol: real, thr: real,
                                        sim: (string, string) -> real, x: nat)
    requires x < |ext|
    ensures x in Reconciled(ext, cont, tol, thr, sim).unmatchedExt
      <==> !ExtHit(ext, cont, x) && !Decide(ext[x], cont, ContHits(ext, cont), tol, thr, sim).Accept?
  {
    PassReplays(ext, cont, tol, thr, sim);
    PassOutcomeAt(ext, cont, tol, thr, sim, x);
    ReplayExtFlag(ext, cont, sim, PassOutcomes(ext, cont, tol, thr, sim), ExtHits(ext, cont), ContHits(ext, cont), |ext|, x);
    assert ExtHits(ext, cont)[x] == ExtHit(ext, cont, x);
  }

  /** `unmatched_contabilidade`: the ledger rows with no exact partner that
      no bank row's fuzzy match accepted. */
  lemma {:induction false} UnmatchedCont(ext: seq<Movement>, cont: seq<Movement>, tol: real, thr: real,
                                         sim: (string, string) -> real, y: nat)
    requires y < |cont|
    ensures y in Reconciled(ext, cont, tol, thr, sim).unmatchedCont
      <==> !ContHit(ext, cont, y) && forall x :: 0 <= x < |ext| && !ExtHit(ext, cont, x) ==>
             Decide(ext[x], cont, ContHits(ext, cont), tol, thr, sim) != Accept(y)
  {
    var he, hc := ExtHits(ext, cont), ContHits(ext, cont);
    var os := PassOutcomes(ext, cont, tol, thr, sim);
    PassReplays(ext, cont, tol, thr, sim);
    ReplayContFlag(ext, cont, sim, os, he, hc, |ext|, y);
    assert hc[y] == ContHit(ext, cont, y);
    forall x | 0 <= x < |ext|
      ensures os[x] == Accept(y) <==> !ExtHit(ext, cont, x) && Decide(ext[x], cont, hc, tol, thr, sim) == Accept(y)
    {
      PassOutcomeAt(ext, cont, tol, thr, sim, x);
    }
  }

  /** A count of entries none of which is a suggestion is their number. */
  lemma {:induction false} CountMatchedAll(ms: seq<Entry>)
    requires forall q :: 0 <= q < |ms| ==> ms[q].status != Potential
    ensures CountMatched(ms) == |ms|
  {
    if ms != [] {
      CountMatchedAll(ms[..|ms| - 1]);
    }
  }

  /** No entry of `matches` is a suggestion. */
  lemma {:induction false} MatchesAreMatched(ext: seq<Movement>, cont: seq<Movement>, tol: real, thr: real,
                                             sim: (string, string) -> real, q: nat)
    requires q < |Reconciled(ext, cont, tol, thr, sim).matches|
    ensures Reconciled(ext, cont, tol, thr, sim).matches[q].status != Potential
  {
    if q < |ExactMatches(ext, cont, sim)| {
      ExactSound(ext, cont, sim, q);
    } else {
      FuzzySound(ext, cont, tol, thr, sim, q);
    }
  }

  /** The summary counts the lists: `matched_auto` is the number of
      matches, the totals are the row counts. */
  lemma {:induction false} SummaryCounts(ext: seq<Movement>, cont: seq<Movement>, tol: real, thr: real,
                                         sim: (string, string) -> real)
    ensures var r := Reconciled(ext, cont, tol, thr, sim);
      && r.summary.matchedAuto == |r.matches| && r.summary.potential == |r.potential|
      && r.summary.unmatchedExt == |r.unmatchedExt| && r.summary.unmatchedCont == |r.unmatchedCont|
      && r.summary.totalExt == |ext| && r.summary.totalCont == |cont|
  {
    var ms := Reconciled(ext, cont, tol, thr, sim).matches;
    forall q | 0 <= q < |ms| ensures ms[q].status != Potential {
      MatchesAreMatched(ext, cont, tol, thr, sim, q);
    }
    CountMatchedAll(ms);
  }
}
