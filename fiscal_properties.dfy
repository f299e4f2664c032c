/** What the four groups of the tax reconciliation satisfy together. */
module FiscalProperties {
  import opened Joins
  import opened Fiscal

  /** A three-key pair whose IVA is a number on both sides lands in exactly
      one of `conciliados` and `divergentes_iva`. */
  lemma {:induction false} ExactlyOneGroup(P: Partition, i: nat, j: nat)
    requires Groups(P)
    requires i < |P.agt| && j < |P.cont| && SameDoc(P.agt[i], P.cont[j])
    requires P.agt[i].iva.Some? && P.cont[j].iva.Some?
    ensures ((i, j) in P.conciliados) != ((i, j) in P.divergentesIva)
  {
  }

  /** A three-key pair whose IVA is NaN on both sides lands in both groups:
      the merge pairs NaN keys, and NaN != NaN holds. */
  lemma {:induction false} NaNIvaInBoth(P: Partition, i: nat, j: nat)
    requires Groups(P)
    requires i < |P.agt| && j < |P.cont| && SameDoc(P.agt[i], P.cont[j])
    requires P.agt[i].iva.None? && P.cont[j].iva.None?
    ensures (i, j) in P.conciliados && (i, j) in P.divergentesIva
  {
  }

  /** Every AGT row is either matched in `conciliados` or listed in
      `so_agt`, never both. */
  lemma {:induction false} AgtCovered(P: Partition, i: nat)
    requires Groups(P) && i < |P.agt|
    ensures (exists j: nat :: (i, j) in P.conciliados) != (i in P.soAgt)
  {
    if i in P.soAgt {
      assert NoPartner(P.agt[i], P.cont);
    } else {
      var j: nat :| j < |P.cont| && SameKeys(P.agt[i], P.cont[j]);
      assert (i, j) in P.conciliados;
    }
  }

  /** Every ledger row is either matched in `conciliados` or listed in
      `so_contabilidade`, never both. */
  lemma {:induction false} ContCovered(P: Partition, j: nat)
    requires Groups(P) && j < |P.cont|
    ensures (exists i: nat :: (i, j) in P.conciliados) != (j in P.soContabilidade)
  {
    if j in P.soContabilidade {
      assert NoPartner(P.cont[j], P.agt);
    } else {
      var i: nat :| i < |P.agt| && SameKeys(P.cont[j], P.agt[i]);
      assert (i, j) in P.conciliados;
    }
  }

  /** Duplicated documents are not collapsed: when every AGT row has the
      keys of every ledger row, `conciliados` is the full cross product. */
  lemma {:induction false} DuplicatesMultiply(P: Partition)
    requires Groups(P)
    requires forall i, j :: 0 <= i < |P.agt| && 0 <= j < |P.cont| ==> SameKeys(P.agt[i], P.cont[j])
    ensures |P.conciliados| == |P.agt| * |P.cont|
  {
    var all := Join(P.agt, P.cont, SameKeys);
    CrossProduct(P.agt, P.cont, SameKeys);
    SortedEqual(P.conciliados, all);
  }

  /** Without NaN IVA on the AGT side, `conciliados` is the three-key merge
      restricted to equal IVA, in the same order, and with `divergentes_iva`
      it splits the three-key merge. */
  lemma {:induction false} ThreeKeySplit(P: Partition)
    requires Groups(P)
    requires forall i :: 0 <= i < |P.agt| ==> P.agt[i].iva.Some?
    ensures P.conciliados == FilterPairs(Join(P.agt, P.cont, SameDoc), Rejected(IvaDiffers(P.agt, P.cont)))
    ensures |P.conciliados| + |P.divergentesIva| == |Join(P.agt, P.cont, SameDoc)|
  {
    var merged := Join(P.agt, P.cont, SameDoc);
    var differs := IvaDiffers(P.agt, P.cont);
    AgreeingPairs(P, merged, FilterPairs(merged, Rejected(differs)));
    DifferingPairs(P, merged, FilterPairs(merged, differs));
    FilterSplit(merged, differs);
  }

  /** The equal-IVA part of the three-key merge is `conciliados`. */
  lemma {:induction false} AgreeingPairs(P: Partition, merged: seq<(nat, nat)>, agree: seq<(nat, nat)>)
    requires Groups(P)
    requires forall i :: 0 <= i < |P.agt| ==> P.agt[i].iva.Some?
    requires merged == Join(P.agt, P.cont, SameDoc)
    requires agree == FilterPairs(merged, Rejected(IvaDiffers(P.agt, P.cont)))
    ensures P.conciliados == agree
  {
    forall p: (nat, nat) ensures p in P.conciliados <==> p in agree {
      if p.0 < |P.agt| && p.1 < |P.cont| {
        assert Rejected(IvaDiffers(P.agt, P.cont))(p) == !FloatNe(P.agt[p.0].iva, P.cont[p.1].iva);
      }
    }
    SortedEqual(P.conciliados, agree);
  }

  /** The differing-IVA part of the three-key merge is `divergentes_iva`. */
  lemma {:induction false} DifferingPairs(P: Partition, merged: seq<(nat, nat)>, differ: seq<(nat, nat)>)
    requires Groups(P)
    requires merged == Join(P.agt, P.cont, SameDoc)
    requires differ == FilterPairs(merged, IvaDiffers(P.agt, P.cont))
    ensures P.divergentesIva == differ
  {
    forall p: (nat, nat) ensures p in P.divergentesIva <==> p in differ {
    }
    SortedEqual(P.divergentesIva, differ);
  }

  /** The normalised name is no merge key: two sides that agree on the four
      keys row by row get the same `conciliados` and `divergentes_iva`. */
  lemma {:induction false} NameIgnored(P: Partition, Q: Partition)
    requires Groups(P) && Groups(Q)
    requires |P.agt| == |Q.agt| && |P.cont| == |Q.cont|
    requires forall i :: 0 <= i < |P.agt| ==> SameKeys(P.agt[i], Q.agt[i])
    requires forall j :: 0 <= j < |P.cont| ==> SameKeys(P.cont[j], Q.cont[j])
    ensures P.conciliados == Q.conciliados && P.divergentesIva == Q.divergentesIva
  {
    SortedEqual(P.conciliados, Q.conciliados);
    SortedEqual(P.divergentesIva, Q.divergentesIva);
  }
}
