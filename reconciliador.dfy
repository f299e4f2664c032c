/** The bank-statement / ledger movement matcher of `backend/utils/reconciliador.py`:
    flexible column detection, the pt-BR amount parser, text cleaning and
    description similarity, the two normalizers with their opposite sign
    conventions, and the three-stage `reconcile_movements`. */
module Reconciliador {
  import opened Base
  import opened PyText
  import opened Numbers
  import opened Joins

  // ========================================================= column names

  predicate IsAlnumLower(c: char) { IsAsciiLower(c) || IsAsciiDigit(c) }

  /** The characters of `s` in [a-z0-9], in order. */
  function KeepAlnumLower(s: string): (r: string)
    ensures forall c :: c in r ==> IsAlnumLower(c)
    ensures (forall c :: c in s ==> IsAlnumLower(c)) ==> r == s
  {
    if s == [] then []
    else (if IsAlnumLower(s[0]) then [s[0]] else []) + KeepAlnumLower(s[1..])
  }

  /** `_norm_name`: lower-case, then drop everything outside [a-z0-9]. */
  function NormName(s: string): (r: string)
    ensures forall c :: c in r ==> IsAlnumLower(c)
  {
    KeepAlnumLower(Lower(s))
  }

  /** Normalizing a normalized name changes nothing. */
  lemma {:induction false} NormNameIdempotent(s: string)
    ensures NormName(NormName(s)) == NormName(s)
  {
    var r := NormName(s);
    assert forall i :: 0 <= i < |r| ==> LowerChar(r[i]) == r[i] by {
      forall i | 0 <= i < |r| ensures LowerChar(r[i]) == r[i] {
        assert r[i] in r;
      }
    }
    assert Lower(r) == r;
  }

  predicate HasKey(cols: seq<string>, key: string) {
    exists c :: c in cols && NormName(c) == key
  }

  /** The last column whose normalized name is `key`: the value the dict
      comprehension keeps for that key. */
  function LastWithKey(cols: seq<string>, key: string): (c: string)
    requires HasKey(cols, key)
    ensures c in cols && NormName(c) == key
  {
    var n := |cols|;
    if NormName(cols[n - 1]) == key then cols[n - 1]
    else
      HasKeyFront(cols, key);
      var c := LastWithKey(cols[..n - 1], key);
      InPrefix(cols, n - 1, c);
      c
  }

  /** A key that the last column does not give comes from an earlier column. */
  lemma HasKeyFront(cols: seq<string>, key: string)
    requires HasKey(cols, key) && NormName(cols[|cols| - 1]) != key
    ensures HasKey(cols[..|cols| - 1], key)
  {
    var p := (c: string) => NormName(c) == key;
    assert exists c :: c in cols && p(c);
    ExistsFront(cols, p);
  }

  /** The position of the first column whose normalized name is `key`, or
      `|cols|` when there is none: where the dict comprehension first
      inserts that key. */
  function FirstAt(cols: seq<string>, key: string): (p: nat)
    ensures p <= |cols|
    ensures p < |cols| ==> NormName(cols[p]) == key
  {
    FirstIn(NormNames(cols), key)
  }

  /** The first position of `key` in `ks`, or `|ks|`. */
  function FirstIn(ks: seq<string>, key: string): (p: nat)
    ensures p <= |ks|
    ensures p < |ks| ==> ks[p] == key
  {
    if ks == [] then 0
    else if ks[0] == key then 0
    else
      var p := FirstIn(ks[1..], key);
      assert p < |ks[1..]| ==> ks[1 + p] == ks[1..][p];
      1 + p
  }

  /** No key before the first position is `key`. */
  lemma {:induction false} FirstInMin(ks: seq<string>, key: string, q: nat)
    requires q < |ks| && ks[q] == key
    ensures FirstIn(ks, key) <= q
  {
    if q > 0 && ks[0] != key {
      assert ks[1..][q - 1] == ks[q];
      FirstInMin(ks[1..], key, q - 1);
    }
  }

  /** Appending a key keeps the first position of every key already
      present, and a new key is first found at the end. */
  lemma FirstInAppend(ks: seq<string>, k: string, key: string)
    ensures FirstIn(ks, key) < |ks| ==> FirstIn(ks + [k], key) == FirstIn(ks, key)
    ensures FirstIn(ks, key) == |ks| && k == key ==> FirstIn(ks + [k], key) == |ks|
  {
    var ks' := ks + [k];
    var p0 := FirstIn(ks, key);
    var r := FirstIn(ks', key);
    if p0 < |ks| {
      assert ks'[p0] == ks[p0];
      FirstInMin(ks', key, p0);
      assert ks'[r] == ks[r];
      FirstInMin(ks, key, r);
    } else if k == key {
      assert ks'[|ks|] == k;
      FirstInMin(ks', key, |ks|);
      if r < |ks| {
        assert ks'[r] == ks[r];
        FirstInMin(ks, key, r);
      }
    }
  }

  lemma FirstAtMin(cols: seq<string>, key: string, q: nat)
    requires q < |cols| && NormName(cols[q]) == key
    ensures FirstAt(cols, key) <= q
  {
    FirstInMin(NormNames(cols), key, q);
  }

  /** A key has a first position exactly when some column gives it. */
  lemma FirstAtHasKey(cols: seq<string>, key: string)
    ensures FirstAt(cols, key) < |cols| <==> HasKey(cols, key)
  {
    var p := FirstAt(cols, key);
    if p < |cols| {
      assert cols[p] in cols;
    }
    if HasKey(cols, key) {
      var c :| c in cols && NormName(c) == key;
      var q :| 0 <= q < |cols| && cols[q] == c;
      FirstAtMin(cols, key, q);
    }
  }

  /** The normalized names of `init + [c]` extend those of `init`. */
  lemma NormNamesAppend(init: seq<string>, c: string)
    ensures NormNames(init + [c]) == NormNames(init) + [NormName(c)]
  {
    var cols := init + [c];
    forall q | 0 <= q < |init| ensures NormNames(cols)[q] == NormNames(init)[q] {
      assert cols[q] == init[q];
    }
  }

  /** Appending a column keeps the first position of every key already
      present, and a new key is first found at the end. */
  lemma FirstAtAppend(init: seq<string>, c: string, key: string)
    ensures FirstAt(init, key) < |init| ==> FirstAt(init + [c], key) == FirstAt(init, key)
    ensures FirstAt(init, key) == |init| && NormName(c) == key ==> FirstAt(init + [c], key) == |init|
  {
    NormNamesAppend(init, c);
    FirstInAppend(NormNames(init), NormName(c), key);
  }

  predicate DistinctKeys(d: seq<(string, string)>) {
    forall a, b :: 0 <= a < b < |d| ==> d[a].0 != d[b].0
  }

  /** `d[k] = v` on a dict held as its item sequence: an existing key keeps
      its position and takes the new value, a new key goes at the end. */
  function Insert(d: seq<(string, string)>, k: string, v: string): (r: seq<(string, string)>)
    requires DistinctKeys(d)
    ensures DistinctKeys(r)
    ensures (exists j :: 0 <= j < |d| && d[j].0 == k) ==>
      |r| == |d| && forall j :: 0 <= j < |d| ==> r[j] == if d[j].0 == k then (k, v) else d[j]
    ensures (forall j :: 0 <= j < |d| ==> d[j].0 != k) ==> r == d + [(k, v)]
  {
    if exists j :: 0 <= j < |d| && d[j].0 == k
    then seq(|d|, j requires 0 <= j < |d| => if d[j].0 == k then (k, v) else d[j])
    else d + [(k, v)]
  }

  /** `{_norm_name(c): c for c in cols}` as its item sequence. */
  function NormCols(cols: seq<string>): (d: seq<(string, string)>)
    ensures DistinctKeys(d)
    ensures forall j :: 0 <= j < |d| ==> HasKey(cols, d[j].0) && d[j].1 == LastWithKey(cols, d[j].0)
    ensures forall key :: HasKey(cols, key) ==> exists j :: 0 <= j < |d| && d[j].0 == key
  {
    if cols == [] then []
    else
      var n := |cols|;
      var init := cols[..n - 1];
      var c := cols[n - 1];
      var prev := NormCols(init);
      FrontLast(cols);
      InsertValues(init, c, prev);
      InsertKeys(init, c, prev);
      Insert(prev, NormName(c), c)
  }

  /** The items of the normalized columns come in the order in which their
      keys first occur among the columns. */
  lemma {:induction false} NormColsOrdered(cols: seq<string>, d: seq<(string, string)>)
    requires d == NormCols(cols)
    ensures forall a, b :: 0 <= a < b < |d| ==> FirstAt(cols, d[a].0) < FirstAt(cols, d[b].0)
  {
    if cols != [] {
      var n := |cols|;
      var init, c := cols[..n - 1], cols[n - 1];
      var prev := NormCols(init);
      NormColsOrdered(init, prev);
      NormColsOrder(init, c, prev);
      FrontLast(cols);
    }
  }

  lemma {:induction false} LastWithKeyAppend(init: seq<string>, c: string, key: string)
    requires HasKey(init, key) && NormName(c) != key
    ensures HasKey(init + [c], key) && LastWithKey(init + [c], key) == LastWithKey(init, key)
  {
    var cols := init + [c];
    assert cols[..|cols| - 1] == init;
    var c' :| c' in init && NormName(c') == key;
    assert c' in cols;
  }

  /** After `d[NormName(c)] = c` every item holds the last column of its key. */
  lemma {:induction false} InsertValues(init: seq<string>, c: string, prev: seq<(string, string)>)
    requires DistinctKeys(prev)
    requires forall j :: 0 <= j < |prev| ==> HasKey(init, prev[j].0) && prev[j].1 == LastWithKey(init, prev[j].0)
    ensures var r := Insert(prev, NormName(c), c);
      forall j :: 0 <= j < |r| ==> HasKey(init + [c], r[j].0) && r[j].1 == LastWithKey(init + [c], r[j].0)
  {
    var cols := init + [c];
    var r := Insert(prev, NormName(c), c);
    forall j | 0 <= j < |r| ensures HasKey(cols, r[j].0) && r[j].1 == LastWithKey(cols, r[j].0) {
      if r[j].0 == NormName(c) {
        assert c in cols;
        assert r[j] == (NormName(c), c);
      } else {
        assert j < |prev| && r[j] == prev[j];
        LastWithKeyAppend(init, c, r[j].0);
      }
    }
  }

  /** After `d[NormName(c)] = c` every key of the columns is present. */
  lemma {:induction false} InsertKeys(init: seq<string>, c: string, prev: seq<(string, string)>)
    requires DistinctKeys(prev)
    requires forall key :: HasKey(init, key) ==> exists j :: 0 <= j < |prev| && prev[j].0 == key
    ensures var r := Insert(prev, NormName(c), c);
      forall key :: HasKey(init + [c], key) ==> exists j :: 0 <= j < |r| && r[j].0 == key
  {
    var cols := init + [c];
    var r := Insert(prev, NormName(c), c);
    forall key | HasKey(cols, key) ensures exists j :: 0 <= j < |r| && r[j].0 == key {
      if key != NormName(c) {
        var c' :| c' in cols && NormName(c') == key;
        assert c' in init && HasKey(init, key);
        var j :| 0 <= j < |prev| && prev[j].0 == key;
        assert r[j].0 == key;
      } else if exists j :: 0 <= j < |prev| && prev[j].0 == key {
        var j :| 0 <= j < |prev| && prev[j].0 == key;
        assert r[j].0 == key;
      } else {
        assert r[|prev|].0 == key;
      }
    }
  }

  /** `d[NormName(c)] = c` keeps the items in the order their keys first
      occur among the columns. */
  lemma NormColsOrder(init: seq<string>, c: string, prev: seq<(string, string)>)
    requires DistinctKeys(prev)
    requires forall j :: 0 <= j < |prev| ==> HasKey(init, prev[j].0)
    requires forall key :: HasKey(init, key) ==> exists j :: 0 <= j < |prev| && prev[j].0 == key
    requires forall a, b :: 0 <= a < b < |prev| ==> FirstAt(init, prev[a].0) < FirstAt(init, prev[b].0)
    ensures var r := Insert(prev, NormName(c), c);
      forall a, b :: 0 <= a < b < |r| ==> FirstAt(init + [c], r[a].0) < FirstAt(init + [c], r[b].0)
  {
    forall j | 0 <= j < |prev| ensures FirstAt(init, prev[j].0) < |init| {
      FirstAtHasKey(init, prev[j].0);
    }
    FirstAtHasKey(init, NormName(c));
    InsertOrder(init, c, prev);
  }

  lemma {:induction false} InsertOrder(init: seq<string>, c: string, prev: seq<(string, string)>)
    requires DistinctKeys(prev)
    requires forall j :: 0 <= j < |prev| ==> FirstAt(init, prev[j].0) < |init|
    requires (forall j :: 0 <= j < |prev| ==> prev[j].0 != NormName(c)) ==> FirstAt(init, NormName(c)) == |init|
    requires forall a, b :: 0 <= a < b < |prev| ==> FirstAt(init, prev[a].0) < FirstAt(init, prev[b].0)
    ensures var r := Insert(prev, NormName(c), c);
      forall a, b :: 0 <= a < b < |r| ==> FirstAt(init + [c], r[a].0) < FirstAt(init + [c], r[b].0)
  {
    var cols := init + [c];
    var k := NormName(c);
    var r := Insert(prev, k, c);
    forall j | 0 <= j < |prev| ensures FirstAt(cols, prev[j].0) == FirstAt(init, prev[j].0) {
      FirstAtAppend(init, c, prev[j].0);
    }
    if exists j :: 0 <= j < |prev| && prev[j].0 == k {
      InsertKeepsKeys(prev, k, c);
    } else {
      FirstAtAppend(init, c, k);
      assert r == prev + [(k, c)];
      forall a, b | 0 <= a < b < |r| ensures FirstAt(cols, r[a].0) < FirstAt(cols, r[b].0) {
        assert r[a] == prev[a];
        if b < |prev| {
          assert r[b] == prev[b];
        } else {
          assert r[b].0 == k;
        }
      }
    }
  }

  /** Assigning to an existing key changes no key. */
  lemma InsertKeepsKeys(d: seq<(string, string)>, k: string, v: string)
    requires DistinctKeys(d) && exists j :: 0 <= j < |d| && d[j].0 == k
    ensures var r := Insert(d, k, v); |r| == |d| && forall j :: 0 <= j < |r| ==> r[j].0 == d[j].0
  {
  }

  /** `key in d` followed by `d[key]`. */
  function Lookup(d: seq<(string, string)>, key: string): (r: Option<string>)
    ensures r.None? <==> forall j :: 0 <= j < |d| ==> d[j].0 != key
    ensures r.Some? ==> exists j :: 0 <= j < |d| && d[j].0 == key && d[j].1 == r.value
  {
    if d == [] then None
    else if d[0].0 == key then Some(d[0].1)
    else
      var rest := Lookup(d[1..], key);
      assert forall j :: 1 <= j < |d| ==> d[j] == d[1..][j - 1];
      rest
  }

  /** With distinct keys the item found is the one holding the key. */
  lemma {:induction false} LookupFound(d: seq<(string, string)>, key: string, j: nat)
    requires DistinctKeys(d) && j < |d| && d[j].0 == key
    ensures Lookup(d, key) == Some(d[j].1)
  {
    var j' :| 0 <= j' < |d| && d[j'].0 == key && d[j'].1 == Lookup(d, key).value;
    assert j' == j;
  }

  /** On the normalized columns a key is found exactly when some column
      normalizes to it, and then it gives the last such column. */
  lemma {:induction false} KeyLookup(cols: seq<string>, d: seq<(string, string)>, key: string)
    requires d == NormCols(cols)
    ensures Lookup(d, key).Some? <==> HasKey(cols, key)
    ensures HasKey(cols, key) ==> Lookup(d, key) == Some(LastWithKey(cols, key))
  {
    if HasKey(cols, key) {
      var j :| 0 <= j < |d| && d[j].0 == key;
      LookupFound(d, key, j);
    }
  }

  /** The normalized names of the candidates, in order. */
  function NormNames(cands: seq<string>): (ks: seq<string>)
    ensures |ks| == |cands| && forall i :: 0 <= i < |cands| ==> ks[i] == NormName(cands[i])
  {
    if cands == [] then [] else [NormName(cands[0])] + NormNames(cands[1..])
  }

  /** The first of the keys from `k` on that `d` holds, looked up. */
  function FirstHit(d: seq<(string, string)>, keys: seq<string>, k: nat): Option<string>
    decreases |keys| - k
  {
    if k >= |keys| then None
    else
      var l := Lookup(d, keys[k]);
      if l.Some? then l else FirstHit(d, keys, k + 1)
  }

  /** First pass of `_find_col`: the first candidate whose normalized name is a key. */
  function ExactPass(d: seq<(string, string)>, cands: seq<string>): Option<string> {
    FirstHit(d, NormNames(cands), 0)
  }

  /** No result: none of the keys from `k` on is held. */
  lemma {:induction false} FirstHitNone(d: seq<(string, string)>, keys: seq<string>, k: nat)
    requires FirstHit(d, keys, k).None?
    ensures forall i :: k <= i < |keys| ==> Lookup(d, keys[i]).None?
    decreases |keys| - k
  {
    if k < |keys| {
      FirstHitNone(d, keys, k + 1);
    }
  }

  /** A result is the lookup of some key from `k` on. */
  lemma {:induction false} FirstHitSome(d: seq<(string, string)>, keys: seq<string>, k: nat)
    requires FirstHit(d, keys, k).Some?
    ensures exists i :: k <= i < |keys| && FirstHit(d, keys, k) == Lookup(d, keys[i])
    decreases |keys| - k
  {
    if Lookup(d, keys[k]).None? {
      FirstHitSome(d, keys, k + 1);
    }
  }

  /** The first key from `k` on that is held decides. */
  lemma {:induction false} FirstHitFirst(d: seq<(string, string)>, keys: seq<string>, k: nat, i: nat)
    requires k <= i < |keys| && Lookup(d, keys[i]).Some?
    requires forall i' :: k <= i' < i ==> Lookup(d, keys[i']).None?
    ensures FirstHit(d, keys, k) == Lookup(d, keys[i])
    decreases i - k
  {
    if k < i {
      FirstHitFirst(d, keys, k + 1, i);
    }
  }

  /** `key in nc or nc in key` */
  predicate Related(key: string, nc: string) {
    Contains(nc, key) || Contains(key, nc)
  }

  /** The first item, in dict order, related to `key`. */
  function FirstRelated(d: seq<(string, string)>, key: string): (r: Option<string>)
    ensures r.None? <==> forall j :: 0 <= j < |d| ==> !Related(key, d[j].0)
    ensures r.Some? ==> exists j :: 0 <= j < |d| && d[j].1 == r.value && Related(key, d[j].0)
  {
    if d == [] then None
    else if Related(key, d[0].0) then Some(d[0].1)
    else
      var rest := FirstRelated(d[1..], key);
      assert forall j :: 1 <= j < |d| ==> d[j] == d[1..][j - 1];
      rest
  }

  /** The item `FirstRelated` returns is the first related one: no earlier
      item is related to `key`. */
  lemma {:induction false} FirstRelatedFirst(d: seq<(string, string)>, key: string) returns (j: nat)
    requires FirstRelated(d, key).Some?
    ensures j < |d| && d[j].1 == FirstRelated(d, key).value && Related(key, d[j].0)
    ensures forall j' :: 0 <= j' < j ==> !Related(key, d[j'].0)
  {
    if Related(key, d[0].0) {
      j := 0;
    } else {
      var j1 := FirstRelatedFirst(d[1..], key);
      j := j1 + 1;
      assert d[j] == d[1..][j1];
      forall j' | 0 <= j' < j ensures !Related(key, d[j'].0) {
        if j' > 0 { assert d[j'] == d[1..][j' - 1]; }
      }
    }
  }

  /** Second pass of `_find_col` over the normalized candidate names:
      candidates in order, items in dict order. */
  function FallbackPass(d: seq<(string, string)>, keys: seq<string>): (r: Option<string>)
    ensures r.None? <==> forall i, j :: 0 <= i < |keys| && 0 <= j < |d| ==> !Related(keys[i], d[j].0)
    ensures r.Some? ==> exists i, j :: 0 <= i < |keys| && 0 <= j < |d| && d[j].1 == r.value && Related(keys[i], d[j].0)
  {
    if keys == [] then None
    else
      var first := FirstRelated(d, keys[0]);
      var rest := FallbackPass(d, keys[1..]);
      assert forall i :: 1 <= i < |keys| ==> keys[i] == keys[1..][i - 1];
      if first.Some? then first else rest
  }

  /** The fallback answers for the first candidate related to any item,
      with that candidate's first related item. */
  lemma {:induction false} FallbackPassFirst(d: seq<(string, string)>, keys: seq<string>) returns (i: nat)
    requires FallbackPass(d, keys).Some?
    ensures i < |keys| && FallbackPass(d, keys) == FirstRelated(d, keys[i])
    ensures forall i' :: 0 <= i' < i ==> FirstRelated(d, keys[i']).None?
  {
    if FirstRelated(d, keys[0]).None? {
      var i1 := FallbackPassFirst(d, keys[1..]);
      i := i1 + 1;
      assert keys[i] == keys[1..][i1];
      forall i' | 1 <= i' < i ensures FirstRelated(d, keys[i']).None? {
        assert keys[i'] == keys[1..][i' - 1];
      }
    } else {
      i := 0;
    }
  }

  lemma {:induction false} ContainsSelf(s: string)
    ensures Contains(s, s)
  {
  }

  /** `_find_col(df, *cands)` over the column names `cols`: the exact pass,
      then the containment fallback. */
  function FindCol(cols: seq<string>, cands: seq<string>): Option<string> {
    var d := NormCols(cols);
    var e := ExactPass(d, cands);
    if e.Some? then e else FallbackPass(d, NormNames(cands))
  }

  /** What `_find_col` promises. */
  lemma {:induction false} FindColSpec(cols: seq<string>, cands: seq<string>)
    ensures var r := FindCol(cols, cands);
      // the column found is one of the columns
      && (r.Some? ==> r.value in cols)
      // the exact pass runs over every candidate, in order, before any fallback
      && (forall i :: (0 <= i < |cands| && HasKey(cols, NormName(cands[i]))
                       && forall i' :: 0 <= i' < i ==> !HasKey(cols, NormName(cands[i']))) ==>
            r == Some(LastWithKey(cols, NormName(cands[i]))))
      // None exactly when no candidate and no column are related by containment
      && (r.None? <==> forall a, c :: a in cands && c in cols ==> !Related(NormName(a), NormName(c)))
      && (r.Some? ==> exists a :: a in cands && Related(NormName(a), NormName(r.value)))
      // without an exact hit: the first candidate related to any column,
      // and for it the first related column in column order, which the
      // dict holds under its name as the last column of that name
      && ((forall i :: 0 <= i < |cands| ==> !HasKey(cols, NormName(cands[i]))) && r.Some? ==>
            exists i, p :: FallbackAt(cols, cands, i, p) && 0 <= p < |cols| && r.value == HeldFor(cols, p))
  {
    var d := NormCols(cols);
    var e := ExactPass(d, cands);
    var r := if e.Some? then e else FallbackPass(d, NormNames(cands));
    FindColIn(cols, cands, d, e, r);
    FindColExact(cols, cands, d, e, r);
    FindColNone(cols, cands, d, e, r);
    FindColSome(cols, cands, d, e, r);
    FindColFallback(cols, cands, d, e, r);
  }

  /** The column the dict holds under the name of column `p`: the last
      column with that name. */
  function HeldFor(cols: seq<string>, p: nat): (c: string)
    requires p < |cols|
    ensures c in cols && NormName(c) == NormName(cols[p])
  {
    assert cols[p] in cols;
    LastWithKey(cols, NormName(cols[p]))
  }

  /** Candidate `i` is the first candidate related to any column, and
      column `p` is the first column related to it. */
  predicate FallbackAt(cols: seq<string>, cands: seq<string>, i: int, p: int) {
    && 0 <= i < |cands| && 0 <= p < |cols|
    && Related(NormName(cands[i]), NormName(cols[p]))
    && (forall q :: 0 <= q < p ==> !Related(NormName(cands[i]), NormName(cols[q])))
    && (forall i', q :: 0 <= i' < i && 0 <= q < |cols| ==> !Related(NormName(cands[i']), NormName(cols[q])))
  }

  /** Without an exact hit, the fallback's choice in terms of the columns. */
  lemma {:induction false} FindColFallback(cols: seq<string>, cands: seq<string>, d: seq<(string, string)>, e: Option<string>, r: Option<string>)
    requires d == NormCols(cols) && e == ExactPass(d, cands)
    requires r == if e.Some? then e else FallbackPass(d, NormNames(cands))
    ensures (forall i :: 0 <= i < |cands| ==> !HasKey(cols, NormName(cands[i]))) && r.Some? ==>
      exists i, p :: FallbackAt(cols, cands, i, p) && 0 <= p < |cols| && r.value == HeldFor(cols, p)
  {
    if (forall i :: 0 <= i < |cands| ==> !HasKey(cols, NormName(cands[i]))) && r.Some? {
      ExactPassMisses(cols, d, cands);
      var ck := NormNames(cands);
      var i := FallbackPassFirst(d, ck);
      var p := FallbackColumn(cols, cands, d, ck, i, r);
    }
  }

  /** The column the fallback settles on for candidate `i`. */
  lemma FallbackColumn(cols: seq<string>, cands: seq<string>, d: seq<(string, string)>, ck: seq<string>, i: nat, r: Option<string>)
    returns (p: nat)
    requires d == NormCols(cols) && ck == NormNames(cands)
    requires i < |ck| && r == FirstRelated(d, ck[i]) && r.Some?
    requires forall i' :: 0 <= i' < i ==> FirstRelated(d, ck[i']).None?
    ensures FallbackAt(cols, cands, i, p) && p < |cols| && r.value == HeldFor(cols, p)
  {
    NormColsIndex(cols, d);
    var ks := NormNames(cols);
    var j;
    j, p := FallbackChoice(ks, ck, d, i, r);
    FallbackNames(cols, cands, ks, ck, i, p);
    HeldForItem(cols, d, j);
  }

  /** The fallback's choice, read back from normalized names to columns. */
  lemma FallbackNames(cols: seq<string>, cands: seq<string>, ks: seq<string>, ck: seq<string>, i: nat, p: nat)
    requires ks == NormNames(cols) && ck == NormNames(cands)
    requires i < |ck| && p < |ks| && Related(ck[i], ks[p])
    requires forall q :: 0 <= q < p ==> !Related(ck[i], ks[q])
    requires forall i', q :: 0 <= i' < i && 0 <= q < |ks| ==> !Related(ck[i'], ks[q])
    ensures FallbackAt(cols, cands, i, p)
  {
  }

  /** The first item of `d` holding `key`, or `|d|`. */
  function KeyIndex(d: seq<(string, string)>, key: string): (j: nat)
    ensures j <= |d|
    ensures j < |d| ==> d[j].0 == key
  {
    if d == [] then 0
    else if d[0].0 == key then 0
    else
      var j := KeyIndex(d[1..], key);
      assert forall j' :: 1 <= j' < |d| ==> d[j'] == d[1..][j' - 1];
      1 + j
  }

  lemma {:induction false} KeyIndexMin(d: seq<(string, string)>, key: string, j: nat)
    requires j < |d| && d[j].0 == key
    ensures KeyIndex(d, key) <= j
  {
    if j > 0 && d[0].0 != key {
      assert d[1..][j - 1] == d[j];
      KeyIndexMin(d[1..], key, j - 1);
    }
  }

  /** The normalized columns as positions: every column's key has an item,
      the items follow the first positions of their keys, and each holds
      the column kept under that name. */
  lemma NormColsIndex(cols: seq<string>, d: seq<(string, string)>)
    requires d == NormCols(cols)
    ensures forall q :: 0 <= q < |cols| ==> KeyIndex(d, NormName(cols[q])) < |d|
    ensures forall a, b :: 0 <= a < b < |d| ==> FirstAt(cols, d[a].0) < FirstAt(cols, d[b].0)
    ensures forall j :: 0 <= j < |d| ==> FirstAt(cols, d[j].0) < |cols|
  {
    NormColsOrdered(cols, d);
    forall q | 0 <= q < |cols| ensures KeyIndex(d, NormName(cols[q])) < |d| {
      var key := NormName(cols[q]);
      assert cols[q] in cols && HasKey(cols, key);
      var j :| 0 <= j < |d| && d[j].0 == key;
      KeyIndexMin(d, key, j);
    }
    forall j | 0 <= j < |d| ensures FirstAt(cols, d[j].0) < |cols| {
      FirstAtHasKey(cols, d[j].0);
    }
  }

  /** Item `j` holds the column kept under the name of its key's first column. */
  lemma HeldForItem(cols: seq<string>, d: seq<(string, string)>, j: nat)
    requires d == NormCols(cols) && j < |d|
    ensures FirstAt(cols, d[j].0) < |cols| && d[j].1 == HeldFor(cols, FirstAt(cols, d[j].0))
  {
    FirstAtHasKey(cols, d[j].0);
  }

  /** The fallback's item, read back as positions in the normalized
      column names `ks`, for the normalized candidates `ck`. */
  lemma {:induction false} FallbackChoice(ks: seq<string>, ck: seq<string>, d: seq<(string, string)>, i: nat, r: Option<string>)
    returns (j: nat, p: nat)
    requires forall q :: 0 <= q < |ks| ==> KeyIndex(d, ks[q]) < |d|
    requires forall a, b :: 0 <= a < b < |d| ==> FirstIn(ks, d[a].0) < FirstIn(ks, d[b].0)
    requires forall j :: 0 <= j < |d| ==> FirstIn(ks, d[j].0) < |ks|
    requires i < |ck| && r == FirstRelated(d, ck[i]) && r.Some?
    requires forall i' :: 0 <= i' < i ==> FirstRelated(d, ck[i']).None?
    ensures p < |ks| && Related(ck[i], ks[p])
    ensures forall q :: 0 <= q < p ==> !Related(ck[i], ks[q])
    ensures forall i', q :: 0 <= i' < i && 0 <= q < |ks| ==> !Related(ck[i'], ks[q])
    ensures j < |d| && p == FirstIn(ks, d[j].0) && r.value == d[j].1
  {
    var key := ck[i];
    j := FirstRelatedFirst(d, key);
    p := FirstIn(ks, d[j].0);
    forall q | 0 <= q < p ensures !Related(key, ks[q]) {
      var j' := EarlierItem(ks, d, j, q);
    }
    forall i', q | 0 <= i' < i && 0 <= q < |ks| ensures !Related(ck[i'], ks[q]) {
      var j' := KeyIndex(d, ks[q]);
      assert !Related(ck[i'], d[j'].0);
    }
  }

  /** A name before the first position of item `j`'s key belongs to an
      earlier item. */
  lemma EarlierItem(ks: seq<string>, d: seq<(string, string)>, j: nat, q: nat) returns (j': nat)
    requires forall q :: 0 <= q < |ks| ==> KeyIndex(d, ks[q]) < |d|
    requires forall a, b :: 0 <= a < b < |d| ==> FirstIn(ks, d[a].0) < FirstIn(ks, d[b].0)
    requires j < |d| && q < FirstIn(ks, d[j].0)
    ensures j' < j && d[j'].0 == ks[q]
  {
    j' := KeyIndex(d, ks[q]);
    FirstInMin(ks, d[j'].0, q);
  }

  /** The column found is one of the columns. */
  lemma {:induction false} FindColIn(cols: seq<string>, cands: seq<string>, d: seq<(string, string)>, e: Option<string>, r: Option<string>)
    requires d == NormCols(cols) && e == ExactPass(d, cands)
    requires r == if e.Some? then e else FallbackPass(d, NormNames(cands))
    ensures r.Some? ==> r.value in cols
  {
    if e.Some? {
      var ks := NormNames(cands);
      FirstHitSome(d, ks, 0);
      var i :| 0 <= i < |ks| && e == Lookup(d, ks[i]);
      KeyLookup(cols, d, NormName(cands[i]));
    } else if r.Some? {
      var ks := NormNames(cands);
      var i, j :| 0 <= i < |ks| && 0 <= j < |d| && d[j].1 == r.value && Related(ks[i], d[j].0);
      assert LastWithKey(cols, d[j].0) in cols;
    }
  }

  /** The first candidate that is a key decides. */
  lemma {:induction false} FindColExact(cols: seq<string>, cands: seq<string>, d: seq<(string, string)>, e: Option<string>, r: Option<string>)
    requires d == NormCols(cols) && e == ExactPass(d, cands)
    requires r == if e.Some? then e else FallbackPass(d, NormNames(cands))
    ensures forall i :: (0 <= i < |cands| && HasKey(cols, NormName(cands[i]))
                         && forall i' :: 0 <= i' < i ==> !HasKey(cols, NormName(cands[i']))) ==>
      r == Some(LastWithKey(cols, NormName(cands[i])))
  {
    forall i | 0 <= i < |cands| && HasKey(cols, NormName(cands[i]))
      && (forall i' :: 0 <= i' < i ==> !HasKey(cols, NormName(cands[i'])))
      ensures r == Some(LastWithKey(cols, NormName(cands[i])))
    {
      ExactPassFirst(cols, d, cands, i);
    }
  }

  lemma {:induction false} ExactPassFirst(cols: seq<string>, d: seq<(string, string)>, cands: seq<string>, i: nat)
    requires d == NormCols(cols)
    requires i < |cands| && HasKey(cols, NormName(cands[i]))
    requires forall i' :: 0 <= i' < i ==> !HasKey(cols, NormName(cands[i']))
    ensures ExactPass(d, cands) == Some(LastWithKey(cols, NormName(cands[i])))
  {
    var ks := NormNames(cands);
    assert forall i' :: 0 <= i' < i ==> !HasKey(cols, ks[i']);
    FirstKeyDecides(cols, d, ks, i);
  }

  lemma {:induction false} FirstKeyDecides(cols: seq<string>, d: seq<(string, string)>, ks: seq<string>, i: nat)
    requires d == NormCols(cols)
    requires i < |ks| && HasKey(cols, ks[i]) && forall i' :: 0 <= i' < i ==> !HasKey(cols, ks[i'])
    ensures FirstHit(d, ks, 0) == Some(LastWithKey(cols, ks[i]))
  {
    forall i' | 0 <= i' < i ensures Lookup(d, ks[i']).None? {
      KeyLookup(cols, d, ks[i']);
    }
    KeyLookup(cols, d, ks[i]);
    FirstHitFirst(d, ks, 0, i);
  }

  /** Nothing found: no candidate is related to any column. */
  lemma {:induction false} FindColNone(cols: seq<string>, cands: seq<string>, d: seq<(string, string)>, e: Option<string>, r: Option<string>)
    requires d == NormCols(cols) && e == ExactPass(d, cands)
    requires r == if e.Some? then e else FallbackPass(d, NormNames(cands))
    ensures r.None? ==> forall a, c :: a in cands && c in cols ==> !Related(NormName(a), NormName(c))
  {
    if r.None? {
      var ks := NormNames(cands);
      var f := FallbackPass(d, ks);
      assert f.None?;
      forall a, c | a in cands && c in cols ensures !Related(NormName(a), NormName(c)) {
        var i :| 0 <= i < |cands| && cands[i] == a;
        assert HasKey(cols, NormName(c));
        var j :| 0 <= j < |d| && d[j].0 == NormName(c);
        assert !Related(ks[i], d[j].0);
      }
    }
  }

  /** Something found: some candidate is related to its normalized name. */
  lemma {:induction false} FindColSome(cols: seq<string>, cands: seq<string>, d: seq<(string, string)>, e: Option<string>, r: Option<string>)
    requires d == NormCols(cols) && e == ExactPass(d, cands)
    requires r == if e.Some? then e else FallbackPass(d, NormNames(cands))
    ensures r.Some? ==> exists a :: a in cands && Related(NormName(a), NormName(r.value))
  {
    if e.Some? {
      ExactSome(cols, cands, d, e);
    } else if r.Some? {
      FallbackSome(cols, cands, d, r);
    }
  }

  /** A column found by the exact pass normalizes to a candidate's name. */
  lemma ExactSome(cols: seq<string>, cands: seq<string>, d: seq<(string, string)>, e: Option<string>)
    requires d == NormCols(cols) && e == ExactPass(d, cands) && e.Some?
    ensures exists a :: a in cands && Related(NormName(a), NormName(e.value))
  {
    var ks := NormNames(cands);
    FirstHitSome(d, ks, 0);
    var i :| 0 <= i < |ks| && e == Lookup(d, ks[i]);
    KeyLookup(cols, d, NormName(cands[i]));
    ContainsSelf(NormName(cands[i]));
    assert cands[i] in cands;
  }

  /** A column found by the fallback is related to some candidate's name. */
  lemma FallbackSome(cols: seq<string>, cands: seq<string>, d: seq<(string, string)>, r: Option<string>)
    requires d == NormCols(cols) && r == FallbackPass(d, NormNames(cands)) && r.Some?
    ensures exists a :: a in cands && Related(NormName(a), NormName(r.value))
  {
    var ks := NormNames(cands);
    var i, j :| 0 <= i < |ks| && 0 <= j < |d| && d[j].1 == r.value && Related(ks[i], d[j].0);
    NormColsValue(cols, d, j);
    assert cands[i] in cands;
  }

  /** Each item of the normalized columns holds a column of its own key. */
  lemma NormColsValue(cols: seq<string>, d: seq<(string, string)>, j: nat)
    requires d == NormCols(cols) && j < |d|
    ensures NormName(d[j].1) == d[j].0
  {
  }

  /** Every candidate misses: the exact pass finds nothing. */
  lemma {:induction false} ExactPassMisses(cols: seq<string>, d: seq<(string, string)>, cands: seq<string>)
    requires d == NormCols(cols)
    ensures ExactPass(d, cands).None? <==> forall i :: 0 <= i < |cands| ==> !HasKey(cols, NormName(cands[i]))
  {
    if ExactPass(d, cands).None? {
      FirstHitNone(d, NormNames(cands), 0);
      forall i | 0 <= i < |cands| ensures !HasKey(cols, NormName(cands[i])) {
        KeyLookup(cols, d, NormName(cands[i]));
      }
    } else {
      FirstHitSome(d, NormNames(cands), 0);
      var i :| 0 <= i < |cands| && ExactPass(d, cands) == Lookup(d, NormName(cands[i]));
      KeyLookup(cols, d, NormName(cands[i]));
    }
  }

  // ============================================================ amounts

  /** `s.lstrip("+-")` */
  function LStripSigns(s: string): (r: string)
    ensures |r| <= |s| && r == s[|s| - |r|..]
    ensures r != [] ==> r[0] != '+' && r[0] != '-'
  {
    if s != [] && (s[0] == '+' || s[0] == '-') then LStripSigns(s[1..]) else s
  }

  /** `parse_valor_ptbr`: pt-BR amounts such as "-2.507,55" or "2 507,55". */
  function ParseValorPtbr(v: Value): (r: real)
    ensures IsNa(v) || (v.Str? && |v.s| == 0) ==> r == 0.0
    ensures v.Num? ==> r == v.x
  {
    match v
    case PyNone => 0.0
    case NaN => 0.0
    case Num(x) => x
    case Str(s) => if |s| == 0 then 0.0 else PtbrText(s)
  }

  /** The string branch: the sign comes from the stripped text's first
      character; then the signs, the spaces and the '.' thousands separators
      go and ',' becomes the decimal point. The second `float(s)` attempt
      fails exactly when the first does, so unparsable text gives 0. */
  function PtbrText(s: string): real {
    SignedPtbr(Strip(s))
  }

  /** The value of stripped text `t`: `sign * float(s)` with sign -1 or 1,
      written as a negation. */
  function SignedPtbr(t: string): real {
    Signed(t != [] && t[0] == '-', FloatLiteral(PtbrDecimal(LStripSigns(t))))
  }

  /** A parsed magnitude with the sign applied; no parse gives 0. */
  function Signed(negative: bool, v: Option<real>): real {
    match v
    case Some(x) => if negative then -x else x
    case None => 0.0
  }

  /** `s.replace(" ", "").replace(".", "").replace(",", ".")` */
  function PtbrDecimal(u: string): string {
    Replace(Remove(Remove(u, ' '), '.'), ',', ".")
  }

  function Pad3(k: nat): (s: string)
    requires k < 1000
    ensures |s| == 3 && IsDigits(s) && DigitsValue(s) == k
  {
    var s := [DigitChar(k / 100), DigitChar(k / 10 % 10), DigitChar(k % 10)];
    assert s[..2][..1][..0] == [];
    assert DigitsValue(s[..2][..1]) == k / 100;
    assert DigitsValue(s[..2]) == k / 10;
    s
  }

  /** `n` with '.' between groups of three digits: 2507 is "2.507". */
  function Grouped(n: nat): (s: string)
    ensures s != [] && IsAsciiDigit(s[0])
    ensures forall i :: 0 <= i < |s| ==> IsAsciiDigit(s[i]) || s[i] == '.'
  {
    if n < 1000 then NatToDigits(n)
    else
      var g := Grouped(n / 1000);
      var p := Pad3(n % 1000);
      assert forall i :: 0 <= i < |g + "." + p| ==>
        (g + "." + p)[i] == if i < |g| then g[i] else if i == |g| then '.' else p[i - |g| - 1];
      g + "." + p
  }

  /** Dropping the group separators leaves the digits of `n`. */
  lemma {:induction false} GroupedDigits(n: nat)
    ensures IsDigits(Remove(Grouped(n), '.')) && DigitsValue(Remove(Grouped(n), '.')) == n
    ensures Remove(Grouped(n), '.') != []
  {
    if n < 1000 {
      assert '.' !in Grouped(n);
      RemoveAbsent(Grouped(n), '.');
    } else {
      GroupedDigits(n / 1000);
      var g := Grouped(n / 1000);
      var p := Pad3(n % 1000);
      assert Grouped(n) == g + "." + p;
      assert '.' !in p;
      RemoveSeparator(g, '.', p);
      DigitsThenThree(Remove(g, '.'), p, n / 1000, n % 1000);
    }
  }

  lemma RemoveSeparator(a: string, c: char, b: string)
    requires c !in b
    ensures Remove(a + [c] + b, c) == Remove(a, c) + b
  {
    assert a + [c] + b == a + ([c] + b);
    RemoveConcat(a, [c] + b, c);
    RemoveCons(c, b, c);
    RemoveAbsent(b, c);
  }

  lemma {:induction false} DigitsThenThree(ds: string, p: string, q: nat, k: nat)
    requires IsDigits(ds) && DigitsValue(ds) == q
    requires |p| == 3 && IsDigits(p) && DigitsValue(p) == k
    ensures IsDigits(ds + p) && DigitsValue(ds + p) == q * 1000 + k
  {
    DigitsConcat(ds, p);
    assert Pow10(3) == 1000;
  }

  /** The pt-BR spelling of an amount of `c` cents: "-2.507,55" for -250755. */
  function PtbrLiteral(c: int): string {
    (if c < 0 then "-" else "") + PtbrBody(if c < 0 then -c else c)
  }

  /** The unsigned part: groups, the decimal comma and two cents digits. */
  function PtbrBody(a: nat): string {
    Grouped(a / 100) + "," + Pad2(a % 100)
  }

  lemma {:induction false} RemoveConcat(a: string, b: string, c: char)
    ensures Remove(a + b, c) == Remove(a, c) + Remove(b, c)
  {
    if a != [] {
      assert (a + b)[1..] == a[1..] + b;
      RemoveConcat(a[1..], b, c);
    } else {
      assert a + b == b;
    }
  }

  lemma {:induction false} ReplaceConcat(a: string, b: string, c: char, w: string)
    ensures Replace(a + b, c, w) == Replace(a, c, w) + Replace(b, c, w)
  {
    if a != [] {
      assert (a + b)[1..] == a[1..] + b;
      ReplaceConcat(a[1..], b, c, w);
    } else {
      assert a + b == b;
    }
  }

  lemma {:induction false} ReplaceAbsent(s: string, c: char, w: string)
    requires c !in s
    ensures Replace(s, c, w) == s
  {
    if s != [] {
      ReplaceAbsent(s[1..], c, w);
    }
  }

  lemma {:induction false} DigitsConcat(a: string, b: string)
    requires IsDigits(a) && IsDigits(b)
    ensures IsDigits(a + b) && DigitsValue(a + b) == DigitsValue(a) * Pow10(|b|) + DigitsValue(b)
  {
    if b == [] {
      assert a + b == a;
    } else {
      var b' := b[..|b| - 1];
      var ab := a + b;
      assert ab[..|ab| - 1] == a + b';
      assert ab[|ab| - 1] == b[|b| - 1];
      DigitsConcat(a, b');
      assert IsDigits(ab);
      assert DigitsValue(ab) == DigitsValue(a + b') * 10 + DigitVal(b[|b| - 1]);
      assert DigitsValue(b) == DigitsValue(b') * 10 + DigitVal(b[|b| - 1]);
      assert Pow10(|b|) == 10 * Pow10(|b'|);
      ShiftDigit(DigitsValue(a), Pow10(|b'|), DigitsValue(b'), DigitVal(b[|b| - 1]));
    }
  }

  lemma {:induction false} ShiftDigit(x: int, p: int, y: int, d: int)
    ensures (x * p + y) * 10 + d == x * (10 * p) + (y * 10 + d)
  {
  }

  lemma {:induction false} LStripDigitStart(s: string)
    requires s != [] && IsAsciiDigit(s[0])
    ensures LStripSigns(s) == s && LStripSigns("-" + s) == s
  {
    assert ("-" + s)[1..] == s;
  }

  /** The pt-BR spelling of any amount of cents reads back as that amount. */
  lemma {:induction false} PtbrRoundTrip(c: int)
    ensures ParseValorPtbr(Str(PtbrLiteral(c))) == CentsAmount(c)
  {
    var a := if c < 0 then -c else c;
    var lit := PtbrLiteral(c);
    LiteralShape(c);
    MagnitudeReads(a);
    TextValue(lit, CentsAmount(a));
    SignArith(c, lit, CentsAmount(a));
  }

  /** The literal is stripped, starts with '-' exactly for a negative amount,
      and lstrip("+-") leaves its unsigned part. */
  lemma {:induction false} LiteralShape(c: int)
    ensures var lit := PtbrLiteral(c);
      && lit != [] && Strip(lit) == lit && (lit[0] == '-' <==> c < 0)
      && LStripSigns(lit) == PtbrBody(if c < 0 then -c else c)
  {
    var a := if c < 0 then -c else c;
    var sign := if c < 0 then "-" else "";
    var body := PtbrBody(a);
    BodyNoSpace(Grouped(a / 100), Pad2(a % 100));
    SignedStrips(sign, body);
  }

  /** The unsigned part "<groups>,<cc>" of the literal reads as `a` cents. */
  lemma {:induction false} MagnitudeReads(a: nat)
    ensures FloatLiteral(PtbrDecimal(PtbrBody(a))) == Some(CentsAmount(a))
  {
    var g := Grouped(a / 100);
    var p := Pad2(a % 100);
    GroupedDigits(a / 100);
    var dg := Remove(g, '.');
    PtbrBodyDecimal(g, p);
    DecimalFloat(dg, p);
    CentsSplit(a, dg, p);
  }

  lemma {:induction false} CentsSplit(a: nat, dg: string, p: string)
    requires IsDigits(dg) && DigitsValue(dg) == a / 100
    requires IsDigits(p) && |p| == 2 && DigitsValue(p) == a % 100
    ensures DecimalValue(dg, p) == CentsAmount(a)
  {
    FracCents(p);
  }

  /** The literal's sign applied to the magnitude of `c` gives `c`. */
  lemma {:induction false} SignArith(c: int, lit: string, y: real)
    requires lit != [] && (lit[0] == '-' <==> c < 0)
    requires y == CentsAmount(if c < 0 then -c else c)
    requires PtbrText(lit) == if lit[0] == '-' then -y else y
    ensures ParseValorPtbr(Str(lit)) == CentsAmount(c)
  {
    TextParses(lit);
    CentsSign(c);
  }

  /** Non-empty text is read by the pt-BR text rule. */
  lemma TextParses(s: string)
    requires s != []
    ensures ParseValorPtbr(Str(s)) == PtbrText(s)
  {
  }

  /** An amount in cents is its magnitude with its sign. */
  lemma CentsSign(c: int)
    ensures (if c < 0 then -CentsAmount(-c) else CentsAmount(c)) == CentsAmount(c)
  {
  }

  /** A stripped literal whose digits read as `y` has the value of `y`
      with the literal's leading sign. */
  lemma {:induction false} TextValue(lit: string, y: real)
    requires lit != [] && Strip(lit) == lit
    requires FloatLiteral(PtbrDecimal(LStripSigns(lit))) == Some(y)
    ensures PtbrText(lit) == if lit[0] == '-' then -y else y
  {
    StrippedText(lit);
    SignedValue(lit, y);
  }

  /** Text that strip leaves alone is read by its sign and body. */
  lemma StrippedText(lit: string)
    requires Strip(lit) == lit
    ensures PtbrText(lit) == SignedPtbr(lit)
  {
  }

  /** A body that reads as `y` gives `y`, negated under a leading '-'. */
  lemma SignedValue(t: string, y: real)
    requires t != [] && FloatLiteral(PtbrDecimal(LStripSigns(t))) == Some(y)
    ensures SignedPtbr(t) == if t[0] == '-' then -y else y
  {
    SignedSome(t[0] == '-', FloatLiteral(PtbrDecimal(LStripSigns(t))), y);
  }

  lemma SignedSome(negative: bool, v: Option<real>, y: real)
    requires v == Some(y)
    ensures Signed(negative, v) == if negative then -y else y
  {
  }

  /** An optional '-' before a body that starts with a digit and has no
      white space: strip keeps it, and lstrip("+-") leaves the body. */
  lemma {:induction false} SignedStrips(sign: string, body: string)
    requires sign == "" || sign == "-"
    requires body != [] && IsAsciiDigit(body[0])
    requires forall i :: 0 <= i < |body| ==> !IsSpace(body[i])
    ensures Strip(sign + body) == sign + body
    ensures (sign + body)[0] == '-' <==> sign == "-"
    ensures LStripSigns(sign + body) == body
  {
    SignedNoSpace(sign, body);
    SignedHead(sign, body);
    SignedLStrip(sign, body);
  }

  lemma SignedHead(sign: string, body: string)
    requires sign == "" || sign == "-"
    requires body != [] && IsAsciiDigit(body[0])
    ensures (sign + body)[0] == '-' <==> sign == "-"
  {
  }

  lemma {:induction false} SignedLStrip(sign: string, body: string)
    requires sign == "" || sign == "-"
    requires body != [] && IsAsciiDigit(body[0])
    ensures LStripSigns(sign + body) == body
  {
    LStripDigitStart(body);
    if sign == "" { assert sign + body == body; } else { assert sign + body == "-" + body; }
  }

  /** "<groups>,<cc>" has no white space and starts with a digit. */
  lemma {:induction false} BodyNoSpace(g: string, p: string)
    requires g != [] && IsAsciiDigit(g[0])
    requires forall i :: 0 <= i < |g| ==> IsAsciiDigit(g[i]) || g[i] == '.'
    requires IsDigits(p)
    ensures IsAsciiDigit((g + "," + p)[0])
    ensures forall i :: 0 <= i < |g + "," + p| ==> !IsSpace((g + "," + p)[i])
  {
    var body := g + "," + p;
    forall i | 0 <= i < |body| ensures !IsSpace(body[i]) {
      if i < |g| { assert body[i] == g[i]; }
      else if i > |g| { assert body[i] == p[i - |g| - 1]; }
    }
  }

  /** An optional '-' before text without white space strips to itself. */
  lemma {:induction false} SignedNoSpace(sign: string, body: string)
    requires sign == "" || sign == "-"
    requires forall i :: 0 <= i < |body| ==> !IsSpace(body[i])
    ensures Strip(sign + body) == sign + body
  {
    SignedSpaceFree(sign, body);
  }

  lemma {:induction false} SignedSpaceFree(sign: string, body: string)
    requires sign == "" || sign == "-"
    requires forall i :: 0 <= i < |body| ==> !IsSpace(body[i])
    ensures forall i :: 0 <= i < |sign + body| ==> !IsSpace((sign + body)[i])
  {
    var s := sign + body;
    forall i | 0 <= i < |s| ensures !IsSpace(s[i]) {
      if i >= |sign| { assert s[i] == body[i - |sign|]; }
    }
  }

  /** Separators dropped and the decimal comma turned into a point. */
  lemma {:induction false} PtbrBodyDecimal(g: string, p: string)
    requires forall i :: 0 <= i < |g| ==> IsAsciiDigit(g[i]) || g[i] == '.'
    requires IsDigits(p)
    ensures PtbrDecimal(g + "," + p) == Remove(g, '.') + "." + p
  {
    var cp := [','] + p;
    var body := g + cp;
    assert g + "," + p == body;
    assert ' ' !in body by {
      forall i | 0 <= i < |body| ensures body[i] != ' ' {
        if i < |g| { assert body[i] == g[i]; }
        else if i > |g| { assert body[i] == p[i - |g| - 1]; }
      }
    }
    assert '.' !in p && ',' !in p;
    RemoveAbsent(body, ' ');
    RemoveConcat(g, cp, '.');
    RemoveCons(',', p, '.');
    RemoveAbsent(p, '.');
    var dg := Remove(g, '.');
    assert Remove(body, '.') == dg + cp;
    assert ',' !in dg by {
      RemoveChars(g, '.');
      forall i | 0 <= i < |dg| ensures dg[i] != ',' {
        assert dg[i] in dg;
        assert dg[i] in g;
      }
    }
    ReplaceConcat(dg, cp, ',', ".");
    ReplaceCons(',', p, ',', ".");
    ReplaceAbsent(dg, ',', ".");
    ReplaceAbsent(p, ',', ".");
    assert Replace(dg + cp, ',', ".") == dg + ("." + p);
    assert dg + ("." + p) == dg + "." + p;
  }

  lemma RemoveCons(x: char, t: string, c: char)
    ensures Remove([x] + t, c) == (if x == c then [] else [x]) + Remove(t, c)
  {
    assert ([x] + t)[0] == x && ([x] + t)[1..] == t;
  }

  lemma ReplaceCons(x: char, t: string, c: char, w: string)
    ensures Replace([x] + t, c, w) == (if x == c then w else [x]) + Replace(t, c, w)
  {
    assert ([x] + t)[0] == x && ([x] + t)[1..] == t;
  }

  /** `float("<digits>.<digits>")` */
  lemma {:induction false} DecimalFloat(dg: string, p: string)
    requires IsDigits(dg) && IsDigits(p) && dg != []
    ensures FloatLiteral(dg + "." + p) == Some(DecimalValue(dg, p))
  {
    DecimalStripped(dg, p);
    DigitsDotParses(dg, p);
  }

  lemma {:induction false} DecimalStripped(dg: string, p: string)
    requires IsDigits(dg) && IsDigits(p)
    ensures Strip(dg + "." + p) == dg + "." + p
  {
    DecimalSpaceFree(dg, p);
  }

  lemma {:induction false} DecimalSpaceFree(dg: string, p: string)
    requires IsDigits(dg) && IsDigits(p)
    ensures forall i :: 0 <= i < |dg + "." + p| ==> !IsSpace((dg + "." + p)[i])
  {
    var u := dg + "." + p;
    forall i | 0 <= i < |u| ensures !IsSpace(u[i]) {
      if i < |dg| { assert u[i] == dg[i]; }
      else if i > |dg| { assert u[i] == p[i - |dg| - 1]; }
    }
  }

  /** The docstring's example. */
  lemma {:induction false} PtbrDocExample()
    ensures ParseValorPtbr(Str("-2.507,55")) == -2507.55
  {
    ExampleLiteral();
    PtbrRoundTrip(-250755);
  }

  /** -2507.55 is written "-2.507,55". */
  lemma ExampleLiteral()
    ensures PtbrLiteral(-250755) == "-2.507,55"
  {
    ExampleGrouped();
    assert PtbrBody(250755) == "2.507" + "," + Pad2(55);
    assert Pad2(55) == "55";
  }

  /** 2507 in groups of three is "2.507". */
  lemma ExampleGrouped()
    ensures Grouped(2507) == "2.507"
  {
    assert Pad3(507) == "507";
    assert NatToDigits(2) == "2";
  }

  // ================================================================= text

  /** `re.sub(r"[^\w\s]", " ", s)` */
  function PunctToSpace(s: string): (r: string)
    ensures |r| == |s|
    ensures forall i :: 0 <= i < |s| ==> r[i] == if IsWordChar(s[i]) || IsSpace(s[i]) then s[i] else ' '
  {
    if s == [] then [] else [if IsWordChar(s[0]) || IsSpace(s[0]) then s[0] else ' '] + PunctToSpace(s[1..])
  }

  lemma {:induction false} LowerCharIdempotent(c: char)
    ensures LowerChar(LowerChar(c)) == LowerChar(c)
  {
  }

  /** A character `clean_text` can leave: a lower-case word character or ' '. */
  predicate CleanChar(c: char) {
    (IsWordChar(c) || c == ' ') && LowerChar(c) == c
  }

  /** `clean_text`: None/NaN gives "". */
  function CleanText(v: Option<string>): (r: string)
    ensures Squashed(r)
    ensures forall c :: c in r ==> CleanChar(c)
    ensures v.None? ==> r == ""
  {
    match v
    case None => ""
    case Some(s) =>
      var p := PunctToSpace(Lower(s));
      var q := CollapseSpaces(p);
      CollapseShape(p);
      StripKeepsShape(q);
      PunctLowerChars(s);
      CleanChars(p, q);
      Strip(q)
  }

  /** After lower-casing and blanking punctuation, every non-space is a clean character. */
  lemma {:induction false} PunctLowerChars(s: string)
    ensures forall c :: c in PunctToSpace(Lower(s)) && !IsSpace(c) ==> CleanChar(c)
  {
    var l := Lower(s);
    var p := PunctToSpace(l);
    forall c | c in p && !IsSpace(c) ensures CleanChar(c) {
      var i :| 0 <= i < |p| && p[i] == c;
      if c != ' ' {
        assert p[i] == l[i] && l[i] == LowerChar(s[i]);
        LowerCharIdempotent(s[i]);
      }
    }
  }

  lemma {:induction false} CleanChars(p: string, q: string)
    requires forall c :: c in p && !IsSpace(c) ==> CleanChar(c)
    requires q == CollapseSpaces(p)
    ensures forall c :: c in Strip(q) ==> CleanChar(c)
  {
    forall c | c in Strip(q) ensures CleanChar(c) {
      assert c in q;
      CollapsedClean(p, c);
    }
  }

  /** Collapsing the spaces of text whose other characters are clean leaves clean characters. */
  lemma CollapsedClean(p: string, c: char)
    requires forall c :: c in p && !IsSpace(c) ==> CleanChar(c)
    requires c in CollapseSpaces(p)
    ensures CleanChar(c)
  {
    CollapseChars(p);
    CollapsePlain(p);
    var q := CollapseSpaces(p);
    var i :| 0 <= i < |q| && q[i] == c;
    if IsSpace(c) { assert q[i] == ' '; }
  }

  lemma {:induction false} CollapseKeepsShaped(s: string)
    requires NoDoubleSpace(s) && OnlyPlainSpaces(s)
    ensures CollapseSpaces(s) == s
    decreases |s|
  {
    if s != [] {
      if IsSpace(s[0]) {
        var rest := s[1..];
        if rest != [] { assert !IsSpace(rest[0]); }
        assert TrimLeft(rest) == rest;
        CollapseKeepsShaped(rest);
      } else {
        CollapseKeepsShaped(s[1..]);
      }
    }
  }

  lemma {:induction false} StripSquashed(s: string)
    requires Squashed(s)
    ensures Strip(s) == s
  {
    assert TrimLeft(s) == s;
    assert TrimRight(s) == s;
  }

  /** Cleaning is idempotent: cleaned text is a fixpoint. */
  lemma {:induction false} CleanTextIdempotent(v: Option<string>)
    ensures CleanText(Some(CleanText(v))) == CleanText(v)
  {
    CleanFixed(CleanText(v));
  }

  /** Squashed text of clean characters is left as it is. */
  lemma {:induction false} CleanFixed(r: string)
    requires Squashed(r) && forall c :: c in r ==> CleanChar(c)
    ensures CleanText(Some(r)) == r
  {
    LowerFixed(r);
    PunctFixed(r);
    CollapseKeepsShaped(r);
    StripSquashed(r);
  }

  lemma {:induction false} LowerFixed(r: string)
    requires forall c :: c in r ==> CleanChar(c)
    ensures Lower(r) == r
  {
    forall i | 0 <= i < |r| ensures Lower(r)[i] == r[i] { assert r[i] in r; }
  }

  lemma {:induction false} PunctFixed(r: string)
    requires forall c :: c in r ==> CleanChar(c)
    ensures PunctToSpace(r) == r
  {
    forall i | 0 <= i < |r| ensures PunctToSpace(r)[i] == r[i] { assert r[i] in r; }
  }

  /** The token set of `s.split()`. */
  function Tokens(s: string): set<string> {
    set k | 0 <= k < |Split(s)| :: Split(s)[k]
  }

  lemma {:induction false} SubsetCard<T>(a: set<T>, b: set<T>)
    requires a <= b
    ensures |a| <= |b|
  {
    if a != {} {
      var x :| x in a;
      SubsetCard(a - {x}, b - {x});
    }
  }

  /** `len(A & B) / max(1, len(A | B))` */
  function Jaccard(a: set<string>, b: set<string>): (j: real)
    ensures 0.0 <= j <= 1.0
  {
    SubsetCard(a * b, a + b);
    var u := |a + b|;
    (|a * b| as real) / (if u > 1 then u else 1) as real
  }

  lemma {:induction false} JaccardSymmetric(a: set<string>, b: set<string>)
    ensures Jaccard(a, b) == Jaccard(b, a)
  {
    assert a * b == b * a && a + b == b + a;
  }

  lemma {:induction false} JaccardSelf(a: set<string>)
    requires a != {}
    ensures Jaccard(a, a) == 1.0
  {
    assert a * a == a && a + a == a;
  }

  /** `SequenceMatcher(None, a, b).ratio()` is supplied by the caller. */
  ghost predicate IsRatio(ratio: (string, string) -> real) {
    forall x, y :: 0.0 <= ratio(x, y) <= 1.0
  }

  /** `desc_similarity` */
  function DescSimilarity(a: Option<string>, b: Option<string>, ratio: (string, string) -> real): (r: real)
    ensures 0.0 <= r && (IsRatio(ratio) ==> r <= 1.0)
    ensures CleanText(a) == "" || CleanText(b) == "" ==> r == 0.0
    ensures CleanText(a) != "" && CleanText(b) != "" ==>
      var j := Jaccard(Tokens(CleanText(a)), Tokens(CleanText(b)));
      var q := ratio(CleanText(a), CleanText(b));
      r >= j && r >= q && (r == j || r == q)
  {
    var ac := CleanText(a);
    var bc := CleanText(b);
    if ac == "" || bc == "" then 0.0
    else
      var q := ratio(ac, bc);
      var j := Jaccard(Tokens(ac), Tokens(bc));
      if q >= j then q else j
  }

  /** A non-empty description is fully similar to itself, whatever `ratio` says. */
  lemma {:induction false} SelfSimilarity(a: Option<string>, ratio: (string, string) -> real)
    requires IsRatio(ratio)
    requires CleanText(a) != ""
    ensures DescSimilarity(a, a, ratio) == 1.0
  {
    var ac := CleanText(a);
    assert !IsSpace(ac[0]);
    SplitEmpty(ac);
    assert Split(ac)[0] in Tokens(ac);
    JaccardSelf(Tokens(ac));
  }
}
