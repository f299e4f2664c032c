/** The two normalizers and `reconcile_movements` of
    `backend/utils/reconciliador.py`: a bank statement and a ledger extract
    are brought to one row shape, then matched in three stages.

    Stage 1 pairs rows with the same amount and the same calendar date of
    the movement (an inner join: one match per related pair). Stage 2 looks,
    for every bank row still open, at the ledger rows that were open after
    stage 1 and whose amount lies in a closed window around the bank amount,
    and takes the first one of best score `similarity - 0.01 * date gap`;
    it is accepted when that score reaches the threshold. Otherwise stage 3
    suggests the candidate with the closest date, and flags nothing.

    Rows are identified by position: the frames the normalizers receive carry
    a RangeIndex, so `orig_index` is the row number. */
module MovementMatcher {
  import opened Base
  import opened Numbers
  import opened Joins
  import opened Reconciliador

  // ============================================================ row shape

  /** The calendar dates a pandas Timestamp can hold, as day numbers
      (1677-09-21 to 2262-04-11, counted from 1970-01-01). */
  const MinDay := -106752
  const MaxDay := 106751
  type Day = d: int | MinDay <= d <= MaxDay

  /** One normalized row: `date_mov`, `date_val` (None for NaT), `desc`,
      `debito`, `credito`, the net `amount` and `saldo` (None for NaN). */
  datatype Movement = Movement(
    dateMov: Option<Day>, dateVal: Option<Day>, desc: string,
    debito: real, credito: real, amount: real, saldo: Option<real>)

  /** A spreadsheet as read: its column labels and its rows. */
  datatype Sheet = Sheet(columns: seq<string>, rows: seq<map<string, Value>>)

  /** A cell of a row; pandas fills a column a row lacks with NaN. */
  function Cell(row: map<string, Value>, col: string): Value {
    if col in row then row[col] else NaN
  }

  /** `if col:` on what `_find_col` returned (None and "" are falsy). */
  predicate Given(col: Option<string>) {
    col.Some? && col.value != ""
  }

  /** The candidate header names a normalizer looks for, per field. */
  datatype Layout = Layout(
    dataMov: seq<string>, dataVal: seq<string>, desc: seq<string>,
    debito: seq<string>, credito: seq<string>, saldo: seq<string>)

  /** `normalize_extrato_bai`'s candidates. */
  const BankLayout := Layout(
    ["data mov.", "data movimento", "data mov", "data_mov"],
    ["data valor", "data_valor", "data valor"],
    ["descritivo", "descritivo"],
    ["débito", "debito", "debito kz", "debito kz", "debito_kz"],
    ["crédito", "credito", "credito kz", "credito_kz"],
    ["movimento", "saldo", "saldo disponivel", "saldo_disponivel", "saldo apos movimento"])

  /** `normalize_contabilidade`'s candidates. */
  const LedgerLayout := Layout(
    ["data movimento", "data mov", "data_movimento"],
    ["data valor", "data_valor"],
    ["descritivo", "descritivo"],
    ["debito kz", "debito", "debito_kz"],
    ["credito kz", "credito", "credito_kz"],
    ["saldo disponivel", "saldo_disponivel", "saldo disponivel kz", "saldo"])

  /** The columns found for one layout. */
  datatype Found = Found(
    dataMov: Option<string>, dataVal: Option<string>, desc: Option<string>,
    debito: Option<string>, credito: Option<string>, saldo: Option<string>)

  function FindAll(cols: seq<string>, l: Layout): Found {
    Found(FindCol(cols, l.dataMov), FindCol(cols, l.dataVal), FindCol(cols, l.desc),
          FindCol(cols, l.debito), FindCol(cols, l.credito), FindCol(cols, l.saldo))
  }

  /** Every column a normalizer reads is a column of the sheet, so
      `df2[col]` never raises KeyError. */
  lemma {:induction false} FoundColumnsExist(cols: seq<string>, l: Layout)
    ensures var f := FindAll(cols, l);
      && (f.dataMov.Some? ==> f.dataMov.value in cols) && (f.dataVal.Some? ==> f.dataVal.value in cols)
      && (f.desc.Some? ==> f.desc.value in cols) && (f.debito.Some? ==> f.debito.value in cols)
      && (f.credito.Some? ==> f.credito.value in cols) && (f.saldo.Some? ==> f.saldo.value in cols)
  {
    FindColSpec(cols, l.dataMov);
    FindColSpec(cols, l.dataVal);
    FindColSpec(cols, l.desc);
    FindColSpec(cols, l.debito);
    FindColSpec(cols, l.credito);
    FindColSpec(cols, l.saldo);
  }

  /** `pd.to_datetime(column, dayfirst=True, errors="coerce")` followed by
      taking calendar dates: a whole-column conversion (pandas infers one
      format for the column), supplied by the caller. */
  ghost predicate IsDateParser(toDates: seq<Value> -> seq<Option<Day>>) {
    forall vs :: |toDates(vs)| == |vs|
  }

  /** A normalized frame. `datesTyped` is false when no movement-date column
      was found: `date_mov` then holds None and has object dtype. */
  datatype Frame = Frame(datesTyped: bool, rows: seq<Movement>)

  function Column(rows: seq<map<string, Value>>, col: string): (vs: seq<Value>)
    ensures |vs| == |rows| && forall i :: 0 <= i < |rows| ==> vs[i] == Cell(rows[i], col)
  {
    seq(|rows|, i requires 0 <= i < |rows| => Cell(rows[i], col))
  }

  /** The net amount: the bank counts credits as incoming
      (`credito - debito`), the ledger counts debits as incoming
      (`debito - credito`); both rounded to cents. */
  function NetAmount(bank: bool, debito: real, credito: real): (a: real)
    ensures IsCents(a)
  {
    if bank then Round2(credito - debito) else Round2(debito - credito)
  }

  /** The same debit and credit give opposite amounts on the two sides. */
  lemma {:induction false} OppositeSigns(debito: real, credito: real)
    ensures NetAmount(true, debito, credito) == -NetAmount(false, debito, credito)
  {
    Round2Neg(debito - credito);
    assert credito - debito == -(debito - credito);
  }

  /** One normalized row; `dm` and `dv` are its converted movement and
      value dates. A missing amount column reads as the integer 0. */
  function NormRow(row: map<string, Value>, f: Found, bank: bool, dm: Option<Day>, dv: Option<Day>,
                   show: Value -> string): (m: Movement)
    ensures m.debito == (if Given(f.debito) then ParseValorPtbr(Cell(row, f.debito.value)) else 0.0)
    ensures m.credito == (if Given(f.credito) then ParseValorPtbr(Cell(row, f.credito.value)) else 0.0)
    ensures m.amount == NetAmount(bank, m.debito, m.credito)
    ensures m.desc == (if Given(f.desc) then PyStr(Cell(row, f.desc.value), show) else "")
    ensures Given(f.desc) && Cell(row, f.desc.value).Str? ==> m.desc == Cell(row, f.desc.value).s
    ensures m.saldo.Some? <==> Given(f.saldo)
  {
    var deb := if Given(f.debito) then ParseValorPtbr(Cell(row, f.debito.value)) else ParseValorPtbr(Num(0.0));
    var cred := if Given(f.credito) then ParseValorPtbr(Cell(row, f.credito.value)) else ParseValorPtbr(Num(0.0));
    Movement(
      dm, dv,
      if Given(f.desc) then PyStr(Cell(row, f.desc.value), show) else "",
      deb, cred, NetAmount(bank, deb, cred),
      if Given(f.saldo) then Some(ParseValorPtbr(Cell(row, f.saldo.value))) else None)
  }

  /** A converted date column; a missing column gives None throughout
      (`pd.to_datetime(None)`). */
  function DateColumn(rows: seq<map<string, Value>>, col: Option<string>,
                      toDates: seq<Value> -> seq<Option<Day>>): (ds: seq<Option<Day>>)
    requires IsDateParser(toDates)
    ensures |ds| == |rows|
    ensures !Given(col) ==> forall i :: 0 <= i < |ds| ==> ds[i].None?
  {
    if Given(col) then toDates(Column(rows, col.value)) else seq(|rows|, _ => None)
  }

  function NormRows(rows: seq<map<string, Value>>, f: Found, bank: bool,
                    dms: seq<Option<Day>>, dvs: seq<Option<Day>>, show: Value -> string): (ms: seq<Movement>)
    requires |dms| == |rows| && |dvs| == |rows|
    ensures |ms| == |rows|
    ensures forall i :: 0 <= i < |rows| ==> ms[i] == NormRow(rows[i], f, bank, dms[i], dvs[i], show)
  {
    seq(|rows|, i requires 0 <= i < |rows| => NormRow(rows[i], f, bank, dms[i], dvs[i], show))
  }

  /** Both normalizers: one movement per input row, in order. */
  function Normalize(sheet: Sheet, l: Layout, bank: bool,
                     toDates: seq<Value> -> seq<Option<Day>>, show: Value -> string): (fr: Frame)
    requires IsDateParser(toDates)
    ensures |fr.rows| == |sheet.rows|
    ensures fr.datesTyped <==> Given(FindCol(sheet.columns, l.dataMov))
    ensures !fr.datesTyped ==> forall i :: 0 <= i < |fr.rows| ==> fr.rows[i].dateMov.None?
    ensures forall i :: 0 <= i < |fr.rows| ==>
      fr.rows[i].amount == NetAmount(bank, fr.rows[i].debito, fr.rows[i].credito)
  {
    var f := FindAll(sheet.columns, l);
    var dms := DateColumn(sheet.rows, f.dataMov, toDates);
    var dvs := DateColumn(sheet.rows, f.dataVal, toDates);
    Frame(Given(f.dataMov), NormRows(sheet.rows, f, bank, dms, dvs, show))
  }

  /** `normalize_extrato_bai`: the bank statement; credits are incoming. */
  function NormalizeBank(sheet: Sheet, toDates: seq<Value> -> seq<Option<Day>>, show: Value -> string): (fr: Frame)
    requires IsDateParser(toDates)
    ensures |fr.rows| == |sheet.rows|
    ensures forall i :: 0 <= i < |fr.rows| ==>
      fr.rows[i].amount == Round2(fr.rows[i].credito - fr.rows[i].debito)
  {
    Normalize(sheet, BankLayout, true, toDates, show)
  }

  /** `normalize_contabilidade`: the ledger; debits are incoming. */
  function NormalizeLedger(sheet: Sheet, toDates: seq<Value> -> seq<Option<Day>>, show: Value -> string): (fr: Frame)
    requires IsDateParser(toDates)
    ensures |fr.rows| == |sheet.rows|
    ensures forall i :: 0 <= i < |fr.rows| ==>
      fr.rows[i].amount == Round2(fr.rows[i].debito - fr.rows[i].credito)
  {
    Normalize(sheet, LedgerLayout, false, toDates, show)
  }

  // ======================================================= reconciliation

  /** The defaults of `reconcile_movements`. */
  const DefaultAmountTolerance := 0.01
  const DefaultThreshold := 0.55

  datatype Status = MatchedExact | MatchedFuzzy | Potential

  /** One entry of `matches` or `potential`. Dates are the calendar dates of
      `date_mov` (None for NaT). */
  datatype Entry = Entry(
    extIdx: nat, contIdx: nat, amount: real,
    dateExt: Option<Day>, dateCont: Option<Day>, descExt: string, descCont: string,
    amountDiff: real, dateDiff: Option<nat>, similarity: real, status: Status)

  datatype Summary = Summary(
    totalExt: nat, totalCont: nat, matchedAuto: nat, potential: nat,
    unmatchedExt: nat, unmatchedCont: nat)

  /** The result dictionary; the unmatched rows are given by row number. */
  datatype Reconciliation = Reconciliation(
    matches: seq<Entry>, potential: seq<Entry>,
    unmatchedExt: seq<nat>, unmatchedCont: seq<nat>, summary: Summary)

  // --------------------------------------------------------------- stage 1

  /** The merge keys: equal `amount` and equal `date_only` (two NaT dates
      are equal keys, as pandas joins missing keys with each other). */
  predicate SameKey(e: Movement, c: Movement) {
    e.amount == c.amount && e.dateMov == c.dateMov
  }

  /** `desc_similarity` as the matcher uses it, on two descriptions. */
  function DescSim(ratio: (string, string) -> real): (string, string) -> real {
    (a: string, b: string) => DescSimilarity(Some(a), Some(b), ratio)
  }

  predicate InRange(ps: seq<(nat, nat)>, n: nat, m: nat) {
    forall q :: 0 <= q < |ps| ==> ps[q].0 < n && ps[q].1 < m
  }

  lemma {:induction false} JoinInRange(ext: seq<Movement>, cont: seq<Movement>)
    ensures InRange(Join(ext, cont, SameKey), |ext|, |cont|)
  {
    var ps := Join(ext, cont, SameKey);
    forall q | 0 <= q < |ps| ensures ps[q].0 < |ext| && ps[q].1 < |cont| {
      assert ps[q] in ps;
    }
  }

  /** The `matched_exact` entry of a merged pair. */
  function ExactEntry(ext: seq<Movement>, cont: seq<Movement>, p: (nat, nat),
                      sim: (string, string) -> real): Entry
    requires p.0 < |ext| && p.1 < |cont|
  {
    var e, c := ext[p.0], cont[p.1];
    Entry(p.0, p.1, e.amount, e.dateMov, c.dateMov, e.desc, c.desc,
          0.0, Some(0), sim(e.desc, c.desc), MatchedExact)
  }

  /** The entries of the first k merged pairs, in merge order. */
  function ExactEntries(ext: seq<Movement>, cont: seq<Movement>, ps: seq<(nat, nat)>,
                        sim: (string, string) -> real, k: nat): (r: seq<Entry>)
    requires InRange(ps, |ext|, |cont|) && k <= |ps|
    ensures |r| == k
  {
    if k == 0 then [] else ExactEntries(ext, cont, ps, sim, k - 1) + [ExactEntry(ext, cont, ps[k - 1], sim)]
  }

  /** Entry q of stage 1 is the entry of merged pair q. */
  lemma {:induction false} ExactEntryAt(ext: seq<Movement>, cont: seq<Movement>, ps: seq<(nat, nat)>,
                                        sim: (string, string) -> real, k: nat, q: nat)
    requires InRange(ps, |ext|, |cont|) && q < k <= |ps|
    ensures ExactEntries(ext, cont, ps, sim, k)[q] == ExactEntry(ext, cont, ps[q], sim)
  {
    if q < k - 1 {
      ExactEntryAt(ext, cont, ps, sim, k - 1, q);
    }
  }

  /** Bank row i has an exact partner. */
  predicate ExtHit(ext: seq<Movement>, cont: seq<Movement>, i: nat)
    requires i < |ext|
  {
    exists j :: 0 <= j < |cont| && SameKey(ext[i], cont[j])
  }

  /** Ledger row j has an exact partner. */
  predicate ContHit(ext: seq<Movement>, cont: seq<Movement>, j: nat)
    requires j < |cont|
  {
    exists i :: 0 <= i < |ext| && SameKey(ext[i], cont[j])
  }

  /** The `_matched` flags after stage 1. */
  function ExtHits(ext: seq<Movement>, cont: seq<Movement>): (f: seq<bool>)
    ensures |f| == |ext| && forall i :: 0 <= i < |ext| ==> f[i] == ExtHit(ext, cont, i)
  {
    seq(|ext|, i requires 0 <= i < |ext| => ExtHit(ext, cont, i))
  }

  function ContHits(ext: seq<Movement>, cont: seq<Movement>): (f: seq<bool>)
    ensures |f| == |cont| && forall j :: 0 <= j < |cont| ==> f[j] == ContHit(ext, cont, j)
  {
    seq(|cont|, j requires 0 <= j < |cont| => ContHit(ext, cont, j))
  }

  function Falses(n: nat): (f: seq<bool>)
    ensures |f| == n && forall x :: 0 <= x < n ==> !f[x]
  {
    seq(n, _ => false)
  }

  /** `f` with the positions `idx[..k]` set. */
  function Mark(f: seq<bool>, idx: seq<nat>, k: nat): (r: seq<bool>)
    requires k <= |idx| && forall q :: 0 <= q < |idx| ==> idx[q] < |f|
    ensures |r| == |f|
  {
    if k == 0 then f else Mark(f, idx, k - 1)[idx[k - 1] := true]
  }

  /** A position is set after marking exactly when it was set before or
      is one of the first k marked positions. */
  lemma {:induction false} MarkAt(f: seq<bool>, idx: seq<nat>, k: nat, x: nat)
    requires k <= |idx| && (forall q :: 0 <= q < |idx| ==> idx[q] < |f|) && x < |f|
    ensures Mark(f, idx, k)[x] <==> f[x] || exists q :: 0 <= q < k && idx[q] == x
  {
    if k > 0 {
      MarkAt(f, idx, k - 1, x);
    }
  }

  function Firsts(ps: seq<(nat, nat)>): (r: seq<nat>)
    ensures |r| == |ps| && forall q :: 0 <= q < |ps| ==> r[q] == ps[q].0
  {
    seq(|ps|, q requires 0 <= q < |ps| => ps[q].0)
  }

  function Seconds(ps: seq<(nat, nat)>): (r: seq<nat>)
    ensures |r| == |ps| && forall q :: 0 <= q < |ps| ==> r[q] == ps[q].1
  {
    seq(|ps|, q requires 0 <= q < |ps| => ps[q].1)
  }

  /** Flagging the bank row of every merged pair flags exactly the bank
      rows with an exact partner. */
  lemma {:induction false} MarkedExtHits(ext: seq<Movement>, cont: seq<Movement>, ps: seq<(nat, nat)>)
    requires ps == Join(ext, cont, SameKey) && InRange(ps, |ext|, |cont|)
    ensures Mark(Falses(|ext|), Firsts(ps), |ps|) == ExtHits(ext, cont)
  {
    var me, h := Mark(Falses(|ext|), Firsts(ps), |ps|), ExtHits(ext, cont);
    forall x | 0 <= x < |ext| ensures me[x] == h[x] {
      MarkedExtAt(ext, cont, ps, x);
    }
  }

  lemma {:induction false} MarkedExtAt(ext: seq<Movement>, cont: seq<Movement>, ps: seq<(nat, nat)>, x: nat)
    requires ps == Join(ext, cont, SameKey) && InRange(ps, |ext|, |cont|) && x < |ext|
    ensures Mark(Falses(|ext|), Firsts(ps), |ps|)[x] == ExtHit(ext, cont, x)
  {
    var fs := Firsts(ps);
    MarkAt(Falses(|ext|), fs, |ps|, x);
    if exists q :: 0 <= q < |ps| && fs[q] == x {
      var q :| 0 <= q < |ps| && fs[q] == x;
      ExtHitAt(ext, cont, q);
    }
    if ExtHit(ext, cont, x) {
      ExtHitJoined(ext, cont, x);
      var q :| 0 <= q < |ps| && ps[q].0 == x;
      assert fs[q] == x;
    }
  }

  /** The bank row of a merged pair has an exact partner. */
  lemma ExtHitAt(ext: seq<Movement>, cont: seq<Movement>, q: nat)
    requires q < |Join(ext, cont, SameKey)|
    ensures var p := Join(ext, cont, SameKey)[q]; p.0 < |ext| && ExtHit(ext, cont, p.0)
  {
    JoinAt(ext, cont, SameKey, q);
  }

  /** A bank row with an exact partner is the bank row of some merged pair. */
  lemma ExtHitJoined(ext: seq<Movement>, cont: seq<Movement>, x: nat)
    requires x < |ext| && ExtHit(ext, cont, x)
    ensures exists q :: 0 <= q < |Join(ext, cont, SameKey)| && Join(ext, cont, SameKey)[q].0 == x
  {
    var j :| 0 <= j < |cont| && SameKey(ext[x], cont[j]);
    JoinHas(ext, cont, SameKey, x, j);
  }

  /** The same for the ledger rows. */
  lemma {:induction false} MarkedContHits(ext: seq<Movement>, cont: seq<Movement>, ps: seq<(nat, nat)>)
    requires ps == Join(ext, cont, SameKey) && InRange(ps, |ext|, |cont|)
    ensures Mark(Falses(|cont|), Seconds(ps), |ps|) == ContHits(ext, cont)
  {
    var mc, h := Mark(Falses(|cont|), Seconds(ps), |ps|), ContHits(ext, cont);
    forall y | 0 <= y < |cont| ensures mc[y] == h[y] {
      MarkedContAt(ext, cont, ps, y);
    }
  }

  lemma {:induction false} MarkedContAt(ext: seq<Movement>, cont: seq<Movement>, ps: seq<(nat, nat)>, y: nat)
    requires ps == Join(ext, cont, SameKey) && InRange(ps, |ext|, |cont|) && y < |cont|
    ensures Mark(Falses(|cont|), Seconds(ps), |ps|)[y] == ContHit(ext, cont, y)
  {
    var ss := Seconds(ps);
    MarkAt(Falses(|cont|), ss, |ps|, y);
    if exists q :: 0 <= q < |ps| && ss[q] == y {
      var q :| 0 <= q < |ps| && ss[q] == y;
      ContHitAt(ext, cont, q);
    }
    if ContHit(ext, cont, y) {
      ContHitJoined(ext, cont, y);
      var q :| 0 <= q < |ps| && ps[q].1 == y;
      assert ss[q] == y;
    }
  }

  lemma ContHitAt(ext: seq<Movement>, cont: seq<Movement>, q: nat)
    requires q < |Join(ext, cont, SameKey)|
    ensures var p := Join(ext, cont, SameKey)[q]; p.1 < |cont| && ContHit(ext, cont, p.1)
  {
    JoinAt(ext, cont, SameKey, q);
  }

  lemma ContHitJoined(ext: seq<Movement>, cont: seq<Movement>, y: nat)
    requires y < |cont| && ContHit(ext, cont, y)
    ensures exists q :: 0 <= q < |Join(ext, cont, SameKey)| && Join(ext, cont, SameKey)[q].1 == y
  {
    var i :| 0 <= i < |ext| && SameKey(ext[i], cont[y]);
    JoinHas(ext, cont, SameKey, i, y);
  }

  // --------------------------------------------------------------- stage 2

  /** `lower <= amount <= upper` with `lower, upper = amt - tol, amt + tol`. */
  predicate InWindow(e: Movement, c: Movement, tol: real) {
    e.amount - tol <= c.amount <= e.amount + tol
  }

  /** `cands`: the ledger rows j < m open after stage 1 whose amount is in
      the window, in row order. */
  function Window(e: Movement, cont: seq<Movement>, taken: seq<bool>, tol: real, m: nat): (w: seq<nat>)
    requires |taken| == |cont| && m <= |cont|
    ensures forall j: nat :: j in w <==> j < m && !taken[j] && InWindow(e, cont[j], tol)
    ensures forall a, b :: 0 <= a < b < |w| ==> w[a] < w[b]
    ensures forall q :: 0 <= q < |w| ==> w[q] < m
  {
    if m == 0 then []
    else
      var w := Window(e, cont, taken, tol, m - 1);
      if !taken[m - 1] && InWindow(e, cont[m - 1], tol) then w + [m - 1] else w
  }

  /** The day gap of two dates when both are present. */
  function DateDiff(a: Option<Day>, b: Option<Day>): Option<nat> {
    if a.Some? && b.Some? then Some(if a.value >= b.value then a.value - b.value else b.value - a.value)
    else None
  }

  /** `sim - 0.01 * date_diff`, no penalty when a date is missing. */
  function Score(e: Movement, c: Movement, sim: (string, string) -> real): real
  {
    var dd := DateDiff(e.dateMov, c.dateMov);
    sim(e.desc, c.desc) - 0.01 * (if dd.Some? then dd.value as real else 0.0)
  }

  /** The initial `best_score`. */
  const NoScore := -999.0

  /** The score of every candidate of `w`. */
  function Scores(e: Movement, cont: seq<Movement>, w: seq<nat>, sim: (string, string) -> real): (r: seq<real>)
    requires forall q :: 0 <= q < |w| ==> w[q] < |cont|
    ensures |r| == |w| && forall q :: 0 <= q < |w| ==> r[q] == Score(e, cont[w[q]], sim)
  {
    seq(|w|, q requires 0 <= q < |w| => Score(e, cont[w[q]], sim))
  }

  /** `best` and `best_score` after the first k scores: a position and its
      score, replaced only by a strictly greater score. */
  function Best(xs: seq<real>, k: nat): (Option<nat>, real)
    requires k <= |xs|
  {
    if k == 0 then (None, NoScore)
    else
      var prev := Best(xs, k - 1);
      if xs[k - 1] > prev.1 then (Some(k - 1), xs[k - 1]) else prev
  }

  /** The scan finds the first maximal score above the sentinel, and
      nothing when no score beats it. */
  lemma {:induction false} BestIsFirstMax(xs: seq<real>, k: nat)
    requires k <= |xs|
    ensures var r := Best(xs, k);
      && (r.0.None? ==> r.1 == NoScore && forall q :: 0 <= q < k ==> xs[q] <= NoScore)
      && (r.0.Some? ==> r.0.value < k && r.1 == xs[r.0.value] && r.1 > NoScore)
      && (forall q :: 0 <= q < k ==> xs[q] <= r.1)
      && (r.0.Some? ==> forall q :: 0 <= q < r.0.value ==> xs[q] < r.1)
  {
    if k > 0 { BestIsFirstMax(xs, k - 1); }
  }

  /** `dd_val`: the day gap, 999999 when a date is missing. */
  function DdVal(e: Movement, c: Movement): (v: nat)
    ensures v < NoGap
  {
    var dd := DateDiff(e.dateMov, c.dateMov);
    if dd.Some? then dd.value else 999999
  }

  function DdVals(e: Movement, cont: seq<Movement>, w: seq<nat>): (r: seq<nat>)
    requires forall q :: 0 <= q < |w| ==> w[q] < |cont|
    ensures |r| == |w| && forall q :: 0 <= q < |w| ==> r[q] == DdVal(e, cont[w[q]])
  {
    seq(|w|, q requires 0 <= q < |w| => DdVal(e, cont[w[q]]))
  }

  /** The initial `best_dd`. */
  const NoGap := 1000000

  /** `best2` and `best_dd` after the first k gaps. */
  function Closest(ds: seq<nat>, k: nat): (Option<nat>, int)
    requires k <= |ds|
  {
    if k == 0 then (None, NoGap)
    else
      var prev := Closest(ds, k - 1);
      if ds[k - 1] < prev.1 then (Some(k - 1), ds[k - 1]) else prev
  }

  /** With every gap below the sentinel the scan finds the first minimal
      gap, so it finds one as soon as there is a candidate. */
  lemma {:induction false} ClosestIsFirstMin(ds: seq<nat>, k: nat)
    requires k <= |ds| && forall q :: 0 <= q < |ds| ==> ds[q] < NoGap
    ensures var r := Closest(ds, k);
      && (r.0.None? <==> k == 0)
      && (r.0.None? ==> r.1 == NoGap)
      && (r.0.Some? ==> r.0.value < k && r.1 == ds[r.0.value])
      && (forall q :: 0 <= q < k ==> ds[q] >= r.1)
      && (r.0.Some? ==> forall q :: 0 <= q < r.0.value ==> ds[q] > r.1)
  {
    if k > 0 { ClosestIsFirstMin(ds, k - 1); }
  }

  /** What stage 2 does with one open bank row. */
  datatype Outcome = Accept(j: nat) | Suggest(j: nat) | NoDecision

  function Decide(e: Movement, cont: seq<Movement>, taken: seq<bool>, tol: real, thr: real,
                  sim: (string, string) -> real): (o: Outcome)
    requires |taken| == |cont|
    ensures o.NoDecision? <==> Window(e, cont, taken, tol, |cont|) == []
    ensures !o.NoDecision? ==> o.j < |cont| && !taken[o.j] && InWindow(e, cont[o.j], tol)
    ensures o.Accept? ==> Score(e, cont[o.j], sim) >= thr
  {
    var w := Window(e, cont, taken, tol, |cont|);
    var xs := Scores(e, cont, w, sim);
    var b := Best(xs, |w|);
    if b.0.Some? && b.1 >= thr then
      BestIsFirstMax(xs, |w|);
      assert w[b.0.value] in w;
      Accept(w[b.0.value])
    else if w != [] then
      var ds := DdVals(e, cont, w);
      var c := Closest(ds, |w|);
      ClosestIsFirstMin(ds, |w|);
      assert w[c.0.value] in w;
      Suggest(w[c.0.value])
    else NoDecision
  }

  /** The entry stage 2 writes for bank row i and ledger row j. */
  function PairEntry(i: nat, e: Movement, j: nat, c: Movement, sim: (string, string) -> real, st: Status): Entry {
    Entry(i, j, e.amount, e.dateMov, c.dateMov, e.desc, c.desc,
          Round2(e.amount - c.amount), DateDiff(e.dateMov, c.dateMov), sim(e.desc, c.desc), st)
  }

  /** Stage 2's decision for bank row i; rows matched in stage 1 are not
      among `ext_cands`. */
  function RowOutcome(ext: seq<Movement>, cont: seq<Movement>, hitExt: seq<bool>, hitCont: seq<bool>,
                      tol: real, thr: real, sim: (string, string) -> real, i: nat): (o: Outcome)
    requires |hitExt| == |ext| && |hitCont| == |cont| && i < |ext|
    ensures !o.NoDecision? ==> !hitExt[i] && o.j < |cont| && !hitCont[o.j] && InWindow(ext[i], cont[o.j], tol)
  {
    if hitExt[i] then NoDecision else Decide(ext[i], cont, hitCont, tol, thr, sim)
  }

  /** The lists stage 2 has built and the `_matched` flags after it has
      visited the first n bank rows. */
  datatype Stage = Stage(fuzzy: seq<Entry>, potential: seq<Entry>, extFlags: seq<bool>, contFlags: seq<bool>)

  /** Stage 2 on bank row i, from the state `st` the earlier rows left. */
  function StepRow(ext: seq<Movement>, cont: seq<Movement>, hitExt: seq<bool>, hitCont: seq<bool>,
                   tol: real, thr: real, sim: (string, string) -> real, st: Stage, i: nat): (r: Stage)
    requires |hitExt| == |ext| && |hitCont| == |cont| && i < |ext|
    requires |st.extFlags| == |ext| && |st.contFlags| == |cont|
    ensures |r.extFlags| == |ext| && |r.contFlags| == |cont|
  {
    match RowOutcome(ext, cont, hitExt, hitCont, tol, thr, sim, i)
    case Accept(j) =>
      Stage(st.fuzzy + [PairEntry(i, ext[i], j, cont[j], sim, MatchedFuzzy)], st.potential,
            st.extFlags[i := true], st.contFlags[j := true])
    case Suggest(j) =>
      Stage(st.fuzzy, st.potential + [PairEntry(i, ext[i], j, cont[j], sim, Potential)],
            st.extFlags, st.contFlags)
    case NoDecision => st
  }

  function Stage2(ext: seq<Movement>, cont: seq<Movement>, hitExt: seq<bool>, hitCont: seq<bool>,
                  tol: real, thr: real, sim: (string, string) -> real, n: nat): (st: Stage)
    requires |hitExt| == |ext| && |hitCont| == |cont| && n <= |ext|
    ensures |st.extFlags| == |ext| && |st.contFlags| == |cont|
  {
    if n == 0 then Stage([], [], hitExt, hitCont)
    else StepRow(ext, cont, hitExt, hitCont, tol, thr, sim, Stage2(ext, cont, hitExt, hitCont, tol, thr, sim, n - 1), n - 1)
  }

  // --------------------------------------------------------------- results

  /** The row numbers below n whose flag is unset, in order
      (`df[~df["_matched"]]`). */
  function Unflagged(f: seq<bool>, n: nat): (r: seq<nat>)
    requires n <= |f|
    ensures forall x: nat :: x in r <==> x < n && !f[x]
    ensures forall a, b :: 0 <= a < b < |r| ==> r[a] < r[b]
    ensures forall q :: 0 <= q < |r| ==> r[q] < n
  {
    if n == 0 then []
    else
      var r := Unflagged(f, n - 1);
      if !f[n - 1] then r + [n - 1] else r
  }

  /** `len([m for m in matches if m["status"].startswith("matched")])` */
  function CountMatched(ms: seq<Entry>): (k: nat)
    ensures k <= |ms|
  {
    if ms == [] then 0
    else CountMatched(ms[..|ms| - 1]) + (if ms[|ms| - 1].status != Potential then 1 else 0)
  }

  /** The `matched_exact` entries, in merge order. */
  function ExactMatches(ext: seq<Movement>, cont: seq<Movement>, sim: (string, string) -> real): (r: seq<Entry>)
    ensures |r| == |Join(ext, cont, SameKey)|
  {
    var ps := Join(ext, cont, SameKey);
    JoinInRange(ext, cont);
    ExactEntries(ext, cont, ps, sim, |ps|)
  }

  /** Stage 2 over all bank rows, from the flags stage 1 left. */
  function FuzzyPass(ext: seq<Movement>, cont: seq<Movement>, tol: real, thr: real,
                     sim: (string, string) -> real): (st: Stage)
    ensures |st.extFlags| == |ext| && |st.contFlags| == |cont|
  {
    Stage2(ext, cont, ExtHits(ext, cont), ContHits(ext, cont), tol, thr, sim, |ext|)
  }

  /** The whole result of `reconcile_movements` on two normalized frames. */
  function Reconciled(ext: seq<Movement>, cont: seq<Movement>, tol: real, thr: real,
                      sim: (string, string) -> real): Reconciliation
  {
    var exact := ExactMatches(ext, cont, sim);
    var st := FuzzyPass(ext, cont, tol, thr, sim);
    var matches := exact + st.fuzzy;
    var ue := Unflagged(st.extFlags, |ext|);
    var uc := Unflagged(st.contFlags, |cont|);
    Reconciliation(matches, st.potential, ue, uc,
                   Summary(|ext|, |cont|, CountMatched(matches), |st.potential|, |ue|, |uc|))
  }

  // ------------------------------------------------------- the imperative code

  /** The candidate filter of stage 2. */
  method Candidates(e: Movement, cont: seq<Movement>, taken: seq<bool>, tol: real) returns (w: seq<nat>)
    requires |taken| == |cont|
    ensures w == Window(e, cont, taken, tol, |cont|)
  {
    var lower, upper := e.amount - tol, e.amount + tol;
    w := [];
    var m := 0;
    while m < |cont|
      invariant m <= |cont|
      invariant w == Window(e, cont, taken, tol, m)
    {
      if cont[m].amount >= lower && cont[m].amount <= upper && !taken[m] {
        w := w + [m];
      }
      m := m + 1;
    }
  }

  /** The scoring loop: the first candidate of strictly greatest score. */
  method BestCandidate(e: Movement, cont: seq<Movement>, w: seq<nat>, sim: (string, string) -> real)
    returns (best: Option<nat>, bestScore: real)
    requires forall q :: 0 <= q < |w| ==> w[q] < |cont|
    ensures (best, bestScore) == Best(Scores(e, cont, w, sim), |w|)
  {
    best, bestScore := None, NoScore;
    var q := 0;
    while q < |w|
      invariant q <= |w|
      invariant (best, bestScore) == Best(Scores(e, cont, w, sim), q)
    {
      var c := cont[w[q]];
      var dateDiff := DateDiff(e.dateMov, c.dateMov);
      var s := sim(e.desc, c.desc);
      var score := s - 0.01 * (if dateDiff.Some? then dateDiff.value as real else 0.0);
      if score > bestScore {
        best, bestScore := Some(q), score;
      }
      q := q + 1;
    }
  }

  /** The closest-date loop of the potential stage. */
  method ClosestCandidate(e: Movement, cont: seq<Movement>, w: seq<nat>) returns (best: Option<nat>, bestDd: int)
    requires forall q :: 0 <= q < |w| ==> w[q] < |cont|
    ensures (best, bestDd) == Closest(DdVals(e, cont, w), |w|)
  {
    ghost var ds := DdVals(e, cont, w);
    best, bestDd := None, NoGap;
    var q := 0;
    while q < |w|
      invariant q <= |w|
      invariant (best, bestDd) == Closest(ds, q)
    {
      var ddVal := DdVal(e, cont[w[q]]);
      if ddVal < bestDd {
        best, bestDd := Some(q), ddVal;
      }
      q := q + 1;
    }
  }

  /** Flags both rows of a merged pair. */
  method MarkPair(extFlag: array<bool>, contFlag: array<bool>, p: (nat, nat))
    requires extFlag != contFlag && p.0 < extFlag.Length && p.1 < contFlag.Length
    modifies extFlag, contFlag
    ensures extFlag[..] == old(extFlag[..])[p.0 := true]
    ensures contFlag[..] == old(contFlag[..])[p.1 := true]
  {
    extFlag[p.0] := true;
    contFlag[p.1] := true;
  }

  /** Stage 1: one `matched_exact` entry per merged pair, its two rows
      flagged. */
  method ExactStage(ext: seq<Movement>, cont: seq<Movement>, sim: (string, string) -> real,
                    extFlag: array<bool>, contFlag: array<bool>) returns (matches: seq<Entry>)
    requires extFlag != contFlag
    requires extFlag[..] == Falses(|ext|) && contFlag[..] == Falses(|cont|)
    modifies extFlag, contFlag
    ensures InRange(Join(ext, cont, SameKey), |ext|, |cont|)
    ensures matches == ExactEntries(ext, cont, Join(ext, cont, SameKey), sim, |Join(ext, cont, SameKey)|)
    ensures extFlag[..] == ExtHits(ext, cont) && contFlag[..] == ContHits(ext, cont)
  {
    var ps := Join(ext, cont, SameKey);
    JoinInRange(ext, cont);
    matches := [];
    var k := 0;
    while k < |ps|
      invariant k <= |ps|
      invariant matches == ExactEntries(ext, cont, ps, sim, k)
      invariant extFlag[..] == Mark(Falses(|ext|), Firsts(ps), k)
      invariant contFlag[..] == Mark(Falses(|cont|), Seconds(ps), k)
    {
      var p := ps[k];
      matches := matches + [ExactEntry(ext, cont, p, sim)];
      MarkPair(extFlag, contFlag, p);
      k := k + 1;
    }
    MarkedExtHits(ext, cont, ps);
    MarkedContHits(ext, cont, ps);
  }

  /** The body of the stage-2 loop for bank row i: accept the best
      candidate, or suggest the closest one, or do nothing. */
  method FuzzyRow(ext: seq<Movement>, cont: seq<Movement>, hitExt: seq<bool>, hitCont: seq<bool>,
                  tol: real, thr: real, sim: (string, string) -> real, i: nat,
                  extFlag: array<bool>, contFlag: array<bool>, fuzzy: seq<Entry>, potential: seq<Entry>)
    returns (fuzzy': seq<Entry>, potential': seq<Entry>)
    requires |hitExt| == |ext| && |hitCont| == |cont| && i < |ext| && extFlag != contFlag
    requires extFlag.Length == |ext| && contFlag.Length == |cont|
    modifies extFlag, contFlag
    ensures Stage(fuzzy', potential', extFlag[..], contFlag[..])
      == StepRow(ext, cont, hitExt, hitCont, tol, thr, sim, Stage(fuzzy, potential, old(extFlag[..]), old(contFlag[..])), i)
  {
    fuzzy', potential' := fuzzy, potential;
    ghost var st := Stage(fuzzy, potential, extFlag[..], contFlag[..]);
    if !hitExt[i] {
      var e := ext[i];
      var w := Candidates(e, cont, hitCont, tol);
      var best, bestScore := BestCandidate(e, cont, w, sim);
      if best.Some? && bestScore >= thr {
        BestIsFirstMax(Scores(e, cont, w, sim), |w|);
        var j := w[best.value];
        assert j in w;
        assert RowOutcome(ext, cont, hitExt, hitCont, tol, thr, sim, i) == Accept(j);
        fuzzy' := fuzzy + [PairEntry(i, e, j, cont[j], sim, MatchedFuzzy)];
        assert StepRow(ext, cont, hitExt, hitCont, tol, thr, sim, st, i)
          == Stage(fuzzy', potential, st.extFlags[i := true], st.contFlags[j := true]);
        MarkPair(extFlag, contFlag, (i, j));
      } else if w != [] {
        var best2, _ := ClosestCandidate(e, cont, w);
        ClosestIsFirstMin(DdVals(e, cont, w), |w|);
        var j := w[best2.value];
        assert j in w;
        assert RowOutcome(ext, cont, hitExt, hitCont, tol, thr, sim, i) == Suggest(j);
        potential' := potential + [PairEntry(i, e, j, cont[j], sim, Potential)];
        assert StepRow(ext, cont, hitExt, hitCont, tol, thr, sim, st, i) == Stage(fuzzy, potential', st.extFlags, st.contFlags);
      } else {
        assert RowOutcome(ext, cont, hitExt, hitCont, tol, thr, sim, i) == NoDecision;
      }
    } else {
      assert RowOutcome(ext, cont, hitExt, hitCont, tol, thr, sim, i) == NoDecision;
    }
  }

  /** The row numbers whose flag is unset. */
  method UnmatchedRows(flags: array<bool>) returns (r: seq<nat>)
    ensures r == Unflagged(flags[..], flags.Length)
  {
    r := [];
    var x := 0;
    while x < flags.Length
      invariant x <= flags.Length
      invariant r == Unflagged(flags[..], x)
    {
      if !flags[x] { r := r + [x]; }
      x := x + 1;
    }
  }

  /** The stage-2 loop over the bank rows. */
  method FuzzyStage(ext: seq<Movement>, cont: seq<Movement>, tol: real, thr: real,
                    sim: (string, string) -> real, extFlag: array<bool>, contFlag: array<bool>)
    returns (fuzzy: seq<Entry>, potential: seq<Entry>)
    requires extFlag != contFlag && extFlag.Length == |ext| && contFlag.Length == |cont|
    modifies extFlag, contFlag
    ensures Stage(fuzzy, potential, extFlag[..], contFlag[..])
      == Stage2(ext, cont, old(extFlag[..]), old(contFlag[..]), tol, thr, sim, |ext|)
  {
    // `ext_cands` and `cont_cands` are snapshots of the flags
    var hitExt, hitCont := extFlag[..], contFlag[..];
    fuzzy, potential := [], [];
    var i := 0;
    while i < |ext|
      invariant i <= |ext|
      invariant Stage2(ext, cont, hitExt, hitCont, tol, thr, sim, i) == Stage(fuzzy, potential, extFlag[..], contFlag[..])
    {
      fuzzy, potential := FuzzyRow(ext, cont, hitExt, hitCont, tol, thr, sim, i, extFlag, contFlag, fuzzy, potential);
      i := i + 1;
    }
  }

  /** `reconcile_movements` after normalization: the `_matched` columns are
      arrays of flags set in place, `matches` and `potential` grow by
      appending. */
  method MatchMovements(ext: seq<Movement>, cont: seq<Movement>, tol: real, thr: real,
                        sim: (string, string) -> real) returns (out: Reconciliation)
    ensures out == Reconciled(ext, cont, tol, thr, sim)
  {
    var extFlag := new bool[|ext|](_ => false);
    var contFlag := new bool[|cont|](_ => false);
    assert extFlag[..] == Falses(|ext|);
    assert contFlag[..] == Falses(|cont|);
    var exact := ExactStage(ext, cont, sim, extFlag, contFlag);
    var fuzzy, potential := FuzzyStage(ext, cont, tol, thr, sim, extFlag, contFlag);
    var unmatchedExt := UnmatchedRows(extFlag);
    var unmatchedCont := UnmatchedRows(contFlag);
    var matches := exact + fuzzy;
    out := Reconciliation(matches, potential, unmatchedExt, unmatchedCont,
      Summary(|ext|, |cont|, CountMatched(matches), |potential|, |unmatchedExt|, |unmatchedCont|));
  }

  /** What `reconcile_movements` returns on two normalized frames: when a
      frame has no movement-date column its `date_mov` is not
      datetime-typed and `.dt` raises AttributeError. */
  function FramesReconciled(ext: Frame, cont: Frame, tol: real, thr: real, sim: (string, string) -> real)
    : Result<Reconciliation, PyError>
  {
    if !ext.datesTyped || !cont.datesTyped then Err(AttributeError)
    else Ok(Reconciled(ext.rows, cont.rows, tol, thr, sim))
  }

  /** The body of `reconcile_movements` after both frames are normalized. */
  method MatchFrames(ext: Frame, cont: Frame, tol: real, thr: real, sim: (string, string) -> real)
    returns (r: Result<Reconciliation, PyError>)
    ensures r == FramesReconciled(ext, cont, tol, thr, sim)
  {
    if !ext.datesTyped || !cont.datesTyped {
      return Err(AttributeError);
    }
    var out := MatchMovements(ext.rows, cont.rows, tol, thr, sim);
    r := Ok(out);
  }

  /** `reconcile_movements(extrato_df, contab_df, amount_tolerance,
      date_tolerance_days, desc_similarity_threshold)`.
      `date_tolerance_days` has no effect: the only code that reads it is a
      `pass`. */
  method ReconcileMovements(bank: Sheet, ledger: Sheet, tol: real, dateTol: int, thr: real,
                            ratio: (string, string) -> real,
                            toDates: seq<Value> -> seq<Option<Day>>, show: Value -> string)
    returns (r: Result<Reconciliation, PyError>)
    requires IsDateParser(toDates)
    ensures r == FramesReconciled(NormalizeBank(bank, toDates, show), NormalizeLedger(ledger, toDates, show),
                                  tol, thr, DescSim(ratio))
  {
    var ext := NormalizeBank(bank, toDates, show);
    var cont := NormalizeLedger(ledger, toDates, show);
    r := MatchFrames(ext, cont, tol, thr, DescSim(ratio));
  }

  // ================================================================ lemmas

  /** An open candidate in the window of `e` sits at some position of it. */
  lemma WindowPos(e: Movement, cont: seq<Movement>, taken: seq<bool>, tol: real, k: nat)
    requires |taken| == |cont| && k < |cont| && !taken[k] && InWindow(e, cont[k], tol)
    ensures exists q :: 0 <= q < |Window(e, cont, taken, tol, |cont|)| && Window(e, cont, taken, tol, |cont|)[q] == k
  {
    assert k in Window(e, cont, taken, tol, |cont|);
  }

  /** In an increasing sequence a smaller entry sits at an earlier position. */
  lemma IncreasingPos(w: seq<nat>, q: nat, p: nat)
    requires q < |w| && p < |w| && forall a, b :: 0 <= a < b < |w| ==> w[a] < w[b]
    requires w[q] < w[p]
    ensures q < p
  {
  }

  /** The candidate at window position q scores at most the best score,
      and strictly less when it comes before the chosen position. */
  lemma BestBound(e: Movement, cont: seq<Movement>, w: seq<nat>, sim: (string, string) -> real, q: nat)
    requires (forall i :: 0 <= i < |w| ==> w[i] < |cont|) && q < |w|
    ensures var b := Best(Scores(e, cont, w, sim), |w|);
      && Score(e, cont[w[q]], sim) <= b.1
      && (b.0.Some? && q < b.0.value ==> Score(e, cont[w[q]], sim) < b.1)
  {
    BestIsFirstMax(Scores(e, cont, w, sim), |w|);
  }

  /** An open candidate in the window of `e` is scored: at most the best
      score, and strictly below it when it comes before the chosen row. */
  lemma BestBeats(e: Movement, cont: seq<Movement>, taken: seq<bool>, tol: real, sim: (string, string) -> real, k: nat)
    requires |taken| == |cont| && k < |cont| && !taken[k] && InWindow(e, cont[k], tol)
    ensures var w := Window(e, cont, taken, tol, |cont|); var b := Best(Scores(e, cont, w, sim), |w|);
      && Score(e, cont[k], sim) <= b.1
      && (b.0.Some? && b.0.value < |w| && k < w[b.0.value] ==> Score(e, cont[k], sim) < b.1)
  {
    var w := Window(e, cont, taken, tol, |cont|);
    WindowPos(e, cont, taken, tol, k);
    var q :| 0 <= q < |w| && w[q] == k;
    BestBound(e, cont, w, sim, q);
    var b := Best(Scores(e, cont, w, sim), |w|);
    if b.0.Some? && b.0.value < |w| && k < w[b.0.value] {
      IncreasingPos(w, q, b.0.value);
    }
  }

  /** An accepted row is the window position the scoring loop chose, and
      its score is the best score. */
  lemma AcceptedAt(e: Movement, cont: seq<Movement>, taken: seq<bool>, tol: real, thr: real,
                   sim: (string, string) -> real, j: nat)
    requires |taken| == |cont| && Decide(e, cont, taken, tol, thr, sim) == Accept(j)
    ensures var w := Window(e, cont, taken, tol, |cont|); var b := Best(Scores(e, cont, w, sim), |w|);
      && b.0.Some? && b.0.value < |w| && w[b.0.value] == j && j < |cont|
      && b.1 == Score(e, cont[j], sim) && b.1 >= thr && b.1 > NoScore
  {
    var w := Window(e, cont, taken, tol, |cont|);
    BestIsFirstMax(Scores(e, cont, w, sim), |w|);
  }

  /** A bank row is accepted exactly when some open candidate in its window
      scores at least the threshold and above the -999 sentinel. */
  lemma DecideAccepts(e: Movement, cont: seq<Movement>, taken: seq<bool>, tol: real, thr: real,
                      sim: (string, string) -> real)
    requires |taken| == |cont|
    ensures Decide(e, cont, taken, tol, thr, sim).Accept? <==>
      exists j :: 0 <= j < |cont| && !taken[j] && InWindow(e, cont[j], tol)
        && Score(e, cont[j], sim) >= thr && Score(e, cont[j], sim) > NoScore
  {
    var d := Decide(e, cont, taken, tol, thr, sim);
    if d.Accept? {
      AcceptedAt(e, cont, taken, tol, thr, sim, d.j);
    }
    if exists j :: 0 <= j < |cont| && !taken[j] && InWindow(e, cont[j], tol)
        && Score(e, cont[j], sim) >= thr && Score(e, cont[j], sim) > NoScore {
      var j :| 0 <= j < |cont| && !taken[j] && InWindow(e, cont[j], tol)
        && Score(e, cont[j], sim) >= thr && Score(e, cont[j], sim) > NoScore;
      ScoreClearsAccepts(e, cont, taken, tol, thr, sim, j);
    }
  }

  /** One open candidate clearing the threshold and the sentinel makes the
      best score clear them too. */
  lemma ScoreClearsAccepts(e: Movement, cont: seq<Movement>, taken: seq<bool>, tol: real, thr: real,
                           sim: (string, string) -> real, j: nat)
    requires |taken| == |cont| && j < |cont| && !taken[j] && InWindow(e, cont[j], tol)
    requires Score(e, cont[j], sim) >= thr && Score(e, cont[j], sim) > NoScore
    ensures Decide(e, cont, taken, tol, thr, sim).Accept?
  {
    var w := Window(e, cont, taken, tol, |cont|);
    BestIsFirstMax(Scores(e, cont, w, sim), |w|);
    BestBeats(e, cont, taken, tol, sim, j);
  }

  /** The accepted row is a first maximum of the score over the window. */
  lemma {:induction false} AcceptedIsFirstBest(e: Movement, cont: seq<Movement>, taken: seq<bool>, tol: real, thr: real,
                                               sim: (string, string) -> real, j: nat)
    requires |taken| == |cont| && Decide(e, cont, taken, tol, thr, sim) == Accept(j)
    ensures j < |cont| && Score(e, cont[j], sim) >= thr && Score(e, cont[j], sim) > NoScore
    ensures forall k :: 0 <= k < |cont| && !taken[k] && InWindow(e, cont[k], tol) ==>
      Score(e, cont[k], sim) <= Score(e, cont[j], sim)
    ensures forall k :: 0 <= k < j && !taken[k] && InWindow(e, cont[k], tol) ==>
      Score(e, cont[k], sim) < Score(e, cont[j], sim)
  {
    AcceptedAt(e, cont, taken, tol, thr, sim, j);
    forall k | 0 <= k < |cont| && !taken[k] && InWindow(e, cont[k], tol)
      ensures Score(e, cont[k], sim) <= Score(e, cont[j], sim)
      ensures k < j ==> Score(e, cont[k], sim) < Score(e, cont[j], sim)
    {
      BestBeats(e, cont, taken, tol, sim, k);
    }
  }

  /** The candidate at window position q has a day gap at least the
      closest one, and strictly greater when it comes before the chosen
      position. */
  lemma ClosestBound(e: Movement, cont: seq<Movement>, w: seq<nat>, q: nat)
    requires (forall i :: 0 <= i < |w| ==> w[i] < |cont|) && q < |w|
    ensures var c := Closest(DdVals(e, cont, w), |w|);
      && DdVal(e, cont[w[q]]) >= c.1
      && (c.0.Some? && q < c.0.value ==> DdVal(e, cont[w[q]]) > c.1)
  {
    ClosestIsFirstMin(DdVals(e, cont, w), |w|);
  }

  /** An open candidate in the window of `e` has a day gap at least the
      closest one, and a strictly greater one when it comes before it. */
  lemma ClosestBeats(e: Movement, cont: seq<Movement>, taken: seq<bool>, tol: real, k: nat)
    requires |taken| == |cont| && k < |cont| && !taken[k] && InWindow(e, cont[k], tol)
    ensures var w := Window(e, cont, taken, tol, |cont|); var c := Closest(DdVals(e, cont, w), |w|);
      && DdVal(e, cont[k]) >= c.1
      && (c.0.Some? && c.0.value < |w| && k < w[c.0.value] ==> DdVal(e, cont[k]) > c.1)
  {
    var w := Window(e, cont, taken, tol, |cont|);
    WindowPos(e, cont, taken, tol, k);
    var q :| 0 <= q < |w| && w[q] == k;
    ClosestBound(e, cont, w, q);
    var c := Closest(DdVals(e, cont, w), |w|);
    if c.0.Some? && c.0.value < |w| && k < w[c.0.value] {
      IncreasingPos(w, q, c.0.value);
    }
  }

  /** A suggested row is the window position the closest-date loop chose. */
  lemma SuggestedAt(e: Movement, cont: seq<Movement>, taken: seq<bool>, tol: real, thr: real,
                    sim: (string, string) -> real, j: nat)
    requires |taken| == |cont| && Decide(e, cont, taken, tol, thr, sim) == Suggest(j)
    ensures var w := Window(e, cont, taken, tol, |cont|); var c := Closest(DdVals(e, cont, w), |w|);
      && c.0.Some? && c.0.value < |w| && w[c.0.value] == j && j < |cont|
      && c.1 == DdVal(e, cont[j])
  {
    var w := Window(e, cont, taken, tol, |cont|);
    ClosestIsFirstMin(DdVals(e, cont, w), |w|);
  }

  /** A suggestion follows a rejection: no candidate clears both the
      threshold and the sentinel; the suggested row is the first one of
      smallest day gap (missing dates counting 999999). */
  lemma {:induction false} SuggestedIsFirstClosest(e: Movement, cont: seq<Movement>, taken: seq<bool>, tol: real, thr: real,
                                                   sim: (string, string) -> real, j: nat)
    requires |taken| == |cont| && Decide(e, cont, taken, tol, thr, sim) == Suggest(j)
    ensures j < |cont|
    ensures forall k :: 0 <= k < |cont| && !taken[k] && InWindow(e, cont[k], tol) ==>
      Score(e, cont[k], sim) < thr || Score(e, cont[k], sim) <= NoScore
    ensures forall k :: 0 <= k < |cont| && !taken[k] && InWindow(e, cont[k], tol) ==>
      DdVal(e, cont[j]) <= DdVal(e, cont[k])
    ensures forall k :: 0 <= k < j && !taken[k] && InWindow(e, cont[k], tol) ==>
      DdVal(e, cont[j]) < DdVal(e, cont[k])
  {
    SuggestedAt(e, cont, taken, tol, thr, sim, j);
    forall k | 0 <= k < |cont| && !taken[k] && InWindow(e, cont[k], tol)
      ensures Score(e, cont[k], sim) < thr || Score(e, cont[k], sim) <= NoScore
      ensures DdVal(e, cont[j]) <= DdVal(e, cont[k])
      ensures k < j ==> DdVal(e, cont[j]) < DdVal(e, cont[k])
    {
      if Score(e, cont[k], sim) >= thr && Score(e, cont[k], sim) > NoScore {
        ScoreClearsAccepts(e, cont, taken, tol, thr, sim, k);
      }
      ClosestBeats(e, cont, taken, tol, k);
    }
  }
}
