/** `conciliar_movimentos_db` of `backend/utils/conciliacao.py`.

    The stored bank and ledger movements become dictionaries
    (`to_dict_list`), both sides get `valor_liq = credito - debito`, and every
    bank record in turn takes, among the ledger records not used yet that are
    eligible (amounts within the tolerance, one of the two dates equal,
    descriptions similar enough), the first one of greatest score
    `(1 - |Δvalor|) + similarity`, provided it beats the initial -1. The rows
    left over form the two residual lists.

    The database queries are not modelled: the function takes the rows they
    return. The description similarity `SequenceMatcher(None, a, b).ratio()`
    is the parameter `ratio`. */
module Conciliacao {
  import opened Base
  import opened PyText
  import opened Numbers
  import opened Dates

  // ================================================================ records

  /** An amount column as SQLAlchemy returns it: NULL, a string (the bank
      table stores amounts as `String(50)`) or a float (the ledger table). */
  datatype Cell = Null | Text(s: string) | Number(x: real)

  /** A stored movement (`MovimentacaoBAI` or `MovimentacaoContabilidade`);
      the date and description columns are strings. */
  datatype DbRow = DbRow(
    id: int, dataMov: Option<string>, dataValor: Option<string>, descritivo: Option<string>,
    debito: Cell, credito: Cell, saldo: Cell)

  /** A stored row together with the reconciliation run it belongs to. */
  datatype Stored = Stored(execucaoId: int, row: DbRow)

  /** `db.query(...).filter(Model.execucao_id == execucao_id).all()`: the
      rows of that run, in stored order. */
  function ForRun(table: seq<Stored>, execucaoId: int): (rows: seq<DbRow>)
    ensures |rows| <= |table|
    ensures forall r :: r in rows <==> exists k :: 0 <= k < |table| && table[k].execucaoId == execucaoId && table[k].row == r
  {
    if table == [] then []
    else
      var rest := ForRun(table[1..], execucaoId);
      assert forall k :: 0 <= k < |table| - 1 ==> table[1..][k] == table[k + 1];
      (if table[0].execucaoId == execucaoId then [table[0].row] else []) + rest
  }

  /** A dictionary of `to_dict_list`; `valorLiq` is the key the two loops add
      afterwards, None while it is absent. */
  datatype Record = Record(
    id: int, dataMov: Option<string>, dataValor: Option<string>, descritivo: string,
    debito: real, credito: real, saldo: real, valorLiq: Option<real>)

  /** `format_data` on a string column: a falsy value gives None, a date
      `strptime` reads with "%Y-%m-%d" or else with "%d/%m/%Y" is written
      back as "%Y-%m-%d", anything else is returned unchanged. */
  function FormatData(d: Option<string>): Option<string> {
    if d.None? || |d.value| == 0 then None
    else
      match ParseIso(d.value)
      case Some(dt) => Some(FormatIso(dt))
      case None =>
        match ParseDmy(d.value)
        case Some(dt) => Some(FormatIso(dt))
        case None => d
  }

  /** `float(v or 0)`: NULL, "" and 0 are falsy and give 0.0; a string
      `float()` cannot read raises ValueError. */
  function FloatOf(v: Cell): Result<real, PyError> {
    match v
    case Null => Ok(0.0)
    case Number(x) => Ok(x)
    case Text(s) =>
      if |s| == 0 then Ok(0.0)
      else
        match FloatLiteral(s)
        case Some(x) => Ok(x)
        case None => Err(ValueError)
  }

  /** One dictionary of `to_dict_list`; the amounts are converted in the
      order the dictionary display lists them. */
  function ToRecord(r: DbRow): Result<Record, PyError> {
    var deb := FloatOf(r.debito);
    var cred := FloatOf(r.credito);
    var sal := FloatOf(r.saldo);
    if deb.Err? then Err(deb.error)
    else if cred.Err? then Err(cred.error)
    else if sal.Err? then Err(sal.error)
    else
      Ok(Record(r.id, FormatData(r.dataMov), FormatData(r.dataValor),
                Strip(Upper(if r.descritivo.Some? then r.descritivo.value else "")),
                deb.value, cred.value, sal.value, None))
  }

  /** `to_dict_list`: the first row that raises ends the comprehension. */
  function ToDictList(rows: seq<DbRow>): Result<seq<Record>, PyError> {
    if rows == [] then Ok([])
    else
      match ToRecord(rows[0])
      case Err(e) => Err(e)
      case Ok(x) =>
        match ToDictList(rows[1..])
        case Err(e) => Err(e)
        case Ok(xs) => Ok([x] + xs)
  }

  /** `r['valor_liq'] = r['credito'] - r['debito']` */
  function WithNet(r: Record): Record {
    r.(valorLiq := Some(r.credito - r.debito))
  }

  function NetAll(rs: seq<Record>): (r: seq<Record>)
    ensures |r| == |rs| && forall i :: 0 <= i < |rs| ==> r[i] == WithNet(rs[i])
  {
    seq(|rs|, i requires 0 <= i < |rs| => WithNet(rs[i]))
  }

  /** Every record carries `valor_liq`. */
  predicate Netted(rs: seq<Record>) {
    forall i :: 0 <= i < |rs| ==> rs[i].valorLiq.Some?
  }

  function Net(r: Record): real
    requires r.valorLiq.Some?
  {
    r.valorLiq.value
  }

  // ================================================================ matching

  /** The default tolerance and threshold of `conciliar_movimentos_db`. */
  const DefaultTolerance := 0.01
  const DefaultThreshold := 0.6

  function Abs(x: real): real {
    if x < 0.0 then -x else x
  }

  /** `diff_valor` */
  function Diff(e: Record, c: Record): real
    requires e.valorLiq.Some? && c.valorLiq.Some?
  {
    Abs(Net(e) - Net(c))
  }

  /** `similaridade_desc`: 0 unless both descriptions are non-empty. */
  function SimDesc(a: string, b: string, ratio: (string, string) -> real): real {
    if |a| > 0 && |b| > 0 then ratio(a, b) else 0.0
  }

  /** `datas_iguais`: two missing dates are equal. */
  predicate DatesMatch(e: Record, c: Record) {
    e.dataMov == c.dataMov || e.dataValor == c.dataValor
  }

  /** The three filters of the inner loop. */
  predicate Eligible(e: Record, c: Record, tol: real, thr: real, ratio: (string, string) -> real)
    requires e.valorLiq.Some? && c.valorLiq.Some?
  {
    Diff(e, c) <= tol && DatesMatch(e, c) && SimDesc(e.descritivo, c.descritivo, ratio) >= thr
  }

  /** `pontuacao` */
  function Score(e: Record, c: Record, ratio: (string, string) -> real): real
    requires e.valorLiq.Some? && c.valorLiq.Some?
  {
    (1.0 - Diff(e, c)) + SimDesc(e.descritivo, c.descritivo, ratio)
  }

  /** The initial `melhor_pontuacao`. */
  const NoMatch := -1.0

  /** `melhor_match` and `melhor_pontuacao` after the first m ledger records:
      an unused eligible record replaces the best so far only with a
      strictly greater score. */
  function BestUpTo(e: Record, cont: seq<Record>, used: set<nat>, tol: real, thr: real,
                    ratio: (string, string) -> real, m: nat): (Option<nat>, real)
    requires e.valorLiq.Some? && Netted(cont) && m <= |cont|
  {
    if m == 0 then (None, NoMatch)
    else
      var prev := BestUpTo(e, cont, used, tol, thr, ratio, m - 1);
      var k := m - 1;
      if k !in used && Eligible(e, cont[k], tol, thr, ratio) && Score(e, cont[k], ratio) > prev.1
      then (Some(k), Score(e, cont[k], ratio))
      else prev
  }

  datatype Status = Conciliado | Diferenca

  /** One entry of `conciliados`. */
  datatype Match = Match(
    extratoId: int, contabilidadeId: int, extratoDescritivo: string, contabDescritivo: string,
    extratoDataMov: Option<string>, contabDataMov: Option<string>,
    extratoDataValor: Option<string>, contabDataValor: Option<string>,
    extratoValorLiq: real, contabValorLiq: real, status: Status)

  function MatchOf(e: Record, c: Record, tol: real): Match
    requires e.valorLiq.Some? && c.valorLiq.Some?
  {
    Match(e.id, c.id, e.descritivo, c.descritivo, e.dataMov, c.dataMov, e.dataValor, c.dataValor,
          Net(e), Net(c), if Diff(e, c) <= tol then Conciliado else Diferenca)
  }

  /** The outer loop after n bank records: the pairs of record positions
      matched, `usados_contab`, and `conciliados`. */
  datatype Greedy = Greedy(pairs: seq<(nat, nat)>, used: set<nat>, matches: seq<Match>)

  function GreedyUpTo(ext: seq<Record>, cont: seq<Record>, tol: real, thr: real,
                      ratio: (string, string) -> real, n: nat): Greedy
    requires Netted(ext) && Netted(cont) && n <= |ext|
  {
    if n == 0 then Greedy([], {}, [])
    else
      var g := GreedyUpTo(ext, cont, tol, thr, ratio, n - 1);
      var b := BestUpTo(ext[n - 1], cont, g.used, tol, thr, ratio, |cont|);
      if b.0.None? then g
      else
        var j := b.0.value;
        BestInRange(ext[n - 1], cont, g.used, tol, thr, ratio, |cont|);
        Greedy(g.pairs + [(n - 1, j)], g.used + {j}, g.matches + [MatchOf(ext[n - 1], cont[j], tol)])
  }

  /** The chosen ledger position is in range. */
  lemma {:induction false} BestInRange(e: Record, cont: seq<Record>, used: set<nat>, tol: real, thr: real,
                                       ratio: (string, string) -> real, m: nat)
    requires e.valorLiq.Some? && Netted(cont) && m <= |cont|
    ensures BestUpTo(e, cont, used, tol, thr, ratio, m).0.Some? ==> BestUpTo(e, cont, used, tol, thr, ratio, m).0.value < m
  {
    if m > 0 {
      BestInRange(e, cont, used, tol, thr, ratio, m - 1);
    }
  }

  // ================================================================ result

  datatype Summary = Summary(
    totalExtrato: nat, totalContabilidade: nat, conciliados: nat,
    somenteExtrato: nat, somenteContabilidade: nat)

  datatype Outcome = Outcome(
    conciliados: seq<Match>, somenteExtrato: seq<Record>, somenteContabilidade: seq<Record>,
    summary: Summary)

  /** `[r for r in rs if r['id'] not in ids]` */
  function Without(rs: seq<Record>, ids: set<int>): (r: seq<Record>)
    ensures |r| <= |rs|
  {
    if rs == [] then []
    else Without(rs[..|rs| - 1], ids) + (if rs[|rs| - 1].id in ids then [] else [rs[|rs| - 1]])
  }

  /** `usados_extrato_ids` */
  function ExtIds(ms: seq<Match>): set<int> {
    set m | m in ms :: m.extratoId
  }

  /** `usados_contab_ids` */
  function ContIds(ms: seq<Match>): set<int> {
    set m | m in ms :: m.contabilidadeId
  }

  /** The result on two lists of records that carry `valor_liq`. */
  function Matched(ext: seq<Record>, cont: seq<Record>, tol: real, thr: real, ratio: (string, string) -> real): Outcome
    requires Netted(ext) && Netted(cont)
  {
    var ms := GreedyUpTo(ext, cont, tol, thr, ratio, |ext|).matches;
    var se := Without(ext, ExtIds(ms));
    var sc := Without(cont, ContIds(ms));
    Outcome(ms, se, sc, Summary(|ext|, |cont|, |ms|, |se|, |sc|))
  }

  /** `conciliar_movimentos_db` on the fetched rows. */
  function Conciliar(extrato: seq<DbRow>, contab: seq<DbRow>, tol: real, thr: real,
                       ratio: (string, string) -> real): Result<Outcome, PyError>
  {
    match ToDictList(extrato)
    case Err(e) => Err(e)
    case Ok(el) =>
      match ToDictList(contab)
      case Err(e) => Err(e)
      case Ok(cl) => Ok(Matched(NetAll(el), NetAll(cl), tol, thr, ratio))
  }

  // ======================================================= the imperative code

  /** `for r in rs: r['valor_liq'] = r['credito'] - r['debito']` */
  method SetNet(rs: array<Record>)
    modifies rs
    ensures rs[..] == NetAll(old(rs[..]))
  {
    var i := 0;
    while i < rs.Length
      invariant i <= rs.Length
      invariant forall k :: 0 <= k < i ==> rs[k] == WithNet(old(rs[k]))
      invariant forall k :: i <= k < rs.Length ==> rs[k] == old(rs[k])
    {
      rs[i] := WithNet(rs[i]);
      i := i + 1;
    }
  }

  /** The list of dictionaries, updated in place by the `valor_liq` loop. */
  method WithNetInPlace(rs: seq<Record>) returns (r: seq<Record>)
    ensures r == NetAll(rs)
  {
    var a := new Record[|rs|](i requires 0 <= i < |rs| => rs[i]);
    assert a[..] == rs;
    SetNet(a);
    r := a[..];
  }

  /** The inner loop over the ledger records. */
  method BestMatch(e: Record, cont: seq<Record>, used: set<nat>, tol: real, thr: real,
                   ratio: (string, string) -> real) returns (best: Option<nat>, bestScore: real)
    requires e.valorLiq.Some? && Netted(cont)
    ensures (best, bestScore) == BestUpTo(e, cont, used, tol, thr, ratio, |cont|)
  {
    best, bestScore := None, NoMatch;
    var k := 0;
    while k < |cont|
      invariant k <= |cont|
      invariant (best, bestScore) == BestUpTo(e, cont, used, tol, thr, ratio, k)
    {
      var c := cont[k];
      if k !in used {
        var diff := Abs(e.valorLiq.value - c.valorLiq.value);
        if diff <= tol && (e.dataMov == c.dataMov || e.dataValor == c.dataValor) {
          var sim := SimDesc(e.descritivo, c.descritivo, ratio);
          if sim >= thr {
            var score := (1.0 - diff) + sim;
            if score > bestScore {
              best, bestScore := Some(k), score;
            }
          }
        }
      }
      k := k + 1;
    }
  }

  /** The outer loop: `usados_contab` grows by the ledger position each
      match consumes. */
  method MatchAll(ext: seq<Record>, cont: seq<Record>, tol: real, thr: real,
                  ratio: (string, string) -> real) returns (conciliados: seq<Match>)
    requires Netted(ext) && Netted(cont)
    ensures conciliados == GreedyUpTo(ext, cont, tol, thr, ratio, |ext|).matches
  {
    var usados: set<nat> := {};
    ghost var pairs: seq<(nat, nat)> := [];
    conciliados := [];
    var i := 0;
    while i < |ext|
      invariant i <= |ext|
      invariant GreedyUpTo(ext, cont, tol, thr, ratio, i) == Greedy(pairs, usados, conciliados)
    {
      var e := ext[i];
      var best, _ := BestMatch(e, cont, usados, tol, thr, ratio);
      if best.Some? {
        BestInRange(e, cont, usados, tol, thr, ratio, |cont|);
        var c := cont[best.value];
        var status := if Abs(e.valorLiq.value - c.valorLiq.value) <= tol then Conciliado else Diferenca;
        conciliados := conciliados + [Match(e.id, c.id, e.descritivo, c.descritivo, e.dataMov, c.dataMov,
                                            e.dataValor, c.dataValor, e.valorLiq.value, c.valorLiq.value, status)];
        usados := usados + {best.value};
        pairs := pairs + [(i, best.value)];
      }
      i := i + 1;
    }
  }

  /** `conciliar_movimentos_db(db, execucao_id, ...)`: the two queries
      keep the rows of the run, then the matcher runs on them. */
  method ConciliarMovimentosDb(bai: seq<Stored>, contabilidade: seq<Stored>, execucaoId: int, tol: real, thr: real,
                               ratio: (string, string) -> real) returns (r: Result<Outcome, PyError>)
    ensures r == Conciliar(ForRun(bai, execucaoId), ForRun(contabilidade, execucaoId), tol, thr, ratio)
  {
    var extrato := ForRun(bai, execucaoId);
    var contab := ForRun(contabilidade, execucaoId);
    r := ConciliarMovimentos(extrato, contab, tol, thr, ratio);
  }

  /** `conciliar_movimentos_db` after the two queries. */
  method ConciliarMovimentos(extrato: seq<DbRow>, contab: seq<DbRow>, tol: real, thr: real,
                             ratio: (string, string) -> real) returns (r: Result<Outcome, PyError>)
    ensures r == Conciliar(extrato, contab, tol, thr, ratio)
  {
    var el := ToDictList(extrato);
    if el.Err? {
      return Err(el.error);
    }
    var cl := ToDictList(contab);
    if cl.Err? {
      return Err(cl.error);
    }
    var ext := WithNetInPlace(el.value);
    var cont := WithNetInPlace(cl.value);
    var conciliados := MatchAll(ext, cont, tol, thr, ratio);
    var somenteExtrato := Without(ext, ExtIds(conciliados));
    var somenteContab := Without(cont, ContIds(conciliados));
    r := Ok(Outcome(conciliados, somenteExtrato, somenteContab,
                    Summary(|ext|, |cont|, |conciliados|, |somenteExtrato|, |somenteContab|)));
  }
}
