/** The copy of `conciliar_movimentos_db` in
    `backend/services/reconciliacao_contabil_service.py`.

    Its loop is, line for line, the one of `backend/utils/conciliacao.py`;
    the two differ only in the queries: this copy takes every stored
    movement, whatever run it belongs to. Its only caller,
    `processar_contabil`, passes `3` as the second positional argument,
    which binds to `valor_tolerancia`: amounts up to 3 apart are eligible
    there, and the threshold keeps its default 0.6. */
module ContabilService {
  import opened Base
  import opened Conciliacao

  /** The tolerance the call `conciliar_movimentos_db(db, 3)` binds. */
  const CallSiteTolerance := 3.0

  /** `db.query(Model).all()`: every stored row, in stored order. */
  function AllRows(table: seq<Stored>): (rows: seq<DbRow>)
    ensures |rows| == |table| && forall k :: 0 <= k < |table| ==> rows[k] == table[k].row
  {
    seq(|table|, k requires 0 <= k < |table| => table[k].row)
  }

  /** The service's `conciliar_movimentos_db(db, valor_tolerancia, descricao_sim_threshold)`. */
  method ConciliarMovimentosDb(bai: seq<Stored>, contabilidade: seq<Stored>, tol: real, thr: real,
                               ratio: (string, string) -> real) returns (r: Result<Outcome, PyError>)
    ensures r == Conciliar(AllRows(bai), AllRows(contabilidade), tol, thr, ratio)
  {
    var extrato := AllRows(bai);
    var contab := AllRows(contabilidade);
    r := ConciliarMovimentos(extrato, contab, tol, thr, ratio);
  }

  /** `conciliar_movimentos_db(db, 3)` inside `processar_contabil`. */
  method ProcessarContabilConciliacao(bai: seq<Stored>, contabilidade: seq<Stored>,
                                      ratio: (string, string) -> real) returns (r: Result<Outcome, PyError>)
    ensures r == Conciliar(AllRows(bai), AllRows(contabilidade), CallSiteTolerance, DefaultThreshold, ratio)
  {
    r := ConciliarMovimentosDb(bai, contabilidade, 3.0, DefaultThreshold, ratio);
  }

  /** When the tables hold a single run, the unfiltered copy computes what
      the run-filtered one does. */
  lemma {:induction false} SingleRunAgrees(table: seq<Stored>, execucaoId: int)
    requires forall k :: 0 <= k < |table| ==> table[k].execucaoId == execucaoId
    ensures AllRows(table) == ForRun(table, execucaoId)
  {
    if table != [] {
      SingleRunAgrees(table[1..], execucaoId);
      assert AllRows(table) == [table[0].row] + AllRows(table[1..]);
    }
  }

  /** With rows of several runs the copies differ: a movement of another run
      is reconciled by the service and ignored by the run-filtered copy. */
  lemma OtherRunsIncluded(s: Stored, execucaoId: int)
    requires s.execucaoId != execucaoId
    ensures AllRows([s]) == [s.row] && ForRun([s], execucaoId) == []
  {
    assert [s][1..] == [];
  }

  /** At the call site's tolerance, a bank movement 2.5 away from a
      same-day ledger movement of similarity 0.6 is reconciled (score -0.9),
      while the default tolerance of 0.01 would leave it unmatched. */
  lemma CallSiteWidensWindow(e: Record, c: Record, ratio: (string, string) -> real)
    requires e.valorLiq == Some(0.0) && c.valorLiq == Some(2.5)
    requires e.dataMov == c.dataMov && |e.descritivo| > 0 && |c.descritivo| > 0
    requires ratio(e.descritivo, c.descritivo) == 0.6
    ensures |GreedyUpTo([e], [c], CallSiteTolerance, DefaultThreshold, ratio, 1).matches| == 1
    ensures GreedyUpTo([e], [c], DefaultTolerance, DefaultThreshold, ratio, 1).matches == []
  {
    assert Score(e, c, ratio) == -0.9;
    assert BestUpTo(e, [c], {}, CallSiteTolerance, DefaultThreshold, ratio, 0) == (None, NoMatch);
    assert BestUpTo(e, [c], {}, DefaultTolerance, DefaultThreshold, ratio, 0) == (None, NoMatch);
  }
}
