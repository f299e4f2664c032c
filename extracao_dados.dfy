/** The bank-statement row mappers of the web client
    (`frontend/src/utils/extracaoDados.ts`).

    The workbook is read by the `xlsx` package and turned into one object
    per row with `sheet_to_json(sheet, { defval: "" })`: every header of the
    sheet is a key, an empty cell is `""`, and a header the sheet does not
    have reads as `undefined`. Each parser maps those objects to statement
    records with JavaScript's `||`, `parseFloat` and `toUpperCase`. */
module ExtracaoDados {
  import opened Base
  import opened PyText

  /** A cell of the row object, or `undefined` for a header the sheet lacks. */
  datatype JsVal = Undefined | JsStr(s: string) | JsNum(x: real)

  /** A JavaScript number produced by `parseFloat`. */
  datatype JsNumber = Finite(x: real) | NotANumber

  /** A row object of `sheet_to_json`, keyed by header. */
  type Row = map<string, JsVal>

  /** `ExtratoData`; `saldo` is present only in the column layouts. */
  datatype Extrato = Extrato(data: JsVal, descricao: JsVal, debito: JsNumber, credito: JsNumber, saldo: Option<JsNumber>)

  /** What the mappers can throw. */
  datatype JsError =
    | JsTypeError                    // `toUpperCase` called on a number
    | Unsupported(message: string) // `new Error("Banco não suportado.")`

  const UnsupportedBank := "Banco não suportado."

  /** `row[key]`. */
  function Get(row: Row, key: string): JsVal {
    if key in row then row[key] else Undefined
  }

  /** JavaScript truthiness of a cell: `undefined`, `""` and `0` are falsy. */
  predicate JsTruthy(v: JsVal) {
    match v
    case Undefined => false
    case JsStr(s) => s != ""
    case JsNum(x) => x != 0.0
  }

  /** `a || b`. */
  function Or(a: JsVal, b: JsVal): JsVal {
    if JsTruthy(a) then a else b
  }

  /** `parseFloat(v)`: a number reads as itself, `undefined` as NaN, and a
      string as the parameter `parseStr` says (None for NaN). */
  function ParseFloat(v: JsVal, parseStr: string -> Option<real>): JsNumber {
    match v
    case Undefined => NotANumber
    case JsNum(x) => Finite(x)
    case JsStr(s) => if parseStr(s).Some? then Finite(parseStr(s).value) else NotANumber
  }

  /** `row[title] || row[upper]`: the Title-case header wins when its cell
      is truthy, and the UPPERCASE one is read otherwise. */
  function Either(row: Row, title: string, upper: string): (v: JsVal)
    ensures JsTruthy(Get(row, title)) ==> v == Get(row, title)
    ensures !JsTruthy(Get(row, title)) ==> v == Get(row, upper)
    ensures title !in row && upper !in row ==> v == Undefined
  {
    Or(Get(row, title), Get(row, upper))
  }

  /** `parseFloat(row[title] || row[upper] || 0)`. */
  function Amount(row: Row, title: string, upper: string, parseStr: string -> Option<real>): (n: JsNumber)
    ensures !JsTruthy(Get(row, title)) && !JsTruthy(Get(row, upper)) ==> n == Finite(0.0)
    ensures Get(row, title).JsNum? && JsTruthy(Get(row, title)) ==> n == Finite(Get(row, title).x)
    ensures n.NotANumber? ==> Either(row, title, upper).JsStr?
  {
    ParseFloat(Or(Either(row, title, upper), JsNum(0.0)), parseStr)
  }

  // ---------------------------------------------------------------- rows

  /** One row of `parseBfaColuna`. */
  function BfaColunaRow(row: Row, parseStr: string -> Option<real>): (e: Extrato)
    ensures e.data == Either(row, "Data", "DATA") && e.descricao == Either(row, "Descrição", "DESCRIÇÃO")
    ensures e.debito == Amount(row, "Débito", "DÉBITO", parseStr)
    ensures e.credito == Amount(row, "Crédito", "CRÉDITO", parseStr)
    ensures e.saldo == Some(Amount(row, "Saldo", "SALDO", parseStr))
  {
    Extrato(Either(row, "Data", "DATA"), Either(row, "Descrição", "DESCRIÇÃO"),
            Amount(row, "Débito", "DÉBITO", parseStr), Amount(row, "Crédito", "CRÉDITO", parseStr),
            Some(Amount(row, "Saldo", "SALDO", parseStr)))
  }

  /** One row of `parseBaiColuna`: the date comes from "Data Valor". */
  function BaiColunaRow(row: Row, parseStr: string -> Option<real>): (e: Extrato)
    ensures e.data == Either(row, "Data Valor", "DATA VALOR") && e.descricao == Either(row, "Descrição", "DESCRIÇÃO")
    ensures e.debito == Amount(row, "Saídas", "SAÍDAS", parseStr)
    ensures e.credito == Amount(row, "Entradas", "ENTRADAS", parseStr)
    ensures e.saldo == Some(Amount(row, "Saldo", "SALDO", parseStr))
  {
    Extrato(Either(row, "Data Valor", "DATA VALOR"), Either(row, "Descrição", "DESCRIÇÃO"),
            Amount(row, "Saídas", "SAÍDAS", parseStr), Amount(row, "Entradas", "ENTRADAS", parseStr),
            Some(Amount(row, "Saldo", "SALDO", parseStr)))
  }

  /** One row of a line layout: the type column `kind` is upper-cased and
      compared with `debit` and `credit`, and `Valor` goes to the matching
      side. A truthy number in the type column has no `toUpperCase`. */
  function LinhaRow(row: Row, kind: string, debit: string, credit: string, parseStr: string -> Option<real>): (r: Result<Extrato, JsError>)
    requires debit != credit
    ensures r.Err? <==> Get(row, kind).JsNum? && JsTruthy(Get(row, kind))
    ensures r.Err? ==> r.error == JsTypeError
    ensures r.Ok? ==> r.value.data == Get(row, "Data") && r.value.descricao == Get(row, "Descrição") && r.value.saldo.None?
    ensures r.Ok? ==> r.value.debito == Finite(0.0) || r.value.credito == Finite(0.0)
    ensures r.Ok? ==> var tipo := if JsTruthy(Get(row, kind)) then Upper(Get(row, kind).s) else "";
      && (r.value.debito == if tipo == debit then ParseFloat(Or(Get(row, "Valor"), JsNum(0.0)), parseStr) else Finite(0.0))
      && (r.value.credito == if tipo == credit then ParseFloat(Or(Get(row, "Valor"), JsNum(0.0)), parseStr) else Finite(0.0))
  {
    var cell := Or(Get(row, kind), JsStr(""));
    if !cell.JsStr? then Err(JsTypeError)
    else
      var tipo := Upper(cell.s);
      var valor := ParseFloat(Or(Get(row, "Valor"), JsNum(0.0)), parseStr);
      Ok(Extrato(Get(row, "Data"), Get(row, "Descrição"),
                 if tipo == debit then valor else Finite(0.0),
                 if tipo == credit then valor else Finite(0.0),
                 None))
  }

  /** One row of `parseBfaLinha`: "D" is a debit and "C" a credit. */
  function BfaLinhaRow(row: Row, parseStr: string -> Option<real>): Result<Extrato, JsError> {
    LinhaRow(row, "Tipo", "D", "C", parseStr)
  }

  /** One row of `parseBaiLinha`: "SAÍDA" is a debit and "ENTRADA" a credit. */
  function BaiLinhaRow(row: Row, parseStr: string -> Option<real>): Result<Extrato, JsError> {
    LinhaRow(row, "Movimento", "SAÍDA", "ENTRADA", parseStr)
  }

  // ---------------------------------------------------------------- rows.map

  /** `rows.map(f)` for a mapper that cannot throw. */
  function MapRows(rows: seq<Row>, f: Row -> Extrato): (r: seq<Extrato>)
    ensures |r| == |rows| && forall k :: 0 <= k < |rows| ==> r[k] == f(rows[k])
  {
    if rows == [] then [] else [f(rows[0])] + MapRows(rows[1..], f)
  }

  /** `rows.map(f)` for a mapper that may throw: the first exception
      escapes, otherwise one record per row in order. */
  function TryMapRows(rows: seq<Row>, f: Row -> Result<Extrato, JsError>): (r: Result<seq<Extrato>, JsError>)
    ensures r.Ok? <==> forall k :: 0 <= k < |rows| ==> f(rows[k]).Ok?
    ensures r.Ok? ==> |r.value| == |rows| && forall k :: 0 <= k < |rows| ==> r.value[k] == f(rows[k]).value
    ensures r.Err? ==> exists k :: 0 <= k < |rows| && f(rows[k]) == Err(r.error) && forall m :: 0 <= m < k ==> f(rows[m]).Ok?
  {
    if rows == [] then Ok([])
    else
      match f(rows[0])
      case Err(e) => Err(e)
      case Ok(e) =>
        match TryMapRows(rows[1..], f)
        case Err(err) =>
          var k :| 0 <= k < |rows[1..]| && f(rows[1..][k]) == Err(err) && forall m :: 0 <= m < k ==> f(rows[1..][m]).Ok?;
          assert f(rows[k + 1]) == Err(err);
          Err(err)
        case Ok(rest) =>
          assert forall k :: 1 <= k < |rows| ==> f(rows[k]) == f(rows[1..][k - 1]);
          Ok([e] + rest)
  }

  // ---------------------------------------------------------------- parsers

  /** `parseBfaColuna(rows)`. */
  function ParseBfaColuna(rows: seq<Row>, parseStr: string -> Option<real>): (r: seq<Extrato>)
    ensures |r| == |rows| && forall k :: 0 <= k < |rows| ==> r[k] == BfaColunaRow(rows[k], parseStr)
  {
    MapRows(rows, row => BfaColunaRow(row, parseStr))
  }

  /** `parseBaiColuna(rows)`. */
  function ParseBaiColuna(rows: seq<Row>, parseStr: string -> Option<real>): (r: seq<Extrato>)
    ensures |r| == |rows| && forall k :: 0 <= k < |rows| ==> r[k] == BaiColunaRow(rows[k], parseStr)
  {
    MapRows(rows, row => BaiColunaRow(row, parseStr))
  }

  /** `parseBfaLinha(rows)`. */
  function ParseBfaLinha(rows: seq<Row>, parseStr: string -> Option<real>): (r: Result<seq<Extrato>, JsError>)
    ensures r.Ok? <==> forall k :: 0 <= k < |rows| ==> BfaLinhaRow(rows[k], parseStr).Ok?
    ensures r.Ok? ==> |r.value| == |rows| && forall k :: 0 <= k < |rows| ==> r.value[k] == BfaLinhaRow(rows[k], parseStr).value
    ensures r.Err? ==> r.error == JsTypeError
  {
    TryMapRows(rows, row => BfaLinhaRow(row, parseStr))
  }

  /** `parseBaiLinha(rows)`. */
  function ParseBaiLinha(rows: seq<Row>, parseStr: string -> Option<real>): (r: Result<seq<Extrato>, JsError>)
    ensures r.Ok? <==> forall k :: 0 <= k < |rows| ==> BaiLinhaRow(rows[k], parseStr).Ok?
    ensures r.Ok? ==> |r.value| == |rows| && forall k :: 0 <= k < |rows| ==> r.value[k] == BaiLinhaRow(rows[k], parseStr).value
    ensures r.Err? ==> r.error == JsTypeError
  {
    TryMapRows(rows, row => BaiLinhaRow(row, parseStr))
  }

  /** `extrairDadosExtrato` after the first sheet is read into `rows`:
      "bfa" and "bai" take the column parser for modelo "coluna" and the
      line parser for anything else; any other bank throws. */
  function ExtrairDadosExtrato(rows: seq<Row>, banco: string, modelo: string, parseStr: string -> Option<real>): (r: Result<seq<Extrato>, JsError>)
    ensures banco != "bfa" && banco != "bai" ==> r == Err(Unsupported(UnsupportedBank))
    ensures (banco == "bfa" || banco == "bai") && modelo == "coluna" ==> r.Ok?
    ensures r.Ok? ==> |r.value| == |rows|
    ensures r.Err? && (banco == "bfa" || banco == "bai") ==> r.error == JsTypeError && modelo != "coluna"
  {
    if banco == "bfa" then
      if modelo == "coluna" then Ok(ParseBfaColuna(rows, parseStr)) else ParseBfaLinha(rows, parseStr)
    else if banco == "bai" then
      if modelo == "coluna" then Ok(ParseBaiColuna(rows, parseStr)) else ParseBaiLinha(rows, parseStr)
    else Err(Unsupported(UnsupportedBank))
  }

  // ---------------------------------------------------------------- properties

  /** Upper-casing never shortens a text. */
  lemma {:induction false} UpperLonger(t: string)
    ensures |Upper(t)| >= |t|
  {
    if t != [] {
      UpperLonger(t[1..]);
    }
  }

  /** The only texts that upper-case to a single ASCII capital are that
      capital and its lower-case form: `tipo === "D"` accepts exactly "D"
      and "d". */
  lemma {:induction false} UpperIsLetter(t: string, c: char)
    requires 'A' <= c <= 'Z'
    ensures Upper(t) == [c] <==> t == [c] || t == [(c as int + 32) as char]
  {
    if t != [] {
      UpperLonger(t[1..]);
      assert Upper(t) == UpperChar(t[0]) + Upper(t[1..]);
      if Upper(t) == [c] {
        assert Upper(t[1..]) == [];
        assert t[1..] == [];
        assert t == [t[0]];
      }
    }
  }

  /** A `Tipo` cell holding text: the amount is a debit exactly for "D" or
      "d", a credit exactly for "C" or "c", and neither for anything else. */
  lemma BfaTipo(row: Row, t: string, parseStr: string -> Option<real>)
    requires Get(row, "Tipo") == JsStr(t)
    ensures var r := BfaLinhaRow(row, parseStr); var valor := ParseFloat(Or(Get(row, "Valor"), JsNum(0.0)), parseStr);
      && r.Ok?
      && r.value.debito == (if t == "D" || t == "d" then valor else Finite(0.0))
      && r.value.credito == (if t == "C" || t == "c" then valor else Finite(0.0))
  {
    UpperIsLetter(t, 'D');
    UpperIsLetter(t, 'C');
  }

  /** The spellings of `Movimento` that the bank exports are recognised
      whatever their case, but an unaccented "Saida" is not a debit. */
  lemma MovimentoSpellings()
    ensures Upper("Saída") == "SAÍDA" && Upper("saída") == "SAÍDA"
    ensures Upper("Entrada") == "ENTRADA" && Upper("entrada") == "ENTRADA"
    ensures Upper("Saida") != "SAÍDA"
  {
    SaidaUpper();
    EntradaUpper();
    UnaccentedSaida();
  }

  lemma SaidaUpper()
    ensures Upper("Saída") == "SAÍDA" && Upper("saída") == "SAÍDA"
  {
    assert Upper("ída") == "ÍDA";
  }

  lemma EntradaUpper()
    ensures Upper("Entrada") == "ENTRADA" && Upper("entrada") == "ENTRADA"
  {
    assert Upper("ntrada") == "NTRADA";
  }

  lemma UnaccentedSaida()
    ensures Upper("Saida") != "SAÍDA"
  {
    assert Upper("ida") == "IDA";
    assert Upper("Saida")[2] == 'I' && "SAÍDA"[2] == 'Í';
  }

  /** A BFA column-layout row under Title-case headers. */
  function BfaTitleRow(data: JsVal, descricao: JsVal, debito: JsVal, credito: JsVal, saldo: JsVal): Row {
    map["Data" := data, "Descrição" := descricao, "Débito" := debito, "Crédito" := credito, "Saldo" := saldo]
  }

  /** The same row under UPPERCASE headers. */
  function BfaUpperRow(data: JsVal, descricao: JsVal, debito: JsVal, credito: JsVal, saldo: JsVal): Row {
    map["DATA" := data, "DESCRIÇÃO" := descricao, "DÉBITO" := debito, "CRÉDITO" := credito, "SALDO" := saldo]
  }

  /** Both header conventions give the same amounts; the text columns agree
      when the cell is truthy, but an empty cell under a Title-case header
      falls through to the absent UPPERCASE one and reads `undefined`. */
  lemma {:induction false} BfaHeaderConventions(data: JsVal, descricao: JsVal, debito: JsVal, credito: JsVal, saldo: JsVal,
                                                parseStr: string -> Option<real>)
    ensures var a := BfaColunaRow(BfaTitleRow(data, descricao, debito, credito, saldo), parseStr);
      var b := BfaColunaRow(BfaUpperRow(data, descricao, debito, credito, saldo), parseStr);
      && a.debito == b.debito && a.credito == b.credito && a.saldo == b.saldo
      && (JsTruthy(data) ==> a.data == data && b.data == data)
      && (!JsTruthy(data) ==> a.data == Undefined && b.data == data)
      && (JsTruthy(descricao) ==> a.descricao == descricao && b.descricao == descricao)
      && (!JsTruthy(descricao) ==> a.descricao == Undefined && b.descricao == descricao)
  {
    var title := BfaTitleRow(data, descricao, debito, credito, saldo);
    var upper := BfaUpperRow(data, descricao, debito, credito, saldo);
    TitleCells(data, descricao, debito, credito, saldo);
    UpperCells(data, descricao, debito, credito, saldo);
    var a := BfaColunaRow(title, parseStr);
    var b := BfaColunaRow(upper, parseStr);
    assert a.debito == b.debito by {
      assert a.debito == ParseFloat(Or(Or(debito, Undefined), JsNum(0.0)), parseStr);
      assert b.debito == ParseFloat(Or(Or(Undefined, debito), JsNum(0.0)), parseStr);
    }
    assert a.credito == b.credito by {
      assert a.credito == ParseFloat(Or(Or(credito, Undefined), JsNum(0.0)), parseStr);
      assert b.credito == ParseFloat(Or(Or(Undefined, credito), JsNum(0.0)), parseStr);
    }
    assert a.saldo == b.saldo by {
      assert a.saldo == Some(ParseFloat(Or(Or(saldo, Undefined), JsNum(0.0)), parseStr));
      assert b.saldo == Some(ParseFloat(Or(Or(Undefined, saldo), JsNum(0.0)), parseStr));
    }
  }

  /** What each header of a Title-case row reads, the UPPERCASE ones
      included. */
  lemma TitleCells(data: JsVal, descricao: JsVal, debito: JsVal, credito: JsVal, saldo: JsVal)
    ensures var m := BfaTitleRow(data, descricao, debito, credito, saldo);
      && Get(m, "Data") == data && Get(m, "Descrição") == descricao && Get(m, "Débito") == debito
      && Get(m, "Crédito") == credito && Get(m, "Saldo") == saldo
      && Get(m, "DATA") == Undefined && Get(m, "DESCRIÇÃO") == Undefined && Get(m, "DÉBITO") == Undefined
      && Get(m, "CRÉDITO") == Undefined && Get(m, "SALDO") == Undefined
  {
    var m := BfaTitleRow(data, descricao, debito, credito, saldo);
    assert "DATA" !in m && "DESCRIÇÃO" !in m && "DÉBITO" !in m && "CRÉDITO" !in m && "SALDO" !in m;
  }

  /** What each header of an UPPERCASE row reads, the Title-case ones
      included. */
  lemma UpperCells(data: JsVal, descricao: JsVal, debito: JsVal, credito: JsVal, saldo: JsVal)
    ensures var m := BfaUpperRow(data, descricao, debito, credito, saldo);
      && Get(m, "DATA") == data && Get(m, "DESCRIÇÃO") == descricao && Get(m, "DÉBITO") == debito
      && Get(m, "CRÉDITO") == credito && Get(m, "SALDO") == saldo
      && Get(m, "Data") == Undefined && Get(m, "Descrição") == Undefined && Get(m, "Débito") == Undefined
      && Get(m, "Crédito") == Undefined && Get(m, "Saldo") == Undefined
  {
    var m := BfaUpperRow(data, descricao, debito, credito, saldo);
    assert "Data" !in m && "Descrição" !in m && "Débito" !in m && "Crédito" !in m && "Saldo" !in m;
  }

  /** The two BFA layouts agree: a line-layout row typed "D" (or "C") reads
      as the column-layout row with the amount under "Débito" (or "Crédito")
      and the other amount column left empty, as `defval: ""` fills it. */
  lemma {:induction false} BfaLayoutsAgree(data: JsVal, descricao: JsVal, valor: JsVal, t: string,
                                           parseStr: string -> Option<real>)
    requires JsTruthy(data) && JsTruthy(descricao)
    requires t == "D" || t == "C"
    ensures var linha := BfaLinhaRow(map["Data" := data, "Descrição" := descricao, "Valor" := valor, "Tipo" := JsStr(t)], parseStr);
      var coluna := BfaColunaRow(if t == "D" then BfaTitleRow(data, descricao, valor, JsStr(""), JsStr(""))
                                 else BfaTitleRow(data, descricao, JsStr(""), valor, JsStr("")), parseStr);
      && linha.Ok?
      && linha.value.data == coluna.data && linha.value.descricao == coluna.descricao
      && linha.value.debito == coluna.debito && linha.value.credito == coluna.credito
  {
    var row := map["Data" := data, "Descrição" := descricao, "Valor" := valor, "Tipo" := JsStr(t)];
    assert Get(row, "Tipo") == JsStr(t) && Get(row, "Valor") == valor;
    BfaTipo(row, t, parseStr);
    if t == "D" {
      ColumnAmounts(data, descricao, valor, JsStr(""), parseStr);
    } else {
      ColumnAmounts(data, descricao, JsStr(""), valor, parseStr);
    }
  }

  /** The column layout under Title-case headers with truthy text cells and
      an empty balance. */
  lemma ColumnAmounts(data: JsVal, descricao: JsVal, debito: JsVal, credito: JsVal, parseStr: string -> Option<real>)
    requires JsTruthy(data) && JsTruthy(descricao)
    ensures var e := BfaColunaRow(BfaTitleRow(data, descricao, debito, credito, JsStr("")), parseStr);
      && e.data == data && e.descricao == descricao
      && e.debito == ParseFloat(Or(debito, JsNum(0.0)), parseStr)
      && e.credito == ParseFloat(Or(credito, JsNum(0.0)), parseStr)
  {
    var row := BfaTitleRow(data, descricao, debito, credito, JsStr(""));
    assert Get(row, "Débito") == debito && Get(row, "Crédito") == credito;
    assert "DÉBITO" !in row && "CRÉDITO" !in row;
  }

  /** A BAI column-layout row under Title-case headers. */
  function BaiTitleRow(dataValor: JsVal, descricao: JsVal, saidas: JsVal, entradas: JsVal, saldo: JsVal): Row {
    map["Data Valor" := dataValor, "Descrição" := descricao, "Saídas" := saidas, "Entradas" := entradas, "Saldo" := saldo]
  }

  /** The same row under UPPERCASE headers. */
  function BaiUpperRow(dataValor: JsVal, descricao: JsVal, saidas: JsVal, entradas: JsVal, saldo: JsVal): Row {
    map["DATA VALOR" := dataValor, "DESCRIÇÃO" := descricao, "SAÍDAS" := saidas, "ENTRADAS" := entradas, "SALDO" := saldo]
  }

  /** What each header of a BAI Title-case row reads, the UPPERCASE ones
      included. */
  lemma BaiTitleCells(dataValor: JsVal, descricao: JsVal, saidas: JsVal, entradas: JsVal, saldo: JsVal)
    ensures var m := BaiTitleRow(dataValor, descricao, saidas, entradas, saldo);
      && Get(m, "Data Valor") == dataValor && Get(m, "Descrição") == descricao && Get(m, "Saídas") == saidas
      && Get(m, "Entradas") == entradas && Get(m, "Saldo") == saldo
      && Get(m, "DATA VALOR") == Undefined && Get(m, "DESCRIÇÃO") == Undefined && Get(m, "SAÍDAS") == Undefined
      && Get(m, "ENTRADAS") == Undefined && Get(m, "SALDO") == Undefined
  {
    var m := BaiTitleRow(dataValor, descricao, saidas, entradas, saldo);
    assert "DATA VALOR" !in m && "DESCRIÇÃO" !in m && "SAÍDAS" !in m && "ENTRADAS" !in m && "SALDO" !in m;
  }

  /** What each header of a BAI UPPERCASE row reads, the Title-case ones
      included. */
  lemma BaiUpperCells(dataValor: JsVal, descricao: JsVal, saidas: JsVal, entradas: JsVal, saldo: JsVal)
    ensures var m := BaiUpperRow(dataValor, descricao, saidas, entradas, saldo);
      && Get(m, "DATA VALOR") == dataValor && Get(m, "DESCRIÇÃO") == descricao && Get(m, "SAÍDAS") == saidas
      && Get(m, "ENTRADAS") == entradas && Get(m, "SALDO") == saldo
      && Get(m, "Data Valor") == Undefined && Get(m, "Descrição") == Undefined && Get(m, "Saídas") == Undefined
      && Get(m, "Entradas") == Undefined && Get(m, "Saldo") == Undefined
  {
    var m := BaiUpperRow(dataValor, descricao, saidas, entradas, saldo);
    assert "Data Valor" !in m && "Descrição" !in m && "Saídas" !in m && "Entradas" !in m && "Saldo" !in m;
  }

  /** The BAI column layout under either header convention: the amounts
      agree, and the date (from "Data Valor") and the description agree
      when their cell is truthy; an empty one under a Title-case header
      falls through to the absent UPPERCASE header and reads `undefined`. */
  lemma {:induction false} BaiHeaderConventions(dataValor: JsVal, descricao: JsVal, saidas: JsVal, entradas: JsVal, saldo: JsVal,
                                                parseStr: string -> Option<real>)
    ensures var a := BaiColunaRow(BaiTitleRow(dataValor, descricao, saidas, entradas, saldo), parseStr);
      var b := BaiColunaRow(BaiUpperRow(dataValor, descricao, saidas, entradas, saldo), parseStr);
      && a.debito == b.debito && a.credito == b.credito && a.saldo == b.saldo
      && (JsTruthy(dataValor) ==> a.data == dataValor && b.data == dataValor)
      && (!JsTruthy(dataValor) ==> a.data == Undefined && b.data == dataValor)
      && (JsTruthy(descricao) ==> a.descricao == descricao && b.descricao == descricao)
      && (!JsTruthy(descricao) ==> a.descricao == Undefined && b.descricao == descricao)
  {
    var title := BaiTitleRow(dataValor, descricao, saidas, entradas, saldo);
    var upper := BaiUpperRow(dataValor, descricao, saidas, entradas, saldo);
    BaiTitleCells(dataValor, descricao, saidas, entradas, saldo);
    BaiUpperCells(dataValor, descricao, saidas, entradas, saldo);
    var a := BaiColunaRow(title, parseStr);
    var b := BaiColunaRow(upper, parseStr);
    assert a.debito == b.debito by {
      assert a.debito == ParseFloat(Or(Or(saidas, Undefined), JsNum(0.0)), parseStr);
      assert b.debito == ParseFloat(Or(Or(Undefined, saidas), JsNum(0.0)), parseStr);
    }
    assert a.credito == b.credito by {
      assert a.credito == ParseFloat(Or(Or(entradas, Undefined), JsNum(0.0)), parseStr);
      assert b.credito == ParseFloat(Or(Or(Undefined, entradas), JsNum(0.0)), parseStr);
    }
    assert a.saldo == b.saldo by {
      assert a.saldo == Some(ParseFloat(Or(Or(saldo, Undefined), JsNum(0.0)), parseStr));
      assert b.saldo == Some(ParseFloat(Or(Or(Undefined, saldo), JsNum(0.0)), parseStr));
    }
  }

  /** The two BAI layouts agree on the amounts and the description: a
      line-layout row whose `Movimento` upper-cases to "SAÍDA" (or
      "ENTRADA") reads as the column-layout row with the amount under
      "Saídas" (or "Entradas"). They disagree on the date: the line layout
      reads the header "Data", the column layout "Data Valor", so a
      line-layout sheet that names its date column "Data Valor" gives every
      record an `undefined` date. */
  lemma {:induction false} BaiLayoutsAgree(data: JsVal, descricao: JsVal, valor: JsVal, t: string,
                                           parseStr: string -> Option<real>)
    requires JsTruthy(data) && JsTruthy(descricao)
    requires Upper(t) == "SAÍDA" || Upper(t) == "ENTRADA"
    ensures var linha := BaiLinhaRow(map["Data" := data, "Descrição" := descricao, "Valor" := valor, "Movimento" := JsStr(t)], parseStr);
      var coluna := BaiColunaRow(if Upper(t) == "SAÍDA" then BaiTitleRow(data, descricao, valor, JsStr(""), JsStr(""))
                                 else BaiTitleRow(data, descricao, JsStr(""), valor, JsStr("")), parseStr);
      && linha.Ok?
      && linha.value.data == data && coluna.data == data
      && linha.value.descricao == coluna.descricao
      && linha.value.debito == coluna.debito && linha.value.credito == coluna.credito
    ensures var linha := BaiLinhaRow(map["Data Valor" := data, "Descrição" := descricao, "Valor" := valor, "Movimento" := JsStr(t)], parseStr);
      linha.Ok? && linha.value.data == Undefined
  {
    var row := map["Data" := data, "Descrição" := descricao, "Valor" := valor, "Movimento" := JsStr(t)];
    assert Get(row, "Movimento") == JsStr(t) && Get(row, "Valor") == valor && Get(row, "Data") == data;
    assert Upper([]) == [];
    assert JsTruthy(JsStr(t));
    var valorF := ParseFloat(Or(valor, JsNum(0.0)), parseStr);
    var linha := BaiLinhaRow(row, parseStr);
    assert linha.Ok?;
    if Upper(t) == "SAÍDA" {
      BaiColumnAmounts(data, descricao, valor, JsStr(""), parseStr);
      assert linha.value.debito == valorF && linha.value.credito == Finite(0.0);
    } else {
      BaiColumnAmounts(data, descricao, JsStr(""), valor, parseStr);
      assert linha.value.debito == Finite(0.0) && linha.value.credito == valorF;
    }
    var other := map["Data Valor" := data, "Descrição" := descricao, "Valor" := valor, "Movimento" := JsStr(t)];
    assert "Data" !in other && Get(other, "Movimento") == JsStr(t);
  }

  /** The BAI column layout under Title-case headers with truthy text cells
      and an empty balance. */
  lemma BaiColumnAmounts(dataValor: JsVal, descricao: JsVal, saidas: JsVal, entradas: JsVal, parseStr: string -> Option<real>)
    requires JsTruthy(dataValor) && JsTruthy(descricao)
    ensures var e := BaiColunaRow(BaiTitleRow(dataValor, descricao, saidas, entradas, JsStr("")), parseStr);
      && e.data == dataValor && e.descricao == descricao
      && e.debito == ParseFloat(Or(saidas, JsNum(0.0)), parseStr)
      && e.credito == ParseFloat(Or(entradas, JsNum(0.0)), parseStr)
  {
    var row := BaiTitleRow(dataValor, descricao, saidas, entradas, JsStr(""));
    assert Get(row, "Saídas") == saidas && Get(row, "Entradas") == entradas;
    assert "SAÍDAS" !in row && "ENTRADAS" !in row;
  }
}
