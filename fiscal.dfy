/** The tax reconciliation of `backend/services/reconciliacao_fiscal_service.py`:
    the AGT map (the tax authority's list of deductible supplier
    documents) is matched against the company's supplier ledger on four
    keys, nif, document number, document value and deductible IVA, and
    split into four groups: the pairs equal on all four keys, the pairs
    equal on the first three whose IVA differs, and the rows of each side
    without a four-key partner.

    Reading the workbooks is left out: a sheet is its header row and its
    data rows as they come out of `read_excel`. `str()` of a non-string
    cell (`astype(str)`) and Unicode NFKD decomposition are parameters. */
module Fiscal {
  import opened Base
  import opened PyText
  import opened Numbers
  import opened Joins

  // ============================================================ limpar_nome

  /** `''.join(c for c in s if not unicodedata.combining(c))` */
  function DropCombining(s: string): (r: string)
    ensures forall c :: c in r ==> c in s && !IsCombining(c)
    ensures (forall c :: c in s ==> !IsCombining(c)) ==> r == s
  {
    if s == [] then []
    else
      var rest := DropCombining(s[1..]);
      assert forall c :: c in s[1..] ==> c in s;
      if IsCombining(s[0]) then rest
      else
        assert (forall c :: c in s ==> !IsCombining(c)) ==> rest == s[1..] && [s[0]] + s[1..] == s;
        [s[0]] + rest
  }

  /** The punctuation rules of `limpar_nome` on the decomposed text:
      combining marks dropped, '-' turned into a space, ',' and '.'
      removed. What is left are spaces and non-combining characters of the
      decomposed text. */
  function Punctuate(u: string): (r: string)
    ensures forall c :: c in r ==> !IsCombining(c) && c != '-' && c != ',' && c != '.'
    ensures forall c :: c in r ==> c == ' ' || c in u
  {
    var d := Replace(DropCombining(u), '-', " ");
    RemoveChars(d, ',');
    RemoveChars(Remove(d, ','), '.');
    Remove(Remove(d, ','), '.')
  }

  /** `limpar_nome`: a missing name gives ""; any other cell is read
      through `str`, upper-cased, stripped and decomposed, and comes out as
      single-spaced words with no combining mark and no '-', ',' or '.'. */
  function LimparNome(v: Value, show: Value -> string, nfkd: string -> string): (r: string)
    ensures IsNa(v) ==> r == ""
    ensures Squashed(r)
    ensures forall c :: c in r ==> !IsCombining(c) && c != '-' && c != ',' && c != '.'
  {
    if IsNa(v) then ""
    else Squash(Punctuate(nfkd(Strip(Upper(PyStr(v, show))))))
  }

  /** Only combining marks are dropped: every other character survives. */
  lemma {:induction false} DropCombiningKeeps(s: string)
    ensures forall c :: c in s && !IsCombining(c) ==> c in DropCombining(s)
  {
    if s != [] {
      DropCombiningKeeps(s[1..]);
      assert forall c :: c in s ==> c == s[0] || c in s[1..];
    }
  }

  /** On a text with no combining mark, ',' or '.', the punctuation rules
      work position by position: '-' becomes ' ', everything else stays. */
  lemma PunctuatePointwise(u: string)
    requires forall c :: c in u ==> !IsCombining(c) && c != ',' && c != '.'
    ensures |Punctuate(u)| == |u|
    ensures forall i :: 0 <= i < |u| ==> Punctuate(u)[i] == if u[i] == '-' then ' ' else u[i]
  {
    assert DropCombining(u) == u;
    var d := Replace(u, '-', " ");
    ReplacePointwise(u, '-', ' ');
    assert ',' !in d && '.' !in d;
    RemoveAbsent(d, ',');
    RemoveAbsent(d, '.');
  }

  /** The punctuation rules drop combining marks, '-', ',' and '.' and
      nothing else; a '-' leaves a ' ' in its place. */
  lemma PunctuateKeeps(u: string)
    ensures forall c :: c in u && !IsCombining(c) && c != '-' && c != ',' && c != '.' ==> c in Punctuate(u)
    ensures '-' in u ==> ' ' in Punctuate(u)
  {
    var e := DropCombining(u);
    DropCombiningKeeps(u);
    var d := Replace(e, '-', " ");
    ReplaceKeeps(e, '-', " ");
    RemoveKeeps(d, ',');
    RemoveKeeps(Remove(d, ','), '.');
  }

  /** Cleaning a name loses only white space, combining marks, '-', ','
      and '.': every other character of the upper-cased, stripped and
      decomposed text is in the cleaned name. */
  lemma LimparNomeKeeps(v: Value, show: Value -> string, nfkd: string -> string)
    ensures !IsNa(v) ==>
      var x := nfkd(Strip(Upper(PyStr(v, show))));
      forall c :: c in x && !IsSpace(c) && !IsCombining(c) && c != '-' && c != ',' && c != '.'
        ==> c in LimparNome(v, show, nfkd)
  {
    if !IsNa(v) {
      var x := nfkd(Strip(Upper(PyStr(v, show))));
      PunctuateKeeps(x);
      SquashKeeps(Punctuate(x));
    }
  }

  /** No white space at either end. */
  predicate Trimmed(s: string) {
    s != [] ==> !IsSpace(s[0]) && !IsSpace(s[|s| - 1])
  }

  predicate NoAsciiLower(s: string) {
    forall c :: c in s ==> !IsAsciiLower(c)
  }

  /** Decomposition brings back no ASCII lower-case letter for a text
      without any character of `compat`. It does bring one back for the
      compatibility characters of Unicode whose decomposition is a
      lower-case letter, such as 'º' (U+00BA, to 'o') and 'ª' (U+00AA, to
      'a'), which `upper()` leaves as they are; `compat` names them. */
  ghost predicate KeepsCaseOutside(nfkd: string -> string, compat: set<char>) {
    forall s :: NoAsciiLower(s) && (forall c :: c in s ==> c !in compat) ==> NoAsciiLower(nfkd(s))
  }

  /** The cleaned name is upper case, when its upper-cased text holds no
      compatibility character that decomposes to a lower-case letter. */
  lemma LimparNomeUpper(v: Value, show: Value -> string, nfkd: string -> string, compat: set<char>)
    requires KeepsCaseOutside(nfkd, compat)
    requires !IsNa(v) ==> forall c :: c in Upper(PyStr(v, show)) ==> c !in compat
    ensures NoAsciiLower(LimparNome(v, show, nfkd))
  {
    if !IsNa(v) {
      var s := PyStr(v, show);
      UpperNoAsciiLower(s);
      var t := Strip(Upper(s));
      assert NoAsciiLower(t);
      assert forall c :: c in t ==> c !in compat;
      var u := nfkd(t);
      assert NoAsciiLower(u);
      assert NoAsciiLower(Punctuate(u));
    }
  }

  /** "Nº" is cleaned to "No": NFKD turns the ordinal indicator into a
      lower-case 'o' after the text was upper-cased, so a cleaned name can
      hold lower-case letters. */
  lemma LimparNomeOrdinal(show: Value -> string, nfkd: string -> string)
    requires nfkd("N\U{BA}") == "No"
    ensures LimparNome(Str("N\U{BA}"), show, nfkd) == "No"
    ensures !NoAsciiLower(LimparNome(Str("N\U{BA}"), show, nfkd))
  {
    var v := Str("N\U{BA}");
    assert !IsNa(v) && PyStr(v, show) == "N\U{BA}";
    OrdinalUnchanged();
    var u := nfkd(Strip(Upper(PyStr(v, show))));
    assert u == "No";
    PunctuateNo();
    SquashNo();
    assert LimparNome(v, show, nfkd) == Squash(Punctuate(u));
    LowerO();
  }

  lemma OrdinalUnchanged()
    ensures Strip(Upper("N\U{BA}")) == "N\U{BA}"
  {
    var s := "N\U{BA}";
    assert Upper(s) == s by {
      assert Upper(s) == UpperChar('N') + Upper(s[1..]);
      assert Upper(s[1..]) == UpperChar('\U{BA}') + Upper([]);
    }
    assert !IsSpace(s[0]) && !IsSpace(s[1]);
  }

  lemma PunctuateNo()
    ensures Punctuate("No") == "No"
  {
    var d := DropCombining("No");
    assert d == "No";
    assert Replace(d, '-', " ") == "No" by {
      assert Replace(d, '-', " ") == "N" + Replace("o", '-', " ");
      assert Replace("o", '-', " ") == "o" + Replace([], '-', " ");
    }
    RemoveAbsent("No", ',');
    RemoveAbsent("No", '.');
  }

  lemma SquashNo()
    ensures Squash("No") == "No"
  {
    assert !IsSpace("No"[0]) && !IsSpace("No"[1]);
    SquashToken("No");
  }

  lemma LowerO()
    ensures !NoAsciiLower("No")
  {
    var o := "No"[1];
    assert o in "No" && IsAsciiLower(o);
  }

  // ============================================================== the sheets

  /** A workbook sheet: its header and its data rows (a short row reads as
      NaN in its missing columns, as `read_excel` pads it). */
  datatype Sheet = Sheet(header: seq<string>, rows: seq<seq<Value>>)

  function Cell(row: seq<Value>, j: nat): Value {
    if j < |row| then row[j] else NaN
  }

  datatype Origem = Agt | Cont

  /** `columns.str.strip().str.replace(r"\s+", " ", regex=True)` */
  function CleanHeader(h: string): (r: string)
    ensures Squashed(r)
    ensures r == [] <==> forall i :: 0 <= i < |h| ==> IsSpace(h[i])
  {
    var t := Strip(h);
    CollapseHead(t);
    CollapseShape(t);
    if t == [] then []
    else
      CollapseLast(t);
      CollapseSpaces(t)
  }

  /** The `rename` maps of each side. */
  function Rename(o: Origem, h: string): string {
    match o
    case Agt =>
      if h == "Nº de Identificação Fiscal" then "nif"
      else if h == "Nº do Documento" then "numero_documento"
      else if h == "Valor do Documento" then "valor_documento"
      else if h == "IVA Dedutível - Valor" then "iva_dedutivel"
      else h
    case Cont =>
      if h == "NIF" then "nif"
      else if h == "NÚMERO DO DOCUMENTO" then "numero_documento"
      else if h == "VALOR DO DOCUMENTO" then "valor_documento"
      else if h == "IVA DEDUTÍVEL VALOR" then "iva_dedutivel"
      else h
  }

  /** The column names after cleaning and renaming. */
  function Names(sh: Sheet, o: Origem): (ns: seq<string>)
    ensures |ns| == |sh.header|
  {
    seq(|sh.header|, j requires 0 <= j < |sh.header| => Rename(o, CleanHeader(sh.header[j])))
  }

  /** The column of the name, per side. */
  function NomeCol(o: Origem): string {
    match o
    case Agt => "Nome / Firma"
    case Cont => "NOME / DENOMINAÇÃO"
  }

  /** Where `df[key]` reads: no such column (KeyError), one column (a
      Series), or several columns (a DataFrame). */
  datatype Lookup = Missing | One(j: nat) | Many

  /** The indices of the columns named `key`, increasing. */
  function Positions(ns: seq<string>, key: string, n: nat): (ps: seq<nat>)
    requires n <= |ns|
    ensures forall j: nat :: j in ps <==> j < n && ns[j] == key
    ensures forall a, b :: 0 <= a < b < |ps| ==> ps[a] < ps[b]
  {
    if n == 0 then []
    else
      var prev := Positions(ns, key, n - 1);
      if ns[n - 1] == key then
        assert forall a :: 0 <= a < |prev| ==> prev[a] in prev;
        prev + [n - 1]
      else prev
  }

  function Column(ns: seq<string>, key: string): (r: Lookup)
    ensures r.Missing? <==> key !in ns
    ensures r.One? ==> r.j < |ns| && ns[r.j] == key && forall k :: 0 <= k < |ns| && ns[k] == key ==> k == r.j
    ensures r.Many? ==> exists a, b :: 0 <= a < b < |ns| && ns[a] == key && ns[b] == key
  {
    var ps := Positions(ns, key, |ns|);
    if |ps| == 0 then
      assert forall k :: 0 <= k < |ns| ==> ns[k] != key by {
        forall k | 0 <= k < |ns| ensures ns[k] != key { assert ns[k] == key ==> k in ps; }
      }
      Missing
    else
      assert ps[0] in ps;
      if |ps| == 1 then
        assert forall k :: 0 <= k < |ns| && ns[k] == key ==> k == ps[0] by {
          forall k | 0 <= k < |ns| && ns[k] == key ensures k == ps[0] {
            assert k in ps;
          }
        }
        One(ps[0])
      else
        assert ps[1] in ps && ps[0] < ps[1];
        Many
  }

  // ============================================================ normalizar

  /** A normalised document row. */
  datatype Doc = Doc(nif: string, numero: string, valor: Option<real>, iva: Option<real>, nome: string)

  /** `pd.to_numeric(cell, errors="coerce")`: None for NaN. */
  function ToNumeric(v: Value): (r: Option<real>)
    ensures v.Num? ==> r == Some(v.x)
    ensures IsNa(v) ==> r == None
  {
    match v
    case PyNone => None
    case NaN => None
    case Num(x) => Some(x)
    case Str(s) => FloatLiteral(s)
  }

  /** `.round(2)`, NaN staying NaN. */
  function Round(x: Option<real>): (r: Option<real>)
    ensures r.None? <==> x.None?
    ensures r.Some? ==> IsCents(r.value) && -0.005 <= r.value - x.value <= 0.005
  {
    match x
    case None => None
    case Some(y) => Some(Round2(y))
  }

  /** `str()` of a non-string cell in each text column `normalizar` reads.
      It is one per column and per sheet because pandas renders a number
      after the column's dtype: an integer column gives "123", a float
      column (an integer column with a missing cell among them) "123.0". */
  datatype Render = Render(nif: Value -> string, numero: Value -> string, nome: Value -> string)

  /** The columns `normalizar` reads. */
  datatype Cols = Cols(nif: nat, numero: nat, valor: nat, iva: nat, nome: Option<nat>)

  /** `astype(str).str.strip()` */
  function NifText(v: Value, show: Value -> string): (r: string)
    ensures Trimmed(r)
  {
    Strip(PyStr(v, show))
  }

  /** The same nif 123 under an integer column in one sheet and a float
      column in the other is two different keys, "123" and "123.0". */
  lemma NifDtypes(intColumn: Value -> string, floatColumn: Value -> string)
    requires intColumn(Num(123.0)) == "123" && floatColumn(Num(123.0)) == "123.0"
    ensures NifText(Num(123.0), intColumn) == "123"
    ensures NifText(Num(123.0), floatColumn) == "123.0"
  {
    var i := "123";
    var f := "123.0";
    assert !IsSpace(i[0]) && !IsSpace(i[1]) && !IsSpace(i[2]);
    assert !IsSpace(f[0]) && !IsSpace(f[1]) && !IsSpace(f[2]) && !IsSpace(f[3]) && !IsSpace(f[4]);
  }

  /** `astype(str).str.strip().str.upper()` */
  function NumeroText(v: Value, show: Value -> string): (r: string)
    ensures Trimmed(r)
    ensures NoAsciiLower(r)
  {
    UpperStrip(PyStr(v, show))
  }

  /** `pd.to_numeric(..., errors="coerce").round(2)` */
  function Amount(v: Value): (r: Option<real>)
    ensures r.Some? ==> IsCents(r.value)
    ensures v.Num? ==> r == Some(Round2(v.x))
    ensures IsNa(v) ==> r == None
  {
    Round(ToNumeric(v))
  }

  /** `nome_normalizado`: "" when the sheet has no name column. */
  function NomeText(row: seq<Value>, nome: Option<nat>, show: Value -> string, nfkd: string -> string): (r: string)
    ensures Squashed(r)
    ensures nome.None? ==> r == ""
  {
    match nome
    case None => ""
    case Some(j) => LimparNome(Cell(row, j), show, nfkd)
  }

  /** What `normalizar` guarantees of every document: nif and number
      stripped, the number upper case, the amounts in cents, the name
      single-spaced. */
  predicate Normalized(d: Doc) {
    && Trimmed(d.nif)
    && Trimmed(d.numero)
    && NoAsciiLower(d.numero)
    && (d.valor.Some? ==> IsCents(d.valor.value))
    && (d.iva.Some? ==> IsCents(d.iva.value))
    && Squashed(d.nome)
  }

  /** One row through `normalizar`. */
  function NormalizeRow(row: seq<Value>, cs: Cols, render: Render, nfkd: string -> string): (d: Doc)
    ensures Normalized(d)
    ensures cs.nome.None? ==> d.nome == ""
  {
    var nif := NifText(Cell(row, cs.nif), render.nif);
    var numero := NumeroText(Cell(row, cs.numero), render.numero);
    var valor := Amount(Cell(row, cs.valor));
    var iva := Amount(Cell(row, cs.iva));
    var nome := NomeText(row, cs.nome, render.nome, nfkd);
    Doc(nif, numero, valor, iva, nome)
  }

  /** The four columns `normalizar` needs, each read once. */
  function Required(ns: seq<string>): (r: Result<Cols, PyError>)
    ensures r.Ok? <==> forall k :: k in Keys ==> Column(ns, k).One?
    ensures r == Err(KeyError("nif")) <==> "nif" !in ns
    ensures r.Ok? ==> r.value.nome.None?
  {
    var cn := Column(ns, "nif");
    var cd := Column(ns, "numero_documento");
    var cv := Column(ns, "valor_documento");
    var ci := Column(ns, "iva_dedutivel");
    KeysMembers();
    if cn.Missing? then Err(KeyError("nif"))
    else if cn.Many? then Err(AttributeError)
    else if cd.Missing? then Err(KeyError("numero_documento"))
    else if cd.Many? then Err(AttributeError)
    else if cv.Missing? then Err(KeyError("valor_documento"))
    else if cv.Many? then Err(TypeError)
    else if ci.Missing? then Err(KeyError("iva_dedutivel"))
    else if ci.Many? then Err(TypeError)
    else Ok(Cols(cn.j, cd.j, cv.j, ci.j, None))
  }

  /** The mandatory columns, in the order `normalizar` reads them. */
  const Keys: seq<string> := ["nif", "numero_documento", "valor_documento", "iva_dedutivel"]

  lemma KeysMembers()
    ensures forall k :: k in Keys <==> k == "nif" || k == "numero_documento" || k == "valor_documento" || k == "iva_dedutivel"
  {
  }

  /** `normalizar(df, origem)`: a missing column raises KeyError (the
      first one missing, in reading order); a name shared by several
      columns selects a DataFrame, on which `.str` raises AttributeError,
      `to_numeric` TypeError and `limpar_nome` ValueError. Otherwise each
      row gives one document, in order. */
  function Normalizar(sh: Sheet, o: Origem, render: Render, nfkd: string -> string): (r: Result<seq<Doc>, PyError>)
    ensures r.Ok? <==> (forall k :: k in Keys ==> Column(Names(sh, o), k).One?) && !Column(Names(sh, o), NomeCol(o)).Many?
    ensures r == Err(KeyError("nif")) <==> "nif" !in Names(sh, o)
    ensures r.Ok? ==> |r.value| == |sh.rows| && forall i :: 0 <= i < |r.value| ==> Normalized(r.value[i])
    ensures r.Ok? && !(NomeCol(o) in Names(sh, o)) ==> forall i :: 0 <= i < |r.value| ==> r.value[i].nome == ""
  {
    var ns := Names(sh, o);
    match Required(ns)
    case Err(e) => Err(e)
    case Ok(cs) =>
      match Column(ns, NomeCol(o))
      case Many => Err(ValueError)
      case Missing => Ok(Rows(sh.rows, cs, render, nfkd))
      case One(jm) => Ok(Rows(sh.rows, cs.(nome := Some(jm)), render, nfkd))
  }

  /** Every row normalised, in order. */
  function Rows(rows: seq<seq<Value>>, cs: Cols, render: Render, nfkd: string -> string): (ds: seq<Doc>)
    ensures |ds| == |rows|
    ensures forall i :: 0 <= i < |rows| ==> ds[i] == NormalizeRow(rows[i], cs, render, nfkd)
  {
    seq(|rows|, i requires 0 <= i < |rows| => NormalizeRow(rows[i], cs, render, nfkd))
  }

  /** A sheet without a nif column fails with KeyError("nif"), whatever
      else it lacks. */
  lemma MissingNif(sh: Sheet, o: Origem, render: Render, nfkd: string -> string)
    requires "nif" !in Names(sh, o)
    ensures Normalizar(sh, o, render, nfkd) == Err(KeyError("nif"))
  {
  }

  // ========================================================== the partition

  /** The four merge keys; the normalised name is not one of them. */
  predicate SameKeys(a: Doc, c: Doc) {
    a.nif == c.nif && a.numero == c.numero && a.valor == c.valor && a.iva == c.iva
  }

  /** The three keys of the IVA comparison. */
  predicate SameDoc(a: Doc, c: Doc) {
    a.nif == c.nif && a.numero == c.numero && a.valor == c.valor
  }

  /** `x != y` on float columns: NaN differs from everything, itself included. */
  predicate FloatNe(x: Option<real>, y: Option<real>) {
    x.None? || y.None? || x.value != y.value
  }

  /** The mask `merged_all["iva_dedutivel_agt"] != merged_all["iva_dedutivel_cont"]`. */
  function IvaDiffers(agt: seq<Doc>, cont: seq<Doc>): ((nat, nat)) -> bool {
    (p: (nat, nat)) => p.0 < |agt| && p.1 < |cont| && FloatNe(agt[p.0].iva, cont[p.1].iva)
  }

  /** What `reconciliar_fiscal` returns, by row index into the normalised
      documents of each side. */
  datatype Partition = Partition(
    agt: seq<Doc>, cont: seq<Doc>,
    conciliados: seq<(nat, nat)>,      // (agt row, ledger row)
    divergentesIva: seq<(nat, nat)>,   // (agt row, ledger row)
    soAgt: seq<nat>,
    soContabilidade: seq<nat>)

  function Swap(rel: (Doc, Doc) -> bool): (Doc, Doc) -> bool {
    (x, y) => rel(y, x)
  }

  /** `reconciliar_fiscal` after the workbooks are read: both sheets are
      normalised (the AGT map first; the first exception is re-raised), then
      the inner merge on four keys, the inner merge on three keys filtered
      to differing IVA, and the two left anti-merges on four keys. */
  function ReconciliarFiscal(agtSheet: Sheet, contSheet: Sheet, renderAgt: Render, renderCont: Render, nfkd: string -> string): (r: Result<Partition, PyError>)
    ensures Normalizar(agtSheet, Agt, renderAgt, nfkd).Err? ==> r == Err(Normalizar(agtSheet, Agt, renderAgt, nfkd).error)
    ensures Normalizar(agtSheet, Agt, renderAgt, nfkd).Ok? && Normalizar(contSheet, Cont, renderCont, nfkd).Err? ==>
      r == Err(Normalizar(contSheet, Cont, renderCont, nfkd).error)
    ensures r.Ok? <==> Normalizar(agtSheet, Agt, renderAgt, nfkd).Ok? && Normalizar(contSheet, Cont, renderCont, nfkd).Ok?
    ensures r.Ok? ==> r.value == Split4(Normalizar(agtSheet, Agt, renderAgt, nfkd).value, Normalizar(contSheet, Cont, renderCont, nfkd).value)
  {
    match Normalizar(agtSheet, Agt, renderAgt, nfkd)
    case Err(e) => Err(e)
    case Ok(agt) =>
      match Normalizar(contSheet, Cont, renderCont, nfkd)
      case Err(e) => Err(e)
      case Ok(cont) => Ok(Split4(agt, cont))
  }

  /** What each group holds: the pairs that agree on all four keys, the
      pairs that agree on the three document keys and whose IVA differs
      (NaN included), and the rows of each side with no four-key partner;
      the pair lists are in merge order and the row lists in row order. */
  ghost predicate Groups(P: Partition) {
    && (forall p :: p in P.conciliados <==>
          p.0 < |P.agt| && p.1 < |P.cont| && SameKeys(P.agt[p.0], P.cont[p.1]))
    && (forall p :: p in P.divergentesIva <==>
          p.0 < |P.agt| && p.1 < |P.cont| && SameDoc(P.agt[p.0], P.cont[p.1]) && FloatNe(P.agt[p.0].iva, P.cont[p.1].iva))
    && (forall i: nat :: i in P.soAgt <==> i < |P.agt| && NoPartner(P.agt[i], P.cont))
    && (forall j: nat :: j in P.soContabilidade <==> j < |P.cont| && NoPartner(P.cont[j], P.agt))
    && StrictlySorted(P.conciliados) && StrictlySorted(P.divergentesIva)
    && (forall a, b :: 0 <= a < b < |P.soAgt| ==> P.soAgt[a] < P.soAgt[b])
    && (forall a, b :: 0 <= a < b < |P.soContabilidade| ==> P.soContabilidade[a] < P.soContabilidade[b])
  }

  /** No document of `others` has the four keys of `d`. */
  predicate NoPartner(d: Doc, others: seq<Doc>) {
    forall k :: 0 <= k < |others| ==> !SameKeys(d, others[k])
  }

  /** The rows of `xs` the four-key anti-merge keeps. */
  lemma AntiJoinKeys(xs: seq<Doc>, ys: seq<Doc>)
    ensures forall i: nat :: i in AntiJoin(xs, ys, SameKeys) <==> i < |xs| && NoPartner(xs[i], ys)
  {
  }

  /** The same with the relation's arguments swapped: the four keys are
      symmetric. */
  lemma AntiJoinSwappedKeys(xs: seq<Doc>, ys: seq<Doc>)
    ensures forall j: nat :: j in AntiJoin(xs, ys, Swap(SameKeys)) <==> j < |xs| && NoPartner(xs[j], ys)
  {
    forall j: nat ensures j in AntiJoin(xs, ys, Swap(SameKeys)) <==> j < |xs| && NoPartner(xs[j], ys) {
      if j < |xs| {
        forall i | 0 <= i < |ys| ensures Swap(SameKeys)(xs[j], ys[i]) == SameKeys(xs[j], ys[i]) {
          assert Swap(SameKeys)(xs[j], ys[i]) == SameKeys(ys[i], xs[j]);
        }
      }
    }
  }

  /** The pairs of the three-key merge whose IVA differs. */
  lemma IvaPairs(agt: seq<Doc>, cont: seq<Doc>)
    ensures var d := FilterPairs(Join(agt, cont, SameDoc), IvaDiffers(agt, cont));
      && (forall p :: p in d <==>
            p.0 < |agt| && p.1 < |cont| && SameDoc(agt[p.0], cont[p.1]) && FloatNe(agt[p.0].iva, cont[p.1].iva))
      && StrictlySorted(d)
  {
  }

  /** The four groups of two normalised sides. */
  function Split4(agt: seq<Doc>, cont: seq<Doc>): (P: Partition)
    ensures P.agt == agt && P.cont == cont && Groups(P)
  {
    AntiJoinKeys(agt, cont);
    AntiJoinSwappedKeys(cont, agt);
    IvaPairs(agt, cont);
    Partition(agt, cont,
      Join(agt, cont, SameKeys),
      FilterPairs(Join(agt, cont, SameDoc), IvaDiffers(agt, cont)),
      AntiJoin(agt, cont, SameKeys),
      AntiJoin(cont, agt, Swap(SameKeys)))
  }
}
