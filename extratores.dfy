/** The lenient cell parsers of `backend/utils/extratores.py`, which turn
    the cells of an extracted statement into the values stored for the
    matcher: `parse_valor` (float amounts), `normalizar_data` (dates),
    `normalizar_valor` (Decimal amounts) and `normalizar_texto` (text).

    None of them fails on a malformed value: an amount degrades to zero and
    a date to None. The one exception that escapes is the AttributeError of
    `normalizar_data` on a truthy cell that is not a string. */
module Extratores {
  import opened Base
  import opened PyText
  import opened Numbers
  import opened Dates
  import opened Reconciliador

  // ============================================================ parse_valor

  /** `parse_valor`: NaN, None and "" give 0.0, numbers pass through, and a
      string loses its spaces and '.' thousands separators, has its decimal
      ',' turned into '.', and is read by `float()`, 0.0 when it cannot be. */
  function ParseValor(v: Value): (r: real)
    ensures IsNa(v) || v == Str("") ==> r == 0.0
    ensures v.Num? ==> r == v.x
  {
    match v
    case PyNone => 0.0
    case NaN => 0.0
    case Num(x) => x
    case Str(s) =>
      if s == "" then 0.0
      else
        match FloatLiteral(PtbrDecimal(s))
        case Some(x) => x
        case None => 0.0
  }

  /** Every pt-BR spelling of an amount reads back as that amount. */
  lemma {:induction false} ParseValorRoundTrip(c: int)
    ensures ParseValor(Str(PtbrLiteral(c))) == CentsAmount(c)
  {
    LiteralReads(c);
    LiteralNonEmpty(c);
    ReadsAs(PtbrLiteral(c), CentsAmount(c));
  }

  /** `float` of the rewritten pt-BR literal is the amount. */
  lemma {:induction false} LiteralReads(c: int)
    ensures FloatLiteral(PtbrDecimal(PtbrLiteral(c))) == Some(CentsAmount(c))
  {
    if c < 0 {
      NegativeLiteralReads(c);
    } else {
      PositiveLiteralReads(c);
    }
  }

  lemma {:induction false} NegativeLiteralReads(c: int)
    requires c < 0
    ensures FloatLiteral(PtbrDecimal(PtbrLiteral(c))) == Some(CentsAmount(c))
  {
    var a: nat := -c;
    NegativeLiteral(c, a);
    NegativeCase(PtbrLiteral(c), a, CentsAmount(c));
  }

  /** A negative literal is '-' and the unsigned part of the magnitude. */
  lemma NegativeLiteral(c: int, a: nat)
    requires c < 0 && a == -c
    ensures PtbrLiteral(c) == "-" + PtbrBody(a) && CentsAmount(c) == -CentsAmount(a)
  {
  }

  lemma {:induction false} NegativeCase(lit: string, a: nat, z: real)
    requires lit == "-" + PtbrBody(a) && z == -CentsAmount(a)
    ensures FloatLiteral(PtbrDecimal(lit)) == Some(z)
  {
    BodyText(a);
    MinusReads(lit, PtbrBody(a), CentsAmount(a), z);
  }

  lemma {:induction false} PositiveLiteralReads(c: int)
    requires c >= 0
    ensures FloatLiteral(PtbrDecimal(PtbrLiteral(c))) == Some(CentsAmount(c))
  {
    assert PtbrLiteral(c) == PtbrBody(c);
    MagnitudeReads(c);
  }

  /** A '-' in front of a body whose rewritten text is a numeric literal
      negates what it reads as. */
  lemma {:induction false} MinusReads(lit: string, body: string, y: real, z: real)
    requires lit == "-" + body && z == -y
    requires var u := PtbrDecimal(body);
      u != [] && IsAsciiDigit(u[0]) && KeepNumeric(u) == u && SignedDecimal(u) == Some(y)
    ensures FloatLiteral(PtbrDecimal(lit)) == Some(z)
  {
    var u := PtbrDecimal(body);
    var m := "-" + u;
    MinusDecimal(body);
    assert PtbrDecimal(lit) == m;
    MinusText(u);
    assert SignedDecimal(m) == Some(z);
    assert forall i :: 0 <= i < |u| ==> !IsSpace(u[i]) by {
      forall i | 0 <= i < |u| ensures !IsSpace(u[i]) { assert IsNumericChar(KeepNumeric(u)[i]); }
    }
    SignedNoSpace("-", u);
    assert FloatLiteral(m) == SignedDecimal(m);
  }

  lemma LiteralNonEmpty(c: int)
    ensures PtbrLiteral(c) != []
  {
  }

  /** Non-empty text whose rewritten form is a float literal reads as it. */
  lemma ReadsAs(lit: string, y: real)
    requires lit != [] && FloatLiteral(PtbrDecimal(lit)) == Some(y)
    ensures ParseValor(Str(lit)) == y
  {
  }

  /** The separators rule commutes with a leading '-'. */
  lemma MinusDecimal(body: string)
    ensures PtbrDecimal("-" + body) == "-" + PtbrDecimal(body)
  {
    RemoveCons('-', body, ' ');
    RemoveCons('-', Remove(body, ' '), '.');
    ReplaceCons('-', Remove(Remove(body, ' '), '.'), ',', ".");
  }

  /** The two pt-BR parsers of the code base agree on every pt-BR amount. */
  lemma ParsersAgree(c: int)
    ensures ParseValor(Str(PtbrLiteral(c))) == ParseValorPtbr(Str(PtbrLiteral(c)))
  {
    ParseValorRoundTrip(c);
    PtbrRoundTrip(c);
  }

  /** A '.' is always a thousands separator: "12.50" reads as 1250, not
      12.5. */
  lemma DotIsThousands()
    ensures ParseValor(Str("12.50")) == 1250.0
  {
    DotsDropped();
    ThousandsReads();
  }

  lemma DotsDropped()
    ensures PtbrDecimal("12.50") == "1250"
  {
    var s := "12.50";
    RemoveAbsent(s, ' ');
    assert s == ['1'] + (['2'] + (['.'] + "50"));
    RemoveAbsent("50", '.');
    RemoveCons('.', "50", '.');
    RemoveCons('2', ['.'] + "50", '.');
    RemoveCons('1', ['2'] + (['.'] + "50"), '.');
    assert Remove(s, '.') == "1250";
    ReplaceAbsent("1250", ',', ".");
  }

  lemma ThousandsReads()
    ensures FloatLiteral("1250") == Some(1250.0)
  {
    var t := "1250";
    assert forall i :: 0 <= i < |t| ==> !IsSpace(t[i]);
    assert Strip(t) == t;
    DigitsOf1250();
    IntegerParses(t);
    assert SignedDecimal(t) == UnsignedDecimal(t);
  }

  lemma DigitsOf1250()
    ensures IsDigits("1250") && DigitsValue("1250") == 1250
  {
    var t := "1250";
    assert IsDigits(t);
    assert t[..3][..2][..1][..0] == [];
    assert DigitsValue(t[..3][..2][..1]) == 1;
    assert DigitsValue(t[..3][..2]) == 12;
    assert DigitsValue(t[..3]) == 125;
  }

  // ========================================================= normalizar_data

  /** `normalizar_data`: a falsy cell gives None; a string is stripped and
      read with "%d/%m/%Y", then with "%Y-%m-%d", None when neither reads
      it; `.strip()` on any other truthy cell (a number, NaN) raises
      AttributeError, which the `except ValueError` does not catch. */
  function NormalizarData(v: Value): (r: Result<Option<Date>, PyError>)
    ensures !Truthy(v) ==> r == Ok(None)
    ensures Truthy(v) && !v.Str? ==> r == Err(AttributeError)
    ensures r.Ok? && r.value.Some? ==> v.Str? && ValidDate(r.value.value)
  {
    if !Truthy(v) then Ok(None)
    else if !v.Str? then Err(AttributeError)
    else
      var t := Strip(v.s);
      match ParseDmy(t)
      case Some(dt) => Ok(Some(dt))
      case None => Ok(ParseIso(t))
  }

  /** A "%d/%m/%Y" date reads as itself. */
  lemma NormalizarDataDmy(dt: Date)
    requires ValidDate(dt)
    ensures NormalizarData(Str(FormatDmy(dt))) == Ok(Some(dt))
  {
    DmyRoundTrip(dt);
    DmyNoSpace(dt);
  }

  /** A "%Y-%m-%d" date reads as itself: the first format fails on it. */
  lemma NormalizarDataIso(dt: Date)
    requires ValidDate(dt)
    ensures NormalizarData(Str(FormatIso(dt))) == Ok(Some(dt))
  {
    IsoRoundTrip(dt);
    IsoNoSlash(dt);
  }

  /** Surrounding white space does not matter. */
  lemma NormalizarDataPadded(dt: Date, pad: string)
    requires ValidDate(dt) && forall i :: 0 <= i < |pad| ==> IsSpace(pad[i])
    ensures NormalizarData(Str(pad + FormatDmy(dt) + pad)) == Ok(Some(dt))
  {
    var s := FormatDmy(dt);
    DmyNoSpace(dt);
    DmyRoundTrip(dt);
    PaddedStrip(pad, s);
  }

  lemma DmyNoSpace(dt: Date)
    requires ValidDate(dt)
    ensures forall i :: 0 <= i < |FormatDmy(dt)| ==> !IsSpace(FormatDmy(dt)[i])
    ensures Strip(FormatDmy(dt)) == FormatDmy(dt)
  {
    var d, m, y := Pad2(dt.day), Pad2(dt.month), Pad4(dt.year);
    var s := FormatDmy(dt);
    assert s == d + "/" + m + "/" + y;
    forall i | 0 <= i < |s| ensures !IsSpace(s[i]) {
      if i < 2 { assert s[i] == d[i]; }
      else if 2 < i < 5 { assert s[i] == m[i - 3]; }
      else if i > 5 { assert s[i] == y[i - 6]; }
    }
  }

  lemma IsoNoSlash(dt: Date)
    requires ValidDate(dt)
    ensures ParseDmy(FormatIso(dt)) == None
    ensures Strip(FormatIso(dt)) == FormatIso(dt)
  {
    var y, m, d := Pad4(dt.year), Pad2(dt.month), Pad2(dt.day);
    var s := FormatIso(dt);
    assert s == y + "-" + m + "-" + d;
    forall i | 0 <= i < |s| ensures s[i] != '/' && !IsSpace(s[i]) {
      if i < 4 { assert s[i] == y[i]; }
      else if 4 < i < 7 { assert s[i] == m[i - 5]; }
      else if i > 7 { assert s[i] == d[i - 8]; }
    }
    assert Find(s, '/') == |s|;
  }

  /** Stripping white-space padding from text without white space at its
      ends. */
  lemma PaddedStrip(pad: string, s: string)
    requires forall i :: 0 <= i < |pad| ==> IsSpace(pad[i])
    requires s != [] && !IsSpace(s[0]) && !IsSpace(s[|s| - 1])
    ensures Strip(pad + s + pad) == s
  {
    assert pad + s + pad == pad + (s + pad);
    TrimLeftPad(pad, s + pad);
    TrimRightPad(s, pad);
  }

  lemma {:induction false} TrimLeftPad(pad: string, s: string)
    requires forall i :: 0 <= i < |pad| ==> IsSpace(pad[i])
    requires s != [] && !IsSpace(s[0])
    ensures TrimLeft(pad + s) == s
  {
    if pad == [] {
      assert pad + s == s;
    } else {
      assert (pad + s)[1..] == pad[1..] + s;
      TrimLeftPad(pad[1..], s);
    }
  }

  lemma {:induction false} TrimRightPad(s: string, pad: string)
    requires forall i :: 0 <= i < |pad| ==> IsSpace(pad[i])
    requires s != [] && !IsSpace(s[|s| - 1])
    ensures TrimRight(s + pad) == s
  {
    if pad == [] {
      assert s + pad == s;
    } else {
      var init := pad[..|pad| - 1];
      assert (s + pad)[..|s + pad| - 1] == s + init;
      TrimRightPad(s, init);
    }
  }

  // ======================================================== normalizar_valor

  /** What `Decimal(...)` returns: a finite number or NaN. */
  datatype Dec = Finite(x: real) | DecNaN

  predicate IsNumericChar(c: char) {
    IsAsciiDigit(c) || c == '.' || c == '-'
  }

  /** `re.sub(r"[^0-9\.-]", "", s)` */
  function KeepNumeric(s: string): (r: string)
    ensures forall i :: 0 <= i < |r| ==> IsNumericChar(r[i])
    ensures (forall i :: 0 <= i < |s| ==> IsNumericChar(s[i])) ==> r == s
  {
    if s == [] then []
    else
      var rest := KeepNumeric(s[1..]);
      assert forall i :: 0 <= i < |[s[0]] + rest| ==> ([s[0]] + rest)[i] == if i == 0 then s[0] else rest[i - 1];
      if IsNumericChar(s[0]) then
        assert (forall i :: 0 <= i < |s| ==> IsNumericChar(s[i])) ==> rest == s[1..] && [s[0]] + s[1..] == s;
        [s[0]] + rest
      else rest
  }

  /** The string `normalizar_valor` hands to `Decimal`: stripped, spaces
      and '.' removed, ',' turned into '.', and everything but digits, '.'
      and '-' dropped. */
  function ValorText(s: string): (r: string)
    ensures forall i :: 0 <= i < |r| ==> IsNumericChar(r[i])
  {
    KeepNumeric(PtbrDecimal(Strip(s)))
  }

  /** `Decimal(t)` on text of digits, '.' and '-': an optional '-' and
      digits with at most one point; anything else raises. */
  function DecimalOf(t: string): Option<real> {
    SignedDecimal(t)
  }

  /** `normalizar_valor`: None gives 0.00, a number converts through
      `str` (so NaN gives Decimal NaN), and a string goes through
      `ValorText`, with the four degenerate texts and every text `Decimal`
      rejects giving 0.00. */
  function NormalizarValor(v: Value): (r: Dec)
    ensures v.PyNone? ==> r == Finite(0.0)
    ensures v.Num? ==> r == Finite(v.x)
    ensures v.NaN? <==> r.DecNaN?
    ensures v.Str? && (ValorText(v.s) in {"", "-", ".", "-."} || DecimalOf(ValorText(v.s)).None?) ==> r == Finite(0.0)
  {
    match v
    case PyNone => Finite(0.0)
    case NaN => DecNaN
    case Num(x) => Finite(x)
    case Str(s) =>
      var t := ValorText(s);
      if t in {"", "-", ".", "-."} then Finite(0.0)
      else
        match DecimalOf(t)
        case Some(x) => Finite(x)
        case None => Finite(0.0)
  }

  /** The explicit check for "", "-", "." and "-." changes nothing: `Decimal`
      rejects those four texts anyway. */
  lemma DegenerateRejected()
    ensures DecimalOf("") == None && DecimalOf("-") == None
    ensures DecimalOf(".") == None && DecimalOf("-.") == None
  {
    assert "-"[1..] == "";
    assert "-."[1..] == ".";
    assert Find(".", '.') == 0;
    assert "."[1..] == "";
  }

  /** So `normalizar_valor` on a string is `Decimal` of its cleaned text,
      with 0.00 wherever `Decimal` raises. */
  lemma NormalizarValorText(s: string)
    ensures NormalizarValor(Str(s)) == match DecimalOf(ValorText(s)) case Some(x) => Finite(x) case None => Finite(0.0)
  {
    DegenerateRejected();
  }

  /** Every pt-BR spelling of an amount is stored as that amount. */
  lemma {:induction false} NormalizarValorRoundTrip(c: int)
    ensures NormalizarValor(Str(PtbrLiteral(c))) == Finite(CentsAmount(c))
  {
    var a := if c < 0 then -c else c;
    var lit := PtbrLiteral(c);
    var body := PtbrBody(a);
    LiteralShape(c);
    NormalizarValorText(lit);
    BodyText(a);
    var u := PtbrDecimal(body);
    if c < 0 {
      MinusDecimal(body);
      assert lit == "-" + body;
      MinusText(u);
      CentsSign(c);
    } else {
      assert lit == body;
    }
  }

  /** The unsigned part of a pt-BR amount, with its separators rewritten,
      is numeric text starting with a digit that reads as the amount. */
  lemma {:induction false} BodyText(a: nat)
    ensures var u := PtbrDecimal(PtbrBody(a));
      && u != [] && IsAsciiDigit(u[0]) && KeepNumeric(u) == u
      && SignedDecimal(u) == Some(CentsAmount(a))
  {
    var g, p := Grouped(a / 100), Pad2(a % 100);
    GroupedDigits(a / 100);
    var dg := Remove(g, '.');
    PtbrBodyDecimal(g, p);
    DigitsDotParses(dg, p);
    CentsSplit(a, dg, p);
    NumericText(dg, p);
  }

  lemma NumericText(dg: string, p: string)
    requires IsDigits(dg) && IsDigits(p) && dg != []
    ensures var u := dg + "." + p; KeepNumeric(u) == u && IsAsciiDigit(u[0])
  {
    var u := dg + "." + p;
    forall i | 0 <= i < |u| ensures IsNumericChar(u[i]) {
      if i < |dg| { assert u[i] == dg[i]; }
      else if i > |dg| { assert u[i] == p[i - |dg| - 1]; }
    }
  }

  /** A '-' in front of numeric text that starts with a digit negates it. */
  lemma MinusText(u: string)
    requires u != [] && IsAsciiDigit(u[0]) && KeepNumeric(u) == u
    ensures KeepNumeric("-" + u) == "-" + u
    ensures SignedDecimal("-" + u) == match SignedDecimal(u) case Some(x) => Some(-x) case None => None
  {
    var m := "-" + u;
    assert m[1..] == u;
    assert forall i :: 0 <= i < |m| ==> IsNumericChar(m[i]) by {
      forall i | 0 <= i < |m| ensures IsNumericChar(m[i]) {
        if i > 0 { assert m[i] == KeepNumeric(u)[i - 1]; }
      }
    }
    assert SignedDecimal(u) == UnsignedDecimal(u);
  }

  // ======================================================= normalizar_texto

  /** `normalizar_texto`: `str(texto).strip().upper()`. */
  function NormalizarTexto(v: Value, show: Value -> string): (r: string)
    ensures forall c :: c in r ==> !IsAsciiLower(c)
    ensures r != [] ==> !IsSpace(r[0]) && !IsSpace(r[|r| - 1])
  {
    UpperStrip(PyStr(v, show))
  }

  /** Normalizing normalized text changes nothing. */
  lemma NormalizarTextoIdempotent(v: Value, show: Value -> string)
    ensures NormalizarTexto(Str(NormalizarTexto(v, show)), show) == NormalizarTexto(v, show)
  {
    var t := Strip(PyStr(v, show));
    var r := Upper(t);
    assert r == NormalizarTexto(v, show);
    StripStripped(r);
    UpperIdempotent(t);
  }
}
