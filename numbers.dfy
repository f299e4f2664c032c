/** Decimal number literals as Python's `float()` and `decimal.Decimal()`
    read them, and pandas' / Python's `round(x, 2)`.

    Amounts are exact `real`s: a literal denotes the decimal number it
    spells, and rounding to two places is round-half-to-even on that number. */
module Numbers {
  import opened Base
  import opened PyText

  // ----------------------------------------------------------------- digits

  predicate IsDigits(s: string) {
    forall i :: 0 <= i < |s| ==> IsAsciiDigit(s[i])
  }

  function DigitVal(c: char): nat
    requires IsAsciiDigit(c)
  {
    c as int - '0' as int
  }

  /** The natural number a string of ASCII digits spells (0 for ""). */
  function DigitsValue(s: string): nat
    requires IsDigits(s)
  {
    if s == [] then 0 else DigitsValue(s[..|s| - 1]) * 10 + DigitVal(s[|s| - 1])
  }

  function Pow10(n: nat): (p: nat)
    ensures p >= 1
  {
    if n == 0 then 1 else 10 * Pow10(n - 1)
  }

  function DigitChar(d: nat): (c: char)
    requires d < 10
    ensures IsAsciiDigit(c) && DigitVal(c) == d
  {
    ('0' as int + d) as char
  }

  /** The shortest decimal spelling of `n`. */
  function NatToDigits(n: nat): (s: string)
    ensures s != [] && IsDigits(s) && DigitsValue(s) == n
    ensures '.' !in s && ',' !in s && ' ' !in s && '-' !in s
  {
    if n < 10 then [DigitChar(n)]
    else
      var s := NatToDigits(n / 10) + [DigitChar(n % 10)];
      assert s[..|s| - 1] == NatToDigits(n / 10);
      s
  }

  /** Two digits, zero-padded: the cents of an amount. */
  function Pad2(k: nat): (s: string)
    requires k < 100
    ensures |s| == 2 && IsDigits(s) && DigitsValue(s) == k
  {
    var s := [DigitChar(k / 10), DigitChar(k % 10)];
    assert s[..1] == [DigitChar(k / 10)];
    assert s[..1][..0] == [];
    assert DigitsValue(s[..1]) == k / 10;
    s
  }

  // --------------------------------------------------------------- literals

  /** Index of the first `c` in `s`, or `|s|` when there is none. */
  function Find(s: string, c: char): (k: nat)
    ensures k <= |s| && c !in s[..k]
    ensures k < |s| ==> s[k] == c
  {
    if s == [] then 0 else if s[0] == c then 0 else 1 + Find(s[1..], c)
  }

  /** `digits [ "." digits ]` with at least one digit in all (so "5", "5.",
      ".5" and "5.25" are literals, "." and "5.2.1" are not). */
  function UnsignedDecimal(b: string): Option<real> {
    var k := Find(b, '.');
    var ip := b[..k];
    var fp := if k < |b| then b[k + 1..] else "";
    if IsDigits(ip) && IsDigits(fp) && |ip| + |fp| > 0
    then Some(DecimalValue(ip, fp))
    else None
  }

  /** The value of "<ip>.<fp>". */
  function DecimalValue(ip: string, fp: string): real
    requires IsDigits(ip) && IsDigits(fp)
  {
    DigitsValue(ip) as real + FracValue(fp)
  }

  /** The value of the fraction ".fs". */
  function FracValue(fs: string): real
    requires IsDigits(fs)
  {
    if fs == [] then 0.0 else (DigitVal(fs[0]) as real + FracValue(fs[1..])) / 10.0
  }

  /** Two fraction digits are that many hundredths. */
  lemma FracCents(fs: string)
    requires IsDigits(fs) && |fs| == 2
    ensures FracValue(fs) == DigitsValue(fs) as real / 100.0
  {
    var d0, d1 := DigitVal(fs[0]), DigitVal(fs[1]);
    assert fs[1..][1..] == [];
    assert FracValue(fs[1..]) == d1 as real / 10.0;
    assert fs[..1][..0] == [];
    assert DigitsValue(fs[..1]) == d0;
    assert DigitsValue(fs) == d0 * 10 + d1;
    assert FracValue(fs) == (d0 as real + d1 as real / 10.0) / 10.0;
  }

  /** "<digits>.<digits>" reads as integer part plus fraction. */
  lemma {:induction false} DigitsDotParses(ds: string, fs: string)
    requires IsDigits(ds) && IsDigits(fs) && ds != []
    ensures UnsignedDecimal(ds + "." + fs) == Some(DecimalValue(ds, fs))
  {
    var b := ds + ['.'] + fs;
    assert ds + "." + fs == b;
    FindAfterDigits(ds, '.', fs);
    var k := Find(b, '.');
    assert k == |ds| && k < |b|;
    assert b[..k] == ds;
    assert b[k + 1..] == fs;
  }

  /** A plain digit string reads as the integer it spells. */
  lemma IntegerParses(ds: string)
    requires IsDigits(ds) && ds != []
    ensures UnsignedDecimal(ds) == Some(DigitsValue(ds) as real)
  {
    assert '.' !in ds by {
      forall i | 0 <= i < |ds| ensures ds[i] != '.' { assert IsAsciiDigit(ds[i]); }
    }
    assert Find(ds, '.') == |ds|;
    assert ds[..|ds|] == ds;
  }

  /** An optional '+' or '-' followed by an unsigned decimal. */
  function SignedDecimal(s: string): Option<real> {
    if s != [] && (s[0] == '+' || s[0] == '-') then
      match UnsignedDecimal(s[1..])
      case None => None
      case Some(v) => Some(if s[0] == '-' then -v else v)
    else UnsignedDecimal(s)
  }

  /** `float(s)` on a string: surrounding white space is ignored. */
  function FloatLiteral(s: string): Option<real> {
    SignedDecimal(Strip(s))
  }

  // ------------------------------------------------------- cents and rounding

  /** `x` has at most two decimal places. */
  predicate IsCents(x: real) {
    (x * 100.0).Floor as real == x * 100.0
  }

  /** `round(x, 2)`: nearest multiple of 0.01, ties to the even multiple. */
  function Round2(x: real): (r: real)
    ensures IsCents(r)
    ensures -0.005 <= r - x <= 0.005
  {
    var y := x * 100.0;
    var f := y.Floor;
    var d := y - f as real;
    var n := if d < 0.5 then f else if d > 0.5 then f + 1 else if f % 2 == 0 then f else f + 1;
    assert (n as real / 100.0) * 100.0 == n as real;
    n as real / 100.0
  }

  lemma CentsValue(n: int)
    ensures IsCents(n as real / 100.0)
    ensures Round2(n as real / 100.0) == n as real / 100.0
  {
    var x := n as real / 100.0;
    assert x * 100.0 == n as real;
  }

  /** Rounding commutes with negation (half-to-even is symmetric). */
  lemma Round2Neg(x: real)
    ensures Round2(-x) == -Round2(x)
  {
    var y := x * 100.0;
    var f := y.Floor;
    var d := y - f as real;
    assert (-x) * 100.0 == -y;
    if d == 0.0 {
      assert (-y).Floor == -f;
    } else {
      assert (-y).Floor == -f - 1;
      assert -y - (-f - 1) as real == 1.0 - d;
      if d == 0.5 {
        assert (f % 2 == 0) <==> ((-f - 1) % 2 != 0);
      }
    }
  }

  /** The amount that `c` cents make. */
  function CentsAmount(c: int): real {
    c as real / 100.0
  }

  /** The literal "<units>.<cc>" of a non-negative amount in cents. */
  function CentsLiteral(c: nat): string {
    NatToDigits(c / 100) + "." + Pad2(c % 100)
  }

  lemma {:induction false} CentsLiteralParses(c: nat)
    ensures UnsignedDecimal(CentsLiteral(c)) == Some(c as real / 100.0)
  {
    var ds := NatToDigits(c / 100);
    var p := Pad2(c % 100);
    DigitsDotParses(ds, p);
    FracCents(p);
    assert (c / 100) as real + (c % 100) as real / 100.0 == c as real / 100.0;
  }

  /** In "<digits><c><tail>" the first separator `c` sits right after the digits. */
  lemma FindAfterDigits(ds: string, c: char, tail: string)
    requires IsDigits(ds) && !IsAsciiDigit(c)
    ensures Find(ds + [c] + tail, c) == |ds|
  {
    if ds != [] {
      assert (ds + [c] + tail)[1..] == ds[1..] + [c] + tail;
      FindAfterDigits(ds[1..], c, tail);
    }
  }
}
