/** Calendar dates as `datetime.strptime` reads them with the two formats the
    code uses, "%d/%m/%Y" and "%Y-%m-%d", and as `strftime('%Y-%m-%d')`
    writes them.

    The field grammar is strptime's: a day is `3[01]|[12]\d|0[1-9]|[1-9]| [1-9]`,
    a month `1[0-2]|0[1-9]|[1-9]`, a year exactly four digits; the whole
    string must be consumed, and the day must exist in that month (year 1 to
    9999, Gregorian leap years). */
module Dates {
  import opened Base
  import opened PyText
  import opened Numbers

  datatype Date = Date(year: int, month: int, day: int)

  predicate IsLeap(y: int) {
    (y % 4 == 0 && y % 100 != 0) || y % 400 == 0
  }

  function DaysInMonth(y: int, m: int): int
    requires 1 <= m <= 12
  {
    if m == 2 then (if IsLeap(y) then 29 else 28)
    else if m == 4 || m == 6 || m == 9 || m == 11 then 30
    else 31
  }

  /** The dates `datetime.date` can represent. */
  predicate ValidDate(dt: Date) {
    1 <= dt.year <= 9999 && 1 <= dt.month <= 12 && 1 <= dt.day <= DaysInMonth(dt.year, dt.month)
  }

  // ---------------------------------------------------------------- fields

  function DayField(s: string): (r: Option<int>)
    ensures r.Some? ==> 1 <= r.value <= 31
  {
    if |s| == 1 && '1' <= s[0] <= '9' then Some(DigitVal(s[0]))
    else if |s| == 2 && s[0] == ' ' && '1' <= s[1] <= '9' then Some(DigitVal(s[1]))
    else if |s| == 2 && IsDigits(s) && 1 <= DigitsValue(s) <= 31 then Some(DigitsValue(s))
    else None
  }

  function MonthField(s: string): (r: Option<int>)
    ensures r.Some? ==> 1 <= r.value <= 12
  {
    if |s| == 1 && '1' <= s[0] <= '9' then Some(DigitVal(s[0]))
    else if |s| == 2 && IsDigits(s) && 1 <= DigitsValue(s) <= 12 then Some(DigitsValue(s))
    else None
  }

  function YearField(s: string): Option<int> {
    if |s| == 4 && IsDigits(s) then Some(DigitsValue(s)) else None
  }

  /** Assembles the three fields; strptime raises ValueError on an
      impossible date (day 31 of April, year 0, ...). */
  function MakeDate(y: Option<int>, m: Option<int>, d: Option<int>): (r: Option<Date>)
    ensures r.Some? ==> ValidDate(r.value)
  {
    if y.Some? && m.Some? && d.Some? && ValidDate(Date(y.value, m.value, d.value))
    then Some(Date(y.value, m.value, d.value)) else None
  }

  // --------------------------------------------------------------- parsing

  /** `datetime.strptime(s, "%d/%m/%Y")`, None where it raises ValueError. */
  function ParseDmy(s: string): (r: Option<Date>)
    ensures r.Some? ==> ValidDate(r.value)
  {
    var k1 := Find(s, '/');
    if k1 == |s| then None
    else
      var rest := s[k1 + 1..];
      var k2 := Find(rest, '/');
      if k2 == |rest| then None
      else MakeDate(YearField(rest[k2 + 1..]), MonthField(rest[..k2]), DayField(s[..k1]))
  }

  /** `datetime.strptime(s, "%Y-%m-%d")`, None where it raises ValueError. */
  function ParseIso(s: string): (r: Option<Date>)
    ensures r.Some? ==> ValidDate(r.value)
  {
    if |s| < 5 || s[4] != '-' then None
    else
      var rest := s[5..];
      var k := Find(rest, '-');
      if k == |rest| then None
      else MakeDate(YearField(s[..4]), MonthField(rest[..k]), DayField(rest[k + 1..]))
  }

  // ------------------------------------------------------------ formatting

  function Pad4(y: nat): (s: string)
    requires y < 10000
    ensures |s| == 4 && IsDigits(s) && DigitsValue(s) == y
  {
    var hi, lo := Pad2(y / 100), Pad2(y % 100);
    DigitsAppend2(hi, lo);
    hi + lo
  }

  /** Two more digits shift the value two places. */
  lemma DigitsAppend2(a: string, b: string)
    requires IsDigits(a) && IsDigits(b) && |b| == 2
    ensures IsDigits(a + b) && DigitsValue(a + b) == DigitsValue(a) * 100 + DigitsValue(b)
  {
    var s := a + b;
    assert s[..|s| - 1] == a + [b[0]];
    assert (a + [b[0]])[..|a|] == a;
    assert b[..1] == [b[0]] && b[..1][..0] == [];
    assert DigitsValue(b[..1]) == DigitVal(b[0]);
    assert DigitsValue(b) == DigitsValue(b[..1]) * 10 + DigitVal(b[1]);
    assert DigitsValue(a + [b[0]]) == DigitsValue(a) * 10 + DigitVal(b[0]);
  }

  /** `strftime('%Y-%m-%d')` */
  function FormatIso(dt: Date): string
    requires ValidDate(dt)
  {
    Pad4(dt.year) + "-" + Pad2(dt.month) + "-" + Pad2(dt.day)
  }

  /** `strftime('%d/%m/%Y')`, the spelling the Brazilian/Angolan exports use. */
  function FormatDmy(dt: Date): string
    requires ValidDate(dt)
  {
    Pad2(dt.day) + "/" + Pad2(dt.month) + "/" + Pad4(dt.year)
  }

  lemma TwoDigitFields(k: int)
    requires 1 <= k <= 31
    ensures DayField(Pad2(k)) == Some(k)
    ensures k <= 12 ==> MonthField(Pad2(k)) == Some(k)
  {
  }

  lemma IsoRoundTrip(dt: Date)
    requires ValidDate(dt)
    ensures ParseIso(FormatIso(dt)) == Some(dt)
  {
    var s := FormatIso(dt);
    var y, m, d := Pad4(dt.year), Pad2(dt.month), Pad2(dt.day);
    assert s == y + "-" + m + "-" + d;
    assert s[..4] == y;
    var rest := s[5..];
    assert rest == m + "-" + d;
    FindAfterDigits(m, '-', d);
    assert rest[..2] == m && rest[3..] == d;
    TwoDigitFields(dt.month);
    TwoDigitFields(dt.day);
  }

  lemma DmyRoundTrip(dt: Date)
    requires ValidDate(dt)
    ensures ParseDmy(FormatDmy(dt)) == Some(dt)
  {
    var s := FormatDmy(dt);
    var y, m, d := Pad4(dt.year), Pad2(dt.month), Pad2(dt.day);
    assert s == d + "/" + (m + "/" + y);
    FindAfterDigits(d, '/', m + "/" + y);
    var rest := s[3..];
    assert rest == m + "/" + y;
    FindAfterDigits(m, '/', y);
    assert rest[..2] == m && rest[3..] == y && s[..2] == d;
    TwoDigitFields(dt.month);
    TwoDigitFields(dt.day);
  }
}
