/**
 * Rendering of values in the result tables: the "MMM yyyy" month label, the
 * hour cast to a string, and rounding to two decimal places.
 */
module Formats {
  import opened Wrappers
  import opened Transactions

  const MONTH_ABBREVIATIONS: seq<string> :=
    ["Jan", "Feb", "Mar", "Apr", "May", "Jun", "Jul", "Aug", "Sep", "Oct", "Nov", "Dec"]

  predicate IsDigit(c: char) {
    '0' <= c <= '9'
  }

  function DigitChar(d: int): (c: char)
    requires 0 <= d <= 9
    ensures IsDigit(c) && DigitValue(c) == d
  {
    ('0' as int + d) as char
  }

  function DigitValue(c: char): int {
    c as int - '0' as int
  }

  /** The year as the pattern `yyyy` prints it: four digits, zero-padded, that read back as the year. */
  function YearText(y: Year): (s: string)
    ensures |s| == 4 && forall i :: 0 <= i < 4 ==> IsDigit(s[i])
    ensures FourDigitValue(s) == y
  {
    [DigitChar(y / 10 / 10 / 10), DigitChar(y / 10 / 10 % 10), DigitChar(y / 10 % 10), DigitChar(y % 10)]
  }

  function FourDigitValue(s: string): int
    requires |s| == 4
  {
    1000 * DigitValue(s[0]) + 100 * DigitValue(s[1]) + 10 * DigitValue(s[2]) + DigitValue(s[3])
  }

  /** The month label of Task 1: `date_format(..., "MMM yyyy")`, e.g. "Jan 2023". */
  function MonthLabel(y: Year, m: Month): (s: string)
    ensures |s| == 8 && s[3] == ' '
    ensures s[..3] == MONTH_ABBREVIATIONS[m - 1] && s[4..] == YearText(y)
  {
    MONTH_ABBREVIATIONS[m - 1] + " " + YearText(y)
  }

  function MonthNumber(abbreviation: string): Option<Month> {
    if abbreviation == "Jan" then Some(1)
    else if abbreviation == "Feb" then Some(2)
    else if abbreviation == "Mar" then Some(3)
    else if abbreviation == "Apr" then Some(4)
    else if abbreviation == "May" then Some(5)
    else if abbreviation == "Jun" then Some(6)
    else if abbreviation == "Jul" then Some(7)
    else if abbreviation == "Aug" then Some(8)
    else if abbreviation == "Sep" then Some(9)
    else if abbreviation == "Oct" then Some(10)
    else if abbreviation == "Nov" then Some(11)
    else if abbreviation == "Dec" then Some(12)
    else None
  }

  /** Reads a month label back; the partner of `MonthLabel`. */
  function ParseMonthLabel(s: string): Option<(Year, Month)> {
    if |s| != 8 || s[3] != ' ' || !(forall i :: 4 <= i < 8 ==> IsDigit(s[i])) then None
    else
      var y := FourDigitValue(s[4..]);
      var m := MonthNumber(s[..3]);
      if 1 <= y <= 9999 && m.Some? then Some((y, m.value)) else None
  }

  lemma MonthNumberOfAbbreviation(m: Month)
    ensures MonthNumber(MONTH_ABBREVIATIONS[m - 1]) == Some(m)
  {
    if m == 1 {} else if m == 2 {} else if m == 3 {} else if m == 4 {}
    else if m == 5 {} else if m == 6 {} else if m == 7 {} else if m == 8 {}
    else if m == 9 {} else if m == 10 {} else if m == 11 {} else {}
  }

  lemma AbbreviationOfMonthNumber(a: string, m: Month)
    requires MonthNumber(a) == Some(m)
    ensures MONTH_ABBREVIATIONS[m - 1] == a
  {
  }

  lemma YearTextOfValue(s: string)
    requires |s| == 4 && forall i :: 0 <= i < 4 ==> IsDigit(s[i])
    requires 1 <= FourDigitValue(s) <= 9999
    ensures YearText(FourDigitValue(s)) == s
  {
    var a, b, c, d := DigitValue(s[0]), DigitValue(s[1]), DigitValue(s[2]), DigitValue(s[3]);
    var y := FourDigitValue(s);
    assert y == 10 * (100 * a + 10 * b + c) + d;
    assert y / 10 == 100 * a + 10 * b + c && y % 10 == d;
    assert y / 10 / 10 == 10 * a + b && y / 10 % 10 == c;
    assert y / 10 / 10 / 10 == a && y / 10 / 10 % 10 == b;
  }

  /** The month label determines year and month: reading it back gives them. */
  lemma MonthLabelRoundTrip(y: Year, m: Month)
    ensures ParseMonthLabel(MonthLabel(y, m)) == Some((y, m))
  {
    var s := MonthLabel(y, m);
    MonthNumberOfAbbreviation(m);
  }

  /** Every string that reads as a month label is the label of what it reads as. */
  lemma ParseMonthLabelInverse(s: string, y: Year, m: Month)
    requires ParseMonthLabel(s) == Some((y, m))
    ensures MonthLabel(y, m) == s
  {
    AbbreviationOfMonthNumber(s[..3], m);
    YearTextOfValue(s[4..]);
    assert s == s[..3] + " " + s[4..];
  }

  lemma MonthLabelExample()
    ensures MonthLabel(2023, 1) == "Jan 2023"
  {
  }

  /** `cast(hour as string)`: the decimal numeral, without padding. */
  function HourText(h: Hour): (s: string)
    ensures 1 <= |s| <= 2
  {
    if h < 10 then [DigitChar(h)] else [DigitChar(h / 10), DigitChar(h % 10)]
  }

  /** Reads an hour numeral back; `None` for anything that is not an hour 0..23. */
  function ParseHour(s: string): Option<Hour> {
    if |s| == 1 && IsDigit(s[0]) then Some(DigitValue(s[0]))
    else if |s| == 2 && IsDigit(s[0]) && IsDigit(s[1]) && s[0] != '0'
            && 10 * DigitValue(s[0]) + DigitValue(s[1]) <= 23
    then Some(10 * DigitValue(s[0]) + DigitValue(s[1]))
    else None
  }

  lemma HourTextRoundTrip(h: Hour)
    ensures ParseHour(HourText(h)) == Some(h)
  {
  }

  lemma ParseHourInverse(s: string, h: Hour)
    requires ParseHour(s) == Some(h)
    ensures HourText(h) == s
  {
  }

  /** Whether a value is a whole number of cents. */
  predicate IsCents(r: real) {
    (r * 100.0).Floor as real == r * 100.0
  }

  lemma CentsIsCents(n: int)
    ensures IsCents(n as real / 100.0) && IsCents(-(n as real / 100.0))
  {
    assert (n as real / 100.0) * 100.0 == n as real;
    assert (-(n as real / 100.0)) * 100.0 == (-n) as real;
  }

  /** Rounding of a non-negative value to the nearest cent, halves upwards. */
  function RoundCentsUp(x: real): (r: real)
    requires x >= 0.0
    ensures -0.005 < r - x <= 0.005 && r >= 0.0
    ensures IsCents(r) && IsCents(-r)
  {
    var n := (x * 100.0 + 0.5).Floor;
    assert n as real <= x * 100.0 + 0.5 < n as real + 1.0;
    CentsIsCents(n);
    n as real / 100.0
  }

  /**
   * `round(x, 2)`: the nearest multiple of 0.01, halves rounded away from
   * zero (Spark's HALF_UP), computed exactly on reals.
   */
  function Round2(x: real): (r: real)
    ensures -0.005 <= r - x <= 0.005
    ensures x >= 0.0 ==> -0.005 < r - x
    ensures x < 0.0 ==> r - x < 0.005
    ensures IsCents(r)
    ensures x >= 0.0 ==> r >= 0.0
    ensures x <= 0.0 ==> r <= 0.0
  {
    if x >= 0.0 then RoundCentsUp(x) else -RoundCentsUp(-x)
  }

  /**
   * HALF_UP leaves no choice: the result is the only whole number of cents
   * within half a cent of `x`, a tie going away from zero.
   */
  lemma Round2IsTheNearestCent(x: real, c: real)
    requires IsCents(c)
    requires x >= 0.0 ==> -0.005 < c - x <= 0.005
    requires x < 0.0 ==> -0.005 <= c - x < 0.005
    ensures Round2(x) == c
  {
    var r := Round2(x);
    var a, b := (r * 100.0).Floor, (c * 100.0).Floor;
    assert a as real == r * 100.0 && b as real == c * 100.0;
    assert -0.01 < r - c < 0.01;
    assert (a - b) as real == (r - c) * 100.0;
    assert a == b;
  }

  /** A value that already is a whole number of cents is left unchanged. */
  lemma Round2OfCents(x: real)
    requires IsCents(x)
    ensures Round2(x) == x
  {
    var n := (x * 100.0).Floor;
    assert x == n as real / 100.0;
    var y := if x < 0.0 then -x else x;
    var k := if x < 0.0 then -n else n;
    assert y * 100.0 + 0.5 == k as real + 0.5;
    var m := (y * 100.0 + 0.5).Floor;
    assert m as real <= k as real + 0.5 < m as real + 1.0;
    assert m == k;
  }

  /** Rounding is idempotent. */
  lemma Round2Idempotent(x: real)
    ensures Round2(Round2(x)) == Round2(x)
  {
    Round2OfCents(Round2(x));
  }

  /** A non-negative value of at least half a cent does not round to zero. */
  lemma Round2Positive(x: real)
    requires x >= 0.005
    ensures Round2(x) >= 0.01
  {
  }
}
