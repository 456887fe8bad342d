/**
 * Trade dates. The provider reports a trade date as an eight-character
 * `YYYYMMDD` string; the panel builder turns it into a calendar date with
 * `pd.to_datetime(..., format="%Y%m%d")`, which raises on anything that is
 * not such a date or that lies outside the range of a pandas Timestamp.
 */
module TradeDates {
  import opened Wrappers

  /** A calendar day (a Timestamp at midnight). */
  datatype Date = Date(year: int, month: int, day: int)

  predicate IsDigit(c: char) {
    '0' <= c <= '9'
  }

  predicate AllDigits(s: string) {
    forall i :: 0 <= i < |s| ==> IsDigit(s[i])
  }

  function DigitValue(c: char): (v: nat)
    requires IsDigit(c)
    ensures v < 10
  {
    (c as int) - ('0' as int)
  }

  function DigitChar(v: nat): (c: char)
    requires v < 10
    ensures IsDigit(c) && DigitValue(c) == v
  {
    (('0' as int) + v) as char
  }

  /** The value of a string of decimal digits, most significant first (Python's `int` on such a string). */
  function DecimalValue(s: string): nat
    requires AllDigits(s)
  {
    if |s| == 0 then 0 else 10 * DecimalValue(s[..|s| - 1]) + DigitValue(s[|s| - 1])
  }

  function Pow10(n: nat): (p: nat)
    ensures p > 0
  {
    if n == 0 then 1 else 10 * Pow10(n - 1)
  }

  /** `n` written with exactly `width` digits, zero-padded on the left (`%04d`, `%02d`). */
  function Padded(n: nat, width: nat): (s: string)
    ensures |s| == width && AllDigits(s)
  {
    if width == 0 then [] else Padded(n / 10, width - 1) + [DigitChar(n % 10)]
  }

  /** `n` in decimal without padding (Python's `str` of a non-negative int). */
  function Decimal(n: nat): (s: string)
    ensures |s| > 0 && AllDigits(s)
  {
    if n < 10 then [DigitChar(n)] else Decimal(n / 10) + [DigitChar(n % 10)]
  }

  lemma {:induction false} DecimalValueBound(s: string)
    requires AllDigits(s)
    ensures DecimalValue(s) < Pow10(|s|)
  {
    if |s| > 0 {
      DecimalValueBound(s[..|s| - 1]);
    }
  }

  /** Reading a digit string and writing the value back at the same width gives the string again. */
  lemma {:induction false} PaddedOfDecimalValue(s: string)
    requires AllDigits(s)
    ensures Padded(DecimalValue(s), |s|) == s
  {
    if |s| > 0 {
      var init, last := s[..|s| - 1], s[|s| - 1];
      var n := DecimalValue(s);
      assert n == 10 * DecimalValue(init) + DigitValue(last);
      assert n / 10 == DecimalValue(init) && n % 10 == DigitValue(last);
      PaddedOfDecimalValue(init);
      assert DigitChar(DigitValue(last)) == last;
      assert s == init + [last];
    }
  }

  /** Writing a value at a width that can hold it and reading it back gives the value again. */
  lemma {:induction false} DecimalValueOfPadded(n: nat, width: nat)
    requires n < Pow10(width)
    ensures DecimalValue(Padded(n, width)) == n
  {
    if width > 0 {
      var p := Padded(n, width);
      assert p[..|p| - 1] == Padded(n / 10, width - 1);
      DecimalValueOfPadded(n / 10, width - 1);
    }
  }

  /** A number with exactly `width` significant digits is written by `str` as its padded form. */
  lemma {:induction false} DecimalIsPadded(n: nat, width: nat)
    requires width > 0 && Pow10(width - 1) <= n < Pow10(width)
    ensures Decimal(n) == Padded(n, width)
  {
    if width > 1 {
      DecimalIsPadded(n / 10, width - 1);
    }
  }

  predicate IsLeapYear(y: int) {
    (y % 4 == 0 && y % 100 != 0) || y % 400 == 0
  }

  function DaysInMonth(y: int, m: int): (n: int)
    requires 1 <= m <= 12
    ensures 28 <= n <= 31
  {
    if m == 2 then (if IsLeapYear(y) then 29 else 28)
    else if m == 4 || m == 6 || m == 9 || m == 11 then 30
    else 31
  }

  predicate IsCalendarDate(d: Date) {
    1 <= d.month <= 12 && 1 <= d.day <= DaysInMonth(d.year, d.month)
  }

  /** Chronological order on days: by year, then month, then day. */
  predicate DateLe(a: Date, b: Date) {
    a.year < b.year || (a.year == b.year && (a.month < b.month || (a.month == b.month && a.day <= b.day)))
  }

  /** The first and last days whose midnight a nanosecond pandas Timestamp can hold. */
  const FIRST_TIMESTAMP_DAY := Date(1677, 9, 22)
  const LAST_TIMESTAMP_DAY := Date(2262, 4, 11)

  predicate InTimestampRange(d: Date) {
    DateLe(FIRST_TIMESTAMP_DAY, d) && DateLe(d, LAST_TIMESTAMP_DAY)
  }

  /** The day a `YYYYMMDD` string denotes, or None where `pd.to_datetime` raises. */
  function ParseTradeDate(s: string): (r: Option<Date>)
    ensures r.Some? ==> |s| == 8 && AllDigits(s) && IsCalendarDate(r.value) && InTimestampRange(r.value)
  {
    if |s| == 8 && AllDigits(s) then
      var d := Date(DecimalValue(s[..4]), DecimalValue(s[4..6]), DecimalValue(s[6..]));
      if IsCalendarDate(d) && InTimestampRange(d) then Some(d) else None
    else
      None
  }

  /** The `YYYYMMDD` string of a day. */
  function FormatTradeDate(d: Date): (s: string)
    requires 0 <= d.year < 10000 && 0 <= d.month < 100 && 0 <= d.day < 100
  {
    Padded(d.year, 4) + Padded(d.month, 2) + Padded(d.day, 2)
  }

  /** A string that parses is exactly the eight-digit form of the day it denotes. */
  lemma ParseThenFormat(s: string)
    requires ParseTradeDate(s).Some?
    ensures var d := ParseTradeDate(s).value;
      d.year == DecimalValue(s[..4]) && d.month == DecimalValue(s[4..6]) && d.day == DecimalValue(s[6..])
      && IsCalendarDate(d) && InTimestampRange(d)
      && 0 <= d.year < 10000 && FormatTradeDate(d) == s
  {
    var d := ParseTradeDate(s).value;
    DecimalValueBound(s[..4]);
    PaddedOfDecimalValue(s[..4]);
    PaddedOfDecimalValue(s[4..6]);
    PaddedOfDecimalValue(s[6..]);
    assert s == s[..4] + s[4..6] + s[6..];
  }

  /** Every day pandas can hold is read back from its eight-digit form. */
  lemma FormatThenParse(d: Date)
    requires IsCalendarDate(d) && InTimestampRange(d)
    ensures 0 <= d.year < 10000 && ParseTradeDate(FormatTradeDate(d)) == Some(d)
  {
    var y, m, dd := Padded(d.year, 4), Padded(d.month, 2), Padded(d.day, 2);
    var s := FormatTradeDate(d);
    assert s[..4] == y && s[4..6] == m && s[6..] == dd;
    assert AllDigits(s) by {
      forall i | 0 <= i < |s| ensures IsDigit(s[i]) {
        if i < 4 { assert s[i] == y[i]; } else if i < 6 { assert s[i] == m[i - 4]; } else { assert s[i] == dd[i - 6]; }
      }
    }
    DecimalValueOfPadded(d.year, 4);
    DecimalValueOfPadded(d.month, 2);
    DecimalValueOfPadded(d.day, 2);
  }

  /** Distinct date strings never parse to the same day, so merging on parsed days matches merging on strings. */
  lemma ParseInjective(s1: string, s2: string)
    requires ParseTradeDate(s1).Some? && ParseTradeDate(s1) == ParseTradeDate(s2)
    ensures s1 == s2
  {
    ParseThenFormat(s1);
    ParseThenFormat(s2);
  }

  lemma DateLeTotal(a: Date, b: Date)
    ensures DateLe(a, b) || DateLe(b, a)
    ensures DateLe(a, b) && DateLe(b, a) ==> a == b
  {
  }

  lemma DateLeTransitive(a: Date, b: Date, c: Date)
    requires DateLe(a, b) && DateLe(b, c)
    ensures DateLe(a, c)
  {
  }
}
