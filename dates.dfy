/** Calendar dates as the `done_at DATE` column stores them, their order, and
    their rendering by PostgreSQL's `TO_CHAR(done_at, 'DD-MM-YYYY')`.
    Dates come from .NET `DateTime` values, whose years run from 1 to 9999. */
module Dates {
  import opened Wrappers

  datatype Date = Date(year: int, month: int, day: int)

  predicate IsLeapYear(y: int)
  {
    y % 4 == 0 && (y % 100 != 0 || y % 400 == 0)
  }

  function DaysInMonth(y: int, m: int): int
    requires 1 <= m <= 12
  {
    if m == 2 then (if IsLeapYear(y) then 29 else 28)
    else if m == 4 || m == 6 || m == 9 || m == 11 then 30
    else 31
  }

  predicate IsValid(d: Date)
  {
    1 <= d.year <= 9999 && 1 <= d.month <= 12 && 1 <= d.day <= DaysInMonth(d.year, d.month)
  }

  /** A date a .NET `DateTime` can denote. */
  type CalendarDate = d: Date | IsValid(d) witness Date(1, 1, 1)

  /** The order of the DATE type: chronological, i.e. lexicographic on
      (year, month, day). */
  predicate Le(a: Date, b: Date)
  {
    a.year < b.year
    || (a.year == b.year && a.month < b.month)
    || (a.year == b.year && a.month == b.month && a.day <= b.day)
  }

  lemma LeIsTotalOrder(a: Date, b: Date, c: Date)
    ensures Le(a, a)
    ensures Le(a, b) && Le(b, a) ==> a == b
    ensures Le(a, b) && Le(b, c) ==> Le(a, c)
    ensures Le(a, b) || Le(b, a)
  {
  }

  function Pow10(n: nat): (r: nat)
    ensures r >= 1
  {
    if n == 0 then 1 else 10 * Pow10(n - 1)
  }

  predicate IsDigit(c: char)
  {
    '0' <= c <= '9'
  }

  function DigitChar(n: int): (c: char)
    requires 0 <= n <= 9
    ensures IsDigit(c) && c as int - '0' as int == n
  {
    ('0' as int + n) as char
  }

  /** `n` written in decimal with exactly `width` digits, zero-padded on the left. */
  function Padded(n: nat, width: nat): (s: string)
    requires n < Pow10(width)
    ensures |s| == width
    ensures forall i :: 0 <= i < |s| ==> IsDigit(s[i])
  {
    if width == 0 then ""
    else Padded(n / 10, width - 1) + [DigitChar(n % 10)]
  }

  /** The value of a decimal digit string. */
  function DigitsValue(s: string): int
  {
    if s == [] then 0 else 10 * DigitsValue(s[..|s| - 1]) + (s[|s| - 1] as int - '0' as int)
  }

  lemma {:induction false} DigitsValuePadded(n: nat, width: nat)
    requires n < Pow10(width)
    ensures DigitsValue(Padded(n, width)) == n
  {
    if width > 0 {
      var s := Padded(n, width);
      assert s[..|s| - 1] == Padded(n / 10, width - 1);
      DigitsValuePadded(n / 10, width - 1);
    }
  }

  /** TO_CHAR(d, 'DD-MM-YYYY'): two-digit day, two-digit month, four-digit
      year, each zero-padded, separated by hyphens. */
  function Format(d: CalendarDate): (s: string)
    ensures |s| == 10 && s[2] == '-' && s[5] == '-'
    ensures forall i :: 0 <= i < 10 && i != 2 && i != 5 ==> IsDigit(s[i])
  {
    Padded(d.day, 2) + "-" + Padded(d.month, 2) + "-" + Padded(d.year, 4)
  }

  /** Reads a `DD-MM-YYYY` string back; None when it is not one. */
  function Parse(s: string): Option<CalendarDate>
  {
    if |s| == 10 && s[2] == '-' && s[5] == '-'
       && (forall i :: 0 <= i < 10 && i != 2 && i != 5 ==> IsDigit(s[i]))
    then
      var d := Date(DigitsValue(s[6..10]), DigitsValue(s[3..5]), DigitsValue(s[0..2]));
      if IsValid(d) then Some(d) else None
    else None
  }

  /** The rendered date determines the date: parsing it gives it back. */
  lemma FormatRoundTrip(d: CalendarDate)
    ensures Parse(Format(d)) == Some(d)
  {
    var s := Format(d);
    assert s[0..2] == Padded(d.day, 2);
    assert s[3..5] == Padded(d.month, 2);
    assert s[6..10] == Padded(d.year, 4);
    DigitsValuePadded(d.day, 2);
    DigitsValuePadded(d.month, 2);
    DigitsValuePadded(d.year, 4);
  }

  /** Distinct dates are rendered differently. */
  lemma FormatInjective(d1: CalendarDate, d2: CalendarDate)
    requires Format(d1) == Format(d2)
    ensures d1 == d2
  {
    FormatRoundTrip(d1);
    FormatRoundTrip(d2);
  }
}
