/** The `time.Parse("2006-01-02", v)` call of the filter compiler and the
    full-day millisecond range it turns a date into. */
module Dates {
  import opened Wrappers
  import Numbers

  datatype Date = Date(year: nat, month: nat, day: nat)

  predicate IsLeap(y: nat) {
    y % 4 == 0 && (y % 100 != 0 || y % 400 == 0)
  }

  function DaysIn(month: nat, year: nat): nat
    requires 1 <= month <= 12
  {
    if month == 2 then (if IsLeap(year) then 29 else 28)
    else if month == 4 || month == 6 || month == 9 || month == 11 then 30
    else 31
  }

  /** The dates `time.Parse` accepts for this layout: a four-digit year, a
      month in 1..12 and a day that exists in that month. */
  predicate Valid(d: Date) {
    d.year <= 9999 && 1 <= d.month <= 12 && 1 <= d.day <= DaysIn(d.month, d.year)
  }

  function Digit(c: char): nat
    requires Numbers.IsDigit(c)
  {
    c as int - '0' as int
  }

  /** `time.Parse("2006-01-02", s)` in UTC: exactly `YYYY-MM-DD` with digits
      in every numeric position, then range checks on month and day. */
  function ParseDate(s: string): (r: Option<Date>)
    ensures r.Some? ==> Valid(r.value)
  {
    if |s| != 10 || s[4] != '-' || s[7] != '-' then None
    else if !(Numbers.IsDigit(s[0]) && Numbers.IsDigit(s[1]) && Numbers.IsDigit(s[2]) && Numbers.IsDigit(s[3])
              && Numbers.IsDigit(s[5]) && Numbers.IsDigit(s[6]) && Numbers.IsDigit(s[8]) && Numbers.IsDigit(s[9])) then None
    else
      var y := Digit(s[0]) * 1000 + Digit(s[1]) * 100 + Digit(s[2]) * 10 + Digit(s[3]);
      var m := Digit(s[5]) * 10 + Digit(s[6]);
      var d := Digit(s[8]) * 10 + Digit(s[9]);
      if 1 <= m <= 12 && 1 <= d <= DaysIn(m, y) then Some(Date(y, m, d)) else None
  }

  function DigitChar(n: nat): char
    requires n < 10
  {
    ('0' as int + n) as char
  }

  /** The canonical `YYYY-MM-DD` text of a date. */
  function FormatDate(d: Date): string
    requires Valid(d)
  {
    var r0 := d.year % 1000;
    var r1 := r0 % 100;
    [DigitChar(d.year / 1000), DigitChar(r0 / 100), DigitChar(r1 / 10), DigitChar(r1 % 10),
     '-', DigitChar(d.month / 10), DigitChar(d.month % 10),
     '-', DigitChar(d.day / 10), DigitChar(d.day % 10)]
  }

  lemma Decimal4(y: nat)
    requires y <= 9999
    ensures y == (y / 1000) * 1000 + ((y % 1000) / 100) * 100 + ((y % 1000 % 100) / 10) * 10 + (y % 1000 % 100 % 10)
  {
  }

  lemma Undecimal4(a: nat, b: nat, c: nat, e: nat)
    requires a < 10 && b < 10 && c < 10 && e < 10
    ensures var y := a * 1000 + b * 100 + c * 10 + e;
      y / 1000 == a && (y % 1000) / 100 == b && (y % 1000 % 100) / 10 == c && y % 1000 % 100 % 10 == e
  {
    var y := a * 1000 + b * 100 + c * 10 + e;
    assert y % 1000 == b * 100 + c * 10 + e;
    assert (b * 100 + c * 10 + e) % 100 == c * 10 + e;
  }

  /** Every valid date is accepted in its canonical form. */
  lemma ParseFormatDate(d: Date)
    requires Valid(d)
    ensures ParseDate(FormatDate(d)) == Some(d)
  {
    Decimal4(d.year);
    var s := FormatDate(d);
    assert Digit(s[0]) == d.year / 1000;
    assert Digit(s[1]) == (d.year % 1000) / 100;
    assert Digit(s[2]) == (d.year % 1000 % 100) / 10;
    assert Digit(s[3]) == d.year % 1000 % 100 % 10;
    assert Digit(s[5]) * 10 + Digit(s[6]) == d.month;
    assert Digit(s[8]) * 10 + Digit(s[9]) == d.day;
  }

  /** Only the canonical form is accepted: no padding, signs or extra text. */
  lemma FormatParseDate(s: string)
    requires ParseDate(s).Some?
    ensures FormatDate(ParseDate(s).value) == s
  {
    var d := ParseDate(s).value;
    Undecimal4(Digit(s[0]), Digit(s[1]), Digit(s[2]), Digit(s[3]));
    var f := FormatDate(d);
    assert f[0] == s[0] && f[1] == s[1] && f[2] == s[2] && f[3] == s[3];
    assert f[5] == s[5] && f[6] == s[6] && f[8] == s[8] && f[9] == s[9];
    assert f == s;
  }

  /** Days from 0000-01-01 to January 1st of year `y` (proleptic Gregorian). */
  function DaysBeforeYear(y: nat): nat {
    365 * y + (y + 3) / 4 - (y + 99) / 100 + (y + 399) / 400
  }

  function DaysBeforeMonth(month: nat, year: nat): nat
    requires 1 <= month <= 12
    decreases month
  {
    if month == 1 then 0 else DaysBeforeMonth(month - 1, year) + DaysIn(month - 1, year)
  }

  const EpochDays: nat := 719528
  const MillisPerDay: nat := 86_400_000

  /** Days since 1970-01-01 of a valid date. */
  function DayNumber(d: Date): int
    requires Valid(d)
  {
    DaysBeforeYear(d.year) + DaysBeforeMonth(d.month, d.year) + d.day - 1 - EpochDays
  }

  /** `primitive.NewDateTimeFromTime` of 00:00:00.000000000 on that day. */
  function DayStartMillis(d: Date): int
    requires Valid(d)
  {
    DayNumber(d) * MillisPerDay
  }

  /** `primitive.NewDateTimeFromTime` of 23:59:59.999999999 on that day: the
      nanoseconds are truncated to 999 milliseconds. */
  function DayEndMillis(d: Date): int
    requires Valid(d)
  {
    DayNumber(d) * MillisPerDay + 86_399_999
  }

  /** The stored range `[$gte start, $lte end]` holds a millisecond instant
      exactly when the instant falls on that calendar day (UTC). */
  lemma DayRangeCoversDay(d: Date, t: int)
    requires Valid(d)
    ensures DayStartMillis(d) <= t <= DayEndMillis(d) <==> t / MillisPerDay == DayNumber(d)
  {
    var n := DayNumber(d);
    if DayStartMillis(d) <= t <= DayEndMillis(d) {
      assert n * MillisPerDay <= t < (n + 1) * MillisPerDay;
    } else {
      var q := t / MillisPerDay;
      assert q * MillisPerDay <= t < (q + 1) * MillisPerDay;
      if q == n {
        assert false;
      }
    }
  }

  lemma UnixEpochIsDayZero()
    ensures DayNumber(Date(1970, 1, 1)) == 0
  {
  }

  /** The calendar day "2024-03-05" covers the milliseconds
      1709596800000 to 1709683199999 inclusive. */
  lemma March5th2024()
    ensures ParseDate("2024-03-05") == Some(Date(2024, 3, 5))
    ensures DayStartMillis(Date(2024, 3, 5)) == 1709596800000
    ensures DayEndMillis(Date(2024, 3, 5)) == 1709683199999
  {
    assert DaysBeforeMonth(3, 2024) == 60;
  }
}
