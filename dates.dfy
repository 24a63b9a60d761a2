/**
 * Calendar dates in the proleptic Gregorian calendar, read from the `%Y-%m-%d`
 * form the generator uses for publish and modification dates, and written in the
 * date-time form of section 5 of RFC 822 (`%a, %d %b %Y 00:00:00 UTC`) for RSS.
 */
module Dates {
  import opened Wrappers
  import opened Strings

  datatype Date = Date(year: nat, month: nat, day: nat)

  predicate IsLeapYear(y: nat) {
    y % 4 == 0 && (y % 100 != 0 || y % 400 == 0)
  }

  function DaysInMonth(y: nat, m: nat): (r: nat)
    requires 1 <= m <= 12
    ensures 28 <= r <= 31
  {
    if m == 2 then (if IsLeapYear(y) then 29 else 28)
    else if m == 4 || m == 6 || m == 9 || m == 11 then 30
    else 31
  }

  /** A real calendar day: month 13 or the 30th of February are not. */
  predicate IsValidDate(d: Date) {
    1 <= d.month <= 12 && 1 <= d.day <= DaysInMonth(d.year, d.month)
  }

  /** `NaiveDate`'s order: by year, then month, then day. */
  predicate Before(a: Date, b: Date) {
    a.year < b.year
    || (a.year == b.year && a.month < b.month)
    || (a.year == b.year && a.month == b.month && a.day < b.day)
  }

  // ---------------------------------------------------------------------------
  // Reading and writing `YYYY-MM-DD`

  /** The text has the shape `DDDD-DD-DD` with decimal digits `D`. */
  predicate IsIsoShape(s: string) {
    |s| == 10 && s[4] == '-' && s[7] == '-'
    && AllDigits(s[..4]) && AllDigits(s[5..7]) && AllDigits(s[8..])
  }

  /** `NaiveDate::parse_from_str(s, "%Y-%m-%d")` for four-digit years. */
  function ParseIsoDate(s: string): (r: Option<Date>)
    ensures r.Some? ==> IsValidDate(r.value) && r.value.year < 10000
    ensures r.Some? ==> IsIsoShape(s)
  {
    if IsIsoShape(s) then
      var d := Date(DecimalValue(s[..4]), DecimalValue(s[5..7]), DecimalValue(s[8..]));
      DecimalValueBound(s[..4]);
      if IsValidDate(d) then Some(d) else None
    else None
  }

  /** `date.format("%Y-%m-%d")` for four-digit years. */
  function FormatIsoDate(d: Date): string {
    FixedDigits(d.year, 4) + "-" + FixedDigits(d.month, 2) + "-" + FixedDigits(d.day, 2)
  }

  lemma FormatIsoDateParts(d: Date)
    ensures var s := FormatIsoDate(d);
      |s| == 10 && s[..4] == FixedDigits(d.year, 4) && s[4] == '-'
      && s[5..7] == FixedDigits(d.month, 2) && s[7] == '-' && s[8..] == FixedDigits(d.day, 2)
  {
  }

  /** Every valid date with a four-digit year is read back from its written form. */
  lemma ParseFormatRoundTrip(d: Date)
    requires IsValidDate(d) && d.year < 10000
    ensures ParseIsoDate(FormatIsoDate(d)) == Some(d)
  {
    var s := FormatIsoDate(d);
    FormatIsoDateParts(d);
    assert Pow10(4) == 10000 && Pow10(2) == 100;
    ValueOfFixedDigits(d.year, 4);
    ValueOfFixedDigits(d.month, 2);
    ValueOfFixedDigits(d.day, 2);
  }

  /** Only the canonical text of a date parses: reading then writing gives the input back. */
  lemma FormatParseRoundTrip(s: string)
    requires ParseIsoDate(s).Some?
    ensures FormatIsoDate(ParseIsoDate(s).value) == s
  {
    var d := ParseIsoDate(s).value;
    assert d.year == DecimalValue(s[..4]) && d.month == DecimalValue(s[5..7]) && d.day == DecimalValue(s[8..]);
    FixedDigitsOfValue(s[..4]);
    FixedDigitsOfValue(s[5..7]);
    FixedDigitsOfValue(s[8..]);
    IsoPiecesJoin(s, FixedDigits(d.year, 4), FixedDigits(d.month, 2), FixedDigits(d.day, 2));
  }

  /** Ten characters are their four pieces and two dashes. */
  lemma IsoPiecesJoin(s: string, y: string, m: string, d: string)
    requires |s| == 10 && s[4] == '-' && s[7] == '-'
    requires s[..4] == y && s[5..7] == m && s[8..] == d
    ensures y + "-" + m + "-" + d == s
  {
    var t := y + "-" + m + "-" + d;
    assert |t| == 10;
    forall i | 0 <= i < 10
      ensures t[i] == s[i]
    {
      if i < 4 {
        assert t[i] == y[i] == s[..4][i];
      } else if 5 <= i < 7 {
        assert t[i] == m[i - 5] == s[5..7][i - 5];
      } else if 8 <= i {
        assert t[i] == d[i - 8] == s[8..][i - 8];
      }
    }
  }

  // ---------------------------------------------------------------------------
  // Day numbers and weekdays

  /** The number of leap years in `0 .. y - 1`. */
  function LeapYearsBefore(y: nat): int {
    (y + 3) / 4 - (y + 99) / 100 + (y + 399) / 400
  }

  lemma LeapYearsStep(y: nat)
    ensures LeapYearsBefore(y + 1) == LeapYearsBefore(y) + (if IsLeapYear(y) then 1 else 0)
  {
    Step4(y);
    Step100(y);
    Step400(y);
    if y % 100 == 0 {
      Mod100Mod4(y);
    }
    if y % 400 == 0 {
      Mod400Mod100(y);
    }
  }

  lemma Step4(y: nat)
    ensures (y + 4) / 4 == (y + 3) / 4 + (if y % 4 == 0 then 1 else 0)
  {
  }

  lemma Step100(y: nat)
    ensures (y + 100) / 100 == (y + 99) / 100 + (if y % 100 == 0 then 1 else 0)
  {
  }

  lemma Step400(y: nat)
    ensures (y + 400) / 400 == (y + 399) / 400 + (if y % 400 == 0 then 1 else 0)
  {
  }

  lemma Mod100Mod4(y: nat)
    requires y % 100 == 0
    ensures y % 4 == 0
  {
    var q := y / 100;
    assert y == 100 * q;
    assert y == 4 * (25 * q);
  }

  lemma Mod400Mod100(y: nat)
    requires y % 400 == 0
    ensures y % 100 == 0
  {
    assert y == 100 * (4 * (y / 400));
  }

  function DaysInYear(y: nat): nat {
    if IsLeapYear(y) then 366 else 365
  }

  /** Days from 0000-01-01 to the first day of year `y`. */
  function DaysBeforeYear(y: nat): int {
    365 * y + LeapYearsBefore(y)
  }

  /** Days from the first of January to the first day of month `m` of year `y`. */
  function DaysBeforeMonth(y: nat, m: nat): nat
    requires 1 <= m <= 12
  {
    [0, 31, 59, 90, 120, 151, 181, 212, 243, 273, 304, 334][m - 1]
    + (if m > 2 && IsLeapYear(y) then 1 else 0)
  }

  /** Days from 0000-01-01 (a Saturday) to `d`. */
  function DayNumber(d: Date): int
    requires IsValidDate(d)
  {
    DaysBeforeYear(d.year) + DaysBeforeMonth(d.year, d.month) + d.day - 1
  }

  /** The day of the week, 0 for Monday through 6 for Sunday. */
  function Weekday(d: Date): (w: nat)
    requires IsValidDate(d)
    ensures w < 7
  {
    (DayNumber(d) + 5) % 7
  }

  /** The calendar day after `d`. */
  function NextDay(d: Date): (r: Date)
    requires IsValidDate(d)
    ensures IsValidDate(r)
  {
    if d.day < DaysInMonth(d.year, d.month) then Date(d.year, d.month, d.day + 1)
    else if d.month < 12 then Date(d.year, d.month + 1, 1)
    else Date(d.year + 1, 1, 1)
  }

  /** The day number counts calendar days: the next day is one more. */
  lemma NextDayNumber(d: Date)
    requires IsValidDate(d)
    ensures DayNumber(NextDay(d)) == DayNumber(d) + 1
  {
    if d.day == DaysInMonth(d.year, d.month) && d.month == 12 {
      LeapYearsStep(d.year);
    }
  }

  /** Consecutive days fall on consecutive weekdays. */
  lemma ConsecutiveWeekdays(d: Date)
    requires IsValidDate(d)
    ensures Weekday(NextDay(d)) == (Weekday(d) + 1) % 7
  {
    var e := NextDay(d);
    NextDayNumber(d);
    var x := DayNumber(d) + 5;
    assert DayNumber(e) + 5 == x + 1;
    ModSevenStep(x);
  }

  lemma ModSevenStep(x: int)
    ensures (x + 1) % 7 == (x % 7 + 1) % 7
  {
  }

  // ---------------------------------------------------------------------------
  // RFC 822 date-time

  function WeekdayName(w: nat): string
    requires w < 7
  {
    ["Mon", "Tue", "Wed", "Thu", "Fri", "Sat", "Sun"][w]
  }

  function MonthName(m: nat): string
    requires 1 <= m <= 12
  {
    ["Jan", "Feb", "Mar", "Apr", "May", "Jun", "Jul", "Aug", "Sep", "Oct", "Nov", "Dec"][m - 1]
  }

  /** `date.format("%a, %d %b %Y 00:00:00 UTC")` for four-digit years. */
  function Rfc822(d: Date): string
    requires IsValidDate(d)
  {
    WeekdayName(Weekday(d)) + ", " + FixedDigits(d.day, 2) + " " + MonthName(d.month) + " "
    + FixedDigits(d.year, 4) + " 00:00:00 UTC"
  }
}
