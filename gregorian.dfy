/**
  Proleptic Gregorian calendar arithmetic: the part of JavaScript's `Date`
  that the grid relies on. Months are zero-based (0 = January) as in `Date`;
  weekdays run 0 = Sunday .. 6 = Saturday as `getDay` returns them.
  Day numbers count days from 0000-01-01, which was a Saturday.
 */
module Gregorian {

  /** Divisible by 4, and not by 100 unless also by 400. */
  predicate IsLeapYear(year: int)
  {
    year % 4 == 0 && (year % 100 != 0 || year % 400 == 0)
  }

  function DaysInYear(year: int): (n: int)
    ensures n == 365 || n == 366
    ensures n == 366 <==> IsLeapYear(year)
  {
    if IsLeapYear(year) then 366 else 365
  }

  /** Length of month `month` (0..11) of `year`. */
  function DaysInMonth(year: int, month: int): (n: int)
    requires 0 <= month < 12
    ensures 28 <= n <= 31
    ensures n == 29 <==> month == 1 && IsLeapYear(year)
    ensures n == 28 <==> month == 1 && !IsLeapYear(year)
  {
    if month == 1 then (if IsLeapYear(year) then 29 else 28)
    else if month == 3 || month == 5 || month == 8 || month == 10 then 30
    else 31
  }

  /** Days in the months of `year` before month `month`. */
  function DaysBeforeMonth(year: int, month: int): int
    requires 0 <= month <= 12
  {
    if month == 0 then 0 else DaysBeforeMonth(year, month - 1) + DaysInMonth(year, month - 1)
  }

  /** The twelve months add up to the year. */
  lemma DaysBeforeMonthIsYear(year: int)
    ensures DaysBeforeMonth(year, 12) == DaysInYear(year)
  {
    assert DaysBeforeMonth(year, 1) == 31;
    assert DaysBeforeMonth(year, 2) == 31 + DaysInMonth(year, 1);
    assert DaysBeforeMonth(year, 3) == 62 + DaysInMonth(year, 1);
    assert DaysBeforeMonth(year, 4) == 92 + DaysInMonth(year, 1);
    assert DaysBeforeMonth(year, 5) == 123 + DaysInMonth(year, 1);
    assert DaysBeforeMonth(year, 6) == 153 + DaysInMonth(year, 1);
    assert DaysBeforeMonth(year, 7) == 184 + DaysInMonth(year, 1);
    assert DaysBeforeMonth(year, 8) == 215 + DaysInMonth(year, 1);
    assert DaysBeforeMonth(year, 9) == 245 + DaysInMonth(year, 1);
    assert DaysBeforeMonth(year, 10) == 276 + DaysInMonth(year, 1);
    assert DaysBeforeMonth(year, 11) == 306 + DaysInMonth(year, 1);
  }

  /**
    Days from 0000-01-01 to the first of January of `year` (negative before
    year 0): 365 per year plus one per leap year in between. Dafny's `/` is
    floor division for a positive divisor, so the counts are right for
    negative years too.
   */
  function DaysBeforeYear(year: int): int
  {
    365 * year + (year + 3) / 4 - (year + 99) / 100 + (year + 399) / 400
  }

  /** The closed form is the running sum of year lengths from year 0. */
  lemma DaysBeforeYearStep(year: int)
    ensures DaysBeforeYear(0) == 0
    ensures DaysBeforeYear(year + 1) == DaysBeforeYear(year) + DaysInYear(year)
  {
    CeilingStep(year, 4);
    CeilingStep(year, 100);
    CeilingStep(year, 400);
    DivisorsNest(year);
  }

  /** A multiple of 400 is a multiple of 100, and a multiple of 100 is a multiple of 4. */
  lemma DivisorsNest(year: int)
    ensures year % 400 == 0 ==> year % 100 == 0
    ensures year % 100 == 0 ==> year % 4 == 0
  {
    if year % 400 == 0 {
      var q := year / 400;
      assert year == 400 * q;
      assert year == 100 * (4 * q) + 0;
    }
    if year % 100 == 0 {
      var q := year / 100;
      assert year == 100 * q;
      assert year == 4 * (25 * q) + 0;
    }
  }

  /** The count of multiples of k below a bound grows by one exactly when the bound passes a multiple. */
  lemma CeilingStep(year: int, k: int)
    requires k == 4 || k == 100 || k == 400
    ensures (year + k) / k == (year + k - 1) / k + (if year % k == 0 then 1 else 0)
  {
  }

  /** Day number of (year, month, day), counted from 0000-01-01. */
  function DayNumber(year: int, month: int, day: int): int
    requires 0 <= month < 12
  {
    DaysBeforeYear(year) + DaysBeforeMonth(year, month) + (day - 1)
  }

  /** Day of the week, 0 = Sunday; 0000-01-01 is a Saturday (6). */
  function Weekday(year: int, month: int, day: int): (w: int)
    requires 0 <= month < 12
    ensures 0 <= w < 7
  {
    (DayNumber(year, month, day) + 6) % 7
  }

  /**
    The day after the last day of a month is the first of the next month
    (January of the next year after December): so the number of days in a
    month is the distance between two consecutive firsts, which is how
    `new Date(year, month + 1, 0).getDate()` obtains it.
   */
  lemma MonthLengthIsDistance(year: int, month: int)
    requires 0 <= month < 12
    ensures month < 11 ==>
      DayNumber(year, month + 1, 1) == DayNumber(year, month, DaysInMonth(year, month)) + 1
    ensures month == 11 ==>
      DayNumber(year + 1, 0, 1) == DayNumber(year, month, DaysInMonth(year, month)) + 1
  {
    if month == 11 {
      DaysBeforeMonthIsYear(year);
      DaysBeforeYearStep(year);
      assert DaysBeforeMonth(year, 12) == DaysBeforeMonth(year, 11) + 31;
    }
  }

  /** Weekdays advance by one from each month's last day to the next month's first. */
  lemma WeekdayAcrossMonths(year: int, month: int)
    requires 0 <= month < 12
    ensures month < 11 ==>
      Weekday(year, month + 1, 1) == (Weekday(year, month, 1) + DaysInMonth(year, month)) % 7
    ensures month == 11 ==>
      Weekday(year + 1, 0, 1) == (Weekday(year, month, 1) + DaysInMonth(year, month)) % 7
  {
    MonthLengthIsDistance(year, month);
    var first := DayNumber(year, month, 1) + 6;
    ModShift(first, DaysInMonth(year, month));
  }

  lemma ModShift(x: int, n: int)
    ensures (x + n) % 7 == (x % 7 + n) % 7
  {
    var q := x / 7;
    assert x == 7 * q + x % 7;
    assert x + n == 7 * q + (x % 7 + n);
  }

  /** Anchors against the real calendar: 1970-01-01 was a Thursday, 2025-11-01 a Saturday. */
  lemma KnownWeekdays()
    ensures Weekday(1970, 0, 1) == 4
    ensures Weekday(2025, 10, 1) == 6
    ensures Weekday(2000, 1, 29) == 2
  {
    assert DaysBeforeYear(1970) == 719528;
    assert DaysBeforeYear(2025) == 739617;
    assert DaysBeforeYear(2000) == 730485;
    assert DaysBeforeMonth(2025, 10) == 304;
    assert DaysBeforeMonth(2000, 1) == 31;
  }
}
