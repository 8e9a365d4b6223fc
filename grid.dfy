/**
  The month grid: `getDaysInMonth`, `getFirstDayOfWeek` and the loop that
  lays out 42 cells (six weeks of seven days) as leading blanks, the days
  1..N of the month, then trailing blanks.
 */
module Grid {
  import opened Gregorian

  /** A grid cell: a blank (`null` in the source) or a day of the month. */
  datatype Cell = Empty | Day(n: nat)

  const GridSize: nat := 42

  /**
    The calendar year that `new Date(year, ...)` really uses: the `Date`
    constructor reads a year 0..99 as 1900..1999.
   */
  function DateYear(year: int): (y: int)
    ensures !(0 <= y <= 99)
    ensures 0 <= year <= 99 ==> 1900 <= y <= 1999
    ensures y % 100 == year % 100
    ensures y == year <==> !(0 <= year <= 99)
  {
    if 0 <= year <= 99 then 1900 + year else year
  }

  /** `new Date(year, monthIndex + 1, 0).getDate()`: the last day of the month. */
  function GetDaysInMonth(year: int, monthIndex: int): (n: int)
    requires 0 <= monthIndex < 12
    ensures 28 <= n <= 31
    ensures n == 29 <==> monthIndex == 1 && IsLeapYear(DateYear(year))
  {
    DaysInMonth(DateYear(year), monthIndex)
  }

  /** `new Date(year, monthIndex, 1).getDay()`: weekday of the first, 0 = Sunday. */
  function GetFirstDayOfWeek(year: int, monthIndex: int): (w: int)
    requires 0 <= monthIndex < 12
    ensures 0 <= w <= 6
  {
    Weekday(DateYear(year), monthIndex, 1)
  }

  /** For every year outside 0..99, February has 29 days exactly in Gregorian leap years. */
  lemma FebruaryLeapRule(year: int)
    requires year < 0 || 99 < year
    ensures GetDaysInMonth(year, 1) == 29 <==> IsLeapYear(year)
    ensures GetDaysInMonth(year, 1) == 28 <==> !IsLeapYear(year)
  {
  }

  /**
    The two-digit-year mapping is visible in the grid: year 0 is a
    Gregorian leap year, yet its February is laid out as that of 1900.
   */
  lemma TwoDigitYearLayout()
    ensures IsLeapYear(0) && DaysInMonth(0, 1) == 29
    ensures GetDaysInMonth(0, 1) == 28
    ensures GetFirstDayOfWeek(25, 10) == Weekday(1925, 10, 1)
  {
  }

  /** What the cell at position `k` holds for a month starting on `firstDay` with `days` days. */
  function CellAt(firstDay: int, days: int, k: int): Cell
  {
    if firstDay <= k < firstDay + days then Day(k - firstDay + 1) else Empty
  }

  /** The 42 cells the source renders for (year, monthIndex). */
  function GridCells(year: int, monthIndex: int): (cells: seq<Cell>)
    requires 0 <= monthIndex < 12
    ensures |cells| == GridSize
  {
    var firstDay, days := GetFirstDayOfWeek(year, monthIndex), GetDaysInMonth(year, monthIndex);
    seq(GridSize, k => CellAt(firstDay, days, k))
  }

  /**
    The cell loop: push `firstDay` blanks, then the days 1..N, then blanks
    while fewer than 42 cells are present.
   */
  method BuildCells(year: int, monthIndex: int) returns (cells: seq<Cell>)
    requires 0 <= monthIndex < 12
    ensures |cells| == GridSize
    ensures forall k :: 0 <= k < GetFirstDayOfWeek(year, monthIndex) ==> cells[k] == Empty
    ensures forall d :: 1 <= d <= GetDaysInMonth(year, monthIndex) ==>
      cells[GetFirstDayOfWeek(year, monthIndex) + d - 1] == Day(d)
    ensures forall k :: GetFirstDayOfWeek(year, monthIndex) + GetDaysInMonth(year, monthIndex) <= k < GridSize ==>
      cells[k] == Empty
    ensures cells == GridCells(year, monthIndex)
  {
    var daysInMonth := GetDaysInMonth(year, monthIndex);
    var firstDay := GetFirstDayOfWeek(year, monthIndex);
    cells := [];
    var i := 0;
    while i < firstDay
      invariant 0 <= i <= firstDay
      invariant |cells| == i
      invariant forall k :: 0 <= k < i ==> cells[k] == Empty
    {
      cells := cells + [Empty];
      i := i + 1;
    }
    var d := 1;
    while d <= daysInMonth
      invariant 1 <= d <= daysInMonth + 1
      invariant |cells| == firstDay + d - 1
      invariant forall k :: 0 <= k < |cells| ==> cells[k] == CellAt(firstDay, daysInMonth, k)
    {
      cells := cells + [Day(d)];
      d := d + 1;
    }
    while |cells| < GridSize
      invariant firstDay + daysInMonth <= |cells| <= GridSize
      invariant forall k :: 0 <= k < |cells| ==> cells[k] == CellAt(firstDay, daysInMonth, k)
    {
      cells := cells + [Empty];
    }
  }

  /** Number of cells that hold a day. */
  function CountDays(cells: seq<Cell>): nat
  {
    if cells == [] then 0 else CountDays(cells[..|cells| - 1]) + (if cells[|cells| - 1].Day? then 1 else 0)
  }

  lemma {:induction false} CountDaysPrefix(firstDay: int, days: int, k: nat)
    requires 0 <= firstDay && 0 <= days
    ensures CountDays(seq(k, j => CellAt(firstDay, days, j)))
         == if k <= firstDay then 0 else if k <= firstDay + days then k - firstDay else days
  {
    var s := seq(k, j => CellAt(firstDay, days, j));
    if k > 0 {
      CountDaysPrefix(firstDay, days, k - 1);
      assert s[..k - 1] == seq(k - 1, j => CellAt(firstDay, days, j));
    }
  }

  /** The grid holds as many day cells as the month has days. */
  lemma GridDayCount(year: int, monthIndex: int)
    requires 0 <= monthIndex < 12
    ensures CountDays(GridCells(year, monthIndex)) == GetDaysInMonth(year, monthIndex)
  {
    CountDaysPrefix(GetFirstDayOfWeek(year, monthIndex), GetDaysInMonth(year, monthIndex), GridSize);
  }

  /**
    Every day of the month appears in exactly one cell, at the offset of the
    first's weekday; so the days appear in increasing order.
   */
  lemma GridDayPosition(year: int, monthIndex: int, d: nat, k: int)
    requires 0 <= monthIndex < 12
    requires 0 <= k < GridSize
    ensures GridCells(year, monthIndex)[k] == Day(d) <==>
      1 <= d <= GetDaysInMonth(year, monthIndex) && k == GetFirstDayOfWeek(year, monthIndex) + d - 1
  {
    var firstDay, days := GetFirstDayOfWeek(year, monthIndex), GetDaysInMonth(year, monthIndex);
    assert GridCells(year, monthIndex)[k] == CellAt(firstDay, days, k);
    CellAtDay(firstDay, days, d, k);
  }

  lemma CellAtDay(firstDay: int, days: int, d: nat, k: int)
    ensures CellAt(firstDay, days, k) == Day(d) <==> 1 <= d <= days && k == firstDay + d - 1
  {
  }

  /** Days increase strictly from left to right, row over row. */
  lemma GridDaysIncrease(year: int, monthIndex: int, i: int, j: int)
    requires 0 <= monthIndex < 12
    requires 0 <= i < j < GridSize
    requires GridCells(year, monthIndex)[i].Day? && GridCells(year, monthIndex)[j].Day?
    ensures GridCells(year, monthIndex)[i].n < GridCells(year, monthIndex)[j].n
  {
  }
}
