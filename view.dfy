/**
  The widget's view state and its controls. The six state hooks are the
  fields of `CalendarView`; each handler is a method that changes the fields
  its setters change and nothing else. The moment read as "today" is a
  constructor parameter instead of the clock.
 */
module View {
  import opened Wrappers
  import opened Gregorian
  import opened Grid
  import opened DateKey
  import opened Events

  /** `today.getFullYear()`, `today.getMonth()` (zero-based) and `today.getDate()`. */
  datatype Today = Today(year: int, month: int, date: int)

  /** A real calendar date. */
  predicate ValidToday(t: Today)
  {
    0 <= t.month < 12 && 1 <= t.date <= DaysInMonth(t.year, t.month)
  }

  class CalendarView {
    const today: Today
    var currentYear: int
    var currentMonth: int
    var categoryFilter: string
    var groupFilter: string
    var searchTerm: string
    var selectedDate: Option<string>

    /** The shown month is always one of the twelve: it only ever comes from `getMonth` or the month select. */
    ghost predicate Valid()
      reads this
    {
      ValidToday(today) && 0 <= currentMonth < 12
    }

    /** The initial state: today's month, no filtering, no search, nothing selected. */
    constructor (today: Today)
      requires ValidToday(today)
      ensures Valid()
      ensures this.today == today
      ensures currentYear == today.year && currentMonth == today.month
      ensures categoryFilter == All && groupFilter == All && searchTerm == ""
      ensures selectedDate == None
    {
      this.today := today;
      currentYear := today.year;
      currentMonth := today.month;
      categoryFilter := All;
      groupFilter := All;
      searchTerm := "";
      selectedDate := None;
    }

    /** The 42 cells of the shown month. */
    function Cells(): seq<Cell>
      requires Valid()
      reads this
    {
      GridCells(currentYear, currentMonth)
    }

    /** The key of a cell (`dateKey`): present exactly for a truthy day number. */
    function KeyOf(cell: Cell): Option<string>
      reads this
    {
      if cell.Day? && cell.n != 0 then Some(FormatDateKey(currentYear, currentMonth, cell.n)) else None
    }

    /** `filteredEvents` under the current filters and search term. */
    function Filtered(events: seq<Event>): seq<Event>
      reads this
    {
      FilterEvents(events, categoryFilter, groupFilter, searchTerm)
    }

    /** The side panel's list, `selectedDayEvents`. */
    function SelectedEvents(events: seq<Event>): seq<Event>
      reads this
    {
      SelectedDayEvents(Filtered(events), selectedDate)
    }

    /** A cell's `dayEvents`: the filtered events on its key, none for a blank. */
    function DayEvents(events: seq<Event>, cell: Cell): seq<Event>
      reads this
    {
      var key := KeyOf(cell);
      if Truthy(key) then EventsOn(Filtered(events), key.value) else []
    }

    /** `isToday`: a day cell whose year, month and day are today's. */
    predicate IsToday(cell: Cell)
      reads this
    {
      cell.Day? && cell.n != 0
      && today.year == currentYear && today.month == currentMonth && today.date == cell.n
    }

    /**
      `handleDayClick`: a blank (or a day number 0) selects nothing, a day
      selects its key. The shown month, the filters and the search stay as
      they were.
     */
    method DayClick(cell: Cell)
      requires Valid()
      modifies this`selectedDate
      ensures Valid() && selectedDate == KeyOf(cell)
      ensures cell.Empty? || cell.n == 0 ==> selectedDate == None
      ensures cell.Day? && cell.n != 0 ==> selectedDate == Some(FormatDateKey(currentYear, currentMonth, cell.n))
      ensures currentYear == old(currentYear) && currentMonth == old(currentMonth)
      ensures categoryFilter == old(categoryFilter) && groupFilter == old(groupFilter) && searchTerm == old(searchTerm)
    {
      if cell.Empty? || cell.n == 0 {
        selectedDate := None;
      } else {
        selectedDate := Some(FormatDateKey(currentYear, currentMonth, cell.n));
      }
    }

    /** The month select: `setCurrentMonth(Number(value))` with an option value 0..11. */
    method SelectMonth(month: int)
      requires Valid() && 0 <= month < 12
      modifies this`currentMonth
      ensures Valid() && currentMonth == month
    {
      currentMonth := month;
    }

    /** The "Today" button: back to today's year and month; the selection stays. */
    method GoToday()
      requires Valid()
      modifies this`currentYear, this`currentMonth
      ensures Valid()
      ensures currentYear == today.year && currentMonth == today.month
    {
      currentYear := today.year;
      currentMonth := today.month;
    }

    /** The "‹" button. */
    method PrevYear()
      requires Valid()
      modifies this`currentYear
      ensures Valid() && currentYear == old(currentYear) - 1
    {
      currentYear := currentYear - 1;
    }

    /** The "›" button. */
    method NextYear()
      requires Valid()
      modifies this`currentYear
      ensures Valid() && currentYear == old(currentYear) + 1
    {
      currentYear := currentYear + 1;
    }

    /** The search box: the raw text is stored; trimming happens when filtering. */
    method SetSearch(text: string)
      requires Valid()
      modifies this`searchTerm
      ensures Valid() && searchTerm == text
    {
      searchTerm := text;
    }

    /** The category select. */
    method SetCategory(option: string)
      requires Valid()
      modifies this`categoryFilter
      ensures Valid() && categoryFilter == option
    {
      categoryFilter := option;
    }

    /** The community group select. */
    method SetGroup(option: string)
      requires Valid()
      modifies this`groupFilter
      ensures Valid() && groupFilter == option
    {
      groupFilter := option;
    }
  }

  /** Once a cell has been clicked, the side panel lists exactly the events that cell shows. */
  lemma ClickedCellEvents(v: CalendarView, events: seq<Event>, cell: Cell)
    requires v.selectedDate == v.KeyOf(cell)
    ensures v.SelectedEvents(events) == v.DayEvents(events, cell)
  {
  }

  /**
    When the shown month is today's, exactly one cell is marked as today:
    the one at the first's weekday offset plus the date. (Years 0..99 are
    excluded: there the grid is laid out for 1900..1999 while "today" is a
    date of the year itself.)
   */
  lemma TodayMarkedOnce(v: CalendarView, k: int)
    requires v.Valid() && 0 <= k < GridSize
    requires v.currentYear == v.today.year && v.currentMonth == v.today.month
    requires v.currentYear < 0 || 99 < v.currentYear
    ensures v.IsToday(v.Cells()[k]) <==> k == GetFirstDayOfWeek(v.currentYear, v.currentMonth) + v.today.date - 1
  {
    GridDayPosition(v.currentYear, v.currentMonth, v.today.date, k);
  }

  /** No cell is marked as today while another month or year is shown. */
  lemma TodayOnlyInItsMonth(v: CalendarView, cell: Cell)
    requires v.currentYear != v.today.year || v.currentMonth != v.today.month
    ensures !v.IsToday(cell)
  {
  }

  /** A blank cell has no key and lists no events; a day cell lists the filtered events dated with its key. */
  lemma DayEventsSpec(v: CalendarView, events: seq<Event>, cell: Cell, e: Event)
    ensures cell.Empty? ==> v.KeyOf(cell) == None && v.DayEvents(events, cell) == []
    ensures cell.Day? && cell.n != 0 ==>
      (e in v.DayEvents(events, cell) <==> e in v.Filtered(events) && e.date == FormatDateKey(v.currentYear, v.currentMonth, cell.n))
  {
    if cell.Day? && cell.n != 0 {
      EventsOnMembers(v.Filtered(events), FormatDateKey(v.currentYear, v.currentMonth, cell.n), e);
    }
  }

  /** Distinct day cells of one month have distinct keys, so each event is shown in at most one cell. */
  lemma KeysDistinct(v: CalendarView, d1: nat, d2: nat)
    requires 1 <= d1 && 1 <= d2 && d1 != d2
    ensures v.KeyOf(Day(d1)) != v.KeyOf(Day(d2))
  {
    DayKeysDistinct(v.currentYear, v.currentMonth, d1, d2);
  }
}
