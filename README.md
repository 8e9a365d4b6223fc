# A verified model of the React event-calendar widget

The widget (`src/Calendar.js`) shows one month as a grid of 42 cells. Above the
grid sit a month select, a "Today" button, year arrows, a title search box and
two facet selects, one for category and one for community group. The facet
options are built from the events. Clicking a day selects its `YYYY-MM-DD` key,
and a side panel then lists that day's events under all filters. The demo
application (`src/App.js`) passes five sample events.

The model has nine modules, one per concern of the component:

- `Gregorian`: the calendar arithmetic that JavaScript's `Date` supplies to the
  grid.
  - Leap years and month lengths.
  - Day numbers counted from 0000-01-01, which was a Saturday.
  - Weekdays, 0 = Sunday.
- `Grid`: `getDaysInMonth`, `getFirstDayOfWeek`, and the three loops that
  fill the 42 cells (the method `BuildCells`). It includes the `Date`
  constructor's reading of years 0..99 as 1900..1999 (`DateYear`).
- `JsText`: the string built-ins the component calls (`trim`, ASCII
  `toLowerCase`, `includes`, `padStart`, and `split` on one character).
  `trim` removes exactly the ECMAScript WhiteSpace and LineTerminator code
  points.
- `DateKey`: `formatDateKey`, and the `split("-").map(Number)` step at the
  start of `displayDate`. `Number` is modelled for the strings the key can
  contain: surrounding whitespace, the empty string, and optionally signed
  decimal digits.
- `Events`: the event record, the generic `Array.prototype.filter` (`Select`),
  the `filteredEvents` predicate, and the date join shared by
  `selectedDayEvents` and each cell's `dayEvents`.
- `Facets`: the `categories` and `groups` option lists. The loop over the
  events that feeds an insertion-ordered `Set` is the method `FacetOptions`.
- `View`: the class `CalendarView`.
  - Its fields are the six state hooks.
  - It has one method per control.
  - "Today" is a constructor parameter.
- `Fixture`: the five events of `src/App.js`, and what the widget shows for
  them.
- `Wrappers`: `Option`.

Two behaviours of the code are easy to miss. The model follows the code in
both.

- A 29-day February might be expected in every Gregorian leap year. The grid
  is laid out by `new Date(year, …)`, which reads the years 0..99 as
  1900..1999.
  - Year 0 is a leap year, yet its grid shows 28 days for February
    (`Grid.TwoDigitYearLayout`).
  - The leap rule holds for every year outside 0..99 (`Grid.FebruaryLeapRule`).
- A date key might be expected to always read back. The year arrows allow
  negative years, and for those the key starts with a sign.
  - `split("-")` then yields an empty first piece, and `Number("")` is 0.
  - So "-1-01-01" reads back as year 0, month 1 and day 1
    (`DateKey.NegativeYearKey`).
  - The round trip holds for every non-negative year (`DateKey.KeyRoundTrip`).

As in the code, the facet lists always start with the literal "All". An event
whose category is itself "All" therefore makes "All" appear twice. The facet
contracts describe exactly this construction.

## Model

| member | source | states |
|---|---|---|
| Gregorian.DaysInYear | src/Calendar.js:19-21 | a year has 365 or 366 days, and 366 exactly in a leap year |
| Gregorian.DaysInMonth | src/Calendar.js:19-21 | a month has 28..31 days; February has 29 exactly in a leap year and 28 otherwise; no other month is that short |
| Gregorian.DaysBeforeMonthIsYear | src/Calendar.js:19-21 | the twelve month lengths add up to the length of the year |
| Gregorian.DaysBeforeYearStep | src/Calendar.js:19-25 | the closed-form count of days before a year is 0 for year 0 and grows by each year's length, for negative years too |
| Gregorian.Weekday | src/Calendar.js:23-25 | the weekday is always in 0..6 |
| Gregorian.MonthLengthIsDistance | src/Calendar.js:19-21 | the day after a month's last day is the first of the next month; for January to November this holds by the construction of the day count, and the content is the December roll-over into January 1 of the next year, the step `new Date(y, 12, 0)` relies on |
| Gregorian.WeekdayAcrossMonths | src/Calendar.js:23-25 | the weekday of the next month's first is this month's first weekday plus the month length, mod 7, across year ends too |
| Gregorian.KnownWeekdays | src/Calendar.js:23-25 | the weekday count agrees with the real calendar: 1970-01-01 was a Thursday, 2025-11-01 a Saturday, 2000-02-29 a Tuesday |
| Grid.DateYear | src/Calendar.js:20 | the year `new Date` uses is never a two-digit year: a year 0..99 becomes one of 1900..1999 with the same last two digits, and any other year is kept as it is |
| Grid.GetDaysInMonth | src/Calendar.js:19-21 | `getDaysInMonth` is in 28..31, and 29 exactly for February of a leap year as `Date` reads the year |
| Grid.GetFirstDayOfWeek | src/Calendar.js:23-25 | `getFirstDayOfWeek` is in 0..6 |
| Grid.FebruaryLeapRule | src/Calendar.js:19-21 | for every year outside 0..99, February has 29 days exactly in Gregorian leap years and 28 otherwise |
| Grid.TwoDigitYearLayout | src/Calendar.js:19-25 | year 0 is a leap year, but its February is laid out with 28 days, and the grid of year 25 starts on the weekday of 1925 |
| Grid.GridCells | src/Calendar.js:100-103 | the rendered grid always has 42 cells |
| Grid.BuildCells | src/Calendar.js:97-103 | the three loops build 42 cells: blanks before the first's weekday, then day d at offset firstDay + d - 1 for each day of the month, then blanks, in agreement with `GridCells` |
| Grid.CountDaysPrefix | src/Calendar.js:100-103 | the first k cells hold no day before the offset, one day per cell inside the month, and the whole month after it |
| Grid.GridDayCount | src/Calendar.js:97-103 | the grid holds as many day cells as the month has days |
| Grid.GridDayPosition | src/Calendar.js:101-103 | cell k holds day d exactly when d is a day of the month and k is the first's weekday plus d - 1, so each day appears exactly once |
| Grid.CellAtDay | src/Calendar.js:101-102 | a cell of a month with a given start and length holds day d exactly at position start + d - 1 |
| Grid.GridDaysIncrease | src/Calendar.js:102 | of two day cells, the later one holds the larger day |
| JsText.TrimStart | src/Calendar.js:79 | the result is a suffix of the input; everything dropped is whitespace; it does not start with whitespace |
| JsText.TrimEnd | src/Calendar.js:79 | the result is a prefix of the input; everything dropped is whitespace; it does not end with whitespace |
| JsText.TrimSlice | src/Calendar.js:79 | `trim` keeps a contiguous middle part of the string and drops only whitespace before and after it |
| JsText.TrimEnds | src/Calendar.js:79 | a trimmed string is empty or has non-whitespace at both ends |
| JsText.TrimBlank | src/Calendar.js:79 | a string made only of whitespace trims to the empty string |
| JsText.TrimIdentity | src/Calendar.js:79 | a string with no whitespace at either end is its own trim |
| JsText.TrimIdempotent | src/Calendar.js:79 | trimming twice gives the same result as trimming once |
| JsText.Trim | src/Calendar.js:79 | definition (`trim` as `trimEnd` after `trimStart`); see `JsText.TrimSlice`, `JsText.TrimEnds`, `JsText.TrimIdempotent` |
| JsText.LowerChar | src/Calendar.js:79 | an upper-case ASCII letter maps to its own lower-case letter; every other character is unchanged |
| JsText.Lower | src/Calendar.js:79 | lower-casing keeps the length, leaves no capital letter, turns each capital into its own small letter and leaves every other character as it is |
| JsText.LowerIdempotent | src/Calendar.js:79 | a lower-cased string has no upper-case letter, and lower-casing it again changes nothing |
| JsText.Includes | src/Calendar.js:90 | `includes` holds exactly when the needle occurs at some offset |
| JsText.PadStart | src/Calendar.js:42-45 | `padStart` gives a string of at least the width that ends with the original and is fill characters before it |
| JsText.Split | src/Calendar.js:30 | `split` on one character yields at least one piece, and no piece contains the separator |
| JsText.SplitJoin | src/Calendar.js:30 | joining the pieces with the separator gives back the original string |
| JsText.SplitAtSeparator | src/Calendar.js:30 | a separator-free piece followed by the separator splits off as one whole first piece |
| JsText.SplitNoSeparator | src/Calendar.js:30 | a string without the separator splits into itself alone |
| DateKey.DigitChar | src/Calendar.js:42 | a digit 0..9 becomes the decimal digit character of that value |
| DateKey.Digits | src/Calendar.js:42 | a number's decimal form is non-empty and all digits; it is one digit below 10 and two digits exactly for 10..99 |
| DateKey.IntToString | src/Calendar.js:42 | `String(n)` starts with "-" exactly when n is negative; the sign is followed by the decimal digits of the magnitude |
| DateKey.DigitsLeadingZero | src/Calendar.js:42 | only the number 0 is written starting with a "0" |
| DateKey.DecimalForm | src/Calendar.js:42 | after the sign, `String(n)` is a non-empty run of decimal digits, without a leading zero, whose value is the magnitude of n |
| DateKey.DigitsValueOfDigits | src/Calendar.js:30 | reading a number's decimal digits back gives the number |
| DateKey.LeadingZero | src/Calendar.js:30 | a leading "0" does not change a digit string's value |
| DateKey.ToNumber | src/Calendar.js:30 | `Number` of a string that is digits once trimmed is the value of those digits |
| DateKey.DisplayDateParts | src/Calendar.js:28-31 | `displayDate` stops at once exactly when the string is empty; a non-empty string always goes on to the three numbers |
| DateKey.PartsOfKey | src/Calendar.js:30 | for a non-empty string that splits on "-" into at least three pieces, the three numbers are `Number` of the first three pieces |
| DateKey.TwoDigits | src/Calendar.js:42-45 | definition (`String(n).padStart(2, "0")`); see `DateKey.TwoDigitsValue`, `DateKey.TwoDigitsForm` |
| DateKey.TwoDigitsValue | src/Calendar.js:42-45 | a padded non-negative number is dash-free digits with the number's value, exactly two of them below 100 |
| DateKey.NumberOfDigits | src/Calendar.js:30 | `Number` of a non-empty digit string is its value |
| DateKey.TwoDigitsForm | src/Calendar.js:42-45 | below 100 the padded form is the tens digit followed by the units digit |
| DateKey.FormatDateKey | src/Calendar.js:41-46 | definition; see `DateKey.FormatDateKeyShape`, `DateKey.KeyRoundTrip`, `DateKey.DayKeysDistinct` |
| DateKey.FormatDateKeyShape | src/Calendar.js:41-46 | for month 0..11 and day 0..99 the key is the year, a dash, the one-based month as two digits, a dash, and the day as two digits |
| DateKey.ParseThreePieces | src/Calendar.js:30 | three digit runs joined by dashes parse back to their three values |
| DateKey.KeyRoundTrip | src/Calendar.js:28-46 | for every non-negative year, parsing the key of `formatDateKey` back with the split at the top of `displayDate` yields the year, the one-based month and the day that built it |
| DateKey.KeyInjective | src/Calendar.js:41-46 | distinct dates never share a key, in every year, negative years included |
| DateKey.SameSign | src/Calendar.js:41-46 | two equal keys come from years of the same sign, because the key starts with "-" exactly for a negative year |
| DateKey.DayKeysDistinct | src/Calendar.js:41-46 | in any year, negative ones included, two different days of one month have different keys |
| DateKey.NegativeYearKey | src/Calendar.js:28-46 | for a negative year the parse yields year 0, the year's magnitude as the month, and the one-based month as the day |
| DateKey.SplitNegativeKey | src/Calendar.js:30 | the key of a negative year splits into an empty piece, the magnitude, the month and the day |
| DateKey.EmptyIsZero | src/Calendar.js:30 | `Number("")` is 0 |
| Events.Select | src/Calendar.js:81 | `filter` returns no more elements than it is given, and every one it returns passes |
| Events.SelectIsSubsequence | src/Calendar.js:81 | `filter` returns a subsequence of its input, in the input's order |
| Events.SelectCounts | src/Calendar.js:81 | each value is kept as often as it occurs if it passes, and dropped entirely if it does not |
| Events.SelectMembers | src/Calendar.js:81 | a value is in the result exactly when it is in the input and passes |
| Events.SelectAll | src/Calendar.js:81 | when every element passes, the result is the whole input |
| Events.SelectThenSelect | src/Calendar.js:113-115 | filtering by one predicate and then by another equals filtering once by their conjunction |
| Events.SelectSingle | src/Calendar.js:81 | when exactly one element passes, the result is that element alone |
| Events.SelectNone | src/Calendar.js:81 | when nothing passes, the result is empty |
| Events.SearchKey | src/Calendar.js:79 | definition (the trimmed, lower-cased term); see `Fixture.EmptySearch`, `Events.FilterNothing` |
| Events.Passes | src/Calendar.js:82-92 | definition (category, group and title conditions); see `Events.FilterKeeps` |
| Events.FilterEvents | src/Calendar.js:78-94 | definition; see `Events.FilterKeeps`, `Events.FilterIsSubsequence`, `Events.FilterIdempotent` |
| Events.FilterCons | src/Calendar.js:78-94 | `filteredEvents` keeps the first event exactly when it passes all three conditions, then filters the rest |
| Events.FilterIsSubsequence | src/Calendar.js:78-94 | `filteredEvents` is an order-preserving subsequence of the events |
| Events.FilterKeeps | src/Calendar.js:78-94 | an event is kept, as often as it occurs, exactly when its category and group pass their filters and the trimmed, lower-cased term is empty or in its truthy lower-cased title; otherwise it is dropped entirely |
| Events.FilterNothing | src/Calendar.js:78-94 | with "All", "All" and a blank search term every event is kept |
| Events.FilterIdempotent | src/Calendar.js:78-94 | filtering the filtered events again with the same settings changes nothing |
| Events.FilterSingleTitle | src/Calendar.js:88-90 | a search term found in exactly one title selects that event alone |
| Events.EventsOn | src/Calendar.js:113-115 | definition (the date join); see `Events.EventsOnMembers`, `Events.EventsOnCons` |
| Events.SelectedDayEvents | src/Calendar.js:113-115 | definition; see `Events.SelectedDayEventsSpec` |
| Events.EventsOnCons | src/Calendar.js:113-115 | the date join (also used for `dayEvents`) keeps the first event exactly when its date is the key, then joins the rest |
| Events.SelectedDayEventsSpec | src/Calendar.js:113-115 | with no date selected the panel list is empty; with a date selected it is the events that pass all three filters and have that date, in input order |
| Events.EventsOnMembers | src/Calendar.js:220-222 | an event is listed for a key exactly when it is a filtered event with that date |
| Facets.FirstEvent | src/Calendar.js:66 | the position of the first event carrying a label: that event carries it and no earlier one does |
| Facets.FirstEventIs | src/Calendar.js:66 | that first position is unique |
| Facets.OccursExtend | src/Calendar.js:66 | a list grown by one event carries a label exactly when the shorter list or the new event carries it |
| Facets.FirstEventExtend | src/Calendar.js:66 | appending an event does not move the first occurrence of a label already carried |
| Facets.FirstEventLast | src/Calendar.js:66 | a label first carried by the last event has its first occurrence there |
| Facets.Collected | src/Calendar.js:65-66 | definition (the insertion-ordered `Set`); see `Facets.CollectedMembers`, `Facets.CollectedNoDuplicates`, `Facets.CollectedOrder` |
| Facets.CollectedMembers | src/Calendar.js:64-75 | the set holds a label exactly when the label is non-empty and some event carries it |
| Facets.CollectedNoDuplicates | src/Calendar.js:64-75 | the set holds each label once |
| Facets.CollectedOccurs | src/Calendar.js:64-75 | every label in the set is carried by some event |
| Facets.CollectedOrder | src/Calendar.js:64-75 | the labels are in the order of the first event carrying each |
| Facets.CollectedOrderStep | src/Calendar.js:66 | adding one event keeps that order: old labels keep their first events and a new label comes last |
| Facets.OrderKept | src/Calendar.js:66 | labels whose first events do not move stay in order |
| Facets.OrderAppend | src/Calendar.js:66 | a label whose first event comes after all of the others' can be appended in order |
| Facets.FacetOptions | src/Calendar.js:64-75 | the loop yields "All" first, then each non-empty label some event carries, each exactly once, in the order of first occurrence |
| View.CalendarView.constructor | src/Calendar.js:49-61 | the view starts on today's year and month, with both filters "All", an empty search and no selection |
| View.CalendarView.DayClick | src/Calendar.js:106-110 | a blank or a day number 0 clears the selection; a day selects `formatDateKey` of the shown year, the shown month and that day; nothing else changes |
| View.CalendarView.SelectMonth | src/Calendar.js:124-127 | the month select sets the shown month to the chosen 0..11 and changes nothing else |
| View.CalendarView.GoToday | src/Calendar.js:138-141 | "Today" sets the shown year and month to today's and leaves the filters, search and selection alone |
| View.CalendarView.PrevYear | src/Calendar.js:184-186 | "‹" moves the shown year back by one and changes nothing else |
| View.CalendarView.NextYear | src/Calendar.js:191-193 | "›" moves the shown year forward by one and changes nothing else |
| View.CalendarView.SetSearch | src/Calendar.js:154-155 | the search box stores the raw text and changes nothing else |
| View.CalendarView.SetCategory | src/Calendar.js:161-162 | the category select sets the category filter and changes nothing else |
| View.CalendarView.SetGroup | src/Calendar.js:171-172 | the group select sets the group filter and changes nothing else |
| View.CalendarView.KeyOf | src/Calendar.js:216-218 | definition (`dateKey`); see `View.DayEventsSpec`, `View.KeysDistinct` |
| View.CalendarView.IsToday | src/Calendar.js:210-214 | definition (`isToday`); see `View.TodayMarkedOnce`, `View.TodayOnlyInItsMonth` |
| View.CalendarView.DayEvents | src/Calendar.js:220-222 | definition (`dayEvents`); see `View.DayEventsSpec`, `View.ClickedCellEvents` |
| View.CalendarView.Cells | src/Calendar.js:97-103 | definition (the `cells` of the shown month); see `Grid.BuildCells`, `Grid.GridDayPosition`, `View.TodayMarkedOnce` |
| View.CalendarView.Filtered | src/Calendar.js:78-94 | definition (`filteredEvents` under the current filters and search); see `Events.FilterKeeps`, `View.DayEventsSpec` |
| View.CalendarView.SelectedEvents | src/Calendar.js:113-115 | definition (the panel's `selectedDayEvents`); see `Events.SelectedDayEventsSpec`, `View.ClickedCellEvents`, `Fixture.WebinarPanel` |
| View.ClickedCellEvents | src/Calendar.js:113-115 | once a cell has been clicked, the side panel's `selectedDayEvents` is exactly the `dayEvents` shown in that cell |
| View.TodayMarkedOnce | src/Calendar.js:210-214 | when today's month is shown (a year outside 0..99), exactly one cell is marked as today: the one at the first's weekday plus the date, minus one |
| View.TodayOnlyInItsMonth | src/Calendar.js:210-214 | while another month or year is shown, no cell is marked as today |
| View.DayEventsSpec | src/Calendar.js:216-222 | a blank cell has no key and lists no events; a day cell lists exactly the filtered events dated with its key |
| View.KeysDistinct | src/Calendar.js:216-218 | in the shown month of any year, negative years included, different days have different keys, so an event is shown in at most one cell |
| Fixture.AppEvents | src/App.js:6-52 | definition (the demo `events` array); see `Fixture.AppCategories`, `Fixture.AppGroups`, `Fixture.WebinarPanel` |
| Fixture.NovemberTwelfthKey | src/Calendar.js:41-46 | the key of 12 November 2025 (month index 10) is "2025-11-12" |
| Fixture.ClickedNovemberTwelfth | src/Calendar.js:106-110 | a selection holding the key that `DayClick` builds for day 12 of November 2025 is "2025-11-12" |
| Fixture.AppCategories | src/App.js:6-52 | for the demo events the category options after "All" are Meeting, Webinar, Social |
| Fixture.AppGroups | src/App.js:6-52 | for the demo events the group options after "All" are Technology, BI-ISIG, Stroke ISIG |
| Fixture.EmptySearch | src/Calendar.js:79 | an empty search term gives the empty search key |
| Fixture.KeepHead | src/Calendar.js:81-93 | with no group filter and a blank search, an event of the chosen category heads the filtered list |
| Fixture.SkipHead | src/Calendar.js:81-93 | an event of another category is dropped |
| Fixture.FilterFive | src/Calendar.js:81-93 | of five events whose second, third and fifth are of the chosen category, those three are kept, in order |
| Fixture.WebinarsFiltered | src/App.js:6-52 | for the demo events the "Webinar" filter keeps events 2, 3 and 5 |
| Fixture.OnFirstTwo | src/Calendar.js:113-115 | of three events of which the first two carry the key, those two are selected |
| Fixture.WebinarsOnTwelfth | src/App.js:6-52 | of those webinars, events 2 and 3 fall on 2025-11-12 |
| Fixture.WebinarDay | src/Calendar.js:106-110 | on any day of November 2025, choosing "Webinar" and clicking day 12 leaves the view on November 2025 with that category, no group filter, no search, and "2025-11-12" selected |
| Fixture.WebinarPanel | src/App.js:6-52 | in that state the panel lists ids 2 and 3; event 4 falls on the same day but is not listed |
| Fixture.NoneOnEleventh | src/App.js:6-52 | no demo event is dated 2025-11-11 |
| Fixture.EleventhIsEmpty | src/App.js:6-52 | with 2025-11-11 selected the panel is empty, whatever the filters and search |

## Left out

- Rendering is not modelled: the JSX markup, the CSS class strings, the `MONTHS` labels, the weekday header and the event pills and panel items (src/Calendar.js:4-17, 117-303). It is presentation only. The model keeps what rendering depends on: the cells, the today flag, the keys, and the per-cell and panel event lists.
- `toLocaleDateString` in `displayDate` is left out. Its output depends on the locale and on ICU. The model stops at the three numbers handed to `new Date(y, m - 1, d)` (`DateKey.DisplayDateParts`).
- The clock is not modelled. `new Date()` becomes the constructor parameter `today` of `CalendarView`. The source re-reads the clock on every render, so a render after midnight sees a new "today". The model fixes `today` for the life of the view.
- `useState`, `useMemo` and re-rendering are left out. Each derived value (cells, facets, filtered events, panel and cell lists) is a function of the current state. Memoisation has no observable effect.
- The range limits of `Date` are not modelled. The model's calendar is unbounded and proleptic; `Date` stops at about ±275,000 years.
- `Number` is modelled only for what a key can contain: whitespace, an empty string, and optionally signed decimal digits. Fractions, exponents, hexadecimal, "Infinity" and the like all become NaN in the model.
- `toLowerCase` is modelled over ASCII letters only. Unicode case mapping and multi-character mappings are not modelled.
- Event fields are typed: `date` is a string, and the optional fields are strings or absent. Non-string field values, which JavaScript would allow, are not modelled.
- `Grid.FebruaryLeapRule`: states the Gregorian leap rule only for years outside 0..99. For years 0..99 the code lays out 1900..1999 instead, as `Grid.TwoDigitYearLayout` shows.
- `View.TodayMarkedOnce`: excludes shown years 0..99. There the grid is that of 1900 plus the year, while today's date is compared with the year itself.
- `DateKey.KeyRoundTrip`: holds only for non-negative years. Negative years do not round-trip (`DateKey.NegativeYearKey`).
- The month select's `Number(e.target.value)` is modelled as a month 0..11 (`View.CalendarView.SelectMonth` requires it). The options only offer the values 0..11.
