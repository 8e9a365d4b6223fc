/**
  The five sample events the demo application hands to the widget, and
  what the widget shows for them.
 */
module Fixture {
  import opened Wrappers
  import opened JsText
  import opened Grid
  import opened DateKey
  import opened Events
  import opened Facets
  import opened View

  function Sample(id: int, title: string, date: string, time: string, category: string, group: string): Event
  {
    Event(id, Some(title), date, Some(time), Some(category), Some(group),
      Some("https://acrm.org/acrm-communities/brain-injury/"))
  }

  function Ev1(): Event { Sample(1, "Tech Meeting", "2025-11-10", "2:00 PM", "Meeting", "Technology") }
  function Ev2(): Event { Sample(2, "BI-ISIG Webinar", "2025-11-12", "11:00 AM", "Webinar", "BI-ISIG") }
  function Ev3(): Event { Sample(3, "BI-ISIG All Member Meeting", "2025-11-12", "09:00 AM", "Webinar", "BI-ISIG") }
  function Ev4(): Event { Sample(4, "Stroke ISIG All Member Meeting", "2025-11-12", "4:30 PM", "Social", "Stroke ISIG") }
  function Ev5(): Event { Sample(5, "BI-ISIG All Member Meeting", "2025-10-12", "09:00 AM", "Webinar", "BI-ISIG") }

  /** The `events` array of the demo application. */
  function AppEvents(): seq<Event>
  {
    [Ev1(), Ev2(), Ev3(), Ev4(), Ev5()]
  }

  /** The ids of a list of events, in order. */
  function Ids(events: seq<Event>): seq<int>
  {
    seq(|events|, i requires 0 <= i < |events| => events[i].id)
  }

  /** The key of 12 November 2025. */
  lemma NovemberTwelfthKey()
    ensures FormatDateKey(2025, 10, 12) == "2025-11-12"
  {
    assert DigitChar(0) == '0' && DigitChar(1) == '1' && DigitChar(2) == '2' && DigitChar(5) == '5';
    assert Digits(2) == "2";
    assert Digits(20) == Digits(2) + "0" == "20";
    assert Digits(202) == Digits(20) + "2" == "202";
    assert Digits(2025) == Digits(202) + "5" == "2025";
    assert Digits(1) == "1";
    assert Digits(11) == Digits(1) + "1" == "11";
    assert Digits(12) == Digits(1) + "2" == "12";
    assert TwoDigits(11) == "11" && TwoDigits(12) == "12";
    assert IntToString(2025) == "2025";
  }

  /** A click on day 12 of November 2025 selects the key "2025-11-12". */
  lemma ClickedNovemberTwelfth(selected: Option<string>, year: int, month: int)
    requires year == 2025 && month == 10
    requires selected == Some(FormatDateKey(year, month, 12))
    ensures selected == Some("2025-11-12")
  {
    NovemberTwelfthKey();
  }

  /** The category select offers each category once, in the order of the events. */
  lemma AppCategories()
    ensures Collected(AppEvents(), Category) == ["Meeting", "Webinar", "Social"]
  {
    assert Collected([], Category) == [];
    assert [Ev1()][..0] == [] && Collected([Ev1()], Category) == ["Meeting"];
    assert [Ev1(), Ev2()][..1] == [Ev1()] && Collected([Ev1(), Ev2()], Category) == ["Meeting", "Webinar"];
    assert [Ev1(), Ev2(), Ev3()][..2] == [Ev1(), Ev2()];
    assert Collected([Ev1(), Ev2(), Ev3()], Category) == ["Meeting", "Webinar"];
    assert [Ev1(), Ev2(), Ev3(), Ev4()][..3] == [Ev1(), Ev2(), Ev3()];
    assert Collected([Ev1(), Ev2(), Ev3(), Ev4()], Category) == ["Meeting", "Webinar", "Social"];
    assert AppEvents()[..4] == [Ev1(), Ev2(), Ev3(), Ev4()];
  }

  /** The group select likewise. */
  lemma AppGroups()
    ensures Collected(AppEvents(), CommunityGroup) == ["Technology", "BI-ISIG", "Stroke ISIG"]
  {
    assert Collected([], CommunityGroup) == [];
    assert [Ev1()][..0] == [] && Collected([Ev1()], CommunityGroup) == ["Technology"];
    assert [Ev1(), Ev2()][..1] == [Ev1()] && Collected([Ev1(), Ev2()], CommunityGroup) == ["Technology", "BI-ISIG"];
    assert [Ev1(), Ev2(), Ev3()][..2] == [Ev1(), Ev2()];
    assert Collected([Ev1(), Ev2(), Ev3()], CommunityGroup) == ["Technology", "BI-ISIG"];
    assert [Ev1(), Ev2(), Ev3(), Ev4()][..3] == [Ev1(), Ev2(), Ev3()];
    assert Collected([Ev1(), Ev2(), Ev3(), Ev4()], CommunityGroup) == ["Technology", "BI-ISIG", "Stroke ISIG"];
    assert AppEvents()[..4] == [Ev1(), Ev2(), Ev3(), Ev4()];
  }

  /** An empty search term leaves `Passes` to the two facet conditions. */
  lemma EmptySearch()
    ensures SearchKey("") == ""
  {
    assert Trim("") == "";
  }

  /** Lists built up from the back, as the filters below consume them. */
  lemma FiveInOrder(e1: Event, e2: Event, e3: Event, e4: Event, e5: Event)
    ensures [e1] + ([e2] + ([e3] + ([e4] + [e5]))) == [e1, e2, e3, e4, e5]
  {
  }

  lemma ThreeInOrder(e1: Event, e2: Event, e3: Event)
    ensures [e1] + ([e2] + ([e3] + [])) == [e1, e2, e3]
    ensures [e1] + ([e2] + [e3]) == [e1, e2, e3]
  {
  }

  lemma TwoInOrder(e1: Event, e2: Event)
    ensures [e1] + ([e2] + []) == [e1, e2]
  {
  }

  /** An event of the filtered category heads the filtered list (no group filter, blank search). */
  lemma KeepHead(e: Event, rest: seq<Event>, category: string, term: string)
    requires SearchKey(term) == "" && e.category == Some(category)
    ensures FilterEvents([e] + rest, category, All, term) == [e] + FilterEvents(rest, category, All, term)
  {
    FilterCons(e, rest, category, All, term);
  }

  /** An event of another category is dropped. */
  lemma SkipHead(e: Event, rest: seq<Event>, category: string, term: string)
    requires category != All && e.category != Some(category)
    ensures FilterEvents([e] + rest, category, All, term) == FilterEvents(rest, category, All, term)
  {
    FilterCons(e, rest, category, All, term);
  }

  /**
    Five events whose categories are, in turn, something else, the filter,
    the filter, something else and the filter: the second, third and fifth
    pass. Stated over arbitrary events so that the proof works symbolically.
   */
  lemma FilterFive(e1: Event, e2: Event, e3: Event, e4: Event, e5: Event, category: string, term: string)
    requires category != All && SearchKey(term) == ""
    requires e1.category != Some(category) && e4.category != Some(category)
    requires e2.category == Some(category) && e3.category == Some(category) && e5.category == Some(category)
    ensures FilterEvents([e1, e2, e3, e4, e5], category, All, term) == [e2, e3, e5]
  {
    var s5: seq<Event> := [e5];
    var s4 := [e4] + s5;
    var s3 := [e3] + s4;
    var s2 := [e2] + s3;
    var s1 := [e1] + s2;
    KeepHead(e5, [], category, term);
    assert [e5] + [] == s5;
    SkipHead(e4, s5, category, term);
    KeepHead(e3, s4, category, term);
    KeepHead(e2, s3, category, term);
    SkipHead(e1, s2, category, term);
    assert FilterEvents([], category, All, term) == [];
    FiveInOrder(e1, e2, e3, e4, e5);
    ThreeInOrder(e2, e3, e5);
  }

  /** The "Webinar" category with no group filter and no search keeps events 2, 3 and 5. */
  lemma WebinarsFiltered()
    ensures FilterEvents(AppEvents(), "Webinar", All, "") == [Ev2(), Ev3(), Ev5()]
  {
    EmptySearch();
    FilterFive(Ev1(), Ev2(), Ev3(), Ev4(), Ev5(), "Webinar", "");
  }

  /** Of three events, the two dated with the key are selected. */
  lemma OnFirstTwo(e1: Event, e2: Event, e3: Event, key: string)
    requires e1.date == key && e2.date == key && e3.date != key
    ensures EventsOn([e1, e2, e3], key) == [e1, e2]
  {
    var s3: seq<Event> := [e3];
    var s2 := [e2] + s3;
    var s1 := [e1] + s2;
    EventsOnCons(e3, [], key);
    assert [e3] + [] == s3;
    EventsOnCons(e2, s3, key);
    EventsOnCons(e1, s2, key);
    assert EventsOn([], key) == [];
    ThreeInOrder(e1, e2, e3);
    TwoInOrder(e1, e2);
  }

  /** Of those, the ones dated 2025-11-12 are events 2 and 3. */
  lemma WebinarsOnTwelfth()
    ensures EventsOn([Ev2(), Ev3(), Ev5()], "2025-11-12") == [Ev2(), Ev3()]
  {
    OnFirstTwo(Ev2(), Ev3(), Ev5(), "2025-11-12");
  }

  /**
    On any day of November 2025 (month index 10) the user picks the
    "Webinar" category and clicks day 12: the view then selects the key
    "2025-11-12" with no group filter and no search.
   */
  method WebinarDay(today: Today) returns (v: CalendarView)
    requires ValidToday(today) && today.year == 2025 && today.month == 10
    ensures v.Valid() && v.currentYear == 2025 && v.currentMonth == 10
    ensures v.categoryFilter == "Webinar" && v.groupFilter == All && v.searchTerm == ""
    ensures v.selectedDate == Some("2025-11-12")
  {
    v := new CalendarView(today);
    v.SetCategory("Webinar");
    v.DayClick(Day(12));
    ClickedNovemberTwelfth(v.selectedDate, v.currentYear, v.currentMonth);
  }

  /**
    In that state the panel lists the webinars 2 and 3 of that day and not
    the social event 4 of the same day.
   */
  lemma WebinarPanel(v: CalendarView)
    requires v.categoryFilter == "Webinar" && v.groupFilter == All && v.searchTerm == ""
    requires v.selectedDate == Some("2025-11-12")
    ensures Ids(v.SelectedEvents(AppEvents())) == [2, 3]
    ensures Ev4() in AppEvents() && Ev4().date == "2025-11-12" && Ev4() !in v.SelectedEvents(AppEvents())
  {
    WebinarsFiltered();
    WebinarsOnTwelfth();
    assert v.SelectedEvents(AppEvents()) == [Ev2(), Ev3()];
  }

  /** No sample event falls on 2025-11-11. */
  lemma NoneOnEleventh(e: Event)
    requires e in AppEvents()
    ensures e.date != "2025-11-11"
  {
  }

  /** The day before has no events at all, whatever the filters. */
  lemma EleventhIsEmpty(categoryFilter: string, groupFilter: string, searchTerm: string)
    ensures SelectedDayEvents(FilterEvents(AppEvents(), categoryFilter, groupFilter, searchTerm), Some("2025-11-11")) == []
  {
    var filtered := FilterEvents(AppEvents(), categoryFilter, groupFilter, searchTerm);
    forall i | 0 <= i < |filtered| ensures filtered[i].date != "2025-11-11" {
      FilterKeeps(AppEvents(), categoryFilter, groupFilter, searchTerm, filtered[i]);
      NoneOnEleventh(filtered[i]);
    }
    SelectNone(filtered, (e: Event) => e.date == "2025-11-11");
  }
}
