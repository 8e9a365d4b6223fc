/**
  Events and the filters over them: the three-way `filteredEvents`
  predicate and the date join behind `selectedDayEvents` and each grid
  cell's `dayEvents`. JavaScript's `Array.prototype.filter` is `Select`.
 */
module Events {
  import opened Wrappers
  import opened JsText

  /** An event record as supplied by the widget's caller; optional fields may be absent. */
  datatype Event = Event(
    id: int,
    title: Option<string>,
    date: string,
    time: Option<string>,
    category: Option<string>,
    communityGroup: Option<string>,
    link: Option<string>)

  /** JavaScript truthiness of an optional string: present and non-empty. */
  predicate Truthy(s: Option<string>)
  {
    s.Some? && s.value != ""
  }

  /** `s.filter(keep)`: the elements that pass, in their original order. */
  function Select<T>(s: seq<T>, keep: T -> bool): (r: seq<T>)
    ensures |r| <= |s|
    ensures forall i :: 0 <= i < |r| ==> keep(r[i])
  {
    if s == [] then [] else
    var rest := Select(s[1..], keep);
    if keep(s[0]) then [s[0]] + rest else rest
  }

  /** `a` is `b` with some elements left out, the rest in order. */
  predicate IsSubsequence<T(==)>(a: seq<T>, b: seq<T>)
  {
    if a == [] then true
    else if b == [] then false
    else if a[0] == b[0] then IsSubsequence(a[1..], b[1..])
    else IsSubsequence(a, b[1..])
  }

  lemma {:induction false} SelectIsSubsequence<T>(s: seq<T>, keep: T -> bool)
    ensures IsSubsequence(Select(s, keep), s)
  {
    if s != [] {
      SelectIsSubsequence(s[1..], keep);
      if !keep(s[0]) {
        SubsequenceOfTail(Select(s[1..], keep), s);
      }
    }
  }

  lemma {:induction false} SubsequenceOfTail<T>(a: seq<T>, b: seq<T>)
    requires b != [] && IsSubsequence(a, b[1..])
    ensures IsSubsequence(a, b)
    decreases |b|, |a|
  {
    if a != [] && a[0] == b[0] {
      DropHead(a, b[1..]);
    }
  }

  lemma {:induction false} DropHead<T>(a: seq<T>, b: seq<T>)
    requires a != [] && IsSubsequence(a, b)
    ensures IsSubsequence(a[1..], b)
    decreases |b|, |a|
  {
    if a[0] == b[0] {
      if a[1..] != [] {
        SubsequenceOfTail(a[1..], b);
      }
    } else {
      DropHead(a, b[1..]);
      if a[1..] != [] {
        SubsequenceOfTail(a[1..], b);
      }
    }
  }

  /** Each value is kept as often as it occurs, if it passes, and dropped entirely otherwise. */
  lemma {:induction false} SelectCounts<T>(s: seq<T>, keep: T -> bool, x: T)
    ensures multiset(Select(s, keep))[x] == if keep(x) then multiset(s)[x] else 0
  {
    if s != [] {
      SelectCounts(s[1..], keep, x);
      assert s == [s[0]] + s[1..];
    }
  }

  lemma SelectMembers<T>(s: seq<T>, keep: T -> bool, x: T)
    ensures x in Select(s, keep) <==> x in s && keep(x)
  {
    SelectCounts(s, keep, x);
  }

  /** Nothing is dropped when everything passes. */
  lemma {:induction false} SelectAll<T>(s: seq<T>, keep: T -> bool)
    requires forall i :: 0 <= i < |s| ==> keep(s[i])
    ensures Select(s, keep) == s
  {
    if s != [] {
      SelectAll(s[1..], keep);
    }
  }

  /** Filtering by one predicate and then another is filtering by both. */
  lemma {:induction false} SelectThenSelect<T>(s: seq<T>, keep: T -> bool, also: T -> bool, both: T -> bool)
    requires forall x :: both(x) == (keep(x) && also(x))
    ensures Select(Select(s, keep), also) == Select(s, both)
  {
    if s != [] {
      SelectThenSelect(s[1..], keep, also, both);
    }
  }

  /** When exactly one element passes, the result is that element alone. */
  lemma {:induction false} SelectSingle<T>(s: seq<T>, keep: T -> bool, k: int)
    requires 0 <= k < |s| && keep(s[k])
    requires forall i :: 0 <= i < |s| && i != k ==> !keep(s[i])
    ensures Select(s, keep) == [s[k]]
  {
    if k == 0 {
      SelectNone(s[1..], keep);
    } else {
      SelectSingle(s[1..], keep, k - 1);
    }
  }

  lemma {:induction false} SelectNone<T>(s: seq<T>, keep: T -> bool)
    requires forall i :: 0 <= i < |s| ==> !keep(s[i])
    ensures Select(s, keep) == []
  {
    if s != [] {
      SelectNone(s[1..], keep);
    }
  }

  /** The sentinel filter value meaning "no filtering on this axis". */
  const All: string := "All"

  /** `searchTerm.trim().toLowerCase()`. */
  function SearchKey(searchTerm: string): string
  {
    Lower(Trim(searchTerm))
  }

  /**
    The predicate of `filteredEvents`: category and group each "All" or
    equal to the event's own, and the (normalised) term empty or contained
    in the lower-cased title, which must be truthy.
   */
  predicate Passes(e: Event, categoryFilter: string, groupFilter: string, term: string)
  {
    && (categoryFilter == All || e.category == Some(categoryFilter))
    && (groupFilter == All || e.communityGroup == Some(groupFilter))
    && (term == "" || (Truthy(e.title) && Includes(Lower(e.title.value), term)))
  }

  /** `filteredEvents`. */
  function FilterEvents(events: seq<Event>, categoryFilter: string, groupFilter: string, searchTerm: string): seq<Event>
  {
    var term := SearchKey(searchTerm);
    Select(events, e => Passes(e, categoryFilter, groupFilter, term))
  }

  /** Filtering proceeds event by event: the head is kept exactly when it passes. */
  lemma FilterCons(e: Event, rest: seq<Event>, categoryFilter: string, groupFilter: string, searchTerm: string)
    ensures FilterEvents([e] + rest, categoryFilter, groupFilter, searchTerm)
      == (if Passes(e, categoryFilter, groupFilter, SearchKey(searchTerm)) then [e] else [])
         + FilterEvents(rest, categoryFilter, groupFilter, searchTerm)
  {
    assert ([e] + rest)[1..] == rest;
  }

  /** The filtered events keep their order and are drawn from the input. */
  lemma FilterIsSubsequence(events: seq<Event>, categoryFilter: string, groupFilter: string, searchTerm: string)
    ensures IsSubsequence(FilterEvents(events, categoryFilter, groupFilter, searchTerm), events)
  {
    var term := SearchKey(searchTerm);
    SelectIsSubsequence(events, e => Passes(e, categoryFilter, groupFilter, term));
  }

  /** An event is kept, as often as it occurs, exactly when all three conditions hold. */
  lemma FilterKeeps(events: seq<Event>, categoryFilter: string, groupFilter: string, searchTerm: string, e: Event)
    ensures var r := FilterEvents(events, categoryFilter, groupFilter, searchTerm);
      && (e in r <==> e in events && Passes(e, categoryFilter, groupFilter, SearchKey(searchTerm)))
      && multiset(r)[e] == if Passes(e, categoryFilter, groupFilter, SearchKey(searchTerm)) then multiset(events)[e] else 0
  {
    var term := SearchKey(searchTerm);
    SelectCounts(events, e => Passes(e, categoryFilter, groupFilter, term), e);
  }

  /** "All", "All" and a blank search term keep every event. */
  lemma FilterNothing(events: seq<Event>, searchTerm: string)
    requires AllWhitespace(searchTerm)
    ensures FilterEvents(events, All, All, searchTerm) == events
  {
    TrimBlank(searchTerm);
    SelectAll(events, e => Passes(e, All, All, SearchKey(searchTerm)));
  }

  /** Filtering the filtered events again with the same settings changes nothing. */
  lemma FilterIdempotent(events: seq<Event>, categoryFilter: string, groupFilter: string, searchTerm: string)
    ensures var r := FilterEvents(events, categoryFilter, groupFilter, searchTerm);
      FilterEvents(r, categoryFilter, groupFilter, searchTerm) == r
  {
    var term := SearchKey(searchTerm);
    SelectAll(FilterEvents(events, categoryFilter, groupFilter, searchTerm), e => Passes(e, categoryFilter, groupFilter, term));
  }

  /** A search term that matches the title of exactly one event selects that event alone. */
  lemma FilterSingleTitle(events: seq<Event>, searchTerm: string, k: int)
    requires 0 <= k < |events|
    requires SearchKey(searchTerm) != ""
    requires Truthy(events[k].title) && Includes(Lower(events[k].title.value), SearchKey(searchTerm))
    requires forall i :: 0 <= i < |events| && i != k ==>
      !(Truthy(events[i].title) && Includes(Lower(events[i].title.value), SearchKey(searchTerm)))
    ensures FilterEvents(events, All, All, searchTerm) == [events[k]]
  {
    SelectSingle(events, e => Passes(e, All, All, SearchKey(searchTerm)), k);
  }

  /** `events.filter((e) => e.date === key)`. */
  function EventsOn(events: seq<Event>, key: string): seq<Event>
  {
    Select(events, (e: Event) => e.date == key)
  }

  /** The date join likewise proceeds event by event. */
  lemma EventsOnCons(e: Event, rest: seq<Event>, key: string)
    ensures EventsOn([e] + rest, key) == (if e.date == key then [e] else []) + EventsOn(rest, key)
  {
    assert ([e] + rest)[1..] == rest;
  }

  /** `selectedDayEvents`: nothing unless a (truthy) date is selected, else that date's filtered events. */
  function SelectedDayEvents(filtered: seq<Event>, selectedDate: Option<string>): seq<Event>
  {
    if Truthy(selectedDate) then EventsOn(filtered, selectedDate.value) else []
  }

  /**
    With no date selected the side panel list is empty; with one selected
    it holds exactly the events that pass all three filters and fall on that
    date, in input order.
   */
  lemma SelectedDayEventsSpec(events: seq<Event>, categoryFilter: string, groupFilter: string,
                              searchTerm: string, selectedDate: Option<string>)
    ensures var filtered := FilterEvents(events, categoryFilter, groupFilter, searchTerm);
      var term := SearchKey(searchTerm);
      && (selectedDate.None? ==> SelectedDayEvents(filtered, selectedDate) == [])
      && (Truthy(selectedDate) ==>
            SelectedDayEvents(filtered, selectedDate)
            == Select(events, e => Passes(e, categoryFilter, groupFilter, term) && e.date == selectedDate.value))
  {
    if Truthy(selectedDate) {
      var term := SearchKey(searchTerm);
      SelectThenSelect(events, e => Passes(e, categoryFilter, groupFilter, term), (e: Event) => e.date == selectedDate.value,
        e => Passes(e, categoryFilter, groupFilter, term) && e.date == selectedDate.value);
    }
  }

  /** Every event listed for a day is a filtered event on that day. */
  lemma EventsOnMembers(filtered: seq<Event>, key: string, e: Event)
    ensures e in EventsOn(filtered, key) <==> e in filtered && e.date == key
  {
    SelectMembers(filtered, (e: Event) => e.date == key, e);
  }
}
