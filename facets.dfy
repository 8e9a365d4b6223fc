/**
  The facet option lists `categories` and `groups`: "All" followed by the
  truthy labels of the events, each once, in the order first met. The
  source collects them into a `Set` (which keeps insertion order) inside a
  `forEach`; both lists are the same construction over a different field.
 */
module Facets {
  import opened Wrappers
  import opened Events

  datatype Facet = Category | CommunityGroup

  function Label(e: Event, facet: Facet): Option<string>
  {
    match facet
    case Category => e.category
    case CommunityGroup => e.communityGroup
  }

  /** Some event carries label `x` on this facet. */
  predicate Occurs(events: seq<Event>, facet: Facet, x: string)
  {
    exists i :: 0 <= i < |events| && Label(events[i], facet) == Some(x)
  }

  /** Position of the first event that carries label `x`. */
  function FirstEvent(events: seq<Event>, facet: Facet, x: string): (k: nat)
    requires Occurs(events, facet, x)
    ensures k < |events| && Label(events[k], facet) == Some(x)
    ensures forall j :: 0 <= j < k ==> Label(events[j], facet) != Some(x)
  {
    if Label(events[0], facet) == Some(x) then 0
    else
      assert Occurs(events[1..], facet, x) by {
        var i :| 0 <= i < |events| && Label(events[i], facet) == Some(x);
        assert Label(events[1..][i - 1], facet) == Some(x);
      }
      1 + FirstEvent(events[1..], facet, x)
  }

  lemma FirstEventIs(events: seq<Event>, facet: Facet, x: string, k: nat)
    requires k < |events| && Label(events[k], facet) == Some(x)
    requires forall j :: 0 <= j < k ==> Label(events[j], facet) != Some(x)
    ensures Occurs(events, facet, x) && FirstEvent(events, facet, x) == k
  {
  }

  /** The `Set` after `forEach` has visited `events`: each truthy label added in turn, repeats ignored. */
  function Collected(events: seq<Event>, facet: Facet): seq<string>
  {
    if events == [] then []
    else
      var before := Collected(events[..|events| - 1], facet);
      var tag := Label(events[|events| - 1], facet);
      if Truthy(tag) && tag.value !in before then before + [tag.value] else before
  }

  predicate NoDuplicates(s: seq<string>)
  {
    forall i, j :: 0 <= i < j < |s| ==> s[i] != s[j]
  }

  /** An event list grown by one event carries what the shorter list carries, plus the new event's label. */
  lemma OccursExtend(events: seq<Event>, facet: Facet, x: string)
    requires events != []
    ensures Occurs(events, facet, x)
      <==> Occurs(events[..|events| - 1], facet, x) || Label(events[|events| - 1], facet) == Some(x)
  {
    var prefix := events[..|events| - 1];
    if Occurs(events, facet, x) {
      var i :| 0 <= i < |events| && Label(events[i], facet) == Some(x);
      if i < |prefix| {
        assert Label(prefix[i], facet) == Some(x);
      }
    }
    if Occurs(prefix, facet, x) {
      var i :| 0 <= i < |prefix| && Label(prefix[i], facet) == Some(x);
      assert Label(events[i], facet) == Some(x);
    }
  }

  /** Appending an event does not move the first occurrence of a label already present. */
  lemma FirstEventExtend(events: seq<Event>, facet: Facet, x: string)
    requires events != [] && Occurs(events[..|events| - 1], facet, x)
    ensures Occurs(events, facet, x)
    ensures FirstEvent(events, facet, x) == FirstEvent(events[..|events| - 1], facet, x)
  {
    var prefix := events[..|events| - 1];
    var k := FirstEvent(prefix, facet, x);
    assert Label(events[k], facet) == Some(x);
    FirstEventIs(events, facet, x, k);
  }

  /** A label first carried by the last event has its first occurrence there. */
  lemma FirstEventLast(events: seq<Event>, facet: Facet, x: string)
    requires events != [] && !Occurs(events[..|events| - 1], facet, x)
    requires Label(events[|events| - 1], facet) == Some(x)
    ensures Occurs(events, facet, x) && FirstEvent(events, facet, x) == |events| - 1
  {
    var prefix := events[..|events| - 1];
    forall j | 0 <= j < |prefix| ensures Label(events[j], facet) != Some(x) {
      assert events[j] == prefix[j];
    }
    FirstEventIs(events, facet, x, |prefix|);
  }

  /** The set holds exactly the truthy labels some event carries. */
  lemma {:induction false} CollectedMembers(events: seq<Event>, facet: Facet, x: string)
    ensures x in Collected(events, facet) <==> x != "" && Occurs(events, facet, x)
  {
    if events != [] {
      CollectedMembers(events[..|events| - 1], facet, x);
      OccursExtend(events, facet, x);
    }
  }

  /** Each label is in the set once. */
  lemma {:induction false} CollectedNoDuplicates(events: seq<Event>, facet: Facet)
    ensures NoDuplicates(Collected(events, facet))
  {
    if events != [] {
      CollectedNoDuplicates(events[..|events| - 1], facet);
    }
  }

  /** Every label in the set is carried by some event. */
  lemma CollectedOccurs(events: seq<Event>, facet: Facet)
    ensures forall x :: x in Collected(events, facet) ==> Occurs(events, facet, x)
  {
    forall x | x in Collected(events, facet) ensures Occurs(events, facet, x) {
      CollectedMembers(events, facet, x);
    }
  }

  /** The labels appear in the order of first events. */
  predicate InFirstEventOrder(events: seq<Event>, facet: Facet, s: seq<string>)
    requires forall x :: x in s ==> Occurs(events, facet, x)
  {
    forall i, j :: 0 <= i < j < |s| ==> FirstEvent(events, facet, s[i]) < FirstEvent(events, facet, s[j])
  }

  /** The labels are in the order of the first event carrying each. */
  lemma {:induction false} CollectedOrder(events: seq<Event>, facet: Facet)
    ensures forall x :: x in Collected(events, facet) ==> Occurs(events, facet, x)
    ensures InFirstEventOrder(events, facet, Collected(events, facet))
  {
    CollectedOccurs(events, facet);
    if events != [] {
      var prefix := events[..|events| - 1];
      CollectedOrder(prefix, facet);
      CollectedOrderStep(events, prefix, facet);
    }
  }

  /** One more event keeps the order: old labels keep their first events, a new one comes last. */
  lemma CollectedOrderStep(events: seq<Event>, prefix: seq<Event>, facet: Facet)
    requires events != [] && prefix == events[..|events| - 1]
    requires forall x :: x in Collected(prefix, facet) ==> Occurs(prefix, facet, x)
    requires InFirstEventOrder(prefix, facet, Collected(prefix, facet))
    ensures forall x :: x in Collected(events, facet) ==> Occurs(events, facet, x)
    ensures InFirstEventOrder(events, facet, Collected(events, facet))
  {
    CollectedOccurs(events, facet);
    var before := Collected(prefix, facet);
    var tag := Label(events[|events| - 1], facet);
    forall x | x in before ensures Occurs(events, facet, x) && FirstEvent(events, facet, x) == FirstEvent(prefix, facet, x) {
      FirstEventExtend(events, facet, x);
    }
    OrderKept(events, prefix, facet, before);
    if Truthy(tag) && tag.value !in before {
      CollectedMembers(prefix, facet, tag.value);
      FirstEventLast(events, facet, tag.value);
      OrderAppend(events, facet, before, tag.value);
    }
  }

  /** Labels whose first events do not move stay in order. */
  lemma OrderKept(events: seq<Event>, prefix: seq<Event>, facet: Facet, s: seq<string>)
    requires forall x :: x in s ==> Occurs(prefix, facet, x)
    requires forall x :: x in s ==> Occurs(events, facet, x) && FirstEvent(events, facet, x) == FirstEvent(prefix, facet, x)
    requires InFirstEventOrder(prefix, facet, s)
    ensures InFirstEventOrder(events, facet, s)
  {
    forall i, j | 0 <= i < j < |s| ensures FirstEvent(events, facet, s[i]) < FirstEvent(events, facet, s[j]) {
      assert s[i] in s && s[j] in s;
    }
  }

  /** A label whose first event comes after those of all others can be appended in order. */
  lemma OrderAppend(events: seq<Event>, facet: Facet, s: seq<string>, x: string)
    requires forall y :: y in s ==> Occurs(events, facet, y)
    requires Occurs(events, facet, x)
    requires InFirstEventOrder(events, facet, s)
    requires forall y :: y in s ==> FirstEvent(events, facet, y) < FirstEvent(events, facet, x)
    ensures forall y :: y in s + [x] ==> Occurs(events, facet, y)
    ensures InFirstEventOrder(events, facet, s + [x])
  {
    var t := s + [x];
    forall i, j | 0 <= i < j < |t| ensures FirstEvent(events, facet, t[i]) < FirstEvent(events, facet, t[j]) {
      assert t[i] == s[i] && s[i] in s;
      if j < |s| {
        assert t[j] == s[j];
      }
    }
  }

  /**
    `categories` (facet Category) or `groups` (facet CommunityGroup): the
    loop over the events feeding an insertion-ordered set, then "All" in
    front of its elements.
   */
  method FacetOptions(events: seq<Event>, facet: Facet) returns (options: seq<string>)
    ensures |options| >= 1 && options[0] == All
    ensures forall x :: x in options[1..] <==> x != "" && Occurs(events, facet, x)
    ensures NoDuplicates(options[1..])
    ensures forall i, j :: 1 <= i < j < |options| ==>
      FirstEvent(events, facet, options[i]) < FirstEvent(events, facet, options[j])
    ensures options == [All] + Collected(events, facet)
  {
    var seen: seq<string> := [];
    var k := 0;
    while k < |events|
      invariant 0 <= k <= |events|
      invariant seen == Collected(events[..k], facet)
    {
      var tag := Label(events[k], facet);
      if Truthy(tag) && tag.value !in seen {
        seen := seen + [tag.value];
      }
      assert events[..k + 1][..k] == events[..k];
      k := k + 1;
    }
    assert events[..k] == events;
    forall x ensures x in seen <==> x != "" && Occurs(events, facet, x) {
      CollectedMembers(events, facet, x);
    }
    CollectedNoDuplicates(events, facet);
    CollectedOrder(events, facet);
    options := [All] + seen;
    assert options[1..] == seen;
  }
}
