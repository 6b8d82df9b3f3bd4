/** The status filter applied when a filter button is clicked (the `switch`
    at the top of `displayEvents`). */
module Filters {
  import opened Options
  import opened Events
  import opened Subsequences

  /** The status a filter key selects, or None for `all` and for every key the
      `switch` does not name (its `default` branch). */
  function KeyStatus(key: string): (s: Option<string>)
    ensures s.Some? <==> key == "current" || key == "upcoming" || key == "past"
    ensures s.Some? ==> KnownStatus(s.value)
    ensures key == "upcoming" ==> s == Some("future")
    ensures key == "current" || key == "past" ==> s == Some(key)
  {
    if key == "current" then Some("current")
    else if key == "upcoming" then Some("future")
    else if key == "past" then Some("past")
    else None
  }

  predicate HasStatus(e: Event, status: string) {
    e.status == status
  }

  /** The events shown for filter `key`, in their original order. */
  function FilterEvents(es: seq<Event>, key: string): (r: seq<Event>)
    ensures key == "current" ==> forall e :: e in r <==> e in es && e.status == "current"
    ensures key == "upcoming" ==> forall e :: e in r <==> e in es && e.status == "future"
    ensures key == "past" ==> forall e :: e in r <==> e in es && e.status == "past"
    ensures KeyStatus(key).None? ==> r == es
    ensures forall e :: multiset(r)[e] <= multiset(es)[e]
    ensures IsSubsequence(r, es)
  {
    match KeyStatus(key)
    case None =>
      assert IsSubsequence(es, es) by { SubsequenceReflexive(es); }
      es
    case Some(status) =>
      var p := (e: Event) => HasStatus(e, status);
      KeepIsSubsequence(es, p);
      Keep(es, p)
  }

  /** For the three status keys the filter result is exactly determined: any
      order-preserving selection from `es` of events with the selected status
      that is at least as long as the filter result IS the filter result. */
  lemma FilterSelectsExactly(es: seq<Event>, key: string, r: seq<Event>)
    requires KeyStatus(key).Some?
    requires IsSubsequence(r, es)
    requires forall i :: 0 <= i < |r| ==> r[i].status == KeyStatus(key).value
    requires |r| >= |FilterEvents(es, key)|
    ensures r == FilterEvents(es, key)
  {
    var status := KeyStatus(key).value;
    KeepUnique(r, es, (e: Event) => HasStatus(e, status));
  }

  /** The three status filters and the events with an unrecognised status
      split the collection: every event lands in exactly one part, as often as
      it occurs. */
  lemma FilterPartition(es: seq<Event>)
    ensures multiset(FilterEvents(es, "current")) + multiset(FilterEvents(es, "upcoming"))
            + multiset(FilterEvents(es, "past"))
            + multiset(Keep(es, (e: Event) => !KnownStatus(e.status)))
            == multiset(es)
  {
    var c := FilterEvents(es, "current");
    var u := FilterEvents(es, "upcoming");
    var p := FilterEvents(es, "past");
    var o := Keep(es, (e: Event) => !KnownStatus(e.status));
    assert c == Keep(es, (e: Event) => HasStatus(e, "current"));
    assert u == Keep(es, (e: Event) => HasStatus(e, "future"));
    assert p == Keep(es, (e: Event) => HasStatus(e, "past"));
    forall e | true
      ensures (multiset(c) + multiset(u) + multiset(p) + multiset(o))[e] == multiset(es)[e]
    {
      var m := multiset(es)[e];
      assert multiset(c)[e] == if e.status == "current" then m else 0;
      assert multiset(u)[e] == if e.status == "future" then m else 0;
      assert multiset(p)[e] == if e.status == "past" then m else 0;
      assert multiset(o)[e] == if KnownStatus(e.status) then 0 else m;
    }
  }

  /** The `all` key and every unrecognised key show the same thing. */
  lemma UnknownKeyShowsAll(es: seq<Event>, key: string)
    requires KeyStatus(key).None?
    ensures FilterEvents(es, key) == FilterEvents(es, "all") == es
  {
  }
}
