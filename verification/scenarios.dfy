/** Concrete collections worked through the model: a current event with a
    registration link, the same event announced for the future, a skill
    search that ignores case, and an empty collection. */
module Scenarios {
  import opened Options
  import opened Text
  import opened Events
  import opened Subsequences
  import opened Filters
  import opened Search
  import opened Cards
  import opened Views

  const Jo := Speaker("Jo", "p", "http://l", None)
  const Summit := Event("AI Summit", "d", "current", Some("http://x"), 5, Some(["ML"]), Some(Jo))

  /** A current event with a link passes the `current` filter and its card
      offers `Register Now` pointing at that link. */
  lemma CurrentEventOffersRegistration()
    ensures FilterEvents([Summit], "current") == [Summit]
    ensures DisplayEvents([Summit], "current").blocks == [CardBlock(CardFor(Summit).value)]
    ensures CardFor(Summit).value.control == RegisterNow("http://x")
    ensures CardFor(Summit).value.badge == Badge("status-current", "Current")
  {
  }

  /** The same event announced for the future and without a link shows a
      disabled `Coming Soon` control and is hidden by the `current` filter. */
  lemma FutureEventComingSoon()
    ensures var e := Summit.(status := "future", registrationLink := None);
            && ControlFor(e) == ComingSoon
            && FilterEvents([e], "current") == []
            && DisplayEvents([e], "current").blocks == [Notice(NoEventsTitle, NoEventsBody)]
  {
    var e := Summit.(status := "future", registrationLink := None);
    assert !HasStatus(e, "current");
  }

  const Tagged := Summit.(skills := Some(["NLP"]))
  const Other := Event("Go", "x", "past", None, 0, Some(["Web"]), Some(Jo))

  /** The raw input ` NLP` is searched for as `nlp`. */
  lemma NormalizesToLowerTrimmed()
    ensures NormalizeQuery(" NLP") == "nlp"
  {
    assert Lower(" NLP") == " nlp";
    assert SpaceRunFrom(" nlp", 0) == 1;
    assert SpaceRunBack(" nlp", 1, 4) == 4;
  }

  /** The event tagged `NLP` matches `nlp` through its skill. */
  lemma TaggedMatches()
    ensures Matches(Tagged, "nlp")
  {
    assert Lower("NLP") == "nlp";
    assert IsPrefix("nlp", Lower("NLP"));
    assert AnySkillContains(["NLP"], "nlp");
  }

  /** The other event mentions `nlp` in none of its fields. */
  lemma OtherMisses()
    ensures !Matches(Other, "nlp")
  {
    var q := "nlp";
    assert Lower("Web") == "web";
    assert !IsPrefix(q, "web");
    NotContainsLonger("eb", q);
    assert "web"[1..] == "eb";
    assert !Contains("web", q);
    assert !AnySkillContains(["Web"], q);
    NotContainsLonger(Lower("Go"), q);
    NotContainsLonger(Lower("Jo"), q);
    NotContainsLonger(Lower("x"), q);
  }

  /** Searching for `nlp` finds the event tagged `NLP` and not the other one. */
  lemma SkillSearchIgnoresCase()
    ensures SearchEvents([Tagged, Other], "nlp") == [Tagged]
  {
    TaggedMatches();
    OtherMisses();
    var p := (e: Event) => Matches(e, "nlp");
    KeepCons(Other, [], p);
    KeepCons(Tagged, [Other], p);
    assert [Tagged, Other] == [Tagged] + [Other];
  }

  /** An empty collection shows the "No events found" notice, not an empty
      container. */
  lemma EmptyCollectionShowsNotice()
    ensures DisplayEvents([], "all") == Screen([Notice("No events found",
      "There are no events available for the selected filter. Please try another category.")], true)
  {
  }
}
