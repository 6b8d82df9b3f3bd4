/** What ends up in the events container: `displayEvents`,
    `displaySearchResults` and the search entry point `performSearch`. A
    screen is the sequence of blocks appended to the container, in order. */
module Views {
  import opened Options
  import opened Text
  import opened Events
  import opened Subsequences
  import opened Filters
  import opened Search
  import opened Cards

  /** A block in the container: a titled notice (`createNoEventsMessage`), the
      search summary line, or an event card. */
  datatype Block = Notice(title: string, body: string) | Info(text: string) | CardBlock(card: Card)

  /** The blocks appended, and whether rendering ran to the end. Rendering
      stops at the first event the card renderer throws on, leaving the cards
      appended before it in place. */
  datatype Screen = Screen(blocks: seq<Block>, complete: bool)

  const NoEventsTitle := "No events found"
  const NoEventsBody := "There are no events available for the selected filter. Please try another category."
  const NoMatchesTitle := "No matching events found"

  const NoMatchesLead := "We couldn't find any events matching "
  const NoMatchesTail := ". Please try a different search term."

  /** The notice text naming the term, quoted, that found nothing. */
  function NoMatchesBody(q: string): (b: string)
    ensures Contains(b, "\"" + q + "\"")
  {
    Regroup(NoMatchesLead, "\"", q, "\"", NoMatchesTail);
    ContainsInfix(NoMatchesLead, "\"" + q + "\"", NoMatchesTail);
    NoMatchesLead + "\"" + q + "\"" + NoMatchesTail
  }

  /** `events.forEach(e => container.appendChild(createEventCard(e)))`: one
      card per event, in order, up to the first event that cannot be drawn. */
  function RenderCards(es: seq<Event>): (r: Screen)
    ensures |r.blocks| <= |es|
    ensures forall i :: 0 <= i < |r.blocks| ==>
              CardFor(es[i]).Some? && r.blocks[i] == CardBlock(CardFor(es[i]).value)
    ensures r.complete <==> |r.blocks| == |es|
    ensures !r.complete ==> CardFor(es[|r.blocks|]).None?
  {
    if |es| == 0 then Screen([], true)
    else
      match CardFor(es[0])
      case None => Screen([], false)
      case Some(c) =>
        var rest := RenderCards(es[1..]);
        Screen([CardBlock(c)] + rest.blocks, rest.complete)
  }

  /** Rendering completes exactly when every event can be drawn. */
  lemma RenderCompleteIffRenderable(es: seq<Event>)
    ensures RenderCards(es).complete <==> forall i :: 0 <= i < |es| ==> Renderable(es[i])
  {
    var r := RenderCards(es);
    if !r.complete {
      assert !Renderable(es[|r.blocks|]);
    }
  }

  /** `displayEvents(events, key)`: the "No events found" notice when the
      filter selects nothing, otherwise the cards of the filtered events in
      their original order. */
  function DisplayEvents(es: seq<Event>, key: string): (r: Screen)
    ensures |FilterEvents(es, key)| == 0 ==> r == Screen([Notice(NoEventsTitle, NoEventsBody)], true)
    ensures |FilterEvents(es, key)| > 0 ==> r == RenderCards(FilterEvents(es, key))
    ensures r.complete ==> |r.blocks| > 0
  {
    var f := FilterEvents(es, key);
    if |f| == 0 then Screen([Notice(NoEventsTitle, NoEventsBody)], true)
    else RenderCards(f)
  }

  const LoadErrorTitle := "Error loading events"
  const LoadErrorBody := "There was a problem loading the events data. Please try again later."

  /** The first display after a successful fetch: `displayEvents(data, 'all')`
      runs inside the promise chain, so when the card renderer throws, the
      chain's `catch` replaces the container with the loading-error notice. */
  function FirstLoad(es: seq<Event>): (r: Screen)
    ensures r.complete
    ensures r.blocks == [Notice(LoadErrorTitle, LoadErrorBody)] <==>
            exists i :: 0 <= i < |es| && !Renderable(es[i])
    ensures (forall i :: 0 <= i < |es| ==> Renderable(es[i])) ==> r == DisplayEvents(es, "all")
  {
    var shown := DisplayEvents(es, "all");
    RenderCompleteIffRenderable(es);
    if shown.complete then shown else Screen([Notice(LoadErrorTitle, LoadErrorBody)], true)
  }

  /** When every event can be drawn, a filter shows one card per event of the
      collection with the selected status, in the collection's order, and the
      notice exactly when there is none. */
  lemma DisplayEventsCards(es: seq<Event>, key: string)
    requires forall i :: 0 <= i < |es| ==> Renderable(es[i])
    ensures var f := FilterEvents(es, key);
            var r := DisplayEvents(es, key);
            && r.complete
            && (|f| == 0 <==> r.blocks == [Notice(NoEventsTitle, NoEventsBody)])
            && (|f| > 0 ==>
                  && |r.blocks| == |f|
                  && forall i :: 0 <= i < |f| ==> r.blocks[i] == CardBlock(CardFor(f[i]).value))
  {
    var f := FilterEvents(es, key);
    assert forall e :: e in f ==> e in es;
    RenderCompleteIffRenderable(f);
  }

  /** Every card shown under a status filter carries that status's badge and
      the control that status allows: `Coming Soon` under `upcoming`, `Closed`
      under `past`, and under `current` an open registration exactly when the
      event has a link. */
  lemma FilteredCardsAgreeWithKey(es: seq<Event>, key: string)
    requires KeyStatus(key).Some?
    ensures var blocks := DisplayEvents(es, key).blocks;
            forall i :: 0 <= i < |blocks| && blocks[i].CardBlock? ==>
              && blocks[i].card.badge == BadgeFor(KeyStatus(key).value)
              && (key == "upcoming" ==> blocks[i].card.control == ComingSoon)
              && (key == "past" ==> blocks[i].card.control == Closed)
              && (key == "current" ==> (blocks[i].card.control.RegisterNow? || blocks[i].card.control == Closed))
  {
    var f := FilterEvents(es, key);
    var status := KeyStatus(key).value;
    if |f| > 0 {
      var blocks := RenderCards(f).blocks;
      forall i | 0 <= i < |blocks|
        ensures blocks[i].card.badge == BadgeFor(status)
        ensures blocks[i].card.control == ControlFor(f[i])
        ensures f[i].status == status
      {
        assert f[i] in f;
      }
    }
  }

  /** The summary line above search results: `event` for exactly one
      result, `events` for any other count. */
  function ResultsHeader(n: nat, q: string): (h: string)
    ensures n == 1 ==> h == "Found 1 event matching \"" + q + "\""
    ensures n != 1 ==> h == "Found " + Decimal(n) + " events matching \"" + q + "\""
  {
    "Found " + Decimal(n) + " event" + Plural(n) + " matching \"" + q + "\""
  }

  /** Reads a summary line back into its count and search term, accepting only
      a count whose noun agrees with it (`event` for one, `events` otherwise). */
  function ParseHeader(h: string): Option<(nat, string)> {
    if IsPrefix("Found ", h) then ParseCountAndTerm(h[6..]) else None
  }

  /** Reads `N event(s) matching "q"`, the part after `Found `. */
  function ParseCountAndTerm(rest: string): Option<(nat, string)> {
    var k := DigitRun(rest);
    if k == 0 then None
    else
      var n := ParseDecimal(rest[..k]);
      ParseTerm(n, rest[k..])
  }

  /** Reads ` event(s) matching "q"` given the count `n` already read. */
  function ParseTerm(n: nat, tail: string): Option<(nat, string)> {
    var noun := Noun(n);
    if IsPrefix(noun, tail) && |tail| > |noun| && tail[|tail| - 1] == '"'
    then Some((n, tail[|noun|..|tail| - 1]))
    else None
  }

  /** The plural ending of the noun: none for exactly one event. */
  function Plural(n: nat): string {
    if n != 1 then "s" else ""
  }

  /** The words between the count and the term, agreeing with the count. */
  function Noun(n: nat): string {
    " event" + Plural(n) + " matching \""
  }

  lemma ParseTermOf(n: nat, q: string)
    ensures ParseTerm(n, Noun(n) + q + "\"") == Some((n, q))
  {
    var noun := Noun(n);
    var tail := noun + q + "\"";
    assert tail[..|noun|] == noun;
    assert tail[|noun|..|tail| - 1] == q;
  }

  lemma ParseCountAndTermOf(n: nat, q: string)
    ensures ParseCountAndTerm(Decimal(n) + (Noun(n) + q + "\"")) == Some((n, q))
  {
    var d := Decimal(n);
    var tail := Noun(n) + q + "\"";
    var rest := d + tail;
    assert tail[0] == ' ';
    DigitRunOfDigitsThen(d, tail);
    assert rest[..|d|] == d;
    assert rest[|d|..] == tail;
    ParseDecimalOfDecimal(n);
    ParseTermOf(n, q);
  }

  /** The summary line states the count, with a noun that agrees with it, and
      the search term: both can be read back from it. */
  lemma ParseResultsHeader(n: nat, q: string)
    ensures ParseHeader(ResultsHeader(n, q)) == Some((n, q))
  {
    var h := ResultsHeader(n, q);
    var d := Decimal(n);
    var rest := d + (Noun(n) + q + "\"");
    assert h == "Found " + rest by {
      SplitHeader(d, Plural(n), q);
    }
    PrefixAndRest("Found ", rest);
    ParseCountAndTermOf(n, q);
  }

  /** Regrouping of the summary line's pieces. */
  lemma SplitHeader(d: string, p: string, q: string)
    ensures "Found " + d + " event" + p + " matching \"" + q + "\""
            == "Found " + (d + ((" event" + p + " matching \"") + q + "\""))
  {
  }

  lemma PrefixAndRest(a: string, b: string)
    ensures IsPrefix(a, a + b) && (a + b)[|a|..] == b
  {
    assert (a + b)[..|a|] == a;
  }

  /** Different counts or terms never give the same summary line. */
  lemma ResultsHeaderInjective(n1: nat, q1: string, n2: nat, q2: string)
    requires ResultsHeader(n1, q1) == ResultsHeader(n2, q2)
    ensures n1 == n2 && q1 == q2
  {
    ParseResultsHeader(n1, q1);
    ParseResultsHeader(n2, q2);
  }

  /** `displaySearchResults(results, q)`: an empty summary line and the
      "No matching events found" notice naming the term when nothing matched,
      otherwise the summary line followed by the cards of the results. */
  function DisplaySearchResults(results: seq<Event>, q: string): (r: Screen)
    ensures |results| == 0 ==>
              r == Screen([Info(""), Notice(NoMatchesTitle, NoMatchesBody(q))], true)
    ensures |results| > 0 ==>
              && |r.blocks| >= 1
              && r.blocks[0] == Info(ResultsHeader(|results|, q))
              && Screen(r.blocks[1..], r.complete) == RenderCards(results)
  {
    if |results| == 0 then
      Screen([Info(""), Notice(NoMatchesTitle, NoMatchesBody(q))], true)
    else
      var cards := RenderCards(results);
      Screen([Info(ResultsHeader(|results|, q))] + cards.blocks, cards.complete)
  }

  /** The "No matching events found" notice quotes the term searched for. */
  lemma NoMatchesNamesQuery(q: string)
    ensures Contains(NoMatchesBody(q), "\"" + q + "\"")
  {
  }

  lemma Regroup(a: string, b: string, c: string, d: string, e: string)
    ensures a + b + c + d + e == a + (b + c + d) + e
  {
  }

  /** `performSearch` with the raw input text and the key of the active filter
      button (None when no button is active or it has no key). An input of
      only white space re-displays the active filter, or `all`; any other
      input shows the search results for its normalised form. */
  function PerformSearch(es: seq<Event>, raw: string, active: Option<string>): (r: Screen)
    ensures AllSpace(raw) ==> r == DisplayEvents(es, active.GetOr("all"))
    ensures !AllSpace(raw) ==>
              r == DisplaySearchResults(SearchEvents(es, NormalizeQuery(raw)), NormalizeQuery(raw))
  {
    var q := NormalizeQuery(raw);
    if q == "" then DisplayEvents(es, active.GetOr("all"))
    else DisplaySearchResults(SearchEvents(es, q), q)
  }

  /** With no active filter button, an empty search shows every event. */
  lemma EmptySearchWithoutFilterShowsAll(es: seq<Event>, raw: string)
    requires AllSpace(raw)
    requires forall i :: 0 <= i < |es| ==> Renderable(es[i])
    ensures |es| == 0 ==> PerformSearch(es, raw, None).blocks == [Notice(NoEventsTitle, NoEventsBody)]
    ensures |es| > 0 ==> PerformSearch(es, raw, None).blocks
                         == seq(|es|, i requires 0 <= i < |es| => CardBlock(CardFor(es[i]).value))
  {
    DisplayEventsCards(es, "all");
  }

  /** A non-empty search shows, after the summary line, one card per matching
      event in collection order; with no match it shows the notice naming the
      term. */
  lemma SearchScreenCards(es: seq<Event>, raw: string)
    requires !AllSpace(raw)
    requires forall i :: 0 <= i < |es| ==> Renderable(es[i])
    ensures var q := NormalizeQuery(raw);
            var hits := SearchEvents(es, q);
            var r := PerformSearch(es, raw, None);
            && r.complete
            && (|hits| == 0 ==> r.blocks == [Info(""), Notice(NoMatchesTitle, NoMatchesBody(q))])
            && (|hits| > 0 ==>
                  && r.blocks[0] == Info(ResultsHeader(|hits|, q))
                  && |r.blocks| == |hits| + 1
                  && forall i :: 0 <= i < |hits| ==>
                       && hits[i] in es && Matches(hits[i], q)
                       && r.blocks[i + 1] == CardBlock(CardFor(hits[i]).value))
  {
    var q := NormalizeQuery(raw);
    var hits := SearchEvents(es, q);
    forall i | 0 <= i < |hits|
      ensures hits[i] in es && Matches(hits[i], q) && Renderable(hits[i])
    {
      assert hits[i] in hits;
    }
    SearchResultsCards(hits, q);
  }

  /** With drawable results, the search screen is complete: the notice when
      there are none, otherwise the summary line and one card per result. */
  lemma SearchResultsCards(hits: seq<Event>, q: string)
    requires forall i :: 0 <= i < |hits| ==> Renderable(hits[i])
    ensures var r := DisplaySearchResults(hits, q);
            && r.complete
            && (|hits| == 0 ==> r.blocks == [Info(""), Notice(NoMatchesTitle, NoMatchesBody(q))])
            && (|hits| > 0 ==>
                  && r.blocks[0] == Info(ResultsHeader(|hits|, q))
                  && |r.blocks| == |hits| + 1
                  && forall i :: 0 <= i < |hits| ==> r.blocks[i + 1] == CardBlock(CardFor(hits[i]).value))
  {
    RenderCompleteIffRenderable(hits);
    var r := DisplaySearchResults(hits, q);
    if |hits| > 0 {
      forall i | 0 <= i < |hits|
        ensures r.blocks[i + 1] == CardBlock(CardFor(hits[i]).value)
      {
        assert r.blocks[1..][i] == r.blocks[i + 1];
      }
    }
  }
}
