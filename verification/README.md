# Events page: filter, search and card decisions

This project models the decision logic of the events page script
(`js/events.js`). The page lists talks from a JSON collection of event
records. It can narrow the list by status with filter buttons, or by free text
with a search box. Each event is drawn as a card with a status badge and a
registration control. The model keeps only what the page *selects*:

- which events are shown, in which order;
- which notice or summary line is shown;
- which badge, control and portrait each card gets.

Markup, listeners and the network are not modelled.

Modules, one per concern:

- `Options` — absent JSON fields, plus JavaScript truthiness of an optional string.
- `Text` — the string operations the page uses:
  - `toLowerCase` (ASCII letters only) and `trim`, using the ECMAScript white-space set;
  - `includes`, proved equal to "occurs at some index";
  - the decimal spelling of a count, with a parser and a round-trip lemma.
- `Subsequences` — `Array.prototype.filter` as `Keep`.
  - The result is a subsequence of the input.
  - It holds exactly the elements that satisfy the predicate, with their multiplicities.
  - It is the only such subsequence of its length.
- `Events` — the event record. `status` stays a raw string. `skills`, `speaker`,
  `registrationLink` and `speaker.image` are optional.
- `Filters` — the `switch` in `displayEvents`.
  - `current`, `upcoming` and `past` keep the events whose status is
    `current`, `future` and `past`.
  - `all` and every other key keep everything.
- `Search` — the search term (lower-cased, then trimmed) and the `filter`
  callback of `performSearch`. An event matches exactly when the term occurs
  in one of its searched fields.
- `Cards` — the decisions in `createEventCard`: the badge, the registration
  control, the speaker portrait, and whether a card can be drawn at all.
- `Views` — the blocks put into the events container.
  - `displayEvents` shows the filtered cards, or the "No events found" notice.
  - `displaySearchResults` shows the "Found N event(s) matching "q"" line and
    the cards, or the "No matching events found" notice.
  - `performSearch` falls back to the active filter (or `all`) when the input
    is only white space.
- `Scenarios` — concrete collections worked through the model.

The page guards against a missing `speaker` and missing `skills` when it
searches (`js/events.js:231`, `js/events.js:236`). `createEventCard` does not:
it maps over `skills` (line 157) and reads `speaker.name` (line 184)
unconditionally. The model keeps that difference. `CardFor` yields no card for
such an event. `RenderCards` stops there with `complete == false`, and the cards
appended before it stay in place. This is what a `forEach` whose callback throws
leaves in the container on a filter click or a search. On the first load the
same throw rejects the promise chain of `fetchEvents` (lines 23-31), whose
`catch` replaces the container with the "Error loading events" notice; that is
`FirstLoad`.

Three details of the code that the model follows as written:

- The search term is lower-cased first and trimmed second.
- A status other than the three known ones is accepted. Its badge is empty
  and its control is `Closed`.
- With no active filter button, an empty search shows the `all` view.

## Model

| member | source | states |
|---|---|---|
| Text.Lower | js/events.js:214 | lower-casing keeps the length and folds each character on its own, position by position |
| Text.LowerCharFolds | js/events.js:214 | the fold maps `A`..`Z` letter for letter onto `a`..`z` and keeps every other character |
| Text.LowerIdempotent | js/events.js:214 | lower-casing a lower-cased string changes nothing |
| Text.LowerKeepsSpace | js/events.js:214-215 | lower-casing neither creates nor removes white space, so a blank input stays blank |
| Text.Trim | js/events.js:214 | the trimmed term is a slice of the input framed only by white space, and it neither starts nor ends with white space |
| Text.TrimEmptyIffAllSpace | js/events.js:215 | trimming yields the empty string exactly when the input is all white space |
| Text.TrimIdempotent | js/events.js:214 | trimming twice is trimming once |
| Text.Contains | js/events.js:226 | `includes` holds only for a term no longer than the text, and always for the empty term |
| Text.ContainsIffOccurs | js/events.js:226 | the recursive `includes` holds exactly when the term occurs at some index of the text |
| Text.NotContainsLonger | js/events.js:226 | a text never includes a longer term |
| Text.ContainsInfix | js/events.js:283 | a text includes any string placed inside it |
| Text.Decimal | js/events.js:287 | a count is spelled as a non-empty run of digits without a leading zero |
| Text.ParseDecimalOfDecimal | js/events.js:287 | reading the spelled count back gives the count |
| Text.DecimalInjective | js/events.js:287 | different counts are spelled differently |
| Subsequences.Keep | js/events.js:224-246 | `filter` keeps exactly the elements satisfying the callback, each as often as it occurs, adds nothing, and returns the input when every element passes |
| Subsequences.KeepIsSubsequence | js/events.js:47 | `filter` preserves the original relative order |
| Subsequences.KeepUnique | js/events.js:47-53 | any order-preserving selection of passing elements at least as long as the `filter` result equals it |
| Filters.KeyStatus | js/events.js:45-57 | exactly the keys `current`, `upcoming` and `past` select a status, always a known one: `current`, `future` and `past` respectively; every other key selects none |
| Filters.FilterEvents | js/events.js:45-57 | `current`, `upcoming` and `past` keep exactly the events whose status is `current`, `future` and `past`; every other key, `all` included, returns the collection unchanged; the result is an ordered subsequence |
| Filters.FilterSelectsExactly | js/events.js:45-54 | for a status key, the filter result is the unique longest order-preserving selection of events with that status |
| Filters.FilterPartition | js/events.js:45-54 | the three status filters and the events of unknown status together hold every event exactly as often as the collection does |
| Filters.UnknownKeyShowsAll | js/events.js:55-57 | a key the `switch` does not name shows the same events as `all`, namely the whole collection |
| Search.NormalizeQuery | js/events.js:214-215 | the lower-cased input is white space, then the search term, then white space, and the term neither starts nor ends with white space; the term is empty exactly when the input is all white space; it is already lower-case |
| Search.TrimOfLowerIsLower | js/events.js:214 | trimming a lower-cased input leaves it lower-case |
| Search.AnySkillContains | js/events.js:236 | `some` over the skills holds exactly when some lower-cased skill includes the term |
| Search.Matches | js/events.js:224-246 | the callback accepts an event exactly when the term occurs in the lower-cased form of one of its searched fields: event name, speaker name (if there is a speaker), each skill (if there are skills), description |
| Search.FieldChecksIffSomeField | js/events.js:226-241 | the four checks of the callback, taken together, hold exactly when some searched field contains the term |
| Search.MatchesIffSomeField | js/events.js:224-246 | the callback accepts an event exactly when the term occurs in the lower-cased event name, speaker name (if there is a speaker), some skill (if there are skills) or description |
| Search.SearchEvents | js/events.js:224-246 | the search keeps exactly the matching events, each as often as it occurs, as an ordered subsequence of the collection |
| Search.SearchMembership | js/events.js:224-246 | an event of the collection is in the result exactly when one of its searched fields contains the term |
| Search.SearchSelectsExactly | js/events.js:224-246 | the search result is the unique longest order-preserving selection of matching events |
| Cards.BadgeFor | js/events.js:121-137 | a known status gets the class `status-<status>`, with the caption `Current` for `current`, `Past` for `past` and `Upcoming` for `future`; any other status gets an empty class and caption |
| Cards.BadgesDistinct | js/events.js:124-137 | distinct known statuses never share a badge class or label |
| Cards.ControlFor | js/events.js:142-154 | `Register Now` to the event's own link exactly when the status is `current` and the link is non-empty; `Coming Soon` exactly when the status is `future`; `Closed` in every other case |
| Cards.ControlAgreesWithBadge | js/events.js:121-154 | an open registration sits under a `Current` badge, `Coming Soon` exactly under `Upcoming`, and `Past` or unlabelled badges come with `Closed` |
| Cards.PortraitFor | js/events.js:162-167 | the speaker's photo, with the speaker's name as alternative text, exactly when a non-empty image is given; otherwise the generic glyph |
| Cards.CardFor | js/events.js:156-203 | a card exists exactly when the event has a speaker and skills; it carries the event's title, description, speaker name, profile and LinkedIn links, the speaker's portrait, skills in order, registrations, badge and control |
| Views.RenderCards | js/events.js:64-66 | the container holds the cards of the events in order, up to the first event that cannot be drawn; rendering completes exactly when all were drawn |
| Views.RenderCompleteIffRenderable | js/events.js:64-66 | rendering completes exactly when every event has a speaker and skills |
| Views.DisplayEvents | js/events.js:39-66 | an empty filter result gives only the "No events found" notice; otherwise the filtered events' cards; a completed screen is never empty |
| Views.FirstLoad | js/events.js:23-31 | the first display is the `all` view when every event can be drawn; when some event cannot be drawn, the container holds only the "Error loading events" notice |
| Views.DisplayEventsCards | js/events.js:59-66 | with drawable events, the notice appears exactly when the filter selects nothing, and otherwise there is one card per filtered event in order |
| Views.FilteredCardsAgreeWithKey | js/events.js:45-154 | every card under a status filter has that status's badge; `upcoming` cards say `Coming Soon`, `past` cards say `Closed`, `current` cards register or are closed |
| Views.ResultsHeader | js/events.js:287 | the summary line reads `Found 1 event matching "q"` for one result and `Found N events matching "q"` for any other count |
| Views.ParseResultsHeader | js/events.js:287 | the summary line can be read back into its count and term |
| Views.ParseTermOf | js/events.js:287 | the words after the count read back the term, given the count |
| Views.ParseCountAndTermOf | js/events.js:287 | the part after `Found ` reads back the count and the term |
| Views.ResultsHeaderInjective | js/events.js:287 | different counts or terms never produce the same summary line |
| Views.DisplaySearchResults | js/events.js:268-295 | no results give an empty summary line and the "No matching events found" notice for the term; otherwise the summary line for the result count and then the result cards in order |
| Views.NoMatchesBody | js/events.js:281-284 | the no-match notice text includes the searched term in double quotes |
| Views.NoMatchesNamesQuery | js/events.js:281-284 | the no-match notice quotes the searched term |
| Views.PerformSearch | js/events.js:213-249 | a white-space-only input re-displays the active filter's key, or `all` without one; any other input shows the search results for the lower-cased, trimmed term |
| Views.EmptySearchWithoutFilterShowsAll | js/events.js:215-220 | with no active filter button, an empty search shows every event's card in order, or the notice for an empty collection |
| Views.SearchScreenCards | js/events.js:224-294 | a non-empty search over drawable events shows the notice when nothing matches, and otherwise the summary line followed by one card per matching event in collection order |
| Scenarios.CurrentEventOffersRegistration | js/events.js:142-145 | a current event with a link passes the `current` filter and its card offers `Register Now` to that link under a `Current` badge |
| Scenarios.FutureEventComingSoon | js/events.js:146-149 | a future event without a link shows `Coming Soon` and leaves the `current` filter empty |
| Scenarios.NormalizesToLowerTrimmed | js/events.js:214 | the input ` NLP` is searched as `nlp` |
| Scenarios.TaggedMatches | js/events.js:236 | an event tagged `NLP` matches `nlp` |
| Scenarios.OtherMisses | js/events.js:224-246 | an event without `nlp` in any field does not match |
| Scenarios.SkillSearchIgnoresCase | js/events.js:224-246 | searching `nlp` over the two events returns only the tagged one |
| Scenarios.EmptyCollectionShowsNotice | js/events.js:59-61 | an empty collection under `all` shows the "No events found" notice |

## Left out

- Fetching and parsing the JSON document (`fetchEvents`): network I/O. The
  collection is a parameter. A failed request or a malformed document also
  ends in the "Error loading events" notice; only the rendering failure after
  a successful fetch is modelled, by `FirstLoad`.
- HTML markup, `innerHTML` and `appendChild`, and the lack of escaping of
  inserted text. Cards are modelled as values of their selected contents.
- Listener wiring: both `DOMContentLoaded` handlers and both `setupFilters`
  definitions, whose hoisting makes the second one win. Both handlers also call
  `fetchEvents`, so the collection is requested twice and the `all` view is
  drawn once per response; a filter clicked between the two responses is
  overwritten by the second draw. The model describes one draw. A screen is a pure function of the collection and key, so
  running a handler twice draws the same screen.
- Toggling the `active` class on filter buttons and clearing the search box on
  a filter click. These are UI state. The active button's key is a parameter
  of `PerformSearch`. `None` stands for "no active button" and for a button
  without a `data-filter` attribute, both of which reach the `all` view.
- The failure when a search runs before the collection has loaded: a
  JavaScript runtime error. `PerformSearch` takes a loaded collection.
- Fields that are missing other than `skills`, `speaker`, `registrationLink`
  and `speaker.image`, and fields of the wrong JSON type. The page does not
  handle these, and the model gives every other field its expected type.
- Text.Lower: folds only the ASCII letters A–Z. `toLowerCase` applies full
  Unicode case mapping, which is not modelled.
- `js/main.js` (menu, smooth scrolling, header shadow): browser glue unrelated
  to the events list.
