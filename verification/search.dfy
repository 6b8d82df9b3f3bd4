/** Free-text search over the events collection (the callback handed to
    `filter` inside `performSearch`). */
module Search {
  import opened Options
  import opened Text
  import opened Events
  import opened Subsequences

  /** The search term as `performSearch` derives it from the input box:
      lower-cased, then trimmed. The lower-cased input is white space, then the
      term, then white space, and the term neither starts nor ends with white
      space; it is empty exactly when the input is blank, and it is already
      lower-case. */
  function NormalizeQuery(raw: string): (q: string)
    ensures Framed(Lower(raw), TrimOffset(Lower(raw)), q)
    ensures q == [] <==> AllSpace(raw)
    ensures Lower(q) == q
  {
    var l := Lower(raw);
    TrimFramed(l);
    NormalizeEmptyIffBlank(raw);
    TrimOfLowerIsLower(raw);
    Trim(l)
  }

  /** The term is empty exactly when the input is blank. */
  lemma NormalizeEmptyIffBlank(raw: string)
    ensures Trim(Lower(raw)) == [] <==> AllSpace(raw)
  {
    LowerKeepsSpace(raw);
    TrimEmptyIffAllSpace(Lower(raw));
  }

  /** Trimming a lower-cased string leaves a lower-cased string. */
  lemma TrimOfLowerIsLower(raw: string)
    ensures Lower(Trim(Lower(raw))) == Trim(Lower(raw))
  {
    var l := Lower(raw);
    var r := Trim(l);
    forall k | 0 <= k < |r| ensures !IsUpper(r[k]) {
      assert r[k] == l[TrimOffset(l) + k];
    }
    LowerOfLowerCase(r);
  }

  /** `skills.some(skill => skill.toLowerCase().includes(q))`. */
  function AnySkillContains(skills: seq<string>, q: string): (b: bool)
    ensures b <==> exists i :: 0 <= i < |skills| && Contains(Lower(skills[i]), q)
  {
    if |skills| == 0 then false
    else if Contains(Lower(skills[0]), q) then true
    else
      var rest := AnySkillContains(skills[1..], q);
      assert forall i :: 1 <= i < |skills| ==> skills[i] == skills[1..][i - 1];
      rest
  }

  /** The texts a search looks at, in the order it looks at them. */
  function SearchedFields(e: Event): seq<string> {
    [e.eventName]
    + (if e.speaker.Some? then [e.speaker.value.name] else [])
    + (if e.skills.Some? then e.skills.value else [])
    + [e.description]
  }

  /** The query occurs in the lower-cased form of one of the searched fields. */
  predicate SomeFieldContains(e: Event, q: string) {
    exists i :: 0 <= i < |SearchedFields(e)| && Contains(Lower(SearchedFields(e)[i]), q)
  }

  /** The search callback, checked field by field in the page's order: event
      name, speaker name (when there is a speaker), skills (when there are
      any), description. It accepts exactly the events one of whose searched
      fields contains the query: the order of the checks and their early
      returns make no difference. */
  function Matches(e: Event, q: string): (b: bool)
    ensures b <==> SomeFieldContains(e, q)
  {
    FieldChecksIffSomeField(e, q);
    if Contains(Lower(e.eventName), q) then true
    else if e.speaker.Some? && Contains(Lower(e.speaker.value.name), q) then true
    else if e.skills.Some? && AnySkillContains(e.skills.value, q) then true
    else if Contains(Lower(e.description), q) then true
    else false
  }

  /** The callback's four checks, taken together, say that some searched field
      contains the query. */
  lemma FieldChecksIffSomeField(e: Event, q: string)
    ensures (|| Contains(Lower(e.eventName), q)
             || (e.speaker.Some? && Contains(Lower(e.speaker.value.name), q))
             || (e.skills.Some? && AnySkillContains(e.skills.value, q))
             || Contains(Lower(e.description), q))
            <==> SomeFieldContains(e, q)
  {
    var f := SearchedFields(e);
    var sp: seq<string> := if e.speaker.Some? then [e.speaker.value.name] else [];
    var sk: seq<string> := if e.skills.Some? then e.skills.value else [];
    assert f == [e.eventName] + sp + sk + [e.description];
    assert f[0] == e.eventName;
    assert f[|f| - 1] == e.description;
    assert forall i :: 0 <= i < |sp| ==> f[1 + i] == sp[i];
    assert forall i :: 0 <= i < |sk| ==> f[1 + |sp| + i] == sk[i];
    if SomeFieldContains(e, q) {
      var i :| 0 <= i < |f| && Contains(Lower(f[i]), q);
      if 1 <= i < 1 + |sp| {
        assert f[i] == e.speaker.value.name;
      } else if 1 + |sp| <= i < 1 + |sp| + |sk| {
        assert f[i] == sk[i - 1 - |sp|];
        assert e.skills.Some?;
        assert AnySkillContains(e.skills.value, q);
      } else if i == |f| - 1 {
        assert Contains(Lower(e.description), q);
      }
    }
    if Contains(Lower(e.eventName), q) {
      assert Contains(Lower(f[0]), q);
    } else if e.speaker.Some? && Contains(Lower(e.speaker.value.name), q) {
      assert Contains(Lower(f[1]), q);
    } else if e.skills.Some? && AnySkillContains(e.skills.value, q) {
      var j :| 0 <= j < |sk| && Contains(Lower(sk[j]), q);
      assert Contains(Lower(f[1 + |sp| + j]), q);
    } else if Contains(Lower(e.description), q) {
      assert Contains(Lower(f[|f| - 1]), q);
    }
  }

  /** An event matches exactly when the query occurs in the lower-cased form
      of one of its searched fields. */
  lemma MatchesIffSomeField(e: Event, q: string)
    ensures Matches(e, q) <==>
            exists i :: 0 <= i < |SearchedFields(e)| && Contains(Lower(SearchedFields(e)[i]), q)
  {
  }

  /** The events whose searched fields contain `q`, in their original order. */
  function SearchEvents(es: seq<Event>, q: string): (r: seq<Event>)
    ensures forall e :: e in r <==> e in es && Matches(e, q)
    ensures forall e :: multiset(r)[e] == if Matches(e, q) then multiset(es)[e] else 0
    ensures IsSubsequence(r, es)
  {
    var p := (e: Event) => Matches(e, q);
    KeepIsSubsequence(es, p);
    Keep(es, p)
  }

  /** An event of the collection is in the search result exactly when one of
      its searched fields contains the query. */
  lemma SearchMembership(es: seq<Event>, q: string, e: Event)
    requires e in es
    ensures e in SearchEvents(es, q) <==>
            exists i :: 0 <= i < |SearchedFields(e)| && Contains(Lower(SearchedFields(e)[i]), q)
  {
    MatchesIffSomeField(e, q);
  }

  /** The search result is exactly determined: any order-preserving selection
      of matching events from `es` at least as long as it IS the result. */
  lemma SearchSelectsExactly(es: seq<Event>, q: string, r: seq<Event>)
    requires IsSubsequence(r, es)
    requires forall i :: 0 <= i < |r| ==> Matches(r[i], q)
    requires |r| >= |SearchEvents(es, q)|
    ensures r == SearchEvents(es, q)
  {
    KeepUnique(r, es, (e: Event) => Matches(e, q));
  }
}
