/** The event record as the page reads it from its JSON document. */
module Events {
  import opened Options

  /** The speaker sub-record; `image` may be absent. */
  datatype Speaker = Speaker(name: string, profile: string, linkedin: string, image: Option<string>)

  /** One entry of the events collection. `status` is kept as the raw string,
      because the page compares it against literals and tolerates any other
      value. `skills` and `speaker` may be missing from a record: the search
      guards against that, the card renderer does not. */
  datatype Event = Event(
    eventName: string,
    description: string,
    status: string,
    registrationLink: Option<string>,
    noOfRegistrations: int,
    skills: Option<seq<string>>,
    speaker: Option<Speaker>)

  /** The three status values the page recognises. */
  predicate KnownStatus(status: string) {
    status == "current" || status == "future" || status == "past"
  }
}
