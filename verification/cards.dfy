/** What `createEventCard` decides about one event: the status badge, the
    registration control, the speaker portrait and the card's contents. The
    markup itself is not modelled. */
module Cards {
  import opened Options
  import opened Events

  /** The status badge: a CSS class and a visible caption. */
  datatype Badge = Badge(cls: string, caption: string)

  /** The registration control at the foot of a card. */
  datatype Control = RegisterNow(href: string) | ComingSoon | Closed

  /** The speaker picture: a photo, or the generic user glyph. */
  datatype Portrait = Photo(src: string, alt: string) | Glyph

  datatype Card = Card(
    title: string,
    badge: Badge,
    description: string,
    portrait: Portrait,
    speakerName: string,
    speakerProfile: string,
    speakerLinkedin: string,
    skillTags: seq<string>,
    registrations: int,
    control: Control)

  /** The badge for a status. A recognised status gets the class
      `status-<status>` and its caption (`Current`, `Past`, `Upcoming`); any
      other status gets an empty class and an empty caption. */
  function BadgeFor(status: string): (b: Badge)
    ensures KnownStatus(status) ==> b.cls == "status-" + status
    ensures status == "current" ==> b.caption == "Current"
    ensures status == "past" ==> b.caption == "Past"
    ensures status == "future" ==> b.caption == "Upcoming"
    ensures !KnownStatus(status) ==> b == Badge("", "")
  {
    if status == "current" then Badge("status-current", "Current")
    else if status == "past" then Badge("status-past", "Past")
    else if status == "future" then Badge("status-future", "Upcoming")
    else Badge("", "")
  }

  /** Different recognised statuses never share a badge class or caption. */
  lemma BadgesDistinct(s1: string, s2: string)
    requires KnownStatus(s1) && KnownStatus(s2) && s1 != s2
    ensures BadgeFor(s1).cls != BadgeFor(s2).cls
    ensures BadgeFor(s1).caption != BadgeFor(s2).caption
  {
    assert BadgeFor(s1).cls[7..] == s1;
    assert BadgeFor(s2).cls[7..] == s2;
  }

  /** The registration control: an active link only for a current event with
      a (non-empty) registration link, `Coming Soon` for a future event, and
      `Closed` in every other case, including a current event without a link. */
  function ControlFor(e: Event): (c: Control)
    ensures c.RegisterNow? <==> e.status == "current" && Truthy(e.registrationLink)
    ensures c.RegisterNow? ==> c.href == e.registrationLink.value && c.href != ""
    ensures c == ComingSoon <==> e.status == "future"
    ensures c == Closed <==> e.status != "future" && !(e.status == "current" && Truthy(e.registrationLink))
  {
    if e.status == "current" && Truthy(e.registrationLink) then RegisterNow(e.registrationLink.value)
    else if e.status == "future" then ComingSoon
    else Closed
  }

  /** The control and the badge of a card never disagree: an open registration
      sits under a `Current` badge, `Coming Soon` exactly under `Upcoming`, and
      a `Past` or unlabelled badge always comes with `Closed`. */
  lemma ControlAgreesWithBadge(e: Event)
    ensures ControlFor(e).RegisterNow? ==> BadgeFor(e.status).caption == "Current"
    ensures ControlFor(e) == ComingSoon <==> BadgeFor(e.status).caption == "Upcoming"
    ensures BadgeFor(e.status).caption in {"Past", ""} ==> ControlFor(e) == Closed
  {
  }

  /** The portrait: a photo when the speaker has a (non-empty) image, the
      generic glyph otherwise. */
  function PortraitFor(s: Speaker): (p: Portrait)
    ensures p.Photo? <==> Truthy(s.image)
    ensures p.Photo? ==> p.src == s.image.value && p.alt == s.name
  {
    if Truthy(s.image) then Photo(s.image.value, s.name) else Glyph
  }

  /** An event the renderer can draw: `skills` is mapped over and
      `speaker.name` is read without a guard, so both must be present. */
  predicate Renderable(e: Event) {
    e.speaker.Some? && e.skills.Some?
  }

  /** The card for an event, or None where the renderer throws. The card shows
      the event's own texts, one skill tag per skill in order, and the badge,
      control and portrait chosen above. */
  function CardFor(e: Event): (c: Option<Card>)
    ensures c.Some? <==> Renderable(e)
    ensures c.Some? ==> c.value.title == e.eventName && c.value.description == e.description
    ensures c.Some? ==> c.value.skillTags == e.skills.value
    ensures c.Some? ==> c.value.speakerName == e.speaker.value.name
    ensures c.Some? ==> c.value.speakerProfile == e.speaker.value.profile
    ensures c.Some? ==> c.value.speakerLinkedin == e.speaker.value.linkedin
    ensures c.Some? ==> c.value.portrait == PortraitFor(e.speaker.value)
    ensures c.Some? ==> (c.value.portrait.Photo? <==> Truthy(e.speaker.value.image))
    ensures c.Some? ==> c.value.badge == BadgeFor(e.status) && c.value.control == ControlFor(e)
    ensures c.Some? ==> c.value.registrations == e.noOfRegistrations
  {
    match (e.speaker, e.skills)
    case (Some(s), Some(skills)) =>
      Some(Card(e.eventName, BadgeFor(e.status), e.description, PortraitFor(s),
                s.name, s.profile, s.linkedin, skills, e.noOfRegistrations, ControlFor(e)))
    case _ => None
  }
}
