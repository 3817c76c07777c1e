/** The Event document of backend/models/event.js: its fields, the status enum with
    its default, the city and lastScrapedTime defaults, and the required title.
    Dates and times are integers (milliseconds since the epoch). */
module EventModel {
  import opened Wrappers

  type Timestamp = int

  /** Store-assigned identity of an event (Mongo's `_id`). */
  type EventId = nat

  /** The lifecycle status of an event. */
  datatype Status = New | Updated | Inactive | Imported

  /** The string stored in the `status` field. */
  function StatusName(st: Status): string {
    match st
    case New => "new"
    case Updated => "updated"
    case Inactive => "inactive"
    case Imported => "imported"
  }

  /** Enum validation of a `status` string: the status it names, if any. */
  function ParseStatus(s: string): Option<Status> {
    if s == "new" then Some(New)
    else if s == "updated" then Some(Updated)
    else if s == "inactive" then Some(Inactive)
    else if s == "imported" then Some(Imported)
    else None
  }

  /** Every status is stored as a string that enum validation accepts and maps back to it. */
  lemma StatusNameRoundTrip(st: Status)
    ensures ParseStatus(StatusName(st)) == Some(st)
  {
  }

  /** Enum validation accepts exactly the four status names. */
  lemma ParseStatusAcceptsOnlyNames(s: string)
    ensures ParseStatus(s).Some? <==> s in {"new", "updated", "inactive", "imported"}
    ensures ParseStatus(s).Some? ==> StatusName(ParseStatus(s).value) == s
  {
  }

  /** The `venue` sub-document. */
  datatype Venue = Venue(name: Option<string>, address: Option<string>)

  /** A stored event. Optional schema fields that may be missing from a document are `Option`s. */
  datatype Event = Event(
    id: EventId,
    title: string,
    date: Option<Timestamp>,
    venue: Option<Venue>,
    city: string,
    description: Option<string>,
    originalUrl: string,
    category: seq<string>,
    status: Status,
    importedBy: Option<string>,
    importedAt: Option<Timestamp>,
    importNotes: Option<string>,
    lastScrapedTime: Timestamp)

  /** `venue.name` of a document; absent when the venue or its name is missing. */
  function VenueName(e: Event): Option<string> {
    match e.venue
    case Some(v) => v.name
    case None => None
  }

  const DefaultCity: string := "Sydney"
  const DefaultStatus: Status := New

  /** The schema's required-field rule: a required String must be present and non-empty. */
  predicate SchemaValid(e: Event) {
    e.title != ""
  }

  /** The fields a caller supplies when creating an event; `None` means "not supplied". */
  datatype EventDraft = EventDraft(
    title: Option<string>,
    date: Option<Timestamp>,
    venue: Option<Venue>,
    city: Option<string>,
    description: Option<string>,
    originalUrl: string,
    category: seq<string>,
    status: Option<string>,
    importedBy: Option<string>,
    importedAt: Option<Timestamp>,
    importNotes: Option<string>,
    lastScrapedTime: Option<Timestamp>)

  /** A failed schema validation, naming every path that failed. */
  datatype SchemaError = ValidationError(paths: set<string>)

  function TitleMissing(d: EventDraft): bool {
    d.title.None? || d.title.value == ""
  }

  function StatusRejected(d: EventDraft): bool {
    d.status.Some? && ParseStatus(d.status.value).None?
  }

  /** Document creation through the schema at time `now`: defaults are filled in for
      fields not supplied, then the required title and the status enum are validated. */
  function CreateEvent(d: EventDraft, id: EventId, now: Timestamp): (r: Result<Event, SchemaError>)
    ensures r.Ok? <==> !TitleMissing(d) && !StatusRejected(d)
    ensures r.Err? ==> ("title" in r.error.paths <==> TitleMissing(d))
    ensures r.Err? ==> ("status" in r.error.paths <==> StatusRejected(d))
    ensures r.Ok? ==> SchemaValid(r.value) && r.value.id == id && Some(r.value.title) == d.title
    ensures r.Ok? ==> r.value.status == if d.status.None? then New else ParseStatus(d.status.value).value
    ensures r.Ok? ==> r.value.city == d.city.GetOr("Sydney")
    ensures r.Ok? ==> r.value.lastScrapedTime == d.lastScrapedTime.GetOr(now)
    ensures r.Ok? ==> r.value.originalUrl == d.originalUrl && r.value.importedBy == d.importedBy
  {
    var titleErr: set<string> := if TitleMissing(d) then {"title"} else {};
    var statusErr: set<string> := if StatusRejected(d) then {"status"} else {};
    if titleErr + statusErr != {} then
      Err(ValidationError(titleErr + statusErr))
    else
      Ok(Event(
        id, d.title.value, d.date, d.venue, d.city.GetOr(DefaultCity), d.description,
        d.originalUrl, d.category,
        if d.status.None? then DefaultStatus else ParseStatus(d.status.value).value,
        d.importedBy, d.importedAt, d.importNotes, d.lastScrapedTime.GetOr(now)))
  }
}
