/** The two event handlers of backend/routes/eventRoutes.js that read or write event
    status: GET /dashboard (a query built from optional parameters, sorted by date)
    and PATCH /events/:id/import (the authenticated status transition to "imported"). */
module EventRoutes {
  import opened Wrappers
  import opened Text
  import opened EventModel
  import opened EventStore

  // ---------------------------------------------------------------------------
  // GET /dashboard

  /** The query-string parameters; `None` when a parameter is absent. The date bounds
      are given already converted to timestamps. */
  datatype DashboardParams = DashboardParams(
    status: Option<string>,
    search: Option<string>,
    isAdmin: Option<string>,
    startDate: Option<Timestamp>,
    endDate: Option<Timestamp>,
    city: Option<string>)

  /** JavaScript truthiness of a query-string value: present and non-empty. */
  predicate Given(v: Option<string>) {
    v.Some? && v.value != ""
  }

  /** Only the exact string "true" selects the admin view. */
  predicate AdminView(p: DashboardParams) {
    p.isAdmin == Some("true")
  }

  /** The requested city; the default applies only when the parameter is absent. */
  function QueryCity(p: DashboardParams): string {
    p.city.GetOr(DefaultCity)
  }

  /** The statuses the public view may show. */
  predicate PublicStatus(st: Status) {
    st == New || st == Imported
  }

  predicate StatusClause(p: DashboardParams, e: Event) {
    if !AdminView(p) then PublicStatus(e.status)
    else if Given(p.status) then StatusName(e.status) == p.status.value
    else true
  }

  /** A case-insensitive match of `term` in a field that may be missing. */
  predicate FieldMatches(field: Option<string>, term: string) {
    field.Some? && ContainsCI(field.value, term)
  }

  predicate SearchClause(p: DashboardParams, e: Event) {
    Given(p.search) ==>
      || FieldMatches(Some(e.title), p.search.value)
      || FieldMatches(VenueName(e), p.search.value)
      || FieldMatches(e.description, p.search.value)
  }

  /** A bound compares only against a date that is present. */
  predicate DateClause(p: DashboardParams, e: Event) {
    && (p.startDate.Some? ==> e.date.Some? && e.date.value >= p.startDate.value)
    && (p.endDate.Some? ==> e.date.Some? && e.date.value <= p.endDate.value)
  }

  /** Every part of the query except the status rule. */
  predicate BaseMatches(p: DashboardParams, e: Event) {
    e.city == QueryCity(p) && SearchClause(p, e) && DateClause(p, e)
  }

  /** The query the handler builds, as a predicate on one document. */
  predicate Matches(p: DashboardParams, e: Event)
    ensures Matches(p, e) ==> e.city == QueryCity(p)
    ensures !AdminView(p) ==> (Matches(p, e) <==> BaseMatches(p, e) && (e.status == New || e.status == Imported))
    ensures Matches(p, e) && p.startDate.Some? ==> e.date.Some? && p.startDate.value <= e.date.value
    ensures Matches(p, e) && p.endDate.Some? ==> e.date.Some? && e.date.value <= p.endDate.value
  {
    BaseMatches(p, e) && StatusClause(p, e)
  }

  /** The matching documents, in collection order. */
  function Filter(events: seq<Event>, p: DashboardParams): (r: seq<Event>)
    ensures forall e :: multiset(r)[e] == if Matches(p, e) then multiset(events)[e] else 0
  {
    if events == [] then []
    else
      assert events == [events[0]] + events[1..];
      (if Matches(p, events[0]) then [events[0]] else []) + Filter(events[1..], p)
  }

  /** Ascending date order; a missing date sorts before every date. */
  predicate DateLe(a: Option<Timestamp>, b: Option<Timestamp>) {
    a.None? || (b.Some? && a.value <= b.value)
  }

  predicate SortedByDate(s: seq<Event>) {
    forall i, j :: 0 <= i < j < |s| ==> DateLe(s[i].date, s[j].date)
  }

  /** Prepending a date no later than the first of a sorted sequence keeps it sorted. */
  lemma SortedCons(x: Event, s: seq<Event>)
    requires SortedByDate(s)
    requires s == [] || DateLe(x.date, s[0].date)
    ensures SortedByDate([x] + s)
  {
    var r := [x] + s;
    forall i, j | 0 <= i < j < |r| ensures DateLe(r[i].date, r[j].date) {
      if i == 0 {
        assert r[j] == s[j - 1];
        assert j - 1 == 0 || DateLe(s[0].date, s[j - 1].date);
      } else {
        assert r[i] == s[i - 1] && r[j] == s[j - 1];
      }
    }
  }

  /** The first document of a sorted sequence has the earliest date. */
  lemma SortedHeadBound(s: seq<Event>)
    requires SortedByDate(s) && s != []
    ensures forall y :: y in s ==> DateLe(s[0].date, y.date)
  {
    forall y | y in s ensures DateLe(s[0].date, y.date) {
      var k :| 0 <= k < |s| && s[k] == y;
      assert k == 0 || DateLe(s[0].date, s[k].date);
    }
  }

  function InsertByDate(e: Event, s: seq<Event>): (r: seq<Event>)
    requires SortedByDate(s)
    ensures SortedByDate(r)
    ensures multiset(r) == multiset(s) + multiset{e}
    ensures forall x :: x in r ==> x == e || x in s
    decreases |s|
  {
    if s == [] || DateLe(e.date, s[0].date) then
      SortedCons(e, s);
      [e] + s
    else
      var rest := InsertByDate(e, s[1..]);
      assert s == [s[0]] + s[1..];
      SortedHeadBound(s);
      assert rest[0] in rest;
      SortedCons(s[0], rest);
      [s[0]] + rest
  }

  /** `.sort({ date: 1 })`: an ascending reordering of the documents. */
  function SortByDate(s: seq<Event>): (r: seq<Event>)
    ensures SortedByDate(r)
    ensures multiset(r) == multiset(s)
    decreases |s|
  {
    if s == [] then []
    else
      assert s == [s[0]] + s[1..];
      InsertByDate(s[0], SortByDate(s[1..]))
  }

  /** The handler's response: exactly the matching documents, each as often as it is
      stored, in ascending date order. */
  function Dashboard(events: seq<Event>, p: DashboardParams): (r: seq<Event>)
    ensures SortedByDate(r)
    ensures forall e :: multiset(r)[e] == if Matches(p, e) then multiset(events)[e] else 0
    ensures forall e :: e in r <==> e in events && Matches(p, e)
  {
    var r := SortByDate(Filter(events, p));
    assert forall e :: e in r <==> e in multiset(r);
    assert forall e :: e in events <==> e in multiset(events);
    r
  }

  /** The query always restricts to the requested city, "Sydney" when none is given. */
  lemma DashboardCity(events: seq<Event>, p: DashboardParams)
    ensures forall e :: e in Dashboard(events, p) ==> e.city == QueryCity(p)
    ensures p.city.None? ==> QueryCity(p) == "Sydney"
  {
  }

  /** Outside the admin view only "new" and "imported" documents are returned. */
  lemma PublicViewStatuses(events: seq<Event>, p: DashboardParams)
    requires !AdminView(p)
    ensures forall e :: e in Dashboard(events, p) ==> e.status == New || e.status == Imported
  {
  }

  /** Two queries that accept the same documents give the same response. */
  lemma {:induction false} FilterCongruent(events: seq<Event>, p: DashboardParams, q: DashboardParams)
    requires forall e :: Matches(p, e) == Matches(q, e)
    ensures Filter(events, p) == Filter(events, q)
    decreases |events|
  {
    if events != [] {
      FilterCongruent(events[1..], p, q);
    }
  }

  /** Outside the admin view a requested status is ignored. */
  lemma PublicViewIgnoresStatus(events: seq<Event>, p: DashboardParams, status: Option<string>)
    requires !AdminView(p)
    ensures Dashboard(events, p) == Dashboard(events, p.(status := status))
  {
    var q := p.(status := status);
    forall e
      ensures Matches(p, e) == Matches(q, e)
    {
      assert BaseMatches(p, e) == BaseMatches(q, e);
      assert StatusClause(p, e) == StatusClause(q, e);
    }
    FilterCongruent(events, p, q);
  }

  /** In the admin view a given status selects exactly the documents with that status. */
  lemma AdminViewExactStatus(events: seq<Event>, p: DashboardParams)
    requires AdminView(p) && Given(p.status)
    ensures forall e :: e in Dashboard(events, p) ==> StatusName(e.status) == p.status.value
    ensures forall e :: e in events && BaseMatches(p, e) && StatusName(e.status) == p.status.value ==>
              e in Dashboard(events, p)
  {
  }

  /** In the admin view without a status, the status of a document does not affect the match. */
  lemma AdminViewAnyStatus(p: DashboardParams, e: Event, st: Status)
    requires AdminView(p) && !Given(p.status)
    ensures Matches(p, e) <==> BaseMatches(p, e)
    ensures Matches(p, e) <==> Matches(p, e.(status := st))
  {
  }

  /** A given search term matches the title, the venue name or the description (a union);
      a missing or empty term adds no restriction. */
  lemma SearchIsUnion(p: DashboardParams, e: Event)
    ensures Given(p.search) ==>
      (SearchClause(p, e) <==>
         || ContainsCI(e.title, p.search.value)
         || (VenueName(e).Some? && ContainsCI(VenueName(e).value, p.search.value))
         || (e.description.Some? && ContainsCI(e.description.value, p.search.value)))
    ensures !Given(p.search) ==> (Matches(p, e) <==> Matches(p.(search := None), e))
  {
  }

  /** The search ignores the case of the term. */
  lemma SearchIgnoresCase(p: DashboardParams, e: Event)
    requires p.search.Some?
    ensures Matches(p, e) <==> Matches(p.(search := Some(LowerStr(p.search.value))), e)
  {
    var t := p.search.value;
    ContainsCILowerTerm(e.title, t);
    if VenueName(e).Some? {
      ContainsCILowerTerm(VenueName(e).value, t);
    }
    if e.description.Some? {
      ContainsCILowerTerm(e.description.value, t);
    }
  }

  /** Date bounds are inclusive; without bounds the date is unconstrained. */
  lemma DateBoundsInclusive(p: DashboardParams, e: Event)
    ensures p.startDate.None? && p.endDate.None? ==> DateClause(p, e)
    ensures e.date.Some? && p.startDate.Some? && p.endDate.Some? ==>
      (DateClause(p, e) <==> p.startDate.value <= e.date.value <= p.endDate.value)
    ensures p.startDate.Some? && e.date.Some? && e.date.value < p.startDate.value ==> !Matches(p, e)
    ensures p.endDate.Some? && e.date.Some? && e.date.value > p.endDate.value ==> !Matches(p, e)
    ensures (p.startDate.Some? || p.endDate.Some?) && e.date.None? ==> !Matches(p, e)
  {
  }

  // ---------------------------------------------------------------------------
  // PATCH /events/:id/import

  /** The handler's answer: 401, 404, or the updated document. */
  datatype ImportResponse = Unauthorized | NotFound | Success(record: Event)

  const DefaultImportNotes: string := "Standard Import"

  /** The given notes, or "Standard Import" when they are absent or empty. */
  function NotesOrDefault(notes: Option<string>): (r: string)
    ensures r != ""
    ensures notes.Some? && notes.value != "" ==> r == notes.value
    ensures notes.None? || notes.value == "" ==> r == "Standard Import"
  {
    if Given(notes) then notes.value else DefaultImportNotes
  }

  /** The fields the import sets; every other field is kept. */
  function Stamp(e: Event, email: string, notes: Option<string>, now: Timestamp): (r: Event)
    ensures r.status == Imported && r.importedBy == Some(email) && r.importedAt == Some(now)
    ensures r.importNotes.Some? && r.importNotes.value != ""
    ensures r.(status := e.status, importedBy := e.importedBy, importedAt := e.importedAt,
               importNotes := e.importNotes) == e
  {
    e.(status := Imported, importedAt := Some(now), importedBy := Some(email),
       importNotes := Some(NotesOrDefault(notes)))
  }

  datatype ImportOutcome = ImportOutcome(events: seq<Event>, response: ImportResponse)

  /** The import of document `id` by the session's principal (its email, `None` when the
      request is not authenticated) at time `now`. */
  function ImportTransition(events: seq<Event>, id: EventId, principal: Option<string>,
                            notes: Option<string>, now: Timestamp): (r: ImportOutcome)
    ensures principal.None? ==> r == ImportOutcome(events, Unauthorized)
    ensures r.response.Success? <==>
              principal.Some? && exists k :: 0 <= k < |events| && events[k].id == id
    ensures principal.Some? && (forall k :: 0 <= k < |events| ==> events[k].id != id) ==> r.response == NotFound
    ensures !r.response.Success? ==> r.events == events
    ensures |r.events| == |events|
    ensures r.response.Success? ==>
              && r.response.record.status == Imported && r.response.record.id == id
              && r.response.record.importedBy == principal
              && r.response.record in r.events
              && forall k :: 0 <= k < |events| ==> r.events[k] == events[k] || r.events[k] == r.response.record
    ensures r.response.Success? ==> forall k :: 0 <= k < |events| && events[k].id != id ==> r.events[k] == events[k]
  {
    if principal.None? then ImportOutcome(events, Unauthorized)
    else match FindId(events, id)
      case None => ImportOutcome(events, NotFound)
      case Some(i) =>
        var updated := Stamp(events[i], principal.value, notes, now);
        assert events[i := updated][i] == updated;
        ImportOutcome(events[i := updated], Success(updated))
  }

  /** The handler, run against the collection. */
  method ImportEvent(col: EventCollection, id: EventId, principal: Option<string>,
                     notes: Option<string>, now: Timestamp) returns (response: ImportResponse)
    requires col.Valid()
    modifies col
    ensures col.Valid()
    ensures ImportOutcome(col.events, response) == ImportTransition(old(col.events), id, principal, notes, now)
  {
    if principal.None? {
      return Unauthorized;
    }
    var found := FindId(col.events, id);
    if found.None? {
      return NotFound;
    }
    var i := found.value;
    var updated := Stamp(col.events[i], principal.value, notes, now);
    col.UpdateAt(i, updated);
    response := Success(updated);
  }

  /** Without an authenticated principal the answer is 401 and the store is untouched;
      with one, an unknown id gives 404 and the store is untouched. */
  lemma ImportRejections(events: seq<Event>, id: EventId, principal: Option<string>,
                         notes: Option<string>, now: Timestamp)
    ensures principal.None? ==> ImportTransition(events, id, principal, notes, now) == ImportOutcome(events, Unauthorized)
    ensures principal.Some? && (forall k :: 0 <= k < |events| ==> events[k].id != id) ==>
              ImportTransition(events, id, principal, notes, now) == ImportOutcome(events, NotFound)
  {
  }

  /** A successful import sets the status to "imported", `importedBy` to the principal's
      email, `importedAt` to the time and `importNotes` to the notes or "Standard Import",
      and changes nothing else, in that document or any other. */
  lemma ImportStampsOnly(events: seq<Event>, id: EventId, email: string,
                         notes: Option<string>, now: Timestamp)
    requires StoreValid(events) && id < |events|
    ensures var out := ImportTransition(events, id, Some(email), notes, now);
      && out.response.Success?
      && |out.events| == |events|
      && out.events[id] == out.response.record
      && (forall k :: 0 <= k < |events| && k != id ==> out.events[k] == events[k])
      && var e, r := events[id], out.response.record;
      && r.status == Imported && r.importedBy == Some(email) && r.importedAt == Some(now)
      && r.importNotes == Some(if notes == None || notes == Some("") then "Standard Import" else notes.value)
      && r.id == e.id && r.title == e.title && r.date == e.date && r.venue == e.venue
      && r.city == e.city && r.description == e.description && r.originalUrl == e.originalUrl
      && r.category == e.category && r.lastScrapedTime == e.lastScrapedTime
  {
    FindIdIsPosition(events, id);
  }

  /** The import keeps the store valid. */
  lemma ImportPreservesValid(events: seq<Event>, id: EventId, principal: Option<string>,
                             notes: Option<string>, now: Timestamp)
    requires StoreValid(events)
    ensures StoreValid(ImportTransition(events, id, principal, notes, now).events)
  {
    var out := ImportTransition(events, id, principal, notes, now);
    if principal.Some? && FindId(events, id).Some? {
      var i := FindId(events, id).value;
      assert out.events == events[i := Stamp(events[i], principal.value, notes, now)];
    }
  }

  /** Re-importing is allowed and the last import wins: importing twice leaves the
      store as the second import alone would. */
  lemma ReimportLastWriteWins(events: seq<Event>, id: EventId, email1: string, notes1: Option<string>, t1: Timestamp,
                              email2: string, notes2: Option<string>, t2: Timestamp)
    requires StoreValid(events) && id < |events|
    ensures var first := ImportTransition(events, id, Some(email1), notes1, t1);
      var second := ImportTransition(first.events, id, Some(email2), notes2, t2);
      && second == ImportTransition(events, id, Some(email2), notes2, t2)
      && second.response.Success? && second.response.record.importedBy == Some(email2)
      && second.response.record.importedAt == Some(t2)
  {
    var first := ImportTransition(events, id, Some(email1), notes1, t1);
    FindIdIsPosition(events, id);
    ImportPreservesValid(events, id, Some(email1), notes1, t1);
    FindIdIsPosition(first.events, id);
    assert first.events[id := Stamp(first.events[id], email2, notes2, t2)]
        == events[id := Stamp(events[id], email2, notes2, t2)];
  }
}
