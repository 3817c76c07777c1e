/** The `events` collection that the scraper and the backend share. Each document's
    identity is its position in insertion order (no operation deletes events), and
    the unique index on `originalUrl` allows at most one document per URL. */
module EventStore {
  import opened Wrappers
  import opened EventModel

  /** The unique index on `originalUrl`. */
  predicate UrlsUnique(events: seq<Event>) {
    forall i, j :: 0 <= i < j < |events| ==> events[i].originalUrl != events[j].originalUrl
  }

  /** Ids are assigned in insertion order. */
  predicate IdsArePositions(events: seq<Event>) {
    forall i :: 0 <= i < |events| ==> events[i].id == i
  }

  predicate StoreValid(events: seq<Event>) {
    UrlsUnique(events) && IdsArePositions(events)
  }

  /** Lookup by URL: the position of the first document with that URL. */
  function FindUrl(events: seq<Event>, url: string): (r: Option<nat>)
    ensures r.Some? ==> r.value < |events| && events[r.value].originalUrl == url
    ensures r.Some? ==> forall k :: 0 <= k < r.value ==> events[k].originalUrl != url
    ensures r.None? <==> forall k :: 0 <= k < |events| ==> events[k].originalUrl != url
  {
    if events == [] then None
    else if events[0].originalUrl == url then Some(0)
    else match FindUrl(events[1..], url)
      case None => None
      case Some(k) => Some(k + 1)
  }

  /** Lookup by id: the position of the document with that id. */
  function FindId(events: seq<Event>, id: EventId): (r: Option<nat>)
    ensures r.Some? ==> r.value < |events| && events[r.value].id == id
    ensures r.None? <==> forall k :: 0 <= k < |events| ==> events[k].id != id
  {
    if events == [] then None
    else if events[0].id == id then Some(0)
    else match FindId(events[1..], id)
      case None => None
      case Some(k) => Some(k + 1)
  }

  /** In a valid store a URL lookup finds the one document with that URL. */
  lemma FindUrlUnique(events: seq<Event>, i: nat)
    requires StoreValid(events) && i < |events|
    ensures FindUrl(events, events[i].originalUrl) == Some(i)
  {
  }

  /** In a valid store the id lookup finds exactly the ids below the store size, at their position. */
  lemma FindIdIsPosition(events: seq<Event>, id: EventId)
    requires StoreValid(events)
    ensures FindId(events, id) == if id < |events| then Some(id) else None
  {
    if id < |events| {
      assert events[id].id == id;
    }
  }

  /** Appending a document with a fresh URL and the next id keeps the store valid. */
  lemma AppendKeepsValid(events: seq<Event>, doc: Event)
    requires StoreValid(events) && doc.id == |events|
    requires forall k :: 0 <= k < |events| ==> events[k].originalUrl != doc.originalUrl
    ensures StoreValid(events + [doc])
  {
    var r := events + [doc];
    forall a, b | 0 <= a < b < |r| ensures r[a].originalUrl != r[b].originalUrl {
      if b == |events| {
        assert r[a] == events[a];
      }
    }
  }

  /** Replacing a document by one with the same id and URL keeps the store valid. */
  lemma ReplaceKeepsValid(events: seq<Event>, i: nat, doc: Event)
    requires StoreValid(events) && i < |events|
    requires doc.id == events[i].id && doc.originalUrl == events[i].originalUrl
    ensures StoreValid(events[i := doc])
  {
  }

  /** Why an insert was refused. */
  datatype InsertError = DuplicateKey(url: string)

  /** The collection, updated in place by the scraper and by the import endpoint. */
  class EventCollection {
    var events: seq<Event>

    ghost predicate Valid()
      reads this
    {
      StoreValid(events)
    }

    constructor ()
      ensures Valid() && events == []
    {
      events := [];
    }

    /** `insert_one(doc)`: the store assigns the id; a duplicate `originalUrl` is refused
        by the unique index and changes nothing. */
    method InsertOne(doc: Event) returns (r: Result<EventId, InsertError>)
      requires Valid()
      modifies this
      ensures Valid()
      ensures r.Ok? <==> forall k :: 0 <= k < |old(events)| ==> old(events)[k].originalUrl != doc.originalUrl
      ensures r.Ok? ==> r.value == |old(events)| && events == old(events) + [doc.(id := r.value)]
      ensures r.Err? ==> r.error == DuplicateKey(doc.originalUrl) && events == old(events)
    {
      var existing := FindUrl(events, doc.originalUrl);
      if existing.Some? {
        return Err(DuplicateKey(doc.originalUrl));
      }
      r := Ok(|events|);
      AppendKeepsValid(events, doc.(id := |events|));
      events := events + [doc.(id := |events|)];
    }

    /** An update of one document in place (`update_one`, `findByIdAndUpdate`): it is
        replaced by `doc`, which keeps its id and its URL. */
    method UpdateAt(i: nat, doc: Event)
      requires Valid() && i < |events|
      requires doc.id == events[i].id && doc.originalUrl == events[i].originalUrl
      modifies this
      ensures Valid() && events == old(events)[i := doc]
    {
      ReplaceKeepsValid(events, i, doc);
      events := events[i := doc];
    }

    /** An update of many documents in place (`update_many`): each document is replaced
        by its counterpart in `docs`, which keeps its id and its URL. */
    method UpdateEach(docs: seq<Event>)
      requires Valid() && |docs| == |events|
      requires forall k :: 0 <= k < |events| ==> docs[k].id == events[k].id && docs[k].originalUrl == events[k].originalUrl
      modifies this
      ensures Valid() && events == docs
    {
      events := docs;
    }
  }
}
