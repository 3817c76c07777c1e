/** How the scraper's status changes and the import endpoint's transition meet the
    dashboard's visibility rule: what an admin's import publishes, and what a later
    scrape does to it. */
module Lifecycle {
  import opened Wrappers
  import opened EventModel
  import opened EventStore
  import opened Scraper
  import opened EventRoutes

  /** A successful import publishes the document: every public query whose city, search
      and dates it satisfies returns it, and so does the admin query for "imported". */
  lemma ImportPublishes(events: seq<Event>, id: EventId, email: string, notes: Option<string>, now: Timestamp)
    requires StoreValid(events) && id < |events|
    ensures var out := ImportTransition(events, id, Some(email), notes, now);
      && out.response.Success?
      && (forall p :: !AdminView(p) && BaseMatches(p, out.response.record) ==>
            out.response.record in Dashboard(out.events, p))
      && (forall p :: AdminView(p) && p.status == Some("imported") && BaseMatches(p, out.response.record) ==>
            out.response.record in Dashboard(out.events, p))
  {
    var out := ImportTransition(events, id, Some(email), notes, now);
    ImportStampsOnly(events, id, email, notes, now);
    var rec := out.response.record;
    assert rec in out.events by {
      assert out.events[id] == rec;
    }
    forall p | !AdminView(p) && BaseMatches(p, rec) ensures rec in Dashboard(out.events, p) {
      assert StatusClause(p, rec);
    }
    forall p | AdminView(p) && p.status == Some("imported") && BaseMatches(p, rec)
      ensures rec in Dashboard(out.events, p)
    {
      assert StatusClause(p, rec);
    }
  }

  /** An imported document whose URL is not found by a scrape (or whose scrape could not
      fetch the page) is left exactly as it was, and stays in every public query it
      matched. */
  lemma ImportedMissingStaysPublic(events: seq<Event>, page: Option<seq<ScrapedItem>>, now: Timestamp, i: nat)
    requires i < |events| && events[i].status == Imported
    requires page.Some? ==> events[i].originalUrl !in FoundUrls(page.value)
    ensures var r := ScrapePass(events, page, now);
      && i < |r| && r[i] == events[i]
      && forall p :: !AdminView(p) && BaseMatches(p, events[i]) ==> events[i] in Dashboard(r, p)
  {
    if page.Some? {
      ApplyItemsFrame(events, page.value, now, i);
    }
  }

  /** An imported document whose URL is found by a scrape with a different title or venue
      name becomes "updated": it keeps its import stamps but drops out of every public
      query. `k` is any heading carrying its URL with the different title or venue. */
  lemma ImportedChangedDropsOut(events: seq<Event>, items: seq<ScrapedItem>, now: Timestamp, i: nat, k: nat)
    requires StoreValid(events) && i < |events| && events[i].status == Imported
    requires k < |items| && ItemLink(items[k]) == Some(events[i].originalUrl)
    requires Differs(events[i], items[k])
    ensures var r := ScrapePass(events, Some(items), now);
      && i < |r| && r[i].status == Updated
      && r[i].importedBy == events[i].importedBy && r[i].importedAt == events[i].importedAt
      && r[i].importNotes == events[i].importNotes
      && forall p :: !AdminView(p) ==> r[i] !in Dashboard(r, p)
  {
    var loop := ApplyItems(events, items, now);
    var r := ScrapePass(events, Some(items), now);
    ChangedItemMarksUpdated(events, items, now, i, k);
    assert r == Sweep(loop, FoundUrls(items));
    assert r[i] == loop[i];
    forall p | !AdminView(p) ensures r[i] !in Dashboard(r, p) {
      assert !StatusClause(p, r[i]);
    }
  }

  /** Import followed by a scrape that does not find the document: it is still imported
      and still public. */
  lemma ImportSurvivesMissingScrape(events: seq<Event>, id: EventId, email: string, notes: Option<string>,
                                    t: Timestamp, page: Option<seq<ScrapedItem>>, now: Timestamp)
    requires StoreValid(events) && id < |events|
    requires page.Some? ==> events[id].originalUrl !in FoundUrls(page.value)
    ensures var out := ImportTransition(events, id, Some(email), notes, t);
      var r := ScrapePass(out.events, page, now);
      && out.response.Success? && id < |r| && r[id] == out.response.record && r[id].status == Imported
      && forall p :: !AdminView(p) && BaseMatches(p, r[id]) ==> r[id] in Dashboard(r, p)
  {
    var out := ImportTransition(events, id, Some(email), notes, t);
    ImportStampsOnly(events, id, email, notes, t);
    ImportedMissingStaysPublic(out.events, page, now, id);
  }
}
