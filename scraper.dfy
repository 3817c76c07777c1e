/** The scrape reconciliation pass of scraper/scraper.py (`scrape_sydney_events`).
    The HTTP fetch and the HTML traversal are abstracted: the page is either a fetch
    failure (`None`) or the list of `<h3>` headings found, each with the `href` of its
    enclosing anchor (if any) and the text of the next `<p>` (if any). The clock is
    the parameter `now`. */
module Scraper {
  import opened Wrappers
  import opened Text
  import opened EventModel
  import opened EventStore

  const SiteOrigin: string := "https://www.eventbrite.com.au"
  const DefaultVenueName: string := "Sydney CBD"
  const VenueAddress: string := "Sydney, NSW, Australia"
  const ScrapedCity: string := "Sydney"
  const ScrapedCategory: seq<string> := ["General", "Social"]

  /** One `<h3>` heading of the listing page. `href` is `None` when the heading has no
      enclosing anchor or the anchor has no `href` attribute. */
  datatype ScrapedItem = ScrapedItem(headingText: string, href: Option<string>, venueText: Option<string>)

  /** Link normalisation: drop the query string, and prefix the site origin unless the
      link already starts with "http". */
  function NormalizeLink(href: string): (r: string)
    ensures '?' !in r && StartsWith(r, "http")
    ensures r == BeforeQuery(href) || r == SiteOrigin + BeforeQuery(href)
  {
    var link := BeforeQuery(href);
    if StartsWith(link, "http") then link
    else
      assert '?' !in SiteOrigin by {
        forall k | 0 <= k < |SiteOrigin| ensures SiteOrigin[k] != '?' { }
      }
      SiteOrigin + link
  }

  /** A normalised link is a fixed point of normalisation. */
  lemma NormalizeLinkIdempotent(href: string)
    ensures NormalizeLink(NormalizeLink(href)) == NormalizeLink(href)
  {
    var r := NormalizeLink(href);
    assert BeforeQuery(r) == r;
  }

  /** Relative links get the site origin in front; links already starting with "http"
      keep their path, without the query string. */
  lemma NormalizeLinkCases(href: string)
    ensures StartsWith(BeforeQuery(href), "http") ==> NormalizeLink(href) == BeforeQuery(href)
    ensures !StartsWith(BeforeQuery(href), "http") ==> NormalizeLink(href) == SiteOrigin + BeforeQuery(href)
  {
  }

  /** The normalised link of an item, or `None` for an item that is skipped. */
  function ItemLink(it: ScrapedItem): (r: Option<string>)
    ensures r.None? <==> it.href.None?
    ensures r.Some? ==> '?' !in r.value && StartsWith(r.value, "http")
    ensures it.href.Some? ==> r.value == BeforeQuery(it.href.value) || r.value == SiteOrigin + BeforeQuery(it.href.value)
  {
    match it.href
    case None => None
    case Some(h) => Some(NormalizeLink(h))
  }

  function ItemTitle(it: ScrapedItem): string {
    Strip(it.headingText)
  }

  /** The stripped text of the following paragraph, or "Sydney CBD" when there is none. */
  function ItemVenueName(it: ScrapedItem): (r: string)
    ensures it.venueText.None? ==> r == "Sydney CBD"
    ensures it.venueText.Some? ==> |r| <= |it.venueText.value| && (r == [] || (!IsSpace(r[0]) && !IsSpace(r[|r| - 1])))
    ensures it.venueText.Some? ==> exists a :: MiddleAt(it.venueText.value, r, a)
  {
    match it.venueText
    case Some(t) => Strip(t)
    case None => DefaultVenueName
  }

  function Description(title: string): string {
    "Join us for " + title + " in Sydney. Experience the best local events."
  }

  /** The document the scraper builds for an item (`event_obj`), with the given id. */
  function ScrapedRecord(it: ScrapedItem, link: string, id: EventId, now: Timestamp): (r: Event)
    ensures r.id == id && r.originalUrl == link && r.status == New
    ensures r.importedBy.None? && r.importedAt.None? && r.importNotes.None?
    ensures r.date == Some(now) && r.lastScrapedTime == now && r.city == "Sydney"
    ensures !Differs(r, it)
  {
    Event(
      id := id,
      title := ItemTitle(it),
      date := Some(now),
      venue := Some(Venue(Some(ItemVenueName(it)), Some(VenueAddress))),
      city := ScrapedCity,
      description := Some(Description(ItemTitle(it))),
      originalUrl := link,
      category := ScrapedCategory,
      status := New,
      importedBy := None,
      importedAt := None,
      importNotes := None,
      lastScrapedTime := now)
  }

  /** The stored title or venue name differs from the scraped one. */
  predicate Differs(stored: Event, it: ScrapedItem)
    ensures !Differs(stored, it) ==> stored.title == ItemTitle(it)
    ensures stored.venue.None? || stored.venue.value.name.None? ==> Differs(stored, it)
  {
    stored.title != ItemTitle(it) || VenueName(stored) != Some(ItemVenueName(it))
  }

  /** `$set` of every scraped field with status "updated": the id and the import stamps
      are not among the fields set, so they survive. */
  function Overwrite(stored: Event, it: ScrapedItem, link: string, now: Timestamp): (r: Event)
    ensures r.status == Updated && r.id == stored.id && r.originalUrl == link
    ensures r.importedBy == stored.importedBy && r.importedAt == stored.importedAt && r.importNotes == stored.importNotes
    ensures r.date == Some(now) && r.lastScrapedTime == now && r.city == "Sydney"
    ensures !Differs(r, it)
  {
    ScrapedRecord(it, link, stored.id, now).(
      status := Updated,
      importedBy := stored.importedBy,
      importedAt := stored.importedAt,
      importNotes := stored.importNotes)
  }

  /** The effect of one item on the collection. */
  function ApplyItem(events: seq<Event>, it: ScrapedItem, now: Timestamp): (r: seq<Event>)
    ensures it.href.None? ==> r == events
    ensures |events| <= |r| <= |events| + 1
  {
    match ItemLink(it)
    case None => events
    case Some(link) =>
      match FindUrl(events, link)
      case None => events + [ScrapedRecord(it, link, |events|, now)]
      case Some(i) =>
        if Differs(events[i], it) then events[i := Overwrite(events[i], it, link, now)]
        else events[i := events[i].(lastScrapedTime := now)]
  }

  /** The effect of the items, in order, on the collection. */
  function ApplyItems(events: seq<Event>, items: seq<ScrapedItem>, now: Timestamp): (r: seq<Event>)
    ensures |events| <= |r| <= |events| + |items|
    decreases |items|
  {
    if items == [] then events
    else ApplyItem(ApplyItems(events, items[..|items| - 1], now), items[|items| - 1], now)
  }

  /** `found_urls`: the normalised links of the items not skipped, in order. */
  function FoundUrls(items: seq<ScrapedItem>): (r: seq<string>)
    ensures |r| <= |items|
    ensures forall k :: 0 <= k < |r| ==> '?' !in r[k] && StartsWith(r[k], "http")
    decreases |items|
  {
    if items == [] then []
    else
      var last := items[|items| - 1];
      FoundUrls(items[..|items| - 1]) + if last.href.Some? then [ItemLink(last).value] else []
  }

  /** The sweep's effect on one document: not found this time and not imported means inactive. */
  function SweepOne(e: Event, found: seq<string>): (r: Event)
    ensures r == e.(status := r.status)
    ensures r.status == e.status || r.status == Inactive
    ensures e.originalUrl in found || e.status == Imported ==> r == e
    ensures e.originalUrl !in found && e.status != Imported ==> r.status == Inactive
  {
    if e.originalUrl !in found && e.status != Imported then e.(status := Inactive) else e
  }

  /** The inactive sweep: every document whose URL is not among the found links and whose
      status is not "imported" is set to "inactive". */
  function Sweep(events: seq<Event>, found: seq<string>): (r: seq<Event>)
    ensures |r| == |events|
    ensures forall i :: 0 <= i < |events| ==>
              && r[i] == events[i].(status := r[i].status)
              && r[i].status == if events[i].originalUrl !in found && events[i].status != Imported then Inactive
                                else events[i].status
  {
    seq(|events|, i requires 0 <= i < |events| => SweepOne(events[i], found))
  }

  /** One more item: the loop's step, on the prefix of the items. */
  lemma ItemStep(events: seq<Event>, items: seq<ScrapedItem>, k: nat, now: Timestamp)
    requires k < |items|
    ensures ApplyItems(events, items[..k + 1], now) == ApplyItem(ApplyItems(events, items[..k], now), items[k], now)
    ensures FoundUrls(items[..k + 1]) == FoundUrls(items[..k]) + if items[k].href.Some? then [ItemLink(items[k]).value] else []
  {
    assert items[..k + 1][..k] == items[..k] && items[..k + 1][k] == items[k];
  }

  /** The whole pass: nothing happens when the fetch failed; otherwise every item is
      applied and then the sweep runs over the found links. */
  function ScrapePass(events: seq<Event>, page: Option<seq<ScrapedItem>>, now: Timestamp): (r: seq<Event>)
    ensures page.None? ==> r == events
    ensures page.Some? ==> |events| <= |r| <= |events| + |page.value|
  {
    match page
    case None => events
    case Some(items) => Sweep(ApplyItems(events, items, now), FoundUrls(items))
  }

  /** `scrape_sydney_events`, run against the collection. */
  method ScrapeSydneyEvents(col: EventCollection, page: Option<seq<ScrapedItem>>, now: Timestamp)
    requires col.Valid()
    modifies col
    ensures col.Valid()
    ensures col.events == ScrapePass(old(col.events), page, now)
    ensures page.None? ==> col.events == old(col.events)
  {
    if page.None? {
      return;
    }
    var items := page.value;
    var found: seq<string> := [];
    var k := 0;
    while k < |items|
      invariant 0 <= k <= |items|
      invariant col.Valid()
      invariant col.events == ApplyItems(old(col.events), items[..k], now)
      invariant found == FoundUrls(items[..k])
    {
      var item := items[k];
      ghost var prev := col.events;
      ItemStep(old(col.events), items, k, now);
      ApplyItemValid(col.events, item, now);
      if item.href.Some? {
        var link := NormalizeLink(item.href.value);
        found := found + [link];
        var existing := FindUrl(col.events, link);
        if existing.None? {
          var inserted := col.InsertOne(ScrapedRecord(item, link, 0, now));
        } else {
          var i := existing.value;
          var stored := col.events[i];
          if Differs(stored, item) {
            col.UpdateAt(i, Overwrite(stored, item, link, now));
          } else {
            col.UpdateAt(i, stored.(lastScrapedTime := now));
          }
        }
      }
      assert col.events == ApplyItem(prev, item, now);
      k := k + 1;
    }
    assert items[..k] == items;
    col.UpdateEach(Sweep(col.events, found));
  }

  // ---------------------------------------------------------------------------
  // Properties of one item

  /** One item keeps the store valid: a new URL is appended with the next id, and an
      existing document keeps its id and URL. */
  lemma ApplyItemValid(events: seq<Event>, it: ScrapedItem, now: Timestamp)
    requires StoreValid(events)
    ensures StoreValid(ApplyItem(events, it, now))
  {
    if it.href.Some? {
      var link := ItemLink(it).value;
      match FindUrl(events, link)
      case None =>
        AppendKeepsValid(events, ScrapedRecord(it, link, |events|, now));
      case Some(i) =>
        var doc := if Differs(events[i], it) then Overwrite(events[i], it, link, now)
                   else events[i].(lastScrapedTime := now);
        ReplaceKeepsValid(events, i, doc);
    }
  }

  /** The three outcomes for an item with a link: an unknown URL is inserted as "new"
      in Sydney; a known URL whose title or venue name changed gets the scraped fields
      and status "updated" while keeping its id and import stamps; an unchanged one has
      only `lastScrapedTime` refreshed. */
  lemma ApplyItemOutcome(events: seq<Event>, it: ScrapedItem, now: Timestamp)
    requires StoreValid(events)
    ensures it.href.None? ==> ApplyItem(events, it, now) == events
    ensures it.href.Some? ==>
      var link := ItemLink(it).value;
      var r := ApplyItem(events, it, now);
      match FindUrl(events, link)
      case None =>
        && r == events + [r[|events|]]
        && r[|events|].status == New && r[|events|].city == "Sydney" && r[|events|].originalUrl == link
        && r[|events|].id == |events| && r[|events|].importedBy.None?
        && r[|events|].importedAt.None? && r[|events|].importNotes.None?
        && r[|events|].title == ItemTitle(it) && VenueName(r[|events|]) == Some(ItemVenueName(it))
        && r[|events|].date == Some(now) && r[|events|].lastScrapedTime == now
      case Some(i) =>
        && |r| == |events|
        && (forall k :: 0 <= k < |events| && k != i ==> r[k] == events[k])
        && (Differs(events[i], it) ==>
              && r[i].status == Updated && r[i].id == events[i].id && r[i].originalUrl == link
              && r[i].importedBy == events[i].importedBy && r[i].importedAt == events[i].importedAt
              && r[i].importNotes == events[i].importNotes && r[i].lastScrapedTime == now
              && r[i].title == ItemTitle(it) && VenueName(r[i]) == Some(ItemVenueName(it))
              && r[i].date == Some(now) && r[i].city == "Sydney")
        && (!Differs(events[i], it) ==> r[i] == events[i].(lastScrapedTime := now))
  {
  }

  /** After an item with a link, the document for that link carries the scraped title and
      venue name, whichever of the three outcomes applied. */
  lemma ApplyItemReflectsScrape(events: seq<Event>, it: ScrapedItem, now: Timestamp)
    requires StoreValid(events) && it.href.Some?
    ensures var r := ApplyItem(events, it, now);
      && FindUrl(r, ItemLink(it).value).Some?
      && r[FindUrl(r, ItemLink(it).value).value].title == ItemTitle(it)
      && VenueName(r[FindUrl(r, ItemLink(it).value).value]) == Some(ItemVenueName(it))
  {
    var link := ItemLink(it).value;
    var r := ApplyItem(events, it, now);
    ApplyItemValid(events, it, now);
    match FindUrl(events, link)
    case None =>
      FindUrlUnique(r, |events|);
    case Some(i) =>
      FindUrlUnique(r, i);
  }

  /** One item, seen from one existing document: it keeps its id, URL and import stamps;
      it is untouched unless the item's link is its URL; an "updated" document stays
      "updated"; an "imported" one stays "imported" or becomes "updated" by this item. */
  lemma ApplyItemFrame(events: seq<Event>, it: ScrapedItem, now: Timestamp, i: nat)
    requires i < |events|
    ensures var r := ApplyItem(events, it, now);
      && |events| <= |r|
      && r[i].id == events[i].id && r[i].originalUrl == events[i].originalUrl
      && r[i].importedBy == events[i].importedBy && r[i].importedAt == events[i].importedAt
      && r[i].importNotes == events[i].importNotes
      && (ItemLink(it) != Some(events[i].originalUrl) ==> r[i] == events[i])
      && (events[i].status == Updated ==> r[i].status == Updated)
      && (events[i].status == Imported ==>
            r[i].status == Imported || (r[i].status == Updated && ItemLink(it) == Some(events[i].originalUrl)))
  {
    if it.href.Some? {
      var link := ItemLink(it).value;
      var r := ApplyItem(events, it, now);
      match FindUrl(events, link)
      case None =>
        assert r == events + [ScrapedRecord(it, link, |events|, now)];
        assert r[i] == events[i];
      case Some(j) =>
        var doc := if Differs(events[j], it) then Overwrite(events[j], it, link, now)
                   else events[j].(lastScrapedTime := now);
        assert r == events[j := doc];
        if j != i {
          assert r[i] == events[i];
        }
    }
  }

  // ---------------------------------------------------------------------------
  // Properties of the item loop

  /** The found links are exactly the normalised links of the items that have one. */
  lemma {:induction false} FoundUrlsSpec(items: seq<ScrapedItem>, u: string)
    ensures u in FoundUrls(items) <==> exists j :: 0 <= j < |items| && ItemLink(items[j]) == Some(u)
    decreases |items|
  {
    if items != [] {
      var n := |items| - 1;
      var init := items[..n];
      FoundUrlsSpec(init, u);
      FoundUrlsLast(items, u);
      if u in FoundUrls(items) {
        if u in FoundUrls(init) {
          var j :| 0 <= j < |init| && ItemLink(init[j]) == Some(u);
          assert items[j] == init[j];
        } else {
          assert ItemLink(items[n]) == Some(u);
        }
      } else {
        forall j | 0 <= j < |items|
          ensures ItemLink(items[j]) != Some(u)
        {
          if j < n {
            assert items[j] == init[j];
          }
        }
      }
    }
  }

  /** A link is found among the items when it is found before the last one or is the
      last one's link. */
  lemma FoundUrlsLast(items: seq<ScrapedItem>, u: string)
    requires items != []
    ensures var n := |items| - 1;
      u in FoundUrls(items) <==> u in FoundUrls(items[..n]) || ItemLink(items[n]) == Some(u)
  {
    var n := |items| - 1;
    assert FoundUrls(items) == FoundUrls(items[..n]) + if items[n].href.Some? then [ItemLink(items[n]).value] else [];
  }

  /** The item loop keeps the store valid: at most one document per URL. */
  lemma {:induction false} ApplyItemsValid(events: seq<Event>, items: seq<ScrapedItem>, now: Timestamp)
    requires StoreValid(events)
    ensures StoreValid(ApplyItems(events, items, now))
    decreases |items|
  {
    if items != [] {
      var n := |items| - 1;
      ApplyItemsValid(events, items[..n], now);
      ApplyItemValid(ApplyItems(events, items[..n], now), items[n], now);
    }
  }

  /** Applying two runs of items one after the other is applying their concatenation. */
  lemma {:induction false} ApplyItemsAppend(events: seq<Event>, a: seq<ScrapedItem>, b: seq<ScrapedItem>, now: Timestamp)
    ensures ApplyItems(events, a + b, now) == ApplyItems(ApplyItems(events, a, now), b, now)
    decreases |b|
  {
    if b == [] {
      assert a + b == a;
    } else {
      var n := |b| - 1;
      assert (a + b)[..|a + b| - 1] == a + b[..n];
      assert (a + b)[|a + b| - 1] == b[n];
      ApplyItemsAppend(events, a, b[..n], now);
    }
  }

  /** The item loop, seen from one document present before it: it keeps its id, URL and
      import stamps; it is untouched unless one of the found links is its URL; "updated"
      stays "updated"; "imported" stays "imported" unless its URL was found, in which case
      it may have become "updated". */
  lemma {:induction false} ApplyItemsFrame(events: seq<Event>, items: seq<ScrapedItem>, now: Timestamp, i: nat)
    requires i < |events|
    ensures var r := ApplyItems(events, items, now);
      && |events| <= |r|
      && r[i].id == events[i].id && r[i].originalUrl == events[i].originalUrl
      && r[i].importedBy == events[i].importedBy && r[i].importedAt == events[i].importedAt
      && r[i].importNotes == events[i].importNotes
      && (events[i].originalUrl !in FoundUrls(items) ==> r[i] == events[i])
      && (events[i].status == Updated ==> r[i].status == Updated)
      && (events[i].status == Imported ==>
            r[i].status == Imported || (r[i].status == Updated && events[i].originalUrl in FoundUrls(items)))
    decreases |items|
  {
    if items != [] {
      var n := |items| - 1;
      var mid := ApplyItems(events, items[..n], now);
      ApplyItemsFrame(events, items[..n], now, i);
      ApplyItemFrame(mid, items[n], now, i);
      assert FoundUrls(items) == FoundUrls(items[..n]) + if items[n].href.Some? then [ItemLink(items[n]).value] else [];
    }
  }

  /** Every found link has a document after the item loop. */
  lemma {:induction false} ApplyItemsRecordsFound(events: seq<Event>, items: seq<ScrapedItem>, now: Timestamp, u: string)
    requires u in FoundUrls(items)
    ensures FindUrl(ApplyItems(events, items, now), u).Some?
    decreases |items|
  {
    var n := |items| - 1;
    var mid := ApplyItems(events, items[..n], now);
    var last := items[n];
    FoundUrlsLast(items, u);
    if ItemLink(last) == Some(u) {
      ApplyItemRecordsLink(mid, last, now);
    } else {
      ApplyItemsRecordsFound(events, items[..n], now, u);
      var i := FindUrl(mid, u).value;
      ApplyItemFrame(mid, last, now, i);
    }
  }

  /** After an item with a link, some document carries that link. */
  lemma ApplyItemRecordsLink(events: seq<Event>, it: ScrapedItem, now: Timestamp)
    requires it.href.Some?
    ensures FindUrl(ApplyItem(events, it, now), ItemLink(it).value).Some?
  {
    var u := ItemLink(it).value;
    match FindUrl(events, u)
    case None =>
      assert ApplyItem(events, it, now)[|events|].originalUrl == u;
    case Some(i) =>
      ApplyItemFrame(events, it, now, i);
  }


  /** Headings that carry a document's URL only with its stored title and venue name
      change nothing in it but `lastScrapedTime`, and the store stays valid. */
  lemma {:induction false} AgreeingItemsKeep(events: seq<Event>, items: seq<ScrapedItem>, now: Timestamp, i: nat, k: nat)
    requires StoreValid(events) && i < |events| && k <= |items|
    requires forall j :: 0 <= j < k && ItemLink(items[j]) == Some(events[i].originalUrl) ==> !Differs(events[i], items[j])
    ensures var r := ApplyItems(events, items[..k], now);
      && StoreValid(r) && i < |r| && r[i] == events[i].(lastScrapedTime := r[i].lastScrapedTime)
    decreases k
  {
    if k == 0 {
      assert items[..0] == [];
    } else {
      AgreeingItemsKeep(events, items, now, i, k - 1);
      var mid := ApplyItems(events, items[..k - 1], now);
      var it := items[k - 1];
      assert ApplyItems(events, items[..k], now) == ApplyItem(mid, it, now) by {
        assert items[..k][..k - 1] == items[..k - 1] && items[..k][k - 1] == it;
      }
      ApplyItemValid(mid, it, now);
      ApplyItemFrame(mid, it, now, i);
      if ItemLink(it) == Some(events[i].originalUrl) {
        FindUrlUnique(mid, i);
        ApplyItemOutcome(mid, it, now);
      }
    }
  }

  /** A document whose URL is carried by some heading with a title or venue name other
      than the stored ones ends the item loop "updated", keeping its URL and import
      stamps: earlier agreeing headings only refresh its scrape time, the first differing
      one overwrites it, and later ones keep it "updated". */
  lemma ChangedItemMarksUpdated(events: seq<Event>, items: seq<ScrapedItem>, now: Timestamp, i: nat, k: nat)
    requires StoreValid(events) && i < |events|
    requires k < |items| && ItemLink(items[k]) == Some(events[i].originalUrl)
    requires Differs(events[i], items[k])
    ensures var r := ApplyItems(events, items, now);
      && i < |r| && r[i].status == Updated && r[i].originalUrl == events[i].originalUrl
      && events[i].originalUrl in FoundUrls(items)
      && r[i].importedBy == events[i].importedBy && r[i].importedAt == events[i].importedAt
      && r[i].importNotes == events[i].importNotes
  {
    var u := events[i].originalUrl;
    var k0 := FirstDifferingItem(events, items, i, k);
    DifferingItemAfterAgreeing(events, items, now, i, k0);
    LaterItemsKeepUpdated(events, items, now, i, k0);
    assert u in FoundUrls(items) by {
      FoundUrlsSpec(items, u);
    }
  }

  /** The first heading that carries a document's URL with a different title or venue. */
  lemma FirstDifferingItem(events: seq<Event>, items: seq<ScrapedItem>, i: nat, k: nat) returns (k0: nat)
    requires i < |events| && k < |items|
    requires ItemLink(items[k]) == Some(events[i].originalUrl) && Differs(events[i], items[k])
    ensures k0 <= k && ItemLink(items[k0]) == Some(events[i].originalUrl) && Differs(events[i], items[k0])
    ensures forall j :: 0 <= j < k0 && ItemLink(items[j]) == Some(events[i].originalUrl) ==> !Differs(events[i], items[j])
    decreases k
  {
    var u := events[i].originalUrl;
    if j :| 0 <= j < k && ItemLink(items[j]) == Some(u) && Differs(events[i], items[j]) {
      k0 := FirstDifferingItem(events, items, i, j);
    } else {
      k0 := k;
    }
  }

  /** The first differing heading, after agreeing ones, overwrites the document with
      status "updated" and keeps its URL and import stamps. */
  lemma DifferingItemAfterAgreeing(events: seq<Event>, items: seq<ScrapedItem>, now: Timestamp, i: nat, k: nat)
    requires StoreValid(events) && i < |events| && k < |items|
    requires ItemLink(items[k]) == Some(events[i].originalUrl) && Differs(events[i], items[k])
    requires forall j :: 0 <= j < k && ItemLink(items[j]) == Some(events[i].originalUrl) ==> !Differs(events[i], items[j])
    ensures var r := ApplyItems(events, items[..k + 1], now);
      && i < |r| && r[i].status == Updated && r[i].originalUrl == events[i].originalUrl
      && r[i].importedBy == events[i].importedBy && r[i].importedAt == events[i].importedAt
      && r[i].importNotes == events[i].importNotes
  {
    AgreeingItemsKeep(events, items, now, i, k);
    var mid := ApplyItems(events, items[..k], now);
    assert ApplyItems(events, items[..k + 1], now) == ApplyItem(mid, items[k], now) by {
      assert items[..k + 1][..k] == items[..k] && items[..k + 1][k] == items[k];
    }
    assert Differs(mid[i], items[k]);
    ChangedItemOverwrites(mid, items[k], now, i);
  }

  /** Once "updated" after item `k`, a document stays "updated", with the same URL and
      import stamps, through the remaining items. */
  lemma LaterItemsKeepUpdated(events: seq<Event>, items: seq<ScrapedItem>, now: Timestamp, i: nat, k: nat)
    requires k < |items|
    requires i < |ApplyItems(events, items[..k + 1], now)|
    requires ApplyItems(events, items[..k + 1], now)[i].status == Updated
    ensures var step := ApplyItems(events, items[..k + 1], now);
      var r := ApplyItems(events, items, now);
      && i < |r| && r[i].status == Updated && r[i].originalUrl == step[i].originalUrl
      && r[i].importedBy == step[i].importedBy && r[i].importedAt == step[i].importedAt
      && r[i].importNotes == step[i].importNotes
  {
    ApplyItemsSplit(events, items, now, k + 1);
    ApplyItemsFrame(ApplyItems(events, items[..k + 1], now), items[k + 1..], now, i);
  }

  /** The item loop runs the first `n` items, then the rest. */
  lemma ApplyItemsSplit(events: seq<Event>, items: seq<ScrapedItem>, now: Timestamp, n: nat)
    requires n <= |items|
    ensures ApplyItems(events, items, now) == ApplyItems(ApplyItems(events, items[..n], now), items[n..], now)
  {
    assert items[..n] + items[n..] == items;
    ApplyItemsAppend(events, items[..n], items[n..], now);
  }

  /** An item carrying a stored URL with a different title or venue name overwrites that
      document in place. */
  lemma ChangedItemOverwrites(events: seq<Event>, it: ScrapedItem, now: Timestamp, i: nat)
    requires StoreValid(events) && i < |events|
    requires ItemLink(it) == Some(events[i].originalUrl) && Differs(events[i], it)
    ensures |ApplyItem(events, it, now)| == |events|
    ensures ApplyItem(events, it, now)[i] == Overwrite(events[i], it, events[i].originalUrl, now)
  {
    FindUrlUnique(events, i);
  }

  // ---------------------------------------------------------------------------
  // Properties of the whole pass

  /** The pass keeps the store valid and never drops a document: each keeps its position,
      id, URL and import stamps. */
  lemma ScrapePassPreserves(events: seq<Event>, page: Option<seq<ScrapedItem>>, now: Timestamp)
    requires StoreValid(events)
    ensures var r := ScrapePass(events, page, now);
      && StoreValid(r) && |events| <= |r|
      && forall i :: 0 <= i < |events| ==>
           && r[i].id == events[i].id && r[i].originalUrl == events[i].originalUrl
           && r[i].importedBy == events[i].importedBy && r[i].importedAt == events[i].importedAt
           && r[i].importNotes == events[i].importNotes
  {
    if page.Some? {
      ApplyItemsValid(events, page.value, now);
      forall i | 0 <= i < |events| {
        ApplyItemsFrame(events, page.value, now, i);
      }
    }
  }

  /** After the pass every document whose URL was not found is "inactive" unless it is
      "imported", and every found link has its document. */
  lemma ScrapePassSweeps(events: seq<Event>, items: seq<ScrapedItem>, now: Timestamp)
    ensures var r := ScrapePass(events, Some(items), now);
      && (forall i :: 0 <= i < |r| && r[i].originalUrl !in FoundUrls(items) ==>
            r[i].status == Inactive || r[i].status == Imported)
      && (forall u :: u in FoundUrls(items) ==> FindUrl(r, u).Some?)
  {
    var mid := ApplyItems(events, items, now);
    forall u | u in FoundUrls(items) ensures FindUrl(ScrapePass(events, Some(items), now), u).Some? {
      ApplyItemsRecordsFound(events, items, now, u);
      var i := FindUrl(mid, u).value;
      assert ScrapePass(events, Some(items), now)[i].originalUrl == u;
    }
  }

  /** The sweep leaves found documents and imported documents as the item loop left them. */
  lemma SweepSparesFoundAndImported(events: seq<Event>, items: seq<ScrapedItem>, now: Timestamp, i: nat)
    requires i < |ApplyItems(events, items, now)|
    requires ApplyItems(events, items, now)[i].originalUrl in FoundUrls(items)
          || ApplyItems(events, items, now)[i].status == Imported
    ensures ScrapePass(events, Some(items), now)[i] == ApplyItems(events, items, now)[i]
  {
  }

  /** A document that is "inactive" and whose URL is found again, by headings that all
      carry its stored title and venue name, stays "inactive": the items only refresh its
      `lastScrapedTime`, and the sweep spares it because its URL was found. Only a change
      of title or venue brings it back, as "updated". */
  lemma InactiveFoundUnchangedStaysInactive(events: seq<Event>, items: seq<ScrapedItem>, now: Timestamp, i: nat)
    requires StoreValid(events) && i < |events| && events[i].status == Inactive
    requires events[i].originalUrl in FoundUrls(items)
    requires forall j :: 0 <= j < |items| && ItemLink(items[j]) == Some(events[i].originalUrl) ==> !Differs(events[i], items[j])
    ensures var r := ScrapePass(events, Some(items), now);
      && i < |r| && r[i].status == Inactive && r[i] == events[i].(lastScrapedTime := r[i].lastScrapedTime)
  {
    AgreeingItemsKeep(events, items, now, i, |items|);
    assert items[..|items|] == items;
  }

  /** A document that is "imported" when the pass starts is never made "inactive" by it:
      it stays "imported", or becomes "updated" because its URL was found with a new
      title or venue. */
  lemma ImportedNeverInactive(events: seq<Event>, page: Option<seq<ScrapedItem>>, now: Timestamp, i: nat)
    requires i < |events| && events[i].status == Imported
    ensures var r := ScrapePass(events, page, now);
      i < |r| && (r[i].status == Imported || r[i].status == Updated)
  {
    if page.Some? {
      ApplyItemsFrame(events, page.value, now, i);
    }
  }
}
