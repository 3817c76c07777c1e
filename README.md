# Sydney events: scrape reconciliation, dashboard query and import

This is a Dafny model of the core of a small event aggregator. It covers three parts:

- A Python scraper reconciles an Eventbrite listing page against a MongoDB `events` collection.
  - Each `<h3>` heading whose enclosing anchor has an `href` becomes an event.
  - The `href` is normalised: the query string is dropped, and the site origin is prefixed to relative links.
  - An unknown URL is inserted with status "new".
  - A known URL whose title or venue name changed is overwritten and marked "updated".
  - Any other known URL only gets its `lastScrapedTime` refreshed.
  - Finally every document whose URL was not found on this page, and that is not "imported", is marked "inactive".
- An Express backend serves the public and admin dashboard query, filtering and sorting by date. It also serves the authenticated "import" endpoint, which stamps a document as imported.
- The Mongoose schema of an event: the status enum with its default, the city and `lastScrapedTime` defaults, the required title and the unique `originalUrl`.

Modules:

- `Wrappers`: `Option` and `Result`.
- `Text`: Python's `strip()`, `split('?')[0]` and `startswith`, plus the case-insensitive literal search that the dashboard's `$regex` with option `i` performs.
- `EventModel`: the event document, the status enum, and document creation through the schema (`CreateEvent`).
- `EventStore`: the collection as a class over `seq<Event>`. A document's id is its position, since nothing deletes events. The unique `originalUrl` index is a class invariant, and the module has the lookups by URL and by id and `insert_one`.
- `Scraper`: `ScrapeSydneyEvents`, a method whose loop runs over the page's items against the collection. It is proved equal to the specification function `ScrapePass`, which is `Sweep` after the fold `ApplyItems`, and the pass's properties are proved about that function.
- `EventRoutes`: the dashboard handler as pure functions (`Matches`, `Filter`, `SortByDate`, `Dashboard`), and the import handler `ImportEvent`, proved against the transition `ImportTransition`.
- `Lifecycle`: properties that span the scraper and the backend. An import publishes a document; a later scrape that misses it leaves it public; a scrape that finds it changed makes it "updated" and hides it from the public view.

Inputs the core gets from outside are parameters:

- the fetched and parsed page: `None` for a failed fetch, otherwise the headings found, each with its anchor `href` and the text of the following `<p>`;
- the clock: one `now` per call;
- the session's principal: its email, or `None` when not authenticated;
- the query string, as a `DashboardParams` record.

## Model

| member | source | states |
|---|---|---|
| `EventModel.StatusNameRoundTrip` | backend/models/event.js:13-17 | every status is stored as a string that the enum accepts and that maps back to it |
| `EventModel.ParseStatusAcceptsOnlyNames` | backend/models/event.js:13-17 | the enum accepts exactly "new", "updated", "inactive" and "imported" |
| `EventModel.CreateEvent` | backend/models/event.js:3-24 | creation succeeds iff the title is present and non-empty and any given status is in the enum; a failure names exactly the failing paths ("title", "status"); on success the status defaults to "new", the city to "Sydney" and `lastScrapedTime` to the creation time, and the title and URL are kept |
| `EventStore.FindUrl` | scraper/scraper.py:73 | `find_one({"originalUrl": link})` returns the first document with that URL, and nothing exactly when no document has it |
| `EventStore.FindId` | backend/routes/eventRoutes.js:83-92 | `findByIdAndUpdate` finds a document with that id, and nothing exactly when none has it |
| `EventStore.FindUrlUnique` | backend/models/event.js:10 | under the unique `originalUrl` index, a lookup by a document's URL finds that document |
| `EventStore.FindIdIsPosition` | backend/routes/eventRoutes.js:83-92 | in a valid store, lookup by id finds exactly the ids below the store size |
| `EventStore.EventCollection.constructor` | backend/models/event.js:10 | an empty collection satisfies the unique-URL invariant |
| `EventStore.AppendKeepsValid` | backend/models/event.js:10 | appending a document with a fresh URL and the next id keeps URLs unique and ids as positions |
| `EventStore.ReplaceKeepsValid` | backend/models/event.js:10 | replacing a document by one with the same id and URL keeps the store valid |
| `EventStore.EventCollection.UpdateAt` | scraper/scraper.py:81-91 | an in-place update of one document that keeps its id and URL replaces exactly that document and keeps the unique index |
| `EventStore.EventCollection.UpdateEach` | scraper/scraper.py:98-101 | an in-place update of many documents that keeps their ids and URLs leaves exactly the given documents and keeps the unique index |
| `EventStore.EventCollection.InsertOne` | scraper/scraper.py:75-76 | `insert_one` succeeds iff no document has the URL; it appends the document with the next id; a duplicate URL is refused with the store unchanged; the unique index is kept |
| `Text.IsSpace` | scraper/scraper.py:38 | space, tab, newline and carriage return are whitespace to `strip()`; the whole set is the code points for which Python's `isspace()` holds |
| `Text.SpaceRunEnd` | scraper/scraper.py:38 | scanning forward from a position stops at the first non-whitespace character or the end, passing only whitespace |
| `Text.SpaceRunStart` | scraper/scraper.py:38 | scanning backward from a position stops after the last non-whitespace character or at the lower limit, passing only whitespace |
| `Text.Strip` | scraper/scraper.py:38 | `strip()` returns the piece of the input that has only whitespace before and after it, with no whitespace at either end; it is empty iff the input is all whitespace |
| `Text.StripIdempotent` | scraper/scraper.py:38 | stripping twice is stripping once |
| `Text.BeforeQuery` | scraper/scraper.py:39 | `split('?')[0]` is a prefix without '?', ends at the first '?' or the end, and is the whole input when it has no '?' |
| `Text.LowerStr` | backend/routes/eventRoutes.js:33-35 | lower-casing keeps the length, leaves no upper-case ASCII letter, replaces each upper-case letter by its lower-case one (code point + 32) and keeps every other character |
| `Text.ContainsCI` | backend/routes/eventRoutes.js:33-35 | an empty term matches every field, and a match needs a field at least as long as the term |
| `Text.ContainsCIIsWindowMatch` | backend/routes/eventRoutes.js:33-35 | the case-insensitive search holds iff some window of the field agrees with the term letter by letter, ignoring case |
| `Text.ContainsCILowerTerm` | backend/routes/eventRoutes.js:33-35 | lower-casing the search term does not change what it matches |
| `Scraper.NormalizeLink` | scraper/scraper.py:39-41 | a normalised link has no '?' and starts with "http"; it is the part before '?', with or without the site origin in front |
| `Scraper.NormalizeLinkIdempotent` | scraper/scraper.py:39-41 | normalising a normalised link changes nothing |
| `Scraper.NormalizeLinkCases` | scraper/scraper.py:39-41 | links starting with "http" keep their path; all others get "https://www.eventbrite.com.au" in front |
| `Scraper.SweepOne` | scraper/scraper.py:98-100 | the sweep changes only a document's status, to "inactive" exactly when its URL was not found and it is not "imported"; found and imported documents are left as they are |
| `Scraper.Sweep` | scraper/scraper.py:96-101 | the sweep changes only the status field: a document whose URL was not found and whose status is not "imported" becomes "inactive"; every other status is kept |
| `Scraper.ItemLink` | scraper/scraper.py:34-41 | a heading is skipped exactly when its anchor has no `href`; otherwise its link is the `href` up to the first '?', with the site origin in front when that part does not start with "http", so it has no '?' and starts with "http" |
| `Scraper.ScrapedRecord` | scraper/scraper.py:55-70 | the scraped document has status "new", the given id and link, no import stamps, date and scrape time `now`, city "Sydney", and the scraped title and venue name |
| `Scraper.Differs` | scraper/scraper.py:80 | a document that is not seen as changed has the scraped title; a document without a venue name is always seen as changed |
| `Scraper.ItemVenueName` | scraper/scraper.py:44-45 | without a following paragraph the venue is "Sydney CBD"; otherwise it is the piece of the paragraph's text with only whitespace around it and none at either end |
| `Scraper.Overwrite` | scraper/scraper.py:80-84 | a changed document gets status "updated", the scraped date and scrape time (`now`) and city "Sydney", keeps its id, URL and import stamps, and afterwards agrees with the scraped title and venue name |
| `Scraper.ApplyItem` | scraper/scraper.py:33-91 | one heading's effect on the collection: a skipped heading changes nothing, and at most one document is added |
| `Scraper.ApplyItems` | scraper/scraper.py:32-94 | the item loop adds at most one document per heading and removes none |
| `Scraper.ScrapePass` | scraper/scraper.py:21-101 | a failed fetch leaves the collection unchanged; a pass adds at most one document per heading and removes none |
| `Scraper.ScrapeSydneyEvents` | scraper/scraper.py:14-103 | the method leaves the collection exactly as `ScrapePass` says (unchanged when the fetch failed) and keeps the unique-URL invariant |
| `Scraper.ItemStep` | scraper/scraper.py:32-52 | one more heading applies that heading after the earlier ones and appends its link, if it has one, to the found links |
| `Scraper.ApplyItemValid` | scraper/scraper.py:72-91 | one item keeps the store valid: URLs stay unique and ids stay positions |
| `Scraper.ApplyItemOutcome` | scraper/scraper.py:34-91 | a heading without an `href` changes nothing; otherwise the three outcomes. An unknown URL is appended as "new" in Sydney with the next id, the scraped title and venue name, date and scrape time `now`, and no import stamps. A known URL with a changed title or venue name becomes "updated" with the scraped title, venue name, date and city, keeping its id and import stamps. An unchanged one only has `lastScrapedTime` refreshed. No other document changes |
| `Scraper.ApplyItemReflectsScrape` | scraper/scraper.py:72-91 | after an item, the document for its link carries the scraped title and venue name |
| `Scraper.ApplyItemFrame` | scraper/scraper.py:72-91 | from one existing document's view, an item keeps its id, URL and import stamps and leaves it untouched unless the link is its URL; "updated" stays "updated"; "imported" stays or becomes "updated" only by this item |
| `Scraper.FoundUrls` | scraper/scraper.py:29-52 | at most one link per heading is found, and every found link has no '?' and starts with "http" |
| `Scraper.FoundUrlsLast` | scraper/scraper.py:32-52 | a link is found among the headings iff it is found before the last heading or is the last heading's link |
| `Scraper.FoundUrlsSpec` | scraper/scraper.py:32-52 | `found_urls` holds exactly the normalised links of the headings that have an `href` |
| `Scraper.ApplyItemsValid` | scraper/scraper.py:32-94 | the item loop keeps the store valid |
| `Scraper.ApplyItemsAppend` | scraper/scraper.py:32-94 | the loop processes items in order: two runs of items compose |
| `Scraper.ApplyItemsFrame` | scraper/scraper.py:32-94 | over the whole loop, a document keeps its id, URL and import stamps and is untouched unless its URL was found; "imported" becomes "updated" only when its URL was found |
| `Scraper.ApplyItemRecordsLink` | scraper/scraper.py:72-91 | after a heading with an `href`, some document carries its link |
| `Scraper.ApplyItemsRecordsFound` | scraper/scraper.py:52-76 | every found link has a document after the loop |
| `Scraper.ApplyItemsSplit` | scraper/scraper.py:32-94 | the loop over all items is the loop over the first `n` items followed by the loop over the rest |
| `Scraper.InactiveFoundUnchangedStaysInactive` | scraper/scraper.py:86-101 | an "inactive" document whose URL a scrape finds, where every heading carrying it has the stored title and venue name, stays "inactive": only its `lastScrapedTime` changes, and the sweep spares it because its URL was found |
| `Scraper.AgreeingItemsKeep` | scraper/scraper.py:86-91 | headings that carry a document's URL only with its stored title and venue name change nothing in it but `lastScrapedTime`, and the store stays valid |
| `Scraper.ChangedItemMarksUpdated` | scraper/scraper.py:79-91 | a document whose URL is carried by any heading with a different title or venue name ends the loop "updated", keeping its URL and import stamps, and its URL is among the found links |
| `Scraper.FirstDifferingItem` | scraper/scraper.py:79-80 | if some heading carries a document's URL with a different title or venue, there is a first such heading, and every earlier heading carrying the URL agrees |
| `Scraper.DifferingItemAfterAgreeing` | scraper/scraper.py:79-91 | the first differing heading after agreeing ones makes the document "updated", keeping its URL and import stamps |
| `Scraper.LaterItemsKeepUpdated` | scraper/scraper.py:79-91 | once "updated", later items keep the document "updated" with the same URL and stamps |
| `Scraper.ChangedItemOverwrites` | scraper/scraper.py:80-84 | a changed item replaces the stored document by the scraped fields with status "updated" |
| `Scraper.ScrapePassPreserves` | scraper/scraper.py:14-103 | a pass keeps the store valid and drops no document; each keeps its position, id, URL and import stamps |
| `Scraper.ScrapePassSweeps` | scraper/scraper.py:96-101 | after a pass every document whose URL was not found is "inactive" or "imported", and every found link has its document |
| `Scraper.SweepSparesFoundAndImported` | scraper/scraper.py:98-101 | the sweep leaves found and imported documents as the loop left them |
| `Scraper.ImportedNeverInactive` | scraper/scraper.py:86-101 | a document imported before a pass is never made "inactive": it stays "imported" or becomes "updated" |
| `EventRoutes.Matches` | backend/routes/eventRoutes.js:24-43 | a matching document is in the requested city and within both date bounds; in the public view a document matches iff it meets the city, search and date clauses and is "new" or "imported" |
| `EventRoutes.Filter` | backend/routes/eventRoutes.js:24-44 | the query returns each matching document as often as it is stored, and no other |
| `EventRoutes.SortedCons` | backend/routes/eventRoutes.js:44 | putting a document no later than the first in front of a date-ordered list keeps date order |
| `EventRoutes.SortedHeadBound` | backend/routes/eventRoutes.js:44 | the first document of a date-ordered list has the earliest date |
| `EventRoutes.InsertByDate` | backend/routes/eventRoutes.js:44 | inserting into a date-sorted sequence keeps it sorted and adds exactly that document |
| `EventRoutes.SortByDate` | backend/routes/eventRoutes.js:44 | `.sort({ date: 1 })` is an ascending permutation; a missing date sorts first |
| `EventRoutes.Dashboard` | backend/routes/eventRoutes.js:13-46 | the response is date-sorted and holds exactly the stored documents that match the query, with their multiplicities |
| `EventRoutes.DashboardCity` | backend/routes/eventRoutes.js:21-24 | every returned document is in the requested city, which is "Sydney" when none is given |
| `EventRoutes.PublicViewStatuses` | backend/routes/eventRoutes.js:25-26 | unless `isAdmin` is exactly "true", only "new" and "imported" documents are returned |
| `EventRoutes.FilterCongruent` | backend/routes/eventRoutes.js:24-44 | two queries that accept the same documents give the same response |
| `EventRoutes.PublicViewIgnoresStatus` | backend/routes/eventRoutes.js:25-29 | in the public view the `status` parameter has no effect |
| `EventRoutes.AdminViewExactStatus` | backend/routes/eventRoutes.js:27-28 | in the admin view a given status returns exactly the otherwise matching documents with that status |
| `EventRoutes.AdminViewAnyStatus` | backend/routes/eventRoutes.js:25-29 | in the admin view without a status, a document's status does not affect whether it matches |
| `EventRoutes.SearchIsUnion` | backend/routes/eventRoutes.js:31-37 | a search term matches the title, the venue name or the description; an empty or absent term imposes nothing |
| `EventRoutes.SearchIgnoresCase` | backend/routes/eventRoutes.js:33-35 | the search ignores the case of the term |
| `EventRoutes.DateBoundsInclusive` | backend/routes/eventRoutes.js:39-43 | both date bounds are inclusive, a date outside either bound is excluded, a document without a date is excluded by any bound, and no bounds means no date constraint |
| `EventRoutes.NotesOrDefault` | backend/routes/eventRoutes.js:89 | the stored notes are never empty: the given notes when present and non-empty, otherwise "Standard Import" |
| `EventRoutes.Stamp` | backend/routes/eventRoutes.js:85-90 | the import sets status "imported", `importedBy`, `importedAt` and non-empty `importNotes`, and every other field is unchanged |
| `EventRoutes.ImportTransition` | backend/routes/eventRoutes.js:77-100 | unauthenticated gives 401 with no change; an authenticated request for an id no document has gives 404; success happens iff the user is authenticated and some document has the id; on failure the store is unchanged; on success the returned document has that id, status "imported" and the user as importer, it is in the new store, every position holds its old document or the returned one, and every document with another id is unchanged |
| `EventRoutes.ImportEvent` | backend/routes/eventRoutes.js:69-105 | the handler's response and new collection are exactly `ImportTransition`'s, and the unique-URL invariant is kept |
| `EventRoutes.ImportRejections` | backend/routes/eventRoutes.js:78-97 | an unauthenticated request gets 401 and an unknown id gets 404, with the store unchanged in both cases |
| `EventRoutes.ImportStampsOnly` | backend/routes/eventRoutes.js:83-92 | a successful import sets status "imported", `importedBy`, `importedAt` and `importNotes` (default "Standard Import" when the notes are absent or empty), returns the updated document, and changes nothing else |
| `EventRoutes.ImportPreservesValid` | backend/routes/eventRoutes.js:83-92 | an import keeps URLs unique and ids as positions |
| `EventRoutes.ReimportLastWriteWins` | backend/routes/eventRoutes.js:83-92 | importing twice equals the second import alone: the last importer and time win |
| `Lifecycle.ImportPublishes` | backend/routes/eventRoutes.js:24-92 | an imported document appears in every public query whose city, search and dates it satisfies, and in the admin query for "imported" |
| `Lifecycle.ImportedMissingStaysPublic` | scraper/scraper.py:96-101 | an imported document that a scrape does not find, or that a failed scrape skips, is unchanged and stays in every public query it matched |
| `Lifecycle.ImportedChangedDropsOut` | scraper/scraper.py:79-84 | an imported document whose URL is carried by any heading with a changed title or venue becomes "updated", keeps its import stamps and drops out of every public query |
| `Lifecycle.ImportSurvivesMissingScrape` | scraper/scraper.py:98-100 | an import followed by a scrape that misses the document leaves it imported, as the import returned it, and public |

## Left out

- HTTP fetching, HTML parsing, pymongo and Express I/O, logging and the 500 responses for store failures are left out. The page, the principal, the query and the clock are parameters.
- Time comes from a single `now` per call. The Python code calls `datetime.now()` separately for `date` and `lastScrapedTime`, which can differ by microseconds.
- Dates are integers. Parsing of `startDate` and `endDate` and the behaviour of an invalid date string are not modelled.
- The search term is matched as a literal. Regular-expression metacharacters in it are not interpreted.
- Case folding is ASCII only.
- Ties in `.sort({ date: 1 })` have no defined order in MongoDB. The model sorts stably by insertion.
- Mongo's ObjectIds are modelled as positions in the collection. A malformed id, which makes `findByIdAndUpdate` throw a cast error and the handler answer 500, is not modelled.
- The scraper's `sourceSite` and `imageUrl` fields are left out: they are written but never read by the core. The schema's `createdAt` and `updatedAt` timestamps are left out too: they are maintained by Mongoose and not read by the core.
- Per-item exceptions other than a missing `href` are not modelled. One example is a stored document whose `venue` is null, where `existing.get('venue', {}).get('name')` raises; the Python loop then skips the update but the link is already in `found_urls`.
- Documents without an `originalUrl` are not modelled: every document has one.
- `DashboardParams`, `DashboardCity` and `ImportEvent`: every query-string and body value is modelled as an optional string (the date bounds as optional timestamps). Express's query parser also produces arrays for repeated keys and objects for bracketed keys, and a JSON body can carry numbers. None of these non-string values is modelled. That includes operator injection through `city` (`city[$ne]=x` lifts the city restriction), a repeated `isAdmin`, and a numeric `importNotes`.
- Concurrency is not modelled. Scrapes and imports are atomic steps on the collection.
- The ticket-lead and leads endpoints and the authentication middleware are not part of this model. Authentication reaches the import handler only as the optional principal.
