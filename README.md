# bookkeepr download core, in Dafny

This project models the decision logic of the bookkeepr server (`server.js`). The server lets a user search the Hardcover book catalogue and start the download of an ebook. The model covers these parts:

- **Release filter and ranking** (`releases.dfy`). Prowlarr result records are filtered: audiobooks and records without a title or guid are dropped, and only titles with an ebook format marker are kept. The survivors are sorted, EPUB first and then by seeders, descending. The head of that list is picked, and its `downloadUrl`, or else its `magnetUrl`, is the link sent to qBittorrent.
- **The `/api/download` handler** (`download.dfy`). It validates the title and tries MyAnonaMouse (MAM) when MAM is configured. Otherwise, or when MAM fails, it falls back to Prowlarr. Every network call is an outcome supplied as a parameter (`Upstream`). `HandleDownload` maps those outcomes to the JSON reply, the calls made and the qBittorrent cookie afterwards. `Server.Download` is the same handler written step by step with its early returns, and it is proved to agree with `HandleDownload`.
- **The qBittorrent session** (`qbit.dfy`). `Session` holds the process-wide `qbitCookie`:
  - a login stores the first `set-cookie` entry, cut at its first `;`;
  - an add logs in first when no cookie is held;
  - a 403 clears the cookie, logs in again and starts over.

  The source retries through recursion with no bound. The model's `AddTorrent` loops over a supplied sequence of qBittorrent answers, one `Attempt` per pass. `RunAdd` is the function it is proved against.
- **Small helpers**:
  - the Prowlarr query (`indexers.dfy`);
  - the first MAM hit (`indexers.dfy`);
  - the Hardcover hits-to-books mapping of `/api/search` (`hardcover.dfy`);
  - ASCII `toLowerCase`, `includes` and the `/epub/i` test (`text.dfy`).

The 403 branch of `addTorrentToQBittorrent` calls the function again with no limit (server.js:105-109), so the model does not bound the retries either. `Qbit.RunAddOutcome` states this: every leading 403 leads to one more pass. `Download.Reply.Pending` stands for a request that, after all the supplied passes, is still retrying.

## Model

| member | source | states |
|---|---|---|
| `Text.Lower` | server.js:332 | the lower-cased title has the same length, and each character is folded on its own |
| `Text.Includes` | server.js:333-338 | `includes` is true exactly when the pattern occurs at some index of the string |
| `Text.IncludesLowerIsCaseInsensitive` | server.js:341-342 | for a lower-case literal pattern, lower-casing and then searching is the same test as a case-insensitive regular-expression match |
| `Releases.IsEbookRelease` | server.js:330-339 | the filter callback; a kept record has a non-empty title and guid (its full meaning is `EbookReleaseMeaning`) |
| `Releases.EbookReleaseMeaning` | server.js:330-339 | a record passes the filter iff it has a non-empty title and guid, its lower-cased title contains none of the four audiobook markers and contains one of "epub", "mobi", "pdf", "azw"; the "azw3" test adds nothing beyond "azw" |
| `Releases.EbookReleases` | server.js:329-339 | the filtered list is no longer than the results and holds only usable ebook records |
| `Releases.Filter` | server.js:329-339 | the filter never lengthens the list and every element it keeps is accepted by the callback |
| `Releases.FilterCount` | server.js:329-339 | the filter keeps each accepted element exactly as often as the input holds it and drops all others |
| `Releases.IsEpubMatchesRegex` | server.js:341-342 | the comparator's EPUB test `IsEpub` holds exactly when the record has a title and `/epub/i` matches it case-insensitively |
| `Releases.Compare` | server.js:340-347 | `a` sorts before `b` exactly when `a` is EPUB and `b` is not, or both agree on EPUB and `a` has more seeders (absent seeders counting as 0, by `SeedCount`); after exactly in the mirrored case |
| `Releases.CompareTiesEqualKeys` | server.js:340-347 | the comparator is antisymmetric and returns 0 exactly for records with the same EPUB flag and seeder count |
| `Releases.Insert` | server.js:340-348 | inserting into the list adds exactly that one element |
| `Releases.Rank` | server.js:340-348 | the sort returns a permutation of its input |
| `Releases.InsertRanked` | server.js:340-348 | inserting into a list ordered by the comparator keeps it ordered |
| `Releases.RankRanked` | server.js:340-348 | every pair of positions of the sorted list agrees with the comparator |
| `Releases.InsertByKey` | server.js:340-348 | insertion puts the element at the front of its own key's group and changes no other group |
| `Releases.RankStable` | server.js:340-348 | the sort is stable: the records with any one key keep their input order |
| `Releases.FilterEbookThenKey` | server.js:329-339 | filtering to ebooks and then to one key is filtering once by both |
| `Releases.RankedEbooks` | server.js:329-348 | the ranked list is a permutation of the filtered list |
| `Releases.RankedEbooksContents` | server.js:329-348 | the ranked list is a permutation of exactly the filtered subset of the input: nothing added, duplicated or lost |
| `Releases.RankedEbooksOrder` | server.js:340-348 | in the ranked list every EPUB title precedes every non-EPUB title; within each group seeders (absent = 0) are non-increasing; equal keys keep input order |
| `Releases.EpubBeatsSeeders` | server.js:340-345 | of an EPUB and a non-EPUB ebook release, the EPUB is ranked first in either input order, whatever the seeders |
| `Releases.SelectBest` | server.js:324-354 | no or empty results give "no results"; results with no usable ebook give the distinct "no ebooks" outcome; otherwise the pick is an ebook from the input |
| `Releases.BestIsFirst` | server.js:340-354 | the picked release is outranked by no usable result and is the earliest usable result in the input with its key |
| `Releases.DownloadLink` | server.js:362 | the link is `downloadUrl` when that is a non-empty string, else `magnetUrl` when that is one, else none |
| `Qbit.UpToSemicolon` | server.js:62 | the cookie is the longest prefix of the first `set-cookie` value without a ';' |
| `Qbit.SessionCookie` | server.js:60-62 | a cookie is taken exactly when the `set-cookie` list is present and non-empty, and it is the first entry cut at its first ';' |
| `Qbit.AfterLogin` | server.js:42-73 | a failed login, or an accepted one whose response sets no cookie, leaves the stored cookie unchanged; an accepted login that sets one replaces it with that cookie |
| `Qbit.RunAdd` | server.js:76-113 | `addTorrentToQBittorrent` over the supplied passes; it sends requests exactly when at least one pass is supplied |
| `Qbit.RunAddOutcome` | server.js:76-113 | after the leading 403s the first other answer decides (accepted: added; other error: not added); all-403 answers never settle; one add request per pass reached |
| `Qbit.RunAddCookie` | server.js:76-113 | every add sends the cookie held in its own pass when there is one; a 403 clears the cookie and the next pass starts from what the login after it left; the answer that ends the run leaves the cookie held in that pass |
| `Qbit.StaleCookieDropped` | server.js:105-109 | after a 403, neither the later adds nor the cookie left behind depend on the cookie held before it |
| `Qbit.RetryAfterForbidden` | server.js:102-109 | one 403 then an accept is added after two add requests; two 403s lead to a third pass, not to a stop |
| `Qbit.RunAddLogins` | server.js:76-113 | with no cookie the first request is a login; every add after the first is preceded by a login, and every add answered with a 403 is followed by one, the last included |
| `Qbit.RunAddEndsWithLogin` | server.js:105-109 | a run in which every add was answered with a 403 ends with the login made after the last of them |
| `Qbit.CookieAfterUpload` | server.js:163-204 | the MAM upload leaves the cookie as it was unless the torrent was fetched and no cookie was held; then the cookie is what the login leaves |
| `Qbit.Session.constructor` | server.js:39 | the cookie starts absent |
| `Qbit.Session.Login` | server.js:42-73 | the login returns true exactly when accepted and updates the cookie as `AfterLogin` says |
| `Qbit.Session.AddTorrent` | server.js:76-113 | the loop returns the outcome and request trace, and leaves the cookie, that `RunAdd` gives from the old cookie |
| `Qbit.Session.Pass` | server.js:76-109 | one pass: a login first when no cookie is held, the add with the held cookie, and after a 403 the cleared cookie and a new login; the requests sent and the cookie left are the ones `RunAdd` takes for that pass |
| `Qbit.Session.DownloadFromMam` | server.js:163-204 | true exactly when the torrent was fetched and the upload accepted, with no retry on 403; the cookie changes only as `CookieAfterUpload` says |
| `Indexers.SearchQuery` | server.js:209-212 | the query starts with the title; it equals the title iff the author is absent, empty or 'Unknown'; otherwise a space and the author follow |
| `Indexers.SearchMam` | server.js:117-160 | a hit is returned exactly when MAM is configured, the search succeeded and `data` is non-empty, and then it is the first record |
| `Hardcover.Documents` | server.js:273 | the books are the hits' documents, one per hit, in order |
| `Hardcover.HitsOf` | server.js:271-272 | when `data.search.results.hits` is present the hits are exactly that list; hits are found nowhere else, and any missing level gives an empty list |
| `Hardcover.SearchBooks` | server.js:235-280 | a missing query is a 400; a failed request is a 500 with its message and a reply with GraphQL errors a 500 with "Hardcover API error"; success exactly when the request succeeded without GraphQL errors, and then the books are the documents of the hits in order |
| `Hardcover.NoHitsIsEmptySuccess` | server.js:271-275 | no hits is a success with an empty book list, not an error |
| `Download.HandleDownload` | server.js:282-392 | the handler makes no call and answers 400 exactly when the title is missing or empty |
| `Download.IndexerStage` | server.js:321-387 | the Prowlarr stage never reports a MAM start; it first searches with the built query and afterwards makes only add calls |
| `Download.MissingTitle` | server.js:286-288 | a missing or empty title is a 400 "Book title is required" with no call made and the cookie untouched |
| `Download.MamPath` | server.js:296-319 | the download starts via MAM iff MAM is configured, its search hits and both fetch and upload succeed; MAM is never contacted when not configured |
| `Download.FallsBackToIndexer` | server.js:296-322 | whenever MAM does not start the download, Prowlarr is searched with the built query, and the handler's reply, calls and cookie are exactly those of the Prowlarr stage started from the MAM calls already made and the cookie the MAM fetch left |
| `Download.IndexerOutcome` | server.js:321-387 | a search error is a 500 with its message; "No results found in indexers" and the "only audiobooks" error in their cases; "No download link available" leaves the cookie and adds nothing; "Failed to add torrent to qBittorrent" comes only after an add that failed |
| `Download.IndexerStartPick` | server.js:340-387 | a Prowlarr start picks an ebook release from the results that no usable result outranks, searches once and adds its link, and the add succeeded |
| `Download.IndexerLinkOutcome` | server.js:360-387 | once a release is picked: without a link the reply is "No download link available" after the search alone, cookie untouched; with one, its link is added and the reply is a start, "Failed to add torrent to qBittorrent" or pending exactly when the add ends added, not added or still retrying, and the cookie is the one the add leaves |
| `Download.Server.constructor` | server.js:38-39 | a new server holds its MAM flag and a fresh session without a cookie |
| `Download.Server.Download` | server.js:282-392 | the step-by-step handler gives the reply, calls and cookie that `HandleDownload` gives |
| `Download.Server.FallBack` | server.js:321-387 | the step-by-step Prowlarr stage gives the reply, calls and cookie that `IndexerStage` gives |

## Left out

- Express setup, CORS, static files, the `/` route, the `/api/health` report and the startup banner (server.js:1-14, 394-423). These are plumbing. The startup login at server.js:422 is not part of `Server.constructor`. A caller models it by calling `Session.Login`.
- Environment configuration (server.js:17-36). The only setting that affects a decision, the presence of `mam.id`, is the `mamConfigured` parameter.
- The HTTP requests themselves: the qBittorrent login and add, the MAM search and torrent fetch, the Prowlarr search and the Hardcover call. Each is an abstract outcome. MAM's `data` records are assumed to be objects, so a `null` first record does not occur.
- Timeouts, and concurrent requests interleaving their updates of `qbitCookie`. The model is sequential.
- The size formatting `size / 1024 / 1024` with `toFixed(2)` (server.js:356, 383), which is floating point. Console logging and the debug dump are also left out. `Details` carries the chosen record itself.
- JavaScript type coercions and type errors. The model's types rule them out. A numeric request `title` or `author` is concatenated into the query (server.js:209-211) and the handler carries on. A non-numeric `seeders` is coerced by the subtraction in the comparator (server.js:347), or gives NaN. In `/api/download` these values throw: a truthy non-string release `title` (`toLowerCase`, server.js:332), a non-array result list (`results.filter`, server.js:329-330), a `null` entry in that list (`r.title`, server.js:331), and a truthy non-string `downloadUrl` or `magnetUrl` (`substring`, server.js:369). Each ends in the 500 branch at server.js:388-391. In `/api/search`, a non-array `hits` or a `null` hit throws at `hits.map` (server.js:273) and ends in the 500 reply at server.js:276-278.
- `Text.Lower`: folds only the ASCII letters A-Z. JavaScript's `toLowerCase` also folds other letters, such as the Kelvin sign into 'k', so a title that hides a marker behind such letters is classified differently.
- `Releases.IsEpubMatchesRegex`: treats `/epub/i` with the same ASCII folding. All four pattern letters are ASCII.
- `Qbit.Session.AddTorrent`: the source's recursion is unbounded. The model stops after the supplied passes and reports `StillRetrying` (`Pending` in the handler) when every pass was a 403.
- The `isbn` and `year` request fields: they are accepted, and `isbn` is passed to `searchProwlarr`, but neither affects any decision.
