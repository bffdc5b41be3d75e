# fbSpider: a verified model of the scraper's deterministic core

`fbSpider.js` logs into Facebook in a visible, puppeteer-driven Chromium window. For each configured
search query it opens a fresh page and runs three extractors on it: videos,
then posts, then pages. It hands every extracted record to
`uploadResultsToAPI`. Most of the file is browser, Redis and HTTP plumbing.
This project models the logic inside that plumbing and proves properties
about it:

- `TermRotation` (`rotation.dfy`) models `randomlyRotateArray`. The
  `Math.random` draw becomes a split index `k`. The result is a cyclic shift
  and a permutation of the input, rotating back by the inverse index restores
  the input, and exactly one split index puts a given term at a given
  position. Its only caller, `getSearchQueriesFromRedis` (fbSpider.js:274),
  is called only from a commented-out block (fbSpider.js:289-307). The live
  loop walks `SEARCH_QUERIES` in environment order, unrotated, so the queries
  `CrawlDriver.Run` takes are not rotated.
- `PageSettling` (`settling.dfy`) models `scrollToEnd`. The page is the
  sequence of document heights it reports, and the method keeps the source's
  bounded `for` loop with its early `break`. The reference function
  `ScrollCount` counts the scrolls: the first round whose reading equals the
  previous one, or the bound 3.
- `JsText` (`jstext.dfy`) models the JavaScript string behaviour the
  extractors rely on:
  - `String.prototype.trim`, over ECMAScript's whitespace and line-terminator
    set;
  - `||` on strings;
  - the value `.attr()` returns: `undefined`, or a string whose truthiness
    matters.
- `ViewCount` (`viewcount.dfy`) models the view-count parser: the leftmost,
  longest match of `(\d+(?:,\d+)*)`, commas removed, read in base 10, or 0
  when nothing matches. A round trip shows that a count written with
  thousands separators parses back to itself.
- `Extractors` (`extractors.dfy`) models the three extractors:
  - the closed-page guard;
  - the caught container timeout;
  - the uncaught failures after that point;
  - the navigation they make;
  - the record each matched node becomes (defaults, origin prefix, view
    count);
  - the `.each` loop that builds one record per node, in node order.
- `CrawlDriver` (`driver.dfy`) models the live query loop. It is a method
  over a sequence of query pages, proved equal to a reference trace of
  `uploadResultsToAPI(record, type)` calls. `TraceOf` gives one iteration's
  trace from what its three extractor calls end with. `QueryTrace` applies it
  to one query page. `Combine` chains iterations until the first uncaught
  error. `RunTrace(qs)` is `Combine` over the iterations of `qs`.

A DOM node is a datatype holding the values its selectors produce:
`VideoNode`, `PostNode` and `PageNode`. A browser page, as an extractor sees
it, is a `Search` value with three cases:

- `NoContainer`: the container selector timed out;
- `Rendered`: the heights the settler reads and the matched nodes;
- `Failed`: `scrollToEnd` or `page.content()` threw.

Behaviours of the code that the model keeps:

- The driver runs videos, then posts, then pages (fbSpider.js:314-327).
- No `try`/`catch` surrounds the loop body. An error thrown after the
  container appeared ends the whole run, not only that query, so a
  `Trace` carries a `crashed` flag.
- A video node without a watch link is not dropped. Its `postUrl` stays
  `undefined` (modelled as `Absent`), and the record is still pushed.
- A present, non-empty href always gets `https://www.facebook.com` prepended,
  even one that is already absolute (`AbsoluteHrefGetsOriginTwice`). An empty
  href is falsy and stays as it is.
- Post and page URLs are not prefixed.
- `navigateToSearch` always builds the video search URL, also for the post
  and page extractors (`RunExtractor`'s `visited`).
  `FACEBOOK_SEARCH_POSTS_URL` is never used.
- `uploaderProfileUrl` is computed like the video URL but never stored in
  the record (`UploaderProfileUrl`).
- The driver's `|| []` fallback never applies: an extractor either returns
  an array or throws.

## Model

| member | source | states |
|---|---|---|
| TermRotation.Rotate | fbSpider.js:258-262 | an empty array comes back unchanged; otherwise the result has the same length and the same multiset of terms, and position `i` holds the input's term `k` places further on, wrapping around at the end |
| TermRotation.RotateInverse | fbSpider.js:258-262 | rotating the result again by the complementary split index gives back the original array, so the rotation loses no term and no order |
| TermRotation.RotatePreservesSuccessor | fbSpider.js:261 | the cyclic order is kept: a term's cyclic successor in the input is still its successor in the rotated list |
| TermRotation.ExactlyOneSplitPlacesTerm | fbSpider.js:260-261 | for distinct terms, every term reaches every position under exactly one split index, so a uniform draw puts each term in each position with equal chance |
| PageSettling.ScrollCount | fbSpider.js:134-141 | the number of scrolls is at most 3; no round before it reads an unchanged height; if it is below 3, that round's reading equals the previous one |
| PageSettling.FirstReadingDecidesFirstScroll | fbSpider.js:134-137 | since `previousHeight` starts at 0, the page is scrolled at least once exactly when the first reading is not 0 |
| PageSettling.AllRoundsIffNoRepeat | fbSpider.js:135-141 | the page is scrolled the full 3 times exactly when no round reads the height it read before: the first reading is not 0 and each of the next two differs from the one before it |
| PageSettling.ScrollToEnd | fbSpider.js:133-142 | the loop makes at most 3 measurements and stops at the first unchanged reading; the scrolls it makes equal `ScrollCount`, the measurements are one more unless the bound was reached, and the final `previousHeight` is the last reading scrolled past |
| JsText.Trim | fbSpider.js:168 | the result is the input with the leading and trailing whitespace or line terminators removed: a contiguous slice, empty exactly when the input is all whitespace, and otherwise not starting or ending with whitespace |
| ViewCount.FirstMatch | fbSpider.js:170 | no match exactly when the text has no digit; otherwise the match starts at the first digit, is a comma-grouped number, and cannot be extended to a longer one |
| ViewCount.GreedyEndUnique | fbSpider.js:170 | a grouped number that the pattern cannot extend ends exactly where the greedy scan ends |
| ViewCount.StripCommas | fbSpider.js:171 | `replace(/,/g, "")` leaves no comma and keeps every other character (the multiset minus the commas); their order is fixed by `StripCommasAppend` |
| ViewCount.StripCommasAppend | fbSpider.js:171 | removing the commas distributes over concatenation, so with the one-character cases every non-comma character stays in its original order |
| ViewCount.StripNoCommas | fbSpider.js:171 | a string of digits comes through the comma removal unchanged |
| ViewCount.DigitsValueAppend | fbSpider.js:171 | `DigitsValue`, the model of `parseInt(digits, 10)`, reads left to right: the value of `a` followed by `b` is the value of `a` shifted by the length of `b`, plus the value of `b` |
| ViewCount.Decimal | fbSpider.js:171 | the base-10 numeral of `n` is a non-empty string of digits that `DigitsValue` (`parseInt` in base 10) reads back as `n` |
| ViewCount.ParseViews | fbSpider.js:170-171 | a text with no digit gives 0 views |
| ViewCount.ParseGroupedViews | fbSpider.js:170-171 | a count written with thousands separators, after digit-free text and before text the pattern cannot consume, parses back to that count |
| Extractors.PrefixOrigin | fbSpider.js:165-166 | a truthy href becomes the origin followed by the href; an absent or empty href is unchanged |
| Extractors.AbsoluteHrefGetsOriginTwice | fbSpider.js:166 | an href that already starts with the origin gets the origin a second time |
| Extractors.VideoRecordFields | fbSpider.js:165-185 | of `VideoRecordOf`, the per-node body: `image` equals `thumbnail` and `time` equals `duration`; the thumbnail is the truthy `src` or ""; duration, title and uploader are the trimmed text or "Unknown", "Untitled", "Unknown", and never empty; `postUrl` is present exactly when the watch link is, prefixed when truthy and left as it is (absent or empty) otherwise; `views` is the parsed count |
| Extractors.UploaderProfileUrl | fbSpider.js:173-174 | the uploader link is prefixed like the video link: present exactly when the href is, prefixed when truthy |
| Extractors.EmptyVideoNodeDefaults | fbSpider.js:176-187 | a node whose selectors all come up empty still yields a record, made only of defaults and with no video URL |
| Extractors.PostRecordFields | fbSpider.js:211-214 | of `PostRecordOf`, the per-node body: `postUrl` is the link's href, or "" when it is missing or empty, and never prefixed; `content` is the trimmed paragraph text, or "No content available" |
| Extractors.PageRecordFields | fbSpider.js:238-241 | of `PageRecordOf`, the per-node body: `pageUrl` is the link's href, or "", and never prefixed; `name` is the trimmed heading, or "Unknown Page" |
| Extractors.Collect | fbSpider.js:163-188 | the `.each` loop builds exactly `RecordsOf(nodes, recordOf)`, the map of every node to its record in node order, which is also what `Extract` returns |
| Extractors.Extract | fbSpider.js:144-191 | a closed page or a missing container gives an empty array; the extractor throws exactly when the page is open and the settling or content read fails; otherwise it returns one record per node |
| Extractors.OneRecordPerNode | fbSpider.js:163-244 | an extractor that reaches its nodes returns an array with one record per node, record `i` built from node `i` |
| Extractors.RunExtractor | fbSpider.js:144-191 | a closed page visits nothing; otherwise the video search URL is visited once, and the outcome is `Extract`'s |
| Extractors.ScrapeVideos | fbSpider.js:144-191 | `scrapeFacebookVideos` visits the video search URL unless the page is closed, and ends as `Extract` with the video record builder |
| Extractors.ScrapePosts | fbSpider.js:193-218 | `scrapeFacebookPosts` also visits the video search URL unless the page is closed, and ends as `Extract` with the post record builder |
| Extractors.ScrapePages | fbSpider.js:220-245 | `scrapeFacebookPages` also visits the video search URL unless the page is closed, and ends as `Extract` with the page record builder |
| CrawlDriver.CategoriesInFixedOrder | fbSpider.js:314-327 | within an iteration (`TraceOf` the three extractor outcomes), whatever the extractors return, no upload of a later category precedes one of an earlier category (video, then post, then page) |
| CrawlDriver.GroupsInExtractionOrder | fbSpider.js:314-327 | within an iteration (`TraceOf` the three extractor outcomes), the uploads of each type are exactly that extractor's records in extraction order; a type whose extractor threw, or never ran because an earlier one threw, has none |
| CrawlDriver.NothingFoundUploadsNothing | fbSpider.js:311-330 | `QueryTrace`: a query whose page is closed, or whose three containers all time out, uploads nothing and the loop goes on |
| CrawlDriver.OneUploadPerNode | fbSpider.js:311-330 | `QueryTrace`: when all three extractors reach their nodes, the iteration uploads one record per matched node and does not stop the run |
| CrawlDriver.CrashEndsRun | fbSpider.js:311-330 | `Combine`, which chains the iterations of a run: the run's uploads are those of the iterations before the first one that throws, followed by what that iteration uploaded before throwing; later queries contribute nothing and the run ends crashed |
| CrawlDriver.NoCrashEndsNormally | fbSpider.js:311-330 | `Combine`: a run in which no iteration throws ends normally |
| CrawlDriver.RunConcatenates | fbSpider.js:311-330 | `Combine`: without an uncaught error, the run's uploads split at any query into those of the queries before it and those from it on |
| CrawlDriver.UploadEach | fbSpider.js:315-317 | the upload loop appends exactly `Uploads(records, ...)`: one upload per record, in record order, each tagged with the extractor's type |
| CrawlDriver.RunQuery | fbSpider.js:312-329 | one iteration: extractors and uploads in the source's order, yielding exactly `QueryTrace(q)` |
| CrawlDriver.Run | fbSpider.js:311-330 | the query loop yields exactly `RunTrace(qs)`, `Combine` over the `QueryTrace` of each query: the iterations' uploads one after the other, up to and including the first that throws |

## Left out

- Browser launch, `loginToFacebook`, cookies, `process.stdin` and `process.exit` (fbSpider.js:31-114) are browser and file I/O with no computable core.
- The 5-second dwells, `waitUntil` options and `newPage`/`close` lifecycle are timing and browser state. The model takes their observable result as inputs: the closed flag, the container timeout, the height readings.
- Navigation errors inside `navigateToSearch` are caught and logged (fbSpider.js:124-129). The model records only which URL is visited.
- The URL builders with `encodeURIComponent` and the base64 filter constants (fbSpider.js:14-16) are thin library wrappers. A visited URL is represented by its kind and query.
- Cheerio selector matching is not modelled. A node is given as the values its selectors yield.
- The Redis client and `getSearchQueriesFromRedis` (fbSpider.js:24-29, 264-279) are calls into a foreign store. Only the rotation they call is modelled.
- `Math.random` is left out. The split index is a parameter.
- The commented-out Redis driver block (fbSpider.js:289-307) is dead code.
- Environment parsing of `SEARCH_QUERIES` and the credentials (fbSpider.js:18-23) is left out. The model takes the query list as given.
- `uploadResultsToAPI` (fbSpider.js:248-255) only logs. Each call is an entry appended to a trace.
- PageSettling.ScrollToEnd: requires a height reading for each of the 3 rounds the loop can run. The browser always answers a measurement, and the model supplies those answers as a sequence.
- ViewCount.ParseViews: the count is an unbounded natural number. `parseInt` returns a double: it loses precision above 2^53 and becomes `Infinity` for a digit run of more than about 308 digits.
- ViewCount.ParseViews: its own contract states only the no-digit case. The value of a match is given by `FirstMatch`, `StripCommas` and `DigitsValue`, and `ParseGroupedViews` gives the round trip.
- Text extraction from HTML (`.text()` across several matched elements) is taken as the given raw string of each node.
- Console logging is left out.
