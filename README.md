# Google Maps review scraper — a Dafny model

This project models the core of a Google Maps review scraper.

- A Selenium/BeautifulSoup scraper object (`googlemaps.py`):
  - sorts a place's reviews (`sort_by`, with retries);
  - scrolls the review list (`__scroll`);
  - parses review blocks (`__parse`), turning relative dates such as "3 weeks ago" into review dates;
  - lists the reviews of a page from an offset (`get_reviews`);
  - parses place pages (`__parse_place`, `get_account`);
  - extracts place ids from URLs;
  - generates search URLs from square corner points.
- The command-line scraper (`scraper.py`). For each line of a URL file it either prints the place's account, or sorts the reviews, collects up to `N` of them page by page, and uploads them as a CSV table under `<slug>/<output name>`.
- The monitor (`monitor.py`). It sorts every URL by newest and collects up to `max_reviews` reviews. Reviews whose id is not yet stored are appended to one combined CSV object.
- The date recovery script (`recover_review_dates.py`). It lists the stored reviews without a `review_date`. For each, it searches the place's newest reviews, page by page, for the same id, and records the dates found.

The model replaces the outside world with parameters:

- The browser becomes oracles:
  - whether attempt `k` to open the sort menu works;
  - how many items the menu has;
  - the scroll heights read;
  - the reviews a page gives from an offset.
- The clock becomes clock texts or instants passed in.
- The object store becomes an `Option<Table>`, where `None` means the object cannot be read. The monitor reads the store again for every URL; whether that read works is an oracle (`readOk`).
- The uploads are returned as values.

A record (a Python dict) is a `map<string, Value>`. A CSV object is a header plus rows of cells. Reading a table back (`pandas.read_csv`) turns an empty cell into NaN (`Null`).

Files, one module each:

- `wrappers.dfy`: Option and Result.
- `strings.dfy`: the `str` operations the source uses.
- `calendar.dfy`: `datetime` and `relativedelta` arithmetic.
- `records.dfy`: records and tables.
- `relative_dates.dfy`, `reviews.dfy`, `places.dfy`, `search_points.dfy`, `browser.dfy`: `googlemaps.py`.
- `urls.dfy`: URLs and slugs.
- `pagination.dfy`: the collecting loop shared by the scraper and the monitor.
- `monitor.dfy`, `scraper.dfy`, `recovery.dfy`: the three scripts.

## Model

| member | source | states |
|---|---|---|
| Strings.Split | scraper.py:28 | `str.split(sep)` gives at least one piece, and no piece holds the separator |
| Strings.JoinSplit | scraper.py:28 | joining the pieces of a split with the separator gives back the text |
| Strings.SplitJoin | scraper.py:28 | splitting separator-free pieces joined by the separator gives back the pieces |
| Strings.SplitCount | scraper.py:28 | a split has one piece more than the text has separators |
| Strings.Strip | scraper.py:48 | `str.strip()` never lengthens a text and leaves no white space at either end |
| Strings.StripTrims | scraper.py:48 | the stripped text is a slice of the original, and only white space is cut from either end |
| Strings.StripUnpadded | scraper.py:48 | stripping a text without white space at its ends changes nothing |
| Strings.FirstWord | googlemaps.py:318 | `text.split()[0]` is missing exactly when the text is all white space; otherwise it is a non-empty word without white space |
| Strings.FirstWordOf | googlemaps.py:318 | the first word after leading white space is the word itself |
| Strings.ParseDecimal | googlemaps.py:318 | `int()` of the decimal text of any integer gives back that integer |
| Strings.LastPiece | scraper.py:55 | `split(m)[-1]` is a suffix of the text that does not contain `m` |
| Strings.LastPieceAfter | scraper.py:55 | for a marker that cannot overlap itself, the last piece of `a + m + t` is `t` when `t` lacks the marker |
| Strings.ReplaceChar | googlemaps.py:421 | `replace(a, b)` for one character keeps the length and changes exactly the occurrences of `a` |
| Strings.RemoveChar | googlemaps.py:380 | `replace(c, '')` leaves no `c` and never lengthens the text |
| Strings.RemoveConcat | googlemaps.py:380 | removing a character distributes over concatenation |
| Calendar.OrdinalOrder | googlemaps.py:316-330 | the day number of a valid date orders dates as the calendar does, and identifies them |
| Calendar.AddDays | googlemaps.py:318-322 | `timedelta` subtraction gives a valid date whose day number is shifted by exactly the days asked |
| Calendar.AddDaysCompose | googlemaps.py:318-322 | two day shifts are one shift by their sum |
| Calendar.AddDaysBack | googlemaps.py:318-322 | going back a non-negative number of days never moves forward |
| Calendar.AddMonths | googlemaps.py:323-325 | `relativedelta(months=k)` moves the month index by `k` and clamps the day to the target month's length |
| Calendar.AddYears | googlemaps.py:326-328 | `relativedelta(years=k)` keeps the month, moves the year by `k` and clamps the day |
| Calendar.AddYearsIsTwelveMonths | googlemaps.py:323-328 | a shift by `k` years equals a shift by `12k` months |
| Calendar.AddMonthsKeepsDay | googlemaps.py:323-325 | a day that exists in the target month is kept |
| Calendar.AddMonthsBack | googlemaps.py:323-325 | going back a non-negative number of months never moves forward |
| Records.ToTableCells | scraper.py:16-21 | an uploaded table has one line per record and one cell per column: the record's value, or an empty cell for a missing key |
| Records.ReadCell | monitor.py:89 | a cell read back is NaN exactly when it was empty or NaN; otherwise it is unchanged |
| Records.Zip | monitor.py:89 | a line read back has exactly the header's columns as keys |
| Records.ReadBack | monitor.py:89 | writing records under a distinct header and reading them back gives each column's value, with empty as NaN |
| Records.HeadersDistinct | scraper.py:13-14 | both headers name each column once |
| RelativeDates.MagnitudeOf | googlemaps.py:318 | the number is read from the first word only |
| RelativeDates.Normalize | googlemaps.py:311-333 | the relative date and the review date are set together; the relative date is the span text; the review date is valid and keeps the time of day |
| RelativeDates.DaysBack | googlemaps.py:317-319 | "day" gives the reference date minus `n` days, or nothing exactly when that date is out of Python's range |
| RelativeDates.WeeksBack | googlemaps.py:320-322 | "week" (without "day") gives the reference date minus `7n` days, or nothing exactly when that date is out of range |
| RelativeDates.MonthsBack | googlemaps.py:323-325 | "month" (without "day"/"week") gives the reference moved back `n` months with the day clamped, or nothing exactly when out of range |
| RelativeDates.YearsBack | googlemaps.py:326-328 | "year" (alone among the unit words) gives the reference moved back `n` years with the day clamped, or nothing exactly when the year is out of range |
| RelativeDates.NoUnitWord | googlemaps.py:329-330 | a text without a unit word keeps the text and takes the reference instant as the review date |
| RelativeDates.NoMagnitude | googlemaps.py:331-333 | a unit word without a leading integer clears both date fields |
| RelativeDates.NoSpan | googlemaps.py:331-333 | a review without a relative-date span has neither date field |
| RelativeDates.SingleUnitCleared | googlemaps.py:317-333 | "a week ago" and the like clear both fields, because "a" is not an integer |
| RelativeDates.ShiftBackNotAfter | googlemaps.py:317-328 | going back a non-negative span never passes the reference instant |
| RelativeDates.NotAfterReference | googlemaps.py:311-333 | with a non-negative number, the review date is never after the time of scraping |
| Urls.PlaceIdUrl | scraper.py:56 | the place page URL ends with the id, right after the fixed prefix and `q=place_id:` |
| Urls.SixSegments | scraper.py:28 | six slash-free pieces joined by `/` split back into those pieces |
| Urls.PlaceIdUrlSegments | scraper.py:56 | the slash-segments of a place id URL, of which the fifth is `place` |
| Urls.SlugOfSegments | scraper.py:26-28 | a URL of at least five slash-free segments is filed under its fifth segment |
| Urls.PlaceIdUrlSlug | scraper.py:26-30 | every place id URL is filed under the same slug, `place`, whatever the id |
| Reviews.FilterString | googlemaps.py:571-573 | carriage returns, line feeds and tabs become spaces; every other character is kept in place |
| Reviews.FilterStringClean | googlemaps.py:571-573 | a filtered text holds none of `\r`, `\n`, `\t` |
| Reviews.FilterStringIdempotent | googlemaps.py:571-573 | filtering twice is filtering once |
| Reviews.ExtractPlaceId | googlemaps.py:229-247 | an id exists exactly when `q=place_id:` followed by a non-`&` character occurs; it is the non-empty `&`-free run after the first such occurrence |
| Reviews.ExtractPlaceIdOf | googlemaps.py:241-243 | for a prefix without `q`, the id between the marker and the next `&` is extracted |
| Reviews.PlaceIdRoundTrip | googlemaps.py:229-247 | the id of the place page URL built for an id is that id |
| Reviews.RatingToken | googlemaps.py:299-303 | the rating is the first space-separated token of the label when it is a number, else missing |
| Reviews.ReviewerReviewsToken | googlemaps.py:335-338 | the reviewer's review count is the fourth token as text, or 0 with fewer tokens |
| Reviews.FieldsIndependent | googlemaps.py:267-362 | each field of a parsed review depends only on its own attribute or element, and every review carries the same retrieval instant |
| Reviews.DatesTogether | googlemaps.py:311-333 | the relative date and the review date are missing together, and a review date is valid |
| Reviews.EmptyBlock | googlemaps.py:267-362 | a block with nothing readable gives missing fields, 0 reviews by the user and the retrieval instant |
| Reviews.AsRecord | googlemaps.py:345-360 | a parsed review has exactly the review header's keys; the photo count and the user URL are never set |
| Reviews.ReviewRow | scraper.py:21 | the line written for a review lists its fields in header order |
| Reviews.Start | googlemaps.py:216-217 | the first block listed is the offset clamped to the page |
| Reviews.PageAt | googlemaps.py:216-222 | the `i`-th review listed is block `offset + i`, parsed and tagged with the URL's place id |
| Reviews.GetReviews | googlemaps.py:195-225 | `get_reviews` lists every block from the offset on, in order, each tagged with the place id of the URL and keeping its own id, even a missing one |
| Places.ReviewCountOf | googlemaps.py:379-382 | the review count is the integer between the first `(` and the `)` |
| Places.PhotoCountOf | googlemaps.py:384-387 | the photo count is the leading integer of the counter text |
| Places.Coordinates | googlemaps.py:427-429 | the coordinates fail exactly when the URL has no seventh segment or it does not have three comma-separated parts |
| Places.CoordinatesOf | googlemaps.py:427-429 | a segment `@lat,long,zoom` gives the latitude without `@`, and the longitude |
| Places.FewSegmentsNoCoordinates | googlemaps.py:427 | a URL with at most six segments raises |
| Places.PlaceIdUrlHasNoCoordinates | googlemaps.py:427 | a place id URL never has coordinates |
| Places.ParsePlace | googlemaps.py:365-431 | parsing fails exactly when the coordinates do; otherwise the place keeps the URL and its coordinates |
| Places.DetailsByPosition | googlemaps.py:399-418 | address, website, phone and plus code are detail lines 0 to 3 by position: each is present exactly when its line exists, and then holds that line's text |
| Places.MissingWebsiteShifts | googlemaps.py:399-418 | without a website line, the phone lands in `website` and the plus code in `phone_number` |
| Places.TextFieldsCleaned | googlemaps.py:369-423 | the name is stripped, and the opening hours hold no narrow no-break space |
| Places.GetAccount | googlemaps.py:250-265 | the account fails exactly when the place does; otherwise it is the place plus the URL's place id |
| Places.AccountByIdFails | googlemaps.py:250-265 | the account of a place id URL always raises |
| SearchPoints.Unique | googlemaps.py:441 | `unique()` keeps each value once, nothing else, in order of first appearance |
| SearchPoints.UniqueOrder | googlemaps.py:441 | the unique values keep the order of their first appearance |
| SearchPoints.SearchUrlSegments | googlemaps.py:452 | a search URL has seven segments: the keyword sixth, and the seventh read back as coordinates (longitude first) |
| SearchPoints.ProductAt | googlemaps.py:450 | `itertools.product` puts triple `(a, b, c)` at position `a·(B·C) + b·C + c` |
| SearchPoints.ProductUrlAt | googlemaps.py:450-453 | the URL at that position is built from keyword `c`, longitude `b` and latitude `a` |
| SearchPoints.InCity | googlemaps.py:447 | the points of a city are exactly the points with that city |
| SearchPoints.SearchUrls | googlemaps.py:434-455 | as many URLs as, summed over the cities, latitudes times longitudes times keywords |
| SearchPoints.NoKeywordsNoUrls | googlemaps.py:437 | without keywords no URL is generated |
| SearchPoints.FirstCityFirst | googlemaps.py:445-453 | the URLs of the first city come first |
| Browser.FirstStop | googlemaps.py:494-507 | the first command after which the scrolling stops, with no stop before it |
| Browser.Scroll | googlemaps.py:484-512 | the scroll loop issues the commands up to the first failed reading or third unchanged reading in a row, at most `max_scrolls` |
| Browser.ScrollOutcome | googlemaps.py:484-512 | never more commands than the budget, and exhausting it means using all of it |
| Browser.UnchangedThree | googlemaps.py:499-502 | the no-change counter reaches 3 exactly when the last four readings are equal |
| Browser.GrowThenSettle | googlemaps.py:494-507 | heights that grow `k` times and then stay put stop after exactly `k + 3` commands |
| Browser.PyIndex | googlemaps.py:74 | Python list indexing: valid exactly for `-n <= ind < n`, counting from the end for negatives |
| Browser.SortBy | googlemaps.py:48-80 | `sort_by` returns -1 exactly when all five attempts fail; otherwise it clicks item `ind` or raises IndexError, after the first attempt that works |
| Browser.SortPage | googlemaps.py:48-80 | a page's sort ends in one of three ways: the menu never opens (-1), it opens without item `ind` (IndexError), or the page is sorted (0) |
| Pagination.Tag | scraper.py:72-75 | a kept review gets its retrieval date overwritten, and its source when given; nothing else changes |
| Pagination.ConcatSnoc | scraper.py:65 | concatenating one more batch appends it |
| Pagination.FetchedAt | scraper.py:62-77 | each batch was fetched at the offset where the batches before it end |
| Pagination.Keep | scraper.py:69-75 | the inner loop keeps the batch's reviews in order until the cap, each tagged with its position's clock reading |
| Pagination.Gathered | scraper.py:59-77 | the reviews the fetch loop keeps, as a function of the pages: never more than `N` |
| Pagination.GatherNext | scraper.py:62-77 | after the reviews held so far, an empty batch ends the list; a batch that stays below `N` is appended whole; otherwise its first reviews up to `N` are appended and the list ends |
| Pagination.GatheredFrom | scraper.py:64-75 | every kept review is one of a fetched batch's reviews |
| Pagination.Collect | scraper.py:59-77 | the reviews kept are exactly `Gathered` of the pages, tagged in order with their clock readings; the loop stops at an empty batch or once `N` are held; batches are fetched at advancing offsets |
| Monitor.NewRows | monitor.py:66-69 | the new rows are exactly the scraped records whose id is not stored |
| Monitor.NewRowsAppend | monitor.py:69 | the filter keeps scrape order: filtering a concatenation gives the filtered parts, concatenated |
| Monitor.NewRowsOne | monitor.py:69 | a single record is kept exactly when its id is not stored |
| Monitor.Sync | monitor.py:60-73 | the comparison raises exactly when a non-empty stored table has no `id_review` column or no scraped record has an id; otherwise it uploads exactly when some scraped id is new; the upload is the stored rows in order, then `NewRows` of the scrape, in scrape order |
| Monitor.EmptyScrapeFails | monitor.py:63-64 | an empty scrape raises, whatever is stored |
| Monitor.NothingStoredUploadsAll | monitor.py:86-93 | with nothing readable stored, the whole scrape is uploaded |
| Monitor.MissingIdAlwaysUploaded | monitor.py:62-69 | a record without an id is uploaded again on every run |
| Monitor.IdReadsBack | monitor.py:89 | a non-empty text id written into the table reads back as itself |
| Monitor.AllKnownNoUpload | monitor.py:66-73 | when every scraped id is stored, nothing is uploaded |
| Monitor.UploadedIdsKnown | monitor.py:66-70 | every scraped id is among the ids of the uploaded table |
| Monitor.SecondRunNoUpload | monitor.py:60-73 | re-running the same scrape against the table just uploaded uploads nothing |
| Monitor.NormalIdempotent | monitor.py:95-101 | normalising a line twice is normalising it once |
| Monitor.RewriteLine | monitor.py:95-101 | a stored line read back and written again is the line with empty cells as NaN, padded to the header |
| Monitor.UploadKeepsLines | monitor.py:69-70 | an upload keeps every stored line, in place and normalised, and adds at least one |
| Monitor.ScrapeAndMonitor | monitor.py:30-78 | the final combined object is `MonitorRun`: `Sync` folded over the URLs in order, each against what that URL's read of the store gives and on the reviews gathered from its page, skipping a URL whose sort fails or whose comparison raises; at most one upload per URL; without uploads the store is unchanged; with no reviews wanted or a menu that never opens, nothing is uploaded; when every read works, stored lines are never lost |
| Monitor.MonitorUrl | monitor.py:36-73 | one URL's `try` body: the object after it is `AfterUrl`; an upload writes a table under `HEADER`; with a working read, it keeps every line it read, normalised, and adds at least one |
| Monitor.SortFailureSkips | monitor.py:38-41 | a URL whose sort fails leaves the combined object as it was for the next URL |
| Monitor.FailedReadDropsLines | monitor.py:61-70 | when a URL's read fails (monitor.py:86-93) and its scrape has an id, the combined object is overwritten with that scrape alone, losing every line stored before |
| Scraper.SortIndexTable | scraper.py:10 | the four sort names map to 0-3, one position each |
| Scraper.RewriteOf | scraper.py:54-56 | a line holding `place_id:` becomes the place page URL of what follows the marker |
| Scraper.RewriteIdempotent | scraper.py:54-56 | rewriting a rewritten URL changes nothing |
| Scraper.RewriteKeepsId | scraper.py:54-56 | the place id of the rewritten URL is the id of the line |
| Scraper.SourceColumnEmpty | scraper.py:73-74 | as written, the `url_source` column is empty on every line |
| Scraper.SourceColumnFilled | scraper.py:73-74 | under the corrected header, every line carries its source URL |
| Scraper.HeaderColumns | scraper.py:13-14 | both headers put the retrieval date in column 8; `HEADER_W_SOURCE` names column 9 `url_source`, which is not the tag's key `source_url`, and no header written names `source_url` |
| Scraper.TaggedTable | scraper.py:72-82 | a line's table uses the header the program chooses; every row has its clock reading in the retrieval column; with `--source`, a review without a `url_source` field gets an empty last cell |
| Scraper.LineTableStamped | scraper.py:59-82 | the table written for a line has the chosen header, at most `N` rows, each stamped; with `--source` and pages whose reviews carry no `url_source` field, its last column is empty |
| Scraper.ScrapeLine | scraper.py:57-82 | a line raises exactly when the menu opens without the item; it yields a table exactly when the sort worked, and that table is `LineTable`: the first `N` reviews of its pages, tagged, under the header the program writes |
| Scraper.PrintAccounts | scraper.py:51-52 | with `--place`, every account is printed, in order, until the first line that raises |
| Scraper.UploadKeys | scraper.py:80 | each line's key is its slug, `/`, and the output name |
| Scraper.SourceUrls | scraper.py:54-56 | each line's reviews are tagged with the line, rewritten when it names a place id |
| Scraper.UploadReviews | scraper.py:53-84 | lines are done in order until one raises; exactly the lines whose sort worked are uploaded, each under its key, with its `LineTable` |
| Scraper.Run | scraper.py:45-84 | the run stops at the first line that raises; `--place` prints accounts and uploads nothing; otherwise the uploads are each line's `LineTable` under its key, as above |
| Recovery.MissingRows | recover_review_dates.py:27 | exactly the rows whose `review_date` is NaN are listed |
| Recovery.MissingRowsAppend | recover_review_dates.py:27 | the filter keeps table order |
| Recovery.MissingList | recover_review_dates.py:18-30 | the list exists exactly when the table was read and has a `review_date` column |
| Recovery.DatedRowNotMissing | recover_review_dates.py:27 | a row written with a date is never searched for |
| Recovery.FirstWithId | recover_review_dates.py:62-66 | a match exists exactly when some review has the id, and it is one of them |
| Recovery.FirstWithIdAppend | recover_review_dates.py:62-85 | the first match of two parts is the first part's when it has one |
| Recovery.FirstWithIdIsFirst | recover_review_dates.py:62-85 | the match found comes no later than any review with the id |
| Recovery.Search | recover_review_dates.py:54-87 | what the search finds always has the row's id |
| Recovery.NullIdNotFound | recover_review_dates.py:66 | a row whose id is NaN is never found |
| Recovery.ScanPage | recover_review_dates.py:62-85 | the `for` loop stops at the first review of the page with the id |
| Recovery.NextPage | recover_review_dates.py:57-87 | the next page is fetched where the previous ones end, and the first match over all pages is that page's |
| Recovery.SearchRow | recover_review_dates.py:54-87 | the search loop finds the first review with the id across pages fetched at advancing offsets; it ends at that page or at the first empty page, with no match before |
| Recovery.Entry | recover_review_dates.py:78-83 | an entry has exactly the four keys, the row's id and the clock text |
| Recovery.EntryCoalesces | recover_review_dates.py:68-76 | each date field is the first truthy of the review's fields in order, or empty; a number is converted to a date text |
| Recovery.RecoveredSnoc | recover_review_dates.py:78-85 | a found row appends one entry, after those of earlier rows |
| Recovery.RecoverRows | recover_review_dates.py:43-90 | rows are done in order until one raises; a row gets exactly one entry when its menu opened and its id was found, with that review's dates; rows are never repeated |
| Recovery.RecoveredTable | recover_review_dates.py:93-94 | the saved table has one line per entry |
| Recovery.RecoverDates | recover_review_dates.py:15-102 | the missing list is the filter's; the recovered table is saved exactly when that list exists, even after a row raises, since `__exit__` swallows the exception; it holds the entries of the rows done before the raise, with their dates |

## Left out

- The browser (Selenium), BeautifulSoup traversal, the object store (boto3), logging, colour output and argparse are not modelled. They are replaced by the oracles and parameters described above.
- `get_places`, the cookie banner, `__expand_reviews` and the driver set-up are not modelled. They are browser calls with nothing to state beyond I/O.
- `__exit__` (googlemaps.py:39-46) returns True, so an exception inside a `with GoogleMapsScraper()` block is printed and swallowed. The model takes this into account: a raising line ends the scraper run quietly, and the recovery script still saves what it recovered. Printing the traceback and closing the driver are not modelled.
- The commented-out earlier versions of `get_reviews`, `__scroll` and the relative-date block are not modelled.
- Floating point:
  - a rating is kept as the decimal text it was read from;
  - coordinates are kept as text;
  - `float()` accepts an optional sign, digits and one point only.
- `int()` strips surrounding white space, then accepts an optional sign and ASCII digits only. Underscores and non-ASCII digits are not accepted.
- Clock readings:
  - the review parser takes one reference instant per review and one stamp instant;
  - the scripts take one clock text per kept review, per line or per entry.
  - `strftime` formatting is not modelled.
- Recovery.ReviewDateOf: the `utcfromtimestamp` conversion of a numeric date is a parameter (`utcDate`). It is expected to give the empty text where Python raises.
- Recovery.Text: a float `place_id` is printed as the text it was read from, not by Python's float formatting. The URL it builds only names the page, which the oracles stand for.
- Recovery.SearchRow: the search loop has no bound of its own. The model requires each page to be empty from some offset on (`Bounded`); a place with unboundedly many reviews is not modelled.
- pandas details:
  - NaN cells written back by `csv.writer` appear as the text `nan`; the model writes them as NaN (`Null`);
  - a monitor column that is missing from a record is NaN in the concatenated frame (monitor.py:69), so `csv.writer` writes `nan`; the model writes an empty cell instead. Both read back as NaN;
  - `read_csv` NA tokens other than the empty field are not modelled;
  - numeric-looking ids are not converted to numbers;
  - an unreadable or empty stored object is the `None` case.
- Monitor.ScrapeAndMonitor:
  - the slug the monitor computes is only used in log messages and is not modelled;
  - an exception inside the per-URL `try` is logged and the next URL proceeds, which the model expresses as no upload for that URL.
- Scraper.Run: `--place` mode is split into `PrintAccounts` and `UploadReviews`. This is equivalent because the flag does not change during a run.
- Scraper.UploadReviews: the slug is taken from the line as read, before the `place_id:` rewrite, as the source does.
- The `--debug` flag and `MAX_WAIT` only affect the browser.

## Findings

| source | as written | input that shows it | evidently intended | confidence | as-written member | corrected member |
|---|---|---|---|---|---|---|
| scraper.py:73-74 | with `--source`, each review is tagged under the key `source_url`, but the header `HEADER_W_SOURCE` (scraper.py:14) names the column `url_source`, so the column is written empty | any run with `--source` and at least one review | the last column carries each review's source URL | high; not executed | Scraper.SourceColumnEmpty | Scraper.SourceColumnFilled |

The model's scraper writes `HEADER_W_SOURCE` with `--source`, as the program does, so its last column is empty (`Scraper.TaggedTable`, `Scraper.LineTableStamped`). `Scraper.SOURCE_HEADER` is the evidently intended header, whose last column is the tag's key.
