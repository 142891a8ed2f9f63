# Richest bitcoin addresses crawler, modelled in Dafny

`marx/crawler.py` builds a table of the richest bitcoin addresses from the
ranking pages of bitinfocharts.com. It works in four steps:

- it fetches `FIRST_URL`, then `SECOND_URL` with "X" replaced by 2, 3, ...;
- on each page it parses the table "tblOne" and then "tblOne2",
  "tblOne3", ... until an id is missing;
- from every row it takes the first three stripped cells: rank, address
  and balance;
- it appends page after page until the largest rank reaches the requested
  `limit`.

This project models that logic and proves what it promises. It has three
modules:

- `PyText` (`pytext.dfy`) models the Python string operations the crawler
  relies on: `str.strip`, `str.find`, the slice `s[:k]` (negative `k`
  included), `str.replace` with a one-character pattern, `str(n)` and
  `int(s)`.
- `Crawler` (`crawler.dfy`) holds the data model, the operations and the
  functions that specify them:
  - `ParseBalance` is `_parse_balance` up to `float`;
  - `ParseTable` is `_parse_table`, a method with its row loop;
  - `CrawlRichestAddressesByUrl` is the table-probing loop;
  - `CrawlRichestAddresses` and `CrawlPages` are the pagination loop.

  Every method is proved equal to a specification function: `TableResult`,
  `FetchPage`/`PageResult` or `Crawl`/`CrawlOn`.
- `CrawlerProperties` (`properties.dfy`) holds the lemmas about those
  functions:
  - the balance cleaning, including the missing-"BTC" quirk;
  - the fields and date of every record;
  - the order in which ids are probed, and that a page is the
    concatenation of its tables;
  - pagination order and concatenation, and the stop at the limit;
  - the result sizes 100/100/200/200 on a site served in pages of 100.

Modelling choices:

- An HTML document is a `map` from table id to a `Table`. A table holds
  the rows of its `tbody`, if it has one, and all its rows.
- A row is the sequence of its cell texts.
- Fetching is a function `Fetcher = string -> Option<Page>` given by the
  caller; `None` is a failed request.
- A data frame is a `seq<Record>` in row order. `reset_index(drop=True)`
  therefore has nothing left to do.
- Python exceptions become `Err` values of a `Result`:
  - `AssertionError` of the limit check: `LimitOutOfRange`;
  - failed request: `FetchFailed`;
  - `IndexError` of a short row: `MissingCell`;
  - `astype("int64")` failure: `BadRank`;
  - `None["rank"]` when the first page has no table: `NoFrame`;
  - `int(NaN)` of an empty frame: `EmptyFrame`.
- The pagination loop has no termination guarantee in Python. It is
  modelled with a page cap `pageCap`, the number of pages allowed after
  the first. Running out of pages gives `PageCapReached`.
- For the pagination lemmas, the site is seen by page number
  (`Site = nat -> Result<...>`). `SiteOf(fetch, today)` maps page `n` to
  what `_crawl_richest_addresses_by_url(UrlOf(n))` gives.

Notes on the code:

- The numbered ids are "tblOne2", "tblOne3", ...:
  `"tblOneX".replace("X", "2")` leaves no "X" (`TableIdIsReplace`).
- A row may have more than three cells: only the first three are read, and
  only a row with fewer than three is an error.
- A page with no "tblOne" but with "tblOne2" still gives the "tblOne2"
  tables, because `pd.concat` drops the `None`.

## Model

| member | source | states |
|---|---|---|
| PyText.StripLeadingSpec | marx/crawler.py:63 | `lstrip` removes exactly the leading whitespace: what it leaves is a suffix that does not start with whitespace, and everything cut is whitespace |
| PyText.StripTrailingSpec | marx/crawler.py:63 | `rstrip` removes exactly the trailing whitespace: what it leaves is a prefix that does not end with whitespace, and everything cut is whitespace |
| PyText.StripSpec | marx/crawler.py:63 | `strip` leaves a middle slice that neither starts nor ends with whitespace, with only whitespace cut on either side |
| PyText.Strip | marx/crawler.py:63 | defines `s.strip()` as `lstrip` followed by `rstrip` over Python's whitespace set; what it keeps and cuts is stated by `StripSpec` |
| PyText.StripUnchanged | marx/crawler.py:63 | text without whitespace at either end is left unchanged by `strip` |
| PyText.FindFrom | marx/crawler.py:25 | `s.find(pat, k)` is -1 or an occurrence at or after `k`, with no occurrence between `k` and it |
| PyText.Find | marx/crawler.py:25 | `s.find(pat)` is the first occurrence, or -1 exactly when `pat` does not occur |
| PyText.SliceTo | marx/crawler.py:26 | `s[:k]` is a prefix of `s`; it has length `k` for `0 <= k <= len(s)`, and `s[:-1]` drops exactly the last character |
| PyText.ReplaceChar | marx/crawler.py:26 | `replace` leaves text without the pattern unchanged, removes the pattern when the replacement lacks it, and does not lengthen the text for a replacement of at most one character |
| PyText.ReplaceCharConcat | marx/crawler.py:26 | replacing distributes over concatenation |
| PyText.ReplaceCharTemplate | marx/crawler.py:103-106 | a template with a single placeholder becomes the text around it with the replacement in its place |
| PyText.NatStr | marx/crawler.py:105-106 | `str(n)` is a non-empty run of digits with no leading zero |
| PyText.DigitsValueOfNatStr | marx/crawler.py:105-106 | the digits `str(n)` writes denote `n` |
| PyText.NatStrInjective | marx/crawler.py:105-106 | different numbers have different decimal strings |
| PyText.ParseIntOfNatStr | marx/crawler.py:78 | `int(str(n)) == n` |
| PyText.ParseInt | marx/crawler.py:78 | defines `int(s)` on a rank text: the stripped text is an optional sign followed by a non-empty run of ASCII digits and denotes their signed value; any other text is a ValueError (None) |
| PyText.ParseIntRejectsComma | marx/crawler.py:78 | `int` rejects a stripped text that contains a thousands separator |
| Crawler.ParseBalance | marx/crawler.py:18-27 | the cleaned balance has no "," and is shorter than a non-empty input |
| Crawler.StripCells | marx/crawler.py:62-63 | one stripped cell per cell, in order |
| Crawler.ParseRank | marx/crawler.py:78 | a rank text converts exactly when `int` accepts it and its value lies in the int64 range -2^63 to 2^63 - 1, and then to that value |
| Crawler.AllCompleteSpec | marx/crawler.py:61-67 | the recursive completeness check holds exactly when every row has at least three cells |
| Crawler.RowRecordsSpec | marx/crawler.py:61-81 | the complete rows give no records exactly when some rank is not an int64; otherwise one record per row, in row order, built from that row |
| Crawler.TableRecordsSpec | marx/crawler.py:46-81 | a table is a `MissingCell` error exactly when some row is short; it is a `BadRank` error exactly when all rows are complete and some rank is not an int64; otherwise it gives one record per row, built from that row |
| Crawler.TableRecords | marx/crawler.py:46-81 | defines what an existing table gives: `MissingCell` if any row is short, else `BadRank` if any rank is not an int64, else one record per row; stated over the rows by `TableRecordsSpec` |
| Crawler.TableResult | marx/crawler.py:30-82 | `_parse_table` as a value: None exactly when the document has no table with the id; otherwise the table's records, or its error |
| Crawler.ColumnsGiveRecords | marx/crawler.py:61-81 | the rank, address and balance columns the row loop collects give `RowRecords`: conversion fails exactly when the rows have a bad rank, and otherwise the frame is one record per row |
| Crawler.AsInt64 | marx/crawler.py:78 | `astype("int64")` fails exactly when some text is not an int64; otherwise each converted value is that text's int64 value, in order |
| Crawler.ParseTable | marx/crawler.py:30-82 | the row loop and conversions give `TableResult`, and the result is `None` exactly when the document has no table with the id |
| Crawler.TableIdIsReplace | marx/crawler.py:103-106 | `"tblOneX".replace("X", str(i))` is "tblOne" followed by the digits of `i` |
| Crawler.TableIdInjective | marx/crawler.py:102-108 | distinct indexes probe distinct ids |
| Crawler.ProbedIdsShrink | marx/crawler.py:105-108 | each table found shrinks the set of the page's ids still unprobed, so the probing loop ends |
| Crawler.Concat | marx/crawler.py:107 | `pd.concat` of two frames of which at most one is None, as at lines 107 and 133, holds the records of the first followed by those of the second; the both-None case stands for no concatenation at all (a page where probing found nothing) and gives None |
| Crawler.ConcatAssociative | marx/crawler.py:107 | concatenating frames one at a time does not depend on grouping |
| Crawler.ProbeStep | marx/crawler.py:105-108 | appending the table just found and probing on from the next id gives the same page as before |
| Crawler.ProbeFrom | marx/crawler.py:102-108 | defines the probing from "tblOne<i>" on: the tables found, in order, up to the first absent id, None when that id is absent, or the first table's error; its runs are stated by `ProbeFromRun` |
| Crawler.PageResult | marx/crawler.py:100-110 | defines the tables of one document: "tblOne" followed by the probed tables, joined as `pd.concat` joins them; stated by `PageConcatenatesTables` and `PageIsNoneIff` |
| Crawler.FetchPage | marx/crawler.py:85-110 | defines `_crawl_richest_addresses_by_url(url)` as a value: `FetchFailed(url)` when the request fails, else the page's tables |
| Crawler.CrawlRichestAddressesByUrl | marx/crawler.py:85-110 | the fetch and probing loop give `FetchPage`, and a failed request is `FetchFailed` for that URL |
| Crawler.SecondUrlHasOnePlaceholder | marx/crawler.py:15 | `SECOND_URL` has a single "X", the page-number placeholder |
| Crawler.PageUrlIsReplace | marx/crawler.py:131 | `SECOND_URL.replace("X", str(i))` is the URL of page `i` |
| Crawler.NextUrl | marx/crawler.py:131 | the URL built in the loop is the URL of page `page_index` |
| Crawler.UrlsUpToNext | marx/crawler.py:127-134 | the first `n + 1` URLs are the first `n` followed by the URL of page `n + 1` |
| Crawler.MaxRankSpec | marx/crawler.py:130 | `rank.max()` is the rank of some record, and no record ranks higher |
| Crawler.MaxRank | marx/crawler.py:130 | defines `int(balance_frame["rank"].max())` of a non-empty frame; that it is the largest rank is stated by `MaxRankSpec` |
| Crawler.FetchNextPage | marx/crawler.py:131-132 | one loop step fetches the URL of page `page_index` and gives what the site serves for that page |
| Crawler.CrawlOn | marx/crawler.py:130-134 | defines the loop from page `page_index` on: `EmptyFrame` on an empty frame, a stop once the largest rank reaches the limit, `PageCapReached` when the cap is spent, else fetch the page, stop on its error or append its records and go on; stated by the `CrawlOn...` lemmas |
| Crawler.Crawl | marx/crawler.py:113-136 | defines `crawl_richest_addresses(limit)`: `LimitOutOfRange` before any fetch, then page 1, with its error or `NoFrame` when it has no table, then the loop from page 2; stated by `CrawlPageCount`, `CrawlResultIsConcatenation` and `CrawlStopsAtLimit` |
| Crawler.CrawlPages | marx/crawler.py:128-136 | the `while` loop gives `CrawlOn` from page 2, and the URLs it requested are those of pages 1, 2, ... in order |
| Crawler.CrawlRichestAddresses | marx/crawler.py:113-136 | the crawl gives `Crawl` of the site and requests the URLs of pages 1, 2, ... in order; an out-of-range limit is `LimitOutOfRange` with no URL requested |
| CrawlerProperties.FirstMarkerAfter | marx/crawler.py:25 | in `p + "BTC" + q`, where `p` holds no "BTC", the first "BTC" starts right after `p` |
| CrawlerProperties.ParseBalanceBeforeMarker | marx/crawler.py:25-26 | the cleaned balance is the text before the first "BTC" with every "," removed |
| CrawlerProperties.ParseBalanceWithoutMarker | marx/crawler.py:25-26 | without "BTC", the cleaned balance is the input minus its last character, with every "," removed |
| CrawlerProperties.NoMarkerWithoutB | marx/crawler.py:25 | a text without the letter "B" contains no "BTC" |
| CrawlerProperties.RemoveSeparatorExample | marx/crawler.py:26 | `"1,234.50 ".replace(",", "")` is "1234.50 " |
| CrawlerProperties.ParseBalanceExample | marx/crawler.py:18-27 | "1,234.50 BTC" is cleaned to "1234.50 " |
| CrawlerProperties.TableRecordsFields | marx/crawler.py:61-80 | a table's records are one per row; each has the row's stripped first cell as rank (as an int64), its stripped address, the cleaned balance of its stripped third cell, and the one crawl date |
| CrawlerProperties.ParseRankExamples | marx/crawler.py:78 | the rank text "101" is 101, and "1,000" is rejected |
| CrawlerProperties.TableIdExamples | marx/crawler.py:103-106 | the probed ids for 2 and 3 are "tblOne2" and "tblOne3" |
| CrawlerProperties.PageIsNoneIff | marx/crawler.py:100-110 | a document gives None, not an empty frame, exactly when it has neither "tblOne" nor "tblOne2" |
| CrawlerProperties.ProbeFromRun | marx/crawler.py:102-108 | probing from "tblOne<i>" runs through the consecutive ids up to the first absent one and concatenates their tables in order |
| CrawlerProperties.PageConcatenatesTables | marx/crawler.py:100-110 | a page is "tblOne" followed by "tblOne2" to "tblOne<k-1>", where "tblOne<k>" is the first absent id; the first failing table decides the error |
| CrawlerProperties.TableShareDate | marx/crawler.py:70-75 | every record of one table carries the crawl date |
| CrawlerProperties.ProbeShareDate | marx/crawler.py:105-108 | every record of the probed tables carries the crawl date |
| CrawlerProperties.PageShareDate | tests/test_crawler.py:42 | every record of a page carries the one crawl date |
| CrawlerProperties.UrlsUpToSpec | marx/crawler.py:127-134 | the URLs requested are `FIRST_URL`, then `SECOND_URL` with "X" replaced by 2, 3, ... in order |
| CrawlerProperties.PageUrlInjective | marx/crawler.py:131 | different page numbers give different URLs |
| CrawlerProperties.PageUrlIsNotFirstUrl | marx/crawler.py:14-15 | no numbered page URL equals `FIRST_URL` |
| CrawlerProperties.UrlsUpToDistinct | marx/crawler.py:127-134 | a crawl never requests the same URL twice |
| CrawlerProperties.CollectedFront | marx/crawler.py:133 | collecting pages `lo` to `hi - 1` is page `lo` followed by the rest |
| CrawlerProperties.CrawlOnPages | marx/crawler.py:130-134 | the loop fetches at most as many pages as its cap allows |
| CrawlerProperties.CrawlOnStep | marx/crawler.py:130-134 | a loop that has not stopped appends the next page and goes on from the page after it |
| CrawlerProperties.CrawlOnFetchedOk | marx/crawler.py:130-134 | when the loop succeeds, every page it fetched succeeded |
| CrawlerProperties.CrawlOnSucceeds | marx/crawler.py:130-134 | when the loop succeeds, its result is the starting frame followed by the records of the fetched pages, in page order |
| CrawlerProperties.CrawlOnReachesLimit | marx/crawler.py:130 | when the loop succeeds, its result is non-empty and its largest rank has reached the limit |
| CrawlerProperties.CrawlOnBelowLimit | marx/crawler.py:130 | before each page the loop fetched, the frame was non-empty and its largest rank was below the limit |
| CrawlerProperties.CrawlPageCount | marx/crawler.py:125-134 | no page is fetched exactly when the limit is out of range; otherwise at most `pageCap + 1` pages are fetched |
| CrawlerProperties.CrawlResultIsConcatenation | marx/crawler.py:127-136 | a successful crawl is the concatenation of pages 1 to its last page, and every one of them succeeded |
| CrawlerProperties.CrawlStopsAtLimit | marx/crawler.py:130 | a successful crawl ends with its largest rank at the limit or above, and before each page after the first the ranks collected were below the limit |
| CrawlerProperties.SiteOfShareDate | marx/crawler.py:127-132 | every page served through the fetcher carries the crawl date |
| CrawlerProperties.CollectedShareDate | marx/crawler.py:133 | concatenated pages that each carry the date carry it throughout |
| CrawlerProperties.CrawlShareDate | marx/crawler.py:113-136 | every record of a successful crawl carries the one crawl date |
| CrawlerProperties.PagesFor | marx/crawler.py:118-120 | the number of pages a limit needs is the least `n >= 1` with `100 n >= limit` |
| CrawlerProperties.MaxRankConsecutive | marx/crawler.py:130 | a frame ranked 1, 2, 3, ... has its length as largest rank |
| CrawlerProperties.CrawlOnBatches | marx/crawler.py:118-134 | on a site served in pages of 100 consecutive ranks, the loop returns `100 * PagesFor(limit)` consecutive records from `PagesFor(limit)` pages |
| CrawlerProperties.CrawlInBatches | marx/crawler.py:118-120 | with pages of 100 and a large enough cap, the crawl returns the least multiple of 100 at or above the limit, ranked 1, 2, 3, ... |
| CrawlerProperties.CrawlTestCases | tests/test_crawler.py:70-95 | the limits 1, 50, 110 and 200 give 100, 100, 200 and 200 records; the limits 0 and 10001 are refused with no page fetched |

## Left out

- HTTP (`requests.get`, marx/crawler.py:96) is not modelled: the document comes from a caller-supplied `Fetcher`. A failed request is `FetchFailed`. The HTTP status is not looked at, as in the source.
- BeautifulSoup parsing (marx/crawler.py:42-43, 52-58, 62) is not modelled: a document is already a map from id to table. Several tables with the same id, which `soup.find` would resolve by document order, are not representable. Neither are the `td` cells of a nested table, which `find_all` would also return.
- The rows `findAll("tr")` returns are taken as given (`Table.rows` and `Table.body`). Their search through the HTML tree is not modelled.
- pandas is not modelled: a frame is a sequence of records. `pd.concat` is `Concat`. `reset_index(drop=True)` needs no counterpart, because a sequence is always indexed 0..n-1.
- Crawler.ParseBalance: stops at the cleaned text. The `float` conversion (floating point) is left out, so `balance` holds the text `float` would receive, and a `ValueError` from `float` is not modelled.
- PyText.ParseInt: accepts an optional sign and ASCII digits inside Python whitespace. Underscores between digits and non-ASCII digits, both of which `int()` also accepts, are not modelled.
- `date.today()` (marx/crawler.py:74) is a clock read: one `Date` parameter is passed in for the whole crawl. The source reads the clock once per table, so a crawl running past midnight could mix two dates; the model cannot show that.
- Logging (marx/crawler.py:94) is not modelled.
- Crawler.CrawlRichestAddresses: adds a page cap (`pageCap`) that the source does not have. The source loop may run forever when the ranks stop growing. The model returns `PageCapReached` instead, and states nothing about a crawl that needs more than `pageCap + 1` pages.
- execute_crawler.py (argument parsing, banner, file naming and CSV writing) is command-line plumbing and is not part of this model.
- Crawler.Concat: gives None for two None operands, where `pd.concat([None, None])` raises a `ValueError`. The source never reaches that case: at line 107 the loop test has excluded a None `new_frame`, and at line 133 `balance_frame` is never None, because line 130 would already have failed on `None["rank"]`. The model uses the both-None case only inside `Then`, to mean that no concatenation took place.
- Crawler.CrawlRichestAddresses: the limit check at marx/crawler.py:125 is a Python `assert`, which `python -O` removes. `LimitOutOfRange` models the program run with assertions enabled.
- The assertion message "Condition 0 < limit < 10000 violated" (marx/crawler.py:125) is not modelled. The condition itself, `0 < limit <= 10000`, is.
