/** What the crawler promises, proved about the model: the balance text,
    the records of a table, the tables of one page and the pages of a
    crawl. */
module CrawlerProperties {
  import opened PyText
  import opened Crawler

  // ---------------------------------------------------------------------
  // Balances

  /** No "BTC" starts inside `p` or across its end, so in `p + "BTC" + q`
      the first one is right after `p`. */
  lemma FirstMarkerAfter(p: string, q: string)
    requires forall j :: !OccursAt(p, "BTC", j)
    ensures Find(p + "BTC" + q, "BTC") == |p|
  {
    var s := p + "BTC" + q;
    assert s[|p|..|p| + 3] == "BTC";
    assert OccursAt(s, "BTC", |p|);
    forall j | 0 <= j < |p|
      ensures !OccursAt(s, "BTC", j)
    {
      if j + 3 <= |p| {
        assert s[j..j + 3] == p[j..j + 3];
        assert !OccursAt(p, "BTC", j);
      } else if j + 1 == |p| {
        assert s[j..j + 3][1] == s[j + 1] == 'B';
      } else {
        assert s[j..j + 3][2] == s[j + 2] == 'B';
      }
    }
  }

  /** The cleaned balance is the text before the first "BTC" without its
      thousands separators. */
  lemma ParseBalanceBeforeMarker(p: string, q: string)
    requires forall j :: !OccursAt(p, "BTC", j)
    ensures ParseBalance(p + "BTC" + q) == ReplaceChar(p, ',', "")
  {
    FirstMarkerAfter(p, q);
    assert (p + "BTC" + q)[..|p|] == p;
  }

  /** Without any "BTC", `find` gives -1 and `balance[:-1]` drops the last
      character of the balance. */
  lemma ParseBalanceWithoutMarker(s: string)
    requires forall j :: !OccursAt(s, "BTC", j)
    ensures ParseBalance(s) == ReplaceChar(s[..if s == [] then 0 else |s| - 1], ',', "")
  {
  }

  /** A text without the letter 'B' has no "BTC" in it. */
  lemma NoMarkerWithoutB(p: string)
    requires 'B' !in p
    ensures forall j :: !OccursAt(p, "BTC", j)
  {
    forall j | 0 <= j && j + 3 <= |p|
      ensures !OccursAt(p, "BTC", j)
    {
      assert p[j..j + 3][0] == p[j];
    }
  }

  lemma RemoveSeparatorExample()
    ensures ReplaceChar("1,234.50 ", ',', "") == "1234.50 "
  {
    assert "1,234.50 " == "1" + [','] + "234.50 ";
    ReplaceCharTemplate("1", "234.50 ", ',', "");
    assert "1" + "" + "234.50 " == "1234.50 ";
  }

  /** "1,234.50 BTC" becomes "1234.50 ". */
  lemma ParseBalanceExample()
    ensures ParseBalance("1,234.50 " + "BTC") == "1234.50 "
  {
    var p := "1,234.50 ";
    NoMarkerWithoutB(p);
    ParseBalanceBeforeMarker(p, "");
    assert p + "BTC" + "" == p + "BTC";
    RemoveSeparatorExample();
  }

  // ---------------------------------------------------------------------
  // One table

  /** The fields of every record a table gives: the integer value of the
      stripped rank text, the stripped address, the cleaned balance and the
      one date. */
  lemma TableRecordsFields(table: Table, crawled: Date)
    requires TableRecords(table, crawled).Ok?
    ensures var rows, records := TableRows(table), TableRecords(table, crawled).value;
      |records| == |rows| &&
      forall i :: 0 <= i < |rows| ==>
        |rows[i]| >= 3 && Some(records[i].rank) == ParseRank(Strip(rows[i][0])) &&
        records[i].address == Strip(rows[i][1]) &&
        records[i].balance == ParseBalance(Strip(rows[i][2])) &&
        records[i].crawled == crawled
  {
    TableRecordsSpec(table, crawled);
  }

  /** A rank is the integer its digits denote; a thousands separator makes
      it invalid. */
  lemma ParseRankExamples()
    ensures ParseRank("101") == Some(101)
    ensures ParseRank("1,000") == None
  {
    ParseIntOfNatStr(101);
    assert NatStr(101) == "101";
    StripUnchanged("1,000");
    ParseIntRejectsComma("1,000");
  }

  // ---------------------------------------------------------------------
  // One page

  lemma TableIdExamples()
    ensures ReplaceChar(TableIdTemplate, 'X', NatStr(2)) == "tblOne2"
    ensures ReplaceChar(TableIdTemplate, 'X', NatStr(3)) == "tblOne3"
  {
    TableIdIsReplace(2);
    TableIdIsReplace(3);
    assert NatStr(2) == "2" && NatStr(3) == "3";
  }

  /** A document yields None, rather than an empty frame, exactly when it
      has neither "tblOne" nor "tblOne2". */
  lemma PageIsNoneIff(soup: Page, crawled: Date)
    ensures PageResult(soup, crawled) == Ok(None) <==> BaseTableId !in soup && TableId(2) !in soup
  {
  }

  /** The records of the tables "tblOne<i>" to "tblOne<k-1>", concatenated
      in probe order, or the error of the first one that fails. */
  ghost function TablesFrom(soup: Page, i: nat, k: nat, crawled: Date): Result<seq<Record>>
    requires forall j :: i <= j < k ==> TableId(j) in soup
    decreases k - i
  {
    if i >= k then Ok([])
    else match (TableRecords(soup[TableId(i)], crawled), TablesFrom(soup, i + 1, k, crawled))
      case (Err(e), _) => Err(e)
      case (Ok(_), Err(e)) => Err(e)
      case (Ok(records), Ok(rest)) => Ok(records + rest)
  }

  /** Probing from "tblOne<i>" visits the consecutive ids up to the first
      absent one, "tblOne<k>", and concatenates their tables in order. */
  lemma {:induction false} ProbeFromRun(soup: Page, i: nat, k: nat, crawled: Date)
    requires 2 <= i <= k
    requires forall j :: i <= j < k ==> TableId(j) in soup
    requires TableId(k) !in soup
    ensures ProbeFrom(soup, i, crawled) ==
      if i == k then Ok(None)
      else match TablesFrom(soup, i, k, crawled)
        case Err(e) => Err(e)
        case Ok(records) => Ok(Some(records))
    decreases k - i
  {
    if i < k {
      ProbeFromRun(soup, i + 1, k, crawled);
    }
  }

  /** The page is "tblOne", if present, followed by "tblOne2" to
      "tblOne<k-1>", where "tblOne<k>" is the first absent id; the first
      table that fails decides the error. */
  lemma PageConcatenatesTables(soup: Page, k: nat, crawled: Date)
    requires 2 <= k
    requires forall j :: 2 <= j < k ==> TableId(j) in soup
    requires TableId(k) !in soup
    ensures TableResult(soup, BaseTableId, crawled).Err? ==>
      PageResult(soup, crawled) == Err(TableResult(soup, BaseTableId, crawled).error)
    ensures TableResult(soup, BaseTableId, crawled).Ok? && TablesFrom(soup, 2, k, crawled).Err? ==>
      PageResult(soup, crawled) == Err(TablesFrom(soup, 2, k, crawled).error)
    ensures TableResult(soup, BaseTableId, crawled).Ok? && TablesFrom(soup, 2, k, crawled).Ok? ==>
      PageResult(soup, crawled) ==
        Ok(Concat(TableResult(soup, BaseTableId, crawled).value,
                  if k == 2 then None else Some(TablesFrom(soup, 2, k, crawled).value)))
  {
    ProbeFromRun(soup, 2, k, crawled);
  }

  /** Every record of a table carries the one date. */
  lemma TableShareDate(table: Table, crawled: Date)
    requires TableRecords(table, crawled).Ok?
    ensures forall r :: r in TableRecords(table, crawled).value ==> r.crawled == crawled
  {
    TableRecordsSpec(table, crawled);
  }

  lemma {:induction false} ProbeShareDate(soup: Page, index: nat, crawled: Date)
    requires 2 <= index
    requires ProbeFrom(soup, index, crawled).Ok?
    ensures forall r :: r in Contents(ProbeFrom(soup, index, crawled).value) ==> r.crawled == crawled
    decreases soup.Keys - ProbedIds(index)
  {
    var tableName := TableId(index);
    if tableName in soup {
      TableShareDate(soup[tableName], crawled);
      ProbedIdsShrink(soup, index);
      ProbeShareDate(soup, index + 1, crawled);
    }
  }

  /** Every record of a page carries the one date of the crawl. */
  lemma PageShareDate(soup: Page, crawled: Date)
    requires PageResult(soup, crawled).Ok?
    ensures forall r :: r in Contents(PageResult(soup, crawled).value) ==> r.crawled == crawled
  {
    if BaseTableId in soup && TableRecords(soup[BaseTableId], crawled).Ok? {
      TableShareDate(soup[BaseTableId], crawled);
    }
    ProbeShareDate(soup, 2, crawled);
  }

  // ---------------------------------------------------------------------
  // Pagination

  /** The URLs are `FIRST_URL` for page 1 and `SECOND_URL` with the page
      number in place of "X" for pages 2, 3, ... */
  lemma UrlsUpToSpec(n: nat)
    ensures |UrlsUpTo(n)| == n
    ensures n > 0 ==> UrlsUpTo(n)[0] == FirstUrl
    ensures forall k :: 1 <= k < n ==> UrlsUpTo(n)[k] == ReplaceChar(SecondUrl, 'X', NatStr(k + 1))
  {
    forall k | 1 <= k < n
      ensures UrlsUpTo(n)[k] == ReplaceChar(SecondUrl, 'X', NatStr(k + 1))
    {
      PageUrlIsReplace(k + 1);
    }
  }

  /** Distinct page numbers give distinct `SECOND_URL` addresses. */
  lemma PageUrlInjective(m: nat, n: nat)
    requires PageUrl(m) == PageUrl(n)
    ensures m == n
  {
    var h := |SecondUrlHead|;
    assert |NatStr(m)| == |NatStr(n)|;
    assert NatStr(m) == PageUrl(m)[h..h + |NatStr(m)|];
    assert NatStr(n) == PageUrl(n)[h..h + |NatStr(n)|];
    NatStrInjective(m, n);
  }

  /** No `SECOND_URL` address is `FIRST_URL`: they differ right after the
      common "top-100-richest-bitcoin-addresses". */
  lemma PageUrlIsNotFirstUrl(n: nat)
    ensures PageUrl(n) != FirstUrl
  {
    var h := |SiteRoot + RankingPage|;
    assert PageUrl(n)[h] == '-';
    assert FirstUrl[h] == '.';
  }

  /** A crawl never requests the same URL twice. */
  lemma UrlsUpToDistinct(n: nat)
    ensures forall i, j :: 0 <= i < j < n ==> UrlsUpTo(n)[i] != UrlsUpTo(n)[j]
  {
    forall i, j | 0 <= i < j < n
      ensures UrlsUpTo(n)[i] != UrlsUpTo(n)[j]
    {
      PageUrlIsNotFirstUrl(j + 1);
      if i > 0 && PageUrl(i + 1) == PageUrl(j + 1) {
        PageUrlInjective(i + 1, j + 1);
      }
    }
  }

  /** The records a page result adds to the frame: none for a failed page
      or for a page without tables. */
  function PageRecords(page: Result<Option<seq<Record>>>): seq<Record> {
    if page.Ok? then Contents(page.value) else []
  }

  /** The records of pages `lo` to `hi - 1`, concatenated in page order. */
  ghost function Collected(site: Site, lo: nat, hi: nat): seq<Record>
    decreases hi - lo
  {
    if lo >= hi then [] else PageRecords(site(lo)) + Collected(site, lo + 1, hi)
  }

  /** Collecting from `lo` is page `lo` followed by collecting from `lo + 1`. */
  lemma CollectedFront(site: Site, frame: seq<Record>, lo: nat, hi: nat)
    requires lo < hi
    ensures frame + Collected(site, lo, hi) == (frame + PageRecords(site(lo))) + Collected(site, lo + 1, hi)
  {
  }

  /** The loop started at page `pageIndex` with `fuel` pages allowed ends
      having fetched up to page `pageIndex - 1 + fuel` at most. */
  lemma {:induction false} CrawlOnPages(site: Site, limit: int, frame: seq<Record>, pageIndex: nat, fuel: nat)
    requires pageIndex >= 1
    ensures pageIndex - 1 <= CrawlOn(site, limit, frame, pageIndex, fuel).pages <= pageIndex - 1 + fuel
    decreases fuel
  {
    if |frame| > 0 && MaxRank(frame) < limit && fuel > 0 && site(pageIndex).Ok? {
      CrawlOnPages(site, limit, frame + Contents(site(pageIndex).value), pageIndex + 1, fuel - 1);
    }
  }

  /** A loop that has not stopped fetches page `pageIndex` and goes on
      from the next page with its records appended. */
  lemma CrawlOnStep(site: Site, limit: int, frame: seq<Record>, pageIndex: nat, fuel: nat)
    requires pageIndex >= 1
    requires |frame| > 0 && MaxRank(frame) < limit && fuel > 0 && site(pageIndex).Ok?
    ensures CrawlOn(site, limit, frame, pageIndex, fuel) ==
            CrawlOn(site, limit, frame + Contents(site(pageIndex).value), pageIndex + 1, fuel - 1)
  {
  }

  /** When the loop succeeds, every page it fetched succeeded. */
  lemma {:induction false} CrawlOnFetchedOk(site: Site, limit: int, frame: seq<Record>, pageIndex: nat, fuel: nat)
    requires pageIndex >= 1
    requires CrawlOn(site, limit, frame, pageIndex, fuel).result.Ok?
    ensures forall n :: pageIndex <= n <= CrawlOn(site, limit, frame, pageIndex, fuel).pages ==> site(n).Ok?
    decreases fuel
  {
    if |frame| > 0 && MaxRank(frame) < limit && fuel > 0 {
      assert site(pageIndex).Ok?;
      CrawlOnStep(site, limit, frame, pageIndex, fuel);
      CrawlOnFetchedOk(site, limit, frame + Contents(site(pageIndex).value), pageIndex + 1, fuel - 1);
    }
  }

  /** When the loop succeeds, its result is the starting frame followed by
      the records of the pages it fetched, in page order. */
  lemma {:induction false} CrawlOnSucceeds(site: Site, limit: int, frame: seq<Record>, pageIndex: nat, fuel: nat)
    requires pageIndex >= 1
    requires CrawlOn(site, limit, frame, pageIndex, fuel).result.Ok?
    ensures var o := CrawlOn(site, limit, frame, pageIndex, fuel);
      o.result.value == frame + Collected(site, pageIndex, o.pages + 1)
    decreases fuel
  {
    var o := CrawlOn(site, limit, frame, pageIndex, fuel);
    if |frame| > 0 && MaxRank(frame) < limit && fuel > 0 {
      assert site(pageIndex).Ok?;
      var next := frame + Contents(site(pageIndex).value);
      CrawlOnStep(site, limit, frame, pageIndex, fuel);
      CrawlOnSucceeds(site, limit, next, pageIndex + 1, fuel - 1);
      CrawlOnPages(site, limit, next, pageIndex + 1, fuel - 1);
      CollectedFront(site, frame, pageIndex, o.pages + 1);
    } else {
      assert o == Outcome(Ok(frame), pageIndex - 1);
      assert frame + Collected(site, pageIndex, pageIndex) == frame;
    }
  }

  /** When the loop succeeds, the largest rank of its result has reached
      the limit. */
  lemma {:induction false} CrawlOnReachesLimit(site: Site, limit: int, frame: seq<Record>, pageIndex: nat, fuel: nat)
    requires pageIndex >= 1
    requires CrawlOn(site, limit, frame, pageIndex, fuel).result.Ok?
    ensures var o := CrawlOn(site, limit, frame, pageIndex, fuel);
      |o.result.value| > 0 && MaxRank(o.result.value) >= limit
    decreases fuel
  {
    if |frame| > 0 && MaxRank(frame) < limit && fuel > 0 {
      assert site(pageIndex).Ok?;
      CrawlOnStep(site, limit, frame, pageIndex, fuel);
      CrawlOnReachesLimit(site, limit, frame + Contents(site(pageIndex).value), pageIndex + 1, fuel - 1);
    }
  }

  /** Before each page the loop fetched, the frame was non-empty with its
      largest rank below the limit. */
  lemma {:induction false} CrawlOnBelowLimit(site: Site, limit: int, frame: seq<Record>, pageIndex: nat, fuel: nat)
    requires pageIndex >= 1
    requires CrawlOn(site, limit, frame, pageIndex, fuel).result.Ok?
    ensures var o := CrawlOn(site, limit, frame, pageIndex, fuel);
      forall m :: pageIndex <= m <= o.pages ==>
        |frame + Collected(site, pageIndex, m)| > 0 && MaxRank(frame + Collected(site, pageIndex, m)) < limit
    decreases fuel
  {
    var o := CrawlOn(site, limit, frame, pageIndex, fuel);
    if |frame| > 0 && MaxRank(frame) < limit && fuel > 0 {
      assert site(pageIndex).Ok?;
      var next := frame + Contents(site(pageIndex).value);
      CrawlOnStep(site, limit, frame, pageIndex, fuel);
      CrawlOnBelowLimit(site, limit, next, pageIndex + 1, fuel - 1);
      forall m | pageIndex <= m <= o.pages
        ensures |frame + Collected(site, pageIndex, m)| > 0 && MaxRank(frame + Collected(site, pageIndex, m)) < limit
      {
        if m > pageIndex {
          CollectedFront(site, frame, pageIndex, m);
        } else {
          assert frame + Collected(site, pageIndex, m) == frame;
        }
      }
    }
  }

  /** An out-of-range limit fetches nothing; otherwise the first page and
      at most `pageCap` more are fetched. */
  lemma CrawlPageCount(site: Site, limit: int, pageCap: nat)
    ensures var o := Crawl(site, limit, pageCap);
      (o.pages == 0 <==> !(0 < limit <= MaxLimit)) && o.pages <= pageCap + 1
  {
    if 0 < limit <= MaxLimit && site(1).Ok? && site(1).value.Some? {
      CrawlOnPages(site, limit, site(1).value.value, 2, pageCap);
    }
  }

  /** A successful crawl is the concatenation of the pages it fetched, in
      page order, and every one of them succeeded. */
  lemma CrawlResultIsConcatenation(site: Site, limit: int, pageCap: nat)
    requires Crawl(site, limit, pageCap).result.Ok?
    ensures var o := Crawl(site, limit, pageCap);
      o.pages >= 1 && (forall n :: 1 <= n <= o.pages ==> site(n).Ok?) &&
      o.result.value == Collected(site, 1, o.pages + 1)
  {
    var frame := site(1).value.value;
    var o := Crawl(site, limit, pageCap);
    assert o == CrawlOn(site, limit, frame, 2, pageCap);
    CrawlOnFetchedOk(site, limit, frame, 2, pageCap);
    CrawlOnSucceeds(site, limit, frame, 2, pageCap);
    CrawlOnPages(site, limit, frame, 2, pageCap);
    assert PageRecords(site(1)) == frame;
    CollectedFront(site, [], 1, o.pages + 1);
    assert [] + frame == frame;
  }

  /** A successful crawl ends with its largest rank at or above the limit,
      and it was below the limit before each page after the first. */
  lemma CrawlStopsAtLimit(site: Site, limit: int, pageCap: nat)
    requires Crawl(site, limit, pageCap).result.Ok?
    ensures var o := Crawl(site, limit, pageCap);
      |o.result.value| > 0 && MaxRank(o.result.value) >= limit &&
      forall m :: 2 <= m <= o.pages ==>
        |Collected(site, 1, m)| > 0 && MaxRank(Collected(site, 1, m)) < limit
  {
    var frame := site(1).value.value;
    var o := Crawl(site, limit, pageCap);
    CrawlOnReachesLimit(site, limit, frame, 2, pageCap);
    CrawlOnBelowLimit(site, limit, frame, 2, pageCap);
    forall m | 2 <= m <= o.pages
      ensures |Collected(site, 1, m)| > 0 && MaxRank(Collected(site, 1, m)) < limit
    {
      CollectedFront(site, [], 1, m);
      assert [] + frame == frame;
    }
  }

  /** Every page `fetch` serves without error carries the one date. */
  lemma SiteOfShareDate(fetch: Fetcher, crawled: Date, n: nat)
    requires SiteOf(fetch, crawled)(n).Ok?
    ensures forall r :: r in PageRecords(SiteOf(fetch, crawled)(n)) ==> r.crawled == crawled
  {
    var url := UrlOf(n);
    assert SiteOf(fetch, crawled)(n) == FetchPage(fetch, url, crawled);
    PageShareDate(fetch(url).value, crawled);
  }

  lemma {:induction false} CollectedShareDate(site: Site, crawled: Date, lo: nat, hi: nat)
    requires forall n :: lo <= n < hi ==> forall r :: r in PageRecords(site(n)) ==> r.crawled == crawled
    ensures forall r :: r in Collected(site, lo, hi) ==> r.crawled == crawled
    decreases hi - lo
  {
    if lo < hi {
      CollectedShareDate(site, crawled, lo + 1, hi);
    }
  }

  /** Every record of a crawl carries the one date the crawl was run on. */
  lemma CrawlShareDate(fetch: Fetcher, limit: int, crawled: Date, pageCap: nat)
    requires Crawl(SiteOf(fetch, crawled), limit, pageCap).result.Ok?
    ensures forall r :: r in Crawl(SiteOf(fetch, crawled), limit, pageCap).result.value ==> r.crawled == crawled
  {
    var site := SiteOf(fetch, crawled);
    var o := Crawl(site, limit, pageCap);
    CrawlResultIsConcatenation(site, limit, pageCap);
    forall n | 1 <= n < o.pages + 1
      ensures forall r :: r in PageRecords(site(n)) ==> r.crawled == crawled
    {
      SiteOfShareDate(fetch, crawled, n);
    }
    CollectedShareDate(site, crawled, 1, o.pages + 1);
  }

  // ---------------------------------------------------------------------
  // A site that serves the ranking in pages of a hundred

  const BatchSize := 100

  /** Page `n` holds the records ranked 100 (n - 1) + 1 to 100 n. */
  ghost predicate IsBatch(site: Site, n: nat) {
    var page := site(n);
    page.Ok? && page.value.Some? && |page.value.value| == BatchSize &&
    forall j :: 0 <= j < BatchSize ==> page.value.value[j].rank == BatchSize * (n - 1) + j + 1
  }

  ghost predicate Batched(site: Site) {
    forall n :: 1 <= n ==> IsBatch(site, n)
  }

  /** The ranks 1, 2, 3, ... in row order. */
  predicate Consecutive(frame: seq<Record>) {
    forall j :: 0 <= j < |frame| ==> frame[j].rank == j + 1
  }

  /** The number of pages a limit needs: the least `n` with 100 n >= limit. */
  function PagesFor(limit: int): (n: int)
    requires limit > 0
    ensures n >= 1 && BatchSize * n >= limit && BatchSize * (n - 1) < limit
  {
    (limit + BatchSize - 1) / BatchSize
  }

  lemma MaxRankConsecutive(frame: seq<Record>)
    requires |frame| > 0 && Consecutive(frame)
    ensures MaxRank(frame) == |frame|
  {
    MaxRankSpec(frame);
    assert frame[|frame| - 1].rank == |frame|;
  }

  lemma {:induction false} CrawlOnBatches(site: Site, limit: int, frame: seq<Record>, n: nat, fuel: nat)
    requires Batched(site) && limit > 0
    requires 1 <= n <= PagesFor(limit) <= n + fuel
    requires |frame| == BatchSize * n && Consecutive(frame)
    ensures var o := CrawlOn(site, limit, frame, n + 1, fuel);
      o.result.Ok? && |o.result.value| == BatchSize * PagesFor(limit) && Consecutive(o.result.value) &&
      o.pages == PagesFor(limit)
    decreases fuel
  {
    MaxRankConsecutive(frame);
    if BatchSize * n < limit {
      assert IsBatch(site, n + 1);
      var page := site(n + 1).value.value;
      var next := frame + page;
      assert Consecutive(next) by {
        forall j | 0 <= j < |next|
          ensures next[j].rank == j + 1
        {
          if j >= |frame| {
            assert next[j] == page[j - |frame|];
          }
        }
      }
      CrawlOnBatches(site, limit, next, n + 1, fuel - 1);
    }
  }

  /** On a site served in pages of a hundred, a crawl with enough pages
      returns the least multiple of a hundred records at or above the limit,
      ranked 1, 2, 3, ... and fetched from that many pages. */
  lemma CrawlInBatches(site: Site, limit: int, pageCap: nat)
    requires Batched(site) && 0 < limit <= MaxLimit
    requires PagesFor(limit) <= pageCap + 1
    ensures var o := Crawl(site, limit, pageCap);
      o.result.Ok? && |o.result.value| == BatchSize * PagesFor(limit) && Consecutive(o.result.value) &&
      o.pages == PagesFor(limit)
  {
    assert IsBatch(site, 1);
    var frame := site(1).value.value;
    assert Consecutive(frame);
    CrawlOnBatches(site, limit, frame, 1, pageCap);
  }

  /** The limits 1, 50, 110 and 200 give 100, 100, 200 and 200 records;
      the limits 0 and 10001 are refused before anything is fetched. */
  lemma CrawlTestCases(site: Site, pageCap: nat)
    requires Batched(site) && pageCap >= 1
    ensures Crawl(site, 1, pageCap).result.Ok? && |Crawl(site, 1, pageCap).result.value| == 100
    ensures Crawl(site, 50, pageCap).result.Ok? && |Crawl(site, 50, pageCap).result.value| == 100
    ensures Crawl(site, 110, pageCap).result.Ok? && |Crawl(site, 110, pageCap).result.value| == 200
    ensures Crawl(site, 200, pageCap).result.Ok? && |Crawl(site, 200, pageCap).result.value| == 200
    ensures Crawl(site, 0, pageCap) == Outcome(Err(LimitOutOfRange), 0)
    ensures Crawl(site, 10001, pageCap) == Outcome(Err(LimitOutOfRange), 0)
  {
    CrawlInBatches(site, 1, pageCap);
    CrawlInBatches(site, 50, pageCap);
    CrawlInBatches(site, 110, pageCap);
    CrawlInBatches(site, 200, pageCap);
  }
}
