/** The crawler of the richest bitcoin addresses (marx/crawler.py), apart from
    its HTTP, HTML and data-frame plumbing. A fetched HTML document is a map
    from table id to table; fetching a URL is a function the caller supplies;
    a data frame is a sequence of records in row order. */
module Crawler {
  import opened PyText

  /** `FIRST_URL` and `SECOND_URL`, written in parts: `SECOND_URL` is
      "https://bitinfocharts.com/en/top-100-richest-bitcoin-addresses-X.html",
      with the placeholder "X" for the page number. */
  const SiteRoot := "https://bitinfocharts.com/en/"
  const RankingPage := "top-100-richest-bitcoin-addresses"
  const FirstUrl := SiteRoot + RankingPage + ".html"
  const SecondUrlHead := SiteRoot + RankingPage + "-"
  const SecondUrlTail := ".html"
  const SecondUrl := SecondUrlHead + "X" + SecondUrlTail
  const BaseTableId := "tblOne"
  const TableIdTemplate := "tblOneX"
  /** The largest limit the crawl accepts. */
  const MaxLimit := 10000
  const Int64Min := -0x8000_0000_0000_0000
  const Int64Max := 0x7FFF_FFFF_FFFF_FFFF

  /** The value of `date.today()`, read once and passed in. */
  datatype Date = Date(year: int, month: int, day: int)

  /** The texts of the `td` cells of one `tr` row, before stripping. */
  type Row = seq<string>

  /** A `table` element: the rows of its first `tbody`, if it has one, and
      all the rows found anywhere inside it. */
  datatype Table = Table(body: Option<seq<Row>>, rows: seq<Row>)

  /** A parsed HTML document: the tables it holds, by `id`. */
  type Page = map<string, Table>

  /** One row of the result frame. `balance` is the cleaned text that
      `float` is applied to. */
  datatype Record = Record(rank: int, address: string, balance: string, crawled: Date)

  datatype Error =
    | LimitOutOfRange   // the AssertionError of the limit check
    | FetchFailed(url: string)   // `requests.get` raised
    | MissingCell       // a row with fewer than three cells: IndexError
    | BadRank           // a rank that `astype("int64")` rejects
    | NoFrame           // the first page had no table at all: None["rank"]
    | EmptyFrame        // `int` of the maximum of an empty rank column
    | PageCapReached    // the page cap ran out before the limit was met

  datatype Result<T> = Ok(value: T) | Err(error: Error)

  /** What fetching and parsing a URL can give: a network failure, or the
      parsed document. */
  type Fetcher = string -> Option<Page>

  // ---------------------------------------------------------------------
  // Balances

  /** `_parse_balance` up to the `float` conversion: the text before the
      first "BTC", without its thousands separators. */
  function ParseBalance(balance: string): (text: string)
    ensures ',' !in text
    ensures balance != [] ==> |text| < |balance|
  {
    var index := Find(balance, "BTC");
    ReplaceChar(SliceTo(balance, index), ',', "")
  }

  // ---------------------------------------------------------------------
  // One table

  /** The row container: the table body when there is one, else the table. */
  function TableRows(table: Table): seq<Row> {
    if table.body.Some? then table.body.value else table.rows
  }

  /** `[ele.text.strip() for ele in cols]`. */
  function StripCells(row: Row): (cols: seq<string>)
    ensures |cols| == |row|
    ensures forall k :: 0 <= k < |row| ==> cols[k] == Strip(row[k])
  {
    if row == [] then [] else [Strip(row[0])] + StripCells(row[1..])
  }

  /** `astype("int64")` of one rank text. */
  function ParseRank(text: string): (r: Option<int>)
    ensures r.Some? <==> ParseInt(text).Some? && Int64Min <= ParseInt(text).value <= Int64Max
    ensures r.Some? ==> r == ParseInt(text)
  {
    match ParseInt(text)
    case Some(v) => if Int64Min <= v <= Int64Max then Some(v) else None
    case None => None
  }

  /** The record a complete row with a valid rank becomes. */
  function RecordOf(row: Row, crawled: Date): Record
    requires |row| >= 3 && ParseRank(Strip(row[0])).Some?
  {
    Record(ParseRank(Strip(row[0])).value, Strip(row[1]), ParseBalance(Strip(row[2])), crawled)
  }

  /** Every row has the three cells that are read. */
  predicate AllComplete(rows: seq<Row>) {
    rows == [] || (|rows[0]| >= 3 && AllComplete(rows[1..]))
  }

  lemma {:induction false} AllCompleteSpec(rows: seq<Row>)
    ensures AllComplete(rows) <==> forall i :: 0 <= i < |rows| ==> |rows[i]| >= 3
  {
    if rows != [] {
      AllCompleteSpec(rows[1..]);
      assert forall i :: 1 <= i < |rows| ==> rows[1..][i - 1] == rows[i];
    }
  }

  /** The records of complete rows, in row order, or None as soon as a rank
      is not an int64. */
  function RowRecords(rows: seq<Row>, crawled: Date): Option<seq<Record>>
    requires AllComplete(rows)
  {
    if rows == [] then Some([])
    else match (ParseRank(Strip(rows[0][0])), RowRecords(rows[1..], crawled))
      case (Some(_), Some(rest)) => Some([RecordOf(rows[0], crawled)] + rest)
      case _ => None
  }

  /** The records are one per row, unless some rank is not an int64. */
  lemma {:induction false} RowRecordsSpec(rows: seq<Row>, crawled: Date)
    requires AllComplete(rows)
    ensures forall i :: 0 <= i < |rows| ==> |rows[i]| >= 3
    ensures RowRecords(rows, crawled).None? <==> exists i :: 0 <= i < |rows| && ParseRank(Strip(rows[i][0])).None?
    ensures RowRecords(rows, crawled).Some? ==>
      |RowRecords(rows, crawled).value| == |rows| &&
      forall i :: 0 <= i < |rows| ==>
        ParseRank(Strip(rows[i][0])).Some? && RowRecords(rows, crawled).value[i] == RecordOf(rows[i], crawled)
  {
    AllCompleteSpec(rows);
    if rows != [] {
      var tail := rows[1..];
      RowRecordsSpec(tail, crawled);
      assert forall i :: 1 <= i < |rows| ==> tail[i - 1] == rows[i];
      var rest := RowRecords(tail, crawled);
      if ParseRank(Strip(rows[0][0])).Some? && rest.Some? {
        var records := [RecordOf(rows[0], crawled)] + rest.value;
        assert RowRecords(rows, crawled) == Some(records);
        forall i | 0 <= i < |rows|
          ensures ParseRank(Strip(rows[i][0])).Some? && records[i] == RecordOf(rows[i], crawled)
        {
          if i > 0 {
            assert records[i] == rest.value[i - 1];
          }
        }
      } else if rest.None? {
        var j :| 0 <= j < |tail| && ParseRank(Strip(tail[j][0])).None?;
        assert ParseRank(Strip(rows[j + 1][0])).None?;
      }
    }
  }

  /** What `_parse_table` makes of a table that exists: a row short of a cell
      is an IndexError; once all rows are complete, a rank that is not an
      int64 fails the conversion; otherwise one record per row. */
  function TableRecords(table: Table, crawled: Date): Result<seq<Record>> {
    var rows := TableRows(table);
    if !AllComplete(rows) then Err(MissingCell)
    else match RowRecords(rows, crawled)
      case None => Err(BadRank)
      case Some(records) => Ok(records)
  }

  /** The error precedence and the records of `TableRecords`, stated over
      the rows: any short row wins over any bad rank. */
  lemma TableRecordsSpec(table: Table, crawled: Date)
    ensures var rows := TableRows(table);
      TableRecords(table, crawled) == Err(MissingCell) <==> exists i :: 0 <= i < |rows| && |rows[i]| < 3
    ensures var rows := TableRows(table);
      TableRecords(table, crawled) == Err(BadRank) <==>
        (forall i :: 0 <= i < |rows| ==> |rows[i]| >= 3) &&
        exists i :: 0 <= i < |rows| && ParseRank(Strip(rows[i][0])).None?
    ensures var rows := TableRows(table);
      TableRecords(table, crawled).Ok? ==>
        var records := TableRecords(table, crawled).value;
        |records| == |rows| &&
        forall i :: 0 <= i < |rows| ==>
          |rows[i]| >= 3 && ParseRank(Strip(rows[i][0])).Some? && records[i] == RecordOf(rows[i], crawled)
  {
    var rows := TableRows(table);
    AllCompleteSpec(rows);
    if AllComplete(rows) {
      RowRecordsSpec(rows, crawled);
    }
  }

  /** `_parse_table`: None when the document has no table with the id. */
  function TableResult(soup: Page, tableName: string, crawled: Date): (r: Result<Option<seq<Record>>>)
    ensures r == Ok(None) <==> tableName !in soup
    ensures tableName in soup ==>
      (r.Err? <==> TableRecords(soup[tableName], crawled).Err?) &&
      (r.Ok? ==> r.value == Some(TableRecords(soup[tableName], crawled).value))
  {
    if tableName !in soup then Ok(None)
    else match TableRecords(soup[tableName], crawled)
      case Err(e) => Err(e)
      case Ok(records) => Ok(Some(records))
  }

  /** `astype("int64")` of the rank column: every text converted, or a
      failure if any one of them is not an int64. */
  function AsInt64(texts: seq<string>): (r: Option<seq<int>>)
    ensures r.None? <==> exists k :: 0 <= k < |texts| && ParseRank(texts[k]).None?
    ensures r.Some? ==> |r.value| == |texts| && forall k :: 0 <= k < |texts| ==> ParseRank(texts[k]) == Some(r.value[k])
  {
    if texts == [] then Some([])
    else
      match (AsInt64(texts[..|texts| - 1]), ParseRank(texts[|texts| - 1]))
      case (Some(init), Some(v)) =>
        assert forall k :: 0 <= k < |texts| - 1 ==> texts[..|texts| - 1][k] == texts[k];
        Some(init + [v])
      case (None, _) =>
        ghost var k :| 0 <= k < |texts| - 1 && ParseRank(texts[..|texts| - 1][k]).None?;
        assert texts[..|texts| - 1][k] == texts[k];
        None
      case (_, None) => None
  }

  /** The data frame built from the columns, with every balance cleaned by
      `apply(_parse_balance)` and the same date in every row. */
  function Frame(ranks: seq<int>, address: seq<string>, balance: seq<string>, crawled: Date): seq<Record>
    requires |ranks| == |address| == |balance|
  {
    seq(|ranks|, k requires 0 <= k < |ranks| => Record(ranks[k], address[k], ParseBalance(balance[k]), crawled))
  }

  /** The columns the row loop collects give the records of the rows: the
      rank conversion fails exactly when some rank is not an int64, and
      otherwise the frame built from the columns is one record per row. */
  lemma ColumnsGiveRecords(rows: seq<Row>, rank: seq<string>, address: seq<string>, balance: seq<string>, crawled: Date)
    requires |rank| == |address| == |balance| == |rows|
    requires forall k :: 0 <= k < |rows| ==>
      |rows[k]| >= 3 && rank[k] == Strip(rows[k][0]) &&
      address[k] == Strip(rows[k][1]) && balance[k] == Strip(rows[k][2])
    ensures AllComplete(rows)
    ensures AsInt64(rank).None? <==> RowRecords(rows, crawled).None?
    ensures AsInt64(rank).Some? ==>
      Frame(AsInt64(rank).value, address, balance, crawled) == RowRecords(rows, crawled).value
  {
    AllCompleteSpec(rows);
    RowRecordsSpec(rows, crawled);
    var ranks := AsInt64(rank);
    if ranks.Some? {
      var records := Frame(ranks.value, address, balance, crawled);
      assert records == RowRecords(rows, crawled).value;
    }
  }

  /** `_parse_table(soup, table_name)`: look the table up, collect the first
      three stripped cells of every row, convert the ranks, clean the
      balances and stamp every record with the same date. */
  method ParseTable(soup: Page, tableName: string, crawled: Date) returns (r: Result<Option<seq<Record>>>)
    ensures r == TableResult(soup, tableName, crawled)
    ensures r == Ok(None) <==> tableName !in soup
  {
    if tableName !in soup {
      return Ok(None);
    }
    var table := soup[tableName];
    var tableBody := if table.body.Some? then table.body.value else table.rows;
    var rank: seq<string>, address: seq<string>, balance: seq<string> := [], [], [];
    for i := 0 to |tableBody|
      invariant |rank| == |address| == |balance| == i
      invariant forall k :: 0 <= k < i ==>
        |tableBody[k]| >= 3 && rank[k] == Strip(tableBody[k][0]) &&
        address[k] == Strip(tableBody[k][1]) && balance[k] == Strip(tableBody[k][2])
    {
      var cols := StripCells(tableBody[i]);
      if |cols| < 3 {
        AllCompleteSpec(tableBody);
        return Err(MissingCell);
      }
      rank := rank + [cols[0]];
      address := address + [cols[1]];
      balance := balance + [cols[2]];
    }
    assert tableBody == TableRows(table);
    ColumnsGiveRecords(tableBody, rank, address, balance, crawled);
    var ranks := AsInt64(rank);
    if ranks.None? {
      return Err(BadRank);
    }
    var records := Frame(ranks.value, address, balance, crawled);
    return Ok(Some(records));
  }

  // ---------------------------------------------------------------------
  // One page

  /** The id of the `index`-th table of a document. */
  function TableId(index: nat): string {
    BaseTableId + NatStr(index)
  }

  /** `"tblOneX".replace("X", str(index))` is the numbered id. */
  lemma TableIdIsReplace(index: nat)
    ensures ReplaceChar(TableIdTemplate, 'X', NatStr(index)) == TableId(index)
  {
    assert TableIdTemplate == BaseTableId + ['X'] + [];
    ReplaceCharTemplate(BaseTableId, [], 'X', NatStr(index));
  }

  /** Different indexes name different tables. */
  lemma TableIdInjective(m: nat, n: nat)
    requires TableId(m) == TableId(n)
    ensures m == n
  {
    assert NatStr(m) == TableId(m)[|BaseTableId|..];
    assert NatStr(n) == TableId(n)[|BaseTableId|..];
    NatStrInjective(m, n);
  }

  /** The ids probed before `index`, from "tblOne2" on. */
  ghost function ProbedIds(index: nat): set<string> {
    set j | 2 <= j < index :: TableId(j)
  }

  /** Each table found shrinks the set of ids of the page not yet probed. */
  lemma ProbedIdsShrink(soup: Page, index: nat)
    requires 2 <= index && TableId(index) in soup
    ensures soup.Keys - ProbedIds(index + 1) < soup.Keys - ProbedIds(index)
  {
    forall j | 2 <= j < index
      ensures TableId(j) != TableId(index)
    {
      if TableId(j) == TableId(index) {
        TableIdInjective(j, index);
      }
    }
    assert TableId(index) !in ProbedIds(index);
    assert ProbedIds(index + 1) == ProbedIds(index) + {TableId(index)};
    assert TableId(index) in soup.Keys - ProbedIds(index);
  }

  /** The records of an optional frame. */
  function Contents(frame: Option<seq<Record>>): seq<Record> {
    if frame.Some? then frame.value else []
  }

  /** `pd.concat([a, b])`, which drops a None operand. The source calls it
      only with at most one None operand (marx/crawler.py:107, 133); both
      None stands for no concatenation at all, as in `Then` when probing
      found nothing. */
  function Concat(a: Option<seq<Record>>, b: Option<seq<Record>>): (c: Option<seq<Record>>)
    ensures c.None? <==> a.None? && b.None?
    ensures Contents(c) == Contents(a) + Contents(b)
  {
    match a
    case None => b
    case Some(x) =>
      match b
      case None => a
      case Some(y) => Some(x + y)
  }

  lemma ConcatAssociative(a: Option<seq<Record>>, b: Option<seq<Record>>, c: Option<seq<Record>>)
    ensures Concat(Concat(a, b), c) == Concat(a, Concat(b, c))
  {
    if a.Some? && b.Some? && c.Some? {
      assert (a.value + b.value) + c.value == a.value + (b.value + c.value);
    }
  }

  /** A frame followed by what the rest of the probing gives. */
  ghost function Then(frame: Option<seq<Record>>, rest: Result<Option<seq<Record>>>): Result<Option<seq<Record>>> {
    match rest
    case Err(e) => Err(e)
    case Ok(more) => Ok(Concat(frame, more))
  }

  /** The probing from "tblOne<index>" on: the tables found, in order, up to
      the first id that is absent; None when the first one is absent. */
  ghost function ProbeFrom(soup: Page, index: nat, crawled: Date): Result<Option<seq<Record>>>
    requires 2 <= index
    decreases soup.Keys - ProbedIds(index)
  {
    var tableName := TableId(index);
    if tableName !in soup then Ok(None)
    else match TableRecords(soup[tableName], crawled)
      case Err(e) => Err(e)
      case Ok(records) =>
        ProbedIdsShrink(soup, index);
        Then(Some(records), ProbeFrom(soup, index + 1, crawled))
  }

  /** Taking one more table into the frame leaves the outcome of the
      probing unchanged. */
  lemma ProbeStep(soup: Page, index: nat, crawled: Date, frame: Option<seq<Record>>)
    requires 2 <= index && TableId(index) in soup && TableRecords(soup[TableId(index)], crawled).Ok?
    ensures Then(Concat(frame, Some(TableRecords(soup[TableId(index)], crawled).value)), ProbeFrom(soup, index + 1, crawled))
         == Then(frame, ProbeFrom(soup, index, crawled))
  {
    var records := TableRecords(soup[TableId(index)], crawled).value;
    var rest := ProbeFrom(soup, index + 1, crawled);
    if rest.Ok? {
      ConcatAssociative(frame, Some(records), rest.value);
    }
  }

  /** The tables of one document: "tblOne" and then the numbered ones. */
  ghost function PageResult(soup: Page, crawled: Date): Result<Option<seq<Record>>> {
    match TableResult(soup, BaseTableId, crawled)
    case Err(e) => Err(e)
    case Ok(first) => Then(first, ProbeFrom(soup, 2, crawled))
  }

  /** `_crawl_richest_addresses_by_url`, as a value. */
  ghost function FetchPage(fetch: Fetcher, url: string, crawled: Date): Result<Option<seq<Record>>> {
    match fetch(url)
    case None => Err(FetchFailed(url))
    case Some(soup) => PageResult(soup, crawled)
  }

  /** `_crawl_richest_addresses_by_url(url)`: fetch the document, parse
      "tblOne", then "tblOne2", "tblOne3", ... until one is absent, and
      concatenate what was found. */
  method CrawlRichestAddressesByUrl(fetch: Fetcher, url: string, crawled: Date) returns (r: Result<Option<seq<Record>>>)
    ensures r == FetchPage(fetch, url, crawled)
    ensures fetch(url).None? ==> r == Err(FetchFailed(url))
  {
    var response := fetch(url);
    if response.None? {
      return Err(FetchFailed(url));
    }
    var soup := response.value;
    var first := ParseTable(soup, BaseTableId, crawled);
    if first.Err? {
      return Err(first.error);
    }
    var addressFrame := first.value;
    var currentIndex := 2;
    var tableName := TableIdTemplate;
    while true
      invariant 2 <= currentIndex
      invariant Then(addressFrame, ProbeFrom(soup, currentIndex, crawled)) == PageResult(soup, crawled)
      decreases soup.Keys - ProbedIds(currentIndex)
    {
      TableIdIsReplace(currentIndex);
      var newFrame := ParseTable(soup, ReplaceChar(tableName, 'X', NatStr(currentIndex)), crawled);
      if newFrame.Err? {
        return Err(newFrame.error);
      }
      if newFrame.value.None? {
        break;
      }
      ProbeStep(soup, currentIndex, crawled, addressFrame);
      addressFrame := Concat(addressFrame, newFrame.value);
      ProbedIdsShrink(soup, currentIndex);
      currentIndex := currentIndex + 1;
    }
    return Ok(addressFrame);
  }

  // ---------------------------------------------------------------------
  // Pagination

  /** The URL of page `index` (from 2 on) of the ranking. */
  function PageUrl(index: nat): string {
    SecondUrlHead + NatStr(index) + SecondUrlTail
  }

  /** The placeholder occurs nowhere else in `SECOND_URL`. */
  lemma SecondUrlHasOnePlaceholder()
    ensures 'X' !in SecondUrlHead && 'X' !in SecondUrlTail
  {
    assert 'X' !in SiteRoot && 'X' !in RankingPage;
  }

  /** `SECOND_URL.replace("X", str(index))` is the numbered URL. */
  lemma PageUrlIsReplace(index: nat)
    ensures ReplaceChar(SecondUrl, 'X', NatStr(index)) == PageUrl(index)
  {
    SecondUrlHasOnePlaceholder();
    ReplaceCharTemplate(SecondUrlHead, SecondUrlTail, 'X', NatStr(index));
  }

  /** `SECOND_URL.replace("X", str(page_index))`. */
  method NextUrl(pageIndex: nat) returns (url: string)
    ensures url == PageUrl(pageIndex)
  {
    url := ReplaceChar(SecondUrl, 'X', NatStr(pageIndex));
    PageUrlIsReplace(pageIndex);
  }

  /** The URL of page `n` (counting from 1) of the ranking. */
  function UrlOf(n: nat): string {
    if n <= 1 then FirstUrl else PageUrl(n)
  }

  /** The URLs of pages 1 to `n`, in order. */
  function UrlsUpTo(n: nat): seq<string> {
    seq(n, k requires 0 <= k < n => UrlOf(k + 1))
  }

  lemma UrlsUpToNext(n: nat)
    ensures UrlsUpTo(n + 1) == UrlsUpTo(n) + [UrlOf(n + 1)]
  {
  }

  /** `int(balance_frame["rank"].max())` of a non-empty frame. */
  function MaxRank(frame: seq<Record>): int
    requires |frame| > 0
  {
    if |frame| == 1 then frame[0].rank
    else
      var m := MaxRank(frame[..|frame| - 1]);
      if frame[|frame| - 1].rank > m then frame[|frame| - 1].rank else m
  }

  /** The maximum is the rank of some record and no record ranks higher. */
  lemma {:induction false} MaxRankSpec(frame: seq<Record>)
    requires |frame| > 0
    ensures exists i :: 0 <= i < |frame| && frame[i].rank == MaxRank(frame)
    ensures forall i :: 0 <= i < |frame| ==> frame[i].rank <= MaxRank(frame)
  {
    if |frame| > 1 {
      var init := frame[..|frame| - 1];
      MaxRankSpec(init);
      assert forall i :: 0 <= i < |init| ==> init[i] == frame[i];
      var i :| 0 <= i < |init| && init[i].rank == MaxRank(init);
      if frame[|frame| - 1].rank <= MaxRank(init) {
        assert frame[i].rank == MaxRank(frame);
      }
    } else {
      assert frame[0].rank == MaxRank(frame);
    }
  }

  /** A crawl's result and the number of pages it fetched, the first
      page counting as page 1. */
  datatype Outcome = Outcome(result: Result<seq<Record>>, pages: nat)

  /** What crawling each page of the ranking gives, by page number. */
  type Site = nat -> Result<Option<seq<Record>>>

  /** The site as `_crawl_richest_addresses_by_url` sees it through `fetch`. */
  ghost function SiteOf(fetch: Fetcher, crawled: Date): Site {
    (n: nat) => FetchPage(fetch, UrlOf(n), crawled)
  }

  /** The pagination loop from page `pageIndex` on, with `fuel` more pages
      allowed; pages 1 to `pageIndex - 1` are already fetched. */
  ghost function CrawlOn(site: Site, limit: int, frame: seq<Record>, pageIndex: nat, fuel: nat): Outcome
    requires pageIndex >= 1
    decreases fuel
  {
    if |frame| == 0 then Outcome(Err(EmptyFrame), pageIndex - 1)
    else if MaxRank(frame) >= limit then Outcome(Ok(frame), pageIndex - 1)
    else if fuel == 0 then Outcome(Err(PageCapReached), pageIndex - 1)
    else match site(pageIndex)
      case Err(e) => Outcome(Err(e), pageIndex)
      case Ok(page) => CrawlOn(site, limit, frame + Contents(page), pageIndex + 1, fuel - 1)
  }

  /** `crawl_richest_addresses(limit)` with at most `pageCap` pages after the
      first, as a value. */
  ghost function Crawl(site: Site, limit: int, pageCap: nat): Outcome {
    if !(0 < limit <= MaxLimit) then Outcome(Err(LimitOutOfRange), 0)
    else match site(1)
      case Err(e) => Outcome(Err(e), 1)
      case Ok(None) => Outcome(Err(NoFrame), 1)
      case Ok(Some(frame)) => CrawlOn(site, limit, frame, 2, pageCap)
  }

  /** One step of the pagination loop: build the URL of page `pageIndex`
      from `SECOND_URL` and crawl it. */
  method FetchNextPage(fetch: Fetcher, ghost site: Site, pageIndex: nat, today: Date)
    returns (url: string, page: Result<Option<seq<Record>>>)
    requires pageIndex >= 2
    requires forall n {:trigger FetchPage(fetch, UrlOf(n), today)} :: site(n) == FetchPage(fetch, UrlOf(n), today)
    ensures url == UrlOf(pageIndex)
    ensures page == site(pageIndex)
  {
    url := NextUrl(pageIndex);
    assert url == UrlOf(pageIndex);
    page := CrawlRichestAddressesByUrl(fetch, url, today);
  }

  /** The `while` loop of `crawl_richest_addresses`, from page 2 on: while
      the largest rank is below the limit, fetch the next page and append
      its records. */
  method CrawlPages(fetch: Fetcher, ghost site: Site, limit: int, today: Date, frame: seq<Record>, pageCap: nat)
    returns (r: Result<seq<Record>>, fetched: seq<string>)
    requires forall n {:trigger FetchPage(fetch, UrlOf(n), today)} :: site(n) == FetchPage(fetch, UrlOf(n), today)
    ensures Outcome(r, |fetched|) == CrawlOn(site, limit, frame, 2, pageCap)
    ensures fetched == UrlsUpTo(|fetched|)
  {
    var balanceFrame := frame;
    var pageIndex := 2;
    var fuel := pageCap;
    fetched := [FirstUrl];
    assert fetched == UrlsUpTo(1);
    while true
      invariant pageIndex >= 2 && |fetched| == pageIndex - 1
      invariant fetched == UrlsUpTo(pageIndex - 1)
      invariant CrawlOn(site, limit, balanceFrame, pageIndex, fuel) == CrawlOn(site, limit, frame, 2, pageCap)
      decreases fuel
    {
      if |balanceFrame| == 0 {
        return Err(EmptyFrame), fetched;
      }
      if MaxRank(balanceFrame) >= limit {
        break;
      }
      if fuel == 0 {
        return Err(PageCapReached), fetched;
      }
      var nextUrl, newFrame := FetchNextPage(fetch, site, pageIndex, today);
      UrlsUpToNext(pageIndex - 1);
      fetched := fetched + [nextUrl];
      if newFrame.Err? {
        return Err(newFrame.error), fetched;
      }
      balanceFrame := balanceFrame + Contents(newFrame.value);
      pageIndex := pageIndex + 1;
      fuel := fuel - 1;
    }
    return Ok(balanceFrame), fetched;
  }

  /** `crawl_richest_addresses(limit)`: check the limit, crawl the first
      page, then the following pages until the limit is reached. `fetched`
      lists the URLs requested: `FIRST_URL`, then `SECOND_URL` for pages 2,
      3, ... */
  method CrawlRichestAddresses(fetch: Fetcher, limit: int, today: Date, pageCap: nat)
    returns (r: Result<seq<Record>>, fetched: seq<string>)
    ensures Outcome(r, |fetched|) == Crawl(SiteOf(fetch, today), limit, pageCap)
    ensures fetched == UrlsUpTo(|fetched|)
    ensures !(0 < limit <= MaxLimit) ==> r == Err(LimitOutOfRange) && fetched == []
  {
    if !(0 < limit <= MaxLimit) {
      assert [] == UrlsUpTo(0);
      return Err(LimitOutOfRange), [];
    }
    var first := CrawlRichestAddressesByUrl(fetch, FirstUrl, today);
    assert SiteOf(fetch, today)(1) == first;
    assert [FirstUrl] == UrlsUpTo(1);
    if first.Err? {
      return Err(first.error), [FirstUrl];
    }
    if first.value.None? {
      return Err(NoFrame), [FirstUrl];
    }
    r, fetched := CrawlPages(fetch, SiteOf(fetch, today), limit, today, first.value.value, pageCap);
  }
}
