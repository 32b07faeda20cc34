/** The capability shim: each stage of a query is either pushed to the backend or emulated
    here, and the answer is the exact one or a refusal. */
module CapabilityShim {
  import opened Values
  import opened Query
  import opened Sorting
  import opened LocalEngine

  datatype Capabilities = Capabilities(
    serverFilter: bool, serverSort: bool, serverSearch: bool, serverPaginate: bool,
    totalCount: bool, aggregate: bool, filterOps: set<Op>, searchable: seq<string>)
  {
    predicate SupportsOps(ops: set<Op>) {
      serverFilter && ops <= filterOps
    }
  }

  /** What a backend says about the rows it did not return: `Always` knows whether more follow
      and gives a total whenever it counts; `WhenWanted` counts only for a query that wants the
      total, and knows by that; `BySize` takes a page as full as was asked for to mean more. The
      last two guess by size where they do not know. */
  datatype Reporting = Always | WhenWanted | BySize

  /** An honest backend: it does exactly the stages it claims. `cap` is a hard limit some
      backends put on a page whatever size was asked for. A lenient backend also applies filter
      operators it did not declare; any other ignores a filter that uses one. */
  datatype Inner = Inner(rows: seq<Row>, caps: Capabilities, cap: Option<positive>, lenient: bool, reports: Reporting)
  {
    predicate Filters(q: ListQuery) {
      caps.serverFilter && (lenient || FilterOps(q.Effective()) <= caps.filterOps)
    }

    predicate Counts(q: ListQuery) {
      caps.totalCount && (reports.WhenWanted? ==> q.withTotal)
    }

    predicate KnowsMore(q: ListQuery) {
      reports.Always? || (reports.WhenWanted? && Counts(q))
    }
  }

  function CapPage(q: ListQuery, cap: Option<positive>): ListQuery {
    if cap.Some? && cap.value < q.pageSize then q.(pageSize := cap.value) else q
  }

  function InnerList(inner: Inner, q: ListQuery): Page {
    var caps := inner.caps;
    var page := RunQuery(inner.rows, CapPage(q, inner.cap), caps.searchable,
                         inner.Filters(q), caps.serverSearch, caps.serverSort, caps.serverPaginate);
    page.(total := if inner.Counts(q) then page.total else None,
          hasMore := if inner.KnowsMore(q) then page.hasMore else |page.items| >= q.pageSize)
  }

  /** How many rows the streaming path asks for at a time. */
  const SCAN_CHUNK: positive := 500

  /** `given` are the resource's own searchable fields; without any, the backend's are used. */
  datatype Shim = Shim(inner: Inner, given: seq<string>, maxRows: nat, maxScan: nat)
  {
    function Fields(): seq<string> {
      if given != [] then given else inner.caps.searchable
    }
  }

  // ----- deciding -----

  /** Which stages are pushed to the backend. */
  datatype Plan = Plan(filter: bool, search: bool, sort: bool, page: bool)

  function PlanFor(s: Shim, q: ListQuery): Plan {
    var caps := s.inner.caps;
    var filter := caps.SupportsOps(FilterOps(q.Effective()));
    var search := q.search != "" && caps.serverSearch && caps.searchable == s.Fields() && s.Fields() != [];
    var sort := caps.serverSort && q.sort != [];
    Plan(filter, search, sort, caps.serverPaginate && filter && sort && (search || q.search == ""))
  }

  predicate CanStream(s: Shim, q: ListQuery) {
    var plan := PlanFor(s, q);
    && s.inner.caps.serverPaginate
    && (!plan.filter || !plan.search)
    && q.sort == []
    && !q.withTotal
    && (q.Effective().Some? || q.search != "")
  }

  /** The query handed to the backend, stripped of what is not pushed. */
  function InnerQuery(q: ListQuery, plan: Plan, maxRows: nat): ListQuery {
    var a := if plan.filter then q else q.(filter := None, scope := None);
    var b := if plan.search then a else a.(search := "");
    var c := if plan.sort then b else b.(sort := []);
    if plan.page then c else c.(page := 1, pageSize := maxRows + 1)
  }

  /** The backend's rows after the stages a plan pushes. */
  function PushedRows(s: Shim, q: ListQuery, plan: Plan): seq<Row> {
    RunStages(s.inner.rows, q, s.Fields(), plan.filter, plan.search, plan.sort)
  }

  /** The rows a plan leaves for the local stages to find among `rows`. */
  function LocalRows(s: Shim, rows: seq<Row>, q: ListQuery, plan: Plan): seq<Row> {
    RunStages(rows, q, s.Fields(), !plan.filter, !plan.search, false)
  }

  // ----- answering -----

  function FinishPushedPage(page: Page, q: ListQuery): Page {
    if page.total.Some? || !q.withTotal then page
    else Page(page.items, q.page, q.pageSize, None, |page.items| >= q.pageSize)
  }

  /** Whether a loaded page is refused as incomplete. */
  predicate GuardRefuses(s: Shim, page: Page) {
    |page.items| > s.maxRows ||
    (page.hasMore && page.total.Some? && page.total.value > |page.items|)
  }

  /** The rows a scan can reach: a backend whose hard limit is under one chunk looks
      exhausted after its first page. */
  function Reachable(s: Shim, rows: seq<Row>): seq<Row> {
    if s.inner.cap.Some? && s.inner.cap.value < SCAN_CHUNK then Take(rows, s.inner.cap.value) else rows
  }

  /** The collection a scan walks: the backend's rows after the pushed filter and search. */
  function ScannedRows(s: Shim, q: ListQuery, plan: Plan): seq<Row> {
    Reachable(s, PushedRows(s, q, plan.(sort := false)))
  }

  /** The scan budget, rounded up to whole chunks. */
  function ScanBound(maxScan: nat): nat {
    (maxScan + SCAN_CHUNK - 1) / SCAN_CHUNK * SCAN_CHUNK
  }

  /** Scanning refuses exactly when the whole scan budget was spent without filling the page
      and knowing whether anything follows it. */
  function StreamAnswer(s: Shim, q: ListQuery): Result<Page> {
    var plan := PlanFor(s, q);
    var rows := ScannedRows(s, q, plan);
    var needed := q.Offset() + q.pageSize + 1;
    if |rows| >= s.maxScan && |LocalRows(s, Take(rows, ScanBound(s.maxScan)), q, plan)| < needed then
      Refused(TooManyRows)
    else
      var found := LocalRows(s, rows, q, plan);
      Ok(Page(Window(found, q.Offset(), q.pageSize), q.page, q.pageSize, None, |found| >= needed))
  }

  function ShimAnswer(s: Shim, q: ListQuery): Result<Page> {
    var plan := PlanFor(s, q);
    if CanStream(s, q) then StreamAnswer(s, q)
    else
      var page := InnerList(s.inner, InnerQuery(q, plan, s.maxRows));
      if plan.page then Ok(FinishPushedPage(page, q))
      else if GuardRefuses(s, page) then Refused(TooManyRows)
      else Ok(RunQuery(page.items, q, s.Fields(), !plan.filter, !plan.search, !plan.sort, true))
  }

  method List(s: Shim, q: ListQuery) returns (r: Result<Page>)
    ensures r == ShimAnswer(s, q)
  {
    var plan := PlanFor(s, q);
    if CanStream(s, q) {
      r := Stream(s, q, plan);
      return;
    }
    var page := InnerList(s.inner, InnerQuery(q, plan, s.maxRows));
    if plan.page {
      return Ok(FinishPushedPage(page, q));
    }
    if GuardRefuses(s, page) {
      return Refused(TooManyRows);
    }
    r := Ok(RunQuery(page.items, q, s.Fields(), !plan.filter, !plan.search, !plan.sort, true));
  }

  function ChunkQuery(s: Shim, q: ListQuery, plan: Plan, pageNumber: positive): ListQuery {
    InnerQuery(q, plan.(sort := false, page := false), s.maxRows)
      .(page := pageNumber, pageSize := SCAN_CHUNK, withTotal := false)
  }

  // ----- the backend's answers are the pushed stages -----

  lemma EmptySearchKeepsAll(rows: seq<Row>, fields: seq<string>)
    ensures ApplySearch(rows, "", fields) == rows
  {
    KeepAll(rows, SearchTest("", fields));
  }

  lemma NoFilterKeepsAll(rows: seq<Row>)
    ensures ApplyFilter(rows, None) == rows
  {
    KeepAll(rows, FilterTest(None));
  }

  /** A backend given a stripped query performs exactly the pushed stages: a stage it was
      not given is a stage it cannot apply. */
  lemma InnerPerformsPlan(s: Shim, q: ListQuery, plan: Plan, stripped: ListQuery)
    requires plan.filter == PlanFor(s, q).filter && plan.search == PlanFor(s, q).search
    requires plan.sort ==> PlanFor(s, q).sort
    requires stripped.filter == InnerQuery(q, plan, s.maxRows).filter
    requires stripped.scope == InnerQuery(q, plan, s.maxRows).scope
    requires stripped.search == InnerQuery(q, plan, s.maxRows).search
    requires stripped.sort == InnerQuery(q, plan, s.maxRows).sort
    ensures var caps := s.inner.caps;
            RunStages(s.inner.rows, stripped, caps.searchable, s.inner.Filters(stripped), caps.serverSearch, caps.serverSort)
            == PushedRows(s, q, plan)
  {
    var rows, caps := s.inner.rows, s.inner.caps;
    if plan.filter {
      assert stripped.Effective() == q.Effective();
    } else {
      assert stripped.Effective() == None;
      NoFilterKeepsAll(rows);
    }
    var filtered := if plan.filter then ApplyFilter(rows, q.Effective()) else rows;
    assert filtered == if s.inner.Filters(stripped) then ApplyFilter(rows, stripped.Effective()) else rows;
    EmptySearchKeepsAll(filtered, caps.searchable);
    var found := if plan.search then ApplySearch(filtered, q.search, s.Fields()) else filtered;
    assert found == if caps.serverSearch then ApplySearch(filtered, stripped.search, caps.searchable) else filtered;
    NoKeysNoChange(found);
  }

  /** What a backend hands over, in terms of the rows its stages leave. */
  lemma InnerListShape(inner: Inner, q: ListQuery, asked: ListQuery)
    requires asked == CapPage(q, inner.cap)
    ensures var all := RunStages(inner.rows, asked, inner.caps.searchable,
                                 inner.Filters(asked), inner.caps.serverSearch, inner.caps.serverSort);
            var page := InnerList(inner, q);
            && page.items == (if inner.caps.serverPaginate then Window(all, asked.Offset(), asked.pageSize) else all)
            && page.hasMore == (if inner.KnowsMore(q) then inner.caps.serverPaginate && asked.Offset() + |page.items| < |all|
                                else |page.items| >= q.pageSize)
            && page.total == (if inner.Counts(q) then Some(|all|) else None)
            && page.page == q.page && page.pageSize == asked.pageSize
  {
    hide RunStages;
    assert asked.Effective() == q.Effective();
  }

  lemma FirstPageStarts(q: ListQuery)
    requires q.page == 1
    ensures q.Offset() == 0
  {
  }

  /** The k-th chunk is the k-th run of rows a scan can reach. */
  lemma ChunkIsNextRows(s: Shim, q: ListQuery, plan: Plan, pageNumber: positive)
    requires plan == PlanFor(s, q) && s.inner.caps.serverPaginate
    requires SCAN_CHUNK * (pageNumber - 1) <= |ScannedRows(s, q, plan)|
    ensures InnerList(s.inner, ChunkQuery(s, q, plan, pageNumber)).items
         == Window(ScannedRows(s, q, plan), SCAN_CHUNK * (pageNumber - 1), SCAN_CHUNK)
  {
    hide RunStages, PlanFor, InnerList, PushedRows, FilterOps, ListQuery.Effective;
    var cq := ChunkQuery(s, q, plan, pageNumber);
    var asked := CapPage(cq, s.inner.cap);
    InnerPerformsPlan(s, q, plan.(sort := false, page := false), asked);
    InnerListShape(s.inner, cq, asked);
    PushedIgnoresPage(s, q, plan.(sort := false));
    if s.inner.cap.Some? && s.inner.cap.value < SCAN_CHUNK {
      assert pageNumber == 1;
      FirstPageStarts(asked);
    } else {
      assert asked.Offset() == (pageNumber - 1) * SCAN_CHUNK;
    }
  }

  lemma PushedIgnoresPage(s: Shim, q: ListQuery, plan: Plan)
    ensures PushedRows(s, q, plan.(page := false)) == PushedRows(s, q, plan)
  {
  }

  // ----- scanning -----

  /** Fewer rows scanned never means more rows found: what is found so far is a prefix. */
  lemma LocalRowsPrefix(s: Shim, rows: seq<Row>, n: nat, q: ListQuery, plan: Plan)
    requires n <= |rows|
    ensures LocalRows(s, rows[..n], q, plan) <= LocalRows(s, rows, q, plan)
  {
    assert rows == rows[..n] + rows[n..];
    StagesConcat(rows[..n], rows[n..], q, s.Fields(), !plan.filter, !plan.search);
  }

  lemma ScanBoundIsWholeChunks(maxScan: nat, chunks: nat)
    ensures maxScan <= ScanBound(maxScan) < maxScan + SCAN_CHUNK
    ensures SCAN_CHUNK * chunks < maxScan + SCAN_CHUNK ==> SCAN_CHUNK * chunks <= ScanBound(maxScan)
    ensures maxScan <= SCAN_CHUNK * chunks ==> ScanBound(maxScan) <= SCAN_CHUNK * chunks
  {
  }

  /** Where the scan stopped decides the answer as the whole reachable collection would. */
  lemma ScanOutcome(s: Shim, q: ListQuery, plan: Plan, rows: seq<Row>, scanned: nat, needed: nat)
    requires scanned <= |rows| && scanned <= ScanBound(s.maxScan)
    requires scanned >= s.maxScan ==> Take(rows, ScanBound(s.maxScan)) == rows[..scanned]
    requires |LocalRows(s, rows[..scanned], q, plan)| < needed ==> scanned == |rows| || scanned >= s.maxScan
    ensures (|rows| >= s.maxScan && |LocalRows(s, Take(rows, ScanBound(s.maxScan)), q, plan)| < needed)
            <==> |LocalRows(s, rows[..scanned], q, plan)| < needed && scanned >= s.maxScan
    ensures LocalRows(s, rows[..scanned], q, plan) <= LocalRows(s, rows, q, plan)
    ensures |LocalRows(s, rows[..scanned], q, plan)| >= needed || scanned < s.maxScan ==>
              |LocalRows(s, rows[..scanned], q, plan)| >= needed
              || LocalRows(s, rows[..scanned], q, plan) == LocalRows(s, rows, q, plan)
  {
    var reach := Take(rows, ScanBound(s.maxScan));
    LocalRowsPrefix(s, rows, scanned, q, plan);
    assert reach[..scanned] == rows[..scanned];
    LocalRowsPrefix(s, reach, scanned, q, plan);
    assert rows[..|rows|] == rows;
  }

  lemma WindowOfPrefix(a: seq<Row>, b: seq<Row>, offset: nat, size: nat)
    requires a <= b && |a| >= offset + size
    ensures Window(a, offset, size) == Window(b, offset, size)
  {
  }

  lemma LocalRowsStep(s: Shim, rows: seq<Row>, a: nat, b: nat, q: ListQuery, plan: Plan)
    requires a <= b <= |rows|
    ensures LocalRows(s, rows[..b], q, plan) == LocalRows(s, rows[..a], q, plan) + LocalRows(s, rows[a..b], q, plan)
  {
    assert rows[..b] == rows[..a] + rows[a..b];
    StagesConcat(rows[..a], rows[a..b], q, s.Fields(), !plan.filter, !plan.search);
  }

  /** Reading one more chunk finds the local rows of that chunk too. */
  lemma ScanStep(s: Shim, q: ListQuery, plan: Plan, rows: seq<Row>, scanned: nat, chunk: seq<Row>)
    requires scanned <= |rows|
    requires chunk == rows[scanned..Min(scanned + SCAN_CHUNK, |rows|)]
    ensures LocalRows(s, rows[..scanned + |chunk|], q, plan)
         == LocalRows(s, rows[..scanned], q, plan) + LocalRows(s, chunk, q, plan)
  {
    hide LocalRows;
    LocalRowsStep(s, rows, scanned, scanned + |chunk|, q, plan);
  }

  /** Asks the backend for one chunk. */
  method FetchChunk(s: Shim, q: ListQuery, plan: Plan, pageNumber: positive) returns (chunk: seq<Row>)
    requires plan == PlanFor(s, q) && s.inner.caps.serverPaginate
    requires SCAN_CHUNK * (pageNumber - 1) <= |ScannedRows(s, q, plan)|
    ensures chunk == ScannedRows(s, q, plan)[SCAN_CHUNK * (pageNumber - 1)
                                             ..Min(SCAN_CHUNK * pageNumber, |ScannedRows(s, q, plan)|)]
  {
    chunk := InnerList(s.inner, ChunkQuery(s, q, plan, pageNumber)).items;
    ChunkIsNextRows(s, q, plan, pageNumber);
  }

  /** Where a scan may stop: with the page settled, at the end of the collection, or with the
      budget spent. */
  ghost predicate Stopped(s: Shim, q: ListQuery, plan: Plan, scanned: nat, matched: seq<Row>) {
    var rows := ScannedRows(s, q, plan);
    && scanned <= |rows| && scanned <= ScanBound(s.maxScan)
    && matched == LocalRows(s, rows[..scanned], q, plan)
    && (scanned == |rows| || scanned >= s.maxScan || |matched| > q.Offset() + q.pageSize)
    && (scanned >= s.maxScan ==> scanned == |rows| || scanned == ScanBound(s.maxScan))
  }

  /** Where the scan stopped settles the answer. */
  lemma ScanStops(s: Shim, q: ListQuery, plan: Plan, scanned: nat, matched: seq<Row>)
    requires plan == PlanFor(s, q) && Stopped(s, q, plan, scanned, matched)
    ensures StreamAnswer(s, q) ==
      if |matched| <= q.Offset() + q.pageSize && scanned >= s.maxScan then Refused(TooManyRows)
      else Ok(Page(Window(matched, q.Offset(), q.pageSize), q.page, q.pageSize, None,
                   |matched| > q.Offset() + q.pageSize))
  {
    var rows := ScannedRows(s, q, plan);
    if scanned >= s.maxScan {
      assert Take(rows, ScanBound(s.maxScan)) == rows[..scanned];
    }
    ScanOutcome(s, q, plan, rows, scanned, q.Offset() + q.pageSize + 1);
    if |matched| > q.Offset() + q.pageSize {
      WindowOfPrefix(matched, LocalRows(s, rows, q, plan), q.Offset(), q.pageSize);
    }
  }

  lemma NothingScanned(s: Shim, rows: seq<Row>, q: ListQuery, plan: Plan)
    ensures LocalRows(s, rows[..0], q, plan) == []
  {
    assert rows[..0] == [];
  }

  /** Reads the backend a chunk at a time until the page is settled, the collection ends or
      the budget is spent. */
  method Scan(s: Shim, q: ListQuery, plan: Plan) returns (matched: seq<Row>, scanned: nat)
    requires plan == PlanFor(s, q) && s.inner.caps.serverPaginate
    ensures Stopped(s, q, plan, scanned, matched)
  {
    hide LocalRows, ScannedRows;
    ghost var rows := ScannedRows(s, q, plan);
    var needed := q.Offset() + q.pageSize + 1;
    matched := [];
    scanned := 0;
    NothingScanned(s, rows, q, plan);
    assert matched == LocalRows(s, rows[..scanned], q, plan);
    var pageNumber: positive := 1;
    ScanBoundIsWholeChunks(s.maxScan, 0);
    while |matched| < needed && scanned < s.maxScan
      invariant scanned == SCAN_CHUNK * (pageNumber - 1) <= |rows|
      invariant scanned <= ScanBound(s.maxScan)
      invariant scanned >= s.maxScan ==> scanned == ScanBound(s.maxScan)
      invariant matched == LocalRows(s, rows[..scanned], q, plan)
      decreases |rows| - scanned
    {
      ScanBoundIsWholeChunks(s.maxScan, pageNumber);
      var chunk := FetchChunk(s, q, plan, pageNumber);
      ScanStep(s, q, plan, rows, scanned, chunk);
      if chunk == [] {
        break;
      }
      var kept := LocalRows(s, chunk, q, plan);
      assert LocalRows(s, rows[..scanned + |chunk|], q, plan) == matched + kept;
      matched := matched + kept;
      scanned := scanned + |chunk|;
      pageNumber := pageNumber + 1;
      if |chunk| < SCAN_CHUNK {
        break;
      }
    }
  }

  /** Answers by scanning: memory is bounded by the chunk and the rows found so far. */
  method Stream(s: Shim, q: ListQuery, plan: Plan) returns (r: Result<Page>)
    requires plan == PlanFor(s, q) && s.inner.caps.serverPaginate
    ensures r == StreamAnswer(s, q)
  {
    var matched, scanned := Scan(s, q, plan);
    ScanStops(s, q, plan, scanned, matched);
    if |matched| <= q.Offset() + q.pageSize && scanned >= s.maxScan {
      return Refused(TooManyRows);
    }
    return Ok(Page(Window(matched, q.Offset(), q.pageSize), q.page, q.pageSize, None,
                   |matched| > q.Offset() + q.pageSize));
  }
}
