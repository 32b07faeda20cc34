/** What the shim promises: the exact answer or a refusal, never a wrong answer. */
module ShimExactness {
  import opened Values
  import opened Query
  import opened Sorting
  import opened LocalEngine
  import opened CapabilityShim

  /** A hard page limit does no harm when it cannot cut short what this query asks of the
      backend, when the scan budget is spent before the limit, or when the backend reports the
      cut. */
  predicate CapHarmless(s: Shim, q: ListQuery) {
    var plan := PlanFor(s, q);
    s.inner.cap.None? || (
      var cap := s.inner.cap.value;
      if CanStream(s, q) then cap >= SCAN_CHUNK || cap >= s.maxScan || |PushedRows(s, q, plan)| <= cap
      else if plan.page then cap >= q.pageSize
      else LoadedWhole(s, q))
  }

  /** Whether a backend reports a cut to a query so that the guard sees it: a total, and that
      more follow whatever size was asked for. */
  predicate ReportsCut(inner: Inner, q: ListQuery) {
    inner.Counts(q) && inner.KnowsMore(q)
  }

  /** The exact condition for the load-and-finish path to see every row or know it did not. */
  predicate LoadedWhole(s: Shim, q: ListQuery) {
    s.inner.cap.None? || !s.inner.caps.serverPaginate || ReportsCut(s.inner, q) ||
    s.inner.cap.value > s.maxRows || |PushedRows(s, q, PlanFor(s, q))| <= s.inner.cap.value
  }

  function Loaded(s: Shim, q: ListQuery): Page {
    InnerList(s.inner, InnerQuery(q, PlanFor(s, q), s.maxRows))
  }

  /** What a backend that was not asked to page hands over, and what it says about it. */
  lemma LoadedPage(s: Shim, q: ListQuery)
    requires !PlanFor(s, q).page
    ensures var all := PushedRows(s, q, PlanFor(s, q));
            var asked := if s.inner.cap.Some? && s.inner.cap.value < s.maxRows + 1 then s.inner.cap.value else s.maxRows + 1;
            var page := Loaded(s, q);
            && page.items == (if s.inner.caps.serverPaginate then Take(all, asked) else all)
            && page.hasMore == (if s.inner.KnowsMore(q) then s.inner.caps.serverPaginate && asked < |all|
                                else |page.items| > s.maxRows)
            && page.total == (if s.inner.Counts(q) then Some(|all|) else None)
  {
    hide PlanFor, PushedRows, InnerList, RunStages, ListQuery.Effective, FilterOps, ListQuery.Offset, Inner.Filters;
    var plan := PlanFor(s, q);
    var iq := InnerQuery(q, plan, s.maxRows);
    var asked := CapPage(iq, s.inner.cap);
    InnerPerformsPlan(s, q, plan, asked);
    InnerListShape(s.inner, iq, asked);
    FirstPageStarts(asked);
  }

  /** The guard lets a loaded page through only if it is the whole collection, exactly under
      the condition above; otherwise a truncated page passes unnoticed. */
  lemma GuardPassesOnlyWholeLoads(s: Shim, q: ListQuery)
    requires !PlanFor(s, q).page
    ensures (!GuardRefuses(s, Loaded(s, q)) ==> Loaded(s, q).items == PushedRows(s, q, PlanFor(s, q)))
            <==> LoadedWhole(s, q)
  {
    hide PlanFor, PushedRows, Loaded;
    LoadedPage(s, q);
  }

  lemma LoadedAnswerExact(s: Shim, q: ListQuery)
    requires !CanStream(s, q) && !PlanFor(s, q).page && LoadedWhole(s, q)
    ensures ShimAnswer(s, q).Ok? ==>
              ShimAnswer(s, q).value == RunQuery(s.inner.rows, q, s.Fields(), true, true, true, true)
  {
    var plan := PlanFor(s, q);
    GuardPassesOnlyWholeLoads(s, q);
    StagesSplit(s.inner.rows, q, s.Fields(), plan.filter, plan.search, plan.sort);
  }

  lemma RunQueryExact(rows: seq<Row>, q: ListQuery, fields: seq<string>)
    ensures Exact(RunQuery(rows, q, fields, true, true, true, true), rows, q, fields)
  {
  }

  lemma PushedAnswerExact(s: Shim, q: ListQuery)
    requires !CanStream(s, q) && PlanFor(s, q).page
    requires s.inner.cap.None? || s.inner.cap.value >= q.pageSize
    ensures ShimAnswer(s, q).Ok? && Exact(ShimAnswer(s, q).value, s.inner.rows, q, s.Fields())
  {
    var plan := PlanFor(s, q);
    var iq := InnerQuery(q, plan, s.maxRows);
    assert CapPage(iq, s.inner.cap) == iq;
    InnerPerformsPlan(s, q, plan, iq);
    EverythingPushed(s, q);
    InnerListShape(s.inner, iq, iq);
    assert iq.Offset() == q.Offset();
  }

  lemma EverythingPushed(s: Shim, q: ListQuery)
    requires PlanFor(s, q).page
    ensures PushedRows(s, q, PlanFor(s, q)) == Answer(s.inner.rows, q, s.Fields())
  {
    EmptySearchKeepsAll(ApplyFilter(s.inner.rows, q.Effective()), s.Fields());
  }

  /** A scan reaches every row exactly when no hard limit makes it take a cut chunk for the
      last one. */
  lemma ScanReachesAllIff(s: Shim, q: ListQuery)
    ensures var plan := PlanFor(s, q).(sort := false);
            ScannedRows(s, q, plan) == PushedRows(s, q, plan) <==>
              s.inner.cap.None? || s.inner.cap.value >= SCAN_CHUNK || |PushedRows(s, q, plan)| <= s.inner.cap.value
  {
    hide PushedRows, PlanFor;
    var rows := PushedRows(s, q, PlanFor(s, q).(sort := false));
    assert |Take(rows, |rows|)| == |rows|;
  }

  lemma StreamedAnswerExact(s: Shim, q: ListQuery)
    requires CanStream(s, q) && CapHarmless(s, q)
    ensures ShimAnswer(s, q).Ok? ==> Exact(ShimAnswer(s, q).value, s.inner.rows, q, s.Fields())
    ensures ShimAnswer(s, q).Ok? ==>
              (ShimAnswer(s, q).value.hasMore <==> |Answer(s.inner.rows, q, s.Fields())| > q.Offset() + q.pageSize)
  {
    var plan := PlanFor(s, q);
    assert plan == plan.(sort := false);
    var rows := PushedRows(s, q, plan);
    StagesSplit(s.inner.rows, q, s.Fields(), plan.filter, plan.search, false);
    var found := LocalRows(s, rows, q, plan);
    NoKeysNoChange(found);
    assert found == Answer(s.inner.rows, q, s.Fields());
    hide PlanFor, PushedRows, LocalRows, Answer;
    if ScannedRows(s, q, plan) != rows && ShimAnswer(s, q).Ok? {
      CutScanSettled(s, q, plan, rows);
    }
  }

  /** A cut scan that answers at all filled its page before the cut. */
  lemma CutScanSettled(s: Shim, q: ListQuery, plan: Plan, rows: seq<Row>)
    requires s.inner.cap.Some? && s.maxScan <= s.inner.cap.value < SCAN_CHUNK && s.inner.cap.value < |rows|
    requires var reach := Take(rows, s.inner.cap.value);
             |LocalRows(s, Take(reach, ScanBound(s.maxScan)), q, plan)| > q.Offset() + q.pageSize
    ensures var found := LocalRows(s, Take(rows, s.inner.cap.value), q, plan);
            && |found| > q.Offset() + q.pageSize && |LocalRows(s, rows, q, plan)| >= |found|
            && Window(found, q.Offset(), q.pageSize) == Window(LocalRows(s, rows, q, plan), q.Offset(), q.pageSize)
  {
    hide LocalRows;
    var cap := s.inner.cap.value;
    var reach := Take(rows, cap);
    LocalRowsPrefix(s, rows, cap, q, plan);
    if ScanBound(s.maxScan) <= cap { LocalRowsPrefix(s, reach, ScanBound(s.maxScan), q, plan); }
    WindowOfPrefix(LocalRows(s, reach, q, plan), LocalRows(s, rows, q, plan), q.Offset(), q.pageSize);
  }

  /** Whatever the backend can do, whatever is asked of it: the page served is the exact one,
      or the query is refused as too large. */
  lemma ShimExactOrRefused(s: Shim, q: ListQuery)
    requires CapHarmless(s, q)
    ensures ShimAnswer(s, q).Ok? ==> Exact(ShimAnswer(s, q).value, s.inner.rows, q, s.Fields())
    ensures ShimAnswer(s, q).Refused? ==> ShimAnswer(s, q).error == TooManyRows
  {
    if CanStream(s, q) {
      StreamedAnswerExact(s, q);
    } else if PlanFor(s, q).page {
      PushedAnswerExact(s, q);
    } else {
      LoadedAnswerExact(s, q);
      RunQueryExact(s.inner.rows, q, s.Fields());
    }
  }

  /** Whether the scan budget runs out with the page not settled. */
  predicate ScanBudgetSpent(s: Shim, q: ListQuery) {
    var plan := PlanFor(s, q);
    var rows := PushedRows(s, q, plan);
    |rows| >= s.maxScan && |LocalRows(s, Take(rows, ScanBound(s.maxScan)), q, plan)| <= q.Offset() + q.pageSize
  }

  lemma ScanRefusesExactly(s: Shim, q: ListQuery)
    requires s.inner.cap.None? && CanStream(s, q)
    ensures ShimAnswer(s, q).Refused? <==> ScanBudgetSpent(s, q)
  {
    assert PlanFor(s, q) == PlanFor(s, q).(sort := false);
    hide PlanFor, PushedRows, LocalRows, CanStream, ScanBound, ListQuery.Offset;
    assert ScannedRows(s, q, PlanFor(s, q)) == PushedRows(s, q, PlanFor(s, q));
  }

  lemma LoadRefusesExactly(s: Shim, q: ListQuery)
    requires s.inner.cap.None? && !CanStream(s, q)
    ensures ShimAnswer(s, q).Refused? <==> !PlanFor(s, q).page && |PushedRows(s, q, PlanFor(s, q))| > s.maxRows
  {
    hide PlanFor, CanStream, PushedRows, InnerList, RunQuery, InnerQuery;
    if !PlanFor(s, q).page { LoadedPage(s, q); }
  }

  /** A refusal is never gratuitous: without a hard limit it happens exactly when the rows to
      load exceed the budget, or when the scan budget ran out with the page not settled. */
  lemma ShimRefusesExactlyOverBudget(s: Shim, q: ListQuery)
    requires s.inner.cap.None?
    ensures ShimAnswer(s, q).Refused? <==>
      if CanStream(s, q) then ScanBudgetSpent(s, q)
      else !PlanFor(s, q).page && |PushedRows(s, q, PlanFor(s, q))| > s.maxRows
  {
    hide ShimAnswer, PlanFor, CanStream, PushedRows, ScanBudgetSpent;
    if CanStream(s, q) {
      ScanRefusesExactly(s, q);
    } else {
      LoadRefusesExactly(s, q);
    }
  }

  /** With totals counted and no stage pushed down short, the reported figures are exact too. */
  lemma LoadedTotalsExact(s: Shim, q: ListQuery)
    requires !CanStream(s, q) && !PlanFor(s, q).page && LoadedWhole(s, q) && ShimAnswer(s, q).Ok?
    ensures var all := Answer(s.inner.rows, q, s.Fields());
            ShimAnswer(s, q).value.total == Some(|all|) &&
            (ShimAnswer(s, q).value.hasMore <==> q.Offset() + |ShimAnswer(s, q).value.items| < |all|)
  {
    LoadedAnswerExact(s, q);
  }

  /** Whether the has_more of a pushed page is known and not guessed from the page's size: the
      shim guesses when a total was wanted and none came, and backends in their own ways. */
  predicate PushedMoreKnown(s: Shim, q: ListQuery) {
    s.inner.KnowsMore(q) && (s.inner.Counts(q) || !q.withTotal)
  }

  lemma PushedHasMore(s: Shim, q: ListQuery)
    requires !CanStream(s, q) && PlanFor(s, q).page
    requires s.inner.cap.None? || s.inner.cap.value >= q.pageSize
    ensures var all := Answer(s.inner.rows, q, s.Fields());
            var n := q.Offset() + q.pageSize;
            ShimAnswer(s, q).Ok? &&
            ShimAnswer(s, q).value.hasMore == if PushedMoreKnown(s, q) then |all| > n else |all| >= n
  {
    var plan := PlanFor(s, q);
    var iq := InnerQuery(q, plan, s.maxRows);
    assert CapPage(iq, s.inner.cap) == iq;
    InnerPerformsPlan(s, q, plan, iq);
    EverythingPushed(s, q);
    InnerListShape(s.inner, iq, iq);
    assert iq.Offset() == q.Offset();
    hide PlanFor, RunStages, InnerList, PushedRows, Answer;
    assert s.inner.Counts(iq) == s.inner.Counts(q) && s.inner.KnowsMore(iq) == s.inner.KnowsMore(q);
  }

  /** What a page says of the rows after it is exact on the load and the scan path, and on a
      pushed page unless it is a guess and the page, being full, ends the collection: then it
      says more follow and none do. */
  lemma HasMoreExactIff(s: Shim, q: ListQuery)
    requires CapHarmless(s, q) && ShimAnswer(s, q).Ok?
    ensures var all := Answer(s.inner.rows, q, s.Fields());
            var n := q.Offset() + q.pageSize;
            (ShimAnswer(s, q).value.hasMore <==> |all| > n) <==>
              !(!CanStream(s, q) && PlanFor(s, q).page && !PushedMoreKnown(s, q) && |all| == n)
  {
    if CanStream(s, q) {
      StreamedAnswerExact(s, q);
    } else if PlanFor(s, q).page {
      PushedHasMore(s, q);
    } else {
      LoadedTotalsExact(s, q);
    }
  }

  // ----- when it answers, from the backend's capabilities alone -----

  /** The backend filters, by every operator the query uses. */
  predicate FiltersThere(s: Shim, q: ListQuery) {
    s.inner.caps.serverFilter && forall op :: op in FilterOps(q.Effective()) ==> op in s.inner.caps.filterOps
  }

  /** There is something to search for, and the backend searches exactly the resource's fields. */
  predicate SearchesThere(s: Shim, q: ListQuery) {
    q.search != "" && s.inner.caps.serverSearch && s.inner.caps.searchable != []
    && (s.given == [] || s.given == s.inner.caps.searchable)
  }

  /** The backend can do all of the query, and is asked for an order. */
  predicate AllThere(s: Shim, q: ListQuery) {
    s.inner.caps.serverPaginate && s.inner.caps.serverSort && q.sort != []
    && FiltersThere(s, q) && (q.search == "" || SearchesThere(s, q))
  }

  /** Something is left to filter or search for, nothing to sort or to count, and the backend
      gives its rows page by page. */
  predicate Scannable(s: Shim, q: ListQuery) {
    s.inner.caps.serverPaginate && q.sort == [] && !q.withTotal && (q.Effective().Some? || q.search != "")
    && !(FiltersThere(s, q) && SearchesThere(s, q))
  }

  /** The rows a backend without a hard limit has left after what it can do of the query. */
  function LeftThere(s: Shim, q: ListQuery): seq<Row> {
    RunStages(s.inner.rows, q, s.Fields(), FiltersThere(s, q), SearchesThere(s, q), false)
  }

  /** Which of them are found here. */
  function FoundHere(s: Shim, q: ListQuery, rows: seq<Row>): seq<Row> {
    RunStages(rows, q, s.Fields(), !FiltersThere(s, q), !SearchesThere(s, q), false)
  }

  /** The scan budget in whole chunks. */
  predicate Budget(maxScan: nat, bound: nat) {
    bound % 500 == 0 && maxScan <= bound < maxScan + 500
  }

  lemma PlanThere(s: Shim, q: ListQuery)
    ensures PlanFor(s, q).filter == FiltersThere(s, q) && PlanFor(s, q).search == SearchesThere(s, q)
    ensures PlanFor(s, q).page == AllThere(s, q) && CanStream(s, q) == Scannable(s, q)
  {
  }

  lemma BudgetIs(maxScan: nat, bound: nat)
    requires Budget(maxScan, bound)
    ensures ScanBound(maxScan) == bound
  {
  }

  /** A query the backend can do all of is answered, whatever its rows and whatever the budgets. */
  lemma AllThereAnswered(s: Shim, q: ListQuery)
    requires AllThere(s, q)
    ensures ShimAnswer(s, q).Ok?
  {
    PlanThere(s, q);
  }

  /** Without a hard limit the shim refuses exactly when the query has to be scanned and the
      budget's rows do not settle the page, or when it has to be loaded and what the backend
      leaves is over the row budget. */
  lemma RefusesIff(s: Shim, q: ListQuery, bound: nat)
    requires s.inner.cap.None? && Budget(s.maxScan, bound)
    ensures ShimAnswer(s, q).Refused? <==>
      if AllThere(s, q) then false
      else if Scannable(s, q) then
        |LeftThere(s, q)| >= s.maxScan && |FoundHere(s, q, Take(LeftThere(s, q), bound))| <= q.Offset() + q.pageSize
      else |LeftThere(s, q)| > s.maxRows
  {
    PlanThere(s, q);
    BudgetIs(s.maxScan, bound);
    LeftSorted(s, q);
    ShimRefusesExactlyOverBudget(s, q);
    hide PlanFor, CanStream, ShimAnswer, RunStages, FiltersThere, SearchesThere, ScanBound;
    if CanStream(s, q) { NoSortThere(s, q); }
  }

  lemma NoSortThere(s: Shim, q: ListQuery)
    requires q.sort == []
    ensures !PlanFor(s, q).sort
  {
  }

  lemma LeftSorted(s: Shim, q: ListQuery)
    ensures |PushedRows(s, q, PlanFor(s, q))| == |LeftThere(s, q)|
    ensures !PlanFor(s, q).sort ==> PushedRows(s, q, PlanFor(s, q)) == LeftThere(s, q)
  {
    PlanThere(s, q);
    hide FiltersThere, SearchesThere;
  }

  /** What an answer counts, without a hard limit: the backend's count where it did all of the
      query, nothing after a scan, and else everything that was found. */
  lemma TotalsIff(s: Shim, q: ListQuery)
    requires s.inner.cap.None? && ShimAnswer(s, q).Ok?
    ensures var all := Answer(s.inner.rows, q, s.Fields());
            ShimAnswer(s, q).value.total ==
              if Scannable(s, q) || (AllThere(s, q) && !s.inner.Counts(q)) then None else Some(|all|)
  {
    PlanThere(s, q);
    if CanStream(s, q) {
    } else if PlanFor(s, q).page {
      PushedTotal(s, q);
    } else {
      LoadedTotalsExact(s, q);
    }
  }

  lemma PushedTotal(s: Shim, q: ListQuery)
    requires s.inner.cap.None? && !CanStream(s, q) && PlanFor(s, q).page
    ensures ShimAnswer(s, q).value.total == if s.inner.Counts(q) then Some(|Answer(s.inner.rows, q, s.Fields())|) else None
  {
    var plan := PlanFor(s, q);
    var iq := InnerQuery(q, plan, s.maxRows);
    assert CapPage(iq, s.inner.cap) == iq;
    InnerPerformsPlan(s, q, plan, iq);
    EverythingPushed(s, q);
    InnerListShape(s.inner, iq, iq);
    hide PlanFor, RunStages, InnerList, PushedRows, Answer;
    assert s.inner.Counts(iq) == s.inner.Counts(q);
  }

  lemma NoLimitNoHarm(s: Shim, q: ListQuery)
    requires s.inner.cap.None?
    ensures CapHarmless(s, q)
  {
  }
}
