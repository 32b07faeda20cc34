/** Where a backend's hard page limit breaks the shim's promise, and exactly when it cannot. */
module ShimLimits {
  import opened Values
  import opened Query
  import opened Sorting
  import opened LocalEngine
  import opened CapabilityShim
  import opened ShimExactness

  /** The same shim over other rows. */
  function With(s: Shim, rows: seq<Row>): Shim {
    s.(inner := s.inner.(rows := rows))
  }

  function Copies(r: Row, n: nat): seq<Row> {
    seq(n, _ => r)
  }

  const BLANK: Row := map[]

  /** A first page of n rows: of everything, of everything that passes a filter, and of
      everything in an order. */
  function Plain(n: positive): ListQuery { ListQuery(None, None, "", [], 1, n, false) }

  function Filtered(n: positive): ListQuery {
    Plain(n).(filter := Some(Cond(Condition("id", IS_NULL, Null, []))))
  }

  function Ordering(n: positive): ListQuery { Plain(n).(sort := [Sort("id", Asc)]) }

  // ----- every stage keeps rows that are all selected -----

  predicate Selects(q: ListQuery, fields: seq<string>, r: Row) {
    FilterTest(q.Effective())(r) && SearchTest(q.search, fields)(r)
  }

  lemma StagesKeepSelected(q: ListQuery, fields: seq<string>, r: Row, n: nat, f: bool, s: bool, o: bool)
    requires Selects(q, fields, r)
    ensures |RunStages(Copies(r, n), q, fields, f, s, o)| == n
  {
    KeepAll(Copies(r, n), FilterTest(q.Effective()));
    KeepAll(Copies(r, n), SearchTest(q.search, fields));
  }

  lemma AnswerKeepsSelected(q: ListQuery, fields: seq<string>, r: Row, n: nat)
    requires Selects(q, fields, r)
    ensures |Answer(Copies(r, n), q, fields)| == n
  {
    StagesKeepSelected(q, fields, r, n, true, true, true);
  }

  lemma StagesShrink(rows: seq<Row>, q: ListQuery, fields: seq<string>, f: bool, s: bool, o: bool)
    ensures |RunStages(rows, q, fields, f, s, o)| <= |rows|
  {
  }

  lemma QueriesSelectBlank(n: positive, fields: seq<string>)
    ensures Selects(Plain(n), fields, BLANK) && Selects(Filtered(n), fields, BLANK) && Selects(Ordering(n), fields, BLANK)
  {
    assert Filtered(n).Effective() == Filtered(n).filter by {
      assert Present(Filtered(n).filter) + Present(None) == [Filtered(n).filter.value];
    }
    assert Plain(n).Effective() == None && Ordering(n).Effective() == None;
  }

  /** Fewer rows than the page asked for, of a collection that would fill it. */
  lemma ShortIsInexact(s: Shim, q: ListQuery, n: positive)
    requires s.inner.rows == Copies(BLANK, n) && q.pageSize == n && q.page == 1 && Selects(q, s.Fields(), BLANK)
    requires ShimAnswer(s, q).Ok? && |ShimAnswer(s, q).value.items| < n
    ensures !Exact(ShimAnswer(s, q).value, s.inner.rows, q, s.Fields())
  {
    hide ShimAnswer;
    AnswerKeepsSelected(q, s.Fields(), BLANK, n);
    FirstPageStarts(q);
  }

  // ----- an input for every limit that can do harm -----

  /** One row more than the limit, and a page to hold them all. */
  function OverLimit(s: Shim): positive
    requires s.inner.cap.Some?
  {
    s.inner.cap.value + 1
  }

  lemma ShortLoadServed(s: Shim, q: ListQuery)
    requires s.inner.cap.Some? && q == Plain(OverLimit(s)) && s.inner.rows == Copies(BLANK, OverLimit(s))
    requires s.inner.caps.serverPaginate && s.inner.cap.value <= s.maxRows && !ReportsCut(s.inner, q)
    ensures ShimAnswer(s, q).Ok? && !Exact(ShimAnswer(s, q).value, s.inner.rows, q, s.Fields())
  {
    var n, plan := OverLimit(s), PlanFor(s, q);
    QueriesSelectBlank(n, s.Fields());
    StagesKeepSelected(q, s.Fields(), BLANK, n, plan.filter, plan.search, plan.sort);
    LoadedPage(s, q);
    assert q.Effective() == None && !CanStream(s, q);
    hide RunStages, InnerList, PlanFor, InnerQuery;
    StagesShrink(Loaded(s, q).items, q, s.Fields(), !plan.filter, !plan.search, !plan.sort);
    ShortIsInexact(s, q, n);
  }

  lemma ShortScanServed(s: Shim, q: ListQuery)
    requires s.inner.cap.Some? && q == Filtered(OverLimit(s)) && s.inner.rows == Copies(BLANK, OverLimit(s))
    requires s.inner.caps.serverPaginate && s.inner.cap.value < SCAN_CHUNK && s.inner.cap.value < s.maxScan
    ensures ShimAnswer(s, q).Ok? && !Exact(ShimAnswer(s, q).value, s.inner.rows, q, s.Fields())
  {
    var n, plan := OverLimit(s), PlanFor(s, q);
    QueriesSelectBlank(n, s.Fields());
    assert q.Effective().Some? by { assert Present(q.filter) + Present(q.scope) == [q.filter.value]; }
    StagesKeepSelected(q, s.Fields(), BLANK, n, plan.filter, plan.search, false);
    assert CanStream(s, q);
    hide RunStages, PlanFor, CanStream;
    StagesShrink(ScannedRows(s, q, plan), q, s.Fields(), !plan.filter, !plan.search, false);
    FirstPageStarts(q);
    ShortIsInexact(s, q, n);
  }

  lemma ShortPageServed(s: Shim, q: ListQuery)
    requires s.inner.cap.Some? && q == Ordering(OverLimit(s)) && s.inner.rows == Copies(BLANK, OverLimit(s))
    requires s.inner.caps.serverPaginate && s.inner.caps.serverFilter && s.inner.caps.serverSort
    ensures ShimAnswer(s, q).Ok? && !Exact(ShimAnswer(s, q).value, s.inner.rows, q, s.Fields())
  {
    var n, plan := OverLimit(s), PlanFor(s, q);
    assert q.Effective() == None && plan.page && !CanStream(s, q);
    var iq := InnerQuery(q, plan, s.maxRows);
    var asked := CapPage(iq, s.inner.cap);
    InnerListShape(s.inner, iq, asked);
    FirstPageStarts(asked);
    QueriesSelectBlank(n, s.Fields());
    hide RunStages, InnerList, PlanFor, CanStream;
    ShortIsInexact(s, q, n);
  }

  // ----- exactly which backends are safe -----

  ghost predicate ExactOrRefused(s: Shim, q: ListQuery) {
    ShimAnswer(s, q).Ok? ==> Exact(ShimAnswer(s, q).value, s.inner.rows, q, s.Fields())
  }

  /** Whatever rows a backend holds and whatever it is asked. */
  ghost predicate AlwaysExactOrRefused(s: Shim) {
    forall rows, q :: ExactOrRefused(With(s, rows), q)
  }

  /** A backend without a hard page limit, or one that hands over everything anyway, or one
      whose limit cannot cut a pushed page (it cannot be given one), a scan (it is a chunk, or
      the scan budget) or a load (it is over the row budget, or always reported). */
  predicate SafeLimit(s: Shim) {
    var caps := s.inner.caps;
    s.inner.cap.None? || !caps.serverPaginate || (
      && !(caps.serverFilter && caps.serverSort)
      && (s.inner.cap.value >= SCAN_CHUNK || s.inner.cap.value >= s.maxScan)
      && (s.inner.cap.value > s.maxRows || (caps.totalCount && s.inner.reports.Always?)))
  }

  lemma SafeLimitHarmless(s: Shim, rows: seq<Row>, q: ListQuery)
    requires SafeLimit(s)
    ensures CapHarmless(With(s, rows), q)
  {
    hide PushedRows, FilterOps;
  }

  /** The shim's promise, for every row set and every query, holds of exactly the backends with
      a safe limit. */
  lemma SafeLimitIff(s: Shim)
    ensures AlwaysExactOrRefused(s) <==> SafeLimit(s)
  {
    hide ShimAnswer, Exact, CapHarmless;
    if SafeLimit(s) {
      forall rows, q ensures ExactOrRefused(With(s, rows), q) {
        SafeLimitHarmless(s, rows, q);
        ShimExactOrRefused(With(s, rows), q);
      }
    } else {
      var n := OverLimit(s);
      var t := With(s, Copies(BLANK, n));
      if s.inner.caps.serverFilter && s.inner.caps.serverSort {
        ShortPageServed(t, Ordering(n));
        assert !ExactOrRefused(With(s, Copies(BLANK, n)), Ordering(n));
      } else if s.inner.cap.value < SCAN_CHUNK && s.inner.cap.value < s.maxScan {
        ShortScanServed(t, Filtered(n));
        assert !ExactOrRefused(With(s, Copies(BLANK, n)), Filtered(n));
      } else {
        ShortLoadServed(t, Plain(n));
        assert !ExactOrRefused(With(s, Copies(BLANK, n)), Plain(n));
      }
    }
  }

  ghost predicate AskedWindowServed(s: Shim, q: ListQuery) {
    forall rows ::
      InnerList(With(s, rows).inner, InnerQuery(q, PlanFor(s, q), s.maxRows)).items
      == Window(Answer(rows, q, s.Fields()), q.Offset(), q.pageSize)
  }

  lemma LargeLimitServesWindow(s: Shim, q: ListQuery, rows: seq<Row>)
    requires PlanFor(s, q).page && (s.inner.cap.None? || s.inner.cap.value >= q.pageSize)
    ensures InnerList(With(s, rows).inner, InnerQuery(q, PlanFor(s, q), s.maxRows)).items
         == Window(Answer(rows, q, s.Fields()), q.Offset(), q.pageSize)
  {
    hide InnerList, Answer, InnerQuery;
    PushedAnswerExact(With(s, rows), q);
  }

  lemma SmallLimitServesLess(s: Shim, q: ListQuery, rows: seq<Row>)
    requires PlanFor(s, q).page && s.inner.cap.Some? && s.inner.cap.value < q.pageSize
    ensures |InnerList(With(s, rows).inner, InnerQuery(q, PlanFor(s, q), s.maxRows)).items| < q.pageSize
  {
    var iq := InnerQuery(q, PlanFor(s, q), s.maxRows);
    hide RunStages, InnerList, FilterOps;
    InnerListShape(With(s, rows).inner, iq, CapPage(iq, s.inner.cap));
  }

  /** A pushed query that selects any row at all is given the window it asks for, whatever the
      rows, exactly when the limit is no smaller than its page. */
  lemma PushedWindowIff(s: Shim, q: ListQuery, r: Row)
    requires PlanFor(s, q).page && Selects(q, s.Fields(), r)
    ensures AskedWindowServed(s, q) <==> s.inner.cap.None? || s.inner.cap.value >= q.pageSize
  {
    hide InnerList, InnerQuery, Answer, PlanFor, Selects, ListQuery.Offset;
    if s.inner.cap.None? || s.inner.cap.value >= q.pageSize {
      forall rows
        ensures InnerList(With(s, rows).inner, InnerQuery(q, PlanFor(s, q), s.maxRows)).items
             == Window(Answer(rows, q, s.Fields()), q.Offset(), q.pageSize)
      {
        LargeLimitServesWindow(s, q, rows);
      }
    } else {
      var rows := Copies(r, q.Offset() + q.pageSize);
      AnswerKeepsSelected(q, s.Fields(), r, q.Offset() + q.pageSize);
      SmallLimitServesLess(s, q, rows);
    }
  }

  // ----- such backends, named -----

  const PAGES := Capabilities(false, false, false, true, false, false, {}, [])

  function Backend(caps: Capabilities, reports: Reporting): Shim {
    Shim(Inner(Copies(BLANK, 101), caps, Some(100), true, reports), [], 5000, 50000)
  }

  ghost predicate Misled(s: Shim, q: ListQuery) {
    !ExactOrRefused(s, q)
  }

  /** One hundred rows a page and no totals: the guard has nothing to see. */
  lemma TruncatedLoadServed()
    ensures Misled(Backend(PAGES, Always), Plain(101))
  {
    ShortLoadServed(Backend(PAGES, Always), Plain(101));
  }

  /** The same with totals, but more rows are told from the page's size: 100 rows of the 5001
      asked for look like the last ones, and the guard never compares the total. */
  lemma CountedLoadServed()
    ensures Misled(Backend(PAGES.(totalCount := true), BySize), Plain(101))
  {
    ShortLoadServed(Backend(PAGES.(totalCount := true), BySize), Plain(101));
  }

  /** And with totals counted only for queries that want one. */
  lemma UncountedLoadServed()
    ensures Misled(Backend(PAGES.(totalCount := true), WhenWanted), Plain(101))
  {
    ShortLoadServed(Backend(PAGES.(totalCount := true), WhenWanted), Plain(101));
  }

  /** A scan takes the first 100 rows for all of them. */
  lemma TruncatedScanServed()
    ensures Misled(Backend(PAGES, Always), Filtered(101))
  {
    ShortScanServed(Backend(PAGES, Always), Filtered(101));
  }

  /** A page of 101 is served with 100. */
  lemma TruncatedPageServed()
    ensures Misled(Backend(PAGES.(serverFilter := true, serverSort := true), Always), Ordering(101))
  {
    ShortPageServed(Backend(PAGES.(serverFilter := true, serverSort := true), Always), Ordering(101));
  }

  /** No limit at all, no total wanted, and a full page that ends the collection: it says that
      more follow. */
  lemma EndTakenForMore()
    ensures var s := Unlimited(); var q := Ordering(101);
      && ShimAnswer(s, q).Ok? && ShimAnswer(s, q).value.hasMore
      && |Answer(s.inner.rows, q, s.Fields())| == q.Offset() + q.pageSize
  {
    var s, q := Unlimited(), Ordering(101);
    assert q.Effective() == None && PlanFor(s, q).page && !CanStream(s, q);
    PushedHasMore(s, q);
    QueriesSelectBlank(101, s.Fields());
    AnswerKeepsSelected(q, s.Fields(), BLANK, 101);
    FirstPageStarts(q);
  }

  function Unlimited(): Shim {
    Shim(Inner(Copies(BLANK, 101), PAGES.(serverFilter := true, serverSort := true), None, true, WhenWanted), [], 5000, 50000)
  }
}
