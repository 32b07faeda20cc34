/** Where the union's promise stops, and when its sources cannot break it. Sorting a prefixed
    union by its own key: the sources sort 9 before 10, the merged keys sort "a:10" before
    "a:9", and the page served is not the first page of the collection. */
module UnionLimits {
  import opened Values
  import opened Query
  import opened Sorting
  import opened LocalEngine
  import opened CapabilityShim
  import opened ShimExactness
  import opened ShimLimits
  import opened UnionProvider
  import opened UnionExactness

  const NINE: Row := map["id" := Int(9)]
  const TEN: Row := map["id" := Int(10)]
  const BY_KEY := [Sort("id", Asc)]

  function Backend(rows: seq<Row>): Shim {
    Shim(Inner(rows, Capabilities(false, false, false, false, false, false, {}, []), None, true, Always), [], 5000, 50000)
  }

  const UNION := Union([Source("a", Backend([NINE, TEN])), Source("b", Backend([]))], "id", "source", true, 5000)
  const FIRST_PAGE := ListQuery(None, None, "", BY_KEY, 1, 1, false)
  const EVERYTHING := Split(None, [])

  lemma SortPair(x: Row, y: Row, sorts: seq<Sort>)
    ensures SortRows([x], sorts) == [x]
    ensures SortRows([x, y], sorts) == if Le(x, y, sorts) then [x, y] else [y, x]
  {
    assert [x][1..] == [] && [x, y][1..] == [y];
    assert SortRows([], sorts) == [];
    assert SortRows([y], sorts) == [y] by { assert [y][1..] == []; }
    assert Merge([x][1..], [y], sorts) == [y] && Merge([x], [y][1..], sorts) == [x];
  }

  lemma KeyOrders()
    ensures Le(NINE, TEN, BY_KEY) && !Le(Stamp(UNION, NINE, "a"), Stamp(UNION, TEN, "a"), BY_KEY)
  {
    var s9, s10 := Stamp(UNION, NINE, "a"), Stamp(UNION, TEN, "a");
    assert Digits(1) == "1" && Digits(10) == "1" + "0";
    assert s9["id"] == Str("a:9") && s10["id"] == Str("a:10");
    assert Fold("a:9") == "a:9" && Fold("a:10") == "a:10";
    assert "a:10"[1..] == ":10" && "a:9"[1..] == ":9" && ":10"[1..] == "10" && ":9"[1..] == "9";
    assert StrLess("10", "9") && StrLess(":10", ":9") && StrLess("a:10", "a:9");
    OneKey(TEN, NINE, BY_KEY[0]);
    OneKey(s10, s9, BY_KEY[0]);
  }

  lemma PlainAnswer(rows: seq<Row>, q: ListQuery)
    requires q.filter == q.scope == None && q.search == ""
    ensures Answer(rows, q, []) == SortRows(rows, q.sort)
  {
    assert q.Effective() == None;
    NoFilterKeepsAll(rows);
    EmptySearchKeepsAll(rows, []);
  }

  lemma Routing()
    ensures SplitFilter(UNION, FIRST_PAGE.Effective()) == Ok(EVERYTHING)
    ensures Route(UNION.sources, EVERYTHING) == UNION.sources
    ensures SourceQuery(UNION, FIRST_PAGE, EVERYTHING) == FIRST_PAGE
    ensures FIRST_PAGE.Offset() == 0
  {
    assert UNION.sources[1..] == [UNION.sources[1]] && [UNION.sources[1]][1..] == [];
    assert Route([UNION.sources[1]], EVERYTHING) == [UNION.sources[1]];
    assert BY_KEY[1..] == [] && PushedSort(BY_KEY, "source") == BY_KEY;
  }

  /** The exact answers of the two sources to the query they are given. */
  function SourcePages(): seq<Page> {
    [Page([NINE], 1, 1, None, true), Page([], 1, 1, None, false)]
  }

  lemma SourcePagesExact()
    ensures AllExact(UNION.sources, SourcePages(), FIRST_PAGE)
  {
    Routing();
    KeyOrders();
    SortPair(NINE, TEN, BY_KEY);
    PlainAnswer([NINE, TEN], FIRST_PAGE);
    PlainAnswer([], FIRST_PAGE);
    assert Window([NINE, TEN], 0, 1) == [NINE];
    assert Exact(SourcePages()[0], [NINE, TEN], FIRST_PAGE, []);
    assert Exact(SourcePages()[1], [], FIRST_PAGE, []);
  }

  lemma WholeCollection()
    ensures Whole(UNION, FIRST_PAGE) == [Stamp(UNION, TEN, "a"), Stamp(UNION, NINE, "a")]
  {
    var s9, s10 := Stamp(UNION, NINE, "a"), Stamp(UNION, TEN, "a");
    assert FIRST_PAGE.Effective() == None;
    EmptySearchKeepsAll([NINE, TEN], []);
    EmptySearchKeepsAll([], []);
    assert [NINE, TEN][1..] == [TEN] && [TEN][1..] == [];
    assert StampAll(UNION, [TEN], "a") == [s10] && StampAll(UNION, [NINE, TEN], "a") == [s9, s10];
    NoFilterKeepsAll([s9, s10]);
    NoFilterKeepsAll([]);
    assert UNION.sources[1..] == [UNION.sources[1]] && [UNION.sources[1]][1..] == [];
    assert Selected(UNION, [UNION.sources[1]], FIRST_PAGE) == [];
    assert Selected(UNION, UNION.sources, FIRST_PAGE) == [s9, s10];
    KeyOrders();
    SortPair(s9, s10, BY_KEY);
  }

  lemma Served()
    ensures MergePages(UNION, UNION.sources, SourcePages(), FIRST_PAGE).items == [Stamp(UNION, NINE, "a")]
  {
    var s9 := Stamp(UNION, NINE, "a");
    assert [NINE][1..] == [] && StampAll(UNION, [NINE], "a") == [s9];
    assert UNION.sources[1..] == [UNION.sources[1]] && [UNION.sources[1]][1..] == [];
    assert SourcePages()[1..] == [SourcePages()[1]] && [SourcePages()[1]][1..] == [];
    assert Gather(UNION, [UNION.sources[1]], [SourcePages()[1]]) == [];
    assert Gather(UNION, UNION.sources, SourcePages()) == [s9];
    SortPair(s9, s9, BY_KEY);
    Routing();
  }

  /** Every source answers exactly, and the merged page is still wrong. */
  lemma PrefixedKeySortNotExact()
    ensures FilterClear(UNION, FIRST_PAGE.Effective())
    ensures SplitFilter(UNION, FIRST_PAGE.Effective()) == Ok(EVERYTHING)
    ensures AllExact(Route(UNION.sources, EVERYTHING), SourcePages(), SourceQuery(UNION, FIRST_PAGE, EVERYTHING))
    ensures !UnionExact(MergePages(UNION, UNION.sources, SourcePages(), FIRST_PAGE), UNION, FIRST_PAGE)
  {
    Routing();
    SourcePagesExact();
    Served();
    WholeCollection();
    KeyOrders();
    LeReflexive(Stamp(UNION, NINE, "a"), BY_KEY);
  }

  // ----- exactly when sorting survives the stamp -----

  ghost predicate OrderSurvives(u: Union, sorts: seq<Sort>) {
    forall a, b, tag ::
      Before(Stamp(u, a, tag), Stamp(u, b, tag), sorts) == Before(a, b, PushedSort(sorts, u.sourceField))
  }

  lemma PrefixedTexts(u: Union, n: int)
    requires u.prefixed && u.pk != u.sourceField && n in {9, 10}
    ensures GetOrNull(Stamp(u, map[u.pk := Int(n)], "a"), u.pk) == Str(if n == 9 then "a:9" else "a:10")
  {
    assert Digits(1) == "1" && Digits(10) == "1" + "0";
  }

  lemma TenBeforeNineAsText()
    ensures KeyLess(Str("a:10"), Str("a:9")) && !KeyLess(Str("a:9"), Str("a:10"))
  {
    assert Fold("a:9") == "a:9" && Fold("a:10") == "a:10";
    assert "a:10"[1..] == ":10" && "a:9"[1..] == ":9" && ":10"[1..] == "10" && ":9"[1..] == "9";
    assert StrLess("10", "9") && StrLess(":10", ":9") && StrLess("a:10", "a:9");
    StrLessTrichotomy("a:10", "a:9");
  }

  /** Keys 9 and 10 change places under the prefix, whatever else is sorted by. */
  lemma {:induction false} KeySortTurns(u: Union, sorts: seq<Sort>, i: nat)
    requires u.prefixed && u.pk != u.sourceField && i < |sorts| && sorts[i].field == u.pk
    ensures var nine: Row, ten: Row := map[u.pk := Int(9)], map[u.pk := Int(10)];
            var x, y := Stamp(u, nine, "a"), Stamp(u, ten, "a");
            var pushed := PushedSort(sorts, u.sourceField);
            || (Before(nine, ten, pushed) && !Before(x, y, sorts))
            || (Before(ten, nine, pushed) && !Before(y, x, sorts))
  {
    hide Stamp, KeyLess;
    var nine: Row, ten: Row := map[u.pk := Int(9)], map[u.pk := Int(10)];
    var x, y := Stamp(u, nine, "a"), Stamp(u, ten, "a");
    var spec, pushed := sorts[0], PushedSort(sorts, u.sourceField);
    StampChanges(u, nine, "a", spec.field);
    StampChanges(u, ten, "a", spec.field);
    SmallNumbers();
    if spec.field == u.pk {
      PrefixedTexts(u, 9);
      PrefixedTexts(u, 10);
      TenBeforeNineAsText();
      assert pushed[0] == spec;
    } else {
      KeySortTurns(u, sorts[1..], i - 1);
      SameValueTies(GetOrNull(nine, spec.field));
      SameValueTies(GetOrNull(x, spec.field));
      assert spec.field != u.sourceField ==> pushed[1..] == PushedSort(sorts[1..], u.sourceField);
    }
  }

  lemma SmallNumbers()
    ensures KeyLess(Int(9), Int(10)) && !KeyLess(Int(10), Int(9))
  {
  }

  lemma SameValueTies(v: Value)
    ensures !KeyLess(v, v)
  {
    KeyLessAsymmetric(v, v);
  }

  /** The sources' order is the stamped rows' order, whatever the rows, if and only if a
      prefixed key is not sorted by. */
  lemma OrderSurvivesIff(u: Union, sorts: seq<Sort>)
    requires u.prefixed ==> u.pk != u.sourceField
    ensures OrderSurvives(u, sorts) <==> SortsKeyApart(u, sorts)
  {
    if SortsKeyApart(u, sorts) {
      forall a, b, tag
        ensures Before(Stamp(u, a, tag), Stamp(u, b, tag), sorts) == Before(a, b, PushedSort(sorts, u.sourceField))
      {
        LeUnderStamp(u, a, b, tag, sorts);
      }
    } else {
      var i :| 0 <= i < |sorts| && sorts[i].field == u.pk;
      KeySortTurns(u, sorts, i);
    }
  }

  // ----- rows that nobody reports -----

  /** A source that does every stage itself and counts nothing. */
  function Uncounted(rows: seq<Row>): Shim {
    Shim(Inner(rows, Capabilities(true, true, false, true, false, false, {}, []), None, true, Always), [], 5000, 50000)
  }

  const PLAIN := Union([Source("a", Uncounted([NINE, TEN])), Source("b", Uncounted([]))], "id", "source", false, 5000)

  lemma UncountedAnswers(rows: seq<Row>)
    ensures ShimAnswer(Uncounted(rows), FIRST_PAGE).Ok? && ShimAnswer(Uncounted(rows), FIRST_PAGE).value.total.None?
  {
    hide RunQuery;
    assert FIRST_PAGE.Effective() == None;
  }

  lemma PlainShares()
    ensures Shares(PLAIN, PLAIN.sources, FIRST_PAGE) == [2, 0]
  {
    assert FIRST_PAGE.Effective() == None;
    forall s | s in PLAIN.sources
      ensures Keep(StampAll(PLAIN, ApplySearch(s.Rows(), "", s.Fields()), s.tag), FilterTest(None)) == StampAll(PLAIN, s.Rows(), s.tag)
    {
      EmptySearchKeepsAll(s.Rows(), s.Fields());
      NoFilterKeepsAll(StampAll(PLAIN, s.Rows(), s.tag));
    }
    assert PLAIN.sources[0] in PLAIN.sources && PLAIN.sources[1] in PLAIN.sources;
    assert PLAIN.sources[1..] == [PLAIN.sources[1]] && [PLAIN.sources[1]][1..] == [];
    hide Keep, StampAll, ApplySearch;
    assert Shares(PLAIN, [PLAIN.sources[1]], FIRST_PAGE) == [0];
  }

  /** One source alone has more than the window: the rows after it go unreported. */
  lemma RowsGoUnreported(u: Union, q: ListQuery, split: Split, pages: seq<Page>)
    requires SplitFilter(u, q.Effective()) == Ok(split) && FilterClear(u, q.Effective()) && SortsKeyApart(u, q.sort)
    requires AllExact(Route(u.sources, split), pages, SourceQuery(u, q, split)) && TotalOf(pages).None?
    requires OneSourceHasItAll(Shares(u, u.sources, q), q.Offset() + q.pageSize)
    ensures !MergePages(u, Route(u.sources, split), pages, q).hasMore && |Whole(u, q)| > q.Offset() + q.pageSize
  {
    hide SplitFilter, FilterClear, SortsKeyApart, AllExact, SourceQuery, TotalOf, OneSourceHasItAll, Shares, MergePages,
         Route, Whole, ListQuery.Effective, ListQuery.Offset;
    MergedPagesExact(u, q, split, pages);
  }

  /** The same, end to end. */
  lemma UnionHidesRows(u: Union, q: ListQuery, split: Split, pages: seq<Page>)
    requires SplitFilter(u, q.Effective()) == Ok(split) && FilterClear(u, q.Effective()) && SortsKeyApart(u, q.sort)
    requires Route(u.sources, split) == u.sources != [] && q.Offset() + q.pageSize <= u.maxRows
    requires Ask(u.sources, SourceQuery(u, q, split)) == Ok(pages)
    requires AllExact(u.sources, pages, SourceQuery(u, q, split)) && TotalOf(pages).None?
    requires OneSourceHasItAll(Shares(u, u.sources, q), q.Offset() + q.pageSize)
    ensures UnionAnswer(u, q).Ok? && !UnionAnswer(u, q).value.hasMore && |Whole(u, q)| > q.Offset() + q.pageSize
  {
    hide SplitFilter, FilterClear, SortsKeyApart, AllExact, SourceQuery, TotalOf, OneSourceHasItAll, Shares, MergePages,
         Route, Whole, Ask, ListQuery.Effective, ListQuery.Offset;
    RowsGoUnreported(u, q, split, pages);
  }

  /** Two rows, both in one source, and a page for one of them: it is served as the last. */
  lemma MoreRowsUnreported()
    ensures UnionAnswer(PLAIN, FIRST_PAGE).Ok? && !UnionAnswer(PLAIN, FIRST_PAGE).value.hasMore
    ensures |Whole(PLAIN, FIRST_PAGE)| > FIRST_PAGE.Offset() + FIRST_PAGE.pageSize
  {
    PlainRouting();
    PlainShares();
    TwoOfOne();
    var pages := PlainPages();
    hide ShimAnswer, Shares, SplitFilter, Route, FilterClear, MergePages, Whole, SourceQuery, AllExact, TotalOf,
         OneSourceHasItAll, Ask, UnionAnswer, SortRows, Window;
    UnionHidesRows(PLAIN, FIRST_PAGE, EVERYTHING, pages);
  }

  lemma TwoOfOne()
    ensures OneSourceHasItAll([2, 0], 1)
  {
    assert [2, 0][0] > 1;
  }

  lemma PlainRouting()
    ensures SplitFilter(PLAIN, FIRST_PAGE.Effective()) == Ok(EVERYTHING)
    ensures Route(PLAIN.sources, EVERYTHING) == PLAIN.sources
    ensures SourceQuery(PLAIN, FIRST_PAGE, EVERYTHING) == FIRST_PAGE
    ensures FIRST_PAGE.Offset() == 0 && FilterClear(PLAIN, FIRST_PAGE.Effective()) && SortsKeyApart(PLAIN, FIRST_PAGE.sort)
  {
    assert PLAIN.sources[1..] == [PLAIN.sources[1]] && [PLAIN.sources[1]][1..] == [];
    assert Route([PLAIN.sources[1]], EVERYTHING) == [PLAIN.sources[1]];
    assert BY_KEY[1..] == [] && PushedSort(BY_KEY, "source") == BY_KEY;
  }

  lemma PlainPages() returns (pages: seq<Page>)
    ensures Ask(PLAIN.sources, FIRST_PAGE) == Ok(pages) && TotalOf(pages).None?
    ensures AllExact(PLAIN.sources, pages, FIRST_PAGE)
  {
    UncountedAnswers([NINE, TEN]);
    UncountedAnswers([]);
    hide ShimAnswer, CapHarmless;
    var a, b := PLAIN.sources[0], PLAIN.sources[1];
    assert PLAIN.sources[1..] == [b] && [b][1..] == [] && Ask([], FIRST_PAGE) == Ok([]);
    assert Ask([b], FIRST_PAGE).Ok?;
    pages := Ask(PLAIN.sources, FIRST_PAGE).value;
    assert pages[0] == ShimAnswer(a.shim, FIRST_PAGE).value;
    NoLimitsHarmless(PLAIN.sources, FIRST_PAGE);
    AskedPagesExact(PLAIN.sources, FIRST_PAGE);
  }

  lemma NoLimitsHarmless(sources: seq<Source>, q: ListQuery)
    requires forall i :: 0 <= i < |sources| ==> sources[i].shim.inner.cap.None?
    ensures SourcesHarmless(sources, q)
  {
  }

  /** Over sources with safe limits the union's promise needs nothing of their rows. */
  lemma SafeSourcesExact(u: Union, q: ListQuery)
    requires FilterClear(u, q.Effective()) && SortsKeyApart(u, q.sort)
    requires forall i :: 0 <= i < |u.sources| ==> SafeLimit(u.sources[i].shim)
    ensures UnionAnswer(u, q).Ok? ==> UnionExact(UnionAnswer(u, q).value, u, q)
  {
    hide SafeLimit, CapHarmless, UnionAnswer, UnionExact, SplitFilter;
    if SplitFilter(u, q.Effective()).Ok? {
      var split := SplitFilter(u, q.Effective()).value;
      RoutedSafe(u.sources, split, SourceQuery(u, q, split));
    }
    UnionExactOrRefused(u, q);
  }

  lemma {:induction false} RoutedSafe(sources: seq<Source>, split: Split, q: ListQuery)
    requires forall i :: 0 <= i < |sources| ==> SafeLimit(sources[i].shim)
    ensures SourcesHarmless(Route(sources, split), q)
  {
    hide SafeLimit, CapHarmless;
    if sources == [] {
    } else {
      RoutedSafe(sources[1..], split, q);
      var s := sources[0].shim;
      SafeLimitHarmless(s, s.inner.rows, q);
      assert With(s, s.inner.rows) == s;
    }
  }
}
