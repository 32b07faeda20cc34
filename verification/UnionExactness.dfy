/** What the union promises: exactly the page the sources would give as one collection. */
module UnionExactness {
  import opened Values
  import opened Query
  import opened Sorting
  import opened LocalEngine
  import opened CapabilityShim
  import opened ShimExactness
  import opened UnionProvider

  // ----- splitting a filter -----

  /** Where a filter may put a condition on the source column: only among the top-level
      conjuncts, and only with an operator that names sources. */
  predicate Placed(f: Filter, sourceField: string) {
    match f
    case Cond(c) => c.field == sourceField ==> c.op in {EQ, NE, IN, NOT_IN}
    case Not(_) => !Mentions(f, sourceField)
    case Or(_) => !Mentions(f, sourceField)
    case And(cs) => forall i :: 0 <= i < |cs| ==> Placed(cs[i], sourceField)
  }

  /** The split refuses exactly the filters it could only have answered approximately. */
  lemma {:induction false} SplitRefusesExactly(u: Union, f: Filter)
    ensures SplitOf(u, f).Ok? <==> Placed(f, u.sourceField)
    ensures SplitOf(u, f).Refused? ==> SplitOf(u, f).error == UnsupportedOperation
    ensures SplitOf(u, f).Ok? ==> |SplitOf(u, f).value.kept| <= 1
    decreases f, 1
  {
    match f
    case Cond(_) =>
    case Not(_) =>
    case Or(_) =>
    case And(cs) => SplitEachRefusesExactly(u, cs);
  }

  lemma {:induction false} SplitEachRefusesExactly(u: Union, cs: seq<Filter>)
    ensures SplitEach(u, cs).Ok? <==> forall i :: 0 <= i < |cs| ==> Placed(cs[i], u.sourceField)
    ensures SplitEach(u, cs).Refused? ==> SplitEach(u, cs).error == UnsupportedOperation
    decreases cs, 0
  {
    if cs == [] {
    } else {
      var n := |cs| - 1;
      SplitEachRefusesExactly(u, cs[..n]);
      SplitRefusesExactly(u, cs[n]);
      assert forall i :: 0 <= i < n ==> cs[..n][i] == cs[i];
    }
  }

  /** A boolean is not text: the engine never equates it with a label, while the router
      prints it first. That matters only when some label reads like the boolean. */
  predicate Unambiguous(u: Union, v: Value) {
    v.Bool? ==> Text(v) !in u.Labels()
  }

  predicate SourceValuesUnambiguous(u: Union, f: Filter) {
    match f
    case Cond(c) => c.field == u.sourceField ==>
                      Unambiguous(u, c.value) && forall i :: 0 <= i < |c.values| ==> Unambiguous(u, c.values[i])
    case Not(g) => SourceValuesUnambiguous(u, g)
    case Or(cs) => forall i :: 0 <= i < |cs| ==> SourceValuesUnambiguous(u, cs[i])
    case And(cs) => forall i :: 0 <= i < |cs| ==> SourceValuesUnambiguous(u, cs[i])
  }

  /** Whether a filter may be asked of a raw row in place of the stamped one: under prefixed
      keys it must leave the key alone. */
  predicate KeyApart(u: Union, f: Filter) {
    u.prefixed ==> u.pk != u.sourceField && !Mentions(f, u.pk)
  }

  /** A filter only looks at the fields it mentions. */
  lemma {:induction false} MatchLooksAtMentioned(a: Row, b: Row, f: Filter)
    requires forall field :: Mentions(f, field) ==> Get(a, field) == Get(b, field)
    ensures Match(a, f) == Match(b, f)
  {
    match f
    case Cond(c) => assert Mentions(f, c.field);
    case Not(g) =>
      forall field | Mentions(g, field) ensures Get(a, field) == Get(b, field) { assert Mentions(f, field); }
      MatchLooksAtMentioned(a, b, g);
    case And(cs) =>
      forall i | 0 <= i < |cs| ensures Match(a, cs[i]) == Match(b, cs[i]) {
        forall field | Mentions(cs[i], field) ensures Get(a, field) == Get(b, field) { assert Mentions(f, field); }
        MatchLooksAtMentioned(a, b, cs[i]);
      }
    case Or(cs) =>
      forall i | 0 <= i < |cs| ensures Match(a, cs[i]) == Match(b, cs[i]) {
        forall field | Mentions(cs[i], field) ensures Get(a, field) == Get(b, field) { assert Mentions(f, field); }
        MatchLooksAtMentioned(a, b, cs[i]);
      }
  }

  lemma StampChanges(u: Union, row: Row, tag: string, field: string)
    requires u.prefixed ==> u.pk != u.sourceField
    ensures Get(Stamp(u, row, tag), u.sourceField) == Some(Str(tag))
    ensures field != u.sourceField && (u.prefixed ==> field != u.pk)
            ==> Get(Stamp(u, row, tag), field) == Get(row, field)
  {
  }

  lemma MatchUnderStamp(u: Union, row: Row, tag: string, f: Filter)
    requires !Mentions(f, u.sourceField) && KeyApart(u, f)
    ensures Match(Stamp(u, row, tag), f) == Match(row, f)
  {
    forall field | Mentions(f, field) ensures Get(Stamp(u, row, tag), field) == Get(row, field) {
      StampChanges(u, row, tag, field);
    }
    MatchLooksAtMentioned(Stamp(u, row, tag), row, f);
  }

  /** Comparing a label with a value is comparing it with the value's text, booleans aside. */
  lemma LabelEquals(u: Union, tag: string, v: Value)
    requires tag in u.Labels() && Unambiguous(u, v)
    ensures Equals(Str(tag), v) <==> tag == Text(v)
  {
    StrLessTrichotomy(tag, Text(v));
  }

  lemma LabelsAnswerCondition(u: Union, c: Condition, row: Row, tag: string)
    requires c.field == u.sourceField && LabelsFor(u, c).Ok? && tag in u.Labels()
    requires SourceValuesUnambiguous(u, Cond(c)) && (u.prefixed ==> u.pk != u.sourceField)
    ensures Match(Stamp(u, row, tag), Cond(c)) <==> tag in LabelsFor(u, c).value
  {
    StampChanges(u, row, tag, u.sourceField);
    LabelEquals(u, tag, c.value);
    forall i | 0 <= i < |c.values| ensures Equals(Str(tag), c.values[i]) <==> tag == Text(c.values[i]) {
      LabelEquals(u, tag, c.values[i]);
    }
  }

  /** The router's reading of `source = v`: the sources it visits are those whose stamped rows
      match. */
  ghost predicate RoutedAsMatched(u: Union, v: Value) {
    var c := Condition(u.sourceField, EQ, v, []);
    forall row, tag :: tag in u.Labels() ==>
      (Match(Stamp(u, row, tag), Cond(c)) <==> tag in LabelsFor(u, c).value)
  }

  /** It is right for every source and row exactly when the value is unambiguous. */
  lemma RoutedAsMatchedIff(u: Union, v: Value)
    requires u.prefixed ==> u.pk != u.sourceField
    ensures RoutedAsMatched(u, v) <==> Unambiguous(u, v)
  {
    var c := Condition(u.sourceField, EQ, v, []);
    if Unambiguous(u, v) {
      forall row, tag | tag in u.Labels()
        ensures Match(Stamp(u, row, tag), Cond(c)) <==> tag in LabelsFor(u, c).value
      {
        LabelsAnswerCondition(u, c, row, tag);
      }
    } else {
      StampChanges(u, map[], Text(v), u.sourceField);
      assert !Match(Stamp(u, map[], Text(v)), Cond(c));
    }
  }

  ghost predicate MatchesEvery(row: Row, fs: seq<Filter>) {
    forall i :: 0 <= i < |fs| ==> Match(row, fs[i])
  }

  /** The split loses nothing and invents nothing: a stamped row passes the whole filter
      exactly when its source is allowed and the raw row passes what is left; and what is
      left never mentions the source column. */
  lemma {:induction false} SplitIsFaithful(u: Union, f: Filter, row: Row, tag: string)
    requires SplitOf(u, f).Ok? && tag in u.Labels()
    requires SourceValuesUnambiguous(u, f) && KeyApart(u, f)
    ensures Match(Stamp(u, row, tag), f) <==>
              Allowed(SplitOf(u, f).value, tag) && MatchesEvery(row, SplitOf(u, f).value.kept)
    ensures forall i :: 0 <= i < |SplitOf(u, f).value.kept| ==> !Mentions(SplitOf(u, f).value.kept[i], u.sourceField)
    decreases f, 1
  {
    match f
    case Cond(c) =>
      if c.field == u.sourceField {
        LabelsAnswerCondition(u, c, row, tag);
      } else {
        MatchUnderStamp(u, row, tag, f);
        EveryOne(row, f);
      }
    case Not(_) => MatchUnderStamp(u, row, tag, f); EveryOne(row, f);
    case Or(_) => MatchUnderStamp(u, row, tag, f); EveryOne(row, f);
    case And(cs) =>
      SplitEachIsFaithful(u, cs, row, tag);
      var kept := SplitEach(u, cs).value.kept;
      AndOfMeansEvery(row, kept);
  }

  lemma EveryOne(row: Row, f: Filter)
    ensures MatchesEvery(row, [f]) <==> Match(row, f)
  {
    assert [f][0] == f;
  }

  lemma AndOfMeansEvery(row: Row, kept: seq<Filter>)
    ensures MatchesEvery(row, Present(AndOf(kept))) <==> MatchesEvery(row, kept)
  {
    if |kept| > 1 {
      assert Present(AndOf(kept)) == [And(kept)];
      EveryOne(row, And(kept));
      assert Match(row, And(kept)) <==> MatchesEvery(row, kept);
    } else if |kept| == 1 {
      assert Present(AndOf(kept)) == kept;
    }
  }

  lemma {:induction false} SplitEachIsFaithful(u: Union, cs: seq<Filter>, row: Row, tag: string)
    requires SplitEach(u, cs).Ok? && tag in u.Labels()
    requires forall i :: 0 <= i < |cs| ==> SourceValuesUnambiguous(u, cs[i]) && KeyApart(u, cs[i])
    ensures MatchesEvery(Stamp(u, row, tag), cs) <==>
              Allowed(SplitEach(u, cs).value, tag) && MatchesEvery(row, SplitEach(u, cs).value.kept)
    ensures forall i :: 0 <= i < |SplitEach(u, cs).value.kept| ==> !Mentions(SplitEach(u, cs).value.kept[i], u.sourceField)
    decreases cs, 0
  {
    hide Match, Stamp, Mentions, SourceValuesUnambiguous, KeyApart, SplitOf;
    if cs == [] {
    } else {
      var n := |cs| - 1;
      var before, last := SplitEach(u, cs[..n]).value, SplitOf(u, cs[n]).value;
      SplitEachIsFaithful(u, cs[..n], row, tag);
      SplitIsFaithful(u, cs[n], row, tag);
      EveryConcat(row, before.kept, last.kept);
      assert cs == cs[..n] + [cs[n]];
      EveryConcat(Stamp(u, row, tag), cs[..n], [cs[n]]);
    }
  }

  lemma EveryConcat(row: Row, a: seq<Filter>, b: seq<Filter>)
    ensures MatchesEvery(row, a + b) <==> MatchesEvery(row, a) && MatchesEvery(row, b)
    ensures |b| == 1 ==> (MatchesEvery(row, b) <==> Match(row, b[0]))
  {
    if MatchesEvery(row, a + b) {
      forall i | 0 <= i < |a| ensures Match(row, a[i]) { assert (a + b)[i] == a[i]; }
      forall i | 0 <= i < |b| ensures Match(row, b[i]) { assert (a + b)[|a| + i] == b[i]; }
    }
  }

  // ----- the rows a union query selects -----

  /** The reference: every row of every source, searched in its own source's columns, stamped,
      and put to the whole filter. */
  function Selected(u: Union, sources: seq<Source>, q: ListQuery): seq<Row> {
    if sources == [] then []
    else Keep(StampAll(u, ApplySearch(sources[0].Rows(), q.search, sources[0].Fields()), sources[0].tag),
              FilterTest(q.Effective()))
         + Selected(u, sources[1..], q)
  }

  function Whole(u: Union, q: ListQuery): seq<Row> {
    SortRows(Selected(u, u.sources, q), q.sort)
  }

  lemma {:induction false} KeepStamped(u: Union, rows: seq<Row>, tag: string, p: Row -> bool, raw: Row -> bool)
    requires forall r :: p(Stamp(u, r, tag)) == raw(r)
    ensures Keep(StampAll(u, rows, tag), p) == StampAll(u, Keep(rows, raw), tag)
  {
    if rows == [] {
    } else {
      KeepStamped(u, rows[1..], tag, p, raw);
      KeepCons(Stamp(u, rows[0], tag), StampAll(u, rows[1..], tag), p);
    }
  }

  /** The conditions under which stamping does not get in the filter's way. */
  predicate FilterClear(u: Union, f: Option<Filter>) {
    && (u.prefixed ==> u.pk != u.sourceField)
    && (f.Some? ==> SourceValuesUnambiguous(u, f.value) && KeyApart(u, f.value))
  }

  lemma SplitFilterIsFaithful(u: Union, f: Option<Filter>, row: Row, tag: string)
    requires SplitFilter(u, f).Ok? && tag in u.Labels() && FilterClear(u, f)
    ensures MatchAll(Stamp(u, row, tag), f) <==>
              Allowed(SplitFilter(u, f).value, tag) && MatchAll(row, Remaining(SplitFilter(u, f).value))
  {
    if f.Some? {
      SplitIsFaithful(u, f.value, row, tag);
      SplitRefusesExactly(u, f.value);
      var kept := SplitFilter(u, f).value.kept;
      if kept != [] {
        assert kept == [kept[0]];
        EveryOne(row, kept[0]);
      }
    }
  }

  /** One source's share of the selection is what the source is asked for, stamped; a source
      that is not allowed has no share. */
  lemma SourceShare(u: Union, s: Source, q: ListQuery, split: Split)
    requires SplitFilter(u, q.Effective()) == Ok(split) && s.tag in u.Labels() && FilterClear(u, q.Effective())
    ensures var share := Keep(StampAll(u, ApplySearch(s.Rows(), q.search, s.Fields()), s.tag), FilterTest(q.Effective()));
            share == if Allowed(split, s.tag)
                     then StampAll(u, Matching(s.Rows(), SourceQuery(u, q, split), s.Fields()), s.tag) else []
  {
    var found := ApplySearch(s.Rows(), q.search, s.Fields());
    var inner := SourceQuery(u, q, split);
    var p := FilterTest(q.Effective());
    forall r ensures MatchAll(Stamp(u, r, s.tag), q.Effective())
                     <==> Allowed(split, s.tag) && MatchAll(r, Remaining(split)) {
      SplitFilterIsFaithful(u, q.Effective(), r, s.tag);
    }
    assert inner.Effective() == Remaining(split);
    if Allowed(split, s.tag) {
      KeepStamped(u, found, s.tag, p, FilterTest(Remaining(split)));
      KeepCommutes(s.Rows(), FilterTest(Remaining(split)), SearchTest(q.search, s.Fields()));
    } else {
      forall i | 0 <= i < |found| ensures !p(StampAll(u, found, s.tag)[i]) {
        StampAllAt(u, found, s.tag, i);
      }
      KeepNone(StampAll(u, found, s.tag), p);
    }
  }

  lemma {:induction false} StampAllAt(u: Union, rows: seq<Row>, tag: string, i: nat)
    requires i < |rows|
    ensures StampAll(u, rows, tag)[i] == Stamp(u, rows[i], tag)
  {
    if i > 0 { StampAllAt(u, rows[1..], tag, i - 1); }
  }

  // ----- sorting stamped rows -----

  ghost predicate SortsKeyApart(u: Union, sorts: seq<Sort>) {
    u.prefixed ==> u.pk != u.sourceField && forall i :: 0 <= i < |sorts| ==> sorts[i].field != u.pk
  }

  /** Within one source the source column is constant, so the remaining keys order alike. */
  lemma {:induction false} LeUnderStamp(u: Union, a: Row, b: Row, tag: string, sorts: seq<Sort>)
    requires SortsKeyApart(u, sorts) && (u.prefixed ==> u.pk != u.sourceField)
    ensures Before(Stamp(u, a, tag), Stamp(u, b, tag), sorts) == Before(a, b, PushedSort(sorts, u.sourceField))
  {
    if sorts == [] {
    } else {
      assert SortsKeyApart(u, sorts[1..]);
      LeUnderStamp(u, a, b, tag, sorts[1..]);
      StampChanges(u, a, tag, sorts[0].field);
      StampChanges(u, b, tag, sorts[0].field);
      KeyLessAsymmetric(Str(tag), Str(tag));
      if sorts[0].field != u.sourceField {
        assert PushedSort(sorts, u.sourceField)[1..] == PushedSort(sorts[1..], u.sourceField);
      }
    }
  }

  lemma {:induction false} MergeUnderStamp(u: Union, x: seq<Row>, y: seq<Row>, tag: string, sorts: seq<Sort>)
    requires SortsKeyApart(u, sorts) && (u.prefixed ==> u.pk != u.sourceField)
    ensures Merge(StampAll(u, x, tag), StampAll(u, y, tag), sorts)
         == StampAll(u, Merge(x, y, PushedSort(sorts, u.sourceField)), tag)
    decreases |x| + |y|
  {
    if x != [] && y != [] {
      LeUnderStamp(u, y[0], x[0], tag, sorts);
      if Le(x[0], y[0], PushedSort(sorts, u.sourceField)) {
        MergeUnderStamp(u, x[1..], y, tag, sorts);
      } else {
        MergeUnderStamp(u, x, y[1..], tag, sorts);
      }
    }
  }

  lemma {:induction false} SortUnderStamp(u: Union, rows: seq<Row>, tag: string, sorts: seq<Sort>)
    requires SortsKeyApart(u, sorts) && (u.prefixed ==> u.pk != u.sourceField)
    ensures SortRows(StampAll(u, rows, tag), sorts) == StampAll(u, SortRows(rows, PushedSort(sorts, u.sourceField)), tag)
  {
    if rows == [] {
    } else {
      SortUnderStamp(u, rows[1..], tag, sorts);
      MergeUnderStamp(u, [rows[0]], SortRows(rows[1..], PushedSort(sorts, u.sourceField)), tag, sorts);
      assert StampAll(u, [rows[0]], tag) == [Stamp(u, rows[0], tag)];
    }
  }

  lemma {:induction false} TakeUnderStamp(u: Union, rows: seq<Row>, tag: string, n: nat)
    ensures StampAll(u, Take(rows, n), tag) == Take(StampAll(u, rows, tag), n)
  {
    if rows != [] && n > 0 {
      TakeUnderStamp(u, rows[1..], tag, n - 1);
      TakeCons(rows[0], rows[1..], n);
      assert rows == [rows[0]] + rows[1..];
      TakeCons(Stamp(u, rows[0], tag), StampAll(u, rows[1..], tag), n);
    }
  }

  // ----- exact pagination -----

  ghost predicate AllExact(sources: seq<Source>, pages: seq<Page>, q: ListQuery) {
    |sources| == |pages| && forall i :: 0 <= i < |sources| ==> Exact(pages[i], sources[i].Rows(), q, sources[i].Fields())
  }

  lemma AllExactTail(sources: seq<Source>, pages: seq<Page>, q: ListQuery)
    requires AllExact(sources, pages, q) && sources != []
    ensures Exact(pages[0], sources[0].Rows(), q, sources[0].Fields())
    ensures AllExact(sources[1..], pages[1..], q)
  {
    hide Exact;
    forall i | 0 <= i < |sources[1..]|
      ensures Exact(pages[1..][i], sources[1..][i].Rows(), q, sources[1..][i].Fields())
    {
      assert Exact(pages[i + 1], sources[i + 1].Rows(), q, sources[i + 1].Fields());
    }
  }

  /** The first n rows each source would give, merged, start with the same n rows as
      everything the sources hold, merged. */
  lemma {:induction false} GatheredPrefix(u: Union, sources: seq<Source>, pages: seq<Page>, q: ListQuery, split: Split, n: nat)
    requires SplitFilter(u, q.Effective()) == Ok(split) && FilterClear(u, q.Effective())
    requires SortsKeyApart(u, q.sort) && n == q.Offset() + q.pageSize
    requires forall i :: 0 <= i < |sources| ==> sources[i].tag in u.Labels()
    requires AllExact(Route(sources, split), pages, SourceQuery(u, q, split))
    ensures Take(SortRows(Gather(u, Route(sources, split), pages), q.sort), n)
         == Take(SortRows(Selected(u, sources, q), q.sort), n)
  {
    if sources == [] {
    } else {
      var s := sources[0];
      assert forall i :: 0 <= i < |sources[1..]| ==> sources[1..][i] == sources[i + 1];
      var share := Keep(StampAll(u, ApplySearch(s.Rows(), q.search, s.Fields()), s.tag), FilterTest(q.Effective()));
      SourceShare(u, s, q, split);
      if Allowed(split, s.tag) {
        var rest := pages[1..];
        assert Route(sources, split)[1..] == Route(sources[1..], split);
        AllExactTail(Route(sources, split), pages, SourceQuery(u, q, split));
        GatheredPrefix(u, sources[1..], rest, q, split, n);
        ShareTop(u, s, pages[0], q, split, n);
        PrefixStep(StampAll(u, pages[0].items, s.tag), share, Gather(u, Route(sources[1..], split), rest),
                   Selected(u, sources[1..], q), q.sort, n);
      } else {
        GatheredPrefix(u, sources[1..], pages, q, split, n);
        ConcatEmpty(Selected(u, sources[1..], q));
      }
    }
  }

  /** One source's page is the top of its share. */
  lemma ShareTop(u: Union, s: Source, page: Page, q: ListQuery, split: Split, n: nat)
    requires SplitFilter(u, q.Effective()) == Ok(split) && SortsKeyApart(u, q.sort)
    requires n == q.Offset() + q.pageSize && (u.prefixed ==> u.pk != u.sourceField)
    requires Exact(page, s.Rows(), SourceQuery(u, q, split), s.Fields())
    ensures var share := StampAll(u, Matching(s.Rows(), SourceQuery(u, q, split), s.Fields()), s.tag);
            StampAll(u, page.items, s.tag) == Take(SortRows(share, q.sort), n)
  {
    var inner := SourceQuery(u, q, split);
    var mine := Matching(s.Rows(), inner, s.Fields());
    assert inner.Offset() == 0;
    assert page.items == Take(SortRows(mine, inner.sort), n);
    SortUnderStamp(u, mine, s.tag, q.sort);
    TakeUnderStamp(u, SortRows(mine, inner.sort), s.tag, n);
  }

  lemma TakeTwice(s: seq<Row>, n: nat)
    ensures Take(Take(s, n), n) == Take(s, n)
  {
  }

  lemma {:induction false} TakeOrdered(t: seq<Row>, sorts: seq<Sort>, n: nat)
    requires Ordered(t, sorts)
    ensures Ordered(Take(t, n), sorts)
  {
    if |t| >= 2 && n >= 2 {
      TakeOrdered(t[1..], sorts, n - 1);
      assert Take(t, n)[1..] == Take(t[1..], n - 1);
      assert Take(t, n)[0] == t[0] && Take(t, n)[1] == t[1];
    }
  }

  lemma PrefixStep(top: seq<Row>, share: seq<Row>, a: seq<Row>, b: seq<Row>, sorts: seq<Sort>, n: nat)
    requires top == Take(SortRows(share, sorts), n)
    requires Take(SortRows(a, sorts), n) == Take(SortRows(b, sorts), n)
    ensures Take(SortRows(top + a, sorts), n) == Take(SortRows(share + b, sorts), n)
  {
    SortIsStable(share, sorts);
    TakeOrdered(SortRows(share, sorts), sorts, n);
    SortOrderedIsIdentity(top, sorts);
    TakeTwice(SortRows(share, sorts), n);
    SortConcat(top, a, sorts);
    SortConcat(share, b, sorts);
    MergePrefix(SortRows(top, sorts), SortRows(a, sorts), SortRows(share, sorts), SortRows(b, sorts), sorts, n);
  }

  /** How many rows each source has to contribute. */
  function Shares(u: Union, sources: seq<Source>, q: ListQuery): seq<nat> {
    if sources == [] then []
    else [|Keep(StampAll(u, ApplySearch(sources[0].Rows(), q.search, sources[0].Fields()), sources[0].tag),
                FilterTest(q.Effective()))|]
         + Shares(u, sources[1..], q)
  }

  function Sum(counts: seq<nat>): nat {
    if counts == [] then 0 else counts[0] + Sum(counts[1..])
  }

  /** The sum with every share cut to n. */
  function SumCut(counts: seq<nat>, n: nat): nat {
    if counts == [] then 0 else Min(counts[0], n) + SumCut(counts[1..], n)
  }

  lemma {:induction false} SelectedCount(u: Union, sources: seq<Source>, q: ListQuery)
    ensures |Selected(u, sources, q)| == Sum(Shares(u, sources, q))
  {
    if sources == [] {
    } else {
      SelectedCount(u, sources[1..], q);
    }
  }

  /** One source's page holds its share cut to n, and its total, if given, is its share. */
  lemma ShareCount(u: Union, s: Source, page: Page, q: ListQuery, split: Split)
    requires SplitFilter(u, q.Effective()) == Ok(split) && FilterClear(u, q.Effective())
    requires s.tag in u.Labels() && Allowed(split, s.tag)
    requires Exact(page, s.Rows(), SourceQuery(u, q, split), s.Fields())
    ensures |page.items| == Min(Shares(u, [s], q)[0], q.Offset() + q.pageSize)
    ensures page.total.Some? ==> page.total.value == Shares(u, [s], q)[0]
  {
    hide FilterClear, SplitFilter, Matching;
    SourceShare(u, s, q, split);
    assert SourceQuery(u, q, split).Offset() == 0;
  }

  /** Counting what was gathered; with all totals known their sum is the whole count. */
  lemma {:induction false} GatheredCount(u: Union, sources: seq<Source>, pages: seq<Page>, q: ListQuery, split: Split)
    requires SplitFilter(u, q.Effective()) == Ok(split) && FilterClear(u, q.Effective())
    requires forall i :: 0 <= i < |sources| ==> sources[i].tag in u.Labels()
    requires AllExact(Route(sources, split), pages, SourceQuery(u, q, split))
    ensures |Gather(u, Route(sources, split), pages)| == SumCut(Shares(u, sources, q), q.Offset() + q.pageSize)
    ensures TotalOf(pages).Some? ==> TotalOf(pages).value == Sum(Shares(u, sources, q))
  {
    hide FilterClear, SplitFilter, AllExact, SourceQuery, ApplySearch, FilterTest, Keep, StampAll, Allowed,
         ListQuery.Effective, ListQuery.Offset;
    if sources != [] {
      var s := sources[0];
      assert forall i :: 0 <= i < |sources[1..]| ==> sources[1..][i] == sources[i + 1];
      assert Shares(u, sources, q)[1..] == Shares(u, sources[1..], q);
      if Allowed(split, s.tag) {
        assert Route(sources, split)[1..] == Route(sources[1..], split);
        PagesMatch(Route(sources, split), pages, SourceQuery(u, q, split));
        AllExactTail(Route(sources, split), pages, SourceQuery(u, q, split));
        GatheredCount(u, sources[1..], pages[1..], q, split);
        ShareCount(u, s, pages[0], q, split);
      } else {
        SourceShare(u, s, q, split);
        GatheredCount(u, sources[1..], pages, q, split);
      }
    } else {
      PagesMatch(Route(sources, split), pages, SourceQuery(u, q, split));
    }
  }

  lemma PagesMatch(sources: seq<Source>, pages: seq<Page>, q: ListQuery)
    requires AllExact(sources, pages, q)
    ensures |sources| == |pages|
  {
  }

  /** The page of a union is the window of everything; a total is the true count, with exact
      knowledge of what follows; and without one, "more" is never claimed falsely. */
  ghost predicate UnionExact(p: Page, u: Union, q: ListQuery) {
    var all := Whole(u, q);
    && p.items == Window(all, q.Offset(), q.pageSize)
    && p.page == q.page && p.pageSize == q.pageSize
    && (p.total.Some? ==> p.total.value == |all| && (p.hasMore <==> |all| > q.Offset() + q.pageSize))
    && (p.hasMore ==> |all| > q.Offset() + q.pageSize)
  }

  lemma WindowOfTop(a: seq<Row>, b: seq<Row>, offset: nat, size: nat)
    requires Take(a, offset + size) == Take(b, offset + size)
    ensures Window(a, offset, size) == Window(b, offset, size)
  {
    var n := offset + size;
    assert Window(a, offset, size) == Window(Take(a, n), offset, size);
    assert Window(b, offset, size) == Window(Take(b, n), offset, size);
  }

  /** Under this condition alone do truncated shares look like everything: one source holds
      every matching row, and more of them than the page reaches. */
  predicate OneSourceHasItAll(counts: seq<nat>, n: nat) {
    exists i :: 0 <= i < |counts| && counts[i] > n && forall j :: 0 <= j < |counts| && j != i ==> counts[j] == 0
  }

  lemma {:induction false} SumCutFacts(counts: seq<nat>, n: nat)
    ensures SumCut(counts, n) <= Sum(counts)
    ensures SumCut(counts, n) < Sum(counts) ==> SumCut(counts, n) >= n
    ensures SumCut(counts, n) == 0 && n > 0 ==> forall j :: 0 <= j < |counts| ==> counts[j] == 0
    ensures (forall j :: 0 <= j < |counts| ==> counts[j] == 0) ==> Sum(counts) == 0
  {
    if counts == [] {
    } else {
      SumCutFacts(counts[1..], n);
      assert counts == [counts[0]] + counts[1..];
      assert forall j :: 0 <= j < |counts[1..]| ==> counts[1..][j] == counts[j + 1];
    }
  }

  /** Whether one source has it all, told from the first source and the others. */
  lemma HasItAllStep(counts: seq<nat>, n: nat)
    requires counts != []
    ensures OneSourceHasItAll(counts, n) <==>
      || (counts[0] > n && forall j :: 0 <= j < |counts[1..]| ==> counts[1..][j] == 0)
      || (counts[0] == 0 && OneSourceHasItAll(counts[1..], n))
  {
    var head, tail := counts[0], counts[1..];
    assert forall j :: 0 <= j < |tail| ==> tail[j] == counts[j + 1];
    assert forall j :: 0 < j < |counts| ==> counts[j] == tail[j - 1];
    if head == 0 && OneSourceHasItAll(tail, n) {
      var i :| 0 <= i < |tail| && tail[i] > n && forall j :: 0 <= j < |tail| && j != i ==> tail[j] == 0;
      assert counts[i + 1] > n;
    }
    if OneSourceHasItAll(counts, n) {
      var i :| 0 <= i < |counts| && counts[i] > n && forall j :: 0 <= j < |counts| && j != i ==> counts[j] == 0;
      if i > 0 { assert tail[i - 1] > n; }
    }
  }

  lemma {:induction false} CutLooksWhole(counts: seq<nat>, n: nat)
    requires n > 0
    ensures (SumCut(counts, n) <= n < Sum(counts)) <==> OneSourceHasItAll(counts, n)
  {
    if counts == [] {
    } else {
      CutLooksWhole(counts[1..], n);
      SumCutFacts(counts[1..], n);
      HasItAllStep(counts, n);
      hide OneSourceHasItAll;
    }
  }

  lemma LabelsOfAll(u: Union)
    ensures forall i :: 0 <= i < |u.sources| ==> u.sources[i].tag in u.Labels()
  {
  }

  /** Merging exact pages gives the exact page, whoever the sources are. */
  lemma MergedPagesExact(u: Union, q: ListQuery, split: Split, pages: seq<Page>)
    requires SplitFilter(u, q.Effective()) == Ok(split)
    requires FilterClear(u, q.Effective()) && SortsKeyApart(u, q.sort)
    requires AllExact(Route(u.sources, split), pages, SourceQuery(u, q, split))
    ensures UnionExact(MergePages(u, Route(u.sources, split), pages, q), u, q)
    ensures TotalOf(pages).None? ==>
      ((MergePages(u, Route(u.sources, split), pages, q).hasMore <==> |Whole(u, q)| > q.Offset() + q.pageSize)
       <==> !OneSourceHasItAll(Shares(u, u.sources, q), q.Offset() + q.pageSize))
  {
    hide FilterClear, SplitFilter, AllExact, SourceQuery, Gather, Selected, Shares, OneSourceHasItAll, SortRows,
         Route, SortsKeyApart, TotalOf, Sum, SumCut, Take, ListQuery.Effective;
    var n := q.Offset() + q.pageSize;
    LabelsOfAll(u);
    PagesMatch(Route(u.sources, split), pages, SourceQuery(u, q, split));
    GatheredPrefix(u, u.sources, pages, q, split, n);
    GatheredCount(u, u.sources, pages, q, split);
    SelectedCount(u, u.sources, q);
    SumCutFacts(Shares(u, u.sources, q), n);
    CutLooksWhole(Shares(u, u.sources, q), n);
    WindowOfTop(SortRows(Gather(u, Route(u.sources, split), pages), q.sort), Whole(u, q), q.Offset(), q.pageSize);
  }

  // ----- the union over shims -----

  /** The sources' own limits do not interfere. */
  predicate SourcesHarmless(sources: seq<Source>, q: ListQuery) {
    forall i :: 0 <= i < |sources| ==> CapHarmless(sources[i].shim, q)
  }

  lemma {:induction false} AskedPagesExact(sources: seq<Source>, q: ListQuery)
    requires SourcesHarmless(sources, q) && Ask(sources, q).Ok?
    ensures AllExact(sources, Ask(sources, q).value, q)
  {
    hide ShimAnswer, Exact, CapHarmless;
    if sources == [] {
    } else {
      var rest := Ask(sources[1..], q).value;
      assert forall i :: 0 <= i < |sources[1..]| ==> sources[1..][i] == sources[i + 1];
      AskedPagesExact(sources[1..], q);
      ShimExactOrRefused(sources[0].shim, q);
      assert Exact(Ask(sources, q).value[0], sources[0].Rows(), q, sources[0].Fields());
      forall i | 0 <= i < |sources|
        ensures Exact(Ask(sources, q).value[i], sources[i].Rows(), q, sources[i].Fields())
      {
        if i > 0 { assert Exact(rest[i - 1], sources[1..][i - 1].Rows(), q, sources[1..][i - 1].Fields()); }
      }
    }
  }

  /** A filter that allows no source selects nothing. */
  lemma {:induction false} NothingRouted(u: Union, sources: seq<Source>, q: ListQuery, split: Split)
    requires SplitFilter(u, q.Effective()) == Ok(split) && FilterClear(u, q.Effective())
    requires forall i :: 0 <= i < |sources| ==> sources[i].tag in u.Labels()
    requires Route(sources, split) == []
    ensures Selected(u, sources, q) == []
  {
    hide FilterClear, SplitFilter;
    if sources == [] {
    } else {
      assert forall i :: 0 <= i < |sources[1..]| ==> sources[1..][i] == sources[i + 1];
      SourceShare(u, sources[0], q, split);
      NothingRouted(u, sources[1..], q, split);
    }
  }

  /** The union answers with the exact page of everything its sources hold, or refuses. */
  lemma UnionExactOrRefused(u: Union, q: ListQuery)
    requires FilterClear(u, q.Effective()) && SortsKeyApart(u, q.sort)
    requires SplitFilter(u, q.Effective()).Ok? ==>
               var split := SplitFilter(u, q.Effective()).value;
               SourcesHarmless(Route(u.sources, split), SourceQuery(u, q, split))
    ensures UnionAnswer(u, q).Ok? ==> UnionExact(UnionAnswer(u, q).value, u, q)
  {
    hide FilterClear, SplitFilter, SourcesHarmless, SourceQuery, SortsKeyApart, MergePages, AllExact;
    if UnionAnswer(u, q).Ok? {
      var split := SplitFilter(u, q.Effective()).value;
      var sources := Route(u.sources, split);
      LabelsOfAll(u);
      if sources == [] {
        NothingRouted(u, u.sources, q, split);
        assert Whole(u, q) == [];
      } else {
        AskedPagesExact(sources, SourceQuery(u, q, split));
        MergedPagesExact(u, q, split, Ask(sources, SourceQuery(u, q, split)).value);
      }
    }
  }

  /** It refuses exactly when the filter cannot be split, the page is deeper than the budget,
      or a source it must visit refuses. */
  lemma UnionRefusesExactly(u: Union, q: ListQuery)
    ensures UnionAnswer(u, q).Refused? <==>
      || (q.Effective().Some? && !Placed(q.Effective().value, u.sourceField))
      || (SplitFilter(u, q.Effective()).Ok? && (
           var split := SplitFilter(u, q.Effective()).value;
           var sources := Route(u.sources, split);
           sources != [] && (q.Offset() + q.pageSize > u.maxRows
             || exists i :: 0 <= i < |sources| && ShimAnswer(sources[i].shim, SourceQuery(u, q, split)).Refused?)))
  {
    hide ShimAnswer, SourceQuery;
    if q.Effective().Some? { SplitRefusesExactly(u, q.Effective().value); }
    if SplitFilter(u, q.Effective()).Ok? {
      var split := SplitFilter(u, q.Effective()).value;
      AskRefuses(Route(u.sources, split), SourceQuery(u, q, split));
    }
  }

  lemma {:induction false} AskRefuses(sources: seq<Source>, q: ListQuery)
    ensures Ask(sources, q).Refused? <==> exists i :: 0 <= i < |sources| && ShimAnswer(sources[i].shim, q).Refused?
  {
    hide ShimAnswer;
    if sources == [] {
    } else {
      AskRefuses(sources[1..], q);
      assert forall i :: 0 <= i < |sources[1..]| ==> sources[1..][i] == sources[i + 1];
      if exists i :: 0 <= i < |sources| && ShimAnswer(sources[i].shim, q).Refused? {
        var i :| 0 <= i < |sources| && ShimAnswer(sources[i].shim, q).Refused?;
        if i > 0 { assert ShimAnswer(sources[1..][i - 1].shim, q).Refused?; }
      }
      if exists i :: 0 <= i < |sources[1..]| && ShimAnswer(sources[1..][i].shim, q).Refused? {
        var i :| 0 <= i < |sources[1..]| && ShimAnswer(sources[1..][i].shim, q).Refused?;
        assert ShimAnswer(sources[i + 1].shim, q).Refused?;
      }
    }
  }

  // ----- totals are not lost -----

  lemma {:induction false} AskedOneByOne(sources: seq<Source>, q: ListQuery, i: nat)
    requires Ask(sources, q).Ok? && i < |sources|
    ensures ShimAnswer(sources[i].shim, q) == Ok(Ask(sources, q).value[i])
  {
    hide ShimAnswer;
    if i > 0 { AskedOneByOne(sources[1..], q, i - 1); }
  }

  lemma {:induction false} TotalWhereAllCount(pages: seq<Page>)
    ensures TotalOf(pages).Some? <==> forall i :: 0 <= i < |pages| ==> pages[i].total.Some?
  {
    if pages == [] {
    } else {
      TotalWhereAllCount(pages[1..]);
      assert forall i :: 0 < i < |pages| ==> pages[i] == pages[1..][i - 1];
      assert forall i :: 0 <= i < |pages[1..]| ==> pages[1..][i] == pages[i + 1];
    }
  }

  /** Whether a source's own answer carries a total. */
  predicate Counted(s: Source, q: ListQuery) {
    ShimAnswer(s.shim, q).Ok? && ShimAnswer(s.shim, q).value.total.Some?
  }

  /** An answered union query has the total of the whole exactly when every source it visited
      gave one, being asked for it exactly when it was wanted, and then it tells exactly whether
      rows follow the page. */
  lemma UnionTotals(u: Union, q: ListQuery)
    requires UnionAnswer(u, q).Ok? && FilterClear(u, q.Effective())
    requires SourcesHarmless(Route(u.sources, SplitFilter(u, q.Effective()).value),
                             SourceQuery(u, q, SplitFilter(u, q.Effective()).value))
    ensures var split, page := SplitFilter(u, q.Effective()).value, UnionAnswer(u, q).value;
            var sources, asked := Route(u.sources, split), SourceQuery(u, q, split);
      && asked.withTotal == q.withTotal && asked.page == 1 && asked.pageSize == q.Offset() + q.pageSize
      && (page.total.Some? <==> forall i :: 0 <= i < |sources| ==> Counted(sources[i], asked))
      && (page.total.Some? ==> page.total.value == |Whole(u, q)|)
      && (page.total.Some? ==> (page.hasMore <==> |Whole(u, q)| > q.Offset() + q.pageSize))
  {
    hide FilterClear, SplitFilter, ShimAnswer, SourceQuery, SourcesHarmless, AllExact, Gather, Selected, Shares, SortRows,
         ListQuery.Effective, ListQuery.Offset;
    var split := SplitFilter(u, q.Effective()).value;
    var sources, asked := Route(u.sources, split), SourceQuery(u, q, split);
    LabelsOfAll(u);
    AskedAlike(u, q, split);
    if sources == [] {
      NothingRouted(u, u.sources, q, split);
    } else {
      var pages := Ask(sources, asked).value;
      AskedPagesExact(sources, asked);
      GatheredCount(u, u.sources, pages, q, split);
      SelectedCount(u, u.sources, q);
      SumCutFacts(Shares(u, u.sources, q), q.Offset() + q.pageSize);
      TotalWhereAllCount(pages);
      forall i | 0 <= i < |sources| ensures Counted(sources[i], asked) == pages[i].total.Some? {
        AskedOneByOne(sources, asked, i);
      }
    }
  }

  lemma AskedAlike(u: Union, q: ListQuery, split: Split)
    ensures var asked := SourceQuery(u, q, split);
            asked.withTotal == q.withTotal && asked.page == 1 && asked.pageSize == q.Offset() + q.pageSize
  {
  }

  /** Of backends without a hard limit that can count, a union that is asked for the total tells it. */
  lemma UnionCounts(u: Union, q: ListQuery)
    requires UnionAnswer(u, q).Ok? && FilterClear(u, q.Effective()) && q.withTotal
    requires forall s :: s in u.sources ==> s.shim.inner.cap.None? && s.shim.inner.caps.totalCount
    ensures UnionAnswer(u, q).value.total == Some(|Whole(u, q)|)
  {
    hide FilterClear, SplitFilter, ShimAnswer, SourceQuery, UnionAnswer, CapHarmless, ListQuery.Effective, ListQuery.Offset, Answer;
    AnswerIsSplit(u, q);
    var split := SplitFilter(u, q.Effective()).value;
    var sources, asked := Route(u.sources, split), SourceQuery(u, q, split);
    AskedAlike(u, q, split);
    RoutedAmong(u.sources, split);
    forall i | 0 <= i < |sources| ensures CapHarmless(sources[i].shim, asked) {
      assert sources[i] in u.sources;
      NoLimitNoHarm(sources[i].shim, asked);
    }
    UnionTotals(u, q);
    forall i | 0 <= i < |sources| ensures Counted(sources[i], asked) {
      assert sources[i] in u.sources;
      EverySourceAnswers(u, q, i);
      TotalsIff(sources[i].shim, asked);
    }
  }

  lemma AnswerIsSplit(u: Union, q: ListQuery)
    requires UnionAnswer(u, q).Ok?
    ensures SplitFilter(u, q.Effective()).Ok?
  {
  }

  lemma EverySourceAnswers(u: Union, q: ListQuery, i: nat)
    requires UnionAnswer(u, q).Ok? && i < |Route(u.sources, SplitFilter(u, q.Effective()).value)|
    ensures var split := SplitFilter(u, q.Effective()).value;
            ShimAnswer(Route(u.sources, split)[i].shim, SourceQuery(u, q, split)).Ok?
  {
    hide SplitFilter, ShimAnswer, SourceQuery, MergePages;
    var split := SplitFilter(u, q.Effective()).value;
    AskedOneByOne(Route(u.sources, split), SourceQuery(u, q, split), i);
  }

  lemma {:induction false} RoutedAmong(sources: seq<Source>, split: Split)
    ensures forall s :: s in Route(sources, split) ==> s in sources
  {
    if sources == [] {
    } else {
      RoutedAmong(sources[1..], split);
    }
  }
}
