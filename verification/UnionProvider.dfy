/** One sorted, filtered, paginated result from several sources. */
module UnionProvider {
  import opened Values
  import opened Query
  import opened Sorting
  import opened LocalEngine
  import opened CapabilityShim

  /** A source as the registry binds it: a backend behind its capability shim, and the label
      its rows are stamped with. */
  datatype Source = Source(tag: string, shim: Shim)
  {
    function Rows(): seq<Row> { shim.inner.rows }
    function Fields(): seq<string> { shim.Fields() }
  }

  datatype Union = Union(sources: seq<Source>, pk: string, sourceField: string, prefixed: bool, maxRows: nat)
  {
    function Labels(): set<string> {
      set i | 0 <= i < |sources| :: sources[i].tag
    }
  }

  // ----- which sources, which rows -----

  function LabelsFor(u: Union, c: Condition): Result<set<string>> {
    if c.op !in {EQ, NE, IN, NOT_IN} then Refused(UnsupportedOperation)
    else
      var wanted := if c.op in {IN, NOT_IN} then (set i | 0 <= i < |c.values| :: Text(c.values[i])) else {Text(c.value)};
      Ok(if c.op in {NE, NOT_IN} then u.Labels() - wanted else u.Labels() * wanted)
  }

  /** What a filter asks of the source column (None: anything), and what is left of it. */
  datatype Split = Split(allowed: Option<set<string>>, kept: seq<Filter>)

  function Both(a: Option<set<string>>, b: Option<set<string>>): Option<set<string>> {
    if a.None? then b else if b.None? then a else Some(a.value * b.value)
  }

  function SplitOf(u: Union, f: Filter): Result<Split>
    decreases f, 1
  {
    match f
    case Cond(c) =>
      if c.field != u.sourceField then Ok(Split(None, [f]))
      else
        var labels := LabelsFor(u, c);
        if labels.Refused? then Refused(labels.error) else Ok(Split(Some(labels.value), []))
    case Not(_) => if Mentions(f, u.sourceField) then Refused(UnsupportedOperation) else Ok(Split(None, [f]))
    case Or(_) => if Mentions(f, u.sourceField) then Refused(UnsupportedOperation) else Ok(Split(None, [f]))
    case And(cs) =>
      var parts := SplitEach(u, cs);
      if parts.Refused? then parts
      else Ok(Split(parts.value.allowed, Present(AndOf(parts.value.kept))))
  }

  /** The conjuncts one after another, narrowing the allowed sources as they go. */
  function SplitEach(u: Union, cs: seq<Filter>): Result<Split>
    decreases cs, 0
  {
    if cs == [] then Ok(Split(None, []))
    else
      var before := SplitEach(u, cs[..|cs| - 1]);
      if before.Refused? then before
      else
        var last := SplitOf(u, cs[|cs| - 1]);
        if last.Refused? then last
        else Ok(Split(Both(before.value.allowed, last.value.allowed), before.value.kept + last.value.kept))
  }

  function SplitFilter(u: Union, f: Option<Filter>): Result<Split> {
    if f.None? then Ok(Split(None, [])) else SplitOf(u, f.value)
  }

  function Allowed(split: Split, tag: string): bool {
    split.allowed.None? || tag in split.allowed.value
  }

  function Remaining(split: Split): Option<Filter> {
    if split.kept == [] then None else Some(split.kept[0])
  }

  /** The sources to visit, in declaration order. */
  function Route(sources: seq<Source>, split: Split): seq<Source> {
    if sources == [] then []
    else if Allowed(split, sources[0].tag) then [sources[0]] + Route(sources[1..], split)
    else Route(sources[1..], split)
  }

  // ----- record shaping -----

  /** Tags a row with its origin, and namespaces its key when asked. */
  function Stamp(u: Union, row: Row, tag: string): Row {
    var tagged := row[u.sourceField := Str(tag)];
    if u.prefixed then tagged[u.pk := Str(tag + ":" + Text(GetOrNull(row, u.pk)))] else tagged
  }

  function StampAll(u: Union, rows: seq<Row>, tag: string): (r: seq<Row>)
    ensures |r| == |rows|
  {
    if rows == [] then [] else [Stamp(u, rows[0], tag)] + StampAll(u, rows[1..], tag)
  }

  // ----- listing -----

  /** The keys every source can sort by: all but the source column. */
  function PushedSort(sorts: seq<Sort>, sourceField: string): seq<Sort> {
    if sorts == [] then []
    else if sorts[0].field == sourceField then PushedSort(sorts[1..], sourceField)
    else [sorts[0]] + PushedSort(sorts[1..], sourceField)
  }

  function SourceQuery(u: Union, q: ListQuery, split: Split): ListQuery {
    q.(filter := Remaining(split), scope := None, sort := PushedSort(q.sort, u.sourceField),
       page := 1, pageSize := q.Offset() + q.pageSize)
  }

  function Gather(u: Union, sources: seq<Source>, pages: seq<Page>): seq<Row>
    requires |sources| == |pages|
  {
    if sources == [] then []
    else StampAll(u, pages[0].items, sources[0].tag) + Gather(u, sources[1..], pages[1..])
  }

  /** The sum of the totals, if every source knows its own. */
  function TotalOf(pages: seq<Page>): Option<nat> {
    if pages == [] then Some(0)
    else
      var rest := TotalOf(pages[1..]);
      if pages[0].total.Some? && rest.Some? then Some(pages[0].total.value + rest.value) else None
  }

  function MergePages(u: Union, sources: seq<Source>, pages: seq<Page>, q: ListQuery): Page
    requires |sources| == |pages|
  {
    var rows := SortRows(Gather(u, sources, pages), q.sort);
    var window := Window(rows, q.Offset(), q.pageSize);
    var total := TotalOf(pages);
    Page(window, q.page, q.pageSize, total,
         if total.Some? then q.Offset() + |window| < total.value else |rows| > q.Offset() + q.pageSize)
  }

  /** Every source's answer, or the first refusal. */
  function Ask(sources: seq<Source>, q: ListQuery): (r: Result<seq<Page>>)
    ensures r.Ok? ==> |r.value| == |sources|
  {
    if sources == [] then Ok([])
    else
      var first := ShimAnswer(sources[0].shim, q);
      if first.Refused? then Refused(first.error)
      else
        var rest := Ask(sources[1..], q);
        if rest.Refused? then rest else Ok([first.value] + rest.value)
  }

  function UnionAnswer(u: Union, q: ListQuery): Result<Page> {
    var split := SplitFilter(u, q.Effective());
    if split.Refused? then Refused(split.error)
    else
      var sources := Route(u.sources, split.value);
      if sources == [] then Ok(Page([], q.page, q.pageSize, Some(0), false))
      else if q.Offset() + q.pageSize > u.maxRows then Refused(TooManyRows)
      else
        var pages := Ask(sources, SourceQuery(u, q, split.value));
        if pages.Refused? then Refused(pages.error)
        else Ok(MergePages(u, sources, pages.value, q))
  }

  method List(u: Union, q: ListQuery) returns (r: Result<Page>)
    ensures r == UnionAnswer(u, q)
  {
    hide ShimAnswer, SortRows, SplitFilter, Window;
    var split := SplitFilter(u, q.Effective());
    if split.Refused? {
      return Refused(split.error);
    }
    var sources := Route(u.sources, split.value);
    if sources == [] {
      return Ok(Page([], q.page, q.pageSize, Some(0), false));
    }
    var needed := q.Offset() + q.pageSize;
    if needed > u.maxRows {
      return Refused(TooManyRows);
    }
    var pages := AskAll(sources, SourceQuery(u, q, split.value));
    if pages.Refused? {
      return Refused(pages.error);
    }
    var rows, total := GatherAll(u, sources, pages.value);
    rows := ApplySort(rows, q.sort);
    var window := Window(rows, q.Offset(), q.pageSize);
    return Ok(Page(window, q.page, q.pageSize, total,
                   if total.Some? then q.Offset() + |window| < total.value else |rows| > needed));
  }

  /** Every routed source is asked; a source that refuses refuses the query. */
  method AskAll(sources: seq<Source>, q: ListQuery) returns (r: Result<seq<Page>>)
    ensures r == Ask(sources, q)
  {
    hide ShimAnswer;
    var pages: seq<Page> := [];
    for i := 0 to |sources|
      invariant |pages| == i
      invariant Ask(sources[..i], q) == Ok(pages)
    {
      var answer := CapabilityShim.List(sources[i].shim, q);
      AskNext(sources, i, q);
      if answer.Refused? {
        return Refused(answer.error);
      }
      pages := pages + [answer.value];
    }
    assert sources[..|sources|] == sources;
    return Ok(pages);
  }

  method GatherAll(u: Union, sources: seq<Source>, pages: seq<Page>) returns (rows: seq<Row>, total: Option<nat>)
    requires |sources| == |pages|
    ensures rows == Gather(u, sources, pages) && total == TotalOf(pages)
  {
    rows, total := [], Some(0);
    for i := 0 to |sources|
      invariant rows == Gather(u, sources[..i], pages[..i])
      invariant total == TotalOf(pages[..i])
    {
      assert sources[..i + 1] == sources[..i] + [sources[i]] && pages[..i + 1] == pages[..i] + [pages[i]];
      GatherConcat(u, sources[..i], sources[i], pages[..i], pages[i]);
      TotalConcat(pages[..i], pages[i]);
      rows := rows + StampAll(u, pages[i].items, sources[i].tag);
      total := if total.Some? && pages[i].total.Some? then Some(total.value + pages[i].total.value) else None;
    }
    assert sources[..|sources|] == sources && pages[..|sources|] == pages;
  }

  lemma AskNext(sources: seq<Source>, i: nat, q: ListQuery)
    requires i < |sources| && Ask(sources[..i], q).Ok?
    ensures var answer := ShimAnswer(sources[i].shim, q);
            if answer.Refused? then Ask(sources, q) == Refused(answer.error)
            else Ask(sources[..i + 1], q) == Ok(Ask(sources[..i], q).value + [answer.value])
  {
    hide ShimAnswer;
    var one := [sources[i]];
    assert one[1..] == [] && Ask([], q) == Ok([]);
    assert sources[..i + 1] == sources[..i] + one;
    AskConcat(sources[..i], one, q);
    if Ask(one, q).Refused? {
      assert sources == sources[..i + 1] + sources[i + 1..];
      AskConcat(sources[..i + 1], sources[i + 1..], q);
    } else {
      assert Ask(one, q).value == [ShimAnswer(sources[i].shim, q).value];
    }
  }

  lemma {:induction false} AskConcat(a: seq<Source>, b: seq<Source>, q: ListQuery)
    ensures Ask(a, q).Refused? ==> Ask(a + b, q) == Ask(a, q)
    ensures Ask(a, q).Ok? && Ask(b, q).Refused? ==> Ask(a + b, q) == Ask(b, q)
    ensures Ask(a, q).Ok? && Ask(b, q).Ok? ==> Ask(a + b, q) == Ok(Ask(a, q).value + Ask(b, q).value)
  {
    hide ShimAnswer;
    if a == [] {
      assert a + b == b;
      if Ask(b, q).Ok? { assert [] + Ask(b, q).value == Ask(b, q).value; }
    } else {
      assert (a + b)[0] == a[0] && (a + b)[1..] == a[1..] + b;
      AskConcat(a[1..], b, q);
      if Ask(a, q).Ok? && Ask(b, q).Ok? {
        var first := [ShimAnswer(a[0].shim, q).value];
        assert first + (Ask(a[1..], q).value + Ask(b, q).value) == (first + Ask(a[1..], q).value) + Ask(b, q).value;
      }
    }
  }

  lemma {:induction false} GatherConcat(u: Union, a: seq<Source>, s: Source, p: seq<Page>, page: Page)
    requires |a| == |p|
    ensures Gather(u, a + [s], p + [page]) == Gather(u, a, p) + StampAll(u, page.items, s.tag)
  {
    if a == [] {
      assert a + [s] == [s] && p + [page] == [page];
      ConcatEmpty(StampAll(u, page.items, s.tag));
      assert Gather(u, [s][1..], [page][1..]) == [];
    } else {
      assert (a + [s])[0] == a[0] && (a + [s])[1..] == a[1..] + [s];
      assert (p + [page])[0] == p[0] && (p + [page])[1..] == p[1..] + [page];
      GatherConcat(u, a[1..], s, p[1..], page);
    }
  }

  lemma {:induction false} TotalConcat(p: seq<Page>, page: Page)
    ensures TotalOf(p + [page])
         == if TotalOf(p).Some? && page.total.Some? then Some(TotalOf(p).value + page.total.value) else None
  {
    if p == [] {
      assert p + [page] == [page] && TotalOf([page][1..]) == Some(0);
    } else {
      assert (p + [page])[0] == p[0] && (p + [page])[1..] == p[1..] + [page];
      TotalConcat(p[1..], page);
    }
  }
}
