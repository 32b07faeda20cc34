/** Grouped measures over one backend without the capability, and over a union: each source
    aggregates its own rows and only the groups are merged. */
module UnionAggregate {
  import opened Values
  import opened Query
  import opened Sorting
  import opened LocalEngine
  import opened Aggregation
  import opened CapabilityShim
  import opened ShimExactness
  import opened UnionProvider
  import opened UnionExactness

  // ----- one backend -----

  /** The query that pulls the rows to group, one more than the budget allows. */
  function RowsQuery(spec: AggSpec, maxRows: nat): ListQuery {
    ListQuery(spec.filter, spec.scope, "", [], 1, maxRows + 1, false)
  }

  function ShimAggregate(s: Shim, spec: AggSpec): Result<seq<Row>> {
    if s.inner.caps.aggregate then AggregateAnswer(s.inner.rows, spec)
    else
      var page := ShimAnswer(s, RowsQuery(spec, s.maxRows));
      if page.Refused? then Refused(page.error)
      else if |page.value.items| > s.maxRows then Refused(TooManyRows)
      else AggregateAnswer(page.value.items, spec)
  }

  method Aggregate(s: Shim, spec: AggSpec) returns (r: Result<seq<Row>>)
    ensures r == ShimAggregate(s, spec)
  {
    hide ShimAnswer, AggregateAnswer;
    if s.inner.caps.aggregate {
      r := RunAggregate(s.inner.rows, spec);
      return;
    }
    var page := CapabilityShim.List(s, RowsQuery(spec, s.maxRows));
    if page.Refused? {
      return Refused(page.error);
    }
    if |page.value.items| > s.maxRows {
      return Refused(TooManyRows);
    }
    r := RunAggregate(page.value.items, spec);
  }

  lemma FilterTwice(rows: seq<Row>, f: Option<Filter>)
    ensures ApplyFilter(ApplyFilter(rows, f), f) == ApplyFilter(rows, f)
  {
    KeepNarrower(rows, FilterTest(f), FilterTest(f));
  }

  lemma PlainMatching(rows: seq<Row>, q: ListQuery, fields: seq<string>)
    requires q.search == "" && q.sort == []
    ensures Answer(rows, q, fields) == Matching(rows, q, fields) == ApplyFilter(rows, q.Effective())
  {
    EmptySearchKeepsAll(ApplyFilter(rows, q.Effective()), fields);
    NoKeysNoChange(ApplyFilter(rows, q.Effective()));
  }

  /** An emulated aggregate is the real one over every row, or a refusal. */
  lemma ShimAggregateExact(s: Shim, spec: AggSpec)
    requires s.inner.caps.aggregate || CapHarmless(s, RowsQuery(spec, s.maxRows))
    ensures ShimAggregate(s, spec) == AggregateAnswer(s.inner.rows, spec) || ShimAggregate(s, spec) == Refused(TooManyRows)
    ensures !s.inner.caps.aggregate && |ApplyFilter(s.inner.rows, spec.Effective())| > s.maxRows ==>
              ShimAggregate(s, spec) == Refused(TooManyRows)
  {
    hide ShimAnswer, CapHarmless, ApplyFilter, Answer, Matching, Entries;
    var q := RowsQuery(spec, s.maxRows);
    if !s.inner.caps.aggregate {
      ShimExactOrRefused(s, q);
      PlainMatching(s.inner.rows, q, s.Fields());
      assert q.Effective() == spec.Effective() && q.Offset() == 0;
      FilterTwice(s.inner.rows, spec.Effective());
      var all := ApplyFilter(s.inner.rows, spec.Effective());
      if ShimAnswer(s, q).Ok? && |ShimAnswer(s, q).value.items| <= s.maxRows {
        assert ShimAnswer(s, q).value.items == all[0..|all|] == all;
      }
    }
  }

  /** When grouping here is refused as too large, without a hard limit: more rows to group than
      the budget, or pulling them is refused. */
  lemma ShimAggregateRefusesIff(s: Shim, spec: AggSpec, bound: nat)
    requires s.inner.cap.None? && Budget(s.maxScan, bound)
    ensures var q := RowsQuery(spec, s.maxRows);
            ShimAggregate(s, spec) == Refused(TooManyRows) <==>
              && !s.inner.caps.aggregate
              && (|ApplyFilter(s.inner.rows, spec.Effective())| > s.maxRows
                  || (if Scannable(s, q)
                      then |LeftThere(s, q)| >= s.maxScan && |FoundHere(s, q, Take(LeftThere(s, q), bound))| <= s.maxRows + 1
                      else |LeftThere(s, q)| > s.maxRows))
  {
    hide ShimAnswer, CapHarmless, ApplyFilter, Answer, Matching, Entries, Scannable, LeftThere, FoundHere, AggregateAnswer;
    var q := RowsQuery(spec, s.maxRows);
    NoLimitNoHarm(s, q);
    ShimExactOrRefused(s, q);
    RefusesIff(s, q, bound);
    PlainMatching(s.inner.rows, q, s.Fields());
    assert q.Effective() == spec.Effective() && q.Offset() == 0;
    AggregateRefusesIff(s.inner.rows, spec);
    if ShimAnswer(s, q).Ok? { AggregateRefusesIff(ShimAnswer(s, q).value.items, spec); }
  }

  // ----- several sources -----

  /** The group-by fields a source knows: all but the source column. */
  function Without(fields: seq<string>, field: string): seq<string> {
    if fields == [] then []
    else if fields[0] == field then Without(fields[1..], field)
    else [fields[0]] + Without(fields[1..], field)
  }

  function SourceSpec(u: Union, spec: AggSpec, split: Split): AggSpec {
    spec.(groupBy := Without(spec.groupBy, u.sourceField), filter := Remaining(split), scope := None,
          sort := [], limit := None)
  }

  function Label(u: Union, spec: AggSpec, entry: Row, tag: string): Row {
    if u.sourceField in spec.groupBy then entry[u.sourceField := Str(tag)] else entry
  }

  function LabelAll(u: Union, spec: AggSpec, entries: seq<Row>, tag: string): seq<Row> {
    if entries == [] then [] else [Label(u, spec, entries[0], tag)] + LabelAll(u, spec, entries[1..], tag)
  }

  function AskAggregates(sources: seq<Source>, spec: AggSpec): (r: Result<seq<seq<Row>>>)
    ensures r.Ok? ==> |r.value| == |sources|
  {
    if sources == [] then Ok([])
    else
      var first := ShimAggregate(sources[0].shim, spec);
      if first.Refused? then Refused(first.error)
      else
        var rest := AskAggregates(sources[1..], spec);
        if rest.Refused? then rest else Ok([first.value] + rest.value)
  }

  /** Every source's groups, folded into the merged ones source after source. */
  function MergeResults(u: Union, merged: seq<Slot>, sources: seq<Source>, results: seq<seq<Row>>, spec: AggSpec): seq<Slot>
    requires |sources| == |results|
    decreases |sources|
  {
    if sources == [] then merged
    else
      MergeResults(u, InsertAll(merged, LabelAll(u, spec, results[0], sources[0].tag), spec.groupBy, spec.measures),
                   sources[1..], results[1..], spec)
  }

  function UnionAggregateAnswer(u: Union, spec: AggSpec): Result<seq<Row>> {
    var split := SplitFilter(u, spec.Effective());
    if split.Refused? then Refused(split.error)
    else
      var sources := Route(u.sources, split.value);
      if sources == [] then Ok([])
      else
        var results := AskAggregates(sources, SourceSpec(u, spec, split.value));
        if results.Refused? then Refused(results.error)
        else Ok(Finish(RowsIn(MergeResults(u, [], sources, results.value, spec)), spec))
  }

  method AggregateUnion(u: Union, spec: AggSpec) returns (r: Result<seq<Row>>)
    ensures r == UnionAggregateAnswer(u, spec)
  {
    hide SplitFilter, ShimAggregate, Insert, Label;
    var split := SplitFilter(u, spec.Effective());
    if split.Refused? {
      return Refused(split.error);
    }
    var sources := Route(u.sources, split.value);
    if sources == [] {
      return Ok([]);
    }
    var results := AskEach(sources, SourceSpec(u, spec, split.value));
    if results.Refused? {
      return Refused(results.error);
    }
    var merged: seq<Slot> := [];
    for i := 0 to |sources|
      invariant MergeResults(u, merged, sources[i..], results.value[i..], spec)
             == MergeResults(u, [], sources, results.value, spec)
    {
      merged := MergeSource(u, merged, results.value[i], sources[i].tag, spec);
      assert sources[i..][1..] == sources[i + 1..] && results.value[i..][1..] == results.value[i + 1..];
    }
    var out := ApplySort(RowsIn(merged), spec.sort);
    return Ok(if spec.limit.Some? then Take(out, spec.limit.value) else out);
  }

  /** One source's groups, folded in one row at a time. */
  method MergeSource(u: Union, start: seq<Slot>, rows: seq<Row>, tag: string, spec: AggSpec) returns (merged: seq<Slot>)
    ensures merged == InsertAll(start, LabelAll(u, spec, rows, tag), spec.groupBy, spec.measures)
  {
    hide Label, Insert;
    merged := start;
    for i := 0 to |rows|
      invariant InsertAll(merged, LabelAll(u, spec, rows[i..], tag), spec.groupBy, spec.measures)
             == InsertAll(start, LabelAll(u, spec, rows, tag), spec.groupBy, spec.measures)
    {
      assert rows[i..][1..] == rows[i + 1..];
      var entry := Label(u, spec, rows[i], tag);
      assert LabelAll(u, spec, rows[i..], tag) == [entry] + LabelAll(u, spec, rows[i + 1..], tag);
      merged := Insert(merged, entry, spec.groupBy, spec.measures);
    }
  }

  method AskEach(sources: seq<Source>, spec: AggSpec) returns (r: Result<seq<seq<Row>>>)
    ensures r == AskAggregates(sources, spec)
  {
    hide ShimAggregate;
    var results: seq<seq<Row>> := [];
    assert sources[0..] == sources;
    ghost var all := AskAggregates(sources, spec);
    assert all.Ok? ==> results + all.value == all.value;
    for i := 0 to |sources|
      invariant |results| == i
      invariant AskAggregates(sources, spec)
             == (var rest := AskAggregates(sources[i..], spec); if rest.Ok? then Ok(results + rest.value) else rest)
    {
      assert sources[i..][1..] == sources[i + 1..];
      var one := Aggregate(sources[i].shim, spec);
      if one.Refused? {
        return Refused(one.error);
      }
      ghost var rest := AskAggregates(sources[i + 1..], spec);
      assert rest.Ok? ==> results + ([one.value] + rest.value) == (results + [one.value]) + rest.value;
      results := results + [one.value];
    }
    assert AskAggregates(sources[|sources|..], spec) == Ok([]) && results + [] == results;
    return Ok(results);
  }

  // ----- grouping stamped rows -----

  /** A measure that reads neither the source column nor a rewritten key. */
  predicate MeasureApart(u: Union, m: Measure) {
    m.agg.COUNT? || (m.field != u.sourceField && (u.prefixed ==> m.field != u.pk))
  }

  /** Whether grouping raw rows in the sources can stand for grouping stamped ones. */
  ghost predicate SpecClear(u: Union, spec: AggSpec) {
    && FilterClear(u, spec.Effective())
    && AliasesKeepKeys(spec.groupBy, spec.measures)
    && (u.prefixed ==> u.pk !in spec.groupBy)
    && forall i :: 0 <= i < |spec.measures| ==> MeasureApart(u, spec.measures[i])
  }

  lemma {:induction false} ValuesUnderStamp(u: Union, rows: seq<Row>, tag: string, field: string)
    requires field != u.sourceField && (u.prefixed ==> field != u.pk)
    ensures ValuesOf(StampAll(u, rows, tag), field) == ValuesOf(rows, field)
  {
    if rows == [] {
    } else {
      ValuesUnderStamp(u, rows[1..], tag, field);
      assert StampAll(u, rows, tag)[1..] == StampAll(u, rows[1..], tag);
    }
  }

  lemma ComputeUnderStamp(u: Union, m: Measure, rows: seq<Row>, tag: string)
    requires MeasureApart(u, m)
    ensures Compute(m, StampAll(u, rows, tag)) == Compute(m, rows)
  {
    if !m.agg.COUNT? { ValuesUnderStamp(u, rows, tag, m.field); }
  }

  ghost predicate MeasureSurvives(u: Union, m: Measure) {
    forall rows, tag :: Compute(m, StampAll(u, rows, tag)) == Compute(m, rows)
  }

  /** A measure is the same over raw and stamped rows, whatever the rows, exactly when it
      leaves the stamped columns alone. */
  lemma MeasureSurvivesIff(u: Union, m: Measure)
    ensures MeasureSurvives(u, m) <==> MeasureApart(u, m)
  {
    if MeasureApart(u, m) {
      forall rows, tag ensures Compute(m, StampAll(u, rows, tag)) == Compute(m, rows) {
        ComputeUnderStamp(u, m, rows, tag);
      }
    } else {
      var row: Row := map[];
      var stamped := StampAll(u, [row], "a");
      assert stamped == [Stamp(u, row, "a")];
      assert ValuesOf([row], m.field) == [] by { assert [row][1..] == []; }
      assert ValuesOf(stamped, m.field) == [Stamp(u, row, "a")[m.field]] by { assert stamped[1..] == []; }
      assert Compute(m, stamped) != Compute(m, [row]);
    }
  }

  lemma {:induction false} KeyUnderStamp(u: Union, a: Row, b: Row, tag: string, fields: seq<string>)
    requires u.prefixed ==> u.pk != u.sourceField && u.pk !in fields
    ensures SameKey(Stamp(u, a, tag), Stamp(u, b, tag), fields) <==> SameKey(a, b, Without(fields, u.sourceField))
  {
    if fields == [] {
    } else {
      KeyUnderStamp(u, a, b, tag, fields[1..]);
      StampChanges(u, a, tag, fields[0]);
      StampChanges(u, b, tag, fields[0]);
      var sa, sb := KeyOf(Stamp(u, a, tag), fields), KeyOf(Stamp(u, b, tag), fields);
      assert sa[1..] == KeyOf(Stamp(u, a, tag), fields[1..]) && sb[1..] == KeyOf(Stamp(u, b, tag), fields[1..]);
      assert sa == [sa[0]] + sa[1..] && sb == [sb[0]] + sb[1..];
      var inner := Without(fields, u.sourceField);
      if fields[0] != u.sourceField {
        assert inner[1..] == Without(fields[1..], u.sourceField);
        assert KeyOf(a, inner)[1..] == KeyOf(a, inner[1..]) && KeyOf(b, inner)[1..] == KeyOf(b, inner[1..]);
        assert KeyOf(a, inner) == [KeyOf(a, inner)[0]] + KeyOf(a, inner[1..]);
        assert KeyOf(b, inner) == [KeyOf(b, inner)[0]] + KeyOf(b, inner[1..]);
      }
    }
  }

  ghost predicate GroupingSurvives(u: Union, fields: seq<string>) {
    forall a, b, tag ::
      SameKey(Stamp(u, a, tag), Stamp(u, b, tag), fields) == SameKey(a, b, Without(fields, u.sourceField))
  }

  /** Raw rows fall into the groups their stamped rows fall into, whatever the rows, if and only
      if a prefixed key is not grouped by: the prefix makes the number 1 and the text "1" one. */
  lemma GroupingSurvivesIff(u: Union, fields: seq<string>)
    requires u.prefixed ==> u.pk != u.sourceField
    ensures GroupingSurvives(u, fields) <==> (u.prefixed ==> u.pk !in fields)
  {
    if u.prefixed && u.pk in fields {
      var a: Row, b: Row := map[u.pk := Int(1)], map[u.pk := Str("1")];
      assert Digits(1) == "1";
      forall f | f in fields ensures GetOrNull(Stamp(u, a, "s"), f) == GetOrNull(Stamp(u, b, "s"), f) {
      }
      KeyDependsOnFields(Stamp(u, a, "s"), Stamp(u, b, "s"), fields);
      WithoutIs(fields, u.sourceField, u.pk);
      if SameKey(a, b, Without(fields, u.sourceField)) {
        SameKeyMeans(a, b, Without(fields, u.sourceField), u.pk);
      }
    } else {
      forall a, b, tag
        ensures SameKey(Stamp(u, a, tag), Stamp(u, b, tag), fields) == SameKey(a, b, Without(fields, u.sourceField))
      {
        KeyUnderStamp(u, a, b, tag, fields);
      }
    }
  }

  lemma {:induction false} WithoutIs(fields: seq<string>, field: string, f: string)
    ensures f in Without(fields, field) <==> f in fields && f != field
  {
    if fields == [] {
    } else {
      WithoutIs(fields[1..], field, f);
    }
  }

  /** One group's result row: computed by the source and labelled, or computed here. */
  lemma EntryUnderStamp(u: Union, spec: AggSpec, group: Group, tag: string)
    requires SpecClear(u, spec)
    ensures StampAll(u, group, tag) != []
    ensures Label(u, spec, EntryOf(group, Without(spec.groupBy, u.sourceField), spec.measures), tag)
         == EntryOf(StampAll(u, group, tag), spec.groupBy, spec.measures)
  {
    hide FilterClear, Compute;
    var stamped: Group := StampAll(u, group, tag);
    var inner := Without(spec.groupBy, u.sourceField);
    var x := Label(u, spec, EntryOf(group, inner, spec.measures), tag);
    var y := EntryOf(stamped, spec.groupBy, spec.measures);
    LabelledKeys(u, spec, group, tag);
    forall k | k in y.Keys ensures x[k] == y[k] {
      LabelledValue(u, spec, group, tag, k);
    }
  }

  lemma LabelledKeys(u: Union, spec: AggSpec, group: Group, tag: string)
    ensures StampAll(u, group, tag) != []
    ensures Label(u, spec, EntryOf(group, Without(spec.groupBy, u.sourceField), spec.measures), tag).Keys
         == EntryOf(StampAll(u, group, tag), spec.groupBy, spec.measures).Keys
         == KeyEntry(group[0], spec.groupBy).Keys + Aliases(spec.measures)
  {
    hide Compute, LastNamed, Stamp;
    var stamped: Group := StampAll(u, group, tag);
    var inner := Without(spec.groupBy, u.sourceField);
    WithMeasuresIs(KeyEntry(group[0], inner), spec.measures, group);
    WithMeasuresIs(KeyEntry(stamped[0], spec.groupBy), spec.measures, stamped);
    forall f ensures f in inner <==> f in spec.groupBy && f != u.sourceField { WithoutIs(spec.groupBy, u.sourceField, f); }
  }

  lemma EntryAtMeasure(group: Group, fields: seq<string>, measures: seq<Measure>, k: string)
    requires k in Aliases(measures)
    ensures LastNamed(measures, k).Some? && LastNamed(measures, k).value in measures
    ensures GetOrNull(EntryOf(group, fields, measures), k) == Compute(LastNamed(measures, k).value, group)
  {
    hide Compute;
    LastNamedExists(measures, k);
    WithMeasuresIs(KeyEntry(group[0], fields), measures, group);
  }

  lemma EntryAtField(group: Group, fields: seq<string>, measures: seq<Measure>, k: string)
    requires k in fields && k !in Aliases(measures)
    ensures GetOrNull(EntryOf(group, fields, measures), k) == GetOrNull(group[0], k)
  {
    hide Compute;
    LastNamedExists(measures, k);
    WithMeasuresIs(KeyEntry(group[0], fields), measures, group);
  }

  lemma LabelledValue(u: Union, spec: AggSpec, group: Group, tag: string, k: string)
    requires SpecClear(u, spec) && StampAll(u, group, tag) != []
    requires k in spec.groupBy || k in Aliases(spec.measures)
    ensures GetOrNull(Label(u, spec, EntryOf(group, Without(spec.groupBy, u.sourceField), spec.measures), tag), k)
         == GetOrNull(EntryOf(StampAll(u, group, tag), spec.groupBy, spec.measures), k)
  {
    hide Compute, EntryOf, Stamp;
    var stamped: Group := StampAll(u, group, tag);
    var inner := Without(spec.groupBy, u.sourceField);
    WithoutIs(spec.groupBy, u.sourceField, k);
    if k in Aliases(spec.measures) {
      EntryAtMeasure(group, inner, spec.measures, k);
      EntryAtMeasure(stamped, spec.groupBy, spec.measures, k);
      ComputeUnderStamp(u, LastNamed(spec.measures, k).value, group, tag);
      assert MeasureApart(u, LastNamed(spec.measures, k).value);
      assert u.sourceField in spec.groupBy ==> k != u.sourceField;
    } else {
      EntryAtField(stamped, spec.groupBy, spec.measures, k);
      StampChanges(u, group[0], tag, k);
      if k != u.sourceField {
        EntryAtField(group, inner, spec.measures, k);
      }
    }
  }

  function StampGroups(u: Union, groups: seq<Group>, tag: string): seq<Group> {
    if groups == [] then [] else [StampAll(u, groups[0], tag)] + StampGroups(u, groups[1..], tag)
  }

  lemma {:induction false} StampConcat(u: Union, a: seq<Row>, b: seq<Row>, tag: string)
    ensures StampAll(u, a + b, tag) == StampAll(u, a, tag) + StampAll(u, b, tag)
  {
    if a == [] {
      assert a + b == b;
    } else {
      assert (a + b)[0] == a[0] && (a + b)[1..] == a[1..] + b;
      StampConcat(u, a[1..], b, tag);
    }
  }

  lemma {:induction false} AddRowUnderStamp(u: Union, groups: seq<Group>, row: Row, tag: string, fields: seq<string>)
    requires u.prefixed ==> u.pk != u.sourceField && u.pk !in fields
    ensures StampGroups(u, AddRow(groups, row, Without(fields, u.sourceField)), tag)
         == AddRow(StampGroups(u, groups, tag), Stamp(u, row, tag), fields)
  {
    hide SameKey, Stamp, Without;
    assert StampAll(u, [row], tag) == [Stamp(u, row, tag)];
    if groups == [] {
    } else {
      KeyUnderStamp(u, groups[0][0], row, tag, fields);
      StampConcat(u, groups[0], [row], tag);
      AddRowUnderStamp(u, groups[1..], row, tag, fields);
    }
  }

  lemma {:induction false} BucketsUnderStamp(u: Union, rows: seq<Row>, tag: string, fields: seq<string>)
    requires u.prefixed ==> u.pk != u.sourceField && u.pk !in fields
    ensures StampGroups(u, Buckets(rows, Without(fields, u.sourceField)), tag) == Buckets(StampAll(u, rows, tag), fields)
  {
    if rows == [] {
    } else {
      var before, last := rows[..|rows| - 1], rows[|rows| - 1];
      BucketsUnderStamp(u, before, tag, fields);
      AddRowUnderStamp(u, Buckets(before, Without(fields, u.sourceField)), last, tag, fields);
      assert rows == before + [last];
      StampConcat(u, before, [last], tag);
      assert StampAll(u, [last], tag) == [Stamp(u, last, tag)];
      var all := StampAll(u, rows, tag);
      assert all[..|all| - 1] == StampAll(u, before, tag) && all[|all| - 1] == Stamp(u, last, tag);
    }
  }

  lemma {:induction false} EntriesOfUnderStamp(u: Union, spec: AggSpec, groups: seq<Group>, tag: string)
    requires SpecClear(u, spec)
    ensures LabelAll(u, spec, EntriesOf(groups, Without(spec.groupBy, u.sourceField), spec.measures), tag)
         == EntriesOf(StampGroups(u, groups, tag), spec.groupBy, spec.measures)
  {
    hide SpecClear, EntryOf, Label, Without;
    if groups == [] {
    } else {
      EntryUnderStamp(u, spec, groups[0], tag);
      EntriesOfUnderStamp(u, spec, groups[1..], tag);
    }
  }

  /** Grouping a source's own rows and labelling the groups is grouping its stamped rows. */
  lemma EntriesUnderStamp(u: Union, spec: AggSpec, rows: seq<Row>, tag: string)
    requires SpecClear(u, spec)
    ensures LabelAll(u, spec, Entries(rows, Without(spec.groupBy, u.sourceField), spec.measures), tag)
         == Entries(StampAll(u, rows, tag), spec.groupBy, spec.measures)
  {
    var inner := Without(spec.groupBy, u.sourceField);
    EntriesOfUnderStamp(u, spec, Buckets(rows, inner), tag);
    BucketsUnderStamp(u, rows, tag, spec.groupBy);
  }

  // ----- the whole union -----

  /** The reference: every row of every source, stamped. */
  function Everything(u: Union, sources: seq<Source>): seq<Row> {
    if sources == [] then [] else StampAll(u, sources[0].Rows(), sources[0].tag) + Everything(u, sources[1..])
  }

  /** One source's rows that pass the whole filter once stamped. */
  lemma FilteredShare(u: Union, s: Source, spec: AggSpec, split: Split)
    requires SplitFilter(u, spec.Effective()) == Ok(split) && s.tag in u.Labels() && FilterClear(u, spec.Effective())
    ensures ApplyFilter(StampAll(u, s.Rows(), s.tag), spec.Effective())
         == if Allowed(split, s.tag) then StampAll(u, ApplyFilter(s.Rows(), Remaining(split)), s.tag) else []
  {
    hide FilterClear, SplitFilter, Stamp;
    var q := RowsQuery(spec, 0);
    assert q.Effective() == spec.Effective();
    SourceShare(u, s, q, split);
    EmptySearchKeepsAll(s.Rows(), s.Fields());
    var sq := SourceQuery(u, q, split);
    assert sq.Effective() == Remaining(split);
    EmptySearchKeepsAll(ApplyFilter(s.Rows(), Remaining(split)), s.Fields());
  }

  /** A source that answers with its groups answers with those of its filtered rows. */
  lemma SourceEntries(u: Union, s: Source, spec: AggSpec, split: Split)
    ensures AggregateAnswer(s.Rows(), SourceSpec(u, spec, split))
         == var kept := ApplyFilter(s.Rows(), Remaining(split));
            if SumFails(kept, spec.measures) then Refused(TypeError)
            else Ok(Entries(kept, Without(spec.groupBy, u.sourceField), spec.measures))
  {
    hide ApplyFilter, Entries, SumFails;
    var inner := SourceSpec(u, spec, split);
    assert inner.Effective() == Remaining(split);
    NoKeysNoChange(Entries(ApplyFilter(s.Rows(), Remaining(split)), inner.groupBy, inner.measures));
  }

  lemma RowFailsUnderStamp(u: Union, row: Row, tag: string, measures: seq<Measure>)
    requires (u.prefixed ==> u.pk != u.sourceField) && forall i :: 0 <= i < |measures| ==> MeasureApart(u, measures[i])
    ensures RowFails(Stamp(u, row, tag), measures) <==> RowFails(row, measures)
  {
    forall i | 0 <= i < |measures| && measures[i].agg.SUM?
      ensures GetOrNull(Stamp(u, row, tag), measures[i].field) == GetOrNull(row, measures[i].field)
    {
      StampChanges(u, row, tag, measures[i].field);
    }
  }

  lemma {:induction false} FailsUnderStamp(u: Union, rows: seq<Row>, tag: string, measures: seq<Measure>)
    requires (u.prefixed ==> u.pk != u.sourceField) && forall i :: 0 <= i < |measures| ==> MeasureApart(u, measures[i])
    ensures SumFails(StampAll(u, rows, tag), measures) <==> SumFails(rows, measures)
  {
    hide RowFails, Stamp;
    if rows == [] {
    } else {
      FailsUnderStamp(u, rows[1..], tag, measures);
      RowFailsUnderStamp(u, rows[0], tag, measures);
      SumFailsConcat([rows[0]], rows[1..], measures);
      SumFailsConcat([Stamp(u, rows[0], tag)], StampAll(u, rows[1..], tag), measures);
      assert rows == [rows[0]] + rows[1..];
    }
  }

  lemma SumFailsConcat(a: seq<Row>, b: seq<Row>, measures: seq<Measure>)
    ensures SumFails(a + b, measures) <==> SumFails(a, measures) || SumFails(b, measures)
    ensures |a| == 1 ==> (SumFails(a, measures) <==> RowFails(a[0], measures))
  {
    hide RowFails;
    if SumFails(a, measures) {
      var r :| r in a && RowFails(r, measures);
      assert r in a + b;
    }
    if SumFails(b, measures) {
      var r :| r in b && RowFails(r, measures);
      assert r in a + b;
    }
  }

  /** Every backend answers for all of its rows or says it cannot. */
  predicate BackendsHarmless(sources: seq<Source>, spec: AggSpec) {
    forall i :: 0 <= i < |sources| ==>
      sources[i].shim.inner.caps.aggregate
      || CapHarmless(sources[i].shim, RowsQuery(spec, sources[i].shim.maxRows))
  }

  /** Sources answer when no row they group makes a sum fail; they refuse for that, or for
      having too many rows. */
  predicate AskedRight<T>(answer: Result<T>, rows: seq<Row>, spec: AggSpec) {
    if answer.Ok? then !SumFails(rows, spec.measures)
    else answer.error == TooManyRows || (answer.error == TypeError && SumFails(rows, spec.measures))
  }

  /** Merging what the routed sources answer after `done` rows were grouped is grouping those
      rows and all the rest. */
  lemma {:induction false} MergedIsGrouped(u: Union, spec: AggSpec, split: Split, sources: seq<Source>, done: seq<Row>, merged: seq<Slot>)
    requires SplitFilter(u, spec.Effective()) == Ok(split) && SpecClear(u, spec)
    requires forall i :: 0 <= i < |sources| ==> sources[i].tag in u.Labels()
    requires BackendsHarmless(Route(sources, split), SourceSpec(u, spec, split))
    requires KeysTrue(merged, spec.groupBy) && RowsIn(merged) == Entries(done, spec.groupBy, spec.measures)
    ensures AskedRight(AskAggregates(Route(sources, split), SourceSpec(u, spec, split)),
                       ApplyFilter(Everything(u, sources), spec.Effective()), spec)
    ensures var results := AskAggregates(Route(sources, split), SourceSpec(u, spec, split));
            results.Ok? ==>
              RowsIn(MergeResults(u, merged, Route(sources, split), results.value, spec))
              == Entries(done + ApplyFilter(Everything(u, sources), spec.Effective()), spec.groupBy, spec.measures)
    decreases |sources|
  {
    hide SplitFilter, FilterClear, Entries, SumFails, CapHarmless, ShimAggregate, AggregateAnswer, ApplyFilter,
         MergeEntries, SourceSpec, Stamp, LabelAll, AliasesKeepKeys, KeysTrue, RowsIn;
    if sources == [] {
      NothingToGroup(spec);
      assert done + [] == done;
    } else {
      var s, inner := sources[0], SourceSpec(u, spec, split);
      var share := ApplyFilter(StampAll(u, s.Rows(), s.tag), spec.Effective());
      FilteredShare(u, s, spec, split);
      FilterConcat(StampAll(u, s.Rows(), s.tag), Everything(u, sources[1..]), spec.Effective());
      SumFailsConcat(share, ApplyFilter(Everything(u, sources[1..]), spec.Effective()), spec.measures);
      ConcatAssociative(done, share, ApplyFilter(Everything(u, sources[1..]), spec.Effective()));
      if Allowed(split, s.tag) {
        RouteTail(sources, split, inner);
        SourceShareGrouped(u, spec, split, s, done);
        var answer := ShimAggregate(s.shim, inner);
        if answer.Ok? {
          var labelled := LabelAll(u, spec, answer.value, s.tag);
          InsertAllIsMerge(merged, labelled, spec.groupBy, spec.measures);
          MergedIsGrouped(u, spec, split, sources[1..], done + share, InsertAll(merged, labelled, spec.groupBy, spec.measures));
        }
      } else {
        NothingToGroup(spec);
        assert done + share == done;
        MergedIsGrouped(u, spec, split, sources[1..], done, merged);
      }
    }
  }

  lemma NothingToGroup(spec: AggSpec)
    ensures ApplyFilter([], spec.Effective()) == [] && !SumFails([], spec.measures)
    ensures Entries([], spec.groupBy, spec.measures) == [] && Finish([], spec) == []
  {
  }

  lemma FilterConcat(a: seq<Row>, b: seq<Row>, f: Option<Filter>)
    ensures ApplyFilter(a + b, f) == ApplyFilter(a, f) + ApplyFilter(b, f)
  {
    KeepConcat(a, b, FilterTest(f));
  }

  lemma RouteTail(sources: seq<Source>, split: Split, spec: AggSpec)
    requires sources != [] && Allowed(split, sources[0].tag)
    requires BackendsHarmless(Route(sources, split), spec)
    ensures BackendsHarmless(Route(sources[1..], split), spec)
    ensures BackendsHarmless([sources[0]], spec)
  {
    hide CapHarmless;
    var rest := Route(sources[1..], split);
    forall i | 0 <= i < |rest|
      ensures rest[i].shim.inner.caps.aggregate || CapHarmless(rest[i].shim, RowsQuery(spec, rest[i].shim.maxRows))
    {
      assert Route(sources, split)[i + 1] == rest[i];
    }
    assert Route(sources, split)[0] == sources[0];
  }

  /** One allowed source: its refusal is too many rows or a real type error, and otherwise
      its labelled groups extend the merged ones by its share. */
  lemma SourceShareGrouped(u: Union, spec: AggSpec, split: Split, s: Source, done: seq<Row>)
    requires SplitFilter(u, spec.Effective()) == Ok(split) && SpecClear(u, spec)
    requires BackendsHarmless([s], SourceSpec(u, spec, split))
    ensures AskedRight(ShimAggregate(s.shim, SourceSpec(u, spec, split)),
                       StampAll(u, ApplyFilter(s.Rows(), Remaining(split)), s.tag), spec)
    ensures var answer := ShimAggregate(s.shim, SourceSpec(u, spec, split));
            var merged := Entries(done, spec.groupBy, spec.measures);
            answer.Ok? ==>
              MergeEntries(merged, LabelAll(u, spec, answer.value, s.tag), spec.groupBy, spec.measures)
              == Entries(done + StampAll(u, ApplyFilter(s.Rows(), Remaining(split)), s.tag), spec.groupBy, spec.measures)
  {
    hide Entries, SumFails, CapHarmless, ShimAggregate, AggregateAnswer, ApplyFilter, MergeEntries, Stamp, LabelAll;
    var inner := SourceSpec(u, spec, split);
    var kept := ApplyFilter(s.Rows(), Remaining(split));
    assert [s][0] == s;
    ShimAggregateExact(s.shim, inner);
    SourceEntries(u, s, spec, split);
    FailsUnderStamp(u, kept, s.tag, spec.measures);
    EntriesUnderStamp(u, spec, kept, s.tag);
    EntriesMerge(done, StampAll(u, kept, s.tag), spec.groupBy, spec.measures);
  }

  /** Aggregating over the union is aggregating over everything in it, stamped; or a refusal,
      which is of a misplaced source condition or of too many rows. */
  lemma UnionAggregateExact(u: Union, spec: AggSpec)
    requires SpecClear(u, spec)
    requires SplitFilter(u, spec.Effective()).Ok? ==>
               var split := SplitFilter(u, spec.Effective()).value;
               BackendsHarmless(Route(u.sources, split), SourceSpec(u, spec, split))
    ensures UnionAggregateAnswer(u, spec) == AggregateAnswer(Everything(u, u.sources), spec)
         || UnionAggregateAnswer(u, spec) == Refused(TooManyRows)
         || (UnionAggregateAnswer(u, spec) == Refused(UnsupportedOperation)
             && spec.Effective().Some? && !Placed(spec.Effective().value, u.sourceField))
  {
    hide SpecClear, FilterClear, Entries, SumFails, ApplyFilter, BackendsHarmless, Finish, SourceSpec, Everything,
         ShimAggregate, KeyOf;
    if SplitFilter(u, spec.Effective()).Ok? {
      var split := SplitFilter(u, spec.Effective()).value;
      LabelsOfAll(u);
      NothingToGroup(spec);
      MergedIsGrouped(u, spec, split, u.sources, [], []);
      var rest := ApplyFilter(Everything(u, u.sources), spec.Effective());
      assert [] + rest == rest;
    } else {
      SplitRefusesExactly(u, spec.Effective().value);
    }
  }

  predicate SomeRefuses(sources: seq<Source>, spec: AggSpec) {
    exists i :: 0 <= i < |sources| && ShimAggregate(sources[i].shim, spec).Refused?
  }

  lemma {:induction false} AskingRefuses(sources: seq<Source>, spec: AggSpec)
    ensures AskAggregates(sources, spec).Refused? <==> SomeRefuses(sources, spec)
  {
    hide ShimAggregate;
    if sources == [] {
    } else {
      var rest := sources[1..];
      AskingRefuses(rest, spec);
      if SomeRefuses(rest, spec) {
        var i :| 0 <= i < |rest| && ShimAggregate(rest[i].shim, spec).Refused?;
        assert ShimAggregate(sources[i + 1].shim, spec).Refused?;
      }
      if SomeRefuses(sources, spec) {
        var i :| 0 <= i < |sources| && ShimAggregate(sources[i].shim, spec).Refused?;
        if i > 0 { assert ShimAggregate(rest[i - 1].shim, spec).Refused?; }
      }
    }
  }

  /** It refuses exactly when the filter cannot be split or a source it must ask refuses. */
  lemma UnionAggregateRefusesExactly(u: Union, spec: AggSpec)
    ensures UnionAggregateAnswer(u, spec).Refused? <==>
      || (spec.Effective().Some? && !Placed(spec.Effective().value, u.sourceField))
      || (SplitFilter(u, spec.Effective()).Ok? && (
           var split := SplitFilter(u, spec.Effective()).value;
           SomeRefuses(Route(u.sources, split), SourceSpec(u, spec, split))))
  {
    hide ShimAggregate, SourceSpec, MergeResults, Finish, SomeRefuses;
    if spec.Effective().Some? { SplitRefusesExactly(u, spec.Effective().value); }
    if SplitFilter(u, spec.Effective()).Ok? {
      var split := SplitFilter(u, spec.Effective()).value;
      AskingRefuses(Route(u.sources, split), SourceSpec(u, spec, split));
    }
  }
}
