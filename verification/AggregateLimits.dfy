/** Where merging partial groups stops being grouping: a measure stored under the name of a
    field grouped by replaces the value the merge goes by. */
module AggregateLimits {
  import opened Values
  import opened Query
  import opened Sorting
  import opened LocalEngine
  import opened Aggregation
  import opened CapabilityShim
  import opened ShimExactness
  import opened UnionProvider
  import opened UnionExactness
  import opened UnionAggregate

  /** The partial rows of two collections, put into one dictionary. */
  function Merged(a: seq<Row>, b: seq<Row>, fields: seq<string>, measures: seq<Measure>): seq<Row> {
    RowsIn(InsertAll(InsertAll([], Entries(a, fields, measures), fields, measures),
                     Entries(b, fields, measures), fields, measures))
  }

  ghost predicate MergeExact(fields: seq<string>, measures: seq<Measure>) {
    forall a, b :: Merged(a, b, fields, measures) == Entries(a + b, fields, measures)
  }

  lemma SafeMergeExact(fields: seq<string>, measures: seq<Measure>)
    requires AliasesKeepKeys(fields, measures)
    ensures MergeExact(fields, measures)
  {
    hide AliasesKeepKeys, Entries, InsertAll, MergeEntries;
    forall a, b ensures Merged(a, b, fields, measures) == Entries(a + b, fields, measures) {
      InsertAllIsMerge([], Entries(a, fields, measures), fields, measures);
      InsertAllIsMerge(InsertAll([], Entries(a, fields, measures), fields, measures),
                       Entries(b, fields, measures), fields, measures);
      NoEntries(fields, measures);
      EntriesMerge([], a, fields, measures);
      EntriesMerge(a, b, fields, measures);
      assert [] + a == a;
    }
  }

  lemma NoEntries(fields: seq<string>, measures: seq<Measure>)
    ensures Entries([], fields, measures) == []
  {
  }

  // ----- two groups whose partial rows look alike -----

  function One(alias: string): Row { map[alias := Int(1)] }
  function Two(alias: string): Row { map[alias := Int(2)] }

  /** Rows of one key that a measure named after it cannot tell from `Two`: as many, or as much. */
  function Ones(m: Measure): Group {
    if m.agg.SUM? && m.field == m.alias then [One(m.alias), One(m.alias)] else [One(m.alias)]
  }

  lemma MeasuredAlike(m: Measure)
    requires !OwnExtreme(m, m.alias)
    ensures Compute(m, Ones(m)) == Compute(m, [Two(m.alias)])
  {
    var ones, twos := Ones(m), [Two(m.alias)];
    assert twos[1..] == [] && (|ones| == 2 ==> ones[1..] == [One(m.alias)] && ones[1..][1..] == []);
    assert |ones| == 1 ==> ones[1..] == [];
    if m.field == m.alias && m.agg.SUM? {
      assert ValuesOf(twos, m.field) == [Int(2)];
      assert ValuesOf(ones[1..], m.field) == [Int(1)];
      assert ValuesOf(ones, m.field) == [Int(1)] + [Int(1)];
      assert ([Int(1)] + [Int(1)])[1..] == [Int(1)] && [Int(1)][1..] == [] && [Int(2)][1..] == [];
      assert SumOf([]) == 0 && SumOf([Int(1)]) == 1 && SumOf([Int(2)]) == 2 && SumOf([Int(1)] + [Int(1)]) == 2;
    }
  }

  lemma OneMeasureEntry(group: Group, fields: seq<string>, m: Measure)
    ensures EntryOf(group, fields, [m]) == KeyEntry(group[0], fields)[m.alias := Compute(m, group)]
  {
    hide Compute;
    var entry := KeyEntry(group[0], fields)[m.alias := Compute(m, group)];
    assert [m][1..] == [] && WithMeasures(entry, [m][1..], group) == entry;
  }

  lemma AlikeEntries(fields: seq<string>, m: Measure)
    requires m.alias in fields && !OwnExtreme(m, m.alias)
    ensures EntryOf(Ones(m), fields, [m]) == EntryOf([Two(m.alias)], fields, [m])
  {
    hide Compute;
    MeasuredAlike(m);
    OneMeasureEntry(Ones(m), fields, m);
    OneMeasureEntry([Two(m.alias)], fields, m);
  }

  lemma KeysDiffer(fields: seq<string>, alias: string)
    requires alias in fields
    ensures !SameKey(One(alias), Two(alias), fields)
  {
    if SameKey(One(alias), Two(alias), fields) { SameKeyMeans(One(alias), Two(alias), fields, alias); }
  }

  lemma TheGroups(fields: seq<string>, m: Measure)
    requires m.alias in fields
    ensures Buckets(Ones(m), fields) == [Ones(m)] && Buckets([Two(m.alias)], fields) == [[Two(m.alias)]]
    ensures Buckets(Ones(m) + [Two(m.alias)], fields) == [Ones(m), [Two(m.alias)]]
  {
    hide KeyOf;
    var one, two, ones := One(m.alias), Two(m.alias), Ones(m);
    KeysDiffer(fields, m.alias);
    assert [one][..0] == [] && [two][..0] == [] && Buckets([], fields) == [];
    assert Buckets([one], fields) == [[one]] && Buckets([two], fields) == [[two]];
    assert |ones| == 2 ==> ones[..1] == [one] && [one] + [one] == ones;
    var all := ones + [two];
    assert all[..|all| - 1] == ones && all[|all| - 1] == two;
    assert [ones][1..] == [];
  }

  /** Two groups whose partial rows are equal become one. */
  lemma TwoBecomeOne(fields: seq<string>, m: Measure)
    requires m.alias in fields && !OwnExtreme(m, m.alias)
    ensures |Entries(Ones(m) + [Two(m.alias)], fields, [m])| == 2
    ensures |Merged(Ones(m), [Two(m.alias)], fields, [m])| == 1
  {
    TheGroups(fields, m);
    AlikeEntries(fields, m);
    hide Buckets, EntryOf, KeyOf, Ones, Two, One, Combine;
    var e := EntryOf(Ones(m), fields, [m]);
    assert [Ones(m), [Two(m.alias)]][1..] == [[Two(m.alias)]] && [[Two(m.alias)]][1..] == [] && [Ones(m)][1..] == [];
    assert EntriesOf([], fields, [m]) == [];
    assert EntriesOf([[Two(m.alias)]], fields, [m]) == [e];
    assert Entries(Ones(m) + [Two(m.alias)], fields, [m]) == [e, e];
    TwiceTheSame(e, fields, [m]);
  }

  lemma TwiceTheSame(e: Row, fields: seq<string>, measures: seq<Measure>)
    ensures |InsertAll([], [e, e], fields, measures)| == 1
    ensures |InsertAll(InsertAll([], [e], fields, measures), [e], fields, measures)| == 1
  {
    hide KeyOf, Combine;
    assert [e, e][1..] == [e] && [e][1..] == [];
    var first := Insert([], e, fields, measures);
    assert first[1..] == [] && |Insert(first, e, fields, measures)| == 1;
    assert InsertAll([], [e, e], fields, measures) == InsertAll(first, [e], fields, measures);
    assert InsertAll(first, [e], fields, measures) == Insert(first, e, fields, measures);
  }

  lemma OneMeasureKeepsKeys(fields: seq<string>, m: Measure)
    ensures AliasesKeepKeys(fields, [m]) <==> (m.alias in fields ==> OwnExtreme(m, m.alias))
  {
    assert [m][1..] == [];
    forall f ensures LastNamed([m], f) == if m.alias == f then Some(m) else None {
    }
  }

  /** For one measure, merging what two collections computed is computing it over both, whatever
      their rows, if and only if its alias is no group-by field or it is the least or greatest
      of that very field. */
  lemma MergeExactIff(fields: seq<string>, m: Measure)
    ensures MergeExact(fields, [m]) <==> (m.alias in fields ==> OwnExtreme(m, m.alias))
  {
    OneMeasureKeepsKeys(fields, m);
    if m.alias in fields && !OwnExtreme(m, m.alias) {
      TwoBecomeOne(fields, m);
    } else {
      SafeMergeExact(fields, [m]);
    }
  }

  // ----- the same over a whole union -----

  /** A source that groups its own rows. */
  predicate Groups(s: Source) {
    s.shim.inner.caps.aggregate
  }

  function Grouping(tag: string, rows: seq<Row>): Source {
    Source(tag, Shim(Inner(rows, Capabilities(true, true, true, true, true, true, {}, []), None, true, Always), [], 5000, 50000))
  }

  function Over(u: Union, sources: seq<Source>): Union {
    u.(sources := sources)
  }

  function Plain(fields: seq<string>, m: Measure): AggSpec {
    AggSpec(fields, [m], None, None, [], None)
  }

  predicate AnswersRight(u: Union, sources: seq<Source>, spec: AggSpec) {
    UnionAggregateAnswer(Over(u, sources), spec) == AggregateAnswer(Everything(Over(u, sources), sources), spec)
  }

  ghost predicate UnionGroupsExact(u: Union, spec: AggSpec) {
    forall sources :: (forall s :: s in sources ==> Groups(s)) ==> AnswersRight(u, sources, spec)
  }

  lemma {:induction false} GroupingSourcesRefuse(sources: seq<Source>, spec: AggSpec)
    requires forall s :: s in sources ==> Groups(s)
    ensures AskAggregates(sources, spec).Refused? ==> AskAggregates(sources, spec).error == TypeError
  {
    hide AggregateAnswer;
    if sources == [] {
    } else {
      GroupingSourcesRefuse(sources[1..], spec);
      assert Groups(sources[0]);
      AggregateRefusal(sources[0].Rows(), spec);
    }
  }

  lemma AggregateRefusal(rows: seq<Row>, spec: AggSpec)
    ensures AggregateAnswer(rows, spec).Refused? ==> AggregateAnswer(rows, spec).error == TypeError
  {
  }

  lemma {:induction false} RoutedToAll(sources: seq<Source>)
    ensures Route(sources, Split(None, [])) == sources
  {
    if sources == [] {
    } else {
      RoutedToAll(sources[1..]);
    }
  }

  /** Sources that group their rows, and no filter: never a refusal of the union's own. */
  lemma GroupingUnionExact(u: Union, sources: seq<Source>, fields: seq<string>, m: Measure)
    requires SpecClear(u, Plain(fields, m)) && forall s :: s in sources ==> Groups(s)
    ensures AnswersRight(u, sources, Plain(fields, m))
  {
    hide AskAggregates, AggregateAnswer, MergeResults, Finish, CapHarmless, AliasesKeepKeys;
    var w, spec, split := Over(u, sources), Plain(fields, m), Split(None, []);
    assert spec.Effective() == None;
    RoutedToAll(sources);
    assert BackendsHarmless(sources, SourceSpec(w, spec, split)) by {
      assert forall i :: 0 <= i < |sources| ==> Groups(sources[i]);
    }
    UnionAggregateExact(w, spec);
    GroupingSourcesRefuse(sources, SourceSpec(w, spec, split));
  }

  lemma GroupingAnswers(u: Union, s: Source, fields: seq<string>, m: Measure)
    requires Groups(s) && !SumFails(s.Rows(), [m])
    ensures ShimAggregate(s.shim, SourceSpec(u, Plain(fields, m), Split(None, [])))
         == Ok(Entries(s.Rows(), Without(fields, u.sourceField), [m]))
  {
    hide Entries, SumFails, ApplyFilter;
    NoFilterKeepsAll(s.Rows());
    SourceEntries(u, s, Plain(fields, m), Split(None, []));
  }

  /** What a union of one such source answers, and what it should. */
  lemma AloneAnswers(u: Union, rows: seq<Row>, fields: seq<string>, m: Measure)
    requires MeasureApart(u, m) && (u.prefixed ==> u.pk != u.sourceField) && !SumFails(rows, [m])
    ensures var spec := Plain(fields, m);
            var w := Over(u, [Grouping("a", rows)]);
            var entries := Entries(rows, Without(fields, u.sourceField), [m]);
            && UnionAggregateAnswer(w, spec) == Ok(RowsIn(InsertAll([], LabelAll(w, spec, entries, "a"), fields, [m])))
            && AggregateAnswer(Everything(w, w.sources), spec) == Ok(Entries(StampAll(w, rows, "a"), fields, [m]))
  {
    hide Entries, InsertAll, SumFails, LabelAll, Stamp, ApplyFilter;
    var w, spec, split, s := Over(u, [Grouping("a", rows)]), Plain(fields, m), Split(None, []), Grouping("a", rows);
    var inner := SourceSpec(w, spec, split);
    assert spec.Effective() == None && w.sources == [s] && [s][1..] == [];
    RoutedToAll([s]);
    NoFilterKeepsAll(StampAll(w, rows, "a"));
    GroupingAnswers(w, s, fields, m);
    FailsUnderStamp(w, rows, "a", [m]);
    assert AskAggregates([], inner) == Ok([]);
    var entries := Entries(rows, inner.groupBy, [m]);
    assert AskAggregates([s][1..], inner) == Ok([]) && [entries] + [] == [entries];
    assert AskAggregates([s], inner) == Ok([entries]);
    var merged := InsertAll([], LabelAll(w, spec, entries, "a"), fields, [m]);
    assert MergeResults(w, merged, [s][1..], [entries][1..], spec) == merged;
    assert MergeResults(w, [], [s], [entries], spec) == merged;
    NoKeysNoChange(RowsIn(merged));
    assert Everything(w, [s]) == StampAll(w, rows, "a") by {
      assert Everything(w, [s][1..]) == [] && StampAll(w, rows, "a") + [] == StampAll(w, rows, "a");
    }
    NoKeysNoChange(Entries(StampAll(w, rows, "a"), fields, [m]));
  }

  lemma NumbersDoNotFail(m: Measure)
    ensures !SumFails(Ones(m) + [Two(m.alias)], [m]) && !SumFails([map[]], [m])
  {
  }

  /** The two groups that look alike, in one source. */
  lemma UnionMergesTwo(u: Union, fields: seq<string>, m: Measure)
    requires MeasureApart(u, m) && (u.prefixed ==> u.pk != u.sourceField && u.pk !in fields)
    requires m.alias in fields && !OwnExtreme(m, m.alias) && m.alias != u.sourceField
    ensures var w := Over(u, [Grouping("a", Ones(m) + [Two(m.alias)])]);
            var got, right := UnionAggregateAnswer(w, Plain(fields, m)), AggregateAnswer(Everything(w, w.sources), Plain(fields, m));
            got.Ok? && right.Ok? && |got.value| == 1 && |right.value| == 2
    ensures !AnswersRight(u, [Grouping("a", Ones(m) + [Two(m.alias)])], Plain(fields, m))
  {
    hide AggregateAnswer, UnionAggregateAnswer, EntryOf, Insert, Label, Ones, SumFails, AddRow, KeyEntry;
    var rows, inner := Ones(m) + [Two(m.alias)], Without(fields, u.sourceField);
    var w, spec := Over(u, [Grouping("a", rows)]), Plain(fields, m);
    NumbersDoNotFail(m);
    AloneAnswers(u, rows, fields, m);
    WithoutIs(fields, u.sourceField, m.alias);
    TheGroups(inner, m);
    AlikeEntries(inner, m);
    var e := EntryOf(Ones(m), inner, [m]);
    assert [Ones(m), [Two(m.alias)]][1..] == [[Two(m.alias)]] && [[Two(m.alias)]][1..] == [];
    assert EntriesOf([[Two(m.alias)]], inner, [m]) == [e];
    assert Entries(rows, inner, [m]) == [e, e];
    var x := Label(w, spec, e, "a");
    assert [e, e][1..] == [e] && [e][1..] == [] && LabelAll(w, spec, [e], "a") == [x];
    assert LabelAll(w, spec, [e, e], "a") == [x, x];
    TwiceTheSame(x, fields, [m]);
    BucketsUnderStamp(w, rows, "a", fields);
    assert |StampGroups(w, [[Two(m.alias)]], "a")| == 1;
    assert |StampGroups(w, Buckets(rows, inner), "a")| == 2;
  }

  /** An alias that is the source column: the label is written over the measure. */
  lemma UnionOverwrites(u: Union, fields: seq<string>, m: Measure)
    requires MeasureApart(u, m) && (u.prefixed ==> u.pk != u.sourceField)
    requires m.alias in fields && m.alias == u.sourceField
    ensures !AnswersRight(u, [Grouping("a", [map[]])], Plain(fields, m))
  {
    hide AggregateAnswer, UnionAggregateAnswer, Compute, SumFails, EntryOf;
    var row: Row := map[];
    var inner := Without(fields, u.sourceField);
    var w, spec := Over(u, [Grouping("a", [row])]), Plain(fields, m);
    NumbersDoNotFail(m);
    AloneAnswers(u, [row], fields, m);
    OneRowGroup(row, inner, m);
    var stamped := Stamp(w, row, "a");
    assert [row][1..] == [] && StampAll(w, [row], "a") == [stamped];
    OneRowGroup(stamped, fields, m);
    var e := EntryOf([row], inner, [m]);
    var x := Label(w, spec, e, "a");
    assert [e][1..] == [] && LabelAll(w, spec, [e], "a") == [x];
    assert InsertAll([], [x], fields, [m]) == Insert([], x, fields, [m]);
    var got := RowsIn(InsertAll([], [x], fields, [m]));
    assert got[0] == x && x[u.sourceField] == Str("a");
    OneMeasureEntry([stamped], fields, m);
    ComputeUnderStamp(w, m, [row], "a");
    NothingMeasured(m);
  }

  lemma OneRowGroup(row: Row, fields: seq<string>, m: Measure)
    ensures Entries([row], fields, [m]) == [EntryOf([row], fields, [m])]
  {
    hide EntryOf;
    assert [row][..0] == [] && Buckets([], fields) == [] && Buckets([row], fields) == [[row]];
    assert [[row]][1..] == [] && EntriesOf([], fields, [m]) == [];
  }

  lemma NothingMeasured(m: Measure)
    ensures !Compute(m, [map[]]).Str?
  {
    var row: Row := map[];
    assert [row][1..] == [];
    assert ValuesOf([row], m.field) == [];
  }

  /** A union of sources that group their own rows answers one measure right, whatever sources
      and rows, if and only if its alias is no group-by field or it is the least or greatest of
      that very field. */
  lemma UnionGroupsExactIff(u: Union, fields: seq<string>, m: Measure)
    requires MeasureApart(u, m) && (u.prefixed ==> u.pk != u.sourceField && u.pk !in fields)
    ensures UnionGroupsExact(u, Plain(fields, m)) <==> (m.alias in fields ==> OwnExtreme(m, m.alias))
  {
    hide AnswersRight, MeasureApart;
    OneMeasureKeepsKeys(fields, m);
    if m.alias in fields && !OwnExtreme(m, m.alias) {
      if m.alias == u.sourceField {
        UnionOverwrites(u, fields, m);
        assert Groups(Grouping("a", [map[]]));
      } else {
        UnionMergesTwo(u, fields, m);
        assert Groups(Grouping("a", Ones(m) + [Two(m.alias)]));
      }
    } else {
      forall sources | forall s :: s in sources ==> Groups(s) ensures AnswersRight(u, sources, Plain(fields, m)) {
        GroupingUnionExact(u, sources, fields, m);
      }
    }
  }

  // ----- a concrete union -----

  const COUNTED := Measure(COUNT, "", "kind")
  const CLASH := Union([Grouping("a", [map["kind" := Str("x")]]), Grouping("b", [map["kind" := Str("y")]])],
                       "id", "source", false, 5000)

  lemma OneCounted(row: Row)
    ensures Entries([row], ["kind"], [COUNTED]) == [map["kind" := Int(1)]]
    ensures !SumFails([row], [COUNTED])
  {
    OneRowGroup(row, ["kind"], COUNTED);
    OneMeasureEntry([row], ["kind"], COUNTED);
    assert Compute(COUNTED, [row]) == Int(1);
    assert KeyEntry(row, ["kind"])["kind" := Int(1)] == map["kind" := Int(1)];
  }

  /** A count under the name of its own group field: two groups in two sources, and the union
      answers with one. */
  lemma AliasClash()
    ensures UnionAggregateAnswer(CLASH, Plain(["kind"], COUNTED)) == Ok([map["kind" := Int(2)]])
    ensures AggregateAnswer(Everything(CLASH, CLASH.sources), Plain(["kind"], COUNTED))
         == Ok([map["kind" := Int(1)], map["kind" := Int(1)]])
  {
    ClashAnswer();
    ClashReference();
  }

  lemma CountsAdd(one: Row, two: Row)
    requires one == map["kind" := Int(1)] && two == map["kind" := Int(2)]
    ensures InsertAll([], [one], ["kind"], [COUNTED]) == [Slot([Int(1)], one)]
    ensures InsertAll([Slot([Int(1)], one)], [one], ["kind"], [COUNTED]) == [Slot([Int(1)], two)]
  {
    var first := Slot([Int(1)], one);
    assert ["kind"][1..] == [] && KeyOf(one, ["kind"]) == [Int(1)];
    assert [one][1..] == [] && [first][1..] == [];
    assert CombineValue(COUNTED, Int(1), Int(1)) == Int(2) && one["kind" := Int(2)] == two;
    assert [COUNTED][1..] == [] && CombineFrom(two, one, one, []) == two;
    assert Combine(one, one, [COUNTED]) == two;
  }

  lemma ClashAnswer()
    ensures UnionAggregateAnswer(CLASH, Plain(["kind"], COUNTED)) == Ok([map["kind" := Int(2)]])
  {
    hide ShimAggregate, Entries, SumFails, InsertAll;
    var a, b, spec, split := CLASH.sources[0], CLASH.sources[1], Plain(["kind"], COUNTED), Split(None, []);
    var inner := SourceSpec(CLASH, spec, split);
    var e: Row, two: Row := map["kind" := Int(1)], map["kind" := Int(2)];
    OneCounted(map["kind" := Str("x")]);
    OneCounted(map["kind" := Str("y")]);
    GroupingAnswers(CLASH, a, ["kind"], COUNTED);
    GroupingAnswers(CLASH, b, ["kind"], COUNTED);
    assert ["kind"][1..] == [] && Without(["kind"], "source") == ["kind"];
    RoutedToAll(CLASH.sources);
    assert spec.Effective() == None && CLASH.sources[1..] == [b] && [b][1..] == [];
    assert AskAggregates([], inner) == Ok([]) && AskAggregates([b], inner) == Ok([[e]] + []);
    assert AskAggregates(CLASH.sources, inner) == Ok([[e]] + ([[e]] + [])) && [[e]] + ([[e]] + []) == [[e], [e]];
    assert [e][1..] == [] && LabelAll(CLASH, spec, [e], "a") == [e] && LabelAll(CLASH, spec, [e], "b") == [e];
    var first, both := Slot([Int(1)], e), Slot([Int(1)], two);
    CountsAdd(e, two);
    assert [[e], [e]][1..] == [[e]] && [[e]][1..] == [];
    assert MergeResults(CLASH, [first], [b], [[e]], spec) == [both];
    assert MergeResults(CLASH, [], CLASH.sources, [[e], [e]], spec) == [both];
    assert RowsIn([both]) == [two] by { assert [both][1..] == []; }
    NoKeysNoChange([two]);
  }

  lemma TwoKinds(x: Row, y: Row)
    requires "kind" in x && "kind" in y && x["kind"] == Str("x") && y["kind"] == Str("y")
    ensures Entries([x, y], ["kind"], [COUNTED]) == [map["kind" := Int(1)], map["kind" := Int(1)]]
  {
    hide EntryOf, Canonical;
    OneCounted(x);
    OneCounted(y);
    if SameKey(x, y, ["kind"]) { SameKeyMeans(x, y, ["kind"], "kind"); KindsDiffer(); }
    assert [x, y][..1] == [x] && [x][..0] == [] && [y][..0] == [] && Buckets([], ["kind"]) == [];
    assert Buckets([x], ["kind"]) == [[x]] && Buckets([y], ["kind"]) == [[y]];
    assert [[x]][1..] == [] && Buckets([x, y], ["kind"]) == [[x], [y]] == [[x]] + [[y]];
    EntriesConcat([[x]], [[y]], ["kind"], [COUNTED]);
  }

  lemma KindsDiffer()
    ensures Canonical(Str("x")) != Canonical(Str("y"))
  {
  }

  lemma ClashRows(x: Row, y: Row)
    requires x == Stamp(CLASH, map["kind" := Str("x")], "a") && y == Stamp(CLASH, map["kind" := Str("y")], "b")
    ensures Everything(CLASH, CLASH.sources) == [x, y]
  {
    hide Stamp;
    var a, b := CLASH.sources[0], CLASH.sources[1];
    assert a.Rows()[1..] == [] && b.Rows()[1..] == [] && CLASH.sources[1..] == [b] && [b][1..] == [];
    assert StampAll(CLASH, a.Rows(), "a") == [x] && StampAll(CLASH, b.Rows(), "b") == [y];
    assert Everything(CLASH, [b]) == [y];
  }

  lemma ClashReference()
    ensures AggregateAnswer(Everything(CLASH, CLASH.sources), Plain(["kind"], COUNTED))
         == Ok([map["kind" := Int(1)], map["kind" := Int(1)]])
  {
    var spec := Plain(["kind"], COUNTED);
    var x, y := Stamp(CLASH, map["kind" := Str("x")], "a"), Stamp(CLASH, map["kind" := Str("y")], "b");
    ClashRows(x, y);
    TwoKinds(x, y);
    hide Entries, Everything, Stamp;
    assert spec.Effective() == None;
    NoFilterKeepsAll([x, y]);
    OneCounted(x);
    OneCounted(y);
    SumFailsConcat([x], [y], [COUNTED]);
    assert [x] + [y] == [x, y];
    NoKeysNoChange([map["kind" := Int(1)], map["kind" := Int(1)]]);
  }
}
