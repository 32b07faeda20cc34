/** Grouping rows and computing measures, and folding partial results together.
    COUNT, SUM, MIN and MAX; sums are over integers. */
module Aggregation {
  import opened Values
  import opened Query
  import opened Sorting
  import opened LocalEngine

  datatype Agg = COUNT | SUM | MIN | MAX
  datatype Measure = Measure(agg: Agg, field: string, alias: string)

  datatype AggSpec = AggSpec(
    groupBy: seq<string>, measures: seq<Measure>,
    filter: Option<Filter>, scope: Option<Filter>, sort: seq<Sort>, limit: Option<nat>)
  {
    function Effective(): Option<Filter> {
      AndOf(Present(filter) + Present(scope))
    }
  }

  /** The rows of one group; a group exists because some row opened it. */
  type Group = g: seq<Row> | g != [] witness [map[]]

  // ----- group keys -----

  /** Two keys are one dictionary key when they are equal, and True equals 1. */
  function Canonical(v: Value): Value {
    if v.Bool? then Int(AsInt(v)) else v
  }

  /** The tuple of group-by values as a dictionary sees it. */
  function KeyOf(row: Row, fields: seq<string>): seq<Value> {
    if fields == [] then []
    else [Canonical(GetOrNull(row, fields[0]))] + KeyOf(row, fields[1..])
  }

  predicate SameKey(a: Row, b: Row, fields: seq<string>) {
    KeyOf(a, fields) == KeyOf(b, fields)
  }

  lemma {:induction false} KeyDependsOnFields(a: Row, b: Row, fields: seq<string>)
    requires forall f :: f in fields ==> Canonical(GetOrNull(a, f)) == Canonical(GetOrNull(b, f))
    ensures KeyOf(a, fields) == KeyOf(b, fields)
  {
    if fields == [] {
    } else {
      assert forall f :: f in fields[1..] ==> f in fields;
      KeyDependsOnFields(a, b, fields[1..]);
    }
  }

  lemma {:induction false} SameKeyMeans(a: Row, b: Row, fields: seq<string>, f: string)
    requires SameKey(a, b, fields) && f in fields
    ensures Canonical(GetOrNull(a, f)) == Canonical(GetOrNull(b, f))
  {
    assert KeyOf(a, fields)[0] == KeyOf(b, fields)[0] && KeyOf(a, fields)[1..] == KeyOf(b, fields)[1..];
    if f != fields[0] { SameKeyMeans(a, b, fields[1..], f); }
  }

  /** Rows have one key exactly when they are equal in every field grouped by, a missing value
      being a null and True being 1. */
  lemma SameKeyIff(a: Row, b: Row, fields: seq<string>)
    ensures SameKey(a, b, fields) <==> forall f :: f in fields ==> PyEq(GetOrNull(a, f), GetOrNull(b, f))
  {
    if SameKey(a, b, fields) {
      forall f | f in fields ensures PyEq(GetOrNull(a, f), GetOrNull(b, f)) { SameKeyMeans(a, b, fields, f); }
    }
    if forall f :: f in fields ==> PyEq(GetOrNull(a, f), GetOrNull(b, f)) {
      KeyDependsOnFields(a, b, fields);
    }
  }

  // ----- measures -----

  /** The values of a field that are present and not null. */
  function ValuesOf(rows: seq<Row>, field: string): (vs: seq<Value>)
    ensures forall v :: v in vs ==> !v.Null?
  {
    if rows == [] then []
    else (if GetOrNull(rows[0], field).Null? then [] else [rows[0][field]]) + ValuesOf(rows[1..], field)
  }

  function Number(v: Value): int {
    if IsNumber(v) then AsInt(v) else 0
  }

  function SumOf(vs: seq<Value>): int {
    if vs == [] then 0 else Number(vs[0]) + SumOf(vs[1..])
  }

  /** The first of the least values. */
  function Smaller(a: Value, b: Value): Value {
    if KeyLess(b, a) then b else a
  }

  /** The first of the greatest values. */
  function Larger(a: Value, b: Value): Value {
    if KeyLess(a, b) then b else a
  }

  function LeastOf(vs: seq<Value>): Value
    requires vs != []
  {
    if |vs| == 1 then vs[0] else Smaller(vs[0], LeastOf(vs[1..]))
  }

  function GreatestOf(vs: seq<Value>): Value
    requires vs != []
  {
    if |vs| == 1 then vs[0] else Larger(vs[0], GreatestOf(vs[1..]))
  }

  /** The value at a place is the first of the least (or greatest) ones. */
  predicate FirstLeast(vs: seq<Value>, i: nat) {
    && i < |vs|
    && (forall j :: 0 <= j < |vs| ==> !KeyLess(vs[j], vs[i]))
    && (forall j :: 0 <= j < i ==> KeyLess(vs[i], vs[j]))
  }

  predicate FirstGreatest(vs: seq<Value>, i: nat) {
    && i < |vs|
    && (forall j :: 0 <= j < |vs| ==> !KeyLess(vs[i], vs[j]))
    && (forall j :: 0 <= j < i ==> KeyLess(vs[j], vs[i]))
  }

  lemma {:induction false} LeastIsFirst(vs: seq<Value>) returns (i: nat)
    requires vs != []
    ensures FirstLeast(vs, i) && LeastOf(vs) == vs[i]
  {
    i := 0;
    KeyLessAsymmetric(vs[0], vs[0]);
    if |vs| > 1 {
      var k := LeastIsFirst(vs[1..]);
      var least := vs[k + 1];
      assert forall j :: 0 < j < |vs| ==> vs[j] == vs[1..][j - 1];
      KeyLessAsymmetric(least, vs[0]);
      forall j | 0 < j < |vs| ensures KeyLess(vs[j], vs[0]) ==> KeyLess(least, vs[0]) {
        if KeyLess(vs[j], vs[0]) { KeyLessNegativelyTransitive(vs[j], least, vs[0]); }
      }
      if KeyLess(least, vs[0]) { i := k + 1; }
    }
  }

  lemma {:induction false} GreatestIsFirst(vs: seq<Value>) returns (i: nat)
    requires vs != []
    ensures FirstGreatest(vs, i) && GreatestOf(vs) == vs[i]
  {
    i := 0;
    KeyLessAsymmetric(vs[0], vs[0]);
    if |vs| > 1 {
      var k := GreatestIsFirst(vs[1..]);
      var greatest := vs[k + 1];
      assert forall j :: 0 < j < |vs| ==> vs[j] == vs[1..][j - 1];
      KeyLessAsymmetric(greatest, vs[0]);
      forall j | 0 < j < |vs| ensures KeyLess(vs[0], vs[j]) ==> KeyLess(vs[0], greatest) {
        if KeyLess(vs[0], vs[j]) { KeyLessNegativelyTransitive(vs[0], greatest, vs[j]); }
      }
      if KeyLess(vs[0], greatest) { i := k + 1; }
    }
  }

  function Compute(m: Measure, group: seq<Row>): Value {
    if m.agg.COUNT? then Int(|group|)
    else
      var vs := ValuesOf(group, m.field);
      if vs == [] then Null
      else match m.agg
        case SUM => Int(SumOf(vs))
        case MIN => LeastOf(vs)
        case _ => GreatestOf(vs)
  }

  predicate IsExtreme(agg: Agg, vs: seq<Value>, i: nat) {
    i < |vs| && if agg.MIN? then FirstLeast(vs, i) else FirstGreatest(vs, i)
  }

  /** MIN and MAX are the first least and the first greatest of a group's values, null only when
      it has none. */
  lemma ExtremesAreFirst(m: Measure, group: seq<Row>)
    requires m.agg.MIN? || m.agg.MAX?
    ensures var vs := ValuesOf(group, m.field);
      && (vs == [] <==> Compute(m, group).Null?)
      && (vs != [] ==> exists i: nat :: IsExtreme(m.agg, vs, i) && Compute(m, group) == vs[i])
  {
    var vs := ValuesOf(group, m.field);
    if vs != [] {
      var i := LeastIsFirst(vs);
      var k := GreatestIsFirst(vs);
      assert vs[i] in vs && vs[k] in vs;
      assert m.agg.MIN? ==> IsExtreme(m.agg, vs, i);
      assert m.agg.MAX? ==> IsExtreme(m.agg, vs, k);
    }
  }

  /** What one row contributes: one to a count, and its own number, or its own value. */
  lemma MeasureOfOneRow(m: Measure, row: Row)
    ensures m.agg.COUNT? ==> Compute(m, [row]) == Int(1)
    ensures !m.agg.COUNT? && GetOrNull(row, m.field).Null? ==> Compute(m, [row]) == Null
    ensures m.agg.SUM? && m.field in row && row[m.field].Int? ==> Compute(m, [row]) == Int(row[m.field].i)
    ensures m.agg.SUM? && m.field in row && row[m.field].Bool? ==> Compute(m, [row]) == Int(if row[m.field].b then 1 else 0)
    ensures (m.agg.MIN? || m.agg.MAX?) && m.field in row ==> Compute(m, [row]) == row[m.field]
  {
    assert [row][1..] == [] && ValuesOf([], m.field) == [];
    if !GetOrNull(row, m.field).Null? {
      assert ValuesOf([row], m.field) == [row[m.field]];
      assert [row[m.field]][1..] == [] && SumOf([]) == 0;
    }
  }

  // ----- one result row per group -----

  /** Writing each measure under its alias, in order, so that the last of two measures with
      one alias stays. */
  function WithMeasures(entry: Row, measures: seq<Measure>, group: seq<Row>): Row
    decreases |measures|
  {
    if measures == [] then entry
    else WithMeasures(entry[measures[0].alias := Compute(measures[0], group)], measures[1..], group)
  }

  /** dict(zip(fields, key)), the key being that of the group's first row. */
  function KeyEntry(first: Row, fields: seq<string>): Row {
    map f | f in fields :: GetOrNull(first, f)
  }

  function EntryOf(group: Group, fields: seq<string>, measures: seq<Measure>): Row {
    WithMeasures(KeyEntry(group[0], fields), measures, group)
  }

  /** The measure an alias finally names. */
  function LastNamed(measures: seq<Measure>, alias: string): Option<Measure> {
    if measures == [] then None
    else
      var later := LastNamed(measures[1..], alias);
      if later.Some? then later
      else if measures[0].alias == alias then Some(measures[0]) else None
  }

  function Aliases(measures: seq<Measure>): set<string> {
    set i | 0 <= i < |measures| :: measures[i].alias
  }

  lemma {:induction false} LastNamedExists(measures: seq<Measure>, alias: string)
    ensures LastNamed(measures, alias).Some? <==> alias in Aliases(measures)
    ensures LastNamed(measures, alias).Some? ==> LastNamed(measures, alias).value in measures
  {
    if measures == [] {
    } else {
      LastNamedExists(measures[1..], alias);
      assert measures == [measures[0]] + measures[1..];
      if alias in Aliases(measures[1..]) {
        var i :| 0 <= i < |measures[1..]| && measures[1..][i].alias == alias;
        assert measures[i + 1].alias == alias;
      }
    }
  }

  /** The first measure named is the last one named exactly when the later ones do not name it. */
  lemma LastNamedStep(measures: seq<Measure>, k: string)
    requires measures != []
    ensures LastNamed(measures, k) == if k in Aliases(measures[1..]) then LastNamed(measures[1..], k)
                                      else if measures[0].alias == k then Some(measures[0]) else None
    ensures Aliases(measures) == {measures[0].alias} + Aliases(measures[1..])
  {
    LastNamedExists(measures[1..], k);
    assert measures == [measures[0]] + measures[1..];
  }

  /** Every measure stands under its alias, the last of one name; the key's fields stay. */
  lemma {:induction false} WithMeasuresAt(entry: Row, measures: seq<Measure>, group: seq<Row>, k: string)
    ensures k in WithMeasures(entry, measures, group) <==> k in entry || k in Aliases(measures)
    ensures k in WithMeasures(entry, measures, group) ==>
              WithMeasures(entry, measures, group)[k] ==
              if LastNamed(measures, k).Some? then Compute(LastNamed(measures, k).value, group) else GetOrNull(entry, k)
    decreases |measures|
  {
    hide Compute, LastNamed, Aliases;
    LastNamedExists(measures, k);
    if measures == [] {
      NothingNamed(k);
    } else {
      LastNamedStep(measures, k);
      WithMeasuresAt(entry[measures[0].alias := Compute(measures[0], group)], measures[1..], group, k);
      LastNamedExists(measures[1..], k);
    }
  }

  lemma NothingNamed(k: string)
    ensures LastNamed([], k) == None && Aliases([]) == {}
  {
  }

  lemma WithMeasuresIs(entry: Row, measures: seq<Measure>, group: seq<Row>)
    ensures WithMeasures(entry, measures, group).Keys == entry.Keys + Aliases(measures)
    ensures forall k :: k in entry.Keys + Aliases(measures) ==>
              WithMeasures(entry, measures, group)[k] ==
              if LastNamed(measures, k).Some? then Compute(LastNamed(measures, k).value, group) else GetOrNull(entry, k)
  {
    hide Compute, LastNamed, Aliases, WithMeasures;
    forall k
      ensures k in WithMeasures(entry, measures, group) <==> k in entry || k in Aliases(measures)
      ensures k in WithMeasures(entry, measures, group) ==>
                WithMeasures(entry, measures, group)[k] ==
                if LastNamed(measures, k).Some? then Compute(LastNamed(measures, k).value, group) else GetOrNull(entry, k)
    {
      WithMeasuresAt(entry, measures, group, k);
    }
  }

  // ----- grouping -----

  /** buckets.setdefault(key, []).append(row) */
  function AddRow(buckets: seq<Group>, row: Row, fields: seq<string>): (r: seq<Group>)
  {
    if buckets == [] then [[row]]
    else if SameKey(buckets[0][0], row, fields) then [buckets[0] + [row]] + buckets[1..]
    else [buckets[0]] + AddRow(buckets[1..], row, fields)
  }

  /** The groups in order of first appearance. */
  function Buckets(rows: seq<Row>, fields: seq<string>): (r: seq<Group>)
  {
    if rows == [] then [] else AddRow(Buckets(rows[..|rows| - 1], fields), rows[|rows| - 1], fields)
  }

  function EntriesOf(buckets: seq<Group>, fields: seq<string>, measures: seq<Measure>): (es: seq<Row>)
    ensures |es| == |buckets|
  {
    if buckets == [] then []
    else [EntryOf(buckets[0], fields, measures)] + EntriesOf(buckets[1..], fields, measures)
  }

  function Entries(rows: seq<Row>, fields: seq<string>, measures: seq<Measure>): seq<Row> {
    EntriesOf(Buckets(rows, fields), fields, measures)
  }

  /** Summing a text value is a TypeError. */
  predicate RowFails(row: Row, measures: seq<Measure>) {
    exists j :: 0 <= j < |measures| && measures[j].agg.SUM? && GetOrNull(row, measures[j].field).Str?
  }

  predicate SumFails(rows: seq<Row>, measures: seq<Measure>) {
    exists r :: r in rows && RowFails(r, measures)
  }

  function AggregateAnswer(rows: seq<Row>, spec: AggSpec): Result<seq<Row>> {
    var kept := ApplyFilter(rows, spec.Effective());
    if SumFails(kept, spec.measures) then Refused(TypeError)
    else Ok(Finish(Entries(kept, spec.groupBy, spec.measures), spec))
  }

  /** Ordering and limiting, which come after every group is known. */
  function Finish(entries: seq<Row>, spec: AggSpec): seq<Row> {
    var sorted := SortRows(entries, spec.sort);
    if spec.limit.Some? then Take(sorted, spec.limit.value) else sorted
  }

  /** The answer is a refusal exactly when a row that passes the filter has text to be summed. */
  lemma AggregateRefusesIff(rows: seq<Row>, spec: AggSpec)
    ensures AggregateAnswer(rows, spec).Refused? <==>
      exists r: Row, m: Measure :: r in rows && m in spec.measures && MatchAll(r, spec.Effective())
                     && m.agg.SUM? && m.field in r && r[m.field].Str?
    ensures AggregateAnswer(rows, spec).Refused? ==> AggregateAnswer(rows, spec).error == TypeError
  {
    var p := FilterTest(spec.Effective());
    forall r ensures r in ApplyFilter(rows, spec.Effective()) <==> r in rows && MatchAll(r, spec.Effective()) {
      KeepMember(rows, p, r);
    }
    hide ApplyFilter, MatchAll, Entries, Finish;
    if exists r: Row, m: Measure :: r in rows && m in spec.measures && MatchAll(r, spec.Effective())
                      && m.agg.SUM? && m.field in r && r[m.field].Str? {
      var r: Row, m: Measure :| r in rows && m in spec.measures && MatchAll(r, spec.Effective())
                  && m.agg.SUM? && m.field in r && r[m.field].Str?;
      var j :| 0 <= j < |spec.measures| && spec.measures[j] == m;
      assert RowFails(r, spec.measures);
    }
  }

  /** What is served of the groups: of any stable sort of them the first `limit`. */
  lemma FinishKeepsFirst(entries: seq<Row>, spec: AggSpec, sorted: seq<Row>)
    requires StablySorted(entries, sorted, spec.sort)
    ensures Finish(entries, spec) == sorted[..if spec.limit.Some? && spec.limit.value < |sorted| then spec.limit.value else |sorted|]
  {
    SortIsStable(entries, spec.sort);
    StableSortUnique(entries, sorted, SortRows(entries, spec.sort), spec.sort);
  }

  method RunAggregate(rows: seq<Row>, spec: AggSpec) returns (r: Result<seq<Row>>)
    ensures r == AggregateAnswer(rows, spec)
  {
    hide ApplyFilter, SumFails, EntryOf, SortRows, AddRow;
    var kept := ApplyFilter(rows, spec.Effective());
    var buckets: seq<Group> := [];
    for i := 0 to |kept|
      invariant buckets == Buckets(kept[..i], spec.groupBy)
    {
      buckets := AddRow(buckets, kept[i], spec.groupBy);
      assert kept[..i + 1][..i] == kept[..i];
    }
    assert kept[..|kept|] == kept;
    var out: seq<Row> := [];
    for i := 0 to |buckets|
      invariant out == EntriesOf(buckets[..i], spec.groupBy, spec.measures)
      invariant forall k :: 0 <= k < i ==> !SumFails(buckets[k], spec.measures)
    {
      if SumFails(buckets[i], spec.measures) {
        BucketsFail(kept, spec.groupBy, spec.measures);
        return Refused(TypeError);
      }
      out := out + [EntryOf(buckets[i], spec.groupBy, spec.measures)];
      assert buckets[..i + 1] == buckets[..i] + [buckets[i]];
      EntriesConcat(buckets[..i], [buckets[i]], spec.groupBy, spec.measures);
    }
    assert buckets[..|buckets|] == buckets;
    BucketsFail(kept, spec.groupBy, spec.measures);
    var sorted := ApplySort(out, spec.sort);
    return Ok(if spec.limit.Some? then Take(sorted, spec.limit.value) else sorted);
  }

  lemma {:induction false} EntriesConcat(a: seq<Group>, b: seq<Group>, fields: seq<string>, measures: seq<Measure>)
    ensures EntriesOf(a + b, fields, measures) == EntriesOf(a, fields, measures) + EntriesOf(b, fields, measures)
  {
    if a == [] {
      assert a + b == b;
    } else {
      assert (a + b)[0] == a[0] && (a + b)[1..] == a[1..] + b;
      EntriesConcat(a[1..], b, fields, measures);
    }
  }

  // ----- what grouping means -----

  function InGroupOf(x: Row, fields: seq<string>): Row -> bool {
    (r: Row) => SameKey(x, r, fields)
  }

  /** The rows that are the first with their key. */
  function Firsts(rows: seq<Row>, fields: seq<string>): seq<Row> {
    if rows == [] then []
    else
      var before, last := rows[..|rows| - 1], rows[|rows| - 1];
      Firsts(before, fields) + (if Keep(before, InGroupOf(last, fields)) == [] then [last] else [])
  }

  predicate InSomeBucket(buckets: seq<Group>, r: Row) {
    exists i :: 0 <= i < |buckets| && r in buckets[i]
  }

  ghost predicate BucketsHold(buckets: seq<Group>, rows: seq<Row>, fields: seq<string>) {
    forall i :: 0 <= i < |buckets| ==> buckets[i] == Keep(rows, InGroupOf(buckets[i][0], fields))
  }

  ghost predicate BucketsDiffer(buckets: seq<Group>, fields: seq<string>) {
    forall i, j :: 0 <= i < j < |buckets| ==> !SameKey(buckets[i][0], buckets[j][0], fields)
  }

  ghost predicate BucketsCover(buckets: seq<Group>, rows: seq<Row>) {
    forall r :: r in rows ==> InSomeBucket(buckets, r)
  }

  ghost predicate GroupsOf(buckets: seq<Group>, rows: seq<Row>, fields: seq<string>) {
    BucketsHold(buckets, rows, fields) && BucketsDiffer(buckets, fields) && BucketsCover(buckets, rows)
  }

  /** Adding a row extends the one bucket with its key, or opens a new last one. */
  lemma {:induction false} AddRowShape(buckets: seq<Group>, row: Row, fields: seq<string>) returns (at: nat)
    ensures at <= |buckets|
    ensures forall i :: 0 <= i < at ==> !SameKey(buckets[i][0], row, fields)
    ensures at < |buckets| ==> SameKey(buckets[at][0], row, fields)
    ensures AddRow(buckets, row, fields)
         == if at == |buckets| then buckets + [[row]] else buckets[at := buckets[at] + [row]]
  {
    if buckets == [] || SameKey(buckets[0][0], row, fields) {
      at := 0;
    } else {
      var k := AddRowShape(buckets[1..], row, fields);
      at := k + 1;
    }
  }

  lemma KeepLast(rows: seq<Row>, row: Row, p: Row -> bool)
    ensures Keep(rows + [row], p) == Keep(rows, p) + (if p(row) then [row] else [])
  {
    KeepConcat(rows, [row], p);
  }

  /** A row whose key has a bucket has company in the rows seen so far, and otherwise none. */
  lemma BucketOrNone(buckets: seq<Group>, rows: seq<Row>, row: Row, fields: seq<string>, at: nat)
    requires GroupsOf(buckets, rows, fields) && at <= |buckets|
    requires forall i :: 0 <= i < at ==> !SameKey(buckets[i][0], row, fields)
    requires at < |buckets| ==> SameKey(buckets[at][0], row, fields)
    ensures at == |buckets| <==> Keep(rows, InGroupOf(row, fields)) == []
  {
    var p := InGroupOf(row, fields);
    if at == |buckets| {
      forall k | 0 <= k < |rows| ensures !p(rows[k]) {
        assert InSomeBucket(buckets, rows[k]);
        var i :| 0 <= i < |buckets| && rows[k] in buckets[i];
        KeepMember(rows, InGroupOf(buckets[i][0], fields), rows[k]);
      }
      KeepNone(rows, p);
    } else {
      var first := buckets[at][0];
      assert first in buckets[at];
      KeepMember(rows, InGroupOf(first, fields), first);
      KeepMember(rows, p, first);
    }
  }

  lemma AddRowHolds(buckets: seq<Group>, rows: seq<Row>, row: Row, fields: seq<string>)
    requires GroupsOf(buckets, rows, fields)
    ensures BucketsHold(AddRow(buckets, row, fields), rows + [row], fields)
    ensures |AddRow(buckets, row, fields)| == |buckets| <==> Keep(rows, InGroupOf(row, fields)) != []
  {
    var at := AddRowShape(buckets, row, fields);
    var after := AddRow(buckets, row, fields);
    BucketOrNone(buckets, rows, row, fields, at);
    forall i | 0 <= i < |after| ensures after[i] == Keep(rows + [row], InGroupOf(after[i][0], fields)) {
      if i < |buckets| {
        assert after[i][0] == buckets[i][0];
        assert i != at ==> !SameKey(buckets[i][0], row, fields);
        KeepLast(rows, row, InGroupOf(buckets[i][0], fields));
      } else {
        KeepLast(rows, row, InGroupOf(row, fields));
      }
    }
  }

  lemma AddRowCovers(buckets: seq<Group>, rows: seq<Row>, row: Row, fields: seq<string>)
    requires GroupsOf(buckets, rows, fields)
    ensures BucketsCover(AddRow(buckets, row, fields), rows + [row])
    ensures BucketsDiffer(AddRow(buckets, row, fields), fields)
  {
    hide AddRow, SameKey;
    var at := AddRowShape(buckets, row, fields);
    var after := AddRow(buckets, row, fields);
    forall r | r in rows + [row] ensures InSomeBucket(after, r) {
      if r in rows {
        assert InSomeBucket(buckets, r);
        var i :| 0 <= i < |buckets| && r in buckets[i];
        assert r in after[i];
      } else {
        assert row in after[at];
      }
    }
    forall i, j | 0 <= i < j < |after| ensures !SameKey(after[i][0], after[j][0], fields) {
      assert after[i][0] == buckets[i][0];
      if j < |buckets| { assert after[j][0] == buckets[j][0]; }
    }
  }

  /** Grouping is what it says: each group holds exactly the rows with its key, in their
      order; no key has two groups; and every row is in one. */
  lemma {:induction false} BucketsAreGroups(rows: seq<Row>, fields: seq<string>)
    ensures GroupsOf(Buckets(rows, fields), rows, fields)
  {
    if rows == [] {
    } else {
      var before, last := rows[..|rows| - 1], rows[|rows| - 1];
      BucketsAreGroups(before, fields);
      AddRowHolds(Buckets(before, fields), before, last, fields);
      AddRowCovers(Buckets(before, fields), before, last, fields);
      assert rows == before + [last];
    }
  }

  /** The groups stand in order of first appearance. */
  lemma {:induction false} BucketsInOrder(rows: seq<Row>, fields: seq<string>)
    ensures |Buckets(rows, fields)| == |Firsts(rows, fields)|
    ensures forall i :: 0 <= i < |Buckets(rows, fields)| ==> Buckets(rows, fields)[i][0] == Firsts(rows, fields)[i]
  {
    if rows == [] {
    } else {
      var before, last := rows[..|rows| - 1], rows[|rows| - 1];
      BucketsInOrder(before, fields);
      BucketsAreGroups(before, fields);
      AddRowHolds(Buckets(before, fields), before, last, fields);
      var at := AddRowShape(Buckets(before, fields), last, fields);
    }
  }

  /** One result row per key, in order of first appearance: the key under the names grouped by,
      and each measure, over the rows with that key, under its alias. Of measures or fields of
      one name the last measure stays. */
  lemma ResultRow(rows: seq<Row>, fields: seq<string>, measures: seq<Measure>, i: nat)
    requires i < |Firsts(rows, fields)|
    ensures |Entries(rows, fields, measures)| == |Firsts(rows, fields)|
    ensures var first, e := Firsts(rows, fields)[i], Entries(rows, fields, measures)[i];
      && (forall k :: k in e <==> k in fields || exists j :: 0 <= j < |measures| && measures[j].alias == k)
      && (forall f :: f in fields && (forall j :: 0 <= j < |measures| ==> measures[j].alias != f) ==>
            e[f] == GetOrNull(first, f))
      && (forall j :: 0 <= j < |measures| && (forall k :: j < k < |measures| ==> measures[k].alias != measures[j].alias) ==>
            e[measures[j].alias] == Compute(measures[j], Keep(rows, InGroupOf(first, fields))))
  {
    hide Compute, Firsts, Buckets, KeyOf;
    var bs := Buckets(rows, fields);
    BucketsInOrder(rows, fields);
    BucketsAreGroups(rows, fields);
    EntryAt(bs, i, fields, measures);
    WithMeasuresIs(KeyEntry(bs[i][0], fields), measures, bs[i]);
    forall f | f in fields ensures LastNamed(measures, f).Some? <==> f in Aliases(measures) { LastNamedExists(measures, f); }
    forall j | 0 <= j < |measures| && (forall k :: j < k < |measures| ==> measures[k].alias != measures[j].alias)
      ensures LastNamed(measures, measures[j].alias) == Some(measures[j])
    {
      LastNamedAt(measures, j);
    }
  }

  lemma {:induction false} LastNamedAt(measures: seq<Measure>, j: nat)
    requires j < |measures| && forall k :: j < k < |measures| ==> measures[k].alias != measures[j].alias
    ensures LastNamed(measures, measures[j].alias) == Some(measures[j])
  {
    assert forall k :: 0 <= k < |measures[1..]| ==> measures[1..][k] == measures[k + 1];
    if j > 0 {
      LastNamedAt(measures[1..], j - 1);
    } else {
      LastNamedExists(measures[1..], measures[0].alias);
    }
  }

  lemma MembersOfBuckets(rows: seq<Row>, fields: seq<string>, r: Row)
    ensures r in rows <==> InSomeBucket(Buckets(rows, fields), r)
  {
    var bs := Buckets(rows, fields);
    BucketsAreGroups(rows, fields);
    if InSomeBucket(bs, r) {
      var k :| 0 <= k < |bs| && r in bs[k];
      KeepMember(rows, InGroupOf(bs[k][0], fields), r);
    }
  }

  predicate SomeBucketFails(buckets: seq<Group>, measures: seq<Measure>) {
    exists k :: 0 <= k < |buckets| && SumFails(buckets[k], measures)
  }

  lemma BucketsFail(rows: seq<Row>, fields: seq<string>, measures: seq<Measure>)
    ensures SumFails(rows, measures) <==> SomeBucketFails(Buckets(rows, fields), measures)
  {
    hide RowFails, Buckets;
    var bs := Buckets(rows, fields);
    if SumFails(rows, measures) {
      var r :| r in rows && RowFails(r, measures);
      MembersOfBuckets(rows, fields, r);
      var k :| 0 <= k < |bs| && r in bs[k];
      assert SumFails(bs[k], measures);
    }
    if SomeBucketFails(bs, measures) {
      var k :| 0 <= k < |bs| && SumFails(bs[k], measures);
      var r :| r in bs[k] && RowFails(r, measures);
      MembersOfBuckets(rows, fields, r);
    }
  }

  // ----- partial results combine -----

  function CombineValue(m: Measure, a: Value, b: Value): Value {
    if a.Null? then b
    else if b.Null? then a
    else match m.agg
      case COUNT => Int(Number(a) + Number(b))
      case SUM => Int(Number(a) + Number(b))
      case MIN => Smaller(a, b)
      case MAX => Larger(a, b)
  }

  /** Folds one partial row for a group into another, measure by measure. */
  function CombineFrom(out: Row, left: Row, right: Row, measures: seq<Measure>): Row
    decreases |measures|
  {
    if measures == [] then out
    else
      var m := measures[0];
      CombineFrom(out[m.alias := CombineValue(m, GetOrNull(left, m.alias), GetOrNull(right, m.alias))],
                  left, right, measures[1..])
  }

  function Combine(left: Row, right: Row, measures: seq<Measure>): Row {
    CombineFrom(left, left, right, measures)
  }

  /** What the measure an alias finally names makes of two partial values. */
  function CombinedAt(out: Row, left: Row, right: Row, measures: seq<Measure>, k: string): Value {
    if LastNamed(measures, k).Some?
    then CombineValue(LastNamed(measures, k).value, GetOrNull(left, k), GetOrNull(right, k)) else GetOrNull(out, k)
  }

  lemma {:induction false} CombineFromAt(out: Row, left: Row, right: Row, measures: seq<Measure>, k: string)
    ensures k in CombineFrom(out, left, right, measures) <==> k in out || k in Aliases(measures)
    ensures k in CombineFrom(out, left, right, measures) ==>
              CombineFrom(out, left, right, measures)[k] == CombinedAt(out, left, right, measures, k)
    decreases |measures|
  {
    hide CombineValue, LastNamed, Aliases;
    LastNamedExists(measures, k);
    if measures == [] {
      NothingNamed(k);
    } else {
      var m := measures[0];
      LastNamedStep(measures, k);
      CombineFromAt(out[m.alias := CombineValue(m, GetOrNull(left, m.alias), GetOrNull(right, m.alias))],
                    left, right, measures[1..], k);
      LastNamedExists(measures[1..], k);
    }
  }

  lemma CombineFromIs(out: Row, left: Row, right: Row, measures: seq<Measure>)
    ensures CombineFrom(out, left, right, measures).Keys == out.Keys + Aliases(measures)
    ensures forall k :: k in out.Keys + Aliases(measures) ==>
              CombineFrom(out, left, right, measures)[k] == CombinedAt(out, left, right, measures, k)
  {
    hide CombinedAt, Aliases, CombineFrom;
    forall k
      ensures k in CombineFrom(out, left, right, measures) <==> k in out || k in Aliases(measures)
      ensures k in CombineFrom(out, left, right, measures) ==>
                CombineFrom(out, left, right, measures)[k] == CombinedAt(out, left, right, measures, k)
    {
      CombineFromAt(out, left, right, measures, k);
    }
  }

  lemma SmallerAssociative(a: Value, b: Value, c: Value)
    ensures Smaller(Smaller(a, b), c) == Smaller(a, Smaller(b, c))
    ensures Larger(Larger(a, b), c) == Larger(a, Larger(b, c))
  {
    if KeyLess(b, a) && KeyLess(c, b) { KeyLessTransitive(c, b, a); }
    if KeyLess(a, b) && KeyLess(b, c) { KeyLessTransitive(a, b, c); }
    if KeyLess(c, a) { KeyLessNegativelyTransitive(c, b, a); }
    if KeyLess(a, c) { KeyLessNegativelyTransitive(a, b, c); }
  }

  lemma {:induction false} ValuesConcat(a: seq<Row>, b: seq<Row>, field: string)
    ensures ValuesOf(a + b, field) == ValuesOf(a, field) + ValuesOf(b, field)
  {
    if a == [] {
      assert a + b == b;
    } else {
      assert (a + b)[0] == a[0] && (a + b)[1..] == a[1..] + b;
      ValuesConcat(a[1..], b, field);
    }
  }

  lemma {:induction false} FoldsConcat(a: seq<Value>, b: seq<Value>)
    requires a != [] && b != []
    ensures SumOf(a + b) == SumOf(a) + SumOf(b)
    ensures LeastOf(a + b) == Smaller(LeastOf(a), LeastOf(b))
    ensures GreatestOf(a + b) == Larger(GreatestOf(a), GreatestOf(b))
  {
    assert (a + b)[0] == a[0] && (a + b)[1..] == a[1..] + b;
    if |a| > 1 {
      FoldsConcat(a[1..], b);
      SmallerAssociative(a[0], LeastOf(a[1..]), LeastOf(b));
      SmallerAssociative(a[0], GreatestOf(a[1..]), GreatestOf(b));
    } else {
      assert a[1..] == [] && [] + b == b;
    }
  }

  lemma {:induction false} FoldsNotNull(vs: seq<Value>)
    requires vs != [] && forall v :: v in vs ==> !v.Null?
    ensures !LeastOf(vs).Null? && !GreatestOf(vs).Null?
  {
    if |vs| > 1 {
      assert forall v :: v in vs[1..] ==> v in vs;
      FoldsNotNull(vs[1..]);
    }
  }

  /** A measure over two halves of a group is the combination of the halves' measures. */
  lemma ComputeConcat(m: Measure, a: seq<Row>, b: seq<Row>)
    ensures Compute(m, a + b) == CombineValue(m, Compute(m, a), Compute(m, b))
  {
    hide KeyLess, SumOf, LeastOf, GreatestOf, ValuesOf;
    if !m.agg.COUNT? {
      ValuesConcat(a, b, m.field);
      var x, y := ValuesOf(a, m.field), ValuesOf(b, m.field);
      if x == [] {
        assert x + y == y;
      } else if y == [] {
        assert x + y == x;
        FoldsNotNull(x);
      } else {
        FoldsConcat(x, y);
        FoldsNotNull(x);
        FoldsNotNull(y);
      }
    }
  }

  /** The least or greatest of a field, which within a group by that field is the key's own value. */
  predicate OwnExtreme(m: Measure, field: string) {
    (m.agg.MIN? || m.agg.MAX?) && m.field == field
  }

  /** No alias changes the key of the group it is written into. */
  predicate AliasesKeepKeys(fields: seq<string>, measures: seq<Measure>) {
    forall f :: f in fields && LastNamed(measures, f).Some? ==> OwnExtreme(LastNamed(measures, f).value, f)
  }

  /** All rows of a group have the key of its first. */
  predicate Uniform(group: Group, fields: seq<string>) {
    forall i :: 0 <= i < |group| ==> SameKey(group[0], group[i], fields)
  }

  lemma {:induction false} ValuesOfOneKey(rows: seq<Row>, field: string, key: Value)
    requires forall i :: 0 <= i < |rows| ==> Canonical(GetOrNull(rows[i], field)) == key
    ensures forall v :: v in ValuesOf(rows, field) ==> Canonical(v) == key
    ensures ValuesOf(rows, field) == [] <==> rows == [] || key.Null?
  {
    if rows == [] {
    } else {
      assert Canonical(GetOrNull(rows[0], field)) == key;
      ValuesOfOneKey(rows[1..], field, key);
    }
  }

  lemma OwnExtremeIsKey(m: Measure, group: Group, fields: seq<string>, f: string)
    requires Uniform(group, fields) && f in fields && OwnExtreme(m, f)
    ensures Canonical(Compute(m, group)) == Canonical(GetOrNull(group[0], f))
  {
    hide Compute, KeyOf;
    forall i | 0 <= i < |group| ensures Canonical(GetOrNull(group[i], f)) == Canonical(GetOrNull(group[0], f)) {
      SameKeyMeans(group[0], group[i], fields, f);
    }
    ValuesOfOneKey(group, f, Canonical(GetOrNull(group[0], f)));
    ExtremesAreFirst(m, group);
  }

  lemma EntryConcat(a: Group, b: Group, fields: seq<string>, measures: seq<Measure>)
    ensures EntryOf(a + b, fields, measures)
         == Combine(EntryOf(a, fields, measures), EntryOf(b, fields, measures), measures)
  {
    var left, right := EntryOf(a, fields, measures), EntryOf(b, fields, measures);
    WithMeasuresIs(KeyEntry(a[0], fields), measures, a);
    WithMeasuresIs(KeyEntry(b[0], fields), measures, b);
    WithMeasuresIs(KeyEntry(a[0], fields), measures, a + b);
    CombineFromIs(left, left, right, measures);
    forall k | k in left.Keys
      ensures EntryOf(a + b, fields, measures)[k] == Combine(left, right, measures)[k]
    {
      LastNamedExists(measures, k);
      if LastNamed(measures, k).Some? {
        ComputeConcat(LastNamed(measures, k).value, a, b);
      }
    }
  }

  lemma CombineValueAssociative(m: Measure, a: Value, b: Value, c: Value)
    ensures CombineValue(m, CombineValue(m, a, b), c) == CombineValue(m, a, CombineValue(m, b, c))
  {
    SmallerAssociative(a, b, c);
  }

  lemma CombineAssociative(x: Row, y: Row, z: Row, measures: seq<Measure>)
    ensures Combine(Combine(x, y, measures), z, measures) == Combine(x, Combine(y, z, measures), measures)
  {
    hide CombineValue, CombineFrom, LastNamed;
    var xy, yz := Combine(x, y, measures), Combine(y, z, measures);
    CombineFromIs(x, x, y, measures);
    CombineFromIs(y, y, z, measures);
    CombineFromIs(xy, xy, z, measures);
    CombineFromIs(x, x, yz, measures);
    forall k | k in x.Keys + Aliases(measures)
      ensures Combine(xy, z, measures)[k] == Combine(x, yz, measures)[k]
    {
      LastNamedExists(measures, k);
      if LastNamed(measures, k).Some? {
        CombineValueAssociative(LastNamed(measures, k).value, GetOrNull(x, k), GetOrNull(y, k), GetOrNull(z, k));
      }
    }
  }

  // ----- merging lists of partial results -----

  /** Folds one partial row into the merged rows: into the row with its key, else at the end. */
  function MergeOne(merged: seq<Row>, e: Row, fields: seq<string>, measures: seq<Measure>): seq<Row> {
    if merged == [] then [e]
    else if SameKey(merged[0], e, fields) then [Combine(merged[0], e, measures)] + merged[1..]
    else [merged[0]] + MergeOne(merged[1..], e, fields, measures)
  }

  function MergeEntries(merged: seq<Row>, es: seq<Row>, fields: seq<string>, measures: seq<Measure>): seq<Row>
    decreases |es|
  {
    if es == [] then merged else MergeEntries(MergeOne(merged, es[0], fields, measures), es[1..], fields, measures)
  }

  lemma CombineKeepsKey(x: Row, y: Row, fields: seq<string>, measures: seq<Measure>)
    requires AliasesKeepKeys(fields, measures) && SameKey(x, y, fields)
    ensures KeyOf(Combine(x, y, measures), fields) == KeyOf(x, fields)
  {
    hide CombineFrom, KeyLess;
    CombineFromIs(x, x, y, measures);
    forall f | f in fields ensures Canonical(GetOrNull(Combine(x, y, measures), f)) == Canonical(GetOrNull(x, f)) {
      LastNamedExists(measures, f);
      SameKeyMeans(x, y, fields, f);
    }
    KeyDependsOnFields(Combine(x, y, measures), x, fields);
  }

  ghost predicate DistinctKeys(es: seq<Row>, fields: seq<string>) {
    forall i, j :: 0 <= i < j < |es| ==> !SameKey(es[i], es[j], fields)
  }

  predicate HasKey(es: seq<Row>, e: Row, fields: seq<string>) {
    exists i :: 0 <= i < |es| && SameKey(es[i], e, fields)
  }

  /** Folding in two rows with one key is folding in their combination. */
  lemma {:induction false} MergeOneTwice(merged: seq<Row>, x: Row, y: Row, fields: seq<string>, measures: seq<Measure>)
    requires SameKey(x, y, fields) && AliasesKeepKeys(fields, measures)
    ensures MergeOne(MergeOne(merged, x, fields, measures), y, fields, measures)
         == MergeOne(merged, Combine(x, y, measures), fields, measures)
    ensures HasKey(MergeOne(merged, x, fields, measures), x, fields)
  {
    var after := MergeOne(merged, x, fields, measures);
    if merged == [] {
      assert SameKey(after[0], x, fields);
    } else {
      CombineKeepsKey(x, y, fields, measures);
      if SameKey(merged[0], x, fields) {
        CombineKeepsKey(merged[0], x, fields, measures);
        CombineAssociative(merged[0], x, y, measures);
        assert SameKey(after[0], x, fields);
      } else {
        MergeOneTwice(merged[1..], x, y, fields, measures);
        var i :| 0 <= i < |MergeOne(merged[1..], x, fields, measures)|
                 && SameKey(MergeOne(merged[1..], x, fields, measures)[i], x, fields);
        assert SameKey(after[i + 1], x, fields);
      }
    }
  }

  /** Rows with different keys may be folded in either order, once the later key is present. */
  lemma {:induction false} MergeOneSwap(merged: seq<Row>, x: Row, y: Row, fields: seq<string>, measures: seq<Measure>)
    requires !SameKey(x, y, fields) && HasKey(merged, y, fields) && AliasesKeepKeys(fields, measures)
    ensures MergeOne(MergeOne(merged, x, fields, measures), y, fields, measures)
         == MergeOne(MergeOne(merged, y, fields, measures), x, fields, measures)
    ensures HasKey(MergeOne(merged, x, fields, measures), y, fields)
  {
    var after := MergeOne(merged, x, fields, measures);
    var head := merged[0];
    if SameKey(head, y, fields) {
      CombineKeepsKey(head, y, fields, measures);
      assert SameKey(after[0], y, fields);
    } else {
      var i :| 0 <= i < |merged| && SameKey(merged[i], y, fields);
      assert SameKey(merged[1..][i - 1], y, fields);
      if SameKey(head, x, fields) {
        CombineKeepsKey(head, x, fields, measures);
        assert SameKey(after[i], y, fields);
      } else {
        MergeOneSwap(merged[1..], x, y, fields, measures);
        var j :| 0 <= j < |after[1..]| && SameKey(after[1..][j], y, fields);
        assert SameKey(after[j + 1], y, fields);
      }
    }
  }

  lemma {:induction false} MergeEntriesSwap(merged: seq<Row>, es: seq<Row>, y: Row, fields: seq<string>, measures: seq<Measure>)
    requires AliasesKeepKeys(fields, measures) && HasKey(merged, y, fields) && !HasKey(es, y, fields)
    ensures MergeOne(MergeEntries(merged, es, fields, measures), y, fields, measures)
         == MergeEntries(MergeOne(merged, y, fields, measures), es, fields, measures)
    decreases |es|
  {
    if es == [] {
    } else {
      assert !SameKey(es[0], y, fields);
      MergeOneSwap(merged, es[0], y, fields, measures);
      forall i | 0 <= i < |es[1..]| ensures !SameKey(es[1..][i], y, fields) {
        assert es[1..][i] == es[i + 1];
      }
      MergeEntriesSwap(MergeOne(merged, es[0], fields, measures), es[1..], y, fields, measures);
    }
  }

  /** Folding a row into a partial result first, or into everything afterwards, is the same. */
  lemma {:induction false} MergeEntriesLast(merged: seq<Row>, es: seq<Row>, y: Row, fields: seq<string>, measures: seq<Measure>)
    requires AliasesKeepKeys(fields, measures) && DistinctKeys(es, fields)
    ensures MergeOne(MergeEntries(merged, es, fields, measures), y, fields, measures)
         == MergeEntries(merged, MergeOne(es, y, fields, measures), fields, measures)
    decreases |es|
  {
    if es == [] {
    } else {
      var x, rest := es[0], es[1..];
      var after := MergeOne(merged, x, fields, measures);
      assert DistinctKeys(rest, fields);
      if SameKey(x, y, fields) {
        forall i | 0 <= i < |rest| ensures !SameKey(rest[i], y, fields) {
          assert rest[i] == es[i + 1];
        }
        MergeOneTwice(merged, x, y, fields, measures);
        var i :| 0 <= i < |after| && SameKey(after[i], x, fields);
        assert HasKey(after, y, fields);
        MergeEntriesSwap(after, rest, y, fields, measures);
        assert MergeOne(es, y, fields, measures) == [Combine(x, y, measures)] + rest;
      } else {
        MergeEntriesLast(after, rest, y, fields, measures);
        assert MergeOne(es, y, fields, measures) == [x] + MergeOne(rest, y, fields, measures);
      }
    }
  }

  // ----- grouping a concatenation -----

  lemma EntryKey(group: Group, fields: seq<string>, measures: seq<Measure>)
    requires AliasesKeepKeys(fields, measures) && Uniform(group, fields)
    ensures KeyOf(EntryOf(group, fields, measures), fields) == KeyOf(group[0], fields)
  {
    hide Compute, Uniform;
    WithMeasuresIs(KeyEntry(group[0], fields), measures, group);
    forall f | f in fields
      ensures Canonical(GetOrNull(EntryOf(group, fields, measures), f)) == Canonical(GetOrNull(group[0], f))
    {
      LastNamedExists(measures, f);
      if LastNamed(measures, f).Some? { OwnExtremeIsKey(LastNamed(measures, f).value, group, fields, f); }
    }
    KeyDependsOnFields(EntryOf(group, fields, measures), group[0], fields);
  }

  predicate AllUniform(buckets: seq<Group>, fields: seq<string>) {
    forall i :: 0 <= i < |buckets| ==> Uniform(buckets[i], fields)
  }

  lemma BucketsUniform(rows: seq<Row>, fields: seq<string>)
    ensures AllUniform(Buckets(rows, fields), fields)
  {
    hide KeyOf;
    BucketsAreGroups(rows, fields);
    var bs := Buckets(rows, fields);
    forall i, k | 0 <= i < |bs| && 0 <= k < |bs[i]| ensures SameKey(bs[i][0], bs[i][k], fields) {
      assert bs[i][k] in bs[i];
      KeepMember(rows, InGroupOf(bs[i][0], fields), bs[i][k]);
    }
  }

  lemma {:induction false} EntriesOfAddRow(buckets: seq<Group>, row: Row, fields: seq<string>, measures: seq<Measure>)
    requires AliasesKeepKeys(fields, measures) && AllUniform(buckets, fields)
    ensures EntriesOf(AddRow(buckets, row, fields), fields, measures)
         == MergeOne(EntriesOf(buckets, fields, measures), EntryOf([row], fields, measures), fields, measures)
  {
    if buckets == [] {
    } else {
      var head, e := buckets[0], EntryOf([row], fields, measures);
      EntryKey(head, fields, measures);
      EntryKey([row], fields, measures);
      if SameKey(head[0], row, fields) {
        EntryConcat(head, [row], fields, measures);
      } else {
        EntriesOfAddRow(buckets[1..], row, fields, measures);
      }
    }
  }

  lemma {:induction false} EntriesDistinct(buckets: seq<Group>, rows: seq<Row>, fields: seq<string>, measures: seq<Measure>)
    requires AliasesKeepKeys(fields, measures) && AllUniform(buckets, fields)
    requires forall i, j :: 0 <= i < j < |buckets| ==> !SameKey(buckets[i][0], buckets[j][0], fields)
    ensures DistinctKeys(EntriesOf(buckets, fields, measures), fields)
  {
    var es := EntriesOf(buckets, fields, measures);
    forall i, j | 0 <= i < j < |es| ensures !SameKey(es[i], es[j], fields) {
      EntryAt(buckets, i, fields, measures);
      EntryAt(buckets, j, fields, measures);
      EntryKey(buckets[i], fields, measures);
      EntryKey(buckets[j], fields, measures);
    }
  }

  lemma {:induction false} EntryAt(buckets: seq<Group>, i: nat, fields: seq<string>, measures: seq<Measure>)
    requires i < |buckets|
    ensures EntriesOf(buckets, fields, measures)[i] == EntryOf(buckets[i], fields, measures)
  {
    if i > 0 { EntryAt(buckets[1..], i - 1, fields, measures); }
  }

  lemma EntriesKeysDiffer(rows: seq<Row>, fields: seq<string>, measures: seq<Measure>)
    requires AliasesKeepKeys(fields, measures)
    ensures DistinctKeys(Entries(rows, fields, measures), fields)
  {
    BucketsAreGroups(rows, fields);
    BucketsUniform(rows, fields);
    EntriesDistinct(Buckets(rows, fields), rows, fields, measures);
  }

  lemma EntriesLast(rows: seq<Row>, last: Row, fields: seq<string>, measures: seq<Measure>)
    requires AliasesKeepKeys(fields, measures)
    ensures Entries(rows + [last], fields, measures)
         == MergeOne(Entries(rows, fields, measures), EntryOf([last], fields, measures), fields, measures)
  {
    var all := rows + [last];
    assert all[..|all| - 1] == rows && all[|all| - 1] == last;
    BucketsUniform(rows, fields);
    EntriesOfAddRow(Buckets(rows, fields), last, fields, measures);
  }

  /** Aggregating two collections apart and merging the partial rows is aggregating them
      together: same groups, same first-appearance order, same measures. */
  lemma {:induction false} EntriesMerge(a: seq<Row>, b: seq<Row>, fields: seq<string>, measures: seq<Measure>)
    requires AliasesKeepKeys(fields, measures)
    ensures MergeEntries(Entries(a, fields, measures), Entries(b, fields, measures), fields, measures)
         == Entries(a + b, fields, measures)
    decreases |b|
  {
    if b == [] {
      assert a + b == a;
    } else {
      var before, last := b[..|b| - 1], b[|b| - 1];
      assert b == before + [last];
      assert a + b == (a + before) + [last];
      EntriesMerge(a, before, fields, measures);
      EntriesKeysDiffer(before, fields, measures);
      EntriesLast(before, last, fields, measures);
      EntriesLast(a + before, last, fields, measures);
      MergeEntriesLast(Entries(a, fields, measures), Entries(before, fields, measures),
                       EntryOf([last], fields, measures), fields, measures);
    }
  }

  // ----- the dictionary the partial rows are merged in -----

  /** An item of the dictionary: the key it was inserted under stays, whatever becomes of the row. */
  datatype Slot = Slot(key: seq<Value>, row: Row)

  function Insert(slots: seq<Slot>, e: Row, fields: seq<string>, measures: seq<Measure>): seq<Slot> {
    if slots == [] then [Slot(KeyOf(e, fields), e)]
    else if slots[0].key == KeyOf(e, fields)
    then [Slot(slots[0].key, Combine(slots[0].row, e, measures))] + slots[1..]
    else [slots[0]] + Insert(slots[1..], e, fields, measures)
  }

  function InsertAll(slots: seq<Slot>, es: seq<Row>, fields: seq<string>, measures: seq<Measure>): seq<Slot>
    decreases |es|
  {
    if es == [] then slots else InsertAll(Insert(slots, es[0], fields, measures), es[1..], fields, measures)
  }

  function RowsIn(slots: seq<Slot>): (rows: seq<Row>)
    ensures |rows| == |slots|
  {
    if slots == [] then [] else [slots[0].row] + RowsIn(slots[1..])
  }

  /** Every row still has the key it stands under. */
  predicate KeysTrue(slots: seq<Slot>, fields: seq<string>) {
    forall i :: 0 <= i < |slots| ==> slots[i].key == KeyOf(slots[i].row, fields)
  }

  lemma {:induction false} InsertIsMerge(slots: seq<Slot>, e: Row, fields: seq<string>, measures: seq<Measure>)
    requires AliasesKeepKeys(fields, measures) && KeysTrue(slots, fields)
    ensures KeysTrue(Insert(slots, e, fields, measures), fields)
    ensures RowsIn(Insert(slots, e, fields, measures)) == MergeOne(RowsIn(slots), e, fields, measures)
  {
    hide AliasesKeepKeys, KeyOf, Combine;
    if slots == [] {
    } else if slots[0].key == KeyOf(e, fields) {
      CombineKeepsKey(slots[0].row, e, fields, measures);
    } else {
      InsertIsMerge(slots[1..], e, fields, measures);
    }
  }

  /** Where no alias changes a key, the dictionary holds the merged rows. */
  lemma {:induction false} InsertAllIsMerge(slots: seq<Slot>, es: seq<Row>, fields: seq<string>, measures: seq<Measure>)
    requires AliasesKeepKeys(fields, measures) && KeysTrue(slots, fields)
    ensures KeysTrue(InsertAll(slots, es, fields, measures), fields)
    ensures RowsIn(InsertAll(slots, es, fields, measures)) == MergeEntries(RowsIn(slots), es, fields, measures)
    decreases |es|
  {
    hide AliasesKeepKeys, KeysTrue, Insert, MergeOne;
    if es == [] {
    } else {
      InsertIsMerge(slots, es[0], fields, measures);
      InsertAllIsMerge(Insert(slots, es[0], fields, measures), es[1..], fields, measures);
    }
  }
}
