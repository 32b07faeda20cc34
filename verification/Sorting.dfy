/** Stable sorting of rows by several keys, and keeping the rows a test accepts. */
module Sorting {
  import opened Values
  import opened Query

  // ----- keeping rows -----

  /** [row for row in rows if p(row)] */
  function Keep(rows: seq<Row>, p: Row -> bool): (kept: seq<Row>)
    ensures |kept| <= |rows|
  {
    if rows == [] then []
    else if p(rows[0]) then [rows[0]] + Keep(rows[1..], p)
    else Keep(rows[1..], p)
  }

  lemma {:induction false} KeepMember(rows: seq<Row>, p: Row -> bool, r: Row)
    ensures r in Keep(rows, p) <==> r in rows && p(r)
  {
    if rows == [] {
    } else {
      KeepMember(rows[1..], p, r);
      assert rows == [rows[0]] + rows[1..];
    }
  }

  lemma KeepCons(r: Row, s: seq<Row>, p: Row -> bool)
    ensures Keep([r] + s, p) == if p(r) then [r] + Keep(s, p) else Keep(s, p)
  {
    assert ([r] + s)[1..] == s;
  }

  lemma {:induction false} KeepConcat(a: seq<Row>, b: seq<Row>, p: Row -> bool)
    ensures Keep(a + b, p) == Keep(a, p) + Keep(b, p)
  {
    if a == [] {
      assert a + b == b;
    } else {
      assert a + b == [a[0]] + (a[1..] + b);
      KeepCons(a[0], a[1..] + b, p);
      KeepConcat(a[1..], b, p);
    }
  }

  lemma {:induction false} KeepCommutes(rows: seq<Row>, p: Row -> bool, q: Row -> bool)
    ensures Keep(Keep(rows, p), q) == Keep(Keep(rows, q), p)
  {
    if rows == [] {
    } else {
      KeepCommutes(rows[1..], p, q);
      KeepCons(rows[0], Keep(rows[1..], p), q);
      KeepCons(rows[0], Keep(rows[1..], q), p);
    }
  }

  /** Keeping by a stricter test afterwards is keeping by the stricter test. */
  lemma {:induction false} KeepNarrower(rows: seq<Row>, wide: Row -> bool, narrow: Row -> bool)
    requires forall r :: narrow(r) ==> wide(r)
    ensures Keep(Keep(rows, wide), narrow) == Keep(rows, narrow)
  {
    if rows == [] {
    } else {
      KeepNarrower(rows[1..], wide, narrow);
      KeepCons(rows[0], Keep(rows[1..], wide), narrow);
    }
  }

  lemma {:induction false} KeepAll(rows: seq<Row>, p: Row -> bool)
    requires forall i :: 0 <= i < |rows| ==> p(rows[i])
    ensures Keep(rows, p) == rows
  {
    if rows == [] {
    } else {
      KeepAll(rows[1..], p);
      assert rows == [rows[0]] + rows[1..];
    }
  }

  lemma {:induction false} KeepNone(rows: seq<Row>, p: Row -> bool)
    requires forall i :: 0 <= i < |rows| ==> !p(rows[i])
    ensures Keep(rows, p) == []
  {
    if rows == [] {
    } else {
      KeepNone(rows[1..], p);
    }
  }

  // ----- the order -----

  /** Strictly before by one key: reverse=True flips the comparison. */
  predicate KeyBefore(a: Row, b: Row, spec: Sort) {
    var x, y := GetOrNull(a, spec.field), GetOrNull(b, spec.field);
    if spec.dir.Asc? then KeyLess(x, y) else KeyLess(y, x)
  }

  /** Strictly before by several keys: the first key that tells them apart decides. */
  predicate Before(a: Row, b: Row, sorts: seq<Sort>) {
    sorts != [] &&
    (KeyBefore(a, b, sorts[0]) || (!KeyBefore(b, a, sorts[0]) && Before(a, b, sorts[1..])))
  }

  predicate Le(a: Row, b: Row, sorts: seq<Sort>) {
    !Before(b, a, sorts)
  }

  lemma KeyBeforeWeak(a: Row, b: Row, c: Row, spec: Sort)
    ensures !(KeyBefore(a, b, spec) && KeyBefore(b, a, spec))
    ensures KeyBefore(a, b, spec) && KeyBefore(b, c, spec) ==> KeyBefore(a, c, spec)
    ensures KeyBefore(a, c, spec) ==> KeyBefore(a, b, spec) || KeyBefore(b, c, spec)
  {
    var x, y, z := GetOrNull(a, spec.field), GetOrNull(b, spec.field), GetOrNull(c, spec.field);
    KeyLessAsymmetric(x, y);
    if KeyLess(x, y) && KeyLess(y, z) { KeyLessTransitive(x, y, z); }
    if KeyLess(z, y) && KeyLess(y, x) { KeyLessTransitive(z, y, x); }
    if KeyLess(x, z) { KeyLessNegativelyTransitive(x, y, z); }
    if KeyLess(z, x) { KeyLessNegativelyTransitive(z, y, x); }
  }

  lemma {:induction false} LeTotal(a: Row, b: Row, sorts: seq<Sort>)
    ensures Le(a, b, sorts) || Le(b, a, sorts)
  {
    if sorts == [] {
    } else {
      KeyBeforeWeak(a, b, a, sorts[0]);
      LeTotal(a, b, sorts[1..]);
    }
  }

  lemma {:induction false} LeTransitive(a: Row, b: Row, c: Row, sorts: seq<Sort>)
    requires Le(a, b, sorts) && Le(b, c, sorts)
    ensures Le(a, c, sorts)
  {
    if sorts != [] && Before(c, a, sorts) {
      var k := sorts[0];
      KeyBeforeWeak(c, b, a, k);
      KeyBeforeWeak(a, c, b, k);
      KeyBeforeWeak(b, a, c, k);
      if !KeyBefore(c, a, k) && !KeyBefore(a, b, k) && !KeyBefore(b, c, k) {
        LeTransitive(a, b, c, sorts[1..]);
      }
    }
  }

  predicate SameKeys(a: Row, b: Row, sorts: seq<Sort>) {
    Le(a, b, sorts) && Le(b, a, sorts)
  }

  /** The test "ties with x". */
  function TiesWith(x: Row, sorts: seq<Sort>): Row -> bool {
    (r: Row) => SameKeys(x, r, sorts)
  }

  /** No row is strictly before the one ahead of it. */
  predicate Ordered(t: seq<Row>, sorts: seq<Sort>) {
    |t| < 2 || (Le(t[0], t[1], sorts) && Ordered(t[1..], sorts))
  }

  /** Being in order is about every pair of positions, not only neighbours. */
  lemma {:induction false} OrderedMeansEveryPair(t: seq<Row>, sorts: seq<Sort>, i: nat, j: nat)
    requires Ordered(t, sorts) && i < j < |t|
    ensures Le(t[i], t[j], sorts)
    decreases j
  {
    if i > 0 {
      OrderedMeansEveryPair(t[1..], sorts, i - 1, j - 1);
    } else if j > 1 {
      OrderedMeansEveryPair(t[1..], sorts, 0, j - 1);
      LeTransitive(t[0], t[1], t[j], sorts);
    }
  }

  /** What a stable sort promises: the result is in order, and the rows that tie with any
      given row are exactly those of the input, in the input's order. */
  ghost predicate StablySorted(s: seq<Row>, t: seq<Row>, sorts: seq<Sort>) {
    Ordered(t, sorts) && SameTies(t, s, sorts)
  }

  ghost predicate SameTies(t: seq<Row>, u: seq<Row>, sorts: seq<Sort>) {
    forall x :: Keep(t, TiesWith(x, sorts)) == Keep(u, TiesWith(x, sorts))
  }

  // ----- the sort -----

  /** Merging two runs, the left one first on ties. */
  function Merge(x: seq<Row>, y: seq<Row>, sorts: seq<Sort>): (m: seq<Row>)
    ensures |m| == |x| + |y|
    decreases |x| + |y|
  {
    if x == [] then y
    else if y == [] then x
    else if Le(x[0], y[0], sorts) then [x[0]] + Merge(x[1..], y, sorts)
    else [y[0]] + Merge(x, y[1..], sorts)
  }

  /** list.sort, which is stable. */
  function SortRows(s: seq<Row>, sorts: seq<Sort>): (t: seq<Row>)
    ensures |t| == |s|
  {
    if s == [] then [] else Merge([s[0]], SortRows(s[1..], sorts), sorts)
  }

  lemma {:induction false} MergeOrdered(x: seq<Row>, y: seq<Row>, sorts: seq<Sort>)
    requires Ordered(x, sorts) && Ordered(y, sorts)
    ensures Ordered(Merge(x, y, sorts), sorts)
    decreases |x| + |y|
  {
    if x != [] && y != [] {
      if Le(x[0], y[0], sorts) {
        MergeOrdered(x[1..], y, sorts);
        PrependOrdered(x[0], Merge(x[1..], y, sorts), sorts);
      } else {
        LeTotal(x[0], y[0], sorts);
        MergeOrdered(x, y[1..], sorts);
        PrependOrdered(y[0], Merge(x, y[1..], sorts), sorts);
      }
    }
  }

  lemma PrependOrdered(r: Row, t: seq<Row>, sorts: seq<Sort>)
    requires Ordered(t, sorts) && (t != [] ==> Le(r, t[0], sorts))
    ensures Ordered([r] + t, sorts)
  {
    assert ([r] + t)[1..] == t;
  }

  /** When the right run's head goes first, nothing in the left run ties with it. */
  lemma NoTieBehind(x: seq<Row>, head: Row, sorts: seq<Sort>, z: Row)
    requires Ordered(x, sorts) && x != [] && !Le(x[0], head, sorts) && SameKeys(z, head, sorts)
    ensures Keep(x, TiesWith(z, sorts)) == []
  {
    forall i | 0 <= i < |x| ensures !TiesWith(z, sorts)(x[i]) {
      if SameKeys(z, x[i], sorts) {
        LeTransitive(x[i], z, head, sorts);
        LeReflexive(x[0], sorts);
        if i > 0 { OrderedMeansEveryPair(x, sorts, 0, i); }
        LeTransitive(x[0], x[i], head, sorts);
      }
    }
    KeepNone(x, TiesWith(z, sorts));
  }

  /** Merging keeps the left run's ties before the right run's. */
  lemma {:induction false} MergeTies(x: seq<Row>, y: seq<Row>, sorts: seq<Sort>, z: Row)
    requires Ordered(x, sorts)
    ensures Keep(Merge(x, y, sorts), TiesWith(z, sorts))
         == Keep(x, TiesWith(z, sorts)) + Keep(y, TiesWith(z, sorts))
    decreases |x| + |y|
  {
    var p := TiesWith(z, sorts);
    if x == [] {
      ConcatEmpty(Keep(y, p));
    } else if y == [] {
      ConcatEmpty(Keep(x, p));
    } else if Le(x[0], y[0], sorts) {
      MergeTies(x[1..], y, sorts, z);
      KeepCons(x[0], Merge(x[1..], y, sorts), p);
      ConcatAssociative([x[0]], Keep(x[1..], p), Keep(y, p));
    } else {
      MergeTies(x, y[1..], sorts, z);
      KeepCons(y[0], Merge(x, y[1..], sorts), p);
      if p(y[0]) {
        NoTieBehind(x, y[0], sorts, z);
        ConcatEmpty(Keep(y, p));
        ConcatEmpty(Keep(y[1..], p));
      }
    }
  }

  lemma ConcatEmpty(s: seq<Row>)
    ensures [] + s == s && s + [] == s
  {
  }

  lemma ConcatAssociative(a: seq<Row>, b: seq<Row>, c: seq<Row>)
    ensures a + (b + c) == (a + b) + c
  {
  }

  lemma LeReflexive(a: Row, sorts: seq<Sort>)
    ensures Le(a, a, sorts)
  {
    LeTotal(a, a, sorts);
  }

  /** The sort is stable and sorts. */
  lemma {:induction false} SortIsStable(s: seq<Row>, sorts: seq<Sort>)
    ensures StablySorted(s, SortRows(s, sorts), sorts)
  {
    if s == [] {
    } else {
      var rest := SortRows(s[1..], sorts);
      SortIsStable(s[1..], sorts);
      MergeOrdered([s[0]], rest, sorts);
      assert s == [s[0]] + s[1..];
      forall x ensures Keep(SortRows(s, sorts), TiesWith(x, sorts)) == Keep(s, TiesWith(x, sorts)) {
        MergeTies([s[0]], rest, sorts, x);
        KeepConcat([s[0]], s[1..], TiesWith(x, sorts));
      }
    }
  }

  /** A stable sort has only one possible result. */
  lemma StableSortUnique(s: seq<Row>, t: seq<Row>, u: seq<Row>, sorts: seq<Sort>)
    requires StablySorted(s, t, sorts) && StablySorted(s, u, sorts)
    ensures t == u
  {
    OrderedWithSameTies(t, u, sorts);
  }

  lemma {:induction false} OrderedWithSameTies(t: seq<Row>, u: seq<Row>, sorts: seq<Sort>)
    requires Ordered(t, sorts) && Ordered(u, sorts) && SameTies(t, u, sorts)
    ensures t == u
  {
    if t == [] {
      if u != [] { HeadLe(u, t, sorts); }
    } else {
      SameHead(t, u, sorts);
      forall x ensures Keep(t[1..], TiesWith(x, sorts)) == Keep(u[1..], TiesWith(x, sorts)) {
        TailTies(t, u, sorts, x);
      }
      OrderedWithSameTies(t[1..], u[1..], sorts);
      assert t == [t[0]] + t[1..] && u == [u[0]] + u[1..];
    }
  }

  lemma SameHead(t: seq<Row>, u: seq<Row>, sorts: seq<Sort>)
    requires t != [] && Ordered(t, sorts) && Ordered(u, sorts) && SameTies(t, u, sorts)
    ensures u != [] && t[0] == u[0]
  {
    HeadLe(t, u, sorts);
    HeadLe(u, t, sorts);
    var p := TiesWith(t[0], sorts);
    LeReflexive(t[0], sorts);
    assert Keep(t, p)[0] == t[0] && Keep(u, p)[0] == u[0];
  }

  lemma TailTies(t: seq<Row>, u: seq<Row>, sorts: seq<Sort>, x: Row)
    requires t != [] && u != [] && t[0] == u[0] && SameTies(t, u, sorts)
    ensures Keep(t[1..], TiesWith(x, sorts)) == Keep(u[1..], TiesWith(x, sorts))
  {
    var q := TiesWith(x, sorts);
    assert Keep(t, q) == Keep(u, q);
    if q(t[0]) {
      assert Keep(t[1..], q) == Keep(t, q)[1..];
      assert Keep(u[1..], q) == Keep(u, q)[1..];
    }
  }

  lemma HeadLe(t: seq<Row>, u: seq<Row>, sorts: seq<Sort>)
    requires t != []
    requires Ordered(u, sorts)
    requires SameTies(t, u, sorts)
    ensures u != [] && Le(u[0], t[0], sorts)
  {
    var p := TiesWith(t[0], sorts);
    LeReflexive(t[0], sorts);
    KeepMember(t, p, t[0]);
    KeepMember(u, p, t[0]);
    var k :| 0 <= k < |u| && u[k] == t[0];
    if k > 0 { OrderedMeansEveryPair(u, sorts, 0, k); }
  }

  // ----- right-to-left passes -----

  /** The sort as it is carried out: one stable pass per key, the last key first. */
  function Passes(rows: seq<Row>, sorts: seq<Sort>): seq<Row> {
    if sorts == [] then rows else SortRows(Passes(rows, sorts[1..]), [sorts[0]])
  }

  method ApplySort(rows: seq<Row>, sorts: seq<Sort>) returns (result: seq<Row>)
    ensures StablySorted(rows, result, sorts)
    ensures result == SortRows(rows, sorts)
  {
    result := rows;
    var i := |sorts|;
    while i > 0
      invariant 0 <= i <= |sorts|
      invariant result == Passes(rows, sorts[i..])
    {
      i := i - 1;
      assert sorts[i..][1..] == sorts[i + 1..];
      result := SortRows(result, [sorts[i]]);
    }
    assert sorts[0..] == sorts;
    PassesSortByAllKeys(rows, sorts);
    SortIsStable(rows, sorts);
  }

  lemma OneKey(a: Row, b: Row, spec: Sort)
    ensures Before(a, b, [spec]) == KeyBefore(a, b, spec)
  {
    assert !Before(a, b, []);
  }

  /** Ties on all keys are the ties on the first key among which the other keys tie too. */
  lemma TiesSplit(a: Row, b: Row, sorts: seq<Sort>)
    requires sorts != []
    ensures SameKeys(a, b, sorts) <==> SameKeys(a, b, [sorts[0]]) && SameKeys(a, b, sorts[1..])
  {
    OneKey(a, b, sorts[0]);
    OneKey(b, a, sorts[0]);
    KeyBeforeWeak(a, b, a, sorts[0]);
  }

  lemma {:induction false} PassOrders(t: seq<Row>, sorts: seq<Sort>)
    requires sorts != []
    requires Ordered(t, [sorts[0]])
    requires forall x :: Ordered(Keep(t, TiesWith(x, [sorts[0]])), sorts[1..])
    ensures Ordered(t, sorts)
  {
    if |t| >= 2 {
      var first, rest := [sorts[0]], sorts[1..];
      forall x ensures Ordered(Keep(t[1..], TiesWith(x, first)), rest) {
        var k := Keep(t, TiesWith(x, first));
        if TiesWith(x, first)(t[0]) { assert k[1..] == Keep(t[1..], TiesWith(x, first)); }
      }
      PassOrders(t[1..], sorts);
      OneKey(t[1], t[0], sorts[0]);
      OneKey(t[0], t[1], sorts[0]);
      KeyBeforeWeak(t[0], t[1], t[0], sorts[0]);
      if !KeyBefore(t[0], t[1], sorts[0]) {
        LeReflexive(t[0], first);
        var k := Keep(t, TiesWith(t[0], first));
        assert k[0] == t[0] && k[1] == t[1];
      }
    }
  }

  /** Sorting once per key from the last key to the first is sorting by all keys at once. */
  lemma {:induction false} PassesSortByAllKeys(rows: seq<Row>, sorts: seq<Sort>)
    ensures Passes(rows, sorts) == SortRows(rows, sorts)
  {
    if sorts == [] {
      NoKeysNoChange(rows);
    } else {
      var rest, first := sorts[1..], [sorts[0]];
      PassesSortByAllKeys(rows, rest);
      var p := Passes(rows, rest);
      var t := SortRows(p, first);
      SortIsStable(rows, rest);
      SortIsStable(p, first);
      forall x ensures Ordered(Keep(t, TiesWith(x, first)), rest) {
        KeepOrdered(p, rest, TiesWith(x, first));
      }
      PassOrders(t, sorts);
      forall x ensures Keep(t, TiesWith(x, sorts)) == Keep(rows, TiesWith(x, sorts)) {
        TiesNested(t, x, sorts);
        TiesNested(p, x, sorts);
        TiesNested(rows, x, sorts);
        KeepCommutes(t, TiesWith(x, first), TiesWith(x, rest));
        KeepCommutes(p, TiesWith(x, first), TiesWith(x, rest));
        KeepCommutes(rows, TiesWith(x, first), TiesWith(x, rest));
      }
      SortIsStable(rows, sorts);
      StableSortUnique(rows, t, SortRows(rows, sorts), sorts);
    }
  }

  lemma {:induction false} TiesNested(s: seq<Row>, x: Row, sorts: seq<Sort>)
    requires sorts != []
    ensures Keep(s, TiesWith(x, sorts)) == Keep(Keep(s, TiesWith(x, [sorts[0]])), TiesWith(x, sorts[1..]))
  {
    if s == [] {
    } else {
      TiesNested(s[1..], x, sorts);
      TiesSplit(x, s[0], sorts);
      KeepCons(s[0], Keep(s[1..], TiesWith(x, [sorts[0]])), TiesWith(x, sorts[1..]));
    }
  }

  lemma {:induction false} NoKeysNoChange(rows: seq<Row>)
    ensures SortRows(rows, []) == rows
  {
    if rows == [] {
    } else {
      NoKeysNoChange(rows[1..]);
      assert Merge([rows[0]], rows[1..], []) == [rows[0]] + rows[1..];
    }
  }

  lemma {:induction false} KeepOrdered(t: seq<Row>, sorts: seq<Sort>, p: Row -> bool)
    requires Ordered(t, sorts)
    ensures Ordered(Keep(t, p), sorts)
    ensures t != [] && Keep(t, p) != [] ==> Le(t[0], Keep(t, p)[0], sorts)
  {
    if t == [] {
    } else {
      LeReflexive(t[0], sorts);
      KeepOrdered(t[1..], sorts, p);
      var tail := Keep(t[1..], p);
      if tail != [] { LeTransitive(t[0], t[1], tail[0], sorts); }
      if p(t[0]) { PrependOrdered(t[0], tail, sorts); }
    }
  }

  /** Filtering and sorting may be done in either order. */
  lemma KeepCommutesWithSort(rows: seq<Row>, sorts: seq<Sort>, p: Row -> bool)
    ensures Keep(SortRows(rows, sorts), p) == SortRows(Keep(rows, p), sorts)
  {
    var t := SortRows(rows, sorts);
    SortIsStable(rows, sorts);
    KeepOrdered(t, sorts, p);
    forall x ensures Keep(Keep(t, p), TiesWith(x, sorts)) == Keep(Keep(rows, p), TiesWith(x, sorts)) {
      KeepCommutes(t, p, TiesWith(x, sorts));
      KeepCommutes(rows, p, TiesWith(x, sorts));
    }
    SortIsStable(Keep(rows, p), sorts);
    StableSortUnique(Keep(rows, p), Keep(t, p), SortRows(Keep(rows, p), sorts), sorts);
  }

  /** Sorting what is already in order changes nothing. */
  lemma SortOrderedIsIdentity(t: seq<Row>, sorts: seq<Sort>)
    requires Ordered(t, sorts)
    ensures SortRows(t, sorts) == t
  {
    SortIsStable(t, sorts);
    StableSortUnique(t, SortRows(t, sorts), t, sorts);
  }

  /** The rows of the input, each as often as before. */
  lemma {:induction false} SortPermutes(s: seq<Row>, sorts: seq<Sort>)
    ensures multiset(SortRows(s, sorts)) == multiset(s)
  {
    if s == [] {
    } else {
      SortPermutes(s[1..], sorts);
      MergePermutes([s[0]], SortRows(s[1..], sorts), sorts);
      assert s == [s[0]] + s[1..];
    }
  }

  lemma {:induction false} MergePermutes(x: seq<Row>, y: seq<Row>, sorts: seq<Sort>)
    ensures multiset(Merge(x, y, sorts)) == multiset(x) + multiset(y)
    decreases |x| + |y|
  {
    if x != [] && y != [] {
      assert x == [x[0]] + x[1..] && y == [y[0]] + y[1..];
      if Le(x[0], y[0], sorts) {
        MergePermutes(x[1..], y, sorts);
      } else {
        MergePermutes(x, y[1..], sorts);
      }
    }
  }

  lemma NullsCompare(a: Row, b: Row, spec: Sort, more: seq<Sort>)
    requires Le(a, b, [spec] + more)
    ensures if spec.dir.Asc? then GetOrNull(a, spec.field).Null? ==> GetOrNull(b, spec.field).Null?
            else GetOrNull(b, spec.field).Null? ==> GetOrNull(a, spec.field).Null?
  {
    assert ([spec] + more)[0] == spec;
  }

  /** In ascending order rows without a value come last, and in descending order first. */
  lemma NullsAtOneEnd(rows: seq<Row>, spec: Sort, more: seq<Sort>, i: nat, j: nat)
    requires i < j < |rows|
    ensures var t := SortRows(rows, [spec] + more);
            if spec.dir.Asc? then GetOrNull(t[i], spec.field).Null? ==> GetOrNull(t[j], spec.field).Null?
            else GetOrNull(t[j], spec.field).Null? ==> GetOrNull(t[i], spec.field).Null?
  {
    hide SortRows, Le, GetOrNull, SameTies, Ordered;
    var sorts := [spec] + more;
    var t := SortRows(rows, sorts);
    SortIsStable(rows, sorts);
    OrderedMeansEveryPair(t, sorts, i, j);
    NullsCompare(t[i], t[j], spec, more);
  }

  // ----- windows of merged runs -----

  function Take(s: seq<Row>, n: nat): seq<Row> {
    if n <= |s| then s[..n] else s
  }

  lemma {:induction false} MergeAssociative(x: seq<Row>, y: seq<Row>, z: seq<Row>, sorts: seq<Sort>)
    ensures Merge(Merge(x, y, sorts), z, sorts) == Merge(x, Merge(y, z, sorts), sorts)
    decreases |x| + |y| + |z|
  {
    if x != [] && y != [] && z != [] {
      var xy, yz := Merge(x, y, sorts), Merge(y, z, sorts);
      if Le(x[0], y[0], sorts) {
        assert xy[1..] == Merge(x[1..], y, sorts);
        if Le(x[0], z[0], sorts) {
          MergeAssociative(x[1..], y, z, sorts);
        } else {
          if Le(y[0], z[0], sorts) { LeTransitive(x[0], y[0], z[0], sorts); }
          assert yz[1..] == Merge(y, z[1..], sorts);
          MergeAssociative(x, y, z[1..], sorts);
        }
      } else {
        assert xy[1..] == Merge(x, y[1..], sorts);
        if Le(y[0], z[0], sorts) {
          assert yz[1..] == Merge(y[1..], z, sorts);
          MergeAssociative(x, y[1..], z, sorts);
        } else {
          LeTotal(y[0], z[0], sorts);
          LeTotal(x[0], y[0], sorts);
          if Le(x[0], z[0], sorts) { LeTransitive(x[0], z[0], y[0], sorts); }
          assert yz[1..] == Merge(y, z[1..], sorts);
          MergeAssociative(x, y, z[1..], sorts);
        }
      }
    }
  }

  /** Sorting a concatenation is merging the sorted parts. */
  lemma {:induction false} SortConcat(a: seq<Row>, b: seq<Row>, sorts: seq<Sort>)
    ensures SortRows(a + b, sorts) == Merge(SortRows(a, sorts), SortRows(b, sorts), sorts)
  {
    if a == [] {
      assert a + b == b;
    } else {
      assert (a + b)[0] == a[0] && (a + b)[1..] == a[1..] + b;
      SortConcat(a[1..], b, sorts);
      MergeAssociative([a[0]], SortRows(a[1..], sorts), SortRows(b, sorts), sorts);
    }
  }

  /** The first n rows of a merge depend only on the first n rows of each run: any two
      pairs of runs that agree that far merge to the same first n rows. */
  lemma {:induction false} MergePrefix(x: seq<Row>, y: seq<Row>, u: seq<Row>, v: seq<Row>, sorts: seq<Sort>, n: nat)
    requires Take(x, n) == Take(u, n) && Take(y, n) == Take(v, n)
    ensures Take(Merge(x, y, sorts), n) == Take(Merge(u, v, sorts), n)
    decreases n
  {
    if n == 0 {
    } else if x == [] || u == [] {
      assert Take(x, n) == [] && Take(u, n) == [] && x == [] && u == [];
    } else if y == [] || v == [] {
      assert Take(y, n) == [] && Take(v, n) == [] && y == [] && v == [];
    } else {
      assert x[0] == Take(x, n)[0] == u[0] && y[0] == Take(y, n)[0] == v[0];
      TakeFewer(x, u, n);
      TakeFewer(y, v, n);
      if Le(x[0], y[0], sorts) {
        MergePrefix(x[1..], y, u[1..], v, sorts, n - 1);
        TakeCons(x[0], Merge(x[1..], y, sorts), n);
        TakeCons(x[0], Merge(u[1..], v, sorts), n);
      } else {
        MergePrefix(x, y[1..], u, v[1..], sorts, n - 1);
        TakeCons(y[0], Merge(x, y[1..], sorts), n);
        TakeCons(y[0], Merge(u, v[1..], sorts), n);
      }
    }
  }

  lemma TakeFewer(x: seq<Row>, u: seq<Row>, n: nat)
    requires n > 0 && x != [] && u != [] && Take(x, n) == Take(u, n)
    ensures Take(x, n - 1) == Take(u, n - 1) && Take(x[1..], n - 1) == Take(u[1..], n - 1)
  {
    var t := Take(x, n);
    assert Take(x, n - 1) == Take(t, n - 1) && Take(u, n - 1) == Take(t, n - 1);
    assert Take(x[1..], n - 1) == t[1..] && Take(u[1..], n - 1) == t[1..];
  }

  lemma TakeCons(r: Row, s: seq<Row>, n: nat)
    requires n > 0
    ensures Take([r] + s, n) == [r] + Take(s, n - 1)
  {
  }
}
