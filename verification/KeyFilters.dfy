/** Filtering a prefixed union by its own key: the sources test the raw key, the answer shows the
    rewritten one, and but for two conditions that nothing meets they disagree on some row. */
module KeyFilters {
  import opened Values
  import opened Query
  import opened LocalEngine
  import opened UnionProvider
  import opened UnionExactness

  /** What is left of a filter, asked of a source's raw rows, selects what the whole filter
      selects of its stamped rows. */
  ghost predicate Faithful(u: Union, f: Filter, tag: string) {
    && SplitOf(u, f).Ok?
    && forall row ::
         Match(Stamp(u, row, tag), f) == (Allowed(SplitOf(u, f).value, tag) && MatchesEvery(row, SplitOf(u, f).value.kept))
  }

  ghost predicate RawAgrees(u: Union, c: Condition, tag: string) {
    forall row :: MatchCondition(Stamp(u, row, tag), c) == MatchCondition(row, c)
  }

  lemma FaithfulMeans(u: Union, c: Condition, tag: string)
    requires c.field != u.sourceField
    ensures Faithful(u, Cond(c), tag) <==> RawAgrees(u, c, tag)
  {
    hide MatchCondition, Stamp;
    forall row ensures MatchesEvery(row, [Cond(c)]) == MatchCondition(row, c) {
      EveryOne(row, Cond(c));
    }
    assert forall row :: Match(Stamp(u, row, tag), Cond(c)) == MatchCondition(Stamp(u, row, tag), c);
  }

  // ----- equality and null tests -----

  function KeyRow(u: Union, v: Value): Row { map[u.pk := v] }

  lemma StampedKey(u: Union, row: Row, tag: string)
    requires u.prefixed
    ensures Get(Stamp(u, row, tag), u.pk) == Some(Str(tag + ":" + Text(GetOrNull(row, u.pk))))
  {
  }

  /** A rewritten key is longer than the text of the value it could equal. */
  lemma LongerIsUnequal(s: string, v: Value)
    requires |s| > |Text(v)|
    ensures !Equals(Str(s), v)
  {
  }

  lemma {:induction false} LongestText(vs: seq<Value>) returns (k: nat)
    requires vs != []
    ensures k < |vs| && forall i :: 0 <= i < |vs| ==> |Text(vs[i])| <= |Text(vs[k])|
  {
    k := 0;
    if |vs| > 1 {
      var j := LongestText(vs[1..]);
      assert forall i :: 0 < i < |vs| ==> vs[i] == vs[1..][i - 1];
      if |Text(vs[0])| <= |Text(vs[j + 1])| { k := j + 1; }
    }
  }

  lemma EqualityDisagrees(u: Union, c: Condition, tag: string)
    requires u.prefixed && c.field == u.pk && c.op in {EQ, NE, IN, NOT_IN} && (c.op in {IN, NOT_IN} ==> c.values != [])
    ensures !RawAgrees(u, c, tag)
  {
    var v := c.value;
    if c.op in {IN, NOT_IN} {
      var k := LongestText(c.values);
      v := c.values[k];
      assert Equals(v, c.values[k]);
    }
    var row := KeyRow(u, v);
    StampedKey(u, row, tag);
    var s := tag + ":" + Text(v);
    LongerIsUnequal(s, v);
    forall i | c.op in {IN, NOT_IN} && 0 <= i < |c.values| ensures !Equals(Str(s), c.values[i]) {
      LongerIsUnequal(s, c.values[i]);
    }
    hide Equals;
    assert MatchCondition(Stamp(u, row, tag), c) != MatchCondition(row, c);
  }

  lemma NullTestDisagrees(u: Union, c: Condition, tag: string)
    requires u.prefixed && c.field == u.pk && (c.op in {IS_NULL, NOT_NULL} || (c.op == NOT_IN && c.values == []))
    ensures !RawAgrees(u, c, tag)
  {
    var row: Row := map[];
    StampedKey(u, row, tag);
    assert MatchCondition(Stamp(u, row, tag), c) != MatchCondition(row, c);
  }

  /** An equality in particular: whatever is asked for, the row with that key is in its source and not in the answer. */
  lemma KeyEqualityUnfaithful(u: Union, v: Value, tag: string)
    requires u.prefixed && u.pk != u.sourceField && tag in u.Labels()
    ensures var f := Cond(Condition(u.pk, EQ, v, []));
            var row: Row := map[u.pk := v];
            && SplitOf(u, f).Ok? && Allowed(SplitOf(u, f).value, tag)
            && MatchesEvery(row, SplitOf(u, f).value.kept) && !Match(Stamp(u, row, tag), f)
  {
    LongerIsUnequal(tag + ":" + Text(v), v);
  }

  // ----- orderings -----

  lemma {:induction false} LessBehindPrefix(p: string, x: string, y: string)
    ensures StrLess(p + x, p + y) <==> StrLess(x, y)
  {
    if p == "" {
      assert p + x == x && p + y == y;
    } else {
      LessBehindPrefix(p[1..], x, y);
      assert (p + x)[1..] == p[1..] + x && (p + y)[1..] == p[1..] + y;
    }
  }

  /** Against a text that does not start with the prefix, the prefix alone decides. */
  lemma {:induction false} PrefixDecides(p: string, x: string, t: string)
    requires !StartsWith(t, p)
    ensures StrLess(p + x, t) <==> StrLess(p, t)
    ensures StrLess(t, p + x) <==> !StrLess(p, t)
  {
    if t != "" && p[0] == t[0] {
      assert p == [p[0]] + p[1..] && t == [t[0]] + t[1..];
      assert (p + x)[1..] == p[1..] + x;
      PrefixDecides(p[1..], x, t[1..]);
    }
  }

  /** Some key is below a bound in one form alone. */
  lemma BelowInOneForm(p: string, t: string) returns (x: string)
    requires p != "" && t != ""
    ensures StrLess(x, t) != StrLess(p + x, t)
  {
    if StartsWith(t, p) {
      var rest := t[|p|..];
      assert t == p + rest;
      StrLessTrichotomy(rest, t);
      StrLessTrichotomy(rest, rest);
      StrLessTrichotomy(t, t);
      x := if StrLess(rest, t) then rest else t;
      LessBehindPrefix(p, x, rest);
    } else {
      x := if StrLess(p, t) then t else "";
      PrefixDecides(p, x, t);
      StrLessTrichotomy(t, t);
    }
  }

  /** Some key is above a bound in one form alone. */
  lemma AboveInOneForm(p: string, t: string) returns (x: string)
    requires p != ""
    ensures StrLess(t, x) != StrLess(t, p + x)
  {
    if StartsWith(t, p) {
      var rest := t[|p|..];
      assert t == p + rest;
      StrLessTrichotomy(rest, t);
      StrLessTrichotomy(rest, rest);
      StrLessTrichotomy(t, t);
      x := if StrLess(rest, t) then t else rest;
      LessBehindPrefix(p, rest, x);
    } else {
      x := if StrLess(p, t) then t + "0" else t;
      PrefixDecides(p, x, t);
      StrLessTrichotomy(t, t);
      LessBehindPrefix(t, "", "0");
      assert t + "" == t;
    }
  }

  /** Against anything but a boolean, texts are ordered as texts. */
  lemma TextOrder(s: string, v: Value)
    requires !v.Bool?
    ensures Compare(Str(s), v) == CompareText(s, Text(v))
  {
  }

  lemma EmptyTextIsStr(v: Value)
    ensures Text(v) == "" <==> v == Str("")
  {
  }

  lemma OrderingDisagrees(u: Union, c: Condition, tag: string)
    requires u.prefixed && c.field == u.pk && c.op in {LT, LTE, GT, GTE} && !(c.op == LT && c.value == Str(""))
    ensures !RawAgrees(u, c, tag)
  {
    hide StrLess, Text;
    var p, t := tag + ":", Text(c.value);
    EmptyTextIsStr(c.value);
    var row: Row;
    if c.value.Bool? {
      row := KeyRow(u, Int(if c.op in {LT, LTE} then -1 else 2));
    } else if c.op == GTE && t == "" {
      row := map[];
    } else {
      var x := "";
      if c.op in {LT, GTE} { x := BelowInOneForm(p, t); } else { x := AboveInOneForm(p, t); }
      row := KeyRow(u, Str(x));
      TextIsItself(x);
      TextOrder(x, c.value);
      TextOrder(p + x, c.value);
      StrLessTrichotomy(x, t);
      StrLessTrichotomy(p + x, t);
    }
    StampedKey(u, row, tag);
    if !c.value.Bool? { TextOrder(p + Text(GetOrNull(row, u.pk)), c.value); }
    NothingBelowEmpty(p + Text(GetOrNull(row, u.pk)));
    assert MatchCondition(Stamp(u, row, tag), c) != MatchCondition(row, c);
  }

  lemma TextIsItself(s: string)
    ensures Text(Str(s)) == s
  {
  }

  lemma NothingBelowEmpty(s: string)
    ensures !StrLess(s, "")
  {
  }

  // ----- beginnings -----

  lemma FoldConcat(a: string, b: string)
    ensures Fold(a + b) == Fold(a) + Fold(b)
  {
  }

  lemma BeginningDisagrees(u: Union, c: Condition, tag: string)
    requires u.prefixed && c.field == u.pk && c.op == STARTSWITH
    ensures !RawAgrees(u, c, tag)
  {
    hide Fold, Text;
    var p, t := tag + ":", AsText(c.value);
    var row: Row := map[];
    if StartsWith(Fold(p), Fold(t)) {
      FoldConcat(p, Text(Null));
      assert StartsWith(Fold(p + Text(Null)), Fold(t));
    } else if !StartsWith(Fold(p + t), Fold(t)) {
      row := KeyRow(u, Str(t));
      TextIsItself(t);
    } else {
      var x := t[|p|..];
      row := KeyRow(u, Str(x));
      TextIsItself(x);
      FoldConcat(p, t);
      FoldConcat(p, x);
      assert t == t[..|p|] + x;
      FoldConcat(t[..|p|], x);
      assert StartsWith(Fold(p + x), Fold(t)) && !StartsWith(Fold(x), Fold(t));
    }
    StampedKey(u, row, tag);
    TextIsItself(p + Text(GetOrNull(row, u.pk)));
    assert MatchCondition(Stamp(u, row, tag), c) != MatchCondition(row, c);
  }

  // ----- the condition -----

  /** A condition that no row meets, in either form. */
  predicate NothingMeets(c: Condition) {
    (c.op == IN && c.values == []) || (c.op == LT && c.value == Str(""))
  }

  /** Over rows whose keys are prefixed, a source answers a condition on the key as the union
      shows it, whatever the rows, if and only if no row can meet it: it is IN with no values or
      below the empty text. BETWEEN and the tests for a part or an end are not spoken of. */
  lemma KeyFilterFaithfulIff(u: Union, c: Condition, tag: string)
    requires u.prefixed && u.pk != u.sourceField && c.field == u.pk
    requires c.op !in {BETWEEN, CONTAINS, ICONTAINS, ENDSWITH}
    ensures Faithful(u, Cond(c), tag) <==> NothingMeets(c)
  {
    hide RawAgrees, MatchCondition, Stamp;
    FaithfulMeans(u, c, tag);
    if NothingMeets(c) {
      NothingMet(u, c, tag);
    } else if c.op in {EQ, NE} || (c.op in {IN, NOT_IN} && c.values != []) {
      EqualityDisagrees(u, c, tag);
    } else if c.op in {LT, LTE, GT, GTE} {
      OrderingDisagrees(u, c, tag);
    } else if c.op == STARTSWITH {
      BeginningDisagrees(u, c, tag);
    } else {
      NullTestDisagrees(u, c, tag);
    }
  }

  lemma NothingMet(u: Union, c: Condition, tag: string)
    requires NothingMeets(c)
    ensures RawAgrees(u, c, tag)
  {
  }
}
