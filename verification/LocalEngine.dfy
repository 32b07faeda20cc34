/** Executing the query language over a plain list of rows: the reference semantics every
    backend's answers are measured against. */
module LocalEngine {
  import opened Values
  import opened Query
  import opened Sorting

  // ----- filters -----

  predicate MatchCondition(row: Row, c: Condition) {
    var got := Get(row, c.field);
    if c.op.IS_NULL? then got.None? || got.value.Null?
    else if c.op.NOT_NULL? then got.Some? && !got.value.Null?
    else if got.None? then false
    else
      var v, t := got.value, c.value;
      match c.op
      case EQ => Equals(v, t)
      case NE => !Equals(v, t)
      case LT => !v.Null? && Compare(v, t) == Less
      case LTE => !v.Null? && Compare(v, t) in {Less, Same}
      case GT => !v.Null? && Compare(v, t) == Greater
      case GTE => !v.Null? && Compare(v, t) in {Greater, Same}
      case IN => exists i :: 0 <= i < |c.values| && Equals(v, c.values[i])
      case NOT_IN => !exists i :: 0 <= i < |c.values| && Equals(v, c.values[i])
      case BETWEEN => |c.values| == 2 && Compare(v, c.values[0]) in {Greater, Same}
                      && Compare(v, c.values[1]) in {Less, Same}
      case CONTAINS => Contains(AsText(v), AsText(t))
      case ICONTAINS => Contains(Fold(AsText(v)), Fold(AsText(t)))
      case STARTSWITH => StartsWith(Fold(AsText(v)), Fold(AsText(t)))
      case ENDSWITH => EndsWith(Fold(AsText(v)), Fold(AsText(t)))
      case _ => false
  }

  predicate Holds(row: Row, field: string, op: Op, v: Value) {
    MatchCondition(row, Condition(field, op, v, []))
  }

  predicate HoldsAmong(row: Row, field: string, op: Op, vs: seq<Value>) {
    MatchCondition(row, Condition(field, op, Null, vs))
  }

  /** A row without the field satisfies IS_NULL alone, not even NE; with it, NE and NOT_IN deny
      EQ and IN. */
  lemma DenialsAgree(row: Row, c: Condition)
    ensures Holds(row, c.field, NOT_NULL, c.value) <==> !Holds(row, c.field, IS_NULL, c.value)
    ensures c.field !in row && MatchCondition(row, c) ==> c.op == IS_NULL
    ensures c.field in row ==> (Holds(row, c.field, NE, c.value) <==> !Holds(row, c.field, EQ, c.value))
    ensures c.field in row ==> (HoldsAmong(row, c.field, NOT_IN, c.values) <==> !HoldsAmong(row, c.field, IN, c.values))
  {
    hide Compare, PyEq, AsText, Fold;
  }

  /** IN is EQ to one of its values. */
  lemma InIsSomeEqual(row: Row, field: string, vs: seq<Value>)
    ensures HoldsAmong(row, field, IN, vs) <==> exists i :: 0 <= i < |vs| && Holds(row, field, EQ, vs[i])
  {
    hide Compare, PyEq, AsText, Fold;
    if field in row {
      assert forall i :: 0 <= i < |vs| ==> (Holds(row, field, EQ, vs[i]) <==> Equals(row[field], vs[i]));
    }
  }

  /** On a value that is not null BETWEEN is GTE and LTE, and where two values can be ordered at
      all, GTE and LTE deny LT and GT, which exclude each other. */
  lemma OrderingsAgree(row: Row, field: string, v: Value, w: Value)
    requires field in row && !row[field].Null?
    ensures HoldsAmong(row, field, BETWEEN, [v, w]) <==> Holds(row, field, GTE, v) && Holds(row, field, LTE, w)
    ensures Compare(row[field], v) != Unordered ==>
              (Holds(row, field, GTE, v) <==> !Holds(row, field, LT, v)) && (Holds(row, field, LTE, v) <==> !Holds(row, field, GT, v))
    ensures !(Holds(row, field, LT, v) && Holds(row, field, GT, v))
  {
    hide Compare, PyEq, AsText, Fold;
    assert [v, w][0] == v && [v, w][1] == w;
  }

  predicate Match(row: Row, f: Filter) {
    match f
    case Cond(c) => MatchCondition(row, c)
    case Not(g) => !Match(row, g)
    case And(cs) => forall i :: 0 <= i < |cs| ==> Match(row, cs[i])
    case Or(cs) => exists i :: 0 <= i < |cs| && Match(row, cs[i])
  }

  function Denied(cs: seq<Filter>): (ds: seq<Filter>)
    ensures |ds| == |cs| && forall i :: 0 <= i < |cs| ==> ds[i] == Not(cs[i])
  {
    seq(|cs|, i requires 0 <= i < |cs| => Not(cs[i]))
  }

  /** Alternatives fail together exactly when each of them fails. */
  lemma DeniedTogether(row: Row, cs: seq<Filter>)
    ensures Match(row, Not(Or(cs))) <==> Match(row, And(Denied(cs)))
    ensures Match(row, Not(And(cs))) <==> Match(row, Or(Denied(cs)))
  {
    var ds := Denied(cs);
    assert forall i :: 0 <= i < |cs| ==> (Match(row, ds[i]) <==> !Match(row, cs[i]));
  }

  /** Filters and sorts agree on what is less: of numbers the smaller, of texts without capitals
      the one before by code point; and no row without a value is below or above anything. */
  lemma OrderIsOne(a: Row, b: Row, field: string)
    requires field in a && field in b
    ensures a[field].Int? && b[field].Int? ==>
              (KeyBefore(a, b, Sort(field, Asc)) <==> a[field].i < b[field].i)
              && (Holds(a, field, LT, b[field]) <==> a[field].i < b[field].i)
    ensures a[field].Str? && b[field].Str? && Fold(a[field].s) == a[field].s && Fold(b[field].s) == b[field].s ==>
              (KeyBefore(a, b, Sort(field, Asc)) <==> Holds(a, field, LT, b[field]))
    ensures a[field].Bool? && b[field].Bool? ==> (KeyBefore(a, b, Sort(field, Asc)) <==> Holds(a, field, LT, b[field]))
    ensures a[field].Null? ==> forall op :: op in {LT, LTE, GT, GTE} ==> !Holds(a, field, op, b[field])
    ensures KeyBefore(a, b, Sort(field, Desc)) <==> KeyBefore(b, a, Sort(field, Asc))
    ensures KindOrder(a[field]) < KindOrder(b[field]) ==> KeyBefore(a, b, Sort(field, Asc))
  {
  }

  /** Kinds of values stand together: booleans, numbers, texts, and nothing at the end. */
  function KindOrder(v: Value): nat {
    if v.Null? then 3 else if v.Str? then 2 else if v.Int? then 1 else 0
  }

  predicate MatchAll(row: Row, f: Option<Filter>) {
    f.None? || Match(row, f.value)
  }

  function FilterTest(f: Option<Filter>): Row -> bool {
    (r: Row) => MatchAll(r, f)
  }

  function ApplyFilter(rows: seq<Row>, f: Option<Filter>): seq<Row> {
    Keep(rows, FilterTest(f))
  }

  /** The scope can never be lost behind the user's filter: a row passes the effective
      filter exactly when it passes both. */
  lemma EffectiveIsBoth(row: Row, q: ListQuery)
    ensures MatchAll(row, q.Effective()) <==> MatchAll(row, q.filter) && MatchAll(row, q.scope)
  {
    if q.filter.Some? && q.scope.Some? {
      var both := And([q.filter.value, q.scope.value]);
      assert [q.filter.value] + [q.scope.value] == [q.filter.value, q.scope.value];
      assert q.Effective() == Some(both);
      assert both.children[0] == q.filter.value && both.children[1] == q.scope.value;
    }
  }

  // ----- search -----

  function WordLength(term: string): (n: nat)
    ensures n <= |term|
    ensures forall k :: 0 <= k < n ==> !IsSpace(term[k])
    ensures n < |term| ==> IsSpace(term[n])
  {
    if term == "" || IsSpace(term[0]) then 0 else 1 + WordLength(term[1..])
  }

  /** The maximal runs of non-blank characters. */
  function Words(term: string): (words: seq<string>)
    ensures forall w :: w in words ==> w != "" && forall k :: 0 <= k < |w| ==> !IsSpace(w[k])
    decreases |term|
  {
    if term == "" then []
    else if IsSpace(term[0]) then Words(term[1..])
    else
      var n := WordLength(term);
      [term[..n]] + Words(term[n..])
  }

  /** The words of a text are those before a blank and those after it, and a text without blanks
      is one word: no other split has these properties. */
  lemma {:induction false} WordsSplitAtBlanks(a: string, c: char, b: string)
    requires c == ' ' || c == '\t' || c == '\n' || c == '\r'
    ensures Words(a + ([c] + b)) == Words(a) + Words(b)
    decreases |a|
  {
    hide WordLength, Words;
    var rest := [c] + b;
    if a == "" {
      assert a + rest == rest && rest[1..] == b;
      BlankFirst(rest);
      NoWords();
      assert [] + Words(b) == Words(b);
    } else if IsSpace(a[0]) {
      assert (a + rest)[1..] == a[1..] + rest;
      BlankFirst(a);
      BlankFirst(a + rest);
      WordsSplitAtBlanks(a[1..], c, b);
    } else {
      var n := WordLength(a);
      FirstWord(a);
      FirstWordOf(a, rest);
      WordsSplitAtBlanks(a[n..], c, b);
      var w, x, y := [a[..n]], Words(a[n..]), Words(b);
      assert w + (x + y) == (w + x) + y;
    }
  }

  lemma NoWords()
    ensures Words("") == []
  {
  }

  lemma BlankFirst(a: string)
    requires a != "" && IsSpace(a[0])
    ensures Words(a) == Words(a[1..])
  {
  }

  lemma FirstWordOf(a: string, rest: string)
    requires a != "" && !IsSpace(a[0]) && rest != "" && IsSpace(rest[0])
    ensures 0 < WordLength(a) && Words(a + rest) == [a[..WordLength(a)]] + Words(a[WordLength(a)..] + rest)
  {
    hide WordLength;
    WordLengthIn(a, rest);
    FirstWord(a + rest);
    var n := WordLength(a);
    assert (a + rest)[..n] == a[..n] && (a + rest)[n..] == a[n..] + rest;
  }

  lemma FirstWord(a: string)
    requires a != "" && !IsSpace(a[0])
    ensures 0 < WordLength(a) && Words(a) == [a[..WordLength(a)]] + Words(a[WordLength(a)..])
  {
  }

  lemma {:induction false} OneWord(a: string)
    requires a != "" && forall k :: 0 <= k < |a| ==> !IsSpace(a[k])
    ensures Words(a) == [a]
  {
    FirstWord(a);
    assert WordLength(a) == |a| && a[..|a|] == a && a[|a|..] == "";
  }

  lemma {:induction false} WordLengthIn(a: string, rest: string)
    requires rest != "" && IsSpace(rest[0])
    ensures WordLength(a + rest) == WordLength(a)
  {
    if a == "" {
      assert a + rest == rest;
    } else {
      assert (a + rest)[1..] == a[1..] + rest;
      WordLengthIn(a[1..], rest);
    }
  }

  function FieldTexts(row: Row, fields: seq<string>): seq<string> {
    if fields == [] then []
    else (if GetOrNull(row, fields[0]).Null? then [] else [Fold(AsText(row[fields[0]]))])
         + FieldTexts(row, fields[1..])
  }

  /** " ".join(parts) */
  function Join(parts: seq<string>): string {
    if parts == [] then "" else if |parts| == 1 then parts[0] else parts[0] + " " + Join(parts[1..])
  }

  predicate Hit(row: Row, words: seq<string>, fields: seq<string>) {
    words == [] || fields == [] ||
    forall i :: 0 <= i < |words| ==> Contains(Join(FieldTexts(row, fields)), Fold(words[i]))
  }

  function SearchTest(term: string, fields: seq<string>): Row -> bool {
    (r: Row) => Hit(r, Words(term), fields)
  }

  function ApplySearch(rows: seq<Row>, term: string, fields: seq<string>): seq<Row> {
    Keep(rows, SearchTest(term, fields))
  }

  predicate InSome(texts: seq<string>, w: string) {
    exists i :: 0 <= i < |texts| && Contains(texts[i], w)
  }

  /** A word cannot match across two fields: it occurs in the joined text exactly when it
      occurs in one of the texts that were joined. */
  lemma {:induction false} WordInJoin(parts: seq<string>, w: string)
    requires w != "" && forall k :: 0 <= k < |w| ==> w[k] != ' '
    ensures Contains(Join(parts), w) <==> InSome(parts, w)
  {
    if |parts| > 1 {
      WordInJoin(parts[1..], w);
      assert Join(parts) == parts[0] + " " + Join(parts[1..]);
      WordInEither(parts[0], Join(parts[1..]), w);
      assert parts == [parts[0]] + parts[1..];
      if InSome(parts[1..], w) {
        var i :| 0 <= i < |parts[1..]| && Contains(parts[1..][i], w);
        assert Contains(parts[i + 1], w);
      }
    } else if |parts| == 1 {
      assert Join(parts) == parts[0];
    } else {
      assert Join(parts) == "";
    }
  }

  lemma WordInEither(head: string, tail: string, w: string)
    requires w != "" && forall k :: 0 <= k < |w| ==> w[k] != ' '
    ensures Contains(head + " " + tail, w) <==> Contains(head, w) || Contains(tail, w)
  {
    var all := head + " " + tail;
    if Contains(all, w) {
      var i :| 0 <= i <= |all| && OccursAt(all, w, i);
      WordOnOneSide(head, tail, w, i);
    }
    if Contains(head, w) {
      var i :| 0 <= i <= |head| && OccursAt(head, w, i);
      assert all[i..i + |w|] == head[i..i + |w|];
      assert OccursAt(all, w, i);
    }
    if Contains(tail, w) {
      var i :| 0 <= i <= |tail| && OccursAt(tail, w, i);
      var j := |head| + 1 + i;
      assert all[|head| + 1..] == tail;
      assert all[j..j + |w|] == all[|head| + 1..][i..i + |w|];
      assert OccursAt(all, w, j);
    }
  }

  lemma WordOnOneSide(head: string, tail: string, w: string, i: nat)
    requires w != "" && forall k :: 0 <= k < |w| ==> w[k] != ' '
    requires OccursAt(head + " " + tail, w, i)
    ensures Contains(head, w) || Contains(tail, w)
  {
    var all := head + " " + tail;
    assert all[|head|] == ' ';
    forall k | i <= k < i + |w| ensures all[k] != ' ' {
      assert all[i..i + |w|][k - i] == w[k - i];
    }
    if i + |w| <= |head| {
      assert head[i..i + |w|] == all[i..i + |w|];
      assert OccursAt(head, w, i);
    } else {
      var j := i - |head| - 1;
      assert all[|head| + 1..] == tail;
      assert tail[j..j + |w|] == all[i..i + |w|];
      assert OccursAt(tail, w, j);
    }
  }

  predicate EveryWordFound(words: seq<string>, texts: seq<string>) {
    forall i :: 0 <= i < |words| ==> InSome(texts, Fold(words[i]))
  }

  /** A text stands in the field of a row, up to case. */
  predicate StandsIn(row: Row, field: string, w: string) {
    field in row && !row[field].Null? && Contains(Fold(Text(row[field])), Fold(w))
  }

  lemma {:induction false} InSomeField(row: Row, fields: seq<string>, w: string)
    ensures InSome(FieldTexts(row, fields), Fold(w)) <==> exists f :: f in fields && StandsIn(row, f, w)
  {
    hide Contains, Fold, Text;
    if fields == [] {
    } else {
      var rest := FieldTexts(row, fields[1..]);
      InSomeField(row, fields[1..], w);
      assert fields == [fields[0]] + fields[1..];
      assert (exists f :: f in fields && StandsIn(row, f, w)) <==>
             StandsIn(row, fields[0], w) || exists f :: f in fields[1..] && StandsIn(row, f, w);
      var texts := FieldTexts(row, fields);
      if GetOrNull(row, fields[0]).Null? {
        assert texts == rest;
      } else {
        assert texts == [Fold(Text(row[fields[0]]))] + rest;
        InSomeCons(texts, Fold(w));
        assert texts[1..] == rest && StandsIn(row, fields[0], w) == Contains(texts[0], Fold(w));
      }
    }
  }

  lemma InSomeCons(texts: seq<string>, w: string)
    requires texts != []
    ensures InSome(texts, w) <==> Contains(texts[0], w) || InSome(texts[1..], w)
  {
    hide Contains;
    if InSome(texts[1..], w) {
      var i :| 0 <= i < |texts[1..]| && Contains(texts[1..][i], w);
      assert Contains(texts[i + 1], w);
    }
    if InSome(texts, w) {
      var i :| 0 <= i < |texts| && Contains(texts[i], w);
      if i > 0 { assert Contains(texts[1..][i - 1], w); }
    }
  }

  /** The search box promise: every word typed appears in at least one searched field, where
      any field is searched at all. */
  lemma SearchMeansEveryWordInSomeField(row: Row, term: string, fields: seq<string>)
    ensures SearchTest(term, fields)(row) <==>
              fields == [] || forall w :: w in Words(term) ==> exists f :: f in fields && StandsIn(row, f, w)
  {
    if fields == [] {
      return;
    }
    EveryWordInSomeText(row, term, fields);
    var words, texts := Words(term), FieldTexts(row, fields);
    forall w ensures InSome(texts, Fold(w)) <==> exists f :: f in fields && StandsIn(row, f, w) {
      InSomeField(row, fields, w);
    }
    hide SearchTest, InSome, StandsIn, Fold;
    if EveryWordFound(words, texts) {
      forall w | w in words ensures exists f :: f in fields && StandsIn(row, f, w) {
        var i :| 0 <= i < |words| && words[i] == w;
        assert InSome(texts, Fold(words[i]));
      }
    }
  }

  lemma EveryWordInSomeText(row: Row, term: string, fields: seq<string>)
    requires fields != []
    ensures SearchTest(term, fields)(row) <==> EveryWordFound(Words(term), FieldTexts(row, fields))
  {
    var words, texts := Words(term), FieldTexts(row, fields);
    forall i | 0 <= i < |words|
      ensures Contains(Join(texts), Fold(words[i])) <==> InSome(texts, Fold(words[i]))
    {
      var w := words[i];
      assert w in words;
      forall k | 0 <= k < |Fold(w)| ensures Fold(w)[k] != ' ' {
        assert !IsSpace(w[k]);
      }
      WordInJoin(texts, Fold(w));
    }
    if Hit(row, words, fields) {
      assert EveryWordFound(words, texts);
    }
    if EveryWordFound(words, texts) {
      assert Hit(row, words, fields);
    }
  }

  // ----- pages -----

  function Min(a: nat, b: nat): nat { if a <= b then a else b }

  /** rows[offset : offset + size] */
  function Window(rows: seq<Row>, offset: nat, size: nat): seq<Row> {
    rows[Min(offset, |rows|)..Min(offset + size, |rows|)]
  }

  function Paginate(rows: seq<Row>, q: ListQuery): Page {
    var items := Window(rows, q.Offset(), q.pageSize);
    Page(items, q.page, q.pageSize, Some(|rows|), q.Offset() + |items| < |rows|)
  }

  /** The first n pages, one after another. */
  function Pages(rows: seq<Row>, size: nat, n: nat): seq<Row> {
    if n == 0 then [] else Pages(rows, size, n - 1) + Window(rows, Product(n - 1, size), size)
  }

  /** Pages neither repeat nor skip a row. */
  lemma {:induction false} PagesTile(rows: seq<Row>, size: nat, n: nat)
    ensures Pages(rows, size, n) == Take(rows, Product(n, size))
  {
    if n > 0 {
      PagesTile(rows, size, n - 1);
      NextOffset(n - 1, size);
      TakeMore(rows, Product(n - 1, size), size);
    }
  }

  lemma NextOffset(n: nat, size: nat)
    ensures Product(n + 1, size) == Product(n, size) + size
  {
  }

  lemma TakeMore(rows: seq<Row>, offset: nat, size: nat)
    ensures Take(rows, offset + size) == Take(rows, offset) + Window(rows, offset, size)
  {
  }

  /** A page says that more follows exactly when the next one is not empty. */
  lemma MoreMeansNextPage(rows: seq<Row>, q: ListQuery)
    ensures Paginate(rows, q).hasMore <==> Paginate(rows, q.(page := q.page + 1)).items != []
  {
    NextOffset(q.page - 1, q.pageSize);
    hide Product;
  }

  // ----- the pipeline -----

  function RunStages(rows: seq<Row>, q: ListQuery, fields: seq<string>,
                     doFilter: bool, doSearch: bool, doSort: bool): seq<Row> {
    var filtered := if doFilter then ApplyFilter(rows, q.Effective()) else rows;
    var found := if doSearch then ApplySearch(filtered, q.search, fields) else filtered;
    if doSort then SortRows(found, q.sort) else found
  }

  function RunQuery(rows: seq<Row>, q: ListQuery, fields: seq<string>,
                    doFilter: bool, doSearch: bool, doSort: bool, doPaginate: bool): Page {
    var result := RunStages(rows, q, fields, doFilter, doSearch, doSort);
    if doPaginate then Paginate(result, q)
    else Page(result, q.page, q.pageSize, Some(|result|), false)
  }

  /** The rows a query selects, and the same rows in the order it asks for. */
  function Matching(rows: seq<Row>, q: ListQuery, fields: seq<string>): seq<Row> {
    ApplySearch(ApplyFilter(rows, q.Effective()), q.search, fields)
  }

  function Answer(rows: seq<Row>, q: ListQuery, fields: seq<string>): seq<Row> {
    SortRows(Matching(rows, q, fields), q.sort)
  }

  /** What "exact" means for a page served in answer to a query over all of `rows`: the
      right window of the whole sorted selection, a count only if it is the true count, and
      no claim that nothing follows when something does. */
  ghost predicate Exact(p: Page, rows: seq<Row>, q: ListQuery, fields: seq<string>) {
    var all := Answer(rows, q, fields);
    && p.items == Window(all, q.Offset(), q.pageSize)
    && p.page == q.page && p.pageSize == q.pageSize
    && (p.total.Some? ==> p.total.value == |all|)
    && (!p.hasMore ==> |all| <= q.Offset() + q.pageSize)
  }

  /** Stages done early by one engine and the rest done late by another amount to all of
      them done in order, whichever ones those are. */
  lemma StagesSplit(rows: seq<Row>, q: ListQuery, fields: seq<string>, f: bool, s: bool, o: bool)
    ensures RunStages(RunStages(rows, q, fields, f, s, o), q, fields, !f, !s, !o) == Answer(rows, q, fields)
  {
    var p, t := FilterTest(q.Effective()), SearchTest(q.search, fields);
    var base := if f then Keep(rows, p) else rows;
    var found := if s then Keep(base, t) else base;
    if o {
      KeepCommutesWithSort(found, q.sort, p);
      KeepCommutesWithSort(if f then found else Keep(found, p), q.sort, t);
    }
    if s && !f { KeepCommutes(rows, t, p); }
  }

  lemma {:induction false} StagesConcat(a: seq<Row>, b: seq<Row>, q: ListQuery, fields: seq<string>, f: bool, s: bool)
    ensures RunStages(a + b, q, fields, f, s, false)
         == RunStages(a, q, fields, f, s, false) + RunStages(b, q, fields, f, s, false)
  {
    var p, t := FilterTest(q.Effective()), SearchTest(q.search, fields);
    KeepConcat(a, b, p);
    KeepConcat(if f then Keep(a, p) else a, if f then Keep(b, p) else b, t);
  }
}
