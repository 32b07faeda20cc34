/** The backend-neutral query model: filters, sorts, list queries and pages. */
module Query {
  import opened Values

  datatype Op =
    | EQ | NE | LT | LTE | GT | GTE
    | IN | NOT_IN | BETWEEN
    | CONTAINS | ICONTAINS | STARTSWITH | ENDSWITH
    | IS_NULL | NOT_NULL

  /** One comparison. IN, NOT_IN and BETWEEN read `values` (two of them for BETWEEN),
      the null tests read neither, and every other operator reads `value`. */
  datatype Condition = Condition(field: string, op: Op, value: Value, values: seq<Value>)

  datatype Filter =
    | Cond(c: Condition)
    | And(children: seq<Filter>)
    | Or(children: seq<Filter>)
    | Not(child: Filter)

  /** Joins filters with AND, dropping absent ones and collapsing a single child. */
  function AndOf(kept: seq<Filter>): Option<Filter> {
    if kept == [] then None else if |kept| == 1 then Some(kept[0]) else Some(And(kept))
  }

  function Present(f: Option<Filter>): seq<Filter> {
    if f.Some? then [f.value] else []
  }

  /** Every operator used anywhere in a filter tree. */
  function OpsOf(f: Filter): set<Op> {
    match f
    case Cond(c) => {c.op}
    case Not(g) => OpsOf(g)
    case And(cs) => set i, op | 0 <= i < |cs| && op in OpsOf(cs[i]) :: op
    case Or(cs) => set i, op | 0 <= i < |cs| && op in OpsOf(cs[i]) :: op
  }

  function FilterOps(f: Option<Filter>): set<Op> {
    if f.Some? then OpsOf(f.value) else {}
  }

  /** Whether a filter tree mentions a field. */
  predicate Mentions(f: Filter, field: string) {
    match f
    case Cond(c) => c.field == field
    case Not(g) => Mentions(g, field)
    case And(cs) => exists i :: 0 <= i < |cs| && Mentions(cs[i], field)
    case Or(cs) => exists i :: 0 <= i < |cs| && Mentions(cs[i], field)
  }

  /** The conditions a filter is made of. */
  function ConditionsOf(f: Filter): (cs: seq<Condition>)
    decreases f, 1
  {
    match f
    case Cond(c) => [c]
    case Not(g) => ConditionsOf(g)
    case And(fs) => ConditionsOfEach(fs)
    case Or(fs) => ConditionsOfEach(fs)
  }

  function ConditionsOfEach(fs: seq<Filter>): seq<Condition>
    decreases fs, 0
  {
    if fs == [] then [] else ConditionsOf(fs[0]) + ConditionsOfEach(fs[1..])
  }

  predicate HasOp(cs: seq<Condition>, op: Op) { exists i :: 0 <= i < |cs| && cs[i].op == op }
  predicate HasField(cs: seq<Condition>, field: string) { exists i :: 0 <= i < |cs| && cs[i].field == field }

  lemma HasConcat(a: seq<Condition>, b: seq<Condition>, op: Op, field: string)
    ensures HasOp(a + b, op) <==> HasOp(a, op) || HasOp(b, op)
    ensures HasField(a + b, field) <==> HasField(a, field) || HasField(b, field)
  {
    if HasOp(b, op) {
      var i :| 0 <= i < |b| && b[i].op == op;
      assert (a + b)[|a| + i] == b[i];
    }
    if HasField(b, field) {
      var i :| 0 <= i < |b| && b[i].field == field;
      assert (a + b)[|a| + i] == b[i];
    }
    assert forall i :: 0 <= i < |a| ==> (a + b)[i] == a[i];
  }

  /** No condition is overlooked, however deep it stands: the operators used are theirs, and the
      fields mentioned are theirs. */
  lemma {:induction false} NothingOverlooked(f: Filter, op: Op, field: string)
    ensures op in OpsOf(f) <==> HasOp(ConditionsOf(f), op)
    ensures Mentions(f, field) <==> HasField(ConditionsOf(f), field)
    decreases f, 1
  {
    match f
    case Cond(c) => assert ConditionsOf(f)[0] == c;
    case Not(g) => NothingOverlooked(g, op, field);
    case And(fs) => NothingOverlookedIn(fs, op, field);
    case Or(fs) => NothingOverlookedIn(fs, op, field);
  }

  lemma {:induction false} NothingOverlookedIn(fs: seq<Filter>, op: Op, field: string)
    ensures (exists i :: 0 <= i < |fs| && op in OpsOf(fs[i])) <==> HasOp(ConditionsOfEach(fs), op)
    ensures (exists i :: 0 <= i < |fs| && Mentions(fs[i], field)) <==> HasField(ConditionsOfEach(fs), field)
    decreases fs, 0
  {
    if fs == [] {
    } else {
      var rest := fs[1..];
      NothingOverlooked(fs[0], op, field);
      NothingOverlookedIn(rest, op, field);
      HasConcat(ConditionsOf(fs[0]), ConditionsOfEach(rest), op, field);
      hide OpsOf, Mentions, ConditionsOf, HasOp, HasField;
      assert forall i :: 0 <= i < |rest| ==> rest[i] == fs[i + 1];
      assert forall i :: 0 < i < |fs| ==> fs[i] == rest[i - 1];
    }
  }

  datatype SortDir = Asc | Desc
  datatype Sort = Sort(field: string, dir: SortDir)

  type positive = n: int | 1 <= n witness 1

  /** A list-style read. The empty search text is an absent one. */
  datatype ListQuery = ListQuery(
    filter: Option<Filter>, scope: Option<Filter>, search: string, sort: seq<Sort>,
    page: positive, pageSize: positive, withTotal: bool)
  {
    function Effective(): Option<Filter> {
      AndOf(Present(filter) + Present(scope))
    }

    function Offset(): nat {
      Product(page - 1, pageSize)
    }
  }

  function Product(a: nat, b: nat): nat { a * b }

  datatype Page = Page(items: seq<Row>, page: positive, pageSize: positive, total: Option<nat>, hasMore: bool)

  datatype Error = TooManyRows | UnsupportedOperation | TypeError

  datatype Result<+T> = Ok(value: T) | Refused(error: Error)
}
