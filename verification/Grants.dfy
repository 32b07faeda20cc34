/** Access control from a table of grants, over a structural base policy. */
module Grants {
  import opened Values
  import opened Query
  import opened LocalEngine

  datatype Operation = READ | CREATE | UPDATE | DELETE
  datatype RowScope = NONE | OWN | ALL

  datatype Grant = Grant(role: string, resource: string, ops: set<Operation>, rowScope: RowScope,
                         hidden: set<string>, readOnly: set<string>)

  const ANY_RESOURCE := "*"

  /** `owner` is the attribute of the caller that owner columns are compared with. */
  datatype Identity = Identity(roles: set<string>, authenticated: bool, owner: string)
  {
    /** The administrator role satisfies every requirement. */
    predicate HasRole(wanted: set<string>) {
      "admin" in roles || roles * wanted != {}
    }
  }

  datatype Field = Field(name: string, readRoles: set<string>, writeRoles: set<string>, fixed: bool)
  {
    predicate VisibleTo(who: Identity) {
      readRoles == {} || who.HasRole(readRoles)
    }

    predicate WritableBy(who: Identity) {
      !fixed && (writeRoles == {} || who.HasRole(writeRoles))
    }
  }

  /** The structural policy underneath, whatever it is. */
  datatype Base = Base(
    allows: (Operation, Identity, Option<Row>) -> bool,
    scope: Identity -> Option<Filter>,
    readable: Identity -> set<string>,
    writable: Identity -> set<string>)

  datatype DbPolicy = DbPolicy(base: Base, ownerField: string, superusers: set<string>, narrowOnly: bool, resource: string)

  /** A filter no row is meant to match. */
  const DENY_ALL := Cond(Condition("1", EQ, Str("\0__deny__"), []))

  // ----- looking grants up -----

  predicate Applies(g: Grant, who: Identity, resource: string) {
    g.role in who.roles && g.resource in {resource, ANY_RESOURCE}
  }

  function GrantsOf(table: seq<Grant>, who: Identity, resource: string): set<Grant> {
    set g | g in table && Applies(g, who, resource)
  }

  function Indexed(table: seq<Grant>, role: string): seq<Grant> {
    if table == [] then []
    else if table[0].role == role then [table[0]] + Indexed(table[1..], role)
    else Indexed(table[1..], role)
  }

  lemma {:induction false} IndexedHolds(table: seq<Grant>, role: string, g: Grant)
    ensures g in Indexed(table, role) <==> g in table && g.role == role
  {
    if table == [] {
    } else {
      IndexedHolds(table[1..], role, g);
    }
  }

  /** Walks the caller's roles, in whatever order they come. */
  method ForIdentity(table: seq<Grant>, who: Identity, order: seq<string>, resource: string) returns (found: seq<Grant>)
    requires who.roles == set r | r in order
    ensures (set g | g in found) == GrantsOf(table, who, resource)
  {
    found := [];
    for i := 0 to |order|
      invariant forall g :: g in found <==> g in table && g.role in order[..i] && g.resource in {resource, ANY_RESOURCE}
    {
      var mine := Indexed(table, order[i]);
      for k := 0 to |mine|
        invariant forall g :: g in found <==>
                    g.resource in {resource, ANY_RESOURCE} && ((g in table && g.role in order[..i]) || g in mine[..k])
      {
        if mine[k].resource in {resource, ANY_RESOURCE} {
          found := found + [mine[k]];
        }
      }
      assert mine[..|mine|] == mine && order[..i + 1] == order[..i] + [order[i]];
      forall g ensures g in mine <==> g in table && g.role == order[i] { IndexedHolds(table, order[i], g); }
    }
    assert order[..|order|] == order;
  }

  /** What a request remembers: nothing at all when the table is empty. Rows without a role
      are not grants. */
  function Prepare(p: DbPolicy, records: seq<Grant>, who: Identity): Option<set<Grant>> {
    if forall g :: g in records ==> g.role == "" then None
    else Some(set g | g in records && g.role != "" && Applies(g, who, p.resource))
  }

  // ----- checks -----

  function Rank(s: RowScope): nat {
    match s
    case NONE => 0
    case OWN => 1
    case ALL => 2
  }

  /** The widest row scope of the grants that allow an operation, if any does. */
  function Widest(grants: set<Grant>, op: Operation): Option<RowScope> {
    if exists g :: g in grants && op in g.ops && g.rowScope == ALL then Some(ALL)
    else if exists g :: g in grants && op in g.ops && g.rowScope == OWN then Some(OWN)
    else if exists g :: g in grants && op in g.ops then Some(NONE)
    else None
  }

  /** It is a maximum: one of the scopes, and none is wider. */
  lemma WidestIsMaximum(grants: set<Grant>, op: Operation)
    ensures Widest(grants, op).Some? <==> exists g :: g in grants && op in g.ops
    ensures Widest(grants, op).Some? ==> exists g :: g in grants && op in g.ops && g.rowScope == Widest(grants, op).value
    ensures Widest(grants, op).Some? ==>
              forall g :: g in grants && op in g.ops ==> Rank(g.rowScope) <= Rank(Widest(grants, op).value)
  {
    if Widest(grants, op) == Some(NONE) {
      var g :| g in grants && op in g.ops;
      assert g.rowScope == NONE;
    }
  }

  predicate Owns(p: DbPolicy, who: Identity, record: Row) {
    PyEq(GetOrNull(record, p.ownerField), Str(who.owner))
  }

  predicate Super(p: DbPolicy, who: Identity) {
    who.HasRole(p.superusers)
  }

  /** The grants' own answer, for a caller who does not bypass them. */
  predicate GrantsAllow(p: DbPolicy, op: Operation, who: Identity, record: Option<Row>, grants: set<Grant>) {
    var widest := Widest(grants, op);
    widest.Some? && !(record.Some? && op in {UPDATE, DELETE} && widest.value == OWN && !Owns(p, who, record.value))
  }

  predicate Allows(p: DbPolicy, configured: bool, grants: Option<set<Grant>>, op: Operation, who: Identity,
                   record: Option<Row>)
  {
    if !who.authenticated then false
    else if Super(p, who) && (op == READ || !p.narrowOnly) then true
    else if !Super(p, who) && (grants.None? || !configured) then p.base.allows(op, who, record)
    else if !Super(p, who) && !GrantsAllow(p, op, who, record, grants.value) then false
    else if op != READ && p.narrowOnly then p.base.allows(op, who, record)
    else true
  }

  function Owned(p: DbPolicy, who: Identity): Filter {
    Cond(Condition(p.ownerField, EQ, Str(who.owner), []))
  }

  function ScopeOf(p: DbPolicy, configured: bool, grants: Option<set<Grant>>, who: Identity): Option<Filter> {
    var structural := if p.narrowOnly then p.base.scope(who) else None;
    if !who.authenticated then Some(DENY_ALL)
    else if Super(p, who) then structural
    else if grants.None? || !configured then p.base.scope(who)
    else match Widest(grants.value, READ)
      case None => Some(DENY_ALL)
      case Some(NONE) => Some(DENY_ALL)
      case Some(ALL) => structural
      case Some(OWN) => AndOf(Present(structural) + [Owned(p, who)])
  }

  /** The fields every applicable grant hides (or makes read-only); none without a grant. */
  function InEvery(grants: Option<set<Grant>>, sets: Grant -> set<string>): set<string> {
    if grants.None? || grants.value == {} then {}
    else set g, f | g in grants.value && f in sets(g) && (forall h :: h in grants.value ==> f in sets(h)) :: f
  }

  function HiddenBy(): Grant -> set<string> { (g: Grant) => g.hidden }
  function FixedBy(): Grant -> set<string> { (g: Grant) => g.readOnly }

  function Hidden(p: DbPolicy, grants: Option<set<Grant>>, who: Identity): set<string> {
    if Super(p, who) then {} else InEvery(grants, HiddenBy())
  }

  function ReadOnly(p: DbPolicy, grants: Option<set<Grant>>, who: Identity): set<string> {
    if Super(p, who) then {} else InEvery(grants, FixedBy())
  }

  predicate Readable(p: DbPolicy, grants: Option<set<Grant>>, who: Identity, f: Field) {
    && f.VisibleTo(who)
    && (p.narrowOnly ==> f.name in p.base.readable(who))
    && f.name !in Hidden(p, grants, who)
  }

  predicate Writable(p: DbPolicy, grants: Option<set<Grant>>, who: Identity, f: Field) {
    && f.WritableBy(who)
    && (p.narrowOnly ==> f.name in p.base.writable(who))
    && f.name !in Hidden(p, grants, who) + ReadOnly(p, grants, who)
  }

  // ----- gaining a role -----

  /** The same caller with more roles. */
  predicate MoreRoles(before: Identity, after: Identity) {
    before.roles <= after.roles && before.authenticated == after.authenticated && before.owner == after.owner
  }

  lemma HasRoleGrows(before: Identity, after: Identity, wanted: set<string>)
    requires MoreRoles(before, after) && before.HasRole(wanted)
    ensures after.HasRole(wanted)
  {
    if "admin" !in before.roles {
      var r :| r in before.roles * wanted;
      assert r in after.roles * wanted;
    }
  }

  lemma GrantsGrow(p: DbPolicy, records: seq<Grant>, before: Identity, after: Identity)
    requires MoreRoles(before, after) && Prepare(p, records, before).Some?
    ensures Prepare(p, records, after).Some? && Prepare(p, records, before).value <= Prepare(p, records, after).value
  {
  }

  lemma WidestGrows(few: set<Grant>, many: set<Grant>, op: Operation)
    requires few <= many && Widest(few, op).Some?
    ensures Widest(many, op).Some? && Rank(Widest(few, op).value) <= Rank(Widest(many, op).value)
  {
    WidestIsMaximum(few, op);
    var g :| g in few && op in g.ops && g.rowScope == Widest(few, op).value;
    assert g in many;
    WidestIsMaximum(many, op);
  }

  ghost predicate StillAllowed(p: DbPolicy, records: seq<Grant>, op: Operation, before: Identity, after: Identity) {
    forall record :: Allows(p, true, Prepare(p, records, before), op, before, record) ==>
      Allows(p, true, Prepare(p, records, after), op, after, record)
  }

  /** Under a configured table whose grants only add, gaining a role costs nobody an operation
      on any record, except in one case: a write that was allowed by grants of the row scope
      "none", which the write check does not restrict, becomes restricted when the widest
      scope turns into "own". */
  lemma RoleAddsOperationsIff(p: DbPolicy, records: seq<Grant>, op: Operation, before: Identity, after: Identity)
    requires MoreRoles(before, after) && before.authenticated && !p.narrowOnly && Prepare(p, records, before).Some?
    ensures StillAllowed(p, records, op, before, after) <==>
      !(op in {UPDATE, DELETE} && !Super(p, after)
        && Widest(Prepare(p, records, before).value, op) == Some(NONE)
        && Widest(Prepare(p, records, after).value, op) == Some(OWN))
  {
    var few, many := Prepare(p, records, before).value, Prepare(p, records, after).value;
    GrantsGrow(p, records, before, after);
    if Super(p, before) { HasRoleGrows(before, after, p.superusers); }
    if Widest(few, op).Some? { WidestGrows(few, many, op); }
    if op in {UPDATE, DELETE} && !Super(p, after) && Widest(few, op) == Some(NONE) && Widest(many, op) == Some(OWN) {
      var nobodys: Option<Row> := Some(map[]);
      assert Allows(p, true, Some(few), op, before, nobodys) && !Allows(p, true, Some(many), op, after, nobodys);
    }
  }

  /** With scopes "own" and "all" alone, it is never the exceptional case. */
  lemma RoleAddsOperations(p: DbPolicy, records: seq<Grant>, op: Operation, before: Identity, after: Identity, record: Option<Row>)
    requires MoreRoles(before, after) && !p.narrowOnly && Prepare(p, records, before).Some?
    requires forall g :: g in records ==> g.rowScope != NONE
    requires Allows(p, true, Prepare(p, records, before), op, before, record)
    ensures Allows(p, true, Prepare(p, records, after), op, after, record)
  {
    var few := Prepare(p, records, before).value;
    WidestIsMaximum(few, op);
    RoleAddsOperationsIff(p, records, op, before, after);
    assert StillAllowed(p, records, op, before, after);
  }

  /** Nor does it cost anybody a row, whatever the scopes. */
  lemma RoleAddsRows(p: DbPolicy, records: seq<Grant>, before: Identity, after: Identity, row: Row)
    requires MoreRoles(before, after) && !p.narrowOnly && Prepare(p, records, before).Some?
    requires !Match(row, DENY_ALL)
    requires MatchAll(row, ScopeOf(p, true, Prepare(p, records, before), before))
    ensures MatchAll(row, ScopeOf(p, true, Prepare(p, records, after), after))
  {
    GrantsGrow(p, records, before, after);
    if Super(p, before) { HasRoleGrows(before, after, p.superusers); }
    var few, many := Prepare(p, records, before).value, Prepare(p, records, after).value;
    if Widest(few, READ).Some? { WidestGrows(few, many, READ); }
    assert Present(None) + [Owned(p, before)] == [Owned(p, before)];
    assert Present(None) + [Owned(p, after)] == [Owned(p, after)];
  }

  lemma InEveryShrinks(few: set<Grant>, many: set<Grant>, sets: Grant -> set<string>)
    requires few <= many && few != {}
    ensures InEvery(Some(many), sets) <= InEvery(Some(few), sets)
  {
    var g :| g in few;
    forall f | f in InEvery(Some(many), sets) ensures f in InEvery(Some(few), sets) {
      assert f in sets(g);
    }
  }

  /** Nor a field, once the caller holds a grant. */
  lemma RoleAddsFields(p: DbPolicy, records: seq<Grant>, before: Identity, after: Identity, f: Field)
    requires MoreRoles(before, after) && !p.narrowOnly
    requires Prepare(p, records, before).Some? && Prepare(p, records, before).value != {}
    ensures Readable(p, Prepare(p, records, before), before, f) ==> Readable(p, Prepare(p, records, after), after, f)
    ensures Writable(p, Prepare(p, records, before), before, f) ==> Writable(p, Prepare(p, records, after), after, f)
  {
    GrantsGrow(p, records, before, after);
    if f.VisibleTo(before) && f.readRoles != {} { HasRoleGrows(before, after, f.readRoles); }
    if f.WritableBy(before) && f.writeRoles != {} { HasRoleGrows(before, after, f.writeRoles); }
    if Super(p, before) { HasRoleGrows(before, after, p.superusers); }
    InEveryShrinks(Prepare(p, records, before).value, Prepare(p, records, after).value, HiddenBy());
    InEveryShrinks(Prepare(p, records, before).value, Prepare(p, records, after).value, FixedBy());
  }

  /** A caller's first grant can take a field away: exactly when all the grants gained hide it. */
  lemma FirstGrantHidesIff(p: DbPolicy, records: seq<Grant>, before: Identity, after: Identity, f: Field)
    requires MoreRoles(before, after) && !p.narrowOnly && !Super(p, after)
    requires Prepare(p, records, before) == Some({}) && f.VisibleTo(before)
    ensures Readable(p, Prepare(p, records, after), after, f) <==>
      Prepare(p, records, after).value == {} || exists g :: g in Prepare(p, records, after).value && f.name !in g.hidden
  {
    if f.readRoles != {} { HasRoleGrows(before, after, f.readRoles); }
    var gained := Prepare(p, records, after).value;
    if gained != {} && forall g :: g in gained ==> f.name in g.hidden {
      var g :| g in gained;
      assert f.name in HiddenBy()(g) && forall h :: h in gained ==> f.name in HiddenBy()(h);
    }
  }

  // ----- a base that may only be narrowed -----

  /** In narrow-only mode, for every table and every caller, administrators included: no
      write, no row and no field the structural policy refuses. */
  lemma NarrowOnlyStaysWithinBase(p: DbPolicy, configured: bool, grants: Option<set<Grant>>, who: Identity)
    requires p.narrowOnly
    ensures forall op, record :: op != READ && Allows(p, configured, grants, op, who, record) ==> p.base.allows(op, who, record)
    ensures forall row :: !Match(row, DENY_ALL) && MatchAll(row, ScopeOf(p, configured, grants, who)) ==>
              MatchAll(row, p.base.scope(who))
    ensures forall f: Field :: Readable(p, grants, who, f) ==> f.name in p.base.readable(who)
    ensures forall f: Field :: Writable(p, grants, who, f) ==> f.name in p.base.writable(who)
  {
    forall row | !Match(row, DENY_ALL) && MatchAll(row, ScopeOf(p, configured, grants, who))
      ensures MatchAll(row, p.base.scope(who))
    {
      var structural := p.base.scope(who);
      if structural.Some? {
        var both := Present(structural) + [Owned(p, who)];
        assert both[0] == structural.value && AndOf(both) == Some(And(both));
        assert Match(row, And(both)) ==> Match(row, both[0]);
      }
    }
  }

  // ----- owning a row -----

  /** A row the "own" write check lets through is in the "own" list; a listed row can be
      written exactly when its owner is stored as text, for the list compares by text. */
  lemma OwnRowsListedAndWritten(p: DbPolicy, who: Identity, row: Row)
    ensures Owns(p, who, row) ==> Match(row, Owned(p, who))
    ensures Match(row, Owned(p, who)) ==> (Owns(p, who, row) <==> GetOrNull(row, p.ownerField).Str?)
  {
    if Match(row, Owned(p, who)) {
      var v := row[p.ownerField];
      if v.Str? {
        StrLessTrichotomy(v.s, who.owner);
      }
    }
  }

  /** An empty table leaves the structural policy as it was. */
  lemma UnconfiguredIsBase(p: DbPolicy, records: seq<Grant>, who: Identity)
    requires (forall g :: g in records ==> g.role == "") && who.authenticated && !Super(p, who)
    ensures forall op, record :: Allows(p, true, Prepare(p, records, who), op, who, record) == p.base.allows(op, who, record)
    ensures ScopeOf(p, true, Prepare(p, records, who), who) == p.base.scope(who)
    ensures forall f: Field :: Readable(p, Prepare(p, records, who), who, f)
              <==> f.VisibleTo(who) && (p.narrowOnly ==> f.name in p.base.readable(who))
  {
  }

  // ----- what a configured table says, grant by grant -----

  /** A caller the table decides about. */
  predicate Ordinary(p: DbPolicy, who: Identity) {
    "admin" !in who.roles && forall r :: r in who.roles ==> r !in p.superusers
  }

  /** A grant of one of the caller's roles, on this resource or on any. */
  predicate Held(p: DbPolicy, records: seq<Grant>, who: Identity, g: Grant) {
    g in records && g.role != "" && g.role in who.roles && (g.resource == p.resource || g.resource == "*")
  }

  lemma HeldIsApplicable(p: DbPolicy, records: seq<Grant>, who: Identity)
    requires exists g :: g in records && g.role != ""
    ensures Prepare(p, records, who).Some?
    ensures forall g :: g in Prepare(p, records, who).value <==> Held(p, records, who, g)
  {
  }

  /** Under a configured table somebody without a bypassing role may do an operation exactly
      when signed in and some grant has it; where the grants that have it are none of them for
      all rows and some for own rows, a given record to be updated or deleted must be the
      caller's; and where grants only narrow, the structural policy must allow a write too. */
  lemma AllowsIff(p: DbPolicy, records: seq<Grant>, op: Operation, who: Identity, record: Option<Row>)
    requires Ordinary(p, who) && exists g :: g in records && g.role != ""
    ensures Allows(p, true, Prepare(p, records, who), op, who, record) <==>
      && who.authenticated
      && (exists g :: Held(p, records, who, g) && op in g.ops)
      && (record.Some? && op in {UPDATE, DELETE}
          && (exists g :: Held(p, records, who, g) && op in g.ops && g.rowScope == OWN)
          && (forall g :: Held(p, records, who, g) && op in g.ops ==> g.rowScope != ALL)
          ==> p.ownerField in record.value && record.value[p.ownerField] == Str(who.owner))
      && (op != READ && p.narrowOnly ==> p.base.allows(op, who, record))
  {
    HeldIsApplicable(p, records, who);
    assert !Super(p, who);
  }

  /** The rows somebody sees in lists: all with a reading grant for all rows, those with the
      caller's name, compared as text, with one for own rows at the widest, and otherwise
      none; where grants only narrow, of the rows the structural policy shows. */
  lemma SeesIff(p: DbPolicy, records: seq<Grant>, who: Identity, row: Row)
    requires Ordinary(p, who) && (exists g :: g in records && g.role != "") && !Match(row, DENY_ALL)
    ensures MatchAll(row, ScopeOf(p, true, Prepare(p, records, who), who)) <==>
      && who.authenticated
      && (exists g :: Held(p, records, who, g) && READ in g.ops && g.rowScope != NONE
                      && (g.rowScope == OWN ==> Holds(row, p.ownerField, EQ, Str(who.owner))))
      && (p.narrowOnly ==> MatchAll(row, p.base.scope(who)))
  {
    HeldIsApplicable(p, records, who);
    assert !Super(p, who);
    var structural := if p.narrowOnly then p.base.scope(who) else None;
    var owned := Owned(p, who);
    assert Match(row, owned) == Holds(row, p.ownerField, EQ, Str(who.owner));
    if structural.Some? {
      var both := Present(structural) + [owned];
      assert both[0] == structural.value && both[1] == owned && AndOf(both) == Some(And(both));
      assert Match(row, And(both)) <==> Match(row, both[0]) && Match(row, both[1]);
    } else {
      assert Present(structural) + [owned] == [owned];
    }
  }

  /** A field is shown unless the resource keeps it from the caller, the structural policy does
      where grants only narrow, or there are grants and all of them hide it; and it can be
      written unless it is fixed, kept, hidden, or read-only by every grant. */
  lemma FieldsIff(p: DbPolicy, records: seq<Grant>, who: Identity, f: Field)
    requires Ordinary(p, who) && exists g :: g in records && g.role != ""
    ensures Readable(p, Prepare(p, records, who), who, f) <==>
      && (f.readRoles == {} || f.readRoles * who.roles != {})
      && (p.narrowOnly ==> f.name in p.base.readable(who))
      && ((exists g :: Held(p, records, who, g)) ==> exists g :: Held(p, records, who, g) && f.name !in g.hidden)
    ensures Writable(p, Prepare(p, records, who), who, f) <==>
      && !f.fixed && (f.writeRoles == {} || f.writeRoles * who.roles != {})
      && (p.narrowOnly ==> f.name in p.base.writable(who))
      && ((exists g :: Held(p, records, who, g)) ==>
            && (exists g :: Held(p, records, who, g) && f.name !in g.hidden)
            && (exists g :: Held(p, records, who, g) && f.name !in g.readOnly))
  {
    HeldIsApplicable(p, records, who);
    assert !Super(p, who);
    var grants := Prepare(p, records, who);
    InEveryMeans(grants, HiddenBy(), f.name);
    InEveryMeans(grants, FixedBy(), f.name);
    assert who.roles * f.readRoles == f.readRoles * who.roles && who.roles * f.writeRoles == f.writeRoles * who.roles;
    assert forall g :: HiddenBy()(g) == g.hidden && FixedBy()(g) == g.readOnly;
  }

  lemma InEveryMeans(grants: Option<set<Grant>>, sets: Grant -> set<string>, f: string)
    requires grants.Some?
    ensures f in InEvery(grants, sets) <==> grants.value != {} && forall g :: g in grants.value ==> f in sets(g)
  {
    if grants.value != {} && forall g :: g in grants.value ==> f in sets(g) {
      var g :| g in grants.value;
      assert f in sets(g) && forall h :: h in grants.value ==> f in sets(h);
    }
  }

  /** A bypassing role is held back by the structural policy alone, and by that only where
      grants may only narrow, and never from reading. */
  lemma BypassIff(p: DbPolicy, configured: bool, grants: Option<set<Grant>>, op: Operation, who: Identity, record: Option<Row>)
    requires !Ordinary(p, who)
    ensures Allows(p, configured, grants, op, who, record) <==>
      who.authenticated && (op != READ && p.narrowOnly ==> p.base.allows(op, who, record))
    ensures who.authenticated ==> ScopeOf(p, configured, grants, who) == if p.narrowOnly then p.base.scope(who) else None
    ensures Hidden(p, grants, who) == ReadOnly(p, grants, who) == {}
  {
    if "admin" !in who.roles {
      var r :| r in who.roles && r in p.superusers;
      assert r in who.roles * p.superusers;
    }
  }
}
