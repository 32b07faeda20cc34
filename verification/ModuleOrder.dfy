/** Loading modules in dependency order. A graph gives each module's dependencies by name; a
    name outside it is a module that was not found. */
module ModuleOrder {

  type Graph = map<string, seq<string>>

  datatype Mark = Visiting | Done

  datatype Failure = Cycle(trail: seq<string>) | Missing(needer: string, name: string)

  datatype Outcome<T> = Ok(value: T) | Failed(failure: Failure)

  // ----- what an order and its absence mean -----

  predicate DependsOn(g: Graph, a: string, b: string) {
    a in g && b in g[a]
  }

  predicate Complete(g: Graph) {
    forall a, b :: a in g && b in g[a] ==> b in g
  }

  predicate Chain(g: Graph, p: seq<string>) {
    forall k :: 0 <= k < |p| - 1 ==> DependsOn(g, p[k], p[k + 1])
  }

  predicate IsCycle(g: Graph, p: seq<string>) {
    |p| >= 2 && p[0] == p[|p| - 1] && Chain(g, p)
  }

  ghost predicate Acyclic(g: Graph) {
    forall p :: !IsCycle(g, p)
  }

  /** Every module at most once, and after all it depends on. */
  predicate Ordered(g: Graph, order: seq<string>) {
    && (forall j, k :: 0 <= j < k < |order| ==> order[j] != order[k])
    && (forall k :: 0 <= k < |order| ==> Ready(g, order, k))
  }

  predicate Ready(g: Graph, order: seq<string>, k: nat)
    requires k < |order|
  {
    order[k] in g && forall b :: b in g[order[k]] ==> b in order[..k]
  }

  ghost predicate OrderOfAll(g: Graph, order: seq<string>) {
    Ordered(g, order) && forall a :: a in g ==> a in order
  }

  /** What a failure claims is so. */
  ghost predicate Justified(g: Graph, f: Failure) {
    match f
    case Missing(needer, name) => DependsOn(g, needer, name) && name !in g
    case Cycle(trail) => exists i :: 0 <= i < |trail| && IsCycle(g, trail[i..])
  }

  lemma {:induction false} PositionsFall(g: Graph, order: seq<string>, p: seq<string>, i: nat) returns (j: nat)
    requires Ordered(g, order) && p != [] && Chain(g, p) && i < |order| && order[i] == p[0]
    ensures j < |order| && order[j] == p[|p| - 1] && j <= i && (|p| >= 2 ==> j < i)
    decreases |p|
  {
    if |p| == 1 {
      j := i;
    } else {
      assert DependsOn(g, p[0], p[1]) && Ready(g, order, i);
      var k: nat :| k < i && order[..i][k] == p[1];
      assert Chain(g, p[1..]) by {
        forall m | 0 <= m < |p[1..]| - 1 ensures DependsOn(g, p[1..][m], p[1..][m + 1]) {
          assert DependsOn(g, p[m + 1], p[m + 2]);
        }
      }
      j := PositionsFall(g, order, p[1..], k);
    }
  }

  /** Where there is an order there is no cycle and nothing missing. */
  lemma OrderExcludesFailures(g: Graph, order: seq<string>)
    requires OrderOfAll(g, order)
    ensures Complete(g) && Acyclic(g)
  {
    forall a, b | a in g && b in g[a] ensures b in g {
      var k: nat :| k < |order| && order[k] == a;
      assert Ready(g, order, k);
      var m: nat :| m < k && order[..k][m] == b;
      assert Ready(g, order, m);
    }
    forall p ensures !IsCycle(g, p) {
      if IsCycle(g, p) {
        assert DependsOn(g, p[0], p[1]);
        var i: nat :| i < |order| && order[i] == p[0];
        var j := PositionsFall(g, order, p, i);
      }
    }
  }

  lemma JustifiedExcludesOrder(g: Graph, f: Failure)
    requires Justified(g, f)
    ensures !(Complete(g) && Acyclic(g))
    ensures Complete(g) ==> f.Cycle?
  {
  }

  // ----- the depth-first search -----

  /** The modules being visited are the ones on the trail past its first name, which the
      search repeats; each depends on the next. */
  ghost predicate OnTrail(g: Graph, state: map<string, Mark>, trail: seq<string>) {
    && trail != [] && Chain(g, trail[1..])
    && (forall a :: a in trail[1..] <==> a in state && state[a] == Visiting)
  }

  ghost predicate Consistent(g: Graph, state: map<string, Mark>, ordered: seq<string>) {
    && state.Keys <= g.Keys && Ordered(g, ordered)
    && (forall a :: a in ordered <==> a in state && state[a] == Done)
  }

  class Resolver {
    const g: Graph
    var state: map<string, Mark>
    var ordered: seq<string>

    constructor (g: Graph)
      ensures this.g == g && state == map[] && ordered == []
    {
      this.g, state, ordered := g, map[], [];
    }

    /** Visits a module after what it depends on. */
    method Visit(name: string, trail: seq<string>) returns (failed: Outcome<()>)
      requires Consistent(g, state, ordered) && OnTrail(g, state, trail)
      requires |trail| >= 2 ==> DependsOn(g, trail[|trail| - 1], name)
      requires |trail| == 1 ==> name in g
      modifies this
      ensures failed.Failed? ==> Justified(g, failed.failure)
      ensures failed.Ok? ==> Consistent(g, state, ordered) && OnTrail(g, state, trail) && name in ordered
      ensures failed.Ok? ==> old(ordered) <= ordered
      ensures old(state).Keys <= state.Keys
      decreases g.Keys - state.Keys
    {
      hide Consistent, OnTrail, Ordered, Chain, Justified, DependsOn;
      MarkedIsKnown(g, state, ordered, trail, name);
      if name in state && state[name] == Done {
        return Ok(());
      }
      if name in state && state[name] == Visiting {
        TrailClosesCycle(g, state, trail, name);
        return Failed(Cycle(trail + [name]));
      }
      if name !in g {
        MissingIsReal(g, trail[|trail| - 1], name);
        return Failed(Missing(trail[|trail| - 1], name));
      }
      state := state[name := Visiting];
      var deeper := trail + [name];
      DeeperTrail(g, old(state), state, ordered, trail, name);
      for i := 0 to |g[name]|
        invariant Consistent(g, state, ordered) && OnTrail(g, state, deeper)
        invariant forall k :: 0 <= k < i ==> g[name][k] in ordered
        invariant old(ordered) <= ordered && old(state).Keys + {name} <= state.Keys
      {
        NamedDependency(g, name, i);
        var visited := Visit(g[name][i], deeper);
        if visited.Failed? {
          return visited;
        }
      }
      LeaveTrail(g, state, ordered, trail, name);
      state := state[name := Done];
      ordered := ordered + [name];
      return Ok(());
    }
  }

  lemma MarkedIsKnown(g: Graph, state: map<string, Mark>, ordered: seq<string>, trail: seq<string>, name: string)
    requires Consistent(g, state, ordered) && OnTrail(g, state, trail)
    ensures name in state && state[name] == Done ==> name in ordered
    ensures trail != [] && (name !in state ==> name !in trail[1..])
  {
  }

  /** A module with all it depends on ordered may be ordered next. */
  lemma LeaveTrail(g: Graph, state: map<string, Mark>, ordered: seq<string>, trail: seq<string>, name: string)
    requires Consistent(g, state, ordered) && OnTrail(g, state, trail + [name]) && trail != [] && name !in trail[1..]
    requires name in g && forall k :: 0 <= k < |g[name]| ==> g[name][k] in ordered
    ensures Consistent(g, state[name := Done], ordered + [name]) && OnTrail(g, state[name := Done], trail)
  {
    var deeper := trail + [name];
    assert deeper[1..] == trail[1..] + [name];
    BackOnTrail(g, state, trail, name);
    AppendOrdered(g, ordered, name);
    hide Ordered;
  }

  lemma NamedDependency(g: Graph, name: string, i: nat)
    requires name in g && i < |g[name]|
    ensures DependsOn(g, name, g[name][i])
  {
  }

  lemma MissingIsReal(g: Graph, needer: string, name: string)
    requires DependsOn(g, needer, name) && name !in g
    ensures Justified(g, Missing(needer, name))
  {
  }

  lemma TrailClosesCycle(g: Graph, state: map<string, Mark>, trail: seq<string>, name: string)
    requires OnTrail(g, state, trail) && name in state && state[name] == Visiting
    requires |trail| >= 2 ==> DependsOn(g, trail[|trail| - 1], name)
    ensures Justified(g, Cycle(trail + [name]))
  {
    var stack := trail[1..];
    var i :| 0 <= i < |stack| && stack[i] == name;
    var all := trail + [name];
    var p := all[i + 1..];
    forall k | 0 <= k < |p| - 1 ensures DependsOn(g, p[k], p[k + 1]) {
      if k < |p| - 2 { assert DependsOn(g, stack[i + k], stack[i + k + 1]); }
    }
    assert IsCycle(g, all[i + 1..]);
  }

  lemma DeeperTrail(g: Graph, before: map<string, Mark>, state: map<string, Mark>, ordered: seq<string>,
                    trail: seq<string>, name: string)
    requires OnTrail(g, before, trail) && Consistent(g, before, ordered)
    requires name !in before && name in g && state == before[name := Visiting]
    requires |trail| >= 2 ==> DependsOn(g, trail[|trail| - 1], name)
    ensures OnTrail(g, state, trail + [name]) && Consistent(g, state, ordered)
  {
    hide Ordered;
    var stack, longer := trail[1..], (trail + [name])[1..];
    assert longer == stack + [name];
    forall k | 0 <= k < |longer| - 1 ensures DependsOn(g, longer[k], longer[k + 1]) {
      if k < |stack| - 1 { assert DependsOn(g, stack[k], stack[k + 1]); }
    }
  }

  lemma BackOnTrail(g: Graph, state: map<string, Mark>, trail: seq<string>, name: string)
    requires OnTrail(g, state, trail + [name]) && trail != [] && name !in trail[1..]
    ensures OnTrail(g, state[name := Done], trail)
  {
    var stack, longer := trail[1..], (trail + [name])[1..];
    assert longer == stack + [name];
    forall k | 0 <= k < |stack| - 1 ensures DependsOn(g, stack[k], stack[k + 1]) {
      assert DependsOn(g, longer[k], longer[k + 1]);
    }
  }

  lemma AppendOrdered(g: Graph, ordered: seq<string>, name: string)
    requires Ordered(g, ordered) && name in g && name !in ordered
    requires forall b :: b in g[name] ==> b in ordered
    ensures Ordered(g, ordered + [name])
  {
    var longer := ordered + [name];
    forall k | 0 <= k < |longer| ensures Ready(g, longer, k) {
      if k < |ordered| {
        assert Ready(g, ordered, k) && longer[..k] == ordered[..k];
      } else {
        assert longer[..k] == ordered;
      }
    }
  }

  /** Orders all modules, or says truly why not: it fails exactly when a dependency is missing
      or the graph has a cycle. `start` is any order to start visits in. */
  method ResolveOrder(g: Graph, start: seq<string>) returns (r: Outcome<seq<string>>)
    requires forall a :: a in start <==> a in g
    ensures r.Ok? <==> Complete(g) && Acyclic(g)
    ensures r.Ok? ==> OrderOfAll(g, r.value)
    ensures r.Failed? ==> Justified(g, r.failure)
  {
    var resolver := new Resolver(g);
    for i := 0 to |start|
      invariant resolver.g == g
      invariant Consistent(g, resolver.state, resolver.ordered)
      invariant forall a :: a in resolver.state ==> resolver.state[a] == Done
      invariant forall k :: 0 <= k < i ==> start[k] in resolver.ordered
    {
      assert OnTrail(g, resolver.state, [start[i]]);
      var visited := resolver.Visit(start[i], [start[i]]);
      if visited.Failed? {
        JustifiedExcludesOrder(g, visited.failure);
        return Failed(visited.failure);
      }
    }
    OrderExcludesFailures(g, resolver.ordered);
    return Ok(resolver.ordered);
  }

  // ----- pulling dependencies in -----

  /** A set with everything its members depend on. */
  ghost predicate Closed(g: Graph, names: set<string>) {
    forall a, b :: a in names && DependsOn(g, a, b) ==> b in names
  }

  function Restricted(g: Graph, names: set<string>): Graph {
    map a | a in g && a in names :: g[a]
  }

  /** Every member is in every closed set around the selection. */
  ghost predicate Needed(g: Graph, selected: set<string>, names: set<string>) {
    forall closed :: selected <= closed && Closed(g, closed) ==> names <= closed
  }

  /** What has been pulled in so far: part of the graph, and all of it needed. */
  ghost predicate Pulling(g: Graph, selected: set<string>, result: Graph) {
    selected <= result.Keys <= g.Keys && result == Restricted(g, result.Keys) && Needed(g, selected, result.Keys)
  }

  /** Whatever is not queued any more has all its dependencies in. */
  ghost predicate Drained(g: Graph, result: Graph, queue: seq<string>) {
    forall a, b :: a in result && a !in queue && DependsOn(g, a, b) ==> b in result
  }

  lemma PullOne(g: Graph, selected: set<string>, result: Graph, name: string, dependency: string)
    requires Pulling(g, selected, result) && name in result && DependsOn(g, name, dependency) && dependency in g
    ensures Pulling(g, selected, result[dependency := g[dependency]])
  {
  }

  lemma NeedOne(g: Graph, selected: set<string>, result: Graph, name: string)
    requires Pulling(g, selected, result) && name in result
    ensures Needed(g, selected, {name})
  {
  }

  /** Queues what one module depends on and is not in yet. */
  method PullDependenciesOf(g: Graph, ghost selected: Graph, found: Graph, name: string, had: Graph, waiting: seq<string>)
    returns (result: Graph, queue: seq<string>, missing: Outcome<()>)
    requires g == found + selected && Pulling(g, selected.Keys, had) && name in had
    ensures Pulling(g, selected.Keys, result) && had.Keys <= result.Keys
    ensures forall a :: a in queue <==> a in waiting || (a in result && a !in had)
    ensures result.Keys == had.Keys ==> queue == waiting
    ensures missing.Ok? ==> forall b :: DependsOn(g, name, b) ==> b in result
    ensures missing.Failed? ==> missing.failure.Missing? && missing.failure.needer == name && Justified(g, missing.failure)
  {
    hide Pulling;
    result, queue := had, waiting;
    PulledIsPart(g, selected.Keys, had);
    for i := 0 to |g[name]|
      invariant Pulling(g, selected.Keys, result) && had.Keys <= result.Keys
      invariant forall a :: a in queue <==> a in waiting || (a in result && a !in had)
      invariant forall k :: 0 <= k < i ==> g[name][k] in result
      invariant result.Keys == had.Keys ==> queue == waiting
    {
      var dependency := g[name][i];
      if dependency in result {
        continue;
      }
      assert DependsOn(g, name, dependency);
      if dependency !in found {
        MissingIsReal(g, name, dependency);
        return result, queue, Failed(Missing(name, dependency));
      }
      PullOne(g, selected.Keys, result, name, dependency);
      result := result[dependency := found[dependency]];
      queue := queue + [dependency];
    }
    return result, queue, Ok(());
  }

  lemma PulledIsPart(g: Graph, selected: set<string>, result: Graph)
    requires Pulling(g, selected, result)
    ensures selected <= result.Keys <= g.Keys && forall a :: a in result ==> result[a] == g[a]
  {
  }

  /** The selection with everything it needs, found among `found`; a selected module stands
      for itself. It is the least closed set around the selection, and it fails exactly when
      that set has a member that was not found. */
  method PullInDependencies(selected: Graph, first: seq<string>, found: Graph) returns (r: Outcome<Graph>)
    requires forall a :: a in first <==> a in selected
    ensures r.Ok? ==> selected.Keys <= r.value.Keys && r.value == Restricted(found + selected, r.value.Keys)
    ensures r.Ok? ==> Closed(found + selected, r.value.Keys) && Needed(found + selected, selected.Keys, r.value.Keys)
    ensures r.Ok? ==> Complete(r.value)
    ensures r.Failed? ==> r.failure.Missing? && Justified(found + selected, r.failure)
                          && Needed(found + selected, selected.Keys, {r.failure.needer})
  {
    hide Justified, Pulling, Drained, Closed, Needed, Complete, Restricted, DependsOn;
    var g := found + selected;
    var result := selected;
    var queue := first;
    NothingPulled(g, selected, first);
    while queue != []
      invariant Pulling(g, selected.Keys, result) && Drained(g, result, queue)
      invariant forall a :: a in queue ==> a in result
      decreases |g.Keys - result.Keys|, |queue|
    {
      var name := queue[|queue| - 1];
      ghost var before, had := queue, result;
      var more, rest, missing := PullDependenciesOf(g, selected, found, name, result, queue[..|queue| - 1]);
      if missing.Failed? {
        NeedOne(g, selected.Keys, had, name);
        return Failed(missing.failure);
      }
      result, queue := more, rest;
      DrainedOfOne(g, had, before, name, result, queue);
      PulledOrShorter(g, selected.Keys, had, result, before, queue);
    }
    NothingLeftToPull(g, selected.Keys, result);
    return Ok(result);
  }

  lemma NothingPulled(g: Graph, selected: Graph, first: seq<string>)
    requires selected.Keys <= g.Keys && forall a :: a in selected ==> g[a] == selected[a]
    ensures Pulling(g, selected.Keys, selected)
    ensures (forall a :: a in selected ==> a in first) ==> Drained(g, selected, first)
  {
  }

  lemma PulledOrShorter(g: Graph, selected: set<string>, had: Graph, result: Graph, before: seq<string>, queue: seq<string>)
    requires Pulling(g, selected, had) && Pulling(g, selected, result) && had.Keys <= result.Keys
    requires before != [] && (result.Keys == had.Keys ==> queue == before[..|before| - 1])
    ensures |g.Keys - result.Keys| <= |g.Keys - had.Keys|
    ensures |g.Keys - result.Keys| == |g.Keys - had.Keys| ==> |queue| < |before|
  {
    if result.Keys != had.Keys { FewerLeft(g.Keys, had.Keys, result.Keys); }
  }

  lemma DrainedOfOne(g: Graph, had: Graph, before: seq<string>, name: string, result: Graph, queue: seq<string>)
    requires Drained(g, had, before) && had.Keys <= result.Keys && before != [] && name == before[|before| - 1]
    requires forall a :: a in queue <==> a in before[..|before| - 1] || (a in result && a !in had)
    requires forall b :: DependsOn(g, name, b) ==> b in result
    ensures Drained(g, result, queue)
  {
    assert before == before[..|before| - 1] + [name];
  }

  lemma NothingLeftToPull(g: Graph, selected: set<string>, result: Graph)
    requires Pulling(g, selected, result) && Drained(g, result, [])
    ensures selected <= result.Keys && result == Restricted(g, result.Keys)
    ensures Closed(g, result.Keys) && Needed(g, selected, result.Keys) && Complete(result)
  {
    forall a, b | a in result && b in result[a] ensures b in result {
      assert DependsOn(g, a, b);
    }
  }

  lemma FewerLeft(all: set<string>, few: set<string>, many: set<string>)
    requires few < many <= all
    ensures |all - many| < |all - few|
  {
    var x :| x in many && x !in few;
    assert x in all - few && all - many <= all - few - {x};
    Smaller(all - many, all - few - {x});
  }

  lemma {:induction false} Smaller(a: set<string>, b: set<string>)
    requires a <= b
    ensures |a| <= |b|
    decreases a
  {
    if a != {} {
      var x :| x in a;
      Smaller(a - {x}, b - {x});
    }
  }

  /** Ordering what was pulled in never reports a missing module. */
  method OrderSelected(selected: Graph, first: seq<string>, found: Graph, start: seq<string>)
    returns (pulled: Outcome<Graph>, r: Outcome<seq<string>>)
    requires forall a :: a in first <==> a in selected
    requires forall a :: a in start <==> a in found || a in selected
    ensures pulled.Ok? && r.Failed? ==> r.failure.Cycle? && !Acyclic(pulled.value)
    ensures pulled.Ok? && r.Ok? ==> OrderOfAll(pulled.value, r.value)
    ensures pulled.Failed? ==> r == Failed(pulled.failure)
  {
    pulled := PullInDependencies(selected, first, found);
    if pulled.Failed? {
      return pulled, Failed(pulled.failure);
    }
    var names: seq<string> := [];
    for i := 0 to |start|
      invariant forall a :: a in names <==> a in start[..i] && a in pulled.value
    {
      if start[i] in pulled.value {
        names := names + [start[i]];
      }
      assert start[..i + 1] == start[..i] + [start[i]];
    }
    assert start[..|start|] == start;
    r := ResolveOrder(pulled.value, names);
    if r.Failed? { JustifiedExcludesOrder(pulled.value, r.failure); }
  }
}
