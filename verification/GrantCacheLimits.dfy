/** The age bound on cached grants is reached: a run in which a worker answers from a table as
    old as the bound allows, but for the two milliseconds by which entries and copies expire
    before they are that old. */
module GrantCacheLimits {
  import opened Values
  import opened Grants
  import opened GrantCache

  lemma {:induction false} AppendStep(c: Config, s: State, a: seq<Step>, step: Step)
    requires Runs(c, s, a) && Enabled(c, After(c, s, a), step)
    ensures Runs(c, s, a + [step]) && After(c, s, a + [step]) == Apply(c, After(c, s, a), step)
    decreases |a|
  {
    hide Enabled, Apply;
    if a == [] {
      assert [] + [step] == [step] && [step][1..] == [];
    } else {
      assert (a + [step])[0] == a[0] && (a + [step])[1..] == a[1..] + [step];
      AppendStep(c, Apply(c, s, a[0]), a[1..], step);
    }
  }

  const OLD := [Grant("staff", "deals", {READ}, ALL, {}, {})]

  function Start(): State {
    State(0, [Version(OLD, 0)], map[], None)
  }

  /** The table is emptied at once after it was read. */
  const EDITED := [Version(OLD, 0), Version([], 0)]

  /** One worker reads the table and, as slowly as a load can be, shares it. */
  lemma FirstWorker(c: Config) returns (steps: seq<Step>)
    requires c.shared
    ensures Runs(c, Start(), steps)
    ensures var s := After(c, Start(), steps);
      && s.now == c.load && s.log == EDITED && s.workers.Keys == {0} && s.workers[0].phase.Idle?
      && s.entry == Some(Entry(Reading.Reading(OLD, 0), c.load + c.ttl))
  {
    steps := [];
    AppendStep(c, Start(), steps, Spawn(0));
    steps := steps + [Spawn(0)];
    AppendStep(c, Start(), steps, Call(0));
    steps := steps + [Call(0)];
    AppendStep(c, Start(), steps, Acquire(0));
    steps := steps + [Acquire(0)];
    AppendStep(c, Start(), steps, AskShared(0, false));
    steps := steps + [AskShared(0, false)];
    AppendStep(c, Start(), steps, ReadDatabase(0));
    steps := steps + [ReadDatabase(0)];
    AppendStep(c, Start(), steps, Edit([]));
    steps := steps + [Edit([])];
    assert After(c, Start(), steps) == State(0, EDITED, map[0 := Worker(None, Loaded(Reading.Reading(OLD, 0)), 0)], None);
    AppendStep(c, Start(), steps, Tick(c.load));
    steps := steps + [Tick(c.load)];
    AppendStep(c, Start(), steps, StoreShared(0, true));
    steps := steps + [StoreShared(0, true)];
    AppendStep(c, Start(), steps, Keep(0));
    steps := steps + [Keep(0)];
  }

  /** Another takes it from the shared cache at the last moment, and keeps it as late as a reply
      can be. */
  lemma SecondWorker(c: Config, s: State, done: seq<Step>) returns (steps: seq<Step>)
    requires c.shared && c.ttl > 0 && Runs(c, s, done)
    requires var m := After(c, s, done);
      && m.now == c.load && m.log == EDITED && m.workers.Keys == {0} && m.workers[0].phase.Idle?
      && m.entry == Some(Entry(Reading.Reading(OLD, 0), c.load + c.ttl))
    ensures Runs(c, s, steps)
    ensures var e := After(c, s, steps);
      && e.now == c.load + c.ttl - 1 + c.reply && e.log == EDITED
      && e.workers.Keys == {0, 1} && e.workers[0].phase.Idle?
      && e.workers[1] == Worker(Some(Copy(Reading.Reading(OLD, 0), e.now)), Idle, 0)
  {
    steps := done;
    AppendStep(c, s, steps, Tick(c.ttl - 1));
    steps := steps + [Tick(c.ttl - 1)];
    AppendStep(c, s, steps, Spawn(1));
    steps := steps + [Spawn(1)];
    AppendStep(c, s, steps, Call(1));
    steps := steps + [Call(1)];
    AppendStep(c, s, steps, Acquire(1));
    steps := steps + [Acquire(1)];
    AppendStep(c, s, steps, AskShared(1, true));
    steps := steps + [AskShared(1, true)];
    steps := LateReply(c, s, steps);
  }

  lemma LateReply(c: Config, s: State, done: seq<Step>) returns (steps: seq<Step>)
    requires Runs(c, s, done)
    requires var m := After(c, s, done);
      && m.workers.Keys == {0, 1} && m.workers[0].phase.Idle?
      && m.workers[1] == Worker(None, Answered(Reading.Reading(OLD, 0), m.now), 0)
    ensures Runs(c, s, steps)
    ensures var m, e := After(c, s, done), After(c, s, steps);
      && e.now == m.now + c.reply && e.log == m.log && e.workers.Keys == {0, 1} && e.workers[0] == m.workers[0]
      && e.workers[1] == Worker(Some(Copy(Reading.Reading(OLD, 0), e.now)), Idle, 0)
  {
    steps := done;
    AppendStep(c, s, steps, Tick(c.reply));
    steps := steps + [Tick(c.reply)];
    AppendStep(c, s, steps, Keep(1));
    steps := steps + [Keep(1)];
  }

  /** So an answer can be two milliseconds short of the age that bounds all answers. */
  lemma AgeIsReached(c: Config) returns (steps: seq<Step>)
    requires c.shared && c.ttl > 0
    ensures Runs(c, Start(), steps) && Answers(c, After(c, Start(), steps), 1)
    ensures var s := After(c, Start(), steps);
            var bound := c.ttl + (if c.ttl < 2000 then c.ttl else 2000) + c.load + c.reply;
            HeldWithin(s, s.workers[1].copy.value.reading.rows, bound - 2)
            && !HeldWithin(s, s.workers[1].copy.value.reading.rows, bound - 3)
  {
    var first := FirstWorker(c);
    steps := SecondWorker(c, Start(), first);
    AppendStep(c, Start(), steps, Tick(c.LocalTtl() - 1));
    steps := steps + [Tick(c.LocalTtl() - 1)];
    hide Runs, After;
    var s := After(c, Start(), steps);
    assert CurrentAt(s.log, 0, 0);
  }
}
