/** What reads that go stale can do to the job protocol, and that it never gets stuck. */
module JobLimits {
  import opened Values
  import opened Jobs
  import opened JobProtocol
  import opened JobRuns

  const TIMING := Timing(900, 10, 300, 10)

  lemma {:induction false} RunConcat(t: Timing, s: State, a: seq<Step>, b: seq<Step>, id: int)
    requires Runs(t, s, a) && Runs(t, After(t, s, a), b)
    ensures Runs(t, s, a + b) && After(t, s, a + b) == After(t, After(t, s, a), b)
    ensures StartsOf(t, s, a + b, id) == StartsOf(t, s, a, id) + StartsOf(t, After(t, s, a), b, id)
    decreases |a|
  {
    hide Enabled, Apply;
    if a == [] {
      assert a + b == b;
    } else {
      assert (a + b)[0] == a[0] && (a + b)[1..] == a[1..] + b;
      RunConcat(t, Apply(t, s, a[0]), a[1..], b, id);
    }
  }

  lemma OneStep(t: Timing, s: State, step: Step, id: int)
    requires Enabled(t, s, step)
    ensures Runs(t, s, [step]) && After(t, s, [step]) == Apply(t, s, step)
    ensures StartsOf(t, s, [step], id) == if step.Start? && s.execs[step.x].job.id == id then 1 else 0
  {
    assert [step][1..] == [];
  }

  lemma AppendStep(t: Timing, s: State, a: seq<Step>, step: Step, id: int)
    requires Runs(t, s, a) && Enabled(t, After(t, s, a), step)
    ensures Runs(t, s, a + [step]) && After(t, s, a + [step]) == Apply(t, After(t, s, a), step)
    ensures StartsOf(t, s, a + [step], id)
         == StartsOf(t, s, a, id) + if step.Start? && After(t, s, a).execs[step.x].job.id == id then 1 else 0
  {
    OneStep(t, After(t, s, a), step, id);
    RunConcat(t, s, a, [step], id);
  }

  // ----- stale claims -----

  function Fresh(limit: int): JobRow {
    JobRow("report", "", 0, limit, QUEUED, 0, 0, None, None, None, None)
  }

  const FIRST_READ := Job(1, "report", 0, 2, "")

  predicate ReadBeforeAnyClaim(s: State) {
    && s.now == 0 && s.execs == map[] && FIRST_READ in s.seen
    && 1 in s.rows && s.rows[1].status == QUEUED && LimitOf(s.rows[1]) == 2
  }

  /** One more worker claims from the first read, runs the handler and asks for a retry. */
  lemma OneMoreStaleClaim(s: State) returns (steps: seq<Step>)
    requires ReadBeforeAnyClaim(s)
    ensures Runs(TIMING, s, steps) && ReadBeforeAnyClaim(After(TIMING, s, steps))
    ensures StartsOf(TIMING, s, steps, 1) == 1
  {
    var again := RetryRequested("", Some(0));
    steps := [];
    AppendStep(TIMING, s, steps, Claim(0, FIRST_READ, "w", 0), 1);
    steps := steps + [Claim(0, FIRST_READ, "w", 0)];
    AppendStep(TIMING, s, steps, Start(0), 1);
    steps := steps + [Start(0)];
    AppendStep(TIMING, s, steps, End(0, again), 1);
    steps := steps + [End(0, again)];
    var s3 := After(TIMING, s, steps);
    assert s3.execs[0].job == Job(1, "report", 1, 2, "w") && s3.execs[0].phase == Writing(again);
    AppendStep(TIMING, s, steps, Record(0), 1);
    steps := steps + [Record(0)];
    assert After(TIMING, s, steps).execs == map[];
  }

  /** With claims made from old reads there is no bound: a job limited to two attempts can be
      started any number of times, for the claim writes the attempt count it once read. */
  lemma {:induction false} StaleClaimsUnbounded(n: nat) returns (steps: seq<Step>)
    ensures Runs(TIMING, NOBODY, steps) && StartsOf(TIMING, NOBODY, steps, 1) == n
    ensures ReadBeforeAnyClaim(After(TIMING, NOBODY, steps))
  {
    if n == 0 {
      steps := [];
      AppendStep(TIMING, NOBODY, steps, Create(1, Fresh(2)), 1);
      steps := steps + [Create(1, Fresh(2))];
      AppendStep(TIMING, NOBODY, steps, Read(1), 1);
      steps := steps + [Read(1)];
    } else {
      var before := StaleClaimsUnbounded(n - 1);
      var more := OneMoreStaleClaim(After(TIMING, NOBODY, before));
      RunConcat(TIMING, NOBODY, before, more, 1);
      steps := before + more;
    }
  }

  // ----- a release whose write comes late -----

  ghost predicate TwoHandlers(s: State, id: int) {
    exists x, y :: x in s.execs && y in s.execs && x != y && s.execs[x].job.id == s.execs[y].job.id == id
      && s.execs[x].phase.Handling? && s.execs[y].phase.Handling?
  }

  /** A worker reads a stale row and is slow to write; meanwhile another worker releases the
      job and a third starts it. The late write still finds the row running, requeues the
      job under its handler, and a fourth worker starts it again. */
  lemma LateReleaseTwoHandlers() returns (before: seq<Step>, meanwhile: seq<Step>, later: seq<Step>)
    ensures Runs(TIMING, NOBODY, before)
    ensures var s1 := After(TIMING, NOBODY, before);
            && 1 in s1.rows && Stale(s1.rows[1], TIMING.lease, s1.now)
            && Runs(TIMING, s1, meanwhile)
            && var s2 := After(TIMING, s1, meanwhile);
            && 1 in s2.rows && s2.rows[1].status == RUNNING
            && var s3 := JobProtocol.Written(s2, 1, AbandonmentChanges(FromRow(1, s1.rows[1]), s2.now));
            && Runs(TIMING, s3, later) && TwoHandlers(After(TIMING, s3, later), 1)
  {
    var j0, j1, j2 := FromRow(1, Fresh(5)), Job(1, "report", 1, 5, ""), Job(1, "report", 2, 5, "");
    before := AbandonedRun(j0);
    var s1 := After(TIMING, NOBODY, before);
    meanwhile := [];
    AppendStep(TIMING, s1, meanwhile, Release(1), 1);
    meanwhile := meanwhile + [Release(1)];
    meanwhile := StartOnceDue(s1, meanwhile, j1, 0, "c");
    var s2 := After(TIMING, s1, meanwhile);
    var s3 := JobProtocol.Written(s2, 1, AbandonmentChanges(FromRow(1, s1.rows[1]), s2.now));
    later := StartOnceDue(s3, [], j2, 1, "d");
    var s4 := After(TIMING, s3, later);
    assert s4.execs[0].phase.Handling? && s4.execs[1].phase.Handling?;
  }

  lemma AbandonedRun(job: Job) returns (before: seq<Step>)
    requires job == FromRow(1, Fresh(5))
    ensures Runs(TIMING, NOBODY, before)
    ensures var s := After(TIMING, NOBODY, before);
            s.now == 901 && s.execs == map[] && 1 in s.rows
            && s.rows[1] == Merged(Fresh(5), ClaimChanges(job, "a", 0))
  {
    before := [];
    AppendStep(TIMING, NOBODY, before, Create(1, Fresh(5)), 1);
    before := before + [Create(1, Fresh(5))];
    AppendStep(TIMING, NOBODY, before, Read(1), 1);
    before := before + [Read(1)];
    AppendStep(TIMING, NOBODY, before, Claim(0, job, "a", 0), 1);
    before := before + [Claim(0, job, "a", 0)];
    AppendStep(TIMING, NOBODY, before, Crash(0), 1);
    before := before + [Crash(0)];
    assert After(TIMING, NOBODY, before).execs == map[];
    AppendStep(TIMING, NOBODY, before, Tick(901), 1);
    before := before + [Tick(901)];
  }

  /** A due job is read, claimed and started. */
  lemma StartNow(s: State, done: seq<Step>, job: Job, x: nat, worker: string) returns (steps: seq<Step>)
    requires Runs(TIMING, s, done)
    requires var m := After(TIMING, s, done);
             1 in m.rows && Due(m.rows[1], m.now) && FromRow(1, m.rows[1]) == job && x !in m.execs
    ensures Runs(TIMING, s, steps)
    ensures var m, e := After(TIMING, s, done), After(TIMING, s, steps);
            e.now == m.now && 1 in e.rows && e.rows[1] == Merged(m.rows[1], ClaimChanges(job, worker, e.now))
            && e.execs == m.execs[x := Exec(Taken(job, worker), worker, e.now, Handling, e.now)]
  {
    var m := After(TIMING, s, done);
    steps := done;
    AppendStep(TIMING, s, steps, Read(1), 1);
    steps := steps + [Read(1)];
    var claim := Claim(x, job, worker, m.now);
    AppendStep(TIMING, s, steps, claim, 1);
    steps := steps + [claim];
    AppendStep(TIMING, s, steps, Start(x), 1);
    steps := steps + [Start(x)];
  }

  /** A requeued job is started once its backoff is over. */
  lemma StartOnceDue(s: State, done: seq<Step>, job: Job, x: nat, worker: string) returns (steps: seq<Step>)
    requires Runs(TIMING, s, done)
    requires var m := After(TIMING, s, done);
             1 in m.rows && m.rows[1].status == QUEUED && m.rows[1].runAt == m.now + 30 && FromRow(1, m.rows[1]) == job
             && x !in m.execs && forall y :: y in m.execs ==> m.now + 30 <= m.execs[y].Deadline(TIMING)
    ensures Runs(TIMING, s, steps)
    ensures var m, e := After(TIMING, s, done), After(TIMING, s, steps);
            e.now == m.now + 30 && 1 in e.rows && e.rows[1] == Merged(m.rows[1], ClaimChanges(job, worker, e.now))
            && e.execs == m.execs[x := Exec(Taken(job, worker), worker, e.now, Handling, e.now)]
  {
    AppendStep(TIMING, s, done, Tick(30), 1);
    steps := StartNow(s, done + [Tick(30)], job, x, worker);
  }

  // ----- a manual retry of a running job -----

  /** A job is retried by hand while its handler runs, and a second worker starts it. */
  lemma RetryTwoHandlers() returns (before: seq<Step>, later: seq<Step>)
    ensures Runs(TIMING, NOBODY, before)
    ensures var s1 := After(TIMING, NOBODY, before);
            && 1 in s1.rows && s1.rows[1].status == RUNNING
            && var s2 := JobProtocol.Written(s1, 1, RetryChanges(s1.now));
            && Runs(TIMING, s2, later) && TwoHandlers(After(TIMING, s2, later), 1)
  {
    var job := FromRow(1, Fresh(5));
    AppendStep(TIMING, NOBODY, [], Create(1, Fresh(5)), 1);
    before := StartNow(NOBODY, [] + [Create(1, Fresh(5))], job, 0, "a");
    var s1 := After(TIMING, NOBODY, before);
    var s2 := JobProtocol.Written(s1, 1, RetryChanges(s1.now));
    later := StartNow(s2, [], job, 1, "b");
    var s3 := After(TIMING, s2, later);
    assert s3.execs[0].phase.Handling? && s3.execs[1].phase.Handling?;
  }

  // ----- nothing stands in a job's way -----

  lemma {:induction false} Unused(xs: set<nat>) returns (x: nat)
    ensures forall y :: y in xs ==> y < x
  {
    x := 0;
    if xs != {} {
      var y :| y in xs;
      x := Unused(xs - {y});
      if x <= y { x := y + 1; }
      assert forall z :: z in xs ==> z == y || z in xs - {y};
    }
  }

  /** From every state a due job can at once be read, claimed, run and recorded as done, whatever
      other workers are at. */
  lemma DueJobCanFinish(t: Timing, s: State, id: int, worker: string) returns (steps: seq<Step>)
    requires id in s.rows && Due(s.rows[id], s.now)
    ensures Runs(t, s, steps) && |steps| == 5
    ensures var after := After(t, s, steps);
      && after.now == s.now && after.execs == s.execs
      && after.rows == s.rows[id := s.rows[id].(status := DONE, attempts := s.rows[id].attempts + 1, lastError := None,
                                                claimedBy := Some(worker), claimedAt := Some(s.now), finishedAt := Some(s.now))]
  {
    var x := Unused(s.execs.Keys);
    var job := FromRow(id, s.rows[id]);
    steps := [];
    AppendStep(t, s, steps, Read(id), id);
    steps := steps + [Read(id)];
    AppendStep(t, s, steps, Claim(x, job, worker, s.now), id);
    steps := steps + [Claim(x, job, worker, s.now)];
    var held := After(t, s, steps);
    assert x !in s.execs && held.execs == s.execs[x := Exec(Taken(job, worker), worker, s.now, Claimed, s.now)];
    steps := FinishHeld(t, s, steps, x);
    assert held.execs - {x} == s.execs;
  }

  /** A job just claimed can at once be run and recorded as done. */
  lemma FinishHeld(t: Timing, s: State, done: seq<Step>, x: nat) returns (steps: seq<Step>)
    requires Runs(t, s, done)
    requires var held := After(t, s, done);
             x in held.execs && held.execs[x].phase.Claimed? && held.execs[x].job.id in held.rows
    ensures Runs(t, s, steps) && |steps| == |done| + 3
    ensures var held, after := After(t, s, done), After(t, s, steps);
            var id := held.execs[x].job.id;
      && after.now == held.now && after.execs == held.execs - {x}
      && after.rows == held.rows[id := held.rows[id].(status := DONE, lastError := None, finishedAt := Some(held.now))]
  {
    var held := After(t, s, done);
    var id := held.execs[x].job.id;
    steps := done;
    AppendStep(t, s, steps, Start(x), id);
    steps := steps + [Start(x)];
    AppendStep(t, s, steps, End(x, Succeeded), id);
    steps := steps + [End(x, Succeeded)];
    var ended := After(t, s, steps);
    assert ended.rows == held.rows && ended.execs == held.execs[x := ended.execs[x]] && ended.execs[x].phase == Writing(Succeeded);
    AppendStep(t, s, steps, Record(x), id);
    steps := steps + [Record(x)];
    assert held.execs[x := ended.execs[x]] - {x} == held.execs - {x};
  }

  /** A job whose worker is gone is queued again, or failed without attempts left, once its claim
      outlived the lease and nobody else holds time up. */
  lemma AbandonedJobReturns(t: Timing, s: State, id: int) returns (steps: seq<Step>)
    requires id in s.rows && s.rows[id].status == RUNNING && s.execs == map[]
    ensures Runs(t, s, steps)
    ensures var row, after := s.rows[id], After(t, s, steps);
      && id in after.rows && after.rows[id].attempts == row.attempts
      && after.rows[id].status == (if row.attempts < LimitOf(row) then QUEUED else FAILED)
  {
    var row := s.rows[id];
    var wait: nat := if row.claimedAt.Some? && row.claimedAt.value + t.lease >= s.now
                     then row.claimedAt.value + t.lease + 1 - s.now else 0;
    steps := [];
    AppendStep(t, s, steps, Tick(wait), id);
    steps := steps + [Tick(wait)];
    assert After(t, s, steps) == s.(now := s.now + wait);
    AppendStep(t, s, steps, Release(id), id);
    steps := steps + [Release(id)];
    AbandonmentMeans(row, FromRow(id, row), s.now + wait);
  }
}
