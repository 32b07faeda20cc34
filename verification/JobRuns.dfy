/** What holds over whole runs of the job protocol. */
module JobRuns {
  import opened Values
  import opened Jobs
  import opened JobProtocol

  ghost predicate Runs(t: Timing, s: State, steps: seq<Step>)
    decreases |steps|
  {
    steps == [] || (Enabled(t, s, steps[0]) && Runs(t, Apply(t, s, steps[0]), steps[1..]))
  }

  ghost function After(t: Timing, s: State, steps: seq<Step>): State
    requires Runs(t, s, steps)
    decreases |steps|
  {
    if steps == [] then s else After(t, Apply(t, s, steps[0]), steps[1..])
  }

  lemma {:induction false} RunKeepsSound(t: Timing, s: State, steps: seq<Step>)
    requires Sound(t, s) && t.LeaseOutlastsRun() && Runs(t, s, steps)
    ensures Sound(t, After(t, s, steps))
    decreases |steps|
  {
    if steps == [] {
    } else {
      StepKeepsSound(t, s, steps[0]);
      RunKeepsSound(t, Apply(t, s, steps[0]), steps[1..]);
    }
  }

  const NOBODY := State(0, map[], map[], {})

  predicate RunBy(s: State, id: int, worker: string) {
    id in s.rows && s.rows[id].status == RUNNING && s.rows[id].claimedBy == Some(worker)
  }

  /** With a lease longer than a worker can take, whatever workers read, crash or lose: two
      live workers never hold one job, the one that does is the row's claimant, and no row
      counts more attempts than its limit. */
  lemma OneLiveHolderEver(t: Timing, steps: seq<Step>)
    requires t.LeaseOutlastsRun() && Runs(t, NOBODY, steps)
    ensures var s := After(t, NOBODY, steps);
      && (forall x, y :: x in s.execs && y in s.execs && s.execs[x].job.id == s.execs[y].job.id ==> x == y)
      && (forall x :: x in s.execs ==> RunBy(s, s.execs[x].job.id, s.execs[x].worker))
      && (forall id :: id in s.rows ==> s.rows[id].attempts <= Max(1, LimitOf(s.rows[id])))
      && (forall id :: id in s.rows && s.rows[id].status == QUEUED ==> s.rows[id].attempts < Max(1, LimitOf(s.rows[id])))
  {
    SoundAtStart(t, 0);
    RunKeepsSound(t, NOBODY, steps);
    var s := After(t, NOBODY, steps);
    forall x | x in s.execs ensures RunBy(s, s.execs[x].job.id, s.execs[x].worker) {
      assert Owns(t, s, s.execs[x]);
    }
    forall id | id in s.rows ensures RowCounted(s.rows[id]) {
    }
  }

  // ----- what rows look like -----

  /** A queued row belongs to nobody and has no end; a running one has a claimant and a claim
      time; a finished one ended after it was claimed. */
  predicate Shaped(row: JobRow, now: int) {
    match row.status
    case QUEUED => row.claimedBy.None? && row.claimedAt.None? && row.finishedAt.None?
    case RUNNING => row.claimedBy.Some? && row.claimedAt.Some? && row.finishedAt.None? && row.claimedAt.value <= now
    case _ => row.claimedBy.Some? && row.claimedAt.Some? && row.finishedAt.Some?
              && row.claimedAt.value <= row.finishedAt.value <= now
  }

  ghost predicate AllShaped(s: State) {
    forall id :: id in s.rows ==> Shaped(s.rows[id], s.now)
  }

  /** An ending, written to a running row. */
  lemma EndingShaped(row: JobRow, job: Job, outcome: Outcome, jobTimeout: nat, now: int)
    requires Shaped(row, now) && row.status == RUNNING
    ensures Shaped(Merged(row, OutcomeChanges(job, outcome, jobTimeout, now)), now)
    ensures Shaped(Merged(row, AbandonmentChanges(job, now)), now)
  {
  }

  lemma StepKeepsShaped(t: Timing, s: State, step: Step)
    requires Sound(t, s) && Enabled(t, s, step) && AllShaped(s)
    ensures AllShaped(Apply(t, s, step))
  {
    hide OutcomeChanges, AbandonmentChanges, Sound;
    var after := Apply(t, s, step);
    if step.Record? {
      var e := s.execs[step.x];
      HolderRuns(t, s, step.x);
      EndingShaped(s.rows[e.job.id], e.job, e.phase.outcome, t.jobTimeout, s.now);
    } else if step.Release? {
      EndingShaped(s.rows[step.id], FromRow(step.id, s.rows[step.id]), Succeeded, t.jobTimeout, s.now);
    }
    forall id | id in after.rows ensures Shaped(after.rows[id], after.now) {
      if id in s.rows { assert Shaped(s.rows[id], s.now); }
    }
  }

  lemma HolderRuns(t: Timing, s: State, x: nat)
    requires Sound(t, s) && x in s.execs
    ensures s.execs[x].job.id in s.rows && s.rows[s.execs[x].job.id].status == RUNNING
  {
    assert Owns(t, s, s.execs[x]);
  }

  lemma {:induction false} RunKeepsShaped(t: Timing, s: State, steps: seq<Step>)
    requires Sound(t, s) && t.LeaseOutlastsRun() && Runs(t, s, steps) && AllShaped(s)
    ensures AllShaped(After(t, s, steps))
    decreases |steps|
  {
    hide Sound, Enabled, Apply, AllShaped;
    if steps == [] {
    } else {
      StepKeepsSound(t, s, steps[0]);
      StepKeepsShaped(t, s, steps[0]);
      RunKeepsShaped(t, Apply(t, s, steps[0]), steps[1..]);
    }
  }

  // ----- what one step does to one row -----

  /** The row a step writes to. */
  function Writes(t: Timing, s: State, step: Step): Option<int>
    requires Enabled(t, s, step)
  {
    match step
    case Claim(_, job, _, _) => Some(job.id)
    case Record(x) => Some(s.execs[x].job.id)
    case Release(id) => Some(id)
    case Retry(id) => Some(id)
    case _ => None
  }

  /** A finished row changes only through a manual retry. */
  lemma FinishedRowStays(t: Timing, s: State, step: Step, id: int)
    requires Sound(t, s) && Enabled(t, s, step) && step != Step.Retry(id)
    requires id in s.rows && s.rows[id].status in {DONE, FAILED}
    ensures id in Apply(t, s, step).rows && Apply(t, s, step).rows[id] == s.rows[id]
  {
    if step.Record? { assert Owns(t, s, s.execs[step.x]); }
  }

  lemma {:induction false} FinishedRowStaysForGood(t: Timing, s: State, steps: seq<Step>, id: int)
    requires Sound(t, s) && t.LeaseOutlastsRun() && Runs(t, s, steps) && Step.Retry(id) !in steps
    requires id in s.rows && s.rows[id].status in {DONE, FAILED}
    ensures id in After(t, s, steps).rows && After(t, s, steps).rows[id] == s.rows[id]
    decreases |steps|
  {
    if steps == [] {
    } else {
      FinishedRowStays(t, s, steps[0], id);
      StepKeepsSound(t, s, steps[0]);
      FinishedRowStaysForGood(t, Apply(t, s, steps[0]), steps[1..], id);
    }
  }

  /** A claim that read the row in the same step it wrote it. */
  predicate FreshClaim(s: State, step: Step) {
    step.Claim? ==> step.job.id in s.rows && step.job.attempts == s.rows[step.job.id].attempts
  }

  /** What a row has left to spend: two for every attempt, and one for being run. */
  function Budget(row: JobRow): int {
    2 * (Cap(LimitOf(row)) - row.attempts) + if row.status == RUNNING then 1 else 0
  }

  /** Every claim, reschedule, release and finish spends exactly one. */
  lemma StepSpendsBudget(t: Timing, s: State, step: Step, id: int)
    requires Sound(t, s) && Enabled(t, s, step) && step != Step.Retry(id) && FreshClaim(s, step) && id in s.rows
    ensures id in Apply(t, s, step).rows
    ensures Apply(t, s, step).rows[id].attempts == s.rows[id].attempts + (if step.Claim? && step.job.id == id then 1 else 0)
    ensures Budget(Apply(t, s, step).rows[id]) == Budget(s.rows[id]) - (if Writes(t, s, step) == Some(id) then 1 else 0)
    ensures LimitOf(Apply(t, s, step).rows[id]) == LimitOf(s.rows[id])
  {
    hide OutcomeChanges, AbandonmentChanges;
    if step.Record? { assert Owns(t, s, s.execs[step.x]); }
  }

  /** A claim spends exactly one if and only if it read the row in the step that wrote it. */
  lemma ClaimSpendsOneIff(t: Timing, s: State, step: Step)
    requires Enabled(t, s, step) && step.Claim?
    ensures Budget(Apply(t, s, step).rows[step.job.id]) == Budget(s.rows[step.job.id]) - 1 <==> FreshClaim(s, step)
  {
  }

  // ----- counting over a run -----

  ghost function WritesTo(t: Timing, s: State, steps: seq<Step>, id: int): nat
    requires Runs(t, s, steps)
    decreases |steps|
  {
    if steps == [] then 0
    else (if Writes(t, s, steps[0]) == Some(id) then 1 else 0) + WritesTo(t, Apply(t, s, steps[0]), steps[1..], id)
  }

  function ClaimsOf(steps: seq<Step>, id: int): nat {
    if steps == [] then 0
    else (if steps[0].Claim? && steps[0].job.id == id then 1 else 0) + ClaimsOf(steps[1..], id)
  }

  /** How often a handler was started for a job. */
  ghost function StartsOf(t: Timing, s: State, steps: seq<Step>, id: int): nat
    requires Runs(t, s, steps)
    decreases |steps|
  {
    if steps == [] then 0
    else (if steps[0].Start? && s.execs[steps[0].x].job.id == id then 1 else 0)
         + StartsOf(t, Apply(t, s, steps[0]), steps[1..], id)
  }

  ghost predicate FreshClaims(t: Timing, s: State, steps: seq<Step>)
    requires Runs(t, s, steps)
    decreases |steps|
  {
    steps == [] || (FreshClaim(s, steps[0]) && FreshClaims(t, Apply(t, s, steps[0]), steps[1..]))
  }

  lemma {:induction false} RunSpendsBudget(t: Timing, s: State, steps: seq<Step>, id: int)
    requires Sound(t, s) && t.LeaseOutlastsRun() && Runs(t, s, steps) && FreshClaims(t, s, steps)
    requires id in s.rows && Step.Retry(id) !in steps
    ensures id in After(t, s, steps).rows
    ensures var row := After(t, s, steps).rows[id];
            && Budget(row) == Budget(s.rows[id]) - WritesTo(t, s, steps, id)
            && row.attempts == s.rows[id].attempts + ClaimsOf(steps, id)
            && LimitOf(row) == LimitOf(s.rows[id])
    decreases |steps|
  {
    hide Sound, Enabled, Apply, Budget, LimitOf, Writes, FreshClaim;
    if steps == [] {
    } else {
      StepSpendsBudget(t, s, steps[0], id);
      StepKeepsSound(t, s, steps[0]);
      RunSpendsBudget(t, Apply(t, s, steps[0]), steps[1..], id);
    }
  }

  /** Whether some worker has claimed the job and not yet started it. */
  ghost predicate Waiting(s: State, id: int) {
    exists x :: x in s.execs && s.execs[x].phase.Claimed? && s.execs[x].job.id == id
  }

  ghost function WaitingCount(s: State, id: int): nat {
    if Waiting(s, id) then 1 else 0
  }

  /** A handler starts only for a claim that was waiting, and that claim waits no more. */
  lemma StartUsesClaim(t: Timing, s: State, step: Step, id: int)
    requires Sound(t, s) && Enabled(t, s, step)
    ensures WaitingCount(Apply(t, s, step), id) + (if step.Start? && s.execs[step.x].job.id == id then 1 else 0)
         <= WaitingCount(s, id) + (if step.Claim? && step.job.id == id then 1 else 0)
  {
    var after := Apply(t, s, step);
    if Waiting(after, id) {
      var x :| x in after.execs && after.execs[x].phase.Claimed? && after.execs[x].job.id == id;
      if !(step.Claim? && step.x == x) {
        assert x in s.execs && s.execs[x] == after.execs[x];
        assert Waiting(s, id);
      }
    }
  }

  lemma {:induction false} StartsWithinClaims(t: Timing, s: State, steps: seq<Step>, id: int)
    requires Sound(t, s) && t.LeaseOutlastsRun() && Runs(t, s, steps)
    ensures WaitingCount(After(t, s, steps), id) + StartsOf(t, s, steps, id) <= WaitingCount(s, id) + ClaimsOf(steps, id)
    decreases |steps|
  {
    hide Sound, Enabled, Apply, WaitingCount;
    if steps == [] {
    } else {
      StartUsesClaim(t, s, steps[0], id);
      StepKeepsSound(t, s, steps[0]);
      StartsWithinClaims(t, Apply(t, s, steps[0]), steps[1..], id);
    }
  }

  /** From the queue, and without a manual retry, a job is started at most as often as it has
      attempts left, and its row is written at most twice as often. */
  lemma StartsAtMostAttemptsLeft(t: Timing, s: State, steps: seq<Step>, id: int)
    requires Sound(t, s) && t.LeaseOutlastsRun() && Runs(t, s, steps) && FreshClaims(t, s, steps)
    requires id in s.rows && s.rows[id].status == QUEUED && Step.Retry(id) !in steps
    ensures StartsOf(t, s, steps, id) <= Max(1, LimitOf(s.rows[id])) - s.rows[id].attempts
    ensures WritesTo(t, s, steps, id) <= 2 * (Max(1, LimitOf(s.rows[id])) - s.rows[id].attempts)
  {
    HolderIsInTime(t, s, id);
    StartsWithinClaims(t, s, steps, id);
    RunSpendsBudget(t, s, steps, id);
    RunKeepsSound(t, s, steps);
    assert RowCounted(After(t, s, steps).rows[id]);
  }

  // ----- where the protocol stops being sound -----

  /** A retry of any job keeps the protocol sound exactly when no live worker holds it. */
  lemma RetrySoundIff(t: Timing, s: State, id: int)
    requires Sound(t, s) && id in s.rows
    ensures Sound(t, JobProtocol.Written(s, id, RetryChanges(s.now)))
            <==> forall x :: x in s.execs ==> s.execs[x].job.id != id
  {
    var after := JobProtocol.Written(s, id, RetryChanges(s.now));
    if forall x :: x in s.execs ==> s.execs[x].job.id != id {
      WriteDisturbsNobody(t, s, id, RetryChanges(s.now));
    } else {
      var x :| x in s.execs && s.execs[x].job.id == id;
      assert !Owns(t, after, after.execs[x]);
    }
  }

  /** How long a worker can be at a job after stamping the claim. */
  function Longest(t: Timing): nat {
    t.startDelay + t.jobTimeout + t.writeDelay
  }

  /** Whether, from the row alone, a live worker may hold the job. */
  predicate MayBeHeld(t: Timing, row: JobRow, now: int) {
    row.status == RUNNING && row.claimedBy.Some? && row.claimedAt.Some? && now <= row.claimedAt.value + Longest(t)
  }

  /** A sound protocol in which the row is held: its claimant is as far along as the time since
      the claim allows. */
  function HeldState(t: Timing, id: int, row: JobRow, now: int): State
    requires MayBeHeld(t, row, now)
  {
    var at := row.claimedAt.value;
    var phase := if now <= at + t.startDelay then Claimed
                 else if now <= at + t.startDelay + t.jobTimeout then Handling else Writing(Succeeded);
    var since := if phase.Claimed? then at else if phase.Handling? then at + t.startDelay
                 else at + t.startDelay + t.jobTimeout;
    State(now, map[id := row], map[0 := Exec(FromRow(id, row), row.claimedBy.value, at, phase, since)], {})
  }

  ghost predicate RetrySafeFor(t: Timing, id: int, row: JobRow, now: int) {
    forall s: State :: Sound(t, s) && s.now == now && id in s.rows && s.rows[id] == row ==>
      Sound(t, JobProtocol.Written(s, id, RetryChanges(now)))
  }

  /** What somebody about to retry a job can read off its row: in every sound protocol with this
      row the retry is safe, if and only if the job is not running, or its claim is older than
      a worker can be at it. */
  lemma RetrySafeIff(t: Timing, id: int, row: JobRow, now: int)
    requires t.LeaseOutlastsRun() && RowCounted(row)
    ensures RetrySafeFor(t, id, row, now) <==> !MayBeHeld(t, row, now)
  {
    if MayBeHeld(t, row, now) {
      var s := HeldState(t, id, row, now);
      assert Owns(t, s, s.execs[0]);
      assert Sound(t, s);
      RetrySoundIff(t, s, id);
    } else {
      forall s: State | Sound(t, s) && s.now == now && id in s.rows && s.rows[id] == row
        ensures Sound(t, JobProtocol.Written(s, id, RetryChanges(now)))
      {
        forall x | x in s.execs ensures s.execs[x].job.id != id {
          assert Owns(t, s, s.execs[x]);
        }
        RetrySoundIff(t, s, id);
      }
    }
  }

  /** The write half of a release, made from a row read earlier, keeps the protocol sound
      exactly when no live worker holds the job by now and the row is not requeued with its
      attempts spent. */
  lemma LateReleaseSoundIff(t: Timing, s: State, job: Job)
    requires Sound(t, s) && job.id in s.rows && s.rows[job.id].status == RUNNING && job.limit == LimitOf(s.rows[job.id])
    ensures Sound(t, JobProtocol.Written(s, job.id, AbandonmentChanges(job, s.now))) <==>
      && (forall x :: x in s.execs ==> s.execs[x].job.id != job.id)
      && (AttemptsLeft(job) > 0 ==> s.rows[job.id].attempts < job.limit)
  {
    var changes := AbandonmentChanges(job, s.now);
    var after := JobProtocol.Written(s, job.id, changes);
    assert RowCounted(s.rows[job.id]);
    if exists x :: x in s.execs && s.execs[x].job.id == job.id {
      var x :| x in s.execs && s.execs[x].job.id == job.id;
      assert !Owns(t, after, after.execs[x]);
    } else if AttemptsLeft(job) > 0 && s.rows[job.id].attempts >= job.limit {
      assert !RowCounted(after.rows[job.id]);
    } else {
      WriteDisturbsNobody(t, s, job.id, changes);
    }
  }

  ghost predicate LateReleaseSafeFor(t: Timing, job: Job, row: JobRow, now: int) {
    forall s: State :: Sound(t, s) && s.now == now && job.id in s.rows && s.rows[job.id] == row ==>
      Sound(t, JobProtocol.Written(s, job.id, AbandonmentChanges(job, now)))
  }

  /** What the releaser can read off the row: in every sound protocol with this running row the
      late write is safe, if and only if the claim is older than a worker can be at it and the
      row is not requeued with its attempts spent. */
  lemma LateReleaseSafeIff(t: Timing, job: Job, row: JobRow, now: int)
    requires t.LeaseOutlastsRun() && RowCounted(row) && row.status == RUNNING && job.limit == LimitOf(row)
    ensures LateReleaseSafeFor(t, job, row, now)
            <==> !MayBeHeld(t, row, now) && (AttemptsLeft(job) > 0 ==> row.attempts < job.limit)
  {
    hide AbandonmentChanges, AttemptsLeft;
    if MayBeHeld(t, row, now) {
      var s := HeldState(t, job.id, row, now);
      assert Owns(t, s, s.execs[0]);
      assert Sound(t, s);
      LateReleaseSoundIff(t, s, job);
    } else {
      var idle := State(now, map[job.id := row], map[], {});
      assert Sound(t, idle);
      LateReleaseSoundIff(t, idle, job);
      forall s: State | Sound(t, s) && s.now == now && job.id in s.rows && s.rows[job.id] == row
        ensures Sound(t, JobProtocol.Written(s, job.id, AbandonmentChanges(job, now)))
                <==> (AttemptsLeft(job) > 0 ==> row.attempts < job.limit)
      {
        forall x | x in s.execs ensures s.execs[x].job.id != job.id {
          assert Owns(t, s, s.execs[x]);
        }
        LateReleaseSoundIff(t, s, job);
      }
    }
  }
}
