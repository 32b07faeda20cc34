/** Any number of workers over one job table, as steps in time: reads that go stale, claims,
    handlers under a timeout, outcome writes that may be lost, crashes, and the release of
    jobs whose claim outlived the lease. */
module JobProtocol {
  import opened Values
  import opened Jobs

  /** The lease, and how long a worker can take from stamping a claim to starting the
      handler, in the handler, and in writing the outcome down. */
  datatype Timing = Timing(lease: nat, startDelay: nat, jobTimeout: nat, writeDelay: nat)
  {
    predicate LeaseOutlastsRun() {
      startDelay + jobTimeout + writeDelay <= lease
    }
  }

  datatype Phase = Claimed | Handling | Writing(outcome: Outcome)

  /** A live worker's hold on a job: the job as claimed, and when the phase began. */
  datatype Exec = Exec(job: Job, worker: string, claimedAt: int, phase: Phase, since: int)
  {
    function Deadline(t: Timing): int {
      match phase
      case Claimed => claimedAt + t.startDelay
      case Handling => since + t.jobTimeout
      case Writing(_) => since + t.writeDelay
    }
  }

  /** `seen` holds every queued row any worker ever read, as it was then. */
  datatype State = State(now: int, rows: map<int, JobRow>, execs: map<nat, Exec>, seen: set<Job>)

  datatype Step =
    | Tick(seconds: nat)
    | Create(id: int, row: JobRow)
    | Read(id: int)
    | Claim(x: nat, job: Job, worker: string, stamp: int)
    | Start(x: nat)
    | End(x: nat, outcome: Outcome)
    | Record(x: nat)
    | Crash(x: nat)
    | Release(id: int)
    | Retry(id: int)

  predicate Enabled(t: Timing, s: State, step: Step) {
    match step
    case Tick(seconds) => forall x :: x in s.execs ==> s.now + seconds <= s.execs[x].Deadline(t)
    case Create(id, row) =>
      id !in s.rows && row.status == QUEUED && row.attempts == 0
      && row.claimedBy.None? && row.claimedAt.None? && row.finishedAt.None?
    case Read(id) => id in s.rows && Due(s.rows[id], s.now)
    case Claim(x, job, worker, stamp) =>
      && x !in s.execs && job in s.seen && stamp <= s.now <= stamp + t.startDelay
      && job.id in s.rows && s.rows[job.id].status == QUEUED
    case Start(x) => x in s.execs && s.execs[x].phase.Claimed?
    case End(x, _) => x in s.execs && s.execs[x].phase.Handling?
    case Record(x) => x in s.execs && s.execs[x].phase.Writing? && s.execs[x].job.id in s.rows
    case Crash(x) => x in s.execs
    case Release(id) => id in s.rows && Stale(s.rows[id], t.lease, s.now)
    case Retry(id) => id in s.rows && s.rows[id].status in {DONE, FAILED}
  }

  function Written(s: State, id: int, changes: Changes): State
    requires id in s.rows
  {
    s.(rows := s.rows[id := Merged(s.rows[id], changes)])
  }

  function Apply(t: Timing, s: State, step: Step): State
    requires Enabled(t, s, step)
  {
    match step
    case Tick(seconds) => s.(now := s.now + seconds)
    case Create(id, row) => s.(rows := s.rows[id := row])
    case Read(id) => s.(seen := s.seen + {FromRow(id, s.rows[id])})
    case Claim(x, job, worker, stamp) =>
      Written(s, job.id, ClaimChanges(job, worker, stamp))
      .(execs := s.execs[x := Exec(Taken(job, worker), worker, stamp, Claimed, s.now)])
    case Start(x) => s.(execs := s.execs[x := s.execs[x].(phase := Handling, since := s.now)])
    case End(x, outcome) => s.(execs := s.execs[x := s.execs[x].(phase := Writing(outcome), since := s.now)])
    case Record(x) =>
      Written(s, s.execs[x].job.id, OutcomeChanges(s.execs[x].job, s.execs[x].phase.outcome, t.jobTimeout, s.now))
      .(execs := s.execs - {x})
    case Crash(x) => s.(execs := s.execs - {x})
    case Release(id) => Written(s, id, AbandonmentChanges(FromRow(id, s.rows[id]), s.now))
    case Retry(id) => Written(s, id, RetryChanges(s.now))
  }

  /** Nothing keeps a worker from crashing, a handler from ending as it likes, or an ended job
      from being retried. */
  lemma EnvironmentIsFree(t: Timing, s: State)
    ensures forall x :: x in s.execs ==> Enabled(t, s, Crash(x))
    ensures forall x, outcome :: x in s.execs && s.execs[x].phase.Handling? ==> Enabled(t, s, End(x, outcome))
    ensures forall id :: id in s.rows && s.rows[id].status in {DONE, FAILED} ==> Enabled(t, s, Retry(id))
  {
  }

  // ----- what every reachable state satisfies -----

  /** A job always gets one attempt, whatever its limit says. */
  function Cap(limit: int): int { Max(1, limit) }

  ghost predicate Owns(t: Timing, s: State, e: Exec) {
    && e.job.id in s.rows
    && var row := s.rows[e.job.id];
    && row.status == RUNNING && row.claimedBy == Some(e.worker) && row.claimedAt == Some(e.claimedAt)
    && row.attempts == e.job.attempts && e.job.limit == LimitOf(row)
    && s.now <= e.Deadline(t) <= e.claimedAt + t.lease
    && e.Deadline(t) <= e.claimedAt + t.startDelay
                        + (if e.phase.Claimed? then 0 else t.jobTimeout) + (if e.phase.Writing? then t.writeDelay else 0)
  }

  predicate RowCounted(row: JobRow) {
    row.attempts <= Cap(LimitOf(row)) && (row.status == QUEUED ==> row.attempts < Cap(LimitOf(row)))
  }

  predicate SeenCounted(s: State, job: Job) {
    job.id in s.rows && job.limit == LimitOf(s.rows[job.id]) && job.attempts < Cap(job.limit)
  }

  /** No two live workers hold one job. */
  ghost predicate OneHolder(s: State) {
    forall x, y :: x in s.execs && y in s.execs && s.execs[x].job.id == s.execs[y].job.id ==> x == y
  }

  ghost predicate Sound(t: Timing, s: State) {
    && (forall x :: x in s.execs ==> Owns(t, s, s.execs[x]))
    && OneHolder(s)
    && (forall id :: id in s.rows ==> RowCounted(s.rows[id]))
    && (forall job :: job in s.seen ==> SeenCounted(s, job))
  }

  lemma SoundAtStart(t: Timing, now: int)
    ensures Sound(t, State(now, map[], map[], {}))
  {
  }

  /** Nobody holds a job whose row is not running, nor one whose claim is stale. */
  lemma HolderIsInTime(t: Timing, s: State, id: int)
    requires Sound(t, s) && id in s.rows
    ensures s.rows[id].status != RUNNING || Stale(s.rows[id], t.lease, s.now) ==>
              forall x :: x in s.execs ==> s.execs[x].job.id != id
  {
    forall x | x in s.execs && s.execs[x].job.id == id
      ensures s.rows[id].status == RUNNING && !Stale(s.rows[id], t.lease, s.now)
    {
      assert Owns(t, s, s.execs[x]);
    }
  }

  /** A write to a row nobody holds disturbs no holder. */
  lemma WriteDisturbsNobody(t: Timing, s: State, id: int, changes: Changes)
    requires Sound(t, s) && id in s.rows && RowCounted(Merged(s.rows[id], changes))
    requires forall x :: x in s.execs ==> s.execs[x].job.id != id
    ensures Sound(t, Written(s, id, changes))
  {
    var after := Written(s, id, changes);
    forall x | x in after.execs ensures Owns(t, after, after.execs[x]) {
      assert Owns(t, s, s.execs[x]);
    }
    forall job | job in after.seen ensures SeenCounted(after, job) {
      assert SeenCounted(s, job);
    }
  }

  lemma DropKeepsSound(t: Timing, s: State, x: nat)
    requires Sound(t, s)
    ensures Sound(t, s.(execs := s.execs - {x}))
  {
    var after := s.(execs := s.execs - {x});
    forall y | y in after.execs ensures Owns(t, after, after.execs[y]) {
      assert Owns(t, s, s.execs[y]);
    }
    forall job | job in after.seen ensures SeenCounted(after, job) {
      assert SeenCounted(s, job);
    }
  }

  lemma ClaimKeepsSound(t: Timing, s: State, step: Step)
    requires Sound(t, s) && t.LeaseOutlastsRun() && step.Claim? && Enabled(t, s, step)
    ensures Sound(t, Apply(t, s, step))
  {
    var after := Apply(t, s, step);
    assert SeenCounted(s, step.job);
    HolderIsInTime(t, s, step.job.id);
    WriteDisturbsNobody(t, s, step.job.id, ClaimChanges(step.job, step.worker, step.stamp));
    var mid := Written(s, step.job.id, ClaimChanges(step.job, step.worker, step.stamp));
    forall y | y in after.execs ensures Owns(t, after, after.execs[y]) {
      if y != step.x { assert Owns(t, mid, mid.execs[y]); }
    }
    forall job | job in after.seen ensures SeenCounted(after, job) {
      assert SeenCounted(mid, job);
    }
  }

  lemma RecordKeepsSound(t: Timing, s: State, x: nat)
    requires Sound(t, s) && Enabled(t, s, Record(x))
    ensures Sound(t, Apply(t, s, Record(x)))
  {
    hide OutcomeChanges;
    var e := s.execs[x];
    assert Owns(t, s, e);
    DropKeepsSound(t, s, x);
    WriteDisturbsNobody(t, s.(execs := s.execs - {x}), e.job.id,
                        OutcomeChanges(e.job, e.phase.outcome, t.jobTimeout, s.now));
  }

  /** Moving a worker along changes no row. */
  lemma MoveKeepsSound(t: Timing, s: State, step: Step)
    requires Sound(t, s) && t.LeaseOutlastsRun() && Enabled(t, s, step) && (step.Start? || step.End? || step.Tick?)
    ensures Sound(t, Apply(t, s, step))
  {
    var after := Apply(t, s, step);
    forall y | y in after.execs ensures Owns(t, after, after.execs[y]) {
      assert Owns(t, s, s.execs[y]);
    }
    forall job | job in after.seen ensures SeenCounted(after, job) {
      assert SeenCounted(s, job);
    }
  }

  lemma ReadsKeepSound(t: Timing, s: State, step: Step)
    requires Sound(t, s) && Enabled(t, s, step) && (step.Read? || step.Create?)
    ensures Sound(t, Apply(t, s, step))
  {
    var after := Apply(t, s, step);
    forall y | y in after.execs ensures Owns(t, after, after.execs[y]) {
      assert Owns(t, s, s.execs[y]);
    }
    forall job | job in after.seen ensures SeenCounted(after, job) {
      if job in s.seen { assert SeenCounted(s, job); }
    }
  }

  /** Every step keeps the protocol sound, stale reads and all. */
  lemma StepKeepsSound(t: Timing, s: State, step: Step)
    requires Sound(t, s) && t.LeaseOutlastsRun() && Enabled(t, s, step)
    ensures Sound(t, Apply(t, s, step))
  {
    match step
    case Tick(_) => MoveKeepsSound(t, s, step);
    case Start(_) => MoveKeepsSound(t, s, step);
    case End(_, _) => MoveKeepsSound(t, s, step);
    case Create(_, _) => ReadsKeepSound(t, s, step);
    case Read(_) => ReadsKeepSound(t, s, step);
    case Claim(_, _, _, _) => ClaimKeepsSound(t, s, step);
    case Record(x) => RecordKeepsSound(t, s, x);
    case Crash(x) => DropKeepsSound(t, s, x);
    case Release(id) =>
      HolderIsInTime(t, s, id);
      WriteDisturbsNobody(t, s, id, AbandonmentChanges(FromRow(id, s.rows[id]), s.now));
    case Retry(id) =>
      HolderIsInTime(t, s, id);
      WriteDisturbsNobody(t, s, id, RetryChanges(s.now));
  }
}
