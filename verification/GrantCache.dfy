/** The grant table as several workers cache it: each keeps a copy for a while, reloads it
    under a lock, and shares what it loaded through a cache that forgets in time. Time is in
    milliseconds. */
module GrantCache {
  import opened Values
  import opened Grants

  const SHARED_TTL := 2000
  const PAGE := 500

  /** `load` bounds the time from a database read to its result being kept, and `reply` the
      time from a shared-cache read to its result being kept. */
  datatype Config = Config(ttl: nat, shared: bool, load: nat, reply: nat)
  {
    /** How long a worker trusts its own copy. */
    function LocalTtl(): nat {
      if shared && SHARED_TTL < ttl then SHARED_TTL else ttl
    }

    /** How old a copy can be when it is kept. */
    function AgeWhenKept(): nat {
      if shared then ttl + load + reply else load
    }
  }

  type Table = seq<Grant>

  /** A table as it was in the database at one instant. */
  datatype Reading = Reading(rows: Table, asOf: int)

  datatype Phase =
    | Idle
    | Asking
    | Answered(reading: Reading, at: int)
    | Querying
    | Loaded(reading: Reading)
    | Stored(reading: Reading)

  datatype Copy = Copy(reading: Reading, stamped: int)

  /** A worker: its copy, what the holder of its lock is doing, and who waits for the lock. */
  datatype Worker = Worker(copy: Option<Copy>, phase: Phase, waiting: nat)

  datatype Entry = Entry(reading: Reading, expires: int)

  /** The database's table from some instant on. */
  datatype Version = Version(rows: Table, since: int)

  datatype State = State(now: int, log: seq<Version>, workers: map<nat, Worker>, entry: Option<Entry>)

  datatype Step =
    | Tick(millis: nat)
    | Edit(rows: Table)
    | Spawn(w: nat)
    | Call(w: nat)
    | ServeWaiting(w: nat)
    | Acquire(w: nat)
    | AskShared(w: nat, hit: bool)
    | ReadDatabase(w: nat)
    | StoreShared(w: nat, stored: bool)
    | Keep(w: nat)
    | Fail(w: nat)
    | Invalidate(w: nat)
    | DropShared

  predicate Fresh(c: Config, s: State, w: nat) {
    w in s.workers && s.workers[w].copy.Some? && s.now - s.workers[w].copy.value.stamped < c.LocalTtl()
  }

  /** A worker answers from a fresh copy, or from the one it has just kept. */
  predicate Answers(c: Config, s: State, w: nat) {
    Fresh(c, s, w) || (w in s.workers && s.workers[w].copy.Some? && s.workers[w].copy.value.stamped == s.now)
  }

  /** One page of the table is read. */
  function FirstPage(rows: Table): Table {
    if |rows| <= PAGE then rows else rows[..PAGE]
  }

  /** Time passes only as far as the bounds on loads and replies let it. */
  predicate InTime(c: Config, phase: Phase, now: int) {
    match phase
    case Loaded(r) => now <= r.asOf + c.load
    case Stored(r) => now <= r.asOf + c.load
    case Answered(_, at) => now <= at + c.reply
    case _ => true
  }

  /** A shared entry is honoured until it expires, and an empty one is no entry. */
  predicate Hits(c: Config, s: State) {
    c.shared && s.entry.Some? && s.now < s.entry.value.expires && s.entry.value.reading.rows != []
  }

  predicate Enabled(c: Config, s: State, step: Step) {
    match step
    case Tick(millis) => forall w :: w in s.workers ==> InTime(c, s.workers[w].phase, s.now + millis)
    case Edit(_) => true
    case DropShared => true
    case Spawn(w) => w !in s.workers
    case Call(w) => w in s.workers && !Fresh(c, s, w)
    case ServeWaiting(w) => w in s.workers && s.workers[w].phase.Idle? && s.workers[w].waiting > 0 && Fresh(c, s, w)
    case Acquire(w) => w in s.workers && s.workers[w].phase.Idle? && s.workers[w].waiting > 0 && !Fresh(c, s, w)
    case AskShared(w, hit) => w in s.workers && s.workers[w].phase.Asking? && (hit ==> Hits(c, s))
    case ReadDatabase(w) => w in s.workers && s.workers[w].phase.Querying? && s.log != []
    case StoreShared(w, _) => w in s.workers && s.workers[w].phase.Loaded?
    case Keep(w) => w in s.workers && (s.workers[w].phase.Answered? || s.workers[w].phase.Stored?)
    case Fail(w) => w in s.workers && !s.workers[w].phase.Idle?
    case Invalidate(w) => w in s.workers
  }

  function Set(s: State, w: nat, worker: Worker): State {
    s.(workers := s.workers[w := worker])
  }

  function Apply(c: Config, s: State, step: Step): State
    requires Enabled(c, s, step)
  {
    match step
    case Tick(millis) => s.(now := s.now + millis)
    case Edit(rows) => s.(log := s.log + [Version(rows, s.now)])
    case DropShared => s.(entry := None)
    case Spawn(w) => Set(s, w, Worker(None, Idle, 0))
    case Call(w) => Set(s, w, s.workers[w].(waiting := s.workers[w].waiting + 1))
    case ServeWaiting(w) => Set(s, w, s.workers[w].(waiting := s.workers[w].waiting - 1))
    case Acquire(w) => Set(s, w, s.workers[w].(waiting := s.workers[w].waiting - 1, phase := Asking))
    case AskShared(w, hit) =>
      Set(s, w, s.workers[w].(phase := if hit then Answered(s.entry.value.reading, s.now) else Querying))
    case ReadDatabase(w) =>
      Set(s, w, s.workers[w].(phase := Loaded(Reading.Reading(FirstPage(s.log[|s.log| - 1].rows), s.now))))
    case StoreShared(w, stored) =>
      var reading := s.workers[w].phase.reading;
      Set(s, w, s.workers[w].(phase := Stored(reading)))
      .(entry := if stored && c.shared then Some(Entry(reading, s.now + c.ttl)) else s.entry)
    case Keep(w) => Set(s, w, s.workers[w].(copy := Some(Copy(s.workers[w].phase.reading, s.now)), phase := Idle))
    case Fail(w) => Set(s, w, s.workers[w].(phase := Idle))
    case Invalidate(w) => Set(s, w, s.workers[w].(copy := None))
  }

  /** Nothing keeps the table from being edited, the shared cache from forgetting, a load from
      failing, a copy from being invalidated, or callers from coming while it is out of date. */
  lemma EnvironmentIsFree(c: Config, s: State)
    ensures Enabled(c, s, DropShared) && forall rows :: Enabled(c, s, Edit(rows))
    ensures forall w :: w in s.workers ==> Enabled(c, s, Invalidate(w)) && (Fresh(c, s, w) || Enabled(c, s, Call(w)))
    ensures forall w :: w in s.workers && !s.workers[w].phase.Idle? ==> Enabled(c, s, Fail(w))
    ensures forall w :: w in s.workers && s.workers[w].phase.Asking? ==> Enabled(c, s, AskShared(w, false))
  {
  }

  // ----- what every reachable state satisfies -----

  predicate CurrentAt(log: seq<Version>, k: nat, instant: int) {
    k < |log| && log[k].since <= instant && (k + 1 < |log| ==> instant <= log[k + 1].since)
  }

  /** The reading is the first page of what the database held at its instant. */
  ghost predicate True(log: seq<Version>, now: int, r: Reading) {
    r.asOf <= now && exists k: nat :: CurrentAt(log, k, r.asOf) && r.rows == FirstPage(log[k].rows)
  }

  ghost predicate PhaseSound(c: Config, log: seq<Version>, now: int, phase: Phase) {
    && InTime(c, phase, now)
    && match phase
       case Loaded(r) => True(log, now, r)
       case Stored(r) => True(log, now, r)
       case Answered(r, at) => True(log, now, r) && c.shared && at <= r.asOf + c.load + c.ttl
       case _ => true
  }

  ghost predicate CopySound(c: Config, log: seq<Version>, now: int, copy: Copy) {
    True(log, now, copy.reading) && copy.stamped <= now && copy.stamped <= copy.reading.asOf + c.AgeWhenKept()
  }

  ghost predicate WorkerSound(c: Config, log: seq<Version>, now: int, worker: Worker) {
    PhaseSound(c, log, now, worker.phase) && (worker.copy.Some? ==> CopySound(c, log, now, worker.copy.value))
  }

  ghost predicate Sound(c: Config, s: State) {
    && s.log != [] && (forall k :: 0 <= k < |s.log| ==> s.log[k].since <= s.now)
    && (s.entry.Some? ==> True(s.log, s.now, s.entry.value.reading) && s.entry.value.expires <= s.entry.value.reading.asOf + c.load + c.ttl)
    && (forall w :: w in s.workers ==> WorkerSound(c, s.log, s.now, s.workers[w]))
  }

  lemma SoundAtStart(c: Config, rows: Table)
    ensures Sound(c, State(0, [Version(rows, 0)], map[], None))
  {
  }

  lemma StillTrue(s: State, later: State, r: Reading)
    requires True(s.log, s.now, r) && s.now <= later.now
    requires later.log == s.log || exists rows :: later.log == s.log + [Version(rows, s.now)]
    ensures True(later.log, later.now, r)
  {
    var k: nat :| CurrentAt(s.log, k, r.asOf) && r.rows == FirstPage(s.log[k].rows);
    assert later.log[k] == s.log[k];
    assert CurrentAt(later.log, k, r.asOf);
  }

  /** Passing time and edits make no reading untrue. */
  lemma EnvironmentKeepsSound(c: Config, s: State, step: Step)
    requires Sound(c, s) && Enabled(c, s, step) && (step.Tick? || step.Edit? || step.DropShared? || step.Spawn?)
    ensures Sound(c, Apply(c, s, step))
  {
    var after := Apply(c, s, step);
    forall r | True(s.log, s.now, r) ensures True(after.log, after.now, r) { StillTrue(s, after, r); }
    forall w | w in after.workers ensures WorkerSound(c, after.log, after.now, after.workers[w]) {
      if w in s.workers { assert WorkerSound(c, s.log, s.now, s.workers[w]); }
    }
  }

  /** What the database holds now is true now. */
  lemma ReadNow(c: Config, s: State)
    requires Sound(c, s)
    ensures True(s.log, s.now, Reading.Reading(FirstPage(s.log[|s.log| - 1].rows), s.now))
  {
    assert CurrentAt(s.log, |s.log| - 1, s.now);
  }

  lemma WorkerKeepsSound(c: Config, s: State, step: Step)
    requires Sound(c, s) && Enabled(c, s, step) && !step.Tick? && !step.Edit? && !step.DropShared? && !step.Spawn?
    ensures Sound(c, Apply(c, s, step))
  {
    hide True;
    var after := Apply(c, s, step);
    ReadNow(c, s);
    NewWorkerSound(c, s, step);
    assert after.log == s.log && after.now == s.now && after.workers.Keys == s.workers.Keys;
    assert forall w :: w in s.workers && w != step.w ==> after.workers[w] == s.workers[w];
  }

  lemma NewWorkerSound(c: Config, s: State, step: Step)
    requires Sound(c, s) && Enabled(c, s, step) && !step.Tick? && !step.Edit? && !step.DropShared? && !step.Spawn?
    ensures step.w in s.workers && step.w in Apply(c, s, step).workers
    ensures WorkerSound(c, s.log, s.now, Apply(c, s, step).workers[step.w])
    ensures var e := Apply(c, s, step).entry;
            e.Some? ==> True(s.log, s.now, e.value.reading) && e.value.expires <= e.value.reading.asOf + c.load + c.ttl
  {
    hide True;
    assert WorkerSound(c, s.log, s.now, s.workers[step.w]);
    ReadNow(c, s);
  }

  lemma StepKeepsSound(c: Config, s: State, step: Step)
    requires Sound(c, s) && Enabled(c, s, step)
    ensures Sound(c, Apply(c, s, step))
  {
    if step.Tick? || step.Edit? || step.DropShared? || step.Spawn? {
      EnvironmentKeepsSound(c, s, step);
    } else {
      WorkerKeepsSound(c, s, step);
    }
  }

  /** What a worker answers with was the database's content not long ago. */
  lemma AnswerIsRecent(c: Config, s: State, w: nat)
    requires Sound(c, s) && Answers(c, s, w)
    ensures var r := s.workers[w].copy.value.reading;
            True(s.log, s.now, r) && s.now <= r.asOf + c.AgeWhenKept() + c.LocalTtl()
  {
    assert WorkerSound(c, s.log, s.now, s.workers[w]);
  }

  // ----- runs -----

  ghost predicate Runs(c: Config, s: State, steps: seq<Step>)
    decreases |steps|
  {
    steps == [] || (Enabled(c, s, steps[0]) && Runs(c, Apply(c, s, steps[0]), steps[1..]))
  }

  ghost function After(c: Config, s: State, steps: seq<Step>): State
    requires Runs(c, s, steps)
    decreases |steps|
  {
    if steps == [] then s else After(c, Apply(c, s, steps[0]), steps[1..])
  }

  lemma {:induction false} RunKeepsSound(c: Config, s: State, steps: seq<Step>)
    requires Sound(c, s) && Runs(c, s, steps)
    ensures Sound(c, After(c, s, steps))
    decreases |steps|
  {
    if steps == [] {
    } else {
      StepKeepsSound(c, s, steps[0]);
      RunKeepsSound(c, Apply(c, s, steps[0]), steps[1..]);
    }
  }

  /** The rows are what the database's first page was at an instant at most `age` ago. */
  ghost predicate HeldWithin(s: State, rows: Table, age: int) {
    exists k: nat, instant: int {:trigger CurrentAt(s.log, k, instant)} ::
      && CurrentAt(s.log, k, instant) && instant <= s.now <= instant + age
      && rows == if |s.log[k].rows| <= 500 then s.log[k].rows else s.log[k].rows[..500]
  }

  /** However workers, edits, invalidations and failures interleave, an answer is the table as
      it was at some instant no more than ttl + min(ttl, two seconds) + one load + one cache
      reply ago; with no shared cache, no more than ttl + one load ago. */
  lemma AnswersAreRecent(c: Config, rows: Table, steps: seq<Step>, w: nat)
    requires Runs(c, State(0, [Version(rows, 0)], map[], None), steps)
    requires Answers(c, After(c, State(0, [Version(rows, 0)], map[], None), steps), w)
    ensures var s := After(c, State(0, [Version(rows, 0)], map[], None), steps);
            HeldWithin(s, s.workers[w].copy.value.reading.rows,
                       if c.shared then c.ttl + (if c.ttl < 2000 then c.ttl else 2000) + c.load + c.reply
                       else c.ttl + c.load)
  {
    SoundAtStart(c, rows);
    RunKeepsSound(c, State(0, [Version(rows, 0)], map[], None), steps);
    var s := After(c, State(0, [Version(rows, 0)], map[], None), steps);
    AnswerIsRecent(c, s, w);
    var r := s.workers[w].copy.value.reading;
    var k: nat :| CurrentAt(s.log, k, r.asOf) && r.rows == FirstPage(s.log[k].rows);
    assert HeldWithin(s, r.rows, c.AgeWhenKept() + c.LocalTtl());
  }

  // ----- one reload for all who wait -----

  /** How often a worker sets out to reload. */
  function Reloads(steps: seq<Step>, w: nat): nat {
    if steps == [] then 0 else (if steps[0] == Acquire(w) then 1 else 0) + Reloads(steps[1..], w)
  }

  predicate Undisturbed(steps: seq<Step>, w: nat) {
    Invalidate(w) !in steps && Fail(w) !in steps
  }

  /** The earliest a worker can set out to reload again. */
  function NextReload(c: Config, s: State, w: nat): int {
    if w !in s.workers then s.now
    else if !s.workers[w].phase.Idle? then s.now + c.LocalTtl()
    else if s.workers[w].copy.Some? && s.workers[w].copy.value.stamped + c.LocalTtl() > s.now
      then s.workers[w].copy.value.stamped + c.LocalTtl()
    else s.now
  }

  lemma StepPostponesReload(c: Config, s: State, step: Step, w: nat)
    requires Enabled(c, s, step) && Undisturbed([step], w)
    ensures NextReload(c, s, w) + (if step == Acquire(w) then c.LocalTtl() else 0) <= NextReload(c, Apply(c, s, step), w)
  {
    assert step in [step];
  }

  /** Undisturbed, a worker's reloads are a whole lifetime of its copy apart, however many
      callers found the copy expired: whoever waits is served by the one reload under way. */
  lemma {:induction false} ReloadsAreApart(c: Config, s: State, steps: seq<Step>, w: nat)
    requires Runs(c, s, steps) && Undisturbed(steps, w)
    ensures NextReload(c, s, w) + Reloads(steps, w) * c.LocalTtl() <= NextReload(c, After(c, s, steps), w)
    decreases |steps|
  {
    hide Enabled, Apply, NextReload;
    if steps == [] {
    } else {
      assert steps[0] in steps && Undisturbed([steps[0]], w);
      assert forall x :: x in steps[1..] ==> x in steps;
      StepPostponesReload(c, s, steps[0], w);
      ReloadsAreApart(c, Apply(c, s, steps[0]), steps[1..], w);
      var here, rest := if steps[0] == Acquire(w) then 1 else 0, Reloads(steps[1..], w);
      assert (here + rest) * c.LocalTtl() == here * c.LocalTtl() + rest * c.LocalTtl();
    }
  }

  lemma NextReloadIsNear(c: Config, s: State, w: nat)
    requires Sound(c, s)
    ensures s.now <= NextReload(c, s, w) <= s.now + c.LocalTtl()
  {
    if w in s.workers { assert WorkerSound(c, s.log, s.now, s.workers[w]); }
  }

  lemma OneMoreTime(many: nat, few: nat, x: nat)
    requires many > few
    ensures many * x >= few * x + x
  {
    var d := many - few - 1;
    assert d * x >= 0;
    assert many * x == few * x + x + d * x;
  }

  /** Over a stretch of time shorter than n lifetimes a worker sets out to reload at most n
      times. */
  lemma ReloadsBounded(c: Config, s: State, steps: seq<Step>, w: nat, n: nat)
    requires Sound(c, s) && Runs(c, s, steps) && Undisturbed(steps, w)
    requires After(c, s, steps).now - s.now < n * (if c.shared && c.ttl > 2000 then 2000 else c.ttl)
    ensures Reloads(steps, w) <= n
  {
    hide Sound, Runs, After, Undisturbed, NextReload, Reloads;
    ReloadsAreApart(c, s, steps, w);
    RunKeepsSound(c, s, steps);
    NextReloadIsNear(c, s, w);
    NextReloadIsNear(c, After(c, s, steps), w);
    if Reloads(steps, w) > n { OneMoreTime(Reloads(steps, w), n, c.LocalTtl()); }
  }
}
