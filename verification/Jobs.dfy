/** The durable job queue: a table of jobs that workers change by conditional writes.
    Time is in whole seconds. */
module Jobs {
  import opened Values

  datatype Status = QUEUED | RUNNING | DONE | FAILED

  datatype JobRow = JobRow(
    kind: string, key: string, priority: int, maxAttempts: int,
    status: Status, attempts: nat, runAt: int,
    claimedBy: Option<string>, claimedAt: Option<int>, finishedAt: Option<int>, lastError: Option<string>)

  /** A job as a worker read it from the table; the table may have moved on since. */
  datatype Job = Job(id: int, kind: string, attempts: nat, limit: int, claimedBy: string)

  const DEFAULT_MAX_ATTEMPTS := 5
  const RETRY_BASE_DELAY := 30
  const RETRY_MAX_DELAY := 3600

  function LimitOf(row: JobRow): int {
    if row.maxAttempts == 0 then DEFAULT_MAX_ATTEMPTS else row.maxAttempts
  }

  function FromRow(id: int, row: JobRow): Job {
    Job(id, row.kind, row.attempts, LimitOf(row), Or(row.claimedBy, ""))
  }

  /** The job as its claimant holds it. */
  function Taken(job: Job, worker: string): Job {
    job.(attempts := job.attempts + 1, claimedBy := worker)
  }

  function Max(a: int, b: int): int { if a < b then b else a }
  function Least(a: int, b: int): int { if a < b then a else b }

  function AttemptsLeft(job: Job): int {
    Max(0, job.limit - job.attempts)
  }

  function Pow2(n: nat): nat {
    if n == 0 then 1 else 2 * Pow2(n - 1)
  }

  /** How long to wait after an attempt. */
  function Backoff(attempts: nat): int {
    Least(RETRY_BASE_DELAY * Pow2(Max(0, attempts - 1)), RETRY_MAX_DELAY)
  }

  lemma {:induction false} Pow2Grows(a: nat, b: nat)
    requires a <= b
    ensures 1 <= Pow2(a) <= Pow2(b)
  {
    if a < b {
      Pow2Grows(a, b - 1);
    } else if a > 0 {
      Pow2Grows(a - 1, b - 1);
    }
  }

  /** The wait starts at the base, doubles with every attempt until the ceiling, never
      shrinks, and stays at the ceiling. */
  lemma BackoffDoublesToCeiling(attempts: nat)
    ensures Backoff(0) == Backoff(1) == 30
    ensures 30 <= Backoff(attempts) <= Backoff(attempts + 1) <= 3600
    ensures attempts >= 1 ==> Backoff(attempts + 1) == if 2 * Backoff(attempts) <= 3600 then 2 * Backoff(attempts) else 3600
    ensures attempts >= 8 ==> Backoff(attempts) == 3600
  {
    Pow2Grows(0, Max(0, attempts - 1));
    Pow2Grows(Max(0, attempts - 1), attempts);
    assert Pow2(3) == 8;
    assert Pow2(6) == 64;
    assert Pow2(7) == 128;
    if attempts >= 8 { Pow2Grows(7, attempts - 1); }
  }

  // ----- writes -----

  /** A partial write: None leaves a column as it is. */
  datatype Changes = Changes(
    status: Status, attempts: Option<nat>, runAt: Option<int>, claimedBy: Option<Option<string>>,
    claimedAt: Option<Option<int>>, finishedAt: Option<Option<int>>, lastError: Option<Option<string>>)

  function Or<T>(change: Option<T>, existing: T): T {
    if change.Some? then change.value else existing
  }

  function Merged(row: JobRow, c: Changes): JobRow {
    row.(status := c.status, attempts := Or(c.attempts, row.attempts), runAt := Or(c.runAt, row.runAt),
         claimedBy := Or(c.claimedBy, row.claimedBy), claimedAt := Or(c.claimedAt, row.claimedAt),
         finishedAt := Or(c.finishedAt, row.finishedAt), lastError := Or(c.lastError, row.lastError))
  }

  function ClaimChanges(job: Job, worker: string, now: int): Changes {
    Changes(RUNNING, Some(job.attempts + 1), None, Some(Some(worker)), Some(Some(now)), None, None)
  }

  function RequeueChanges(runAt: int, reason: string): Changes {
    Changes(QUEUED, None, Some(runAt), Some(None), Some(None), None, Some(Some(reason)))
  }

  function Abandoned(job: Job): string {
    "worker " + (if job.claimedBy == "" then "unknown" else job.claimedBy) + " stopped without finishing"
  }

  /** What becomes of a job whose worker vanished: nothing is counted, and it is queued again
      only with attempts left. */
  function AbandonmentChanges(job: Job, now: int): (c: Changes)
    ensures c.attempts.None? && c.status != RUNNING && (c.status == QUEUED ==> AttemptsLeft(job) > 0)
  {
    if AttemptsLeft(job) <= 0 then Changes(FAILED, None, None, None, None, Some(Some(now)), Some(Some(Abandoned(job))))
    else RequeueChanges(now + Backoff(job.attempts), Abandoned(job))
  }

  /** How a handler ended. */
  datatype Outcome =
    | Succeeded
    | CancelledByHandler(reason: string)
    | RetryRequested(reason: string, delay: Option<int>)
    | TimedOut
    | ShutDown
    | Raised(detail: string)

  function FinishChanges(status: Status, detail: string, now: int): Changes
    requires status in {DONE, FAILED}
  {
    Changes(status, None, None, None, None, Some(Some(now)), Some(if detail == "" then None else Some(detail)))
  }

  function RescheduleChanges(job: Job, reason: string, delay: Option<int>, now: int): (c: Changes)
    ensures c.attempts.None? && c.status != RUNNING && (c.status == QUEUED ==> AttemptsLeft(job) > 0)
  {
    if AttemptsLeft(job) <= 0 then FinishChanges(FAILED, reason, now)
    else RequeueChanges(now + Or(delay, Backoff(job.attempts)), reason)
  }

  /** What is written when a handler has ended, on the same terms. */
  function OutcomeChanges(job: Job, outcome: Outcome, jobTimeout: nat, now: int): (c: Changes)
    ensures c.attempts.None? && c.status != RUNNING && (c.status == QUEUED ==> AttemptsLeft(job) > 0)
  {
    match outcome
    case Succeeded => FinishChanges(DONE, "", now)
    case CancelledByHandler(reason) => FinishChanges(DONE, "cancelled: " + reason, now)
    case RetryRequested(reason, delay) =>
      RescheduleChanges(job, if reason == "" then "retry requested" else reason, delay, now)
    case TimedOut => RescheduleChanges(job, "timed out after " + Digits(jobTimeout) + "s", None, now)
    case ShutDown => RescheduleChanges(job, "worker shut down mid-job", Some(0), now)
    case Raised(detail) => FinishChanges(FAILED, detail, now)
  }

  predicate WantsRetry(outcome: Outcome) {
    outcome.RetryRequested? || outcome.TimedOut? || outcome.ShutDown?
  }

  /** A row given up by its worker: who held it and what it counts stay as they were and the
      end is stamped, or it is queued for anybody, not before `runAt`. */
  predicate EndedAt(row: JobRow, after: JobRow, now: int) {
    && after.attempts == row.attempts && after.status in {DONE, FAILED} && after.finishedAt == Some(now)
    && after.claimedBy == row.claimedBy && after.claimedAt == row.claimedAt && after.runAt == row.runAt
  }

  ghost predicate QueuedFrom(row: JobRow, after: JobRow, runAt: int) {
    && after.attempts == row.attempts && after.status == QUEUED && after.finishedAt == row.finishedAt
    && after.claimedBy.None? && after.claimedAt.None? && forall t :: Due(after, t) <==> runAt <= t
  }

  /** How a job ends and when it runs again: done when the handler finished or called it off,
      failed when it raised or no attempt is left, and otherwise queued; at once after a
      shutdown, after the delay a handler asked for, and else after the backoff. What went
      wrong is noted. */
  lemma OutcomeMeans(row: JobRow, job: Job, outcome: Outcome, jobTimeout: nat, now: int)
    ensures var after := Merged(row, OutcomeChanges(job, outcome, jobTimeout, now));
      && (after.status == DONE <==> outcome.Succeeded? || outcome.CancelledByHandler?)
      && (after.status == FAILED <==> outcome.Raised? || (WantsRetry(outcome) && job.attempts >= job.limit))
      && (after.status != QUEUED ==> EndedAt(row, after, now))
      && (after.status == QUEUED ==> WantsRetry(outcome) && QueuedFrom(row, after, now + WaitAfter(job, outcome)))
      && (after.lastError.None? <==> outcome.Succeeded? || outcome == Raised(""))
      && (outcome.Raised? && outcome.detail != "" ==> after.lastError == Some(outcome.detail))
      && (outcome.RetryRequested? && outcome.reason != "" ==> after.lastError == Some(outcome.reason))
  {
    hide Backoff, Digits;
  }

  function WaitAfter(job: Job, outcome: Outcome): int
    requires WantsRetry(outcome)
  {
    if outcome.ShutDown? then 0
    else if outcome.RetryRequested? && outcome.delay.Some? then outcome.delay.value
    else Backoff(job.attempts)
  }

  /** An abandoned job is queued again after the backoff while it has attempts left, and failed
      without; either way its last worker is named. */
  lemma AbandonmentMeans(row: JobRow, job: Job, now: int)
    ensures var after := Merged(row, AbandonmentChanges(job, now));
      && (after.status == QUEUED <==> job.attempts < job.limit)
      && (after.status == QUEUED ==> QueuedFrom(row, after, now + Backoff(job.attempts)))
      && (after.status != QUEUED ==> EndedAt(row, after, now) && after.status == FAILED)
      && after.lastError.Some? && (job.claimedBy != "" ==> StartsWith(after.lastError.value, "worker " + job.claimedBy + " "))
  {
    hide Backoff, Abandoned, StartsWith;
    AbandonedNames(job);
  }

  lemma AbandonedNames(job: Job)
    ensures job.claimedBy != "" ==> StartsWith(Abandoned(job), "worker " + job.claimedBy + " ")
  {
    var who, rest := "worker " + job.claimedBy + " ", "stopped without finishing";
    assert job.claimedBy != "" ==> Abandoned(job) == who + rest;
    assert (who + rest)[..|who|] == who;
  }

  function RetryChanges(now: int): Changes {
    Changes(QUEUED, Some(0), Some(now), Some(None), Some(None), Some(None), None)
  }

  /** Whether a row's claim has outlived the lease. */
  predicate Stale(row: JobRow, lease: nat, now: int) {
    row.status == RUNNING && (row.claimedAt.None? || row.claimedAt.value < now - lease)
  }

  /** A manual retry: due at once, held by nobody, not ended, and with every attempt to spend. */
  lemma RetryMeans(row: JobRow, now: int, id: int)
    ensures var after := Merged(row, RetryChanges(now));
      && QueuedFrom(row.(attempts := 0, finishedAt := None), after, now)
      && AttemptsLeft(FromRow(id, after)) == Max(0, if row.maxAttempts == 0 then 5 else row.maxAttempts)
      && after.(attempts := row.attempts, runAt := row.runAt, status := row.status, claimedBy := row.claimedBy,
                claimedAt := row.claimedAt, finishedAt := row.finishedAt) == row
  {
  }

  predicate Due(row: JobRow, now: int) {
    row.status == QUEUED && row.runAt <= now
  }

  // ----- the table -----

  datatype Write = Written | Lost | Missing

  class Table {
    var rows: map<int, JobRow>

    constructor ()
      ensures rows == map[]
    {
      rows := map[];
    }

    /** Compare and set on the status column. */
    method UpdateIf(id: int, changes: Changes, wanted: Status) returns (w: Write)
      modifies this
      ensures w == if id !in old(rows) then Missing else if old(rows)[id].status != wanted then Lost else Written
      ensures rows == if w.Written? then old(rows)[id := Merged(old(rows)[id], changes)] else old(rows)
    {
      if id !in rows {
        return Missing;
      }
      if rows[id].status != wanted {
        return Lost;
      }
      rows := rows[id := Merged(rows[id], changes)];
      return Written;
    }

    method Update(id: int, changes: Changes) returns (w: Write)
      modifies this
      ensures w == if id !in old(rows) then Missing else Written
      ensures rows == if w.Written? then old(rows)[id := Merged(old(rows)[id], changes)] else old(rows)
    {
      if id !in rows {
        return Missing;
      }
      rows := rows[id := Merged(rows[id], changes)];
      return Written;
    }
  }

  // ----- what a sweep over some jobs did -----

  /** How a sweep changes a job it wins. */
  function Claiming(worker: string, now: int): Job -> Changes {
    (job: Job) => ClaimChanges(job, worker, now)
  }

  function Abandoning(now: int): Job -> Changes {
    (job: Job) => AbandonmentChanges(job, now)
  }

  /** Some positions of a page, in order, each for a different job. */
  ghost predicate Positions(page: seq<Job>, at: seq<nat>) {
    && (forall k :: 0 <= k < |at| ==> at[k] < |page|)
    && (forall j, k :: 0 <= j < k < |at| ==> at[j] < at[k] && page[at[j]].id != page[at[k]].id)
  }

  ghost predicate Touched(page: seq<Job>, at: seq<nat>, id: int) {
    exists k :: 0 <= k < |at| && at[k] < |page| && page[at[k]].id == id
  }

  ghost predicate WonOne(before: map<int, JobRow>, after: map<int, JobRow>, job: Job, was: Status, change: Job -> Changes) {
    && job.id in before && job.id in after && before[job.id].status == was
    && after[job.id] == Merged(before[job.id], change(job))
  }

  /** Exactly the jobs at these positions were in the given state and were changed; every
      other row is as it was. */
  ghost predicate Swept(before: map<int, JobRow>, after: map<int, JobRow>, page: seq<Job>, at: seq<nat>,
                        was: Status, change: Job -> Changes) {
    && Positions(page, at)
    && after.Keys == before.Keys
    && (forall k :: 0 <= k < |at| ==> WonOne(before, after, page[at[k]], was, change))
    && (forall id :: id in before && !Touched(page, at, id) ==> after[id] == before[id])
  }

  lemma NothingSwept(rows: map<int, JobRow>, page: seq<Job>, was: Status, change: Job -> Changes)
    ensures Swept(rows, rows, page, [], was, change)
  {
  }

  lemma SweepOneMore(before: map<int, JobRow>, now: map<int, JobRow>, after: map<int, JobRow>, page: seq<Job>,
                     at: seq<nat>, i: nat, was: Status, change: Job -> Changes)
    requires Swept(before, now, page, at, was, change) && i < |page|
    requires forall k :: 0 <= k < |at| ==> at[k] < i
    requires page[i].id in now && now[page[i].id].status == was
    requires after == now[page[i].id := Merged(now[page[i].id], change(page[i]))]
    requires forall job :: change(job).status != was
    ensures Swept(before, after, page, at + [i], was, change)
  {
    var id := page[i].id;
    var longer := at + [i];
    forall k | 0 <= k < |at| ensures page[at[k]].id != id {
      assert WonOne(before, now, page[at[k]], was, change);
    }
    forall k | 0 <= k < |longer| ensures WonOne(before, after, page[longer[k]], was, change) {
      if k < |at| {
        assert WonOne(before, now, page[at[k]], was, change);
      }
    }
    assert page[longer[|at|]].id == id;
    forall other | Touched(page, at, other) ensures Touched(page, longer, other) {
      var k :| 0 <= k < |at| && page[at[k]].id == other;
      assert page[longer[k]].id == other;
    }
  }

  // ----- reading the table -----

  /** The order claims are read in: the higher priority first, then the earlier run time. */
  predicate Ahead(a: JobRow, b: JobRow) {
    a.priority > b.priority || (a.priority == b.priority && a.runAt < b.runAt)
  }

  /** A page of the rows of a set: as many as fit, each once, none behind one left out. */
  ghost predicate PageOf(rows: map<int, JobRow>, ids: set<int>, page: seq<Job>, size: nat) {
    && |page| == (if |ids| < size then |ids| else size)
    && (forall k :: 0 <= k < |page| ==> page[k].id in ids && page[k].id in rows && page[k] == FromRow(page[k].id, rows[page[k].id]))
    && (forall j, k :: 0 <= j < k < |page| ==> page[j].id != page[k].id)
    && (|ids| <= size ==> forall id :: id in ids ==> OnPage(page, id))
  }

  predicate OnPage(page: seq<Job>, id: int) {
    exists k :: 0 <= k < |page| && page[k].id == id
  }

  ghost predicate PageInOrder(rows: map<int, JobRow>, ids: set<int>, page: seq<Job>) {
    && (forall k :: 0 <= k < |page| ==> page[k].id in rows)
    && (forall j, k :: 0 <= j < k < |page| ==> !Ahead(rows[page[k].id], rows[page[j].id]))
    && (forall id, k :: id in ids && id in rows && !OnPage(page, id) && 0 <= k < |page| ==> !Ahead(rows[id], rows[page[k].id]))
  }

  lemma NotEmpty(ids: set<int>)
    requires ids != {}
    ensures exists id :: id in ids
  {
    assert (forall id :: id !in ids) ==> ids == {};
  }

  /** One of a set that none other is ahead of. */
  method First(rows: map<int, JobRow>, ids: set<int>) returns (first: int)
    requires ids != {} && ids <= rows.Keys
    ensures first in ids && forall id :: id in ids ==> !Ahead(rows[id], rows[first])
  {
    NotEmpty(ids);
    first :| first in ids;
    var rest := ids - {first};
    while rest != {}
      invariant rest <= ids && first in ids
      invariant forall id :: id in ids - rest ==> !Ahead(rows[id], rows[first])
      decreases |rest|
    {
      NotEmpty(rest);
      var id :| id in rest;
      rest := rest - {id};
      if Ahead(rows[id], rows[first]) {
        first := id;
      }
    }
  }

  /** The first of a set, in order, up to a page. */
  method ListInOrder(rows: map<int, JobRow>, ids: set<int>, size: nat) returns (page: seq<Job>)
    requires ids <= rows.Keys
    ensures PageOf(rows, ids, page, size) && PageInOrder(rows, ids, page)
    ensures forall j, k :: 0 <= j < k < |page| ==>
              var a, b := rows[page[j].id], rows[page[k].id];
              a.priority >= b.priority && (a.priority == b.priority ==> a.runAt <= b.runAt)
  {
    page := [];
    var rest := ids;
    while rest != {} && |page| < size
      invariant rest <= ids && |page| + |rest| == |ids| && |page| <= size
      invariant forall id :: id in ids ==> (id in rest <==> !OnPage(page, id))
      invariant forall k :: 0 <= k < |page| ==> page[k].id in ids && page[k] == FromRow(page[k].id, rows[page[k].id])
      invariant forall j, k :: 0 <= j < k < |page| ==> page[j].id != page[k].id
      invariant PageInOrder(rows, ids, page)
      decreases |rest|
    {
      var id := First(rows, rest);
      ghost var before := page;
      page := page + [FromRow(id, rows[id])];
      rest := rest - {id};
      PageLonger(rows, ids, before, id);
    }
  }

  lemma PageLonger(rows: map<int, JobRow>, ids: set<int>, page: seq<Job>, id: int)
    requires ids <= rows.Keys && PageInOrder(rows, ids, page) && id in ids && !OnPage(page, id)
    requires forall other :: other in ids && !OnPage(page, other) ==> !Ahead(rows[other], rows[id])
    ensures PageInOrder(rows, ids, page + [FromRow(id, rows[id])])
    ensures forall other :: OnPage(page + [FromRow(id, rows[id])], other) <==> OnPage(page, other) || other == id
  {
    var longer := page + [FromRow(id, rows[id])];
    assert longer[|page|].id == id;
    forall other ensures OnPage(longer, other) <==> OnPage(page, other) || other == id {
      if OnPage(page, other) {
        var k :| 0 <= k < |page| && page[k].id == other;
        assert longer[k].id == other;
      }
    }
  }

  // ----- what a claim won -----

  predicate NoLongerQueued(rows: map<int, JobRow>, id: int) {
    id in rows && rows[id].status != QUEUED
  }

  /** Exactly these jobs, of kinds handled, were queued and are this worker's now. */
  ghost predicate Won(before: map<int, JobRow>, after: map<int, JobRow>, page: seq<Job>, won: seq<Job>, at: seq<nat>,
                      worker: string, handled: set<string>, now: int) {
    && Swept(before, after, page, at, QUEUED, Claiming(worker, now))
    && |won| == |at|
    && forall k :: 0 <= k < |at| ==> page[at[k]].kind in handled && won[k] == Taken(page[at[k]], worker)
  }

  lemma NothingWon(rows: map<int, JobRow>, page: seq<Job>, worker: string, handled: set<string>, now: int)
    ensures Won(rows, rows, page, [], [], worker, handled, now)
  {
  }

  lemma WonOneMore(before: map<int, JobRow>, mid: map<int, JobRow>, after: map<int, JobRow>, page: seq<Job>,
                   won: seq<Job>, at: seq<nat>, i: nat, worker: string, handled: set<string>, now: int)
    requires Won(before, mid, page, won, at, worker, handled, now) && i < |page| && page[i].kind in handled
    requires forall k :: 0 <= k < |at| ==> at[k] < i
    requires page[i].id in mid && mid[page[i].id].status == QUEUED
    requires after == mid[page[i].id := Merged(mid[page[i].id], ClaimChanges(page[i], worker, now))]
    ensures Won(before, after, page, won + [Taken(page[i], worker)], at + [i], worker, handled, now)
    ensures after.Keys == before.Keys
  {
    SweepOneMore(before, mid, after, page, at, i, QUEUED, Claiming(worker, now));
  }

  function DueIds(rows: map<int, JobRow>, now: int): set<int> {
    set id | id in rows && Due(rows[id], now)
  }

  lemma DueIdsAre(rows: map<int, JobRow>, now: int)
    ensures DueIds(rows, now) == (set id | id in rows && rows[id].status == QUEUED && rows[id].runAt <= now)
  {
    forall id ensures id in DueIds(rows, now) <==> id in rows && rows[id].status == QUEUED && rows[id].runAt <= now {
    }
  }

  function StaleIds(rows: map<int, JobRow>, lease: nat, now: int): set<int> {
    set id | id in rows && Stale(rows[id], lease, now)
  }

  /** Twice the limit is read, for some will be lost to other workers. */
  function ClaimPage(limit: nat): nat { Max(2 * limit, limit + 4) }

  const STALE_PAGE := 200

  lemma WonIsRunning(before: map<int, JobRow>, after: map<int, JobRow>, page: seq<Job>, won: seq<Job>, at: seq<nat>,
                     worker: string, handled: set<string>, now: int, id: int)
    requires Won(before, after, page, won, at, worker, handled, now) && id in after
    ensures after[id] == before[id] || after[id].status == RUNNING
  {
    if Touched(page, at, id) {
      var j :| 0 <= j < |at| && page[at[j]].id == id;
      assert WonOne(before, after, page[at[j]], QUEUED, Claiming(worker, now));
    }
  }

  /** A due, handled job that is left is not ahead of one that was won. */
  lemma LeftIsNotAhead(before: map<int, JobRow>, after: map<int, JobRow>, page: seq<Job>, won: seq<Job>, at: seq<nat>,
                       worker: string, handled: set<string>, now: int, id: int, k: nat)
    requires Won(before, after, page, won, at, worker, handled, now) && k < |at| && id in after
    requires PageInOrder(before, DueIds(before, now), page)
    requires forall i :: 0 <= i < |page| ==> page[i].id in before && page[i].kind == before[page[i].id].kind
    requires forall i :: 0 <= i < |page| && i < at[k] && page[i].kind in handled ==> NoLongerQueued(after, page[i].id)
    requires Due(after[id], now) && after[id].kind in handled
    ensures after[id] == before[id] && !Ahead(before[id], before[page[at[k]].id])
  {
    WonIsRunning(before, after, page, won, at, worker, handled, now, id);
    assert after[id] == before[id];
    if OnPage(page, id) {
      var i :| 0 <= i < |page| && page[i].id == id;
    }
  }

  lemma RecoveredRow(before: map<int, JobRow>, after: map<int, JobRow>, page: seq<Job>, at: seq<nat>, lease: nat, now: int, id: int)
    requires Swept(before, after, page, at, RUNNING, Abandoning(now)) && id in after
    requires PageOf(before, StaleIds(before, lease, now), page, STALE_PAGE)
    requires forall i :: 0 <= i < |page| ==> page[i].id in after && after[page[i].id].status != RUNNING
    ensures after[id] != before[id] ==> Stale(before[id], lease, now)
    ensures |StaleIds(before, lease, now)| <= STALE_PAGE ==> !Stale(after[id], lease, now)
  {
    if Touched(page, at, id) {
      var k :| 0 <= k < |at| && page[at[k]].id == id;
      assert page[at[k]].id in StaleIds(before, lease, now);
    }
    if Stale(before[id], lease, now) && |StaleIds(before, lease, now)| <= STALE_PAGE {
      assert id in StaleIds(before, lease, now) && OnPage(page, id);
    }
  }

  // ----- one worker process -----

  /** A row that stands in the way of a second job with its key. */
  predicate LiveKey(row: JobRow, key: string) {
    row.key == key && row.status in {QUEUED, RUNNING}
  }

  /** No two live jobs share an idempotency key. */
  ghost predicate KeysUnique(rows: map<int, JobRow>) {
    forall a, b :: a in rows && b in rows && a != b && rows[a].key != "" && LiveKey(rows[a], rows[a].key) ==>
      !LiveKey(rows[b], rows[a].key)
  }

  class Queue {
    const table: Table
    const name: string
    const lease: nat
    const jobTimeout: nat
    const handled: set<string>

    constructor (table: Table, name: string, lease: nat, jobTimeout: nat, handled: set<string>)
      ensures this.table == table && this.name == name && this.lease == lease
      ensures this.jobTimeout == jobTimeout && this.handled == handled
    {
      this.table, this.name, this.lease, this.jobTimeout, this.handled := table, name, lease, jobTimeout, handled;
    }

    /** Accepts a job, unless one with the same key is queued or running. `newId` is the key
        the table would give a new row. */
    method Enqueue(kind: string, key: string, delay: int, maxAttempts: int, priority: int, newId: int, now: int)
      returns (id: int)
      requires newId !in table.rows
      modifies table
      ensures KeysUnique(old(table.rows)) ==> KeysUnique(table.rows)
      ensures id in old(table.rows) ==> table.rows == old(table.rows) && key != "" && LiveKey(table.rows[id], key)
      ensures id !in old(table.rows) ==>
                table.rows == old(table.rows)[id := JobRow(kind, key, priority, maxAttempts, QUEUED, 0, now + delay,
                                                           None, None, None, None)]
      ensures id in old(table.rows) <==>
                key != "" && exists live :: live in old(table.rows) && old(table.rows)[live].key == key
                                            && old(table.rows)[live].status in {QUEUED, RUNNING}
    {
      if key != "" && exists live :: live in table.rows && LiveKey(table.rows[live], key) {
        id :| id in table.rows && LiveKey(table.rows[id], key);
        return;
      }
      id := newId;
      table.rows := table.rows[id := JobRow(kind, key, priority, maxAttempts, QUEUED, 0, now + delay,
                                            None, None, None, None)];
    }

    /** Stamps this worker's name on one job; a job no longer queued is somebody else's. */
    method Take(job: Job, now: int) returns (w: Write)
      modifies table
      ensures w == if job.id !in old(table.rows) then Missing
                   else if old(table.rows)[job.id].status == QUEUED then Written else Lost
      ensures table.rows == if w.Written?
                            then old(table.rows)[job.id := Merged(old(table.rows)[job.id], ClaimChanges(job, name, now))]
                            else old(table.rows)
    {
      w := table.UpdateIf(job.id, ClaimChanges(job, name, now), QUEUED);
    }

    /** Takes up to `limit` of the jobs it read, in the order it read them: a job that is no
        longer queued is skipped, and one nothing here handles is left. A vanished row raises,
        and what was won before stays claimed. */
    method Claim(page: seq<Job>, limit: nat, now: int) returns (won: seq<Job>, raised: bool, ghost at: seq<nat>)
      modifies table
      ensures |won| <= limit && Won(old(table.rows), table.rows, page, won, at, name, handled, now)
      ensures forall i, k :: 0 <= i < |page| && 0 <= k < |at| && i < at[k] && page[i].kind in handled ==>
                NoLongerQueued(table.rows, page[i].id)
      ensures !raised && |won| < limit ==> forall i :: 0 <= i < |page| && page[i].kind in handled ==>
                NoLongerQueued(table.rows, page[i].id)
      ensures raised ==> exists i :: 0 <= i < |page| && page[i].id !in old(table.rows)
    {
      hide Won;
      won, raised, at := [], false, [];
      NothingWon(table.rows, page, name, handled, now);
      for i := 0 to |page|
        invariant |won| <= limit && Won(old(table.rows), table.rows, page, won, at, name, handled, now)
        invariant forall k :: 0 <= k < |at| ==> at[k] < i
        invariant table.rows.Keys == old(table.rows).Keys
        invariant forall k :: 0 <= k < i && page[k].kind in handled ==> NoLongerQueued(table.rows, page[k].id)
      {
        if |won| >= limit {
          break;
        }
        if page[i].kind !in handled {
          continue;
        }
        ghost var before := table.rows;
        var w := Take(page[i], now);
        if w.Missing? {
          raised := true;
          return;
        }
        if w.Written? {
          WonOneMore(old(table.rows), before, table.rows, page, won, at, i, name, handled, now);
          won := won + [Taken(page[i], name)];
          at := at + [i];
        }
      }
    }

    /** Reads the due jobs and takes from them, with nobody else in between: up to the limit,
        only due jobs of kinds handled here, and none while a more urgent one, or one as urgent
        that was due earlier, is left. It takes fewer than it may only when the page it read,
        in that order and of twice the limit, is exhausted. */
    method ClaimDue(limit: nat, now: int) returns (won: seq<Job>, ghost page: seq<Job>, ghost at: seq<nat>)
      modifies table
      ensures |won| <= limit && Won(old(table.rows), table.rows, page, won, at, name, handled, now)
      ensures PageOf(old(table.rows),
                     (set id | id in old(table.rows) && old(table.rows)[id].status == QUEUED && old(table.rows)[id].runAt <= now),
                     page, if limit < 4 then limit + 4 else 2 * limit)
      ensures forall j, k :: 0 <= j < k < |page| ==>
                var a, b := old(table.rows)[page[j].id], old(table.rows)[page[k].id];
                a.priority >= b.priority && (a.priority == b.priority ==> a.runAt <= b.runAt)
      ensures forall k :: 0 <= k < |at| ==>
                var taken := old(table.rows)[page[at[k]].id];
                taken.status == QUEUED && taken.runAt <= now && taken.kind in handled
      ensures forall id, k :: id in table.rows && 0 <= k < |at| ==>
                var left, taken := table.rows[id], old(table.rows)[page[at[k]].id];
                left.status == QUEUED && left.runAt <= now && left.kind in handled ==>
                  left.priority <= taken.priority && (left.priority == taken.priority ==> taken.runAt <= left.runAt)
      ensures |won| < limit ==> forall i :: 0 <= i < |page| && page[i].kind in handled ==> NoLongerQueued(table.rows, page[i].id)
    {
      ghost var before := table.rows;
      var listed := ListInOrder(table.rows, DueIds(table.rows, now), ClaimPage(limit));
      page := listed;
      var raised;
      won, raised, at := Claim(listed, limit, now);
      forall id, k | id in table.rows && 0 <= k < |at|
        ensures var left, taken := table.rows[id], before[page[at[k]].id];
                left.status == QUEUED && left.runAt <= now && left.kind in handled ==>
                  left.priority <= taken.priority && (left.priority == taken.priority ==> taken.runAt <= left.runAt)
      {
        if Due(table.rows[id], now) && table.rows[id].kind in handled {
          LeftIsNotAhead(before, table.rows, page, won, at, name, handled, now, id, k);
        }
      }
      DueIdsAre(before, now);
    }

    /** Gives up the jobs it read as stale: a row still running is requeued or parked,
        whoever runs it by now. */
    method ReleaseStale(page: seq<Job>, now: int) returns (released: nat, raised: bool, ghost at: seq<nat>)
      modifies table
      ensures released == |at|
      ensures Swept(old(table.rows), table.rows, page, at, RUNNING, Abandoning(now))
      ensures !raised ==> forall i :: 0 <= i < |page| ==>
                page[i].id in table.rows && table.rows[page[i].id].status != RUNNING
      ensures raised ==> exists i :: 0 <= i < |page| && page[i].id !in old(table.rows)
    {
      hide Swept;
      released, raised, at := 0, false, [];
      NothingSwept(table.rows, page, RUNNING, Abandoning(now));
      for i := 0 to |page|
        invariant released == |at| && table.rows.Keys == old(table.rows).Keys
        invariant Swept(old(table.rows), table.rows, page, at, RUNNING, Abandoning(now))
        invariant forall k :: 0 <= k < |at| ==> at[k] < i
        invariant forall k :: 0 <= k < i ==> page[k].id in table.rows && table.rows[page[k].id].status != RUNNING
      {
        ghost var before := table.rows;
        var w := table.UpdateIf(page[i].id, AbandonmentChanges(page[i], now), RUNNING);
        if w.Missing? {
          raised := true;
          return;
        }
        if w.Written? {
          SweepOneMore(old(table.rows), before, table.rows, page, at, i, RUNNING, Abandoning(now));
          released := released + 1;
          at := at + [i];
        }
      }
    }

    /** Reads up to a page of stale jobs and gives them up, with nobody else in between: only
        stale ones, and when they fit on the page, all of them. */
    method Recover(now: int) returns (released: nat, ghost page: seq<Job>, ghost at: seq<nat>)
      modifies table
      ensures PageOf(old(table.rows), StaleIds(old(table.rows), lease, now), page, 200)
      ensures released == |at| && Swept(old(table.rows), table.rows, page, at, RUNNING, Abandoning(now))
      ensures forall id :: id in table.rows && table.rows[id] != old(table.rows)[id] ==>
                var was := old(table.rows)[id];
                was.status == RUNNING && (was.claimedAt.Some? ==> was.claimedAt.value + lease < now)
      ensures |StaleIds(old(table.rows), lease, now)| <= 200 ==>
                forall id :: id in table.rows && table.rows[id].status == RUNNING ==>
                  table.rows[id].claimedAt.Some? && now <= table.rows[id].claimedAt.value + lease
    {
      ghost var before := table.rows;
      var listed := ListInOrder(table.rows, StaleIds(table.rows, lease, now), STALE_PAGE);
      page := listed;
      var raised;
      released, raised, at := ReleaseStale(listed, now);
      forall id | id in table.rows
        ensures table.rows[id] != before[id] ==> Stale(before[id], lease, now)
        ensures |StaleIds(before, lease, now)| <= STALE_PAGE ==> !Stale(table.rows[id], lease, now)
      {
        RecoveredRow(before, table.rows, page, at, lease, now, id);
      }
    }

    /** Writes down how a handler ended; a write that cannot be made is only logged. */
    method Record(job: Job, outcome: Outcome, now: int)
      modifies table
      ensures table.rows == if job.id in old(table.rows)
                            then old(table.rows)[job.id := Merged(old(table.rows)[job.id],
                                                                  OutcomeChanges(job, outcome, jobTimeout, now))]
                            else old(table.rows)
    {
      var _ := table.Update(job.id, OutcomeChanges(job, outcome, jobTimeout, now));
    }

    /** Puts a job back on the queue with its attempts reset. */
    method Retry(id: int, now: int) returns (w: Write)
      modifies table
      ensures w == if id in old(table.rows) then Written else Missing
      ensures table.rows == if w.Written? then old(table.rows)[id := Merged(old(table.rows)[id], RetryChanges(now))]
                            else old(table.rows)
    {
      w := table.Update(id, RetryChanges(now));
    }
  }

  /** Claims and releases only ever change live rows, so live keys stay unique. */
  lemma SweepKeepsKeysUnique(before: map<int, JobRow>, after: map<int, JobRow>, page: seq<Job>, at: seq<nat>,
                             was: Status, change: Job -> Changes)
    requires KeysUnique(before) && Swept(before, after, page, at, was, change) && was in {QUEUED, RUNNING}
    ensures KeysUnique(after)
  {
    forall id | id in before ensures after[id].key == before[id].key
    ensures LiveKey(after[id], after[id].key) ==> LiveKey(before[id], before[id].key) {
      if Touched(page, at, id) {
        var k :| 0 <= k < |at| && page[at[k]].id == id;
        assert WonOne(before, after, page[at[k]], was, change);
      }
    }
  }

  /** A manual retry keeps live keys unique exactly when no other live job has the key. */
  lemma RetryKeepsKeysIff(rows: map<int, JobRow>, id: int, now: int)
    requires KeysUnique(rows) && id in rows
    ensures KeysUnique(rows[id := Merged(rows[id], RetryChanges(now))]) <==>
      rows[id].key == "" || !exists other :: other in rows && other != id && LiveKey(rows[other], rows[id].key)
  {
    var after := rows[id := Merged(rows[id], RetryChanges(now))];
    assert LiveKey(after[id], rows[id].key);
    if rows[id].key != "" && exists other :: other in rows && other != id && LiveKey(rows[other], rows[id].key) {
      var other :| other in rows && other != id && LiveKey(rows[other], rows[id].key);
      assert after[other] == rows[other];
    }
  }
}
