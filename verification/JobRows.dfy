/**
 The `analysis_jobs` table as a value, and the atomic statements that change it.

 Every SQL statement of the queue that commits is one `RowStep`; an interleaving of any number of
 workers is a sequence of row steps.  A statement whose WHERE clause matches no row has no effect,
 so every sequence of steps is a run and "for all runs" means "for all interleavings".
*/
module JobRows {
  import opened Options

  type JobId = string
  type WorkerId = string
  type Table = map<JobId, Job>

  datatype Status = Pending | Running | Completed | Failed

  datatype Job = Job(
    documentId: string,
    status: Status,
    attemptCount: int,
    maxAttempts: int,
    availableAt: real,
    startedAt: Option<real>,
    heartbeatAt: Option<real>,
    leaseExpiresAt: Option<real>,
    finishedAt: Option<real>,
    workerId: Option<WorkerId>,
    lastErrorCode: Option<string>,
    lastErrorMessage: Option<string>,
    fingerprint: string,
    activeDedupeKey: Option<string>,
    createdAt: real)
  {
    predicate Terminal() { status.Completed? || status.Failed? }

    /** The jobs a duplicate request is answered with. */
    predicate Active() { status.Pending? || status.Running? }

    predicate OwnedBy(worker: WorkerId) { status.Running? && workerId == Some(worker) }

    predicate Claimable(now: real) {
      status.Pending? && availableAt <= now && attemptCount < maxAttempts
    }

    predicate Stale(now: real) {
      status.Running? && leaseExpiresAt.Some? && leaseExpiresAt.value < now
    }

    predicate Exhausted() { attemptCount >= maxAttempts }
  }

  /** What a failing pipeline raises: a classified provider error, or anything else. */
  datatype AnalysisError = ProviderError(reasonCode: string, retryable: bool) | OtherError
  {
    predicate Retryable() { ProviderError? && retryable }
    function SafeCode(): string {
      if ProviderError? then reasonCode else "analysis_execution_failed"
    }
  }

  const SAFE_RETRY_MESSAGE := "Analysis is temporarily unavailable and will be retried."
  const SAFE_FAILED_MESSAGE := "Analysis could not be completed."
  const INITIAL_MAX_ATTEMPTS := 3

  // ---------- retry backoff ----------

  function BaseDelay(attemptCount: int): real {
    if attemptCount <= 1 then 5.0 else if attemptCount == 2 then 30.0 else 120.0
  }

  function JitterCeiling(attemptCount: int): real {
    var tenth := BaseDelay(attemptCount) * 0.2;
    if tenth < 5.0 then tenth else 5.0
  }

  /** `draw` is the value the jitter source returned for the range [0, JitterCeiling]. */
  function RetryDelay(attemptCount: int, draw: real): real {
    var d := BaseDelay(attemptCount) + draw;
    if d < 120.0 then d else 120.0
  }

  /** A retry never comes sooner than its rung of the ladder, never later than two minutes, and a later
      attempt never waits less than an earlier one, whatever the jitter source drew. */
  lemma RetryLadder(a: int, b: int, drawA: real, drawB: real)
    requires 0.0 <= drawA <= JitterCeiling(a) && 0.0 <= drawB <= JitterCeiling(b)
    ensures 5.0 <= BaseDelay(a) <= RetryDelay(a, drawA) <= 120.0
    ensures a < b && 1 <= a < 3 ==> RetryDelay(a, drawA) < RetryDelay(b, drawB)
    ensures a >= 3 ==> RetryDelay(a, drawA) == 120.0
  {
    assert JitterCeiling(a) <= 5.0 && (a <= 1 ==> JitterCeiling(a) == 1.0);
    assert JitterCeiling(b) <= 5.0;
  }

  /** What the jitter source is asked for, and the wait it leads to, in seconds. */
  predicate DrawFits(attempt: int, draw: real) { 0.0 <= draw <= if attempt <= 1 then 1.0 else 5.0 }

  predicate WaitFits(attempt: int, wait: real) {
    if attempt <= 1 then 5.0 <= wait <= 6.0
    else if attempt == 2 then 30.0 <= wait <= 35.0
    else wait == 120.0
  }

  // ---------- the row each statement writes ----------

  function NewRow(documentId: string, fingerprint: string, now: real): Job {
    Job(documentId, Pending, 0, INITIAL_MAX_ATTEMPTS, now, None, None, None, None, None, None, None,
        fingerprint, Some(fingerprint), now)
  }

  function ClaimRow(j: Job, worker: WorkerId, lease: real, limit: Option<int>, now: real): Job {
    j.(status := Running,
       workerId := Some(worker),
       attemptCount := j.attemptCount + 1,
       maxAttempts := if limit.Some? then limit.value else j.maxAttempts,
       startedAt := if j.startedAt.Some? then j.startedAt else Some(now),
       heartbeatAt := Some(now),
       leaseExpiresAt := Some(now + lease),
       lastErrorCode := None,
       lastErrorMessage := None)
  }

  function RenewRow(j: Job, lease: real, now: real): Job {
    j.(heartbeatAt := Some(now), leaseExpiresAt := Some(now + lease))
  }

  function ReleaseRow(j: Job): Job {
    j.(workerId := None, heartbeatAt := None, leaseExpiresAt := None)
  }

  /** `exhausted` is what the sweep computed from the row it read before the update. */
  function RecoverRow(j: Job, exhausted: bool, now: real): Job {
    if exhausted then
      ReleaseRow(j).(status := Failed, finishedAt := Some(now), activeDedupeKey := None,
                     lastErrorCode := Some("max_attempts_exceeded"),
                     lastErrorMessage := Some(SAFE_FAILED_MESSAGE))
    else
      ReleaseRow(j).(status := Pending, availableAt := now,
                     lastErrorCode := Some("worker_lease_expired"),
                     lastErrorMessage := Some(SAFE_RETRY_MESSAGE))
  }

  function CompleteRow(j: Job, now: real): Job {
    ReleaseRow(j).(status := Completed, finishedAt := Some(now), activeDedupeKey := None,
                   lastErrorCode := None, lastErrorMessage := None)
  }

  function FailRow(j: Job, error: AnalysisError, draw: real, now: real): Job {
    if error.Retryable() && !j.Exhausted() then
      ReleaseRow(j).(status := Pending,
                     availableAt := now + RetryDelay(j.attemptCount, draw),
                     lastErrorCode := Some(error.SafeCode()),
                     lastErrorMessage := Some(SAFE_RETRY_MESSAGE))
    else
      ReleaseRow(j).(status := Failed, finishedAt := Some(now), activeDedupeKey := None,
                     lastErrorCode := Some(if error.Retryable() then "max_attempts_exceeded" else error.SafeCode()),
                     lastErrorMessage := Some(SAFE_FAILED_MESSAGE))
  }

  // ---------- atomic statements ----------

  datatype RowStep =
    | Insert(id: JobId, documentId: string, fingerprint: string, now: real)
    | Claim(id: JobId, worker: WorkerId, lease: real, limit: Option<int>, now: real)
    | Renew(id: JobId, worker: WorkerId, lease: real, now: real)
    | Recover(id: JobId, now: real)
    | Complete(id: JobId, now: real)   // the success write is keyed by id alone
    | Fail(id: JobId, worker: WorkerId, error: AnalysisError, draw: real, now: real)

  /** The unique constraint on the nullable column `active_dedupe_key`. */
  predicate KeyTaken(rows: Table, key: string) {
    exists id :: id in rows && rows[id].activeDedupeKey == Some(key)
  }

  /** Whether the statement's WHERE clause (or, for an insert, the constraints) lets it take effect. */
  predicate Hits(rows: Table, step: RowStep) {
    match step
    case Insert(id, _, key, _) => id !in rows && !KeyTaken(rows, key)
    case Claim(id, _, _, _, now) => id in rows && rows[id].Claimable(now)
    case Renew(id, worker, _, _) => id in rows && rows[id].OwnedBy(worker)
    case Recover(id, now) => id in rows && rows[id].Stale(now)
    case Complete(id, _) => id in rows
    case Fail(id, worker, _, _, _) => id in rows && rows[id].OwnedBy(worker)
  }

  function ApplyRow(rows: Table, step: RowStep): Table {
    if !Hits(rows, step) then rows else
    rows[step.id :=
      match step
      case Insert(_, documentId, fingerprint, now) => NewRow(documentId, fingerprint, now)
      case Claim(id, worker, lease, limit, now) => ClaimRow(rows[id], worker, lease, limit, now)
      case Renew(id, _, lease, now) => RenewRow(rows[id], lease, now)
      case Recover(id, now) => RecoverRow(rows[id], rows[id].Exhausted(), now)
      case Complete(id, now) => CompleteRow(rows[id], now)
      case Fail(id, _, error, draw, now) => FailRow(rows[id], error, draw, now)]
  }

  function RunRows(rows: Table, run: seq<RowStep>): Table
    decreases |run|
  {
    if run == [] then rows else RunRows(ApplyRow(rows, run[0]), run[1..])
  }

  lemma {:induction false} RunConcat(rows: Table, a: seq<RowStep>, b: seq<RowStep>)
    ensures RunRows(rows, a + b) == RunRows(RunRows(rows, a), b)
    decreases |a|
  {
    if a == [] {
      assert a + b == b;
    } else {
      assert (a + b)[1..] == a[1..] + b;
      RunConcat(ApplyRow(rows, a[0]), a[1..], b);
    }
  }

  lemma {:induction false} UntouchedRow(rows: Table, run: seq<RowStep>, id: JobId)
    requires forall k :: 0 <= k < |run| ==> run[k].id != id
    ensures id in RunRows(rows, run) <==> id in rows
    ensures id in rows ==> RunRows(rows, run)[id] == rows[id]
    decreases |run|
  {
    if run != [] { UntouchedRow(ApplyRow(rows, run[0]), run[1..], id); }
  }

  lemma {:induction false} RowsPersist(rows: Table, run: seq<RowStep>, id: JobId)
    requires id in rows
    ensures id in RunRows(rows, run)
    ensures RunRows(rows, run)[id].documentId == rows[id].documentId
    ensures RunRows(rows, run)[id].fingerprint == rows[id].fingerprint
    decreases |run|
  {
    if run != [] { RowsPersist(ApplyRow(rows, run[0]), run[1..], id); }
  }

  // ---------- the row invariant ----------

  /** What each status says about the nullable columns; a pending row is always claimable in time. */
  predicate RowOk(j: Job) {
    && (j.status.Running? <==> j.workerId.Some?)
    && (j.status.Running? <==> j.heartbeatAt.Some?)
    && (j.status.Running? <==> j.leaseExpiresAt.Some?)
    && (j.Terminal() <==> j.finishedAt.Some?)
    && (j.status.Pending? ==> j.attemptCount < j.maxAttempts)
    && (j.Active() ==> j.activeDedupeKey == Some(j.fingerprint))
    && (j.Terminal() ==> j.activeDedupeKey == None)
    && 0 <= j.attemptCount
    && (j.startedAt.Some? <==> j.attemptCount >= 1)
    && (j.status.Running? ==> j.attemptCount >= 1)
  }

  predicate KeysUnique(rows: Table) {
    forall a, b | a in rows && b in rows && rows[a].activeDedupeKey.Some? && a != b ::
      rows[a].activeDedupeKey != rows[b].activeDedupeKey
  }

  predicate TableInv(rows: Table) {
    (forall id :: id in rows ==> RowOk(rows[id])) && KeysUnique(rows)
  }

  /** The row a statement writes, and the key it holds: none, the one it had, or one nobody has. */
  lemma WrittenRow(rows: Table, step: RowStep) returns (row: Job)
    requires TableInv(rows) && Hits(rows, step)
    ensures ApplyRow(rows, step) == rows[step.id := row] && RowOk(row)
    ensures row.activeDedupeKey.None?
      || (step.id in rows && row.activeDedupeKey == rows[step.id].activeDedupeKey)
      || !KeyTaken(rows, row.activeDedupeKey.value)
  {
    row := ApplyRow(rows, step)[step.id];
  }

  lemma WriteKeepsTable(rows: Table, id: JobId, row: Job)
    requires TableInv(rows) && RowOk(row)
    requires row.activeDedupeKey.None? || (id in rows && row.activeDedupeKey == rows[id].activeDedupeKey)
      || !KeyTaken(rows, row.activeDedupeKey.value)
    ensures TableInv(rows[id := row])
  {
    if row.activeDedupeKey.Some? && !KeyTaken(rows, row.activeDedupeKey.value) {
      assert forall a :: a in rows ==> rows[a].activeDedupeKey != Some(row.activeDedupeKey.value);
    }
  }

  lemma StepKeepsTable(rows: Table, step: RowStep)
    requires TableInv(rows)
    ensures TableInv(ApplyRow(rows, step))
  {
    if Hits(rows, step) {
      var row := WrittenRow(rows, step);
      WriteKeepsTable(rows, step.id, row);
    }
  }

  /** The row invariant and the key constraint hold after every interleaving of queue statements. */
  lemma {:induction false} RunKeepsTable(rows: Table, run: seq<RowStep>)
    requires TableInv(rows)
    ensures TableInv(RunRows(rows, run))
    decreases |run|
  {
    if run != [] {
      StepKeepsTable(rows, run[0]);
      RunKeepsTable(ApplyRow(rows, run[0]), run[1..]);
    }
  }

  /** In every reachable table at most one pending or running job exists per fingerprint. */
  lemma OneActiveJobPerFingerprint(run: seq<RowStep>, a: JobId, b: JobId)
    requires var rows := RunRows(map[], run);
      a in rows && b in rows && rows[a].Active() && rows[b].Active() && rows[a].fingerprint == rows[b].fingerprint
    ensures a == b
  {
    RunKeepsTable(map[], run);
  }

  // ---------- the lease value is an epoch ----------

  /** Statements issued once the clock has passed `now`: claims and renewals stamp later times.
      Sweeps are unrestricted, because a sweep may carry an older timestamp. */
  predicate LaterSteps(run: seq<RowStep>, now: real) {
    forall k :: 0 <= k < |run| && (run[k].Claim? || run[k].Renew?) ==> run[k].now >= now && run[k].lease > 0.0
  }

  /** A lease that had expired at `now` is never written again: if the row a sweep read still shows
      that lease, then nothing at all happened to the row in between, whatever the other workers did; and a row
      to which something happened is not stale any more. */
  lemma {:induction false} LeaseIsAnEpoch(rows: Table, run: seq<RowStep>, id: JobId, now: real)
    requires id in rows && rows[id].Stale(now)
    requires LaterSteps(run, now)
    ensures id in RunRows(rows, run)
    ensures var late := RunRows(rows, run)[id];
      && (late.leaseExpiresAt == rows[id].leaseExpiresAt <==> late == rows[id])
      && (late.Stale(now) <==> late == rows[id])
  {
    EpochRun(rows, run, id, rows[id], now);
  }

  predicate SameOrLater(j: Job, read: Job, now: real) {
    j == read || (j.leaseExpiresAt.Some? ==> j.leaseExpiresAt.value >= now)
  }

  lemma {:induction false} EpochRun(rows: Table, run: seq<RowStep>, id: JobId, read: Job, now: real)
    requires id in rows && read.Stale(now) && SameOrLater(rows[id], read, now)
    requires LaterSteps(run, now)
    ensures id in RunRows(rows, run) && SameOrLater(RunRows(rows, run)[id], read, now)
    decreases |run|
  {
    if run != [] {
      var next := ApplyRow(rows, run[0]);
      assert SameOrLater(next[id], read, now);
      assert forall k :: 0 <= k < |run[1..]| ==> run[1..][k] == run[k + 1];
      EpochRun(next, run[1..], id, read, now);
    }
  }

  // ---------- bounded attempts ----------

  predicate LimitsAre(run: seq<RowStep>, limit: int) {
    forall k :: 0 <= k < |run| && run[k].Claim? ==> run[k].limit == Some(limit)
  }

  predicate Bounded(j: Job, limit: int) {
    j.attemptCount <= limit && (j.attemptCount == 0 || j.maxAttempts == limit)
  }

  function Measure(j: Job, limit: int): int {
    2 * (limit - j.attemptCount) + if j.status.Running? then 1 else 0
  }

  /** A step that moves the job forward: a claim, a recovery, a failure, or the success of a running
      job.  Renewals and a success written over a job that is no longer running do not count. */
  predicate Advances(rows: Table, step: RowStep, id: JobId) {
    id in rows && step.id == id && Hits(rows, step) && !step.Renew? && !(step.Complete? && !rows[id].status.Running?)
  }

  function Advancements(rows: Table, run: seq<RowStep>, id: JobId): nat
    decreases |run|
  {
    if run == [] then 0 else
    (if Advances(rows, run[0], id) then 1 else 0) + Advancements(ApplyRow(rows, run[0]), run[1..], id)
  }

  lemma StepDecreases(rows: Table, step: RowStep, id: JobId, limit: int)
    requires TableInv(rows) && id in rows && limit >= 1 && Bounded(rows[id], limit)
    requires step.Claim? ==> step.limit == Some(limit)
    ensures Bounded(ApplyRow(rows, step)[id], limit)
    ensures Measure(ApplyRow(rows, step)[id], limit) + (if Advances(rows, step, id) then 1 else 0)
              == Measure(rows[id], limit)
  {
    assert RowOk(rows[id]);
  }

  /** When every worker passes the same limit M >= 1, a job never exceeds M attempts and moves forward at
      most 2M times over any run: each claim, recovery and finish uses up one unit, a renewal none. */
  lemma {:induction false} BoundedAttempts(rows: Table, run: seq<RowStep>, id: JobId, limit: int)
    requires TableInv(rows) && id in rows && limit >= 1 && Bounded(rows[id], limit)
    requires LimitsAre(run, limit)
    ensures id in RunRows(rows, run)
    ensures 0 <= RunRows(rows, run)[id].attemptCount <= limit
    ensures Advancements(rows, run, id) + Measure(RunRows(rows, run)[id], limit) == Measure(rows[id], limit)
    ensures Advancements(rows, run, id) <= 2 * limit
    decreases |run|
  {
    RunKeepsTable(rows, run);
    RowsPersist(rows, run, id);
    assert RowOk(rows[id]) && RowOk(RunRows(rows, run)[id]);
    if run != [] {
      var next := ApplyRow(rows, run[0]);
      StepKeepsTable(rows, run[0]);
      StepDecreases(rows, run[0], id, limit);
      BoundedAttempts(next, run[1..], id, limit);
    }
  }

  predicate LimitsUpTo(run: seq<RowStep>, top: int) {
    forall k :: 0 <= k < |run| && run[k].Claim? && run[k].limit.Some? ==> run[k].limit.value <= top
  }

  /** With differing limits the only bound left is the largest value ever in force, the initial 3 included. */
  lemma {:induction false} AttemptsUpToLargestLimit(rows: Table, run: seq<RowStep>, id: JobId, top: int)
    requires top >= INITIAL_MAX_ATTEMPTS && LimitsUpTo(run, top)
    requires forall i :: i in rows ==> rows[i].attemptCount <= top && rows[i].maxAttempts <= top
    requires id in RunRows(rows, run)
    ensures RunRows(rows, run)[id].attemptCount <= top
    decreases |run|
  {
    if run != [] {
      var next := ApplyRow(rows, run[0]);
      assert forall i :: i in next ==> next[i].attemptCount <= top && next[i].maxAttempts <= top;
      AttemptsUpToLargestLimit(next, run[1..], id, top);
    }
  }

  predicate WithinOwnLimit(rows: Table, id: JobId) { id in rows ==> rows[id].attemptCount <= rows[id].maxAttempts }

  /** A claim that takes effect and installs a limit the attempts already made use up. */
  predicate Overruns(rows: Table, step: RowStep, id: JobId) {
    && step.Claim? && step.id == id && Hits(rows, step)
    && step.limit.Some? && step.limit.value <= rows[id].attemptCount
  }

  /** A step keeps a job within the limit its own row carries if and only if it is not such a claim. */
  lemma OwnLimitKeptIff(rows: Table, step: RowStep, id: JobId)
    requires TableInv(rows) && WithinOwnLimit(rows, id)
    ensures WithinOwnLimit(ApplyRow(rows, step), id) <==> !Overruns(rows, step, id)
  {
    if id in rows { assert RowOk(rows[id]); }
  }

  /** In every state of the run, the first and the last included. */
  predicate AlwaysWithin(rows: Table, run: seq<RowStep>, id: JobId)
    decreases |run|
  {
    WithinOwnLimit(rows, id) && (run == [] || AlwaysWithin(ApplyRow(rows, run[0]), run[1..], id))
  }

  predicate NeverOverruns(rows: Table, run: seq<RowStep>, id: JobId)
    decreases |run|
  {
    run == [] || (!Overruns(rows, run[0], id) && NeverOverruns(ApplyRow(rows, run[0]), run[1..], id))
  }

  /** Over a whole run a job stays within its row's own limit if and only if no claim of it overruns. */
  lemma {:induction false} AlwaysWithinIff(rows: Table, run: seq<RowStep>, id: JobId)
    requires TableInv(rows) && WithinOwnLimit(rows, id)
    ensures AlwaysWithin(rows, run, id) <==> NeverOverruns(rows, run, id)
    decreases |run|
  {
    if run != [] {
      StepKeepsTable(rows, run[0]);
      OwnLimitKeptIff(rows, run[0], id);
      if !Overruns(rows, run[0], id) { AlwaysWithinIff(ApplyRow(rows, run[0]), run[1..], id); }
    }
  }

  /** The bound cannot be the row's own column: a claim checks the old limit and then installs the
      claimer's, so a job can run an attempt beyond the limit it now carries. */
  lemma OwnLimitCanBeExceeded(now: real)
    ensures var run := [Insert("j", "d", "f", now), Claim("j", "a", 60.0, Some(3), now),
                        Fail("j", "a", ProviderError("provider_timeout", true), 0.0, now),
                        Claim("j", "b", 60.0, Some(1), now + 5.0)];
      var rows := RunRows(map[], run);
      "j" in rows && rows["j"].status.Running? && rows["j"].attemptCount == 2 && rows["j"].maxAttempts == 1
  {
    var r0: Table := map[];
    var s1 := Insert("j", "d", "f", now);
    var s2 := Claim("j", "a", 60.0, Some(3), now);
    var s3 := Fail("j", "a", ProviderError("provider_timeout", true), 0.0, now);
    var s4 := Claim("j", "b", 60.0, Some(1), now + 5.0);
    var r1 := ApplyRow(r0, s1);
    var r2 := ApplyRow(r1, s2);
    var r3 := ApplyRow(r2, s3);
    var r4 := ApplyRow(r3, s4);
    assert r4["j"].attemptCount == 2;
    var run := [s1, s2, s3, s4];
    assert run[1..] == [s2, s3, s4] && run[1..][1..] == [s3, s4] && run[1..][1..][1..] == [s4];
    assert RunRows(r3, [s4]) == r4;
    assert RunRows(r2, [s3, s4]) == r4;
    assert RunRows(r1, [s2, s3, s4]) == r4;
    assert RunRows(r0, run) == r4;
  }

  // ---------- terminal rows ----------

  /** Completed and failed are absorbing for every statement that checks the row it writes; the success
      write is the one statement that does not. */
  lemma TerminalAbsorbs(rows: Table, step: RowStep, id: JobId)
    requires id in rows && rows[id].Terminal() && !(step.Complete? && step.id == id)
    ensures id in ApplyRow(rows, step) && ApplyRow(rows, step)[id] == rows[id]
  {
  }
}
