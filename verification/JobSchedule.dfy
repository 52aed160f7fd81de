/**
 Which statement can take effect on a job next: what a submission, claim, renewal, recovery, failure or success
 allows and forbids from then on, with the waits in seconds.
*/
module JobSchedule {
  import opened Options
  import opened JobRows

  /** A pending job with attempts left: it can be claimed from `from` on, and nobody holds it. */
  predicate Waits(rows: Table, id: JobId, from: real, next: RowStep)
    requires next.id == id
  {
    match next
    case Claim(_, _, _, _, at) => Hits(rows, next) <==> at >= from
    case Complete(_, _) => Hits(rows, next)
    case _ => !Hits(rows, next)
  }

  /** A running job: its worker alone can renew or fail it, nobody can claim it, and a sweep takes it once the lease
      has passed. */
  predicate Runs(rows: Table, id: JobId, worker: WorkerId, expires: real, next: RowStep)
    requires next.id == id
  {
    match next
    case Renew(_, w, _, _) => Hits(rows, next) <==> w == worker
    case Fail(_, w, _, _, _) => Hits(rows, next) <==> w == worker
    case Recover(_, at) => Hits(rows, next) <==> at > expires
    case Complete(_, _) => Hits(rows, next)
    case _ => !Hits(rows, next)
  }

  /** An ended job: only a success write, which asks nothing, still takes effect. */
  predicate Ended(rows: Table, id: JobId, next: RowStep)
    requires next.id == id
  {
    Hits(rows, next) <==> next.Complete?
  }

  lemma InsertedWaits(rows: Table, id: JobId, documentId: string, fingerprint: string, now: real, next: RowStep)
    requires Hits(rows, Insert(id, documentId, fingerprint, now)) && next.id == id
    ensures var after := ApplyRow(rows, Insert(id, documentId, fingerprint, now));
      && Waits(after, id, now, next) && after[id].attemptCount == 0 && after[id].maxAttempts == 3
      && after[id].documentId == documentId && after[id].activeDedupeKey == Some(fingerprint)
  {
  }

  lemma ClaimedRuns(rows: Table, id: JobId, w: WorkerId, lease: real, limit: Option<int>, now: real, next: RowStep)
    requires Hits(rows, Claim(id, w, lease, limit, now)) && next.id == id
    ensures var after := ApplyRow(rows, Claim(id, w, lease, limit, now));
      && Runs(after, id, w, now + lease, next)
      && after[id].attemptCount == rows[id].attemptCount + 1
      && after[id].maxAttempts == (if limit.Some? then limit.value else rows[id].maxAttempts)
      && (after[id].startedAt == if rows[id].startedAt.Some? then rows[id].startedAt else Some(now))
      && after[id].heartbeatAt == Some(now) && after[id].lastErrorCode == None && after[id].lastErrorMessage == None
  {
  }

  lemma RenewedRuns(rows: Table, id: JobId, w: WorkerId, lease: real, now: real, next: RowStep)
    requires Hits(rows, Renew(id, w, lease, now)) && next.id == id
    ensures var after := ApplyRow(rows, Renew(id, w, lease, now));
      && Runs(after, id, w, now + lease, next) && after[id].attemptCount == rows[id].attemptCount
      && after[id].heartbeatAt == Some(now)
  {
  }

  /** A recovered job can be claimed at once if it has attempts left, and has failed for good if not. */
  lemma RecoveredWaits(rows: Table, id: JobId, now: real, next: RowStep)
    requires Hits(rows, Recover(id, now)) && next.id == id
    ensures var after := ApplyRow(rows, Recover(id, now));
      && after[id].attemptCount == rows[id].attemptCount
      && if rows[id].attemptCount < rows[id].maxAttempts then
           Waits(after, id, now, next) && after[id].lastErrorCode == Some("worker_lease_expired")
         else
           && Ended(after, id, next) && after[id].status.Failed? && after[id].finishedAt == Some(now)
           && after[id].activeDedupeKey == None && after[id].lastErrorCode == Some("max_attempts_exceeded")
  {
  }

  /** A retried job waits 5 to 6 seconds after its first attempt, 30 to 35 after the second, and two minutes after any
      later one: no claim takes effect before that and every claim does afterwards. */
  lemma RetriedWaits(rows: Table, id: JobId, w: WorkerId, error: AnalysisError, draw: real, now: real, next: RowStep)
    returns (wait: real)
    requires Hits(rows, Fail(id, w, error, draw, now)) && next.id == id
    requires error.ProviderError? && error.retryable && rows[id].attemptCount < rows[id].maxAttempts
    requires DrawFits(rows[id].attemptCount, draw)
    ensures WaitFits(rows[id].attemptCount, wait)
    ensures var after := ApplyRow(rows, Fail(id, w, error, draw, now));
      && Waits(after, id, now + wait, next) && after[id].attemptCount == rows[id].attemptCount
      && after[id].availableAt == now + wait && after[id].lastErrorCode == Some(error.reasonCode)
  {
    wait := ApplyRow(rows, Fail(id, w, error, draw, now))[id].availableAt - now;
  }

  /** Any other failure is final. */
  lemma FailedEnds(rows: Table, id: JobId, w: WorkerId, error: AnalysisError, draw: real, now: real, next: RowStep)
    requires Hits(rows, Fail(id, w, error, draw, now)) && next.id == id
    requires error.OtherError? || !error.retryable || rows[id].attemptCount >= rows[id].maxAttempts
    ensures var after := ApplyRow(rows, Fail(id, w, error, draw, now));
      && Ended(after, id, next) && after[id].status.Failed? && after[id].finishedAt == Some(now)
      && after[id].activeDedupeKey == None && after[id].attemptCount == rows[id].attemptCount
      && after[id].lastErrorCode == Some(
           if error.OtherError? then "analysis_execution_failed"
           else if error.retryable then "max_attempts_exceeded" else error.reasonCode)
  {
  }

  lemma CompletedEnds(rows: Table, id: JobId, now: real, next: RowStep)
    requires id in rows && next.id == id
    ensures var after := ApplyRow(rows, Complete(id, now));
      && Ended(after, id, next) && after[id].status.Completed? && after[id].finishedAt == Some(now)
      && after[id].activeDedupeKey == None && after[id].lastErrorCode == None
      && after[id].attemptCount == rows[id].attemptCount
  {
  }

  /** No statement changes which document a job is for, when it was submitted, or when its first attempt started; and
      only what releases a job to the queue changes its place there. */
  lemma IdentityIsKept(rows: Table, step: RowStep, id: JobId)
    requires id in rows
    ensures id in ApplyRow(rows, step)
    ensures var before, after := rows[id], ApplyRow(rows, step)[id];
      && after.documentId == before.documentId && after.fingerprint == before.fingerprint
      && after.createdAt == before.createdAt
      && (before.startedAt.Some? ==> after.startedAt == before.startedAt)
      && (after.availableAt != before.availableAt ==> after.status.Pending? && (step.Recover? || step.Fail?))
  {
  }

  /** What a customer is shown: the retry message while a retry is due, the failure message for good. */
  lemma MessagesAre(rows: Table, id: JobId, w: WorkerId, error: AnalysisError, draw: real, now: real)
    ensures Hits(rows, Recover(id, now)) ==>
      ShowsMessage(ApplyRow(rows, Recover(id, now))[id])
    ensures Hits(rows, Fail(id, w, error, draw, now)) ==>
      ShowsMessage(ApplyRow(rows, Fail(id, w, error, draw, now))[id])
  {
  }

  predicate ShowsMessage(j: Job) {
    j.lastErrorMessage == Some(
      if j.status.Pending? then "Analysis is temporarily unavailable and will be retried."
      else "Analysis could not be completed.")
  }

  // ---------- over runs ----------

  /** A waiting job is left alone by everything but its claim, once it is due, and a success write. */
  lemma {:induction false} WaitingIsLeftAlone(rows: Table, run: seq<RowStep>, id: JobId)
    requires id in rows && rows[id].status.Pending?
    requires forall k :: 0 <= k < |run| && run[k].id == id ==>
      !run[k].Complete? && (run[k].Claim? ==> run[k].now < rows[id].availableAt)
    ensures id in RunRows(rows, run) && RunRows(rows, run)[id] == rows[id]
    decreases |run|
  {
    if run != [] {
      var next := ApplyRow(rows, run[0]);
      assert id in next && next[id] == rows[id];
      assert forall k :: 0 <= k < |run[1..]| ==> run[1..][k] == run[k + 1];
      WaitingIsLeftAlone(next, run[1..], id);
    }
  }

  function LeastWait(attempt: int): real { if attempt <= 1 then 5.0 else if attempt == 2 then 30.0 else 120.0 }

  /** Whatever other workers and sweeps do meanwhile, a retried job stays as it is until its wait is over, and can
      then be claimed: attempts cannot be burnt one right after the other. */
  lemma RetryWaitsItsTurn(rows: Table, id: JobId, w: WorkerId, error: AnalysisError, draw: real, now: real,
                          run: seq<RowStep>, next: RowStep)
    returns (wait: real)
    requires Hits(rows, Fail(id, w, error, draw, now)) && next.id == id
    requires error.ProviderError? && error.retryable && rows[id].attemptCount < rows[id].maxAttempts
    requires DrawFits(rows[id].attemptCount, draw)
    requires forall k :: 0 <= k < |run| && run[k].id == id ==>
      !run[k].Complete? && (run[k].Claim? ==> run[k].now < now + LeastWait(rows[id].attemptCount))
    ensures WaitFits(rows[id].attemptCount, wait)
    ensures var after := RunRows(ApplyRow(rows, Fail(id, w, error, draw, now)), run);
      id in after && Waits(after, id, now + wait, next) && after[id].attemptCount == rows[id].attemptCount
  {
    wait := RetriedWaits(rows, id, w, error, draw, now, next);
    WaitingIsLeftAlone(ApplyRow(rows, Fail(id, w, error, draw, now)), run, id);
  }
}
