/**
 The queue operations, statement by statement.  Between two statements of one call the other
 processes may commit anything.  What they commit is an input, `others(k)` in the k-th pause of the call,
 so each contract says, for every interference, which table and which answer the call produces.  The
 result is always a run of atomic steps, and the run lemmas of `JobRows` apply to it.
*/
module JobQueue {
  import opened Options
  import opened JobRows

  const CLAIM_CANDIDATES := 20

  datatype StaleRecoveryResult = StaleRecoveryResult(recovered: int, retried: int, failed: int)

  datatype EnqueueResult = Existing(id: JobId) | Inserted(id: JobId) | IntegrityError

  /** What the other processes commit in the pauses of a call. */
  type Others = nat -> seq<RowStep>

  ghost predicate Undisturbed(others: Others) { forall k :: others(k) == [] }

  /** Claims and renewals of the others are stamped no earlier than the call. */
  ghost predicate NotBefore(others: Others, now: real) { forall k :: LaterSteps(others(k), now) }

  /** What the others commit in the first `n` pauses. */
  function Joined(others: Others, n: nat): seq<RowStep> {
    if n == 0 then [] else Joined(others, n - 1) + others(n - 1)
  }

  // ---------- enqueueing ----------

  predicate ActiveFor(rows: Table, fingerprint: string, id: JobId) {
    id in rows && rows[id].Active() && rows[id].fingerprint == fingerprint
  }

  predicate NoneActive(rows: Table, fingerprint: string) {
    forall id :: id in rows ==> !ActiveFor(rows, fingerprint, id)
  }

  /** The active key is taken exactly while a job of the fingerprint is active, and by that job alone. */
  lemma KeysAreActiveJobs(rows: Table, fingerprint: string)
    requires TableInv(rows)
    ensures KeyTaken(rows, fingerprint) <==> !NoneActive(rows, fingerprint)
    ensures forall id :: id in rows ==>
      (rows[id].activeDedupeKey == Some(fingerprint) && rows[id].Active() <==> ActiveFor(rows, fingerprint, id))
    ensures forall a, b :: ActiveFor(rows, fingerprint, a) && ActiveFor(rows, fingerprint, b) ==> a == b
  {
    forall id | id in rows ensures rows[id].activeDedupeKey == Some(fingerprint) <==> ActiveFor(rows, fingerprint, id) {
      assert RowOk(rows[id]);
    }
  }

  // ---------- claiming ----------

  /** ORDER BY available_at, created_at. */
  predicate Before(a: Job, b: Job) {
    a.availableAt < b.availableAt || (a.availableAt == b.availableAt && a.createdAt <= b.createdAt)
  }

  /** The first twenty claimable rows in queue order. */
  predicate FirstTwenty(rows: Table, ids: seq<JobId>, now: real) {
    && |ids| <= CLAIM_CANDIDATES
    && (forall i :: 0 <= i < |ids| ==> ids[i] in rows && rows[ids[i]].Claimable(now))
    && (forall i, j :: 0 <= i < j < |ids| ==> ids[i] != ids[j] && Before(rows[ids[i]], rows[ids[j]]))
    && (forall id :: id in rows && rows[id].Claimable(now) && id !in ids ==>
          |ids| == CLAIM_CANDIDATES && forall i :: 0 <= i < |ids| ==> Before(rows[ids[i]], rows[id]))
  }

  /** The table at the k-th conditional update of a claim, if the call has claimed nothing before. */
  function AtTurn(rows: Table, others: Others, k: nat): Table { RunRows(rows, Joined(others, k + 1)) }

  /** Whether the k-th candidate can still be claimed when its turn comes. */
  predicate StillFree(rows: Table, ids: seq<JobId>, others: Others, k: nat, now: real)
    requires k < |ids|
  {
    ids[k] in AtTurn(rows, others, k) && AtTurn(rows, others, k)[ids[k]].Claimable(now)
  }

  predicate NoneFree(rows: Table, ids: seq<JobId>, others: Others, n: nat, now: real) {
    && n <= |ids|
    && (forall k {:trigger StillFree(rows, ids, others, k, now)} ::
          0 <= k < n ==> !StillFree(rows, ids, others, k, now))
  }

  /** `turn` is the first candidate that is still free at its turn, or the number of candidates if none is. */
  predicate FirstFree(rows: Table, ids: seq<JobId>, others: Others, turn: nat, now: real) {
    && NoneFree(rows, ids, others, turn, now)
    && (turn < |ids| ==> StillFree(rows, ids, others, turn, now))
  }

  /** After `n` candidates were tried in vain the table is what the others made of it. */
  ghost predicate PassedOver(start: Table, rows: Table, ids: seq<JobId>, others: Others, n: nat, now: real) {
    TableInv(rows) && NoneFree(start, ids, others, n, now) && rows == RunRows(start, Joined(others, n))
  }

  /** The first candidate that was still free has been claimed, on top of what the others did. */
  ghost predicate Took(
    start: Table, rows: Table, ids: seq<JobId>, others: Others, turn: nat, worker: WorkerId, lease: real,
    limit: Option<int>, now: real)
  {
    && turn < |ids| && TableInv(rows) && FirstFree(start, ids, others, turn, now)
    && rows == RunRows(start, Joined(others, turn + 1) + [Claim(ids[turn], worker, lease, limit, now)])
    && ids[turn] in rows && rows[ids[turn]].OwnedBy(worker) && rows[ids[turn]].leaseExpiresAt == Some(now + lease)
  }

  /** What an undisturbed claim returns. */
  predicate FirstInQueue(rows: Table, claimed: Option<JobId>, now: real) {
    match claimed
    case None => forall id :: id in rows ==> !rows[id].Claimable(now)
    case Some(first) =>
      && first in rows && rows[first].Claimable(now)
      && forall id :: id in rows && rows[id].Claimable(now) ==> Before(rows[first], rows[id])
  }

  /** Undisturbed, the call takes the earliest claimable job, and returns nothing only when no job is claimable. */
  lemma UndisturbedClaim(rows: Table, ids: seq<JobId>, others: Others, turn: nat, now: real)
    requires FirstTwenty(rows, ids, now) && FirstFree(rows, ids, others, turn, now) && Undisturbed(others)
    ensures FirstInQueue(rows, if turn < |ids| then Some(ids[turn]) else None, now)
  {
    if ids != [] {
      assert Joined(others, 1) == [];
      assert StillFree(rows, ids, others, 0, now);
      forall id | id in rows && rows[id].Claimable(now) ensures Before(rows[ids[0]], rows[id]) {
        if id in ids {
          var i :| 0 <= i < |ids| && ids[i] == id;
        }
      }
    }
  }

  class JobTable {
    var rows: Table

    constructor ()
      ensures rows == map[] && TableInv(rows)
    {
      rows := map[];
    }

    /** The other processes commit while this one is between two statements. */
    method Interference(steps: seq<RowStep>)
      requires TableInv(rows)
      modifies this
      ensures rows == RunRows(old(rows), steps) && TableInv(rows)
    {
      RunKeepsTable(rows, steps);
      rows := RunRows(rows, steps);
    }

    method FindActive(fingerprint: string) returns (found: Option<JobId>)
      requires TableInv(rows)
      ensures found.Some? ==> ActiveFor(rows, fingerprint, found.value)
      ensures found.None? ==> NoneActive(rows, fingerprint)
    {
      KeysAreActiveJobs(rows, fingerprint);
      if id :| id in rows && rows[id].activeDedupeKey == Some(fingerprint) && rows[id].Active() {
        return Some(id);
      }
      return None;
    }

    /** Answers with the active job of the fingerprint or inserts one.  An insertion the constraints refuse is answered
        with the winner, and is re-raised exactly when nobody is active any more at the second look. */
    method Enqueue(newId: JobId, documentId: string, fingerprint: string, now: real, others: Others)
      returns (r: EnqueueResult)
      requires TableInv(rows)
      modifies this
      ensures TableInv(rows)
      ensures var first := old(rows);
        var second := RunRows(first, others(0));
        var third := RunRows(second, others(1));
        if !NoneActive(first, fingerprint) then
          rows == first && r.Existing? && ActiveFor(first, fingerprint, r.id)
        else if NoneActive(second, fingerprint) && newId !in second then
          rows == ApplyRow(second, Insert(newId, documentId, fingerprint, now)) && r == Inserted(newId)
        else if NoneActive(third, fingerprint) then
          rows == third && r == IntegrityError
        else
          rows == third && r.Existing? && ActiveFor(third, fingerprint, r.id)
      ensures !r.IntegrityError? ==> forall id :: ActiveFor(rows, fingerprint, id) <==> id == r.id
      ensures r.IntegrityError? ==> NoneActive(rows, fingerprint)
    {
      var existing := FindActive(fingerprint);
      if existing.Some? {
        KeysAreActiveJobs(rows, fingerprint);
        return Existing(existing.value);
      }

      Interference(others(0));
      KeysAreActiveJobs(rows, fingerprint);
      if newId !in rows && !KeyTaken(rows, fingerprint) {
        StepKeepsTable(rows, Insert(newId, documentId, fingerprint, now));
        rows := rows[newId := NewRow(documentId, fingerprint, now)];
        KeysAreActiveJobs(rows, fingerprint);
        return Inserted(newId);
      }

      Interference(others(1));
      existing := FindActive(fingerprint);
      if existing.None? {
        return IntegrityError;
      }
      KeysAreActiveJobs(rows, fingerprint);
      return Existing(existing.value);
    }

    method EarliestOf(ids: set<JobId>) returns (first: JobId)
      requires ids != {} && ids <= rows.Keys
      ensures first in ids && forall id :: id in ids ==> Before(rows[first], rows[id])
    {
      first :| first in ids;
      var rest := ids - {first};
      while rest != {}
        invariant first in ids && rest <= ids
        invariant forall id :: id in ids && id !in rest ==> Before(rows[first], rows[id])
        decreases rest
      {
        var id :| id in rest;
        if !Before(rows[first], rows[id]) {
          first := id;
        }
        rest := rest - {id};
      }
    }

    method SelectClaimable(now: real) returns (ids: seq<JobId>)
      ensures FirstTwenty(rows, ids, now)
      ensures |ids| <= 20 && forall id :: id in rows && rows[id].Claimable(now) && id !in ids ==> |ids| == 20
      ensures forall i, j :: 0 <= i < j < |ids| ==>
        || rows[ids[i]].availableAt < rows[ids[j]].availableAt
        || (rows[ids[i]].availableAt == rows[ids[j]].availableAt && rows[ids[i]].createdAt <= rows[ids[j]].createdAt)
    {
      var rest := set id | id in rows && rows[id].Claimable(now);
      ids := [];
      while rest != {} && |ids| < CLAIM_CANDIDATES
        invariant |ids| <= CLAIM_CANDIDATES
        invariant forall i :: 0 <= i < |ids| ==> ids[i] in rows && rows[ids[i]].Claimable(now) && ids[i] !in rest
        invariant forall id :: id in rest ==> id in rows
        invariant forall id :: id in rows && rows[id].Claimable(now) ==> id in rest || id in ids
        invariant forall i, j :: 0 <= i < j < |ids| ==> ids[i] != ids[j] && Before(rows[ids[i]], rows[ids[j]])
        invariant forall i, id :: 0 <= i < |ids| && id in rest ==> Before(rows[ids[i]], rows[id])
        decreases rest
      {
        var id := EarliestOf(rest);
        ids := ids + [id];
        rest := rest - {id};
      }
    }

    /** The conditional update of a claim: it takes effect exactly when the row is claimable by then. */
    method TryClaim(id: JobId, worker: WorkerId, lease: real, limit: Option<int>, now: real, others: seq<RowStep>)
      returns (hit: bool)
      requires TableInv(rows)
      modifies this
      ensures var late := RunRows(old(rows), others); var claim := Claim(id, worker, lease, limit, now);
        && TableInv(rows) && rows == ApplyRow(late, claim) && (hit <==> Hits(late, claim))
      ensures hit ==> id in rows && rows[id].OwnedBy(worker) && rows[id].leaseExpiresAt == Some(now + lease)
    {
      Interference(others);
      StepKeepsTable(rows, Claim(id, worker, lease, limit, now));
      hit := id in rows && rows[id].Claimable(now);
      if hit {
        rows := rows[id := ClaimRow(rows[id], worker, lease, limit, now)];
      }
    }

    /** The candidates are tried in order by a conditional update that re-checks every condition: the call claims the
        first one that is still free at its turn, and nothing else; a candidate lost to another worker is left alone. */
    method ClaimNextJob(worker: WorkerId, lease: real, limit: Option<int>, now: real, others: Others)
      returns (claimed: Option<JobId>, ghost candidates: seq<JobId>, ghost turn: nat)
      requires TableInv(rows)
      modifies this
      ensures TableInv(rows)
      ensures FirstTwenty(old(rows), candidates, now) && FirstFree(old(rows), candidates, others, turn, now)
      ensures claimed == if turn < |candidates| then Some(candidates[turn]) else None
      ensures rows == RunRows(old(rows),
        if claimed.Some? then Joined(others, turn + 1) + [Claim(claimed.value, worker, lease, limit, now)]
        else Joined(others, turn))
      ensures claimed.Some? ==> claimed.value in rows && rows[claimed.value].OwnedBy(worker)
      ensures claimed.Some? ==> rows[claimed.value].leaseExpiresAt == Some(now + lease)
      ensures Undisturbed(others) ==> FirstInQueue(old(rows), claimed, now)
    {
      var ids := SelectClaimable(now);
      candidates := ids;
      claimed, turn := ClaimFirstFree(ids, worker, lease, limit, now, others);
      if Undisturbed(others) { UndisturbedClaim(old(rows), ids, others, turn, now); }
    }

    method TryAt(
      ids: seq<JobId>, i: nat, worker: WorkerId, lease: real, limit: Option<int>, now: real, others: Others,
      ghost start: Table)
      returns (hit: bool)
      requires i < |ids| && PassedOver(start, rows, ids, others, i, now)
      modifies this
      ensures if hit then Took(start, rows, ids, others, i, worker, lease, limit, now)
              else PassedOver(start, rows, ids, others, i + 1, now)
    {
      RunConcat(start, Joined(others, i), others(i));
      RunOneMore(start, Joined(others, i + 1), Claim(ids[i], worker, lease, limit, now));
      hit := TryClaim(ids[i], worker, lease, limit, now, others(i));
    }

    method ClaimFirstFree(
      ids: seq<JobId>, worker: WorkerId, lease: real, limit: Option<int>, now: real, others: Others)
      returns (claimed: Option<JobId>, ghost turn: nat)
      requires TableInv(rows)
      modifies this
      ensures turn <= |ids| && claimed == if turn < |ids| then Some(ids[turn]) else None
      ensures if turn < |ids| then Took(old(rows), rows, ids, others, turn, worker, lease, limit, now)
              else PassedOver(old(rows), rows, ids, others, turn, now)
    {
      var i := 0;
      while i < |ids|
        invariant 0 <= i <= |ids| && PassedOver(old(rows), rows, ids, others, i, now)
      {
        var hit := TryAt(ids, i, worker, lease, limit, now, others, old(rows));
        if hit {
          return Some(ids[i]), i;
        }
        i := i + 1;
      }
      return None, i;
    }

    /** True exactly when the row was running under this worker; otherwise nothing changes. */
    method RenewJobLease(id: JobId, worker: WorkerId, lease: real, now: real) returns (renewed: bool)
      modifies this
      ensures renewed <==> id in old(rows) && old(rows)[id].OwnedBy(worker)
      ensures rows == ApplyRow(old(rows), Renew(id, worker, lease, now))
    {
      renewed := id in rows && rows[id].OwnedBy(worker);
      if renewed {
        rows := rows[id := RenewRow(rows[id], lease, now)];
      }
    }

    method SelectStale(now: real) returns (ids: seq<JobId>)
      ensures StaleSet(rows, ids, now)
    {
      var rest := set id | id in rows && rows[id].Stale(now);
      ids := [];
      while rest != {}
        invariant forall i :: 0 <= i < |ids| ==> ids[i] !in rest
        invariant forall i, j :: 0 <= i < j < |ids| ==> ids[i] != ids[j]
        invariant forall id :: id in rest || id in ids <==> id in rows && rows[id].Stale(now)
        decreases rest
      {
        var id :| id in rest;
        ids := ids + [id];
        rest := rest - {id};
      }
    }

    /** The sweep reads a row, decides from what it read, and later writes if the lease is still the one it read.
        Despite the gap, each turn is the others' commits and one atomic recovery of the row as it then stands. */
    method RecoverStaleJobs(now: real, others: Others) returns (result: StaleRecoveryResult, ghost ids: seq<JobId>)
      requires TableInv(rows) && NotBefore(others, now)
      modifies this
      ensures TableInv(rows) && StaleSet(old(rows), ids, now)
      ensures rows == RunRows(old(rows), SweepSteps(old(rows), ids, others, |ids|, now))
      ensures result == Tally(Turns(old(rows), ids, others, |ids|, now))
      ensures result.recovered == result.retried + result.failed
      ensures forall id :: id in old(rows) && LeftAlone(others, id) ==>
        id in rows && rows[id] == SweptRow(old(rows)[id], now)
      ensures Undisturbed(others) ==> forall id :: id in rows ==> !rows[id].Stale(now)
    {
      var stale := SelectStale(now);
      ids := stale;
      result := SweepAll(stale, now, others);
      TallyAddsUp(Turns(old(rows), ids, others, |ids|, now));
      SweptAre(old(rows), ids, others, now);
      if Undisturbed(others) { NothingStaleIsLeft(old(rows), ids, others, now); }
    }

    method SweepAll(ids: seq<JobId>, now: real, others: Others) returns (result: StaleRecoveryResult)
      requires TableInv(rows) && NotBefore(others, now)
      modifies this
      ensures TableInv(rows) && rows == RunRows(old(rows), SweepSteps(old(rows), ids, others, |ids|, now))
      ensures result == Tally(Turns(old(rows), ids, others, |ids|, now))
    {
      result := StaleRecoveryResult(0, 0, 0);
      var i := 0;
      while i < |ids|
        invariant 0 <= i <= |ids| && TableInv(rows)
        invariant rows == RunRows(old(rows), SweepSteps(old(rows), ids, others, i, now))
        invariant result == Tally(Turns(old(rows), ids, others, i, now))
      {
        result := SweepAt(ids, i, now, result, others, old(rows));
        i := i + 1;
      }
    }

    method SweepAt(ids: seq<JobId>, i: nat, now: real, counts: StaleRecoveryResult, others: Others, ghost start: Table)
      returns (result: StaleRecoveryResult)
      requires TableInv(rows) && NotBefore(others, now) && i < |ids|
      requires rows == RunRows(start, SweepSteps(start, ids, others, i, now))
      requires counts == Tally(Turns(start, ids, others, i, now))
      modifies this
      ensures TableInv(rows) && rows == RunRows(start, SweepSteps(start, ids, others, i + 1, now))
      ensures result == Tally(Turns(start, ids, others, i + 1, now))
    {
      SweepGrows(start, ids, others, i, now);
      result := SweepOne(ids[i], i, now, counts, others);
    }

    /** One turn of the sweep: read the row, decide, and write if the lease is still the one read. */
    method SweepOne(id: JobId, k: nat, now: real, counts: StaleRecoveryResult, others: Others)
      returns (result: StaleRecoveryResult)
      requires TableInv(rows) && NotBefore(others, now)
      modifies this
      ensures TableInv(rows) && rows == RunRows(old(rows), TurnSteps(old(rows), id, others, k, now))
      ensures result == Counted(counts, TurnOutcome(old(rows), id, others, k, now))
    {
      result := counts;
      Interference(others(2 * k));
      if id in rows && rows[id].Stale(now) {
        ghost var seen := rows;
        var exhausted := rows[id].Exhausted();
        var hit := WriteRecovery(id, rows[id].leaseExpiresAt, exhausted, now, others(2 * k + 1));
        RunOneMore(seen, others(2 * k + 1), Recover(id, now));
        RunConcat(old(rows), others(2 * k), others(2 * k + 1) + [Recover(id, now)]);
        if hit {
          result := Counted(counts, if exhausted then GaveUp else Retried);
        }
      }
    }

    /** The conditional update of a recovery, decided on a row read earlier: it takes effect exactly when the row is
        still stale, which is when nothing has happened to it, and then does what an atomic recovery would do. */
    method WriteRecovery(id: JobId, expected: Option<real>, exhausted: bool, now: real, others: seq<RowStep>)
      returns (hit: bool)
      requires TableInv(rows) && LaterSteps(others, now)
      requires id in rows && rows[id].Stale(now)
      requires rows[id].leaseExpiresAt == expected && rows[id].Exhausted() == exhausted
      modifies this
      ensures var late := RunRows(old(rows), others);
        && TableInv(rows) && rows == ApplyRow(late, Recover(id, now))
        && (hit <==> Hits(late, Recover(id, now))) && (hit ==> late[id] == old(rows)[id])
    {
      LeaseIsAnEpoch(rows, others, id, now);
      Interference(others);
      StepKeepsTable(rows, Recover(id, now));
      hit := rows[id].status.Running? && rows[id].leaseExpiresAt == expected;
      if hit {
        rows := rows[id := RecoverRow(rows[id], exhausted, now)];
      }
    }

    /** Checks the loaded copy of the row, then writes the stored row by id. */
    method FinishJobSuccess(id: JobId, loaded: Job, worker: WorkerId, now: real) returns (claimLost: bool)
      requires id in rows
      modifies this
      ensures claimLost <==> !loaded.OwnedBy(worker)
      ensures rows == if claimLost then old(rows) else ApplyRow(old(rows), Complete(id, now))
    {
      claimLost := !loaded.OwnedBy(worker);
      if !claimLost {
        rows := rows[id := CompleteRow(rows[id], now)];
      }
    }

    /** Re-reads the row; reports what became of the job, and changes it only for its owner. */
    method FinishJobFailure(id: JobId, worker: WorkerId, error: AnalysisError, draw: real, now: real)
      returns (outcome: string)
      modifies this
      ensures rows == ApplyRow(old(rows), Fail(id, worker, error, draw, now))
      ensures outcome == "claim_lost" <==> !(id in old(rows) && old(rows)[id].OwnedBy(worker))
      ensures outcome == "claim_lost" || outcome == "pending" || outcome == "failed"
      ensures outcome != "claim_lost" ==>
        && rows[id].status == (if outcome == "pending" then Pending else Failed)
        && (outcome == "pending" <==> error.Retryable() && old(rows)[id].attemptCount < old(rows)[id].maxAttempts)
        && rows[id].attemptCount == old(rows)[id].attemptCount && !rows[id].status.Running?
      ensures outcome == "pending" && DrawFits(old(rows)[id].attemptCount, draw) ==>
        WaitFits(old(rows)[id].attemptCount, rows[id].availableAt - now)
      ensures outcome == "pending" ==> rows[id].lastErrorCode == Some(error.reasonCode)
      ensures outcome == "failed" ==>
        && rows[id].finishedAt == Some(now) && rows[id].activeDedupeKey == None
        && rows[id].lastErrorCode == Some(
             if error.OtherError? then "analysis_execution_failed"
             else if error.retryable then "max_attempts_exceeded" else error.reasonCode)
    {
      if id !in rows || !rows[id].OwnedBy(worker) {
        return "claim_lost";
      }
      var retry := error.Retryable() && rows[id].attemptCount < rows[id].maxAttempts;
      rows := rows[id := FailRow(rows[id], error, draw, now)];
      return if retry then "pending" else "failed";
    }
  }

  // ---------- what a sweep does ----------

  /** The rows that are stale at the start, each once. */
  ghost predicate StaleSet(rows: Table, ids: seq<JobId>, now: real) {
    && (forall i, j :: 0 <= i < j < |ids| ==> ids[i] != ids[j])
    && (forall id :: id in ids <==> id in rows && rows[id].Stale(now))
  }

  /** The steps of the k-th turn: a row that is no longer stale when it is read is skipped. */
  function TurnSteps(rows: Table, id: JobId, others: Others, k: nat, now: real): seq<RowStep> {
    var seen := RunRows(rows, others(2 * k));
    if id in seen && seen[id].Stale(now) then others(2 * k) + (others(2 * k + 1) + [Recover(id, now)])
    else others(2 * k)
  }

  /** All steps of the first `n` turns. */
  function SweepSteps(rows: Table, ids: seq<JobId>, others: Others, n: nat, now: real): seq<RowStep>
    requires n <= |ids|
  {
    if n == 0 then []
    else
      var before := SweepSteps(rows, ids, others, n - 1, now);
      before + TurnSteps(RunRows(rows, before), ids[n - 1], others, n - 1, now)
  }

  datatype TurnResult = Skipped | Retried | GaveUp

  /** What becomes of the row in the k-th turn, judged by the row as the recovery finds it. */
  function TurnOutcome(rows: Table, id: JobId, others: Others, k: nat, now: real): TurnResult {
    var seen := RunRows(rows, others(2 * k));
    var late := RunRows(seen, others(2 * k + 1));
    if !(id in seen && seen[id].Stale(now)) || !Hits(late, Recover(id, now)) then Skipped
    else if late[id].Exhausted() then GaveUp
    else Retried
  }

  function Counted(c: StaleRecoveryResult, r: TurnResult): StaleRecoveryResult {
    match r
    case Skipped => c
    case Retried => StaleRecoveryResult(c.recovered + 1, c.retried + 1, c.failed)
    case GaveUp => StaleRecoveryResult(c.recovered + 1, c.retried, c.failed + 1)
  }

  /** What became of the rows of the first `n` turns. */
  function Turns(rows: Table, ids: seq<JobId>, others: Others, n: nat, now: real): (turns: seq<TurnResult>)
    requires n <= |ids|
    ensures |turns| == n
  {
    if n == 0 then []
    else
      var before := RunRows(rows, SweepSteps(rows, ids, others, n - 1, now));
      Turns(rows, ids, others, n - 1, now) + [TurnOutcome(before, ids[n - 1], others, n - 1, now)]
  }

  function Tally(turns: seq<TurnResult>): StaleRecoveryResult {
    if turns == [] then StaleRecoveryResult(0, 0, 0)
    else Counted(Tally(turns[..|turns| - 1]), turns[|turns| - 1])
  }

  lemma {:induction false} TallyAddsUp(turns: seq<TurnResult>)
    ensures var c := Tally(turns);
      c.recovered == c.retried + c.failed && 0 <= c.retried && 0 <= c.failed && c.recovered <= |turns|
  {
    if turns != [] { TallyAddsUp(turns[..|turns| - 1]); }
  }

  lemma SweepGrows(rows: Table, ids: seq<JobId>, others: Others, n: nat, now: real)
    requires n < |ids|
    ensures var before := RunRows(rows, SweepSteps(rows, ids, others, n, now));
      && RunRows(rows, SweepSteps(rows, ids, others, n + 1, now))
           == RunRows(before, TurnSteps(before, ids[n], others, n, now))
      && Tally(Turns(rows, ids, others, n + 1, now))
           == Counted(Tally(Turns(rows, ids, others, n, now)), TurnOutcome(before, ids[n], others, n, now))
  {
    var steps := SweepSteps(rows, ids, others, n, now);
    RunConcat(rows, steps, TurnSteps(RunRows(rows, steps), ids[n], others, n, now));
    var turns := Turns(rows, ids, others, n + 1, now);
    assert turns[..n] == Turns(rows, ids, others, n, now);
  }

  lemma RunOneMore(rows: Table, run: seq<RowStep>, step: RowStep)
    ensures RunRows(rows, run + [step]) == ApplyRow(RunRows(rows, run), step)
  {
    RunConcat(rows, run, [step]);
    assert RunRows(RunRows(rows, run), [step]) == ApplyRow(RunRows(rows, run), step);
  }

  predicate Avoids(steps: seq<RowStep>, id: JobId) {
    forall k :: 0 <= k < |steps| ==> steps[k].id != id
  }

  /** The others do not touch the row. */
  ghost predicate LeftAlone(others: Others, id: JobId) {
    forall k {:trigger Avoids(others(k), id)} :: Avoids(others(k), id)
  }

  function SweptRow(j: Job, now: real): Job {
    if j.Stale(now) then RecoverRow(j, j.Exhausted(), now) else j
  }

  /** A turn does to a row the others leave alone what the sweep promises, and to any other such row nothing. */
  lemma TurnSweeps(rows: Table, turnId: JobId, others: Others, k: nat, id: JobId, now: real)
    requires id in rows && LeftAlone(others, id)
    ensures var after := RunRows(rows, TurnSteps(rows, turnId, others, k, now));
      id in after && after[id] == if id == turnId then SweptRow(rows[id], now) else rows[id]
  {
    var seen := RunRows(rows, others(2 * k));
    assert Avoids(others(2 * k), id) && Avoids(others(2 * k + 1), id);
    UntouchedRow(rows, others(2 * k), id);
    if turnId in seen && seen[turnId].Stale(now) {
      RunConcat(rows, others(2 * k), others(2 * k + 1) + [Recover(turnId, now)]);
      RunOneMore(seen, others(2 * k + 1), Recover(turnId, now));
      UntouchedRow(seen, others(2 * k + 1), id);
    }
  }

  predicate IsTurn(ids: seq<JobId>, k: nat, id: JobId)
    requires k < |ids|
  {
    ids[k] == id
  }

  /** What the k-th turn does to a row. */
  predicate TurnDoes(before: Table, after: Table, ids: seq<JobId>, k: nat, id: JobId, now: real)
    requires k < |ids|
  {
    id in before ==>
      id in after && after[id] == if IsTurn(ids, k, id) then SweptRow(before[id], now) else before[id]
  }

  /** A row whose only turn is the m-th is swept from then on, and untouched before. */
  lemma {:induction false} SweptFrom(at: nat -> Table, ids: seq<JobId>, n: nat, id: JobId, m: nat, now: real)
    requires n <= |ids| && id in at(0)
    requires forall k {:trigger IsTurn(ids, k, id)} :: 0 <= k < |ids| ==> (IsTurn(ids, k, id) <==> k == m)
    requires forall k :: 0 <= k < n ==> TurnDoes(at(k), at(k + 1), ids, k, id, now)
    ensures id in at(n) && at(n)[id] == if m < n then SweptRow(at(0)[id], now) else at(0)[id]
  {
    if n > 0 {
      SweptFrom(at, ids, n - 1, id, m, now);
      assert TurnDoes(at(n - 1), at(n - 1 + 1), ids, n - 1, id, now);
    }
  }

  function SweptTable(rows: Table, ids: seq<JobId>, others: Others, n: nat, now: real): Table {
    if n <= |ids| then RunRows(rows, SweepSteps(rows, ids, others, n, now)) else rows
  }

  lemma EachTurnDoes(rows: Table, ids: seq<JobId>, others: Others, k: nat, id: JobId, now: real)
    requires k < |ids| && LeftAlone(others, id)
    ensures TurnDoes(SweptTable(rows, ids, others, k, now), SweptTable(rows, ids, others, k + 1, now), ids, k, id, now)
  {
    var before := SweptTable(rows, ids, others, k, now);
    SweepGrows(rows, ids, others, k, now);
    if id in before { TurnSweeps(before, ids[k], others, k, id, now); }
  }

  /** A row the others leave alone ends recovered if it was stale and unchanged if it was not. */
  lemma SweptIs(rows: Table, ids: seq<JobId>, others: Others, id: JobId, now: real)
    requires StaleSet(rows, ids, now) && id in rows && LeftAlone(others, id)
    ensures var after := SweptTable(rows, ids, others, |ids|, now); id in after && after[id] == SweptRow(rows[id], now)
  {
    var m := |ids|;
    if id in ids {
      m :| 0 <= m < |ids| && ids[m] == id;
    }
    var at := (k: nat) => SweptTable(rows, ids, others, k, now);
    assert at(0) == rows;
    forall k: nat | k < |ids| ensures TurnDoes(at(k), at(k + 1), ids, k, id, now) {
      EachTurnDoes(rows, ids, others, k, id, now);
    }
    SweptFrom(at, ids, |ids|, id, m, now);
  }

  lemma SweptAre(rows: Table, ids: seq<JobId>, others: Others, now: real)
    requires StaleSet(rows, ids, now)
    ensures var after := RunRows(rows, SweepSteps(rows, ids, others, |ids|, now));
      forall id :: id in rows && LeftAlone(others, id) ==> id in after && after[id] == SweptRow(rows[id], now)
  {
    forall id | id in rows && LeftAlone(others, id)
      ensures var after := SweptTable(rows, ids, others, |ids|, now);
        id in after && after[id] == SweptRow(rows[id], now)
    {
      SweptIs(rows, ids, others, id, now);
    }
  }

  lemma {:induction false} RecoveriesAddNoRows(start: Table, run: seq<RowStep>)
    requires forall k :: 0 <= k < |run| ==> run[k].Recover?
    ensures RunRows(start, run).Keys == start.Keys
    decreases |run|
  {
    if run != [] { RecoveriesAddNoRows(ApplyRow(start, run[0]), run[1..]); }
  }

  lemma {:induction false} OnlyRecoveries(rows: Table, ids: seq<JobId>, others: Others, n: nat, now: real)
    requires n <= |ids| && Undisturbed(others)
    ensures forall s :: s in SweepSteps(rows, ids, others, n, now) ==> s.Recover?
  {
    if n > 0 {
      OnlyRecoveries(rows, ids, others, n - 1, now);
      assert others(2 * (n - 1)) == [] && others(2 * (n - 1) + 1) == [];
    }
  }

  /** An undisturbed sweep leaves no running row whose lease ended before it began. */
  lemma NothingStaleIsLeft(rows: Table, ids: seq<JobId>, others: Others, now: real)
    requires StaleSet(rows, ids, now) && Undisturbed(others)
    ensures var after := RunRows(rows, SweepSteps(rows, ids, others, |ids|, now));
      forall id :: id in after ==> !after[id].Stale(now)
  {
    var steps := SweepSteps(rows, ids, others, |ids|, now);
    OnlyRecoveries(rows, ids, others, |ids|, now);
    assert forall k :: 0 <= k < |steps| ==> steps[k] in steps;
    RecoveriesAddNoRows(rows, steps);
    SweptAre(rows, ids, others, now);
    forall id | id in RunRows(rows, steps) ensures !RunRows(rows, steps)[id].Stale(now) {
      assert id in RunRows(rows, steps).Keys && LeftAlone(others, id);
    }
  }

  /** The counters count the turns: every recovery, those that release the job and those that give it up. */
  lemma {:induction false} TallyCounts(turns: seq<TurnResult>)
    ensures var c := Tally(turns);
      && c.retried == Occurrences(turns, Retried) && c.failed == Occurrences(turns, GaveUp)
      && c.recovered == |turns| - Occurrences(turns, Skipped)
  {
    if turns != [] { TallyCounts(turns[..|turns| - 1]); }
  }

  function Occurrences(turns: seq<TurnResult>, r: TurnResult): (n: nat)
  {
    if turns == [] then 0
    else Occurrences(turns[..|turns| - 1], r) + if turns[|turns| - 1] == r then 1 else 0
  }

  /** A turn is counted as retried when it leaves the job pending again, as failed when it leaves it failed, and not
      at all when it does not touch it. */
  lemma TurnOutcomeMeans(rows: Table, id: JobId, others: Others, k: nat, now: real)
    requires NotBefore(others, now)
    ensures var late := RunRows(RunRows(rows, others(2 * k)), others(2 * k + 1));
      var after := RunRows(rows, TurnSteps(rows, id, others, k, now));
      match TurnOutcome(rows, id, others, k, now)
      case Skipped => after == RunRows(rows, others(2 * k)) || after == late
      case Retried =>
        id in late && late[id].Stale(now) && id in after && after == late[id := after[id]] && after[id].status.Pending?
      case GaveUp =>
        id in late && late[id].Stale(now) && id in after && after == late[id := after[id]] && after[id].status.Failed?
  {
    var seen := RunRows(rows, others(2 * k));
    if id in seen && seen[id].Stale(now) {
      RunConcat(rows, others(2 * k), others(2 * k + 1) + [Recover(id, now)]);
      RunOneMore(seen, others(2 * k + 1), Recover(id, now));
    }
  }
}
