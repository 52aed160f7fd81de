/**
 What the protocol guarantees over whole runs: results all-or-nothing, claims that move only by their
 owner or by expiry, and terminal rows that only a stale success can write again.
*/
module WorkerFencing {
  import opened Options
  import opened JobRows
  import opened Pipeline
  import opened WorkerProtocol

  // ---------- results ----------

  /** After any run whatever (failed attempts, retries, lost claims, crashes, overlapping workers), a job owns
      its full set of results or none: completed means exactly one item per clause in ordinal order, each
      under document:clause:ordinal, and anything else means no item. */
  lemma ResultsAllOrNothing(wd: World, clock: real, steps: seq<Step>, id: JobId)
    ensures var s := Run(wd, Init(clock), steps);
      if id in s.rows && s.rows[id].status.Completed?
      then FullSet(s.ItemsOf(id), s.rows[id].documentId, wd.StoredClauses(s.rows[id].documentId))
        && |s.ItemsOf(id)| == |wd.StoredClauses(s.rows[id].documentId)|
      else s.ItemsOf(id) == []
  {
    InitInv(wd, clock);
    RunKeepsInv(wd, Init(clock), steps);
    var s := Run(wd, Init(clock), steps);
    assert ResultOk(wd, s, id);
    if id in s.rows && s.rows[id].status.Completed? { MatchIsFullSet(wd, s.ItemsOf(id), s.rows[id].documentId); }
  }

  // ---------- who may move a claim ----------

  /** A success written by a worker whose claim of the job is gone. */
  predicate StaleSuccess(wd: World, s: State, step: Step, id: JobId) {
    && Succeeds(wd, s, step) && s.SessionOf(step.worker).job == id
    && id in s.rows && !s.rows[id].OwnedBy(step.worker)
  }

  /** The row of a running job changes only by its own worker's heartbeat or finish, by a sweep that finds the
      lease expired, or by a stale success; nothing else any worker does can touch it. */
  lemma OnlyOwnerOrExpiryMovesAClaim(wd: World, s: State, step: Step, id: JobId, w: WorkerId)
    requires Inv(wd, s) && id in s.rows && s.rows[id].OwnedBy(w)
    requires Apply(wd, s, step).rows[id] != s.rows[id]
    ensures || step == Beat(w, id)
            || (step.Finish? && step.worker == w && s.SessionOf(w).Working? && s.SessionOf(w).job == id)
            || (step.Sweep? && step.id == id && s.rows[id].Stale(step.at) && step.at <= s.clock)
            || StaleSuccess(wd, s, step, id)
  {
    if step.Finish? && s.SessionOf(step.worker).Working? {
      if Succeeds(wd, s, step) {
        SuccessWrites(wd, s, step);
      } else {
        var _ := FailedFinish(wd, s, step);
      }
    }
  }

  /** The session works on a job whose row no longer shows its claim. */
  predicate LostClaim(s: State, w: WorkerId) {
    s.SessionOf(w).Working? && s.SessionOf(w).job in s.rows && !s.rows[s.SessionOf(w).job].OwnedBy(w)
  }

  /** A claim once lost stays lost for as long as the session runs: renewals report failure and change
      nothing, and so does every failing finish. */
  lemma {:induction false} LostClaimsStayLost(wd: World, s: State, steps: seq<Step>, w: WorkerId)
    requires Inv(wd, s) && LostClaim(s, w)
    requires forall k :: 0 <= k < |steps| ==> !(steps[k].Finish? && steps[k].worker == w) && steps[k] != Crash(w)
    ensures LostClaim(Run(wd, s, steps), w)
    ensures Run(wd, s, steps).SessionOf(w).job == s.SessionOf(w).job
    ensures var t := Run(wd, s, steps);
      && !Hits(t.rows, Renew(t.SessionOf(w).job, w, 1.0, t.clock))
      && Apply(wd, t, Beat(w, t.SessionOf(w).job)).rows == t.rows
    decreases |steps|
  {
    if steps != [] {
      StepKeepsInv(wd, s, steps[0]);
      LostClaimStep(wd, s, steps[0], w);
      LostClaimsStayLost(wd, Apply(wd, s, steps[0]), steps[1..], w);
    }
  }

  lemma LostClaimStep(wd: World, s: State, step: Step, w: WorkerId)
    requires Inv(wd, s) && LostClaim(s, w)
    requires !(step.Finish? && step.worker == w) && step != Crash(w)
    ensures LostClaim(Apply(wd, s, step), w)
    ensures Apply(wd, s, step).SessionOf(w).job == s.SessionOf(w).job
  {
    assert SessionOk(wd, s, w);
    if step.Finish? {
      LostClaimFinish(wd, s, step, w);
    } else {
      LostClaimOther(wd, s, step, w);
    }
  }

  lemma LostClaimOther(wd: World, s: State, step: Step, w: WorkerId)
    requires TableInv(s.rows) && SessionOk(wd, s, w) && LostClaim(s, w) && !step.Finish? && step != Crash(w)
    ensures LostClaim(Apply(wd, s, step), w)
    ensures Apply(wd, s, step).SessionOf(w).job == s.SessionOf(w).job
  {
  }

  lemma LostClaimFinish(wd: World, s: State, step: Step, w: WorkerId)
    requires Inv(wd, s) && LostClaim(s, w) && step.Finish? && step.worker != w
    ensures LostClaim(Apply(wd, s, step), w)
    ensures Apply(wd, s, step).SessionOf(w) == s.SessionOf(w)
  {
    if s.SessionOf(step.worker).Working? {
      if Succeeds(wd, s, step) {
        SuccessWrites(wd, s, step);
      } else {
        var _ := FailedFinish(wd, s, step);
      }
    }
  }

  /** After a lost claim a finish that does not complete the job reports "claim_lost" and writes nothing. */
  lemma LostClaimFailureIsHarmless(wd: World, s: State, step: Step)
    requires Inv(wd, s) && step.Finish? && LostClaim(s, step.worker) && !Succeeds(wd, s, step)
    ensures Finishing(wd, s, step.worker, step.setup, step.outcomes, step.draw).outcome == "claim_lost"
    ensures Apply(wd, s, step).rows == s.rows && Apply(wd, s, step).results == s.results
  {
    var _ := FailedFinish(wd, s, step);
  }

  // ---------- the success write ----------

  /** The completion belongs to the attempt the worker was given. */
  predicate CompletesOwnAttempt(s: State, w: WorkerId)
    requires s.SessionOf(w).Working?
  {
    var session := s.SessionOf(w);
    && session.job in s.rows && s.rows[session.job].status.Running?
    && s.rows[session.job].attemptCount == session.loaded.attemptCount
  }

  /** The guard inside the success write looks at the loaded copy, so it always passes; a completion ends the
      worker's own attempt if and only if the stored row still names the worker, which is the check a
      fresh read would make.  Read, check and write as one atomic step is therefore exactly what fencing needs. */
  lemma SuccessIsFencedIff(wd: World, s: State, step: Step)
    requires Inv(wd, s) && Succeeds(wd, s, step)
    ensures s.SessionOf(step.worker).loaded.OwnedBy(step.worker)
    ensures s.SessionOf(step.worker).job in s.rows
    ensures CompletesOwnAttempt(s, step.worker) <==> s.rows[s.SessionOf(step.worker).job].OwnedBy(step.worker)
    ensures Apply(wd, s, step).rows[s.SessionOf(step.worker).job].status.Completed?
  {
    assert SessionOk(wd, s, step.worker);
    SuccessWrites(wd, s, step);
  }

  predicate Ended(s: State, id: JobId) { id in s.rows && s.rows[id].Terminal() }

  /** A stale success that writes over a job already completed or failed. */
  predicate Overwrites(wd: World, s: State, step: Step, id: JobId) { Ended(s, id) && StaleSuccess(wd, s, step, id) }

  predicate SameJob(s: State, t: State, id: JobId) {
    id in s.rows && id in t.rows && t.rows[id] == s.rows[id] && t.ItemsOf(id) == s.ItemsOf(id)
  }

  /** The step writes completed or failed on the job: it ends it, completes it again, or changes the ended row or its
      items. */
  predicate WritesEnd(wd: World, s: State, step: Step, id: JobId) {
    var t := Apply(wd, s, step);
    && Ended(t, id)
    && (!Ended(s, id) || !SameJob(s, t, id) || (Succeeds(wd, s, step) && s.SessionOf(step.worker).job == id))
  }

  /** A step that does not complete the job leaves its ended row and its items alone. */
  lemma EndedUntouched(wd: World, s: State, step: Step, id: JobId)
    requires Inv(wd, s) && Ended(s, id) && !(Succeeds(wd, s, step) && s.SessionOf(step.worker).job == id)
    ensures SameJob(s, Apply(wd, s, step), id)
  {
    if step.Finish? { EndedUntouchedByFinish(wd, s, step, id); }
  }

  lemma EndedUntouchedByFinish(wd: World, s: State, step: Step, id: JobId)
    requires Inv(wd, s) && step.Finish? && Ended(s, id)
    requires !(Succeeds(wd, s, step) && s.SessionOf(step.worker).job == id)
    ensures SameJob(s, Apply(wd, s, step), id)
  {
    if s.SessionOf(step.worker).Working? {
      if Succeeds(wd, s, step) {
        SuccessWrites(wd, s, step);
      } else {
        var _ := FailedFinish(wd, s, step);
      }
    }
  }

  /** What can still happen to an ended job: it stays ended; it is written again exactly by a stale success; its status
      changes exactly when that success finds it failed; and a completed job keeps its items even then. */
  lemma EndedStep(wd: World, s: State, step: Step, id: JobId)
    requires Inv(wd, s) && Ended(s, id)
    ensures var t := Apply(wd, s, step);
      && Ended(t, id)
      && (WritesEnd(wd, s, step, id) <==> Overwrites(wd, s, step, id))
      && (!Overwrites(wd, s, step, id) ==> SameJob(s, t, id))
      && (t.rows[id].status != s.rows[id].status <==> Overwrites(wd, s, step, id) && s.rows[id].status.Failed?)
      && (s.rows[id].status.Completed? ==> t.ItemsOf(id) == s.ItemsOf(id))
  {
    if Succeeds(wd, s, step) && s.SessionOf(step.worker).job == id {
      SuccessWrites(wd, s, step);
      if s.rows[id].status.Completed? { CompletedKeepsItems(wd, s, step, id); }
    } else {
      EndedUntouched(wd, s, step, id);
    }
  }

  /** A completed job that is completed again has no clauses, or the unique constraint would have refused the items. */
  lemma CompletedKeepsItems(wd: World, s: State, step: Step, id: JobId)
    requires Inv(wd, s) && Succeeds(wd, s, step) && s.SessionOf(step.worker).job == id
    requires id in s.rows && s.rows[id].status.Completed?
    ensures Apply(wd, s, step).ItemsOf(id) == s.ItemsOf(id) == []
  {
    assert SessionOk(wd, s, step.worker) && ResultOk(wd, s, id);
    var session := s.SessionOf(step.worker);
    var documentId := session.loaded.documentId;
    var clauses := wd.ClausesOf(documentId);
    var attempt := Attempt(documentId, clauses, step.setup, step.outcomes);
    AttemptItemsMatch(documentId, clauses, step.setup, step.outcomes, attempt.items);
    SurvivorsOfNothingSeen(s.ItemsOf(id));
    SecondCopyConflicts(s.ItemsOf(id), attempt.items, documentId, clauses);
    assert s.ItemsOf(id) + attempt.items == attempt.items;
  }

  function EndWrites(wd: World, s: State, steps: seq<Step>, id: JobId): nat
    decreases |steps|
  {
    if steps == [] then 0 else
    (if WritesEnd(wd, s, steps[0], id) then 1 else 0) + EndWrites(wd, Apply(wd, s, steps[0]), steps[1..], id)
  }

  function OverwriteCount(wd: World, s: State, steps: seq<Step>, id: JobId): nat
    decreases |steps|
  {
    if steps == [] then 0 else
    (if Overwrites(wd, s, steps[0], id) then 1 else 0) + OverwriteCount(wd, Apply(wd, s, steps[0]), steps[1..], id)
  }

  /** Over any run the terminal writes of a job are its ending, if it has ended by then, and every stale success that
      wrote over it, counted exactly; and without such an overwrite an ended job never changes. */
  lemma {:induction false} EndWritesCounted(wd: World, s: State, steps: seq<Step>, id: JobId)
    requires Inv(wd, s)
    ensures EndWrites(wd, s, steps, id) + (if Ended(s, id) then 1 else 0)
         == OverwriteCount(wd, s, steps, id) + (if Ended(Run(wd, s, steps), id) then 1 else 0)
    ensures Ended(s, id) ==> Ended(Run(wd, s, steps), id)
    ensures Ended(s, id) && OverwriteCount(wd, s, steps, id) == 0 ==> SameJob(s, Run(wd, s, steps), id)
    decreases |steps|
  {
    if steps != [] {
      StepKeepsInv(wd, s, steps[0]);
      if Ended(s, id) { EndedStep(wd, s, steps[0], id); }
      EndWritesCounted(wd, Apply(wd, s, steps[0]), steps[1..], id);
    }
  }

  /** A job has at most one terminal write if and only if no worker reports success over its ended row. */
  lemma OneEndIff(wd: World, clock: real, steps: seq<Step>, id: JobId)
    ensures EndWrites(wd, Init(clock), steps, id) <= 1 <==> OverwriteCount(wd, Init(clock), steps, id) == 0
  {
    InitInv(wd, clock);
    EndWritesCounted(wd, Init(clock), steps, id);
    if OverwriteCount(wd, Init(clock), steps, id) > 0 { OverwrittenHasEnded(wd, Init(clock), steps, id); }
  }

  lemma {:induction false} OverwrittenHasEnded(wd: World, s: State, steps: seq<Step>, id: JobId)
    requires Inv(wd, s) && OverwriteCount(wd, s, steps, id) > 0
    ensures Ended(Run(wd, s, steps), id)
    decreases |steps|
  {
    StepKeepsInv(wd, s, steps[0]);
    if Overwrites(wd, s, steps[0], id) {
      EndedStep(wd, s, steps[0], id);
      EndWritesCounted(wd, Apply(wd, s, steps[0]), steps[1..], id);
    } else {
      OverwrittenHasEnded(wd, Apply(wd, s, steps[0]), steps[1..], id);
    }
  }

  /** The premise that reading, checking and writing a success is one atomic step, for one job: nobody completes it
      without holding it.  Nothing is assumed about heartbeats or about other jobs. */
  predicate FencedRun(wd: World, s: State, steps: seq<Step>, id: JobId)
    decreases |steps|
  {
    steps == [] || (!StaleSuccess(wd, s, steps[0], id) && FencedRun(wd, Apply(wd, s, steps[0]), steps[1..], id))
  }

  lemma {:induction false} FencedIsNotOverwritten(wd: World, s: State, steps: seq<Step>, id: JobId)
    requires FencedRun(wd, s, steps, id)
    ensures OverwriteCount(wd, s, steps, id) == 0
    decreases |steps|
  {
    if steps != [] { FencedIsNotOverwritten(wd, Apply(wd, s, steps[0]), steps[1..], id); }
  }

  /** In a fenced run completed and failed are absorbing, row and items alike, and a job has at most one terminal
      write. */
  lemma FencedTerminalIsFinal(wd: World, s: State, steps: seq<Step>, id: JobId)
    requires Inv(wd, s) && FencedRun(wd, s, steps, id)
    ensures Ended(s, id) ==> SameJob(s, Run(wd, s, steps), id)
    ensures EndWrites(wd, s, steps, id) + (if Ended(s, id) then 1 else 0) <= 1
  {
    FencedIsNotOverwritten(wd, s, steps, id);
    EndWritesCounted(wd, s, steps, id);
  }
}
