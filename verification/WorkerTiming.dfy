/**
 What timely heartbeats buy, worker by worker and job by job, and what happens without them.
*/
module WorkerTiming {
  import opened Options
  import opened JobRows
  import opened Pipeline
  import opened WorkerProtocol
  import opened WorkerFencing

  // ---------- one timely worker ----------

  /** The worker's last claim or renewal is no longer ago than its lease lasts. */
  predicate OnTime(wd: World, s: State, w: WorkerId) {
    var session := s.SessionOf(w);
    !session.Idle? && w in wd.workers ==> s.clock <= session.beat + wd.workers[w].leaseSeconds
  }

  /** As long as a session owns its row, the row's lease runs from the session's last beat. */
  predicate LeaseFollowsBeat(wd: World, s: State, w: WorkerId) {
    var session := s.SessionOf(w);
    !session.Idle? && session.job in s.rows && s.rows[session.job].OwnedBy(w) ==>
      w in wd.workers && s.rows[session.job].leaseExpiresAt == Some(session.beat + wd.workers[w].leaseSeconds)
  }

  lemma LeaseStep(wd: World, s: State, step: Step, w: WorkerId)
    requires Inv(wd, s) && LeaseFollowsBeat(wd, s, w)
    ensures LeaseFollowsBeat(wd, Apply(wd, s, step), w)
  {
    assert SessionOk(wd, s, w);
    if step.Finish? { LeaseFinish(wd, s, step, w); } else { LeaseOther(wd, s, step, w); }
  }

  lemma LeaseOther(wd: World, s: State, step: Step, w: WorkerId)
    requires SessionOk(wd, s, w) && LeaseFollowsBeat(wd, s, w) && !step.Finish?
    ensures LeaseFollowsBeat(wd, Apply(wd, s, step), w)
  {
  }

  /** Ending an attempt makes nobody an owner: a row that is owned afterwards was left alone. */
  lemma EndingClaimsNothing(rows: Table, row: RowStep, w: WorkerId, id: JobId)
    requires row.Complete? || row.Fail?
    requires id in ApplyRow(rows, row) && ApplyRow(rows, row)[id].OwnedBy(w)
    ensures id in rows && ApplyRow(rows, row)[id] == rows[id]
  {
  }

  lemma FinishClaimsNothing(wd: World, s: State, step: Step, t: State, w: WorkerId, id: JobId)
    requires Inv(wd, s) && step.Finish? && s.SessionOf(step.worker).Working? && t.rows == Apply(wd, s, step).rows
    requires id in t.rows && t.rows[id].OwnedBy(w)
    ensures id in s.rows && t.rows[id] == s.rows[id]
  {
    var job := s.SessionOf(step.worker).job;
    if Succeeds(wd, s, step) {
      SuccessWrites(wd, s, step);
      EndingClaimsNothing(s.rows, Complete(job, s.clock), w, id);
    } else {
      var error := FailedFinish(wd, s, step);
      EndingClaimsNothing(s.rows, Fail(job, step.worker, error, step.draw, s.clock), w, id);
    }
  }

  lemma LeaseFinish(wd: World, s: State, step: Step, w: WorkerId)
    requires Inv(wd, s) && LeaseFollowsBeat(wd, s, w) && step.Finish?
    ensures LeaseFollowsBeat(wd, Apply(wd, s, step), w)
  {
    var t := Apply(wd, s, step);
    if !t.SessionOf(w).Idle? && s.SessionOf(step.worker).Working? {
      var id := t.SessionOf(w).job;
      if id in t.rows && t.rows[id].OwnedBy(w) { FinishClaimsNothing(wd, s, step, t, w, id); }
    }
  }

  lemma {:induction false} LeaseRun(wd: World, s: State, steps: seq<Step>, w: WorkerId)
    requires Inv(wd, s) && LeaseFollowsBeat(wd, s, w)
    ensures LeaseFollowsBeat(wd, Run(wd, s, steps), w) && Inv(wd, Run(wd, s, steps))
    decreases |steps|
  {
    if steps != [] {
      StepKeepsInv(wd, s, steps[0]);
      LeaseStep(wd, s, steps[0], w);
      LeaseRun(wd, Apply(wd, s, steps[0]), steps[1..], w);
    }
  }

  /** In every reachable state, whatever the other workers have done or failed to do: a sweep of the moment takes the
      job a live session owns if and only if that worker is late, and no sweep with an older timestamp takes it from a
      worker on time. */
  lemma SweptIffLate(wd: World, clock: real, steps: seq<Step>, w: WorkerId, at: real)
    requires var s := Run(wd, Init(clock), steps); var session := s.SessionOf(w);
      !session.Idle? && session.job in s.rows && s.rows[session.job].OwnedBy(w)
    ensures var s := Run(wd, Init(clock), steps); var id := s.SessionOf(w).job;
      && (Hits(s.rows, Recover(id, s.clock)) <==> !OnTime(wd, s, w))
      && (OnTime(wd, s, w) ==> Apply(wd, s, Sweep(id, at)).rows == s.rows)
  {
    InitInv(wd, clock);
    LeaseRun(wd, Init(clock), steps, w);
  }

  /** The worker is on time before every step of the run. */
  predicate OnTimeRun(wd: World, s: State, steps: seq<Step>, w: WorkerId)
    decreases |steps|
  {
    steps == [] || (OnTime(wd, s, w) && OnTimeRun(wd, Apply(wd, s, steps[0]), steps[1..], w))
  }

  /** At some step of the run somebody else's stale success completes the job the worker is on. */
  predicate Robbed(wd: World, s: State, steps: seq<Step>, w: WorkerId)
    decreases |steps|
  {
    && steps != []
    && ((!s.SessionOf(w).Idle? && StaleSuccess(wd, s, steps[0], s.SessionOf(w).job))
        || Robbed(wd, Apply(wd, s, steps[0]), steps[1..], w))
  }

  /** The worker of a live session owns its row, under the lease of its last beat. */
  predicate Held(wd: World, s: State, w: WorkerId) {
    var session := s.SessionOf(w);
    session.Idle? ||
    (&& w in wd.workers && session.job in s.rows && s.rows[session.job].OwnedBy(w)
     && s.rows[session.job].leaseExpiresAt == Some(session.beat + wd.workers[w].leaseSeconds))
  }

  /** Ending an attempt at one job, or under another worker's name, leaves a held row alone. */
  lemma EndingLeavesAlone(rows: Table, row: RowStep, w: WorkerId, id: JobId)
    requires id in rows && rows[id].OwnedBy(w)
    requires (row.Complete? && row.id != id) || (row.Fail? && row.worker != w)
    ensures id in ApplyRow(rows, row) && ApplyRow(rows, row)[id] == rows[id]
  {
  }

  lemma FinishLeavesAlone(wd: World, s: State, step: Step, t: State, w: WorkerId, id: JobId)
    requires Inv(wd, s) && step.Finish? && s.SessionOf(step.worker).Working? && t.rows == Apply(wd, s, step).rows
    requires id in s.rows && s.rows[id].OwnedBy(w) && step.worker != w && !StaleSuccess(wd, s, step, id)
    ensures id in t.rows && t.rows[id] == s.rows[id]
  {
    var job := s.SessionOf(step.worker).job;
    if Succeeds(wd, s, step) {
      SuccessWrites(wd, s, step);
      EndingLeavesAlone(s.rows, Complete(job, s.clock), w, id);
    } else {
      var error := FailedFinish(wd, s, step);
      EndingLeavesAlone(s.rows, Fail(job, step.worker, error, step.draw, s.clock), w, id);
    }
  }

  lemma HeldFinish(wd: World, s: State, step: Step, w: WorkerId)
    requires Inv(wd, s) && Held(wd, s, w) && step.Finish?
    requires !s.SessionOf(w).Idle? ==> !StaleSuccess(wd, s, step, s.SessionOf(w).job)
    ensures Held(wd, Apply(wd, s, step), w)
  {
    var t := Apply(wd, s, step);
    if !s.SessionOf(w).Idle? && s.SessionOf(step.worker).Working? && step.worker != w {
      FinishLeavesAlone(wd, s, step, t, w, s.SessionOf(w).job);
    }
  }

  lemma HeldStep(wd: World, s: State, step: Step, w: WorkerId)
    requires Inv(wd, s) && Held(wd, s, w) && OnTime(wd, s, w)
    requires !s.SessionOf(w).Idle? ==> !StaleSuccess(wd, s, step, s.SessionOf(w).job)
    ensures Held(wd, Apply(wd, s, step), w)
  {
    assert SessionOk(wd, s, w);
    if step.Finish? { HeldFinish(wd, s, step, w); } else { HeldOther(wd, s, step, w); }
  }

  lemma HeldOther(wd: World, s: State, step: Step, w: WorkerId)
    requires TableInv(s.rows) && SessionOk(wd, s, w)
    requires Held(wd, s, w) && OnTime(wd, s, w) && !step.Finish?
    ensures Held(wd, Apply(wd, s, step), w)
  {
  }

  /** A worker that renews in time keeps its claims over the whole run, however late everybody else is; the one thing
      that can still happen to it is that a late worker's stale success completes its job. */
  lemma {:induction false} TimelyWorkerKeepsItsClaims(wd: World, s: State, steps: seq<Step>, w: WorkerId)
    requires Inv(wd, s) && Held(wd, s, w) && OnTimeRun(wd, s, steps, w)
    ensures Held(wd, Run(wd, s, steps), w) || Robbed(wd, s, steps, w)
    decreases |steps|
  {
    if steps != [] && !Robbed(wd, s, steps, w) {
      StepKeepsInv(wd, s, steps[0]);
      HeldStep(wd, s, steps[0], w);
      TimelyWorkerKeepsItsClaims(wd, Apply(wd, s, steps[0]), steps[1..], w);
    }
  }

  // ---------- heartbeats ----------

  /** How long the worker has been silent after the step: since its last claim or its last renewal of the job it is
      on. */
  function Silence(wd: World, s: State, step: Step, w: WorkerId, before: real): real {
    if step.Tick? then before + (if step.elapsed < 0.0 then 0.0 else step.elapsed)
    else if step.Beat? && step.worker == w && !s.SessionOf(w).Idle? && s.SessionOf(w).job == step.id then 0.0
    else if step.Take? && step.worker == w && s.SessionOf(w).Idle? then 0.0
    else before
  }

  /** While the worker has a session, no silence exceeds `most`. */
  predicate Punctual(wd: World, s: State, steps: seq<Step>, w: WorkerId, silent: real, most: real)
    decreases |steps|
  {
    && (s.SessionOf(w).Idle? || silent <= most)
    && (steps == [] || Punctual(wd, Apply(wd, s, steps[0]), steps[1..], w, Silence(wd, s, steps[0], w, silent), most))
  }

  /** A valid configuration leaves slack: a worker that renews every heartbeatSeconds, each time late by less than
      leaseSeconds - heartbeatSeconds, is on time throughout. */
  lemma {:induction false} PunctualIsOnTime(
    wd: World, s: State, steps: seq<Step>, w: WorkerId, silent: real, late: real)
    requires wd.Valid() && w in wd.workers
    requires 0.0 <= late <= wd.workers[w].leaseSeconds - wd.workers[w].heartbeatSeconds
    requires !s.SessionOf(w).Idle? ==> silent == s.clock - s.SessionOf(w).beat
    requires Punctual(wd, s, steps, w, silent, wd.workers[w].heartbeatSeconds + late)
    ensures OnTimeRun(wd, s, steps, w)
    ensures wd.workers[w].leaseSeconds - wd.workers[w].heartbeatSeconds > 0.0
    decreases |steps|
  {
    if steps != [] {
      PunctualIsOnTime(wd, Apply(wd, s, steps[0]), steps[1..], w, Silence(wd, s, steps[0], w, silent), late);
    }
  }

  // ---------- the workers of one job ----------

  /** Every worker whose session is on the job is on time; workers on other jobs may be as late as they like. */
  ghost predicate JobOnTime(wd: World, s: State, id: JobId) {
    forall w {:trigger OnTime(wd, s, w)} {:trigger s.SessionOf(w)} ::
      !s.SessionOf(w).Idle? && s.SessionOf(w).job == id ==> OnTime(wd, s, w)
  }

  ghost predicate JobTimelyRun(wd: World, s: State, steps: seq<Step>, id: JobId)
    decreases |steps|
  {
    steps == [] || (JobOnTime(wd, s, id) && JobTimelyRun(wd, Apply(wd, s, steps[0]), steps[1..], id))
  }

  ghost predicate JobHeld(wd: World, s: State, id: JobId) {
    forall w {:trigger Held(wd, s, w)} {:trigger s.SessionOf(w)} ::
      !s.SessionOf(w).Idle? && s.SessionOf(w).job == id ==> Held(wd, s, w)
  }

  lemma JobHeldStep(wd: World, s: State, step: Step, id: JobId)
    requires Inv(wd, s) && JobHeld(wd, s, id) && JobOnTime(wd, s, id)
    ensures !StaleSuccess(wd, s, step, id)
    ensures JobHeld(wd, Apply(wd, s, step), id)
  {
    var t := Apply(wd, s, step);
    HeldIsNotStale(wd, s, step, id);
    forall w | !t.SessionOf(w).Idle? && t.SessionOf(w).job == id ensures Held(wd, t, w) {
      if s.SessionOf(w).Idle? {
        TakenIsHeld(wd, s, step, w);
      } else {
        SameJobStill(wd, s, step, w);
        assert Held(wd, s, w) && OnTime(wd, s, w);
        HeldStep(wd, s, step, w);
      }
    }
  }

  lemma HeldIsNotStale(wd: World, s: State, step: Step, id: JobId)
    requires JobHeld(wd, s, id)
    ensures !StaleSuccess(wd, s, step, id)
  {
    if StaleSuccess(wd, s, step, id) { assert Held(wd, s, step.worker); }
  }

  lemma TakenIsHeld(wd: World, s: State, step: Step, w: WorkerId)
    requires s.SessionOf(w).Idle?
    ensures Held(wd, Apply(wd, s, step), w)
  {
  }

  lemma SameJobStill(wd: World, s: State, step: Step, w: WorkerId)
    requires !s.SessionOf(w).Idle? && !Apply(wd, s, step).SessionOf(w).Idle?
    ensures Apply(wd, s, step).SessionOf(w).job == s.SessionOf(w).job
  {
  }

  /** If the workers on a job renew in time, none of them loses it to a sweep, and nobody completes it without holding
      it: the check against the loaded copy is then as good as a fresh read. */
  lemma {:induction false} TimelyRunIsFenced(wd: World, s: State, steps: seq<Step>, id: JobId)
    requires Inv(wd, s) && JobHeld(wd, s, id) && JobTimelyRun(wd, s, steps, id)
    ensures FencedRun(wd, s, steps, id) && JobHeld(wd, Run(wd, s, steps), id) && Inv(wd, Run(wd, s, steps))
    decreases |steps|
  {
    if steps != [] {
      StepKeepsInv(wd, s, steps[0]);
      JobHeldStep(wd, s, steps[0], id);
      TimelyRunIsFenced(wd, Apply(wd, s, steps[0]), steps[1..], id);
    }
  }

  lemma {:induction false} TimelyRunSplits(wd: World, s: State, steps: seq<Step>, more: seq<Step>, id: JobId)
    requires JobTimelyRun(wd, s, steps + more, id)
    ensures JobTimelyRun(wd, s, steps, id) && JobTimelyRun(wd, Run(wd, s, steps), more, id)
    ensures Run(wd, s, steps + more) == Run(wd, Run(wd, s, steps), more)
    decreases |steps|
  {
    if steps == [] {
      assert steps + more == more;
    } else {
      assert (steps + more)[1..] == steps[1..] + more;
      TimelyRunSplits(wd, Apply(wd, s, steps[0]), steps[1..], more, id);
    }
  }

  /** In a run in which the workers on a job renew in time, the job has at most one terminal write, and from the first
      state in which it is completed or failed its row and its items stay as they are. */
  lemma TimelyTerminalIsFinal(wd: World, clock: real, steps: seq<Step>, more: seq<Step>, id: JobId)
    requires JobTimelyRun(wd, Init(clock), steps + more, id)
    ensures EndWrites(wd, Init(clock), steps + more, id) <= 1
    ensures Ended(Run(wd, Init(clock), steps), id) ==>
      SameJob(Run(wd, Init(clock), steps), Run(wd, Init(clock), steps + more), id)
  {
    var start := Init(clock);
    InitInv(wd, clock);
    TimelyRunIsFenced(wd, start, steps + more, id);
    FencedTerminalIsFinal(wd, start, steps + more, id);
    TimelyRunSplits(wd, start, steps, more, id);
    TimelyRunIsFenced(wd, start, steps, id);
    TimelyRunIsFenced(wd, Run(wd, start, steps), more, id);
    FencedTerminalIsFinal(wd, Run(wd, start, steps), more, id);
  }

  // ---------- without timeliness ----------

  const LATE_WORKER := WorkerConfig(120.0, 30.0, 1)
  const LATE_WORLD := World(map["doc" := []], map["a" := LATE_WORKER])

  /** The worker stalls past its lease; a sweep fails the job; the worker then reports success. */
  const LATE_RUN := [Submit("j", "doc", "f"), Take("a", "j"), Load("a"), Tick(121.0), Sweep("j", 121.0)]

  const LATE_CLAIM := Apply(LATE_WORLD, Apply(LATE_WORLD, Init(0.0), LATE_RUN[0]), LATE_RUN[1])
  const LATE_SWEPT := Apply(LATE_WORLD,
    Apply(LATE_WORLD, Apply(LATE_WORLD, LATE_CLAIM, LATE_RUN[2]), LATE_RUN[3]), LATE_RUN[4])

  lemma LateRunEnds()
    ensures Run(LATE_WORLD, Init(0.0), LATE_RUN) == LATE_SWEPT
  {
    RunTwo(LATE_WORLD, Init(0.0), LATE_RUN);
    RunTwo(LATE_WORLD, LATE_CLAIM, LATE_RUN[2..]);
    assert LATE_RUN[2..][2..] == LATE_RUN[4..];
    assert LATE_RUN[4..][1..] == [];
  }

  lemma LateWorkerStillWorks()
    ensures "j" in LATE_SWEPT.rows && LATE_SWEPT.rows["j"].status.Failed?
    ensures "j" in LATE_CLAIM.rows && LATE_CLAIM.rows["j"].OwnedBy("a") && LATE_CLAIM.rows["j"].documentId == "doc"
    ensures LATE_SWEPT.SessionOf("a") == Working("j", 0.0, LATE_CLAIM.rows["j"], []) && LATE_SWEPT.results == map[]
  {
    var s1 := Apply(LATE_WORLD, Init(0.0), LATE_RUN[0]);
    assert "j" in s1.rows && s1.rows["j"].Claimable(0.0);
    assert LATE_CLAIM.SessionOf("a") == Claimed("j", 0.0);
    var s3 := Apply(LATE_WORLD, LATE_CLAIM, LATE_RUN[2]);
    assert s3.SessionOf("a") == Working("j", 0.0, LATE_CLAIM.rows["j"], []);
  }

  lemma LateFinishCompletes(s: State, loaded: Job)
    requires s.SessionOf("a") == Working("j", 0.0, loaded, []) && loaded.OwnedBy("a") && loaded.documentId == "doc"
    requires "j" in s.rows && s.results == map[]
    ensures var finish := Finish("a", None, [], 0.0); var t := Apply(LATE_WORLD, s, finish);
      Succeeds(LATE_WORLD, s, finish) && "j" in t.rows && t.rows["j"].status.Completed?
  {
    assert LATE_WORLD.ClausesOf("doc") == [];
    assert Attempt("doc", [], None, []) == Items([]);
  }

  /** The lease is what the success write depends on: without timely heartbeats a failed job becomes completed, a second
      terminal write. */
  lemma LateSuccessOverwritesFailure()
    ensures LATE_WORLD.Valid()
    ensures var s := Run(LATE_WORLD, Init(0.0), LATE_RUN); var finish := Finish("a", None, [], 0.0);
      && "j" in s.rows && s.rows["j"].status.Failed? && Overwrites(LATE_WORLD, s, finish, "j")
      && var t := Apply(LATE_WORLD, s, finish); "j" in t.rows && t.rows["j"].status.Completed?
  {
    LateRunEnds();
    LateWorkerStillWorks();
    LateFinishCompletes(LATE_SWEPT, LATE_CLAIM.rows["j"]);
  }

  lemma RunTwo(wd: World, s: State, steps: seq<Step>)
    requires |steps| >= 2
    ensures Run(wd, s, steps) == Run(wd, Apply(wd, Apply(wd, s, steps[0]), steps[1]), steps[2..])
  {
    assert steps[1..][1..] == steps[2..];
  }

  // ---------- the undisturbed case ----------

  /** One item per clause, holding the clause's answer. */
  predicate Answered(items: seq<Item>, clauses: seq<Clause>, outcomes: seq<Outcome>) {
    && |items| == |clauses|
    && forall k :: 0 <= k < |clauses| ==>
         && OutcomeAt(outcomes, k).Responded?
         && items[k] == Item(clauses[k].id, clauses[k].referenceId, OutcomeAt(outcomes, k).payload)
  }

  lemma HeldFinishCompletes(wd: World, s: State, w: WorkerId, id: JobId, outcomes: seq<Outcome>, draw: real)
    requires Inv(wd, s) && s.SessionOf(w).Working? && s.SessionOf(w).job == id
    requires id in s.rows && s.rows[id].status.Running?
    requires var documentId := s.SessionOf(w).loaded.documentId; AllPass(documentId, wd.ClausesOf(documentId), outcomes)
    ensures var t := Apply(wd, s, Finish(w, None, outcomes, draw));
      && id in t.rows && t.rows[id].status.Completed?
      && Answered(t.ItemsOf(id), wd.ClausesOf(s.SessionOf(w).loaded.documentId), outcomes)
  {
    var step := Finish(w, None, outcomes, draw);
    assert ResultOk(wd, s, id);
    SucceedsIff(wd, s, step);
    SuccessWrites(wd, s, step);
    SuccessStoresAnswers(wd, s, step);
  }

  /** An idle worker that takes a claimable job, loads it and has every clause answered completes it with all answers.
  */
  lemma UndisturbedWorkerCompletes(wd: World, s: State, w: WorkerId, id: JobId, outcomes: seq<Outcome>, draw: real)
    requires Inv(wd, s) && w in wd.workers && s.SessionOf(w).Idle?
    requires id in s.rows && s.rows[id].Claimable(s.clock)
    requires AllPass(s.rows[id].documentId, wd.ClausesOf(s.rows[id].documentId), outcomes)
    ensures var t := Run(wd, s, [Take(w, id), Load(w), Finish(w, None, outcomes, draw)]);
      && id in t.rows && t.rows[id].status.Completed?
      && Answered(t.ItemsOf(id), wd.ClausesOf(s.rows[id].documentId), outcomes)
  {
    var steps := [Take(w, id), Load(w), Finish(w, None, outcomes, draw)];
    var a := Apply(wd, s, steps[0]);
    var b := Apply(wd, a, steps[1]);
    StepKeepsInv(wd, s, steps[0]);
    StepKeepsInv(wd, a, steps[1]);
    TakenAndLoaded(wd, s, a, b, w, id);
    HeldFinishCompletes(wd, b, w, id, outcomes, draw);
    ThreeSteps(wd, s, steps);
  }

  lemma TakenAndLoaded(wd: World, s: State, a: State, b: State, w: WorkerId, id: JobId)
    requires w in wd.workers && s.SessionOf(w).Idle? && id in s.rows && s.rows[id].Claimable(s.clock)
    requires a == Apply(wd, s, Take(w, id)) && b == Apply(wd, a, Load(w))
    ensures b.SessionOf(w).Working? && b.SessionOf(w).job == id && id in b.rows && b.rows[id].status.Running?
    ensures b.SessionOf(w).loaded.documentId == s.rows[id].documentId && b.rows[id].documentId == s.rows[id].documentId
  {
    assert a.SessionOf(w) == Claimed(id, s.clock) && a.rows[id].OwnedBy(w);
    assert b.SessionOf(w) == Working(id, s.clock, a.rows[id], a.ItemsOf(id));
  }

  lemma ThreeSteps(wd: World, s: State, steps: seq<Step>)
    requires |steps| == 3
    ensures Run(wd, s, steps) == Apply(wd, Apply(wd, Apply(wd, s, steps[0]), steps[1]), steps[2])
  {
    RunTwo(wd, s, steps);
    assert steps[2..][1..] == [];
  }

  // ---------- when a worker is free again ----------

  /** A finish, a crash, and a load that finds the claim gone end the session, and nothing but the worker's own steps
      moves it; only an idle worker takes a job. */
  lemma SessionEnds(wd: World, s: State, step: Step, w: WorkerId)
    ensures var before, after := s.SessionOf(w), Apply(wd, s, step).SessionOf(w);
      && (step == Crash(w) ==> after.Idle?)
      && (step.Finish? && step.worker == w && before.Working? ==> after.Idle?)
      && (step == Load(w) && before.Claimed? ==>
            if before.job in s.rows && s.rows[before.job].OwnedBy(w) then
              after.Working? && after.job == before.job && after.loaded == s.rows[before.job]
            else after.Idle?)
      && (before.Idle? && !after.Idle? ==>
            step.Take? && step.worker == w && after == Claimed(step.id, s.clock)
            && Apply(wd, s, step).rows[step.id].OwnedBy(w))
      && (step.Tick? || step.Submit? || step.Sweep? || step.worker != w ==> after == before)
  {
  }
}
