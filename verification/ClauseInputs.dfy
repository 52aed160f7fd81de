/** What masking a clause has to do with its job: a job completes only if every clause of its document can be
    prepared. */
module ClauseInputs {
  import opened Options
  import opened JobRows
  import opened Pipeline
  import opened WorkerProtocol
  import Sorting
  import D = Detection
  import M = MaskDocument

  /** The decrypted clause bodies by clause identifier, and the detector. */
  datatype Masker = Masker(bodies: string -> string, groups: seq<D.LabelGroup>, patterns: seq<D.TextPattern>)
  {
    ghost predicate InputIs(c: Clause, input: M.ProviderInput) {
      && D.AllNamed(groups)
      && exists entities, masked, selected, rest ::
           M.Built(c.referenceId, bodies(c.id), groups, patterns, input, entities, masked, selected, rest)
    }

    ghost predicate Prepares(c: Clause) { exists input :: InputIs(c, input) && input.Prepared? }
  }

  /** A clause has one input. */
  lemma OneInput(m: Masker, c: Clause, a: M.ProviderInput, b: M.ProviderInput)
    requires m.InputIs(c, a) && m.InputIs(c, b)
    ensures a == b
  {
    var ea, ma, sa, ra :| M.Built(c.referenceId, m.bodies(c.id), m.groups, m.patterns, a, ea, ma, sa, ra);
    var eb, mb, sb, rb :| M.Built(c.referenceId, m.bodies(c.id), m.groups, m.patterns, b, eb, mb, sb, rb);
    M.InputIsDetermined(c.referenceId, m.bodies(c.id), m.groups, m.patterns, a, ea, ma, sa, ra, b, eb, mb, sb, rb);
  }

  /** Every error of the preparation is a ValueError, which counts as no provider error; only a prepared input is
      answered, whatever the answer. */
  function OutcomeOf(input: M.ProviderInput, answer: Outcome): Outcome {
    if input.Prepared? then answer else Raised(OtherError)
  }

  ghost predicate ComesFrom(m: Masker, c: Clause, outcome: Outcome) {
    exists input, answer :: m.InputIs(c, input) && outcome == OutcomeOf(input, answer)
  }

  /** The outcomes of an attempt come from the clauses' bodies. */
  ghost predicate Respects(m: Masker, clauses: seq<Clause>, outcomes: seq<Outcome>) {
    forall k :: 0 <= k < |clauses| && k < |outcomes| ==> ComesFrom(m, clauses[k], outcomes[k])
  }

  lemma UnpreparedRaises(m: Masker, clauses: seq<Clause>, outcomes: seq<Outcome>, k: nat, input: M.ProviderInput)
    requires Respects(m, clauses, outcomes) && k < |clauses|
    requires m.InputIs(clauses[k], input) && !input.Prepared?
    ensures OutcomeAt(outcomes, k) == Raised(OtherError)
  {
    if k < |outcomes| {
      assert ComesFrom(m, clauses[k], outcomes[k]);
      var other, answer :| m.InputIs(clauses[k], other) && outcomes[k] == OutcomeOf(other, answer);
      OneInput(m, clauses[k], input, other);
    }
  }

  /** An attempt that reaches the end has prepared every clause. */
  lemma FinishedIsPrepared(m: Masker, documentId: string, clauses: seq<Clause>, setup: Option<AnalysisError>,
                           outcomes: seq<Outcome>)
    requires Respects(m, clauses, outcomes) && Attempt(documentId, clauses, setup, outcomes).Items?
    ensures forall k :: 0 <= k < |clauses| ==> m.Prepares(clauses[k])
  {
    AttemptFromIs(documentId, clauses, outcomes, 0);
    var items := Attempt(documentId, clauses, setup, outcomes).items;
    forall k | 0 <= k < |clauses| ensures m.Prepares(clauses[k]) {
      assert ItemFor(items[k], documentId, clauses[0 + k], OutcomeAt(outcomes, 0 + k));
      assert k < |outcomes| && ComesFrom(m, clauses[k], outcomes[k]);
    }
  }

  lemma FinishedPasses(documentId: string, clauses: seq<Clause>, outcomes: seq<Outcome>)
    ensures Attempt(documentId, clauses, None, outcomes).Items? ==>
      forall k :: 0 <= k < |clauses| ==> Passes(documentId, clauses[k], OutcomeAt(outcomes, k))
  {
    AttemptFromIs(documentId, clauses, outcomes, 0);
    var r := Attempt(documentId, clauses, None, outcomes);
    if r.Items? {
      forall k | 0 <= k < |clauses| ensures Passes(documentId, clauses[k], OutcomeAt(outcomes, k)) {
        assert ItemFor(r.items[k], documentId, clauses[0 + k], OutcomeAt(outcomes, 0 + k));
      }
    }
  }

  /** The attempt reaches the k-th clause, and that clause cannot be prepared. */
  ghost predicate Reaches(m: Masker, documentId: string, clauses: seq<Clause>, outcomes: seq<Outcome>, k: nat,
                          input: M.ProviderInput)
  {
    && k < |clauses| && m.InputIs(clauses[k], input) && !input.Prepared?
    && forall i :: 0 <= i < k ==> Passes(documentId, clauses[i], OutcomeAt(outcomes, i))
  }

  /** A clause that cannot be prepared ends the attempt it is reached in, with an error that is never retried. */
  lemma UnpreparedAborts(m: Masker, documentId: string, clauses: seq<Clause>, outcomes: seq<Outcome>, k: nat,
                         input: M.ProviderInput)
    requires Respects(m, clauses, outcomes) && Reaches(m, documentId, clauses, outcomes, k, input)
    ensures Attempt(documentId, clauses, None, outcomes) == Aborted(OtherError)
  {
    UnpreparedRaises(m, clauses, outcomes, k, input);
    AttemptFromIs(documentId, clauses, outcomes, 0);
    var r := Attempt(documentId, clauses, None, outcomes);
    FinishedPasses(documentId, clauses, outcomes);
    if r.Aborted? {
      var i :| FirstError(documentId, clauses, outcomes, i, r.error);
      assert i == k;
    }
  }

  // ---------- in the system ----------

  ghost predicate StepRespects(m: Masker, wd: World, s: State, step: Step) {
    step.Finish? && s.SessionOf(step.worker).Working? ==>
      Respects(m, wd.ClausesOf(s.SessionOf(step.worker).loaded.documentId), step.outcomes)
  }

  /** Every attempt of the run works on the documents' own clause bodies. */
  ghost predicate RespectfulRun(m: Masker, wd: World, s: State, steps: seq<Step>)
    decreases |steps|
  {
    steps == [] || (StepRespects(m, wd, s, steps[0]) && RespectfulRun(m, wd, Apply(wd, s, steps[0]), steps[1..]))
  }

  ghost predicate AllPrepared(m: Masker, clauses: seq<Clause>) {
    forall k :: 0 <= k < |clauses| ==> m.Prepares(clauses[k])
  }

  predicate IsCompleted(s: State, id: JobId) { id in s.rows && s.rows[id].status.Completed? }

  ghost predicate CompletedPrepared(m: Masker, wd: World, s: State, id: JobId) {
    IsCompleted(s, id) ==> AllPrepared(m, wd.ClausesOf(s.rows[id].documentId))
  }

  lemma OnlySuccessCompletes(wd: World, s: State, step: Step, id: JobId)
    requires Inv(wd, s) && !IsCompleted(s, id) && IsCompleted(Apply(wd, s, step), id)
    ensures Succeeds(wd, s, step) && s.SessionOf(step.worker).job == id
  {
    if step.Finish? && s.SessionOf(step.worker).Working? {
      if Succeeds(wd, s, step) {
        SuccessWrites(wd, s, step);
      } else {
        var _ := FailedFinish(wd, s, step);
      }
    }
  }

  lemma SuccessIsPrepared(m: Masker, wd: World, s: State, step: Step)
    requires Inv(wd, s) && Succeeds(wd, s, step) && StepRespects(m, wd, s, step)
    ensures var session := s.SessionOf(step.worker);
      session.job in s.rows && AllPrepared(m, wd.ClausesOf(s.rows[session.job].documentId))
  {
    var session := s.SessionOf(step.worker);
    var documentId := session.loaded.documentId;
    assert SessionOk(wd, s, step.worker);
    FinishedIsPrepared(m, documentId, wd.ClausesOf(documentId), step.setup, step.outcomes);
  }

  lemma StaysCompletedPrepared(m: Masker, wd: World, s: State, step: Step, id: JobId)
    requires Inv(wd, s) && StepRespects(m, wd, s, step) && CompletedPrepared(m, wd, s, id)
    ensures CompletedPrepared(m, wd, Apply(wd, s, step), id)
  {
    if IsCompleted(Apply(wd, s, step), id) {
      if id in s.rows { DocumentStays(wd, s, step, id); }
      if !IsCompleted(s, id) {
        OnlySuccessCompletes(wd, s, step, id);
        SuccessIsPrepared(m, wd, s, step);
      }
    }
  }

  /** What a step of the system does to the table is one statement or nothing. */
  lemma StepIsStatement(wd: World, s: State, step: Step) returns (rows: seq<RowStep>)
    requires Inv(wd, s)
    ensures Apply(wd, s, step).rows == RunRows(s.rows, rows)
  {
    rows := [];
    match step
    case Tick(_) =>
    case Submit(id, documentId, fingerprint) => rows := [Insert(id, documentId, fingerprint, s.clock)];
    case Sweep(id, at) => if at <= s.clock { rows := [Recover(id, at)]; }
    case Take(w, id) =>
      if w in wd.workers && s.SessionOf(w).Idle? {
        rows := [Claim(id, w, wd.workers[w].leaseSeconds, Some(wd.workers[w].maxAttempts), s.clock)];
      }
    case Beat(w, id) => if w in wd.workers { rows := [Renew(id, w, wd.workers[w].leaseSeconds, s.clock)]; }
    case Load(_) =>
    case Finish(w, _, _, draw) =>
      if s.SessionOf(w).Working? {
        if Succeeds(wd, s, step) {
          SuccessWrites(wd, s, step);
          rows := [Complete(s.SessionOf(w).job, s.clock)];
        } else {
          var error := FailedFinish(wd, s, step);
          rows := [Fail(s.SessionOf(w).job, w, error, draw, s.clock)];
        }
      }
    case Crash(_) =>
  }

  lemma DocumentStays(wd: World, s: State, step: Step, id: JobId)
    requires Inv(wd, s) && id in s.rows
    ensures id in Apply(wd, s, step).rows && Apply(wd, s, step).rows[id].documentId == s.rows[id].documentId
  {
    var rows := StepIsStatement(wd, s, step);
    RowsPersist(s.rows, rows, id);
  }

  lemma {:induction false} RunStaysPrepared(m: Masker, wd: World, s: State, steps: seq<Step>, id: JobId)
    requires Inv(wd, s) && RespectfulRun(m, wd, s, steps) && CompletedPrepared(m, wd, s, id)
    ensures CompletedPrepared(m, wd, Run(wd, s, steps), id)
    decreases |steps|
  {
    if steps != [] {
      StepKeepsInv(wd, s, steps[0]);
      StaysCompletedPrepared(m, wd, s, steps[0], id);
      RunStaysPrepared(m, wd, Apply(wd, s, steps[0]), steps[1..], id);
    }
  }

  lemma OrderedIsStored(wd: World, documentId: string, c: Clause)
    ensures c in wd.ClausesOf(documentId) <==> c in wd.StoredClauses(documentId)
  {
    InOrderIs(wd.StoredClauses(documentId));
    Sorting.SameElements(wd.ClausesOf(documentId), wd.StoredClauses(documentId));
  }

  /** In every reachable state the clauses of a completed job's document can all be prepared. */
  lemma CompletedMeansPrepared(m: Masker, wd: World, clock: real, steps: seq<Step>, id: JobId)
    requires RespectfulRun(m, wd, Init(clock), steps) && IsCompleted(Run(wd, Init(clock), steps), id)
    ensures forall c :: c in wd.StoredClauses(Run(wd, Init(clock), steps).rows[id].documentId) ==> m.Prepares(c)
  {
    InitInv(wd, clock);
    RunStaysPrepared(m, wd, Init(clock), steps, id);
    var documentId := Run(wd, Init(clock), steps).rows[id].documentId;
    forall c | c in wd.StoredClauses(documentId) ensures m.Prepares(c) { OrderedIsStored(wd, documentId, c); }
  }

  /** A job of a document with a clause that cannot be prepared never completes and never owns a result. */
  lemma UnpreparedNeverCompletes(m: Masker, wd: World, clock: real, steps: seq<Step>, id: JobId, c: Clause,
                                 input: M.ProviderInput)
    requires RespectfulRun(m, wd, Init(clock), steps) && id in Run(wd, Init(clock), steps).rows
    requires c in wd.StoredClauses(Run(wd, Init(clock), steps).rows[id].documentId)
    requires m.InputIs(c, input) && !input.Prepared?
    ensures !IsCompleted(Run(wd, Init(clock), steps), id) && Run(wd, Init(clock), steps).ItemsOf(id) == []
  {
    var s := Run(wd, Init(clock), steps);
    if IsCompleted(s, id) {
      CompletedMeansPrepared(m, wd, clock, steps, id);
      assert m.Prepares(c);
      var other :| m.InputIs(c, other) && other.Prepared?;
      OneInput(m, c, input, other);
    }
    InitInv(wd, clock);
    RunKeepsInv(wd, Init(clock), steps);
    assert ResultOk(wd, s, id);
  }

  predicate FailedForGood(before: Job, after: Job) {
    && after.status.Failed? && after.lastErrorCode == Some("analysis_execution_failed")
    && after.attemptCount == before.attemptCount && after.activeDedupeKey == None
  }

  lemma OtherErrorFails(rows: Table, id: JobId, worker: WorkerId, draw: real, now: real)
    requires id in rows && rows[id].OwnedBy(worker)
    ensures var after := ApplyRow(rows, Fail(id, worker, OtherError, draw, now));
      id in after && FailedForGood(rows[id], after[id])
  {
  }

  /** The first attempt that reaches such a clause fails the job for good, however many attempts are left. */
  lemma UnpreparedFailsForGood(m: Masker, wd: World, s: State, step: Step, k: nat, input: M.ProviderInput)
    requires Inv(wd, s) && step.Finish? && step.setup.None? && s.SessionOf(step.worker).Working?
    requires StepRespects(m, wd, s, step)
    requires var session := s.SessionOf(step.worker); var documentId := session.loaded.documentId;
      && session.job in s.rows && s.rows[session.job].OwnedBy(step.worker)
      && Reaches(m, documentId, wd.ClausesOf(documentId), step.outcomes, k, input)
    ensures var id := s.SessionOf(step.worker).job; var t := Apply(wd, s, step);
      id in t.rows && FailedForGood(s.rows[id], t.rows[id])
  {
    var session := s.SessionOf(step.worker);
    var documentId := session.loaded.documentId;
    UnpreparedAborts(m, documentId, wd.ClausesOf(documentId), step.outcomes, k, input);
    FailedWith(wd, s, step);
    OtherErrorFails(s.rows, session.job, step.worker, step.draw, s.clock);
  }

  lemma FailedWith(wd: World, s: State, step: Step)
    requires step.Finish? && s.SessionOf(step.worker).Working?
    requires var documentId := s.SessionOf(step.worker).loaded.documentId;
      Attempt(documentId, wd.ClausesOf(documentId), step.setup, step.outcomes) == Aborted(OtherError)
    ensures Apply(wd, s, step).rows
      == ApplyRow(s.rows, Fail(s.SessionOf(step.worker).job, step.worker, OtherError, step.draw, s.clock))
  {
    var session := s.SessionOf(step.worker);
    assert Finishing(wd, s, step.worker, step.setup, step.outcomes, step.draw)
        == FailEffect(s.rows, s.results, session.job, step.worker, OtherError, step.draw, s.clock);
  }
}
