/**
 Workers, their sessions and the stored results, as one system.

 A worker claims a job, loads the row into its session, runs the pipeline, and finishes.  The success
 write checks the row as it was loaded and never re-reads it; the failure write re-reads it after a
 rollback.  Sweeps, heartbeats and claims of other workers may come between any two steps.
*/
module WorkerProtocol {
  import opened Options
  import opened JobRows
  import opened Pipeline

  datatype WorkerConfig = WorkerConfig(leaseSeconds: real, heartbeatSeconds: real, maxAttempts: int)
  {
    /** WorkerConfig.validate */
    predicate Valid() { 0.0 < heartbeatSeconds < leaseSeconds && maxAttempts >= 1 }
  }

  type Results = map<JobId, seq<Item>>

  /** What the workers do not change: the documents' clauses and the configurations. */
  datatype World = World(documents: map<string, seq<Clause>>, workers: map<WorkerId, WorkerConfig>)
  {
    predicate Valid() { forall w :: w in workers ==> workers[w].Valid() }

    /** The document's clauses as they are stored, in any order. */
    function StoredClauses(documentId: string): seq<Clause> {
      if documentId in documents then documents[documentId] else []
    }

    function ClausesOf(documentId: string): seq<Clause> { InOrder(StoredClauses(documentId)) }
  }

  /** One item per clause of the document, in ascending ordinals, each under document:clause:ordinal. */
  ghost predicate FullSet(items: seq<Item>, documentId: string, clauses: seq<Clause>) {
    exists ordered: seq<Clause> ::
      multiset(ordered) == multiset(clauses) && Ascending(ordered) && ItemsMatch(items, documentId, ordered)
  }

  lemma MatchIsFullSet(wd: World, items: seq<Item>, documentId: string)
    requires ItemsMatch(items, documentId, wd.ClausesOf(documentId))
    ensures FullSet(items, documentId, wd.StoredClauses(documentId)) && |items| == |wd.StoredClauses(documentId)|
  {
    var ordered := wd.ClausesOf(documentId);
    InOrderIs(wd.StoredClauses(documentId));
    assert |ordered| == |multiset(ordered)| == |multiset(wd.StoredClauses(documentId))|;
  }

  /** `beat` is when the worker last claimed or renewed; `loaded` is the row its session holds, and `seen`
      the stored items its opening DELETE removes. */
  datatype Session =
    | Idle
    | Claimed(job: JobId, beat: real)
    | Working(job: JobId, beat: real, loaded: Job, seen: seq<Item>)

  datatype State = State(clock: real, rows: Table, results: Results, sessions: map<WorkerId, Session>)
  {
    function SessionOf(w: WorkerId): Session { if w in sessions then sessions[w] else Idle }
    function ItemsOf(id: JobId): seq<Item> { if id in results then results[id] else [] }
  }

  function Init(clock: real): State { State(clock, map[], map[], map[]) }

  datatype Step =
    | Tick(elapsed: real)
    | Submit(id: JobId, documentId: string, fingerprint: string)
    | Sweep(id: JobId, at: real)          // one recovery of a sweep begun at `at`
    | Take(worker: WorkerId, id: JobId)
    | Beat(worker: WorkerId, id: JobId)
    | Load(worker: WorkerId)
    | Finish(worker: WorkerId, setup: Option<AnalysisError>, outcomes: seq<Outcome>, draw: real)
    | Crash(worker: WorkerId)

  // ---------- the finishing transaction ----------

  datatype Committed = Committed(rows: Table, results: Results, outcome: string)

  function FailureOutcome(rows: Table, id: JobId, worker: WorkerId, error: AnalysisError): string {
    if !(id in rows && rows[id].OwnedBy(worker)) then "claim_lost"
    else if error.Retryable() && !rows[id].Exhausted() then "pending" else "failed"
  }

  function FailEffect(rows: Table, results: Results, id: JobId, worker: WorkerId, error: AnalysisError,
                      draw: real, now: real): Committed {
    Committed(ApplyRow(rows, Fail(id, worker, error, draw, now)), results, FailureOutcome(rows, id, worker, error))
  }

  /** The items the DELETE issued at loading time left in place. */
  function Survivors(stored: seq<Item>, seen: seq<Item>): seq<Item> {
    if stored == [] then []
    else (if stored[0] in seen then [] else [stored[0]]) + Survivors(stored[1..], seen)
  }

  /** The unique constraint on (job, clause). */
  predicate Conflict(stored: seq<Item>, added: seq<Item>) {
    exists i, k :: 0 <= i < |stored| && 0 <= k < |added| && stored[i].clauseId == added[k].clauseId
  }

  /** Everything process_job commits after the pipeline has returned or raised. */
  function FinishEffect(rows: Table, results: Results, id: JobId, worker: WorkerId, loaded: Job, seen: seq<Item>,
                        attempt: Result, draw: real, now: real): Committed {
    match attempt
    case Aborted(error) => FailEffect(rows, results, id, worker, error, draw, now)
    case Items(items) =>
      var left := Survivors(if id in results then results[id] else [], seen);
      if !loaded.OwnedBy(worker) || Conflict(left, items) then
        FailEffect(rows, results, id, worker, OtherError, draw, now)
      else
        Committed(ApplyRow(rows, Complete(id, now)), results[id := left + items], "completed")
  }

  // ---------- the system ----------

  function Apply(wd: World, s: State, step: Step): State {
    match step
    case Tick(elapsed) => if elapsed < 0.0 then s else s.(clock := s.clock + elapsed)
    case Submit(id, documentId, fingerprint) =>
      s.(rows := ApplyRow(s.rows, Insert(id, documentId, fingerprint, s.clock)))
    case Sweep(id, at) => if at > s.clock then s else s.(rows := ApplyRow(s.rows, Recover(id, at)))
    case Take(w, id) =>
      if w !in wd.workers || !s.SessionOf(w).Idle? then s else
      var claim := Claim(id, w, wd.workers[w].leaseSeconds, Some(wd.workers[w].maxAttempts), s.clock);
      if !Hits(s.rows, claim) then s
      else s.(rows := ApplyRow(s.rows, claim), sessions := s.sessions[w := Claimed(id, s.clock)])
    case Beat(w, id) =>
      if w !in wd.workers then s else
      s.(rows := ApplyRow(s.rows, Renew(id, w, wd.workers[w].leaseSeconds, s.clock)),
         sessions := if !s.SessionOf(w).Idle? && s.SessionOf(w).job == id
                     then s.sessions[w := s.SessionOf(w).(beat := s.clock)] else s.sessions)
    case Load(w) =>
      var session := s.SessionOf(w);
      if !session.Claimed? then s
      else if session.job in s.rows && s.rows[session.job].OwnedBy(w) then
        s.(sessions := s.sessions[w := Working(session.job, session.beat, s.rows[session.job], s.ItemsOf(session.job))])
      else s.(sessions := s.sessions[w := Idle])
    case Finish(w, setup, outcomes, draw) =>
      var session := s.SessionOf(w);
      if !session.Working? then s else
      var done := Finishing(wd, s, w, setup, outcomes, draw);
      s.(rows := done.rows, results := done.results, sessions := s.sessions[w := Idle])
    case Crash(w) => s.(sessions := s.sessions[w := Idle])
  }

  function Finishing(
    wd: World, s: State, w: WorkerId, setup: Option<AnalysisError>, outcomes: seq<Outcome>, draw: real): Committed
    requires s.SessionOf(w).Working?
  {
    var session := s.SessionOf(w);
    var documentId := session.loaded.documentId;
    FinishEffect(s.rows, s.results, session.job, w, session.loaded, session.seen,
                 Attempt(documentId, wd.ClausesOf(documentId), setup, outcomes), draw, s.clock)
  }

  function Run(wd: World, s: State, steps: seq<Step>): State
    decreases |steps|
  {
    if steps == [] then s else Run(wd, Apply(wd, s, steps[0]), steps[1..])
  }

  // ---------- the invariant ----------

  predicate ResultOk(wd: World, s: State, id: JobId) {
    if id in s.rows && s.rows[id].status.Completed?
    then ItemsMatch(s.ItemsOf(id), s.rows[id].documentId, wd.ClausesOf(s.rows[id].documentId))
    else s.ItemsOf(id) == []
  }

  /** The attempt number identifies a claim: while a session lives, its worker cannot claim again, so a row
      running at the loaded attempt is that very claim, and a row running under the worker is at it. */
  predicate SessionOk(wd: World, s: State, w: WorkerId) {
    match s.SessionOf(w)
    case Idle => true
    case Claimed(id, _) => w in wd.workers && id in s.rows
    case Working(id, _, loaded, seen) =>
      && w in wd.workers && id in s.rows
      && loaded.OwnedBy(w) && seen == []
      && loaded.documentId == s.rows[id].documentId
      && loaded.attemptCount <= s.rows[id].attemptCount
      && (s.rows[id].status.Running? ==>
            (s.rows[id].workerId == Some(w) <==> s.rows[id].attemptCount == loaded.attemptCount))
  }

  ghost predicate Inv(wd: World, s: State) {
    && TableInv(s.rows)
    && (forall id :: ResultOk(wd, s, id))
    && (forall w :: SessionOk(wd, s, w))
  }

  lemma {:induction false} SurvivorsOfNothingSeen(stored: seq<Item>)
    ensures Survivors(stored, []) == stored
  {
    if stored != [] { SurvivorsOfNothingSeen(stored[1..]); }
  }

  /** Row statements that complete nothing leave every result where it was. */
  lemma RowsOnly(wd: World, s: State, step: RowStep)
    requires Inv(wd, s) && !step.Complete?
    ensures TableInv(ApplyRow(s.rows, step))
    ensures forall id :: ResultOk(wd, s.(rows := ApplyRow(s.rows, step)), id)
  {
    StepKeepsTable(s.rows, step);
    var t := s.(rows := ApplyRow(s.rows, step));
    forall id ensures ResultOk(wd, t, id) {
      assert ResultOk(wd, s, id);
      if id in s.rows { assert RowOk(s.rows[id]); }
    }
  }

  /** What a row statement may do to the row of somebody's session. */
  lemma RowsKeepSession(wd: World, s: State, step: RowStep, w: WorkerId)
    requires Inv(wd, s) && (step.Claim? ==> step.worker != w || s.SessionOf(w).Idle?)
    ensures SessionOk(wd, s.(rows := ApplyRow(s.rows, step)), w)
  {
    assert SessionOk(wd, s, w);
    var session := s.SessionOf(w);
    if !session.Idle? {
      assert RowOk(s.rows[session.job]);
    }
  }

  lemma FailureKeepsInv(wd: World, s: State, w: WorkerId, id: JobId, error: AnalysisError, draw: real)
    requires Inv(wd, s)
    ensures Inv(wd, s.(rows := ApplyRow(s.rows, Fail(id, w, error, draw, s.clock)), sessions := s.sessions[w := Idle]))
  {
    var step := Fail(id, w, error, draw, s.clock);
    var rows := ApplyRow(s.rows, step);
    var t := s.(rows := rows, sessions := s.sessions[w := Idle]);
    RowsOnly(wd, s, step);
    forall i ensures ResultOk(wd, t, i) { assert ResultOk(wd, s.(rows := rows), i); }
    forall v ensures SessionOk(wd, t, v) { RowsKeepSession(wd, s, step, v); assert SessionOk(wd, s.(rows := rows), v); }
  }

  /** Whether the finishing step commits a completion. */
  predicate Succeeds(wd: World, s: State, step: Step) {
    step.Finish? && s.SessionOf(step.worker).Working?
    && Finishing(wd, s, step.worker, step.setup, step.outcomes, step.draw).outcome == "completed"
  }

  /** A second full set of items runs into the unique constraint. */
  lemma SecondCopyConflicts(stored: seq<Item>, added: seq<Item>, documentId: string, clauses: seq<Clause>)
    requires stored == [] || ItemsMatch(stored, documentId, clauses)
    requires ItemsMatch(added, documentId, clauses)
    ensures Conflict(stored, added) <==> stored != []
  {
    if stored != [] {
      assert ItemOf(stored[0], documentId, clauses[0]) && ItemOf(added[0], documentId, clauses[0]);
    }
  }

  /** A completing step writes the full set of items, onto a job that had none unless it needs none. */
  lemma SuccessWrites(wd: World, s: State, step: Step)
    requires Inv(wd, s) && Succeeds(wd, s, step)
    ensures var id := s.SessionOf(step.worker).job;
      && id in s.rows
      && Apply(wd, s, step).rows == ApplyRow(s.rows, Complete(id, s.clock))
      && ItemsMatch(Apply(wd, s, step).ItemsOf(id), s.rows[id].documentId, wd.ClausesOf(s.rows[id].documentId))
      && forall i :: i != id ==> Apply(wd, s, step).ItemsOf(i) == s.ItemsOf(i)
  {
    var w := step.worker;
    assert SessionOk(wd, s, w);
    var session := s.SessionOf(w);
    var documentId := session.loaded.documentId;
    var clauses := wd.ClausesOf(documentId);
    var attempt := Attempt(documentId, clauses, step.setup, step.outcomes);
    assert attempt.Items?;
    AttemptItemsMatch(documentId, clauses, step.setup, step.outcomes, attempt.items);
    var stored := s.ItemsOf(session.job);
    SurvivorsOfNothingSeen(stored);
    assert ResultOk(wd, s, session.job);
    SecondCopyConflicts(stored, attempt.items, documentId, clauses);
    assert stored + attempt.items == attempt.items;
  }

  /** Every clause passes its checks and is answered under its reference. */
  ghost predicate AllPass(documentId: string, clauses: seq<Clause>, outcomes: seq<Outcome>) {
    forall k :: 0 <= k < |clauses| ==> Passes(documentId, clauses[k], OutcomeAt(outcomes, k))
  }

  lemma AttemptPassesIff(documentId: string, clauses: seq<Clause>, setup: Option<AnalysisError>, outcomes: seq<Outcome>)
    ensures Attempt(documentId, clauses, setup, outcomes).Items?
      <==> setup.None? && AllPass(documentId, clauses, outcomes)
  {
    AttemptIsAttempt(documentId, clauses, setup, outcomes);
    var r := Attempt(documentId, clauses, setup, outcomes);
    if r.Items? {
      forall k | 0 <= k < |clauses| ensures Passes(documentId, clauses[k], OutcomeAt(outcomes, k)) {
        assert ItemFor(r.items[k], documentId, clauses[k], OutcomeAt(outcomes, k));
      }
    }
  }

  lemma {:induction false} SurvivorsAre(stored: seq<Item>, seen: seq<Item>, x: Item)
    ensures x in Survivors(stored, seen) <==> x in stored && x !in seen
  {
    if stored != [] { SurvivorsAre(stored[1..], seen, x); }
  }

  /** An item of one of the clauses is stored that the opening DELETE did not remove. */
  ghost predicate InTheWay(stored: seq<Item>, seen: seq<Item>, clauses: seq<Clause>) {
    exists x, k :: 0 <= k < |clauses| && x in stored && x !in seen && x.clauseId == clauses[k].id
  }

  lemma ConflictIff(stored: seq<Item>, seen: seq<Item>, clauses: seq<Clause>, items: seq<Item>)
    requires |items| == |clauses| && forall k :: 0 <= k < |items| ==> items[k].clauseId == clauses[k].id
    ensures Conflict(Survivors(stored, seen), items) <==> InTheWay(stored, seen, clauses)
  {
    var left := Survivors(stored, seen);
    if Conflict(left, items) {
      var i, k :| 0 <= i < |left| && 0 <= k < |items| && left[i].clauseId == items[k].clauseId;
      SurvivorsAre(stored, seen, left[i]);
      assert left[i] in stored && left[i].clauseId == clauses[k].id;
    }
    if InTheWay(stored, seen, clauses) {
      var x, k :| 0 <= k < |clauses| && x in stored && x !in seen && x.clauseId == clauses[k].id;
      SurvivorsAre(stored, seen, x);
      var i :| 0 <= i < |left| && left[i] == x;
      assert left[i].clauseId == items[k].clauseId;
    }
  }

  /** When the finishing transaction commits a completion. */
  lemma CompletesIff(rows: Table, results: Results, id: JobId, worker: WorkerId, loaded: Job, seen: seq<Item>,
                     documentId: string, clauses: seq<Clause>, setup: Option<AnalysisError>, outcomes: seq<Outcome>,
                     draw: real, now: real)
    ensures var stored := if id in results then results[id] else [];
      var attempt := Attempt(documentId, clauses, setup, outcomes);
      FinishEffect(rows, results, id, worker, loaded, seen, attempt, draw, now).outcome == "completed" <==>
        && loaded.OwnedBy(worker) && setup.None? && AllPass(documentId, clauses, outcomes)
        && !InTheWay(stored, seen, clauses)
  {
    var attempt := Attempt(documentId, clauses, setup, outcomes);
    AttemptPassesIff(documentId, clauses, setup, outcomes);
    if attempt.Items? {
      AttemptItemsMatch(documentId, clauses, setup, outcomes, attempt.items);
      forall k | 0 <= k < |attempt.items| ensures attempt.items[k].clauseId == clauses[k].id {
        assert ItemOf(attempt.items[k], documentId, clauses[k]);
      }
      ConflictIff(if id in results then results[id] else [], seen, clauses, attempt.items);
    }
  }

  /** A finishing step completes its job if and only if every clause of the document passes and the job owns no result
      yet, or needs none. */
  lemma SucceedsIff(wd: World, s: State, step: Step)
    requires Inv(wd, s) && step.Finish? && s.SessionOf(step.worker).Working?
    ensures var session := s.SessionOf(step.worker); var documentId := session.loaded.documentId;
      var clauses := wd.ClausesOf(documentId);
      Succeeds(wd, s, step) <==>
        && step.setup.None? && AllPass(documentId, clauses, step.outcomes)
        && (s.ItemsOf(session.job) == [] || clauses == [])
  {
    var session := s.SessionOf(step.worker);
    var documentId := session.loaded.documentId;
    var clauses := wd.ClausesOf(documentId);
    var attempt := Attempt(documentId, clauses, step.setup, step.outcomes);
    assert SessionOk(wd, s, step.worker) && ResultOk(wd, s, session.job);
    AttemptPassesIff(documentId, clauses, step.setup, step.outcomes);
    if attempt.Items? {
      AttemptItemsMatch(documentId, clauses, step.setup, step.outcomes, attempt.items);
      SurvivorsOfNothingSeen(s.ItemsOf(session.job));
      SecondCopyConflicts(s.ItemsOf(session.job), attempt.items, documentId, clauses);
    }
  }

  /** A completing step stores every clause's own answer. */
  lemma SuccessStoresAnswers(wd: World, s: State, step: Step)
    requires Inv(wd, s) && Succeeds(wd, s, step)
    ensures var session := s.SessionOf(step.worker); var clauses := wd.ClausesOf(session.loaded.documentId);
      var items := Apply(wd, s, step).ItemsOf(session.job);
      && |items| == |clauses|
      && forall k :: 0 <= k < |clauses| ==>
           && OutcomeAt(step.outcomes, k).Responded?
           && items[k] == Item(clauses[k].id, clauses[k].referenceId, OutcomeAt(step.outcomes, k).payload)
  {
    var session := s.SessionOf(step.worker);
    var documentId := session.loaded.documentId;
    var clauses := wd.ClausesOf(documentId);
    var attempt := Attempt(documentId, clauses, step.setup, step.outcomes);
    assert SessionOk(wd, s, step.worker) && ResultOk(wd, s, session.job);
    AttemptIsAttempt(documentId, clauses, step.setup, step.outcomes);
    AttemptItemsMatch(documentId, clauses, step.setup, step.outcomes, attempt.items);
    SurvivorsOfNothingSeen(s.ItemsOf(session.job));
    SecondCopyConflicts(s.ItemsOf(session.job), attempt.items, documentId, clauses);
    assert s.ItemsOf(session.job) + attempt.items == attempt.items;
    forall k | 0 <= k < |clauses|
      ensures OutcomeAt(step.outcomes, k).Responded?
        && attempt.items[k] == Item(clauses[k].id, clauses[k].referenceId, OutcomeAt(step.outcomes, k).payload)
    {
      assert ItemFor(attempt.items[k], documentId, clauses[k], OutcomeAt(step.outcomes, k));
    }
  }

  lemma SuccessKeepsInv(wd: World, s: State, step: Step)
    requires Inv(wd, s) && Succeeds(wd, s, step)
    ensures Inv(wd, Apply(wd, s, step))
  {
    var id := s.SessionOf(step.worker).job;
    var row := Complete(id, s.clock);
    var t := Apply(wd, s, step);
    SuccessWrites(wd, s, step);
    StepKeepsTable(s.rows, row);
    forall i ensures ResultOk(wd, t, i) { assert ResultOk(wd, s, i); }
    forall v ensures SessionOk(wd, t, v) {
      RowsKeepSession(wd, s, row, v);
      assert SessionOk(wd, s.(rows := t.rows), v);
    }
  }

  lemma RowStepKeepsInv(wd: World, s: State, step: RowStep, sessions: map<WorkerId, Session>)
    requires Inv(wd, s) && !step.Complete?
    requires forall w :: SessionOk(wd, s.(rows := ApplyRow(s.rows, step), sessions := sessions), w)
    ensures Inv(wd, s.(rows := ApplyRow(s.rows, step), sessions := sessions))
  {
    var t := s.(rows := ApplyRow(s.rows, step), sessions := sessions);
    RowsOnly(wd, s, step);
    forall i ensures ResultOk(wd, t, i) { assert ResultOk(wd, s.(rows := t.rows), i); }
  }

  /** A finishing step that does not complete the job is one guarded failure write, with the error of the setup or of
      the first clause that does not pass, or of the constraint; and it stores no item. */
  lemma FailedFinish(wd: World, s: State, step: Step) returns (error: AnalysisError)
    requires step.Finish? && s.SessionOf(step.worker).Working? && !Succeeds(wd, s, step)
    ensures var documentId := s.SessionOf(step.worker).loaded.documentId; var clauses := wd.ClausesOf(documentId);
      if step.setup.Some? then error == step.setup.value
      else if AllPass(documentId, clauses, step.outcomes) then error == OtherError
      else exists k :: FirstError(documentId, clauses, step.outcomes, k, error)
    ensures Apply(wd, s, step) == s.(
        rows := ApplyRow(s.rows, Fail(s.SessionOf(step.worker).job, step.worker, error, step.draw, s.clock)),
        sessions := s.sessions[step.worker := Idle])
  {
    var session := s.SessionOf(step.worker);
    var documentId := session.loaded.documentId;
    var attempt := Attempt(documentId, wd.ClausesOf(documentId), step.setup, step.outcomes);
    error := if attempt.Aborted? then attempt.error else OtherError;
    AttemptIsAttempt(documentId, wd.ClausesOf(documentId), step.setup, step.outcomes);
    AttemptPassesIff(documentId, wd.ClausesOf(documentId), step.setup, step.outcomes);
    assert Finishing(wd, s, step.worker, step.setup, step.outcomes, step.draw)
        == FailEffect(s.rows, s.results, session.job, step.worker, error, step.draw, s.clock);
  }

  lemma TakeKeepsInv(wd: World, s: State, w: WorkerId, id: JobId)
    requires Inv(wd, s)
    ensures Inv(wd, Apply(wd, s, Take(w, id)))
  {
    if w in wd.workers && s.SessionOf(w).Idle? {
      var t := Apply(wd, s, Take(w, id));
      var row := Claim(id, w, wd.workers[w].leaseSeconds, Some(wd.workers[w].maxAttempts), s.clock);
      if Hits(s.rows, row) {
        forall v ensures SessionOk(wd, t, v) {
          RowsKeepSession(wd, s, row, v);
          assert SessionOk(wd, s.(rows := t.rows), v);
        }
        RowStepKeepsInv(wd, s, row, t.sessions);
      }
    }
  }

  lemma BeatKeepsInv(wd: World, s: State, w: WorkerId, id: JobId)
    requires Inv(wd, s)
    ensures Inv(wd, Apply(wd, s, Beat(w, id)))
  {
    if w in wd.workers {
      var t := Apply(wd, s, Beat(w, id));
      var row := Renew(id, w, wd.workers[w].leaseSeconds, s.clock);
      forall v ensures SessionOk(wd, t, v) {
        RowsKeepSession(wd, s, row, v);
        assert SessionOk(wd, s.(rows := t.rows), v);
      }
      RowStepKeepsInv(wd, s, row, t.sessions);
    }
  }

  lemma LoadKeepsInv(wd: World, s: State, w: WorkerId)
    requires Inv(wd, s)
    ensures Inv(wd, Apply(wd, s, Load(w)))
  {
    var t := Apply(wd, s, Load(w));
    forall v ensures SessionOk(wd, t, v) {
      assert SessionOk(wd, s, v);
      var session := s.SessionOf(w);
      if session.Claimed? { assert ResultOk(wd, s, session.job); }
    }
    forall i ensures ResultOk(wd, t, i) { assert ResultOk(wd, s, i); }
  }

  lemma FinishKeepsInv(wd: World, s: State, step: Step)
    requires Inv(wd, s) && step.Finish?
    ensures Inv(wd, Apply(wd, s, step))
  {
    if Succeeds(wd, s, step) {
      SuccessKeepsInv(wd, s, step);
    } else if s.SessionOf(step.worker).Working? {
      var error := FailedFinish(wd, s, step);
      FailureKeepsInv(wd, s, step.worker, s.SessionOf(step.worker).job, error, step.draw);
    }
  }

  lemma StepKeepsInv(wd: World, s: State, step: Step)
    requires Inv(wd, s)
    ensures Inv(wd, Apply(wd, s, step))
  {
    var t := Apply(wd, s, step);
    match step
    case Tick(_) =>
      forall i ensures ResultOk(wd, t, i) { assert ResultOk(wd, s, i); }
      forall w ensures SessionOk(wd, t, w) { assert SessionOk(wd, s, w); }
    case Submit(id, documentId, fingerprint) =>
      var row := Insert(id, documentId, fingerprint, s.clock);
      forall w ensures SessionOk(wd, t, w) { RowsKeepSession(wd, s, row, w); }
      RowStepKeepsInv(wd, s, row, s.sessions);
    case Sweep(id, at) =>
      var row := Recover(id, at);
      forall w ensures SessionOk(wd, s.(rows := ApplyRow(s.rows, row)), w) { RowsKeepSession(wd, s, row, w); }
      RowStepKeepsInv(wd, s, row, s.sessions);
    case Take(w, id) => TakeKeepsInv(wd, s, w, id);
    case Beat(w, id) => BeatKeepsInv(wd, s, w, id);
    case Load(w) => LoadKeepsInv(wd, s, w);
    case Finish(_, _, _, _) => FinishKeepsInv(wd, s, step);
    case Crash(w) =>
      forall v ensures SessionOk(wd, t, v) { assert SessionOk(wd, s, v); }
      forall i ensures ResultOk(wd, t, i) { assert ResultOk(wd, s, i); }
  }

  lemma {:induction false} RunKeepsInv(wd: World, s: State, steps: seq<Step>)
    requires Inv(wd, s)
    ensures Inv(wd, Run(wd, s, steps))
    decreases |steps|
  {
    if steps != [] {
      StepKeepsInv(wd, s, steps[0]);
      RunKeepsInv(wd, Apply(wd, s, steps[0]), steps[1..]);
    }
  }

  lemma InitInv(wd: World, clock: real)
    ensures Inv(wd, Init(clock))
  {
  }
}
