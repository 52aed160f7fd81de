/** process_job over the shared tables: load, run the pipeline, commit once. */
module WorkerProcess {
  import opened Options
  import opened JobRows
  import opened JobQueue
  import opened Pipeline
  import opened WorkerProtocol

  /** One commit of another process: a row statement and, with a success, the job's items. */
  datatype Commit = Commit(row: RowStep, items: seq<Item>)

  function Rows(env: seq<Commit>): (steps: seq<RowStep>)
    ensures |steps| == |env| && forall k :: 0 <= k < |env| ==> steps[k] == env[k].row
  {
    seq(|env|, k requires 0 <= k < |env| => env[k].row)
  }

  function WithCommits(results: Results, env: seq<Commit>): Results {
    if env == [] then results
    else
      var before, last := WithCommits(results, env[..|env| - 1]), env[|env| - 1];
      if last.row.Complete? then before[last.row.id := last.items] else before
  }

  function ItemsIn(results: Results, id: JobId): seq<Item> { if id in results then results[id] else [] }

  /** A success commit replaces the items of its job, and nothing else touches stored items. */
  lemma CommitStores(results: Results, env: seq<Commit>, c: Commit, id: JobId)
    ensures ItemsIn(WithCommits(results, []), id) == ItemsIn(results, id)
    ensures ItemsIn(WithCommits(results, env + [c]), id)
      == if c.row.Complete? && c.row.id == id then c.items else ItemsIn(WithCommits(results, env), id)
  {
    assert (env + [c])[..|env|] == env;
  }

  class AnalysisStore {
    const table: JobTable
    var results: Results

    constructor (table: JobTable)
      ensures this.table == table && results == map[]
    {
      this.table := table;
      results := map[];
    }

    /** Commits of other processes between two statements of this one. */
    method OthersCommit(env: seq<Commit>)
      modifies this`results, table
      ensures table.rows == RunRows(old(table.rows), Rows(env)) && results == WithCommits(old(results), env)
    {
      table.rows := RunRows(table.rows, Rows(env));
      results := WithCommits(results, env);
    }

    /** `before` and `during` are what others commit before the load and while the attempt runs.  A job not running
        under the worker at the load is left alone; otherwise the call's own writes are the one finishing transaction
        of the protocol, on the tables as the others left them. */
    method ProcessJob(
      id: JobId, worker: WorkerId, wd: World, setup: Option<AnalysisError>, outcomes: seq<Outcome>,
      draw: real, now: real, before: seq<Commit>, during: seq<Commit>)
      returns (outcome: string)
      modifies this`results, table
      ensures var atLoad := RunRows(old(table.rows), Rows(before));
        var stored := WithCommits(old(results), before);
        if id in atLoad && atLoad[id].OwnedBy(worker) then
          var documentId := atLoad[id].documentId;
          Committed(table.rows, results, outcome)
            == FinishEffect(RunRows(atLoad, Rows(during)), WithCommits(stored, during), id, worker, atLoad[id],
                            ItemsIn(stored, id),
                            Attempt(documentId, wd.ClausesOf(documentId), setup, outcomes), draw, now)
        else
          outcome == "claim_lost" && table.rows == atLoad && results == stored
      ensures var atLoad := RunRows(old(table.rows), Rows(before));
        var stored := WithCommits(old(results), before);
        outcome == "completed" <==>
          && id in atLoad && atLoad[id].OwnedBy(worker) && setup.None?
          && var clauses := wd.ClausesOf(atLoad[id].documentId);
             && AllPass(atLoad[id].documentId, clauses, outcomes)
             && !InTheWay(ItemsIn(WithCommits(stored, during), id), ItemsIn(stored, id), clauses)
    {
      OthersCommit(before);
      if id !in table.rows || !table.rows[id].OwnedBy(worker) {
        return "claim_lost";
      }
      var loaded := table.rows[id];
      var present := if id in results then results[id] else [];
      ghost var atLoad, stored := table.rows, results;
      outcome := RunAndFinish(id, worker, loaded, present, wd, setup, outcomes, draw, now, during);
      CompletesIff(RunRows(atLoad, Rows(during)), WithCommits(stored, during), id, worker, loaded, present,
                   loaded.documentId, wd.ClausesOf(loaded.documentId), setup, outcomes, draw, now);
    }

    /** From the loaded job on: the attempt, and its one commit on the tables as the others left them. */
    method RunAndFinish(
      id: JobId, worker: WorkerId, loaded: Job, present: seq<Item>, wd: World, setup: Option<AnalysisError>,
      outcomes: seq<Outcome>, draw: real, now: real, during: seq<Commit>)
      returns (outcome: string)
      requires id in table.rows && loaded == table.rows[id]
      modifies this`results, table
      ensures Committed(table.rows, results, outcome)
        == FinishEffect(RunRows(old(table.rows), Rows(during)), WithCommits(old(results), during), id, worker, loaded,
                        present, Attempt(loaded.documentId, wd.ClausesOf(loaded.documentId), setup, outcomes),
                        draw, now)
    {
      var clauses := wd.ClausesOf(loaded.documentId);
      var session := new UnitOfWork(present);
      var raised := session.RunAnalysisPipeline(loaded.documentId, clauses, setup, outcomes);
      AttemptIsUnique(loaded.documentId, clauses, setup, outcomes,
                      if raised.Some? then Aborted(raised.value) else Items(session.added));

      RowsPersist(table.rows, Rows(during), id);
      OthersCommit(during);
      if raised.None? {
        var left := Survivors(if id in results then results[id] else [], present);
        if loaded.OwnedBy(worker) && !Conflict(left, session.added) {
          var _ := table.FinishJobSuccess(id, loaded, worker, now);
          results := results[id := left + session.added];
          return "completed";
        }
        raised := Some(OtherError);
      }
      outcome := table.FinishJobFailure(id, worker, raised.value, draw, now);
    }
  }

  /** Taken from a state of the system, what process_job commits is what the Load and Finish steps of the worker
      commit. */
  lemma ProcessIsLoadAndFinish(
    wd: World, s: State, t: State, w: WorkerId,
    setup: Option<AnalysisError>, outcomes: seq<Outcome>, draw: real)
    requires s.SessionOf(w).Claimed?
    requires var id := s.SessionOf(w).job; id in s.rows && s.rows[id].OwnedBy(w)
    requires t.SessionOf(w) == Apply(wd, s, Load(w)).SessionOf(w)
    ensures var id := s.SessionOf(w).job; var documentId := s.rows[id].documentId;
      var done := FinishEffect(t.rows, t.results, id, w, s.rows[id], ItemsIn(s.results, id),
                               Attempt(documentId, wd.ClausesOf(documentId), setup, outcomes), draw, t.clock);
      var u := Apply(wd, t, Finish(w, setup, outcomes, draw));
      u.rows == done.rows && u.results == done.results && u.SessionOf(w) == Idle
  {
    assert Apply(wd, s, Load(w)).SessionOf(w)
        == Working(s.SessionOf(w).job, s.SessionOf(w).beat, s.rows[s.SessionOf(w).job], s.ItemsOf(s.SessionOf(w).job));
  }
}
