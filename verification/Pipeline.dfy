/**
 The per-clause loop of the analysis pipeline in worker mode: every clause must pass its checks and be
 answered for, or the whole attempt is rolled back.
*/
module Pipeline {
  import opened Options
  import opened JobRows
  import Decimal
  import Sorting

  datatype Clause = Clause(id: string, referenceId: string, ordinal: int)

  /** The stored result row; `payload` is the encrypted content. */
  datatype Item = Item(clauseId: string, referenceId: string, payload: string)

  /** What decryption, masking, the provider call and the content checks yield for one clause. */
  datatype Outcome = Responded(referenceId: string, payload: string) | Raised(error: AnalysisError)

  datatype Result = Items(items: seq<Item>) | Aborted(error: AnalysisError)

  function ReferenceId(documentId: string, ordinal: int): string {
    documentId + ":clause:" + Decimal.PrintInt(ordinal)
  }

  /** validate_reference_id */
  predicate ValidReference(documentId: string, clause: Clause) {
    clause.referenceId == ReferenceId(documentId, clause.ordinal)
  }

  predicate ByOrdinal(a: Clause, b: Clause) { a.ordinal <= b.ordinal }

  function InOrder(clauses: seq<Clause>): seq<Clause> { Sorting.Sort(clauses, ByOrdinal) }

  predicate Ascending(clauses: seq<Clause>) {
    forall i, j :: 0 <= i < j < |clauses| ==> clauses[i].ordinal <= clauses[j].ordinal
  }

  /** The loop visits every clause of the document once, in ascending ordinals. */
  lemma InOrderIs(clauses: seq<Clause>)
    ensures multiset(InOrder(clauses)) == multiset(clauses) && Ascending(InOrder(clauses))
  {
    assert Sorting.TotalPreorder(ByOrdinal);
    Sorting.SortSorts(clauses, ByOrdinal);
    var sorted := InOrder(clauses);
    forall i, j | 0 <= i < j < |sorted| ensures sorted[i].ordinal <= sorted[j].ordinal {
      assert ByOrdinal(sorted[i], sorted[j]);
    }
  }

  /** Different clauses of a document have different references. */
  lemma ReferenceIdsDiffer(documentId: string, a: int, b: int)
    ensures ReferenceId(documentId, a) == ReferenceId(documentId, b) <==> a == b
  {
    var before := documentId + ":clause:";
    if ReferenceId(documentId, a) == ReferenceId(documentId, b) {
      assert (before + Decimal.PrintInt(a))[|before|..] == Decimal.PrintInt(a);
      assert (before + Decimal.PrintInt(b))[|before|..] == Decimal.PrintInt(b);
      Decimal.PrintIntDiffers(a, b);
    }
  }

  /** An exhausted outcome list stands for a provider that never answers. */
  function OutcomeAt(outcomes: seq<Outcome>, k: nat): Outcome {
    if k < |outcomes| then outcomes[k] else Raised(OtherError)
  }

  /** The error the loop raises at one clause, if any. */
  function ClauseError(documentId: string, clause: Clause, outcome: Outcome): Option<AnalysisError> {
    if !ValidReference(documentId, clause) then Some(OtherError)
    else if outcome.Raised? then Some(outcome.error)
    else if outcome.referenceId != clause.referenceId then Some(OtherError)
    else None
  }

  predicate Passes(documentId: string, clause: Clause, outcome: Outcome) {
    ClauseError(documentId, clause, outcome).None?
  }

  /** A clause passes when it stands under its own document and ordinal and is answered under that reference; a
      provider's error is raised as it is, and every mismatch is an error that is not the provider's. */
  lemma PassesIff(documentId: string, clause: Clause, outcome: Outcome)
    ensures Passes(documentId, clause, outcome) <==>
      && clause.referenceId == documentId + ":clause:" + Decimal.PrintInt(clause.ordinal)
      && outcome.Responded? && outcome.referenceId == clause.referenceId
    ensures !Passes(documentId, clause, outcome) ==>
      ClauseError(documentId, clause, outcome)
        == Some(if ValidReference(documentId, clause) && outcome.Raised? then outcome.error else OtherError)
  {
  }

  /** The clause passed every check and this is the row its answer makes. */
  predicate ItemFor(item: Item, documentId: string, clause: Clause, outcome: Outcome) {
    && Passes(documentId, clause, outcome)
    && item == Item(clause.id, clause.referenceId, outcome.payload)
  }

  predicate ItemOf(item: Item, documentId: string, clause: Clause) {
    item.clauseId == clause.id && item.referenceId == clause.referenceId == ReferenceId(documentId, clause.ordinal)
  }

  /** One item per clause, in the same order, each under document:clause:ordinal. */
  predicate ItemsMatch(items: seq<Item>, documentId: string, clauses: seq<Clause>) {
    |items| == |clauses| && forall k :: 0 <= k < |items| ==> ItemOf(items[k], documentId, clauses[k])
  }

  predicate FirstError(documentId: string, clauses: seq<Clause>, outcomes: seq<Outcome>, k: int, error: AnalysisError) {
    && 0 <= k < |clauses|
    && ClauseError(documentId, clauses[k], OutcomeAt(outcomes, k)) == Some(error)
    && forall i :: 0 <= i < k ==> Passes(documentId, clauses[i], OutcomeAt(outcomes, i))
  }

  /** What an attempt amounts to: the items of a loop that reached the end, or the first error. */
  ghost predicate IsAttempt(documentId: string, clauses: seq<Clause>, setup: Option<AnalysisError>,
                      outcomes: seq<Outcome>, result: Result)
  {
    match result
    case Items(items) =>
      && setup.None? && |items| == |clauses|
      && forall k :: 0 <= k < |items| ==> ItemFor(items[k], documentId, clauses[k], OutcomeAt(outcomes, k))
    case Aborted(error) =>
      if setup.Some? then setup.value == error
      else exists k :: FirstError(documentId, clauses, outcomes, k, error)
  }

  function AttemptFrom(documentId: string, clauses: seq<Clause>, outcomes: seq<Outcome>, k: nat): Result
    requires k <= |clauses|
    decreases |clauses| - k
  {
    if k == |clauses| then Items([]) else
    match ClauseError(documentId, clauses[k], OutcomeAt(outcomes, k))
    case Some(error) => Aborted(error)
    case None =>
      match AttemptFrom(documentId, clauses, outcomes, k + 1)
      case Aborted(error) => Aborted(error)
      case Items(rest) =>
        Items([Item(clauses[k].id, clauses[k].referenceId, OutcomeAt(outcomes, k).payload)] + rest)
  }

  function Attempt(
    documentId: string, clauses: seq<Clause>, setup: Option<AnalysisError>, outcomes: seq<Outcome>): Result {
    if setup.Some? then Aborted(setup.value) else AttemptFrom(documentId, clauses, outcomes, 0)
  }

  /** The items of the clauses from `k` on. */
  predicate ItemsFrom(items: seq<Item>, documentId: string, clauses: seq<Clause>, outcomes: seq<Outcome>, k: nat) {
    && |items| + k == |clauses|
    && forall j :: 0 <= j < |items| ==> ItemFor(items[j], documentId, clauses[k + j], OutcomeAt(outcomes, k + j))
  }

  lemma {:induction false} AttemptFromIs(documentId: string, clauses: seq<Clause>, outcomes: seq<Outcome>, k: nat)
    requires k <= |clauses|
    requires forall i :: 0 <= i < k ==> Passes(documentId, clauses[i], OutcomeAt(outcomes, i))
    ensures var r := AttemptFrom(documentId, clauses, outcomes, k);
      && (r.Items? ==> ItemsFrom(r.items, documentId, clauses, outcomes, k))
      && (r.Aborted? ==> exists i :: FirstError(documentId, clauses, outcomes, i, r.error))
    decreases |clauses| - k
  {
    if k < |clauses| {
      var here := ClauseError(documentId, clauses[k], OutcomeAt(outcomes, k));
      match here
      case Some(error) =>
        assert FirstError(documentId, clauses, outcomes, k, error);
      case None =>
        AttemptFromIs(documentId, clauses, outcomes, k + 1);
        var rest := AttemptFrom(documentId, clauses, outcomes, k + 1);
        if rest.Items? {
          var item := Item(clauses[k].id, clauses[k].referenceId, OutcomeAt(outcomes, k).payload);
          PrependItem(item, rest.items, documentId, clauses, outcomes, k);
        }
    }
  }

  lemma PrependItem(
    item: Item, rest: seq<Item>, documentId: string, clauses: seq<Clause>, outcomes: seq<Outcome>, k: nat)
    requires k < |clauses| && ItemFor(item, documentId, clauses[k], OutcomeAt(outcomes, k))
    requires ItemsFrom(rest, documentId, clauses, outcomes, k + 1)
    ensures ItemsFrom([item] + rest, documentId, clauses, outcomes, k)
  {
    var items := [item] + rest;
    forall j | 0 <= j < |items| ensures ItemFor(items[j], documentId, clauses[k + j], OutcomeAt(outcomes, k + j)) {
      if j > 0 {
        assert ItemFor(rest[j - 1], documentId, clauses[k + 1 + (j - 1)], OutcomeAt(outcomes, k + 1 + (j - 1)));
      }
    }
  }

  lemma AttemptIsAttempt(documentId: string, clauses: seq<Clause>, setup: Option<AnalysisError>, outcomes: seq<Outcome>)
    ensures IsAttempt(documentId, clauses, setup, outcomes, Attempt(documentId, clauses, setup, outcomes))
  {
    AttemptFromIs(documentId, clauses, outcomes, 0);
    var r := AttemptFrom(documentId, clauses, outcomes, 0);
    if r.Items? {
      forall k | 0 <= k < |clauses| ensures ItemFor(r.items[k], documentId, clauses[k], OutcomeAt(outcomes, k)) {
        assert ItemFor(r.items[k], documentId, clauses[0 + k], OutcomeAt(outcomes, 0 + k));
      }
    }
  }

  lemma CompletedLoopHasNoError(documentId: string, clauses: seq<Clause>, outcomes: seq<Outcome>, items: seq<Item>,
                                k: int, error: AnalysisError)
    requires IsAttempt(documentId, clauses, None, outcomes, Items(items))
    ensures !FirstError(documentId, clauses, outcomes, k, error)
  {
    if 0 <= k < |clauses| {
      assert ItemFor(items[k], documentId, clauses[k], OutcomeAt(outcomes, k));
    }
  }

  /** The specification leaves no choice: the items are determined, and so is the error. */
  lemma AttemptsAgree(documentId: string, clauses: seq<Clause>, setup: Option<AnalysisError>,
                      outcomes: seq<Outcome>, a: Result, b: Result)
    requires IsAttempt(documentId, clauses, setup, outcomes, a) && IsAttempt(documentId, clauses, setup, outcomes, b)
    ensures a == b
  {
    if setup.None? {
      match (a, b)
      case (Items(x), Items(y)) =>
        forall k | 0 <= k < |clauses| ensures x[k] == y[k] {
          assert ItemFor(x[k], documentId, clauses[k], OutcomeAt(outcomes, k));
        }
        assert x == y;
      case (Items(x), Aborted(e)) =>
        forall k ensures !FirstError(documentId, clauses, outcomes, k, e) {
          CompletedLoopHasNoError(documentId, clauses, outcomes, x, k, e);
        }
      case (Aborted(e), Items(x)) =>
        forall k ensures !FirstError(documentId, clauses, outcomes, k, e) {
          CompletedLoopHasNoError(documentId, clauses, outcomes, x, k, e);
        }
      case (Aborted(e), Aborted(f)) =>
        var k :| FirstError(documentId, clauses, outcomes, k, e);
        var i :| FirstError(documentId, clauses, outcomes, i, f);
        assert i == k;
    }
  }

  /** The loop is exactly all-or-nothing: these are the only two things an attempt can be. */
  lemma AttemptIsUnique(documentId: string, clauses: seq<Clause>, setup: Option<AnalysisError>,
                        outcomes: seq<Outcome>, result: Result)
    ensures IsAttempt(documentId, clauses, setup, outcomes, result)
      <==> result == Attempt(documentId, clauses, setup, outcomes)
  {
    var mine := Attempt(documentId, clauses, setup, outcomes);
    AttemptIsAttempt(documentId, clauses, setup, outcomes);
    if IsAttempt(documentId, clauses, setup, outcomes, result) {
      AttemptsAgree(documentId, clauses, setup, outcomes, result, mine);
    }
  }

  lemma AttemptItemsMatch(documentId: string, clauses: seq<Clause>, setup: Option<AnalysisError>,
                          outcomes: seq<Outcome>, items: seq<Item>)
    requires Attempt(documentId, clauses, setup, outcomes) == Items(items)
    ensures ItemsMatch(items, documentId, clauses)
  {
    AttemptIsAttempt(documentId, clauses, setup, outcomes);
    forall k | 0 <= k < |clauses| ensures ItemOf(items[k], documentId, clauses[k]) {
      assert ItemFor(items[k], documentId, clauses[k], OutcomeAt(outcomes, k));
    }
  }

  /** The unit of work of one attempt: rows already stored for the job, and rows added but not flushed. */
  class UnitOfWork {
    var stored: seq<Item>
    var added: seq<Item>

    constructor (items: seq<Item>)
      ensures stored == items && added == []
    {
      stored := items;
      added := [];
    }

    method Rollback()
      modifies this`added
      ensures added == []
    {
      added := [];
    }

    /** A failure at any clause leaves the stored rows and an empty unit of work; a loop that runs to the
        end has added one row per clause, in order. */
    method RunAnalysisPipeline(documentId: string, clauses: seq<Clause>, setup: Option<AnalysisError>,
                               outcomes: seq<Outcome>)
      returns (raised: Option<AnalysisError>)
      requires added == []
      modifies this`added
      ensures IsAttempt(documentId, clauses, setup, outcomes,
        if raised.Some? then Aborted(raised.value) else Items(added))
      ensures raised.Some? ==> added == []
    {
      if setup.Some? {
        Rollback();
        return setup;
      }
      var index := 0;
      while index < |clauses|
        invariant 0 <= index <= |clauses|
        invariant |added| == index
        invariant forall k :: 0 <= k < index ==> ItemFor(added[k], documentId, clauses[k], OutcomeAt(outcomes, k))
      {
        var clause := clauses[index];
        if clause.referenceId != ReferenceId(documentId, clause.ordinal) {
          Rollback();
          assert FirstError(documentId, clauses, outcomes, index, OtherError);
          return Some(OtherError);
        }
        var response := OutcomeAt(outcomes, index);
        if response.Raised? {
          Rollback();
          assert FirstError(documentId, clauses, outcomes, index, response.error);
          return Some(response.error);
        }
        if response.referenceId != clause.referenceId {
          Rollback();
          assert FirstError(documentId, clauses, outcomes, index, OtherError);
          return Some(OtherError);
        }
        added := added + [Item(clause.id, response.referenceId, response.payload)];
        index := index + 1;
      }
      return None;
    }
  }
}
