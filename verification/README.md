# Verified model of ContractCheck AI's backend logic

This project models, in Dafny, the parts of ContractCheck AI whose correctness is a matter of state rather than of
plumbing, and proves what they promise. Four cores are covered.

**The durable analysis-job queue and its workers.** `JobRows` holds the `analysis_jobs` table as a value and every
committing SQL statement as one atomic row step; a run is any sequence of row steps, so a lemma about all runs is a lemma
about all interleavings. `JobQueue` is the queue module statement by statement: a class whose methods update the table
in place. What other processes commit between two statements of one call is an input of the call, and every contract says
for all such inputs which table and which answer come out. `Pipeline` is the per-clause
loop with its unit of work. `WorkerProtocol` puts workers, their database sessions and the stored results together
into one transition system, and `WorkerProcess` proves that `process_job` is the loading and finishing of that system.
`JobSchedule` says which statement can take effect on a job next, and when.
`WorkerFencing` states what holds over whole runs, and `WorkerTiming` what a worker gains by renewing in time, whatever
the others do. `ClauseInputs` joins the queue to masking: a job completes only if every clause can be prepared.

**PII masking.** `LabelledValues` finds candidates behind labels, `Detection` puts the labels and the patterns together
into the candidates of a text, `SpanResolution` chooses among overlapping candidates, `TokenAllocation` hands out ordinals,
`MaskTokens` prints and scans tokens, and `Masking` rewrites the text and reads it back. `MaskDocument` is the whole of it
for one document, and the input prepared for a provider; `TokenLimits` follows the longest number `int` reads and prints.

**The sliding-window rate limiter.** `RateLimitSpec` is the specification, a counter that never forgets;
`RateLimit` is the dictionary of deques with its eviction, and `RateLimitRuns` proves that the two agree over runs.

**Text and review state.** `TextLayout` and `ClauseSplit` are the clause splitter with its offset arithmetic.
`ReviewState`, `ExtractionReview` and `ReviewRuns` are the review of an extraction over any run of requests;
`ReviewConfirmation` states exactly when it can be confirmed and what a repeated confirmation shows, and
`ReviewOverlap` what happens to requests that overlap in time. `ReviewStored` says what the stored review data mean in
terms of the pages, and which refusal a request gets.

Small shared modules: `Options`, `Sorting` (the stable sort the services rely on), `Decimal` (printing and reading
numbers, in any decimal digits of Unicode), `Substrings`, `Normalization`.

## Findings

Properties one would expect and the code does not have are stated with a concrete input and with the exact condition
under which they do hold.

- The check inside `finish_job_success` looks at the row as the session loaded it, and the write carries no condition on
  the worker. `WorkerTiming.LateSuccessOverwritesFailure` is a run in which a worker that stalled past its lease turns a
  failed job into a completed one. Conditions: a completion belongs to the worker's own attempt if and only if the
  stored row still names the worker (`SuccessIsFencedIff`); an ended job changes its status if and only if such a stale
  success finds it failed (`EndedStep`); a job has at most one terminal write if and only if no stale success hits its
  ended row (`OneEndIff`). `TimelyRunIsFenced` shows that heartbeats that keep up on that job rule stale successes out.
- `attempt_count` can exceed the `max_attempts` the row then carries, because a claim checks the old limit and installs
  the claimer's (`JobRows.OwnLimitCanBeExceeded`). A job stays within its row's limit if and only if no claim of it
  installs a limit that the attempts already made use up (`OwnLimitKeptIff` for a step, `AlwaysWithinIff` for runs).
- The limiter can admit a key beyond its limit: with room for one key and one request a minute, checks of a, b and a
  within two seconds are all allowed (`RateLimitRuns.EvictionOverAdmits`). After a check every next check is decided as the
  full history decides it if and only if this one was denied or the live keys fit the capacity
  (`RateLimitRuns.CheckDecidesIff`; for the memory itself `RateLimit.CheckRemembersIff`).
- `can_confirm` does not promise that a confirmation succeeds: a PDF of six usable pages of 200,000 characters is stored,
  shows it, and cannot be confirmed (`ReviewConfirmation.CanConfirmIsNotEnough`). For an extraction as the uploads store
  it, confirming succeeds if and only if all texts together are within the document limit
  (`StoredCanConfirmSufficesIff`).
- Confirming again repeats snapshot, versions and length, but not always the counts: after one edit the first receipt
  says one changed page and the second none (`SecondReceiptCanDiffer`). The receipts are equal if and only if every page
  was required and none changed (`SecondReceipt`).
- After a confirmation the stored `can_confirm` is off, and the computed one can be on (`FlagsCanDisagree`): it is, if
  and only if no review was asked for or no page required it (`FlagAfterConfirmation`).
- Versions protect a review only from requests that load after the commit. Of two patches that name one version both can
  be accepted, and the second erases the first (`ReviewOverlap.SecondPatchErasesFirst`); a patch that commits after a
  confirmation it had not seen erases the confirmed snapshot (`PatchErasesSnapshot`). A rival of an accepted patch is
  accepted if and only if it loaded before the other's commit and after the page's last accepted patch before that
  (`BothWinIff`); an acceptance is one a fresh read would refuse if and only if by then the extraction is confirmed or the
  page has another version (`StaleAcceptIff`). As long as nobody commits between a request's load and its commit, the
  requests do what they do one after the other (`NoneBetweenIsAtomic`).

## Premises

- One global clock that never runs backwards; a statement's `now` is the clock when it is issued, except that a sweep may
  carry an older timestamp. Times are real numbers.
- Worker identifiers are distinct, and a worker runs one `process_job` at a time.
- Every committing SQL statement is atomic. `finish_job_failure`, which reads the row afresh and writes it, counts as one
  step. `finish_job_success` does not: its check uses the loaded copy.
- A document's clauses do not change and jobs are not deleted while jobs run.
- Outside `ReviewOverlap` every review request is one atomic step; there, loading an extraction with its pages is one.
  Stored text decrypts to what was encrypted.
- `int` and f-strings refuse decimal numbers of more than 4300 digits, the default of the interpreter the image uses.

## Model

| member | source | states |
|---|---|---|
| JobRows.RetryLadder | backend/app/services/analysis_job_queue.py:180-187 | whatever the jitter source draws, a retry waits at least its rung and at most two minutes, and an earlier rung always waits less than a later one |
| JobSchedule.InsertedWaits | backend/app/api/analysis_jobs.py:108-122 | a submitted job can be claimed from its submission on, and nothing else can be done to it |
| JobSchedule.ClaimedRuns | backend/app/services/analysis_job_queue.py:46-71 | after a claim its worker alone can renew or fail the job, nobody can claim it, and a sweep takes it exactly once the lease has passed; the claim counts one attempt and installs the limit it was given |
| JobSchedule.RenewedRuns | backend/app/services/analysis_job_queue.py:87-100 | the same after a renewal, with the new lease and no attempt counted |
| JobSchedule.RecoveredWaits | backend/app/services/analysis_job_queue.py:136-158 | a recovered job can be claimed at once if attempts are left, and has failed for good with max_attempts_exceeded if not |
| JobSchedule.RetriedWaits | backend/app/services/analysis_job_queue.py:180-243 | a retryable failure with attempts left lets no claim through for 5 to 6 seconds after the first attempt, 30 to 35 after the second and 120 after any later one, and every claim from then on |
| JobSchedule.FailedEnds | backend/app/services/analysis_job_queue.py:244-252 | any other failure is final: only a success write, which asks nothing, still takes effect, and the error code says why |
| JobSchedule.CompletedEnds | backend/app/services/analysis_job_queue.py:200-208 | a completed job is released and has no error, and only another success write takes effect |
| JobSchedule.RetryWaitsItsTurn | backend/app/services/analysis_job_queue.py:238-243 | whatever other workers and sweeps do meanwhile, a retried job is untouched until its wait is over and can be claimed then |
| JobSchedule.IdentityIsKept | backend/app/services/analysis_job_queue.py:27-252 | no statement changes document, fingerprint, submission time or first start, and only releases change the place in the queue |
| JobSchedule.MessagesAre | backend/app/services/analysis_job_queue.py:15-16 | the retry message while a retry is due, the failure message for good |
| JobRows.StepKeepsTable | backend/app/services/analysis_job_queue.py:27-252 | each queue statement keeps the row invariant (which columns are set in which status, a pending row still has an attempt left, active key equals fingerprint while active) and the uniqueness of active keys |
| JobRows.RunKeepsTable | backend/app/services/analysis_job_queue.py:27-252 | the same over every interleaving of any number of processes |
| JobRows.OneActiveJobPerFingerprint | backend/app/db/models.py:111-114 | in every reachable table at most one pending or running job exists per fingerprint |
| JobRows.LeaseIsAnEpoch | backend/app/services/analysis_job_queue.py:127-165 | if a row still shows the expired lease a sweep read, nothing has happened to it since; a row to which something happened is not stale any more |
| JobRows.StepDecreases | backend/app/services/analysis_job_queue.py:46-75 | every claim, recovery and finish uses up exactly one unit of 2(M - attempts) plus one if running; renewals use none |
| JobRows.BoundedAttempts | backend/app/services/analysis_job_queue.py:46-75 | when all workers pass the same limit M, attempts never exceed M and a job advances at most 2M times over any run |
| JobRows.AttemptsUpToLargestLimit | backend/app/services/analysis_job_queue.py:59-63 | with differing limits attempts stay within the largest limit ever in force, the initial 3 included |
| JobRows.OwnLimitCanBeExceeded | backend/app/services/analysis_job_queue.py:53-63 | a run after which a job runs an attempt beyond the limit its own row carries |
| JobRows.OwnLimitKeptIff | backend/app/services/analysis_job_queue.py:53-63 | a statement keeps a job within its own row's limit if and only if it is not a claim of it that installs a limit no greater than the attempts already made |
| JobRows.AlwaysWithinIff | backend/app/services/analysis_job_queue.py:53-63 | over any run a job is within its own row's limit in every state if and only if no claim of it does that |
| JobRows.TerminalAbsorbs | backend/app/services/analysis_job_queue.py:46-55 | completed and failed rows are left alone by every statement but a success write for that very job |
| JobQueue.JobTable.Enqueue | backend/app/api/analysis_jobs.py:98-138 | for whatever others commit in its two pauses: an active job of the fingerprint at the start is the answer; otherwise the job is inserted after the first pause if then none is active and the identifier is free; otherwise the answer is the job active after the second pause, and the error is re-raised exactly when none is |
| JobQueue.KeysAreActiveJobs | backend/app/db/models.py:111-114 | the active key is taken exactly while a job of the fingerprint is active, and by that job alone |
| JobQueue.JobTable.ClaimNextJob | backend/app/services/analysis_job_queue.py:27-75 | for whatever others commit before each update: the first of the candidates that is still claimable at its turn is claimed on top of their commits, with a fresh lease, and nothing else is written; none is claimed exactly when none is |
| JobQueue.UndisturbedClaim | backend/app/services/analysis_job_queue.py:36-68 | undisturbed that is the earliest claimable job, and none only if no job is claimable |
| JobQueue.JobTable.SelectClaimable | backend/app/services/analysis_job_queue.py:36-45 | the candidates are the first twenty claimable rows in queue order |
| JobQueue.JobTable.RenewJobLease | backend/app/services/analysis_job_queue.py:78-100 | true exactly when the row runs under the worker; otherwise nothing changes |
| JobQueue.JobTable.RecoverStaleJobs | backend/app/services/analysis_job_queue.py:111-177 | for whatever others commit in its pauses: reading, deciding and the later conditional update amount, turn by turn, to the others' commits and one atomic recovery of a row still stale when read; the counters are those of the recoveries that took effect |
| JobQueue.TallyAddsUp | backend/app/services/analysis_job_queue.py:173-177 | recovered is retried plus failed |
| JobQueue.TallyCounts | backend/app/services/analysis_job_queue.py:166-177 | the counters are the numbers of turns that released a job, gave it up, or did either |
| JobQueue.TurnOutcomeMeans | backend/app/services/analysis_job_queue.py:127-172 | a turn counts as retried when it leaves the job pending, as failed when it leaves it failed, and not when it leaves it alone |
| JobQueue.SweptAre | backend/app/services/analysis_job_queue.py:111-172 | every row the others leave alone ends recovered if it was stale and unchanged if it was not |
| JobQueue.NothingStaleIsLeft | backend/app/services/analysis_job_queue.py:111-172 | undisturbed, no stale row is left |
| JobQueue.JobTable.WriteRecovery | backend/app/services/analysis_job_queue.py:135-172 | the update on the lease read before takes effect exactly when the row, whatever others have committed, is still stale, and then nothing has happened to it: it is the atomic recovery |
| JobQueue.JobTable.FinishJobSuccess | backend/app/services/analysis_job_queue.py:190-208 | the check is against the loaded copy, the write completes the stored row whatever it is |
| JobQueue.JobTable.FinishJobFailure | backend/app/services/analysis_job_queue.py:211-252 | claim_lost exactly when the stored row is not the worker's; otherwise pending exactly when the error is retryable and attempts are left, with the rung's wait in seconds, and failed with its code and finishing time if not |
| Pipeline.AttemptIsUnique | backend/app/services/analysis_pipeline.py:689-813 | an attempt is one item per clause in order with every check passed, or the first failing clause's error; these determine the outcome |
| Pipeline.AttemptItemsMatch | backend/app/services/analysis_pipeline.py:540-561 | a loop that ran to the end gives items in one-to-one correspondence with the clauses, each under document:clause:ordinal |
| Pipeline.PassesIff | backend/app/services/analysis_pipeline.py:540-561 | a clause passes exactly when it stands under document:clause:ordinal and is answered under that reference; a provider's error is raised as it is, every mismatch as another error |
| Pipeline.InOrderIs | backend/app/workers/analysis_worker.py:135 | the loop visits every clause of the document once, in ascending ordinals |
| Pipeline.ReferenceIdsDiffer | backend/app/services/analysis_pipeline.py:544-546 | different ordinals of a document have different references |
| Pipeline.UnitOfWork.RunAnalysisPipeline | backend/app/services/analysis_pipeline.py:689-813 | a failure at any clause leaves nothing added and the stored items as they were; otherwise the added items are the attempt's |
| WorkerProtocol.StepKeepsInv | backend/app/workers/analysis_worker.py:83-194 | every step of the system keeps the table invariant, the results of every job, and what each session may still believe about its row |
| WorkerProtocol.RunKeepsInv | backend/app/workers/analysis_worker.py:83-248 | the same over whole runs |
| WorkerProtocol.SuccessWrites | backend/app/workers/analysis_worker.py:125-140 | a completing step stores exactly one item per clause of the job's document and touches no other job's items |
| WorkerProtocol.SucceedsIff | backend/app/workers/analysis_worker.py:125-148 | a finishing step completes its job if and only if the setup succeeds, every clause of the document passes, and the job owns no result yet or needs none |
| WorkerProtocol.SuccessStoresAnswers | backend/app/services/analysis_pipeline.py:775-800 | a completing step stores under each clause's identifier and reference that clause's own answer |
| WorkerProtocol.CompletesIff | backend/app/workers/analysis_worker.py:120-148 | the finishing transaction completes if and only if the loaded copy names the worker, the setup succeeds, every clause passes, and no item of one of them is stored that the opening DELETE did not remove |
| WorkerProtocol.SecondCopyConflicts | backend/app/db/models.py:161-166 | a second full set of items conflicts with the unique constraint exactly when a first one is stored |
| WorkerProtocol.FailedFinish | backend/app/workers/analysis_worker.py:141-148 | a finish that does not complete the job is one guarded failure write, with the error of the setup, or of the first clause that does not pass, or of the constraint, and stores no item |
| WorkerProcess.AnalysisStore.ProcessJob | backend/app/workers/analysis_worker.py:98-177 | for whatever others commit before the load and during the attempt: a job not held at loading is left alone, otherwise tables and answer are those of the one finishing transaction on top of their commits; the answer is completed if and only if the job was held, the setup succeeded, every clause passed and no other item of them was in the way |
| WorkerProcess.CommitStores | backend/app/workers/analysis_worker.py:120-140 | a success commit of another process replaces the items of its job and nothing else does |
| WorkerProcess.ProcessIsLoadAndFinish | backend/app/workers/analysis_worker.py:98-177 | in a state of the system that transaction is what the worker's Load and Finish steps commit |
| ClauseInputs.UnpreparedAborts | backend/app/services/analysis_pipeline.py:564-597 | a clause that cannot be prepared ends the attempt that reaches it, with an error that is not retryable |
| ClauseInputs.CompletedMeansPrepared | backend/app/services/analysis_pipeline.py:689-813 | in every reachable state every stored clause of a completed job's document has a prepared input |
| ClauseInputs.UnpreparedNeverCompletes | backend/app/services/analysis_pipeline.py:689-813 | a job of a document with residual personal data, or any clause that cannot be masked, never completes and never owns a result |
| ClauseInputs.UnpreparedFailsForGood | backend/app/services/analysis_job_queue.py:225-252 | the first attempt that reaches such a clause fails the job, however many attempts are left |
| WorkerFencing.ResultsAllOrNothing | backend/app/workers/analysis_worker.py:125-148 | in every reachable state a completed job owns exactly one item per stored clause of its document, in ascending ordinals, each under its reference, and every other job owns none |
| WorkerFencing.OnlyOwnerOrExpiryMovesAClaim | backend/app/services/analysis_job_queue.py:78-252 | a running row changes only by its own worker's heartbeat or finish, a sweep that finds the lease expired, or a stale success |
| WorkerFencing.LostClaimsStayLost | backend/app/services/analysis_job_queue.py:87-100 | once a session's claim is gone it stays gone until the session ends, and renewals change nothing |
| WorkerFencing.LostClaimFailureIsHarmless | backend/app/services/analysis_job_queue.py:222-224 | a failing finish after a lost claim reports claim_lost and writes nothing |
| WorkerFencing.SuccessIsFencedIff | backend/app/services/analysis_job_queue.py:197-208 | the guard always passes; a completion ends the worker's own attempt if and only if the stored row still names the worker |
| WorkerFencing.EndedStep | backend/app/services/analysis_job_queue.py:190-252 | an ended job stays ended; a step writes it again if and only if it is a stale success, and changes its status if and only if that success finds it failed; otherwise row and items stay as they are |
| WorkerFencing.EndWritesCounted | backend/app/services/analysis_job_queue.py:190-252 | over any run the terminal writes of a job, completions of an ended row included, are its ending and every stale success over it, counted exactly; without the latter an ended row and its items never change |
| WorkerFencing.OneEndIff | backend/app/services/analysis_job_queue.py:190-252 | a job has at most one terminal write if and only if no stale success hits its ended row |
| WorkerFencing.FencedTerminalIsFinal | backend/app/services/analysis_job_queue.py:190-252 | if nobody completes the job without holding it, completed and failed are absorbing, row and results alike, and the run has at most one terminal write of the job |
| WorkerTiming.SweptIffLate | backend/app/services/analysis_job_queue.py:111-172 | in every reachable state a sweep takes the job a live session owns if and only if that worker's last beat is longer ago than its lease, whatever the other workers did |
| WorkerTiming.TimelyWorkerKeepsItsClaims | backend/app/workers/analysis_worker.py:66-80 | one worker that is on time keeps its claims over any run, however late all others are, unless a stale success of somebody else completes its job |
| WorkerTiming.PunctualIsOnTime | backend/app/workers/analysis_worker.py:40-47 | under a valid configuration a worker that renews every heartbeat, late by at most lease minus heartbeat, is on time throughout |
| WorkerTiming.TimelyRunIsFenced | backend/app/workers/analysis_worker.py:66-80 | if the workers whose sessions are on a job renew in time, each of them keeps it and no stale success completes it |
| WorkerTiming.TimelyTerminalIsFinal | backend/app/workers/analysis_worker.py:66-148 | in such a run the job has at most one terminal write, and its row and items stay equal from the first state in which it has ended |
| WorkerTiming.UndisturbedWorkerCompletes | backend/app/workers/analysis_worker.py:98-177 | an idle worker that takes a claimable job, loads it and has every clause answered completes it, with every answer stored |
| WorkerTiming.SessionEnds | backend/app/workers/analysis_worker.py:98-194 | a finish, a crash and a load that finds the claim gone leave the worker free, nothing but its own steps moves its session, and only an idle worker takes a job |
| WorkerTiming.LateSuccessOverwritesFailure | backend/app/services/analysis_job_queue.py:197-208 | a run in which a worker past its lease completes a job that recovery has failed |
| Normalization.NormalizeIdempotent | backend/app/services/pii_masking.py:109-113 | a normalised text has no carriage return and normalising it again changes nothing |
| Normalization.LineBreaksBecomeLineFeeds | backend/app/services/pii_masking.py:109-113 | every CRLF, lone carriage return and line feed becomes exactly one line feed, and all other characters stay in their order |
| Normalization.RefusedIff | backend/app/services/pii_masking.py:111-112 | only a text that begins with a byte order mark is refused |
| LabelledValues.BuildLineSpans | backend/app/services/pii_masking.py:116-125 | the loop's running offset gives every kept line its own start, its end without the line feed, and its body |
| LabelledValues.SpanIsTheText | backend/app/services/pii_masking.py:116-125 | every line's body is the text at the line's offsets |
| LabelledValues.LineSpansCover | backend/app/services/pii_masking.py:116-125 | no character but a line feed falls between two lines |
| LabelledValues.TrimSpan | backend/app/services/pii_masking.py:136-141 | the two loops leave the stretch without white space at either end, and drop nothing else |
| LabelledValues.ValueEndsAtNextLabel | backend/app/services/pii_masking.py:144-150 | a value ends where the next boundary label begins, or at the line's end, and no boundary label begins before that |
| LabelledValues.ValueMeans | backend/app/services/pii_masking.py:169-186 | a candidate is not empty, comes after its label on the same line, runs into no boundary label, and without a pattern is trimmed and no mask token |
| LabelledValues.ValueAfterIs | backend/app/services/pii_masking.py:164-198 | the value is the trimmed stretch up to the next boundary label or the line's end, or with a pattern its first match there; it is a candidate unless it is empty or, without a pattern, a mask token |
| LabelledValues.ScanFindsAll | backend/app/services/pii_masking.py:164-198 | on a line, the scan for a label that cannot overlap itself yields exactly the values of all its occurrences |
| LabelledValues.ColonEndedIsBorderless | backend/app/services/pii_masking.py:36-59 | a label with one colon, at its end, cannot overlap itself |
| LabelledValues.LabelledValuesAre | backend/app/services/pii_masking.py:153-199 | over all lines and labels the nested loops find a span if and only if it is the value of some occurrence of some label |
| LabelledValues.LabelledValueCandidates | backend/app/services/pii_masking.py:153-199 | the method's candidates are those spans, numbered consecutively from the order it was given |
| Detection.CandidatesAre | backend/app/services/pii_masking.py:307-343 | a span of a type is a candidate if and only if it is the value of some occurrence of a label of a group of that type, or a non-empty match of a pattern of that type |
| Detection.DetectCandidates | backend/app/services/pii_masking.py:307-343 | the loops return exactly the text's candidates, label groups first and then patterns, non-empty spans of the text with detection orders 0, 1, 2, ... |
| MaskTokens.TokenRoundTrip | backend/app/services/pii_masking.py:399 | a printed token is one match of the token pattern and reads back as its type and ordinal |
| MaskTokens.TokenExtends | backend/app/services/pii_masking.py:93 | a match stays the same match whatever text follows it |
| MaskTokens.TokenStopsBefore | backend/app/services/pii_masking.py:93 | no match crosses into text that starts with a bracket |
| MaskTokens.TokenLenIff | backend/app/services/pii_masking.py:93 | the scanner finds exactly the matches of the token pattern, a bracket, capitals and underscores, an underscore, digits, a bracket, and reads each in one way |
| MaskTokens.PrintableIff | backend/app/services/pii_masking.py:399 | exactly the numbers of at most 4300 digits can be printed |
| MaskTokens.FindPreexistingMaskTokens | backend/app/services/pii_masking.py:230-252 | an error exactly when a token of a known type has an ordinal of more than 4300 digits; otherwise the left-to-right scan returns exactly the positions where a known token with a positive ordinal starts |
| TokenLimits.MaskedIsReadable | backend/app/services/pii_masking.py:412-422 | masking a text with no such token gives a text with none |
| SpanResolution.DeduplicateAndResolve | backend/app/services/pii_masking.py:259-297 | the result is in text order, pairwise disjoint, clear of every protected span, made of candidates only, and every dropped candidate overlaps a protected span or a selected candidate that precedes it |
| SpanResolution.OverlapIff | backend/app/services/pii_masking.py:225-256 | candidates and protected spans overlap exactly when some place lies in both |
| SpanResolution.ResolutionIsUnique | backend/app/services/pii_masking.py:275-296 | with distinct detection orders no other selection meets that promise |
| SpanResolution.KeptIfBest | backend/app/services/pii_masking.py:275-296 | a candidate clear of protected spans is masked if no other that overlaps it is further left, longer at the same start, or of higher rank on the same span; one that is not masked overlaps a masked one that is |
| SpanResolution.LeftmostLongestKept | backend/app/services/pii_masking.py:275-283 | a candidate is masked if every other that overlaps it starts later, or starts there and ends sooner, or is the same span of lower rank |
| SpanResolution.RankIsPriority | backend/app/services/pii_masking.py:263-272 | people, addresses and birth dates before phones and business numbers, before national identity numbers, before e-mail, before account numbers, before all other types |
| SpanResolution.CardBeatsAccount | backend/app/services/pii_masking.py:275-283 | a card number is masked whole although its first groups look like an account number |
| SpanResolution.PhoneBeatsAccount | backend/app/services/pii_masking.py:263-283 | of equal spans the phone number is masked, not the account number |
| TokenAllocation.HighestIsBound | backend/app/services/pii_masking.py:369-376 | no token already present has an ordinal above the highest of its type |
| TokenAllocation.NumbersAreInjective | backend/app/services/pii_masking.py:391-401 | two values of a type get the same ordinal if and only if they are equal |
| TokenAllocation.NumbersAreConsecutive | backend/app/services/pii_masking.py:387-401 | the new ordinals of a type are exactly the consecutive block above the ones present |
| Masking.TokensAreBijective | backend/app/services/pii_masking.py:391-401 | two entities get the same token if and only if they have the same type and the same text |
| Masking.AssignMaskTokens | backend/app/services/pii_masking.py:379-409 | an error exactly when some ordinal has more than 4300 digits; otherwise the loop over its two dictionaries gives every entity the token of its value's ordinal and marks every occurrence after the first as repeated |
| Masking.MaskText | backend/app/services/pii_masking.py:412-422 | for ordered spans the output is the exact interleaving of untouched gaps and tokens |
| Masking.MaskedPositions | backend/app/services/pii_masking.py:412-422 | its length is the text's plus what each token adds over its span, and putting the slices back where the tokens stand gives the text |
| Masking.UnmaskInverts | backend/app/services/pii_masking.py:412-422 | if no token of the table is a match in the source, replacing tokens by values in the masked text alone gives the source back |
| Masking.NewTokenIsForeign | backend/app/services/pii_masking.py:385-401 | no match in the source is a newly assigned token |
| Masking.MaskedTextReadsBack | backend/app/services/pii_masking.py:379-422 | resolving, assigning and rewriting a text can be undone from the masked text and the token table alone |
| Masking.PreexistingSurvive | backend/app/services/pii_masking.py:446-448 | a token found in the source occurs in the masked text |
| Masking.MaskedIsNormalized | backend/app/services/analysis_pipeline.py:578-590 | masking a normalised text gives a normalised text, so detecting in it again looks at the very same text |
| MaskDocument.DetectEntities | backend/app/services/pii_masking.py:307-366 | an error exactly for a byte order mark, for a known token whose ordinal is too long to read, and for a new ordinal too long to print; otherwise the entities are the resolution of the text's candidates around the tokens already there, with tokens assigned |
| MaskDocument.DetectionIsDetermined | backend/app/services/pii_masking.py:275-366 | text, groups and patterns leave no choice: two results that meet that promise are equal |
| MaskDocument.DetectAndMask | backend/app/services/pii_masking.py:425-462 | fails exactly when detection does; otherwise the masked text is the text with the detected entities replaced, and with collision avoidance on, whatever the text and the patterns, token_collision_avoided holds, both failure counts are zero, and the masked text reads back as the source |
| MaskDocument.BuildProviderInput | backend/app/services/analysis_pipeline.py:564-597 | the collision error never occurs; masking's own errors are passed on; otherwise the masked text reads back as the clause, and the input is prepared if and only if every candidate of it overlaps a token standing in it, and an error if not |
| MaskDocument.InputIsDetermined | backend/app/services/analysis_pipeline.py:564-597 | body, groups and patterns leave no choice of input |
| RateLimitSpec.EveryWindowIsLimited | backend/app/core/rate_limit.py:42-57 | with a counter that never forgets, no window of the configured length, wherever it starts, holds more admissions of a key than its limit |
| RateLimit.InMemoryRateLimiter.CheckKey | backend/app/core/rate_limit.py:42-57 | the in-place check does to dictionary and deques what the specification function says and decides as it says |
| RateLimit.InMemoryRateLimiter.RemoveExpiredKeys | backend/app/core/rate_limit.py:59-68 | exactly the keys with a live timestamp are kept, the oldest-inserted of them dropped until the dictionary fits |
| RateLimit.DecidesLikeHistory | backend/app/core/rate_limit.py:42-57 | a limiter in step with the full history admits if and only if fewer than limit admitted timestamps lie in the window, and a denial's retry_after is between 1 and the window |
| RateLimit.CheckRemembersIff | backend/app/core/rate_limit.py:54-68 | a check keeps the limiter in step with the history if and only if it is denied or the live keys, the one just charged included, fit the capacity |
| RateLimitRuns.CheckDecidesIff | backend/app/core/rate_limit.py:54-68 | after a check of a limiter in step, every next check, whatever its key, limit and time, is decided as the history decides it if and only if this one was denied or the live keys fit the capacity |
| RateLimit.CapacityIsKept | backend/app/core/rate_limit.py:54-68 | after every check the dictionary fits its capacity, and the key just charged is still there |
| RateLimit.EvictKeepsNewest | backend/app/core/rate_limit.py:67-68 | eviction drops the keys inserted first and keeps the deques of the others |
| RateLimit.LiveKeysInOrder | backend/app/core/rate_limit.py:60-66 | removing expired keys keeps the others in order of insertion |
| RateLimit.IndexErrorIff | backend/app/core/rate_limit.py:49-53 | the empty deque is indexed exactly when a limit of zero or less meets a key with nothing in the window |
| RateLimit.InMemoryRateLimiter.BucketCount | backend/app/core/rate_limit.py:74-77 | the length of the insertion order is the number of keys in the dictionary |
| RateLimitRuns.GrantsLikeHistory | backend/app/core/rate_limit.py:42-68 | over any run on a monotone clock in which live keys fit the capacity, the limiter grants exactly what the history admits |
| RateLimitRuns.LimiterHoldsEveryWindow | backend/app/core/rate_limit.py:42-68 | hence the limiter itself grants no key more than its limit in any window of the configured length |
| RateLimitRuns.DenialMeansFull | backend/app/core/rate_limit.py:49-53 | under a fixed limit a denial means exactly limit live admissions |
| RateLimitRuns.RetryAfterIsExact | backend/app/core/rate_limit.py:49-53 | after a denial and any run of checks of other keys whose live keys fit, the next check of the key is allowed if and only if the oldest live timestamp has left the window, in whole seconds if and only if retry_after has passed |
| RateLimitRuns.ReachedInStep | backend/app/core/rate_limit.py:42-68 | the limiter is in step with the history, as that theorem asks, after every run from the empty limiter whose live keys fit |
| RateLimitRuns.EvictionOverAdmits | backend/app/core/rate_limit.py:59-68 | with a capacity of one, checks of a, b and a within two seconds are all allowed at one request a minute, where the history denies the third |
| TextLayout.BuildLines | spikes/v0.2.1-core-validation/scripts/clause_split/split_clauses.py:105-114 | the lines are exactly the text cut at its line breaks, each with its own offsets |
| TextLayout.BuildParagraphs | spikes/v0.2.1-core-validation/scripts/clause_split/split_clauses.py:117-139 | paragraphs are the maximal runs of lines that are not blank: none blank inside, a blank line between, every other line in one |
| TextLayout.JoinedLinesAreTheText | spikes/v0.2.1-core-validation/scripts/clause_split/split_clauses.py:47-49 | joining a paragraph's lines with line breaks gives the text between its offsets |
| TextLayout.ParagraphsLayOutTheText | spikes/v0.2.1-core-validation/scripts/clause_split/split_clauses.py:117-139 | paragraphs are ordered, separated, non-blank stretches that hold every character that is not white space |
| TextLayout.BlankBetween | spikes/v0.2.1-core-validation/scripts/clause_split/split_clauses.py:247-248 | the text between two paragraphs is blank if and only if they are neighbours |
| ClauseSplit.AppendUnclassified | spikes/v0.2.1-core-validation/scripts/clause_split/split_clauses.py:245-254 | the last section is stretched over the paragraph when only white space lies between, otherwise a section is added |
| ClauseSplit.SplitText | spikes/v0.2.1-core-validation/scripts/clause_split/split_clauses.py:257-290 | all sections together are slices made of whole paragraphs, no two overlap, every character that is not white space is in one, every paragraph is in a section of the kind its first line announces, ordinals are 1..n in text order, consecutive unclassified sections have non-blank text between them, and the warning means no paragraph starts a clause |
| ClauseSplit.HomeIsUnique | spikes/v0.2.1-core-validation/scripts/clause_split/split_clauses.py:265-276 | a paragraph lies in only one section of such a split |
| ClauseSplit.UnclassifiedMerged | spikes/v0.2.1-core-validation/scripts/clause_split/split_clauses.py:247-253 | stretching the last section in place keeps the assignment of paragraphs to sections and their order |
| ReviewRuns.SavesIff | backend/app/api/extractions.py:1821-1951 | a patch is saved if and only if the extraction is open for review, the page is the first with the identifier, required, not failed, the version named is the page's, and the text (its own if it is to stay as it is) is valid |
| ExtractionReview.Extraction.BuildReviewSummary | backend/app/api/extractions.py:463-528 | the loop's counters, blocking reasons and status are those of the pages |
| ExtractionReview.Extraction.BuildCanConfirm | backend/app/api/extractions.py:1594-1623 | the flag computed from a summary is the one defined on the state |
| ExtractionReview.Extraction.PatchPageReview | backend/app/api/extractions.py:1803-1997 | the method refuses, shows or saves exactly as decided; refusals change nothing and name the first failing check |
| ExtractionReview.Extraction.BuildConfirmationSnapshot | backend/app/api/extractions.py:1655-1795 | the loop returns the snapshot of the pages in number order, or the first refusal it meets, and counts the changed pages |
| ExtractionReview.Extraction.ConfirmExtraction | backend/app/api/extractions.py:2047-2218 | the method refuses, repeats the stored snapshot, or seals the extraction exactly as decided |
| ReviewRuns.RunTracks | backend/app/api/extractions.py:1803-2192 | in every reachable state each page's status, texts, flag and version are what its accepted patches and a confirmation make of them |
| ReviewRuns.ConfirmedIsWhatWasAccepted | backend/app/api/extractions.py:1714-1762 | a confirmed page holds the text of its last accepted patch, or the original if there was none; text_source is edited if and only if that differs from the original; every required page was accepted at least once |
| ReviewRuns.FailedPageIsNeverConfirmed | backend/app/api/extractions.py:1700-1708 | an extraction with a failed page is never confirmed, and the page is never patched |
| ReviewRuns.VersionsCount | backend/app/api/extractions.py:1953-1986 | a page's version is one more than its accepted patches, the extraction's one more than all of them, and a confirmation adds one to each |
| ReviewRuns.ConfirmationIsFinal | backend/app/api/extractions.py:1821-1828 | once confirmed no request changes anything, every patch is refused, and confirming at the current version gives the stored snapshot |
| ReviewRuns.OneWinnerPerVersion | backend/app/api/extractions.py:1861-1874 | of two patches of a page that name the same version and do not overlap only the first can be accepted, however much lies between, and a confirmation naming the version an accepted patch found is refused |
| ReviewOverlap.NoneBetweenIsAtomic | backend/app/api/extractions.py:1803-2192 | requests that overlap in time, each loading a copy and committing on it, do what they do one after the other as long as nobody commits between a request's load and its commit |
| ReviewOverlap.BothWinIff | backend/app/api/extractions.py:1861-1874 | a patch that names the version of an accepted one is accepted too if and only if it loaded before the other's commit and after the page's last accepted patch before that |
| ReviewOverlap.StaleAcceptIff | backend/app/api/extractions.py:1861-1951 | a patch accepted on its copy is one a fresh read would refuse if and only if the extraction has been confirmed or the page has another version |
| ReviewOverlap.SecondPatchErasesFirst | backend/app/api/extractions.py:1944-1986 | two patches loaded before either commits are both accepted, the text of the first is lost, and the version counts one |
| ReviewOverlap.PatchErasesSnapshot | backend/app/api/extractions.py:1944-1986 | a patch loaded before a confirmation and committed after it leaves a confirmed extraction without a snapshot |
| ReviewOverlap.StaleConfirmationRevives | backend/app/api/extractions.py:2131-2192 | a confirmation that loaded before a patch committed writes its own copy's pages and snapshot over it |
| ReviewConfirmation.CanConfirmMeans | backend/app/api/extractions.py:1594-1623 | before confirmation can_confirm holds if and only if no page failed and every required page is reviewed or no review is asked for |
| ReviewStored.StoredFlagIff | backend/app/api/extractions.py:1975-1992 | over any run before confirmation the stored can_confirm holds if and only if no page failed and every required page is reviewed or no review is asked for |
| ReviewStored.PatchStores | backend/app/api/extractions.py:1951-1995 | an accepted patch writes text, change flag, status, version and time on its page, raises the extraction's version, and leaves everything else |
| ReviewStored.PatchRefreshes | backend/app/api/extractions.py:1987-1992 | after it the stored status says whether required pages are left, and the stored flag and reasons are those of the pages |
| ReviewStored.BlockingReasonsAre | backend/app/api/extractions.py:488-506 | the reasons are the failures of blocked pages, each once, and the general one when review is asked for, a page requires it and one failed |
| ReviewStored.ConfirmationStores | backend/app/api/extractions.py:2131-2192 | a confirmation stamps pages and extraction, stores the snapshot, and leaves nothing to confirm |
| ReviewStored.PatchRefusals | backend/app/api/extractions.py:1821-1951 | each refusal of a patch has its own cause, in the order of the checks; an outdated version is a page conflict |
| ReviewStored.NamedVersion | backend/app/api/extractions.py:1861-1866 | a patch names the version of its payload, and without one the header's |
| ReviewStored.ValidTextIff | backend/app/api/extractions.py:1626-1652 | a valid text has no null character, is not blank, and has at most 200,000 characters |
| ReviewStored.PageRefusals | backend/app/api/extractions.py:1700-1748 | a page is refused as failed, not reviewed, blank or too long, in this order |
| ReviewStored.FirstRefusal | backend/app/api/extractions.py:1690-1762 | the refusal of the pages is that of the first in number order that is not ready |
| ReviewStored.ConfirmationRefusals | backend/app/api/extractions.py:2047-2129 | a confirmation is refused for its version, the page numbers, the first page that is not ready, and the length of all texts, in this order |
| ReviewStored.FirstReceiptMeans | backend/app/api/extractions.py:2120-2218 | the first receipt names the new versions, all pages, the total length, and no changed page exactly when none was changed |
| ReviewStored.SnapshotIdsAre | backend/app/api/extractions.py:1681-1690 | the snapshot names a page by its identifier, and one without by its number |
| ReviewConfirmation.ReviewStatusMeans | backend/app/api/extractions.py:503-518 | the statuses not_required, partially_reviewed and ready_to_confirm in terms of the pages |
| ReviewConfirmation.ConfirmsIff | backend/app/api/extractions.py:2063-2129 | a first confirmation succeeds if and only if it names the current version, the pages are well numbered, each is ready, and together they are not too long |
| ReviewConfirmation.CanConfirmSufficesIff | backend/app/api/extractions.py:1594-1623 | when can_confirm is shown, confirming succeeds if and only if pages are well numbered, short enough together, and every page nobody reviewed is optional with a fitting text |
| ReviewConfirmation.StoredConfirmsIff | backend/app/api/extractions.py:1158-1231 | of an extraction as the uploads store it, a first confirmation succeeds if and only if it names the current version, no page failed, every required page was accepted, and the texts together are within the limit |
| ReviewConfirmation.StoredCanConfirmSufficesIff | backend/app/api/extractions.py:1158-1231 | of such an extraction that shows can_confirm, confirming succeeds if and only if the texts together are within the limit |
| ReviewConfirmation.CanConfirmIsNotEnough | backend/app/services/pdf_extraction.py:272-286 | a PDF of n full-length usable pages, which is stored for n up to ten, shows can_confirm and can be confirmed if and only if n is at most five |
| ReviewConfirmation.SecondReceipt | backend/app/api/extractions.py:2082-2129 | confirming again repeats snapshot, versions and length, counts the required pages as confirmed and none as changed; so the receipts are equal if and only if every page was required and none changed |
| ReviewConfirmation.SecondReceiptCanDiffer | backend/app/api/extractions.py:2082-2129 | after one edited page the first receipt counts one changed page and the repeated one none |
| ReviewConfirmation.FlagAfterConfirmation | backend/app/api/extractions.py:1576 | after a confirmation the stored can_confirm is off, and the computed one holds if and only if no review was asked for or no page required it |
| ReviewConfirmation.FlagsCanDisagree | backend/app/api/extractions.py:1576 | a PDF that needed no review, once confirmed, still computes can_confirm |
| Decimal.ParsePrint | backend/app/services/pii_masking.py:239 | reading a printed number gives the number back |
| Decimal.DigitsIff | backend/app/services/pii_masking.py:399 | a number has at most d digits exactly when it is below the d-th power of ten |
| Decimal.DigitOfBlock | backend/app/services/pii_masking.py:239 | the ten characters of every block of decimal digits stand for 0 to 9 |
| Sorting.SortSorts | backend/app/services/pii_masking.py:275-297 | the sort used throughout orders its input and permutes it |
| Sorting.SortIsStable | backend/app/services/pii_masking.py:275-297 | elements that tie keep their order |

## Left out

- `run_analysis_pipeline` outside worker mode, which sets a status without clearing the active key.
- Provider, masking and content checks inside the pipeline appear as one outcome per clause, an answer or an error; `ClauseInputs` ties the masking part of it to the clause's body.
- `_heartbeat_loop` and `run_worker` appear as protocol steps (renewals, sweeps, claims at any moment), not as loops with threads and sleeps.
- SQLAlchemy sessions, identity maps and flushes beyond the loaded copy described above; the success write is taken to assign all the columns it names.
- The regular expressions: pattern matches (taken to be non-empty stretches of the text searched), what a value pattern finds in a value, and what counts as a mask token inside a labelled value are parameters; the span form of the token pattern is modelled in full.
- White space is a parameter wherever the code strips or calls `isspace`.
- `source_hash`, dense-cluster warnings and line numbers of candidates: labels on a result that steer nothing.
- That a second detection pass over the masked text finds nothing: it does not follow for all texts, and the code checks it when it runs; `MaskDocument.BuildProviderInput` states which outcome each text has.
- The limiter's lock: a check is one atomic step, its clock reading included. The code reads the clock before it takes the lock (`backend/app/core/rate_limit.py:42-44`), so two threads can append timestamps out of order; runs here have a monotone clock. A limit of zero or less can make the code index an empty deque, which appears as the outcome `IndexError`; the agreement with the history is stated for limits of at least one and one window length, the configured one that every caller passes (`backend/app/core/rate_limit.py:134` and `:152`).
- Clause titles, bodies, heading warnings, reference identifiers and hashes of the splitter; marker detection is a function of a paragraph's first line.
- Reading the If-Match header, previews, blocks, methods, warnings, checksums and the `blocked` flag of review answers: copied or computed without effect on the state.
- `ExtractionReview.Extraction.ConfirmPages` visits the pages in list order where the code visits them in number order; the visits do not depend on each other.
- Review requests that load an extraction while another commits its pages one by one.
- HTTP routing, authentication, logging, encryption, OCR, PDF handling, file cleanup and the front end.
