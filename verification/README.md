# Verified model of the durable kernel

This project models the durable kernel of the platform in Dafny and proves what
its documentation and code promise: no wake-up is lost, capacity is never
overbooked, nothing is approved by its author, references survive rewriting.
`dafny verify dfyconfig.toml` checks all of it.

Each component has two forms. A state value with one function per transaction
says what a transaction does, and the laws over all inputs, runs and
interleavings are lemmas about those functions. Where the program changes rows
step by step, a class holds the tables as fields and a method runs the same
branches, loops and early exits; its postcondition equates the tables with the
function's result, and a throw with unchanged tables. The modules named Effects,
Outcomes, Denials, Leaves, Publication and Value say when a transaction succeeds and
what it writes in terms of the rows alone, without those functions.

| component | modules | what it is about |
|---|---|---|
| Event fabric | EventFabric, EventFabricSafety, EventFabricAccounting, EventFabricEffects, EventFabricOutcomes, EventFabricRows | events and waits meet in either order, deadlines arbitrate, every woken wait gets one job and one claim |
| Work | WorkKernel, WorkEffects, WorkReconciliation, WorkStore | intake, transitions, handoff, recovery claims, wakes; status recomputed from child rows |
| Plans | PlanDiff, PlanRevisions, PlanEffects, PlanStore | the revision chain of a Work and what a revision keeps of its parent |
| Conversation memory | ConversationMemory, ConversationSafety, ConversationHistory, ConversationPublication, ConversationStore | messages, checkpoints over them, grounding and supersession |
| Capacity | ComputeGovernor, ComputeGovernorSafety, ComputeGovernorFences, ComputeEffects, ComputePool, ComputeControl | fenced all-or-nothing permits, and the singleton control lease |
| Charges | IdentificationCharges | allocation counters with an append-only charge ledger |
| Reconciliation desk | ReconcileDesk, ReconcileDeskSafety, ReconcileDeskEffects, ReconcileDeskDenials, ReconcileReplay | reconcile, approve and prepare under separation of duties |
| References | JsonPointer, ReferenceHoisting, ReferenceMeaning, ReferenceTargets, ReferenceScopes, ReferenceLeaves, ReferenceNesting, ReferencePasses | rebase, hoist and rewrite of local `$ref`s in the published API document |
| Subset optimum | SubsetOptimum, SubsetOptimumProof, SubsetOptimumResult, SubsetOptimumValue | the exact finite reference |
| Change feed | OperationalDeltas | cursors and pages behind them |
| Restore | BatchedRestore | rows of a dump into multi-row inserts |
| Shared | Basics, Decimal | optional values, outcomes, blank texts, decimal digits |

## Assumptions

- Transactions are serialised: one transaction is one atomic step, and its clock
  readings return one value. The tenant's advisory lock, the Work row lock and
  the policy row locks give this for the steps modelled. Where the code reads
  before it locks or reads the clock twice, the difference is stated:
  `ComputeGovernorFences.SplitRenewalCounts`,
  `WorkReconciliation.LateVerdictConflictsExactly` and
  `WorkKernel.LateContinuationKeepsLogExactly` let other transactions in
  between. The runs of `WorkKernel` take the continuation of an existing Work as
  serialised.
- The clock never runs backwards.
- Database triggers and code outside the modelled functions do not write the
  modelled rows, except in the ways the runs list: loops, plans, Works, open
  waits and external events of the event fabric change arbitrarily, and the
  deltas that are purged are a prefix of the feed.
- An optional id or key that is given is not the empty text, which the code would
  take for an absent one.
- Random ids and tokens are parameters; the database refuses a repeated one.
- SHA-256 and the digests built from it are injective. A digest is represented
  by what it is taken from.
- A checkpoint that parses has at least one source per item, quotes that are not
  empty, and positive sequences, as
  finnor-os/packages/shared-types/src/conversation-memory.ts requires. That its
  range is not empty is checked by the table alone
  (finnor-os/packages/db/migrations/postx_y6_conversation_memory.sql:12): an empty
  range is refused at the insert.
- The time that a checkpoint's source names is compared with its message's as an
  ISO text (finnor-os/packages/db/conversation-memory.ts:103); times are numbers
  here, so equal times are taken to have equal texts.
- Inputs of one Work are ordered by arrival; the order by creation time and the
  order of arrival agree.
- Rows come in the order of their position where the query names no order, and
  equal keys of an ordered query in the order of their position.

## What the proofs found

The code is modelled as it is. Where it keeps a promise only under a condition,
the condition is proved and the exception is exhibited.

- An event dated in the future when it is ingested is not looked at again when
  its time comes (`EventFabricAccounting.IngestMissesExactlyTheFuture`), and the
  deadline events that the fabric writes wake only their own wait
  (`EventFabricAccounting.DeadlineEventWakesNobodyElse`).
- The continuation of an existing Work writes the status it read before it took the
  row lock. When the Work has moved in between, the log breaks
  (`WorkKernel.LateContinuationKeepsLogExactly`).
- A context attached to an input after its intake makes an exact replay of that
  intake, which brings none, a conflict (`WorkKernel.ReplayedIntake`).
- A wake reopens Work from any status, so it can leave a terminal status without
  new input (`WorkKernel.WakeBreaksTheGuardExactlyOnTerminalWork`).
- A failed repair does not hold a Work back: with a completed action beside it the
  Work is completed. No failed action, run or operation is passed over
  (`WorkReconciliation.CompletedDespiteFailureExactly`, `FailedRepairCompletes`).
- Reconciliation reads and writes in two transactions. When the verdict is the
  status it read, it answers with that status even if others have moved the Work
  by then (`WorkReconciliation.LateAnswerIsStaleExactly`, `StaleAnswer`).
- Plan nodes that share hash and id but not the kind keep their stored order, so
  the record of a revision depends on it unless the tie is in the parent, kept and
  safely completed (`PlanDiff.TransitionIgnoresOrder`).
- Renewal reads the clock in two statements and locks no policy. A lease that
  lapses in between comes back, and capacity can be exceeded, although the
  comment above it says a stale token cannot revive
  (`ComputeGovernorFences.SplitRenewalOverbooks`).
- A control lease released in the very tick of its acquisition is still live in
  that tick and can be renewed (`ComputeControl.ReleaseEndsTheLeaseExactly`).
- An append key longer than 500 characters is stored cut and looked up whole, so
  its replay is refused instead of answered (`ConversationHistory.ReplayedAppend`).
- A definition table nested inside another definition is hoisted, but a
  reference into it is redirected below the outer definition and dangles
  (`ReferenceScopes.ReferencesKeepTheirMeaning` says exactly when,
  `ReferenceNesting.NestedReferenceDangles` is a document).
- A cursor ahead of the feed is answered with an empty page rather than a
  resynchronisation, so its reader misses what is appended up to there
  (`OperationalDeltas.CursorAheadSkips`, `StartAheadMisses`).
- With a negative budget that admits nothing, the best value is reported as zero
  and may fall when the budget grows (`SubsetOptimumResult.BestFallsExactly`).
- Column lists compared by joining names are told apart except with NUL or empty
  names, which the database does not have (`BatchedRestore.JoinedDecides`).

## Model

| member | source | states |
|---|---|---|
| EventFabricSafety.NoWakeUpIsLost | finnor-os/packages/db/event-fabric.ts:121-145 | no lost wake-up: over every interleaving of ingests, wait creations, deadline steps, withdrawals and ignores, an open wait is never left beside a stored, non-ignored event that fits it, unless the event was dated in the future at its last ingest and at the wait's creation (waits on `deadline.reached` excepted) |
| EventFabricSafety.IngestKeepsWatch | finnor-os/packages/db/event-fabric.ts:252-303 | one ingest, new or replayed, settles what its event fits and loses no earlier wake-up |
| EventFabricSafety.CreateWaitKeepsWatch | finnor-os/packages/db/event-fabric.ts:305-369 | one wait creation finds an event that came first, up to its deadline |
| EventFabricSafety.DeadlineKeepsWatch | finnor-os/packages/db/event-fabric.ts:374-414 | one deadline transaction loses no wake-up, whichever side wins |
| EventFabricAccounting.ExactlyOneWake | finnor-os/packages/db/event-fabric.ts:164-238 | in every run a satisfied or timed-out wait has exactly one claim and one wake job, any other wait has none; each claim agrees with the status, matched event, objective and job of its wait; every open wait with a deadline has its deadline job, due at deadline plus 2000 ms |
| EventFabricAccounting.LedgerInEveryRun | finnor-os/packages/db/event-fabric.ts:164-238 | over every run claims, wake jobs and deadline jobs form one ledger with the waits they name |
| EventFabricAccounting.InternalErrorsUnreachable | finnor-os/packages/db/event-fabric.ts:188-224 | the claim's two internal throws (a job without its claim, a moved objective revision) cannot arise after any run, whatever transaction comes next |
| EventFabricAccounting.TimeoutsAreEarned | finnor-os/packages/db/event-fabric.ts:374-414 | behind every timed-out wait of a run lies a deadline transaction of that run, for that wait's tenant, at or after deadline plus 2000 ms, in a state without a stored matching event |
| EventFabricAccounting.StepAdvancesWaits | finnor-os/packages/db/event-fabric.ts:164-186 | a wait that has left `waiting` never changes again, and no step rewrites a wait's contract |
| EventFabricAccounting.IngestSettlesExactlyTheMatches | finnor-os/packages/db/event-fabric.ts:240-303 | an ingest settles an open wait if and only if its event matches it now |
| EventFabricAccounting.DueDeadlineSettles | finnor-os/packages/db/event-fabric.ts:374-414 | a due deadline settles its wait: an earlier matching event beats the time-out, a stale generation withdraws it, and no other wait is touched |
| EventFabricAccounting.FutureDatedEventIsMissed | finnor-os/packages/db/event-fabric.ts:240-250 | the first exception in a whole run: a concrete one leaves a wait open beside an event that was future-dated when ingested |
| EventFabricAccounting.IngestMissesExactlyTheFuture | finnor-os/packages/db/event-fabric.ts:240-303 | an ingest passes over an open wait that its event fits if and only if the event is dated in the future, and the wait is still open beside a matching event when that time has come |
| EventFabricAccounting.DeadlineEventWakesNobodyElse | finnor-os/packages/db/event-fabric.ts:391-413 | the other exception: the `deadline.reached` event that a time-out writes leaves every other open wait open, also one that it matches |
| EventFabricRows.Tables.IngestIntegrationEvent | finnor-os/packages/db/event-fabric.ts:252-303 | the ingest as it runs over its tables (loop over matches, rollback on a throw) does exactly the specified step |
| EventFabricRows.Tables.CreateEventWait | finnor-os/packages/db/event-fabric.ts:305-369 | wait creation as it runs does exactly the specified step |
| EventFabricRows.Tables.ProcessWaitDeadline | finnor-os/packages/db/event-fabric.ts:374-414 | the deadline transaction as it runs does exactly the specified step |
| EventFabricRows.Tables.ClaimWaitWake | finnor-os/packages/db/event-fabric.ts:164-238 | the claim as it runs: wait, job, loop, claim and Work rows together, or an error (its callers roll back) |
| EventFabricEffects.MatchesExactly | finnor-os/packages/db/event-fabric.ts:121-145 | an event matches a wait if and only if tenant and type agree, it is past and within the wait's time, every reference the wait names is the event's, and it is of the wait's Work or the wait names a specific reference |
| EventFabricEffects.ClaimOutcome | finnor-os/packages/db/event-fabric.ts:170-192 | a claim withdraws an open wait if and only if its loop has ended or moved past the wait's revision, or the wait's plan is not an active plan of its Work; it wakes it otherwise |
| EventFabricEffects.ClaimWrites | finnor-os/packages/db/event-fabric.ts:186-237 | one claim: a woken wait has its loop in state continue with revision and step count as they were, its Work executing, and one claim and one job that carry the loop's revision, the job the next step number; nothing else is written |
| EventFabricEffects.IngestWrites | finnor-os/packages/db/event-fabric.ts:289-302 | one ingest writes exactly that for every wait it wakes; every other loop, Work, claim and job is untouched |
| EventFabricEffects.CreateWaitWrites | finnor-os/packages/db/event-fabric.ts:344-368 | one wait creation writes exactly that, for its own wait at most, and leaves every other loop, Work, claim and wake job alone |
| EventFabricEffects.DeadlineWrites | finnor-os/packages/db/event-fabric.ts:374-414 | one deadline transaction writes exactly that, for an event or the time-out |
| EventFabricEffects.IngestStores | finnor-os/packages/db/event-fabric.ts:252-301 | what an ingest stores, field by field: a new row dated now without a time of its own, or the row already there; it ends matched if a wait was woken or it was matched before, unmatched otherwise; no other event is touched |
| EventFabricEffects.IngestAnswers | finnor-os/packages/db/event-fabric.ts:290-302 | the answer names exactly the waits woken now, each with its claim |
| EventFabricEffects.CreateWaitStores | finnor-os/packages/db/event-fabric.ts:314-368 | what a wait creation stores, or that the step's earlier wait answers unchanged; a claim is answered if and only if the wait was woken now |
| EventFabricEffects.CreateWaitRefusals | finnor-os/packages/db/event-fabric.ts:306-343 | when a wait is refused: a blank type, references too weak to cross Works, a deadline before the earliest time, another tenant's wait on the step; otherwise only a claim can fail |
| EventFabricEffects.TimeoutEvent | finnor-os/packages/db/event-fabric.ts:391-413 | a time-out rests on the event that says so, written once per wait, dated at the deadline, for its tenant and Work |
| EventFabricEffects.SatisfiedByItsEvent | finnor-os/packages/db/event-fabric.ts:121-192 | in every run a satisfied wait has its event: of its tenant and type, in its time, sharing its Work or a specific reference |
| EventFabricOutcomes.ClaimErrors | finnor-os/packages/db/event-fabric.ts:170-224 | when a claim fails: exactly for a missing loop, or, of a wait it would wake, for a wake job that is there already or a missing Work |
| EventFabricOutcomes.WakeIsLogged | finnor-os/packages/db/event-fabric.ts:147-162 | a wake logs one entry in the Work, from the status it had to executing, that says whether an event or the deadline caused it |
| EventFabricOutcomes.IngestSucceedsExactly | finnor-os/packages/db/event-fabric.ts:240-303 | after any run an ingest succeeds exactly when the loop of every open wait that its event concerns is there, and the Work of every one not withdrawn |
| EventFabricOutcomes.CreateWaitSettlesExactly | finnor-os/packages/db/event-fabric.ts:344-368 | a wait creation settles its wait exactly when that was open and a past event, not ignored and within the deadline asked for, concerns it |
| EventFabricOutcomes.CreateWaitTakesFirst | finnor-os/packages/db/event-fabric.ts:357-366 | a wait satisfied at its creation takes, of the events that may settle it, the first by time and then by arrival |
| EventFabricOutcomes.CreateWaitSchedules | finnor-os/packages/db/event-fabric.ts:344-355 | it writes one deadline job, two seconds behind the deadline, exactly when the wait is open, has a deadline and no such job |
| EventFabricOutcomes.CreateWaitSucceedsExactly | finnor-os/packages/db/event-fabric.ts:305-369 | after any run a wait is created exactly when it is properly described, its step has no other tenant's wait, and the rows are there that settling it at once needs |
| EventFabricOutcomes.DeadlineAnswers | finnor-os/packages/db/event-fabric.ts:374-414 | a deadline transaction leaves a wait alone that is not due and says whether it is open; for a due one it answers how the wait ended, with its new claim |
| EventFabricOutcomes.DeadlineTakesFirst | finnor-os/packages/db/event-fabric.ts:379-389 | and so does one that an event satisfies at its deadline |
| EventFabricOutcomes.DeadlineSucceedsExactly | finnor-os/packages/db/event-fabric.ts:374-414 | after any run it succeeds exactly when the rows are there that settling a due wait needs |
| WorkKernel.LogsSoundInEveryRun | finnor-os/packages/db/index.ts:1253-1327 | over every run of receive, transition, handoff, recovery claim and wake each Work log is numbered 1..n, every entry starts from the status its predecessor left, and the last one left the stored status |
| WorkKernel.TerminalGuardedInEveryRun | finnor-os/packages/db/index.ts:1281-1312 | in runs without wakes completed and cancelled Work changes status only directly after an entry that records the arrival of an input, and failed Work leaves only to recovery or cancelled |
| WorkKernel.TerminalExitsAreEarned | finnor-os/packages/db/index.ts:1266-1312 | in runs without wakes, behind each log entry that takes a Work out of completed or cancelled stands a transition of that run which expected the newest input the Work then had, and the entry before it is the arrival of that very input |
| WorkKernel.ExitsAreEarned | finnor-os/packages/db/index.ts:1266-1312 | of all steps but wakes only such a transition moves completed or cancelled Work |
| WorkKernel.TerminalExitNamesTheCurrentInput | finnor-os/packages/db/index.ts:1266-1307 | one transition out of completed or cancelled succeeds if and only if it expects the newest input and the newest log entry is that input's arrival |
| WorkKernel.WakeBreaksTheGuardExactlyOnTerminalWork | finnor-os/packages/db/event-fabric.ts:147-162 | the wake reopens Work from any status; it breaks the guard exactly when the Work was failed, or finished without a fresh input entry |
| WorkKernel.LateContinuationKeepsLogExactly | finnor-os/packages/db/index.ts:1012-1037 | with other transactions between reading an existing Work and locking it, its continuation keeps the log sound if and only if the status read is still the status at the lock |
| WorkKernel.ReplayedIntake | finnor-os/packages/db/index.ts:787-937 | presenting a stored intake again, by its instruction id or by its idempotency key alone, after any later run with contexts attached, stores nothing and names the same Work and input, exactly when its author is a member (or anonymous) and, for an exact replay, the named Work is the one it went to and its input has the context it was presented with; otherwise it is refused. A context stored at intake stays |
| WorkKernel.RecoveryClaimIsExclusive | finnor-os/packages/db/index.ts:1369-1439 | after one recovery claim no further claim succeeds or changes anything for 15 minutes, and any new one succeeds after that |
| WorkStore.WorkRows.Receive | finnor-os/packages/db/index.ts:787-1056 | intake as it runs over the rows does exactly the specified step |
| WorkStore.WorkRows.AttachInputContext | finnor-os/packages/db/index.ts:1062-1099 | the write-once attachment of a context to an input as it runs does exactly the specified step, or throws and changes nothing |
| WorkStore.WorkRows.Transition | finnor-os/packages/db/index.ts:1253-1327 | a transition as it runs does exactly the specified step, or throws the first failing guard and changes nothing |
| WorkStore.WorkRows.Handoff | finnor-os/packages/db/index.ts:1106-1167 | handoff as it runs does exactly the specified step |
| WorkStore.WorkRows.ClaimRetry | finnor-os/packages/db/index.ts:1369-1439 | a recovery claim as it runs does exactly the specified step |
| WorkStore.WorkRows.ReconcileStatus | finnor-os/packages/db/index.ts:1919-2018 | reconciliation as it runs, through the ordinary transition, does exactly the specified step |
| WorkEffects.HandoffExactly | finnor-os/packages/db/index.ts:1106-1167 | a handoff moves the owner from actor to target, logs it once and leaves the status and every other Work alone, exactly when actor and target are active members, the actor owns the Work and is the expected owner if one is expected; to oneself it changes nothing |
| WorkEffects.TransitionExactly | finnor-os/packages/db/index.ts:1253-1327 | a transition succeeds exactly when status and newest input are the expected ones, finished Work is left only upon the input that just arrived, and failed Work only for recovery or cancelled; it writes the status, one log entry and the patch |
| WorkEffects.ClaimExactly | finnor-os/packages/db/index.ts:1369-1439 | a recovery is claimed exactly for a claimable Work with an input that was not attempted under the key; any other answer changes nothing |
| WorkEffects.ClaimWrites | finnor-os/packages/db/index.ts:1369-1439 | a claim takes the Work into recovery under its key and the present time, for its newest input, with one log entry; nothing else changes |
| WorkEffects.ClaimRefusals | finnor-os/packages/db/index.ts:1369-1439 | what a refused claim answers, and when it is an error |
| WorkEffects.IntakeStores | finnor-os/packages/db/index.ts:886-1056 | an intake that is no replay stores one input for one Work with what it was given, answers with both, and touches no other Work |
| WorkEffects.IntakeCreates | finnor-os/packages/db/index.ts:901-931 | a new Work has the desired id, is received, and belongs to the member who brought it |
| WorkEffects.IntakeContinues | finnor-os/packages/db/index.ts:890-1037 | which Work an intake continues, and that it logs the input's arrival and leaves failure for recovery |
| WorkEffects.IntakeRefusals | finnor-os/packages/db/index.ts:890-942 | an intake that is no replay is refused exactly when it is an exact one that would continue a Work, names another tenant's Work, or the desired id is taken and cannot be continued |
| WorkEffects.ReplayExactly | finnor-os/packages/db/index.ts:831-881 | in any state, an intake of which one input was presented before is answered with that input, its Work and its status exactly when it comes from the author and, if it must be exact, agrees with the input and the origin of its Work; otherwise which refusal it gets; it stores nothing |
| WorkEffects.DivergingClaims | finnor-os/packages/db/index.ts:869-880 | an intake whose instruction and key were presented with two inputs is refused |
| WorkEffects.AttachExactly | finnor-os/packages/db/index.ts:1062-1099 | a context is attached exactly to an input of the Work that has none or the same; it is written once, and nothing else changes |
| WorkEffects.AttachNeedsInput | finnor-os/packages/db/index.ts:1062-1099 | without such an input the attachment is refused |
| WorkReconciliation.GroupedDecisionIsRowwise | finnor-os/packages/db/index.ts:1966-2007 | the verdict from counts per status is the verdict the rows themselves give: programme occupations first, then the loop, nothing without an action or a run, then actions, runs, repairs and operations |
| WorkReconciliation.HasIsAnyRow | finnor-os/packages/db/index.ts:1996-1996 | a positive count for one of some statuses means a row has one of them, and conversely |
| WorkReconciliation.AllIsEveryRow | finnor-os/packages/db/index.ts:1997-1998 | the summed counts reach the total if and only if every row has one of the statuses |
| WorkReconciliation.ReconcileIsSafe | finnor-os/packages/db/index.ts:1919-2018 | as one transaction, reconciliation never touches completed, failed or cancelled Work, never conflicts, answers with the stored status, appends at most one sound log entry, leaves other Work alone, and is idempotent |
| WorkReconciliation.CompletedOnlyWhenSettled | finnor-os/packages/db/index.ts:2000-2007 | decided from children, Work completes only with an action, with no action, run or operation open or failed, and with no repair open |
| WorkReconciliation.CompletedExactlyWhen | finnor-os/packages/db/index.ts:1994-2007 | decided from children, Work completes if and only if it has an action, its children are settled in that sense, and they were not all rejected or cancelled |
| WorkReconciliation.CompletedDespiteFailureExactly | finnor-os/packages/db/index.ts:2000-2007 | a Work completed from its children has a failed child if and only if one of its repairs failed |
| WorkReconciliation.FailedRepairCompletes | finnor-os/packages/db/index.ts:2000-2007 | the input: a completed action beside a failed repair completes the Work, from any status reconciliation may touch |
| WorkReconciliation.SettledChildrenComplete | finnor-os/packages/db/index.ts:2000-2007 | settled children with a completed action do complete it |
| WorkReconciliation.LateVerdictConflictsExactly | finnor-os/packages/db/index.ts:1966-2017 | with other transactions between snapshot and transition a conflict is raised if and only if the verdict is not the status read and the Work was meanwhile finished in another status, or failed and the verdict does not leave failure |
| WorkReconciliation.LateAnswerIsStaleExactly | finnor-os/packages/db/index.ts:1966-2017 | without a conflict the answer differs from the stored status if and only if the verdict was the status read, so that nothing was written, and the Work has moved meanwhile |
| WorkReconciliation.StaleAnswer | finnor-os/packages/db/index.ts:2012-2017 | the input: a running operation, and others complete the Work in between; the answer is still executing, without a conflict |
| WorkReconciliation.ProgrammesDecide | finnor-os/packages/db/index.ts:1966-1983 | a Work that is not finished becomes recovery, executing, waiting or blocked by its programme occupations, in this order, whatever its loop and children say; the one entry written says so |
| WorkReconciliation.LoopDecides | finnor-os/packages/db/index.ts:1984-1993 | otherwise a Work with a loop takes the loop's own state, and executing for a loop that continues, state by state |
| PlanRevisions.ChainInEveryRun | finnor-os/packages/db/index.ts:1617-1761 | over every run the revisions are numbered 1..n, each has its predecessor as parent and records the difference to it, only the newest may be active, ids and semantic hashes are distinct, a completed one carries the proof that names it and is continued only for another input |
| PlanRevisions.RecordsAreEarned | finnor-os/packages/db/index.ts:1564-1604 | behind every later revision of a run stands the selection that created it; its record is the difference to the newest revision of that moment, for the nodes whose steps then counted as safely completed |
| PlanRevisions.RetiredSafeNodes | finnor-os/packages/db/index.ts:1586-1590 | when a plan is superseded, the nodes that count as safely completed are those with a verified step, or with a done one of good outcome and no failure |
| PlanRevisions.HistoryIsSettled | finnor-os/packages/db/index.ts:1693-1717 | from any point of a run on rows are never removed, and one that is no longer active never changes |
| PlanRevisions.ReselectionCreatesNothing | finnor-os/packages/db/index.ts:1628-1647 | selecting a known graph creates nothing: the active revision answers, a historical one refuses |
| PlanRevisions.CreatedExactlyWhen | finnor-os/packages/db/index.ts:1648-1721 | a new graph becomes a revision if and only if it names the newest revision as parent and, when that is completed, comes from the newest recorded input and not the one it served |
| PlanStore.PlanTables.SelectPlan | finnor-os/packages/db/index.ts:1617-1761 | selection as it runs (supersede, retire open attempts, insert, point the attempt) does exactly the specified step, or refuses and changes nothing |
| PlanStore.PlanTables.CompletePlan | finnor-os/packages/db/index.ts:1791-1816 | completion as it runs does exactly the specified step |
| PlanEffects.SelectionWrites | finnor-os/packages/db/index.ts:1617-1761 | a selection of an unknown graph adds one active revision with exactly what was selected (the goal's hash too) behind the others, supersedes the active one, retires its open steps, and points the attempt to the new revision; nothing else changes |
| PlanEffects.SelectionRecords | finnor-os/packages/db/index.ts:1550-1606 | its record is the difference to the newest revision for the nodes whose steps were done and verified or done well, and, under a plan superseded now, also those verified while still open |
| PlanEffects.ReselectionWrites | finnor-os/packages/db/index.ts:1633-1647 | a selection of the active graph points the attempt to it and changes nothing else |
| PlanEffects.ForeignAttempt | finnor-os/packages/db/index.ts:1622-1627 | an attempt that is unknown or made for another input selects nothing |
| PlanEffects.CompletedExactly | finnor-os/packages/db/index.ts:1791-1816 | a revision is completed exactly when it is active and a verified proof of version 1 names it, its graph and its goal in all it says; what is stored; when the answer is false and when an error |
| PlanEffects.NothingToComplete | finnor-os/packages/db/index.ts:1792-1798 | an unknown revision is answered with false, or refused without a verified proof |
| PlanDiff.PreservedAndNewPartition | finnor-os/packages/db/index.ts:1586-1605 | preserved and new nodes partition the current graph; each preserved node has the hash of the parent node it is paired with |
| PlanDiff.PreservedAndInvalidatedCount | finnor-os/packages/db/index.ts:1586-1605 | with unique hashes preserved and invalidated nodes add up to the parent's nodes |
| PlanDiff.CompletedAndPendingDisjoint | finnor-os/packages/db/index.ts:1586-1605 | no parent node is both preserved as completed and superseded as pending; exactly the nodes not safely completed are superseded |
| PlanDiff.TransitionIgnoresOrder | finnor-os/packages/db/index.ts:1539-1607 | the record of a revision is the same for every order of both stored graphs if and only if no two different current nodes share hash and id, and parent nodes that do have their hash in the current graph and are safely completed; that of a first revision if and only if no two different current nodes do |
| PlanDiff.OrderMattersOtherwise | finnor-os/packages/db/index.ts:1547-1547 | a list of nodes sorts alike in every order if and only if no two different nodes of it share hash and id |
| ConversationSafety.SoundInEveryRun | finnor-os/packages/db/conversation-memory.ts:44-119 | over every run of openings, appends and publications each thread is sound: messages numbered from one, checkpoints one linked chain with items distinct, kept, grounded and superseded in order |
| ConversationSafety.CheckedItemsAreSound | finnor-os/packages/db/conversation-memory.ts:76-109 | what passes the publication checks quotes real messages of the stated role, sequence and time (users only, unless context or proposal), keeps every prior item, and is superseded only by a later user-backed correction or resolution |
| ConversationHistory.RangesTile | finnor-os/packages/db/conversation-memory.ts:58-63 | a sequence number lies in some checkpoint's range exactly when it is between 1 and the summary's, and then in exactly one |
| ConversationHistory.ChainIsUnforked | finnor-os/packages/db/conversation-memory.ts:58-63 | no two checkpoints continue the same one |
| ConversationHistory.SecondChildIsRefused | finnor-os/packages/db/conversation-memory.ts:62-62 | after a publication neither it nor a rival with the same parent is accepted: both get `false` and nothing changes |
| ConversationHistory.ItemsAreKept | finnor-os/packages/db/conversation-memory.ts:78-91 | an item published once is in every later checkpoint word for word, and a set supersession never changes |
| ConversationHistory.QuotesAreReal | finnor-os/packages/db/conversation-memory.ts:101-108 | every source of every item of every checkpoint quotes words of the message it names |
| ConversationHistory.SupersederIsLater | finnor-os/packages/db/conversation-memory.ts:84-100 | a superseding item is present, rests on user messages only, all later than what it supersedes |
| ConversationHistory.Current | finnor-os/packages/db/conversation-memory.ts:84-100 | following supersession always ends at an item nothing supersedes |
| ConversationHistory.SupersessionHasNoCycle | finnor-os/packages/db/conversation-memory.ts:84-100 | no walk along supersession returns to its start |
| ConversationHistory.ReplayedAppend | finnor-os/packages/db/index.ts:2525-2553 | a replayed append, after any later run, answers with the stored message exactly when its key has at most 500 characters; a longer key is refused, because the whole key is looked up and its first 500 characters are stored |
| ConversationHistory.PageIsNextMessages | finnor-os/packages/db/conversation-memory.ts:19-31 | for any position, cut and limit a page is the next messages behind the position up to the cut, as many as asked for, at least one and at most 200 |
| ConversationHistory.CutIsCovered | finnor-os/packages/db/conversation-memory.ts:33-41 | the checkpoint read at a cut is the longest summary not past it, and the page behind it brings the rest when at most 200 messages are left |
| ConversationStore.ConversationTables.Append | finnor-os/packages/db/index.ts:2511-2564 | append as it runs does exactly the specified step |
| ConversationStore.ConversationTables.Publish | finnor-os/packages/db/conversation-memory.ts:44-119 | publication as it runs, with its early aborts, does exactly the specified step |
| ConversationStore.ConversationTables.CheckRetained | finnor-os/packages/db/conversation-memory.ts:78-91 | the loop over prior items reports the first fault the specification finds |
| ConversationStore.ConversationTables.CheckNew | finnor-os/packages/db/conversation-memory.ts:92-109 | the loop over new items and their sources reports the first fault the specification finds |
| ConversationStore.DistinctByCount | finnor-os/packages/db/conversation-memory.ts:76-77 | the id set is as large as the item list if and only if no id repeats |
| ConversationHistory.SummaryInEveryRun | finnor-os/packages/db/conversation-memory.ts:110-116 | in every run a thread has no summary without a checkpoint, and otherwise the narrative and the cut of the checkpoint that reaches furthest |
| ConversationHistory.PublicationWrites | finnor-os/packages/db/conversation-memory.ts:110-117 | an accepted publication appends the checkpoint, makes its narrative and its cut the summary, and leaves the messages, the revision and every other thread alone |
| ConversationHistory.AppendWrites | finnor-os/packages/db/index.ts:2511-2564 | an accepted append stores one message with the next sequence and what it was given, raises the revision by one, and leaves checkpoints, summary and every other thread alone |
| ConversationHistory.AppendAnswers | finnor-os/packages/db/index.ts:2511-2564 | when an append is refused for its text (blank, or over 65,536 bytes in UTF-8) or its thread, answered with the message of its key, stored, or refused for a taken key or id |
| ConversationPublication.AcceptedExactly | finnor-os/packages/db/conversation-memory.ts:58-113 | a sound thread takes a checkpoint if and only if it continues the newest one and is supported by the messages it covers, with every condition spelled out on items, sources and messages; a rival parent is answered with false |
| ConversationPublication.PublishedExactly | finnor-os/packages/db/conversation-memory.ts:44-117 | after any run a checkpoint is published if and only if it is well-formed, its owner is active, it names a thread of that owner, and the thread takes it |
| ComputeGovernorSafety.LimitsHoldInEveryRun | finnor-os/packages/db/compute-governor.ts:34-139 | over every run of acquires, renewals, releases and passing time no resource has more live leases than its capacity, no tenant more than its share, low-priority calls never more than max(0, capacity - reserve), fences of a resource strictly rise, and tokens are distinct |
| ComputeGovernorSafety.AcquireKeepsSound | finnor-os/packages/db/compute-governor.ts:52-90 | an acquire that succeeds stays within all three limits for every policy |
| ComputeGovernorFences.GrantIsComplete | finnor-os/packages/db/compute-governor.ts:41-92 | a successful acquire grants exactly the requested keys with an enabled policy, all mandatory ones among them, with fences above every earlier one, and the set is renewable at once |
| ComputeGovernorFences.RenewSucceedsExactly | finnor-os/packages/db/compute-governor.ts:104-139 | a renewal succeeds if and only if its permits are pairwise distinct and all live; otherwise it changes nothing |
| ComputeGovernorFences.DeadNeverRenews | finnor-os/packages/db/compute-governor.ts:104-139 | after any run a released or expired lease fails every renewal set it is in |
| ComputeGovernorFences.ReleaseEndsOnlyItsOwn | finnor-os/packages/db/execution-deadline.ts:42-54 | releasing any list of permits leaves the lease of each dead and changes no other row, a successor's included |
| ComputeGovernorFences.SplitRenewalCounts | finnor-os/packages/db/compute-governor.ts:111-128 | with other transactions between its two statements a renewal adds to each count exactly the lapsed rows it revives |
| ComputeGovernorFences.SplitRenewalSafeExactly | finnor-os/packages/db/compute-governor.ts:111-128 | so all limits hold afterwards if and only if there is room for the revived rows under the capacity, the reserve and each tenant's share of every policy |
| ComputeGovernorFences.SplitRenewalIsSafeWhileLive | finnor-os/packages/db/compute-governor.ts:111-128 | in particular when no matched row has lapsed at the second clock reading |
| ComputeGovernorFences.SplitRenewalOverbooks | finnor-os/packages/db/compute-governor.ts:111-128 | and otherwise need not: one place, two live leases |
| ComputePool.LeaseTables.AcquireAll | finnor-os/packages/db/compute-governor.ts:34-99 | acquire as it runs (count per policy, then fence and insert per policy) does exactly the specified step, or nothing |
| ComputeEffects.CountIsSize | finnor-os/packages/db/compute-governor.ts:60-67 | a count is the number of rows that are of the resource (of the tenant, of low priority), not released and not expired |
| ComputeEffects.LiveRowsStayWithinLimits | finnor-os/packages/db/compute-governor.ts:34-139 | after any run no resource has more live rows than its capacity, more of low priority than the reserve leaves, or more of one tenant than a tenant may have |
| ComputeEffects.GrantedExactly | finnor-os/packages/db/compute-governor.ts:41-77 | a request is granted exactly when it names a key, every mandatory key has an enabled policy among the requested, and one more live row fits every enabled requested policy; otherwise which refusal it gets |
| ComputeEffects.GrantWrites | finnor-os/packages/db/compute-governor.ts:78-92 | a grant only adds rows: each is the caller's tenant's (a common one without a tenant), of its workload and owner, under an enabled requested policy with its next fence, its lease time and a token of its own, and the permit names it |
| ComputeEffects.GrantMovesFences | finnor-os/packages/db/compute-governor.ts:81-82 | a grant moves the next fence of exactly the enabled requested policies, by one |
| ComputeEffects.RenewalWrites | finnor-os/packages/db/compute-governor.ts:112-134 | a successful renewal moves the expiry of exactly the presented live rows, to the full time of their policy from now |
| ComputeEffects.ReleaseWrites | finnor-os/packages/db/execution-deadline.ts:42-54 | a release sets the time of release in exactly the rows it names that had none |
| ComputePool.LeaseTables.RenewAll | finnor-os/packages/db/compute-governor.ts:104-139 | renewal as it runs does exactly the specified step |
| ComputePool.LeaseTables.ReleaseAll | finnor-os/packages/db/compute-governor.ts:141-145 | release as it runs does exactly the specified step |
| ComputeControl.LaterAcquisitionHasHigherFence | finnor-os/packages/db/compute-control.ts:13-34 | of two acquisitions of a name, however far apart, the later has the higher fence, holds, and has displaced the earlier |
| ComputeControl.HeldUntilExpiry | finnor-os/packages/db/compute-control.ts:13-45 | from an acquisition until its time is up, whatever others try, its holder alone can renew and nobody can acquire |
| ComputeControl.EndedStaysEnded | finnor-os/packages/db/compute-control.ts:36-56 | an ended lease never renews again, and releasing it takes nothing from its successor, if releases happen at least one tick after acquisition |
| ComputeControl.ReleaseEndsTheLeaseExactly | finnor-os/packages/db/compute-control.ts:47-56 | a release ends its lease if and only if the clock has moved since the acquisition |
| ComputeControl.InstantReleaseIsUndone | finnor-os/packages/db/compute-control.ts:47-56 | a lease released in the tick it was acquired in can renew in that tick |
| ComputeControl.ControlTable.AcquireLease | finnor-os/packages/db/compute-control.ts:13-34 | acquire as it runs does exactly the specified step |
| ComputeControl.AcquiredExactly | finnor-os/packages/db/compute-control.ts:14-34 | a proper request is granted exactly when nobody holds the name and no other row has the token; first fence 1, then the next; what the row then holds; otherwise which answer it gets |
| ComputeControl.RenewedExactly | finnor-os/packages/db/compute-control.ts:36-45 | a lease is renewed exactly while its row names it and has not expired, to the asked time from now, and only the expiry changes |
| ComputeControl.ReleasedExactly | finnor-os/packages/db/compute-control.ts:47-56 | a release answers true exactly when the row names the lease; the expiry becomes now, or one microsecond later in the tick of acquisition |
| ComputeControl.ControlTable.RenewLease | finnor-os/packages/db/compute-control.ts:36-45 | renewal as it runs does exactly the specified step |
| ComputeControl.ControlTable.ReleaseLease | finnor-os/packages/db/compute-control.ts:47-56 | release as it runs does exactly the specified step |
| ReconcileDeskSafety.SumIsExact | scope-x3/acceptance/reference.py:27-31 | up to 128 quantities of up to 38 digits add up at precision 80 without rounding |
| ReconcileDeskSafety.TotalIsTheSum | scope-x3/acceptance/reference.py:23-31 | a total is the plain sum, refused exactly for a malformed line or a sum of more than 38 digits |
| ReconcileDeskSafety.AddUp | scope-x3/acceptance/reference.py:23-31 | the summing loop computes that total |
| ReconcileDeskSafety.SoundInEveryReplay | scope-x3/acceptance/reference.py:72-154 | over every list of events beyond the draft the record is matched and bound as it stands; approvals are by holders of the role who are neither the author nor each other, enough for the amount once approved; a draft has neither |
| ReconcileDeskSafety.ApprovedMeansMatchedAndSeparated | scope-x3/acceptance/reference.py:120-151 | an approved or prepared record has exactly equal sums on both sides and as many distinct approvers besides the author as its amount asks for |
| ReconcileDeskSafety.DeniedChangesNothing | scope-x3/acceptance/reference.py:73-154 | a denied event changes nothing, except that an amount mismatch leaves the amounts it found |
| ReconcileDeskSafety.PreparationIsEarned | scope-x3/acceptance/reference.py:115-151 | a record becomes prepared only from approved, on known evidence, under the active release, with every approver still authorized |
| ReconcileDeskSafety.RevokedApproverBlocksPreparation | scope-x3/acceptance/reference.py:89-151 | after a revocation nothing prepares on the revoked actor's approval, and the actor can do nothing |
| ReconcileDeskSafety.HistoryCountsEdits | scope-x3/acceptance/reference.py:103-114 | one code per event; the history lists the record's revisions from the first to the last but one |
| ReconcileReplay.ReplayAll | scope-x3/acceptance/reference.py:34-154 | the replay loop ends in the specified state, which is sound |
| ReconcileDeskEffects.AuthorInEveryReplay | scope-x3/acceptance/reference.py:103-114 | in every replay the author is the principal of the actor of the last edit that succeeded, or the first author without one |
| ReconcileDeskEffects.NoApproverWroteIt | scope-x3/acceptance/reference.py:103-144 | so no approver of an approved or prepared record is the principal of its last edit, or its first author without one |
| ReconcileDeskEffects.EditExactly | scope-x3/acceptance/reference.py:95-114 | an edit succeeds exactly for an authorized analyst who names editable fields; it takes the named fields, the editor as author and the sources current at that moment, and starts a draft over |
| ReconcileDeskEffects.ReconcileExactly | scope-x3/acceptance/reference.py:115-133 | a reconciliation succeeds exactly on a fresh draft in a supported currency whose sides add up alike, and binds it to that amount |
| ReconcileDeskEffects.ApproveExactly | scope-x3/acceptance/reference.py:115-144 | an approval succeeds exactly for a partner or compliance officer who is neither the author nor the other approver; whether it suffices |
| ReconcileDeskEffects.PrepareExactly | scope-x3/acceptance/reference.py:115-151 | a preparation succeeds exactly on a fresh approved record whose approvers may all still act in their role |
| ReconcileDeskEffects.ReadExactly | scope-x3/acceptance/reference.py:95-102 | a read succeeds for anyone who may act, shows the record as it stands and changes nothing else |
| ReconcileDeskEffects.MaintenanceWrites | scope-x3/acceptance/reference.py:80-92 | what a refresh, an activation and a revocation change |
| ReconcileDeskDenials.ActorDenials | scope-x3/acceptance/reference.py:44-51 | with which code a command is turned away for its actor: unknown, of another tenant, of another scope, or revoked, in this order |
| ReconcileDeskDenials.DoorDenials | scope-x3/acceptance/reference.py:95-97 | and a standing actor without the role, on another revision of the record, or in a race |
| ReconcileDeskDenials.StateDenials | scope-x3/acceptance/reference.py:115-119 | which code the state, the release and the evidence give: each exactly when it is the first to fail |
| ReconcileDeskDenials.ReconcileDenials | scope-x3/acceptance/reference.py:120-128 | which code a fresh draft's currency, lines and sums give, and that only a mismatch leaves the amounts it found |
| ReconcileDeskDenials.ApproveDenials | scope-x3/acceptance/reference.py:134-139 | an approval is denied exactly to the author, then without an approving role, then beside the own approval in the other role |
| ReconcileDeskDenials.PrepareDenials | scope-x3/acceptance/reference.py:145-150 | a preparation is denied to an analyst exactly for an approver who may no longer act |
| ReconcileDeskDenials.CommandDenials | scope-x3/acceptance/reference.py:84-105 | the denials of other fields in an edit, executions, unknown commands and unknown releases |
| ReconcileDeskDenials.StopsExactly | scope-x3/acceptance/reference.py:81-111 | the program stops with an error of the language exactly on a source that does not exist, an unknown actor to revoke, or an admitted edit without a record or of a reference without a revision |
| ReconcileDeskDenials.ReplayStopsExactly | scope-x3/acceptance/reference.py:72-154 | a replay goes through exactly when no event fails so in the machine it meets |
| JsonPointer.UnescapeEscape | finnor-os/scripts/generate-openapi.ts:1071-1071 | unescaping undoes escaping (section 3 of RFC 6901) |
| JsonPointer.EscapeUnescape | finnor-os/scripts/generate-openapi.ts:1071-1071 | escaping undoes unescaping of any well-formed token |
| JsonPointer.ParseText | finnor-os/scripts/generate-openapi.ts:1091-1091 | reading a printed pointer gives back its tokens (section 4 of RFC 6901) |
| JsonPointer.TextParse | finnor-os/scripts/generate-openapi.ts:1091-1091 | printing a read pointer gives back its text |
| JsonPointer.TextPrefix | finnor-os/scripts/generate-openapi.ts:1109-1111 | the text test for equal-or-continued-at-a-slash is the prefix order on token paths |
| JsonPointer.ChildExactly | finnor-os/scripts/generate-openapi.ts:1076-1076 | a token names a member of an object, the item of an array at its number, and nothing else (section 4 of RFC 6901) |
| JsonPointer.ResolveExactly | finnor-os/scripts/generate-openapi.ts:1074-1075 | the empty pointer leads to the document, and one token more to the child it names |
| ReferenceScopes.ScopeIsReference | finnor-os/scripts/generate-openapi.ts:1070-1073 | a scope text is the reference to its schema's root, for every location but the document root |
| ReferenceScopes.ResolveRebase | finnor-os/scripts/generate-openapi.ts:1066-1077 | rebasing keeps every value at its location, under the root it belongs to |
| ReferenceMeaning.CollectIsGenuine | finnor-os/scripts/generate-openapi.ts:1083-1100 | every recorded definition is one that a table holds at its pointer, without the tables inside it |
| ReferenceMeaning.CollectIsComplete | finnor-os/scripts/generate-openapi.ts:1083-1100 | and every definition in a table is recorded |
| ReferenceTargets.ComponentInjective | finnor-os/scripts/generate-openapi.ts:1092-1092 | different pointers get different component names (the digest taken as injective) |
| ReferenceTargets.FirstMatchIsOutermost | finnor-os/scripts/generate-openapi.ts:1109-1111 | the first recorded target that a reference matches is the definition its path enters first |
| ReferenceTargets.EveryLocationMoves | finnor-os/scripts/generate-openapi.ts:1083-1102 | after hoisting every location has an address that holds its image |
| ReferenceScopes.LocalExactly | finnor-os/scripts/generate-openapi.ts:1074-1075 | the text test for references to rebase says exactly that the pointer does not go below the document's components |
| ReferenceScopes.ReferencesKeepTheirMeaning | finnor-os/scripts/generate-openapi.ts:1066-1115 | after all three passes a local reference leads to the image of what it meant if and only if that was reached through at most one definition table; otherwise it leads nowhere |
| ReferenceNesting.NestedReferenceDangles | finnor-os/scripts/generate-openapi.ts:1066-1115 | the input: one component schema whose definition X holds a definition Y; its reference to Y has a target, the published one has none |
| ReferenceScopes.ForeignTextStays | finnor-os/scripts/generate-openapi.ts:1074-1075 | references that do not start with a hash are never rewritten |
| ReferencePasses.Generator.RebaseNode | finnor-os/scripts/generate-openapi.ts:1066-1077 | the rebase walk computes the specified document |
| ReferencePasses.Generator.HoistNode | finnor-os/scripts/generate-openapi.ts:1083-1100 | the hoist walk computes the specified document, targets and record |
| ReferencePasses.Generator.RewriteNode | finnor-os/scripts/generate-openapi.ts:1103-1114 | the rewrite walk computes the specified document |
| ReferencePasses.Generator.Publish | finnor-os/scripts/generate-openapi.ts:1066-1115 | the three passes in order compute the specified document |
| ReferenceLeaves.LeavesStay | finnor-os/scripts/generate-openapi.ts:1066-1115 | every null, boolean, number, and text other than a reference or a schema marker, is the same value at its published location |
| ReferenceLeaves.ShapesStay | finnor-os/scripts/generate-openapi.ts:1066-1115 | every array keeps its length and every object its keys in order, but for schema markers and hoisted tables, at its published location |
| ReferenceLeaves.ContainersStay | finnor-os/scripts/generate-openapi.ts:1083-1102 | the root and the components keep their keys, and the schemas keep theirs with the generated names behind them |
| SubsetOptimumProof.EverySubsetOnce | finnor-os/scripts/m2/reference.py:23-24 | the loops visit every subset of the eligible units exactly once |
| SubsetOptimumProof.CallsAreTheLongestPath | finnor-os/scripts/m2/reference.py:32-36 | the call count is the length of the longest prerequisite path inside the subset: none is longer, one is as long |
| SubsetOptimumProof.StopsExactlyOnCycles | finnor-os/scripts/m2/reference.py:32-33 | the depth assertion fails if and only if the subset has a prerequisite cycle |
| SubsetOptimumResult.OptimumIsExact | finnor-os/scripts/m2/reference.py:44-46 | the best value is the maximum over all admissible subsets with a known value (zero without one), and the optimizers are exactly the subsets that attain it |
| SubsetOptimumResult.ReportsExactly | finnor-os/scripts/m2/reference.py:15-33 | there is a report if and only if the units are at most 8, distinct and know their prerequisites, and no closed choice of eligible units within the attempts has a prerequisite cycle |
| SubsetOptimumResult.BestFallsExactly | finnor-os/scripts/m2/reference.py:28-45 | a larger budget lowers the best value if and only if it offers some subset of known value, every one it offers loses, and each of them is over the smaller budget of attempts or time |
| SubsetOptimumResult.BestNeverFalls | finnor-os/scripts/m2/reference.py:39-45 | a larger budget never lowers the best value, with non-negative durations or non-negative budgets |
| SubsetOptimumResult.BestCanFall | finnor-os/scripts/m2/reference.py:39-45 | without that condition it can: a concrete input |
| SubsetOptimumResult.ComputeReference | finnor-os/scripts/m2/reference.py:14-46 | the nested loops compute the specified report |
| SubsetOptimumValue.WorthExactly | finnor-os/scripts/m2/reference.py:30-42 | a choice has a known worth exactly when its costs, its durations and the delay price are known; it is the gain (the loss gap when a unit verifies and the incumbent is not qualified), less the costs, less the controller's price for each step of the longest prerequisite path, less the delay price for the summed durations |
| SubsetOptimumValue.AllowedExactly | finnor-os/scripts/m2/reference.py:20-40 | which choices are looked at: open units, prerequisites chosen or completed, within the attempts and, when known, the time |
| SubsetOptimumValue.BestIsGreatestWorth | finnor-os/scripts/m2/reference.py:44-46 | the best value is the greatest worth of an allowed choice (zero when no worth is known), and the optimizers are exactly the allowed choices of that worth |
| SubsetOptimumValue.ReportShowsChoices | finnor-os/scripts/m2/reference.py:22-46 | the report has a chain for exactly the allowed choices, each with its gain, its costs, its delay and what remains |
| SubsetOptimumValue.UnknownAreCounted | finnor-os/scripts/m2/reference.py:46-46 | the report counts exactly the chains whose net value is unknown |
| SubsetOptimumValue.ReportedExactly | finnor-os/scripts/m2/reference.py:15-33 | there is a report if and only if the units are well described and no choice looked into goes round in its prerequisites |
| OperationalDeltas.DecodeEncode | finnor-os/packages/db/operational-deltas.ts:16-24 | decoding undoes encoding for well-formed scopes, and for no other text of that length |
| OperationalDeltas.EncodeDecode | finnor-os/packages/db/operational-deltas.ts:16-24 | encoding undoes decoding: a cursor has one text |
| OperationalDeltas.ScopeIsUuid | finnor-os/packages/db/operational-deltas.ts:21-21 | the scope of a cursor is a UUID of version 1 to 5, group by group, in either case |
| OperationalDeltas.ReadRefusals | finnor-os/packages/db/operational-deltas.ts:20-62 | a text is refused as no cursor exactly when it is not a UUID, a colon and a canonical number, as foreign exactly when its scope is another, and for its number only beyond the column |
| OperationalDeltas.ReadIsNextDeltas | finnor-os/packages/db/operational-deltas.ts:74-111 | a read behind a position returns the next deltas up to the limit, with the right continuation, or demands a resync exactly when an unread delta was purged |
| OperationalDeltas.CursorAheadSkips | finnor-os/packages/db/operational-deltas.ts:74-111 | a reader never misses a delta appended after it was placed if and only if its start was not ahead of the feed then; over any run, missing means being caught up without having received it |
| OperationalDeltas.StartAheadMisses | finnor-os/packages/db/operational-deltas.ts:78-111 | the run: one delta appended to a feed that the start is ahead of is never received, and the reader is caught up |
| OperationalDeltas.AheadIsEmptyPage | finnor-os/packages/db/operational-deltas.ts:74-111 | a cursor ahead of the feed is answered with an empty page and keeps its place, unless it is too large for the column |
| OperationalDeltas.NoSilentGap | finnor-os/packages/db/operational-deltas.ts:49-113 | while deltas are appended and a prefix is purged, a reader that follows its cursor from any start has received everything behind its start, once and in order (nothing while the feed has not reached the start), or is told to resynchronise after a loss |
| OperationalDeltas.FirstReadEstablishes | finnor-os/packages/db/operational-deltas.ts:64-72 | a read without a cursor succeeds and places the reader behind the newest delta, with nothing left to receive |
| OperationalDeltas.PollMakesProgress | finnor-os/packages/db/operational-deltas.ts:88-111 | one more poll reports the loss, brings a full page, or leaves nothing behind the start unread |
| BatchedRestore.BatchesConcatenate | finnor-os/packages/db/backup.ts:122-147 | the batches hold exactly the rows with an insertable column, in order |
| BatchedRestore.BatchesAreUniform | finnor-os/packages/db/backup.ts:141-147 | every row of a batch has the batch's column list |
| BatchedRestore.BatchesAreSound | finnor-os/packages/db/backup.ts:138-147 | a batch is not empty and binds at most 60,000 parameters unless it is a single row |
| BatchedRestore.JoinedDecides | finnor-os/packages/db/backup.ts:144-144 | the joined names decide equality of column lists without NUL in names, up to one empty name against none |
| BatchedRestore.NulNamesCollide | finnor-os/packages/db/backup.ts:144-144 | with NUL in a name they never do: such a name and the two names it splits into are joined alike, wherever it stands |
| BatchedRestore.PlaceholdersPairUp | finnor-os/packages/db/backup.ts:149-159 | every placeholder names its own parameter, and that binds the value of its row and column: as it is, as JSON text, or not at all |
| BatchedRestore.CellsAreBound | finnor-os/packages/db/backup.ts:23-31 | every cell of a restored statement binds the value of its own row and column: as it is for a scalar or an array in an array column, as JSON text for any other structure, not at all when the row lacks it; the columns are those of the row but the generated ones |
| BatchedRestore.KeepKeepsOrder | finnor-os/packages/db/backup.ts:129-129 | the columns kept stay in the order of the dump |
| BatchedRestore.BatchesAreFull | finnor-os/packages/db/backup.ts:138-147 | a batch ends only at the end of the table, at a row with another column list, or where one more row would exceed the budget |
| BatchedRestore.RestoreTable | finnor-os/packages/db/backup.ts:122-166 | the nested loops send the specified statements and count the inserted rows |
| BatchedRestore.RestoreAll | finnor-os/packages/db/backup.ts:122-169 | table after table the statements sent are those of its batches, each for its own table; the counts answered are the number of tables and of insertable rows over all of them |
| IdentificationCharges.ConservedInEveryRun | finnor-os/packages/db/identification-resources.ts:10-59 | after any run each counter has grown by the charges of its kind and the bytes by their amounts, within the maxima and 16,777,216 |
| IdentificationCharges.ReplayedReservation | finnor-os/packages/db/identification-resources.ts:14-21 | a key once charged answers with the same charge at any later time and charges nothing; for anything else it conflicts and changes nothing |
| IdentificationCharges.ReplayedRetention | finnor-os/packages/db/identification-resources.ts:37-43 | a version's bytes are charged once, whatever is measured later |
| IdentificationCharges.ReservedExactly | finnor-os/packages/db/identification-resources.ts:22-29 | a new key is charged exactly while the allocation exists, its deadline is ahead, it is neither cancelled nor invalidated, and its counter is below the maximum; what is written; otherwise it is refused as exhausted |
| IdentificationCharges.RetainedExactly | finnor-os/packages/db/identification-resources.ts:44-58 | a new version is charged its very size exactly while that is known and positive, the allocation is open, and the bytes stay within 16,777,216; otherwise which refusal it gets |
| IdentificationCharges.OverdueIsNeverCharged | finnor-os/packages/db/identification-resources.ts:22-52 | once its deadline has passed an allocation is never charged again, whatever is asked and whatever its status becomes |
| IdentificationCharges.ChargeTables.ReserveResource | finnor-os/packages/db/identification-resources.ts:10-30 | reservation as it runs does exactly the specified step |
| IdentificationCharges.ChargeTables.RetainEvidence | finnor-os/packages/db/identification-resources.ts:34-59 | retention as it runs does exactly the specified step |

## Left out

- EventFabricSafety.NoWakeUpIsLost: says nothing about waits on `deadline.reached`, and lets an event dated in the future at its ingest be missed, because the code does not rescan in either case (both exceptions are stated by lemmas of their own).
- PlanRevisions.ChainInEveryRun: covers runs without the institution's continuation of a completed plan; that path rests on SQL and functions not shown, so a completed revision is continued only by new input here.
- WorkKernel.TerminalGuardedInEveryRun: excludes wakes, which do break the guard, and institution continuations, which are not modelled.
- WorkKernel.TerminalExitsAreEarned: excludes the same two.
- ReferenceScopes.ReferencesKeepTheirMeaning: is about documents whose definition tables are objects, whose object keys are distinct, whose root is not itself marked with `$schema`, and that have component schemas none of which has a generated name.
- SubsetOptimumResult.OptimumIsExact: amounts are exact reals; the 28-digit rounding of decimal arithmetic is not modelled.
- SQL text, the query builder, connection pools, row-level security, lock timeouts and retries: I/O below the modelled transactions.
- The isLeader flag of startComputeControlLeadership and the timers of executeWithRenewedLeases: scheduling around leases; exclusivity is claimed for the lease only.
- The institution's continuation of plans (assertInstitutionPlanContinuationTx), governed egress and migrations: not shown in full.
- The deadline proxy in execution-deadline.ts apart from the fenced release: connection handling.
- Truncation of texts and JSON before storage, except for the append key: an input is taken as it is stored.
- Payloads, evidence references, reasons and next-step texts of event rows, and titles and update times of threads: no modelled step reads them.
- The employee-thread branch of receiveWork and the parts of its receipt that only echo the input.
- Bounding and hashing of a context snapshot: a context is the canonical text it is compared by.
- The check that an employee owner is a UUID: a format check on the caller's identity.
- Text lengths count characters; the program counts UTF-16 units, which differ beyond the basic plane.
- The document tree is rewritten in place by the program. Here a walk returns the new tree, so sharing of subtrees between places is not captured; the record of targets and of hoisted definitions is a field that the walk updates.
- Definition tables that are arrays, references with percent-encoding, and the enumeration of integer-like keys before others.
- The chunking of the digest into 24 hexadecimal digits is taken as injective like the digest itself.
- The order of plan nodes uses the order of characters instead of the locale's collation.
- Statuses, roles, currencies and releases that the code names are enumerations with a case for every other text.
- A record reference of the reconciliation desk is a prefix and a revision number, or a text without one, on which an edit fails as in the program; the restart event is the identity, its JSON text is not modelled.
- Quoting of identifiers in restore statements and the truncation before them: text of single statements.
- Measuring the stored bytes of evidence: the sum is a parameter that may be absent.
- Telemetry, logging and metrics of all components.
- Packaging, seeds, browser and load scripts, pages and content, and constant tables: no algorithm.
