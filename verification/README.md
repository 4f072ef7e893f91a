# PortCoord: versioned rows, and the services built on them

PortCoord coordinates a harbour: arrival declarations, berthing windows, work orders, pilot and tug
tasks, handover documents, and daily quotas. Several processes (request handlers, the scheduler engine,
executors) share the tables. No service opens a transaction. A service call reads a row, decides from that
snapshot, and sends single `UPDATE ... WHERE id = ? AND version = ?` statements that check the version but
mostly not the status. Safety is therefore a property of whole runs, and that is what is proved here.

The project has four layers.

1. **One row under optimistic locking** (`OptimisticRow`). Any number of clients interleave statement by
   statement and may stop anywhere. A ghost history lists the contents of every version, and every commit is
   shown to have acted on exactly the contents its client had read. `PilotTasks`, `WorkOrders`, `Windows`,
   `Declarations` and `Handovers` are instances: what an operation sends after reading a snapshot is its
   plan, and the theorems are about all schedules of all clients. `SharedRow` is the same row as an object,
   for the service methods that the repository writes step by step.
2. **Services over tables** (`PilotService`, `ClaimRace`, `EngineAndWorker`, `Berthing`,
   `Declarations.DeclStore`). `ClaimRace` interleaves the statements on a task row and its leases. Classes
   hold the tables as fields; statements are methods that update them; each service call is a method proved
   against a function or relation on the old and the new tables.
3. **The quota ledger and submission.** `Quotas` replays any sound log of ledger changes; `QuotaService`
   has the bounded retry loops against an arbitrary environment that may run any statements of other
   clients before each of the loop's own. `Submissions` is the statement-level machine of any number of
   Submit calls and direct quota calls, with failures at any point; `SubmitDesk` is Submit as code on the
   tables, proved to take steps of that machine, so the theorems about its runs hold of the code.
4. **Smaller pieces.** `Runs` (schedules of a machine), `Environment` (what surrounds a call's statements),
   `StateMachines` (transition tables), `Selection` (ORDER BY), `Calendar`, `Timestamps`
   and `ExpiryQueries` (stored text against instants), `Pagination` (pages and the list query).

## Where the code and its descriptions differ

The code is modelled, and where a promise is false of it the exact condition is proved.

- Batch allocation is described as undone on failure (internal/berthing/service.go:110-157), but the batch
  insert is a plain loop (internal/store/window_repo.go:33-40). With fresh ids it stores all or nothing exactly
  when every item's declaration exists or the first one's does not (`Berthing.AllOrNothingExactly`);
  `Berthing.PartialBatch` is a batch that leaves one row behind.
- A claim updates the task and then inserts the lease (internal/pilottask/service.go:153-174). A report or
  preemption that looks for the lease between the two finds none, and the lease then stays active for ever
  on a task that is not held (`ClaimRace.OrphanHappens`). Once no call is under way the two tables agree
  exactly when that has not happened (`ClaimRace.AgreeAtRest`).
- Submit's compensating release expects the version after the one it re-read
  (internal/declaration/service.go:166). It returns the quota exactly when one other update won the row in
  between and the row still holds the amount, and never without interference
  (`Submissions.CompensationHitsExactly`).
- A repeat of a Submit call whose declaration is stored is answered with the declaration's id exactly if it
  looks its key up while the reply is cached and has not expired (`Submissions.RepeatIsAnsweredExactly`).
  It is not after the expiry, and not while the first call has stored the declaration and not yet cached
  its reply, or has failed to cache it (`Submissions.UncachedRepeatFails`). Undisturbed and on a row with
  room, such a repeat also keeps the quota it reserved (`Submissions.ExpiredRepeatKeepsReservation`).
- Commit and Release do not check the sign of the amount (internal/quota/service.go:157-202). A winning update
  keeps the ledger in order exactly when the amount is not too negative (`Quotas.LedgerKeptExactly`), and a
  negative release can overbook (`Quotas.NegativeReleaseOverbooks`).
- An error from Reserve can leave the amount reserved: after a won reservation the call ends in an error
  exactly when the store refuses the one select that follows (`QuotaService.QuotaStore.ReserveAmount`);
  `QuotaService.ErrorKeepsReservation` is such a call.
- An escalation rewrites escalated to escalated, which the window table does not list
  (`Windows.StatusChangesAreEdges`, `Windows.EscalatedAgain`).
- A Complete that wins its volume write and loses its status write leaves the volume behind
  (`WorkOrders.Complete`).
- Stored texts of different zone offsets do not compare as instants (`Timestamps.ComparableExactly`). Claim
  expiries and clock readings use the process's own zone and window deadlines the zone of the request, so
  the expiry queries are exact when these agree (`Timestamps.ExpiryQuery`).

## Assumptions

A statement either applies its guarded update as one step or fails with no effect. Identifiers are
numbers, fresh ones are parameters, and uniqueness is checked where the schema checks it. Clocks, faults,
contention and the statements of other clients are parameters. Times in tasks and windows are whole
seconds, as stored; `ExpiryQueries` relates them to the stored text. The tick results take one clock reading
for all stages of a tick. The quota rows of `Submissions` are kept by (type, day), which names at most one
row (`Quotas.OneRowPerKey`). Direct quota callers in `Submissions` release no more than they have reserved.
Cargo volumes and limits are not negative, as the services and the configuration check.

## Model

| member | source | states |
|---|---|---|
| OptimisticRow.NextKeepsInv | internal/store/pilottask_repo.go:93-126 | One statement of one client keeps the history invariant: each version is explained by a plan computed from the snapshot it replaced, and every running client's snapshot is what the history holds at the version it read |
| OptimisticRow.RunKeepsInv | internal/store/pilottask_repo.go:93-126 | The same after every schedule of any number of clients, for any protocol of this shape |
| OptimisticRow.HistoryOnlyGrows | internal/store/pilottask_repo.go:93-126 | A version's contents and the commit that made it never change afterwards |
| OptimisticRow.ConflictMeansOvertaken | internal/pilottask/service.go:153-162 | An update that affects no row lost to one that won at the version it expected, and changed nothing |
| OptimisticRow.SharedRow.Update | internal/store/workorder_repo.go:92-125 | A guarded update wins exactly at the expected version and then appends exactly one version |
| StateMachines.StateMachine.Allow | internal/domain/state_machine.go:33-40 | Adds exactly one edge to the table |
| StateMachines.StateMachine.AllowMany | internal/domain/state_machine.go:43-47 | Adds exactly the listed edges |
| StateMachines.StateMachine.MustTransition | internal/domain/state_machine.go:61-66 | Returns the target exactly when the edge is in the table, an error otherwise |
| StateMachines.PilotTaskStateMachine | internal/domain/state_machine.go:145-158 | The built table allows exactly the pilot-task edges |
| StateMachines.WorkOrderStateMachine | internal/domain/state_machine.go:133-142 | The built table allows exactly the work-order edges |
| StateMachines.WindowStateMachine | internal/domain/state_machine.go:119-130 | The built table allows exactly the window edges |
| StateMachines.DeclarationStateMachine | internal/domain/state_machine.go:101-116 | The built table allows exactly the declaration edges |
| StateMachines.FinalStatuses | internal/domain/state_machine.go:101-158 | The statuses each table never leaves |
| PilotTasks.EachCommit | internal/pilottask/service.go:94-337 | Whatever the interleaving, a winning update acts on a row for which its service's check holds, though the statement checks only the version |
| PilotTasks.ColumnsAgree | internal/store/pilottask_repo.go:104-126 | At every version the claim columns are set exactly in claimed, in-progress and completed rows |
| PilotTasks.StatusChangesAreEdges | internal/domain/state_machine.go:145-158 | In every run every committed status change is an edge of the table |
| PilotTasks.CompletedIsFinal | internal/pilottask/service.go:204-253 | A completed row is the last version there ever is |
| PilotTasks.ReportsWinOnce | internal/pilottask/service.go:204-253 | At most one report wins in a task's life, by the executor in `claimed_by` at the version it replaced |
| PilotTasks.ExecutedOnce | internal/store/misc_repo.go:103-116 | At most one execution record, credited to the executor that held the claim when the task was completed |
| PilotTasks.RacersOnOneVersion | internal/pilottask/service.go:283-291 | Of operations that read one version, such as a report and a preemption, at most one wins |
| PilotTasks.ClaimBalance | internal/pilottask/service.go:135-192 | Claims won minus claims cleared is 1 when the row names a holder and 0 otherwise, at every version |
| PilotTasks.ReclaimNeedsClearing | internal/pilottask/service.go:315-337 | A second claim is preceded by a clearing and then an assignment, both after the first claim: no claim is taken from a live holder |
| PilotService.EffectKeepsAgreement | internal/pilottask/service.go:135-298 | Every service call keeps the task and lease tables in agreement |
| PilotService.EffectMovesLeases | internal/store/lease_repo.go:65-104 | A call moves a lease at most once, to released with its task completed or to revoked with its task preempted |
| PilotService.CallsKeepAgreement | internal/pilottask/service.go:62-337 | Over every sequence of calls, creation included, the tables agree and no lease moves twice |
| PilotService.AgreementMeans | internal/pilottask/service.go:164-178 | A task is held exactly when it has an active lease; then exactly one, with the row's lease id, executor and expiry; created, assigned and preempted tasks carry no claim |
| ClaimRace.NextKeepsInv | internal/pilottask/service.go:135-298 | Any single statement of a claim, report, preemption or assignment keeps the invariant that says where each lease of the task stands |
| ClaimRace.RunKeepsInv | internal/pilottask/service.go:135-298 | So it holds after every interleaving of the statements of any number of clients |
| ClaimRace.OrphansExactly | internal/pilottask/service.go:153-182 | An active lease without a holder exists, once no call is under way, exactly for a claim between whose two statements a report or preemption looked for the lease |
| ClaimRace.OrphansStay | internal/pilottask/service.go:231-298 | Such a lease is never closed, whatever happens later |
| ClaimRace.LeasesTellTheEnd | internal/store/lease_repo.go:65-104 | In every interleaving a lease is released only when its task was completed under it, and revoked only when not |
| ClaimRace.AgreeExactly | internal/pilottask/service.go:135-298 | In every reachable state, whoever has stopped where, the task and lease tables agree exactly when no lookup fell between the statements of a claim, no held claim's lease is still to be stored, and no ended claim's stored lease is still to be closed |
| ClaimRace.AgreeAtRest | internal/pilottask/service.go:135-298 | Once no call is under way, exactly when no lookup fell between the statements of a claim |
| ClaimRace.OrphanHappens | internal/pilottask/service.go:153-237 | A run of one claim and one report that ends with a completed task and its lease active |
| PilotService.PilotStore.Create | internal/pilottask/service.go:62-91 | Which requests are refused and why, and the stored row: created, unclaimed, version 1, with the caller's priority |
| PilotService.PilotStore.ListClaimable | internal/store/pilottask_repo.go:128-146 | The first min(n, b) of the n assigned tasks, smaller priority first and then earlier created_at, b being the limit from 1 to 100 and otherwise 10 |
| PilotService.PilotStore.ListExpiredClaims | internal/store/pilottask_repo.go:148-167 | Exactly the held tasks whose claim expired before now, earliest first |
| PilotService.PilotStore.Assign | internal/pilottask/service.go:94-116 | Assigns exactly along the table, in the next version, reports missing and illegal cases, changes nothing else |
| PilotService.PilotStore.Claim | internal/pilottask/service.go:135-192 | Which of its four errors or the grant it returns; the claimed row and its active lease column by column; the row unclaimed two versions later when the lease cannot be stored |
| PilotService.PilotStore.Report | internal/pilottask/service.go:204-253 | Only the holder completes a task; then the row is completed, its lease released and one record written, and nothing else changes |
| PilotService.PilotStore.PreemptOne | internal/pilottask/service.go:283-312 | Clears the claim columns, sets preempted, revokes the lease, and changes nothing else |
| PilotService.TopOfOrdered | internal/store/pilottask_repo.go:128-146 | A prefix of an ordered selection consists of its least rows |
| EngineAndWorker.PreemptExpiredClaims | internal/pilottask/service.go:258-274 | Preempts exactly the expired claims, in expiry order |
| EngineAndWorker.TickMeans | internal/engine/engine.go:134-148 | Preempting and then reassigning the expired list leaves exactly those tasks assigned with no claim and two versions later, their leases revoked, all else untouched |
| EngineAndWorker.TickClaims | internal/engine/engine.go:134-148 | One undisturbed tick leaves no expired claim, and its effect on both tables is exactly that |
| EngineAndWorker.PreemptFirstLeases | internal/store/lease_repo.go:65-74 | After n preemptions exactly the active leases of those n tasks are revoked |
| EngineAndWorker.ExecuteIsClaimAndReport | internal/worker/worker.go:142-187 | Claiming a task and completing it amounts to one step: task completed under the claim, lease released, one record |
| EngineAndWorker.ExecuteFirstTasks | internal/worker/worker.go:190-203 | n executions finish exactly those n tasks, each under its own grant |
| EngineAndWorker.ExecuteFirstRecords | internal/worker/worker.go:142-203 | n executions leave n released leases and n records, one for each task, in order |
| EngineAndWorker.Worker.ClaimAndExecute | internal/worker/worker.go:142-187 | A won claim ends in a completed task, or in a claimed one when the report fails; a task that is not assigned is left alone without error; the counters balance |
| EngineAndWorker.Worker.ExecuteOnce | internal/worker/worker.go:190-203 | Undisturbed, completes exactly the first min(n, b) of the n assigned tasks, smaller priority first and then earlier created_at, and nothing else; b is the batch size from 1 to 100 and otherwise 10 |
| EngineAndWorker.Worker.Drain | internal/worker/worker.go:190-203 | k calls complete exactly the first min(n, k * b) of n assigned tasks in (priority, created_at) order, each in two versions under a claim of this worker, and change no other task, so ceil(n / b) calls leave none assigned |
| EngineAndWorker.DrainStep | internal/worker/worker.go:190-203 | One call takes min(n, b) off the assigned tasks and leaves the other calls' lease ids unused |
| EngineAndWorker.DrainMore | internal/worker/worker.go:190-203 | After one more call the tasks done are still in order, completed, and before everything still assigned |
| WorkOrders.EachCommit | internal/workorder/service.go:104-223 | A commit is a volume write on an order in progress, or sets its operation's own status and stamp along the table; in a two-write completion its predecessor is that completion's volume write |
| WorkOrders.StatusChangesAreEdges | internal/domain/state_machine.go:133-142 | In every run every committed status change is an edge of the table |
| WorkOrders.CompletionIsAtomic | internal/workorder/service.go:164-198 | A successful completion with a positive volume takes two consecutive versions with nothing between, and the completed row has that volume for ever |
| WorkOrders.StampsTellHistory | internal/store/workorder_repo.go:92-114 | `started_at` is set exactly from the version that entered in_progress on, `completed_at` exactly in completed versions |
| WorkOrders.AtMostThreeStatusChanges | internal/domain/state_machine.go:133-142 | An order changes status at most three times in any run |
| WorkOrders.Transition | internal/workorder/service.go:104-223 | Assign, StartProgress and Cancel win exactly when the edge exists and no other update came between read and write |
| WorkOrders.Complete | internal/workorder/service.go:164-198 | Succeeds exactly when no other update comes before or between its writes; what a conflict leaves behind in each case |
| Windows.EachCommit | internal/berthing/service.go:180-326 | An escalation, of a live window past its deadline, raises the level by one and names its assignee; every other commit sets its operation's own status along the table only, activation only inside the period |
| Windows.StatusChangesAreEdges | internal/store/window_repo.go:102-123 | Every committed status change is an edge, except an escalation of an escalated window, which the table does not list |
| Windows.EscalatedAgain | internal/berthing/service.go:254-290 | The exception happens: a run from a new window in which escalated is rewritten to escalated |
| Windows.LevelCountsEscalations | internal/store/window_repo.go:113-123 | In every run the level is the number of escalations that won, and names the assignee |
| Windows.RecordsAreDistinctSteps | internal/store/misc_repo.go:13-26 | In every run, records lost or not, each record is one step below the level and no step is recorded twice |
| Windows.OverdueMeaning | internal/store/window_repo.go:125-144 | A live window is listed exactly when the second after its deadline has begun |
| Windows.ActivatedIsNotOverdue | internal/engine/engine.go:114-132 | With one clock reading, an activated window is not escalated |
| Berthing.RaiseKeepsChains | internal/berthing/service.go:254-290 | Raising a window and recording the step keeps every window's records the chain 0-1, 1-2, ... up to its level |
| Berthing.StepsKeepChains | internal/berthing/service.go:233-290 | So does any number of escalations of listed windows |
| Berthing.RaisedAll | internal/berthing/service.go:233-251 | Escalating the listed windows raises exactly the overdue ones, each once |
| Berthing.NoTraceExactly | internal/store/window_repo.go:33-40 | A batch leaves the table as it was exactly when its first row is refused: its declaration is missing or its id taken |
| Berthing.AllOrNothingExactly | internal/berthing/service.go:108-146 | With fresh ids a batch stores all its rows or none exactly when every declaration exists or the first one does not |
| Berthing.PartialBatch | internal/store/window_repo.go:33-40 | A two-item batch whose second declaration is missing stores one row |
| Berthing.CallKeepsChains | internal/berthing/service.go:66-326 | Every call that changes windows or records, allocations included, keeps every window's records a complete chain |
| Berthing.CallsKeepChains | internal/berthing/service.go:66-326 | So does every sequence of calls: a window at level L has exactly the records 0-1, ..., (L-1)-L |
| Berthing.CallMovesAlongTable | internal/domain/state_machine.go:119-130 | Every call leaves a window alone or moves it one version along the table, or keeps an escalated one escalated; windows it adds are allocated at level 0 |
| Berthing.BatchRows | internal/store/window_repo.go:11-40 | The stored rows of a batch are as requested, in whole seconds, for declarations that exist, and no earlier row changes |
| Berthing.WindowStore.Create | internal/berthing/service.go:66-96 | Which requests are refused as malformed, by comparing full instants, which by the store, and that the row is stored exactly otherwise; chains are kept |
| Berthing.WindowStore.CreateBatch | internal/store/window_repo.go:33-40 | The loop stores the rows before the first refused one and keeps the chains; it leaves no trace exactly when the first row is refused before the call |
| Berthing.WindowStore.BatchAllocate | internal/berthing/service.go:110-157 | A batch of the wrong size or with a malformed item stores nothing; any other ends as the store's loop does, and reports an error exactly when that stopped |
| Berthing.WindowStore.ForceIntervene | internal/berthing/service.go:180-227 | Moves a window along the table only, and keeps the chains; Release is the case of released |
| Berthing.WindowStore.ActivateEffective | internal/berthing/service.go:307-326 | Sets effective, in the next version, exactly the allocated windows inside their period, changes no other column or window, and counts them |
| Berthing.WindowStore.EscalateOverdue | internal/berthing/service.go:233-251 | Raises exactly the overdue windows by one level, with one record each, and keeps the chains |
| Berthing.WindowStore.TickWindows | internal/engine/engine.go:114-132 | In a tick each window becomes effective, or escalated one level up with that level's assignee, or is untouched, as its row before the tick decides, never two of these |
| Declarations.EachCommit | internal/declaration/service.go:228-361 | Cancel commits only cancelled, Advance only scheduled from queued, both along the table and with nothing else changed; UpdatePriority sets only the priority, to the value asked for in 1..10 |
| Declarations.AtMostSixStatusChanges | internal/domain/state_machine.go:101-116 | Any life that follows the table, by whatever calls, has at most six status changes |
| Declarations.SixChangesAreAllowed | internal/domain/state_machine.go:101-116 | Six is exact: a life that follows the table and has six |
| Declarations.RunsFollowTable | internal/declaration/service.go:228-361 | Every run of the service calls is such a life |
| Declarations.AtMostTwoStatusChanges | internal/declaration/service.go:228-361 | In every run of the service calls a declaration's status changes at most twice, and only once if it was not queued |
| Declarations.TwoChangesHappen | internal/declaration/service.go:228-361 | Two is exact: the run in which a queued declaration is scheduled and then cancelled |
| Declarations.DeclStore.Change | internal/declaration/service.go:228-274 | Cancel and UpdatePriority win exactly when their row is still the one they read, and then set cancelled or the priority asked for; each error case, and that it changes nothing |
| Declarations.DeclStore.AdvanceQueued | internal/declaration/service.go:338-361 | A success schedules, in the next version, a queued declaration than which no queued one has a smaller priority, or the same and is older, whatever happens meanwhile, and touches no other; a conflict means that one changed |
| Declarations.DeclStore.AdvanceForTicks | internal/engine/engine.go:150-158 | With no arrivals or edits, n promotions schedule the first min(n, queue length) queued declarations in order and touch nothing else, so n at least the length empties the queue in sorted order |
| Declarations.EmptyingStep | internal/store/declaration_repo.go:122-141 | Promoting a head keeps the promoted ones in order, before everything still queued |
| Handovers.DecidedOnce | internal/handover/service.go:105-150 | In every run at most one decision wins and the status is that decision |
| Handovers.StatusChangesAreEdges | internal/handover/service.go:105-150 | In every run every committed status change decides a pending document |
| Handovers.Decide | internal/handover/service.go:105-150 | Confirm and Reject win exactly on a pending document that nobody changed meanwhile |
| Quotas.Conservation | internal/store/quota_repo.go:111-145 | In every interleaving used is the sum of commits, used plus reserved is reservations minus releases, and the version counts the winning updates |
| Quotas.LedgerBound | internal/store/quota_repo.go:111-145 | With amounts that are not negative, every reachable row has used, reserved >= 0 and used + reserved <= limit |
| Quotas.OneRowPerKey | migrations/001_initial_schema.sql:124 | A (type, day) has at most one row |
| Quotas.RowMoves | internal/store/quota_repo.go:111-145 | A row's version moves once per winning update, and an unmoved version means an unchanged row |
| Quotas.CheckImpliesGuard | internal/quota/service.go:126-129 | For positive amounts the service's availability check and the statement's guard agree on one snapshot |
| Quotas.LedgerKeptExactly | internal/quota/service.go:157-202 | For each statement, the exact amounts for which a winning update keeps the ledger in order |
| Quotas.NegativeReleaseOverbooks | internal/quota/service.go:182-202 | A concrete negative release that is accepted and breaks the limit |
| QuotaService.QuotaStore.GetOrCreate | internal/store/quota_repo.go:11-47 | Every caller that gets a row gets the one row of the (type, day), also when it lost the insert race; if the row was there before, the call fails exactly when its first select is refused; undisturbed, a missing row is created with the given limit and nothing used or reserved |
| QuotaService.QuotaStore.ReserveWithRetry | internal/quota/service.go:120-144 | The retry loop is one atomic try-reserve under arbitrary interference: true is exactly one increment, false and errors are no change, false means the row is short; of the passes that did not decide, all that met no contention lost to updates of others; a failure names the pass and the statement that was refused; undisturbed, a row with room is reserved |
| QuotaService.QuotaStore.ReserveAmount | internal/quota/service.go:63-118 | What a grant and a denial mean; after a won reservation the call ends in an error, with the amount reserved, exactly when the store refuses the one select that follows; what any other error is due to; undisturbed, it is granted exactly when the row, or a new one with the yard or cabin limit of its kind, has the amount, and reports what is left |
| QuotaService.ErrorKeepsReservation | internal/quota/service.go:86-90 | A concrete store and environment in which Reserve returns an error and the row has the amount reserved |
| QuotaService.QuotaStore.CommitReserved | internal/quota/service.go:157-180 | Success is exactly one commit; a conflict means five updates of others; a validation error means the row holds less; any other error names the pass that was refused or found no row, after passes that lost to updates of others |
| QuotaService.QuotaStore.ReleaseReserved | internal/quota/service.go:182-202 | Success is exactly one release; a conflict means five updates of others, or that the row held less when it was read; any other error names the pass that was refused or found no row |
| QuotaService.WonReservationIsAtomic | internal/store/quota_repo.go:111-121 | When a reservation took effect the row had the amount; it has that much more reserved and no other row changed |
| QuotaService.LostMeansOvertaken | internal/store/quota_repo.go:111-121 | A losing update whose snapshot passed the guard lost to an update that won in between |
| Submissions.BooksBalance | internal/declaration/service.go:87-205 | In every interleaving, failures included, what a row has given out is the volume of its declarations, plus what calls hold, plus what direct callers hold, within the limit |
| Submissions.CapacityBound | internal/declaration/service.go:87-168 | The volume of the declarations charged to a (type, day) is at most reserved plus used, which is at most the daily limit |
| Submissions.DailyLimitBound | internal/declaration/service.go:105-128 | When every read of a (type, day) carries the configured daily limit, its row has that limit and the volume of its declarations never exceeds it |
| Submissions.QueuedWhenCrowded | internal/declaration/service.go:130-141 | After its reservation a call decides to queue exactly when less than a fifth of the limit is left, and otherwise to accept |
| Submissions.RunIsTruthful | internal/store/declaration_repo.go:11-29 | In every interleaving ids and non-empty keys are unique, and every cached, pending or given reply with an id names a stored declaration with its key |
| Submissions.OneDeclarationPerKey | internal/declaration/service.go:92-100 | At most one declaration per non-empty key, and any two replies for a key that carry an id carry one id, that of the stored declaration with the key |
| Submissions.CacheIsStable | internal/store/misc_repo.go:170-180 | A cached reply is never replaced |
| Submissions.CachedForADay | internal/declaration/service.go:403-416 | A reply cached at `now` answers later calls with its key exactly up to the whole second of `now` plus 86400 seconds, whatever happened in between |
| Submissions.RepeatReturnsCached | internal/declaration/service.go:385-416 | Whatever happened since, a later call with the key before the cached expiry returns the cached reply and changes no row |
| Submissions.RepeatIsAnsweredExactly | internal/declaration/service.go:385-401 | When a call looks up its key and a declaration with the key is stored, then, whatever all calls do from there on, it is answered with a declaration id exactly if the lookup finds an unexpired reply with an id, and then with that reply |
| Submissions.UncachedRepeatFails | internal/declaration/service.go:169-205 | So a repeat that comes after the declaration is stored and before its reply is cached is never answered with the id, in any interleaving |
| Submissions.UncachedHappens | internal/declaration/service.go:169-205 | Such a moment is reached: a first call between its two statements and a second call with its key |
| Submissions.ExpiredRepeatKeepsReservation | internal/declaration/service.go:385-401 | After the expiry an undisturbed repeat on a row with room fails and keeps the quota it reserved |
| Submissions.CompensationHitsExactly | internal/declaration/service.go:165-168 | Whether the insert failed in the store or met a taken key or id, the compensating release hits exactly when one other update won since the re-read and the row holds the amount; undisturbed it never does |
| SubmitDesk.Desk.TryIdempotency | internal/declaration/service.go:385-401 | A live cached reply is returned as it is, whatever others do, and an undisturbed miss changes no table |
| SubmitDesk.Desk.ReserveQuotaWithRetry | internal/declaration/submit.go:17-43 | The loop takes steps of the machine, ends holding the reservation, refused or failed; each pass that did not decide met contention or lost to an update of the row by another call, and an error is due to the refused statement of the next pass or to maxRetries + 1 such passes; undisturbed it reserves exactly when the row has the volume |
| SubmitDesk.Desk.CreateOrRelease | internal/declaration/service.go:165-168 | A refused insert stores nothing; the release after it, undisturbed, changes no quota |
| SubmitDesk.Desk.CacheIdempotency | internal/declaration/service.go:403-416 | Answers the call; stores the reply only under a non-empty key that has none |
| SubmitDesk.Desk.Submit | internal/declaration/service.go:87-205 | The tables it leaves are those of a run of the machine with this call in it, its result is the machine's answer, the books balance and replies are truthful; an error has a cause in the store, in a taken id or key, or in 26 passes lost to contention and others; a live cached reply is all a repeat does; an undisturbed call does exactly what its case table, in columns, says |
| SubmitDesk.FirstOfDay | internal/declaration/service.go:105-141 | The first call of a (type, day) is refused exactly when its volume is over the daily limit; otherwise the new row has that limit and the volume reserved, and what is left decides between queued and accepted |
| SubmitDesk.Desk.SubmitCargo | internal/declaration/service.go:87-111 | Containers and cargo in TEU take yard quota with the yard limit, everything else cabin quota with the cabin limit; a negative volume is refused with no change |
| Calendar.DateOrder | internal/store/helpers.go:23-26 | Dates compared field by field compare as day counts |
| Calendar.DateOfDay | internal/store/helpers.go:23-26 | Every day has a date that counts back to it |
| Calendar.ClosedForm | internal/store/helpers.go:23-26 | The day count of the years follows the Gregorian rule in closed form |
| Calendar.KnownLeapDays | internal/store/helpers.go:23-26 | 29 February is a day of 2000, with its known number, and not of 2100 |
| Timestamps.TextOrder | internal/store/helpers.go:23-26 | Stored texts compare by local time, and by zone text between equal local times |
| Timestamps.TextOrderIsTimeOrder | internal/pilottask/service.go:154 | With one zone offset and four-digit years, text order is the order of the whole-second instants (RFC 3339, section 5.1) |
| Timestamps.ComparableExactly | internal/store/helpers.go:51-57 | Texts of two offsets compare as instants for all readings if and only if the offsets are equal |
| Timestamps.ExpiryQuery | internal/store/pilottask_repo.go:152-153 | The query selects exactly the deadlines before now, both cut to the second |
| Timestamps.StoredTimeRoundTrip | internal/store/helpers.go:29-41 | Reading a stored text back gives the reading cut to the second, and storing that gives the same text |
| Timestamps.ReferenceTime | internal/store/helpers.go:23-26 | The layout's reference instant, given in Unix time, has its known text in UTC, at +07:00 and at -07:00 |
| ExpiryQueries.ExpiredClaimsByText | internal/store/pilottask_repo.go:148-167 | The model's expired claims are the text comparison of the query |
| ExpiryQueries.ExpiredWindowsByText | internal/store/window_repo.go:125-144 | The model's overdue windows are the text comparison of the query |
| Pagination.ValidPages | internal/domain/pagination.go:25-41 | Exactly the accepted queries have a positive size within the maximum and an offset that is not negative; their pages, of whatever rows, hold at most page_size and so at most the maximum, and only rows from the offset on |
| Pagination.InvalidPages | internal/domain/pagination.go:25-41 | What a refused query would list: a page below 1 repeats page 1, a negative size lists every row from the offset on and so all of them from page 1 on, a size of zero none |
| Pagination.NextExactly | internal/domain/pagination.go:54-69 | A page says it has a next one exactly when it ends before the list does |
| Pagination.PageItems | internal/domain/pagination.go:39-69 | A page holds exactly the rows between its start and the next page's: page_size of them, the rest, or none |
| Pagination.PagesPartition | internal/domain/pagination.go:39-69 | Following HasNext from page 1 ends after TotalPages pages, the pages together are the list, and the first and last pages are told by HasPrev and HasNext |
| Pagination.JoinAnd | internal/store/sqlite_store.go:100-109 | The parts joined by AND |
| Pagination.BuildListQuery | internal/store/sqlite_store.go:69-89 | One clause for each filter, and the arguments in the order of the clauses whatever order the filters are walked in |
| Pagination.QueryText | internal/store/sqlite_store.go:69-109 | The text of the statement for no filter and for two, with and without an order |
| Pagination.PlacesMatchArguments | internal/store/sqlite_store.go:69-89 | The statement has exactly one place for each argument |
| Selection.OrderBy | internal/store/pilottask_repo.go:128-146 | Every selected row once, in ORDER BY order |

## Left out

- HTTP handlers, routing, middleware, DTO conversion, CSV export, commands and configuration: no state of their own.
- SQLite itself, `InTx`, the migration runner, write-ahead logging and busy timeouts: a statement is one step.
- Goroutines, tickers, Start, Stop, Stats and the fake clock: ticks and polls are calls.
- UUID generation (fresh ids are parameters) and the JSON of a cached reply (taken as the reply itself).
- Audit logging, the handover document created inside Submit, and message texts: side records whose errors are ignored.
- Floating-point utilization, quota status and wait estimates: only the test "above 0.8" is modelled, exactly.
- `queue_position`, `assigned_to` of tasks and orders, report data, and the responsible party, which escalation computes but does not store.
- `QuotaStateMachine` and the stored quota status: nothing changes the column after creation.
- Backlog counters, the field validation of submissions other than the volume, of work orders and of handovers, and the list of lease rows by expiry.
- `CleanExpiredIdempotency`: no service calls it, and a cache that forgets would not change which declarations exist.
- Lists under concurrent change: the pagination results are about one fixed ordered result.
- Texts that Go's time parser accepts beyond the full-width form the store writes.
- PilotService.CallsKeepAgreement: takes each service call as one step; single statements are the subject of ClaimRace.
- ClaimRace.AgreeExactly: follows one task and its leases; other tasks' leases have other ids.
- EngineAndWorker.TickClaims: takes a tick with nothing else going on and one clock reading; interleaved clients are covered row by row in PilotTasks.
- EngineAndWorker.Worker.ExecuteOnce: takes a call with nothing else going on and no storage error; a failing report is covered by ClaimAndExecute, and the polling loop, which claims and executes the listed tasks in the same way, has no member of its own.
- Berthing.WindowStore.TickWindows: takes calls as single steps and one clock reading; interleaved clients are covered row by row in Windows.
- SubmitDesk.Desk.Submit: the quota rows are kept by (type, day) and not by id; losing the insert race is covered by QuotaService.
