# Optimistic locking in the embodied fleet service: a verified model

The service keeps missions, charging quotas, route reservations, mission runs and robot
assignments in SQLite. Every call has the same shape: read a row, check it in Go, then
`UPDATE ... WHERE id = ? AND version = ?`. The statements are separate; HTTP clients, the
scheduling engine and any number of workers run theirs in between. This project models that
protocol and proves what every interleaving keeps.

## How the model is built

* **Protocols.** `AssignmentProtocol`, `Submission`, `MissionQueue`, `Reservations`,
  `MissionRuns` and `Migrations` are state machines over single database statements. A state
  holds the tables, where each client stands inside its call (with the values it carries), and
  history that the service itself does not keep (committed operations, the fate of claims,
  replies). `Run` takes any schedule of any clients. Theorems quantify over schedules.
* **Services.** The Go objects are classes over the same tables (`AssignmentService.Service`,
  `MissionService.Service`, `MissionQueue.Service`, `RoutingService.Service`,
  `MissionRuns.Service`, `QuotaService.Store`, `Scheduler.Engine`, `Worker.Worker`,
  `Migrations.Database`). They consult state machine objects built as the constructors build
  them. Between any two statements of a call a method `Interfere` runs arbitrary statements of
  the other clients. Each class keeps the invariant of its protocol, so the protocol's theorems
  speak about these programs. The engine's tick runs undisturbed; `TickRuns` and `TickTaskRuns`
  show that each of its phases is a run of the corresponding protocol.
* **Assumptions.** One statement is atomic. Identifiers are fresh. `CreateLease`,
  `CreateMission`, `InsertEscalation`, lock errors and SQL scripts may fail at any time; other
  statements of those protocols fail only by matching no row. Quota statements may also fail
  with an error. Clock readings, schedules and the outcome of failing statements are arbitrary.
* **Clocks and zones.** Times are stored as text with a UTC offset and compared as text.
  Reservation times carry the offset of the request (internal/server/dto.go:341-352,
  internal/store/window_repo.go:18-21), so reservations are modelled with calendar readings,
  their offsets and the stored text, and overdue windows are found by comparing texts. Claim
  expiries and mission creation times are both written and compared, as text, by the service's
  own clock; they are modelled as numbers, which assumes that this clock keeps one UTC offset.
  In a zone with daylight saving it has two, and the two are compared as different zones are.
  Idempotency expiries are parsed and compared as instants (internal/mission/service.go:399).

## Where the code and its evident intent differ

The model follows the code. These are results, not simplifications.

* The rollback of a failed `Submit` releases at `q.Version+1` (internal/mission/service.go:166)
  although `q` was read after the reservation (line 129). The units come back if and only if
  the others wrote to the row exactly once between that read and the rollback and the row still
  holds the amount (`SubmissionTheorems.RollbackWorksIff`); undisturbed, they stay reserved
  (`SubmissionTheorems.UndisturbedFailureKeepsTheUnits`). The admission bound holds all the same.
* An expired idempotency record is never replaced, the key being the primary key, and a record
  may be missing although its mission exists. A later call with such a key is not answered: the
  unique index refuses its mission, and it makes, records and answers nothing, but its energy
  stays reserved (`SubmissionTheorems.TakenKeyLosesUnits`).
* A lease that is inserted after its own claim has ended can outlive it. Once everyone is idle,
  the leases that are active although their claim has ended are exactly those that the client
  which ended the claim had looked for in vain (`AssignmentTheorems.AtRestTheTablesAgree`), and
  those stay active for good (`AssignmentTheorems.MissedLeasesStayActive`). A late lease that is
  there by the time the ending client looks is ended like any other
  (`AssignmentTheorems.LateLeaseMayStillBeReleased`). The same executor may report between the
  row write and the lease insert of its own claim
  (`AssignmentTheorems.LateLeaseOutlivesItsClaim`).
* A reservation's deadline is compared as text with the server's clock, each at its own UTC
  offset. A clock east of the deadline escalates early, and may escalate a reservation in the
  tick that activates it (`Scheduler.EscalatesOnlyPastDeadlineIff`,
  `Scheduler.TickIsExclusiveIff`; five hours early in
  `Scheduler.ActivatedAndEscalatedFiveHoursEarly`). A clock west of it escalates late
  (`Scheduler.EscalatesPromptlyIff`). Only equal offsets order texts as time
  (`Timestamps.TextOrderIsTimeOrderIff`).
* `ActivateEffective` returns 0 when it activated rows (internal/routing/service.go:325-327),
  against internal/routing/routing_test.go:209-212; the engine would drop the count anyway
  (internal/engine/engine.go:117). The effect on the rows is as intended.
* An escalation computes and announces a new party (internal/routing/service.go:256) but does
  not store it (internal/store/window_repo.go:113-117): the party of a row never changes.
* An escalated row past its deadline is listed and escalated again on every tick
  (`Scheduler.OverdueRowsClimbOnEveryTick`); that write bypasses the transition table.
* `Commit` and `Release` take amounts of either sign (internal/quota/service.go:157-202). The
  exact amounts that keep a row in bounds are in `Quotas.BoundsSurviveIff`, a counterexample in
  `Quotas.NegativeReleaseBreaksTheLimit`. A conflict from `Release` may mean that the row held
  less than the amount, for it has no check of its own.
* `itoa` turns the smallest 64-bit integer into "-".
* `ExecuteOnce` of the worker counts claims it lost to others as executed: its result is the
  number of tasks completed plus the number of claims lost (`Worker.Worker.ExecuteOnce`), and a
  claim can be lost (`Worker.AClaimCanBeLost`).
* Of two migration files with one version, only the first ever runs
  (`Migrations.EveryScriptRunsIffDistinct`).

## Model

| member | source | states |
|---|---|---|
| Optimistic.EveryReadIsASnapshot | internal/store/assignment_repo.go:93-126 | in any history of a row whose statements leave it alone or raise its version by one, an earlier read whose version is still current equals the row now; the histories of the protocol runs are such (AssignmentTheorems.RowsHaveHistories) |
| Optimistic.VersionHeldIffRowUntouched | internal/store/assignment_repo.go:93-126 | a version is still current if and only if the row has been the same all the time since: a row never comes back to a version |
| StateMachines.StateMachine.Allow | internal/domain/state_machine.go:33-41 | adds exactly one edge to the allowed transitions |
| StateMachines.StateMachine.AllowMany | internal/domain/state_machine.go:43-48 | adds exactly the edges from the source to the listed targets |
| StateMachines.MissionStateMachine | internal/domain/state_machine.go:101-117 | the mutable table built by the constructor allows exactly the edges of the specification's table |
| StateMachines.ReservationStateMachine | internal/domain/state_machine.go:119-131 | same, for reservations |
| StateMachines.MissionRunStateMachine | internal/domain/state_machine.go:133-143 | same, for mission runs |
| StateMachines.AssignmentStateMachine | internal/domain/state_machine.go:145-158 | same, for assignments |
| Domain.MissionPathIsShort | internal/domain/state_machine.go:101-117 | a rank falls along every edge, so a mission changes status at most six times |
| Domain.RunPathIsShort | internal/domain/state_machine.go:133-143 | same, at most three times for a mission run |
| AssignmentSpec.CountsBalance | internal/assignment/service.go:94-337 | in every legal atomic run: claims = clears + (1 if claimed or completed), assigns = claims + (1 if assigned), at most one completion, version = 1 + all of these, and claim columns empty exactly in created, assigned, preempted |
| AssignmentSpec.EveryChangeIsAnEdge | internal/domain/state_machine.go:145-158 | every atomic operation, also those that never consult the table, moves the row along one of its edges |
| AssignmentSpec.CompletedIsFinal | internal/assignment/service.go:204-253 | no operation applies to a completed assignment |
| AssignmentSafety.StepKeepsInv | internal/assignment/service.go:94-337 | every statement of every client keeps the invariant relating rows, leases, claims, the log and each client's place in its call |
| AssignmentSafety.RunKeepsInv | internal/assignment/service.go:94-337 | so every interleaving does |
| AssignmentSafety.Advance | internal/assignment/service.go:94-337 | every statement also takes nothing back: the log only grows, rows only move to later versions, a claim changes only by ending, once, and an ended or missed lease stays as it is |
| AssignmentProtocol.FirstToEndALeaseWins | internal/store/lease_repo.go:65-104 | of all clients that read an active lease the first to end it decides between released and revoked, and no later attempt at any version changes any lease |
| AssignmentTheorems.StepIsAtomic | internal/assignment/service.go:94-337 | each statement of an interleaved call is one atomic check-and-change of the row, or leaves the rows and the log alone |
| AssignmentTheorems.InterleavingsAreAtomicRuns | internal/assignment/service.go:94-337 | refinement: the log of any interleaving is a legal run of the atomic machine and yields exactly the row table |
| AssignmentTheorems.WriteWinsIffRowUntouched | internal/store/assignment_repo.go:93-126 | an assign, claim, report or preemption write takes effect if and only if the row is still as it was read; a lost write changes neither table |
| AssignmentTheorems.RowsHaveHistories | internal/store/assignment_repo.go:93-126 | the values of any row over any run form a history in which each statement leaves the row or raises its version by one |
| AssignmentTheorems.EarlierReadsAreSnapshots | internal/store/assignment_repo.go:93-126 | whatever was read from a row at any moment of any run: its version is still current if and only if no statement since has changed the row, and then it equals the row now |
| AssignmentTheorems.CountsBalanceInEveryRun | internal/assignment/service.go:94-337 | the counting equations and the shape of the claim columns hold in every interleaving of any number of workers |
| AssignmentTheorems.ActiveLeasesAgree | internal/assignment/service.go:135-192 | each active lease is the current lease of a claimed row, or about to be ended by the client that won the row, or was looked for in vain by that client |
| AssignmentTheorems.ClaimedRowsHaveTheirLease | internal/assignment/service.go:135-192 | each claimed row has its active lease, unless its own claimer has yet to insert it or to clear the claim |
| AssignmentTheorems.RowDecidesTheLease | internal/assignment/service.go:224-237 | a lease is released only if its task was completed while the row held that lease, revoked only if it was preempted while the row held it |
| AssignmentTheorems.AtRestTheTablesAgree | internal/store/lease_repo.go:65-104 | with all clients between calls, a lease is active without being current if and only if the client that ended its claim looked for it in vain, and every other lease is active, released or revoked if and only if its claim is open, was completed or was preempted |
| AssignmentTheorems.MissedLeasesStayActive | internal/store/lease_repo.go:65-104 | a lease looked for in vain by the client that ended its claim stays active however the run goes on |
| AssignmentTheorems.InTimeLeasesAreNeverMissed | internal/assignment/service.go:162-177 | a lease that was there while its claim was open is never missed, however the run goes on |
| AssignmentTheorems.TheEndedStayEnded | internal/store/lease_repo.go:65-104 | an ended lease never becomes active again and a completed row never changes, however the run goes on |
| AssignmentTheorems.StatusMovesAlongEdges | internal/domain/state_machine.go:145-158 | every committed status change in every interleaving is an edge of the table |
| AssignmentTheorems.LateLeaseOutlivesItsClaim | internal/assignment/service.go:162-177 | a schedule after which everyone is idle and a completed task still has an active lease, the one that was missed |
| AssignmentTheorems.LateLeaseMayStillBeReleased | internal/assignment/service.go:162-177 | a schedule in which the lease is inserted after its claim has ended and is released all the same |
| AssignmentService.Service.UpdateAssignmentStatus | internal/store/assignment_repo.go:93-102 | one guarded write of the status, or none |
| AssignmentService.Service.UpdateAssignmentClaim | internal/store/assignment_repo.go:104-114 | one guarded write of status and claim columns, or none |
| AssignmentService.Service.ClearAssignmentClaim | internal/store/assignment_repo.go:116-126 | one guarded write that empties the claim columns, or none |
| AssignmentService.Service.ListExpiredClaims | internal/store/assignment_repo.go:148-167 | exactly the claims past their expiry, each once, earliest first |
| AssignmentService.Service.CreateLease | internal/store/lease_repo.go:11-26 | inserts the active lease, or fails and changes nothing |
| AssignmentService.Service.Assign | internal/assignment/service.go:94-116 | Assign and Reassign: not found and invalid transition in exactly the stated cases; success means the row holds the atomic assign of this call, on the row as it was read; a conflict means somebody wrote to the row since |
| AssignmentService.Service.Claim | internal/assignment/service.go:135-192 | success: the atomic claim was committed, the claim is this caller's, the lease row is there; validation, not-found and transition errors in exactly the stated cases and a conflict only after a foreign write, all without a trace; failed lease insert: the claim has ended and there is no lease |
| AssignmentService.Service.FinishClaim | internal/assignment/service.go:162-192 | lease insert or compensation: the claim record itself never changes but for its end |
| AssignmentService.Service.Report | internal/assignment/service.go:204-253 | success: the completion was committed during the call by this caller, and the lease of that claim is closed unless it was not there to be found; exactly a foreign executor is refused; a conflict only after a foreign write |
| AssignmentService.Service.PreemptExpiredClaims | internal/assignment/service.go:258-274 | every result names a different row overdue at the start, with its executor, whose preemption this call committed and whose lease it closed; every row overdue at the start has been written to when it returns |
| AssignmentService.Service.PreemptOne | internal/assignment/service.go:283-312 | true means this call committed the preemption and closed the lease of that claim; either way the row has moved on and the loop goes on with the rest of its list |
| AssignmentService.Service.CloseAfterwards | internal/assignment/service.go:232-237 | afterwards the lease has the status its row write decided, or was missed |
| Worker.ReportedOnce | internal/assignment/service.go:204-253 | two completions of one task in one history are the same entry |
| Worker.Worker.ListClaimable | internal/assignment/service.go:360-365 | the first assigned tasks in order of priority and creation time, as many as there are within the limit |
| Worker.Worker.Wait | internal/worker/worker.go:115-137 | whatever the others do meanwhile, the counters stay true of the history |
| Worker.Worker.ClaimAndExecute | internal/worker/worker.go:142-187 | keeps claimed = reported + failed, claimed = claims the log grants to this worker, reported = different tasks completed under its name; no error without a report only if the task was not there to claim or somebody wrote to it; an error is counted exactly once |
| Worker.Worker.ExecuteOnce | internal/worker/worker.go:190-203 | result = tasks completed + claims lost, each of them a different listed task written to by others since; result + failures + errors = number of tasks listed |
| Worker.AClaimCanBeLost | internal/worker/worker.go:142-187 | a schedule in which a listed task is claimed by another worker and the claim of the first changes nothing |
| Worker.Worker.Poll | internal/worker/worker.go:115-137 | the same books, one more poll, also when cancelled half-way |
| Quotas.VersionCountsWrites | internal/store/quota_repo.go:111-145 | over any statements, version = number of successful writes, the insert included |
| Quotas.UnitsAreConserved | internal/store/quota_repo.go:111-145 | total granted = used + reserved + total released, used = total committed, whatever the amounts |
| Quotas.RowsStayInBounds | internal/store/quota_repo.go:111-145 | for non-negative amounts 0 <= used, 0 <= reserved, used + reserved <= daily limit on every reachable row |
| Quotas.BoundsSurviveIff | internal/store/quota_repo.go:111-145 | exactly which amounts, of either sign, a successful statement may carry without leaving the bounds |
| Quotas.NegativeReleaseBreaksTheLimit | internal/quota/service.go:182-202 | releasing minus one unit takes a full row over its limit |
| Quotas.ClampedCheckAgreesWithGuardIff | internal/domain/entities.go:106-112 | the check in Go, which clamps the remainder at zero, and the guard in SQL decide alike on every row if and only if the amount is positive |
| QuotaService.OthersMoveRows | internal/store/quota_repo.go:111-145 | while only others write, a row at the same version is the same row, and its version rises by their successful writes |
| QuotaService.Store.GetOrCreate | internal/store/quota_repo.go:11-47 | returns the row that is there when it returns, losing the insert race included, and moves no units |
| QuotaService.Store.ReserveAttempt | internal/quota/service.go:121-141 | an attempt that asks for another was lost to a lock error or to a foreign write of its own |
| QuotaService.Store.ReserveWithRetry | internal/quota/service.go:120-144 | giving up: foreign writes + lock errors >= attempts; rejection: at some moment of the call the raw remainder was below the amount, and nothing moved; success: exactly one grant, the last statement |
| QuotaService.Store.ReserveUnits | internal/quota/service.go:63-118 | conflict means all 26 attempts were lost to locks or foreign writes; a non-positive amount is refused and nothing runs; an availability is reported only with a grant or a rejection, is the remainder of the row at some moment between the last attempt and the return, and reading it moves no units |
| QuotaService.Store.CommitUnits | internal/quota/service.go:157-180 | conflict means five foreign writes; success commits exactly once; otherwise no units move |
| QuotaService.Store.ReleaseUnits | internal/quota/service.go:182-202 | conflict means five foreign writes, or attempts on a row that held less than the amount |
| SubmissionTheorems.StepKeepsInv | internal/mission/service.go:87-205 | every statement of Submit and of the quota service keeps: missions made + units owed <= used + reserved + given back, one mission per key, every answer backed by a mission of its own key |
| SubmissionTheorems.RunKeepsInv | internal/mission/service.go:87-205 | so every interleaving does |
| SubmissionTheorems.AdmissionBound | internal/mission/service.go:108-168 | in every interleaving, whatever the key, the energy of all missions made on its quota row is at most its daily limit plus what manual releases gave back, failed inserts and their rollbacks included |
| SubmissionTheorems.AdmissionNeverExceedsTheLimit | internal/mission/service.go:108-168 | without manual releases the daily limit is the bound |
| SubmissionTheorems.SubmitAloneAdmitsIff | internal/mission/service.go:87-205 | undisturbed, from any state the protocol keeps, a mission is made if and only if no fresh record answers, no mission has the key, and the energy is positive and covered by the remainder |
| SubmissionTheorems.SubmitAlone | internal/mission/service.go:87-205 | the statements of an undisturbed Submit, one by one, leave all tables exactly as the case distinction says: refused, answered from a record, rejected, admitted (queued when the row is then more than four fifths full), or failed on a taken key |
| SubmissionTheorems.TakenKeyLosesUnits | internal/mission/service.go:92-168 | a call whose key has a mission but no fresh record makes, records and answers nothing and leaves its energy reserved |
| SubmissionTheorems.RollbackWorksIff | internal/mission/service.go:165-168 | in any run from the re-read through the failed insert to the rollback, the units come back if and only if the others wrote to the row exactly once in between and the row still holds them; otherwise no row changes |
| SubmissionTheorems.UndisturbedFailureKeepsTheUnits | internal/mission/service.go:165-168 | with nobody else writing they do not come back |
| SubmissionTheorems.OneMissionPerKey | internal/mission/service.go:391-422 | at most one mission per non-empty key, and all answers for the key that name a mission name that one, cached, replayed or not |
| SubmissionTheorems.RecordsNeverChange | internal/store/misc_repo.go:170-180 | an idempotency record, expired or not, is never replaced |
| SubmissionTheorems.ReplayReturnsTheFirstAnswer | internal/mission/service.go:92-100 | within the stored expiry a replay gets the first answer and changes no table, whatever ran in between, when no older record held the key |
| MissionService.Service.ReserveQuotaWithRetry | internal/mission/submit.go:17-43 | the loop, statement by statement, ends reserved, rejected or given up in exactly the states of the protocol; a rejection saw a row, between the start and the end of the call, whose remainder was below the energy; giving up means that locks + writes to the row are at least the 26 attempts, the call having written nothing; a conflict is a lock error |
| MissionService.Service.AdmitMission | internal/mission/service.go:129-205 | success: a mission made during the call for this request, and its answer given; failure: the insert failed and the call ended with the release of the protocol, at one version after the re-read one |
| MissionService.Service.Submit | internal/mission/service.go:87-205 | refused exactly when the energy is not positive; a fresh record answers and changes nothing; otherwise an answer names the mission this call made for this request, or the row was seen short of the energy during the call; an error is a lock, 26 lost attempts, or a failed insert with its release; the invariant holds throughout |
| MissionQueue.DrainingFollowsTheOrder | internal/mission/service.go:338-361 | successive undisturbed promotions take different missions in (priority, creation time) order |
| MissionQueue.DrainingTouchesOnlyPicks | internal/mission/service.go:338-361 | each promoted mission moves to scheduled with one more version, all others stay |
| MissionQueue.DrainingEmptiesTheQueue | internal/mission/service.go:338-361 | n promotions on n queued missions schedule each exactly once and leave none queued; Scheduler.Engine.DrainQueue makes them |
| MissionQueue.StatusFollowsTheTable | internal/domain/state_machine.go:101-117 | in every interleaving a mission's statuses form a path of the table, at most six changes long |
| MissionQueue.PromotionTakesTheListedHead | internal/mission/service.go:338-361 | under interference a winning promotion took the listed minimum with the priority it was listed with, and wins if and only if the row is as listed |
| MissionQueue.FinalStatusStays | internal/mission/service.go:228-274 | statuses without outgoing edges are absorbing |
| MissionQueue.FirstOf | internal/store/mission_repo.go:122-141 | a queued mission no other precedes |
| MissionQueue.Service.Cancel | internal/mission/service.go:228-250 | success means one write, on the row as it was when the call began; not found and invalid transition exactly when the row is missing or its status has no such edge; a conflict only after a foreign write |
| MissionQueue.Service.UpdatePriority | internal/mission/service.go:253-274 | same, and only the priority changes |
| MissionQueue.Service.AdvanceQueued | internal/mission/service.go:338-361 | none if and only if nothing was queued; success promoted the head of the queue as it was; an error only after a foreign write to that head |
| Reservations.StepKeepsInv | internal/routing/service.go:205-329 | every statement of every client keeps: level = escalations won, records = the ladder, queues hold snapshots |
| Reservations.LevelCountsEscalations | internal/routing/service.go:254-290 | the level of a row is the number of its won escalations, and its assignee follows the level |
| Reservations.RecordsFormTheLadder | internal/routing/service.go:254-290 | stored, lost and in-flight records together are exactly (0,1), ..., (level-1, level), each once |
| Reservations.AtRestTheStoredRecordsAreTheLadder | internal/store/misc_repo.go:13-26 | with no failed insert and everyone idle the stored records are that ladder |
| Reservations.StatementsMoveLegally | internal/store/window_repo.go:102-123 | every statement moves a status along an edge, re-escalation being the only self-loop; the level rises only with an escalation and by one; party, times and the stored deadline text never change |
| Reservations.TimesAreAsStored | internal/store/window_repo.go:18-21 | in every reachable row the deadline column is the text of the deadline, cut to seconds, in the zone of the request |
| Reservations.LevelsNeverFall | internal/routing/service.go:254-290 | however the run goes on levels never fall, the party never moves, rows in final statuses keep everything |
| RoutingService.Service.ForceIntervene | internal/routing/service.go:205-227 | success means one write, from the status the check had seen; not found and invalid transition exactly when the row is missing or its status has no such edge; a conflict only after a foreign write |
| RoutingService.Service.Release | internal/routing/service.go:180-202 | the same towards released, which exactly effective, occupied and escalated rows can reach |
| RoutingService.Service.ListExpiredWindows | internal/store/window_repo.go:125-144 | exactly the rows in use whose stored deadline text sorts before the text of the clock, each once |
| RoutingService.Service.EscalateOverdue | internal/routing/service.go:233-251 | under interference every result is an escalation of a row listed as overdue at the start, from the level it had then, recorded once; no row twice; every row overdue at the start has been written to; the announced party is the one after the stored one |
| RoutingService.Service.EscalateOne | internal/routing/service.go:254-290 | a result means the row won its write and its record was issued once; with or without a result the row has moved on |
| Scheduler.TickActivatesOrEscalates | internal/engine/engine.go:105-126 | with a clock not east of the stored deadline a tick does one thing to a reservation: it activates it, escalates it once, or leaves it; the condition is exact (Scheduler.TickIsExclusiveIff) |
| Scheduler.TickIsExclusiveIff | internal/engine/engine.go:105-126 | no reservation is activated and escalated in one tick, whatever its times, if and only if the deadline offset is at least the clock offset |
| Scheduler.EscalatesOnlyPastDeadlineIff | internal/store/window_repo.go:125-144 | nothing is escalated before its deadline if and only if the deadline offset is at least the clock offset |
| Scheduler.EscalatesPromptlyIff | internal/store/window_repo.go:125-144 | everything in use is escalated once its deadline is a second past if and only if the deadline offset is at most the clock offset |
| Scheduler.ActivatedAndEscalatedFiveHoursEarly | internal/server/dto.go:341-352 | a reservation at -08:00 that a server at UTC activates and escalates in one tick, five hours before its deadline |
| Scheduler.TickLeavesNothingDue | internal/engine/engine.go:105-146 | after a tick no allocated row is in its effective period, no claim is expired, and preempted tasks are assigned, unclaimed, two versions on |
| Scheduler.OverdueRowsClimbOnEveryTick | internal/store/window_repo.go:125-130 | over any n ticks of a clock that does not go back, an overdue row that nobody else moves climbs n levels |
| Scheduler.Engine.ActivateEffective | internal/routing/service.go:307-329 | activates exactly the allocated rows with effective <= now < deadline; the count is returned as zero unless cancelled |
| Scheduler.Engine.EscalateOverdue | internal/routing/service.go:233-251 | each row whose deadline text sorts before the clock one level up with one record, no other row touched, the count exact |
| Scheduler.Engine.PreemptExpiredClaims | internal/assignment/service.go:258-274 | clears exactly the expired claims and revokes exactly their active leases |
| Scheduler.Engine.ReassignAll | internal/engine/engine.go:132-146 | each preempted row back to assigned, no other row touched |
| Scheduler.Engine.AdvanceQueued | internal/mission/service.go:338-361 | promotes the head of the queue, or nothing if and only if the queue is empty |
| Scheduler.Engine.DrainQueue | internal/mission/service.go:338-361 | undisturbed calls until the first that returns nothing promote as many missions as were queued, each time the head, and leave none |
| Scheduler.Engine.Tick | internal/engine/engine.go:105-157 | the state of all five tables, the records and the statistics after an undisturbed tick, row by row, whatever the zones |
| TickRuns.TickIsARun | internal/engine/engine.go:105-126 | the reservation phases of a tick are a run of the reservation protocol by one client, so its invariant holds after them |
| TickTaskRuns.TaskPhaseIsARun | internal/engine/engine.go:128-146 | preempting and reassigning in a tick is a run of the assignment protocol by one client |
| TickTaskRuns.QueuePhaseIsARun | internal/engine/engine.go:148-157 | every outcome of the queue phase is a run of the mission protocol by one client |
| MissionRuns.StepKeepsInv | internal/missionrun/service.go:104-223 | every statement keeps: snapshots, legal targets, timestamps set exactly by start and completion |
| MissionRuns.FinalRunsAreFrozen | internal/missionrun/service.go:164-198 | a completed or cancelled run never changes again, units and timestamps included, under every interleaving |
| MissionRuns.CompletionIsAllOrConflict | internal/missionrun/service.go:164-198 | the second write of a completion wins if and only if nobody wrote since the first, and then the row holds the units |
| MissionRuns.StatusFollowsTheTable | internal/domain/state_machine.go:133-143 | in every interleaving a run's statuses form a path of the table, at most three changes long |
| MissionRuns.Service.UpdateMissionRunStatus | internal/store/missionrun_repo.go:92-114 | guarded write of the status; start and completion times are set exactly with their statuses |
| MissionRuns.Service.Move | internal/missionrun/service.go:104-151 | Assign, StartProgress and Cancel: success means one write on the row as it was read; not found and invalid transition in exactly the stated cases; a conflict only if another client wrote a version of the row since it was read |
| MissionRuns.Service.Complete | internal/missionrun/service.go:164-198 | success means two consecutive versions with the units, or one version without units, with no foreign write in between; a conflict only if another client wrote a version of the row since it was read, the own units write not counting |
| Timestamps.FieldsBeforeIffEarlier | internal/store/helpers.go:24-41 | calendar fields compare as local seconds do, leap years included, for years 0 to 9999 |
| Timestamps.TextComparesFields | internal/store/helpers.go:24-41 | texts of the stored layout compare by field whatever the zones, then by zone text |
| Timestamps.TextOrderIsTimeOrder | internal/store/helpers.go:24-41 | in one zone, text order is chronological order at whole seconds |
| Timestamps.TextOrderIsTimeOrderIff | internal/store/helpers.go:24-41 | all readings at two UTC offsets are ordered as text exactly as in time if and only if the offsets are equal |
| Timestamps.TextFollowsLocalTime | internal/store/helpers.go:24-41 | whatever the zones, texts are ordered as the local clocks are |
| Timestamps.NeverTooEarlyIff | internal/store/window_repo.go:125-130 | no deadline text sorts before a clock that has not passed it, if and only if the deadline offset is at least the clock offset |
| Timestamps.NeverTooLateIff | internal/store/window_repo.go:125-130 | a deadline passed by a second sorts before the clock, always, if and only if the deadline offset is at most the clock offset |
| Timestamps.ZonesBreakTheOrder | internal/store/helpers.go:24-27 | a concrete pair across two zones that sorts the wrong way round |
| Timestamps.ListedStrictlyAfterExpiry | internal/store/assignment_repo.go:148-153 | a claim listed as expired is strictly past its expiry; one second or more past it, it is listed |
| Timestamps.FormatReadsBack | internal/store/helpers.go:29-41 | parsing a formatted time gives that time cut to whole seconds, in its zone |
| Timestamps.NullTimeReadsBackIff | internal/store/helpers.go:52-70 | a nullable time survives the round trip if and only if it is not in the second of the zero time |
| Migrations.StepKeepsInv | internal/store/db.go:113-202 | every statement, crash and restart of every process keeps: committed scripts are the first of each version, in order, up to some file |
| Migrations.CommitsFollowTheOrder | internal/store/db.go:113-202 | scripts commit in ascending order of version, each at most once, and a version is recorded if and only if its script is in |
| Migrations.CommitsArePrefixes | internal/store/db.go:176-202 | with distinct versions, committed scripts and recorded versions are always a prefix of the sorted list |
| Migrations.MigratedOnceIsForGood | internal/store/db.go:113-139 | once a process got through, all versions are in and nothing commits again, whatever starts or crashes later |
| Migrations.EveryScriptRunsIffDistinct | internal/store/db.go:141-174 | a finished migration has run every script if and only if no two files share a version |
| Migrations.Database.Migrate | internal/store/db.go:113-139 | success means every version is in; the log of commits only grows; a complete database makes it succeed and change nothing |
| Migrations.Database.ApplyMigration | internal/store/db.go:176-202 | success means the version is recorded; with everything in, it succeeds |
| Itoa.DigitsReadBack | internal/server/server.go:212-232 | the digits of a number are a numeral, read back as it, and start with zero only for zero |
| Itoa.DecimalReadsBack | internal/server/server.go:212-232 | the decimal form is canonical and reads back as the integer |
| Itoa.Itoa | internal/server/server.go:212-232 | within the 20 bytes for every 64-bit integer; the canonical decimal form for all but the minimum |
| Itoa.NoNumberPrintsAsADash | internal/server/server.go:212-232 | the result for the minimum is the form of no integer |

## Left out

- HTTP routing, handlers, middleware, DTOs, CSV export, configuration: plumbing around the services.
- Authentication, sessions, tokens and hashing: library calls; session times use another layout.
- Audit entries, maintenance handovers, execution records, logging: best-effort writes that no modelled table depends on.
- SQL text, drivers, pools, pragmas: a statement is one atomic step on a map of rows.
- Goroutines, tickers, Start and Stop: replaced by arbitrary schedules and clock readings.
- Store errors other than those named under "How the model is built": a call that meets one stops where it is, which in the protocols is a client that takes no further step.
- Width of integers: quota amounts, levels, versions and priorities are unbounded here; only `itoa` models 64 bits.
- QuotaStateMachine, AllowedTargets, AllTransitions and the locks of the state machine: no service consults them, and the tables are never changed after construction.
- Creation of reservations, runs and assignments beyond the row it inserts; BatchAllocate, whose rows are inserted one by one without a transaction (internal/store/window_repo.go:33-40, against the comment at internal/routing/service.go:108-109).
- Queue positions, wait estimates and message texts of Submit; UpdateQueuePosition and CleanExpiredIdempotency, which no service calls.
- Listing order of overdue windows by deadline: any order is allowed, so the results hold for each.
- UTC offsets of 24 hours or more, which the Go parser accepts on input.
- JSON encoding of cached answers: an identity round trip.
- Floating-point utilization: the exact comparison 5 * (used + reserved) > 4 * limit.
- Fractional seconds, which the Go parser accepts on input: the stored layout never has them.
- Reading versions out of migration file names: files are given by their sorted versions.
- AssignmentService.Service.Assign: one method stands for Assign and Reassign, whose statements are the same; the assignee column is not modelled.
- MissionRuns.Service.Move: one method stands for Assign, StartProgress and Cancel, which differ in the target; the assignee column is not modelled.
- QuotaService.Store.Execute: quota rows are identified by type and day instead of their random identifiers.
- Scheduler.Engine.Tick: one clock reading and no interference; the same loops under interference are in AssignmentService, RoutingService and MissionQueue.
- AssignmentProtocol, Submission and the other protocols keep their history (log, claims, replies) in ordinary fields, because the methods that run the statements of the others compute with whole states.
- Worker.Worker.ClaimAndExecute: the report payload is not modelled, nor the store failure of a listing.
- Worker.Worker.ListClaimable: priority and creation time of a task are fixed per task, for no statement changes them.
