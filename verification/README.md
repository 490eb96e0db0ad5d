# Emergency dispatch: a Dafny model

A model of the emergency-dispatch backend's core: the assignment and re-optimization transactions
over incidents, resources and assignments; the outbox, queue and worker pipeline; the two decision
engines; the reliability machinery (circuit breaker, retry, rate limiter, idempotency keys); and the
hospital cache.

Code that overwrites state step by step is modelled as classes whose methods do the same reads,
guards and writes in the same order (`DispatchService`, `OutboxTable`, `EventWorker`, `Redis`,
`CircuitBreaker`, `KeyStore`, `Response`, `HospitalService`, the loop of `WithRetry`). Each method is
proved to compute exactly what a specification function says; the theorems are about those functions,
over every run, every interleaving or every input. The decision engines are expressions in the
program and stay functions here.

`Words`, `Selection`, `Figures`, `Eligibility`, `Records`, `Story`, `Alone` and `HospitalShown` state what
these functions mean without using them: in letters, distances, counts, statuses and columns.

| file | about |
|---|---|
| `Domain`, `Dispatch`, `DispatchService` | rows and errors; what each transaction does to the store; the transactions themselves |
| `Coherence`, `Lifecycle`, `Swaps` | whole runs of atomic transactions, with re-optimization in its two phases (stale reads, later commit) |
| `Departures` | for promises that the transactions break: the exact condition, and a state that a run reaches in which they do |
| `Race`, `Solo`, `Overlap`, `Agreement` | the same transactions one statement at a time, any number interleaved, with the two partial unique indexes; what a call does alone; what overlapping does to the ledger and to finished assignments; what it does to the agreement of the tables |
| `Allocation`, `Priority` | the allocation engine and the priority score |
| `Words`, `Selection`, `Figures` | letter case; what the engine selects, in distances and rows; the score in figures |
| `Eligibility`, `Records`, `Story` | when each call goes through and all it leaves behind; who moves which column; what the outbox says about every assignment |
| `Outbox`, `Pipeline`, `Alone`, `Cascade` | one publisher's pace; overlapping publishers, crashes and pruning; a publisher and a worker that nobody interrupts; events that cause events |
| `CircuitBreaker`, `Retry`, `RateLimit`, `Idempotency` | the reliability machines |
| `CacheKeys`, `HospitalCache`, `HospitalCoherence`, `HospitalShown` | the key strings; the hospital service; transparency of the cache; that reads show what was written |

## Where the code and its description part

The model follows the code. What this shows:

- Neither COMPLETED nor CANCELLED is final for an incident: `completeAssignment` writes IN_PROGRESS
  over whatever status the incident has. `Departures.FinalMovesIff` shows that this is the only call
  that moves a final incident and exactly when it does; in runs without the hand edits listed below
  none ever moves (`FinalIsFinalWhenBenign`). REJECTED, documented as final, still goes to CANCELLED,
  exactly through `cancelIncident` by staff (`RejectedMovesIff`). `EveryEdgeIsTaken` reaches each move
  from an empty system.
- Completing or cancelling an assignment makes its resource AVAILABLE even when the resource has
  FAILED since, although a comment in `cancelAssignment` limits this to BUSY ones
  (`Departures.ReleaseKeepsPromiseIff`, with a run in `ReleaseRevivesFailed`). Apart from this release
  only an edit of its status brings a resource back into service (`ServiceChangesIff`).
- Hand edits of incident and resource status can break the agreement between the tables.
  `Coherence.StepCoherentIffBenign` says for every call exactly when; `Departures` reaches a state for
  each kind of edit.
- Incidents created by a COORDINATOR start PENDING, but `approveIncident` only accepts those created
  by a CITIZEN. Such an incident becomes APPROVED by an edit of its status and in no other way
  (`Departures.CoordinatorsApprovalIff`, `OnlyAnEditApproves`).
- `completeAssignment`, `cancelAssignment` and the swap check that the assignment is ACTIVE when they
  read it, not when they write it. When two of them overlap on one assignment the event ledger counts
  one ending too many: it shows -1 with no ACTIVE assignment after two endings, 0 with an ACTIVE
  replacement when one of the two is a swap; and a final status can be overwritten. This happens exactly when
  another call has committed a release of the same row in between (`Overlap.LedgerKeptIff`,
  `FinishedKeptIff`, `StaleIffOvertaken`). Such a commit also breaks the agreement of the tables when it
  is a swap, or when the resource or the incident it writes has been assigned again, and no other
  commit does (`Agreement.AgreementKeptIff`).
- RESOURCE_FAILURE_DETECTED is routed to a handler that looks for a `newStatus` the event does not
  carry, so it never causes anything but its own deliveries (`Cascade.FailureDetectedStartsNothing`).
- The limiter described as a sliding window counts in fixed windows; an interval of one window's
  length can hold `2 * max - 1` requests (`RateLimit.WindowBoundIsTight`). It holds at most `max` in all
  runs exactly when `max <= 1` or the window is a single millisecond (`HoldsMaxIff`).
- With a configured speed that is not positive every ETA is infinite, the comparator yields NaN and
  the choice depends on the order of the table (`Allocation.OrderMattersIffNoSpeed`).
- A read of `/hospitals/:id` with an id of the form `x:availability` or
  `list:s:<status>_p:<page>_l:<limit>`, with a limit that the pagination allows, uses the cache key of another view and returns that view
  instead of 404. `HospitalCoherence.MisledIffCollides` shows that these are the only such ids; no
  existing hospital's id has that form.
- One required unit more can lower the priority. `Priority.AppendingKeepsScoreIff` says exactly when.
- A road reported BLOCKED makes the current resource unfit and rules out every replacement, so that
  report alone never replaces anything: `Eligibility.ReplacedIff` says exactly when an undisturbed
  re-optimization does.

## Model

| member | source | states |
|---|---|---|
| DispatchService.Database.CreateAssignment | src/modules/assignment/assignment.service.ts:71-236 | The guards in their order, then row, BUSY, ASSIGNED, decision log and outbox row, all or nothing: the new store and the answer are those of `Dispatch.CreateAssignment` |
| DispatchService.Database.CompleteAssignment | src/modules/assignment/assignment.service.ts:240-296 | Completion releases the resource, writes IN_PROGRESS whatever the incident's status and records one event, or refuses and changes nothing |
| DispatchService.Database.CancelAssignment | src/modules/assignment/assignment.service.ts:300-363 | Cancellation releases the resource, reopens the incident only from ASSIGNED and records one event, or refuses and changes nothing |
| DispatchService.Database.FindActive | src/modules/assignment/assignment.service.ts:123-142 | The search for an ACTIVE row finds one exactly when the resource, or the incident, is taken |
| DispatchService.Database.CreateIncident | src/modules/incident/incident.service.ts:44-83 | A new incident starts APPROVED for operators and admins, PENDING otherwise; its INCIDENT_CREATED row follows in a second write, which may throw and leave the incident without it |
| DispatchService.Database.EditIncident | src/modules/incident/incident.service.ts:172-224 | Citizens edit only their own PENDING incidents, operators none; only the given fields change; the INCIDENT_UPDATED row follows in a second write, which may throw |
| DispatchService.Database.CancelIncident | src/modules/incident/incident.service.ts:264-305 | Who may cancel from which status, REJECTED included, and that nothing else changes |
| DispatchService.Database.ApproveIncident | src/modules/incident/incident.service.ts:314-340 | Approval goes through exactly for a PENDING incident created by a citizen |
| DispatchService.Database.RejectIncident | src/modules/incident/incident.service.ts:349-371 | Rejection goes through exactly from PENDING |
| DispatchService.Database.UpdateIncidentStatus | src/modules/incident/incident.service.ts:375-400 | A status edit goes through exactly along the documented transition table |
| DispatchService.Database.UpdateResource | src/modules/resource/resource.service.ts:154-235 | Operators change only status and position of their own resource; a status change is told by one event, a failure by a second one naming the first ACTIVE assignment, each in a write of its own that may throw; no change writes none |
| DispatchService.Database.CreateResource | src/modules/resource/resource.service.ts:30-49 | A new resource in any given status, AVAILABLE by default |
| DispatchService.Database.DeactivateResource | src/modules/resource/resource.service.ts:292-307 | UNAVAILABLE, without an event |
| DispatchService.Database.FirstActiveOf | src/modules/resource/resource.service.ts:216-219 | The search returns the first ACTIVE row of the resource |
| DispatchService.Database.LoadReopt | src/modules/reoptimization/reoptimization.service.ts:92-267 | Snapshot checks and the feasibility decision: refuse, log "no replacement", or go on with a plan that remembers what was read |
| DispatchService.Database.PlanReopt | src/modules/reoptimization/reoptimization.service.ts:269-342 | The later read of the resource table: a plan with the engine's choice, or one log row |
| DispatchService.Database.CommitReopt | src/modules/reoptimization/reoptimization.service.ts:349-482 | The re-validating swap transaction, rolled back completely when an index refuses the insert |
| Words.TypeMatchesIff | src/modules/assignment/assignment.service.ts:99-112 | A resource type is accepted exactly if the list is empty or one of its entries equals it letter by letter, up to ASCII case |
| Eligibility.AssignedIff | src/modules/assignment/assignment.service.ts:74-142 | In rows, statuses and letters: an assignment is created if and only if the incident is APPROVED, the resource AVAILABLE, accepted and large enough, and neither has an ACTIVE assignment; each of the seven refusals is answered in exactly one case, 404 for a missing row and 409 otherwise, and changes nothing |
| Eligibility.AssignedWrites | src/modules/assignment/assignment.service.ts:144-188 | Table by table, everything a created assignment leaves behind |
| Eligibility.EndedIff | src/modules/assignment/assignment.service.ts:240-322 | Completing goes through exactly for an ACTIVE row, cancelling also for a PENDING one; 404 exactly for a missing row, 400 otherwise |
| Eligibility.EndedWrites | src/modules/assignment/assignment.service.ts:256-350 | Table by table, everything a completion or a cancellation leaves behind |
| Eligibility.ReplanIff | src/modules/reoptimization/reoptimization.service.ts:97-267 | A re-optimization looks for a replacement if and only if the trigger is not a higher-priority incident and the resource is FAILED, MAINTENANCE or UNAVAILABLE, too small, or not of an accepted type, or the road is reported BLOCKED; the plan is what the tables say; otherwise one log row is added, and each refusal has its case |
| Eligibility.PlannedIff | src/modules/reoptimization/reoptimization.service.ts:269-342 | The plan goes on with the candidate, other than the current resource, that fits and leads all that fit; without one, or on a BLOCKED road, one log row is all that happens |
| Eligibility.SwappedIff | src/modules/reoptimization/reoptimization.service.ts:352-418 | A swap goes through if and only if its assignment is ACTIVE, its replacement AVAILABLE, accepted and large enough, and no other ACTIVE assignment has the replacement or the incident; each refusal in exactly one case |
| Eligibility.SwapWrites | src/modules/reoptimization/reoptimization.service.ts:387-470 | Table by table, everything a swap leaves behind |
| Eligibility.ReplacedIff | src/modules/reoptimization/reoptimization.service.ts:92-482 | Snapshot, choice and swap undisturbed in coherent tables: replaced if and only if the resource is unfit, another one can take over, and the trigger is neither a higher-priority incident nor a blocked road; it never fails and otherwise only logs |
| Records.IncidentCallsIff | src/modules/incident/incident.service.ts:172-400 | Exactly which users in which statuses may edit or cancel, and which status edits go through; 403, 400 or 404 otherwise, changing nothing |
| Records.StepMovesColumns | src/modules/incident/incident.service.ts:54-68 | Every call: a new incident holds what its creation says; creator, role, head-count and requirements of an old one move only by an edit that its user may make, to what it gives |
| Records.ShowsTheLastGiven | src/modules/incident/incident.service.ts:198-212 | Over every run: an incident shows the head-count and the requirements of the last call that gave them |
| Records.CitizensKeepToTheirOwn | src/modules/incident/incident.service.ts:184-287 | A citizen's edit or cancellation changes no incident but one of the citizen's own that is PENDING |
| Records.ResourceUpdatedIff | src/modules/resource/resource.service.ts:154-235 | An update goes through exactly for users who may make it; the given columns change, no others; the news is told in order as far as the writes get, a failure with the first ACTIVE assignment |
| Records.StepMovesResource | src/modules/resource/resource.service.ts:30-307 | Every call: type, capacity and operator of a resource move only by such an update; its status by that, by a deactivation or with an assignment |
| Domain.FirstActiveIsFirst | src/modules/resource/resource.service.ts:216-219 | The ACTIVE row found is the first one |
| Story.StepKeepsTold | src/modules/assignment/assignment.service.ts:174-188 | Every step keeps the agreement of events and assignments below |
| Story.RunsTellTheStory | src/modules/assignment/assignment.service.ts:174-350 | Over every run each event is true of the tables; an assignment's creation is told exactly if no swap created it, its completion exactly if it is COMPLETED, its cancellation exactly if it is CANCELLED by no swap |
| Dispatch.StepKeepsWellFormed | prisma/schema.prisma:254-277 | Every call keeps references between rows intact, removes no row and never re-points an assignment, so every plan in flight stays about the same assignment |
| Dispatch.RunsAreWellFormed | prisma/schema.prisma:254-277 | From the empty start on, every world of every run is well formed |
| Coherence.ResourceCallCoherentIffBenign | src/modules/resource/resource.service.ts:30-307 | Creating, updating and deactivating a resource: coherent if and only if it neither frees an assigned one nor makes an unassigned one BUSY |
| Coherence.TakenAfterRelease | src/modules/assignment/assignment.service.ts:256-263 | Under the unique indexes a release frees exactly its own resource and its own incident |
| Coherence.ApplyCoherentIffBenign | src/modules/incident/incident.service.ts:375-400 | For every call other than re-optimization: the tables stay coherent if and only if it is not one of the listed hand edits |
| Coherence.StepCoherentIffBenign | src/modules/assignment/assignment.service.ts:94-160 | The same exact condition for every step, commits of stale swaps included |
| Coherence.CommitKeepsCoherent | src/modules/reoptimization/reoptimization.service.ts:352-418 | A swap planned on a stale snapshot keeps coherence in whatever coherent store it commits |
| Coherence.RunsAreCoherent | src/modules/assignment/assignment.service.ts:71-363 | Every state of every run of all calls, resources created and deactivated on the way, without such hand edits: BUSY means exactly one ACTIVE assignment, AVAILABLE none, ASSIGNED exactly while one is ACTIVE |
| Lifecycle.RunsKeepLife | src/modules/incident/incident.service.ts:264-400 | Every state of every run, hand edits included: a PENDING or REJECTED incident has no assignment of any kind, an APPROVED one no ACTIVE one, and no assignment is ever PENDING |
| Lifecycle.StepFollowsEdges | src/modules/incident/incident.interface.ts:29-40 | The status graph over all calls: every move of an incident's status is an edge of it |
| Lifecycle.PendingIsNeverReentered | src/modules/incident/incident.service.ts:264-400 | Once an incident has left PENDING it never is PENDING again, in any run |
| Lifecycle.RejectedIsNeverServed | src/modules/incident/incident.service.ts:349-371 | An incident REJECTED at any point of a run has no assignment at any point of it, before or after |
| Lifecycle.SwapIsBalanceNeutral | src/modules/reoptimization/reoptimization.service.ts:387-412 | A swap leaves every incident's event balance equal to its ACTIVE count without writing an assignment event |
| Lifecycle.RunsStayBalanced | src/modules/assignment/assignment.service.ts:144-188 | Over every run, created minus completed minus cancelled events equal the ACTIVE assignments, incident by incident |
| Lifecycle.LedgerConservation | src/modules/assignment/assignment.service.ts:316-350 | The same balance is 1 exactly when the incident is taken and 0 otherwise |
| Lifecycle.RunsAreAudited | src/modules/assignment/assignment.service.ts:162-188 | Over every run there is one decision log for each assignment row, with its incident and resource, and the release stamp is set exactly on finished rows |
| Departures.EveryEdgeIsTaken | src/modules/assignment/assignment.service.ts:269-273 | No edge is too many: each is taken by a call in a state that a run reaches, COMPLETED to IN_PROGRESS and CANCELLED to IN_PROGRESS too |
| Departures.FinalMovesIff | src/modules/assignment/assignment.service.ts:269-273 | A COMPLETED or CANCELLED incident moves if and only if the call completes an ACTIVE assignment of it, and then to IN_PROGRESS |
| Departures.FinalIsFinalWhenBenign | src/modules/incident/incident.interface.ts:29-40 | In runs without coherence-breaking hand edits a final incident never moves |
| Departures.RejectedMovesIff | src/modules/incident/incident.service.ts:289-298 | A REJECTED incident moves if and only if somebody other than a citizen cancels it |
| Departures.ServiceChangesIff | src/modules/assignment/assignment.service.ts:263-267 | A failed, withdrawn or unavailable resource changes status if and only if its own ACTIVE assignment is completed or cancelled or its status is edited |
| Departures.OutOfServiceStays | src/modules/reoptimization/reoptimization.service.ts:393-403 | Over any stretch of a run without such calls it stays as it is, swaps included |
| Departures.ReleaseKeepsPromiseIff | src/modules/assignment/assignment.service.ts:323-327 | A release keeps to the comment beside it exactly for resources in service, whatever the store |
| Departures.CoherentReleaseKeepsPromiseIff | src/modules/assignment/assignment.service.ts:323-327 | In coherent stores that is exactly for BUSY ones |
| Departures.ReleaseRevivesFailed | src/modules/assignment/assignment.service.ts:323-327 | A run reaches a FAILED resource that a cancellation, or a completion, makes AVAILABLE |
| Departures.ApprovedIff | src/modules/incident/incident.service.ts:314-340 | Approval succeeds if and only if the incident is PENDING and a citizen created it |
| Departures.RunsKeepPendingCreators | src/modules/incident/incident.service.ts:49-52 | In every run a PENDING incident comes from a citizen or a coordinator |
| Departures.CoordinatorsApprovalIff | src/modules/incident/incident.service.ts:314-340 | A PENDING incident that no citizen created becomes APPROVED by a status edit and by no other call |
| Departures.OnlyAnEditApproves | src/modules/incident/incident.service.ts:375-400 | Over whole runs: without such an edit it stays PENDING, or is rejected or cancelled and never served |
| Departures.CoordinatorIsRefused | src/modules/incident/incident.service.ts:330-335 | A run reaches a coordinator's PENDING incident whose approval is refused |
| Departures.IdleEditBreaksCoherence | src/modules/resource/resource.service.ts:188-199 | Runs reach coherent states that marking an incident ASSIGNED by hand, a resource BUSY by hand, or creating a BUSY resource makes incoherent |
| Departures.BusyEditBreaksCoherence | src/modules/incident/incident.service.ts:375-400 | The same for moving or cancelling an ASSIGNED incident by hand and for freeing its resource by hand |
| Swaps.TerminalIsForever | src/modules/assignment/assignment.interface.ts:13-21 | A COMPLETED or CANCELLED assignment never changes again |
| Swaps.RunsKeepSwaps | src/modules/reoptimization/reoptimization.service.ts:352-473 | The n-th `replaced: true` log is about the n-th committed swap: its rows, its incident, its two resources |
| Swaps.SwappedAtMostOnce | src/modules/reoptimization/reoptimization.service.ts:352-473 | Whatever duplicated or stale swaps are committed, no two logs replace the same assignment and no new row replaces two |
| Swaps.ReplacementIsAcyclic | src/modules/reoptimization/reoptimization.service.ts:387-412 | Following replacements never leads back and never leaves the incident |
| Swaps.SwapMovesTheWork | src/modules/reoptimization/reoptimization.service.ts:393-418 | A committed swap moves the ACTIVE assignment from the old resource to the replacement and revives nothing: a failed resource keeps its status |
| Swaps.GuardIsFeasibility | src/modules/assignment/assignment.service.ts:77-142 | In a coherent store the transaction's guards accept exactly the resources the engine calls feasible |
| Swaps.RecommendationAgreesWithAssignment | src/modules/decision/resource-allocation.engine.ts:205-307 | A recommendation for an APPROVED incident commits; no recommendation means every resource is refused |
| Swaps.FreshSwapCommits | src/modules/reoptimization/reoptimization.service.ts:269-412 | A swap committed before anything it read has changed is never refused |
| Race.EverySchedulePreservesMatching | prisma/migrations/20260816143042_add_assignment_partial_unique_index/migration.sql:6-13 | Under every interleaving of creations, swaps and completions, with faults and restarts, at most one ACTIVE assignment per resource and per incident |
| Race.InsertKeepsGuarded | src/modules/assignment/assignment.service.ts:144-152 | An insert that the indexes let through holds its two keys alone |
| Race.CommitKeepsGuarded | src/modules/reoptimization/reoptimization.service.ts:387-418 | Publishing a transaction's writes keeps the matching and everybody else's keys |
| Race.ExactlyOneWins | load-tests/assignments.js:7-11 | When n calls race for one eligible pair without faults and all finish, one commits, n - 1 end in 409, and the store is that of one atomic call |
| Race.RaceProgress | src/modules/assignment/assignment.service.ts:74-214 | As long as a call of the race is unfinished, some call can go on |
| Race.RaceCountdown | src/modules/assignment/assignment.service.ts:74-214 | The race of n calls ends within 8 n statements |
| Solo.CreateIsAtomic | src/modules/assignment/assignment.service.ts:71-236 | Run alone, the statements of a creation are the atomic transaction, refusals in the same order |
| Solo.SwapIsAtomic | src/modules/reoptimization/reoptimization.service.ts:349-482 | Run alone, the statements of a swap are the atomic transaction |
| Solo.FinishIsAtomic | src/modules/assignment/assignment.service.ts:240-363 | Run alone, completing and cancelling are the atomic transactions |
| Solo.SwapViolatesIff | prisma/migrations/20260816143042_add_assignment_partial_unique_index/migration.sql:6-13 | The index refuses a swap's insert exactly when, its own cancellation aside, the resource or the incident is taken |
| Overlap.LedgerKeptIff | src/modules/assignment/assignment.service.ts:248-283 | At statement level a step keeps the event ledger balanced if and only if it does not commit the release of a row that is no longer ACTIVE |
| Overlap.FinishedKeptIff | src/modules/assignment/assignment.service.ts:248-261 | A step changes no finished assignment if and only if it is not such a commit with the other final status |
| Overlap.StaleIffOvertaken | src/modules/reoptimization/reoptimization.service.ts:352-391 | A commit is such a one if and only if another call has committed a release of the same row |
| Overlap.SchedulesKeepTheBooks | src/modules/assignment/assignment.service.ts:240-363 | Every schedule without such commits keeps the ledger balanced and finished assignments as they are |
| Overlap.OverlapBreaksTheBooks | src/modules/assignment/assignment.service.ts:240-363 | From a state that atomic calls reach, two overlapping endings of one assignment unbalance the ledger and overwrite a final status |
| Agreement.PublishedTaken | src/modules/assignment/assignment.service.ts:256-273 | After a commit a resource or an incident is taken exactly by a surviving ACTIVE row or by the new one |
| Agreement.TurnKeepsSettled | src/modules/reoptimization/reoptimization.service.ts:393-403 | What a call has read of its old resource or its incident stays current while its row is ACTIVE, whatever others commit |
| Agreement.AgreementKeptIff | src/modules/assignment/assignment.service.ts:240-363 | A statement keeps BUSY, AVAILABLE and ASSIGNED in agreement with the ACTIVE rows if and only if it is not the commit of a stale swap, or of a stale ending whose resource or incident has been assigned again |
| Agreement.SchedulesStayCoherent | src/modules/assignment/assignment.service.ts:71-363 | Every schedule from a coherent store without such commits stays coherent |
| Agreement.StaleEndingFreesTaken | src/modules/assignment/assignment.service.ts:263-267 | From a reached state, a schedule in which a stale completion or cancellation writes AVAILABLE over a resource that serves another incident |
| Agreement.StaleSwapRevives | src/modules/reoptimization/reoptimization.service.ts:387-418 | From a reached state, a schedule in which a swap overtaken by an ending leaves an ACTIVE assignment on an incident that is not ASSIGNED, with the ledger at 0 |
| Allocation.RankSorted | src/modules/decision/resource-allocation.engine.ts:167-182 | The ranking is a sorted permutation of the feasible candidates |
| Allocation.RecommendIsLeast | src/modules/decision/resource-allocation.engine.ts:205-307 | With positive speed the choice is feasible and beats every other feasible candidate by ETA, then surplus capacity, then id; none only when nobody is feasible |
| Allocation.AnswerIsUnique | src/modules/decision/resource-allocation.engine.ts:167-182 | There is one such answer for a set of candidates |
| Allocation.PermutationInvariant | src/modules/decision/resource-allocation.engine.ts:205-307 | The order of the candidates does not matter |
| Allocation.RemovingALoserChangesNothing | src/modules/decision/resource-allocation.engine.ts:205-307 | Removing a candidate that was not chosen changes nothing |
| Allocation.AddingMovesOnlyToTheNewcomer | src/modules/decision/resource-allocation.engine.ts:205-307 | Adding a candidate keeps the choice or moves it to the new one |
| Allocation.EtaMonotoneInDistance | src/modules/decision/resource-allocation.engine.ts:49-55 | The nearer resource never has the later rounded ETA |
| Allocation.NearestAttainsSelectedEta | src/modules/decision/resource-allocation.engine.ts:205-307 | The nearest feasible resource attains the chosen ETA |
| Allocation.DifficultNeverLowersEta | src/modules/reoptimization/reoptimization.engine.ts:171-216 | DIFFICULT access never lowers an ETA |
| Allocation.RankKeepsOrderWithoutSpeed | src/modules/decision/resource-allocation.engine.ts:167-182 | With infinite ETAs the ranking is the order of the table |
| Allocation.OrderMattersIffNoSpeed | src/modules/decision/resource-allocation.engine.ts:49-55 | Two feasible resources are chosen between independently of their order if and only if the speed is positive |
| Allocation.Alternatives | src/modules/reoptimization/reoptimization.engine.ts:153-169 | The candidates for a replacement are all but the current resource |
| Allocation.FeasibleEvaluations | src/modules/decision/resource-allocation.engine.ts:91-151 | Exactly the feasible candidates are evaluated, and there are none exactly when nobody is feasible |
| Selection.EtaIsNearest | src/modules/decision/resource-allocation.engine.ts:49-55 | The estimate is h hundredths of a minute exactly if h is the travel time at the given speed, to the nearest hundredth |
| Selection.RecommendIff | src/modules/decision/resource-allocation.engine.ts:205-307 | The engine selects c if and only if c is AVAILABLE, large enough and accepted, and leads every other such candidate: by travel time to the hundredth of a minute, then capacity, then id; nobody if and only if there is none |
| Selection.ReplacementIff | src/modules/reoptimization/reoptimization.engine.ts:171-219 | The same for a replacement, with an hour of ninety minutes on a DIFFICULT road and nobody on a BLOCKED one |
| Selection.NeverMuchLater | src/modules/decision/resource-allocation.engine.ts:167-182 | In exact travel time the selected resource is never a hundredth of a minute later than any other that fits |
| Selection.FirstFitWithoutSpeed | src/modules/decision/resource-allocation.engine.ts:49-55 | Without a positive speed the first candidate that fits is selected |
| Priority.ScoreIsExact | src/modules/decision/decision.engine.ts:296-316 | The final rounding and clamping change nothing, and the score lies in [18.5, 100] |
| Priority.LowestScoreIff | src/modules/decision/decision.engine.ts:296-316 | 18.5 is reached by exactly one kind of incident |
| Priority.HighestScoreIff | src/modules/decision/decision.engine.ts:296-316 | 100 is reached exactly with full factors; the population factor is full from 197 people on |
| Priority.FactorsAreWeighted | src/modules/decision/decision.engine.ts:11-27 | The difference of two scores, factor by factor: a level is worth 7.5, 6.25 or 3.75, a point 0.2 or 0.1 |
| Priority.ScoreMonotone | src/modules/decision/decision.engine.ts:93-104 | The score is monotone in severity, time sensitivity, head-count, risk and requirement score |
| Priority.PopulationIsLowestLine | src/modules/decision/decision.engine.ts:93-100 | Above zero the population scale is the lowest of five straight lines |
| Priority.DiminishingUrgency | src/modules/decision/decision.engine.ts:77-91 | More people never add more to a larger incident than to a smaller one |
| Priority.OrderOfRequirements | src/modules/decision/decision.engine.ts:237-256 | The order of the requirements does not matter |
| Priority.RaisingUrgency | src/modules/decision/decision.engine.ts:227-256 | Replacing a requirement by one at least as urgent never lowers the score |
| Priority.ScoreFollowsRequirements | src/modules/decision/decision.engine.ts:305-316 | Inputs that differ in their requirements compare exactly as their requirement scores do |
| Priority.AppendingKeepsScoreIff | src/modules/decision/decision.engine.ts:251-255 | For every input: one requirement more keeps the score at least as high if and only if it is the first or the new total, weighted for the new count, reaches the old rounded score |
| Priority.AppendingUrgency | src/modules/decision/decision.engine.ts:251-255 | Appending a requirement at or above the current average never lowers the score |
| Priority.AppendingCanLower | src/modules/decision/decision.engine.ts:251-255 | An input for which it does not: a second, generic unit lowers the requirement score from 100 to 74 |
| Priority.RequirementRange | src/modules/decision/decision.engine.ts:237-276 | The requirement score is 10 without requirements and within [40, 100] with them |
| Figures.SumIsTotal | src/modules/decision/decision.engine.ts:227-250 | The urgencies add up by name in whatever letter case: 100, 85, 80, 70, 60, and 40 for every other name |
| Figures.PriorityInFigures | src/modules/decision/decision.engine.ts:296-316 | The score of every input in figures: 7.5, 6.25 and 3.75 for each level, 0.2 for a point of the rounded population line, 0.1 for a point of the rounded, capped average urgency weighted by the count |
| Figures.FiguresAreUnique | src/modules/decision/decision.engine.ts:251-255 | These points are determined by the head-count and the counts of requirements |
| Figures.OneAloneAdds | src/modules/decision/decision.engine.ts:227-256 | What one requirement alone adds: 9 for HELICOPTER and HAZMAT_UNIT, 7.5, 7, 6 and 5 for the others by name, 3 for any other |
| Outbox.OutboxTable.FetchBatch | src/events/outbox/outbox.publisher.ts:29-33 | The batch is exactly the fifty oldest eligible rows, oldest first |
| Outbox.OutboxTable.PublishPending | src/events/outbox/outbox.publisher.ts:28-87 | A poll treats each row of the batch by its own result, leaves the rest alone and counts what it published; it ends early exactly at the first row whose failure can not be recorded either |
| Outbox.HistoryIsSound | src/events/outbox/outbox.publisher.ts:66-73 | PENDING rows have attempts left and FAILED ones have used five, after any polls and arrivals |
| Outbox.FivePollsAdvance | src/events/outbox/outbox.publisher.ts:28-87 | Five polls move every waiting row fifty places forward |
| Outbox.DrainBound | src/events/outbox/outbox.publisher.ts:16-87 | The event with p eligible events before it leaves PENDING within 5 (p / 50 + 1) polls, whatever the enqueue results and later arrivals |
| Outbox.DrainBoundIsTight | src/events/outbox/outbox.publisher.ts:16-87 | For every p there is a history in which it takes all of them |
| Alone.PolledMeans | src/events/outbox/outbox.publisher.ts:28-73 | A poll tries a row exactly if it is PENDING with fewer than five attempts behind fewer than fifty such rows, and what becomes of it |
| Pipeline.PublisherStepKeepsSafe | src/events/outbox/outbox.publisher.ts:40-73 | One statement of a publisher working from a stale batch, throwing or not, keeps all of the safety below |
| Pipeline.StepKeepsSafe | src/workers/event.worker.ts:79-144 | So does every step of every publisher and worker, crashes and pruning included |
| Pipeline.RunsAreSafe | src/events/outbox/outbox.publisher.ts:40-73 | Every run from the empty start, with any number of publishers and workers: PUBLISHED means enqueued, PENDING fewer than five attempts, FAILED five, processed means handled, handled means enqueued |
| Pipeline.RowsAreNeverLost | src/events/outbox/outbox.publisher.ts:40-73 | No outbox row disappears or changes its event over any stretch of a run |
| Pipeline.StepOnceIffCareful | src/workers/event.worker.ts:42-59 | Exactly which steps break "handled once": a second delivery while one is held, a crash between handler and mark, pruning a marked event |
| Pipeline.CarefulRunsHandleOnce | src/lib/cleanup.ts:48-53 | In runs without them a handler completes at most once, and exactly once for a marked event, whatever is redelivered |
| Pipeline.CrashHandlesTwice | src/workers/event.worker.ts:142-144 | A run from the empty start in which a crash before the mark makes a handler complete twice |
| Pipeline.PruningHandlesTwice | src/lib/cleanup.ts:48-53 | One in which pruning the mark does |
| Pipeline.DoubleDeliveryHandlesTwice | src/workers/event.worker.ts:84-93 | One in which two deliveries at a time do |
| Alone.PollsAlone | src/events/outbox/outbox.publisher.ts:28-87 | A publisher that nobody interrupts does statement by statement what the poll does, whichever statements throw |
| Alone.WorksAlone | src/workers/event.worker.ts:79-144 | So does a worker: a duplicate or a failing handler changes nothing; otherwise the handler has run once more and the event is processed exactly if its mark was written |
| Cascade.EventWorker.ProcessJob | src/workers/event.worker.ts:79-144 | One delivery attempt: duplicates skipped, the handler's one outbox row, the mark only after success |
| Cascade.EventWorker.HandleResourceStatusChanged | src/events/handlers/resource-status.handler.ts:39-100 | A re-optimization of the first ACTIVE assignment is requested, with the trigger of the status, exactly for a failure status of a resource that has one |
| Cascade.EmissionsGoDown | src/events/handlers/reoptimization.handler.ts:24-55 | Every handler emits at most one event, of strictly lower rank |
| Cascade.AttemptDrops | src/events/handlers/incident-created.handler.ts:23-42 | Every attempt, however it ends, uses up potential |
| Cascade.CascadeTerminates | src/workers/event.worker.ts:79-144 | The number of attempts of any cascade is bounded by the potential it starts with |
| Cascade.ToldIs | src/modules/resource/resource.service.ts:203-231 | What a call of updateResource tells: nothing, the change, or the change and the failure |
| Cascade.StatusChangeBound | src/events/handlers/resource-status.handler.ts:57-99 | All events of one call of updateResource together cause at most that many attempts, even with failures after each outbox write |
| Cascade.MostInFigures | src/modules/resource/resource.service.ts:203-231 | The bound is 2A + A^2 + A^3 for FAILED, 42 for A = 3; A + A^2 + A^3 for the other failure statuses; A for AVAILABLE and BUSY |
| Cascade.StatusChangeBoundIsTight | src/events/handlers/resource-status.handler.ts:57-99 | For every status some cascade, begun in a state that a run reaches, makes all of them |
| Cascade.FailureDetectedStartsNothing | src/workers/event.worker.ts:113-116 | The RESOURCE_FAILURE_DETECTED event that updateResource writes emits nothing, whatever the tables hold when it is handled |
| Cascade.EmitsIff | src/events/handlers/resource-status.handler.ts:33-99 | What each event emits: a change to a failure status asks for the first ACTIVE assignment with the trigger of that status, if there is one; a new incident for its priority; nothing else but the report of a re-optimization |
| CircuitBreaker.CircuitBreaker.Admit | src/reliability/circuit-breaker.ts:94-99 | A call is admitted exactly when the breaker, after its timed transition, is not OPEN |
| CircuitBreaker.CircuitBreaker.GetState | src/reliability/circuit-breaker.ts:75-78 | Asking for the state makes the timed transition first |
| CircuitBreaker.CircuitBreaker.Reset | src/reliability/circuit-breaker.ts:178-182 | A manual reset is a fresh breaker |
| CircuitBreaker.CircuitBreaker.Succeed | src/reliability/circuit-breaker.ts:128-141 | What a success does to each state |
| CircuitBreaker.CircuitBreaker.Fail | src/reliability/circuit-breaker.ts:143-174 | What a failure does to each state |
| CircuitBreaker.EveryOrderKeepsValid | src/reliability/circuit-breaker.ts:94-182 | For any threshold of at least 1 and any order of admissions, reports and resets of overlapping calls: CLOSED exactly while failures are below the threshold, OPEN only with a failure time |
| CircuitBreaker.RefusedIff | src/reliability/circuit-breaker.ts:94-126 | A call is refused if and only if the breaker is OPEN and the timeout has not elapsed |
| CircuitBreaker.OnlyConsecutiveFailuresTrip | src/reliability/circuit-breaker.ts:128-174 | After a success on a breaker that is not OPEN, exactly `threshold` failures in a row open it, whatever happened before |
| CircuitBreaker.MovesIff | src/reliability/circuit-breaker.ts:94-182 | From each state, exactly which steps move the breaker where, and the counters afterwards; a late result never moves an OPEN one |
| CircuitBreaker.RefusesUntilTimeout | src/reliability/circuit-breaker.ts:103-126 | Whatever late results come in, an OPEN breaker refuses calls until its timeout has elapsed |
| CircuitBreaker.AlwaysFailingBound | src/reliability/circuit-breaker.ts:94-182 | Used one call at a time, a dependency that always fails is called at most threshold + T / resetTimeout times in time T |
| CircuitBreaker.AlwaysFailingBoundIsTight | src/reliability/circuit-breaker.ts:94-182 | For every threshold, timeout and T some calls, one after the other, reach that number |
| Retry.WithRetry | src/reliability/retry.ts:96-133 | fn is called until the first success, the first error not to be retried, or the last attempt; that outcome comes back; one backoff sleep between calls; no attempts, no call |
| Retry.StopsOnce | src/reliability/retry.ts:108-130 | The number of calls is determined |
| Retry.FirstSuccess | src/reliability/retry.ts:108-132 | A value comes back exactly when some attempt returns one with only retried errors before it, and it is the first |
| Retry.DoubledIsPower | src/reliability/retry.ts:54 | The base delay is initialDelay times a power of two |
| Retry.DelaysGrow | src/reliability/retry.ts:49-57 | For every jitter, delays are nondecreasing and between min(initialDelay, maxDelay) and maxDelay |
| Retry.TotalSleep | src/reliability/retry.ts:49-57 | All sleeping of n attempts is at most (n - 1) maxDelay and at most 1.1 initialDelay (2^(n-1) - 1) |
| Retry.SleepInFigures | src/reliability/retry.ts:49-57 | Each sleep exactly: the smaller of maxDelay and initialDelay 2^k plus the whole milliseconds in the drawn share of a tenth of it |
| RateLimit.Redis.Request | src/middlewares/rateLimit.middleware.ts:119-161 | One round trip: the counter, the verdict, the remaining quota and who has to set the expiry |
| RateLimit.Redis.Arm | src/middlewares/rateLimit.middleware.ts:131-135 | The later PEXPIRE, which does nothing on a vanished key |
| RateLimit.RunsKeepTheBooks | src/middlewares/rateLimit.middleware.ts:119-161 | Over every interleaving: lifetimes are a window apart, each begins with an admitted request and none exceeds its quota |
| RateLimit.LifetimeBound | src/middlewares/rateLimit.middleware.ts:119-161 | Each lifetime of a key lets through at most max requests |
| RateLimit.WindowBound | src/middlewares/rateLimit.middleware.ts:119-161 | Any half-open interval of one window lets through at most 2 max - 1 requests, none when max is 0, however late the PEXPIREs come |
| RateLimit.WindowBoundIsTight | src/middlewares/rateLimit.middleware.ts:119-161 | For every max of at least 1 and window of at least 2 ms some run lets 2 max - 1 requests through one window's length |
| RateLimit.TickBound | src/middlewares/rateLimit.middleware.ts:131-135 | A window of one millisecond never sees two lifetimes |
| RateLimit.HoldsMaxIff | src/middlewares/rateLimit.middleware.ts:10-13 | At most max requests in every window's length of every run, as a sliding window would have it, exactly when max <= 1 or the window is at most 1 ms |
| Idempotency.Trim | src/reliability/idempotency.ts:75-81 | A header trims to nothing exactly when it is blank |
| Idempotency.KeyStore.Intercept | src/reliability/idempotency.ts:68-106 | Bypass, replay, conflict or run, and that only an expired record is removed |
| Idempotency.KeyStore.Prune | src/lib/cleanup.ts:24-28 | Pruning removes exactly the expired records and counts them |
| Idempotency.Response.Status | src/reliability/idempotency.ts:111-117 | The replaced res.status remembers the last code |
| Idempotency.Response.Json | src/reliability/idempotency.ts:119-146 | Only a 2xx response is stored, under its key, with its expiry |
| Idempotency.StepKeepsSound | src/reliability/idempotency.ts:82-147 | Arrivals, answers, silent handlers and pruning at any moment keep table and history in agreement |
| Idempotency.AtMostOncePerTtl | src/reliability/idempotency.ts:82-147 | Two successful executions under one key are more than the TTL apart; in between the same request is answered with the stored response, another one with 409, and neither runs the handler |
| Idempotency.RunsIffNothingCurrent | src/reliability/idempotency.ts:85-106 | A keyed request runs its handler if and only if no stored response under its key is current, pruned or not |
| Idempotency.NextRequest | src/reliability/idempotency.ts:68-147 | The next request under a key whose handler has run repeats the answer if that was 2xx and at most a TTL ago, is refused if it is another request, and runs the handler otherwise |
| Idempotency.TrimIsMiddle | src/reliability/idempotency.ts:75-81 | The key is the header without the white space at its ends, and nothing else is missing |
| Idempotency.SpaceIsWhite | src/reliability/idempotency.ts:75-81 | The 25 characters that are trimmed |
| CacheKeys.ByIdIsAvailability | src/cache/cache.interface.ts:54-55 | A by-id key is an availability key exactly for ids ending in ":availability" |
| CacheKeys.ByIdIsListQuery | src/cache/cache.interface.ts:53-54 | A by-id key is a list key exactly for ids that spell "list:" and a query |
| CacheKeys.AvailabilityIsNoListQuery | src/cache/cache.interface.ts:53-55 | An availability key is never a list key |
| CacheKeys.ListQueryInjective | src/modules/hospital/hospital.service.ts:60-62 | Status, page and limit can be read back from a list key |
| CacheKeys.DecimalReadsBack | src/modules/hospital/hospital.service.ts:60-62 | A number in a key reads back, without leading zeros |
| HospitalCache.HospitalService.GetHospitals | src/modules/hospital/hospital.service.ts:51-123 | Operators bypass the cache and see their hospital; all others read aside |
| HospitalCache.HospitalService.GetHospitalById | src/modules/hospital/hospital.service.ts:125-155 | Cache-aside read of one row; a missing row is not cached |
| HospitalCache.HospitalService.GetHospitalAvailability | src/modules/hospital/hospital.service.ts:157-185 | Cache-aside read of the availability columns |
| HospitalCache.HospitalService.Create | src/modules/hospital/hospital.service.ts:28-49 | The row is appended and every list page dropped |
| HospitalCache.HospitalService.Update | src/modules/hospital/hospital.service.ts:187-263 | Guards in order, the changed row, and the entries dropped |
| HospitalCache.HospitalService.Assign | src/modules/hospital/hospital.service.ts:268-297 | As above for assigning an operator, with its three refusals |
| HospitalCache.HospitalService.Remove | src/modules/hospital/hospital.service.ts:302-322 | As above for removing the operator |
| HospitalCache.HospitalService.Deactivate | src/modules/hospital/hospital.service.ts:328-348 | As above for closing a hospital |
| HospitalCache.PlacesAreTheMatches | src/modules/hospital/hospital.service.ts:71-104 | A list query finds all rows its filter matches and no others |
| HospitalCache.MatchingAtPlaces | src/modules/hospital/hospital.service.ts:84-85 | It returns them newest first |
| HospitalCache.PageHoldsItsRows | src/modules/hospital/hospital.service.ts:105-115 | What a page holds, and that there is a next page exactly before the last one |
| HospitalCache.OnePlaceForEachRow | src/utils/pagination.ts:87-95 | Every row is on exactly one page, in one place |
| HospitalCache.PageCounts | src/modules/hospital/hospital.service.ts:105-115 | Total, number of pages and whether there is a previous one |
| HospitalCache.UpdateIsConfined | src/modules/hospital/hospital.service.ts:192-236 | An update goes through exactly within capacity and permission; an operator's leaves name, place and assignment alone |
| HospitalCoherence.RunsStayWithinCapacity | src/modules/hospital/hospital.route.ts:61-68 | With creations that pass the route's schema, every row of every run stays within its bed and ICU capacity, through updates, operator changes and deactivations |
| HospitalCoherence.StepKeepsCapacity | src/modules/hospital/hospital.service.ts:217-236 | Every single call keeps all rows within capacity |
| HospitalCoherence.StepKeepsCoherent | src/modules/hospital/hospital.service.ts:28-348 | After every operation, and any expiry, every live entry equals a fresh query of its family |
| HospitalCoherence.RunsAreCoherent | src/modules/hospital/hospital.service.ts:28-348 | So does every sequential run |
| HospitalCoherence.CacheIsTransparent | src/cache/cache.service.ts:99-160 | A run answers exactly as it would without a cache, unless it reads a colliding id |
| HospitalCoherence.AvailabilityReadIsFresh | src/modules/hospital/hospital.service.ts:157-185 | Availability reads are fresh for every requested id |
| HospitalCoherence.ListReadIsFresh | src/modules/hospital/hospital.service.ts:51-123 | List reads are fresh for every user and query |
| HospitalCoherence.MisledIffCollides | src/modules/hospital/hospital.service.ts:125-155 | For every pagination setting: a by-id read can differ from the database in some run if and only if its id spells another family's key, with an allowed limit |
| HospitalCoherence.PlainIdsNeverCollide | prisma/schema.prisma:222-223 | An id without a colon, as every hospital's is, never does |
| HospitalShown.AvailabilityShows | src/modules/hospital/hospital.service.ts:157-185 | Cached or not, an availability read shows name, status and the four numbers of the row with the requested id, column by column; 404 exactly where there is none |
| HospitalShown.ByIdShows | src/modules/hospital/hospital.service.ts:125-155 | A read by the id of a hospital shows its row |
| HospitalShown.WriteIff | src/modules/hospital/hospital.service.ts:187-348 | Each write goes through or is refused in exactly one case, and changes the given columns of one row |
| HospitalShown.WriteToNobody | src/modules/hospital/hospital.service.ts:192-348 | A write to a missing hospital changes nothing |
| HospitalShown.CreationWrites | src/modules/hospital/hospital.service.ts:28-41 | A new hospital holds what its creation says, OPERATIONAL by default |
| HospitalShown.DropsExactly | src/modules/hospital/hospital.service.ts:253-260 | A write drops exactly the hospital's two entries and the list pages |
| HospitalShown.ListKeyIsSpelled | src/modules/hospital/hospital.service.ts:60-62 | The key of a list page, spelled out |
| HospitalShown.WriteIsShown | src/modules/hospital/hospital.service.ts:187-348 | Read your write: after a write that goes through and any calls that do not write that hospital, both reads show the row as it was written |
| HospitalShown.CreationIsShown | src/modules/hospital/hospital.service.ts:28-49 | The same after a creation |

## Left out

- Allocation.EtaMonotoneInDistance: distances are given as rounded hundredths of a kilometre; haversine trigonometry and floating-point rounding are not modelled, arithmetic is exact.
- Words.TypeMatchesIff: upper-casing is that of ASCII letters; what toUpperCase makes of other characters is not modelled.
- Allocation.RecommendIsLeast: ids are numbered in the order localeCompare gives them, and reasons and rejected-candidate texts are dropped; speed must be positive (see OrderMattersIffNoSpeed).
- Priority.ScoreIsExact: exact rationals instead of floating point; the keyword scan that classifies the environmental condition is an input, and reasons are dropped.
- DispatchService.Database.EditIncident: the recalculation of the priority that may follow, its decision log and the incident's stored score are not part of the store; the score itself is in Priority.
- DispatchService.Database.UpdateResource: name and position are not stored, only whether a name is among the changed fields; assigning or removing a resource's operator by its own endpoint is left out.
- Dispatch.StepKeepsWellFormed: roles are checked where the service checks them; route middleware is not modelled.
- Lifecycle.LedgerConservation: about atomic calls; what overlapping calls do to the ledger is in Overlap.
- Swaps.TerminalIsForever: about atomic calls; what overlapping calls do to finished assignments is in Overlap.
- Race.EverySchedulePreservesMatching: UPDATE row locks are not modelled, which only adds schedules; incident and resource hand edits do not take part in the interleavings.
- Solo.CreateIsAtomic: which of the two 409 errors a refused insert reports depends on the index named by the database; the model always reports that the resource is taken.
- Race.ExactlyOneWins: a transient fault counts as a rolled-back transaction that starts over or gives up; the theorem is about runs without faults.
- DispatchService.Database.ApproveIncident: the creator's role is the one at creation; a later change of the user's role is not modelled.
- DispatchService.Database.LoadReopt: preemption is disabled by a constant in the program and not modelled; the competing priority is therefore not read.
- Outbox.DrainBound: one publisher, status writes that succeed, and createdAt increasing with insertion.
- Pipeline.RunsAreSafe: the queue is the set of accepted event ids, from which any worker may be handed any id again; BullMQ's removal of old jobs and its own de-duplication only remove deliveries.
- Cascade.StatusChangeBound: payload fields that no handler reads, such as names, are dropped; what the handlers do to the tables is in Dispatch.
- CircuitBreaker.AlwaysFailingBound: needs a positive resetTimeout, for the quotient.
- Retry.WithRetry: the classification of error messages is the parameter shouldRetry; delays are exact.
- RateLimit.WindowBound: a request counts at the moment of its INCR; the in-process fallback used when Redis is unavailable is not modelled.
- Idempotency.AtMostOncePerTtl: requests are sequential and the insert of the record succeeds; concurrent duplicates are not excluded by the program. Request hashes are compared as strings.
- HospitalCoherence.CacheIsTransparent: sequential runs with Redis commands that succeed; rows with equal createdAt are listed in the order of insertion, page numbers print as decimals, and foreign keys to users are not checked.
- The resource cache is left out: assignment transactions change resource status without invalidating it, so it is stale for up to its TTL.
- Routes, controllers, schemas, authentication, logging, health checks, user and audit modules are left out: plumbing and single checks.
