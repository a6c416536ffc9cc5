# OpsMesh: a verified model of the stateful protocols

OpsMesh turns service events into incidents. Most of its files are plumbing; a few small
protocols carry the promises the platform makes over whole runs. This project models those
protocols in Dafny and proves the promises, or the exact condition under which the code
keeps them.

| protocol | modules |
|---|---|
| in-memory event bus | `BusModel`, `BusConservation`, `BusHistory`, `BusOrigins`, `BusTheorems`, `BusTermination`, `BusTicks`, `BusDraining`, `BusDelivery`, `MemoryBus` |
| incident deduplication by concurrent workers | `DedupeModel`, `DedupeSafety`, `DedupeTheorems`, `EventProcessor`, `DedupeRuns`, `EventDatabase` |
| incident lifecycle and escalation | `Lifecycle`, `Escalation`, `EscalationTiming`, `IncidentDesk` |
| notification queue | `NotificationModel`, `NotificationDrain`, `NotificationOutcome`, `NotificationWorker` |
| expiring store, rate limiter, duplicate suppression at ingest | `RedisModel`, `RedisLaws`, `RedisMemory`, `RateLimit`, `EventGate`, `EventOverlap` |
| health-check streaks | `HealthCheck` |
| on-call rotation | `OnCall` |
| shared | `Options`, `Arithmetic` |

How the pieces fit together:

- A protocol is a state machine over its atomic steps (a stretch of code without an await,
  one SQL statement, one transaction). `Enabled` and `Next` give one step, `Runnable` and
  `After` a whole run from any state; theorems quantify over every run.
- The objects of the source are classes (`MemoryEventBus`, `Database`, `IncidentDesk`,
  `NotificationWorker`, `RedisMemory`, `RateLimiter`, `EventGate`, `HealthCheckWorker`,
  `ShiftTable`, `IncidentStateMachine`). Each method is proved to take exactly the step of
  the state machine, or to compute the specification function, that the lemmas speak about.
- Clocks are parameters. Where a history is nondecreasing in time the requirement says so.
  Handler, dispatch and check outcomes are arbitrary functions to `bool`. Generated ids are
  fresh numbers. Histories (accepted messages, handler runs, dispatch logs, request times)
  are recorded beside the state and never read by it.

Assumptions the theorems rest on:

- Transactions are serialised, and database writes succeed.
- Polls of one worker do not overlap, and an escalation poll is atomic with respect to the
  API and takes one clock reading. (Event-bus ticks and event-processor calls do overlap in
  the model, and the API acts in the middle of notification polls.)
- The escalation policy of a service does not change during a run.
- Each Redis command takes one clock reading. The class `EventGate` handles one ingest call
  at a time; `EventOverlap` lets calls overlap command by command.

Where the repository's comments or documentation and its code disagree, the model follows
the code:

- "429 responses ... consume no window quota" (`apps/api/src/middleware/rate-limit.ts:22`):
  rejected requests do count. Over a whole history the limiter decides as documented if and
  only if no request is squeezed out by rejected ones (`RateLimit.DecidesAsDocumentedIff`);
  clients that stay silent for longer than the window after a rejection never notice
  (`RateLimit.PatientClientsSeeTheDocumentedLimiter`), but waiting for exactly the announced
  Retry-After is one instant too short (`RateLimit.RetryAfterIsTooShort`).
- "within a subject consumers compete round-robin" (`packages/infra/src/eventbus.ts:221-223`):
  the counter is shared by all subjects. Consecutive publishes to a subject go to neighbours
  in its group if and only if the number accepted for other subjects in between is a multiple
  of the group's size (`BusDelivery.NeighboursTakeTurnsIff`).
- "the next burst opens a fresh incident" (`apps/api/src/modules/incidents/incidents.service.ts:268`):
  `dedupe_key` is unique without a condition, so a resolved incident keeps its fingerprint
  for good; a later event that misses the cache is answered with the resolved incident and is
  not linked (`EventProcessor.LinkedAfterwards`).
- "link exactly once" (`apps/worker/src/modules/event-processor/event.processor.ts:44`): the
  event that loses the race to open an incident is not linked either, although the incident
  is open (`DedupeRuns.LoserStaysUnlinked`). `DedupeRuns.LinkedOnReturnIff` says over all
  interleavings when a returned delivery leaves its event linked.
- "Idempotent event processing" (`apps/worker/src/modules/event-processor/event.processor.ts:40-46`):
  a call that returns without linking leaves the resolved incident in the cache, and the
  second delivery then links the event. `EventProcessor.RedeliveryIsNoOpIff` is the exact
  condition, `DedupeRuns.SecondDeliveryCounts` a run in which it fails.
- Reopen "restarts the lifecycle" (`apps/api/src/modules/incidents/incidents.service.ts:374-378`):
  `acknowledged_at` and the escalation level survive, so a reopened incident escalates again
  if and only if it was never acknowledged and is below level 10
  (`Escalation.ReopenedIsCandidateIff`, `Escalation.RunOnIncident`).
- Manual retry makes a notification due if and only if it has attempts left
  (`NotificationDrain.RetriedIsDueIff`); one that failed permanently is never sent
  (`NotificationDrain.FailedRowsAreNeverSent`).
- The escalation query's LIMIT 50 can starve an incident for ever
  (`Escalation.InBatchWhen`, `Escalation.BlockedForever`, `Escalation.StarvationIsReached`).
- Overlapping ingest calls with one idempotency key can both be accepted
  (`EventOverlap.OverlappingCallsBothPass`).
- The API and the worker count rotation weeks from different days
  (`OnCall.ApiWeekRunsAhead`, `OnCall.ApiAgreesWithShifts`).
- The transition table of `packages/shared/src/constants/index.ts:100-107` is not the one
  that is enforced; the model has the enforced one.

## Model

| member | source | states |
|---|---|---|
| BusTheorems.EveryRunIsSafe | packages/infra/src/eventbus.ts:209-268 | In every run of publishes, consumes, interleaved tick chains and handler outcomes, each accepted message occurs exactly once over all pending lists, in-flight lists, the handled and the dead-lettered, and nothing else occurs; every copy that waits, flies, was run, handled or dead-lettered has the published type, payload and time; and it waits, flies and runs only on the consumer, of its own subject, it was routed to. |
| BusOrigins.ConsumersAreAsConsumed | packages/infra/src/eventbus.ts:230-238 | Over every run the i-th consumer has the subject, retry limit and base delay of the i-th consume call. |
| BusOrigins.MessagesAreAsPublished | packages/infra/src/eventbus.ts:209-228 | Over every run the k-th accepted message has the subject, type, payload and time of the k-th publish call that found a consumer of its subject; other calls leave nothing. |
| BusConservation.StepConserves | packages/infra/src/eventbus.ts:221-262 | No single step of any chain loses, duplicates or invents a message. |
| BusHistory.StepKeepsInv | packages/infra/src/eventbus.ts:209-268 | Every step keeps: conservation, the numbered and spaced run history of each message, attempts below max(1, maxRetries) for whatever waits or is in flight, and the recorded outcome of whatever has left. |
| BusTheorems.RetryBound | packages/infra/src/eventbus.ts:245-260 | In every run a message has at most max(1, maxRetries) handler runs, for the maxRetries of the consume call that started its consumer, only the last of which may succeed; it is dead-lettered if and only if exactly that many have failed, and handled if and only if its last run succeeded. |
| BusTheorems.ConsumeOf | packages/infra/src/eventbus.ts:221-238 | The consume call behind a message is one for the message's own subject. |
| BusTheorems.Whereabouts | packages/infra/src/eventbus.ts:242-262 | The run history of a message alone determines which of the four places it is in. |
| BusTheorems.DeadLetteredNoEarlier | packages/infra/src/eventbus.ts:240-260 | The tick that ran a dead-lettered message last is at least the sum of all its backoff delays, for the base delay and limit its consumer was started with, after the tick that ran it first. |
| BusTheorems.PacedSpan | packages/infra/src/eventbus.ts:252-259 | The k-th retry of a message is collected no earlier than the sum of the first k delays after its first run. |
| BusTheorems.UncappedBackoff | packages/infra/src/eventbus.ts:254-254 | While the 60 s cap is not reached, n delays sum to base * (2^n - 1). |
| BusTheorems.CappedBackoff | packages/infra/src/eventbus.ts:254-254 | From the doubling that reaches the cap on, each further delay adds exactly 60 s. |
| BusTermination.RunsAreBounded | packages/infra/src/eventbus.ts:239-265 | Without new publishes, no interleaving of the chains runs handlers more often than the attempts left on the bus, and the attempts left fall by at least the number of runs. |
| BusTermination.SettledRemaining | packages/infra/src/eventbus.ts:247-261 | Every handler run, whatever its outcome, lowers the attempts left over the whole bus. |
| BusTicks.TickRunsWhatIsDue | packages/infra/src/eventbus.ts:239-262 | An uninterrupted tick runs exactly the messages due as it reads the clock, consumer by consumer, each queue in order, each message once, and nothing that a failure puts back meanwhile. |
| BusDraining.BusDrains | packages/infra/src/eventbus.ts:239-268 | From any reachable state, with any number of chains in mid-sweep and messages in flight, every publish-free interleaving of twice the remaining attempts plus one rounds leaves the bus idle, for any outcomes, where a round lets the ticks under way end and has one tick that starts 60 s after the last failing one; then handled plus dead-lettered equals accepted, each message exactly once. |
| BusDraining.RoundMakesProgress | packages/infra/src/eventbus.ts:239-268 | Each round of a bus that is not idle lowers twice the remaining attempts plus one for waiting messages. |
| BusDraining.SilentRound | packages/infra/src/eventbus.ts:241-245 | A round in which no handler settles began with nothing in flight and leaves nothing waiting; the bus is idle if all chains rest at its end. |
| BusDraining.SilentTickFindsNothing | packages/infra/src/eventbus.ts:241-245 | A tick over due messages that ends without a handler settling has found every consumer empty, whatever other chains did meanwhile. |
| BusDraining.ChainsNeverStick | packages/infra/src/eventbus.ts:239-265 | In every reachable state every chain has an enabled step, for any clock reading and outcome. |
| BusDraining.RoundsExist | packages/infra/src/eventbus.ts:239-265 | From every reachable state with a consumer, rounds can follow each other without end. |
| BusDraining.LateMeansAllDue | packages/infra/src/eventbus.ts:254-259 | 60 s after the last failing tick every waiting message is due. |
| BusTermination.LoneChainDrains | packages/infra/src/eventbus.ts:239-268 | A chain that has the bus to itself needs no more ticks over due messages than attempts remain. |
| BusTermination.IdleMeansDone | packages/infra/src/eventbus.ts:239-268 | On an idle bus every accepted message is handled or dead-lettered exactly once, and these lists hold nothing else. |
| BusDelivery.FirstRunsInPublishOrder | packages/infra/src/eventbus.ts:224-262 | With one consumer, in every run the first handler runs occur in publish order however retries mix in. |
| BusDelivery.RoundRobinIsFair | packages/infra/src/eventbus.ts:221-228 | In any run that publishes k messages, all to one subject with a fixed group of n consumers, each consumer gets floor(k/n) or ceil(k/n), whatever ticks, retries and handlers come in between. |
| BusDelivery.NeighboursTakeTurnsIff | packages/infra/src/eventbus.ts:219-228 | Two publishes to a subject with none to it in between go to neighbours in its group if and only if the messages accepted for other subjects in between are a multiple of the group's size. |
| BusModel.GroupUpTo | packages/infra/src/eventbus.ts:224-224 | The group is exactly the consumers of the subject, each once, in registration order. |
| MemoryBus.MemoryEventBus.Publish | packages/infra/src/eventbus.ts:209-228 | Hands the message to the consumer whose turn it is, or drops it when the subject has none; keeps the bus invariant. |
| MemoryBus.MemoryEventBus.Consume | packages/infra/src/eventbus.ts:230-268 | Adds a consumer with an empty queue and one more tick chain. |
| MemoryBus.MemoryEventBus.CollectDue | packages/infra/src/eventbus.ts:242-244 | Moves exactly the due items of one consumer into the chain, or passes the consumer by when none is due. |
| MemoryBus.MemoryEventBus.HandlerSettled | packages/infra/src/eventbus.ts:246-261 | After one handler settles the item is handled, dead-lettered, or back on its consumer with one more attempt and its backoff. |
| MemoryBus.MemoryEventBus.RunTick | packages/infra/src/eventbus.ts:239-265 | A whole uninterrupted tick is the sweep of the state machine, keeps what was accepted, and uses up an attempt if something waits and all of it is due. |
| MemoryBus.MemoryEventBus.PendingCount | packages/infra/src/eventbus.ts:275-277 | Sums the pending lists; zero if and only if no message waits on any consumer. |
| DedupeTheorems.EveryRunIsSafe | apps/worker/src/modules/event-processor/event.processor.ts:47-305 | In every interleaving of workers, crashes, redeliveries, cache losses, resolves and reopens: one incident per fingerprint; cached ids and ids in workers' hands belong to the incident of their fingerprint; every link joins an event to the incident of its own fingerprint, so an event has at most one; event_count plus updates outstanding plus updates lost in crashes is the number of links. |
| DedupeTheorems.QuiescentCounters | apps/worker/src/modules/event-processor/event.processor.ts:187-199 | event_count never exceeds the number of linked events, and equals it if and only if no worker stands between link and count and none crashed there. |
| DedupeSafety.StepKeepsSafe | apps/worker/src/modules/event-processor/event.processor.ts:47-305 | Each single step of any worker or of the environment keeps all of the above. |
| DedupeSafety.WorkKeepsKeys | packages/database/src/migrations/001_initial_schema.sql:110-110 | The conditional insert keeps at most one incident per dedupe_key. |
| DedupeSafety.WorkMovesOne | apps/worker/src/modules/event-processor/event.processor.ts:187-199 | A worker's step moves one unit between link, worker in between, and counter, and none appears or vanishes. |
| DedupeTheorems.WorkersNeverFail | apps/worker/src/modules/event-processor/event.processor.ts:187-305 | In a safe state some answer is possible at every step of a worker, both foreign keys of a link hold, and the creating transaction cannot violate the uniqueness of links (`001_initial_schema.sql:130`). |
| DedupeTheorems.RunGrows | apps/worker/src/modules/event-processor/event.processor.ts:47-305 | Links, incidents, their keys and stored events are never lost in any run. |
| DedupeTheorems.ReopenUndoesResolve | apps/api/src/modules/incidents/incidents.service.ts:379-399 | A resolved incident is open for no fingerprint; reopening it gives back the system as it was. |
| EventProcessor.StepsReachProcessed | apps/worker/src/modules/event-processor/event.processor.ts:47-133 | Each step of a worker that runs alone keeps the tables it is heading for. |
| DedupeRuns.LoneWorkerReturns | apps/worker/src/modules/event-processor/event.processor.ts:47-133 | From wherever it stands, a worker that goes on alone reaches its return in a run whose tables are those of the uninterrupted call. |
| DedupeRuns.LoneDelivery | apps/worker/src/modules/event-processor/event.processor.ts:47-133 | A delivery that nothing interrupts, from first step to return, changes the system by exactly the call. |
| DedupeRuns.LinkedOnReturnIff | apps/worker/src/modules/event-processor/event.processor.ts:96-105 | Over every interleaving: when a delivery returns, its event is linked if and only if it was before, another delivery linked it meanwhile, or this one did not meet a taken key when opening the incident. |
| DedupeRuns.StepLinks | apps/worker/src/modules/event-processor/event.processor.ts:187-199 | A step makes an event linked if and only if it is a link insert or a won create for that event. |
| DedupeRuns.LoserStaysUnlinked | apps/worker/src/modules/event-processor/event.processor.ts:266-274 | A run of two workers after which both have returned the open incident and one event is not linked. |
| DedupeRuns.SecondDeliveryCounts | apps/worker/src/modules/event-processor/event.processor.ts:264-274 | A run from the empty system in which the first delivery of an event changes nothing durable and the second links it and raises the counter. |
| EventProcessor.ProcessedCases | apps/worker/src/modules/event-processor/event.processor.ts:47-133 | What one call does to the tables in each case: cache hit or open incident, resolved incident behind a cache miss, no incident. |
| EventProcessor.ProcessedSound | apps/worker/src/modules/event-processor/event.processor.ts:47-133 | A call keeps the tables sound, stores its event and leaves its fingerprint with an incident. |
| EventProcessor.LinkedAfterwards | apps/worker/src/modules/event-processor/event.processor.ts:96-105 | After a call its event is linked if and only if it was before, or the call did not meet a resolved incident behind a cache miss. |
| EventProcessor.LinkedExactlyOnce | apps/worker/src/modules/event-processor/event.processor.ts:96-133 | While no incident of the fingerprint is resolved, a processed event is linked to exactly one incident. |
| EventProcessor.RedeliveryIsNoOpIff | apps/worker/src/modules/event-processor/event.processor.ts:40-133 | A call for a stored event leaves events, incidents, links and counters as they are if and only if the event is linked, or its incident is resolved and the cache does not answer. |
| EventProcessor.LinkedEventsAreSettled | apps/worker/src/modules/event-processor/event.processor.ts:40-133 | Once an event is linked, every later delivery is a no-op, whatever steps of other workers, crashes, resolves, reopens and cache losses lie between. |
| EventProcessor.SecondDeliveryCanChangeCounters | apps/worker/src/modules/event-processor/event.processor.ts:264-274 | A concrete state in which the second delivery of an event, not the first, links it and raises the counter. |
| EventDatabase.Database.ProcessEvent | apps/worker/src/modules/event-processor/event.processor.ts:47-173 | Statement by statement, the call ends in the specified tables, returns the incident of the fingerprint, and reports an update if and only if cache or query led to an incident, which then holds the event. |
| EventDatabase.Database.FindOpenIncident | apps/worker/src/modules/event-processor/event.processor.ts:179-185 | Returns an unresolved incident of the fingerprint if and only if there is one. |
| EventDatabase.Database.LinkEvent | apps/worker/src/modules/event-processor/event.processor.ts:187-199 | Links once and counts only new links; the gap between counter and links does not change. |
| EventDatabase.Database.CreateIncidentRecord | apps/worker/src/modules/event-processor/event.processor.ts:226-305 | Opens an incident with the event linked, or returns the holder of the key and changes nothing. |
| EventDatabase.Database.ClearDedupeCache | apps/api/src/modules/incidents/incidents.service.ts:430-437 | Drops the cache entry only if it points at the incident; the tables stay sound and the incident is no longer cached. |
| Lifecycle.StatusUpdatedSound | apps/api/src/modules/incidents/incidents.service.ts:218-283 | An update succeeds if and only if the incident is not resolved and the table allows it, and then has the new status, first acknowledgement time, resolution time and audit rows; consistency, audit replay and ladder are kept; a refused update changes nothing. |
| Lifecycle.SeverityUpdatedSound | apps/api/src/modules/incidents/incidents.service.ts:286-317 | A severity change keeps priority tied to severity and the audit trail replayable; status and level stay. |
| Lifecycle.ReopenedSound | apps/api/src/modules/incidents/incidents.service.ts:379-411 | Reopening succeeds if and only if the incident is resolved, and undoes the resolution only: acknowledgement and level stay. |
| Lifecycle.RaisedSound | apps/worker/src/modules/escalation/escalation.worker.ts:174-218 | One escalation adds one rung not before its time, keeps consistency and replay, leaves no incident OPEN, and changes status along the table if at all. |
| Lifecycle.TrailExtends | apps/api/src/modules/incidents/incidents.service.ts:76-90 | An audit row that continues a replayable trail replays to the folded snapshot. |
| Lifecycle.IncidentStateMachine.Transition | packages/shared/src/utils/state-machine.ts:38-59 | Moves if and only if the table allows it, and never out of RESOLVED. |
| Escalation.EveryRunIsSound | apps/api/src/modules/incidents/incidents.service.ts:218-411 | In every run: RESOLVED if and only if resolved_at is set; ACKNOWLEDGED implies acknowledged_at; priority follows severity; the audit trail replays to status, severity, priority and level with every recorded "from" and transition fitting; executions are exactly levels 1 to the current one, none before created_at plus its cumulative delay. |
| Escalation.RunOnIncident | apps/worker/src/modules/escalation/escalation.worker.ts:101-132 | Over any run from a sound table, executions and audit rows already written stay, levels never fall, and once acknowledged_at is set it and the level never change again, across resolve, reopen and polls. |
| Escalation.IdealIsLargest | apps/worker/src/modules/escalation/escalation.worker.ts:122-132 | The clock-only level is the largest k up to 10 such that levels 1 to k all exist and each has its summed delays elapsed. |
| Escalation.NeverAheadOfTheClock | apps/worker/src/modules/escalation/escalation.worker.ts:80-132 | No run with nondecreasing poll times takes any incident above the clock-only level. |
| Escalation.ConvergesToIdeal | apps/worker/src/modules/escalation/escalation.worker.ts:80-132 | After n polls at or after t that find the incident a candidate with fewer than fifty others as old, its level is at least min(ideal(t), level + n), whatever else happened in between. |
| Escalation.PollMovesTowardsIdeal | apps/worker/src/modules/escalation/escalation.worker.ts:112-132 | A looked-at candidate is due if and only if it is behind the clock, and raising it does not pass the clock. |
| Escalation.InBatchWhen | apps/worker/src/modules/escalation/escalation.worker.ts:102-111 | A candidate is in the batch whenever fewer than fifty others are at least as old, and is not when fifty are older. |
| Escalation.FewCandidates | apps/worker/src/modules/escalation/escalation.worker.ts:102-111 | With at most fifty candidates every one of them is looked at. |
| Escalation.BlockedForever | apps/worker/src/modules/escalation/escalation.worker.ts:102-111 | An incident behind fifty older candidates without a next step stays untouched through any number of polls. |
| Escalation.StarvationIsReached | apps/worker/src/modules/escalation/escalation.worker.ts:102-111 | A run that creates 51 incidents reaches such a table: the last is due at every later instant and stays at level 0 through any number of polls. |
| Escalation.ReopenedIsCandidateIff | apps/api/src/modules/incidents/incidents.service.ts:374-399 | A reopened incident is a candidate for escalation if and only if it was never acknowledged and is below level 10. |
| Escalation.DueMeansReached | apps/worker/src/modules/escalation/escalation.worker.ts:112-132 | The worker's due test is: the next level exists and its cumulative delay since creation has elapsed. |
| EscalationTiming.EachRungAddsItsDelay | apps/worker/src/modules/escalation/escalation.worker.ts:127-131 | With one step per level, going up by one level adds exactly the delay of that level's step. |
| EscalationTiming.CumulativeIsLadder | apps/worker/src/modules/escalation/escalation.worker.ts:127-131 | The filtered sum of the worker is the sum of the delays of levels 1 to k looked up one by one. |
| EscalationTiming.FirstRungIsDue | apps/worker/src/modules/escalation/escalation.worker.ts:112-131 | The lowest rung is due exactly its own delay after creation. |
| EscalationTiming.RungsAreDueApart | apps/worker/src/modules/escalation/escalation.worker.ts:112-131 | Two consecutive rungs are due exactly the upper step's delay apart. |
| EscalationTiming.RungsAreDueInOrder | apps/worker/src/modules/escalation/escalation.worker.ts:112-131 | With no negative delay no rung is due before the one below it. |
| EscalationTiming.CandidateIff | apps/worker/src/modules/escalation/escalation.worker.ts:102-111 | The query selects the incidents that are unacknowledged, below level 10, and neither mitigated nor resolved. |
| EscalationTiming.AcknowledgedByItsMoveOnly | apps/api/src/modules/incidents/incidents.service.ts:233-245 | Over every run the acknowledgement an incident ends with is the one it had, or else the time of its first move to ACKNOWLEDGED; no other update, poll, reopen or severity change sets it. |
| EscalationTiming.UnacknowledgedStaysCandidate | apps/worker/src/modules/escalation/escalation.worker.ts:102-111 | Over every run without such a move an unacknowledged incident remains a candidate unless it is mitigated, resolved or at level 10. |
| EscalationTiming.ExecutionsAreTheClimb | apps/worker/src/modules/escalation/escalation.worker.ts:174-196 | Over every run the executions added are exactly the rungs climbed by its polls, in order, each at the reading of its poll. |
| EscalationTiming.StepStampsTimes | apps/api/src/modules/incidents/incidents.service.ts:233-245 | What each step does to the times: creation never changes, an acknowledgement is set once and by a move to ACKNOWLEDGED only, a resolution is set by a move to RESOLVED and cleared by reopening only. |
| EscalationTiming.StepChangesRow | apps/api/src/modules/incidents/incidents.service.ts:218-411 | Severity changes by a severity change only; status by an allowed update, a reopen, or a raise of an OPEN incident only; executions by a raise only. |
| EscalationTiming.StepWritesAudit | apps/api/src/modules/incidents/incidents.service.ts:218-411 | Each step writes the audit rows of what it did, with the values it replaced, and none for what it refused. |
| EscalationTiming.CreatedAfresh | apps/worker/src/modules/event-processor/event.processor.ts:245-302 | A new incident is OPEN, unacknowledged, at level 0, with the given severity and time and one audit row; no other incident changes. |
| EscalationTiming.TransitionsByTarget | packages/shared/src/utils/state-machine.ts:3-36 | The transition table read by target: which statuses may become which. |
| EscalationTiming.PriorityRanksAsSeverity | apps/api/src/modules/incidents/incidents.service.ts:300-303 | Priority n belongs to severity n and to no other. |
| IncidentDesk.IncidentDesk.UpdateIncidentStatus | apps/api/src/modules/incidents/incidents.service.ts:218-283 | Takes the update step in place; not found for unknown or resolved incidents, done exactly for allowed transitions, conflict otherwise. |
| IncidentDesk.IncidentDesk.CreateIncident | apps/worker/src/modules/event-processor/event.processor.ts:245-302 | Adds a fresh incident with its creation audit row and keeps the table sound. |
| IncidentDesk.IncidentDesk.ChangeSeverity | apps/api/src/modules/incidents/incidents.service.ts:286-317 | Takes the severity step in place, not found for unknown incidents. |
| IncidentDesk.IncidentDesk.ReopenIncident | apps/api/src/modules/incidents/incidents.service.ts:379-411 | Takes the reopen step in place, done exactly for resolved incidents. |
| IncidentDesk.IncidentDesk.FindDueIncidents | apps/worker/src/modules/escalation/escalation.worker.ts:101-120 | Returns exactly the due rows of the batch, each once. |
| IncidentDesk.IncidentDesk.EscalateOnce | apps/worker/src/modules/escalation/escalation.worker.ts:158-246 | Raises one incident by one rung if and only if its policy has the next step, and keeps the table sound when the incident was due and unresolved. |
| IncidentDesk.IncidentDesk.Poll | apps/worker/src/modules/escalation/escalation.worker.ts:80-98 | Every due incident of the batch goes up exactly one level, nothing else changes, and the count is their number. |
| NotificationDrain.DrainBound | apps/worker/src/modules/notification/notification.worker.ts:29-61 | In every run each row's attempts are its dispatches and at most max_attempts; SENT and FAILED tell the last outcome; a FAILED row has no attempts left; total dispatches, and completed polls that found a due row, are at most the sum of max_attempts ever enqueued. |
| NotificationDrain.BusyPollsMakeProgress | apps/worker/src/modules/notification/notification.worker.ts:133-149 | The first row of a poll that starts a second after the last reading is never throttled, so every poll with a due row lowers the attempts left by one or more. |
| NotificationDrain.ThrottleHolds | apps/worker/src/modules/notification/notification.worker.ts:138-147 | Two dispatches for one incident and channel are at least 1000 ms apart in every run. |
| NotificationDrain.SpentRowsStaySpent | apps/api/src/modules/notifications/notifications.service.ts:74-79 | A row that has used its attempts is never due or dispatched again in any run, manual retries included. |
| NotificationDrain.RetriedIsDueIff | apps/api/src/modules/notifications/notifications.service.ts:74-79 | A row retried by hand is due if and only if it has attempts left. |
| NotificationDrain.FailedRowsAreNeverSent | apps/api/src/modules/notifications/notifications.service.ts:74-79 | A FAILED row retried by hand is never dispatched and never SENT in any run that follows. |
| NotificationDrain.IdleMeansDrained | apps/worker/src/modules/notification/notification.worker.ts:29-37 | A poll finds nothing if and only if every row is sent, failed, or out of attempts. |
| NotificationDrain.StepKeepsInv | apps/worker/src/modules/notification/notification.worker.ts:133-174 | Every step of worker or API keeps counters, claims, stamps, spacing and the account of busy polls. |
| NotificationModel.DueRows | apps/worker/src/modules/notification/notification.worker.ts:29-37 | Lists exactly the due rows, each with its content, in creation order. |
| NotificationOutcome.OldestAreClaimed | apps/worker/src/modules/notification/notification.worker.ts:29-37 | A poll claims a row if and only if it is due and fewer than 25 due rows are older. |
| NotificationOutcome.StatusTellsOutcome | apps/worker/src/modules/notification/notification.worker.ts:147-169 | Over every run without a manual retry of the row: PENDING if and only if never dispatched, SENT if and only if the last dispatch succeeded, FAILED if and only if it failed with no attempt left, RETRYING if and only if it failed with one left. |
| NotificationOutcome.SentStaysSent | apps/worker/src/modules/notification/notification.worker.ts:147-151 | After a successful dispatch, whatever was done before, the row stays SENT and is never due, claimed or dispatched again in any run without a manual retry of it. |
| NotificationOutcome.DispatchDecides | apps/worker/src/modules/notification/notification.worker.ts:147-169 | Each dispatch puts its row into the status of its outcome. |
| NotificationOutcome.RowsAreTheEnqueued | apps/api/src/modules/notifications/notifications.service.ts:22-38 | Over every run the i-th row has the incident, channel and attempts of the i-th notification enqueued. |
| NotificationOutcome.HeldBackIff | apps/worker/src/modules/notification/notification.worker.ts:138-147 | In every run a row is held back if and only if a notification for the same incident on the same channel was dispatched less than a second ago. |
| NotificationWorker.NotificationWorker.HandleNext | apps/worker/src/modules/notification/notification.worker.ts:138-169 | One pass of the loop is one step of the queue: skip when throttled, else stamp, dispatch and mark. |
| NotificationWorker.NotificationWorker.EnqueueNotification | apps/api/src/modules/notifications/notifications.service.ts:22-38 | Appends a PENDING row without attempts and keeps the invariant, in the middle of a poll as well. |
| NotificationWorker.NotificationWorker.Poll | apps/worker/src/modules/notification/notification.worker.ts:133-174 | A whole poll handles every claimed row in turn, logs each dispatch, and lowers the attempts left if a row was due. |
| NotificationWorker.NotificationWorker.RetryNotification | apps/api/src/modules/notifications/notifications.service.ts:74-79 | Puts the row back to PENDING and leaves its attempts. |
| RedisMemory.RedisMemory.Serve | packages/infra/src/redis.ts:164-246 | For every sequence of commands at nondecreasing times the lazily expiring store gives the answers of a map that drops each key the instant it expires. |
| RedisModel.SameAnswers | packages/infra/src/redis.ts:169-177 | Stores that agree on their live entries give the same answers for ever after. |
| RedisModel.PurgeTwice | packages/infra/src/redis.ts:169-177 | What has expired stays expired: purging early and again is purging once. |
| RedisLaws.GetAfterSet | packages/infra/src/redis.ts:179-188 | A value set is read until its time to live is over and not from then on; without one, or with zero, for ever. |
| RedisLaws.GetAfterDel | packages/infra/src/redis.ts:190-192 | A deleted key is not found at any later time. |
| RedisLaws.OthersAreUntouched | packages/infra/src/redis.ts:164-246 | No command changes value or expiry of a key it does not name, or that it only reads. |
| RedisLaws.SetNxSetsIfAbsent | packages/infra/src/redis.ts:242-246 | Sets exactly as Set does if Get would find nothing, and otherwise answers false and leaves value and expiry. |
| RedisLaws.IncrCountsOn | packages/infra/src/redis.ts:194-199 | Answers and stores the successor of what Get finds, or of "0", and moves no expiry. |
| RedisLaws.ExpireEndsKey | packages/infra/src/redis.ts:201-204 | Gives a key that Get finds exactly that long to live, and makes none. |
| RedisLaws.TtlAfterSet | packages/infra/src/redis.ts:206-210 | Tells the whole seconds left of a key set with a time to live, and -1 once it is gone. |
| RedisLaws.WindowOpensOnce | packages/infra/src/redis.ts:235-240 | A counter made by IncrWithTtl lives for the time to live of its first increment; later ones count on and never move its expiry. |
| RedisMemory.RedisMemory.Lookup | packages/infra/src/redis.ts:169-177 | Finds an entry if and only if it is live; dropping an expired one is not observable. |
| RedisMemory.RedisMemory.Get | packages/infra/src/redis.ts:179-181 | Answers what the eager map answers and leaves what it leaves. |
| RedisMemory.RedisMemory.Set | packages/infra/src/redis.ts:183-188 | Writes as the eager map does; a time to live of zero means none. |
| RedisMemory.RedisMemory.Expire | packages/infra/src/redis.ts:201-204 | Gives a live entry a new expiry and leaves a missing or expired one alone, as the eager map does. |
| RedisMemory.RedisMemory.Ttl | packages/infra/src/redis.ts:206-210 | Answers the eager map's whole seconds left, -1 without a live entry or an expiry. |
| RedisMemory.RedisMemory.Exists | packages/infra/src/redis.ts:212-214 | True if and only if the eager map has the key. |
| RedisMemory.RedisMemory.Incr | packages/infra/src/redis.ts:194-199 | Counts on from a live entry and keeps its expiry, starts anew without one otherwise. |
| RedisMemory.RedisMemory.IncrWithTtl | packages/infra/src/redis.ts:235-240 | Incrementing and then setting the expiry only if there is none is one command of the eager map. |
| RedisMemory.RedisMemory.Del | packages/infra/src/redis.ts:190-192 | Deleting key by key removes exactly the named keys. |
| RedisMemory.RedisMemory.SetNx | packages/infra/src/redis.ts:242-246 | Writes if and only if no live entry has the key. |
| RedisMemory.RedisMemory.SlidingWindowAdd | packages/infra/src/redis.ts:248-260 | Drops exactly the scores below the window, appends the new one, and returns how many are left. |
| RateLimit.LogIsTrailingWindow | packages/infra/src/redis.ts:248-260 | At nondecreasing times the repeatedly pruned log is exactly the trailing window of the full history. |
| RateLimit.RateIsBounded | apps/api/src/middleware/rate-limit.ts:24-40 | For every history, any closed interval as long as the window holds at most max admitted requests. |
| RateLimit.WindowSplits | apps/api/src/middleware/rate-limit.ts:24-40 | The requests in any trailing window are the admitted plus the rejected ones. |
| RateLimit.RejectedRequestsCount | apps/api/src/middleware/rate-limit.ts:22-40 | With A admitted and R rejected requests in the window, a request is admitted if and only if A + R < max; it is refused although A < max if and only if A < max <= A + R, and never when R is 0. |
| RateLimit.StricterThanDocumented | apps/api/src/middleware/rate-limit.ts:22-40 | After any history the limiter admits nothing that a limiter counting only its own admissions refuses. |
| RateLimit.DecidesAsDocumentedIff | apps/api/src/middleware/rate-limit.ts:22-40 | Over a whole history the two limiters decide alike if and only if no request is refused for rejected ones alone; they have then admitted the same requests. |
| RateLimit.PatientClientsSeeTheDocumentedLimiter | apps/api/src/middleware/rate-limit.ts:22-40 | Clients that stay silent for longer than the window after each rejection are served exactly as documented. |
| RateLimit.RetryAfterIsTooShort | apps/api/src/middleware/rate-limit.ts:36-38 | A request exactly one window, the announced Retry-After, after a rejected one is refused because of it. |
| RateLimit.RejectionCanRejectTheNext | apps/api/src/middleware/rate-limit.ts:22-40 | Three requests in which a rejected one causes the next rejection. |
| RateLimit.RateLimiter.Check | apps/api/src/middleware/rate-limit.ts:24-40 | Admits if and only if the trailing window of all requests of the key so far, rejected ones included, holds at most max; reports what remains. |
| EventOverlap.AcceptedCallsOverlapOrAreApart | apps/api/src/modules/events/events.service.ts:63-76 | Over every interleaving of calls, command by command: of two accepted calls with a common key each found it free before the other took it, so they overlapped, or at least the window after. |
| EventOverlap.CallsUseTheirKeys | apps/api/src/modules/events/events.service.ts:58-76 | Over every run the i-th call uses exactly the keys it arrived with, the request's own first if there is one. |
| EventOverlap.EveryRefusalIsJustified | apps/api/src/modules/events/events.service.ts:63-74 | Over every interleaving a refused call came upon a key that some call had taken less than the window before. |
| EventOverlap.OverlappingCallsBothPass | apps/api/src/modules/events/events.service.ts:63-76 | A run in which two overlapping calls with one key are both accepted at one instant. |
| EventGate.AcceptedCallsAreApart | apps/api/src/modules/events/events.service.ts:54-76 | Accepted calls with a common idempotency key are at least the dedupe window apart. |
| EventGate.RefusalHasAcceptedOrigin | apps/api/src/modules/events/events.service.ts:54-76 | Every refused call has a key in common with an earlier accepted call less than the window ago; refusals do not extend the window. |
| EventGate.DecidedOnce | apps/api/src/modules/events/events.service.ts:63-76 | Deciding by live keys is deciding by the history of accepted calls, and the live keys then mirror that history again. |
| EventGate.EventGate.AnyHeld | apps/api/src/modules/events/events.service.ts:63-74 | Finds a key if and only if one of them is live; looking changes nothing observable. |
| EventGate.EventGate.TakeKeys | apps/api/src/modules/events/events.service.ts:75-76 | Both keys, and nothing else, become live for the window. |
| EventGate.EventGate.IngestEvent | apps/api/src/modules/events/events.service.ts:54-76 | Extends a history in which each call is accepted if and only if no accepted call of the last window shares a key; a refused call changes nothing observable. |
| HealthCheck.EventsAlternate | apps/worker/src/modules/healthcheck/health-check.worker.ts:153-159 | For any outcomes the emitted events are failure, recovery, failure and so on, and an odd number of them means a streak of three or more. |
| HealthCheck.OneMoreCheck | apps/worker/src/modules/healthcheck/health-check.worker.ts:125-159 | The incremental streak, status and events after a check are those of the whole outcome sequence; failures minus recoveries is one if and only if the status is DOWN if and only if the last three checks failed. |
| HealthCheck.Streak | apps/worker/src/modules/healthcheck/health-check.worker.ts:126-128 | The streak is the length of the longest failing tail. |
| HealthCheck.HealthCheckWorker.Record | apps/worker/src/modules/healthcheck/health-check.worker.ts:125-159 | Keeps every service's failures, status and events tied to its outcome history, for this service and all others. |
| HealthCheck.HealthCheckWorker.Poll | apps/worker/src/modules/healthcheck/health-check.worker.ts:73-86 | One cycle records one outcome per service in order and returns them. |
| OnCall.WeekStartIsLastMonday | apps/worker/src/modules/oncall/on-call.worker.ts:15-22 | The week start is the last Monday midnight UTC not after the instant. |
| OnCall.WeeksCountUp | apps/worker/src/modules/oncall/on-call.worker.ts:24-27 | The week index goes up by one a week, from -1 in the week of the epoch. |
| OnCall.EachSlotOncePerCycle | apps/worker/src/modules/oncall/on-call.worker.ts:24-27 | Any L consecutive weeks pick each of L rotation slots exactly once. |
| OnCall.LocalMinutesOfDay | apps/api/src/modules/oncall/oncall.routes.ts:54-55 | The doubled remainder is the minute of the local day, before the epoch as well. |
| OnCall.WindowIsAnArc | apps/api/src/modules/oncall/oncall.routes.ts:59-61 | A minute is inside a window, overnight or not, if and only if counted round the clock from the start it comes before the end. |
| OnCall.WindowChangesAtItsEnds | apps/api/src/modules/oncall/oncall.routes.ts:59-61 | Stepping a minute forward leaves a window only on reaching its end and enters it only on reaching its start. |
| OnCall.ActiveEngineerByTheClock | apps/api/src/modules/oncall/oncall.routes.ts:45-67 | For any time-zone offset the answer is the rotation's engineer for the local week if the local minute is inside the window, and none otherwise. |
| OnCall.OnCallFromStartToEnd | apps/api/src/modules/oncall/oncall.routes.ts:54-62 | On any local day and in any time zone someone is on call as the window starts, unless it is empty, and no one as it ends. |
| OnCall.WindowsPartitionTheDay | apps/api/src/modules/oncall/oncall.routes.ts:56-66 | The windows [a,b) and [b,a) with a != b have exactly one of two schedules on call at every instant; a == b is an empty window. |
| OnCall.ApiWeekRunsAhead | apps/api/src/modules/oncall/oncall.routes.ts:64-65 | In UTC from the first Monday after the epoch, the API's week equals the worker's Monday to Wednesday and is one more Thursday to Sunday. |
| OnCall.ApiAgreesWithShifts | apps/api/src/modules/oncall/oncall.routes.ts:45-67 | For any window and rotation, the API names the engineer of the worker's shift if and only if the window contains the instant and it is Monday to Wednesday, or next week's slot names the same engineer. |
| OnCall.DistinctRotationsAgreeUntilWednesday | apps/api/src/modules/oncall/oncall.routes.ts:45-67 | Within the window and with every engineer named once, they agree if and only if it is Monday to Wednesday or there is only one engineer. |
| OnCall.AllShiftsWritten | apps/worker/src/modules/oncall/on-call.worker.ts:43-62 | Existing shifts stay, every staffed schedule has its shift of the week, and each new row is the week's for the engineer whose turn it is. |
| OnCall.ShiftTable.UpsertShift | apps/worker/src/modules/oncall/on-call.worker.ts:49-62 | Inserts a row if and only if its key is free. |
| OnCall.ExactlyOneShiftCovers | apps/worker/src/modules/oncall/on-call.worker.ts:38-39 | A shift under the current week's key covers the instant and is the only one of its schedule that does. |
| OnCall.MaterializedCoversNow | apps/worker/src/modules/oncall/on-call.worker.ts:33-68 | After a run every staffed schedule has exactly one shift that covers the instant. |
| OnCall.MaterializeIsIdempotent | apps/worker/src/modules/oncall/on-call.worker.ts:29-68 | A later run in the same week adds nothing. |
| OnCall.ShiftsAreKeptThirtyDays | apps/worker/src/modules/oncall/on-call.worker.ts:64-67 | A shift on the table stays there unchanged through every run until 30 days after its end, and a run after that drops it. |
| OnCall.ShiftsAreDisjoint | apps/worker/src/modules/oncall/on-call.worker.ts:38-39 | Shifts of one schedule never overlap, whenever they were written. |
| OnCall.ShiftTable.MaterializeShifts | apps/worker/src/modules/oncall/on-call.worker.ts:33-74 | The loop computes the specified table and returns how many shifts it inserted. |

## Left out

- `RabbitEventBus` and `RedisRemote` (`packages/infra/src/eventbus.ts:58-187`, `packages/infra/src/redis.ts:44-152`): calls into foreign systems; nothing is claimed about their agreement with the memory versions.
- `MemoryEventBus.close` and `RedisMemory.close`: they drop the state.
- The 25 ms timer period of the tick chains: a tick may start at any clock reading, which includes the actual ones.
- The class `MemoryEventBus` keeps consumers in a `seq` of values; aliasing between the consumer object and its entry in the list is not captured.
- `normalizeMessage` and the SHA-256 fingerprint: the fingerprint is an uninterpreted value that is computed once per event.
- Severity calculation, latency averages, metrics, queue counters and formatting helpers: small, and easy members only.
- The sliding counter per fingerprint in the event processor feeds severity only; the store operation itself is modelled for the rate limiter.
- Notifications, timeline, assignment and realtime messages that event processing and escalation also write, and the resolution of escalation targets: written and never read back by the protocols modelled.
- `updateIncidentStatus` reads its row without a lock; with unserialised transactions a recorded "from" may be stale.
- `escalateOnce` does not look at the acknowledgement again after the query; overlapping polls or an API call between query and update are outside the model.
- `assignEngineer`, comments, listing and detail queries, and `forceTransition`, which nothing calls: they touch no modelled column or are plain reads.
- The in-memory hashes (`hset`, `hget`, `hdel`, `hgetall`): plain maps without expiry.
- `String(Number(v) + 1)` on stored texts is a parameter of the store (`bump`), so what counting does to a text that is not a number is not modelled.
- Sorted-set members `now-random` are taken to be distinct.
- RateLimit.RateLimiter.Check: does not model a failing Redis, where the middleware lets every request pass.
- EventGate.EventGate.IngestEvent: handles one call at a time (overlapping calls are in `EventOverlap`), and does not model the insert and publish that follow.
- The event lost in a crash between taking the keys and storing the event is not followed up: the keys stay held, as for any call in `EventOverlap` that takes no further step.
- EventDatabase.Database.ProcessEvent: does not model creation of severity, title and on-call assignment, or a failing database.
- Escalation.ConvergesToIdeal: does not cover policies that change during a run, because the code reads the policy afresh in each poll and no level is then stable.
- OnCall.MaterializedCoversNow: takes one instant for the week and for the clean-up, where the code lets the database read its own clock for the latter.
- OnCall.WindowsPartitionTheDay: starts at the epoch, before which the signed remainder gives a negative slot and no engineer.
- Time zones enter as an offset in minutes; parsing of HH:MM and the Intl formatting trick are not modelled.
- `updateService` (`apps/api/src/modules/services/services.service.ts:125-138`) numbers its placeholders wrongly and is not part of any protocol here.
- Express routes, schemas, authentication, sockets, logging, the dashboard, containers and the connection pool: input and output.
