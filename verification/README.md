# Odis: verified models of the streaming, dataset, simulation and trend cores

This project models the stateful and numerical cores of the Odis predictive-maintenance system for hydrogen fuel-cell
plants, and proves what they promise, for every input, every run and every interleaving. `dafny verify dfyconfig.toml`
checks all of it.

Code that updates objects in place is modelled by classes with the same fields and methods (`SampleAssembler`,
`FaultInferenceSession`, `FaultInferenceManager`, `FaultInferenceStreamingWorker`, `OutboxDispatcher`,
`FuelCellMachine`, `PlantAlphaFleet`); each method is proved against a function on values, and the theorems are about
those functions over whole runs. Loops are loops with invariants; pure code is functions.

## The components

- **Streaming assembly** (`Assembly`, `SampleAssembler`, `AssemblyConservation`, `AssemblyOrder`, `AssemblyContent`,
  `AssemblyIsolation`, `AssemblyTimeouts`): single-measurement events become one sample per asset and timestamp, with two capacity limits,
  timeouts, duplicates, conflicts and lateness. A run is any sequence of events and timeout sweeps.
- **Inference** (`AlertPolicy`, `InferenceSession`, `SessionAlerts`, `InferenceManager`, `Pipeline`, `FleetSize`): a twelve-entry window
  per measurement, warm-up, and the alert state machine with its hysteresis. The feature formulas, the classifier and
  the evidence are arbitrary functions of what the code gives them; features and classifier may also raise.
- **Worker** (`Worker`, `WorkerRuns`, `SafeReadings`, `WorkerFailures`, `StreamingWorker`): validation, handling, retried
  publishing and committing, against a broker that may fail at any attempt; why the worker's state is always that of a
  run of the two layers above; and exactly what can bring the worker down.
- **Outbox** (`Outbox`, `OutboxDispatcher`): a protocol of inserts, dispatch cycles by any number of dispatchers,
  publisher failures and crashes over durable rows.
- **Dataset** (`Splits`, `RunPlan`, `SplitAssignment`, `DatasetRun`, `DatasetRunner`, `LabelledRun`, `TwinRuns`):
  planning, apportionment, stratified splitting, and the simulation loop whose labels must match its physics.
- **Machine** (`Machine`, `FuelCellMachine`, `Starvation`): the coupled first-order lags of a fuel-cell stack over exact
  reals; exp(-dt/60) is any value in (0, 1) and the sine any function into [-1, 1].
- **Trends** (`Statistics`, `Sorting`, `TimeSeries`, `TimeSeriesLaws`, `TrendVerdicts`, `TrendDetector`): the two
  classifiers and the inequalities behind their signals; the square root is any function that squares back.
- **Cadence and SSE** (`Cadence`, `Sse`, `SseRoundTrip`): publish deadlines on a fixed grid, and the server-sent-event
  encoder with the line decoder that reads it (section 9.2 of the WHATWG HTML standard).

## Where the code and its documentation differ

The models follow the code. Where a promise fails, the exact condition under which it holds is proved.

- The assembler's eviction of an asset forgets its last completed timestamp, the session's does not. The session's
  non-monotonic error is unreachable for a fleet if and only if the fleet has at most `max_tracked_assets` assets
  (`FleetSize.LayersAgreeExactlyWhenFleetFits`).
- `validate_telemetry_event` is documented to raise only its own errors, and malformed input never to crash the worker.
  Another exception escapes validation exactly on the inputs of `TelemetryEvents.EscapesExactly`. Handling a message
  raises exactly when decoding it raises something the worker does not catch, when validation lets an exception
  escape, when it is rejected and its `asset_id` is not text or cannot be encoded in UTF-8, or when it is accepted and
  either completes a slot in which some event id is empty (no `Observation` may have one), or is to be reported under
  an asset id that cannot be encoded, or completes a sample on which the feature formulas or the classifier raise
  (`WorkerFailures.RaisesExactly`). Finite readings can make them raise, by overflow. For any range of readings on which
  scoring twelve consecutive samples never raises, a worker that is sent no such message and no reading outside the
  range never raises (`WorkerFailures.OnlySuspectMessagesRaise`).
- `_split_counts` is documented to sum to exactly `n` "regardless of rounding". With the tolerance of 1e-6 on the
  proportions it does so exactly when rounding down leaves zero to three runs, which covers every stratum below a
  million runs and every exact set of proportions (`Splits.SplitCounts`, `Splits.LargeStrataMayNotAddUp`).
- "Starvation never nets a voltage increase" holds at a constant supply factor exactly when the factor is at least 0.98
  or `load/100 * (1 - factor) * 0.58 <= 0.98 - factor`; at full load that excludes the factors strictly between 20/21
  and 0.98 (`Starvation.StarvationClaimHoldsExactlyWhenBenign`, `Starvation.BenignAtFullLoad`).
- One outbox row whose payload cannot be read keeps every other row from being marked, in every later cycle
  (`Outbox.PoisonStopsDispatch`, `OutboxDispatchers.FailureFreeCycleConverges`).
- `RunConfig` says that the ramp must complete within the run. The number of steps is rounded, so the last sample
  reaches the configured severity exactly when the rounded number of steps reaches the end of the ramp
  (`LabelledRun.RampCompletesExactly`).
- Every cooling fault starts its ramp at 0.85, also on the asset whose own baseline is 0.84, which is first cooled better
  than its healthy twin. A cooling fault never cools exactly on the assets with a baseline of at least 0.85
  (`TwinRuns.CoolingFaultHeatsExactly`).
- The comment on `GroundTruthRecord` that a label may lag the ramp by one step is out of date: there is no offset
  (`LabelledRun.LabelsMatchPhysics`).
- "Ordering does not matter" for `analyze_trend`: the analysed values are independent of the order of arrival, for every
  window, exactly when observations that share a timestamp and an id are the same
  (`TimeSeries.WindowsIgnoreArrivalOrderExactly`); then so is the verdict, and otherwise it need not be
  (`TrendVerdicts.ArrivalOrderCanMatter`).

## Model

| member | source | states |
|---|---|---|
| Telemetry.FromObservations | backend/simulator/inference/telemetry.py:136-181 | accepts exactly the non-empty batches of one asset and one timestamp with supported names, canonical units, finite values, no repeated name and all seven required measurements, and copies the readings verbatim; duplicates and missing names are reported as such |
| TelemetryEvents.AcceptedExactly | backend/simulator/inference_worker/events.py:138-181 | an event is accepted if and only if it is a well-formed version-1 document, and then it is canonical |
| TelemetryEvents.AcceptedMeansDocument | backend/simulator/inference_worker/events.py:142-181 | an accepted event carries its document: the text of `asset_id`, `measurement_name` and `unit`, the instant its `timestamp` parses to, the number in `value`, and the rendered `event_id` |
| TelemetryEvents.NamesExactly | backend/simulator/inference_worker/events.py:158-162 | a text names a measurement if and only if it is that measurement's own name |
| TelemetryEvents.RejectedForFirstFault | backend/simulator/inference_worker/events.py:142-181 | a rejected document fails the check it is rejected for and passes every check made before it |
| TelemetryEvents.EscapesExactly | backend/simulator/inference_worker/events.py:138-195 | an exception other than a validation error escapes if and only if the document is of a guarded shape |
| TelemetryEvents.ValidationCanEscape | backend/simulator/inference_worker/events.py:138-152 | two concrete documents on which another exception escapes |
| Assembly.IngestKeepsValid | backend/simulator/inference_worker/assembly.py:113-213 | every ingest keeps both capacities, the key orders, and that every buffered sample is non-empty, incomplete and canonical |
| Assembly.SweepKeepsValid | backend/simulator/inference_worker/assembly.py:215-239 | so does every timeout sweep |
| Assembly.IngestIsLocal | backend/simulator/inference_worker/assembly.py:113-271 | an event changes its own asset's buffer as an isolated buffer would, and leaves every other buffer unchanged or evicts it |
| Assembly.FinishesExactly | backend/simulator/inference_worker/assembly.py:148-213 | an event finishes a sample exactly when it brings the last required reading of its open slot; then that is its only outcome, a completion exactly when every reading has an event id |
| Assembly.RunIdentified | backend/simulator/inference_worker/assembly.py:174-204 | over every run of events with ids every buffered reading has one |
| AssemblyConservation.OpeningsAreConserved | backend/simulator/inference_worker/assembly.py:113-294 | over every run and for every asset and timestamp, openings equal completions plus conflicts plus timeout rejections plus completions that raise plus what is still buffered |
| AssemblyConservation.IngestReportsOnce | backend/simulator/inference_worker/assembly.py:113-213 | each ingest reports evictions first and then exactly one outcome of its own, about its own sample; it raises instead, with nothing else to report, exactly when it completes a slot in which some event id is empty |
| AssemblyConservation.SweepIsExact | backend/simulator/inference_worker/assembly.py:215-239 | a sweep leaves nothing expired and touches nothing that is not |
| AssemblyTimeouts.TimeoutsCountFromOpening | backend/simulator/inference_worker/assembly.py:215-239 | over every run, a sweep keeps a sample if and only if it is buffered and the event that opened it was taken less than the timeout before, and reports as timed out exactly the other buffered ones |
| AssemblyTimeouts.OpenedWhenFirstSeen | backend/simulator/inference_worker/assembly.py:140-147 | over every run a buffered sample remembers the clock reading of the event that opened it |
| AssemblyTimeouts.RoomIsMadeOnlyWhenFull | backend/simulator/inference_worker/assembly.py:273-294 | no other sample of the asset is given up unless the event opens a new one and as many are buffered as may be |
| AssemblyTimeouts.EvictsEarliestOpening | backend/simulator/inference_worker/assembly.py:273-294 | and then the one given up is a sample whose opening event was taken no later than any other's, and all others stay |
| AssemblyTimeouts.LateExactlyAfterFinish | backend/simulator/inference_worker/assembly.py:121-138 | while the fleet fits, an event is late if and only if a sample of its asset with its timestamp or a later one was finished before |
| AssemblyOrder.OrderIsRecency | backend/simulator/inference_worker/assembly.py:241-247 | over every run the key order of the buffers is the order of each asset's last event |
| AssemblyOrder.LastActiveIsLastEvent | backend/simulator/inference_worker/assembly.py:117-119 | over every run `last_active_monotonic` is the clock reading of the asset's last event |
| AssemblyOrder.EvictsLeastRecentlyActive | backend/simulator/inference_worker/assembly.py:249-271 | an evicted asset's last event is older than that of every other tracked asset, and all others are kept |
| AssemblyOrder.EvictsExactlyWhenFleetDoesNotFit | backend/simulator/inference_worker/assembly.py:241-271 | a run evicts some asset if and only if more assets report than may be tracked |
| AssemblyOrder.EvictsEarliestOpened | backend/simulator/inference_worker/assembly.py:273-294 | under a clock that never goes back, making room gives up a sample opened no later than any other |
| AssemblyContent.BufferedIsFirstReadings | backend/simulator/inference_worker/assembly.py:140-179 | over every run a buffered sample holds the first reading of each measurement its accepted events gave, and those never disagreed |
| AssemblyContent.IngestVerdict | backend/simulator/inference_worker/assembly.py:121-213 | the verdict on every event of every run: late against the last finished timestamp; otherwise a conflict, a completion with the first readings, a completion that raises because a first reading has no id, or waiting, decided by the events accepted since the slot opened |
| AssemblyIsolation.AssetsDoNotInterfere | backend/simulator/inference_worker/assembly.py:113-271 | for every interleaving of a fleet that fits, an asset's buffer and outcomes are those of a fresh assembler fed only its events and the same sweeps |
| AssemblyIsolation.EveryOutcomeIsAbout | backend/simulator/inference_worker/assembly.py:113-239 | without evictions every outcome is about an asset that has reported |
| SampleAssemblers.SampleAssembler.constructor | backend/simulator/inference_worker/assembly.py:90-101 | a new assembler is empty |
| SampleAssemblers.SampleAssembler.BufferFor | backend/simulator/inference_worker/assembly.py:241-271 | moves the asset to the end of the order, or evicts the first buffer when full and inserts an empty one |
| SampleAssemblers.SampleAssembler.Ingest | backend/simulator/inference_worker/assembly.py:113-213 | the new state is that of the specification, also when it raises; it raises exactly when the specification aborts and otherwise returns its outcomes; `from_observations` never rejects |
| SampleAssemblers.SampleAssembler.SweepTimeouts | backend/simulator/inference_worker/assembly.py:215-239 | the new state and the outcomes are those of the specification, buffer by buffer in key order |
| SampleAssemblers.AssembledIsAcceptable | backend/simulator/inference_worker/assembly.py:190-204 | every list assembled from a complete slot is accepted by `from_observations` |
| SampleAssemblers.BuildObservations | src/domain/entities/observation.py:27-35 | building the observations of a slot raises exactly when some reading has an empty event id, and otherwise lists each reading once |
| SampleAssemblers.Assemble | backend/simulator/inference_worker/assembly.py:192-205 | the sample built from a complete slot exists exactly when every reading has an event id, and carries exactly its readings |
| AlertPolicy.StepDecides | backend/simulator/dataset/alert_policy/state_machine.py:155-308 | one step of the counters emits the event that the policy stated on the whole history decides, and summarises the extended history |
| AlertPolicy.MachineRefinesPolicy | backend/simulator/dataset/alert_policy/state_machine.py:310-348 | for every row sequence the constant-size machine emits exactly the events of the full-history policy |
| AlertPolicy.EventsFormPath | backend/simulator/dataset/alert_policy/state_machine.py:101-122 | the events of every run form one path of states from healthy to the current state |
| AlertPolicy.AlertsNeedPersistence | backend/simulator/dataset/alert_policy/state_machine.py:155-308 | no class is entered unless the last `entry_persistence` rows since the previous event all qualified as it |
| AlertPolicy.DecidesExactly | backend/simulator/dataset/alert_policy/state_machine.py:155-308 | in terms of the scored rows alone: an alert clears if and only if the last `exit_persistence` trusted rows score healthy high enough, and otherwise a class is entered if and only if the last `entry_persistence` rows (trusted ones, once confirmed) diagnose it with a high enough score; the event names both states |
| InferenceSession.IngestRefines | backend/simulator/inference/session.py:108-217 | one accepted sample: the bounded session answers, or raises, as a session keeping everything and still represents it |
| InferenceSession.BoundedSessionRefinesMemory | backend/simulator/inference/session.py:77-217 | for every sequence of samples and resets the twelve-entry session replies as the full-history one, refusals and exceptions included |
| InferenceSession.WarmUpIsElevenSamples | backend/simulator/inference/session.py:114-217 | of every sequence of samples and resets, a reply is a warm-up if and only if it answers an accepted sample that is at most the eleventh since the last reset; a later accepted sample is scored with exactly one step of the alert machine or raises; warm-ups, refusals and exceptions make no step |
| SessionAlerts.AnswersSayWhatWasScored | backend/simulator/inference/session.py:130-217 | of every sequence of samples and resets, each scored answer is about the newest accepted sample and carries what the classifier returned for the features of the last twelve accepted samples, the first class of the greatest score, the evidence and the alert state, or why there are no features |
| SessionAlerts.AlertsExactly | backend/simulator/inference/session.py:142-217 | of every sequence of samples and resets, an answer enters a class if and only if the last `entry_persistence` answers since the last event or reset predict it with a score that reaches the entry probability, and clears the alert if and only if the last `exit_persistence` score `healthy` high enough; it shows the state that results |
| SessionAlerts.RefusesExactly | backend/simulator/inference/session.py:109-120 | a sample is refused if and only if it is another asset's or no newer than some sample accepted since the reset, and is remembered otherwise |
| InferenceManager.FaultInferenceSession.constructor | backend/simulator/inference/session.py:68-83 | a new session is cold |
| InferenceManager.FaultInferenceSession.Reset | backend/simulator/inference/session.py:77-89 | back to a cold start: history, count, timestamp and alert state |
| InferenceManager.FaultInferenceSession.Append | backend/simulator/inference/session.py:122-127 | one more entry per measurement, trimmed to the last twelve |
| InferenceManager.FaultInferenceSession.Score | backend/simulator/inference/session.py:141-217 | one feature row, one step of the alert machine and the result; an exception of the features or of the classifier comes before the step |
| InferenceManager.FaultInferenceSession.Ingest | backend/simulator/inference/session.py:108-217 | refuses a foreign or non-increasing sample without change, and otherwise moves to and answers as the specification |
| InferenceManager.FaultInferenceManager.SessionFor | backend/simulator/inference/session.py:230-235 | finds the asset's session or makes a cold one, changing no other |
| InferenceManager.FaultInferenceManager.Ingest | backend/simulator/inference/session.py:237-238 | routes the sample to its own asset's session and changes no other |
| InferenceManager.FaultInferenceManager.ResetOne | backend/simulator/inference/session.py:240-245 | the asset's session, made if missing, is cold, and no other changes |
| Pipeline.RoutingDoesNotInterfere | backend/simulator/inference/session.py:220-238 | what an asset is told is what a fresh session fed only its samples would say |
| Pipeline.LayersAgree | backend/simulator/inference/session.py:114-129 | without evictions no session is past its asset's last finished timestamp, so no assembled sample is refused |
| Pipeline.LayersCoincide | backend/simulator/inference/session.py:114-129 | and if every event has an id, each session's last timestamp is its asset's last finished timestamp |
| Pipeline.CompletedTimestampsIncrease | backend/simulator/inference_worker/assembly.py:121-191 | without evictions the completed timestamps of each asset strictly increase over the whole run |
| Pipeline.InferenceDoesNotInterfere | backend/simulator/inference_worker/worker.py:107-146 | for a fleet that fits, what an asset is told is what a fresh assembler and a fresh session fed only its events and the same sweeps would tell it |
| FleetSize.CrowdBreaksSafety | backend/simulator/inference_worker/assembly.py:249-271 | a run of one asset and `max_tracked_assets` others, all events with ids, whose session refuses a completed sample |
| FleetSize.LayersAgreeExactlyWhenFleetFits | backend/simulator/inference/session.py:114-120 | every run of events with ids of a fleet is free of refused samples if and only if the fleet fits; if it fits, so is every run over any clock, with or without ids |
| Worker.PublishWithRetry | backend/simulator/inference_worker/kafka_io.py:56-87 | at most `max_retries + 1` attempts, stopping at the first success, and true exactly when one succeeds |
| Worker.PublishThenCommit | backend/simulator/inference_worker/worker.py:64-73 | in every poll handled messages are a prefix of the batch, one commit each; at each commit every publish so far was confirmed; a transition directly follows its confirmed result |
| Worker.PollFollowsScript | backend/simulator/inference_worker/worker.py:64-108 | of every poll, up to its last commit the trace is, message by message, exactly the publishes that message calls for, each confirmed, followed by its commit; and nothing is committed after that |
| Worker.HandledMeansRequiredPublished | backend/simulator/inference_worker/worker.py:107-196 | the outcomes of a message are handled only when exactly the required publishes were made and confirmed, and every completed sample reached its session |
| Worker.SweepReportsEach | backend/simulator/inference_worker/worker.py:224-231 | a sweep sends one data-quality event per expired sample, in order and under its own asset, whatever the broker confirms, up to the first asset id that cannot be encoded, where it raises |
| WorkerRuns.EventMoves | backend/simulator/inference_worker/worker.py:107-146 | an accepted event is ingested, and a sample it completes reaches its session, whatever is published, fails or raises |
| WorkerRuns.LifeIsRun | backend/simulator/inference_worker/worker.py:60-108 | after every sequence of polls, whatever the broker did and wherever a message failed or raised, the assembler and the sessions are where the run of the accepted events and the sweeps leads |
| WorkerRuns.LifeDoesNotInterfere | backend/simulator/inference_worker/worker.py:60-146 | for a fleet that fits, what the worker holds of one asset, in the assembler and in its session, is what a fresh assembler and session fed only that asset's events and the same sweeps would hold |
| SafeReadings.RouteIn | backend/simulator/inference/session.py:122-157 | on a range on which scoring twelve consecutive samples never raises, routing a sample in the range does not raise in scoring and keeps every history in the range |
| SafeReadings.WarmInputs | backend/simulator/inference/session.py:141-155 | a warm session hands over twelve entries per measurement, ten seconds apart, with the shorter windows and the newest two values taken from them |
| WorkerFailures.EventRaisesExactly | backend/simulator/inference_worker/worker.py:107-196 | on a fleet that fits, an accepted event raises if and only if it completes a slot holding an empty event id, of an asset id that cannot be encoded, or on which the features or the classifier raise, or brings a rejection under an asset id that cannot be encoded |
| WorkerFailures.RaisesExactly | backend/simulator/inference_worker/worker.py:77-108 | on a fleet that fits, handling a message raises if and only if the message is of a guarded shape or its accepted event raises |
| WorkerFailures.SweepRaisesExactly | backend/simulator/inference_worker/worker.py:224-231 | the timeout sweep raises if and only if it expires a sample of an asset id that cannot be encoded |
| WorkerFailures.OnlySuspectMessagesRaise | backend/simulator/inference_worker/worker.py:60-108 | over every sequence of polls, whatever the broker does, and for every range of readings on which scoring twelve consecutive samples never raises: if no message is guarded and none is accepted with an empty event id, an asset id that cannot be encoded or a reading outside the range, the worker never raises |
| StreamingWorkers.FaultInferenceStreamingWorker.PublishTo | backend/simulator/inference_worker/worker.py:198-222 | one event built, which raises for a key that cannot be encoded, and one retried publish, logged with its result |
| StreamingWorkers.FaultInferenceStreamingWorker.Infer | backend/simulator/inference_worker/worker.py:144-196 | the sample's session moves, the result is published, and the transition only after it |
| StreamingWorkers.FaultInferenceStreamingWorker.HandleOne | backend/simulator/inference_worker/worker.py:110-142 | nothing for a waiting outcome, a data-quality event for a rejection, inference for a completion |
| StreamingWorkers.FaultInferenceStreamingWorker.HandleUntilFailure | backend/simulator/inference_worker/worker.py:107-108 | the outcomes of one message in order, up to the first that is not handled |
| StreamingWorkers.FaultInferenceStreamingWorker.HandleAccepted | backend/simulator/inference_worker/worker.py:107-108 | ingests the event and handles its outcomes; an exception of the assembler passes through |
| StreamingWorkers.FaultInferenceStreamingWorker.HandleMessage | backend/simulator/inference_worker/worker.py:77-108 | the new state, effects and status of one message, malformed and raising ones included |
| StreamingWorkers.FaultInferenceStreamingWorker.ReportExpired | backend/simulator/inference_worker/worker.py:224-231 | every swept outcome is reported whatever publishes failed, up to an exception |
| StreamingWorkers.FaultInferenceStreamingWorker.PollOnce | backend/simulator/inference_worker/worker.py:64-73 | the new state and the ordered effects of one poll are those of the specification |
| Outbox.DispatchedMeansDelivered | backend/app/application/outbox_dispatcher.py:158-219 | over every run of any number of dispatchers with inserts, failures and crashes, a marked row was put on the bus and, if it needs Kafka, confirmed; no row is lost and no mark undone |
| Outbox.EveryMarkIsDelivered | backend/app/application/outbox_dispatcher.py:158-219 | the same from the empty table, with the event types that need a confirmed publish named |
| Outbox.MarkedExactlyOnce | backend/app/application/outbox_dispatcher.py:173-190 | with one dispatcher and no crash each marked row that needs Kafka has exactly one confirmation, and one more bus publish than failed attempts |
| Outbox.EveryMarkIsExact | backend/app/application/outbox_dispatcher.py:173-190 | the same from the empty table, with those types named |
| Outbox.MarksTellTheirCycle | backend/app/application/outbox_dispatcher.py:158-190 | over every run of any number of dispatchers a mark is the clock reading of a cycle that had that row to visit |
| Outbox.EveryMarkTellsItsCycle | backend/app/application/outbox_dispatcher.py:158-190 | the same from the empty table |
| Outbox.PoisonStopsDispatch | backend/app/application/outbox_dispatcher.py:173-190 | while an unreadable row is pending and every cycle in progress has still to visit it, no run of any dispatchers ever marks a row again |
| OutboxDispatchers.OutboxDispatcher.PublishIntegrationEvent | backend/app/application/outbox_dispatcher.py:198-219 | true exactly when there is no Kafka leg to deliver or it was confirmed, and logged accordingly |
| OutboxDispatchers.OutboxDispatcher.VisitRow | backend/app/application/outbox_dispatcher.py:173-190 | one row: skipped, unreadable, interrupted by a raising handler after it had been put on the bus, or delivered and marked, with its effects in order |
| OutboxDispatchers.OutboxDispatcher.Dispatch | backend/app/application/outbox_dispatcher.py:158-190 | one cycle is a run of the protocol, publishes in creation order, commits exactly its marks, each with the cycle's clock reading, or none, and without failures leaves only unknown types pending if and only if no row is unreadable |
| OutboxDispatchers.FailureFreeCycleConverges | backend/app/application/outbox_dispatcher.py:164-190 | a failure-free cycle leaves only unknown-type rows pending if and only if no pending row is unreadable |
| Splits.HandOut | backend/simulator/dataset/splits.py:62-68 | the first loop gives the remainder to the largest fractions, equal ones in the order train, validation, test, with Python's reading of a negative slice bound |
| Splits.Repair | backend/simulator/dataset/splits.py:70-77 | the repair pass keeps the sum, empties no split, leaves served counts alone, and serves every positive proportion when there are enough runs |
| Splits.SplitCounts | backend/simulator/dataset/splits.py:47-78 | the counts sum to `n` if and only if the remainder is zero to three; with exact proportions they always do, zero proportions get nothing, and positive ones at least one when `n` allows; where every positive proportion has a whole run to start with, the counts are those of the largest-remainder method |
| Splits.FloorOrCeiling | backend/simulator/dataset/splits.py:62-68 | before repair every count is the floor or the ceiling of its quota |
| Splits.ZeroProportionsGetNothing | backend/simulator/dataset/splits.py:62-68 | a zero proportion never wins a remainder |
| Splits.SmallStrataAddUp | backend/simulator/dataset/dataset_spec.py:204-206 | the tolerance cannot disturb a stratum of fewer than a million runs |
| Splits.LargeStrataMayNotAddUp | backend/simulator/dataset/dataset_spec.py:204-206 | accepted proportions and a stratum whose counts sum to three too many |
| RunPlan.PlanRuns | backend/simulator/dataset/run_plan.py:48-88 | the nested loops with one seed cursor produce the plan |
| RunPlan.OneRunPerSeed | backend/simulator/dataset/run_plan.py:48-88 | a valid spec gives one run per seed, in order, with distinct ids |
| RunPlan.RoundRobin | backend/simulator/dataset/run_plan.py:55-57 | within a class, asset number `i` is targeted once per full round and once more if the last round reaches it |
| RunPlan.ClassesAreAssetBalanced | backend/simulator/dataset/run_plan.py:55-57 | within a class the runs of any two target assets differ by at most one |
| SplitAssignment.Group | backend/simulator/dataset/splits.py:94-97 | every run is in the stratum of its class and asset, in planning order |
| SplitAssignment.CutStratum | backend/simulator/dataset/splits.py:108-111 | a shuffled stratum is cut at its apportioned sizes |
| SplitAssignment.AssignSplits | backend/simulator/dataset/splits.py:81-119 | the three splits together hold every run exactly as often as it was planned, whatever the shuffle, and for distinct ids each stratum is shared out in its apportioned sizes if and only if those add up |
| SplitAssignment.PartsMakeTheStratum | backend/simulator/dataset/splits.py:108-111 | the three parts of a stratum are the stratum, and have the apportioned sizes whenever those add up |
| SplitAssignment.EveryRunIsAssigned | backend/simulator/dataset/splits.py:94-111 | for any order of the strata the splits cover the runs |
| SplitAssignment.EveryPlannedRunInExactlyOneSplit | backend/simulator/dataset/splits.py:81-119 | every planned run of a valid spec lands in exactly one split, exactly once |
| SplitAssignment.SharesAreApportioned | backend/simulator/dataset/splits.py:81-119 | counted by run ids, the runs of a scenario and asset in train, validation and test are exactly as many as apportioned to each, for every shuffle and order of the strata, if and only if rounding down leaves zero to three runs |
| SplitAssignment.PlannedSharesAreApportioned | backend/simulator/dataset/run_plan.py:48-88 | from a valid spec: how many runs each scenario and asset gets, and that the three splits share them out in the apportioned sizes |
| Machine.AdvanceKeepsEnvelope | backend/simulator/machine.py:127-231 | one tick of any size keeps load, current, voltage, hydrogen, air, temperature, pressure and both factors inside their ranges |
| Machine.MachineStaysInEnvelope | backend/simulator/machine.py:109-231 | from the default machine every sequence of setter calls and ticks stays inside the ranges |
| Machine.SteadyExactly | backend/simulator/machine.py:127-231 | with enough fuel and without the bounded variation, a tick changes no reading if and only if load, current, voltage, flows, temperature and pressure satisfy the linear equations of the steady state |
| Machine.StarvedCurrentIsBetween | backend/simulator/machine.py:188-196 | a starved machine under load settles only at a current strictly between what its fuel supports and what its load asks for |
| Machine.TickClosesGaps | backend/simulator/machine.py:132-231 | a tick brings flows, current, voltage, temperature and pressure closer to where the readings it leaves put them, each by the decay of its own time constant; a starved current is held back towards what the fuel supports |
| Machine.GapsShrink | backend/simulator/machine.py:132-149 | over any number of equal ticks the distances of cooling, load and fuel supply to their setpoints shrink geometrically, at the rates of the 60- and 30-second constants |
| Machine.ModeTellsAlways | backend/simulator/machine.py:109-152 | after every sequence of setter calls and ticks the mode is ramping if and only if the load is more than one percent from its target |
| FuelCellMachines.FuelCellMachine.constructor | backend/simulator/machine.py:68-98 | the given initial values, by default those of a warm-running stack, with both setpoints at their factors and no ticks |
| FuelCellMachines.FuelCellMachine.SetTargetLoad | backend/simulator/machine.py:109-115 | the clamped setpoint and the operating mode, nothing else |
| FuelCellMachines.FuelCellMachine.SetCoolingEfficiency | backend/simulator/machine.py:117-119 | the clamped cooling setpoint, nothing else |
| FuelCellMachines.FuelCellMachine.SetFuelSupplyFactor | backend/simulator/machine.py:121-125 | the clamped supply setpoint, nothing else |
| FuelCellMachines.FuelCellMachine.Tick | backend/simulator/machine.py:127-231 | a non-positive step is refused without change; any other advances the machine field by field and keeps its envelope |
| Starvation.StarvationNeverRaisesVoltage | backend/simulator/machine.py:155-263 | at steady load and equilibrium current, for any tick sizes and any non-increasing supply from any factor, in every tick that ends at a benign factor the starved machine heads for no more voltage than its unstarved twin |
| Starvation.NeverAboveOnceBelow | backend/simulator/machine.py:155-263 | once the factor is at most 20/21, the starved machine never again heads for more voltage than its twin |
| Starvation.ShownVoltageStaysBelow | backend/simulator/machine.py:168-186 | while the factor is benign the starved machine also shows no more voltage than its twin |
| Starvation.NotBenignRises | backend/simulator/machine.py:155-195 | at a factor that is not benign two ticks make the starved machine head for more voltage |
| Starvation.StarvationClaimHoldsExactlyWhenBenign | backend/simulator/machine.py:233-263 | the docstring's claim holds at a constant factor, for every sequence of ticks, if and only if the factor is benign |
| Starvation.BenignAtFullLoad | backend/simulator/machine.py:233-263 | at full load benign means at most 20/21 or at least 0.98, and 20/21 is enough at every load |
| DatasetRun.ElapsedIsOnGrid | backend/simulator/plant.py:90-93 | simulated time after `k` steps is `k` times the step |
| DatasetRun.OnlyTheTargetStartsElsewhere | backend/simulator/plant.py:60-78 | the overrides of the initial load and temperature move the target only, and every asset heads for its own baselines |
| DatasetRun.SetpointStaysInBand | backend/simulator/scenarios/normal_operation.py:37-46 | an asset's load setpoint swings around its own baseline by at most the amplitude |
| LabelledRun.DemandFollowsLabel | backend/simulator/dataset/scenario_mapping.py:36-56 | the value asked for is the ramp's start moved by the labelled share of the full change, and no setter clamps it |
| LabelledRun.LabelsMatchPhysics | backend/simulator/dataset/runner.py:135-182 | at every sample of every run the target's parameter is exactly where its label says, with no offset; before the fault it is at its baseline; all other assets are labelled healthy; the target's label names its fault, its age and its severity; every label is consistent |
| LabelledRun.TargetNamesItsFault | backend/simulator/dataset/ground_truth.py:126-161 | the target's label is of its scenario's fault or corruption kind, tells the time since the fault started, and a severity that grows in proportion to it up to the configured one |
| LabelledRun.LabelsOnlyProgress | backend/simulator/dataset/ground_truth.py:126-161 | along a run activity never reverts, severity never drops, and from the end of the ramp on it is the configured severity |
| LabelledRun.RampCompletesExactly | backend/simulator/dataset/run_config.py:144-151 | the last sample carries the configured severity if and only if the rounded number of steps reaches the end of the ramp |
| LabelledRun.WholeStepsComplete | backend/simulator/dataset/runner.py:135-135 | a duration of `n` whole steps takes `n` steps |
| LabelledRun.RampMayNotComplete | backend/simulator/dataset/run_config.py:144-151 | an accepted configuration whose last sample falls short of the configured severity |
| TwinRuns.OnlyTheTargetIsDisturbed | backend/simulator/dataset/fault_effect.py:24-52 | every other asset, the target before its fault, and every machine under a sensor fault evolve exactly as in the healthy twin run |
| TwinRuns.FleetStaysInEnvelope | backend/simulator/dataset/runner.py:135-150 | every machine of every run, faulted or not, stays inside the machine envelope |
| TwinRuns.CoolingFaultHeats | backend/simulator/dataset/fault_effect.py:38-42 | with a baseline of at least 0.85 the faulted asset is at every sample at least as hot as its healthy twin, at no more pressure, and electrically identical |
| TwinRuns.CoolingFaultHeatsExactly | backend/simulator/dataset/scenario_mapping.py:25-47 | that a cooling fault never cools holds of exactly the assets with a baseline of at least 0.85 |
| TwinRuns.HydrogenFaultStarves | backend/simulator/dataset/fault_effect.py:43-45 | hydrogen flow, air flow and current are at no sample above the healthy twin's, and load, cooling, temperature and pressure are untouched |
| DatasetRunner.PlantAlphaFleet.constructor | backend/simulator/plant.py:60-78 | four machines at their baselines, the target from its overridden load and temperature |
| DatasetRunner.PlantAlphaFleet.Tick | backend/simulator/plant.py:90-93 | time and every machine advance by one step |
| DatasetRunner.PlantAlphaFleet.Operate | backend/simulator/scenarios/normal_operation.py:37-46 | the fleet ticks and every machine gets its own oscillating load setpoint |
| DatasetRunner.PlantAlphaFleet.ApplyFaultEffect | backend/simulator/dataset/fault_effect.py:24-52 | only the target's parameter changes; a healthy scenario is refused and changes nothing |
| DatasetRunner.IterSamples | backend/simulator/dataset/runner.py:54-182 | refused exactly for an asset outside the fleet; otherwise one sample per step, on the time grid, with labels faithful to the physics |
| TimeSeries.Monotonicity | backend/app/application/time_series_analysis.py:148-171 | one pass computes the share of moving steps that are aligned, with the code's defaults |
| TimeSeries.ComputeSignals | backend/app/application/time_series_analysis.py:110-145 | the signals of the specification, with both scores within 0 and 100 |
| TimeSeries.ArrivalOrderDoesNotMatter | backend/app/application/time_series_analysis.py:90-107 | permuting the observations changes nothing when timestamp and id tell them apart |
| TimeSeries.WindowsIgnoreArrivalOrderExactly | backend/app/application/time_series_analysis.py:99-107 | the analysed values are independent of the order of arrival, for every window, if and only if timestamp and id tell observations apart |
| TimeSeries.NewestAreAnalysed | backend/app/application/time_series_analysis.py:62-65 | the analysed values are those of the newest observations, as many as the window takes, oldest first; none left out is newer than one kept |
| TimeSeries.DiagnosesExactly | backend/app/application/time_series_analysis.py:99-107 | an analysis fails exactly for a window that is not positive, and has signals exactly when window and observations reach eight |
| TimeSeries.AlignmentMeans | backend/app/application/time_series_analysis.py:148-171 | the alignment times the number of steps that moved is the number that went in the direction; where none moved, or for a stable window, it is the code's default |
| TimeSeries.DirectionMeans | backend/app/application/time_series_analysis.py:110-145 | rising and falling are reported exactly for a net change of more than 1e-9 in that direction and a score of at least 55 |
| TimeSeries.VolatilityMeans | backend/app/application/time_series_analysis.py:174-190 | the volatility times the size of the rate is the spread of the steps, and it is one where the spread is larger |
| TrendVerdicts.ArrivalOrderCanMatter | backend/app/application/time_series_analysis.py:44-87 | eight observations, two with one timestamp and id, that are stable in one order of arrival and rising in the other |
| TimeSeriesLaws.MeanStepIsRate | backend/app/application/time_series_analysis.py:110-115 | the mean step, around which the volatility is measured, is the reported rate |
| TimeSeriesLaws.MisalignmentForcesVolatility | backend/app/application/time_series_analysis.py:110-190 | the misaligned share of the steps times the squared rate is at most the variance of the steps, for every directed window without steps that are non-zero and too small to count |
| TimeSeriesLaws.MissesForceVariance | backend/app/application/time_series_analysis.py:110-190 | the same for any bound on the steps that do not count |
| TrendVerdicts.TinyStepsBreakTheLink | backend/app/application/time_series_analysis.py:159-171 | a window of uncounted steps on which the law fails |
| TrendVerdicts.DirectionNeedsAlignedSteps | backend/app/application/time_series_analysis.py:110-145 | a reported direction means at least 30% of the moving steps went that way, and more than 60% at rates of at least 1e-5 |
| TrendVerdicts.MonotoneWindowsRise | backend/app/application/time_series_analysis.py:110-145 | a window that never falls is rising if and only if its net change exceeds 1e-9, and stable otherwise |
| TrendVerdicts.NegationSwapsVerdict | backend/app/application/time_series_analysis.py:110-190 | negating the values turns direction and rate around and changes nothing else |
| TrendVerdicts.OffsetChangesNothing | backend/app/application/time_series_analysis.py:110-190 | adding a constant to every value changes nothing |
| Sorting.SortSorts | backend/app/application/time_series_analysis.py:62-64 | the sort used before windowing is a permutation in key order |
| Sorting.SortIsStable | src/application/trend_detector.py:51-51 | the sort keeps the order of equal keys |
| Sorting.OrderDoesNotMatterExactly | backend/app/application/time_series_analysis.py:62-64 | the sorted sequence is independent of the input order if and only if equal keys mean equal entries |
| TrendDetector.DetectsExactly | src/application/trend_detector.py:36-58 | `detect` answers exactly the calls with two or more observations of one measurement of one asset |
| TrendDetector.ReadsByTime | src/application/trend_detector.py:36-58 | a detection reads the values of all observations by increasing timestamp, those of one instant in order of arrival |
| TrendDetector.ReportedExactly | src/application/trend_detector.py:81-100 | a direction is reported if and only if there are eight values, the halves' means differ by more than 1e-9, and that is at least 0.8 of the spread or the spread is at most 1e-9; stated without roots |
| TrendDetector.ShiftBoundedBySpread | src/application/trend_detector.py:83-96 | the squared shift is at most 2n/m times the variance, for every window |
| TrendDetector.FlatWindowsBarelyShift | src/application/trend_detector.py:91-93 | a window flat enough to skip the ratio test shifts by at most 2.2e-9 |
| TrendDetector.LargeShiftsAreReported | src/application/trend_detector.py:83-100 | a shift of at least two fifths of the window's range is always reported, in its own direction |
| TrendDetector.RampsAreReported | src/application/trend_detector.py:83-100 | every arithmetic ramp with a shift above 1e-9 is reported in the direction of its slope |
| TrendDetector.NonDecreasingNeverDecreases | src/application/trend_detector.py:83-100 | a window that never falls is never reported as decreasing |
| TrendDetector.NegationSwaps | src/application/trend_detector.py:83-100 | negating the values swaps the two directions |
| TrendDetector.OffsetChangesNothing | src/application/trend_detector.py:83-100 | adding a constant to every value changes nothing |
| Cadence.AdvancesToNextSlot | backend/simulator/__main__.py:118-127 | a due deadline moves to the first slot of its own grid strictly after the given time |
| Cadence.RunDualCadenceLoop | backend/simulator/__main__.py:237-301 | for every clock that never goes back: both deadlines stay on their grids and ahead of the clock, no publication is early, each is followed by the first slot after it finished, and every sleep ends at the first slot of either grid after it began |
| Cadence.SlotsServedInOrder | backend/simulator/__main__.py:248-301 | slots are served in order and none twice |
| Cadence.NoOverrunNoSkip | backend/simulator/__main__.py:118-127 | without overruns the `i`-th publication serves slot `i` |
| Cadence.SkippedMeansOverrun | backend/simulator/__main__.py:118-127 | a skipped slot passed while the publication before it was running |
| Sse.EncodeSse | backend/app/application/monitoring_sse_stream.py:23-28 | the joined list of lines is the type line, one line per data line, and an empty line |
| Sse.Decode | scripts/benchmark_odis/observers.py:237-248 | the decoder loop delivers one event per data line under the type in force |
| SseRoundTrip.EncodesLineByLine | backend/app/application/monitoring_sse_stream.py:23-28 | the exact text of an event of one data line, and what each further line adds to it |
| SseRoundTrip.OneEventPerDataLine | scripts/benchmark_odis/observers.py:237-248 | an event with a one-line type is decoded to one event per line of its data, stripped |
| SseRoundTrip.RoundTripExactly | backend/app/application/monitoring_sse_stream.py:23-28 | decoding an encoded event gives it back if and only if type and data are single lines without surrounding white space |
| SseRoundTrip.StreamDecodes | scripts/benchmark_odis/observers.py:237-248 | in a stream no event changes how another is read |
| SseRoundTrip.StreamRoundTripsExactly | backend/app/application/monitoring_sse_stream.py:23-28 | decoding the concatenated encodings of any events gives them back if and only if each is such an event |

## Left out

- Kafka, Redis, MQTT, HTTP and SQL clients: a publish is a nondeterministic success or failure, a commit a trace event,
  and nothing is said about which broker offsets a commit covers.
- JSON and date parsing: documents are abstract values, and an outbox payload is either readable for its type or not.
- Feature formulas, classifier and evidence: arbitrary functions of the twelve-entry windows the code hands them. The
  formulas and the classifier may raise, the evidence may not; on which readings they do is not modelled.
- Interpreter limits beyond decoding, such as running out of memory or of recursion while a rejected value is rendered.
- Floating-point rounding: all arithmetic is over exact reals; `round(x, 4)` and `round(x, 6)` of observations are not
  modelled, and timestamps are integers.
- Observation noise and derived telemetry: a dataset sample holds the machine states, the sensor biases and the labels
  from which observations are built, not the observations.
- Fields of a pending sample: values, units and event ids are one map of readings per slot instead of three
  dictionaries, and a sweep drops a buffer's expired samples in one pass.
- Batches by partition: a poll's messages are one sequence in the order they are visited.
- Run ids are pairs of scenario and index, and run templates are not resolved into full configurations; the shuffle is an
  arbitrary permutation, and strata are visited in an arbitrary order.
- `FaultInferenceManager.reset()` without an asset, the coolant flow of a machine snapshot, gauges, metrics, logging and
  summaries in words.
- Starvation away from equilibrium current or with a changing load: `Starvation` compares twins at steady load.
- Handlers on the event bus: a raising handler is one log entry, whichever of them ran before it.
- Worker.PublishThenCommit: does not promise that every assembled sample's result is eventually published, because the
  worker stops at the first failed outcome after the assembler has already advanced.
- The Kafka publish loop, the SSE generator and its heartbeats, and chunk boundaries of the HTTP line iterator.
- Reasoning job queue, digital twin cache, operational-state and recommendation tables, investigations, manifests,
  exports, migrations and the frontend: finite tables or code without state worth a theorem here.
