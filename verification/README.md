# A verified model of the OCPP bridge's store and streams

The bridge connects OCPP charging stations to other systems. Two things in it are hard to get right:
a durable store that racing writers update, and byte-stream machines that must behave the same
however their input is cut. This project models both in Dafny and proves what they keep over every
run and every input.

- **Durable command results** (`CommandResult`, `KeyedUnion`, `TriggerObservation201`,
  `TriggerEvidence201`, `DeviceReports201`, `ChargingProfiles201`, `ResultMerge`, `ResultRuns`,
  `WriteOutcome`, `Fingerprint`, `CommandStore`). One result row is rewritten by stale writers, late replies, report finishers,
  trigger reconciliation and startup interruption. `ResultRuns` treats every writer as a step on a
  row and proves what any interleaving keeps; `CommandStore` lifts this to the tables, where
  admission, pruning and startup also act.
- **Outbox, retention budget and dispositions** (`Sequences`, `Outbox`, `OutboxCapacity`,
  `OutboxDelivery`, `OutboxDispositions`, `OutboxStreams`, `OutboxOutcomes`, `OutboxStore`). Writes, retention passes,
  delivery reports, operator authorisations and settlements are steps on one set of tables.
- **Stream machines** (`InboundGuard`, `SseParser`, `SseWire`, `LargeIntegers`, `Multipart`). Each incremental
  loop is proved against a specification that sees the whole input at once.
- **Ledgers and paging** (`HistoryCursor`, `CommandHistory`, `HistoryOfStore`, `JobLedger`, `JobRuns`,
  `JobOutcomes`, `JobStore`).
  Revisions, in-flight ownership and the release inventory of the job ledgers, and keyset paging that
  stays exact while rows come and go.

`Common` and `Decimal` hold what several of these share.

A table is a sequence in row-id order or a map by primary key, a transaction is one step, and a
refused step changes nothing. Where the source changes tables or fields in place the project has a
class (`CommandTables`, `OutboxTables`, `Guarded`, `Parser`, `Collector`, `JobTables`) whose methods
are proved equal to the specification functions the theorems are about. Serialisation and the digests
of commands and job ids are injective, so a value stands for its encoding; history cursors carry real
digests, and the theorems say where they must not collide. A serialised size is the sum of per-part
sizes. Times are integers. Payload evidence the merge rules never look into is a natural number.

## Findings

- A stored complete device-model report can be lost: a later write that makes the whole result
  exceed the output bound replaces it by an incomplete one. `CompleteReportKeptExactlyWhenResultFits`
  gives the exact condition, `LateEffectCanDropCompleteReport` an input.
- Startup interruption overwrites an already ended device report if an installed-profile report is
  pending in the same result; `InterruptKeepsEndedReportIff` is exact and
  `InterruptionCanHidePendingReport` an input.
- The same interruption clears the report-pending column while the profile report stays pending, so
  the column no longer says what the payload says and pruning may drop the command. Nothing refuses a
  result that carries both reports. `StepKeepsColumns`, `ColumnsAgreeOverRunsIff` and
  `InterruptKeepsInvariantIff` give the exact condition for a step, a run and the tables,
  `InterruptionCanHidePendingReport` and `PruneCanDropPendingReport` an input.
- The trigger merge identifies events by id: if a first write stores two events under one id, a later
  writer that carries one of them drops the other. `ObservedKeptExactlyWhenCoherent` is exact,
  `AmbiguousIdLosesEvent` an input.
- `attempt_count` equals the stored attempts exactly when the delivery id had no stored attempts at
  enqueue (`CounterExactUnlessIdReused`), as in every run that enqueues no id twice
  (`CounterExactWhenIdsWrittenOnce`); `ReusedIdCountsLess` shows the other case.
- The query for one trigger target reads 128 rows, so an expectation with that many recorded events can
  miss an unrecorded one (`RowLimitCanHideEvent`). `CreditServesExactly` is exact; evidence that only
  reconciliation has touched never gets there (`AttributedServed`).
- A late rejection without trigger evidence drops the stored OCPP 1.6 trigger evidence of an answered
  command, while the response stays (`LateRejectionDropsTrigger16`); `Trigger16KeptIff` is exact.
- Attempt and archive rows are written without a budget test, so they use up the completion reserve:
  a completion within the reserve can be refused (`CompletionWithinReserveCanBeRefused`). It is
  admitted exactly when it fits beside everything that cannot be shed
  (`AdmittedExactlyWhenFirmUsageFits`, and `RetriesUseUpReserve` after any number of retries);
  `CompletionsWithinReserveAreAdmitted` therefore counts those rows.
- Saving a job keeps the release inventory exact unless it reopens a resolved job, and then never
  (`SaveKeepsInventoryExactlyUnlessReopened`). No transition of the store reopens one.
- The drain's start and finish operations take any id, also that of a firmware or diagnostics job, and
  then the inventory stops matching the unresolved jobs. `StepKeepsSoundIff` is exact,
  `FinishReleaseCanForgetJob` an input.

## Model

| member | source | states |
|---|---|---|
| `KeyedUnion.AppendMissingKeys` | adapters/storage/src/command.rs:122-130 | the writer's own evidence comes first and whole, and the identities after the merge are the union of both sides |
| `KeyedUnion.AppendMissingOrigin` | adapters/storage/src/command.rs:122-130 | nothing is invented, and an older item is added only if it has no namesake |
| `KeyedUnion.AppendMissingComplete` | adapters/storage/src/command.rs:122-130 | when equal identities mean equal items, no item of either side is lost |
| `KeyedUnion.PushMissing` | adapters/storage/src/command.rs:122-130 | the push loop computes that union |
| `TriggerObservation201.ObservedNeedsDistinctEvidence` | crates/contracts/src/trigger201.rs:157-220 | the status becomes observed only with an accepted reply and a different event for every expected target |
| `TriggerObservation201.MergeKeepsObservation` | adapters/storage/src/trigger201.rs:18-90 | a writer never touches the observed set of stored evidence whose ids are unambiguous, whatever the writer carries, and after a native reply can neither drop nor change expectation or reply; it retires the expectation only from dispatched to rejected |
| `TriggerObservation201.ObservedKeptExactlyWhenCoherent` | adapters/storage/src/trigger201.rs:18-90 | every accepted writer keeps the observed set if and only if equal event ids mean equal stored events, or there are too many events for any writer to be accepted |
| `TriggerObservation201.NamesakeIsDropped` | adapters/storage/src/trigger201.rs:18-90 | of two stored events with one id, a writer that carries only the first makes the second disappear |
| `TriggerObservation201.CreditExtends` | adapters/storage/src/trigger201.rs:118-221 | crediting a target adds at most one event, inside the window, with a new target and a new event id; `TriggerEvidence201.CreditServesExactly` says when it adds one |
| `TriggerObservation201.ReconcileExtends` | adapters/storage/src/trigger201.rs:118-221 | reconciliation keeps expectation and reply and only appends events: inside the window, one per target, none repeated; `TriggerEvidence201.EveryTargetServed` says what it must append |
| `TriggerObservation201.ReconcileTargets` | adapters/storage/src/trigger201.rs:118-221 | the loop over targets with its receipt step computes the reconciliation that the `TriggerEvidence201` rows describe, or fails with it |
| `TriggerObservation201.LimitHidesNothing` | adapters/storage/src/trigger201.rs:251-357 | while at most 66 events are recorded, the bounded candidate query finds no event exactly when every matching journal event is already recorded |
| `TriggerEvidence201.EveryTargetServed` | adapters/storage/src/trigger201.rs:160-211 | after a reconciliation every expected target has an event, or every station event of that class, window, origin and place in the journal is already recorded by id; so does the station for the receipt of a scoped certificate; only 128 recorded events can make it miss one |
| `TriggerEvidence201.AttributedServed` | adapters/storage/src/trigger201.rs:160-211 | evidence with one event per expected target or station, as reconciliation itself leaves it, stays that way and never misses a target |
| `TriggerEvidence201.SmallExpectationServed` | adapters/storage/src/trigger201.rs:160-211 | nor does one whose recorded events and targets are fewer than 127 together |
| `TriggerEvidence201.CreditServesExactly` | adapters/storage/src/trigger201.rs:274-357 | a target is served if and only if it has an event, one of the first 128 eligible rows is not recorded, or all eligible rows are |
| `TriggerEvidence201.RowLimitCanHideEvent` | adapters/storage/src/trigger201.rs:290 | 65 targets and 66 events recorded for other places: the query for an EVSE reads 128 recorded rows and misses an unrecorded one |
| `TriggerEvidence201.RecordsOnlyEligible` | adapters/storage/src/trigger201.rs:251-357 | every event a reconciliation adds is the first unrecorded eligible journal row of an expected target, or of the station for a scoped certificate, with its id and time |
| `TriggerEvidence201.StatusMeaning` | crates/contracts/src/trigger201.rs:157-220 | each of the six statuses holds if and only if reply, deadline, station receipt and the targets with events of their own say so |
| `TriggerEvidence201.ReconcileVerdict` | adapters/storage/src/trigger201.rs:160-221 | only events and status move; changed means they did, and finalised means the deadline passed or everything was observed |
| `TriggerEvidence201.RefusedExactlyWhenMalformed` | adapters/storage/src/trigger201.rs:148-154 | against a consistent journal only an expectation with no target, more than 65, more than 66 events or a reversed window is refused |
| `DeviceReports201.WriteSettles` | adapters/storage/src/device_model201.rs:43-137 | after merge and finalisation a complete report has an accepted acknowledgement and is unchanged, an ended report keeps its reason unless a first empty acknowledgement retires it, and missing progress is filled at most once |
| `DeviceReports201.FinalizeSettles` | adapters/storage/src/device_model201.rs:93-137 | finalisation alone settles a first write and is idempotent |
| `DeviceReports201.FinalizedReport` | adapters/storage/src/device_model201.rs:93-137 | for every acknowledgement and, without one, every lifecycle: which reason ends the report, with which progress, and when it stays |
| `DeviceReports201.MergedReportMeaning` | adapters/storage/src/device_model201.rs:60-90 | only a pending report takes the writer's; a failure without progress and with one of six reasons at most learns the writer's progress; any other ended report stays |
| `DeviceReports201.FollowsTransitive` | adapters/storage/src/device_model201.rs:43-137 | the allowed moves compose, so a bound on one write is a bound on any number of them |
| `DeviceReports201.InterruptEnds` | adapters/storage/src/device_model201.rs:178-213 | startup ends a pending report for good and invents no progress |
| `DeviceReports201.EarlyReportHeld` | adapters/storage/src/device_model201/staging.rs:10-107 | a report that completes before its acknowledgement is held back unchanged |
| `DeviceReports201.AcknowledgementReleasesHeld` | adapters/storage/src/device_model201/staging.rs:10-107 | the acknowledgement then releases exactly that report and nothing stays staged |
| `DeviceReports201.PreparedReport` | adapters/storage/src/device_model201/staging.rs:10-107 | for every report, acknowledgement, lifecycle and staged report: what a finisher of a pending report writes and what stays staged |
| `DeviceReports201.PreparedAfterEnd` | adapters/storage/src/device_model201/staging.rs:10-107 | on an ended report the preparation changes nothing about what the merge stores |
| `DeviceReports201.PrepareRefusedExactly` | adapters/storage/src/device_model201/staging.rs:10-107 | preparation is refused if and only if query or acknowledgement changed or an early report is too large to hold |
| `ChargingProfiles201.WriteFollows` | adapters/storage/src/charging_profiles201.rs:24-96 | a write keeps query and acknowledgement and freezes an ended report |
| `ChargingProfiles201.WrittenReportMeaning` | adapters/storage/src/charging_profiles201.rs:24-96 | only a pending report takes the writer's, and only a complete one over a mebibyte is given up, keeping its progress |
| `ChargingProfiles201.InterruptFollows` | adapters/storage/src/charging_profiles201.rs:106-118 | startup ends a pending report and changes nothing else |
| `ResultRuns.StepSettles` | adapters/storage/src/command.rs:102-240 | one step of any writer never lowers the lifecycle rank; job evidence keeps its request, offer and reply and a reservation its action and native status; and a terminal lifecycle is frozen with its replies and with all job evidence up to the job itself, unless the new result carries evidence that correlates a late response |
| `ResultRuns.ConsideredKept` | adapters/storage/src/command.rs:175-206 | merging keeps stored job and reservation evidence, and restoring it after a stale writer freezes the job evidence of all four families up to the job |
| `ResultRuns.LifecycleSettlesOverRuns` | adapters/storage/src/command.rs:102-216 | between any two points of any run the rank never falls, job and reservation replies stay, and a terminal lifecycle is frozen with its replies, job evidence and reservation status; if it changed, it went from uncertain to a protocol response in one step of the run on correlating evidence, and was frozen before and after that step |
| `ResultRuns.TerminalChangesAtMostOnce` | adapters/storage/src/command.rs:133-163 | a terminal lifecycle is replaced at most once in any run, and never a response or a rejection |
| `ResultRuns.UpgradeIsCorrelated` | adapters/storage/src/command.rs:135-163 | finds that step: the only one that changed a terminal lifecycle, with the evidence that correlates the response; that such evidence does replace it is `WriteOutcome.WriteStores` |
| `ResultRuns.EvidenceIsUnionOverRuns` | adapters/storage/src/command.rs:122-216 | over any run the stored effect ids and read ids are the union of what every successful writer brought |
| `ResultRuns.StepKeepsColumns` | adapters/storage/src/device_model201.rs:178-213 | any step leaves the report-pending column agreeing with the payload if and only if it is not an interruption of a row with a pending profile report beside device evidence |
| `ResultRuns.ColumnsAgreeOverRunsIff` | adapters/storage/src/command.rs:242-278 | along any run, whoever writes, the column agrees throughout if and only if no interruption meets such a row |
| `ResultRuns.InterruptionCanHidePendingReport` | adapters/storage/src/device_model201.rs:194-203 | one write and one interruption: an ended device report is overwritten, the column is cleared and the profile report stays pending |
| `ResultRuns.StepFollowsReport` | adapters/storage/src/device_model201.rs:43-213 | any step of any writer moves a report query only as one write may, if and only if it is not an interruption that overwrites an ended report |
| `ResultRuns.ReportFollowsOverRuns` | adapters/storage/src/device_model201.rs:43-213 | over any run of any writers, finishers and interruptions that overwrites no ended report, a report moves only as one write may move it |
| `ResultRuns.OneReportIsNeverOverwritten` | adapters/storage/src/device_model201.rs:178-213 | where no interruption meets a pending profile report beside device evidence, none overwrites an ended report |
| `ResultRuns.CompleteReportKeptExactlyWhenResultFits` | adapters/storage/src/device_model201/output.rs:35-55 | whatever the writer carries, a stored complete report survives a write if and only if the merged result fits the output bound |
| `ResultRuns.LateEffectCanDropCompleteReport` | adapters/storage/src/device_model201/output.rs:35-55 | two writes, the second with one late effect, store and then lose a complete report at the bound |
| `ResultRuns.InterruptKeepsEndedReportIff` | adapters/storage/src/device_model201.rs:178-213 | an ended report survives startup if and only if no profile report is pending beside it |
| `ResultRuns.ProfilesFollowOverRuns` | adapters/storage/src/charging_profiles201.rs:24-152 | over any run of any writers profile evidence keeps its acknowledgement and its ended report |
| `ResultRuns.TriggerKeptOverRuns` | adapters/storage/src/trigger201.rs:18-221 | over any run of any writers a replied expectation with unambiguous events is fixed with its reply, and its observed set only grows, inside the window and by one event per target |
| `ResultRuns.RetiredStaysRetired` | adapters/storage/src/trigger201.rs:18-90 | over any run an expectation retired by a rejection is never revived and the active flag never returns |
| `ResultRuns.CoherentOverRuns` | adapters/storage/src/trigger201.rs:18-221 | events stay unambiguous as long as every write that introduces an expectation names each event once |
| `ResultRuns.AmbiguousIdLosesEvent` | adapters/storage/src/trigger201.rs:18-90 | an expectation introduced with one id for two events loses one of them to the next writer |
| `ResultRuns.OnlyReconciliationObserves` | adapters/storage/src/trigger201.rs:118-221 | a run of any writers without reconciliation leaves that observed set alone |
| `ResultRuns.RetirementIsTerminal` | adapters/storage/src/command.rs:77-278 | a write that drops an expectation stores a rejection and ends its reconciliation |
| `WriteOutcome.WriteStores` | adapters/storage/src/command.rs:102-216 | a successful write over a stored row, field by field in terms of row and writer: over an unpinned terminal row lifecycle, time and replies become the writer's if and only if the stored transmission is uncertain, the writer brings a protocol response, and row or writer holds a trigger reply or a reservation status; jobs, reservations, schema and the active flag follow |
| `WriteOutcome.OverruledUnlessStands` | adapters/storage/src/command.rs:133-163 | the lifecycle rule overrules a writer if and only if that condition fails |
| `WriteOutcome.WriteStoresTrigger` | adapters/storage/src/trigger201.rs:18-90 | what becomes of the 2.0.1 trigger evidence, with the time its status is worked out for |
| `WriteOutcome.MergeRefusedExactlyOnConflict` | adapters/storage/src/command.rs:104-121 | the merge is refused if and only if route, resource or the evidence of some family contradicts the stored one, spelled out for every family |
| `WriteOutcome.WriteAcceptedIff` | adapters/storage/src/command.rs:77-240 | a write goes through if and only if the other validations accept, nothing conflicts and the merged result can be stored |
| `WriteOutcome.FinishRefusedExactlyUnlessStorable` | adapters/storage/src/command.rs:225-239 | the closing checks refuse if and only if the result is too large without its device report, or profile or list evidence is out of place |
| `WriteOutcome.FirstWriteStores` | adapters/storage/src/command.rs:216-240 | a first write stores the writer as it is, but for trigger status and reports |
| `WriteOutcome.Trigger16KeptIff` | adapters/storage/src/trigger.rs:27-81 | stored 1.6 trigger evidence survives a write if and only if the writer is no rejection without evidence; expectation and reply then stay |
| `WriteOutcome.LateRejectionDropsTrigger16` | adapters/storage/src/trigger.rs:34-38 | two writes: an answered command keeps its response and loses its trigger evidence to a late rejection |
| `WriteOutcome.FinishDeviceOutcome` | adapters/storage/src/device_model201.rs:139-174 | when finishing a device report writes, what it hands to the writer, and when it leaves the row alone |
| `WriteOutcome.FinishProfilesOutcome` | adapters/storage/src/charging_profiles201.rs:120-152 | when finishing a profile report writes, is ignored or is refused, and which lifecycle it records |
| `WriteOutcome.InterruptedOutcome` | adapters/storage/src/device_model201.rs:178-213 | what startup makes of a row marked pending, and that it leaves every other row alone |
| `WriteOutcome.AppendedExactlyWhenNew` | adapters/storage/src/worker/configuration.rs:7-60 | an observation is appended if and only if it is new, belongs to a recorded configuration write and fewer than 128 are there |
| `WriteOutcome.ReconciledRow` | adapters/storage/src/trigger201.rs:118-221 | reconciling an awaited row records what the journal has, keeps it awaited until deadline or completion, and changes nothing else |
| `WriteOutcome.SyncTouchesOneFamily` | adapters/storage/src/diagnostics16/transitions.rs:165-193 | a job or reservation is mirrored into its own family's evidence and nowhere else |
| `Fingerprint.NormalFormsAgree` | adapters/storage/src/codec.rs:299-312 | two values have one normal form if and only if they are equal up to member order |
| `Fingerprint.NormalIdempotent` | adapters/storage/src/codec.rs:299-312 | normalising twice is normalising once |
| `Fingerprint.NormalKeepsArrayOrder` | adapters/storage/src/codec.rs:299-312 | arrays keep length and order |
| `Fingerprint.FingerprintsAgree` | adapters/storage/src/codec.rs:271-297 | two payloads have one fingerprint if and only if they are the same command up to member order, request id and admission time |
| `Fingerprint.SameCommandMeaning` | adapters/storage/src/codec.rs:271-297 | the same command means: every member but request id and admission time has a twin of the same name and value on the other side |
| `Fingerprint.LessMeaning` | adapters/storage/src/codec.rs:299-312 | texts are ordered by their first difference, a prefix first |
| `Fingerprint.SortJson` | adapters/storage/src/codec.rs:299-312 | the recursive rewrite, ordering entries before children, yields the normal form |
| `Fingerprint.SortCommutes` | adapters/storage/src/codec.rs:299-312 | ordering first and rewriting children after gives the same object |
| `CommandStore.EncodeCommand` | adapters/storage/src/codec.rs:245-269 | a command is encoded if and only if its payload is an object and its admission time plus seven days does not overflow; it is then retained for exactly that long |
| `CommandStore.AdmissionDeduplicates` | adapters/storage/src/command.rs:11-66 | for a retained request id the answer is duplicate, with the stored result, if and only if it is the same command, and a conflict otherwise |
| `CommandStore.ApplyKeepsInvariant` | adapters/storage/src/command.rs:242-278 | a result step keeps both index columns agreeing with the payloads if and only if an accepted result is for an admitted command and an interruption meets no pending profile report beside device evidence |
| `CommandStore.ColumnsAgreeInEveryReachableState` | adapters/storage/src/command.rs:242-278 | the columns agree with the payloads in every state of a run of the store if and only if every accepted result is for an admitted command, every new command is properly encoded and no interruption meets a pending profile report beside device evidence |
| `CommandStore.InterruptKeepsInvariantIff` | adapters/storage/src/device_model201.rs:178-213 | startup is never refused and empties the pending index; the index is right afterwards if and only if no row had a pending profile report beside device evidence |
| `CommandStore.OneFamilyRunsAreRespectful` | adapters/storage/src/device_model201.rs:178-213 | runs whose commands report through one family each never interrupt such a row |
| `CommandStore.PruneCanDropPendingReport` | adapters/storage/src/command.rs:349-388 | admission, one write, startup and pruning drop a command whose result still has a pending report |
| `CommandStore.PruneDropsExactlyDisposable` | adapters/storage/src/command.rs:349-388 | pruning drops a command if and only if it is expired, resolved and has no pending report, and then its result too |
| `CommandStore.AdmittedOnceBeforeRetentionEnds` | adapters/storage/src/command.rs:11-66 | until its retention ends an admitted request stays stored and is never newly admitted again |
| `CommandStore.RunProjects` | adapters/storage/src/command.rs:77-278 | while a command is retained its row moves exactly by its own writers and the interruptions, so every row theorem holds in the store |
| `CommandStore.StoredLifecycleSettles` | adapters/storage/src/command.rs:102-216 | in every run of the store a retained command's lifecycle only settles further, its reply, job and reservation evidence included |
| `CommandStore.CommandTables.AdmitCommand` | adapters/storage/src/command.rs:11-66 | the statements of admission realise the specified answer and tables |
| `CommandStore.CommandTables.MergeWithStored` | adapters/storage/src/command.rs:102-216 | the field-by-field merge with its two push loops is the merge that the `WriteOutcome` rows spell out |
| `CommandStore.CommandTables.WriteResultValue` | adapters/storage/src/command.rs:77-240 | a write is the step that the `WriteOutcome` rows spell out, or leaves the tables unchanged |
| `CommandStore.CommandTables.PersistResult` | adapters/storage/src/command.rs:242-278 | the row and the unresolved column are written together |
| `CommandStore.CommandTables.FinishDeviceReport` | adapters/storage/src/device_model201.rs:139-174 | finishing a report is the specified step, staged report and refusal included |
| `CommandStore.CommandTables.FinishChargingProfiles` | adapters/storage/src/charging_profiles201.rs:120-152 | finishing a profile report is the specified step, refusal included |
| `CommandStore.CommandTables.ReconcileTrigger` | adapters/storage/src/trigger201.rs:118-221 | reconciling one stored expectation is the step that `WriteOutcome.ReconciledRow` and the `TriggerEvidence201` rows describe, refusal included |
| `CommandStore.CommandTables.InterruptPending` | adapters/storage/src/device_model201.rs:178-213 | the startup loop interrupts exactly the rows marked pending, or is refused, exactly when one of them has no report at all |
| `CommandStore.CommandTables.PruneCommands` | adapters/storage/src/command.rs:349-388 | the pruning statements realise the specified tables |
| `OutboxCapacity.WriterMeasureIsQueryMeasure` | adapters/storage/src/retention.rs:246-309 | what the writer charges for a row is what the measuring query finds |
| `OutboxCapacity.SheddingLeavesFirm` | adapters/storage/src/retention.rs:162-172 | after shedding, measured usage is exactly the usage that cannot be shed |
| `OutboxCapacity.FittingDeliveriesBytes` | adapters/storage/src/retention.rs:191-207 | trimming keeps every critical row, stays within the room and accounts for every row dropped |
| `OutboxCapacity.AdmittedExactlyWhenFirmUsageFits` | adapters/storage/src/retention.rs:61-90 | a write with critical data or a new session is admitted if and only if it fits beside what cannot be shed; any other write always is |
| `OutboxCapacity.UsageWithinLimit` | adapters/storage/src/retention.rs:61-90 | afterwards measured usage is within the write's limit, and firm usage grew by exactly its critical bytes |
| `OutboxCapacity.CompletionsWithinReserveAreAdmitted` | adapters/storage/src/retention.rs:61-90 | after any run a completion is admitted as long as it and everything spent outside the start limit stay within the reserve |
| `OutboxCapacity.ReserveServesCompletions` | adapters/storage/src/retention.rs:61-134 | in any run of writes and retention passes, completions totalling at most the reserve are never refused |
| `OutboxCapacity.RetriesUseUpReserve` | adapters/storage/src/delivery.rs:74-128 | after any number of retries of a live delivery a completion is admitted if and only if it fits beside what was firm and the attempt rows |
| `OutboxCapacity.CompletionWithinReserveCanBeRefused` | adapters/storage/src/retention.rs:61-90 | one routine write and two retries leave no room for the first completion, although it is within the reserve |
| `OutboxDelivery.StepKeepsSound` | adapters/storage/src/worker/write.rs:159-182 | every step keeps rows in enqueue order under fresh stamps and delivery ids unique |
| `OutboxDelivery.CriticalLeavesOnlyWhenRemoved` | adapters/storage/src/delivery.rs:74-128 | a critical delivery survives any step that neither records a final attempt for it nor executes a disposition of its exact destination |
| `OutboxDelivery.CriticalAccountedFor` | adapters/storage/src/target_disposition.rs:241-285 | over any run a critical delivery is still there, or one step recorded its final attempt or executed a disposition of its destination, archiving it if so ordered |
| `OutboxDelivery.GoneStaysGone` | adapters/storage/src/delivery.rs:74-128 | a delivery that left never returns |
| `OutboxDelivery.EventOutlivesDelivery` | adapters/storage/src/retention.rs:100-110 | the journal event of a delivery is never pruned while the delivery is pending |
| `OutboxDelivery.OffersExactlyDueHeads` | adapters/storage/src/delivery.rs:17-31 | only due heads are offered, in row order and one per lane, and below the limit all of them |
| `OutboxDelivery.HeadStaysUntilRemoved` | adapters/storage/src/delivery.rs:17-31 | a head of its lane stays the head until it is removed |
| `OutboxDelivery.LaneFinishesInOrder` | adapters/storage/src/delivery.rs:74-128 | in every run, final outcomes recorded for heads of a lane follow enqueue order |
| `OutboxDelivery.OfferedIsHeadWhenReported` | adapters/storage/src/delivery.rs:17-31 | a delivery offered earlier in the run and still live is the row its id reports for, and heads its lane |
| `OutboxDelivery.OfferedFinishInOrder` | adapters/storage/src/delivery.rs:74-128 | once an offered delivery is finished, every delivery its lane holds at any later point was enqueued after it |
| `OutboxDelivery.CounterExactUnlessIdReused` | adapters/storage/src/delivery.rs:96-127 | in every reachable state the attempt counter equals the stored attempts if and only if the id had none at enqueue, despite attempt pruning |
| `OutboxDelivery.ReusedIdCountsLess` | adapters/storage/src/delivery.rs:96-127 | an id finished and enqueued again starts below its stored attempts |
| `OutboxDelivery.CounterExactWhenIdsWrittenOnce` | adapters/storage/src/delivery.rs:96-127 | in any run whose successful writes bring no delivery id twice, the counter of every live delivery equals its stored attempts |
| `OutboxDelivery.PruningKeepsCounts` | adapters/storage/src/retention.rs:111-121 | a retention pass drops no attempt of a pending delivery |
| `OutboxDispositions.OrderlyInEveryReachableState` | adapters/storage/src/target_disposition.rs:129-205 | in every reachable state at most one disposition per destination and at most the cap overall are authorised, and audit ids are unique |
| `OutboxDispositions.SettlingIsExact` | adapters/storage/src/target_disposition.rs:207-334 | settling leaves none authorised; each ends with the counts of the state it started from, exactly the doomed rows go, and archive rows are appended in order |
| `OutboxDispositions.SelectedKeepsOthersLose` | adapters/storage/src/target_disposition.rs:207-285 | the selected or unauthorised destination keeps every delivery, any other authorised one loses every delivery |
| `OutboxStreams.PruningStaysExact` | adapters/storage/src/retention.rs:174-189 | after any removal the moved prefix is exactly the longest fully lost prefix of its stream |
| `OutboxStreams.InsertionStaysExact` | adapters/storage/src/worker/write.rs:184-210 | an insertion takes the next position and keeps the prefix exact |
| `OutboxStreams.LongestIsUnique` | adapters/storage/src/retention.rs:173-189 | the longest lost prefix is determined by what is retained |
| `OutboxStreams.StreamsExactOverRuns` | adapters/storage/src/retention.rs:122-189 | in every reachable state positions lie above the expired prefix and at most at the high-water mark, the prefix is exact, and neither mark moves back |
| `OutboxStreams.EmptyStoreIsSound` | adapters/storage/src/schema.rs:320-325 | the empty store meets what the run theorems start from |
| `OutboxOutcomes.RetentionDropsExactlyExpired` | adapters/storage/src/retention.rs:100-133 | after a retention pass an event is there if and only if it was and has no time, a time after now, or a queued delivery; an attempt likewise by its delivery, a record by its time alone; order is kept, and the two counters grew by the rows gone |
| `OutboxOutcomes.RetentionFrame` | adapters/storage/src/retention.rs:92-134 | a retention pass touches nothing else |
| `OutboxOutcomes.ReportOutcome` | adapters/storage/src/delivery.rs:74-128 | a report is refused if and only if nothing is queued under its id; otherwise its row is last, a final outcome takes exactly that delivery out, and a retry counts it and sets its time in place |
| `OutboxOutcomes.RetryIsOfferedFromItsTime` | adapters/storage/src/delivery.rs:118-126 | whatever runs in between short of another report for it, a delivery reported for retry is not offered before its time, and from then on is offered when it leads its lane and the limit allows |
| `OutboxOutcomes.OffersWaitingInOrder` | adapters/storage/src/delivery.rs:17-31 | offers are the due deliveries of the destination that nothing in their lane precedes, in row order, cut off at the limit |
| `OutboxOutcomes.GrantedExactlyWhenEligible` | adapters/storage/src/target_disposition.rs:129-205 | an authorisation is granted if and only if a critical delivery waits, none is pending for the destination, fewer than 64 are pending and the audit id is new; it is then the last row with its destination, action and principal |
| `OutboxOutcomes.SettlingTakesGivenUp` | adapters/storage/src/target_disposition.rs:207-285 | settling takes exactly the deliveries of authorised destinations that were not selected |
| `OutboxOutcomes.SettledState` | adapters/storage/src/target_disposition.rs:207-334 | a disposition ends superseded if its destination was selected, otherwise with the exact numbers of critical and of all rows |
| `OutboxOutcomes.RefusedExactlyWhenFull` | adapters/storage/src/retention.rs:61-84 | a write is refused for capacity if and only if it carries critical rows or opens a session and does not fit beside what cannot be shed, up to the budget for a completion and the budget without the reserve otherwise |
| `OutboxOutcomes.ShedExactlyWhenShort` | adapters/storage/src/retention.rs:73-76 | best-effort rows are shed if and only if such a write would not fit beside them |
| `OutboxOutcomes.ShedKeepsExactlyCritical` | adapters/storage/src/retention.rs:162-172 | shedding keeps exactly the critical rows, in order, and counts the others |
| `OutboxOutcomes.DeliveriesTakenInOrder` | adapters/storage/src/retention.rs:191-207 | one more delivery is kept if it is critical, or if it fits into what the ones before it left, which it then uses up; otherwise it is dropped and counted |
| `OutboxOutcomes.RecordsTakenInOrder` | adapters/storage/src/retention.rs:209-225 | the same for records |
| `OutboxOutcomes.TrimmingCounts` | adapters/storage/src/retention.rs:85-89 | every row a write gives up is counted |
| `OutboxOutcomes.WriteQueues` | adapters/storage/src/worker/write.rs:142-182 | an admitted write appends its events and queues the deliveries it kept, without attempts and due at once |
| `OutboxOutcomes.RecordStored` | adapters/storage/src/worker/write.rs:184-210 | a record takes the next position of its own stream, unless its id is there or the stream is at its end |
| `OutboxOutcomes.WriteRefusedExactly` | adapters/storage/src/worker/write.rs:142-210 | an admitted write is refused if and only if an event, a kept delivery or a kept record is already there or repeated, or a stream would overflow |
| `OutboxOutcomes.ReportCharges` | adapters/storage/src/retention.rs:246-309 | a report adds exactly its row to measured usage, and a final one gives back its delivery |
| `OutboxOutcomes.ArchivedCharge` | adapters/storage/src/retention.rs:246-309 | an archived delivery is charged with what it was charged with before, its audit id and its time |
| `OutboxStore.RetainFittingDeliveries` | adapters/storage/src/retention.rs:191-207 | the loop keeps exactly the specified deliveries, room and drop count |
| `OutboxStore.RetainFittingRecords` | adapters/storage/src/retention.rs:209-225 | the loop keeps exactly the specified records, room and drop count |
| `OutboxStore.OutboxTables.ShedExistingBestEffort` | adapters/storage/src/retention.rs:162-172 | shedding in place is the specified shedding, with its counters and prefixes |
| `OutboxStore.OutboxTables.MoveSourcePrefix` | adapters/storage/src/retention.rs:174-189 | the update statement moves both prefixes as specified |
| `OutboxStore.OutboxTables.Prepare` | adapters/storage/src/retention.rs:61-90 | preparation sheds, refuses or trims as specified |
| `OutboxStore.OutboxTables.WriteAll` | adapters/storage/src/worker/write.rs:11-104 | a write happens whole, as specified, or leaves every table unchanged |
| `OutboxStore.OutboxTables.RunRetention` | adapters/storage/src/retention.rs:92-134 | the deletes of a retention pass are the pass that `OutboxOutcomes.RetentionDropsExactlyExpired` describes |
| `OutboxStore.OutboxTables.Report` | adapters/storage/src/delivery.rs:74-128 | recording an attempt is the specified step, and an unknown delivery changes nothing |
| `OutboxStore.OutboxTables.AuthorizeDisposition` | adapters/storage/src/target_disposition.rs:129-205 | authorisation is the specified step with the specified errors |
| `OutboxStore.OutboxTables.ExecuteDisposition` | adapters/storage/src/target_disposition.rs:241-285 | execution counts, archives and deletes as specified |
| `OutboxStore.OutboxTables.SettleDispositions` | adapters/storage/src/target_disposition.rs:207-239 | the settlement loop is the specified settlement |
| `InboundGuard.AdmitResumes` | adapters/export-postgresql/src/inbound.rs:64-142 | parsing is incremental: only the tail of what came before matters, for every cut of the stream |
| `InboundGuard.AdmitIsMonotone` | adapters/export-postgresql/src/inbound.rs:57-71 | nothing passed is taken back and a refusal is final |
| `InboundGuard.AdmitsAPrefix` | adapters/export-postgresql/src/inbound.rs:64-142 | what passes is a prefix; unless a frame is refused only an incomplete header is withheld |
| `InboundGuard.FramesCoverAdmitted` | adapters/export-postgresql/src/inbound.rs:96-107 | the passed bytes are whole frames, save the last, and every frame is at most one mebibyte |
| `InboundGuard.ResponsesBounded` | adapters/export-postgresql/src/inbound.rs:96-107 | between completed ReadyForQuery frames the declared bytes are at most two mebibytes |
| `InboundGuard.ConformingFramesPass` | adapters/export-postgresql/src/inbound.rs:96-142 | frames whose header is within the limits pass whole, whatever follows them; `MessagesPass` states it for frames as they are written |
| `InboundGuard.MessagesPass` | adapters/export-postgresql/src/inbound.rs:96-142 | any list of messages, each a kind byte, four length bytes most significant first and a body, passes whole before any continuation, as long as each is within a mebibyte and each response within two; the count restarts after a ReadyForQuery message |
| `InboundGuard.MessagePasses` | adapters/export-postgresql/src/inbound.rs:96-142 | the same for one message |
| `InboundGuard.RefusedExactlyBeyondLimits` | adapters/export-postgresql/src/inbound.rs:96-107 | a header is refused if and only if its big-endian length is below four, or the frame exceeds one mebibyte or takes the response beyond two |
| `InboundGuard.EveryHeaderDeclares` | adapters/export-postgresql/src/inbound.rs:96 | every five bytes are a kind and the big-endian text of one length |
| `InboundGuard.FeedIsAdmit` | adapters/export-postgresql/src/inbound.rs:64-142 | taking bytes one at a time comes to the same as parsing the whole stream |
| `InboundGuard.NothingLost` | adapters/export-postgresql/src/inbound.rs:64-142 | consumed bytes are the emitted ones and at most five held header bytes |
| `InboundGuard.BoundaryExactlyWhenNothingRead` | adapters/export-postgresql/src/inbound.rs:84-90 | the guard stands at a frame boundary with nothing held if and only if it has read no header byte |
| `InboundGuard.PassesOnlyAdmitted` | adapters/export-postgresql/src/inbound.rs:64-142 | in every reachable state what came out is what the whole-stream parser admits, and after a refusal exactly all of it |
| `InboundGuard.Guarded.constructor` | adapters/export-postgresql/src/inbound.rs:34-45 | a fresh guard has consumed and emitted nothing |
| `InboundGuard.Guarded.FrameComplete` | adapters/export-postgresql/src/inbound.rs:47-55 | the response count restarts only after ReadyForQuery |
| `InboundGuard.Guarded.JudgeHeader` | adapters/export-postgresql/src/inbound.rs:96-107 | a whole header is refused or accepted as the parser says, that is, as `RefusedExactlyBeyondLimits` says |
| `InboundGuard.Guarded.PollRead` | adapters/export-postgresql/src/inbound.rs:64-142 | one poll conserves bytes, emits at most the room offered, stays coherent with the parser, keeps a refusal, reports a clean end only between frames, and gives no bytes only because the stream had an answer that says so |
| `SseParser.NormaliseNext` | frontend/src/sse.ts:20-21 | a line feed after a carriage return adds nothing, also across chunks |
| `SseParser.LinesRoundTrip` | frontend/src/sse.ts:24-25 | splitting into lines loses nothing and leaves no line end inside a line |
| `SseParser.BlocksRoundTrip` | frontend/src/sse.ts:33-37 | cutting lines into blocks loses nothing and leaves no empty line inside a block |
| `SseParser.AcceptablePrefix` | frontend/src/sse.ts:22-23 | every prefix of an acceptable text is acceptable |
| `SseParser.FeedMeetsSpecification` | frontend/src/sse.ts:16-48 | for every text the parser fails if and only if a limit or id rule is broken, and otherwise its fields and records are those of the block-wise specification, whose meaning the `SseWire` rows fix |
| `SseParser.KeptFitsCounter` | frontend/src/sse.ts:39-46 | what is kept of a block fits the byte counter |
| `SseParser.MemoryBounded` | frontend/src/sse.ts:7-23 | line, data, event and id together never exceed the byte counter, which never exceeds 264 KiB |
| `SseParser.Parser.FinishLine` | frontend/src/sse.ts:30-48 | closing a line updates the fields as `SseWire.LineMeaning` says and dispatches, or refuses an unusable id |
| `SseParser.Parser.PushPiece` | frontend/src/sse.ts:19-26 | after an error exactly the records before the offending code point were emitted |
| `SseParser.Parser.Push` | frontend/src/sse.ts:16-28 | however the text is cut, it is accepted if and only if all of it is acceptable, and then exactly its records were emitted |
| `SseWire.LineMeaning` | frontend/src/sse.ts:39-41 | a line sets its name to what follows the colon short of one space, to nothing without a colon, and is a comment if it starts with one |
| `SseWire.SetsMeaning` | frontend/src/sse.ts:39-46 | a line sets data, event or id if and only if it is that name, alone or before a colon |
| `SseWire.JoinSplits` | frontend/src/sse.ts:34 | splitting joined values at line feeds gives the values back |
| `SseWire.SplitJoins` | frontend/src/sse.ts:34 | and joining the lines of a text gives the text back |
| `SseWire.DataAloneIsMessage` | frontend/src/sse.ts:34 | a block with only a data line is a message with that data and no id |
| `SseWire.NamesAloneAreNothing` | frontend/src/sse.ts:34 | a block without data and id is no record |
| `SseWire.LastCounts` | frontend/src/sse.ts:43-46 | of several events or ids in a block the last one counts |
| `SseWire.PrintedRecordsReadBack` | frontend/src/sse.ts:16-48 | any list of records printed as server-sent events, with LF, CRLF or CR, is read back as exactly those records |
| `SseWire.PrintedTextAcceptedIff` | frontend/src/sse.ts:22-23 | such a text is accepted if and only if every record prints to at most 270336 UTF-8 bytes and every id has at most 512 UTF-16 units and no control character |
| `SseWire.UsableId` | frontend/src/sse.ts:45 | an id is usable if and only if it has at most 512 UTF-16 units and no control character |
| `SseWire.Utf8Counts` | frontend/src/sse.ts:22 | the byte counter counts the bytes of the UTF-8 encoding |
| `LargeIntegers.SafeExactlyWhenSmall` | frontend/src/http.ts:57 | rounding to a double makes a safe integer if and only if the integer is within 2^53 − 1 |
| `LargeIntegers.MatchNumeral` | frontend/src/http.ts:45 | the number pattern matches exactly the printed numeral |
| `LargeIntegers.TokenOfNumeral` | frontend/src/http.ts:57 | a number token is quoted if and only if it is a plain integer that is too large |
| `LargeIntegers.PreservesExactlyLargeIntegers` | frontend/src/http.ts:46-65 | for every JSON tree and layout, scanning its text equals printing the tree with its large integers as strings |
| `LargeIntegers.PreservingIsIdempotent` | frontend/src/http.ts:46-65 | scanning twice changes nothing more |
| `LargeIntegers.NoLargeIntegerLeft` | frontend/src/http.ts:43-44 | the number literals left are, in order, exactly those that are no too large integers |
| `LargeIntegers.IntegerTextQuotedExactlyWhenLarge` | frontend/src/http.ts:46-65 | the decimal text of any integer outside a string comes out quoted if and only if the integer is beyond 9007199254740991 on either side |
| `LargeIntegers.ValueOfDecimal` | frontend/src/http.ts:57 | the value of the decimal text of n is n |
| `LargeIntegers.DecimalOfValue` | frontend/src/http.ts:45 | every numeral without a superfluous zero is the decimal text of its value |
| `LargeIntegers.MarkedLiteralLeftAlone` | frontend/src/http.ts:57 | a literal with a fraction or an exponent is left alone |
| `LargeIntegers.PreserveLargeIntegers` | frontend/src/http.ts:46-65 | the loop returns the text of the tree with its large integers quoted |
| `Multipart.CompleteExactlyWhenAcceptable` | adapters/protocol/src/multipart.rs:24-74 | collection succeeds if and only if everything up to the first final fragment is in order, in time, granted and together within the limits |
| `Multipart.CountsAreOfAcceptedFragments` | adapters/protocol/src/multipart.rs:114-168 | whatever the outcome, items are the concatenation of the accepted fragments, counts and reservation match them, and every limit holds |
| `Multipart.OnlyTheLastIsFinal` | adapters/protocol/src/multipart.rs:55-73 | success means the last accepted fragment was the first final one |
| `Multipart.PartialNamesFirstFault` | adapters/protocol/src/multipart.rs:24-168 | a collection that ends early ends at the first event with a fault, names that fault and counts exactly the fragments before it |
| `Multipart.AppendRefusesFaults` | adapters/protocol/src/multipart.rs:114-152 | a fragment is refused for a reason if and only if that is its first fault against the fragments taken |
| `Multipart.ReservedExactlyWithinLimits` | adapters/protocol/src/multipart.rs:79-112 | a reservation is refused as invalid if and only if a limit or the key is out of range, and otherwise reserves descriptors and fixed part |
| `Multipart.AppendAssembles` | adapters/protocol/src/multipart.rs:114-168 | an accepted fragment extends the assembled report and leaves room for another if more are announced |
| `Multipart.Collector.constructor` | adapters/protocol/src/multipart.rs:79-108 | a granted reservation is an empty report that has reserved the overhead |
| `Multipart.Collector.AppendFragment` | adapters/protocol/src/multipart.rs:114-168 | a fragment is taken whole or refused without any change |
| `Multipart.Collector.CollectReport` | adapters/protocol/src/multipart.rs:24-74 | the loop yields the specified outcome and refuses mismatched limits |
| `HistoryCursor.CursorRoundTrip` | adapters/storage/src/command_history.rs:212-262 | decoding an encoded cursor gives back its position for its own view and an error for any other |
| `HistoryCursor.EncodedText` | adapters/storage/src/command_history.rs:212-224 | a cursor is its namespace, the view's digest, row id, time and two digests, by colons |
| `HistoryCursor.DecodedText` | adapters/storage/src/command_history.rs:226-262 | every accepted cursor has that form, for this view |
| `HistoryCursor.IntegerRoundTrip` | adapters/storage/src/command_history.rs:234-245 | printed 64-bit integers parse back, negative ones included |
| `HistoryCursor.SignsAreRead` | adapters/storage/src/command_history.rs:234-245 | digits are read bare or behind either sign if the value fits 64 bits, and a sign alone is not |
| `HistoryCursor.Decode` | adapters/storage/src/command_history.rs:226-269 | a decoded position is in range with well-formed digests |
| `CommandHistory.SelectsExactlyPermitted` | adapters/storage/src/command_history.rs:114-119 | the query selects exactly what the scope permits |
| `CommandHistory.PageIsExact` | adapters/storage/src/command_history.rs:76-97 | a page is strictly descending, below its key, and leaves behind only rows below its last item |
| `CommandHistory.PagesAreNewestFirst` | adapters/storage/src/command_history.rs:76-97 | a page is ordered by admission time, later first, then by request id, later text first, and the first page starts at the most recent permitted command |
| `CommandHistory.AnchorIsKeyAfter` | adapters/storage/src/command_history.rs:40-74 | decoding a cursor and looking its row up by row id, time and digests finds exactly the row it was made for, or fails as expired |
| `CommandHistory.ReadIsPageAfter` | adapters/storage/src/command_history.rs:14-97 | paging by cursor text gives the rows and failures of paging by row, and a cursor for the same next row |
| `CommandHistory.FailsExactlyWhenRowGone` | adapters/storage/src/command_history.rs:44-97 | following the text of a cursor expires if and only if no stored row is the one it was made for; otherwise it fails, as an integrity failure, if and only if a row of the page has a result that does not match; a view with another digest refuses it |
| `CommandHistory.SentinelSkipsNothing` | adapters/storage/src/command_history.rs:75 | the first page skips no stored row |
| `CommandHistory.WalkDescends` | adapters/storage/src/command_history.rs:14-97 | successive pages are strictly descending overall, whatever happens to the table in between |
| `CommandHistory.FollowIsWalkRows` | adapters/storage/src/command_history.rs:14-97 | following cursor texts over changing tables walks the same rows to the same end as following rows |
| `CommandHistory.MatchingWalkOnlyExpires` | adapters/storage/src/command_history.rs:150-177 | where every result matches its command, a walk fails only for an expired cursor |
| `CommandHistory.HistoryReturnsEachLastingRowOnce` | adapters/storage/src/command_history.rs:14-177 | a client that follows cursor texts to the end gets every permitted row that stayed throughout exactly once and newest first; it fails only for an expired cursor or a result that does not match its command |
| `CommandHistory.AdmissionStaysWellFormed` | adapters/storage/src/codec.rs:250-258 | admission keeps request ids and row ids unique and timestamps below the sentinel |
| `CommandHistory.PruningStaysWellFormed` | adapters/storage/src/command.rs:349-388 | so does pruning |
| `HistoryOfStore.StepProjects` | adapters/storage/src/command.rs:11-66 | every step of the command store takes the rows that show its commands to well-formed rows that show the new ones: admission inserts one, pruning deletes, result writers change none |
| `HistoryOfStore.StepKeepsNames` | adapters/storage/src/command.rs:102-109 | once a first result names its command, no later writer, interruption or pruning makes a stored result name another |
| `HistoryOfStore.HistoryShowsStore` | adapters/storage/src/command_history.rs:14-177 | after every run of the store in which first results name their command, the rows of the history are exactly the stored commands and every result matches, as paging asks |
| `JobRuns.SaveKeepsInventoryExactlyUnlessReopened` | adapters/storage/src/diagnostics16.rs:97-129 | a save keeps the two families' part of the inventory exact if and only if it does not reopen a resolved job |
| `JobRuns.ReservationAdds` | adapters/storage/src/diagnostics16.rs:140-239 | a granted reservation found nothing in flight, room in history and inventory, and adds one row to each |
| `JobRuns.RetiringKeepsSound` | adapters/storage/src/diagnostics16/transitions.rs:134-162 | retiring older jobs keeps the rows sound, an inventory in order and every row's key |
| `JobRuns.RetiringKeepsNewer` | adapters/storage/src/diagnostics16/transitions.rs:134-162 | rows from the answered request on are left as they are |
| `JobRuns.MaintainKeepsSound` | adapters/storage/src/diagnostics16/recovery.rs:10-70 | one station's startup recovery and expiry keep the rows sound, an inventory in order and every row's key |
| `JobRuns.MaintainAllKeepsSound` | adapters/storage/src/diagnostics16/recovery.rs:10-70 | the whole pass over all stations in one transaction keeps the rows sound, an inventory in order and every key |
| `JobRuns.RowsOkInEveryReachableState` | adapters/storage/src/diagnostics16.rs:97-303 | whatever is done to the inventory, in every reachable ledger a station has at most one request in flight and at most 64 jobs in revision order |
| `JobRuns.StepKeepsSoundIff` | adapters/storage/src/drain/mod.rs:148-185 | a step of the two families, another ledger or the drain keeps the inventory exact for the two families and within 128 keys if and only if the drain starts and finishes no job of theirs and an unbounded registration finds its key or room |
| `JobRuns.SoundInEveryReachableState` | adapters/storage/src/diagnostics16.rs:97-303 | along any run of the two families, the other ledgers and the drain, the inventory's part of the two families is exactly their unresolved jobs and the whole at most 128 keys, if and only if every step meets that condition |
| `JobRuns.FinishReleaseCanForgetJob` | adapters/storage/src/drain/mod.rs:175-185 | finishing a release job by the id of an unresolved firmware job removes it from the inventory |
| `JobRuns.InventoryCountsUnresolved` | adapters/storage/src/firmware16.rs:1-3 | there is one inventory row per unresolved job of the two families, beside the foreign keys |
| `JobRuns.PruningKeepsHead` | adapters/storage/src/diagnostics16.rs:285-303 | pruning keeps the newest revision of every station |
| `JobRuns.RevisionsNeverReissued` | adapters/storage/src/diagnostics16.rs:190-195 | over any run, whatever is done to the inventory, the revisions issued for a station are consecutive from its head on |
| `JobOutcomes.ExpiresExactlyOverdue` | adapters/storage/src/diagnostics16/observations.rs:17-34 | a pass times out a station's job if and only if it is uncertain or working and its deadline is reached; every other row and the inventory stay |
| `JobOutcomes.PrunesExactly` | adapters/storage/src/diagnostics16.rs:285-303 | pruning drops a row if and only if it is the station's, resolved, not in flight, without public result and not the newest |
| `JobOutcomes.GrantedExactlyWhenAdmissible` | adapters/storage/src/diagnostics16.rs:140-239 | a request is granted if and only if it is valid and in time, nothing of the station is in flight, no active or equally numbered job stands in its way, fewer than 64 rows remain after clearing, a revision is left, the inventory has room and its id is free |
| `JobOutcomes.GrantedRow` | adapters/storage/src/diagnostics16.rs:140-239 | a granted request finds overdue jobs timed out and disposable ones gone, and is the last row, pending and in flight under the next revision |
| `JobOutcomes.AnswerTable` | adapters/storage/src/diagnostics16/transitions.rs:24-132 | how each command result settles a job in each state |
| `JobOutcomes.FinishMovesRows` | adapters/storage/src/diagnostics16/transitions.rs:32-162 | a command result moves its own job, ends every older unfinished job of the station if the request was accepted, and leaves every other row alone |
| `JobOutcomes.ObservationMovesOneRow` | adapters/storage/src/diagnostics16/observations.rs:36-50 | a reported status is taken by an unfinished job and by no other row |
| `JobOutcomes.UploadBoundExactlyOnce` | adapters/storage/src/diagnostics16.rs:242-271 | an upload is bound if and only if the job is pending, in flight and unbound |
| `JobOutcomes.MaintainMovesRows` | adapters/storage/src/diagnostics16/recovery.rs:10-70 | a pass over a station at startup leaves nothing in flight or pending, and times out what is overdue; rows of other stations stay |
| `JobOutcomes.MaintainAllMovesRows` | adapters/storage/src/diagnostics16/recovery.rs:10-70 | the whole pass does that to every row of the listed stations, in any order, and is never refused on sound rows |
| `JobOutcomes.OtherKeysMove` | adapters/storage/src/drain/mod.rs:148-185 | the drain adds or removes one key if the request is valid, the window is not sealed and, to add, fewer than 128 keys are there; other ledgers likewise |
| `JobOutcomes.SaveTouchesOneRow` | adapters/storage/src/diagnostics16.rs:97-129 | a save rewrites its own row and nothing else |
| `JobStore.DeletesAreExact` | adapters/storage/src/firmware16.rs:257-275 | deleting older resolved rows one by one removes exactly the disposable ones |
| `JobStore.JobTables.RegisterReleaseJob` | adapters/storage/src/firmware16.rs:224-243 | a full inventory refuses a bounded registration, and registering twice changes nothing |
| `JobStore.JobTables.StartReleaseJob` | adapters/storage/src/drain/mod.rs:148-174 | the drain records a new key below the bound, or changes nothing |
| `JobStore.JobTables.FinishReleaseJob` | adapters/storage/src/drain/mod.rs:175-185 | the drain removes whatever key it is given, or changes nothing when sealed |
| `JobStore.JobTables.SaveJob` | adapters/storage/src/firmware16.rs:88-120 | saving rewrites one row and clears the inventory of a resolved job, or changes nothing |
| `JobStore.JobTables.ExpireJobs` | adapters/storage/src/diagnostics16/observations.rs:10-35 | the expiry loop is the specified pass |
| `JobStore.JobTables.PruneJobs` | adapters/storage/src/diagnostics16.rs:285-303 | the delete loop leaves exactly what the specification leaves |
| `JobStore.JobTables.ReserveJob` | adapters/storage/src/diagnostics16.rs:140-239 | a reservation is the specified transaction or changes nothing, and keeps sound rows sound and an inventory in order |
| `JobStore.JobTables.Bind` | adapters/storage/src/diagnostics16.rs:242-271 | only a pending, unbound, in-flight job is bound and marked started |

## Left out

- SQLite, serialisation, SHA-256, UTF-8 decoding and clocks: they appear as atomic steps, values, digests as said above, code points and integers.
- Validation by other families inside a result write (reservations, firmware, diagnostics, local authorisation lists, configuration): one boolean of the writer says whether they accept.
- Saturation and overflow of 64-bit byte sums and counters; only stream positions, revisions and timestamps carry their bound.
- OCPP 1.6 trigger reconciliation and the tables of the OCPP 2.0.1 firmware, diagnostics and reservation ledgers: same shape as what is modelled.
- Job transitions, observations and recovery are modelled on values; only reserving, saving, binding, expiring, pruning and registering also have in-place methods.
- The drain's window, owner and revision counter: a drain operation only carries whether the window is sealed.
- Retention status reporting, the delivery backlog view and reading of attempts: read-only projections.
- Backfilling of legacy command metadata and the candidate query for remote-start correlation.
- Asynchronous scheduling: a poll, a chunk, a fragment or a transaction is one step, and lateness and granted capacity come in with the event.
- Writing through the guard, TLS set-up and connection handling.
- HTTP, authentication, credentials, configuration, frontend views and packaging.
- ResultRuns.TriggerKeptOverRuns: starts from stored events that are unambiguous by id; `ObservedKeptExactlyWhenCoherent` shows that without this the events are not kept.
- ResultRuns.ReportFollowsOverRuns: leaves out runs in which startup overwrites an ended report; `StepFollowsReport` shows that exactly those steps break it.
- CommandStore.CommandTables.InterruptPending: when it is refused part-way, does not say which rows were done before, because request ids are not ordered in this model.
- JobRuns.SoundInEveryReachableState: the other ledgers and the drain appear by the keys they register and remove, not by their own tables.
- Multipart.Collector.CollectReport: waits when the given events run out, because the source's loop has no last event.
- CommandHistory.FailsExactlyWhenRowGone: asks that no row stored under the cursor's row id shares a digest with the cursor's row by accident, because then the two cannot be told apart.
- CommandHistory.HistoryReturnsEachLastingRowOnce: asks the same of the rows of all tables the walk meets.
- HistoryOfStore.HistoryShowsStore: asks that a first result names its command, because a result write does not compare the two.
