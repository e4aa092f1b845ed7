/**
 Every writer of one result row as a step, and what holds over arbitrary runs of them: the
 lifecycle settles, evidence accumulates, an ended report stays ended and a trigger expectation
 with a reply is fixed.
 */
module ResultRuns {
  import opened Common
  import opened CommandResult
  import opened KeyedUnion
  import opened ResultMerge
  import Trigger = TriggerObservation201
  import Device = DeviceReports201
  import Profiles = ChargingProfiles201

  const MAX_OBSERVATIONS: nat := 128

  /** Boolean arguments carry the verdict of checks on data outside the row. */
  datatype Op =
    | Write(incoming: CommandResult, accepted: bool)
    | FinishDevice(device: DeviceModel, reply: Option<Lifecycle>, now: Time, accepted: bool)
    | FinishProfiles(profiles: ChargingProfiles, reply: Option<Lifecycle>, now: Time, accepted: bool)
    | InterruptReports
    | ReconcileTrigger(now: Time, journal: seq<Trigger.JournalEvent>, commandMatches: bool)
    | ReconcileTrigger16(finalized: bool)
    | AppendObservation(observation: ConfigurationObservation, keyMatches: bool)
    | SyncJob(family: nat, job: Evidence)
    | SyncReservation(edition: nat, reconciliation: Evidence)

  function WithReply(result: CommandResult, reply: Option<Lifecycle>): (lifecycle: Lifecycle) {
    if reply.Some? then reply.value else result.lifecycle
  }

  /** What finishing a device report writes. */
  function WithDevice(result: CommandResult, evidence: DeviceModel, reply: Option<Lifecycle>,
      now: Time): (r: CommandResult)
  {
    result.(device := Some(evidence), recordedAt := now, lifecycle := WithReply(result, reply))
  }

  /** An ended report with nothing to add and no reply to record is left alone. */
  predicate DeviceSettledAlready(row: Row, evidence: DeviceModel, reply: Option<Lifecycle>) {
    && row.result.device.Some? && !row.result.device.value.report.Pending? && reply.None?
    && !(Device.Enrichable(row.result.device.value.report) && Device.AcceptedProgress(evidence.report).Some?)
  }

  function FinishDeviceRow(row: Row, evidence: DeviceModel, reply: Option<Lifecycle>, now: Time,
      accepted: bool): (r: Result<Row>)
  {
    var result := row.result;
    if result.device.None? then Err(IntegrityFailure)
    else
      var prepared :- Device.Prepare(result.device.value, evidence, WithReply(result, reply), row.staged);
      if DeviceSettledAlready(row, evidence, reply) then Ok(row)
      else
        WriteValue(Some(row.(staged := prepared.staged)), WithDevice(result, prepared.evidence, reply, now), accepted)
  }

  /** Without evidence, only the acknowledgement of an open command may record some. */
  predicate ProfilesAbsent(row: Row, reply: Option<Lifecycle>) {
    row.result.profiles.None? && !(reply.Some? && (row.result.lifecycle.Admitted? || row.result.lifecycle.Dispatched?))
  }

  /** What finishing a profile report writes: the acknowledgement resolves only an open command. */
  function WithProfiles(result: CommandResult, evidence: ChargingProfiles, reply: Option<Lifecycle>,
      now: Time): (r: CommandResult)
  {
    var open := result.lifecycle.Admitted? || result.lifecycle.Dispatched?;
    result.(profiles := Some(evidence), schema := Schedules201Version, recordedAt := now,
            lifecycle := if reply.Some? && open then reply.value else result.lifecycle)
  }

  function FinishProfilesRow(row: Row, evidence: ChargingProfiles, reply: Option<Lifecycle>, now: Time,
      accepted: bool): (r: Result<Row>)
  {
    if ProfilesAbsent(row, reply) then
      if reply.Some? then Ok(row) else Err(IntegrityFailure)
    else
      WriteValue(Some(row), WithProfiles(row.result, evidence, reply, now), accepted)
  }

  function InterruptResult(result: CommandResult): (r: Result<CommandResult>) {
    if result.device.Some? then Ok(result.(device := Some(Device.Interrupt(result.device.value))))
    else if result.profiles.Some? then Ok(result.(profiles := Some(Profiles.Interrupt(result.profiles.value))))
    else Err(IntegrityFailure)
  }

  function InterruptRow(row: Row): (r: Result<Row>) {
    if !row.reportPending then Ok(row)
    else
      var result :- InterruptResult(row.result);
      Ok(row.(result := result, reportPending := false, staged := None))
  }

  function ReconcileRow(row: Row, now: Time, journal: seq<Trigger.JournalEvent>, commandMatches: bool): (r: Result<Row>)
  {
    if row.result.trigger201.None? then Ok(row)
    else if !commandMatches then Err(IntegrityFailure)
    else if !row.active then Ok(row)
    else
      var next :- Trigger.Reconcile(row.result.trigger201.value, now, journal);
      Ok(row.(result := row.result.(trigger201 := Some(next.trigger)), active := !next.finalized))
  }

  function AppendRow(row: Row, observation: ConfigurationObservation, keyMatches: bool): (r: Result<Row>) {
    var stored := row.result.observations;
    if row.result.replies.configuration.None? || !keyMatches then Err(IntegrityFailure)
    else if HasKey(stored, ReadKey, observation.readRequestId) then Ok(row)
    else if |stored| >= MAX_OBSERVATIONS then Err(IntegrityFailure)
    else Ok(row.(result := row.result.(observations := stored + [observation])))
  }

  function WithJob(evidence: Option<JobEvidence>, job: Evidence): (r: Option<JobEvidence>) {
    if evidence.Some? then Some(evidence.value.(job := job)) else None
  }

  function WithReconciliation(evidence: Option<Reservation>, value: Evidence): (r: Option<Reservation>) {
    if evidence.Some? then Some(evidence.value.(reconciliation := value)) else None
  }

  function SyncJobRow(row: Row, family: nat, job: Evidence): (r: Row) {
    var result := row.result;
    row.(result :=
      if family == 0 then result.(firmware16 := WithJob(result.firmware16, job))
      else if family == 1 then result.(firmware201 := WithJob(result.firmware201, job))
      else if family == 2 then result.(diagnostics16 := WithJob(result.diagnostics16, job))
      else result.(diagnostics201 := WithJob(result.diagnostics201, job)))
  }

  function SyncReservationRow(row: Row, edition: nat, value: Evidence): (r: Row) {
    var result := row.result;
    row.(result :=
      if edition == 16 then result.(reservation16 := WithReconciliation(result.reservation16, value))
      else result.(reservation201 := WithReconciliation(result.reservation201, value)))
  }

  function TryStep(row: Option<Row>, op: Op): (r: Result<Option<Row>>) {
    match op
    case Write(incoming, accepted) =>
      var next :- WriteValue(row, incoming, accepted); Ok(Some(next))
    case _ =>
      if row.None? then Ok(None)
      else
        var next :- TryUpdate(row.value, op); Ok(Some(next))
  }

  function TryUpdate(row: Row, op: Op): (r: Result<Row>)
    requires !op.Write?
  {
    match op
    case FinishDevice(evidence, reply, now, accepted) => FinishDeviceRow(row, evidence, reply, now, accepted)
    case FinishProfiles(evidence, reply, now, accepted) => FinishProfilesRow(row, evidence, reply, now, accepted)
    case InterruptReports => InterruptRow(row)
    case ReconcileTrigger(now, journal, commandMatches) => ReconcileRow(row, now, journal, commandMatches)
    case ReconcileTrigger16(finalized) =>
      var watched := row.active && row.result.trigger16.Some? && row.result.trigger201.None?;
      Ok(if watched then row.(active := !finalized) else row)
    case AppendObservation(observation, keyMatches) => AppendRow(row, observation, keyMatches)
    case SyncJob(family, job) => Ok(SyncJobRow(row, family, job))
    case SyncReservation(edition, value) => Ok(SyncReservationRow(row, edition, value))
  }

  /** A refused step leaves the row as it was. */
  function Step(row: Option<Row>, op: Op): (r: Option<Row>) {
    var next := TryStep(row, op);
    if next.Ok? then next.value else row
  }

  function Run(row: Option<Row>, ops: seq<Op>): (r: Option<Row>)
    decreases |ops|
  {
    if ops == [] then row else Run(Step(row, ops[0]), ops[1..])
  }

  lemma {:induction false} RunSplit(row: Option<Row>, first: seq<Op>, then_: seq<Op>)
    ensures Run(row, first + then_) == Run(Run(row, first), then_)
    decreases |first|
  {
    if first == [] {
      assert first + then_ == then_;
    } else {
      assert (first + then_)[1..] == first[1..] + then_;
      RunSplit(Step(row, first[0]), first[1..], then_);
    }
  }

  // What a write does, part by part --------------------------------------------------------------

  /** The merge of every family but the lists of effects and observations, part by part. */
  lemma FamiliesParts(previous: CommandResult, incoming: CommandResult)
    requires MergeFamilies(previous, incoming).Ok?
    ensures var g := MergeFamilies(previous, incoming).value;
            && Trigger.Merge(previous, incoming).Ok?
            && g.result.trigger201 == Trigger.Merge(previous, incoming).value.trigger
            && g.retire == Trigger.Merge(previous, incoming).value.retire
            && g.result.device == (if previous.device.None? then incoming.device
                                   else if incoming.device.None? then previous.device
                                   else Some(Device.Merge(previous.device.value, incoming.device.value).value))
            && (previous.device.Some? && incoming.device.Some? ==>
                  Device.Merge(previous.device.value, incoming.device.value).Ok?)
            && g.result.profiles == (if previous.profiles.None? then incoming.profiles
                                     else if incoming.profiles.None? then previous.profiles
                                     else Some(Profiles.Merge(previous.profiles.value, incoming.profiles.value).value))
            && (previous.profiles.Some? && incoming.profiles.Some? ==>
                  Profiles.Merge(previous.profiles.value, incoming.profiles.value).Ok?)
            && g.result.lifecycle == (if Pinned(previous) then previous.lifecycle else incoming.lifecycle)
            && (Pinned(previous) ==> Pinned(g.result))
            && g.result.effects == incoming.effects && g.result.observations == incoming.observations
            && g.result.route == previous.route && g.result.resource == previous.resource
  {
    var a := MergeTrigger16(previous, incoming).value;
    assert Trigger.Merge(previous, a) == Trigger.Merge(previous, incoming);
  }

  /** What the rest of the merge leaves of the families' result. */
  lemma SettledParts(previous: CommandResult, incoming: CommandResult)
    requires MergeStored(previous, incoming).Ok?
    ensures var m := MergeStored(previous, incoming).value;
            && MergeFamilies(previous, incoming).Ok?
            && var g := MergeFamilies(previous, incoming).value;
            && m.retire == g.retire && m.result.trigger201 == g.result.trigger201
            && m.result.device == g.result.device && m.result.profiles == g.result.profiles
            && m.result.effects == AppendMissing(g.result.effects, previous.effects, EffectKey)
            && m.result.observations == AppendMissing(g.result.observations, previous.observations, ReadKey)
            && (m.result.lifecycle == g.result.lifecycle || m.result.lifecycle == previous.lifecycle)
            && (LifecycleRank(previous.lifecycle) < 2 ==>
                  && LifecycleRank(previous.lifecycle) <= LifecycleRank(m.result.lifecycle)
                  && (LifecycleRank(g.result.lifecycle) >= LifecycleRank(previous.lifecycle) ==>
                        m.result.lifecycle == g.result.lifecycle && m.result.replies == g.result.replies))
  {
  }

  /** The closing steps of a write touch only the two reports. */
  lemma FinishParts(merged: CommandResult)
    requires Finish(merged).Ok?
    ensures var f := Finish(merged).value;
            && f == merged.(device := f.device, profiles := f.profiles)
            && f.profiles == (if merged.profiles.Some? then Some(Profiles.Bound(merged.profiles.value)) else None)
            && f.device == (if merged.device.None? then None
                            else
                              var d := Device.Finalize(merged.device.value, merged.lifecycle);
                              Some(if Device.Fits(Device.FinalizeResult(merged)) then d else Device.DropReport(d)))
            && Profiles.ValidStored(f) && ValidLists(f)
  {
  }

  function DeviceOf(row: Option<Row>): (d: Option<DeviceModel>) {
    if row.Some? then row.value.result.device else None
  }

  function ProfilesOf(row: Option<Row>): (p: Option<ChargingProfiles>) {
    if row.Some? then row.value.result.profiles else None
  }

  function StoredEffects(row: Option<Row>): (ids: set<EventId>) {
    if row.Some? then EffectIds(row.value.result.effects) else {}
  }

  function StoredReads(row: Option<Row>): (ids: set<RequestId>) {
    if row.Some? then ReadIds(row.value.result.observations) else {}
  }

  ghost predicate ReportsWritten(row: Option<Row>, incoming: CommandResult, after: Row) {
    && Device.Written(DeviceOf(row), incoming.device, after.result.lifecycle, after.result.device)
    && Profiles.Written(ProfilesOf(row), incoming.profiles, after.result.profiles)
    && Profiles.ValidStored(after.result)
    && (after.reportPending <==> ReportPending(after.result))
  }

  ghost predicate ListsWritten(row: Option<Row>, incoming: CommandResult, after: Row) {
    && StoredEffects(Some(after)) == StoredEffects(row) + EffectIds(incoming.effects)
    && StoredReads(Some(after)) == StoredReads(row) + ReadIds(incoming.observations)
  }

  ghost predicate TriggerWritten(row: Option<Row>, incoming: CommandResult, after: Row) {
    if row.None? then after.active && after.result.trigger201 == FirstWrite(incoming).trigger201
    else
      var merged := Trigger.Merge(row.value.result, incoming);
      && merged.Ok? && after.result.trigger201 == merged.value.trigger
      && after.active == (row.value.active && !merged.value.retire)
      && (merged.value.retire ==> after.result.lifecycle.Rejected?)
  }

  ghost predicate DeviceMerged(before: Option<DeviceModel>, incoming: Option<DeviceModel>, merged: Option<DeviceModel>)
  {
    if before.None? then merged == incoming
    else if incoming.None? then merged == before
    else merged.Some? && Device.Merge(before.value, incoming.value) == Ok(merged.value)
  }

  ghost predicate ProfilesMerged(
      before: Option<ChargingProfiles>, incoming: Option<ChargingProfiles>, merged: Option<ChargingProfiles>)
  {
    if before.None? then merged == incoming
    else if incoming.None? then merged == before
    else merged.Some? && Profiles.Merge(before.value, incoming.value) == Ok(merged.value)
  }

  lemma StoredReports(previous: CommandResult, incoming: CommandResult)
    requires MergeStored(previous, incoming).Ok?
    ensures var merged := MergeStored(previous, incoming).value.result;
            && DeviceMerged(previous.device, incoming.device, merged.device)
            && ProfilesMerged(previous.profiles, incoming.profiles, merged.profiles)
  {
    SettledParts(previous, incoming);
    FamiliesParts(previous, incoming);
  }

  lemma FinishedReports(row: Option<Row>, incoming: CommandResult, merged: CommandResult, after: Row)
    requires DeviceMerged(DeviceOf(row), incoming.device, merged.device)
    requires ProfilesMerged(ProfilesOf(row), incoming.profiles, merged.profiles)
    requires Finish(merged) == Ok(after.result) && after.reportPending == ReportPending(after.result)
    ensures ReportsWritten(row, incoming, after)
  {
    FinishParts(merged);
  }

  lemma WriteReports(row: Option<Row>, incoming: CommandResult, accepted: bool)
    requires WriteValue(row, incoming, accepted).Ok?
    ensures ReportsWritten(row, incoming, WriteValue(row, incoming, accepted).value)
  {
    var merged := FirstWrite(incoming);
    if row.Some? {
      StoredReports(row.value.result, incoming);
      merged := MergeStored(row.value.result, incoming).value.result;
    }
    FinishedReports(row, incoming, merged, WriteValue(row, incoming, accepted).value);
  }

  lemma EffectKeysAreIds(effects: seq<Effect>)
    ensures Keys(effects, EffectKey) == EffectIds(effects)
  {
  }

  lemma ReadKeysAreIds(observations: seq<ConfigurationObservation>)
    ensures Keys(observations, ReadKey) == ReadIds(observations)
  {
  }

  lemma UnitedEffects(newer: seq<Effect>, older: seq<Effect>)
    ensures EffectIds(AppendMissing(newer, older, EffectKey)) == EffectIds(older) + EffectIds(newer)
  {
    AppendMissingKeys(newer, older, EffectKey);
    EffectKeysAreIds(newer);
    EffectKeysAreIds(older);
    EffectKeysAreIds(AppendMissing(newer, older, EffectKey));
  }

  lemma UnitedReads(newer: seq<ConfigurationObservation>, older: seq<ConfigurationObservation>)
    ensures ReadIds(AppendMissing(newer, older, ReadKey)) == ReadIds(older) + ReadIds(newer)
  {
    AppendMissingKeys(newer, older, ReadKey);
    ReadKeysAreIds(newer);
    ReadKeysAreIds(older);
    ReadKeysAreIds(AppendMissing(newer, older, ReadKey));
  }

  lemma WriteLists(row: Option<Row>, incoming: CommandResult, accepted: bool)
    requires WriteValue(row, incoming, accepted).Ok?
    ensures ListsWritten(row, incoming, WriteValue(row, incoming, accepted).value)
  {
    if row.Some? {
      SettledParts(row.value.result, incoming);
      FamiliesParts(row.value.result, incoming);
      FinishParts(MergeStored(row.value.result, incoming).value.result);
      UnitedEffects(incoming.effects, row.value.result.effects);
      UnitedReads(incoming.observations, row.value.result.observations);
    } else {
      FinishParts(FirstWrite(incoming));
    }
  }

  /** An expectation is retired only by a write that stores a rejection. */
  lemma RetirementIsTerminal(row: Row, incoming: CommandResult, accepted: bool)
    requires WriteValue(Some(row), incoming, accepted).Ok?
    requires row.result.trigger201.Some? && WriteValue(Some(row), incoming, accepted).value.result.trigger201.None?
    ensures WriteValue(Some(row), incoming, accepted).value.result.lifecycle.Rejected?
    ensures !WriteValue(Some(row), incoming, accepted).value.active
  {
    SettledParts(row.result, incoming);
    FamiliesParts(row.result, incoming);
    FinishParts(MergeStored(row.result, incoming).value.result);
  }

  lemma WriteTrigger(row: Option<Row>, incoming: CommandResult, accepted: bool)
    requires WriteValue(row, incoming, accepted).Ok?
    ensures TriggerWritten(row, incoming, WriteValue(row, incoming, accepted).value)
  {
    if row.Some? {
      SettledParts(row.value.result, incoming);
      FamiliesParts(row.value.result, incoming);
      FinishParts(MergeStored(row.value.result, incoming).value.result);
      if Trigger.Merge(row.value.result, incoming).value.retire {
        RetirementIsTerminal(row.value, incoming, accepted);
      }
    } else {
      FinishParts(FirstWrite(incoming));
    }
  }

  /** A successful write, seen through the parts the theorems are about. */
  ghost predicate Written(row: Option<Row>, incoming: CommandResult, after: Row) {
    && ReportsWritten(row, incoming, after) && ListsWritten(row, incoming, after)
       && TriggerWritten(row, incoming, after)
    && (row.Some? ==> SettlesOnce(row.value.result, after.result))
  }

  lemma WriteIsWritten(row: Option<Row>, incoming: CommandResult, accepted: bool)
    requires WriteValue(row, incoming, accepted).Ok?
    ensures Written(row, incoming, WriteValue(row, incoming, accepted).value)
  {
    WriteReports(row, incoming, accepted);
    WriteLists(row, incoming, accepted);
    WriteTrigger(row, incoming, accepted);
    if row.Some? {
      WriteSettles(row.value, incoming, accepted);
    }
  }

  /** The steps that hand a whole result to the writer. */
  predicate Persists(op: Op) {
    op.Write? || op.FinishDevice? || op.FinishProfiles?
  }

  /** A finisher changes only its own report, the lifecycle and the stamps of the stored result. */
  ghost predicate Resubmits(row: Option<Row>, op: Op, incoming: CommandResult) {
    row.Some? &&
    var result := row.value.result;
    && incoming.trigger201 == result.trigger201
    && incoming.effects == result.effects && incoming.observations == result.observations
    && (op.FinishDevice? ==> incoming.profiles == result.profiles)
    && (op.FinishProfiles? ==> incoming.device == result.device)
  }

  lemma FinishDeviceIsWritten(row: Row, op: Op) returns (incoming: CommandResult)
    requires op.FinishDevice? && Step(Some(row), op) != Some(row)
    ensures Step(Some(row), op).Some? && Written(Some(row), incoming, Step(Some(row), op).value)
    ensures Resubmits(Some(row), op, incoming)
  {
    var result := row.result;
    var p := Device.Prepare(result.device.value, op.device, WithReply(result, op.reply), row.staged).value;
    incoming := WithDevice(result, p.evidence, op.reply, op.now);
    WriteIsWritten(Some(row.(staged := p.staged)), incoming, op.accepted);
  }

  lemma FinishProfilesIsWritten(row: Row, op: Op) returns (incoming: CommandResult)
    requires op.FinishProfiles? && Step(Some(row), op) != Some(row)
    ensures Step(Some(row), op).Some? && Written(Some(row), incoming, Step(Some(row), op).value)
    ensures Resubmits(Some(row), op, incoming)
  {
    incoming := WithProfiles(row.result, op.profiles, op.reply, op.now);
    WriteIsWritten(Some(row), incoming, op.accepted);
  }

  /** Every persisting step that changes the row is a write. */
  lemma StepIsWritten(row: Option<Row>, op: Op) returns (incoming: CommandResult)
    requires Persists(op) && Step(row, op) != row
    ensures Step(row, op).Some? && Written(row, incoming, Step(row, op).value)
    ensures if op.Write? then incoming == op.incoming else Resubmits(row, op, incoming)
  {
    if op.Write? {
      incoming := op.incoming;
      WriteIsWritten(row, op.incoming, op.accepted);
    } else if op.FinishDevice? {
      incoming := FinishDeviceIsWritten(row.value, op);
    } else {
      incoming := FinishProfilesIsWritten(row.value, op);
    }
  }

  // Lifecycle ------------------------------------------------------------------------------------

  /** Stored job evidence stays as it is, except for the job itself, which reflects durable state. */
  ghost predicate JobFrozen(a: Option<JobEvidence>, b: Option<JobEvidence>) {
    a.Some? ==> b.Some? && b.value == a.value.(job := b.value.job)
  }

  /** Stored job evidence keeps its request, and its offer and reply once it has them. */
  ghost predicate JobKept(a: Option<JobEvidence>, b: Option<JobEvidence>) {
    a.Some? ==>
      && b.Some? && b.value.request == a.value.request
      && (a.value.offer.Some? ==> b.value.offer == a.value.offer)
      && (a.value.reply.Some? ==> b.value.reply == a.value.reply)
  }

  /** A stored reservation keeps its action, and its native status once it has one. */
  ghost predicate ReservationKept(a: Option<Reservation>, b: Option<Reservation>) {
    a.Some? ==>
      && b.Some? && b.value.action == a.value.action
      && (a.value.status.Some? ==> b.value.status == a.value.status)
  }

  ghost predicate JobsFrozen(a: CommandResult, b: CommandResult) {
    && JobFrozen(a.firmware16, b.firmware16) && JobFrozen(a.firmware201, b.firmware201)
    && JobFrozen(a.diagnostics16, b.diagnostics16) && JobFrozen(a.diagnostics201, b.diagnostics201)
  }

  ghost predicate JobsKept(a: CommandResult, b: CommandResult) {
    && JobKept(a.firmware16, b.firmware16) && JobKept(a.firmware201, b.firmware201)
    && JobKept(a.diagnostics16, b.diagnostics16) && JobKept(a.diagnostics201, b.diagnostics201)
  }

  ghost predicate ReservationsKept(a: CommandResult, b: CommandResult) {
    ReservationKept(a.reservation16, b.reservation16) && ReservationKept(a.reservation201, b.reservation201)
  }

  /** The lifecycle and all the reply evidence that is restored with it. */
  ghost predicate Frozen(a: CommandResult, b: CommandResult) {
    && b.lifecycle == a.lifecycle && b.replies == a.replies && b.recordedAt == a.recordedAt && b.schema == a.schema
    && JobsFrozen(a, b) && ReservationsKept(a, b)
  }

  /** What no writer takes back, whatever the lifecycle. */
  ghost predicate Kept(a: CommandResult, b: CommandResult) {
    && LifecycleRank(a.lifecycle) <= LifecycleRank(b.lifecycle)
    && a.route == b.route && a.resource == b.resource
    && JobsKept(a, b) && ReservationsKept(a, b)
  }

  /**
   One step: the rank never falls, replies to jobs and reservations stay, and a terminal lifecycle is
   frozen with its reply evidence unless the new result carries evidence that correlates a late
   response.
   */
  ghost predicate SettlesOnce(a: CommandResult, b: CommandResult) {
    Kept(a, b) && (Terminal(a.lifecycle) ==> Frozen(a, b) || CorrelatedReply(a, b))
  }

  /** Any number of steps: an uncertain transmission may have become a protocol response. */
  ghost predicate Settles(a: CommandResult, b: CommandResult) {
    && Kept(a, b)
    && (Terminal(a.lifecycle) ==>
          Frozen(a, b) || (a.lifecycle.TransmissionUncertain? && b.lifecycle.ProtocolResponse?))
  }

  /** The merge of jobs and reservations, family by family. */
  lemma FamiliesEvidence(previous: CommandResult, incoming: CommandResult)
    requires MergeFamilies(previous, incoming).Ok?
    ensures var g := MergeFamilies(previous, incoming).value.result;
            && MergeJob(previous.firmware16, incoming.firmware16) == Ok(g.firmware16)
            && MergeJob(previous.firmware201, incoming.firmware201) == Ok(g.firmware201)
            && MergeJob(previous.diagnostics16, incoming.diagnostics16) == Ok(g.diagnostics16)
            && MergeJob(previous.diagnostics201, incoming.diagnostics201) == Ok(g.diagnostics201)
            && MergeReservation(previous.reservation16, incoming.reservation16) == Ok(g.reservation16)
            && MergeReservation(previous.reservation201, incoming.reservation201) == Ok(g.reservation201)
  {
  }

  /** A merged job keeps what is stored, and settling it against the stored one freezes it. */
  lemma MergedJobKept(stored: Option<JobEvidence>, incoming: Option<JobEvidence>)
    requires MergeJob(stored, incoming).Ok?
    ensures var merged := MergeJob(stored, incoming).value;
            && JobKept(stored, merged)
            && JobFrozen(stored, KeepSettled(stored, merged)) && JobKept(stored, KeepSettled(stored, merged))
  {
  }

  lemma MergedReservationKept(stored: Option<Reservation>, incoming: Option<Reservation>)
    requires MergeReservation(stored, incoming).Ok?
    ensures ReservationKept(stored, MergeReservation(stored, incoming).value)
    ensures stored.Some? ==> MergeReservation(stored, incoming).value.Some?
  {
  }

  /** What the lifecycle rule decides about: the merged families with all effects. */
  ghost function Considered(previous: CommandResult, incoming: CommandResult): (r: CommandResult)
    requires MergeFamilies(previous, incoming).Ok?
  {
    var g := MergeFamilies(previous, incoming).value.result;
    g.(effects := AppendMissing(g.effects, previous.effects, EffectKey))
  }

  lemma ConsideredKept(previous: CommandResult, incoming: CommandResult)
    requires MergeFamilies(previous, incoming).Ok?
    ensures var c := Considered(previous, incoming);
            && JobsKept(previous, c) && ReservationsKept(previous, c)
            && c.route == previous.route && c.resource == previous.resource
            && JobsKept(previous, Overrule(previous, c)) && JobsFrozen(previous, Overrule(previous, c))
            && ReservationsKept(previous, Overrule(previous, c))
  {
    FamiliesEvidence(previous, incoming);
    FamiliesParts(previous, incoming);
    MergedJobKept(previous.firmware16, incoming.firmware16);
    MergedJobKept(previous.firmware201, incoming.firmware201);
    MergedJobKept(previous.diagnostics16, incoming.diagnostics16);
    MergedJobKept(previous.diagnostics201, incoming.diagnostics201);
    MergedReservationKept(previous.reservation16, incoming.reservation16);
    MergedReservationKept(previous.reservation201, incoming.reservation201);
  }

  /** The lifecycle rule settles whatever it is given, if that keeps the stored evidence. */
  lemma SettlingSettles(previous: CommandResult, c: CommandResult)
    requires JobsKept(previous, c) && ReservationsKept(previous, c)
    requires c.route == previous.route && c.resource == previous.resource
    requires JobsKept(previous, Overrule(previous, c)) && JobsFrozen(previous, Overrule(previous, c))
    requires ReservationsKept(previous, Overrule(previous, c))
    ensures SettlesOnce(previous, SettleLifecycle(previous, c))
  {
  }

  /** What settles still does with other observations and reports. */
  lemma SettlesBeside(a: CommandResult, b: CommandResult, c: CommandResult)
    requires SettlesOnce(a, b) && c == b.(observations := c.observations, device := c.device, profiles := c.profiles)
    ensures SettlesOnce(a, c)
  {
  }

  lemma WriteSettles(row: Row, incoming: CommandResult, accepted: bool)
    requires WriteValue(Some(row), incoming, accepted).Ok?
    ensures SettlesOnce(row.result, WriteValue(Some(row), incoming, accepted).value.result)
  {
    var c := Considered(row.result, incoming);
    ConsideredKept(row.result, incoming);
    SettlingSettles(row.result, c);
    var merged := MergeStored(row.result, incoming).value.result;
    FinishParts(merged);
    SettlesBeside(row.result, SettleLifecycle(row.result, c), Finish(merged).value);
  }

  /** Other parts of a result may change without touching lifecycle or reply evidence. */
  lemma BesideEvidence(a: CommandResult, b: CommandResult)
    requires b == a.(observations := b.observations, device := b.device, profiles := b.profiles,
             trigger201 := b.trigger201)
    ensures Kept(a, b) && Frozen(a, b)
  {
  }

  lemma SyncJobFreezes(row: Row, family: nat, job: Evidence)
    ensures Kept(row.result, SyncJobRow(row, family, job).result)
            && Frozen(row.result, SyncJobRow(row, family, job).result)
  {
  }

  lemma SyncReservationFreezes(row: Row, edition: nat, value: Evidence)
    ensures var after := SyncReservationRow(row, edition, value).result;
            Kept(row.result, after) && Frozen(row.result, after)
  {
  }

  /** A step that persists nothing leaves lifecycle and reply evidence alone. */
  lemma UpdateFreezes(row: Row, op: Op)
    requires !Persists(op)
    ensures Step(Some(row), op).Some?
    ensures Kept(row.result, Step(Some(row), op).value.result) && Frozen(row.result, Step(Some(row), op).value.result)
  {
    if op.SyncJob? {
      SyncJobFreezes(row, op.family, op.job);
    } else if op.SyncReservation? {
      SyncReservationFreezes(row, op.edition, op.reconciliation);
    } else {
      BesideEvidence(row.result, Step(Some(row), op).value.result);
    }
  }

  lemma StepSettles(row: Row, op: Op)
    ensures Step(Some(row), op).Some? && SettlesOnce(row.result, Step(Some(row), op).value.result)
  {
    if !Persists(op) {
      UpdateFreezes(row, op);
    } else if Step(Some(row), op) != Some(row) {
      var _ := StepIsWritten(Some(row), op);
    }
  }

  lemma SettlesTransitive(a: CommandResult, b: CommandResult, c: CommandResult)
    requires Settles(a, b) && Settles(b, c)
    ensures Settles(a, c)
  {
  }

  lemma {:induction false} RunSettles(row: Row, ops: seq<Op>)
    ensures Run(Some(row), ops).Some? && Settles(row.result, Run(Some(row), ops).value.result)
    decreases |ops|
  {
    if ops != [] {
      StepSettles(row, ops[0]);
      var next := Step(Some(row), ops[0]).value;
      RunSettles(next, ops[1..]);
      SettlesTransitive(row.result, next.result, Run(Some(next), ops[1..]).value.result);
    }
  }

  /** The row after the first `n` steps. */
  ghost function After(start: Option<Row>, ops: seq<Op>, n: nat): (row: Option<Row>)
    requires n <= |ops|
  {
    Run(start, ops[..n])
  }

  lemma AfterNext(start: Option<Row>, ops: seq<Op>, n: nat)
    requires n < |ops|
    ensures After(start, ops, n + 1) == Step(After(start, ops, n), ops[n])
  {
    assert ops[..n + 1] == ops[..n] + [ops[n]];
    RunSplit(start, ops[..n], [ops[n]]);
    assert [ops[n]][1..] == [];
  }

  lemma LaterSettles(start: Option<Row>, ops: seq<Op>, i: nat, j: nat)
    requires i <= j <= |ops| && After(start, ops, i).Some?
    ensures After(start, ops, j).Some?
    ensures Settles(After(start, ops, i).value.result, After(start, ops, j).value.result)
  {
    assert ops[..j] == ops[..i] + ops[i..j];
    RunSplit(start, ops[..i], ops[i..j]);
    RunSettles(After(start, ops, i).value, ops[i..j]);
  }

  /** Step `k` is the one upgrade between `i` and `j`: frozen before it, correlated, frozen after it. */
  ghost predicate UpgradedAt(start: Option<Row>, ops: seq<Op>, i: nat, k: nat, j: nat)
    requires i <= k < j <= |ops|
  {
    && After(start, ops, i).Some? && After(start, ops, k).Some? && After(start, ops, k + 1).Some?
       && After(start, ops, j).Some?
    && Frozen(After(start, ops, i).value.result, After(start, ops, k).value.result)
    && CorrelatedReply(After(start, ops, k).value.result, After(start, ops, k + 1).value.result)
    && Frozen(After(start, ops, k + 1).value.result, After(start, ops, j).value.result)
  }

  /** A terminal lifecycle that changed did so in one step, on evidence correlating the late response. */
  lemma {:induction false} UpgradeIsCorrelated(start: Option<Row>, ops: seq<Op>, i: nat, j: nat) returns (k: nat)
    requires i <= j <= |ops| && After(start, ops, i).Some? && After(start, ops, j).Some?
    requires Terminal(After(start, ops, i).value.result.lifecycle)
    requires After(start, ops, j).value.result.lifecycle != After(start, ops, i).value.result.lifecycle
    ensures i <= k < j && UpgradedAt(start, ops, i, k, j)
    decreases j - i
  {
    AfterNext(start, ops, i);
    var row := After(start, ops, i).value;
    StepSettles(row, ops[i]);
    LaterSettles(start, ops, i + 1, j);
    var next := After(start, ops, i + 1).value;
    if Frozen(row.result, next.result) {
      k := UpgradeIsCorrelated(start, ops, i + 1, j);
    } else {
      k := i;
    }
  }

  /**
   Between any two points of any run, whoever writes, the lifecycle has only settled further, and a
   terminal one changed at most once, on evidence correlating the late response.
   */
  lemma LifecycleSettlesOverRuns(start: Option<Row>, ops: seq<Op>, i: nat, j: nat)
    requires i <= j <= |ops| && After(start, ops, i).Some?
    ensures After(start, ops, j).Some?
    ensures Settles(After(start, ops, i).value.result, After(start, ops, j).value.result)
    ensures Terminal(After(start, ops, i).value.result.lifecycle)
            && After(start, ops, j).value.result.lifecycle != After(start, ops, i).value.result.lifecycle ==>
              exists k: nat | i <= k < j :: UpgradedAt(start, ops, i, k, j)
  {
    LaterSettles(start, ops, i, j);
    if Terminal(After(start, ops, i).value.result.lifecycle)
       && After(start, ops, j).value.result.lifecycle != After(start, ops, i).value.result.lifecycle {
      var k := UpgradeIsCorrelated(start, ops, i, j);
    }
  }

  /** How often a terminal lifecycle is replaced along a run. */
  function TerminalChanges(row: Row, ops: seq<Op>): (n: nat)
    decreases |ops|
  {
    if ops == [] then 0
    else
      var next := Step(Some(row), ops[0]);
      if next.None? then 0
      else
        (if Terminal(row.result.lifecycle) && next.value.result.lifecycle != row.result.lifecycle then 1 else 0)
        + TerminalChanges(next.value, ops[1..])
  }

  /** At most one replacement, and none at all once a response or a rejection is stored. */
  lemma {:induction false} TerminalChangesAtMostOnce(row: Row, ops: seq<Op>)
    ensures TerminalChanges(row, ops) <= 1
    ensures row.result.lifecycle.ProtocolResponse? || row.result.lifecycle.Rejected? ==> TerminalChanges(row, ops) == 0
    decreases |ops|
  {
    if ops != [] {
      StepSettles(row, ops[0]);
      TerminalChangesAtMostOnce(Step(Some(row), ops[0]).value, ops[1..]);
    }
  }

  // Accumulated evidence -------------------------------------------------------------------------

  function OfferedEffects(row: Option<Row>, op: Op): (ids: set<EventId>) {
    if op.Write? && WriteValue(row, op.incoming, op.accepted).Ok? then EffectIds(op.incoming.effects) else {}
  }

  function OfferedReads(row: Option<Row>, op: Op): (ids: set<RequestId>) {
    if op.Write? && WriteValue(row, op.incoming, op.accepted).Ok? then ReadIds(op.incoming.observations)
    else if op.AppendObservation? && row.Some? && AppendRow(row.value, op.observation, op.keyMatches).Ok? then
      {op.observation.readRequestId}
    else {}
  }

  function AllOfferedEffects(row: Option<Row>, ops: seq<Op>): (ids: set<EventId>)
    decreases |ops|
  {
    if ops == [] then {} else OfferedEffects(row, ops[0]) + AllOfferedEffects(Step(row, ops[0]), ops[1..])
  }

  function AllOfferedReads(row: Option<Row>, ops: seq<Op>): (ids: set<RequestId>)
    decreases |ops|
  {
    if ops == [] then {} else OfferedReads(row, ops[0]) + AllOfferedReads(Step(row, ops[0]), ops[1..])
  }

  lemma StepAccumulates(row: Option<Row>, op: Op)
    ensures StoredEffects(Step(row, op)) == StoredEffects(row) + OfferedEffects(row, op)
    ensures StoredReads(Step(row, op)) == StoredReads(row) + OfferedReads(row, op)
  {
    match op
    case Write(incoming, accepted) =>
      if WriteValue(row, incoming, accepted).Ok? {
        WriteLists(row, incoming, accepted);
      }
    case FinishDevice(_, _, _, _) =>
      if Step(row, op) != row {
        var _ := FinishDeviceIsWritten(row.value, op);
      }
    case FinishProfiles(_, _, _, _) =>
      if Step(row, op) != row {
        var _ := FinishProfilesIsWritten(row.value, op);
      }
    case AppendObservation(observation, keyMatches) =>
      if row.Some? && AppendRow(row.value, observation, keyMatches).Ok? {
        AppendedRead(row.value.result.observations, observation);
      }
    case _ =>
  }

  lemma AppendedRead(stored: seq<ConfigurationObservation>, observation: ConfigurationObservation)
    ensures ReadIds(stored + [observation]) == ReadIds(stored) + {observation.readRequestId}
    ensures HasKey(stored, ReadKey, observation.readRequestId) ==>
            ReadIds(stored) == ReadIds(stored) + {observation.readRequestId}
  {
    KeysOfAppend(stored, observation, ReadKey);
    ReadKeysAreIds(stored);
    ReadKeysAreIds(stored + [observation]);
  }

  /** The stored effect and read identities are the union of what every successful writer brought. */
  lemma {:induction false} EvidenceIsUnionOverRuns(row: Option<Row>, ops: seq<Op>)
    ensures StoredEffects(Run(row, ops)) == StoredEffects(row) + AllOfferedEffects(row, ops)
    ensures StoredReads(Run(row, ops)) == StoredReads(row) + AllOfferedReads(row, ops)
    decreases |ops|
  {
    if ops != [] {
      StepAccumulates(row, ops[0]);
      EvidenceIsUnionOverRuns(Step(row, ops[0]), ops[1..]);
    }
  }

  // Index columns --------------------------------------------------------------------------------

  /** One of the two reports is still outstanding. */
  ghost predicate AwaitsReport(r: CommandResult) {
    || (exists d :: r.device == Some(d) && d.report == Pending)
    || (exists p :: r.profiles == Some(p) && p.report == Pending)
  }

  lemma PendingIsAwaited(r: CommandResult)
    ensures ReportPending(r) <==> AwaitsReport(r)
  {
  }

  /** The indexed column says what the payload says. */
  ghost predicate ColumnsAgree(row: Option<Row>) {
    row.Some? ==> (row.value.reportPending <==> AwaitsReport(row.value.result))
  }

  /** No profile report is pending beside device-model evidence, which an interruption would look at instead. */
  ghost predicate OneReport(row: Option<Row>) {
    row.Some? && row.value.result.device.Some? && row.value.result.profiles.Some? ==>
      !row.value.result.profiles.value.report.Pending?
  }

  /** Every step keeps the column right, except an interruption that meets both reports, which never does. */
  lemma StepKeepsColumns(row: Option<Row>, op: Op)
    requires ColumnsAgree(row)
    ensures ColumnsAgree(Step(row, op)) <==> !(op.InterruptReports? && !OneReport(row))
  {
    if Persists(op) && Step(row, op) != row {
      var _ := StepIsWritten(row, op);
    }
  }

  ghost predicate ColumnsAgreeThroughout(row: Option<Row>, ops: seq<Op>)
    decreases |ops|
  {
    ColumnsAgree(row) && (ops == [] || ColumnsAgreeThroughout(Step(row, ops[0]), ops[1..]))
  }

  ghost predicate InterruptionsMeetOneReport(row: Option<Row>, ops: seq<Op>)
    decreases |ops|
  {
    ops == []
    || ((ops[0].InterruptReports? ==> OneReport(row)) && InterruptionsMeetOneReport(Step(row, ops[0]), ops[1..]))
  }

  /** Along any run, whoever writes, the column stays right exactly when no interruption meets both reports. */
  lemma {:induction false} ColumnsAgreeOverRunsIff(row: Option<Row>, ops: seq<Op>)
    requires ColumnsAgree(row)
    ensures ColumnsAgreeThroughout(row, ops) <==> InterruptionsMeetOneReport(row, ops)
    decreases |ops|
  {
    if ops != [] {
      StepKeepsColumns(row, ops[0]);
      if ColumnsAgree(Step(row, ops[0])) {
        ColumnsAgreeOverRunsIff(Step(row, ops[0]), ops[1..]);
      }
    }
  }

  function NoReplies(): (r: Replies) {
    Replies(None, None, None, None, None, None, None, None)
  }

  /** A response with a device report under an accepted acknowledgement. */
  function ReportResult(effects: seq<Effect>, report: Device.DeviceReport): (r: CommandResult) {
    CommandResult(DeviceModel201Version, 0, 0, ProtocolResponse(true, None), 0, effects, [], NoReplies(), None, None,
                  Some(DeviceModel(DeviceQuery(0, Some(1)), 0, 0, 0, Some(AckAccepted), [], report)),
                  None, None, None, None, None, None, None)
  }

  /** The same result with a pending profile report beside the device report. */
  function BothReports(report: Device.DeviceReport): (r: CommandResult) {
    ReportResult([], report).(schema := Schedules201Version,
                              profiles := Some(ChargingProfiles(0, ProfilesAccepted, None, Pending)))
  }

  /**
   A written result with an ended device report and a pending profile report: startup replaces the
   ended report and clears the column, while the profile report stays pending for good.
   */
  lemma InterruptionCanHidePendingReport()
    ensures var complete := Complete(Progress(1, 1, 1), 7, 1);
            var written := Run(None, [Write(BothReports(complete), true)]);
            var interrupted := Run(None, [Write(BothReports(complete), true), InterruptReports]);
            && ColumnsAgree(written) && written.Some? && written.value.result == BothReports(complete)
            && interrupted == Some(Row(BothReports(Incomplete(Interrupted, None)), true, false, None))
            && ReportPending(interrupted.value.result) && !ColumnsAgree(interrupted)
            && Step(interrupted, InterruptReports) == interrupted
  {
    var complete := Complete(Progress(1, 1, 1), 7, 1);
    BothReportsStored();
    BothReportsInterrupted();
    PendingIsAwaited(BothReports(complete));
    PendingIsAwaited(BothReports(Incomplete(Interrupted, None)));
    OneStep(None, Write(BothReports(complete), true));
    TwoSteps(None, Write(BothReports(complete), true), InterruptReports);
  }

  lemma OneStep(row: Option<Row>, a: Op)
    ensures Run(row, [a]) == Step(row, a)
  {
    assert [a][1..] == [];
  }

  lemma TwoSteps(row: Option<Row>, a: Op, b: Op)
    ensures Run(row, [a, b]) == Step(Step(row, a), b)
  {
    assert [a, b][1..] == [b];
    OneStep(Step(row, a), b);
  }

  lemma BothReportsStored()
    ensures var complete := Complete(Progress(1, 1, 1), 7, 1);
            Step(None, Write(BothReports(complete), true)) == Some(Row(BothReports(complete), true, true, None))
  {
    var complete := Complete(Progress(1, 1, 1), 7, 1);
    assert EffectsSize([]) == 0 && ObservationsSize([]) == 0;
    assert Finish(BothReports(complete)) == Ok(BothReports(complete));
  }

  lemma BothReportsInterrupted()
    ensures var row := Row(BothReports(Complete(Progress(1, 1, 1), 7, 1)), true, true, None);
            var interrupted := Row(BothReports(Incomplete(Interrupted, None)), true, false, None);
            && Step(Some(row), InterruptReports) == Some(interrupted)
            && Step(Some(interrupted), InterruptReports) == Some(interrupted)
  {
  }

  // Device reports -------------------------------------------------------------------------------

  ghost predicate ReportQuery(row: Option<Row>) {
    row.Some? && row.value.result.device.Some? && row.value.result.device.value.query.reportId.Some?
  }

  ghost predicate ReportInvariant(row: Option<Row>) {
    row.Some? && row.value.result.device.Some? ==> Device.Settled(row.value.result.device.value)
  }

  ghost predicate FollowsReport(row: Option<Row>, next: Option<Row>) {
    ReportQuery(row) ==>
      ReportQuery(next) && Device.Follows(row.value.result.device.value, next.value.result.device.value)
  }

  /** The device report has ended but its row is still marked pending, so startup replaces it. */
  ghost predicate Overwrites(row: Option<Row>, op: Op) {
    && op.InterruptReports? && row.Some? && row.value.reportPending && row.value.result.device.Some?
    && !row.value.result.device.value.report.Pending?
    && row.value.result.device.value.report != Incomplete(Interrupted, None)
  }

  ghost predicate NeverOverwritten(row: Option<Row>, ops: seq<Op>)
    decreases |ops|
  {
    ops == [] || (!Overwrites(row, ops[0]) && NeverOverwritten(Step(row, ops[0]), ops[1..]))
  }

  lemma WrittenFollowsReport(row: Option<Row>, incoming: CommandResult, after: Row)
    requires ReportInvariant(row) && ReportsWritten(row, incoming, after)
    ensures ReportInvariant(Some(after)) && FollowsReport(row, Some(after))
  {
    Device.WrittenFollows(DeviceOf(row), incoming.device, after.result.lifecycle, after.result.device);
  }

  lemma InterruptFollowsReport(row: Row)
    requires ReportInvariant(Some(row))
    ensures !Overwrites(Some(row), InterruptReports) ==>
              ReportInvariant(Step(Some(row), InterruptReports))
                  && FollowsReport(Some(row), Step(Some(row), InterruptReports))
    ensures ReportQuery(Some(row)) && Overwrites(Some(row), InterruptReports) ==>
              !FollowsReport(Some(row), Step(Some(row), InterruptReports))
  {
    if row.result.device.Some? && row.result.device.value.report.Pending? {
      Device.InterruptEnds(row.result.device.value);
    }
  }

  /** Any writer moves a report query only as `Follows` allows; the overwriting interruption never does. */
  lemma StepFollowsReport(row: Option<Row>, op: Op)
    requires ReportInvariant(row)
    ensures !Overwrites(row, op) ==> ReportInvariant(Step(row, op))
    ensures ReportQuery(row) ==> (FollowsReport(row, Step(row, op)) <==> !Overwrites(row, op))
  {
    if Persists(op) {
      if Step(row, op) != row {
        var incoming := StepIsWritten(row, op);
        WrittenFollowsReport(row, incoming, Step(row, op).value);
      }
    } else if op.InterruptReports? && row.Some? {
      InterruptFollowsReport(row.value);
    }
  }

  /**
   Over any run on a report query, whoever writes: a complete report has an accepted
   acknowledgement, an ended report keeps its reason unless a first empty acknowledgement retires it,
   and missing progress is filled at most once. A complete report gives way only to the output bound.
   */
  lemma {:induction false} ReportFollowsOverRuns(row: Option<Row>, ops: seq<Op>)
    requires ReportInvariant(row) && NeverOverwritten(row, ops)
    ensures ReportInvariant(Run(row, ops)) && FollowsReport(row, Run(row, ops))
    decreases |ops|
  {
    if ops != [] {
      StepFollowsReport(row, ops[0]);
      var next := Step(row, ops[0]);
      ReportFollowsOverRuns(next, ops[1..]);
      if ReportQuery(row) {
        Device.FollowsTransitive(row.value.result.device.value, next.value.result.device.value,
                                 Run(next, ops[1..]).value.result.device.value);
      }
    }
  }

  /** Where the columns agree throughout, no interruption overwrites a report. */
  lemma {:induction false} OneReportIsNeverOverwritten(row: Option<Row>, ops: seq<Op>)
    requires ColumnsAgree(row) && InterruptionsMeetOneReport(row, ops)
    ensures NeverOverwritten(row, ops)
    decreases |ops|
  {
    if ops != [] {
      StepKeepsColumns(row, ops[0]);
      OneReportIsNeverOverwritten(Step(row, ops[0]), ops[1..]);
    }
  }

  /** A stored complete report survives a write exactly when the merged result fits the output bound. */
  lemma CompleteReportKeptExactlyWhenResultFits(row: Row, incoming: CommandResult, accepted: bool)
    requires ReportInvariant(Some(row)) && ReportQuery(Some(row)) && row.result.device.value.report.Complete?
    requires WriteValue(Some(row), incoming, accepted).Ok?
    ensures WriteValue(Some(row), incoming, accepted).value.result.device.Some?
    ensures WriteValue(Some(row), incoming, accepted).value.result.device.value.report == row.result.device.value.report
            <==> Device.Fits(MergeStored(row.result, incoming).value.result)
  {
    StoredReports(row.result, incoming);
    var merged := MergeStored(row.result, incoming).value.result;
    FinishParts(merged);
    var stored := row.result.device.value;
    var writer := if incoming.device.Some? then incoming.device.value else stored;
    assert Device.Merge(stored, writer) == Ok(merged.device.value);
    assert Device.Finalize(merged.device.value, merged.lifecycle) == merged.device.value;
    assert Device.FinalizeResult(merged) == merged;
  }

  /** One late effect is enough to lose a complete report that was stored at the bound. */
  lemma LateEffectCanDropCompleteReport()
    ensures var full := Complete(Progress(1, 1, OUTPUT_LIMIT), 7, OUTPUT_LIMIT);
            var dropped := Incomplete(OutputLimit, Some(full.progress));
            var first, late := ReportResult([], full), ReportResult([Effect("e", 0, 1)], full);
            && Run(None, [Write(first, true)]) == Some(Row(first, true, false, None))
            && Run(None, [Write(first, true), Write(late, true)])
               == Some(Row(ReportResult(late.effects, dropped), true, false, None))
  {
    var full := Complete(Progress(1, 1, OUTPUT_LIMIT), 7, OUTPUT_LIMIT);
    var first, late := Write(ReportResult([], full), true), Write(ReportResult([Effect("e", 0, 1)], full), true);
    StoredAtBound();
    DroppedByEffect();
    assert [first][1..] == [] && [late][1..] == [] && [first, late][1..] == [late];
    var stored := Some(Row(ReportResult([], full), true, false, None));
    assert Run(None, [first, late]) == Run(stored, [late]) == Step(stored, late);
  }

  lemma StoredAtBound()
    ensures var full := Complete(Progress(1, 1, OUTPUT_LIMIT), 7, OUTPUT_LIMIT);
            Step(None, Write(ReportResult([], full), true)) == Some(Row(ReportResult([], full), true, false, None))
  {
    var first := ReportResult([], Complete(Progress(1, 1, OUTPUT_LIMIT), 7, OUTPUT_LIMIT));
    assert EffectsSize([]) == 0 && ObservationsSize([]) == 0;
    assert Finish(first) == Ok(first);
  }

  lemma DroppedByEffect()
    ensures var full := Complete(Progress(1, 1, OUTPUT_LIMIT), 7, OUTPUT_LIMIT);
            var dropped := Incomplete(OutputLimit, Some(full.progress));
            var late := ReportResult([Effect("e", 0, 1)], full);
            Step(Some(Row(ReportResult([], full), true, false, None)), Write(late, true))
            == Some(Row(ReportResult(late.effects, dropped), true, false, None))
  {
    var full := Complete(Progress(1, 1, OUTPUT_LIMIT), 7, OUTPUT_LIMIT);
    var first, late := ReportResult([], full), ReportResult([Effect("e", 0, 1)], full);
    assert MergeFamilies(first, late) == Ok(WithRetire(late, false));
    assert AppendMissing(late.effects, first.effects, EffectKey) == late.effects;
    assert Overruled(first, late);
    assert Overrule(first, late) == late;
    assert MergeStored(first, late) == Ok(WithRetire(late, false));
    assert EffectsSize(late.effects) == 1;
    assert Finish(late) == Ok(ReportResult(late.effects, Incomplete(OutputLimit, Some(full.progress))));
  }

  /** Startup keeps an ended device report exactly when no installed-profile report is pending beside it. */
  lemma InterruptKeepsEndedReportIff(row: Row)
    requires ColumnsAgree(Some(row)) && row.result.device.Some? && !row.result.device.value.report.Pending?
    requires row.result.device.value.report != Incomplete(Interrupted, None)
    ensures Step(Some(row), InterruptReports).value.result.device == row.result.device
            <==> !(row.result.profiles.Some? && row.result.profiles.value.report.Pending?)
  {
  }

  // Installed profiles ---------------------------------------------------------------------------

  ghost predicate ProfilesBounded(row: Option<Row>) {
    row.Some? && row.value.result.profiles.Some? ==> Profiles.Bounded(row.value.result.profiles.value)
  }

  ghost predicate ProfilesValid(row: Option<Row>) {
    row.Some? ==> Profiles.ValidStored(row.value.result)
  }

  ghost predicate FollowsProfiles(row: Option<Row>, next: Option<Row>) {
    row.Some? && row.value.result.profiles.Some? ==>
      && next.Some? && next.value.result.profiles.Some?
      && Profiles.Follows(row.value.result.profiles.value, next.value.result.profiles.value)
  }

  lemma WrittenFollowsProfiles(row: Option<Row>, incoming: CommandResult, after: Row)
    requires ProfilesBounded(row) && ReportsWritten(row, incoming, after)
    ensures ProfilesBounded(Some(after)) && ProfilesValid(Some(after)) && FollowsProfiles(row, Some(after))
  {
    Profiles.WrittenFollows(ProfilesOf(row), incoming.profiles, after.result.profiles);
  }

  lemma StepFollowsProfiles(row: Option<Row>, op: Op)
    requires ProfilesBounded(row)
    ensures ProfilesBounded(Step(row, op)) && FollowsProfiles(row, Step(row, op))
    ensures ProfilesValid(row) ==> ProfilesValid(Step(row, op))
  {
    if Persists(op) {
      if Step(row, op) != row {
        var incoming := StepIsWritten(row, op);
        WrittenFollowsProfiles(row, incoming, Step(row, op).value);
      }
    } else if op.InterruptReports? && row.Some? && row.value.result.profiles.Some? {
      Profiles.InterruptFollows(row.value.result.profiles.value);
    }
  }

  /** Over any run, whoever writes, stored installed-profile evidence keeps its acknowledgement and its ended report. */
  lemma {:induction false} ProfilesFollowOverRuns(row: Option<Row>, ops: seq<Op>)
    requires ProfilesBounded(row)
    ensures ProfilesBounded(Run(row, ops)) && FollowsProfiles(row, Run(row, ops))
    ensures ProfilesValid(row) ==> ProfilesValid(Run(row, ops))
    decreases |ops|
  {
    if ops != [] {
      StepFollowsProfiles(row, ops[0]);
      ProfilesFollowOverRuns(Step(row, ops[0]), ops[1..]);
    }
  }

  // Trigger evidence -----------------------------------------------------------------------------

  /** Fixed expectation and reply; new events lie in the window, one per target, none repeated. */
  ghost predicate TriggerGrew(a: Trigger201, b: Trigger201) {
    && Trigger.SameExpectation(a, b) && a.response == b.response
    && (forall e | e in a.observed :: e in b.observed)
    && (forall e | e in b.observed && e !in a.observed ::
          && a.startedAt <= e.observedAt <= a.deadline
          && forall other | other in b.observed && other != e :: other.target != e.target && other.eventId != e.eventId)
  }

  lemma TriggerGrewTransitive(a: Trigger201, b: Trigger201, c: Trigger201)
    requires TriggerGrew(a, b) && TriggerGrew(b, c)
    ensures TriggerGrew(a, c)
  {
    forall e | e in c.observed && e !in a.observed
      ensures a.startedAt <= e.observedAt <= a.deadline
      ensures forall other | other in c.observed && other != e :: other.target != e.target && other.eventId != e.eventId
    {
    }
  }

  lemma ExtendsGrew(a: Trigger201, b: Trigger201)
    requires Trigger.Extends(a, b)
    ensures TriggerGrew(a, b)
  {
    forall e | e in a.observed ensures e in b.observed {
      var i :| 0 <= i < |a.observed| && a.observed[i] == e;
      assert b.observed[i] == e;
    }
    forall e | e in b.observed && e !in a.observed
      ensures a.startedAt <= e.observedAt <= a.deadline
      ensures forall other | other in b.observed && other != e :: other.target != e.target && other.eventId != e.eventId
    {
      var i :| 0 <= i < |b.observed| && b.observed[i] == e;
      assert i >= |a.observed| by {
        assert forall k | 0 <= k < |a.observed| :: b.observed[k] == a.observed[k];
      }
      forall other | other in b.observed && other != e ensures other.target != e.target && other.eventId != e.eventId {
        var j :| 0 <= j < |b.observed| && b.observed[j] == other;
        if j > i {
          assert b.observed[i].target != b.observed[j].target && b.observed[i].eventId != b.observed[j].eventId;
        }
      }
    }
  }

  lemma SameObservedGrew(a: Trigger201, b: Trigger201)
    requires Trigger.SameExpectation(a, b) && a.response == b.response
             && Trigger.ObservedSet(a) == Trigger.ObservedSet(b)
    ensures TriggerGrew(a, b)
  {
    assert forall e :: e in a.observed <==> e in Trigger.ObservedSet(a);
    assert forall e :: e in b.observed <==> e in Trigger.ObservedSet(b);
  }

  function TriggerOf(row: Option<Row>): (t: Option<Trigger201>) {
    if row.Some? then row.value.result.trigger201 else None
  }

  ghost predicate TriggerInvariant(row: Option<Row>) {
    Trigger.MaybeCoherent(TriggerOf(row))
  }

  ghost predicate Replied(row: Option<Row>) {
    TriggerOf(row).Some? && TriggerOf(row).value.response.Some?
  }

  ghost predicate Retired(row: Option<Row>) {
    row.Some? && row.value.result.trigger201.None? && row.value.result.lifecycle.Rejected?
  }

  /** A write that introduces an expectation names each event once; other writers are free. */
  ghost predicate IntroducesCoherently(row: Option<Row>, op: Op) {
    op.Write? && TriggerOf(row).None? ==> Trigger.MaybeCoherent(op.incoming.trigger201)
  }

  ghost predicate IntroducesCoherentlyThroughout(row: Option<Row>, ops: seq<Op>)
    decreases |ops|
  {
    ops == []
    || (IntroducesCoherently(row, ops[0]) && IntroducesCoherentlyThroughout(Step(row, ops[0]), ops[1..]))
  }

  /** The expectation with its reply is fixed and the observed set grows, here by nothing. */
  ghost predicate SameObserved(row: Option<Row>, next: Option<Row>) {
    Replied(row) ==>
      && Replied(next) && TriggerGrew(TriggerOf(row).value, TriggerOf(next).value)
      && Trigger.ObservedSet(TriggerOf(row).value) == Trigger.ObservedSet(TriggerOf(next).value)
  }

  lemma WrittenKeepsObserved(row: Option<Row>, incoming: CommandResult, after: Row)
    requires TriggerInvariant(row) && TriggerWritten(row, incoming, after)
    ensures SameObserved(row, Some(after))
    ensures TriggerOf(row).Some? || Trigger.MaybeCoherent(incoming.trigger201) ==> TriggerInvariant(Some(after))
  {
    if TriggerOf(row).Some? {
      Trigger.MergeKeepsObservation(row.value.result, incoming);
      if Replied(row) {
        SameObservedGrew(TriggerOf(row).value, after.result.trigger201.value);
      }
    }
  }

  lemma ReconcileGrows(row: Row, op: Op)
    requires op.ReconcileTrigger? && TriggerInvariant(Some(row))
    ensures TriggerInvariant(Step(Some(row), op))
    ensures Replied(Some(row)) ==>
              Replied(Step(Some(row), op))
                  && TriggerGrew(TriggerOf(Some(row)).value, TriggerOf(Step(Some(row), op)).value)
  {
    if row.result.trigger201.Some? {
      var t := row.result.trigger201.value;
      SameObservedGrew(t, t);
      if Trigger.Reconcile(t, op.now, op.journal).Ok? {
        Trigger.ReconcileExtends(t, op.now, op.journal);
        ExtendsGrew(t, Trigger.Reconcile(t, op.now, op.journal).value.trigger);
      }
    }
  }

  lemma StepKeepsTrigger(row: Option<Row>, op: Op)
    requires TriggerInvariant(row)
    ensures IntroducesCoherently(row, op) ==> TriggerInvariant(Step(row, op))
    ensures Replied(row) ==>
              && Replied(Step(row, op)) && TriggerGrew(TriggerOf(row).value, TriggerOf(Step(row, op)).value)
    ensures !op.ReconcileTrigger? ==> SameObserved(row, Step(row, op))
  {
    if Replied(row) {
      SameObservedGrew(TriggerOf(row).value, TriggerOf(row).value);
    }
    if Persists(op) {
      if Step(row, op) != row {
        var incoming := StepIsWritten(row, op);
        WrittenKeepsObserved(row, incoming, Step(row, op).value);
      }
    } else if op.ReconcileTrigger? && row.Some? {
      ReconcileGrows(row.value, op);
    }
  }

  /** A dispatched command expecting one event of the station. */
  function TriggerResult(observed: seq<ObservedEvent>): (r: CommandResult) {
    CommandResult(Trigger201Version, 0, 0, Dispatched, 0, [], [], NoReplies(), None,
                  Some(Trigger201(Heartbeat, None, [Station], 0, 10, None, observed, AwaitingEvents)),
                  None, None, None, None, None, None, None, None)
  }

  /** An expectation introduced with one id for two events loses the one a later writer does not carry. */
  lemma AmbiguousIdLosesEvent()
    ensures var a, b := ObservedEvent("e", Station, 1), ObservedEvent("e", Station, 2);
            var first := Step(None, Write(TriggerResult([a, b]), true));
            var second := Step(first, Write(TriggerResult([a]), true));
            && TriggerOf(first).Some? && TriggerOf(first).value.observed == [a, b]
            && TriggerOf(second).Some? && TriggerOf(second).value.observed == [a]
  {
    var a, b := ObservedEvent("e", Station, 1), ObservedEvent("e", Station, 2);
    var stored := FirstWrite(TriggerResult([a, b]));
    assert Finish(stored) == Ok(stored);
    var incoming := TriggerResult([a]);
    var merged := Trigger.Merge(stored, incoming);
    assert merged.Ok? && merged.value.trigger.Some? && merged.value.trigger.value.observed == [a] by {
      assert AppendMissing([a], [a, b], Trigger.ObservedId) == [a] by {
        assert [a, b][1..] == [b] && [b][1..] == [];
        assert HasKey([a], Trigger.ObservedId, "e") by { assert a in [a]; }
        assert AppendMissing([a], [b], Trigger.ObservedId) == [a];
      }
    }
    var next := incoming.(trigger201 := merged.value.trigger);
    assert MergeFamilies(stored, incoming) == Ok(WithRetire(next, false));
    assert MergeStored(stored, incoming) == Ok(WithRetire(next, false));
    assert Finish(next) == Ok(next);
  }

  /** No step takes back a retirement or the end of reconciliation. */
  lemma StepKeepsRetired(row: Row, op: Op)
    ensures Step(Some(row), op).Some?
    ensures Retired(Some(row)) ==> Retired(Step(Some(row), op))
    ensures !row.active ==> !Step(Some(row), op).value.active
  {
    if Persists(op) && Step(Some(row), op) != Some(row) {
      var _ := StepIsWritten(Some(row), op);
    }
  }

  /** A retired expectation is never revived and the reconciliation flag never comes back. */
  lemma {:induction false} RetiredStaysRetired(row: Row, ops: seq<Op>)
    ensures Run(Some(row), ops).Some?
    ensures Retired(Some(row)) ==> Retired(Run(Some(row), ops))
    ensures !row.active ==> !Run(Some(row), ops).value.active
    decreases |ops|
  {
    if ops != [] {
      StepKeepsRetired(row, ops[0]);
      RetiredStaysRetired(Step(Some(row), ops[0]).value, ops[1..]);
    }
  }

  /**
   Over any run, whoever writes: once a reply is stored beside unambiguous events, expectation and
   reply are fixed and the observed set only grows, inside the window and by at most one event per
   target.
   */
  lemma {:induction false} TriggerKeptOverRuns(row: Option<Row>, ops: seq<Op>)
    requires TriggerInvariant(row) && Replied(row)
    ensures TriggerInvariant(Run(row, ops)) && Replied(Run(row, ops))
    ensures TriggerGrew(TriggerOf(row).value, TriggerOf(Run(row, ops)).value)
    decreases |ops|
  {
    if ops == [] {
      SameObservedGrew(TriggerOf(row).value, TriggerOf(row).value);
    } else {
      var next := Step(row, ops[0]);
      StepKeepsTrigger(row, ops[0]);
      TriggerKeptOverRuns(next, ops[1..]);
      TriggerGrewTransitive(TriggerOf(row).value, TriggerOf(next).value, TriggerOf(Run(next, ops[1..])).value);
    }
  }

  /** Events stay unambiguous as long as every new expectation names each event once. */
  lemma {:induction false} CoherentOverRuns(row: Option<Row>, ops: seq<Op>)
    requires TriggerInvariant(row) && IntroducesCoherentlyThroughout(row, ops)
    ensures TriggerInvariant(Run(row, ops))
    decreases |ops|
  {
    if ops != [] {
      StepKeepsTrigger(row, ops[0]);
      CoherentOverRuns(Step(row, ops[0]), ops[1..]);
    }
  }

  /** The events of a stored expectation are left alone by every run without a reconciliation. */
  lemma {:induction false} OnlyReconciliationObserves(row: Option<Row>, ops: seq<Op>)
    requires TriggerInvariant(row) && Replied(row)
    requires forall op | op in ops :: !op.ReconcileTrigger?
    ensures Replied(Run(row, ops))
    ensures Trigger.ObservedSet(TriggerOf(row).value) == Trigger.ObservedSet(TriggerOf(Run(row, ops)).value)
    decreases |ops|
  {
    if ops != [] {
      StepKeepsTrigger(row, ops[0]);
      OnlyReconciliationObserves(Step(row, ops[0]), ops[1..]);
    }
  }
}
