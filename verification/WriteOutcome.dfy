/**
 What a result write stores, read off the stored row and the writer alone: whose lifecycle and replies
 stand, what becomes of every family's evidence, and when a write is refused. Nothing here is phrased
 through the merge; the lemmas connect the two.
 */
module WriteOutcome {
  import opened Common
  import opened CommandResult
  import opened KeyedUnion
  import opened ResultMerge
  import Trigger = TriggerObservation201
  import Device = DeviceReports201
  import Profiles = ChargingProfiles201
  import Runs = ResultRuns
  import Observing = TriggerEvidence201

  // Whose lifecycle stands -----------------------------------------------------------------------

  /** Row or writer carries the native reply that ties a late response to an uncertain transmission. */
  ghost predicate NativeReply(row: CommandResult, writer: CommandResult) {
    || (row.trigger16.Some?
        && (|| row.trigger16.value.response.Some?
            || (writer.trigger16.Some? && writer.trigger16.value.response.Some?)))
    || (row.trigger201.Some?
        && (|| row.trigger201.value.response.Some?
            || (writer.trigger201.Some? && writer.trigger201.value.response.Some?)))
    || (row.reservation16.Some? && row.reservation16.value.status.Some?)
    || (writer.reservation16.Some? && writer.reservation16.value.status.Some?)
    || (row.reservation201.Some? && row.reservation201.value.status.Some?)
    || (writer.reservation201.Some? && writer.reservation201.value.status.Some?)
  }

  /** The writer's lifecycle, time and replies replace the stored ones. */
  ghost predicate WriterStands(row: CommandResult, writer: CommandResult) {
    && row.replies.localAuthorization16.None? && row.replies.localAuthorization201.None?
    && match row.lifecycle {
         case Admitted => true
         case Dispatched => !writer.lifecycle.Admitted?
         case Rejected(_) => false
         case ProtocolResponse(_, _) => false
         case TransmissionUncertain(_) => writer.lifecycle.ProtocolResponse? && NativeReply(row, writer)
       }
  }

  // Family by family -----------------------------------------------------------------------------

  /** The first of two options that is there. */
  ghost function Either<T>(first: Option<T>, second: Option<T>): (r: Option<T>) {
    if first.Some? then first else second
  }

  /** Both sides know a value and it is not the same one. */
  ghost predicate Differ<T>(first: Option<T>, second: Option<T>) {
    first.Some? && second.Some? && first != second
  }

  ghost function Trigger16After(row: CommandResult, writer: CommandResult): (t: Option<Trigger16>) {
    if row.trigger16.None? then writer.trigger16
    else if writer.trigger16.None? then (if writer.lifecycle.Rejected? then None else row.trigger16)
    else
      Some(Trigger16(writer.trigger16.value.expectation,
                     Either(row.trigger16.value.response, writer.trigger16.value.response)))
  }

  ghost function ReservationAfter(row: Option<Reservation>, writer: Option<Reservation>): (r: Option<Reservation>) {
    if row.None? then writer
    else if writer.None? then row
    else
      Some(Reservation(row.value.action, Either(row.value.status, writer.value.status), writer.value.reconciliation))
  }

  /** The job is always the writer's; offer and reply are filled in only while the writer stands. */
  ghost function JobAfter(row: Option<JobEvidence>, writer: Option<JobEvidence>,
      stands: bool): (j: Option<JobEvidence>)
  {
    if row.None? then writer
    else if writer.None? then row
    else if stands then
      Some(JobEvidence(row.value.request, Either(row.value.offer, writer.value.offer),
                       Either(row.value.reply, writer.value.reply), writer.value.job))
    else Some(JobEvidence(row.value.request, row.value.offer, row.value.reply, writer.value.job))
  }

  /** A dispatch that was definitely not sent gives up its expectation. */
  ghost predicate Unsent(row: CommandResult, writer: CommandResult) {
    && row.trigger201.Some? && row.trigger201.value.response.None? && row.lifecycle.Dispatched?
    && writer.lifecycle.Rejected? && writer.trigger201.None?
  }

  /** The version after the triggers and the two reports are merged. */
  ghost function EarlySchema(row: CommandResult, writer: CommandResult): (v: ContractVersion) {
    if row.profiles.Some? then Schedules201Version
    else if row.device.Some? then DeviceModel201Version
    else if row.trigger201.Some? && !Unsent(row, writer) then Trigger201Version
    else if row.trigger16.Some? && !(writer.lifecycle.Rejected? && writer.trigger16.None?) then Trigger16Version
    else writer.schema
  }

  /** The version of the last family that stamped the result, in the order the families are merged. */
  ghost function SchemaAfter(row: CommandResult, writer: CommandResult): (v: ContractVersion) {
    if !WriterStands(row, writer) then row.schema
    else if row.diagnostics201.Some? && writer.diagnostics201.None? then JobVersion(3)
    else if row.diagnostics16.Some? && writer.diagnostics16.None? then JobVersion(2)
    else if row.firmware201.Some? && writer.firmware201.None? then JobVersion(1)
    else if row.firmware16.Some? && writer.firmware16.None? then JobVersion(0)
    else if row.reservation201.Some? && writer.reservation201.None? then ReservationVersion(201)
    else if row.reservation16.Some? && writer.reservation16.None? then ReservationVersion(16)
    else EarlySchema(row, writer)
  }

  /** Lifecycle, time and replies: the writer's if it stands, otherwise the row's. */
  ghost predicate LifecycleStored(row: CommandResult, writer: CommandResult, after: CommandResult) {
    if WriterStands(row, writer) then
      after.lifecycle == writer.lifecycle && after.recordedAt == writer.recordedAt && after.replies == writer.replies
    else after.lifecycle == row.lifecycle && after.recordedAt == row.recordedAt && after.replies == row.replies
  }

  ghost predicate JobsStored(row: CommandResult, writer: CommandResult, after: CommandResult) {
    var stands := WriterStands(row, writer);
    && after.firmware16 == JobAfter(row.firmware16, writer.firmware16, stands)
    && after.firmware201 == JobAfter(row.firmware201, writer.firmware201, stands)
    && after.diagnostics16 == JobAfter(row.diagnostics16, writer.diagnostics16, stands)
    && after.diagnostics201 == JobAfter(row.diagnostics201, writer.diagnostics201, stands)
  }

  ghost predicate ReservationsStored(row: CommandResult, writer: CommandResult, after: CommandResult) {
    && after.reservation16 == ReservationAfter(row.reservation16, writer.reservation16)
    && after.reservation201 == ReservationAfter(row.reservation201, writer.reservation201)
  }

  // The families' merge --------------------------------------------------------------------------

  ghost function Families(row: CommandResult, writer: CommandResult): (g: CommandResult)
    requires MergeFamilies(row, writer).Ok?
  {
    MergeFamilies(row, writer).value.result
  }

  lemma MergedJobAfter(row: Option<JobEvidence>, writer: Option<JobEvidence>)
    requires MergeJob(row, writer).Ok?
    ensures MergeJob(row, writer).value == JobAfter(row, writer, true)
    ensures KeepSettled(row, MergeJob(row, writer).value) == JobAfter(row, writer, false)
  {
  }

  lemma MergedReservationAfter(row: Option<Reservation>, writer: Option<Reservation>)
    requires MergeReservation(row, writer).Ok?
    ensures MergeReservation(row, writer).value == ReservationAfter(row, writer)
  {
  }

  lemma FamiliesReplies(row: CommandResult, writer: CommandResult)
    requires MergeFamilies(row, writer).Ok?
    ensures var g := Families(row, writer);
            && g.trigger16 == Trigger16After(row, writer)
            && (if Pinned(row) then g.lifecycle == row.lifecycle && g.recordedAt == row.recordedAt
                else g.lifecycle == writer.lifecycle && g.recordedAt == writer.recordedAt
                     && g.replies == writer.replies)
  {
  }

  /** The version after lists, reservations and jobs, for a row that pins nothing. */
  lemma LateSchema(row: CommandResult, d: CommandResult)
    requires MergeLocalAuthorization(row, d).Ok? && !Pinned(row)
    requires MergeReservations(row, MergeLocalAuthorization(row, d).value).Ok?
    requires MergeJobs(row, MergeReservations(row, MergeLocalAuthorization(row, d).value).value).Ok?
    ensures MergeJobs(row, MergeReservations(row, MergeLocalAuthorization(row, d).value).value).value.schema
            == (if row.diagnostics201.Some? && d.diagnostics201.None? then JobVersion(3)
                else if row.diagnostics16.Some? && d.diagnostics16.None? then JobVersion(2)
                else if row.firmware201.Some? && d.firmware201.None? then JobVersion(1)
                else if row.firmware16.Some? && d.firmware16.None? then JobVersion(0)
                else if row.reservation201.Some? && d.reservation201.None? then ReservationVersion(201)
                else if row.reservation16.Some? && d.reservation16.None? then ReservationVersion(16)
                else d.schema)
  {
  }

  lemma FamiliesSchema(row: CommandResult, writer: CommandResult)
    requires MergeFamilies(row, writer).Ok? && WriterStands(row, writer)
    ensures Families(row, writer).schema == SchemaAfter(row, writer)
  {
    var a := MergeTrigger16(row, writer).value;
    var b := MergeTrigger201(row, a).value.result;
    var c := MergeDevice(row, b).value;
    var d := MergeProfiles(row, c).value;
    assert d.schema == EarlySchema(row, writer);
    LateSchema(row, d);
  }

  /** The evidence the lifecycle rule looks for in the merged families is in the row or the writer. */
  lemma FamiliesCorrelate(row: CommandResult, writer: CommandResult)
    requires MergeFamilies(row, writer).Ok?
    requires row.lifecycle.TransmissionUncertain? && writer.lifecycle.ProtocolResponse? && !Pinned(row)
    ensures CorrelatedReply(row, Families(row, writer)) <==> NativeReply(row, writer)
  {
    var g := Families(row, writer);
    FamiliesReplies(row, writer);
    Runs.FamiliesParts(row, writer);
    Runs.FamiliesEvidence(row, writer);
    MergedReservationAfter(row.reservation16, writer.reservation16);
    MergedReservationAfter(row.reservation201, writer.reservation201);
    assert row.trigger201.Some? ==>
        g.trigger201.Some? && (g.trigger201.value.response.Some? <==>
            || row.trigger201.value.response.Some?
            || (writer.trigger201.Some? && writer.trigger201.value.response.Some?));
  }

  /** The lifecycle rule overrules exactly the writers that do not stand. */
  lemma OverruledUnlessStands(row: CommandResult, writer: CommandResult)
    requires MergeFamilies(row, writer).Ok? && (Pinned(row) ==> row.lifecycle.ProtocolResponse?)
    ensures Overruled(row, Runs.Considered(row, writer)) <==> !WriterStands(row, writer)
  {
    FamiliesReplies(row, writer);
    if row.lifecycle.TransmissionUncertain? && writer.lifecycle.ProtocolResponse? && !Pinned(row) {
      FamiliesCorrelate(row, writer);
    }
  }

  lemma MergedFamiliesAfter(row: CommandResult, writer: CommandResult)
    requires MergeFamilies(row, writer).Ok?
    ensures ReservationsStored(row, writer, Families(row, writer))
    ensures WriterStands(row, writer) ==> JobsStored(row, writer, Families(row, writer))
    ensures !WriterStands(row, writer) ==> JobsStored(row, writer, Overrule(row, Families(row, writer)))
  {
    Runs.FamiliesEvidence(row, writer);
    MergedJobAfter(row.firmware16, writer.firmware16);
    MergedJobAfter(row.firmware201, writer.firmware201);
    MergedJobAfter(row.diagnostics16, writer.diagnostics16);
    MergedJobAfter(row.diagnostics201, writer.diagnostics201);
    MergedReservationAfter(row.reservation16, writer.reservation16);
    MergedReservationAfter(row.reservation201, writer.reservation201);
  }

  /** What is stored beside effects, observations, the 2.0.1 trigger and the two reports. */
  ghost predicate Stored(row: CommandResult, writer: CommandResult, after: CommandResult) {
    && LifecycleStored(row, writer, after) && after.schema == SchemaAfter(row, writer)
    && JobsStored(row, writer, after) && ReservationsStored(row, writer, after)
    && after.trigger16 == Trigger16After(row, writer)
    && after.route == row.route == writer.route && after.resource == row.resource == writer.resource
  }

  lemma SettledStored(row: CommandResult, writer: CommandResult)
    requires MergeFamilies(row, writer).Ok? && (Pinned(row) ==> row.lifecycle.ProtocolResponse?)
    ensures Stored(row, writer, SettleLifecycle(row, Runs.Considered(row, writer)))
  {
    OverruledUnlessStands(row, writer);
    MergedFamiliesAfter(row, writer);
    FamiliesReplies(row, writer);
    Runs.FamiliesParts(row, writer);
    if WriterStands(row, writer) {
      FamiliesSchema(row, writer);
    }
  }

  /** A row with list evidence only takes further writes while its lifecycle is a protocol response. */
  lemma PinnedStaysAnswered(row: Row, writer: CommandResult, accepted: bool)
    requires WriteValue(Some(row), writer, accepted).Ok? && Pinned(row.result)
    ensures row.result.lifecycle.ProtocolResponse?
  {
    var merged := MergeStored(row.result, writer).value.result;
    Runs.FamiliesParts(row.result, writer);
    Runs.SettledParts(row.result, writer);
    Runs.FinishParts(merged);
    FamiliesLists(row.result, writer);
  }

  lemma FamiliesLists(row: CommandResult, writer: CommandResult)
    requires MergeStored(row, writer).Ok? && Pinned(row)
    ensures MergeStored(row, writer).value.result.lifecycle == row.lifecycle
            && Pinned(MergeStored(row, writer).value.result)
  {
    Runs.FamiliesParts(row, writer);
  }

  /**
   A successful write, field by field. In particular the writer's lifecycle, time and replies replace
   those of an unpinned terminal row exactly when that row's transmission is uncertain, the writer
   brings a protocol response, and row or writer holds the native reply.
   */
  lemma WriteStores(row: Row, writer: CommandResult, accepted: bool)
    requires WriteValue(Some(row), writer, accepted).Ok?
    ensures var after := WriteValue(Some(row), writer, accepted).value;
            && Stored(row.result, writer, after.result)
            && (after.active <==> row.active && !Unsent(row.result, writer)) && after.staged == row.staged
  {
    if Pinned(row.result) {
      PinnedStaysAnswered(row, writer, accepted);
    }
    SettledStored(row.result, writer);
    var merged := MergeStored(row.result, writer).value.result;
    Runs.FinishParts(merged);
    Runs.FamiliesParts(row.result, writer);
  }

  // The 2.0.1 trigger ----------------------------------------------------------------------------

  /**
   A stored expectation stays with its window and targets, takes a first reply, and its status is worked
   out again at the writer's time, but never before the dispatch, and never before the deadline once it
   was found absent. A rejected command takes no expectation.
   */
  ghost function Trigger201After(row: CommandResult, writer: CommandResult): (t: Option<Trigger201>) {
    if row.trigger201.None? then (if row.lifecycle.Rejected? then None else writer.trigger201)
    else if Unsent(row, writer) then None
    else if writer.trigger201.None? then row.trigger201
    else
      var a, b := row.trigger201.value, writer.trigger201.value;
      var floor := if a.status.Absent? then a.deadline else a.startedAt;
      var merged := Trigger201(a.class_, a.scope, a.targets, a.startedAt, a.deadline, Either(a.response, b.response),
                               AppendMissing(b.observed, a.observed, Trigger.ObservedId), b.status);
      var at := if writer.recordedAt < floor then floor else writer.recordedAt;
      Some(merged.(status := Trigger.RefreshedStatus(merged, at)))
  }

  lemma MergedTriggerAfter(row: CommandResult, writer: CommandResult)
    requires Trigger.Merge(row, writer).Ok?
    ensures Trigger.Merge(row, writer).value.trigger == Trigger201After(row, writer)
    ensures Trigger.Merge(row, writer).value.retire <==> Unsent(row, writer)
  {
  }

  lemma WriteStoresTrigger(row: Row, writer: CommandResult, accepted: bool)
    requires WriteValue(Some(row), writer, accepted).Ok?
    ensures WriteValue(Some(row), writer, accepted).value.result.trigger201 == Trigger201After(row.result, writer)
  {
    var merged := MergeStored(row.result, writer).value.result;
    Runs.FamiliesParts(row.result, writer);
    Runs.SettledParts(row.result, writer);
    MergedTriggerAfter(row.result, writer);
    Runs.FinishParts(merged);
  }

  // Refusals -------------------------------------------------------------------------------------

  ghost predicate Trigger16Conflict(row: Option<Trigger16>, writer: Option<Trigger16>) {
    && row.Some? && writer.Some?
    && (row.value.expectation != writer.value.expectation || Differ(row.value.response, writer.value.response))
  }

  /** The expectation or its reply changed, an event came from elsewhere, or there are too many events. */
  ghost predicate Trigger201Conflict(row: Option<Trigger201>, writer: Option<Trigger201>) {
    && row.Some? && writer.Some?
    && var a, b := row.value, writer.value;
       || a.class_ != b.class_ || a.scope != b.scope || a.targets != b.targets
       || a.startedAt != b.startedAt || a.deadline != b.deadline
       || Differ(a.response, b.response)
       || (exists e :: e in b.observed && e !in a.observed)
       || |AppendMissing(b.observed, a.observed, Trigger.ObservedId)|
          > (if a.class_.SignChargingStationCertificate? || a.class_.SignV2GCertificate?
                || a.class_.SignCombinedCertificate? then 66 else 65)
  }

  ghost predicate DeviceConflict(row: Option<DeviceModel>, writer: Option<DeviceModel>) {
    && row.Some? && writer.Some?
    && var a, b := row.value, writer.value;
       || a.query != b.query || a.connection != b.connection || a.generation != b.generation
       || a.dispatchRecordedAt != b.dispatchRecordedAt
       || Differ(a.ack, b.ack) || (a.variables != [] && b.variables != [] && a.variables != b.variables)
  }

  ghost predicate ProfilesConflict(row: Option<ChargingProfiles>, writer: Option<ChargingProfiles>) {
    && row.Some? && writer.Some?
    && (row.value.query != writer.value.query || row.value.status != writer.value.status
        || row.value.reasonCode != writer.value.reasonCode)
  }

  ghost predicate ReservationConflict(row: Option<Reservation>, writer: Option<Reservation>) {
    && row.Some? && writer.Some?
    && (row.value.action != writer.value.action || Differ(row.value.status, writer.value.status))
  }

  ghost predicate JobConflict(row: Option<JobEvidence>, writer: Option<JobEvidence>) {
    && row.Some? && writer.Some?
    && (row.value.request != writer.value.request || Differ(row.value.offer, writer.value.offer)
        || Differ(row.value.reply, writer.value.reply))
  }

  /** Some family's stored evidence contradicts the writer's. */
  ghost predicate Conflicts(row: CommandResult, writer: CommandResult) {
    || row.route != writer.route || row.resource != writer.resource
    || Trigger16Conflict(row.trigger16, writer.trigger16) || Trigger201Conflict(row.trigger201, writer.trigger201)
    || DeviceConflict(row.device, writer.device) || ProfilesConflict(row.profiles, writer.profiles)
    || Differ(row.replies.localAuthorization16, writer.replies.localAuthorization16)
    || Differ(row.replies.localAuthorization201, writer.replies.localAuthorization201)
    || ReservationConflict(row.reservation16, writer.reservation16)
    || ReservationConflict(row.reservation201, writer.reservation201)
    || JobConflict(row.firmware16, writer.firmware16) || JobConflict(row.firmware201, writer.firmware201)
    || JobConflict(row.diagnostics16, writer.diagnostics16) || JobConflict(row.diagnostics201, writer.diagnostics201)
  }

  lemma TriggerRefusedExactlyOnConflict(row: CommandResult, writer: CommandResult)
    ensures Trigger.Merge(row, writer).Err? <==> Trigger201Conflict(row.trigger201, writer.trigger201)
  {
  }

  lemma JobsRefusedExactlyOnConflict(row: CommandResult, writer: CommandResult)
    ensures MergeJobs(row, writer).Err?
            <==> || JobConflict(row.firmware16, writer.firmware16) || JobConflict(row.firmware201, writer.firmware201)
                 || JobConflict(row.diagnostics16, writer.diagnostics16)
                 || JobConflict(row.diagnostics201, writer.diagnostics201)
  {
  }

  lemma ReservationsRefusedExactlyOnConflict(row: CommandResult, writer: CommandResult)
    ensures MergeReservations(row, writer).Err?
            <==> || ReservationConflict(row.reservation16, writer.reservation16)
                 || ReservationConflict(row.reservation201, writer.reservation201)
  {
  }

  lemma ListsRefusedExactlyOnConflict(row: CommandResult, writer: CommandResult)
    ensures MergeLocalAuthorization(row, writer).Err?
            <==> || Differ(row.replies.localAuthorization16, writer.replies.localAuthorization16)
                 || Differ(row.replies.localAuthorization201, writer.replies.localAuthorization201)
  {
  }

  lemma ReportsRefusedExactlyOnConflict(row: CommandResult, writer: CommandResult)
    ensures MergeDevice(row, writer).Err? <==> DeviceConflict(row.device, writer.device)
    ensures MergeProfiles(row, writer).Err? <==> ProfilesConflict(row.profiles, writer.profiles)
  {
  }

  lemma TriggersRefusedExactlyOnConflict(row: CommandResult, writer: CommandResult)
    ensures MergeTrigger16(row, writer).Err? <==> Trigger16Conflict(row.trigger16, writer.trigger16)
    ensures MergeTrigger201(row, writer).Err? <==> Trigger201Conflict(row.trigger201, writer.trigger201)
  {
    TriggerRefusedExactlyOnConflict(row, writer);
  }

  /** The last three families, after the four before them. */
  lemma LaterFamiliesRefuse(row: CommandResult, d: CommandResult)
    ensures (var e :- MergeLocalAuthorization(row, d); var f :- MergeReservations(row, e); MergeJobs(row, f)).Err?
            <==> || Differ(row.replies.localAuthorization16, d.replies.localAuthorization16)
                 || Differ(row.replies.localAuthorization201, d.replies.localAuthorization201)
                 || ReservationConflict(row.reservation16, d.reservation16)
                 || ReservationConflict(row.reservation201, d.reservation201)
                 || JobConflict(row.firmware16, d.firmware16) || JobConflict(row.firmware201, d.firmware201)
                 || JobConflict(row.diagnostics16, d.diagnostics16) || JobConflict(row.diagnostics201, d.diagnostics201)
  {
    ListsRefusedExactlyOnConflict(row, d);
    if MergeLocalAuthorization(row, d).Ok? {
      var e := MergeLocalAuthorization(row, d).value;
      ReservationsRefusedExactlyOnConflict(row, e);
      if MergeReservations(row, e).Ok? {
        JobsRefusedExactlyOnConflict(row, MergeReservations(row, e).value);
      }
    }
  }

  /** The merge is refused exactly when stored evidence and writer contradict each other. */
  lemma MergeRefusedExactlyOnConflict(row: CommandResult, writer: CommandResult)
    ensures MergeFamilies(row, writer).Err? <==> Conflicts(row, writer)
  {
    TriggersRefusedExactlyOnConflict(row, writer);
    if row.route == writer.route && row.resource == writer.resource && MergeTrigger16(row, writer).Ok? {
      var a := MergeTrigger16(row, writer).value;
      TriggersRefusedExactlyOnConflict(row, a);
      if MergeTrigger201(row, a).Ok? {
        var b := MergeTrigger201(row, a).value.result;
        ReportsRefusedExactlyOnConflict(row, b);
        if MergeDevice(row, b).Ok? {
          var c := MergeDevice(row, b).value;
          ReportsRefusedExactlyOnConflict(row, c);
          if MergeProfiles(row, c).Ok? {
            LaterFamiliesRefuse(row, MergeProfiles(row, c).value);
          }
        }
      }
    }
  }

  /** Everything but the device report, which gives way if need be, fits; reports and lists are well placed. */
  ghost predicate Storable(r: CommandResult) {
    && (r.device.Some? ==>
          EffectsSize(r.effects) + ObservationsSize(r.observations)
          + (if r.profiles.Some? && r.profiles.value.report.Complete? then r.profiles.value.report.encoded else 0)
          <= 1048576)
    && (r.profiles.Some? ==>
          && r.lifecycle.ProtocolResponse? && r.schema == Schedules201Version
          && (r.profiles.value.status == NoProfiles <==> r.profiles.value.report == NotExpected))
    && (r.replies.localAuthorization16.Some? || r.replies.localAuthorization201.Some? ==>
          && r.lifecycle.ProtocolResponse? && r.observations == []
          && r.device.None? && r.trigger16.None? && r.trigger201.None?
          && r.replies.(localAuthorization16 := None, localAuthorization201 := None)
             == Replies(None, None, r.replies.compositeSchedule201, None, None, None, None, None)
          && !(r.replies.localAuthorization16.Some? && r.replies.localAuthorization201.Some?))
  }

  lemma FinishRefusedExactlyUnlessStorable(merged: CommandResult)
    ensures Finish(merged).Ok? <==> Storable(merged)
  {
  }

  /** What the merge makes of row and writer, if they agree, can be stored. */
  ghost predicate OutcomeStorable(row: CommandResult, writer: CommandResult) {
    var merged := MergeStored(row, writer);
    merged.Ok? ==> Storable(merged.value.result)
  }

  /** A write over a stored row goes through exactly when nothing conflicts and its outcome is storable. */
  lemma WriteAcceptedIff(row: Row, writer: CommandResult, accepted: bool)
    ensures WriteValue(Some(row), writer, accepted).Ok?
            <==> accepted && !Conflicts(row.result, writer) && OutcomeStorable(row.result, writer)
  {
    MergeRefusedExactlyOnConflict(row.result, writer);
    if MergeFamilies(row.result, writer).Ok? {
      FinishRefusedExactlyUnlessStorable(MergeStored(row.result, writer).value.result);
    }
  }

  // OCPP 1.6 trigger evidence --------------------------------------------------------------------

  /**
   Stored 1.6 trigger evidence survives a write unless the writer is a rejection that carries none.
   That holds whatever the stored lifecycle, so a late rejection drops the evidence of a command that
   has its protocol response, while the response itself stays.
   */
  lemma Trigger16KeptIff(row: Row, writer: CommandResult, accepted: bool)
    requires WriteValue(Some(row), writer, accepted).Ok? && row.result.trigger16.Some?
    ensures var after := WriteValue(Some(row), writer, accepted).value.result;
            && (after.trigger16.Some? <==> !(writer.lifecycle.Rejected? && writer.trigger16.None?))
            && (after.trigger16.Some? ==>
                  && after.trigger16.value.expectation == row.result.trigger16.value.expectation
                  && (row.result.trigger16.value.response.Some? ==>
                        after.trigger16.value.response == row.result.trigger16.value.response))
  {
    WriteStores(row, writer, accepted);
    MergeRefusedExactlyOnConflict(row.result, writer);
  }

  function Answered16(): (r: CommandResult) {
    CommandResult(Trigger16Version, 0, 0, ProtocolResponse(true, None), 0, [], [], Runs.NoReplies(),
                  Some(Trigger16(1, Some(2))), None, None, None, None, None, None, None, None, None)
  }

  /** An answered command loses its stored trigger reply to a late rejection. */
  lemma LateRejectionDropsTrigger16()
    ensures var rejection := Answered16().(lifecycle := Rejected(3), trigger16 := None);
            var after := Runs.Run(None, [Runs.Write(Answered16(), true), Runs.Write(rejection, true)]);
            after.Some? && after.value.result == Answered16().(trigger16 := None)
  {
    var rejection := Answered16().(lifecycle := Rejected(3), trigger16 := None);
    var row := Row(Answered16(), true, false, None);
    assert Runs.Step(None, Runs.Write(Answered16(), true)) == Some(row);
    assert MergeStored(Answered16(), rejection).Ok?;
    var after := Runs.Step(Some(row), Runs.Write(rejection, true));
    assert after.Some? && after.value.result == Answered16().(trigger16 := None);
    var ops := [Runs.Write(Answered16(), true), Runs.Write(rejection, true)];
    assert ops[1..] == [Runs.Write(rejection, true)] && ops[1..][1..] == [];
    assert Runs.Run(Some(row), ops[1..]) == after;
  }

  // The first write ------------------------------------------------------------------------------

  /** A first write stores the writer, with its trigger status worked out and its reports settled. */
  lemma FirstWriteStores(writer: CommandResult, accepted: bool)
    ensures WriteValue(None, writer, accepted).Ok? <==> accepted && Storable(writer)
    ensures WriteValue(None, writer, accepted).Ok? ==>
              var after := WriteValue(None, writer, accepted).value;
              && after.result == writer.(trigger201 := after.result.trigger201, device := after.result.device,
                                         profiles := after.result.profiles)
              && (if writer.trigger201.None? then after.result.trigger201.None?
                  else
                    var t := writer.trigger201.value;
                    after.result.trigger201 == Some(t.(status := Trigger.RefreshedStatus(t, writer.recordedAt))))
              && after.active && after.staged.None?
  {
    FinishRefusedExactlyUnlessStorable(FirstWrite(writer));
  }

  // The other writers ----------------------------------------------------------------------------

  /**
   Finishing a device report writes the stored result with the prepared evidence, the given time and
   the reply's lifecycle, unless the report ended earlier and there is neither a reply to record nor
   progress to add.
   */
  lemma FinishDeviceOutcome(row: Row, evidence: DeviceModel, reply: Option<Lifecycle>, now: Time, accepted: bool)
    requires row.result.device.Some?
    ensures var stored, lifecycle := row.result.device.value, if reply.Some? then reply.value else row.result.lifecycle;
            var p := Device.Prepare(stored, evidence, lifecycle, row.staged);
            var after := Runs.FinishDeviceRow(row, evidence, reply, now, accepted);
            if p.Err? then after.Err?
            else if stored.report != Pending && reply == None
                    && !(Device.MayLearnProgress(stored.report)
                         && (|| evidence.report.Complete?
                             || (evidence.report.Incomplete? && evidence.report.accepted != None)))
            then after == Ok(row)
            else
              after == WriteValue(Some(row.(staged := p.value.staged)),
                                  row.result.(device := Some(p.value.evidence), recordedAt := now,
                                              lifecycle := lifecycle), accepted)
  {
  }

  /**
   Finishing a profile report resolves only an open command; without stored evidence a reply to a
   command that is no longer open changes nothing, and no reply is refused.
   */
  lemma FinishProfilesOutcome(row: Row, evidence: ChargingProfiles, reply: Option<Lifecycle>, now: Time,
      accepted: bool)
    ensures var open := row.result.lifecycle == Admitted || row.result.lifecycle == Dispatched;
            var after := Runs.FinishProfilesRow(row, evidence, reply, now, accepted);
            if row.result.profiles.Some? || (reply.Some? && open) then
              after == WriteValue(Some(row),
                                  row.result.(profiles := Some(evidence), schema := Schedules201Version,
                                              recordedAt := now,
                                              lifecycle := if open && reply.Some? then reply.value
                                                           else row.result.lifecycle), accepted)
            else if reply.Some? then after == Ok(row)
            else after == Err(IntegrityFailure)
  {
  }

  /** An observation is appended exactly when it is new, belongs to a recorded write, and there is room for it. */
  lemma AppendedExactlyWhenNew(row: Row, observation: ConfigurationObservation, keyMatches: bool)
    ensures var op := Runs.AppendObservation(observation, keyMatches);
            var stored := row.result.observations;
            var appended := row.(result := row.result.(observations := stored + [observation]));
            Runs.Step(Some(row), op) == Some(appended)
            <==> && keyMatches && row.result.replies.configuration.Some? && |stored| < 128
                 && (forall o | o in stored :: o.readRequestId != observation.readRequestId)
    ensures var after := Runs.Step(Some(row), Runs.AppendObservation(observation, keyMatches));
            || after == Some(row)
            || after == Some(row.(result := row.result.(observations := row.result.observations + [observation])))
  {
    var stored := row.result.observations;
    assert |stored + [observation]| != |stored|;
    if HasKey(stored, ReadKey, observation.readRequestId) {
      var o :| o in stored && ReadKey(o) == observation.readRequestId;
    }
  }

  /**
   Reconciling a row: the awaited events are recorded as far as the journal has them, the row stays active until the
   deadline or until everything was observed, and nothing else changes.
   */
  lemma ReconciledRow(row: Row, now: Time, journal: seq<Trigger.JournalEvent>, target: TriggerTarget)
    requires row.active && row.result.trigger201.Some? && DistinctKeys(journal, Trigger.JournalId)
    requires var t := row.result.trigger201.value;
             target in t.targets || (target == Station && Observing.ScopedCertificateRequest(t))
    requires Runs.TryStep(Some(row), Runs.ReconcileTrigger(now, journal, true)).Ok?
    ensures var t := row.result.trigger201.value;
            var after := Runs.Step(Some(row), Runs.ReconcileTrigger(now, journal, true));
            && after.Some? && after.value.result.trigger201.Some?
            && var u := after.value.result.trigger201.value;
            && after.value == row.(result := row.result.(trigger201 := Some(u)), active := after.value.active)
            && (after.value.active <==> now < t.deadline && u.status != Observed)
            && (Observing.Served(u, target, journal) || |Trigger.ObservedIds(u)| >= 128)
  {
    var t := row.result.trigger201.value;
    Observing.EveryTargetServed(t, now, journal, target);
    Observing.ReconcileVerdict(t, now, journal);
  }

  /** A row that is not awaited any more, or awaits nothing, is left alone. */
  lemma UnwatchedRowLeftAlone(row: Row, now: Time, journal: seq<Trigger.JournalEvent>, matches: bool)
    requires !row.active || row.result.trigger201.None?
    ensures Runs.Step(Some(row), Runs.ReconcileTrigger(now, journal, matches)) == Some(row)
  {
  }

  /** A job or a reservation is mirrored into its own family's evidence and nowhere else. */
  lemma SyncTouchesOneFamily(row: Row, family: nat, edition: nat, value: Evidence)
    requires family < 4 && (edition == 16 || edition == 201)
    ensures var r, s := row.result, Runs.SyncJobRow(row, family, value).result;
            && Runs.SyncJobRow(row, family, value) == row.(result := s)
            && s == r.(firmware16 := s.firmware16, firmware201 := s.firmware201, diagnostics16 := s.diagnostics16,
                       diagnostics201 := s.diagnostics201)
            && Mirrored(r.firmware16, s.firmware16, value, family == 0)
            && Mirrored(r.firmware201, s.firmware201, value, family == 1)
            && Mirrored(r.diagnostics16, s.diagnostics16, value, family == 2)
            && Mirrored(r.diagnostics201, s.diagnostics201, value, family == 3)
    ensures var r, s := row.result, Runs.SyncReservationRow(row, edition, value).result;
            && Runs.SyncReservationRow(row, edition, value) == row.(result := s)
            && s == r.(reservation16 := s.reservation16, reservation201 := s.reservation201)
            && Reconciled(r.reservation16, s.reservation16, value, edition == 16)
            && Reconciled(r.reservation201, s.reservation201, value, edition == 201)
  {
  }

  ghost predicate Mirrored(before: Option<JobEvidence>, after: Option<JobEvidence>, job: Evidence, mine: bool) {
    if mine && before.Some? then
      after == Some(JobEvidence(before.value.request, before.value.offer, before.value.reply, job))
    else after == before
  }

  ghost predicate Reconciled(before: Option<Reservation>, after: Option<Reservation>, value: Evidence, mine: bool) {
    if mine && before.Some? then after == Some(Reservation(before.value.action, before.value.status, value))
    else after == before
  }

  /**
   Startup ends the report of a row marked pending as interrupted, without progress, drops what was
   staged and clears the mark. Device evidence is looked at first, and then whatever its report.
   */
  lemma InterruptedOutcome(row: Row)
    ensures var after := Runs.Step(Some(row), Runs.InterruptReports);
            && after.Some?
            && (!row.reportPending ==> after.value == row)
            && (row.reportPending && row.result.device.Some? ==>
                  var d := row.result.device.value.(report := Incomplete(Interrupted, None));
                  after.value == row.(result := row.result.(device := Some(d)), reportPending := false, staged := None))
            && (row.reportPending && row.result.device.None? && row.result.profiles.Some? ==>
                  var p := row.result.profiles.value;
                  var ended := if p.report == Pending then p.(report := Incomplete(ProfileInterrupted, None)) else p;
                  after.value
                  == row.(result := row.result.(profiles := Some(ended)), reportPending := false, staged := None))
            && (row.reportPending && row.result.device.None? && row.result.profiles.None? ==> after.value == row)
  {
  }

  /** Reconciling a 1.6 trigger touches the active flag of a watched row and nothing else. */
  lemma Reconciled16Outcome(row: Row, finalized: bool)
    ensures Runs.Step(Some(row), Runs.ReconcileTrigger16(finalized))
            == Some(if row.active && row.result.trigger16.Some? && row.result.trigger201.None? && finalized
                    then row.(active := false) else row)
  {
  }
}
