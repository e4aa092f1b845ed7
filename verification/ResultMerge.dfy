/**
 One result write: every family's evidence is merged with the stored row, a stale or repeated
 terminal lifecycle is overruled together with its replies, and the outcome becomes the new row.
 */
module ResultMerge {
  import opened Common
  import opened CommandResult
  import opened KeyedUnion
  import Trigger = TriggerObservation201
  import Device = DeviceReports201
  import Profiles = ChargingProfiles201

  // Families whose rules need only their own evidence -----------------------------------------

  function MergeTrigger16(previous: CommandResult, incoming: CommandResult): (r: Result<CommandResult>)
    ensures r.Ok? ==> r.value == incoming.(trigger16 := r.value.trigger16, schema := r.value.schema)
  {
    if previous.trigger16.None? then Ok(incoming)
    else if incoming.lifecycle.Rejected? && incoming.trigger16.None? then Ok(incoming)
    else if incoming.trigger16.None? then
      Ok(incoming.(trigger16 := previous.trigger16, schema := Trigger16Version))
    else
      var stored, next := previous.trigger16.value, incoming.trigger16.value;
      if stored.expectation != next.expectation then Err(IntegrityFailure)
      else if stored.response.Some? && next.response.Some? && stored.response != next.response then
        Err(IntegrityFailure)
      else
        var response := if next.response.Some? then next.response else stored.response;
        Ok(incoming.(trigger16 := Some(next.(response := response)), schema := Trigger16Version))
  }

  datatype WithRetire = WithRetire(result: CommandResult, retire: bool)

  function MergeTrigger201(previous: CommandResult, incoming: CommandResult): (r: Result<WithRetire>)
    ensures r.Ok? ==>
              r.value.result == incoming.(trigger201 := r.value.result.trigger201, schema := r.value.result.schema)
  {
    var merged :- Trigger.Merge(previous, incoming);
    var next := incoming.(trigger201 := merged.trigger);
    Ok(WithRetire(if merged.stamped then next.(schema := Trigger201Version) else next, merged.retire))
  }

  function MergeDevice(previous: CommandResult, incoming: CommandResult): (r: Result<CommandResult>)
    ensures r.Ok? ==> r.value == incoming.(device := r.value.device, schema := r.value.schema)
  {
    if previous.device.None? then Ok(incoming)
    else if incoming.device.None? then
      Ok(incoming.(device := previous.device, schema := DeviceModel201Version))
    else
      var merged :- Device.Merge(previous.device.value, incoming.device.value);
      Ok(incoming.(device := Some(merged), schema := DeviceModel201Version))
  }

  function MergeProfiles(previous: CommandResult, incoming: CommandResult): (r: Result<CommandResult>)
    ensures r.Ok? ==> r.value == incoming.(profiles := r.value.profiles, schema := r.value.schema)
  {
    if previous.profiles.None? then Ok(incoming)
    else if incoming.profiles.None? then
      Ok(incoming.(profiles := previous.profiles, schema := Schedules201Version))
    else
      var merged :- Profiles.Merge(previous.profiles.value, incoming.profiles.value);
      Ok(incoming.(profiles := Some(merged), schema := Schedules201Version))
  }

  predicate Pinned(previous: CommandResult) {
    previous.replies.localAuthorization16.Some? || previous.replies.localAuthorization201.Some?
  }

  /** Stored list or cache evidence also pins the lifecycle it was recorded with. */
  function PinLifecycle(previous: CommandResult, incoming: CommandResult): (r: CommandResult) {
    incoming.(schema := previous.schema, lifecycle := previous.lifecycle, recordedAt := previous.recordedAt)
  }

  function MergeLocalAuthorization(previous: CommandResult, incoming: CommandResult): (r: Result<CommandResult>)
    ensures r.Ok? ==>
              && r.value == incoming.(replies := r.value.replies, schema := r.value.schema,
                                      lifecycle := r.value.lifecycle, recordedAt := r.value.recordedAt)
              && r.value.lifecycle == (if Pinned(previous) then previous.lifecycle else incoming.lifecycle)
  {
    var list16, list201 := previous.replies.localAuthorization16, previous.replies.localAuthorization201;
    if list16.Some? && incoming.replies.localAuthorization16.Some?
        && incoming.replies.localAuthorization16 != list16 then
      Err(IntegrityFailure)
    else if list201.Some? && incoming.replies.localAuthorization201.Some?
        && incoming.replies.localAuthorization201 != list201 then
      Err(IntegrityFailure)
    else
      var first := if list16.None? then incoming
                   else PinLifecycle(previous, incoming.(replies := incoming.replies.(localAuthorization16 := list16)));
      Ok(if list201.None? then first
         else PinLifecycle(previous, first.(replies := first.replies.(localAuthorization201 := list201))))
  }

  function MergeReservation(stored: Option<Reservation>,
      incoming: Option<Reservation>): (r: Result<Option<Reservation>>)
  {
    if stored.None? || incoming.None? then Ok(if incoming.None? then stored else incoming)
    else if stored.value.action != incoming.value.action then Err(Conflict)
    else if stored.value.status.Some? && incoming.value.status.Some?
        && stored.value.status != incoming.value.status then
      Err(Conflict)
    else
      var b := incoming.value;
      Ok(Some(if b.status.None? then b.(status := stored.value.status) else b))
  }

  function MergeReservations(previous: CommandResult, incoming: CommandResult): (r: Result<CommandResult>)
    ensures r.Ok? ==>
              r.value == incoming.(reservation16 := r.value.reservation16, reservation201 := r.value.reservation201,
                                   schema := r.value.schema)
  {
    var r16 :- MergeReservation(previous.reservation16, incoming.reservation16);
    var r201 :- MergeReservation(previous.reservation201, incoming.reservation201);
    var schema16 := if previous.reservation16.Some? && incoming.reservation16.None? then ReservationVersion(16)
        else incoming.schema;
    var schema := if previous.reservation201.Some? && incoming.reservation201.None? then ReservationVersion(201)
        else schema16;
    Ok(incoming.(reservation16 := r16, reservation201 := r201, schema := schema))
  }

  function MergeJob(stored: Option<JobEvidence>, incoming: Option<JobEvidence>): (r: Result<Option<JobEvidence>>) {
    if stored.None? || incoming.None? then Ok(if incoming.None? then stored else incoming)
    else
      var a, b := stored.value, incoming.value;
      if a.request != b.request then Err(Conflict)
      else if a.reply.Some? && b.reply.Some? && a.reply != b.reply then Err(Conflict)
      else if a.offer.Some? && b.offer.Some? && a.offer != b.offer then Err(Conflict)
      else Ok(Some(b.(reply := if b.reply.Some? then b.reply else a.reply,
                      offer := if b.offer.Some? then b.offer else a.offer)))
  }

  function JobSchema(schema: ContractVersion, family: nat, stored: Option<JobEvidence>,
      incoming: Option<JobEvidence>): (s: ContractVersion)
  {
    if stored.Some? && incoming.None? then JobVersion(family) else schema
  }

  function MergeJobs(previous: CommandResult, incoming: CommandResult): (r: Result<CommandResult>)
    ensures r.Ok? ==>
              r.value == incoming.(firmware16 := r.value.firmware16, firmware201 := r.value.firmware201,
                                   diagnostics16 := r.value.diagnostics16, diagnostics201 := r.value.diagnostics201,
                                   schema := r.value.schema)
  {
    var f16 :- MergeJob(previous.firmware16, incoming.firmware16);
    var f201 :- MergeJob(previous.firmware201, incoming.firmware201);
    var d16 :- MergeJob(previous.diagnostics16, incoming.diagnostics16);
    var d201 :- MergeJob(previous.diagnostics201, incoming.diagnostics201);
    var s1 := JobSchema(incoming.schema, 0, previous.firmware16, incoming.firmware16);
    var s2 := JobSchema(s1, 1, previous.firmware201, incoming.firmware201);
    var s3 := JobSchema(s2, 2, previous.diagnostics16, incoming.diagnostics16);
    var s4 := JobSchema(s3, 3, previous.diagnostics201, incoming.diagnostics201);
    Ok(incoming.(firmware16 := f16, firmware201 := f201, diagnostics16 := d16, diagnostics201 := d201, schema := s4))
  }

  // Lifecycle ------------------------------------------------------------------------------------

  predicate NativeReservation(r: Option<Reservation>) {
    r.Some? && r.value.status.Some?
  }

  /** The evidence that lets a late protocol response replace an uncertain transmission. */
  predicate CorrelatedReply(previous: CommandResult, incoming: CommandResult) {
    && previous.lifecycle.TransmissionUncertain?
    && incoming.lifecycle.ProtocolResponse?
    && (|| (previous.trigger16.Some? && incoming.trigger16.Some? && incoming.trigger16.value.response.Some?)
        || (previous.trigger201.Some? && incoming.trigger201.Some? && incoming.trigger201.value.response.Some?)
        || NativeReservation(incoming.reservation16)
        || NativeReservation(incoming.reservation201))
  }

  predicate Overruled(previous: CommandResult, incoming: CommandResult) {
    var before, now := LifecycleRank(previous.lifecycle), LifecycleRank(incoming.lifecycle);
    before > now || (before == 2 && now == 2 && !CorrelatedReply(previous, incoming))
  }

  /** The settled reply and offer stay; the job always reflects durable state. */
  function KeepSettled(stored: Option<JobEvidence>, incoming: Option<JobEvidence>): (r: Option<JobEvidence>) {
    if stored.Some? && incoming.Some? then Some(stored.value.(job := incoming.value.job)) else incoming
  }

  function Overrule(previous: CommandResult, incoming: CommandResult): (r: CommandResult) {
    incoming.(
      lifecycle := previous.lifecycle,
      recordedAt := previous.recordedAt,
      schema := previous.schema,
      replies := previous.replies,
      reservation16 := if incoming.reservation16.None? then previous.reservation16 else incoming.reservation16,
      reservation201 := if incoming.reservation201.None? then previous.reservation201 else incoming.reservation201,
      firmware16 := KeepSettled(previous.firmware16, incoming.firmware16),
      firmware201 := KeepSettled(previous.firmware201, incoming.firmware201),
      diagnostics16 := KeepSettled(previous.diagnostics16, incoming.diagnostics16),
      diagnostics201 := KeepSettled(previous.diagnostics201, incoming.diagnostics201))
  }

  function SettleLifecycle(previous: CommandResult, incoming: CommandResult): (r: CommandResult) {
    if Overruled(previous, incoming) then Overrule(previous, incoming) else incoming
  }

  function EffectKey(e: Effect): (id: EventId) { e.eventId }

  function ReadKey(o: ConfigurationObservation): (id: RequestId) { o.readRequestId }

  // The write ------------------------------------------------------------------------------------

  function MergeFamilies(previous: CommandResult, incoming: CommandResult): (r: Result<WithRetire>) {
    if previous.route != incoming.route || previous.resource != incoming.resource then Err(IntegrityFailure)
    else
      var a :- MergeTrigger16(previous, incoming);
      var b :- MergeTrigger201(previous, a);
      var c :- MergeDevice(previous, b.result);
      var d :- MergeProfiles(previous, c);
      var e :- MergeLocalAuthorization(previous, d);
      var f :- MergeReservations(previous, e);
      var g :- MergeJobs(previous, f);
      Ok(WithRetire(g, b.retire))
  }

  function MergeStored(previous: CommandResult, incoming: CommandResult): (r: Result<WithRetire>) {
    var merged :- MergeFamilies(previous, incoming);
    var effects := AppendMissing(merged.result.effects, previous.effects, EffectKey);
    var settled := SettleLifecycle(previous, merged.result.(effects := effects));
    var observations := AppendMissing(settled.observations, previous.observations, ReadKey);
    Ok(WithRetire(settled.(observations := observations), merged.retire))
  }

  function FirstWrite(incoming: CommandResult): (r: CommandResult) {
    if incoming.trigger201.Some? then
      incoming.(trigger201 := Some(Trigger.Refresh(incoming.trigger201.value, incoming.recordedAt)))
    else incoming
  }

  function BoundProfiles(r: CommandResult): (b: CommandResult) {
    if r.profiles.None? then r else r.(profiles := Some(Profiles.Bound(r.profiles.value)))
  }

  /** List and cache evidence stands alone beside its protocol response. */
  predicate ValidLists(r: CommandResult) {
    Pinned(r) ==>
      && r.lifecycle.ProtocolResponse?
      && (r.replies.localAuthorization16.None? || r.replies.localAuthorization201.None?)
      && r.replies.configuration.None? && r.replies.configuration201.None?
      && r.replies.chargingProfile16.None? && r.replies.chargingProfile201.None?
      && r.replies.compositeSchedule16.None? && r.observations == []
      && r.device.None? && r.trigger16.None? && r.trigger201.None?
  }

  function Finish(merged: CommandResult): (r: Result<CommandResult>) {
    var bounded :- Device.BoundOutput(Device.FinalizeResult(merged));
    var stored := BoundProfiles(bounded);
    if Profiles.ValidStored(stored) && ValidLists(stored) then Ok(stored) else Err(IntegrityFailure)
  }

  predicate ReportPending(r: CommandResult) {
    (r.device.Some? && r.device.value.report.Pending?) || (r.profiles.Some? && r.profiles.value.report.Pending?)
  }

  /** The row of `command_results`, with the staged report its request may have. */
  datatype Row = Row(result: CommandResult, active: bool, reportPending: bool, staged: Option<Device.DeviceReport>)

  /**
   The row a write leaves behind. `accepted` is the verdict of the validations of the families that
   this model does not open; a refusal anywhere rolls the write back.
   */
  function WriteValue(row: Option<Row>, incoming: CommandResult, accepted: bool): (r: Result<Row>) {
    if !accepted then Err(Conflict)
    else if row.None? then
      var stored :- Finish(FirstWrite(incoming));
      Ok(Row(stored, true, ReportPending(stored), None))
    else
      var merged :- MergeStored(row.value.result, incoming);
      var stored :- Finish(merged.result);
      Ok(Row(stored, row.value.active && !merged.retire, ReportPending(stored), row.value.staged))
  }
}
