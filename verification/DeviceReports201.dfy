/**
 OCPP 2.0.1 device-model evidence: the merge that freezes an ended report, the finalisation that
 ties a report to its native acknowledgement, the output bound, and the staging of a report that
 completes before its acknowledgement arrives.
 */
module DeviceReports201 {
  import opened Common
  import opened CommandResult

  type DeviceReport = Report<DeviceFailure>

  function AcceptedProgress(report: DeviceReport): (p: Option<Progress>) {
    match report
    case Complete(progress, _, _) => Some(progress)
    case Incomplete(_, accepted) => accepted
    case _ => None
  }

  predicate EnrichableReason(reason: DeviceFailure) {
    reason.MissingAcknowledgement? || reason.NativeRejected? || reason.NotTransmitted?
    || reason.Disconnected? || reason.Capacity? || reason.StorageUnavailable?
  }

  predicate Enrichable(report: DeviceReport) {
    report.Incomplete? && EnrichableReason(report.reason) && report.accepted.None?
  }

  predicate SameQuery(a: DeviceModel, b: DeviceModel) {
    a.query == b.query && a.connection == b.connection && a.generation == b.generation
    && a.dispatchRecordedAt == b.dispatchRecordedAt
  }

  function MergedReport(stored: DeviceReport, incoming: DeviceReport): (r: DeviceReport) {
    if stored.Pending? then incoming
    else if Enrichable(stored) && AcceptedProgress(incoming).Some? then stored.(accepted := AcceptedProgress(incoming))
    else stored
  }

  /** The stored evidence merged into the writer's. */
  function Merge(stored: DeviceModel, incoming: DeviceModel): (r: Result<DeviceModel>) {
    if !SameQuery(stored, incoming) then Err(IntegrityFailure)
    else if stored.ack.Some? && incoming.ack.Some? && incoming.ack != stored.ack then Err(IntegrityFailure)
    else if stored.variables != [] && incoming.variables != [] && stored.variables != incoming.variables then
      Err(IntegrityFailure)
    else
      Ok(incoming.(ack := if stored.ack.Some? then stored.ack else incoming.ack,
               variables := if stored.variables != [] then stored.variables else incoming.variables,
               report := MergedReport(stored.report, incoming.report)))
  }

  /** The failure an acknowledgement, or without one the command lifecycle, imposes on a report. */
  function ImposedFailure(ack: Option<DeviceAck>, lifecycle: Lifecycle): (f: Option<DeviceFailure>) {
    match ack
    case Some(AckRejected) => Some(NativeRejected)
    case Some(AckNotSupported) => Some(NativeRejected)
    case Some(AckEmptyResultSet) => None
    case Some(AckAccepted) => None
    case None =>
      match lifecycle
      case Rejected(_) => Some(NotTransmitted)
      case TransmissionUncertain(_) => Some(MissingAcknowledgement)
      case ProtocolResponse(accepted, _) => if accepted then None else Some(NativeRejected)
      case _ => None
  }

  function Finalize(d: DeviceModel, lifecycle: Lifecycle): (r: DeviceModel) {
    if d.query.reportId.None? then d
    else if d.ack == Some(AckEmptyResultSet) then d.(report := NotExpected)
    else
      var imposed := ImposedFailure(d.ack, lifecycle);
      var failure := if imposed.None? && d.ack.None? && d.report.Complete? then Some(MissingAcknowledgement)
          else imposed;
      if failure.None? || d.report.Incomplete? || d.report.NotExpected? then d
      else d.(report := Incomplete(failure.value, AcceptedProgress(d.report)))
  }

  function FinalizeResult(r: CommandResult): (f: CommandResult) {
    if r.device.None? then r else r.(device := Some(Finalize(r.device.value, r.lifecycle)))
  }

  predicate Fits(r: CommandResult) {
    EncodedSize(r) <= OUTPUT_LIMIT
  }

  function DropReport(d: DeviceModel): (r: DeviceModel) {
    if d.report.Complete? then d.(report := Incomplete(OutputLimit, Some(d.report.progress))) else d
  }

  /** A complete report gives way when the whole result outgrows its bound. */
  function BoundOutput(r: CommandResult): (b: Result<CommandResult>) {
    if r.device.None? || Fits(r) then Ok(r)
    else
      var bounded := r.(device := Some(DropReport(r.device.value)));
      if Fits(bounded) then Ok(bounded) else Err(InvalidRequest)
  }

  // What a write makes of a report ---------------------------------------------------------------

  /** The report ended for this reason, with the progress it had; a report that ended before stays. */
  ghost function EndedBy(report: DeviceReport, reason: DeviceFailure): (r: DeviceReport) {
    match report
    case Pending => Incomplete(reason, None)
    case Complete(progress, _, _) => Incomplete(reason, Some(progress))
    case Incomplete(_, _) => report
    case NotExpected => report
  }

  /**
   Which reason ends a report: the acknowledgement decides, and without one the lifecycle. A report
   that is complete without either has missed its acknowledgement.
   */
  lemma FinalizedReport(d: DeviceModel, lifecycle: Lifecycle)
    ensures Finalize(d, lifecycle) == d.(report := Finalize(d, lifecycle).report)
    ensures d.query.reportId.None? ==> Finalize(d, lifecycle).report == d.report
    ensures d.query.reportId.Some? ==>
              var report := Finalize(d, lifecycle).report;
              && (d.ack == Some(AckAccepted) ==> report == d.report)
              && (d.ack == Some(AckEmptyResultSet) ==> report == NotExpected)
              && (d.ack == Some(AckRejected) || d.ack == Some(AckNotSupported) ==>
                    report == EndedBy(d.report, NativeRejected))
              && (d.ack == None ==>
                    match lifecycle
                    case Rejected(_) => report == EndedBy(d.report, NotTransmitted)
                    case TransmissionUncertain(_) => report == EndedBy(d.report, MissingAcknowledgement)
                    case ProtocolResponse(accepted, _) =>
                      report == (if !accepted then EndedBy(d.report, NativeRejected)
                                 else if d.report.Complete? then EndedBy(d.report, MissingAcknowledgement)
                                 else d.report)
                    case _ => report == (if d.report.Complete? then EndedBy(d.report, MissingAcknowledgement)
                                         else d.report))
  {
  }

  /** A failure that came before any fragment was counted may still learn how far the report got. */
  ghost predicate MayLearnProgress(report: DeviceReport) {
    && report.Incomplete? && report.accepted == None
    && report.reason in {MissingAcknowledgement, NativeRejected, NotTransmitted, Disconnected, Capacity,
                         StorageUnavailable}
  }

  /** Only a pending report takes the writer's; an early failure at most learns the writer's progress. */
  lemma MergedReportMeaning(stored: DeviceModel, incoming: DeviceModel)
    requires Merge(stored, incoming).Ok?
    ensures var merged := Merge(stored, incoming).value;
            && merged == stored.(ack := merged.ack, variables := merged.variables, report := merged.report)
            && merged.ack == (if stored.ack == None then incoming.ack else stored.ack)
            && merged.variables == (if stored.variables == [] then incoming.variables else stored.variables)
            && (stored.report == Pending ==> merged.report == incoming.report)
            && (stored.report != Pending && !MayLearnProgress(stored.report) ==> merged.report == stored.report)
            && (MayLearnProgress(stored.report) ==>
                  match incoming.report
                  case Complete(progress, _, _) => merged.report == Incomplete(stored.report.reason, Some(progress))
                  case Incomplete(_, accepted) => merged.report == Incomplete(stored.report.reason, accepted)
                  case _ => merged.report == stored.report)
  {
  }

  // What one write keeps -------------------------------------------------------------------------

  /** Stored evidence of a report query is consistent with its acknowledgement. */
  ghost predicate Settled(d: DeviceModel) {
    d.query.reportId.Some? ==>
      && (d.report.Complete? ==> d.ack == Some(AckAccepted))
      && (d.ack == Some(AckEmptyResultSet) ==> d.report.NotExpected?)
  }

  /** The output bound replaced the report. */
  ghost predicate OutputDropped(before: DeviceModel, after: DeviceModel) {
    before.report.Complete? && after.report == Incomplete(OutputLimit, Some(before.report.progress))
  }

  ghost predicate EmptiedFirst(before: DeviceModel, after: DeviceModel) {
    before.ack.None? && after.ack == Some(AckEmptyResultSet) && after.report.NotExpected?
  }

  ghost predicate ProgressFilled(before: DeviceReport, after: DeviceReport) {
    before.Incomplete? && after.Incomplete? && after.reason == before.reason
    && (after.accepted == before.accepted || Enrichable(before))
  }

  /** How the evidence of one query may move: identity and acknowledgement stay, an ended report stays ended. */
  ghost predicate Follows(before: DeviceModel, after: DeviceModel) {
    && SameQuery(before, after)
    && (before.ack.Some? ==> after.ack == before.ack)
    && (before.variables != [] ==> after.variables == before.variables)
    && (before.report.Complete? ==> after.report == before.report || OutputDropped(before, after))
    && (before.report.Incomplete? ==> ProgressFilled(before.report, after.report) || EmptiedFirst(before, after))
    && (before.report.NotExpected? ==> after.report.NotExpected?)
  }

  lemma FollowsTransitive(a: DeviceModel, b: DeviceModel, c: DeviceModel)
    requires Settled(a) && Settled(b) && a.query.reportId.Some?
    requires Follows(a, b) && Follows(b, c)
    ensures Follows(a, c)
  {
    if a.report.Complete? && OutputDropped(a, b) {
      assert b.ack == Some(AckAccepted) && !Enrichable(b.report);
    }
  }

  /** A merged and finalised write settles the evidence and moves it only as `Follows` allows. */
  lemma WriteSettles(stored: DeviceModel, incoming: DeviceModel, lifecycle: Lifecycle)
    requires stored.query.reportId.Some? && Settled(stored) && Merge(stored, incoming).Ok?
    ensures var after := Finalize(Merge(stored, incoming).value, lifecycle);
            && Settled(after) && Follows(stored, after) && Settled(DropReport(after))
               && Follows(stored, DropReport(after))
            && (stored.report.Complete? ==> after.report == stored.report)
  {
    var merged := Merge(stored, incoming).value;
    var after := Finalize(merged, lifecycle);
    FinalizeSettles(merged, lifecycle);
    if stored.report.Complete? {
      assert merged.ack == Some(AckAccepted);
    }
  }

  /** Finalisation alone settles a first write. */
  lemma FinalizeSettles(d: DeviceModel, lifecycle: Lifecycle)
    ensures Settled(Finalize(d, lifecycle)) && Settled(DropReport(Finalize(d, lifecycle)))
    ensures !d.report.Pending? ==> !Finalize(d, lifecycle).report.Pending?
    ensures Finalize(Finalize(d, lifecycle), lifecycle) == Finalize(d, lifecycle)
  {
  }

  /** The device part of a write: merged with what is stored, finalised, and bounded if need be. */
  ghost predicate Written(before: Option<DeviceModel>, incoming: Option<DeviceModel>, lifecycle: Lifecycle,
      after: Option<DeviceModel>)
  {
    if before.None? && incoming.None? then after.None?
    else
      var merged := if before.None? then Ok(incoming.value)
                    else if incoming.None? then Ok(before.value)
                    else Merge(before.value, incoming.value);
      && merged.Ok?
      && (|| after == Some(Finalize(merged.value, lifecycle))
          || after == Some(DropReport(Finalize(merged.value, lifecycle))))
  }

  /** A write settles what it stores and moves a stored report query only as `Follows` allows. */
  lemma WrittenFollows(before: Option<DeviceModel>, incoming: Option<DeviceModel>, lifecycle: Lifecycle,
      after: Option<DeviceModel>)
    requires Written(before, incoming, lifecycle, after) && (before.Some? ==> Settled(before.value))
    ensures after.Some? ==> Settled(after.value)
    ensures before.Some? && before.value.query.reportId.Some? ==> after.Some? && Follows(before.value, after.value)
  {
    if before.Some? {
      var writer := if incoming.Some? then incoming.value else before.value;
      assert incoming.None? ==> Merge(before.value, writer) == Ok(before.value);
      FinalizeSettles(Merge(before.value, writer).value, lifecycle);
      if before.value.query.reportId.Some? {
        WriteSettles(before.value, writer, lifecycle);
      }
    } else if incoming.Some? {
      FinalizeSettles(incoming.value, lifecycle);
    }
  }

  // Startup --------------------------------------------------------------------------------------

  function Interrupt(d: DeviceModel): (r: DeviceModel) {
    d.(report := Incomplete(Interrupted, None))
  }

  /** Startup ends a pending report for good: the reason is kept and no progress is ever invented. */
  lemma InterruptEnds(d: DeviceModel)
    requires Settled(d) && d.report.Pending?
    ensures Settled(Interrupt(d)) && Follows(d, Interrupt(d)) && !Enrichable(Interrupt(d).report)
  {
  }

  // Staging --------------------------------------------------------------------------------------

  datatype Prepared = Prepared(evidence: DeviceModel, staged: Option<DeviceReport>)

  function ProgressOf(staged: Option<DeviceReport>): (p: Option<Progress>) {
    if staged.Some? then AcceptedProgress(staged.value) else None
  }

  /** The four rewrites `finish` applies to the evidence before it is written like any other result. */
  function EnrichStored(stored: DeviceReport, incoming: DeviceReport): (r: DeviceReport) {
    if Enrichable(stored) && AcceptedProgress(incoming).Some? then
      Incomplete(stored.reason, AcceptedProgress(incoming))
    else incoming
  }

  function FillFromStaging(stored: DeviceReport, incoming: DeviceReport,
      staged: Option<DeviceReport>): (r: DeviceReport)
  {
    if stored.Pending? && incoming.Incomplete? && incoming.accepted.None? then
      incoming.(accepted := ProgressOf(staged))
    else incoming
  }

  predicate HoldsEarly(stored: DeviceReport, ack: Option<DeviceAck>, lifecycle: Lifecycle, incoming: DeviceReport) {
    stored.Pending? && ack.None? && (lifecycle.Admitted? || lifecycle.Dispatched?) && incoming.Complete?
  }

  function Prepare(stored: DeviceModel, incoming: DeviceModel, lifecycle: Lifecycle,
      staged: Option<DeviceReport>): (r: Result<Prepared>)
  {
    if !SameQuery(stored, incoming) then Err(IntegrityFailure)
    else if stored.ack.Some? && incoming.ack.Some? && incoming.ack != stored.ack then Err(IntegrityFailure)
    else
      var report := FillFromStaging(stored.report, EnrichStored(stored.report, incoming.report), staged);
      var ack := if stored.ack.Some? then stored.ack else incoming.ack;
      var early := HoldsEarly(stored.report, ack, lifecycle, report);
      if early && ReportSize(report) > OUTPUT_LIMIT then Err(IntegrityFailure)
      else
        var held := if early && staged.None? then Some(report) else staged;
        var after := if early then Pending else report;
        var released :=
          if stored.report.Pending? && after.Pending? && ack == Some(AckAccepted) && held.Some? then held.value
              else after;
        var failure := ImposedFailure(ack, lifecycle);
        var ended :=
          if stored.report.Pending? && released.Pending? && failure.Some? then
              Incomplete(failure.value, ProgressOf(held))
          else released;
        var keep := ended.Pending? && failure.None? && ack != Some(AckEmptyResultSet);
        Ok(Prepared(incoming.(report := ended), if keep then held else None))
  }

  /** A report that completes before its acknowledgement is held back, unchanged, and stays pending. */
  lemma EarlyReportHeld(stored: DeviceModel, incoming: DeviceModel, lifecycle: Lifecycle)
    requires Prepare(stored, incoming, lifecycle, None).Ok?
    requires HoldsEarly(stored.report, if stored.ack.Some? then stored.ack else incoming.ack,
                        lifecycle, incoming.report)
    ensures Prepare(stored, incoming, lifecycle, None).value
            == Prepared(incoming.(report := Pending), Some(incoming.report))
  {
  }

  /** The acknowledgement that follows releases exactly the held report, and nothing stays staged. */
  lemma AcknowledgementReleasesHeld(stored: DeviceModel, incoming: DeviceModel, lifecycle: Lifecycle,
      held: DeviceReport)
    requires stored.report.Pending? && incoming.report.Pending? && held.Complete?
    requires (if stored.ack.Some? then stored.ack else incoming.ack) == Some(AckAccepted)
    requires Prepare(stored, incoming, lifecycle, Some(held)).Ok?
    ensures var p := Prepare(stored, incoming, lifecycle, Some(held)).value;
            && p.evidence.report == held && p.staged.None?
            && (Merge(stored, p.evidence).Ok? ==>
                  Finalize(Merge(stored, p.evidence).value, lifecycle).report == held)
  {
  }

  /** The acknowledgement a finisher works with: the stored one, or else the one it brings. */
  ghost function KnownAck(stored: DeviceModel, incoming: DeviceModel): (a: Option<DeviceAck>) {
    if stored.ack == None then incoming.ack else stored.ack
  }

  /** A complete report arrived while the command is open and not acknowledged. */
  ghost predicate ArrivesEarly(stored: DeviceModel, incoming: DeviceModel, lifecycle: Lifecycle) {
    && stored.report == Pending && KnownAck(stored, incoming) == None && incoming.report.Complete?
    && (lifecycle == Admitted || lifecycle == Dispatched)
  }

  /** The reason an acknowledgement or a lifecycle gives for ending a report. */
  ghost predicate EndsFor(ack: Option<DeviceAck>, lifecycle: Lifecycle, reason: DeviceFailure) {
    || (reason == NativeRejected && (ack == Some(AckRejected) || ack == Some(AckNotSupported)))
    || (reason == NativeRejected && ack == None && lifecycle.ProtocolResponse? && !lifecycle.accepted)
    || (reason == NotTransmitted && ack == None && lifecycle.Rejected?)
    || (reason == MissingAcknowledgement && ack == None && lifecycle.TransmissionUncertain?)
  }

  ghost predicate Ends(ack: Option<DeviceAck>, lifecycle: Lifecycle) {
    exists reason :: EndsFor(ack, lifecycle, reason)
  }

  ghost predicate StagedProgress(staged: Option<DeviceReport>, p: Option<Progress>) {
    match staged
    case Some(Complete(progress, _, _)) => p == Some(progress)
    case Some(Incomplete(_, accepted)) => p == accepted
    case _ => p == None
  }

  /** Refused exactly when the query or its acknowledgement changed, or an early report is too large to hold. */
  lemma PrepareRefusedExactly(stored: DeviceModel, incoming: DeviceModel, lifecycle: Lifecycle,
      staged: Option<DeviceReport>)
    ensures Prepare(stored, incoming, lifecycle, staged).Err?
            <==> || stored.query != incoming.query || stored.connection != incoming.connection
                 || stored.generation != incoming.generation
                 || stored.dispatchRecordedAt != incoming.dispatchRecordedAt
                 || (stored.ack != None && incoming.ack != None && stored.ack != incoming.ack)
                 || (ArrivesEarly(stored, incoming, lifecycle) && incoming.report.encoded > 1048576)
  {
  }

  /** What finishing writes, and what stays staged, while the stored report is pending. */
  lemma PreparedReport(stored: DeviceModel, incoming: DeviceModel, lifecycle: Lifecycle,
      staged: Option<DeviceReport>)
    requires Prepare(stored, incoming, lifecycle, staged).Ok? && stored.report == Pending
    ensures var p := Prepare(stored, incoming, lifecycle, staged).value;
            var ack := KnownAck(stored, incoming);
            && p.evidence == incoming.(report := p.evidence.report)
            && (ArrivesEarly(stored, incoming, lifecycle) ==>
                  && p.evidence.report == Pending
                  && p.staged == (if staged == None then Some(incoming.report) else staged))
            && (!ArrivesEarly(stored, incoming, lifecycle) ==>
                  match incoming.report
                  case Complete(_, _, _) => p.evidence.report == incoming.report && p.staged == None
                  case NotExpected => p.evidence.report == NotExpected && p.staged == None
                  case Incomplete(reason, accepted) =>
                    && p.evidence.report.Incomplete? && p.evidence.report.reason == reason && p.staged == None
                    && (if accepted == None then StagedProgress(staged, p.evidence.report.accepted)
                        else p.evidence.report.accepted == accepted)
                  case Pending =>
                    if ack == Some(AckAccepted) && staged != None && staged != Some(Pending) then
                      p.evidence.report == staged.value && p.staged == None
                    else if Ends(ack, lifecycle) then
                      && p.evidence.report.Incomplete? && EndsFor(ack, lifecycle, p.evidence.report.reason)
                      && StagedProgress(staged, p.evidence.report.accepted) && p.staged == None
                    else
                      && p.evidence.report == Pending
                      && p.staged == (if ack == Some(AckEmptyResultSet) then None else staged))
  {
    var ack := KnownAck(stored, incoming);
    assert forall reason :: EndsFor(ack, lifecycle, reason) <==> ImposedFailure(ack, lifecycle) == Some(reason);
  }

  /** A finisher of an ended report only hands over progress the stored failure can still learn. */
  lemma PreparedAfterEnd(stored: DeviceModel, incoming: DeviceModel, lifecycle: Lifecycle,
      staged: Option<DeviceReport>)
    requires Prepare(stored, incoming, lifecycle, staged).Ok? && stored.report != Pending
    ensures var p := Prepare(stored, incoming, lifecycle, staged).value;
            && (Merge(stored, p.evidence).Ok? <==> Merge(stored, incoming).Ok?)
            && (Merge(stored, incoming).Ok? ==> Merge(stored, p.evidence).value == Merge(stored, incoming).value)
  {
  }
}
