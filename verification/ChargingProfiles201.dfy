/** OCPP 2.0.1 installed-profile evidence: recorded after its acknowledgement and frozen once ended. */
module ChargingProfiles201 {
  import opened Common
  import opened CommandResult

  function Merge(stored: ChargingProfiles, incoming: ChargingProfiles): (r: Result<ChargingProfiles>) {
    if stored.query != incoming.query || stored.status != incoming.status
        || stored.reasonCode != incoming.reasonCode then
      Err(IntegrityFailure)
    else
      Ok(if stored.report.Pending? then incoming else incoming.(report := stored.report))
  }

  /** A report too large for the bound on its own becomes an explicit output failure. */
  function Bound(p: ChargingProfiles): (r: ChargingProfiles) {
    if p.report.Complete? && ReportSize(p.report) > OUTPUT_LIMIT then
      p.(report := Incomplete(ProfileOutputLimit, Some(p.report.progress)))
    else p
  }

  /** Evidence stands only beside its acknowledgement, and the report follows the native status. */
  predicate ValidStored(r: CommandResult) {
    r.profiles.Some? ==>
      && (r.profiles.value.status.ProfilesAccepted? <==> !r.profiles.value.report.NotExpected?)
      && r.schema.Schedules201Version?
      && r.lifecycle.ProtocolResponse?
  }

  function Interrupt(p: ChargingProfiles): (r: ChargingProfiles) {
    if p.report.Pending? then p.(report := Incomplete(ProfileInterrupted, None)) else p
  }

  /** Stored evidence has passed the output bound. */
  ghost predicate Bounded(p: ChargingProfiles) {
    Bound(p) == p
  }

  /** Acknowledgement and identity never change; an ended report is frozen. */
  ghost predicate Follows(before: ChargingProfiles, after: ChargingProfiles) {
    && after.query == before.query && after.status == before.status && after.reasonCode == before.reasonCode
    && (!before.report.Pending? ==> after.report == before.report)
  }

  lemma WriteFollows(stored: ChargingProfiles, incoming: ChargingProfiles)
    requires Bounded(stored) && Merge(stored, incoming).Ok?
    ensures Follows(stored, Bound(Merge(stored, incoming).value)) && Bounded(Bound(Merge(stored, incoming).value))
  {
  }

  /** The profile part of a write: merged with what is stored, then bounded. */
  ghost predicate Written(before: Option<ChargingProfiles>, incoming: Option<ChargingProfiles>,
      after: Option<ChargingProfiles>)
  {
    if before.None? && incoming.None? then after.None?
    else
      var merged := if before.None? then Ok(incoming.value)
                    else if incoming.None? then Ok(before.value)
                    else Merge(before.value, incoming.value);
      merged.Ok? && after == Some(Bound(merged.value))
  }

  lemma WrittenFollows(before: Option<ChargingProfiles>, incoming: Option<ChargingProfiles>,
      after: Option<ChargingProfiles>)
    requires Written(before, incoming, after) && (before.Some? ==> Bounded(before.value))
    ensures after.Some? ==> Bounded(after.value)
    ensures before.Some? ==> after.Some? && Follows(before.value, after.value)
  {
    if before.Some? {
      WriteFollows(before.value, if incoming.Some? then incoming.value else before.value);
    }
  }

  lemma InterruptFollows(p: ChargingProfiles)
    ensures Follows(p, Interrupt(p)) && !Interrupt(p).report.Pending?
    ensures Bounded(p) ==> Bounded(Interrupt(p))
  {
  }

  /** Only a pending report takes the writer's, and only a complete report over a mebibyte is given up. */
  lemma WrittenReportMeaning(stored: ChargingProfiles, incoming: ChargingProfiles)
    requires Merge(stored, incoming).Ok?
    ensures var report := if stored.report == Pending then incoming.report else stored.report;
            Bound(Merge(stored, incoming).value)
            == ChargingProfiles(stored.query, stored.status, stored.reasonCode,
                                match report
                                case Complete(progress, _, encoded) =>
                                  (if encoded <= 1048576 then report
                                   else Incomplete(ProfileOutputLimit, Some(progress)))
                                case _ => report)
  {
  }
}
