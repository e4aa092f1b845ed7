/**
 The durable command result row. Evidence whose content the store never interprets is an opaque
 `Evidence` token; only its equality and, where the code measures it, its encoded size matter.
 */
module CommandResult {
  import opened Common

  type RequestId = string
  type EventId = string
  type Evidence = nat
  type Time = int

  datatype Lifecycle =
    | Admitted
    | Dispatched
    | Rejected(error: Evidence)
    | ProtocolResponse(accepted: bool, failure: Option<Evidence>)
    | TransmissionUncertain(detail: Evidence)

  function LifecycleRank(lifecycle: Lifecycle): (rank: nat) {
    match lifecycle
    case Admitted => 0
    case Dispatched => 1
    case _ => 2
  }

  predicate Terminal(lifecycle: Lifecycle) {
    LifecycleRank(lifecycle) == 2
  }

  /** The lifecycles a command may not be pruned in. */
  predicate UnresolvedLifecycle(lifecycle: Lifecycle) {
    lifecycle.Admitted? || lifecycle.Dispatched? || lifecycle.TransmissionUncertain?
  }

  /** The schema versions the merge rules assign; `Other` stands for every other contract version. */
  datatype ContractVersion =
    | Trigger16Version
    | Trigger201Version
    | DeviceModel201Version
    | Schedules201Version
    | ReservationVersion(edition: nat)
    | JobVersion(family: nat)
    | Other(version: Evidence)

  datatype Effect = Effect(eventId: EventId, body: Evidence, encoded: nat)

  datatype ConfigurationObservation =
    ConfigurationObservation(readRequestId: RequestId, body: Evidence, encoded: nat)

  /** The native replies that are restored as one group when a stale writer is overruled. */
  datatype Replies = Replies(
    configuration: Option<Evidence>,
    compositeSchedule16: Option<Evidence>,
    compositeSchedule201: Option<Evidence>,
    chargingProfile16: Option<Evidence>,
    chargingProfile201: Option<Evidence>,
    configuration201: Option<Evidence>,
    localAuthorization16: Option<Evidence>,
    localAuthorization201: Option<Evidence>
  )

  datatype Reservation = Reservation(action: Evidence, status: Option<Evidence>, reconciliation: Evidence)

  /** Firmware or diagnostics evidence: the offered artifact or destination, the reply, and the job. */
  datatype JobEvidence = JobEvidence(
    request: Evidence, offer: Option<Evidence>, reply: Option<Evidence>, job: Evidence)

  /** OCPP 1.6 trigger evidence, as far as result correlation depends on it. */
  datatype Trigger16 = Trigger16(expectation: Evidence, response: Option<Evidence>)

  // OCPP 2.0.1 trigger evidence ------------------------------------------------------------------

  datatype TriggerClass =
    | BootNotification
    | LogStatusNotification
    | FirmwareStatusNotification
    | Heartbeat
    | MeterValues
    | SignChargingStationCertificate
    | SignV2GCertificate
    | StatusNotification
    | TransactionEvent
    | SignCombinedCertificate
    | PublishFirmwareStatusNotification
  {
    predicate IsCertificate() {
      SignChargingStationCertificate? || SignV2GCertificate? || SignCombinedCertificate?
    }

    predicate IsStationOnly() {
      BootNotification? || LogStatusNotification? || FirmwareStatusNotification? || Heartbeat?
      || SignChargingStationCertificate? || PublishFirmwareStatusNotification?
    }
  }

  datatype TriggerTarget =
    | Station
    | Evse(id: nat)
    | Connector(evse: nat, connectorId: nat)

  datatype TriggerReplyStatus = Accepted | RejectedByStation | NotImplemented

  datatype TriggerReply = TriggerReply(status: TriggerReplyStatus, info: Option<Evidence>)

  datatype ObservedEvent = ObservedEvent(eventId: EventId, target: TriggerTarget, observedAt: Time)

  datatype TriggerStatus = AwaitingEvents | Partial | Observed | Absent | Unsupported | Unattributable

  datatype Trigger201 = Trigger201(
    class_: TriggerClass,
    scope: Option<Evidence>,
    targets: seq<TriggerTarget>,
    startedAt: Time,
    deadline: Time,
    response: Option<TriggerReply>,
    observed: seq<ObservedEvent>,
    status: TriggerStatus
  )

  // Report evidence ------------------------------------------------------------------------------

  datatype Progress = Progress(fragments: nat, items: nat, bytes: nat)

  /** A report collected beside the native acknowledgement; `F` is the family's failure reason. */
  datatype Report<F> =
    | Pending
    | Complete(progress: Progress, content: Evidence, encoded: nat)
    | Incomplete(reason: F, accepted: Option<Progress>)
    | NotExpected

  datatype DeviceFailure =
    | Timeout
    | ByteLimit
    | ItemLimit
    | FragmentLimit
    | Capacity
    | DuplicateSequence
    | OutOfOrderSequence
    | Correlation
    | InvalidFragment
    | Disconnected
    | Interrupted
    | OutputLimit
    | StorageUnavailable
    | NotTransmitted
    | NativeRejected
    | MissingAcknowledgement

  datatype DeviceAck = AckAccepted | AckRejected | AckNotSupported | AckEmptyResultSet

  /** `reportId` is present exactly for the report queries, not for GetVariables. */
  datatype DeviceQuery = DeviceQuery(content: Evidence, reportId: Option<int>)

  datatype DeviceModel = DeviceModel(
    query: DeviceQuery,
    connection: Evidence,
    generation: nat,
    dispatchRecordedAt: Time,
    ack: Option<DeviceAck>,
    variables: seq<Evidence>,
    report: Report<DeviceFailure>
  )

  datatype ProfileFailure =
    | ProfileInterrupted
    | ProfileOutputLimit
    | OtherProfileFailure(code: Evidence)

  datatype ProfilesStatus = ProfilesAccepted | NoProfiles

  datatype ChargingProfiles = ChargingProfiles(
    query: Evidence,
    status: ProfilesStatus,
    reasonCode: Option<Evidence>,
    report: Report<ProfileFailure>
  )

  // The result -----------------------------------------------------------------------------------

  datatype CommandResult = CommandResult(
    schema: ContractVersion,
    route: Evidence,
    resource: Evidence,
    lifecycle: Lifecycle,
    recordedAt: Time,
    effects: seq<Effect>,
    observations: seq<ConfigurationObservation>,
    replies: Replies,
    trigger16: Option<Trigger16>,
    trigger201: Option<Trigger201>,
    device: Option<DeviceModel>,
    profiles: Option<ChargingProfiles>,
    reservation16: Option<Reservation>,
    reservation201: Option<Reservation>,
    firmware16: Option<JobEvidence>,
    firmware201: Option<JobEvidence>,
    diagnostics16: Option<JobEvidence>,
    diagnostics201: Option<JobEvidence>
  )

  function EffectIds(effects: seq<Effect>): (ids: set<EventId>) {
    set e | e in effects :: e.eventId
  }

  function ReadIds(observations: seq<ConfigurationObservation>): (ids: set<RequestId>) {
    set o | o in observations :: o.readRequestId
  }

  // Encoded size ---------------------------------------------------------------------------------

  const OUTPUT_LIMIT: nat := 1024 * 1024

  function EffectsSize(effects: seq<Effect>): (size: nat) {
    if effects == [] then 0 else effects[0].encoded + EffectsSize(effects[1..])
  }

  function ObservationsSize(observations: seq<ConfigurationObservation>): (size: nat) {
    if observations == [] then 0 else observations[0].encoded + ObservationsSize(observations[1..])
  }

  function ReportSize<F>(report: Report<F>): (size: nat) {
    if report.Complete? then report.encoded else 0
  }

  /** Serialised size of the parts of a result that can grow. */
  function EncodedSize(result: CommandResult): (size: nat) {
    EffectsSize(result.effects) + ObservationsSize(result.observations)
    + (if result.device.Some? then ReportSize(result.device.value.report) else 0)
    + (if result.profiles.Some? then ReportSize(result.profiles.value.report) else 0)
  }
}
