/**
 The `commands` and `command_results` tables: admission with deduplication, result writers, startup
 interruption and pruning, as a class whose methods are proved against functions on its state, and
 the properties of arbitrary runs.
 */
module CommandStore {
  import opened Common
  import opened CommandResult
  import opened KeyedUnion
  import opened ResultMerge
  import Runs = ResultRuns
  import Trigger = TriggerObservation201
  import Device = DeviceReports201
  import Profiles = ChargingProfiles201
  import F = Fingerprint

  datatype EncodedCommand = EncodedCommand(
    requestId: RequestId, fingerprint: F.Json, admittedAt: Time, retainUntil: Time, payload: F.Json)

  /** Refuses a payload that is no object and an admission time whose retention would overflow. */
  function EncodeCommand(requestId: RequestId, admittedAt: Time, payload: F.Json): (r: Result<EncodedCommand>)
    requires admittedAt <= I64_MAX
    ensures r.Ok? <==> payload.Object? && admittedAt + 604800 <= 9223372036854775807
    ensures r.Ok? ==>
              && r.value.requestId == requestId && r.value.admittedAt == admittedAt && r.value.payload == payload
              && r.value.retainUntil == admittedAt + 604800 && F.Fingerprint(payload) == Ok(r.value.fingerprint)
  {
    if admittedAt + RETENTION_SECONDS > I64_MAX then Err(InvalidRequest)
    else
      var fingerprint :- F.Fingerprint(payload);
      Ok(EncodedCommand(requestId, fingerprint, admittedAt, admittedAt + RETENTION_SECONDS, payload))
  }

  datatype CommandRow = CommandRow(
    fingerprint: F.Json, admittedAt: Time, retainUntil: Time, unresolved: bool, payload: F.Json)

  datatype State = State(commands: map<RequestId, CommandRow>, results: map<RequestId, Row>)

  datatype Admission = NewlyAdmitted | Duplicate(result: Option<CommandResult>) | Refused

  function RowOf(s: State, id: RequestId): (row: Option<Row>) {
    if id in s.results then Some(s.results[id]) else None
  }

  // Steps ----------------------------------------------------------------------------------------

  function AdmitAnswer(s: State, c: EncodedCommand): (a: Admission) {
    if c.requestId !in s.commands then NewlyAdmitted
    else if s.commands[c.requestId].fingerprint == c.fingerprint then
      Duplicate(if c.requestId in s.results then Some(s.results[c.requestId].result) else None)
    else Refused
  }

  function Admit(s: State, c: EncodedCommand): (r: State) {
    if c.requestId in s.commands then s
    else
      var row := CommandRow(c.fingerprint, c.admittedAt, c.retainUntil, true, c.payload);
      s.(commands := s.commands[c.requestId := row])
  }

  /** The step persisted a whole result, which also refreshes the command's `unresolved` column. */
  predicate Persisted(row: Option<Row>, op: Runs.Op) {
    Runs.TryStep(row, op).Ok?
    && (|| op.Write?
        || (op.FinishDevice? && row.Some? && !Runs.DeviceSettledAlready(row.value, op.device, op.reply))
        || (op.FinishProfiles? && row.Some? && !Runs.ProfilesAbsent(row.value, op.reply)))
  }

  function WithUnresolved(commands: map<RequestId, CommandRow>, id: RequestId,
      lifecycle: Lifecycle): (r: map<RequestId, CommandRow>)
  {
    if id in commands then commands[id := commands[id].(unresolved := UnresolvedLifecycle(lifecycle))] else commands
  }

  function Apply(s: State, id: RequestId, op: Runs.Op): (r: State) {
    var row := Runs.Step(RowOf(s, id), op);
    if row.None? then s
    else
      State(if Persisted(RowOf(s, id), op) then WithUnresolved(s.commands, id, row.value.result.lifecycle)
            else s.commands,
            s.results[id := row.value])
  }

  function InterruptedRow(row: Row): (r: Row) {
    var next := Runs.InterruptRow(row);
    if next.Ok? then next.value else row
  }

  /** Startup part-way: every row is as it was and still pending, or done. */
  ghost predicate PartlyInterrupted(start: map<RequestId, Row>, rows: map<RequestId, Row>) {
    && rows.Keys == start.Keys
    && forall id | id in rows :: rows[id] == if rows[id].reportPending then start[id] else InterruptedRow(start[id])
  }

  lemma InterruptsOneMore(start: map<RequestId, Row>, rows: map<RequestId, Row>, id: RequestId)
    requires PartlyInterrupted(start, rows) && id in rows && rows[id].reportPending && Runs.InterruptRow(rows[id]).Ok?
    ensures PartlyInterrupted(start, rows[id := InterruptedRow(rows[id])])
  {
  }

  function InterruptAll(s: State): (r: State) {
    s.(results := map id | id in s.results :: InterruptedRow(s.results[id]))
  }

  predicate Prunable(s: State, id: RequestId, now: Time) {
    id in s.commands && !s.commands[id].unresolved && s.commands[id].retainUntil <= now
    && !(id in s.results && s.results[id].reportPending)
  }

  function PrunableIds(s: State, now: Time): (ids: set<RequestId>) {
    set id | id in s.commands && Prunable(s, id, now)
  }

  function Prune(s: State, now: Time): (r: State) {
    State(s.commands - PrunableIds(s, now), s.results - PrunableIds(s, now))
  }

  // Invariant ------------------------------------------------------------------------------------

  ghost predicate CommandOk(row: CommandRow) {
    && row.payload.Object? && F.WellFormed(row.payload)
    && F.Fingerprint(row.payload) == Ok(row.fingerprint)
    && row.retainUntil == row.admittedAt + 604800
  }

  /** Not rejected and without a protocol response. */
  ghost predicate StillOpen(lifecycle: Lifecycle) {
    match lifecycle
    case Rejected(_) => false
    case ProtocolResponse(_, _) => false
    case _ => true
  }

  ghost predicate RowOk(s: State, id: RequestId) {
    && Runs.ColumnsAgree(RowOf(s, id))
    && (id in s.results ==> id in s.commands)
    && (id in s.commands ==>
          && CommandOk(s.commands[id])
          && (s.commands[id].unresolved <==>
                (id !in s.results || StillOpen(s.results[id].result.lifecycle))))
  }

  ghost predicate Invariant(s: State) {
    forall id :: RowOk(s, id)
  }

  /**
   A result that is accepted is for an admitted command, and an interruption meets no profile report
   pending beside device evidence.
   */
  ghost predicate WellTargeted(s: State, id: RequestId, op: Runs.Op) {
    && (op.Write? && WriteValue(RowOf(s, id), op.incoming, op.accepted).Ok? ==> id in s.commands)
    && (op.InterruptReports? ==> Runs.OneReport(RowOf(s, id)))
  }

  ghost predicate Interruptible(s: State) {
    forall id | id in s.results :: Runs.OneReport(Some(s.results[id]))
  }

  lemma StepKeepsLifecycle(row: Option<Row>, op: Runs.Op)
    ensures !Runs.Persists(op) && row.Some? ==>
              && Runs.Step(row, op).Some?
              && Runs.Step(row, op).value.result.lifecycle == row.value.result.lifecycle
    ensures row.None? && !op.Write? ==> Runs.Step(row, op).None?
  {
  }

  lemma ApplyLeavesOthers(s: State, id: RequestId, op: Runs.Op, other: RequestId)
    requires RowOk(s, other) && other != id
    ensures RowOk(Apply(s, id, op), other)
  {
  }

  lemma ApplyKeepsRow(s: State, id: RequestId, op: Runs.Op)
    requires RowOk(s, id)
    ensures RowOk(Apply(s, id, op), id) <==> WellTargeted(s, id, op)
  {
    Runs.StepKeepsColumns(RowOf(s, id), op);
    StepKeepsLifecycle(RowOf(s, id), op);
  }

  /** A result step keeps both index columns right exactly when it is well targeted. */
  lemma ApplyKeepsInvariant(s: State, id: RequestId, op: Runs.Op)
    requires Invariant(s)
    ensures Invariant(Apply(s, id, op)) <==> WellTargeted(s, id, op)
  {
    assert RowOk(s, id);
    ApplyKeepsRow(s, id, op);
    if WellTargeted(s, id, op) {
      forall other ensures RowOk(Apply(s, id, op), other) {
        assert RowOk(s, other);
        if other != id {
          ApplyLeavesOthers(s, id, op, other);
        }
      }
    }
  }

  /** A command that is new to the store is one that encoding produced. */
  ghost predicate ProperlyEncoded(s: State, c: EncodedCommand) {
    c.requestId in s.commands || CommandOk(CommandRow(c.fingerprint, c.admittedAt, c.retainUntil, true, c.payload))
  }

  lemma AdmitKeepsInvariant(s: State, c: EncodedCommand)
    requires Invariant(s)
    ensures Invariant(Admit(s, c)) <==> ProperlyEncoded(s, c)
  {
    assert RowOk(s, c.requestId);
    if ProperlyEncoded(s, c) {
      forall other ensures RowOk(Admit(s, c), other) {
        assert RowOk(s, other);
      }
    } else {
      assert !RowOk(Admit(s, c), c.requestId);
    }
  }

  lemma InterruptKeepsRow(s: State, id: RequestId)
    requires RowOk(s, id)
    ensures RowOk(InterruptAll(s), id) <==> Runs.OneReport(RowOf(s, id))
    ensures id in s.results ==> Runs.InterruptRow(s.results[id]).Ok? && !InterruptAll(s).results[id].reportPending
  {
    Runs.StepKeepsColumns(RowOf(s, id), Runs.InterruptReports);
  }

  /**
   Startup is never refused and empties the pending index, and the index is right afterwards exactly
   when no row has both reports.
   */
  lemma InterruptKeepsInvariantIff(s: State)
    requires Invariant(s)
    ensures Invariant(InterruptAll(s)) <==> Interruptible(s)
    ensures forall id | id in s.results ::
              Runs.InterruptRow(s.results[id]).Ok? && !InterruptAll(s).results[id].reportPending
  {
    forall id ensures RowOk(InterruptAll(s), id) <==> Runs.OneReport(RowOf(s, id))
      ensures id in s.results ==> Runs.InterruptRow(s.results[id]).Ok? && !InterruptAll(s).results[id].reportPending
    {
      assert RowOk(s, id);
      InterruptKeepsRow(s, id);
    }
    if Invariant(InterruptAll(s)) {
      forall id | id in s.results ensures Runs.OneReport(Some(s.results[id])) {
        assert RowOk(InterruptAll(s), id);
      }
    }
  }

  lemma PruneKeepsInvariant(s: State, now: Time)
    requires Invariant(s)
    ensures Invariant(Prune(s, now))
  {
    forall id ensures RowOk(Prune(s, now), id) {
      assert RowOk(s, id);
    }
  }

  // Pruning and admission ------------------------------------------------------------------------

  /** By payload, not by column: what may be dropped is resolved, expired and has no pending report. */
  ghost predicate Disposable(s: State, id: RequestId, now: Time) {
    && id in s.commands && s.commands[id].retainUntil <= now
    && id in s.results && !StillOpen(s.results[id].result.lifecycle) && !Runs.AwaitsReport(s.results[id].result)
  }

  /** Pruning drops exactly the disposable commands, each with its result. */
  lemma PruneDropsExactlyDisposable(s: State, now: Time, id: RequestId)
    requires Invariant(s) && id in s.commands
    ensures Disposable(s, id, now) <==> id !in Prune(s, now).commands
    ensures Disposable(s, id, now) ==> id !in Prune(s, now).results
    ensures !Disposable(s, id, now) ==>
              Prune(s, now).commands[id] == s.commands[id] && RowOf(Prune(s, now), id) == RowOf(s, id)
  {
    assert RowOk(s, id);
  }

  /** For a retained request id, admission answers Duplicate exactly for the same command. */
  lemma AdmissionDeduplicates(s: State, c: EncodedCommand)
    requires Invariant(s) && c.requestId in s.commands
    requires c.payload.Object? && F.WellFormed(c.payload) && F.Fingerprint(c.payload) == Ok(c.fingerprint)
    ensures AdmitAnswer(s, c).Duplicate? <==> F.SameCommand(s.commands[c.requestId].payload, c.payload)
    ensures AdmitAnswer(s, c).Refused? <==> !F.SameCommand(s.commands[c.requestId].payload, c.payload)
    ensures AdmitAnswer(s, c).Duplicate? ==>
              AdmitAnswer(s, c).result
                  == (if c.requestId in s.results then Some(s.results[c.requestId].result) else None)
  {
    assert RowOk(s, c.requestId);
    F.FingerprintsAgree(s.commands[c.requestId].payload, c.payload);
  }

  // Runs -----------------------------------------------------------------------------------------

  datatype Event =
    | Admitting(command: EncodedCommand)
    | Applying(id: RequestId, op: Runs.Op)
    | Interrupting
    | Pruning(now: Time)

  function Step(s: State, e: Event): (r: State) {
    match e
    case Admitting(c) => Admit(s, c)
    case Applying(id, op) => Apply(s, id, op)
    case Interrupting => InterruptAll(s)
    case Pruning(now) => Prune(s, now)
  }

  function Run(s: State, events: seq<Event>): (r: State)
    decreases |events|
  {
    if events == [] then s else Run(Step(s, events[0]), events[1..])
  }

  ghost predicate Respectful(s: State, e: Event) {
    match e
    case Admitting(c) => ProperlyEncoded(s, c)
    case Applying(id, op) => WellTargeted(s, id, op)
    case Interrupting => Interruptible(s)
    case Pruning(_) => true
  }

  /** Every step of the run meets its side of the contract; writers may bring any evidence. */
  ghost predicate RespectfulRun(s: State, events: seq<Event>)
    decreases |events|
  {
    events == [] || (Respectful(s, events[0]) && RespectfulRun(Step(s, events[0]), events[1..]))
  }

  ghost predicate InvariantThroughout(s: State, events: seq<Event>)
    decreases |events|
  {
    Invariant(s) && (events == [] || InvariantThroughout(Step(s, events[0]), events[1..]))
  }

  lemma StepKeepsInvariant(s: State, e: Event)
    requires Invariant(s)
    ensures Invariant(Step(s, e)) <==> Respectful(s, e)
  {
    match e
    case Admitting(c) => AdmitKeepsInvariant(s, c);
    case Applying(id, op) => ApplyKeepsInvariant(s, id, op);
    case Interrupting => InterruptKeepsInvariantIff(s);
    case Pruning(now) => PruneKeepsInvariant(s, now);
  }

  /**
   Both index columns say what the payloads say in every state of a run exactly when every step meets
   its side of the contract.
   */
  lemma {:induction false} ColumnsAgreeInEveryReachableState(s: State, events: seq<Event>)
    requires Invariant(s)
    ensures InvariantThroughout(s, events) <==> RespectfulRun(s, events)
    ensures RespectfulRun(s, events) ==> Invariant(Run(s, events))
    decreases |events|
  {
    if events != [] {
      StepKeepsInvariant(s, events[0]);
      if Respectful(s, events[0]) {
        ColumnsAgreeInEveryReachableState(Step(s, events[0]), events[1..]);
      }
    }
  }

  // A command that reports through one family ------------------------------------------------------

  ghost predicate SingleReport(row: Option<Row>) {
    row.Some? ==> row.value.result.device.None? || row.value.result.profiles.None?
  }

  ghost predicate CarriesDevice(row: Option<Row>, op: Runs.Op) {
    (row.Some? && row.value.result.device.Some?) || op.FinishDevice? || (op.Write? && op.incoming.device.Some?)
  }

  ghost predicate CarriesProfiles(row: Option<Row>, op: Runs.Op) {
    (row.Some? && row.value.result.profiles.Some?) || op.FinishProfiles? || (op.Write? && op.incoming.profiles.Some?)
  }

  lemma StepStaysSingle(row: Option<Row>, op: Runs.Op)
    requires SingleReport(row) && !(CarriesDevice(row, op) && CarriesProfiles(row, op))
    ensures SingleReport(Runs.Step(row, op))
  {
    if Runs.Persists(op) && Runs.Step(row, op) != row {
      var _ := Runs.StepIsWritten(row, op);
    }
  }

  ghost predicate AllSingle(s: State) {
    forall id | id in s.results :: SingleReport(Some(s.results[id]))
  }

  /** The writers of one command keep to one family, and results are written for admitted commands. */
  ghost predicate OneFamily(s: State, e: Event) {
    match e
    case Admitting(c) => ProperlyEncoded(s, c)
    case Applying(id, op) =>
      && (op.Write? ==> id in s.commands)
      && !(CarriesDevice(RowOf(s, id), op) && CarriesProfiles(RowOf(s, id), op))
    case _ => true
  }

  ghost predicate OneFamilyRun(s: State, events: seq<Event>)
    decreases |events|
  {
    events == [] || (OneFamily(s, events[0]) && OneFamilyRun(Step(s, events[0]), events[1..]))
  }

  lemma StepKeepsSingle(s: State, e: Event)
    requires AllSingle(s) && OneFamily(s, e)
    ensures AllSingle(Step(s, e)) && Respectful(s, e)
  {
    if e.Applying? {
      StepStaysSingle(RowOf(s, e.id), e.op);
    }
  }

  /** No interruption of a run whose commands report through one family each meets both reports. */
  lemma {:induction false} OneFamilyRunsAreRespectful(s: State, events: seq<Event>)
    requires AllSingle(s) && OneFamilyRun(s, events)
    ensures RespectfulRun(s, events)
    decreases |events|
  {
    if events != [] {
      StepKeepsSingle(s, events[0]);
      OneFamilyRunsAreRespectful(Step(s, events[0]), events[1..]);
    }
  }

  /** Startup and pruning together drop a command whose result still has a pending report. */
  lemma PruneCanDropPendingReport(c: EncodedCommand)
    requires CommandOk(CommandRow(c.fingerprint, c.admittedAt, c.retainUntil, true, c.payload))
    ensures var result := Runs.BothReports(Complete(Progress(1, 1, 1), 7, 1));
            var started := Run(State(map[], map[]),
                [Admitting(c), Applying(c.requestId, Runs.Write(result, true)), Interrupting]);
            && c.requestId in started.commands && c.requestId in started.results
            && ReportPending(started.results[c.requestId].result)
            && c.requestId !in Prune(started, c.retainUntil).commands
  {
    var result := Runs.BothReports(Complete(Progress(1, 1, 1), 7, 1));
    var write := Applying(c.requestId, Runs.Write(result, true));
    var admitted := Admit(State(map[], map[]), c);
    var written := Apply(admitted, c.requestId, Runs.Write(result, true));
    WritingBothReports(admitted, c.requestId);
    ThreeSteps(State(map[], map[]), Admitting(c), write, Interrupting);
  }

  lemma ThreeSteps(s: State, a: Event, b: Event, c: Event)
    ensures Run(s, [a, b, c]) == Step(Step(Step(s, a), b), c)
  {
    assert [a, b, c][1..] == [b, c] && [b, c][1..] == [c] && [c][1..] == [];
    var first, second := Step(s, a), Step(Step(s, a), b);
    assert Run(second, [c]) == Step(second, c);
    assert Run(first, [b, c]) == Run(second, [c]);
  }

  lemma WritingBothReports(s: State, id: RequestId)
    requires id in s.commands && id !in s.results
    ensures var result := Runs.BothReports(Complete(Progress(1, 1, 1), 7, 1));
            var written := Apply(s, id, Runs.Write(result, true));
            && id in written.commands && !written.commands[id].unresolved
            && written.commands[id].retainUntil == s.commands[id].retainUntil
            && RowOf(written, id) == Some(Row(result, true, true, None))
  {
    Runs.InterruptionCanHidePendingReport();
    var op := Runs.Write(Runs.BothReports(Complete(Progress(1, 1, 1), 7, 1)), true);
    assert [op][1..] == [];
    assert Runs.Run(None, [op]) == Runs.Step(None, op);
  }

  /** No pruning of the run reaches the end of the retention. */
  ghost predicate PrunesBefore(events: seq<Event>, deadline: Time) {
    forall e | e in events && e.Pruning? :: e.now < deadline
  }

  predicate AnsweredNewly(s: State, e: Event, id: RequestId) {
    e.Admitting? && e.command.requestId == id && AdmitAnswer(s, e.command).NewlyAdmitted?
  }

  function NewAdmissions(s: State, events: seq<Event>, id: RequestId): (n: nat)
    decreases |events|
  {
    if events == [] then 0
    else (if AnsweredNewly(s, events[0], id) then 1 else 0) + NewAdmissions(Step(s, events[0]), events[1..], id)
  }

  ghost predicate SameCommandRow(a: CommandRow, b: CommandRow) {
    b == a.(unresolved := b.unresolved)
  }

  /** Until its retention ends, an admitted request stays known and is never newly admitted again. */
  lemma {:induction false} AdmittedOnceBeforeRetentionEnds(s: State, events: seq<Event>, id: RequestId)
    requires id in s.commands && PrunesBefore(events, s.commands[id].retainUntil)
    ensures NewAdmissions(s, events, id) == 0
    ensures id in Run(s, events).commands && SameCommandRow(s.commands[id], Run(s, events).commands[id])
    decreases |events|
  {
    if events != [] {
      var next := Step(s, events[0]);
      assert id in next.commands && SameCommandRow(s.commands[id], next.commands[id]) by {
        if events[0].Pruning? {
          assert events[0] in events;
        }
      }
      assert PrunesBefore(events[1..], next.commands[id].retainUntil);
      AdmittedOnceBeforeRetentionEnds(next, events[1..], id);
    }
  }

  // From the store to one row --------------------------------------------------------------------

  function Projected(e: Event, id: RequestId): (ops: seq<Runs.Op>) {
    match e
    case Applying(other, op) => if other == id then [op] else []
    case Interrupting => [Runs.InterruptReports]
    case _ => []
  }

  function Project(events: seq<Event>, id: RequestId): (ops: seq<Runs.Op>) {
    if events == [] then [] else Projected(events[0], id) + Project(events[1..], id)
  }

  lemma StepProjects(s: State, e: Event, id: RequestId)
    requires id in s.commands && (e.Pruning? ==> e.now < s.commands[id].retainUntil)
    ensures RowOf(Step(s, e), id) == Runs.Run(RowOf(s, id), Projected(e, id))
  {
    var row := RowOf(s, id);
    if e.Applying? && e.id == id {
      assert Runs.Run(row, [e.op]) == Runs.Step(row, e.op) by {
        assert [e.op][1..] == [];
      }
      if row.Some? {
        Runs.StepSettles(row.value, e.op);
      }
    } else if e.Interrupting? {
      assert Runs.Run(row, [Runs.InterruptReports]) == Runs.Step(row, Runs.InterruptReports) by {
        assert [Runs.InterruptReports][1..] == [];
      }
    }
  }

  /**
   While a command is retained its row moves exactly by its own writers and the interruptions, so
   what holds over every run of one row holds for that row in every run of the store.
   */
  lemma {:induction false} RunProjects(s: State, events: seq<Event>, id: RequestId)
    requires id in s.commands && PrunesBefore(events, s.commands[id].retainUntil)
    ensures RowOf(Run(s, events), id) == Runs.Run(RowOf(s, id), Project(events, id))
    decreases |events|
  {
    if events != [] {
      var next := Step(s, events[0]);
      StepProjects(s, events[0], id) by { assert events[0] in events; }
      AdmittedOnceBeforeRetentionEnds(s, events[..1], id) by {
        assert forall e | e in events[..1] :: e in events;
      }
      assert Run(s, events[..1]) == next by {
        assert events[..1] == [events[0]] && [events[0]][1..] == [];
      }
      RunProjects(next, events[1..], id);
      Runs.RunSplit(RowOf(s, id), Projected(events[0], id), Project(events[1..], id));
    }
  }

  /** In every run of the store a retained command's stored lifecycle only settles further. */
  lemma StoredLifecycleSettles(s: State, events: seq<Event>, id: RequestId)
    requires id in s.commands && id in s.results && PrunesBefore(events, s.commands[id].retainUntil)
    ensures id in Run(s, events).results
    ensures Runs.Settles(s.results[id].result, Run(s, events).results[id].result)
  {
    RunProjects(s, events, id);
    Runs.RunSettles(s.results[id], Project(events, id));
  }

  // The class ------------------------------------------------------------------------------------

  class CommandTables {
    var commands: map<RequestId, CommandRow>
    var results: map<RequestId, Row>

    ghost function Contents(): (s: State)
      reads this
    {
      State(commands, results)
    }

    constructor ()
      ensures Contents() == State(map[], map[]) && Invariant(Contents())
    {
      commands := map[];
      results := map[];
    }

    method AdmitCommand(c: EncodedCommand) returns (answer: Admission)
      modifies this
      ensures answer == AdmitAnswer(old(Contents()), c)
      ensures Contents() == Admit(old(Contents()), c)
    {
      if c.requestId in commands {
        if commands[c.requestId].fingerprint == c.fingerprint {
          answer := Duplicate(if c.requestId in results then Some(results[c.requestId].result) else None);
        } else {
          answer := Refused;
        }
      } else {
        commands := commands[c.requestId := CommandRow(c.fingerprint, c.admittedAt, c.retainUntil, true, c.payload)];
        answer := NewlyAdmitted;
      }
    }

    /** Writes the row and the index columns that follow from it. */
    method PersistResult(request: RequestId, result: CommandResult, retire: bool, staged: Option<Device.DeviceReport>)
      modifies this
      ensures results == old(results)[request :=
                Row(result, (request in old(results) ==> old(results)[request].active)
                    && !retire, ReportPending(result), staged)]
      ensures commands == WithUnresolved(old(commands), request, result.lifecycle)
    {
      var active := !retire;
      if request in results && !results[request].active {
        active := false;
      }
      results := results[request := Row(result, active, ReportPending(result), staged)];
      if request in commands {
        commands := commands[request := commands[request].(unresolved := UnresolvedLifecycle(result.lifecycle))];
      }
    }

    /** Merges a writer's result into the stored one, restoring what a stale writer may not change. */
    method MergeWithStored(previous: CommandResult, incoming: CommandResult) returns (r: Result<WithRetire>)
      ensures r == MergeStored(previous, incoming)
    {
      var families := MergeFamilies(previous, incoming);
      if families.Err? {
        return Err(families.error);
      }
      var next := families.value.result;
      var effects := PushMissing(next.effects, previous.effects, EffectKey);
      next := next.(effects := effects);
      var before := LifecycleRank(previous.lifecycle);
      var now := LifecycleRank(next.lifecycle);
      if before > now || (before == 2 && now == 2 && !CorrelatedReply(previous, next)) {
        next := next.(lifecycle := previous.lifecycle);
        next := next.(recordedAt := previous.recordedAt);
        next := next.(schema := previous.schema);
        next := next.(replies := previous.replies);
        if next.reservation16.None? {
          next := next.(reservation16 := previous.reservation16);
        }
        if next.reservation201.None? {
          next := next.(reservation201 := previous.reservation201);
        }
        next := next.(firmware16 := KeepSettled(previous.firmware16, next.firmware16));
        next := next.(firmware201 := KeepSettled(previous.firmware201, next.firmware201));
        next := next.(diagnostics16 := KeepSettled(previous.diagnostics16, next.diagnostics16));
        next := next.(diagnostics201 := KeepSettled(previous.diagnostics201, next.diagnostics201));
      }
      var observations := PushMissing(next.observations, previous.observations, ReadKey);
      r := Ok(WithRetire(next.(observations := observations), families.value.retire));
    }

    method WriteResultValue(request: RequestId, incoming: CommandResult, accepted: bool) returns (refused: bool)
      modifies this
      ensures refused <==> WriteValue(RowOf(old(Contents()), request), incoming, accepted).Err?
      ensures Contents() == Apply(old(Contents()), request, Runs.Write(incoming, accepted))
    {
      if !accepted {
        return true;
      }
      var next, retire := incoming, false;
      if request in results {
        var merged := MergeWithStored(results[request].result, incoming);
        if merged.Err? {
          return true;
        }
        next, retire := merged.value.result, merged.value.retire;
      } else if next.trigger201.Some? {
        next := next.(trigger201 := Some(Trigger.Refresh(next.trigger201.value, next.recordedAt)));
      }
      var finished := Finish(next);
      if finished.Err? {
        return true;
      }
      PersistResult(request, finished.value, retire, if request in results then results[request].staged else None);
      refused := false;
    }

    /** Records a collected report: staging is prepared first, then the evidence is written like any result. */
    method WriteStaged(request: RequestId, staged: Option<Device.DeviceReport>, result: CommandResult, accepted: bool)
        returns (refused: bool)
      requires request in results
      modifies this
      ensures var spec := WriteValue(Some(old(results)[request].(staged := staged)), result, accepted);
              && refused == spec.Err?
              && Contents() == (if refused then old(Contents())
                                else State(WithUnresolved(old(commands), request, spec.value.result.lifecycle),
                                           old(results)[request := spec.value]))
    {
      var row := results[request];
      results := results[request := row.(staged := staged)];
      refused := WriteResultValue(request, result, accepted);
      if refused {
        results := results[request := row];
        assert results == old(results);
      }
    }

    method FinishDeviceReport(request: RequestId, evidence: DeviceModel, reply: Option<Lifecycle>, now: Time,
        accepted: bool)
      returns (refused: bool)
      modifies this
      ensures refused == Runs.TryStep(RowOf(old(Contents()), request),
              Runs.FinishDevice(evidence, reply, now, accepted)).Err?
      ensures Contents() == Apply(old(Contents()), request, Runs.FinishDevice(evidence, reply, now, accepted))
    {
      if request !in results {
        return false;
      }
      var row := results[request];
      if row.result.device.None? {
        return true;
      }
      var lifecycle := Runs.WithReply(row.result, reply);
      var prepared := Device.Prepare(row.result.device.value, evidence, lifecycle, row.staged);
      if prepared.Err? {
        return true;
      }
      if Runs.DeviceSettledAlready(row, evidence, reply) {
        return false;
      }
      var result := row.result.(device := Some(prepared.value.evidence));
      result := result.(recordedAt := now);
      result := result.(lifecycle := lifecycle);
      refused := WriteStaged(request, prepared.value.staged, result, accepted);
    }

    /** Records installed-profile evidence; only the native acknowledgement resolves an open command. */
    method FinishChargingProfiles(request: RequestId, evidence: ChargingProfiles, reply: Option<Lifecycle>, now: Time,
        accepted: bool)
      returns (refused: bool)
      modifies this
      ensures refused == Runs.TryStep(RowOf(old(Contents()), request),
              Runs.FinishProfiles(evidence, reply, now, accepted)).Err?
      ensures Contents() == Apply(old(Contents()), request, Runs.FinishProfiles(evidence, reply, now, accepted))
    {
      if request !in results {
        return false;
      }
      var result := results[request].result;
      if Runs.ProfilesAbsent(results[request], reply) {
        return reply.None?;
      }
      if reply.Some? && (result.lifecycle.Admitted? || result.lifecycle.Dispatched?) {
        result := result.(lifecycle := reply.value);
      }
      result := result.(profiles := Some(evidence));
      result := result.(schema := Schedules201Version);
      result := result.(recordedAt := now);
      refused := WriteResultValue(request, result, accepted);
    }

    /** Credits journal events to one stored expectation. */
    method ReconcileTrigger(request: RequestId, now: Time, journal: seq<Trigger.JournalEvent>, commandMatches: bool)
        returns (refused: bool)
      modifies this
      ensures refused == Runs.TryStep(RowOf(old(Contents()), request),
              Runs.ReconcileTrigger(now, journal, commandMatches)).Err?
      ensures Contents() == Apply(old(Contents()), request, Runs.ReconcileTrigger(now, journal, commandMatches))
    {
      if request !in results || results[request].result.trigger201.None? {
        return false;
      }
      if !commandMatches {
        return true;
      }
      if !results[request].active {
        return false;
      }
      var row := results[request];
      var next := Trigger.ReconcileTargets(row.result.trigger201.value, now, journal);
      if next.Err? {
        return true;
      }
      results := results[request :=
          row.(result := row.result.(trigger201 := Some(next.value.trigger)), active := !next.value.finalized)];
      refused := false;
    }

    /** One transaction of startup; a row marked pending without any report refuses. */
    method InterruptOne(id: RequestId) returns (refused: bool)
      requires id in results && results[id].reportPending
      modifies this`results
      ensures refused <==> Runs.InterruptRow(old(results)[id]).Err?
      ensures results == old(results)[id := InterruptedRow(old(results)[id])]
      ensures !refused ==> !results[id].reportPending
    {
      var row := results[id];
      var result := row.result;
      if result.device.Some? {
        result := result.(device := Some(Device.Interrupt(result.device.value)));
      } else if result.profiles.Some? {
        result := result.(profiles := Some(Profiles.Interrupt(result.profiles.value)));
      } else {
        return true;
      }
      results := results[id := row.(result := result, reportPending := false, staged := None)];
      refused := false;
    }

    /** Startup ends every pending report, one row per transaction, until the pending index is empty. */
    method InterruptPending() returns (refused: bool)
      modifies this
      ensures refused <==> exists id | id in old(results) :: Runs.InterruptRow(old(results)[id]).Err?
      ensures !refused ==> Contents() == InterruptAll(old(Contents()))
      ensures !refused ==> forall id | id in results :: !results[id].reportPending
      ensures commands == old(commands) && results.Keys == old(results.Keys)
      ensures forall id | id in results ::
                results[id] == old(results)[id] || results[id] == InterruptedRow(old(results)[id])
    {
      ghost var start := Contents();
      var pending := set id | id in results && results[id].reportPending;
      while pending != {}
        invariant commands == start.commands && PartlyInterrupted(start.results, results)
        invariant pending == set id | id in results && results[id].reportPending
        decreases pending
      {
        var id :| id in pending;
        ghost var rows := results;
        refused := InterruptOne(id);
        if refused {
          return;
        }
        InterruptsOneMore(start.results, rows, id);
        pending := pending - {id};
      }
      refused := false;
      assert forall id | id in results && results[id].reportPending :: id in pending;
      assert results == InterruptAll(start).results;
    }

    /** Drops what is resolved, expired and has no pending report. */
    method PruneCommands(now: Time) returns (dropped: nat)
      modifies this
      ensures Contents() == Prune(old(Contents()), now)
      ensures dropped == |PrunableIds(old(Contents()), now)|
    {
      ghost var start := Contents();
      var ids := set id | id in commands && !commands[id].unresolved && commands[id].retainUntil <= now
                          && !(id in results && results[id].reportPending);
      assert ids == PrunableIds(start, now);
      dropped := |ids|;
      var left := ids;
      while left != {}
        invariant left <= ids
        invariant commands == start.commands - (ids - left) && results == start.results - (ids - left)
        decreases left
      {
        var id :| id in left;
        results := results - {id};
        commands := commands - {id};
        left := left - {id};
        assert ids - left == (ids - (left + {id})) + {id};
      }
    }
  }
}
