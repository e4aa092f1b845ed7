/**
 Firmware and diagnostics jobs of OCPP 1.6 stations, and the release inventory they share with the
 other ledgers and the drain operations: one row for every job a release drain must still wait for.
 Rows stand in insertion order, which is revision order within a station.
 */
module JobLedger {
  import opened Common
  import opened Sequences

  const MAX_JOBS: nat := 64
  const MAX_RELEASE_JOBS: nat := 128

  datatype Family = Firmware | Diagnostics

  datatype Owner = Owner(family: Family, station: string)

  /** Legacy requests carry no number of their own; signed updates and log requests do. */
  datatype Variant = Legacy | Numbered(requestId: int)

  datatype Outcome = NotSent | Rejected | Cancelled | Superseded | Reported(code: nat)

  /** `Working` covers everything from acceptance on; `Done` everything confirmed finished or never started. */
  datatype State = Pending | Uncertain | Working(stage: nat) | TimedOut | Done(outcome: Outcome)

  const ACCEPTED: State := Working(0)

  datatype Job = Job(
    owner: Owner, revision: nat, requestId: string, variant: Variant, state: State, inflight: bool,
    started: bool, upload: Option<string>, deadline: int)

  /** An inventory key: a job of the two families, or whatever another ledger or the drain names. */
  datatype JobId = JobId(family: Family, requestId: string) | Foreign(name: string)

  datatype Ledger = Ledger(jobs: seq<Job>, inventory: set<JobId>)

  predicate Resolved(s: State) { s.Done? }

  /** Work the station is still expected to do. */
  predicate Active(s: State) { !Resolved(s) && !s.TimedOut? && !s.Uncertain? }

  predicate Unanswered(s: State) { s.Pending? || s.Uncertain? }

  function IdOf(j: Job): (id: JobId) { JobId(j.owner.family, j.requestId) }

  function OwnedBy(owner: Owner): (p: Job -> bool) { (j: Job) => j.owner == owner }

  function Unresolved(): (p: Job -> bool) { (j: Job) => !Resolved(j.state) }

  // Saving -------------------------------------------------------------------------------------------

  predicate SameRow(a: Job, b: Job) { a.owner == b.owner && a.revision == b.revision }

  /** The row after its payload is replaced; key columns stay. */
  function Rewritten(row: Job, record: Job, inflight: Option<bool>): (r: Job) {
    if !SameRow(row, record) then row
    else row.(state := record.state, started := record.started, upload := record.upload,
              inflight := if inflight.Some? then inflight.value else row.inflight)
  }

  function RewrittenAll(jobs: seq<Job>, record: Job, inflight: Option<bool>): (r: seq<Job>)
    ensures |r| == |jobs|
    ensures forall i | 0 <= i < |jobs| :: r[i] == Rewritten(jobs[i], record, inflight)
  {
    if jobs == [] then [] else [Rewritten(jobs[0], record, inflight)] + RewrittenAll(jobs[1..], record, inflight)
  }

  /** One owner at most may be in flight. */
  predicate Contended(jobs: seq<Job>, record: Job, inflight: Option<bool>) {
    inflight == Some(true) && exists j | j in jobs :: j.owner == record.owner && !SameRow(j, record) && j.inflight
  }

  function Save(l: Ledger, record: Job, inflight: Option<bool>): (r: Result<Ledger>) {
    if !exists j | j in l.jobs :: SameRow(j, record) then Err(Conflict)
    else if Contended(l.jobs, record, inflight) then Err(Unavailable)
    else Ok(Ledger(RewrittenAll(l.jobs, record, inflight),
                   if Resolved(record.state) then l.inventory - {IdOf(record)} else l.inventory))
  }

  // Reading, expiry, pruning -------------------------------------------------------------------------

  function ReadKey(l: Ledger, owner: Owner): (r: Result<seq<Job>>) {
    var rows := Filter(l.jobs, OwnedBy(owner));
    if |rows| > MAX_JOBS then Err(IntegrityFailure) else Ok(rows)
  }

  predicate Overdue(j: Job, now: int) {
    !Resolved(j.state) && !j.state.Pending? && !j.state.TimedOut? && j.deadline <= now
  }

  function ExpireEach(l: Ledger, records: seq<Job>, now: int): (r: Result<Ledger>)
    decreases |records|
  {
    if records == [] then Ok(l)
    else if !Overdue(records[0], now) then ExpireEach(l, records[1..], now)
    else
      var next :- Save(l, records[0].(state := TimedOut), None);
      ExpireEach(next, records[1..], now)
  }

  function Expire(l: Ledger, owner: Owner, now: int): (r: Result<Ledger>) {
    var records :- ReadKey(l, owner);
    ExpireEach(l, records, now)
  }

  /** Resolved, not the station's newest, not in flight, and its public result is gone. */
  function Disposable(owner: Owner, newest: nat, retained: set<string>): (p: Job -> bool) {
    (j: Job) => j.owner == owner && j.revision != newest && Resolved(j.state) && !j.inflight && j.requestId !in retained
  }

  function Newest(values: seq<Job>): (n: nat) {
    if values == [] then 0 else values[|values| - 1].revision
  }

  /** What pruning one station leaves of all jobs. */
  function LeftAfterPruning(jobs: seq<Job>, owner: Owner, retained: set<string>): (r: seq<Job>) {
    Filter(jobs, Not(Disposable(owner, Newest(Filter(jobs, OwnedBy(owner))), retained)))
  }

  function Prune(l: Ledger, owner: Owner, retained: set<string>): (r: Result<Ledger>) {
    if |Filter(l.jobs, OwnedBy(owner))| > MAX_JOBS then Err(IntegrityFailure)
    else Ok(l.(jobs := LeftAfterPruning(l.jobs, owner, retained)))
  }

  // Reserving ----------------------------------------------------------------------------------------

  datatype Mutation = Mutation(owner: Owner, requestId: string, variant: Variant, admittedAt: int, deadline: int,
      valid: bool)

  function Register(l: Ledger, id: JobId, bounded: bool): (r: Result<Ledger>) {
    if bounded && |l.inventory| >= MAX_RELEASE_JOBS then Err(Conflict) else Ok(l.(inventory := l.inventory + {id}))
  }

  /** What must not run beside the new request. */
  predicate Blocked(values: seq<Job>, m: Mutation) {
    match m.variant
    case Legacy => exists j | j in values :: Active(j.state)
    case Numbered(_) =>
      (m.owner.family.Diagnostics? && exists j | j in values :: j.variant.Legacy? && Active(j.state))
      || exists j | j in values :: j.variant == m.variant
  }

  function NewJob(m: Mutation, revision: nat): (j: Job) {
    Job(m.owner, revision, m.requestId, m.variant, Pending, true, false, None, m.deadline)
  }

  /** The request id is unique within its family. */
  predicate Taken(jobs: seq<Job>, family: Family, requestId: string) {
    exists x | x in jobs :: x.owner.family == family && x.requestId == requestId
  }

  function Insert(l: Ledger, j: Job): (r: Result<Ledger>) {
    if Taken(l.jobs, j.owner.family, j.requestId) then Err(Unavailable) else Ok(l.(jobs := l.jobs + [j]))
  }

  /** Late jobs time out and old ones go before anything else is decided. */
  function Cleared(l: Ledger, m: Mutation, retained: set<string>): (r: Result<Ledger>) {
    var expired :- Expire(l, m.owner, m.admittedAt);
    Prune(expired, m.owner, retained)
  }

  predicate HasInFlight(jobs: seq<Job>, owner: Owner) {
    exists j | j in jobs :: j.owner == owner && j.inflight
  }

  function ReserveInto(l: Ledger, m: Mutation): (r: Result<Ledger>) {
    if HasInFlight(l.jobs, m.owner) then Err(Conflict)
    else
      var values :- ReadKey(l, m.owner);
      if Blocked(values, m) || |values| >= MAX_JOBS then Err(Conflict)
      else
        var revision := Newest(values) + 1;
        if revision > I64_MAX || m.deadline <= m.admittedAt then Err(Conflict)
        else
          var registered :- Register(l, JobId(m.owner.family, m.requestId), true);
          Insert(registered, NewJob(m, revision))
  }

  function Reserve(l: Ledger, m: Mutation, retained: set<string>): (r: Result<Ledger>) {
    if !m.valid then Err(Conflict)
    else
      var cleared :- Cleared(l, m, retained);
      ReserveInto(cleared, m)
  }

  // Other transitions --------------------------------------------------------------------------------

  function Find(l: Ledger, family: Family, requestId: string): (r: Option<Job>)
    ensures r.Some? ==> r.value in l.jobs && IdOf(r.value) == JobId(family, requestId)
    ensures r.None? ==> forall j | j in l.jobs :: IdOf(j) != JobId(family, requestId)
  {
    var rows := Filter(l.jobs, (j: Job) => IdOf(j) == JobId(family, requestId));
    if rows == [] then
      assert forall j | j in l.jobs && IdOf(j) == JobId(family, requestId) :: j in rows;
      None
    else
      assert rows[0] in rows;
      Some(rows[0])
  }

  function BindUpload(l: Ledger, requestId: string, upload: string, valid: bool): (r: Result<Ledger>) {
    var found := Find(l, Diagnostics, requestId);
    if found.None? || !found.value.inflight then Err(Conflict)
    else if !found.value.state.Pending? || found.value.upload.Some? then Err(Conflict)
    else if !valid then Err(InvalidRequest)
    else Save(l, found.value.(upload := Some(upload), started := true), None)
  }

  /** How a command result bears on its job. */
  datatype Finish = Kept | Dispatched | Unsure | Refused | Answered(accepted: bool, cancelled: bool, outcome: Outcome)

  function FinishedState(s: State, f: Finish): (r: State) {
    match f
    case Unsure => if s.Pending? then Uncertain else s
    case Refused => if s.Pending? then Done(NotSent) else s
    case Answered(accepted, _, outcome) => if Unanswered(s) then (if accepted then ACCEPTED else Done(outcome)) else s
    case _ => s
  }

  function RetireEach(l: Ledger, records: seq<Job>, below: nat, outcome: Outcome): (r: Result<Ledger>)
    decreases |records|
  {
    if records == [] then Ok(l)
    else if records[0].revision >= below || Resolved(records[0].state) then RetireEach(l, records[1..], below, outcome)
    else
      var next :- Save(l, records[0].(state := Done(outcome)), Some(false));
      RetireEach(next, records[1..], below, outcome)
  }

  /** An accepted request ends every older unresolved job of its station. */
  function Retired(l: Ledger, record: Job, f: Finish): (r: Result<Ledger>) {
    if f.Answered? && f.accepted then
      var records :- ReadKey(l, record.owner);
      RetireEach(l, records, record.revision, if f.cancelled then Cancelled else Superseded)
    else Ok(l)
  }

  function FinishJob(l: Ledger, family: Family, requestId: string, f: Finish): (r: Result<Ledger>) {
    var found := Find(l, family, requestId);
    if found.None? then Ok(l)
    else
      var record := found.value;
      var ready :- Retired(l, record, f);
      var started := record.started || f.Dispatched?;
      var inflight := if f.Kept? || f.Dispatched? then record.inflight else false;
      Save(ready, record.(state := FinishedState(record.state, f), started := started), Some(inflight))
  }

  /** A status the station reports for a job; a resolved job keeps its state. */
  function Observe(l: Ledger, family: Family, requestId: string, state: State): (r: Result<Ledger>) {
    var found := Find(l, family, requestId);
    if found.None? then Ok(l)
    else Save(l, if Resolved(found.value.state) then found.value else found.value.(state := state), None)
  }

  function Released(j: Job, owner: Owner): (r: Job) { if j.owner == owner then j.(inflight := false) else j }

  function ReleasedAll(jobs: seq<Job>, owner: Owner): (r: seq<Job>)
    ensures |r| == |jobs|
    ensures forall i | 0 <= i < |jobs| :: r[i] == Released(jobs[i], owner)
  {
    if jobs == [] then [] else [Released(jobs[0], owner)] + ReleasedAll(jobs[1..], owner)
  }

  function Recovered(s: State, started: bool): (r: State) {
    if !s.Pending? then s else if started then Uncertain else Done(NotSent)
  }

  function RecoverEach(l: Ledger, records: seq<Job>): (r: Result<Ledger>)
    decreases |records|
  {
    if records == [] then Ok(l)
    else if Resolved(records[0].state) then RecoverEach(l, records[1..])
    else
      var record := records[0].(state := Recovered(records[0].state, records[0].started));
      var kept :- if Resolved(record.state) then Ok(l) else Register(l, IdOf(record), false);
      var next :- Save(kept, record, Some(false));
      RecoverEach(next, records[1..])
  }

  /** One station's part of startup or of a periodic pass. */
  function Maintain(l: Ledger, owner: Owner, now: int, startup: bool): (r: Result<Ledger>) {
    var records :- ReadKey(l, owner);
    var ready :- if startup then RecoverEach(l.(jobs := ReleasedAll(l.jobs, owner)), records) else Ok(l);
    if records == [] then Ok(ready) else Expire(ready, owner, now)
  }

  /** The whole pass, station by station in one transaction. */
  function MaintainAll(l: Ledger, owners: seq<Owner>, now: int, startup: bool): (r: Result<Ledger>)
    decreases |owners|
  {
    if owners == [] then Ok(l)
    else
      var next :- Maintain(l, owners[0], now, startup);
      MaintainAll(next, owners[1..], now, startup)
  }

  // Other users of the inventory ---------------------------------------------------------------------

  /** The drain records a job of its own; the key is the table's primary key. */
  function StartRelease(l: Ledger, id: JobId, valid: bool, isSealed: bool): (r: Result<Ledger>) {
    if !valid then Err(InvalidRequest)
    else if isSealed || |l.inventory| >= MAX_RELEASE_JOBS then Err(Busy)
    else if id in l.inventory then Err(Unavailable)
    else Ok(l.(inventory := l.inventory + {id}))
  }

  /** Whatever the key names, its row goes. */
  function FinishRelease(l: Ledger, id: JobId, valid: bool, isSealed: bool): (r: Result<Ledger>) {
    if !valid then Err(InvalidRequest)
    else if isSealed then Err(Busy)
    else Ok(l.(inventory := l.inventory - {id}))
  }

  // Runs ---------------------------------------------------------------------------------------------

  datatype Op =
    | Reserving(mutation: Mutation, retained: set<string>)
    | Binding(requestId: string, upload: string, valid: bool)
    | Finishing(family: Family, requestId: string, finish: Finish)
    | Observing(family: Family, requestId: string, state: State)
    | Expiring(owner: Owner, now: int)
    | Pruning(owner: Owner, retained: set<string>)
    | Maintaining(owners: seq<Owner>, now: int, startup: bool)
    | RegisteringOther(name: string, bounded: bool)
    | ResolvingOther(name: string)
    | StartingRelease(id: JobId, valid: bool, isSealed: bool)
    | FinishingRelease(id: JobId, valid: bool, isSealed: bool)

  function TryStep(l: Ledger, op: Op): (r: Result<Ledger>) {
    match op
    case Reserving(m, retained) => Reserve(l, m, retained)
    case Binding(id, upload, valid) => BindUpload(l, id, upload, valid)
    case Finishing(family, id, f) => FinishJob(l, family, id, f)
    case Observing(family, id, state) => Observe(l, family, id, state)
    case Expiring(owner, now) => Expire(l, owner, now)
    case Pruning(owner, retained) => Prune(l, owner, retained)
    case Maintaining(owners, now, startup) => MaintainAll(l, owners, now, startup)
    case RegisteringOther(name, bounded) => Register(l, Foreign(name), bounded)
    case ResolvingOther(name) => Ok(l.(inventory := l.inventory - {Foreign(name)}))
    case StartingRelease(id, valid, isSealed) => StartRelease(l, id, valid, isSealed)
    case FinishingRelease(id, valid, isSealed) => FinishRelease(l, id, valid, isSealed)
  }

  function Step(l: Ledger, op: Op): (r: Ledger) {
    var next := TryStep(l, op);
    if next.Ok? then next.value else l
  }

  function Run(l: Ledger, ops: seq<Op>): (r: Ledger)
    decreases |ops|
  {
    if ops == [] then l else Run(Step(l, ops[0]), ops[1..])
  }

  // What every reachable ledger satisfies ------------------------------------------------------------

  ghost predicate Keyed(jobs: seq<Job>) {
    && (forall i, j | 0 <= i < j < |jobs| && jobs[i].owner == jobs[j].owner :: jobs[i].revision < jobs[j].revision)
    && (forall i, j | 0 <= i < j < |jobs| :: IdOf(jobs[i]) != IdOf(jobs[j]))
  }

  ghost predicate OneInFlight(jobs: seq<Job>) {
    forall i, j | 0 <= i < j < |jobs| && jobs[i].owner == jobs[j].owner :: !(jobs[i].inflight && jobs[j].inflight)
  }

  ghost predicate Bounded(jobs: seq<Job>) {
    forall owner: Owner :: |Filter(jobs, OwnedBy(owner))| <= MAX_JOBS
  }

  ghost predicate RowsOk(jobs: seq<Job>) {
    Keyed(jobs) && OneInFlight(jobs) && Bounded(jobs)
  }

  /** The two families' part of the inventory is exactly their unresolved jobs. */
  ghost predicate ExactInventory(l: Ledger) {
    && (forall j | j in l.jobs && !Resolved(j.state) :: IdOf(j) in l.inventory)
    && (forall id | id in l.inventory && id.JobId? :: exists j | j in l.jobs :: IdOf(j) == id && !Resolved(j.state))
  }

  /** Exact for the two families, and within its bound as a whole. */
  ghost predicate InventoryOk(l: Ledger) {
    ExactInventory(l) && |l.inventory| <= MAX_RELEASE_JOBS
  }

  ghost predicate Sound(l: Ledger) {
    RowsOk(l.jobs) && InventoryOk(l)
  }
}
