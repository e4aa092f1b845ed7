/**
 The operational journal, the delivery outbox and the committed-record streams: their tables and the
 transactions over them. Rows are kept in row-id order; a new row goes last, because SQLite gives it
 a row id above every live one. `stamp`, `inherited` and `enqueued` are history: they only record
 when a delivery was enqueued and how many attempt rows its id already had.
 */
module Outbox {
  import opened Common
  import opened Sequences

  /** A byte string; its length is its encoded size. */
  type Text = string
  type Time = int

  datatype Durability = Critical | BestEffort

  datatype Event = Event(eventId: Text, resource: Text, sequence: nat, payload: Text, retainUntil: Option<Time>)

  datatype Destination = Destination(target: Text, revision: nat)

  datatype NewDelivery = NewDelivery(
    destination: Destination, eventId: Text, deliveryId: Text, orderingKey: Text, deadline: Text,
    durability: Durability, payload: Text)

  datatype Delivery = Delivery(
    row: NewDelivery, attemptCount: nat, nextAttempt: Option<Time>, stamp: nat, inherited: nat)

  datatype Resolution = RetryAt(at: Time, text: Text) | Final

  datatype Attempt = Attempt(
    deliveryId: Text, outcome: Text, reportedAt: Text, resolution: Resolution, retainUntil: Option<Time>)

  datatype NewRecord = NewRecord(recordId: Text, durability: Durability, committedAt: Text, payload: Text,
      retainUntil: Option<Time>)

  datatype Record = Record(row: NewRecord, position: nat)

  datatype Stream = Stream(highWater: nat, expiredPrefix: nat)

  datatype Action = Archive | Discard

  datatype DispositionState = Authorized | Executed(critical: nat, total: nat) | Superseded

  datatype Disposition = Disposition(auditId: Text, destination: Destination, action: Action, principal: Text,
      state: DispositionState)

  datatype Archived = Archived(auditId: Text, delivery: Delivery, archivedAt: Text)

  datatype Stats = Stats(droppedTelemetry: nat, droppedDeliveries: nat, prunedEvents: nat, prunedAttempts: nat)

  datatype Db = Db(
    journal: seq<Event>,
    deliveries: seq<Delivery>,
    attempts: seq<Attempt>,
    records: seq<Record>,
    critical: Stream,
    bestEffort: Stream,
    dispositions: seq<Disposition>,
    archive: seq<Archived>,
    stats: Stats,
    enqueued: nat
  )

  const EMPTY: Db := Db([], [], [], [], Stream(0, 0), Stream(0, 0), [], [], Stats(0, 0, 0, 0), 0)

  function StreamOf(db: Db, durability: Durability): (s: Stream) {
    if durability.Critical? then db.critical else db.bestEffort
  }

  // Byte accounting ------------------------------------------------------------------------------

  /** The writer's measure: an overhead plus the length of every column. */
  function Strings(values: seq<Text>, overhead: nat): (n: nat) {
    if values == [] then overhead else Strings(values[1..], overhead + |values[0]|)
  }

  function EventBytes(e: Event): (n: nat) {
    Strings([e.eventId, e.resource, e.payload], 24)
  }

  function DeliveryBytes(d: NewDelivery): (n: nat) {
    Strings([d.destination.target, d.eventId, d.deliveryId, d.orderingKey, d.deadline, d.payload], 40)
  }

  function RecordBytes(r: NewRecord): (n: nat) {
    Strings([r.recordId, r.committedAt, r.payload], 24)
  }

  /** The measuring query's formulas, table by table. */
  function SqlEvent(e: Event): (n: nat) {
    |e.eventId| + |e.resource| + |e.payload| + 24
  }

  function SqlDelivery(d: Delivery): (n: nat) {
    |d.row.destination.target| + |d.row.eventId| + |d.row.deliveryId| + |d.row.orderingKey| + |d.row.deadline|
    + |d.row.payload| + 40
  }

  function SqlAttempt(a: Attempt): (n: nat) {
    |a.deliveryId| + |a.outcome| + |a.reportedAt| + (if a.resolution.RetryAt? then |a.resolution.text| else 0) + 24
  }

  function SqlRecord(r: Record): (n: nat) {
    |r.row.recordId| + |r.row.committedAt| + |r.row.payload| + 24
  }

  function SqlArchived(a: Archived): (n: nat) {
    |a.auditId| + |a.delivery.row.destination.target| + |a.delivery.row.eventId| + |a.delivery.row.deliveryId|
    + |a.delivery.row.orderingKey| + |a.delivery.row.deadline| + |a.delivery.row.payload| + |a.archivedAt| + 40
  }

  function UsedBytes(db: Db): (n: nat) {
    Sum(db.journal, SqlEvent) + Sum(db.deliveries, SqlDelivery) + Sum(db.attempts, SqlAttempt)
    + Sum(db.records, SqlRecord) + Sum(db.archive, SqlArchived)
  }

  // Row tests ------------------------------------------------------------------------------------

  function CriticalDelivery(): (p: Delivery -> bool) { (d: Delivery) => d.row.durability.Critical? }

  function CriticalRecord(): (p: Record -> bool) { (r: Record) => r.row.durability.Critical? }

  function NewCriticalDelivery(): (p: NewDelivery -> bool) { (d: NewDelivery) => d.durability.Critical? }

  function NewCriticalRecord(): (p: NewRecord -> bool) { (r: NewRecord) => r.durability.Critical? }

  function InStream(durability: Durability): (p: Record -> bool) { (r: Record) => r.row.durability == durability }

  function HasDeliveryId(id: Text): (p: Delivery -> bool) { (d: Delivery) => d.row.deliveryId == id }

  function AttemptOf(id: Text): (p: Attempt -> bool) { (a: Attempt) => a.deliveryId == id }

  function SentTo(destination: Destination): (p: Delivery -> bool) { (d: Delivery) => d.row.destination == destination }

  // Committed streams ----------------------------------------------------------------------------

  /** The record with the smallest position. */
  function Oldest(records: seq<Record>): (o: Record)
    requires records != []
    ensures o in records && forall r | r in records :: o.position <= r.position
  {
    if |records| == 1 then records[0]
    else
      var rest := Oldest(records[1..]);
      assert forall r | r in records :: r == records[0] || r in records[1..];
      if records[0].position <= rest.position then records[0] else rest
  }

  function Advance(stream: Stream, retained: seq<Record>): (s: Stream) {
    var reached := if retained == [] then stream.highWater else Oldest(retained).position - 1;
    stream.(expiredPrefix := if reached > stream.expiredPrefix then reached else stream.expiredPrefix)
  }

  function UpdateSourcePrefix(db: Db): (r: Db) {
    db.(critical := Advance(db.critical, Filter(db.records, InStream(Critical))),
        bestEffort := Advance(db.bestEffort, Filter(db.records, InStream(BestEffort))))
  }

  // Shedding and admission -------------------------------------------------------------------------

  function ShedBestEffort(db: Db): (r: Db) {
    var records := Filter(db.records, CriticalRecord());
    var deliveries := Filter(db.deliveries, CriticalDelivery());
    var pruned := UpdateSourcePrefix(db.(records := records));
    pruned.(deliveries := deliveries,
            stats := db.stats.(droppedTelemetry := db.stats.droppedTelemetry + (|db.records| - |records|),
                               droppedDeliveries := db.stats.droppedDeliveries + (|db.deliveries| - |deliveries|)))
  }

  datatype Policy = Policy(budget: nat, reserve: nat)

  predicate ValidPolicy(p: Policy) {
    p.reserve < p.budget
  }

  function StartLimit(p: Policy): (n: nat)
    requires ValidPolicy(p)
  {
    p.budget - p.reserve
  }

  datatype Purpose = Routine | NewSessionStart | ActiveSessionCompletion

  datatype Write = Write(purpose: Purpose, events: seq<Event>, deliveries: seq<NewDelivery>, records: seq<NewRecord>)

  function Limit(p: Policy, purpose: Purpose): (n: nat)
    requires ValidPolicy(p)
  {
    if purpose.ActiveSessionCompletion? then p.budget else StartLimit(p)
  }

  function CriticalBytes(w: Write): (n: nat) {
    Sum(w.events, EventBytes) + Sum(Filter(w.deliveries, NewCriticalDelivery()), DeliveryBytes)
    + Sum(Filter(w.records, NewCriticalRecord()), RecordBytes)
  }

  predicate MustFit(w: Write) {
    CriticalBytes(w) > 0 || w.purpose.NewSessionStart?
  }

  /** What fits of a best-effort sequence, taken greedily; critical rows always stay. */
  datatype Fitting<T> = Fitting(kept: seq<T>, remaining: nat, dropped: nat)

  function FittingDeliveries(values: seq<NewDelivery>, remaining: nat): (r: Fitting<NewDelivery>) {
    if values == [] then Fitting([], remaining, 0)
    else if values[0].durability.Critical? then
      var rest := FittingDeliveries(values[1..], remaining);
      rest.(kept := [values[0]] + rest.kept)
    else if DeliveryBytes(values[0]) <= remaining then
      var rest := FittingDeliveries(values[1..], remaining - DeliveryBytes(values[0]));
      rest.(kept := [values[0]] + rest.kept)
    else
      var rest := FittingDeliveries(values[1..], remaining);
      rest.(dropped := rest.dropped + 1)
  }

  function FittingRecords(values: seq<NewRecord>, remaining: nat): (r: Fitting<NewRecord>) {
    if values == [] then Fitting([], remaining, 0)
    else if values[0].durability.Critical? then
      var rest := FittingRecords(values[1..], remaining);
      rest.(kept := [values[0]] + rest.kept)
    else if RecordBytes(values[0]) <= remaining then
      var rest := FittingRecords(values[1..], remaining - RecordBytes(values[0]));
      rest.(kept := [values[0]] + rest.kept)
    else
      var rest := FittingRecords(values[1..], remaining);
      rest.(dropped := rest.dropped + 1)
  }

  datatype Prepared = Prepared(db: Db, write: Write)

  function Sheltered(db: Db, policy: Policy, w: Write): (r: Db)
    requires ValidPolicy(policy)
  {
    if MustFit(w) && UsedBytes(db) + CriticalBytes(w) > Limit(policy, w.purpose) then ShedBestEffort(db) else db
  }

  /** Drop what does not fit of the write's best-effort rows, and count it. */
  function Trimmed(db: Db, w: Write, remaining: nat): (r: Prepared) {
    var deliveries := FittingDeliveries(w.deliveries, remaining);
    var records := FittingRecords(w.records, deliveries.remaining);
    Prepared(db.(stats := db.stats.(droppedDeliveries := db.stats.droppedDeliveries + deliveries.dropped,
                                    droppedTelemetry := db.stats.droppedTelemetry + records.dropped)),
             w.(deliveries := deliveries.kept, records := records.kept))
  }

  function PrepareWrite(db: Db, policy: Policy, w: Write): (r: Result<Prepared>)
    requires ValidPolicy(policy)
  {
    var limit := Limit(policy, w.purpose);
    var room := Sheltered(db, policy, w);
    var need := UsedBytes(room) + CriticalBytes(w);
    if MustFit(w) && need > limit then Err(CapacityExhausted)
    else Ok(Trimmed(room, w, if need <= limit then limit - need else 0))
  }

  // Inserting --------------------------------------------------------------------------------------

  function InsertEvent(db: Db, e: Event): (r: Result<Db>) {
    if exists x | x in db.journal ::
        x.eventId == e.eventId || (x.resource == e.resource && x.sequence == e.sequence) then
      Err(Unavailable)
    else Ok(db.(journal := db.journal + [e]))
  }

  function Enqueued(db: Db, d: NewDelivery): (r: Delivery) {
    Delivery(d, 0, None, db.enqueued, |Filter(db.attempts, AttemptOf(d.deliveryId))|)
  }

  function InsertDelivery(db: Db, d: NewDelivery): (r: Result<Db>) {
    if exists x | x in db.deliveries ::
         x.row.deliveryId == d.deliveryId || (x.row.destination == d.destination && x.row.eventId == d.eventId) then
      Err(Unavailable)
    else Ok(db.(deliveries := db.deliveries + [Enqueued(db, d)], enqueued := db.enqueued + 1))
  }

  function InsertRecord(db: Db, n: NewRecord): (r: Result<Db>) {
    if || StreamOf(db, n.durability).highWater >= I64_MAX
       || exists x | x in db.records :: x.row.recordId == n.recordId then
      Err(Unavailable)
    else
      var position := StreamOf(db, n.durability).highWater + 1;
      var grown := db.(records := db.records + [Record(n, position)]);
      Ok(if n.durability.Critical? then grown.(critical := db.critical.(highWater := position))
         else grown.(bestEffort := db.bestEffort.(highWater := position)))
  }

  function InsertEvents(db: Db, events: seq<Event>): (r: Result<Db>)
    decreases |events|
  {
    if events == [] then Ok(db) else var next :- InsertEvent(db, events[0]); InsertEvents(next, events[1..])
  }

  function InsertDeliveries(db: Db, deliveries: seq<NewDelivery>): (r: Result<Db>)
    decreases |deliveries|
  {
    if deliveries == [] then Ok(db)
    else
      var next :- InsertDelivery(db, deliveries[0]);
      InsertDeliveries(next, deliveries[1..])
  }

  function InsertRecords(db: Db, records: seq<NewRecord>): (r: Result<Db>)
    decreases |records|
  {
    if records == [] then Ok(db) else var next :- InsertRecord(db, records[0]); InsertRecords(next, records[1..])
  }

  function WriteAtomic(db: Db, policy: Policy, w: Write): (r: Result<Db>)
    requires ValidPolicy(policy)
  {
    var prepared :- PrepareWrite(db, policy, w);
    var a :- InsertEvents(prepared.db, prepared.write.events);
    var b :- InsertDeliveries(a, prepared.write.deliveries);
    InsertRecords(b, prepared.write.records)
  }

  // Retention --------------------------------------------------------------------------------------

  predicate PendingEvent(db: Db, eventId: Text) {
    exists d | d in db.deliveries :: d.row.eventId == eventId
  }

  predicate PendingId(db: Db, deliveryId: Text) {
    exists d | d in db.deliveries :: d.row.deliveryId == deliveryId
  }

  /** A row without a retention time is kept for good. */
  predicate Expired(retainUntil: Option<Time>, now: Time) {
    retainUntil.Some? && retainUntil.value <= now
  }

  function KeepsEvent(db: Db, now: Time): (p: Event -> bool) {
    (e: Event) => !Expired(e.retainUntil, now) || PendingEvent(db, e.eventId)
  }

  function KeepsAttempt(db: Db, now: Time): (p: Attempt -> bool) {
    (a: Attempt) => !Expired(a.retainUntil, now) || PendingId(db, a.deliveryId)
  }

  function KeepsRecord(now: Time): (p: Record -> bool) {
    (r: Record) => !Expired(r.row.retainUntil, now)
  }

  function Maintain(db: Db, now: Time): (r: Db) {
    var journal := Filter(db.journal, KeepsEvent(db, now));
    var attempts := Filter(db.attempts, KeepsAttempt(db, now));
    var records := Filter(db.records, KeepsRecord(now));
    var pruned := UpdateSourcePrefix(db.(journal := journal, attempts := attempts, records := records));
    pruned.(stats := db.stats.(prunedEvents := db.stats.prunedEvents + (|db.journal| - |journal|),
                               prunedAttempts := db.stats.prunedAttempts + (|db.attempts| - |attempts|)))
  }

  // Delivery ---------------------------------------------------------------------------------------

  predicate SameLane(a: Delivery, b: Delivery) {
    a.row.destination == b.row.destination && a.row.orderingKey == b.row.orderingKey
  }

  /** The oldest live delivery of its destination and ordering key. */
  predicate Head(db: Db, d: Delivery) {
    d in db.deliveries && forall prior | prior in db.deliveries && SameLane(prior, d) :: d.stamp <= prior.stamp
  }

  predicate Due(d: Delivery, readyAt: Time) {
    d.nextAttempt.None? || d.nextAttempt.value <= readyAt
  }

  function Offerable(db: Db, destination: Destination, readyAt: Time): (p: Delivery -> bool) {
    (d: Delivery) => d.row.destination == destination && Due(d, readyAt) && Head(db, d)
  }

  function ReadPending(db: Db, destination: Destination, readyAt: Time, limit: nat): (r: seq<Delivery>) {
    Take(Filter(db.deliveries, Offerable(db, destination, readyAt)), limit)
  }

  function Retried(d: Delivery, id: Text, at: Time): (r: Delivery) {
    if d.row.deliveryId == id then d.(attemptCount := d.attemptCount + 1, nextAttempt := Some(at)) else d
  }

  function RetriedAll(deliveries: seq<Delivery>, id: Text, at: Time): (r: seq<Delivery>)
    ensures |r| == |deliveries|
    ensures forall i | 0 <= i < |deliveries| :: r[i] == Retried(deliveries[i], id, at)
  {
    if deliveries == [] then [] else [Retried(deliveries[0], id, at)] + RetriedAll(deliveries[1..], id, at)
  }

  function RecordAttempt(db: Db, a: Attempt): (r: Result<Db>) {
    if !PendingId(db, a.deliveryId) then Err(Conflict)
    else
      var recorded := db.(attempts := db.attempts + [a]);
      Ok(if a.resolution.Final? then
           recorded.(deliveries := Filter(db.deliveries, Not(HasDeliveryId(a.deliveryId))))
         else recorded.(deliveries := RetriedAll(db.deliveries, a.deliveryId, a.resolution.at)))
  }

  // Dispositions -----------------------------------------------------------------------------------

  const MAX_PENDING: nat := 64

  predicate IsAuthorized(d: Disposition) {
    d.state.Authorized?
  }

  function AuthorizedFor(destination: Destination): (p: Disposition -> bool) {
    (d: Disposition) => d.state.Authorized? && d.destination == destination
  }

  function CriticalCount(db: Db, destination: Destination): (n: nat) {
    |Filter(Filter(db.deliveries, SentTo(destination)), CriticalDelivery())|
  }

  function TotalCount(db: Db, destination: Destination): (n: nat) {
    |Filter(db.deliveries, SentTo(destination))|
  }

  function Authorize(db: Db, destination: Destination, action: Action, principal: Text, auditId: Text): (r: Result<Db>)
  {
    if CriticalCount(db, destination) == 0 then Err(Conflict)
    else if Filter(db.dispositions, AuthorizedFor(destination)) != [] then Err(Conflict)
    else if |Filter(db.dispositions, IsAuthorized)| >= MAX_PENDING then Err(CapacityExhausted)
    else if exists d | d in db.dispositions :: d.auditId == auditId then Err(Unavailable)
    else Ok(db.(dispositions := db.dispositions + [Disposition(auditId, destination, action, principal, Authorized)]))
  }

  function Marked(dispositions: seq<Disposition>, auditId: Text, state: DispositionState): (r: seq<Disposition>)
    ensures |r| == |dispositions|
    ensures forall i | 0 <= i < |dispositions| ::
              r[i] == if dispositions[i].auditId == auditId then dispositions[i].(state := state) else dispositions[i]
  {
    if dispositions == [] then []
    else
      [if dispositions[0].auditId == auditId then dispositions[0].(state := state) else dispositions[0]]
      + Marked(dispositions[1..], auditId, state)
  }

  function ArchivedRows(deliveries: seq<Delivery>, auditId: Text, at: Text): (r: seq<Archived>)
    ensures |r| == |deliveries|
    ensures forall i | 0 <= i < |deliveries| :: r[i] == Archived(auditId, deliveries[i], at)
  {
    if deliveries == [] then [] else [Archived(auditId, deliveries[0], at)] + ArchivedRows(deliveries[1..], auditId, at)
  }

  function Execute(db: Db, d: Disposition, at: Text): (r: Db) {
    var rows := Filter(db.deliveries, SentTo(d.destination));
    db.(archive := if d.action.Archive? then db.archive + ArchivedRows(rows, d.auditId, at) else db.archive,
        deliveries := Filter(db.deliveries, Not(SentTo(d.destination))),
        dispositions := Marked(db.dispositions, d.auditId,
            Executed(CriticalCount(db, d.destination), TotalCount(db, d.destination))))
  }

  function SettleOne(db: Db, d: Disposition, selected: Option<Destination>, at: Text): (r: Db) {
    if selected == Some(d.destination) then db.(dispositions := Marked(db.dispositions, d.auditId, Superseded))
    else Execute(db, d, at)
  }

  function SettleEach(db: Db, pending: seq<Disposition>, selected: Option<Destination>, at: Text): (r: Db)
    decreases |pending|
  {
    if pending == [] then db else SettleEach(SettleOne(db, pending[0], selected, at), pending[1..], selected, at)
  }

  function Settle(db: Db, selected: Option<Destination>, at: Text): (r: Db) {
    SettleEach(db, Take(Filter(db.dispositions, IsAuthorized), MAX_PENDING), selected, at)
  }

  // Runs -------------------------------------------------------------------------------------------

  datatype Op =
    | Writing(write: Write)
    | Maintaining(now: Time)
    | Attempting(attempt: Attempt)
    | Authorizing(destination: Destination, action: Action, principal: Text, auditId: Text)
    | Settling(selected: Option<Destination>, at: Text)

  function TryStep(db: Db, policy: Policy, op: Op): (r: Result<Db>)
    requires ValidPolicy(policy)
  {
    match op
    case Writing(w) => WriteAtomic(db, policy, w)
    case Maintaining(now) => Ok(Maintain(db, now))
    case Attempting(a) => RecordAttempt(db, a)
    case Authorizing(destination, action, principal, auditId) => Authorize(db, destination, action, principal, auditId)
    case Settling(selected, at) => Ok(Settle(db, selected, at))
  }

  /** A refused transaction rolls back. */
  function Step(db: Db, policy: Policy, op: Op): (r: Db)
    requires ValidPolicy(policy)
  {
    var next := TryStep(db, policy, op);
    if next.Ok? then next.value else db
  }

  function Run(db: Db, policy: Policy, ops: seq<Op>): (r: Db)
    requires ValidPolicy(policy)
    decreases |ops|
  {
    if ops == [] then db else Run(Step(db, policy, ops[0]), policy, ops[1..])
  }
}
