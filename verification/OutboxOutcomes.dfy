/**
 What each outbox transaction leaves behind, read off the rows themselves: which rows a retention pass
 drops, what a write stores and when it is refused, what a report changes and when a delivery is offered
 again, when an authorisation is granted and which deliveries settling takes.
 */
module OutboxOutcomes {
  import opened Common
  import opened Sequences
  import opened Outbox
  import opened OutboxDispositions
  import opened OutboxDelivery
  import Capacity = OutboxCapacity

  // Retention ----------------------------------------------------------------------------------------

  /** A row with this retention time outlives a pass at `now` on its own. */
  ghost predicate StillRetained(retainUntil: Option<Time>, now: Time) {
    retainUntil == None || retainUntil.value > now
  }

  /** The only things a retention pass touches. */
  lemma RetentionFrame(db: Db, now: Time)
    ensures var after := Maintain(db, now);
            && after == db.(journal := after.journal, attempts := after.attempts, records := after.records,
                            critical := after.critical, bestEffort := after.bestEffort, stats := after.stats)
            && after.stats == db.stats.(prunedEvents := after.stats.prunedEvents,
                                        prunedAttempts := after.stats.prunedAttempts)
            && after.critical.highWater == db.critical.highWater
            && after.bestEffort.highWater == db.bestEffort.highWater
  {
  }

  /** A delivery of this event is queued. */
  ghost predicate EventQueued(db: Db, eventId: Text) {
    exists d :: d in db.deliveries && d.row.eventId == eventId
  }

  ghost predicate DeliveryQueued(db: Db, deliveryId: Text) {
    exists d :: d in db.deliveries && d.row.deliveryId == deliveryId
  }

  lemma EventsRetained(db: Db, now: Time) returns (events: seq<nat>)
    ensures Picks(db.journal, Maintain(db, now).journal, events)
    ensures forall k | 0 <= k < |db.journal| ::
              k in events <==> StillRetained(db.journal[k].retainUntil, now) || EventQueued(db, db.journal[k].eventId)
  {
    events := FilterPicks(db.journal, KeepsEvent(db, now));
  }

  lemma AttemptsRetained(db: Db, now: Time) returns (attempts: seq<nat>)
    ensures Picks(db.attempts, Maintain(db, now).attempts, attempts)
    ensures forall k | 0 <= k < |db.attempts| ::
              k in attempts
              <==> StillRetained(db.attempts[k].retainUntil, now) || DeliveryQueued(db, db.attempts[k].deliveryId)
  {
    attempts := FilterPicks(db.attempts, KeepsAttempt(db, now));
  }

  lemma RecordsRetained(db: Db, now: Time) returns (records: seq<nat>)
    ensures Picks(db.records, Maintain(db, now).records, records)
    ensures forall k | 0 <= k < |db.records| :: k in records <==> StillRetained(db.records[k].row.retainUntil, now)
  {
    records := FilterPicks(db.records, KeepsRecord(now));
  }

  /**
   A retention pass keeps an event exactly when its time has not come, it has none, or a delivery of
   it is queued; an attempt likewise by its delivery; a record by its time alone. What is kept stays in
   order, and the two counters grow by the rows that are gone.
   */
  lemma RetentionDropsExactlyExpired(db: Db, now: Time)
    returns (events: seq<nat>, attempts: seq<nat>, records: seq<nat>)
    ensures var after := Maintain(db, now);
            && Picks(db.journal, after.journal, events)
            && Picks(db.attempts, after.attempts, attempts)
            && Picks(db.records, after.records, records)
            && after.stats.prunedEvents == db.stats.prunedEvents + (|db.journal| - |events|)
            && after.stats.prunedAttempts == db.stats.prunedAttempts + (|db.attempts| - |attempts|)
    ensures forall k | 0 <= k < |db.journal| ::
              k in events <==> StillRetained(db.journal[k].retainUntil, now) || EventQueued(db, db.journal[k].eventId)
    ensures forall k | 0 <= k < |db.attempts| ::
              k in attempts
              <==> StillRetained(db.attempts[k].retainUntil, now) || DeliveryQueued(db, db.attempts[k].deliveryId)
    ensures forall k | 0 <= k < |db.records| :: k in records <==> StillRetained(db.records[k].row.retainUntil, now)
  {
    events := EventsRetained(db, now);
    attempts := AttemptsRetained(db, now);
    records := RecordsRetained(db, now);
  }

  // Reports and offers -------------------------------------------------------------------------------

  /**
   A report is refused exactly when nothing is queued under its id. Otherwise the attempt is the last
   row; a final outcome takes the delivery out, and a retry leaves it where it was, counted and due at
   the given time. Every other delivery is as it was.
   */
  lemma ReportOutcome(db: Db, a: Attempt)
    ensures RecordAttempt(db, a).Err? <==> forall d | d in db.deliveries :: d.row.deliveryId != a.deliveryId
    ensures RecordAttempt(db, a).Ok? ==>
              var after := RecordAttempt(db, a).value;
              && after == db.(attempts := db.attempts + [a], deliveries := after.deliveries)
              && (a.resolution.RetryAt? ==>
                    && |after.deliveries| == |db.deliveries|
                    && (forall i | 0 <= i < |db.deliveries| ::
                          var d := db.deliveries[i];
                          after.deliveries[i]
                          == if d.row.deliveryId != a.deliveryId then d
                             else Delivery(d.row, d.attemptCount + 1, Some(a.resolution.at), d.stamp, d.inherited)))
              && (a.resolution == Final ==>
                    exists at: seq<nat> ::
                      && Picks(db.deliveries, after.deliveries, at)
                      && (forall k | 0 <= k < |db.deliveries| ::
                            k in at <==> db.deliveries[k].row.deliveryId != a.deliveryId))
  {
    if RecordAttempt(db, a).Ok? && a.resolution == Final {
      var at := FilterPicks(db.deliveries, Not(HasDeliveryId(a.deliveryId)));
    }
  }

  /** First in its lane: nothing with the same destination and ordering key was queued before it. */
  ghost predicate FirstInLane(db: Db, d: Delivery) {
    forall prior | prior in db.deliveries && prior.row.destination == d.row.destination
                   && prior.row.orderingKey == d.row.orderingKey :: d.stamp <= prior.stamp
  }

  /** What may be offered: due now, for this destination, and first in its lane. */
  ghost predicate Waiting(db: Db, destination: Destination, readyAt: Time, d: Delivery) {
    && d.row.destination == destination && (d.nextAttempt == None || d.nextAttempt.value <= readyAt)
    && FirstInLane(db, d)
  }

  /** Offers are the waiting deliveries in row order, cut off at the limit. */
  lemma OffersWaitingInOrder(db: Db, destination: Destination, readyAt: Time, limit: nat) returns (at: seq<nat>)
    ensures forall k | 0 <= k < |db.deliveries| :: k in at <==> Waiting(db, destination, readyAt, db.deliveries[k])
    ensures forall i, j | 0 <= i < j < |at| :: at[i] < at[j]
    ensures var offered := ReadPending(db, destination, readyAt, limit);
            && |offered| == (if |at| <= limit then |at| else limit)
            && Picks(db.deliveries, offered, at[..|offered|])
  {
    at := FilterPicks(db.deliveries, Offerable(db, destination, readyAt));
    forall k | 0 <= k < |db.deliveries|
      ensures k in at <==> Waiting(db, destination, readyAt, db.deliveries[k])
    {
      OfferableMeaning(db, destination, readyAt, db.deliveries[k]);
    }
  }

  lemma OfferableMeaning(db: Db, destination: Destination, readyAt: Time, d: Delivery)
    requires d in db.deliveries
    ensures Offerable(db, destination, readyAt)(d) <==> Waiting(db, destination, readyAt, d)
  {
    if Waiting(db, destination, readyAt, d) {
      forall prior | prior in db.deliveries && SameLane(prior, d) ensures d.stamp <= prior.stamp {
      }
    }
    if Offerable(db, destination, readyAt)(d) {
      forall prior | prior in db.deliveries && prior.row.destination == d.row.destination
                     && prior.row.orderingKey == d.row.orderingKey
        ensures d.stamp <= prior.stamp
      {
        assert SameLane(prior, d);
      }
    }
  }

  // Retries over runs --------------------------------------------------------------------------------

  ghost predicate Unreported(ops: seq<Op>, id: Text) {
    forall op | op in ops :: !(op.Attempting? && op.attempt.deliveryId == id)
  }

  lemma WriteLeavesQueued(db: Db, policy: Policy, w: Write, d: Delivery, now: Delivery)
    requires ValidPolicy(policy) && Sound(db) && d in db.deliveries && WriteAtomic(db, policy, w).Ok?
    requires now in WriteAtomic(db, policy, w).value.deliveries && Continues(d, now)
    ensures now == d
  {
    var shed := WriteAppends(db, policy, w);
    var after := WriteAtomic(db, policy, w).value;
    var i :| 0 <= i < |after.deliveries| && after.deliveries[i] == now;
    assert i < |shed| && shed[i] == now;
    assert now in db.deliveries;
    SameStamp(db, d, now);
  }

  lemma ReportLeavesOthers(db: Db, a: Attempt, d: Delivery, now: Delivery)
    requires Sound(db) && d in db.deliveries && a.deliveryId != d.row.deliveryId
    requires RecordAttempt(db, a).Ok? && now in RecordAttempt(db, a).value.deliveries && Continues(d, now)
    ensures now == d
  {
    if a.resolution.RetryAt? {
      var after := RecordAttempt(db, a).value.deliveries;
      var i :| 0 <= i < |after| && after[i] == now;
      assert db.deliveries[i] in db.deliveries;
    }
    SameStamp(db, d, now);
  }

  /** Nothing but a report for it changes a queued delivery. */
  lemma StepLeavesUnreported(db: Db, policy: Policy, op: Op, d: Delivery, now: Delivery)
    requires ValidPolicy(policy) && Sound(db) && d in db.deliveries && Unreported([op], d.row.deliveryId)
    requires now in Step(db, policy, op).deliveries && Continues(d, now)
    ensures now == d
  {
    assert op in [op];
    match op
    case Writing(w) =>
      if WriteAtomic(db, policy, w).Ok? {
        WriteLeavesQueued(db, policy, w, d, now);
      } else {
        SameStamp(db, d, now);
      }
    case Maintaining(_) => SameStamp(db, d, now);
    case Attempting(a) =>
      if RecordAttempt(db, a).Ok? {
        ReportLeavesOthers(db, a, d, now);
      } else {
        SameStamp(db, d, now);
      }
    case Authorizing(_, _, _, _) => SameStamp(db, d, now);
    case Settling(selected, at) =>
      SettlingFrame(db, selected, at);
      SameStamp(db, d, now);
  }

  lemma {:induction false} RunLeavesUnreported(db: Db, policy: Policy, ops: seq<Op>, d: Delivery, now: Delivery)
    requires ValidPolicy(policy) && Sound(db) && d in db.deliveries && Unreported(ops, d.row.deliveryId)
    requires now in Run(db, policy, ops).deliveries && Continues(d, now)
    ensures now == d
    decreases |ops|
  {
    if ops == [] {
      SameStamp(db, d, now);
    } else {
      var next := Step(db, policy, ops[0]);
      StepKeepsSound(db, policy, ops[0]);
      StepDescends(db, policy, ops[0]);
      if !Live(next, d) {
        GoneStaysGone(next, policy, ops[1..], d);
        assert false;
      } else {
        var moved :| moved in next.deliveries && Continues(d, moved);
        assert ops[0] in ops;
        StepLeavesUnreported(db, policy, ops[0], d, moved);
        forall op | op in ops[1..] ensures !(op.Attempting? && op.attempt.deliveryId == d.row.deliveryId) {
          assert op in ops;
        }
        RunLeavesUnreported(next, policy, ops[1..], d, now);
      }
    }
  }

  /** The row a retry leaves. */
  ghost function RetriedRow(d: Delivery, at: Time): (r: Delivery) {
    Delivery(d.row, d.attemptCount + 1, Some(at), d.stamp, d.inherited)
  }

  lemma RetriedInPlace(db: Db, policy: Policy, a: Attempt, d: Delivery)
    requires ValidPolicy(policy) && Sound(db) && d in db.deliveries && d.row.deliveryId == a.deliveryId
    requires a.resolution.RetryAt? && RecordAttempt(db, a).Ok?
    ensures RetriedRow(d, a.resolution.at) in RecordAttempt(db, a).value.deliveries
    ensures Sound(RecordAttempt(db, a).value)
  {
    StepKeepsSound(db, policy, Attempting(a));
    var i :| 0 <= i < |db.deliveries| && db.deliveries[i] == d;
    assert RecordAttempt(db, a).value.deliveries[i] == RetriedRow(d, a.resolution.at);
  }

  lemma RetriedStays(db: Db, policy: Policy, a: Attempt, d: Delivery, ops: seq<Op>)
    requires ValidPolicy(policy) && Sound(db) && d in db.deliveries && d.row.deliveryId == a.deliveryId
    requires a.resolution.RetryAt? && RecordAttempt(db, a).Ok? && Unreported(ops, a.deliveryId)
    requires Live(Run(RecordAttempt(db, a).value, policy, ops), d)
    ensures RetriedRow(d, a.resolution.at) in Run(RecordAttempt(db, a).value, policy, ops).deliveries
    ensures Sound(Run(RecordAttempt(db, a).value, policy, ops))
  {
    RetriedInPlace(db, policy, a, d);
    var start, retried := RecordAttempt(db, a).value, RetriedRow(d, a.resolution.at);
    var now :| now in Run(start, policy, ops).deliveries && Continues(d, now);
    RunLeavesUnreported(start, policy, ops, retried, now);
    RunKeepsSound(start, policy, ops);
  }

  lemma RetriedLeads(db: Db, policy: Policy, a: Attempt, d: Delivery, ops: seq<Op>)
    requires ValidPolicy(policy) && Sound(db) && d in db.deliveries && FirstInLane(db, d)
    requires a.resolution.RetryAt? && RecordAttempt(db, a).Ok?
    requires RetriedRow(d, a.resolution.at) in Run(RecordAttempt(db, a).value, policy, ops).deliveries
    ensures FirstInLane(Run(RecordAttempt(db, a).value, policy, ops), RetriedRow(d, a.resolution.at))
  {
    var retried := RetriedRow(d, a.resolution.at);
    HeadIsFirstInLane(db, d);
    assert ([Attempting(a)] + ops)[1..] == ops;
    assert Run(db, policy, [Attempting(a)] + ops) == Run(RecordAttempt(db, a).value, policy, ops);
    HeadStaysUntilRemoved(db, policy, [Attempting(a)] + ops, d, retried);
    HeadIsFirstInLane(Run(RecordAttempt(db, a).value, policy, ops), retried);
  }

  lemma OfferedWhenDue(db: Db, d: Delivery, readyAt: Time, limit: nat)
    requires Numbered(db) && d in db.deliveries && d.nextAttempt.Some?
    ensures var offered := ReadPending(db, d.row.destination, readyAt, limit);
            && (d in offered ==> readyAt >= d.nextAttempt.value)
            && (FirstInLane(db, d) && readyAt >= d.nextAttempt.value && |offered| < limit ==> d in offered)
  {
    OffersExactlyDueHeads(db, d.row.destination, readyAt, limit);
    HeadIsFirstInLane(db, d);
  }

  /**
   A delivery reported for retry at a given time is offered no earlier, and from then on it waits for
   its turn: whatever runs in between, short of another report for it. One that led its lane when it
   was reported is then offered whenever the limit allows.
   */
  lemma RetryIsOfferedFromItsTime(db: Db, policy: Policy, a: Attempt, d: Delivery, ops: seq<Op>, readyAt: Time,
      limit: nat)
    requires ValidPolicy(policy) && Sound(db) && d in db.deliveries && d.row.deliveryId == a.deliveryId
    requires a.resolution.RetryAt? && RecordAttempt(db, a).Ok? && Unreported(ops, a.deliveryId)
    requires Live(Run(RecordAttempt(db, a).value, policy, ops), d)
    ensures var later := Run(RecordAttempt(db, a).value, policy, ops);
            var now := RetriedRow(d, a.resolution.at);
            var offered := ReadPending(later, d.row.destination, readyAt, limit);
            && now in later.deliveries
            && (now in offered ==> readyAt >= a.resolution.at)
            && (FirstInLane(db, d) ==> FirstInLane(later, now))
            && (FirstInLane(later, now) && readyAt >= a.resolution.at && |offered| < limit ==> now in offered)
  {
    RetriedStays(db, policy, a, d, ops);
    if FirstInLane(db, d) {
      RetriedLeads(db, policy, a, d, ops);
    }
    var later := Run(RecordAttempt(db, a).value, policy, ops);
    OfferedWhenDue(later, RetriedRow(d, a.resolution.at), readyAt, limit);
  }

  lemma HeadIsFirstInLane(db: Db, d: Delivery)
    requires d in db.deliveries
    ensures Head(db, d) <==> FirstInLane(db, d)
  {
    if FirstInLane(db, d) {
      forall prior | prior in db.deliveries && SameLane(prior, d) ensures d.stamp <= prior.stamp {
      }
    }
    if Head(db, d) {
      forall prior | prior in db.deliveries && prior.row.destination == d.row.destination
                     && prior.row.orderingKey == d.row.orderingKey
        ensures d.stamp <= prior.stamp
      {
        assert SameLane(prior, d);
      }
    }
  }

  // Authorisations -----------------------------------------------------------------------------------

  ghost function PendingRows(db: Db): (rows: set<nat>) {
    set i: nat | i < |db.dispositions| && db.dispositions[i].state == Authorized
  }

  ghost function SentRows(db: Db, destination: Destination): (rows: set<nat>) {
    set i: nat | i < |db.deliveries| && db.deliveries[i].row.destination == destination
  }

  ghost function CriticalRows(db: Db, destination: Destination): (rows: set<nat>) {
    set i: nat | && i < |db.deliveries| && db.deliveries[i].row.destination == destination
                 && db.deliveries[i].row.durability == Critical
  }

  /**
   An authorisation is granted exactly when a critical delivery waits for that destination, the
   destination has none pending, fewer than 64 are pending in all, and its audit id is new. It is then
   the last row, with its destination, action and principal, and nothing else changes.
   */
  lemma GrantedExactlyWhenEligible(db: Db, destination: Destination, action: Action, principal: Text, auditId: Text)
    ensures Authorize(db, destination, action, principal, auditId).Ok?
            <==> && (exists d :: d in db.deliveries && d.row.destination == destination && d.row.durability == Critical)
                 && (forall x | x in db.dispositions && x.state == Authorized :: x.destination != destination)
                 && |PendingRows(db)| < 64
                 && (forall x | x in db.dispositions :: x.auditId != auditId)
    ensures Authorize(db, destination, action, principal, auditId).Ok? ==>
              var granted := Disposition(auditId, destination, action, principal, Authorized);
              Authorize(db, destination, action, principal, auditId).value
              == db.(dispositions := db.dispositions + [granted])
  {
    CriticalWaits(db, destination);
    FilterCount(db.dispositions, IsAuthorized);
    assert Passing(db.dispositions, IsAuthorized) == PendingRows(db);
    var pending := Filter(db.dispositions, AuthorizedFor(destination));
    if pending != [] {
      assert pending[0] in pending;
    }
  }

  lemma CriticalWaits(db: Db, destination: Destination)
    ensures CriticalCount(db, destination) > 0
            <==> exists d :: d in db.deliveries && d.row.destination == destination && d.row.durability == Critical
  {
    var sent := Filter(db.deliveries, SentTo(destination));
    var critical := Filter(sent, CriticalDelivery());
    if critical != [] {
      assert critical[0] in critical;
    }
  }

  // Settling -----------------------------------------------------------------------------------------

  /** A delivery whose destination has a pending authorisation and is not the selected one. */
  ghost predicate GivenUp(db: Db, selected: Option<Destination>, d: Delivery) {
    && selected != Some(d.row.destination)
    && (exists x :: x in db.dispositions && x.state == Authorized && x.destination == d.row.destination)
  }

  /** Settling takes exactly the deliveries given up; the others stay in order. */
  lemma SettlingTakesGivenUp(db: Db, selected: Option<Destination>, when: Text) returns (at: seq<nat>)
    requires Orderly(db)
    ensures Picks(db.deliveries, Settle(db, selected, when).deliveries, at)
    ensures forall k | 0 <= k < |db.deliveries| :: k in at <==> !GivenUp(db, selected, db.deliveries[k])
  {
    SettlingIsExact(db, selected, when);
    var pending := Filter(db.dispositions, IsAuthorized);
    at := FilterPicks(db.deliveries, Not(Doomed(pending, selected)));
    forall k | 0 <= k < |db.deliveries| ensures k in at <==> !GivenUp(db, selected, db.deliveries[k]) {
      DoomedMeaning(db, selected, db.deliveries[k]);
    }
  }

  lemma DoomedMeaning(db: Db, selected: Option<Destination>, d: Delivery)
    ensures Doomed(Filter(db.dispositions, IsAuthorized), selected)(d) <==> GivenUp(db, selected, d)
  {
    var pending := Filter(db.dispositions, IsAuthorized);
    if Doomed(pending, selected)(d) {
      var x :| x in pending && x.destination == d.row.destination;
      assert x in db.dispositions && x.state == Authorized;
    }
    if GivenUp(db, selected, d) {
      var x :| x in db.dispositions && x.state == Authorized && x.destination == d.row.destination;
      assert x in pending;
    }
  }

  /** How a disposition ends: superseded if its destination was selected, otherwise with exact counts. */
  lemma SettledState(db: Db, selected: Option<Destination>, when: Text, i: nat)
    requires Orderly(db) && i < |db.dispositions|
    ensures var was, now := db.dispositions[i], Settle(db, selected, when).dispositions;
            && |now| == |db.dispositions| && now[i] == was.(state := now[i].state)
            && (was.state != Authorized ==> now[i].state == was.state)
            && (was.state == Authorized && selected == Some(was.destination) ==> now[i].state == Superseded)
            && (was.state == Authorized && selected != Some(was.destination) ==>
                  now[i].state
                  == Executed(|CriticalRows(db, was.destination)|, |SentRows(db, was.destination)|))
  {
    SettlingIsExact(db, selected, when);
    var destination := db.dispositions[i].destination;
    CountsAreExact(db, destination);
  }

  lemma CountsAreExact(db: Db, destination: Destination)
    ensures TotalCount(db, destination) == |SentRows(db, destination)|
    ensures CriticalCount(db, destination) == |CriticalRows(db, destination)|
  {
    var both := (d: Delivery) => d.row.destination == destination && d.row.durability == Critical;
    FilterCount(db.deliveries, SentTo(destination));
    FilterCount(db.deliveries, both);
    FilterBoth(db.deliveries, SentTo(destination), CriticalDelivery(), both);
    assert Passing(db.deliveries, SentTo(destination)) == SentRows(db, destination);
    assert Passing(db.deliveries, both) == CriticalRows(db, destination);
  }

  // Admission and trimming ---------------------------------------------------------------------------

  /** The write carries something that must not be lost, or opens a session. */
  ghost predicate CarriesCritical(w: Write) {
    || w.events != [] || w.purpose == NewSessionStart
    || (exists d :: d in w.deliveries && d.durability == Critical)
    || (exists r :: r in w.records && r.durability == Critical)
  }

  lemma {:induction false} PositiveSum<T>(s: seq<T>, f: T -> nat)
    requires forall x | x in s :: f(x) > 0
    ensures Sum(s, f) > 0 <==> s != []
  {
    if s != [] {
      assert s[0] in s;
    }
  }

  lemma EventHasBytes(e: Event)
    ensures EventBytes(e) >= 24
  {
    Capacity.StringsAdds([e.eventId, e.resource, e.payload], 24);
  }

  lemma DeliveryHasBytes(d: NewDelivery)
    ensures DeliveryBytes(d) >= 40
  {
    Capacity.StringsAdds([d.destination.target, d.eventId, d.deliveryId, d.orderingKey, d.deadline, d.payload], 40);
  }

  lemma RecordHasBytes(r: NewRecord)
    ensures RecordBytes(r) >= 24
  {
    Capacity.StringsAdds([r.recordId, r.committedAt, r.payload], 24);
  }

  lemma MustFitMeaning(w: Write)
    ensures MustFit(w) <==> CarriesCritical(w)
  {
    var deliveries := Filter(w.deliveries, NewCriticalDelivery());
    var records := Filter(w.records, NewCriticalRecord());
    forall e | e in w.events ensures EventBytes(e) > 0 {
      EventHasBytes(e);
    }
    forall d | d in deliveries ensures DeliveryBytes(d) > 0 {
      DeliveryHasBytes(d);
    }
    forall r | r in records ensures RecordBytes(r) > 0 {
      RecordHasBytes(r);
    }
    PositiveSum(w.events, EventBytes);
    PositiveSum(deliveries, DeliveryBytes);
    PositiveSum(records, RecordBytes);
    if deliveries != [] {
      assert deliveries[0] in deliveries;
    }
    if records != [] {
      assert records[0] in records;
    }
  }

  /** What the purpose of a write may fill the store to. */
  ghost function Ceiling(policy: Policy, purpose: Purpose): (n: int) {
    match purpose
    case Routine => policy.budget - policy.reserve
    case NewSessionStart => policy.budget - policy.reserve
    case ActiveSessionCompletion => policy.budget
  }

  /** A write is refused for capacity exactly when its critical rows do not fit beside what cannot be shed. */
  lemma RefusedExactlyWhenFull(db: Db, policy: Policy, w: Write)
    requires ValidPolicy(policy)
    ensures PrepareWrite(db, policy, w).Err?
            <==> CarriesCritical(w) && Capacity.FirmBytes(db) + CriticalBytes(w) > Ceiling(policy, w.purpose)
  {
    Capacity.AdmittedExactlyWhenFirmUsageFits(db, policy, w);
    MustFitMeaning(w);
  }

  /** Shedding keeps exactly the critical rows, in order, and counts the others. */
  lemma ShedKeepsExactlyCritical(db: Db) returns (deliveries: seq<nat>, records: seq<nat>)
    ensures var after := ShedBestEffort(db);
            && Picks(db.deliveries, after.deliveries, deliveries) && Picks(db.records, after.records, records)
            && after == db.(deliveries := after.deliveries, records := after.records, critical := after.critical,
                            bestEffort := after.bestEffort, stats := after.stats)
            && after.stats == db.stats.(
               droppedTelemetry := db.stats.droppedTelemetry + (|db.records| - |records|),
               droppedDeliveries := db.stats.droppedDeliveries + (|db.deliveries| - |deliveries|))
    ensures forall k | 0 <= k < |db.deliveries| :: k in deliveries <==> db.deliveries[k].row.durability == Critical
    ensures forall k | 0 <= k < |db.records| :: k in records <==> db.records[k].row.durability == Critical
  {
    deliveries := FilterPicks(db.deliveries, CriticalDelivery());
    records := FilterPicks(db.records, CriticalRecord());
  }

  /** Best-effort rows give way exactly when a write that must fit would not fit beside them. */
  lemma ShedExactlyWhenShort(db: Db, policy: Policy, w: Write)
    requires ValidPolicy(policy)
    ensures Sheltered(db, policy, w)
            == if CarriesCritical(w) && UsedBytes(db) + CriticalBytes(w) > Ceiling(policy, w.purpose)
               then ShedBestEffort(db) else db
  {
    MustFitMeaning(w);
  }

  /** The size a queued delivery is charged with. */
  ghost function ChargedDelivery(d: NewDelivery): (n: nat) {
    40 + |d.destination.target| + |d.eventId| + |d.deliveryId| + |d.orderingKey| + |d.deadline| + |d.payload|
  }

  ghost function ChargedRecord(r: NewRecord): (n: nat) {
    24 + |r.recordId| + |r.committedAt| + |r.payload|
  }

  lemma ChargedBytes(d: NewDelivery, r: NewRecord)
    ensures DeliveryBytes(d) == ChargedDelivery(d) && RecordBytes(r) == ChargedRecord(r)
  {
    Capacity.WriterMeasureIsQueryMeasure(Event("", "", 0, "", None), Delivery(d, 0, None, 0, 0), Record(r, 0));
  }

  /**
   Rows are taken in order: a critical row always, a best-effort row exactly when it fits into what the
   rows before it left, and it then uses up its size; every other row is dropped and counted.
   */
  lemma {:induction false} DeliveriesTakenInOrder(values: seq<NewDelivery>, d: NewDelivery, remaining: nat)
    ensures var f, g := FittingDeliveries(values, remaining), FittingDeliveries(values + [d], remaining);
            if d.durability == Critical then g == Fitting(f.kept + [d], f.remaining, f.dropped)
            else if ChargedDelivery(d) <= f.remaining then
              g == Fitting(f.kept + [d], f.remaining - ChargedDelivery(d), f.dropped)
            else g == Fitting(f.kept, f.remaining, f.dropped + 1)
    decreases |values|
  {
    ChargedBytes(d, NewRecord("", Critical, "", "", None));
    if values == [] {
      assert values + [d] == [d];
    } else {
      assert (values + [d])[1..] == values[1..] + [d];
      var fits := !values[0].durability.Critical? && DeliveryBytes(values[0]) <= remaining;
      var left := if fits then remaining - DeliveryBytes(values[0]) else remaining;
      DeliveriesTakenInOrder(values[1..], d, left);
      var f := FittingDeliveries(values[1..], left);
      assert [values[0]] + (f.kept + [d]) == ([values[0]] + f.kept) + [d];
    }
  }

  lemma {:induction false} RecordsTakenInOrder(values: seq<NewRecord>, r: NewRecord, remaining: nat)
    ensures var f, g := FittingRecords(values, remaining), FittingRecords(values + [r], remaining);
            if r.durability == Critical then g == Fitting(f.kept + [r], f.remaining, f.dropped)
            else if ChargedRecord(r) <= f.remaining then
              g == Fitting(f.kept + [r], f.remaining - ChargedRecord(r), f.dropped)
            else g == Fitting(f.kept, f.remaining, f.dropped + 1)
    decreases |values|
  {
    ChargedBytes(NewDelivery(Destination("", 0), "", "", "", "", Critical, ""), r);
    if values == [] {
      assert values + [r] == [r];
    } else {
      assert (values + [r])[1..] == values[1..] + [r];
      var fits := !values[0].durability.Critical? && RecordBytes(values[0]) <= remaining;
      var left := if fits then remaining - RecordBytes(values[0]) else remaining;
      RecordsTakenInOrder(values[1..], r, left);
      var f := FittingRecords(values[1..], left);
      assert [values[0]] + (f.kept + [r]) == ([values[0]] + f.kept) + [r];
    }
  }

  /** No rows, no change. */
  lemma NothingTaken(remaining: nat)
    ensures FittingDeliveries([], remaining) == Fitting([], remaining, 0)
    ensures FittingRecords([], remaining) == Fitting([], remaining, 0)
  {
  }

  // What a write stores ------------------------------------------------------------------------------

  /** Two journal events the unique indexes keep apart. */
  ghost predicate SameEvent(a: Event, b: Event) {
    a.eventId == b.eventId || (a.resource == b.resource && a.sequence == b.sequence)
  }

  ghost predicate SameQueued(a: NewDelivery, b: NewDelivery) {
    a.deliveryId == b.deliveryId || (a.destination == b.destination && a.eventId == b.eventId)
  }

  ghost predicate EventsClash(journal: seq<Event>, events: seq<Event>) {
    || (exists x, e | x in journal && e in events :: SameEvent(x, e))
    || (exists i, j | 0 <= i < j < |events| :: SameEvent(events[i], events[j]))
  }

  ghost predicate DeliveriesClash(queued: seq<Delivery>, ds: seq<NewDelivery>) {
    || (exists x, d | x in queued && d in ds :: SameQueued(x.row, d))
    || (exists i, j | 0 <= i < j < |ds| :: SameQueued(ds[i], ds[j]))
  }

  /** The new events follow the old ones, unless one of them is already there. */
  lemma {:induction false} EventsStored(db: Db, events: seq<Event>)
    ensures InsertEvents(db, events).Err? <==> EventsClash(db.journal, events)
    ensures InsertEvents(db, events).Ok? ==>
              InsertEvents(db, events).value == db.(journal := db.journal + events)
    decreases |events|
  {
    if events == [] {
      assert db.journal + events == db.journal;
    } else if InsertEvent(db, events[0]).Ok? {
      var next := InsertEvent(db, events[0]).value;
      EventsStored(next, events[1..]);
      assert next.journal + events[1..] == db.journal + events;
      EventsClashOnward(db.journal, events);
    } else {
      var x :| x in db.journal && SameEvent(x, events[0]);
      assert events[0] in events;
    }
  }

  lemma EventsClashOnward(journal: seq<Event>, events: seq<Event>)
    requires events != [] && forall x | x in journal :: !SameEvent(x, events[0])
    ensures EventsClash(journal, events) <==> EventsClash(journal + [events[0]], events[1..])
  {
    var rest := events[1..];
    if EventsClash(journal + [events[0]], rest) {
      if x, e :| x in journal + [events[0]] && e in rest && SameEvent(x, e) {
        var j :| 0 <= j < |rest| && rest[j] == e;
        assert events[j + 1] == e && e in events;
        assert x in journal || x == events[0];
      } else {
        var i, j :| 0 <= i < j < |rest| && SameEvent(rest[i], rest[j]);
        assert SameEvent(events[i + 1], events[j + 1]);
      }
    }
    if EventsClash(journal, events) {
      if x, e :| x in journal && e in events && SameEvent(x, e) {
        assert e in rest && x in journal + [events[0]];
      } else {
        var i, j :| 0 <= i < j < |events| && SameEvent(events[i], events[j]);
        assert events[j] == rest[j - 1];
        if i == 0 {
          assert events[0] in journal + [events[0]] && rest[j - 1] in rest;
        } else {
          assert events[i] == rest[i - 1];
        }
      }
    }
  }

  lemma {:induction false} DeliveriesStored(db: Db, ds: seq<NewDelivery>)
    ensures InsertDeliveries(db, ds).Err? <==> DeliveriesClash(db.deliveries, ds)
    decreases |ds|
  {
    if ds != [] {
      if InsertDelivery(db, ds[0]).Ok? {
        DeliveriesStored(InsertDelivery(db, ds[0]).value, ds[1..]);
        DeliveriesClashOnward(db.deliveries, ds, Enqueued(db, ds[0]));
      } else {
        var x :| x in db.deliveries && SameQueued(x.row, ds[0]);
        assert ds[0] in ds;
      }
    }
  }

  lemma DeliveriesClashOnward(queued: seq<Delivery>, ds: seq<NewDelivery>, first: Delivery)
    requires ds != [] && first.row == ds[0] && forall x | x in queued :: !SameQueued(x.row, ds[0])
    ensures DeliveriesClash(queued, ds) <==> DeliveriesClash(queued + [first], ds[1..])
  {
    var rest := ds[1..];
    if DeliveriesClash(queued + [first], rest) {
      if x, d :| x in queued + [first] && d in rest && SameQueued(x.row, d) {
        var j :| 0 <= j < |rest| && rest[j] == d;
        assert ds[j + 1] == d && d in ds;
        assert x in queued || x == first;
      } else {
        var i, j :| 0 <= i < j < |rest| && SameQueued(rest[i], rest[j]);
        assert SameQueued(ds[i + 1], ds[j + 1]);
      }
    }
    if DeliveriesClash(queued, ds) {
      if x, d :| x in queued && d in ds && SameQueued(x.row, d) {
        assert d in rest && x in queued + [first];
      } else {
        var i, j :| 0 <= i < j < |ds| && SameQueued(ds[i], ds[j]);
        assert ds[j] == rest[j - 1];
        if i == 0 {
          assert first in queued + [first] && rest[j - 1] in rest;
        } else {
          assert ds[i] == rest[i - 1];
        }
      }
    }
  }

  /** A new record takes the next position of its own stream, if its id is new and there is one left. */
  lemma RecordStored(db: Db, n: NewRecord)
    ensures var stream := if n.durability == Critical then db.critical else db.bestEffort;
            && (InsertRecord(db, n).Err?
                <==> || stream.highWater >= 9223372036854775807
                     || exists x :: x in db.records && x.row.recordId == n.recordId)
            && (InsertRecord(db, n).Ok? ==>
                  var after := InsertRecord(db, n).value;
                  && after == db.(records := db.records + [Record(n, stream.highWater + 1)],
                                  critical := after.critical, bestEffort := after.bestEffort)
                  && after.critical == (if n.durability == Critical then
                                          Stream(stream.highWater + 1, stream.expiredPrefix) else db.critical)
                  && after.bestEffort == (if n.durability == BestEffort then
                                            Stream(stream.highWater + 1, stream.expiredPrefix) else db.bestEffort))
  {
  }

  /** What was prepared is the write with fewer rows, for tables with fewer best-effort rows. */
  lemma PreparedFrame(db: Db, policy: Policy, w: Write)
    requires ValidPolicy(policy) && PrepareWrite(db, policy, w).Ok?
    ensures var p := PrepareWrite(db, policy, w).value;
            && p.write == w.(deliveries := p.write.deliveries, records := p.write.records)
            && p.db == db.(deliveries := p.db.deliveries, records := p.db.records, critical := p.db.critical,
                           bestEffort := p.db.bestEffort, stats := p.db.stats)
  {
  }

  /** `after` is `room` with these deliveries queued last, with no attempts and due at once. */
  ghost predicate Queued(room: Db, ds: seq<NewDelivery>, after: Db) {
    && |after.deliveries| == |room.deliveries| + |ds|
    && after.deliveries[..|room.deliveries|] == room.deliveries
    && (forall k | |room.deliveries| <= k < |after.deliveries| ::
          var d, i := after.deliveries[k], k - |room.deliveries|;
          d.row == ds[i] && d.attemptCount == 0 && d.nextAttempt == None && d.stamp == room.enqueued + i)
  }

  lemma InsertQueues(room: Db, ds: seq<NewDelivery>)
    requires InsertDeliveries(room, ds).Ok?
    ensures var after := InsertDeliveries(room, ds).value;
            Queued(room, ds, after) && after == room.(deliveries := after.deliveries, enqueued := after.enqueued)
  {
    EnqueuedRows(room, ds);
    var after := InsertDeliveries(room, ds).value;
    assert after.deliveries[..|room.deliveries|] == room.deliveries;
    forall k | |room.deliveries| <= k < |after.deliveries|
      ensures var d, i := after.deliveries[k], k - |room.deliveries|;
              d.row == ds[i] && d.attemptCount == 0 && d.nextAttempt == None && d.stamp == room.enqueued + i
    {
      var i := k - |room.deliveries|;
      assert after.deliveries[|room.deliveries| + i].row == ds[i];
    }
  }

  /** Once room was made: the events follow the journal, and the deliveries that were not dropped are queued. */
  lemma InsertsStore(room: Db, w: Write, a: Db, b: Db, after: Db)
    requires InsertEvents(room, w.events) == Ok(a) && InsertDeliveries(a, w.deliveries) == Ok(b)
    requires InsertRecords(b, w.records) == Ok(after)
    ensures Queued(room, w.deliveries, after)
    ensures after == room.(journal := room.journal + w.events, deliveries := after.deliveries,
                           enqueued := after.enqueued, records := after.records, critical := after.critical,
                           bestEffort := after.bestEffort)
  {
    EventsStored(room, w.events);
    InsertQueues(a, w.deliveries);
    RecordsLeaveDeliveries(b, w.records);
    QueuedBeside(room, a, w.deliveries, b, after);
  }

  lemma QueuedBeside(room: Db, a: Db, ds: seq<NewDelivery>, b: Db, after: Db)
    requires Queued(a, ds, b) && a.deliveries == room.deliveries && a.enqueued == room.enqueued
    requires after.deliveries == b.deliveries
    ensures Queued(room, ds, after)
  {
  }

  /**
   An admitted write: the events follow the journal, each delivery that was not dropped is queued last
   with no attempts and due at once, and attempts, archive and dispositions stay.
   */
  lemma WriteQueues(db: Db, policy: Policy, w: Write)
    requires ValidPolicy(policy) && WriteAtomic(db, policy, w).Ok?
    ensures var p, after := PrepareWrite(db, policy, w).value, WriteAtomic(db, policy, w).value;
            && after.journal == db.journal + w.events && Queued(p.db, p.write.deliveries, after)
            && after.attempts == db.attempts && after.archive == db.archive && after.dispositions == db.dispositions
            && after.stats == p.db.stats && p.db.enqueued == db.enqueued
  {
    var p := PrepareWrite(db, policy, w).value;
    PreparedFrame(db, policy, w);
    var a := InsertEvents(p.db, p.write.events).value;
    var b := InsertDeliveries(a, p.write.deliveries).value;
    InsertsStore(p.db, p.write, a, b, WriteAtomic(db, policy, w).value);
  }

  /** A write that is admitted is refused only because an event or a kept delivery is already there, or a record is. */
  lemma WriteRefusedExactly(db: Db, policy: Policy, w: Write)
    requires ValidPolicy(policy) && PrepareWrite(db, policy, w).Ok?
    ensures var p := PrepareWrite(db, policy, w).value;
            WriteAtomic(db, policy, w).Err?
            <==> || EventsClash(db.journal, w.events)
                 || DeliveriesClash(p.db.deliveries, p.write.deliveries)
                 || RecordsClash(p.db, p.write.records)
  {
    var p := PrepareWrite(db, policy, w).value;
    EventsStored(p.db, p.write.events);
    if InsertEvents(p.db, p.write.events).Ok? {
      var a := InsertEvents(p.db, p.write.events).value;
      DeliveriesStored(a, p.write.deliveries);
      if InsertDeliveries(a, p.write.deliveries).Ok? {
        var b := InsertDeliveries(a, p.write.deliveries).value;
        EnqueuedRows(a, p.write.deliveries);
        RecordsRefusedExactly(b, p.write.records);
      }
    }
  }

  /** How many positions of one stream the records take. */
  ghost function Claims(records: seq<NewRecord>, durability: Durability): (n: nat) {
    if records == [] then 0
    else (if records[0].durability == durability then 1 else 0) + Claims(records[1..], durability)
  }

  ghost predicate RecordIdsClash(stored: seq<Record>, records: seq<NewRecord>) {
    || (exists x, r | x in stored && r in records :: x.row.recordId == r.recordId)
    || (exists i, j | 0 <= i < j < |records| :: records[i].recordId == records[j].recordId)
  }

  /** A record id is already there, or a stream would run past its last position. */
  ghost predicate RecordsClash(db: Db, records: seq<NewRecord>) {
    || RecordIdsClash(db.records, records)
    || (Claims(records, Critical) > 0 && db.critical.highWater + Claims(records, Critical) > 9223372036854775807)
    || (Claims(records, BestEffort) > 0 && db.bestEffort.highWater + Claims(records, BestEffort) > 9223372036854775807)
  }

  lemma {:induction false} RecordsRefusedExactly(db: Db, records: seq<NewRecord>)
    ensures InsertRecords(db, records).Err? <==> RecordsClash(db, records)
    decreases |records|
  {
    if records != [] {
      if InsertRecord(db, records[0]).Ok? {
        var next := InsertRecord(db, records[0]).value;
        RecordsRefusedExactly(next, records[1..]);
        RecordsClashOnward(db, records, next);
      } else if StreamOf(db, records[0].durability).highWater < I64_MAX {
        var x :| x in db.records && x.row.recordId == records[0].recordId;
        assert records[0] in records;
      }
    }
  }

  lemma RecordIdsClashOnward(stored: seq<Record>, records: seq<NewRecord>, first: Record)
    requires records != [] && first.row == records[0]
    requires forall x | x in stored :: x.row.recordId != records[0].recordId
    ensures RecordIdsClash(stored, records) <==> RecordIdsClash(stored + [first], records[1..])
  {
    var rest := records[1..];
    if RecordIdsClash(stored + [first], rest) {
      if x, r :| x in stored + [first] && r in rest && x.row.recordId == r.recordId {
        var j :| 0 <= j < |rest| && rest[j] == r;
        assert records[j + 1] == r && r in records;
        assert x in stored || x == first;
      } else {
        var i, j :| 0 <= i < j < |rest| && rest[i].recordId == rest[j].recordId;
        assert records[i + 1].recordId == records[j + 1].recordId;
      }
    }
    if RecordIdsClash(stored, records) {
      if x, r :| x in stored && r in records && x.row.recordId == r.recordId {
        assert r in rest && x in stored + [first];
      } else {
        var i, j :| 0 <= i < j < |records| && records[i].recordId == records[j].recordId;
        assert records[j] == rest[j - 1];
        if i == 0 {
          assert first in stored + [first] && rest[j - 1] in rest;
        } else {
          assert records[i] == rest[i - 1];
        }
      }
    }
  }

  lemma RecordsClashOnward(db: Db, records: seq<NewRecord>, next: Db)
    requires records != [] && InsertRecord(db, records[0]) == Ok(next)
    ensures RecordsClash(db, records) <==> RecordsClash(next, records[1..])
  {
    var first := next.records[|db.records|];
    assert next.records == db.records + [first];
    RecordIdsClashOnward(db.records, records, first);
  }

  // Counters and charges -----------------------------------------------------------------------------

  /** Every row a write gives up is counted, as a delivery or as telemetry. */
  lemma TrimmingCounts(db: Db, w: Write, remaining: nat)
    ensures var p := Trimmed(db, w, remaining);
            && p.db == db.(stats := p.db.stats)
            && p.db.stats == db.stats.(droppedDeliveries := p.db.stats.droppedDeliveries,
                                       droppedTelemetry := p.db.stats.droppedTelemetry)
            && p.db.stats.droppedDeliveries + |p.write.deliveries| == db.stats.droppedDeliveries + |w.deliveries|
            && p.db.stats.droppedTelemetry + |p.write.records| == db.stats.droppedTelemetry + |w.records|
  {
    Capacity.FittingDeliveriesBytes(w.deliveries, remaining);
    Capacity.FittingRecordsBytes(w.records, FittingDeliveries(w.deliveries, remaining).remaining);
  }

  /** What an attempt is charged with. */
  ghost function ChargedAttempt(a: Attempt): (n: nat) {
    24 + |a.deliveryId| + |a.outcome| + |a.reportedAt|
    + (match a.resolution case RetryAt(_, text) => |text| case Final => 0)
  }

  lemma AttemptCharged(attempts: seq<Attempt>, a: Attempt)
    ensures Sum(attempts + [a], SqlAttempt) == Sum(attempts, SqlAttempt) + ChargedAttempt(a)
  {
    SumAppend(attempts, [a], SqlAttempt);
    assert Sum([a], SqlAttempt) == SqlAttempt(a) + Sum([], SqlAttempt);
  }

  /** A report adds its row to measured usage, and a final one also gives back what its delivery was charged with. */
  lemma ReportCharges(db: Db, a: Attempt)
    requires RecordAttempt(db, a).Ok?
    ensures var after := RecordAttempt(db, a).value;
            if a.resolution == Final then
              UsedBytes(after) + Sum(Filter(db.deliveries, HasDeliveryId(a.deliveryId)), SqlDelivery)
              == UsedBytes(db) + ChargedAttempt(a)
            else UsedBytes(after) == UsedBytes(db) + ChargedAttempt(a)
  {
    AttemptCharged(db.attempts, a);
    if a.resolution == Final {
      SumSplit(db.deliveries, HasDeliveryId(a.deliveryId), SqlDelivery);
    } else {
      RetriedCharge(db.deliveries, a.deliveryId, a.resolution.at);
    }
  }

  lemma {:induction false} RetriedCharge(deliveries: seq<Delivery>, id: Text, at: Time)
    ensures Sum(RetriedAll(deliveries, id, at), SqlDelivery) == Sum(deliveries, SqlDelivery)
  {
    if deliveries != [] {
      RetriedCharge(deliveries[1..], id, at);
      var all := RetriedAll(deliveries, id, at);
      assert all[1..] == RetriedAll(deliveries[1..], id, at);
    }
  }

  /** An archived delivery is charged with what it was charged with before, its audit id and its time. */
  lemma ArchivedCharge(d: Delivery, auditId: Text, at: Text)
    ensures SqlArchived(Archived(auditId, d, at)) == ChargedDelivery(d.row) + |auditId| + |at|
  {
  }

  // Steps of a run -----------------------------------------------------------------------------------

  ghost function Tried(db: Db, r: Result<Db>): (after: Db) {
    if r.Ok? then r.value else db
  }

  /** The steps of a run are the transactions described here; a refused one changes nothing. */
  lemma PassStepsAreTransactions(db: Db, policy: Policy, now: Time, selected: Option<Destination>, at: Text)
    requires ValidPolicy(policy)
    ensures Step(db, policy, Maintaining(now)) == Maintain(db, now)
    ensures Step(db, policy, Settling(selected, at)) == Settle(db, selected, at)
  {
  }

  lemma WriteStepIsTransaction(db: Db, policy: Policy, w: Write)
    requires ValidPolicy(policy)
    ensures Step(db, policy, Writing(w)) == Tried(db, WriteAtomic(db, policy, w))
  {
  }

  lemma ReportStepIsTransaction(db: Db, policy: Policy, a: Attempt)
    requires ValidPolicy(policy)
    ensures Step(db, policy, Attempting(a)) == Tried(db, RecordAttempt(db, a))
  {
  }

  lemma GrantStepIsTransaction(db: Db, policy: Policy, d: Disposition)
    requires ValidPolicy(policy)
    ensures Step(db, policy, Authorizing(d.destination, d.action, d.principal, d.auditId))
            == Tried(db, Authorize(db, d.destination, d.action, d.principal, d.auditId))
  {
  }
}
