/**
 The outbox over whole runs: how a delivery can leave it, that its event outlives it, that every lane
 (destination and ordering key) is served in enqueue order, and what the attempt counter counts.
 */
module OutboxDelivery {
  import opened Common
  import opened Sequences
  import opened Outbox
  import opened OutboxDispositions

  function StampOf(d: Delivery): (n: nat) { d.stamp }

  ghost predicate DistinctIds(deliveries: seq<Delivery>) {
    forall a, b | a in deliveries && b in deliveries && a.row.deliveryId == b.row.deliveryId :: a == b
  }

  /** Rows stand in enqueue order under fresh stamps, and no two live rows share a delivery id. */
  ghost predicate Numbered(db: Db) {
    && Ascending(db.deliveries, StampOf)
    && (forall d | d in db.deliveries :: d.stamp < db.enqueued)
    && DistinctIds(db.deliveries)
  }

  ghost predicate Sound(db: Db) {
    Numbered(db) && Orderly(db)
  }

  /** The same enqueued delivery, whatever attempts were made since. */
  predicate Continues(was: Delivery, now: Delivery) {
    now.stamp == was.stamp && now.row == was.row && now.inherited == was.inherited
  }

  predicate Live(db: Db, d: Delivery) {
    exists x | x in db.deliveries :: Continues(d, x)
  }

  // One step -----------------------------------------------------------------------------------------

  lemma {:induction false} EnqueuedRows(db: Db, ds: seq<NewDelivery>)
    requires InsertDeliveries(db, ds).Ok?
    ensures var after := InsertDeliveries(db, ds).value;
            && after == db.(deliveries := after.deliveries, enqueued := after.enqueued)
            && after.enqueued == db.enqueued + |ds|
            && |after.deliveries| == |db.deliveries| + |ds|
            && (forall i | 0 <= i < |db.deliveries| :: after.deliveries[i] == db.deliveries[i])
            && (forall i | 0 <= i < |ds| ::
                  after.deliveries[|db.deliveries| + i]
                  == Delivery(ds[i], 0, None, db.enqueued + i, |Filter(db.attempts, AttemptOf(ds[i].deliveryId))|))
    decreases |ds|
  {
    if ds != [] {
      var next := InsertDelivery(db, ds[0]).value;
      EnqueuedRows(next, ds[1..]);
      var after := InsertDeliveries(db, ds).value;
      forall i | 0 <= i < |ds|
        ensures after.deliveries[|db.deliveries| + i]
                == Delivery(ds[i], 0, None, db.enqueued + i, |Filter(db.attempts, AttemptOf(ds[i].deliveryId))|)
      {
        if i == 0 {
          assert after.deliveries[|db.deliveries|] == next.deliveries[|db.deliveries|];
        } else {
          assert after.deliveries[|next.deliveries| + (i - 1)].row == ds[1..][i - 1];
        }
      }
    }
  }

  lemma {:induction false} EnqueueKeepsIdsDistinct(db: Db, ds: seq<NewDelivery>)
    requires InsertDeliveries(db, ds).Ok?
    requires DistinctIds(db.deliveries)
    ensures DistinctIds(InsertDeliveries(db, ds).value.deliveries)
    decreases |ds|
  {
    if ds != [] {
      EnqueueKeepsIdsDistinct(InsertDelivery(db, ds[0]).value, ds[1..]);
    }
  }

  lemma {:induction false} EventsLeaveDeliveries(db: Db, events: seq<Event>)
    requires InsertEvents(db, events).Ok?
    ensures var after := InsertEvents(db, events).value;
            && after == db.(journal := after.journal)
            && (forall e | e in db.journal :: e in after.journal)
    decreases |events|
  {
    if events != [] {
      EventsLeaveDeliveries(InsertEvent(db, events[0]).value, events[1..]);
    }
  }

  lemma {:induction false} RecordsLeaveDeliveries(db: Db, records: seq<NewRecord>)
    requires InsertRecords(db, records).Ok?
    ensures var after := InsertRecords(db, records).value;
            after == db.(records := after.records, critical := after.critical, bestEffort := after.bestEffort)
    decreases |records|
  {
    if records != [] {
      RecordsLeaveDeliveries(InsertRecord(db, records[0]).value, records[1..]);
    }
  }

  /** What a write does to the outbox: best-effort rows may be shed, new rows follow with fresh stamps. */
  ghost predicate Appends(db: Db, after: Db, shed: seq<Delivery>) {
    && (shed == db.deliveries || shed == Filter(db.deliveries, CriticalDelivery()))
    && after.attempts == db.attempts
    && after.enqueued >= db.enqueued
    && |after.deliveries| == |shed| + (after.enqueued - db.enqueued)
    && (forall i | 0 <= i < |shed| :: after.deliveries[i] == shed[i])
    && (forall i | |shed| <= i < |after.deliveries| ::
          && after.deliveries[i].stamp == db.enqueued + (i - |shed|)
          && after.deliveries[i].attemptCount == 0
          && after.deliveries[i].inherited == |Filter(db.attempts, AttemptOf(after.deliveries[i].row.deliveryId))|)
    && (forall e | e in db.journal :: e in after.journal)
  }

  lemma RowsFollow(db: Db, ds: seq<NewDelivery>)
    requires InsertDeliveries(db, ds).Ok?
    ensures var after := InsertDeliveries(db, ds).value;
            && |after.deliveries| == |db.deliveries| + (after.enqueued - db.enqueued)
            && (forall i | |db.deliveries| <= i < |after.deliveries| ::
                  && after.deliveries[i].stamp == db.enqueued + (i - |db.deliveries|)
                  && after.deliveries[i].attemptCount == 0
                  && after.deliveries[i].inherited
                     == |Filter(db.attempts, AttemptOf(after.deliveries[i].row.deliveryId))|)
  {
    EnqueuedRows(db, ds);
    var after := InsertDeliveries(db, ds).value;
    forall i | |db.deliveries| <= i < |after.deliveries|
      ensures after.deliveries[i].stamp == db.enqueued + (i - |db.deliveries|)
              && after.deliveries[i].attemptCount == 0
              && after.deliveries[i].inherited == |Filter(db.attempts, AttemptOf(after.deliveries[i].row.deliveryId))|
    {
      var k := i - |db.deliveries|;
      assert after.deliveries[|db.deliveries| + k].row == ds[k];
    }
  }

  lemma WriteAppends(db: Db, policy: Policy, w: Write) returns (shed: seq<Delivery>)
    requires ValidPolicy(policy) && WriteAtomic(db, policy, w).Ok?
    ensures Appends(db, WriteAtomic(db, policy, w).value, shed)
  {
    var p := PrepareWrite(db, policy, w).value;
    shed := p.db.deliveries;
    EventsLeaveDeliveries(p.db, p.write.events);
    var a := InsertEvents(p.db, p.write.events).value;
    EnqueuedRows(a, p.write.deliveries);
    RowsFollow(a, p.write.deliveries);
    RecordsLeaveDeliveries(InsertDeliveries(a, p.write.deliveries).value, p.write.records);
  }

  lemma WriteKeepsIdsDistinct(db: Db, policy: Policy, w: Write)
    requires ValidPolicy(policy) && WriteAtomic(db, policy, w).Ok? && Numbered(db)
    ensures DistinctIds(WriteAtomic(db, policy, w).value.deliveries)
  {
    var p := PrepareWrite(db, policy, w).value;
    EventsLeaveDeliveries(p.db, p.write.events);
    var a := InsertEvents(p.db, p.write.events).value;
    EnqueueKeepsIdsDistinct(a, p.write.deliveries);
    RecordsLeaveDeliveries(InsertDeliveries(a, p.write.deliveries).value, p.write.records);
  }

  lemma WriteKeepsNumbered(db: Db, policy: Policy, w: Write)
    requires ValidPolicy(policy) && WriteAtomic(db, policy, w).Ok? && Numbered(db)
    ensures Numbered(WriteAtomic(db, policy, w).value)
  {
    var shed := WriteAppends(db, policy, w);
    WriteKeepsIdsDistinct(db, policy, w);
    FilterAscending(db.deliveries, CriticalDelivery(), StampOf);
    var after := WriteAtomic(db, policy, w).value;
    assert forall i | 0 <= i < |shed| :: shed[i] in db.deliveries;
    forall i, j | 0 <= i < j < |after.deliveries| ensures StampOf(after.deliveries[i]) < StampOf(after.deliveries[j]) {
      if j < |shed| {
        assert StampOf(shed[i]) < StampOf(shed[j]);
      }
    }
  }

  lemma RetriedOrigin(deliveries: seq<Delivery>, id: Text, at: Time, x: Delivery) returns (o: Delivery)
    requires x in RetriedAll(deliveries, id, at)
    ensures o in deliveries && x == Retried(o, id, at)
  {
    var i :| 0 <= i < |deliveries| && RetriedAll(deliveries, id, at)[i] == x;
    o := deliveries[i];
  }

  lemma AscendingBySameKeys(a: seq<Delivery>, b: seq<Delivery>)
    requires |a| == |b| && (forall i | 0 <= i < |a| :: a[i].stamp == b[i].stamp) && Ascending(a, StampOf)
    ensures Ascending(b, StampOf)
  {
    forall i, j | 0 <= i < j < |b| ensures StampOf(b[i]) < StampOf(b[j]) {
      assert StampOf(a[i]) < StampOf(a[j]);
    }
  }

  lemma RetryKeepsOrder(deliveries: seq<Delivery>, id: Text, at: Time)
    requires Ascending(deliveries, StampOf)
    ensures Ascending(RetriedAll(deliveries, id, at), StampOf)
  {
    AscendingBySameKeys(deliveries, RetriedAll(deliveries, id, at));
  }

  lemma SameOrigin(a: Delivery, b: Delivery, id: Text, at: Time)
    requires a.row.deliveryId == b.row.deliveryId ==> a == b
    ensures Retried(a, id, at).row.deliveryId == Retried(b, id, at).row.deliveryId ==>
            Retried(a, id, at) == Retried(b, id, at)
  {
  }

  lemma RetryKeepsIdsDistinct(deliveries: seq<Delivery>, id: Text, at: Time)
    requires DistinctIds(deliveries)
    ensures DistinctIds(RetriedAll(deliveries, id, at))
  {
    var after := RetriedAll(deliveries, id, at);
    forall x, y | x in after && y in after && x.row.deliveryId == y.row.deliveryId ensures x == y {
      var i :| 0 <= i < |after| && after[i] == x;
      var j :| 0 <= j < |after| && after[j] == y;
      assert deliveries[i] in deliveries && deliveries[j] in deliveries;
      SameOrigin(deliveries[i], deliveries[j], id, at);
    }
  }

  lemma RetryKeepsNumbered(db: Db, a: Attempt)
    requires Numbered(db) && RecordAttempt(db, a).Ok? && a.resolution.RetryAt?
    ensures Numbered(RecordAttempt(db, a).value)
  {
    RetryKeepsOrder(db.deliveries, a.deliveryId, a.resolution.at);
    RetryKeepsIdsDistinct(db.deliveries, a.deliveryId, a.resolution.at);
    forall x | x in RetriedAll(db.deliveries, a.deliveryId, a.resolution.at) ensures x.stamp < db.enqueued {
      var o := RetriedOrigin(db.deliveries, a.deliveryId, a.resolution.at, x);
    }
  }

  lemma AttemptKeepsNumbered(db: Db, a: Attempt)
    requires Numbered(db) && RecordAttempt(db, a).Ok?
    ensures Numbered(RecordAttempt(db, a).value)
  {
    if a.resolution.RetryAt? {
      RetryKeepsNumbered(db, a);
    } else {
      FilterAscending(db.deliveries, Not(HasDeliveryId(a.deliveryId)), StampOf);
    }
  }

  lemma SettleKeepsNumbered(db: Db, selected: Option<Destination>, at: Text)
    requires Numbered(db) && Orderly(db)
    ensures Numbered(Settle(db, selected, at))
  {
    SettlingIsExact(db, selected, at);
    FilterAscending(db.deliveries, Not(Doomed(Filter(db.dispositions, IsAuthorized), selected)), StampOf);
  }

  lemma StepKeepsNumbered(db: Db, policy: Policy, op: Op)
    requires ValidPolicy(policy) && Sound(db)
    ensures Numbered(Step(db, policy, op))
  {
    match op
    case Writing(w) =>
      if WriteAtomic(db, policy, w).Ok? {
        WriteKeepsNumbered(db, policy, w);
      }
    case Maintaining(_) =>
    case Attempting(a) =>
      if RecordAttempt(db, a).Ok? {
        AttemptKeepsNumbered(db, a);
      }
    case Authorizing(_, _, _, _) =>
    case Settling(selected, at) => SettleKeepsNumbered(db, selected, at);
  }

  lemma StepKeepsSound(db: Db, policy: Policy, op: Op)
    requires ValidPolicy(policy) && Sound(db)
    ensures Sound(Step(db, policy, op))
  {
    StepKeepsOrder(db, policy, op);
    StepKeepsNumbered(db, policy, op);
  }

  lemma {:induction false} RunKeepsSound(db: Db, policy: Policy, ops: seq<Op>)
    requires ValidPolicy(policy) && Sound(db)
    ensures Sound(Run(db, policy, ops))
    decreases |ops|
  {
    if ops != [] {
      StepKeepsSound(db, policy, ops[0]);
      RunKeepsSound(Step(db, policy, ops[0]), policy, ops[1..]);
    }
  }

  /** Every live row after a step was live before it, or carries a stamp issued by that step. */
  ghost predicate Descends(db: Db, after: Db) {
    && db.enqueued <= after.enqueued
    && (forall x | x in after.deliveries && x.stamp < db.enqueued :: Live(db, x))
  }

  lemma WriteDescends(db: Db, policy: Policy, w: Write)
    requires ValidPolicy(policy) && WriteAtomic(db, policy, w).Ok?
    ensures Descends(db, WriteAtomic(db, policy, w).value)
  {
    var shed := WriteAppends(db, policy, w);
    var after := WriteAtomic(db, policy, w).value;
    forall x | x in after.deliveries && x.stamp < db.enqueued ensures Live(db, x) {
      var i :| 0 <= i < |after.deliveries| && after.deliveries[i] == x;
      assert i < |shed| && shed[i] == x;
      assert x in db.deliveries && Continues(x, x);
    }
  }

  lemma StepDescends(db: Db, policy: Policy, op: Op)
    requires ValidPolicy(policy) && Sound(db)
    ensures Descends(db, Step(db, policy, op))
  {
    assert forall x | x in db.deliveries :: Continues(x, x);
    match op
    case Writing(w) =>
      if WriteAtomic(db, policy, w).Ok? {
        WriteDescends(db, policy, w);
      }
    case Maintaining(_) =>
    case Attempting(a) => AttemptDescends(db, a);
    case Authorizing(_, _, _, _) =>
    case Settling(selected, at) => SettlingFrame(db, selected, at);
  }

  lemma AttemptDescends(db: Db, a: Attempt)
    ensures var next := RecordAttempt(db, a);
            Descends(db, if next.Ok? then next.value else db)
  {
    assert forall x | x in db.deliveries :: Continues(x, x);
    var next := RecordAttempt(db, a);
    if next.Ok? && a.resolution.RetryAt? {
      var after := next.value.deliveries;
      forall x | x in after ensures Live(db, x) {
        var i :| 0 <= i < |after| && after[i] == x;
        assert db.deliveries[i] in db.deliveries && Continues(x, db.deliveries[i]);
      }
    }
  }

  // Leaving the outbox -------------------------------------------------------------------------------

  /** A final attempt for this very delivery, recorded by this step. */
  ghost predicate FinallyAttempted(db: Db, policy: Policy, op: Op, d: Delivery)
    requires ValidPolicy(policy)
  {
    && op.Attempting? && op.attempt.resolution.Final? && op.attempt.deliveryId == d.row.deliveryId
    && Step(db, policy, op).attempts == db.attempts + [op.attempt]
  }

  /** A disposition of exactly this destination, authorised before the step and executed by it. */
  ghost predicate DisposedOf(db: Db, policy: Policy, op: Op, d: Delivery)
    requires ValidPolicy(policy)
  {
    op.Settling? && op.selected != Some(d.row.destination)
    && exists i | 0 <= i < |db.dispositions| && i < |Step(db, policy, op).dispositions| ::
         && IsAuthorized(db.dispositions[i]) && db.dispositions[i].destination == d.row.destination
         && Step(db, policy, op).dispositions[i].state.Executed?
         && (db.dispositions[i].action.Archive? ==>
               Archived(db.dispositions[i].auditId, d, op.at) in Step(db, policy, op).archive)
  }

  ghost predicate RemovedBy(db: Db, policy: Policy, op: Op, d: Delivery)
    requires ValidPolicy(policy)
  {
    d in db.deliveries && (FinallyAttempted(db, policy, op, d) || DisposedOf(db, policy, op, d))
  }

  lemma {:induction false} ArchivedHolds(deliveries: seq<Delivery>, pending: seq<Disposition>,
      selected: Option<Destination>,
                                         at: Text, p: Disposition, d: Delivery)
    requires p in pending && p.action.Archive? && selected != Some(p.destination)
    requires d in deliveries && d.row.destination == p.destination
    ensures Archived(p.auditId, d, at) in ArchivedBy(deliveries, pending, selected, at)
  {
    if pending[0] == p {
      var rows := Filter(deliveries, SentTo(p.destination));
      assert d in rows;
      var k :| 0 <= k < |rows| && rows[k] == d;
      assert ArchivedRows(rows, p.auditId, at)[k] == Archived(p.auditId, d, at);
    } else {
      ArchivedHolds(deliveries, pending[1..], selected, at, p, d);
    }
  }

  lemma DoomedIsDisposed(db: Db, selected: Option<Destination>, at: Text, d: Delivery) returns (i: nat)
    requires Orderly(db) && d in db.deliveries && d !in Settle(db, selected, at).deliveries
    ensures selected != Some(d.row.destination)
    ensures i < |db.dispositions| == |Settle(db, selected, at).dispositions|
    ensures IsAuthorized(db.dispositions[i]) && db.dispositions[i].destination == d.row.destination
    ensures Settle(db, selected, at).dispositions[i].state.Executed?
    ensures db.dispositions[i].action.Archive? ==>
            Archived(db.dispositions[i].auditId, d, at) in Settle(db, selected, at).archive
  {
    SettlingIsExact(db, selected, at);
    var pending := Filter(db.dispositions, IsAuthorized);
    assert Doomed(pending, selected)(d);
    var p :| p in pending && p.destination == d.row.destination;
    i :| 0 <= i < |db.dispositions| && db.dispositions[i] == p;
    if p.action.Archive? {
      ArchivedHolds(db.deliveries, pending, selected, at, p, d);
    }
  }

  lemma SettleDisposes(db: Db, policy: Policy, op: Op, d: Delivery)
    requires ValidPolicy(policy) && Orderly(db) && op.Settling? && d in db.deliveries
    ensures Live(Step(db, policy, op), d) || DisposedOf(db, policy, op, d)
  {
    if d in Settle(db, op.selected, op.at).deliveries {
      assert Continues(d, d);
    } else {
      var i := DoomedIsDisposed(db, op.selected, op.at, d);
      assert IsAuthorized(db.dispositions[i]);
    }
  }

  lemma WriteKeepsCritical(db: Db, policy: Policy, w: Write, d: Delivery)
    requires ValidPolicy(policy) && WriteAtomic(db, policy, w).Ok? && d in db.deliveries && d.row.durability.Critical?
    ensures d in WriteAtomic(db, policy, w).value.deliveries
  {
    var shed := WriteAppends(db, policy, w);
    assert d in shed;
    var i :| 0 <= i < |shed| && shed[i] == d;
    assert WriteAtomic(db, policy, w).value.deliveries[i] == d;
  }

  lemma RetryKeepsLive(db: Db, a: Attempt, d: Delivery)
    requires RecordAttempt(db, a).Ok? && a.resolution.RetryAt? && d in db.deliveries
    ensures Live(RecordAttempt(db, a).value, d)
  {
    var i :| 0 <= i < |db.deliveries| && db.deliveries[i] == d;
    var after := RecordAttempt(db, a).value;
    assert after.deliveries[i] in after.deliveries && Continues(d, after.deliveries[i]);
  }

  /** A critical delivery stays through any step that neither finishes nor disposes of it. */
  lemma CriticalLeavesOnlyWhenRemoved(db: Db, policy: Policy, op: Op, d: Delivery)
    requires ValidPolicy(policy) && Sound(db) && d in db.deliveries && d.row.durability.Critical?
    ensures Live(Step(db, policy, op), d) || RemovedBy(db, policy, op, d)
  {
    assert Continues(d, d);
    match op
    case Writing(w) =>
      if WriteAtomic(db, policy, w).Ok? {
        WriteKeepsCritical(db, policy, w, d);
      }
    case Maintaining(_) =>
    case Attempting(a) =>
      if RecordAttempt(db, a).Ok? && a.resolution.RetryAt? {
        RetryKeepsLive(db, a, d);
      }
    case Authorizing(_, _, _, _) =>
    case Settling(_, _) =>
      SettleDisposes(db, policy, op, d);
  }

  /** Some step of the run finished or disposed of the delivery. */
  ghost predicate RemovedDuring(db: Db, policy: Policy, ops: seq<Op>, d: Delivery)
    requires ValidPolicy(policy)
  {
    exists i, x | 0 <= i < |ops| && Continues(d, x) :: RemovedBy(Run(db, policy, ops[..i]), policy, ops[i], x)
  }

  lemma RemovedNow(db: Db, policy: Policy, ops: seq<Op>, d: Delivery)
    requires ValidPolicy(policy) && ops != [] && RemovedBy(db, policy, ops[0], d)
    ensures RemovedDuring(db, policy, ops, d)
  {
    assert Continues(d, d) && Run(db, policy, ops[..0]) == db;
    assert RemovedBy(Run(db, policy, ops[..0]), policy, ops[0], d);
  }

  lemma RemovedLater(db: Db, policy: Policy, ops: seq<Op>, d: Delivery, now: Delivery)
    requires ValidPolicy(policy) && ops != [] && Continues(d, now)
    requires RemovedDuring(Step(db, policy, ops[0]), policy, ops[1..], now)
    ensures RemovedDuring(db, policy, ops, d)
  {
    var next, rest := Step(db, policy, ops[0]), ops[1..];
    var i, x :| 0 <= i < |rest| && Continues(now, x) && RemovedBy(Run(next, policy, rest[..i]), policy, rest[i], x);
    assert ops[..i + 1][1..] == rest[..i];
    assert Continues(d, x) && RemovedBy(Run(db, policy, ops[..i + 1]), policy, ops[i + 1], x);
  }

  /** Over any run: still in the outbox, or some step finished or disposed of it. */
  lemma {:induction false} CriticalAccountedFor(db: Db, policy: Policy, ops: seq<Op>, d: Delivery)
    requires ValidPolicy(policy) && Sound(db) && d in db.deliveries && d.row.durability.Critical?
    ensures Live(Run(db, policy, ops), d) || RemovedDuring(db, policy, ops, d)
    decreases |ops|
  {
    if ops == [] {
      assert Continues(d, d);
    } else {
      var next := Step(db, policy, ops[0]);
      CriticalLeavesOnlyWhenRemoved(db, policy, ops[0], d);
      StepKeepsSound(db, policy, ops[0]);
      if Live(next, d) {
        var now :| now in next.deliveries && Continues(d, now);
        CriticalAccountedFor(next, policy, ops[1..], now);
        if RemovedDuring(next, policy, ops[1..], now) {
          RemovedLater(db, policy, ops, d, now);
        } else {
          var last :| last in Run(next, policy, ops[1..]).deliveries && Continues(now, last);
          assert Continues(d, last);
        }
      } else {
        RemovedNow(db, policy, ops, d);
      }
    }
  }

  lemma WasLive(db: Db, next: Db, d: Delivery)
    requires Descends(db, next) && Live(next, d) && d.stamp < db.enqueued
    ensures Live(db, d)
  {
    var x :| x in next.deliveries && Continues(d, x);
    var o :| o in db.deliveries && Continues(x, o);
    assert Continues(d, o);
  }

  /** A delivery that left never comes back: its stamp is not issued again. */
  lemma {:induction false} GoneStaysGone(db: Db, policy: Policy, ops: seq<Op>, d: Delivery)
    requires ValidPolicy(policy) && Sound(db) && d.stamp < db.enqueued && !Live(db, d)
    ensures !Live(Run(db, policy, ops), d)
    decreases |ops|
  {
    if ops != [] {
      StepDescends(db, policy, ops[0]);
      StepKeepsSound(db, policy, ops[0]);
      var next := Step(db, policy, ops[0]);
      if Live(next, d) {
        WasLive(db, next, d);
        assert false;
      }
      GoneStaysGone(next, policy, ops[1..], d);
    }
  }

  lemma StepKeepsPendingEvent(db: Db, policy: Policy, op: Op, e: Event)
    requires ValidPolicy(policy) && e in db.journal && PendingEvent(db, e.eventId)
    ensures e in Step(db, policy, op).journal
  {
    match op
    case Writing(w) =>
      if WriteAtomic(db, policy, w).Ok? {
        var shed := WriteAppends(db, policy, w);
      }
    case Maintaining(_) =>
    case Attempting(_) =>
    case Authorizing(_, _, _, _) =>
    case Settling(selected, at) =>
      SettlingFrame(db, selected, at);
  }

  /** The journal event of a delivery is there for as long as the delivery is. */
  lemma {:induction false} EventOutlivesDelivery(db: Db, policy: Policy, ops: seq<Op>, e: Event, d: Delivery)
    requires ValidPolicy(policy) && Sound(db)
    requires e in db.journal && d in db.deliveries && d.row.eventId == e.eventId
    requires Live(Run(db, policy, ops), d)
    ensures e in Run(db, policy, ops).journal
    decreases |ops|
  {
    if ops != [] {
      var next := Step(db, policy, ops[0]);
      StepKeepsPendingEvent(db, policy, ops[0], e);
      StepKeepsSound(db, policy, ops[0]);
      StepDescends(db, policy, ops[0]);
      if !Live(next, d) {
        GoneStaysGone(next, policy, ops[1..], d);
        assert false;
      } else {
        var now :| now in next.deliveries && Continues(d, now);
        var last :| last in Run(db, policy, ops).deliveries && Continues(d, last);
        assert Continues(now, last);
        EventOutlivesDelivery(next, policy, ops[1..], e, now);
      }
    }
  }

  // Order within a lane ------------------------------------------------------------------------------

  /** Offers stand in row order and are exactly the due heads, up to the limit. */
  lemma OffersDueHeads(db: Db, destination: Destination, readyAt: Time, limit: nat)
    requires Numbered(db)
    ensures var offered := ReadPending(db, destination, readyAt, limit);
            && |offered| <= limit
            && Ascending(offered, StampOf)
            && (forall d | d in offered :: d.row.destination == destination && Due(d, readyAt) && Head(db, d))
            && (|offered| < limit ==>
                  forall d | d in db.deliveries && d.row.destination == destination && Due(d, readyAt)
                      && Head(db, d) :: d in offered)
  {
    var all := Filter(db.deliveries, Offerable(db, destination, readyAt));
    FilterAscending(db.deliveries, Offerable(db, destination, readyAt), StampOf);
    TakeAscending(all, limit);
    assert forall d | d in Take(all, limit) :: d in all;
  }

  lemma TakeAscending(all: seq<Delivery>, limit: nat)
    requires Ascending(all, StampOf)
    ensures Ascending(Take(all, limit), StampOf)
  {
    var top := Take(all, limit);
    forall i, j | 0 <= i < j < |top| ensures StampOf(top[i]) < StampOf(top[j]) {
      assert top[i] == all[i] && top[j] == all[j];
    }
  }

  lemma OneHeadPerLane(db: Db, a: Delivery, b: Delivery)
    requires Numbered(db) && Head(db, a) && Head(db, b) && SameLane(a, b)
    ensures a == b
  {
    SameStamp(db, a, b);
  }

  /** Only due heads are offered, in row order and at most one per lane; with room to spare, every due head is. */
  lemma OffersExactlyDueHeads(db: Db, destination: Destination, readyAt: Time, limit: nat)
    requires Numbered(db)
    ensures var offered := ReadPending(db, destination, readyAt, limit);
            && |offered| <= limit
            && Ascending(offered, StampOf)
            && (forall d | d in offered :: d.row.destination == destination && Due(d, readyAt) && Head(db, d))
            && (forall a, b | a in offered && b in offered && SameLane(a, b) :: a == b)
            && (|offered| < limit ==>
                  forall d | d in db.deliveries && d.row.destination == destination && Due(d, readyAt)
                      && Head(db, d) :: d in offered)
  {
    OffersDueHeads(db, destination, readyAt, limit);
    var offered := ReadPending(db, destination, readyAt, limit);
    forall a, b | a in offered && b in offered && SameLane(a, b) ensures a == b {
      OneHeadPerLane(db, a, b);
    }
  }

  lemma HeadStaysIn(db: Db, next: Db, d: Delivery, now: Delivery)
    requires Descends(db, next) && Head(db, d) && d.stamp < db.enqueued
    requires now in next.deliveries && Continues(d, now)
    ensures Head(next, now)
  {
    forall x | x in next.deliveries && SameLane(x, now) ensures now.stamp <= x.stamp {
      if x.stamp < db.enqueued {
        var o :| o in db.deliveries && Continues(x, o);
        assert SameLane(o, d);
      }
    }
  }

  lemma HeadStays(db: Db, policy: Policy, op: Op, d: Delivery, now: Delivery)
    requires ValidPolicy(policy) && Sound(db) && Head(db, d)
    requires now in Step(db, policy, op).deliveries && Continues(d, now)
    ensures Head(Step(db, policy, op), now)
  {
    StepDescends(db, policy, op);
    HeadStaysIn(db, Step(db, policy, op), d, now);
  }

  /** A delivery once at the head of its lane stays there until it is removed. */
  lemma {:induction false} HeadStaysUntilRemoved(db: Db, policy: Policy, ops: seq<Op>, d: Delivery, now: Delivery)
    requires ValidPolicy(policy) && Sound(db) && Head(db, d)
    requires now in Run(db, policy, ops).deliveries && Continues(d, now)
    ensures Head(Run(db, policy, ops), now)
    decreases |ops|
  {
    if ops == [] {
      assert d.stamp == now.stamp;
    } else {
      var next := Step(db, policy, ops[0]);
      StepKeepsSound(db, policy, ops[0]);
      StepDescends(db, policy, ops[0]);
      if !Live(next, d) {
        GoneStaysGone(next, policy, ops[1..], d);
        assert false;
      } else {
        var moved :| moved in next.deliveries && Continues(d, moved);
        HeadStays(db, policy, ops[0], d, moved);
        HeadStaysUntilRemoved(next, policy, ops[1..], moved, now);
      }
    }
  }

  predicate InLane(d: Delivery, destination: Destination, orderingKey: Text) {
    d.row.destination == destination && d.row.orderingKey == orderingKey
  }

  /** The row a report is for. */
  function Reported(db: Db, id: Text): (r: Option<Delivery>)
    ensures r.Some? <==> PendingId(db, id)
    ensures r.Some? ==> r.value in db.deliveries && r.value.row.deliveryId == id
  {
    var rows := Filter(db.deliveries, HasDeliveryId(id));
    if rows == [] then
      assert forall d | d in db.deliveries && HasDeliveryId(id)(d) :: d in rows;
      None
    else
      assert rows[0] in rows;
      Some(rows[0])
  }

  /** Whether this step records a final outcome for a head of the lane, as it does for a delivery that was offered. */
  predicate FinishesHead(db: Db, op: Op, destination: Destination, orderingKey: Text) {
    op.Attempting? && op.attempt.resolution.Final? && Reported(db, op.attempt.deliveryId).Some?
    && var d := Reported(db, op.attempt.deliveryId).value; Head(db, d) && InLane(d, destination, orderingKey)
  }

  /** Enqueue stamps in the order in which the lane's offered deliveries were finished. */
  function Finished(db: Db, policy: Policy, ops: seq<Op>, destination: Destination, orderingKey: Text): (r: seq<nat>)
    requires ValidPolicy(policy)
    decreases |ops|
  {
    if ops == [] then []
    else
      (if FinishesHead(db, ops[0], destination, orderingKey) then
         [Reported(db, ops[0].attempt.deliveryId).value.stamp]
       else [])
      + Finished(Step(db, policy, ops[0]), policy, ops[1..], destination, orderingKey)
  }

  ghost predicate LaneFrom(db: Db, destination: Destination, orderingKey: Text, floor: nat) {
    floor <= db.enqueued && forall d | d in db.deliveries && InLane(d, destination, orderingKey) :: floor <= d.stamp
  }

  lemma FloorStays(db: Db, next: Db, destination: Destination, orderingKey: Text, floor: nat)
    requires Descends(db, next) && LaneFrom(db, destination, orderingKey, floor)
    ensures LaneFrom(next, destination, orderingKey, floor)
  {
    forall x | x in next.deliveries && InLane(x, destination, orderingKey) ensures floor <= x.stamp {
      if x.stamp < db.enqueued {
        var o :| o in db.deliveries && Continues(x, o);
      }
    }
  }

  lemma StepKeepsFloor(db: Db, policy: Policy, op: Op, destination: Destination, orderingKey: Text, floor: nat)
    requires ValidPolicy(policy) && Sound(db) && LaneFrom(db, destination, orderingKey, floor)
    ensures LaneFrom(Step(db, policy, op), destination, orderingKey, floor)
  {
    StepDescends(db, policy, op);
    FloorStays(db, Step(db, policy, op), destination, orderingKey, floor);
  }

  lemma FinishingRaisesFloor(db: Db, policy: Policy, op: Op, destination: Destination, orderingKey: Text)
    requires ValidPolicy(policy) && Sound(db) && FinishesHead(db, op, destination, orderingKey)
    ensures LaneFrom(Step(db, policy, op), destination, orderingKey,
            Reported(db, op.attempt.deliveryId).value.stamp + 1)
  {
    var d := Reported(db, op.attempt.deliveryId).value;
    var after := Step(db, policy, op);
    assert after.deliveries == Filter(db.deliveries, Not(HasDeliveryId(op.attempt.deliveryId)));
    forall x | x in after.deliveries && InLane(x, destination, orderingKey) ensures d.stamp + 1 <= x.stamp {
      assert SameLane(x, d);
      if x.stamp == d.stamp {
        SameStamp(db, x, d);
      }
    }
  }

  lemma SameStamp(db: Db, a: Delivery, b: Delivery)
    requires Numbered(db) && a in db.deliveries && b in db.deliveries && a.stamp == b.stamp
    ensures a == b
  {
    var i :| 0 <= i < |db.deliveries| && db.deliveries[i] == a;
    var j :| 0 <= j < |db.deliveries| && db.deliveries[j] == b;
  }

  ghost predicate RisesFrom(stamps: seq<nat>, floor: nat) {
    && (forall i | 0 <= i < |stamps| :: floor <= stamps[i])
    && (forall i, j | 0 <= i < j < |stamps| :: stamps[i] < stamps[j])
  }

  lemma AheadOfRest(stamp: nat, rest: seq<nat>, floor: nat)
    requires floor <= stamp && RisesFrom(rest, stamp + 1)
    ensures RisesFrom([stamp] + rest, floor)
  {
    var all := [stamp] + rest;
    assert forall i | 0 < i < |all| :: all[i] == rest[i - 1];
  }

  /** Final outcomes for a lane's offered deliveries follow enqueue order, in every run. */
  lemma {:induction false} LaneFinishesInOrder(db: Db, policy: Policy, ops: seq<Op>, destination: Destination,
      orderingKey: Text,
                                               floor: nat)
    requires ValidPolicy(policy) && Sound(db) && LaneFrom(db, destination, orderingKey, floor)
    ensures RisesFrom(Finished(db, policy, ops, destination, orderingKey), floor)
    decreases |ops|
  {
    if ops != [] {
      var next := Step(db, policy, ops[0]);
      StepKeepsSound(db, policy, ops[0]);
      if FinishesHead(db, ops[0], destination, orderingKey) {
        var stamp := Reported(db, ops[0].attempt.deliveryId).value.stamp;
        FinishingRaisesFloor(db, policy, ops[0], destination, orderingKey);
        LaneFinishesInOrder(next, policy, ops[1..], destination, orderingKey, stamp + 1);
        var rest := Finished(next, policy, ops[1..], destination, orderingKey);
        assert Finished(db, policy, ops, destination, orderingKey) == [stamp] + rest;
        AheadOfRest(stamp, rest, floor);
      } else {
        StepKeepsFloor(db, policy, ops[0], destination, orderingKey, floor);
        LaneFinishesInOrder(next, policy, ops[1..], destination, orderingKey, floor);
        assert Finished(db, policy, ops, destination, orderingKey)
            == Finished(next, policy, ops[1..], destination, orderingKey);
      }
    }
  }

  lemma {:induction false} RunSplit(db: Db, policy: Policy, first: seq<Op>, rest: seq<Op>)
    requires ValidPolicy(policy)
    ensures Run(db, policy, first + rest) == Run(Run(db, policy, first), policy, rest)
    decreases |first|
  {
    if first == [] {
      assert first + rest == rest;
    } else {
      assert (first + rest)[1..] == first[1..] + rest;
      RunSplit(Step(db, policy, first[0]), policy, first[1..], rest);
    }
  }

  lemma {:induction false} RunKeepsFloor(db: Db, policy: Policy, ops: seq<Op>, destination: Destination,
      orderingKey: Text, floor: nat)
    requires ValidPolicy(policy) && Sound(db) && LaneFrom(db, destination, orderingKey, floor)
    ensures LaneFrom(Run(db, policy, ops), destination, orderingKey, floor)
    decreases |ops|
  {
    if ops != [] {
      StepKeepsFloor(db, policy, ops[0], destination, orderingKey, floor);
      StepKeepsSound(db, policy, ops[0]);
      RunKeepsFloor(Step(db, policy, ops[0]), policy, ops[1..], destination, orderingKey, floor);
    }
  }

  lemma ReportedIsLive(db: Db, d: Delivery, now: Delivery)
    requires Numbered(db) && now in db.deliveries && Continues(d, now)
    ensures Reported(db, d.row.deliveryId) == Some(now)
  {
    assert PendingId(db, d.row.deliveryId);
  }

  /** A delivery offered earlier in the run and still live is the one its id reports for, and heads its lane. */
  lemma OfferedIsHeadWhenReported(db: Db, policy: Policy, ops: seq<Op>, destination: Destination, readyAt: Time,
      limit: nat, d: Delivery)
    requires ValidPolicy(policy) && Sound(db)
    requires d in ReadPending(db, destination, readyAt, limit) && Live(Run(db, policy, ops), d)
    ensures var now := Reported(Run(db, policy, ops), d.row.deliveryId);
            now.Some? && Continues(d, now.value) && Head(Run(db, policy, ops), now.value)
  {
    OffersDueHeads(db, destination, readyAt, limit);
    var after := Run(db, policy, ops);
    var now :| now in after.deliveries && Continues(d, now);
    RunKeepsSound(db, policy, ops);
    HeadStaysUntilRemoved(db, policy, ops, d, now);
    ReportedIsLive(after, d, now);
  }

  /**
   Outcomes of offered deliveries follow enqueue order: once a delivery that was offered is finished,
   every delivery that its lane ever holds later was enqueued after it.
   */
  lemma OfferedFinishInOrder(db: Db, policy: Policy, before: seq<Op>, finish: Attempt, later: seq<Op>,
                             readyAt: Time, limit: nat, d: Delivery, other: Delivery)
    requires ValidPolicy(policy) && Sound(db)
    requires d in ReadPending(db, d.row.destination, readyAt, limit) && Live(Run(db, policy, before), d)
    requires finish.resolution.Final? && finish.deliveryId == d.row.deliveryId
    requires other in Run(db, policy, (before + [Attempting(finish)]) + later).deliveries && SameLane(d, other)
    ensures d.stamp < other.stamp
  {
    OfferedIsHeadWhenReported(db, policy, before, d.row.destination, readyAt, limit, d);
    RunKeepsSound(db, policy, before);
    var reported := Run(db, policy, before);
    var finished := Step(reported, policy, Attempting(finish));
    FinishingRaisesFloor(reported, policy, Attempting(finish), d.row.destination, d.row.orderingKey);
    StepKeepsSound(reported, policy, Attempting(finish));
    RunKeepsFloor(finished, policy, later, d.row.destination, d.row.orderingKey, d.stamp + 1);
    RunSplit(db, policy, before + [Attempting(finish)], later);
    RunSplit(db, policy, before, [Attempting(finish)]);
    assert [Attempting(finish)][1..] == [];
  }

  // The attempt counter ------------------------------------------------------------------------------

  /** Stored attempts of a live delivery: those made since it was enqueued and those its id already had. */
  ghost predicate Counted(db: Db) {
    forall d | d in db.deliveries :: |Filter(db.attempts, AttemptOf(d.row.deliveryId))| == d.attemptCount + d.inherited
  }

  lemma WriteKeepsCounts(db: Db, policy: Policy, w: Write)
    requires ValidPolicy(policy) && WriteAtomic(db, policy, w).Ok? && Counted(db)
    ensures Counted(WriteAtomic(db, policy, w).value)
  {
    var shed := WriteAppends(db, policy, w);
    var after := WriteAtomic(db, policy, w).value;
    forall d | d in after.deliveries
      ensures |Filter(after.attempts, AttemptOf(d.row.deliveryId))| == d.attemptCount + d.inherited
    {
      var i :| 0 <= i < |after.deliveries| && after.deliveries[i] == d;
      if i < |shed| {
        assert shed[i] in db.deliveries;
      }
    }
  }

  lemma PruningKeepsCounts(db: Db, now: Time)
    requires Counted(db)
    ensures Counted(Maintain(db, now))
  {
    forall d | d in db.deliveries
      ensures |Filter(Filter(db.attempts, KeepsAttempt(db, now)), AttemptOf(d.row.deliveryId))|
              == d.attemptCount + d.inherited
    {
      FilterInside(db.attempts, KeepsAttempt(db, now), AttemptOf(d.row.deliveryId));
    }
  }

  lemma AttemptCounts(db: Db, a: Attempt)
    requires Counted(db) && RecordAttempt(db, a).Ok?
    ensures Counted(RecordAttempt(db, a).value)
  {
    var after := RecordAttempt(db, a).value;
    forall d | d in after.deliveries
      ensures |Filter(after.attempts, AttemptOf(d.row.deliveryId))| == d.attemptCount + d.inherited
    {
      FilterAppend(db.attempts, [a], AttemptOf(d.row.deliveryId));
      if a.resolution.RetryAt? {
        var o := RetriedOrigin(db.deliveries, a.deliveryId, a.resolution.at, d);
        assert o.row == d.row;
      }
    }
  }

  lemma StepKeepsCounts(db: Db, policy: Policy, op: Op)
    requires ValidPolicy(policy) && Counted(db)
    ensures Counted(Step(db, policy, op))
  {
    match op
    case Writing(w) =>
      if WriteAtomic(db, policy, w).Ok? {
        WriteKeepsCounts(db, policy, w);
      }
    case Maintaining(now) => PruningKeepsCounts(db, now);
    case Attempting(a) =>
      if RecordAttempt(db, a).Ok? {
        AttemptCounts(db, a);
      }
    case Authorizing(_, _, _, _) =>
    case Settling(selected, at) => SettlingFrame(db, selected, at);
  }

  lemma {:induction false} CountsOverRuns(db: Db, policy: Policy, ops: seq<Op>)
    requires ValidPolicy(policy) && Counted(db)
    ensures Counted(Run(db, policy, ops))
    decreases |ops|
  {
    if ops != [] {
      StepKeepsCounts(db, policy, ops[0]);
      CountsOverRuns(Step(db, policy, ops[0]), policy, ops[1..]);
    }
  }

  /** In every reachable state the counter equals the stored attempts exactly when the id had none at enqueue. */
  lemma CounterExactUnlessIdReused(policy: Policy, ops: seq<Op>, d: Delivery)
    requires ValidPolicy(policy) && d in Run(EMPTY, policy, ops).deliveries
    ensures |Filter(Run(EMPTY, policy, ops).attempts, AttemptOf(d.row.deliveryId))| == d.attemptCount <==>
            d.inherited == 0
  {
    CountsOverRuns(EMPTY, policy, ops);
  }

  /** Enqueueing one critical delivery into an outbox without deliveries, when it fits. */
  lemma WriteOne(db: Db, policy: Policy, n: NewDelivery)
    requires ValidPolicy(policy) && n.durability.Critical? && db.deliveries == []
    requires UsedBytes(db) + DeliveryBytes(n) <= StartLimit(policy)
    ensures WriteAtomic(db, policy, Write(Routine, [], [n], []))
            == Ok(db.(deliveries := [Enqueued(db, n)], enqueued := db.enqueued + 1))
  {
    var w := Write(Routine, [], [n], []);
    assert [n][1..] == [];
    assert Filter([n], NewCriticalDelivery()) == [n];
    assert Sum([n], DeliveryBytes) == DeliveryBytes(n);
    assert CriticalBytes(w) == DeliveryBytes(n);
    var remaining := StartLimit(policy) - (UsedBytes(db) + CriticalBytes(w));
    assert FittingDeliveries([], remaining) == Fitting([], remaining, 0);
    assert [n] + [] == [n];
    assert FittingDeliveries([n], remaining) == Fitting([n], remaining, 0);
    assert PrepareWrite(db, policy, w) == Ok(Prepared(db, w));
    var next := db.(deliveries := [Enqueued(db, n)], enqueued := db.enqueued + 1);
    assert [] + [Enqueued(db, n)] == [Enqueued(db, n)];
    assert InsertDelivery(db, n) == Ok(next);
    assert InsertDeliveries(db, [n]) == InsertDeliveries(next, []);
  }

  /** An id finished and enqueued again while its attempts are still stored starts below them. */
  lemma ReusedIdCountsLess(policy: Policy, n: NewDelivery)
    requires ValidPolicy(policy) && n.durability.Critical?
             && DeliveryBytes(n) + 24 + |n.deliveryId| <= StartLimit(policy)
    ensures var enqueue := Writing(Write(Routine, [], [n], []));
            var finish := Attempting(Attempt(n.deliveryId, "", "", Final, None));
            var db := Run(EMPTY, policy, [enqueue, finish, enqueue]);
            |db.deliveries| == 1 && db.deliveries[0].attemptCount == 0
            && |Filter(db.attempts, AttemptOf(n.deliveryId))| == 1
  {
    var a := Attempt(n.deliveryId, "", "", Final, None);
    var enqueue, finish := Writing(Write(Routine, [], [n], [])), Attempting(a);
    var one := Enqueued(EMPTY, n);
    var db1 := EMPTY.(deliveries := [one], enqueued := 1);
    WriteOne(EMPTY, policy, n);
    assert Step(EMPTY, policy, enqueue) == db1;
    var db2 := db1.(deliveries := [], attempts := [a]);
    assert Step(db1, policy, finish) == db2 by {
      assert one in db1.deliveries && one.row.deliveryId == a.deliveryId;
      assert [one][1..] == [];
      assert Filter([one], Not(HasDeliveryId(a.deliveryId))) == [];
      assert [] + [a] == [a];
    }
    assert UsedBytes(db2) == SqlAttempt(a) by {
      assert [a][1..] == [];
      assert Sum([a], SqlAttempt) == SqlAttempt(a);
    }
    WriteOne(db2, policy, n);
    var db3 := db2.(deliveries := [Enqueued(db2, n)], enqueued := 2);
    assert Step(db2, policy, enqueue) == db3;
    var ops := [enqueue, finish, enqueue];
    assert ops[1..] == [finish, enqueue] && ops[1..][1..] == [enqueue] && [enqueue][1..] == [];
    assert Run(EMPTY, policy, ops) == Run(db1, policy, [finish, enqueue]) == Run(db2, policy, [enqueue]) == db3;
    assert Filter([a], AttemptOf(n.deliveryId)) == [a];
  }

  // Ids enqueued once --------------------------------------------------------------------------------

  function DeliveryIds(values: seq<NewDelivery>): (ids: set<Text>) {
    set v | v in values :: v.deliveryId
  }

  /** The ids a step enqueues under, as its caller sees them. */
  function WrittenIds(db: Db, policy: Policy, op: Op): (ids: set<Text>)
    requires ValidPolicy(policy)
  {
    if op.Writing? && WriteAtomic(db, policy, op.write).Ok? then DeliveryIds(op.write.deliveries) else {}
  }

  /** No successful write brings an id that an earlier one brought. */
  ghost predicate IdsWrittenOnce(db: Db, policy: Policy, ops: seq<Op>, seen: set<Text>)
    requires ValidPolicy(policy)
    decreases |ops|
  {
    ops == []
    || (var ids := WrittenIds(db, policy, ops[0]);
        ids !! seen && IdsWrittenOnce(Step(db, policy, ops[0]), policy, ops[1..], seen + ids))
  }

  /** Every stored id was written, and no delivery found attempts of its own id. */
  ghost predicate FirstUses(db: Db, seen: set<Text>) {
    && (forall a | a in db.attempts :: a.deliveryId in seen)
    && (forall d | d in db.deliveries :: d.row.deliveryId in seen && d.inherited == 0)
  }

  lemma {:induction false} FittingKeepsOnly(values: seq<NewDelivery>, remaining: nat, v: NewDelivery)
    requires v in FittingDeliveries(values, remaining).kept
    ensures v in values
    decreases |values|
  {
    var critical := values[0].durability.Critical?;
    var fits := !critical && DeliveryBytes(values[0]) <= remaining;
    if (critical || fits) && v == values[0] {
    } else {
      FittingKeepsOnly(values[1..], if fits then remaining - DeliveryBytes(values[0]) else remaining, v);
    }
  }

  lemma InsertedRows(db: Db, ds: seq<NewDelivery>, x: Delivery)
    requires InsertDeliveries(db, ds).Ok? && x in InsertDeliveries(db, ds).value.deliveries
    ensures x in db.deliveries || (x.row in ds && x.inherited == |Filter(db.attempts, AttemptOf(x.row.deliveryId))|)
  {
    EnqueuedRows(db, ds);
    var after := InsertDeliveries(db, ds).value;
    var i :| 0 <= i < |after.deliveries| && after.deliveries[i] == x;
    if i >= |db.deliveries| {
      var k := i - |db.deliveries|;
      assert after.deliveries[|db.deliveries| + k].row == ds[k];
    }
  }

  /** A row after a write was there before it, or is new and one of the write's. */
  lemma WrittenRows(db: Db, policy: Policy, w: Write, x: Delivery)
    requires ValidPolicy(policy) && WriteAtomic(db, policy, w).Ok? && x in WriteAtomic(db, policy, w).value.deliveries
    ensures x in db.deliveries
            || (x.row in w.deliveries && x.inherited == |Filter(db.attempts, AttemptOf(x.row.deliveryId))|)
  {
    var p := PrepareWrite(db, policy, w).value;
    EventsLeaveDeliveries(p.db, p.write.events);
    var a := InsertEvents(p.db, p.write.events).value;
    RecordsLeaveDeliveries(InsertDeliveries(a, p.write.deliveries).value, p.write.records);
    InsertedRows(a, p.write.deliveries, x);
    if x !in a.deliveries {
      TrimmingKeepsOnly(db, policy, w, x.row);
    }
  }

  lemma TrimmingKeepsOnly(db: Db, policy: Policy, w: Write, v: NewDelivery)
    requires ValidPolicy(policy) && PrepareWrite(db, policy, w).Ok?
             && v in PrepareWrite(db, policy, w).value.write.deliveries
    ensures v in w.deliveries
  {
    var need, limit := UsedBytes(Sheltered(db, policy, w)) + CriticalBytes(w), Limit(policy, w.purpose);
    FittingKeepsOnly(w.deliveries, if need <= limit then limit - need else 0, v);
  }

  lemma WriteKeepsFirstUses(db: Db, policy: Policy, w: Write, seen: set<Text>)
    requires ValidPolicy(policy) && FirstUses(db, seen) && WriteAtomic(db, policy, w).Ok?
             && DeliveryIds(w.deliveries) !! seen
    ensures FirstUses(WriteAtomic(db, policy, w).value, seen + DeliveryIds(w.deliveries))
  {
    var after := WriteAtomic(db, policy, w).value;
    var shed := WriteAppends(db, policy, w);
    forall x | x in after.deliveries ensures x.row.deliveryId in seen + DeliveryIds(w.deliveries) && x.inherited == 0 {
      WrittenRows(db, policy, w, x);
      if x !in db.deliveries {
        FilterNone(db.attempts, AttemptOf(x.row.deliveryId));
      }
    }
  }

  lemma AttemptKeepsFirstUses(db: Db, a: Attempt, seen: set<Text>)
    requires FirstUses(db, seen) && RecordAttempt(db, a).Ok?
    ensures FirstUses(RecordAttempt(db, a).value, seen)
  {
    if a.resolution.RetryAt? {
      forall x | x in RetriedAll(db.deliveries, a.deliveryId, a.resolution.at)
        ensures x.row.deliveryId in seen && x.inherited == 0
      {
        var o := RetriedOrigin(db.deliveries, a.deliveryId, a.resolution.at, x);
      }
    }
  }

  lemma StepKeepsFirstUses(db: Db, policy: Policy, op: Op, seen: set<Text>)
    requires ValidPolicy(policy) && FirstUses(db, seen) && WrittenIds(db, policy, op) !! seen
    ensures FirstUses(Step(db, policy, op), seen + WrittenIds(db, policy, op))
  {
    match op
    case Writing(w) =>
      if WriteAtomic(db, policy, w).Ok? {
        WriteKeepsFirstUses(db, policy, w, seen);
      }
    case Maintaining(_) =>
    case Attempting(a) =>
      if RecordAttempt(db, a).Ok? {
        AttemptKeepsFirstUses(db, a, seen);
      }
    case Authorizing(_, _, _, _) =>
    case Settling(selected, at) => SettlingFrame(db, selected, at);
  }

  lemma {:induction false} RunKeepsFirstUses(db: Db, policy: Policy, ops: seq<Op>, seen: set<Text>)
    requires ValidPolicy(policy) && FirstUses(db, seen) && IdsWrittenOnce(db, policy, ops, seen)
    ensures forall d | d in Run(db, policy, ops).deliveries :: d.inherited == 0
    decreases |ops|
  {
    if ops != [] {
      StepKeepsFirstUses(db, policy, ops[0], seen);
      RunKeepsFirstUses(Step(db, policy, ops[0]), policy, ops[1..], seen + WrittenIds(db, policy, ops[0]));
    }
  }

  /** In a run that writes no delivery id twice, the counter of every live delivery is its stored attempts. */
  lemma CounterExactWhenIdsWrittenOnce(policy: Policy, ops: seq<Op>, d: Delivery)
    requires ValidPolicy(policy) && IdsWrittenOnce(EMPTY, policy, ops, {}) && d in Run(EMPTY, policy, ops).deliveries
    ensures |Filter(Run(EMPTY, policy, ops).attempts, AttemptOf(d.row.deliveryId))| == d.attemptCount
  {
    RunKeepsFirstUses(EMPTY, policy, ops, {});
    CounterExactUnlessIdReused(policy, ops, d);
  }
}
