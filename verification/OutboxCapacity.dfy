/**
 The storage budget: the writer's byte measure agrees with the measuring query, a write that must
 fit is admitted exactly when it fits beside everything that cannot be shed, and the completion
 reserve is really kept over any run.
 */
module OutboxCapacity {
  import opened Common
  import opened Sequences
  import opened Outbox

  // Two measures, one size -------------------------------------------------------------------------

  lemma {:induction false} StringsAdds(values: seq<Text>, overhead: nat)
    ensures Strings(values, overhead) == overhead + Strings(values, 0)
    decreases |values|
  {
    if values != [] {
      StringsAdds(values[1..], overhead + |values[0]|);
      StringsAdds(values[1..], |values[0]|);
    }
  }

  lemma StringsCons(first: Text, rest: seq<Text>, overhead: nat)
    ensures Strings([first] + rest, overhead) == |first| + Strings(rest, overhead)
  {
    assert ([first] + rest)[1..] == rest;
    StringsAdds(rest, overhead + |first|);
    StringsAdds(rest, overhead);
  }

  lemma MeasuresThree(a: Text, b: Text, c: Text, overhead: nat)
    ensures Strings([a, b, c], overhead) == |a| + |b| + |c| + overhead
  {
    StringsCons(a, [b, c], overhead);
    assert [a] + [b, c] == [a, b, c];
    StringsCons(b, [c], overhead);
    assert [b] + [c] == [b, c];
    StringsCons(c, [], overhead);
    assert [c] + [] == [c];
  }

  /** What the writer charges is what the query will measure. */
  lemma WriterMeasureIsQueryMeasure(e: Event, d: Delivery, r: Record)
    ensures EventBytes(e) == SqlEvent(e)
    ensures DeliveryBytes(d.row) == SqlDelivery(d)
    ensures RecordBytes(r.row) == SqlRecord(r)
  {
    MeasuresThree(e.eventId, e.resource, e.payload, 24);
    MeasuresThree(r.row.recordId, r.row.committedAt, r.row.payload, 24);
    var n := d.row;
    var first, last := [n.destination.target, n.eventId, n.deliveryId], [n.orderingKey, n.deadline, n.payload];
    assert [n.destination.target, n.eventId, n.deliveryId, n.orderingKey, n.deadline, n.payload] == first + last;
    MeasuresThree(n.orderingKey, n.deadline, n.payload, 40);
    assert first + last == [n.destination.target] + ([n.eventId] + ([n.deliveryId] + last));
    StringsCons(n.destination.target, [n.eventId] + ([n.deliveryId] + last), 40);
    StringsCons(n.eventId, [n.deliveryId] + last, 40);
    StringsCons(n.deliveryId, last, 40);
  }

  // What cannot be shed ----------------------------------------------------------------------------

  /** Usage that shedding cannot release. */
  function FirmBytes(db: Db): (n: nat) {
    Sum(db.journal, SqlEvent) + Sum(Filter(db.deliveries, CriticalDelivery()), SqlDelivery)
    + Sum(db.attempts, SqlAttempt) + Sum(Filter(db.records, CriticalRecord()), SqlRecord)
    + Sum(db.archive, SqlArchived)
  }

  lemma SheddingLeavesFirm(db: Db)
    ensures UsedBytes(ShedBestEffort(db)) == FirmBytes(db)
    ensures FirmBytes(ShedBestEffort(db)) == FirmBytes(db)
    ensures FirmBytes(db) <= UsedBytes(db)
  {
    FilterSumBound(db.deliveries, CriticalDelivery(), SqlDelivery);
    FilterSumBound(db.records, CriticalRecord(), SqlRecord);
    FilterAll(Filter(db.deliveries, CriticalDelivery()), CriticalDelivery());
    FilterAll(Filter(db.records, CriticalRecord()), CriticalRecord());
  }

  // Greedy fitting ---------------------------------------------------------------------------------

  lemma {:induction false} FittingDeliveriesBytes(values: seq<NewDelivery>, remaining: nat)
    ensures var f := FittingDeliveries(values, remaining);
            && f.remaining <= remaining
            && Filter(f.kept, NewCriticalDelivery()) == Filter(values, NewCriticalDelivery())
            && Sum(f.kept, DeliveryBytes)
               == Sum(Filter(values, NewCriticalDelivery()), DeliveryBytes) + (remaining - f.remaining)
            && |f.kept| + f.dropped == |values|
    decreases |values|
  {
    if values != [] {
      var fits := !values[0].durability.Critical? && DeliveryBytes(values[0]) <= remaining;
      var left := if fits then remaining - DeliveryBytes(values[0]) else remaining;
      FittingDeliveriesBytes(values[1..], left);
      var rest := FittingDeliveries(values[1..], left);
      var f := FittingDeliveries(values, remaining);
      if values[0].durability.Critical? {
        assert f.kept[1..] == rest.kept;
        assert Filter(values, NewCriticalDelivery())[1..] == Filter(values[1..], NewCriticalDelivery());
      } else if fits {
        assert f.kept[1..] == rest.kept;
      }
    }
  }

  lemma {:induction false} FittingRecordsBytes(values: seq<NewRecord>, remaining: nat)
    ensures var f := FittingRecords(values, remaining);
            && f.remaining <= remaining
            && Filter(f.kept, NewCriticalRecord()) == Filter(values, NewCriticalRecord())
            && Sum(f.kept, RecordBytes)
               == Sum(Filter(values, NewCriticalRecord()), RecordBytes) + (remaining - f.remaining)
            && |f.kept| + f.dropped == |values|
    decreases |values|
  {
    if values != [] {
      var fits := !values[0].durability.Critical? && RecordBytes(values[0]) <= remaining;
      var left := if fits then remaining - RecordBytes(values[0]) else remaining;
      FittingRecordsBytes(values[1..], left);
      var rest := FittingRecords(values[1..], left);
      var f := FittingRecords(values, remaining);
      if values[0].durability.Critical? {
        assert f.kept[1..] == rest.kept;
        assert Filter(values, NewCriticalRecord())[1..] == Filter(values[1..], NewCriticalRecord());
      } else if fits {
        assert f.kept[1..] == rest.kept;
      }
    }
  }

  // Inserted bytes ---------------------------------------------------------------------------------

  lemma {:induction false} EventsAdd(db: Db, events: seq<Event>)
    requires InsertEvents(db, events).Ok?
    ensures var after := InsertEvents(db, events).value;
            && after == db.(journal := db.journal + events)
            && UsedBytes(after) == UsedBytes(db) + Sum(events, EventBytes)
            && FirmBytes(after) == FirmBytes(db) + Sum(events, EventBytes)
    decreases |events|
  {
    if events == [] {
      assert db.journal + events == db.journal;
    } else {
      var next := InsertEvent(db, events[0]).value;
      EventsAdd(next, events[1..]);
      assert db.journal + events == (db.journal + [events[0]]) + events[1..];
      SumAppend(db.journal, [events[0]], SqlEvent);
      assert Sum([events[0]], SqlEvent) == SqlEvent(events[0]) by { assert [events[0]][1..] == []; }
      MeasuresThree(events[0].eventId, events[0].resource, events[0].payload, 24);
    }
  }

  lemma DeliveryAdds(db: Db, n: NewDelivery)
    requires InsertDelivery(db, n).Ok?
    ensures var after := InsertDelivery(db, n).value;
            && UsedBytes(after) == UsedBytes(db) + DeliveryBytes(n)
            && FirmBytes(after) == FirmBytes(db) + (if n.durability.Critical? then DeliveryBytes(n) else 0)
  {
    var d := Enqueued(db, n);
    WriterMeasureIsQueryMeasure(Event("", "", 0, "", None), d, Record(NewRecord("", Critical, "", "", None), 0));
    SumAppend(db.deliveries, [d], SqlDelivery);
    assert [d][1..] == [];
    assert Sum([d], SqlDelivery) == SqlDelivery(d);
    FilterAppend(db.deliveries, [d], CriticalDelivery());
    SumAppend(Filter(db.deliveries, CriticalDelivery()), Filter([d], CriticalDelivery()), SqlDelivery);
    assert Filter([d], CriticalDelivery()) == if n.durability.Critical? then [d] else [];
  }

  lemma {:induction false} DeliveriesAdd(db: Db, deliveries: seq<NewDelivery>)
    requires InsertDeliveries(db, deliveries).Ok?
    ensures var after := InsertDeliveries(db, deliveries).value;
            && UsedBytes(after) == UsedBytes(db) + Sum(deliveries, DeliveryBytes)
            && FirmBytes(after) == FirmBytes(db) + Sum(Filter(deliveries, NewCriticalDelivery()), DeliveryBytes)
    decreases |deliveries|
  {
    if deliveries != [] {
      DeliveryAdds(db, deliveries[0]);
      DeliveriesAdd(InsertDelivery(db, deliveries[0]).value, deliveries[1..]);
      if deliveries[0].durability.Critical? {
        assert Filter(deliveries, NewCriticalDelivery())[1..] == Filter(deliveries[1..], NewCriticalDelivery());
      }
    }
  }

  lemma RecordRowAdds(records: seq<Record>, r: Record)
    ensures Sum(records + [r], SqlRecord) == Sum(records, SqlRecord) + SqlRecord(r)
    ensures Sum(Filter(records + [r], CriticalRecord()), SqlRecord)
            == Sum(Filter(records, CriticalRecord()), SqlRecord)
               + (if r.row.durability.Critical? then SqlRecord(r) else 0)
  {
    assert [r][1..] == [];
    assert Sum([r], SqlRecord) == SqlRecord(r);
    SumAppend(records, [r], SqlRecord);
    FilterAppend(records, [r], CriticalRecord());
    SumAppend(Filter(records, CriticalRecord()), Filter([r], CriticalRecord()), SqlRecord);
    assert Filter([r], CriticalRecord()) == if r.row.durability.Critical? then [r] else [];
  }

  lemma RecordsTableOnly(db: Db, after: Db, r: Record)
    requires after == db.(records := db.records + [r], critical := after.critical, bestEffort := after.bestEffort)
    ensures UsedBytes(after) == UsedBytes(db) + SqlRecord(r)
    ensures FirmBytes(after) == FirmBytes(db) + (if r.row.durability.Critical? then SqlRecord(r) else 0)
  {
    RecordRowAdds(db.records, r);
  }

  lemma RecordAdds(db: Db, n: NewRecord)
    requires InsertRecord(db, n).Ok?
    ensures var after := InsertRecord(db, n).value;
            && UsedBytes(after) == UsedBytes(db) + RecordBytes(n)
            && FirmBytes(after) == FirmBytes(db) + (if n.durability.Critical? then RecordBytes(n) else 0)
  {
    MeasuresThree(n.recordId, n.committedAt, n.payload, 24);
    RecordsTableOnly(db, InsertRecord(db, n).value, Record(n, StreamOf(db, n.durability).highWater + 1));
  }

  lemma {:induction false} RecordsAdd(db: Db, records: seq<NewRecord>)
    requires InsertRecords(db, records).Ok?
    ensures var after := InsertRecords(db, records).value;
            && UsedBytes(after) == UsedBytes(db) + Sum(records, RecordBytes)
            && FirmBytes(after) == FirmBytes(db) + Sum(Filter(records, NewCriticalRecord()), RecordBytes)
    decreases |records|
  {
    if records != [] {
      RecordAdds(db, records[0]);
      RecordsAdd(InsertRecord(db, records[0]).value, records[1..]);
      if records[0].durability.Critical? {
        assert Filter(records, NewCriticalRecord())[1..] == Filter(records[1..], NewCriticalRecord());
      }
    }
  }

  // Admission --------------------------------------------------------------------------------------

  /**
   Critical data or a new session is admitted exactly when it fits beside what cannot be shed,
   whatever the best-effort load; anything else is always admitted.
   */
  lemma AdmittedExactlyWhenFirmUsageFits(db: Db, policy: Policy, w: Write)
    requires ValidPolicy(policy)
    ensures PrepareWrite(db, policy, w).Ok?
            <==> !MustFit(w) || FirmBytes(db) + CriticalBytes(w) <= Limit(policy, w.purpose)
  {
    SheddingLeavesFirm(db);
  }

  function WriteBytes(w: Write): (n: nat) {
    Sum(w.events, EventBytes) + Sum(w.deliveries, DeliveryBytes) + Sum(w.records, RecordBytes)
  }

  lemma ShelteredBytes(db: Db, policy: Policy, w: Write)
    requires ValidPolicy(policy)
    ensures FirmBytes(Sheltered(db, policy, w)) == FirmBytes(db) && UsedBytes(Sheltered(db, policy, w)) <= UsedBytes(db)
  {
    SheddingLeavesFirm(db);
  }

  /** Trimming keeps every critical byte and uses at most the room it is given for the rest. */
  lemma TrimmedBytes(db: Db, w: Write, remaining: nat)
    ensures var p := Trimmed(db, w, remaining);
            && FirmBytes(p.db) == FirmBytes(db) && UsedBytes(p.db) == UsedBytes(db)
            && CriticalBytes(p.write) == CriticalBytes(w)
            && CriticalBytes(w) <= WriteBytes(p.write) <= CriticalBytes(w) + remaining
  {
    FittingDeliveriesBytes(w.deliveries, remaining);
    FittingRecordsBytes(w.records, FittingDeliveries(w.deliveries, remaining).remaining);
  }

  lemma PreparedBytes(db: Db, policy: Policy, w: Write)
    requires ValidPolicy(policy) && PrepareWrite(db, policy, w).Ok?
    ensures var p := PrepareWrite(db, policy, w).value;
            var total := UsedBytes(p.db) + WriteBytes(p.write);
            && FirmBytes(p.db) == FirmBytes(db) && CriticalBytes(p.write) == CriticalBytes(w)
            && (MustFit(w) ==> total <= Limit(policy, w.purpose))
            && (total <= Limit(policy, w.purpose) || total <= UsedBytes(db))
  {
    ShelteredBytes(db, policy, w);
    var room, limit := Sheltered(db, policy, w), Limit(policy, w.purpose);
    var need := UsedBytes(room) + CriticalBytes(w);
    TrimmedBytes(room, w, if need <= limit then limit - need else 0);
  }

  /** An admitted write leaves measured usage within its limit, and adds exactly its critical bytes to what is firm. */
  lemma UsageWithinLimit(db: Db, policy: Policy, w: Write)
    requires ValidPolicy(policy) && WriteAtomic(db, policy, w).Ok?
    ensures var after := WriteAtomic(db, policy, w).value;
            && (MustFit(w) ==> UsedBytes(after) <= Limit(policy, w.purpose))
            && (UsedBytes(after) <= Limit(policy, w.purpose) || UsedBytes(after) <= UsedBytes(db))
            && FirmBytes(after) == FirmBytes(db) + CriticalBytes(w)
  {
    PreparedBytes(db, policy, w);
    var p := PrepareWrite(db, policy, w).value;
    EventsAdd(p.db, p.write.events);
    var a := InsertEvents(p.db, p.write.events).value;
    DeliveriesAdd(a, p.write.deliveries);
    RecordsAdd(InsertDeliveries(a, p.write.deliveries).value, p.write.records);
  }

  // The reserve over runs --------------------------------------------------------------------------

  /** Firm bytes a step adds outside the start limit: completions, attempt rows and archive rows. */
  function SpentBy(db: Db, policy: Policy, op: Op): (n: nat)
    requires ValidPolicy(policy)
  {
    match op
    case Writing(w) => if w.purpose.ActiveSessionCompletion? then CriticalBytes(w) else 0
    case Attempting(a) => SqlAttempt(a)
    case Settling(selected, at) =>
      var before, after := Sum(db.archive, SqlArchived), Sum(Settle(db, selected, at).archive, SqlArchived);
      if after > before then after - before else 0
    case _ => 0
  }

  function Spent(db: Db, policy: Policy, ops: seq<Op>): (n: nat)
    requires ValidPolicy(policy)
    decreases |ops|
  {
    if ops == [] then 0 else SpentBy(db, policy, ops[0]) + Spent(Step(db, policy, ops[0]), policy, ops[1..])
  }

  lemma {:induction false} RetriedBytes(deliveries: seq<Delivery>, id: Text, at: Time)
    ensures Sum(Filter(RetriedAll(deliveries, id, at), CriticalDelivery()), SqlDelivery)
            == Sum(Filter(deliveries, CriticalDelivery()), SqlDelivery)
  {
    if deliveries != [] {
      RetriedBytes(deliveries[1..], id, at);
      var after := RetriedAll(deliveries, id, at);
      assert after[1..] == RetriedAll(deliveries[1..], id, at);
      if deliveries[0].row.durability.Critical? {
        assert Filter(deliveries, CriticalDelivery())[1..] == Filter(deliveries[1..], CriticalDelivery());
        assert Filter(after, CriticalDelivery())[1..] == Filter(after[1..], CriticalDelivery());
      }
    }
  }

  /** Rows dropped from the outbox never raise what is firm. */
  lemma {:induction false} FirmShrinks(deliveries: seq<Delivery>, keep: Delivery -> bool)
    ensures Sum(Filter(Filter(deliveries, keep), CriticalDelivery()), SqlDelivery)
            <= Sum(Filter(deliveries, CriticalDelivery()), SqlDelivery)
  {
    if deliveries != [] {
      FirmShrinks(deliveries[1..], keep);
      if keep(deliveries[0]) {
        assert Filter(deliveries, keep)[1..] == Filter(deliveries[1..], keep);
        if deliveries[0].row.durability.Critical? {
          assert Filter(Filter(deliveries, keep), CriticalDelivery())[1..]
              == Filter(Filter(deliveries[1..], keep), CriticalDelivery());
        }
      }
      if deliveries[0].row.durability.Critical? {
        assert Filter(deliveries, CriticalDelivery())[1..] == Filter(deliveries[1..], CriticalDelivery());
      }
    }
  }

  lemma {:induction false} FirmRecordsShrink(records: seq<Record>, keep: Record -> bool)
    ensures Sum(Filter(Filter(records, keep), CriticalRecord()), SqlRecord)
            <= Sum(Filter(records, CriticalRecord()), SqlRecord)
  {
    if records != [] {
      FirmRecordsShrink(records[1..], keep);
      if keep(records[0]) {
        assert Filter(records, keep)[1..] == Filter(records[1..], keep);
        if records[0].row.durability.Critical? {
          assert Filter(Filter(records, keep), CriticalRecord())[1..]
              == Filter(Filter(records[1..], keep), CriticalRecord());
        }
      }
      if records[0].row.durability.Critical? {
        assert Filter(records, CriticalRecord())[1..] == Filter(records[1..], CriticalRecord());
      }
    }
  }

  lemma {:induction false} SettleBytes(db: Db, pending: seq<Disposition>, selected: Option<Destination>, at: Text)
    ensures var after := SettleEach(db, pending, selected, at);
            && after.journal == db.journal && after.attempts == db.attempts && after.records == db.records
            && Sum(Filter(after.deliveries, CriticalDelivery()), SqlDelivery)
               <= Sum(Filter(db.deliveries, CriticalDelivery()), SqlDelivery)
            && Sum(after.archive, SqlArchived) >= Sum(db.archive, SqlArchived)
    decreases |pending|
  {
    if pending != [] {
      var next := SettleOne(db, pending[0], selected, at);
      FirmShrinks(db.deliveries, Not(SentTo(pending[0].destination)));
      SumAppend(db.archive,
          ArchivedRows(Filter(db.deliveries, SentTo(pending[0].destination)), pending[0].auditId, at), SqlArchived);
      SettleBytes(next, pending[1..], selected, at);
    }
  }

  lemma MaintenanceShrinks(db: Db, now: Time)
    ensures FirmBytes(Maintain(db, now)) <= FirmBytes(db)
  {
    FilterSumBound(db.journal, KeepsEvent(db, now), SqlEvent);
    FilterSumBound(db.attempts, KeepsAttempt(db, now), SqlAttempt);
    FirmRecordsShrink(db.records, KeepsRecord(now));
  }

  lemma AttemptAdds(db: Db, a: Attempt)
    requires RecordAttempt(db, a).Ok?
    ensures FirmBytes(RecordAttempt(db, a).value) <= FirmBytes(db) + SqlAttempt(a)
    ensures a.resolution.RetryAt? ==> FirmBytes(RecordAttempt(db, a).value) == FirmBytes(db) + SqlAttempt(a)
  {
    SumAppend(db.attempts, [a], SqlAttempt);
    assert [a][1..] == [];
    assert Sum([a], SqlAttempt) == SqlAttempt(a);
    if a.resolution.RetryAt? {
      RetriedBytes(db.deliveries, a.deliveryId, a.resolution.at);
    } else {
      FirmShrinks(db.deliveries, Not(HasDeliveryId(a.deliveryId)));
    }
  }

  lemma WriteSpends(db: Db, policy: Policy, w: Write, spent: nat)
    requires ValidPolicy(policy) && FirmBytes(db) <= StartLimit(policy) + spent && WriteAtomic(db, policy, w).Ok?
    ensures FirmBytes(WriteAtomic(db, policy, w).value)
            <= StartLimit(policy) + spent + (if w.purpose.ActiveSessionCompletion? then CriticalBytes(w) else 0)
  {
    AdmittedExactlyWhenFirmUsageFits(db, policy, w);
    UsageWithinLimit(db, policy, w);
  }

  lemma SettlingSpends(db: Db, selected: Option<Destination>, at: Text)
    ensures FirmBytes(Settle(db, selected, at)) + Sum(db.archive, SqlArchived)
            <= FirmBytes(db) + Sum(Settle(db, selected, at).archive, SqlArchived)
  {
    SettleBytes(db, Take(Filter(db.dispositions, IsAuthorized), MAX_PENDING), selected, at);
  }

  lemma StepSpends(db: Db, policy: Policy, op: Op, spent: nat)
    requires ValidPolicy(policy) && FirmBytes(db) <= StartLimit(policy) + spent
    ensures FirmBytes(Step(db, policy, op)) <= StartLimit(policy) + spent + SpentBy(db, policy, op)
  {
    match op
    case Writing(w) =>
      if WriteAtomic(db, policy, w).Ok? {
        WriteSpends(db, policy, w, spent);
      }
    case Maintaining(now) => MaintenanceShrinks(db, now);
    case Attempting(a) =>
      if RecordAttempt(db, a).Ok? {
        AttemptAdds(db, a);
      }
    case Authorizing(_, _, _, _) =>
    case Settling(selected, at) => SettlingSpends(db, selected, at);
  }

  lemma {:induction false} RunSpends(db: Db, policy: Policy, ops: seq<Op>, spent: nat)
    requires ValidPolicy(policy) && FirmBytes(db) <= StartLimit(policy) + spent
    ensures FirmBytes(Run(db, policy, ops)) <= StartLimit(policy) + spent + Spent(db, policy, ops)
    decreases |ops|
  {
    if ops != [] {
      StepSpends(db, policy, ops[0], spent);
      RunSpends(Step(db, policy, ops[0]), policy, ops[1..], spent + SpentBy(db, policy, ops[0]));
    }
  }

  /**
   The reserve holds: after any run, a completion is admitted as long as it and everything spent
   outside the start limit so far stay within the reserve.
   */
  lemma CompletionsWithinReserveAreAdmitted(db: Db, policy: Policy, ops: seq<Op>, w: Write)
    requires ValidPolicy(policy) && FirmBytes(db) <= StartLimit(policy)
    requires w.purpose.ActiveSessionCompletion?
    requires Spent(db, policy, ops) + CriticalBytes(w) <= policy.reserve
    ensures PrepareWrite(Run(db, policy, ops), policy, w).Ok?
  {
    RunSpends(db, policy, ops, 0);
    AdmittedExactlyWhenFirmUsageFits(Run(db, policy, ops), policy, w);
  }

  ghost predicate WritesAndRetention(ops: seq<Op>) {
    forall op | op in ops :: op.Writing? || op.Maintaining?
  }

  function CompletionBytes(ops: seq<Op>): (n: nat) {
    if ops == [] then 0
    else
      (if ops[0].Writing? && ops[0].write.purpose.ActiveSessionCompletion? then CriticalBytes(ops[0].write) else 0)
      + CompletionBytes(ops[1..])
  }

  lemma {:induction false} OnlyCompletionsSpend(db: Db, policy: Policy, ops: seq<Op>)
    requires ValidPolicy(policy) && WritesAndRetention(ops)
    ensures Spent(db, policy, ops) == CompletionBytes(ops)
    decreases |ops|
  {
    if ops != [] {
      assert ops[0] in ops;
      assert forall op | op in ops[1..] :: op in ops;
      OnlyCompletionsSpend(Step(db, policy, ops[0]), policy, ops[1..]);
    }
  }

  /** Among writes and retention passes only, completions totalling at most the reserve are never refused. */
  lemma ReserveServesCompletions(policy: Policy, ops: seq<Op>, w: Write)
    requires ValidPolicy(policy) && WritesAndRetention(ops)
    requires w.purpose.ActiveSessionCompletion?
    requires CompletionBytes(ops) + CriticalBytes(w) <= policy.reserve
    ensures PrepareWrite(Run(EMPTY, policy, ops), policy, w).Ok?
  {
    OnlyCompletionsSpend(EMPTY, policy, ops);
    CompletionsWithinReserveAreAdmitted(EMPTY, policy, ops, w);
  }

  // The reserve is not kept for completions alone ----------------------------------------------------

  function Retries(a: Attempt, n: nat): (ops: seq<Op>) {
    seq(n, i => Attempting(a))
  }

  function Repeat<T>(f: T -> T, x: T, n: nat): (r: T) {
    if n == 0 then x else Repeat(f, f(x), n - 1)
  }

  /** Each application adds the same and leaves the next one possible. */
  ghost predicate EachAdds<T(!new)>(f: T -> T, live: T -> bool, measure: T -> nat, bytes: nat) {
    forall y | live(y) :: live(f(y)) && measure(f(y)) == measure(y) + bytes
  }

  lemma {:induction false} RepeatAdds<T(!new)>(f: T -> T, x: T, n: nat, live: T -> bool, measure: T -> nat, bytes: nat)
    requires live(x) && EachAdds(f, live, measure, bytes)
    ensures measure(Repeat(f, x, n)) == measure(x) + n * bytes
    decreases n
  {
    if n > 0 {
      RepeatAdds(f, f(x), n - 1, live, measure, bytes);
    }
  }

  function Retry(a: Attempt): (f: Db -> Db) {
    (db: Db) => if RecordAttempt(db, a).Ok? then RecordAttempt(db, a).value else db
  }

  lemma RetryStep(db: Db, policy: Policy, a: Attempt)
    requires ValidPolicy(policy)
    ensures Step(db, policy, Attempting(a)) == Retry(a)(db)
  {
  }

  lemma {:induction false} RetriesRun(db: Db, policy: Policy, a: Attempt, n: nat)
    requires ValidPolicy(policy)
    ensures Run(db, policy, Retries(a, n)) == Repeat(Retry(a), db, n)
    decreases n
  {
    if n > 0 {
      var ops := Retries(a, n);
      assert ops[0] == Attempting(a) && ops[1..] == Retries(a, n - 1);
      RetryStep(db, policy, a);
      RetriesRun(Step(db, policy, Attempting(a)), policy, a, n - 1);
    }
  }

  function Live(deliveryId: Text): (p: Db -> bool) {
    (db: Db) => PendingId(db, deliveryId)
  }

  lemma RetryAdds(db: Db, a: Attempt)
    requires Live(a.deliveryId)(db) && a.resolution.RetryAt?
    ensures Live(a.deliveryId)(Retry(a)(db)) && FirmBytes(Retry(a)(db)) == FirmBytes(db) + SqlAttempt(a)
  {
    AttemptAdds(db, a);
    RetryStaysPending(db, a);
  }

  lemma EachRetryAdds(a: Attempt, retry: Db -> Db, live: Db -> bool, measure: Db -> nat)
    requires a.resolution.RetryAt? && retry == Retry(a) && live == Live(a.deliveryId) && measure == FirmBytes
    ensures EachAdds(retry, live, measure, SqlAttempt(a))
  {
    forall x: Db | live(x) ensures live(retry(x)) && measure(retry(x)) == measure(x) + SqlAttempt(a) {
      RetryAdds(x, a);
    }
  }

  lemma RetryStaysPending(db: Db, a: Attempt)
    requires PendingId(db, a.deliveryId) && a.resolution.RetryAt?
    ensures PendingId(RecordAttempt(db, a).value, a.deliveryId)
  {
    var i :| 0 <= i < |db.deliveries| && db.deliveries[i].row.deliveryId == a.deliveryId;
    var after := RecordAttempt(db, a).value;
    assert after.deliveries[i] in after.deliveries;
  }

  /** Attempt rows are written without a budget test: after `n` retries a completion gets what they left. */
  lemma RetriesUseUpReserve(db: Db, policy: Policy, a: Attempt, n: nat, w: Write)
    requires ValidPolicy(policy) && PendingId(db, a.deliveryId) && a.resolution.RetryAt?
    requires w.purpose.ActiveSessionCompletion?
    ensures PrepareWrite(Run(db, policy, Retries(a, n)), policy, w).Ok?
            <==> !MustFit(w) || FirmBytes(db) + n * SqlAttempt(a) + CriticalBytes(w) <= policy.budget
  {
    RetriesRun(db, policy, a, n);
    EachRetryAdds(a, Retry(a), Live(a.deliveryId), FirmBytes);
    RepeatAdds(Retry(a), db, n, Live(a.deliveryId), FirmBytes, SqlAttempt(a));
    AdmittedExactlyWhenFirmUsageFits(Run(db, policy, Retries(a, n)), policy, w);
  }

  function OneDelivery(): (w: Write) {
    Write(Routine, [], [NewDelivery(Destination("", 0), "", "", "", "", Critical, "")], [])
  }

  function OneEvent(): (w: Write) {
    Write(ActiveSessionCompletion, [Event("", "", 0, "", None)], [], [])
  }

  lemma OneWriteBytes()
    ensures CriticalBytes(OneDelivery()) == 40 && CriticalBytes(OneEvent()) == 24
  {
    var d := OneDelivery().deliveries[0];
    assert Filter([d], NewCriticalDelivery()) == [d] && [d][1..] == [];
    WriterMeasureIsQueryMeasure(OneEvent().events[0], Delivery(d, 0, None, 0, 0),
        Record(NewRecord("", Critical, "", "", None), 0));
    assert Sum([d], DeliveryBytes) == 40;
    assert OneEvent().events[1..] == [];
  }

  /** One routine write and two retries, no completion yet: the first completion within the reserve is refused. */
  lemma CompletionWithinReserveCanBeRefused()
    ensures var policy := Policy(100, 40);
            var retry := Attempt("", "", "", RetryAt(0, ""), None);
            var ops := [Writing(OneDelivery())] + Retries(retry, 2);
            && CompletionBytes(ops) + CriticalBytes(OneEvent()) <= policy.reserve
            && PrepareWrite(Run(EMPTY, policy, ops), policy, OneEvent()) == Err(CapacityExhausted)
  {
    var policy := Policy(100, 40);
    var retry := Attempt("", "", "", RetryAt(0, ""), None);
    var ops := [Writing(OneDelivery())] + Retries(retry, 2);
    OneWriteBytes();
    assert CompletionBytes(ops) == 0 by {
      assert ops[1..] == Retries(retry, 2) && ops[1..][1..] == Retries(retry, 1) && ops[1..][1..][1..] == [];
      assert CompletionBytes(Retries(retry, 1)) == 0;
    }
    var db := Step(EMPTY, policy, Writing(OneDelivery()));
    FirstDelivery(policy);
    assert ops[1..] == Retries(retry, 2);
    RetriesUseUpReserve(db, policy, retry, 2, OneEvent());
  }

  lemma CriticalFits(d: NewDelivery, remaining: nat)
    requires d.durability.Critical?
    ensures FittingDeliveries([d], remaining) == Fitting([d], remaining, 0)
  {
    assert [d][1..] == [] && FittingDeliveries([], remaining) == Fitting([], remaining, 0);
  }

  lemma FirstDelivery(policy: Policy)
    requires policy == Policy(100, 40)
    ensures var db := Step(EMPTY, policy, Writing(OneDelivery())); FirmBytes(db) == 40 && PendingId(db, "")
  {
    OneWriteBytes();
    AdmittedExactlyWhenFirmUsageFits(EMPTY, policy, OneDelivery());
    var p := PrepareWrite(EMPTY, policy, OneDelivery()).value;
    var d := OneDelivery().deliveries[0];
    CriticalFits(d, StartLimit(policy) - 40);
    assert p.write.deliveries == [d] && p.write.records == [] && [d][1..] == [];
    assert p.db.deliveries == [] && p.db.journal == [];
    var next := InsertDelivery(p.db, d).value;
    assert next.deliveries == [Enqueued(p.db, d)] && next.deliveries[0] in next.deliveries;
    assert InsertDeliveries(p.db, [d]) == Ok(next);
    assert WriteAtomic(EMPTY, policy, OneDelivery()) == Ok(next);
    UsageWithinLimit(EMPTY, policy, OneDelivery());
  }
}
