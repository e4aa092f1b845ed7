/**
 Committed-record streams: every retained record lies above the expired prefix and at or below the
 high-water mark, and the expired prefix is exactly the longest prefix of which nothing is left.
 */
module OutboxStreams {
  import opened Common
  import opened Sequences
  import opened Outbox
  import opened OutboxDispositions
  import opened OutboxDelivery

  function PositionOf(r: Record): (n: nat) { r.position }

  function Retained(db: Db, durability: Durability): (r: seq<Record>) {
    Filter(db.records, InStream(durability))
  }

  /** Nothing at or below `prefix` is left, and the next position is retained or was never issued. */
  ghost predicate LongestLostPrefix(stream: Stream, retained: seq<Record>, prefix: nat) {
    && prefix <= stream.highWater
    && (forall r | r in retained :: prefix < r.position)
    && (prefix == stream.highWater || exists r | r in retained :: r.position == prefix + 1)
  }

  ghost predicate ExactStream(stream: Stream, retained: seq<Record>) {
    && Ascending(retained, PositionOf)
    && (forall r | r in retained :: r.position <= stream.highWater)
    && LongestLostPrefix(stream, retained, stream.expiredPrefix)
  }

  ghost predicate Exact(db: Db) {
    ExactStream(db.critical, Retained(db, Critical)) && ExactStream(db.bestEffort, Retained(db, BestEffort))
  }

  ghost predicate Advanced(was: Stream, now: Stream) {
    was.highWater <= now.highWater && was.expiredPrefix <= now.expiredPrefix
  }

  ghost predicate StreamsAdvanced(was: Db, now: Db) {
    Advanced(was.critical, now.critical) && Advanced(was.bestEffort, now.bestEffort)
  }

  /** The longest lost prefix is unique, so `expiredPrefix` is determined by what is retained. */
  lemma LongestIsUnique(stream: Stream, retained: seq<Record>, a: nat, b: nat)
    requires LongestLostPrefix(stream, retained, a) && LongestLostPrefix(stream, retained, b)
    ensures a == b
  {
  }

  lemma RemovalStaysExact(stream: Stream, retained: seq<Record>, keep: Record -> bool)
    requires ExactStream(stream, retained)
    ensures ExactStream(Advance(stream, Filter(retained, keep)), Filter(retained, keep))
    ensures Advanced(stream, Advance(stream, Filter(retained, keep)))
  {
    FilterAscending(retained, keep, PositionOf);
    var kept := Filter(retained, keep);
    if kept != [] {
      assert Oldest(kept) in retained;
    }
  }

  /** Removing any records and then moving the prefixes keeps both streams exact. */
  lemma PruningStaysExact(db: Db, keep: Record -> bool)
    requires Exact(db)
    ensures var after := UpdateSourcePrefix(db.(records := Filter(db.records, keep)));
            Exact(after) && StreamsAdvanced(db, after)
  {
    FilterCommutes(db.records, keep, InStream(Critical));
    FilterCommutes(db.records, keep, InStream(BestEffort));
    RemovalStaysExact(db.critical, Retained(db, Critical), keep);
    RemovalStaysExact(db.bestEffort, Retained(db, BestEffort), keep);
  }

  lemma InsertionStaysExactIn(stream: Stream, retained: seq<Record>, n: NewRecord)
    requires ExactStream(stream, retained)
    ensures ExactStream(stream.(highWater := stream.highWater + 1), retained + [Record(n, stream.highWater + 1)])
  {
    var added := Record(n, stream.highWater + 1);
    var after := retained + [added];
    forall i, j | 0 <= i < j < |after| ensures PositionOf(after[i]) < PositionOf(after[j]) {
      assert i < |retained| && after[i] == retained[i];
      if j < |retained| {
        assert PositionOf(retained[i]) < PositionOf(retained[j]);
      } else {
        assert retained[i] in retained;
      }
    }
    if stream.expiredPrefix == stream.highWater {
      assert added in after && added.position == stream.expiredPrefix + 1;
    } else {
      var next :| next in retained && next.position == stream.expiredPrefix + 1;
      assert next in after;
    }
  }

  lemma RetainedAfterInsertion(records: seq<Record>, added: Record, durability: Durability)
    ensures Filter(records + [added], InStream(durability))
            == Filter(records, InStream(durability)) + (if added.row.durability == durability then [added] else [])
  {
    FilterAppend(records, [added], InStream(durability));
    assert Filter([added], InStream(durability)) == if added.row.durability == durability then [added] else [];
  }

  lemma CriticalInserted(db: Db, after: Db, n: NewRecord)
    requires Exact(db) && n.durability.Critical?
    requires after.records == db.records + [Record(n, db.critical.highWater + 1)]
    requires after.critical == db.critical.(highWater := db.critical.highWater + 1) && after.bestEffort == db.bestEffort
    ensures Exact(after)
  {
    var added := Record(n, db.critical.highWater + 1);
    RetainedAfterInsertion(db.records, added, Critical);
    RetainedAfterInsertion(db.records, added, BestEffort);
    assert Retained(after, BestEffort) == Retained(db, BestEffort);
    assert Retained(after, Critical) == Retained(db, Critical) + [added];
    InsertionStaysExactIn(db.critical, Retained(db, Critical), n);
  }

  lemma BestEffortInserted(db: Db, after: Db, n: NewRecord)
    requires Exact(db) && n.durability.BestEffort?
    requires after.records == db.records + [Record(n, db.bestEffort.highWater + 1)]
    requires after.bestEffort == db.bestEffort.(highWater := db.bestEffort.highWater + 1)
             && after.critical == db.critical
    ensures Exact(after)
  {
    var added := Record(n, db.bestEffort.highWater + 1);
    RetainedAfterInsertion(db.records, added, Critical);
    RetainedAfterInsertion(db.records, added, BestEffort);
    assert Retained(after, Critical) == Retained(db, Critical);
    assert Retained(after, BestEffort) == Retained(db, BestEffort) + [added];
    InsertionStaysExactIn(db.bestEffort, Retained(db, BestEffort), n);
  }

  lemma InsertionStaysExact(db: Db, n: NewRecord)
    requires Exact(db) && InsertRecord(db, n).Ok?
    ensures Exact(InsertRecord(db, n).value) && StreamsAdvanced(db, InsertRecord(db, n).value)
  {
    if n.durability.Critical? {
      CriticalInserted(db, InsertRecord(db, n).value, n);
    } else {
      BestEffortInserted(db, InsertRecord(db, n).value, n);
    }
  }

  lemma {:induction false} InsertionsStayExact(db: Db, records: seq<NewRecord>)
    requires Exact(db) && InsertRecords(db, records).Ok?
    ensures Exact(InsertRecords(db, records).value) && StreamsAdvanced(db, InsertRecords(db, records).value)
    decreases |records|
  {
    if records != [] {
      InsertionStaysExact(db, records[0]);
      InsertionsStayExact(InsertRecord(db, records[0]).value, records[1..]);
    }
  }

  lemma PreparedStaysExact(db: Db, policy: Policy, w: Write)
    requires ValidPolicy(policy) && Exact(db) && PrepareWrite(db, policy, w).Ok?
    ensures Exact(PrepareWrite(db, policy, w).value.db) && StreamsAdvanced(db, PrepareWrite(db, policy, w).value.db)
  {
    PruningStaysExact(db, CriticalRecord());
  }

  lemma WriteStaysExact(db: Db, policy: Policy, w: Write)
    requires ValidPolicy(policy) && Exact(db) && WriteAtomic(db, policy, w).Ok?
    ensures Exact(WriteAtomic(db, policy, w).value) && StreamsAdvanced(db, WriteAtomic(db, policy, w).value)
  {
    PreparedStaysExact(db, policy, w);
    var p := PrepareWrite(db, policy, w).value;
    EventsLeaveDeliveries(p.db, p.write.events);
    var a := InsertEvents(p.db, p.write.events).value;
    EnqueuedRows(a, p.write.deliveries);
    InsertionsStayExact(InsertDeliveries(a, p.write.deliveries).value, p.write.records);
  }

  lemma MaintenanceStaysExact(db: Db, now: Time)
    requires Exact(db)
    ensures Exact(Maintain(db, now)) && StreamsAdvanced(db, Maintain(db, now))
  {
    PruningStaysExact(db, KeepsRecord(now));
  }

  lemma UntouchedStaysExact(db: Db, after: Db)
    requires Exact(db)
    requires after.records == db.records && after.critical == db.critical && after.bestEffort == db.bestEffort
    ensures Exact(after) && StreamsAdvanced(db, after)
  {
  }

  lemma StepStaysExact(db: Db, policy: Policy, op: Op)
    requires ValidPolicy(policy) && Exact(db)
    ensures Exact(Step(db, policy, op)) && StreamsAdvanced(db, Step(db, policy, op))
  {
    var after := Step(db, policy, op);
    match op
    case Writing(w) =>
      if WriteAtomic(db, policy, w).Ok? {
        WriteStaysExact(db, policy, w);
      } else {
        UntouchedStaysExact(db, after);
      }
    case Maintaining(now) => MaintenanceStaysExact(db, now);
    case Attempting(_) => UntouchedStaysExact(db, after);
    case Authorizing(_, _, _, _) => UntouchedStaysExact(db, after);
    case Settling(selected, at) =>
      SettlingFrame(db, selected, at);
      UntouchedStaysExact(db, after);
  }

  /**
   In every reachable state positions lie in (expired prefix, high water], the expired prefix is
   exactly the longest fully lost one, and neither mark ever moves back.
   */
  lemma {:induction false} StreamsExactOverRuns(db: Db, policy: Policy, ops: seq<Op>)
    requires ValidPolicy(policy) && Exact(db)
    ensures Exact(Run(db, policy, ops)) && StreamsAdvanced(db, Run(db, policy, ops))
    decreases |ops|
  {
    if ops != [] {
      StepStaysExact(db, policy, ops[0]);
      StreamsExactOverRuns(Step(db, policy, ops[0]), policy, ops[1..]);
    }
  }

  /** Where every run of a new store starts. */
  lemma EmptyStoreIsSound()
    ensures Sound(EMPTY) && Counted(EMPTY) && Exact(EMPTY)
  {
  }
}
