/** The tables themselves, updated in place: every transaction is proved against its specification. */
module OutboxStore {
  import opened Common
  import opened Sequences
  import opened Outbox

  /** Drop best-effort deliveries that do not fit, in order. */
  method RetainFittingDeliveries(values: seq<NewDelivery>, room: nat)
    returns (kept: seq<NewDelivery>, remaining: nat, dropped: nat)
    ensures Fitting(kept, remaining, dropped) == FittingDeliveries(values, room)
  {
    kept, remaining, dropped := [], room, 0;
    for i := 0 to |values|
      invariant var rest := FittingDeliveries(values[i..], remaining);
                FittingDeliveries(values, room) == Fitting(kept + rest.kept, rest.remaining, dropped + rest.dropped)
    {
      assert values[i..][1..] == values[i + 1..];
      ghost var before := kept;
      var bytes := DeliveryBytes(values[i]);
      if values[i].durability.Critical? {
        kept := kept + [values[i]];
      } else if bytes <= remaining {
        remaining := remaining - bytes;
        kept := kept + [values[i]];
      } else {
        dropped := dropped + 1;
      }
      ghost var rest := FittingDeliveries(values[i + 1..], remaining);
      assert before + ([values[i]] + rest.kept) == (before + [values[i]]) + rest.kept;
    }
    assert values[|values|..] == [];
    assert kept + [] == kept;
  }

  /** Drop best-effort records that do not fit, in order. */
  method RetainFittingRecords(values: seq<NewRecord>, room: nat)
    returns (kept: seq<NewRecord>, remaining: nat, dropped: nat)
    ensures Fitting(kept, remaining, dropped) == FittingRecords(values, room)
  {
    kept, remaining, dropped := [], room, 0;
    for i := 0 to |values|
      invariant var rest := FittingRecords(values[i..], remaining);
                FittingRecords(values, room) == Fitting(kept + rest.kept, rest.remaining, dropped + rest.dropped)
    {
      assert values[i..][1..] == values[i + 1..];
      ghost var before := kept;
      var bytes := RecordBytes(values[i]);
      if values[i].durability.Critical? {
        kept := kept + [values[i]];
      } else if bytes <= remaining {
        remaining := remaining - bytes;
        kept := kept + [values[i]];
      } else {
        dropped := dropped + 1;
      }
      ghost var rest := FittingRecords(values[i + 1..], remaining);
      assert before + ([values[i]] + rest.kept) == (before + [values[i]]) + rest.kept;
    }
    assert values[|values|..] == [];
    assert kept + [] == kept;
  }

  lemma SettleNext(db: Db, pending: seq<Disposition>, i: nat, selected: Option<Destination>, at: Text)
    requires i < |pending|
    ensures SettleEach(db, pending[i..], selected, at)
            == SettleEach(SettleOne(db, pending[i], selected, at), pending[i + 1..], selected, at)
  {
    assert pending[i..][1..] == pending[i + 1..];
  }

  class OutboxTables {
    var journal: seq<Event>
    var deliveries: seq<Delivery>
    var attempts: seq<Attempt>
    var records: seq<Record>
    var critical: Stream
    var bestEffort: Stream
    var dispositions: seq<Disposition>
    var archive: seq<Archived>
    var stats: Stats
    var enqueued: nat

    function Contents(): (db: Db)
      reads this
    {
      Db(journal, deliveries, attempts, records, critical, bestEffort, dispositions, archive, stats, enqueued)
    }

    constructor ()
      ensures Contents() == EMPTY
    {
      journal, deliveries, attempts, records := [], [], [], [];
      critical, bestEffort := Stream(0, 0), Stream(0, 0);
      dispositions, archive := [], [];
      stats, enqueued := Stats(0, 0, 0, 0), 0;
    }

    method Restore(db: Db)
      modifies this
      ensures Contents() == db
    {
      journal, deliveries, attempts, records := db.journal, db.deliveries, db.attempts, db.records;
      critical, bestEffort := db.critical, db.bestEffort;
      dispositions, archive := db.dispositions, db.archive;
      stats, enqueued := db.stats, db.enqueued;
    }

    method MoveSourcePrefix()
      modifies this`critical, this`bestEffort
      ensures Contents() == UpdateSourcePrefix(old(Contents()))
    {
      critical := Advance(critical, Filter(records, InStream(Critical)));
      bestEffort := Advance(bestEffort, Filter(records, InStream(BestEffort)));
    }

    method ShedExistingBestEffort()
      modifies this
      ensures Contents() == ShedBestEffort(old(Contents()))
    {
      var telemetry := |records|;
      records := Filter(records, CriticalRecord());
      telemetry := telemetry - |records|;
      MoveSourcePrefix();
      var shed := |deliveries|;
      deliveries := Filter(deliveries, CriticalDelivery());
      shed := shed - |deliveries|;
      stats := stats.(droppedTelemetry := stats.droppedTelemetry + telemetry,
          droppedDeliveries := stats.droppedDeliveries + shed);
    }

    method Trim(w: Write, room: nat) returns (r: Write)
      modifies this`stats
      ensures Prepared(Contents(), r) == Trimmed(old(Contents()), w, room)
    {
      var fittingDeliveries, remaining, droppedDeliveries := RetainFittingDeliveries(w.deliveries, room);
      var fittingRecords, _, droppedRecords := RetainFittingRecords(w.records, remaining);
      stats := stats.(droppedDeliveries := stats.droppedDeliveries + droppedDeliveries);
      stats := stats.(droppedTelemetry := stats.droppedTelemetry + droppedRecords);
      r := w.(deliveries := fittingDeliveries, records := fittingRecords);
    }

    /** Make room for a write, trim its best-effort rows, or refuse it. */
    method Prepare(policy: Policy, w: Write) returns (r: Result<Write>)
      requires ValidPolicy(policy)
      modifies this
      ensures var spec := PrepareWrite(old(Contents()), policy, w);
              r.Ok? == spec.Ok? && (r.Ok? ==> spec.value == Prepared(Contents(), r.value))
      ensures r.Err? ==> r.error == CapacityExhausted
    {
      var limit := Limit(policy, w.purpose);
      var need := CriticalBytes(w);
      var used := UsedBytes(Contents());
      var mustFit := MustFit(w);
      if mustFit && used + need > limit {
        ShedExistingBestEffort();
        used := UsedBytes(Contents());
      }
      assert Contents() == Sheltered(old(Contents()), policy, w);
      if mustFit && used + need > limit {
        return Err(CapacityExhausted);
      }
      var trimmed := Trim(w, if used + need <= limit then limit - (used + need) else 0);
      return Ok(trimmed);
    }

    method WriteEvents(events: seq<Event>) returns (ok: bool)
      modifies this
      ensures var spec := InsertEvents(old(Contents()), events);
              ok == spec.Ok? && (ok ==> Contents() == spec.value)
    {
      for i := 0 to |events|
        invariant InsertEvents(old(Contents()), events) == InsertEvents(Contents(), events[i..])
      {
        assert events[i..][1..] == events[i + 1..];
        var r := InsertEvent(Contents(), events[i]);
        if r.Err? {
          return false;
        }
        journal := journal + [events[i]];
      }
      return true;
    }

    method WriteDeliveries(values: seq<NewDelivery>) returns (ok: bool)
      modifies this
      ensures var spec := InsertDeliveries(old(Contents()), values);
              ok == spec.Ok? && (ok ==> Contents() == spec.value)
    {
      for i := 0 to |values|
        invariant InsertDeliveries(old(Contents()), values) == InsertDeliveries(Contents(), values[i..])
      {
        assert values[i..][1..] == values[i + 1..];
        var r := InsertDelivery(Contents(), values[i]);
        if r.Err? {
          return false;
        }
        deliveries, enqueued := deliveries + [Enqueued(Contents(), values[i])], enqueued + 1;
      }
      return true;
    }

    method WriteRecord(value: NewRecord) returns (ok: bool)
      modifies this`records, this`critical, this`bestEffort
      ensures var spec := InsertRecord(old(Contents()), value);
              ok == spec.Ok? && (ok ==> Contents() == spec.value)
    {
      var highWater := if value.durability.Critical? then critical.highWater else bestEffort.highWater;
      if highWater >= I64_MAX || exists x | x in records :: x.row.recordId == value.recordId {
        return false;
      }
      if value.durability.Critical? {
        critical := critical.(highWater := critical.highWater + 1);
        records := records + [Record(value, critical.highWater)];
      } else {
        bestEffort := bestEffort.(highWater := bestEffort.highWater + 1);
        records := records + [Record(value, bestEffort.highWater)];
      }
      return true;
    }

    method WriteRecords(values: seq<NewRecord>) returns (ok: bool)
      modifies this
      ensures var spec := InsertRecords(old(Contents()), values);
              ok == spec.Ok? && (ok ==> Contents() == spec.value)
    {
      for i := 0 to |values|
        invariant InsertRecords(old(Contents()), values) == InsertRecords(Contents(), values[i..])
      {
        assert values[i..][1..] == values[i + 1..];
        ok := WriteRecord(values[i]);
        if !ok {
          return;
        }
      }
      ok := true;
    }

    /** One transaction: everything is written, or nothing changes. */
    method WriteAll(policy: Policy, w: Write) returns (ok: bool)
      requires ValidPolicy(policy)
      modifies this
      ensures var spec := WriteAtomic(old(Contents()), policy, w);
              ok == spec.Ok? && Contents() == (if ok then spec.value else old(Contents()))
    {
      var saved := Contents();
      var prepared := Prepare(policy, w);
      ok := prepared.Ok?;
      if ok {
        ok := WriteEvents(prepared.value.events);
      }
      if ok {
        ok := WriteDeliveries(prepared.value.deliveries);
      }
      if ok {
        ok := WriteRecords(prepared.value.records);
      }
      if !ok {
        Restore(saved);
      }
    }

    method RunRetention(now: Time)
      modifies this
      ensures Contents() == Maintain(old(Contents()), now)
    {
      var events, tries := |journal|, |attempts|;
      var keepsEvent, keepsAttempt := KeepsEvent(Contents(), now), KeepsAttempt(Contents(), now);
      assert KeepsEvent(old(Contents()), now) == keepsEvent && KeepsAttempt(old(Contents()), now) == keepsAttempt;
      journal := Filter(journal, keepsEvent);
      attempts := Filter(attempts, keepsAttempt);
      records := Filter(records, KeepsRecord(now));
      MoveSourcePrefix();
      stats := stats.(prunedEvents := stats.prunedEvents + (events - |journal|));
      stats := stats.(prunedAttempts := stats.prunedAttempts + (tries - |attempts|));
    }

    method Report(a: Attempt) returns (ok: bool)
      modifies this`attempts, this`deliveries
      ensures var spec := RecordAttempt(old(Contents()), a);
              ok == spec.Ok? && Contents() == (if ok then spec.value else old(Contents()))
    {
      if !PendingId(Contents(), a.deliveryId) {
        return false;
      }
      attempts := attempts + [a];
      if a.resolution.Final? {
        deliveries := Filter(deliveries, Not(HasDeliveryId(a.deliveryId)));
      } else {
        deliveries := RetriedAll(deliveries, a.deliveryId, a.resolution.at);
      }
      return true;
    }

    method AuthorizeDisposition(destination: Destination, action: Action, principal: Text, auditId: Text)
        returns (r: Result<Disposition>)
      modifies this`dispositions
      ensures var spec := Authorize(old(Contents()), destination, action, principal, auditId);
              && Contents() == (if spec.Ok? then spec.value else old(Contents()))
              && r == (if spec.Ok? then Ok(Disposition(auditId, destination, action, principal, Authorized))
                       else Err(spec.error))
    {
      if CriticalCount(Contents(), destination) == 0 {
        return Err(Conflict);
      }
      if Filter(dispositions, AuthorizedFor(destination)) != [] {
        return Err(Conflict);
      }
      if |Filter(dispositions, IsAuthorized)| >= MAX_PENDING {
        return Err(CapacityExhausted);
      }
      if exists d | d in dispositions :: d.auditId == auditId {
        return Err(Unavailable);
      }
      var added := Disposition(auditId, destination, action, principal, Authorized);
      dispositions := dispositions + [added];
      return Ok(added);
    }

    method ExecuteDisposition(d: Disposition, at: Text)
      modifies this`archive, this`deliveries, this`dispositions
      ensures Contents() == Execute(old(Contents()), d, at)
    {
      var critical, total := CriticalCount(Contents(), d.destination), TotalCount(Contents(), d.destination);
      if d.action.Archive? {
        archive := archive + ArchivedRows(Filter(deliveries, SentTo(d.destination)), d.auditId, at);
      }
      deliveries := Filter(deliveries, Not(SentTo(d.destination)));
      dispositions := Marked(dispositions, d.auditId, Executed(critical, total));
    }

    method SettleDisposition(d: Disposition, selected: Option<Destination>, at: Text)
      modifies this`archive, this`deliveries, this`dispositions
      ensures Contents() == SettleOne(old(Contents()), d, selected, at)
    {
      if selected == Some(d.destination) {
        dispositions := Marked(dispositions, d.auditId, Superseded);
      } else {
        ExecuteDisposition(d, at);
      }
    }

    method SettleDispositions(selected: Option<Destination>, at: Text)
      modifies this`archive, this`deliveries, this`dispositions
      ensures Contents() == Settle(old(Contents()), selected, at)
    {
      var pending := Take(Filter(dispositions, IsAuthorized), MAX_PENDING);
      for i := 0 to |pending|
        invariant SettleEach(old(Contents()), pending, selected, at)
                  == SettleEach(Contents(), pending[i..], selected, at)
      {
        SettleNext(Contents(), pending, i, selected, at);
        SettleDisposition(pending[i], selected, at);
      }
    }
  }
}
