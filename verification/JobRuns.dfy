/**
 The job ledgers over whole runs: revisions are never reissued, a station has one request in flight
 and a bounded history, and the two families' part of the release inventory is exactly their
 unresolved jobs unless a drain operation names one of them.
 */
module JobRuns {
  import opened Common
  import opened Sequences
  import opened JobLedger

  // Rewriting rows -----------------------------------------------------------------------------------

  /** Same rows by key, whatever their contents. */
  ghost predicate SameKeys(a: seq<Job>, b: seq<Job>) {
    |a| == |b| && forall i | 0 <= i < |a| :: SameRow(a[i], b[i]) && IdOf(a[i]) == IdOf(b[i])
  }

  lemma {:induction false} SameCounts(a: seq<Job>, b: seq<Job>, owner: Owner)
    requires SameKeys(a, b)
    ensures |Filter(a, OwnedBy(owner))| == |Filter(b, OwnedBy(owner))|
  {
    if a != [] {
      SameCounts(a[1..], b[1..], owner);
    }
  }

  lemma SameKeysKeep(a: seq<Job>, b: seq<Job>)
    requires SameKeys(a, b) && Keyed(a) && Bounded(a)
    ensures Keyed(b) && Bounded(b)
  {
    forall i, j | 0 <= i < j < |b| ensures IdOf(b[i]) != IdOf(b[j]) {
      assert IdOf(a[i]) != IdOf(a[j]);
    }
    forall owner: Owner ensures |Filter(b, OwnedBy(owner))| <= MAX_JOBS {
      SameCounts(a, b, owner);
    }
  }

  lemma OneRow(jobs: seq<Job>, a: Job, b: Job)
    requires Keyed(jobs) && a in jobs && b in jobs && (SameRow(a, b) || IdOf(a) == IdOf(b))
    ensures a == b
  {
    var i :| 0 <= i < |jobs| && jobs[i] == a;
    var j :| 0 <= j < |jobs| && jobs[j] == b;
  }

  // Saving -------------------------------------------------------------------------------------------

  lemma SaveKeepsKeys(l: Ledger, record: Job, inflight: Option<bool>)
    requires Save(l, record, inflight).Ok?
    ensures SameKeys(l.jobs, Save(l, record, inflight).value.jobs)
  {
  }

  lemma SaveKeepsOneInFlight(l: Ledger, record: Job, inflight: Option<bool>)
    requires Keyed(l.jobs) && OneInFlight(l.jobs) && Save(l, record, inflight).Ok?
    ensures OneInFlight(Save(l, record, inflight).value.jobs)
  {
    var after := Save(l, record, inflight).value.jobs;
    forall i, j | 0 <= i < j < |after| && after[i].owner == after[j].owner
      ensures !(after[i].inflight && after[j].inflight)
    {
      var a, b := l.jobs[i], l.jobs[j];
      assert a in l.jobs && b in l.jobs && !(a.inflight && b.inflight) && a.revision < b.revision;
      NotBothInFlight(l, record, inflight, a, b);
    }
  }

  lemma NotBothInFlight(l: Ledger, record: Job, inflight: Option<bool>, a: Job, b: Job)
    requires Save(l, record, inflight).Ok? && a in l.jobs && b in l.jobs
    requires a.owner == b.owner && a.revision != b.revision && !(a.inflight && b.inflight)
    ensures !(Rewritten(a, record, inflight).inflight && Rewritten(b, record, inflight).inflight)
  {
  }

  /** The row a record is saved over. */
  ghost predicate Backed(l: Ledger, record: Job, row: Job) {
    row in l.jobs && SameRow(row, record) && IdOf(row) == IdOf(record)
  }

  lemma SavedRows(l: Ledger, record: Job, inflight: Option<bool>, row: Job)
    requires Keyed(l.jobs) && Backed(l, record, row) && Save(l, record, inflight).Ok?
    ensures var after := Save(l, record, inflight).value.jobs;
            && Rewritten(row, record, inflight) in after
            && (forall j | j in after :: j == Rewritten(row, record, inflight) || (j in l.jobs && !SameRow(j, record)))
            && (forall j | j in l.jobs && !SameRow(j, record) :: j in after)
  {
    var after := Save(l, record, inflight).value.jobs;
    var k :| 0 <= k < |l.jobs| && l.jobs[k] == row;
    assert after[k] == Rewritten(row, record, inflight);
    forall j | j in after ensures j == Rewritten(row, record, inflight) || (j in l.jobs && !SameRow(j, record)) {
      var i :| 0 <= i < |after| && after[i] == j;
      assert l.jobs[i] in l.jobs;
      if SameRow(l.jobs[i], record) {
        OneRow(l.jobs, l.jobs[i], row);
      }
    }
    forall j | j in l.jobs && !SameRow(j, record) ensures j in after {
      var i :| 0 <= i < |l.jobs| && l.jobs[i] == j;
      assert after[i] == j;
    }
  }

  /** Saving keeps the inventory exact unless it reopens a resolved job, and then never does. */
  lemma SaveKeepsInventoryExactlyUnlessReopened(l: Ledger, record: Job, inflight: Option<bool>, row: Job)
    requires Keyed(l.jobs) && ExactInventory(l) && Backed(l, record, row) && Save(l, record, inflight).Ok?
    ensures ExactInventory(Save(l, record, inflight).value) <==> !(Resolved(row.state) && !Resolved(record.state))
  {
    var after := Save(l, record, inflight).value;
    SavedRows(l, record, inflight, row);
    var saved := Rewritten(row, record, inflight);
    forall j | j in l.jobs && j != row ensures IdOf(j) != IdOf(row) && !SameRow(j, row) {
      if IdOf(j) == IdOf(row) || SameRow(j, row) {
        OneRow(l.jobs, j, row);
      }
    }
    if Resolved(row.state) && !Resolved(record.state) {
      assert IdOf(row) !in l.inventory;
      assert saved in after.jobs && !Resolved(saved.state) && IdOf(saved) !in after.inventory;
    } else {
      forall id | id in after.inventory && id.JobId?
        ensures exists j | j in after.jobs :: IdOf(j) == id && !Resolved(j.state)
      {
        var j :| j in l.jobs && IdOf(j) == id && !Resolved(j.state);
        if j == row {
          assert saved in after.jobs && IdOf(saved) == id;
        } else {
          assert j in after.jobs;
        }
      }
    }
  }

  /** `after` has sound rows, and an inventory in order stays in order. */
  ghost predicate Keeps(l: Ledger, after: Ledger) {
    RowsOk(after.jobs) && (InventoryOk(l) ==> InventoryOk(after))
  }

  lemma SaveKeepsInventory(l: Ledger, record: Job, inflight: Option<bool>, row: Job)
    requires Keyed(l.jobs) && InventoryOk(l) && Backed(l, record, row) && Save(l, record, inflight).Ok?
    requires Resolved(row.state) ==> Resolved(record.state)
    ensures InventoryOk(Save(l, record, inflight).value)
  {
    SaveKeepsInventoryExactlyUnlessReopened(l, record, inflight, row);
    SubsetCount(Save(l, record, inflight).value.inventory, l.inventory);
  }

  lemma SaveKeepsSound(l: Ledger, record: Job, inflight: Option<bool>, row: Job)
    requires RowsOk(l.jobs) && Backed(l, record, row) && Save(l, record, inflight).Ok?
    requires Resolved(row.state) ==> Resolved(record.state)
    ensures Keeps(l, Save(l, record, inflight).value)
  {
    SaveKeepsKeys(l, record, inflight);
    SameKeysKeep(l.jobs, Save(l, record, inflight).value.jobs);
    SaveKeepsOneInFlight(l, record, inflight);
    if InventoryOk(l) {
      SaveKeepsInventory(l, record, inflight, row);
    }
  }

  // Passes over a station ----------------------------------------------------------------------------

  /** Records still to be handled: each has its row, with the state it was read with. */
  ghost predicate Current(l: Ledger, records: seq<Job>) {
    && (forall i, j | 0 <= i < j < |records| :: !SameRow(records[i], records[j]))
    && (forall r | r in records ::
          exists row | row in l.jobs :: SameRow(row, r) && IdOf(row) == IdOf(r) && row.state == r.state)
  }

  lemma CurrentTail(l: Ledger, records: seq<Job>)
    requires records != [] && Current(l, records)
    ensures Current(l, records[1..])
  {
    assert forall r | r in records[1..] :: r in records;
  }

  lemma CurrentHead(l: Ledger, records: seq<Job>) returns (row: Job)
    requires records != [] && Current(l, records)
    ensures Backed(l, records[0], row) && row.state == records[0].state
  {
    assert records[0] in records;
    row :| row in l.jobs && SameRow(row, records[0]) && IdOf(row) == IdOf(records[0]) && row.state == records[0].state;
  }

  lemma CurrentAfterSave(l: Ledger, records: seq<Job>, record: Job, inflight: Option<bool>, row: Job)
    requires Keyed(l.jobs) && records != [] && Current(l, records) && SameRow(record, records[0])
    requires Backed(l, record, row) && Save(l, record, inflight).Ok?
    ensures Current(Save(l, record, inflight).value, records[1..])
  {
    SavedRows(l, record, inflight, row);
    var after := Save(l, record, inflight).value;
    forall r | r in records[1..]
      ensures exists x | x in after.jobs :: SameRow(x, r) && IdOf(x) == IdOf(r) && x.state == r.state
    {
      var k :| 0 <= k < |records[1..]| && records[1..][k] == r;
      assert records[k + 1] == r && r in records;
      var x :| x in l.jobs && SameRow(x, r) && IdOf(x) == IdOf(r) && x.state == r.state;
      assert !SameRow(x, record);
      assert x in after.jobs;
    }
  }

  lemma ReadIsCurrent(l: Ledger, owner: Owner)
    requires Keyed(l.jobs)
    ensures Current(l, Filter(l.jobs, OwnedBy(owner)))
  {
    FilterKeepsKeys(l.jobs, OwnedBy(owner));
    var records := Filter(l.jobs, OwnedBy(owner));
    forall r | r in records
      ensures exists row | row in l.jobs :: SameRow(row, r) && IdOf(row) == IdOf(r) && row.state == r.state
    {
      assert r in l.jobs && SameRow(r, r);
    }
  }

  lemma {:induction false} FilterKeepsKeys(jobs: seq<Job>, keep: Job -> bool)
    requires Keyed(jobs)
    ensures Keyed(Filter(jobs, keep))
  {
    if jobs != [] {
      var first, rest := jobs[0], jobs[1..];
      FilterKeepsKeys(rest, keep);
      forall x | x in rest ensures IdOf(x) != IdOf(first) && (x.owner == first.owner ==> first.revision < x.revision) {
        var k :| 0 <= k < |rest| && rest[k] == x;
        assert jobs[k + 1] == x;
      }
      KeyedCons(first, Filter(rest, keep));
    }
  }

  lemma KeyedCons(first: Job, rest: seq<Job>)
    requires Keyed(rest)
    requires forall x | x in rest :: IdOf(x) != IdOf(first) && (x.owner == first.owner ==> first.revision < x.revision)
    ensures Keyed([first] + rest)
  {
    var all := [first] + rest;
    assert forall i | 0 < i < |all| :: all[i] == rest[i - 1] && all[i] in rest;
  }

  lemma {:induction false} ExpiringKeepsSound(l: Ledger, records: seq<Job>, now: int)
    requires RowsOk(l.jobs) && Current(l, records) && ExpireEach(l, records, now).Ok?
    ensures Keeps(l, ExpireEach(l, records, now).value) && SameKeys(l.jobs, ExpireEach(l, records, now).value.jobs)
    decreases |records|
  {
    if records != [] {
      if !Overdue(records[0], now) {
        CurrentTail(l, records);
        ExpiringKeepsSound(l, records[1..], now);
      } else {
        var record := records[0].(state := TimedOut);
        var row := CurrentHead(l, records);
        SaveKeepsSound(l, record, None, row);
        SaveKeepsKeys(l, record, None);
        CurrentAfterSave(l, records, record, None, row);
        ExpiringKeepsSound(Save(l, record, None).value, records[1..], now);
      }
    }
  }

  lemma {:induction false} RetiringKeepsSound(l: Ledger, records: seq<Job>, below: nat, outcome: JobLedger.Outcome)
    requires RowsOk(l.jobs) && Current(l, records) && RetireEach(l, records, below, outcome).Ok?
    ensures Keeps(l, RetireEach(l, records, below, outcome).value)
    ensures SameKeys(l.jobs, RetireEach(l, records, below, outcome).value.jobs)
    decreases |records|
  {
    if records != [] {
      if records[0].revision >= below || Resolved(records[0].state) {
        CurrentTail(l, records);
        RetiringKeepsSound(l, records[1..], below, outcome);
      } else {
        var record := records[0].(state := Done(outcome));
        var row := CurrentHead(l, records);
        SaveKeepsSound(l, record, Some(false), row);
        SaveKeepsKeys(l, record, Some(false));
        CurrentAfterSave(l, records, record, Some(false), row);
        RetiringKeepsSound(Save(l, record, Some(false)).value, records[1..], below, outcome);
      }
    }
  }

  /** Rows from the answered request on are left as they are. */
  lemma {:induction false} RetiringKeepsNewer(l: Ledger, records: seq<Job>, below: nat, outcome: JobLedger.Outcome,
      j: Job)
    requires RetireEach(l, records, below, outcome).Ok? && j in l.jobs && j.revision >= below
    ensures j in RetireEach(l, records, below, outcome).value.jobs
    decreases |records|
  {
    if records != [] {
      if records[0].revision >= below || Resolved(records[0].state) {
        RetiringKeepsNewer(l, records[1..], below, outcome, j);
      } else {
        var record := records[0].(state := Done(outcome));
        var next := Save(l, record, Some(false)).value;
        var i :| 0 <= i < |l.jobs| && l.jobs[i] == j;
        assert next.jobs[i] == j;
        RetiringKeepsNewer(next, records[1..], below, outcome, j);
      }
    }
  }

  lemma {:induction false} RecoveringKeepsSound(l: Ledger, records: seq<Job>)
    requires RowsOk(l.jobs) && Current(l, records) && RecoverEach(l, records).Ok?
    ensures Keeps(l, RecoverEach(l, records).value) && SameKeys(l.jobs, RecoverEach(l, records).value.jobs)
    decreases |records|
  {
    if records != [] {
      if Resolved(records[0].state) {
        CurrentTail(l, records);
        RecoveringKeepsSound(l, records[1..]);
      } else {
        var record := records[0].(state := Recovered(records[0].state, records[0].started));
        var row := CurrentHead(l, records);
        var kept := if Resolved(record.state) then l else l.(inventory := l.inventory + {IdOf(record)});
        assert InventoryOk(l) ==> kept == l by {
          if InventoryOk(l) {
            assert row in l.jobs && IdOf(row) in l.inventory;
            assert l.inventory + {IdOf(record)} == l.inventory;
          }
        }
        assert Current(kept, records) && Backed(kept, record, row);
        SaveKeepsSound(kept, record, Some(false), row);
        SaveKeepsKeys(kept, record, Some(false));
        CurrentAfterSave(kept, records, record, Some(false), row);
        RecoveringKeepsSound(Save(kept, record, Some(false)).value, records[1..]);
      }
    }
  }

  lemma ExpireKeepsSound(l: Ledger, owner: Owner, now: int)
    requires RowsOk(l.jobs) && Expire(l, owner, now).Ok?
    ensures Keeps(l, Expire(l, owner, now).value) && SameKeys(l.jobs, Expire(l, owner, now).value.jobs)
  {
    ReadIsCurrent(l, owner);
    ExpiringKeepsSound(l, Filter(l.jobs, OwnedBy(owner)), now);
  }

  /** Only the in-flight mark may differ, and it is only ever cleared. */
  ghost predicate Relaxed(a: seq<Job>, b: seq<Job>) {
    |a| == |b| && forall i | 0 <= i < |a| :: b[i] == a[i] || b[i] == a[i].(inflight := false)
  }

  lemma RelaxedKeepsInventory(l: Ledger, after: seq<Job>)
    requires ExactInventory(l) && Relaxed(l.jobs, after)
    ensures ExactInventory(l.(jobs := after))
  {
    forall j | j in after && !Resolved(j.state) ensures IdOf(j) in l.inventory {
      var i :| 0 <= i < |after| && after[i] == j;
      assert l.jobs[i] in l.jobs;
    }
    forall id | id in l.inventory && id.JobId? ensures exists j | j in after :: IdOf(j) == id && !Resolved(j.state) {
      var j :| j in l.jobs && IdOf(j) == id && !Resolved(j.state);
      var i :| 0 <= i < |l.jobs| && l.jobs[i] == j;
      assert after[i] in after;
    }
  }

  lemma RelaxedKeepsOneInFlight(a: seq<Job>, b: seq<Job>)
    requires OneInFlight(a) && Relaxed(a, b)
    ensures OneInFlight(b)
  {
    forall i, j | 0 <= i < j < |b| && b[i].owner == b[j].owner ensures !(b[i].inflight && b[j].inflight) {
      assert !(a[i].inflight && a[j].inflight);
    }
  }

  lemma ReleasingKeepsSound(l: Ledger, owner: Owner)
    requires RowsOk(l.jobs)
    ensures Keeps(l, l.(jobs := ReleasedAll(l.jobs, owner))) && SameKeys(l.jobs, ReleasedAll(l.jobs, owner))
  {
    var after := ReleasedAll(l.jobs, owner);
    SameKeysKeep(l.jobs, after);
    RelaxedKeepsOneInFlight(l.jobs, after);
    if InventoryOk(l) {
      RelaxedKeepsInventory(l, after);
    }
  }

  lemma CurrentAfterRelease(l: Ledger, owner: Owner, records: seq<Job>)
    requires Current(l, records)
    ensures Current(l.(jobs := ReleasedAll(l.jobs, owner)), records)
  {
    var after := ReleasedAll(l.jobs, owner);
    forall r | r in records
      ensures exists x | x in after :: SameRow(x, r) && IdOf(x) == IdOf(r) && x.state == r.state
    {
      var x :| x in l.jobs && SameRow(x, r) && IdOf(x) == IdOf(r) && x.state == r.state;
      var i :| 0 <= i < |l.jobs| && l.jobs[i] == x;
      assert after[i] in after;
    }
  }

  lemma SameKeysTransitive(a: seq<Job>, b: seq<Job>, c: seq<Job>)
    requires SameKeys(a, b) && SameKeys(b, c)
    ensures SameKeys(a, c)
  {
  }

  lemma MaintainKeepsSound(l: Ledger, owner: Owner, now: int, startup: bool)
    requires RowsOk(l.jobs) && Maintain(l, owner, now, startup).Ok?
    ensures Keeps(l, Maintain(l, owner, now, startup).value)
            && SameKeys(l.jobs, Maintain(l, owner, now, startup).value.jobs)
  {
    var records := Filter(l.jobs, OwnedBy(owner));
    ReadIsCurrent(l, owner);
    var ready := l;
    if startup {
      var released := l.(jobs := ReleasedAll(l.jobs, owner));
      ReleasingKeepsSound(l, owner);
      CurrentAfterRelease(l, owner, records);
      RecoveringKeepsSound(released, records);
      ready := RecoverEach(released, records).value;
      SameKeysTransitive(l.jobs, released.jobs, ready.jobs);
    }
    if records != [] {
      ExpireKeepsSound(ready, owner, now);
      SameKeysTransitive(l.jobs, ready.jobs, Expire(ready, owner, now).value.jobs);
    }
  }

  lemma {:induction false} MaintainAllKeepsSound(l: Ledger, owners: seq<Owner>, now: int, startup: bool)
    requires RowsOk(l.jobs) && MaintainAll(l, owners, now, startup).Ok?
    ensures var after := MaintainAll(l, owners, now, startup).value;
            Keeps(l, after) && SameKeys(l.jobs, after.jobs)
    decreases |owners|
  {
    if owners != [] {
      var next := Maintain(l, owners[0], now, startup).value;
      MaintainKeepsSound(l, owners[0], now, startup);
      MaintainAllKeepsSound(next, owners[1..], now, startup);
      SameKeysTransitive(l.jobs, next.jobs, MaintainAll(next, owners[1..], now, startup).value.jobs);
    }
  }

  // Removing rows ------------------------------------------------------------------------------------

  lemma {:induction false} FilterShrinks(jobs: seq<Job>, keep: Job -> bool, owner: Owner)
    ensures |Filter(Filter(jobs, keep), OwnedBy(owner))| <= |Filter(jobs, OwnedBy(owner))|
  {
    if jobs != [] {
      FilterShrinks(jobs[1..], keep, owner);
      if keep(jobs[0]) {
        assert ([jobs[0]] + Filter(jobs[1..], keep))[1..] == Filter(jobs[1..], keep);
      }
    }
  }

  lemma {:induction false} FilterKeepsOneInFlight(jobs: seq<Job>, keep: Job -> bool)
    requires OneInFlight(jobs)
    ensures OneInFlight(Filter(jobs, keep))
  {
    if jobs != [] {
      FilterKeepsOneInFlight(jobs[1..], keep);
      forall x | x in Filter(jobs[1..], keep) && x.owner == jobs[0].owner ensures !(x.inflight && jobs[0].inflight) {
        assert x in jobs[1..];
      }
    }
  }

  lemma RemovingResolvedKeepsSound(l: Ledger, keep: Job -> bool)
    requires RowsOk(l.jobs) && forall j | j in l.jobs && !keep(j) :: Resolved(j.state)
    ensures Keeps(l, l.(jobs := Filter(l.jobs, keep)))
  {
    FilterKeepsKeys(l.jobs, keep);
    FilterKeepsOneInFlight(l.jobs, keep);
    var after := Filter(l.jobs, keep);
    forall owner: Owner ensures |Filter(after, OwnedBy(owner))| <= MAX_JOBS {
      FilterShrinks(l.jobs, keep, owner);
    }
    if InventoryOk(l) {
      forall id | id in l.inventory && id.JobId? ensures exists j | j in after :: IdOf(j) == id && !Resolved(j.state) {
        var j :| j in l.jobs && IdOf(j) == id && !Resolved(j.state);
        assert j in after;
      }
    }
  }

  lemma PruneKeepsSound(l: Ledger, owner: Owner, retained: set<string>)
    requires RowsOk(l.jobs) && Prune(l, owner, retained).Ok?
    ensures Keeps(l, Prune(l, owner, retained).value)
  {
    RemovingResolvedKeepsSound(l, Not(Disposable(owner, Newest(Filter(l.jobs, OwnedBy(owner))), retained)));
  }

  // Reserving ----------------------------------------------------------------------------------------

  lemma LastIsLargest(rows: seq<Job>, owner: Owner, j: Job)
    requires Keyed(rows) && j in rows && forall x | x in rows :: x.owner == owner
    ensures j.revision <= Newest(rows)
  {
    var i :| 0 <= i < |rows| && rows[i] == j;
    var last := |rows| - 1;
    assert rows[last] in rows && rows[i] in rows;
    if i < last {
      assert rows[i].owner == rows[last].owner;
    }
  }

  lemma NewestIsLargest(jobs: seq<Job>, owner: Owner, j: Job)
    requires Keyed(jobs) && j in jobs && j.owner == owner
    ensures j.revision <= Newest(Filter(jobs, OwnedBy(owner)))
  {
    FilterKeepsKeys(jobs, OwnedBy(owner));
    LastIsLargest(Filter(jobs, OwnedBy(owner)), owner, j);
  }

  lemma {:induction false} CountAppend(jobs: seq<Job>, j: Job, owner: Owner)
    ensures |Filter(jobs + [j], OwnedBy(owner))| == |Filter(jobs, OwnedBy(owner))| + (if j.owner == owner then 1 else 0)
  {
    FilterAppend(jobs, [j], OwnedBy(owner));
    assert Filter([j], OwnedBy(owner)) == if j.owner == owner then [j] else [];
  }

  lemma AppendKeepsRows(jobs: seq<Job>, j: Job)
    requires Keyed(jobs) && OneInFlight(jobs)
    requires forall x | x in jobs :: IdOf(x) != IdOf(j)
    requires forall x | x in jobs && x.owner == j.owner :: x.revision < j.revision && !x.inflight
    ensures Keyed(jobs + [j]) && OneInFlight(jobs + [j])
  {
    var after := jobs + [j];
    forall i, k | 0 <= i < k < |after|
      ensures IdOf(after[i]) != IdOf(after[k])
      ensures after[i].owner == after[k].owner ==>
                after[i].revision < after[k].revision && !(after[i].inflight && after[k].inflight)
    {
      assert after[i] == jobs[i] && jobs[i] in jobs;
      if k < |jobs| {
        assert after[k] == jobs[k];
      }
    }
  }

  lemma AppendKeepsInventory(l: Ledger, j: Job)
    requires ExactInventory(l) && !Resolved(j.state)
    ensures ExactInventory(Ledger(l.jobs + [j], l.inventory + {IdOf(j)}))
  {
    var after := Ledger(l.jobs + [j], l.inventory + {IdOf(j)});
    forall id | id in after.inventory && id.JobId?
      ensures exists x | x in after.jobs :: IdOf(x) == id && !Resolved(x.state)
    {
      if id == IdOf(j) {
        assert j in after.jobs;
      } else {
        var x :| x in l.jobs && IdOf(x) == id && !Resolved(x.state);
        assert x in after.jobs;
      }
    }
  }

  lemma InsertingKeepsSound(l: Ledger, j: Job)
    requires RowsOk(l.jobs) && !Resolved(j.state) && |l.inventory| < MAX_RELEASE_JOBS
    requires forall x | x in l.jobs :: IdOf(x) != IdOf(j)
    requires forall x | x in l.jobs && x.owner == j.owner :: x.revision < j.revision && !x.inflight
    requires |Filter(l.jobs, OwnedBy(j.owner))| < MAX_JOBS
    ensures Keeps(l, Ledger(l.jobs + [j], l.inventory + {IdOf(j)}))
  {
    AppendKeepsRows(l.jobs, j);
    if InventoryOk(l) {
      AppendKeepsInventory(l, j);
    }
    forall owner: Owner ensures |Filter(l.jobs + [j], OwnedBy(owner))| <= MAX_JOBS {
      CountAppend(l.jobs, j, owner);
    }
  }

  lemma ClearedKeepsSound(l: Ledger, m: Mutation, retained: set<string>)
    requires RowsOk(l.jobs) && Cleared(l, m, retained).Ok?
    ensures Keeps(l, Cleared(l, m, retained).value)
  {
    ExpireKeepsSound(l, m.owner, m.admittedAt);
    PruneKeepsSound(Expire(l, m.owner, m.admittedAt).value, m.owner, retained);
  }

  function Reserved(l: Ledger, m: Mutation): (j: Job) {
    NewJob(m, Newest(Filter(l.jobs, OwnedBy(m.owner))) + 1)
  }

  /** What a granted reservation found, and the row it adds. */
  lemma ReservationAdds(l: Ledger, m: Mutation)
    requires ReserveInto(l, m).Ok?
    ensures |l.inventory| < MAX_RELEASE_JOBS && |Filter(l.jobs, OwnedBy(m.owner))| < MAX_JOBS
    ensures forall x | x in l.jobs && x.owner == m.owner :: !x.inflight
    ensures forall x | x in l.jobs :: IdOf(x) != IdOf(Reserved(l, m))
    ensures ReserveInto(l, m).value == Ledger(l.jobs + [Reserved(l, m)], l.inventory + {IdOf(Reserved(l, m))})
  {
  }

  lemma ReserveIntoKeepsSound(l: Ledger, m: Mutation)
    requires RowsOk(l.jobs) && ReserveInto(l, m).Ok?
    ensures Keeps(l, ReserveInto(l, m).value)
  {
    ReservationAdds(l, m);
    var j := Reserved(l, m);
    forall x | x in l.jobs && x.owner == j.owner ensures x.revision < j.revision {
      NewestIsLargest(l.jobs, m.owner, x);
    }
    InsertingKeepsSound(l, j);
  }

  lemma ReserveKeepsSound(l: Ledger, m: Mutation, retained: set<string>)
    requires RowsOk(l.jobs) && Reserve(l, m, retained).Ok?
    ensures Keeps(l, Reserve(l, m, retained).value)
  {
    ClearedKeepsSound(l, m, retained);
    ReserveIntoKeepsSound(Cleared(l, m, retained).value, m);
  }

  // Every step ---------------------------------------------------------------------------------------

  lemma RetiredKeepsSound(l: Ledger, record: Job, f: Finish)
    requires RowsOk(l.jobs) && record in l.jobs && Retired(l, record, f).Ok?
    ensures var after := Retired(l, record, f).value;
            Keeps(l, after) && SameKeys(l.jobs, after.jobs) && record in after.jobs
  {
    if f.Answered? && f.accepted {
      ReadIsCurrent(l, record.owner);
      var outcome := if f.cancelled then Cancelled else Superseded;
      RetiringKeepsSound(l, Filter(l.jobs, OwnedBy(record.owner)), record.revision, outcome);
      RetiringKeepsNewer(l, Filter(l.jobs, OwnedBy(record.owner)), record.revision, outcome, record);
    }
  }

  /** Saving over a row of the ledger, with the rows' keys. */
  lemma SaveKeepsBoth(l: Ledger, record: Job, inflight: Option<bool>, row: Job)
    requires RowsOk(l.jobs) && Backed(l, record, row) && Save(l, record, inflight).Ok?
    requires Resolved(row.state) ==> Resolved(record.state)
    ensures Keeps(l, Save(l, record, inflight).value) && SameKeys(l.jobs, Save(l, record, inflight).value.jobs)
  {
    SaveKeepsSound(l, record, inflight, row);
    SaveKeepsKeys(l, record, inflight);
  }

  function FinishedRecord(record: Job, f: Finish): (r: Job) {
    record.(state := FinishedState(record.state, f), started := record.started || f.Dispatched?)
  }

  lemma FinishRecordKeepsSound(l: Ledger, ready: Ledger, record: Job, f: Finish, inflight: Option<bool>)
    requires Keeps(l, ready) && SameKeys(l.jobs, ready.jobs) && record in ready.jobs
    requires Save(ready, FinishedRecord(record, f), inflight).Ok?
    ensures var after := Save(ready, FinishedRecord(record, f), inflight).value;
            Keeps(l, after) && SameKeys(l.jobs, after.jobs)
  {
    SaveKeepsBoth(ready, FinishedRecord(record, f), inflight, record);
    SameKeysTransitive(l.jobs, ready.jobs, Save(ready, FinishedRecord(record, f), inflight).value.jobs);
  }

  lemma FinishKeepsSound(l: Ledger, family: Family, requestId: string, f: Finish)
    requires RowsOk(l.jobs) && FinishJob(l, family, requestId, f).Ok?
    ensures Keeps(l, FinishJob(l, family, requestId, f).value)
    ensures SameKeys(l.jobs, FinishJob(l, family, requestId, f).value.jobs)
  {
    var found := Find(l, family, requestId);
    if found.Some? {
      var record := found.value;
      RetiredKeepsSound(l, record, f);
      FinishRecordKeepsSound(l, Retired(l, record, f).value, record, f,
                             Some(if f.Kept? || f.Dispatched? then record.inflight else false));
    }
  }

  lemma BindKeepsSound(l: Ledger, requestId: string, upload: string, valid: bool)
    requires RowsOk(l.jobs) && BindUpload(l, requestId, upload, valid).Ok?
    ensures Keeps(l, BindUpload(l, requestId, upload, valid).value)
    ensures SameKeys(l.jobs, BindUpload(l, requestId, upload, valid).value.jobs)
  {
    var row := Find(l, Diagnostics, requestId).value;
    SaveKeepsBoth(l, row.(upload := Some(upload), started := true), None, row);
  }

  lemma ObserveKeepsSound(l: Ledger, family: Family, requestId: string, state: State)
    requires RowsOk(l.jobs) && Observe(l, family, requestId, state).Ok?
    ensures Keeps(l, Observe(l, family, requestId, state).value)
    ensures SameKeys(l.jobs, Observe(l, family, requestId, state).value.jobs)
  {
    var found := Find(l, family, requestId);
    if found.Some? {
      var row := found.value;
      SaveKeepsBoth(l, if Resolved(row.state) then row else row.(state := state), None, row);
    }
  }

  /** The steps of the other ledgers and the drain: they touch the inventory and no job. */
  predicate FromOutside(op: Op) {
    op.RegisteringOther? || op.ResolvingOther? || op.StartingRelease? || op.FinishingRelease?
  }

  lemma RowStepKeepsSound(l: Ledger, op: Op)
    requires RowsOk(l.jobs) && TryStep(l, op).Ok? && (op.Binding? || op.Finishing? || op.Observing?)
    ensures Keeps(l, TryStep(l, op).value)
  {
    match op
    case Binding(id, upload, valid) => BindKeepsSound(l, id, upload, valid);
    case Finishing(family, id, f) => FinishKeepsSound(l, family, id, f);
    case Observing(family, id, state) => ObserveKeepsSound(l, family, id, state);
  }

  lemma OwnStepKeepsSound(l: Ledger, op: Op)
    requires RowsOk(l.jobs) && !FromOutside(op)
    ensures Keeps(l, Step(l, op))
  {
    if TryStep(l, op).Ok? {
      if op.Reserving? {
        ReserveKeepsSound(l, op.mutation, op.retained);
      } else if op.Expiring? {
        ExpireKeepsSound(l, op.owner, op.now);
      } else if op.Pruning? {
        PruneKeepsSound(l, op.owner, op.retained);
      } else if op.Maintaining? {
        MaintainAllKeepsSound(l, op.owners, op.now, op.startup);
      } else {
        RowStepKeepsSound(l, op);
      }
    }
  }

  lemma StepKeepsRowsOk(l: Ledger, op: Op)
    requires RowsOk(l.jobs)
    ensures RowsOk(Step(l, op).jobs)
  {
    if !FromOutside(op) {
      OwnStepKeepsSound(l, op);
    }
  }

  /** Whatever is done to the inventory, a station has one request in flight and a bounded, ordered history. */
  lemma {:induction false} RowsOkInEveryReachableState(l: Ledger, ops: seq<Op>)
    requires RowsOk(l.jobs)
    ensures RowsOk(Run(l, ops).jobs)
    decreases |ops|
  {
    if ops != [] {
      StepKeepsRowsOk(l, ops[0]);
      RowsOkInEveryReachableState(Step(l, ops[0]), ops[1..]);
    }
  }

  /**
   What keeps the inventory in order: the drain starts and finishes no job of the two families, and
   an unbounded registration by another ledger finds its key or room.
   */
  ghost predicate Harmless(l: Ledger, op: Op) {
    match op
    case StartingRelease(id, valid, isSealed) => id.Foreign? || StartRelease(l, id, valid, isSealed).Err?
    case FinishingRelease(id, valid, isSealed) => id.Foreign? || id !in l.inventory || !valid || isSealed
    case RegisteringOther(name, bounded) => bounded || Foreign(name) in l.inventory || |l.inventory| < MAX_RELEASE_JOBS
    case _ => true
  }

  lemma FinishReleaseKeepsExactIff(l: Ledger, id: JobId)
    requires ExactInventory(l)
    ensures ExactInventory(l.(inventory := l.inventory - {id})) <==> id.Foreign? || id !in l.inventory
  {
    var after := l.(inventory := l.inventory - {id});
    if id.JobId? && id in l.inventory {
      var j :| j in l.jobs && IdOf(j) == id && !Resolved(j.state);
      assert IdOf(j) !in after.inventory;
    } else {
      assert forall j | j in l.jobs && !Resolved(j.state) :: IdOf(j) in l.inventory;
    }
  }

  lemma StartReleaseKeepsExactIff(l: Ledger, id: JobId)
    requires ExactInventory(l) && id !in l.inventory
    ensures ExactInventory(l.(inventory := l.inventory + {id})) <==> id.Foreign?
  {
    assert id in l.inventory + {id};
  }

  lemma RegisterKeepsExact(l: Ledger, name: string)
    requires ExactInventory(l)
    ensures ExactInventory(l.(inventory := l.inventory + {Foreign(name)}))
    ensures |l.inventory + {Foreign(name)}| == |l.inventory| + (if Foreign(name) in l.inventory then 0 else 1)
  {
    assert Foreign(name) in l.inventory ==> l.inventory + {Foreign(name)} == l.inventory;
  }

  lemma OutsideStepKeepsInventoryIff(l: Ledger, op: Op)
    requires FromOutside(op) && InventoryOk(l)
    ensures InventoryOk(Step(l, op)) <==> Harmless(l, op)
  {
    match op
    case RegisteringOther(name, bounded) => RegisterKeepsExact(l, name);
    case ResolvingOther(name) =>
      FinishReleaseKeepsExactIff(l, Foreign(name));
      SubsetCount(l.inventory - {Foreign(name)}, l.inventory);
    case StartingRelease(id, valid, isSealed) =>
      if id !in l.inventory {
        StartReleaseKeepsExactIff(l, id);
      }
    case FinishingRelease(id, valid, isSealed) =>
      FinishReleaseKeepsExactIff(l, id);
      SubsetCount(l.inventory - {id}, l.inventory);
  }

  /** One step of anyone keeps a sound ledger sound exactly when it is harmless. */
  lemma StepKeepsSoundIff(l: Ledger, op: Op)
    requires Sound(l)
    ensures Sound(Step(l, op)) <==> Harmless(l, op)
  {
    StepKeepsRowsOk(l, op);
    if FromOutside(op) {
      OutsideStepKeepsInventoryIff(l, op);
    } else {
      OwnStepKeepsSound(l, op);
    }
  }

  ghost predicate HarmlessRun(l: Ledger, ops: seq<Op>)
    decreases |ops|
  {
    ops == [] || (Harmless(l, ops[0]) && HarmlessRun(Step(l, ops[0]), ops[1..]))
  }

  ghost predicate SoundThroughout(l: Ledger, ops: seq<Op>)
    decreases |ops|
  {
    Sound(l) && (ops == [] || SoundThroughout(Step(l, ops[0]), ops[1..]))
  }

  /**
   Along any run of the two families, the other ledgers and the drain: the inventory holds exactly
   the unresolved jobs of the two families besides foreign keys, and at most 128 keys in all, exactly
   when every step is harmless.
   */
  lemma {:induction false} SoundInEveryReachableState(l: Ledger, ops: seq<Op>)
    requires Sound(l)
    ensures SoundThroughout(l, ops) <==> HarmlessRun(l, ops)
    ensures HarmlessRun(l, ops) ==> Sound(Run(l, ops))
    decreases |ops|
  {
    if ops != [] {
      StepKeepsSoundIff(l, ops[0]);
      if Harmless(l, ops[0]) {
        SoundInEveryReachableState(Step(l, ops[0]), ops[1..]);
      }
    }
  }

  /** The drain can drop the key of an unresolved job, and the release no longer waits for it. */
  lemma FinishReleaseCanForgetJob()
    ensures var job := Job(Owner(Firmware, "s"), 1, "r", Legacy, Pending, true, false, None, 10);
            var l := Ledger([job], {IdOf(job)});
            && Sound(l) && Step(l, FinishingRelease(IdOf(job), true, false)) == Ledger([job], {})
            && !ExactInventory(Ledger([job], {}))
  {
    var job := Job(Owner(Firmware, "s"), 1, "r", Legacy, Pending, true, false, None, 10);
    var l := Ledger([job], {IdOf(job)});
    assert job in l.jobs;
    assert l.inventory - {IdOf(job)} == {};
    forall owner: Owner ensures |Filter([job], OwnedBy(owner))| <= MAX_JOBS {
    }
  }

  function FamilyPart(inventory: set<JobId>): (ids: set<JobId>) {
    set id | id in inventory && id.JobId?
  }

  function ForeignPart(inventory: set<JobId>): (ids: set<JobId>) {
    set id | id in inventory && id.Foreign?
  }

  lemma InventoryOfRest(init: seq<Job>, last: Job, inventory: set<JobId>)
    requires Keyed(init + [last]) && ExactInventory(Ledger(init + [last], inventory))
    requires forall id | id in inventory :: id.JobId?
    ensures var rest := if Resolved(last.state) then inventory else inventory - {IdOf(last)};
            && Keyed(init) && ExactInventory(Ledger(init, rest))
            && |inventory| == |rest| + (if Resolved(last.state) then 0 else 1)
  {
    var jobs := init + [last];
    var rest := if Resolved(last.state) then inventory else inventory - {IdOf(last)};
    assert forall i | 0 <= i < |init| :: jobs[i] == init[i];
    assert jobs[|init|] == last && last in jobs;
    forall j | j in init ensures IdOf(j) != IdOf(last) && j in jobs {
      var i :| 0 <= i < |init| && init[i] == j;
      assert jobs[i] == j;
    }
    forall id | id in rest ensures exists j | j in init :: IdOf(j) == id && !Resolved(j.state) {
      var j :| j in jobs && IdOf(j) == id && !Resolved(j.state);
      assert j in init;
    }
  }

  lemma {:induction false} FamilyRowsCountUnresolved(jobs: seq<Job>, inventory: set<JobId>)
    requires Keyed(jobs) && ExactInventory(Ledger(jobs, inventory))
    requires forall id | id in inventory :: id.JobId?
    ensures |inventory| == |Filter(jobs, Unresolved())|
  {
    if jobs == [] {
      assert inventory == {};
    } else {
      var last, init := jobs[|jobs| - 1], jobs[..|jobs| - 1];
      assert jobs == init + [last];
      InventoryOfRest(init, last, inventory);
      FamilyRowsCountUnresolved(init, if Resolved(last.state) then inventory else inventory - {IdOf(last)});
      FilterAppend(init, [last], Unresolved());
      assert Filter([last], Unresolved()) == if Resolved(last.state) then [] else [last];
    }
  }

  /** One inventory row per unresolved job of the two families, beside the foreign keys. */
  lemma InventoryCountsUnresolved(l: Ledger)
    requires Keyed(l.jobs) && ExactInventory(l)
    ensures |FamilyPart(l.inventory)| == |Filter(l.jobs, Unresolved())|
    ensures |l.inventory| == |Filter(l.jobs, Unresolved())| + |ForeignPart(l.inventory)|
  {
    FamilyRowsCountUnresolved(l.jobs, FamilyPart(l.inventory));
    assert l.inventory == FamilyPart(l.inventory) + ForeignPart(l.inventory);
  }

  // Revisions ----------------------------------------------------------------------------------------

  function Head(l: Ledger, owner: Owner): (n: nat) {
    Newest(Filter(l.jobs, OwnedBy(owner)))
  }

  lemma AppendedHead(jobs: seq<Job>, j: Job, owner: Owner)
    ensures Newest(Filter(jobs + [j], OwnedBy(owner)))
            == if j.owner == owner then j.revision else Newest(Filter(jobs, OwnedBy(owner)))
  {
    FilterAppend(jobs, [j], OwnedBy(owner));
    assert Filter([j], OwnedBy(owner)) == if j.owner == owner then [j] else [];
  }

  lemma {:induction false} SameHead(a: seq<Job>, b: seq<Job>, owner: Owner)
    requires SameKeys(a, b)
    ensures Newest(Filter(a, OwnedBy(owner))) == Newest(Filter(b, OwnedBy(owner)))
    ensures Filter(a, OwnedBy(owner)) == [] <==> Filter(b, OwnedBy(owner)) == []
  {
    if a != [] {
      SameHead(a[1..], b[1..], owner);
      if a[0].owner == owner {
        NewestCons(a[0], Filter(a[1..], OwnedBy(owner)));
        NewestCons(b[0], Filter(b[1..], OwnedBy(owner)));
      }
    }
  }

  lemma NewestCons(j: Job, rest: seq<Job>)
    ensures Newest([j] + rest) == if rest == [] then j.revision else Newest(rest)
  {
  }

  lemma {:induction false} FilterKeepsLast(rows: seq<Job>, keep: Job -> bool)
    requires rows != [] && keep(rows[|rows| - 1])
    ensures Filter(rows, keep) != [] && Filter(rows, keep)[|Filter(rows, keep)| - 1] == rows[|rows| - 1]
  {
    if |rows| > 1 {
      FilterKeepsLast(rows[1..], keep);
    } else {
      assert rows[1..] == [];
    }
  }

  lemma KeptHead(jobs: seq<Job>, keep: Job -> bool, owner: Owner)
    requires var rows := Filter(jobs, OwnedBy(owner)); rows == [] || keep(rows[|rows| - 1])
    ensures Newest(Filter(Filter(jobs, keep), OwnedBy(owner))) == Newest(Filter(jobs, OwnedBy(owner)))
  {
    FilterCommutes(jobs, keep, OwnedBy(owner));
    if Filter(jobs, OwnedBy(owner)) != [] {
      FilterKeepsLast(Filter(jobs, OwnedBy(owner)), keep);
    }
  }

  /** Pruning keeps the newest row of every station. */
  lemma PruningKeepsHead(jobs: seq<Job>, pruned: Owner, retained: set<string>, owner: Owner)
    ensures Newest(Filter(LeftAfterPruning(jobs, pruned, retained), OwnedBy(owner)))
            == Newest(Filter(jobs, OwnedBy(owner)))
  {
    var rows := Filter(jobs, OwnedBy(owner));
    assert rows != [] ==> rows[|rows| - 1] in rows;
    KeptHead(jobs, Not(Disposable(pruned, Newest(Filter(jobs, OwnedBy(pruned))), retained)), owner);
  }

  lemma PruneKeepsHead(l: Ledger, pruned: Owner, retained: set<string>, owner: Owner)
    requires Prune(l, pruned, retained).Ok?
    ensures Head(Prune(l, pruned, retained).value, owner) == Head(l, owner)
  {
    PruningKeepsHead(l.jobs, pruned, retained, owner);
  }

  lemma StepKeepsRows(l: Ledger, op: Op)
    requires RowsOk(l.jobs) && !op.Reserving? && !op.Pruning?
    ensures SameKeys(l.jobs, Step(l, op).jobs)
  {
    if TryStep(l, op).Ok? {
      match op
      case Binding(id, upload, valid) => BindKeepsSound(l, id, upload, valid);
      case Finishing(family, id, f) => FinishKeepsSound(l, family, id, f);
      case Observing(family, id, state) => ObserveKeepsSound(l, family, id, state);
      case Expiring(o, now) => ExpireKeepsSound(l, o, now);
      case Maintaining(owners, now, startup) => MaintainAllKeepsSound(l, owners, now, startup);
      case _ =>
    }
  }

  lemma StepKeepsHead(l: Ledger, op: Op, owner: Owner)
    requires RowsOk(l.jobs) && !op.Reserving?
    ensures Head(Step(l, op), owner) == Head(l, owner)
  {
    if op.Pruning? {
      if TryStep(l, op).Ok? {
        PruneKeepsHead(l, op.owner, op.retained, owner);
      }
    } else {
      StepKeepsRows(l, op);
      SameHead(l.jobs, Step(l, op).jobs, owner);
    }
  }

  lemma ClearedKeepsHead(l: Ledger, m: Mutation, retained: set<string>, owner: Owner)
    requires RowsOk(l.jobs) && Cleared(l, m, retained).Ok?
    ensures Head(Cleared(l, m, retained).value, owner) == Head(l, owner)
  {
    ExpireKeepsSound(l, m.owner, m.admittedAt);
    var expired := Expire(l, m.owner, m.admittedAt).value;
    SameHead(l.jobs, expired.jobs, owner);
    PruneKeepsHead(expired, m.owner, retained, owner);
  }

  lemma ReserveRaisesHead(l: Ledger, m: Mutation, retained: set<string>, owner: Owner)
    requires RowsOk(l.jobs) && Reserve(l, m, retained).Ok?
    ensures Head(Reserve(l, m, retained).value, owner) == Head(l, owner) + (if owner == m.owner then 1 else 0)
  {
    ClearedKeepsHead(l, m, retained, owner);
    var cleared := Cleared(l, m, retained).value;
    ReservationAdds(cleared, m);
    AppendedHead(cleared.jobs, Reserved(cleared, m), owner);
  }

  predicate Issues(l: Ledger, op: Op, owner: Owner) {
    op.Reserving? && op.mutation.owner == owner && TryStep(l, op).Ok?
  }

  /** Revisions handed out to a station, in order. */
  function Issued(l: Ledger, ops: seq<Op>, owner: Owner): (r: seq<nat>)
    decreases |ops|
  {
    if ops == [] then []
    else
      (if Issues(l, ops[0], owner) then [Head(Step(l, ops[0]), owner)] else [])
      + Issued(Step(l, ops[0]), ops[1..], owner)
  }

  ghost predicate CountsFrom(issued: seq<nat>, head: nat) {
    forall i | 0 <= i < |issued| :: issued[i] == head + 1 + i
  }

  lemma CountsOn(rest: seq<nat>, head: nat)
    requires CountsFrom(rest, head + 1)
    ensures CountsFrom([head + 1] + rest, head)
  {
    var all := [head + 1] + rest;
    assert forall i | 0 < i < |all| :: all[i] == rest[i - 1];
  }

  /** Revisions are consecutive from the current head on, so none is ever issued twice. */
  lemma {:induction false} RevisionsNeverReissued(l: Ledger, ops: seq<Op>, owner: Owner)
    requires RowsOk(l.jobs)
    ensures CountsFrom(Issued(l, ops, owner), Head(l, owner))
    decreases |ops|
  {
    if ops != [] {
      var next := Step(l, ops[0]);
      StepKeepsRowsOk(l, ops[0]);
      StepMovesHead(l, ops[0], owner);
      RevisionsNeverReissued(next, ops[1..], owner);
      Prepended(l, ops, owner, Head(l, owner), Issued(next, ops[1..], owner));
    }
  }

  lemma Prepended(l: Ledger, ops: seq<Op>, owner: Owner, head: nat, rest: seq<nat>)
    requires ops != [] && rest == Issued(Step(l, ops[0]), ops[1..], owner)
    requires Head(Step(l, ops[0]), owner) == head + (if Issues(l, ops[0], owner) then 1 else 0)
    requires CountsFrom(rest, Head(Step(l, ops[0]), owner))
    ensures CountsFrom(Issued(l, ops, owner), head)
  {
    IssuedStep(l, ops, owner);
    if Issues(l, ops[0], owner) {
      CountsOn(rest, head);
    }
  }

  lemma IssuedStep(l: Ledger, ops: seq<Op>, owner: Owner)
    requires ops != []
    ensures var next := Step(l, ops[0]);
            Issued(l, ops, owner)
            == if Issues(l, ops[0], owner) then [Head(next, owner)] + Issued(next, ops[1..], owner)
               else Issued(next, ops[1..], owner)
  {
  }

  lemma StepMovesHead(l: Ledger, op: Op, owner: Owner)
    requires RowsOk(l.jobs)
    ensures Head(Step(l, op), owner) == Head(l, owner) + (if Issues(l, op, owner) then 1 else 0)
  {
    if !op.Reserving? {
      StepKeepsHead(l, op, owner);
    } else if TryStep(l, op).Ok? {
      ReserveRaisesHead(l, op.mutation, op.retained, owner);
    }
  }
}
