/**
 What each ledger transition does to every row, read off the rows before it: which jobs time out, when
 a request is granted and what it finds, how an answer settles a job and ends the older ones, and what
 startup makes of unfinished work.
 */
module JobOutcomes {
  import opened Common
  import opened Sequences
  import opened JobLedger
  import opened JobRuns

  // Saving one row -----------------------------------------------------------------------------------

  /** Payload columns of a row, with a new in-flight flag if one is given. */
  ghost function Updated(row: Job, record: Job, inflight: Option<bool>): (r: Job) {
    Job(row.owner, row.revision, row.requestId, row.variant, record.state,
        if inflight.Some? then inflight.value else row.inflight, record.started, record.upload, row.deadline)
  }

  /** A record read from `row`, with a new payload. */
  ghost predicate ReadFrom(row: Job, record: Job) {
    record.owner == row.owner && record.revision == row.revision && record.requestId == row.requestId
  }

  /** A save touches its own row and nothing else, and takes a resolved job off the inventory. */
  lemma SaveTouchesOneRow(l: Ledger, row: Job, record: Job, inflight: Option<bool>)
    requires Keyed(l.jobs) && row in l.jobs && ReadFrom(row, record)
    requires inflight == Some(true) ==> forall j | j in l.jobs && j.owner == row.owner && j != row :: !j.inflight
    ensures Save(l, record, inflight).Ok?
    ensures var after := Save(l, record, inflight).value;
            && |after.jobs| == |l.jobs|
            && (forall i | 0 <= i < |l.jobs| ::
                  after.jobs[i] == if l.jobs[i] == row then Updated(row, record, inflight) else l.jobs[i])
            && after.inventory == (if record.state.Done? then l.inventory - {JobId(row.owner.family, row.requestId)}
                                   else l.inventory)
  {
    assert SameRow(row, record);
    forall j | j in l.jobs && SameRow(j, record) ensures j == row {
      OneRow(l.jobs, j, row);
    }
    forall i | 0 <= i < |l.jobs| ensures SameRow(l.jobs[i], record) <==> l.jobs[i] == row {
      assert l.jobs[i] in l.jobs;
    }
  }

  // Expiry -------------------------------------------------------------------------------------------

  /** A job that was sent or may have been, is not finished, and has run out of time. */
  ghost predicate OutOfTime(j: Job, now: int) {
    (j.state == Uncertain || j.state.Working?) && j.deadline <= now
  }

  ghost function Expired(j: Job, owner: Owner, now: int): (r: Job) {
    if j.owner == owner && OutOfTime(j, now) then j.(state := TimedOut) else j
  }

  /** The records are rows of the ledger, each once. */
  ghost predicate Listed(l: Ledger, records: seq<Job>) {
    && (forall r | r in records :: r in l.jobs)
    && (forall i, j | 0 <= i < j < |records| :: !SameRow(records[i], records[j]))
  }

  lemma ListedTail(l: Ledger, records: seq<Job>)
    requires records != [] && Listed(l, records)
    ensures Listed(l, records[1..]) && records[0] in l.jobs && records[0] !in records[1..]
    ensures forall r :: r in records <==> r == records[0] || r in records[1..]
  {
    assert forall r | r in records[1..] :: r in records;
    assert records[0] in records;
    forall k | 0 <= k < |records[1..]| ensures records[1..][k] != records[0] {
      assert !SameRow(records[0], records[k + 1]);
    }
  }

  /** Rows not listed any more may change without unlisting the others. */
  lemma ListedAfter(l: Ledger, after: Ledger, records: seq<Job>, row: Job)
    requires Listed(l, records) && row !in records && |after.jobs| == |l.jobs|
    requires forall i | 0 <= i < |l.jobs| :: l.jobs[i] != row ==> after.jobs[i] == l.jobs[i]
    ensures Listed(after, records)
  {
    forall r | r in records ensures r in after.jobs {
      var i :| 0 <= i < |l.jobs| && l.jobs[i] == r;
      assert after.jobs[i] == r;
    }
  }

  lemma ReadIsListed(l: Ledger, owner: Owner)
    requires Keyed(l.jobs)
    ensures Listed(l, Filter(l.jobs, OwnedBy(owner)))
    ensures forall j :: j in Filter(l.jobs, OwnedBy(owner)) <==> j in l.jobs && j.owner == owner
  {
    FilterKeepsKeys(l.jobs, OwnedBy(owner));
  }

  /** The listed rows moved, and only they. */
  ghost predicate Moved(before: seq<Job>, after: seq<Job>, records: seq<Job>, move: Job -> Job) {
    && |after| == |before|
    && (forall i | 0 <= i < |before| ::
          after[i] == if before[i] in records then move(before[i]) else before[i])
  }

  ghost predicate MovedOne(before: seq<Job>, after: seq<Job>, row: Job, now: Job) {
    && |after| == |before|
    && (forall i | 0 <= i < |before| :: after[i] == if before[i] == row then now else before[i])
  }

  /** One row after the other. */
  lemma MovedOnward(l: Ledger, next: seq<Job>, after: seq<Job>, records: seq<Job>, move: Job -> Job)
    requires Keyed(l.jobs) && Listed(l, records) && records != []
    requires MovedOne(l.jobs, next, records[0], move(records[0])) && SameRow(records[0], move(records[0]))
    requires Moved(next, after, records[1..], move)
    ensures Moved(l.jobs, after, records, move)
  {
    var row, rest := records[0], records[1..];
    ListedTail(l, records);
    assert move(row) !in rest by {
      if move(row) in rest {
        OneRow(l.jobs, move(row), row);
        assert false;
      }
    }
    forall i | 0 <= i < |l.jobs|
      ensures after[i] == if l.jobs[i] in records then move(l.jobs[i]) else l.jobs[i]
    {
      assert l.jobs[i] != row ==> next[i] == l.jobs[i] && (l.jobs[i] in records <==> l.jobs[i] in rest);
    }
  }

  lemma MovedPast(before: seq<Job>, after: seq<Job>, records: seq<Job>, move: Job -> Job)
    requires records != [] && move(records[0]) == records[0] && Moved(before, after, records[1..], move)
    ensures Moved(before, after, records, move)
  {
    assert forall r :: r in records <==> r == records[0] || r in records[1..];
  }

  /** Saving a listed row leaves the others listed. */
  lemma SaveMovesOne(l: Ledger, records: seq<Job>, record: Job, inflight: Option<bool>)
    requires Keyed(l.jobs) && Listed(l, records) && records != [] && ReadFrom(records[0], record)
    requires inflight != Some(true)
    ensures Save(l, record, inflight).Ok?
    ensures var next := Save(l, record, inflight).value;
            && MovedOne(l.jobs, next.jobs, records[0], Updated(records[0], record, inflight))
            && Keyed(next.jobs) && Listed(next, records[1..])
            && next.inventory == (if record.state.Done? then l.inventory - {IdOf(records[0])} else l.inventory)
  {
    ListedTail(l, records);
    SaveTouchesOneRow(l, records[0], record, inflight);
    var next := Save(l, record, inflight).value;
    SaveKeepsKeys(l, record, inflight);
    KeysKeep(l.jobs, next.jobs);
    ListedAfter(l, next, records[1..], records[0]);
  }

  ghost function TimingOut(now: int): (move: Job -> Job) {
    (j: Job) => if OutOfTime(j, now) then j.(state := TimedOut) else j
  }

  lemma {:induction false} ExpireEachRows(l: Ledger, records: seq<Job>, now: int)
    requires Keyed(l.jobs) && Listed(l, records)
    ensures ExpireEach(l, records, now).Ok? && ExpireEach(l, records, now).value.inventory == l.inventory
    ensures Moved(l.jobs, ExpireEach(l, records, now).value.jobs, records, TimingOut(now))
    decreases |records|
  {
    if records != [] {
      var row, rest := records[0], records[1..];
      ListedTail(l, records);
      if !Overdue(row, now) {
        ExpireEachRows(l, rest, now);
        MovedPast(l.jobs, ExpireEach(l, rest, now).value.jobs, records, TimingOut(now));
      } else {
        var record := row.(state := TimedOut);
        SaveMovesOne(l, records, record, None);
        var next := Save(l, record, None).value;
        ExpireEachRows(next, rest, now);
        MovedOnward(l, next.jobs, ExpireEach(next, rest, now).value.jobs, records, TimingOut(now));
      }
    }
  }

  lemma KeysKeep(a: seq<Job>, b: seq<Job>)
    requires SameKeys(a, b) && Keyed(a)
    ensures Keyed(b)
  {
    forall i, j | 0 <= i < j < |b| ensures IdOf(b[i]) != IdOf(b[j]) {
      assert IdOf(a[i]) != IdOf(a[j]);
    }
  }

  /** Exactly the station's overdue jobs time out; the inventory still waits for them. */
  lemma ExpiresExactlyOverdue(l: Ledger, owner: Owner, now: int)
    requires Keyed(l.jobs) && |Filter(l.jobs, OwnedBy(owner))| <= 64
    ensures Expire(l, owner, now).Ok?
    ensures var after := Expire(l, owner, now).value;
            && after.inventory == l.inventory && |after.jobs| == |l.jobs|
            && (forall i | 0 <= i < |l.jobs| :: after.jobs[i] == Expired(l.jobs[i], owner, now))
  {
    var records := Filter(l.jobs, OwnedBy(owner));
    ReadIsListed(l, owner);
    ExpireEachRows(l, records, now);
    forall i | 0 <= i < |l.jobs| ensures l.jobs[i] in records <==> l.jobs[i].owner == owner {
      assert l.jobs[i] in l.jobs;
    }
  }

  // Pruning ------------------------------------------------------------------------------------------

  /** The station's newest job. */
  ghost predicate IsNewest(jobs: seq<Job>, j: Job) {
    forall k | k in jobs && k.owner == j.owner :: k.revision <= j.revision
  }

  /** A row pruning must leave: another station's, unfinished, in flight, with a public result, or the newest. */
  ghost predicate Stays(jobs: seq<Job>, owner: Owner, retained: set<string>, j: Job) {
    j.owner != owner || !j.state.Done? || j.inflight || j.requestId in retained || IsNewest(jobs, j)
  }

  lemma NewestMeaning(jobs: seq<Job>, owner: Owner, j: Job)
    requires Keyed(jobs) && j in jobs && j.owner == owner
    ensures j.revision == Newest(Filter(jobs, OwnedBy(owner))) <==> IsNewest(jobs, j)
  {
    var rows := Filter(jobs, OwnedBy(owner));
    assert j in rows;
    var last := rows[|rows| - 1];
    assert last in rows && last in jobs && last.owner == owner;
    NewestIsLargest(jobs, owner, j);
    forall k | k in jobs && k.owner == owner ensures k.revision <= last.revision {
      NewestIsLargest(jobs, owner, k);
    }
  }

  lemma DisposableMeaning(jobs: seq<Job>, owner: Owner, retained: set<string>, j: Job)
    requires Keyed(jobs) && j in jobs
    ensures Disposable(owner, Newest(Filter(jobs, OwnedBy(owner))), retained)(j) <==> !Stays(jobs, owner, retained, j)
  {
    if j.owner == owner {
      NewestMeaning(jobs, owner, j);
    }
  }

  /** Pruning removes exactly the rows that need not stay, and nothing else. */
  lemma PrunesExactly(l: Ledger, owner: Owner, retained: set<string>) returns (at: seq<nat>)
    requires Keyed(l.jobs) && |Filter(l.jobs, OwnedBy(owner))| <= 64
    ensures Prune(l, owner, retained).Ok? && Prune(l, owner, retained).value.inventory == l.inventory
    ensures Picks(l.jobs, Prune(l, owner, retained).value.jobs, at)
    ensures forall k | 0 <= k < |l.jobs| :: k in at <==> Stays(l.jobs, owner, retained, l.jobs[k])
  {
    at := FilterPicks(l.jobs, Not(Disposable(owner, Newest(Filter(l.jobs, OwnedBy(owner))), retained)));
    forall k | 0 <= k < |l.jobs| ensures k in at <==> Stays(l.jobs, owner, retained, l.jobs[k]) {
      assert l.jobs[k] in l.jobs;
      DisposableMeaning(l.jobs, owner, retained, l.jobs[k]);
    }
  }

  // Reserving ----------------------------------------------------------------------------------------

  /** What clearing leaves: overdue jobs timed out, disposable ones gone. */
  lemma ClearedRows(l: Ledger, m: Mutation, retained: set<string>) returns (at: seq<nat>)
    requires RowsOk(l.jobs)
    ensures Cleared(l, m, retained).Ok?
    ensures var c := Cleared(l, m, retained).value;
            && c.inventory == l.inventory && |at| == |c.jobs|
            && (forall i, j | 0 <= i < j < |at| :: at[i] < at[j])
            && (forall i | 0 <= i < |at| ::
                  at[i] < |l.jobs| && c.jobs[i] == Expired(l.jobs[at[i]], m.owner, m.admittedAt))
    ensures forall k | 0 <= k < |l.jobs| :: k in at <==> Stays(l.jobs, m.owner, retained, l.jobs[k])
  {
    ExpiresExactlyOverdue(l, m.owner, m.admittedAt);
    var e := Expire(l, m.owner, m.admittedAt).value;
    ExpireKeepsKeys(l, e, m.owner, m.admittedAt);
    at := PrunesExactly(e, m.owner, retained);
    forall k | 0 <= k < |l.jobs| ensures k in at <==> Stays(l.jobs, m.owner, retained, l.jobs[k]) {
      StaysAfterExpiry(l.jobs, e.jobs, m.owner, m.admittedAt, retained, k);
    }
  }

  lemma ExpireKeepsKeys(l: Ledger, e: Ledger, owner: Owner, now: int)
    requires RowsOk(l.jobs) && |e.jobs| == |l.jobs|
    requires forall i | 0 <= i < |l.jobs| :: e.jobs[i] == Expired(l.jobs[i], owner, now)
    ensures SameKeys(l.jobs, e.jobs) && Keyed(e.jobs) && |Filter(e.jobs, OwnedBy(owner))| <= 64
  {
    SameKeysKeep(l.jobs, e.jobs);
  }

  lemma StaysAfterExpiry(jobs: seq<Job>, after: seq<Job>, owner: Owner, now: int, retained: set<string>, k: nat)
    requires |after| == |jobs| && k < |jobs|
    requires forall i | 0 <= i < |jobs| :: after[i] == Expired(jobs[i], owner, now)
    ensures Stays(after, owner, retained, after[k]) <==> Stays(jobs, owner, retained, jobs[k])
  {
    if IsNewest(jobs, jobs[k]) {
      forall x | x in after && x.owner == after[k].owner ensures x.revision <= after[k].revision {
        var i :| 0 <= i < |after| && after[i] == x;
        assert jobs[i] in jobs;
      }
    }
    if IsNewest(after, after[k]) {
      forall x | x in jobs && x.owner == jobs[k].owner ensures x.revision <= jobs[k].revision {
        var i :| 0 <= i < |jobs| && jobs[i] == x;
        assert after[i] in after;
      }
    }
  }

  /** Work the station is still expected to do at this time. */
  ghost predicate StillActive(j: Job, now: int) {
    j.state == Pending || (j.state.Working? && j.deadline > now)
  }

  /** The station's rows that clearing leaves. */
  ghost function OwnRows(jobs: seq<Job>, owner: Owner, retained: set<string>): (rows: set<nat>) {
    set k: nat | k < |jobs| && jobs[k].owner == owner && Stays(jobs, owner, retained, jobs[k])
  }

  /** A legacy request waits for active work; a numbered one needs a number of its own. */
  ghost predicate InTheWay(l: Ledger, m: Mutation, retained: set<string>, j: Job) {
    && j in l.jobs && j.owner == m.owner
    && (|| (m.variant == Legacy && StillActive(j, m.admittedAt))
        || (m.variant != Legacy && m.owner.family == Diagnostics && j.variant == Legacy && StillActive(j, m.admittedAt))
        || (m.variant != Legacy && j.variant == m.variant && Stays(l.jobs, m.owner, retained, j)))
  }

  /** The revision the next job of a station gets. */
  ghost predicate NextRevision(jobs: seq<Job>, owner: Owner, revision: nat) {
    && revision >= 1
    && (forall j | j in jobs && j.owner == owner :: j.revision < revision)
    && (revision == 1 || exists j :: j in jobs && j.owner == owner && j.revision + 1 == revision)
  }

  lemma NextRevisionIs(jobs: seq<Job>, owner: Owner, revision: nat)
    requires Keyed(jobs)
    ensures NextRevision(jobs, owner, revision) <==> revision == Newest(Filter(jobs, OwnedBy(owner))) + 1
  {
    var rows := Filter(jobs, OwnedBy(owner));
    forall j | j in jobs && j.owner == owner ensures j.revision <= Newest(rows) {
      NewestIsLargest(jobs, owner, j);
    }
    if rows != [] {
      var last := rows[|rows| - 1];
      assert last in rows && last in jobs;
    }
  }

  /** What a request must find once the station is cleared. */
  ghost predicate Grantable(c: Ledger, m: Mutation) {
    && (forall j | j in c.jobs && j.owner == m.owner :: !j.inflight)
    && !Blocked(Filter(c.jobs, OwnedBy(m.owner)), m)
    && |Filter(c.jobs, OwnedBy(m.owner))| < 64
    && Newest(Filter(c.jobs, OwnedBy(m.owner))) < 9223372036854775807 && m.deadline > m.admittedAt
    && |c.inventory| < 128
    && (forall j | j in c.jobs && j.owner.family == m.owner.family :: j.requestId != m.requestId)
  }

  lemma GrantedOnCleared(c: Ledger, m: Mutation)
    ensures ReserveInto(c, m).Ok? <==> Grantable(c, m)
  {
  }

  lemma OwnCount(l: Ledger, m: Mutation, retained: set<string>)
    requires RowsOk(l.jobs)
    ensures Cleared(l, m, retained).Ok?
    ensures |Filter(Cleared(l, m, retained).value.jobs, OwnedBy(m.owner))| == |OwnRows(l.jobs, m.owner, retained)|
  {
    ExpiresExactlyOverdue(l, m.owner, m.admittedAt);
    var e := Expire(l, m.owner, m.admittedAt).value;
    ExpireKeepsKeys(l, e, m.owner, m.admittedAt);
    var keep := Not(Disposable(m.owner, Newest(Filter(e.jobs, OwnedBy(m.owner))), retained));
    var both := (j: Job) => keep(j) && j.owner == m.owner;
    FilterBoth(e.jobs, keep, OwnedBy(m.owner), both);
    FilterCount(e.jobs, both);
    forall k: nat | k < |l.jobs|
      ensures both(e.jobs[k]) <==> l.jobs[k].owner == m.owner && Stays(l.jobs, m.owner, retained, l.jobs[k])
    {
      assert e.jobs[k] in e.jobs;
      DisposableMeaning(e.jobs, m.owner, retained, e.jobs[k]);
      StaysAfterExpiry(l.jobs, e.jobs, m.owner, m.admittedAt, retained, k);
    }
    assert Passing(e.jobs, both) == OwnRows(l.jobs, m.owner, retained);
  }

  lemma NewestAfterClearing(l: Ledger, m: Mutation, retained: set<string>)
    requires RowsOk(l.jobs) && Cleared(l, m, retained).Ok?
    ensures Newest(Filter(Cleared(l, m, retained).value.jobs, OwnedBy(m.owner)))
            == Newest(Filter(l.jobs, OwnedBy(m.owner)))
  {
    ClearedKeepsHead(l, m, retained, m.owner);
  }

  /** A row of the cleared ledger is a row of the ledger that stays, and the other way round. */
  lemma ClearedOrigin(l: Ledger, m: Mutation, retained: set<string>)
    requires RowsOk(l.jobs)
    ensures Cleared(l, m, retained).Ok?
    ensures forall x | x in Cleared(l, m, retained).value.jobs ::
              exists j | j in l.jobs :: Stays(l.jobs, m.owner, retained, j) && x == Expired(j, m.owner, m.admittedAt)
    ensures forall j | j in l.jobs && Stays(l.jobs, m.owner, retained, j) ::
              Expired(j, m.owner, m.admittedAt) in Cleared(l, m, retained).value.jobs
  {
    var at := ClearedRows(l, m, retained);
    var c := Cleared(l, m, retained).value;
    forall x | x in c.jobs
      ensures exists j | j in l.jobs :: Stays(l.jobs, m.owner, retained, j) && x == Expired(j, m.owner, m.admittedAt)
    {
      var i :| 0 <= i < |c.jobs| && c.jobs[i] == x;
      assert at[i] in at && l.jobs[at[i]] in l.jobs;
    }
    forall j | j in l.jobs && Stays(l.jobs, m.owner, retained, j)
      ensures Expired(j, m.owner, m.admittedAt) in c.jobs
    {
      var k :| 0 <= k < |l.jobs| && l.jobs[k] == j;
      var i :| 0 <= i < |at| && at[i] == k;
      assert c.jobs[i] in c.jobs;
    }
  }

  ghost predicate BlocksAlone(x: Job, m: Mutation) {
    match m.variant
    case Legacy => Active(x.state)
    case Numbered(_) => (m.owner.family.Diagnostics? && x.variant.Legacy? && Active(x.state)) || x.variant == m.variant
  }

  lemma BlockedByOne(rows: seq<Job>, m: Mutation)
    ensures Blocked(rows, m) <==> exists x | x in rows :: BlocksAlone(x, m)
  {
    match m.variant
    case Legacy =>
      if x :| x in rows && Active(x.state) {
        assert BlocksAlone(x, m);
      }
    case Numbered(_) =>
      if x :| x in rows && x.variant.Legacy? && Active(x.state) && m.owner.family.Diagnostics? {
        assert BlocksAlone(x, m);
      }
      if x :| x in rows && x.variant == m.variant {
        assert BlocksAlone(x, m);
      }
  }

  lemma BlocksInTheWay(l: Ledger, m: Mutation, retained: set<string>, j: Job)
    requires j in l.jobs && j.owner == m.owner
    ensures Stays(l.jobs, m.owner, retained, j) && BlocksAlone(Expired(j, m.owner, m.admittedAt), m)
            <==> InTheWay(l, m, retained, j)
  {
  }

  lemma BlockedMeaning(l: Ledger, m: Mutation, retained: set<string>)
    requires RowsOk(l.jobs) && Cleared(l, m, retained).Ok?
    ensures Blocked(Filter(Cleared(l, m, retained).value.jobs, OwnedBy(m.owner)), m)
            <==> exists j :: InTheWay(l, m, retained, j)
  {
    ClearedOrigin(l, m, retained);
    BlockedAmong(l, m, retained, Cleared(l, m, retained).value.jobs);
  }

  lemma BlockedAmong(l: Ledger, m: Mutation, retained: set<string>, left: seq<Job>)
    requires forall x | x in left ::
               exists j | j in l.jobs :: Stays(l.jobs, m.owner, retained, j) && x == Expired(j, m.owner, m.admittedAt)
    requires forall j | j in l.jobs && Stays(l.jobs, m.owner, retained, j) ::
               Expired(j, m.owner, m.admittedAt) in left
    ensures Blocked(Filter(left, OwnedBy(m.owner)), m) <==> exists j :: InTheWay(l, m, retained, j)
  {
    var rows := Filter(left, OwnedBy(m.owner));
    BlockedByOne(rows, m);
    if x :| x in rows && BlocksAlone(x, m) {
      assert x in left && x.owner == m.owner;
      var j :| j in l.jobs && Stays(l.jobs, m.owner, retained, j) && x == Expired(j, m.owner, m.admittedAt);
      BlocksInTheWay(l, m, retained, j);
    }
    if j :| InTheWay(l, m, retained, j) {
      BlocksInTheWay(l, m, retained, j);
      var x := Expired(j, m.owner, m.admittedAt);
      assert x in left && x in rows;
    }
  }

  lemma InFlightMeaning(l: Ledger, m: Mutation, retained: set<string>)
    requires RowsOk(l.jobs) && Cleared(l, m, retained).Ok?
    ensures (forall x | x in Cleared(l, m, retained).value.jobs && x.owner == m.owner :: !x.inflight)
            <==> forall j | j in l.jobs && j.owner == m.owner :: !j.inflight
  {
    ClearedOrigin(l, m, retained);
    var c := Cleared(l, m, retained).value;
    if j :| j in l.jobs && j.owner == m.owner && j.inflight {
      assert Stays(l.jobs, m.owner, retained, j);
      assert Expired(j, m.owner, m.admittedAt) in c.jobs;
    }
  }

  lemma TakenMeaning(l: Ledger, m: Mutation, retained: set<string>)
    requires RowsOk(l.jobs) && Cleared(l, m, retained).Ok?
    ensures (forall x | x in Cleared(l, m, retained).value.jobs && x.owner.family == m.owner.family ::
               x.requestId != m.requestId)
            <==> forall j | j in l.jobs && j.owner.family == m.owner.family && Stays(l.jobs, m.owner, retained, j) ::
                   j.requestId != m.requestId
  {
    ClearedOrigin(l, m, retained);
    var c := Cleared(l, m, retained).value;
    if j :| j in l.jobs && j.owner.family == m.owner.family && Stays(l.jobs, m.owner, retained, j)
            && j.requestId == m.requestId {
      var x := Expired(j, m.owner, m.admittedAt);
      assert x in c.jobs && x.requestId == m.requestId;
    }
  }

  /** Nothing stands against the request. */
  ghost predicate Admissible(l: Ledger, m: Mutation, retained: set<string>) {
    && m.valid && m.deadline > m.admittedAt
    && (forall j | j in l.jobs && j.owner == m.owner :: !j.inflight)
    && !(exists j :: InTheWay(l, m, retained, j))
    && |OwnRows(l.jobs, m.owner, retained)| < 64
    && (forall j | j in l.jobs && j.owner == m.owner :: j.revision < 9223372036854775807)
    && |l.inventory| < 128
    && (forall j | j in l.jobs && j.owner.family == m.owner.family && Stays(l.jobs, m.owner, retained, j) ::
          j.requestId != m.requestId)
  }

  lemma RevisionsBelow(jobs: seq<Job>, owner: Owner, bound: nat)
    requires Keyed(jobs) && bound > 0
    ensures Newest(Filter(jobs, OwnedBy(owner))) < bound
            <==> forall j | j in jobs && j.owner == owner :: j.revision < bound
  {
    var rows := Filter(jobs, OwnedBy(owner));
    if rows != [] {
      var last := rows[|rows| - 1];
      assert last in rows && last in jobs;
    }
    forall j | j in jobs && j.owner == owner ensures j.revision <= Newest(rows) {
      NewestIsLargest(jobs, owner, j);
    }
  }

  lemma GrantableMeaning(l: Ledger, m: Mutation, retained: set<string>)
    requires RowsOk(l.jobs) && Cleared(l, m, retained).Ok? && m.valid
    ensures Grantable(Cleared(l, m, retained).value, m) <==> Admissible(l, m, retained)
  {
    var _ := ClearedRows(l, m, retained);
    OwnCount(l, m, retained);
    NewestAfterClearing(l, m, retained);
    RevisionsBelow(l.jobs, m.owner, 9223372036854775807);
    BlockedMeaning(l, m, retained);
    InFlightMeaning(l, m, retained);
    TakenMeaning(l, m, retained);
  }

  /** A request is granted exactly when nothing stands against it. */
  lemma GrantedExactlyWhenAdmissible(l: Ledger, m: Mutation, retained: set<string>)
    requires RowsOk(l.jobs)
    ensures Reserve(l, m, retained).Ok? <==> Admissible(l, m, retained)
  {
    if m.valid {
      var _ := ClearedRows(l, m, retained);
      GrantedOnCleared(Cleared(l, m, retained).value, m);
      GrantableMeaning(l, m, retained);
    }
  }

  /**
   A granted request: overdue jobs have timed out, disposable ones are gone, and the new job is the
   last row, pending and in flight, under the next revision and on the inventory.
   */
  lemma GrantedRow(l: Ledger, m: Mutation, retained: set<string>) returns (at: seq<nat>, revision: nat)
    requires RowsOk(l.jobs) && Reserve(l, m, retained).Ok?
    ensures NextRevision(l.jobs, m.owner, revision)
    ensures forall k | 0 <= k < |l.jobs| :: k in at <==> Stays(l.jobs, m.owner, retained, l.jobs[k])
    ensures var after := Reserve(l, m, retained).value;
            && after.inventory == l.inventory + {JobId(m.owner.family, m.requestId)}
            && |after.jobs| == |at| + 1 && (forall i, j | 0 <= i < j < |at| :: at[i] < at[j])
            && (forall i | 0 <= i < |at| ::
                  at[i] < |l.jobs| && after.jobs[i] == Expired(l.jobs[at[i]], m.owner, m.admittedAt))
            && after.jobs[|at|]
               == Job(m.owner, revision, m.requestId, m.variant, Pending, true, false, None, m.deadline)
  {
    at := ClearedRows(l, m, retained);
    var c := Cleared(l, m, retained).value;
    revision := Newest(Filter(l.jobs, OwnedBy(m.owner))) + 1;
    NextRevisionIs(l.jobs, m.owner, revision);
    NewestAfterClearing(l, m, retained);
    ReservationAdds(c, m);
  }

  // Answers ------------------------------------------------------------------------------------------

  /** How a command result settles its job. Only an answer settles a job whose fate was uncertain. */
  lemma AnswerTable(s: State, accepted: bool, cancelled: bool, outcome: JobLedger.Outcome)
    ensures FinishedState(s, Kept) == s && FinishedState(s, Dispatched) == s
    ensures FinishedState(Pending, Unsure) == Uncertain && FinishedState(Pending, Refused) == Done(NotSent)
    ensures s != Pending ==> FinishedState(s, Unsure) == s && FinishedState(s, Refused) == s
    ensures s == Pending || s == Uncertain ==>
              FinishedState(s, Answered(accepted, cancelled, outcome))
              == (if accepted then Working(0) else Done(outcome))
    ensures s != Pending && s != Uncertain ==> FinishedState(s, Answered(accepted, cancelled, outcome)) == s
  {
  }

  /** An older job of the same station that is not finished. */
  ghost predicate Outdated(j: Job, record: Job) {
    j.owner == record.owner && j.revision < record.revision && !j.state.Done?
  }

  ghost function EndedFor(j: Job, outcome: JobLedger.Outcome): (r: Job) {
    j.(state := Done(outcome), inflight := false)
  }

  ghost function Ending(below: nat, outcome: JobLedger.Outcome): (move: Job -> Job) {
    (j: Job) => if j.revision < below && !j.state.Done? then EndedFor(j, outcome) else j
  }

  lemma {:induction false} RetireEachRows(l: Ledger, records: seq<Job>, below: nat, outcome: JobLedger.Outcome)
    requires Keyed(l.jobs) && Listed(l, records)
    ensures RetireEach(l, records, below, outcome).Ok?
    ensures Moved(l.jobs, RetireEach(l, records, below, outcome).value.jobs, records, Ending(below, outcome))
    decreases |records|
  {
    if records != [] {
      var row, rest := records[0], records[1..];
      ListedTail(l, records);
      if row.revision >= below || Resolved(row.state) {
        RetireEachRows(l, rest, below, outcome);
        MovedPast(l.jobs, RetireEach(l, rest, below, outcome).value.jobs, records, Ending(below, outcome));
      } else {
        var record := row.(state := Done(outcome));
        SaveMovesOne(l, records, record, Some(false));
        var next := Save(l, record, Some(false)).value;
        RetireEachRows(next, rest, below, outcome);
        MovedOnward(l, next.jobs, RetireEach(next, rest, below, outcome).value.jobs, records, Ending(below, outcome));
      }
    }
  }

  /** An accepted request ends every older unfinished job of its station; nothing else does. */
  lemma RetiresExactlyOutdated(l: Ledger, record: Job, f: Finish)
    requires Keyed(l.jobs) && |Filter(l.jobs, OwnedBy(record.owner))| <= 64
    ensures Retired(l, record, f).Ok?
    ensures var after := Retired(l, record, f).value;
            var outcome := if f.Answered? && f.cancelled then Cancelled else Superseded;
            && |after.jobs| == |l.jobs|
            && (forall i | 0 <= i < |l.jobs| ::
                  after.jobs[i] == if f.Answered? && f.accepted && Outdated(l.jobs[i], record)
                                   then EndedFor(l.jobs[i], outcome) else l.jobs[i])
  {
    if f.Answered? && f.accepted {
      var records := Filter(l.jobs, OwnedBy(record.owner));
      ReadIsListed(l, record.owner);
      RetireEachRows(l, records, record.revision, if f.cancelled then Cancelled else Superseded);
      forall i | 0 <= i < |l.jobs| ensures l.jobs[i] in records <==> l.jobs[i].owner == record.owner {
        assert l.jobs[i] in l.jobs;
      }
    }
  }

  /** What an answer makes of the job it is for. */
  ghost function AnsweredJob(j: Job, f: Finish): (r: Job) {
    j.(state := FinishedState(j.state, f), started := j.started || f == Dispatched,
       inflight := j.inflight && (f == Kept || f == Dispatched))
  }

  /**
   A command result moves its own job, ends the older unfinished ones if the request was accepted, and
   leaves every other row alone.
   */
  lemma FinishMovesRows(l: Ledger, family: Family, requestId: string, f: Finish, job: Job)
    requires RowsOk(l.jobs) && job in l.jobs && job.owner.family == family && job.requestId == requestId
    ensures FinishJob(l, family, requestId, f).Ok?
    ensures var after := FinishJob(l, family, requestId, f).value;
            |after.jobs| == |l.jobs| && forall i | 0 <= i < |l.jobs| :: after.jobs[i] == Answering(job, f)(l.jobs[i])
  {
    FoundIsUnique(l, family, requestId, job);
    RetiresExactlyOutdated(l, job, f);
    FinishMovesRow(l, Retired(l, job, f).value, job, f);
  }

  /** What an answer for `job` makes of every row. */
  ghost function Answering(job: Job, f: Finish): (move: Job -> Job) {
    (j: Job) => if j == job then AnsweredJob(job, f)
                else if f.Answered? && f.accepted && Outdated(j, job)
                then EndedFor(j, if f.cancelled then Cancelled else Superseded)
                else j
  }

  /** Every older unfinished row was ended if the answer accepts, and only those. */
  ghost predicate RetiredRows(jobs: seq<Job>, ready: seq<Job>, job: Job, f: Finish) {
    && |ready| == |jobs|
    && (forall i | 0 <= i < |jobs| ::
          ready[i] == if f.Answered? && f.accepted && Outdated(jobs[i], job)
                      then EndedFor(jobs[i], if f.cancelled then Cancelled else Superseded) else jobs[i])
  }

  lemma FinishMovesRow(l: Ledger, ready: Ledger, job: Job, f: Finish)
    requires RowsOk(l.jobs) && job in l.jobs && RetiredRows(l.jobs, ready.jobs, job, f)
    ensures var record := job.(state := FinishedState(job.state, f), started := job.started || f.Dispatched?);
            var saved := Save(ready, record, Some(if f.Kept? || f.Dispatched? then job.inflight else false));
            && saved.Ok? && |saved.value.jobs| == |l.jobs|
            && forall i | 0 <= i < |l.jobs| :: saved.value.jobs[i] == Answering(job, f)(l.jobs[i])
  {
    var record := job.(state := FinishedState(job.state, f), started := job.started || f.Dispatched?);
    var inflight := if f.Kept? || f.Dispatched? then job.inflight else false;
    RetiredKeepsRow(l.jobs, ready.jobs, job, f);
    SaveTouchesOneRow(ready, job, record, Some(inflight));
    AnsweredRows(l.jobs, ready.jobs, Save(ready, record, Some(inflight)).value.jobs, job, f);
  }

  lemma AnsweredRows(jobs: seq<Job>, ready: seq<Job>, after: seq<Job>, job: Job, f: Finish)
    requires RetiredRows(jobs, ready, job, f) && MovedOne(ready, after, job, AnsweredJob(job, f))
    requires forall i | 0 <= i < |jobs| :: jobs[i] == job <==> ready[i] == job
    ensures forall i | 0 <= i < |jobs| :: after[i] == Answering(job, f)(jobs[i])
  {
  }

  lemma FoundIsUnique(l: Ledger, family: Family, requestId: string, job: Job)
    requires Keyed(l.jobs) && job in l.jobs && IdOf(job) == JobId(family, requestId)
    ensures Find(l, family, requestId) == Some(job)
  {
    var found := Find(l, family, requestId);
    OneRow(l.jobs, found.value, job);
  }

  lemma RetiredKeepsKeys(jobs: seq<Job>, ready: seq<Job>, job: Job, f: Finish)
    requires Keyed(jobs) && job in jobs && RetiredRows(jobs, ready, job, f)
    ensures SameKeys(jobs, ready) && Keyed(ready)
    ensures forall i | 0 <= i < |jobs| :: jobs[i] == job <==> ready[i] == job
  {
    KeysKeep(jobs, ready);
    forall i | 0 <= i < |jobs| && ready[i] == job ensures jobs[i] == job {
      assert jobs[i] in jobs;
      OneRow(jobs, jobs[i], job);
    }
  }

  lemma RetiredKeepsRow(jobs: seq<Job>, ready: seq<Job>, job: Job, f: Finish)
    requires RowsOk(jobs) && job in jobs && RetiredRows(jobs, ready, job, f)
    ensures job in ready && Keyed(ready) && forall i | 0 <= i < |jobs| :: jobs[i] == job <==> ready[i] == job
    ensures job.inflight ==> forall j | j in ready && j.owner == job.owner && j != job :: !j.inflight
  {
    RetiredKeepsKeys(jobs, ready, job, f);
    var k :| 0 <= k < |jobs| && jobs[k] == job;
    assert ready[k] == job;
    if job.inflight {
      forall j | j in ready && j.owner == job.owner && j != job ensures !j.inflight {
        var i :| 0 <= i < |ready| && ready[i] == j;
        assert i != k && jobs[i].owner == jobs[k].owner;
      }
    }
  }

  /** A result for a request without a job changes nothing. */
  lemma NoJobNothingMoves(l: Ledger, family: Family, requestId: string, f: Finish, state: State)
    requires forall j | j in l.jobs :: !(j.owner.family == family && j.requestId == requestId)
    ensures FinishJob(l, family, requestId, f) == Ok(l) && Observe(l, family, requestId, state) == Ok(l)
  {
    assert forall j | j in l.jobs :: IdOf(j) != JobId(family, requestId);
  }

  /** A reported status is taken by an unfinished job and by no other. */
  lemma ObservationMovesOneRow(l: Ledger, family: Family, requestId: string, state: State, job: Job)
    requires RowsOk(l.jobs) && job in l.jobs && job.owner.family == family && job.requestId == requestId
    ensures Observe(l, family, requestId, state).Ok?
    ensures var after := Observe(l, family, requestId, state).value;
            && |after.jobs| == |l.jobs|
            && (forall i | 0 <= i < |l.jobs| ::
                  after.jobs[i] == if l.jobs[i] == job && !job.state.Done? then job.(state := state) else l.jobs[i])
  {
    FoundIsUnique(l, family, requestId, job);
    SaveTouchesOneRow(l, job, if Resolved(job.state) then job else job.(state := state), None);
  }

  /** An upload is bound exactly once, to a pending diagnostics job in flight, and marks it started. */
  lemma UploadBoundExactlyOnce(l: Ledger, requestId: string, upload: string, valid: bool, job: Job)
    requires RowsOk(l.jobs) && job in l.jobs && job.owner.family == Diagnostics && job.requestId == requestId
    ensures BindUpload(l, requestId, upload, valid).Ok?
            <==> valid && job.inflight && job.state == Pending && job.upload == None
    ensures BindUpload(l, requestId, upload, valid).Ok? ==>
              var after := BindUpload(l, requestId, upload, valid).value;
              && after.inventory == l.inventory && |after.jobs| == |l.jobs|
              && (forall i | 0 <= i < |l.jobs| ::
                    after.jobs[i] == if l.jobs[i] == job then job.(upload := Some(upload), started := true)
                                     else l.jobs[i])
  {
    FoundIsUnique(l, Diagnostics, requestId, job);
    SaveTouchesOneRow(l, job, job.(upload := Some(upload), started := true), None);
  }

  // Startup ------------------------------------------------------------------------------------------

  /** Nothing is in flight after startup; a pending job was either sent, perhaps, or never started. */
  ghost function Restarted(j: Job): (r: Job) {
    j.(inflight := false,
       state := if j.state != Pending then j.state else if j.started then Uncertain else Done(NotSent))
  }

  ghost function Restarting(): (move: Job -> Job) {
    (j: Job) => Restarted(j)
  }

  lemma RestartedRow(l: Ledger, records: seq<Job>) returns (kept: Ledger, record: Job)
    requires Keyed(l.jobs) && Listed(l, records) && records != [] && !Resolved(records[0].state)
    ensures kept.jobs == l.jobs && record == records[0].(state := Recovered(records[0].state, records[0].started))
    ensures Save(kept, record, Some(false)).Ok?
    ensures RecoverEach(l, records) == RecoverEach(Save(kept, record, Some(false)).value, records[1..])
    ensures var next := Save(kept, record, Some(false)).value;
            && MovedOne(l.jobs, next.jobs, records[0], Restarted(records[0]))
            && Keyed(next.jobs) && Listed(next, records[1..])
  {
    record := records[0].(state := Recovered(records[0].state, records[0].started));
    kept := if Resolved(record.state) then l else l.(inventory := l.inventory + {IdOf(record)});
    SaveMovesOne(kept, records, record, Some(false));
  }

  lemma {:induction false} RecoverEachRows(l: Ledger, records: seq<Job>)
    requires Keyed(l.jobs) && Listed(l, records) && (forall j | j in records :: !j.inflight)
    ensures RecoverEach(l, records).Ok?
    ensures Moved(l.jobs, RecoverEach(l, records).value.jobs, records, Restarting())
    decreases |records|
  {
    if records != [] {
      var row, rest := records[0], records[1..];
      ListedTail(l, records);
      assert row in records && forall j | j in rest :: j in records;
      if Resolved(row.state) {
        RecoverEachRows(l, rest);
        MovedPast(l.jobs, RecoverEach(l, rest).value.jobs, records, Restarting());
      } else {
        var kept, record := RestartedRow(l, records);
        var next := Save(kept, record, Some(false)).value;
        RecoverEachRows(next, rest);
        MovedOnward(l, next.jobs, RecoverEach(next, rest).value.jobs, records, Restarting());
      }
    }
  }

  /** Every row after a pass over one station. */
  ghost function Passed(j: Job, owner: Owner, now: int, startup: bool): (r: Job) {
    if j.owner != owner then j else Expired(if startup then Restarted(j) else j, owner, now)
  }

  lemma ReleasedRows(jobs: seq<Job>, owner: Owner)
    requires Keyed(jobs)
    ensures SameKeys(jobs, ReleasedAll(jobs, owner)) && Keyed(ReleasedAll(jobs, owner))
  {
    KeysKeep(jobs, ReleasedAll(jobs, owner));
  }

  /** The records a restart works through are rows of the released ledger, short of their in-flight flags. */
  lemma {:induction false} ReleasedFilter(jobs: seq<Job>, owner: Owner)
    ensures Filter(ReleasedAll(jobs, owner), OwnedBy(owner)) == ReleasedAll(Filter(jobs, OwnedBy(owner)), owner)
  {
    if jobs != [] {
      ReleasedFilter(jobs[1..], owner);
      var released := ReleasedAll(jobs, owner);
      assert released[1..] == ReleasedAll(jobs[1..], owner);
      if jobs[0].owner == owner {
        var rows := [jobs[0]] + Filter(jobs[1..], OwnedBy(owner));
        assert rows[1..] == Filter(jobs[1..], OwnedBy(owner));
      }
    }
  }

  /** The stale in-flight flag of a record plays no part in recovering it. */
  lemma {:induction false} RecoverIgnoresInFlight(l: Ledger, records: seq<Job>, owner: Owner)
    ensures RecoverEach(l, ReleasedAll(records, owner)) == RecoverEach(l, records)
    decreases |records|
  {
    if records != [] {
      var released := ReleasedAll(records, owner);
      assert released[1..] == ReleasedAll(records[1..], owner);
      var row, twin := records[0], released[0];
      if Resolved(row.state) {
        RecoverIgnoresInFlight(l, records[1..], owner);
      } else {
        var record := row.(state := Recovered(row.state, row.started));
        var other := twin.(state := Recovered(twin.state, twin.started));
        var kept := if Resolved(record.state) then l else l.(inventory := l.inventory + {IdOf(record)});
        SaveIgnoresInFlight(kept, record, other, Some(false));
        if Save(kept, record, Some(false)).Ok? {
          RecoverIgnoresInFlight(Save(kept, record, Some(false)).value, records[1..], owner);
        }
      }
    }
  }

  lemma {:induction false} RewritingIgnoresInFlight(jobs: seq<Job>, a: Job, b: Job, inflight: Option<bool>)
    requires b == a.(inflight := b.inflight)
    ensures RewrittenAll(jobs, a, inflight) == RewrittenAll(jobs, b, inflight)
  {
    if jobs != [] {
      RewritingIgnoresInFlight(jobs[1..], a, b, inflight);
    }
  }

  lemma RowsIgnoreInFlight(jobs: seq<Job>, a: Job, b: Job)
    requires b == a.(inflight := b.inflight)
    ensures (exists j | j in jobs :: SameRow(j, a)) <==> exists j | j in jobs :: SameRow(j, b)
  {
    if j :| j in jobs && SameRow(j, a) {
      assert SameRow(j, b);
    }
    if j :| j in jobs && SameRow(j, b) {
      assert SameRow(j, a);
    }
  }

  lemma SaveIgnoresInFlight(l: Ledger, a: Job, b: Job, inflight: Option<bool>)
    requires b == a.(inflight := b.inflight) && inflight != Some(true)
    ensures Save(l, a, inflight) == Save(l, b, inflight)
  {
    RowsIgnoreInFlight(l.jobs, a, b);
    RewritingIgnoresInFlight(l.jobs, a, b, inflight);
  }

  lemma RecoveredRows(l: Ledger, owner: Owner)
    requires Keyed(l.jobs)
    ensures var released := l.(jobs := ReleasedAll(l.jobs, owner));
            var after := RecoverEach(released, Filter(l.jobs, OwnedBy(owner)));
            && after.Ok? && |after.value.jobs| == |l.jobs|
            && (forall i | 0 <= i < |l.jobs| ::
                  after.value.jobs[i] == if l.jobs[i].owner == owner then Restarted(l.jobs[i]) else l.jobs[i])
  {
    var released := l.(jobs := ReleasedAll(l.jobs, owner));
    ReleasedRows(l.jobs, owner);
    var records := Filter(released.jobs, OwnedBy(owner));
    ReleasedFilter(l.jobs, owner);
    RecoverIgnoresInFlight(released, Filter(l.jobs, OwnedBy(owner)), owner);
    ReadIsListed(released, owner);
    forall j | j in records ensures !j.inflight {
      var i :| 0 <= i < |released.jobs| && released.jobs[i] == j;
    }
    RecoverEachRows(released, records);
    forall i | 0 <= i < |l.jobs|
      ensures RecoverEach(released, records).value.jobs[i]
              == if l.jobs[i].owner == owner then Restarted(l.jobs[i]) else l.jobs[i]
    {
      assert released.jobs[i] in released.jobs;
    }
  }

  /** A pass over one station: at startup nothing stays in flight or pending, and overdue jobs time out. */
  lemma MaintainMovesRows(l: Ledger, owner: Owner, now: int, startup: bool)
    requires RowsOk(l.jobs)
    ensures Maintain(l, owner, now, startup).Ok?
    ensures var after := Maintain(l, owner, now, startup).value;
            && |after.jobs| == |l.jobs|
            && (forall i | 0 <= i < |l.jobs| :: after.jobs[i] == Passed(l.jobs[i], owner, now, startup))
  {
    var records := Filter(l.jobs, OwnedBy(owner));
    RecoveredRows(l, owner);
    var ready := if startup then RecoverEach(l.(jobs := ReleasedAll(l.jobs, owner)), records).value else l;
    assert SameKeys(l.jobs, ready.jobs);
    SameKeysKeep(l.jobs, ready.jobs);
    if records == [] {
      NoOwnRows(l.jobs, owner);
    } else {
      ExpiresExactlyOverdue(ready, owner, now);
    }
  }

  lemma NoOwnRows(jobs: seq<Job>, owner: Owner)
    requires Filter(jobs, OwnedBy(owner)) == []
    ensures forall i | 0 <= i < |jobs| :: jobs[i].owner != owner
  {
    forall i | 0 <= i < |jobs| ensures jobs[i].owner != owner {
      assert jobs[i] in jobs;
    }
  }

  lemma PassedTwice(j: Job, owner: Owner, now: int, startup: bool)
    ensures Passed(Passed(j, owner, now, startup), owner, now, startup) == Passed(j, owner, now, startup)
  {
  }

  /** The whole pass: every row of a station in the list has passed, whatever the order, and no other row moved. */
  lemma {:induction false} MaintainAllMovesRows(l: Ledger, owners: seq<Owner>, now: int, startup: bool)
    requires RowsOk(l.jobs)
    ensures MaintainAll(l, owners, now, startup).Ok?
    ensures var after := MaintainAll(l, owners, now, startup).value;
            && |after.jobs| == |l.jobs|
            && (forall i | 0 <= i < |l.jobs| ::
                  after.jobs[i] == if l.jobs[i].owner in owners
                                   then Passed(l.jobs[i], l.jobs[i].owner, now, startup) else l.jobs[i])
    decreases |owners|
  {
    if owners != [] {
      MaintainMovesRows(l, owners[0], now, startup);
      MaintainKeepsSound(l, owners[0], now, startup);
      var next := Maintain(l, owners[0], now, startup).value;
      MaintainAllMovesRows(next, owners[1..], now, startup);
      forall i | 0 <= i < |l.jobs| ensures next.jobs[i].owner == l.jobs[i].owner {
      }
      forall i | 0 <= i < |l.jobs| && l.jobs[i].owner == owners[0]
        ensures Passed(next.jobs[i], owners[0], now, startup) == Passed(l.jobs[i], owners[0], now, startup)
      {
        PassedTwice(l.jobs[i], owners[0], now, startup);
      }
    }
  }

  // Steps of a run -----------------------------------------------------------------------------------

  ghost function Tried(l: Ledger, r: Result<Ledger>): (after: Ledger) {
    if r.Ok? then r.value else l
  }

  /** The steps of a run are the transitions described here; a refused one changes nothing. */
  lemma RequestStepsAreTransitions(l: Ledger, m: Mutation, retained: set<string>, id: string, ok: bool)
    ensures Step(l, Reserving(m, retained)) == Tried(l, Reserve(l, m, retained))
    ensures Step(l, Binding(id, id, ok)) == Tried(l, BindUpload(l, id, id, ok))
  {
  }

  lemma AnswerStepIsTransition(l: Ledger, family: Family, id: string, f: Finish)
    ensures Step(l, Finishing(family, id, f)) == Tried(l, FinishJob(l, family, id, f))
  {
  }

  lemma StatusStepIsTransition(l: Ledger, family: Family, id: string, state: State)
    ensures Step(l, Observing(family, id, state)) == Tried(l, Observe(l, family, id, state))
  {
  }

  lemma PassStepsAreTransitions(l: Ledger, owner: Owner, retained: set<string>, now: int, owners: seq<Owner>,
      startup: bool)
    ensures Step(l, Expiring(owner, now)) == Tried(l, Expire(l, owner, now))
    ensures Step(l, Pruning(owner, retained)) == Tried(l, Prune(l, owner, retained))
    ensures Step(l, Maintaining(owners, now, startup)) == Tried(l, MaintainAll(l, owners, now, startup))
  {
  }

  /** The other ledgers and the drain add and remove one key, unless the drain is sealed or the bound is reached. */
  lemma OtherKeysMove(l: Ledger, name: string, id: JobId, bounded: bool, valid: bool, isSealed: bool)
    ensures Step(l, RegisteringOther(name, bounded))
            == if bounded && |l.inventory| >= 128 then l else l.(inventory := l.inventory + {Foreign(name)})
    ensures Step(l, ResolvingOther(name)) == l.(inventory := l.inventory - {Foreign(name)})
    ensures Step(l, StartingRelease(id, valid, isSealed))
            == if valid && !isSealed && |l.inventory| < 128 then l.(inventory := l.inventory + {id}) else l
    ensures Step(l, FinishingRelease(id, valid, isSealed))
            == if valid && !isSealed then l.(inventory := l.inventory - {id}) else l
  {
  }
}
