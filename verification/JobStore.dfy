/** The job tables updated in place, with the loops and single statements the store uses. */
module JobStore {
  import opened Common
  import opened Sequences
  import opened JobLedger
  import opened JobRuns

  /** Rows the delete statements issued so far match. */
  function Gone(owner: Owner, revisions: set<nat>, retained: set<string>): (p: Job -> bool) {
    (j: Job) => j.owner == owner && j.revision in revisions && !j.inflight && j.requestId !in retained
  }

  /** One more delete statement. */
  lemma DeleteAlso(jobs: seq<Job>, owner: Owner, revisions: set<nat>, revision: nat, retained: set<string>)
    ensures Filter(Filter(jobs, Not(Gone(owner, revisions, retained))), Not(Gone(owner, {revision}, retained)))
            == Filter(jobs, Not(Gone(owner, revisions + {revision}, retained)))
  {
    var wide, narrow := Not(Gone(owner, revisions, retained)), Not(Gone(owner, revisions + {revision}, retained));
    FilterInside(jobs, wide, narrow);
    FilterSame(Filter(jobs, wide), Not(Gone(owner, {revision}, retained)), narrow);
  }

  function ResolvedRevisions(records: seq<Job>): (s: set<nat>) {
    set j | j in records && Resolved(j.state) :: j.revision
  }

  lemma NextRevision(records: seq<Job>, i: nat)
    requires i < |records|
    ensures ResolvedRevisions(records[..i + 1])
            == if Resolved(records[i].state) then ResolvedRevisions(records[..i]) + {records[i].revision}
               else ResolvedRevisions(records[..i])
  {
    assert records[..i + 1] == records[..i] + [records[i]];
  }

  /** Deleting the resolved rows before the newest one by one removes exactly the disposable ones. */
  lemma DeletesAreExact(jobs: seq<Job>, owner: Owner, retained: set<string>)
    requires Keyed(jobs) && Filter(jobs, OwnedBy(owner)) != []
    ensures var records := Filter(jobs, OwnedBy(owner));
            var older := records[..|records| - 1];
            Filter(jobs, Not(Gone(owner, ResolvedRevisions(older), retained)))
                == LeftAfterPruning(jobs, owner, retained)
  {
    var records := Filter(jobs, OwnedBy(owner));
    var older, newest := records[..|records| - 1], records[|records| - 1];
    FilterKeepsKeys(jobs, OwnedBy(owner));
    assert newest in records;
    forall j | j in jobs
      ensures Not(Gone(owner, ResolvedRevisions(older), retained))(j)
              <==> Not(Disposable(owner, newest.revision, retained))(j)
    {
      if j.owner == owner {
        assert j in records;
        OlderExactlyWhenNotNewest(records, owner, j);
      }
    }
    FilterSame(jobs, Not(Gone(owner, ResolvedRevisions(older), retained)),
        Not(Disposable(owner, newest.revision, retained)));
  }

  lemma NewestStandsAlone(records: seq<Job>, owner: Owner, k: nat)
    requires Keyed(records) && k + 1 < |records| && forall x | x in records :: x.owner == owner
    ensures records[k].revision < records[|records| - 1].revision
  {
    assert records[k] in records && records[|records| - 1] in records;
  }

  /** Of one station's rows in order, the older ones are those with another revision than the newest. */
  lemma OlderHasRevision(records: seq<Job>, owner: Owner, j: Job)
    requires Keyed(records) && j in records && forall x | x in records :: x.owner == owner
    ensures j in records[..|records| - 1] <==> j.revision != records[|records| - 1].revision
  {
    var last := |records| - 1;
    var i :| 0 <= i < |records| && records[i] == j;
    if i < last {
      NewestStandsAlone(records, owner, i);
      assert records[..last][i] == j;
    }
  }

  lemma OlderExactlyWhenNotNewest(records: seq<Job>, owner: Owner, j: Job)
    requires Keyed(records) && j in records && forall x | x in records :: x.owner == owner
    ensures var older := records[..|records| - 1];
            j.revision in ResolvedRevisions(older)
            <==> Resolved(j.state) && j.revision != records[|records| - 1].revision
  {
    var older := records[..|records| - 1];
    OlderHasRevision(records, owner, j);
    if j.revision in ResolvedRevisions(older) {
      var x :| x in older && Resolved(x.state) && x.revision == j.revision;
      assert x in records;
      OneRow(records, x, j);
    }
  }

  class JobTables {
    var jobs: seq<Job>
    var inventory: set<JobId>

    function Contents(): (l: Ledger)
      reads this
    {
      Ledger(jobs, inventory)
    }

    constructor ()
      ensures Contents() == Ledger([], {}) && Sound(Contents())
    {
      jobs, inventory := [], {};
    }

    /** A full inventory refuses a bounded registration; registering twice changes nothing. */
    method RegisterReleaseJob(id: JobId, bounded: bool) returns (ok: bool)
      modifies this`inventory
      ensures var spec := Register(old(Contents()), id, bounded);
              ok == spec.Ok? && Contents() == (if ok then spec.value else old(Contents()))
    {
      if bounded && |inventory| >= MAX_RELEASE_JOBS {
        return false;
      }
      inventory := inventory + {id};
      return true;
    }

    /** The drain records a job of its own. */
    method StartReleaseJob(id: JobId, valid: bool, isSealed: bool) returns (ok: bool)
      modifies this`inventory
      ensures var spec := StartRelease(old(Contents()), id, valid, isSealed);
              ok == spec.Ok? && Contents() == (if ok then spec.value else old(Contents()))
    {
      if !valid || isSealed || |inventory| >= MAX_RELEASE_JOBS || id in inventory {
        return false;
      }
      inventory := inventory + {id};
      return true;
    }

    /** The drain forgets a job, whoever registered it. */
    method FinishReleaseJob(id: JobId, valid: bool, isSealed: bool) returns (ok: bool)
      modifies this`inventory
      ensures var spec := FinishRelease(old(Contents()), id, valid, isSealed);
              ok == spec.Ok? && Contents() == (if ok then spec.value else old(Contents()))
    {
      if !valid || isSealed {
        return false;
      }
      inventory := inventory - {id};
      return true;
    }

    method SaveJob(record: Job, inflight: Option<bool>) returns (ok: bool)
      modifies this
      ensures var spec := Save(old(Contents()), record, inflight);
              ok == spec.Ok? && Contents() == (if ok then spec.value else old(Contents()))
    {
      if !(exists j | j in jobs :: SameRow(j, record)) || Contended(jobs, record, inflight) {
        return false;
      }
      jobs := RewrittenAll(jobs, record, inflight);
      if Resolved(record.state) {
        inventory := inventory - {IdOf(record)};
      }
      return true;
    }

    /** Time out what is overdue, row by row; the caller's transaction rolls back on failure. */
    method ExpireJobs(owner: Owner, now: int) returns (ok: bool)
      modifies this
      ensures var spec := Expire(old(Contents()), owner, now);
              ok == spec.Ok? && (ok ==> Contents() == spec.value)
    {
      var records := Filter(jobs, OwnedBy(owner));
      if |records| > MAX_JOBS {
        return false;
      }
      for i := 0 to |records|
        invariant ExpireEach(old(Contents()), records, now) == ExpireEach(Contents(), records[i..], now)
      {
        assert records[i..][1..] == records[i + 1..];
        if Overdue(records[i], now) {
          ok := SaveJob(records[i].(state := TimedOut), None);
          if !ok {
            return;
          }
        }
      }
      ok := true;
    }

    /** One delete statement for every resolved record. */
    method DeleteResolved(owner: Owner, records: seq<Job>, retained: set<string>)
      modifies this`jobs
      ensures jobs == Filter(old(jobs), Not(Gone(owner, ResolvedRevisions(records), retained)))
    {
      FilterAll(jobs, Not(Gone(owner, {}, retained)));
      assert ResolvedRevisions(records[..0]) == {};
      for i := 0 to |records|
        invariant jobs == Filter(old(jobs), Not(Gone(owner, ResolvedRevisions(records[..i]), retained)))
      {
        NextRevision(records, i);
        if Resolved(records[i].state) {
          DeleteAlso(old(jobs), owner, ResolvedRevisions(records[..i]), records[i].revision, retained);
          jobs := Filter(jobs, Not(Gone(owner, {records[i].revision}, retained)));
        }
      }
      assert records[..|records|] == records;
    }

    /** Drop resolved rows whose public result is gone, keeping the newest as the station's head. */
    method PruneJobs(owner: Owner, retained: set<string>) returns (ok: bool)
      requires Keyed(jobs)
      modifies this`jobs
      ensures var spec := Prune(old(Contents()), owner, retained);
              ok == spec.Ok? && Contents() == (if ok then spec.value else old(Contents()))
    {
      var values := Filter(jobs, OwnedBy(owner));
      if |values| > MAX_JOBS {
        return false;
      }
      if values != [] {
        DeletesAreExact(jobs, owner, retained);
        DeleteResolved(owner, values[..|values| - 1], retained);
      } else {
        FilterAll(jobs, Not(Disposable(owner, Newest(values), retained)));
      }
      return true;
    }

    method InsertReserved(m: Mutation) returns (ok: bool)
      modifies this
      ensures var spec := ReserveInto(old(Contents()), m);
              ok == spec.Ok? && (ok ==> Contents() == spec.value)
    {
      var values := Filter(jobs, OwnedBy(m.owner));
      var revision := Newest(values) + 1;
      ok := !HasInFlight(jobs, m.owner)
            && |values| < MAX_JOBS && !Blocked(values, m)
            && revision <= I64_MAX && m.deadline > m.admittedAt;
      if ok {
        ok := RegisterReleaseJob(JobId(m.owner.family, m.requestId), true);
      }
      if ok {
        ok := !Taken(jobs, m.owner.family, m.requestId);
      }
      if ok {
        jobs := jobs + [NewJob(m, revision)];
      }
    }

    /** One transaction: the job and its inventory row are both there, or nothing changed. */
    method ReserveJob(m: Mutation, retained: set<string>) returns (ok: bool)
      requires RowsOk(jobs)
      modifies this
      ensures Keeps(old(Contents()), Contents())
      ensures var spec := Reserve(old(Contents()), m, retained);
              ok == spec.Ok? && Contents() == (if ok then spec.value else old(Contents()))
    {
      if !m.valid {
        return false;
      }
      var savedJobs, savedInventory := jobs, inventory;
      ok := ExpireJobs(m.owner, m.admittedAt);
      if ok {
        ExpireKeepsSound(old(Contents()), m.owner, m.admittedAt);
        ok := PruneJobs(m.owner, retained);
      }
      if ok {
        ok := InsertReserved(m);
      }
      if ok {
        ReserveKeepsSound(old(Contents()), m, retained);
      } else {
        jobs, inventory := savedJobs, savedInventory;
      }
    }

    /** Only a pending, unbound, in-flight job gets a destination, and from then on counts as started. */
    method Bind(requestId: string, upload: string, valid: bool) returns (ok: bool)
      modifies this
      ensures var spec := BindUpload(old(Contents()), requestId, upload, valid);
              ok == spec.Ok? && Contents() == (if ok then spec.value else old(Contents()))
    {
      var found := Find(Contents(), Diagnostics, requestId);
      if found.None? || !found.value.inflight {
        return false;
      }
      if !found.value.state.Pending? || found.value.upload.Some? {
        return false;
      }
      if !valid {
        return false;
      }
      ok := SaveJob(found.value.(upload := Some(upload), started := true), None);
    }
  }
}
