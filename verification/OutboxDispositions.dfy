/**
 Operator dispositions of retired destinations: the authorisations that can exist, and what settling
 does to every disposition, delivery and archive row, stated against the state it started from.
 */
module OutboxDispositions {
  import opened Common
  import opened Sequences
  import opened Outbox

  // Reachable authorisations -------------------------------------------------------------------------

  ghost predicate DistinctAudits(dispositions: seq<Disposition>) {
    forall i, j | 0 <= i < j < |dispositions| :: dispositions[i].auditId != dispositions[j].auditId
  }

  ghost predicate OneAuthorized(dispositions: seq<Disposition>) {
    forall i, j | 0 <= i < j < |dispositions| && IsAuthorized(dispositions[i]) && IsAuthorized(dispositions[j]) ::
      dispositions[i].destination != dispositions[j].destination
  }

  /** At most one authorised disposition per destination, at most the cap overall, audit ids never repeat. */
  ghost predicate Orderly(db: Db) {
    DistinctAudits(db.dispositions) && OneAuthorized(db.dispositions)
    && |Filter(db.dispositions, IsAuthorized)| <= MAX_PENDING
  }

  lemma AuthorizeKeepsOrder(db: Db, destination: Destination, action: Action, principal: Text, auditId: Text)
    requires Orderly(db) && Authorize(db, destination, action, principal, auditId).Ok?
    ensures Orderly(Authorize(db, destination, action, principal, auditId).value)
  {
    var added := Disposition(auditId, destination, action, principal, Authorized);
    FilterAppend(db.dispositions, [added], IsAuthorized);
    forall i | 0 <= i < |db.dispositions| && IsAuthorized(db.dispositions[i])
      ensures db.dispositions[i].destination != destination
    {
      var d := db.dispositions[i];
      assert AuthorizedFor(destination)(d) ==> d in Filter(db.dispositions, AuthorizedFor(destination));
    }
  }

  lemma {:induction false} MarkingUnauthorises(dispositions: seq<Disposition>, auditId: Text, state: DispositionState)
    requires !state.Authorized?
    ensures |Filter(Marked(dispositions, auditId, state), IsAuthorized)| <= |Filter(dispositions, IsAuthorized)|
  {
    if dispositions != [] {
      MarkingUnauthorises(dispositions[1..], auditId, state);
      assert Marked(dispositions, auditId, state)[1..] == Marked(dispositions[1..], auditId, state);
    }
  }

  lemma MarkingKeepsOrder(dispositions: seq<Disposition>, auditId: Text, state: DispositionState)
    requires DistinctAudits(dispositions) && OneAuthorized(dispositions) && !state.Authorized?
    ensures DistinctAudits(Marked(dispositions, auditId, state)) && OneAuthorized(Marked(dispositions, auditId, state))
  {
    var after := Marked(dispositions, auditId, state);
    forall i, j | 0 <= i < j < |after| ensures after[i].auditId != after[j].auditId {
      assert dispositions[i].auditId != dispositions[j].auditId;
    }
    forall i, j | 0 <= i < j < |after| && IsAuthorized(after[i]) && IsAuthorized(after[j])
      ensures after[i].destination != after[j].destination
    {
      assert after[i] == dispositions[i] && after[j] == dispositions[j];
    }
  }

  lemma SettleOneKeepsOrder(db: Db, d: Disposition, selected: Option<Destination>, at: Text)
    requires Orderly(db)
    ensures Orderly(SettleOne(db, d, selected, at))
  {
    var state := Outcome(db, d.destination, selected);
    assert SettleOne(db, d, selected, at).dispositions == Marked(db.dispositions, d.auditId, state);
    MarkingUnauthorises(db.dispositions, d.auditId, state);
    MarkingKeepsOrder(db.dispositions, d.auditId, state);
  }

  lemma {:induction false} SettleEachKeepsOrder(db: Db, pending: seq<Disposition>, selected: Option<Destination>,
      at: Text)
    requires Orderly(db)
    ensures Orderly(SettleEach(db, pending, selected, at))
    decreases |pending|
  {
    if pending != [] {
      SettleOneKeepsOrder(db, pending[0], selected, at);
      SettleEachKeepsOrder(SettleOne(db, pending[0], selected, at), pending[1..], selected, at);
    }
  }

  lemma {:induction false} InsertsKeepDispositions(db: Db, w: Write)
    requires InsertEvents(db, w.events).Ok?
    requires InsertDeliveries(InsertEvents(db, w.events).value, w.deliveries).Ok?
    requires InsertRecords(InsertDeliveries(InsertEvents(db, w.events).value, w.deliveries).value, w.records).Ok?
    ensures var after := InsertRecords(InsertDeliveries(InsertEvents(db, w.events).value, w.deliveries).value,
            w.records).value;
            after.dispositions == db.dispositions && after.archive == db.archive
    decreases |w.events|, |w.deliveries|, |w.records|
  {
    if w.events != [] {
      InsertsKeepDispositions(InsertEvent(db, w.events[0]).value, w.(events := w.events[1..]));
    } else if w.deliveries != [] {
      InsertsKeepDispositions(InsertDelivery(db, w.deliveries[0]).value, w.(deliveries := w.deliveries[1..]));
    } else if w.records != [] {
      InsertsKeepDispositions(InsertRecord(db, w.records[0]).value, w.(records := w.records[1..]));
    }
  }

  lemma WriteKeepsDispositions(db: Db, policy: Policy, w: Write)
    requires ValidPolicy(policy) && WriteAtomic(db, policy, w).Ok?
    ensures WriteAtomic(db, policy, w).value.dispositions == db.dispositions
    ensures WriteAtomic(db, policy, w).value.archive == db.archive
  {
    var p := PrepareWrite(db, policy, w).value;
    InsertsKeepDispositions(p.db, p.write);
  }

  lemma StepKeepsOrder(db: Db, policy: Policy, op: Op)
    requires ValidPolicy(policy) && Orderly(db)
    ensures Orderly(Step(db, policy, op))
  {
    match op
    case Writing(w) =>
      if WriteAtomic(db, policy, w).Ok? {
        WriteKeepsDispositions(db, policy, w);
      }
    case Maintaining(_) =>
    case Attempting(_) =>
    case Authorizing(destination, action, principal, auditId) =>
      if Authorize(db, destination, action, principal, auditId).Ok? {
        AuthorizeKeepsOrder(db, destination, action, principal, auditId);
      }
    case Settling(selected, at) =>
      SettleEachKeepsOrder(db, Take(Filter(db.dispositions, IsAuthorized), MAX_PENDING), selected, at);
  }

  /** In every reachable state at most one disposition per destination and at most the cap are authorised. */
  lemma {:induction false} OrderlyInEveryReachableState(db: Db, policy: Policy, ops: seq<Op>)
    requires ValidPolicy(policy) && Orderly(db)
    ensures Orderly(Run(db, policy, ops))
    decreases |ops|
  {
    if ops != [] {
      StepKeepsOrder(db, policy, ops[0]);
      OrderlyInEveryReachableState(Step(db, policy, ops[0]), policy, ops[1..]);
    }
  }

  // What settling does -------------------------------------------------------------------------------

  /** How a disposition for this destination ends, with the counts of the state settling started from. */
  function Outcome(db: Db, destination: Destination, selected: Option<Destination>): (s: DispositionState) {
    if selected == Some(destination) then Superseded
    else Executed(CriticalCount(db, destination), TotalCount(db, destination))
  }

  /** A delivery whose destination is authorised and not selected. */
  function Doomed(pending: seq<Disposition>, selected: Option<Destination>): (p: Delivery -> bool) {
    (d: Delivery) => selected != Some(d.row.destination)
        && exists p | p in pending :: p.destination == d.row.destination
  }

  function ArchivedFor(deliveries: seq<Delivery>, d: Disposition, selected: Option<Destination>,
      at: Text): (r: seq<Archived>)
  {
    if d.action.Archive? && selected != Some(d.destination)
    then ArchivedRows(Filter(deliveries, SentTo(d.destination)), d.auditId, at) else []
  }

  /** Archive rows in disposition order, and in delivery order within one disposition. */
  function ArchivedBy(deliveries: seq<Delivery>, pending: seq<Disposition>, selected: Option<Destination>,
      at: Text): (r: seq<Archived>)
  {
    if pending == [] then []
    else ArchivedFor(deliveries, pending[0], selected, at) + ArchivedBy(deliveries, pending[1..], selected, at)
  }

  ghost predicate Separate(pending: seq<Disposition>) {
    forall i, j | 0 <= i < j < |pending| ::
      pending[i].destination != pending[j].destination && pending[i].auditId != pending[j].auditId
  }

  lemma SeparateTail(pending: seq<Disposition>)
    requires pending != [] && Separate(pending)
    ensures Separate(pending[1..])
    ensures forall p | p in pending[1..] :: p.destination != pending[0].destination && p.auditId != pending[0].auditId
  {
    assert forall i | 0 <= i < |pending| - 1 :: pending[1..][i] == pending[i + 1];
  }

  /** Removing one destination's rows leaves another's. */
  lemma OthersUntouched(db: Db, gone: Destination, kept: Destination)
    requires gone != kept
    ensures var rest := db.(deliveries := Filter(db.deliveries, Not(SentTo(gone))));
            && Filter(rest.deliveries, SentTo(kept)) == Filter(db.deliveries, SentTo(kept))
            && CriticalCount(rest, kept) == CriticalCount(db, kept)
            && TotalCount(rest, kept) == TotalCount(db, kept)
  {
    FilterInside(db.deliveries, Not(SentTo(gone)), SentTo(kept));
  }

  lemma {:induction false} ArchiveIgnoresOthers(db: Db, gone: Destination, pending: seq<Disposition>,
                                                selected: Option<Destination>, at: Text)
    requires forall p | p in pending :: p.destination != gone
    ensures ArchivedBy(Filter(db.deliveries, Not(SentTo(gone))), pending, selected, at)
            == ArchivedBy(db.deliveries, pending, selected, at)
  {
    if pending != [] {
      assert pending[0] in pending;
      OthersUntouched(db, gone, pending[0].destination);
      assert forall p | p in pending[1..] :: p in pending;
      ArchiveIgnoresOthers(db, gone, pending[1..], selected, at);
    }
  }

  lemma {:induction false} RemovalsCompose(deliveries: seq<Delivery>, pending: seq<Disposition>,
      selected: Option<Destination>)
    requires pending != []
    ensures var first := if selected == Some(pending[0].destination) then deliveries
                         else Filter(deliveries, Not(SentTo(pending[0].destination)));
            Filter(first, Not(Doomed(pending[1..], selected))) == Filter(deliveries, Not(Doomed(pending, selected)))
  {
    assert forall p | p in pending :: p == pending[0] || p in pending[1..];
    assert pending[0] in pending;
    forall d | d in deliveries
      ensures Doomed(pending, selected)(d)
              <==> || Doomed(pending[1..], selected)(d)
                   || (selected != Some(d.row.destination) && SentTo(pending[0].destination)(d))
    {
    }
    if selected == Some(pending[0].destination) {
      FilterSame(deliveries, Not(Doomed(pending[1..], selected)), Not(Doomed(pending, selected)));
    } else {
      FilterInside(deliveries, Not(SentTo(pending[0].destination)), Not(Doomed(pending, selected)));
      FilterSame(Filter(deliveries, Not(SentTo(pending[0].destination))), Not(Doomed(pending[1..], selected)),
          Not(Doomed(pending, selected)));
    }
  }

  lemma {:induction false} SettledDeliveries(db: Db, pending: seq<Disposition>, selected: Option<Destination>, at: Text)
    ensures var after := SettleEach(db, pending, selected, at);
            && after.deliveries == Filter(db.deliveries, Not(Doomed(pending, selected)))
            && after == db.(deliveries := after.deliveries, archive := after.archive,
               dispositions := after.dispositions)
    decreases |pending|
  {
    if pending == [] {
      FilterAll(db.deliveries, Not(Doomed([], selected)));
    } else {
      SettledDeliveries(SettleOne(db, pending[0], selected, at), pending[1..], selected, at);
      RemovalsCompose(db.deliveries, pending, selected);
    }
  }

  /** Settling touches deliveries, archive and dispositions only, and adds no delivery. */
  lemma SettlingFrame(db: Db, selected: Option<Destination>, at: Text)
    ensures var after := Settle(db, selected, at);
            && after == db.(deliveries := after.deliveries, archive := after.archive,
               dispositions := after.dispositions)
            && (forall d | d in after.deliveries :: d in db.deliveries)
  {
    SettledDeliveries(db, Take(Filter(db.dispositions, IsAuthorized), MAX_PENDING), selected, at);
  }

  lemma OneArchive(db: Db, d: Disposition, selected: Option<Destination>, at: Text, pending: seq<Disposition>)
    requires forall p | p in pending :: p.destination != d.destination
    ensures var next := SettleOne(db, d, selected, at);
            && next.archive == db.archive + ArchivedFor(db.deliveries, d, selected, at)
            && ArchivedBy(next.deliveries, pending, selected, at) == ArchivedBy(db.deliveries, pending, selected, at)
  {
    if selected != Some(d.destination) {
      ArchiveIgnoresOthers(db, d.destination, pending, selected, at);
    }
  }

  lemma ArchiveJoins(before: seq<Archived>, chunk: seq<Archived>, tail: seq<Archived>)
    ensures (before + chunk) + tail == before + (chunk + tail)
  {
  }

  lemma {:induction false} SettledArchive(db: Db, pending: seq<Disposition>, selected: Option<Destination>, at: Text)
    requires Separate(pending)
    ensures SettleEach(db, pending, selected, at).archive
            == db.archive + ArchivedBy(db.deliveries, pending, selected, at)
    decreases |pending|, 0
  {
    if pending == [] {
      assert db.archive + [] == db.archive;
    } else {
      SeparateTail(pending);
      SettledArchiveFrom(db, pending[0], pending[1..], selected, at);
      assert pending == [pending[0]] + pending[1..];
    }
  }

  lemma SettledArchiveFrom(db: Db, first: Disposition, rest: seq<Disposition>, selected: Option<Destination>, at: Text)
    requires Separate(rest) && forall p | p in rest :: p.destination != first.destination
    ensures SettleEach(SettleOne(db, first, selected, at), rest, selected, at).archive
            == db.archive + (ArchivedFor(db.deliveries, first, selected, at)
                               + ArchivedBy(db.deliveries, rest, selected, at))
    decreases |rest|, 1
  {
    OneArchive(db, first, selected, at, rest);
    SettledArchive(SettleOne(db, first, selected, at), rest, selected, at);
    ArchiveJoins(db.archive, ArchivedFor(db.deliveries, first, selected, at),
        ArchivedBy(db.deliveries, rest, selected, at));
  }

  lemma SameOutcome(db: Db, d: Disposition, selected: Option<Destination>, at: Text, other: Destination)
    requires other != d.destination
    ensures Outcome(SettleOne(db, d, selected, at), other, selected) == Outcome(db, other, selected)
  {
    OthersUntouched(db, d.destination, other);
  }

  lemma {:induction false} SettledMarks(db: Db, pending: seq<Disposition>, selected: Option<Destination>, at: Text)
    requires Separate(pending)
    ensures var after := SettleEach(db, pending, selected, at).dispositions;
            && |after| == |db.dispositions|
            && (forall i, p | 0 <= i < |after| && p in pending && db.dispositions[i].auditId == p.auditId ::
                  after[i] == db.dispositions[i].(state := Outcome(db, p.destination, selected)))
            && (forall i | 0 <= i < |after| && (forall p | p in pending :: p.auditId != db.dispositions[i].auditId) ::
                  after[i] == db.dispositions[i])
    decreases |pending|
  {
    if pending != [] {
      var first, rest := pending[0], pending[1..];
      var next := SettleOne(db, first, selected, at);
      assert next.dispositions == Marked(db.dispositions, first.auditId, Outcome(db, first.destination, selected));
      SettledMarks(next, rest, selected, at);
      var after := SettleEach(db, pending, selected, at).dispositions;
      assert forall p | p in pending :: p == first || p in rest;
      assert forall p | p in rest :: p in pending && p.auditId != first.auditId && p.destination != first.destination;
      forall i, p | 0 <= i < |after| && p in pending && db.dispositions[i].auditId == p.auditId
        ensures after[i] == db.dispositions[i].(state := Outcome(db, p.destination, selected))
      {
        if p in rest {
          SameOutcome(db, first, selected, at, p.destination);
          assert next.dispositions[i].auditId == p.auditId;
        } else {
          assert forall q | q in rest :: q.auditId != next.dispositions[i].auditId;
        }
      }
      forall i | 0 <= i < |after| && (forall p | p in pending :: p.auditId != db.dispositions[i].auditId)
        ensures after[i] == db.dispositions[i]
      {
        assert first in pending;
        assert forall q | q in rest :: q.auditId != next.dispositions[i].auditId;
      }
    }
  }

  lemma {:induction false} SelectionSeparate(dispositions: seq<Disposition>)
    requires DistinctAudits(dispositions) && OneAuthorized(dispositions)
    ensures Separate(Filter(dispositions, IsAuthorized))
  {
    if dispositions != [] {
      var rest := Filter(dispositions[1..], IsAuthorized);
      SelectionSeparate(dispositions[1..]);
      if IsAuthorized(dispositions[0]) {
        forall j | 0 <= j < |rest|
          ensures rest[j].destination != dispositions[0].destination && rest[j].auditId != dispositions[0].auditId
        {
          assert rest[j] in dispositions[1..];
        }
      }
    }
  }

  /**
   Settling leaves nothing authorised. Each authorised disposition ends with the counts of the state
   settling started from, everything else is unchanged, exactly the doomed deliveries go, and the
   archived ones are appended in order.
   */
  lemma SettlingIsExact(db: Db, selected: Option<Destination>, at: Text)
    requires Orderly(db)
    ensures var after := Settle(db, selected, at);
            var pending := Filter(db.dispositions, IsAuthorized);
            && |after.dispositions| == |db.dispositions|
            && (forall i | 0 <= i < |db.dispositions| ::
                  after.dispositions[i]
                  == if IsAuthorized(db.dispositions[i])
                     then db.dispositions[i].(state := Outcome(db, db.dispositions[i].destination, selected))
                     else db.dispositions[i])
            && Filter(after.dispositions, IsAuthorized) == []
            && after.deliveries == Filter(db.deliveries, Not(Doomed(pending, selected)))
            && after.archive == db.archive + ArchivedBy(db.deliveries, pending, selected, at)
            && after == db.(deliveries := after.deliveries, archive := after.archive,
               dispositions := after.dispositions)
  {
    var pending := Filter(db.dispositions, IsAuthorized);
    var after := Settle(db, selected, at);
    SelectionSeparate(db.dispositions);
    SettledDeliveries(db, pending, selected, at);
    SettledArchive(db, pending, selected, at);
    SettledMarks(db, pending, selected, at);
    forall i | 0 <= i < |db.dispositions|
      ensures after.dispositions[i]
              == if IsAuthorized(db.dispositions[i])
                 then db.dispositions[i].(state := Outcome(db, db.dispositions[i].destination, selected))
                 else db.dispositions[i]
    {
      if IsAuthorized(db.dispositions[i]) {
        assert db.dispositions[i] in pending;
      } else {
        forall p | p in pending ensures p.auditId != db.dispositions[i].auditId {
          assert p in db.dispositions;
        }
      }
    }
    FilterNone(after.dispositions, IsAuthorized);
  }

  /** The selected destination keeps every delivery; any other authorised one loses every delivery. */
  lemma SelectedKeepsOthersLose(db: Db, selected: Option<Destination>, at: Text, destination: Destination)
    requires Orderly(db)
    ensures var after := Settle(db, selected, at);
            && (selected == Some(destination) || Filter(db.dispositions, AuthorizedFor(destination)) == [] ==>
                  Filter(after.deliveries, SentTo(destination)) == Filter(db.deliveries, SentTo(destination)))
            && (selected != Some(destination) && Filter(db.dispositions, AuthorizedFor(destination)) != [] ==>
                  Filter(after.deliveries, SentTo(destination)) == [])
  {
    SettlingIsExact(db, selected, at);
    var pending := Filter(db.dispositions, IsAuthorized);
    if selected == Some(destination) || Filter(db.dispositions, AuthorizedFor(destination)) == [] {
      forall p | p in pending && selected != Some(destination) ensures p.destination != destination {
        assert AuthorizedFor(destination)(p) ==> p in Filter(db.dispositions, AuthorizedFor(destination));
      }
      FilterInside(db.deliveries, Not(Doomed(pending, selected)), SentTo(destination));
    } else {
      var p := Filter(db.dispositions, AuthorizedFor(destination))[0];
      assert p in Filter(db.dispositions, AuthorizedFor(destination));
      assert p in pending;
      FilterNone(Filter(db.deliveries, Not(Doomed(pending, selected))), SentTo(destination));
    }
  }
}
