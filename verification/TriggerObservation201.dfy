/**
 OCPP 2.0.1 trigger evidence: how a stale or late writer is merged into the stored expectation,
 and how reconciliation adds journal events to it.
 */
module TriggerObservation201 {
  import opened Common
  import opened CommandResult
  import opened KeyedUnion
  import Sequences

  const MAX_TARGETS: nat := 65
  const CANDIDATE_LIMIT: nat := 128

  function ObservedId(e: ObservedEvent): (id: EventId) {
    e.eventId
  }

  function Later(a: Time, b: Time): (t: Time) {
    if a < b then b else a
  }

  // Status ---------------------------------------------------------------------------------------

  predicate Compatible(class_: TriggerClass, expected: TriggerTarget, actual: TriggerTarget) {
    expected == actual
    || (class_.TransactionEvent? && expected.Evse? && actual.Connector? && expected.id == actual.evse)
  }

  predicate ScopedCertificate(t: Trigger201) {
    t.class_.IsCertificate() && !t.class_.IsStationOnly() && t.scope.Some?
  }

  predicate CreditedEarlier(t: Trigger201, index: nat, id: EventId)
    requires index <= |t.targets|
  {
    exists prior, other |
      0 <= prior < index && other in t.observed ::
      Compatible(t.class_, t.targets[prior], other.target) && other.eventId == id
  }

  /** Target `index` has an event of its own: one no earlier target could claim. */
  predicate Seen(t: Trigger201, index: nat)
    requires index < |t.targets|
  {
    exists e | e in t.observed ::
      !ScopedCertificate(t) && Compatible(t.class_, t.targets[index], e.target)
      && !CreditedEarlier(t, index, e.eventId)
  }

  function SeenCount(t: Trigger201, upTo: nat): (n: nat)
    requires upTo <= |t.targets|
    ensures n <= upTo
    ensures n == upTo ==> forall i | 0 <= i < upTo :: Seen(t, i)
  {
    if upTo == 0 then 0 else SeenCount(t, upTo - 1) + (if Seen(t, upTo - 1) then 1 else 0)
  }

  predicate AcceptedReply(t: Trigger201) {
    t.response.Some? && t.response.value.status.Accepted?
  }

  function RefreshedStatus(t: Trigger201, now: Time): (status: TriggerStatus) {
    if t.response.Some? && !t.response.value.status.Accepted? then Unsupported
    else
      var seen := SeenCount(t, |t.targets|);
      var stationCertificate := ScopedCertificate(t) && exists e | e in t.observed :: e.target.Station?;
      if AcceptedReply(t) && seen == |t.targets| && seen != 0 && !stationCertificate then Observed
      else if stationCertificate then Unattributable
      else if now >= t.deadline then (if seen == 0 then Absent else Partial)
      else if seen != 0 && AcceptedReply(t) then Partial
      else AwaitingEvents
  }

  function Refresh(t: Trigger201, now: Time): (r: Trigger201) {
    t.(status := RefreshedStatus(t, now))
  }

  ghost predicate Distinct(ids: seq<EventId>) {
    forall i, j | 0 <= i < j < |ids| :: ids[i] != ids[j]
  }

  ghost predicate Evidences(t: Trigger201, index: nat, id: EventId)
    requires index < |t.targets|
  {
    exists e | e in t.observed :: e.eventId == id && Compatible(t.class_, t.targets[index], e.target)
  }

  ghost predicate Assigns(t: Trigger201, choice: seq<EventId>)
    requires |choice| <= |t.targets|
  {
    forall i | 0 <= i < |choice| :: Evidences(t, i, choice[i])
  }

  /** One event of its own per target, chosen front to back. */
  lemma {:induction false} SeenTargetsHaveDistinctEvidence(t: Trigger201, upTo: nat) returns (choice: seq<EventId>)
    requires upTo <= |t.targets|
    requires forall i | 0 <= i < upTo :: Seen(t, i)
    ensures |choice| == upTo && Distinct(choice) && Assigns(t, choice)
  {
    if upTo == 0 {
      choice := [];
    } else {
      var shorter := SeenTargetsHaveDistinctEvidence(t, upTo - 1);
      assert Seen(t, upTo - 1);
      var e :| e in t.observed && !ScopedCertificate(t)
               && Compatible(t.class_, t.targets[upTo - 1], e.target)
               && !CreditedEarlier(t, upTo - 1, e.eventId);
      forall i | 0 <= i < upTo - 1 ensures shorter[i] != e.eventId {
        assert Evidences(t, i, shorter[i]);
      }
      choice := shorter + [e.eventId];
    }
  }

  /** `Observed` needs an accepted reply and a different event for every expected target. */
  lemma ObservedNeedsDistinctEvidence(t: Trigger201, now: Time) returns (choice: seq<EventId>)
    requires Refresh(t, now).status.Observed?
    ensures AcceptedReply(t) && t.targets != []
    ensures |choice| == |t.targets| && Distinct(choice) && Assigns(t, choice)
  {
    choice := SeenTargetsHaveDistinctEvidence(t, |t.targets|);
  }

  // Merging a writer -----------------------------------------------------------------------------

  predicate SameExpectation(a: Trigger201, b: Trigger201) {
    a.class_ == b.class_ && a.scope == b.scope && a.targets == b.targets
    && a.startedAt == b.startedAt && a.deadline == b.deadline
  }

  function ObservedLimit(t: Trigger201): (limit: nat) {
    MAX_TARGETS + (if t.class_.IsCertificate() then 1 else 0)
  }

  datatype Merged = Merged(trigger: Option<Trigger201>, retire: bool, stamped: bool)

  /** `stamped` tells whether the writer's schema version becomes the 2.0.1 trigger version. */
  function Merge(previous: CommandResult, incoming: CommandResult): (r: Result<Merged>) {
    if previous.trigger201.None? then
      Ok(Merged(if previous.lifecycle.Rejected? then None else incoming.trigger201, false, false))
    else
      var stored := previous.trigger201.value;
      if previous.lifecycle.Dispatched? && stored.response.None?
         && incoming.lifecycle.Rejected? && incoming.trigger201.None? then
        Ok(Merged(None, true, false))
      else if incoming.trigger201.None? then
        Ok(Merged(Some(stored), false, true))
      else
        var next := incoming.trigger201.value;
        if !SameExpectation(stored, next) then Err(IntegrityFailure)
        else if stored.response.Some? && next.response.Some? && stored.response != next.response then
          Err(IntegrityFailure)
        else if exists e | e in next.observed :: e !in stored.observed then Err(IntegrityFailure)
        else
          var observed := AppendMissing(next.observed, stored.observed, ObservedId);
          if |observed| > ObservedLimit(stored) then Err(IntegrityFailure)
          else
            var response := if next.response.Some? then next.response else stored.response;
            var at := Later(incoming.recordedAt,
                            if stored.status.Absent? then stored.deadline else stored.startedAt);
            Ok(Merged(Some(Refresh(next.(response := response, observed := observed), at)), false, true))
  }

  ghost function ObservedSet(t: Trigger201): (s: set<ObservedEvent>) {
    set e | e in t.observed
  }

  /** Events that share an id are the same event. */
  ghost predicate CoherentIds(t: Trigger201) {
    forall a, b | a in t.observed && b in t.observed && a.eventId == b.eventId :: a == b
  }

  ghost predicate MaybeCoherent(t: Option<Trigger201>) {
    t.Some? ==> CoherentIds(t.value)
  }

  /**
   A writer never touches the observed set of a stored expectation, and once a native reply is
   stored it can neither drop the expectation nor change it or the reply.
   */
  lemma MergeKeepsObservation(previous: CommandResult, incoming: CommandResult)
    requires previous.trigger201.Some? && CoherentIds(previous.trigger201.value)
    requires Merge(previous, incoming).Ok?
    ensures var stored, merged := previous.trigger201.value, Merge(previous, incoming).value;
            && (merged.retire <==> merged.trigger.None?)
            && (merged.retire ==>
                  stored.response.None? && previous.lifecycle.Dispatched? && incoming.lifecycle.Rejected?)
            && (merged.trigger.Some? ==>
                  && SameExpectation(stored, merged.trigger.value)
                  && (stored.response.Some? ==> merged.trigger.value.response == stored.response)
                  && ObservedSet(merged.trigger.value) == ObservedSet(stored)
                  && CoherentIds(merged.trigger.value))
  {
    var stored := previous.trigger201.value;
    var merged := Merge(previous, incoming).value;
    if merged.trigger.Some? && incoming.trigger201.Some? {
      var next := incoming.trigger201.value;
      var observed := AppendMissing(next.observed, stored.observed, ObservedId);
      assert merged.trigger.value.observed == observed;
      forall e | e in observed ensures e in stored.observed {
        AppendMissingOrigin(next.observed, stored.observed, ObservedId, e);
      }
      forall e | e in stored.observed ensures e in observed {
        AppendMissingComplete(next.observed, stored.observed, ObservedId, e);
      }
    }
  }

  /** Every writer the merge accepts leaves the observed set of this expectation as it was. */
  ghost predicate EveryWriterKeepsObserved(previous: CommandResult)
    requires previous.trigger201.Some?
  {
    forall incoming: CommandResult | Merge(previous, incoming).Ok? && Merge(previous, incoming).value.trigger.Some? ::
      ObservedSet(Merge(previous, incoming).value.trigger.value) == ObservedSet(previous.trigger201.value)
  }

  ghost function ObservedIds(t: Trigger201): (ids: set<EventId>) {
    Keys(t.observed, ObservedId)
  }

  /** Of two stored events with one id, a writer that carries only the first drops the second. */
  lemma NamesakeIsDropped(previous: CommandResult, a: ObservedEvent, b: ObservedEvent)
    requires previous.trigger201.Some?
             && |ObservedIds(previous.trigger201.value)| <= ObservedLimit(previous.trigger201.value)
    requires a in previous.trigger201.value.observed && b in previous.trigger201.value.observed
    requires a != b && a.eventId == b.eventId
    ensures var incoming := previous.(trigger201 := Some(previous.trigger201.value.(observed := [a])));
            && Merge(previous, incoming).Ok? && Merge(previous, incoming).value.trigger.Some?
            && b !in Merge(previous, incoming).value.trigger.value.observed
  {
    var stored := previous.trigger201.value;
    var observed := AppendMissing([a], stored.observed, ObservedId);
    assert |observed| == |ObservedIds(stored)| by {
      AppendMissingDistinct([a], stored.observed, ObservedId);
      KeysCount(observed, ObservedId);
      AppendMissingKeys([a], stored.observed, ObservedId);
      assert Keys([a], ObservedId) + ObservedIds(stored) == ObservedIds(stored);
    }
    assert a in [a] && ObservedId(a) == ObservedId(b);
    if b in observed {
      AppendMissingOrigin([a], stored.observed, ObservedId, b);
      assert false;
    }
  }

  /** Evidence with too many events for the merge is out of every writer's reach. */
  lemma TooManyIdsAreRefused(previous: CommandResult, incoming: CommandResult)
    requires previous.trigger201.Some?
             && |ObservedIds(previous.trigger201.value)| > ObservedLimit(previous.trigger201.value)
    requires Merge(previous, incoming).Ok? && Merge(previous, incoming).value.trigger.Some?
    ensures incoming.trigger201.None? && Merge(previous, incoming).value.trigger == previous.trigger201
  {
    var stored := previous.trigger201.value;
    if incoming.trigger201.Some? {
      var next := incoming.trigger201.value;
      var observed := AppendMissing(next.observed, stored.observed, ObservedId);
      AppendMissingKeys(next.observed, stored.observed, ObservedId);
      KeysCount(observed, ObservedId);
      Sequences.SubsetCount(ObservedIds(stored), Keys(observed, ObservedId));
      assert false;
    }
  }

  /**
   The merge identifies events by id, so every writer keeps the observed set exactly when equal ids
   mean equal events, or when there are too many events for any writer to be accepted.
   */
  lemma ObservedKeptExactlyWhenCoherent(previous: CommandResult)
    requires previous.trigger201.Some?
    ensures EveryWriterKeepsObserved(previous)
            <==> || CoherentIds(previous.trigger201.value)
                 || |ObservedIds(previous.trigger201.value)| > ObservedLimit(previous.trigger201.value)
  {
    var stored := previous.trigger201.value;
    if CoherentIds(stored) || |ObservedIds(stored)| > ObservedLimit(stored) {
      forall incoming: CommandResult | Merge(previous, incoming).Ok? && Merge(previous, incoming).value.trigger.Some?
        ensures ObservedSet(Merge(previous, incoming).value.trigger.value) == ObservedSet(stored)
      {
        if CoherentIds(stored) {
          MergeKeepsObservation(previous, incoming);
        } else {
          TooManyIdsAreRefused(previous, incoming);
        }
      }
    } else {
      var a, b :| a in stored.observed && b in stored.observed && a.eventId == b.eventId && a != b;
      NamesakeIsDropped(previous, a, b);
      var incoming := previous.(trigger201 := Some(stored.(observed := [a])));
      assert b in ObservedSet(stored) && b !in ObservedSet(Merge(previous, incoming).value.trigger.value);
    }
  }

  // Reconciliation -------------------------------------------------------------------------------

  /**
   A journal event of the station carrying a 2.0.1 trigger marker. `consistent` says that the
   decoded event names the station and resource of the command.
   */
  datatype JournalEvent = JournalEvent(
    eventId: EventId,
    class_: TriggerClass,
    target: TriggerTarget,
    observedAt: Time,
    fromStation: bool,
    derived: bool,
    triggered: bool,
    consistent: bool
  )

  predicate Matches(t: Trigger201, target: TriggerTarget, e: JournalEvent) {
    e.class_ == t.class_ && Compatible(t.class_, target, e.target)
    && t.startedAt <= e.observedAt <= t.deadline
    && e.fromStation && !e.derived && (t.class_.TransactionEvent? ==> e.triggered)
  }

  function Candidates(t: Trigger201, target: TriggerTarget, journal: seq<JournalEvent>): (r: seq<JournalEvent>)
    ensures forall e :: e in r <==> e in journal && Matches(t, target, e)
  {
    if journal == [] then []
    else if Matches(t, target, journal[0]) then [journal[0]] + Candidates(t, target, journal[1..])
    else Candidates(t, target, journal[1..])
  }

  predicate SeenId(t: Trigger201, id: EventId) {
    exists e | e in t.observed :: e.eventId == id
  }

  /** The candidate rows are read in order; an inconsistent row refuses, a seen one is skipped. */
  function FirstFresh(t: Trigger201, target: TriggerTarget, rows: seq<JournalEvent>): (r: Result<Option<ObservedEvent>>)
    ensures r.Ok? && r.value.Some? ==>
              && r.value.value.target == target && !SeenId(t, r.value.value.eventId)
              && exists e | e in rows :: e.eventId == r.value.value.eventId && e.observedAt == r.value.value.observedAt
    ensures r.Ok? && r.value.None? ==> forall e | e in rows :: SeenId(t, e.eventId)
  {
    if rows == [] then Ok(None)
    else if !rows[0].consistent then Err(IntegrityFailure)
    else if SeenId(t, rows[0].eventId) then FirstFresh(t, target, rows[1..])
    else Ok(Some(ObservedEvent(rows[0].eventId, target, rows[0].observedAt)))
  }

  /** `journal` lists the station's events in index order: observation time, then row. */
  function MatchingEvent(t: Trigger201, target: TriggerTarget,
      journal: seq<JournalEvent>): (r: Result<Option<ObservedEvent>>)
  {
    FirstFresh(t, target, Sequences.Take(Candidates(t, target, journal), CANDIDATE_LIMIT))
  }

  predicate HasTarget(t: Trigger201, target: TriggerTarget) {
    exists e | e in t.observed :: e.target == target
  }

  function CreditTarget(t: Trigger201, target: TriggerTarget, journal: seq<JournalEvent>): (r: Result<Trigger201>) {
    if HasTarget(t, target) then Ok(t)
    else
      var found :- MatchingEvent(t, target, journal);
      Ok(if found.Some? then t.(observed := t.observed + [found.value]) else t)
  }

  function CreditTargets(t: Trigger201, targets: seq<TriggerTarget>,
      journal: seq<JournalEvent>): (r: Result<Trigger201>)
    decreases |targets|
  {
    if targets == [] then Ok(t)
    else
      var next :- CreditTarget(t, targets[0], journal);
      CreditTargets(next, targets[1..], journal)
  }

  datatype Reconciled = Reconciled(trigger: Trigger201, changed: bool, finalized: bool)

  function Reconcile(t: Trigger201, now: Time, journal: seq<JournalEvent>): (r: Result<Reconciled>) {
    if t.targets == [] || |t.targets| > MAX_TARGETS || |t.observed| > MAX_TARGETS + 1 || t.startedAt > t.deadline then
      Err(IntegrityFailure)
    else
      var credited :- CreditTargets(t, t.targets, journal);
      var receipted :- if ScopedCertificate(credited) then CreditTarget(credited, Station, journal) else Ok(credited);
      var next := Refresh(receipted, now);
      Ok(Reconciled(next, |receipted.observed| > |t.observed| || next.status != t.status,
                    now >= next.deadline || next.status.Observed?))
  }

  /** The reconciliation loop over the targets, with the station receipt of a scoped certificate. */
  method ReconcileTargets(t: Trigger201, now: Time, journal: seq<JournalEvent>) returns (r: Result<Reconciled>)
    ensures r == Reconcile(t, now, journal)
  {
    if t.targets == [] || |t.targets| > MAX_TARGETS || |t.observed| > MAX_TARGETS + 1 || t.startedAt > t.deadline {
      return Err(IntegrityFailure);
    }
    var observation := t;
    for i := 0 to |t.targets|
      invariant CreditTargets(t, t.targets, journal) == CreditTargets(observation, t.targets[i..], journal)
    {
      assert t.targets[i..][1..] == t.targets[i + 1..];
      if !HasTarget(observation, t.targets[i]) {
        var found := MatchingEvent(observation, t.targets[i], journal);
        if found.Err? {
          return Err(found.error);
        }
        if found.value.Some? {
          observation := observation.(observed := observation.observed + [found.value.value]);
        }
      }
    }
    if ScopedCertificate(observation) && !HasTarget(observation, Station) {
      var found := MatchingEvent(observation, Station, journal);
      if found.Err? {
        return Err(found.error);
      }
      if found.value.Some? {
        observation := observation.(observed := observation.observed + [found.value.value]);
      }
    }
    observation := Refresh(observation, now);
    r := Ok(Reconciled(observation, |observation.observed| > |t.observed| || observation.status != t.status,
                       now >= observation.deadline || observation.status.Observed?));
  }

  /** `later` extends `t` by events inside the window, at most one for each target, all new to it. */
  ghost predicate Extends(t: Trigger201, later: Trigger201) {
    && SameExpectation(t, later) && later.response == t.response
    && t.observed <= later.observed
    && (forall i | |t.observed| <= i < |later.observed| ::
          && t.startedAt <= later.observed[i].observedAt <= t.deadline
          && forall j | 0 <= j < i ::
               later.observed[j].target != later.observed[i].target
                   && later.observed[j].eventId != later.observed[i].eventId)
  }

  lemma CreditExtends(t: Trigger201, target: TriggerTarget, journal: seq<JournalEvent>)
    requires CreditTarget(t, target, journal).Ok?
    ensures Extends(t, CreditTarget(t, target, journal).value)
  {
    if !HasTarget(t, target) {
      var found := MatchingEvent(t, target, journal).value;
      if found.Some? {
        var e :| e in Sequences.Take(Candidates(t, target, journal), CANDIDATE_LIMIT)
            && e.observedAt == found.value.observedAt;
        assert e in Candidates(t, target, journal);
        forall j | 0 <= j < |t.observed|
          ensures t.observed[j].target != found.value.target && t.observed[j].eventId != found.value.eventId
        {
          assert t.observed[j] in t.observed;
        }
      }
    }
  }

  lemma ExtendsTransitive(a: Trigger201, b: Trigger201, c: Trigger201)
    requires Extends(a, b) && Extends(b, c)
    ensures Extends(a, c)
  {
    forall i | |a.observed| <= i < |c.observed|
      ensures a.startedAt <= c.observed[i].observedAt <= a.deadline
      ensures forall j | 0 <= j < i ::
                c.observed[j].target != c.observed[i].target && c.observed[j].eventId != c.observed[i].eventId
    {
      if i < |b.observed| {
        assert c.observed[i] == b.observed[i];
      }
    }
  }

  lemma {:induction false} CreditAllExtends(t: Trigger201, targets: seq<TriggerTarget>, journal: seq<JournalEvent>)
    requires CreditTargets(t, targets, journal).Ok?
    ensures Extends(t, CreditTargets(t, targets, journal).value)
    decreases |targets|
  {
    if targets != [] {
      CreditExtends(t, targets[0], journal);
      var next := CreditTarget(t, targets[0], journal).value;
      CreditAllExtends(next, targets[1..], journal);
      ExtendsTransitive(t, next, CreditTargets(next, targets[1..], journal).value);
    }
  }

  lemma ExtendingKeepsCoherent(t: Trigger201, later: Trigger201)
    requires Extends(t, later) && CoherentIds(t)
    ensures CoherentIds(later)
  {
    forall a, b | a in later.observed && b in later.observed && a.eventId == b.eventId ensures a == b {
      var i :| 0 <= i < |later.observed| && later.observed[i] == a;
      var j :| 0 <= j < |later.observed| && later.observed[j] == b;
      if i < |t.observed| && j < |t.observed| {
        assert t.observed[i] == a && t.observed[j] == b;
        assert a in t.observed && b in t.observed;
      }
    }
  }

  lemma CreditsExtend(t: Trigger201, journal: seq<JournalEvent>)
    requires CreditTargets(t, t.targets, journal).Ok?
    ensures var credited := CreditTargets(t, t.targets, journal).value;
            && Extends(t, credited)
            && (CreditTarget(credited, Station, journal).Ok? ==>
               Extends(t, CreditTarget(credited, Station, journal).value))
  {
    CreditAllExtends(t, t.targets, journal);
    var credited := CreditTargets(t, t.targets, journal).value;
    if CreditTarget(credited, Station, journal).Ok? {
      CreditExtends(credited, Station, journal);
      ExtendsTransitive(t, credited, CreditTarget(credited, Station, journal).value);
    }
  }

  lemma RefreshExtends(t: Trigger201, later: Trigger201, now: Time)
    requires Extends(t, later)
    ensures Extends(t, Refresh(later, now))
  {
  }

  /** Reconciliation only adds events: inside the window, one per target, never a repeated event. */
  lemma ReconcileExtends(t: Trigger201, now: Time, journal: seq<JournalEvent>)
    requires Reconcile(t, now, journal).Ok?
    ensures Extends(t, Reconcile(t, now, journal).value.trigger)
    ensures CoherentIds(t) ==> CoherentIds(Reconcile(t, now, journal).value.trigger)
  {
    CreditsExtend(t, journal);
    var credited := CreditTargets(t, t.targets, journal).value;
    var receipted := if ScopedCertificate(credited) then CreditTarget(credited, Station, journal).value else credited;
    RefreshExtends(t, receipted, now);
    if CoherentIds(t) {
      ExtendingKeepsCoherent(t, Refresh(receipted, now));
    }
  }

  // The candidate limit --------------------------------------------------------------------------

  function JournalId(e: JournalEvent): (id: EventId) {
    e.eventId
  }

  lemma {:induction false} CandidatesKeepUnique(t: Trigger201, target: TriggerTarget, journal: seq<JournalEvent>)
    requires DistinctKeys(journal, JournalId)
    ensures DistinctKeys(Candidates(t, target, journal), JournalId)
  {
    if journal != [] {
      CandidatesKeepUnique(t, target, journal[1..]);
      var rest := Candidates(t, target, journal[1..]);
      forall i | 0 <= i < |rest| ensures rest[i].eventId != journal[0].eventId {
        assert rest[i] in journal[1..];
      }
    }
  }

  /**
   The row limit hides nothing: an expectation small enough to reconcile finds no event exactly
   when every matching journal event is already recorded.
   */
  lemma LimitHidesNothing(t: Trigger201, target: TriggerTarget, journal: seq<JournalEvent>)
    requires DistinctKeys(journal, JournalId) && |t.observed| <= MAX_TARGETS + 1
    requires MatchingEvent(t, target, journal).Ok?
    ensures MatchingEvent(t, target, journal).value.None?
            <==> forall e | e in journal && Matches(t, target, e) :: SeenId(t, e.eventId)
  {
    var rows := Candidates(t, target, journal);
    var page := Sequences.Take(rows, CANDIDATE_LIMIT);
    CandidatesKeepUnique(t, target, journal);
    var found := FirstFresh(t, target, page).value;
    if found.None? && page != rows {
      KeysCount(page, JournalId);
      KeysCount(t.observed, ObservedId);
      assert Keys(page, JournalId) <= ObservedIds(t);
      Sequences.SubsetCount(Keys(page, JournalId), ObservedIds(t));
      assert false;
    }
    if found.Some? {
      var e :| e in page && e.eventId == found.value.eventId;
      assert e in rows;
    }
  }
}
