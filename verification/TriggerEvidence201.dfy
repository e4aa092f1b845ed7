/**
 What reconciliation records, read off the expectation and the journal alone: every expected target
 gets an event if the journal has one left for it, every recorded event is one the station sent for
 that target inside the window, and the status says which targets have evidence of their own.
 */
module TriggerEvidence201 {
  import opened Common
  import opened CommandResult
  import opened KeyedUnion
  import opened TriggerObservation201
  import Sequences

  // Eligible events ------------------------------------------------------------------------------

  /** An event at `actual` counts for `expected`: the same place, or a connector of an awaited EVSE's transaction. */
  ghost predicate CountsFor(class_: TriggerClass, expected: TriggerTarget, actual: TriggerTarget) {
    || actual == expected
    || (class_ == TransactionEvent && expected.Evse? && actual.Connector? && actual.evse == expected.id)
  }

  /** The station itself sent this event of the awaited class for `target` inside the window. */
  ghost predicate Eligible(t: Trigger201, target: TriggerTarget, e: JournalEvent) {
    && e.class_ == t.class_ && CountsFor(t.class_, target, e.target)
    && t.startedAt <= e.observedAt && e.observedAt <= t.deadline
    && e.fromStation && !e.derived && (t.class_ == TransactionEvent ==> e.triggered)
  }

  ghost predicate Recorded(observed: seq<ObservedEvent>, id: EventId) {
    exists o :: o in observed && o.eventId == id
  }

  /** The target has an event, or the journal has none left for it. */
  ghost predicate Served(t: Trigger201, target: TriggerTarget, journal: seq<JournalEvent>) {
    || (exists o :: o in t.observed && o.target == target)
    || (forall e | e in journal && Eligible(t, target, e) :: Recorded(t.observed, e.eventId))
  }

  /** A certificate request for one EVSE, whose receipt nevertheless only names the station. */
  ghost predicate ScopedCertificateRequest(t: Trigger201) {
    (t.class_ == SignV2GCertificate || t.class_ == SignCombinedCertificate) && t.scope.Some?
  }

  lemma {:induction false} CandidatesAreEligible(t: Trigger201, target: TriggerTarget, journal: seq<JournalEvent>)
    ensures forall e :: e in Candidates(t, target, journal) <==> e in journal && Eligible(t, target, e)
  {
  }

  // Completeness ---------------------------------------------------------------------------------

  lemma ServedLater(t: Trigger201, later: Trigger201, target: TriggerTarget, journal: seq<JournalEvent>)
    requires Extends(t, later) && Served(t, target, journal)
    ensures Served(later, target, journal)
  {
    forall o | o in t.observed ensures o in later.observed {
      var i :| 0 <= i < |t.observed| && t.observed[i] == o;
      assert later.observed[i] == o;
    }
  }

  lemma IdsGrow(t: Trigger201, later: Trigger201)
    requires Extends(t, later)
    ensures |ObservedIds(t)| <= |ObservedIds(later)|
  {
    forall o | o in t.observed ensures o in later.observed {
      var i :| 0 <= i < |t.observed| && t.observed[i] == o;
      assert later.observed[i] == o;
    }
    Sequences.SubsetCount(ObservedIds(t), ObservedIds(later));
  }

  /** A full page of recorded rows needs 128 recorded events. */
  lemma FullPageIsRecorded(t: Trigger201, page: seq<JournalEvent>)
    requires DistinctKeys(page, JournalId) && |page| == 128
    requires forall e | e in page :: SeenId(t, e.eventId)
    ensures |ObservedIds(t)| >= 128
  {
    KeysCount(page, JournalId);
    forall id | id in Keys(page, JournalId) ensures id in ObservedIds(t) {
      var e :| e in page && JournalId(e) == id;
      var o :| o in t.observed && o.eventId == e.eventId;
      assert ObservedId(o) == id;
    }
    Sequences.SubsetCount(Keys(page, JournalId), ObservedIds(t));
  }

  lemma CreditServes(t: Trigger201, target: TriggerTarget, journal: seq<JournalEvent>)
    requires DistinctKeys(journal, JournalId) && CreditTarget(t, target, journal).Ok?
    ensures Served(CreditTarget(t, target, journal).value, target, journal) || |ObservedIds(t)| >= 128
  {
    var after := CreditTarget(t, target, journal).value;
    var rows := Candidates(t, target, journal);
    var page := Sequences.Take(rows, 128);
    if !HasTarget(t, target) {
      CandidatesKeepUnique(t, target, journal);
      var found := MatchingEvent(t, target, journal).value;
      if found.Some? {
        assert found.value in after.observed && found.value.target == target;
      } else if |rows| > 128 {
        FullPageIsRecorded(t, page);
      } else {
        CandidatesAreEligible(t, target, journal);
        forall e | e in journal && Eligible(after, target, e) ensures Recorded(after.observed, e.eventId) {
          assert e in page && SeenId(t, e.eventId);
        }
      }
    }
  }

  ghost function EligibleFor(t: Trigger201, target: TriggerTarget): (p: JournalEvent -> bool) {
    (e: JournalEvent) => Eligible(t, target, e)
  }

  lemma {:induction false} CandidatesAreFiltered(t: Trigger201, target: TriggerTarget, journal: seq<JournalEvent>)
    ensures Candidates(t, target, journal) == Sequences.Filter(journal, EligibleFor(t, target))
  {
    if journal != [] {
      CandidatesAreFiltered(t, target, journal[1..]);
    }
  }

  /** Among the first 128 eligible rows one is not recorded, or there is no eligible row left to record. */
  ghost predicate WithinReach(t: Trigger201, journal: seq<JournalEvent>, at: seq<nat>)
    requires forall i | 0 <= i < |at| :: at[i] < |journal|
  {
    || (exists i | 0 <= i < |at| && i < 128 :: !Recorded(t.observed, journal[at[i]].eventId))
    || (forall i | 0 <= i < |at| :: Recorded(t.observed, journal[at[i]].eventId))
  }

  /** Crediting serves a target exactly when it has an event or the query, with its 128 rows, reaches what there is. */
  lemma CreditServesExactly(t: Trigger201, target: TriggerTarget, journal: seq<JournalEvent>) returns (at: seq<nat>)
    requires CreditTarget(t, target, journal).Ok?
    ensures forall i | 0 <= i < |at| :: at[i] < |journal|
    ensures forall i, j | 0 <= i < j < |at| :: at[i] < at[j]
    ensures forall k | 0 <= k < |journal| :: k in at <==> Eligible(t, target, journal[k])
    ensures Served(CreditTarget(t, target, journal).value, target, journal)
            <==> (exists o :: o in t.observed && o.target == target) || WithinReach(t, journal, at)
  {
    at := Sequences.FilterPicks(journal, EligibleFor(t, target));
    CandidatesAreFiltered(t, target, journal);
    if !HasTarget(t, target) {
      ReachDecides(t, target, journal, at);
    }
  }

  lemma ReachDecides(t: Trigger201, target: TriggerTarget, journal: seq<JournalEvent>, at: seq<nat>)
    requires !HasTarget(t, target) && CreditTarget(t, target, journal).Ok?
    requires Sequences.Picks(journal, Candidates(t, target, journal), at)
    requires forall k | 0 <= k < |journal| :: k in at <==> Eligible(t, target, journal[k])
    ensures Served(CreditTarget(t, target, journal).value, target, journal) <==> WithinReach(t, journal, at)
  {
    var rows := Candidates(t, target, journal);
    var page := Sequences.Take(rows, 128);
    var found := MatchingEvent(t, target, journal).value;
    if found.Some? {
      var after := CreditTarget(t, target, journal).value;
      assert found.value in after.observed;
      var k := FreshRow(t, target, page);
      assert page[k] == rows[k] == journal[at[k]] && !Recorded(t.observed, journal[at[k]].eventId);
    } else {
      forall i | 0 <= i < |at| && i < 128 ensures Recorded(t.observed, journal[at[i]].eventId) {
        assert page[i] == rows[i] == journal[at[i]] && page[i] in page;
        assert SeenId(t, page[i].eventId);
      }
      AllRecordedMeansServed(t, target, journal, at);
    }
  }

  lemma AllRecordedMeansServed(t: Trigger201, target: TriggerTarget, journal: seq<JournalEvent>, at: seq<nat>)
    requires !HasTarget(t, target) && forall i | 0 <= i < |at| :: at[i] < |journal|
    requires forall k | 0 <= k < |journal| :: k in at <==> Eligible(t, target, journal[k])
    ensures Served(t, target, journal) <==> forall i | 0 <= i < |at| :: Recorded(t.observed, journal[at[i]].eventId)
  {
    if Served(t, target, journal) {
      forall i | 0 <= i < |at| ensures Recorded(t.observed, journal[at[i]].eventId) {
        assert at[i] in at && journal[at[i]] in journal;
      }
    } else {
      var e :| e in journal && Eligible(t, target, e) && !Recorded(t.observed, e.eventId);
      var k :| 0 <= k < |journal| && journal[k] == e;
      var i :| 0 <= i < |at| && at[i] == k;
    }
  }

  lemma {:induction false} CreditAllServes(t: Trigger201, targets: seq<TriggerTarget>, journal: seq<JournalEvent>,
      target: TriggerTarget)
    requires DistinctKeys(journal, JournalId) && CreditTargets(t, targets, journal).Ok? && target in targets
    ensures var after := CreditTargets(t, targets, journal).value;
            Served(after, target, journal) || |ObservedIds(after)| >= 128
    decreases |targets|
  {
    var next := CreditTarget(t, targets[0], journal).value;
    var after := CreditTargets(next, targets[1..], journal).value;
    if target == targets[0] {
      CreditServes(t, target, journal);
      CreditExtends(t, target, journal);
      CreditAllExtends(next, targets[1..], journal);
      IdsGrow(t, next);
      IdsGrow(next, after);
      if Served(next, target, journal) {
        ServedLater(next, after, target, journal);
      }
    } else {
      CreditAllServes(next, targets[1..], journal, target);
    }
  }

  /**
   After a reconciliation every expected target has an event of its own, or every eligible journal
   event is already recorded; so does the station, for the receipt of a scoped certificate. Only an
   expectation with 128 recorded events can miss one, because the query reads that many rows.
   */
  lemma EveryTargetServed(t: Trigger201, now: Time, journal: seq<JournalEvent>, target: TriggerTarget)
    requires DistinctKeys(journal, JournalId) && Reconcile(t, now, journal).Ok?
    requires target in t.targets || (target == Station && ScopedCertificateRequest(t))
    ensures var after := Reconcile(t, now, journal).value.trigger;
            Served(after, target, journal) || |ObservedIds(after)| >= 128
  {
    var credited := CreditTargets(t, t.targets, journal).value;
    CreditAllExtends(t, t.targets, journal);
    var receipted := if ScopedCertificate(credited) then CreditTarget(credited, Station, journal).value else credited;
    if ScopedCertificate(credited) {
      CreditExtends(credited, Station, journal);
      IdsGrow(credited, receipted);
    }
    if target in t.targets {
      CreditAllServes(t, t.targets, journal, target);
      if Served(credited, target, journal) && ScopedCertificate(credited) {
        ServedLater(credited, receipted, target, journal);
      }
    } else {
      CreditServes(credited, Station, journal);
    }
    var after := Refresh(receipted, now);
    assert ObservedIds(after) == ObservedIds(receipted);
    if Served(receipted, target, journal) {
      assert after.observed == receipted.observed;
      assert forall e | Eligible(after, target, e) :: Eligible(receipted, target, e);
    }
  }

  lemma {:induction false} CreditAllCount(t: Trigger201, targets: seq<TriggerTarget>, journal: seq<JournalEvent>)
    requires CreditTargets(t, targets, journal).Ok?
    ensures |CreditTargets(t, targets, journal).value.observed| <= |t.observed| + |targets|
    decreases |targets|
  {
    if targets != [] {
      CreditAllCount(CreditTarget(t, targets[0], journal).value, targets[1..], journal);
    }
  }

  /** Every expected target is served if events recorded before and targets are fewer than 127 together. */
  lemma SmallExpectationServed(t: Trigger201, now: Time, journal: seq<JournalEvent>, target: TriggerTarget)
    requires DistinctKeys(journal, JournalId) && Reconcile(t, now, journal).Ok?
    requires target in t.targets || (target == Station && ScopedCertificateRequest(t))
    requires |t.observed| + |t.targets| < 127
    ensures Served(Reconcile(t, now, journal).value.trigger, target, journal)
  {
    EveryTargetServed(t, now, journal, target);
    CreditAllCount(t, t.targets, journal);
    KeysCount(Reconcile(t, now, journal).value.trigger.observed, ObservedId);
  }

  // Attributed evidence --------------------------------------------------------------------------

  /** Each recorded event is for another target, and for an expected one or the station. */
  ghost predicate AttributedEvents(t: Trigger201) {
    && (forall i, j | 0 <= i < j < |t.observed| :: t.observed[i].target != t.observed[j].target)
    && (forall o | o in t.observed :: o.target in t.targets || o.target == Station)
  }

  ghost function Places(t: Trigger201): (p: set<TriggerTarget>) {
    (set x | x in t.targets) + {Station}
  }

  lemma {:induction false} TargetsCount(targets: seq<TriggerTarget>)
    ensures |(set x | x in targets)| <= |targets|
  {
    if targets != [] {
      TargetsCount(targets[1..]);
      assert (set x | x in targets) == {targets[0]} + (set x | x in targets[1..]);
    }
  }

  function TargetOf(o: ObservedEvent): (t: TriggerTarget) {
    o.target
  }

  /** So there are never more of them than expected targets and the station. */
  lemma AttributedCount(t: Trigger201)
    requires AttributedEvents(t)
    ensures |t.observed| <= |t.targets| + 1
  {
    KeysCount(t.observed, TargetOf);
    TargetsCount(t.targets);
    Sequences.SubsetCount(Keys(t.observed, TargetOf), Places(t));
  }

  /** Reconciliation credits only expected targets, and the station for a scoped certificate. */
  lemma CreditKeepsAttributed(t: Trigger201, target: TriggerTarget, journal: seq<JournalEvent>)
    requires AttributedEvents(t) && (target in t.targets || target == Station)
    requires CreditTarget(t, target, journal).Ok?
    ensures AttributedEvents(CreditTarget(t, target, journal).value)
  {
    var after := CreditTarget(t, target, journal).value;
    CreditExtends(t, target, journal);
    forall o | o in after.observed ensures o.target in t.targets || o.target == Station {
      if o !in t.observed {
        assert o.target == target;
      }
    }
  }

  lemma {:induction false} CreditAllKeepsAttributed(t: Trigger201, targets: seq<TriggerTarget>,
      journal: seq<JournalEvent>)
    requires AttributedEvents(t) && (forall x | x in targets :: x in t.targets)
    requires CreditTargets(t, targets, journal).Ok?
    ensures AttributedEvents(CreditTargets(t, targets, journal).value)
    decreases |targets|
  {
    if targets != [] {
      var next := CreditTarget(t, targets[0], journal).value;
      CreditKeepsAttributed(t, targets[0], journal);
      CreditExtends(t, targets[0], journal);
      forall x | x in targets[1..] ensures x in next.targets {
        assert x in targets;
      }
      CreditAllKeepsAttributed(next, targets[1..], journal);
    }
  }

  /** Evidence that only reconciliation has touched stays attributed, and no target is ever missed. */
  lemma AttributedServed(t: Trigger201, now: Time, journal: seq<JournalEvent>, target: TriggerTarget)
    requires DistinctKeys(journal, JournalId) && Reconcile(t, now, journal).Ok? && AttributedEvents(t)
    requires target in t.targets || (target == Station && ScopedCertificateRequest(t))
    ensures AttributedEvents(Reconcile(t, now, journal).value.trigger)
    ensures Served(Reconcile(t, now, journal).value.trigger, target, journal)
  {
    var credited := CreditTargets(t, t.targets, journal).value;
    CreditAllKeepsAttributed(t, t.targets, journal);
    CreditAllExtends(t, t.targets, journal);
    var receipted := if ScopedCertificate(credited) then CreditTarget(credited, Station, journal).value else credited;
    if ScopedCertificate(credited) {
      CreditKeepsAttributed(credited, Station, journal);
    }
    var after := Refresh(receipted, now);
    assert AttributedEvents(after);
    AttributedCount(after);
    KeysCount(after.observed, ObservedId);
    EveryTargetServed(t, now, journal, target);
  }

  // Soundness ------------------------------------------------------------------------------------

  /**
   Event `i` of `after` is the first eligible journal row for its target that was not recorded yet, with that
   row's id and time; every eligible row before it was recorded.
   */
  ghost predicate FromJournal(t: Trigger201, after: Trigger201, journal: seq<JournalEvent>, i: nat)
    requires i < |after.observed|
  {
    var o := after.observed[i];
    exists k | 0 <= k < |journal| ::
      && journal[k].eventId == o.eventId && journal[k].observedAt == o.observedAt && journal[k].consistent
      && Eligible(t, o.target, journal[k])
      && (forall j | 0 <= j < k && Eligible(t, o.target, journal[j]) ::
            Recorded(after.observed[..i], journal[j].eventId))
  }

  /** The row that is taken: every row before it is recorded. */
  lemma {:induction false} FreshRow(t: Trigger201, target: TriggerTarget, rows: seq<JournalEvent>) returns (k: nat)
    requires FirstFresh(t, target, rows).Ok? && FirstFresh(t, target, rows).value.Some?
    ensures k < |rows| && rows[k].consistent && !Recorded(t.observed, rows[k].eventId)
    ensures FirstFresh(t, target, rows).value.value == ObservedEvent(rows[k].eventId, target, rows[k].observedAt)
    ensures forall j | 0 <= j < k :: Recorded(t.observed, rows[j].eventId)
  {
    if SeenId(t, rows[0].eventId) {
      var n := FreshRow(t, target, rows[1..]);
      k := n + 1;
      forall j | 0 <= j < k ensures Recorded(t.observed, rows[j].eventId) {
        if j > 0 {
          assert rows[j] == rows[1..][j - 1];
        } else {
          assert SeenId(t, rows[j].eventId);
        }
      }
    } else {
      k := 0;
    }
  }

  /** Where candidate `k` stands in the journal: every eligible event before it is an earlier candidate. */
  lemma {:induction false} CandidateAt(t: Trigger201, target: TriggerTarget, journal: seq<JournalEvent>,
      k: nat) returns (m: nat)
    requires k < |Candidates(t, target, journal)|
    ensures m < |journal| && journal[m] == Candidates(t, target, journal)[k]
    ensures forall j | 0 <= j < m && Eligible(t, target, journal[j]) ::
              journal[j] in Candidates(t, target, journal)[..k]
    decreases |journal|
  {
    var rows, rest := Candidates(t, target, journal), Candidates(t, target, journal[1..]);
    var first := Matches(t, target, journal[0]);
    if first && k == 0 {
      m := 0;
    } else {
      var back := if first then k - 1 else k;
      var n := CandidateAt(t, target, journal[1..], back);
      m := n + 1;
      forall j | 0 <= j < m && Eligible(t, target, journal[j]) ensures journal[j] in rows[..k] {
        if j > 0 {
          assert journal[1..][j - 1] == journal[j] && journal[j] in rest[..back];
          assert first ==> rows[..k] == [journal[0]] + rest[..back];
        } else {
          assert rows[..k][0] == journal[0];
        }
      }
    }
  }

  lemma CreditedRow(t: Trigger201, target: TriggerTarget, journal: seq<JournalEvent>) returns (m: nat)
    requires MatchingEvent(t, target, journal).Ok? && MatchingEvent(t, target, journal).value.Some?
    ensures m < |journal| && Eligible(t, target, journal[m]) && journal[m].consistent
    ensures MatchingEvent(t, target, journal).value.value
            == ObservedEvent(journal[m].eventId, target, journal[m].observedAt)
    ensures forall j | 0 <= j < m && Eligible(t, target, journal[j]) :: Recorded(t.observed, journal[j].eventId)
  {
    var rows := Candidates(t, target, journal);
    var page := Sequences.Take(rows, CANDIDATE_LIMIT);
    var k := FreshRow(t, target, page);
    m := CandidateAt(t, target, journal, k);
    assert rows[k] in rows && page[k] == rows[k];
    forall j | 0 <= j < m && Eligible(t, target, journal[j]) ensures Recorded(t.observed, journal[j].eventId) {
      var i :| 0 <= i < k && rows[i] == journal[j];
      assert page[i] == rows[i];
    }
  }

  /** All that `after` has beyond `t` came from the journal, for one of `targets`. */
  ghost predicate NewFromJournal(t: Trigger201, after: Trigger201, targets: seq<TriggerTarget>,
      journal: seq<JournalEvent>)
  {
    forall i | |t.observed| <= i < |after.observed| ::
      after.observed[i].target in targets && FromJournal(t, after, journal, i)
  }

  lemma CreditFromJournal(t: Trigger201, target: TriggerTarget, journal: seq<JournalEvent>)
    requires CreditTarget(t, target, journal).Ok?
    ensures NewFromJournal(t, CreditTarget(t, target, journal).value, [target], journal)
  {
    var after := CreditTarget(t, target, journal).value;
    if !HasTarget(t, target) && MatchingEvent(t, target, journal).value.Some? {
      var _ := CreditedRow(t, target, journal);
      assert after.observed[..|t.observed|] == t.observed;
      assert FromJournal(t, after, journal, |t.observed|);
    }
  }

  lemma FromJournalLater(t: Trigger201, a: Trigger201, b: Trigger201, journal: seq<JournalEvent>, i: nat)
    requires i < |a.observed| && a.observed <= b.observed && FromJournal(t, a, journal, i)
    ensures FromJournal(t, b, journal, i)
  {
    assert b.observed[i] == a.observed[i] && b.observed[..i] == a.observed[..i];
  }

  lemma FromJournalSame(t: Trigger201, u: Trigger201, after: Trigger201, journal: seq<JournalEvent>, i: nat)
    requires i < |after.observed| && SameExpectation(t, u) && FromJournal(u, after, journal, i)
    ensures FromJournal(t, after, journal, i)
  {
    var o := after.observed[i];
    var k :| 0 <= k < |journal| && journal[k].eventId == o.eventId && journal[k].observedAt == o.observedAt
             && journal[k].consistent && Eligible(u, o.target, journal[k])
             && (forall j | 0 <= j < k && Eligible(u, o.target, journal[j]) ::
                   Recorded(after.observed[..i], journal[j].eventId));
    assert forall e :: Eligible(t, o.target, e) <==> Eligible(u, o.target, e);
  }

  lemma NewFromJournalChain(t: Trigger201, u: Trigger201, after: Trigger201, first: seq<TriggerTarget>,
      rest: seq<TriggerTarget>, journal: seq<JournalEvent>)
    requires Extends(t, u) && u.observed <= after.observed
    requires NewFromJournal(t, u, first, journal) && NewFromJournal(u, after, rest, journal)
    ensures NewFromJournal(t, after, first + rest, journal)
  {
    forall i | |t.observed| <= i < |after.observed|
      ensures after.observed[i].target in first + rest && FromJournal(t, after, journal, i)
    {
      if i < |u.observed| {
        assert after.observed[i] == u.observed[i];
        FromJournalLater(t, u, after, journal, i);
      } else {
        FromJournalSame(t, u, after, journal, i);
      }
    }
  }

  lemma {:induction false} CreditAllFromJournal(t: Trigger201, targets: seq<TriggerTarget>,
      journal: seq<JournalEvent>)
    requires CreditTargets(t, targets, journal).Ok?
    ensures NewFromJournal(t, CreditTargets(t, targets, journal).value, targets, journal)
    decreases |targets|
  {
    if targets != [] {
      var next := CreditTarget(t, targets[0], journal).value;
      CreditExtends(t, targets[0], journal);
      CreditFromJournal(t, targets[0], journal);
      CreditAllFromJournal(next, targets[1..], journal);
      CreditAllExtends(next, targets[1..], journal);
      NewFromJournalChain(t, next, CreditTargets(next, targets[1..], journal).value, [targets[0]], targets[1..],
                          journal);
      assert [targets[0]] + targets[1..] == targets;
    }
  }

  /**
   Whatever a reconciliation adds is the first unrecorded eligible journal row of an expected target, or of
   the station for a scoped certificate.
   */
  lemma RecordsOnlyEligible(t: Trigger201, now: Time, journal: seq<JournalEvent>)
    requires Reconcile(t, now, journal).Ok?
    ensures var expected := t.targets + (if ScopedCertificateRequest(t) then [Station] else []);
            NewFromJournal(t, Reconcile(t, now, journal).value.trigger, expected, journal)
  {
    var credited := CreditTargets(t, t.targets, journal).value;
    CreditAllExtends(t, t.targets, journal);
    CreditAllFromJournal(t, t.targets, journal);
    var receipted := if ScopedCertificate(credited) then CreditTarget(credited, Station, journal).value else credited;
    if ScopedCertificate(credited) {
      CreditExtends(credited, Station, journal);
      CreditFromJournal(credited, Station, journal);
      NewFromJournalChain(t, credited, receipted, t.targets, [Station], journal);
    } else {
      assert t.targets + [] == t.targets;
    }
    var after := Refresh(receipted, now);
    forall i | |t.observed| <= i < |after.observed| ensures FromJournal(t, after, journal, i) {
      FromJournalLater(t, receipted, after, journal, i);
    }
  }

  // Status ---------------------------------------------------------------------------------------

  /** An event of this target that no earlier target has evidence under the same id for. */
  ghost predicate HasOwnEvent(t: Trigger201, index: nat)
    requires index < |t.targets|
  {
    exists o | o in t.observed ::
      && CountsFor(t.class_, t.targets[index], o.target)
      && (forall prior, other | 0 <= prior < index && other in t.observed
                                && CountsFor(t.class_, t.targets[prior], other.target) :: other.eventId != o.eventId)
  }

  lemma SeenIsOwnEvent(t: Trigger201, index: nat)
    requires index < |t.targets|
    ensures Seen(t, index) <==> !ScopedCertificateRequest(t) && HasOwnEvent(t, index)
  {
    if Seen(t, index) {
      var e :| e in t.observed && !ScopedCertificate(t) && Compatible(t.class_, t.targets[index], e.target)
               && !CreditedEarlier(t, index, e.eventId);
      assert HasOwnEvent(t, index);
    }
    if !ScopedCertificateRequest(t) && HasOwnEvent(t, index) {
      var o :| o in t.observed && CountsFor(t.class_, t.targets[index], o.target)
               && (forall prior, other | 0 <= prior < index && other in t.observed
                                         && CountsFor(t.class_, t.targets[prior], other.target) ::
                     other.eventId != o.eventId);
      assert !CreditedEarlier(t, index, o.eventId);
    }
  }

  ghost predicate AllOwn(t: Trigger201) {
    !ScopedCertificateRequest(t) && forall i | 0 <= i < |t.targets| :: HasOwnEvent(t, i)
  }

  ghost predicate SomeOwn(t: Trigger201) {
    !ScopedCertificateRequest(t) && exists i | 0 <= i < |t.targets| :: HasOwnEvent(t, i)
  }

  ghost predicate StationReceipt(t: Trigger201) {
    ScopedCertificateRequest(t) && exists o :: o in t.observed && o.target == Station
  }

  lemma {:induction false} SeenCountMeaning(t: Trigger201, upTo: nat)
    requires upTo <= |t.targets|
    ensures SeenCount(t, upTo) == upTo <==> forall i | 0 <= i < upTo :: Seen(t, i)
    ensures SeenCount(t, upTo) != 0 <==> exists i | 0 <= i < upTo :: Seen(t, i)
  {
    if upTo > 0 {
      SeenCountMeaning(t, upTo - 1);
    }
  }

  lemma SeenCounts(t: Trigger201)
    ensures t.targets != [] ==> (SeenCount(t, |t.targets|) == |t.targets| <==> AllOwn(t))
    ensures SeenCount(t, |t.targets|) != 0 <==> SomeOwn(t)
  {
    SeenCountMeaning(t, |t.targets|);
    forall i | 0 <= i < |t.targets| ensures Seen(t, i) <==> !ScopedCertificateRequest(t) && HasOwnEvent(t, i) {
      SeenIsOwnEvent(t, i);
    }
    if t.targets != [] && SeenCount(t, |t.targets|) == |t.targets| {
      assert Seen(t, 0);
    }
  }

  /** What each status means, for an expectation with at least one target. */
  lemma StatusMeaning(t: Trigger201, now: Time)
    requires t.targets != []
    ensures var s := RefreshedStatus(t, now);
            var refused := t.response.Some? && t.response.value.status != Accepted;
            var accepted := t.response.Some? && t.response.value.status == Accepted;
            && (s == Unsupported <==> refused)
            && (s == Unattributable <==> !refused && StationReceipt(t))
            && (s == Observed <==> accepted && AllOwn(t))
            && (s == Absent <==> !refused && !StationReceipt(t) && now >= t.deadline && !SomeOwn(t))
            && (s == Partial <==> && !refused && SomeOwn(t) && !(accepted && AllOwn(t))
                                  && (now >= t.deadline || accepted))
            && (s == AwaitingEvents <==> && !refused && !StationReceipt(t) && now < t.deadline
                                         && !(accepted && SomeOwn(t)))
  {
    SeenCounts(t);
    if AllOwn(t) {
      assert HasOwnEvent(t, 0);
    }
  }

  // The verdict ----------------------------------------------------------------------------------

  /** Only the events and the status of an expectation move, and the two flags say what happened. */
  lemma ReconcileVerdict(t: Trigger201, now: Time, journal: seq<JournalEvent>)
    requires Reconcile(t, now, journal).Ok?
    ensures var r := Reconcile(t, now, journal).value;
            && r.trigger == t.(observed := r.trigger.observed, status := RefreshedStatus(r.trigger, now))
            && (r.changed <==> r.trigger != t)
            && (r.finalized <==> now >= t.deadline || r.trigger.status == Observed)
  {
    ReconcileExtends(t, now, journal);
    var r := Reconcile(t, now, journal).value;
    StatusIsOfEvidence(r.trigger, now);
    if |r.trigger.observed| == |t.observed| {
      assert r.trigger.observed == t.observed;
    }
  }

  /** The stored status plays no part in the new one. */
  lemma StatusIsOfEvidence(t: Trigger201, now: Time)
    requires t.targets != []
    ensures forall s: TriggerStatus :: RefreshedStatus(t.(status := s), now) == RefreshedStatus(t, now)
  {
    forall s: TriggerStatus ensures RefreshedStatus(t.(status := s), now) == RefreshedStatus(t, now) {
      var u := t.(status := s);
      StatusMeaning(t, now);
      StatusMeaning(u, now);
      forall i | 0 <= i < |t.targets| ensures HasOwnEvent(t, i) <==> HasOwnEvent(u, i) {
      }
    }
  }

  // Refusals -------------------------------------------------------------------------------------

  lemma {:induction false} ConsistentRowsAreRead(t: Trigger201, target: TriggerTarget, rows: seq<JournalEvent>)
    requires forall e | e in rows :: e.consistent
    ensures FirstFresh(t, target, rows).Ok?
  {
    if rows != [] {
      assert rows[0] in rows;
      ConsistentRowsAreRead(t, target, rows[1..]);
    }
  }

  lemma ConsistentJournalCredits(t: Trigger201, target: TriggerTarget, journal: seq<JournalEvent>)
    requires forall e | e in journal :: e.consistent
    ensures CreditTarget(t, target, journal).Ok?
  {
    var rows := Candidates(t, target, journal);
    var page := Sequences.Take(rows, CANDIDATE_LIMIT);
    forall e | e in page ensures e.consistent {
      assert e in rows;
    }
    ConsistentRowsAreRead(t, target, page);
  }

  lemma {:induction false} ConsistentJournalCreditsAll(t: Trigger201, targets: seq<TriggerTarget>,
      journal: seq<JournalEvent>)
    requires forall e | e in journal :: e.consistent
    ensures CreditTargets(t, targets, journal).Ok?
    decreases |targets|
  {
    if targets != [] {
      ConsistentJournalCredits(t, targets[0], journal);
      ConsistentJournalCreditsAll(CreditTarget(t, targets[0], journal).value, targets[1..], journal);
    }
  }

  /** Against a consistent journal only a malformed expectation is refused. */
  lemma RefusedExactlyWhenMalformed(t: Trigger201, now: Time, journal: seq<JournalEvent>)
    requires forall e | e in journal :: e.consistent
    ensures Reconcile(t, now, journal).Err?
            <==> |t.targets| == 0 || |t.targets| > 65 || |t.observed| > 66 || t.startedAt > t.deadline
  {
    ConsistentJournalCreditsAll(t, t.targets, journal);
    ConsistentJournalCredits(CreditTargets(t, t.targets, journal).value, Station, journal);
  }

  // The row limit --------------------------------------------------------------------------------

  /** A different id for every number. */
  function Id(n: nat): (id: EventId) {
    seq(n, _ => 'x')
  }

  function TransactionAt(n: nat): (e: JournalEvent) {
    JournalEvent(Id(n), TransactionEvent, Connector(1, n), 0, true, false, true, true)
  }

  /** Connectors 0 to 63 and the whole EVSE are awaited; events 64 to 129 are recorded for the station. */
  function Crowded(): (t: Trigger201) {
    Trigger201(TransactionEvent, None, seq(64, n requires 0 <= n => Connector(1, n)) + [Evse(1)], 0, 0,
               Some(TriggerReply(Accepted, None)),
               seq(66, n requires 0 <= n => ObservedEvent(Id(64 + n), Station, 0)), AwaitingEvents)
  }

  function Busy(): (journal: seq<JournalEvent>) {
    seq(131, n requires 0 <= n => TransactionAt(n))
  }

  /** What is recorded once the first `n` connectors are served. */
  function CrowdedAfter(n: nat): (t: Trigger201) {
    Crowded().(observed := Crowded().observed + seq(n, i requires 0 <= i => ObservedEvent(Id(i), Connector(1, i), 0)))
  }

  lemma BusyIsDistinct()
    ensures DistinctKeys(Busy(), JournalId) && forall e | e in Busy() :: e.consistent
  {
    forall i, j | 0 <= i < j < |Busy()| ensures JournalId(Busy()[i]) != JournalId(Busy()[j]) {
      assert |Id(i)| == i && |Id(j)| == j;
    }
  }

  lemma AtMostOne(rows: seq<JournalEvent>, only: JournalEvent)
    requires DistinctKeys(rows, JournalId) && forall e | e in rows :: e == only
    ensures |rows| <= 1
  {
    assert Keys(rows, JournalId) <= {JournalId(only)};
    KeysCount(rows, JournalId);
    Sequences.SubsetCount(Keys(rows, JournalId), {JournalId(only)});
  }

  lemma UnservedConnector(n: nat, t: Trigger201)
    requires n < 64 && t == CrowdedAfter(n)
    ensures !HasTarget(t, Connector(1, n)) && !SeenId(t, Id(n))
  {
    forall o | o in t.observed ensures o.target != Connector(1, n) && o.eventId != Id(n) {
      var i :| 0 <= i < |t.observed| && t.observed[i] == o;
      assert o.eventId == (if i < 66 then Id(64 + i) else Id(i - 66)) && |Id(n)| == n;
    }
  }

  lemma OnlyCandidate(n: nat, t: Trigger201, journal: seq<JournalEvent>)
    requires n < 64 && t == CrowdedAfter(n) && journal == Busy()
    ensures Candidates(t, Connector(1, n), journal) == [TransactionAt(n)]
  {
    BusyIsDistinct();
    var rows := Candidates(t, Connector(1, n), journal);
    assert journal[n] == TransactionAt(n) && TransactionAt(n) in rows;
    forall e | e in rows ensures e == TransactionAt(n) {
      var i :| 0 <= i < |journal| && journal[i] == e;
      assert e == TransactionAt(i);
    }
    CandidatesKeepUnique(t, Connector(1, n), journal);
    AtMostOne(rows, TransactionAt(n));
  }

  lemma CrowdedStep(n: nat)
    requires n < 64
    ensures CreditTarget(CrowdedAfter(n), Connector(1, n), Busy()) == Ok(CrowdedAfter(n + 1))
  {
    var t, target := CrowdedAfter(n), Connector(1, n);
    UnservedConnector(n, t);
    OnlyCandidate(n, t, Busy());
    var event := ObservedEvent(Id(n), target, 0);
    assert FirstFresh(t, target, [TransactionAt(n)]) == Ok(Some(event));
    assert t.observed + [event] == CrowdedAfter(n + 1).observed;
  }

  lemma {:induction false} CrowdedConnectors(n: nat)
    requires n <= 64
    ensures CreditTargets(CrowdedAfter(n), Crowded().targets[n..], Busy())
            == CreditTarget(CrowdedAfter(64), Evse(1), Busy())
    decreases 64 - n
  {
    var targets := Crowded().targets;
    var next := CreditTarget(CrowdedAfter(n), targets[n], Busy());
    assert targets[n..][0] == targets[n] && targets[n..][1..] == targets[n + 1..];
    if n < 64 {
      CrowdedStep(n);
      CrowdedConnectors(n + 1);
    } else {
      BusyIsDistinct();
      ConsistentJournalCredits(CrowdedAfter(64), Evse(1), Busy());
      assert targets[65..] == [];
    }
  }

  lemma {:induction false} AllCandidates(t: Trigger201, target: TriggerTarget, journal: seq<JournalEvent>)
    requires forall e | e in journal :: Matches(t, target, e)
    ensures Candidates(t, target, journal) == journal
  {
    if journal != [] {
      assert journal[0] in journal;
      AllCandidates(t, target, journal[1..]);
    }
  }

  /** A journal of eligible rows whose first 128 are recorded gives nothing. */
  lemma HiddenByPage(t: Trigger201, target: TriggerTarget, journal: seq<JournalEvent>)
    requires |journal| > 128 && !HasTarget(t, target)
    requires forall e | e in journal :: Matches(t, target, e) && e.consistent
    requires forall i | 0 <= i < 128 :: SeenId(t, journal[i].eventId)
    ensures CreditTarget(t, target, journal) == Ok(t)
  {
    AllCandidates(t, target, journal);
    ConsistentJournalCredits(t, target, journal);
    AllSeenFindsNothing(t, target, journal[..128]);
  }

  /** The query for the EVSE reads 128 rows, all recorded, and never reaches the last ones. */
  lemma CrowdedEvse(t: Trigger201, journal: seq<JournalEvent>)
    requires t == CrowdedAfter(64) && journal == Busy()
    ensures CreditTarget(t, Evse(1), journal) == Ok(t)
  {
    BusyMatchesEvse(t);
    BusyIsDistinct();
    forall i | 0 <= i < 128 ensures SeenId(t, journal[i].eventId) {
      assert journal[i] == TransactionAt(i);
      CrowdedRecords(i);
    }
    NoEventAtEvse();
    HiddenByPage(t, Evse(1), journal);
  }

  lemma BusyMatchesEvse(t: Trigger201)
    requires t.class_ == TransactionEvent && t.startedAt == 0 && t.deadline == 0
    ensures forall e | e in Busy() :: Matches(t, Evse(1), e)
  {
    forall e | e in Busy() ensures Matches(t, Evse(1), e) {
      var i :| 0 <= i < |Busy()| && Busy()[i] == e;
      assert e == TransactionAt(i);
    }
  }

  lemma CrowdedRecords(i: nat)
    requires i < 130
    ensures SeenId(CrowdedAfter(64), TransactionAt(i).eventId)
  {
    var t := CrowdedAfter(64);
    var o := if i < 64 then t.observed[66 + i] else t.observed[i - 64];
    assert o in t.observed && o.eventId == Id(i);
  }

  lemma NoEventAtEvse()
    ensures !HasTarget(CrowdedAfter(64), Evse(1))
  {
    var t := CrowdedAfter(64);
    forall o | o in t.observed ensures o.target != Evse(1) {
      var i :| 0 <= i < |t.observed| && t.observed[i] == o;
    }
  }

  lemma {:induction false} AllSeenFindsNothing(t: Trigger201, target: TriggerTarget, rows: seq<JournalEvent>)
    requires forall e | e in rows :: SeenId(t, e.eventId)
    requires FirstFresh(t, target, rows).Ok?
    ensures FirstFresh(t, target, rows).value.None?
  {
    if rows != [] {
      assert rows[0] in rows;
      AllSeenFindsNothing(t, target, rows[1..]);
    }
  }

  /**
   With 66 events recorded for other places the row limit does hide an event: the EVSE is not served
   although the journal has an unrecorded transaction event for it.
   */
  lemma RowLimitCanHideEvent()
    ensures DistinctKeys(Busy(), JournalId) && Reconcile(Crowded(), 0, Busy()).Ok?
    ensures !Served(Reconcile(Crowded(), 0, Busy()).value.trigger, Evse(1), Busy()) && Evse(1) in Crowded().targets
  {
    BusyIsDistinct();
    var t, journal := CrowdedAfter(64), Busy();
    assert CrowdedAfter(0) == Crowded() && Crowded().targets[0..] == Crowded().targets;
    CrowdedConnectors(0);
    CrowdedEvse(t, journal);
    LastRowUnrecorded(t, journal);
    NoEventAtEvse();
    assert Crowded().targets[64] == Evse(1);
    assert Reconcile(Crowded(), 0, journal).value.trigger == Refresh(t, 0);
    NotServed(t, Refresh(t, 0), journal);
  }

  lemma LastRowUnrecorded(t: Trigger201, journal: seq<JournalEvent>)
    requires t == CrowdedAfter(64) && journal == Busy()
    ensures TransactionAt(130) in journal && !Recorded(t.observed, Id(130))
  {
    assert journal[130] == TransactionAt(130);
    forall o | o in t.observed ensures o.eventId != Id(130) {
      var i :| 0 <= i < |t.observed| && t.observed[i] == o;
      assert o.eventId == (if i < 66 then Id(64 + i) else Id(i - 66)) && |o.eventId| < 130 == |Id(130)|;
    }
  }

  lemma NotServed(t: Trigger201, after: Trigger201, journal: seq<JournalEvent>)
    requires t.class_ == TransactionEvent && t.startedAt == 0 && t.deadline == 0 && !HasTarget(t, Evse(1))
    requires TransactionAt(130) in journal && !Recorded(t.observed, Id(130))
    requires after == t.(status := after.status)
    ensures !Served(after, Evse(1), journal)
  {
    assert Eligible(after, Evse(1), TransactionAt(130));
  }
}
