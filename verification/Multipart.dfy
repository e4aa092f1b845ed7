/**
 Bounded collection of a report that arrives in numbered fragments. Which fragments arrive, when they
 are too late and whether the shared budget grants a resize are the environment's choice and come in
 as part of each event.
 */
module Multipart {

  type Bytes = seq<int>

  datatype Key = Key(station: string, connection: string, protocol: string, action: string, requestId: int,
      correlation: string)

  /** Timeout in milliseconds. */
  datatype Limits = Limits(maximumBytes: nat, maximumItems: nat, maximumFragments: nat, timeout: nat)

  datatype Fragment = Fragment(key: Key, sequence: nat, more: bool, items: seq<Bytes>)

  datatype Failure =
    | InvalidConfiguration | CorrelationMismatch | DuplicateOrConflictingSequence | MissingOrOutOfOrderSequence
    | FragmentLimit | ItemLimit | ByteLimit | Capacity | TimedOut | Cancelled | Disconnected | NotTransmitted
    | InvalidFragment

  datatype Progress = Progress(fragments: nat, items: nat, bytes: nat)

  datatype Report = Report(key: Key, progress: Progress, items: seq<Bytes>, limits: Limits, reserved: nat)

  datatype Outcome<T> = Accepted(value: T) | Refused(reason: Failure)

  predicate ValidKey(k: Key) {
    |k.station| <= 128 && |k.connection| <= 128 && |k.action| <= 128 && |k.correlation| <= 128
  }

  predicate ValidLimits(l: Limits) {
    && 1 <= l.maximumBytes <= 8 * 1024 * 1024 && 1 <= l.maximumItems <= 65536
    && 1 <= l.maximumFragments <= 4096 && 0 < l.timeout <= 300000
  }

  /** A pointer and a length. */
  const ITEM_DESCRIPTOR: nat := 16

  /** The size of the report structure itself and the limit on one message. */
  datatype Sizes = Sizes(report: nat, messageLimit: nat)

  function Overhead(l: Limits, sizes: Sizes): (n: nat) {
    l.maximumItems * ITEM_DESCRIPTOR + sizes.report + 4 * 128
  }

  function TotalBytes(items: seq<Bytes>): (n: nat) {
    if items == [] then 0 else TotalBytes(items[..|items| - 1]) + |items[|items| - 1]|
  }

  function Flatten(fragments: seq<Fragment>): (items: seq<Bytes>) {
    if fragments == [] then [] else Flatten(fragments[..|fragments| - 1]) + fragments[|fragments| - 1].items
  }

  lemma {:induction false} TotalAppend(a: seq<Bytes>, b: seq<Bytes>)
    ensures TotalBytes(a + b) == TotalBytes(a) + TotalBytes(b)
  {
    if b == [] {
      assert a + b == a;
    } else {
      assert (a + b)[..|a + b| - 1] == a + b[..|b| - 1];
      TotalAppend(a, b[..|b| - 1]);
    }
  }

  /** All bytes of the items, one after the other. */
  ghost function AllBytes(items: seq<Bytes>): (bytes: Bytes) {
    if items == [] then [] else items[0] + AllBytes(items[1..])
  }

  lemma {:induction false} TotalCounts(items: seq<Bytes>)
    ensures TotalBytes(items) == |AllBytes(items)|
  {
    if items != [] {
      TotalCounts(items[1..]);
      TotalAppend([items[0]], items[1..]);
      assert items == [items[0]] + items[1..];
      assert TotalBytes([items[0]]) == |items[0]| by {
        assert [items[0]][..0] == [];
      }
    }
  }

  function Reserve(key: Key, limits: Limits, sizes: Sizes, granted: bool): (r: Outcome<Report>) {
    if !ValidLimits(limits) || !ValidKey(key) then Refused(InvalidConfiguration)
    else if !granted then Refused(Capacity)
    else Accepted(Report(key, Progress(0, 0, 0), [], limits, Overhead(limits, sizes)))
  }

  function Append(report: Report, f: Fragment, sizes: Sizes, granted: bool): (r: Outcome<Report>) {
    var p, l := report.progress, report.limits;
    if f.key != report.key then Refused(CorrelationMismatch)
    else if f.sequence < p.fragments then Refused(DuplicateOrConflictingSequence)
    else if f.sequence != p.fragments then Refused(MissingOrOutOfOrderSequence)
    else if p.fragments >= l.maximumFragments || (f.more && p.fragments + 1 == l.maximumFragments) then
        Refused(FragmentLimit)
    else if p.items + |f.items| > l.maximumItems then Refused(ItemLimit)
    else if TotalBytes(f.items) > sizes.messageLimit then Refused(ByteLimit)
    else if p.bytes + TotalBytes(f.items) > l.maximumBytes then Refused(ByteLimit)
    else if !granted then Refused(Capacity)
    else Accepted(report.(progress := Progress(p.fragments + 1, p.items + |f.items|, p.bytes + TotalBytes(f.items)),
                          items := report.items + f.items,
                          reserved := Overhead(l, sizes) + p.bytes + TotalBytes(f.items)))
  }

  /** What the loop waits for: a fragment, its lateness and the budget's answer; or the end of the source. */
  datatype Event = Arrived(fragment: Fragment, late: bool, granted: bool) | Ended(reason: Failure)

  datatype Collected =
    | Waiting(report: Report)
    | Complete(report: Report)
    | Partial(key: Key, progress: Progress, reason: Failure)

  function Collect(report: Report, events: seq<Event>, sizes: Sizes): (r: Collected)
    decreases |events|
  {
    if events == [] then Waiting(report)
    else if events[0].Ended? then Partial(report.key, report.progress, events[0].reason)
    else if events[0].late then Partial(report.key, report.progress, TimedOut)
    else
      var next := Append(report, events[0].fragment, sizes, events[0].granted);
      if next.Refused? then Partial(report.key, report.progress, next.reason)
      else if !events[0].fragment.more then Complete(next.value)
      else Collect(next.value, events[1..], sizes)
  }

  // Every reachable report ---------------------------------------------------------------------------

  /** The report is exactly what these fragments make it, and within its limits. */
  ghost predicate AssembledFrom(report: Report, fragments: seq<Fragment>, sizes: Sizes) {
    && report.items == Flatten(fragments)
    && report.progress == Progress(|fragments|, |report.items|, TotalBytes(report.items))
    && report.reserved == Overhead(report.limits, sizes) + TotalBytes(report.items)
    && |fragments| <= report.limits.maximumFragments
    && |report.items| <= report.limits.maximumItems
    && TotalBytes(report.items) <= report.limits.maximumBytes
    && (forall i | 0 <= i < |fragments| :: fragments[i].sequence == i && fragments[i].key == report.key)
    && (forall i | 0 <= i < |fragments| :: TotalBytes(fragments[i].items) <= sizes.messageLimit)
  }

  lemma AppendAssembles(report: Report, fragments: seq<Fragment>, f: Fragment, sizes: Sizes, granted: bool)
    requires AssembledFrom(report, fragments, sizes) && Append(report, f, sizes, granted).Accepted?
    ensures AssembledFrom(Append(report, f, sizes, granted).value, fragments + [f], sizes)
    ensures f.more ==> |fragments| + 1 < report.limits.maximumFragments
  {
    assert (fragments + [f])[..|fragments|] == fragments;
    TotalAppend(report.items, f.items);
  }

  /** Fragments taken so far, in order. */
  ghost function Taken(events: seq<Event>): (r: seq<Fragment>)
    requires forall e | e in events :: e.Arrived?
    ensures |r| == |events| && forall i | 0 <= i < |events| :: r[i] == events[i].fragment
  {
    if events == [] then []
    else
      assert events[0] in events && forall e | e in events[1..] :: e in events;
      [events[0].fragment] + Taken(events[1..])
  }

  /** The first `n` events are fragments in time, numbered on from `base`, only the last one final. */
  ghost predicate FinalRun(events: seq<Event>, base: nat, n: nat, key: Key) {
    && 0 < n <= |events|
    && (forall i | 0 <= i < n :: events[i].Arrived? && !events[i].late && events[i].granted)
    && (forall i | 0 <= i < n :: events[i].fragment.key == key && events[i].fragment.sequence == base + i)
    && (forall i | 0 <= i < n :: events[i].fragment.more <==> i < n - 1)
  }

  ghost predicate FitsMessages(fragments: seq<Fragment>, sizes: Sizes) {
    forall f | f in fragments :: TotalBytes(f.items) <= sizes.messageLimit
  }

  /** What a run of events adds, and whether that stays within the limits. */
  ghost predicate Completes(report: Report, events: seq<Event>, n: nat, sizes: Sizes) {
    && FinalRun(events, report.progress.fragments, n, report.key)
    && var added := Taken(events[..n]);
       && FitsMessages(added, sizes)
       && report.progress.fragments + n <= report.limits.maximumFragments
       && report.progress.items + |Flatten(added)| <= report.limits.maximumItems
       && report.progress.bytes + TotalBytes(Flatten(added)) <= report.limits.maximumBytes
  }

  lemma {:induction false} FlattenCons(f: Fragment, rest: seq<Fragment>)
    ensures Flatten([f] + rest) == f.items + Flatten(rest)
  {
    var all := [f] + rest;
    if rest == [] {
      assert all[..0] == [];
    } else {
      var init := rest[..|rest| - 1];
      assert all[..|all| - 1] == [f] + init;
      FlattenCons(f, init);
    }
  }

  lemma TakenCons(events: seq<Event>, n: nat)
    requires 0 < n <= |events| && forall i | 0 <= i < n :: events[i].Arrived?
    ensures Taken(events[..n]) == [events[0].fragment] + Taken(events[1..][..n - 1])
  {
    assert events[..n][1..] == events[1..][..n - 1];
  }

  /** The first fragment is no larger than all of them together. */
  lemma FirstFits(events: seq<Event>, n: nat)
    requires 0 < n <= |events| && forall i | 0 <= i < n :: events[i].Arrived?
    ensures var all := Flatten(Taken(events[..n]));
            && events[0].fragment in Taken(events[..n])
            && |events[0].fragment.items| <= |all| && TotalBytes(events[0].fragment.items) <= TotalBytes(all)
  {
    var f, rest := events[0].fragment, Taken(events[1..][..n - 1]);
    TakenCons(events, n);
    FlattenCons(f, rest);
    TotalAppend(f.items, Flatten(rest));
  }

  lemma FirstIsAccepted(report: Report, events: seq<Event>, sizes: Sizes, n: nat)
    requires Completes(report, events, n, sizes)
    ensures var e := events[0];
            && e.Arrived? && !e.late && e.granted && (e.fragment.more <==> n > 1)
            && Append(report, e.fragment, sizes, true).Accepted?
  {
    FirstFits(events, n);
  }

  lemma {:induction false} CompletesIfAcceptable(report: Report, events: seq<Event>, sizes: Sizes, n: nat)
    requires Completes(report, events, n, sizes)
    ensures Collect(report, events, sizes).Complete?
    decreases |events|
  {
    FirstIsAccepted(report, events, sizes, n);
    if n > 1 {
      StillCompletes(report, events, sizes, n);
      CompletesIfAcceptable(Append(report, events[0].fragment, sizes, true).value, events[1..], sizes, n - 1);
    }
  }

  lemma StillCompletes(report: Report, events: seq<Event>, sizes: Sizes, n: nat)
    requires n > 1 && Completes(report, events, n, sizes)
    requires Append(report, events[0].fragment, sizes, true).Accepted?
    ensures Completes(Append(report, events[0].fragment, sizes, true).value, events[1..], n - 1, sizes)
  {
    var e, later := events[0], events[1..];
    TakenCons(events, n);
    var rest := Taken(later[..n - 1]);
    FlattenCons(e.fragment, rest);
    TotalAppend(e.fragment.items, Flatten(rest));
    assert forall i | 0 <= i < n - 1 :: later[i] == events[i + 1];
    assert forall f | f in rest :: f in Taken(events[..n]);
  }

  lemma TakenOne(events: seq<Event>)
    requires events != [] && events[0].Arrived?
    ensures Taken(events[..1]) == [events[0].fragment] && Flatten([events[0].fragment]) == events[0].fragment.items
  {
    var f := events[0].fragment;
    assert events[..1][1..] == [] && [f][..0] == [];
    assert Flatten([f]) == Flatten([]) + f.items;
  }

  lemma CompletesAtOnce(report: Report, events: seq<Event>, sizes: Sizes)
    requires events != [] && events[0].Arrived? && !events[0].late && !events[0].fragment.more
    requires Append(report, events[0].fragment, sizes, events[0].granted).Accepted?
    ensures Completes(report, events, 1, sizes)
  {
    TakenOne(events);
  }

  lemma {:induction false} OnlyWhenComplete(report: Report, events: seq<Event>, sizes: Sizes)
    requires Collect(report, events, sizes).Complete?
    ensures exists n | 0 < n <= |events| :: Completes(report, events, n, sizes)
    decreases |events|
  {
    var e := events[0];
    if !e.fragment.more {
      CompletesAtOnce(report, events, sizes);
    } else {
      var next := Append(report, e.fragment, sizes, e.granted).value;
      OnlyWhenComplete(next, events[1..], sizes);
      var n :| 0 < n <= |events[1..]| && Completes(next, events[1..], n, sizes);
      CompletesEarlier(report, events, sizes, n);
    }
  }

  lemma CompletesEarlier(report: Report, events: seq<Event>, sizes: Sizes, n: nat)
    requires events != [] && events[0].Arrived? && !events[0].late && events[0].fragment.more
    requires var next := Append(report, events[0].fragment, sizes, events[0].granted);
             next.Accepted? && Completes(next.value, events[1..], n, sizes)
    ensures Completes(report, events, n + 1, sizes)
  {
    var e, later := events[0], events[1..];
    forall i | 0 <= i < n + 1
      ensures events[i].Arrived? && !events[i].late && events[i].granted
              && events[i].fragment.key == report.key && events[i].fragment.sequence == report.progress.fragments + i
              && (events[i].fragment.more <==> i < n)
    {
      assert i > 0 ==> events[i] == later[i - 1];
    }
    TakenCons(events, n + 1);
    var rest := Taken(later[..n]);
    FlattenCons(e.fragment, rest);
    TotalAppend(e.fragment.items, Flatten(rest));
    assert forall f | f in Taken(events[..n + 1]) :: f == e.fragment || f in rest;
  }

  /** Collection succeeds if and only if everything up to the first final fragment is acceptable together. */
  lemma CompleteExactlyWhenAcceptable(report: Report, events: seq<Event>, sizes: Sizes)
    ensures Collect(report, events, sizes).Complete?
            <==> exists n | 0 < n <= |events| :: Completes(report, events, n, sizes)
  {
    if Collect(report, events, sizes).Complete? {
      OnlyWhenComplete(report, events, sizes);
    } else {
      forall n | 0 < n <= |events| ensures !Completes(report, events, n, sizes) {
        if Completes(report, events, n, sizes) {
          CompletesIfAcceptable(report, events, sizes, n);
          assert false;
        }
      }
    }
  }

  /** The fragments accepted before collection ended or stopped to wait. */
  function AcceptedFragments(report: Report, events: seq<Event>, sizes: Sizes): (r: seq<Fragment>)
    decreases |events|
  {
    if events == [] || events[0].Ended? || events[0].late then []
    else
      var next := Append(report, events[0].fragment, sizes, events[0].granted);
      if next.Refused? then []
      else
        [events[0].fragment]
        + (if events[0].fragment.more then AcceptedFragments(next.value, events[1..], sizes) else [])
  }

  function ReportedProgress(r: Collected): (p: Progress) {
    if r.Partial? then r.progress else r.report.progress
  }

  ghost predicate CountsOf(p: Progress, fragments: seq<Fragment>) {
    p == Progress(|fragments|, |Flatten(fragments)|, TotalBytes(Flatten(fragments)))
  }

  /** What holds of a collection that had taken `fragments` before and takes `more` now. */
  ghost predicate Accounts(r: Collected, all: seq<Fragment>, limits: Limits, sizes: Sizes) {
    && CountsOf(ReportedProgress(r), all)
    && |all| <= limits.maximumFragments
    && (!r.Partial? ==> AssembledFrom(r.report, all, sizes) && r.report.limits == limits)
  }

  lemma StoppedAccounts(report: Report, fragments: seq<Fragment>, sizes: Sizes, r: Collected)
    requires AssembledFrom(report, fragments, sizes)
    requires r == Waiting(report) || r == Complete(report) || (r.Partial? && r.progress == report.progress)
    ensures Accounts(r, fragments, report.limits, sizes)
  {
  }

  /** Whatever the outcome, the counts are exactly those of the accepted fragments. */
  lemma {:induction false} CountsAreOfAcceptedFragments(report: Report, fragments: seq<Fragment>, events: seq<Event>,
      sizes: Sizes)
    requires AssembledFrom(report, fragments, sizes)
    ensures Accounts(Collect(report, events, sizes), fragments + AcceptedFragments(report, events, sizes),
            report.limits, sizes)
    decreases |events|
  {
    var accepted := AcceptedFragments(report, events, sizes);
    if accepted == [] {
      NoneAccepted(report, fragments, events, sizes);
    } else {
      var f := events[0].fragment;
      var next := Append(report, f, sizes, events[0].granted).value;
      AppendAssembles(report, fragments, f, sizes, events[0].granted);
      if f.more {
        var later := AcceptedFragments(next, events[1..], sizes);
        CountsAreOfAcceptedFragments(next, fragments + [f], events[1..], sizes);
        FragmentsJoin(fragments, f, later);
      } else {
        StoppedAccounts(next, fragments + [f], sizes, Complete(next));
        FragmentsJoin(fragments, f, []);
      }
    }
  }

  lemma NoneAccepted(report: Report, fragments: seq<Fragment>, events: seq<Event>, sizes: Sizes)
    requires AssembledFrom(report, fragments, sizes) && AcceptedFragments(report, events, sizes) == []
    ensures Accounts(Collect(report, events, sizes), fragments + [], report.limits, sizes)
  {
    assert fragments + [] == fragments;
    StoppedAccounts(report, fragments, sizes, Collect(report, events, sizes));
  }

  lemma FragmentsJoin(fragments: seq<Fragment>, f: Fragment, later: seq<Fragment>)
    ensures fragments + ([f] + later) == (fragments + [f]) + later
    ensures later == [] ==> fragments + ([f] + later) == fragments + [f]
  {
  }

  /** Collection is complete exactly when its last accepted fragment is final, and no earlier one ever is. */
  lemma {:induction false} OnlyTheLastIsFinal(report: Report, events: seq<Event>, sizes: Sizes)
    ensures var accepted := AcceptedFragments(report, events, sizes);
            && (forall i | 0 <= i < |accepted| - 1 :: accepted[i].more)
            && (Collect(report, events, sizes).Complete? <==> accepted != [] && !accepted[|accepted| - 1].more)
    decreases |events|
  {
    var accepted := AcceptedFragments(report, events, sizes);
    if accepted != [] && accepted[0].more {
      var next := Append(report, events[0].fragment, sizes, events[0].granted).value;
      OnlyTheLastIsFinal(next, events[1..], sizes);
      var later := AcceptedFragments(next, events[1..], sizes);
      assert accepted == [events[0].fragment] + later;
      assert forall i | 0 < i < |accepted| :: accepted[i] == later[i - 1];
    }
  }

  // Why a collection ends ----------------------------------------------------------------------------

  /** What is wrong with this event after these fragments; the first fault there is counts. */
  ghost predicate Fault(e: Event, taken: seq<Fragment>, key: Key, limits: Limits, sizes: Sizes, reason: Failure) {
    match e
    case Ended(given) => reason == given
    case Arrived(f, late, granted) =>
      if late then reason == TimedOut
      else if f.key != key then reason == CorrelationMismatch
      else if f.sequence != |taken| then
        reason == if f.sequence < |taken| then DuplicateOrConflictingSequence else MissingOrOutOfOrderSequence
      else
        var all := taken + [f];
        if |all| + (if f.more then 1 else 0) > limits.maximumFragments then reason == FragmentLimit
        else if |Flatten(all)| > limits.maximumItems then reason == ItemLimit
        else if TotalBytes(f.items) > sizes.messageLimit || TotalBytes(Flatten(all)) > limits.maximumBytes then
          reason == ByteLimit
        else !granted && reason == Capacity
  }

  /** An appended fragment is refused for its first fault, and accepted exactly when it has none. */
  lemma AppendRefusesFaults(report: Report, fragments: seq<Fragment>, f: Fragment, sizes: Sizes, granted: bool)
    requires AssembledFrom(report, fragments, sizes)
    ensures forall reason ::
              Append(report, f, sizes, granted) == Refused(reason)
              <==> Fault(Arrived(f, false, granted), fragments, report.key, report.limits, sizes, reason)
  {
    var all := fragments + [f];
    assert all[..|all| - 1] == fragments;
    TotalAppend(Flatten(fragments), f.items);
  }

  /**
   A collection that ends early ends at the first event that has a fault, with that fault as its reason:
   every fragment before it was taken, and the report counts exactly those.
   */
  lemma {:induction false} PartialNamesFirstFault(report: Report, fragments: seq<Fragment>, events: seq<Event>,
      sizes: Sizes)
    requires AssembledFrom(report, fragments, sizes) && Collect(report, events, sizes).Partial?
    ensures var taken := AcceptedFragments(report, events, sizes);
            var r := Collect(report, events, sizes);
            && |taken| < |events| && r.key == report.key
            && (forall i | 0 <= i < |taken| :: events[i].Arrived? && events[i].fragment == taken[i] && taken[i].more)
            && Fault(events[|taken|], fragments + taken, report.key, report.limits, sizes, r.reason)
    decreases |events|
  {
    var e := events[0];
    if e.Ended? || e.late {
      assert fragments + [] == fragments;
    } else {
      AppendRefusesFaults(report, fragments, e.fragment, sizes, e.granted);
      var next := Append(report, e.fragment, sizes, e.granted);
      if next.Refused? {
        assert fragments + [] == fragments;
      } else {
        AppendAssembles(report, fragments, e.fragment, sizes, e.granted);
        PartialNamesFirstFault(next.value, fragments + [e.fragment], events[1..], sizes);
        var later := AcceptedFragments(next.value, events[1..], sizes);
        FragmentsJoin(fragments, e.fragment, later);
        assert events[1..][|later|] == events[|later| + 1];
        forall i | 0 < i < |later| + 1
          ensures events[i].Arrived? && events[i].fragment == later[i - 1] && later[i - 1].more
        {
          assert events[i] == events[1..][i - 1];
        }
      }
    }
  }

  /** An event has at most one fault to report. */
  lemma FaultIsUnique(e: Event, taken: seq<Fragment>, key: Key, limits: Limits, sizes: Sizes, a: Failure, b: Failure)
    requires Fault(e, taken, key, limits, sizes, a) && Fault(e, taken, key, limits, sizes, b)
    ensures a == b
  {
  }

  /** A report is reserved exactly within the stated limits, and takes its descriptors and fixed part at once. */
  lemma ReservedExactlyWithinLimits(key: Key, l: Limits, sizes: Sizes, granted: bool)
    ensures Reserve(key, l, sizes, granted) == Refused(InvalidConfiguration)
            <==> !(&& 1 <= l.maximumBytes <= 8388608 && 1 <= l.maximumItems <= 65536 && 1 <= l.maximumFragments <= 4096
                   && 1 <= l.timeout <= 300000 && |key.station| <= 128 && |key.connection| <= 128
                   && |key.action| <= 128 && |key.correlation| <= 128)
    ensures Reserve(key, l, sizes, granted).Accepted? ==>
              granted && Reserve(key, l, sizes, granted).value
                         == Report(key, Progress(0, 0, 0), [], l, 16 * l.maximumItems + sizes.report + 512)
    ensures Reserve(key, l, sizes, granted).Refused? && granted ==>
              Reserve(key, l, sizes, granted) == Refused(InvalidConfiguration)
  {
  }

  // The collector ------------------------------------------------------------------------------------

  class Collector {
    var key: Key
    var progress: Progress
    var items: seq<Bytes>
    var limits: Limits
    var reserved: nat

    ghost function View(): (r: Report)
      reads this
    {
      Report(key, progress, items, limits, reserved)
    }

    /** A granted reservation. */
    constructor (key: Key, limits: Limits, sizes: Sizes)
      requires ValidKey(key) && ValidLimits(limits)
      ensures Accepted(View()) == Reserve(key, limits, sizes, true)
    {
      this.key, this.limits := key, limits;
      progress, items, reserved := Progress(0, 0, 0), [], Overhead(limits, sizes);
    }

    /** Take one fragment whole, or refuse it and change nothing. */
    method AppendFragment(f: Fragment, sizes: Sizes, granted: bool) returns (r: Outcome<bool>)
      modifies this
      ensures var spec := Append(old(View()), f, sizes, granted);
              if spec.Accepted? then View() == spec.value && r == Accepted(!f.more)
              else View() == old(View()) && r == Refused(spec.reason)
    {
      var count, fragmentBytes := progress.items + |f.items|, TotalBytes(f.items);
      var bytes := progress.bytes + fragmentBytes;
      if f.key != key {
        r := Refused(CorrelationMismatch);
      } else if f.sequence < progress.fragments {
        r := Refused(DuplicateOrConflictingSequence);
      } else if f.sequence != progress.fragments {
        r := Refused(MissingOrOutOfOrderSequence);
      } else if progress.fragments >= limits.maximumFragments
          || (f.more && progress.fragments + 1 == limits.maximumFragments) {
        r := Refused(FragmentLimit);
      } else if count > limits.maximumItems {
        r := Refused(ItemLimit);
      } else if fragmentBytes > sizes.messageLimit || bytes > limits.maximumBytes {
        r := Refused(ByteLimit);
      } else if !granted {
        r := Refused(Capacity);
      } else {
        reserved := Overhead(limits, sizes) + bytes;
        items := items + f.items;
        progress := Progress(progress.fragments + 1, count, bytes);
        r := Accepted(!f.more);
      }
    }

    /** Run the loop over the events there are. */
    method CollectReport(expected: Limits, events: seq<Event>, sizes: Sizes) returns (r: Collected)
      modifies this
      ensures expected != old(limits) ==> View() == old(View()) && r == Partial(key, progress, InvalidConfiguration)
      ensures expected == old(limits) ==> r == Collect(old(View()), events, sizes) && ReportedProgress(r) == progress
    {
      if limits != expected {
        return Partial(key, progress, InvalidConfiguration);
      }
      for i := 0 to |events|
        invariant limits == old(limits)
        invariant Collect(old(View()), events, sizes) == Collect(View(), events[i..], sizes)
      {
        assert events[i..][1..] == events[i + 1..];
        if events[i].Ended? {
          return Partial(key, progress, events[i].reason);
        }
        if events[i].late {
          return Partial(key, progress, TimedOut);
        }
        var accepted := AppendFragment(events[i].fragment, sizes, events[i].granted);
        if accepted.Refused? {
          return Partial(key, progress, accepted.reason);
        }
        if accepted.value {
          return Complete(Report(key, progress, items, limits, reserved));
        }
      }
      return Waiting(Report(key, progress, items, limits, reserved));
    }
  }
}
