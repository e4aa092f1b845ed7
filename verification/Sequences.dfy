/** Table scans: selecting, summing and counting rows in row order, and counting sets. */
module Sequences {

  function Not<T>(p: T -> bool): (q: T -> bool) {
    x => !p(x)
  }

  function Filter<T>(s: seq<T>, p: T -> bool): (r: seq<T>)
    ensures |r| <= |s|
    ensures forall x | x in r :: x in s && p(x)
    ensures forall x | x in s && p(x) :: x in r
  {
    if s == [] then []
    else if p(s[0]) then [s[0]] + Filter(s[1..], p)
    else Filter(s[1..], p)
  }

  function Sum<T>(s: seq<T>, f: T -> nat): (n: nat) {
    if s == [] then 0 else f(s[0]) + Sum(s[1..], f)
  }

  function Take<T>(s: seq<T>, limit: nat): (r: seq<T>) {
    if |s| <= limit then s else s[..limit]
  }

  lemma Associates<T>(a: seq<T>, b: seq<T>, c: seq<T>)
    ensures a + (b + c) == (a + b) + c
  {
  }

  lemma {:induction false} FilterAppend<T>(a: seq<T>, b: seq<T>, p: T -> bool)
    ensures Filter(a + b, p) == Filter(a, p) + Filter(b, p)
  {
    if a == [] {
      assert a + b == b;
    } else {
      assert (a + b)[1..] == a[1..] + b;
      FilterAppend(a[1..], b, p);
    }
  }

  lemma {:induction false} SumAppend<T>(a: seq<T>, b: seq<T>, f: T -> nat)
    ensures Sum(a + b, f) == Sum(a, f) + Sum(b, f)
  {
    if a == [] {
      assert a + b == b;
    } else {
      assert (a + b)[1..] == a[1..] + b;
      SumAppend(a[1..], b, f);
    }
  }

  /** A selection and its complement account for every row. */
  lemma {:induction false} SumSplit<T>(s: seq<T>, p: T -> bool, f: T -> nat)
    ensures Sum(s, f) == Sum(Filter(s, p), f) + Sum(Filter(s, Not(p)), f)
  {
    if s != [] {
      SumSplit(s[1..], p, f);
      if p(s[0]) {
        assert ([s[0]] + Filter(s[1..], p))[1..] == Filter(s[1..], p);
      } else {
        assert ([s[0]] + Filter(s[1..], Not(p)))[1..] == Filter(s[1..], Not(p));
      }
    }
  }

  lemma {:induction false} FilterAll<T>(s: seq<T>, p: T -> bool)
    requires forall x | x in s :: p(x)
    ensures Filter(s, p) == s
  {
    if s != [] {
      assert s[0] in s;
      forall x | x in s[1..] ensures p(x) {
        assert x in s;
      }
      FilterAll(s[1..], p);
    }
  }

  lemma {:induction false} FilterNone<T>(s: seq<T>, p: T -> bool)
    requires forall x | x in s :: !p(x)
    ensures Filter(s, p) == []
  {
    if s != [] {
      assert s[0] in s;
      forall x | x in s[1..] ensures !p(x) {
        assert x in s;
      }
      FilterNone(s[1..], p);
    }
  }

  /** A selection inside a wider one may be made in either order. */
  lemma {:induction false} FilterInside<T>(s: seq<T>, wide: T -> bool, narrow: T -> bool)
    requires forall x | x in s && narrow(x) :: wide(x)
    ensures Filter(Filter(s, wide), narrow) == Filter(s, narrow)
  {
    if s != [] {
      assert s[0] in s;
      forall x | x in s[1..] && narrow(x) ensures wide(x) {
        assert x in s;
      }
      FilterInside(s[1..], wide, narrow);
      if wide(s[0]) {
        var kept := [s[0]] + Filter(s[1..], wide);
        assert kept[1..] == Filter(s[1..], wide);
      }
    }
  }

  /** Two selections may be made in either order. */
  lemma {:induction false} FilterCommutes<T>(s: seq<T>, p: T -> bool, q: T -> bool)
    ensures Filter(Filter(s, p), q) == Filter(Filter(s, q), p)
  {
    if s != [] {
      FilterCommutes(s[1..], p, q);
      var first, second := Filter(s[1..], p), Filter(s[1..], q);
      assert ([s[0]] + first)[1..] == first && ([s[0]] + second)[1..] == second;
    }
  }

  lemma {:induction false} FilterSame<T>(s: seq<T>, p: T -> bool, q: T -> bool)
    requires forall x | x in s :: p(x) <==> q(x)
    ensures Filter(s, p) == Filter(s, q)
  {
    if s != [] {
      assert s[0] in s;
      forall x | x in s[1..] ensures p(x) <==> q(x) {
        assert x in s;
      }
      FilterSame(s[1..], p, q);
    }
  }

  /** Two selections in a row are one. */
  lemma FilterBoth<T>(s: seq<T>, p: T -> bool, q: T -> bool, both: T -> bool)
    requires forall x | x in s :: both(x) <==> p(x) && q(x)
    ensures Filter(Filter(s, p), q) == Filter(s, both)
  {
    FilterInside(s, p, both);
    forall x | x in Filter(s, p) ensures both(x) <==> q(x) {
      assert x in s;
    }
    FilterSame(Filter(s, p), both, q);
  }

  lemma {:induction false} FilterSumBound<T>(s: seq<T>, p: T -> bool, f: T -> nat)
    ensures Sum(Filter(s, p), f) <= Sum(s, f)
  {
    SumSplit(s, p, f);
  }

  /** Rows keep their order under selection. */
  ghost predicate Ascending<T>(s: seq<T>, key: T -> nat) {
    forall i, j | 0 <= i < j < |s| :: key(s[i]) < key(s[j])
  }

  lemma {:induction false} FilterAscending<T>(s: seq<T>, p: T -> bool, key: T -> nat)
    requires Ascending(s, key)
    ensures Ascending(Filter(s, p), key)
  {
    if s != [] {
      var rest := Filter(s[1..], p);
      FilterAscending(s[1..], p, key);
      forall j | 0 <= j < |rest| ensures key(s[0]) < key(rest[j]) {
        assert rest[j] in s[1..];
      }
    }
  }

  lemma SubsetCount<T>(a: set<T>, b: set<T>)
    requires a <= b
    ensures |a| <= |b|
  {
    assert b == a + (b - a);
  }

  // Rows by index ----------------------------------------------------------------------------------

  /** `after` is what stands at the ascending indices `at` of `before`. */
  ghost predicate Picks<T>(before: seq<T>, after: seq<T>, at: seq<nat>) {
    && |at| == |after|
    && (forall i, j | 0 <= i < j < |at| :: at[i] < at[j])
    && (forall i | 0 <= i < |at| :: at[i] < |before| && after[i] == before[at[i]])
  }

  /** One more row at the end, taken or passed over. */
  lemma PicksTaken<T>(before: seq<T>, after: seq<T>, at: seq<nat>, x: T)
    requires Picks(before, after, at)
    ensures Picks(before + [x], after + [x], at + [|before|])
  {
  }

  lemma PicksPassedOver<T>(before: seq<T>, after: seq<T>, at: seq<nat>, x: T)
    requires Picks(before, after, at)
    ensures Picks(before + [x], after, at) && |before| !in at
  {
  }

  /** A selection keeps exactly the rows that pass, each once and in order. */
  lemma {:induction false} FilterPicks<T>(s: seq<T>, p: T -> bool) returns (at: seq<nat>)
    ensures Picks(s, Filter(s, p), at)
    ensures forall k | 0 <= k < |s| :: k in at <==> p(s[k])
  {
    if s == [] {
      at := [];
    } else {
      var init, last := s[..|s| - 1], s[|s| - 1];
      var before := FilterPicks(init, p);
      PicksPassedOver(init, Filter(init, p), before, last);
      PicksTaken(init, Filter(init, p), before, last);
      at := if p(last) then before + [|init|] else before;
      assert Filter(s, p) == Filter(init, p) + (if p(last) then [last] else []) && s == init + [last] by {
        assert s == init + [last];
        FilterAppend(init, [last], p);
      }
      forall k | 0 <= k < |s| ensures k in at <==> p(s[k]) {
        assert k < |init| ==> s[k] == init[k];
      }
    }
  }

  ghost function Elements(at: seq<nat>): (e: set<nat>) {
    set k | k in at
  }

  lemma {:induction false} AscendingCount(at: seq<nat>)
    requires forall i, j | 0 <= i < j < |at| :: at[i] < at[j]
    ensures |Elements(at)| == |at|
  {
    if at != [] {
      var init, last := at[..|at| - 1], at[|at| - 1];
      AscendingCount(init);
      assert Elements(at) == Elements(init) + {last};
    }
  }

  /** The indices of the rows that pass. */
  ghost function Passing<T>(s: seq<T>, p: T -> bool): (e: set<nat>) {
    set i: nat | i < |s| && p(s[i])
  }

  /** The number of selected rows is the number of indices that pass. */
  lemma FilterCount<T>(s: seq<T>, p: T -> bool)
    ensures |Filter(s, p)| == |Passing(s, p)|
  {
    var at := FilterPicks(s, p);
    AscendingCount(at);
    assert Elements(at) == Passing(s, p);
  }
}
