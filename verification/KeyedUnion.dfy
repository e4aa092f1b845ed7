/** Appending the evidence a later writer does not carry, keyed by its identity. */
module KeyedUnion {

  ghost function Keys<T, K>(items: seq<T>, key: T -> K): (keys: set<K>) {
    set x | x in items :: key(x)
  }

  predicate HasKey<T(==), K(==)>(items: seq<T>, key: T -> K, k: K) {
    exists x | x in items :: key(x) == k
  }

  /** `kept` followed by every element of `extra` whose key is not there yet, in order. */
  function AppendMissing<T(==), K(==)>(kept: seq<T>, extra: seq<T>, key: T -> K): (r: seq<T>)
    decreases |extra|
  {
    if extra == [] then kept
    else if HasKey(kept, key, key(extra[0])) then AppendMissing(kept, extra[1..], key)
    else AppendMissing(kept + [extra[0]], extra[1..], key)
  }

  lemma KeysOfAppend<T, K>(items: seq<T>, x: T, key: T -> K)
    ensures Keys(items + [x], key) == Keys(items, key) + {key(x)}
  {
    assert x in items + [x];
    forall y | y in items ensures y in items + [x] {}
  }

  lemma KeysOfTail<T, K>(items: seq<T>, key: T -> K)
    requires items != []
    ensures Keys(items, key) == {key(items[0])} + Keys(items[1..], key)
  {
    assert items == [items[0]] + items[1..];
    forall y | y in items ensures y == items[0] || y in items[1..] {}
  }

  /** The writer's own evidence comes first and is kept whole; the identities are the union. */
  lemma {:induction false} AppendMissingKeys<T, K>(kept: seq<T>, extra: seq<T>, key: T -> K)
    ensures kept <= AppendMissing(kept, extra, key)
    ensures Keys(AppendMissing(kept, extra, key), key) == Keys(kept, key) + Keys(extra, key)
    decreases |extra|
  {
    if extra != [] {
      KeysOfTail(extra, key);
      if HasKey(kept, key, key(extra[0])) {
        AppendMissingKeys(kept, extra[1..], key);
      } else {
        KeysOfAppend(kept, extra[0], key);
        AppendMissingKeys(kept + [extra[0]], extra[1..], key);
      }
    }
  }

  /** Nothing is invented, and what is appended had no namesake in `kept`. */
  lemma {:induction false} AppendMissingOrigin<T, K>(kept: seq<T>, extra: seq<T>, key: T -> K, x: T)
    requires x in AppendMissing(kept, extra, key)
    ensures x in kept || (x in extra && !HasKey(kept, key, key(x)))
    decreases |extra|
  {
    if extra != [] {
      if HasKey(kept, key, key(extra[0])) {
        AppendMissingOrigin(kept, extra[1..], key, x);
      } else {
        AppendMissingOrigin(kept + [extra[0]], extra[1..], key, x);
        if x !in kept && x != extra[0] {
          forall y | y in kept ensures y in kept + [extra[0]] {}
        }
      }
    }
  }

  /** If equal keys mean equal items across both sequences, the union loses no item. */
  lemma {:induction false} AppendMissingComplete<T, K>(kept: seq<T>, extra: seq<T>, key: T -> K, x: T)
    requires forall a, b | (a in kept || a in extra) && (b in kept || b in extra) && key(a) == key(b) :: a == b
    requires x in kept || x in extra
    ensures x in AppendMissing(kept, extra, key)
    decreases |extra|
  {
    if extra != [] {
      assert extra == [extra[0]] + extra[1..];
      if HasKey(kept, key, key(extra[0])) {
        AppendMissingComplete(kept, extra[1..], key, x);
      } else {
        AppendMissingComplete(kept + [extra[0]], extra[1..], key, x);
      }
    }
  }

  ghost predicate DistinctKeys<T, K>(items: seq<T>, key: T -> K) {
    forall i, j | 0 <= i < j < |items| :: key(items[i]) != key(items[j])
  }

  lemma {:induction false} KeysCount<T, K>(items: seq<T>, key: T -> K)
    ensures |Keys(items, key)| <= |items|
    ensures DistinctKeys(items, key) ==> |Keys(items, key)| == |items|
  {
    if items != [] {
      var last := items[|items| - 1];
      var init := items[..|items| - 1];
      assert items == init + [last];
      KeysCount(init, key);
      KeysOfAppend(init, last, key);
      if DistinctKeys(items, key) {
        assert key(last) !in Keys(init, key);
      }
    }
  }

  lemma {:induction false} AppendMissingDistinct<T, K>(kept: seq<T>, extra: seq<T>, key: T -> K)
    requires DistinctKeys(kept, key)
    ensures DistinctKeys(AppendMissing(kept, extra, key), key)
    decreases |extra|
  {
    if extra != [] {
      if HasKey(kept, key, key(extra[0])) {
        AppendMissingDistinct(kept, extra[1..], key);
      } else {
        forall i | 0 <= i < |kept| ensures key(kept[i]) != key(extra[0]) {
          assert kept[i] in kept;
        }
        AppendMissingDistinct(kept + [extra[0]], extra[1..], key);
      }
    }
  }

  /** The writer's loop: push each older item that has no namesake among the newer ones. */
  method PushMissing<T(==), K(==)>(kept: seq<T>, extra: seq<T>, key: T -> K) returns (r: seq<T>)
    ensures r == AppendMissing(kept, extra, key)
  {
    r := kept;
    for i := 0 to |extra|
      invariant AppendMissing(kept, extra, key) == AppendMissing(r, extra[i..], key)
    {
      if !HasKey(r, key, key(extra[i])) {
        r := r + [extra[i]];
      }
      assert extra[i..][1..] == extra[i + 1..];
    }
  }
}
