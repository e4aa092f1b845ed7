/**
 Command fingerprints: a payload is reduced to a normal form by dropping its delivery identity and
 sorting every object by key. Serialisation and digest are injective and therefore left out: the
 fingerprint is the normal form itself.
 */
module Fingerprint {
  import opened Common

  datatype Json =
    | Null
    | Bool(flag: bool)
    | Number(lexeme: string)
    | Text(text: string)
    | Array(items: seq<Json>)
    | Object(members: seq<Member>)

  datatype Member = Member(key: string, value: Json)

  // Key order ------------------------------------------------------------------------------------

  predicate Less(a: string, b: string) {
    b != [] && (a == [] || a[0] < b[0] || (a[0] == b[0] && Less(a[1..], b[1..])))
  }

  lemma {:induction false} LessTotal(a: string, b: string)
    ensures a == b || Less(a, b) || Less(b, a)
  {
    if a != [] && b != [] && a[0] == b[0] {
      LessTotal(a[1..], b[1..]);
      assert a == [a[0]] + a[1..] && b == [b[0]] + b[1..];
    }
  }

  lemma {:induction false} LessAsymmetric(a: string, b: string)
    requires Less(a, b)
    ensures !Less(b, a) && a != b
  {
    if a != [] && a[0] == b[0] {
      LessAsymmetric(a[1..], b[1..]);
    }
  }

  lemma {:induction false} LessTransitive(a: string, b: string, c: string)
    requires Less(a, b) && Less(b, c)
    ensures Less(a, c)
  {
    if a != [] && a[0] == b[0] && b[0] == c[0] {
      LessTransitive(a[1..], b[1..], c[1..]);
    }
  }

  /** The texts agree up to `k`, and there the first one ends or has the smaller character. */
  ghost predicate SmallerAt(a: string, b: string, k: nat) {
    k <= |a| && k < |b| && a[..k] == b[..k] && (k == |a| || a[k] < b[k])
  }

  /** The order of texts by their first difference; a prefix comes first. */
  lemma {:induction false} LessMeaning(a: string, b: string)
    ensures Less(a, b) <==> exists k: nat :: SmallerAt(a, b, k)
  {
    if a != [] && b != [] && a[0] == b[0] {
      LessMeaning(a[1..], b[1..]);
      if k: nat :| SmallerAt(a, b, k) {
        assert k > 0;
        assert a[1..][..k - 1] == a[..k][1..] && b[1..][..k - 1] == b[..k][1..];
        assert SmallerAt(a[1..], b[1..], k - 1);
      }
      if k: nat :| SmallerAt(a[1..], b[1..], k) {
        assert a[..k + 1] == [a[0]] + a[1..][..k] && b[..k + 1] == [b[0]] + b[1..][..k];
        assert SmallerAt(a, b, k + 1);
      }
    } else if Less(a, b) {
      assert SmallerAt(a, b, 0);
    } else {
      forall k: nat ensures !SmallerAt(a, b, k) {
        if SmallerAt(a, b, k) && k > 0 {
          SharedStart(a, b, k);
        }
      }
    }
  }

  lemma SharedStart(a: string, b: string, k: nat)
    requires 0 < k <= |a| && k <= |b| && a[..k] == b[..k]
    ensures a[0] == b[0]
  {
    assert a[..k][0] == a[0] && b[..k][0] == b[0];
  }

  // Sorting one object ---------------------------------------------------------------------------

  ghost predicate Sorted(members: seq<Member>) {
    forall i, j | 0 <= i < j < |members| :: Less(members[i].key, members[j].key)
  }

  ghost predicate UniqueKeys(members: seq<Member>) {
    forall i, j | 0 <= i < j < |members| :: members[i].key != members[j].key
  }

  function Insert(m: Member, sorted: seq<Member>): (r: seq<Member>)
    ensures forall x :: x in r <==> x == m || x in sorted
    ensures |r| == |sorted| + 1
  {
    if sorted == [] then [m]
    else if Less(m.key, sorted[0].key) then [m] + sorted
    else [sorted[0]] + Insert(m, sorted[1..])
  }

  function SortByKey(members: seq<Member>): (r: seq<Member>)
    ensures forall x :: x in r <==> x in members
    ensures |r| == |members|
  {
    if members == [] then [] else Insert(members[0], SortByKey(members[1..]))
  }

  lemma {:induction false} InsertSorted(m: Member, sorted: seq<Member>)
    requires Sorted(sorted) && forall x | x in sorted :: x.key != m.key
    ensures Sorted(Insert(m, sorted))
  {
    if sorted != [] {
      var rest := Insert(m, sorted[1..]);
      if Less(m.key, sorted[0].key) {
        forall j | 0 <= j < |sorted| ensures Less(m.key, sorted[j].key) {
          if j > 0 {
            LessTransitive(m.key, sorted[0].key, sorted[j].key);
          }
        }
      } else {
        LessTotal(m.key, sorted[0].key);
        assert sorted[0] in sorted;
        InsertSorted(m, sorted[1..]);
        forall j | 0 <= j < |rest| ensures Less(sorted[0].key, rest[j].key) {
          assert rest[j] in rest;
        }
      }
    }
  }

  lemma {:induction false} SortByKeySorted(members: seq<Member>)
    requires UniqueKeys(members)
    ensures Sorted(SortByKey(members))
  {
    if members != [] {
      SortByKeySorted(members[1..]);
      forall x | x in SortByKey(members[1..]) ensures x.key != members[0].key {
        var j :| 0 <= j < |members[1..]| && members[1..][j] == x;
        assert members[j + 1] == x;
      }
      InsertSorted(members[0], SortByKey(members[1..]));
    }
  }

  lemma SortedHead(a: seq<Member>, b: seq<Member>)
    requires Sorted(a) && Sorted(b) && a != [] && b != []
    requires forall x :: x in a <==> x in b
    ensures a[0] == b[0]
  {
    assert a[0] in b && b[0] in a;
    var i :| 0 <= i < |b| && b[i] == a[0];
    var j :| 0 <= j < |a| && a[j] == b[0];
    if i != 0 && j != 0 {
      LessAsymmetric(b[0].key, b[i].key);
    }
  }

  /** A strictly sorted sequence is determined by its elements. */
  lemma {:induction false} SortedUnique(a: seq<Member>, b: seq<Member>)
    requires Sorted(a) && Sorted(b)
    requires forall x :: x in a <==> x in b
    ensures a == b
  {
    assert a == [] <==> b == [] by {
      if a != [] { assert a[0] in b; }
      if b != [] { assert b[0] in a; }
    }
    if a != [] {
      SortedHead(a, b);
      forall x ensures x in a[1..] <==> x in b[1..] {
        TailWithoutHead(a, x);
        TailWithoutHead(b, x);
      }
      SortedUnique(a[1..], b[1..]);
      assert a == [a[0]] + a[1..] && b == [b[0]] + b[1..];
    }
  }

  lemma TailWithoutHead(s: seq<Member>, x: Member)
    requires Sorted(s) && s != []
    ensures x in s[1..] <==> x in s && x != s[0]
  {
    if x in s[1..] {
      var j :| 0 <= j < |s[1..]| && s[1..][j] == x;
      LessAsymmetric(s[0].key, s[j + 1].key);
    }
    assert s == [s[0]] + s[1..];
  }

  // Sorting a value ------------------------------------------------------------------------------

  function Normal(v: Json): (r: Json)
    decreases v, 0
  {
    match v
    case Array(items) => Array(NormalItems(items))
    case Object(members) => Object(SortByKey(NormalMembers(members)))
    case _ => v
  }

  function NormalItems(items: seq<Json>): (r: seq<Json>)
    ensures |r| == |items|
    ensures forall i | 0 <= i < |items| :: r[i] == Normal(items[i])
    decreases items, 1
  {
    if items == [] then [] else [Normal(items[0])] + NormalItems(items[1..])
  }

  function NormalMember(m: Member): (r: Member)
    decreases m, 1
  {
    Member(m.key, Normal(m.value))
  }

  function NormalMembers(members: seq<Member>): (r: seq<Member>)
    ensures |r| == |members|
    ensures forall i | 0 <= i < |members| :: r[i] == NormalMember(members[i])
    decreases members, 1
  {
    if members == [] then [] else [NormalMember(members[0])] + NormalMembers(members[1..])
  }

  /** Objects never hold a key twice. */
  ghost predicate WellFormed(v: Json)
    decreases v
  {
    match v
    case Array(items) => forall x | x in items :: WellFormed(x)
    case Object(members) => UniqueKeys(members) && forall m | m in members :: WellFormed(m.value)
    case _ => true
  }

  /** Equal up to the order of object members. */
  ghost predicate Same(a: Json, b: Json)
    decreases a
  {
    match a
    case Array(items) =>
      b.Array? && |items| == |b.items| && forall i | 0 <= i < |items| :: Same(items[i], b.items[i])
    case Object(members) =>
      && b.Object?
      && (forall m | m in members :: exists n | n in b.members :: m.key == n.key && Same(m.value, n.value))
      && (forall n | n in b.members :: exists m | m in members :: m.key == n.key)
    case _ => a == b
  }

  lemma NormalMembersElements(members: seq<Member>, x: Member)
    ensures x in NormalMembers(members) <==> exists m | m in members :: NormalMember(m) == x
  {
    if x in NormalMembers(members) {
      var i :| 0 <= i < |members| && NormalMembers(members)[i] == x;
      assert members[i] in members;
    }
    if m :| m in members && NormalMember(m) == x {
      var i :| 0 <= i < |members| && members[i] == m;
      assert NormalMembers(members)[i] == x;
    }
  }

  lemma NormalObjectSorted(members: seq<Member>)
    requires UniqueKeys(members)
    ensures Sorted(SortByKey(NormalMembers(members)))
    ensures UniqueKeys(NormalMembers(members))
  {
    SortByKeySorted(NormalMembers(members));
  }

  lemma SameKeySameMember(members: seq<Member>, m: Member, n: Member)
    requires UniqueKeys(members) && m in members && n in members && m.key == n.key
    ensures m == n
  {
  }

  /** Equal normal forms exactly when equal up to member order. */
  lemma {:induction false} NormalFormsAgree(a: Json, b: Json)
    requires WellFormed(a) && WellFormed(b)
    ensures Normal(a) == Normal(b) <==> Same(a, b)
    decreases a
  {
    match a
    case Array(items) =>
      if b.Array? && |items| == |b.items| {
        forall i | 0 <= i < |items| ensures Normal(items[i]) == Normal(b.items[i]) <==> Same(items[i], b.items[i]) {
          NormalFormsAgree(items[i], b.items[i]);
        }
        if Normal(a) == Normal(b) {
          forall i | 0 <= i < |items| ensures Same(items[i], b.items[i]) {
            assert NormalItems(items)[i] == NormalItems(b.items)[i];
          }
        }
      }
    case Object(members) =>
      if b.Object? {
        forall m, n | m in members && n in b.members
          ensures Normal(m.value) == Normal(n.value) <==> Same(m.value, n.value)
        {
          NormalFormsAgree(m.value, n.value);
        }
        ObjectsAgree(members, b.members);
      }
    case _ =>
  }

  ghost predicate ChildrenAgree(a: seq<Member>, b: seq<Member>) {
    forall m, n | m in a && n in b :: Normal(m.value) == Normal(n.value) <==> Same(m.value, n.value)
  }

  lemma ObjectsAgree(a: seq<Member>, b: seq<Member>)
    requires UniqueKeys(a) && UniqueKeys(b) && ChildrenAgree(a, b)
    ensures SortByKey(NormalMembers(a)) == SortByKey(NormalMembers(b)) <==> Same(Object(a), Object(b))
  {
    if SortByKey(NormalMembers(a)) == SortByKey(NormalMembers(b)) {
      assert forall x :: x in NormalMembers(a) <==> x in SortByKey(NormalMembers(a));
      EqualFormsSame(a, b);
    }
    if Same(Object(a), Object(b)) {
      NormalObjectSorted(a);
      NormalObjectSorted(b);
      SamePaired(a, b);
      forall x | x in NormalMembers(a) ensures x in NormalMembers(b) {
        SameElements(a, b, x);
      }
      forall x | x in NormalMembers(b) ensures x in NormalMembers(a) {
        SameElements(b, a, x);
      }
      SortedUnique(SortByKey(NormalMembers(a)), SortByKey(NormalMembers(b)));
    }
  }

  lemma EqualFormsSame(a: seq<Member>, b: seq<Member>)
    requires ChildrenAgree(a, b)
    requires forall x :: x in NormalMembers(a) <==> x in NormalMembers(b)
    ensures Same(Object(a), Object(b))
  {
    forall m | m in a ensures exists n | n in b :: m.key == n.key && Same(m.value, n.value) {
      NormalMembersElements(a, NormalMember(m));
      NormalMembersElements(b, NormalMember(m));
      var n :| n in b && NormalMember(n) == NormalMember(m);
      assert m.key == n.key && Same(m.value, n.value);
    }
    forall n | n in b ensures exists m | m in a :: m.key == n.key {
      NormalMembersElements(b, NormalMember(n));
      NormalMembersElements(a, NormalMember(n));
      var m :| m in a && NormalMember(m) == NormalMember(n);
    }
  }

  lemma Partner(a: seq<Member>, b: seq<Member>, m: Member) returns (n: Member)
    requires ChildrenAgree(a, b) && Same(Object(a), Object(b)) && m in a
    ensures n in b && NormalMember(n) == NormalMember(m)
  {
    n :| n in b && m.key == n.key && Same(m.value, n.value);
  }

  lemma KeyTaken(a: seq<Member>, b: seq<Member>, n: Member) returns (m: Member)
    requires Same(Object(a), Object(b)) && n in b
    ensures m in a && m.key == n.key
  {
    m :| m in a && m.key == n.key;
  }

  lemma ReversePartner(a: seq<Member>, b: seq<Member>, n: Member) returns (m: Member)
    requires UniqueKeys(b) && ChildrenAgree(a, b) && Same(Object(a), Object(b)) && n in b
    ensures m in a && NormalMember(m) == NormalMember(n)
  {
    m := KeyTaken(a, b, n);
    var n' := Partner(a, b, m);
    assert n'.key == m.key;
    SameKeySameMember(b, n, n');
  }

  ghost predicate HasPartner(m: Member, b: seq<Member>) {
    exists n | n in b :: NormalMember(n) == NormalMember(m)
  }

  lemma SamePaired(a: seq<Member>, b: seq<Member>)
    requires UniqueKeys(b) && ChildrenAgree(a, b) && Same(Object(a), Object(b))
    ensures forall m | m in a :: HasPartner(m, b)
    ensures forall n | n in b :: HasPartner(n, a)
  {
    forall m | m in a ensures HasPartner(m, b) {
      var n := Partner(a, b, m);
    }
    forall n | n in b ensures HasPartner(n, a) {
      var m := ReversePartner(a, b, n);
    }
  }

  lemma SameElements(a: seq<Member>, b: seq<Member>, x: Member)
    requires forall m | m in a :: HasPartner(m, b)
    requires x in NormalMembers(a)
    ensures x in NormalMembers(b)
  {
    NormalMembersElements(a, x);
    var m :| m in a && NormalMember(m) == x;
    assert HasPartner(m, b);
    NormalMembersElements(b, x);
  }

  lemma {:induction false} NormalWellFormed(v: Json)
    requires WellFormed(v)
    ensures WellFormed(Normal(v))
    decreases v
  {
    match v
    case Array(items) =>
      forall x | x in NormalItems(items) ensures WellFormed(x) {
        var i :| 0 <= i < |items| && NormalItems(items)[i] == x;
        NormalWellFormed(items[i]);
      }
    case Object(members) =>
      NormalObjectSorted(members);
      var sorted := SortByKey(NormalMembers(members));
      forall i, j | 0 <= i < j < |sorted| ensures sorted[i].key != sorted[j].key {
        LessAsymmetric(sorted[i].key, sorted[j].key);
      }
      forall x | x in sorted ensures WellFormed(x.value) {
        NormalMembersElements(members, x);
        var m :| m in members && NormalMember(m) == x;
        NormalWellFormed(m.value);
      }
    case _ =>
  }

  lemma {:induction false} NormalIsSame(v: Json)
    requires WellFormed(v)
    ensures Same(Normal(v), v)
    decreases v
  {
    match v
    case Array(items) =>
      forall i | 0 <= i < |items| ensures Same(NormalItems(items)[i], items[i]) {
        NormalIsSame(items[i]);
      }
    case Object(members) =>
      var sorted := SortByKey(NormalMembers(members));
      forall x | x in sorted ensures exists m | m in members :: x.key == m.key && Same(x.value, m.value) {
        NormalMembersElements(members, x);
        var m :| m in members && NormalMember(m) == x;
        NormalIsSame(m.value);
      }
      forall m | m in members ensures exists x | x in sorted :: x.key == m.key {
        NormalMembersElements(members, NormalMember(m));
        assert NormalMember(m) in sorted;
      }
    case _ =>
  }

  /** Normalising reorders nothing a second time. */
  lemma NormalIdempotent(v: Json)
    requires WellFormed(v)
    ensures Normal(Normal(v)) == Normal(v)
  {
    NormalWellFormed(v);
    NormalIsSame(v);
    NormalFormsAgree(Normal(v), v);
  }

  /** Array order is content: two different arrays of the same scalars keep different normal forms. */
  lemma NormalKeepsArrayOrder(items: seq<Json>, i: nat)
    requires i < |items|
    ensures Normal(Array(items)).Array? && |Normal(Array(items)).items| == |items|
    ensures Normal(Array(items)).items[i] == Normal(items[i])
  {
  }

  // The fingerprint ------------------------------------------------------------------------------

  function Without(members: seq<Member>, key: string): (r: seq<Member>)
    ensures forall m :: m in r <==> m in members && m.key != key
  {
    if members == [] then []
    else if members[0].key == key then Without(members[1..], key)
    else [members[0]] + Without(members[1..], key)
  }

  lemma {:induction false} WithoutKeepsUnique(members: seq<Member>, key: string)
    requires UniqueKeys(members)
    ensures UniqueKeys(Without(members, key))
  {
    if members != [] {
      WithoutKeepsUnique(members[1..], key);
      var rest := Without(members[1..], key);
      forall j | 0 <= j < |rest| ensures rest[j].key != members[0].key {
        assert rest[j] in members[1..];
      }
    }
  }

  /** The payload without its top-level delivery identity. */
  function Content(members: seq<Member>): (r: Json) {
    Object(Without(Without(members, "request_id"), "admitted_at"))
  }

  function Fingerprint(payload: Json): (r: Result<Json>) {
    if payload.Object? then Ok(Normal(Content(payload.members))) else Err(IntegrityFailure)
  }

  /** The same command: equal up to member order once the delivery identity is dropped. */
  ghost predicate SameCommand(a: Json, b: Json) {
    a.Object? && b.Object? && Same(Content(a.members), Content(b.members))
  }

  lemma ContentWellFormed(payload: Json)
    requires WellFormed(payload) && payload.Object?
    ensures WellFormed(Content(payload.members))
  {
    WithoutKeepsUnique(payload.members, "request_id");
    WithoutKeepsUnique(Without(payload.members, "request_id"), "admitted_at");
  }

  /** A member that counts: anything but the delivery identity. */
  ghost predicate Counts(m: Member) {
    m.key != "request_id" && m.key != "admitted_at"
  }

  /** A member of this name with the same value. */
  ghost predicate HasTwin(m: Member, members: seq<Member>) {
    exists n | n in members :: m.key == n.key && Same(m.value, n.value)
  }

  ghost predicate HasKey(key: string, members: seq<Member>) {
    exists m | m in members :: m.key == key
  }

  lemma SameObjects(a: seq<Member>, b: seq<Member>)
    ensures Same(Object(a), Object(b))
            <==> (forall m | m in a :: HasTwin(m, b)) && (forall n | n in b :: HasKey(n.key, a))
  {
  }

  lemma ContentElements(members: seq<Member>)
    ensures forall m :: m in Content(members).members <==> m in members && Counts(m)
  {
  }

  /** The same command has the same members, whatever their order and whatever the delivery identity says. */
  lemma SameCommandMeaning(a: Json, b: Json)
    requires a.Object? && b.Object?
    ensures SameCommand(a, b)
            <==> && (forall m | m in a.members && Counts(m) :: HasTwin(m, b.members))
                 && (forall n | n in b.members && Counts(n) :: HasKey(n.key, a.members))
  {
    var x, y := Content(a.members).members, Content(b.members).members;
    ContentElements(a.members);
    ContentElements(b.members);
    SameObjects(x, y);
    forall m | Counts(m) ensures HasTwin(m, y) <==> HasTwin(m, b.members) {
      TwinsCount(m, y, b.members);
    }
    forall n | Counts(n) ensures HasKey(n.key, x) <==> HasKey(n.key, a.members) {
      KeysCount(n, x, a.members);
    }
  }

  lemma TwinsCount(m: Member, content: seq<Member>, members: seq<Member>)
    requires Counts(m) && forall n :: n in content <==> n in members && Counts(n)
    ensures HasTwin(m, content) <==> HasTwin(m, members)
  {
  }

  lemma KeysCount(n: Member, content: seq<Member>, members: seq<Member>)
    requires Counts(n) && forall m :: m in content <==> m in members && Counts(m)
    ensures HasKey(n.key, content) <==> HasKey(n.key, members)
  {
  }

  /** Two payloads have one fingerprint exactly when they are the same command. */
  lemma FingerprintsAgree(a: Json, b: Json)
    requires WellFormed(a) && WellFormed(b) && a.Object? && b.Object?
    ensures Fingerprint(a) == Fingerprint(b) <==> SameCommand(a, b)
  {
    ContentWellFormed(a);
    ContentWellFormed(b);
    NormalFormsAgree(Content(a.members), Content(b.members));
  }

  // The in-place rewrite ---------------------------------------------------------------------------

  /** Takes the entries of an object, orders them, rewrites each child and puts them back. */
  method SortJson(v: Json) returns (r: Json)
    ensures r == Normal(v)
    decreases v
  {
    match v
    case Array(items) =>
      var values := [];
      for i := 0 to |items|
        invariant |values| == i
        invariant forall k | 0 <= k < i :: values[k] == Normal(items[k])
      {
        var child := SortJson(items[i]);
        values := values + [child];
      }
      assert values == NormalItems(items);
      r := Array(values);
    case Object(members) =>
      var entries := SortByKey(members);
      var values := [];
      for i := 0 to |entries|
        invariant |values| == i
        invariant forall k | 0 <= k < i :: values[k] == NormalMember(entries[k])
      {
        assert entries[i] in members;
        var child := SortJson(entries[i].value);
        values := values + [Member(entries[i].key, child)];
      }
      assert values == NormalMembers(entries);
      SortCommutes(members);
      r := Object(values);
    case _ =>
      r := v;
  }

  /** Ordering the entries first and rewriting the children after gives the same object. */
  lemma {:induction false} SortCommutes(members: seq<Member>)
    ensures NormalMembers(SortByKey(members)) == SortByKey(NormalMembers(members))
  {
    if members != [] {
      SortCommutes(members[1..]);
      InsertCommutes(members[0], SortByKey(members[1..]));
    }
  }

  lemma {:induction false} InsertCommutes(m: Member, sorted: seq<Member>)
    ensures NormalMembers(Insert(m, sorted)) == Insert(NormalMember(m), NormalMembers(sorted))
  {
    if sorted != [] {
      if Less(m.key, sorted[0].key) {
        assert ([m] + sorted)[1..] == sorted;
      } else {
        InsertCommutes(m, sorted[1..]);
        assert ([sorted[0]] + Insert(m, sorted[1..]))[1..] == Insert(m, sorted[1..]);
      }
    }
  }
}
