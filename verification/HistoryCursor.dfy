/**
 The text of a history cursor: a namespace, the digest of the view it belongs to, a row id, a
 timestamp and the digests of the row. Decoding undoes encoding, and only for the same view.
 */
module HistoryCursor {
  import opened Common
  import opened Decimal

  const PREFIX: string := "uob:command:"
  const MAXIMUM_LENGTH: nat := 8192

  datatype Position = Position(rowid: int, admittedAt: int, requestDigest: string, payloadDigest: string)

  predicate I64(n: int) { -I64_MAX - 1 <= n <= I64_MAX }

  // Decimal integers ---------------------------------------------------------------------------------

  function ParseDigits(s: string): (r: Option<nat>) {
    if s == [] then Some(0)
    else
      var init := ParseDigits(s[..|s| - 1]);
      if init.None? || !Digit(s[|s| - 1]) then None else Some(init.value * 10 + DigitOf(s[|s| - 1]))
  }

  /** A sign is optional, digits are not, and the value must fit 64 bits. */
  function ParseInteger(s: string): (r: Option<int>)
    ensures r.Some? ==> I64(r.value)
  {
    var signed := s != [] && (s[0] == '-' || s[0] == '+');
    var digits := if signed then s[1..] else s;
    var parsed := ParseDigits(digits);
    if digits == [] || parsed.None? then None
    else
      var value: int := if signed && s[0] == '-' then 0 - parsed.value else parsed.value;
      if I64(value) then Some(value) else None
  }

  lemma {:induction false} DigitsRoundTrip(n: nat)
    ensures ParseDigits(Digits(n)) == Some(n)
  {
    if n < 10 {
      assert Digits(n)[..0] == [];
    } else {
      DigitsRoundTrip(n / 10);
      var s := Digits(n);
      assert s[..|s| - 1] == Digits(n / 10);
    }
  }

  lemma UnsignedParses(s: string, n: nat)
    requires s != [] && Digit(s[0]) && ParseDigits(s) == Some(n) && I64(n)
    ensures ParseInteger(s) == Some(n)
  {
  }

  lemma NegativeParses(s: string, n: nat)
    requires s != [] && ParseDigits(s) == Some(n) && I64(0 - n)
    ensures ParseInteger(['-'] + s) == Some(0 - n)
  {
    assert (['-'] + s)[1..] == s;
  }

  lemma IntegerRoundTrip(n: int)
    requires I64(n)
    ensures ParseInteger(PrintInteger(n)) == Some(n)
  {
    if n < 0 {
      DigitsRoundTrip(-n);
      NegativeParses(Digits(-n), -n);
    } else {
      DigitsRoundTrip(n);
      assert Digits(n)[0] in Digits(n);
      UnsignedParses(Digits(n), n);
    }
  }

  lemma NoSeparator(n: int)
    ensures ':' !in PrintInteger(n)
  {
  }

  // Splitting ----------------------------------------------------------------------------------------

  /** The pieces between separators; there is always at least one. */
  function Split(s: string): (parts: seq<string>)
    ensures parts != []
  {
    if s == [] then [""]
    else
      var rest := Split(s[1..]);
      if s[0] == ':' then [""] + rest else [[s[0]] + rest[0]] + rest[1..]
  }

  lemma {:induction false} SplitFirst(part: string, rest: string)
    requires ':' !in part
    ensures Split(part + ([':'] + rest)) == [part] + Split(rest)
  {
    var s := part + ([':'] + rest);
    if part == [] {
      assert s[1..] == rest;
    } else {
      assert s[1..] == part[1..] + ([':'] + rest);
      SplitFirst(part[1..], rest);
      assert part == [part[0]] + part[1..];
      assert ([part[1..]] + Split(rest))[1..] == Split(rest);
    }
  }

  lemma {:induction false} SplitLast(part: string)
    requires ':' !in part
    ensures Split(part) == [part]
  {
    if part != [] {
      SplitLast(part[1..]);
      assert part == [part[0]] + part[1..];
    }
  }

  // Cursors ------------------------------------------------------------------------------------------

  predicate ValidDigest(s: string) {
    |s| == 64 && forall c | c in s :: Digit(c) || 'a' <= c <= 'f'
  }

  predicate ValidPosition(p: Position) {
    0 < p.rowid && I64(p.rowid) && I64(p.admittedAt) && ValidDigest(p.requestDigest) && ValidDigest(p.payloadDigest)
  }

  function Suffix(scopeDigest: string, p: Position): (s: string) {
    scopeDigest + ([':'] + (PrintInteger(p.rowid) + ([':'] + (PrintInteger(p.admittedAt)
    + ([':'] + (p.requestDigest + ([':'] + p.payloadDigest)))))))
  }

  /** A cursor must have a bounded length and something after its namespace. */
  function NewCursor(value: string): (r: Result<string>) {
    if |value| > MAXIMUM_LENGTH || !(PREFIX <= value) || |value| == |PREFIX| then Err(InvalidRequest) else Ok(value)
  }

  function Encode(scopeDigest: string, p: Position): (r: Result<string>) {
    NewCursor(PREFIX + Suffix(scopeDigest, p))
  }

  function Decode(cursor: string, scopeDigest: string): (r: Result<Position>)
    ensures r.Ok? ==> ValidPosition(r.value)
  {
    if !(PREFIX <= cursor) then Err(InvalidRequest)
    else
      var parts := Split(cursor[|PREFIX|..]);
      if |parts| != 5 then Err(InvalidRequest)
      else
        var rowid, admittedAt := ParseInteger(parts[1]), ParseInteger(parts[2]);
        if rowid.None? || admittedAt.None? then Err(InvalidRequest)
        else if parts[0] != scopeDigest || rowid.value <= 0 || !ValidDigest(parts[3]) || !ValidDigest(parts[4]) then
            Err(InvalidRequest)
        else Ok(Position(rowid.value, admittedAt.value, parts[3], parts[4]))
  }

  lemma {:induction false} DigitsBounded(n: nat, size: nat, bound: nat)
    requires n < bound && bound == PowerOfTen(size) && size > 0
    ensures |Digits(n)| <= size
  {
    if n >= 10 {
      assert size > 1;
      DigitsBounded(n / 10, size - 1, PowerOfTen(size - 1));
    }
  }

  function PowerOfTen(n: nat): (p: nat)
    ensures p > 0
  {
    if n == 0 then 1 else 10 * PowerOfTen(n - 1)
  }

  lemma IntegerBounded(n: int)
    requires I64(n)
    ensures |PrintInteger(n)| <= 20
  {
    assert PowerOfTen(4) == 10000;
    assert PowerOfTen(8) == 100000000;
    assert PowerOfTen(12) == 1000000000000;
    assert PowerOfTen(16) == 10000000000000000;
    assert PowerOfTen(19) == 10000000000000000000;
    DigitsBounded(if n < 0 then -n else n, 19, PowerOfTen(19));
  }

  lemma SuffixSplits(scopeDigest: string, p: Position)
    requires ValidDigest(scopeDigest) && ValidPosition(p)
    ensures Split(Suffix(scopeDigest, p))
            == [scopeDigest, PrintInteger(p.rowid), PrintInteger(p.admittedAt), p.requestDigest, p.payloadDigest]
  {
    var rowid, at, request, payload := PrintInteger(p.rowid), PrintInteger(p.admittedAt), p.requestDigest,
        p.payloadDigest;
    NoSeparator(p.rowid);
    NoSeparator(p.admittedAt);
    var d := request + ([':'] + payload);
    var c := at + ([':'] + d);
    SplitLast(payload);
    SplitFirst(request, payload);
    SplitFirst(at, d);
    SplitFirst(rowid, c);
    SplitFirst(scopeDigest, rowid + ([':'] + c));
  }

  /** Decoding gives back the position, for the view it was encoded for and for no other. */
  lemma CursorRoundTrip(scopeDigest: string, p: Position, other: string)
    requires ValidDigest(scopeDigest) && ValidPosition(p)
    ensures Encode(scopeDigest, p).Ok?
    ensures Decode(Encode(scopeDigest, p).value, other) == if other == scopeDigest then Ok(p) else Err(InvalidRequest)
  {
    IntegerBounded(p.rowid);
    IntegerBounded(p.admittedAt);
    IntegerRoundTrip(p.rowid);
    IntegerRoundTrip(p.admittedAt);
    SuffixSplits(scopeDigest, p);
    var cursor := PREFIX + Suffix(scopeDigest, p);
    assert cursor[|PREFIX|..] == Suffix(scopeDigest, p);
  }

  // The text of a cursor -----------------------------------------------------------------------------

  function Joined(parts: seq<string>): (s: string)
    requires parts != []
  {
    if |parts| == 1 then parts[0] else parts[0] + ([':'] + Joined(parts[1..]))
  }

  lemma {:induction false} SplitJoins(s: string)
    ensures Joined(Split(s)) == s
  {
    if s != [] {
      SplitJoins(s[1..]);
      var rest := Split(s[1..]);
      if s[0] == ':' {
        assert ([""] + rest)[1..] == rest;
      } else {
        var parts := [[s[0]] + rest[0]] + rest[1..];
        assert parts[1..] == rest[1..];
      }
    }
  }

  /** A cursor that is accepted is the namespace, this view's digest, two integers and two digests, by colons. */
  lemma DecodedText(cursor: string, scopeDigest: string) returns (rowid: string, admittedAt: string)
    requires Decode(cursor, scopeDigest).Ok?
    ensures var p := Decode(cursor, scopeDigest).value;
            && ParseInteger(rowid) == Some(p.rowid) && ParseInteger(admittedAt) == Some(p.admittedAt)
            && cursor == "uob:command:" + (scopeDigest + (":" + (rowid + (":" + (admittedAt + (":" + (p.requestDigest
                         + (":" + p.payloadDigest))))))))
  {
    var parts := Split(cursor[|PREFIX|..]);
    SplitJoins(cursor[|PREFIX|..]);
    rowid, admittedAt := parts[1], parts[2];
    assert cursor == PREFIX + cursor[|PREFIX|..];
    FivePartsJoined(parts);
  }

  lemma FivePartsJoined(parts: seq<string>)
    requires |parts| == 5
    ensures Joined(parts)
            == parts[0] + ([':'] + (parts[1] + ([':'] + (parts[2] + ([':'] + (parts[3] + ([':'] + parts[4])))))))
  {
    var a, b, c := parts[1..], parts[2..], parts[3..];
    assert a[1..] == b && b[1..] == c && c[1..] == parts[4..] && parts[4..][0] == parts[4];
    assert Joined(c) == parts[3] + ([':'] + parts[4]);
    assert Joined(b) == parts[2] + ([':'] + Joined(c));
    assert Joined(a) == parts[1] + ([':'] + Joined(b));
  }

  /** The text a position is given out as. */
  lemma EncodedText(scopeDigest: string, p: Position)
    ensures Encode(scopeDigest, p).Ok? ==>
              Encode(scopeDigest, p).value
              == "uob:command:" + (scopeDigest + (":" + (PrintInteger(p.rowid) + (":" + (PrintInteger(p.admittedAt)
                 + (":" + (p.requestDigest + (":" + p.payloadDigest))))))))
  {
  }

  /** A cursor value has at most 8192 characters, the namespace first and something after it. */
  lemma CursorValueAccepted(rest: string)
    ensures NewCursor("uob:command:" + rest).Ok? <==> 0 < |rest| <= 8180
    ensures forall value: string | NewCursor(value).Ok? :: "uob:command:" <= value
  {
  }

  /** Digits are read as they are, or behind either sign; a sign or nothing alone is not. */
  lemma SignsAreRead(digits: string, n: nat)
    requires digits != [] && Digit(digits[0]) && ParseDigits(digits) == Some(n)
    ensures ParseInteger(digits) == (if n <= 9223372036854775807 then Some(n) else None)
    ensures ParseInteger(['+'] + digits) == (if n <= 9223372036854775807 then Some(n) else None)
    ensures ParseInteger(['-'] + digits) == (if n <= 9223372036854775808 then Some(0 - n) else None)
    ensures ParseInteger([]) == None && ParseInteger(['+']) == None && ParseInteger(['-']) == None
  {
    assert (['+'] + digits)[1..] == digits && (['-'] + digits)[1..] == digits;
  }
}
