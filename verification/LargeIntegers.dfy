/**
 Quoting integers that a double cannot hold, in JSON text and before it is parsed. The scanner works
 on characters; it is proved to do on the printed text of any JSON tree, however it is laid out, what
 replacing the integer literals in the tree would do.
 */
module LargeIntegers {
  import opened Common
  import opened Decimal
  import Sequences

  const MAX_SAFE: int := 9007199254740991

  // Doubles ------------------------------------------------------------------------------------------

  const TWO_53: nat := 9007199254740992

  /** The unit in the last place of a 53-bit significand. */
  function Unit(n: nat, unit: nat): (u: nat)
    requires unit > 0
    ensures u >= unit && (u > unit ==> n >= TWO_53 / 2 * u)
    ensures n < TWO_53 * u
    decreases n - TWO_53 * unit
  {
    if n < TWO_53 * unit then unit else Unit(n, 2 * unit)
  }

  /** To the nearest multiple of the unit, ties to even. */
  function RoundTo(n: nat, unit: nat): (r: nat)
    requires unit > 0
  {
    var q, rest := n / unit, n % unit;
    if 2 * rest > unit || (2 * rest == unit && q % 2 == 1) then (q + 1) * unit else q * unit
  }

  /** Conversion to a double. One that overflows is no safe integer either, so it is left at its rounded value. */
  function ToNumber(v: int): (r: int) {
    var n: nat := if v < 0 then -v else v;
    var rounded: int := RoundTo(n, Unit(n, 1));
    if v < 0 then -rounded else rounded
  }

  predicate IsSafeInteger(v: int) {
    -MAX_SAFE <= v <= MAX_SAFE
  }

  lemma RoundsUpward(n: nat, unit: nat)
    requires unit >= 2 && n >= TWO_53 / 2 * unit
    ensures RoundTo(n, unit) >= TWO_53
  {
    var q := n / unit;
    assert q >= TWO_53 / 2;
    assert q * unit >= TWO_53 / 2 * unit >= TWO_53 / 2 * 2;
  }

  /** A double is a safe integer exactly when the integer it came from is within ±(2^53 − 1). */
  lemma SafeExactlyWhenSmall(v: int)
    ensures IsSafeInteger(ToNumber(v)) <==> -MAX_SAFE <= v <= MAX_SAFE
  {
    var n: nat := if v < 0 then -v else v;
    if n < TWO_53 {
      assert Unit(n, 1) == 1 && RoundTo(n, 1) == n;
    } else {
      RoundsUpward(n, Unit(n, 1));
    }
  }

  // JSON trees and their text ------------------------------------------------------------------------

  datatype Piece = Plain(c: char) | Escaped(c: char)

  datatype Exponent = Exponent(marker: char, sign: string, digits: string)

  datatype Numeral = Numeral(negative: bool, digits: string, fraction: Option<string>, exponent: Option<Exponent>)

  /** A value with the blanks around it. */
  datatype Element = Element(before: string, value: Value, after: string)

  datatype Value =
    | Word(word: string)
    | Number(numeral: Numeral)
    | Str(pieces: seq<Piece>)
    | Arr(blank: string, items: seq<Element>)
    | Obj(blank: string, members: seq<Member>)

  datatype Member = Member(before: string, key: seq<Piece>, after: string, element: Element)

  predicate AllDigits(s: string) { s != [] && forall c | c in s :: Digit(c) }

  predicate Blank(s: string) { forall c | c in s :: c == ' ' || c == '\t' || c == '\n' || c == '\r' }

  predicate ValidPieces(pieces: seq<Piece>) {
    forall p | p in pieces :: p.Plain? ==> p.c != '"' && p.c != '\\'
  }

  predicate ValidNumeral(n: Numeral) {
    && AllDigits(n.digits) && (n.digits[0] == '0' ==> |n.digits| == 1)
    && (n.fraction.Some? ==> AllDigits(n.fraction.value))
    && (n.exponent.Some? ==>
          && AllDigits(n.exponent.value.digits)
          && (n.exponent.value.marker == 'e' || n.exponent.value.marker == 'E')
          && (n.exponent.value.sign == "" || n.exponent.value.sign == "+" || n.exponent.value.sign == "-"))
  }

  predicate ValidElement(e: Element)
    decreases e, 0
  {
    Blank(e.before) && Blank(e.after) && ValidValue(e.value)
  }

  predicate ValidValue(v: Value)
    decreases v, 0
  {
    match v
    case Word(w) => w == "true" || w == "false" || w == "null"
    case Number(n) => ValidNumeral(n)
    case Str(pieces) => ValidPieces(pieces)
    case Arr(blank, items) => Blank(blank) && forall e | e in items :: ValidElement(e)
    case Obj(blank, members) => Blank(blank) && forall m | m in members :: ValidMember(m)
  }

  predicate ValidMember(m: Member)
    decreases m, 0
  {
    Blank(m.before) && ValidPieces(m.key) && Blank(m.after) && ValidElement(m.element)
  }

  function PrintPiece(p: Piece): (s: string) {
    if p.Plain? then [p.c] else ['\\', p.c]
  }

  function PrintPieces(pieces: seq<Piece>): (s: string) {
    if pieces == [] then []
    else PrintPiece(pieces[0]) + PrintPieces(pieces[1..])
  }

  function PrintString(pieces: seq<Piece>): (s: string) {
    ['"'] + (PrintPieces(pieces) + ['"'])
  }

  function IntegerText(n: Numeral): (s: string) {
    (if n.negative then "-" else "") + n.digits
  }

  function FractionText(n: Numeral): (s: string) {
    if n.fraction.Some? then ['.'] + n.fraction.value else ""
  }

  function ExponentText(n: Numeral): (s: string) {
    if n.exponent.Some? then [n.exponent.value.marker] + (n.exponent.value.sign + n.exponent.value.digits) else ""
  }

  function PrintNumeral(n: Numeral): (s: string) {
    IntegerText(n) + (FractionText(n) + ExponentText(n))
  }

  function Print(e: Element): (s: string)
    decreases e, 0
  {
    e.before + (PrintValue(e.value) + e.after)
  }

  function PrintValue(v: Value): (s: string)
    decreases v, 0
  {
    match v
    case Word(w) => w
    case Number(n) => PrintNumeral(n)
    case Str(pieces) => PrintString(pieces)
    case Arr(blank, items) => ['['] + ((if items == [] then blank else PrintItems(items)) + [']'])
    case Obj(blank, members) => ['{'] + ((if members == [] then blank else PrintMembers(members)) + ['}'])
  }

  function PrintItems(items: seq<Element>): (s: string)
    decreases items, 1
  {
    if items == [] then ""
    else Print(items[0]) + (if |items| == 1 then "" else [','] + PrintItems(items[1..]))
  }

  function PrintMember(m: Member): (s: string)
    decreases m, 1
  {
    m.before + (PrintString(m.key) + (m.after + ([':'] + Print(m.element))))
  }

  function PrintMembers(members: seq<Member>): (s: string)
    decreases members, 1
  {
    if members == [] then ""
    else PrintMember(members[0]) + (if |members| == 1 then "" else [','] + PrintMembers(members[1..]))
  }

  // Replacing integers in the tree -------------------------------------------------------------------

  function DigitsValue(s: string): (n: nat)
    requires forall c | c in s :: Digit(c)
  {
    if s == [] then 0
    else
      assert s[|s| - 1] in s;
      DigitsValue(s[..|s| - 1]) * 10 + DigitOf(s[|s| - 1])
  }

  function Signed(negative: bool, n: int): (v: int) { if negative then -n else n }

  function IntegerValue(n: Numeral): (v: int)
    requires ValidNumeral(n)
  {
    Signed(n.negative, DigitsValue(n.digits))
  }

  /** A plain integer literal beyond ±(2^53 − 1). */
  predicate TooLarge(n: Numeral)
    requires ValidNumeral(n)
  {
    n.fraction.None? && n.exponent.None? && !(-MAX_SAFE <= IntegerValue(n) <= MAX_SAFE)
  }

  function Pieces(s: string): (r: seq<Piece>)
    ensures |r| == |s| && forall i | 0 <= i < |s| :: r[i] == Plain(s[i])
  {
    if s == [] then [] else [Plain(s[0])] + Pieces(s[1..])
  }

  function Quote(e: Element): (r: Element)
    requires ValidElement(e)
    decreases e, 0
  {
    e.(value := QuoteValue(e.value))
  }

  function QuoteValue(v: Value): (r: Value)
    requires ValidValue(v)
    decreases v, 0
  {
    match v
    case Number(n) => if TooLarge(n) then Str(Pieces(PrintNumeral(n))) else v
    case Arr(blank, items) => Arr(blank, QuoteItems(items))
    case Obj(blank, members) => Obj(blank, QuoteMembers(members))
    case _ => v
  }

  function QuoteItems(items: seq<Element>): (r: seq<Element>)
    requires forall e | e in items :: ValidElement(e)
    ensures |r| == |items| && forall i | 0 <= i < |items| :: r[i] == Quote(items[i])
    decreases items, 1
  {
    if items == [] then [] else [Quote(items[0])] + QuoteItems(items[1..])
  }

  function QuoteMember(m: Member): (r: Member)
    requires ValidMember(m)
    decreases m, 1
  {
    m.(element := Quote(m.element))
  }

  function QuoteMembers(members: seq<Member>): (r: seq<Member>)
    requires forall m | m in members :: ValidMember(m)
    ensures |r| == |members| && forall i | 0 <= i < |members| :: r[i] == QuoteMember(members[i])
    decreases members, 1
  {
    if members == [] then [] else [QuoteMember(members[0])] + QuoteMembers(members[1..])
  }

  // The scanner --------------------------------------------------------------------------------------

  function DigitRun(s: string): (n: nat)
    ensures n <= |s| && forall i | 0 <= i < n :: Digit(s[i])
  {
    if s != [] && Digit(s[0]) then 1 + DigitRun(s[1..]) else 0
  }

  /** -?(0|[1-9]\d*) at the start, or nothing. */
  function IntegerLength(s: string): (n: nat)
    ensures n <= |s|
  {
    var sign := if s != [] && s[0] == '-' then 1 else 0;
    if sign == |s| || !Digit(s[sign]) then 0
    else if s[sign] == '0' then sign + 1
    else sign + DigitRun(s[sign..])
  }

  /** (\.\d+)? */
  function FractionLength(s: string): (n: nat)
    ensures n <= |s|
  {
    if s != [] && s[0] == '.' && DigitRun(s[1..]) > 0 then 1 + DigitRun(s[1..]) else 0
  }

  /** ([eE][+-]?\d+)? */
  function ExponentLength(s: string): (n: nat)
    ensures n <= |s|
  {
    if s != [] && (s[0] == 'e' || s[0] == 'E') then
      var start := if |s| > 1 && (s[1] == '+' || s[1] == '-') then 2 else 1;
      if DigitRun(s[start..]) > 0 then start + DigitRun(s[start..]) else 0
    else 0
  }

  function MatchNumber(s: string): (n: nat)
    ensures n <= |s|
  {
    var a := IntegerLength(s);
    if a == 0 then 0
    else
      var b := FractionLength(s[a..]);
      a + b + ExponentLength(s[a + b..])
  }

  predicate Marked(token: string) {
    exists c | c in token :: c == '.' || c == 'e' || c == 'E'
  }

  /** What Number makes of an integer token. */
  function TokenNumber(token: string): (r: Option<int>) {
    var negative := token != [] && token[0] == '-';
    var digits := if negative then token[1..] else token;
    if forall c | c in digits :: Digit(c) then Some(ToNumber(Signed(negative, DigitsValue(digits)))) else None
  }

  function Token(token: string): (r: string) {
    if !Marked(token) && !(TokenNumber(token).Some? && IsSafeInteger(TokenNumber(token).value)) then
      ['"'] + (token + ['"'])
    else token
  }

  /** The scan, for any treatment of number tokens. */
  function Preserve(s: string, quoted: bool, t: string -> string): (r: string)
    decreases |s|
  {
    if s == [] then []
    else if s[0] == '"' then ['"'] + Preserve(s[1..], !quoted, t)
    else if quoted && s[0] == '\\' then
      if |s| == 1 then s else s[..2] + Preserve(s[2..], quoted, t)
    else if !quoted && (s[0] == '-' || Digit(s[0])) && MatchNumber(s) > 0 then
      t(s[..MatchNumber(s)]) + Preserve(s[MatchNumber(s)..], quoted, t)
    else [s[0]] + Preserve(s[1..], quoted, t)
  }

  lemma Onward(whole: string, before: string, todo: string, piece: string, rest: string)
    requires whole == before + todo && todo == piece + rest
    ensures whole == (before + piece) + rest
  {
  }

  /** One turn of the scan: what is written, how much was read, and whether what follows is inside a string. */
  method NextPiece(t: string -> string, rest: string, quoted: bool) returns (piece: string, size: nat, now: bool)
    requires rest != []
    ensures 0 < size <= |rest|
    ensures Preserve(rest, quoted, t) == piece + Preserve(rest[size..], now, t)
  {
    var c := rest[0];
    piece, size, now := [c], 1, quoted;
    if c == '"' {
      now := !quoted;
    } else if quoted && c == '\\' {
      size := if |rest| > 1 then 2 else 1;
      piece := rest[..size];
    } else if !quoted && (c == '-' || Digit(c)) {
      var length := MatchNumber(rest);
      if length > 0 {
        piece, size := t(rest[..length]), length;
      }
    }
  }

  lemma Rest(json: string, index: nat, size: nat)
    requires index + size <= |json|
    ensures json[index..][size..] == json[index + size..]
  {
  }

  method NextPieceAt(t: string -> string, json: string, index: nat, quoted: bool)
      returns (piece: string, size: nat, now: bool)
    requires index < |json|
    ensures 0 < size <= |json| - index
    ensures Preserve(json[index..], quoted, t) == piece + Preserve(json[index + size..], now, t)
  {
    piece, size, now := NextPiece(t, json[index..], quoted);
    Rest(json, index, size);
  }

  method PreserveWith(t: string -> string, json: string) returns (result: string)
    ensures result == Preserve(json, false, t)
  {
    result := "";
    var quoted, index := false, 0;
    ghost var whole, todo := Preserve(json, false, t), Preserve(json, false, t);
    assert json[0..] == json;
    while index < |json|
      invariant 0 <= index <= |json| && todo == Preserve(json[index..], quoted, t) && whole == result + todo
    {
      var piece, size, now := NextPieceAt(t, json, index, quoted);
      ghost var rest := Preserve(json[index + size..], now, t);
      Onward(whole, result, todo, piece, rest);
      result, index, quoted, todo := result + piece, index + size, now, rest;
    }
    assert json[index..] == [];
  }

  /** The text of any JSON tree comes back with exactly its too large integers quoted. */
  method PreserveLargeIntegers(json: string) returns (result: string)
    ensures result == Preserve(json, false, Token)
    ensures forall e: Element | ValidElement(e) && Print(e) == json :: result == Print(Quote(e))
  {
    result := PreserveWith(Token, json);
    forall e: Element | ValidElement(e) && Print(e) == json ensures result == Print(Quote(e)) {
      PreservesExactlyLargeIntegers(e);
    }
  }

  lemma CharStep(t: string -> string, json: string, index: nat, quoted: bool)
    requires index < |json| && (json[index] == '"' || !(quoted && json[index] == '\\'))
    requires || json[index] == '"' || quoted || !(json[index] == '-' || Digit(json[index]))
             || MatchNumber(json[index..]) == 0
    ensures Preserve(json[index..], quoted, t)
            == [json[index]] + Preserve(json[index + 1..], if json[index] == '"' then !quoted else quoted, t)
  {
    assert json[index..][1..] == json[index + 1..];
  }

  lemma TokenAtStart(t: string -> string, s: string, n: nat, token: string, rest: string)
    requires s != [] && (s[0] == '-' || Digit(s[0])) && MatchNumber(s) == n > 0 && token == s[..n] && rest == s[n..]
    ensures Preserve(s, false, t) == t(token) + Preserve(rest, false, t)
  {
  }

  lemma TokenStep(t: string -> string, json: string, index: nat, n: nat)
    requires index < |json| && (json[index] == '-' || Digit(json[index])) && MatchNumber(json[index..]) == n > 0
    ensures Preserve(json[index..], false, t) == t(json[index..index + n]) + Preserve(json[index + n..], false, t)
  {
    TokenAtStart(t, json[index..], n, json[index..index + n], json[index + n..]);
  }

  lemma EscapeStep(t: string -> string, json: string, index: nat, end: nat)
    requires index < |json| && json[index] == '\\' && end == if index + 2 <= |json| then index + 2 else |json|
    ensures Preserve(json[index..], true, t) == json[index..end] + Preserve(json[end..], true, t)
  {
    var rest := json[index..];
    if index + 2 <= |json| {
      assert rest[..2] == json[index..end] && rest[2..] == json[end..];
    }
  }

  // Scanning printed text ----------------------------------------------------------------------------

  /** Text after a complete value: nothing, or a character that continues no number. */
  predicate Delimited(rest: string) {
    rest == [] || !(Digit(rest[0]) || rest[0] == '.' || rest[0] == 'e' || rest[0] == 'E')
  }

  /** Characters the scanner copies outside strings without looking further. */
  predicate Neutral(s: string) {
    forall c | c in s :: c != '"' && c != '-' && !Digit(c)
  }

  lemma NeutralStep(t: string -> string, c: char, tail: string)
    requires c != '"' && c != '-' && !Digit(c)
    ensures Preserve([c] + tail, false, t) == [c] + Preserve(tail, false, t)
  {
    assert ([c] + tail)[1..] == tail;
  }

  lemma {:induction false} ScanNeutral(t: string -> string, s: string, rest: string)
    requires Neutral(s)
    ensures Preserve(s + rest, false, t) == s + Preserve(rest, false, t)
  {
    if s == [] {
      assert s + rest == rest;
    } else {
      var c, tail := s[0], s[1..];
      assert c in s && forall x | x in tail :: x in s;
      assert s == [c] + tail;
      ScanNeutral(t, tail, rest);
      NeutralStep(t, c, tail + rest);
      Sequences.Associates([c], tail, rest);
      Sequences.Associates([c], tail, Preserve(rest, false, t));
    }
  }

  /** Two stretches scanned one after the other. */
  lemma Compose(t: string -> string, a: string, qa: string, b: string, qb: string, rest: string)
    requires Preserve(a + (b + rest), false, t) == qa + Preserve(b + rest, false, t)
    requires Preserve(b + rest, false, t) == qb + Preserve(rest, false, t)
    ensures Preserve((a + b) + rest, false, t) == (qa + qb) + Preserve(rest, false, t)
  {
    Sequences.Associates(a, b, rest);
    Sequences.Associates(qa, qb, Preserve(rest, false, t));
  }

  lemma PieceStep(t: string -> string, p: Piece, tail: string)
    requires p.Plain? ==> p.c != '"' && p.c != '\\'
    ensures Preserve(PrintPiece(p) + tail, true, t) == PrintPiece(p) + Preserve(tail, true, t)
  {
    var s := PrintPiece(p) + tail;
    assert s[0..] == s;
    if p.Plain? {
      CharStep(t, s, 0, true);
      assert s[1..] == tail;
    } else {
      EscapeStep(t, s, 0, 2);
      assert s[0..2] == PrintPiece(p) && s[2..] == tail;
    }
  }

  lemma QuoteStep(t: string -> string, tail: string, quoted: bool)
    ensures Preserve(['"'] + tail, quoted, t) == ['"'] + Preserve(tail, !quoted, t)
  {
    var s := ['"'] + tail;
    assert s[0..] == s && s[1..] == tail;
    CharStep(t, s, 0, quoted);
  }

  lemma {:induction false} ScanPieces(t: string -> string, pieces: seq<Piece>, rest: string)
    requires ValidPieces(pieces)
    ensures Preserve(PrintPieces(pieces) + (['"'] + rest), true, t)
            == PrintPieces(pieces) + (['"'] + Preserve(rest, false, t))
  {
    var tail := ['"'] + rest;
    if pieces == [] {
      assert PrintPieces(pieces) + tail == tail;
      QuoteStep(t, rest, true);
    } else {
      var others := PrintPieces(pieces[1..]);
      assert pieces[0] in pieces;
      assert forall p | p in pieces[1..] :: p in pieces;
      ScanPieces(t, pieces[1..], rest);
      PieceStep(t, pieces[0], others + tail);
      Sequences.Associates(PrintPiece(pieces[0]), others, tail);
      Sequences.Associates(PrintPiece(pieces[0]), others, ['"'] + Preserve(rest, false, t));
    }
  }

  lemma ScanString(t: string -> string, pieces: seq<Piece>, rest: string)
    requires ValidPieces(pieces)
    ensures Preserve(PrintString(pieces) + rest, false, t) == PrintString(pieces) + Preserve(rest, false, t)
  {
    var inside := PrintPieces(pieces);
    QuoteStep(t, inside + (['"'] + rest), false);
    ScanPieces(t, pieces, rest);
    StringParts(inside, rest);
    StringParts(inside, Preserve(rest, false, t));
  }

  lemma StringParts(inside: string, rest: string)
    ensures (['"'] + (inside + ['"'])) + rest == ['"'] + (inside + (['"'] + rest))
  {
    Sequences.Associates(['"'], inside + ['"'], rest);
    Sequences.Associates(inside, ['"'], rest);
  }

  lemma {:induction false} RunOfDigits(digits: string, rest: string)
    requires forall c | c in digits :: Digit(c)
    requires rest == [] || !Digit(rest[0])
    ensures DigitRun(digits + rest) == |digits|
  {
    if digits == [] {
      assert digits + rest == rest;
    } else {
      assert digits[0] in digits;
      assert (digits + rest)[1..] == digits[1..] + rest;
      assert forall c | c in digits[1..] :: c in digits;
      RunOfDigits(digits[1..], rest);
    }
  }

  lemma MatchInteger(n: Numeral, rest: string)
    requires ValidNumeral(n) && (rest == [] || !Digit(rest[0]))
    ensures IntegerLength(IntegerText(n) + rest) == |IntegerText(n)|
  {
    var s := IntegerText(n) + rest;
    var sign := if n.negative then 1 else 0;
    assert n.digits[0] in n.digits;
    assert s[sign..] == n.digits + rest;
    assert s[sign] == n.digits[0];
    RunOfDigits(n.digits, rest);
  }

  lemma MatchFraction(n: Numeral, rest: string)
    requires ValidNumeral(n) && (rest == [] || (!Digit(rest[0]) && rest[0] != '.'))
    ensures FractionLength(FractionText(n) + rest) == |FractionText(n)|
  {
    var s := FractionText(n) + rest;
    if n.fraction.Some? {
      assert s[1..] == n.fraction.value + rest;
      RunOfDigits(n.fraction.value, rest);
    } else {
      assert s == rest;
    }
  }

  lemma UnsignedExponent(marker: char, digits: string, rest: string)
    requires (marker == 'e' || marker == 'E') && AllDigits(digits) && (rest == [] || !Digit(rest[0]))
    ensures ExponentLength([marker] + (digits + rest)) == 1 + |digits|
  {
    var s := [marker] + (digits + rest);
    assert digits[0] in digits;
    assert s[1] == digits[0] && s[1..] == digits + rest;
    RunOfDigits(digits, rest);
  }

  lemma SignedExponent(marker: char, sign: char, digits: string, rest: string)
    requires (marker == 'e' || marker == 'E') && AllDigits(digits) && (rest == [] || !Digit(rest[0]))
    requires sign == '+' || sign == '-'
    ensures ExponentLength([marker] + ([sign] + (digits + rest))) == 2 + |digits|
  {
    var s := [marker] + ([sign] + (digits + rest));
    assert s[1] == sign && s[2..] == digits + rest;
    RunOfDigits(digits, rest);
  }

  lemma MatchExponent(n: Numeral, rest: string)
    requires ValidNumeral(n) && Delimited(rest)
    ensures ExponentLength(ExponentText(n) + rest) == |ExponentText(n)|
  {
    if n.exponent.Some? {
      var x := n.exponent.value;
      Sequences.Associates([x.marker], x.sign + x.digits, rest);
      Sequences.Associates(x.sign, x.digits, rest);
      if x.sign == "" {
        UnsignedExponent(x.marker, x.digits, rest);
        assert x.sign + (x.digits + rest) == x.digits + rest;
      } else {
        SignedExponent(x.marker, x.sign[0], x.digits, rest);
      }
    } else {
      assert ExponentText(n) + rest == rest;
    }
  }

  lemma MatchThree(a: string, b: string, c: string, rest: string)
    requires IntegerLength(a + (b + (c + rest))) == |a| > 0
    requires FractionLength(b + (c + rest)) == |b| && ExponentLength(c + rest) == |c|
    ensures MatchNumber(a + (b + (c + rest))) == |a| + |b| + |c|
  {
    var s := a + (b + (c + rest));
    assert s[|a|..] == b + (c + rest);
    assert s[|a| + |b|..] == c + rest;
  }

  /** The number pattern matches exactly the printed numeral. */
  lemma MatchNumeral(n: Numeral, rest: string)
    requires ValidNumeral(n) && Delimited(rest)
    ensures MatchNumber(PrintNumeral(n) + rest) == |PrintNumeral(n)| > 0
  {
    var a, b, c := IntegerText(n), FractionText(n), ExponentText(n);
    MatchInteger(n, b + (c + rest));
    MatchFraction(n, c + rest);
    MatchExponent(n, rest);
    MatchThree(a, b, c, rest);
    Sequences.Associates(b, c, rest);
    Sequences.Associates(a, b + c, rest);
  }

  lemma PlainText(n: Numeral)
    requires ValidNumeral(n) && n.fraction.None? && n.exponent.None?
    ensures PrintNumeral(n) == IntegerText(n) && !Marked(PrintNumeral(n))
    ensures TokenNumber(PrintNumeral(n)) == Some(ToNumber(IntegerValue(n)))
  {
    var text := IntegerText(n);
    assert PrintNumeral(n) == text;
    assert n.digits[0] in n.digits;
    assert n.negative ==> text[1..] == n.digits;
    assert !n.negative ==> text == n.digits;
    assert forall c | c in text :: c == '-' || c in n.digits;
  }

  lemma MarkedText(n: Numeral)
    requires ValidNumeral(n) && (n.fraction.Some? || n.exponent.Some?)
    ensures Marked(PrintNumeral(n))
  {
    var text, mark := PrintNumeral(n), |IntegerText(n)|;
    if n.fraction.None? {
      assert FractionText(n) + ExponentText(n) == ExponentText(n);
    }
    assert text[mark] == (if n.fraction.Some? then '.' else n.exponent.value.marker);
    assert text[mark] in text;
  }

  lemma {:induction false} PrintPlainPieces(s: string)
    ensures PrintPieces(Pieces(s)) == s
  {
    if s != [] {
      PrintPlainPieces(s[1..]);
      assert Pieces(s)[1..] == Pieces(s[1..]);
    }
  }

  /** A number token is quoted exactly when it is a plain integer that is too large. */
  lemma TokenOfNumeral(n: Numeral)
    requires ValidNumeral(n)
    ensures Token(PrintNumeral(n)) == PrintValue(QuoteValue(Number(n)))
  {
    if n.fraction.None? && n.exponent.None? {
      PlainText(n);
      SafeExactlyWhenSmall(IntegerValue(n));
      PrintPlainPieces(PrintNumeral(n));
    } else {
      MarkedText(n);
    }
  }

  /** Number tokens are treated as the tree's literals are. */
  ghost predicate Quotes(t: string -> string) {
    forall n: Numeral | ValidNumeral(n) :: t(PrintNumeral(n)) == PrintValue(QuoteValue(Number(n)))
  }

  lemma TokenQuotes()
    ensures Quotes(Token)
  {
    forall n: Numeral | ValidNumeral(n) ensures Token(PrintNumeral(n)) == PrintValue(QuoteValue(Number(n))) {
      TokenOfNumeral(n);
    }
  }

  lemma ScanNumeral(t: string -> string, n: Numeral, rest: string)
    requires ValidNumeral(n) && Delimited(rest) && Quotes(t)
    ensures Preserve(PrintNumeral(n) + rest, false, t) == PrintValue(QuoteValue(Number(n))) + Preserve(rest, false, t)
  {
    var text := PrintNumeral(n);
    var s := text + rest;
    MatchNumeral(n, rest);
    assert n.digits[0] in n.digits;
    assert s[0] == '-' || Digit(s[0]) by {
      assert s[0] == IntegerText(n)[0];
    }
    assert s[0..] == s && s[0..|text|] == text && s[|text|..] == rest;
    TokenStep(t, s, 0, |text|);
  }

  lemma ScanWord(t: string -> string, w: string, rest: string)
    requires w == "true" || w == "false" || w == "null"
    ensures Preserve(w + rest, false, t) == w + Preserve(rest, false, t)
  {
    ScanNeutral(t, w, rest);
  }

  lemma ScanElement(t: string -> string, e: Element, rest: string)
    requires Quotes(t) && ValidElement(e) && Delimited(rest)
    ensures Preserve(Print(e) + rest, false, t) == Print(Quote(e)) + Preserve(rest, false, t)
    decreases e, 0
  {
    var text, quoted := PrintValue(e.value), PrintValue(QuoteValue(e.value));
    ScanNeutral(t, e.after, rest);
    assert Delimited(e.after + rest) by {
      if e.after != [] {
        assert e.after[0] in e.after;
      }
    }
    ScanValue(t, e.value, e.after + rest);
    Compose(t, text, quoted, e.after, e.after, rest);
    ScanNeutral(t, e.before, (text + e.after) + rest);
    Compose(t, e.before, e.before, text + e.after, quoted + e.after, rest);
  }

  lemma ScanValue(t: string -> string, v: Value, rest: string)
    requires Quotes(t) && ValidValue(v) && Delimited(rest)
    ensures Preserve(PrintValue(v) + rest, false, t) == PrintValue(QuoteValue(v)) + Preserve(rest, false, t)
    decreases v, 0
  {
    match v
    case Word(w) => ScanWord(t, w, rest);
    case Number(n) => ScanNumeral(t, n, rest);
    case Str(pieces) => ScanString(t, pieces, rest);
    case Arr(blank, items) =>
      if items == [] {
        ScanNeutral(t, blank, [']'] + rest);
      } else {
        ScanItems(t, items, [']'] + rest);
      }
      var inside := if items == [] then blank else PrintItems(items);
      var quoted := if items == [] then blank else PrintItems(QuoteItems(items));
      Enclosed(t, '[', ']', inside, quoted, rest);
    case Obj(blank, members) =>
      if members == [] {
        ScanNeutral(t, blank, ['}'] + rest);
      } else {
        ScanMembers(t, members, ['}'] + rest);
      }
      var inside := if members == [] then blank else PrintMembers(members);
      var quoted := if members == [] then blank else PrintMembers(QuoteMembers(members));
      Enclosed(t, '{', '}', inside, quoted, rest);
  }

  lemma Enclosed(t: string -> string, open: char, close: char, inside: string, quoted: string, rest: string)
    requires Neutral([open]) && Neutral([close])
    requires Preserve(inside + ([close] + rest), false, t) == quoted + Preserve([close] + rest, false, t)
    ensures Preserve(([open] + (inside + [close])) + rest, false, t)
            == ([open] + (quoted + [close])) + Preserve(rest, false, t)
  {
    ScanNeutral(t, [close], rest);
    Compose(t, inside, quoted, [close], [close], rest);
    ScanNeutral(t, [open], (inside + [close]) + rest);
    Compose(t, [open], [open], inside + [close], quoted + [close], rest);
  }

  lemma Separated(t: string -> string, first: string, quoted: string, others: string, quotedOthers: string,
      rest: string)
    requires Preserve(first + (([','] + others) + rest), false, t)
             == quoted + Preserve(([','] + others) + rest, false, t)
    requires Preserve(others + rest, false, t) == quotedOthers + Preserve(rest, false, t)
    ensures Preserve((first + ([','] + others)) + rest, false, t)
            == (quoted + ([','] + quotedOthers)) + Preserve(rest, false, t)
  {
    ScanNeutral(t, [','], others + rest);
    Compose(t, [','], [','], others, quotedOthers, rest);
    Compose(t, first, quoted, [','] + others, [','] + quotedOthers, rest);
  }

  lemma ScanItems(t: string -> string, items: seq<Element>, rest: string)
    requires Quotes(t) && items != [] && (forall e | e in items :: ValidElement(e)) && Delimited(rest)
    ensures Preserve(PrintItems(items) + rest, false, t) == PrintItems(QuoteItems(items)) + Preserve(rest, false, t)
    decreases items, 1
  {
    assert items[0] in items;
    if |items| == 1 {
      ScanElement(t, items[0], rest);
      assert Print(items[0]) + "" == Print(items[0]) && Print(Quote(items[0])) + "" == Print(Quote(items[0]));
    } else {
      var others := PrintItems(items[1..]);
      ScanElement(t, items[0], ([','] + others) + rest);
      ScanItems(t, items[1..], rest);
      Separated(t, Print(items[0]), Print(Quote(items[0])), others, PrintItems(QuoteItems(items[1..])), rest);
      assert QuoteItems(items)[1..] == QuoteItems(items[1..]);
    }
  }

  lemma ScanMember(t: string -> string, m: Member, rest: string)
    requires Quotes(t) && ValidMember(m) && Delimited(rest)
    ensures Preserve(PrintMember(m) + rest, false, t) == PrintMember(QuoteMember(m)) + Preserve(rest, false, t)
    decreases m, 1
  {
    var key, text, quoted := PrintString(m.key), Print(m.element), Print(Quote(m.element));
    ScanElement(t, m.element, rest);
    ScanNeutral(t, [':'], text + rest);
    Compose(t, [':'], [':'], text, quoted, rest);
    var value, quotedValue := [':'] + text, [':'] + quoted;
    ScanNeutral(t, m.after, value + rest);
    Compose(t, m.after, m.after, value, quotedValue, rest);
    ScanString(t, m.key, (m.after + value) + rest);
    Compose(t, key, key, m.after + value, m.after + quotedValue, rest);
    ScanNeutral(t, m.before, (key + (m.after + value)) + rest);
    Compose(t, m.before, m.before, key + (m.after + value), key + (m.after + quotedValue), rest);
  }

  lemma ScanMembers(t: string -> string, members: seq<Member>, rest: string)
    requires Quotes(t) && members != [] && (forall m | m in members :: ValidMember(m)) && Delimited(rest)
    ensures Preserve(PrintMembers(members) + rest, false, t)
            == PrintMembers(QuoteMembers(members)) + Preserve(rest, false, t)
    decreases members, 1
  {
    assert members[0] in members;
    if |members| == 1 {
      ScanMember(t, members[0], rest);
      assert PrintMember(members[0]) + "" == PrintMember(members[0]);
      assert PrintMember(QuoteMember(members[0])) + "" == PrintMember(QuoteMember(members[0]));
    } else {
      var others := PrintMembers(members[1..]);
      ScanMember(t, members[0], ([','] + others) + rest);
      ScanMembers(t, members[1..], rest);
      Separated(t, PrintMember(members[0]), PrintMember(QuoteMember(members[0])), others,
          PrintMembers(QuoteMembers(members[1..])), rest);
      assert QuoteMembers(members)[1..] == QuoteMembers(members[1..]);
    }
  }

  /** For every JSON tree and layout, scanning its text is printing the tree with its large integers quoted. */
  lemma PreservesExactlyLargeIntegers(e: Element)
    requires ValidElement(e)
    ensures Preserve(Print(e), false, Token) == Print(Quote(e))
  {
    TokenQuotes();
    ScanElement(Token, e, "");
    assert Print(e) + "" == Print(e) && Print(Quote(e)) + "" == Print(Quote(e));
  }

  // What the quoted tree is --------------------------------------------------------------------------

  lemma QuotedValid(e: Element)
    requires ValidElement(e)
    ensures ValidElement(Quote(e)) && Quote(Quote(e)) == Quote(e)
    decreases e, 0
  {
    QuotedValueValid(e.value);
  }

  lemma QuotedValueValid(v: Value)
    requires ValidValue(v)
    ensures ValidValue(QuoteValue(v)) && QuoteValue(QuoteValue(v)) == QuoteValue(v)
    decreases v, 0
  {
    match v
    case Word(_) =>
    case Str(_) =>
    case Number(n) =>
      if TooLarge(n) {
        PlainText(n);
        var text := PrintNumeral(n);
        assert forall c | c in n.digits :: Digit(c);
        assert forall i | 0 <= i < |text| :: text[i] == '-' || text[i] in n.digits;
      }
    case Arr(blank, items) =>
      forall e | e in items ensures ValidElement(Quote(e)) && Quote(Quote(e)) == Quote(e) {
        QuotedValid(e);
      }
      var once := QuoteItems(items);
      assert forall e | e in once :: ValidElement(e);
      assert QuoteItems(once) == once;
    case Obj(blank, members) =>
      forall m | m in members ensures ValidMember(QuoteMember(m)) && QuoteMember(QuoteMember(m)) == QuoteMember(m) {
        QuotedValid(m.element);
      }
      var once := QuoteMembers(members);
      assert forall m | m in once :: ValidMember(m);
      assert QuoteMembers(once) == once;
  }

  /** Scanning twice changes nothing more. */
  lemma PreservingIsIdempotent(e: Element)
    requires ValidElement(e)
    ensures Preserve(Preserve(Print(e), false, Token), false, Token) == Preserve(Print(e), false, Token)
  {
    QuotedValid(e);
    PreservesExactlyLargeIntegers(e);
    PreservesExactlyLargeIntegers(Quote(e));
  }

  /** Every number literal of a tree. */
  function Numerals(v: Value): (r: seq<Numeral>)
    decreases v, 0
  {
    match v
    case Number(n) => [n]
    case Arr(_, items) => ItemNumerals(items)
    case Obj(_, members) => MemberNumerals(members)
    case _ => []
  }

  function ItemNumerals(items: seq<Element>): (r: seq<Numeral>)
    decreases items, 1
  {
    if items == [] then [] else Numerals(items[0].value) + ItemNumerals(items[1..])
  }

  function MemberNumerals(members: seq<Member>): (r: seq<Numeral>)
    decreases members, 1
  {
    if members == [] then [] else Numerals(members[0].element.value) + MemberNumerals(members[1..])
  }

  predicate Keeps(n: Numeral) {
    ValidNumeral(n) && !TooLarge(n)
  }

  function Kept(s: seq<Numeral>): (r: seq<Numeral>) {
    if s == [] then [] else (if Keeps(s[0]) then [s[0]] else []) + Kept(s[1..])
  }

  lemma {:induction false} KeptAppend(a: seq<Numeral>, b: seq<Numeral>)
    ensures Kept(a + b) == Kept(a) + Kept(b)
  {
    if a == [] {
      assert a + b == b;
    } else {
      assert (a + b)[1..] == a[1..] + b;
      KeptAppend(a[1..], b);
    }
  }

  /**
   What is left of the number literals, in order, is exactly those a parser reads without rounding
   or that are no plain integers.
   */
  lemma NoLargeIntegerLeft(v: Value)
    requires ValidValue(v)
    ensures Numerals(QuoteValue(v)) == Kept(Numerals(v))
    decreases v, 0
  {
    match v
    case Word(_) =>
    case Str(_) =>
    case Number(n) => assert [n][1..] == [];
    case Arr(_, items) => NoLargeItem(items);
    case Obj(_, members) => NoLargeMember(members);
  }

  lemma NoLargeItem(items: seq<Element>)
    requires forall e | e in items :: ValidElement(e)
    ensures ItemNumerals(QuoteItems(items)) == Kept(ItemNumerals(items))
    decreases items, 1
  {
    if items != [] {
      assert items[0] in items;
      NoLargeIntegerLeft(items[0].value);
      NoLargeItem(items[1..]);
      KeptAppend(Numerals(items[0].value), ItemNumerals(items[1..]));
      assert QuoteItems(items)[1..] == QuoteItems(items[1..]);
    }
  }

  lemma ElementOfMember(m: Member)
    requires ValidMember(m)
    ensures ValidElement(m.element) && ValidValue(m.element.value)
            && QuoteMember(m).element.value == QuoteValue(m.element.value)
  {
  }

  lemma NoLargeMember(members: seq<Member>)
    requires forall m | m in members :: ValidMember(m)
    ensures MemberNumerals(QuoteMembers(members)) == Kept(MemberNumerals(members))
    decreases members, 1
  {
    if members != [] {
      assert members[0] in members;
      ElementOfMember(members[0]);
      NoLargeIntegerLeft(members[0].element.value);
      NoLargeMember(members[1..]);
      KeptAppend(Numerals(members[0].element.value), MemberNumerals(members[1..]));
      assert QuoteMembers(members)[1..] == QuoteMembers(members[1..]);
    }
  }

  // Integers and their text --------------------------------------------------------------------------

  lemma {:induction false} ValueOfDecimal(n: nat)
    ensures DigitsValue(Digits(n)) == n
  {
    var s := Digits(n);
    if n < 10 {
      assert s[..0] == [];
    } else {
      ValueOfDecimal(n / 10);
      assert s[..|s| - 1] == Digits(n / 10);
    }
  }

  /** And every numeral without a superfluous zero is the decimal text of its value. */
  lemma {:induction false} DecimalOfValue(s: string)
    requires AllDigits(s) && (s[0] == '0' ==> |s| == 1)
    ensures Digits(DigitsValue(s)) == s && (DigitsValue(s) == 0 <==> s == "0")
  {
    var init, last := s[..|s| - 1], s[|s| - 1];
    assert s == init + [last] && last in s;
    if init == [] {
      assert DigitChar(DigitOf(last)) == last;
    } else {
      forall c | c in init ensures Digit(c) {
        assert c in s;
      }
      DecimalOfValue(init);
      var n := DigitsValue(s);
      assert n / 10 == DigitsValue(init) && n % 10 == DigitOf(last);
      assert DigitChar(DigitOf(last)) == last;
    }
  }

  /** The literal of an integer. */
  ghost function Literal(v: int): (n: Numeral)
    ensures ValidNumeral(n)
  {
    LeadingDigit(if v < 0 then -v else v);
    Numeral(v < 0, Digits(if v < 0 then -v else v), None, None)
  }

  lemma LiteralText(v: int)
    ensures PrintNumeral(Literal(v)) == PrintInteger(v) && IntegerValue(Literal(v)) == v
  {
    PlainText(Literal(v));
    ValueOfDecimal(if v < 0 then -v else v);
  }

  /** The text of an integer, in quotes if it is large. */
  ghost function IntegerShown(v: int): (s: string) {
    if -9007199254740991 <= v <= 9007199254740991 then PrintInteger(v) else ['"'] + (PrintInteger(v) + ['"'])
  }

  lemma QuotedLiteral(v: int)
    ensures PrintValue(QuoteValue(Number(Literal(v)))) == IntegerShown(v)
  {
    LiteralText(v);
    PrintPlainPieces(PrintInteger(v));
  }

  lemma ScanLiteral(n: Numeral, rest: string, shown: string)
    requires ValidNumeral(n) && Delimited(rest) && PrintValue(QuoteValue(Number(n))) == shown
    ensures Preserve(PrintNumeral(n) + rest, false, Token) == shown + Preserve(rest, false, Token)
  {
    TokenQuotes();
    ScanNumeral(Token, n, rest);
  }

  /**
   The decimal text of an integer, anywhere outside a string, comes out quoted exactly when the
   integer lies beyond 2^53 - 1 on either side.
   */
  lemma IntegerTextQuotedExactlyWhenLarge(v: int, rest: string)
    requires Delimited(rest)
    ensures Preserve(PrintInteger(v) + rest, false, Token) == IntegerShown(v) + Preserve(rest, false, Token)
  {
    LiteralText(v);
    QuotedLiteral(v);
    ScanLiteral(Literal(v), rest, IntegerShown(v));
  }

  /** A literal with a fraction or an exponent is left alone, whatever its value. */
  lemma MarkedLiteralLeftAlone(n: Numeral, rest: string)
    requires ValidNumeral(n) && (n.fraction.Some? || n.exponent.Some?) && Delimited(rest)
    ensures Preserve(PrintNumeral(n) + rest, false, Token) == PrintNumeral(n) + Preserve(rest, false, Token)
  {
    ScanLiteral(n, rest, PrintNumeral(n));
  }
}
