/**
 The guard between a PostgreSQL connection and the driver: a whole-stream frame parser says which
 bytes of a backend stream may pass, and the incremental guard is proved to pass exactly those,
 however the stream arrives and however much room the reader offers.
 */
module InboundGuard {
  import Sequences

  type Byte = b: int | 0 <= b < 256

  const FRAME_LIMIT: nat := 1024 * 1024
  const RESPONSE_LIMIT: nat := 2 * 1024 * 1024
  const READY_FOR_QUERY: Byte := 90

  // The frame parser ---------------------------------------------------------------------------------

  /** Type byte and length field: four bytes, most significant first, counting itself but not the type byte. */
  datatype Header = Header(kind: Byte, length: nat)

  function HeaderOf(s: seq<Byte>): (h: Header)
    requires |s| >= 5
  {
    var b1: int, b2: int, b3: int, b4: int := s[1], s[2], s[3], s[4];
    Header(s[0], ((b1 * 256 + b2) * 256 + b3) * 256 + b4)
  }

  function FrameBytes(h: Header): (n: nat) { h.length + 1 }

  predicate ReadyFrame(h: Header) { h.kind == READY_FOR_QUERY && h.length == 5 }

  predicate Refuses(h: Header, used: nat) {
    h.length < 4 || FrameBytes(h) > FRAME_LIMIT || used + FrameBytes(h) > RESPONSE_LIMIT
  }

  function UsedAfter(h: Header, used: nat): (n: nat) {
    if ReadyFrame(h) then 0 else used + FrameBytes(h)
  }

  lemma SameHeader(s: seq<Byte>, t: seq<Byte>)
    requires |s| >= 5 && |t| >= 5 && s[..5] == t[..5]
    ensures HeaderOf(s) == HeaderOf(t)
  {
    assert forall i | 0 <= i < 5 :: s[i] == s[..5][i] == t[..5][i] == t[i];
  }

  /** Where the input ends: inside a header, inside a body, or at a refused frame. */
  datatype Tail =
    | InHeader(header: seq<Byte>, used: nat)
    | InBody(left: nat, used: nat, ready: bool)
    | Refused

  datatype Outcome = Outcome(admitted: seq<Byte>, tail: Tail)

  /** What may pass of a stream that starts at a frame boundary with `used` bytes since ReadyForQuery. */
  function Admit(s: seq<Byte>, used: nat): (o: Outcome)
    decreases |s|
  {
    if |s| < 5 then Outcome([], InHeader(s, used))
    else
      var h := HeaderOf(s);
      if Refuses(h, used) then Outcome([], Refused)
      else
        var n := FrameBytes(h);
        if |s| < n then Outcome(s, InBody(n - |s|, used + n, ReadyFrame(h)))
        else
          var rest := Admit(s[n..], UsedAfter(h, used));
          rest.(admitted := s[..n] + rest.admitted)
  }

  /** What may pass of the bytes that follow. */
  function Resume(tail: Tail, more: seq<Byte>): (o: Outcome) {
    match tail
    case InHeader(header, used) => Admit(header + more, used)
    case InBody(left, used, ready) =>
      if |more| < left then Outcome(more, InBody(left - |more|, used, ready))
      else
        var rest := Admit(more[left..], if ready then 0 else used);
        rest.(admitted := more[..left] + rest.admitted)
    case Refused => Outcome([], Refused)
  }

  /** Parsing is incremental: only the tail of what came before matters. */
  lemma {:induction false} AdmitResumes(s: seq<Byte>, more: seq<Byte>, used: nat)
    ensures var first := Admit(s, used);
            var later := Resume(first.tail, more);
            Admit(s + more, used) == Outcome(first.admitted + later.admitted, later.tail)
    decreases |s|
  {
    if |s| >= 5 {
      var h := HeaderOf(s);
      SameHeader(s, s + more);
      if Refuses(h, used) {
      } else if |s| < FrameBytes(h) {
        PartialFrame(s, more, used);
      } else {
        var n, after := FrameBytes(h), UsedAfter(h, used);
        WholeFrame(s, more, used);
        AdmitResumes(s[n..], more, after);
        Sequences.Associates(s[..n], Admit(s[n..], after).admitted, Resume(Admit(s, used).tail, more).admitted);
      }
    }
  }

  lemma WholeFrame(s: seq<Byte>, more: seq<Byte>, used: nat)
    requires |s| >= 5 && !Refuses(HeaderOf(s), used) && |s| >= FrameBytes(HeaderOf(s))
    ensures var n := FrameBytes(HeaderOf(s));
            var rest := Admit(s[n..] + more, UsedAfter(HeaderOf(s), used));
            Admit(s + more, used) == rest.(admitted := s[..n] + rest.admitted)
  {
    var n := FrameBytes(HeaderOf(s));
    SameHeader(s, s + more);
    assert (s + more)[n..] == s[n..] + more;
    assert (s + more)[..n] == s[..n];
  }

  lemma PartialFrame(s: seq<Byte>, more: seq<Byte>, used: nat)
    requires |s| >= 5 && !Refuses(HeaderOf(s), used) && |s| < FrameBytes(HeaderOf(s))
    ensures var later := Resume(Admit(s, used).tail, more);
            Admit(s + more, used) == Outcome(s + later.admitted, later.tail)
  {
    var n := FrameBytes(HeaderOf(s));
    SameHeader(s, s + more);
    if |s| + |more| >= n {
      var left := n - |s|;
      assert (s + more)[..n] == s + more[..left];
      assert (s + more)[n..] == more[left..];
    }
  }

  /** Nothing already passed is taken back, and a refusal is final. */
  lemma AdmitIsMonotone(s: seq<Byte>, more: seq<Byte>, used: nat)
    ensures Admit(s, used).admitted <= Admit(s + more, used).admitted
    ensures Admit(s, used).tail.Refused? ==> Admit(s + more, used) == Admit(s, used)
  {
    AdmitResumes(s, more, used);
  }

  lemma Prefixed(s: seq<Byte>, front: seq<Byte>, rest: seq<Byte>, passed: seq<Byte>, held: seq<Byte>)
    requires s == front + rest && passed <= rest
    ensures front + passed <= s
    ensures rest == passed ==> s == front + passed
    ensures rest == passed + held ==> s == (front + passed) + held
  {
  }

  ghost predicate WithholdsOnlyHeader(s: seq<Byte>, o: Outcome) {
    && o.admitted <= s
    && match o.tail
       case InHeader(header, _) => |header| < 5 && s == o.admitted + header
       case InBody(_, _, _) => s == o.admitted
       case Refused => true
  }

  /** What passes is a prefix of the input; unless a frame is refused, only an incomplete header is withheld. */
  lemma {:induction false} AdmitsAPrefix(s: seq<Byte>, used: nat)
    ensures WithholdsOnlyHeader(s, Admit(s, used))
    decreases |s|
  {
    if |s| >= 5 && !Refuses(HeaderOf(s), used) && |s| >= FrameBytes(HeaderOf(s)) {
      var n, after := FrameBytes(HeaderOf(s)), UsedAfter(HeaderOf(s), used);
      AdmitsAPrefix(s[n..], after);
      FrameThenRest(s, n, Admit(s[n..], after));
    }
  }

  lemma FrameThenRest(s: seq<Byte>, n: nat, rest: Outcome)
    requires n <= |s| && WithholdsOnlyHeader(s[n..], rest)
    ensures WithholdsOnlyHeader(s, rest.(admitted := s[..n] + rest.admitted))
  {
    assert s == s[..n] + s[n..];
    Prefixed(s, s[..n], s[n..], rest.admitted, if rest.tail.InHeader? then rest.tail.header else []);
  }

  // Frames -------------------------------------------------------------------------------------------

  /** At least a whole header. */
  type Frame = s: seq<Byte> | |s| >= 5 witness [0, 0, 0, 0, 4]

  /** The passed bytes cut into frames; only the last can be incomplete, and it has its whole header. */
  function Frames(s: seq<Byte>, used: nat): (r: seq<Frame>)
    decreases |s|
  {
    if |s| < 5 || Refuses(HeaderOf(s), used) then []
    else
      var n := FrameBytes(HeaderOf(s));
      if |s| < n then [s] else [s[..n]] + Frames(s[n..], UsedAfter(HeaderOf(s), used))
  }

  function Concat(frames: seq<seq<Byte>>): (s: seq<Byte>) {
    if frames == [] then [] else frames[0] + Concat(frames[1..])
  }

  /** Declared bytes of a run of frames. */
  function Declared(frames: seq<Frame>): (n: nat) {
    if frames == [] then 0 else FrameBytes(HeaderOf(frames[0])) + Declared(frames[1..])
  }

  ghost predicate NoneReady(frames: seq<Frame>) {
    forall f | f in frames :: !ReadyFrame(HeaderOf(f))
  }

  lemma FirstFrame(s: seq<Byte>, used: nat)
    requires Frames(s, used) != []
    ensures |s| >= 5 && !Refuses(HeaderOf(s), used)
    ensures HeaderOf(Frames(s, used)[0]) == HeaderOf(s)
    ensures |Frames(s, used)| > 1 ==>
              |s| >= FrameBytes(HeaderOf(s))
              && Frames(s, used)[1..] == Frames(s[FrameBytes(HeaderOf(s))..], UsedAfter(HeaderOf(s), used))
  {
    var n := FrameBytes(HeaderOf(s));
    if |s| >= n {
      assert s[..n][..5] == s[..5];
      SameHeader(s[..n], s);
    }
  }

  lemma {:induction false} FramesCoverAdmitted(s: seq<Byte>, used: nat)
    ensures Concat(Frames(s, used)) == Admit(s, used).admitted
    ensures forall f | f in Frames(s, used) :: |f| <= FrameBytes(HeaderOf(f)) <= FRAME_LIMIT
    decreases |s|
  {
    if |s| >= 5 && !Refuses(HeaderOf(s), used) {
      var n := FrameBytes(HeaderOf(s));
      if |s| < n {
        assert Concat([s]) == s + Concat([]) == s;
      } else {
        FirstFrame(s, used);
        FramesCoverAdmitted(s[n..], UsedAfter(HeaderOf(s), used));
        var rest := Frames(s[n..], UsedAfter(HeaderOf(s), used));
        assert ([s[..n]] + rest)[1..] == rest;
      }
    }
  }

  /** Declared bytes of the first frame and of those after it. */
  lemma DeclaredCons(frames: seq<Frame>, j: nat)
    requires j < |frames|
    ensures Declared(frames[..j + 1]) == FrameBytes(HeaderOf(frames[0])) + Declared(frames[1..][..j])
  {
    assert frames[..j + 1][0] == frames[0] && frames[..j + 1][1..] == frames[1..][..j];
  }

  /** Each header was accepted after the ones before it. */
  ghost predicate Accepted(frames: seq<Frame>, used: nat) {
    frames == []
    || (!Refuses(HeaderOf(frames[0]), used) && Accepted(frames[1..], UsedAfter(HeaderOf(frames[0]), used)))
  }

  lemma {:induction false} FramesAreAccepted(s: seq<Byte>, used: nat)
    ensures Accepted(Frames(s, used), used)
    decreases |s|
  {
    var frames := Frames(s, used);
    if frames != [] {
      FirstFrame(s, used);
      if |frames| > 1 {
        FramesAreAccepted(s[FrameBytes(HeaderOf(s))..], UsedAfter(HeaderOf(s), used));
      } else {
        assert frames[1..] == [];
      }
    }
  }

  /** A stretch from the start that holds no completed ReadyForQuery stays within what is left of the limit. */
  lemma {:induction false} OpenStretchBounded(frames: seq<Frame>, used: nat, j: nat)
    requires Accepted(frames, used) && j < |frames| && NoneReady(frames[..j])
    ensures used + Declared(frames[..j + 1]) <= RESPONSE_LIMIT
  {
    DeclaredCons(frames, j);
    if j > 0 {
      assert frames[0] in frames[..j];
      forall f | f in frames[1..][..j - 1] ensures !ReadyFrame(HeaderOf(f)) {
        assert f in frames[..j];
      }
      OpenStretchBounded(frames[1..], used + FrameBytes(HeaderOf(frames[0])), j - 1);
    }
  }

  lemma Later(frames: seq<Frame>, i: nat, j: nat)
    requires 0 < i <= j <= |frames|
    ensures frames[i..j] == frames[1..][i - 1..j - 1]
  {
    var a, b := frames[i..j], frames[1..][i - 1..j - 1];
    forall k | 0 <= k < |a| ensures a[k] == b[k] {
      assert a[k] == frames[i + k] && b[k] == frames[1..][i - 1 + k];
    }
  }

  lemma {:induction false} StretchBounded(frames: seq<Frame>, used: nat, i: nat, j: nat)
    requires Accepted(frames, used) && i <= j < |frames| && NoneReady(frames[i..j])
    ensures Declared(frames[i..j + 1]) <= RESPONSE_LIMIT
  {
    if i == 0 {
      assert frames[0..j] == frames[..j] && frames[0..j + 1] == frames[..j + 1];
      OpenStretchBounded(frames, used, j);
    } else {
      Later(frames, i, j);
      Later(frames, i, j + 1);
      StretchBounded(frames[1..], UsedAfter(HeaderOf(frames[0]), used), i - 1, j - 1);
    }
  }

  /** Between completed ReadyForQuery frames, declared frame bytes never exceed the response limit. */
  lemma ResponsesBounded(s: seq<Byte>, used: nat, i: nat, j: nat)
    requires i <= j < |Frames(s, used)| && NoneReady(Frames(s, used)[i..j])
    ensures Declared(Frames(s, used)[i..j + 1]) <= RESPONSE_LIMIT
  {
    FramesAreAccepted(s, used);
    StretchBounded(Frames(s, used), used, i, j);
  }

  /** Complete frames that respect every limit, from `used` bytes since ReadyForQuery. */
  ghost predicate WithinLimits(frames: seq<seq<Byte>>, used: nat) {
    frames == []
    || (|frames[0]| >= 5 && |frames[0]| == FrameBytes(HeaderOf(frames[0])) && !Refuses(HeaderOf(frames[0]), used)
        && WithinLimits(frames[1..], UsedAfter(HeaderOf(frames[0]), used)))
  }

  ghost function UsedAfterAll(frames: seq<seq<Byte>>, used: nat): (n: nat)
    requires WithinLimits(frames, used)
  {
    if frames == [] then used else UsedAfterAll(frames[1..], UsedAfter(HeaderOf(frames[0]), used))
  }

  lemma FramePasses(frame: seq<Byte>, later: seq<Byte>, used: nat)
    requires |frame| >= 5 && |frame| == FrameBytes(HeaderOf(frame)) && !Refuses(HeaderOf(frame), used)
    ensures var rest := Admit(later, UsedAfter(HeaderOf(frame), used));
            Admit(frame + later, used) == rest.(admitted := frame + rest.admitted)
  {
    WholeFrame(frame, later, used);
    assert frame[|frame|..] + later == later && frame[..|frame|] == frame;
  }

  /** Nothing conforming is held back: complete frames within the limits pass whole, whatever follows. */
  lemma {:induction false} ConformingFramesPass(frames: seq<seq<Byte>>, more: seq<Byte>, used: nat)
    requires WithinLimits(frames, used)
    ensures var rest := Admit(more, UsedAfterAll(frames, used));
            Admit(Concat(frames) + more, used) == Outcome(Concat(frames) + rest.admitted, rest.tail)
    decreases |frames|
  {
    if frames == [] {
      assert Concat(frames) + more == more;
      assert forall s: seq<Byte> :: Concat(frames) + s == s;
    } else {
      var first, others := frames[0], Concat(frames[1..]);
      var after := UsedAfter(HeaderOf(first), used);
      ConformingFramesPass(frames[1..], more, after);
      FramePasses(first, others + more, used);
      Sequences.Associates(first, others, more);
      Sequences.Associates(first, others, Admit(more, UsedAfterAll(frames, used)).admitted);
    }
  }

  // Frames as they are written on the wire -----------------------------------------------------------

  /** A length field: four bytes, most significant first. */
  function BigEndian(n: nat): (s: seq<Byte>)
    requires n < 0x1_0000_0000
  {
    [n / 16777216, n / 65536 % 256, n / 256 % 256, n % 256]
  }

  /** Type byte, a length field that says `length`, and whatever follows. */
  function Declares(kind: Byte, length: nat, rest: seq<Byte>): (s: seq<Byte>)
    requires length < 0x1_0000_0000
  {
    [kind] + BigEndian(length) + rest
  }

  lemma BigEndianValue(n: nat)
    requires n < 0x1_0000_0000
    ensures (((n / 16777216) * 256 + n / 65536 % 256) * 256 + n / 256 % 256) * 256 + n % 256 == n
  {
    var a, b := n / 256, n / 65536;
    assert a / 256 == b && b / 256 == n / 16777216;
  }

  lemma DeclaresHeader(kind: Byte, length: nat, rest: seq<Byte>)
    requires length < 0x1_0000_0000
    ensures |Declares(kind, length, rest)| == 5 + |rest|
    ensures HeaderOf(Declares(kind, length, rest)) == Header(kind, length)
  {
    BigEndianValue(length);
    var s := Declares(kind, length, rest);
    assert s[0] == kind && s[1..5] == BigEndian(length);
    assert s[1] == BigEndian(length)[0] && s[2] == BigEndian(length)[1];
    assert s[3] == BigEndian(length)[2] && s[4] == BigEndian(length)[3];
  }

  /** Every five bytes are the header of some kind and length. */
  lemma EveryHeaderDeclares(s: seq<Byte>) returns (length: nat)
    requires |s| >= 5
    ensures length < 0x1_0000_0000 && s == Declares(s[0], length, s[5..])
  {
    var b1: int, b2: int, b3: int, b4: int := s[1], s[2], s[3], s[4];
    length := ((b1 * 256 + b2) * 256 + b3) * 256 + b4;
    assert length / 256 == (b1 * 256 + b2) * 256 + b3 && length % 256 == b4;
    assert length / 65536 == b1 * 256 + b2 && length / 256 % 256 == b3;
    assert length / 16777216 == b1 && length / 65536 % 256 == b2;
    assert BigEndian(length) == s[1..5];
    assert s == [s[0]] + s[1..5] + s[5..];
  }

  /**
   A frame is refused exactly when its length field is below four or the frame exceeds one mebibyte or
   what is left of two mebibytes, and then nothing of it passes.
   */
  lemma RefusedExactlyBeyondLimits(kind: Byte, length: nat, rest: seq<Byte>, used: nat)
    requires length < 0x1_0000_0000
    ensures Admit(Declares(kind, length, rest), used) == Outcome([], Refused)
            <==> length < 4 || length + 1 > 1048576 || used + length + 1 > 2097152
  {
    DeclaresHeader(kind, length, rest);
    var s := Declares(kind, length, rest);
    if !Refuses(HeaderOf(s), used) && |s| >= length + 1 {
      assert |s[..length + 1]| >= 5;
    }
  }

  /** A message of the backend. */
  datatype Message = Message(kind: Byte, body: seq<Byte>)

  predicate Writable(m: Message) {
    4 + |m.body| < 0x1_0000_0000
  }

  function Encoded(m: Message): (s: seq<Byte>)
    requires Writable(m)
  {
    Declares(m.kind, 4 + |m.body|, m.body)
  }

  /** ReadyForQuery, which ends a response: kind 'Z' with one status byte. */
  predicate EndsResponse(m: Message) {
    m.kind as int == 'Z' as int && |m.body| == 1
  }

  function CountAfter(m: Message, used: nat): (n: nat) {
    if EndsResponse(m) then 0 else used + 5 + |m.body|
  }

  /** A message within the limits passes whole, whatever follows, and only ReadyForQuery restarts the count. */
  lemma MessagePasses(m: Message, more: seq<Byte>, used: nat)
    requires 5 + |m.body| <= 1048576 && used + 5 + |m.body| <= 2097152
    ensures var rest := Admit(more, CountAfter(m, used));
            Admit(Encoded(m) + more, used) == Outcome(Encoded(m) + rest.admitted, rest.tail)
  {
    DeclaresHeader(m.kind, 4 + |m.body|, m.body);
    FramePasses(Encoded(m), more, used);
  }

  ghost predicate AllWithin(messages: seq<Message>, used: nat) {
    messages == []
    || (&& 5 + |messages[0].body| <= 1048576 && used + 5 + |messages[0].body| <= 2097152
        && AllWithin(messages[1..], CountAfter(messages[0], used)))
  }

  ghost function EncodedAll(messages: seq<Message>, used: nat): (s: seq<Byte>)
    requires AllWithin(messages, used)
  {
    if messages == [] then [] else Encoded(messages[0]) + EncodedAll(messages[1..], CountAfter(messages[0], used))
  }

  ghost function CountAfterAll(messages: seq<Message>, used: nat): (n: nat)
    requires AllWithin(messages, used)
  {
    if messages == [] then used else CountAfterAll(messages[1..], CountAfter(messages[0], used))
  }

  /** Any sequence of messages within the limits passes whole, and the count goes on from where they leave it. */
  lemma {:induction false} MessagesPass(messages: seq<Message>, more: seq<Byte>, used: nat)
    requires AllWithin(messages, used)
    ensures var rest := Admit(more, CountAfterAll(messages, used));
            Admit(EncodedAll(messages, used) + more, used)
            == Outcome(EncodedAll(messages, used) + rest.admitted, rest.tail)
    decreases |messages|
  {
    if messages == [] {
      assert EncodedAll(messages, used) + more == more;
      assert forall s: seq<Byte> :: EncodedAll(messages, used) + s == s;
    } else {
      var first, after := Encoded(messages[0]), CountAfter(messages[0], used);
      var others := EncodedAll(messages[1..], after);
      MessagesPass(messages[1..], more, after);
      MessagePasses(messages[0], others + more, used);
      Sequences.Associates(first, others, more);
      Sequences.Associates(first, others, Admit(more, CountAfterAll(messages, used)).admitted);
    }
  }

  // One byte at a time -------------------------------------------------------------------------------

  function AfterHeader(admitted: seq<Byte>, header: seq<Byte>, used: nat): (o: Outcome)
    requires |header| == 5
  {
    var h := HeaderOf(header);
    if Refuses(h, used) then Outcome(admitted, Refused)
    else Outcome(admitted + header, if h.length == 4 then InHeader([], used + 5)
                                    else InBody(h.length - 4, used + FrameBytes(h), ReadyFrame(h)))
  }

  function AfterBody(left: nat, used: nat, ready: bool): (t: Tail) {
    if left == 0 then InHeader([], if ready then 0 else used) else InBody(left, used, ready)
  }

  function NextByte(o: Outcome, b: Byte): (r: Outcome) {
    match o.tail
    case InHeader(header, used) =>
      if |header| != 4 then o.(tail := InHeader(header + [b], used)) else AfterHeader(o.admitted, header + [b], used)
    case InBody(left, used, ready) =>
        Outcome(o.admitted + [b], AfterBody(if left == 0 then 0 else left - 1, used, ready))
    case Refused => o
  }

  /** The parser as a machine that takes bytes in turn. */
  function Feed(s: seq<Byte>): (o: Outcome) {
    if s == [] then Outcome([], InHeader([], 0)) else NextByte(Feed(s[..|s| - 1]), s[|s| - 1])
  }

  predicate Settled(t: Tail) {
    match t
    case InHeader(header, _) => |header| < 5
    case InBody(left, _, _) => left > 0
    case Refused => true
  }

  lemma {:induction false} TailSettled(s: seq<Byte>, used: nat)
    ensures Settled(Admit(s, used).tail)
    decreases |s|
  {
    if |s| >= 5 && !Refuses(HeaderOf(s), used) && |s| >= FrameBytes(HeaderOf(s)) {
      TailSettled(s[FrameBytes(HeaderOf(s))..], UsedAfter(HeaderOf(s), used));
    }
  }

  lemma AdmitHeader(header: seq<Byte>, used: nat)
    requires |header| == 5
    ensures Admit(header, used) == AfterHeader([], header, used)
  {
    assert header[..5] == header && header[5..] == [] && header + [] == header && [] + header == header;
  }

  lemma ResumesByte(admitted: seq<Byte>, t: Tail, b: Byte)
    requires Settled(t)
    ensures var later := Resume(t, [b]);
            Outcome(admitted + later.admitted, later.tail) == NextByte(Outcome(admitted, t), b)
  {
    assert admitted + [] == admitted;
    match t
    case InHeader(header, used) =>
      if |header| == 4 {
        AdmitHeader(header + [b], used);
        assert [] + (header + [b]) == header + [b];
      }
    case InBody(left, used, ready) =>
      if left == 1 {
        assert [b][..1] == [b] && [b][1..] == [] && [b] + [] == [b];
      }
    case Refused =>
  }

  /** Taking bytes in turn and parsing the whole stream come to the same. */
  lemma {:induction false} FeedIsAdmit(s: seq<Byte>)
    ensures Feed(s) == Admit(s, 0)
  {
    if s != [] {
      var init, b := s[..|s| - 1], s[|s| - 1];
      FeedIsAdmit(init);
      TailSettled(init, 0);
      AdmitResumes(init, [b], 0);
      ResumesByte(Admit(init, 0).admitted, Admit(init, 0).tail, b);
      assert s == init + [b];
    }
  }

  // The guard ----------------------------------------------------------------------------------------

  /** One answer of the inner stream; fewer bytes than asked for may come, none at all means the end. */
  datatype Answer = NotYet | Broken | Data(bytes: seq<Byte>)

  datatype Failure = Rejected | Inner | UnexpectedEof

  datatype Poll = Pending | Ready(bytes: seq<Byte>) | Failed(failure: Failure)

  /** `after` is what is left of `before` once whole answers were taken from it. */
  ghost predicate LeftOf(before: seq<Answer>, after: seq<Answer>) {
    exists n | 0 <= n <= |before| :: after == before[n..]
  }

  /** The last answer taken was `a`. */
  ghost predicate StoppedAt(before: seq<Answer>, after: seq<Answer>, a: Answer) {
    exists n | 0 <= n < |before| :: before[n] == a && after == before[n + 1..]
  }

  /** The stream gave no byte: it said so, or it has nothing more to say. */
  ghost predicate RanDry(before: seq<Answer>, after: seq<Answer>) {
    StoppedAt(before, after, Data([])) || after == []
  }

  /** A poll that passes nothing on has an answer of the stream to say so, unless the frame is refused. */
  ghost predicate EndedBy(before: seq<Answer>, after: seq<Answer>, r: Poll) {
    match r
    case Pending => StoppedAt(before, after, NotYet)
    case Failed(Inner) => StoppedAt(before, after, Broken)
    case Failed(UnexpectedEof) => RanDry(before, after)
    case Failed(Rejected) => true
    case Ready(bytes) => bytes != [] || RanDry(before, after)
  }

  lemma DropNext(answers: seq<Answer>, n: nat)
    requires n < |answers|
    ensures answers[n..][0] == answers[n] && answers[n..][1..] == answers[n + 1..]
  {
  }

  lemma TakenWhole(before: seq<Answer>, now: seq<Answer>)
    requires LeftOf(before, now) && now != []
    ensures LeftOf(before, now[1..]) && StoppedAt(before, now[1..], now[0])
  {
    var n :| 0 <= n <= |before| && now == before[n..];
    DropNext(before, n);
  }

  /** Every byte the inner stream has still to give. */
  function Bytes(answers: seq<Answer>): (s: seq<Byte>) {
    if answers == [] then []
    else (if answers[0].Data? then answers[0].bytes else []) + Bytes(answers[1..])
  }

  /** The guard's fields as a value. */
  datatype Guard = Guard(
    header: seq<Byte>, headerRead: nat, headerSent: nat, bodyLeft: nat, responseBytes: nat, ready: bool, rejected: bool)

  ghost predicate Shaped(g: Guard) {
    |g.header| == 5 && g.headerRead <= 5 && g.headerSent <= 5
  }

  /** Header bytes taken from the stream and not passed on. */
  ghost function Held(g: Guard): (h: seq<Byte>)
    requires Shaped(g)
    ensures |h| <= 5
  {
    if g.rejected then g.header else if g.headerRead < 5 then g.header[..g.headerRead] else g.header[g.headerSent..]
  }

  /** What the parser must have made of everything consumed, read off the guard's fields. */
  ghost function Expected(g: Guard, emitted: seq<Byte>): (o: Outcome)
    requires Shaped(g)
  {
    if g.rejected then Outcome(emitted, Refused)
    else if g.headerRead < 5 then Outcome(emitted, InHeader(Held(g), g.responseBytes))
    else if g.bodyLeft == 0 then Outcome(emitted + Held(g), InHeader([], g.responseBytes))
    else Outcome(emitted + Held(g), InBody(g.bodyLeft, g.responseBytes, g.ready))
  }

  ghost predicate InOrder(g: Guard) {
    if g.rejected then g.headerRead == 5 && g.headerSent == 0
    else if g.headerRead < 5 then g.headerSent == 0 && g.bodyLeft == 0 && !g.ready
    else g.bodyLeft == 0 ==> g.headerSent < 5 && !g.ready
  }

  ghost predicate Coherent(g: Guard, consumed: seq<Byte>, emitted: seq<Byte>) {
    && Shaped(g) && InOrder(g) && Feed(consumed) == Expected(g, emitted)
    && (g.rejected ==> consumed == emitted + g.header)
  }

  /** What was consumed is what was passed on and the header bytes held. */
  lemma NothingLost(g: Guard, consumed: seq<Byte>, emitted: seq<Byte>)
    requires Coherent(g, consumed, emitted)
    ensures consumed == emitted + Held(g)
  {
    FeedIsAdmit(consumed);
    AdmitsAPrefix(consumed, 0);
  }

  /** The guard after a header is accepted or refused. */
  function Judged(g: Guard): (r: Guard)
    requires |g.header| == 5
  {
    var h := HeaderOf(g.header);
    if Refuses(h, g.responseBytes) then g.(rejected := true)
    else g.(responseBytes := g.responseBytes + FrameBytes(h), bodyLeft := h.length - 4, ready := ReadyFrame(h))
  }

  function Completed(g: Guard): (r: Guard) {
    g.(responseBytes := if g.ready then 0 else g.responseBytes,
       headerRead := 0, headerSent := 0, bodyLeft := 0, ready := false)
  }

  lemma FeedNext(s: seq<Byte>, b: Byte)
    ensures Feed(s + [b]) == NextByte(Feed(s), b)
  {
    assert (s + [b])[..|s|] == s;
  }

  lemma {:induction false} HeaderGrows(consumed: seq<Byte>, held: seq<Byte>, used: nat, part: seq<Byte>)
    requires Feed(consumed).tail == InHeader(held, used) && |held| + |part| < 5
    ensures Feed(consumed + part) == Feed(consumed).(tail := InHeader(held + part, used))
  {
    if part == [] {
      assert consumed + part == consumed && held + part == held;
    } else {
      var init, b := part[..|part| - 1], part[|part| - 1];
      HeaderGrows(consumed, held, used, init);
      FeedNext(consumed + init, b);
      assert consumed + part == (consumed + init) + [b] && held + part == (held + init) + [b];
    }
  }

  lemma LastHeaderByte(o: Outcome, held: seq<Byte>, used: nat, b: Byte, header: seq<Byte>)
    requires o.tail == InHeader(held, used) && |held| == 4 && header == held + [b]
    ensures NextByte(o, b) == AfterHeader(o.admitted, header, used)
  {
  }

  lemma Split(s: seq<Byte>, part: seq<Byte>)
    requires part != []
    ensures s + part == (s + part[..|part| - 1]) + [part[|part| - 1]]
  {
  }

  lemma HeaderCompletes(consumed: seq<Byte>, held: seq<Byte>, used: nat, part: seq<Byte>)
    requires Feed(consumed).tail == InHeader(held, used) && part != [] && |held| + |part| == 5
    ensures Feed(consumed + part) == AfterHeader(Feed(consumed).admitted, held + part, used)
  {
    var init, b := part[..|part| - 1], part[|part| - 1];
    HeaderGrows(consumed, held, used, init);
    Split(consumed, part);
    Split(held, part);
    FeedNext(consumed + init, b);
    LastHeaderByte(Feed(consumed + init), held + init, used, b, held + part);
  }

  lemma {:induction false} BodyGrows(consumed: seq<Byte>, left: nat, used: nat, ready: bool, bytes: seq<Byte>)
    requires Feed(consumed).tail == InBody(left, used, ready) && 0 < |bytes| <= left
    ensures Feed(consumed + bytes) == Outcome(Feed(consumed).admitted + bytes, AfterBody(left - |bytes|, used, ready))
  {
    var init, b := bytes[..|bytes| - 1], bytes[|bytes| - 1];
    assert consumed + bytes == (consumed + init) + [b];
    FeedNext(consumed + init, b);
    if init == [] {
      assert consumed + init == consumed && bytes == [b];
    } else {
      BodyGrows(consumed, left, used, ready, init);
      var admitted := Feed(consumed).admitted;
      assert (admitted + init) + [b] == admitted + bytes;
    }
  }

  lemma JudgedMeets(g: Guard, header: seq<Byte>, emitted: seq<Byte>)
    requires Shaped(g) && InOrder(g) && !g.rejected && g.headerRead < 5 && |header| == 5
    ensures var r := Judged(g.(header := header, headerRead := 5));
            && Shaped(r) && InOrder(r) && r.header == header
            && Expected(r, emitted) == AfterHeader(emitted, header, g.responseBytes)
  {
  }

  lemma PartTaken(g: Guard, consumed: seq<Byte>, emitted: seq<Byte>, part: seq<Byte>, header: seq<Byte>)
    requires Coherent(g, consumed, emitted) && !g.rejected && g.headerRead + |part| < 5
    requires |header| == 5 && header[..g.headerRead + |part|] == g.header[..g.headerRead] + part
    ensures Coherent(g.(header := header, headerRead := g.headerRead + |part|), consumed + part, emitted)
  {
    HeaderGrows(consumed, g.header[..g.headerRead], g.responseBytes, part);
  }

  lemma HeaderTaken(g: Guard, consumed: seq<Byte>, emitted: seq<Byte>, part: seq<Byte>, header: seq<Byte>)
    requires Coherent(g, consumed, emitted) && !g.rejected && g.headerRead < 5 && g.headerRead + |part| == 5
    requires header == g.header[..g.headerRead] + part
    ensures Coherent(Judged(g.(header := header, headerRead := 5)), consumed + part, emitted)
  {
    var held := g.header[..g.headerRead];
    Regroup(g, consumed, emitted, held, part);
    HeaderCompletes(consumed, held, g.responseBytes, part);
    JudgedMeets(g, header, emitted);
    Restored(Judged(g.(header := header, headerRead := 5)), consumed + part, emitted);
  }

  lemma Regroup(g: Guard, consumed: seq<Byte>, emitted: seq<Byte>, held: seq<Byte>, part: seq<Byte>)
    requires Coherent(g, consumed, emitted) && Held(g) == held
    ensures consumed + part == emitted + (held + part)
  {
    NothingLost(g, consumed, emitted);
  }

  /** The pieces of coherence put together. */
  lemma Restored(g: Guard, consumed: seq<Byte>, emitted: seq<Byte>)
    requires Shaped(g) && InOrder(g) && Feed(consumed) == Expected(g, emitted)
    requires g.rejected ==> consumed == emitted + g.header
    ensures Coherent(g, consumed, emitted)
  {
  }

  /** The guard after `n` more header bytes are passed on. */
  function Moved(g: Guard, n: nat): (r: Guard) {
    var moved := g.(headerSent := g.headerSent + n);
    if moved.headerSent == 5 && g.bodyLeft == 0 then Completed(moved) else moved
  }

  lemma MovedMeets(g: Guard, emitted: seq<Byte>, n: nat)
    requires Shaped(g) && InOrder(g) && !g.rejected && g.headerRead == 5 && 0 < n <= 5 - g.headerSent
    ensures var r, sent := Moved(g, n), g.header[g.headerSent..g.headerSent + n];
            Shaped(r) && InOrder(r) && !r.rejected && Expected(r, emitted + sent) == Expected(g, emitted)
  {
    var sent, left := g.header[g.headerSent..g.headerSent + n], g.header[g.headerSent + n..];
    assert g.header[g.headerSent..] == sent + left;
    assert emitted + (sent + left) == (emitted + sent) + left;
    assert (emitted + sent) + [] == emitted + sent;
  }

  lemma HeaderSent(g: Guard, consumed: seq<Byte>, emitted: seq<Byte>, n: nat)
    requires Coherent(g, consumed, emitted) && !g.rejected && g.headerRead == 5 && 0 < n <= 5 - g.headerSent
    ensures Coherent(Moved(g, n), consumed, emitted + g.header[g.headerSent..g.headerSent + n])
  {
    MovedMeets(g, emitted, n);
    Restored(Moved(g, n), consumed, emitted + g.header[g.headerSent..g.headerSent + n]);
  }

  /** The guard after body bytes are passed through. */
  function Drained(g: Guard, n: nat): (r: Guard)
    requires n <= g.bodyLeft
  {
    var moved := g.(bodyLeft := g.bodyLeft - n);
    if moved.bodyLeft == 0 then Completed(moved) else moved
  }

  lemma DrainedMeets(g: Guard, emitted: seq<Byte>, n: nat)
    requires Shaped(g) && !g.rejected && g.headerRead == 5 && g.headerSent == 5 && 0 < n <= g.bodyLeft
    ensures var r := Drained(g, n);
            && Shaped(r) && InOrder(r) && !r.rejected
            && Expected(r, emitted) == Outcome(emitted, AfterBody(g.bodyLeft - n, g.responseBytes, g.ready))
  {
    assert g.header[5..] == [] && emitted + [] == emitted;
  }

  lemma BodyPassed(g: Guard, consumed: seq<Byte>, emitted: seq<Byte>, bytes: seq<Byte>)
    requires Coherent(g, consumed, emitted) && !g.rejected && g.headerRead == 5 && g.headerSent == 5
    requires 0 < |bytes| <= g.bodyLeft
    ensures Coherent(Drained(g, |bytes|), consumed + bytes, emitted + bytes)
  {
    assert g.header[5..] == [] && emitted + [] == emitted;
    BodyGrows(consumed, g.bodyLeft, g.responseBytes, g.ready, bytes);
    DrainedMeets(g, emitted + bytes, |bytes|);
    Restored(Drained(g, |bytes|), consumed + bytes, emitted + bytes);
  }

  class Guarded {
    var stream: seq<Answer>
    var header: array<Byte>
    var headerRead: nat
    var headerSent: nat
    var bodyLeft: nat
    var responseBytes: nat
    var ready: bool
    var rejected: bool
    ghost var consumed: seq<Byte>
    ghost var emitted: seq<Byte>

    ghost function View(): (g: Guard)
      reads this, header
    {
      Guard(header[..], headerRead, headerSent, bodyLeft, responseBytes, ready, rejected)
    }

    ghost predicate Valid()
      reads this, header
    {
      Coherent(View(), consumed, emitted)
    }

    constructor (answers: seq<Answer>)
      ensures Valid() && stream == answers && consumed == [] && emitted == [] && !rejected
      ensures fresh(header)
    {
      stream := answers;
      header := new Byte[5](_ => 0);
      headerRead, headerSent, bodyLeft, responseBytes := 0, 0, 0, 0;
      ready, rejected := false, false;
      consumed, emitted := [], [];
    }

    /** Ask the inner stream for at most `capacity` bytes. */
    method InnerRead(capacity: nat) returns (answer: Answer)
      requires capacity > 0
      modifies this`stream
      ensures answer.Data? ==> |answer.bytes| <= capacity && old(Bytes(stream)) == answer.bytes + Bytes(stream)
      ensures !answer.Data? ==> Bytes(stream) == old(Bytes(stream))
      ensures old(stream) == [] ==> answer == Data([]) && stream == []
      ensures old(stream) != [] && !(answer.Data? && answer.bytes != []) ==>
                answer == old(stream)[0] && stream == old(stream)[1..]
      ensures answer.Data? && 0 < |answer.bytes| < capacity ==> old(stream) != [] && stream == old(stream)[1..]
    {
      if stream == [] {
        return Data([]);
      }
      answer := stream[0];
      if answer.Data? && |answer.bytes| > capacity {
        var all := answer.bytes;
        var rest := stream[1..];
        stream := [Data(all[capacity..])] + rest;
        assert stream[1..] == rest;
        assert all == all[..capacity] + all[capacity..];
        answer := Data(all[..capacity]);
      } else {
        stream := stream[1..];
      }
    }

    method FrameComplete()
      modifies this`responseBytes, this`headerRead, this`headerSent, this`bodyLeft, this`ready
      ensures View() == Completed(old(View()))
    {
      if ready {
        responseBytes := 0;
      }
      headerRead, headerSent, bodyLeft, ready := 0, 0, 0, false;
    }

    /** Store header bytes at the place reached so far. */
    method StoreHeader(part: seq<Byte>)
      requires header.Length == 5 && headerRead + |part| <= 5
      modifies header
      ensures header[..headerRead + |part|] == old(header[..headerRead]) + part
    {
      for i := 0 to |part|
        invariant header[..headerRead + i] == old(header[..headerRead]) + part[..i]
      {
        header[headerRead + i] := part[i];
      }
      assert part[..|part|] == part;
    }

    /** Header bytes that do not complete the header. */
    method TakePart(part: seq<Byte>)
      requires Valid() && !rejected && headerRead + |part| < 5
      modifies this`headerRead, this`consumed, header
      ensures Valid() && consumed == old(consumed) + part && headerRead == old(headerRead) + |part|
    {
      ghost var before := View();
      StoreHeader(part);
      PartTaken(before, consumed, emitted, part, header[..]);
      headerRead := headerRead + |part|;
      consumed := consumed + part;
    }

    /** Store the rest of the header and accept or refuse it. */
    method CompleteHeader(part: seq<Byte>)
      requires header.Length == 5 && headerRead + |part| == 5
      modifies this`headerRead, this`responseBytes, this`bodyLeft, this`ready, this`rejected, header
      ensures var g := old(View());
              View() == Judged(g.(header := g.header[..g.headerRead] + part, headerRead := 5))
      ensures headerRead == 5
    {
      StoreHeader(part);
      assert header[..5] == header[..];
      headerRead := 5;
      JudgeHeader();
    }

    /** With the judged header the guard is coherent with one part more, which is already counted. */
    method SettleHeader(part: seq<Byte>)
      requires |part| <= |consumed| && part == consumed[|consumed| - |part|..]
      requires Coherent(View(), consumed[..|consumed| - |part|], emitted) && !rejected && headerRead < 5
               && headerRead + |part| == 5
      modifies this`headerRead, this`responseBytes, this`bodyLeft, this`ready, this`rejected, header
      ensures Valid() && headerRead == 5
    {
      ghost var g, before := View(), consumed[..|consumed| - |part|];
      assert before + part == consumed;
      HeaderTaken(g, before, emitted, part, g.header[..g.headerRead] + part);
      CompleteHeader(part);
    }

    /** The bytes that complete the header. */
    method TakeLast(part: seq<Byte>)
      requires Valid() && !rejected && headerRead < 5 && headerRead + |part| == 5
      modifies this`headerRead, this`consumed, this`responseBytes, this`bodyLeft, this`ready, this`rejected, header
      ensures Valid() && consumed == old(consumed) + part && headerRead == 5
    {
      ghost var g := View();
      consumed := consumed + part;
      assert consumed[..|consumed| - |part|] == old(consumed) && View() == g;
      SettleHeader(part);
    }

    /** Take header bytes; a whole header is then accepted or refused. */
    method TakeHeader(part: seq<Byte>)
      requires Valid() && !rejected && headerRead < 5 && 0 < |part| <= 5 - headerRead
      modifies this`headerRead, this`consumed, this`responseBytes, this`bodyLeft, this`ready, this`rejected, header
      ensures Valid() && consumed == old(consumed) + part && headerRead == old(headerRead) + |part|
      ensures rejected ==> headerRead == 5
    {
      if headerRead + |part| < 5 {
        TakePart(part);
      } else {
        TakeLast(part);
      }
    }

    method JudgeHeader()
      requires header.Length == 5
      modifies this`responseBytes, this`bodyLeft, this`ready, this`rejected
      ensures View() == Judged(old(View()))
    {
      var h := HeaderOf(header[..]);
      var frameBytes := h.length + 1;
      if h.length < 4 || frameBytes > FRAME_LIMIT || responseBytes + frameBytes > RESPONSE_LIMIT {
        rejected := true;
      } else {
        responseBytes := responseBytes + frameBytes;
        bodyLeft := h.length - 4;
        ready := h.kind == READY_FOR_QUERY && h.length == 5;
      }
    }

    method SendHeader(room: nat) returns (sent: seq<Byte>)
      requires Valid() && !rejected && headerRead == 5 && headerSent < 5 && room > 0
      modifies this
      ensures Valid() && !rejected && header == old(header) && stream == old(stream) && consumed == old(consumed)
      ensures emitted == old(emitted) + sent && 0 < |sent| <= room
    {
      var n := if room < 5 - headerSent then room else 5 - headerSent;
      HeaderSent(View(), consumed, emitted, n);
      sent := header[headerSent..headerSent + n];
      assert sent == header[..][headerSent..headerSent + n];
      headerSent := headerSent + n;
      emitted := emitted + sent;
      if headerSent == 5 && bodyLeft == 0 {
        FrameComplete();
      }
    }

    method PassBody(bytes: seq<Byte>)
      requires Valid() && !rejected && headerRead == 5 && headerSent == 5 && 0 < |bytes| <= bodyLeft
      modifies this
      ensures Valid() && !rejected && header == old(header) && stream == old(stream)
      ensures consumed == old(consumed) + bytes && emitted == old(emitted) + bytes
    {
      BodyPassed(View(), consumed, emitted, bytes);
      consumed := consumed + bytes;
      emitted := emitted + bytes;
      bodyLeft := bodyLeft - |bytes|;
      if bodyLeft == 0 {
        FrameComplete();
      }
    }

    /** Everything the inner stream gives in the end. */
    ghost function Total(): (s: seq<Byte>)
      reads this
    {
      consumed + Bytes(stream)
    }

    /** A read that says what becomes of the total once its bytes are counted as consumed. */
    method Draw(capacity: nat) returns (answer: Answer)
      requires capacity > 0
      modifies this`stream
      ensures answer.Data? && answer.bytes != [] ==>
                |answer.bytes| <= capacity && old(Total()) == (consumed + answer.bytes) + Bytes(stream)
      ensures !(answer.Data? && answer.bytes != []) ==> Total() == old(Total())
      ensures old(stream) == [] ==> answer == Data([]) && stream == []
      ensures old(stream) != [] && !(answer.Data? && answer.bytes != []) ==>
                answer == old(stream)[0] && stream == old(stream)[1..]
      ensures answer.Data? && 0 < |answer.bytes| < capacity ==> old(stream) != [] && stream == old(stream)[1..]
    {
      answer := InnerRead(capacity);
      if answer.Data? {
        Sequences.Associates(consumed, answer.bytes, Bytes(stream));
      }
    }

    /** One read into the header. */
    method PullHeader() returns (answer: Answer)
      requires Valid() && !rejected && headerRead < 5
      modifies this, header
      ensures Valid() && header == old(header) && emitted == old(emitted) && Total() == old(Total())
      ensures headerSent == old(headerSent)
      ensures if answer.Data? && answer.bytes != [] then headerRead > old(headerRead) && (rejected ==> headerRead == 5)
              else headerRead == old(headerRead) && !rejected
      ensures old(stream) == [] ==> answer == Data([]) && stream == []
      ensures old(stream) != [] && !(answer.Data? && answer.bytes != []) ==>
                answer == old(stream)[0] && stream == old(stream)[1..]
      ensures old(stream) != [] && headerRead < 5 ==> stream == old(stream)[1..]
    {
      answer := Draw(5 - headerRead);
      if answer.Data? && answer.bytes != [] {
        TakeHeader(answer.bytes);
      }
    }

    /** One read of body bytes, straight through. */
    method PullBody(room: nat) returns (answer: Answer)
      requires Valid() && !rejected && headerRead == 5 && headerSent == 5 && room > 0
      modifies this
      ensures Valid() && header == old(header) && !rejected && Total() == old(Total())
      ensures if answer.Data? && answer.bytes != [] then
              emitted == old(emitted) + answer.bytes && |answer.bytes| <= room
              else emitted == old(emitted) && headerRead == 5
      ensures !(answer.Data? && answer.bytes != []) ==>
                if old(stream) == [] then answer == Data([]) && stream == []
                else answer == old(stream)[0] && stream == old(stream)[1..]
    {
      var limit := if room < bodyLeft then room else bodyLeft;
      answer := Draw(limit);
      if answer.Data? && answer.bytes != [] {
        PassBody(answer.bytes);
      }
    }

    /** Read header bytes until the header is whole and accepted, or there is an answer for the caller. */
    method FillHeader() returns (early: Poll, stop: bool)
      requires Valid() && !rejected
      modifies this, header
      ensures Valid() && header == old(header) && emitted == old(emitted) && Total() == old(Total())
      ensures !stop ==> headerRead == 5 && !rejected
      ensures stop ==> (rejected <==> early == Failed(Rejected))
      ensures stop && early.Ready? ==> early == Ready([]) && headerRead == 0
      ensures stop && early == Failed(UnexpectedEof) ==> 0 < headerRead
      ensures old(stream) == [] && old(headerRead) == 0 ==> stop && early == Ready([])
      ensures stop ==> EndedBy(old(stream), stream, early)
      ensures old(headerRead) == 5 ==> stream == old(stream)
      ensures headerSent == old(headerSent)
    {
      stop, early := false, Pending;
      assert stream == stream[0..];
      while headerRead < 5 && !stop
        invariant Valid() && header == old(header) && emitted == old(emitted) && Total() == old(Total())
        invariant !stop ==> !rejected
        invariant stop ==> (rejected <==> early == Failed(Rejected))
        invariant stop && early.Ready? ==> early == Ready([]) && headerRead == 0
        invariant stop && early == Failed(UnexpectedEof) ==> 0 < headerRead
        invariant stop ==> EndedBy(old(stream), stream, early)
        invariant !stop && headerRead < 5 ==> LeftOf(old(stream), stream)
        invariant old(headerRead) == 5 ==> stream == old(stream)
        invariant headerSent == old(headerSent)
        invariant old(stream) == [] && old(headerRead) == 0 ==>
                    headerRead == 0 && stream == [] && (stop ==> early == Ready([]))
        decreases 5 - headerRead, !stop
      {
        ghost var now := stream;
        var answer := PullHeader();
        if now != [] {
          TakenWhole(old(stream), now);
        }
        if answer.NotYet? {
          early, stop := Pending, true;
        } else if answer.Broken? {
          early, stop := Failed(Inner), true;
        } else if answer.bytes == [] {
          early, stop := if headerRead == 0 then Ready([]) else Failed(UnexpectedEof), true;
        } else if rejected {
          early, stop := Failed(Rejected), true;
        }
      }
    }

    /**
     One poll. Bytes are conserved, only admitted bytes come out, a refusal is permanent, and a clean
     end of stream is reported only between frames with nothing held.
     */
    method PollRead(room: nat) returns (r: Poll)
      requires Valid()
      modifies this, header
      ensures Valid() && header == old(header) && Total() == old(Total())
      ensures emitted == old(emitted) + (if r.Ready? then r.bytes else [])
      ensures r.Ready? ==> |r.bytes| <= room
      ensures rejected <==> r == Failed(Rejected)
      ensures old(rejected) ==> rejected && consumed == old(consumed)
      ensures r == Ready([]) && room > 0 ==> headerRead == 0
      ensures r == Failed(UnexpectedEof) ==> headerRead > 0
      ensures old(stream) == [] && room > 0 && !old(rejected) && old(headerRead) == 0 ==> r == Ready([])
      ensures room > 0 && !old(rejected) ==> EndedBy(old(stream), stream, r)
    {
      if rejected {
        r := Failed(Rejected);
      } else if room == 0 {
        r := Ready([]);
      } else {
        var early, stop := FillHeader();
        if stop {
          r := early;
        } else if headerSent < 5 {
          var sent := SendHeader(room);
          r := Ready(sent);
        } else {
          assert stream == old(stream) == old(stream)[0..];
          var answer := PullBody(room);
          if old(stream) != [] {
            TakenWhole(old(stream), old(stream));
          }
          if answer.NotYet? {
            r := Pending;
          } else if answer.Broken? {
            r := Failed(Inner);
          } else if answer.bytes == [] {
            r := Failed(UnexpectedEof);
          } else {
            r := Ready(answer.bytes);
          }
        }
      }
    }
  }

  /** Between polls the guard stands at a frame boundary exactly when it has read no header byte. */
  lemma BoundaryExactlyWhenNothingRead(g: Guard, consumed: seq<Byte>, emitted: seq<Byte>)
    requires Coherent(g, consumed, emitted) && !g.rejected
    ensures g.headerRead == 0 <==> emitted == consumed && Admit(consumed, 0).tail == InHeader([], g.responseBytes)
  {
    NothingLost(g, consumed, emitted);
    FeedIsAdmit(consumed);
  }

  /**
   In every reachable state, with everything the stream will ever give counted in: what passed is what
   the whole-stream parser admits, short of at most five header bytes still held.
   */
  lemma PassesOnlyAdmitted(g: Guarded)
    requires g.Valid()
    ensures var all := Admit(g.consumed + Bytes(g.stream), 0);
            && g.emitted <= all.admitted
            && g.consumed == g.emitted + Held(g.View())
            && (g.rejected ==> all == Outcome(g.emitted, Refused))
            && (Bytes(g.stream) == [] && g.headerRead < 5 ==> g.emitted == all.admitted)
  {
    AdmitIsMonotone(g.consumed, Bytes(g.stream), 0);
    NothingLost(g.View(), g.consumed, g.emitted);
    FeedIsAdmit(g.consumed);
    assert g.emitted <= Admit(g.consumed, 0).admitted;
    assert g.consumed + [] == g.consumed;
  }
}
