/**
 Server-sent events. The specification normalises line ends over the whole text, cuts it into lines
 and the lines into blocks, and interprets one block at a time; the incremental parser is proved to
 emit the same records for every way the text arrives, and to refuse exactly the texts that break a
 limit. Text is a sequence of code points.
 */
module SseParser {
  import opened Common

  const LIMIT: nat := 264 * 1024
  const ID_LIMIT: nat := 512

  // Sizes --------------------------------------------------------------------------------------------

  function CharBytes(c: char): (n: nat) {
    var code := c as int;
    if code > 0xffff then 4 else if code > 0x7ff then 3 else if code > 0x7f then 2 else 1
  }

  function Utf8(s: string): (n: nat) {
    if s == [] then 0 else Utf8(s[..|s| - 1]) + CharBytes(s[|s| - 1])
  }

  function Utf16(s: string): (n: nat) {
    if s == [] then 0 else Utf16(s[..|s| - 1]) + (if s[|s| - 1] as int > 0xffff then 2 else 1)
  }

  // Normalising and splitting ------------------------------------------------------------------------

  /** Every CRLF, CR and LF becomes one LF. */
  function Normalise(text: string): (r: string)
    decreases |text|
  {
    if text == [] then []
    else if text[0] == '\r' then ['\n'] + Normalise(if |text| > 1 && text[1] == '\n' then text[2..] else text[1..])
    else [text[0]] + Normalise(text[1..])
  }

  predicate EndsWithReturn(text: string) {
    text != [] && text[|text| - 1] == '\r'
  }

  /** One more code point: a line feed after a carriage return adds nothing. */
  lemma {:induction false} NormaliseNext(text: string, c: char)
    ensures Normalise(text + [c])
            == if EndsWithReturn(text) && c == '\n' then Normalise(text)
               else Normalise(text) + [if c == '\r' then '\n' else c]
    decreases |text|
  {
    if text == [] {
      assert text + [c] == [c] && [c][1..] == [];
    } else if text[0] == '\r' && |text| > 1 && text[1] == '\n' {
      assert (text + [c])[2..] == text[2..] + [c];
      NormaliseNext(text[2..], c);
    } else if |text| == 1 {
      assert text[1..] == [] && (text + [c])[1..] == [c] && [c][1..] == [] && (text + [c])[2..] == [];
    } else {
      assert (text + [c])[1..] == text[1..] + [c];
      NormaliseNext(text[1..], c);
    }
  }

  /** The finished lines of a normalised text. */
  function Lines(text: string): (r: seq<string>) {
    if text == [] then []
    else if text[|text| - 1] == '\n' then Lines(text[..|text| - 1]) + [Rest(text[..|text| - 1])]
    else Lines(text[..|text| - 1])
  }

  /** The unfinished line at the end. */
  function Rest(text: string): (r: string) {
    if text == [] || text[|text| - 1] == '\n' then [] else Rest(text[..|text| - 1]) + [text[|text| - 1]]
  }

  function Unsplit(lines: seq<string>): (text: string) {
    if lines == [] then [] else Unsplit(lines[..|lines| - 1]) + lines[|lines| - 1] + ['\n']
  }

  /** Splitting loses nothing and leaves no line end inside a line, which determines it. */
  lemma {:induction false} LinesRoundTrip(text: string)
    ensures Unsplit(Lines(text)) + Rest(text) == text
    ensures '\n' !in Rest(text) && forall line | line in Lines(text) :: '\n' !in line
  {
    if text != [] {
      var init, last := text[..|text| - 1], text[|text| - 1];
      LinesRoundTrip(init);
      assert text == init + [last];
      if last == '\n' {
        var lines := Lines(init) + [Rest(init)];
        assert lines[..|lines| - 1] == Lines(init);
      }
    }
  }

  // Blocks -------------------------------------------------------------------------------------------

  /** Runs of lines closed by an empty line. */
  function Blocks(lines: seq<string>): (r: seq<seq<string>>) {
    if lines == [] then []
    else if lines[|lines| - 1] == "" then Blocks(lines[..|lines| - 1]) + [Open(lines[..|lines| - 1])]
    else Blocks(lines[..|lines| - 1])
  }

  /** The lines after the last empty one. */
  function Open(lines: seq<string>): (r: seq<string>) {
    if lines == [] || lines[|lines| - 1] == "" then [] else Open(lines[..|lines| - 1]) + [lines[|lines| - 1]]
  }

  function Unblock(blocks: seq<seq<string>>): (lines: seq<string>) {
    if blocks == [] then [] else Unblock(blocks[..|blocks| - 1]) + blocks[|blocks| - 1] + [""]
  }

  lemma {:induction false} BlocksRoundTrip(lines: seq<string>)
    ensures Unblock(Blocks(lines)) + Open(lines) == lines
    ensures "" !in Open(lines) && forall block | block in Blocks(lines) :: "" !in block
  {
    if lines != [] {
      var init, last := lines[..|lines| - 1], lines[|lines| - 1];
      BlocksRoundTrip(init);
      assert lines == init + [last];
      if last == "" {
        var blocks := Blocks(init) + [Open(init)];
        assert blocks[..|blocks| - 1] == Blocks(init);
      }
    }
  }

  // Interpreting a block -----------------------------------------------------------------------------

  datatype Key = DataKey | EventKey | IdKey | OtherKey

  datatype Field = Comment | Field(key: Key, value: string)

  function KeyOf(name: string): (k: Key) {
    if name == "data" then DataKey else if name == "event" then EventKey else if name == "id" then IdKey else OtherKey
  }

  function Colon(line: string): (i: nat)
    ensures i <= |line| && ':' !in line[..i] && (i < |line| ==> line[i] == ':')
  {
    if line == [] || line[0] == ':' then 0
    else
      var i := 1 + Colon(line[1..]);
      assert line[..i] == [line[0]] + line[1..][..i - 1];
      i
  }

  function Unspaced(value: string): (r: string) {
    if value != [] && value[0] == ' ' then value[1..] else value
  }

  function FieldOf(line: string): (f: Field) {
    var i := Colon(line);
    if line != [] && line[0] == ':' then Comment
    else Field(KeyOf(line[..i]), if i == |line| then "" else Unspaced(line[i + 1..]))
  }

  predicate Sets(line: string, key: Key) {
    FieldOf(line).Field? && FieldOf(line).key == key
  }

  /** Values of one key, in order. */
  function Values(block: seq<string>, key: Key): (r: seq<string>) {
    if block == [] then []
    else
      var line := block[|block| - 1];
      Values(block[..|block| - 1], key) + (if Sets(line, key) then [FieldOf(line).value] else [])
  }

  function Latest(block: seq<string>, key: Key): (r: Option<string>) {
    var values := Values(block, key);
    if values == [] then None else Some(values[|values| - 1])
  }

  function Join(values: seq<string>): (r: string) {
    if values == [] then []
    else if |values| == 1 then values[0]
    else Join(values[..|values| - 1]) + ['\n'] + values[|values| - 1]
  }

  datatype Record = Record(event: string, data: string, id: Option<string>)

  function EventName(event: string): (r: string) {
    if event == "" then "message" else event
  }

  function OrEmpty(value: Option<string>): (r: string) {
    if value.Some? then value.value else ""
  }

  /** A block is one record if it carries data or an id. */
  function Interpret(block: seq<string>): (r: seq<Record>) {
    var data, id := Values(block, DataKey), Latest(block, IdKey);
    if data != [] || id.Some? then [Record(EventName(OrEmpty(Latest(block, EventKey))), Join(data), id)] else []
  }

  function InterpretAll(blocks: seq<seq<string>>): (r: seq<Record>) {
    if blocks == [] then [] else InterpretAll(blocks[..|blocks| - 1]) + Interpret(blocks[|blocks| - 1])
  }

  function Records(text: string): (r: seq<Record>) {
    InterpretAll(Blocks(Lines(Normalise(text))))
  }

  // Limits -------------------------------------------------------------------------------------------

  predicate Control(c: char) {
    c as int <= 0x1f || c as int == 0x7f
  }

  predicate GoodId(value: string) {
    Utf16(value) <= ID_LIMIT && forall c | c in value :: !Control(c)
  }

  predicate GoodLine(line: string) {
    Sets(line, IdKey) ==> GoodId(FieldOf(line).value)
  }

  /** Bytes of finished lines with their line ends. */
  function Size(block: seq<string>): (n: nat) {
    if block == [] then 0 else Size(block[..|block| - 1]) + Utf8(block[|block| - 1]) + 1
  }

  ghost predicate GoodBlock(block: seq<string>) {
    Size(block) + 1 <= LIMIT && forall line | line in block :: GoodLine(line)
  }

  ghost predicate GoodParts(blocks: seq<seq<string>>, open: seq<string>, rest: string) {
    && (forall block | block in blocks :: GoodBlock(block))
    && (forall line | line in open :: GoodLine(line))
    && Size(open) + Utf8(rest) <= LIMIT
  }

  ghost predicate GoodText(normal: string) {
    GoodParts(Blocks(Lines(normal)), Open(Lines(normal)), Rest(normal))
  }

  /** Every block, with the empty line that closes it, and the unfinished one fit; every id is usable. */
  ghost predicate Acceptable(text: string) {
    GoodText(Normalise(text))
  }

  // One code point at a time -------------------------------------------------------------------------

  lemma NextOfLine(normal: string, c: char)
    requires c != '\n'
    ensures Lines(normal + [c]) == Lines(normal) && Rest(normal + [c]) == Rest(normal) + [c]
    ensures Utf8(Rest(normal) + [c]) == Utf8(Rest(normal)) + CharBytes(c)
  {
    assert (normal + [c])[..|normal|] == normal;
    assert (Rest(normal) + [c])[..|Rest(normal)|] == Rest(normal);
  }

  lemma EndOfLine(normal: string)
    ensures Lines(normal + ['\n']) == Lines(normal) + [Rest(normal)] && Rest(normal + ['\n']) == []
  {
    assert (normal + ['\n'])[..|normal|] == normal;
  }

  lemma NextLine(lines: seq<string>, line: string)
    ensures line == "" ==> Blocks(lines + [line]) == Blocks(lines) + [Open(lines)] && Open(lines + [line]) == []
    ensures line != "" ==> Blocks(lines + [line]) == Blocks(lines) && Open(lines + [line]) == Open(lines) + [line]
  {
    assert (lines + [line])[..|lines|] == lines;
  }

  lemma NextOfBlock(block: seq<string>, line: string)
    ensures Size(block + [line]) == Size(block) + Utf8(line) + 1
  {
    assert (block + [line])[..|block|] == block;
  }

  lemma NextValue(block: seq<string>, line: string, key: Key)
    ensures Values(block + [line], key) == Values(block, key) + (if Sets(line, key) then [FieldOf(line).value] else [])
    ensures Latest(block + [line], key) == if Sets(line, key) then Some(FieldOf(line).value) else Latest(block, key)
  {
    assert (block + [line])[..|block|] == block;
  }

  lemma NextBlock(blocks: seq<seq<string>>, block: seq<string>)
    ensures InterpretAll(blocks + [block]) == InterpretAll(blocks) + Interpret(block)
  {
    assert (blocks + [block])[..|blocks|] == blocks;
  }

  lemma GoodChar(blocks: seq<seq<string>>, open: seq<string>, rest: string, c: char)
    ensures GoodParts(blocks, open, rest + [c]) ==> GoodParts(blocks, open, rest)
    ensures GoodParts(blocks, open, rest) ==>
              (GoodParts(blocks, open, rest + [c]) <==> Size(open) + Utf8(rest) + CharBytes(c) <= LIMIT)
  {
    assert (rest + [c])[..|rest|] == rest;
  }

  lemma GoodBlank(blocks: seq<seq<string>>, open: seq<string>)
    ensures GoodParts(blocks + [open], [], "") ==> GoodParts(blocks, open, "")
    ensures GoodParts(blocks, open, "") ==> (GoodParts(blocks + [open], [], "") <==> Size(open) + 1 <= LIMIT)
  {
    assert open in blocks + [open];
    assert forall b | b in blocks :: b in blocks + [open];
    assert forall b | b in blocks + [open] :: b in blocks || b == open;
  }

  lemma GoodField(blocks: seq<seq<string>>, open: seq<string>, line: string)
    ensures GoodParts(blocks, open + [line], "") ==> GoodParts(blocks, open, line)
    ensures GoodParts(blocks, open, line) ==>
              (GoodParts(blocks, open + [line], "") <==> Size(open) + Utf8(line) + 1 <= LIMIT && GoodLine(line))
  {
    NextOfBlock(open, line);
    assert line in open + [line];
    assert forall l | l in open :: l in open + [line];
    assert forall l | l in open + [line] :: l in open || l == line;
  }

  lemma PartsOfNext(normal: string, c: char)
    ensures var lines, rest := Lines(normal), Rest(normal);
            GoodText(normal + [c])
            == if c != '\n' then GoodParts(Blocks(lines), Open(lines), rest + [c])
               else if rest == "" then GoodParts(Blocks(lines) + [Open(lines)], [], "")
               else GoodParts(Blocks(lines), Open(lines) + [rest], "")
  {
    if c != '\n' {
      NextOfLine(normal, c);
    } else {
      EndOfLine(normal);
      NextLine(Lines(normal), Rest(normal));
    }
  }

  /** A text stays acceptable exactly as long as the counter and the finished line allow it. */
  lemma GoodNext(normal: string, c: char)
    requires GoodText(normal)
    ensures var open, rest := Open(Lines(normal)), Rest(normal);
            GoodText(normal + [c])
            <==> Size(open) + Utf8(rest) + CharBytes(c) <= LIMIT && (c == '\n' ==> GoodLine(rest))
  {
    var blocks, open, rest := Blocks(Lines(normal)), Open(Lines(normal)), Rest(normal);
    PartsOfNext(normal, c);
    if c != '\n' {
      GoodChar(blocks, open, rest, c);
    } else if rest == "" {
      GoodBlank(blocks, open);
      assert FieldOf("") == Field(OtherKey, "");
    } else {
      GoodField(blocks, open, rest);
    }
  }

  /** Every prefix of an acceptable text is acceptable. */
  lemma GoodBefore(normal: string, c: char)
    requires GoodText(normal + [c])
    ensures GoodText(normal)
  {
    var blocks, open, rest := Blocks(Lines(normal)), Open(Lines(normal)), Rest(normal);
    PartsOfNext(normal, c);
    if c != '\n' {
      GoodChar(blocks, open, rest, c);
    } else if rest == "" {
      GoodBlank(blocks, open);
    } else {
      GoodField(blocks, open, rest);
    }
  }

  lemma {:induction false} AcceptablePrefix(text: string, more: string)
    requires Acceptable(text + more)
    ensures Acceptable(text)
    decreases |more|
  {
    if more == [] {
      assert text + more == text;
    } else {
      var init, c := more[..|more| - 1], more[|more| - 1];
      assert text + more == (text + init) + [c];
      NormaliseNext(text + init, c);
      if !(EndsWithReturn(text + init) && c == '\n') {
        GoodBefore(Normalise(text + init), if c == '\r' then '\n' else c);
      }
      AcceptablePrefix(text, init);
    }
  }

  // Memory -------------------------------------------------------------------------------------------

  function Utf8All(values: seq<string>): (n: nat) {
    if values == [] then 0 else Utf8All(values[..|values| - 1]) + Utf8(values[|values| - 1])
  }

  lemma {:induction false} Utf8Append(a: string, b: string)
    ensures Utf8(a + b) == Utf8(a) + Utf8(b)
  {
    if b == [] {
      assert a + b == a;
    } else {
      assert (a + b)[..|a + b| - 1] == a + b[..|b| - 1];
      Utf8Append(a, b[..|b| - 1]);
    }
  }

  lemma ValueFitsLine(line: string)
    ensures FieldOf(line).Field? ==> Utf8(FieldOf(line).value) <= Utf8(line)
  {
    var i := Colon(line);
    if i < |line| {
      var tail := line[i + 1..];
      assert line == line[..i + 1] + tail;
      Utf8Append(line[..i + 1], tail);
      if tail != [] {
        assert tail == tail[..1] + tail[1..];
        Utf8Append(tail[..1], tail[1..]);
      }
    }
  }

  /** What is kept of a block: its data values, and the last event name and id. */
  function Kept(block: seq<string>): (n: nat) {
    Utf8All(Values(block, DataKey)) + Utf8(OrEmpty(Latest(block, EventKey))) + Utf8(OrEmpty(Latest(block, IdKey)))
  }

  lemma DataNext(values: seq<string>, value: string)
    ensures Utf8All(values + [value]) == Utf8All(values) + Utf8(value)
  {
    assert (values + [value])[..|values|] == values;
  }

  lemma LatestNext(block: seq<string>, line: string, key: Key)
    ensures Utf8(OrEmpty(Latest(block + [line], key)))
            <= if Sets(line, key) then Utf8(line) else Utf8(OrEmpty(Latest(block, key)))
  {
    ValueFitsLine(line);
    NextValue(block, line, key);
  }

  lemma DataKeptNext(block: seq<string>, line: string)
    ensures Utf8All(Values(block + [line], DataKey))
            <= Utf8All(Values(block, DataKey)) + (if Sets(line, DataKey) then Utf8(line) else 0)
  {
    ValueFitsLine(line);
    NextValue(block, line, DataKey);
    if Sets(line, DataKey) {
      DataNext(Values(block, DataKey), FieldOf(line).value);
    } else {
      assert Values(block, DataKey) + [] == Values(block, DataKey);
    }
  }

  lemma KeptNext(block: seq<string>, line: string)
    ensures Kept(block + [line]) <= Kept(block) + Utf8(line)
  {
    DataKeptNext(block, line);
    LatestNext(block, line, EventKey);
    LatestNext(block, line, IdKey);
  }

  lemma {:induction false} KeptFitsCounter(block: seq<string>)
    ensures Kept(block) <= Size(block)
  {
    if block != [] {
      var init, line := block[..|block| - 1], block[|block| - 1];
      assert block == init + [line];
      KeptFitsCounter(init);
      KeptNext(init, line);
    }
  }

  // The parser ---------------------------------------------------------------------------------------

  function Flatten(pieces: seq<string>): (text: string) {
    if pieces == [] then [] else Flatten(pieces[..|pieces| - 1]) + pieces[|pieces| - 1]
  }

  /** The parser's fields as a value. */
  datatype State = State(line: string, data: seq<string>, event: string, id: Option<string>, bytes: nat,
      carriageReturn: bool)

  /** The state that belongs to an unfinished block and line. */
  function Held(open: seq<string>, rest: string, carriageReturn: bool): (s: State) {
    State(rest, Values(open, DataKey), OrEmpty(Latest(open, EventKey)), Latest(open, IdKey), Size(open) + Utf8(rest),
        carriageReturn)
  }

  datatype Fed = Fed(state: State, emitted: seq<Record>)

  const START: Fed := Fed(State("", [], "", None, 0, false), [])

  /** What finishing the current line does to the fields. */
  function Finished(s: State): (r: State) {
    var line := s.line;
    if line == "" then s.(line := "", data := [], event := "", id := None, bytes := 0)
    else
      var f := FieldOf(line);
      s.(line := "",
         data := if Sets(line, DataKey) then s.data + [f.value] else s.data,
         event := if Sets(line, EventKey) then f.value else s.event,
         id := if Sets(line, IdKey) then Some(f.value) else s.id)
  }

  function Dispatched(s: State): (r: seq<Record>) {
    if s.line == "" && (s.data != [] || s.id.Some?) then [Record(EventName(s.event), Join(s.data), s.id)] else []
  }

  predicate LineEnd(c: char) {
    c == '\n' || c == '\r'
  }

  /** One code point; none if the text has become unacceptable. */
  function Next(f: Fed, c: char): (r: Option<Fed>) {
    if f.state.carriageReturn && c == '\n' then Some(f.(state := f.state.(carriageReturn := false)))
    else
      var s := f.state.(carriageReturn := c == '\r', bytes := f.state.bytes + CharBytes(c));
      if s.bytes > LIMIT then None
      else if LineEnd(c) then
        if GoodLine(s.line) then Some(Fed(Finished(s), f.emitted + Dispatched(s))) else None
      else Some(Fed(s.(line := s.line + [c]), f.emitted))
  }

  function Feed(text: string): (r: Option<Fed>) {
    if text == [] then Some(START)
    else
      var before := Feed(text[..|text| - 1]);
      if before.None? then None else Next(before.value, text[|text| - 1])
  }

  lemma FeedNext(text: string, c: char)
    ensures Feed(text + [c]) == if Feed(text).None? then None else Next(Feed(text).value, c)
  {
    assert (text + [c])[..|text|] == text;
  }

  lemma {:induction false} FeedPrefix(text: string, more: string)
    requires Feed(text + more).Some?
    ensures Feed(text).Some?
  {
    if more == [] {
      assert text + more == text;
    } else {
      var init, c := more[..|more| - 1], more[|more| - 1];
      assert text + more == (text + init) + [c];
      FeedNext(text + init, c);
      FeedPrefix(text, init);
    }
  }

  // Feeding meets the specification ------------------------------------------------------------------

  /** The state after an acceptable text and what was emitted, read off the specification. */
  ghost function Specified(text: string): (f: Fed) {
    Shown(Lines(Normalise(text)), Rest(Normalise(text)), EndsWithReturn(text))
  }

  ghost function Shown(lines: seq<string>, rest: string, carriageReturn: bool): (f: Fed) {
    Fed(Held(Open(lines), rest, carriageReturn), InterpretAll(Blocks(lines)))
  }

  /** What the end of a line does to the fields and the records. */
  function AfterEnd(f: Fed, carriageReturn: bool): (r: Fed) {
    Fed(Finished(f.state.(carriageReturn := carriageReturn, bytes := f.state.bytes + 1)),
        f.emitted + Dispatched(f.state))
  }

  lemma HeldNextChar(open: seq<string>, rest: string, was: bool, c: char)
    ensures var s := Held(open, rest, was);
            Held(open, rest + [c], false)
                == s.(line := s.line + [c], bytes := s.bytes + CharBytes(c), carriageReturn := false)
  {
    assert (rest + [c])[..|rest|] == rest;
  }

  lemma HeldNextLine(open: seq<string>, line: string, was: bool, now: bool)
    requires line != ""
    ensures var s := Held(open, line, was);
            Held(open + [line], "", now) == Finished(s.(carriageReturn := now, bytes := s.bytes + 1))
  {
    NextOfBlock(open, line);
    NextValue(open, line, DataKey);
    NextValue(open, line, EventKey);
    NextValue(open, line, IdKey);
    assert Utf8("") == 0;
  }

  lemma LineFeedSwallowed(text: string)
    requires Acceptable(text) && EndsWithReturn(text)
    ensures Acceptable(text + ['\n']) && Next(Specified(text), '\n') == Some(Specified(text + ['\n']))
  {
    NormaliseNext(text, '\n');
  }

  /** What an ordinary code point does to the fields. */
  function AfterChar(f: Fed, c: char): (r: Fed) {
    f.(state := f.state.(line := f.state.line + [c], bytes := f.state.bytes + CharBytes(c), carriageReturn := false))
  }

  lemma NextAtChar(f: Fed, c: char)
    requires !LineEnd(c)
    ensures Next(f, c) == if f.state.bytes + CharBytes(c) <= LIMIT then Some(AfterChar(f, c)) else None
  {
  }

  lemma SpecifiedNextChar(text: string, c: char)
    requires !LineEnd(c)
    ensures Normalise(text + [c]) == Normalise(text) + [c]
    ensures Specified(text + [c]) == AfterChar(Specified(text), c)
  {
    var lines, rest := Lines(Normalise(text)), Rest(Normalise(text));
    NormaliseNext(text, c);
    assert Specified(text + [c]) == Shown(lines, rest + [c], false) by {
      NextOfLine(Normalise(text), c);
    }
    HeldNextChar(Open(lines), rest, EndsWithReturn(text), c);
  }

  lemma CharAcceptable(text: string, c: char)
    requires Acceptable(text) && !LineEnd(c) && Normalise(text + [c]) == Normalise(text) + [c]
    ensures Acceptable(text + [c]) <==> Specified(text).state.bytes + CharBytes(c) <= LIMIT
  {
    GoodNext(Normalise(text), c);
  }

  lemma CharTaken(text: string, c: char)
    requires Acceptable(text) && !LineEnd(c)
    ensures Next(Specified(text), c) == if Acceptable(text + [c]) then Some(Specified(text + [c])) else None
  {
    SpecifiedNextChar(text, c);
    CharAcceptable(text, c);
    NextAtChar(Specified(text), c);
  }

  lemma BlankLineTaken(lines: seq<string>, was: bool, now: bool)
    ensures Shown(lines + [""], "", now) == AfterEnd(Shown(lines, "", was), now)
  {
    NextLine(lines, "");
    NextBlock(Blocks(lines), Open(lines));
  }

  lemma EndOfField(s: State, records: seq<Record>, now: bool)
    requires s.line != ""
    ensures AfterEnd(Fed(s, records), now) == Fed(Finished(s.(carriageReturn := now, bytes := s.bytes + 1)), records)
  {
    assert records + [] == records;
  }

  lemma FieldHeld(open: seq<string>, records: seq<Record>, line: string, was: bool, now: bool)
    requires line != ""
    ensures Fed(Held(open + [line], "", now), records) == AfterEnd(Fed(Held(open, line, was), records), now)
  {
    var s := Held(open, line, was);
    EndOfField(s, records, now);
    HeldNextLine(open, line, was, now);
  }

  lemma FieldLineTaken(lines: seq<string>, line: string, was: bool, now: bool)
    requires line != ""
    ensures Shown(lines + [line], "", now) == AfterEnd(Shown(lines, line, was), now)
  {
    FieldHeld(Open(lines), InterpretAll(Blocks(lines)), line, was, now);
    NextLine(lines, line);
  }

  lemma SpecifiedNextLine(text: string, c: char)
    requires Normalise(text + [c]) == Normalise(text) + ['\n']
    ensures Specified(text + [c]) == AfterEnd(Specified(text), c == '\r')
  {
    var lines, rest := Lines(Normalise(text)), Rest(Normalise(text));
    assert Specified(text + [c]) == Shown(lines + [rest], "", c == '\r') by {
      EndOfLine(Normalise(text));
    }
    if rest == "" {
      BlankLineTaken(lines, EndsWithReturn(text), c == '\r');
    } else {
      FieldLineTaken(lines, rest, EndsWithReturn(text), c == '\r');
    }
  }

  lemma LineEndAcceptable(text: string, c: char)
    requires Acceptable(text) && LineEnd(c) && !(EndsWithReturn(text) && c == '\n')
    ensures Normalise(text + [c]) == Normalise(text) + ['\n']
    ensures var s := Specified(text).state;
            Acceptable(text + [c]) <==> s.bytes + 1 <= LIMIT && GoodLine(s.line)
  {
    NormaliseNext(text, c);
    GoodNext(Normalise(text), '\n');
  }

  lemma LineTaken(text: string, c: char)
    requires Acceptable(text) && LineEnd(c) && !(EndsWithReturn(text) && c == '\n')
    ensures Next(Specified(text), c) == if Acceptable(text + [c]) then Some(Specified(text + [c])) else None
  {
    LineEndAcceptable(text, c);
    SpecifiedNextLine(text, c);
    NextAtLineEnd(Specified(text), c);
  }

  lemma NextAtLineEnd(f: Fed, c: char)
    requires LineEnd(c) && !(f.state.carriageReturn && c == '\n')
    ensures Next(f, c)
            == if f.state.bytes + 1 <= LIMIT && GoodLine(f.state.line)
               then Some(AfterEnd(f, c == '\r')) else None
  {
  }

  /** For every text: it is accepted exactly when acceptable, and then the records are the specified ones. */
  lemma {:induction false} FeedMeetsSpecification(text: string)
    ensures Feed(text) == if Acceptable(text) then Some(Specified(text)) else None
  {
    if text == [] {
      assert Normalise("") == "" && Lines("") == [] && Rest("") == "" && Blocks([]) == [];
    } else {
      var init, c := text[..|text| - 1], text[|text| - 1];
      assert text == init + [c];
      FeedMeetsSpecification(init);
      if !Acceptable(init) {
        if Acceptable(text) {
          AcceptablePrefix(init, [c]);
          assert false;
        }
      } else if LineEnd(c) {
        if EndsWithReturn(init) && c == '\n' {
          LineFeedSwallowed(init);
        } else {
          LineTaken(init, c);
        }
      } else {
        CharTaken(init, c);
      }
    }
  }

  /** In any state without an error, what is held fits the counter and the counter fits the limit. */
  lemma MemoryBounded(text: string)
    requires Feed(text).Some?
    ensures var s := Feed(text).value.state;
            Utf8(s.line) + Utf8All(s.data) + Utf8(s.event) + Utf8(OrEmpty(s.id)) <= s.bytes <= LIMIT
  {
    FeedMeetsSpecification(text);
    KeptFitsCounter(Open(Lines(Normalise(text))));
  }

  class Parser {
    var line: string
    var data: seq<string>
    var event: string
    var id: Option<string>
    var bytes: nat
    var carriageReturn: bool
    var emitted: seq<Record>
    ghost var input: string

    ghost function View(): (f: Fed)
      reads this
    {
      Fed(State(line, data, event, id, bytes, carriageReturn), emitted)
    }

    ghost predicate Valid()
      reads this
    {
      Feed(input) == Some(View())
    }

    constructor ()
      ensures Valid() && input == [] && emitted == []
    {
      line, data, event, id, bytes, carriageReturn := "", [], "", None, 0, false;
      emitted, input := [], [];
    }

    /** Close the current line; false if it carries an unusable id. */
    method FinishLine() returns (ok: bool)
      modifies this`line, this`data, this`event, this`id, this`bytes, this`emitted
      ensures ok <==> GoodLine(old(line))
      ensures ok ==> View() == Fed(Finished(old(View().state)), old(emitted) + Dispatched(old(View().state)))
      ensures !ok ==> emitted == old(emitted)
    {
      var current := line;
      line := "";
      if current == "" {
        assert FieldOf("") == Field(OtherKey, "");
        if data != [] || id.Some? {
          emitted := emitted + [Record(EventName(event), Join(data), id)];
        }
        data, event, id, bytes := [], "", None, 0;
        return true;
      }
      if current[0] == ':' {
        return true;
      }
      var colon := Colon(current);
      var key := current[..colon];
      var value := if colon == |current| then "" else Unspaced(current[colon + 1..]);
      assert FieldOf(current) == Field(KeyOf(key), value);
      if key == "data" {
        data := data + [value];
      }
      if key == "event" {
        event := value;
      }
      if key == "id" {
        if Utf16(value) > ID_LIMIT || exists c | c in value :: Control(c) {
          return false;
        }
        id := Some(value);
      }
      return true;
    }

    method TakeChar(c: char) returns (ok: bool)
      modifies this`line, this`data, this`event, this`id, this`bytes, this`carriageReturn, this`emitted
      ensures ok == Next(old(View()), c).Some?
      ensures if ok then Some(View()) == Next(old(View()), c) else emitted == old(emitted)
    {
      if carriageReturn && c == '\n' {
        carriageReturn := false;
        return true;
      }
      carriageReturn := c == '\r';
      bytes := bytes + CharBytes(c);
      if bytes > LIMIT {
        return false;
      }
      if c == '\n' || c == '\r' {
        ok := FinishLine();
      } else {
        line := line + [c];
        ok := true;
      }
    }

    /** Take one decoded piece; on an error everything before the offending code point has been emitted. */
    method PushPiece(text: string) returns (ok: bool)
      requires Valid()
      modifies this
      ensures ok == Feed(old(input) + text).Some?
      ensures ok ==> Valid() && input == old(input) + text
      ensures !ok ==> exists at | 0 <= at < |text| ::
                        && Feed(old(input) + text[..at]).Some? && Feed(old(input) + text[..at + 1]).None?
                        && emitted == Feed(old(input) + text[..at]).value.emitted
    {
      assert input + text[..0] == input;
      for i := 0 to |text|
        invariant Valid() && input == old(input) + text[..i]
      {
        ghost var next := old(input) + text[..i + 1];
        assert next == input + [text[i]];
        FeedNext(input, text[i]);
        ok := TakeChar(text[i]);
        if !ok {
          assert old(input) + text == next + text[i + 1..];
          if Feed(old(input) + text).Some? {
            FeedPrefix(next, text[i + 1..]);
          }
          return;
        }
        input := next;
      }
      assert text[..|text|] == text;
      ok := true;
    }

    method PushPieces(pieces: seq<string>) returns (ok: bool)
      requires Valid()
      modifies this
      ensures ok == Feed(old(input) + Flatten(pieces)).Some?
      ensures ok ==> Valid() && input == old(input) + Flatten(pieces)
    {
      assert old(input) + Flatten(pieces[..0]) == input;
      for i := 0 to |pieces|
        invariant Valid() && input == old(input) + Flatten(pieces[..i])
      {
        FlattenNext(old(input), pieces, i);
        ok := PushPiece(pieces[i]);
        if !ok {
          FeedFlatten(old(input), pieces, i + 1);
          return;
        }
      }
      assert pieces[..|pieces|] == pieces;
      ok := true;
    }

    /**
     Take a chunk, decoded piece by piece. However the text is cut, it is accepted exactly when all of
     it so far is acceptable, and then exactly its records have been emitted.
     */
    method Push(pieces: seq<string>) returns (ok: bool)
      requires Valid()
      modifies this
      ensures ok <==> Acceptable(old(input) + Flatten(pieces))
      ensures ok ==> Valid() && input == old(input) + Flatten(pieces) && emitted == Records(input)
    {
      FeedMeetsSpecification(input + Flatten(pieces));
      ok := PushPieces(pieces);
    }
  }

  lemma FlattenNext(before: string, pieces: seq<string>, i: nat)
    requires i < |pieces|
    ensures before + Flatten(pieces[..i + 1]) == (before + Flatten(pieces[..i])) + pieces[i]
  {
    assert pieces[..i + 1][..i] == pieces[..i];
  }

  lemma FeedFlatten(before: string, pieces: seq<string>, i: nat)
    requires i <= |pieces| && Feed(before + Flatten(pieces[..i])).None?
    ensures Feed(before + Flatten(pieces)).None?
  {
    FlattenPrefix(pieces, i);
    var head, tail := Flatten(pieces[..i]), Flatten(pieces)[|Flatten(pieces[..i])|..];
    assert before + Flatten(pieces) == (before + head) + tail;
    if Feed(before + Flatten(pieces)).Some? {
      FeedPrefix(before + head, tail);
      assert false;
    }
  }

  lemma {:induction false} FlattenPrefix(pieces: seq<string>, i: nat)
    requires i <= |pieces|
    ensures Flatten(pieces[..i]) <= Flatten(pieces)
    decreases |pieces| - i
  {
    if i < |pieces| {
      FlattenNext("", pieces, i);
      assert forall s: string :: "" + s == s;
      FlattenPrefix(pieces, i + 1);
    } else {
      assert pieces[..i] == pieces;
    }
  }
}
