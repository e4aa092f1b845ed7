/**
 Server-sent events as they are written on the wire: what one line means, and a printer whose text the
 parser reads back as exactly the records that were printed, with any of the three line ends and up to
 exactly the stated limits.
 */
module SseWire {
  import opened Common
  import opened SseParser

  // One line -----------------------------------------------------------------------------------------

  lemma {:induction false} ColonAfterName(name: string, rest: string)
    requires ':' !in name && (rest == "" || rest[0] == ':')
    ensures Colon(name + rest) == |name|
  {
    if name == "" {
      assert name + rest == rest;
    } else {
      assert name[0] in name;
      assert (name + rest)[1..] == name[1..] + rest;
      ColonAfterName(name[1..], rest);
    }
  }

  /** A name and everything after it. */
  lemma FieldOfParts(name: string, rest: string)
    requires ':' !in name && name != "" && (rest == "" || rest[0] == ':')
    ensures FieldOf(name + rest) == Field(KeyOf(name), if rest == "" then "" else Unspaced(rest[1..]))
  {
    ColonAfterName(name, rest);
    var line := name + rest;
    assert line[0] == name[0] && name[0] in name;
    assert line[..|name|] == name;
    if rest != "" {
      assert line[|name| + 1..] == rest[1..];
    }
  }

  lemma Spaced(name: string, value: string)
    ensures name + ": " + value == name + (": " + value)
    ensures (": " + value)[1..] == " " + value && Unspaced(" " + value) == value
  {
    assert (" " + value)[1..] == value;
  }

  lemma SpacedMeaning(name: string, value: string)
    requires ':' !in name && name != ""
    ensures FieldOf(name + ": " + value) == Field(KeyOf(name), value)
  {
    Spaced(name, value);
    FieldOfParts(name, ": " + value);
  }

  lemma UnspacedMeaning(name: string, value: string)
    requires ':' !in name && name != "" && (value == "" || value[0] != ' ')
    ensures FieldOf(name + ":" + value) == Field(KeyOf(name), value)
  {
    var rest := ":" + value;
    assert name + ":" + value == name + rest;
    assert rest[1..] == value;
    FieldOfParts(name, rest);
  }

  lemma BareMeaning(name: string)
    requires ':' !in name && name != ""
    ensures FieldOf(name) == Field(KeyOf(name), "")
  {
    assert name + "" == name;
    FieldOfParts(name, "");
  }

  /**
   A line sets its name to what follows the colon, short of one space; without a colon it sets it to
   nothing, and a line that starts with a colon is a comment.
   */
  lemma LineMeaning(name: string, value: string)
    requires ':' !in name && name != ""
    ensures FieldOf(name + ": " + value) == Field(KeyOf(name), value)
    ensures value == "" || value[0] != ' ' ==> FieldOf(name + ":" + value) == Field(KeyOf(name), value)
    ensures FieldOf(name) == Field(KeyOf(name), "")
    ensures FieldOf(":" + value) == Comment
  {
    SpacedMeaning(name, value);
    if value == "" || value[0] != ' ' {
      UnspacedMeaning(name, value);
    }
    BareMeaning(name);
  }

  /** The three names that mean something. */
  lemma KnownNames(name: string)
    ensures KeyOf("data") == DataKey && KeyOf("event") == EventKey && KeyOf("id") == IdKey
    ensures name != "data" && name != "event" && name != "id" ==> KeyOf(name) == OtherKey
  {
  }

  /** A line sets a name exactly when it is that name, alone or before a colon. */
  lemma SetsMeaning(line: string)
    requires line != ""
    ensures Sets(line, DataKey) <==> line == "data" || "data:" <= line
    ensures Sets(line, EventKey) <==> line == "event" || "event:" <= line
    ensures Sets(line, IdKey) <==> line == "id" || "id:" <= line
  {
    var i := Colon(line);
    var name := line[..i];
    if line[0] != ':' {
      NamedBy(line, name, i, "data");
      NamedBy(line, name, i, "event");
      NamedBy(line, name, i, "id");
    }
  }

  lemma NamedBy(line: string, name: string, i: nat, known: string)
    requires i == Colon(line) && name == line[..i] && ':' !in known && known != ""
    ensures name == known <==> line == known || known + ":" <= line
  {
    if name == known {
      if i == |line| {
        assert line == name;
      } else {
        assert line[..i + 1] == known + ":";
      }
    }
    if line == known {
      assert line == known + "";
      ColonAfterName(known, "");
    } else if known + ":" <= line {
      var rest := line[|known|..];
      assert line == known + rest && rest[0] == line[|known|] == (known + ":")[|known|] == ':';
      ColonAfterName(known, rest);
    }
  }

  // Joining ------------------------------------------------------------------------------------------

  lemma Rejoined<T>(before: seq<T>, init: seq<T>, last: T, part: seq<T>)
    requires part != [] && init == part[..|part| - 1] && last == part[|part| - 1]
    ensures (before + init) + [last] == before + part
  {
  }

  lemma {:induction false} LineContinues(normal: string, part: string)
    requires '\n' !in part
    ensures Lines(normal + part) == Lines(normal) && Rest(normal + part) == Rest(normal) + part
  {
    if part == "" {
      assert normal + part == normal && Rest(normal) + part == Rest(normal);
    } else {
      var init, last := part[..|part| - 1], part[|part| - 1];
      LineContinues(normal, init);
      NextOfLine(normal + init, last);
      Rejoined(normal, init, last, part);
      Rejoined(Rest(normal), init, last, part);
    }
  }

  /** Splitting joined values at the line feeds gives them back. */
  lemma {:induction false} JoinSplits(values: seq<string>)
    requires values != [] && forall v | v in values :: '\n' !in v
    ensures Lines(Join(values)) + [Rest(Join(values))] == values
  {
    var init, last := values[..|values| - 1], values[|values| - 1];
    assert last in values && values == init + [last];
    if init == [] {
      LineContinues("", last);
      assert "" + last == last && Lines("") == [] && Rest("") == "";
    } else {
      forall v | v in init ensures '\n' !in v {
        assert v in values;
      }
      JoinSplits(init);
      EndOfLine(Join(init));
      LineContinues(Join(init) + ['\n'], last);
      assert "" + last == last;
    }
  }

  /** The lines of a text, the last one without its line feed. */
  ghost function Split(text: string): (lines: seq<string>)
    ensures lines != []
  {
    Lines(text) + [Rest(text)]
  }

  /** And joining the lines of a text gives the text back. */
  lemma {:induction false} SplitJoins(text: string)
    ensures Join(Split(text)) == text
    ensures forall line | line in Split(text) :: '\n' !in line
  {
    LinesRoundTrip(text);
    JoinIsUnsplit(Lines(text), Rest(text));
  }

  lemma {:induction false} JoinIsUnsplit(lines: seq<string>, rest: string)
    ensures Join(lines + [rest]) == Unsplit(lines) + rest
  {
    var all := lines + [rest];
    assert all[..|all| - 1] == lines;
    if lines == [] {
      assert Unsplit(lines) + rest == rest;
    } else {
      var init, last := lines[..|lines| - 1], lines[|lines| - 1];
      assert lines == init + [last];
      JoinIsUnsplit(init, last);
      assert (Unsplit(init) + last) + ['\n'] + rest == Unsplit(lines) + rest;
    }
  }

  // Printing records ---------------------------------------------------------------------------------

  ghost function DataLines(values: seq<string>): (lines: seq<string>) {
    if values == [] then [] else DataLines(values[..|values| - 1]) + ["data: " + values[|values| - 1]]
  }

  ghost function IdLine(id: Option<string>): (lines: seq<string>) {
    if id.Some? then ["id: " + id.value] else []
  }

  /** One record as lines: its event, its data line by line, and its id if it has one. */
  ghost function Printed(r: Record): (block: seq<string>) {
    ["event: " + r.event] + DataLines(Split(r.data)) + IdLine(r.id)
  }

  ghost function PrintOne(r: Record): (text: string) {
    Unsplit(Printed(r) + [""])
  }

  ghost function Print(records: seq<Record>): (text: string) {
    if records == [] then "" else Print(records[..|records| - 1]) + PrintOne(records[|records| - 1])
  }

  /** A record that can be written: a named event and no line end where none belongs. */
  ghost predicate Printable(r: Record) {
    && r.event != "" && '\n' !in r.event && '\r' !in r.event && '\r' !in r.data
    && (r.id.Some? ==> '\n' !in r.id.value && '\r' !in r.id.value)
  }

  // Reading one block back ---------------------------------------------------------------------------

  lemma {:induction false} ValuesAppend(a: seq<string>, b: seq<string>, key: Key)
    ensures Values(a + b, key) == Values(a, key) + Values(b, key)
  {
    if b == [] {
      assert a + b == a;
    } else {
      var init, last := b[..|b| - 1], b[|b| - 1];
      assert (a + b)[..|a + b| - 1] == a + init;
      ValuesAppend(a, init, key);
    }
  }

  lemma KnownLine(value: string)
    ensures FieldOf("data: " + value) == Field(DataKey, value)
    ensures FieldOf("event: " + value) == Field(EventKey, value)
    ensures FieldOf("id: " + value) == Field(IdKey, value)
  {
    assert "data" + ": " == "data: " && "event" + ": " == "event: " && "id" + ": " == "id: ";
    SpacedMeaning("data", value);
    SpacedMeaning("event", value);
    SpacedMeaning("id", value);
  }

  lemma OneLineRead(line: string, key: Key)
    ensures Values([line], key) == if Sets(line, key) then [FieldOf(line).value] else []
  {
    NextValue([], line, key);
    assert [] + [line] == [line];
  }

  lemma ValuesOfThree(a: seq<string>, b: seq<string>, c: seq<string>, key: Key)
    ensures Values(a + b + c, key) == Values(a, key) + Values(b, key) + Values(c, key)
  {
    ValuesAppend(a + b, c, key);
    ValuesAppend(a, b, key);
  }

  /** A line of one key adds nothing to the others. */
  lemma LineOf(line: string, key: Key, value: string)
    requires FieldOf(line) == Field(key, value)
    ensures Values([line], key) == [value] && forall other: Key | other != key :: Values([line], other) == []
  {
    OneLineRead(line, key);
    forall other: Key | other != key ensures Values([line], other) == [] {
      OneLineRead(line, other);
    }
  }

  lemma {:induction false} DataLinesRead(values: seq<string>)
    ensures Values(DataLines(values), DataKey) == values
    ensures Values(DataLines(values), EventKey) == [] && Values(DataLines(values), IdKey) == []
  {
    if values != [] {
      var init, last := values[..|values| - 1], values[|values| - 1];
      DataLinesRead(init);
      DataLineRead(DataLines(init), last);
      assert values == init + [last];
      assert DataLines(values) == DataLines(init) + ["data: " + last];
    }
  }

  lemma DataLineRead(before: seq<string>, value: string)
    ensures Values(before + ["data: " + value], DataKey) == Values(before, DataKey) + [value]
    ensures Values(before + ["data: " + value], EventKey) == Values(before, EventKey)
    ensures Values(before + ["data: " + value], IdKey) == Values(before, IdKey)
  {
    KnownLine(value);
    var line := "data: " + value;
    NextValue(before, line, DataKey);
    NextValue(before, line, EventKey);
    NextValue(before, line, IdKey);
  }

  lemma PrintedValues(r: Record)
    ensures Values(Printed(r), EventKey) == [r.event] && Values(Printed(r), DataKey) == Split(r.data)
    ensures Values(Printed(r), IdKey) == if r.id.Some? then [r.id.value] else []
  {
    KnownLine(r.event);
    LineOf("event: " + r.event, EventKey, r.event);
    DataLinesRead(Split(r.data));
    IdLineRead(r.id);
    ThreePartsRead("event: " + r.event, DataLines(Split(r.data)), IdLine(r.id));
  }

  lemma IdLineRead(id: Option<string>)
    ensures Values(IdLine(id), IdKey) == if id.Some? then [id.value] else []
    ensures Values(IdLine(id), EventKey) == [] && Values(IdLine(id), DataKey) == []
  {
    if id.Some? {
      KnownLine(id.value);
      LineOf("id: " + id.value, IdKey, id.value);
    }
  }

  lemma ThreePartsRead(event: string, data: seq<string>, id: seq<string>)
    requires Values([event], DataKey) == [] && Values([event], IdKey) == []
    requires Values(data, EventKey) == [] && Values(data, IdKey) == []
    requires Values(id, EventKey) == [] && Values(id, DataKey) == []
    ensures Values([event] + data + id, EventKey) == Values([event], EventKey)
    ensures Values([event] + data + id, DataKey) == Values(data, DataKey)
    ensures Values([event] + data + id, IdKey) == Values(id, IdKey)
  {
    ValuesOfThree([event], data, id, EventKey);
    ValuesOfThree([event], data, id, DataKey);
    ValuesOfThree([event], data, id, IdKey);
  }

  /** A printed block is read as the record it was printed from. */
  lemma BlockReadsBack(r: Record)
    requires Printable(r)
    ensures Interpret(Printed(r)) == [r]
  {
    PrintedValues(r);
    SplitJoins(r.data);
  }

  /** A block with only data is a message without an id. */
  lemma DataAloneIsMessage(value: string)
    ensures Interpret(["data: " + value]) == [Record("message", value, None)]
  {
    KnownLine(value);
    OneLineRead("data: " + value, DataKey);
    OneLineRead("data: " + value, EventKey);
    OneLineRead("data: " + value, IdKey);
  }

  /** A block with neither data nor an id is no record. */
  lemma NamesAloneAreNothing(block: seq<string>)
    requires forall line | line in block ::
               line != "" && !(line == "data" || "data:" <= line || line == "id" || "id:" <= line)
    ensures Interpret(block) == []
  {
    NoValues(block, DataKey);
    NoValues(block, IdKey);
  }

  lemma {:induction false} NoValues(block: seq<string>, key: Key)
    requires key == DataKey || key == IdKey || key == EventKey
    requires forall line | line in block ::
               line != "" && match key {
                               case DataKey => !(line == "data" || "data:" <= line)
                               case IdKey => !(line == "id" || "id:" <= line)
                               case _ => !(line == "event" || "event:" <= line)
                             }
    ensures Values(block, key) == []
  {
    if block != [] {
      var init, line := block[..|block| - 1], block[|block| - 1];
      assert line in block;
      forall l | l in init ensures l in block {}
      NoValues(init, key);
      SetsMeaning(line);
    }
  }

  /** Of several events or ids the last one counts. */
  lemma LastCounts(before: seq<string>, value: string, rest: seq<string>)
    ensures NoneSets(rest, "event") ==> Latest(before + ["event: " + value] + rest, EventKey) == Some(value)
    ensures NoneSets(rest, "id") ==> Latest(before + ["id: " + value] + rest, IdKey) == Some(value)
  {
    KnownLine(value);
    if NoneSets(rest, "event") {
      assert "event" + ":" == "event:";
      NoValues(rest, EventKey);
      ValuesAppend(before + ["event: " + value], rest, EventKey);
      NextValue(before, "event: " + value, EventKey);
    }
    if NoneSets(rest, "id") {
      assert "id" + ":" == "id:";
      NoValues(rest, IdKey);
      ValuesAppend(before + ["id: " + value], rest, IdKey);
      NextValue(before, "id: " + value, IdKey);
    }
  }

  ghost predicate NoneSets(lines: seq<string>, name: string) {
    forall line | line in lines :: line != "" && line != name && !(name + ":" <= line)
  }

  // Reading a whole text back ------------------------------------------------------------------------

  lemma {:induction false} LinesOfUnsplit(lines: seq<string>)
    requires forall line | line in lines :: '\n' !in line
    ensures Lines(Unsplit(lines)) == lines && Rest(Unsplit(lines)) == ""
  {
    if lines != [] {
      var init, last := lines[..|lines| - 1], lines[|lines| - 1];
      assert last in lines && lines == init + [last];
      forall line | line in init ensures '\n' !in line {
        assert line in lines;
      }
      LinesOfUnsplit(init);
      LineContinues(Unsplit(init), last);
      EndOfLine(Unsplit(init) + last);
      assert "" + last == last;
    }
  }

  lemma {:induction false} UnsplitAppend(a: seq<string>, b: seq<string>)
    ensures Unsplit(a + b) == Unsplit(a) + Unsplit(b)
  {
    if b == [] {
      assert a + b == a && Unsplit(a) + "" == Unsplit(a);
    } else {
      var init, last := b[..|b| - 1], b[|b| - 1];
      assert (a + b)[..|a + b| - 1] == a + init;
      UnsplitAppend(a, init);
      assert (Unsplit(a) + Unsplit(init)) + last + ['\n'] == Unsplit(a) + (Unsplit(init) + last + ['\n']);
    }
  }

  lemma {:induction false} BlocksOfUnblock(blocks: seq<seq<string>>)
    requires forall block | block in blocks :: "" !in block
    ensures Blocks(Unblock(blocks)) == blocks && Open(Unblock(blocks)) == []
  {
    if blocks != [] {
      var init, last := blocks[..|blocks| - 1], blocks[|blocks| - 1];
      assert last in blocks && blocks == init + [last];
      forall block | block in init ensures "" !in block {
        assert block in blocks;
      }
      BlocksOfUnblock(init);
      BlockContinues(Unblock(init), last);
      NextLine(Unblock(init) + last, "");
      assert [] + last == last;
    }
  }

  lemma {:induction false} BlockContinues(lines: seq<string>, part: seq<string>)
    requires forall i | 0 <= i < |part| :: part[i] != ""
    ensures Blocks(lines + part) == Blocks(lines) && Open(lines + part) == Open(lines) + part
  {
    if part == [] {
      assert lines + part == lines && Open(lines) + part == Open(lines);
    } else {
      var init, last := part[..|part| - 1], part[|part| - 1];
      BlockContinues(lines, init);
      NextLine(lines + init, last);
      Rejoined(lines, init, last, part);
      Rejoined(Open(lines), init, last, part);
    }
  }

  ghost function PrintedAll(records: seq<Record>): (blocks: seq<seq<string>>) {
    if records == [] then [] else PrintedAll(records[..|records| - 1]) + [Printed(records[|records| - 1])]
  }

  lemma {:induction false} PrintIsBlocks(records: seq<Record>)
    ensures Print(records) == Unsplit(Unblock(PrintedAll(records)))
  {
    if records != [] {
      var init, last := records[..|records| - 1], records[|records| - 1];
      PrintIsBlocks(init);
      var blocks := PrintedAll(init) + [Printed(last)];
      assert blocks[..|blocks| - 1] == PrintedAll(init);
      var lines := Unblock(PrintedAll(init));
      assert Unblock(blocks) == lines + (Printed(last) + [""]);
      UnsplitAppend(lines, Printed(last) + [""]);
    }
  }

  /** No end of line in any of these lines. */
  ghost predicate Plain(lines: seq<string>) {
    forall line | line in lines :: '\n' !in line && '\r' !in line
  }

  lemma {:induction false} DataLinesPlain(values: seq<string>)
    requires Plain(values)
    ensures Plain(DataLines(values)) && "" !in DataLines(values)
  {
    if values != [] {
      var init, last := values[..|values| - 1], values[|values| - 1];
      assert last in values;
      forall v | v in init ensures v in values {}
      DataLinesPlain(init);
      PlainAfter("data: ", last);
    }
  }

  lemma PlainAfter(name: string, value: string)
    requires '\n' !in name && '\r' !in name && '\n' !in value && '\r' !in value
    ensures '\n' !in name + value && '\r' !in name + value
  {
  }

  lemma SplitPlain(text: string)
    requires '\r' !in text
    ensures Plain(Split(text))
  {
    SplitJoins(text);
    forall line | line in Split(text) ensures '\r' !in line {
      JoinHolds(Split(text), line);
    }
  }

  lemma {:induction false} JoinHolds(values: seq<string>, value: string)
    requires value in values
    ensures forall c | c in value :: c in Join(values)
  {
    var init, last := values[..|values| - 1], values[|values| - 1];
    if |values| > 1 && value in init {
      JoinHolds(init, value);
    }
    assert value in init || value == last;
  }

  lemma PrintedPlain(r: Record)
    requires Printable(r)
    ensures Plain(Printed(r)) && "" !in Printed(r)
  {
    SplitPlain(r.data);
    DataLinesPlain(Split(r.data));
    PlainAfter("event: ", r.event);
    if r.id.Some? {
      PlainAfter("id: ", r.id.value);
    }
  }

  lemma {:induction false} PrintedAllPlain(records: seq<Record>)
    requires forall r | r in records :: Printable(r)
    ensures forall block | block in PrintedAll(records) :: Plain(block) && "" !in block
    ensures Plain(Unblock(PrintedAll(records)))
    ensures InterpretAll(PrintedAll(records)) == records
  {
    if records != [] {
      var init, last := records[..|records| - 1], records[|records| - 1];
      assert last in records && records == init + [last];
      forall r | r in init ensures Printable(r) {
        assert r in records;
      }
      PrintedAllPlain(init);
      PrintedPlain(last);
      BlockReadsBack(last);
      NextBlock(PrintedAll(init), Printed(last));
      var blocks := PrintedAll(init) + [Printed(last)];
      assert blocks[..|blocks| - 1] == PrintedAll(init);
      assert Unblock(blocks) == Unblock(PrintedAll(init)) + Printed(last) + [""];
    }
  }

  // Line ends ----------------------------------------------------------------------------------------

  /** The text with every line feed written as `end`. */
  ghost function EndedBy(text: string, end: string): (r: string) {
    if text == "" then "" else (if text[0] == '\n' then end else [text[0]]) + EndedBy(text[1..], end)
  }

  lemma {:induction false} NormaliseRestores(text: string, end: string)
    requires '\r' !in text && (end == "\n" || end == "\r\n" || end == "\r")
    ensures Normalise(EndedBy(text, end)) == text
    ensures EndedBy(text, end) != "" && EndedBy(text, end)[0] == '\n' ==> end == "\n"
  {
    if text != "" {
      assert text[0] in text;
      NormaliseRestores(text[1..], end);
      var rest := EndedBy(text[1..], end);
      if text[0] != '\n' {
        assert ([text[0]] + rest)[1..] == rest;
      } else if end == "\r\n" {
        assert (end + rest)[2..] == rest && (end + rest)[1] == '\n';
      } else {
        assert (end + rest)[1..] == rest;
      }
    }
  }

  lemma {:induction false} UnsplitPlain(lines: seq<string>)
    requires Plain(lines)
    ensures '\r' !in Unsplit(lines)
  {
    if lines != [] {
      var init, last := lines[..|lines| - 1], lines[|lines| - 1];
      assert last in lines;
      forall line | line in init ensures line in lines {}
      UnsplitPlain(init);
    }
  }

  lemma PrintedLines(records: seq<Record>, end: string)
    requires forall r | r in records :: Printable(r)
    requires end == "\n" || end == "\r\n" || end == "\r"
    ensures var normal := Normalise(EndedBy(Print(records), end));
            && Rest(normal) == "" && Blocks(Lines(normal)) == PrintedAll(records) && Open(Lines(normal)) == []
  {
    PrintedAllPlain(records);
    PrintIsBlocks(records);
    var lines := Unblock(PrintedAll(records));
    UnsplitPlain(lines);
    NormaliseRestores(Print(records), end);
    LinesOfUnsplit(lines);
    BlocksOfUnblock(PrintedAll(records));
  }

  /** What is printed is read back, whichever line end it is sent with. */
  lemma PrintedRecordsReadBack(records: seq<Record>, end: string)
    requires forall r | r in records :: Printable(r)
    requires end == "\n" || end == "\r\n" || end == "\r"
    ensures Records(EndedBy(Print(records), end)) == records
  {
    PrintedLines(records, end);
    PrintedAllPlain(records);
  }

  // Sizes and limits ---------------------------------------------------------------------------------

  /** The UTF-8 encoding of a code point, by section 3 of RFC 3629. */
  ghost function Encoded(c: char): (bytes: seq<nat>) {
    var n := c as int;
    if n < 0x80 then [n]
    else if n < 0x800 then [0xC0 + n / 64, 0x80 + n % 64]
    else if n < 0x10000 then [0xE0 + n / 4096, 0x80 + n / 64 % 64, 0x80 + n % 64]
    else [0xF0 + n / 262144, 0x80 + n / 4096 % 64, 0x80 + n / 64 % 64, 0x80 + n % 64]
  }

  ghost function EncodedAll(s: string): (bytes: seq<nat>) {
    if s == "" then [] else Encoded(s[0]) + EncodedAll(s[1..])
  }

  /** The UTF-16 code units of a code point: one, or a surrogate pair. */
  ghost function Units(c: char): (units: seq<nat>) {
    var n := c as int;
    if n < 0x10000 then [n] else [0xD800 + (n - 0x10000) / 1024, 0xDC00 + (n - 0x10000) % 1024]
  }

  ghost function UnitsAll(s: string): (units: seq<nat>) {
    if s == "" then [] else Units(s[0]) + UnitsAll(s[1..])
  }

  lemma {:induction false} Utf8Counts(s: string)
    ensures Utf8(s) == |EncodedAll(s)|
  {
    if s != "" {
      Utf8Counts(s[1..]);
      Utf8Append([s[0]], s[1..]);
      assert s == [s[0]] + s[1..];
      assert Utf8([s[0]]) == CharBytes(s[0]) by {
        assert [s[0]][..0] == "";
      }
    }
  }

  lemma {:induction false} Utf16Append(a: string, b: string)
    ensures Utf16(a + b) == Utf16(a) + Utf16(b)
  {
    if b == [] {
      assert a + b == a;
    } else {
      assert (a + b)[..|a + b| - 1] == a + b[..|b| - 1];
      Utf16Append(a, b[..|b| - 1]);
    }
  }

  lemma {:induction false} Utf16Counts(s: string)
    ensures Utf16(s) == |UnitsAll(s)|
  {
    if s != "" {
      Utf16Counts(s[1..]);
      Utf16Append([s[0]], s[1..]);
      assert s == [s[0]] + s[1..];
      assert Utf16([s[0]]) == |Units(s[0])| by {
        assert [s[0]][..0] == "";
      }
    }
  }

  /** An id is usable exactly when it has at most 512 UTF-16 code units and no control character. */
  lemma UsableId(value: string)
    ensures GoodId(value)
            <==> |UnitsAll(value)| <= 512 && forall c | c in value :: 31 < c as int && c as int != 127
  {
    Utf16Counts(value);
  }

  lemma {:induction false} SizeIsBytes(lines: seq<string>)
    ensures Size(lines) == Utf8(Unsplit(lines))
  {
    if lines != [] {
      var init, last := lines[..|lines| - 1], lines[|lines| - 1];
      SizeIsBytes(init);
      Utf8Append(Unsplit(init), last);
      Utf8Append(Unsplit(init) + last, ['\n']);
      assert Utf8(['\n']) == 1 by {
        assert ['\n'][..0] == "";
      }
    }
  }

  /** The record stays within the limits. */
  ghost predicate WithinLimits(r: Record) {
    && |EncodedAll(PrintOne(r))| <= 270336
    && (r.id.Some? ==>
          |UnitsAll(r.id.value)| <= 512 && forall c | c in r.id.value :: 31 < c as int && c as int != 127)
  }

  lemma {:induction false} DataLinesAreGood(values: seq<string>)
    ensures forall line | line in DataLines(values) :: GoodLine(line)
  {
    if values != [] {
      DataLinesAreGood(values[..|values| - 1]);
      KnownLine(values[|values| - 1]);
    }
  }

  lemma PrintedFits(r: Record)
    ensures Size(Printed(r)) + 1 == |EncodedAll(PrintOne(r))|
  {
    SizeIsBytes(Printed(r) + [""]);
    NextOfBlock(Printed(r), "");
    Utf8Counts(PrintOne(r));
    assert Utf8("") == 0;
  }

  lemma EventLineIsGood(event: string)
    ensures GoodLine("event: " + event)
  {
    KnownLine(event);
  }

  lemma IdLineIsGood(value: string)
    ensures GoodLine("id: " + value)
            <==> |UnitsAll(value)| <= 512 && forall c | c in value :: 31 < c as int && c as int != 127
  {
    KnownLine(value);
    UsableId(value);
  }

  lemma PrintedGood(r: Record)
    ensures GoodBlock(Printed(r)) <==> WithinLimits(r)
  {
    PrintedFits(r);
    DataLinesAreGood(Split(r.data));
    EventLineIsGood(r.event);
    if r.id.Some? {
      IdLineIsGood(r.id.value);
      LastIsThere("event: " + r.event, DataLines(Split(r.data)), "id: " + r.id.value);
    }
  }

  lemma LastIsThere(first: string, middle: seq<string>, last: string)
    ensures last in [first] + middle + [last]
  {
  }

  lemma {:induction false} PrintedAllGood(records: seq<Record>)
    ensures (forall block | block in PrintedAll(records) :: GoodBlock(block))
            <==> forall r | r in records :: WithinLimits(r)
  {
    if records != [] {
      var init, last := records[..|records| - 1], records[|records| - 1];
      assert records == init + [last] && last in records;
      PrintedAllGood(init);
      PrintedGood(last);
      var blocks := PrintedAll(records);
      assert Printed(last) in blocks;
      forall block | block in PrintedAll(init) ensures block in blocks {}
      forall r | r in init ensures r in records {}
    }
  }

  /** A printed text is accepted exactly when every record of it stays within the limits. */
  lemma PrintedTextAcceptedIff(records: seq<Record>, end: string)
    requires forall r | r in records :: Printable(r)
    requires end == "\n" || end == "\r\n" || end == "\r"
    ensures Acceptable(EndedBy(Print(records), end)) <==> forall r | r in records :: WithinLimits(r)
  {
    PrintedLines(records, end);
    PrintedAllGood(records);
    assert Utf8("") == 0 && Size([]) == 0;
  }
}
