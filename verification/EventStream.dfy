/** Server-sent events: the printer of the chat API, and a parser written from sections 9.2.5 and
    9.2.6 of the WHATWG HTML Living Standard. Last event ids and reconnection times, which the
    printer never sends, are not kept by the parser. */
module EventStream {
  import opened Options
  import opened Strings

  const CR := '\r'
  const BOM := '\U{FEFF}'

  datatype Frame = Frame(data: string, event: Option<string>)

  datatype Event = Event(name: string, data: string)

  predicate Unbroken(s: string) {
    CR !in s && LF !in s
  }

  predicate AllUnbroken(lines: seq<string>) {
    forall n | 0 <= n < |lines| :: Unbroken(lines[n])
  }

  // ----- Printing

  // data.replace("\r\n", "\n")
  function WithoutCrLf(s: string): string {
    if s == "" then ""
    else if |s| >= 2 && s[0] == CR && s[1] == LF then [LF] + WithoutCrLf(s[2..])
    else [s[0]] + WithoutCrLf(s[1..])
  }

  // data.replace("\r", "\n")
  function WithoutCr(s: string): string {
    if s == "" then "" else [if s[0] == CR then LF else s[0]] + WithoutCr(s[1..])
  }

  function Normalized(s: string): string {
    WithoutCr(WithoutCrLf(s))
  }

  // Each CRLF pair, lone CR and lone LF as one LF.
  function EndsOfLineAsLf(s: string): string {
    if s == "" then ""
    else if s[0] != CR then [s[0]] + EndsOfLineAsLf(s[1..])
    else if |s| >= 2 && s[1] == LF then [LF] + EndsOfLineAsLf(s[2..])
    else [LF] + EndsOfLineAsLf(s[1..])
  }

  // Replacing the pairs first makes the two replacements agree with that.
  lemma {:induction false} NormalizedIsEndsOfLine(s: string)
    ensures Normalized(s) == EndsOfLineAsLf(s)
    decreases |s|
  {
    if s != "" {
      var pair := |s| >= 2 && s[0] == CR && s[1] == LF;
      var rest := if pair then s[2..] else s[1..];
      NormalizedIsEndsOfLine(rest);
      var w := WithoutCrLf(s);
      assert w == [if pair then LF else s[0]] + WithoutCrLf(rest);
      assert w[1..] == WithoutCrLf(rest);
    }
  }

  function FrameLines(f: Frame): seq<string> {
    (if f.event.Some? && f.event.value != "" then ["event: " + f.event.value] else [])
    + DataLines(Split(Normalized(f.data))) + [""]
  }

  function DataLines(lines: seq<string>): seq<string> {
    if lines == [] then [] else ["data: " + lines[0]] + DataLines(lines[1..])
  }

  // Each line followed by a line feed.
  function Printed(lines: seq<string>): string {
    if lines == [] then "" else lines[0] + [LF] + Printed(lines[1..])
  }

  lemma {:induction false} PrintedAppend(x: seq<string>, y: seq<string>)
    ensures Printed(x + y) == Printed(x) + Printed(y)
  {
    if x == [] {
      assert x + y == y;
    } else {
      PrintedAppend(x[1..], y);
      assert (x + y)[1..] == x[1..] + y;
    }
  }

  lemma PrintedMore(x: seq<string>, line: string)
    ensures Printed(x + [line]) == Printed(x) + line + [LF]
  {
    PrintedAppend(x, [line]);
    assert Printed([line]) == line + [LF] + "";
  }

  lemma {:induction false} DataLinesMore(x: seq<string>, line: string)
    ensures DataLines(x + [line]) == DataLines(x) + ["data: " + line]
  {
    if x == [] {
      assert x + [line] == [line];
    } else {
      DataLinesMore(x[1..], line);
      assert (x + [line])[1..] == x[1..] + [line];
    }
  }

  lemma OneMoreLine(before: seq<string>, lines: seq<string>, n: nat)
    requires n < |lines|
    ensures Printed(before + DataLines(lines[..n + 1])) ==
            Printed(before + DataLines(lines[..n])) + ("data: " + lines[n] + [LF])
  {
    var line := "data: " + lines[n];
    var printed := Printed(before + DataLines(lines[..n]));
    DataLinesMore(lines[..n], lines[n]);
    assert lines[..n + 1] == lines[..n] + [lines[n]];
    PrintedMore(before + DataLines(lines[..n]), line);
    assert before + DataLines(lines[..n]) + [line] == before + (DataLines(lines[..n]) + [line]);
    assert printed + line + [LF] == printed + (line + [LF]);
  }

  method FormatSseEvent(data: string, event: Option<string>) returns (payload: string)
    ensures payload == Printed(FrameLines(Frame(data, event)))
  {
    payload := "";
    ghost var before: seq<string> := [];
    if event.Some? && event.value != "" {
      before := ["event: " + event.value];
      PrintedCons("event: " + event.value, []);
      payload := payload + ("event: " + event.value + [LF]);
    }
    assert payload == Printed(before);
    var lines := Split(Normalized(data));
    assert before + DataLines(lines[..0]) == before;
    var n := 0;
    while n < |lines|
      invariant n <= |lines| && payload == Printed(before + DataLines(lines[..n]))
    {
      OneMoreLine(before, lines, n);
      payload := payload + ("data: " + lines[n] + [LF]);
      n := n + 1;
    }
    assert lines[..n] == lines;
    PrintedMore(before + DataLines(lines), "");
    assert payload + "" + [LF] == payload + [LF];
    payload := payload + [LF];
  }

  // ----- Parsing

  function LineLength(s: string): (n: nat)
    ensures n <= |s| && Unbroken(s[..n])
    ensures n < |s| ==> s[n] == CR || s[n] == LF
  {
    if s == "" || s[0] == CR || s[0] == LF then 0
    else
      assert forall m | 0 <= m <= |s[1..]| :: s[..m + 1] == [s[0]] + s[1..][..m];
      1 + LineLength(s[1..])
  }

  // The lines of a stream; a CRLF pair, a lone LF and a lone CR end a line. What follows the last
  // end of line can complete no event.
  function Lines(s: string): seq<string>
    decreases |s|
  {
    var n := LineLength(s);
    if n == |s| then []
    else if s[n] == CR && n + 1 < |s| && s[n + 1] == LF then [s[..n]] + Lines(s[n + 2..])
    else [s[..n]] + Lines(s[n + 1..])
  }

  // The event type buffer and the data buffer.
  datatype Buffers = Buffers(name: string, data: string)

  function FirstColon(line: string): (n: nat)
    ensures n <= |line|
  {
    if line == "" || line[0] == ':' then 0 else 1 + FirstColon(line[1..])
  }

  function ProcessField(b: Buffers, field: string, value: string): Buffers {
    if field == "event" then b.(name := value)
    else if field == "data" then b.(data := b.data + value + [LF])
    else b
  }

  function ProcessLine(b: Buffers, line: string): Buffers
    requires line != ""
  {
    var n := FirstColon(line);
    if n == 0 then b
    else if n == |line| then ProcessField(b, line, "")
    else
      var value := line[n + 1..];
      ProcessField(b, line[..n], if value != "" && value[0] == ' ' then value[1..] else value)
  }

  // An event whose data buffer is empty is not dispatched.
  function Dispatched(b: Buffers): seq<Event> {
    if b.data == "" then []
    else
      var n := |b.data| - 1;
      [Event(if b.name == "" then "message" else b.name, if b.data[n] == LF then b.data[..n] else b.data)]
  }

  function Interpret(b: Buffers, lines: seq<string>): seq<Event>
    decreases |lines|
  {
    if lines == [] then []
    else if lines[0] == "" then Dispatched(b) + Interpret(Buffers("", ""), lines[1..])
    else Interpret(ProcessLine(b, lines[0]), lines[1..])
  }

  function Parse(stream: string): seq<Event> {
    Interpret(Buffers("", ""), Lines(if stream != "" && stream[0] == BOM then stream[1..] else stream))
  }

  // ----- The round trip

  function Expected(f: Frame): Event {
    Event(if f.event.Some? && f.event.value != "" then f.event.value else "message", Normalized(f.data))
  }

  function AllExpected(frames: seq<Frame>): seq<Event> {
    if frames == [] then [] else [Expected(frames[0])] + AllExpected(frames[1..])
  }

  function AllFrameLines(frames: seq<Frame>): seq<string> {
    if frames == [] then [] else FrameLines(frames[0]) + AllFrameLines(frames[1..])
  }

  // What is sent for a list of frames.
  function Stream(frames: seq<Frame>): string {
    if frames == [] then "" else Printed(FrameLines(frames[0])) + Stream(frames[1..])
  }

  lemma {:induction false} StreamIsPrinted(frames: seq<Frame>)
    ensures Stream(frames) == Printed(AllFrameLines(frames))
  {
    if frames != [] {
      StreamIsPrinted(frames[1..]);
      PrintedAppend(FrameLines(frames[0]), AllFrameLines(frames[1..]));
    }
  }

  lemma {:induction false} LineLengthOf(line: string, rest: string)
    requires Unbroken(line)
    ensures LineLength(line + [LF] + rest) == |line|
  {
    var s := line + [LF] + rest;
    if line != "" {
      assert s[0] == line[0] && line[0] in line;
      assert s[1..] == line[1..] + [LF] + rest;
      LineLengthOf(line[1..], rest);
    }
  }

  lemma {:induction false} LinesOfPrinted(lines: seq<string>)
    requires AllUnbroken(lines)
    ensures Lines(Printed(lines)) == lines
  {
    if lines != [] {
      var line, rest := lines[0], Printed(lines[1..]);
      LineLengthOf(line, rest);
      LinesOfPrinted(lines[1..]);
      var s := line + [LF] + rest;
      assert s[..|line|] == line && s[|line|] == LF && s[|line| + 1..] == rest;
    }
  }

  lemma {:induction false} NoCrLeft(s: string)
    ensures CR !in WithoutCr(s)
  {
    if s != "" {
      NoCrLeft(s[1..]);
    }
  }

  lemma {:induction false} SplitUnbroken(s: string)
    requires CR !in s
    ensures forall n | 0 <= n < |Split(s)| :: Unbroken(Split(s)[n])
  {
    if s != "" {
      SplitUnbroken(s[1..]);
    }
  }

  // Splitting and putting the line feeds back.
  lemma {:induction false} SplitJoined(s: string)
    ensures Printed(Split(s)) == s + [LF]
  {
    if s == "" {
      PrintedCons("", []);
    } else {
      var rest := Split(s[1..]);
      SplitJoined(s[1..]);
      if s[0] == LF {
        PrintedCons("", rest);
      } else {
        PrintedCons([s[0]] + rest[0], rest[1..]);
        PrintedCons(rest[0], rest[1..]);
        assert rest == [rest[0]] + rest[1..];
        var p := Printed(rest[1..]);
        assert [s[0]] + rest[0] + [LF] + p == [s[0]] + (rest[0] + [LF] + p);
        assert s + [LF] == [s[0]] + (s[1..] + [LF]);
      }
    }
  }

  lemma PrintedCons(line: string, rest: seq<string>)
    ensures Printed([line] + rest) == line + [LF] + Printed(rest)
  {
    assert ([line] + rest)[1..] == rest;
  }

  lemma {:induction false} FirstColonOf(field: string, rest: string)
    requires ':' !in field
    ensures FirstColon(field + ":" + rest) == |field|
  {
    var s := field + ":" + rest;
    if field != "" {
      assert s[0] == field[0] && field[0] in field;
      assert s[1..] == field[1..] + ":" + rest;
      FirstColonOf(field[1..], rest);
    }
  }

  lemma FieldLine(b: Buffers, field: string, value: string)
    requires field != "" && ':' !in field
    ensures ProcessLine(b, field + ": " + value) == ProcessField(b, field, value)
  {
    var line := field + ": " + value;
    assert line == field + ":" + (" " + value);
    FirstColonOf(field, " " + value);
    assert line[..|field|] == field && line[|field| + 1..] == " " + value;
    assert (" " + value)[1..] == value;
  }

  lemma FourRegrouped<A>(a: seq<A>, b: seq<A>, c: seq<A>, d: seq<A>)
    ensures a + b + c + d == a + (b + (c + d)) && a + b + c + d == a + (b + c + d)
  {
  }

  lemma InterpretCons(b: Buffers, line: string, rest: seq<string>)
    ensures Interpret(b, [line] + rest) ==
            if line == "" then Dispatched(b) + Interpret(Buffers("", ""), rest) else Interpret(ProcessLine(b, line), rest)
  {
    assert ([line] + rest)[1..] == rest;
  }

  lemma DataLine(b: Buffers, value: string)
    ensures ProcessLine(b, "data: " + value) == Buffers(b.name, b.data + value + [LF])
  {
    assert "data" + ": " == "data: ";
    FieldLine(b, "data", value);
  }

  lemma {:induction false} InterpretData(b: Buffers, lines: seq<string>, rest: seq<string>)
    ensures Interpret(b, DataLines(lines) + rest) == Interpret(Buffers(b.name, b.data + Printed(lines)), rest)
    decreases |lines|
  {
    if lines == [] {
      assert DataLines(lines) + rest == rest && b.data + "" == b.data;
    } else {
      var next := Buffers(b.name, b.data + lines[0] + [LF]);
      var more := DataLines(lines[1..]) + rest;
      FourRegrouped(["data: " + lines[0]], DataLines(lines[1..]), rest, []);
      assert DataLines(lines) + rest == ["data: " + lines[0]] + more;
      InterpretCons(b, "data: " + lines[0], more);
      DataLine(b, lines[0]);
      InterpretData(next, lines[1..], rest);
      FourRegrouped(b.data, lines[0], [LF], Printed(lines[1..]));
    }
  }

  // The data lines and the blank line of a frame.
  lemma InterpretBody(name: string, data: string, rest: seq<string>)
    requires CR !in data
    ensures Interpret(Buffers(name, ""), DataLines(Split(data)) + ([""] + rest)) ==
            [Event(if name == "" then "message" else name, data)] + Interpret(Buffers("", ""), rest)
  {
    var b := Buffers(name, "" + Printed(Split(data)));
    InterpretData(Buffers(name, ""), Split(data), [""] + rest);
    InterpretCons(b, "", rest);
    SplitJoined(data);
    assert b.data == data + [LF];
    assert (data + [LF])[..|data|] == data;
  }

  lemma InterpretFrame(f: Frame, rest: seq<string>)
    ensures Interpret(Buffers("", ""), FrameLines(f) + rest) == [Expected(f)] + Interpret(Buffers("", ""), rest)
  {
    var data := Normalized(f.data);
    var body := DataLines(Split(data)) + ([""] + rest);
    NoCrLeft(WithoutCrLf(f.data));
    if f.event.Some? && f.event.value != "" {
      var name := f.event.value;
      FourRegrouped(["event: " + name], DataLines(Split(data)), [""], rest);
      InterpretCons(Buffers("", ""), "event: " + name, body);
      EventLine(name);
      InterpretBody(name, data, rest);
    } else {
      FourRegrouped([], DataLines(Split(data)), [""], rest);
      assert [] + body == body;
      InterpretBody("", data, rest);
    }
  }

  lemma EventLine(name: string)
    ensures ProcessLine(Buffers("", ""), "event: " + name) == Buffers(name, "")
  {
    assert "event" + ": " == "event: ";
    FieldLine(Buffers("", ""), "event", name);
  }

  lemma {:induction false} InterpretFrames(frames: seq<Frame>)
    ensures Interpret(Buffers("", ""), AllFrameLines(frames)) == AllExpected(frames)
  {
    if frames != [] {
      InterpretFrame(frames[0], AllFrameLines(frames[1..]));
      InterpretFrames(frames[1..]);
    }
  }

  predicate NameUnbroken(f: Frame) {
    f.event.Some? ==> Unbroken(f.event.value)
  }

  lemma {:induction false} FrameLinesUnbroken(f: Frame)
    requires NameUnbroken(f)
    ensures forall line | line in FrameLines(f) :: Unbroken(line)
  {
    NoCrLeft(WithoutCrLf(f.data));
    SplitUnbroken(Normalized(f.data));
    DataLinesUnbroken(Split(Normalized(f.data)));
  }

  lemma {:induction false} DataLinesUnbroken(lines: seq<string>)
    requires AllUnbroken(lines)
    ensures forall line | line in DataLines(lines) :: Unbroken(line)
  {
    if lines != [] {
      DataLinesUnbroken(lines[1..]);
    }
  }

  lemma {:induction false} AllFrameLinesUnbroken(frames: seq<Frame>)
    requires forall n | 0 <= n < |frames| :: NameUnbroken(frames[n])
    ensures forall line | line in AllFrameLines(frames) :: Unbroken(line)
  {
    if frames != [] {
      FrameLinesUnbroken(frames[0]);
      AllFrameLinesUnbroken(frames[1..]);
    }
  }

  // A parser reading the frames one after the other gets exactly their events.
  lemma RoundTrip(frames: seq<Frame>)
    requires forall n | 0 <= n < |frames| :: NameUnbroken(frames[n])
    ensures Parse(Stream(frames)) == AllExpected(frames)
  {
    StreamIsPrinted(frames);
    AllFrameLinesUnbroken(frames);
    LinesOfPrinted(AllFrameLines(frames));
    InterpretFrames(frames);
    StartsWithoutBom(frames);
  }

  lemma StartsWithoutBom(frames: seq<Frame>)
    ensures Stream(frames) == "" || Stream(frames)[0] != BOM
  {
    if frames != [] {
      var f := frames[0];
      var lines := FrameLines(f);
      assert lines[0] == (if f.event.Some? && f.event.value != "" then "event: " + f.event.value
                          else "data: " + Split(Normalized(f.data))[0]);
      assert Stream(frames)[0] == lines[0][0];
    }
  }

  // ----- Names with line breaks never come through

  predicate NamesUnbroken(events: seq<Event>) {
    forall n | 0 <= n < |events| :: Unbroken(events[n].name)
  }

  lemma OneMoreUnbroken(line: string, lines: seq<string>)
    requires Unbroken(line) && AllUnbroken(lines)
    ensures AllUnbroken([line] + lines)
  {
  }

  lemma {:induction false} LinesUnbroken(s: string)
    ensures AllUnbroken(Lines(s))
    decreases |s|
  {
    var n := LineLength(s);
    if n < |s| {
      var skip := if s[n] == CR && n + 1 < |s| && s[n + 1] == LF then n + 2 else n + 1;
      LinesUnbroken(s[skip..]);
      OneMoreUnbroken(s[..n], Lines(s[skip..]));
    }
  }

  lemma {:induction false} InterpretNames(b: Buffers, lines: seq<string>)
    requires Unbroken(b.name) && AllUnbroken(lines)
    ensures NamesUnbroken(Interpret(b, lines))
    decreases |lines|
  {
    if lines != [] {
      if lines[0] == "" {
        InterpretNames(Buffers("", ""), lines[1..]);
      } else {
        InterpretNames(ProcessLine(b, lines[0]), lines[1..]);
      }
    }
  }

  // A frame comes through exactly when its event name has no line break.
  lemma RoundTripOfOne(f: Frame)
    ensures Parse(Printed(FrameLines(f))) == [Expected(f)] <==> NameUnbroken(f)
  {
    var s := Printed(FrameLines(f));
    if NameUnbroken(f) {
      assert Stream([f]) == s + Stream([f][1..]) == s;
      assert AllExpected([f]) == [Expected(f)] + AllExpected([f][1..]);
      RoundTrip([f]);
    } else {
      ParsedNames(s);
      assert !Unbroken([Expected(f)][0].name);
      assert !NamesUnbroken([Expected(f)]);
    }
  }

  lemma ParsedNames(stream: string)
    ensures NamesUnbroken(Parse(stream))
  {
    var rest := if stream != "" && stream[0] == BOM then stream[1..] else stream;
    LinesUnbroken(rest);
    InterpretNames(Buffers("", ""), Lines(rest));
  }
}
