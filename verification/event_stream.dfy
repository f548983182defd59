/** The browser's incremental parser for server-sent events: a buffer that is cut at blank
    lines, and the parser of one block. */
module EventStream {
  import opened Options

  datatype ParsedEvent = ParsedEvent(event: string, data: string)

  // ---------------------------------------------------------------- one block

  /** The position of the first `c` at or after `from`, or |s|. */
  function Find(s: string, c: char, from: nat): (i: nat)
    requires from <= |s|
    ensures from <= i <= |s|
    ensures i < |s| ==> s[i] == c
    ensures forall j :: from <= j < i ==> s[j] != c
    decreases |s| - from
  {
    if from == |s| || s[from] == c then from else Find(s, c, from + 1)
  }

  function SplitLines(block: string): seq<string>
    decreases |block|
  {
    var i := Find(block, '\n', 0);
    if i == |block| then [block] else [block[..i]] + SplitLines(block[i + 1..])
  }

  function StripOneSpace(value: string): string {
    if value != "" && value[0] == ' ' then value[1..] else value
  }

  function FieldOf(line: string): string {
    line[..Find(line, ':', 0)]
  }

  function ValueOf(line: string): string {
    var i := Find(line, ':', 0);
    if i == |line| then "" else StripOneSpace(line[i + 1..])
  }

  predicate Ignored(line: string) {
    line == "" || line[0] == ':'
  }

  /** The event name after the first `n` lines: that of the last event field. */
  function EventName(lines: seq<string>, n: nat): string
    requires n <= |lines|
  {
    if n == 0 then "message"
    else if !Ignored(lines[n - 1]) && FieldOf(lines[n - 1]) == "event" then ValueOf(lines[n - 1])
    else EventName(lines, n - 1)
  }

  function DataValues(lines: seq<string>, n: nat): seq<string>
    requires n <= |lines|
  {
    if n == 0 then []
    else if !Ignored(lines[n - 1]) && FieldOf(lines[n - 1]) == "data"
    then DataValues(lines, n - 1) + [ValueOf(lines[n - 1])]
    else DataValues(lines, n - 1)
  }

  function JoinLines(values: seq<string>): string {
    if values == [] then ""
    else if |values| == 1 then values[0]
    else values[0] + "\n" + JoinLines(values[1..])
  }

  function Parsed(block: string): Option<ParsedEvent> {
    var lines := SplitLines(block);
    var data := DataValues(lines, |lines|);
    if data == [] then None else Some(ParsedEvent(EventName(lines, |lines|), JoinLines(data)))
  }

  method ParseEventBlock(block: string) returns (r: Option<ParsedEvent>)
    ensures r == Parsed(block)
  {
    var event := "message";
    var data: seq<string> := [];
    var lines := SplitLines(block);
    for i := 0 to |lines|
      invariant event == EventName(lines, i)
      invariant data == DataValues(lines, i)
    {
      var line := lines[i];
      if line == "" || line[0] == ':' {
        continue;
      }
      var separator := Find(line, ':', 0);
      var field := if separator == |line| then line else line[..separator];
      var value := if separator == |line| then "" else StripOneSpace(line[separator + 1..]);
      if field == "event" {
        event := value;
      } else if field == "data" {
        data := data + [value];
      }
    }
    return if |data| > 0 then Some(ParsedEvent(event, JoinLines(data))) else None;
  }

  // ---------------------------------------------------------------- the buffer

  predicate BlankAt(s: string, i: nat) {
    i + 1 < |s| && s[i] == '\n' && s[i + 1] == '\n'
  }

  /** The position of the first blank line at or after `from`, or |s|. */
  function Boundary(s: string, from: nat): (i: nat)
    requires from <= |s|
    ensures from <= i <= |s|
    ensures i < |s| ==> BlankAt(s, i)
    ensures forall j :: from <= j < i ==> !BlankAt(s, j)
    decreases |s| - from
  {
    if from == |s| || BlankAt(s, from) then from else Boundary(s, from + 1)
  }

  function Emitted(r: Option<ParsedEvent>): seq<ParsedEvent> {
    if r.Some? then [r.value] else []
  }

  /** Events passed to the handlers, in order, and the text still waiting in the buffer. */
  datatype Progress = Progress(events: seq<ParsedEvent>, rest: string)

  function After(events: seq<ParsedEvent>, p: Progress): Progress {
    Progress(events + p.events, p.rest)
  }

  lemma AfterComposes(first: seq<ParsedEvent>, second: seq<ParsedEvent>, p: Progress)
    ensures After(first, After(second, p)) == After(first + second, p)
    ensures After([], p) == p
  {
    assert first + (second + p.events) == (first + second) + p.events;
    assert [] + p.events == p.events;
  }

  type BlockParser = string -> Option<ParsedEvent>

  /** Everything a buffer yields when its blocks are read by `parse`. */
  function Drain(parse: BlockParser, buffer: string): Progress
    decreases |buffer|
  {
    var i := Boundary(buffer, 0);
    if i == |buffer| then Progress([], buffer)
    else After(Emitted(parse(buffer[..i])), Drain(parse, buffer[i + 2..]))
  }

  /** Every CRLF of a text becomes a line feed. */
  function Normalize(s: string): string {
    if s == "" then ""
    else if |s| >= 2 && s[0] == '\r' && s[1] == '\n' then "\n" + Normalize(s[2..])
    else [s[0]] + Normalize(s[1..])
  }

  /** Everything a buffer yields. */
  function Drained(buffer: string): Progress {
    Drain(Parsed, buffer)
  }

  class Reader {
    var buffer: string

    constructor ()
      ensures buffer == ""
    {
      buffer := "";
    }

    /** One decoded chunk arrives; the handlers are called with `events`, in order. */
    method Receive(chunk: string) returns (events: seq<ParsedEvent>)
      modifies this
      ensures Progress(events, buffer) == Drained(old(buffer) + Normalize(chunk))
    {
      buffer := buffer + Normalize(chunk);
      ghost var all := Drain(Parsed, buffer);
      events := [];
      AfterComposes([], [], all);
      var boundary := Boundary(buffer, 0);
      while boundary < |buffer|
        invariant boundary == Boundary(buffer, 0)
        invariant all == After(events, Drain(Parsed, buffer))
        decreases |buffer|
      {
        var parsed := ParseEventBlock(buffer[..boundary]);
        buffer := buffer[boundary + 2..];
        AfterComposes(events, Emitted(parsed), Drain(Parsed, buffer));
        if parsed.Some? {
          events := events + [parsed.value];
        } else {
          assert events + [] == events;
        }
        boundary := Boundary(buffer, 0);
      }
    }
  }

  /** What a reader has emitted and still holds after the first `n` chunks. */
  function Received(drain: string -> Progress, chunks: seq<string>, n: nat): Progress
    requires n <= |chunks|
  {
    if n == 0 then Progress([], "")
    else
      var before := Received(drain, chunks, n - 1);
      After(before.events, drain(before.rest + Normalize(chunks[n - 1])))
  }

  function Concat(chunks: seq<string>, n: nat): string
    requires n <= |chunks|
  {
    if n == 0 then "" else Concat(chunks, n - 1) + chunks[n - 1]
  }

  function ConcatNormalized(chunks: seq<string>, n: nat): string
    requires n <= |chunks|
  {
    if n == 0 then "" else ConcatNormalized(chunks, n - 1) + Normalize(chunks[n - 1])
  }

  // ---------------------------------------------------------------- chunk independence

  lemma BoundaryOfPrefix(a: string, b: string)
    requires Boundary(a, 0) < |a|
    ensures Boundary(a + b, 0) == Boundary(a, 0)
  {
    var i := Boundary(a, 0);
    assert BlankAt(a + b, i);
    assert forall j :: 0 <= j < i ==> BlankAt(a + b, j) == BlankAt(a, j);
  }

  lemma DrainFirstBlock(parse: BlockParser, text: string, block: string, later: string)
    requires text == block + "\n\n" + later && Boundary(text, 0) == |block|
    ensures Drain(parse, text) == After(Emitted(parse(block)), Drain(parse, later))
  {
    assert text[..|block|] == block && text[|block| + 2..] == later;
  }

  lemma CutAtBoundary(a: string, b: string) returns (block: string, later: string)
    requires Boundary(a, 0) < |a|
    ensures a == block + "\n\n" + later && Boundary(a, 0) == |block|
    ensures a + b == block + "\n\n" + (later + b) && Boundary(a + b, 0) == |block|
  {
    var i := Boundary(a, 0);
    block, later := a[..i], a[i + 2..];
    BoundaryOfPrefix(a, b);
  }

  /** Draining `a` before `b` arrives gives what draining both together gives. */
  ghost predicate Composes(drain: string -> Progress, a: string, b: string) {
    drain(a + b) == After(drain(a).events, drain(drain(a).rest + b))
  }

  lemma ComposeBlocks(first: seq<ParsedEvent>, later: Progress, both: Progress, end: Progress)
    requires both == After(later.events, end)
    ensures After(first, both) == After(After(first, later).events, end)
  {
    AfterComposes(first, later.events, end);
  }

  /** Draining a buffer early changes nothing: what is left continues with the next text. */
  lemma {:induction false} DrainInTwoSteps(parse: BlockParser, a: string, b: string)
    ensures Drain(parse, a + b) == After(Drain(parse, a).events, Drain(parse, Drain(parse, a).rest + b))
    decreases |a|
  {
    if Boundary(a, 0) < |a| {
      var block, later := CutAtBoundary(a, b);
      DrainFirstBlock(parse, a, block, later);
      DrainFirstBlock(parse, a + b, block, later + b);
      DrainInTwoSteps(parse, later, b);
      ComposeBlocks(Emitted(parse(block)), Drain(parse, later), Drain(parse, later + b),
                    Drain(parse, Drain(parse, later).rest + b));
    } else {
      AfterComposes([], [], Drain(parse, a + b));
    }
  }

  /** For any chunks at all, a buffer that is drained as chunks arrive emits and keeps what
      draining the concatenated normalised chunks at once would. */
  lemma {:induction false} ChunksParseAsOne(drain: string -> Progress, chunks: seq<string>, n: nat)
    requires n <= |chunks|
    requires drain("") == Progress([], "")
    requires forall a, b {:trigger Composes(drain, a, b)} :: Composes(drain, a, b)
    ensures Received(drain, chunks, n) == drain(ConcatNormalized(chunks, n))
  {
    if n > 0 {
      ChunksParseAsOne(drain, chunks, n - 1);
      assert Composes(drain, ConcatNormalized(chunks, n - 1), Normalize(chunks[n - 1]));
    }
  }

  lemma DrainedParsesAsOne(chunks: seq<string>, n: nat)
    requires n <= |chunks|
    ensures Received(Drained, chunks, n) == Drained(ConcatNormalized(chunks, n))
  {
    forall a, b ensures Composes(Drained, a, b) {
      DrainInTwoSteps(Parsed, a, b);
    }
    ChunksParseAsOne(Drained, chunks, n);
  }

  /** Does a CRLF straddle the end of `a` and the start of `b`? */
  predicate SplitsCrLf(a: string, b: string) {
    a != "" && b != "" && a[|a| - 1] == '\r' && b[0] == '\n'
  }

  predicate SplitFree(chunks: seq<string>, n: nat)
    requires n <= |chunks|
  {
    n == 0 || (SplitFree(chunks, n - 1) && !SplitsCrLf(Concat(chunks, n - 1), chunks[n - 1]))
  }

  lemma NormalizeCrLf(s: string)
    ensures Normalize("\r\n" + s) == "\n" + Normalize(s)
  {
    assert ("\r\n" + s)[2..] == s;
  }

  lemma NormalizeChar(c: char, s: string)
    requires !SplitsCrLf([c], s)
    ensures Normalize([c] + s) == [c] + Normalize(s)
  {
    assert ([c] + s)[1..] == s;
  }

  lemma Associates(a: string, b: string, c: string)
    ensures a + b + c == a + (b + c)
  {}

  lemma JoinAfterCrLf(s: string, b: string)
    requires Normalize(s + b) == Normalize(s) + Normalize(b)
    ensures Normalize("\r\n" + s + b) == Normalize("\r\n" + s) + Normalize(b)
  {
    NormalizeCrLf(s);
    NormalizeCrLf(s + b);
    Associates("\r\n", s, b);
    Associates("\n", Normalize(s), Normalize(b));
  }

  lemma JoinAfterChar(c: char, s: string, b: string)
    requires !SplitsCrLf([c], s) && !SplitsCrLf([c], s + b)
    requires Normalize(s + b) == Normalize(s) + Normalize(b)
    ensures Normalize([c] + s + b) == Normalize([c] + s) + Normalize(b)
  {
    NormalizeChar(c, s);
    NormalizeChar(c, s + b);
    Associates([c], s, b);
    Associates([c], Normalize(s), Normalize(b));
  }

  lemma {:induction false} NormalizeUnsplit(a: string, b: string)
    requires !SplitsCrLf(a, b)
    ensures Normalize(a + b) == Normalize(a) + Normalize(b)
    decreases |a|
  {
    if a == "" {
      assert a + b == b;
    } else if SplitsCrLf(a[..1], a[1..]) {
      NormalizeUnsplit(a[2..], b);
      JoinAfterCrLf(a[2..], b);
      assert a == "\r\n" + a[2..];
    } else {
      NormalizeUnsplit(a[1..], b);
      JoinAfterChar(a[0], a[1..], b);
      assert a == [a[0]] + a[1..];
    }
  }

  lemma NormalizeSplit(a: string, b: string)
    requires SplitsCrLf(a, b)
    ensures |Normalize(a + b)| + 1 == |Normalize(a)| + |Normalize(b)|
  {
    var s, t := a[..|a| - 1], b[1..];
    assert a == s + "\r" && b == ['\n'] + t && a + b == s + ("\r\n" + t);
    NormalizeUnsplit(s, "\r\n" + t);
    NormalizeUnsplit(s, "\r");
    NormalizeCrLf(t);
    NormalizeChar('\n', t);
    NormalizedPieces();
  }

  lemma {:induction false} NormalizedLength(chunks: seq<string>, n: nat)
    requires n <= |chunks|
    ensures |ConcatNormalized(chunks, n)| >= |Normalize(Concat(chunks, n))|
    ensures SplitFree(chunks, n) ==> ConcatNormalized(chunks, n) == Normalize(Concat(chunks, n))
    ensures !SplitFree(chunks, n) ==> |ConcatNormalized(chunks, n)| > |Normalize(Concat(chunks, n))|
  {
    if n > 0 {
      NormalizedLength(chunks, n - 1);
      var before, chunk := Concat(chunks, n - 1), chunks[n - 1];
      if SplitsCrLf(before, chunk) { NormalizeSplit(before, chunk); } else { NormalizeUnsplit(before, chunk); }
    }
  }

  /** The reader sees the text it would have seen in one piece exactly when no CRLF is split
      between two chunks. */
  lemma ChunkingInvisibleIff(chunks: seq<string>)
    ensures ConcatNormalized(chunks, |chunks|) == Normalize(Concat(chunks, |chunks|)) <==> SplitFree(chunks, |chunks|)
  {
    NormalizedLength(chunks, |chunks|);
  }

  /** Chunk independence: two ways of cutting the same stream, neither inside a CRLF, give the
      same events and the same rest. */
  lemma ChunkIndependence(chunks: seq<string>, others: seq<string>)
    requires Concat(chunks, |chunks|) == Concat(others, |others|)
    requires SplitFree(chunks, |chunks|) && SplitFree(others, |others|)
    ensures Received(Drained, chunks, |chunks|) == Received(Drained, others, |others|)
      == Drained(Normalize(Concat(chunks, |chunks|)))
  {
    DrainedParsesAsOne(chunks, |chunks|);
    DrainedParsesAsOne(others, |others|);
    NormalizedLength(chunks, |chunks|);
    NormalizedLength(others, |others|);
  }

  // ---------------------------------------------------------------- what the server prints

  /** The frames of the live stream. */
  datatype Frame = Retry | KeepAlive | Message(event: string, data: string)

  function Printed(f: Frame): string {
    match f
    case Retry => "retry: 5000" + "\n\n"
    case KeepAlive => ": keepalive" + "\n\n"
    case Message(event, data) => ("event: " + event + "\n" + ("data: " + data)) + "\n\n"
  }

  /** Event names and one-line JSON texts: no line breaks inside. */
  predicate OneLine(s: string) {
    '\n' !in s && '\r' !in s
  }

  predicate Printable(f: Frame) {
    f.Message? ==> OneLine(f.event) && OneLine(f.data)
  }

  function PrintedFrames(frames: seq<Frame>): string {
    if frames == [] then "" else Printed(frames[0]) + PrintedFrames(frames[1..])
  }

  function Delivered(frames: seq<Frame>): seq<ParsedEvent> {
    if frames == [] then []
    else (if frames[0].Message? then [ParsedEvent(frames[0].event, frames[0].data)] else [])
         + Delivered(frames[1..])
  }

  lemma FindIs(s: string, c: char, i: nat)
    requires i <= |s| && (i < |s| ==> s[i] == c) && (forall j :: 0 <= j < i ==> s[j] != c)
    ensures Find(s, c, 0) == i
  {}

  lemma SplitOneLine(line: string)
    requires '\n' !in line
    ensures SplitLines(line) == [line]
  {
    FindIs(line, '\n', |line|);
  }

  lemma SplitTwoLines(a: string, b: string)
    requires '\n' !in a && '\n' !in b
    ensures SplitLines(a + "\n" + b) == [a, b]
  {
    var block := a + "\n" + b;
    FindIs(block, '\n', |a|);
    assert block[..|a|] == a && block[|a| + 1..] == b;
    SplitOneLine(b);
  }

  lemma FieldLine(name: string, value: string)
    requires ':' !in name && name != ""
    ensures !Ignored(name + ": " + value)
    ensures FieldOf(name + ": " + value) == name && ValueOf(name + ": " + value) == value
  {
    var line := name + ": " + value;
    FindIs(line, ':', |name|);
    assert line[..|name|] == name;
    assert line[|name| + 1..] == " " + value;
    assert (" " + value)[1..] == value;
  }

  lemma MessageParses(event: string, data: string)
    requires OneLine(event) && OneLine(data)
    ensures Parsed("event: " + event + "\n" + ("data: " + data)) == Some(ParsedEvent(event, data))
  {
    var first, second := "event" + ": " + event, "data" + ": " + data;
    assert "event: " + event == first && "data: " + data == second;
    SplitTwoLines(first, second);
    FieldLine("event", event);
    FieldLine("data", data);
    var lines := [first, second];
    assert DataValues(lines, 1) == [] && DataValues(lines, 2) == [data];
    assert EventName(lines, 1) == event && EventName(lines, 2) == event;
  }

  lemma SingleLineParsesToNothing(line: string)
    requires '\n' !in line && (Ignored(line) || FieldOf(line) != "data")
    ensures Parsed(line) == None
  {
    SplitOneLine(line);
    assert DataValues([line], 1) == DataValues([line], 0);
  }

  /** The printed block of a frame, without its final blank line. */
  function Block(f: Frame): string {
    match f
    case Retry => "retry: 5000"
    case KeepAlive => ": keepalive"
    case Message(event, data) => "event: " + event + "\n" + ("data: " + data)
  }

  lemma BlockParses(f: Frame)
    requires Printable(f)
    ensures Emitted(Parsed(Block(f))) == Delivered([f])
  {
    match f
    case Retry =>
      assert "retry: 5000" == "retry" + ": " + "5000";
      FieldLine("retry", "5000");
      SingleLineParsesToNothing("retry: 5000");
    case KeepAlive => SingleLineParsesToNothing(": keepalive");
    case Message(event, data) => MessageParses(event, data);
  }

  lemma BlockHasNoBlankLine(f: Frame, more: string)
    requires Printable(f)
    ensures Boundary(Block(f) + "\n\n" + more, 0) == |Block(f)|
  {
    var text := Block(f) + "\n\n" + more;
    forall j | 0 <= j < |Block(f)| ensures !BlankAt(text, j) {
      if f.Message? && j == 7 + |f.event| {
        assert text[j + 1] == 'd';
      } else {
        assert text[j] == Block(f)[j] != '\n';
      }
    }
    assert BlankAt(text, |Block(f)|);
  }

  lemma {:induction false} FramesDrain(frames: seq<Frame>)
    requires forall f <- frames :: Printable(f)
    ensures Drained(PrintedFrames(frames)) == Progress(Delivered(frames), "")
  {
    if frames != [] {
      var f, rest := frames[0], PrintedFrames(frames[1..]);
      FramesDrain(frames[1..]);
      var text := PrintedFrames(frames);
      assert text == Block(f) + "\n\n" + rest;
      BlockHasNoBlankLine(f, rest);
      DrainFirstBlock(Parsed, text, Block(f), rest);
      BlockParses(f);
    }
  }

  lemma {:induction false} NormalizeKeeps(s: string)
    requires '\r' !in s
    ensures Normalize(s) == s
  {
    if s != "" { NormalizeKeeps(s[1..]); }
  }

  lemma PrintedHasNoReturn(f: Frame)
    requires Printable(f)
    ensures '\r' !in Printed(f)
  {}

  lemma {:induction false} FramesHaveNoReturn(frames: seq<Frame>)
    requires forall f <- frames :: Printable(f)
    ensures '\r' !in PrintedFrames(frames)
  {
    if frames != [] {
      PrintedHasNoReturn(frames[0]);
      FramesHaveNoReturn(frames[1..]);
    }
  }

  lemma {:induction false} NoReturnMeansSplitFree(chunks: seq<string>, n: nat)
    requires n <= |chunks| && '\r' !in Concat(chunks, n)
    ensures SplitFree(chunks, n)
  {
    if n > 0 {
      assert forall c :: c in Concat(chunks, n - 1) ==> c in Concat(chunks, n);
      NoReturnMeansSplitFree(chunks, n - 1);
    }
  }

  /** Round trip: whatever frames the server prints and however the network cuts the stream,
      the reader delivers exactly the printed (event, data) pairs and keeps nothing back. */
  lemma PrintedFramesArrive(frames: seq<Frame>, chunks: seq<string>)
    requires forall f <- frames :: Printable(f)
    requires Concat(chunks, |chunks|) == PrintedFrames(frames)
    ensures Received(Drained, chunks, |chunks|) == Progress(Delivered(frames), "")
  {
    FramesHaveNoReturn(frames);
    NoReturnMeansSplitFree(chunks, |chunks|);
    ChunkIndependence(chunks, chunks);
    NormalizeKeeps(PrintedFrames(frames));
    FramesDrain(frames);
  }

  lemma NormalizedPieces()
    ensures Normalize("\r") == "\r" && Normalize("\r\n\r\n") == "\n\n" && Normalize("\n\r\n") == "\n\n"
  {
    assert "\r"[1..] == "" && "\r\n\r\n"[2..] == "\r\n" && "\n\r\n"[1..] == "\r\n" && "\r\n"[2..] == "";
    assert Normalize("\r\n") == "\n" + Normalize("");
  }

  lemma WholeAndCutTexts(line: string)
    requires OneLine(line)
    ensures ConcatNormalized([line + "\r\n\r\n"], 1) == line + "\n\n"
    ensures ConcatNormalized([line + "\r", "\n\r\n"], 2) == line + "\r" + "\n\n"
  {
    NormalizedPieces();
    NormalizeKeeps(line);
    NormalizeUnsplit(line, "\r\n\r\n");
    NormalizeUnsplit(line, "\r");
    assert ConcatNormalized([line + "\r\n\r\n"], 0) == "";
    assert ConcatNormalized([line + "\r", "\n\r\n"], 0) == "";
    assert ConcatNormalized([line + "\r", "\n\r\n"], 1) == line + "\r";
  }

  /** A CRLF cut in two is not recognised: the same text in one piece gives other data. */
  lemma SplitCrLfChangesTheData(value: string)
    requires OneLine(value)
    ensures Received(Drained, ["data: " + value + "\r\n\r\n"], 1) == Progress([ParsedEvent("message", value)], "")
    ensures Received(Drained, ["data: " + value + "\r", "\n\r\n"], 2)
      == Progress([ParsedEvent("message", value + "\r")], "")
  {
    var line := "data: " + value;
    WholeAndCutTexts(line);
    DrainedParsesAsOne([line + "\r\n\r\n"], 1);
    DrainedParsesAsOne([line + "\r", "\n\r\n"], 2);
    assert line + "\r" + "\n\n" == "data: " + (value + "\r") + "\n\n";
    DataBlock(value);
    DataBlock(value + "\r");
  }

  lemma DataBlock(value: string)
    requires '\n' !in value
    ensures Drained("data: " + value + "\n\n") == Progress([ParsedEvent("message", value)], "")
  {
    var block := "data: " + value;
    var text := block + "\n\n";
    assert block == "data" + ": " + value;
    FieldLine("data", value);
    SplitOneLine(block);
    assert DataValues([block], 0) == [] && DataValues([block], 1) == [] + [value] == [value];
    assert EventName([block], 0) == "message" == EventName([block], 1);
    assert Parsed(block) == Some(ParsedEvent("message", value));
    assert Boundary(text, 0) == |block| by {
      assert BlankAt(text, |block|);
      assert forall j :: 0 <= j < |block| ==> text[j] == block[j];
    }
    assert text[..|block|] == block && text[|block| + 2..] == "";
    assert Drained("") == Progress([], "");
  }

  lemma OneLineBlock(block: string)
    requires '\n' !in block
    ensures Drained(block + "\n\n") == Progress(Emitted(Parsed(block)), "")
    ensures Parsed(block)
         == if !Ignored(block) && FieldOf(block) == "data" then Some(ParsedEvent("message", ValueOf(block))) else None
  {
    var text := block + "\n\n";
    SplitOneLine(block);
    assert DataValues([block], 0) == [];
    assert EventName([block], 0) == "message";
    assert Boundary(text, 0) == |block| by {
      assert BlankAt(text, |block|);
      assert forall j :: 0 <= j < |block| ==> text[j] == block[j];
    }
    assert text[..|block|] == block && text[|block| + 2..] == "";
    assert Drained("") == Progress([], "");
  }

  lemma StrippedReturn(value: string)
    ensures |StripOneSpace(value + "\r")| == |StripOneSpace(value)| + 1
  {
    if value != "" { assert (value + "\r")[0] == value[0]; }
  }

  lemma ColonStays(line: string, i: nat)
    requires i < |line| && line[i] == ':' && forall j :: 0 <= j < i ==> line[j] != ':'
    ensures Find(line, ':', 0) == i == Find(line + "\r", ':', 0)
    ensures (line + "\r")[..i] == line[..i] && (line + "\r")[i + 1..] == line[i + 1..] + "\r"
  {
    FindIs(line, ':', i);
    FindIs(line + "\r", ':', i);
  }

  lemma ReturnAfterColon(line: string)
    requires Find(line, ':', 0) < |line|
    ensures FieldOf(line + "\r") == FieldOf(line) && |ValueOf(line + "\r")| == |ValueOf(line)| + 1
  {
    var i := Find(line, ':', 0);
    ColonStays(line, i);
    StrippedReturn(line[i + 1..]);
  }

  lemma ReturnAfterName(line: string)
    requires OneLine(line) && Find(line, ':', 0) == |line|
    ensures FieldOf(line + "\r") != "data" && FieldOf(line + "\r") != "event"
  {
    var cut := line + "\r";
    FindIs(cut, ':', |cut|);
    assert cut[..|cut|] == cut && cut[|line|] == '\r';
    assert "data"[3] == 'a' && "event"[4] == 't';
  }

  lemma ReturnIsReadIff(line: string)
    requires OneLine(line)
    ensures '\n' !in line + "\r"
    ensures Emitted(Parsed(line)) == Emitted(Parsed(line + "\r")) <==> Ignored(line) || FieldOf(line) != "data"
  {
    OneLineBlock(line);
    OneLineBlock(line + "\r");
    if Find(line, ':', 0) == |line| {
      ReturnAfterName(line);
    } else {
      ReturnAfterColon(line);
    }
    assert Ignored(line) ==> line == "" || line[0] == ':' == (line + "\r")[0];
  }

  /** The events of a one-line block change with a CRLF cut in two exactly when it is a data line: a
      stray return in a comment or in a field that is not read is never seen. */
  lemma SplitCrLfSeenIff(line: string)
    requires OneLine(line)
    ensures Received(Drained, [line + "\r\n\r\n"], 1) == Received(Drained, [line + "\r", "\n\r\n"], 2)
       <==> Ignored(line) || FieldOf(line) != "data"
  {
    ReturnIsReadIff(line);
    WholeAndCutTexts(line);
    DrainedParsesAsOne([line + "\r\n\r\n"], 1);
    DrainedParsesAsOne([line + "\r", "\n\r\n"], 2);
    OneLineBlock(line);
    OneLineBlock(line + "\r");
  }

  /** A CRLF cut in two at the blank line itself leaves the event in the buffer. */
  lemma SplitBlankLineHoldsTheEvent(line: string)
    requires OneLine(line)
    ensures Received(Drained, [line + "\r\n\r", "\n"], 2) == Progress([], line + "\n\r\n")
  {
    var chunks, text := [line + "\r\n\r", "\n"], line + "\n\r\n";
    NormalizedPieces();
    NormalizeKeeps(line);
    NormalizeUnsplit(line, "\r\n\r");
    assert "\r\n\r"[2..] == "\r" && Normalize("\r\n\r") == "\n" + Normalize("\r");
    assert ConcatNormalized(chunks, 0) == "";
    assert ConcatNormalized(chunks, 1) == line + "\n\r";
    assert "\n"[1..] == "" && Normalize("\n") == "\n";
    assert ConcatNormalized(chunks, 2) == text;
    DrainedParsesAsOne(chunks, 2);
    assert forall j :: 0 <= j < |line| ==> text[j] == line[j];
    assert Boundary(text, 0) == |text|;
  }

  // ---------------------------------------------------------------- a split line end in a block

  predicate BlockLines(lines: seq<string>) {
    lines != [] && forall i :: 0 <= i < |lines| ==> lines[i] != "" && OneLine(lines[i])
  }

  function ParsedLines(lines: seq<string>): Option<ParsedEvent> {
    var data := DataValues(lines, |lines|);
    if data == [] then None else Some(ParsedEvent(EventName(lines, |lines|), JoinLines(data)))
  }

  predicate IsField(line: string, field: string) {
    !Ignored(line) && FieldOf(line) == field
  }

  predicate HasColon(line: string) {
    Find(line, ':', 0) < |line|
  }

  /** The lines with a stray return at the end of line `k`. */
  function WithReturn(lines: seq<string>, k: nat): seq<string>
    requires k < |lines|
  {
    lines[k := lines[k] + "\r"]
  }

  /** What a stray return does to one line. */
  lemma LineWithReturn(line: string)
    requires line != "" && OneLine(line)
    ensures var cut := line + "\r";
            && Ignored(cut) == Ignored(line)
            && (HasColon(line) ==> FieldOf(cut) == FieldOf(line) && |ValueOf(cut)| == |ValueOf(line)| + 1)
            && (!HasColon(line) ==> ValueOf(line) == "" && !IsField(cut, "data") && !IsField(cut, "event"))
  {
    assert (line + "\r")[0] == line[0];
    if HasColon(line) { ReturnAfterColon(line); } else { ReturnAfterName(line); }
  }

  /** Is line `k` the one that names the event, and does the name change with it? A line without a
      colon names the empty event, and with a return nothing. */
  predicate Names(lines: seq<string>, k: nat)
    requires k < |lines|
  {
    && IsField(lines[k], "event") && (forall j :: k < j < |lines| ==> !IsField(lines[j], "event"))
    && (HasColon(lines[k]) || EventName(lines, k) != "")
  }

  lemma {:induction false} SameNameBefore(lines: seq<string>, k: nat, n: nat)
    requires n <= k < |lines|
    ensures EventName(WithReturn(lines, k), n) == EventName(lines, n)
    ensures DataValues(WithReturn(lines, k), n) == DataValues(lines, n)
  {
    if n > 0 { SameNameBefore(lines, k, n - 1); }
  }

  lemma {:induction false} NameAfterReturn(lines: seq<string>, k: nat, n: nat)
    requires BlockLines(lines) && k < n <= |lines|
    ensures EventName(WithReturn(lines, k), n) == EventName(lines, n)
       <==> !IsField(lines[k], "event") || (exists j :: k < j < n && IsField(lines[j], "event"))
            || (!HasColon(lines[k]) && EventName(lines, k) == "")
  {
    var cut := WithReturn(lines, k);
    if n == k + 1 {
      SameNameBefore(lines, k, k);
      LineWithReturn(lines[k]);
    } else {
      NameAfterReturn(lines, k, n - 1);
      assert cut[n - 1] == lines[n - 1];
    }
  }

  function Size(values: seq<string>): nat {
    if values == [] then 0 else |values[0]| + 1 + Size(values[1..])
  }

  lemma {:induction false} JoinedSize(values: seq<string>)
    requires values != []
    ensures |JoinLines(values)| + 1 == Size(values)
  {
    if |values| > 1 { JoinedSize(values[1..]); } else { assert values[1..] == []; }
  }

  lemma {:induction false} SizeOfAppended(values: seq<string>, v: string)
    ensures Size(values + [v]) == Size(values) + |v| + 1
  {
    if values == [] {
      assert ([v])[1..] == [] && values + [v] == [v];
    } else {
      SizeOfAppended(values[1..], v);
      assert (values + [v])[1..] == values[1..] + [v];
    }
  }

  /** A stray return changes the size of the data exactly when its line is a data line. */
  lemma {:induction false} DataAfterReturn(lines: seq<string>, k: nat, n: nat)
    requires BlockLines(lines) && k < n <= |lines|
    ensures var cut := WithReturn(lines, k);
            && (!IsField(lines[k], "data") ==> DataValues(cut, n) == DataValues(lines, n))
            && (IsField(lines[k], "data") ==>
                  Size(DataValues(cut, n)) + 1 == Size(DataValues(lines, n)) + (if HasColon(lines[k]) then 2 else 0))
  {
    var cut := WithReturn(lines, k);
    if n == k + 1 {
      SameNameBefore(lines, k, k);
      LineWithReturn(lines[k]);
      SizeOfAppended(DataValues(lines, k), ValueOf(lines[k]));
      SizeOfAppended(DataValues(lines, k), ValueOf(cut[k]));
    } else {
      DataAfterReturn(lines, k, n - 1);
      assert cut[n - 1] == lines[n - 1];
      SizeOfAppended(DataValues(lines, n - 1), ValueOf(lines[n - 1]));
      SizeOfAppended(DataValues(cut, n - 1), ValueOf(lines[n - 1]));
    }
  }

  lemma SameDataSameSize(a: seq<string>, b: seq<string>)
    requires Size(a) != Size(b)
    ensures a == [] ==> b != []
    ensures a != [] && b != [] ==> JoinLines(a) != JoinLines(b)
  {
    if a != [] && b != [] {
      JoinedSize(a);
      JoinedSize(b);
    }
  }

  /** What a block says changes with a stray return exactly when the return ends a data line, or the
      line that names the event of a block with data. */
  lemma StrayReturnSeenIff(lines: seq<string>, k: nat)
    requires BlockLines(lines) && k < |lines|
    ensures ParsedLines(WithReturn(lines, k)) != ParsedLines(lines)
       <==> IsField(lines[k], "data") || (DataValues(lines, |lines|) != [] && Names(lines, k))
  {
    var cut, n := WithReturn(lines, k), |lines|;
    DataAfterReturn(lines, k, n);
    NameAfterReturn(lines, k, n);
    if IsField(lines[k], "data") { SameDataSameSize(DataValues(cut, n), DataValues(lines, n)); }
  }

  // ---------------------------------------------------------------- and on the wire

  lemma {:induction false} SplitJoined(lines: seq<string>)
    requires lines != [] && forall i :: 0 <= i < |lines| ==> '\n' !in lines[i]
    ensures SplitLines(JoinLines(lines)) == lines
  {
    if |lines| == 1 {
      SplitOneLine(lines[0]);
    } else {
      SplitJoined(lines[1..]);
      var text := JoinLines(lines);
      FindIs(text, '\n', |lines[0]|);
      assert text[..|lines[0]|] == lines[0] && text[|lines[0]| + 1..] == JoinLines(lines[1..]);
    }
  }

  /** The lines a block may consist of, as a sender means them. */
  datatype Line = Comment(text: string) | Event(name: string) | Data(value: string) | Field(key: string, value: string)

  predicate Sendable(l: Line) {
    match l
    case Comment(text) => '\n' !in text
    case Event(name) => '\n' !in name
    case Data(value) => '\n' !in value
    case Field(key, value) =>
      key != "" && ':' !in key && '\n' !in key && '\n' !in value && key != "event" && key != "data"
  }

  function Sent(l: Line): string {
    match l
    case Comment(text) => ":" + text
    case Event(name) => "event" + ": " + name
    case Data(value) => "data" + ": " + value
    case Field(key, value) => key + ": " + value
  }

  function AllSent(lines: seq<Line>): seq<string> {
    seq(|lines|, i requires 0 <= i < |lines| => Sent(lines[i]))
  }

  /** The values of the data lines among the first `n`, in order. */
  function DataSent(lines: seq<Line>, n: nat): seq<string>
    requires n <= |lines|
  {
    if n == 0 then []
    else if lines[n - 1].Data? then DataSent(lines, n - 1) + [lines[n - 1].value] else DataSent(lines, n - 1)
  }

  /** The name is that of the last event line among the first `n`, "message" without one. */
  predicate NamedLast(name: string, lines: seq<Line>, n: nat)
    requires n <= |lines|
  {
    || (name == "message" && forall i :: 0 <= i < n ==> !lines[i].Event?)
    || exists k :: 0 <= k < n && lines[k] == Event(name) && forall i :: k < i < n ==> !lines[i].Event?
  }

  lemma SentLine(l: Line)
    requires Sendable(l)
    ensures '\n' !in Sent(l) && Sent(l) != ""
    ensures Ignored(Sent(l)) <==> l.Comment?
    ensures l.Event? ==> FieldOf(Sent(l)) == "event" && ValueOf(Sent(l)) == l.name
    ensures l.Data? ==> FieldOf(Sent(l)) == "data" && ValueOf(Sent(l)) == l.value
    ensures l.Field? ==> FieldOf(Sent(l)) == l.key
  {
    match l
    case Comment(text) =>
    case Event(name) => FieldLine("event", name);
    case Data(value) => FieldLine("data", value);
    case Field(key, value) => FieldLine(key, value);
  }

  lemma {:induction false} SentDataIsRead(lines: seq<Line>, n: nat)
    requires n <= |lines| && forall l :: l in lines ==> Sendable(l)
    ensures DataValues(AllSent(lines), n) == DataSent(lines, n)
  {
    if n > 0 {
      SentDataIsRead(lines, n - 1);
      SentLine(lines[n - 1]);
    }
  }

  lemma {:induction false} SentNameIsRead(lines: seq<Line>, n: nat)
    requires n <= |lines| && forall l :: l in lines ==> Sendable(l)
    ensures NamedLast(EventName(AllSent(lines), n), lines, n)
  {
    if n > 0 {
      SentNameIsRead(lines, n - 1);
      SentLine(lines[n - 1]);
      if lines[n - 1].Event? { assert lines[n - 1] == Event(EventName(AllSent(lines), n)); }
    }
  }

  lemma {:induction false} DataSentIsOneLineEach(lines: seq<Line>, n: nat)
    requires n <= |lines| && forall l :: l in lines ==> Sendable(l)
    ensures forall i :: 0 <= i < |DataSent(lines, n)| ==> '\n' !in DataSent(lines, n)[i]
  {
    if n > 0 {
      DataSentIsOneLineEach(lines, n - 1);
      assert Sendable(lines[n - 1]);
    }
  }

  /** Round trip of a block of any lines: it is delivered exactly when it has a data line; its data falls
      apart at the line feeds into the values sent, in order, and its name is that of the last event
      line, "message" without one. Comments and other fields leave no trace. */
  lemma SentBlockArrives(lines: seq<Line>)
    requires lines != [] && forall l :: l in lines ==> Sendable(l)
    ensures var parsed, data := Parsed(JoinLines(AllSent(lines))), DataSent(lines, |lines|);
            && (parsed.Some? <==> exists i :: 0 <= i < |lines| && lines[i].Data?)
            && (parsed.Some? ==>
                  SplitLines(parsed.value.data) == data && NamedLast(parsed.value.event, lines, |lines|))
  {
    forall i | 0 <= i < |lines| ensures '\n' !in AllSent(lines)[i] {
      SentLine(lines[i]);
    }
    SplitJoined(AllSent(lines));
    SentDataIsRead(lines, |lines|);
    SentNameIsRead(lines, |lines|);
    SomeDataSent(lines, |lines|);
    DataSentIsOneLineEach(lines, |lines|);
    if DataSent(lines, |lines|) != [] { SplitJoined(DataSent(lines, |lines|)); }
  }

  lemma {:induction false} SomeDataSent(lines: seq<Line>, n: nat)
    requires n <= |lines|
    ensures DataSent(lines, n) != [] <==> exists i :: 0 <= i < n && lines[i].Data?
  {
    if n > 0 { SomeDataSent(lines, n - 1); }
  }

  /** No blank line comes before the one that ends the block. */
  lemma {:induction false} JoinedHasNoBlankLine(lines: seq<string>)
    requires lines != [] && forall i :: 0 <= i < |lines| ==> lines[i] != "" && '\n' !in lines[i]
    ensures JoinLines(lines) != "" && JoinLines(lines)[0] != '\n'
    ensures Boundary(JoinLines(lines) + "\n\n", 0) == |JoinLines(lines)|
  {
    var text := JoinLines(lines) + "\n\n";
    assert BlankAt(text, |JoinLines(lines)|);
    if |lines| > 1 {
      JoinedHasNoBlankLine(lines[1..]);
      var rest := JoinLines(lines[1..]) + "\n\n";
      assert text == lines[0] + "\n" + rest;
      forall j | 0 <= j < |JoinLines(lines)| ensures !BlankAt(text, j) {
        if j > |lines[0]| {
          assert BlankAt(text, j) == BlankAt(rest, j - |lines[0]| - 1);
        }
      }
    }
  }

  lemma BlockDrains(lines: seq<string>)
    requires lines != [] && forall i :: 0 <= i < |lines| ==> lines[i] != "" && '\n' !in lines[i]
    ensures Drained(JoinLines(lines) + "\n\n") == Progress(Emitted(ParsedLines(lines)), "")
  {
    var block := JoinLines(lines);
    JoinedHasNoBlankLine(lines);
    SplitJoined(lines);
    assert block + "\n\n" == block + "\n\n" + "";
    DrainFirstBlock(Parsed, block + "\n\n", block, "");
    assert Drained("") == Progress([], "");
  }

  /** The text after the end of line `k`. */
  function Tail(lines: seq<string>, k: nat): string
    requires k < |lines|
  {
    if k + 1 < |lines| then JoinLines(lines[k + 1..]) + "\n\n" else "\n"
  }

  lemma {:induction false} JoinedAt(lines: seq<string>, k: nat)
    requires k < |lines|
    ensures JoinLines(lines) + "\n\n" == JoinLines(lines[..k + 1]) + "\n" + Tail(lines, k)
  {
    if k == 0 {
      assert lines[..1] == [lines[0]];
      if |lines| == 1 { assert lines[0] + "\n\n" == lines[0] + "\n" + "\n"; }
    } else {
      JoinedAt(lines[1..], k - 1);
      assert lines[1..][..k] == lines[..k + 1][1..] && lines[1..][k..] == lines[k + 1..];
      var first, before, tail := lines[0] + "\n", JoinLines(lines[1..][..k]), Tail(lines, k);
      assert JoinLines(lines[..k + 1]) == first + before;
      Associates(first, JoinLines(lines[1..]), "\n\n");
      Associates(first, before, "\n" + tail);
      Associates(before, "\n", tail);
      Associates(first + before, "\n", tail);
    }
  }

  lemma {:induction false} JoinedWithReturn(lines: seq<string>, k: nat)
    requires k < |lines|
    ensures JoinLines(WithReturn(lines, k)[..k + 1]) == JoinLines(lines[..k + 1]) + "\r"
    ensures Tail(WithReturn(lines, k), k) == Tail(lines, k)
  {
    var cut := WithReturn(lines, k);
    assert cut[k + 1..] == lines[k + 1..];
    if k == 0 {
      assert cut[..1] == [cut[0]] && lines[..1] == [lines[0]];
    } else {
      JoinedWithReturn(lines[1..], k - 1);
      assert WithReturn(lines[1..], k - 1) == cut[1..];
      assert cut[1..][..k] == cut[..k + 1][1..] && lines[1..][..k] == lines[..k + 1][1..];
    }
  }

  lemma {:induction false} JoinedKeepsNoReturn(lines: seq<string>)
    requires forall i :: 0 <= i < |lines| ==> '\r' !in lines[i]
    ensures '\r' !in JoinLines(lines)
  {
    if |lines| > 1 { JoinedKeepsNoReturn(lines[1..]); }
  }

  lemma NormalizedWhole(a: string, b: string)
    requires '\r' !in a && '\r' !in b
    ensures ConcatNormalized([a + "\r\n" + b], 1) == a + "\n" + b
  {
    NormalizeKeeps(a);
    NormalizeKeeps(b);
    NormalizeCrLf(b);
    Associates(a, "\r\n", b);
    NormalizeUnsplit(a, "\r\n" + b);
    Associates(a, "\n", b);
    assert ConcatNormalized([a + "\r\n" + b], 0) == "";
  }

  lemma NormalizedCut(a: string, b: string)
    requires '\r' !in a && '\r' !in b
    ensures ConcatNormalized([a + "\r", "\n" + b], 2) == a + "\r" + "\n" + b
  {
    NormalizeKeeps(a);
    NormalizedPieces();
    NormalizeUnsplit(a, "\r");
    NormalizeKeeps("\n" + b);
    assert ConcatNormalized([a + "\r", "\n" + b], 0) == "";
    assert ConcatNormalized([a + "\r", "\n" + b], 1) == a + "\r";
    Associates(a + "\r", "\n", b);
  }

  lemma WholeBlockArrives(lines: seq<string>, k: nat)
    requires BlockLines(lines) && k < |lines|
    ensures Received(Drained, [JoinLines(lines[..k + 1]) + "\r\n" + Tail(lines, k)], 1)
         == Progress(Emitted(ParsedLines(lines)), "")
  {
    var a, b := JoinLines(lines[..k + 1]), Tail(lines, k);
    JoinedKeepsNoReturn(lines[..k + 1]);
    JoinedKeepsNoReturn(lines[k + 1..]);
    NormalizedWhole(a, b);
    DrainedParsesAsOne([a + "\r\n" + b], 1);
    JoinedAt(lines, k);
    BlockDrains(lines);
  }

  lemma CutBlockArrives(lines: seq<string>, k: nat)
    requires BlockLines(lines) && k < |lines|
    ensures Received(Drained, [JoinLines(lines[..k + 1]) + "\r", "\n" + Tail(lines, k)], 2)
         == Progress(Emitted(ParsedLines(WithReturn(lines, k))), "")
  {
    var a, b := JoinLines(lines[..k + 1]), Tail(lines, k);
    JoinedKeepsNoReturn(lines[..k + 1]);
    JoinedKeepsNoReturn(lines[k + 1..]);
    NormalizedCut(a, b);
    DrainedParsesAsOne([a + "\r", "\n" + b], 2);
    JoinedAt(WithReturn(lines, k), k);
    JoinedWithReturn(lines, k);
    BlockDrains(WithReturn(lines, k));
  }

  /** A block whose line `k` ends in CRLF, cut in two there or not: the events delivered differ
      exactly when that line is a data line, or names the event of a block with data. */
  lemma SplitLineEndSeenIff(lines: seq<string>, k: nat)
    requires BlockLines(lines) && k < |lines|
    ensures var a, b := JoinLines(lines[..k + 1]), Tail(lines, k);
            Received(Drained, [a + "\r\n" + b], 1) != Received(Drained, [a + "\r", "\n" + b], 2)
            <==> IsField(lines[k], "data") || (DataValues(lines, |lines|) != [] && Names(lines, k))
  {
    WholeBlockArrives(lines, k);
    CutBlockArrives(lines, k);
    StrayReturnSeenIff(lines, k);
  }
}
