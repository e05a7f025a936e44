/** The server's side of the event stream, and the two sides joined. */
module EventStreams {
  import opened Prelude
  import opened Texts
  import opened Wire
  import opened Model
  import opened Events
  import opened EventDelivery
  import opened EventClients

  const STATUS_LINE := "HTTP/1.1" + (" " + ("200" + (" " + "OK")))

  const HEAD_LINES: seq<string> := [
    STATUS_LINE,
    "Content-Type: " + "text/event-stream" + "; charset=utf-8",
    "Cache-Control: " + "no-store",
    "X-Accel-Buffering" + ": no",
    "Connection: " + "close"]

  const CRLF: bytes := [13, 10]

  predicate Visible(s: string) { forall i :: 0 <= i < |s| ==> ' ' <= s[i] <= '~' }

  function Text(s: string): (r: bytes)
    requires Visible(s)
    ensures |r| == |s| && forall i :: 0 <= i < |s| ==> r[i] == s[i] as int
  {
    Ascii(s)
  }

  /** Each line with its line break, and an empty line. */
  function HeadText(lines: seq<bytes>): bytes {
    if lines == [] then CRLF else lines[0] + (CRLF + HeadText(lines[1..]))
  }

  const COMMENT := ": keepalive"

  /** One thing written to the connection after the head. */
  datatype Frame = Data(event: Event) | Keepalive

  function Sse(codec: Codec, v: Json): bytes { codec.encode("data: " + codec.dumps(v) + "\n\n") }

  function FrameBytes(codec: Codec, frame: Frame): bytes {
    match frame
    case Data(event) => Sse(codec, event.ToDict())
    case Keepalive => Ascii(COMMENT) + [NEWLINE, NEWLINE]
  }

  function Written(codec: Codec, frames: seq<Frame>): bytes {
    if frames == [] then []
    else Written(codec, frames[..|frames| - 1]) + FrameBytes(codec, frames[|frames| - 1])
  }

  function EventsIn(frames: seq<Frame>): seq<Event> {
    if frames == [] then []
    else
      var last := frames[|frames| - 1];
      var before := EventsIn(frames[..|frames| - 1]);
      if last.Data? then before + [last.event] else before
  }

  function Dicts(events: seq<Event>): seq<Json> {
    if events == [] then [] else Dicts(events[..|events| - 1]) + [events[|events| - 1].ToDict()]
  }

  /** The object that stands for an event: its payload, and its kind and time under keys of their own
      unless the payload has fields of those names. */
  ghost predicate Renders(v: Json, event: Event) {
    && v.JObject? && v.fields.Keys == {"kind", "at"} + event.payload.Keys
    && (forall key <- event.payload :: v.fields[key] == event.payload[key])
    && ("kind" !in event.payload ==> v.fields["kind"] == JString(event.kind))
    && ("at" !in event.payload ==> v.fields["at"] == JNumber(event.at))
  }

  /** The first of these events, rendered. */
  ghost predicate RendersFirst(objects: seq<Json>, events: seq<Event>) {
    |objects| <= |events| && forall j :: 0 <= j < |objects| ==> Renders(objects[j], events[j])
  }

  lemma DictRenders(event: Event)
    ensures Renders(event.ToDict(), event)
  {
  }

  /** What is written for an event is the print of an object that renders it. */
  lemma FrameRenders(codec: Codec, event: Event)
    ensures exists v :: Renders(v, event) && FrameBytes(codec, Data(event)) == codec.encode("data: " + codec.dumps(v) + "\n\n")
  {
    DictRenders(event);
    assert FrameBytes(codec, Data(event)) == Sse(codec, event.ToDict());
  }

  lemma {:induction false} DictsRender(events: seq<Event>)
    ensures |Dicts(events)| == |events| && RendersFirst(Dicts(events), events)
  {
    if events != [] {
      DictsRender(events[..|events| - 1]);
      DictRenders(events[|events| - 1]);
    }
  }

  lemma PrefixRenders(objects: seq<Json>, events: seq<Event>)
    requires objects <= Dicts(events)
    ensures RendersFirst(objects, events)
    ensures objects == Dicts(events) ==> |objects| == |events|
  {
    DictsRender(events);
  }

  // ---- the head ----

  predicate OneLine(b: bytes) { b != [] && forall i :: 0 <= i < |b| ==> 32 <= b[i] <= 126 }

  /** No separator starts inside a line. */
  lemma {:induction false} SkipLine(line: bytes, below: bytes)
    requires (forall i :: 0 <= i < |line| ==> 32 <= line[i] <= 126) && FindSeparator(below).Some?
    ensures FindSeparator(line + below) == Some(|line| + FindSeparator(below).value)
  {
    if line == [] {
      assert line + below == below;
    } else {
      SkipLine(line[1..], below);
      assert (line + below)[1..] == line[1..] + below;
    }
  }

  /** A line break followed by a line is no separator. */
  lemma BreakThenLine(below: bytes)
    requires below != [] && below[0] != 13 && FindSeparator(below).Some?
    ensures FindSeparator(CRLF + below) == Some(2 + FindSeparator(below).value)
  {
    var all := CRLF + below;
    var one := all[1..];
    assert one == [10] + below && one[1..] == below;
    assert all[2] == below[0];
  }

  lemma TwoBreaks(rest: bytes)
    ensures FindSeparator(CRLF + (CRLF + rest)) == Some(0)
  {
    assert SeparatorFirst(CRLF + (CRLF + rest));
  }

  lemma HeadSplits(lines: seq<bytes>, rest: bytes)
    requires lines != []
    ensures HeadText(lines) + rest == lines[0] + (CRLF + (HeadText(lines[1..]) + rest))
  {
    var line, others := lines[0], HeadText(lines[1..]);
    Regroup(CRLF, others, rest);
    Regroup(line, CRLF + others, rest);
  }

  /** The head ends where its blank line ends, and no earlier. */
  lemma {:induction false} HeadEnds(lines: seq<bytes>, rest: bytes)
    requires lines != [] && forall i :: 0 <= i < |lines| ==> OneLine(lines[i])
    ensures |HeadText(lines)| >= 4 && FindSeparator(HeadText(lines) + rest) == Some(|HeadText(lines)| - 4)
  {
    var below := HeadText(lines[1..]) + rest;
    HeadSplits(lines, rest);
    if |lines| == 1 {
      TwoBreaks(rest);
    } else {
      HeadEnds(lines[1..], rest);
      FirstOfHead(lines[1..], rest);
      BreakThenLine(below);
    }
    SkipLine(lines[0], CRLF + below);
  }

  lemma FirstOfHead(lines: seq<bytes>, rest: bytes)
    requires lines != [] && OneLine(lines[0])
    ensures HeadText(lines) + rest != [] && (HeadText(lines) + rest)[0] == lines[0][0]
  {
  }

  lemma VisibleBoth(a: string, b: string)
    requires Visible(a) && Visible(b)
    ensures Visible(a + b)
  {
  }

  lemma HeadIsVisible()
    ensures forall i :: 0 <= i < |HEAD_LINES| ==> Visible(HEAD_LINES[i])
  {
    VisibleBoth("Content-Type: ", "text/event-stream");
    VisibleBoth("Content-Type: " + "text/event-stream", "; charset=utf-8");
    VisibleBoth("Cache-Control: ", "no-store");
    VisibleBoth("X-Accel-Buffering", ": no");
    VisibleBoth("Connection: ", "close");
    StatusIsVisible();
  }

  lemma StatusIsVisible()
    ensures Visible(STATUS_LINE)
  {
  }

  function HeadLines(): (r: seq<bytes>)
    ensures |r| == |HEAD_LINES|
  {
    HeadIsVisible();
    seq(|HEAD_LINES|, i requires 0 <= i < |HEAD_LINES| => Text(HEAD_LINES[i]))
  }

  lemma {:induction false} FirstLineOf(line: bytes, rest: bytes)
    requires forall i :: 0 <= i < |line| ==> 32 <= line[i] <= 126
    ensures FirstLine(line + (CRLF + rest)) == line
  {
    var all := line + (CRLF + rest);
    if line == [] {
      assert all[..2] == CRLF;
    } else {
      assert all[1..] == line[1..] + (CRLF + rest) && all[..2][0] == line[0];
      FirstLineOf(line[1..], rest);
    }
  }

  lemma FieldThenRest(word: bytes, rest: bytes)
    requires word != [] && forall i :: 0 <= i < |word| ==> !IsBlank(word[i])
    ensures Fields(word + ([32] + rest)) == [word] + Fields(rest)
  {
    var all := word + ([32] + rest);
    var n := WordLength(all);
    assert all[|word|] == 32 && IsBlank(all[|word|]);
    forall i | 0 <= i < |word| ensures !IsBlank(all[i]) {
      assert all[i] == word[i];
    }
    assert all[..n] == word && all[n..] == [32] + rest && all[n..][1..] == rest;
  }

  lemma StatusFields(word: bytes, code: bytes, rest: bytes)
    requires word != [] && forall i :: 0 <= i < |word| ==> !IsBlank(word[i])
    requires code != [] && forall i :: 0 <= i < |code| ==> !IsBlank(code[i])
    ensures |Fields(word + ([32] + (code + ([32] + rest))))| >= 2
    ensures Fields(word + ([32] + (code + ([32] + rest))))[1] == code
  {
    FieldThenRest(word, code + ([32] + rest));
    FieldThenRest(code, rest);
  }

  lemma TextOfBoth(a: string, b: string)
    requires Visible(a) && Visible(b)
    ensures Visible(a + b) && Text(a + b) == Text(a) + Text(b)
  {
  }

  predicate Solid(s: string) { s != "" && forall i :: 0 <= i < |s| ==> '!' <= s[i] <= '~' }

  lemma StatusText()
    ensures Visible(STATUS_LINE) && Visible("HTTP/1.1") && Visible("200") && Visible("OK")
    ensures Text(STATUS_LINE) == Text("HTTP/1.1") + ([32] + (Text("200") + ([32] + Text("OK"))))
  {
    assert Visible("OK") && Visible("200") && Visible("HTTP/1.1") && Text(" ") == [32];
    TextOfBoth(" ", "OK");
    TextOfBoth("200", " " + "OK");
    TextOfBoth(" ", "200" + (" " + "OK"));
    TextOfBoth("HTTP/1.1", " " + ("200" + (" " + "OK")));
  }

  lemma SolidText(s: string)
    requires Solid(s)
    ensures Visible(s) && Text(s) != [] && forall i :: 0 <= i < |s| ==> !IsBlank(Text(s)[i])
  {
  }

  lemma StatusLineIsOk()
    ensures Visible(STATUS_LINE) && Visible("200")
    ensures var fields := Fields(Text(STATUS_LINE)); |fields| >= 2 && fields[1] == Text("200")
  {
    StatusText();
    SolidText("HTTP/1.1");
    SolidText("200");
    StatusFields(Text("HTTP/1.1"), Text("200"), Text("OK"));
  }

  /** The head without its terminator begins with the status line. */
  lemma HeadStartsWithStatus(lines: seq<bytes>, rest: bytes)
    requires |lines| >= 2 && forall i :: 0 <= i < |lines| ==> OneLine(lines[i])
    ensures |HeadText(lines)| >= 4
    ensures FirstLine((HeadText(lines) + rest)[..|HeadText(lines)| - 4]) == lines[0]
  {
    var below := HeadText(lines[1..]);
    HeadEnds(lines[1..], rest);
    var head := HeadText(lines);
    assert head == lines[0] + (CRLF + below);
    assert (head + rest)[..|head| - 4] == lines[0] + (CRLF + below[..|below| - 4]);
    FirstLineOf(lines[0], below[..|below| - 4]);
  }

  /** Printable lines of which the first reports success. */
  ghost predicate GoodHead(lines: seq<bytes>) {
    && |lines| >= 2 && (forall i :: 0 <= i < |lines| ==> OneLine(lines[i]))
    && |Fields(lines[0])| >= 2 && Fields(lines[0])[1] == Ascii("200")
  }

  /** The client accepts such a head, whatever follows it. */
  lemma HeadIsAccepted(codec: Codec, lines: seq<bytes>, rest: bytes)
    requires GoodHead(lines)
    ensures Headed(codec, HeadText(lines) + rest) == ReadOn(codec, rest, [])
  {
    HeadEnds(lines, rest);
    HeadStartsWithStatus(lines, rest);
    assert (HeadText(lines) + rest)[|HeadText(lines)|..] == rest;
  }

  lemma HeadLinesAreLines()
    ensures forall i :: 0 <= i < |HeadLines()| ==> OneLine(HeadLines()[i])
  {
    HeadIsVisible();
    forall i | 0 <= i < |HEAD_LINES| ensures HEAD_LINES[i] != "" && HeadLines()[i] == Text(HEAD_LINES[i]) {
    }
  }

  lemma HeadLinesBeginOk()
    ensures Visible(STATUS_LINE) && HeadLines()[0] == Text(STATUS_LINE)
  {
    StatusIsVisible();
    assert HEAD_LINES[0] == STATUS_LINE;
  }

  /** And the head of the stream is one. */
  lemma OurHeadIsGood()
    ensures GoodHead(HeadLines())
  {
    HeadLinesAreLines();
    HeadLinesBeginOk();
    StatusLineIsOk();
  }

  // ---- the frames ----

  lemma {:induction false} NoNewline(b: bytes)
    requires NEWLINE !in b
    ensures Newline(b).None?
  {
    if b != [] {
      assert b[0] in b && forall x <- b[1..] :: x in b;
      NoNewline(b[1..]);
    }
  }

  lemma {:induction false} NewlineAfter(line: bytes, rest: bytes)
    requires Newline(line).None?
    ensures Newline(line + ([NEWLINE] + rest)) == Some(|line|)
  {
    var all := line + ([NEWLINE] + rest);
    if line != [] {
      assert all[1..] == line[1..] + ([NEWLINE] + rest);
      NewlineAfter(line[1..], rest);
    }
  }

  /** A line and an empty line after it. */
  lemma TwoLines(line: bytes)
    requires Newline(line).None?
    ensures Lines(line + [NEWLINE, NEWLINE]) == [line, []] && Remainder(line + [NEWLINE, NEWLINE]) == []
  {
    var all := line + [NEWLINE, NEWLINE];
    assert all == line + ([NEWLINE] + [NEWLINE]);
    NewlineAfter(line, [NEWLINE]);
    assert all[..|line|] == line && all[|line| + 1..] == [NEWLINE];
    var last: bytes := [NEWLINE];
    assert Newline(last) == Some(0) && last[..0] == [] && last[1..] == [];
    assert Lines(last) == [[]] && Remainder(last) == [];
  }

  lemma EmptyLineIsNothing(codec: Codec)
    requires codec.Lawful()
    ensures EventOf(codec, []) == []
  {
    assert IsAscii("") && codec.encode("") == Ascii("") == [];
    assert codec.decode(codec.encode("")) == "";
  }

  lemma FrameOf(codec: Codec, line: bytes)
    requires codec.Lawful() && Newline(line).None?
    ensures EventsRead(codec, line + [NEWLINE, NEWLINE]) == EventOf(codec, line)
    ensures Remainder(line + [NEWLINE, NEWLINE]) == []
  {
    TwoLines(line);
    EmptyLineIsNothing(codec);
    var lines: seq<bytes> := [line, []];
    assert lines[..1] == [line] && [line][..0] == [];
    assert EventsOf(codec, [line]) == EventOf(codec, line);
  }

  /** A line that decodes to a field `data` is the value printed in it. */
  lemma DataText(codec: Codec, line: bytes, printed: string, v: Json)
    requires codec.tx.Lawful() && codec.decode(line) == "data: " + printed && codec.loads(printed) == Some(v)
    requires printed != "" && !codec.tx.isSpace(printed[0]) && !codec.tx.isSpace(printed[|printed| - 1])
    ensures EventOf(codec, line) == [v]
  {
    var text := "data: " + printed;
    assert text[0] == 'd' && LabelChar('d') && text[|text| - 1] == printed[|printed| - 1];
    codec.tx.StripFixpoint(text);
    assert text[..5] == DATA && text[5..] == " " + printed;
    codec.tx.StripOfBlank(printed);
  }

  lemma DataDecodes(codec: Codec, v: Json)
    requires codec.Lawful()
    ensures codec.decode(codec.encode("data: " + codec.dumps(v))) == "data: " + codec.dumps(v)
    ensures codec.loads(codec.dumps(v)) == Some(v) && codec.dumps(v) != ""
    ensures !codec.tx.isSpace(codec.dumps(v)[0]) && !codec.tx.isSpace(codec.dumps(v)[|codec.dumps(v)| - 1])
  {
  }

  lemma DataIsALine(codec: Codec, v: Json)
    requires codec.Lawful()
    ensures var line := codec.encode("data: " + codec.dumps(v));
            Sse(codec, v) == line + [NEWLINE, NEWLINE] && NEWLINE !in line
  {
    var text := "data: " + codec.dumps(v);
    assert codec.encode(text + "\n\n") == codec.encode(text) + [NEWLINE, NEWLINE];
    assert '\n' !in codec.dumps(v);
    assert '\n' !in text;
  }

  lemma DataFrame(codec: Codec, v: Json)
    requires codec.Lawful()
    ensures EventsRead(codec, Sse(codec, v)) == [v] && Remainder(Sse(codec, v)) == []
  {
    var line := codec.encode("data: " + codec.dumps(v));
    DataIsALine(codec, v);
    NoNewline(line);
    FrameOf(codec, line);
    DataDecodes(codec, v);
    DataText(codec, line, codec.dumps(v), v);
  }

  lemma AsciiReads(codec: Codec, text: string)
    requires codec.Lawful() && IsAscii(text)
    ensures codec.decode(Ascii(text)) == text
  {
    assert codec.decode(codec.encode(text)) == text;
  }

  lemma IgnoredLine(codec: Codec, line: bytes)
    requires var text := codec.decode(line); codec.tx.Strip(text) == text && ":" <= text
    ensures EventOf(codec, line) == []
  {
  }

  lemma NoNewlineInText(text: string)
    requires Visible(text)
    ensures Newline(Text(text)).None?
  {
    NoNewline(Text(text));
  }

  lemma CommentIsIgnored(codec: Codec, text: string)
    requires codec.Lawful() && Visible(text) && text != "" && text[0] == ':' && !codec.tx.isSpace(text[|text| - 1])
    ensures EventOf(codec, Text(text)) == []
  {
    AsciiReads(codec, text);
    codec.tx.StripFixpoint(text);
    assert text[..1] == ":";
    IgnoredLine(codec, Text(text));
  }

  lemma CommentLine(codec: Codec)
    requires codec.Lawful()
    ensures Visible(COMMENT) && EventOf(codec, Text(COMMENT)) == [] && Newline(Text(COMMENT)).None?
  {
    assert Visible(COMMENT) && LabelChar('e');
    NoNewlineInText(COMMENT);
    CommentIsIgnored(codec, COMMENT);
  }

  lemma CommentFrame(codec: Codec)
    requires codec.Lawful()
    ensures EventsRead(codec, FrameBytes(codec, Keepalive)) == [] && Remainder(FrameBytes(codec, Keepalive)) == []
  {
    CommentLine(codec);
    FrameOf(codec, Text(COMMENT));
  }

  lemma ThenFrame(codec: Codec, front: bytes, last: bytes)
    requires Remainder(front) == []
    ensures EventsRead(codec, front + last) == EventsRead(codec, front) + EventsRead(codec, last)
    ensures Remainder(front + last) == Remainder(last)
  {
    EventsGoOn(codec, front, last);
    RemainderGoesOn(front, last);
    assert [] + last == last;
  }

  lemma DictsAppend(events: seq<Event>, event: Event)
    ensures Dicts(events + [event]) == Dicts(events) + [event.ToDict()]
  {
    assert (events + [event])[..|events|] == events;
  }

  lemma ThenData(codec: Codec, front: bytes, events: seq<Event>, event: Event)
    requires codec.Lawful() && Remainder(front) == [] && EventsRead(codec, front) == Dicts(events)
    ensures var all := front + FrameBytes(codec, Data(event));
            EventsRead(codec, all) == Dicts(events + [event]) && Remainder(all) == []
  {
    DataFrame(codec, event.ToDict());
    ThenFrame(codec, front, FrameBytes(codec, Data(event)));
    DictsAppend(events, event);
  }

  lemma ThenComment(codec: Codec, front: bytes)
    requires codec.Lawful() && Remainder(front) == []
    ensures var all := front + FrameBytes(codec, Keepalive);
            EventsRead(codec, all) == EventsRead(codec, front) && Remainder(all) == []
  {
    CommentFrame(codec);
    ThenFrame(codec, front, FrameBytes(codec, Keepalive));
    assert EventsRead(codec, front) + [] == EventsRead(codec, front);
  }

  lemma {:induction false} FramesReadBack(codec: Codec, frames: seq<Frame>)
    requires codec.Lawful()
    ensures EventsRead(codec, Written(codec, frames)) == Dicts(EventsIn(frames))
    ensures Remainder(Written(codec, frames)) == []
  {
    if frames != [] {
      var n := |frames| - 1;
      FramesReadBack(codec, frames[..n]);
      match frames[n]
      case Data(event) => ThenData(codec, Written(codec, frames[..n]), EventsIn(frames[..n]), event);
      case Keepalive => ThenComment(codec, Written(codec, frames[..n]));
    }
  }

  // ---- the two sides joined ----

  lemma WholeReads(codec: Codec, lines: seq<bytes>, body: bytes, chunks: seq<bytes>)
    requires GoodHead(lines) && Concat(chunks) == HeadText(lines) + body
    ensures ReceivedAll(codec, Heading([]), chunks) == ReadOn(codec, body, [])
  {
    FragmentationIndependence(codec, chunks);
    HeadIsAccepted(codec, lines, body);
    var all := HeadText(lines) + body;
    assert [] + all == all;
  }

  predicate Word(b: bytes) { b != [] && forall i :: 0 <= i < |b| ==> !IsBlank(b[i]) }

  lemma LastField(word: bytes)
    requires Word(word)
    ensures Fields(word) == [word]
  {
    assert WordLength(word) == |word| && word[..|word|] == word && word[|word|..] == [];
  }

  lemma SecondField(word: bytes, code: bytes, tail: bytes)
    requires Word(word) && Word(code) && (tail == [] || tail[0] == 32)
    ensures var fields := Fields(word + ([32] + (code + tail))); |fields| >= 2 && fields[1] == code
  {
    FieldThenRest(word, code + tail);
    if tail == [] {
      assert code + tail == code;
      LastField(code);
    } else {
      assert tail == [32] + tail[1..];
      FieldThenRest(code, tail[1..]);
    }
  }

  lemma StatusCode(lines: seq<bytes>, rest: bytes, code: bytes)
    requires |lines| >= 2 && forall i :: 0 <= i < |lines| ==> OneLine(lines[i])
    requires |Fields(lines[0])| >= 2 && Fields(lines[0])[1] == code
    ensures var all := HeadText(lines) + rest;
            && FindSeparator(all) == Some(|HeadText(lines)| - 4) && |HeadText(lines)| >= 4
            && (StatusOk(all[..|HeadText(lines)| - 4]) <==> code == [50, 48, 48])
  {
    HeadEnds(lines, rest);
    HeadStartsWithStatus(lines, rest);
    assert Ascii("200") == [50, 48, 48];
  }

  lemma HeadIsDecided(codec: Codec, lines: seq<bytes>, rest: bytes, code: bytes)
    requires |lines| >= 2 && forall i :: 0 <= i < |lines| ==> OneLine(lines[i])
    requires |Fields(lines[0])| >= 2 && Fields(lines[0])[1] == code
    ensures Received(codec, Heading([]), HeadText(lines) + rest)
            == if code == [50, 48, 48] then ReadOn(codec, rest, []) else Rejected
  {
    StatusCode(lines, rest, code);
    var all := HeadText(lines) + rest;
    assert [] + all == all && all[|HeadText(lines)|..] == rest;
  }

  /** A stream is read if and only if the second word of its status line is 200, however it is cut
      and whatever follows its head; otherwise it is rejected for good. */
  lemma StatusDecides(codec: Codec, lines: seq<bytes>, word: bytes, code: bytes, tail: bytes, rest: bytes, chunks: seq<bytes>)
    requires |lines| >= 2 && (forall i :: 0 <= i < |lines| ==> OneLine(lines[i]))
    requires lines[0] == word + ([32] + (code + tail)) && Word(word) && Word(code) && (tail == [] || tail[0] == 32)
    requires Concat(chunks) == HeadText(lines) + rest
    ensures ReceivedAll(codec, Heading([]), chunks) == if code == [50, 48, 48] then ReadOn(codec, rest, []) else Rejected
  {
    SecondField(word, code, tail);
    FragmentationIndependence(codec, chunks);
    HeadIsDecided(codec, lines, rest, code);
  }

  lemma FramesReadOn(codec: Codec, frames: seq<Frame>)
    requires codec.Lawful()
    ensures ReadOn(codec, Written(codec, frames), []) == Reading([], Dicts(EventsIn(frames)))
  {
    FramesReadBack(codec, frames);
    assert [] + Dicts(EventsIn(frames)) == Dicts(EventsIn(frames));
  }

  /** A client that has received the whole of a stream, in whatever pieces and with keepalives
      anywhere, has exactly the events that were written, and no unfinished line. */
  lemma StreamReadsBack(codec: Codec, lines: seq<bytes>, frames: seq<Frame>, chunks: seq<bytes>)
    requires codec.Lawful() && GoodHead(lines) && Concat(chunks) == HeadText(lines) + Written(codec, frames)
    ensures var client := ReceivedAll(codec, Heading([]), chunks);
            && client == Reading([], Dicts(EventsIn(frames)))
            && RendersFirst(client.events, EventsIn(frames)) && |client.events| == |EventsIn(frames)|
  {
    var body := Written(codec, frames);
    WholeReads(codec, lines, body, chunks);
    FramesReadOn(codec, frames);
    PrefixRenders(Dicts(EventsIn(frames)), EventsIn(frames));
  }

  /** Cut off anywhere, it has the first of them, and it never takes the stream for a refusal. */
  lemma CutStreamReadsPrefix(codec: Codec, lines: seq<bytes>, frames: seq<Frame>, chunks: seq<bytes>, missing: bytes)
    requires codec.Lawful() && GoodHead(lines)
    requires Concat(chunks) + missing == HeadText(lines) + Written(codec, frames)
    ensures var client := ReceivedAll(codec, Heading([]), chunks);
            || client.Heading?
            || (client.Reading? && client.events <= Dicts(EventsIn(frames)) && RendersFirst(client.events, EventsIn(frames)))
  {
    var whole := chunks + [missing];
    assert whole[..|chunks|] == chunks;
    StreamReadsBack(codec, lines, frames, whole);
    var client := ReceivedAll(codec, Heading([]), chunks);
    assert ReceivedAll(codec, Heading([]), whole) == Received(codec, client, missing);
    if client.Reading? {
      PrefixRenders(client.events, EventsIn(frames));
    }
  }

  lemma {:induction false} DictsOfPrefix(a: seq<Event>, b: seq<Event>)
    requires a <= b
    ensures Dicts(a) <= Dicts(b)
  {
    if |a| < |b| {
      DictsOfPrefix(a, b[..|b| - 1]);
    } else {
      assert a == b;
    }
  }

  /** End to end: over every interleaving of publishing, reading and closing, and every way the
      socket cuts the bytes, the client has the first of the events due to its connection, each with
      its kind, its time and its payload, and has all that was sent once it has received all that was
      written. */
  lemma EndToEnd(codec: Codec, ops: seq<Op>, lines: seq<bytes>, frames: seq<Frame>, chunks: seq<bytes>, missing: bytes)
    requires codec.Lawful() && GoodHead(lines) && Run(IDLE, ops).session.Streaming?
    requires EventsIn(frames) == Run(IDLE, ops).session.sent
    requires Concat(chunks) + missing == HeadText(lines) + Written(codec, frames)
    ensures var f := Run(IDLE, ops);
            var client := ReceivedAll(codec, Heading([]), chunks);
            && f.session.start <= |f.log|
            && (client.Heading? || (client.Reading? && RendersFirst(client.events, Due(f))))
            && (missing == [] ==> client.Reading? && |client.events| == |f.session.sent| && client.buffer == [])
  {
    var f := Run(IDLE, ops);
    SentIsDue(ops);
    CutStreamReadsPrefix(codec, lines, frames, chunks, missing);
    DictsOfPrefix(f.session.sent, Due(f));
    var client := ReceivedAll(codec, Heading([]), chunks);
    if client.Reading? {
      PrefixRenders(client.events, Due(f));
    }
    if missing == [] {
      assert Concat(chunks) + missing == Concat(chunks);
      StreamReadsBack(codec, lines, frames, chunks);
    }
  }
}
