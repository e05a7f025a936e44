/** The client's incremental parser of the event stream: whatever pieces the socket hands over,
    it reads the same events. */
module EventClients {
  import opened Prelude
  import opened Texts
  import opened Wire
  import opened Model

  const NEWLINE: byte := 10
  const DATA := "data:"

  function Ascii(s: string): (r: bytes)
    requires IsAscii(s)
    ensures |r| == |s| && forall i :: 0 <= i < |s| ==> r[i] == s[i] as int
  {
    if s == "" then []
    else
      assert s[0] in s && forall c <- s[1..] :: c in s;
      [s[0] as int] + Ascii(s[1..])
  }

  /** UTF-8 and JSON text. `decode` replaces what it cannot read; `loads` answers nothing for text
      that is not JSON. */
  datatype Codec = Codec(
    tx: Text,
    encode: string -> bytes,
    decode: bytes -> string,
    dumps: Json -> string,
    loads: string -> Option<Json>)
  {
    /** Encoding can be undone, and makes newlines of newlines and of nothing else; printed
        JSON can be read back, is one line, and is not framed by blanks. */
    ghost predicate Lawful() {
      && tx.Lawful() && !tx.isSpace(':')
      && (forall s :: decode(encode(s)) == s)
      && (forall s :: encode(s + "\n\n") == encode(s) + [NEWLINE, NEWLINE])
      && (forall s :: IsAscii(s) ==> encode(s) == Ascii(s))
      && (forall s :: NEWLINE in encode(s) ==> '\n' in s)
      && (forall v :: loads(dumps(v)) == Some(v))
      && (forall v :: dumps(v) != "" && '\n' !in dumps(v)
                      && !tx.isSpace(dumps(v)[0]) && !tx.isSpace(dumps(v)[|dumps(v)| - 1]))
    }
  }

  // ---- what a whole stream means ----

  /** CR LF CR LF ends the header of a response. */
  predicate SeparatorFirst(b: bytes) {
    |b| >= 4 && b[0] == 13 && b[1] == 10 && b[2] == 13 && b[3] == 10
  }

  /** Where the first separator is. */
  function FindSeparator(b: bytes): (r: Option<nat>)
    ensures r.Some? ==> r.value + 4 <= |b|
  {
    if |b| < 4 then None
    else if SeparatorFirst(b) then Some(0)
    else
      match FindSeparator(b[1..])
      case None => None
      case Some(i) => Some(i + 1)
  }

  /** Where the first newline is. */
  function Newline(b: bytes): (r: Option<nat>)
    ensures r.Some? ==> r.value < |b| && b[r.value] == NEWLINE
  {
    if b == [] then None
    else if b[0] == NEWLINE then Some(0)
    else
      match Newline(b[1..])
      case None => None
      case Some(i) => Some(i + 1)
  }

  predicate IsBlank(x: byte) { x in {9, 10, 11, 12, 13, 32} }

  /** `b.split()` */
  function Fields(b: bytes): seq<bytes> {
    if b == [] then []
    else if IsBlank(b[0]) then Fields(b[1..])
    else
      var n := WordLength(b);
      [b[..n]] + Fields(b[n..])
  }

  function WordLength(b: bytes): (n: nat)
    requires b != [] && !IsBlank(b[0])
    ensures 1 <= n <= |b|
    ensures forall i :: 0 <= i < n ==> !IsBlank(b[i])
    ensures n < |b| ==> IsBlank(b[n])
  {
    if |b| == 1 || IsBlank(b[1]) then 1 else 1 + WordLength(b[1..])
  }

  /** The part before the first CR LF. */
  function FirstLine(b: bytes): bytes {
    if |b| < 2 || b[..2] == [13, 10] then (if |b| < 2 then b else [])
    else [b[0]] + FirstLine(b[1..])
  }

  function StatusOk(head: bytes): bool {
    var fields := Fields(FirstLine(head));
    |fields| >= 2 && fields[1] == Ascii("200")
  }

  /** The event of one line, or nothing: blank lines, comments and other fields are ordinary
      traffic, and so is text that is not JSON. */
  function EventOf(codec: Codec, line: bytes): seq<Json> {
    var text := codec.tx.Strip(codec.decode(line));
    if text == "" || ":" <= text || !(DATA <= text) then []
    else
      match codec.loads(codec.tx.Strip(text[|DATA|..]))
      case Some(v) => [v]
      case None => []
  }

  /** The finished lines. */
  function Lines(b: bytes): seq<bytes> {
    match Newline(b)
    case None => []
    case Some(i) => [b[..i]] + Lines(b[i + 1..])
  }

  function EventsOf(codec: Codec, lines: seq<bytes>): seq<Json> {
    if lines == [] then [] else EventsOf(codec, lines[..|lines| - 1]) + EventOf(codec, lines[|lines| - 1])
  }

  function EventsRead(codec: Codec, b: bytes): seq<Json> { EventsOf(codec, Lines(b)) }

  /** The unfinished last line. */
  function Remainder(b: bytes): (r: bytes)
    ensures Newline(r).None?
  {
    match Newline(b)
    case None => b
    case Some(i) => Remainder(b[i + 1..])
  }

  datatype Client = Heading(buffer: bytes) | Reading(buffer: bytes, events: seq<Json>) | Rejected

  function ReadOn(codec: Codec, buffer: bytes, events: seq<Json>): Client {
    Reading(Remainder(buffer), events + EventsRead(codec, buffer))
  }

  function Headed(codec: Codec, buffer: bytes): Client {
    match FindSeparator(buffer)
    case None => Heading(buffer)
    case Some(i) => if StatusOk(buffer[..i]) then ReadOn(codec, buffer[i + 4..], []) else Rejected
  }

  /** One received piece. */
  function Received(codec: Codec, c: Client, chunk: bytes): Client {
    match c
    case Rejected => Rejected
    case Reading(buffer, events) => ReadOn(codec, buffer + chunk, events)
    case Heading(buffer) => Headed(codec, buffer + chunk)
  }

  function ReceivedAll(codec: Codec, c: Client, chunks: seq<bytes>): Client {
    if chunks == [] then c else Received(codec, ReceivedAll(codec, c, chunks[..|chunks| - 1]), chunks[|chunks| - 1])
  }

  function Concat(chunks: seq<bytes>): bytes {
    if chunks == [] then [] else Concat(chunks[..|chunks| - 1]) + chunks[|chunks| - 1]
  }

  // ---- the parser as it runs ----

  class EventClient {
    const codec: Codec
    var buffer: bytes
    var headersDone: bool
    var returned: bool
    var yielded: seq<Json>

    constructor (codec: Codec)
      ensures this.codec == codec && State() == Heading([])
    {
      this.codec := codec;
      buffer := [];
      headersDone, returned := false, false;
      yielded := [];
    }

    function State(): Client
      reads this
    {
      if returned then Rejected else if headersDone then Reading(buffer, yielded) else Heading(buffer)
    }

    method Receive(chunk: bytes)
      requires !returned && (headersDone || yielded == [])
      modifies this
      ensures State() == Received(codec, old(State()), chunk)
      ensures headersDone || yielded == []
    {
      buffer := buffer + chunk;
      if !headersDone {
        var separator := FindSeparator(buffer);
        if separator.None? { return; }
        if !StatusOk(buffer[..separator.value]) {
          returned := true;
          return;
        }
        buffer := buffer[separator.value + 4..];
        headersDone := true;
      }
      YieldLines();
    }

    method YieldLines()
      modifies this`buffer, this`yielded
      ensures buffer == Remainder(old(buffer)) && yielded == old(yielded) + EventsRead(codec, old(buffer))
    {
      ghost var done: seq<bytes> := [];
      while Newline(buffer).Some?
        invariant Lines(old(buffer)) == done + Lines(buffer)
        invariant yielded == old(yielded) + EventsOf(codec, done)
        invariant Remainder(old(buffer)) == Remainder(buffer)
        decreases |buffer|
      {
        var i := Newline(buffer).value;
        var line := buffer[..i];
        buffer := buffer[i + 1..];
        assert (done + [line])[..|done|] == done;
        Regroup(old(yielded), EventsOf(codec, done), EventOf(codec, line));
        Regroup(done, [line], Lines(buffer));
        done := done + [line];
        yielded := yielded + EventOf(codec, line);
      }
      assert done + Lines(buffer) == done;
    }
  }

  // ---- fragmentation ----

  lemma {:induction false} SeparatorStays(a: bytes, b: bytes)
    requires FindSeparator(a).Some?
    ensures FindSeparator(a + b) == FindSeparator(a)
  {
    if !SeparatorFirst(a) {
      assert (a + b)[1..] == a[1..] + b;
      SeparatorStays(a[1..], b);
    }
  }

  lemma {:induction false} FirstLineStays(a: bytes, b: bytes)
    requires Newline(a).Some?
    ensures var i := Newline(a).value;
            && Newline(a + b) == Some(i) && (a + b)[..i] == a[..i] && (a + b)[i + 1..] == a[i + 1..] + b
  {
    assert (a + b)[0] == a[0];
    if a[0] != NEWLINE {
      assert (a + b)[1..] == a[1..] + b;
      FirstLineStays(a[1..], b);
    }
  }

  lemma {:induction false} RemainderGoesOn(a: bytes, b: bytes)
    ensures Remainder(a + b) == Remainder(Remainder(a) + b)
    decreases |a|
  {
    match Newline(a)
    case None =>
    case Some(i) =>
      FirstLineStays(a, b);
      RemainderGoesOn(a[i + 1..], b);
  }

  lemma {:induction false} LinesGoOn(a: bytes, b: bytes)
    ensures Lines(a + b) == Lines(a) + Lines(Remainder(a) + b)
    decreases |a|
  {
    match Newline(a)
    case None =>
    case Some(i) =>
      var tail := a[i + 1..];
      FirstLineStays(a, b);
      LinesGoOn(tail, b);
      var more := Lines(Remainder(tail) + b);
      Regroup([a[..i]], Lines(tail), more);
  }

  lemma {:induction false} EventsOfBoth(codec: Codec, a: seq<bytes>, b: seq<bytes>)
    ensures EventsOf(codec, a + b) == EventsOf(codec, a) + EventsOf(codec, b)
  {
    if b == [] {
      assert a + b == a;
    } else {
      var n := |b| - 1;
      assert (a + b)[..|a + b| - 1] == a + b[..n];
      EventsOfBoth(codec, a, b[..n]);
      Regroup(EventsOf(codec, a), EventsOf(codec, b[..n]), EventOf(codec, b[n]));
    }
  }

  /** The text of a line that carries data: what follows `data:`, between blanks. */
  predicate DataLine(codec: Codec, line: bytes, text: string) {
    var all := codec.tx.Strip(codec.decode(line));
    |all| >= 5 && all[..5] == "data:" && text == codec.tx.Strip(all[5..])
  }

  /** A line yields an event if and only if it carries data and the data is JSON, and then that. */
  lemma OnlyDataYields(codec: Codec, line: bytes)
    ensures |EventOf(codec, line)| <= 1
    ensures forall v :: EventOf(codec, line) == [v] <==> exists text :: DataLine(codec, line, text) && codec.loads(text) == Some(v)
  {
    var all := codec.tx.Strip(codec.decode(line));
    if DATA <= all {
      assert all[..5] == "data:" && all[0] == 'd';
      assert DataLine(codec, line, codec.tx.Strip(all[5..]));
    }
  }

  /** Reading `a` and then `b` is reading them together. */
  lemma EventsGoOn(codec: Codec, a: bytes, b: bytes)
    ensures EventsRead(codec, a + b) == EventsRead(codec, a) + EventsRead(codec, Remainder(a) + b)
  {
    LinesGoOn(a, b);
    EventsOfBoth(codec, Lines(a), Lines(Remainder(a) + b));
  }

  lemma BodyGoesOn(codec: Codec, buffer: bytes, events: seq<Json>, b: bytes)
    ensures Received(codec, ReadOn(codec, buffer, events), b) == ReadOn(codec, buffer + b, events)
  {
    EventsGoOn(codec, buffer, b);
    RemainderGoesOn(buffer, b);
    var more := EventsRead(codec, Remainder(buffer) + b);
    Regroup(events, EventsRead(codec, buffer), more);
  }

  lemma HeadGoesOn(codec: Codec, buffer: bytes, b: bytes)
    ensures Received(codec, Headed(codec, buffer), b) == Headed(codec, buffer + b)
  {
    match FindSeparator(buffer)
    case None =>
    case Some(i) =>
      SeparatorStays(buffer, b);
      assert (buffer + b)[..i] == buffer[..i] && (buffer + b)[i + 4..] == buffer[i + 4..] + b;
      BodyGoesOn(codec, buffer[i + 4..], [], b);
  }

  lemma ReceiveTwice(codec: Codec, c: Client, a: bytes, b: bytes)
    ensures Received(codec, Received(codec, c, a), b) == Received(codec, c, a + b)
  {
    match c
    case Rejected =>
    case Reading(buffer, events) =>
      Regroup(buffer, a, b);
      BodyGoesOn(codec, buffer + a, events, b);
    case Heading(buffer) =>
      Regroup(buffer, a, b);
      HeadGoesOn(codec, buffer + a, b);
  }

  /** However the stream is cut into pieces, in the middle of the header terminator or of a
      character, the client is left with the same events, the same unfinished line and the same
      verdict as if it had come in one piece. */
  lemma {:induction false} FragmentationIndependence(codec: Codec, chunks: seq<bytes>)
    ensures ReceivedAll(codec, Heading([]), chunks) == Received(codec, Heading([]), Concat(chunks))
  {
    if chunks != [] {
      var n := |chunks| - 1;
      FragmentationIndependence(codec, chunks[..n]);
      ReceiveTwice(codec, Heading([]), Concat(chunks[..n]), chunks[n]);
    }
  }

  /** Hence two ways of cutting the same bytes cannot be told apart. */
  lemma SameBytesSameEvents(codec: Codec, chunks: seq<bytes>, others: seq<bytes>)
    requires Concat(chunks) == Concat(others)
    ensures ReceivedAll(codec, Heading([]), chunks) == ReceivedAll(codec, Heading([]), others)
  {
    FragmentationIndependence(codec, chunks);
    FragmentationIndependence(codec, others);
  }
}
