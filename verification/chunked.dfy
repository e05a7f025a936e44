/** Reassembling a chunked body (section 7.1 of RFC 9112). */
module Chunked {
  import opened Prelude
  import opened Wire

  const MAX_BODY := 8 * 1024 * 1024
  const NEWLINE: byte := 10
  const CRLF: bytes := [13, 10]
  const SEMICOLON: byte := 59

  datatype Error = ClosedMidChunk | UnreadableLength(text: bytes) | TooLarge | Incomplete | NegativeLength

  datatype Result = Ok(body: bytes) | Err(error: Error)

  // ---- the stream ----

  /** The first line with its line break; at the end of the stream, whatever is left. */
  function LineLength(input: bytes): (n: nat)
    ensures n <= |input| && (input != [] ==> n > 0)
  {
    if input == [] then 0 else if input[0] == NEWLINE then 1 else 1 + LineLength(input[1..])
  }

  class Reader {
    var rest: bytes

    constructor (input: bytes)
      ensures rest == input
    {
      rest := input;
    }

    method ReadLine() returns (line: bytes)
      modifies this
      ensures line == old(rest)[..LineLength(old(rest))] && rest == old(rest)[LineLength(old(rest))..]
    {
      var n := LineLength(rest);
      line := rest[..n];
      rest := rest[n..];
    }

    /** Too few bytes left is an error, and so is a negative number of them. */
    method ReadExactly(n: int) returns (r: Result)
      modifies this
      ensures n < 0 ==> r == Err(NegativeLength)
      ensures n > |old(rest)| ==> r == Err(Incomplete)
      ensures 0 <= n <= |old(rest)| ==> r == Ok(old(rest)[..n]) && rest == old(rest)[n..]
    {
      if n < 0 { return Err(NegativeLength); }
      if n > |rest| {
        rest := [];
        return Err(Incomplete);
      }
      r := Ok(rest[..n]);
      rest := rest[n..];
    }
  }

  // ---- the length of a chunk ----

  predicate IsBlank(x: byte) { x in {9, 10, 11, 12, 13, 32} }

  function LStrip(b: bytes): (r: bytes)
    ensures |r| <= |b|
  {
    if b != [] && IsBlank(b[0]) then LStrip(b[1..]) else b
  }

  function RStrip(b: bytes): (r: bytes)
    ensures |r| <= |b|
  {
    if b != [] && IsBlank(b[|b| - 1]) then RStrip(b[..|b| - 1]) else b
  }

  function Strip(b: bytes): bytes { RStrip(LStrip(b)) }

  /** `line.split(b";", 1)[0]` */
  function BeforeSemicolon(line: bytes): bytes {
    if line == [] || line[0] == SEMICOLON then [] else [line[0]] + BeforeSemicolon(line[1..])
  }

  function DigitValue(x: byte): (v: Option<nat>)
    ensures v.Some? ==> v.value < 16
  {
    if 48 <= x <= 57 then Some(x - 48)
    else if 97 <= x <= 102 then Some(x - 87)
    else if 65 <= x <= 70 then Some(x - 55)
    else None
  }

  /** Digits, with single underscores between them. */
  function Digits(b: bytes, value: nat, digitDue: bool): Option<nat> {
    if b == [] then (if digitDue then None else Some(value))
    else if DigitValue(b[0]).Some? then Digits(b[1..], value * 16 + DigitValue(b[0]).value, false)
    else if b[0] == 95 && !digitDue then Digits(b[1..], value, true)
    else None
  }

  function Unsigned(b: bytes): Option<nat> {
    if |b| >= 2 && b[0] == 48 && b[1] in {88, 120} then
      var more := b[2..];
      Digits(if more != [] && more[0] == 95 then more[1..] else more, 0, true)
    else Digits(b, 0, true)
  }

  /** Python's `int(text, 16)` on stripped text: a sign, a `0x` and underscores are accepted. */
  function ParseHex(b: bytes): Option<int> {
    if b != [] && b[0] == 43 then Widen(Unsigned(b[1..]))
    else if b != [] && b[0] == 45 then Negated(Unsigned(b[1..]))
    else Widen(Unsigned(b))
  }

  function Widen(n: Option<nat>): Option<int> { if n.Some? then Some(n.value) else None }

  function Negated(n: Option<nat>): Option<int> {
    if n.None? then None
    else
      var v: int := 0 - n.value;
      Some(v)
  }

  function SizeText(line: bytes): bytes { Strip(BeforeSemicolon(line)) }

  // ---- the body ----

  /** What is left after the trailer section. */
  function AfterTrailers(input: bytes): (rest: bytes)
    ensures |rest| <= |input|
  {
    var n := LineLength(input);
    if input[..n] in {CRLF, [NEWLINE], []} then input[n..] else AfterTrailers(input[n..])
  }

  /** The body after `parts`, and what it leaves unread. */
  function Decode(input: bytes, parts: bytes): (r: (Result, bytes))
    decreases |input|
  {
    var n := LineLength(input);
    var line, rest := input[..n], input[n..];
    if line == [] then (Err(ClosedMidChunk), rest)
    else
      match ParseHex(SizeText(line))
      case None => (Err(UnreadableLength(SizeText(line))), rest)
      case Some(size) =>
        if size == 0 then (Ok(parts), AfterTrailers(rest))
        else if |parts| + size > MAX_BODY then (Err(TooLarge), rest)
        else if size < 0 then (Err(NegativeLength), rest)
        else if size + 2 > |rest| then (Err(Incomplete), [])
        else Decode(rest[size + 2..], parts + rest[..size])
  }

  method SkipTrailers(reader: Reader)
    modifies reader
    ensures reader.rest == AfterTrailers(old(reader.rest))
  {
    var trailer := reader.ReadLine();
    while trailer !in {CRLF, [NEWLINE], []}
      invariant AfterTrailers(old(reader.rest))
                == if trailer in {CRLF, [NEWLINE], []} then reader.rest else AfterTrailers(reader.rest)
      invariant trailer != [] || reader.rest == []
      decreases |reader.rest| + |trailer|
    {
      ghost var before := reader.rest;
      trailer := reader.ReadLine();
      assert |before| == |trailer| + |reader.rest|;
    }
  }

  method ReadChunked(reader: Reader) returns (r: Result)
    modifies reader
    ensures r == Decode(old(reader.rest), []).0
    ensures r.Ok? ==> reader.rest == Decode(old(reader.rest), []).1
  {
    var parts: bytes := [];
    var total := 0;
    while true
      invariant total == |parts|
      invariant Decode(old(reader.rest), []) == Decode(reader.rest, parts)
      decreases |reader.rest|
    {
      var line := reader.ReadLine();
      if line == [] {
        return Err(ClosedMidChunk);
      }
      var size := ParseHex(SizeText(line));
      if size.None? {
        return Err(UnreadableLength(SizeText(line)));
      }
      if size.value == 0 {
        SkipTrailers(reader);
        return Ok(parts);
      }
      total := total + size.value;
      if total > MAX_BODY {
        return Err(TooLarge);
      }
      ghost var rest := reader.rest;
      var part := reader.ReadExactly(size.value);
      if part.Err? {
        return part;
      }
      var end := reader.ReadExactly(2);
      if end.Err? {
        return end;
      }
      assert rest[size.value..][2..] == rest[size.value + 2..];
      parts := parts + part.body;
    }
  }

  // ---- what is decoded ----

  /** No body over the limit is ever returned, whatever the stream holds. */
  lemma {:induction false} BodyWithinLimit(input: bytes, parts: bytes)
    requires |parts| <= MAX_BODY
    ensures Decode(input, parts).0.Ok? ==> |Decode(input, parts).0.body| <= MAX_BODY
    decreases |input|
  {
    var n := LineLength(input);
    var line, rest := input[..n], input[n..];
    if line != [] && ParseHex(SizeText(line)).Some? {
      var size := ParseHex(SizeText(line)).value;
      if size > 0 && |parts| + size <= MAX_BODY && size + 2 <= |rest| {
        BodyWithinLimit(rest[size + 2..], parts + rest[..size]);
      }
    }
  }

  /** One chunk as a server may write it: any spelling of its length, any extension, and
      blanks between the two. */
  datatype Chunk = Chunk(data: bytes, spelling: bytes, extension: bytes)

  function SizeLine(spelling: bytes, extension: bytes): bytes { spelling + (extension + CRLF) }

  function EncodeChunk(c: Chunk): bytes { SizeLine(c.spelling, c.extension) + (c.data + CRLF) }

  function EncodeChunks(chunks: seq<Chunk>): bytes {
    if chunks == [] then [] else EncodeChunk(chunks[0]) + EncodeChunks(chunks[1..])
  }

  function Trailers(lines: seq<bytes>): bytes {
    if lines == [] then CRLF else lines[0] + (CRLF + Trailers(lines[1..]))
  }

  function Payload(chunks: seq<Chunk>): bytes {
    if chunks == [] then [] else chunks[0].data + Payload(chunks[1..])
  }

  /** A length that reads as `size`: not framed by blanks and free of what ends it. */
  predicate Spells(spelling: bytes, size: nat) {
    && spelling != [] && !IsBlank(spelling[0]) && !IsBlank(spelling[|spelling| - 1])
    && SEMICOLON !in spelling && NEWLINE !in spelling
    && ParseHex(spelling) == Some(size)
  }

  predicate AllBlank(b: bytes) { forall x <- b :: IsBlank(x) }

  /** Blanks, and then nothing or what a semicolon begins. */
  predicate GoodExtension(extension: bytes) {
    NEWLINE !in extension && (LStrip(extension) == [] || LStrip(extension)[0] == SEMICOLON)
  }

  predicate GoodChunk(c: Chunk) { c.data != [] && Spells(c.spelling, |c.data|) && GoodExtension(c.extension) }

  lemma {:induction false} LineThenRest(line: bytes, rest: bytes)
    requires NEWLINE !in line
    ensures LineLength(line + (CRLF + rest)) == |line| + 2
  {
    var all := line + (CRLF + rest);
    if line == [] {
      assert all[0] == 13 && all[1..][0] == NEWLINE;
    } else {
      assert all[0] == line[0] && line[0] in line && all[1..] == line[1..] + (CRLF + rest);
      assert forall x <- line[1..] :: x in line;
      LineThenRest(line[1..], rest);
    }
  }

  lemma {:induction false} BeforeExtension(spelling: bytes, rest: bytes)
    requires SEMICOLON !in spelling
    ensures BeforeSemicolon(spelling + rest) == spelling + BeforeSemicolon(rest)
  {
    if spelling == [] {
      assert spelling + rest == rest;
    } else {
      assert spelling[0] in spelling && (spelling + rest)[1..] == spelling[1..] + rest;
      assert forall x <- spelling[1..] :: x in spelling;
      BeforeExtension(spelling[1..], rest);
      assert [spelling[0]] + (spelling[1..] + BeforeSemicolon(rest)) == spelling + BeforeSemicolon(rest);
    }
  }

  lemma {:induction false} RStripOfFramed(spelling: bytes, tail: bytes)
    requires spelling != [] && !IsBlank(spelling[|spelling| - 1]) && AllBlank(tail)
    ensures RStrip(spelling + tail) == spelling
  {
    var all := spelling + tail;
    if tail == [] {
      assert all == spelling;
    } else {
      var shorter := tail[..|tail| - 1];
      assert tail[|tail| - 1] in tail && forall x <- shorter :: x in tail;
      assert all[|all| - 1] == tail[|tail| - 1] && all[..|all| - 1] == spelling + shorter;
      RStripOfFramed(spelling, shorter);
    }
  }

  /** Nothing but blanks stands between the length and what ends it. */
  lemma {:induction false} BlankBeforeSemicolon(extension: bytes)
    requires LStrip(extension) == [] || LStrip(extension)[0] == SEMICOLON
    ensures AllBlank(BeforeSemicolon(extension + CRLF))
  {
    var all := extension + CRLF;
    if extension == [] {
      assert all == CRLF && CRLF[1..] == [10] && BeforeSemicolon([10]) == [10] + BeforeSemicolon([]);
    } else if IsBlank(extension[0]) {
      assert all[0] == extension[0] && all[1..] == extension[1..] + CRLF;
      BlankBeforeSemicolon(extension[1..]);
    } else {
      assert all[0] == SEMICOLON;
    }
  }

  /** The length is read off its line whatever its extension. */
  lemma SizeReadsBack(spelling: bytes, extension: bytes, size: nat)
    requires Spells(spelling, size) && GoodExtension(extension)
    ensures SizeText(SizeLine(spelling, extension)) == spelling
  {
    var tail := BeforeSemicolon(extension + CRLF);
    BeforeExtension(spelling, extension + CRLF);
    BlankBeforeSemicolon(extension);
    assert (spelling + tail)[0] == spelling[0];
    assert LStrip(spelling + tail) == spelling + tail;
    RStripOfFramed(spelling, tail);
  }

  lemma {:induction false} FrontGoes(front: bytes, rest: bytes)
    requires AllBlank(front)
    ensures LStrip(front + rest) == LStrip(rest)
  {
    if front == [] {
      assert front + rest == rest;
    } else {
      assert front[0] in front && (front + rest)[0] == front[0] && (front + rest)[1..] == front[1..] + rest;
      assert forall x <- front[1..] :: x in front;
      FrontGoes(front[1..], rest);
    }
  }

  /** Nor do blanks before it matter. */
  lemma PaddedSizeReadsBack(front: bytes, spelling: bytes, extension: bytes, size: nat)
    requires AllBlank(front) && Spells(spelling, size) && GoodExtension(extension)
    ensures SizeText(front + SizeLine(spelling, extension)) == spelling
  {
    BeforeExtension(front, SizeLine(spelling, extension));
    FrontGoes(front, BeforeSemicolon(SizeLine(spelling, extension)));
    SizeReadsBack(spelling, extension, size);
  }

  lemma SizeLineIsALine(spelling: bytes, extension: bytes, size: nat, rest: bytes)
    requires Spells(spelling, size) && GoodExtension(extension)
    ensures var input := SizeLine(spelling, extension) + rest;
            var n := LineLength(input);
            && n == |SizeLine(spelling, extension)| > 0
            && input[..n] == SizeLine(spelling, extension) && input[n..] == rest
  {
    var line := spelling + extension;
    Regroup(spelling, extension, CRLF);
    Regroup(line, CRLF, rest);
    LineThenRest(line, rest);
  }

  /** The last chunk and the trailer section end the body where they end. */
  lemma {:induction false} TrailersEnd(lines: seq<bytes>, rest: bytes)
    requires forall l <- lines :: l != [] && NEWLINE !in l
    ensures AfterTrailers(Trailers(lines) + rest) == rest
  {
    if lines == [] {
      var input := CRLF + rest;
      assert [] + (CRLF + rest) == input;
      LineThenRest([], rest);
      assert input[..2] == CRLF && input[2..] == rest;
    } else {
      var line, below := lines[0], Trailers(lines[1..]);
      assert line in lines && forall l <- lines[1..] :: l in lines;
      Regroup(CRLF, below, rest);
      Regroup(line, CRLF + below, rest);
      var input := line + (CRLF + (below + rest));
      LineThenRest(line, below + rest);
      assert |input[..|line| + 2]| > 2 && input[|line| + 2..] == below + rest;
      TrailersEnd(lines[1..], rest);
    }
  }

  lemma LastChunkEnds(spelling: bytes, extension: bytes, trailers: seq<bytes>, rest: bytes, parts: bytes)
    requires Spells(spelling, 0) && GoodExtension(extension) && forall l <- trailers :: l != [] && NEWLINE !in l
    ensures Decode(SizeLine(spelling, extension) + (Trailers(trailers) + rest), parts) == (Ok(parts), rest)
  {
    SizeLineIsALine(spelling, extension, 0, Trailers(trailers) + rest);
    SizeReadsBack(spelling, extension, 0);
    TrailersEnd(trailers, rest);
  }

  /** One chunk is taken whole, or refused because of the limit. */
  lemma ChunkIsTaken(c: Chunk, rest: bytes, parts: bytes)
    requires GoodChunk(c) && |parts| <= MAX_BODY
    ensures |parts| + |c.data| <= MAX_BODY ==> Decode(EncodeChunk(c) + rest, parts) == Decode(rest, parts + c.data)
    ensures |parts| + |c.data| > MAX_BODY ==> Decode(EncodeChunk(c) + rest, parts).0 == Err(TooLarge)
  {
    var line, after := SizeLine(c.spelling, c.extension), (c.data + CRLF) + rest;
    Regroup(line, c.data + CRLF, rest);
    SizeLineIsALine(c.spelling, c.extension, |c.data|, after);
    SizeReadsBack(c.spelling, c.extension, |c.data|);
    assert after[..|c.data|] == c.data && after[|c.data| + 2..] == rest;
  }

  lemma {:induction false} ChunksAreTaken(chunks: seq<Chunk>, rest: bytes, parts: bytes)
    requires (forall c <- chunks :: GoodChunk(c)) && |parts| <= MAX_BODY
    ensures |parts| + |Payload(chunks)| <= MAX_BODY ==>
              Decode(EncodeChunks(chunks) + rest, parts) == Decode(rest, parts + Payload(chunks))
    ensures |parts| + |Payload(chunks)| > MAX_BODY ==> Decode(EncodeChunks(chunks) + rest, parts).0 == Err(TooLarge)
  {
    if chunks == [] {
      assert EncodeChunks(chunks) + rest == rest && parts + Payload(chunks) == parts;
    } else {
      var c, others := chunks[0], chunks[1..];
      assert c in chunks && forall d <- others :: d in chunks;
      Regroup(EncodeChunk(c), EncodeChunks(others), rest);
      ChunkIsTaken(c, EncodeChunks(others) + rest, parts);
      if |parts| + |c.data| <= MAX_BODY {
        ChunksAreTaken(others, rest, parts + c.data);
        Regroup(parts, c.data, Payload(others));
      }
    }
  }

  /** A chunked body decodes to what was sent if and only if that is within the limit, for every
      way of cutting it into chunks, every spelling of the lengths, every extension, with or
      without blanks before it, and every trailer;
      and exactly the encoding is consumed. */
  lemma ChunkedRoundTrip(chunks: seq<Chunk>, last: bytes, extension: bytes, trailers: seq<bytes>, rest: bytes)
    requires forall c <- chunks :: GoodChunk(c)
    requires Spells(last, 0) && GoodExtension(extension) && forall l <- trailers :: l != [] && NEWLINE !in l
    ensures var input := EncodeChunks(chunks) + (SizeLine(last, extension) + (Trailers(trailers) + rest));
            if |Payload(chunks)| <= MAX_BODY then Decode(input, []) == (Ok(Payload(chunks)), rest)
            else Decode(input, []).0 == Err(TooLarge)
  {
    ChunksAreTaken(chunks, SizeLine(last, extension) + (Trailers(trailers) + rest), []);
    assert [] + Payload(chunks) == Payload(chunks);
    if |Payload(chunks)| <= MAX_BODY {
      LastChunkEnds(last, extension, trailers, rest, Payload(chunks));
    }
  }

  // ---- which texts are lengths ----

  /** Hexadecimal digits with single underscores between them. */
  predicate Underscored(b: bytes) {
    && b != [] && b[0] != 95 && b[|b| - 1] != 95
    && (forall i :: 0 <= i < |b| ==> b[i] == 95 || DigitValue(b[i]).Some?)
    && (forall i :: 0 <= i < |b| - 1 ==> b[i] != 95 || b[i + 1] != 95)
  }

  lemma {:induction false} DigitsExactly(b: bytes, value: nat, due: bool)
    ensures Digits(b, value, due).Some? <==>
            if b == [] then !due else Underscored(b) || (!due && b[0] == 95 && Underscored(b[1..]))
  {
    if b != [] {
      var rest := b[1..];
      assert forall i :: 0 < i < |b| ==> b[i] == rest[i - 1];
      if DigitValue(b[0]).Some? {
        DigitsExactly(rest, value * 16 + DigitValue(b[0]).value, false);
        if Underscored(b) && rest != [] && rest[0] == 95 {
          assert forall i :: 0 <= i < |rest[1..]| ==> rest[1..][i] == b[i + 2];
        }
      } else {
        DigitsExactly(rest, value, true);
      }
    }
  }

  predicate Prefixed(b: bytes) { |b| >= 2 && b[0] == 48 && (b[1] == 88 || b[1] == 120) }

  predicate UnsignedText(b: bytes) {
    Underscored(b)
    || (Prefixed(b) && (Underscored(b[2..]) || (|b| > 2 && b[2] == 95 && Underscored(b[3..]))))
  }

  lemma UnsignedExactly(b: bytes)
    ensures Unsigned(b).Some? <==> UnsignedText(b)
  {
    if Prefixed(b) {
      assert DigitValue(b[1]).None? && b[1] != 95;
      DigitsExactly(b[2..], 0, true);
      if |b| > 2 && b[2] == 95 {
        assert b[2..][1..] == b[3..];
        DigitsExactly(b[3..], 0, true);
      }
    } else {
      DigitsExactly(b, 0, true);
    }
  }

  /** A text is a length if and only if, after one sign at most, it is digits with single
      underscores between them, with `0x` and perhaps an underscore before them or not. It is
      negative only after a minus. */
  lemma LengthsExactly(b: bytes)
    ensures var signed := b != [] && (b[0] == 43 || b[0] == 45);
            && (ParseHex(b).Some? <==> UnsignedText(if signed then b[1..] else b))
            && (ParseHex(b).Some? && ParseHex(b).value < 0 ==> b[0] == 45)
  {
    UnsignedExactly(b);
    if b != [] {
      UnsignedExactly(b[1..]);
    }
  }

  // ---- a stream that ends early ----

  lemma {:induction false} UnbrokenLine(line: bytes)
    requires NEWLINE !in line
    ensures LineLength(line) == |line|
  {
    if line != [] {
      assert line[0] in line && forall x <- line[1..] :: x in line;
      UnbrokenLine(line[1..]);
    }
  }

  /** The stream ends within a line that gives a length. */
  lemma CutInLine(part: bytes, parts: bytes)
    requires part != [] && NEWLINE !in part
    ensures Decode(part, parts).0.Ok? <==> ParseHex(SizeText(part)) == Some(0)
    ensures Decode(part, parts).0.Ok? ==> Decode(part, parts).0.body == parts
  {
    UnbrokenLine(part);
    assert part[..|part|] == part && part[|part|..] == [];
  }

  /** The stream ends where a line was due. */
  lemma CutBetween(parts: bytes)
    ensures Decode([], parts).0 == Err(ClosedMidChunk)
  {
  }

  /** The stream ends within a chunk. */
  lemma CutInData(c: Chunk, part: bytes, parts: bytes)
    requires GoodChunk(c) && part <= EncodeChunk(c)
    requires |SizeLine(c.spelling, c.extension)| <= |part| < |EncodeChunk(c)|
    ensures Decode(part, parts).0.Err?
  {
    var line := SizeLine(c.spelling, c.extension);
    var rest := part[|line|..];
    assert part == line + rest;
    SizeLineIsALine(c.spelling, c.extension, |c.data|, rest);
    SizeReadsBack(c.spelling, c.extension, |c.data|);
  }

  lemma LineHasOneBreak(spelling: bytes, extension: bytes, size: nat, part: bytes)
    requires Spells(spelling, size) && GoodExtension(extension)
    requires part <= SizeLine(spelling, extension) && |part| < |SizeLine(spelling, extension)|
    ensures NEWLINE !in part
  {
    forall i | 0 <= i < |part| ensures part[i] != NEWLINE {
      assert part[i] == SizeLine(spelling, extension)[i];
    }
  }

  /** The line that gives the length of chunk `k`, or of the last one. */
  function LineOf(chunks: seq<Chunk>, k: nat, last: bytes, extension: bytes): bytes
    requires k <= |chunks|
  {
    if k < |chunks| then SizeLine(chunks[k].spelling, chunks[k].extension) else SizeLine(last, extension)
  }

  /** A stream that ends before its last line of a length does is read as a body if and only if it
      ends within such a line and what is left of that line reads as zero; the body is then what came
      before. Ending anywhere else, within a chunk or between two, is an error. */
  lemma CutStreamExactly(chunks: seq<Chunk>, last: bytes, extension: bytes, k: nat, part: bytes)
    requires (forall c <- chunks :: GoodChunk(c)) && Spells(last, 0) && GoodExtension(extension)
    requires |Payload(chunks)| <= MAX_BODY && k <= |chunks|
    requires k < |chunks| ==> part <= EncodeChunk(chunks[k]) && |part| < |EncodeChunk(chunks[k])|
    requires k == |chunks| ==> part <= SizeLine(last, extension) && |part| < |SizeLine(last, extension)|
    ensures var read := Decode(EncodeChunks(chunks[..k]) + part, []).0;
            && (read.Ok? <==> 0 < |part| < |LineOf(chunks, k, last, extension)| && ParseHex(SizeText(part)) == Some(0))
            && (read.Ok? ==> read.body == Payload(chunks[..k]))
  {
    assert forall c <- chunks[..k] :: c in chunks;
    PayloadOfPrefix(chunks, k);
    ChunksAreTaken(chunks[..k], part, []);
    var parts := Payload(chunks[..k]);
    assert [] + parts == parts;
    var line := LineOf(chunks, k, last, extension);
    if part == [] {
      CutBetween(parts);
    } else if |part| < |line| {
      CutIsInLine(chunks, last, extension, k, part);
      CutInLine(part, parts);
    } else {
      assert chunks[k] in chunks;
      CutInData(chunks[k], part, parts);
    }
  }

  lemma CutIsInLine(chunks: seq<Chunk>, last: bytes, extension: bytes, k: nat, part: bytes)
    requires (forall c <- chunks :: GoodChunk(c)) && Spells(last, 0) && GoodExtension(extension) && k <= |chunks|
    requires k < |chunks| ==> part <= EncodeChunk(chunks[k])
    requires k == |chunks| ==> part <= SizeLine(last, extension)
    requires |part| < |LineOf(chunks, k, last, extension)|
    ensures NEWLINE !in part
  {
    if k < |chunks| {
      var c := chunks[k];
      assert c in chunks;
      assert part <= SizeLine(c.spelling, c.extension);
      LineHasOneBreak(c.spelling, c.extension, |c.data|, part);
    } else {
      LineHasOneBreak(last, extension, 0, part);
    }
  }

  lemma {:induction false} PayloadOfPrefix(chunks: seq<Chunk>, k: nat)
    requires k <= |chunks|
    ensures |Payload(chunks[..k])| <= |Payload(chunks)|
  {
    if k > 0 {
      assert chunks[..k][1..] == chunks[1..][..k - 1];
      PayloadOfPrefix(chunks[1..], k - 1);
    }
  }

  /** It can happen: a length written with a zero in front, and the stream ends after the zero. */
  lemma CutCanPass(data: bytes)
    requires |data| == 10
    ensures Spells([48, 65], 10) && EncodeChunk(Chunk(data, [48, 65], []))[..1] == [48]
    ensures Decode([48], []) == (Ok([]), [])
  {
    assert [48, 65][1..] == [65] && [65][1..] == [] && [48][1..] == [];
    assert Digits([48, 65], 0, true) == Digits([65], 0, false) == Digits([], 10, false);
    assert Unsigned([48]) == Digits([48], 0, true) == Digits([], 0, false) == Some(0);
    CutInLine([48], []);
    assert Strip([48]) == [48] && BeforeSemicolon([48]) == [48] + BeforeSemicolon([]);
    assert [48][..1] == [48] && [48][1..] == [];
    assert LineLength([48]) == 1;
  }

  // ---- spellings ----

  /** A hexadecimal digit in either case. */
  function Digit(v: nat, upper: bool): byte
    requires v < 16
  {
    if v < 10 then 48 + v else if upper then 55 + v else 87 + v
  }

  /** The number in hexadecimal, each digit in the case asked for. */
  function Hex(n: nat, upper: nat -> bool): (b: bytes)
    ensures b != []
  {
    (if n < 16 then [] else Hex(n / 16, upper)) + [Digit(n % 16, upper(n))]
  }

  predicate AllDigits(b: bytes) { forall x <- b :: DigitValue(x).Some? }

  lemma {:induction false} DigitsOfBoth(a: bytes, b: bytes, value: nat, due: bool)
    requires AllDigits(a) && a != []
    ensures Digits(a, value, due).Some? && Digits(a + b, value, due) == Digits(b, Digits(a, value, due).value, false)
  {
    assert a[0] in a && (a + b)[0] == a[0] && (a + b)[1..] == a[1..] + b;
    if |a| == 1 {
      assert a[1..] + b == b;
    } else {
      assert forall x <- a[1..] :: x in a;
      DigitsOfBoth(a[1..], b, value * 16 + DigitValue(a[0]).value, false);
    }
  }

  lemma {:induction false} HexReadsBack(n: nat, upper: nat -> bool)
    ensures AllDigits(Hex(n, upper)) && Digits(Hex(n, upper), 0, true) == Some(n)
  {
    var last := [Digit(n % 16, upper(n))];
    assert DigitValue(last[0]) == Some(n % 16) && last[1..] == [];
    if n < 16 {
      assert [] + last == last;
    } else {
      HexReadsBack(n / 16, upper);
      DigitsOfBoth(Hex(n / 16, upper), last, 0, true);
    }
  }

  function Zeros(k: nat): bytes { if k == 0 then [] else Zeros(k - 1) + [48] }

  lemma {:induction false} ZerosAreDigits(k: nat)
    ensures AllDigits(Zeros(k)) && (k > 0 ==> Digits(Zeros(k), 0, true) == Some(0))
  {
    if k > 0 {
      ZerosAreDigits(k - 1);
      assert [48][1..] == [];
      if k == 1 {
        assert Zeros(1) == [48];
      } else {
        DigitsOfBoth(Zeros(k - 1), [48], 0, true);
      }
    }
  }

  lemma DigitsSpell(b: bytes, n: nat)
    requires b != [] && AllDigits(b) && Digits(b, 0, true) == Some(n)
    ensures Spells(b, n)
  {
    assert b[0] in b && b[|b| - 1] in b && (|b| >= 2 ==> b[1] in b);
  }

  /** Every length has a spelling, with any number of leading zeros and each letter in either
      case. */
  lemma EveryHexSpells(n: nat, zeros: nat, upper: nat -> bool)
    ensures Spells(Zeros(zeros) + Hex(n, upper), n)
  {
    EveryHexReads(n, zeros, upper);
    DigitsSpell(Zeros(zeros) + Hex(n, upper), n);
  }

  lemma FirstMayBeDue(b: bytes, value: nat)
    requires AllDigits(b) && b != []
    ensures Digits(b, value, false) == Digits(b, value, true)
  {
    assert b[0] in b;
  }

  function WithoutUnderscores(b: bytes): bytes {
    if b == [] then [] else (if b[0] == 95 then [] else [b[0]]) + WithoutUnderscores(b[1..])
  }

  lemma {:induction false} UnderscoresDoNotCount(b: bytes, value: nat, due: bool)
    requires Digits(b, value, due).Some? && (due ==> b != [])
    ensures Digits(WithoutUnderscores(b), value, false) == Digits(b, value, due)
  {
    if b != [] {
      var rest := WithoutUnderscores(b[1..]);
      if b[0] == 95 {
        UnderscoresDoNotCount(b[1..], value, true);
        assert [] + rest == rest;
      } else {
        UnderscoresDoNotCount(b[1..], value * 16 + DigitValue(b[0]).value, false);
        assert ([b[0]] + rest)[1..] == rest;
      }
    }
  }

  lemma UnderscoredSpells(b: bytes, n: nat)
    requires Underscored(b) && Digits(b, 0, true) == Some(n)
    ensures Spells(b, n) && Spells([43] + b, n)
  {
    UnderscoredIsPlain(b);
    NoPrefix(b);
    assert ([43] + b)[1..] == b;
  }

  lemma PrefixedSpells(b: bytes, n: nat, x: byte)
    requires Underscored(b) && Digits(b, 0, true) == Some(n) && (x == 88 || x == 120)
    ensures Spells([48, x] + b, n) && Spells([48, x, 95] + b, n)
  {
    UnderscoredIsPlain(b);
    assert ([48, x] + b)[2..] == b && ([48, x, 95] + b)[2..] == [95] + b && ([95] + b)[1..] == b;
  }

  /** And so it has with underscores between the digits, with a plus in front, with `0x` in front, or
      with `0x` and an underscore. */
  lemma EveryLengthSpells(b: bytes, n: nat, zeros: nat, upper: nat -> bool)
    requires Underscored(b) && WithoutUnderscores(b) == Zeros(zeros) + Hex(n, upper)
    ensures Spells(b, n) && Spells([43] + b, n)
    ensures forall x :: x == 88 || x == 120 ==> Spells([48, x] + b, n) && Spells([48, x, 95] + b, n)
  {
    var digits := Zeros(zeros) + Hex(n, upper);
    EveryHexReads(n, zeros, upper);
    DigitsExactly(b, 0, true);
    UnderscoresDoNotCount(b, 0, true);
    FirstMayBeDue(digits, 0);
    UnderscoredSpells(b, n);
    forall x | x == 88 || x == 120 ensures Spells([48, x] + b, n) && Spells([48, x, 95] + b, n) {
      PrefixedSpells(b, n, x);
    }
  }

  lemma NoPrefix(b: bytes)
    requires Underscored(b)
    ensures !Prefixed(b) && b[0] != 43 && b[0] != 45
  {
  }

  lemma UnderscoredIsPlain(b: bytes)
    requires Underscored(b)
    ensures forall x <- b :: x == 95 || DigitValue(x).Some?
  {
  }

  lemma EveryHexReads(n: nat, zeros: nat, upper: nat -> bool)
    ensures AllDigits(Zeros(zeros) + Hex(n, upper)) && Digits(Zeros(zeros) + Hex(n, upper), 0, true) == Some(n)
  {
    var z, h := Zeros(zeros), Hex(n, upper);
    HexReadsBack(n, upper);
    ZerosAreDigits(zeros);
    if zeros == 0 {
      assert z + h == h;
    } else {
      DigitsOfBoth(z, h, 0, true);
      FirstMayBeDue(h, 0);
    }
  }
}
