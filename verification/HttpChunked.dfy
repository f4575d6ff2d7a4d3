/**
 Chunked transfer coding (section 4.1 of RFC 7230): the parser inverts the encoding,
 under any fragmentation of the stream.
 */
module HttpChunked {
  import opened Sequences
  import opened HttpParser
  import opened HttpBlocks

  const CRLF: seq<Byte> := [CR, LF]

  /** A line without its line end that fits the line buffer. */
  predicate FineText(line: seq<Byte>) {
    |line| + 2 < LINE_BUF && 0 !in line && LF !in line
  }

  /** A chunk with its size line, which may carry chunk extensions. */
  datatype Chunk = Chunk(sizeLine: seq<Byte>, data: seq<Byte>)

  predicate SizeLine(line: seq<Byte>, size: nat) {
    FineText(line) && line != [] && var n := StrToUl(line, 16); n.parsed && !n.outOfRange && n.value == size
  }

  predicate FineChunk(c: Chunk) {
    c.data != [] && SizeLine(c.sizeLine, |c.data|)
  }

  // ---- hexadecimal size lines ----

  function HexByte(d: nat): (b: Byte)
    requires d < 16
    ensures DigitValue(b) == d && b != LF && b != 0 && !IsSpace(b)
  {
    if d < 10 then 48 + d else 87 + d
  }

  /** The shortest lower-case hexadecimal text of a number. */
  function Hex(n: nat): (r: seq<Byte>)
    ensures r != [] && (forall b :: b in r ==> DigitValue(b) < 16 && b != LF && b != 0)
    ensures !IsSpace(r[0]) && r[0] !in {43, 45} && (r[0] == 48 ==> n == 0)
  {
    if n < 16 then [HexByte(n)] else Hex(n / 16) + [HexByte(n % 16)]
  }

  lemma {:induction false} HexLength(n: nat, k: nat)
    requires 1 <= k && n < Power16(k)
    ensures |Hex(n)| <= k
  {
    if n >= 16 {
      HexLength(n / 16, k - 1);
    }
  }

  function Power16(k: nat): nat { if k == 0 then 1 else 16 * Power16(k - 1) }

  lemma {:induction false} ReadHexDigits(s: seq<Byte>, b: Byte, acc: nat)
    requires (forall x :: x in s ==> DigitValue(x) < 16) && DigitValue(b) < 16
    ensures ReadDigits(s + [b], 16, acc) ==
            Digits(ReadDigits(s, 16, acc).value * 16 + DigitValue(b), |s| + 1, [])
    ensures ReadDigits(s, 16, acc).digits == |s| && ReadDigits(s, 16, acc).rest == []
  {
    if s == [] {
      assert (s + [b])[1..] == [];
    } else {
      assert (s + [b])[1..] == s[1..] + [b] && (s + [b])[0] == s[0];
      assert forall x :: x in s[1..] ==> x in s;
      ReadHexDigits(s[1..], b, acc * 16 + DigitValue(s[0]));
    }
  }

  lemma {:induction false} ReadHex(n: nat)
    ensures ReadDigits(Hex(n), 16, 0) == Digits(n, |Hex(n)|, [])
  {
    if n < 16 {
      ReadHexDigits([], HexByte(n), 0);
      assert [] + [HexByte(n)] == Hex(n);
    } else {
      ReadHex(n / 16);
      ReadHexDigits(Hex(n / 16), HexByte(n % 16), 0);
    }
  }

  /** The hexadecimal text of a chunk's length is a size line for it. */
  lemma HexIsSizeLine(n: SizeT)
    ensures SizeLine(Hex(n), n)
  {
    assert Power16(4) == 0x1_0000 && Power16(8) == 0x1_0000_0000;
    assert Power16(12) == 0x1_0000_0000_0000 && Power16(16) == SIZE;
    HexLength(n, 16);
    ReadHex(n);
    assert SkipSpace(Hex(n)) == Hex(n);
  }

  function EncodeChunks(chunks: seq<Chunk>): seq<Byte> {
    if chunks == [] then []
    else chunks[0].sizeLine + CRLF + chunks[0].data + CRLF + EncodeChunks(chunks[1..])
  }

  function EncodeLines(lines: seq<seq<Byte>>): seq<Byte> {
    if lines == [] then [] else lines[0] + CRLF + EncodeLines(lines[1..])
  }

  /** The chunked body, ended by a zero-size chunk, the trailer lines and an empty line. */
  function Encode(chunks: seq<Chunk>, lastLine: seq<Byte>, trailers: seq<seq<Byte>>): seq<Byte> {
    EncodeChunks(chunks) + (lastLine + CRLF + (EncodeLines(trailers) + CRLF))
  }

  function Payload(chunks: seq<Chunk>): seq<Byte> {
    if chunks == [] then [] else chunks[0].data + Payload(chunks[1..])
  }

  // ---- pieces of the stream ----

  /** From (p, bytes) the reference reaches (q, rest), and is clean if it is from there. */
  ghost predicate Reaches(p: Parser, bytes: seq<Byte>, q: Parser, rest: seq<Byte>) {
    Feed(p, bytes) == Feed(q, rest) && (Clean(q, rest) ==> Clean(p, bytes))
  }

  lemma {:induction false} FeedText(p: Parser, text: seq<Byte>, rest: seq<Byte>)
    requires InLine(p) && text != [] && |p.line| + |text| < LINE_BUF
    requires 0 !in text && text[|text| - 1] == LF && LF !in text[..|text| - 1]
    requires p.state == Chunked ==> FineChunkLine(p, Chop(p.line + text))
    ensures Reaches(p, text + rest, OnLine(p, Chop(p.line + text)), rest)
    decreases |text|
  {
    hide OnLine, Chop, FineChunkLine;
    var b, bytes := text[0], text + rest;
    assert bytes[0] == b && bytes[1..] == text[1..] + rest;
    assert text == [b] + text[1..];
    if |text| == 1 {
      assert p.line + [b] == p.line + text && text[1..] + rest == rest;
    } else {
      assert b == text[..|text| - 1][0] != LF;
      var q := Step(p, b);
      assert text[1..][..|text| - 2] == text[..|text| - 1][1..];
      assert q.line + text[1..] == p.line + text;
      var line := Chop(p.line + text);
      if p.state == Chunked {
        SameFineChunkLine(p, q.line, line);
      }
      OnLineIgnores(p, q.line, line);
      assert b in text;
      FeedText(q, text[1..], rest);
    }
  }

  lemma FeedCrlfLine(p: Parser, line: seq<Byte>, rest: seq<Byte>)
    requires InLine(p) && p.line == [] && FineText(line)
    requires p.state == Chunked ==> FineChunkLine(p, line)
    ensures Reaches(p, line + CRLF + rest, OnLine(p, line), rest)
  {
    hide OnLine, FineChunkLine, Reaches;
    var text := line + CRLF;
    assert text[..|text| - 1] == line + [CR];
    assert Chop(p.line + text) == line by {
      assert p.line + text == text && text[..|text| - 2] == line;
    }
    FeedText(p, text, rest);
  }

  lemma {:induction false} FeedPayload(p: Parser, data: seq<Byte>, rest: seq<Byte>)
    requires p.state in {Data, Chunked} && data != [] && p.contentBytes + |data| <= p.contentLength
    ensures Reaches(p, data + rest, Consume(p, data), rest)
    decreases |data|
  {
    hide OnLine, Chop, FineChunkLine, Step, Consume;
    var b, bytes := data[0], data + rest;
    assert bytes[0] == b && bytes[1..] == data[1..] + rest;
    StepIsConsume(p, b);
    assert FineByte(p, b);
    if |data| == 1 {
      assert data == [b] && data[1..] + rest == rest;
    } else {
      FeedPayload(Step(p, b), data[1..], rest);
      ConsumeMore(p, b, data[1..]);
      assert [b] + data[1..] == data;
    }
  }

  lemma ReachesTrans(p: Parser, a: seq<Byte>, q: Parser, b: seq<Byte>, r: Parser, c: seq<Byte>)
    requires Reaches(p, a, q, b) && Reaches(q, b, r, c)
    ensures Reaches(p, a, r, c)
  {
  }

  lemma {:induction false} NoNul(s: seq<Byte>)
    requires 0 !in s
    ensures CString(s) == s
  {
    if s != [] {
      NoNul(s[1..]);
    }
  }

  /** The parser waits for a chunk size line. */
  predicate AtSizeLine(p: Parser) {
    p.state == Chunked && p.contentBytes == p.contentLength && p.line == []
  }

  /** The parser after one more chunk. */
  function AfterData(p: Parser, data: seq<Byte>): Parser
    requires p.contentBytes + |data| < SIZE
  {
    p.(contentLength := p.contentBytes + |data|, contentBytes := p.contentBytes + |data|, body := p.body + data)
  }

  lemma OnSizeLine(p: Parser, line: seq<Byte>, size: nat)
    requires AtSizeLine(p) && SizeLine(line, size) && p.contentBytes + size < SIZE
    ensures FineChunkLine(p, line)
    ensures OnLine(p, line) == if size == 0 then p.(state := Footer) else p.(contentLength := p.contentLength + size)
  {
    hide StrToUl;
    NoNul(line);
  }

  lemma FeedChunk(p: Parser, c: Chunk, rest: seq<Byte>)
    requires AtSizeLine(p) && FineChunk(c) && p.contentBytes + |c.data| < SIZE
    ensures Reaches(p, c.sizeLine + CRLF + c.data + CRLF + rest, AfterData(p, c.data), rest)
  {
    hide Reaches, StrToUl, OnLine, FineChunkLine;
    var tail := c.data + (CRLF + rest);
    assert c.sizeLine + CRLF + c.data + CRLF + rest == c.sizeLine + CRLF + tail;
    OnSizeLine(p, c.sizeLine, |c.data|);
    FeedCrlfLine(p, c.sizeLine, tail);
    var q := p.(contentLength := p.contentLength + |c.data|);
    FeedPayload(q, c.data, CRLF + rest);
    var r := AfterData(p, c.data);
    assert Consume(q, c.data) == r;
    EmptySizeLine(r);
    assert [] + CRLF + rest == CRLF + rest;
    FeedCrlfLine(r, [], rest);
    ReachesTrans(q, tail, r, CRLF + rest, r, rest);
    ReachesTrans(p, c.sizeLine + CRLF + tail, q, tail, r, rest);
  }

  lemma EmptySizeLine(p: Parser)
    requires AtSizeLine(p)
    ensures FineChunkLine(p, []) && OnLine(p, []) == p
  {
  }

  lemma {:induction false} FeedChunks(p: Parser, chunks: seq<Chunk>, rest: seq<Byte>)
    requires AtSizeLine(p) && (forall i :: 0 <= i < |chunks| ==> FineChunk(chunks[i]))
    requires p.contentBytes + |Payload(chunks)| < SIZE
    ensures Reaches(p, EncodeChunks(chunks) + rest, AfterData(p, Payload(chunks)), rest)
    decreases |chunks|
  {
    hide Reaches, FineChunk;
    if chunks == [] {
      assert EncodeChunks(chunks) + rest == rest && p.body + [] == p.body;
      ReachesSelf(p, rest);
    } else {
      var c, more := chunks[0], EncodeChunks(chunks[1..]) + rest;
      assert EncodeChunks(chunks) + rest == c.sizeLine + CRLF + c.data + CRLF + more;
      FeedChunk(p, c, more);
      var q := AfterData(p, c.data);
      FeedChunks(q, chunks[1..], rest);
      assert p.body + c.data + Payload(chunks[1..]) == p.body + Payload(chunks);
      ReachesTrans(p, EncodeChunks(chunks) + rest, q, more, AfterData(p, Payload(chunks)), rest);
    }
  }

  lemma ReachesSelf(p: Parser, rest: seq<Byte>)
    ensures Reaches(p, rest, p, rest)
  {
  }

  lemma {:induction false} FeedTrailers(p: Parser, trailers: seq<seq<Byte>>, rest: seq<Byte>)
    requires p.state == Footer && p.line == []
    requires forall i :: 0 <= i < |trailers| ==> trailers[i] != [] && FineText(trailers[i])
    ensures Reaches(p, EncodeLines(trailers) + CRLF + rest, p.(footers := p.footers + trailers, state := Done), rest)
    decreases |trailers|
  {
    hide Reaches, FineText;
    var bytes := EncodeLines(trailers) + CRLF + rest;
    if trailers == [] {
      assert bytes == [] + CRLF + rest;
      assert p.footers + [] == p.footers;
      assert FineText([]) by { FineEmpty(); }
      FeedCrlfLine(p, [], rest);
    } else {
      var more := EncodeLines(trailers[1..]) + CRLF + rest;
      assert bytes == trailers[0] + CRLF + more;
      FeedCrlfLine(p, trailers[0], more);
      var q := p.(footers := p.footers + [trailers[0]]);
      FeedTrailers(q, trailers[1..], rest);
      assert q.footers + trailers[1..] == p.footers + trailers;
      ReachesTrans(p, bytes, q, more, p.(footers := p.footers + trailers, state := Done), rest);
    }
  }

  lemma FineEmpty()
    ensures FineText([])
  {
  }

  /** The parser once a chunked body has been decoded. */
  function Decoded(p: Parser, body: seq<Byte>, trailers: seq<seq<Byte>>): Parser
    requires p.contentBytes + |body| < SIZE
  {
    AfterData(p, body).(state := Done, footers := p.footers + trailers)
  }

  /**
   Decoding inverts encoding: the body delivered is the concatenation of the chunks, the
   trailer lines are delivered, the content count is the body's length, and what follows the
   final empty line is left alone.
   */
  lemma ChunkedRoundTrip(p: Parser, chunks: seq<Chunk>, lastLine: seq<Byte>, trailers: seq<seq<Byte>>, rest: seq<Byte>)
    requires AtSizeLine(p) && p.contentBytes + |Payload(chunks)| < SIZE
    requires (forall i :: 0 <= i < |chunks| ==> FineChunk(chunks[i])) && SizeLine(lastLine, 0)
    requires forall i :: 0 <= i < |trailers| ==> trailers[i] != [] && FineText(trailers[i])
    ensures Feed(p, Encode(chunks, lastLine, trailers) + rest) == (Decoded(p, Payload(chunks), trailers), rest)
    ensures Clean(p, Encode(chunks, lastLine, trailers) + rest)
  {
    DecodeAll(p, chunks, lastLine, trailers, rest);
    StoppedIsClean(Decoded(p, Payload(chunks), trailers), rest);
  }

  lemma DecodeAll(p: Parser, chunks: seq<Chunk>, lastLine: seq<Byte>, trailers: seq<seq<Byte>>, rest: seq<Byte>)
    requires AtSizeLine(p) && p.contentBytes + |Payload(chunks)| < SIZE
    requires (forall i :: 0 <= i < |chunks| ==> FineChunk(chunks[i])) && SizeLine(lastLine, 0)
    requires forall i :: 0 <= i < |trailers| ==> trailers[i] != [] && FineText(trailers[i])
    ensures Reaches(p, Encode(chunks, lastLine, trailers) + rest, Decoded(p, Payload(chunks), trailers), rest)
  {
    hide Reaches, FineChunk, FineText, SizeLine, OnLine, FineChunkLine, EncodeChunks, EncodeLines;
    var bytes := Encode(chunks, lastLine, trailers) + rest;
    var done := Decoded(p, Payload(chunks), trailers);
    var end := EncodeLines(trailers) + CRLF + rest;
    assert bytes == EncodeChunks(chunks) + (lastLine + CRLF + end);
    FeedChunks(p, chunks, lastLine + CRLF + end);
    var q := AfterData(p, Payload(chunks));
    OnSizeLine(q, lastLine, 0);
    SizeLineIsText(lastLine, 0);
    FeedCrlfLine(q, lastLine, end);
    var r := q.(state := Footer);
    FeedTrailers(r, trailers, rest);
    ReachesTrans(q, lastLine + CRLF + end, r, end, done, rest);
    ReachesTrans(p, bytes, q, lastLine + CRLF + end, done, rest);
  }

  lemma SizeLineIsText(line: seq<Byte>, size: nat)
    requires SizeLine(line, size)
    ensures FineText(line)
  {
  }

  // ---- any number of reads ----

  function Concat(frags: seq<seq<Byte>>): seq<Byte> {
    if frags == [] then [] else frags[0] + Concat(frags[1..])
  }

  /** Each read is processed as it comes; what arrives after the reply's end is left over. */
  function ProcessReads(p: Parser, frags: seq<seq<Byte>>): (Parser, seq<Byte>)
    decreases |frags|
  {
    if frags == [] then (p, []) else
    var (q, rest) := Process(p, frags[0]);
    if rest != [] || Stopped(q) then (q, rest + Concat(frags[1..])) else ProcessReads(q, frags[1..])
  }

  lemma {:induction false} ReadsDoNotMatter(p: Parser, frags: seq<seq<Byte>>)
    requires WellFormed(p) && Clean(p, Concat(frags)) && !Stopped(p)
    requires forall i :: 0 <= i < |frags| ==> frags[i] != []
    ensures ProcessReads(p, frags) == Feed(p, Concat(frags))
    decreases |frags|
  {
    hide Process, Clean, WellFormed, Step;
    if frags != [] {
      var a, b := frags[0], Concat(frags[1..]);
      CleanSplit(p, a, b);
      ProcessIsFeed(p, a);
      var (q, rest) := Feed(p, a);
      if b == [] {
        assert a + b == a && rest + b == rest;
      } else {
        FeedSplit(p, a, b);
        if !Stopped(q) {
          assert rest == [];
          ReadsDoNotMatter(q, frags[1..]);
        }
      }
    }
  }

  /** The round trip through the block parser: however the encoded body is cut into reads. */
  lemma ChunkedReadsRoundTrip(p: Parser, chunks: seq<Chunk>, lastLine: seq<Byte>, trailers: seq<seq<Byte>>,
                              rest: seq<Byte>, frags: seq<seq<Byte>>)
    requires WellFormed(p) && AtSizeLine(p) && p.contentBytes + |Payload(chunks)| < SIZE
    requires (forall i :: 0 <= i < |chunks| ==> FineChunk(chunks[i])) && SizeLine(lastLine, 0)
    requires forall i :: 0 <= i < |trailers| ==> trailers[i] != [] && FineText(trailers[i])
    requires Concat(frags) == Encode(chunks, lastLine, trailers) + rest
    requires forall i :: 0 <= i < |frags| ==> frags[i] != []
    ensures ProcessReads(p, frags) == (Decoded(p, Payload(chunks), trailers), rest)
  {
    hide Clean, WellFormed, Encode, FineChunk, FineText, SizeLine;
    ChunkedRoundTrip(p, chunks, lastLine, trailers, rest);
    ReadsDoNotMatter(p, frags);
  }
}
