/**
 The limits of the HTTP reply parser: the conditions under which a stream is clean are
 exactly what makes the outcome independent of how the stream is cut into reads.
 */
module HttpLimits {
  import opened Sequences
  import opened Wrappers
  import opened HttpParser
  import opened HttpBlocks
  import opened HttpChunked

  /** Processing a ++ b at once and in two reads comes to the same. */
  ghost predicate SameCut(p: Parser, a: seq<Byte>, b: seq<Byte>) {
    Process(p, a + b) == var (q, rest) := Process(p, a); Process(q, rest + b)
  }

  /** Every way to cut the buffer in two non-empty reads comes to the same. */
  ghost predicate CutsAgree(p: Parser, bytes: seq<Byte>) {
    forall k :: 0 < k < |bytes| ==> SameCut(p, bytes[..k], bytes[k..])
  }

  /** A parser at the start of a header line. */
  predicate AtHeader(p: Parser) { p.state == Header && p.line == [] && p.contentBytes == 0 }

  lemma {:induction false} FindLfEnd(text: seq<Byte>, rest: seq<Byte>)
    requires LF !in text
    ensures 0 !in text ==> FindLf(text + [LF] + rest) == Some(|text|)
    ensures 0 !in text ==> FindLf(text) == None
    ensures 0 in text ==> FindLf(text + rest) == None
  {
    var s := text + [LF] + rest;
    var t := text + rest;
    if text == [] {
      assert s[0] == LF;
    } else {
      assert s[0] == text[0] && s[1..] == text[1..] + [LF] + rest;
      assert t[0] == text[0] && t[1..] == text[1..] + rest;
      assert text == [text[0]] + text[1..];
      FindLfEnd(text[1..], rest);
    }
  }

  /** A partial line is just kept. */
  lemma HeaderGoesOn(p: Parser, buf: seq<Byte>)
    requires p.state == Header && buf != [] && FindLf(buf) == None
    requires |p.line| + |buf| < LINE_BUF - 1 && LF != buf[|buf| - 1]
    ensures Process(p, buf) == (p.(line := p.line + buf), [])
  {
    hide FindLf, Chop, OnHeaderLine;
    var line := p.line + buf;
    assert buf[..|buf|] == buf && line[|line| - 1] == buf[|buf| - 1];
    assert GetLine(p, buf) == (p.(line := line), [], false);
  }

  /** A complete line is delivered, and the byte after it starts the next one. */
  lemma HeaderEnds(p: Parser, text: seq<Byte>, z: Byte)
    requires p.state == Header && LF !in text && 0 !in text && z != LF
    requires |p.line| + |text| + 1 < LINE_BUF
    requires Chop(p.line + text + [LF]) != []
    ensures var (q, rest) := Process(p, text + [LF, z]);
            rest == [] && q.line == [z] && q.headers == p.headers + [Chop(p.line + text + [LF])]
  {
    hide NoteHeader, Chop, FindLf;
    var buf := text + [LF, z];
    assert buf == text + [LF] + [z];
    FindLfEnd(text, [z]);
    GetLineEnds(p, buf);
    assert p.line + buf[..|text| + 1] == p.line + text + [LF];
    var line := Chop(p.line + text + [LF]);
    var q := OnHeaderLine(p.(line := line), line);
    assert buf[|text| + 1..] == [z];
    NoteHeaderKeepsState(p.(line := line), CString(line));
    assert GetLine(q, [z]) == (q.(line := [z]), [], false) by {
      SingleByte(q, z);
    }
    assert ParseHeaders(q, [z]) == (q.(line := [z]), []);
    assert ParseHeaders(p, buf) == ParseHeaders(q, [z]);
  }

  lemma SingleByte(p: Parser, z: Byte)
    requires z != LF && p.line == []
    ensures GetLine(p, [z]) == (p.(line := [z]), [], false)
  {
    assert [z][..1] == [z] && FindLf([z][1..]) == None;
    assert p.line + [z] == [z];
  }

  /** The index of the last NUL. */
  function LastNul(text: seq<Byte>): (k: nat)
    requires 0 in text
    ensures k < |text| && text[k] == 0 && 0 !in text[k + 1..]
  {
    if text[|text| - 1] == 0 then |text| - 1
    else
      assert text == text[..|text| - 1] + [text[|text| - 1]];
      var k := LastNul(text[..|text| - 1]);
      assert text[k + 1..] == text[..|text| - 1][k + 1..] + [text[|text| - 1]];
      k
  }

  /**
   NUL bytes: a header line that fits the line buffer is independent of how it and the byte
   after it are read exactly when it contains no NUL.
   */
  lemma NulLimit(p: Parser, text: seq<Byte>, z: Byte)
    requires WellFormed(p) && AtHeader(p) && LF !in text && z != LF && z != 0 && |text| + 1 < LINE_BUF
    requires Chop(text + [LF]) != []
    ensures CutsAgree(p, text + [LF, z]) <==> 0 !in text
  {
    hide Chop, Process, Clean;
    if 0 !in text {
      CleanAgrees(p, text, z);
    } else {
      NulBreaks(p, text, z);
    }
  }

  lemma CleanAgrees(p: Parser, text: seq<Byte>, z: Byte)
    requires WellFormed(p) && AtHeader(p) && LF !in text && 0 !in text && z != LF && z != 0
    requires |text| + 1 < LINE_BUF && Chop(text + [LF]) != []
    ensures CutsAgree(p, text + [LF, z])
  {
    hide Chop, Process, Clean, WellFormed;
    var bytes := text + [LF, z];
    CleanLine(p, text, z);
    forall k | 0 < k < |bytes| ensures SameCut(p, bytes[..k], bytes[k..]) {
      assert bytes[..k] + bytes[k..] == bytes;
      FragmentationIndependence(p, bytes[..k], bytes[k..]);
    }
  }

  /** A cut just after the last NUL lets the second read find the line end. */
  lemma NulBreaks(p: Parser, text: seq<Byte>, z: Byte)
    requires AtHeader(p) && LF !in text && 0 in text && z != LF && z != 0 && |text| + 1 < LINE_BUF
    requires Chop(text + [LF]) != []
    ensures !CutsAgree(p, text + [LF, z])
  {
    hide Chop, Process, FindLf, SameCut;
    var bytes := text + [LF, z];
    var k := LastNul(text) + 1;
    var a, b := text[..k], text[k..];
    assert a + b == text && a[k - 1] == 0;
    NulCut(p, a, b, z);
    assert bytes[..k] == a && bytes[k..] == b + [LF, z];
  }

  /** The cut behind a NUL makes a difference. */
  lemma NulCut(p: Parser, a: seq<Byte>, b: seq<Byte>, z: Byte)
    requires AtHeader(p) && a != [] && a[|a| - 1] == 0 && LF !in a && LF !in b && 0 !in b && z != LF && z != 0
    requires |a| + |b| + 1 < LINE_BUF && Chop(a + b + [LF]) != []
    ensures !SameCut(p, a, b + [LF, z])
  {
    hide Chop, Process, FindLf, SameCut;
    NulWhole(p, a, b, z);
    FirstPart(p, a);
    var q := p.(line := a);
    HeaderEnds(q, b, z);
    Differ(p, a, b + [LF, z]);
  }

  /** In one read the NUL hides the line end, and the byte behind it does not start a new line. */
  lemma NulWhole(p: Parser, a: seq<Byte>, b: seq<Byte>, z: Byte)
    requires AtHeader(p) && a != [] && a[|a| - 1] == 0 && LF !in a && LF !in b && z != LF
    requires |a| + |b| + 1 < LINE_BUF && Chop(a + b + [LF]) != []
    ensures Process(p, a + (b + [LF, z])).0.line != [z]
    ensures forall s: seq<Byte> :: [] + s == s
  {
    hide Chop, Process, FindLf;
    var bytes := a + (b + [LF, z]);
    assert bytes == a + b + [LF, z];
    assert 0 in a + b by { assert (a + b)[|a| - 1] == 0; }
    FindLfEnd(a + b, [LF, z]);
    if |bytes| < LINE_BUF - 1 {
      HeaderGoesOn(p, bytes);
      assert |p.line + bytes| > 1;
    } else {
      assert |bytes| == LINE_BUF - 1 ==> bytes[..LINE_BUF - 1] == bytes && Chop(bytes) != [] by { NoLfToChop(bytes); }
      assert |bytes| == LINE_BUF ==> bytes[..LINE_BUF - 1] == a + b + [LF];
      HeaderFull(p, bytes);
    }
  }

  lemma NoLfToChop(line: seq<Byte>)
    requires line != [] && line[|line| - 1] != LF
    ensures Chop(line) != []
  {
  }

  /** Without a line end in sight, a buffer that fills the line buffer counts as a line; all of it is gone then. */
  lemma HeaderFull(p: Parser, buf: seq<Byte>)
    requires AtHeader(p) && FindLf(buf) == None && |buf| >= LINE_BUF - 1 && Chop(buf[..LINE_BUF - 1]) != []
    ensures Process(p, buf).0.line == []
  {
    hide NoteHeader, FindLf, Chop;
    var line := Chop(buf[..LINE_BUF - 1]);
    assert p.line + buf[..LINE_BUF - 1] == buf[..LINE_BUF - 1];
    assert |buf| == LINE_BUF - 1 ==> buf[..|buf|] == buf[..LINE_BUF - 1];
    assert buf[|buf|..] == [];
    assert GetLine(p, buf) == (p.(line := line), [], true);
    var q := OnHeaderLine(p.(line := line), line);
    NoteHeaderKeepsState(p.(line := line), CString(line));
    NothingRead(q);
    assert ParseHeaders(p, buf) == (q, []);
  }

  lemma FirstPart(p: Parser, a: seq<Byte>)
    requires AtHeader(p) && a != [] && a[|a| - 1] == 0 && LF !in a && |a| + 1 < LINE_BUF
    ensures Process(p, a) == (p.(line := a), [])
  {
    hide Process, FindLf;
    assert a + [] == a && p.line + a == a;
    FindLfEnd(a, []);
    HeaderGoesOn(p, a);
  }

  lemma Differ(p: Parser, a: seq<Byte>, b: seq<Byte>)
    requires var (q, rest) := Process(p, a);
             Process(q, rest + b).0.line != Process(p, a + b).0.line
    ensures !SameCut(p, a, b)
  {
  }

  /** A fine line and the byte after it are a clean stream. */
  lemma CleanLine(p: Parser, text: seq<Byte>, z: Byte)
    requires AtHeader(p) && LF !in text && 0 !in text && z != LF && z != 0
    requires |text| + 1 < LINE_BUF && Chop(text + [LF]) != []
    ensures Clean(p, text + [LF, z])
  {
    hide Chop, NoteHeader, Feed, Clean;
    var t := text + [LF];
    assert t[..|t| - 1] == text && p.line + t == t;
    FeedText(p, t, [z]);
    assert t + [z] == text + [LF, z];
    var q := OnLine(p, Chop(t));
    NoteHeaderKeepsState(p, CString(Chop(t)));
    CleanByte(q, z);
  }

  lemma CleanByte(p: Parser, z: Byte)
    requires p.state == Header && p.line == [] && z != 0 && z != LF
    ensures Clean(p, [z])
  {
    assert [z][1..] == [];
  }

  /**
   Long lines: a NUL-free header line is independent of how it and the byte after it are read
   exactly when it fits the line buffer together with its line end.
   */
  lemma LengthLimit(p: Parser, text: seq<Byte>, z: Byte)
    requires WellFormed(p) && AtHeader(p) && LF !in text && 0 !in text && z != LF && z != 0
    requires Chop(text + [LF]) != []
    ensures CutsAgree(p, text + [LF, z]) <==> |text| + 1 < LINE_BUF
  {
    hide Chop, Process, Clean;
    if |text| + 1 < LINE_BUF {
      CleanAgrees(p, text, z);
    } else {
      LengthBreaks(p, text, z);
    }
  }

  /** A line of LINE_BUF - 1 bytes counts as complete; its rest becomes a line of its own if read later. */
  lemma LengthBreaks(p: Parser, text: seq<Byte>, z: Byte)
    requires AtHeader(p) && LF !in text && 0 !in text && z != LF && z != 0
    requires |text| + 1 >= LINE_BUF
    ensures !CutsAgree(p, text + [LF, z])
  {
    hide Chop, Process, FindLf, NoteHeader;
    var bytes, k := text + [LF, z], LINE_BUF - 1;
    var a, b := text[..k], text[k..] + [LF, z];
    assert a + b == bytes && bytes[..k] == a && bytes[k..] == b && [] + b == b;
    FullLine(p, bytes, a, |text| + 1, text, [z]);
    assert a + [] == a && LF !in a && 0 !in a;
    FindLfEnd(a, []);
    FullLine(p, a, a, k, text, []);
    var q := OnHeaderLine(p, a);
    NoteHeaderKeepsState(p, CString(a));
    assert bytes[|text| + 1..] == [z] && a[k..] == [];
    SingleHeaderByte(q, z);
    assert Process(p, bytes).0 == q.(line := [z]);
    assert Process(p, a) == (q, []);
    LateRest(q, text[k..], z);
    assert !SameCut(p, bytes[..k], bytes[k..]);
  }

  /** get_line cuts the line off after LINE_BUF - 1 bytes and drops what is left of it in the buffer. */
  lemma FullLine(p: Parser, buf: seq<Byte>, line: seq<Byte>, eol: nat, text: seq<Byte>, z: seq<Byte>)
    requires AtHeader(p) && LF !in text && 0 !in text && |text| >= LINE_BUF - 1 == |line|
             && line == text[..LINE_BUF - 1]
    requires (buf == text + [LF] + z && eol == |text| + 1 && |z| <= 1) || (buf == line && eol == LINE_BUF - 1)
    ensures eol <= |buf|
    ensures Process(p, buf) == if buf[eol..] == [] then (OnHeaderLine(p, line), [])
                               else Process(OnHeaderLine(p, line), buf[eol..])
  {
    hide NoteHeader, FindLf, Chop, GetLine;
    FullHeader(p, buf, line, eol, text, z);
    NoteHeaderKeepsState(p, CString(line));
    if buf[eol..] == [] {
      assert ParseHeaders(OnHeaderLine(p, line), []) == (OnHeaderLine(p, line), [])
             by { NothingRead(OnHeaderLine(p, line)); }
    }
  }

  lemma NothingRead(p: Parser)
    ensures ParseHeaders(p, []) == (p, [])
  {
  }

  lemma FullHeader(p: Parser, buf: seq<Byte>, line: seq<Byte>, eol: nat, text: seq<Byte>, z: seq<Byte>)
    requires AtHeader(p) && LF !in text && 0 !in text && |text| >= LINE_BUF - 1 == |line|
             && line == text[..LINE_BUF - 1]
    requires (buf == text + [LF] + z && eol == |text| + 1 && |z| <= 1) || (buf == line && eol == LINE_BUF - 1)
    ensures eol <= |buf|
    ensures ParseHeaders(p, buf) == ParseHeaders(OnHeaderLine(p, line), buf[eol..])
  {
    hide NoteHeader, FindLf, Chop;
    assert LF !in line && 0 !in line && line + [] == line;
    FindLfEnd(line, []);
    FindLfEnd(text, z);
    assert buf[..LINE_BUF - 1] == line && p.line + line == line;
    assert line[|line| - 1] in line;
    assert Chop(line) == line by { ChopNothing(line); }
    assert GetLine(p, buf) == (p.(line := line), buf[eol..], true);
    var q := OnHeaderLine(p, line);
    assert q == OnHeaderLine(p.(line := line), line) by { OnLineIgnores(p, line, line); }
  }

  lemma ChopNothing(line: seq<Byte>)
    requires line != [] && line[|line| - 1] != LF
    ensures Chop(line) == line
  {
  }

  lemma SingleHeaderByte(p: Parser, z: Byte)
    requires p.state == Header && p.line == [] && z != LF
    ensures Process(p, [z]) == (p.(line := [z]), [])
  {
    SingleByte(p, z);
  }

  /** The rest of the long line, read separately, is not without effect. */
  lemma LateRest(q: Parser, text: seq<Byte>, z: Byte)
    requires AtHeader(q) && LF !in text && 0 !in text && z != LF && z != 0
    ensures Process(q, text + [LF, z]).0 != q.(line := [z])
  {
    hide Process, FindLf, NoteHeader, Chop;
    var buf := text + [LF, z];
    assert buf == text + [LF] + [z];
    if |text| + 1 >= LINE_BUF {
      var line := text[..LINE_BUF - 1];
      FullLine(q, buf, line, |text| + 1, text, [z]);
      assert buf[|text| + 1..] == [z];
      NoteHeaderKeepsState(q, CString(line));
      SingleHeaderByte(OnHeaderLine(q, line), z);
    } else if Chop(text + [LF]) != [] {
      assert q.line + text + [LF] == text + [LF];
      HeaderEnds(q, text, z);
    } else {
      EmptyLineEnds(q, text, z);
    }
  }

  /** An empty line ends the header block for good. */
  lemma EmptyLineEnds(q: Parser, text: seq<Byte>, z: Byte)
    requires AtHeader(q) && LF !in text && 0 !in text && z != LF && |text| + 1 < LINE_BUF
    requires Chop(text + [LF]) == []
    ensures Process(q, text + [LF, z]).0.state != Header
  {
    hide FindLf, NoteHeader, Chop, ParseData, XferChunked;
    var buf := text + [LF, z];
    assert buf == text + [LF] + [z];
    FindLfEnd(text, [z]);
    GetLineEnds(q, buf);
    assert q.line + buf[..|text| + 1] == text + [LF];
    assert buf[|text| + 1..] == [z];
    var r := OnHeaderLine(q.(line := []), []);
    assert ParseHeaders(q, buf) == (r, [z]);
    assert Process(q, buf) == Process(r, [z]);
    AfterHeaders(r, [z]);
  }

  lemma {:induction false} AfterHeaders(p: Parser, buf: seq<Byte>)
    requires p.state in {Data, Chunked, Footer, Done}
    ensures Process(p, buf).0.state in {Data, Chunked, Footer, Done}
    decreases |buf|, if Stopped(p) then 0 else 1
  {
    hide ParseData, XferChunked, ParseFooters;
    DataState(p, buf);
    ChunkedState(p, buf);
    FooterState(p, buf);
    var (q, rest) := Dispatch(p, buf);
    if rest != [] && !Stopped(p) {
      AfterHeaders(q, rest);
    }
  }

  lemma {:induction false} ChunkedState(p: Parser, buf: seq<Byte>)
    ensures p.state == Chunked ==> XferChunked(p, buf).0.state in {Chunked, Footer}
    decreases |buf|
  {
    hide GetLine, ParseData, StrToUl, CString;
    if p.state == Chunked && buf != [] {
      if p.contentBytes >= p.contentLength {
        var (q, rest, complete) := GetLine(p, buf);
        GetLineState(p, buf);
        if complete {
          var q' := OnChunkLine(q, q.line);
          if BadChunkLine(q.line) {
            ChunkedState(q', rest);
          } else if q'.state != Footer {
            DataState(q', rest);
            var (s, rest', _) := ParseData(q', rest);
            ChunkedState(s, rest');
          }
        }
      } else {
        DataState(p, buf);
        var (s, rest', _) := ParseData(p, buf);
        ChunkedState(s, rest');
      }
    }
  }

  lemma GetLineState(p: Parser, buf: seq<Byte>)
    ensures GetLine(p, buf).0.state == p.state && GetLine(p, buf).0.body == p.body
  {
  }

  lemma {:induction false} FooterState(p: Parser, buf: seq<Byte>)
    ensures p.state == Footer ==> ParseFooters(p, buf).0.state in {Footer, Done}
    decreases |buf|
  {
    hide GetLine;
    GetLineState(p, buf);
    if p.state == Footer && buf != [] {
      var (q, rest, complete) := GetLine(p, buf);
      if complete && q.line != [] {
        FooterState(OnFooterLine(q, q.line), rest);
      }
    }
  }

  /**
   Chunk sizes: after a size line for n >= 2 bytes, any two reads of one byte each are body
   bytes exactly when the announced total does not wrap around.
   */
  lemma WrapLimit(p: Parser, n: SizeT, x: Byte, y: Byte)
    requires AtSizeLine(p) && n >= 2 && p.contentLength + 2 < SIZE
    ensures SameCut(p, Hex(n) + CRLF + [x], [y]) <==> p.contentLength + n < SIZE
  {
    hide Process, Hex;
    var line := Hex(n) + CRLF;
    SizeLineRead(p, n, [x]);
    SizeLineRead(p, n, [x, y]);
    assert line + [x] + [y] == line + [x, y] && [] + [y] == [y];
    var r := Process(p, line + [x]).0;
    assert p.body + [x, y] == r.body + [y];
    if p.contentLength + n < SIZE {
      BodyByte(r, y);
    } else {
      WrappedByte(r, y);
    }
  }

  /** What the announced total becomes with a chunk of n bytes, in size_t arithmetic. */
  function Announced(total: SizeT, n: SizeT): SizeT {
    (total + n) % SIZE
  }

  /** A size line for n bytes and the first of them, in one read. */
  lemma SizeLineRead(p: Parser, n: SizeT, data: seq<Byte>)
    requires AtSizeLine(p) && 0 < |data| <= n && p.contentLength + |data| < SIZE
    ensures Process(p, Hex(n) + CRLF + data) ==
            (p.(contentLength := Announced(p.contentLength, n), contentBytes := p.contentBytes + |data|,
                body := p.body + data), [])
  {
    hide Announced, Hex, SizeLine, FineText, Process, GetLine, ParseData, OnChunkLine, BadChunkLine;
    var line, buf := Hex(n), Hex(n) + CRLF + data;
    HexIsSizeLine(n);
    SizeLineIsText(line, n);
    CrlfLineRead(p, line, data);
    var q := p.(contentLength := Announced(p.contentLength, n));
    ChunkLineRead(p, line, n);
    var s := q.(contentBytes := p.contentBytes + |data|, body := p.body + data);
    DataRead(q, n, data);
    ChunkRead(p, buf, line, data, q, s);
  }

  lemma ChunkRead(p: Parser, buf: seq<Byte>, line: seq<Byte>, data: seq<Byte>, q: Parser, s: Parser)
    requires p.state == Chunked && p.contentBytes >= p.contentLength && buf != []
    requires GetLine(p, buf) == (p.(line := line), data, true)
    requires !BadChunkLine(line) && OnChunkLine(p.(line := line), line) == q && q.state == Chunked
    requires ParseData(q, data).0 == s && ParseData(q, data).1 == [] && s.state == Chunked
    ensures Process(p, buf) == (s, [])
  {
    hide GetLine, ParseData, BadChunkLine, OnChunkLine;
    assert XferChunked(s, []) == (s, []);
    assert XferChunked(p, buf) == (s, []);
  }

  lemma CrlfLineRead(p: Parser, line: seq<Byte>, data: seq<Byte>)
    requires p.line == [] && FineText(line)
    ensures GetLine(p, line + CRLF + data) == (p.(line := line), data, true)
  {
    hide Chop, FindLf, GetLine;
    var buf, t := line + CRLF + data, line + [CR];
    assert buf == t + [LF] + data;
    FindLfEnd(t, data);
    GetLineEnds(p, buf);
    assert p.line + buf[..|t| + 1] == line + CRLF && buf[|t| + 1..] == data;
    ChopCrlf(line);
  }

  lemma ChunkLineRead(p: Parser, line: seq<Byte>, n: SizeT)
    requires AtSizeLine(p) && SizeLine(line, n) && n > 0
    ensures OnChunkLine(p.(line := line), line) == p.(contentLength := Announced(p.contentLength, n))
    ensures !BadChunkLine(line)
  {
    hide StrToUl;
    NoNul(line);
  }

  lemma DataRead(q: Parser, n: SizeT, data: seq<Byte>)
    requires |data| <= n && q.contentBytes + |data| < SIZE
    requires q.contentLength == Announced(q.contentBytes, n)
    ensures ParseData(q, data) ==
            (q.(contentBytes := q.contentBytes + |data|, body := q.body + data), [], |data| == n)
  {
    assert BytesNeeded(q) == n;
    assert data[..|data|] == data;
  }

  lemma ChopCrlf(line: seq<Byte>)
    ensures Chop(line + CRLF) == line
  {
    assert (line + CRLF)[..|line|] == line;
  }

  lemma BodyByte(p: Parser, y: Byte)
    requires p.state == Chunked && p.contentBytes < p.contentLength
    ensures Process(p, [y]) == (p.(contentBytes := p.contentBytes + 1, body := p.body + [y]), [])
  {
    var s := p.(contentBytes := p.contentBytes + 1, body := p.body + [y]);
    OneByte(p, y);
    LastByte(s);
    hide ParseData, GetLine, OnChunkLine, BadChunkLine;
    assert XferChunked(p, [y]) == (s, []);
  }

  lemma OneByte(p: Parser, y: Byte)
    requires p.contentBytes < p.contentLength
    ensures ParseData(p, [y]).0 == p.(contentBytes := p.contentBytes + 1, body := p.body + [y])
            && ParseData(p, [y]).1 == []
  {
    DataTaken(p, [y]);
    assert [y][..1] == [y];
  }

  /** Once the total has wrapped around, what is read next is taken for a size line. */
  lemma WrappedByte(p: Parser, y: Byte)
    requires p.state == Chunked && p.contentBytes >= p.contentLength
    ensures Process(p, [y]).0.body == p.body
  {
    hide GetLine, OnChunkLine, ParseData, BadChunkLine;
    var (q, rest, complete) := GetLine(p, [y]);
    GetLineState(p, [y]);
    if complete {
      assert rest == [];
      OnChunkLineBody(q, q.line);
      LastByte(OnChunkLine(q, q.line));
      LastByte(ParseData(OnChunkLine(q, q.line), []).0);
    }
  }

  lemma OnChunkLineBody(p: Parser, line: seq<Byte>)
    ensures OnChunkLine(p, line).body == p.body
  {
  }

  lemma LastByte(p: Parser)
    ensures XferChunked(p, []) == (p, []) && ParseData(p, []).0.body == p.body
  {
  }
}
