/**
 The HTTP reply parser as http.c runs it, a buffer at a time, and the proof that on
 streams with reasonable lines it does what the byte-wise reference does, so that the
 way the stream is cut into reads cannot matter.
 */
module HttpBlocks {
  import opened Sequences
  import opened Wrappers
  import opened HttpParser

  /** strchr (buf, LF): the search ends at a NUL. */
  function FindLf(buf: seq<Byte>): (r: Option<nat>)
    ensures r.Some? ==> r.value < |buf| && buf[r.value] == LF
  {
    if buf == [] || buf[0] == 0 then None
    else if buf[0] == LF then Some(0)
    else match FindLf(buf[1..])
      case None => None
      case Some(k) => Some(k + 1)
  }

  /** get_line: the parser, the rest of the buffer, and whether the line is complete. */
  function GetLine(p: Parser, buf: seq<Byte>): (r: (Parser, seq<Byte>, bool))
    ensures buf != [] ==> |r.1| < |buf|
    ensures r.2 ==> buf != []
  {
    if buf == [] then (p, buf, false) else
    var found := FindLf(buf);
    var eol := if found.Some? then found.value + 1 else |buf|;
    var toCopy := if |p.line| + eol < LINE_BUF then eol
                  else if |p.line| < LINE_BUF then LINE_BUF - 1 - |p.line| else 0;
    var line := p.line + buf[..toCopy];
    if line != [] && (line[|line| - 1] == LF || |line| == LINE_BUF - 1)
    then (p.(line := Chop(line)), buf[eol..], true)
    else (p.(line := line), buf[eol..], false)
  }

  function ParseStatusLine(p: Parser, buf: seq<Byte>): (r: (Parser, seq<Byte>))
    ensures buf != [] ==> |r.1| < |buf|
  {
    var (q, rest, complete) := GetLine(p.(isChunked := false, contentLength := UNKNOWN), buf);
    (if complete then OnStatusLine(q, q.line) else q, rest)
  }

  function ParseHeaders(p: Parser, buf: seq<Byte>): (r: (Parser, seq<Byte>))
    ensures buf != [] ==> |r.1| < |buf|
    decreases |buf|
  {
    var (q, rest, complete) := GetLine(p, buf);
    if !complete then (q, rest)
    else if q.line == [] then (OnHeaderLine(q, []), rest)
    else ParseHeaders(OnHeaderLine(q, q.line), rest)
  }

  function ParseFooters(p: Parser, buf: seq<Byte>): (r: (Parser, seq<Byte>))
    ensures buf != [] ==> |r.1| < |buf|
    decreases |buf|
  {
    var (q, rest, complete) := GetLine(p, buf);
    if !complete then (q, rest)
    else if q.line == [] then (OnFooterLine(q, []), rest)
    else ParseFooters(OnFooterLine(q, q.line), rest)
  }

  /** size_t arithmetic: what is missing of the announced body. */
  function BytesNeeded(p: Parser): nat {
    (p.contentLength - p.contentBytes) % SIZE
  }

  function ParseData(p: Parser, buf: seq<Byte>): (r: (Parser, seq<Byte>, bool))
    ensures |r.1| <= |buf|
    ensures buf != [] && BytesNeeded(p) > 0 ==> |r.1| < |buf|
  {
    var needed := BytesNeeded(p);
    var n := if |buf| > needed then needed else |buf|;
    (p.(body := p.body + buf[..n], contentBytes := (p.contentBytes + n) % SIZE), buf[n..], n == needed)
  }

  /**
   As long as no more was counted than announced, parse_data takes what is there but no more than is
   due, counts it without wrapping around, and tells whether anything is still due.
   */
  lemma DataTaken(p: Parser, buf: seq<Byte>)
    requires p.contentBytes <= p.contentLength
    ensures var (q, rest, full) := ParseData(p, buf);
            && p.body <= q.body && buf == q.body[|p.body|..] + rest
            && q.contentBytes == p.contentBytes + (|q.body| - |p.body|) <= q.contentLength == p.contentLength
            && (full <==> q.contentBytes == q.contentLength) && (rest != [] ==> full)
            && q == p.(body := q.body, contentBytes := q.contentBytes)
  {
    assert BytesNeeded(p) == p.contentLength - p.contentBytes;
  }

  predicate BadChunkLine(line: seq<Byte>) {
    line == [] || var n := StrToUl(CString(line), 16); n.outOfRange || !n.parsed
  }

  function XferChunked(p: Parser, buf: seq<Byte>): (r: (Parser, seq<Byte>))
    ensures buf != [] ==> |r.1| < |buf|
    decreases |buf|
  {
    if buf == [] then (p, buf)
    else if p.contentBytes >= p.contentLength then
      var (q, rest, complete) := GetLine(p, buf);
      if !complete then (q, rest) else
      var q' := OnChunkLine(q, q.line);
      if BadChunkLine(q.line) then XferChunked(q', rest)
      else if q'.state == Footer then (q', rest)
      else
        var (s, rest', _) := ParseData(q', rest);
        XferChunked(s, rest')
    else
      var (s, rest', _) := ParseData(p, buf);
      XferChunked(s, rest')
  }

  /** One round of the loop of http_process_reply_bytes. */
  function Dispatch(p: Parser, buf: seq<Byte>): (r: (Parser, seq<Byte>))
    ensures |r.1| < |buf| || Stopped(r.0) || buf == []
    ensures buf != [] && !Stopped(p) && !Exhausted(p) ==> |r.1| < |buf|
    ensures |r.1| <= |buf|
  {
    match p.state
    case Status => ParseStatusLine(p, buf)
    case Header => ParseHeaders(p, buf)
    case Continue => ParseHeaders(p, buf)
    case Footer => ParseFooters(p, buf)
    case Data =>
      var (q, rest, full) := ParseData(p, buf);
      (if full then q.(state := Done) else q, rest)
    case Chunked => XferChunked(p, buf)
    case _ => (p, buf)
  }

  /** http_process_reply_bytes. */
  function Process(p: Parser, buf: seq<Byte>): (r: (Parser, seq<Byte>))
    ensures |r.1| <= |buf|
    ensures buf != [] && !Stopped(p) && !Exhausted(p) ==> |r.1| < |buf|
    ensures r.1 != [] ==> Stopped(r.0)
    ensures Stopped(p) ==> r == (p, buf)
    decreases |buf|, if Stopped(p) then 0 else 1
  {
    var (q, rest) := Dispatch(p, buf);
    if rest == [] || Stopped(p) then (q, rest) else Process(q, rest)
  }

  // ---- the block parser refines the reference ----

  /** Earlier line content and earlier resets do not influence what a complete line does. */
  lemma OnLineIgnores(p: Parser, part: seq<Byte>, line: seq<Byte>)
    requires InLine(p)
    ensures OnLine(Enter(p).(line := part), line) == OnLine(p, line)
    ensures Enter(Enter(p).(line := part)) == Enter(p).(line := part)
  {
    hide StrToUl, ParseStatusText, CString, HasPrefix, SkipSpace;
  }

  lemma FirstByte(p: Parser, buf: seq<Byte>)
    requires InLine(p) && Clean(p, buf) && buf != []
    ensures FineByte(p, buf[0]) && Clean(Step(p, buf[0]), buf[1..]) && Feed(p, buf) == Feed(Step(p, buf[0]), buf[1..])
  {
    hide Step, FineByte;
  }

  /** What the reference does with a buffer that ends the current line, in one step. */
  lemma {:induction false} FeedWholeLine(p: Parser, buf: seq<Byte>, k: nat)
    requires InLine(p) && WellFormed(p) && Clean(p, buf) && FindLf(buf) == Some(k)
    ensures |p.line| + k + 1 < LINE_BUF
    ensures var q := OnLine(p, Chop(p.line + buf[..k + 1]));
            && Feed(p, buf) == Feed(q, buf[k + 1..])
            && WellFormed(q) && Clean(q, buf[k + 1..])
    ensures p.state == Chunked ==> FineChunkLine(p, Chop(p.line + buf[..k + 1]))
    decreases |buf|
  {
    hide OnLine, Chop, FineChunkLine, Clean, Feed;
    var b, rest := buf[0], buf[1..];
    var q := Step(p, b);
    FirstByte(p, buf);
    StepKeepsWellFormed(p, b);
    if b == LF {
      assert buf[..1] == [b];
    } else {
      FeedWholeLine(q, rest, k - 1);
      var line := Chop(p.line + buf[..k + 1]);
      assert q.line + rest[..k] == p.line + buf[..k + 1];
      OnLineIgnores(p, q.line, line);
      assert rest[k..] == buf[k + 1..];
      if p.state == Chunked {
        SameFineChunkLine(p, q.line, line);
      }
    }
  }

  /** What the reference does with a buffer that does not end the current line. */
  lemma {:induction false} FeedPartLine(p: Parser, buf: seq<Byte>)
    requires InLine(p) && WellFormed(p) && Clean(p, buf) && FindLf(buf) == None && buf != []
    ensures Feed(p, buf) == (Enter(p).(line := p.line + buf), [])
    ensures WellFormed(Enter(p).(line := p.line + buf))
    decreases |buf|
  {
    hide OnLine, Chop, FineChunkLine;
    var b, rest := buf[0], buf[1..];
    var q := Step(p, b);
    StepKeepsWellFormed(p, b);
    if rest == [] {
      assert buf == [b];
    } else {
      FeedPartLine(q, rest);
      assert q.line + rest == p.line + buf;
      OnLineIgnores(p, q.line, []);
    }
  }

  lemma SameFineChunkLine(p: Parser, part: seq<Byte>, line: seq<Byte>)
    requires p.state == Chunked
    ensures FineChunkLine(Enter(p).(line := part), line) <==> FineChunkLine(p, line)
  {
    hide StrToUl, CString;
  }

  /** get_line on a clean buffer that ends the line. */
  lemma GetLineEnds(p: Parser, buf: seq<Byte>)
    requires FindLf(buf).Some? && |p.line| + FindLf(buf).value + 1 < LINE_BUF
    ensures var k := FindLf(buf).value;
            GetLine(p, buf) == (p.(line := Chop(p.line + buf[..k + 1])), buf[k + 1..], true)
  {
    hide Chop;
    var k := FindLf(buf).value;
    var line := p.line + buf[..k + 1];
    assert line[|line| - 1] == buf[k];
  }

  /** get_line on a clean buffer that does not. */
  lemma GetLineGoesOn(p: Parser, buf: seq<Byte>)
    requires FindLf(buf).None? && buf != [] && |p.line| + |buf| < LINE_BUF - 1 && LF !in p.line + buf
    ensures GetLine(p, buf) == (p.(line := p.line + buf), [], false)
  {
    var line := p.line + buf;
    assert buf[..|buf|] == buf;
    assert line[|line| - 1] in line;
  }

  /** The parser after n body bytes. */
  function Consume(p: Parser, data: seq<Byte>): Parser
    requires p.contentBytes + |data| < SIZE
  {
    var q := p.(body := p.body + data, contentBytes := p.contentBytes + |data|);
    if p.state == Data && q.contentBytes == q.contentLength then q.(state := Done) else q
  }

  /** What the reference does with n body bytes, in one step. */
  lemma {:induction false} FeedBody(p: Parser, buf: seq<Byte>, n: nat)
    requires p.state in {Data, Chunked} && WellFormed(p) && Clean(p, buf)
    requires 0 < n <= |buf| && p.contentBytes + n <= p.contentLength
    ensures Feed(p, buf) == Feed(Consume(p, buf[..n]), buf[n..])
    ensures WellFormed(Consume(p, buf[..n])) && Clean(Consume(p, buf[..n]), buf[n..])
    decreases n
  {
    hide OnLine, Chop, FineChunkLine, Consume, Step, WellFormed;
    var b, rest := buf[0], buf[1..];
    StepIsConsume(p, b);
    assert FineByte(p, b);
    StepKeepsWellFormed(p, b);
    if n == 1 {
      assert buf[..1] == [b];
    } else {
      FeedBody(Step(p, b), rest, n - 1);
      ConsumeMore(p, b, rest[..n - 1]);
      assert rest[n - 1..] == buf[n..];
      assert [b] + rest[..n - 1] == buf[..n];
    }
  }

  lemma StepIsConsume(p: Parser, b: Byte)
    requires p.state in {Data, Chunked} && p.contentBytes < p.contentLength
    ensures Step(p, b) == Consume(p, [b]) && !InLine(p) && !Exhausted(p)
    ensures p.contentBytes + 1 < p.contentLength ==> Step(p, b).state == p.state
    ensures Step(p, b).contentBytes == p.contentBytes + 1 && Step(p, b).contentLength == p.contentLength
  {
    hide OnLine, Chop;
  }

  lemma ConsumeMore(p: Parser, b: Byte, data: seq<Byte>)
    requires p.contentBytes + 1 + |data| <= p.contentLength && data != []
    ensures Consume(Consume(p, [b]), data) == Consume(p, [b] + data)
  {
    assert p.body + [b] + data == p.body + ([b] + data);
  }

  lemma EmptyBuffer(p: Parser)
    ensures GetLine(p, []) == (p, [], false) && Clean(p, [])
  {
  }

  /** The reference continues from (q, rest) exactly as it does from (p, buf). */
  ghost predicate Resumes(p: Parser, buf: seq<Byte>, q: Parser, rest: seq<Byte>) {
    Feed(p, buf) == Feed(q, rest) && WellFormed(q) && Clean(q, rest)
  }

  /** get_line followed by the effect of the line it completed. */
  lemma GetLineResumes(p: Parser, buf: seq<Byte>)
    requires InLine(p) && WellFormed(p) && Clean(p, buf) && buf != []
    ensures var (q, rest, complete) := GetLine(Enter(p), buf);
            && q == Enter(p).(line := q.line)
            && (if complete then Resumes(p, buf, OnLine(p, q.line), rest) else rest == [] && Resumes(p, buf, q, []))
            && (complete && p.state == Chunked ==> FineChunkLine(p, q.line))
  {
    hide OnLine, Chop, FineChunkLine, GetLine, Clean, WellFormed;
    match FindLf(buf)
    case Some(k) =>
      FeedWholeLine(p, buf, k);
      GetLineEnds(Enter(p), buf);
    case None =>
      FeedPartLine(p, buf);
      assert WellFormed(Enter(p).(line := p.line + buf));
      PartLineBound(Enter(p).(line := p.line + buf));
      GetLineGoesOn(Enter(p), buf);
      EmptyBuffer(Enter(p).(line := p.line + buf));
  }

  lemma PartLineBound(p: Parser)
    requires WellFormed(p)
    ensures |p.line| < LINE_BUF - 1 && LF !in p.line
  {
  }

  lemma StatusResumes(p: Parser, buf: seq<Byte>)
    requires p.state == Status && WellFormed(p) && Clean(p, buf) && buf != []
    ensures var (q, rest) := ParseStatusLine(p, buf); Resumes(p, buf, q, rest)
  {
    hide Chop, GetLine, Clean, WellFormed, ParseStatusText, CString, FineChunkLine;
    GetLineResumes(p, buf);
    var (q, rest, complete) := GetLine(Enter(p), buf);
    OnLineIgnores(p, q.line, q.line);
  }

  lemma {:induction false} HeadersResume(p: Parser, buf: seq<Byte>)
    requires p.state in {Header, Continue} && WellFormed(p) && Clean(p, buf)
    ensures var (q, rest) := ParseHeaders(p, buf); Resumes(p, buf, q, rest)
    decreases |buf|
  {
    hide Chop, GetLine, Clean, WellFormed, NoteHeader, CString, FineChunkLine;
    EmptyBuffer(p);
    if buf != [] {
      GetLineResumes(p, buf);
      var (q, rest, complete) := GetLine(p, buf);
      OnLineIgnores(p, q.line, q.line);
      if complete && q.line != [] {
        var r := OnLine(p, q.line);
        NoteHeaderKeepsState(p, CString(q.line));
        HeadersResume(r, rest);
      }
    }
  }

  lemma NoteHeaderKeepsState(p: Parser, hdr: seq<Byte>)
    ensures NoteHeader(p, hdr).state == p.state && NoteHeader(p, hdr).contentBytes == p.contentBytes
  {
  }

  lemma {:induction false} FootersResume(p: Parser, buf: seq<Byte>)
    requires p.state == Footer && WellFormed(p) && Clean(p, buf)
    ensures var (q, rest) := ParseFooters(p, buf); Resumes(p, buf, q, rest)
    decreases |buf|
  {
    hide Chop, GetLine, Clean, WellFormed, FineChunkLine;
    EmptyBuffer(p);
    if buf != [] {
      GetLineResumes(p, buf);
      var (q, rest, complete) := GetLine(p, buf);
      OnLineIgnores(p, q.line, q.line);
      if complete && q.line != [] {
        FootersResume(OnLine(p, q.line), rest);
      }
    }
  }

  /** parse_data with body bytes due: as many as the buffer has, at most what is needed. */
  lemma DataResumes(p: Parser, buf: seq<Byte>)
    requires p.state in {Data, Chunked} && WellFormed(p) && Clean(p, buf) && buf != []
    requires p.contentBytes < p.contentLength
    ensures var (q, rest, full) := ParseData(p, buf);
            Resumes(p, buf, if full && p.state == Data then q.(state := Done) else q, rest)
  {
    hide Clean, WellFormed, Feed;
    var needed := BytesNeeded(p);
    assert needed == p.contentLength - p.contentBytes;
    var n := if |buf| > needed then needed else |buf|;
    FeedBody(p, buf, n);
  }

  /** After a proper chunk size line, body bytes are due. */
  lemma ChunkStart(p: Parser, line: seq<Byte>)
    requires p.state == Chunked && p.contentBytes == p.contentLength && FineChunkLine(p, line)
    requires !BadChunkLine(line) && OnChunkLine(p, line).state != Footer
    ensures var q := OnChunkLine(p, line);
            q.state == Chunked && q.contentBytes == p.contentBytes && q.contentBytes < q.contentLength
  {
    hide StrToUl, CString;
  }

  lemma EmptyData(p: Parser)
    requires p.contentBytes < p.contentLength
    ensures ParseData(p, []) == (p, [], false)
  {
    assert p.body + [] == p.body;
  }

  lemma DataState(p: Parser, buf: seq<Byte>)
    ensures ParseData(p, buf).0.state == p.state
  {
  }

  lemma ChunkedCounters(p: Parser)
    requires WellFormed(p) && p.state == Chunked
    ensures p.contentBytes <= p.contentLength
  {
  }

  lemma {:induction false} ChunksResume(p: Parser, buf: seq<Byte>)
    requires p.state == Chunked && WellFormed(p) && Clean(p, buf)
    ensures var (q, rest) := XferChunked(p, buf); Resumes(p, buf, q, rest)
    decreases |buf|
  {
    hide Chop, GetLine, Clean, WellFormed, ParseData, StrToUl, CString;
    if buf == [] {
    } else if p.contentBytes >= p.contentLength {
      GetLineResumes(p, buf);
      var (q, rest, complete) := GetLine(p, buf);
      if complete {
        OnLineIgnores(p, q.line, q.line);
        ChunkedCounters(p);
        var q' := OnChunkLine(q, q.line);
        if BadChunkLine(q.line) {
          ChunksResume(q', rest);
        } else if q'.state != Footer {
          ChunkStart(p, q.line);
          DataState(q', rest);
          if rest != [] {
            DataResumes(q', rest);
          } else {
            EmptyData(q');
          }
          var (s, rest', _) := ParseData(q', rest);
          ChunksResume(s, rest');
        }
      }
    } else {
      DataResumes(p, buf);
      DataState(p, buf);
      var (s, rest', _) := ParseData(p, buf);
      ChunksResume(s, rest');
    }
  }

  /** One round of http_process_reply_bytes. */
  lemma DispatchResumes(p: Parser, buf: seq<Byte>)
    requires WellFormed(p) && Clean(p, buf) && buf != []
    ensures var (q, rest) := Dispatch(p, buf); Resumes(p, buf, q, rest)
  {
    hide ParseStatusLine, ParseHeaders, ParseFooters, ParseData, XferChunked;
    match p.state
    case Status => StatusResumes(p, buf);
    case Header => HeadersResume(p, buf);
    case Continue => HeadersResume(p, buf);
    case Footer => FootersResume(p, buf);
    case Data =>
      if p.contentBytes < p.contentLength {
        DataResumes(p, buf);
      } else {
        NoData(p, buf);
      }
    case Chunked => ChunksResume(p, buf);
    case Done =>
    case Undefined =>
  }

  lemma NoData(p: Parser, buf: seq<Byte>)
    requires p.contentBytes == p.contentLength
    ensures ParseData(p, buf) == (p, buf, true)
  {
    assert p.body + buf[..0] == p.body;
  }

  /** http_process_reply_bytes is the reference, for every clean buffer. */
  lemma {:induction false} ProcessIsFeed(p: Parser, buf: seq<Byte>)
    requires WellFormed(p) && Clean(p, buf) && buf != []
    ensures Process(p, buf) == Feed(p, buf)
    decreases |buf|, if Stopped(p) then 0 else 1
  {
    hide Dispatch, Clean, WellFormed;
    DispatchResumes(p, buf);
    var (q, rest) := Dispatch(p, buf);
    if rest != [] && !Stopped(p) {
      ProcessIsFeed(q, rest);
    }
  }

  /**
   Fragmentation independence: for every cut of a clean stream, processing the two reads one
   after the other leaves the same state, the same delivered headers, footers and body, and
   the same leftover as processing them at once.
   */
  lemma FragmentationIndependence(p: Parser, a: seq<Byte>, b: seq<Byte>)
    requires WellFormed(p) && Clean(p, a + b) && a != [] && b != []
    ensures var (q, rest) := Process(p, a);
            Process(p, a + b) == Process(q, rest + b)
  {
    hide Process, Clean, WellFormed, Step;
    CleanSplit(p, a, b);
    ProcessIsFeed(p, a);
    ProcessIsFeed(p, a + b);
    FeedSplit(p, a, b);
    var (q, rest) := Feed(p, a);
    if rest == [] {
      assert rest + b == b;
      ProcessIsFeed(q, b);
    } else {
      StoppedIsClean(q, rest + b);
      ProcessIsFeed(q, rest + b);
    }
  }

  lemma StoppedIsClean(p: Parser, buf: seq<Byte>)
    requires Stopped(p)
    ensures Clean(p, buf)
  {
  }
}
