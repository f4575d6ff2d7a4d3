/**
 http.c and the receiving half of core.c as they run: a connection object whose fields
 change as a buffer is consumed. Each method is the corresponding block function.
 */
module HttpReader {
  import opened Sequences
  import opened Wrappers
  import opened HttpParser
  import HttpBlocks
  import opened HttpChunked
  import opened HttpPipeline

  /** The end of the current line in the buffer: past the first LF, unless a NUL hides it. */
  method FindEol(buf: seq<Byte>) returns (eol: nat)
    ensures eol == match HttpBlocks.FindLf(buf) case None => |buf| case Some(k) => k + 1
  {
    eol := 0;
    assert buf[0..] == buf;
    while eol < |buf| && buf[eol] != 0 && buf[eol] != LF
      invariant 0 <= eol <= |buf|
      invariant HttpBlocks.FindLf(buf) ==
                match HttpBlocks.FindLf(buf[eol..])
                case None => None
                case Some(k) => Some(k + eol)
    {
      assert buf[eol..][1..] == buf[eol + 1..];
      eol := eol + 1;
    }
    assert eol < |buf| ==> buf[eol..][0] == buf[eol];
    eol := if eol < |buf| && buf[eol] == LF then eol + 1 else |buf|;
  }

  class Reader {
    // the connection
    var state: State
    var line: seq<Byte>
    var hasBody: bool
    var isChunked: bool
    var contentLength: SizeT
    // the call at the head of the receive queue
    const isHead: bool
    var version: nat
    var status: nat
    var contentBytes: SizeT
    // what the event handlers have been given for that call
    var headers: seq<seq<Byte>>
    var footers: seq<seq<Byte>>
    var body: seq<Byte>
    // calls taken off the receive queue
    var replies: seq<Reply>

    function Value(): Parser
      reads this
    {
      Parser(state, line, hasBody, isChunked, contentLength, isHead, version, status, contentBytes, headers, footers,
          body)
    }

    constructor (isHead: bool)
      ensures Fresh(Value()) && WellFormed(Value()) && replies == []
      ensures this.isHead == isHead
    {
      this.isHead := isHead;
      state, line, hasBody, isChunked, contentLength := Status, [], false, false, 0;
      version, status, contentBytes, headers, footers, body, replies := 0, 0, 0, [], [], [], [];
    }

    method GetLine(buf: seq<Byte>) returns (rest: seq<Byte>, complete: bool)
      modifies `line
      ensures (Value(), rest, complete) == HttpBlocks.GetLine(old(Value()), buf)
      ensures if buf != [] then |rest| < |buf| else !complete && rest == []
    {
      hide HttpBlocks.FindLf;
      if buf == [] {
        return buf, false;
      }
      var eol := FindEol(buf);
      var toCopy := eol;
      if |line| + toCopy >= LINE_BUF {
        toCopy := if |line| < LINE_BUF then LINE_BUF - 1 - |line| else 0;
      }
      line := line + buf[..toCopy];
      rest := buf[eol..];
      complete := line != [] && (line[|line| - 1] == LF || |line| == LINE_BUF - 1);
      if complete {
        ChopLine();
      }
    }

    /** Takes the line end off a complete line. */
    method ChopLine()
      modifies `line
      ensures line == Chop(old(line))
    {
      if line != [] && line[|line| - 1] == LF {
        line := line[..|line| - 1];
        if line != [] && line[|line| - 1] == CR {
          line := line[..|line| - 1];
        }
      }
    }

    method ParseStatusLine(buf: seq<Byte>) returns (rest: seq<Byte>)
      modifies this
      ensures (Value(), rest) == HttpBlocks.ParseStatusLine(old(Value()), buf)
      ensures replies == old(replies)
    {
      hide ParseStatusText, CString, HttpBlocks.GetLine;
      isChunked := false;
      contentLength := UNKNOWN;
      var complete;
      rest, complete := GetLine(buf);
      if !complete {
        return;
      }
      match ParseStatusText(CString(line)) {
        case None =>
          version := 0x10000;
          status := 599;
          hasBody := !isHead;
          state := if isHead then Header else Undefined;
        case Some((major, minor, code)) =>
          version := 0x10000 * major + minor;
          status := code;
          hasBody := !isHead && StatusHasBody(code);
          state := if !isHead && code == 100 then Continue else Header;
      }
      line := [];
    }

    /** The switch of parse_headers on what a header line announces. */
    method HeaderLine()
      modifies `contentLength, `isChunked
      ensures Value() == NoteHeader(old(Value()), CString(line))
    {
      hide StrToUl, CString, SkipSpace;
      var hdr := CString(line);
      if HasPrefix(hdr, CONTENT_LENGTH) {
        contentLength := StrToUl(hdr[15..], 10).value;
      } else if HasPrefix(hdr, TRANSFER_ENCODING) {
        var coding := SkipSpace(hdr[18..]);
        if |coding| == 7 && HasPrefix(coding, CHUNKED) {
          isChunked := true;
        }
      }
    }

    method ParseHeaders(buf: seq<Byte>) returns (rest: seq<Byte>)
      modifies this
      ensures (Value(), rest) == HttpBlocks.ParseHeaders(old(Value()), buf)
      ensures replies == old(replies)
    {
      hide HttpBlocks.GetLine, NoteHeader, CString;
      var complete;
      rest, complete := GetLine(buf);
      ghost var p, b := old(Value()), buf;
      while complete && line != []
        invariant (Value(), rest, complete) == HttpBlocks.GetLine(p, b)
        invariant HttpBlocks.ParseHeaders(old(Value()), buf) == HttpBlocks.ParseHeaders(p, b)
        invariant replies == old(replies)
        decreases |rest|, complete
      {
        HeaderLine();
        headers := headers + [line];
        line := [];
        p, b := Value(), rest;
        rest, complete := GetLine(rest);
      }
      if complete {
        if hasBody {
          if isChunked {
            contentLength := 0;
            state := Chunked;
          } else {
            state := Data;
          }
        } else {
          state := if state == Continue then Header else Done;
        }
      }
    }

    method ParseFooters(buf: seq<Byte>) returns (rest: seq<Byte>)
      modifies this
      ensures (Value(), rest) == HttpBlocks.ParseFooters(old(Value()), buf)
      ensures replies == old(replies)
    {
      hide HttpBlocks.GetLine;
      var complete;
      rest, complete := GetLine(buf);
      ghost var p, b := old(Value()), buf;
      while complete && line != []
        invariant (Value(), rest, complete) == HttpBlocks.GetLine(p, b)
        invariant HttpBlocks.ParseFooters(old(Value()), buf) == HttpBlocks.ParseFooters(p, b)
        invariant replies == old(replies)
        decreases |rest|, complete
      {
        footers := footers + [line];
        line := [];
        p, b := Value(), rest;
        rest, complete := GetLine(rest);
      }
      if complete {
        state := Done;
      }
    }

    method ParseData(buf: seq<Byte>) returns (rest: seq<Byte>, full: bool)
      modifies `body, `contentBytes
      ensures (Value(), rest, full) == HttpBlocks.ParseData(old(Value()), buf)
    {
      var needed := (contentLength - contentBytes) % SIZE;
      var n := |buf|;
      if n > needed {
        n := needed;
      }
      body := body + buf[..n];
      contentBytes := (contentBytes + n) % SIZE;
      rest := buf[n..];
      full := n == needed;
    }

    /** What a complete chunk size line does; again says that it was no size at all. */
    method ChunkLine() returns (again: bool)
      requires state == Chunked
      modifies `line, `state, `contentLength
      ensures Value() == OnChunkLine(old(Value()), old(line))
      ensures again <==> HttpBlocks.BadChunkLine(old(line))
      ensures again ==> state == Chunked
      ensures state == Chunked || state == Footer
    {
      hide StrToUl, CString;
      if line == [] {
        return true;
      }
      var n := StrToUl(CString(line), 16);
      line := [];
      if n.outOfRange || !n.parsed {
        return true;
      }
      if n.value == 0 {
        state := Footer;
      } else {
        contentLength := (contentLength + n.value) % SIZE;
      }
      again := false;
    }

    method XferChunked(buf: seq<Byte>) returns (rest: seq<Byte>)
      requires state == Chunked
      modifies this
      ensures (Value(), rest) == HttpBlocks.XferChunked(old(Value()), buf)
      ensures replies == old(replies)
    {
      hide HttpBlocks.GetLine, HttpBlocks.ParseData, HttpBlocks.BadChunkLine, OnChunkLine;
      rest := buf;
      while rest != []
        invariant state == Chunked
        invariant HttpBlocks.XferChunked(old(Value()), buf) == HttpBlocks.XferChunked(Value(), rest)
        invariant replies == old(replies)
        decreases |rest|
      {
        if contentBytes >= contentLength {
          var complete;
          rest, complete := GetLine(rest);
          if !complete {
            return;
          }
          var again := ChunkLine();
          if again {
            continue;
          }
          if state == Footer {
            return;
          }
        }
        var full;
        rest, full := ParseData(rest);
      }
    }

    method ProcessReplyBytes(buf: seq<Byte>) returns (rest: seq<Byte>)
      modifies this
      ensures (Value(), rest) == HttpBlocks.Process(old(Value()), buf)
      ensures replies == old(replies)
    {
      hide HttpBlocks.ParseStatusLine, HttpBlocks.ParseHeaders, HttpBlocks.ParseFooters, HttpBlocks.ParseData,
        HttpBlocks.XferChunked;
      rest := buf;
      ghost var p, b := old(Value()), buf;
      var again := true;
      while again
        invariant if again then (p, b) == (Value(), rest) && HttpBlocks.Process(old(Value()), buf)
                  == HttpBlocks.Process(p, b)
                  else (Value(), rest) == HttpBlocks.Process(old(Value()), buf)
        invariant replies == old(replies)
        decreases again, |rest|, if Stopped(Value()) then 0 else 1
      {
        match state {
          case Status => rest := ParseStatusLine(rest);
          case Header => rest := ParseHeaders(rest);
          case Continue => rest := ParseHeaders(rest);
          case Footer => rest := ParseFooters(rest);
          case Data =>
            var full;
            rest, full := ParseData(rest);
            if full {
              state := Done;
            }
          case Chunked => rest := XferChunked(rest);
          case _ => return;
        }
        again := rest != [];
        p, b := Value(), rest;
      }
    }

    /** recv_done: the call is complete and the next one takes its place. */
    method RecvDone()
      modifies this
      ensures Conn(Value(), replies) == Complete(Conn(old(Value()), old(replies)), old(Value()))
    {
      replies := replies + [Reply(status, headers, body, footers)];
      state, version, status, contentBytes, headers, footers, body := Status, 0, 0, 0, [], [], [];
    }

    /** The reply-processing loop of do_recv, for one read. */
    method DoRecv(buf: seq<Byte>)
      requires Waiting(Value())
      modifies this
      ensures Conn(Value(), replies) == HttpPipeline.DoRecv(Conn(old(Value()), old(replies)), buf)
    {
      hide HttpBlocks.Process;
      var rest := buf;
      ghost var c, b := Conn(Value(), replies), buf;
      var again := true;
      while again
        invariant if again then c == Conn(Value(), replies) && b == rest && Waiting(Value())
                                && HttpPipeline.DoRecv(Conn(old(Value()), old(replies)), buf)
                                   == HttpPipeline.DoRecv(c, b)
                  else Conn(Value(), replies) == HttpPipeline.DoRecv(Conn(old(Value()), old(replies)), buf)
        decreases again, |rest|
      {
        rest := ProcessReplyBytes(rest);
        if contentLength == 0 && rest == [] {
          state := Done;
        }
        again := rest != [] && state == Done;
        if state == Done {
          RecvDone();
        }
        c, b := Conn(Value(), replies), rest;
      }
    }
  }

  /** A connection that reads pipelined replies: whatever the reads, each call gets its own reply. */
  method ReadReplies(ghost ms: seq<Message>, frags: seq<seq<Byte>>) returns (r: Reader)
    requires forall i :: 0 <= i < |ms| ==> FineMessage(ms[i], false)
    requires Concat(frags) == Texts(ms) && forall i :: 0 <= i < |frags| ==> frags[i] != []
    ensures r.replies == Expected(ms) && Fresh(r.Value())
  {
    hide FineMessage, HttpPipeline.DoRecv;
    r := new Reader(false);
    ghost var c := Conn(r.Value(), []);
    PipelinedReplies(c, ms, frags);
    var k := 0;
    assert frags[0..] == frags;
    while k < |frags| && Waiting(r.Value())
      invariant 0 <= k <= |frags| && fresh(r) && r.isHead == false
      invariant Waiting(r.Value()) ==> DoRecvAll(c, frags) == DoRecvAll(Conn(r.Value(), r.replies), frags[k..])
      invariant !Waiting(r.Value()) ==> DoRecvAll(c, frags) == Conn(r.Value(), r.replies)
    {
      assert frags[k..][1..] == frags[k + 1..];
      r.DoRecv(frags[k]);
      k := k + 1;
    }
    assert [] + Expected(ms) == Expected(ms);
  }
}
