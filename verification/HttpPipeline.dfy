/**
 Pipelined replies: do_recv (core.c) hands the replies found in a read to the queued
 calls, one after the other. It takes a shortcut when the announced length is zero and
 the read is used up; this module says exactly when that shortcut is right.
 */
module HttpPipeline {
  import opened Sequences
  import opened HttpParser
  import opened HttpBlocks
  import opened HttpChunked

  /** What a completed call has received. */
  datatype Reply = Reply(status: nat, headers: seq<seq<Byte>>, body: seq<Byte>, footers: seq<seq<Byte>>)

  function ReplyOf(p: Parser): Reply { Reply(p.status, p.headers, p.body, p.footers) }

  /** The connection's parser, about to receive for the next queued call; the line buffer is left as it is. */
  function NextCall(p: Parser): Parser {
    p.(state := Status, version := 0, status := 0, contentBytes := 0, headers := [], footers := [],
       body := [])
  }

  /** The parser and the replies completed so far. */
  datatype Conn = Conn(parser: Parser, replies: seq<Reply>)

  function Complete(c: Conn, p: Parser): Conn {
    Conn(NextCall(p), c.replies + [ReplyOf(p)])
  }

  /** The parser can take bytes for the call at the head of the queue. */
  predicate Waiting(p: Parser) { p.state != Done && !Exhausted(p) }

  /**
   What is to be received: the stream is split into replies wherever the reference parser
   finds one complete. An empty body needs no further byte to be complete.
   */
  function Receive(c: Conn, bytes: seq<Byte>): (d: Conn)
    requires Waiting(c.parser)
    ensures Waiting(d.parser)
    decreases |bytes|
  {
    if bytes == [] then c else
    var (q, rest) := Feed(c.parser, bytes);
    if q.state == Done then Receive(Complete(c, q), rest)
    else if Exhausted(q) then Complete(c, q)
    else Conn(q, c.replies)
  }

  /** The loop of do_recv over one read. */
  function DoRecv(c: Conn, buf: seq<Byte>): Conn
    requires Waiting(c.parser)
    decreases |buf|
  {
    var (p, rest) := Process(c.parser, buf);
    var q := if p.contentLength == 0 && rest == [] then p.(state := Done) else p;
    var d := if q.state == Done then Complete(c, q) else Conn(q, c.replies);
    if rest != [] && q.state == Done then DoRecv(d, rest) else d
  }

  /** Every reply in the stream is clean. */
  predicate CleanStream(c: Conn, bytes: seq<Byte>)
    requires Waiting(c.parser)
    decreases |bytes|
  {
    bytes == [] ||
    (Clean(c.parser, bytes) &&
     var (q, rest) := Feed(c.parser, bytes);
     q.state == Done ==> CleanStream(Complete(c, q), rest))
  }

  /** A reply is under way, and the length announced for its body so far is zero. */
  predicate ZeroStop(p: Parser) {
    p.state in {Header, Continue, Chunked, Footer} && p.contentLength == 0
  }

  lemma FreshIsWellFormed(p: Parser)
    requires WellFormed(p) && (p.state == Done || Exhausted(p))
    ensures WellFormed(NextCall(p)) && Waiting(NextCall(p)) && !ZeroStop(NextCall(p))
  {
  }

  /** A parser that took bytes and is well-formed has an unknown length until the status line is complete. */
  lemma {:induction false} StatusLineGrows(p: Parser, bytes: seq<Byte>)
    requires bytes != [] && !Stopped(p) && !Exhausted(p)
    ensures Feed(p, bytes).0.state == Status ==> Feed(p, bytes).0.line != []
    decreases |bytes|
  {
    hide ParseStatusText, NoteHeader, CString, StrToUl, Chop;
    var q := Step(p, bytes[0]);
    NoteHeaderKeepsState(p, CString(Chop(p.line + [bytes[0]])));
    if bytes[1..] != [] && !Stopped(q) && !Exhausted(q) {
      StatusLineGrows(q, bytes[1..]);
    }
  }

  /**
   The shortcut of do_recv is right for a read exactly when the read does not end in the middle
   of a reply whose announced length is zero so far (a chunked reply before its first chunk,
   or a header block after Content-Length: 0).
   */
  lemma {:induction false} DoRecvExact(c: Conn, buf: seq<Byte>)
    requires WellFormed(c.parser) && Waiting(c.parser) && CleanStream(c, buf) && buf != []
    ensures DoRecv(c, buf) == Receive(c, buf) <==> !ZeroStop(Receive(c, buf).parser)
    decreases |buf|
  {
    hide Clean, WellFormed, Process, Feed, Step;
    ProcessIsFeed(c.parser, buf);
    var (q, rest) := Feed(c.parser, buf);
    assert buf + [] == buf;
    CleanSplit(c.parser, buf, []);
    if rest != [] {
      if q.state == Done {
        FreshIsWellFormed(q);
        DoRecvExact(Complete(c, q), rest);
      }
    } else if q.state == Done {
      FreshIsWellFormed(q);
    } else {
      if c.parser.state != Undefined {
        StatusLineGrows(c.parser, buf);
      }
      Lengths(q);
    }
  }

  lemma Lengths(p: Parser)
    requires WellFormed(p)
    ensures Exhausted(p) ==> p.contentLength == 0
    ensures p.state == Undefined || (p.state == Status && p.line != []) ==> p.contentLength == UNKNOWN
    ensures p.state == Data && p.contentLength == 0 ==> Exhausted(p)
  {
  }

  /** Receiving does not depend on how the stream is cut. */
  lemma {:induction false} ReceiveSplit(c: Conn, a: seq<Byte>, b: seq<Byte>)
    requires Waiting(c.parser) && b != []
    ensures Receive(c, a + b) == Receive(Receive(c, a), b)
    decreases |a|
  {
    hide Feed;
    if a == [] {
      assert a + b == b;
    } else {
      FeedSplit(c.parser, a, b);
      var (q, rest) := Feed(c.parser, a);
      if q.state == Done {
        ReceiveSplit(Complete(c, q), rest, b);
      } else if Exhausted(q) {
        FeedExhausted(q, b);
      }
    }
  }

  lemma FeedExhausted(q: Parser, b: seq<Byte>)
    requires Exhausted(q) && b != []
    ensures Feed(q, b) == (q.(state := Done), b)
  {
  }

  // ---- messages with a Content-Length ----

  /** Reads handled one after the other. */
  function DoRecvAll(c: Conn, frags: seq<seq<Byte>>): Conn
    requires Waiting(c.parser)
    decreases |frags|
  {
    if frags == [] then c
    else
      var d := DoRecv(c, frags[0]);
      if Waiting(d.parser) then DoRecvAll(d, frags[1..]) else d
  }

  /** No point of the stream is one where the shortcut of do_recv would be wrong. */
  predicate NeverZero(p: Parser, bytes: seq<Byte>)
    decreases |bytes|
  {
    && !ZeroStop(p)
    && (bytes == [] || Stopped(p) || Exhausted(p) || NeverZero(Step(p, bytes[0]), bytes[1..]))
  }

  predicate NeverZeroStream(c: Conn, bytes: seq<Byte>)
    requires Waiting(c.parser)
    decreases |bytes|
  {
    bytes == [] ||
    (NeverZero(c.parser, bytes) &&
     var (q, rest) := Feed(c.parser, bytes);
     q.state == Done ==> NeverZeroStream(Complete(c, q), rest))
  }

  lemma {:induction false} NeverZeroSplit(p: Parser, a: seq<Byte>, b: seq<Byte>)
    requires NeverZero(p, a + b)
    ensures NeverZero(p, a) && NeverZero(Feed(p, a).0, b)
    decreases |a|
  {
    hide Step;
    if a == [] {
      assert a + b == b;
    } else if !Stopped(p) && !Exhausted(p) {
      assert (a + b)[0] == a[0] && (a + b)[1..] == a[1..] + b;
      NeverZeroSplit(Step(p, a[0]), a[1..], b);
    }
  }

  /** What comes after the first read of a clean stream is clean, and so is the read. */
  lemma {:induction false} CleanStreamSplit(c: Conn, a: seq<Byte>, b: seq<Byte>)
    requires Waiting(c.parser) && WellFormed(c.parser) && a != [] && CleanStream(c, a + b)
    ensures CleanStream(c, a) && WellFormed(Receive(c, a).parser) && CleanStream(Receive(c, a), b)
    decreases |a|
  {
    hide Feed, Clean, WellFormed, Step;
    var p := c.parser;
    CleanSplit(p, a, b);
    var (q, rest) := Feed(p, a);
    if b == [] {
      assert a + b == a && rest + b == rest;
    } else {
      FeedSplit(p, a, b);
    }
    assert (a + b)[0] == a[0];
    assert Stopped(q) ==> Feed(p, a + b) == (q, rest + b);
    if q.state == Done {
      FreshIsWellFormed(q);
      if rest != [] {
        CleanStreamSplit(Complete(c, q), rest, b);
      } else {
        assert rest + b == b;
      }
    } else if Exhausted(q) {
      FreshIsWellFormed(q);
      if b != [] {
        FeedExhausted(q, b);
      }
    }
  }

  /** The same for a stream without points where the shortcut of do_recv would be wrong. */
  lemma {:induction false} StreamSplit(c: Conn, a: seq<Byte>, b: seq<Byte>)
    requires Waiting(c.parser) && WellFormed(c.parser) && a != []
    requires CleanStream(c, a + b) && NeverZeroStream(c, a + b)
    ensures CleanStream(c, a) && !ZeroStop(Receive(c, a).parser)
    ensures WellFormed(Receive(c, a).parser)
    ensures CleanStream(Receive(c, a), b) && NeverZeroStream(Receive(c, a), b)
    decreases |a|
  {
    hide Feed, Clean, NeverZero, WellFormed, ZeroStop, Step;
    var p := c.parser;
    CleanStreamSplit(c, a, b);
    CleanSplit(p, a, b);
    NeverZeroSplit(p, a, b);
    var (q, rest) := Feed(p, a);
    if b == [] {
      assert a + b == a && rest + b == rest;
    } else {
      FeedSplit(p, a, b);
    }
    assert (a + b)[0] == a[0];
    assert Stopped(q) ==> Feed(p, a + b) == (q, rest + b);
    NeverZeroHere(p, a);
    if q.state == Done {
      FreshIsWellFormed(q);
      if rest != [] {
        StreamSplit(Complete(c, q), rest, b);
      } else {
        assert rest + b == b;
      }
    } else if Exhausted(q) {
      FreshIsWellFormed(q);
      if b != [] {
        FeedExhausted(q, b);
      }
    }
  }

  lemma {:induction false} NeverZeroHere(p: Parser, a: seq<Byte>)
    requires NeverZero(p, a)
    ensures !ZeroStop(Feed(p, a).0)
    decreases |a|
  {
    if a != [] && !Stopped(p) && !Exhausted(p) {
      NeverZeroHere(Step(p, a[0]), a[1..]);
    }
  }

  /** On a stream without such points, do_recv over any reads receives what is to be received. */
  lemma {:induction false} ReadsReceive(c: Conn, frags: seq<seq<Byte>>)
    requires Waiting(c.parser) && WellFormed(c.parser)
    requires CleanStream(c, Concat(frags)) && NeverZeroStream(c, Concat(frags))
    requires forall i :: 0 <= i < |frags| ==> frags[i] != []
    ensures DoRecvAll(c, frags) == Receive(c, Concat(frags))
    decreases |frags|
  {
    hide DoRecv, Receive, CleanStream, NeverZeroStream, WellFormed, ZeroStop;
    if frags == [] {
      assert Receive(c, []) == c by { ReceiveNothing(c); }
    } else {
      var a, b := frags[0], Concat(frags[1..]);
      StreamSplit(c, a, b);
      DoRecvExact(c, a);
      var d := Receive(c, a);
      ReadsReceive(d, frags[1..]);
      if b == [] {
        assert a + b == a;
        ReceiveNothing(d);
      } else {
        ReceiveSplit(c, a, b);
      }
    }
  }

  /** content_bytes does not exceed content_length. */
  predicate CountedWithin(p: Parser) { p.state in {Data, Chunked} ==> p.contentBytes <= p.contentLength }

  /** After each of the reads, no more body bytes have been counted than were announced. */
  lemma {:induction false} WithinLength(c: Conn, frags: seq<seq<Byte>>, k: nat)
    requires Waiting(c.parser) && WellFormed(c.parser) && k <= |frags|
    requires CleanStream(c, Concat(frags)) && NeverZeroStream(c, Concat(frags))
    requires forall i :: 0 <= i < |frags| ==> frags[i] != []
    ensures var p := DoRecvAll(c, frags[..k]).parser;
            WellFormed(p) && CountedWithin(p)
    decreases |frags|
  {
    hide DoRecv, Receive, CleanStream, NeverZeroStream, ZeroStop;
    if k == 0 {
      assert frags[..0] == [];
    } else {
      var a, b := frags[0], Concat(frags[1..]);
      StreamSplit(c, a, b);
      DoRecvExact(c, a);
      WithinLength(Receive(c, a), frags[1..], k - 1);
      assert frags[..k][0] == a && frags[..k][1..] == frags[1..][..k - 1];
    }
  }

  /** What the connection is after the first k reads, and what it should be. */
  ghost predicate RightAfter(c: Conn, frags: seq<seq<Byte>>, k: nat)
    requires Waiting(c.parser) && k <= |frags|
  {
    DoRecvAll(c, frags[..k]) == Receive(c, Concat(frags[..k]))
  }

  /** The first k reads end inside a reply whose announced length is zero so far. */
  ghost predicate ZeroAfter(c: Conn, frags: seq<seq<Byte>>, k: nat)
    requires Waiting(c.parser) && k <= |frags|
  {
    ZeroStop(Receive(c, Concat(frags[..k])).parser)
  }

  lemma {:induction false} ConcatSplit(frags: seq<seq<Byte>>, k: nat)
    requires k <= |frags|
    ensures Concat(frags) == Concat(frags[..k]) + Concat(frags[k..])
  {
    if k == 0 {
      assert frags[0..] == frags;
    } else {
      ConcatSplit(frags[1..], k - 1);
      assert frags[..k][1..] == frags[1..][..k - 1] && frags[k..] == frags[1..][k - 1..];
    }
  }

  lemma ConcatOneMore(frags: seq<seq<Byte>>, k: nat)
    requires k < |frags|
    ensures Concat(frags[..k + 1]) == Concat(frags[..k]) + frags[k]
    ensures Concat(frags[k..]) == frags[k] + Concat(frags[k + 1..])
  {
    ConcatSplit(frags[..k + 1], k);
    assert frags[..k + 1][..k] == frags[..k] && frags[..k + 1][k..] == [frags[k]];
    assert Concat([frags[k]]) == frags[k] + Concat([frags[k]][1..]);
    assert frags[k..][1..] == frags[k + 1..];
  }

  lemma {:induction false} OneMoreRead(c: Conn, frags: seq<seq<Byte>>, k: nat)
    requires Waiting(c.parser) && k < |frags|
    ensures var d := DoRecvAll(c, frags[..k]);
            Waiting(d.parser) ==> DoRecvAll(c, frags[..k + 1]) == DoRecv(d, frags[k])
    decreases k
  {
    hide DoRecv;
    if k == 0 {
      assert frags[..1] == [frags[0]];
    } else {
      var d := DoRecv(c, frags[0]);
      assert frags[..k][1..] == frags[1..][..k - 1] && frags[..k + 1][1..] == frags[1..][..k];
      if Waiting(d.parser) {
        OneMoreRead(d, frags[1..], k - 1);
      }
    }
  }

  /** What is right stays right with one more read exactly when that does not end at an announced length of zero. */
  lemma RightOnceMore(c: Conn, frags: seq<seq<Byte>>, k: nat)
    requires Waiting(c.parser) && WellFormed(c.parser) && CleanStream(c, Concat(frags)) && k < |frags|
    requires forall i :: 0 <= i < |frags| ==> frags[i] != []
    requires RightAfter(c, frags, k)
    ensures RightAfter(c, frags, k + 1) <==> !ZeroAfter(c, frags, k + 1)
  {
    hide DoRecv, DoRecvAll, Receive, CleanStream, WellFormed, ZeroStop, Concat;
    var before, read, later := Concat(frags[..k]), frags[k], Concat(frags[k + 1..]);
    var d := Receive(c, before);
    ConcatSplit(frags, k);
    ConcatOneMore(frags, k);
    if before == [] {
      ReceiveNothing(c);
      assert before + (read + later) == read + later && before + read == read;
    } else {
      CleanStreamSplit(c, before, read + later);
      ReceiveSplit(c, before, read);
    }
    CleanStreamSplit(d, read, later);
    OneMoreRead(c, frags, k);
    DoRecvExact(d, read);
  }

  /**
   For any reads of a clean stream: do_recv gives the queued calls what is theirs after every read
   if and only if no read ends inside a reply whose announced length is zero so far.
   */
  lemma {:induction false} ReadsExact(c: Conn, frags: seq<seq<Byte>>, n: nat)
    requires Waiting(c.parser) && WellFormed(c.parser) && CleanStream(c, Concat(frags)) && n <= |frags|
    requires forall i :: 0 <= i < |frags| ==> frags[i] != []
    ensures (forall k :: 0 <= k <= n ==> RightAfter(c, frags, k)) <==>
            (forall k :: 0 < k <= n ==> !ZeroAfter(c, frags, k))
  {
    hide CleanStream, WellFormed, RightAfter, ZeroAfter, Concat;
    if n == 0 {
      assert RightAfter(c, frags, 0) by { NothingRead(c, frags); }
    } else {
      ReadsExact(c, frags, n - 1);
      if RightAfter(c, frags, n - 1) {
        RightOnceMore(c, frags, n - 1);
      }
    }
  }

  lemma NothingRead(c: Conn, frags: seq<seq<Byte>>)
    requires Waiting(c.parser)
    ensures RightAfter(c, frags, 0)
  {
    assert frags[..0] == [];
  }

  const ZERO_LENGTH: seq<Byte> := CONTENT_LENGTH + [48]

  /**
   Where it goes wrong: a read that ends behind the header content-length:0 completes the reply at
   once, although its header block is still open.
   */
  lemma CompletedTooEarly(c: Conn, line: seq<Byte>)
    requires Fresh(c.parser) && FineText(line) && ParseStatusText(line).Some?
    ensures var buf := line + CRLF + (ZERO_LENGTH + CRLF);
            && CleanStream(c, buf) && ZeroStop(Receive(c, buf).parser) && Receive(c, buf).replies == c.replies
            && DoRecv(c, buf).replies == c.replies + [Reply(ParseStatusText(line).value.2, [ZERO_LENGTH], [], [])]
  {
    var buf := line + CRLF + (ZERO_LENGTH + CRLF);
    var b := HeaderOpen(c.parser, line);
    ProcessIsFeed(c.parser, buf);
    hide Feed, Clean, Process, ParseStatusText, FineText;
    assert buf != [];
    hide Fresh;
  }

  lemma HeaderOpen(p: Parser, line: seq<Byte>) returns (b: Parser)
    requires Fresh(p) && FineText(line) && ParseStatusText(line).Some?
    ensures var buf := line + CRLF + (ZERO_LENGTH + CRLF);
            && Feed(p, buf) == (b, []) && Clean(p, buf) && WellFormed(p)
            && b.state in {Header, Continue} && b.contentLength == 0
            && ReplyOf(b) == Reply(ParseStatusText(line).value.2, [ZERO_LENGTH], [], [])
  {
    var a := StatusRead(p, line);
    b := OnLine(a, ZERO_LENGTH);
    ZeroLengthNoted(a);
    FeedCrlfLine(p, line, ZERO_LENGTH + CRLF);
    assert ZERO_LENGTH + CRLF + [] == ZERO_LENGTH + CRLF;
    FeedCrlfLine(a, ZERO_LENGTH, []);
    hide OnLine, ParseStatusText, FineText;
    assert Clean(b, []) && Feed(b, []) == (b, []);
    hide Feed, Clean;
  }

  lemma StatusRead(p: Parser, line: seq<Byte>) returns (a: Parser)
    requires Fresh(p) && FineText(line) && ParseStatusText(line).Some?
    ensures a == OnLine(p, line) && InLine(p) && p.state != Chunked
    ensures a.state in {Header, Continue} && a.line == [] && a.headers == [] && a.body == [] && a.footers == []
    ensures a.status == ParseStatusText(line).value.2
  {
    NoNul(line);
    a := OnLine(p, line);
    hide ParseStatusText, FineText;
  }

  lemma ZeroLengthNoted(a: Parser)
    requires a.state in {Header, Continue} && a.line == []
    ensures FineText(ZERO_LENGTH)
    ensures OnLine(a, ZERO_LENGTH) == a.(contentLength := 0, headers := a.headers + [ZERO_LENGTH])
  {
    ZeroLengthText();
    ZeroIsRead();
    NoNul(ZERO_LENGTH);
    hide StrToUl, HasPrefix, FineText, CString, SkipSpace;
  }

  lemma ZeroLengthText()
    ensures FineText(ZERO_LENGTH) && HasPrefix(ZERO_LENGTH, CONTENT_LENGTH) && ZERO_LENGTH[15..] == [48]
            && ZERO_LENGTH != []
  {
  }

  lemma ZeroIsRead()
    ensures StrToUl([48], 10).value == 0
  {
    assert ReadDigits([48], 10, 0) == Digits(0, 1, []) by { assert [48][1..] == []; }
  }

  lemma ReceiveNothing(c: Conn)
    requires Waiting(c.parser)
    ensures Receive(c, []) == c
  {
  }

  /** A reply whose body length is announced by Content-Length. */
  datatype Message = Message(statusLine: seq<Byte>, headers: seq<seq<Byte>>, body: seq<Byte>)

  function Text(m: Message): seq<Byte> {
    m.statusLine + CRLF + (EncodeLines(m.headers) + CRLF + m.body)
  }

  function Texts(ms: seq<Message>): seq<Byte> {
    if ms == [] then [] else Text(ms[0]) + Texts(ms[1..])
  }

  /** What the header lines make of the length and the transfer coding. */
  function NoteHeaders(p: Parser, headers: seq<seq<Byte>>): (q: Parser)
    ensures q.state == p.state && q.line == p.line && q.hasBody == p.hasBody && q.contentBytes == p.contentBytes
    ensures q == p.(contentLength := q.contentLength, isChunked := q.isChunked)
    decreases |headers|
  {
    if headers == [] then p
    else NoteHeaders(NoteHeader(p, headers[0]), headers[1..])
  }

  /** No header announces an empty body. */
  predicate PositiveLengths(headers: seq<seq<Byte>>) {
    forall i :: 0 <= i < |headers| && HasPrefix(headers[i], CONTENT_LENGTH) ==> StrToUl(headers[i][15..], 10).value != 0
  }

  /** The status line allows a body, the headers announce exactly the body that follows, which is not empty. */
  ghost predicate FineMessage(m: Message, isHead: bool) {
    && FineText(m.statusLine) && !isHead
    && (match ParseStatusText(m.statusLine)
        case None => false
        case Some((_, _, status)) => StatusHasBody(status))
    && (forall i :: 0 <= i < |m.headers| ==> m.headers[i] != [] && FineText(m.headers[i]))
    && PositiveLengths(m.headers)
    && 0 < |m.body| < SIZE
    && NoteHeaders(BLANK, m.headers).contentLength == |m.body|
    && !NoteHeaders(BLANK, m.headers).isChunked
  }

  /** Nothing known about the body yet. */
  const BLANK := Parser(Header, [], true, false, UNKNOWN, false, 0, 0, 0, [], [], [])

  function StatusOf(m: Message): nat {
    match ParseStatusText(m.statusLine)
    case None => 599
    case Some((_, _, status)) => status
  }

  /** What the call that sent the matching request must end up with. */
  function Expected(ms: seq<Message>): seq<Reply> {
    if ms == [] then []
    else [Reply(StatusOf(ms[0]), ms[0].headers, ms[0].body, [])] + Expected(ms[1..])
  }

  /** Reaches, and without a point where the shortcut would be wrong if there is none from there on. */
  ghost predicate SafelyReaches(p: Parser, bytes: seq<Byte>, q: Parser, rest: seq<Byte>) {
    Reaches(p, bytes, q, rest) && (NeverZero(q, rest) ==> NeverZero(p, bytes))
  }

  lemma {:induction false} LineNeverZero(p: Parser, text: seq<Byte>, rest: seq<Byte>)
    requires InLine(p) && text != [] && !ZeroStop(p)
    requires text[|text| - 1] == LF && LF !in text[..|text| - 1]
    ensures NeverZero(OnLine(p, Chop(p.line + text)), rest) ==> NeverZero(p, text + rest)
    decreases |text|
  {
    hide OnLine, Chop;
    var b, bytes := text[0], text + rest;
    assert bytes[0] == b && bytes[1..] == text[1..] + rest;
    if |text| == 1 {
      assert text == [b] && p.line + [b] == p.line + text && text[1..] + rest == rest;
    } else {
      assert b == text[..|text| - 1][0] != LF;
      var q := Step(p, b);
      assert text[1..][..|text| - 2] == text[..|text| - 1][1..];
      assert q.line + text[1..] == p.line + text;
      OnLineIgnores(p, q.line, Chop(p.line + text));
      LineNeverZero(q, text[1..], rest);
    }
  }

  lemma SafeLine(p: Parser, line: seq<Byte>, rest: seq<Byte>)
    requires InLine(p) && p.line == [] && FineText(line) && p.state != Chunked && !ZeroStop(p)
    ensures SafelyReaches(p, line + CRLF + rest, OnLine(p, line), rest)
  {
    hide OnLine, NeverZero, Feed, Clean;
    FeedCrlfLine(p, line, rest);
    var text := line + CRLF;
    assert text[..|text| - 1] == line + [CR];
    assert Chop(p.line + text) == line by {
      assert p.line + text == text && text[..|text| - 2] == line;
    }
    LineNeverZero(p, text, rest);
  }

  lemma SafelyTrans(p: Parser, a: seq<Byte>, q: Parser, b: seq<Byte>, r: Parser, c: seq<Byte>)
    requires SafelyReaches(p, a, q, b) && SafelyReaches(q, b, r, c)
    ensures SafelyReaches(p, a, r, c)
  {
    hide NeverZero, Feed, Clean;
  }

  lemma {:induction false} SafeHeaders(p: Parser, headers: seq<seq<Byte>>, rest: seq<Byte>)
    requires p.state == Header && p.line == [] && p.contentLength != 0 && PositiveLengths(headers)
    requires forall i :: 0 <= i < |headers| ==> headers[i] != [] && FineText(headers[i])
    ensures var q := NoteHeaders(p, headers).(headers := p.headers + headers);
            q.contentLength != 0 && SafelyReaches(p, EncodeLines(headers) + rest, q, rest)
    decreases |headers|
  {
    hide SafelyReaches, HasPrefix, StrToUl, FineText;
    if headers == [] {
      assert EncodeLines(headers) + rest == rest;
      assert p.headers + headers == p.headers;
      SafelySelf(p, rest);
    } else {
      var h, more := headers[0], EncodeLines(headers[1..]) + rest;
      assert EncodeLines(headers) + rest == h + CRLF + more;
      SafeLine(p, h, more);
      assert CString(h) == h by { FineIsText(h); NoNul(h); }
      var q := NoteHeader(p, h).(headers := p.headers + [h]);
      assert q == OnLine(p, h);
      SafeHeaders(q, headers[1..], rest);
      NoteHeadersIgnoreHeaders(NoteHeader(p, h), p.headers + [h], headers[1..]);
      assert p.headers + [h] + headers[1..] == p.headers + headers;
      SafelyTrans(p, EncodeLines(headers) + rest, q, more,
                  NoteHeaders(p, headers).(headers := p.headers + headers), rest);
    }
  }

  lemma SafelySelf(p: Parser, rest: seq<Byte>)
    ensures SafelyReaches(p, rest, p, rest)
  {
  }

  lemma FineIsText(line: seq<Byte>)
    requires FineText(line)
    ensures 0 !in line
  {
  }

  lemma {:induction false} NoteHeadersIgnoreHeaders(p: Parser, hs: seq<seq<Byte>>, headers: seq<seq<Byte>>)
    ensures NoteHeaders(p.(headers := hs), headers) == NoteHeaders(p, headers).(headers := hs)
    decreases |headers|
  {
    hide HasPrefix, StrToUl;
    if headers != [] {
      assert NoteHeader(p.(headers := hs), headers[0]) == NoteHeader(p, headers[0]).(headers := hs);
      NoteHeadersIgnoreHeaders(NoteHeader(p, headers[0]), hs, headers[1..]);
    }
  }

  lemma {:induction false} NoteHeadersSame(p: Parser, q: Parser, headers: seq<seq<Byte>>)
    requires p.contentLength == q.contentLength && p.isChunked == q.isChunked
    ensures NoteHeaders(p, headers).contentLength == NoteHeaders(q, headers).contentLength
    ensures NoteHeaders(p, headers).isChunked == NoteHeaders(q, headers).isChunked
    decreases |headers|
  {
    hide HasPrefix, StrToUl;
    if headers != [] {
      NoteHeadersSame(NoteHeader(p, headers[0]), NoteHeader(q, headers[0]), headers[1..]);
    }
  }

  lemma {:induction false} BodyNeverZero(p: Parser, data: seq<Byte>, rest: seq<Byte>)
    requires p.state == Data && data != [] && p.contentBytes + |data| == p.contentLength
    ensures NeverZero(p, data + rest)
    decreases |data|
  {
    hide OnLine, Chop;
    var b, bytes := data[0], data + rest;
    assert bytes[0] == b && bytes[1..] == data[1..] + rest;
    StepIsConsume(p, b);
    if |data| > 1 {
      BodyNeverZero(Step(p, b), data[1..], rest);
    }
  }

  /** The parser is about to receive the first byte of a reply. */
  predicate Fresh(p: Parser) {
    p.state == Status && p.line == [] && p == NextCall(p)
  }

  /** One whole message takes a fresh parser to completion, with nothing but that message delivered. */
  lemma FeedMessage(p: Parser, m: Message, rest: seq<Byte>) returns (q: Parser)
    requires Fresh(p) && FineMessage(m, p.isHead)
    ensures q.state == Done && q.line == [] && q.isHead == p.isHead
    ensures ReplyOf(q) == Reply(StatusOf(m), m.headers, m.body, [])
    ensures SafelyReaches(p, Text(m) + rest, q, rest)
  {
    hide SafelyReaches, NoteHeader, ParseStatusText, FineText, Text;
    var tail := EncodeLines(m.headers) + (CRLF + (m.body + rest));
    assert Text(m) + rest == m.statusLine + CRLF + tail by { TextParts(m, rest); }
    FineIsText(m.statusLine);
    NoNul(m.statusLine);
    SafeLine(p, m.statusLine, tail);
    var a := OnLine(p, m.statusLine);
    assert a.state == Header && a.hasBody && a.contentLength == UNKNOWN && !a.isChunked && a.status == StatusOf(m);
    SafeHeaders(a, m.headers, CRLF + (m.body + rest));
    NoteHeadersSame(a, BLANK, m.headers);
    var b := NoteHeaders(a, m.headers).(headers := [] + m.headers);
    FineEmpty();
    SafeLine(b, [], m.body + rest);
    assert [] + CRLF + (m.body + rest) == CRLF + (m.body + rest);
    var c := OnLine(b, []);
    assert c == b.(state := Data);
    q := Consume(c, m.body);
    SafeBody(c, m.body, rest);
    SafelyTrans(b, CRLF + (m.body + rest), c, m.body + rest, q, rest);
    SafelyTrans(a, tail, b, CRLF + (m.body + rest), q, rest);
    SafelyTrans(p, m.statusLine + CRLF + tail, a, tail, q, rest);
  }

  lemma TextParts(m: Message, rest: seq<Byte>)
    ensures Text(m) + rest == m.statusLine + CRLF + (EncodeLines(m.headers) + (CRLF + (m.body + rest)))
  {
  }

  lemma SafeBody(p: Parser, data: seq<Byte>, rest: seq<Byte>)
    requires p.state == Data && data != [] && p.contentBytes == 0 && p.contentLength == |data|
    ensures SafelyReaches(p, data + rest, Consume(p, data), rest)
  {
    FeedPayload(p, data, rest);
    BodyNeverZero(p, data, rest);
  }

  /** The stream of several messages, received at once, is exactly those messages. */
  lemma {:induction false} ReceiveMessages(c: Conn, ms: seq<Message>)
    requires Fresh(c.parser) && forall i :: 0 <= i < |ms| ==> FineMessage(ms[i], c.parser.isHead)
    ensures CleanStream(c, Texts(ms)) && NeverZeroStream(c, Texts(ms))
    ensures Receive(c, Texts(ms)).replies == c.replies + Expected(ms)
    ensures Fresh(Receive(c, Texts(ms)).parser)
    decreases |ms|
  {
    hide FineMessage, Text, Feed, Clean, NeverZero;
    if ms == [] {
      assert c.replies + Expected(ms) == c.replies;
    } else {
      var rest := Texts(ms[1..]);
      var q := FeedMessage(c.parser, ms[0], rest);
      FeedStopped(q, rest);
      TextNotEmpty(ms[0]);
      ReceiveMessages(Complete(c, q), ms[1..]);
      assert c.replies + [ReplyOf(q)] + Expected(ms[1..]) == c.replies + Expected(ms);
    }
  }

  lemma FeedStopped(q: Parser, rest: seq<Byte>)
    requires q.state == Done
    ensures Feed(q, rest) == (q, rest) && Clean(q, rest) && NeverZero(q, rest)
  {
  }

  lemma TextNotEmpty(m: Message)
    ensures Text(m) != []
  {
    assert |Text(m)| >= 4;
  }

  /**
   Pipelined reply matching: for any sequence of such messages, cut into reads in any way,
   the k-th queued call receives exactly the status, headers and body of the k-th message.
   */
  lemma PipelinedReplies(c: Conn, ms: seq<Message>, frags: seq<seq<Byte>>)
    requires Fresh(c.parser) && forall i :: 0 <= i < |ms| ==> FineMessage(ms[i], c.parser.isHead)
    requires Concat(frags) == Texts(ms) && forall i :: 0 <= i < |frags| ==> frags[i] != []
    ensures DoRecvAll(c, frags).replies == c.replies + Expected(ms)
    ensures Fresh(DoRecvAll(c, frags).parser)
    ensures forall k :: 0 <= k <= |frags| ==> CountedWithin(DoRecvAll(c, frags[..k]).parser)
  {
    hide FineMessage, CleanStream, NeverZeroStream, Receive, DoRecv, DoRecvAll;
    ReceiveMessages(c, ms);
    ReadsReceive(c, frags);
    forall k | 0 <= k <= |frags| ensures CountedWithin(DoRecvAll(c, frags[..k]).parser) {
      WithinLength(c, frags, k);
    }
  }
}
