/**
 The HTTP reply parser (http.c) one byte at a time: the reference against which the
 block-wise parser is proved. Feeding is a fold, so it does not depend on how the
 stream is cut.
 */
module HttpParser {
  import opened Sequences
  import opened Wrappers

  const LF: Byte := 10
  const CR: Byte := 13

  const LINE_BUF := 1024                      // sizeof (line_buf)
  const SIZE := 0x1_0000_0000_0000_0000       // values of a size_t
  type SizeT = n: int | 0 <= n < SIZE

  const UNKNOWN: SizeT := SIZE - 1            // "infinite" content length

  /** Undefined: the status line did not parse, and for want of a HEAD the C code reads an unset variable. */
  datatype State = Status | Header | Continue | Data | Chunked | Footer | Done | Undefined

  /**
   The connection's and the call's parsing state, together with everything that has been
   handed to the event handlers: the header lines, the footer lines and the body.
   */
  datatype Parser = Parser(
    state: State,
    line: seq<Byte>,
    hasBody: bool,
    isChunked: bool,
    contentLength: SizeT,
    isHead: bool,
    version: nat,
    status: nat,
    contentBytes: SizeT,
    headers: seq<seq<Byte>>,
    footers: seq<seq<Byte>>,
    body: seq<Byte>)

  // ---- C library text functions ----

  predicate IsSpace(b: Byte) { b == 32 || 9 <= b <= 13 }

  function ToLower(b: Byte): Byte { if 65 <= b <= 90 then b + 32 else b }

  /** The bytes of a buffer up to its first NUL. */
  function CString(s: seq<Byte>): (r: seq<Byte>)
    ensures r <= s
  {
    if s == [] || s[0] == 0 then [] else [s[0]] + CString(s[1..])
  }

  /** strncasecmp (s, prefix, |prefix|) == 0, for a lower-case prefix without NUL. */
  predicate HasPrefix(s: seq<Byte>, prefix: seq<Byte>) {
    |s| >= |prefix| && forall i :: 0 <= i < |prefix| ==> ToLower(s[i]) == prefix[i]
  }

  function SkipSpace(s: seq<Byte>): (r: seq<Byte>)
    ensures |r| <= |s|
  {
    if s != [] && IsSpace(s[0]) then SkipSpace(s[1..]) else s
  }

  /** The value of a digit in bases up to 16, or 16 for any other byte. */
  function DigitValue(b: Byte): nat {
    if 48 <= b <= 57 then b - 48
    else if 97 <= b <= 102 then b - 87
    else if 65 <= b <= 70 then b - 55
    else 16
  }

  /** Accumulates digits; digits is their number, rest what follows them. */
  datatype Digits = Digits(value: nat, digits: nat, rest: seq<Byte>)

  function ReadDigits(s: seq<Byte>, base: nat, acc: nat): (r: Digits)
    ensures |r.rest| <= |s|
  {
    if s != [] && DigitValue(s[0]) < base then
      var r := ReadDigits(s[1..], base, acc * base + DigitValue(s[0]));
      r.(digits := r.digits + 1)
    else Digits(acc, 0, s)
  }

  /** strtoul: parsed is false when no digit was read, outOfRange stands for ERANGE. */
  datatype Number = Number(value: SizeT, parsed: bool, outOfRange: bool, rest: seq<Byte>)

  function StrToUl(text: seq<Byte>, base: nat): Number {
    var s := SkipSpace(text);
    var negative := s != [] && s[0] == 45;
    var t := if s != [] && (s[0] == 45 || s[0] == 43) then s[1..] else s;
    var u := if base == 16 && |t| > 2 && t[0] == 48 && ToLower(t[1]) == 120 && DigitValue(t[2]) < 16
             then t[2..] else t;
    var d := ReadDigits(u, base, 0);
    if d.digits == 0 then Number(0, false, false, text)
    else if d.value >= SIZE then Number(SIZE - 1, true, true, d.rest)
    else Number(if negative then (SIZE - d.value) % SIZE else d.value, true, false, d.rest)
  }

  /** sscanf (line, "HTTP/%u.%u %u ", ...) == 3. */
  function ParseStatusText(line: seq<Byte>): Option<(nat, nat, nat)> {
    if |line| < 5 || line[..5] != [72, 84, 84, 80, 47] then None else
    var major := StrToUl(line[5..], 10);
    if !major.parsed || major.rest == [] || major.rest[0] != 46 then None else
    var minor := StrToUl(major.rest[1..], 10);
    if !minor.parsed then None else
    var status := StrToUl(minor.rest, 10);
    if !status.parsed then None else
    Some((major.value % 0x1_0000_0000, minor.value % 0x1_0000_0000, status.value % 0x1_0000_0000))
  }

  const CONTENT_LENGTH: seq<Byte> := [99, 111, 110, 116, 101, 110, 116, 45, 108, 101, 110, 103, 116, 104, 58]
  const TRANSFER_ENCODING: seq<Byte> :=
    [116, 114, 97, 110, 115, 102, 101, 114, 45, 101, 110, 99, 111, 100, 105, 110, 103, 58]
  const CHUNKED: seq<Byte> := [99, 104, 117, 110, 107, 101, 100]

  // ---- what a complete line does ----

  /** The line without its line end. */
  function Chop(line: seq<Byte>): (r: seq<Byte>)
    ensures r <= line
  {
    if line == [] || line[|line| - 1] != LF then line
    else if |line| > 1 && line[|line| - 2] == CR then line[..|line| - 2]
    else line[..|line| - 1]
  }

  predicate StatusHasBody(status: nat) {
    status / 100 != 1 && status !in {204, 205, 304}
  }

  function OnStatusLine(p: Parser, line: seq<Byte>): Parser {
    match ParseStatusText(CString(line))
    case None =>
      p.(version := 0x10000, status := 599, line := [], hasBody := !p.isHead,
         state := if p.isHead then Header else Undefined)
    case Some((major, minor, status)) =>
      p.(version := 0x10000 * major + minor, status := status, line := [],
         hasBody := !p.isHead && StatusHasBody(status),
         state := if !p.isHead && status == 100 then Continue else Header)
  }

  /** The effect of a header line on what is known about the body. */
  function NoteHeader(p: Parser, hdr: seq<Byte>): Parser {
    if HasPrefix(hdr, CONTENT_LENGTH) then p.(contentLength := StrToUl(hdr[15..], 10).value)
    else if HasPrefix(hdr, TRANSFER_ENCODING) then
      var coding := SkipSpace(hdr[18..]);
      if |coding| == 7 && HasPrefix(coding, CHUNKED) then p.(isChunked := true) else p
    else p
  }

  function OnHeaderLine(p: Parser, line: seq<Byte>): Parser {
    if line == [] then
      if p.hasBody then
        if p.isChunked then p.(line := [], contentLength := 0, state := Chunked)
        else p.(line := [], state := Data)
      else p.(line := [], state := if p.state == Continue then Header else Done)
    else NoteHeader(p, CString(line)).(line := [], headers := p.headers + [line])
  }

  function OnFooterLine(p: Parser, line: seq<Byte>): Parser {
    if line == [] then p.(line := [], state := Done)
    else p.(line := [], footers := p.footers + [line])
  }

  function OnChunkLine(p: Parser, line: seq<Byte>): Parser {
    if line == [] then p.(line := []) else
    var n := StrToUl(CString(line), 16);
    if n.outOfRange || !n.parsed then p.(line := [])
    else if n.value == 0 then p.(line := [], state := Footer)
    else p.(line := [], contentLength := (p.contentLength + n.value) % SIZE)
  }

  /** Is the next byte part of a line? */
  predicate InLine(p: Parser) {
    p.state in {Status, Header, Continue, Footer} || (p.state == Chunked && p.contentBytes >= p.contentLength)
  }

  /** What parse_status_line resets every time it is entered. */
  function Enter(p: Parser): Parser {
    if p.state == Status then p.(isChunked := false, contentLength := UNKNOWN) else p
  }

  function OnLine(p: Parser, line: seq<Byte>): Parser {
    match p.state
    case Status => OnStatusLine(Enter(p), line)
    case Header => OnHeaderLine(p, line)
    case Continue => OnHeaderLine(p, line)
    case Footer => OnFooterLine(p, line)
    case Chunked => OnChunkLine(p, line)
    case _ => p
  }

  // ---- one byte, many bytes ----

  predicate Stopped(p: Parser) { p.state == Done || p.state == Undefined }

  /** The body is complete although not a single byte of it was due. */
  predicate Exhausted(p: Parser) { p.state == Data && p.contentBytes == p.contentLength }

  function Step(p: Parser, b: Byte): Parser {
    if InLine(p) then
      if b == LF then OnLine(p, Chop(p.line + [b])) else Enter(p).(line := p.line + [b])
    else if p.state == Data || p.state == Chunked then
      var q := p.(body := p.body + [b], contentBytes := (p.contentBytes + 1) % SIZE);
      if p.state == Data && q.contentBytes == q.contentLength then q.(state := Done) else q
    else p
  }

  /** The parser after the bytes, and the bytes that belong to the next reply. */
  function Feed(p: Parser, bytes: seq<Byte>): (r: (Parser, seq<Byte>))
    ensures bytes == [] ==> r == (p, [])
    ensures Stopped(p) ==> r == (p, bytes)
    ensures bytes != [] && !Stopped(p) && !Exhausted(p) ==> |r.1| < |bytes|
    ensures |r.1| <= |bytes|
    ensures r.1 != [] ==> Stopped(r.0)
    decreases |bytes|
  {
    if bytes == [] || Stopped(p) then (p, bytes)
    else if Exhausted(p) then (p.(state := Done), bytes)
    else Feed(Step(p, bytes[0]), bytes[1..])
  }

  /** Cutting the stream anywhere makes no difference to the reference parser. */
  lemma {:induction false} FeedSplit(p: Parser, a: seq<Byte>, b: seq<Byte>)
    requires b != []
    ensures var (q, rest) := Feed(p, a);
            Feed(p, a + b) == if Stopped(q) then (q, rest + b) else Feed(q, b)
    decreases |a|
  {
    if a == [] {
      assert a + b == b;
    } else if !Stopped(p) && !Exhausted(p) {
      assert (a + b)[0] == a[0] && (a + b)[1..] == a[1..] + b;
      FeedSplit(Step(p, a[0]), a[1..], b);
    }
  }

  // ---- streams the block parser handles like the reference ----

  /** The counters never exceed what was announced. */
  predicate WellFormed(p: Parser) {
    && |p.line| < LINE_BUF - 1 && LF !in p.line
    && (p.state in {Status, Header, Continue} ==> p.contentBytes == 0)
    && (p.state in {Data, Chunked} ==> p.contentBytes <= p.contentLength)
    && (!InLine(p) ==> p.line == [])
    && (Exhausted(p) ==> p.contentLength == 0)
    && (p.state == Undefined || (p.state == Status && p.line != []) ==> p.contentLength == UNKNOWN)
  }

  /** Lines fit the line buffer, contain no NUL, and chunk sizes do not wrap around. */
  predicate FineByte(p: Parser, b: Byte) {
    InLine(p) ==>
      && b != 0
      && |p.line| + 1 <= (if b == LF then LINE_BUF - 1 else LINE_BUF - 2)
      && (p.state == Chunked && b == LF ==> FineChunkLine(p, Chop(p.line + [b])))
  }

  predicate FineChunkLine(p: Parser, line: seq<Byte>) {
    var n := StrToUl(CString(line), 16);
    n.parsed && !n.outOfRange ==> p.contentLength + n.value < SIZE
  }

  predicate Clean(p: Parser, bytes: seq<Byte>)
    decreases |bytes|
  {
    bytes == [] || Stopped(p) || Exhausted(p) || (FineByte(p, bytes[0]) && Clean(Step(p, bytes[0]), bytes[1..]))
  }

  lemma StepKeepsWellFormed(p: Parser, b: Byte)
    requires WellFormed(p) && FineByte(p, b) && !Stopped(p) && !Exhausted(p)
    ensures WellFormed(Step(p, b))
  {
    hide StrToUl, ParseStatusText, CString, HasPrefix, SkipSpace;
    if InLine(p) && b == LF {
      var line := Chop(p.line + [b]);
      OnLineWellFormed(p, line);
    }
  }

  lemma OnLineWellFormed(p: Parser, line: seq<Byte>)
    requires WellFormed(p) && InLine(p)
    requires p.state == Chunked ==> FineChunkLine(p, line)
    ensures WellFormed(OnLine(p, line))
  {
    hide ParseStatusText, CString, HasPrefix, SkipSpace, ReadDigits;
  }

  lemma {:induction false} CleanSplit(p: Parser, a: seq<Byte>, b: seq<Byte>)
    requires Clean(p, a + b) && WellFormed(p)
    ensures Clean(p, a) && WellFormed(Feed(p, a).0)
    ensures Clean(Feed(p, a).0, b)
    decreases |a|
  {
    hide FineByte, Step, WellFormed, Chop;
    if a == [] {
      assert a + b == b;
    } else if Exhausted(p) {
      ExhaustedWellFormed(p);
    } else if !Stopped(p) {
      assert (a + b)[0] == a[0] && (a + b)[1..] == a[1..] + b;
      StepKeepsWellFormed(p, a[0]);
      CleanSplit(Step(p, a[0]), a[1..], b);
    }
  }

  lemma ExhaustedWellFormed(p: Parser)
    requires WellFormed(p) && Exhausted(p)
    ensures WellFormed(p.(state := Done))
  {
  }
}
