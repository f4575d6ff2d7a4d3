/**
 getopt.c in its PERMUTE ordering: the argument vector is permuted in place while it is scanned.
 */
module Getopt {
  import opened Sequences
  import opened Wrappers
  import opened GetoptSpec

  /** The blocks of equal length at x and y have changed places. */
  function Swapped(s: seq<string>, x: nat, y: nat, len: nat): (r: seq<string>)
    requires x + len <= y && y + len <= |s|
    ensures |r| == |s|
  {
    s[..x] + s[y..y + len] + s[x + len..y] + s[x..x + len] + s[y + len..]
  }

  lemma SwappedAt(s: seq<string>, x: nat, y: nat, len: nat, k: nat)
    requires x + len <= y && y + len <= |s| && k < |s|
    ensures Swapped(s, x, y, len)[k]
            == if x <= k < x + len then s[y + (k - x)] else if y <= k < y + len then s[x + (k - y)] else s[k]
  {
  }

  /** The loops of exchange: element by element. */
  method SwapBlocks(a: array<string>, x: nat, y: nat, len: nat)
    requires x + len <= y && y + len <= a.Length
    modifies a
    ensures a[..] == Swapped(old(a[..]), x, y, len)
  {
    ghost var s := a[..];
    var i := 0;
    while i < len
      invariant 0 <= i <= len
      invariant forall k :: x <= k < x + i ==> a[k] == s[y + (k - x)]
      invariant forall k :: y <= k < y + i ==> a[k] == s[x + (k - y)]
      invariant forall k :: 0 <= k < a.Length && !(x <= k < x + i) && !(y <= k < y + i) ==> a[k] == s[k]
    {
      a[x + i], a[y + i] := a[y + i], a[x + i];
      i := i + 1;
    }
    forall k | 0 <= k < a.Length ensures a[..][k] == Swapped(s, x, y, len)[k] {
      SwappedAt(s, x, y, len, k);
    }
  }

  /** Exchanging the blocks [bottom, middle) and [middle, top). */
  function Rotated(s: seq<string>, bottom: nat, middle: nat, top: nat): seq<string>
    requires bottom <= middle <= top <= |s|
  {
    s[..bottom] + s[middle..top] + s[bottom..middle] + s[top..]
  }

  lemma SwappedParts(s: seq<string>, x: nat, y: nat, len: nat)
    requires x + len <= y && y + len <= |s|
    ensures var r := Swapped(s, x, y, len);
            && r[..x] == s[..x] && r[x..x + len] == s[y..y + len] && r[x + len..y] == s[x + len..y]
            && r[y..y + len] == s[x..x + len] && r[y + len..] == s[y + len..]
  {
    var a, b, c, d, e := s[..x], s[y..y + len], s[x + len..y], s[x..x + len], s[y + len..];
    Pieces(a, b, c, d, e);
  }

  lemma Pieces(a: seq<string>, b: seq<string>, c: seq<string>, d: seq<string>, e: seq<string>)
    ensures var r, i, j := a + b + c + d + e, |a| + |b|, |a| + |b| + |c|;
            && r[..|a|] == a && r[|a|..i] == b && r[i..j] == c && r[j..j + |d|] == d && r[j + |d|..] == e
  {
    var ab, abc, abcd := a + b, a + b + c, a + b + c + d;
    assert ab[..|a|] == a && ab[|a|..] == b;
    assert abc[..|ab|] == ab && abc[|ab|..] == c;
    assert abcd[..|abc|] == abc && abcd[|abc|..] == d;
    assert (abcd + e)[..|abcd|] == abcd && (abcd + e)[|abcd|..] == e;
  }

  lemma Cut(s: seq<string>, a: nat, b: nat, c: nat)
    requires a <= b <= c <= |s|
    ensures s[a..c] == s[a..b] + s[b..c] && s[a..] == s[a..b] + s[b..]
  {
  }

  lemma GroupBlocks(a: seq<string>, b: seq<string>, c: seq<string>, d: seq<string>, e: seq<string>)
    ensures a + (b + c) + d + e == a + b + c + (d + e)
    ensures a + b + (c + d) + e == (a + b) + c + d + e
  {
  }

  /** The upper end of the long block takes the place of the short one below. */
  lemma RotateLow(s: seq<string>, s': seq<string>, bottom: nat, middle: nat, top: nat)
    requires bottom < middle < top <= |s| && top - middle > middle - bottom
    requires s' == Swapped(s, bottom, top - (middle - bottom), middle - bottom)
    ensures Rotated(s, bottom, middle, top) == Rotated(s', bottom, middle, top - (middle - bottom))
  {
    var top' := top - (middle - bottom);
    var a, m, t, b, e := s[..bottom], s[middle..top'], s[top'..top], s[bottom..middle], s[top..];
    assert s[middle..top] == m + t by { Cut(s, middle, top', top); }
    assert s'[..bottom] == a && s'[middle..top'] == m && s'[bottom..middle] == t && s'[top'..] == b + e by {
      SwappedParts(s, bottom, top', middle - bottom);
      Cut(s', top', top, |s|);
    }
    hide Swapped;
    GroupBlocks(a, m, t, b, e);
  }

  lemma RotateHigh(s: seq<string>, s': seq<string>, bottom: nat, middle: nat, top: nat)
    requires bottom < middle < top <= |s| && top - middle <= middle - bottom
    requires s' == Swapped(s, bottom, middle, top - middle)
    ensures Rotated(s, bottom, middle, top) == Rotated(s', bottom + (top - middle), middle, top)
  {
    var bottom' := bottom + (top - middle);
    var a, m, b, c, e := s[..bottom], s[middle..top], s[bottom..bottom'], s[bottom'..middle], s[top..];
    assert s[bottom..middle] == b + c by { Cut(s, bottom, bottom', middle); }
    assert s'[..bottom'] == a + m && s'[middle..top] == b && s'[bottom'..middle] == c && s'[top..] == e by {
      SwappedParts(s, bottom, middle, top - middle);
      Cut(s', 0, bottom, bottom');
    }
    hide Swapped;
    GroupBlocks(a, m, b, c, e);
  }

  lemma RotateNothing(s: seq<string>, bottom: nat, middle: nat, top: nat)
    requires bottom <= middle <= top <= |s| && (top == middle || middle == bottom)
    ensures Rotated(s, bottom, middle, top) == s
  {
  }

  // ---- the state of a scan, as values ----

  function RestOptions(orig: seq<string>, i: nat, text: string, cfg: Config): seq<string>
    requires i <= |orig| && (text != "" ==> i < |orig|)
  {
    if text == "" then OptionsFrom(orig, i, cfg)
    else
      var w := Width(orig, i, text, cfg);
      orig[i..i + w] + OptionsFrom(orig, i + w, cfg)
  }

  function RestOthers(orig: seq<string>, i: nat, text: string, cfg: Config): seq<string>
    requires i <= |orig| && (text != "" ==> i < |orig|)
  {
    if text == "" then OthersFrom(orig, i, cfg) else OthersFrom(orig, i + Width(orig, i, text, cfg), cfg)
  }

  function RestReports(orig: seq<string>, i: nat, text: string, cfg: Config): seq<Report>
    requires i <= |orig| && (text != "" ==> i < |orig|)
  {
    if text == "" then ReportsFrom(orig, i, cfg) else ReportsIn(orig, i, text, cfg)
  }

  /**
   Between two calls: options up to first and again from last, the others between them, and
   what is still to be scanned as the caller gave it. What was read and what remains to be read
   of the original vector make up all of it.
   */
  ghost predicate Arranged(v: seq<string>, orig: seq<string>, first: nat, last: nat, i: nat, text: string,
                           cfg: Config) {
    && Ahead(v, orig, first, last, i, text)
    && OptionsPlaced(v[1..first], v[last..i], RestOptions(orig, i, text, cfg), OptionsFrom(orig, 1, cfg))
    && OthersPlaced(v[first..last], RestOthers(orig, i, text, cfg), OthersFrom(orig, 1, cfg))
  }

  ghost predicate Ahead(v: seq<string>, orig: seq<string>, first: nat, last: nat, i: nat, text: string) {
    && 1 <= first <= last <= i <= |v| == |orig| && (text != "" ==> i < |orig|)
    && v[0] == orig[0] && v[i..] == orig[i..]
  }

  ghost predicate OptionsPlaced(before: seq<string>, since: seq<string>, rest: seq<string>, all: seq<string>) {
    before + since + rest == all
  }

  ghost predicate OthersPlaced(skipped: seq<string>, rest: seq<string>, all: seq<string>) {
    skipped + rest == all
  }

  lemma OthersMore(skipped: seq<string>, x: string, rest: seq<string>, all: seq<string>)
    requires OthersPlaced(skipped, [x] + rest, all)
    ensures OthersPlaced(skipped + [x], rest, all)
  {
  }

  lemma OptionsMore(before: seq<string>, since: seq<string>, block: seq<string>, rest: seq<string>, all: seq<string>)
    requires OptionsPlaced(before, since, block + rest, all)
    ensures OptionsPlaced(before, since + block, rest, all)
  {
  }

  lemma OptionsJoin(before: seq<string>, since: seq<string>, rest: seq<string>, all: seq<string>)
    requires OptionsPlaced(before, since, rest, all)
    ensures OptionsPlaced(before + since, [], rest, all)
  {
  }

  /** When the scan is over: the options with their arguments, then the others, both in their order. */
  ghost predicate Sorted(v: seq<string>, orig: seq<string>, i: nat, cfg: Config) {
    && 1 <= i <= |v| == |orig| && v[0] == orig[0]
    && v[1..i] == OptionsFrom(orig, 1, cfg) && v[i..] == OthersFrom(orig, 1, cfg)
  }

  lemma ArrangedStart(orig: seq<string>, cfg: Config)
    requires |orig| >= 1
    ensures Arranged(orig, orig, 1, 1, 1, "", cfg)
  {
  }

  /** Exchanging moves the others behind the options read since. */
  lemma ExchangeArranged(v: seq<string>, orig: seq<string>, first: nat, last: nat, i: nat, cfg: Config)
    requires Arranged(v, orig, first, last, i, "", cfg)
    ensures Arranged(Rotated(v, first, last, i), orig, first + (i - last), i, i, "", cfg)
  {
    hide Rotated, OptionsPlaced, OthersPlaced, RestOptions, RestOthers, OptionsFrom, OthersFrom;
    RotatedParts(v, first, last, i);
    var r := Rotated(v, first, last, i);
    assert r[i..i] == [];
    OptionsJoin(v[1..first], v[last..i], RestOptions(orig, i, "", cfg), OptionsFrom(orig, 1, cfg));
  }

  lemma RotatedParts(v: seq<string>, first: nat, last: nat, i: nat)
    requires 1 <= first <= last <= i <= |v|
    ensures var r := Rotated(v, first, last, i);
            && |r| == |v| && r[0] == v[0] && r[i..] == v[i..]
            && r[1..first + (i - last)] == v[1..first] + v[last..i] && r[first + (i - last)..i] == v[first..last]
  {
    var r := Rotated(v, first, last, i);
    assert r[first..first + (i - last)] == v[last..i];
    assert r[1..first] == v[1..first];
    assert r[1..first + (i - last)] == r[1..first] + r[first..first + (i - last)];
  }

  /** Without others in between, the options read are one block. */
  lemma NoOthersArranged(v: seq<string>, orig: seq<string>, first: nat, last: nat, i: nat, cfg: Config)
    requires Arranged(v, orig, first, last, i, "", cfg) && first == last
    ensures Arranged(v, orig, i, i, i, "", cfg)
  {
    hide OptionsPlaced, OthersPlaced, RestOptions, RestOthers, OptionsFrom, OthersFrom;
    assert v[1..first] + v[first..i] == v[1..i] && v[first..first] == [] && v[i..i] == [];
    OptionsJoin(v[1..first], v[last..i], RestOptions(orig, i, "", cfg), OptionsFrom(orig, 1, cfg));
  }

  /** Ahead of the scan nothing has been moved. */
  lemma SameAhead(v: seq<string>, orig: seq<string>, i: nat, j: nat)
    requires i <= j <= |v| == |orig| && v[i..] == orig[i..]
    ensures v[j..] == orig[j..] && v[i..j] == orig[i..j] && (i < |v| ==> v[i] == orig[i])
            && (i + 1 < |v| ==> v[i + 1] == orig[i + 1])
  {
    assert v[j..] == v[i..][j - i..] && orig[j..] == orig[i..][j - i..];
    assert v[i..j] == v[i..][..j - i] && orig[i..j] == orig[i..][..j - i];
    assert forall k :: i <= k < |v| ==> v[k] == v[i..][k - i] && orig[k] == orig[i..][k - i];
  }

  lemma Extend(s: seq<string>, a: nat, b: nat)
    requires a <= b < |s|
    ensures s[a..b + 1] == s[a..b] + [s[b]] && s[b..b] == []
  {
  }

  /** One more element that is no option. */
  lemma SkipArranged(v: seq<string>, orig: seq<string>, first: nat, i: nat, cfg: Config)
    requires Arranged(v, orig, first, i, i, "", cfg) && i < |v| && NonOption(v[i], i, cfg.flags)
    ensures v[i] == orig[i] && Arranged(v, orig, first, i + 1, i + 1, "", cfg)
    ensures ReportsFrom(orig, i, cfg) == ReportsFrom(orig, i + 1, cfg)
  {
    hide OptionsFrom, OthersFrom, ReportsFrom, NonOption, OptionsPlaced, OthersPlaced, Width, Fresh;
    SameAhead(v, orig, i, i + 1);
    OneFurther(orig, i, cfg);
    Extend(v, first, i);
    assert RestOthers(orig, i, "", cfg) == [v[i]] + RestOthers(orig, i + 1, "", cfg);
    assert RestOptions(orig, i, "", cfg) == RestOptions(orig, i + 1, "", cfg);
    hide RestOptions, RestOthers;
    OthersMore(v[first..i], v[i], RestOthers(orig, i + 1, "", cfg), OthersFrom(orig, 1, cfg));
    assert v[i + 1..i + 1] == v[i..i];
  }

  /** At the end of the vector. */
  lemma EndSorted(v: seq<string>, orig: seq<string>, first: nat, cfg: Config)
    requires Arranged(v, orig, first, |v|, |v|, "", cfg)
    ensures Sorted(v, orig, first, cfg)
  {
    assert v[|v|..|v|] == [];
    assert v[first..] == v[first..|v|];
  }

  /** At "--": it goes with the options, and everything behind it with the others. */
  lemma TerminatorSorted(v: seq<string>, orig: seq<string>, first: nat, i: nat, cfg: Config)
    requires Arranged(v, orig, first, i, i, "", cfg) && i < |v| && v[i] == "--" && !NonOption(v[i], i, cfg.flags)
    ensures Sorted(Rotated(v, first, i, i + 1), orig, first + 1, cfg)
    ensures ReportsFrom(orig, i, cfg) == []
  {
    hide OptionsFrom, OthersFrom, ReportsFrom, NonOption, Width, Fresh, Rotated;
    SameAhead(v, orig, i, i + 1);
    OneFurther(orig, i, cfg);
    assert RestOptions(orig, i, "", cfg) == [v[i]] && RestOthers(orig, i, "", cfg) == v[i + 1..];
    hide RestOptions, RestOthers;
    RotatedParts(v, first, i, i + 1);
    var r := Rotated(v, first, i, i + 1);
    Extend(v, i, i);
    assert r[first + 1..] == r[first + 1..i + 1] + r[i + 1..];
    assert v[1..first] + v[i..i] + [v[i]] == v[1..first] + [v[i]];
  }

  /** At an option: its text is to be decoded. */
  lemma OptionArranged(v: seq<string>, orig: seq<string>, first: nat, i: nat, cfg: Config)
    requires Arranged(v, orig, first, i, i, "", cfg) && i < |v| && v[i] != "--" && !NonOption(v[i], i, cfg.flags)
    ensures v[i][0] == '-' && |v[i]| >= 2 && Arranged(v, orig, first, i, i, Fresh(v[i], cfg), cfg)
    ensures ReportsFrom(orig, i, cfg) == ReportsIn(orig, i, Fresh(v[i], cfg), cfg)
  {
    hide OptionsFrom, OthersFrom, ReportsFrom, ReportsIn, Width, Fresh, OptionsPlaced, OthersPlaced;
    SameAhead(v, orig, i, i);
    OneFurther(orig, i, cfg);
    var t := Fresh(v[i], cfg);
    assert RestOptions(orig, i, "", cfg) == RestOptions(orig, i, t, cfg);
    assert RestOthers(orig, i, "", cfg) == RestOthers(orig, i, t, cfg);
    hide RestOptions, RestOthers;
  }

  function Left(text: Option<string>): string {
    match text case None => "" case Some(t) => t
  }

  /** The element with its argument has been read to the end. */
  lemma ConsumeArranged(v: seq<string>, orig: seq<string>, first: nat, last: nat, i: nat, text: string, w: nat,
                        cfg: Config)
    requires Arranged(v, orig, first, last, i, text, cfg) && text != "" && i + w <= |v|
    requires i < |orig| && Width(orig, i, text, cfg) == w
    ensures Arranged(v, orig, first, last, i + w, "", cfg)
  {
    hide OptionsFrom, OthersFrom, Width, OptionsPlaced, OthersPlaced;
    SameAhead(v, orig, i, i + w);
    assert RestOthers(orig, i, text, cfg) == RestOthers(orig, i + w, "", cfg);
    assert RestOptions(orig, i, text, cfg) == v[i..i + w] + RestOptions(orig, i + w, "", cfg);
    hide RestOptions, RestOthers;
    Cut(v, last, i, i + w);
    OptionsMore(v[1..first], v[last..i], v[i..i + w], RestOptions(orig, i + w, "", cfg), OptionsFrom(orig, 1, cfg));
  }

  /** Decoding one option. */
  lemma DecodeArranged(v: seq<string>, orig: seq<string>, first: nat, last: nat, i: nat, text: string, cfg: Config)
    requires Arranged(v, orig, first, last, i, text, cfg) && text != ""
    ensures i < |v| == |orig|
    ensures var d := Decode(v[i], ElementBehind(v, i), text, cfg);
            && i + d.width <= |v| && Arranged(v, orig, first, last, i + d.width, Left(d.text), cfg)
            && RestReports(orig, i, text, cfg) == [Report(d.code, d.optarg)]
               + RestReports(orig, i + d.width, Left(d.text), cfg)
  {
    hide Decode, Width, RestOptions, RestOthers, RestReports, OptionsPlaced, OthersPlaced, OptionsFrom, OthersFrom,
         ReportsIn, ReportsFrom, Left, Ahead, ElementBehind;
    AheadSame(v, orig, first, last, i, text);
    hide Arranged;
    DecodeRest(orig, i, text, cfg);
    DecodeReports(orig, i, text, cfg);
    var d := Decode(v[i], ElementBehind(v, i), text, cfg);
    if d.width > 0 {
      ConsumeArranged(v, orig, first, last, i, text, d.width, cfg);
    } else {
      RestArranged(v, orig, first, last, i, text, d.text.value, cfg);
    }
  }

  lemma AheadSame(v: seq<string>, orig: seq<string>, first: nat, last: nat, i: nat, text: string)
    requires Ahead(v, orig, first, last, i, text) && text != ""
    ensures |v| == |orig| && i < |v| && v[i] == orig[i] && ElementBehind(v, i) == ElementBehind(orig, i)
  {
    SameAhead(v, orig, i, i);
  }

  lemma RestArranged(v: seq<string>, orig: seq<string>, first: nat, last: nat, i: nat, text: string, text': string,
                     cfg: Config)
    requires Arranged(v, orig, first, last, i, text, cfg) && text != "" && text' != "" && i < |orig|
    requires RestOptions(orig, i, text, cfg) == RestOptions(orig, i, text', cfg)
    requires RestOthers(orig, i, text, cfg) == RestOthers(orig, i, text', cfg)
    ensures Arranged(v, orig, first, last, i, text', cfg)
  {
    hide RestOptions, RestOthers, OptionsPlaced, OthersPlaced;
  }

  /** What remains after one option. */
  lemma DecodeRest(orig: seq<string>, i: nat, text: string, cfg: Config)
    requires i < |orig| && text != ""
    ensures var d := Decode(orig[i], ElementBehind(orig, i), text, cfg);
            && i + d.width <= |orig|
            && (d.width > 0 ==> Left(d.text) == "" && Width(orig, i, text, cfg) == d.width)
            && (d.width == 0 ==>
                  && Left(d.text) == d.text.value
                  && RestOptions(orig, i, text, cfg) == RestOptions(orig, i, d.text.value, cfg)
                  && RestOthers(orig, i, text, cfg) == RestOthers(orig, i, d.text.value, cfg))
  {
    hide Decode, OptionsFrom, OthersFrom;
    WidthIs(orig, i, text, cfg);
    hide Width;
  }

  lemma WidthIs(orig: seq<string>, i: nat, text: string, cfg: Config)
    requires i < |orig| && text != ""
    ensures var d := Decode(orig[i], ElementBehind(orig, i), text, cfg);
            Width(orig, i, text, cfg) == if d.width > 0 then d.width else Width(orig, i, d.text.value, cfg)
  {
    hide Decode;
  }

  lemma DecodeReports(orig: seq<string>, i: nat, text: string, cfg: Config)
    requires i < |orig| && text != ""
    ensures var d := Decode(orig[i], ElementBehind(orig, i), text, cfg);
            && i + d.width <= |orig| && (d.width == 0 ==> d.text.Some?)
            && RestReports(orig, i, text, cfg) == [Report(d.code, d.optarg)]
               + RestReports(orig, i + d.width, Left(d.text), cfg)
  {
    hide Decode, OptionsFrom, OthersFrom, ReportsFrom;
  }

  lemma AtEnd(orig: seq<string>, cfg: Config)
    ensures ReportsFrom(orig, |orig|, cfg) == []
  {
  }

  lemma RestIs(orig: seq<string>, i: nat, text: string, cfg: Config)
    requires i <= |orig| && (text != "" ==> i < |orig|)
    ensures RestReports(orig, i, text, cfg)
            == if text == "" then ReportsFrom(orig, i, cfg) else ReportsIn(orig, i, text, cfg)
  {
  }

  class Scanner {
    const cfg: Config
    var optind: nat
    var optarg: Option<string>
    var optopt: int
    var longind: Option<nat>
    var nextchar: Option<string>
    var first: nat
    var last: nat

    /** exchange */
    method Exchange(argv: array<string>)
      requires first <= last <= optind <= argv.Length
      modifies this`first, this`last, argv
      ensures argv[..] == Rotated(old(argv[..]), old(first), old(last), optind)
      ensures first == old(first) + (optind - old(last)) && last == optind
    {
      hide Rotated, Swapped;
      var bottom: nat, middle: nat, top: nat := first, last, optind;
      while top > middle && middle > bottom
        invariant first == old(first) && last == old(last)
        invariant bottom <= middle <= top <= argv.Length
        invariant Rotated(argv[..], bottom, middle, top) == Rotated(old(argv[..]), old(first), old(last), optind)
        decreases top - bottom
      {
        ghost var s := argv[..];
        if top - middle > middle - bottom {
          var len := middle - bottom;
          SwapBlocks(argv, bottom, top - (middle - bottom), len);
          RotateLow(s, argv[..], bottom, middle, top);
          top := top - len;
        } else {
          var len := top - middle;
          SwapBlocks(argv, bottom, middle, len);
          RotateHigh(s, argv[..], bottom, middle, top);
          bottom := bottom + len;
        }
      }
      RotateNothing(argv[..], bottom, middle, top);
      first := first + (optind - last);
      last := optind;
    }

    /** Between two calls; the original vector is orig. */
    ghost predicate Ready(argv: array<string>, orig: seq<string>)
      reads this, argv
    {
      Arranged(argv[..], orig, first, last, optind, Left(nextchar), cfg)
    }

    lemma ReadyArranged(v: seq<string>, orig: seq<string>)
      requires Arranged(v, orig, first, last, optind, Left(nextchar), cfg)
      ensures 1 <= first <= last <= optind <= |v| == |orig| && (Left(nextchar) != "" ==> optind < |orig|)
    {
    }

    constructor (cfg: Config)
      requires Permutes(cfg.optstring)
      ensures this.cfg == cfg && optind == 0
    {
      this.cfg := cfg;
      optind, optarg, optopt, longind, nextchar, first, last := 0, None, '?' as int, None, None, 0, 0;
    }

    /** _getopt_initialize */
    method Initialize()
      modifies this`optind, this`first, this`last, this`nextchar
      ensures first == last == optind == 1 && nextchar == None
    {
      first, last, optind := 1, 1, 1;
      nextchar := None;
    }

    /** The first half of _getopt_internal, at the end of an element: on to the next option, if any. */
    method Advance(argv: array<string>, ghost orig: seq<string>) returns (found: bool)
      requires Ready(argv, orig) && Left(nextchar) == ""
      modifies this`optind, this`first, this`last, this`nextchar, argv
      ensures found ==> Ready(argv, orig) && Left(nextchar) != ""
                        && RestReports(orig, optind, Left(nextchar), cfg) == old(ReportsFrom(orig, optind, cfg))
      ensures !found ==> Sorted(argv[..], orig, optind, cfg) && old(ReportsFrom(orig, optind, cfg)) == []
      ensures found ==> optind >= old(optind)
    {
      hide Arranged, Sorted, NonOption, ReportsFrom, RestOptions, RestOthers, RestReports, ReportsIn, Fresh;
      ReadyArranged(argv[..], orig);
      SettleOthers(argv, orig);
      SkipOthers(argv, orig);
      ghost var v := argv[..];
      if optind != argv.Length && argv[optind] == "--" {
        Terminate(argv, orig);
        return false;
      }
      if optind == argv.Length {
        EndSorted(argv[..], orig, first, cfg);
        AtEnd(orig, cfg);
        if first != last {
          optind := first;
        }
        return false;
      }
      OptionArranged(argv[..], orig, first, optind, cfg);
      nextchar := Some(Fresh(argv[optind], cfg));
      RestIs(orig, optind, Left(nextchar), cfg);
      return true;
    }

    /** The special element "--": everything behind it is no option. */
    method Terminate(argv: array<string>, ghost orig: seq<string>)
      requires Arranged(argv[..], orig, first, optind, optind, "", cfg) && last == optind
      requires optind < argv.Length && argv[optind] == "--" && !NonOption(argv[optind], optind, cfg.flags)
      modifies this`optind, this`first, this`last, argv
      ensures Sorted(argv[..], orig, optind, cfg) && ReportsFrom(orig, old(optind), cfg) == []
    {
      hide OptionsFrom, OthersFrom, RestOptions, RestOthers, OptionsPlaced, OthersPlaced, Rotated, Sorted,
           ReportsFrom, NonOption;
      assert 1 <= first <= last;
      hide Arranged;
      TerminatorSorted(argv[..], orig, first, optind, cfg);
      optind := optind + 1;
      if first != last && last != optind {
        Exchange(argv);
      } else if first == last {
        RotateNothing(argv[..], first, last, optind);
        first := optind;
      }
      last := argv.Length;
      optind := argv.Length;
      if first != last {
        optind := first;
      }
    }

    /** Options read since the others were skipped go in front of them. */
    method SettleOthers(argv: array<string>, ghost orig: seq<string>)
      requires Arranged(argv[..], orig, first, last, optind, "", cfg)
      modifies this`first, this`last, argv
      ensures Arranged(argv[..], orig, first, optind, optind, "", cfg)
    {
      hide Rotated, OptionsPlaced, OthersPlaced, RestOptions, RestOthers, OptionsFrom, OthersFrom;
      if first != last && last != optind {
        ExchangeArranged(argv[..], orig, first, last, optind, cfg);
        Exchange(argv);
      } else if last != optind {
        NoOthersArranged(argv[..], orig, first, last, optind, cfg);
        first := optind;
      }
      last := optind;
    }

    /** Skips elements that are no options. */
    method SkipOthers(argv: array<string>, ghost orig: seq<string>)
      requires Arranged(argv[..], orig, first, optind, optind, "", cfg)
      modifies this`optind, this`last
      ensures Arranged(argv[..], orig, first, optind, optind, "", cfg) && last == optind >= old(optind)
      ensures ReportsFrom(orig, optind, cfg) == old(ReportsFrom(orig, optind, cfg))
      ensures optind <= argv.Length && (optind < argv.Length ==> !NonOption(argv[optind], optind, cfg.flags))
    {
      hide OptionsPlaced, OthersPlaced, RestOptions, RestOthers, OptionsFrom, OthersFrom, ReportsFrom;
      while optind < argv.Length && NonOption(argv[optind], optind, cfg.flags)
        invariant old(optind) <= optind <= argv.Length && Arranged(argv[..], orig, first, optind, optind, "", cfg)
        invariant ReportsFrom(orig, optind, cfg) == old(ReportsFrom(orig, optind, cfg))
        decreases argv.Length - optind
      {
        SkipArranged(argv[..], orig, first, optind, cfg);
        optind := optind + 1;
      }
      last := optind;
    }

    /** The loop over the long options. */
    method FindLong(opts: seq<LongOpt>, name: string) returns (pfound: Option<nat>, exact: bool, ambig: bool)
      ensures var m := MatchFrom(opts, name, 0, None, false);
              && (exact <==> m.Exact?) && (ambig && !exact <==> m.Ambiguous?)
              && (pfound.None? ==> m.Unknown?)
              && (pfound.Some? && (exact || !ambig) ==>
                 !m.Unknown? && !m.Ambiguous? && m.index == pfound.value < |opts|)
    {
      pfound, exact, ambig := None, false, false;
      var k := 0;
      while k < |opts|
        invariant k <= |opts| && !exact && (pfound.Some? ==> pfound.value < k) && (ambig ==> pfound.Some?)
        invariant MatchFrom(opts, name, k, pfound, ambig) == MatchFrom(opts, name, 0, None, false)
      {
        if name <= opts[k].name {
          if |name| == |opts[k].name| {
            pfound, exact := Some(k), true;
            return;
          } else if pfound.None? {
            pfound := Some(k);
          } else {
            ambig := true;
          }
        }
        k := k + 1;
      }
    }

    /** What decoding the current option gives: the code, and the state behind it. */
    ghost predicate Decoding(d: Decoded, code: int, i: nat)
      reads this
    {
      code == d.code && optarg == d.optarg && optind == i + d.width && nextchar == d.text
      && (d.optopt.Some? ==> optopt == d.optopt.value) && (d.longind.Some? ==> longind == d.longind)
    }

    /** The last part of _getopt_internal: a short option. */
    method ShortOption(argv: array<string>) returns (code: int)
      requires optind < argv.Length && Left(nextchar) != "" && optarg == None
      modifies this`optind, this`optarg, this`optopt, this`nextchar
      ensures Decoding(old(DecodeShort(ElementBehind(argv[..], optind), Left(nextchar), cfg.optstring)), code,
              old(optind))
    {
      var text := nextchar.value;
      var c := text[0];
      text := text[1..];
      var temp := IndexOf(cfg.optstring, c);
      nextchar := Some(text);
      if text == "" {
        optind := optind + 1;
      }
      if temp == |cfg.optstring| || c == ':' {
        optopt := c as int;
        return '?' as int;
      }
      code := c as int;
      if At(cfg.optstring, temp + 1) == ':' {
        if At(cfg.optstring, temp + 2) == ':' {
          if text != "" {
            optarg := Some(text);
            optind := optind + 1;
          } else {
            optarg := None;
          }
          nextchar := None;
        } else {
          if text != "" {
            optarg := Some(text);
            optind := optind + 1;
          } else if optind == argv.Length {
            optopt := c as int;
            code := Missing(cfg.optstring);
          } else {
            optarg := Some(argv[optind]);
            optind := optind + 1;
          }
          nextchar := None;
        }
      }
    }

    /** The part of _getopt_internal for a long option that was found. */
    method LongOption(argv: array<string>, p: LongOpt, index: nat, value: Option<string>) returns (code: int)
      requires optind < argv.Length && Left(nextchar) != "" && optarg == None
      modifies this`optind, this`optarg, this`optopt, this`nextchar, this`longind
      ensures Decoding(old(DecodeLong(p, index, value, ElementBehind(argv[..], optind), cfg.optstring)), code,
              old(optind))
    {
      optind := optind + 1;
      if value.Some? {
        if p.hasArg != 0 {
          optarg := value;
        } else {
          nextchar := Some("");
          optopt := p.val;
          return '?' as int;
        }
      } else if p.hasArg == 1 {
        if optind < argv.Length {
          optarg := Some(argv[optind]);
          optind := optind + 1;
        } else {
          nextchar := Some("");
          optopt := p.val;
          return Missing(cfg.optstring);
        }
      }
      nextchar := Some("");
      longind := Some(index);
      return if p.flag then 0 else p.val;
    }

    /** The second half of _getopt_internal: decodes one option of the current element. */
    method DecodeElement(argv: array<string>) returns (code: int)
      requires optind < argv.Length && Left(nextchar) != "" && optarg == None
      modifies this`optind, this`optarg, this`optopt, this`nextchar, this`longind
      ensures Decoding(old(Decode(argv[optind], ElementBehind(argv[..], optind), Left(nextchar), cfg)), code,
              old(optind))
    {
      if TriesLong(argv[optind], cfg) {
        var text := nextchar.value;
        var nameend := IndexOf(text, '=');
        var opts := cfg.longopts.value;
        var pfound, exact, ambig := FindLong(opts, text[..nameend]);
        if ambig && !exact {
          nextchar := Some("");
          optind := optind + 1;
          optopt := 0;
          return '?' as int;
        }
        if pfound.Some? {
          code := LongOption(argv, opts[pfound.value], pfound.value,
                             if nameend < |text| then Some(text[nameend + 1..]) else None);
          return;
        }
        if !cfg.longOnly || At(argv[optind], 1) == '-' || text[0] !in cfg.optstring {
          nextchar := Some("");
          optind := optind + 1;
          optopt := 0;
          return '?' as int;
        }
      }
      code := ShortOption(argv);
    }

    /**
     One call of getopt. It reports the next option of the original vector, or that there is none;
     then the vector is sorted.
     */
    method GetOpt(argv: array<string>, ghost orig: seq<string>) returns (code: Option<int>)
      requires argv.Length >= 1 && (if optind == 0 then argv[..] == orig else Ready(argv, orig))
      modifies this, argv
      ensures code.None? ==> Sorted(argv[..], orig, optind, cfg) && old(Remaining(orig)) == []
      ensures code.Some? ==> 0 < optind <= |orig| && (Left(nextchar) != "" ==> optind < |orig|) && Ready(argv, orig)
      ensures code.Some? ==> old(Remaining(orig)) == [Report(code.value, optarg)] + Remaining(orig)
    {
      hide Arranged, Sorted, ReportsFrom, RestReports, Decode;
      optarg := None;
      if optind == 0 {
        Initialize();
        ArrangedStart(orig, cfg);
      }
      ReadyArranged(argv[..], orig);
      RestIs(orig, optind, Left(nextchar), cfg);
      if nextchar == None || nextchar.value == "" {
        var found := Advance(argv, orig);
        if !found {
          return None;
        }
      }
      ReadyArranged(argv[..], orig);
      DecodeArranged(argv[..], orig, first, last, optind, Left(nextchar), cfg);
      var c := DecodeElement(argv);
      ReadyArranged(argv[..], orig);
      return Some(c);
    }

    /** What the calls to come will report. */
    ghost function Remaining(orig: seq<string>): seq<Report>
      requires optind > 0 ==> optind <= |orig| && (Left(nextchar) != "" ==> optind < |orig|)
      requires optind == 0 ==> |orig| >= 1
      reads this
    {
      if optind == 0 then ReportsFrom(orig, 1, cfg) else RestReports(orig, optind, Left(nextchar), cfg)
    }
  }

  lemma NoReportLeft(reports: seq<Report>, rest: seq<Report>, all: seq<Report>)
    requires reports + rest == all && rest == []
    ensures reports == all
  {
    assert reports + [] == reports;
  }

  /**
   Calling getopt until it returns EOF: it reports exactly the options of the vector as it was
   given, in their order, and leaves the options with their arguments in front of everything else,
   both in their original order.
   */
  method ScanAll(argv: array<string>, cfg: Config) returns (s: Scanner, reports: seq<Report>)
    requires argv.Length >= 1 && Permutes(cfg.optstring)
    modifies argv
    ensures reports == ReportsFrom(old(argv[..]), 1, cfg)
    ensures 1 <= s.optind <= argv.Length && argv[0] == old(argv[0])
    ensures argv[1..s.optind] == OptionsFrom(old(argv[..]), 1, cfg)
    ensures argv[s.optind..] == OthersFrom(old(argv[..]), 1, cfg)
    ensures multiset(argv[..]) == multiset(old(argv[..]))
  {
    ghost var orig := argv[..];
    s := new Scanner(cfg);
    reports := [];
    hide Arranged, Sorted, ReportsFrom, RestReports, Left;
    var code := s.GetOpt(argv, orig);
    ghost var rest: seq<Report> := if code.Some? then s.Remaining(orig) else [];
    while code.Some?
      invariant fresh(s) && s.cfg == cfg
      invariant code.Some? ==> 0 < s.optind <= |orig| && (Left(s.nextchar) != "" ==> s.optind < |orig|)
      invariant code.Some? ==> s.Ready(argv, orig) && rest == s.Remaining(orig)
      invariant code.Some? ==> reports + ([Report(code.value, s.optarg)] + rest) == ReportsFrom(orig, 1, cfg)
      invariant code.None? ==> Sorted(argv[..], orig, s.optind, cfg) && reports == ReportsFrom(orig, 1, cfg)
      decreases if code.Some? then 1 + |rest| else 0
    {
      ghost var before, first := reports, [Report(code.value, s.optarg)];
      reports := reports + [Report(code.value, s.optarg)];
      code := s.GetOpt(argv, orig);
      Join(before, first, rest);
      if code.None? {
        NoReportLeft(reports, rest, ReportsFrom(orig, 1, cfg));
      } else {
        rest := s.Remaining(orig);
      }
    }
    SortedElements(argv[..], orig, s.optind, cfg);
    SortedParts(argv[..], orig, s.optind, cfg);
  }

  lemma SortedParts(v: seq<string>, orig: seq<string>, i: nat, cfg: Config)
    requires Sorted(v, orig, i, cfg)
    ensures 1 <= i <= |v| == |orig| && v[0] == orig[0]
    ensures v[1..i] == OptionsFrom(orig, 1, cfg) && v[i..] == OthersFrom(orig, 1, cfg)
  {
  }

  /** The sorted vector holds the same elements. */
  lemma SortedElements(v: seq<string>, orig: seq<string>, i: nat, cfg: Config)
    requires Sorted(v, orig, i, cfg)
    ensures multiset(v) == multiset(orig)
  {
    NothingLost(orig, 1, cfg);
    assert v == [v[0]] + v[1..i] + v[i..];
    assert orig == [orig[0]] + orig[1..];
  }
}
