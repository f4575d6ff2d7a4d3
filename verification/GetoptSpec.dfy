/**
 What getopt.c reads out of an argument vector, as functions of the vector as the caller passed
 it: one option at a time from left to right, without any permutation.
 */
module GetoptSpec {
  import opened Wrappers

  /** hasArg is 0, 1 (required) or 2 (optional); flag tells that a flag variable takes val. */
  datatype LongOpt = LongOpt(name: string, hasArg: nat, flag: bool, val: int)

  /** flags is the shell's list of elements that are no options. */
  datatype Config = Config(optstring: string, longopts: Option<seq<LongOpt>>, longOnly: bool, flags: string)

  /** What one call returns, how many elements it finishes, and the text left in the current one. */
  datatype Decoded = Decoded(code: int, optarg: Option<string>, width: nat, text: Option<string>, optopt: Option<int>,
      longind: Option<nat>)

  /** A string as C sees it. */
  function At(s: string, i: nat): char {
    if i < |s| then s[i] else '\0'
  }

  function IndexOf(s: string, c: char): (i: nat)
    ensures i <= |s| && (i < |s| <==> c in s) && (i < |s| ==> s[i] == c)
    ensures forall j :: 0 <= j < i ==> s[j] != c
  {
    if s == "" || s[0] == c then 0 else 1 + IndexOf(s[1..], c)
  }

  /** An option string that begins with '-' or '+' selects another ordering and is stripped of it. */
  predicate Permutes(optstring: string) { At(optstring, 0) != '-' && At(optstring, 0) != '+' }

  // ---- long options ----

  datatype LongMatch = Exact(index: nat) | Abbreviated(index: nat) | Ambiguous | Unknown

  /** The loop over the long options, from option k on. */
  function MatchFrom(opts: seq<LongOpt>, name: string, k: nat, found: Option<nat>, ambiguous: bool): LongMatch
    requires k <= |opts|
    decreases |opts| - k
  {
    if k == |opts| then
      if ambiguous then Ambiguous else match found { case None => Unknown case Some(i) => Abbreviated(i) }
    else if name <= opts[k].name then
      if |name| == |opts[k].name| then Exact(k)
      else if found.None? then MatchFrom(opts, name, k + 1, Some(k), ambiguous)
      else MatchFrom(opts, name, k + 1, found, true)
    else MatchFrom(opts, name, k + 1, found, ambiguous)
  }

  ghost predicate Matches(opts: seq<LongOpt>, name: string, m: LongMatch) {
    && (m.Exact? <==> exists i :: 0 <= i < |opts| && opts[i].name == name)
    && match m
       case Exact(k) => k < |opts| && opts[k].name == name && forall j :: 0 <= j < k ==> opts[j].name != name
       case Abbreviated(k) => k < |opts| && forall j :: 0 <= j < |opts| ==> (name <= opts[j].name <==> j == k)
       case Unknown => forall j :: 0 <= j < |opts| ==> !(name <= opts[j].name)
       case Ambiguous => exists i, j :: 0 <= i < j < |opts| && name <= opts[i].name && name <= opts[j].name
  }

  /** A name counts if it is an exact match, or an abbreviation of one option only. */
  lemma MatchMeans(opts: seq<LongOpt>, name: string)
    ensures Matches(opts, name, MatchFrom(opts, name, 0, None, false))
  {
    MatchFromMeans(opts, name, 0, None, false);
  }

  lemma {:induction false} MatchFromMeans(opts: seq<LongOpt>, name: string, k: nat, found: Option<nat>, ambiguous: bool)
    requires k <= |opts| && forall j :: 0 <= j < k ==> opts[j].name != name
    requires found.None? ==> forall j :: 0 <= j < k ==> !(name <= opts[j].name)
    requires found.Some? ==> found.value < k && name <= opts[found.value].name
    requires found.Some? && !ambiguous ==> forall j :: 0 <= j < k ==> (name <= opts[j].name <==> j == found.value)
    requires ambiguous ==> exists i, j :: 0 <= i < j < k && name <= opts[i].name && name <= opts[j].name
    ensures Matches(opts, name, MatchFrom(opts, name, k, found, ambiguous))
    decreases |opts| - k
  {
    if k < |opts| {
      if name <= opts[k].name {
        if |name| == |opts[k].name| {
          assert opts[k].name == name;
        } else if found.None? {
          MatchFromMeans(opts, name, k + 1, Some(k), ambiguous);
        } else {
          assert found.value < k && name <= opts[found.value].name && name <= opts[k].name;
          MatchFromMeans(opts, name, k + 1, found, true);
        }
      } else {
        MatchFromMeans(opts, name, k + 1, found, ambiguous);
      }
    }
  }

  // ---- one option ----

  function Missing(optstring: string): int {
    if At(optstring, 0) == ':' then ':' as int else '?' as int
  }

  /** The next short option of an element, of which text is left. */
  function DecodeShort(next: Option<string>, text: string, optstring: string): (d: Decoded)
    requires text != ""
    ensures d.width == 0 ==> d.text.Some? && d.text.value != "" && |d.text.value| < |text|
    ensures d.width > 0 ==> d.text.None? || d.text.value == ""
    ensures d.width <= 1 + if next.Some? then 1 else 0
  {
    var c, rest := text[0], text[1..];
    var at := IndexOf(optstring, c);
    var w: nat := if rest == "" then 1 else 0;
    if at == |optstring| || c == ':' then Decoded('?' as int, None, w, Some(rest), Some(c as int), None)
    else if At(optstring, at + 1) == ':' then
      if At(optstring, at + 2) == ':' then
        Decoded(c as int, if rest != "" then Some(rest) else None, 1, None, None, None)
      else if rest != "" then Decoded(c as int, Some(rest), 1, None, None, None)
      else match next
        case None => Decoded(Missing(optstring), None, 1, None, Some(c as int), None)
        case Some(arg) => Decoded(c as int, Some(arg), 2, None, None, None)
    else Decoded(c as int, None, w, Some(rest), None, None)
  }

  predicate TriesLong(elem: string, cfg: Config) {
    cfg.longopts.Some? && (At(elem, 1) == '-' || (cfg.longOnly && (|elem| > 2 || At(elem, 1) !in cfg.optstring)))
  }

  /** The option p was named; value is the text behind its equals sign. */
  function DecodeLong(p: LongOpt, index: nat, value: Option<string>, next: Option<string>,
                      optstring: string): (d: Decoded)
    ensures 1 <= d.width <= 1 + (if next.Some? then 1 else 0) && d.text == Some("")
  {
    var code := if p.flag then 0 else p.val;
    if value.Some? then
      if p.hasArg != 0 then Decoded(code, value, 1, Some(""), None, Some(index))
      else Decoded('?' as int, None, 1, Some(""), Some(p.val), None)
    else if p.hasArg == 1 then
      match next
      case Some(arg) => Decoded(code, Some(arg), 2, Some(""), None, Some(index))
      case None => Decoded(Missing(optstring), None, 1, Some(""), Some(p.val), None)
    else Decoded(code, None, 1, Some(""), None, Some(index))
  }

  /** One option out of element elem, of which text is left; next is the element behind it. */
  function Decode(elem: string, next: Option<string>, text: string, cfg: Config): (d: Decoded)
    requires text != ""
    ensures d.width == 0 ==> d.text.Some? && d.text.value != "" && |d.text.value| < |text|
    ensures d.width > 0 ==> d.text.None? || d.text.value == ""
    ensures d.width <= 1 + if next.Some? then 1 else 0
  {
    if TriesLong(elem, cfg) then
      var end := IndexOf(text, '=');
      var value := if end < |text| then Some(text[end + 1..]) else None;
      var opts := cfg.longopts.value;
      var m := MatchFrom(opts, text[..end], 0, None, false);
      if m.Ambiguous? then Decoded('?' as int, None, 1, Some(""), Some(0), None)
      else if !m.Unknown? && m.index < |opts| then DecodeLong(opts[m.index], m.index, value, next, cfg.optstring)
      else if !cfg.longOnly || At(elem, 1) == '-' || text[0] !in cfg.optstring then
        Decoded('?' as int, None, 1, Some(""), Some(0), None)
      else DecodeShort(next, text, cfg.optstring)
    else DecodeShort(next, text, cfg.optstring)
  }

  // ---- what the caller's descriptions of the options mean ----

  datatype ArgKind = NoArg | RequiredArg | OptionalArg

  datatype ShortOpt = ShortOpt(letter: char, kind: ArgKind)

  function Colons(kind: ArgKind): string {
    match kind
    case NoArg => ""
    case RequiredArg => ":"
    case OptionalArg => "::"
  }

  /** The short options as getopt's caller writes them. */
  function Spell(opts: seq<ShortOpt>): string {
    if opts == [] then "" else [opts[0].letter] + Colons(opts[0].kind) + Spell(opts[1..])
  }

  ghost predicate Letters(opts: seq<ShortOpt>) {
    && (forall i :: 0 <= i < |opts| ==> opts[i].letter != ':')
    && (forall i, j :: 0 <= i < j < |opts| ==> opts[i].letter != opts[j].letter)
  }

  lemma {:induction false} IndexOfSkips(a: string, b: string, c: char)
    requires c !in a
    ensures IndexOf(a + b, c) == |a| + IndexOf(b, c)
  {
    if a == "" {
      assert a + b == b;
    } else {
      assert (a + b)[1..] == a[1..] + b;
      IndexOfSkips(a[1..], b, c);
    }
  }

  lemma AtBehind(a: string, b: string, n: nat)
    ensures At(a + b, |a| + n) == At(b, n)
  {
  }

  /** Looking up a letter finds its own place, and the colons there are its own. */
  ghost predicate Finds(s: string, opts: seq<ShortOpt>, c: char) {
    var at := IndexOf(s, c);
    && (at == |s| <==> forall i :: 0 <= i < |opts| ==> opts[i].letter != c)
    && (forall i :: 0 <= i < |opts| && opts[i].letter == c ==>
          && (At(s, at + 1) == ':' <==> opts[i].kind != NoArg)
          && (opts[i].kind != NoArg ==> (At(s, at + 2) == ':' <==> opts[i].kind == OptionalArg)))
  }

  lemma {:induction false} SpellFinds(opts: seq<ShortOpt>, c: char)
    requires Letters(opts) && c != ':'
    ensures Finds(Spell(opts), opts, c)
  {
    if opts != [] {
      var a, b := [opts[0].letter] + Colons(opts[0].kind), Spell(opts[1..]);
      assert Spell(opts) == a + b;
      SpellFinds(opts[1..], c);
      assert b != "" ==> b[0] == opts[1].letter != ':';
      hide Spell, Finds;
      if opts[0].letter == c {
        FindsHead(opts, b);
      } else {
        FindsTail(a, b, opts, c);
      }
    }
  }

  lemma FindsHead(opts: seq<ShortOpt>, tail: string)
    requires opts != [] && Letters(opts) && (tail != "" ==> tail[0] != ':')
    ensures Finds([opts[0].letter] + Colons(opts[0].kind) + tail, opts, opts[0].letter)
  {
    var s := [opts[0].letter] + Colons(opts[0].kind) + tail;
    assert IndexOf(s, s[0]) == 0;
    assert forall i :: 0 <= i < |opts| && opts[i].letter == opts[0].letter ==> i == 0;
  }

  lemma FindsTail(a: string, b: string, opts: seq<ShortOpt>, c: char)
    requires opts != [] && opts[0].letter != c && c !in a && Finds(b, opts[1..], c)
    ensures Finds(a + b, opts, c)
  {
    IndexOfSkips(a, b, c);
    AtBehind(a, b, IndexOf(b, c) + 1);
    AtBehind(a, b, IndexOf(b, c) + 2);
    Later(opts, c);
    hide IndexOf, At;
  }

  lemma Later(opts: seq<ShortOpt>, c: char)
    requires opts != [] && opts[0].letter != c
    ensures forall i :: 0 <= i < |opts| && opts[i].letter == c ==> i > 0 && opts[1..][i - 1] == opts[i]
    ensures (forall i :: 0 <= i < |opts| ==> opts[i].letter != c) <==>
            (forall i :: 0 <= i < |opts| - 1 ==> opts[1..][i].letter != c)
  {
    if forall i :: 0 <= i < |opts| - 1 ==> opts[1..][i].letter != c {
      forall i | 0 <= i < |opts| ensures opts[i].letter != c {
        assert i > 0 ==> opts[1..][i - 1] == opts[i];
      }
    }
  }

  /** The option string with its prefix; a leading colon makes a missing argument silent. */
  function Optstring(silent: bool, opts: seq<ShortOpt>): string { (if silent then ":" else "") + Spell(opts) }

  lemma FindsBehind(prefix: string, s: string, opts: seq<ShortOpt>, c: char)
    requires c !in prefix && Finds(s, opts, c)
    ensures Finds(prefix + s, opts, c)
  {
    IndexOfSkips(prefix, s, c);
    AtBehind(prefix, s, IndexOf(s, c) + 1);
    AtBehind(prefix, s, IndexOf(s, c) + 2);
    hide IndexOf, At;
  }

  lemma OptstringFinds(silent: bool, opts: seq<ShortOpt>, c: char)
    requires Letters(opts) && c != ':'
    ensures Finds(Optstring(silent, opts), opts, c)
  {
    SpellFinds(opts, c);
    hide Finds, Spell;
    FindsBehind(if silent then ":" else "", Spell(opts), opts, c);
  }

  lemma MissingIs(silent: bool, opts: seq<ShortOpt>)
    requires Letters(opts)
    ensures Missing(Optstring(silent, opts)) == if silent then ':' as int else '?' as int
  {
    assert opts != [] ==> Spell(opts)[0] == opts[0].letter;
  }

  /**
   A letter that was not declared is reported; one declared without an argument leaves the rest of
   the element for the next call; one with a required argument takes the rest of the element, or else
   the next element, or else is reported; an optional argument can only be the rest of the element.
   */
  lemma ShortMeans(next: Option<string>, text: string, silent: bool, opts: seq<ShortOpt>)
    requires text != "" && Letters(opts) && Permutes(Optstring(silent, opts))
    ensures var d, c, rest := DecodeShort(next, text, Optstring(silent, opts)), text[0], text[1..];
            var used := if rest == "" then 1 else 0;
            && ((forall i :: 0 <= i < |opts| ==> opts[i].letter != c) ==>
                  d == Decoded('?' as int, None, used, Some(rest), Some(c as int), None))
            && forall i :: 0 <= i < |opts| && opts[i].letter == c ==>
                 match opts[i].kind
                 case NoArg => d == Decoded(c as int, None, used, Some(rest), None, None)
                 case OptionalArg =>
                   d == Decoded(c as int, if rest == "" then None else Some(rest), 1, None, None, None)
                 case RequiredArg =>
                   if rest != "" then d == Decoded(c as int, Some(rest), 1, None, None, None)
                   else if next.Some? then d == Decoded(c as int, next, 2, None, None, None)
                   else d == Decoded(if silent then ':' as int else '?' as int, None, 1, None, Some(c as int), None)
  {
    hide IndexOf, At, Optstring, Spell;
    if text[0] != ':' {
      OptstringFinds(silent, opts, text[0]);
    }
    MissingIs(silent, opts);
    hide Missing;
  }

  /** The name is that of option k, the first such, or an abbreviation of option k only. */
  ghost predicate Named(opts: seq<LongOpt>, name: string, k: nat) {
    && k < |opts|
    && ((opts[k].name == name && forall j :: 0 <= j < k ==> opts[j].name != name)
        || (forall j :: 0 <= j < |opts| ==> (name <= opts[j].name <==> j == k)))
  }

  lemma NamedFound(opts: seq<LongOpt>, name: string, k: nat)
    requires Named(opts, name, k)
    ensures MatchFrom(opts, name, 0, None, false) in {Exact(k), Abbreviated(k)}
  {
    MatchMeans(opts, name);
    var m := MatchFrom(opts, name, 0, None, false);
    assert name <= opts[k].name;
    if opts[k].name == name {
      assert m.Exact?;
    } else {
      assert !m.Exact?;
    }
  }

  function LongText(name: string, value: Option<string>): string {
    name + match value { case None => "" case Some(v) => "=" + v }
  }

  lemma LongSplit(name: string, value: Option<string>)
    requires '=' !in name
    ensures var t := LongText(name, value); var end := IndexOf(t, '=');
            && t[..end] == name && (if end < |t| then Some(t[end + 1..]) else None) == value
  {
    match value {
      case None =>
        IndexOfSkips(name, "", '=');
      case Some(v) =>
        IndexOfSkips(name, "=" + v, '=');
        assert IndexOf("=" + v, '=') == 0;
        hide IndexOf;
        ValueBehind(name, v);
    }
  }

  lemma ValueBehind(name: string, v: string)
    ensures (name + ("=" + v))[..|name|] == name && (name + ("=" + v))[|name| + 1..] == v
  {
  }

  /**
   --name or --name=value, written out or abbreviated: the value given is the argument, a required
   argument is otherwise the next element, and a value nobody asked for, or none where one is
   required, is reported.
   */
  lemma LongMeans(name: string, value: Option<string>, next: Option<string>, k: nat, cfg: Config)
    requires cfg.longopts.Some? && Named(cfg.longopts.value, name, k) && name != "" && '=' !in name
    ensures var elem, p := "--" + LongText(name, value), cfg.longopts.value[k];
            var d, code := Decode(elem, next, LongText(name, value), cfg), if p.flag then 0 else p.val;
            && Fresh(elem, cfg) == LongText(name, value)
            && (value.Some? && p.hasArg != 0 ==> d == Decoded(code, value, 1, Some(""), None, Some(k)))
            && (value.Some? && p.hasArg == 0 ==> d == Decoded('?' as int, None, 1, Some(""), Some(p.val), None))
            && (value.None? && p.hasArg != 1 ==> d == Decoded(code, None, 1, Some(""), None, Some(k)))
            && (value.None? && p.hasArg == 1 && next.Some? ==> d == Decoded(code, next, 2, Some(""), None, Some(k)))
            && (value.None? && p.hasArg == 1 && next.None? ==>
                  d == Decoded(Missing(cfg.optstring), None, 1, Some(""), Some(p.val), None))
  {
    DecodesLong(name, value, next, k, cfg);
    hide Decode, Missing, LongText, Named, Letters;
  }

  lemma DecodesLong(name: string, value: Option<string>, next: Option<string>, k: nat, cfg: Config)
    requires cfg.longopts.Some? && Named(cfg.longopts.value, name, k) && name != "" && '=' !in name
    ensures var elem, text := "--" + LongText(name, value), LongText(name, value);
            && text != "" && Fresh(elem, cfg) == text
            && Decode(elem, next, text, cfg) == DecodeLong(cfg.longopts.value[k], k, value, next, cfg.optstring)
  {
    var text := LongText(name, value);
    var elem := "--" + text;
    assert elem[2..] == text && At(elem, 1) == '-';
    LongSplit(name, value);
    NamedFound(cfg.longopts.value, name, k);
    hide MatchFrom, IndexOf, LongText, Named, DecodeLong;
  }

  // ---- the whole vector ----

  predicate NonOption(s: string, i: nat, flags: string) {
    At(s, 0) != '-' || |s| < 2 || (i < |flags| && flags[i] == '1')
  }

  function ElementBehind(argv: seq<string>, i: nat): Option<string> {
    if i + 1 < |argv| then Some(argv[i + 1]) else None
  }

  /** The text of an option element behind its punctuation. */
  function Fresh(s: string, cfg: Config): (t: string)
    requires |s| >= 2 && s[0] == '-' && s != "--"
    ensures t != ""
  {
    if cfg.longopts.Some? && s[1] == '-' then s[2..] else s[1..]
  }

  /** How many elements the options in the rest of element i take, arguments included. */
  function Width(argv: seq<string>, i: nat, text: string, cfg: Config): (w: nat)
    requires i < |argv| && text != ""
    ensures 1 <= w && i + w <= |argv|
    decreases |text|
  {
    var d := Decode(argv[i], ElementBehind(argv, i), text, cfg);
    if d.width > 0 then d.width else Width(argv, i, d.text.value, cfg)
  }

  /** What a call reports to its caller. */
  datatype Report = Report(code: int, optarg: Option<string>)

  /** The option elements from element i on, with their arguments, in the order given. */
  function OptionsFrom(argv: seq<string>, i: nat, cfg: Config): seq<string>
    requires i <= |argv|
    decreases |argv| - i
  {
    if i == |argv| then []
    else if NonOption(argv[i], i, cfg.flags) then OptionsFrom(argv, i + 1, cfg)
    else if argv[i] == "--" then [argv[i]]
    else
      var w := Width(argv, i, Fresh(argv[i], cfg), cfg);
      argv[i..i + w] + OptionsFrom(argv, i + w, cfg)
  }

  /** The other elements, in the order given; behind -- there is nothing else. */
  function OthersFrom(argv: seq<string>, i: nat, cfg: Config): seq<string>
    requires i <= |argv|
    decreases |argv| - i
  {
    if i == |argv| then []
    else if NonOption(argv[i], i, cfg.flags) then [argv[i]] + OthersFrom(argv, i + 1, cfg)
    else if argv[i] == "--" then argv[i + 1..]
    else OthersFrom(argv, i + Width(argv, i, Fresh(argv[i], cfg), cfg), cfg)
  }

  /** All reports from element i on. */
  function ReportsFrom(argv: seq<string>, i: nat, cfg: Config): seq<Report>
    requires i <= |argv|
    decreases |argv| - i, 1, 0
  {
    if i == |argv| then []
    else if NonOption(argv[i], i, cfg.flags) then ReportsFrom(argv, i + 1, cfg)
    else if argv[i] == "--" then []
    else ReportsIn(argv, i, Fresh(argv[i], cfg), cfg)
  }

  /** The reports of the rest of element i and of what follows. */
  function ReportsIn(argv: seq<string>, i: nat, text: string, cfg: Config): seq<Report>
    requires i < |argv| && text != ""
    decreases |argv| - i, 0, |text|
  {
    var d := Decode(argv[i], ElementBehind(argv, i), text, cfg);
    [Report(d.code, d.optarg)] + if d.width > 0 then ReportsFrom(argv, i + d.width, cfg)
        else ReportsIn(argv, i, d.text.value, cfg)
  }

  /** One element further. */
  lemma OneFurther(argv: seq<string>, i: nat, cfg: Config)
    requires i < |argv|
    ensures NonOption(argv[i], i, cfg.flags) ==>
              && OptionsFrom(argv, i, cfg) == OptionsFrom(argv, i + 1, cfg)
              && OthersFrom(argv, i, cfg) == [argv[i]] + OthersFrom(argv, i + 1, cfg)
              && ReportsFrom(argv, i, cfg) == ReportsFrom(argv, i + 1, cfg)
    ensures !NonOption(argv[i], i, cfg.flags) && argv[i] == "--" ==>
              && OptionsFrom(argv, i, cfg) == [argv[i]] && OthersFrom(argv, i, cfg) == argv[i + 1..]
              && ReportsFrom(argv, i, cfg) == []
    ensures !NonOption(argv[i], i, cfg.flags) && argv[i] != "--" ==>
              var t := Fresh(argv[i], cfg);
              var w := Width(argv, i, t, cfg);
              && OptionsFrom(argv, i, cfg) == argv[i..i + w] + OptionsFrom(argv, i + w, cfg)
              && OthersFrom(argv, i, cfg) == OthersFrom(argv, i + w, cfg)
              && ReportsFrom(argv, i, cfg) == ReportsIn(argv, i, t, cfg)
  {
    hide Width, Fresh, Decode;
  }

  /** The two together hold what all holds. */
  ghost predicate SameElements(options: seq<string>, others: seq<string>, all: seq<string>) {
    multiset(options) + multiset(others) == multiset(all)
  }

  lemma AddOption(block: seq<string>, options: seq<string>, others: seq<string>, all: seq<string>)
    requires SameElements(options, others, all)
    ensures SameElements(block + options, others, block + all)
  {
  }

  lemma AddOther(block: seq<string>, options: seq<string>, others: seq<string>, all: seq<string>)
    requires SameElements(options, others, all)
    ensures SameElements(options, block + others, block + all)
  {
  }

  lemma OnlyOthers(all: seq<string>)
    ensures SameElements([], all, all)
  {
  }

  lemma TailCut(s: seq<string>, i: nat, w: nat)
    requires i + w <= |s|
    ensures s[i..] == s[i..i + w] + s[i + w..]
  {
  }

  lemma LostNoOther(argv: seq<string>, i: nat, cfg: Config)
    requires i < |argv| && NonOption(argv[i], i, cfg.flags)
    requires SameElements(OptionsFrom(argv, i + 1, cfg), OthersFrom(argv, i + 1, cfg), argv[i + 1..])
    ensures SameElements(OptionsFrom(argv, i, cfg), OthersFrom(argv, i, cfg), argv[i..])
  {
    hide SameElements, OptionsFrom, OthersFrom, ReportsFrom, ReportsIn;
    OneFurther(argv, i, cfg);
    assert argv[i..] == [argv[i]] + argv[i + 1..];
    AddOther([argv[i]], OptionsFrom(argv, i + 1, cfg), OthersFrom(argv, i + 1, cfg), argv[i + 1..]);
  }

  lemma LostNothingBehind(argv: seq<string>, i: nat, cfg: Config)
    requires i < |argv| && !NonOption(argv[i], i, cfg.flags) && argv[i] == "--"
    ensures SameElements(OptionsFrom(argv, i, cfg), OthersFrom(argv, i, cfg), argv[i..])
  {
    hide SameElements, OptionsFrom, OthersFrom, ReportsFrom, ReportsIn;
    OneFurther(argv, i, cfg);
    assert argv[i..] == [argv[i]] + argv[i + 1..];
    OnlyOthers(argv[i + 1..]);
    AddOption([argv[i]], [], argv[i + 1..], argv[i + 1..]);
    assert [argv[i]] + [] == [argv[i]];
  }

  lemma LostNoOption(argv: seq<string>, i: nat, w: nat, cfg: Config)
    requires i < |argv| && !NonOption(argv[i], i, cfg.flags) && argv[i] != "--"
    requires w == Width(argv, i, Fresh(argv[i], cfg), cfg)
    requires SameElements(OptionsFrom(argv, i + w, cfg), OthersFrom(argv, i + w, cfg), argv[i + w..])
    ensures SameElements(OptionsFrom(argv, i, cfg), OthersFrom(argv, i, cfg), argv[i..])
  {
    hide SameElements, OptionsFrom, OthersFrom, Width, ReportsFrom, ReportsIn;
    OneFurther(argv, i, cfg);
    hide *;
    TailCut(argv, i, w);
    AddOption(argv[i..i + w], OptionsFrom(argv, i + w, cfg), OthersFrom(argv, i + w, cfg), argv[i + w..]);
  }

  /** Options and others together are the vector. */
  lemma {:induction false} NothingLost(argv: seq<string>, i: nat, cfg: Config)
    requires i <= |argv|
    ensures SameElements(OptionsFrom(argv, i, cfg), OthersFrom(argv, i, cfg), argv[i..])
    decreases |argv| - i
  {
    hide Width, Decode;
    if i == |argv| {
      assert argv[i..] == [];
    } else if NonOption(argv[i], i, cfg.flags) {
      NothingLost(argv, i + 1, cfg);
      LostNoOther(argv, i, cfg);
    } else if argv[i] == "--" {
      LostNothingBehind(argv, i, cfg);
    } else {
      var w := Width(argv, i, Fresh(argv[i], cfg), cfg);
      NothingLost(argv, i + w, cfg);
      LostNoOption(argv, i, w, cfg);
    }
  }
}
