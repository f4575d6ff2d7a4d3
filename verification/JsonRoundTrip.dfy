/** Parsing what was printed gives back the tree, for every tree and every indentation. */
module JsonRoundTrip {
  import opened Wrappers
  import opened JsonText
  import opened JsonSyntax

  /** The trees that have a text: 64-bit integers, distinct keys, no floating-point numbers. */
  ghost predicate WellFormed(v: Value) {
    match v
    case Null => true
    case Bool(_) => true
    case Int(n) => LONG_MIN <= n <= LONG_MAX
    case Decimal(_, _) => false
    case Str(_) => true
    case Arr(elems) => forall i :: 0 <= i < |elems| ==> WellFormed(elems[i])
    case Obj(entries) =>
      && (forall i :: 0 <= i < |entries| ==> WellFormed(entries[i].value))
      && forall i, j :: 0 <= i < j < |entries| ==> entries[i].key != entries[j].key
  }

  // ---- texts in their place ----

  /** The text w stands in s at position p. */
  ghost predicate Holds(s: Text, p: nat, w: Text) {
    p + |w| <= |s| && s[p..p + |w|] == w
  }

  lemma HoldsSplit(s: Text, p: nat, a: Text, b: Text)
    requires Holds(s, p, a + b)
    ensures Holds(s, p, a) && Holds(s, p + |a|, b) && p + |a| <= |s|
  {
    assert s[p..p + |a|] == (a + b)[..|a|];
    assert s[p + |a|..p + |a| + |b|] == (a + b)[|a|..];
  }

  lemma HoldsThree(s: Text, p: nat, a: Text, b: Text, c: Text)
    requires Holds(s, p, a + (b + c))
    ensures Holds(s, p, a) && Holds(s, p + |a|, b) && Holds(s, p + |a| + |b|, c) && p + |a| + |b| <= |s|
  {
    HoldsSplit(s, p, a, b + c);
    HoldsSplit(s, p + |a|, b, c);
  }

  lemma HoldsAt(s: Text, p: nat, w: Text, i: nat)
    requires Holds(s, p, w) && i < |w|
    ensures p + i < |s| && At(s, p + i) == w[i]
  {
    assert s[p..p + |w|][i] == s[p + i];
  }

  lemma CleanHere(s: Text, p: nat)
    requires p <= |s| && At(s, p) > SPACE
    ensures CleanPos(s, p) == p
  {
  }

  predicate Blank(w: Text) { forall i :: 0 <= i < |w| ==> w[i] == SPACE || w[i] == NEWLINE }

  lemma CleanBlank(s: Text, p: nat, w: Text)
    requires Holds(s, p, w) && Blank(w)
    ensures CleanPos(s, p) == CleanPos(s, p + |w|)
    decreases |w|
  {
    if w != [] {
      HoldsAt(s, p, w, 0);
      assert w == [w[0]] + w[1..];
      HoldsSplit(s, p, [w[0]], w[1..]);
      CleanBlank(s, p + 1, w[1..]);
    }
  }

  lemma LeadBlank(factor: nat, indent: nat)
    ensures Blank(Lead(factor, indent)) && Blank(Gap(factor))
    ensures factor > 0 ==> Lead(factor, indent)[0] == NEWLINE
    ensures factor == 0 && indent == 0 ==> Lead(factor, indent) == []
  {
  }

  /** nextValue starts at the first character that counts. */
  lemma ParseSkips(s: Text, p: nat, q: nat, doubles: Doubles)
    requires p <= |s| && q <= |s| && CleanPos(s, p) == CleanPos(s, q)
    ensures ParseValue(s, p, doubles) == ParseValue(s, q, doubles)
  {
  }

  // ---- numbers ----

  lemma {:induction false} DigitsRead(n: nat)
    ensures DecimalNumber(Digits(n)) == Some(n)
    ensures forall i :: 0 <= i < |Digits(n)| ==> ZERO <= Digits(n)[i] <= ZERO + 9
  {
    if n >= 10 {
      DigitsRead(n / 10);
      assert Digits(n)[..|Digits(n)| - 1] == Digits(n / 10);
    } else {
      assert Digits(n)[..0] == [];
    }
  }

  lemma LongRead(n: int)
    requires LONG_MIN <= n <= LONG_MAX
    ensures ParseLong(LongText(n)) == Some(n)
    ensures LongText(n) != [] && forall i :: 0 <= i < |LongText(n)| ==>
            LongText(n)[i] == MINUS || ZERO <= LongText(n)[i] <= ZERO + 9
  {
    hide Digits, DecimalNumber;
    var digits := Digits(if n < 0 then -n else n);
    DigitsRead(if n < 0 then -n else n);
    if n < 0 {
      assert LongText(n)[1..] == digits;
    } else {
      assert LongText(n) == digits && digits[0] != MINUS;
    }
  }

  lemma {:induction false} HexRead(n: nat)
    ensures HexNumber(HexText(n)) == Some(n)
    ensures forall i :: 0 <= i < |HexText(n)| ==> 48 <= HexText(n)[i]
    ensures n < 16 ==> |HexText(n)| == 1
    ensures 16 <= n < 256 ==> |HexText(n)| == 2
    ensures 256 <= n < 4096 ==> |HexText(n)| == 3
    ensures 4096 <= n < 65536 ==> |HexText(n)| == 4
  {
    if n >= 16 {
      HexRead(n / 16);
      assert HexText(n)[..|HexText(n)| - 1] == HexText(n / 16);
    } else {
      assert HexText(n)[..0] == [];
    }
  }

  lemma {:induction false} ZerosRead(k: nat, t: Text)
    requires t != [] || k == 0
    ensures HexNumber(Zeros(k) + t) == HexNumber(t)
    decreases k + |t|
  {
    var w := Zeros(k) + t;
    if k == 0 {
      assert w == t;
    } else if |t| == 1 {
      assert w[..|w| - 1] == Zeros(k);
      ZerosAreZero(k);
      assert t[..0] == [];
    } else {
      assert w[..|w| - 1] == Zeros(k) + t[..|t| - 1];
      ZerosRead(k, t[..|t| - 1]);
    }
  }

  lemma {:induction false} ZerosAreZero(k: nat)
    ensures HexNumber(Zeros(k)) == Some(0)
  {
    if k > 0 {
      assert Zeros(k)[..k - 1] == Zeros(k - 1);
      ZerosAreZero(k - 1);
    }
  }

  lemma FourDigitsRead(c: Unit)
    ensures |HexText(c)| <= 4
    ensures var w := Zeros(4 - |HexText(c)|) + HexText(c);
            |w| == 4 && ParseHex(w) == Some(c as int) && forall i :: 0 <= i < 4 ==> w[i] >= 48
  {
    HexRead(c);
    ZerosRead(4 - |HexText(c)|, HexText(c));
  }

  // ---- strings ----

  lemma EscapeRead(s: Text, p: nat, b: Unit, c: Unit, acc: Text)
    requires Holds(s, p, Escape(b, c))
    ensures StringFrom(s, p, QUOTE, acc, false) == StringFrom(s, p + |Escape(b, c)|, QUOTE, acc + [c], false)
  {
    var w := Escape(b, c);
    if |w| > 1 && w[1] == 117 {
      var h := EscapeShape(b, c);
      EscapeHexRead(s, p, c, h, acc);
    } else {
      forall i | 0 <= i < |w| ensures At(s, p + i) == w[i] {
        HoldsAt(s, p, w, i);
      }
    }
  }

  lemma EscapeShape(b: Unit, c: Unit) returns (h: Text)
    requires |Escape(b, c)| > 1 && Escape(b, c)[1] == 117
    ensures Escape(b, c) == [BACKSLASH, 117] + h
    ensures |h| == 4 && (forall i :: 0 <= i < 4 ==> h[i] >= 48) && ParseHex(h) == Some(c as int)
  {
    hide HexText, ParseHex, Zeros;
    FourDigitsRead(c);
    h := Zeros(4 - |HexText(c)|) + HexText(c);
  }

  lemma EscapeHexRead(s: Text, p: nat, c: Unit, h: Text, acc: Text)
    requires Holds(s, p, [BACKSLASH, 117] + h)
    requires |h| == 4 && (forall i :: 0 <= i < 4 ==> h[i] >= 48) && ParseHex(h) == Some(c as int)
    ensures p + 6 <= |s| && StringFrom(s, p, QUOTE, acc, false) == StringFrom(s, p + 6, QUOTE, acc + [c], false)
  {
    HoldsSplit(s, p, [BACKSLASH, 117], h);
    assert p + 6 <= |s|;
    hide StringFrom, ParseHex, Holds, At;
    HoldsAt(s, p, [BACKSLASH, 117], 0);
    HoldsAt(s, p, [BACKSLASH, 117], 1);
    HoldsAt(s, p + 2, h, 0);
    HoldsAt(s, p + 2, h, 1);
    HoldsAt(s, p + 2, h, 2);
    HoldsAt(s, p + 2, h, 3);
    HexStep(s, p, h, c, acc);
  }

  lemma HexStep(s: Text, p: nat, h: Text, c: Unit, acc: Text)
    requires p + 6 <= |s| && At(s, p) == BACKSLASH && At(s, p + 1) == 117
    requires |h| == 4 && (forall i :: 0 <= i < 4 ==> h[i] >= 48) && ParseHex(h) == Some(c as int)
    requires At(s, p + 2) == h[0] && At(s, p + 3) == h[1] && At(s, p + 4) == h[2] && At(s, p + 5) == h[3]
    ensures StringFrom(s, p, QUOTE, acc, false) == StringFrom(s, p + 6, QUOTE, acc + [c], false)
  {
    hide ParseHex, At, Unescape;
    assert [At(s, p + 2), At(s, p + 3), At(s, p + 4), At(s, p + 5)] == h;
  }

  lemma {:induction false} EscapedRead(t: Text, i: nat, s: Text, p: nat)
    requires i <= |t| && Holds(s, p, EscapedFrom(t, i) + [QUOTE])
    ensures StringFrom(s, p, QUOTE, t[..i], false) == Parsed(t, p + |EscapedFrom(t, i)| + 1)
    decreases |t| - i
  {
    hide *;
    if i == |t| {
      EscapedEnd(t, s, p);
    } else {
      var b := if i == 0 then 0 else t[i - 1];
      var e, rest := Escape(b, t[i]), EscapedFrom(t, i + 1);
      EscapedIs(t, i);
      HoldsSplit(s, p, e, rest + [QUOTE]);
      EscapeRead(s, p, b, t[i], t[..i]);
      assert t[..i] + [t[i]] == t[..i + 1];
      EscapedRead(t, i + 1, s, p + |e|);
    }
  }

  lemma EscapedIs(t: Text, i: nat)
    requires i < |t|
    ensures EscapedFrom(t, i) + [QUOTE] == Escape(if i == 0 then 0 else t[i - 1], t[i])
            + (EscapedFrom(t, i + 1) + [QUOTE])
    ensures |EscapedFrom(t, i)| == |Escape(if i == 0 then 0 else t[i - 1], t[i])| + |EscapedFrom(t, i + 1)|
  {
    hide Escape;
  }

  lemma EscapedEnd(t: Text, s: Text, p: nat)
    requires Holds(s, p, EscapedFrom(t, |t|) + [QUOTE])
    ensures p <= |s| && StringFrom(s, p, QUOTE, t[..|t|], false) == Parsed(t, p + |EscapedFrom(t, |t|)| + 1)
  {
    assert EscapedFrom(t, |t|) + [QUOTE] == [QUOTE];
    HoldsAt(s, p, [QUOTE], 0);
    assert t[..|t|] == t;
  }

  lemma QuoteRead(t: Text, s: Text, p: nat, doubles: Doubles)
    requires Holds(s, p, Quote(t))
    ensures ParseValue(s, p, doubles) == Parsed(Str(t), p + |Quote(t)|)
  {
    HoldsAt(s, p, Quote(t), 0);
    assert Quote(t) == [QUOTE] + (EscapedFrom(t, 0) + [QUOTE]);
    HoldsSplit(s, p, [QUOTE], EscapedFrom(t, 0) + [QUOTE]);
    EscapedRead(t, 0, s, p + 1);
    assert t[..0] == [];
  }

  // ---- words ----

  predicate Plain(w: Text) { forall i :: 0 <= i < |w| ==> !EndsUnquoted(w[i]) && w[i] > SPACE && w[i] != APOSTROPHE }

  lemma {:induction false} UnquotedEndAfter(s: Text, p: nat, w: Text)
    requires Holds(s, p, w) && Plain(w) && EndsUnquoted(At(s, p + |w|))
    ensures UnquotedEnd(s, p) == p + |w|
    decreases |w|
  {
    if w != [] {
      HoldsAt(s, p, w, 0);
      assert w == [w[0]] + w[1..];
      HoldsSplit(s, p, [w[0]], w[1..]);
      UnquotedEndAfter(s, p + 1, w[1..]);
    }
  }

  lemma WordRead(s: Text, p: nat, w: Text, doubles: Doubles)
    requires w != [] && Holds(s, p, w) && Plain(w) && EndsUnquoted(At(s, p + |w|))
    ensures ParseValue(s, p, doubles) == Parsed(StringToValue(w, doubles), p + |w|)
  {
    HoldsAt(s, p, w, 0);
    UnquotedEndAfter(s, p, w);
    assert s[p..p + |w|] == w && Trim(w) == w;
  }

  lemma LongValue(n: int, doubles: Doubles)
    requires LONG_MIN <= n <= LONG_MAX
    ensures LongText(n) != [] && Plain(LongText(n)) && StringToValue(LongText(n), doubles) == Int(n)
  {
    LongRead(n);
    var t := LongText(n);
    assert t[0] == MINUS || ZERO <= t[0] <= ZERO + 9;
  }

  // ---- one step of the parser ----

  lemma ValueIsArray(s: Text, p: nat, doubles: Doubles)
    requires p <= |s| && At(s, p) == OPEN_BRACKET
    ensures ParseValue(s, p, doubles) == ParseArray(s, p, doubles)
  {
  }

  lemma ValueIsObject(s: Text, p: nat, doubles: Doubles)
    requires p <= |s| && At(s, p) == OPEN_BRACE
    ensures ParseValue(s, p, doubles) == ParseObject(s, p, doubles)
  {
  }

  lemma ElemHere(s: Text, p: nat, doubles: Doubles)
    requires p <= |s| && At(s, p) > SPACE && At(s, p) != COMMA
    ensures CleanPos(s, p) == p && ParseElem(s, p, doubles) == ParseValue(s, p, doubles)
  {
    hide ParseValue;
  }

  /** The element is followed by the closing bracket. */
  lemma ElemsLast(s: Text, p: nat, elems: seq<Value>, v: Value, e: nat, doubles: Doubles)
    requires p <= |s| && ParseElem(s, p, doubles) == Parsed(v, e)
    requires e <= |s| && At(s, CleanPos(s, e)) == CLOSE_BRACKET
    ensures ParseElems(s, p, elems, doubles) == Parsed(Arr(elems + [v]), CleanPos(s, e) + 1)
  {
    hide ParseElem, CleanPos, At;
  }

  /** The element is followed by a comma and something else than the closing bracket. */
  lemma ElemsMore(s: Text, p: nat, elems: seq<Value>, v: Value, e: nat, u: nat, doubles: Doubles)
    requires p <= |s| && ParseElem(s, p, doubles) == Parsed(v, e)
    requires e < |s| && CleanPos(s, e) == e && At(s, e) == COMMA && u == CleanPos(s, e + 1) && At(s, u) != CLOSE_BRACKET
    ensures ParseElems(s, p, elems, doubles) == ParseElems(s, u, elems + [v], doubles)
  {
    hide ParseElem, CleanPos, At;
  }

  lemma EntriesLast(s: Text, p: nat, entries: seq<Entry>, entry: Entry, e: nat, doubles: Doubles)
    requires p <= |s| && CleanPos(s, p) == p && At(s, p) == QUOTE && ParseMember(s, p, doubles) == Parsed(entry, e)
    requires e <= |s| && At(s, CleanPos(s, e)) == CLOSE_BRACE && !HasKey(entries, entry.key)
    ensures ParseEntries(s, p, entries, doubles) == Parsed(Obj(entries + [entry]), CleanPos(s, e) + 1)
  {
    hide ParseMember, CleanPos, At, HasKey;
  }

  lemma EntriesMore(s: Text, p: nat, entries: seq<Entry>, entry: Entry, e: nat, u: nat, doubles: Doubles)
    requires p <= |s| && CleanPos(s, p) == p && At(s, p) == QUOTE && ParseMember(s, p, doubles) == Parsed(entry, e)
    requires e < |s| && CleanPos(s, e) == e && At(s, e) == COMMA && u == CleanPos(s, e + 1) && At(s, u) != CLOSE_BRACE
    requires !HasKey(entries, entry.key)
    ensures ParseEntries(s, p, entries, doubles) == ParseEntries(s, u, entries + [entry], doubles)
  {
    hide ParseMember, CleanPos, At, HasKey;
  }

  lemma ArrayStart(s: Text, p: nat, u: nat, doubles: Doubles)
    requires p < |s| && At(s, p) == OPEN_BRACKET && u == CleanPos(s, p + 1)
    ensures ParseArray(s, p, doubles) == if At(s, u) == CLOSE_BRACKET then Parsed(Arr([]), u + 1)
            else ParseElems(s, u, [], doubles)
  {
    CleanHere(s, p);
    hide ParseElems, CleanPos, At;
  }

  lemma ObjectStart(s: Text, p: nat, u: nat, doubles: Doubles)
    requires p < |s| && At(s, p) == OPEN_BRACE && u == CleanPos(s, p + 1)
    ensures ParseObject(s, p, doubles) == if At(s, u) == CLOSE_BRACE then Parsed(Obj([]), u + 1)
            else ParseEntries(s, u, [], doubles)
  {
    CleanHere(s, p);
    hide ParseMember, CleanPos, At;
    ParseEntriesSkips(s, p + 1, u, [], doubles);
  }

  lemma ParseEntriesSkips(s: Text, p: nat, q: nat, entries: seq<Entry>, doubles: Doubles)
    requires p <= |s| && q <= |s| && CleanPos(s, p) == CleanPos(s, q)
    ensures ParseEntries(s, p, entries, doubles) == ParseEntries(s, q, entries, doubles)
  {
    hide ParseMember, CleanPos, At, HasKey;
  }

  // ---- what the printer writes, cut at the first element ----

  /** The text behind element i: the other elements and the close. */
  function ElemsTail(v: Value, i: nat, factor: nat, mi: nat, ws: Text): Text
    requires v.Arr? && i < |v.elems|
  {
    ElemsFrom(v, i + 1, factor, mi) + ws + [CLOSE_BRACKET]
  }

  function EntriesTail(v: Value, i: nat, factor: nat, mi: nat, ws: Text): Text
    requires v.Obj? && i < |v.entries|
  {
    EntriesFrom(v, i + 1, factor, mi) + ws + [CLOSE_BRACE]
  }

  lemma Regroup(a: Text, b: Text, c: Text, d: Text, e: Text, f: Text)
    ensures a + (b + c + d + e) + f == a + (b + (c + (d + e + f)))
  {
  }

  lemma ArrayShape(v: Value, factor: nat, indent: nat) returns (mi: nat, lead: Text, ws: Text)
    requires v.Arr? && v.elems != [] && (factor == 0 ==> indent == 0)
    ensures factor == 0 ==> mi == 0
    ensures Blank(lead) && Closing(ws)
    ensures Write(v, factor, indent) == [OPEN_BRACKET]
            + (lead + (Write(v.elems[0], factor, mi) + ElemsTail(v, 0, factor, mi, ws)))
  {
    mi, lead, ws := ArrayBody(v, factor, indent);
    assert Write(v, factor, indent) == [OPEN_BRACKET] + WriteElems(v, factor, indent) + [CLOSE_BRACKET];
    hide *;
    ArrayTailIs0(v, factor, mi, ws);
    Regroup([OPEN_BRACKET], lead, Write(v.elems[0], factor, mi), ElemsFrom(v, 1, factor, mi), ws, [CLOSE_BRACKET]);
  }

  lemma ArrayTailIs0(v: Value, factor: nat, mi: nat, ws: Text)
    requires v.Arr? && v.elems != []
    ensures ElemsTail(v, 0, factor, mi, ws) == ElemsFrom(v, 1, factor, mi) + ws + [CLOSE_BRACKET]
  {
  }

  lemma ArrayBody(v: Value, factor: nat, indent: nat) returns (mi: nat, lead: Text, ws: Text)
    requires v.Arr? && v.elems != [] && (factor == 0 ==> indent == 0)
    ensures factor == 0 ==> mi == 0
    ensures Blank(lead) && Closing(ws)
    ensures WriteElems(v, factor, indent) == lead + Write(v.elems[0], factor, mi) + ElemsFrom(v, 1, factor, mi) + ws
  {
    LeadBlank(factor, indent);
    hide Write, Lead;
    if |v.elems| == 1 {
      mi, lead, ws := indent, [], [];
      var w := Write(v.elems[0], factor, indent);
      assert [] + w + [] + [] == w;
    } else {
      LeadBlank(factor, indent + factor);
      mi, lead, ws := indent + factor, Lead(factor, indent + factor), Lead(factor, indent);
      ElemsStart(v, factor, mi);
      hide ElemsFrom;
    }
  }

  lemma ElemsStart(v: Value, factor: nat, mi: nat)
    requires v.Arr? && v.elems != []
    ensures ElemsFrom(v, 0, factor, mi) == Lead(factor, mi) + Write(v.elems[0], factor, mi)
            + ElemsFrom(v, 1, factor, mi)
  {
    hide Write, Lead;
    assert [] + Lead(factor, mi) == Lead(factor, mi);
  }

  lemma EntriesStart(v: Value, factor: nat, mi: nat)
    requires v.Obj? && v.entries != []
    ensures EntriesFrom(v, 0, factor, mi) == Lead(factor, mi) + Member(v, 0, factor, mi) + EntriesFrom(v, 1, factor, mi)
  {
    hide Member, Lead;
    assert [] + Lead(factor, mi) == Lead(factor, mi);
  }

  lemma ObjectShape(v: Value, factor: nat, indent: nat) returns (mi: nat, lead: Text, ws: Text)
    requires v.Obj? && v.entries != [] && (factor == 0 ==> indent == 0)
    ensures factor == 0 ==> mi == 0
    ensures Blank(lead) && Closing(ws)
    ensures Write(v, factor, indent) == [OPEN_BRACE]
            + (lead + (Member(v, 0, factor, mi) + EntriesTail(v, 0, factor, mi, ws)))
  {
    mi, lead, ws := ObjectBody(v, factor, indent);
    assert Write(v, factor, indent) == [OPEN_BRACE] + WriteEntries(v, factor, indent) + [CLOSE_BRACE];
    hide *;
    ObjectTailIs0(v, factor, mi, ws);
    Regroup([OPEN_BRACE], lead, Member(v, 0, factor, mi), EntriesFrom(v, 1, factor, mi), ws, [CLOSE_BRACE]);
  }

  lemma ObjectTailIs0(v: Value, factor: nat, mi: nat, ws: Text)
    requires v.Obj? && v.entries != []
    ensures EntriesTail(v, 0, factor, mi, ws) == EntriesFrom(v, 1, factor, mi) + ws + [CLOSE_BRACE]
  {
  }

  lemma ObjectBody(v: Value, factor: nat, indent: nat) returns (mi: nat, lead: Text, ws: Text)
    requires v.Obj? && v.entries != [] && (factor == 0 ==> indent == 0)
    ensures factor == 0 ==> mi == 0
    ensures Blank(lead) && Closing(ws)
    ensures WriteEntries(v, factor, indent) == lead + Member(v, 0, factor, mi) + EntriesFrom(v, 1, factor, mi) + ws
  {
    LeadBlank(factor, indent);
    hide Write, Member, Lead;
    if |v.entries| == 1 {
      mi, lead, ws := indent, [], [];
      var w := Member(v, 0, factor, indent);
      assert [] + w + [] + [] == w;
    } else {
      LeadBlank(factor, indent + factor);
      mi, lead, ws := indent + factor, Lead(factor, indent + factor), Lead(factor, indent);
      EntriesStart(v, factor, mi);
      hide EntriesFrom;
    }
  }

  /** Behind the last element: the close. */
  lemma TailEnds(s: Text, e: nat, ws: Text, close: Unit)
    requires Holds(s, e, ws + [close]) && Closing(ws) && (close == CLOSE_BRACKET || close == CLOSE_BRACE)
    ensures EndsUnquoted(At(s, e)) && CleanPos(s, e) == e + |ws| && At(s, e + |ws|) == close
  {
    HoldsSplit(s, e, ws, [close]);
    HoldsAt(s, e, ws + [close], 0);
    HoldsAt(s, e + |ws|, [close], 0);
    CleanBlank(s, e, ws);
  }

  /** Behind any other element: a comma, and the next element after white space. */
  lemma TailGoesOn(s: Text, e: nat, lead: Text, more: Text)
    requires Holds(s, e, [COMMA] + (lead + more)) && Blank(lead)
    ensures At(s, e) == COMMA && e + 1 + |lead| <= |s| && Holds(s, e + 1 + |lead|, more)
    ensures CleanPos(s, e + 1) == CleanPos(s, e + 1 + |lead|)
  {
    hide *;
    HoldsThree(s, e, [COMMA], lead, more);
    HoldsAt(s, e, [COMMA], 0);
    CleanBlank(s, e + 1, lead);
  }

  // ---- trees ----

  /** What may stand behind the last element or member: nothing, or white space starting a line. */
  predicate Closing(ws: Text) { Blank(ws) && (ws == [] || ws[0] == NEWLINE) }

  lemma WellFormedElem(v: Value, i: nat)
    requires v.Arr? && WellFormed(v) && i < |v.elems|
    ensures WellFormed(v.elems[i])
  {
  }

  lemma WellFormedEntry(v: Value, i: nat)
    requires v.Obj? && WellFormed(v) && i < |v.entries|
    ensures WellFormed(v.entries[i].value) && !HasKey(v.entries[..i], v.entries[i].key)
  {
  }

  lemma StartsMeans(c: Unit)
    requires Starts(c)
    ensures c > SPACE && c != CLOSE_BRACKET && c != CLOSE_BRACE && c != COMMA
  {
  }

  lemma QuoteStarts()
    ensures QUOTE > SPACE && QUOTE != CLOSE_BRACE && COLON > SPACE && COMMA > SPACE
  {
  }

  /** A character that ends no array or object and separates nothing: a value or a key may begin with it. */
  predicate Starts(c: Unit) { c > SPACE && c != CLOSE_BRACKET && c != CLOSE_BRACE && c != COMMA }

  /** Reading the text of a value, wherever it stands, gives the value and stops behind the text. */
  lemma {:induction false} ValueRead(v: Value, factor: nat, indent: nat, s: Text, p: nat, doubles: Doubles)
    requires WellFormed(v) && (factor == 0 ==> indent == 0)
    requires Holds(s, p, Write(v, factor, indent)) && EndsUnquoted(At(s, p + |Write(v, factor, indent)|))
    ensures ParseValue(s, p, doubles) == Parsed(v, p + |Write(v, factor, indent)|)
    ensures Starts(At(s, p))
    decreases v, 3, 0
  {
    match v
    case Arr(elems) =>
      ArrayRead(v, factor, indent, s, p, doubles);
      ValueIsArray(s, p, doubles);
    case Obj(entries) =>
      ObjectRead(v, factor, indent, s, p, doubles);
      ValueIsObject(s, p, doubles);
    case _ => LeafRead(v, factor, indent, s, p, doubles);
  }

  lemma LeafRead(v: Value, factor: nat, indent: nat, s: Text, p: nat, doubles: Doubles)
    requires WellFormed(v) && !v.Arr? && !v.Obj?
    requires Holds(s, p, Write(v, factor, indent)) && EndsUnquoted(At(s, p + |Write(v, factor, indent)|))
    ensures ParseValue(s, p, doubles) == Parsed(v, p + |Write(v, factor, indent)|)
    ensures Starts(At(s, p))
  {
    if v.Str? {
      QuoteIs(v, factor, indent);
    } else {
      LeafIsPlain(v, factor, indent, doubles);
    }
    hide *;
    if v.Str? {
      QuoteRead(v.text, s, p, doubles);
      HoldsAt(s, p, Quote(v.text), 0);
    } else {
      WordRead(s, p, Write(v, factor, indent), doubles);
      HoldsAt(s, p, Write(v, factor, indent), 0);
    }
  }

  lemma QuoteIs(v: Value, factor: nat, indent: nat)
    requires v.Str?
    ensures Write(v, factor, indent) == Quote(v.text) && Quote(v.text) != [] && Starts(Quote(v.text)[0])
  {
    hide EscapedFrom;
  }

  lemma LeafIsPlain(v: Value, factor: nat, indent: nat, doubles: Doubles)
    requires WellFormed(v) && !v.Arr? && !v.Obj? && !v.Str?
    ensures Write(v, factor, indent) != [] && Plain(Write(v, factor, indent)) && Starts(Write(v, factor, indent)[0])
    ensures StringToValue(Write(v, factor, indent), doubles) == v
  {
    if v.Int? {
      LongValue(v.n, doubles);
      LongStarts(v.n);
      hide LongText, StringToValue, Plain;
    } else {
      WordsPlain(doubles);
      hide StringToValue, Plain;
    }
  }

  lemma LongStarts(n: int)
    requires LONG_MIN <= n <= LONG_MAX
    ensures LongText(n) != [] && Starts(LongText(n)[0])
  {
    LongRead(n);
    hide LongText;
  }

  lemma WordsPlain(doubles: Doubles)
    ensures Plain(NULL_TEXT) && Plain(TRUE_TEXT) && Plain(FALSE_TEXT)
    ensures StringToValue(NULL_TEXT, doubles) == Null
    ensures StringToValue(TRUE_TEXT, doubles) == Bool(true) && StringToValue(FALSE_TEXT, doubles) == Bool(false)
  {
    assert TRUE_TEXT[0] != FALSE_TEXT[0];
    assert |NULL_TEXT| != |FALSE_TEXT| && NULL_TEXT[0] == 110 && TRUE_TEXT[0] == 116;
    hide ParseLong;
  }

  lemma {:induction false} ArrayRead(v: Value, factor: nat, indent: nat, s: Text, p: nat, doubles: Doubles)
    requires v.Arr? && WellFormed(v) && (factor == 0 ==> indent == 0)
    requires Holds(s, p, Write(v, factor, indent))
    ensures ParseArray(s, p, doubles) == Parsed(v, p + |Write(v, factor, indent)|)
    ensures p < |s| && At(s, p) == OPEN_BRACKET
    decreases v, 2, 0
  {
    hide *;
    if v.elems == [] {
      EmptyArrayRead(v, factor, indent, s, p, doubles);
    } else {
      var mi, lead, ws := ArrayShape(v, factor, indent);
      var w := Write(v.elems[0], factor, mi) + ElemsTail(v, 0, factor, mi, ws);
      HoldsAt(s, p, Write(v, factor, indent), 0);
      HoldsThree(s, p, [OPEN_BRACKET], lead, w);
      CleanBlank(s, p + 1, lead);
      var u := p + 1 + |lead|;
      ElemsRead(v, 0, factor, mi, ws, s, u, doubles);
      StartsMeans(At(s, u));
      CleanHere(s, u);
      ArrayStart(s, p, u, doubles);
      assert v.elems[..0] == [];
    }
  }

  lemma EmptyArrayRead(v: Value, factor: nat, indent: nat, s: Text, p: nat, doubles: Doubles)
    requires v == Arr([]) && Holds(s, p, Write(v, factor, indent))
    ensures p < |s| && At(s, p) == OPEN_BRACKET
            && ParseArray(s, p, doubles) == Parsed(v, p + |Write(v, factor, indent)|)
  {
    assert Write(v, factor, indent) == [OPEN_BRACKET, CLOSE_BRACKET];
    hide ParseArray;
    HoldsAt(s, p, Write(v, factor, indent), 0);
    HoldsAt(s, p, Write(v, factor, indent), 1);
    CleanHere(s, p + 1);
    ArrayStart(s, p, p + 1, doubles);
  }

  /** From the start of element i to the closing bracket. */
  lemma {:induction false} ElemsRead(v: Value, i: nat, factor: nat, mi: nat, ws: Text, s: Text, p: nat,
                                     doubles: Doubles)
    requires v.Arr? && WellFormed(v) && i < |v.elems| && (factor == 0 ==> mi == 0) && Closing(ws)
    requires Holds(s, p, Write(v.elems[i], factor, mi) + ElemsTail(v, i, factor, mi, ws))
    ensures ParseElems(s, p, v.elems[..i], doubles)
            == Parsed(v, p + |Write(v.elems[i], factor, mi) + ElemsTail(v, i, factor, mi, ws)|)
    ensures Starts(At(s, p))
    decreases v, 1, |v.elems| - i
  {
    hide *;
    var w := Write(v.elems[i], factor, mi);
    var e := p + |w|;
    HoldsSplit(s, p, w, ElemsTail(v, i, factor, mi, ws));
    WellFormedElem(v, i);
    assert v.elems[..i] + [v.elems[i]] == v.elems[..i + 1];
    if i + 1 == |v.elems| {
      LastElem(v, i, factor, mi, ws);
      TailEnds(s, e, ws, CLOSE_BRACKET);
      ValueRead(v.elems[i], factor, mi, s, p, doubles);
      StartsMeans(At(s, p));
      ElemHere(s, p, doubles);
      ElemsLast(s, p, v.elems[..i], v.elems[i], e, doubles);
      assert v.elems[..i + 1] == v.elems;
    } else {
      var u := NextElem(v, i, factor, mi, ws, s, e);
      ValueRead(v.elems[i], factor, mi, s, p, doubles);
      StartsMeans(At(s, p));
      ElemHere(s, p, doubles);
      ElemsRead(v, i + 1, factor, mi, ws, s, u, doubles);
      StartsMeans(At(s, u));
      QuoteStarts();
      CleanHere(s, u);
      CleanHere(s, e);
      ElemsMore(s, p, v.elems[..i], v.elems[i], e, u, doubles);
    }
  }

  lemma LastElem(v: Value, i: nat, factor: nat, mi: nat, ws: Text)
    requires v.Arr? && i + 1 == |v.elems|
    ensures ElemsTail(v, i, factor, mi, ws) == ws + [CLOSE_BRACKET]
  {
  }

  /** Behind element i comes a comma; the next element starts at u. */
  lemma NextElem(v: Value, i: nat, factor: nat, mi: nat, ws: Text, s: Text, e: nat) returns (u: nat)
    requires v.Arr? && i + 1 < |v.elems| && Holds(s, e, ElemsTail(v, i, factor, mi, ws))
    ensures At(s, e) == COMMA && EndsUnquoted(At(s, e)) && e < |s| && u <= |s| && CleanPos(s, e + 1) == CleanPos(s, u)
    ensures Holds(s, u, Write(v.elems[i + 1], factor, mi) + ElemsTail(v, i + 1, factor, mi, ws))
    ensures e + |ElemsTail(v, i, factor, mi, ws)|
            == u + |Write(v.elems[i + 1], factor, mi) + ElemsTail(v, i + 1, factor, mi, ws)|
  {
    hide Holds, Write, Lead, CleanPos, At;
    var lead := Lead(factor, mi);
    LeadBlank(factor, mi);
    ElemsTailIs(v, i, factor, mi, ws);
    hide ElemsTail, Blank;
    TailGoesOn(s, e, lead, Write(v.elems[i + 1], factor, mi) + ElemsTail(v, i + 1, factor, mi, ws));
    u := e + 1 + |lead|;
  }

  lemma ElemsTailIs(v: Value, i: nat, factor: nat, mi: nat, ws: Text)
    requires v.Arr? && i + 1 < |v.elems|
    ensures ElemsTail(v, i, factor, mi, ws)
            == [COMMA] + (Lead(factor, mi) + (Write(v.elems[i + 1], factor, mi) + ElemsTail(v, i + 1, factor, mi, ws)))
  {
    hide Write, Lead;
    var lead, w, rest := Lead(factor, mi), Write(v.elems[i + 1], factor, mi), ElemsFrom(v, i + 2, factor, mi);
    assert ElemsFrom(v, i + 1, factor, mi) == [COMMA] + lead + w + rest;
    hide ElemsFrom;
    CommaRegroup(lead, w, rest, ws, [CLOSE_BRACKET]);
  }

  lemma CommaRegroup(a: Text, b: Text, c: Text, d: Text, e: Text)
    ensures [COMMA] + a + b + c + d + e == [COMMA] + (a + (b + (c + d + e)))
  {
  }

  lemma {:induction false} ObjectRead(v: Value, factor: nat, indent: nat, s: Text, p: nat, doubles: Doubles)
    requires v.Obj? && WellFormed(v) && (factor == 0 ==> indent == 0)
    requires Holds(s, p, Write(v, factor, indent))
    ensures ParseObject(s, p, doubles) == Parsed(v, p + |Write(v, factor, indent)|)
    ensures p < |s| && At(s, p) == OPEN_BRACE
    decreases v, 2, 0
  {
    hide *;
    if v.entries == [] {
      EmptyObjectRead(v, factor, indent, s, p, doubles);
    } else {
      var mi, lead, ws := ObjectShape(v, factor, indent);
      var w := Member(v, 0, factor, mi) + EntriesTail(v, 0, factor, mi, ws);
      HoldsAt(s, p, Write(v, factor, indent), 0);
      HoldsThree(s, p, [OPEN_BRACE], lead, w);
      CleanBlank(s, p + 1, lead);
      var u := p + 1 + |lead|;
      EntriesRead(v, 0, factor, mi, ws, s, u, doubles);
      QuoteStarts();
      CleanHere(s, u);
      ObjectStart(s, p, u, doubles);
      assert v.entries[..0] == [];
    }
  }

  lemma EmptyObjectRead(v: Value, factor: nat, indent: nat, s: Text, p: nat, doubles: Doubles)
    requires v == Obj([]) && Holds(s, p, Write(v, factor, indent))
    ensures p < |s| && At(s, p) == OPEN_BRACE && ParseObject(s, p, doubles) == Parsed(v, p + |Write(v, factor, indent)|)
  {
    assert Write(v, factor, indent) == [OPEN_BRACE, CLOSE_BRACE];
    hide ParseObject;
    HoldsAt(s, p, Write(v, factor, indent), 0);
    HoldsAt(s, p, Write(v, factor, indent), 1);
    CleanHere(s, p + 1);
    ObjectStart(s, p, p + 1, doubles);
  }

  /** A key, the colon, and the value. */
  lemma {:induction false} MemberRead(v: Value, i: nat, factor: nat, mi: nat, s: Text, p: nat, doubles: Doubles)
    requires v.Obj? && WellFormed(v) && i < |v.entries| && (factor == 0 ==> mi == 0)
    requires Holds(s, p, Member(v, i, factor, mi)) && EndsUnquoted(At(s, p + |Member(v, i, factor, mi)|))
    ensures At(s, p) == QUOTE && ParseMember(s, p, doubles) == Parsed(v.entries[i], p + |Member(v, i, factor, mi)|)
    decreases v, 0, 0
  {
    hide *;
    var k, gap, w := Quote(v.entries[i].key), Gap(factor), Write(v.entries[i].value, factor, mi);
    var colon := p + |k|;
    MemberIs(v, i, factor, mi);
    WellFormedEntry(v, i);
    HoldsSplit(s, p, k, [COLON] + (gap + w));
    HoldsAt(s, p, k, 0);
    QuoteRead(v.entries[i].key, s, p, doubles);
    HoldsThree(s, colon, [COLON], gap, w);
    HoldsAt(s, colon, [COLON], 0);
    LeadBlank(factor, 0);
    CleanBlank(s, colon + 1, gap);
    ParseSkips(s, colon + 1, colon + 1 + |gap|, doubles);
    ValueRead(v.entries[i].value, factor, mi, s, colon + 1 + |gap|, doubles);
    MemberStep(s, p, v.entries[i].key, colon, v.entries[i].value, p + |Member(v, i, factor, mi)|, doubles);
  }

  lemma MemberIs(v: Value, i: nat, factor: nat, mi: nat)
    requires v.Obj? && i < |v.entries|
    ensures Member(v, i, factor, mi) == Quote(v.entries[i].key)
            + ([COLON] + (Gap(factor) + Write(v.entries[i].value, factor, mi)))
    ensures Quote(v.entries[i].key) != [] && Quote(v.entries[i].key)[0] == QUOTE
  {
    hide Gap, Write, EscapedFrom;
  }

  lemma MemberStep(s: Text, p: nat, key: Text, colon: nat, v: Value, e: nat, doubles: Doubles)
    requires p <= |s| && ParseValue(s, p, doubles) == Parsed(Str(key), colon)
    requires colon < |s| && At(s, colon) == COLON && ParseValue(s, colon + 1, doubles) == Parsed(v, e)
    ensures ParseMember(s, p, doubles) == Parsed(Entry(key, v), e)
  {
    CleanHere(s, colon);
    hide ParseValue, CleanPos, At;
  }

  /** From the start of member i to the closing brace. */
  lemma {:induction false} EntriesRead(v: Value, i: nat, factor: nat, mi: nat, ws: Text, s: Text, p: nat,
                                       doubles: Doubles)
    requires v.Obj? && WellFormed(v) && i < |v.entries| && (factor == 0 ==> mi == 0) && Closing(ws)
    requires Holds(s, p, Member(v, i, factor, mi) + EntriesTail(v, i, factor, mi, ws))
    ensures ParseEntries(s, p, v.entries[..i], doubles)
            == Parsed(v, p + |Member(v, i, factor, mi) + EntriesTail(v, i, factor, mi, ws)|)
    ensures At(s, p) == QUOTE
    decreases v, 1, |v.entries| - i
  {
    hide *;
    var w := Member(v, i, factor, mi);
    var e, entry := p + |w|, v.entries[i];
    HoldsSplit(s, p, w, EntriesTail(v, i, factor, mi, ws));
    WellFormedEntry(v, i);
    QuoteStarts();
    assert v.entries[..i] + [entry] == v.entries[..i + 1];
    if i + 1 == |v.entries| {
      LastMember(v, i, factor, mi, ws);
      TailEnds(s, e, ws, CLOSE_BRACE);
      MemberRead(v, i, factor, mi, s, p, doubles);
      CleanHere(s, p);
      EntriesLast(s, p, v.entries[..i], entry, e, doubles);
      assert v.entries[..i + 1] == v.entries;
    } else {
      var u := NextMember(v, i, factor, mi, ws, s, e);
      MemberRead(v, i, factor, mi, s, p, doubles);
      EntriesRead(v, i + 1, factor, mi, ws, s, u, doubles);
      CleanHere(s, u);
      CleanHere(s, p);
      CleanHere(s, e);
      EntriesMore(s, p, v.entries[..i], entry, e, u, doubles);
    }
  }

  lemma LastMember(v: Value, i: nat, factor: nat, mi: nat, ws: Text)
    requires v.Obj? && i + 1 == |v.entries|
    ensures EntriesTail(v, i, factor, mi, ws) == ws + [CLOSE_BRACE]
  {
  }

  /** Behind member i comes a comma; the next member starts at u. */
  lemma NextMember(v: Value, i: nat, factor: nat, mi: nat, ws: Text, s: Text, e: nat) returns (u: nat)
    requires v.Obj? && i + 1 < |v.entries| && Holds(s, e, EntriesTail(v, i, factor, mi, ws))
    ensures At(s, e) == COMMA && EndsUnquoted(At(s, e)) && e < |s| && u <= |s| && CleanPos(s, e + 1) == CleanPos(s, u)
    ensures Holds(s, u, Member(v, i + 1, factor, mi) + EntriesTail(v, i + 1, factor, mi, ws))
    ensures e + |EntriesTail(v, i, factor, mi, ws)|
            == u + |Member(v, i + 1, factor, mi) + EntriesTail(v, i + 1, factor, mi, ws)|
  {
    hide Holds, Member, Lead, CleanPos, At;
    var lead := Lead(factor, mi);
    LeadBlank(factor, mi);
    EntriesTailIs(v, i, factor, mi, ws);
    hide EntriesTail, Blank;
    TailGoesOn(s, e, lead, Member(v, i + 1, factor, mi) + EntriesTail(v, i + 1, factor, mi, ws));
    u := e + 1 + |lead|;
  }

  lemma EntriesTailIs(v: Value, i: nat, factor: nat, mi: nat, ws: Text)
    requires v.Obj? && i + 1 < |v.entries|
    ensures EntriesTail(v, i, factor, mi, ws)
            == [COMMA] + (Lead(factor, mi) + (Member(v, i + 1, factor, mi) + EntriesTail(v, i + 1, factor, mi, ws)))
  {
    hide Member, Lead;
    var lead, w, rest := Lead(factor, mi), Member(v, i + 1, factor, mi), EntriesFrom(v, i + 2, factor, mi);
    assert EntriesFrom(v, i + 1, factor, mi) == [COMMA] + lead + w + rest;
    hide EntriesFrom;
    CommaRegroup(lead, w, rest, ws, [CLOSE_BRACE]);
  }

  /** toString(indentFactor), then new JSONObject(text). */
  lemma ObjectRoundTrip(v: Value, factor: nat, doubles: Doubles)
    requires v.Obj? && WellFormed(v)
    ensures ParseObject(Write(v, factor, 0), 0, doubles) == Parsed(v, |Write(v, factor, 0)|)
  {
    ObjectRead(v, factor, 0, Write(v, factor, 0), 0, doubles);
  }

  /** toString(indentFactor), then new JSONArray(text). */
  lemma ArrayRoundTrip(v: Value, factor: nat, doubles: Doubles)
    requires v.Arr? && WellFormed(v)
    ensures ParseArray(Write(v, factor, 0), 0, doubles) == Parsed(v, |Write(v, factor, 0)|)
  {
    ArrayRead(v, factor, 0, Write(v, factor, 0), 0, doubles);
  }
}
