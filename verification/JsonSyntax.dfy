/**
 What the tokener and the recursive parser of org.json accept, as functions of the source text
 and a position in it. Reading past the end gives zero, as does a zero in the source; both end it.
 */
module JsonSyntax {
  import opened Wrappers
  import opened JsonText

  datatype Error =
    | UnterminatedString | IllegalEscape | SubstringBounds | NotHexadecimal
    | MissingValue | NoOpenBrace | NoCloseBrace | NoColon | DuplicateKey | NoCommaOrBrace
    | NoOpenBracket | NoCommaOrBracket

  /** What was read and the position behind it. */
  datatype Outcome<T> = Parsed(value: T, pos: nat) | Failed(error: Error)

  /** Double.valueOf: the two texts of the finite number that a text denotes, if it does. */
  type Doubles = Text -> Option<(Text, Text)>

  function At(s: Text, p: nat): Unit {
    if p < |s| then s[p] else 0
  }

  // ---- tokens ----

  /** The position of the character that nextClean returns. */
  function CleanPos(s: Text, p: nat): (q: nat)
    requires p <= |s|
    ensures p <= q <= |s| && (At(s, q) == 0 || At(s, q) > SPACE)
    decreases |s| - p
  {
    if At(s, p) == 0 || At(s, p) > SPACE then p else CleanPos(s, p + 1)
  }

  function HexValue(c: Unit): Option<nat> {
    if 48 <= c <= 57 then Some(c - 48)
    else if 65 <= c <= 70 then Some(c - 65 + 10)
    else if 97 <= c <= 102 then Some(c - 97 + 10)
    else None
  }

  function HexNumber(t: Text): Option<nat> {
    if t == [] then Some(0)
    else match (HexNumber(t[..|t| - 1]), HexValue(t[|t| - 1]))
      case (Some(n), Some(d)) => Some(16 * n + d)
      case _ => None
  }

  /** Integer.parseInt(t, 16): a sign is allowed. */
  function ParseHex(t: Text): Option<int> {
    if t == [] then None
    else if t[0] == MINUS || t[0] == PLUS then
      if |t| == 1 then None
      else match HexNumber(t[1..])
        case None => None
        case Some(n) => Some(if t[0] == MINUS then -(n as int) else n)
    else match HexNumber(t) case None => None case Some(n) => Some(n)
  }

  /** A cast to char keeps the low 16 bits. */
  function ToUnit(n: int): Unit { n % 0x1_0000 }

  function Unescape(c: Unit): Option<Unit> {
    if c == 98 then Some(8)
    else if c == 116 then Some(9)
    else if c == 110 then Some(10)
    else if c == 102 then Some(12)
    else if c == 114 then Some(13)
    else if c == QUOTE || c == APOSTROPHE || c == BACKSLASH || c == SLASH then Some(c)
    else None
  }

  /**
   nextString from position p on, the characters of acc having been read. A tokener that returned
   the end before, and has not stepped back since, refuses to read the digits of an escape.
   */
  function StringFrom(s: Text, p: nat, quote: Unit, acc: Text, ended: bool): (r: Outcome<Text>)
    requires p <= |s|
    ensures r.Parsed? ==> p < r.pos <= |s|
    decreases |s| - p
  {
    var c := At(s, p);
    if c == 0 || c == NEWLINE || c == RETURN then Failed(UnterminatedString)
    else if c == BACKSLASH then
      var d := At(s, p + 1);
      if d == 117 then
        if ended || At(s, p + 2) == 0 || At(s, p + 3) == 0 || At(s, p + 4) == 0 || At(s, p + 5) == 0 then
          Failed(SubstringBounds)
        else match ParseHex([At(s, p + 2), At(s, p + 3), At(s, p + 4), At(s, p + 5)])
          case None => Failed(NotHexadecimal)
          case Some(n) => StringFrom(s, p + 6, quote, acc + [ToUnit(n)], ended)
      else match Unescape(d)
        case None => Failed(IllegalEscape)
        case Some(u) => StringFrom(s, p + 2, quote, acc + [u], ended)
    else if c == quote then Parsed(acc, p + 1)
    else StringFrom(s, p + 1, quote, acc + [c], ended)
  }

  /** The characters that end unquoted text. */
  predicate EndsUnquoted(c: Unit) {
    c < SPACE || c in [COMMA, COLON, CLOSE_BRACKET, CLOSE_BRACE, SLASH, BACKSLASH, QUOTE, OPEN_BRACKET, OPEN_BRACE,
        SEMICOLON, 61, 35]
  }

  function UnquotedEnd(s: Text, p: nat): (q: nat)
    requires p <= |s|
    ensures p <= q <= |s| && EndsUnquoted(At(s, q))
    decreases |s| - p
  {
    if EndsUnquoted(At(s, p)) then p else UnquotedEnd(s, p + 1)
  }

  /** String.trim */
  function Trim(t: Text): Text {
    if t == [] then t
    else if t[0] <= SPACE then Trim(t[1..])
    else if t[|t| - 1] <= SPACE then Trim(t[..|t| - 1])
    else t
  }

  /** String.equalsIgnoreCase against a word of small letters; the long s has the capital S. */
  predicate IsWord(t: Text, word: Text) {
    |t| == |word| && forall i :: 0 <= i < |t| ==>
      t[i] == word[i] || (97 <= word[i] <= 122 && t[i] == word[i] - 32) || (word[i] == 115 && t[i] == 0x17F)
  }

  function DecimalNumber(t: Text): Option<nat> {
    if t == [] then Some(0)
    else
      var c := t[|t| - 1];
      match DecimalNumber(t[..|t| - 1])
      case Some(n) => if ZERO <= c <= ZERO + 9 then Some(10 * n + (c - ZERO)) else None
      case None => None
  }

  /** new Long(t), for the texts without a plus sign. */
  function ParseLong(t: Text): Option<int> {
    var negative := t != [] && t[0] == MINUS;
    var digits := if negative then t[1..] else t;
    if digits == [] then None
    else match DecimalNumber(digits)
      case None => None
      case Some(n) =>
        var value := if negative then -(n as int) else n;
        if LONG_MIN <= value <= LONG_MAX then Some(value) else None
  }

  /** JSONObject.stringToValue */
  function StringToValue(t: Text, doubles: Doubles): Value {
    if t == [] then Str(t)
    else if IsWord(t, TRUE_TEXT) then Bool(true)
    else if IsWord(t, FALSE_TEXT) then Bool(false)
    else if IsWord(t, NULL_TEXT) then Null
    else if ZERO <= t[0] <= ZERO + 9 || t[0] == MINUS then
      if DOT in t || 101 in t || 69 in t then
        match doubles(t)
        case Some((shown, written)) => Decimal(shown, written)
        case None => Str(t)
      else match ParseLong(t)
        case Some(n) => if t == LongText(n) then Int(n) else Str(t)
        case None => Str(t)
    else Str(t)
  }

  // ---- values ----

  predicate HasKey(entries: seq<Entry>, key: Text) {
    exists i :: 0 <= i < |entries| && entries[i].key == key
  }

  /** JSONTokener.nextValue */
  function ParseValue(s: Text, p: nat, doubles: Doubles): (r: Outcome<Value>)
    requires p <= |s|
    ensures r.Parsed? ==> p < r.pos <= |s|
    decreases |s| - p, 1
  {
    var q := CleanPos(s, p);
    var c := At(s, q);
    if c == QUOTE || c == APOSTROPHE then
      match StringFrom(s, q + 1, c, [], false)
      case Parsed(t, e) => Parsed(Str(t), e)
      case Failed(error) => Failed(error)
    else if c == OPEN_BRACE then ParseObject(s, q, doubles)
    else if c == OPEN_BRACKET then ParseArray(s, q, doubles)
    else
      var e := UnquotedEnd(s, q);
      var t := Trim(s[q..e]);
      if t == [] then Failed(MissingValue) else UnquotedValue(s, q, e, t, doubles)
  }

  /** nextValue on a tokener that may have returned the end before. */
  function ParseNext(s: Text, p: nat, doubles: Doubles, ended: bool): (r: Outcome<Value>)
    requires p <= |s|
    ensures r.Parsed? ==> p < r.pos <= |s|
  {
    var q := CleanPos(s, p);
    var c := At(s, q);
    if c == QUOTE || c == APOSTROPHE then
      match StringFrom(s, q + 1, c, [], ended)
      case Parsed(t, e) => Parsed(Str(t), e)
      case Failed(error) => Failed(error)
    else ParseValue(s, p, doubles)
  }

  /** A tokener that has not returned the end reads as the parser does. */
  lemma NotEnded(s: Text, p: nat, doubles: Doubles)
    requires p <= |s|
    ensures ParseNext(s, p, doubles, false) == ParseValue(s, p, doubles)
  {
    hide StringFrom, ParseObject, ParseArray, CleanPos;
  }

  function UnquotedValue(s: Text, q: nat, e: nat, t: Text, doubles: Doubles): (r: Outcome<Value>)
    requires q <= e <= |s| && t == Trim(s[q..e]) && t != []
    ensures r.Parsed? && q < r.pos == e
  {
    Parsed(StringToValue(t, doubles), e)
  }

  /** new JSONObject(tokener) */
  function ParseObject(s: Text, p: nat, doubles: Doubles): (r: Outcome<Value>)
    requires p <= |s|
    ensures r.Parsed? ==> p < r.pos <= |s|
    decreases |s| - p, 0
  {
    var q := CleanPos(s, p);
    if At(s, q) != OPEN_BRACE then Failed(NoOpenBrace)
    else ParseEntries(s, q + 1, [], doubles)
  }

  /** A key, a colon and a value. */
  function ParseMember(s: Text, p: nat, doubles: Doubles): (r: Outcome<Entry>)
    requires p <= |s|
    ensures r.Parsed? ==> p < r.pos <= |s|
    decreases |s| - p, 2
  {
    match ParseValue(s, p, doubles)
    case Failed(error) => Failed(error)
    case Parsed(k, e) =>
      var colon := CleanPos(s, e);
      if At(s, colon) != COLON then Failed(NoColon)
      else match ParseValue(s, colon + 1, doubles)
        case Failed(error) => Failed(error)
        case Parsed(v, e2) => Parsed(Entry(ToText(k), v), e2)
  }

  /** The loop of new JSONObject(tokener), the entries having been read. */
  function ParseEntries(s: Text, p: nat, entries: seq<Entry>, doubles: Doubles): (r: Outcome<Value>)
    requires p <= |s|
    ensures r.Parsed? ==> p < r.pos <= |s|
    decreases |s| - p, 3
  {
    var q := CleanPos(s, p);
    var c := At(s, q);
    if c == 0 then Failed(NoCloseBrace)
    else if c == CLOSE_BRACE then Parsed(Obj(entries), q + 1)
    else match ParseMember(s, q, doubles)
      case Failed(error) => Failed(error)
      case Parsed(entry, e) =>
        if HasKey(entries, entry.key) then Failed(DuplicateKey)
        else
          var t := CleanPos(s, e);
          if At(s, t) == SEMICOLON || At(s, t) == COMMA then
            var u := CleanPos(s, t + 1);
            if At(s, u) == CLOSE_BRACE then Parsed(Obj(entries + [entry]), u + 1)
            else ParseEntries(s, u, entries + [entry], doubles)
          else if At(s, t) == CLOSE_BRACE then Parsed(Obj(entries + [entry]), t + 1)
          else Failed(NoCommaOrBrace)
  }

  /** new JSONArray(tokener) */
  function ParseArray(s: Text, p: nat, doubles: Doubles): (r: Outcome<Value>)
    requires p <= |s|
    ensures r.Parsed? ==> p < r.pos <= |s|
    decreases |s| - p, 0
  {
    var q := CleanPos(s, p);
    if At(s, q) != OPEN_BRACKET then Failed(NoOpenBracket)
    else
      var u := CleanPos(s, q + 1);
      if At(s, u) == CLOSE_BRACKET then Parsed(Arr([]), u + 1) else ParseElems(s, u, [], doubles)
  }

  /** An element, or null in front of a comma. */
  function ParseElem(s: Text, p: nat, doubles: Doubles): (r: Outcome<Value>)
    requires p <= |s|
    ensures r.Parsed? ==> p <= r.pos <= |s|
    decreases |s| - p, 2
  {
    var q := CleanPos(s, p);
    if At(s, q) == COMMA then Parsed(Null, q) else ParseValue(s, q, doubles)
  }

  /** The loop of new JSONArray(tokener), the elements having been read. */
  function ParseElems(s: Text, p: nat, elems: seq<Value>, doubles: Doubles): (r: Outcome<Value>)
    requires p <= |s|
    ensures r.Parsed? ==> p < r.pos <= |s|
    decreases |s| - p, 3
  {
    match ParseElem(s, p, doubles)
    case Failed(error) => Failed(error)
    case Parsed(v, e) =>
      var t := CleanPos(s, e);
      if At(s, t) == COMMA then
        var u := CleanPos(s, t + 1);
        if At(s, u) == CLOSE_BRACKET then Parsed(Arr(elems + [v]), u + 1) else ParseElems(s, u, elems + [v], doubles)
      else if At(s, t) == CLOSE_BRACKET then Parsed(Arr(elems + [v]), t + 1)
      else Failed(NoCommaOrBracket)
  }
}
