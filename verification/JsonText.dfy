/**
 Text as Java strings hold it (UTF-16 code units), JSON values, and the printer of
 JSONObject.java and JSONArray.java as functions.
 */
module JsonText {

  type Unit = c: int | 0 <= c < 0x1_0000
  type Text = seq<Unit>

  const SPACE: Unit := 32
  const QUOTE: Unit := 34        // "
  const APOSTROPHE: Unit := 39   // '
  const PLUS: Unit := 43
  const COMMA: Unit := 44
  const MINUS: Unit := 45
  const DOT: Unit := 46
  const SLASH: Unit := 47
  const ZERO: Unit := 48
  const COLON: Unit := 58
  const SEMICOLON: Unit := 59
  const LESS: Unit := 60
  const OPEN_BRACKET: Unit := 91
  const BACKSLASH: Unit := 92
  const CLOSE_BRACKET: Unit := 93
  const OPEN_BRACE: Unit := 123
  const CLOSE_BRACE: Unit := 125
  const NEWLINE: Unit := 10
  const RETURN: Unit := 13

  const TRUE_TEXT: Text := [116, 114, 117, 101]
  const FALSE_TEXT: Text := [102, 97, 108, 115, 101]
  const NULL_TEXT: Text := [110, 117, 108, 108]

  const LONG_MIN := -0x8000_0000_0000_0000
  const LONG_MAX := 0x7FFF_FFFF_FFFF_FFFF

  /**
   What org.json builds. Entries are listed in the order the map iterates; a floating-point
   number is known by its two texts, toString's and the one the printer writes.
   */
  datatype Value =
    | Null
    | Bool(b: bool)
    | Int(n: int)
    | Decimal(shown: Text, written: Text)
    | Str(text: Text)
    | Arr(elems: seq<Value>)
    | Obj(entries: seq<Entry>)

  datatype Entry = Entry(key: Text, value: Value)

  // ---- numbers ----

  function Digits(n: nat): (t: Text)
    ensures t != []
  {
    if n < 10 then [ZERO + n] else Digits(n / 10) + [ZERO + n % 10]
  }

  /** Long.toString */
  function LongText(n: int): Text {
    if n < 0 then [MINUS] + Digits(-n) else Digits(n)
  }

  function HexDigit(d: int): Unit
    requires 0 <= d < 16
  {
    if d < 10 then ZERO + d else 97 + d - 10
  }

  /** Integer.toHexString */
  function HexText(n: nat): (t: Text)
    ensures t != []
  {
    if n < 16 then [HexDigit(n)] else HexText(n / 16) + [HexDigit(n % 16)]
  }

  function Zeros(n: nat): (t: Text)
    ensures |t| == n && forall i :: 0 <= i < n ==> t[i] == ZERO
  {
    if n == 0 then [] else [ZERO] + Zeros(n - 1)
  }

  // ---- strings ----

  /** The escape sequence of c, when b is the character before it (JSONObject.quote). */
  function Escape(b: Unit, c: Unit): Text {
    if c == BACKSLASH || c == QUOTE then [BACKSLASH, c]
    else if c == SLASH then if b == LESS then [BACKSLASH, c] else [c]
    else if c == 8 then [BACKSLASH, 98]
    else if c == 9 then [BACKSLASH, 116]
    else if c == 10 then [BACKSLASH, 110]
    else if c == 12 then [BACKSLASH, 102]
    else if c == 13 then [BACKSLASH, 114]
    else if c < SPACE || 0x80 <= c < 0xa0 || 0x2000 <= c < 0x2100 then
      var hhhh := HexText(c);
      [BACKSLASH, 117] + Zeros(if |hhhh| <= 4 then 4 - |hhhh| else 0) + hhhh
    else [c]
  }

  /** The characters of s from i on, escaped. */
  function EscapedFrom(s: Text, i: nat): Text
    requires i <= |s|
    decreases |s| - i
  {
    if i == |s| then [] else Escape(if i == 0 then 0 else s[i - 1], s[i]) + EscapedFrom(s, i + 1)
  }

  function Quote(s: Text): Text {
    [QUOTE] + EscapedFrom(s, 0) + [QUOTE]
  }

  // ---- values ----

  function Spaces(n: nat): (t: Text)
    ensures |t| == n && forall i :: 0 <= i < n ==> t[i] == SPACE
  {
    if n == 0 then [] else Spaces(n - 1) + [SPACE]
  }

  /** A new line when indenting, and the indentation. */
  function Lead(factor: nat, indent: nat): Text {
    (if factor > 0 then [NEWLINE] else []) + Spaces(indent)
  }

  function Gap(factor: nat): Text {
    if factor > 0 then [SPACE] else []
  }

  /** JSONObject.writeValue */
  function Write(v: Value, factor: nat, indent: nat): Text
    decreases v, 1, 0
  {
    match v
    case Null => NULL_TEXT
    case Bool(b) => if b then TRUE_TEXT else FALSE_TEXT
    case Int(n) => LongText(n)
    case Decimal(_, written) => written
    case Str(text) => Quote(text)
    case Arr(elems) => [OPEN_BRACKET] + WriteElems(v, factor, indent) + [CLOSE_BRACKET]
    case Obj(entries) => [OPEN_BRACE] + WriteEntries(v, factor, indent) + [CLOSE_BRACE]
  }

  /** What JSONArray.write puts between the brackets. */
  function WriteElems(v: Value, factor: nat, indent: nat): Text
    requires v.Arr?
    decreases v, 0, |v.elems| + 1
  {
    if v.elems == [] then []
    else if |v.elems| == 1 then Write(v.elems[0], factor, indent)
    else ElemsFrom(v, 0, factor, indent + factor) + Lead(factor, indent)
  }

  function ElemsFrom(v: Value, i: nat, factor: nat, indent: nat): Text
    requires v.Arr? && i <= |v.elems|
    decreases v, 0, |v.elems| - i
  {
    if i == |v.elems| then []
    else
      (if i > 0 then [COMMA] else []) + Lead(factor, indent) + Write(v.elems[i], factor, indent)
      + ElemsFrom(v, i + 1, factor, indent)
  }

  /** A key with its value. */
  function Member(v: Value, i: nat, factor: nat, indent: nat): Text
    requires v.Obj? && i < |v.entries|
    decreases v, 0, 0
  {
    Quote(v.entries[i].key) + [COLON] + Gap(factor) + Write(v.entries[i].value, factor, indent)
  }

  /** What JSONObject.write puts between the braces. */
  function WriteEntries(v: Value, factor: nat, indent: nat): Text
    requires v.Obj?
    decreases v, 0, |v.entries| + 2
  {
    if v.entries == [] then []
    else if |v.entries| == 1 then Member(v, 0, factor, indent)
    else EntriesFrom(v, 0, factor, indent + factor) + Lead(factor, indent)
  }

  function EntriesFrom(v: Value, i: nat, factor: nat, indent: nat): Text
    requires v.Obj? && i <= |v.entries|
    decreases v, 0, |v.entries| - i + 1
  {
    if i == |v.entries| then []
    else
      (if i > 0 then [COMMA] else []) + Lead(factor, indent) + Member(v, i, factor, indent)
      + EntriesFrom(v, i + 1, factor, indent)
  }

  /** Object.toString, which turns a value into a key. */
  function ToText(v: Value): Text {
    match v
    case Str(text) => text
    case Decimal(shown, _) => shown
    case _ => Write(v, 0, 0)
  }
}
