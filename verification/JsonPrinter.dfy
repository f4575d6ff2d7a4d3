/** The printer of JSONObject.java and JSONArray.java in the form of the source: loops over a writer. */
module JsonPrinter {
  import opened JsonText
  import opened JsonSyntax
  import opened JsonRoundTrip
  import opened JsonTokener

  class Printer {
    /** What has been written. */
    var out: Text

    constructor ()
      ensures out == []
    {
      out := [];
    }

    /** JSONObject.quote */
    method WriteQuoted(s: Text)
      modifies this
      ensures out == old(out) + Quote(s)
    {
      hide Escape;
      if s == [] {
        out := out + [QUOTE, QUOTE];
        return;
      }
      var b: Unit;
      var c: Unit := 0;
      out := out + [QUOTE];
      var i := 0;
      while i < |s|
        invariant i <= |s| && c == if i == 0 then 0 else s[i - 1]
        invariant out + EscapedFrom(s, i) == old(out) + [QUOTE] + EscapedFrom(s, 0)
      {
        ghost var before := out;
        b := c;
        c := s[i];
        WriteEscaped(b, c);
        EscapeStep(s, i, before, out);
        i := i + 1;
      }
      assert EscapedFrom(s, i) == [];
      hide EscapedFrom;
      assert out == out + [];
      out := out + [QUOTE];
      Finish(out, old(out), [QUOTE], EscapedFrom(s, 0), [QUOTE]);
    }

    /** The switch in the loop of JSONObject.quote. */
    method WriteEscaped(b: Unit, c: Unit)
      modifies this
      ensures out == old(out) + Escape(b, c)
    {
      if c == BACKSLASH || c == QUOTE {
        out := out + [BACKSLASH];
        out := out + [c];
      } else if c == SLASH {
        if b == LESS {
          out := out + [BACKSLASH];
        }
        out := out + [c];
      } else if c == 8 {
        out := out + [BACKSLASH, 98];
      } else if c == 9 {
        out := out + [BACKSLASH, 116];
      } else if c == NEWLINE {
        out := out + [BACKSLASH, 110];
      } else if c == 12 {
        out := out + [BACKSLASH, 102];
      } else if c == RETURN {
        out := out + [BACKSLASH, 114];
      } else if c < SPACE || 0x80 <= c < 0xa0 || 0x2000 <= c < 0x2100 {
        out := out + [BACKSLASH, 117];
        var hhhh := HexText(c);
        FourDigitsRead(c);
        out := out + [ZERO, ZERO, ZERO, ZERO][..4 - |hhhh|];
        out := out + hhhh;
        assert [ZERO, ZERO, ZERO, ZERO][..4 - |hhhh|] == Zeros(4 - |hhhh|);
      } else {
        out := out + [c];
      }
    }

    /** JSONObject.indent */
    method Indent(indent: nat)
      modifies this
      ensures out == old(out) + Spaces(indent)
    {
      var i := 0;
      while i < indent
        invariant i <= indent && out == old(out) + Spaces(i)
      {
        out := out + [SPACE];
        i := i + 1;
      }
    }

    /** JSONObject.writeValue */
    method WriteValue(v: Value, factor: nat, indent: nat)
      modifies this
      ensures out == old(out) + Write(v, factor, indent)
      decreases v, 1, 0
    {
      match v {
        case Null => out := out + NULL_TEXT;
        case Bool(b) => out := out + if b then TRUE_TEXT else FALSE_TEXT;
        case Int(n) => out := out + LongText(n);
        case Decimal(_, written) => out := out + written;
        case Str(text) => WriteQuoted(text);
        case Arr(_) => WriteArray(v, factor, indent);
        case Obj(_) => WriteObject(v, factor, indent);
      }
    }

    /** The loop of JSONArray.write. */
    method WriteItems(v: Value, factor: nat, indent: nat)
      requires v.Arr?
      modifies this
      ensures out == old(out) + ElemsFrom(v, 0, factor, indent)
      decreases v, 0, 1
    {
      hide Write, Member, Spaces, ElemsFrom, EntriesFrom;
      var commanate := false;
      var i := 0;
      while i < |v.elems|
        invariant i <= |v.elems| && commanate == (i > 0)
        invariant out + ElemsFrom(v, i, factor, indent) == old(out) + ElemsFrom(v, 0, factor, indent)
      {
        ghost var before := out;
        if commanate {
          out := out + [COMMA];
        }
        if factor > 0 {
          out := out + [NEWLINE];
        }
        Indent(indent);
        WriteValue(v.elems[i], factor, indent);
        ElemsStep(v, i, factor, indent, before, out);
        commanate := true;
        i := i + 1;
      }
      NothingFrom(v, factor, indent);
      assert out == out + [];
    }

    /** JSONArray.write */
    method WriteArray(v: Value, factor: nat, indent: nat)
      requires v.Arr?
      modifies this
      ensures out == old(out) + Write(v, factor, indent)
      decreases v, 0, 2
    {
      BodyIs(v, factor, indent);
      hide Write, Member, Spaces, ElemsFrom, EntriesFrom, WriteElems, WriteEntries;
      var length := |v.elems|;
      out := out + [OPEN_BRACKET];
      ghost var begun := out;
      if length == 1 {
        WriteValue(v.elems[0], factor, indent);
      } else if length != 0 {
        WriteItems(v, factor, indent + factor);
        if factor > 0 {
          out := out + [NEWLINE];
        }
        Indent(indent);
        assert out == begun + (ElemsFrom(v, 0, factor, indent + factor) + Lead(factor, indent));
      } else {
      }
      assert out == begun + WriteElems(v, factor, indent);
      out := out + [CLOSE_BRACKET];
      Finish(out, old(out), [OPEN_BRACKET], WriteElems(v, factor, indent), [CLOSE_BRACKET]);
    }

    /** The key and the value of one entry. */
    method WriteMember(v: Value, i: nat, factor: nat, indent: nat)
      requires v.Obj? && i < |v.entries|
      modifies this
      ensures out == old(out) + Member(v, i, factor, indent)
      decreases v, 0, 0
    {
      WriteQuoted(v.entries[i].key);
      out := out + [COLON];
      if factor > 0 {
        out := out + [SPACE];
      }
      hide Quote, Write;
      WriteValue(v.entries[i].value, factor, indent);
    }

    /** The loop of JSONObject.write. */
    method WriteMembers(v: Value, factor: nat, indent: nat)
      requires v.Obj?
      modifies this
      ensures out == old(out) + EntriesFrom(v, 0, factor, indent)
      decreases v, 0, 1
    {
      hide Write, Member, Spaces, ElemsFrom, EntriesFrom;
      var commanate := false;
      var i := 0;
      while i < |v.entries|
        invariant i <= |v.entries| && commanate == (i > 0)
        invariant out + EntriesFrom(v, i, factor, indent) == old(out) + EntriesFrom(v, 0, factor, indent)
      {
        ghost var before := out;
        if commanate {
          out := out + [COMMA];
        }
        if factor > 0 {
          out := out + [NEWLINE];
        }
        Indent(indent);
        WriteMember(v, i, factor, indent);
        EntriesStep(v, i, factor, indent, before, out);
        commanate := true;
        i := i + 1;
      }
      NothingFrom(v, factor, indent);
      assert out == out + [];
    }

    /** JSONObject.write */
    method WriteObject(v: Value, factor: nat, indent: nat)
      requires v.Obj?
      modifies this
      ensures out == old(out) + Write(v, factor, indent)
      decreases v, 0, 2
    {
      BodyIs(v, factor, indent);
      hide Write, Member, Spaces, ElemsFrom, EntriesFrom, WriteElems, WriteEntries;
      var length := |v.entries|;
      out := out + [OPEN_BRACE];
      ghost var begun := out;
      if length == 1 {
        WriteMember(v, 0, factor, indent);
      } else if length != 0 {
        WriteMembers(v, factor, indent + factor);
        if factor > 0 {
          out := out + [NEWLINE];
        }
        Indent(indent);
        assert out == begun + (EntriesFrom(v, 0, factor, indent + factor) + Lead(factor, indent));
      } else {
      }
      assert out == begun + WriteEntries(v, factor, indent);
      out := out + [CLOSE_BRACE];
      Finish(out, old(out), [OPEN_BRACE], WriteEntries(v, factor, indent), [CLOSE_BRACE]);
    }
  }

  /** Behind the last element nothing is left. */
  lemma NothingFrom(v: Value, factor: nat, indent: nat)
    requires v.Arr? || v.Obj?
    ensures v.Arr? ==> ElemsFrom(v, |v.elems|, factor, indent) == []
    ensures v.Obj? ==> EntriesFrom(v, |v.entries|, factor, indent) == []
  {
  }

  function ArrayBody(v: Value, factor: nat, indent: nat): Text
    requires v.Arr?
  {
    if v.elems == [] then []
    else if |v.elems| == 1 then Write(v.elems[0], factor, indent)
    else ElemsFrom(v, 0, factor, indent + factor) + Lead(factor, indent)
  }

  function ObjectBody(v: Value, factor: nat, indent: nat): Text
    requires v.Obj?
  {
    if v.entries == [] then []
    else if |v.entries| == 1 then Member(v, 0, factor, indent)
    else EntriesFrom(v, 0, factor, indent + factor) + Lead(factor, indent)
  }

  /** The three cases of the printer. */
  lemma BodyIs(v: Value, factor: nat, indent: nat)
    requires v.Arr? || v.Obj?
    ensures v.Arr? ==> Write(v, factor, indent) == [OPEN_BRACKET] + WriteElems(v, factor, indent) + [CLOSE_BRACKET]
    ensures v.Obj? ==> Write(v, factor, indent) == [OPEN_BRACE] + WriteEntries(v, factor, indent) + [CLOSE_BRACE]
    ensures v.Arr? ==> WriteElems(v, factor, indent) == ArrayBody(v, factor, indent)
    ensures v.Obj? ==> WriteEntries(v, factor, indent) == ObjectBody(v, factor, indent)
  {
  }

  lemma Finish(out: Text, start: Text, open: Text, body: Text, close: Text)
    requires out == start + open + body + close
    ensures out == start + (open + body + close)
  {
  }

  lemma EscapeStep(s: Text, i: nat, before: Text, after: Text)
    requires i < |s| && after == before + Escape(if i == 0 then 0 else s[i - 1], s[i])
    ensures after + EscapedFrom(s, i + 1) == before + EscapedFrom(s, i)
  {
    hide Escape;
  }

  lemma ElemsStep(v: Value, i: nat, factor: nat, indent: nat, before: Text, after: Text)
    requires v.Arr? && i < |v.elems|
    requires after == before + (if i > 0 then [COMMA] else []) + Lead(factor, indent)
             + Write(v.elems[i], factor, indent)
    ensures after + ElemsFrom(v, i + 1, factor, indent) == before + ElemsFrom(v, i, factor, indent)
  {
    hide Lead, Write;
  }

  lemma EntriesStep(v: Value, i: nat, factor: nat, indent: nat, before: Text, after: Text)
    requires v.Obj? && i < |v.entries|
    requires after == before + (if i > 0 then [COMMA] else []) + Lead(factor, indent) + Member(v, i, factor, indent)
    ensures after + EntriesFrom(v, i + 1, factor, indent) == before + EntriesFrom(v, i, factor, indent)
  {
    hide Lead, Member;
  }

  /** toString(indentFactor), and parsing the text again. */
  method PrintAndParse(v: Value, factor: nat, doubles: Doubles) returns (text: Text, r: Outcome<Value>)
    requires (v.Obj? || v.Arr?) && WellFormed(v)
    ensures r == Parsed(v, |text|)
  {
    hide Write, ParseObject, ParseArray, WellFormed;
    var printer := new Printer();
    printer.WriteValue(v, factor, 0);
    text := printer.out;
    assert text == Write(v, factor, 0) by { assert [] + Write(v, factor, 0) == Write(v, factor, 0); }
    var tokener := new Tokener(text, doubles);
    assert tokener.Ready();
    if v.Obj? {
      ObjectRoundTrip(v, factor, doubles);
      r := tokener.ReadObject();
    } else {
      ArrayRoundTrip(v, factor, doubles);
      r := tokener.ReadArray();
    }
  }
}
