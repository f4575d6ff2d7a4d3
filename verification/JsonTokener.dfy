/**
 The tokener of org.json and the parser that runs on it, in the form of the source: methods
 that read one character at a time and may push one back.
 */
module JsonTokener {
  import opened Wrappers
  import opened JsonText
  import opened JsonSyntax

  class Tokener {
    const source: Text
    const doubles: Doubles

    /** How often the reader was read; past the end it keeps delivering the end. */
    var readCount: nat
    var eof: bool
    var index: int
    var previous: Unit
    var usePrevious: bool

    ghost predicate Valid()
      reads this
    {
      && index == readCount - (if usePrevious then 1 else 0)
      && (usePrevious ==> readCount > 0)
      && previous == (if readCount == 0 then 0 else At(source, readCount - 1))
    }

    constructor (s: Text, d: Doubles)
      ensures Valid() && source == s && doubles == d && index == 0 && !eof && !usePrevious
    {
      source, doubles := s, d;
      readCount, eof, index, previous, usePrevious := 0, false, 0, 0, false;
    }

    /** back: steps back, unless that has just been done or nothing has been read. */
    method Back() returns (ok: bool)
      requires Valid()
      modifies this
      ensures Valid() && readCount == old(readCount) && previous == old(previous)
      ensures ok <==> !old(usePrevious) && old(index) > 0
      ensures ok ==> index == old(index) - 1 && usePrevious && !eof
      ensures !ok ==> index == old(index) && usePrevious == old(usePrevious) && eof == old(eof)
    {
      if usePrevious || index <= 0 {
        return false;
      }
      index := index - 1;
      usePrevious := true;
      eof := false;
      return true;
    }

    /** next */
    method Next() returns (c: Unit)
      requires Valid()
      modifies this
      ensures Valid() && !usePrevious && index == old(index) + 1
      ensures c == At(source, old(index)) == previous
      ensures eof <==> old(eof) || (c == 0 && !old(usePrevious))
    {
      if usePrevious {
        usePrevious := false;
        c := previous;
      } else {
        var r := if readCount < |source| then source[readCount] else -1;
        readCount := readCount + 1;
        if r <= 0 {
          eof := true;
          c := 0;
        } else {
          c := r;
        }
      }
      index := index + 1;
      previous := c;
    }

    /** end */
    predicate End()
      reads this
    {
      eof && !usePrevious
    }

    /**
     A call of next that delivers character q leaves the tokener at its end; not so for an end that was pushed
     back.
     */
    predicate Meets(q: int)
      reads this
      requires 0 <= q
    {
      eof || (At(source, q) == 0 && !(usePrevious && q == index))
    }

    /** more: looks one character ahead and steps back again. */
    method More() returns (ok: bool)
      requires Valid()
      modifies this
      ensures Valid()
      ensures ok <==> !old(Meets(index))
      ensures index == if ok then old(index) else old(index) + 1
      ensures ok ==> usePrevious && !eof && previous == At(source, index)
    {
      var _ := Next();
      if End() {
        return false;
      }
      ok := Back();
      assert ok;
    }

    /** next(n): n characters, none of them the end. */
    method NextMany(n: nat) returns (r: Option<Text>)
      requires Valid()
      modifies this
      ensures Valid() && (n > 0 ==> !usePrevious)
      ensures r.None? <==> exists q: nat :: old(index) <= q < old(index) + n && old(Meets(q))
      ensures r.Some? && !old(usePrevious) ==> forall q: nat :: old(index) <= q < old(index) + n ==> At(source, q) != 0
      ensures r.Some? ==> index == old(index) + n && |r.value| == n && (eof ==> old(eof))
                          && forall q: nat :: old(index) <= q < old(index) + n ==>
                             r.value[q - old(index)] == At(source, q)
    {
      var chars: Text := [];
      while |chars| < n
        invariant Valid() && (chars != [] ==> !usePrevious && !eof) && |chars| <= n && index == old(index) + |chars|
        invariant chars == [] ==> eof == old(eof) && usePrevious == old(usePrevious)
        invariant forall q: nat :: old(index) <= q < index ==> chars[q - old(index)] == At(source, q) && !old(Meets(q))
        decreases n - |chars|
      {
        ghost var q: nat := index;
        var c := Next();
        if End() {
          assert old(Meets(q));
          return None;
        }
        chars := chars + [c];
      }
      return Some(chars);
    }

    /** Where reading goes on; past the end of the source it is as at the end. */
    ghost function Place(): (p: nat)
      requires Valid()
      reads this
      ensures p <= |source|
    {
      if index <= |source| then index else |source|
    }

    /** Somewhere in the source, the end not returned or stepped back from. */
    ghost predicate Ready()
      reads this
    {
      Valid() && 0 <= index <= |source| && !eof
    }

    /** What the parser leaves when it has read a value up to position p: it does not add an end. */
    ghost predicate Read(p: nat, ended: bool)
      reads this
    {
      Valid() && index == p <= |source| && (eof ==> ended)
    }

    /** nextClean */
    method NextClean() returns (c: Unit)
      requires Valid()
      modifies this
      ensures Valid() && !usePrevious && index > old(index)
      ensures c == At(source, index - 1) && (c == 0 || c > SPACE)
      ensures forall q: nat :: old(index) <= q < index - 1 ==> 0 < At(source, q) <= SPACE
      ensures c == At(source, CleanPos(source, old(Place())))
      ensures old(index) <= |source| ==> index == CleanPos(source, old(index)) + 1
      ensures c != 0 ==> eof == old(eof) && index <= |source|
    {
      c := Next();
      while c != 0 && c <= SPACE
        invariant Valid() && !usePrevious && old(index) < index && c == At(source, index - 1)
        invariant forall q: nat :: old(index) <= q < index - 1 ==> 0 < At(source, q) <= SPACE
        invariant c != 0 ==> eof == old(eof) && index <= |source|
        invariant old(index) <= |source| ==>
                    index <= |source| + 1 && CleanPos(source, index - 1) == CleanPos(source, old(index))
        decreases |source| + 1 - index
      {
        c := Next();
      }
    }

    /** The part of nextString behind a backslash. */
    method ReadEscape() returns (r: Outcome<Unit>)
      requires Valid() && !usePrevious && index <= |source|
      modifies this
      ensures Valid() && (r.Parsed? ==> !usePrevious && index == r.pos <= |source| && eof == old(eof))
      ensures var p: nat := old(index);
              if At(source, p) != 117 then
                r == match Unescape(At(source, p))
                     { case None => Failed(IllegalEscape) case Some(u) => Parsed(u, p + 1) }
              else if old(eof) || At(source, p + 1) == 0 || At(source, p + 2) == 0 || At(source, p + 3) == 0
                      || At(source, p + 4) == 0 then
                r == Failed(SubstringBounds)
              else
                r == match ParseHex([At(source, p + 1), At(source, p + 2), At(source, p + 3), At(source, p + 4)])
                     { case None => Failed(NotHexadecimal) case Some(n) => Parsed(ToUnit(n), p + 5) }
    {
      ghost var p: nat := index;
      var c := Next();
      if c == 117 {
        label Behind:
        var four := NextMany(4);
        if four.None? {
          return Failed(SubstringBounds);
        }
        assert !old@Behind(Meets(p + 1));
        assert four.value == [At(source, p + 1), At(source, p + 2), At(source, p + 3), At(source, p + 4)];
        assert At(source, p + 1) != 0 && At(source, p + 2) != 0 && At(source, p + 3) != 0 && At(source, p + 4) != 0;
        var n := ParseHex(four.value);
        if n.None? {
          return Failed(NotHexadecimal);
        }
        return Parsed(ToUnit(n.value), index);
      }
      var u := Unescape(c);
      if u.None? {
        return Failed(IllegalEscape);
      }
      return Parsed(u.value, index);
    }

    /** nextString */
    method NextString(quote: Unit) returns (r: Outcome<Text>)
      requires Valid()
      modifies this
      ensures Valid() && r == StringFrom(source, old(Place()), quote, [], old(eof))
      ensures r.Parsed? ==> Read(r.pos, old(eof)) && !usePrevious
    {
      hide Unescape, ParseHex, ToUnit;
      var sb: Text := [];
      while true
        invariant Valid() && eof == old(eof)
        invariant StringFrom(source, Place(), quote, sb, eof) == StringFrom(source, old(Place()), quote, [], eof)
        decreases |source| - index
      {
        var c := Next();
        if c == 0 || c == NEWLINE || c == RETURN {
          return Failed(UnterminatedString);
        } else if c == BACKSLASH {
          var u := ReadEscape();
          if u.Failed? {
            return Failed(u.error);
          }
          sb := sb + [u.value];
        } else if c == quote {
          return Parsed(sb, index);
        } else {
          sb := sb + [c];
        }
      }
    }

    /** nextValue */
    method NextValue() returns (r: Outcome<Value>)
      requires Valid()
      modifies this
      ensures Valid() && r == ParseNext(source, old(Place()), doubles, old(eof))
      ensures r.Parsed? ==> Read(r.pos, old(eof))
      decreases |source| - index, 1
    {
      hide StringFrom, ParseObject, ParseArray, UnquotedEnd, Trim, StringToValue, CleanPos;
      var c := NextClean();
      if c == QUOTE || c == APOSTROPHE {
        var t := NextString(c);
        match t
        case Parsed(text, pos) => return Parsed(Str(text), pos);
        case Failed(error) => return Failed(error);
      } else if c == OPEN_BRACE {
        var ok := Back();
        assert ok;
        r := ReadObject();
      } else if c == OPEN_BRACKET {
        var ok := Back();
        assert ok;
        r := ReadArray();
      } else {
        r := UnquotedText(c);
      }
    }

    /** The last part of nextValue: text up to a formatting character. */
    method UnquotedText(first: Unit) returns (r: Outcome<Value>)
      requires Valid() && !usePrevious && 0 < index && first == At(source, index - 1)
      modifies this
      ensures Valid()
      ensures var q: nat := if old(index) <= |source| then old(index) - 1 else |source|;
              var e := UnquotedEnd(source, q);
              var t := Trim(source[q..e]);
              r == if t == [] then Failed(MissingValue) else Parsed(StringToValue(t, doubles), e)
      ensures r.Parsed? ==> Ready() && index == r.pos
    {
      var sb: Text := [];
      var c := first;
      while c >= SPACE && c !in [COMMA, COLON, CLOSE_BRACKET, CLOSE_BRACE, SLASH, BACKSLASH, QUOTE, OPEN_BRACKET,
          OPEN_BRACE, SEMICOLON, 61, 35]
        invariant Valid() && !usePrevious && old(index) <= index && c == At(source, index - 1)
        invariant if old(index) > |source| + 1 then c == 0 && sb == [] else
                    && index <= |source| + 1 && sb == source[old(index) - 1..index - 1]
                    && UnquotedEnd(source, index - 1) == UnquotedEnd(source, old(index) - 1)
        decreases |source| + 1 - index
      {
        sb := sb + [c];
        c := Next();
      }
      var ok := Back();
      assert ok;
      var t := Trim(sb);
      if t == [] {
        return Failed(MissingValue);
      }
      return Parsed(StringToValue(t, doubles), index);
    }

    /** The key, the colon and the value in the loop of new JSONObject(tokener). */
    method ReadMember() returns (r: Outcome<Entry>)
      requires Ready()
      modifies this
      ensures Valid() && r == ParseMember(source, old(index), doubles)
      ensures r.Parsed? ==> Ready() && index == r.pos
      decreases |source| - index, 2
    {
      hide ParseValue, ParseNext, CleanPos, At, ToText;
      NotEnded(source, index, doubles);
      var k := NextValue();
      if k.Failed? {
        return Failed(k.error);
      }
      var c := NextClean();
      if c != COLON {
        return Failed(NoColon);
      }
      NotEnded(source, index, doubles);
      var v := NextValue();
      if v.Failed? {
        return Failed(v.error);
      }
      return Parsed(Entry(ToText(k.value), v.value), index);
    }

    /** A member, which putOnce refuses if its key has been used. */
    method ReadNewMember(entries: seq<Entry>) returns (r: Outcome<Entry>)
      requires Ready()
      modifies this
      ensures Valid() && (r.Parsed? ==> Ready() && index == r.pos)
      ensures var p := ParseMember(source, old(index), doubles);
              r == if p.Parsed? && HasKey(entries, p.value.key) then Failed(DuplicateKey) else p
      decreases |source| - index, 3
    {
      hide ParseMember, HasKey;
      r := ReadMember();
      if r.Parsed? && HasKey(entries, r.value.key) {
        return Failed(DuplicateKey);
      }
    }

    /** The end of the loop of new JSONObject(tokener): whether another member follows, or the object is closed. */
    method MoreMembers() returns (r: Option<bool>)
      requires Ready()
      modifies this
      ensures Valid()
      ensures var t := CleanPos(source, old(index));
              if At(source, t) == SEMICOLON || At(source, t) == COMMA then
                var u := CleanPos(source, t + 1);
                if At(source, u) == CLOSE_BRACE then r == Some(false) && index == u + 1 && Ready()
                else r == Some(true) && index == u && Ready()
              else if At(source, t) == CLOSE_BRACE then r == Some(false) && index == t + 1 && Ready()
              else r == None
    {
      var c := NextClean();
      if c == SEMICOLON || c == COMMA {
        c := NextClean();
        if c == CLOSE_BRACE {
          return Some(false);
        }
        var ok := Back();
        assert ok;
        return Some(true);
      }
      return if c == CLOSE_BRACE then Some(false) else None;
    }

    /** One round of the loop of new JSONObject(tokener): the result, if it is the last one. */
    method ObjectRound(entries: seq<Entry>) returns (done: Option<Outcome<Value>>, entries': seq<Entry>)
      requires Valid() && index <= |source|
      modifies this
      ensures Valid() && (done.Some? && done.value.Parsed? ==> Read(done.value.pos, old(eof)))
      ensures done.None? ==> Ready() && index > old(index)
      ensures ParseEntries(source, old(index), entries, doubles)
              == if done.Some? then done.value else ParseEntries(source, index, entries', doubles)
      decreases |source| - index, 4
    {
      hide ParseMember, CleanPos, At, HasKey;
      entries' := entries;
      var c := NextClean();
      if c == 0 {
        return Some(Failed(NoCloseBrace)), entries';
      } else if c == CLOSE_BRACE {
        return Some(Parsed(Obj(entries), index)), entries';
      }
      var ok := Back();
      assert ok;
      var member := ReadNewMember(entries);
      if member.Failed? {
        return Some(Failed(member.error)), entries';
      }
      entries' := entries + [member.value];
      var more := MoreMembers();
      if more.None? {
        done := Some(Failed(NoCommaOrBrace));
      } else if more.value {
        done := None;
      } else {
        done := Some(Parsed(Obj(entries'), index));
      }
    }

    /** new JSONObject(tokener) */
    method ReadObject() returns (r: Outcome<Value>)
      requires Valid()
      modifies this
      ensures Valid() && r == ParseObject(source, old(Place()), doubles)
      ensures r.Parsed? ==> Read(r.pos, old(eof))
      decreases |source| - index, 0
    {
      hide ParseMember, CleanPos, At, HasKey;
      var entries: seq<Entry> := [];
      var c := NextClean();
      if c != OPEN_BRACE {
        return Failed(NoOpenBrace);
      }
      assert ParseEntries(source, index, entries, doubles) == ParseObject(source, old(Place()), doubles);
      hide ParseObject, ParseEntries;
      while true
        invariant Read(index, old(eof)) && index > old(index)
        invariant ParseEntries(source, index, entries, doubles) == ParseObject(source, old(Place()), doubles)
        decreases |source| - index
      {
        var done;
        done, entries := ObjectRound(entries);
        if done.Some? {
          return done.value;
        }
      }
    }

    /** What the loop of new JSONArray(tokener) adds to the list. */
    method ReadElem() returns (r: Outcome<Value>)
      requires Ready()
      modifies this
      ensures Valid() && r == ParseElem(source, old(index), doubles)
      ensures r.Parsed? ==> Ready() && index == r.pos
      decreases |source| - index, 2
    {
      hide ParseValue, ParseNext;
      var c := NextClean();
      var ok := Back();
      assert ok;
      if c == COMMA {
        return Parsed(Null, index);
      }
      assert CleanPos(source, index) == index;
      NotEnded(source, index, doubles);
      r := NextValue();
    }

    /** The start of new JSONArray(tokener): the opening bracket, and the closing one of an empty array. */
    method OpenArray() returns (r: Option<Outcome<Value>>)
      requires Valid()
      modifies this
      ensures Valid()
      ensures r.Some? ==> r.value == ParseArray(source, old(Place()), doubles)
      ensures r.Some? && r.value.Parsed? ==> Read(r.value.pos, old(eof))
      ensures r.None? ==> Ready() && index > old(index)
                          && ParseElems(source, index, [], doubles) == ParseArray(source, old(Place()), doubles)
    {
      hide ParseElems, CleanPos, At;
      var c := NextClean();
      if c != OPEN_BRACKET {
        return Some(Failed(NoOpenBracket));
      }
      c := NextClean();
      if c == CLOSE_BRACKET {
        return Some(Parsed(Arr([]), index));
      }
      var ok := Back();
      assert ok;
      return None;
    }

    /** new JSONArray(tokener) */
    method ReadArray() returns (r: Outcome<Value>)
      requires Valid()
      modifies this
      ensures Valid() && r == ParseArray(source, old(Place()), doubles)
      ensures r.Parsed? ==> Read(r.pos, old(eof))
      decreases |source| - index, 0
    {
      hide ParseArray, ParseElem, CleanPos, At;
      var elems: seq<Value> := [];
      var start := OpenArray();
      if start.Some? {
        return start.value;
      }
      while true
        invariant Ready() && index > old(index)
        invariant ParseElems(source, index, elems, doubles) == ParseArray(source, old(Place()), doubles)
        decreases |source| - index
      {
        var v := ReadElem();
        if v.Failed? {
          return v;
        }
        elems := elems + [v.value];
        var c := NextClean();
        if c == COMMA {
          c := NextClean();
          if c == CLOSE_BRACKET {
            return Parsed(Arr(elems), index);
          }
          var ok := Back();
          assert ok;
        } else if c == CLOSE_BRACKET {
          return Parsed(Arr(elems), index);
        } else {
          return Failed(NoCommaOrBracket);
        }
      }
    }
  }
}
