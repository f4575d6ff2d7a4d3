/**
 Every text the parser accepts stands for a proper tree: integers of 64 bits, and no key twice in
 an object. So a tree without floating-point numbers survives printing and parsing again.
 */
module JsonAccepted {
  import opened JsonText
  import opened JsonSyntax
  import opened JsonRoundTrip

  /** WellFormed, but for floating-point numbers. */
  ghost predicate Proper(v: Value) {
    match v
    case Int(n) => LONG_MIN <= n <= LONG_MAX
    case Arr(elems) => forall i :: 0 <= i < |elems| ==> Proper(elems[i])
    case Obj(entries) => ProperEntries(entries)
    case _ => true
  }

  ghost predicate ProperEntries(entries: seq<Entry>) {
    && (forall i :: 0 <= i < |entries| ==> Proper(entries[i].value))
    && forall i, j :: 0 <= i < j < |entries| ==> entries[i].key != entries[j].key
  }

  predicate NoDecimals(v: Value) {
    match v
    case Decimal(_, _) => false
    case Arr(elems) => forall i :: 0 <= i < |elems| ==> NoDecimals(elems[i])
    case Obj(entries) => forall i :: 0 <= i < |entries| ==> NoDecimals(entries[i].value)
    case _ => true
  }

  lemma {:induction false} ProperWellFormed(v: Value)
    requires Proper(v) && NoDecimals(v)
    ensures WellFormed(v)
  {
    match v
    case Arr(elems) =>
      forall i | 0 <= i < |elems| ensures WellFormed(elems[i]) { ProperWellFormed(elems[i]); }
    case Obj(entries) =>
      forall i | 0 <= i < |entries| ensures WellFormed(entries[i].value) { ProperWellFormed(entries[i].value); }
    case _ =>
  }

  lemma {:induction false} ValueProper(s: Text, p: nat, doubles: Doubles)
    requires p <= |s| && ParseValue(s, p, doubles).Parsed?
    ensures Proper(ParseValue(s, p, doubles).value)
    decreases |s| - p, 1
  {
    var q := CleanPos(s, p);
    if At(s, q) == OPEN_BRACE {
      ObjectProper(s, q, doubles);
    } else if At(s, q) == OPEN_BRACKET {
      ArrayProper(s, q, doubles);
    }
  }

  lemma {:induction false} ObjectProper(s: Text, p: nat, doubles: Doubles)
    requires p <= |s| && ParseObject(s, p, doubles).Parsed?
    ensures Proper(ParseObject(s, p, doubles).value) && ParseObject(s, p, doubles).value.Obj?
    decreases |s| - p, 0
  {
    EntriesProper(s, CleanPos(s, p) + 1, [], doubles);
  }

  lemma {:induction false} EntriesProper(s: Text, p: nat, entries: seq<Entry>, doubles: Doubles)
    requires p <= |s| && ProperEntries(entries) && ParseEntries(s, p, entries, doubles).Parsed?
    ensures Proper(ParseEntries(s, p, entries, doubles).value) && ParseEntries(s, p, entries, doubles).value.Obj?
    decreases |s| - p, 3
  {
    hide ParseMember, CleanPos;
    var q := CleanPos(s, p);
    if At(s, q) != CLOSE_BRACE {
      var member := ParseMember(s, q, doubles);
      MemberProper(s, q, doubles);
      var entries' := entries + [member.value];
      assert ProperEntries(entries');
      var t := CleanPos(s, member.pos);
      if At(s, t) == SEMICOLON || At(s, t) == COMMA {
        var u := CleanPos(s, t + 1);
        if At(s, u) != CLOSE_BRACE {
          EntriesProper(s, u, entries', doubles);
        }
      }
    }
  }

  lemma {:induction false} MemberProper(s: Text, p: nat, doubles: Doubles)
    requires p <= |s| && ParseMember(s, p, doubles).Parsed?
    ensures Proper(ParseMember(s, p, doubles).value.value)
    decreases |s| - p, 2
  {
    ValueProper(s, CleanPos(s, ParseValue(s, p, doubles).pos) + 1, doubles);
  }

  lemma {:induction false} ArrayProper(s: Text, p: nat, doubles: Doubles)
    requires p <= |s| && ParseArray(s, p, doubles).Parsed?
    ensures Proper(ParseArray(s, p, doubles).value) && ParseArray(s, p, doubles).value.Arr?
    decreases |s| - p, 0
  {
    var u := CleanPos(s, CleanPos(s, p) + 1);
    if At(s, u) != CLOSE_BRACKET {
      ElemsProper(s, u, [], doubles);
    }
  }

  lemma {:induction false} ElemsProper(s: Text, p: nat, elems: seq<Value>, doubles: Doubles)
    requires p <= |s| && Proper(Arr(elems)) && ParseElems(s, p, elems, doubles).Parsed?
    ensures Proper(ParseElems(s, p, elems, doubles).value) && ParseElems(s, p, elems, doubles).value.Arr?
    decreases |s| - p, 3
  {
    var elem := ParseElem(s, p, doubles);
    if At(s, CleanPos(s, p)) != COMMA {
      ValueProper(s, CleanPos(s, p), doubles);
    }
    assert Proper(elem.value);
    hide ParseElem;
    var elems' := elems + [elem.value];
    assert Proper(Arr(elems'));
    var t := CleanPos(s, elem.pos);
    if At(s, t) == COMMA {
      var u := CleanPos(s, t + 1);
      if At(s, u) != CLOSE_BRACKET {
        ElemsProper(s, u, elems', doubles);
      }
    }
  }

  /** Whatever object was parsed, printing it with any indentation and parsing that gives it again. */
  lemma AcceptedSurvives(s: Text, p: nat, factor: nat, doubles: Doubles)
    requires p <= |s| && ParseObject(s, p, doubles).Parsed? && NoDecimals(ParseObject(s, p, doubles).value)
    ensures var v := ParseObject(s, p, doubles).value;
            ParseObject(Write(v, factor, 0), 0, doubles) == Parsed(v, |Write(v, factor, 0)|)
  {
    hide *;
    var v := ParseObject(s, p, doubles).value;
    ObjectProper(s, p, doubles);
    ProperWellFormed(v);
    ObjectRoundTrip(v, factor, doubles);
  }
}
