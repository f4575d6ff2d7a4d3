/** JSONWriter.java: a push-down writer with a mode, a comma flag and a stack of scopes. */
module JsonWriter {
  import opened Wrappers
  import opened JsonText
  import opened JsonSyntax
  import opened JsonRoundTrip
  import opened JsonDocument
  import opened JsonCalls
  import opened JsonTokener
  import opened JsonAccepted
  import opened JsonFinished

  /** 'i', 'a', 'o', 'k' and 'd'. */
  datatype Mode = Initial | InArray | AtValue | AtKey | Finished

  /** What the stack holds for an open array (null) or object (its keys so far). */
  function Scope(f: Frame): Option<set<Text>> {
    match f
    case ArrFrame(_) => None
    case ObjFrame(entries, None) => Some(Keys(entries))
    case ObjFrame(entries, Some(k)) => Some(Keys(entries) + {k})
  }

  function ModeOf(d: Doc): Mode {
    if d.Done? then Finished
    else if d.frames == [] then Initial
    else match Last(d.frames)
      case ArrFrame(_) => InArray
      case ObjFrame(_, pending) => if pending.Some? then AtValue else AtKey
  }

  /** Whether a comma goes in front of what comes next. */
  function CommaOf(d: Doc): bool {
    if d.Done? then true
    else if d.frames == [] then false
    else match Last(d.frames)
      case ArrFrame(elems) => elems != []
      case ObjFrame(entries, pending) => pending.None? && entries != []
  }

  function ScopeMode(scope: Option<set<Text>>): Mode {
    if scope.None? then InArray else AtKey
  }

  /** Mode, comma and stack tell the shape of the document. */
  ghost predicate Form(d: Doc, comma: bool, mode: Mode, top: nat, stack: seq<Option<set<Text>>>) {
    && |stack| == MAX_DEPTH && GoodDoc(d) && mode == ModeOf(d) && comma == CommaOf(d)
    && top == (if d.Done? then 0 else |d.frames|) <= MAX_DEPTH
    && (d.Open? ==> forall i :: 0 <= i < top ==> stack[i] == Scope(d.frames[i]))
  }

  /** ... and the output is its text. */
  ghost predicate Shape(d: Doc, comma: bool, mode: Mode, top: nat, stack: seq<Option<set<Text>>>, out: Text) {
    Form(d, comma, mode, top, stack) && out == DocText(d)
  }

  /** Where a value may begin. */
  predicate Begins(mode: Mode) { mode == Initial || mode == AtValue || mode == InArray }

  lemma BeginsIs(d: Doc)
    ensures Begins(ModeOf(d)) <==> d.Open? && (d.frames == [] || TakesValue(d.frames))
    ensures d.Open? && CommaOf(d) && Begins(ModeOf(d)) ==> ModeOf(d) == InArray
  {
  }

  /** A comma goes out exactly where the text needs one. */
  lemma SeparatorIs(d: Doc)
    requires d.Open? && (d.frames == [] || TakesValue(d.frames))
    ensures (if CommaOf(d) then [COMMA] else []) == if d.frames == [] then [] else Separator(Last(d.frames))
  {
  }

  lemma PushForm(d: Doc, comma: bool, mode: Mode, top: nat, stack: seq<Option<set<Text>>>, f: Frame)
    requires Form(d, comma, mode, top, stack) && Begins(mode) && top < MAX_DEPTH
    requires f == ArrFrame([]) || f == ObjFrame([], None)
    ensures d.Open? && Step(d, if f.ArrFrame? then Array else Object) == Some(Open(d.frames + [f]))
    ensures Form(Open(d.frames + [f]), false, if f.ArrFrame? then InArray else AtKey, top + 1, stack[top := Scope(f)])
    ensures (if comma then [COMMA] else []) == if d.frames == [] then [] else Separator(Last(d.frames))
  {
    BeginsIs(d);
    SeparatorIs(d);
    StepNested(d, if f.ArrFrame? then Array else Object);
  }

  lemma PushShape(d: Doc, comma: bool, mode: Mode, top: nat, stack: seq<Option<set<Text>>>, out: Text, f: Frame)
    requires Shape(d, comma, mode, top, stack, out) && Begins(mode) && top < MAX_DEPTH
    requires f == ArrFrame([]) || f == ObjFrame([], None)
    ensures var c := if f.ArrFrame? then Array else Object;
            && d.Open? && Step(d, c) == Some(Open(d.frames + [f]))
            && Shape(Open(d.frames + [f]), false, if f.ArrFrame? then InArray else AtKey, top + 1,
                     stack[top := Scope(f)],
                     out + (if comma then [COMMA] else []) + [if f.ArrFrame? then OPEN_BRACKET else OPEN_BRACE])
  {
    var c := if f.ArrFrame? then Array else Object;
    assert GoodDoc(d);
    hide Form, DocText, Step, Written, Scope, Begins;
    PushForm(d, comma, mode, top, stack, f);
    StepText(d, c);
    PushWrites(d, comma, f);
  }

  lemma PushWrites(d: Doc, comma: bool, f: Frame)
    requires d.Open? && (if comma then [COMMA] else []) == (if d.frames == [] then [] else Separator(Last(d.frames)))
    ensures Written(d, if f.ArrFrame? then Array else Object)
            == (if comma then [COMMA] else []) + [if f.ArrFrame? then OPEN_BRACKET else OPEN_BRACE]
  {
    hide Separator;
  }

  lemma ValueForm(d: Doc, comma: bool, mode: Mode, top: nat, stack: seq<Option<set<Text>>>, v: Value)
    requires Form(d, comma, mode, top, stack) && (mode == AtValue || mode == InArray)
    ensures d.Open? && Nested(d.frames) && Step(d, Append(v)).Some?
    ensures Form(Step(d, Append(v)).value, true, if mode == AtValue then AtKey else mode, top, stack)
    ensures (if comma && mode == InArray then [COMMA] else []) == if d.frames == [] then []
            else Separator(Last(d.frames))
  {
    BeginsIs(d);
    SeparatorIs(d);
    StepNested(d, Append(v));
    hide WithValue;
    GrownShape(d.frames, v);
  }

  /** A value where one may come: the innermost array or object goes on. */
  lemma ValueShape(d: Doc, comma: bool, mode: Mode, top: nat, stack: seq<Option<set<Text>>>, out: Text, v: Value)
    requires Shape(d, comma, mode, top, stack, out) && (mode == AtValue || mode == InArray)
    ensures d.Open? && GoodDoc(d) && Step(d, Append(v)).Some?
    ensures Shape(Step(d, Append(v)).value, true, if mode == AtValue then AtKey else mode, top, stack,
                  out + (if comma && mode == InArray then [COMMA] else []) + Write(v, 0, 0))
  {
    hide Form, DocText, Step, Written, Write, Separator;
    ValueForm(d, comma, mode, top, stack, v);
    StepText(d, Append(v));
    ValueWrites(d, comma && mode == InArray, v);
  }

  lemma ValueWrites(d: Doc, comma: bool, v: Value)
    requires d.Open? && (if comma then [COMMA] else []) == (if d.frames == [] then [] else Separator(Last(d.frames)))
    ensures Written(d, Append(v)) == (if comma then [COMMA] else []) + Write(v, 0, 0)
  {
    hide Separator, Write;
  }

  lemma KeysGrow(entries: seq<Entry>, e: Entry)
    ensures Keys(entries + [e]) == Keys(entries) + {e.key}
  {
    forall k | k in Keys(entries) + {e.key} ensures k in Keys(entries + [e]) {
      if k in Keys(entries) {
        var x :| x in entries && x.key == k;
        assert x in entries + [e];
      } else {
        assert e in entries + [e];
      }
    }
  }

  lemma WithValueScope(f: Frame, v: Value)
    requires f.ArrFrame? || f.pending.Some?
    ensures Scope(WithValue(f, v)) == Scope(f)
  {
    if f.ObjFrame? {
      KeysGrow(f.entries, Entry(f.pending.value, v));
    }
  }

  /** The innermost frame has a value more: mode and comma follow, the scopes stay. */
  lemma GrownShape(fs: seq<Frame>, v: Value)
    requires TakesValue(fs)
    ensures var d := AddValue(fs, v);
            && d.Open? && |d.frames| == |fs| && CommaOf(d) && ModeOf(d) == ScopeMode(Scope(Last(fs)))
            && forall i :: 0 <= i < |fs| ==> Scope(d.frames[i]) == Scope(fs[i])
  {
    WithValueScope(Last(fs), v);
  }

  /** The end of the innermost array or object; its parent has one value more. */
  lemma EndForm(d: Doc, comma: bool, mode: Mode, top: nat, stack: seq<Option<set<Text>>>)
    requires Form(d, comma, mode, top, stack) && (mode == InArray || mode == AtKey)
    ensures d.Open? && Nested(d.frames) && top > 0 && mode == ScopeMode(stack[top - 1])
    ensures var c := if mode == InArray then EndArray else EndObject;
            && Step(d, c).Some?
            && Form(Step(d, c).value, true, if top == 1 then Finished else ScopeMode(stack[top - 2]), top - 1, stack)
  {
    var c := if mode == InArray then EndArray else EndObject;
    var fs := Front(d.frames);
    assert Last(d.frames) == d.frames[top - 1];
    if fs != [] {
      StepNested(d, c);
      assert Last(fs) == d.frames[top - 2] && TakesValue(fs);
      GrownShape(fs, if mode == InArray then Arr(Last(d.frames).elems) else Obj(Last(d.frames).entries));
      hide AddValue, Keys, CommaOf;
    }
  }

  lemma EndShape(d: Doc, comma: bool, mode: Mode, top: nat, stack: seq<Option<set<Text>>>, out: Text)
    requires Shape(d, comma, mode, top, stack, out) && (mode == InArray || mode == AtKey)
    ensures d.Open? && GoodDoc(d) && top > 0 && top <= |stack| && mode == ScopeMode(stack[top - 1])
    ensures var c := if mode == InArray then EndArray else EndObject;
            && Step(d, c).Some?
            && Shape(Step(d, c).value, true, if top == 1 then Finished else ScopeMode(stack[top - 2]), top - 1, stack,
                     out + [if mode == InArray then CLOSE_BRACKET else CLOSE_BRACE])
  {
    var c := if mode == InArray then EndArray else EndObject;
    assert top <= |stack|;
    hide Form, DocText, Step;
    EndForm(d, comma, mode, top, stack);
    StepText(d, c);
    assert Written(d, c) == [if mode == InArray then CLOSE_BRACKET else CLOSE_BRACE];
    hide Written;
  }

  lemma KeyForm(d: Doc, comma: bool, mode: Mode, top: nat, stack: seq<Option<set<Text>>>, k: Text)
    requires Form(d, comma, mode, top, stack) && mode == AtKey
    ensures d.Open? && Nested(d.frames) && 0 < top <= |stack| && stack[top - 1].Some?
    ensures k in stack[top - 1].value <==> Step(d, Key(k)).None?
    ensures k !in stack[top - 1].value ==>
              Form(Step(d, Key(k)).value, false, AtValue, top, stack[top - 1 := Some(stack[top - 1].value + {k})])
    ensures Written(d, Key(k)) == (if comma then [COMMA] else []) + (Quote(k) + [COLON])
  {
    assert stack[top - 1] == Scope(Last(d.frames));
    hide Quote, Keys;
    if k !in stack[top - 1].value {
      StepNested(d, Key(k));
      var f := ObjFrame(Last(d.frames).entries, Some(k));
      assert Step(d, Key(k)).value == Open(Front(d.frames) + [f]);
      assert Last(Front(d.frames) + [f]) == f && Scope(f) == Some(stack[top - 1].value + {k});
    }
  }

  lemma KeyShape(d: Doc, comma: bool, mode: Mode, top: nat, stack: seq<Option<set<Text>>>, out: Text, k: Text)
    requires Shape(d, comma, mode, top, stack, out) && mode == AtKey
    ensures d.Open? && GoodDoc(d) && 0 < top <= |stack| && stack[top - 1].Some?
    ensures k in stack[top - 1].value <==> Step(d, Key(k)).None?
    ensures k !in stack[top - 1].value ==>
              Shape(Step(d, Key(k)).value, false, AtValue, top, stack[top - 1 := Some(stack[top - 1].value + {k})],
                    out + (if comma then [COMMA] else []) + Quote(k) + [COLON])
  {
    hide Form, DocText, Step, Written, Quote;
    KeyForm(d, comma, mode, top, stack, k);
    if k !in stack[top - 1].value {
      StepText(d, Key(k));
    }
  }

  lemma Bounds(d: Doc, comma: bool, mode: Mode, top: nat, stack: seq<Option<set<Text>>>, out: Text)
    requires Shape(d, comma, mode, top, stack, out)
    ensures |stack| == MAX_DEPTH && top <= MAX_DEPTH && GoodDoc(d)
    ensures (d.Open? ==> Nested(d.frames))
            && (top == MAX_DEPTH || !Begins(mode) ==> Step(d, Array).None? && Step(d, Object).None?)
    ensures mode != InArray ==> Step(d, EndArray).None?
    ensures mode != AtKey ==> Step(d, EndObject).None? && forall k :: Step(d, Key(k)).None?
    ensures mode != AtValue && mode != InArray ==> forall v :: Step(d, Append(v)).None?
    ensures comma ==> !Begins(mode) || mode == InArray
  {
    BeginsIs(d);
    hide DocText;
  }

  class Writer {
    var comma: bool
    var mode: Mode
    const stack: array<Option<set<Text>>>
    var top: nat
    var out: Text
    ghost var doc: Doc

    ghost predicate Valid()
      reads this, stack
    {
      Shape(doc, comma, mode, top, stack[..], out)
    }

    constructor ()
      ensures Valid() && fresh(stack) && doc == Open([]) && out == []
    {
      comma, mode, top, out, doc := false, Initial, 0, [], Open([]);
      stack := new Option<set<Text>>[MAX_DEPTH](_ => None);
    }

    /** append */
    method AppendText(s: Text) returns (ok: bool)
      modifies this`out, this`mode, this`comma
      ensures ok <==> old(mode) == AtValue || old(mode) == InArray
      ensures ok ==> comma && mode == (if old(mode) == AtValue then AtKey else old(mode))
                     && out == old(out) + (if old(comma) && old(mode) == InArray then [COMMA] else []) + s
      ensures !ok ==> out == old(out) && mode == old(mode) && comma == old(comma)
    {
      if mode == AtValue || mode == InArray {
        if comma && mode == InArray {
          out := out + [COMMA];
        }
        out := out + s;
        if mode == AtValue {
          mode := AtKey;
        }
        comma := true;
        return true;
      }
      return false;
    }

    /** push */
    method Push(scope: Option<set<Text>>) returns (ok: bool)
      requires stack.Length == MAX_DEPTH && top <= MAX_DEPTH
      modifies this`mode, this`top, stack
      ensures ok <==> old(top) < MAX_DEPTH
      ensures ok ==> top == old(top) + 1 && mode == (if scope.None? then InArray else AtKey)
                     && stack[..] == old(stack[..])[old(top) := scope]
      ensures !ok ==> top == old(top) && mode == old(mode) && stack[..] == old(stack[..])
    {
      if top >= MAX_DEPTH {
        return false;
      }
      stack[top] := scope;
      mode := if scope.None? then InArray else AtKey;
      top := top + 1;
      return true;
    }

    /** pop */
    method Pop(scope: Mode) returns (ok: bool)
      requires stack.Length == MAX_DEPTH && top <= MAX_DEPTH
      modifies this`mode, this`top
      ensures ok <==> old(top) > 0 && scope == ScopeMode(stack[old(top) - 1])
      ensures ok ==> top == old(top) - 1
                     && mode == if top == 0 then Finished else ScopeMode(stack[top - 1])
      ensures !ok ==> top == old(top) && mode == old(mode)
    {
      if top <= 0 {
        return false;
      }
      var m := ScopeMode(stack[top - 1]);
      if m != scope {
        return false;
      }
      top := top - 1;
      mode := if top == 0 then Finished else ScopeMode(stack[top - 1]);
      return true;
    }

    /** end */
    method End(scope: Mode, c: Unit) returns (ok: bool)
      requires stack.Length == MAX_DEPTH && top <= MAX_DEPTH
      modifies this`mode, this`top, this`out, this`comma
      ensures ok <==> old(mode) == scope && old(top) > 0 && scope == ScopeMode(stack[old(top) - 1])
      ensures ok ==> top == old(top) - 1 && comma && out == old(out) + [c]
                     && mode == if top == 0 then Finished else ScopeMode(stack[top - 1])
      ensures !ok ==> top == old(top) && mode == old(mode) && out == old(out) && comma == old(comma)
    {
      if mode != scope {
        return false;
      }
      ok := Pop(scope);
      if !ok {
        return false;
      }
      out := out + [c];
      comma := true;
    }

    /** array */
    method BeginArray() returns (ok: bool)
      requires Valid()
      modifies this, stack
      ensures Valid() && (ok <==> Step(old(doc), Array).Some?)
      ensures doc == if ok then Step(old(doc), Array).value else old(doc)
    {
      hide Shape, Step, GoodDoc;
      Bounds(doc, comma, mode, top, stack[..], out);
      if mode == Initial || mode == AtValue || mode == InArray {
        if top < MAX_DEPTH {
          PushShape(doc, comma, mode, top, stack[..], out, ArrFrame([]));
        }
        ok := Push(None);
        if !ok {
          return false;
        }
        ok := AppendText([OPEN_BRACKET]);
        assert ok;
        comma := false;
        doc := Step(doc, Array).value;
        return true;
      }
      return false;
    }

    /**
     object: the brace is written before the nesting is checked, so when the nesting is too deep
     the brace stays in the output.
     */
    method BeginObject() returns (ok: bool)
      requires Valid()
      modifies this, stack
      ensures ok <==> Step(old(doc), Object).Some?
      ensures ok ==> Valid() && doc == Step(old(doc), Object).value
      ensures !ok && !(Begins(old(mode)) && old(top) == MAX_DEPTH) ==> Valid() && doc == old(doc)
      ensures !ok && Begins(old(mode)) && old(top) == MAX_DEPTH ==>
                out == old(out) + (if old(comma) then [COMMA] else []) + [OPEN_BRACE]
    {
      hide Shape, Step, GoodDoc;
      Bounds(doc, comma, mode, top, stack[..], out);
      if Begins(mode) && top < MAX_DEPTH {
        PushShape(doc, comma, mode, top, stack[..], out, ObjFrame([], None));
        assert Keys([]) == {};
      }
      if mode == Initial {
        mode := AtValue;
      }
      if mode == AtValue || mode == InArray {
        ok := AppendText([OPEN_BRACE]);
        assert ok;
        ok := Push(Some({}));
        if !ok {
          return false;
        }
        comma := false;
        doc := Step(doc, Object).value;
        return true;
      }
      return false;
    }

    /** endArray */
    method EndArrayCall() returns (ok: bool)
      requires Valid()
      modifies this
      ensures Valid() && (ok <==> Step(old(doc), EndArray).Some?)
      ensures doc == if ok then Step(old(doc), EndArray).value else old(doc)
    {
      hide Shape, Step, GoodDoc, Quote, Write;
      Bounds(doc, comma, mode, top, stack[..], out);
      if mode == InArray {
        EndShape(doc, comma, mode, top, stack[..], out);
      }
      ok := End(InArray, CLOSE_BRACKET);
      if ok {
        doc := Step(doc, EndArray).value;
      }
    }

    /** endObject */
    method EndObjectCall() returns (ok: bool)
      requires Valid()
      modifies this
      ensures Valid() && (ok <==> Step(old(doc), EndObject).Some?)
      ensures doc == if ok then Step(old(doc), EndObject).value else old(doc)
    {
      hide Shape, Step, GoodDoc, Quote, Write;
      Bounds(doc, comma, mode, top, stack[..], out);
      if mode == AtKey {
        EndShape(doc, comma, mode, top, stack[..], out);
      }
      ok := End(AtKey, CLOSE_BRACE);
      if ok {
        doc := Step(doc, EndObject).value;
      }
    }

    /** key: each key once in an object */
    method WriteKey(k: Text) returns (ok: bool)
      requires Valid()
      modifies this, stack
      ensures Valid() && (ok <==> Step(old(doc), Key(k)).Some?)
      ensures doc == if ok then Step(old(doc), Key(k)).value else old(doc)
    {
      hide Shape, Step, GoodDoc, Quote, Write;
      Bounds(doc, comma, mode, top, stack[..], out);
      if mode == AtKey {
        KeyShape(doc, comma, mode, top, stack[..], out, k);
        if k in stack[top - 1].value {
          return false;
        }
        stack[top - 1] := Some(stack[top - 1].value + {k});
        if comma {
          out := out + [COMMA];
        }
        assert out == old(out) + (if old(comma) then [COMMA] else []);
        assert stack[..] == old(stack[..])[top - 1 := Some(old(stack[..])[top - 1].value + {k})];
        out := out + Quote(k);
        out := out + [COLON];
        comma := false;
        mode := AtValue;
        doc := Step(doc, Key(k)).value;
        return true;
      }
      return false;
    }

    /** value */
    method WriteValue(v: Value) returns (ok: bool)
      requires Valid()
      modifies this
      ensures Valid() && (ok <==> Step(old(doc), Append(v)).Some?)
      ensures doc == if ok then Step(old(doc), Append(v)).value else old(doc)
    {
      hide Shape, Step, GoodDoc, Quote, Write;
      Bounds(doc, comma, mode, top, stack[..], out);
      if mode == AtValue || mode == InArray {
        ValueShape(doc, comma, mode, top, stack[..], out, v);
      }
      ok := AppendText(Write(v, 0, 0));
      if ok {
        doc := Step(doc, Append(v)).value;
      }
    }

    method Perform(c: Call) returns (ok: bool)
      requires Valid()
      modifies this, stack
      ensures ok <==> Step(old(doc), c).Some?
      ensures ok ==> Valid() && doc == Step(old(doc), c).value
    {
      hide Shape, Step, GoodDoc;
      match c {
        case Array => ok := BeginArray();
        case EndArray => ok := EndArrayCall();
        case Object => ok := BeginObject();
        case EndObject => ok := EndObjectCall();
        case Key(k) => ok := WriteKey(k);
        case Append(v) => ok := WriteValue(v);
      }
    }
  }

  /**
   A run of calls without an exception: the output is the text of the document that the calls
   describe. When the writer is done, that is the compact text of a tree whose calls are the calls
   made, an array or object in which no object has a key twice.
   */
  method WriteAll(calls: seq<Call>) returns (w: Writer, ok: bool)
    ensures ok <==> Run(calls).Some?
    ensures ok ==> w.Valid() && w.doc == Run(calls).value && w.out == DocText(w.doc)
    ensures ok ==> (w.mode == Finished <==> w.doc.Done?)
    ensures ok && w.mode == Finished ==>
              w.doc.Done? && w.out == Write(w.doc.tree, 0, 0) && CallsOf(w.doc.tree) == Expand(calls)
    ensures ok && w.mode == Finished && FineCalls(calls, false) ==>
            Proper(w.doc.tree) && (w.doc.tree.Arr? || w.doc.tree.Obj?)
  {
    w := new Writer();
    ok := true;
    assert calls[..0] == [] && Run([]) == Some(Open([]));
    hide Shape, Step, GoodDoc, Run, Expand, CallsOf, FineCalls, Proper;
    var n := 0;
    while n < |calls|
      invariant n <= |calls| && ok && w.Valid() && fresh(w) && fresh(w.stack) && Run(calls[..n]) == Some(w.doc)
    {
      RunStep(calls, n);
      ok := w.Perform(calls[n]);
      n := n + 1;
      if !ok {
        RunStops(calls, n);
        return;
      }
    }
    assert calls[..n] == calls;
    ShapeTells(w.doc, w.comma, w.mode, w.top, w.stack[..], w.out);
    RunCalls(calls);
    if w.doc.Done? && FineCalls(calls, false) {
      FinishedProper(calls);
    }
  }

  lemma ShapeTells(d: Doc, comma: bool, mode: Mode, top: nat, stack: seq<Option<set<Text>>>, out: Text)
    requires Shape(d, comma, mode, top, stack, out)
    ensures out == DocText(d) && (mode == Finished <==> d.Done?)
  {
    hide DocText;
  }

  lemma RunStep(calls: seq<Call>, n: nat)
    requires n < |calls| && Run(calls[..n]).Some?
    ensures Run(calls[..n + 1]) == Step(Run(calls[..n]).value, calls[n])
  {
    assert calls[..n + 1][..n] == calls[..n];
  }

  lemma {:induction false} RunStops(calls: seq<Call>, n: nat)
    requires n <= |calls| && Run(calls[..n]).None?
    ensures Run(calls).None?
    decreases |calls| - n
  {
    if n == |calls| {
      assert calls[..n] == calls;
    } else {
      assert calls[..n + 1][..n] == calls[..n];
      RunStops(calls, n + 1);
    }
  }

  /**
   Any calls, and the output parsed: when all calls are in order and finish a tree, the parser
   returns the tree that the calls describe.
   */
  method RunAndParse(calls: seq<Call>, doubles: Doubles) returns (r: Option<Value>)
    requires FineCalls(calls, true)
    ensures r.Some? <==> Run(calls).Some? && Run(calls).value.Done?
    ensures r.Some? ==> Run(calls) == Some(Done(r.value)) && CallsOf(r.value) == Expand(calls) 
  {
    hide Run, Expand, CallsOf, Write, ParseObject, ParseArray, WellFormed, FineCalls, Proper, GoodDoc;
    var w, ok := WriteAll(calls);
    if !ok || w.mode != Finished {
      return None;
    }
    FinishedParses(calls, doubles);
    FirstUnit(w.doc.tree);
    var tokener := new Tokener(w.out, doubles);
    assert tokener.Ready();
    var p: Outcome<Value>;
    if w.out[0] == OPEN_BRACE {
      p := tokener.ReadObject();
    } else {
      p := tokener.ReadArray();
    }
    return Some(p.value);
  }

  lemma FirstUnit(v: Value)
    requires v.Arr? || v.Obj?
    ensures var t := Write(v, 0, 0); t != [] && (t[0] == OPEN_BRACE <==> v.Obj?)
  {
  }

  /** Write a tree call by call, and parse the output: the same tree. */
  method WriteAndParse(v: Value, doubles: Doubles) returns (r: Outcome<Value>)
    requires (v.Arr? || v.Obj?) && WellFormed(v) && Depth(v) <= MAX_DEPTH
    ensures r.Parsed? && r.value == v
  {
    hide Run, Expand, CallsOf, Write, ParseObject, ParseArray, WellFormed, Depth;
    EveryTreeBuilt(v);
    var w, ok := WriteAll(CallsOf(v));
    assert w.out == Write(v, 0, 0);
    var tokener := new Tokener(w.out, doubles);
    assert tokener.Ready();
    if v.Obj? {
      ObjectRoundTrip(v, 0, doubles);
      r := tokener.ReadObject();
    } else {
      ArrayRoundTrip(v, 0, doubles);
      r := tokener.ReadArray();
    }
  }
}
