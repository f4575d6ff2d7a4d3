/**
 What a sequence of calls to JSONWriter builds: a document under construction, its text so far,
 and the calls it stands for.
 */
module JsonDocument {
  import opened Wrappers
  import opened JsonText

  const MAX_DEPTH := 200

  datatype Call = Array | EndArray | Object | EndObject | Key(key: Text) | Append(value: Value)

  /** An array or object that has been opened; an object may have a key waiting for its value. */
  datatype Frame = ArrFrame(elems: seq<Value>) | ObjFrame(entries: seq<Entry>, pending: Option<Text>)

  /** The open arrays and objects, outermost first, or the finished tree. */
  datatype Doc = Open(frames: seq<Frame>) | Done(tree: Value)

  function Keys(entries: seq<Entry>): set<Text> {
    set e | e in entries :: e.key
  }

  // ---- one call ----

  function Last(frames: seq<Frame>): Frame
    requires frames != []
  {
    frames[|frames| - 1]
  }

  function Front(frames: seq<Frame>): seq<Frame>
    requires frames != []
  {
    frames[..|frames| - 1]
  }

  /** A value may come next. */
  predicate TakesValue(frames: seq<Frame>) {
    frames != [] && (Last(frames).ArrFrame? || Last(frames).pending.Some?)
  }

  function WithValue(f: Frame, v: Value): Frame
    requires f.ArrFrame? || f.pending.Some?
  {
    match f
    case ArrFrame(elems) => ArrFrame(elems + [v])
    case ObjFrame(entries, pending) => ObjFrame(entries + [Entry(pending.value, v)], None)
  }

  function AddValue(frames: seq<Frame>, v: Value): Doc
    requires frames == [] || TakesValue(frames)
  {
    if frames == [] then Done(v) else Open(Front(frames) + [WithValue(Last(frames), v)])
  }

  /** Every open array or object but the innermost waits for a value. */
  predicate Nested(frames: seq<Frame>) {
    forall i :: 0 <= i < |frames| - 1 ==> frames[i].ArrFrame? || frames[i].pending.Some?
  }

  /** The document after one more call, if the call is in order. */
  function Step(d: Doc, c: Call): Option<Doc>
    requires d.Open? ==> Nested(d.frames)
  {
    if d.Done? then None
    else
      var fs := d.frames;
      match c
      case Array => if (fs == [] || TakesValue(fs)) && |fs| < MAX_DEPTH then Some(Open(fs + [ArrFrame([])])) else None
      case Object => if (fs == [] || TakesValue(fs)) && |fs| < MAX_DEPTH then Some(Open(fs + [ObjFrame([], None)]))
          else None
      case EndArray =>
        if fs != [] && Last(fs).ArrFrame? then Some(AddValue(Front(fs), Arr(Last(fs).elems))) else None
      case EndObject =>
        if fs != [] && Last(fs).ObjFrame? && Last(fs).pending.None?
            then Some(AddValue(Front(fs), Obj(Last(fs).entries))) else None
      case Key(k) =>
        if fs != [] && Last(fs).ObjFrame? && Last(fs).pending.None? && k !in Keys(Last(fs).entries)
        then Some(Open(Front(fs) + [ObjFrame(Last(fs).entries, Some(k))])) else None
      case Append(v) => if TakesValue(fs) then Some(AddValue(fs, v)) else None
  }

  lemma StepNested(d: Doc, c: Call)
    requires d.Open? && Nested(d.frames) && Step(d, c).Some? && Step(d, c).value.Open?
    ensures Nested(Step(d, c).value.frames)
  {
  }

  // ---- the text so far ----

  /** Elements with commas between them. */
  function Items(elems: seq<Value>): Text {
    if elems == [] then []
    else Items(elems[..|elems| - 1]) + (if |elems| > 1 then [COMMA] else []) + Write(elems[|elems| - 1], 0, 0)
  }

  function Field(e: Entry): Text {
    Quote(e.key) + [COLON] + Write(e.value, 0, 0)
  }

  function Fields(entries: seq<Entry>): Text {
    if entries == [] then []
    else Fields(entries[..|entries| - 1]) + (if |entries| > 1 then [COMMA] else []) + Field(entries[|entries| - 1])
  }

  function FrameText(f: Frame): Text {
    match f
    case ArrFrame(elems) => [OPEN_BRACKET] + Items(elems)
    case ObjFrame(entries, None) => [OPEN_BRACE] + Fields(entries)
    case ObjFrame(entries, Some(k)) =>
      [OPEN_BRACE] + Fields(entries) + (if entries != [] then [COMMA] else []) + (Quote(k) + [COLON])
  }

  /** A comma goes in front of a value unless it is the first of its array. */
  function Separator(f: Frame): Text {
    if f.ArrFrame? && f.elems != [] then [COMMA] else []
  }

  /** The text in front of a value inside all these frames. */
  function Context(frames: seq<Frame>): Text {
    if frames == [] then [] else Context(Front(frames)) + FrameText(Last(frames)) + Separator(Last(frames))
  }

  function DocText(d: Doc): Text {
    match d
    case Done(tree) => Write(tree, 0, 0)
    case Open(frames) => if frames == [] then [] else Context(Front(frames)) + FrameText(Last(frames))
  }

  // ---- compact texts ----

  lemma {:induction false} ItemsAre(elems: seq<Value>, all: seq<Value>, i: nat)
    requires i <= |all| && elems == all[..i]
    ensures Items(elems) + ElemsFrom(Arr(all), i, 0, 0) == ElemsFrom(Arr(all), 0, 0, 0)
    decreases i
  {
    hide Write;
    if i == 0 {
      assert elems == [];
    } else {
      ItemsAre(all[..i - 1], all, i - 1);
      assert elems[..i - 1] == all[..i - 1];
      assert Lead(0, 0) == [];
    }
  }

  /** The compact text of an array. */
  lemma ArrayText(elems: seq<Value>)
    ensures Write(Arr(elems), 0, 0) == [OPEN_BRACKET] + Items(elems) + [CLOSE_BRACKET]
  {
    var v := Arr(elems);
    ItemsAre(elems, elems, |elems|) by { assert elems[..|elems|] == elems; }
    assert Items(elems) == ElemsFrom(v, 0, 0, 0) by { assert ElemsFrom(v, |elems|, 0, 0) == []; }
    assert WriteElems(v, 0, 0) == Items(elems) by { assert Lead(0, 0) == []; }
  }

  lemma {:induction false} FieldsAre(entries: seq<Entry>, all: seq<Entry>, i: nat)
    requires i <= |all| && entries == all[..i]
    ensures Fields(entries) + EntriesFrom(Obj(all), i, 0, 0) == EntriesFrom(Obj(all), 0, 0, 0)
    decreases i
  {
    hide Write, Quote;
    if i == 0 {
      assert entries == [];
    } else {
      FieldsAre(all[..i - 1], all, i - 1);
      assert entries[..i - 1] == all[..i - 1];
      assert Lead(0, 0) == [] && Gap(0) == [];
    }
  }

  lemma ObjectText(entries: seq<Entry>)
    ensures Write(Obj(entries), 0, 0) == [OPEN_BRACE] + Fields(entries) + [CLOSE_BRACE]
  {
    var v := Obj(entries);
    FieldsAre(entries, entries, |entries|) by { assert entries[..|entries|] == entries; }
    assert Fields(entries) == EntriesFrom(v, 0, 0, 0) by { assert EntriesFrom(v, |entries|, 0, 0) == []; }
    assert WriteEntries(v, 0, 0) == Fields(entries) by { assert Lead(0, 0) == [] && Gap(0) == []; }
  }

  // ---- each call appends to the text ----

  /** Appending the text of a value where a value may come gives the text of the document with it. */
  lemma AddText(frames: seq<Frame>, v: Value)
    requires frames == [] || TakesValue(frames)
    ensures DocText(AddValue(frames, v)) == Context(frames) + Write(v, 0, 0)
  {
    hide Write, Quote;
    if frames != [] {
      var f := Last(frames);
      var f' := WithValue(f, v);
      assert Front(Front(frames) + [f']) == Front(frames);
      assert FrameText(f') == FrameText(f) + Separator(f) + Write(v, 0, 0) by { FrameGrows(f, v); }
    }
  }

  lemma ItemsGrow(elems: seq<Value>, v: Value)
    ensures Items(elems + [v]) == Items(elems) + (if elems != [] then [COMMA] else []) + Write(v, 0, 0)
  {
    hide Write;
    assert (elems + [v])[..|elems|] == elems;
  }

  lemma FieldsGrow(entries: seq<Entry>, e: Entry)
    ensures Fields(entries + [e]) == Fields(entries) + (if entries != [] then [COMMA] else []) + Field(e)
  {
    hide Field;
    assert (entries + [e])[..|entries|] == entries;
  }

  lemma GroupText(a: Text, b: Text, c: Text, d: Text)
    ensures a + (b + c + d) == (a + b) + c + d
  {
  }

  lemma FrameGrows(f: Frame, v: Value)
    requires f.ArrFrame? || f.pending.Some?
    ensures FrameText(WithValue(f, v)) == FrameText(f) + Separator(f) + Write(v, 0, 0)
  {
    hide Write, Items, Fields, Quote;
    match f
    case ArrFrame(elems) =>
      ItemsGrow(elems, v);
      GroupText([OPEN_BRACKET], Items(elems), Separator(f), Write(v, 0, 0));
    case ObjFrame(entries, Some(k)) =>
      ObjectGrows(entries, k, v);
      assert WithValue(f, v) == ObjFrame(entries + [Entry(k, v)], None) && Separator(f) == [];
  }

  lemma ObjectGrows(entries: seq<Entry>, k: Text, v: Value)
    ensures FrameText(ObjFrame(entries + [Entry(k, v)], None))
            == FrameText(ObjFrame(entries, Some(k))) + [] + Write(v, 0, 0)
  {
    hide Write, Items, Fields, Quote;
    var comma := if entries != [] then [COMMA] else [];
    FieldsGrow(entries, Entry(k, v));
    GroupText([OPEN_BRACE], Fields(entries), comma, Quote(k) + [COLON] + Write(v, 0, 0));
    GroupText([OPEN_BRACE] + Fields(entries) + comma, Quote(k), [COLON], Write(v, 0, 0));
  }

  /** What a call writes. */
  function Written(d: Doc, c: Call): Text
    requires d.Open?
  {
    var fs := d.frames;
    var separator := if fs == [] then [] else Separator(Last(fs));
    match c
    case Array => separator + [OPEN_BRACKET]
    case Object => separator + [OPEN_BRACE]
    case EndArray => [CLOSE_BRACKET]
    case EndObject => [CLOSE_BRACE]
    case Key(k) => (if fs != [] && Last(fs).ObjFrame? && Last(fs).entries != [] then [COMMA] else [])
        + (Quote(k) + [COLON])
    case Append(v) => separator + Write(v, 0, 0)
  }

  lemma StepText(d: Doc, c: Call)
    requires d.Open? && Nested(d.frames) && Step(d, c).Some?
    ensures DocText(Step(d, c).value) == DocText(d) + Written(d, c)
  {
    var fs := d.frames;
    hide Write, Quote, Items, Fields, DocText, Context, AddValue, WithValue;
    match c
    case Array => OpenText(fs, ArrFrame([]), OPEN_BRACKET);
    case Object => OpenText(fs, ObjFrame([], None), OPEN_BRACE);
    case EndArray => EndArrayText(fs);
    case EndObject => EndObjectText(fs);
    case Key(k) => KeyText(fs, k);
    case Append(v) => AppendText(fs, v);
  }

  lemma OpenText(fs: seq<Frame>, f: Frame, open: Unit)
    requires fs == [] || TakesValue(fs)
    requires (f == ArrFrame([]) && open == OPEN_BRACKET) || (f == ObjFrame([], None) && open == OPEN_BRACE)
    ensures DocText(Open(fs + [f])) == DocText(Open(fs)) + ((if fs == [] then [] else Separator(Last(fs))) + [open])
  {
    assert FrameText(f) == [open];
    hide FrameText, Separator;
    assert Front(fs + [f]) == fs && Last(fs + [f]) == f;
  }

  lemma KeyText(fs: seq<Frame>, k: Text)
    requires fs != [] && Last(fs).ObjFrame? && Last(fs).pending.None?
    ensures DocText(Open(Front(fs) + [ObjFrame(Last(fs).entries, Some(k))]))
            == DocText(Open(fs)) + ((if Last(fs).entries != [] then [COMMA] else []) + (Quote(k) + [COLON]))
  {
    var entries := Last(fs).entries;
    var f := ObjFrame(entries, Some(k));
    var comma: Text := if entries != [] then [COMMA] else [];
    assert Front(Front(fs) + [f]) == Front(fs) && Last(Front(fs) + [f]) == f;
    KeyFrame(entries, k);
    hide FrameText, Quote, Fields, Context;
    GroupTextEnd(Context(Front(fs)), FrameText(Last(fs)), comma, Quote(k) + [COLON]);
  }

  lemma KeyFrame(entries: seq<Entry>, k: Text)
    ensures FrameText(ObjFrame(entries, Some(k)))
            == FrameText(ObjFrame(entries, None)) + (if entries != [] then [COMMA] else []) + (Quote(k) + [COLON])
  {
    hide Quote, Fields;
  }

  lemma GroupTextEnd(a: Text, b: Text, c: Text, d: Text)
    ensures a + (b + c + d) == (a + b) + (c + d)
  {
  }

  lemma EndArrayText(fs: seq<Frame>)
    requires fs != [] && Last(fs).ArrFrame? && Nested(fs)
    ensures DocText(AddValue(Front(fs), Arr(Last(fs).elems))) == DocText(Open(fs)) + [CLOSE_BRACKET]
  {
    AddText(Front(fs), Arr(Last(fs).elems));
    ArrayText(Last(fs).elems);
    hide Write, Items, Context, AddValue;
  }

  lemma EndObjectText(fs: seq<Frame>)
    requires fs != [] && Last(fs).ObjFrame? && Last(fs).pending.None? && Nested(fs)
    ensures DocText(AddValue(Front(fs), Obj(Last(fs).entries))) == DocText(Open(fs)) + [CLOSE_BRACE]
  {
    AddText(Front(fs), Obj(Last(fs).entries));
    ObjectText(Last(fs).entries);
    hide Write, Fields, Context, AddValue;
  }

  lemma AppendText(fs: seq<Frame>, v: Value)
    requires TakesValue(fs)
    ensures DocText(AddValue(fs, v)) == DocText(Open(fs)) + (Separator(Last(fs)) + Write(v, 0, 0))
  {
    AddText(fs, v);
    hide Write, FrameText, Separator, AddValue;
  }
}
