/** The calls a tree stands for, and whole runs of calls. */
module JsonCalls {
  import opened Wrappers
  import opened JsonText
  import opened JsonRoundTrip
  import opened JsonDocument

  // ---- the calls of a tree ----

  function CallsOf(v: Value): seq<Call>
    decreases v, 1
  {
    match v
    case Arr(elems) => [Array] + CallsOfElems(v, |elems|) + [EndArray]
    case Obj(entries) => [Object] + CallsOfEntries(v, |entries|) + [EndObject]
    case _ => [Append(v)]
  }

  /** The calls of the first n elements. */
  function CallsOfElems(v: Value, n: nat): seq<Call>
    requires v.Arr? && n <= |v.elems|
    decreases v, 0, n
  {
    if n == 0 then [] else CallsOfElems(v, n - 1) + CallsOf(v.elems[n - 1])
  }

  function CallsOfEntries(v: Value, n: nat): seq<Call>
    requires v.Obj? && n <= |v.entries|
    decreases v, 0, n
  {
    if n == 0 then [] else CallsOfEntries(v, n - 1) + ([Key(v.entries[n - 1].key)] + CallsOf(v.entries[n - 1].value))
  }

  /** Calls that append a whole tree, written out. */
  function Expand(calls: seq<Call>): seq<Call> {
    if calls == [] then []
    else
      var c := calls[|calls| - 1];
      Expand(calls[..|calls| - 1]) + if c.Append? then CallsOf(c.value) else [c]
  }

  function FrameCalls(f: Frame): seq<Call> {
    match f
    case ArrFrame(elems) => [Array] + CallsOfElems(Arr(elems), |elems|)
    case ObjFrame(entries, pending) =>
      [Object] + CallsOfEntries(Obj(entries), |entries|) + match pending { case None => [] case Some(k) => [Key(k)] }
  }

  function FramesCalls(frames: seq<Frame>): seq<Call> {
    if frames == [] then [] else FramesCalls(Front(frames)) + FrameCalls(Last(frames))
  }

  /** The calls a document stands for. */
  function DocCalls(d: Doc): seq<Call> {
    match d
    case Done(tree) => CallsOf(tree)
    case Open(frames) => FramesCalls(frames)
  }

  lemma {:induction false} ElemsPrefix(a: seq<Value>, b: seq<Value>, n: nat)
    requires n <= |a| && n <= |b| && a[..n] == b[..n]
    ensures CallsOfElems(Arr(a), n) == CallsOfElems(Arr(b), n)
  {
    if n > 0 {
      assert a[..n][n - 1] == b[..n][n - 1];
      assert a[..n - 1] == a[..n][..n - 1] && b[..n - 1] == b[..n][..n - 1];
      ElemsPrefix(a, b, n - 1);
    }
  }

  lemma {:induction false} EntriesPrefix(a: seq<Entry>, b: seq<Entry>, n: nat)
    requires n <= |a| && n <= |b| && a[..n] == b[..n]
    ensures CallsOfEntries(Obj(a), n) == CallsOfEntries(Obj(b), n)
  {
    if n > 0 {
      assert a[..n][n - 1] == b[..n][n - 1];
      assert a[..n - 1] == a[..n][..n - 1] && b[..n - 1] == b[..n][..n - 1];
      EntriesPrefix(a, b, n - 1);
    }
  }

  lemma ElemsGrow(elems: seq<Value>, v: Value)
    ensures CallsOfElems(Arr(elems + [v]), |elems| + 1) == CallsOfElems(Arr(elems), |elems|) + CallsOf(v)
  {
    hide CallsOf;
    ElemsPrefix(elems, elems + [v], |elems|);
  }

  lemma EntriesGrow(entries: seq<Entry>, e: Entry)
    ensures CallsOfEntries(Obj(entries + [e]), |entries| + 1)
            == CallsOfEntries(Obj(entries), |entries|) + ([Key(e.key)] + CallsOf(e.value))
  {
    hide CallsOf;
    EntriesPrefix(entries, entries + [e], |entries|);
  }

  lemma GroupCalls(a: seq<Call>, b: seq<Call>, c: seq<Call>, d: seq<Call>)
    ensures a + (b + (c + d)) + [] == a + b + c + d
    ensures a + b + [] + c == a + b + c && a + (b + c) == a + b + c
  {
  }

  lemma FrameCallsGrow(f: Frame, v: Value)
    requires f.ArrFrame? || f.pending.Some?
    ensures FrameCalls(WithValue(f, v)) == FrameCalls(f) + CallsOf(v)
  {
    hide CallsOf, CallsOfElems, CallsOfEntries;
    if f.ArrFrame? {
      ArrayCallsGrow(f.elems, v);
    } else {
      ObjectCallsGrow(f.entries, f.pending.value, v);
    }
  }

  lemma ArrayCallsGrow(elems: seq<Value>, v: Value)
    ensures FrameCalls(ArrFrame(elems + [v])) == FrameCalls(ArrFrame(elems)) + CallsOf(v)
  {
    hide CallsOf, CallsOfElems;
    ElemsGrow(elems, v);
    GroupCalls([Array], CallsOfElems(Arr(elems), |elems|), CallsOf(v), []);
  }

  lemma ObjectCallsGrow(entries: seq<Entry>, k: Text, v: Value)
    ensures FrameCalls(ObjFrame(entries + [Entry(k, v)], None)) == FrameCalls(ObjFrame(entries, Some(k))) + CallsOf(v)
  {
    hide CallsOf, CallsOfEntries;
    EntriesGrow(entries, Entry(k, v));
    GroupCalls([Object], CallsOfEntries(Obj(entries), |entries|), [Key(k)], CallsOf(v));
  }

  lemma AddCalls(frames: seq<Frame>, v: Value)
    requires frames == [] || TakesValue(frames)
    ensures DocCalls(AddValue(frames, v)) == FramesCalls(frames) + CallsOf(v)
  {
    hide CallsOf, FrameCalls;
    if frames != [] {
      FrameCallsGrow(Last(frames), v);
      assert Front(Front(frames) + [WithValue(Last(frames), v)]) == Front(frames);
    }
  }

  lemma FramesCallsPush(fs: seq<Frame>, f: Frame)
    ensures FramesCalls(fs + [f]) == FramesCalls(fs) + FrameCalls(f)
  {
    hide FrameCalls;
    assert Front(fs + [f]) == fs;
  }

  lemma FramesCallsSplit(fs: seq<Frame>)
    requires fs != []
    ensures FramesCalls(fs) == FramesCalls(Front(fs)) + FrameCalls(Last(fs))
  {
    hide FrameCalls;
  }

  lemma EndCalls(fs: seq<Frame>, v: Value, end: Call)
    requires fs != [] && (Front(fs) == [] || TakesValue(Front(fs))) && CallsOf(v) == FrameCalls(Last(fs)) + [end]
    ensures DocCalls(AddValue(Front(fs), v)) == FramesCalls(fs) + [end]
  {
    FramesCallsSplit(fs);
    AddCalls(Front(fs), v);
    hide *;
    assert FramesCalls(Front(fs)) + (FrameCalls(Last(fs)) + [end]) == FramesCalls(fs) + [end];
  }

  lemma KeyCalls(fs: seq<Frame>, k: Text)
    requires fs != [] && Last(fs).ObjFrame? && Last(fs).pending.None?
    ensures FramesCalls(Front(fs) + [ObjFrame(Last(fs).entries, Some(k))]) == FramesCalls(fs) + [Key(k)]
  {
    var f := ObjFrame(Last(fs).entries, Some(k));
    assert FrameCalls(f) == FrameCalls(Last(fs)) + [Key(k)] by {
      hide CallsOfEntries;
      GroupCalls([Object], CallsOfEntries(Obj(f.entries), |f.entries|), [Key(k)], []);
    }
    hide FrameCalls;
    FramesCallsSplit(fs);
    FramesCallsPush(Front(fs), f);
    hide *;
    assert FramesCalls(Front(fs)) + (FrameCalls(Last(fs)) + [Key(k)]) == FramesCalls(fs) + [Key(k)];
  }

  lemma ExpandOne(c: Call)
    ensures Expand([c]) == if c.Append? then CallsOf(c.value) else [c]
  {
    hide CallsOf;
    assert [c][..0] == [];
  }

  /** A document stands for the calls that made it, in their order. */
  lemma StepCalls(d: Doc, c: Call)
    requires d.Open? && Nested(d.frames) && Step(d, c).Some?
    ensures DocCalls(Step(d, c).value) == DocCalls(d) + Expand([c])
  {
    var fs := d.frames;
    ExpandOne(c);
    match c
    case Array => FramesCallsPush(fs, ArrFrame([]));
    case Object => FramesCallsPush(fs, ObjFrame([], None));
    case EndArray =>
      hide FramesCalls, CallsOfElems, Expand, AddValue;
      EndCalls(fs, Arr(Last(fs).elems), EndArray);
    case EndObject =>
      hide FramesCalls, CallsOfEntries, Expand, AddValue;
      EndCalls(fs, Obj(Last(fs).entries), EndObject);
    case Key(k) =>
      hide FramesCalls, FrameCalls, CallsOf, Expand;
      KeyCalls(fs, k);
    case Append(v) =>
      hide FramesCalls, FrameCalls, CallsOf, Expand, AddValue;
      AddCalls(fs, v);
  }

  // ---- runs ----

  ghost predicate GoodDoc(d: Doc) {
    d.Open? ==> Nested(d.frames)
  }

  /** The document after the calls, if all are in order. */
  function Run(calls: seq<Call>): (r: Option<Doc>)
    ensures r.Some? ==> GoodDoc(r.value)
  {
    if calls == [] then Some(Open([]))
    else match Run(calls[..|calls| - 1])
      case None => None
      case Some(d) => Step(d, calls[|calls| - 1])
  }

  /** When a run has finished a tree, the tree's calls are the calls of the run. */
  lemma {:induction false} RunCalls(calls: seq<Call>)
    requires Run(calls).Some?
    ensures DocCalls(Run(calls).value) == Expand(calls)
  {
    if calls != [] {
      var front, c := calls[..|calls| - 1], calls[|calls| - 1];
      RunCalls(front);
      StepCalls(Run(front).value, c);
      assert [c][..0] == [];
      assert Expand([c]) == if c.Append? then CallsOf(c.value) else [c];
    }
  }

  function Depth(v: Value): nat {
    match v
    case Arr(elems) => 1 + DepthOfElems(v, |elems|)
    case Obj(entries) => 1 + DepthOfEntries(v, |entries|)
    case _ => 0
  }

  function DepthOfElems(v: Value, n: nat): nat
    requires v.Arr? && n <= |v.elems|
    decreases v, 0, n
  {
    if n == 0 then 0 else Max(DepthOfElems(v, n - 1), Depth(v.elems[n - 1]))
  }

  function DepthOfEntries(v: Value, n: nat): nat
    requires v.Obj? && n <= |v.entries|
    decreases v, 0, n
  {
    if n == 0 then 0 else Max(DepthOfEntries(v, n - 1), Depth(v.entries[n - 1].value))
  }

  function Max(a: nat, b: nat): nat { if a < b then b else a }

  lemma RunMore(calls: seq<Call>, c: Call)
    requires Run(calls).Some?
    ensures Run(calls + [c]) == Step(Run(calls).value, c)
  {
    assert (calls + [c])[..|calls|] == calls;
  }

  /** After any calls behind which a value may come, the calls of a tree add that tree. */
  lemma {:induction false} BuildValue(calls: seq<Call>, v: Value)
    requires Run(calls).Some? && Run(calls).value.Open? && WellFormed(v)
    requires var fs := Run(calls).value.frames;
             && (TakesValue(fs) || (fs == [] && (v.Arr? || v.Obj?)))
             && |fs| + Depth(v) <= MAX_DEPTH
    ensures Run(calls + CallsOf(v)) == Some(AddValue(Run(calls).value.frames, v))
    decreases v, 2, 0
  {
    hide Run;
    var fs := Run(calls).value.frames;
    match v
    case Arr(elems) =>
      RunMore(calls, Array);
      BuildElems(calls, v, |elems|);
      var inner := calls + [Array] + CallsOfElems(v, |elems|);
      assert Front(fs + [ArrFrame(elems)]) == fs && elems[..|elems|] == elems;
      RunMore(inner, EndArray);
      assert calls + CallsOf(v) == inner + [EndArray];
    case Obj(entries) =>
      RunMore(calls, Object);
      BuildEntries(calls, v, |entries|);
      var inner := calls + [Object] + CallsOfEntries(v, |entries|);
      assert Front(fs + [ObjFrame(entries, None)]) == fs && entries[..|entries|] == entries;
      RunMore(inner, EndObject);
      assert calls + CallsOf(v) == inner + [EndObject];
    case _ => RunMore(calls, Append(v));
  }

  lemma {:induction false} BuildElems(calls: seq<Call>, v: Value, n: nat)
    requires v.Arr? && n <= |v.elems| && WellFormed(v) && Run(calls).Some? && Run(calls).value.Open?
    requires var fs := Run(calls).value.frames;
             && (TakesValue(fs) || fs == [])
             && |fs| + 1 + DepthOfElems(v, n) <= MAX_DEPTH
    ensures Run(calls + [Array] + CallsOfElems(v, n)) == Some(Open(Run(calls).value.frames + [ArrFrame(v.elems[..n])]))
    decreases v, 0, n
  {
    hide Run;
    var fs := Run(calls).value.frames;
    if n == 0 {
      RunMore(calls, Array);
      assert calls + [Array] + [] == calls + [Array];
      assert v.elems[..0] == [];
    } else {
      BuildElems(calls, v, n - 1);
      var before := calls + [Array] + CallsOfElems(v, n - 1);
      BuildValue(before, v.elems[n - 1]);
      assert before + CallsOf(v.elems[n - 1]) == calls + [Array] + CallsOfElems(v, n);
      assert v.elems[..n - 1] + [v.elems[n - 1]] == v.elems[..n];
      assert Front(fs + [ArrFrame(v.elems[..n - 1])]) == fs;
    }
  }

  lemma {:induction false} BuildEntries(calls: seq<Call>, v: Value, n: nat)
    requires v.Obj? && n <= |v.entries| && WellFormed(v) && Run(calls).Some? && Run(calls).value.Open?
    requires var fs := Run(calls).value.frames;
             && (TakesValue(fs) || fs == [])
             && |fs| + 1 + DepthOfEntries(v, n) <= MAX_DEPTH
    ensures Run(calls + [Object] + CallsOfEntries(v, n))
            == Some(Open(Run(calls).value.frames + [ObjFrame(v.entries[..n], None)]))
    decreases v, 1, n
  {
    hide Run;
    var fs := Run(calls).value.frames;
    if n == 0 {
      RunMore(calls, Object);
      assert calls + [Object] + [] == calls + [Object];
      assert v.entries[..0] == [];
    } else {
      var e := v.entries[n - 1];
      BuildEntries(calls, v, n - 1);
      var before := calls + [Object] + CallsOfEntries(v, n - 1);
      assert e.key !in Keys(v.entries[..n - 1]);
      BuildMember(before, fs, v.entries[..n - 1], v, n - 1);
      assert before + [Key(e.key)] + CallsOf(e.value) == calls + [Object] + CallsOfEntries(v, n);
      assert v.entries[..n - 1] + [e] == v.entries[..n];
    }
  }

  lemma {:induction false} BuildMember(before: seq<Call>, fs: seq<Frame>, entries: seq<Entry>, v: Value, i: nat)
    requires v.Obj? && i < |v.entries| && WellFormed(v.entries[i].value) && v.entries[i].key !in Keys(entries)
    requires Run(before) == Some(Open(fs + [ObjFrame(entries, None)]))
    requires |fs| + 1 + Depth(v.entries[i].value) <= MAX_DEPTH
    ensures Run(before + [Key(v.entries[i].key)] + CallsOf(v.entries[i].value))
            == Some(Open(fs + [ObjFrame(entries + [v.entries[i]], None)]))
    decreases v, 0, 0
  {
    var e, f := v.entries[i], ObjFrame(entries, Some(v.entries[i].key));
    KeyRun(before, fs, entries, e.key);
    FrameOnTop(fs, f, e.value);
    hide *;
    BuildValue(before + [Key(e.key)], e.value);
  }

  /** A new key in the innermost object. */
  lemma KeyRun(before: seq<Call>, fs: seq<Frame>, entries: seq<Entry>, k: Text)
    requires Run(before) == Some(Open(fs + [ObjFrame(entries, None)])) && k !in Keys(entries)
    ensures Run(before + [Key(k)]) == Some(Open(fs + [ObjFrame(entries, Some(k))]))
  {
    RunMore(before, Key(k));
    hide Run, Keys;
    assert Front(fs + [ObjFrame(entries, None)]) == fs;
  }

  lemma FrameOnTop(fs: seq<Frame>, f: Frame, v: Value)
    requires f.ObjFrame? && f.pending.Some?
    ensures TakesValue(fs + [f]) && AddValue(fs + [f], v)
            == Open(fs + [ObjFrame(f.entries + [Entry(f.pending.value, v)], None)])
  {
    assert Front(fs + [f]) == fs && Last(fs + [f]) == f;
  }

  /** Every tree nested at most 200 deep can be written, call by call. */
  lemma EveryTreeBuilt(v: Value)
    requires (v.Arr? || v.Obj?) && WellFormed(v) && Depth(v) <= MAX_DEPTH
    ensures Run(CallsOf(v)) == Some(Done(v))
  {
    BuildValue([], v);
    assert [] + CallsOf(v) == CallsOf(v);
  }
}
