/**
 What any run of JSONWriter without an exception leaves behind: no object has a key twice, at any
 depth, so the finished text is read back as the tree that the calls describe.
 */
module JsonFinished {
  import opened Wrappers
  import opened JsonText
  import opened JsonSyntax
  import opened JsonRoundTrip
  import opened JsonAccepted
  import opened JsonDocument
  import opened JsonCalls

  /** A proper tree, without floating-point numbers if it has to be plain. */
  ghost predicate Fine(v: Value, plain: bool) {
    Proper(v) && (plain ==> NoDecimals(v))
  }

  ghost predicate FineFrame(f: Frame, plain: bool) {
    match f
    case ArrFrame(elems) => forall i :: 0 <= i < |elems| ==> Fine(elems[i], plain)
    case ObjFrame(entries, pending) =>
      && (forall i :: 0 <= i < |entries| ==> Fine(entries[i].value, plain))
      && (forall i, j :: 0 <= i < j < |entries| ==> entries[i].key != entries[j].key)
      && (pending.Some? ==> pending.value !in Keys(entries))
  }

  ghost predicate FineDoc(d: Doc, plain: bool) {
    match d
    case Done(tree) => Fine(tree, plain) && (tree.Arr? || tree.Obj?)
    case Open(frames) => forall i :: 0 <= i < |frames| ==> FineFrame(frames[i], plain)
  }

  /** Whatever values the calls append are proper trees. */
  ghost predicate FineCalls(calls: seq<Call>, plain: bool) {
    forall i :: 0 <= i < |calls| && calls[i].Append? ==> Fine(calls[i].value, plain)
  }

  lemma FrameTakes(f: Frame, v: Value, plain: bool)
    requires (f.ArrFrame? || f.pending.Some?) && FineFrame(f, plain) && Fine(v, plain)
    ensures FineFrame(WithValue(f, v), plain)
  {
    if f.ObjFrame? {
      forall i | 0 <= i < |f.entries| ensures f.entries[i].key != f.pending.value {
        assert f.entries[i] in f.entries;
      }
    }
  }

  lemma DocTakes(frames: seq<Frame>, v: Value, plain: bool)
    requires (frames == [] && (v.Arr? || v.Obj?)) || TakesValue(frames)
    requires FineDoc(Open(frames), plain) && Fine(v, plain)
    ensures FineDoc(AddValue(frames, v), plain)
  {
    hide Fine, FineFrame, WithValue;
    if frames != [] {
      FrameTakes(Last(frames), v, plain);
    }
  }

  /** A frame that is closed becomes a proper tree. */
  lemma FrameCloses(f: Frame, plain: bool)
    requires FineFrame(f, plain)
    ensures f.ArrFrame? ==> Fine(Arr(f.elems), plain)
    ensures f.ObjFrame? ==> Fine(Obj(f.entries), plain)
  {
  }

  lemma StepFine(d: Doc, c: Call, plain: bool)
    requires d.Open? && Nested(d.frames) && Step(d, c).Some? && FineDoc(d, plain)
    requires c.Append? ==> Fine(c.value, plain)
    ensures FineDoc(Step(d, c).value, plain)
  {
    var fs := d.frames;
    match c
    case Array => assert FineFrame(ArrFrame([]), plain);
    case Object => assert FineFrame(ObjFrame([], None), plain);
    case EndArray =>
      FrameCloses(Last(fs), plain);
      hide Fine, FineFrame;
      DocTakes(Front(fs), Arr(Last(fs).elems), plain);
    case EndObject =>
      FrameCloses(Last(fs), plain);
      hide Fine, FineFrame;
      DocTakes(Front(fs), Obj(Last(fs).entries), plain);
    case Key(k) =>
      assert FineFrame(Last(fs), plain) && FineFrame(ObjFrame(Last(fs).entries, Some(k)), plain);
    case Append(v) =>
      hide Fine, FineFrame;
      DocTakes(fs, v, plain);
  }

  /** The document of every run is proper, finished or not. */
  lemma {:induction false} RunFine(calls: seq<Call>, plain: bool)
    requires Run(calls).Some? && FineCalls(calls, plain)
    ensures FineDoc(Run(calls).value, plain)
  {
    hide Fine, FineFrame;
    if calls != [] {
      var front, c := calls[..|calls| - 1], calls[|calls| - 1];
      RunFine(front, plain);
      StepFine(Run(front).value, c, plain);
    }
  }

  /** Every finished run leaves an array or object with distinct keys at every depth. */
  lemma FinishedProper(calls: seq<Call>)
    requires Run(calls).Some? && Run(calls).value.Done? && FineCalls(calls, false)
    ensures var tree := Run(calls).value.tree; Proper(tree) && (tree.Arr? || tree.Obj?)
  {
    RunFine(calls, false);
  }

  /** ... and its text, parsed, gives the tree, floating-point numbers aside. */
  lemma FinishedParses(calls: seq<Call>, doubles: Doubles)
    requires Run(calls).Some? && Run(calls).value.Done? && FineCalls(calls, true)
    ensures var tree := Run(calls).value.tree;
            var text := Write(tree, 0, 0);
            && (tree.Arr? || tree.Obj?)
            && (tree.Obj? ==> ParseObject(text, 0, doubles) == Parsed(tree, |text|))
            && (tree.Arr? ==> ParseArray(text, 0, doubles) == Parsed(tree, |text|))
  {
    RunFine(calls, true);
    var tree := Run(calls).value.tree;
    ProperWellFormed(tree);
    hide Write, ParseObject, ParseArray, Run, WellFormed;
    if tree.Obj? {
      ObjectRoundTrip(tree, 0, doubles);
    } else {
      ArrayRoundTrip(tree, 0, doubles);
    }
  }
}
