/** XMLTokener.java: skipping past a text with a circular buffer. */
module XmlTokener {
  import opened JsonText
  import opened JsonSyntax
  import opened JsonTokener

  /** Where reading from p meets the end of the source. */
  function EndPos(s: Text, p: nat): (e: nat)
    ensures e >= p && At(s, e) == 0
    ensures forall q: nat :: p <= q < e ==> At(s, q) != 0
    decreases if p < |s| then |s| - p else 0
  {
    if At(s, p) == 0 then p else EndPos(s, p + 1)
  }

  /** The text stands at position q. */
  ghost predicate StandsAt(s: Text, q: nat, to: Text) {
    forall i {:trigger to[i]} :: 0 <= i < |to| ==> At(s, q + i) == to[i]
  }

  /** It stands there before the end. */
  ghost predicate Occurs(s: Text, p: nat, q: nat, to: Text) {
    p <= q && q + |to| <= EndPos(s, p) && StandsAt(s, q, to)
  }

  /** Place k of the circular buffer, counted from its offset. */
  function Slot(offset: nat, k: nat, length: nat): nat {
    if offset + k >= length then offset + k - length else offset + k
  }

  /** The buffer, read from its offset around, holds the characters from position w on. */
  ghost predicate Around(circle: seq<Unit>, offset: nat, s: Text, w: nat) {
    forall k: nat :: k < |circle| ==>
      Slot(offset, k, |circle|) < |circle| && circle[Slot(offset, k, |circle|)] == At(s, w + k)
  }

  /** The oldest character gives way to the next one. */
  lemma Rotate(circle: seq<Unit>, offset: nat, s: Text, w: nat)
    requires offset < |circle| && Around(circle, offset, s, w)
    ensures Around(circle[offset := At(s, w + |circle|)], Slot(offset, 1, |circle|), s, w + 1)
  {
    var n := |circle|;
    var circle', offset' := circle[offset := At(s, w + n)], Slot(offset, 1, n);
    forall k: nat | k < n ensures Slot(offset', k, n) < n && circle'[Slot(offset', k, n)] == At(s, w + 1 + k) {
      if k + 1 < n {
        assert Slot(offset', k, n) == Slot(offset, k + 1, n) != offset;
      }
    }
  }

  /** The innermost loop: compares the buffer, read from offset around, with the text. */
  method SameAround(circle: array<Unit>, offset: nat, to: Text) returns (b: bool)
    requires circle.Length == |to| && (|to| > 0 ==> offset < |to|)
    ensures b <==> forall i: nat :: i < |to| ==> circle[Slot(offset, i, |to|)] == to[i]
  {
    var length := |to|;
    var j := offset;
    var i := 0;
    while i < length
      invariant 0 <= i <= length && (i < length ==> j == Slot(offset, i, length))
      invariant forall k: nat :: k < i ==> circle[Slot(offset, k, length)] == to[k]
    {
      if circle[j] != to[i] {
        return false;
      }
      j := j + 1;
      if j >= length {
        j := j - length;
      }
      i := i + 1;
    }
    return true;
  }

  /** The first loop of skipPast: as many characters as the text has, unless the source ends before. */
  method Fill(t: Tokener, circle: array<Unit>) returns (full: bool)
    requires t.Valid() && t.index >= 0
    modifies t, circle
    ensures t.Valid() && (full <==> old(t.index) + circle.Length <= EndPos(t.source, old(t.index)))
    ensures full ==> t.index == old(t.index) + circle.Length && Around(circle[..], 0, t.source, old(t.index))
    ensures !full ==> t.index == EndPos(t.source, old(t.index)) + 1
  {
    ghost var p: nat := t.index;
    var i := 0;
    while i < circle.Length
      invariant 0 <= i <= circle.Length && t.Valid() && t.index == p + i <= EndPos(t.source, p)
      invariant forall k :: 0 <= k < i ==> circle[k] == At(t.source, p + k)
    {
      var c := t.Next();
      if c == 0 {
        return false;
      }
      circle[i] := c;
      i := i + 1;
    }
    return true;
  }

  /** No occurrence starts before position w. */
  ghost predicate NoneBefore(s: Text, p: nat, w: nat, to: Text) {
    forall q: nat :: q < w ==> !Occurs(s, p, q, to)
  }

  /** An occurrence at w is the first one. */
  lemma FirstFound(s: Text, p: nat, w: nat, to: Text)
    requires p <= w && w + |to| <= EndPos(s, p) && StandsAt(s, w, to)
    ensures Occurs(s, p, w, to) && exists q: nat :: Occurs(s, p, q, to)
  {
    assert Occurs(s, p, w, to);
  }

  lemma NoneFurther(s: Text, p: nat, w: nat, to: Text)
    requires NoneBefore(s, p, w, to) && !StandsAt(s, w, to)
    ensures NoneBefore(s, p, w + 1, to)
    ensures w + |to| >= EndPos(s, p) ==> !exists q: nat :: Occurs(s, p, q, to)
  {
  }

  /** What the second loop of skipPast keeps. */
  ghost predicate Searching(t: Tokener, circle: array<Unit>, offset: nat, to: Text, p: nat)
    reads t, circle
  {
    && t.Valid() && circle.Length == |to| && p + |to| <= t.index <= EndPos(t.source, p)
    && (if |to| > 0 then offset < |to| else t.index == p)
    && Around(circle[..], offset, t.source, t.index - |to|) && NoneBefore(t.source, p, t.index - |to|, to)
  }

  /** One turn of the second loop; over tells that the source has ended. */
  method Turn(t: Tokener, circle: array<Unit>, offset: nat, to: Text, ghost p: nat)
    returns (found: bool, over: bool, offset': nat)
    requires Searching(t, circle, offset, to, p)
    modifies t, circle
    ensures found ==> t.Valid() && t.index == old(t.index) && Occurs(t.source, p, t.index - |to|, to)
    ensures over ==> !found && t.Valid() && t.index == EndPos(t.source, p) + 1
    ensures over ==> !exists q: nat :: Occurs(t.source, p, q, to)
    ensures !found && !over ==> t.index == old(t.index) + 1 && Searching(t, circle, offset', to, p)
  {
    hide Occurs, StandsAt, NoneBefore, Around, At;
    found, over, offset' := false, false, offset;
    ghost var w: nat := t.index - |to|;
    var b := SameAround(circle, offset, to);
    AroundStands(circle[..], offset, t.source, w, to);
    if b {
      FirstFound(t.source, p, w, to);
      found := true;
      return;
    }
    NoneFurther(t.source, p, w, to);
    var c := t.Next();
    if c == 0 {
      over := true;
      return;
    }
    offset' := Shove(circle, offset, c, t.source, w);
  }

  /**
   skipPast: finds the first occurrence of the text before the end and stops right behind it;
   without one it reads up to the end. The empty text is found at once.
   */
  method SkipPast(t: Tokener, to: Text) returns (found: bool)
    requires t.Valid() && t.index >= 0
    modifies t
    ensures t.Valid()
    ensures found <==> exists q: nat :: Occurs(t.source, old(t.index), q, to)
    ensures found ==> t.index >= old(t.index) + |to| && Occurs(t.source, old(t.index), t.index - |to|, to)
                      && NoneBefore(t.source, old(t.index), t.index - |to|, to)
    ensures !found ==> t.index == EndPos(t.source, old(t.index)) + 1
  {
    ghost var p: nat := t.index;
    var circle := new Unit[|to|](_ => 0);
    var full := Fill(t, circle);
    if !full {
      return false;
    }
    assert NoneBefore(t.source, p, p, to);
    hide Occurs, NoneBefore, Around;
    var offset: nat := 0;
    while true
      invariant Searching(t, circle, offset, to, p)
      decreases EndPos(t.source, p) - t.index
    {
      var over;
      found, over, offset := Turn(t, circle, offset, to, p);
      if found || over {
        return;
      }
    }
  }

  /** Shoves the next character into the buffer. */
  method Shove(circle: array<Unit>, offset: nat, c: Unit, ghost s: Text, ghost w: nat) returns (offset': nat)
    requires offset < circle.Length && Around(circle[..], offset, s, w) && c == At(s, w + circle.Length)
    modifies circle
    ensures offset' < circle.Length && Around(circle[..], offset', s, w + 1)
  {
    Rotate(circle[..], offset, s, w);
    hide Around;
    circle[offset] := c;
    offset' := offset + 1;
    if offset' >= circle.Length {
      offset' := offset' - circle.Length;
    }
  }

  lemma AroundStands(circle: seq<Unit>, offset: nat, s: Text, w: nat, to: Text)
    requires |circle| == |to| && (|to| > 0 ==> offset < |to|) && Around(circle, offset, s, w)
    ensures StandsAt(s, w, to) <==> forall i: nat :: i < |to| ==> circle[Slot(offset, i, |to|)] == to[i]
  {
    forall i: nat | i < |to| ensures circle[Slot(offset, i, |to|)] == At(s, w + i) {
      assert Slot(offset, i, |circle|) < |circle|;
    }
  }
}
