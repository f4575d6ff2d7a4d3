/**
 The memory behind the timer wheel (timer.c): intrusive doubly linked lists, one per
 spoke, whose cells store the distance to their predecessor, and the free list threaded
 through the same next pointers.
 */
module TimerMemory {
  import opened Wrappers

  const WHEEL_SIZE := 4096

  type TimerId = nat

  /** What a pointer can point to: the header of a spoke or a timer. */
  datatype Node = Header(k: nat) | Cell(id: TimerId)

  /** Pointers and deltas; what was never written is zero. */
  datatype Mem = Mem(next: map<Node, TimerId>, prev: map<TimerId, Node>, delta: map<TimerId, nat>)

  function Next(m: Mem, n: Node): Option<TimerId> {
    if n in m.next then Some(m.next[n]) else None
  }

  function Prev(m: Mem, t: TimerId): Option<Node> {
    if t in m.prev then Some(m.prev[t]) else None
  }

  function Delta(m: Mem, t: TimerId): nat {
    if t in m.delta then m.delta[t] else 0
  }

  function SetNext(m: Mem, n: Node, t: Option<TimerId>): Mem {
    m.(next := match t case Some(x) => m.next[n := x] case None => m.next - {n})
  }

  /** memset (t, 0, ...). */
  function Zero(m: Mem, t: TimerId): Mem {
    Mem(m.next - {Cell(t)}, m.prev - {t}, m.delta - {t})
  }

  /** Links the zeroed timer t behind p, d rounds after it (timer_schedule). */
  function LinkAfter(m: Mem, p: Node, t: TimerId, d: nat): Mem {
    var m1 := SetNext(m, Cell(t), Next(m, p));
    var m2 := m1.(prev := m1.prev[t := p]);
    var m3 := SetNext(m2, p, Some(t));
    var m4 := m3.(delta := m3.delta[t := d]);
    match Next(m4, Cell(t))
    case None => m4
    case Some(n) =>
      m4.(prev := m4.prev[n := Cell(t)],
          delta := m4.delta[n := if Delta(m4, n) >= d then Delta(m4, n) - d else 0])
  }

  /** Takes timer t out of its list (timer_cancel). */
  function Unlink(m: Mem, t: TimerId): Mem
    requires Prev(m, t).Some?
  {
    var p := Prev(m, t).value;
    var m1 := match Next(m, Cell(t))
      case None => m
      case Some(n) => m.(delta := m.delta[n := Delta(m, n) + Delta(m, t)], prev := m.prev[n := p]);
    SetNext(m1, p, Next(m1, Cell(t)))
  }

  /** done: t becomes the head of the free list. */
  function Freed(m: Mem, t: TimerId, free: Option<TimerId>): Mem {
    var m1 := SetNext(m, Cell(t), free);
    m1.(prev := m1.prev - {t})
  }

  // ---- lists of timers in memory ----

  /** A scheduled timer; stamp tells how many timers had been scheduled before it. */
  datatype Entry = Entry(id: TimerId, stamp: nat)

  /** The node in front of position i of spoke k. */
  function Before(k: nat, es: seq<Entry>, i: nat): Node
    requires i <= |es|
  {
    if i == 0 then Header(k) else Cell(es[i - 1].id)
  }

  function IdAt(es: seq<Entry>, i: nat): Option<TimerId> {
    if i < |es| then Some(es[i].id) else None
  }

  /** The tick that position i of the spoke counts from. */
  function Origin(es: seq<Entry>, dueOf: seq<nat>, base: nat, i: nat): nat
    requires i <= |es| && forall j :: 0 <= j < |es| ==> es[j].stamp < |dueOf|
  {
    if i == 0 then base else dueOf[es[i - 1].stamp]
  }

  /**
   Spoke k holds the entries es in this order, and their deltas encode their due ticks
   counted from base. While the spoke is being fired the header is stale: it and the back
   pointer of the first entry are not to be relied on.
   */
  ghost predicate Linked(m: Mem, k: nat, es: seq<Entry>, dueOf: seq<nat>, base: nat, stale: bool) {
    && (forall i :: 0 <= i < |es| ==> es[i].stamp < |dueOf|)
    && (!stale ==> Next(m, Header(k)) == IdAt(es, 0))
    && (forall i :: 0 <= i < |es| ==> CellOk(m, k, es, dueOf, base, stale, i))
  }

  ghost predicate CellOk(m: Mem, k: nat, es: seq<Entry>, dueOf: seq<nat>, base: nat, stale: bool, i: nat)
    requires i < |es| && forall j :: 0 <= j < |es| ==> es[j].stamp < |dueOf|
  {
    && Next(m, Cell(es[i].id)) == IdAt(es, i + 1)
    && Prev(m, es[i].id).Some?
    && (i > 0 || !stale ==> Prev(m, es[i].id) == Some(Before(k, es, i)))
    && dueOf[es[i].stamp] == Origin(es, dueOf, base, i) + WHEEL_SIZE * Delta(m, es[i].id)
  }

  ghost predicate Distinct(es: seq<Entry>) {
    forall i, j :: 0 <= i < j < |es| ==> es[i].id != es[j].id
  }

  /** Earlier due ticks first; of equal ones the one scheduled last. */
  ghost predicate FiringOrder(es: seq<Entry>, dueOf: seq<nat>)
    requires forall j :: 0 <= j < |es| ==> es[j].stamp < |dueOf|
  {
    forall i, j :: 0 <= i < j < |es| ==> FiresBefore(es[i].stamp, es[j].stamp, dueOf)
  }

  predicate FiresBefore(s: nat, t: nat, dueOf: seq<nat>)
    requires s < |dueOf| && t < |dueOf|
  {
    dueOf[s] < dueOf[t] || (dueOf[s] == dueOf[t] && s > t)
  }

  function InsertAt(es: seq<Entry>, i: nat, e: Entry): seq<Entry>
    requires i <= |es|
  {
    es[..i] + [e] + es[i..]
  }

  function RemoveAt(es: seq<Entry>, i: nat): seq<Entry>
    requires i < |es|
  {
    es[..i] + es[i + 1..]
  }

  /** Lists whose nodes were not written to are as before. */
  lemma LinkedElsewhere(m: Mem, m': Mem, k: nat, es: seq<Entry>, dueOf: seq<nat>, base: nat, stale: bool)
    requires Linked(m, k, es, dueOf, base, stale)
    requires Next(m', Header(k)) == Next(m, Header(k)) || stale
    requires forall i :: 0 <= i < |es| ==>
               && Next(m', Cell(es[i].id)) == Next(m, Cell(es[i].id))
               && Prev(m', es[i].id) == Prev(m, es[i].id)
               && Delta(m', es[i].id) == Delta(m, es[i].id)
    ensures Linked(m', k, es, dueOf, base, stale)
  {
    forall i | 0 <= i < |es| ensures CellOk(m', k, es, dueOf, base, stale, i) {
      assert CellOk(m, k, es, dueOf, base, stale, i);
    }
  }

  /** New stamps do not affect the lists. */
  lemma LinkedGrow(m: Mem, k: nat, es: seq<Entry>, dueOf: seq<nat>, base: nat, stale: bool, due: nat)
    requires Linked(m, k, es, dueOf, base, stale)
    ensures Linked(m, k, es, dueOf + [due], base, stale)
  {
    forall i | 0 <= i < |es| ensures CellOk(m, k, es, dueOf + [due], base, stale, i) {
      assert CellOk(m, k, es, dueOf, base, stale, i);
    }
  }

  /** What LinkAfter writes, and that it writes nothing else. */
  lemma LinkAfterEffect(m: Mem, p: Node, t: TimerId, d: nat)
    requires p != Cell(t) && Next(m, p) != Some(t)
    ensures var m' := LinkAfter(m, p, t, d);
            && Next(m', p) == Some(t) && Next(m', Cell(t)) == Next(m, p)
            && Prev(m', t) == Some(p) && Delta(m', t) == d
            && (forall x: Node :: x != p && x != Cell(t) ==> Next(m', x) == Next(m, x))
            && (forall x: TimerId :: x != t && Next(m, p) != Some(x) ==>
               Prev(m', x) == Prev(m, x) && Delta(m', x) == Delta(m, x))
            && (forall x: TimerId :: Next(m, p) == Some(x) ==>
                  && Prev(m', x) == Some(Cell(t))
                  && Delta(m', x) == if Delta(m, x) >= d then Delta(m, x) - d else 0)
  {
  }

  /** The list with an entry more, place by place. */
  lemma InsertAtPlaces(es: seq<Entry>, i: nat, e: Entry)
    requires i <= |es|
    ensures |InsertAt(es, i, e)| == |es| + 1
    ensures forall j {:trigger InsertAt(es, i, e)[j]} :: 0 <= j <= |es| ==>
              InsertAt(es, i, e)[j] == if j < i then es[j] else if j == i then e else es[j - 1]
  {
  }

  /** timer_schedule links a timer into place i of its spoke. */
  lemma InsertLinked(m: Mem, k: nat, es: seq<Entry>, dueOf: seq<nat>, base: nat, stale: bool,
                     i: nat, e: Entry, d: nat)
    requires Linked(m, k, es, dueOf, base, stale) && Distinct(es)
    requires i <= |es| && (stale ==> i > 0)
    requires e.stamp < |dueOf| && forall j :: 0 <= j < |es| ==> es[j].id != e.id
    requires dueOf[e.stamp] == Origin(es, dueOf, base, i) + WHEEL_SIZE * d
    requires i < |es| ==> d <= Delta(m, es[i].id)
    ensures Linked(LinkAfter(m, Before(k, es, i), e.id, d), k, InsertAt(es, i, e), dueOf, base, stale)
  {
    hide LinkAfter, InsertAt;
    var m', es' := LinkAfter(m, Before(k, es, i), e.id, d), InsertAt(es, i, e);
    InsertAtPlaces(es, i, e);
    assert Next(m, Before(k, es, i)) == IdAt(es, i) by {
      if i > 0 { assert CellOk(m, k, es, dueOf, base, stale, i - 1); }
    }
    LinkAfterEffect(m, Before(k, es, i), e.id, d);
    forall j | 0 <= j < |es'| ensures CellOk(m', k, es', dueOf, base, stale, j) {
      if j < i {
        InsertCellBefore(m, k, es, dueOf, base, stale, i, e, d, j);
      } else if j > i {
        InsertCellBehind(m, k, es, dueOf, base, stale, i, e, d, j);
      }
    }
  }

  lemma InsertCellBefore(m: Mem, k: nat, es: seq<Entry>, dueOf: seq<nat>, base: nat, stale: bool,
                         i: nat, e: Entry, d: nat, j: nat)
    requires Linked(m, k, es, dueOf, base, stale) && Distinct(es)
    requires j < i <= |es|
    requires e.stamp < |dueOf| && forall j :: 0 <= j < |es| ==> es[j].id != e.id
    ensures forall j :: 0 <= j < |InsertAt(es, i, e)| ==> InsertAt(es, i, e)[j].stamp < |dueOf|
    ensures CellOk(LinkAfter(m, Before(k, es, i), e.id, d), k, InsertAt(es, i, e), dueOf, base, stale, j)
  {
    hide LinkAfter, InsertAt;
    InsertAtPlaces(es, i, e);
    assert CellOk(m, k, es, dueOf, base, stale, j);
    assert CellOk(m, k, es, dueOf, base, stale, i - 1);
    LinkAfterEffect(m, Before(k, es, i), e.id, d);
  }

  lemma InsertCellBehind(m: Mem, k: nat, es: seq<Entry>, dueOf: seq<nat>, base: nat, stale: bool,
                         i: nat, e: Entry, d: nat, j: nat)
    requires Linked(m, k, es, dueOf, base, stale) && Distinct(es)
    requires i < j <= |es| && (stale ==> i > 0)
    requires e.stamp < |dueOf| && forall j :: 0 <= j < |es| ==> es[j].id != e.id
    requires dueOf[e.stamp] == Origin(es, dueOf, base, i) + WHEEL_SIZE * d
    requires d <= Delta(m, es[i].id)
    ensures forall j :: 0 <= j < |InsertAt(es, i, e)| ==> InsertAt(es, i, e)[j].stamp < |dueOf|
    ensures CellOk(LinkAfter(m, Before(k, es, i), e.id, d), k, InsertAt(es, i, e), dueOf, base, stale, j)
  {
    hide LinkAfter, InsertAt;
    InsertAtPlaces(es, i, e);
    assert CellOk(m, k, es, dueOf, base, stale, j - 1);
    assert Next(m, Before(k, es, i)) == IdAt(es, i) by {
      if i > 0 { assert CellOk(m, k, es, dueOf, base, stale, i - 1); }
    }
    LinkAfterEffect(m, Before(k, es, i), e.id, d);
  }

  /** What Unlink writes, and that it writes nothing else. */
  lemma UnlinkEffect(m: Mem, t: TimerId)
    requires Prev(m, t).Some? && Next(m, Cell(t)) != Some(t)
    ensures var m', p, n := Unlink(m, t), Prev(m, t).value, Next(m, Cell(t));
            && (forall x: Node :: x != p ==> Next(m', x) == Next(m, x))
            && (p != Cell(t) ==> Next(m', p) == n)
            && (forall x: TimerId :: n != Some(x) ==> Prev(m', x) == Prev(m, x) && Delta(m', x) == Delta(m, x))
            && (forall x: TimerId :: n == Some(x) ==>
               Prev(m', x) == Some(p) && Delta(m', x) == Delta(m, x) + Delta(m, t))
  {
  }

  /** timer_cancel takes the timer at place i out of its spoke. */
  lemma RemoveLinked(m: Mem, k: nat, es: seq<Entry>, dueOf: seq<nat>, base: nat, stale: bool, i: nat)
    requires Linked(m, k, es, dueOf, base, stale) && Distinct(es)
    requires i < |es| && (stale ==> i > 0)
    ensures Prev(m, es[i].id) == Some(Before(k, es, i))
    ensures Linked(Unlink(m, es[i].id), k, RemoveAt(es, i), dueOf, base, stale)
  {
    assert CellOk(m, k, es, dueOf, base, stale, i);
    var m' := Unlink(m, es[i].id);
    var es' := RemoveAt(es, i);
    forall j | 0 <= j < |es'| ensures CellOk(m', k, es', dueOf, base, stale, j) {
      if j < i {
        assert CellOk(m, k, es, dueOf, base, stale, j);
      } else {
        assert CellOk(m, k, es, dueOf, base, stale, j + 1);
      }
    }
  }

  /** The first timer is freed: its successor becomes the first, with a stale header. */
  lemma FreedLinked(m: Mem, k: nat, es: seq<Entry>, dueOf: seq<nat>, base: nat, stale: bool, free: Option<TimerId>)
    requires Linked(m, k, es, dueOf, base, stale) && Distinct(es)
    requires es != [] && dueOf[es[0].stamp] == base
    ensures Linked(Freed(m, es[0].id, free), k, es[1..], dueOf, base, true)
  {
    var m', es' := Freed(m, es[0].id, free), es[1..];
    forall j | 0 <= j < |es'| ensures CellOk(m', k, es', dueOf, base, true, j) {
      assert CellOk(m, k, es, dueOf, base, stale, j + 1);
      assert es[j + 1].id != es[0].id;
    }
  }
}
