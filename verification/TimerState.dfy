/**
 All spokes of the timer wheel together, refined to a map from timers to due ticks, and
 the history of what was fired and cancelled.
 */
module TimerState {
  import opened Wrappers
  import opened TimerMemory

  /** The first tick not before the current one that belongs to spoke k. */
  function Base(tick: nat, k: nat): (b: nat)
    requires k < WHEEL_SIZE
    ensures tick <= b < tick + WHEEL_SIZE && b % WHEEL_SIZE == k
  {
    tick + (k + WHEEL_SIZE - tick % WHEEL_SIZE) % WHEEL_SIZE
  }

  lemma BaseUnique(tick: nat, k: nat, due: nat)
    requires k < WHEEL_SIZE && due % WHEEL_SIZE == k && due >= tick
    ensures due >= Base(tick, k)
    ensures due == Base(tick, k) + WHEEL_SIZE * ((due - tick) / WHEEL_SIZE)
  {
  }

  lemma BaseNext(tick: nat, k: nat)
    requires k < WHEEL_SIZE
    ensures Base(tick + 1, k) == if k == tick % WHEEL_SIZE then tick + WHEEL_SIZE else Base(tick, k)
    ensures k == tick % WHEEL_SIZE ==> Base(tick, k) == tick
  {
  }

  /**
   The wheel as a value: memory, the lists of its spokes, the due tick of every timer ever
   scheduled (indexed by stamp), the stamps of the timers now scheduled, and the current tick.
   */
  datatype Wheel = Wheel(
    mem: Mem,
    spokes: seq<seq<Entry>>,
    dueOf: seq<nat>,
    live: map<TimerId, nat>,
    tick: nat,
    stale: bool)

  function Curr(w: Wheel): nat { w.tick % WHEEL_SIZE }

  ghost predicate SpokeOk(w: Wheel, k: nat)
    requires k < |w.spokes| == WHEEL_SIZE
  {
    var es := w.spokes[k];
    && Linked(w.mem, k, es, w.dueOf, Base(w.tick, k), w.stale && k == Curr(w))
    && Distinct(es)
    && FiringOrder(es, w.dueOf)
    && forall i :: 0 <= i < |es| ==>
         es[i].id in w.live && w.live[es[i].id] == es[i].stamp && w.dueOf[es[i].stamp] % WHEEL_SIZE == k
  }

  /** The scheduled timer has its place on the spoke of its due tick. */
  ghost predicate OnSpoke(w: Wheel, t: TimerId)
    requires |w.spokes| == WHEEL_SIZE && t in w.live && w.live[t] < |w.dueOf|
  {
    Entry(t, w.live[t]) in w.spokes[w.dueOf[w.live[t]] % WHEEL_SIZE]
  }

  ghost predicate Good(w: Wheel) {
    && |w.spokes| == WHEEL_SIZE
    && (forall k {:trigger SpokeOk(w, k)} :: 0 <= k < WHEEL_SIZE ==> SpokeOk(w, k))
    && (forall t :: t in w.live ==> w.live[t] < |w.dueOf|)
    && (forall t {:trigger OnSpoke(w, t)} :: t in w.live ==> OnSpoke(w, t))
    && (forall t, u :: t in w.live && u in w.live && w.live[t] == w.live[u] ==> t == u)
  }

  /** Every scheduled timer is due at the current tick or later. */
  lemma NotOverdue(w: Wheel, k: nat, i: nat)
    requires Good(w) && k < WHEEL_SIZE && i < |w.spokes[k]|
    ensures w.spokes[k][i].stamp < |w.dueOf|
    ensures w.dueOf[w.spokes[k][i].stamp] >= Base(w.tick, k) >= w.tick
    decreases i
  {
    var es := w.spokes[k];
    assert SpokeOk(w, k);
    assert CellOk(w.mem, k, es, w.dueOf, Base(w.tick, k), w.stale && k == Curr(w), i);
    if i > 0 {
      NotOverdue(w, k, i - 1);
    }
  }

  lemma LiveDue(w: Wheel, t: TimerId)
    requires Good(w) && t in w.live
    ensures w.live[t] < |w.dueOf| && w.dueOf[w.live[t]] >= w.tick
  {
    assert OnSpoke(w, t);
    var k := w.dueOf[w.live[t]] % WHEEL_SIZE;
    var i :| 0 <= i < |w.spokes[k]| && w.spokes[k][i] == Entry(t, w.live[t]);
    NotOverdue(w, k, i);
  }

  /** Zeroing or freeing a timer that is not scheduled does not touch any spoke. */
  lemma MemoryElsewhere(w: Wheel, m: Mem)
    requires Good(w)
    requires forall k :: Next(m, Header(k)) == Next(w.mem, Header(k))
    requires forall t :: t in w.live ==>
               Next(m, Cell(t)) == Next(w.mem, Cell(t)) && Prev(m, t) == Prev(w.mem, t)
                   && Delta(m, t) == Delta(w.mem, t)
    ensures Good(w.(mem := m))
  {
    var w' := w.(mem := m);
    forall k | 0 <= k < WHEEL_SIZE ensures SpokeOk(w', k) {
      assert SpokeOk(w, k);
      LinkedElsewhere(w.mem, m, k, w.spokes[k], w.dueOf, Base(w.tick, k), w.stale && k == Curr(w));
    }
    forall t | t in w'.live ensures OnSpoke(w', t) {
      assert OnSpoke(w, t);
    }
  }

  /** The wheel after timer t was linked into place i of spoke k, d rounds after its predecessor. */
  function Scheduled(w: Wheel, t: TimerId, due: nat, k: nat, i: nat, d: nat): Wheel
    requires k < |w.spokes| && i <= |w.spokes[k]|
  {
    w.(mem := LinkAfter(w.mem, Before(k, w.spokes[k], i), t, d),
       spokes := w.spokes[k := InsertAt(w.spokes[k], i, Entry(t, |w.dueOf|))],
       dueOf := w.dueOf + [due],
       live := w.live[t := |w.dueOf|])
  }

  /** Place i is where timer_schedule stops: behind everything due earlier, before everything else. */
  ghost predicate Place(w: Wheel, due: nat, k: nat, i: nat, d: nat)
    requires Good(w) && k < WHEEL_SIZE
  {
    var es := w.spokes[k];
    assert SpokeOk(w, k);
    && i <= |es|
    && due % WHEEL_SIZE == k
    && due == Origin(es, w.dueOf, Base(w.tick, k), i) + WHEEL_SIZE * d
    && (i > 0 ==> w.dueOf[es[i - 1].stamp] < due)
    && (i < |es| ==> d <= Delta(w.mem, es[i].id))
  }

  lemma ScheduleGood(w: Wheel, t: TimerId, due: nat, k: nat, i: nat, d: nat)
    requires Good(w) && t !in w.live && k < WHEEL_SIZE && Place(w, due, k, i, d)
    requires w.stale && k == Curr(w) ==> i > 0
    ensures Good(Scheduled(w, t, due, k, i, d))
  {
    var w' := Scheduled(w, t, due, k, i, d);
    var es, p := w.spokes[k], Before(k, w.spokes[k], i);
    assert SpokeOk(w, k);
    forall m | 0 <= m < WHEEL_SIZE ensures SpokeOk(w', m) {
      if m == k {
        InsertSpoke(w, t, due, k, i, d);
      } else {
        KeepSpoke(w, t, due, k, i, d, m);
      }
    }
    forall u | u in w'.live ensures OnSpoke(w', u) {
      InsertKeeps(es, i, Entry(t, |w.dueOf|));
      if u != t {
        assert OnSpoke(w, u);
      }
    }
  }

  lemma InsertKeeps(es: seq<Entry>, i: nat, e: Entry)
    requires i <= |es|
    ensures e in InsertAt(es, i, e)
    ensures forall x :: x in es ==> x in InsertAt(es, i, e)
  {
    assert es == es[..i] + es[i..];
    assert InsertAt(es, i, e)[i] == e;
  }

  lemma InsertSpoke(w: Wheel, t: TimerId, due: nat, k: nat, i: nat, d: nat)
    requires Good(w) && t !in w.live && k < WHEEL_SIZE && Place(w, due, k, i, d)
    requires w.stale && k == Curr(w) ==> i > 0
    ensures SpokeOk(Scheduled(w, t, due, k, i, d), k)
  {
    var w' := Scheduled(w, t, due, k, i, d);
    var es, e, stale, base := w.spokes[k], Entry(t, |w.dueOf|), w.stale && k == Curr(w), Base(w.tick, k);
    assert SpokeOk(w, k);
    LinkedGrow(w.mem, k, es, w.dueOf, base, stale, due);
    assert Origin(es, w'.dueOf, base, i) == Origin(es, w.dueOf, base, i);
    InsertLinked(w.mem, k, es, w'.dueOf, base, stale, i, e, d);
    InsertOrder(w, due, k, i, d, e);
    InsertListed(w, t, due, k, i, d);
    hide Good, Linked, CellOk, FiringOrder, LinkAfter, Base, InsertAt;
  }

  lemma InsertListed(w: Wheel, t: TimerId, due: nat, k: nat, i: nat, d: nat)
    requires Good(w) && t !in w.live && k < WHEEL_SIZE && Place(w, due, k, i, d)
    ensures var w' := Scheduled(w, t, due, k, i, d);
            forall j :: 0 <= j < |w'.spokes[k]| ==>
              && w'.spokes[k][j].id in w'.live && w'.live[w'.spokes[k][j].id] == w'.spokes[k][j].stamp
              && w'.dueOf[w'.spokes[k][j].stamp] % WHEEL_SIZE == k
  {
    assert SpokeOk(w, k);
    hide Linked, FiringOrder, LinkAfter, Base, Distinct;
  }

  lemma InsertOrder(w: Wheel, due: nat, k: nat, i: nat, d: nat, e: Entry)
    requires Good(w) && k < WHEEL_SIZE && Place(w, due, k, i, d) && e.stamp == |w.dueOf|
    ensures forall j :: 0 <= j < |w.spokes[k]| ==> w.spokes[k][j].stamp < |w.dueOf|
    ensures forall j :: 0 <= j < |InsertAt(w.spokes[k], i, e)| ==> InsertAt(w.spokes[k], i, e)[j].stamp < |w.dueOf| + 1
    ensures FiringOrder(InsertAt(w.spokes[k], i, e), w.dueOf + [due])
  {
    var es, dueOf := w.spokes[k], w.dueOf + [due];
    assert SpokeOk(w, k);
    forall j | 0 <= j < |es| ensures if j < i then w.dueOf[es[j].stamp] < due else w.dueOf[es[j].stamp] >= due {
      if j < i - 1 {
        assert FiresBefore(es[j].stamp, es[i - 1].stamp, w.dueOf);
      } else if j >= i {
        assert CellOk(w.mem, k, es, w.dueOf, Base(w.tick, k), w.stale && k == Curr(w), i);
        if j > i {
          assert FiresBefore(es[i].stamp, es[j].stamp, w.dueOf);
        }
      }
    }
    hide Good, SpokeOk, Linked, Place;
    InsertFires(es, w.dueOf, due, i, e);
  }

  /** A new entry between those due earlier and all others. */
  lemma InsertFires(es: seq<Entry>, dueOf: seq<nat>, due: nat, i: nat, e: Entry)
    requires i <= |es| && e.stamp == |dueOf| && (forall j :: 0 <= j < |es| ==> es[j].stamp < |dueOf|)
             && FiringOrder(es, dueOf)
    requires forall j :: 0 <= j < |es| ==> if j < i then dueOf[es[j].stamp] < due else dueOf[es[j].stamp] >= due
    ensures forall j :: 0 <= j < |InsertAt(es, i, e)| ==> InsertAt(es, i, e)[j].stamp < |dueOf| + 1
    ensures FiringOrder(InsertAt(es, i, e), dueOf + [due])
  {
    var es' := InsertAt(es, i, e);
    forall a, b | 0 <= a < b < |es'| ensures FiresBefore(es'[a].stamp, es'[b].stamp, dueOf + [due]) {
      if a != i && b != i {
        var a0, b0 := if a < i then a else a - 1, if b < i then b else b - 1;
        assert FiresBefore(es[a0].stamp, es[b0].stamp, dueOf);
      }
    }
  }

  lemma BeforeNext(w: Wheel, k: nat, i: nat)
    requires k < |w.spokes| == WHEEL_SIZE && SpokeOk(w, k) && i <= |w.spokes[k]|
    requires w.stale && k == Curr(w) ==> i > 0
    ensures Next(w.mem, Before(k, w.spokes[k], i)) == IdAt(w.spokes[k], i)
  {
    if i > 0 {
      assert CellOk(w.mem, k, w.spokes[k], w.dueOf, Base(w.tick, k), w.stale && k == Curr(w), i - 1);
    }
  }

  /** Linking on spoke k leaves the list of another spoke linked. */
  lemma OtherLinked(w: Wheel, t: TimerId, due: nat, k: nat, i: nat, d: nat, m: nat)
    requires Good(w) && t !in w.live && k < WHEEL_SIZE && Place(w, due, k, i, d)
    requires w.stale && k == Curr(w) ==> i > 0
    requires m < WHEEL_SIZE && m != k
    ensures Linked(Scheduled(w, t, due, k, i, d).mem, m, w.spokes[m], w.dueOf, Base(w.tick, m), w.stale && m == Curr(w))
  {
    var es, p, other := w.spokes[k], Before(k, w.spokes[k], i), w.spokes[m];
    assert SpokeOk(w, k) && SpokeOk(w, m);
    BeforeNext(w, k, i);
    hide LinkAfter, Place, Good, InsertAt, CellOk, FiringOrder, Linked, Distinct, Base;
    LinkAfterEffect(w.mem, p, t, d);
    LinkedElsewhere(w.mem, LinkAfter(w.mem, p, t, d), m, other, w.dueOf, Base(w.tick, m), w.stale && m == Curr(w));
  }

  lemma KeepSpoke(w: Wheel, t: TimerId, due: nat, k: nat, i: nat, d: nat, m: nat)
    requires Good(w) && t !in w.live && k < WHEEL_SIZE && Place(w, due, k, i, d)
    requires w.stale && k == Curr(w) ==> i > 0
    requires m < WHEEL_SIZE && m != k
    ensures SpokeOk(Scheduled(w, t, due, k, i, d), m)
  {
    var w' := Scheduled(w, t, due, k, i, d);
    var other := w.spokes[m];
    assert SpokeOk(w, m);
    OtherLinked(w, t, due, k, i, d, m);
    hide LinkAfter, Place, Good, InsertAt, CellOk, FiringOrder, Linked, Distinct, Base;
    LinkedGrow(w'.mem, m, other, w.dueOf, Base(w.tick, m), w.stale && m == Curr(w), due);
    OrderGrow(other, w.dueOf, due);
    assert w'.spokes[m] == other;
    assert forall x :: 0 <= x < |other| ==> w'.live[other[x].id] == w.live[other[x].id];
  }

  lemma OrderGrow(es: seq<Entry>, dueOf: seq<nat>, due: nat)
    requires (forall j :: 0 <= j < |es| ==> es[j].stamp < |dueOf|) && FiringOrder(es, dueOf)
    ensures FiringOrder(es, dueOf + [due])
  {
    forall a, b | 0 <= a < b < |es| ensures FiresBefore(es[a].stamp, es[b].stamp, dueOf + [due]) {
      assert FiresBefore(es[a].stamp, es[b].stamp, dueOf);
    }
  }

  /** The wheel after the timer at place i of spoke k was taken out. */
  function Cancelled(w: Wheel, k: nat, i: nat): Wheel
    requires k < |w.spokes| && i < |w.spokes[k]| && Prev(w.mem, w.spokes[k][i].id).Some?
  {
    w.(mem := Unlink(w.mem, w.spokes[k][i].id),
       spokes := w.spokes[k := RemoveAt(w.spokes[k], i)],
       live := w.live - {w.spokes[k][i].id})
  }

  lemma CancelGood(w: Wheel, k: nat, i: nat)
    requires Good(w) && k < WHEEL_SIZE && i < |w.spokes[k]|
    requires w.stale && k == Curr(w) ==> i > 0
    ensures Prev(w.mem, w.spokes[k][i].id).Some?
    ensures Good(Cancelled(w, k, i))
  {
    var es, stale := w.spokes[k], w.stale && k == Curr(w);
    assert SpokeOk(w, k);
    RemoveLinked(w.mem, k, es, w.dueOf, Base(w.tick, k), stale, i);
    var w' := Cancelled(w, k, i);
    assert CellOk(w.mem, k, es, w.dueOf, Base(w.tick, k), stale, i);
    UnlinkEffect(w.mem, es[i].id);
    hide Unlink;
    RemoveGood(w, w', k, i);
  }

  /** Taking an entry off its spoke, given that the memory fits. */
  lemma RemoveGood(w: Wheel, w': Wheel, k: nat, i: nat)
    requires Good(w) && k < WHEEL_SIZE && i < |w.spokes[k]|
    requires w' == w.(mem := w'.mem, spokes := w.spokes[k := RemoveAt(w.spokes[k], i)],
             live := w.live - {w.spokes[k][i].id},
                      stale := w'.stale)
    requires Linked(w'.mem, k, RemoveAt(w.spokes[k], i), w.dueOf, Base(w.tick, k), w'.stale && k == Curr(w))
    requires w'.stale == w.stale || k == Curr(w)
    requires forall m :: m != k ==> Next(w'.mem, Header(m)) == Next(w.mem, Header(m))
    requires forall t :: t in w.live && w.live[t] < |w.dueOf| && w.dueOf[w.live[t]] % WHEEL_SIZE != k ==>
               && Next(w'.mem, Cell(t)) == Next(w.mem, Cell(t)) && Prev(w'.mem, t) == Prev(w.mem, t)
               && Delta(w'.mem, t) == Delta(w.mem, t)
    ensures Good(w')
  {
    assert SpokeOk(w, k);
    forall m | 0 <= m < WHEEL_SIZE ensures SpokeOk(w', m) {
      if m == k {
        RemovedSpoke(w, w', k, i);
      } else {
        OtherSpoke(w, w', k, m, w.spokes[k][i].id);
      }
    }
    forall u | u in w'.live ensures OnSpoke(w', u) {
      StillOnSpoke(w, w', k, i, u);
    }
    hide SpokeOk, OnSpoke, Linked;
  }

  lemma RemovedSpoke(w: Wheel, w': Wheel, k: nat, i: nat)
    requires Good(w) && k < WHEEL_SIZE && i < |w.spokes[k]| && |w'.spokes| == WHEEL_SIZE
    requires w'.spokes[k] == RemoveAt(w.spokes[k], i) && w'.live == w.live - {w.spokes[k][i].id}
    requires w'.dueOf == w.dueOf && w'.tick == w.tick
    requires Linked(w'.mem, k, RemoveAt(w.spokes[k], i), w.dueOf, Base(w.tick, k), w'.stale && k == Curr(w))
    ensures SpokeOk(w', k)
  {
    assert SpokeOk(w, k);
    RemoveSpoke(w.spokes[k], i, w.dueOf);
    hide Linked, RemoveAt, Base;
  }

  lemma OtherSpoke(w: Wheel, w': Wheel, k: nat, m: nat, x: TimerId)
    requires Good(w) && k < WHEEL_SIZE && m < WHEEL_SIZE && m != k && |w'.spokes| == WHEEL_SIZE
    requires w'.spokes[m] == w.spokes[m] && w'.dueOf == w.dueOf && w'.tick == w.tick
    requires w'.stale == w.stale || k == Curr(w)
    requires x in w.live && w.dueOf[w.live[x]] % WHEEL_SIZE == k && w'.live == w.live - {x}
    requires Next(w'.mem, Header(m)) == Next(w.mem, Header(m))
    requires forall t :: t in w.live && w.live[t] < |w.dueOf| && w.dueOf[w.live[t]] % WHEEL_SIZE != k ==>
               && Next(w'.mem, Cell(t)) == Next(w.mem, Cell(t)) && Prev(w'.mem, t) == Prev(w.mem, t)
               && Delta(w'.mem, t) == Delta(w.mem, t)
    ensures SpokeOk(w', m)
  {
    assert SpokeOk(w, m);
    LinkedElsewhere(w.mem, w'.mem, m, w.spokes[m], w.dueOf, Base(w.tick, m), w.stale && m == Curr(w));
    hide Linked, Base;
  }

  lemma StillOnSpoke(w: Wheel, w': Wheel, k: nat, i: nat, u: TimerId)
    requires Good(w) && k < WHEEL_SIZE && i < |w.spokes[k]|
    requires w'.spokes == w.spokes[k := RemoveAt(w.spokes[k], i)] && w'.live == w.live - {w.spokes[k][i].id}
    requires w'.dueOf == w.dueOf && u in w'.live
    ensures OnSpoke(w', u)
  {
    assert SpokeOk(w, k) && OnSpoke(w, u);
    RemoveSpoke(w.spokes[k], i, w.dueOf);
    hide RemoveAt, Linked;
  }

  /** An entry fewer: the others stay, distinct and in order. */
  lemma RemoveSpoke(es: seq<Entry>, i: nat, dueOf: seq<nat>)
    requires i < |es| && (forall j :: 0 <= j < |es| ==> es[j].stamp < |dueOf|)
    requires Distinct(es) && FiringOrder(es, dueOf)
    ensures Distinct(RemoveAt(es, i))
    ensures forall j :: 0 <= j < |RemoveAt(es, i)| ==> RemoveAt(es, i)[j] in es && RemoveAt(es, i)[j].id != es[i].id
    ensures forall j :: 0 <= j < |RemoveAt(es, i)| ==> RemoveAt(es, i)[j].stamp < |dueOf|
    ensures FiringOrder(RemoveAt(es, i), dueOf)
    ensures forall e :: e in es && e.id != es[i].id ==> e in RemoveAt(es, i)
  {
    var es' := RemoveAt(es, i);
    forall j | 0 <= j < |es'| ensures es'[j].id != es[i].id && es'[j] in es {
      assert es'[j] == es[if j < i then j else j + 1];
    }
    forall a, b | 0 <= a < b < |es'| ensures es'[a].id != es'[b].id && FiresBefore(es'[a].stamp, es'[b].stamp, dueOf) {
      var a0, b0 := if a < i then a else a + 1, if b < i then b else b + 1;
      assert es'[a] == es[a0] && es'[b] == es[b0];
      assert FiresBefore(es[a0].stamp, es[b0].stamp, dueOf);
    }
    assert es == es[..i] + [es[i]] + es[i + 1..];
  }

  /** The first timer of the current spoke is due now. */
  predicate FirstDue(w: Wheel) {
    |w.spokes| == WHEEL_SIZE && w.spokes[Curr(w)] != [] && w.spokes[Curr(w)][0].stamp < |w.dueOf|
    && w.dueOf[w.spokes[Curr(w)][0].stamp] == w.tick
  }

  /** The wheel after the first timer of the current spoke was fired and freed. */
  function Fired(w: Wheel, free: Option<TimerId>): Wheel
    requires FirstDue(w)
  {
    var k := Curr(w);
    var t := w.spokes[k][0].id;
    w.(mem := Freed(w.mem, t, free), spokes := w.spokes[k := RemoveAt(w.spokes[k], 0)], live := w.live - {t},
       stale := true)
  }

  lemma FireGood(w: Wheel, free: Option<TimerId>)
    requires Good(w) && FirstDue(w)
    ensures Good(Fired(w, free))
    ensures Next(w.mem, Cell(w.spokes[Curr(w)][0].id)) == IdAt(w.spokes[Curr(w)], 1)
  {
    var k := Curr(w);
    var es, w' := w.spokes[k], Fired(w, free);
    assert SpokeOk(w, k);
    BaseNext(w.tick, k);
    assert CellOk(w.mem, k, es, w.dueOf, Base(w.tick, k), w.stale, 0);
    FreedLinked(w.mem, k, es, w.dueOf, w.tick, w.stale, free);
    assert RemoveAt(es, 0) == es[1..];
    RemoveGood(w, w', k, 0);
  }

  /** The first timer of the current spoke is due now exactly when its delta is zero. */
  lemma DueIsDelta(w: Wheel)
    requires Good(w) && w.spokes[Curr(w)] != []
    ensures FirstDue(w) <==> Delta(w.mem, w.spokes[Curr(w)][0].id) == 0
    ensures !w.stale ==> Next(w.mem, Header(Curr(w))) == Some(w.spokes[Curr(w)][0].id)
  {
    var k := Curr(w);
    assert SpokeOk(w, k);
    BaseNext(w.tick, k);
    assert CellOk(w.mem, k, w.spokes[k], w.dueOf, Base(w.tick, k), w.stale, 0);
  }

  /** The end of timer_tick's loop body: t is the first timer left on the current spoke. */
  function Advanced(w: Wheel, t: Option<TimerId>): Wheel {
    var k := Curr(w);
    var m := SetNext(w.mem, Header(k), t);
    var m' := match t
      case None => m
      case Some(x) => m.(prev := m.prev[x := Header(k)],
          delta := m.delta[x := if Delta(m, x) > 0 then Delta(m, x) - 1 else 0]);
    w.(mem := m', tick := w.tick + 1, stale := false)
  }

  lemma AdvanceGood(w: Wheel, t: Option<TimerId>)
    requires Good(w) && t == IdAt(w.spokes[Curr(w)], 0) && !FirstDue(w)
    ensures Good(Advanced(w, t))
  {
    var k, w' := Curr(w), Advanced(w, t);
    var es := w.spokes[k];
    assert SpokeOk(w, k);
    if es != [] {
      DueIsDelta(w);
    }
    forall m | 0 <= m < WHEEL_SIZE ensures SpokeOk(w', m) {
      assert SpokeOk(w, m);
      BaseNext(w.tick, m);
      if m == k {
        AdvanceSpoke(w, t);
      } else {
        LinkedElsewhere(w.mem, w'.mem, m, w.spokes[m], w.dueOf, Base(w.tick, m), false);
      }
    }
    forall u | u in w'.live ensures OnSpoke(w', u) {
      assert OnSpoke(w, u);
    }
  }

  /** What is left on the current spoke is one round closer. */
  lemma AdvanceSpoke(w: Wheel, t: Option<TimerId>)
    requires Good(w) && t == IdAt(w.spokes[Curr(w)], 0) && !FirstDue(w)
    ensures var k, w' := Curr(w), Advanced(w, t);
            && (forall j :: 0 <= j < |w.spokes[k]| ==> w.spokes[k][j].stamp < |w.dueOf|)
            && Linked(w'.mem, k, w.spokes[k], w.dueOf, w.tick + WHEEL_SIZE, false)
  {
    var k, w', base := Curr(w), Advanced(w, t), w.tick + WHEEL_SIZE;
    var es := w.spokes[k];
    assert SpokeOk(w, k);
    BaseNext(w.tick, k);
    if es != [] {
      DueIsDelta(w);
    }
    forall j | 0 <= j < |es| ensures CellOk(w'.mem, k, es, w.dueOf, base, false, j) {
      assert CellOk(w.mem, k, es, w.dueOf, w.tick, w.stale, j);
    }
  }

  // ---- history ----

  /**
   Of all timers ever scheduled, each is either still scheduled, or was fired, once and at its
   due tick, or was cancelled (recorded with its id); firing follows the due ticks, and among equal ones the timer
   scheduled last fires first.
   */
  datatype History = History(fired: seq<(nat, nat)>, cancelled: map<nat, TimerId>)

  ghost predicate Told(w: Wheel, h: History) {
    FiredRight(w, h) && CancelledApart(w, h) && Covered(w, h)
  }

  /** Each timer fired at its due tick, in firing order, and before everything that is still scheduled. */
  ghost predicate FiredRight(w: Wheel, h: History) {
    && (forall i :: 0 <= i < |h.fired| ==> h.fired[i].0 < |w.dueOf| && h.fired[i].1 == w.dueOf[h.fired[i].0] <= w.tick)
    && (!w.stale ==> forall i :: 0 <= i < |h.fired| ==> h.fired[i].1 < w.tick)
    && (forall i, j :: 0 <= i < j < |h.fired| ==> FiresBefore(h.fired[i].0, h.fired[j].0, w.dueOf))
    && (forall i, t :: 0 <= i < |h.fired| && t in w.live && w.live[t] < |w.dueOf| ==>
          FiresBefore(h.fired[i].0, w.live[t], w.dueOf))
  }

  /** What was cancelled was not fired and is not scheduled. */
  ghost predicate CancelledApart(w: Wheel, h: History) {
    && (forall s :: s in h.cancelled ==> s < |w.dueOf|)
    && (forall i :: 0 <= i < |h.fired| ==> h.fired[i].0 !in h.cancelled)
    && (forall t :: t in w.live ==> w.live[t] !in h.cancelled)
  }

  /** Nothing that was ever scheduled is forgotten. */
  ghost predicate Covered(w: Wheel, h: History) {
    forall s: nat :: s < |w.dueOf| ==> s in h.cancelled || WasFired(h, s) || IsLive(w, s)
  }

  ghost predicate WasFired(h: History, s: nat) { exists i :: 0 <= i < |h.fired| && h.fired[i].0 == s }

  ghost predicate IsLive(w: Wheel, s: nat) { exists t :: t in w.live && w.live[t] == s }

  lemma ToldSchedule(w: Wheel, h: History, t: TimerId, due: nat, k: nat, i: nat, d: nat)
    requires Told(w, h) && k < |w.spokes| && i <= |w.spokes[k]| && due > w.tick && t !in w.live
    requires forall u :: u in w.live ==> w.live[u] < |w.dueOf|
    ensures Told(Scheduled(w, t, due, k, i, d), h)
  {
    var w' := Scheduled(w, t, due, k, i, d);
    forall s: nat | s < |w'.dueOf| ensures s in h.cancelled || WasFired(h, s) || IsLive(w', s) {
      if s == |w.dueOf| {
        assert t in w'.live && w'.live[t] == s;
      } else if IsLive(w, s) {
        var u :| u in w.live && w.live[u] == s;
        assert u in w'.live && w'.live[u] == s;
      }
    }
    forall a, b | 0 <= a < b < |h.fired| ensures FiresBefore(h.fired[a].0, h.fired[b].0, w'.dueOf) {
      assert FiresBefore(h.fired[a].0, h.fired[b].0, w.dueOf);
    }
    forall a, u | 0 <= a < |h.fired| && u in w'.live ensures FiresBefore(h.fired[a].0, w'.live[u], w'.dueOf) {
      if u != t {
        assert FiresBefore(h.fired[a].0, w.live[u], w.dueOf);
      }
    }
  }

  /** Only due ticks, scheduled timers and the tick matter. */
  lemma ToldSame(w: Wheel, w': Wheel, h: History)
    requires Told(w, h) && w'.dueOf == w.dueOf && w'.live == w.live && w'.tick == w.tick && w'.stale == w.stale
    ensures Told(w', h)
  {
    assert forall s: nat :: IsLive(w', s) == IsLive(w, s);
  }

  lemma ToldCancel(w: Wheel, h: History, k: nat, i: nat)
    requires Good(w) && Told(w, h) && k < WHEEL_SIZE && i < |w.spokes[k]| && Prev(w.mem, w.spokes[k][i].id).Some?
    ensures Told(Cancelled(w, k, i), h.(cancelled := h.cancelled[w.spokes[k][i].stamp := w.spokes[k][i].id]))
  {
    var e := w.spokes[k][i];
    assert SpokeOk(w, k);
    assert e.id in w.live && w.live[e.id] == e.stamp < |w.dueOf|;
    assert forall t, u :: t in w.live && u in w.live && w.live[t] == w.live[u] ==> t == u;
    hide Good, SpokeOk, Linked, Unlink, RemoveAt, Told;
    ToldDrop(w, Cancelled(w, k, i), h, e);
  }

  /** One timer less on the wheel, recorded as cancelled. */
  lemma ToldDrop(w: Wheel, w': Wheel, h: History, e: Entry)
    requires Told(w, h) && e.id in w.live && w.live[e.id] == e.stamp < |w.dueOf|
    requires forall t, u :: t in w.live && u in w.live && w.live[t] == w.live[u] ==> t == u
    requires w'.live == w.live - {e.id} && w'.dueOf == w.dueOf && w'.tick == w.tick && w'.stale == w.stale
    ensures Told(w', h.(cancelled := h.cancelled[e.stamp := e.id]))
  {
    var h' := h.(cancelled := h.cancelled[e.stamp := e.id]);
    DropApart(w, w', h, e);
    DropCovered(w, w', h, e);
    hide CancelledApart, Covered, FiresBefore;
  }

  lemma DropApart(w: Wheel, w': Wheel, h: History, e: Entry)
    requires FiredRight(w, h) && CancelledApart(w, h) && e.id in w.live && w.live[e.id] == e.stamp < |w.dueOf|
    requires forall t, u :: t in w.live && u in w.live && w.live[t] == w.live[u] ==> t == u
    requires w'.live == w.live - {e.id} && w'.dueOf == w.dueOf
    ensures CancelledApart(w', h.(cancelled := h.cancelled[e.stamp := e.id]))
  {
    forall j | 0 <= j < |h.fired| ensures h.fired[j].0 != e.stamp {
      assert FiresBefore(h.fired[j].0, w.live[e.id], w.dueOf);
    }
    hide FiredRight, FiresBefore;
  }

  lemma DropCovered(w: Wheel, w': Wheel, h: History, e: Entry)
    requires Covered(w, h) && e.id in w.live && w.live[e.id] == e.stamp < |w.dueOf|
    requires w'.live == w.live - {e.id} && w'.dueOf == w.dueOf
    ensures Covered(w', h.(cancelled := h.cancelled[e.stamp := e.id]))
  {
    var h' := h.(cancelled := h.cancelled[e.stamp := e.id]);
    forall s: nat | s < |w'.dueOf| ensures s in h'.cancelled || WasFired(h', s) || IsLive(w', s) {
      if WasFired(h, s) {
        var j :| 0 <= j < |h.fired| && h.fired[j].0 == s;
        assert h'.fired[j].0 == s;
      } else if IsLive(w, s) && s != e.stamp {
        var u :| u in w.live && w.live[u] == s;
        assert u in w'.live && w'.live[u] == s;
      }
    }
  }

  lemma ToldFire(w: Wheel, h: History, free: Option<TimerId>)
    requires Good(w) && Told(w, h) && FirstDue(w)
    ensures Told(Fired(w, free), h.(fired := h.fired + [(w.spokes[Curr(w)][0].stamp, w.tick)]))
  {
    var e := w.spokes[Curr(w)][0];
    assert SpokeOk(w, Curr(w));
    assert e.id in w.live && w.live[e.id] == e.stamp;
    forall t | t in w.live && t != e.id ensures FiresBefore(e.stamp, w.live[t], w.dueOf) {
      FirstFiresFirst(w, t);
    }
    hide Good, FirstDue;
    ToldOne(w, Fired(w, free), h, e);
  }

  lemma FirstFiresFirst(w: Wheel, t: TimerId)
    requires Good(w) && FirstDue(w) && t in w.live && t != w.spokes[Curr(w)][0].id
    ensures w.live[t] < |w.dueOf| && FiresBefore(w.spokes[Curr(w)][0].stamp, w.live[t], w.dueOf)
  {
    var es := w.spokes[Curr(w)];
    assert SpokeOk(w, Curr(w));
    LiveDue(w, t);
    assert OnSpoke(w, t);
    if w.dueOf[w.live[t]] == w.tick {
      var j :| 0 <= j < |es| && es[j] == Entry(t, w.live[t]);
      assert FiresBefore(es[0].stamp, es[j].stamp, w.dueOf);
    }
  }

  /** One more timer fired, now, before everything still scheduled. */
  lemma ToldOne(w: Wheel, w': Wheel, h: History, e: Entry)
    requires Told(w, h) && e.id in w.live && w.live[e.id] == e.stamp < |w.dueOf| && w.dueOf[e.stamp] == w.tick
    requires w'.live == w.live - {e.id} && w'.dueOf == w.dueOf && w'.tick == w.tick && w'.stale
    requires forall t :: t in w.live ==> w.live[t] < |w.dueOf|
    requires forall t :: t in w.live && t != e.id ==> FiresBefore(e.stamp, w.live[t], w.dueOf)
    ensures Told(w', h.(fired := h.fired + [(e.stamp, w.tick)]))
  {
    FiredOne(w, w', h, e);
    FiredCovered(w, w', h, e);
    hide FiredRight, Covered, WasFired, IsLive;
    assert CancelledApart(w', h.(fired := h.fired + [(e.stamp, w.tick)]));
  }

  lemma FiredOne(w: Wheel, w': Wheel, h: History, e: Entry)
    requires FiredRight(w, h) && e.id in w.live && w.live[e.id] == e.stamp < |w.dueOf| && w.dueOf[e.stamp] == w.tick
    requires w'.live == w.live - {e.id} && w'.dueOf == w.dueOf && w'.tick == w.tick && w'.stale
    requires forall t :: t in w.live && t != e.id ==> w.live[t] < |w.dueOf| && FiresBefore(e.stamp, w.live[t], w.dueOf)
    ensures FiredRight(w', h.(fired := h.fired + [(e.stamp, w.tick)]))
  {
    var h' := h.(fired := h.fired + [(e.stamp, w.tick)]);
    forall a, b | 0 <= a < b < |h'.fired| ensures FiresBefore(h'.fired[a].0, h'.fired[b].0, w.dueOf) {
      if b == |h.fired| {
        assert FiresBefore(h.fired[a].0, w.live[e.id], w.dueOf);
      }
    }
    hide FiresBefore;
  }

  /** A fired timer is not scheduled any more; nothing else is lost. */
  lemma FiredCovered(w: Wheel, w': Wheel, h: History, e: Entry)
    requires Covered(w, h) && w'.live == w.live - {e.id} && w'.dueOf == w.dueOf && e.id in w.live
             && w.live[e.id] == e.stamp
    ensures Covered(w', h.(fired := h.fired + [(e.stamp, w.tick)]))
  {
    var h' := h.(fired := h.fired + [(e.stamp, w.tick)]);
    forall s: nat | s < |w'.dueOf| ensures s in h'.cancelled || WasFired(h', s) || IsLive(w', s) {
      if s == e.stamp {
        assert h'.fired[|h.fired|].0 == s;
      } else if WasFired(h, s) {
        var j :| 0 <= j < |h.fired| && h.fired[j].0 == s;
        assert h'.fired[j].0 == s;
      } else if IsLive(w, s) {
        var u :| u in w.live && w.live[u] == s;
        assert u in w'.live && w'.live[u] == s;
      }
    }
  }

  /** A timer that was due before the current tick and was not cancelled has been fired, at its due tick. */
  lemma PastTimersFired(w: Wheel, h: History, s: nat)
    requires Good(w) && Told(w, h) && s < |w.dueOf| && w.dueOf[s] < w.tick && s !in h.cancelled
    ensures exists i :: 0 <= i < |h.fired| && h.fired[i] == (s, w.dueOf[s])
    ensures forall i, j :: 0 <= i < j < |h.fired| ==> h.fired[i].0 != h.fired[j].0
  {
    if IsLive(w, s) {
      var t :| t in w.live && w.live[t] == s;
      LiveDue(w, t);
      assert false;
    }
    var i :| 0 <= i < |h.fired| && h.fired[i].0 == s;
    assert h.fired[i] == (s, w.dueOf[s]);
  }
}
