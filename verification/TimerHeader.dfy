/**
 The header of the current spoke while timers are being fired (timer.c): from the first timer
 freed in a tick on it points off the spoke's own list, and stays so until the wheel turns.
 */
module TimerHeader {
  import opened Wrappers
  import opened TimerMemory
  import opened TimerState
  import opened TimerFree

  /** A timer that is not on the current spoke: freed, just taken, or scheduled elsewhere. */
  ghost predicate OffSpoke(w: Wheel, freed: seq<TimerId>, taken: Option<TimerId>, u: TimerId) {
    u in freed || taken == Some(u)
        || (u in w.live && w.live[u] < |w.dueOf| && w.dueOf[w.live[u]] % WHEEL_SIZE != Curr(w))
  }

  /** The stale header of the current spoke points off the spoke. */
  ghost predicate LateHeader(w: Wheel, freed: seq<TimerId>, taken: Option<TimerId>) {
    w.stale ==> Next(w.mem, Header(Curr(w))).Some? && OffSpoke(w, freed, taken, Next(w.mem, Header(Curr(w))).value)
  }

  /** LinkAfter writes to these places only, wherever it is told to link. */
  lemma LinkAfterFrame(m: Mem, p: Node, t: TimerId, d: nat)
    ensures var m' := LinkAfter(m, p, t, d);
            && (forall x: Node :: x != p && x != Cell(t) ==> Next(m', x) == Next(m, x))
            && (forall x: TimerId :: x != t && Next(m, p) != Some(x) ==>
               Prev(m', x) == Prev(m, x) && Delta(m', x) == Delta(m, x))
  {
  }

  /** The header is late from the first timer freed in a tick ... */
  lemma LateFire(w: Wheel, freed: seq<TimerId>, free: Option<TimerId>)
    requires Good(w) && FirstDue(w) && LateHeader(w, freed, None)
    ensures LateHeader(Fired(w, free), [w.spokes[Curr(w)][0].id] + freed, None)
  {
    DueIsDelta(w);
    assert SpokeOk(w, Curr(w));
  }

  /** ... it stays so when a timer is taken from the free list ... */
  lemma LateAllocate(w: Wheel, free: Option<TimerId>, freed: seq<TimerId>, issued: nat)
    requires FreeOk(w.mem, free, freed, w.live, issued) && LateHeader(w, freed, None)
    ensures var (t, rest, _) := TakeFree(free, freed, issued);
            LateHeader(w.(mem := Zero(w.mem, t)), rest, Some(t))
  {
    if w.stale {
      var f := Next(w.mem, Header(Curr(w))).value;
      assert f in freed && freed != [] ==> freed == [freed[0]] + freed[1..];
    }
  }

  /** ... and scheduled off the current spoke ... */
  lemma LateSchedule(w: Wheel, freed: seq<TimerId>, t: TimerId, due: nat, k: nat, i: nat, d: nat)
    requires LateHeader(w, freed, Some(t)) && t !in w.live && due % WHEEL_SIZE == k < |w.spokes| && i <= |w.spokes[k]|
    requires !(w.stale && k == Curr(w))
    ensures LateHeader(Scheduled(w, t, due, k, i, d), freed, None)
  {
    hide LinkAfter;
    LinkAfterFrame(w.mem, Before(k, w.spokes[k], i), t, d);
    if w.stale {
      var w', f := Scheduled(w, t, due, k, i, d), Next(w.mem, Header(Curr(w))).value;
      assert Next(w'.mem, Header(Curr(w))) == Some(f);
      assert f != t && f in w.live ==> w'.live[f] == w.live[f];
    }
  }

  /** ... and when timers are cancelled. */
  lemma LateCancel(w: Wheel, freed: seq<TimerId>, free: Option<TimerId>, k: nat, i: nat)
    requires Good(w) && LateHeader(w, freed, None)
    requires k < WHEEL_SIZE && i < |w.spokes[k]| && (w.stale && k == Curr(w) ==> i > 0)
    ensures var t := w.spokes[k][i].id;
            && Prev(w.mem, t).Some?
            && LateHeader(Cancelled(w, k, i).(mem := Freed(Cancelled(w, k, i).mem, t, free)), [t] + freed, None)
  {
    assert SpokeOk(w, k);
    assert CellOk(w.mem, k, w.spokes[k], w.dueOf, Base(w.tick, k), w.stale && k == Curr(w), i);
    UnlinkEffect(w.mem, w.spokes[k][i].id);
  }
}
