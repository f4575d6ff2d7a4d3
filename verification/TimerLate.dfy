/**
 Why a callback must not schedule full rounds once a timer has been freed in the same tick
 (timer.c): the header of the current spoke still points to the first timer freed, so the walk
 never meets the spoke's own list, and the new timer does not get onto it.
 */
module TimerLate {
  import opened Wrappers
  import opened TimerMemory
  import opened TimerState
  import opened TimerFree
  import opened TimerHeader
  import opened TimerWheel

  /** The node reached from n by following next pointers. */
  function Walk(m: Mem, n: Node, steps: nat): Option<Node> {
    if steps == 0 then Some(n)
    else match Walk(m, n, steps - 1)
      case None => None
      case Some(p) => match Next(m, p) case None => None case Some(t) => Some(Cell(t))
  }

  lemma OffSpokeClosed(w: Wheel, freed: seq<TimerId>, issued: nat, t: TimerId, u: TimerId)
    requires Good(w) && t !in w.live && t !in freed
    requires FreeOk(Zero(w.mem, t), Head(freed), freed, w.live, issued)
    requires OffSpoke(w, freed, Some(t), u) && Next(Zero(w.mem, t), Cell(u)).Some?
    ensures OffSpoke(w, freed, Some(t), Next(Zero(w.mem, t), Cell(u)).value)
  {
    if u in freed {
      var i :| 0 <= i < |freed| && freed[i] == u;
      assert Next(Zero(w.mem, t), Cell(u)).value == freed[i + 1..][0];
    } else if u != t {
      var k, i := Located(w, u);
      WalkStep(w, k, i);
      assert SpokeOk(w, k);
      assert w.spokes[k][i + 1].id in w.live;
    }
  }

  lemma {:induction false} WalkOff(w: Wheel, freed: seq<TimerId>, issued: nat, t: TimerId, steps: nat)
    requires Good(w) && w.stale && t !in w.live && t !in freed
    requires FreeOk(Zero(w.mem, t), Head(freed), freed, w.live, issued)
    requires Next(w.mem, Header(Curr(w))).Some? && OffSpoke(w, freed, Some(t), Next(w.mem, Header(Curr(w))).value)
    requires Walk(Zero(w.mem, t), Header(Curr(w)), steps).Some?
    ensures var p := Walk(Zero(w.mem, t), Header(Curr(w)), steps).value;
            && (p == Header(Curr(w)) || (p.Cell? && OffSpoke(w, freed, Some(t), p.id)))
            && (Next(Zero(w.mem, t), p).Some? ==> OffSpoke(w, freed, Some(t), Next(Zero(w.mem, t), p).value))
  {
    if steps > 0 {
      WalkOff(w, freed, issued, t, steps - 1);
    }
    var p := Walk(Zero(w.mem, t), Header(Curr(w)), steps).value;
    if p.Cell? && Next(Zero(w.mem, t), p).Some? {
      OffSpokeClosed(w, freed, issued, t, p.id);
    }
  }

  lemma OnSpokeNotOff(w: Wheel, freed: seq<TimerId>, issued: nat, t: TimerId, i: nat)
    requires Good(w) && t !in w.live && FreeOk(Zero(w.mem, t), Head(freed), freed, w.live, issued)
    requires i < |w.spokes[Curr(w)]|
    ensures !OffSpoke(w, freed, Some(t), w.spokes[Curr(w)][i].id)
  {
    assert SpokeOk(w, Curr(w));
  }

  lemma RoundMissed(w: Wheel, freed: seq<TimerId>, issued: nat, t: TimerId, steps: nat, d: nat)
    requires Good(w) && w.stale && FreeOk(w.mem, Head(freed), freed, w.live, issued) && LateHeader(w, freed, None)
    requires t == TakeFree(Head(freed), freed, issued).0 && Walk(Zero(w.mem, t), Header(Curr(w)), steps).Some?
    ensures var p := Walk(Zero(w.mem, t), Header(Curr(w)), steps).value;
            && Linked(LinkAfter(Zero(w.mem, t), p, t, d), Curr(w), w.spokes[Curr(w)], w.dueOf, Base(w.tick, Curr(w)),
               true)
            && forall i :: 0 <= i < |w.spokes[Curr(w)]| ==> w.spokes[Curr(w)][i].id != t
  {
    var (_, rest, bound) := TakeFree(Head(freed), freed, issued);
    var m := Zero(w.mem, t);
    AllocateFree(w, Head(freed), freed, issued);
    var w0 := w.(mem := m);
    assert Zero(m, t) == m;
    assert OffSpoke(w0, rest, Some(t), Next(m, Header(Curr(w))).value);
    WalkOff(w0, rest, bound, t, steps);
    var p := Walk(m, Header(Curr(w)), steps).value;
    LinkAfterFrame(m, p, t, d);
    var es := w.spokes[Curr(w)];
    forall i | 0 <= i < |es| ensures es[i].id != t && Cell(es[i].id) != p && Next(m, p) != Some(es[i].id) {
      OnSpokeNotOff(w0, rest, bound, t, i);
    }
    assert SpokeOk(w0, Curr(w));
    LinkedElsewhere(m, LinkAfter(m, p, t, d), Curr(w), es, w.dueOf, Base(w.tick, Curr(w)), true);
  }

  /**
   In every state of the timers in which a timer has been fired in the current tick: wherever the
   walk from the header stops, linking the next timer there leaves the list of the current spoke
   without it. A timer scheduled a full number of rounds ahead, which belongs there, is missed: the
   condition on Schedule cannot be dropped.
   */
  lemma LateRoundMissed(s: Timers, t: TimerId, steps: nat, d: nat)
    requires s.Valid() && s.wheel.stale && t == TakeFree(s.free, s.freed, s.issued).0
    requires Walk(Zero(s.mem, t), Header(s.curr), steps).Some?
    ensures |s.wheel.spokes| == WHEEL_SIZE
    ensures var m := LinkAfter(Zero(s.mem, t), Walk(Zero(s.mem, t), Header(s.curr), steps).value, t, d);
            var es := s.wheel.spokes[Curr(s.wheel)];
            && (forall i :: 0 <= i < |es| ==> es[i].id != t && es[i].stamp < |s.wheel.dueOf|)
            && Linked(m, Curr(s.wheel), es, s.wheel.dueOf, Base(s.wheel.tick, Curr(s.wheel)), true)
  {
    hide Walk, LinkAfter, Zero;
    RoundMissed(s.wheel, s.freed, s.issued, t, steps, d);
    assert SpokeOk(s.wheel, Curr(s.wheel));
  }
}
