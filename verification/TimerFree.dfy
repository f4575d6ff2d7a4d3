/** The free list of timers, threaded through their next pointers (timer.c). */
module TimerFree {
  import opened Wrappers
  import opened TimerMemory
  import opened TimerState

  function Head(freed: seq<TimerId>): Option<TimerId> {
    if freed == [] then None else Some(freed[0])
  }

  /** free heads the list of freed timers; none of them is scheduled, and no timer is unknown. */
  ghost predicate FreeOk(m: Mem, free: Option<TimerId>, freed: seq<TimerId>, live: map<TimerId, nat>, issued: nat) {
    && free == Head(freed)
    && (forall i :: 0 <= i < |freed| ==>
          && freed[i] !in live && freed[i] < issued
          && Next(m, Cell(freed[i])) == Head(freed[i + 1..]))
    && (forall i, j :: 0 <= i < j < |freed| ==> freed[i] != freed[j])
    && (forall t :: t in live ==> t < issued)
  }

  /** Taking the head of the free list, or a timer never used, and zeroing it. */
  lemma AllocateFree(w: Wheel, free: Option<TimerId>, freed: seq<TimerId>, issued: nat)
    requires Good(w) && FreeOk(w.mem, free, freed, w.live, issued)
    ensures free.Some? ==> freed != [] && free.value == freed[0] && free.value !in freed[1..]
    ensures var (t, rest, bound) := TakeFree(free, freed, issued);
            && t !in w.live && t !in rest && t < bound
            && FreeOk(Zero(w.mem, t), Head(rest), rest, w.live, bound) && Good(w.(mem := Zero(w.mem, t)))
            && (free.Some? ==> Next(w.mem, Cell(t)) == Head(rest))
  {
    var (t, rest, bound) := TakeFree(free, freed, issued);
    MemoryElsewhere(w, Zero(w.mem, t));
    hide Good;
    if free.Some? {
      assert freed[0 + 1..] == rest;
      forall i | 0 <= i < |rest| ensures rest[i] == freed[i + 1] && rest[i + 1..] == freed[i + 1 + 1..] {
      }
    } else {
      assert rest == freed;
    }
  }

  /** What Allocate takes: the timer, the free list left, and the timers handed out by then. */
  function TakeFree(free: Option<TimerId>, freed: seq<TimerId>, issued: nat): (TimerId, seq<TimerId>, nat) {
    if free.Some? && freed != [] then (free.value, freed[1..], issued) else (issued, freed, issued + 1)
  }

  /** Freeing puts the timer in front. */
  lemma FreedFree(m: Mem, free: Option<TimerId>, freed: seq<TimerId>, live: map<TimerId, nat>, issued: nat, t: TimerId)
    requires FreeOk(m, free, freed, live, issued) && t in live
    ensures FreeOk(Freed(m, t, free), Some(t), [t] + freed, live - {t}, issued)
  {
    var fs := [t] + freed;
    forall i | 0 <= i < |fs| ensures Next(Freed(m, t, free), Cell(fs[i])) == Head(fs[i + 1..]) {
      if i == 0 {
        assert fs[1..] == freed;
      } else {
        assert fs[i + 1..] == freed[i - 1 + 1..];
      }
    }
  }

  /** Writing to scheduled timers and headers only leaves the free list alone. */
  lemma FreeElsewhere(m: Mem, m': Mem, free: Option<TimerId>, freed: seq<TimerId>, live: map<TimerId, nat>,
                      live': map<TimerId, nat>, issued: nat)
    requires FreeOk(m, free, freed, live, issued)
    requires forall i :: 0 <= i < |freed| ==> Next(m', Cell(freed[i])) == Next(m, Cell(freed[i]))
    requires forall t :: t in live' ==> t !in freed && t < issued
    ensures FreeOk(m', free, freed, live', issued)
  {
  }
}
