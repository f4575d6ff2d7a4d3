/**
 timer.c as a class: the wheel, the free list, scheduling, cancelling and ticking, with the
 clock in exact real numbers. Callbacks are arbitrary scripts of timer commands.
 */
module TimerWheel {
  import opened Finite
  import opened Wrappers
  import opened TimerMemory
  import opened TimerState
  import opened TimerFree
  import opened TimerHeader

  const TIMER_INTERVAL: real := 0.001

  /** The ticks after which a timer fires; now may already be behind the next tick. */
  function Ticks(delay: real, now: real, nextTick: real): (ticks: nat)
    ensures ticks >= 1
  {
    var behind := now - nextTick;
    var d := if behind > 0.0 then delay + behind else delay;
    if d < 0.0 then 1
    else
      var ticks := ((d + TIMER_INTERVAL / 2.0) * (1.0 / TIMER_INTERVAL)).Floor;
      if ticks == 0 then 1 else ticks
  }

  /** The time at which the wheel turns from tick number tick to the next. */
  function TickTime(start: real, tick: nat): real {
    start + (tick as real + 1.0) * TIMER_INTERVAL
  }

  lemma TickTimeNext(start: real, tick: nat)
    ensures TickTime(start, tick + 1) == TickTime(start, tick) + TIMER_INTERVAL
  {
    assert (tick + 1) as real == tick as real + 1.0;
  }

  /**
   A timer scheduled with delay d is due at most half an interval early and two intervals late,
   whether it is scheduled between ticks or from a callback while the wheel is behind.
   */
  lemma DelayBound(start: real, tick: nat, now: real, delay: real)
    requires delay >= 0.0 && TickTime(start, tick) <= now + TIMER_INTERVAL
    ensures var due := TickTime(start, tick + Ticks(delay, now, TickTime(start, tick)));
            now + delay - TIMER_INTERVAL / 2.0 < due <= now + delay + 2.0 * TIMER_INTERVAL
  {
    var next := TickTime(start, tick);
    var behind := now - next;
    var d := if behind > 0.0 then delay + behind else delay;
    var exact := (d + TIMER_INTERVAL / 2.0) * (1.0 / TIMER_INTERVAL);
    assert exact == d * 1000.0 + 0.5;
    var ticks := Ticks(delay, now, next);
    assert ticks as real > exact - 1.0;
    assert ticks as real <= if ticks == 1 then exact + 0.5 else exact;
    assert TickTime(start, tick + ticks) == next + ticks as real * TIMER_INTERVAL;
  }

  /** What a callback may do. */
  datatype Command = ScheduleIn(delay: real) | CancelTimer(id: TimerId)

  function Targets(script: seq<Command>): set<TimerId> {
    set c | c in script && c.CancelTimer? :: c.id
  }

  lemma InTargets(script: seq<Command>, n: nat)
    requires n < |script| && script[n].CancelTimer?
    ensures script[n].id in Targets(script)
  {
    assert script[n] in script;
  }

  lemma TargetsOfOne(scripts: seq<seq<Command>>, n: nat)
    ensures Targets(if n < |scripts| then scripts[n] else []) <= AllTargets(scripts)
  {
  }

  function AllTargets(scripts: seq<seq<Command>>): set<TimerId> {
    set s, c | s in scripts && c in s && c.CancelTimer? :: c.id
  }

  // ---- the state as values ----

  /** The invariant; active is the timer whose callback runs. */
  ghost predicate Sound(w: Wheel, h: History, free: Option<TimerId>, freed: seq<TimerId>, issued: nat,
                        active: Option<TimerId>) {
    && Good(w) && Told(w, h)
    && FreeOk(w.mem, free, freed, w.live, issued)
    && (active.Some? ==> FirstDue(w) && w.spokes[Curr(w)][0].id == active.value)
  }

  lemma SoundParts(w: Wheel, h: History, free: Option<TimerId>, freed: seq<TimerId>, issued: nat,
                   active: Option<TimerId>)
    requires Sound(w, h, free, freed, issued, active)
    ensures Good(w) && Told(w, h) && |w.spokes| == WHEEL_SIZE
    ensures forall t :: t in w.live ==> w.live[t] !in h.cancelled
  {
  }

  /** The scheduled timers that are due at the current tick. */
  ghost function DueNow(w: Wheel): set<TimerId> {
    set t | t in w.live && w.live[t] < |w.dueOf| && w.dueOf[w.live[t]] == w.tick
  }

  function EmptyWheel(): (w: Wheel)
    ensures w.mem == Mem(map[], map[], map[]) && w.dueOf == [] && w.live == map[] && w.tick == 0 && !w.stale
  {
    Wheel(Mem(map[], map[], map[]), seq(WHEEL_SIZE, _ => []), [], map[], 0, false)
  }

  lemma EmptyGood()
    ensures Sound(EmptyWheel(), History([], map[]), None, [], 0, None)
  {
    var w := EmptyWheel();
    forall k | 0 <= k < WHEEL_SIZE ensures SpokeOk(w, k) {
      assert w.spokes[k] == [];
    }
  }

  /** Counting ticks forward from the current spoke, around the wheel. */
  lemma SpokeOf(tick: nat, ticks: nat)
    ensures var k := tick % WHEEL_SIZE + ticks % WHEEL_SIZE;
            var spoke := if k >= WHEEL_SIZE then k - WHEEL_SIZE else k;
            && spoke == (tick + ticks) % WHEEL_SIZE
            && tick + ticks == Base(tick, spoke) + WHEEL_SIZE * (ticks / WHEEL_SIZE)
            && (spoke == tick % WHEEL_SIZE ==> ticks % WHEEL_SIZE == 0)
  {
    BaseUnique(tick, (tick + ticks) % WHEEL_SIZE, tick + ticks);
  }

  lemma WalkStep(w: Wheel, k: nat, i: nat)
    requires Good(w) && k < WHEEL_SIZE && i < |w.spokes[k]|
    ensures forall j :: 0 <= j < |w.spokes[k]| ==> w.spokes[k][j].stamp < |w.dueOf|
    ensures Next(w.mem, Cell(w.spokes[k][i].id)) == IdAt(w.spokes[k], i + 1)
    ensures w.dueOf[w.spokes[k][i].stamp]
            == Origin(w.spokes[k], w.dueOf, Base(w.tick, k), i) + WHEEL_SIZE * Delta(w.mem, w.spokes[k][i].id)
  {
    assert SpokeOk(w, k);
    assert CellOk(w.mem, k, w.spokes[k], w.dueOf, Base(w.tick, k), w.stale && k == Curr(w), i);
  }

  lemma WalkStart(w: Wheel, k: nat)
    requires Good(w) && k < WHEEL_SIZE && !(w.stale && k == Curr(w))
    ensures Next(w.mem, Header(k)) == IdAt(w.spokes[k], 0)
    ensures forall j :: 0 <= j < |w.spokes[k]| ==> w.spokes[k][j].stamp < |w.dueOf|
  {
    assert SpokeOk(w, k);
  }

  lemma AllocateStep(w: Wheel, h: History, free: Option<TimerId>, freed: seq<TimerId>, issued: nat,
                     active: Option<TimerId>)
    requires Sound(w, h, free, freed, issued, active)
    ensures free.Some? ==> freed != [] && free.value == freed[0]
    ensures var (t, rest, bound) := TakeFree(free, freed, issued);
            && t !in w.live && t !in rest && t < bound
            && Sound(w.(mem := Zero(w.mem, t)), h, Head(rest), rest, bound, active)
            && (if free.Some? then Next(w.mem, Cell(t)) == Head(rest) else free == Head(rest))
            && DueNow(w.(mem := Zero(w.mem, t))) == DueNow(w)
  {
    AllocateFree(w, free, freed, issued);
    var (t, rest, bound) := TakeFree(free, freed, issued);
    hide Good, FreeOk;
    assert Told(w.(mem := Zero(w.mem, t)), h);
  }

  lemma ScheduleStep(w: Wheel, h: History, free: Option<TimerId>, freed: seq<TimerId>, issued: nat,
                     active: Option<TimerId>, t: TimerId, due: nat, k: nat, i: nat, d: nat)
    requires Sound(w, h, free, freed, issued, active)
    requires t !in w.live && t !in freed && t < issued
    requires k < WHEEL_SIZE && Place(w, due, k, i, d) && due > w.tick && !(w.stale && k == Curr(w))
    ensures Sound(Scheduled(w, t, due, k, i, d), h, free, freed, issued, active)
    ensures DueNow(Scheduled(w, t, due, k, i, d)) == DueNow(w)
  {
    var w' := Scheduled(w, t, due, k, i, d);
    ScheduleGood(w, t, due, k, i, d);
    ToldSchedule(w, h, t, due, k, i, d);
    ScheduleFree(w, free, freed, issued, t, due, k, i, d);
    ScheduleDueNow(w, w', t, due);
    hide Good, Told, FreeOk, Place, LinkAfter, DueNow;
    if active.Some? {
      ActiveStaysFirst(w, t, due, k, i, d);
    }
  }

  lemma ScheduleDueNow(w: Wheel, w': Wheel, t: TimerId, due: nat)
    requires (forall u :: u in w.live ==> w.live[u] < |w.dueOf|) && t !in w.live && due > w.tick
    requires w'.tick == w.tick && w'.dueOf == w.dueOf + [due] && w'.live == w.live[t := |w.dueOf|]
    ensures DueNow(w') == DueNow(w)
  {
    assert forall u :: u in DueNow(w') <==> u in DueNow(w);
  }

  lemma ActiveStaysFirst(w: Wheel, t: TimerId, due: nat, k: nat, i: nat, d: nat)
    requires Good(w) && FirstDue(w) && k < WHEEL_SIZE && Place(w, due, k, i, d) && due > w.tick
    ensures var w' := Scheduled(w, t, due, k, i, d);
            FirstDue(w') && w'.spokes[Curr(w')][0] == w.spokes[Curr(w)][0]
  {
    if k == Curr(w) {
      DueIsDelta(w);
      BaseNext(w.tick, k);
      assert i > 0;
    }
  }

  lemma ScheduleFree(w: Wheel, free: Option<TimerId>, freed: seq<TimerId>, issued: nat, t: TimerId, due: nat, k: nat,
                     i: nat, d: nat)
    requires Good(w) && FreeOk(w.mem, free, freed, w.live, issued) && t !in w.live && t !in freed && t < issued
    requires k < WHEEL_SIZE && Place(w, due, k, i, d) && !(w.stale && k == Curr(w))
    ensures FreeOk(Scheduled(w, t, due, k, i, d).mem, free, freed, w.live[t := |w.dueOf|], issued)
  {
    hide LinkAfter;
    var es, p := w.spokes[k], Before(k, w.spokes[k], i);
    assert SpokeOk(w, k);
    WalkStart(w, k);
    if i > 0 { WalkStep(w, k, i - 1); }
    LinkAfterEffect(w.mem, p, t, d);
    assert i > 0 ==> es[i - 1].id in w.live;
    hide Good, SpokeOk, Linked;
    FreeElsewhere(w.mem, LinkAfter(w.mem, p, t, d), free, freed, w.live, w.live[t := |w.dueOf|], issued);
  }

  /** Where a scheduled timer is. */
  lemma Located(w: Wheel, t: TimerId) returns (k: nat, i: nat)
    requires Good(w) && t in w.live
    ensures k < WHEEL_SIZE && i < |w.spokes[k]| && w.spokes[k][i] == Entry(t, w.live[t])
  {
    assert OnSpoke(w, t);
    k := w.dueOf[w.live[t]] % WHEEL_SIZE;
    i :| 0 <= i < |w.spokes[k]| && w.spokes[k][i] == Entry(t, w.live[t]);
  }

  lemma HasPrev(w: Wheel, k: nat, i: nat)
    requires Good(w) && k < WHEEL_SIZE && i < |w.spokes[k]|
    ensures Prev(w.mem, w.spokes[k][i].id).Some?
  {
    assert SpokeOk(w, k);
    assert CellOk(w.mem, k, w.spokes[k], w.dueOf, Base(w.tick, k), w.stale && k == Curr(w), i);
  }

  /** Place, spelled out. */
  lemma PlaceIs(w: Wheel, due: nat, k: nat)
    requires Good(w) && k < WHEEL_SIZE && due % WHEEL_SIZE == k
    ensures forall j :: 0 <= j < |w.spokes[k]| ==> w.spokes[k][j].stamp < |w.dueOf|
    ensures forall i: nat, d: nat :: i <= |w.spokes[k]| ==>
              (Place(w, due, k, i, d) <==>
               && due == Origin(w.spokes[k], w.dueOf, Base(w.tick, k), i) + WHEEL_SIZE * d
               && (i > 0 ==> w.dueOf[w.spokes[k][i - 1].stamp] < due)
               && (i < |w.spokes[k]| ==> d <= Delta(w.mem, w.spokes[k][i].id)))
  {
    assert SpokeOk(w, k);
    hide Good, Linked, FiringOrder, Base, Delta;
  }

  /** Cancelling any scheduled timer but the active one. */
  lemma CancelStep(w: Wheel, h: History, free: Option<TimerId>, freed: seq<TimerId>, issued: nat,
                   active: Option<TimerId>, k: nat, i: nat)
    requires Sound(w, h, free, freed, issued, active) && (w.stale ==> active.Some?)
    requires k < WHEEL_SIZE && i < |w.spokes[k]| && active != Some(w.spokes[k][i].id)
    ensures Prev(w.mem, w.spokes[k][i].id).Some? && w.spokes[k][i].id in w.live
    ensures w.live[w.spokes[k][i].id] == w.spokes[k][i].stamp && (w.stale && k == Curr(w) ==> i > 0)
    ensures var t, w0 := w.spokes[k][i].id, Cancelled(w, k, i);
            && Sound(w0.(mem := Freed(w0.mem, t, free)), h.(cancelled := h.cancelled[w.spokes[k][i].stamp := t]),
                     Some(t), [t] + freed, issued, active)
            && DueNow(w0.(mem := Freed(w0.mem, t, free))) <= DueNow(w)
  {
    var t := w.spokes[k][i].id;
    CancelWheel(w, free, k, i);
    var w1 := Cancelled(w, k, i).(mem := Freed(Cancelled(w, k, i).mem, t, free));
    CancelTold(w, w1, h, k, i);
    CancelFree(w, free, freed, issued, k, i);
    hide Good, Told, FreeOk, Unlink, Freed;
    assert DueNow(w1) <= DueNow(w) by { hide FirstDue, RemoveAt; }
    hide DueNow;
    if active.Some? {
      FirstStays(w, w1, k, i);
    }
    hide RemoveAt;
  }

  lemma CancelWheel(w: Wheel, free: Option<TimerId>, k: nat, i: nat)
    requires Good(w) && k < WHEEL_SIZE && i < |w.spokes[k]| && (w.stale && k == Curr(w) ==> i > 0)
    ensures Prev(w.mem, w.spokes[k][i].id).Some? && w.spokes[k][i].id in w.live
    ensures w.live[w.spokes[k][i].id] == w.spokes[k][i].stamp
    ensures var w0 := Cancelled(w, k, i); Good(w0.(mem := Freed(w0.mem, w.spokes[k][i].id, free)))
  {
    assert SpokeOk(w, k);
    CancelGood(w, k, i);
    var w0 := Cancelled(w, k, i);
    hide SpokeOk, Unlink, Good;
    MemoryElsewhere(w0, Freed(w0.mem, w.spokes[k][i].id, free));
  }

  lemma CancelTold(w: Wheel, w': Wheel, h: History, k: nat, i: nat)
    requires Good(w) && Told(w, h) && k < WHEEL_SIZE && i < |w.spokes[k]| && Prev(w.mem, w.spokes[k][i].id).Some?
    requires w' == Cancelled(w, k, i).(mem := w'.mem)
    ensures Told(w', h.(cancelled := h.cancelled[w.spokes[k][i].stamp := w.spokes[k][i].id]))
  {
    ToldCancel(w, h, k, i);
    hide Good, Unlink, RemoveAt, Told;
    ToldSame(Cancelled(w, k, i), w', h.(cancelled := h.cancelled[w.spokes[k][i].stamp := w.spokes[k][i].id]));
  }

  lemma FirstStays(w: Wheel, w': Wheel, k: nat, i: nat)
    requires FirstDue(w) && k < |w.spokes| && i < |w.spokes[k]| && (k == Curr(w) ==> i > 0)
    requires w'.spokes == w.spokes[k := RemoveAt(w.spokes[k], i)] && w'.tick == w.tick && w'.dueOf == w.dueOf
    ensures FirstDue(w') && w'.spokes[Curr(w)][0] == w.spokes[Curr(w)][0]
  {
  }

  lemma CancelFree(w: Wheel, free: Option<TimerId>, freed: seq<TimerId>, issued: nat, k: nat, i: nat)
    requires Good(w) && FreeOk(w.mem, free, freed, w.live, issued) && k < WHEEL_SIZE && i < |w.spokes[k]|
    requires w.stale && k == Curr(w) ==> i > 0
    ensures var t := w.spokes[k][i].id;
            && t in w.live && Prev(w.mem, t).Some?
            && FreeOk(Freed(Unlink(w.mem, t), t, free), Some(t), [t] + freed, w.live - {t}, issued)
  {
    var t, es := w.spokes[k][i].id, w.spokes[k];
    assert SpokeOk(w, k);
    assert CellOk(w.mem, k, es, w.dueOf, Base(w.tick, k), w.stale && k == Curr(w), i);
    UnlinkEffect(w.mem, t);
    var m := Unlink(w.mem, t);
    assert i > 0 ==> es[i - 1].id in w.live;
    hide Good, SpokeOk, Linked, Unlink;
    FreeElsewhere(w.mem, m, free, freed, w.live, w.live, issued);
    FreedFree(m, free, freed, w.live, issued, t);
  }

  lemma FireStep(w: Wheel, h: History, free: Option<TimerId>, freed: seq<TimerId>, issued: nat, t: TimerId)
    requires Sound(w, h, free, freed, issued, Some(t))
    ensures FirstDue(w) && t in w.live && Next(w.mem, Cell(t)) == IdAt(w.spokes[Curr(w)], 1)
    ensures w.spokes[Curr(w)][0] == Entry(t, w.live[t])
    ensures Sound(Fired(w, free), h.(fired := h.fired + [(w.spokes[Curr(w)][0].stamp, w.tick)]), Some(t), [t] + freed,
                  issued, None)
    ensures DueNow(Fired(w, free)) == DueNow(w) - {t} && t in DueNow(w)
    ensures IdAt(Fired(w, free).spokes[Curr(w)], 0) == IdAt(w.spokes[Curr(w)], 1)
  {
    assert SpokeOk(w, Curr(w));
    FireGood(w, free);
    ToldFire(w, h, free);
    FreedFree(w.mem, free, freed, w.live, issued, t);
  }

  lemma AdvanceStep(w: Wheel, h: History, free: Option<TimerId>, freed: seq<TimerId>, issued: nat, t: Option<TimerId>)
    requires Sound(w, h, free, freed, issued, None)
    requires t == IdAt(w.spokes[Curr(w)], 0) && !FirstDue(w)
    ensures Sound(Advanced(w, t), h, free, freed, issued, None)
  {
    AdvanceGood(w, t);
    FreeElsewhere(w.mem, Advanced(w, t).mem, free, freed, w.live, w.live, issued);
    ToldAdvance(w, Advanced(w, t), h);
  }

  lemma ToldAdvance(w: Wheel, w': Wheel, h: History)
    requires Told(w, h) && w'.live == w.live && w'.dueOf == w.dueOf && w'.tick == w.tick + 1 && !w'.stale
    ensures Told(w', h)
  {
    forall s: nat | s < |w'.dueOf| ensures s in h.cancelled || WasFired(h, s) || IsLive(w', s) {
      if IsLive(w, s) {
        var u :| u in w.live && w.live[u] == s;
        assert u in w'.live && w'.live[u] == s;
      }
    }
  }

  lemma TickStart(w: Wheel, h: History, free: Option<TimerId>, freed: seq<TimerId>, issued: nat)
    requires Sound(w, h, free, freed, issued, None) && !w.stale
    ensures |w.spokes| == WHEEL_SIZE && Next(w.mem, Header(Curr(w))) == IdAt(w.spokes[Curr(w)], 0)
  {
    WalkStart(w, Curr(w));
  }

  lemma HeadIsDue(w: Wheel, h: History, free: Option<TimerId>, freed: seq<TimerId>, issued: nat, t: TimerId)
    requires Sound(w, h, free, freed, issued, None) && IdAt(w.spokes[Curr(w)], 0) == Some(t) && Delta(w.mem, t) == 0
    ensures Sound(w, h, free, freed, issued, Some(t))
  {
    DueIsDelta(w);
  }

  lemma HeadIsNotDue(w: Wheel, h: History, free: Option<TimerId>, freed: seq<TimerId>, issued: nat, t: Option<TimerId>)
    requires Sound(w, h, free, freed, issued, None) && t == IdAt(w.spokes[Curr(w)], 0)
    requires t.Some? ==> Delta(w.mem, t.value) != 0
    ensures !FirstDue(w)
  {
    if w.spokes[Curr(w)] != [] {
      DueIsDelta(w);
    }
  }

  /** Between two ticks of the wheel: fired or not is a matter of the due time alone. */
  lemma AllFired(w: Wheel, h: History, start: real, now: real)
    requires Good(w) && Told(w, h) && !w.stale
    requires now < TickTime(start, w.tick) <= now + TIMER_INTERVAL
    ensures forall s: nat :: s < |w.dueOf| && s !in h.cancelled ==>
              ((s, w.dueOf[s]) in h.fired <==> TickTime(start, w.dueOf[s]) <= now)
    ensures forall i, j :: 0 <= i < j < |h.fired| ==>
              && h.fired[i].0 < |w.dueOf| && h.fired[j].0 < |w.dueOf|
              && FiresBefore(h.fired[i].0, h.fired[j].0, w.dueOf)
  {
    forall s: nat | s < |w.dueOf| && s !in h.cancelled
      ensures (s, w.dueOf[s]) in h.fired <==> TickTime(start, w.dueOf[s]) <= now
    {
      assert (w.dueOf[s] as real + 1.0 <= w.tick as real) == (w.dueOf[s] + 1 <= w.tick);
      if w.dueOf[s] < w.tick {
        PastTimersFired(w, h, s);
      }
    }
  }

  class Timers {
    var mem: Mem
    var free: Option<TimerId>
    var active: Option<TimerId>
    var curr: nat
    var now: real
    var nextTick: real
    /** How many timers malloc has handed out. */
    var issued: nat
    /** The timers the clients may still cancel: those scheduled and neither fired nor cancelled. */
    var held: set<TimerId>

    ghost var wheel: Wheel
    ghost var history: History
    ghost var freed: seq<TimerId>
    ghost const start: real

    ghost predicate Valid()
      reads this
    {
      Inv(active) && (wheel.stale ==> active.Some?)
    }

    ghost predicate Inv(running: Option<TimerId>)
      reads this
    {
      Core(running) && LateHeader(wheel, freed, None)
    }

    ghost predicate Core(running: Option<TimerId>)
      reads this
    {
      && mem == wheel.mem && curr == Curr(wheel) && held == wheel.live.Keys
      && Sound(wheel, history, free, freed, issued, running)
      && nextTick == TickTime(start, wheel.tick) && nextTick <= now + TIMER_INTERVAL
    }

    /** timer_init */
    constructor (clock: real)
      ensures Valid() && wheel.dueOf == [] && wheel.tick == 0 && active == None && !wheel.stale
      ensures now == clock && start == clock && history == History([], map[])
    {
      hide Sound, EmptyWheel;
      mem := Mem(map[], map[], map[]);
      free, active, curr, now, nextTick, issued, held := None, None, 0, clock, clock + TIMER_INTERVAL, 0, {};
      start := clock;
      wheel := EmptyWheel();
      history, freed := History([], map[]), [];
      new;
      EmptyGood();
    }

    /** done */
    method Done(t: TimerId)
      modifies this`mem, this`free
      ensures mem == Freed(old(mem), t, old(free)) && free == Some(t)
    {
      mem := SetNext(mem, Cell(t), free);
      mem := mem.(prev := mem.prev - {t});
      free := Some(t);
    }

    /** The first part of timer_schedule: a zeroed timer from the free list, or a new one. */
    method Allocate() returns (t: TimerId)
      requires Valid()
      modifies this`mem, this`free, this`issued, this`wheel, this`freed
      ensures Core(active) && LateHeader(wheel, freed, Some(t)) && t !in wheel.live && t < issued && t !in freed
      ensures wheel == old(wheel).(mem := mem) && mem == Zero(old(mem), t) && DueNow(wheel) == DueNow(old(wheel))
    {
      hide LateHeader;
      assert FreeOk(mem, free, freed, wheel.live, issued);
      LateAllocate(wheel, free, freed, issued);
      hide Sound, FreeOk;
      AllocateStep(wheel, history, free, freed, issued, active);
      if free.Some? {
        t := free.value;
        free := Next(mem, Cell(t));
        freed := freed[1..];
      } else {
        t := issued;
        issued := issued + 1;
      }
      mem := Zero(mem, t);
      wheel := wheel.(mem := mem);
    }

    /** The walk of timer_schedule along the spoke, to the place for a timer due at the given tick. */
    method FindPlace(spoke: nat, ticks: nat, ghost due: nat) returns (p: Node, delta: nat, ghost i: nat)
      requires Core(active) && spoke < WHEEL_SIZE == |wheel.spokes| && !(wheel.stale && spoke == curr) && Good(wheel)
      requires due % WHEEL_SIZE == spoke && due == Base(wheel.tick, spoke) + WHEEL_SIZE * (ticks / WHEEL_SIZE)
      ensures i <= |wheel.spokes[spoke]| && p == Before(spoke, wheel.spokes[spoke], i)
      ensures Place(wheel, due, spoke, i, delta)
    {
      PlaceIs(wheel, due, spoke);
      hide Good, Sound, SpokeOk, Base, Place, TickTime, Delta;
      delta := ticks / WHEEL_SIZE;
      ghost var w, es := wheel, wheel.spokes[spoke];
      WalkStart(w, spoke);
      p := Header(spoke);
      i := 0;
      while Next(mem, p).Some? && delta > Delta(mem, Next(mem, p).value)
        invariant i <= |es| && p == Before(spoke, es, i) && Next(mem, p) == IdAt(es, i)
        invariant due == Origin(es, w.dueOf, Base(w.tick, spoke), i) + WHEEL_SIZE * delta
        invariant i > 0 ==> w.dueOf[es[i - 1].stamp] < due
        modifies {}
        decreases |es| - i
      {
        WalkStep(w, spoke, i);
        delta := delta - Delta(mem, Next(mem, p).value);
        p := Cell(Next(mem, p).value);
        i := i + 1;
      }
    }

    /** timer_schedule: the new timer is due Ticks(...) ticks from now. */
    method Schedule(delay: real) returns (t: TimerId)
      requires Valid()
      requires wheel.stale ==> Ticks(delay, now, nextTick) % WHEEL_SIZE != 0
      modifies this`mem, this`free, this`issued, this`held, this`wheel, this`freed
      ensures Valid() && t !in old(wheel).live
      ensures wheel.live == old(wheel).live[t := |old(wheel).dueOf|]
      ensures wheel.dueOf == old(wheel).dueOf + [old(wheel).tick + Ticks(delay, now, nextTick)]
      ensures wheel.tick == old(wheel).tick && wheel.stale == old(wheel).stale
      ensures delay >= 0.0 ==>
                now + delay - TIMER_INTERVAL / 2.0 < TickTime(start, wheel.dueOf[wheel.live[t]])
                  <= now + delay + 2.0 * TIMER_INTERVAL
      ensures DueNow(wheel) == DueNow(old(wheel))
    {
      hide Good, Sound, Place, Ticks, TickTime, DueNow, LinkAfter, Base, Zero, InsertAt, Before, LateHeader;
      t := Allocate();
      var ticks := Ticks(delay, now, nextTick);
      var spoke := curr + ticks % WHEEL_SIZE;
      if spoke >= WHEEL_SIZE {
        spoke := spoke - WHEEL_SIZE;
      }
      ghost var due := wheel.tick + ticks;
      SpokeOf(wheel.tick, ticks);
      SoundParts(wheel, history, free, freed, issued, active);
      var p, delta, i := FindPlace(spoke, ticks, due);
      ScheduleStep(wheel, history, free, freed, issued, active, t, due, spoke, i, delta);
      LateSchedule(wheel, freed, t, due, spoke, i, delta);
      mem := LinkAfter(mem, p, t, delta);
      held := held + {t};
      wheel := Scheduled(wheel, t, due, spoke, i, delta);
      if delay >= 0.0 {
        DelayBound(start, wheel.tick, now, delay);
      }
    }

    /** timer_cancel; cancelling the timer whose callback runs is refused. */
    method Cancel(t: TimerId)
      requires Valid() && t in held
      modifies this`mem, this`free, this`held, this`wheel, this`freed, this`history
      ensures Valid()
      ensures Some(t) == active ==> wheel == old(wheel) && history == old(history) && free == old(free)
      ensures Some(t) != active ==>
                && wheel.live == old(wheel).live - {t}
                && history == old(history).(cancelled := old(history).cancelled[old(wheel).live[t] := t])
      ensures wheel.dueOf == old(wheel).dueOf && wheel.tick == old(wheel).tick && wheel.stale == old(wheel).stale
      ensures DueNow(wheel) <= DueNow(old(wheel))
    {
      hide Good, Told, Sound, Unlink, Freed, DueNow, RemoveAt, TickTime, LateHeader;
      SoundParts(wheel, history, free, freed, issued, active);
      ghost var k, i := Located(wheel, t);
      ghost var w := wheel;
      HasPrev(wheel, k, i);
      assert Prev(mem, t).Some?;
      if active == Some(t) {
        return;
      }
      CancelStep(wheel, history, free, freed, issued, active, k, i);
      LateCancel(wheel, freed, free, k, i);
      history := history.(cancelled := history.cancelled[w.live[t] := t]);
      freed := [t] + freed;
      mem := Unlink(mem, t);
      held := held - {t};
      ghost var w0 := Cancelled(w, k, i);
      wheel := w0.(mem := Freed(w0.mem, t, free));
      Done(t);
    }

    /**
     A callback: it may schedule and cancel as it likes, except for cancelling what is not
     scheduled, and for scheduling full rounds once a timer has been freed in this tick (late).
     */
    method Callback(script: seq<Command>, late: bool)
      requires Valid() && active.Some? && active.value in wheel.live && late == wheel.stale
      modifies this`mem, this`free, this`issued, this`held, this`wheel, this`freed, this`history
      ensures Valid() && Grown(old(wheel), old(history), Targets(script))
      ensures wheel.tick == old(wheel).tick && wheel.stale == old(wheel).stale && history.fired == old(history).fired
      ensures DueNow(wheel) <= DueNow(old(wheel))
      ensures active.value in wheel.live && wheel.live[active.value] == old(wheel).live[active.value]
    {
      hide Good, Told, Sound, DueNow, Ticks, TickTime, Targets, LateHeader;
      var n := 0;
      while n < |script|
        invariant n <= |script| && Valid() && Grown(old(wheel), old(history), Targets(script))
        invariant wheel.tick == old(wheel).tick && wheel.stale == old(wheel).stale
                  && history.fired == old(history).fired
        invariant DueNow(wheel) <= DueNow(old(wheel))
        invariant active.value in wheel.live && wheel.live[active.value] == old(wheel).live[active.value]
        decreases |script| - n
      {
        match script[n] {
        case ScheduleIn(delay) =>
          if !(late && Ticks(delay, now, nextTick) % WHEEL_SIZE == 0) {
            var _ := Schedule(delay);
          }
        case CancelTimer(t) =>
          if t in held {
            InTargets(script, n);
            SoundParts(wheel, history, free, freed, issued, active);
            Cancel(t);
          }
        }
        n := n + 1;
      }
    }

    /** Stamps are kept, and timers are cancelled only by clients. */
    ghost predicate Grown(w: Wheel, h: History, targets: set<TimerId>)
      reads this
    {
      && w.dueOf <= wheel.dueOf && h.fired <= history.fired
      && (forall s :: s in h.cancelled ==> s in history.cancelled && history.cancelled[s] == h.cancelled[s])
      && (forall s :: s in history.cancelled && s !in h.cancelled ==> history.cancelled[s] in targets)
    }

    /** After the callback: the timer leaves the spoke for the free list, and the next one is looked up first. */
    method Retire(t: TimerId) returns (tNext: Option<TimerId>)
      requires Inv(Some(t))
      modifies this`mem, this`free, this`held, this`wheel, this`freed, this`history
      ensures Inv(None) && |wheel.spokes| == WHEEL_SIZE && wheel.stale && wheel.tick == old(wheel).tick
      ensures t in old(wheel).live && wheel.live == old(wheel).live - {t} && wheel.dueOf == old(wheel).dueOf
      ensures history == old(history).(fired := old(history).fired + [(old(wheel).live[t], wheel.tick)])
      ensures tNext == IdAt(wheel.spokes[Curr(wheel)], 0)
      ensures DueNow(wheel) == DueNow(old(wheel)) - {t} && t in DueNow(old(wheel))
    {
      hide Good, Told, Sound, DueNow, TickTime, RemoveAt, LateHeader;
      SoundParts(wheel, history, free, freed, issued, Some(t));
      FireStep(wheel, history, free, freed, issued, t);
      LateFire(wheel, freed, free);
      tNext := Next(mem, Cell(t));
      history := history.(fired := history.fired + [(wheel.spokes[Curr(wheel)][0].stamp, wheel.tick)]);
      freed := [t] + freed;
      wheel := Fired(wheel, free);
      Done(t);
      held := held - {t};
    }

    /** Runs the callback of the first timer of the current spoke, which is due, and frees it. */
    method FireFirst(t: TimerId, script: seq<Command>, late: bool) returns (tNext: Option<TimerId>)
      requires Inv(None) && |wheel.spokes| == WHEEL_SIZE && late == wheel.stale
      requires IdAt(wheel.spokes[Curr(wheel)], 0) == Some(t) && Delta(mem, t) == 0
      modifies this`mem, this`free, this`issued, this`held, this`wheel, this`freed, this`history, this`active
      ensures Inv(None) && |wheel.spokes| == WHEEL_SIZE && wheel.stale && wheel.tick == old(wheel).tick
      ensures tNext == IdAt(wheel.spokes[Curr(wheel)], 0)
      ensures Grown(old(wheel), old(history), Targets(script))
      ensures t in old(wheel).live && history.fired == old(history).fired + [(old(wheel).live[t], wheel.tick)]
      ensures |DueNow(wheel)| < |DueNow(old(wheel))|
    {
      hide Good, Told, Sound, DueNow, TickTime, Targets, RemoveAt, LateHeader;
      HeadIsDue(wheel, history, free, freed, issued, t);
      FireStep(wheel, history, free, freed, issued, t);
      active := Some(t);
      Callback(script, late);
      ghost var due := DueNow(wheel);
      tNext := Retire(t);
      SubsetSize(due - {t}, DueNow(old(wheel)) - {t});
    }

    /** One turn of the loop of timer_tick: fires everything due now and turns the wheel. */
    method TickOnce(scripts: seq<seq<Command>>, n: nat) returns (n': nat)
      requires Valid() && active == None && now >= nextTick
      modifies this
      ensures Valid() && active == None && !wheel.stale && now == old(now) && wheel.tick == old(wheel).tick + 1
      ensures nextTick == old(nextTick) + TIMER_INTERVAL
      ensures Grown(old(wheel), old(history), AllTargets(scripts))
    {
      hide Good, Told, Sound, DueNow, TickTime, Targets, AllTargets, Delta, Next;
      n' := n;
      var t := Next(mem, Header(curr));
      var late := false;
      TickStart(wheel, history, free, freed, issued);
      while t.Some? && Delta(mem, t.value) == 0
        invariant Inv(None) && |wheel.spokes| == WHEEL_SIZE && late == wheel.stale
        invariant t == IdAt(wheel.spokes[Curr(wheel)], 0)
        invariant now == old(now) && nextTick == old(nextTick) && wheel.tick == old(wheel).tick
        invariant Grown(old(wheel), old(history), AllTargets(scripts))
        decreases |DueNow(wheel)|
      {
        var script := if n' < |scripts| then scripts[n'] else [];
        TargetsOfOne(scripts, n');
        t := FireFirst(t.value, script, late);
        n' := n' + 1;
        late := true;
      }
      active := None;
      TurnWheel(t);
    }

    /** The end of the loop body of timer_tick. */
    method TurnWheel(t: Option<TimerId>)
      requires Inv(None) && |wheel.spokes| == WHEEL_SIZE && now >= nextTick && active == None
      requires t == IdAt(wheel.spokes[Curr(wheel)], 0) && (t.Some? ==> Delta(mem, t.value) != 0)
      modifies this`mem, this`wheel, this`nextTick, this`curr
      ensures Valid() && !wheel.stale && wheel.tick == old(wheel).tick + 1 && wheel.dueOf == old(wheel).dueOf
      ensures nextTick == old(nextTick) + TIMER_INTERVAL
    {
      hide Good, Told, Sound, DueNow, TickTime, FirstDue;
      TickTimeNext(start, wheel.tick);
      HeadIsNotDue(wheel, history, free, freed, issued, t);
      AdvanceStep(wheel, history, free, freed, issued, t);
      mem := SetNext(mem, Header(curr), t);
      if t.Some? {
        mem := mem.(prev := mem.prev[t.value := Header(curr)],
                    delta := mem.delta[t.value := if Delta(mem, t.value) > 0 then Delta(mem, t.value) - 1 else 0]);
      }
      wheel := Advanced(wheel, t);
      nextTick := nextTick + TIMER_INTERVAL;
      curr := curr + 1;
      if curr >= WHEEL_SIZE {
        curr := 0;
      }
    }

    /**
     timer_tick at clock time newNow, running the given callbacks in turn: afterwards exactly the
     timers whose due time has come and that were not cancelled have fired, each once.
     */
    method Tick(newNow: real, scripts: seq<seq<Command>>)
      requires Valid() && active == None && newNow >= now
      modifies this
      ensures Valid() && active == None && !wheel.stale && now == newNow < nextTick
      ensures Grown(old(wheel), old(history), AllTargets(scripts))
      ensures forall s: nat :: s < |wheel.dueOf| && s !in history.cancelled ==>
                ((s, wheel.dueOf[s]) in history.fired <==> TickTime(start, wheel.dueOf[s]) <= now)
      ensures forall i, j :: 0 <= i < j < |history.fired| ==>
                && history.fired[i].0 < |wheel.dueOf| && history.fired[j].0 < |wheel.dueOf|
                && FiresBefore(history.fired[i].0, history.fired[j].0, wheel.dueOf)
    {
      hide Sound, TickTime;
      now := newNow;
      var n := 0;
      while now >= nextTick
        invariant Valid() && active == None && !wheel.stale && now == newNow
        invariant Grown(old(wheel), old(history), AllTargets(scripts))
        decreases (now - nextTick) * 1000.0
      {
        n := TickOnce(scripts, n);
      }
      SoundParts(wheel, history, free, freed, issued, active);
      AllFired(wheel, history, start, now);
    }
  }
}
