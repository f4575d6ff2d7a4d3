/**
 What a session remembers of its run, and what it must have done by when: the requests of the
 template in order, the think-time barrier, the calls handed to the slots, the calls destroyed.
 */
module BurstHistory {
  import opened CallRing
  import opened RefLedger
  import opened SessionWiring
  import opened SessionWorld

  datatype Req = Req(method_: string, uri: string)

  /** The requests of a template in the order they are to be issued. */
  ghost function Flatten(bursts: seq<seq<Req>>): seq<Req> {
    if bursts == [] then [] else Flatten(bursts[..|bursts| - 1]) + bursts[|bursts| - 1]
  }

  /** The number of requests in the first k bursts. */
  ghost function Before(bursts: seq<seq<Req>>, k: nat): nat
    requires k <= |bursts|
  {
    |Flatten(bursts[..k])|
  }

  lemma FlattenStep(bursts: seq<seq<Req>>, k: nat)
    requires k < |bursts|
    ensures Flatten(bursts[..k + 1]) == Flatten(bursts[..k]) + bursts[k]
    ensures Before(bursts, k + 1) == Before(bursts, k) + |bursts[k]|
  {
    assert bursts[..k + 1][..k] == bursts[..k];
  }

  lemma {:induction false} BeforeMonotone(bursts: seq<seq<Req>>, k: nat, m: nat)
    requires k <= m <= |bursts|
    ensures Before(bursts, k) <= Before(bursts, m)
    decreases m - k
  {
    if k < m {
      FlattenStep(bursts, k);
      BeforeMonotone(bursts, k + 1, m);
    }
  }

  lemma {:induction false} FlattenPrefix(bursts: seq<seq<Req>>, k: nat, m: nat)
    requires k <= m <= |bursts|
    ensures Flatten(bursts[..k]) <= Flatten(bursts[..m])
    decreases m - k
  {
    if k < m {
      FlattenStep(bursts, k);
      FlattenPrefix(bursts, k + 1, m);
    }
  }

  /** The first n requests of burst k, after all earlier bursts, begin the flattened template. */
  lemma RequestedPrefix(bursts: seq<seq<Req>>, k: nat, n: nat)
    requires k < |bursts| && n <= |bursts[k]|
    ensures Flatten(bursts[..k]) + bursts[k][..n] <= Flatten(bursts)
    ensures Before(bursts, k) + |bursts[k]| <= |Flatten(bursts)|
  {
    FlattenStep(bursts, k);
    FlattenPrefix(bursts, k + 1, |bursts|);
    assert bursts[..|bursts|] == bursts;
  }

  /** A burst issued in full is followed by another one, of which nothing has been issued, unless it was the last. */
  lemma BurstPassed(bursts: seq<seq<Req>>, k: nat, requested: seq<Req>, n: nat)
    requires k < |bursts| && n <= |bursts[k]| && requested == Flatten(bursts[..k]) + bursts[k][..n]
    requires |requested| >= Before(bursts, k + 1)
    ensures |requested| == Before(bursts, k + 1) <= |Flatten(bursts)| && n == |bursts[k]|
    ensures |requested| < |Flatten(bursts)| ==> k + 1 < |bursts|
    ensures k + 1 < |bursts| ==>
              && requested == Flatten(bursts[..k + 1]) + bursts[k + 1][..0]
              && Before(bursts, k + 2) == Before(bursts, k + 1) + |bursts[k + 1]|
  {
    FlattenStep(bursts, k);
    RequestedPrefix(bursts, k, n);
    BeforeAll(bursts);
    hide Flatten;
    assert bursts[k][..|bursts[k]|] == bursts[k];
    if k + 1 < |bursts| {
      FlattenStep(bursts, k + 1);
    }
  }

  lemma BeforeAll(bursts: seq<seq<Req>>)
    ensures Before(bursts, |bursts|) == |Flatten(bursts)|
  {
    assert bursts[..|bursts|] == bursts;
  }

  // ---- the log of a run, and the think-time barrier ----

  /** What happens to calls: one is created for a request, slot i completes it, it is destroyed. */
  datatype Moment = Issued(c: CallId, req: Req) | Completed(i: nat, c: CallId) | Destroyed(c: CallId)

  ghost function RequestsIn(log: seq<Moment>): seq<Req> {
    if log == [] then []
    else
      var e := log[|log| - 1];
      RequestsIn(log[..|log| - 1]) + if e.Issued? then [e.req] else []
  }

  ghost function DestroyedIn(log: seq<Moment>): seq<CallId> {
    if log == [] then []
    else
      var e := log[|log| - 1];
      DestroyedIn(log[..|log| - 1]) + if e.Destroyed? then [e.c] else []
  }

  ghost function CompletedIn(log: seq<Moment>, i: nat): seq<CallId> {
    if log == [] then []
    else
      var e := log[|log| - 1];
      CompletedIn(log[..|log| - 1], i) + if e.Completed? && e.i == i then [e.c] else []
  }

  /** Calls are numbered as they are issued, and only calls issued earlier are completed or destroyed. */
  ghost predicate Numbered(log: seq<Moment>) {
    forall p :: 0 <= p < |log| ==>
      if log[p].Issued? then log[p].c == |RequestsIn(log[..p])| else log[p].c < |RequestsIn(log[..p])|
  }

  /**
   Before a call of burst k is issued, every call of the earlier bursts has been destroyed, and
   unless it is the first call of its burst, so has that first call.
   */
  ghost predicate Barrier(bursts: seq<seq<Req>>, log: seq<Moment>) {
    forall p, k, d :: 0 <= p < |log| && log[p].Issued? && 0 <= k < |bursts| && Awaits(bursts, log[p].c, k, d) ==>
      Destroyed(d) in log[..p]
  }

  /** Call c belongs to burst k and must not be issued before call d has been destroyed. */
  ghost predicate Awaits(bursts: seq<seq<Req>>, c: CallId, k: nat, d: CallId)
    requires k < |bursts|
  {
    InBurst(bursts, c, k) && (d < Before(bursts, k) || d == Before(bursts, k) < c)
  }

  ghost predicate InBurst(bursts: seq<seq<Req>>, c: CallId, k: nat)
    requires k < |bursts|
  {
    Before(bursts, k) <= c < Before(bursts, k + 1)
  }

  /** The log accounts for all that was requested, destroyed and completed, and keeps the barrier. */
  ghost predicate Chronicle(bursts: seq<seq<Req>>, log: seq<Moment>, requested: seq<Req>, destroyed: seq<CallId>,
                            completed: seq<seq<CallId>>)
  {
    && RequestsIn(log) == requested
    && DestroyedIn(log) == destroyed
    && (forall i :: 0 <= i < |completed| ==> CompletedIn(log, i) == completed[i])
    && Numbered(log)
    && Barrier(bursts, log)
  }

  lemma {:induction false} DestroyedLogged(log: seq<Moment>, d: CallId)
    ensures d in DestroyedIn(log) <==> Destroyed(d) in log
  {
    if log != [] {
      DestroyedLogged(log[..|log| - 1], d);
      assert log == log[..|log| - 1] + [log[|log| - 1]];
    }
  }

  lemma LogGrows(log: seq<Moment>, e: Moment)
    ensures (log + [e])[..|log|] == log
    ensures forall p :: 0 <= p <= |log| ==> (log + [e])[..p] == log[..p]
    ensures RequestsIn(log + [e]) == RequestsIn(log) + if e.Issued? then [e.req] else []
    ensures DestroyedIn(log + [e]) == DestroyedIn(log) + if e.Destroyed? then [e.c] else []
    ensures forall i: nat :: CompletedIn(log + [e], i) == CompletedIn(log, i) + if e.Completed? && e.i == i then [e.c]
            else []
  {
    assert (log + [e])[..|log|] == log;
  }

  /** A moment that follows the numbering, and the barrier if it is an issue. */
  lemma NumberedGrows(log: seq<Moment>, e: Moment)
    requires Numbered(log)
    requires if e.Issued? then e.c == |RequestsIn(log)| else e.c < |RequestsIn(log)|
    ensures Numbered(log + [e])
  {
    LogGrows(log, e);
    hide RequestsIn;
  }

  lemma BarrierKept(bursts: seq<seq<Req>>, log: seq<Moment>, e: Moment)
    requires Barrier(bursts, log) && !e.Issued?
    ensures Barrier(bursts, log + [e])
  {
    LogGrows(log, e);
    hide Awaits;
  }

  lemma CallDestroyedLogged(bursts: seq<seq<Req>>, log: seq<Moment>, requested: seq<Req>, destroyed: seq<CallId>,
                            completed: seq<seq<CallId>>, c: CallId)
    requires Chronicle(bursts, log, requested, destroyed, completed) && c < |requested|
    ensures Chronicle(bursts, log + [Destroyed(c)], requested, destroyed + [c], completed)
  {
    LogGrows(log, Destroyed(c));
    NumberedGrows(log, Destroyed(c));
    BarrierKept(bursts, log, Destroyed(c));
    hide RequestsIn, DestroyedIn, CompletedIn, Numbered, Barrier;
  }

  lemma CallCompletedLogged(bursts: seq<seq<Req>>, log: seq<Moment>, requested: seq<Req>, destroyed: seq<CallId>,
                            completed: seq<seq<CallId>>, i: nat, c: CallId)
    requires Chronicle(bursts, log, requested, destroyed, completed) && i < |completed| && c < |requested|
    ensures Chronicle(bursts, log + [Completed(i, c)], requested, destroyed, completed[i := completed[i] + [c]])
  {
    LogGrows(log, Completed(i, c));
    NumberedGrows(log, Completed(i, c));
    BarrierKept(bursts, log, Completed(i, c));
    hide RequestsIn, DestroyedIn, CompletedIn, Numbered, Barrier;
  }

  /** The calls of the bursts before burst k have been destroyed. */
  ghost predicate EarlierDestroyed(bursts: seq<seq<Req>>, k: nat, destroyed: seq<CallId>)
    requires k <= |bursts|
  {
    forall d: CallId :: d < Before(bursts, k) ==> d in destroyed
  }

  lemma AllEarlier(bursts: seq<seq<Req>>, k: nat, destroyed: seq<CallId>, nextId: CallId)
    requires k <= |bursts| && nextId >= Before(bursts, k) && forall c: CallId :: c < nextId ==> c in destroyed
    ensures EarlierDestroyed(bursts, k, destroyed)
  {
  }

  lemma EarlierStay(bursts: seq<seq<Req>>, k: nat, destroyed: seq<CallId>, c: CallId)
    requires k <= |bursts| && EarlierDestroyed(bursts, k, destroyed)
    ensures EarlierDestroyed(bursts, k, destroyed + [c])
  {
  }

  /** Call c belongs to one burst only. */
  lemma OneBurst(bursts: seq<seq<Req>>, c: CallId, k: nat, m: nat)
    requires k < |bursts| && m < |bursts| && InBurst(bursts, c, k) && InBurst(bursts, c, m)
    ensures m == k
  {
    hide Before;
    if m < k {
      BeforeMonotone(bursts, m + 1, k);
    } else if m > k {
      BeforeMonotone(bursts, k + 1, m);
    }
  }

  /** The barrier extends to the next call if the calls that it awaits have been destroyed. */
  lemma BarrierStep(bursts: seq<seq<Req>>, log: seq<Moment>, k: nat, c: CallId, r: Req)
    requires Barrier(bursts, log) && k < |bursts| && InBurst(bursts, c, k)
    requires EarlierDestroyed(bursts, k, DestroyedIn(log))
    requires c > Before(bursts, k) ==> Before(bursts, k) in DestroyedIn(log)
    ensures Barrier(bursts, log + [Issued(c, r)])
  {
    var log' := log + [Issued(c, r)];
    LogGrows(log, Issued(c, r));
    forall p, m, d | 0 <= p < |log'| && log'[p].Issued? && 0 <= m < |bursts| && Awaits(bursts, log'[p].c, m, d)
      ensures Destroyed(d) in log'[..p]
    {
      if p == |log| {
        OneBurst(bursts, c, k, m);
        DestroyedLogged(log, d);
      } else {
        assert log'[p] == log[p];
      }
    }
  }

  /** The next request of the current burst is issued. */
  lemma CallIssuedLogged(bursts: seq<seq<Req>>, log: seq<Moment>, requested: seq<Req>, destroyed: seq<CallId>,
                         completed: seq<seq<CallId>>, k: nat, req: nat, r: Req)
    requires Chronicle(bursts, log, requested, destroyed, completed) && k < |bursts| && req < |bursts[k]|
    requires |requested| == Before(bursts, k) + req
    requires EarlierDestroyed(bursts, k, destroyed) && (req > 0 ==> Before(bursts, k) in destroyed)
    ensures Chronicle(bursts, log + [Issued(|requested|, r)], requested + [r], destroyed, completed)
  {
    var e := Issued(|requested|, r);
    LogGrows(log, e);
    NumberedGrows(log, e);
    FlattenStep(bursts, k);
    BarrierStep(bursts, log, k, |requested|, r);
    hide RequestsIn, DestroyedIn, CompletedIn, Numbered, Barrier, EarlierDestroyed, Before;
  }

  // ---- the calls ----

  /** Every call created so far is either still referenced or was destroyed exactly once. */
  ghost predicate Account(destroyed: seq<CallId>, refs: multiset<CallId>, nextId: nat) {
    forall c: CallId :: multiset(destroyed)[c] == if c < nextId && c !in refs then 1 else 0
  }

  /** A new call, with its creator's reference. */
  lemma AccountNew(destroyed: seq<CallId>, refs: multiset<CallId>, nextId: nat)
    requires Account(destroyed, refs, nextId) && forall c :: c in refs ==> c < nextId
    ensures Account(destroyed, refs + multiset{nextId}, nextId + 1)
    ensures forall c :: c in refs + multiset{nextId} ==> c < nextId + 1
  {
  }

  /** Taking another reference to a live call leaves the account balanced. */
  lemma AccountMore(destroyed: seq<CallId>, refs: multiset<CallId>, nextId: nat, c: CallId)
    requires Account(destroyed, refs, nextId) && c in refs
    ensures Account(destroyed, refs + multiset{c}, nextId)
  {
  }

  /**
   Every call below bound was put into the ring of exactly one slot, exactly once, and each slot
   got its calls in the order in which they were created.
   */
  ghost predicate Handed(issuedTo: seq<seq<CallId>>, bound: CallId) {
    && EachOnce(issuedTo, bound)
    && (forall i :: 0 <= i < |issuedTo| ==> Increasing(issuedTo[i]))
  }

  ghost predicate EachOnce(rows: seq<seq<CallId>>, bound: CallId) {
    forall c: CallId :: Held(rows)[c] == if c < bound then 1 else 0
  }

  ghost predicate Increasing(q: seq<CallId>) { forall a, b :: 0 <= a < b < |q| ==> q[a] < q[b] }

  lemma HandedStep(issuedTo: seq<seq<CallId>>, i: nat, c: CallId)
    requires Handed(issuedTo, c) && i < |issuedTo|
    ensures Handed(issuedTo[i := issuedTo[i] + [c]], c + 1)
  {
    OnceStep(issuedTo, i, c);
    HeldIn(issuedTo, i);
    OneLater(issuedTo[i], c, Held(issuedTo));
    hide Increasing, EachOnce;
  }

  lemma OnceStep(rows: seq<seq<CallId>>, i: nat, c: CallId)
    requires EachOnce(rows, c) && i < |rows|
    ensures EachOnce(rows[i := rows[i] + [c]], c + 1)
  {
    HeldChange(rows, i, rows[i] + [c], c);
    assert multiset(rows[i] + [c]) == multiset(rows[i]) + multiset{c};
    hide Held;
  }

  lemma OneLater(q: seq<CallId>, c: CallId, held: multiset<CallId>)
    requires Increasing(q) && multiset(q) <= held && forall x: CallId :: x >= c ==> held[x] == 0
    ensures Increasing(q + [c])
  {
    forall a | 0 <= a < |q| ensures q[a] < c {
      assert q[a] in multiset(q);
    }
  }

  /** The calls destroyed are exactly those whose reply is complete. */
  ghost predicate OnlyReplied(destroyed: seq<CallId>, completed: seq<seq<CallId>>) {
    multiset(destroyed) == Held(completed)
  }

  lemma RepliedStep(destroyed: seq<CallId>, completed: seq<seq<CallId>>, i: nat, c: CallId)
    requires OnlyReplied(destroyed, completed) && i < |completed|
    ensures OnlyReplied(destroyed + [c], completed[i := completed[i] + [c]])
  {
    HeldChange(completed, i, completed[i] + [c], c);
    assert multiset(completed[i] + [c]) == multiset(completed[i]) + multiset{c};
    assert multiset(destroyed + [c]) == multiset(destroyed) + multiset{c};
  }

  /** With nothing outstanding, every call created so far has been destroyed. */
  lemma IdleDestroyed(w: World, maxPiped: nat, destroyed: seq<CallId>, nextId: nat)
    requires Consistent(w, maxPiped, multiset{}) && Account(destroyed, w.refs, nextId) && Outstanding(w.slots) == 0
    ensures forall c: CallId :: c < nextId ==> c in destroyed
  {
    NoneOutstanding(w.slots);
    HeldNothing(Rings(w.slots));
    forall c: CallId | c < nextId ensures c in destroyed {
      OnlyOnStack(w, maxPiped, multiset{}, c);
      assert c in multiset(destroyed);
    }
  }

  lemma NothingYet(bursts: seq<seq<Req>>, rows: seq<seq<CallId>>)
    requires bursts != [] && forall i :: 0 <= i < |rows| ==> rows[i] == []
    ensures bursts[0][..0] == [] && Flatten(bursts[..0]) == []
    ensures Before(bursts, 0) == 0 && Before(bursts, 1) == |bursts[0]|
    ensures Chronicle(bursts, [], [], [], rows) && Account([], multiset{}, 0) && Handed(rows, 0)
            && OnlyReplied([], rows)
    ensures EarlierDestroyed(bursts, 0, [])
  {
    FlattenStep(bursts, 0);
    HeldNothing(rows);
  }

  // ---- pipelined HTTP/1.0 ----

  /** Slot i will be left with a call that no connection carries, or has been already. */
  ghost predicate Clogged(slots: seq<Slot>, i: nat) {
    i < |slots| && (slots[i].numPending >= 2 || (slots[i].numPending > 0 && slots[i].conn.None?))
  }

  /**
   The burst that does pipelined HTTP/1.0 in: once it has been issued in full, some slot is clogged.
   Bursts of at most two requests, issued one by one, pass.
   */
  ghost predicate Jam(bursts: seq<seq<Req>>, current: nat, issued: nat, slots: seq<Slot>)
    requires current < |bursts|
  {
    && (forall b :: 0 <= b < current ==> |bursts[b]| <= 2)
    && (issued == |bursts[current]| >= 3 ==> exists i: nat :: Clogged(slots, i))
  }

  ghost predicate SmallBursts(bursts: seq<seq<Req>>) { forall b :: 0 <= b < |bursts| ==> |bursts[b]| <= 2 }

  /** Nothing is clogged once nothing is outstanding, so the burst just finished was small. */
  lemma JamPassed(bursts: seq<seq<Req>>, current: nat, issued: nat, slots: seq<Slot>)
    requires current < |bursts| && Jam(bursts, current, issued, slots) && Outstanding(slots) == 0
    requires issued == |bursts[current]|
    ensures forall b :: 0 <= b <= current ==> |bursts[b]| <= 2
  {
    NoneOutstanding(slots);
  }

  lemma JamStart(bursts: seq<seq<Req>>, current: nat, issued: nat, slots: seq<Slot>)
    requires current < |bursts| && issued < 3
    requires forall b :: 0 <= b < current ==> |bursts[b]| <= 2
    ensures Jam(bursts, current, issued, slots)
  {
  }

  /**
   A slot that lost its connection with its answered call is clogged if it was before; the others are as they
   were.
   */
  lemma JamAnswered(bursts: seq<seq<Req>>, current: nat, issued: nat, slots: seq<Slot>, slots': seq<Slot>, i: nat)
    requires current < |bursts| && Jam(bursts, current, issued, slots) && i < |slots| == |slots'|
    requires slots[i].conn.Some? && slots'[i].conn.None? && slots'[i].numPending + 1 == slots[i].numPending
    requires forall k :: 0 <= k < |slots| && k != i ==> slots'[k] == slots[k]
    ensures Jam(bursts, current, issued, slots')
  {
    if k: nat :| Clogged(slots, k) {
      assert Clogged(slots', k);
    }
  }

  /** A slot may gain or keep a connection and change what it sent, as long as none is stranded by that. */
  lemma JamKept(bursts: seq<seq<Req>>, current: nat, issued: nat, slots: seq<Slot>, slots': seq<Slot>, i: nat)
    requires current < |bursts| && Jam(bursts, current, issued, slots) && i < |slots| == |slots'|
    requires slots[i].conn.Some? && slots'[i].numPending == slots[i].numPending
    requires forall k :: 0 <= k < |slots| && k != i ==> slots'[k] == slots[k]
    ensures Jam(bursts, current, issued, slots')
  {
    if k: nat :| Clogged(slots, k) {
      assert Clogged(slots', k);
    }
  }

  /** As many calls outstanding as there can be fill every slot. */
  lemma {:induction false} AllFull(slots: seq<Slot>, maxPiped: nat)
    requires forall i :: 0 <= i < |slots| ==> slots[i].numPending <= maxPiped
    requires Outstanding(slots) == |slots| * maxPiped
    ensures forall i :: 0 <= i < |slots| ==> slots[i].numPending == maxPiped
  {
    if slots != [] {
      OutstandingBound(slots[..|slots| - 1], maxPiped);
      assert |slots| * maxPiped == (|slots| - 1) * maxPiped + maxPiped;
      AllFull(slots[..|slots| - 1], maxPiped);
    }
  }

  /** All requests issued and destroyed: the current burst is the last one and was issued in full. */
  lemma LastBurst(bursts: seq<seq<Req>>, current: nat, issued: nat)
    requires current < |bursts| && issued <= |bursts[current]|
    requires forall b :: 0 <= b < |bursts| ==> bursts[b] != []
    requires Before(bursts, current) + issued >= |Flatten(bursts)|
    ensures current + 1 == |bursts| && issued == |bursts[current]|
  {
    hide Flatten;
    BeforeAll(bursts);
    FlattenStep(bursts, current);
    BeforeMonotone(bursts, current + 1, |bursts|);
    if current + 1 < |bursts| {
      FlattenStep(bursts, current + 1);
      BeforeMonotone(bursts, current + 2, |bursts|);
    }
  }
}
