/**
 The structural state of a session as one value, the invariant every engine step
 keeps, and one lemma per step that shows so.
 */
module SessionWorld {
  import opened Wrappers
  import opened CallRing
  import opened RefLedger
  import opened SessionWiring

  datatype World = World(
    slots: seq<Slot>,
    conns: seq<Conn>,
    refs: multiset<CallId>,
    issuedTo: seq<seq<CallId>>,
    completed: seq<seq<CallId>>)

  /** Rings, queues, reference counts and histories agree; extra are references on the stack. */
  ghost predicate Consistent(w: World, maxPiped: nat, extra: multiset<CallId>) {
    && (forall i {:trigger SlotOk(w.slots[i], maxPiped)} :: 0 <= i < |w.slots| ==> SlotOk(w.slots[i], maxPiped))
    && Wired(w.slots, w.conns, None)
    && Ledger(w.slots, w.conns, w.refs, extra)
    && (forall c {:trigger Waiting(w.slots)[c]} :: Waiting(w.slots)[c] <= 1)
    && |w.issuedTo| == |w.completed| == |w.slots|
    && (forall i :: 0 <= i < |w.slots| ==> w.issuedTo[i] == w.completed[i] + Pending(w.slots[i]))
  }

  lemma Limits(w: World, maxPiped: nat, extra: multiset<CallId>, i: nat)
    requires Consistent(w, maxPiped, extra) && i < |w.slots|
    ensures w.slots[i].numSent <= w.slots[i].numPending <= maxPiped <= MAX_PIPED
  {
    assert SlotOk(w.slots[i], maxPiped);
  }

  lemma NoneOverfull(w: World, maxPiped: nat, extra: multiset<CallId>)
    requires Consistent(w, maxPiped, extra)
    ensures forall i :: 0 <= i < |w.slots| ==> w.slots[i].numPending <= maxPiped
  {
    forall i | 0 <= i < |w.slots| ensures w.slots[i].numPending <= maxPiped {
      Limits(w, maxPiped, extra, i);
    }
  }

  /** session_current_qlen. */
  ghost function Outstanding(slots: seq<Slot>): nat {
    if slots == [] then 0 else Outstanding(slots[..|slots| - 1]) + slots[|slots| - 1].numPending
  }

  lemma {:induction false} OutstandingUpdate(slots: seq<Slot>, i: nat, s: Slot)
    requires i < |slots|
    ensures Outstanding(slots[i := s]) + slots[i].numPending == Outstanding(slots) + s.numPending
  {
    var n := |slots| - 1;
    var slots' := slots[i := s];
    if i == n {
      assert slots'[..n] == slots[..n];
    } else {
      OutstandingUpdate(slots[..n], i, s);
      assert slots'[..n] == slots[..n][i := s];
    }
  }

  /** As long as fewer than maxPiped calls per slot are outstanding, some slot has room. */
  lemma {:induction false} FullSlots(slots: seq<Slot>, maxPiped: nat)
    requires forall i :: 0 <= i < |slots| ==> slots[i].numPending >= maxPiped
    ensures Outstanding(slots) >= |slots| * maxPiped
  {
    if slots != [] {
      FullSlots(slots[..|slots| - 1], maxPiped);
      assert |slots| * maxPiped == (|slots| - 1) * maxPiped + maxPiped;
    }
  }

  lemma {:induction false} OutstandingBound(slots: seq<Slot>, maxPiped: nat)
    requires forall i :: 0 <= i < |slots| ==> slots[i].numPending <= maxPiped
    ensures Outstanding(slots) <= |slots| * maxPiped
  {
    if slots != [] {
      OutstandingBound(slots[..|slots| - 1], maxPiped);
      assert |slots| * maxPiped == (|slots| - 1) * maxPiped + maxPiped;
    }
  }

  lemma {:induction false} NoneOutstanding(slots: seq<Slot>)
    ensures Outstanding(slots) == 0 <==> forall i :: 0 <= i < |slots| ==> slots[i].numPending == 0
  {
    if slots != [] {
      NoneOutstanding(slots[..|slots| - 1]);
    }
  }

  /** A slot's ring can be read at its head, its tail and its first unsent call. */
  lemma RingShape(w: World, maxPiped: nat, extra: multiset<CallId>, i: nat)
    requires Consistent(w, maxPiped, extra) && i < |w.slots|
    ensures var s := w.slots[i];
            && |s.call| == MAX_PIPED && s.rd < MAX_PIPED && s.wr < MAX_PIPED
            && s.numSent <= s.numPending <= maxPiped <= MAX_PIPED
            && (s.numSent < s.numPending ==>
                  var k := (s.rd + s.numSent) % MAX_PIPED;
                  s.call[k].Some? && s.call[k].value == Pending(s)[s.numSent])
  {
    var s := w.slots[i];
    assert SlotOk(s, maxPiped);
    if s.numSent < s.numPending {
      assert s.call[RingIndex(s.rd, s.numSent)].Some?;
    }
  }

  lemma RingAt(w: World, maxPiped: nat, extra: multiset<CallId>, i: nat, k: nat)
    requires Consistent(w, maxPiped, extra) && i < |w.slots| && k < w.slots[i].numPending
    ensures var s := w.slots[i];
            && |s.call| == MAX_PIPED
            && s.call[(s.rd + k) % MAX_PIPED] == Some(Pending(s)[k])
  {
    assert SlotOk(w.slots[i], maxPiped);
    assert w.slots[i].call[RingIndex(w.slots[i].rd, k)].Some?;
  }

  /** A call in a ring outlives the release of any one reference held on the stack. */
  lemma StillHeld(w: World, maxPiped: nat, extra: multiset<CallId>, c: CallId)
    requires Consistent(w, maxPiped, extra) && Waiting(w.slots)[c] > 0
    ensures w.refs[c] >= extra[c] + 1
  {
  }

  /** call_new: a call no ring knows yet, referenced by its creator. */
  lemma CreateCallOk(w: World, maxPiped: nat, extra: multiset<CallId>, c: CallId)
    requires Consistent(w, maxPiped, extra) && c !in w.refs
    ensures Consistent(w.(refs := w.refs + multiset{c}), maxPiped, extra + multiset{c})
    ensures Waiting(w.slots)[c] == 0
  {
    assert w.refs[c] >= Waiting(w.slots)[c];
  }

  function Issue(w: World, i: nat, c: CallId): World
    requires i < |w.slots| && w.slots[i].wr < |w.slots[i].call| && i < |w.issuedTo|
  {
    w.(slots := w.slots[i := Push(w.slots[i], c)], refs := w.refs + multiset{c},
       issuedTo := w.issuedTo[i := w.issuedTo[i] + [c]])
  }

  /** session_issue_call puts a new call into a ring with room. */
  lemma IssueOk(w: World, maxPiped: nat, extra: multiset<CallId>, i: nat, c: CallId)
    requires Consistent(w, maxPiped, extra) && Waiting(w.slots)[c] == 0
    requires i < |w.slots| && w.slots[i].wr < |w.slots[i].call| && i < |w.issuedTo|
    requires w.slots[i].numPending < maxPiped
    ensures Consistent(Issue(w, i, c), maxPiped, extra)
    ensures Outstanding(Issue(w, i, c).slots) == Outstanding(w.slots) + 1
    ensures Waiting(Issue(w, i, c).slots)[c] == 1
  {
    hide SlotOk, Held, Pending, Rings, Queues;
    var w' := Issue(w, i, c);
    assert SlotOk(w.slots[i], maxPiped);
    IssueStep(w.slots, w.conns, i, c, maxPiped);
    OutstandingUpdate(w.slots, i, Push(w.slots[i], c));
    forall k | 0 <= k < |w'.slots| ensures SlotOk(w'.slots[k], maxPiped) {
      if k != i {
        assert SlotOk(w.slots[k], maxPiped);
      }
    }
  }

  function Send(w: World, i: nat, j: ConnId, c: CallId): World
    requires i < |w.slots| && j < |w.conns|
  {
    w.(slots := w.slots[i := w.slots[i].(numSent := w.slots[i].numSent + 1)],
       conns := w.conns[j := w.conns[j].(sendq := w.conns[j].sendq + [c])],
       refs := w.refs + multiset{c})
  }

  /** core_send of the first unsent call of a connected slot. */
  lemma SendOk(w: World, maxPiped: nat, extra: multiset<CallId>, i: nat, j: ConnId, c: CallId)
    requires Consistent(w, maxPiped, extra)
    requires i < |w.slots| && w.slots[i].conn == Some(j) && w.slots[i].isConnected
    requires w.slots[i].numSent < w.slots[i].numPending && Pending(w.slots[i])[w.slots[i].numSent] == c
    ensures j < |w.conns| && Consistent(Send(w, i, j, c), maxPiped, extra)
    ensures Waiting(Send(w, i, j, c).slots) == Waiting(w.slots)
    ensures c in w.refs
  {
    hide SlotOk, Held, Pending, Rings, Queues;
    var s := w.slots[i];
    assert SlotOk(s, maxPiped);
    SendStep(w.slots, w.conns, i, c, maxPiped);
    HeldIn(Rings(w.slots), i);
    InWaiting(Pending(s), Waiting(w.slots), c);
    var w' := Send(w, i, j, c);
    var s' := w'.slots[i];
    SameRing(w.slots[i], w'.slots[i]);
    forall k | 0 <= k < |w'.slots| ensures SlotOk(w'.slots[k], maxPiped) {
      assert SlotOk(w.slots[k], maxPiped);
    }
  }

  function Create(w: World, i: nat): World
    requires i < |w.slots|
  {
    w.(slots := w.slots[i := Reconnected(w.slots[i], |w.conns|)],
       conns := w.conns + [Conn(Connecting, i, [], [])])
  }

  /** create_conn for a slot without a connection. */
  lemma CreateOk(w: World, maxPiped: nat, extra: multiset<CallId>, i: nat)
    requires Consistent(w, maxPiped, extra) && i < |w.slots| && w.slots[i].conn.None?
    ensures Consistent(Create(w, i), maxPiped, extra)
    ensures Waiting(Create(w, i).slots) == Waiting(w.slots)
  {
    hide SlotOk, Held, Pending, Rings, Queues;
    CreateStep(w.slots, w.conns, i);
    var w' := Create(w, i);
    SameRing(w.slots[i], w'.slots[i]);
    forall k | 0 <= k < |w'.slots| ensures SlotOk(w'.slots[k], maxPiped) {
      assert SlotOk(w.slots[k], maxPiped);
    }
  }

  function Drop(w: World, j: ConnId): World
    requires j < |w.conns|
  {
    w.(conns := w.conns[j := w.conns[j].Closed()], refs := w.refs - multiset(w.conns[j].Queue()))
  }

  /** Every call queued on an open connection has another reference, from its ring. */
  lemma QueuedTwice(w: World, maxPiped: nat, extra: multiset<CallId>, j: ConnId)
    requires Consistent(w, maxPiped, extra) && j < |w.conns| && w.conns[j].state != Closing
    ensures multiset(w.conns[j].Queue()) + multiset(w.conns[j].Queue()) <= w.refs
    ensures w.conns[j].slot < |w.slots| && w.slots[w.conns[j].slot].conn == Some(j)
    ensures w.slots[w.conns[j].slot].isConnected <==> w.conns[j].state == Open
  {
    var i := w.conns[j].slot;
    assert ConnWired(w.slots, w.conns[j], j, None);
    assert SlotWired(w.slots[i], i, w.conns, None);
    QueueInRing(w.slots, w.conns, i, None);
    HeldIn(Queues(w.conns), j);
  }

  /** conn_failed then core_close: the slot gets a fresh connection and will resend everything. */
  lemma ReconnectOk(w: World, maxPiped: nat, extra: multiset<CallId>, i: nat, j: ConnId)
    requires Consistent(w, maxPiped, extra)
    requires i < |w.slots| && j < |w.conns| && w.slots[i].conn == Some(j)
    ensures Consistent(Drop(Create(w, i), j), maxPiped, extra)
  {
    hide SlotOk, Held, Pending, Rings, Queues;
    CreateStep(w.slots, w.conns, i);
    var v := Create(w, i);
    CloseDyingStep(v.slots, v.conns, j);
    var w' := Drop(v, j);
    SameRing(w.slots[i], w'.slots[i]);
    forall k | 0 <= k < |w'.slots| ensures SlotOk(w'.slots[k], maxPiped) {
      assert SlotOk(w.slots[k], maxPiped);
    }
    assert v.conns[j] == w.conns[j];
    DropLedger(v, j, extra);
  }

  lemma DropLedger(w: World, j: ConnId, extra: multiset<CallId>)
    requires Ledger(w.slots, w.conns, w.refs, extra) && j < |w.conns|
    ensures Ledger(w.slots, Drop(w, j).conns, Drop(w, j).refs, extra)
  {
    QueuesUpdate(w.conns, j, w.conns[j].Closed(), 0);
  }

  /** core_close of the connection of slot i, which is left without one. */
  lemma CloseOk(w: World, maxPiped: nat, extra: multiset<CallId>, i: nat, j: ConnId)
    requires Consistent(w, maxPiped, extra)
    requires i < |w.slots| && j < |w.conns| && w.slots[i].conn == Some(j)
    ensures Consistent(Drop(w, j).(slots := w.slots[i := w.slots[i].(conn := None)]), maxPiped, extra)
  {
    hide SlotOk, Held, Pending, Rings, Queues;
    var s := w.slots[i].(conn := None);
    Limits(w, maxPiped, extra, i);
    CloseStep(w.slots, w.conns, i, j, s);
    DropLedger(w, j, extra);
    SameRing(w.slots[i], s);
    WaitingUpdate(w.slots, i, s, 0);
    var w' := Drop(w, j).(slots := w.slots[i := s]);
    forall k | 0 <= k < |w'.slots| ensures SlotOk(w'.slots[k], maxPiped) {
      assert SlotOk(w.slots[k], maxPiped);
    }
  }

  function Connect(w: World, i: nat, j: ConnId): World
    requires i < |w.slots| && j < |w.conns|
  {
    w.(slots := w.slots[i := w.slots[i].(isConnected := true)], conns := w.conns[j := w.conns[j].(state := Open)])
  }

  lemma ConnectOk(w: World, maxPiped: nat, extra: multiset<CallId>, i: nat, j: ConnId)
    requires Consistent(w, maxPiped, extra) && j < |w.conns| && w.conns[j].state == Connecting
    requires i == w.conns[j].slot < |w.slots| && w.slots[i].conn == Some(j)
    ensures Consistent(Connect(w, i, j), maxPiped, extra)
  {
    hide SlotOk, Held, Pending, Rings, Queues;
    Limits(w, maxPiped, extra, i);
    assert SlotOk(w.slots[i], maxPiped);
    ConnectStep(w.slots, w.conns, i, j, maxPiped);
    var w' := Connect(w, i, j);
    SameRing(w.slots[i], w'.slots[i]);
    forall k | 0 <= k < |w'.slots| ensures SlotOk(w'.slots[k], maxPiped) {
      assert SlotOk(w.slots[k], maxPiped);
    }
  }

  /** do_send: the head of the send queue now waits for its reply. */
  lemma SentOk(w: World, maxPiped: nat, extra: multiset<CallId>, j: ConnId)
    requires Consistent(w, maxPiped, extra) && j < |w.conns| && w.conns[j].state == Open && w.conns[j].sendq != []
    ensures Consistent(w.(conns := w.conns[j := Sent(w.conns[j])]), maxPiped, extra)
  {
    SentStep(w.slots, w.conns, j);
  }

  function Reply(w: World, i: nat, j: ConnId, c: CallId): World
    requires i < |w.slots| && j < |w.conns| && i < |w.completed| && w.conns[j].recvq != []
    requires w.slots[i].rd < |w.slots[i].call| && w.slots[i].numPending > 0 && w.slots[i].numSent > 0
  {
    w.(slots := w.slots[i := Answered(w.slots[i])],
       conns := w.conns[j := Received(w.conns[j])],
       completed := w.completed[i := w.completed[i] + [c]])
  }

  /** The call whose reply arrives is the one at the head of its slot's ring. */
  lemma ReplyExpected(w: World, maxPiped: nat, extra: multiset<CallId>, j: ConnId)
    requires Consistent(w, maxPiped, extra) && j < |w.conns| && w.conns[j].state == Open && w.conns[j].recvq != []
    ensures w.conns[j].slot < |w.slots| && |w.completed| == |w.slots|
    ensures var s := w.slots[w.conns[j].slot];
            && s.conn == Some(j) && s.isConnected && |s.call| == MAX_PIPED && s.rd < MAX_PIPED
            && s.numPending > 0 && s.numSent > 0
            && s.call[s.rd] == Some(w.conns[j].recvq[0])
            && Pending(s)[0] == w.conns[j].recvq[0]
    ensures w.conns[j].recvq[0] in w.refs
  {
    ReplyMatchesRing(w.slots, w.conns, j, maxPiped);
    QueuedTwice(w, maxPiped, extra, j);
    assert w.conns[j].Queue()[0] == w.conns[j].recvq[0];
    assert w.conns[j].recvq[0] in multiset(w.conns[j].Queue());
  }

  /** recv_done and call_done: the call leaves queue and ring, its two references remain to be dropped. */
  lemma ReplyOk(w: World, maxPiped: nat, extra: multiset<CallId>, i: nat, j: ConnId, c: CallId)
    requires Consistent(w, maxPiped, extra) && j < |w.conns| && w.conns[j].state == Open && w.conns[j].recvq != []
    requires i == w.conns[j].slot < |w.slots| == |w.completed| && c == w.conns[j].recvq[0]
    requires w.slots[i].rd < |w.slots[i].call| && w.slots[i].numPending > 0 && w.slots[i].numSent > 0
    ensures Consistent(Reply(w, i, j, c), maxPiped, extra + multiset{c, c})
    ensures Waiting(Reply(w, i, j, c).slots)[c] == 0
    ensures Outstanding(Reply(w, i, j, c).slots) + 1 == Outstanding(w.slots)
  {
    hide SlotOk, Held, Pending, Rings, Queues;
    ReplyMatchesRing(w.slots, w.conns, j, maxPiped);
    var w' := Reply(w, i, j, c);
    ReplyStep(w.slots, w.conns, i, j, maxPiped);
    OutstandingUpdate(w.slots, i, w'.slots[i]);
    ReplyLedgerExtra(w, w', extra, c);
    assert Waiting(w.slots)[c] <= 1;
    forall k | 0 <= k < |w'.slots| ensures SlotOk(w'.slots[k], maxPiped) {
      assert SlotOk(w.slots[k], maxPiped);
    }
    forall k | 0 <= k < |w'.slots| ensures w'.issuedTo[k] == w'.completed[k] + Pending(w'.slots[k]) {
      if k == i {
        assert Pending(w.slots[i]) == [c] + Pending(w'.slots[i]);
      }
    }
    forall x ensures Waiting(w'.slots)[x] <= 1 {
      assert Waiting(w.slots)[x] <= 1;
    }
  }

  lemma ReplyLedgerExtra(w: World, w': World, extra: multiset<CallId>, c: CallId)
    requires Ledger(w.slots, w.conns, w.refs, extra)
    requires Waiting(w'.slots) + multiset{c} == Waiting(w.slots)
    requires Held(Queues(w'.conns)) + multiset{c} == Held(Queues(w.conns))
    ensures Ledger(w'.slots, w'.conns, w.refs, extra + multiset{c, c})
  {
  }

  /** Dropping a reference that only the stack held. */
  lemma ReleaseOk(w: World, maxPiped: nat, extra: multiset<CallId>, c: CallId)
    requires Consistent(w, maxPiped, extra) && c in extra
    ensures c in w.refs
    ensures Consistent(w.(refs := w.refs - multiset{c}), maxPiped, extra - multiset{c})
  {
  }

  /** A call in no ring is referenced from the stack only. */
  lemma OnlyOnStack(w: World, maxPiped: nat, extra: multiset<CallId>, c: CallId)
    requires Consistent(w, maxPiped, extra) && Waiting(w.slots)[c] == 0
    ensures w.refs[c] == extra[c]
  {
    NotWaitingNotQueued(w.slots, w.conns, c);
  }

  /** sess_destroyed frees slot i: its ring entries become references to drop. */
  lemma FreeSlotOk(w: World, maxPiped: nat, extra: multiset<CallId>, i: nat)
    requires Consistent(w, maxPiped, extra) && i < |w.slots| && w.slots[i].conn.None?
    ensures |w.issuedTo| == |w.completed| == |w.slots| && w.issuedTo[i] == w.completed[i] + Pending(w.slots[i])
    ensures Consistent(w.(slots := w.slots[i := EMPTY_SLOT], issuedTo := w.issuedTo[i := w.completed[i]]),
                  maxPiped, extra + multiset(Pending(w.slots[i])))
  {
    hide SlotOk, Held, Pending, Rings, Queues;
    var w' := w.(slots := w.slots[i := EMPTY_SLOT], issuedTo := w.issuedTo[i := w.completed[i]]);
    assert maxPiped <= MAX_PIPED by {
      Limits(w, maxPiped, extra, i);
    }
    EmptySlotOk(maxPiped);
    IssueIdle(w.slots, w.conns, i, EMPTY_SLOT);
    HeldUpdate(Rings(w.slots), i, []);
    RingsUpdate(w.slots, i, EMPTY_SLOT);
    assert Waiting(w'.slots) + multiset(Pending(w.slots[i])) == Waiting(w.slots);
    forall k | 0 <= k < |w'.slots| ensures SlotOk(w'.slots[k], maxPiped) {
      if k != i {
        assert SlotOk(w.slots[k], maxPiped);
      }
    }
    forall c ensures Waiting(w'.slots)[c] <= 1 {
      assert Waiting(w.slots)[c] <= 1;
    }
  }

  /** With every slot freed, no connection is open and only stack references are left. */
  lemma AllFreed(w: World, maxPiped: nat, extra: multiset<CallId>)
    requires Consistent(w, maxPiped, extra)
    requires forall i :: 0 <= i < |w.slots| ==> w.slots[i] == EMPTY_SLOT
    ensures w.refs == extra
    ensures forall j :: 0 <= j < |w.conns| ==> w.conns[j].state == Closing && w.conns[j].Queue() == []
  {
    forall j | 0 <= j < |w.conns| ensures w.conns[j].state == Closing && w.conns[j].Queue() == [] {
      assert ConnWired(w.slots, w.conns[j], j, None);
    }
    HeldNothing(Rings(w.slots));
    HeldNothing(Queues(w.conns));
  }
}
