/**
 How the call rings of a session, the send and receive queues of its connections
 and the reference counts of its calls fit together, and why every elementary
 step of the engine keeps them so.
 */
module SessionWiring {
  import opened Wrappers
  import opened CallRing
  import opened RefLedger

  datatype ConnState = Connecting | Open | Closing

  /** A connection object; slot is the Conn_Info it was created for. */
  datatype Conn = Conn(state: ConnState, slot: nat, sendq: seq<CallId>, recvq: seq<CallId>) {
    /** Calls in flight, in the order their replies are due. */
    function Queue(): seq<CallId> { recvq + sendq }

    function Closed(): Conn { Conn(Closing, slot, [], []) }
  }

  /**
   Every live connection belongs to exactly one slot, and its receive queue followed
   by its send queue is the sent prefix of that slot's ring. A connection that is
   being replaced (dying) may still be open although no slot points to it.
   */
  ghost predicate Wired(slots: seq<Slot>, conns: seq<Conn>, dying: Option<ConnId>) {
    && (forall i {:trigger SlotWired(slots[i], i, conns, dying)} ::
          0 <= i < |slots| && slots[i].conn.Some? ==> SlotWired(slots[i], i, conns, dying))
    && (forall j {:trigger ConnWired(slots, conns[j], j, dying)} ::
          0 <= j < |conns| ==> ConnWired(slots, conns[j], j, dying))
  }

  ghost predicate SlotWired(s: Slot, i: nat, conns: seq<Conn>, dying: Option<ConnId>)
    requires s.conn.Some?
  {
    var j := s.conn.value;
    && j < |conns|
    && conns[j].state != Closing
    && conns[j].slot == i
    && Some(j) != dying
    && s.numSent <= s.numPending
    && conns[j].Queue() == Pending(s)[..s.numSent]
    && (s.isConnected <==> conns[j].state == Open)
    && (!s.isConnected ==> s.numSent == 0)
  }

  ghost predicate ConnWired(slots: seq<Slot>, c: Conn, j: nat, dying: Option<ConnId>) {
    if c.state == Closing then c.Queue() == []
    else Some(j) == dying || (c.slot < |slots| && slots[c.slot].conn == Some(j))
  }

  ghost function Rings(slots: seq<Slot>): (r: seq<seq<CallId>>)
    ensures |r| == |slots|
    ensures forall i :: 0 <= i < |slots| ==> r[i] == Pending(slots[i])
  {
    seq(|slots|, i requires 0 <= i < |slots| => Pending(slots[i]))
  }

  ghost function Queues(conns: seq<Conn>): (r: seq<seq<CallId>>)
    ensures |r| == |conns|
    ensures forall j :: 0 <= j < |conns| ==> r[j] == conns[j].Queue()
  {
    seq(|conns|, j requires 0 <= j < |conns| => conns[j].Queue())
  }

  /** The calls that some ring still waits for. */
  ghost function Waiting(slots: seq<Slot>): multiset<CallId> { Held(Rings(slots)) }

  /**
   Reference conservation: a call is referenced once for its ring entry, once for its
   place in a connection queue, and by the holders still on the stack (extra).
   */
  ghost predicate Ledger(slots: seq<Slot>, conns: seq<Conn>, refs: multiset<CallId>, extra: multiset<CallId>) {
    refs == Waiting(slots) + Held(Queues(conns)) + extra
  }

  lemma WaitingUpdate(slots: seq<Slot>, i: nat, s: Slot, c: CallId)
    requires i < |slots|
    ensures Pending(s) == Pending(slots[i]) ==> Waiting(slots[i := s]) == Waiting(slots)
    ensures Pending(s) == Pending(slots[i]) + [c] ==> Waiting(slots[i := s]) == Waiting(slots) + multiset{c}
    ensures [c] + Pending(s) == Pending(slots[i]) ==> Waiting(slots[i := s]) + multiset{c} == Waiting(slots)
  {
    HeldChange(Rings(slots), i, Pending(s), c);
    assert Rings(slots[i := s]) == Rings(slots)[i := Pending(s)];
    if [c] + Pending(s) == Pending(slots[i]) {
      assert multiset(Pending(slots[i])) == multiset{c} + multiset(Pending(s));
    }
  }

  lemma QueuesUpdate(conns: seq<Conn>, j: nat, d: Conn, c: CallId)
    requires j < |conns|
    ensures d.Queue() == conns[j].Queue() ==> Held(Queues(conns[j := d])) == Held(Queues(conns))
    ensures d.Queue() == conns[j].Queue() + [c] ==> Held(Queues(conns[j := d])) == Held(Queues(conns)) + multiset{c}
    ensures [c] + d.Queue() == conns[j].Queue() ==> Held(Queues(conns[j := d])) + multiset{c} == Held(Queues(conns))
    ensures d.Queue() == [] ==> Held(Queues(conns[j := d])) + multiset(conns[j].Queue()) == Held(Queues(conns))
  {
    HeldChange(Queues(conns), j, d.Queue(), c);
    HeldUpdate(Queues(conns), j, d.Queue());
    assert Queues(conns[j := d]) == Queues(conns)[j := d.Queue()];
    if [c] + d.Queue() == conns[j].Queue() {
      assert multiset(conns[j].Queue()) == multiset{c} + multiset(d.Queue());
    }
  }

  lemma RingsUpdate(slots: seq<Slot>, i: nat, s: Slot)
    requires i < |slots|
    ensures Rings(slots)[i] == Pending(slots[i])
    ensures Rings(slots[i := s]) == Rings(slots)[i := Pending(s)]
  {
  }

  /** A call in flight on a wired connection is still in that slot's ring. */
  lemma QueueInRing(slots: seq<Slot>, conns: seq<Conn>, i: nat, dying: Option<ConnId>)
    requires Wired(slots, conns, dying) && i < |slots| && slots[i].conn.Some?
    ensures slots[i].conn.value < |conns|
    ensures multiset(conns[slots[i].conn.value].Queue()) <= multiset(Pending(slots[i])) <= Waiting(slots)
  {
    var s := slots[i];
    assert SlotWired(s, i, conns, dying);
    assert Pending(s) == Pending(s)[..s.numSent] + Pending(s)[s.numSent..];
    HeldIn(Rings(slots), i);
  }

  /** A call that no ring waits for is in no connection queue either. */
  lemma NotWaitingNotQueued(slots: seq<Slot>, conns: seq<Conn>, c: CallId)
    requires Wired(slots, conns, None)
    requires Waiting(slots)[c] == 0
    ensures Held(Queues(conns))[c] == 0
  {
    if Held(Queues(conns))[c] > 0 {
      HeldFrom(Queues(conns), c);
      var j :| 0 <= j < |conns| && c in Queues(conns)[j];
      var i := conns[j].slot;
      assert ConnWired(slots, conns[j], j, None);
      QueueInRing(slots, conns, i, None);
      InWaiting(conns[j].Queue(), Waiting(slots), c);
      assert false;
    }
  }

  lemma InWaiting(q: seq<CallId>, m: multiset<CallId>, c: CallId)
    requires multiset(q) <= m && c in q
    ensures m[c] > 0
  {
    assert c in multiset(q);
  }

  /** Changing one slot together with its own connection leaves the others wired. */
  lemma Rewire(slots: seq<Slot>, conns: seq<Conn>, i: nat, s: Slot, j: nat, d: Conn)
    requires Wired(slots, conns, None)
    requires i < |slots| && j < |conns| && slots[i].conn == Some(j) && d.slot == i
    requires s.conn.Some? ==> s.conn == Some(j) && d.state != Closing && SlotWired(s, i, conns[j := d], None)
    requires s.conn.None? ==> d == conns[j].Closed()
    ensures Wired(slots[i := s], conns[j := d], None)
  {
    var slots', conns' := slots[i := s], conns[j := d];
    assert SlotWired(slots[i], i, conns, None);
    forall k | 0 <= k < |slots'| && slots'[k].conn.Some? ensures SlotWired(slots'[k], k, conns', None) {
      if k != i {
        assert SlotWired(slots[k], k, conns, None);
      }
    }
    forall k | 0 <= k < |conns'| ensures ConnWired(slots', conns'[k], k, None) {
      if k != j {
        assert ConnWired(slots, conns[k], k, None);
      }
    }
  }

  /** session_issue_call: the new call is queued in the ring, with its ring reference. */
  lemma IssueStep(slots: seq<Slot>, conns: seq<Conn>, i: nat, c: CallId, maxPiped: nat)
    requires Wired(slots, conns, None) && i < |slots|
    requires SlotOk(slots[i], maxPiped) && slots[i].numPending < maxPiped
    ensures SlotOk(Push(slots[i], c), maxPiped)
    ensures Pending(Push(slots[i], c)) == Pending(slots[i]) + [c]
    ensures Wired(slots[i := Push(slots[i], c)], conns, None)
    ensures Waiting(slots[i := Push(slots[i], c)]) == Waiting(slots) + multiset{c}
  {
    var s := Push(slots[i], c);
    PushAppends(slots[i], c, maxPiped);
    WaitingUpdate(slots, i, s, c);
    if slots[i].conn.Some? {
      var j := slots[i].conn.value;
      assert SlotWired(slots[i], i, conns, None);
      assert conns[j := conns[j]] == conns;
      assert Pending(s)[..s.numSent] == Pending(slots[i])[..s.numSent];
      Rewire(slots, conns, i, s, j, conns[j]);
    } else {
      IssueIdle(slots, conns, i, s);
    }
  }

  lemma IssueIdle(slots: seq<Slot>, conns: seq<Conn>, i: nat, s: Slot)
    requires Wired(slots, conns, None) && i < |slots| && slots[i].conn.None? && s.conn.None?
    ensures Wired(slots[i := s], conns, None)
  {
    var slots' := slots[i := s];
    forall k | 0 <= k < |slots'| && slots'[k].conn.Some? ensures SlotWired(slots'[k], k, conns, None) {
      assert SlotWired(slots[k], k, conns, None);
    }
    forall k | 0 <= k < |conns| ensures ConnWired(slots', conns[k], k, None) {
      assert ConnWired(slots, conns[k], k, None);
    }
  }

  /** core_send of the next unsent call of slot i, which holds it at ring position k. */
  lemma SendStep(slots: seq<Slot>, conns: seq<Conn>, i: nat, c: CallId, maxPiped: nat)
    requires Wired(slots, conns, None) && i < |slots|
    requires SlotOk(slots[i], maxPiped) && slots[i].numSent < slots[i].numPending
    requires slots[i].conn.Some? && slots[i].isConnected
    requires Pending(slots[i])[slots[i].numSent] == c
    ensures slots[i].conn.value < |conns|
    ensures var s, j := slots[i].(numSent := slots[i].numSent + 1), slots[i].conn.value;
            var d := conns[j].(sendq := conns[j].sendq + [c]);
            && Pending(s) == Pending(slots[i])
            && Wired(slots[i := s], conns[j := d], None)
            && Waiting(slots[i := s]) == Waiting(slots)
            && Held(Queues(conns[j := d])) == Held(Queues(conns)) + multiset{c}
  {
    var t := slots[i];
    var s, j := t.(numSent := t.numSent + 1), t.conn.value;
    assert j < |conns| by {
      assert SlotWired(t, i, conns, None);
    }
    var d := conns[j].(sendq := conns[j].sendq + [c]);
    SameRing(t, s);
    SendWired(slots, conns, i, c, j, s, d);
    assert d.Queue() == conns[j].Queue() + [c];
    WaitingUpdate(slots, i, s, c);
    QueuesUpdate(conns, j, d, c);
  }

  lemma SendWired(slots: seq<Slot>, conns: seq<Conn>, i: nat, c: CallId, j: nat, s: Slot, d: Conn)
    requires Wired(slots, conns, None) && i < |slots| && j < |conns|
    requires slots[i].conn == Some(j) && slots[i].isConnected && slots[i].numSent < slots[i].numPending
    requires Pending(slots[i])[slots[i].numSent] == c
    requires s == slots[i].(numSent := slots[i].numSent + 1) && Pending(s) == Pending(slots[i])
    requires d == conns[j].(sendq := conns[j].sendq + [c])
    ensures Wired(slots[i := s], conns[j := d], None)
  {
    var p, n := Pending(s), slots[i].numSent;
    assert SlotWired(slots[i], i, conns, None);
    assert d.Queue() == conns[j].Queue() + [c];
    assert p[..n] + [c] == p[..n + 1];
    Rewire(slots, conns, i, s, j, d);
  }

  /** The connection after its first queued request has been written out. */
  function Sent(d: Conn): Conn
    requires d.sendq != []
  {
    d.(sendq := d.sendq[1..], recvq := d.recvq + [d.sendq[0]])
  }

  /** do_send finished a request: it moves from the send to the receive queue. */
  lemma SentStep(slots: seq<Slot>, conns: seq<Conn>, j: nat)
    requires Wired(slots, conns, None) && j < |conns|
    requires conns[j].state == Open && conns[j].sendq != []
    ensures Wired(slots, conns[j := Sent(conns[j])], None)
    ensures Held(Queues(conns[j := Sent(conns[j])])) == Held(Queues(conns))
  {
    var d, i := Sent(conns[j]), conns[j].slot;
    assert d.Queue() == conns[j].Queue();
    QueuesUpdate(conns, j, d, 0);
    assert ConnWired(slots, conns[j], j, None);
    assert SlotWired(slots[i], i, conns, None);
    assert slots[i := slots[i]] == slots;
    Rewire(slots, conns, i, slots[i], j, d);
  }

  /** An open connection belongs to a slot that sent it calls from the head of its ring. */
  lemma ReplyMatchesRing(slots: seq<Slot>, conns: seq<Conn>, j: nat, maxPiped: nat)
    requires Wired(slots, conns, None) && j < |conns|
    requires conns[j].state == Open && conns[j].recvq != []
    requires forall i :: 0 <= i < |slots| ==> SlotOk(slots[i], maxPiped)
    ensures conns[j].slot < |slots|
    ensures var s := slots[conns[j].slot];
            && s.conn == Some(j) && s.isConnected && SlotOk(s, maxPiped)
            && s.numPending > 0 && s.numSent > 0
            && s.call[s.rd] == Some(conns[j].recvq[0])
            && Pending(s)[0] == conns[j].recvq[0]
  {
    var i := conns[j].slot;
    assert ConnWired(slots, conns[j], j, None);
    assert SlotWired(slots[i], i, conns, None);
    assert conns[j].Queue()[0] == conns[j].recvq[0];
    AnsweredRemovesFirst(slots[i], maxPiped);
  }

  /** The connection after recv_done took the head of its receive queue. */
  function Received(d: Conn): Conn
    requires d.recvq != []
  {
    d.(recvq := d.recvq[1..])
  }

  /** recv_done and call_done remove the same call, keeping slot and connection wired. */
  lemma ReplyStep(slots: seq<Slot>, conns: seq<Conn>, i: nat, j: nat, maxPiped: nat)
    requires Wired(slots, conns, None) && j < |conns|
    requires conns[j].state == Open && conns[j].recvq != []
    requires i == conns[j].slot < |slots| && slots[i].conn == Some(j) && SlotOk(slots[i], maxPiped)
    requires slots[i].numPending > 0 && slots[i].numSent > 0 && Pending(slots[i])[0] == conns[j].recvq[0]
    ensures SlotOk(Answered(slots[i]), maxPiped)
    ensures Pending(Answered(slots[i])) == Pending(slots[i])[1..]
    ensures Wired(slots[i := Answered(slots[i])], conns[j := Received(conns[j])], None)
    ensures Waiting(slots[i := Answered(slots[i])]) + multiset{conns[j].recvq[0]} == Waiting(slots)
    ensures Held(Queues(conns[j := Received(conns[j])])) + multiset{conns[j].recvq[0]} == Held(Queues(conns))
  {
    var s, d, c := Answered(slots[i]), Received(conns[j]), conns[j].recvq[0];
    AnsweredRemovesFirst(slots[i], maxPiped);
    ReplyWired(slots, conns, i, j, s, d);
    ReplyLedger(slots, conns, i, j, s, d, c);
  }

  lemma ReplyLedger(slots: seq<Slot>, conns: seq<Conn>, i: nat, j: nat, s: Slot, d: Conn, c: CallId)
    requires i < |slots| && j < |conns| && conns[j].recvq != [] && conns[j].recvq[0] == c && d == Received(conns[j])
    requires Pending(slots[i]) != [] && Pending(slots[i])[0] == c && Pending(s) == Pending(slots[i])[1..]
    ensures Waiting(slots[i := s]) + multiset{c} == Waiting(slots)
    ensures Held(Queues(conns[j := d])) + multiset{c} == Held(Queues(conns))
  {
    assert [c] + d.Queue() == conns[j].Queue();
    assert [c] + Pending(s) == Pending(slots[i]);
    WaitingUpdate(slots, i, s, c);
    QueuesUpdate(conns, j, d, c);
  }

  lemma ReplyWired(slots: seq<Slot>, conns: seq<Conn>, i: nat, j: nat, s: Slot, d: Conn)
    requires Wired(slots, conns, None) && j < |conns| && i < |slots|
    requires conns[j].recvq != [] && conns[j].slot == i && slots[i].conn == Some(j)
    requires slots[i].rd < |slots[i].call| && slots[i].numPending > 0 && slots[i].numSent > 0
    requires s == Answered(slots[i]) && Pending(s) == Pending(slots[i])[1..] && d == Received(conns[j])
    ensures Wired(slots[i := s], conns[j := d], None)
  {
    var q, p, n := conns[j].Queue(), Pending(slots[i]), slots[i].numSent;
    assert SlotWired(slots[i], i, conns, None);
    assert d.Queue() == q[1..];
    assert p[..n][1..] == p[1..][..n - 1];
    Rewire(slots, conns, i, s, j, d);
  }

  /** The socket became writable: the slot may start sending. */
  lemma ConnectStep(slots: seq<Slot>, conns: seq<Conn>, i: nat, j: nat, maxPiped: nat)
    requires Wired(slots, conns, None) && j < |conns| && conns[j].state == Connecting
    requires i == conns[j].slot < |slots| && slots[i].conn == Some(j) && SlotOk(slots[i], maxPiped)
    ensures var s, d := slots[i].(isConnected := true), conns[j].(state := Open);
            && Pending(s) == Pending(slots[i])
            && Wired(slots[i := s], conns[j := d], None)
            && Waiting(slots[i := s]) == Waiting(slots)
            && Held(Queues(conns[j := d])) == Held(Queues(conns))
  {
    var s, d := slots[i].(isConnected := true), conns[j].(state := Open);
    assert SlotWired(slots[i], i, conns, None);
    SameRing(slots[i], s);
    WaitingUpdate(slots, i, s, 0);
    QueuesUpdate(conns, j, d, 0);
    Rewire(slots, conns, i, s, j, d);
  }

  /** The slot after create_conn: every pending call counts as unsent again. */
  function Reconnected(s: Slot, j: ConnId): Slot {
    s.(conn := Some(j), isConnected := false, isSuccessful := false, numSent := 0)
  }

  /** create_conn for slot i; the connection it had, if any, is left dying. */
  lemma CreateStep(slots: seq<Slot>, conns: seq<Conn>, i: nat)
    requires Wired(slots, conns, None) && i < |slots|
    ensures var s, d := Reconnected(slots[i], |conns|), Conn(Connecting, i, [], []);
            && Pending(s) == Pending(slots[i])
            && Wired(slots[i := s], conns + [d], slots[i].conn)
            && Waiting(slots[i := s]) == Waiting(slots)
            && Held(Queues(conns + [d])) == Held(Queues(conns))
  {
    var s, d := Reconnected(slots[i], |conns|), Conn(Connecting, i, [], []);
    SameRing(slots[i], s);
    WaitingUpdate(slots, i, s, 0);
    HeldAppend(Queues(conns), d.Queue());
    assert Queues(conns + [d]) == Queues(conns) + [d.Queue()];
    CreateWired(slots, conns, i, s, d);
  }

  lemma CreateWired(slots: seq<Slot>, conns: seq<Conn>, i: nat, s: Slot, d: Conn)
    requires Wired(slots, conns, None) && i < |slots|
    requires s == Reconnected(slots[i], |conns|) && d == Conn(Connecting, i, [], [])
    ensures Wired(slots[i := s], conns + [d], slots[i].conn)
  {
    hide Pending;
    var slots', conns', dying := slots[i := s], conns + [d], slots[i].conn;
    if dying.Some? {
      assert SlotWired(slots[i], i, conns, None);
    }
    forall k | 0 <= k < |slots'| && slots'[k].conn.Some? ensures SlotWired(slots'[k], k, conns', dying) {
      if k != i {
        assert SlotWired(slots[k], k, conns, None);
      }
    }
    forall k | 0 <= k < |conns'| ensures ConnWired(slots', conns'[k], k, dying) {
      if k < |conns| {
        assert ConnWired(slots, conns[k], k, None);
      }
    }
  }

  /** core_close of a dying connection. */
  lemma CloseDyingStep(slots: seq<Slot>, conns: seq<Conn>, j: nat)
    requires Wired(slots, conns, Some(j)) && j < |conns|
    ensures Wired(slots, conns[j := conns[j].Closed()], None)
    ensures Held(Queues(conns[j := conns[j].Closed()])) + multiset(conns[j].Queue()) == Held(Queues(conns))
  {
    var conns' := conns[j := conns[j].Closed()];
    QueuesUpdate(conns, j, conns[j].Closed(), 0);
    forall k | 0 <= k < |slots| && slots[k].conn.Some? ensures SlotWired(slots[k], k, conns', None) {
      assert SlotWired(slots[k], k, conns, Some(j));
    }
    forall k | 0 <= k < |conns'| ensures ConnWired(slots, conns'[k], k, None) {
      assert ConnWired(slots, conns[k], k, Some(j));
    }
  }

  /** core_close of the connection of slot i, which then has none (s replaces the slot). */
  lemma CloseStep(slots: seq<Slot>, conns: seq<Conn>, i: nat, j: nat, s: Slot)
    requires Wired(slots, conns, None) && i < |slots| && slots[i].conn == Some(j)
    requires s.conn.None?
    ensures j < |conns|
    ensures Wired(slots[i := s], conns[j := conns[j].Closed()], None)
    ensures Held(Queues(conns[j := conns[j].Closed()])) + multiset(conns[j].Queue()) == Held(Queues(conns))
  {
    assert SlotWired(slots[i], i, conns, None);
    QueuesUpdate(conns, j, conns[j].Closed(), 0);
    Rewire(slots, conns, i, s, j, conns[j].Closed());
  }
}
