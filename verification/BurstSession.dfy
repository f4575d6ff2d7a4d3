/**
 A session that replays a template of bursts over pipelined connections:
 the burst scheduler (gen/videosesslog.c), the call rings (gen/session.c), the
 connection queues (core.c) and the reference counts (object.c) as one object
 whose methods nest exactly as the event handlers do.
 */
module BurstSession {
  import opened Wrappers
  import opened CallRing
  import opened RefLedger
  import opened SessionWiring
  import opened SessionWorld
  import opened BurstHistory

  const MAX_CONN := 4

  class Session {
    const bursts: seq<seq<Req>>
    const maxConns: nat
    const maxPiped: nat
    const persistent: bool          // HTTP/1.1 or later
    const totalNumReqs: nat
    const retryOnFailure: bool      // reconnect even if there was no reply on the connection

    // object.c: the reference count of call c is refs[c]
    var nextId: CallId
    var refs: multiset<CallId>
    // core.c
    var conns: seq<Conn>
    // gen/session.c
    var slots: seq<Slot>
    // sess.c
    var failed: bool
    var ended: bool
    // gen/videosesslog.c
    var numCallsInThisBurst: nat
    var numCallsTarget: nat
    var numCallsDestroyed: nat
    var currentBurst: nat           // index into bursts; |bursts| stands for NULL
    var currentReq: nat             // index into the current burst
    var timer: bool                 // is a think time pending?

    // history
    ghost var requested: seq<Req>                  // what call c was asked to fetch
    ghost var log: seq<Moment>
    ghost var destroyed: seq<CallId>
    ghost var issuedTo: seq<seq<CallId>>   // per slot
    ghost var completed: seq<seq<CallId>>  // per slot

    /** The template and the command-line limits are as the configuration promises. */
    ghost predicate Config() {
      && 1 <= maxConns <= MAX_CONN
      && 1 <= maxPiped <= MAX_PIPED
      && bursts != []
      && (forall b :: 0 <= b < |bursts| ==> bursts[b] != [])
      && totalNumReqs == |Flatten(bursts)|
    }

    ghost function Snapshot(): World
      reads this
    {
      World(slots, conns, refs, issuedTo, completed)
    }

    /** Rings, queues and reference counts agree; extra are references on the stack. */
    ghost predicate Structure(extra: multiset<CallId>)
      reads this
    {
      && !ended
      && Config()
      && |slots| == |issuedTo| == |completed| == maxConns
      && Consistent(Snapshot(), maxPiped, extra)
      && RefsOk()
    }

    ghost predicate RefsOk()
      reads this
    {
      && (forall c :: c in refs ==> c < nextId)
      && Account(destroyed, refs, nextId)
      && nextId == |requested|
      && Chronicle(bursts, log, requested, destroyed, completed)
    }

    /** The burst counters; gone calls are destroyed but not yet counted. */
    ghost predicate Sched(gone: nat)
      reads this
    {
      && currentBurst < |bursts|
      && numCallsInThisBurst <= |bursts[currentBurst]|
      && currentReq == numCallsInThisBurst
      && requested == Flatten(bursts[..currentBurst]) + bursts[currentBurst][..numCallsInThisBurst]
      && nextId == |requested|
      && numCallsTarget == Before(bursts, currentBurst + 1)
      && numCallsDestroyed + gone + Outstanding(slots) == nextId
      && numCallsDestroyed >= Before(bursts, currentBurst)
      && (numCallsInThisBurst > 1 ==> numCallsDestroyed > Before(bursts, currentBurst))
      && EarlierDestroyed(bursts, currentBurst, destroyed)
      && (numCallsInThisBurst > 1 ==> Before(bursts, currentBurst) in destroyed)
      && Handed(issuedTo, nextId)
    }

    /**
     A burst that is under way but not issued in full keeps as many calls outstanding as there can be;
     gone calls have just left their rings.
     */
    ghost predicate Filled(gone: nat)
      reads this
    {
      currentBurst < |bursts| && 1 < numCallsInThisBurst < |bursts[currentBurst]| ==>
        Outstanding(slots) + gone == maxConns * maxPiped
    }

    /** Pipelined HTTP/1.0, which closes a connection after its first reply. */
    ghost predicate Pipelined10() { !persistent && maxPiped >= 2 }

    ghost predicate Jammed()
      reads this
    {
      Pipelined10() && currentBurst < |bursts| ==> Jam(bursts, currentBurst, numCallsInThisBurst, slots)
    }

    /** A connected slot has sent all it has. */
    ghost predicate AllSent()
      reads this
    {
      forall i :: 0 <= i < |slots| && slots[i].conn.Some? && slots[i].isConnected ==>
        slots[i].numSent == slots[i].numPending
    }

    /** Whether a session can lose the connection of a call that is still pending, for good. */
    ghost predicate Safe() { !Pipelined10() || SmallBursts(bursts) }

    /** No pending call is without a connection. */
    ghost predicate Served()
      reads this
    {
      Safe() ==>
        forall i :: 0 <= i < |slots| && slots[i].numPending > 0 ==> slots[i].conn.Some?
    }

    /** Calls are pending on slot i but no connection will ever carry them. */
    ghost predicate Stranded(i: nat)
      reads this
    {
      i < |slots| && slots[i].numPending > 0 && slots[i].conn.None?
    }

    /** What is left of a session that failed or finished. */
    ghost predicate Over(extra: multiset<CallId>)
      reads this
    {
      && refs == extra
      && RefsOk()
      && (forall j :: 0 <= j < |conns| ==> conns[j].state == Closing && conns[j].Queue() == [])
      && !timer
    }

    /** What holds whenever no handler is running. */
    ghost predicate Valid()
      reads this
    {
      if ended then
        && Over(multiset{})
        && |completed| == |issuedTo| == maxConns
        && (forall i :: 0 <= i < |completed| ==> completed[i] <= issuedTo[i])
        && requested <= Flatten(bursts)
        && Handed(issuedTo, nextId)
        && (!failed ==>
              && requested == Flatten(bursts) && completed == issuedTo
              && OnlyReplied(destroyed, completed) && Safe())
      else
        && !failed
        && Structure(multiset{})
        && Sched(0)
        && AllSent()
        && Served()
        && Filled(0)
        && Jammed()
        && |destroyed| == numCallsDestroyed
        && OnlyReplied(destroyed, completed)
        && (timer <==> Outstanding(slots) == 0)
        && (timer <==> numCallsInThisBurst == 0)
    }

    /** object_dec_ref: the assertion of the source is the precondition. */
    method ObjectDecRef(c: CallId) returns (zero: bool)
      requires c in refs && RefsOk()
      modifies `refs, `destroyed, `log
      ensures refs == old(refs) - multiset{c}
      ensures zero <==> c !in refs
      ensures destroyed == if zero then old(destroyed) + [c] else old(destroyed)
      ensures log == if zero then old(log) + [Destroyed(c)] else old(log)
      ensures RefsOk()
    {
      hide Chronicle;
      refs := refs - multiset{c};
      zero := c !in refs;
      if zero {
        CallDestroyedLogged(bursts, log, requested, destroyed, completed, c);
        log := log + [Destroyed(c)];
        destroyed := destroyed + [c];
      }
    }

    /** call_dec_ref for every call of a queue, all of which are still held elsewhere. */
    method DropQueue(calls: seq<CallId>)
      requires Twice(calls, refs) && RefsOk()
      modifies `refs, `destroyed, `log
      ensures refs == Without(old(refs), calls)
      ensures destroyed == old(destroyed) && RefsOk()
      ensures log == old(log)
    {
      hide Account, Chronicle, Twice, Without;
      var k := 0;
      WithoutEnds(refs, calls);
      while k < |calls|
        invariant log == old(log)
        invariant 0 <= k <= |calls|
        invariant refs == Without(old(refs), calls[..k])
        invariant destroyed == old(destroyed) && RefsOk()
      {
        TakeAnother(old(refs), calls, k);
        var zero := ObjectDecRef(calls[k]);
        k := k + 1;
      }
      assert calls[..k] == calls;
    }

    /** core_close of a connection whose calls are all still held elsewhere. */
    method CoreClose(j: ConnId)
      requires j < |conns| && conns[j].state != Closing
      requires Twice(conns[j].Queue(), refs) && RefsOk()
      modifies `refs, `conns, `destroyed, `log
      ensures conns == old(conns)[j := old(conns[j]).Closed()]
      ensures refs == Without(old(refs), old(conns[j].Queue()))
      ensures destroyed == old(destroyed) && RefsOk()
      ensures log == old(log)
    {
      hide Account, Chronicle, Twice, Without;
      QueueParts(refs, conns[j].recvq, conns[j].sendq);
      conns := conns[j := conns[j].(state := Closing)];
      DropQueue(conns[j].sendq);
      conns := conns[j := conns[j].(sendq := [])];
      DropQueue(conns[j].recvq);
      conns := conns[j := conns[j].(recvq := [])];
    }

    /** create_conn, on the asynchronous path of core_connect. */
    method CreateConn(i: nat)
      requires i < |slots|
      modifies `slots, `conns
      ensures Snapshot() == Create(old(Snapshot()), i)
    {
      var j := |conns|;
      conns := conns + [Conn(Connecting, i, [], [])];
      slots := slots[i := slots[i].(conn := Some(j), isConnected := false, isSuccessful := false, numSent := 0)];
    }

    /** core_send: the call joins the connection's send queue with a reference of its own. */
    method CoreSend(j: ConnId, c: CallId)
      requires j < |conns|
      modifies `conns, `refs
      ensures conns == old(conns)[j := old(conns[j]).(sendq := old(conns[j]).sendq + [c])]
      ensures refs == old(refs) + multiset{c}
    {
      refs := refs + multiset{c};
      conns := conns[j := conns[j].(sendq := conns[j].sendq + [c])];
    }

    /** The connections are the same, and each is connecting, open or closed as it was. */
    ghost predicate SameStates(before: seq<Conn>)
      reads this
    {
      |conns| == |before| && forall j :: 0 <= j < |conns| ==> conns[j].state == before[j].state
    }

    /** One round of the loop of send_calls. */
    method SendNext(i: nat, rd: nat, ghost extra: multiset<CallId>)
      requires Structure(extra) && i < |slots| && slots[i].conn.Some? && slots[i].isConnected
      requires slots[i].numSent < slots[i].numPending
      requires rd == (slots[i].rd + slots[i].numSent) % MAX_PIPED
      modifies `slots, `conns, `refs
      ensures Structure(extra)
      ensures slots == old(slots)[i := old(slots[i]).(numSent := old(slots[i]).numSent + 1)]
      ensures SameStates(old(conns))
      ensures Outstanding(slots) == old(Outstanding(slots))
      ensures Waiting(slots) == old(Waiting(slots))
    {
      hide Consistent, Outstanding, Waiting, Account, Chronicle, Pending, Config;
      ghost var w := Snapshot();
      RingShape(w, maxPiped, extra, i);
      var c, j := slots[i].call[rd].value, slots[i].conn.value;
      SendOk(w, maxPiped, extra, i, j, c);
      OutstandingUpdate(slots, i, slots[i].(numSent := slots[i].numSent + 1));
      AccountMore(destroyed, refs, nextId, c);
      CoreSend(j, c);
      slots := slots[i := slots[i].(numSent := slots[i].numSent + 1)];
      assert Snapshot() == Send(w, i, j, c);
    }

    /** send_calls: hand every pending call that was not sent yet to the connection. */
    method SendCalls(i: nat, ghost extra: multiset<CallId>)
      requires Structure(extra) && i < |slots|
      modifies `slots, `conns, `refs
      ensures Structure(extra)
      ensures slots[i].conn.Some?
      ensures slots[i].isConnected ==> slots[i].numSent == slots[i].numPending
      ensures slots[i].numPending == old(slots[i].numPending)
      ensures Pending(slots[i]) == old(Pending(slots[i]))
      ensures old(slots[i].conn).Some? ==> slots[i].(numSent := 0) == old(slots[i].(numSent := 0))
      ensures old(slots[i].conn).Some? ==> SameStates(old(conns))
      ensures forall k :: 0 <= k < |slots| && k != i ==> slots[k] == old(slots[k])
      ensures Outstanding(slots) == old(Outstanding(slots))
      ensures Waiting(slots) == old(Waiting(slots))
    {
      hide Consistent, Outstanding, Waiting, Account, Chronicle, Pending, Config;
      if slots[i].conn.None? {
        CreateOk(Snapshot(), maxPiped, extra, i);
        OutstandingUpdate(slots, i, Reconnected(slots[i], |conns|));
        SameRing(slots[i], Reconnected(slots[i], |conns|));
        CreateConn(i);
        return;
      }
      if !slots[i].isConnected {
        return;
      }
      RingShape(Snapshot(), maxPiped, extra, i);
      var rd := (slots[i].rd + slots[i].numSent) % MAX_PIPED;
      var n := slots[i].numSent;
      while n < slots[i].numPending
        invariant Structure(extra)
        invariant i < |slots| && slots[i].conn.Some? && slots[i].isConnected
        invariant n == slots[i].numSent <= slots[i].numPending
        invariant slots == old(slots)[i := old(slots[i]).(numSent := n)] && SameStates(old(conns))
        invariant rd == (slots[i].rd + n) % MAX_PIPED
        invariant Outstanding(slots) == old(Outstanding(slots))
        invariant Waiting(slots) == old(Waiting(slots))
        decreases slots[i].numPending - n
      {
        SendNext(i, rd, extra);
        NextIndex(slots[i].rd, n);
        n := n + 1;
        rd := (rd + 1) % MAX_PIPED;
      }
      SameRing(old(slots[i]), slots[i]);
    }

    /** session_issue_call: the exit for too many pending calls is never reached. */
    method SessionIssueCall(call: CallId, ghost extra: multiset<CallId>) returns (ghost at: nat)
      requires Structure(extra) && AllSent() && Served()
      requires call in refs && call in extra && Waiting(slots)[call] == 0
      requires Outstanding(slots) < maxConns * maxPiped
      modifies `slots, `conns, `refs, `issuedTo
      ensures Structure(extra) && AllSent() && Served()
      ensures Outstanding(slots) == old(Outstanding(slots)) + 1
      ensures refs[call] > 1
      // the first slot with room takes the call, behind all it got before
      ensures at < |slots| == |old(slots)| && old(slots[at].numPending) < maxPiped
      ensures forall k :: 0 <= k < at ==> old(slots[k].numPending) >= maxPiped
      ensures |issuedTo| == |slots| && issuedTo == old(issuedTo)[at := old(issuedTo[at]) + [call]]
      ensures slots[at].numPending == old(slots[at].numPending) + 1 && slots[at].conn.Some?
      ensures forall k :: 0 <= k < |slots| && k != at ==> slots[k] == old(slots[k])
    {
      hide Consistent, Outstanding, Waiting, Account, Chronicle, Pending, Config;
      at := 0;
      var i := 0;
      while i < maxConns
        invariant 0 <= i <= maxConns
        invariant forall k :: 0 <= k < i ==> slots[k].numPending >= maxPiped
        invariant Snapshot() == old(Snapshot())
      {
        if slots[i].numPending < maxPiped {
          PushCall(i, call, extra);
          SendCalls(i, extra);
          StillHeld(Snapshot(), maxPiped, extra, call);
          return i;
        }
        i := i + 1;
      }
      FullSlots(slots, maxPiped);
      assert false;
    }

    /** session_issue_call for a slot with room: the call joins its ring with a reference of its own. */
    method PushCall(i: nat, call: CallId, ghost extra: multiset<CallId>)
      requires Structure(extra) && i < |slots| && slots[i].numPending < maxPiped
      requires call in refs && Waiting(slots)[call] == 0
      modifies `slots, `refs, `issuedTo
      ensures Structure(extra) && |slots| == |old(slots)| == |issuedTo| == |old(issuedTo)|
      ensures slots[i].numPending == old(slots[i].numPending) + 1
      ensures slots[i].(numPending := 0, call := [], wr := 0) == old(slots[i].(numPending := 0, call := [], wr := 0))
      ensures forall k :: 0 <= k < |slots| && k != i ==> slots[k] == old(slots[k])
      ensures issuedTo == old(issuedTo)[i := old(issuedTo[i]) + [call]]
      ensures Outstanding(slots) == old(Outstanding(slots)) + 1 && Waiting(slots)[call] == 1
    {
      hide Consistent, Outstanding, Waiting, Account, Chronicle, Pending, Config;
      ghost var w := Snapshot();
      RingShape(w, maxPiped, extra, i);
      IssueOk(w, maxPiped, extra, i, call);
      AccountMore(destroyed, refs, nextId, call);
      var ci := slots[i];
      slots := slots[i := ci.(numPending := ci.numPending + 1, call := ci.call[ci.wr := Some(call)],
                              wr := (ci.wr + 1) % MAX_PIPED)];
      refs := refs + multiset{call};
      issuedTo := issuedTo[i := issuedTo[i] + [call]];
      assert Snapshot() == Issue(w, i, call);
    }

    /** session_current_qlen. */
    method SessionCurrentQlen() returns (n: nat)
      requires |slots| == maxConns
      ensures n == Outstanding(slots)
    {
      n := 0;
      var i := 0;
      while i < maxConns
        invariant 0 <= i <= maxConns && n == Outstanding(slots[..i])
      {
        assert slots[..i + 1][..i] == slots[..i];
        n := n + slots[i].numPending;
        i := i + 1;
      }
      assert slots[..i] == slots;
    }

    /**
     The counters while issue_calls is under way, created calls being created but not issued yet;
     the burst's own count runs ahead.
     */
    ghost predicate Issuing(created: nat)
      reads this
    {
      && currentBurst < |bursts|
      && currentReq <= |bursts[currentBurst]|
      && requested == Flatten(bursts[..currentBurst]) + bursts[currentBurst][..currentReq]
      && nextId == |requested|
      && numCallsTarget == Before(bursts, currentBurst + 1)
      && numCallsDestroyed + created + Outstanding(slots) == nextId
      && numCallsDestroyed >= Before(bursts, currentBurst)
      && EarlierDestroyed(bursts, currentBurst, destroyed)
      && Handed(issuedTo, nextId - created)
    }

    /** call_new, filled in from the current request. */
    method CallNew() returns (call: CallId)
      requires Structure(multiset{}) && Issuing(0)
      requires currentReq < |bursts[currentBurst]|
      requires currentReq > 0 ==> Before(bursts, currentBurst) in destroyed
      modifies `nextId, `refs, `requested, `log, `currentReq
      ensures call == old(nextId) && currentReq == old(currentReq) + 1
      ensures Structure(multiset{call}) && call in refs && Waiting(slots)[call] == 0
      ensures log == old(log) + [Issued(call, bursts[currentBurst][old(currentReq)])]
      ensures Issuing(1)
    {
      hide Consistent, Outstanding, Waiting, Pending, Config, Account, Chronicle, Handed, EarlierDestroyed, Flatten;
      call := nextId;
      CreateCallOk(Snapshot(), maxPiped, multiset{}, call);
      assert multiset{} + multiset{call} == multiset{call};
      AccountNew(destroyed, refs, nextId);
      nextId := nextId + 1;
      refs := refs + multiset{call};
      var req := bursts[currentBurst][currentReq];
      CallIssuedLogged(bursts, log, requested, destroyed, completed, currentBurst, currentReq, req);
      requested := requested + [req];
      log := log + [Issued(call, req)];
      currentReq := currentReq + 1;
    }

    /** What a slot holds after it was offered a call. */
    ghost function OneMore(pending: nat): nat { if pending < maxPiped then pending + 1 else pending }

    /** One round of the loop of issue_calls. */
    method IssueOne()
      requires Structure(multiset{}) && AllSent() && Served() && Issuing(0)
      requires currentReq < |bursts[currentBurst]|
      requires currentReq > 0 ==> Before(bursts, currentBurst) in destroyed
      requires Outstanding(slots) < maxConns * maxPiped
      modifies `nextId, `refs, `slots, `conns, `issuedTo, `destroyed, `log, `requested, `currentReq
      ensures Structure(multiset{}) && AllSent() && Served() && Issuing(0)
      ensures currentReq == old(currentReq) + 1
      ensures Outstanding(slots) == old(Outstanding(slots)) + 1
      ensures destroyed == old(destroyed)
      ensures |slots| == |old(slots)| > 0 && slots[0].numPending == OneMore(old(slots[0].numPending))
      ensures old(log) <= log
    {
      hide Consistent, Outstanding, Waiting, Account, Pending, Config, Flatten, Chronicle, Handed, EarlierDestroyed;
      var call := CallNew();
      HandOut(call);
    }

    /** session_issue_call, and call_dec_ref for the creator's reference. */
    method HandOut(call: CallId)
      requires Structure(multiset{call}) && AllSent() && Served() && Handed(issuedTo, call)
      requires call in refs && Waiting(slots)[call] == 0 && Outstanding(slots) < maxConns * maxPiped
      modifies `refs, `slots, `conns, `issuedTo, `destroyed, `log
      ensures Structure(multiset{}) && AllSent() && Served() && Handed(issuedTo, call + 1)
      ensures Outstanding(slots) == old(Outstanding(slots)) + 1
      ensures destroyed == old(destroyed)
      ensures |slots| == |old(slots)| > 0 && slots[0].numPending == OneMore(old(slots[0].numPending))
      ensures log == old(log)
    {
      hide Consistent, Outstanding, Waiting, Account, Chronicle, Pending, Config, Handed;
      ghost var before := issuedTo;
      ghost var at := SessionIssueCall(call, multiset{call});
      HandedStep(before, at, call);
      ReleaseOk(Snapshot(), maxPiped, multiset{call}, call);
      assert multiset{call} - multiset{call} == multiset{};
      var zero := ObjectDecRef(call);
    }

    /** How many calls issue_calls creates: the first one of a burst alone, later all that are left and fit. */
    ghost function Batch(issued: nat, length: nat, outstanding: nat): int {
      var wanted := if issued > 0 then length - issued else 1;
      var room := maxConns * maxPiped - outstanding;
      if room < wanted then room else wanted
    }

    /** The first part of issue_calls. */
    method CallsToCreate() returns (toCreate: int)
      requires |slots| == maxConns && currentBurst < |bursts| && numCallsInThisBurst <= |bursts[currentBurst]|
      ensures toCreate == Batch(numCallsInThisBurst, |bursts[currentBurst]|, Outstanding(slots))
    {
      hide Outstanding;
      toCreate := 1;
      if numCallsInThisBurst > 0 {
        toCreate := |bursts[currentBurst]| - numCallsInThisBurst;
      }
      var qlen := SessionCurrentQlen();
      var n := maxConns * maxPiped - qlen;
      if n < toCreate {
        toCreate := n;
      }
    }

    /** issue_calls: the first call of a burst, or as many of the rest as fit. */
    method IssueCalls()
      requires Structure(multiset{}) && Sched(0) && AllSent() && Served()
      requires numCallsInThisBurst < |bursts[currentBurst]|
      requires numCallsInThisBurst > 0 ==>
               Before(bursts, currentBurst) in destroyed && numCallsDestroyed > Before(bursts, currentBurst)
      requires Outstanding(slots) < maxConns * maxPiped
      modifies `nextId, `refs, `slots, `conns, `issuedTo, `destroyed, `log, `requested, `currentReq,
               `numCallsInThisBurst
      ensures Structure(multiset{}) && Sched(0) && AllSent() && Served()
      ensures Outstanding(slots) > 0 && numCallsInThisBurst > 0
      ensures destroyed == old(destroyed)
      ensures numCallsInThisBurst == old(numCallsInThisBurst) +
                Batch(old(numCallsInThisBurst), |bursts[currentBurst]|, old(Outstanding(slots)))
      ensures Outstanding(slots) == old(Outstanding(slots)) + (numCallsInThisBurst - old(numCallsInThisBurst))
      ensures old(Outstanding(slots)) == 0 && numCallsInThisBurst - old(numCallsInThisBurst) >= 2 && maxPiped >= 2 ==>
                |slots| > 0 && slots[0].numPending >= 2
      ensures old(log) <= log
    {
      hide Consistent, Outstanding, Waiting, Account, Pending, Flatten, Chronicle, Handed, EarlierDestroyed;
      NoneOutstanding(slots);
      var toCreate := CallsToCreate();
      ghost var qlen := Outstanding(slots);
      numCallsInThisBurst := numCallsInThisBurst + toCreate;
      var i := 0;
      while i < toCreate
        invariant old(log) <= log
        invariant 0 <= i <= toCreate
        invariant Structure(multiset{}) && AllSent() && Served() && Issuing(0)
        invariant currentReq == old(currentReq) + i
        invariant Outstanding(slots) == qlen + i
        invariant numCallsInThisBurst == old(numCallsInThisBurst) + toCreate
        invariant destroyed == old(destroyed)
        invariant |slots| > 0 && (qlen == 0 ==> slots[0].numPending == if i < maxPiped then i else maxPiped)
      {
        IssueOne();
        i := i + 1;
      }
    }

    /** prepare_for_next_burst: arm the think time in front of the next burst. */
    method PrepareForNextBurst()
      requires Structure(multiset{}) && Sched(0) && AllSent() && Served() && Jammed() && !timer && Counted()
      requires Outstanding(slots) == 0 && numCallsDestroyed >= numCallsTarget && numCallsDestroyed < totalNumReqs
      modifies `currentBurst, `currentReq, `numCallsInThisBurst, `numCallsTarget, `timer
      ensures Valid() && !ended
      ensures timer && numCallsInThisBurst == 0 && currentBurst == old(currentBurst) + 1
    {
      hide Consistent, Outstanding, Account, Chronicle, Flatten, Handed, EarlierDestroyed, OnlyReplied;
      IdleDestroyed(Snapshot(), maxPiped, destroyed, nextId);
      BurstPassed(bursts, currentBurst, requested, numCallsInThisBurst);
      AllEarlier(bursts, currentBurst + 1, destroyed, nextId);
      hide Before;
      if Pipelined10() {
        JamPassed(bursts, currentBurst, numCallsInThisBurst, slots);
      }
      if currentBurst < |bursts| {
        currentBurst := currentBurst + 1;
        if currentBurst < |bursts| {
          currentReq := 0;
          numCallsInThisBurst := 0;
          numCallsTarget := numCallsTarget + |bursts[currentBurst]|;
          timer := true;
        }
      }
    }

    /** The loop of sess_destroyed over the ring of a slot that has already been taken down. */
    method DropRing(ci: Slot, ghost p: seq<CallId>, ghost w: World, ghost extra: multiset<CallId>)
      requires |p| == ci.numPending && |ci.call| == MAX_PIPED && ci.rd < MAX_PIPED
      requires forall k :: 0 <= k < |p| ==> ci.call[(ci.rd + k) % MAX_PIPED] == Some(p[k])
      requires w.refs == refs && Consistent(w, maxPiped, extra + multiset(p)) && RefsOk()
      modifies `refs, `destroyed, `log
      ensures Consistent(w.(refs := refs), maxPiped, extra) && RefsOk()
      ensures p == [] ==> destroyed == old(destroyed)
      ensures old(log) <= log
    {
      hide Consistent, Account, Chronicle;
      var rd, j := ci.rd, 0;
      assert p[0..] == p && w.(refs := refs) == w;
      while j < ci.numPending
        invariant old(log) <= log
        invariant 0 <= j <= ci.numPending
        invariant rd == (ci.rd + j) % MAX_PIPED
        invariant Consistent(w.(refs := refs), maxPiped, extra + multiset(p[j..])) && RefsOk()
        invariant p == [] ==> destroyed == old(destroyed)
      {
        assert ci.call[(ci.rd + j) % MAX_PIPED] == Some(p[j]);
        var c := ci.call[rd].value;
        DropHead(w.(refs := refs), maxPiped, extra, p, j);
        var zero := ObjectDecRef(c);
        NextIndex(ci.rd, j);
        rd := (rd + 1) % MAX_PIPED;
        j := j + 1;
      }
      assert extra + multiset(p[j..]) == extra;
    }

    /** core_close of the connection of slot i, if it has one. */
    method CloseSlotConn(i: nat, ghost w: World, ghost extra: multiset<CallId>) returns (ghost v: World)
      requires i < |slots| && w.slots == slots && w.conns == conns && w.refs == refs
      requires Consistent(w, maxPiped, extra) && RefsOk()
      modifies `slots, `conns, `refs, `destroyed, `log
      ensures slots == old(slots)[i := old(slots[i]).(conn := None)]
      ensures v == w.(slots := slots, conns := conns, refs := refs)
      ensures Consistent(v, maxPiped, extra) && RefsOk()
      ensures destroyed == old(destroyed)
      ensures log == old(log)
    {
      hide Consistent, Account, Chronicle, Pending, Outstanding;
      v := w;
      var ci := slots[i];
      if ci.conn.Some? {
        var j := ci.conn.value;
        ConnOfSlot(w, maxPiped, extra, i);
        QueuedTwice(w, maxPiped, extra, j);
        CloseOk(w, maxPiped, extra, i, j);
        CoreClose(j);
        slots := slots[i := ci.(conn := None)];
        v := Drop(w, j).(slots := slots);
      }
    }

    /** One round of the loop of sess_destroyed: close the connection, drop the ring. */
    method FreeSlot(i: nat, ghost w: World, ghost extra: multiset<CallId>) returns (ghost w': World)
      requires i < |slots| && w.slots == slots && w.conns == conns && w.refs == refs
      requires Consistent(w, maxPiped, extra) && RefsOk()
      modifies `slots, `conns, `refs, `destroyed, `log
      ensures slots == old(slots)[i := EMPTY_SLOT]
      ensures w'.slots == slots && w'.conns == conns && w'.refs == refs && w'.completed == w.completed
      ensures Consistent(w', maxPiped, extra) && RefsOk()
      ensures |w.issuedTo| == |w.completed| == |w.slots| && w'.issuedTo == w.issuedTo[i := w.completed[i]]
      ensures w.completed[i] <= w.issuedTo[i]
      ensures old(slots[i].numPending) == 0 ==> w.completed[i] == w.issuedTo[i] && destroyed == old(destroyed)
      ensures old(log) <= log
    {
      hide Consistent, Account, Chronicle, Pending, Outstanding;
      ghost var v := CloseSlotConn(i, w, extra);
      ghost var p, v' := FreeRing(v, maxPiped, extra, i);
      var ci := slots[i];
      slots := slots[i := EMPTY_SLOT];
      DropRing(ci, p, v', extra);
      w' := v'.(refs := refs);
    }

    /** The handlers of EV_SESS_DESTROYED, run when the session's reference is given up. */
    method SessDestroyed(ghost extra: multiset<CallId>)
      requires Structure(extra) && (failed || Outstanding(slots) == 0)
      modifies `slots, `conns, `refs, `destroyed, `log, `timer, `ended
      ensures ended && Over(extra)
      ensures forall i :: 0 <= i < |completed| ==> completed[i] <= issuedTo[i]
      ensures old(Outstanding(slots)) == 0 ==> completed == issuedTo && destroyed == old(destroyed)
      ensures old(log) <= log
    {
      hide Consistent, Account, Chronicle, Outstanding, Config;
      NoneOutstanding(slots);
      ghost var w := Snapshot();
      var i := 0;
      while i < maxConns
        invariant old(log) <= log
        invariant 0 <= i <= maxConns == |slots| == |completed| == |issuedTo| == |w.issuedTo|
        invariant w.slots == slots && w.conns == conns && w.refs == refs && w.completed == completed
        invariant forall k :: 0 <= k < i ==> slots[k] == EMPTY_SLOT
        invariant forall k :: i <= k < |slots| ==> slots[k] == old(slots[k]) && w.issuedTo[k] == issuedTo[k]
        invariant Consistent(w, maxPiped, extra) && RefsOk()
        invariant forall k :: 0 <= k < i ==> completed[k] <= issuedTo[k]
        invariant old(Outstanding(slots)) == 0 ==>
            destroyed == old(destroyed) && forall k :: 0 <= k < i ==> completed[k] == issuedTo[k]
      {
        w := FreeSlot(i, w, extra);
        i := i + 1;
      }
      AllFreed(w, maxPiped, extra);
      timer := false;
      ended := true;
    }

    /** sess_failure. */
    method SessFailure(ghost extra: multiset<CallId>)
      requires Structure(extra) && !failed
      modifies `failed, `slots, `conns, `refs, `destroyed, `log, `timer, `ended
      ensures failed && ended && Over(extra)
      ensures forall i :: 0 <= i < |completed| ==> completed[i] <= issuedTo[i]
      ensures old(log) <= log
    {
      hide Consistent, Account, Chronicle, Outstanding, Config;
      failed := true;
      SessDestroyed(extra);
    }

    /** All requests have been issued and their calls destroyed: no burst was too large for the session. */
    lemma AllDone()
      requires Structure(multiset{}) && Sched(0) && Jammed() && numCallsDestroyed >= totalNumReqs
      ensures Outstanding(slots) == 0 && requested == Flatten(bursts) && Safe()
    {
      hide Consistent, Account, Outstanding, Chronicle, Flatten, Handed, EarlierDestroyed, Jam;
      RequestedPrefix(bursts, currentBurst, numCallsInThisBurst);
      LastBurst(bursts, currentBurst, numCallsInThisBurst);
      if Pipelined10() {
        JamPassed(bursts, currentBurst, numCallsInThisBurst, slots);
      }
    }

    /** call_destroyed for the last call of the session. */
    method Finish()
      requires Structure(multiset{}) && Sched(0) && Jammed() && !failed && numCallsDestroyed >= totalNumReqs
      requires OnlyReplied(destroyed, completed)
      modifies `slots, `conns, `refs, `destroyed, `log, `timer, `ended
      ensures Valid() && ended && destroyed == old(destroyed)
      ensures old(log) <= log
    {
      hide Consistent, Account, Outstanding, Chronicle, Flatten, Handed, EarlierDestroyed, OnlyReplied, Jam;
      AllDone();
      SessDestroyed(multiset{});
    }

    /** The session is in good standing and all its destroyed calls have been counted. */
    ghost predicate Counted()
      reads this
    {
      !failed && |destroyed| == numCallsDestroyed && OnlyReplied(destroyed, completed)
    }

    /** issue_calls for a burst that is under way. */
    method IssueMore()
      requires Structure(multiset{}) && Sched(0) && AllSent() && Served() && Jammed() && !timer && Counted()
      requires 0 < numCallsInThisBurst < |bursts[currentBurst]|
      requires numCallsDestroyed > Before(bursts, currentBurst)
      requires if numCallsInThisBurst == 1 then Outstanding(slots) == 0
               else Outstanding(slots) + 1 == maxConns * maxPiped
      modifies `nextId, `refs, `slots, `conns, `issuedTo, `destroyed, `log, `requested, `currentReq,
               `numCallsInThisBurst
      ensures Valid() && !ended && !failed && destroyed == old(destroyed)
      ensures old(log) <= log
    {
      hide Consistent, Account, Outstanding, Chronicle, Flatten, Handed, EarlierDestroyed, OnlyReplied;
      if numCallsInThisBurst == 1 {
        IdleDestroyed(Snapshot(), maxPiped, destroyed, nextId);
      }
      IssueCalls();
      if Pipelined10() && numCallsInThisBurst == |bursts[currentBurst]| >= 3 {
        if old(numCallsInThisBurst) > 1 {
          NoneOverfull(Snapshot(), maxPiped, multiset{});
          AllFull(slots, maxPiped);
        }
        assert Clogged(slots, 0);
      }
    }

    /** What holds when a call of a session in good standing has been destroyed, but not been counted. */
    ghost predicate JustDestroyed()
      reads this
    {
      && Structure(multiset{}) && Sched(1) && AllSent() && Served() && Filled(1) && Jammed() && !failed && !timer
      && numCallsInThisBurst > 0 && Outstanding(slots) < maxConns * maxPiped
      && |destroyed| == numCallsDestroyed + 1 && OnlyReplied(destroyed, completed)
    }

    /** The handler of EV_CALL_DESTROYED for a call of a session that is still in good standing. */
    method CallDestroyed()
      requires JustDestroyed()
      modifies this
      ensures Valid() && !failed
      ensures destroyed == old(destroyed) && completed == old(completed)
      ensures numCallsDestroyed == old(numCallsDestroyed) + 1
      ensures ended <==> numCallsDestroyed == totalNumReqs
      ensures old(numCallsInThisBurst == |bursts[currentBurst]| && Outstanding(slots) > 0) ==>
                !ended && !timer && slots == old(slots)
      ensures old(log) <= log
    {
      hide Consistent, Account, Outstanding, Chronicle, Flatten, Handed, EarlierDestroyed, OnlyReplied, Jam;
      RequestedPrefix(bursts, currentBurst, numCallsInThisBurst);
      FlattenStep(bursts, currentBurst);
      numCallsDestroyed := numCallsDestroyed + 1;
      if numCallsDestroyed >= totalNumReqs {
        Finish();
      } else if numCallsInThisBurst < |bursts[currentBurst]| {
        IssueMore();
      } else if numCallsDestroyed >= numCallsTarget {
        PrepareForNextBurst();
      }
    }

    /** sess_create: the first call of the first burst is issued at once. */
    constructor (bursts: seq<seq<Req>>, maxConns: nat, maxPiped: nat, persistent: bool,
                 totalNumReqs: nat, retryOnFailure: bool)
      requires 1 <= maxConns <= MAX_CONN && 1 <= maxPiped <= MAX_PIPED
      requires bursts != [] && forall b :: 0 <= b < |bursts| ==> bursts[b] != []
      requires totalNumReqs == |Flatten(bursts)|
      ensures Valid() && !ended
      ensures this.bursts == bursts && this.maxConns == maxConns && this.maxPiped == maxPiped
      ensures this.persistent == persistent && this.retryOnFailure == retryOnFailure
      ensures requested == [bursts[0][0]]
    {
      hide Consistent, Outstanding, Pending, Flatten, Chronicle, Account, Handed, EarlierDestroyed, OnlyReplied, Jam;
      this.bursts, this.maxConns, this.maxPiped, this.persistent := bursts, maxConns, maxPiped, persistent;
      this.totalNumReqs, this.retryOnFailure := totalNumReqs, retryOnFailure;
      nextId, refs, conns := 0, multiset{}, [];
      slots := seq(maxConns, _ => EMPTY_SLOT);
      failed, ended, timer := false, false, false;
      numCallsInThisBurst, numCallsDestroyed, currentBurst, currentReq := 0, 0, 0, 0;
      numCallsTarget := |bursts[0]|;
      requested, log, destroyed := [], [], [];
      issuedTo, completed := seq(maxConns, _ => []), seq(maxConns, _ => []);
      new;
      FreshWorld(Snapshot(), maxPiped);
      NothingYet(bursts, issuedTo);
      NoneOutstanding(slots);
      IssueCalls();
      JamStart(bursts, 0, numCallsInThisBurst, slots);
    }

    /** The state changes on EV_CONN_CONNECTED, before anything is sent. */
    method MarkConnected(j: ConnId) returns (i: nat)
      requires Structure(multiset{}) && j < |conns| && conns[j].state == Connecting
      modifies `conns, `slots
      ensures Structure(multiset{}) && conns == old(conns)[j := old(conns[j]).(state := Open)]
      ensures i == old(conns[j].slot) < |old(slots)| && slots[i].conn == Some(j)
      ensures slots == old(slots)[i := old(slots[i]).(isConnected := true)]
      ensures Pending(slots[i]) == old(Pending(slots[i]))
      ensures Outstanding(slots) == old(Outstanding(slots))
    {
      hide Consistent, Account, Chronicle, Outstanding, Pending, Config;
      ghost var w := Snapshot();
      QueuedTwice(w, maxPiped, multiset{}, j);
      i := conns[j].slot;
      ConnectOk(w, maxPiped, multiset{}, i, j);
      conns := conns[j := conns[j].(state := Open)];
      slots := slots[i := slots[i].(isConnected := true)];
      assert Snapshot() == Connect(w, i, j);
      OutstandingUpdate(w.slots, i, slots[i]);
      SameRing(w.slots[i], slots[i]);
    }

    /** conn_connected: all that the ring waits for is handed to the new connection. */
    method ConnectSlot(j: ConnId) returns (i: nat)
      requires Structure(multiset{}) && AllSent() && j < |conns| && conns[j].state == Connecting
      modifies `slots, `conns, `refs
      ensures Structure(multiset{}) && AllSent()
      ensures i == old(conns[j].slot) < |slots| == |old(slots)|
      ensures old(slots[i].conn) == slots[i].conn == Some(j) && slots[i].numPending == old(slots[i].numPending)
      ensures forall k :: 0 <= k < |slots| && k != i ==> slots[k] == old(slots[k])
      ensures Outstanding(slots) == old(Outstanding(slots))
      ensures |conns| == |old(conns)| && conns[j].Queue() == old(Pending(slots[i]))
      ensures forall k :: 0 <= k < |conns| ==> conns[k].state == if k == j then Open else old(conns[k].state)
    {
      hide Consistent, Account, Outstanding, Chronicle, Pending, Config;
      QueuedTwice(Snapshot(), maxPiped, multiset{}, j);
      i := MarkConnected(j);
      SendCalls(i, multiset{});
      AllQueued(Snapshot(), maxPiped, multiset{}, i);
    }

    /** core_loop saw the socket writable while connecting: EV_CONN_CONNECTED. */
    method OnConnected(j: ConnId)
      requires Valid() && !ended && j < |conns| && conns[j].state == Connecting
      modifies this
      ensures Valid() && !ended
      ensures destroyed == old(destroyed) && completed == old(completed) && requested == old(requested)
              && log == old(log)
      ensures old(conns[j].slot < |slots|)
      ensures |conns| == |old(conns)| && conns[j].Queue() == old(Pending(slots[conns[j].slot]))
      ensures forall k :: 0 <= k < |conns| ==> conns[k].state == if k == j then Open else old(conns[k].state)
    {
      hide Consistent, Account, Outstanding, Chronicle, Flatten, Pending, Handed, EarlierDestroyed, OnlyReplied, Jam;
      var i := ConnectSlot(j);
      if Pipelined10() {
        JamKept(bursts, currentBurst, numCallsInThisBurst, old(slots), slots, i);
      }
    }

    /** do_send wrote the last byte of the request at the head of the send queue. */
    method OnSent(j: ConnId)
      requires Valid() && !ended && j < |conns| && conns[j].state == Open && conns[j].sendq != []
      modifies `conns
      ensures Valid() && !ended
      ensures conns == old(conns)[j := Sent(old(conns[j]))]
    {
      hide Consistent, Account, Outstanding, Chronicle, Flatten, Pending, Handed, EarlierDestroyed, OnlyReplied, Jam;
      SentOk(Snapshot(), maxPiped, multiset{}, j);
      var call := conns[j].sendq[0];
      conns := conns[j := conns[j].(sendq := conns[j].sendq[1..], recvq := conns[j].recvq + [call])];
    }

    /**
     recv_done and call_done take the answered call off the receive queue and off the ring;
     the assertion of call_done holds.
     */
    method TakeReply(j: ConnId) returns (i: nat, c: CallId)
      requires Structure(multiset{}) && AllSent()
      requires j < |conns| && conns[j].state == Open && conns[j].recvq != []
      modifies `conns, `slots, `completed, `log
      ensures i == old(conns[j].slot) < |slots| == |old(slots)| && slots[i].isSuccessful
      ensures slots[i].conn == Some(j) == old(slots[i].conn)
      ensures Structure(multiset{c, c}) && AllSent() && Waiting(slots)[c] == 0
      ensures Outstanding(slots) + 1 == old(Outstanding(slots)) <= maxConns * maxPiped
      ensures old(slots[i].numPending) > 0 && c == old(conns[j].recvq[0]) == old(Pending(slots[i]))[0]
      ensures slots[i].numPending + 1 == old(slots[i].numPending) <= maxPiped
      ensures forall k :: 0 <= k < |slots| && k != i ==> slots[k] == old(slots[k])
      ensures |conns| == |old(conns)| && conns[j].state == Open
      ensures completed == old(completed)[i := old(completed[i]) + [c]]
      ensures log == old(log) + [Completed(i, c)]
    {
      hide Consistent, Account, Chronicle, Outstanding, Waiting, Pending, Config;
      ghost var w := Snapshot();
      NoneOverfull(w, maxPiped, multiset{});
      OutstandingBound(slots, maxPiped);
      ReplyExpected(w, maxPiped, multiset{}, j);
      c := conns[j].recvq[0];
      i := conns[j].slot;
      conns := conns[j := conns[j].(recvq := conns[j].recvq[1..])];
      var ci := slots[i];
      assert ci.call[ci.rd] == Some(c) && ci.numPending > 0 && ci.numSent > 0;
      ReplyOk(w, maxPiped, multiset{}, i, j, c);
      slots := slots[i := ci.(isSuccessful := true, call := ci.call[ci.rd := None], rd := (ci.rd + 1) % MAX_PIPED,
                              numPending := ci.numPending - 1, numSent := ci.numSent - 1)];
      CallCompletedLogged(bursts, log, requested, destroyed, completed, i, c);
      log := log + [Completed(i, c)];
      completed := completed[i := completed[i] + [c]];
      assert Snapshot() == Reply(w, i, j, c);
      assert multiset{} + multiset{c, c} == multiset{c, c};
    }

    /** call_dec_ref for a call that only the stack still references. */
    method Release(c: CallId, ghost extra: multiset<CallId>)
      returns (zero: bool)
      requires Structure(extra) && Waiting(slots)[c] == 0 && c in extra
      modifies `refs, `destroyed, `log
      ensures Structure(extra - multiset{c})
      ensures zero <==> extra[c] == 1
      ensures destroyed == if zero then old(destroyed) + [c] else old(destroyed)
      ensures log == if zero then old(log) + [Destroyed(c)] else old(log)
    {
      hide Consistent, Account, Chronicle, Waiting, Config;
      ReleaseOk(Snapshot(), maxPiped, extra, c);
      OnlyOnStack(Snapshot(), maxPiped, extra, c);
      zero := ObjectDecRef(c);
    }

    /** The references of ring and queue are dropped; an HTTP/1.0 connection is closed in between. */
    method DropAnswered(i: nat, c: CallId)
      requires Structure(multiset{c, c}) && Waiting(slots)[c] == 0 && AllSent() && i < |slots|
      modifies `refs, `destroyed, `log, `conns, `slots
      ensures Structure(multiset{}) && AllSent()
      ensures destroyed == old(destroyed) + [c]
      ensures Outstanding(slots) == old(Outstanding(slots))
      ensures slots == if persistent then old(slots) else old(slots)[i := old(slots[i]).(conn := None)]
      ensures log == old(log) + [Destroyed(c)]
    {
      hide Consistent, Account, Chronicle, Outstanding, Waiting, Config;
      assert multiset{c, c} - multiset{c} == multiset{c};
      assert multiset{c} - multiset{c} == multiset{};
      var zero := Release(c, multiset{c, c});
      if !persistent {
        CloseSlotOf(i, multiset{c});
      }
      zero := Release(c, multiset{c});
    }

    /** core_close of a slot's connection, which the slot then forgets. */
    method CloseSlotOf(i: nat, ghost extra: multiset<CallId>)
      requires Structure(extra) && AllSent() && i < |slots|
      modifies `refs, `destroyed, `log, `conns, `slots
      ensures Structure(extra) && AllSent()
      ensures slots == old(slots)[i := old(slots[i]).(conn := None)]
      ensures destroyed == old(destroyed)
      ensures Outstanding(slots) == old(Outstanding(slots))
      ensures Waiting(slots) == old(Waiting(slots))
      ensures log == old(log)
    {
      hide Consistent, Account, Chronicle, Outstanding, Pending, Waiting, Config;
      ghost var w := Snapshot();
      ghost var v := CloseSlotConn(i, w, extra);
      OutstandingUpdate(w.slots, i, slots[i]);
      SameRing(w.slots[i], slots[i]);
      WaitingUpdate(w.slots, i, slots[i], 0);
      assert Snapshot() == v;
    }

    /** call_dec_ref for the last calls of a session that is gone. */
    method ReleaseRest(c: CallId, ghost n: nat)
      requires refs == multiset{}[c := n + 1] && RefsOk()
      modifies `refs, `destroyed, `log
      ensures refs == multiset{}[c := n] && RefsOk()
      ensures old(log) <= log
    {
      hide Account, Chronicle;
      var zero := ObjectDecRef(c);
    }

    /** The reply's status is the configured failure status: the session dies, then the call. */
    method FailAnswered(c: CallId)
      requires Structure(multiset{c, c}) && Sched(1) && !failed
      modifies `failed, `slots, `conns, `refs, `destroyed, `log, `timer, `ended
      ensures Valid() && failed
      ensures old(log) <= log
    {
      hide Consistent, Account, Outstanding, Chronicle, Flatten, Handed, EarlierDestroyed;
      RequestedPrefix(bursts, currentBurst, numCallsInThisBurst);
      SessFailure(multiset{c, c});
      ReleaseRest(c, 1);
      ReleaseRest(c, 0);
    }

    /** A complete reply for the call at the head of the receive queue. */
    method OnReply(j: ConnId, failureStatus: bool)
      requires failureStatus ==> !retryOnFailure
      requires Valid() && !ended && j < |conns| && conns[j].state == Open && conns[j].recvq != []
      modifies this
      ensures Valid()
      ensures failed <==> failureStatus
      ensures old(conns[j].slot < |slots| && slots[conns[j].slot].numPending > 0)
      ensures old(conns[j].recvq[0] == Pending(slots[conns[j].slot])[0])
      ensures var i, c := old(conns[j].slot), old(conns[j].recvq[0]);
              completed == old(completed)[i := old(completed)[i] + [c]]
      ensures !failed ==> destroyed == old(destroyed) + [old(conns[j].recvq[0])]
      ensures !failed ==> var i, c := old(conns[j].slot), old(conns[j].recvq[0]);
                          old(log) + [Completed(i, c), Destroyed(c)] <= log
      ensures !failed ==> numCallsDestroyed == old(numCallsDestroyed) + 1
      // pipelined HTTP/1.0: the slot loses its connection with calls still pending, and nothing revives it
      ensures !persistent && !failed && old(slots[conns[j].slot].numPending) > 1
              && old(numCallsInThisBurst == |bursts[currentBurst]|) ==>
                !ended && !timer && Stranded(old(conns[j].slot))
      ensures old(log) <= log
    {
      hide Consistent, Account, Outstanding, Waiting, Chronicle, Flatten, Pending, Handed, EarlierDestroyed,
           OnlyReplied, Jam;
      if failureStatus {
        var _, c := TakeReply(j);
        FailAnswered(c);
      } else {
        AnswerCall(j);
        CallDestroyed();
      }
    }

    /** recv_done and call_done for a reply that is no failure, up to the destruction of the call. */
    method AnswerCall(j: ConnId)
      requires Valid() && !ended && j < |conns| && conns[j].state == Open && conns[j].recvq != []
      modifies `conns, `slots, `completed, `refs, `destroyed, `log
      ensures JustDestroyed()
      ensures var i, c := old(conns[j].slot), old(conns[j].recvq[0]);
              && i < |slots| == |old(slots)| && old(slots[i].numPending) > 0 && c == old(Pending(slots[i]))[0]
              && completed == old(completed)[i := old(completed)[i] + [c]] && destroyed == old(destroyed) + [c]
              && log == old(log) + [Completed(i, c), Destroyed(c)]
              && slots[i].numPending + 1 == old(slots[i].numPending) && (!persistent ==> slots[i].conn.None?)
              && (slots[i].numPending > 0 ==> Outstanding(slots) > 0)
    {
      hide Consistent, Account, Outstanding, Waiting, Chronicle, Flatten, Pending, Handed, EarlierDestroyed,
           OnlyReplied, Jam;
      var i, c := TakeReply(j);
      NoneOutstanding(slots);
      DropAnswered(i, c);
      EarlierStay(bursts, currentBurst, old(destroyed), c);
      RepliedStep(old(destroyed), old(completed), i, c);
      if Pipelined10() {
        JamAnswered(bursts, currentBurst, numCallsInThisBurst, old(slots), slots, i);
      }
    }

    /** conn_failed of a connection that is to be replaced, then core_close: everything pending will be resent. */
    method Reconnect(i: nat, j: ConnId)
      requires Structure(multiset{}) && AllSent()
      requires i < |slots| && slots[i].conn == Some(j) && j < |conns| && conns[j].state != Closing
      modifies `slots, `conns, `refs, `destroyed, `log
      ensures Structure(multiset{}) && AllSent()
      ensures Snapshot() == Drop(Create(old(Snapshot()), i), j)
      ensures slots == old(slots)[i := Reconnected(old(slots[i]), |old(conns)|)]
      ensures Pending(slots[i]) == old(Pending(slots[i]))
      ensures Outstanding(slots) == old(Outstanding(slots)) && destroyed == old(destroyed)
      ensures log == old(log)
    {
      hide Consistent, Account, Chronicle, Outstanding, Pending, Config;
      ghost var w := Snapshot();
      assert Consistent(w, maxPiped, multiset{}) && RefsOk();
      QueuedTwice(w, maxPiped, multiset{}, j);
      ReconnectOk(w, maxPiped, multiset{}, i, j);
      OutstandingUpdate(w.slots, i, Reconnected(w.slots[i], |w.conns|));
      SameRing(w.slots[i], Reconnected(w.slots[i], |w.conns|));
      CreateConn(i);
      CoreClose(j);
    }

    /** A read or write error, or the server closing: conn_failure. */
    method OnConnFailure(j: ConnId)
      requires Valid() && !ended && j < |conns| && conns[j].state != Closing
      modifies this
      ensures Valid()
      ensures completed == old(completed) && requested == old(requested)
      ensures old(conns[j].slot < |slots|)
      ensures failed <==> !old(slots[conns[j].slot].isSuccessful) && !retryOnFailure
      ensures !failed ==> !ended && destroyed == old(destroyed)
      ensures !failed ==> Snapshot() == Drop(Create(old(Snapshot()), old(conns[j].slot)), j)
      ensures old(log) <= log
    {
      hide Consistent, Account, Outstanding, Chronicle, Flatten, Pending, Handed, EarlierDestroyed, OnlyReplied, Jam,
           Drop, Create;
      QueuedTwice(Snapshot(), maxPiped, multiset{}, j);
      var i := conns[j].slot;
      if slots[i].isSuccessful || retryOnFailure {
        Replay(i, j);
      } else {
        Fail();
      }
    }

    /** Reconnect between two handlers. */
    method Replay(i: nat, j: ConnId)
      requires Valid() && !ended
      requires i < |slots| && slots[i].conn == Some(j) && j < |conns| && conns[j].state != Closing
      modifies `slots, `conns, `refs, `destroyed, `log
      ensures Valid() && !ended && destroyed == old(destroyed)
      ensures Snapshot() == Drop(Create(old(Snapshot()), i), j)
      ensures log == old(log)
    {
      hide Consistent, Account, Outstanding, Chronicle, Flatten, Pending, Handed, EarlierDestroyed, OnlyReplied, Jam,
           Drop, Create;
      Reconnect(i, j);
      if Pipelined10() {
        JamKept(bursts, currentBurst, numCallsInThisBurst, old(slots), slots, i);
      }
    }

    /** sess_failure with no call on the stack. */
    method Fail()
      requires Structure(multiset{}) && Sched(0) && !failed
      modifies `failed, `slots, `conns, `refs, `destroyed, `log, `timer, `ended
      ensures Valid() && failed
      ensures old(log) <= log
    {
      hide Consistent, Account, Outstanding, Chronicle, Flatten, Handed, EarlierDestroyed;
      RequestedPrefix(bursts, currentBurst, numCallsInThisBurst);
      SessFailure(multiset{});
    }

    /** The watchdog of a connection expired: conn_timeout. */
    method OnTimeout(j: ConnId)
      requires Valid() && !ended && j < |conns| && conns[j].state != Closing
      modifies this
      ensures Valid() && failed && completed == old(completed)
      ensures old(log) <= log
    {
      hide Consistent, Account, Outstanding, Chronicle, Flatten, Pending;
      Fail();
    }

    /** user_think_time_expired. */
    method OnThinkTimeExpired()
      requires Valid() && !ended && timer
      modifies this
      ensures Valid() && !ended
      ensures destroyed == old(destroyed) && completed == old(completed)
      ensures |requested| == |old(requested)| + 1
      ensures forall c: CallId :: c < |old(requested)| ==> c in destroyed
      ensures old(log) <= log
    {
      hide Consistent, Account, Outstanding, Chronicle, Flatten, Pending, Handed, EarlierDestroyed, OnlyReplied, Jam;
      IdleDestroyed(Snapshot(), maxPiped, destroyed, nextId);
      timer := false;
      IssueCalls();
      if Pipelined10() {
        JamStarted(old(slots));
      }
    }

    lemma JamStarted(before: seq<Slot>)
      requires currentBurst < |bursts| && Jam(bursts, currentBurst, 0, before) && numCallsInThisBurst == 1
      ensures Jam(bursts, currentBurst, numCallsInThisBurst, slots)
    {
    }
  }

  /** What the environment can do to a session; j numbers connections in order of creation. */
  datatype Event =
    | Connected(j: ConnId)
    | RequestSent(j: ConnId)
    | Replied(j: ConnId, failureStatus: bool)
    | ConnFailed(j: ConnId)
    | TimedOut(j: ConnId)
    | ThinkTimeExpired

  /** The events core_loop and timer_tick can deliver in the session's current state. */
  predicate Enabled(s: Session, e: Event)
    reads s
  {
    !s.ended &&
    match e
    case Connected(j) => j < |s.conns| && s.conns[j].state == Connecting
    case RequestSent(j) => j < |s.conns| && s.conns[j].state == Open && s.conns[j].sendq != []
    case Replied(j, failureStatus) => (failureStatus ==> !s.retryOnFailure) && j < |s.conns|
        && s.conns[j].state == Open && s.conns[j].recvq != []
    case ConnFailed(j) => j < |s.conns| && s.conns[j].state != Closing
    case TimedOut(j) => j < |s.conns| && s.conns[j].state != Closing
    case ThinkTimeExpired => s.timer
  }

  /** One event, delivered only when enabled. */
  method Deliver(s: Session, e: Event)
    requires s.Valid()
    modifies s
    ensures s.Valid()
    ensures old(s.log) <= s.log
    ensures !old(Enabled(s, e)) ==> unchanged(s)
  {
    if Enabled(s, e) {
      match e
      case Connected(j) => s.OnConnected(j);
      case RequestSent(j) => s.OnSent(j);
      case Replied(j, failureStatus) => s.OnReply(j, failureStatus);
      case ConnFailed(j) => s.OnConnFailure(j);
      case TimedOut(j) => s.OnTimeout(j);
      case ThinkTimeExpired => s.OnThinkTimeExpired();
    }
  }

  /**
   Any run of a session: whatever the environment does, requests are issued once each and in
   template order behind the think-time barriers, every slot completes its calls in the order
   they were issued to it, and a session that ends without failing has done all its work and
   holds no reference any more.
   */
  method Run(bursts: seq<seq<Req>>, maxConns: nat, maxPiped: nat, persistent: bool, totalNumReqs: nat,
             retryOnFailure: bool, events: seq<Event>) returns (s: Session)
    requires 1 <= maxConns <= MAX_CONN && 1 <= maxPiped <= MAX_PIPED
    requires bursts != [] && forall b :: 0 <= b < |bursts| ==> bursts[b] != []
    requires totalNumReqs == |Flatten(bursts)|
    ensures s.Valid() && s.bursts == bursts
    // call c is for request c of the template, behind the barrier, and goes to one slot, once
    ensures s.requested <= Flatten(bursts) && s.nextId == |s.requested|
    ensures Chronicle(bursts, s.log, s.requested, s.destroyed, s.completed)
    ensures |s.completed| == |s.issuedTo| == maxConns && Handed(s.issuedTo, s.nextId)
    ensures forall i :: 0 <= i < |s.completed| ==> s.completed[i] <= s.issuedTo[i]
    // a call is destroyed once, and without a failure only when its reply is complete
    ensures forall c: CallId :: multiset(s.destroyed)[c] <= 1
    ensures !s.failed ==> OnlyReplied(s.destroyed, s.completed)
    ensures s.ended ==> s.refs == multiset{} && forall j :: 0 <= j < |s.conns| ==> s.conns[j].state == Closing
    ensures s.ended && !s.failed ==> s.requested == Flatten(bursts) && Handed(s.completed, |Flatten(bursts)|)
    // pipelined HTTP/1.0 does not get past a burst of three; anything else always waits for something
    ensures s.ended && !s.failed ==> persistent || maxPiped == 1 || SmallBursts(bursts)
    ensures !s.ended && (persistent || maxPiped == 1 || SmallBursts(bursts)) ==>
            (s.timer <==> forall i: nat :: !Busy(s, i))
  {
    s := new Session(bursts, maxConns, maxPiped, persistent, totalNumReqs, retryOnFailure);
    var k := 0;
    while k < |events|
      invariant 0 <= k <= |events|
      invariant fresh(s) && s.Valid()
    {
      Deliver(s, events[k]);
      k := k + 1;
    }
    RunFacts(s);
    if !s.ended && s.Safe() {
      Progress(s);
    }
  }

  /** Slot i waits for a reply or a connection that is under way. */
  ghost predicate Busy(s: Session, i: nat)
    reads s
  {
    && i < |s.slots| && s.slots[i].numPending > 0 && s.slots[i].conn.Some?
    && s.slots[i].conn.value < |s.conns|
    && var d := s.conns[s.slots[i].conn.value];
       d.state == Connecting || (d.state == Open && d.Queue() == Pending(s.slots[i]))
  }

  /** A running session always has a busy connection or a pending think time, never both. */
  lemma Progress(s: Session)
    requires s.Valid() && !s.ended && s.Safe()
    ensures s.timer <==> forall i: nat :: !Busy(s, i)
  {
    hide Consistent, Account, Outstanding, Chronicle, Flatten, Pending, Handed, EarlierDestroyed, OnlyReplied, Jam;
    NoneOutstanding(s.slots);
    if !s.timer {
      var i :| 0 <= i < |s.slots| && s.slots[i].numPending > 0;
      ConnOfSlot(s.Snapshot(), s.maxPiped, multiset{}, i);
      QueuedTwice(s.Snapshot(), s.maxPiped, multiset{}, s.slots[i].conn.value);
      if s.slots[i].isConnected {
        AllQueued(s.Snapshot(), s.maxPiped, multiset{}, i);
      }
      assert Busy(s, i);
    }
  }

  lemma RunFacts(s: Session)
    requires s.Valid()
    ensures s.requested <= Flatten(s.bursts) && s.nextId == |s.requested|
    ensures Chronicle(s.bursts, s.log, s.requested, s.destroyed, s.completed) && Handed(s.issuedTo, s.nextId)
    ensures |s.completed| == |s.issuedTo| == s.maxConns
    ensures forall i :: 0 <= i < |s.completed| ==> s.completed[i] <= s.issuedTo[i]
    ensures forall c: CallId :: multiset(s.destroyed)[c] <= 1
    ensures !s.failed ==> OnlyReplied(s.destroyed, s.completed)
  {
    hide Outstanding, Chronicle, Flatten, Wired, SlotOk, Waiting, Handed, EarlierDestroyed, OnlyReplied, Jam;
    if !s.ended {
      RequestedPrefix(s.bursts, s.currentBurst, s.numCallsInThisBurst);
    }
  }

  lemma AllQueued(w: World, maxPiped: nat, extra: multiset<CallId>, i: nat)
    requires Consistent(w, maxPiped, extra) && i < |w.slots| && w.slots[i].conn.Some?
    requires w.slots[i].isConnected && w.slots[i].numSent == w.slots[i].numPending
    ensures var j := w.slots[i].conn.value;
            j < |w.conns| && w.conns[j].state == Open && w.conns[j].Queue() == Pending(w.slots[i])
  {
    assert SlotWired(w.slots[i], i, w.conns, None);
  }

  lemma FreshWorld(w: World, maxPiped: nat)
    requires maxPiped <= MAX_PIPED && w.conns == [] && w.refs == multiset{}
    requires |w.slots| == |w.issuedTo| == |w.completed|
    requires forall i :: 0 <= i < |w.slots| ==> w.slots[i] == EMPTY_SLOT && w.issuedTo[i] == [] == w.completed[i]
    ensures Consistent(w, maxPiped, multiset{})
  {
    EmptySlotOk(maxPiped);
    HeldNothing(Rings(w.slots));
    HeldNothing(Queues(w.conns));
  }

  lemma ConnOfSlot(w: World, maxPiped: nat, extra: multiset<CallId>, i: nat)
    requires Consistent(w, maxPiped, extra) && i < |w.slots| && w.slots[i].conn.Some?
    ensures var j := w.slots[i].conn.value;
            j < |w.conns| && w.conns[j].state != Closing && w.conns[j].slot == i
  {
    assert SlotWired(w.slots[i], i, w.conns, None);
  }

  /** What sess_destroyed has to drop for slot i, once its connection is closed. */
  lemma FreeRing(v: World, maxPiped: nat, extra: multiset<CallId>, i: nat) returns (p: seq<CallId>, v': World)
    requires Consistent(v, maxPiped, extra) && i < |v.slots| && v.slots[i].conn.None?
    ensures var ci := v.slots[i];
            && |p| == ci.numPending && |ci.call| == MAX_PIPED && ci.rd < MAX_PIPED
            && forall k :: 0 <= k < |p| ==> ci.call[(ci.rd + k) % MAX_PIPED] == Some(p[k])
    ensures |v.issuedTo| == |v.completed| == |v.slots| && v.issuedTo[i] == v.completed[i] + p
    ensures v' == v.(slots := v.slots[i := EMPTY_SLOT], issuedTo := v.issuedTo[i := v.completed[i]])
    ensures Consistent(v', maxPiped, extra + multiset(p))
  {
    hide Consistent, Pending;
    p := Pending(v.slots[i]);
    RingShape(v, maxPiped, extra, i);
    FreeSlotOk(v, maxPiped, extra, i);
    v' := v.(slots := v.slots[i := EMPTY_SLOT], issuedTo := v.issuedTo[i := v.completed[i]]);
    forall k | 0 <= k < |p| ensures v.slots[i].call[(v.slots[i].rd + k) % MAX_PIPED] == Some(p[k]) {
      RingAt(v, maxPiped, extra, i, k);
    }
  }

  lemma NextIndex(rd: nat, j: nat)
    ensures ((rd + j) % MAX_PIPED + 1) % MAX_PIPED == (rd + (j + 1)) % MAX_PIPED
  {
  }

  lemma DropHead(w: World, maxPiped: nat, extra: multiset<CallId>, p: seq<CallId>, j: nat)
    requires j < |p| && Consistent(w, maxPiped, extra + multiset(p[j..]))
    ensures p[j] in w.refs
    ensures Consistent(w.(refs := w.refs - multiset{p[j]}), maxPiped, extra + multiset(p[j + 1..]))
  {
    hide Consistent;
    assert p[j..] == [p[j]] + p[j + 1..];
    assert extra + multiset(p[j..]) - multiset{p[j]} == extra + multiset(p[j + 1..]);
    ReleaseOk(w, maxPiped, extra + multiset(p[j..]), p[j]);
  }

  /** Each of these calls has two references at least: the one to be dropped is not the last. */
  ghost predicate Twice(calls: seq<CallId>, refs: multiset<CallId>) { multiset(calls) + multiset(calls) <= refs }

  ghost function Without(refs: multiset<CallId>, calls: seq<CallId>): multiset<CallId> { refs - multiset(calls) }

  lemma WithoutEnds(r: multiset<CallId>, s: seq<CallId>)
    ensures Without(r, s[..0]) == r
  {
    assert s[..0] == [];
  }

  /** While a call is still held elsewhere, dropping its queue references cannot free it. */
  lemma TakeAnother(r: multiset<CallId>, s: seq<CallId>, k: nat)
    requires Twice(s, r) && k < |s|
    ensures s[k] in Without(r, s[..k]) && s[k] in Without(r, s[..k]) - multiset{s[k]}
    ensures Without(r, s[..k]) - multiset{s[k]} == Without(r, s[..k + 1])
  {
    assert s[..k + 1] == s[..k] + [s[k]];
    assert s == s[..k + 1] + s[k + 1..];
    var c, m := s[k], multiset(s);
    assert multiset(s[..k + 1])[c] <= m[c] && c in m;
    assert (m + m)[c] <= r[c];
  }

  lemma QueueParts(r: multiset<CallId>, recvq: seq<CallId>, sendq: seq<CallId>)
    requires Twice(recvq + sendq, r)
    ensures Twice(sendq, r) && Twice(recvq, Without(r, sendq))
    ensures Without(Without(r, sendq), recvq) == Without(r, recvq + sendq)
  {
    assert multiset(recvq + sendq) == multiset(recvq) + multiset(sendq);
  }
}
