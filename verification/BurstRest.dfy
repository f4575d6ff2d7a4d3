/**
 Sessions left alone by the failures: what happens when connections are established, requests are
 sent, replies arrive and think times expire, until nothing of that is possible any more.
 */
module BurstRest {
  import opened Wrappers
  import opened CallRing
  import opened SessionWiring
  import opened SessionWorld
  import opened BurstHistory
  import opened BurstSession

  /** Neither a failure of a connection, nor a timeout, nor a reply with the failure status. */
  predicate Quiet(e: Event) {
    match e
    case Replied(_, failureStatus) => !failureStatus
    case ConnFailed(_) => false
    case TimedOut(_) => false
    case _ => true
  }

  /** No quiet event can be delivered. */
  ghost predicate AtRest(s: Session)
    reads s
  {
    forall e :: Quiet(e) ==> !Enabled(s, e)
  }

  ghost function ConnectingOnes(conns: seq<Conn>): set<ConnId> {
    set j | 0 <= j < |conns| && conns[j].state == Connecting
  }

  /** The calls still in send queues. */
  ghost function Unsent(conns: seq<Conn>): nat {
    if conns == [] then 0 else Unsent(conns[..|conns| - 1]) + |conns[|conns| - 1].sendq|
  }

  lemma {:induction false} UnsentUpdate(conns: seq<Conn>, j: nat, d: Conn)
    requires j < |conns|
    ensures Unsent(conns[j := d]) + |conns[j].sendq| == Unsent(conns) + |d.sendq|
  {
    var n := |conns| - 1;
    if j == n {
      assert conns[j := d][..n] == conns[..n];
    } else {
      assert conns[j := d][..n] == conns[..n][j := d];
      UnsentUpdate(conns[..n], j, d);
    }
  }

  /** How much a session has left to do without failing, as a lexicographic rank. */
  datatype Rank = Rank(undestroyed: int, unissued: int, connecting: set<ConnId>, unsent: nat)

  ghost function RankOf(s: Session): Rank
    reads s
  {
    Rank(s.totalNumReqs - s.numCallsDestroyed, s.totalNumReqs - s.nextId, ConnectingOnes(s.conns), Unsent(s.conns))
  }

  ghost predicate Less(a: Rank, b: Rank) {
    || a.undestroyed < b.undestroyed
    || (a.undestroyed == b.undestroyed && a.unissued < b.unissued)
    || (a.undestroyed == b.undestroyed && a.unissued == b.unissued && a.connecting < b.connecting)
    || (a.undestroyed == b.undestroyed && a.unissued == b.unissued && a.connecting == b.connecting
       && a.unsent < b.unsent)
  }

  /** A quiet event does not make a session fail, and brings it nearer to its end. */
  method DeliverQuietly(s: Session, e: Event)
    requires s.Valid() && !s.failed && Enabled(s, e) && Quiet(e)
    modifies s
    ensures s.Valid() && !s.failed
    ensures old(RankOf(s).undestroyed) > 0 && old(RankOf(s).unissued) >= 0
    ensures Less(RankOf(s), old(RankOf(s)))
  {
    hide Consistent, Account, Chronicle, Outstanding, Handed, EarlierDestroyed, OnlyReplied, Jam, Flatten;
    StillToDo(s, e);
    match e {
      case Connected(j) => ConnectQuietly(s, j);
      case RequestSent(j) => SendQuietly(s, j);
      case Replied(j, _) =>
        hide Unsent, ConnectingOnes;
        s.OnReply(j, false);
      case ThinkTimeExpired =>
        hide Unsent, ConnectingOnes;
        s.OnThinkTimeExpired();
        Running(s);
    }
  }

  method ConnectQuietly(s: Session, j: ConnId)
    requires s.Valid() && !s.failed && Enabled(s, Connected(j))
    modifies s
    ensures s.Valid() && !s.failed && Less(RankOf(s), old(RankOf(s)))
  {
    hide Consistent, Account, Chronicle, Outstanding, Handed, EarlierDestroyed, OnlyReplied, Jam, Flatten, Unsent;
    Running(s);
    s.OnConnected(j);
    Running(s);
    OneLess(old(s.conns), s.conns, j);
  }

  lemma OneLess(before: seq<Conn>, after: seq<Conn>, j: ConnId)
    requires j < |before| == |after| && before[j].state == Connecting
    requires forall k :: 0 <= k < |after| ==> after[k].state == if k == j then Open else before[k].state
    ensures ConnectingOnes(after) < ConnectingOnes(before)
  {
    assert j in ConnectingOnes(before) && j !in ConnectingOnes(after);
  }

  method SendQuietly(s: Session, j: ConnId)
    requires s.Valid() && !s.failed && Enabled(s, RequestSent(j))
    modifies s
    ensures s.Valid() && !s.failed && Less(RankOf(s), old(RankOf(s)))
  {
    hide Consistent, Account, Chronicle, Outstanding, Handed, EarlierDestroyed, OnlyReplied, Jam, Flatten, Unsent;
    UnsentUpdate(s.conns, j, Sent(s.conns[j]));
    s.OnSent(j);
    Running(s);
    assert ConnectingOnes(s.conns) == ConnectingOnes(old(s.conns));
  }

  lemma Running(s: Session)
    requires s.Valid() && !s.ended
    ensures s.numCallsDestroyed == |s.destroyed| && s.nextId == |s.requested|
    ensures !s.failed
  {
  }

  /** While anything can happen, not all calls have been destroyed. */
  lemma StillToDo(s: Session, e: Event)
    requires s.Valid() && Enabled(s, e)
    ensures s.numCallsDestroyed < s.totalNumReqs && s.nextId <= s.totalNumReqs
    ensures s.numCallsDestroyed == |s.destroyed| && s.nextId == |s.requested|
  {
    Running(s);
    RunFacts(s);
    NotDone(s);
  }

  /** A running session has calls outstanding or a burst to come. */
  lemma NotDone(s: Session)
    requires s.Valid() && !s.ended && s.nextId <= s.totalNumReqs
    ensures s.numCallsDestroyed < s.totalNumReqs
  {
    hide Consistent, Account, Chronicle, Outstanding, Handed, EarlierDestroyed, OnlyReplied, Jam, Flatten;
    if s.timer {
      RequestedPrefix(s.bursts, s.currentBurst, 0);
      assert s.bursts[s.currentBurst][..0] == [];
    }
  }

  /** Looks for a quiet event; any one that is enabled would do. */
  method NextEvent(s: Session) returns (e: Option<Event>)
    requires s.Valid()
    ensures e.Some? ==> Quiet(e.value) && Enabled(s, e.value)
    ensures e.None? ==> AtRest(s)
  {
    hide Consistent, Account, Chronicle, Outstanding, Handed, EarlierDestroyed, OnlyReplied, Jam, Flatten;
    if s.ended {
      return None;
    }
    if s.timer {
      return Some(ThinkTimeExpired);
    }
    var j := 0;
    while j < |s.conns|
      invariant 0 <= j <= |s.conns|
      invariant forall e :: Quiet(e) && Enabled(s, e) ==> e.ThinkTimeExpired? || e.j >= j
    {
      var d := s.conns[j];
      if d.state == Connecting {
        return Some(Connected(j));
      } else if d.state == Open && d.sendq != [] {
        return Some(RequestSent(j));
      } else if d.state == Open && d.recvq != [] {
        return Some(Replied(j, false));
      }
      j := j + 1;
    }
    return None;
  }

  /** At rest, no slot waits for anything that can still come, and no think time is pending. */
  lemma RestIsIdle(s: Session)
    requires s.Valid() && !s.ended && AtRest(s)
    ensures !s.timer && forall i: nat :: !Busy(s, i)
  {
    hide Consistent, Account, Chronicle, Outstanding, Handed, EarlierDestroyed, OnlyReplied, Jam, Flatten;
    assert !Enabled(s, ThinkTimeExpired);
    forall i: nat ensures !Busy(s, i) {
      if i < |s.slots| && s.slots[i].conn.Some? {
        var j := s.slots[i].conn.value;
        assert !Enabled(s, Connected(j)) && !Enabled(s, RequestSent(j)) && !Enabled(s, Replied(j, false));
        assert |Pending(s.slots[i])| == s.slots[i].numPending;
      }
    }
  }

  /** A slot with pending calls waits for something, or has lost its connection for good. */
  lemma BusyOrStranded(s: Session, i: nat)
    requires s.Valid() && !s.ended && i < |s.slots| && s.slots[i].numPending > 0
    ensures Busy(s, i) || s.Stranded(i)
  {
    hide Consistent, Account, Chronicle, Outstanding, Handed, EarlierDestroyed, OnlyReplied, Jam, Flatten;
    if s.slots[i].conn.Some? {
      ConnOfSlot(s.Snapshot(), s.maxPiped, multiset{}, i);
      QueuedTwice(s.Snapshot(), s.maxPiped, multiset{}, s.slots[i].conn.value);
      if s.slots[i].isConnected {
        AllQueued(s.Snapshot(), s.maxPiped, multiset{}, i);
      }
    }
  }

  /** What is outstanding then is stranded. */
  lemma RestIsStranded(s: Session)
    requires s.Valid() && !s.ended && AtRest(s)
    ensures exists i: nat :: s.Stranded(i)
  {
    hide Consistent, Account, Chronicle, Outstanding, Handed, EarlierDestroyed, OnlyReplied, Jam, Flatten, Busy;
    RestIsIdle(s);
    NoneOutstanding(s.slots);
    var i :| 0 <= i < |s.slots| && s.slots[i].numPending > 0;
    BusyOrStranded(s, i);
    assert s.Stranded(i);
  }

  /**
   A session and quiet events for as long as there are any: it comes to rest. It has then finished all
   its work if and only if it is HTTP/1.1, or not pipelined, or has no burst of three requests; otherwise
   it hangs: it has not ended, no think time is pending, no slot waits for a reply or a connection, and a
   call is stranded.
   */
  method RunToRest(bursts: seq<seq<Req>>, maxConns: nat, maxPiped: nat, persistent: bool, totalNumReqs: nat,
                   retryOnFailure: bool) returns (s: Session, events: seq<Event>)
    requires 1 <= maxConns <= MAX_CONN && 1 <= maxPiped <= MAX_PIPED
    requires bursts != [] && forall b :: 0 <= b < |bursts| ==> bursts[b] != []
    requires totalNumReqs == |Flatten(bursts)|
    ensures s.Valid() && s.bursts == bursts && !s.failed && AtRest(s)
            && forall k :: 0 <= k < |events| ==> Quiet(events[k])
    ensures s.ended <==> persistent || maxPiped == 1 || SmallBursts(bursts)
    ensures s.ended ==> s.requested == Flatten(bursts) && Handed(s.completed, |Flatten(bursts)|)
    ensures !s.ended ==> !s.timer && (forall i: nat :: !Busy(s, i)) && exists i: nat :: s.Stranded(i)
  {
    hide Consistent, Account, Chronicle, Outstanding, Handed, EarlierDestroyed, OnlyReplied, Jam, Flatten, Unsent,
         ConnectingOnes;
    s := new Session(bursts, maxConns, maxPiped, persistent, totalNumReqs, retryOnFailure);
    events := [];
    Running(s);
    var e := NextEvent(s);
    while e.Some?
      invariant fresh(s) && s.Valid() && !s.failed
      invariant e.Some? ==> Quiet(e.value) && Enabled(s, e.value)
      invariant e.None? ==> AtRest(s)
      invariant forall k :: 0 <= k < |events| ==> Quiet(events[k])
      decreases RankOf(s).undestroyed, RankOf(s).unissued, RankOf(s).connecting, RankOf(s).unsent
    {
      DeliverQuietly(s, e.value);
      events := events + [e.value];
      e := NextEvent(s);
    }
    RestExact(s);
  }

  lemma RestExact(s: Session)
    requires s.Valid() && !s.failed && AtRest(s)
    ensures s.ended <==> s.Safe()
    ensures s.ended ==> s.requested == Flatten(s.bursts) && Handed(s.completed, |Flatten(s.bursts)|)
    ensures !s.ended ==> !s.timer && (forall i: nat :: !Busy(s, i)) && exists i: nat :: s.Stranded(i)
  {
    hide Consistent, Account, Chronicle, Outstanding, Handed, EarlierDestroyed, OnlyReplied, Jam, Flatten;
    if !s.ended {
      RestIsIdle(s);
      RestIsStranded(s);
      if s.Safe() {
        Progress(s);
        assert false;
      }
    }
  }
}
