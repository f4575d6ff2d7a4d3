/**
 One connection slot of a session (struct Conn_Info): a ring buffer of pending
 calls, of which the first numSent have been handed to the live connection.
 */
module CallRing {
  import opened Wrappers

  const MAX_PIPED := 32

  type CallId = nat
  type ConnId = nat

  datatype Slot = Slot(
    conn: Option<ConnId>,
    isConnected: bool,
    isSuccessful: bool,
    numPending: nat,
    numSent: nat,
    rd: nat,
    wr: nat,
    call: seq<Option<CallId>>)

  const EMPTY_SLOT := Slot(None, false, false, 0, 0, 0, 0, seq(MAX_PIPED, _ => None))

  /** The ring position k places after rd. */
  function RingIndex(rd: nat, k: nat): (i: nat)
    requires rd < MAX_PIPED && k <= MAX_PIPED
    ensures i < MAX_PIPED
    ensures i == if rd + k < MAX_PIPED then rd + k else rd + k - MAX_PIPED
  {
    (rd + k) % MAX_PIPED
  }

  /** The ring holds exactly numPending calls, starting at rd and ending just before wr. */
  ghost predicate SlotOk(s: Slot, maxPiped: nat) {
    && |s.call| == MAX_PIPED
    && s.rd < MAX_PIPED
    && s.wr < MAX_PIPED
    && s.numSent <= s.numPending <= maxPiped <= MAX_PIPED
    && s.wr == (s.rd + s.numPending) % MAX_PIPED
    && (forall k :: 0 <= k < MAX_PIPED ==> (s.call[RingIndex(s.rd, k)].Some? <==> k < s.numPending))
  }

  /** Counting from the next position. */
  lemma RingTurns(rd: nat, next: nat)
    requires rd < MAX_PIPED && next == (rd + 1) % MAX_PIPED
    ensures forall k :: 0 <= k < MAX_PIPED ==>
              RingIndex(next, k) == if k == MAX_PIPED - 1 then rd else RingIndex(rd, k + 1)
    ensures forall k :: 0 < k < MAX_PIPED ==> RingIndex(rd, k) != rd
  {
  }

  /** The pending calls of a slot, oldest first. */
  ghost function Pending(s: Slot): (p: seq<CallId>)
    ensures |p| == s.numPending
  {
    seq(s.numPending, k requires 0 <= k < s.numPending => CallAt(s, k))
  }

  ghost function CallAt(s: Slot, k: nat): CallId {
    if |s.call| == MAX_PIPED && s.rd < MAX_PIPED && k <= MAX_PIPED && s.call[RingIndex(s.rd, k)].Some?
    then s.call[RingIndex(s.rd, k)].value else 0
  }

  /** Insertion at wr, as session_issue_call does it. */
  function Push(s: Slot, c: CallId): Slot
    requires s.wr < |s.call|
  {
    s.(numPending := s.numPending + 1, call := s.call[s.wr := Some(c)], wr := (s.wr + 1) % MAX_PIPED)
  }

  /** The slot after call_done: the call at rd is removed, the connection has had a reply. */
  function Answered(s: Slot): Slot
    requires s.rd < |s.call| && s.numPending > 0 && s.numSent > 0
  {
    s.(isSuccessful := true, call := s.call[s.rd := None], rd := (s.rd + 1) % MAX_PIPED,
       numPending := s.numPending - 1, numSent := s.numSent - 1)
  }

  lemma PushAppends(s: Slot, c: CallId, maxPiped: nat)
    requires SlotOk(s, maxPiped) && s.numPending < maxPiped
    ensures SlotOk(Push(s, c), maxPiped)
    ensures Pending(Push(s, c)) == Pending(s) + [c]
  {
    var t := Push(s, c);
    assert s.wr == RingIndex(s.rd, s.numPending);
    forall k | 0 <= k < MAX_PIPED
      ensures t.call[RingIndex(t.rd, k)] == if k == s.numPending then Some(c) else s.call[RingIndex(s.rd, k)]
    {
    }
    assert Pending(t) == Pending(s) + [c];
  }

  lemma AnsweredRemovesFirst(s: Slot, maxPiped: nat)
    requires SlotOk(s, maxPiped) && s.numPending > 0 && s.numSent > 0
    ensures SlotOk(Answered(s), maxPiped)
    ensures s.call[s.rd] == Some(Pending(s)[0])
    ensures Pending(Answered(s)) == Pending(s)[1..]
  {
    var t := Answered(s);
    assert RingIndex(s.rd, 0) == s.rd;
    RingTurns(s.rd, t.rd);
    assert t.wr == (t.rd + t.numPending) % MAX_PIPED;
    hide RingIndex;
    forall k | 0 <= k < t.numPending
      ensures Pending(t)[k] == Pending(s)[k + 1]
    {
      assert s.call[RingIndex(s.rd, k + 1)].Some?;
    }
    assert Pending(t) == Pending(s)[1..];
  }

  /** Everything but the ring itself may change without affecting what is pending. */
  lemma SameRing(s: Slot, t: Slot)
    requires s.numPending == t.numPending && s.rd == t.rd && s.wr == t.wr && s.call == t.call
    ensures Pending(s) == Pending(t)
    ensures forall m :: SlotOk(s, m) && t.numSent <= t.numPending ==> SlotOk(t, m)
  {
    forall k | 0 <= k < s.numPending ensures Pending(s)[k] == Pending(t)[k] {}
  }

  lemma EmptySlotOk(maxPiped: nat)
    requires maxPiped <= MAX_PIPED
    ensures SlotOk(EMPTY_SLOT, maxPiped) && Pending(EMPTY_SLOT) == []
  {
  }
}
