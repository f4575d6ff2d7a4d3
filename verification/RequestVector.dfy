/** core.c: sending a request from a vector of fragments, with partial writes. */
module RequestVector {
  import opened Sequences
  import opened Wrappers

  /** struct iovec: len bytes of memory from base on. */
  datatype Fragment = Fragment(base: nat, len: nat)

  ghost predicate InMemory(f: Fragment, memory: seq<Byte>) { f.base + f.len <= |memory| }

  function Bytes(f: Fragment, memory: seq<Byte>): (b: seq<Byte>)
    requires InMemory(f, memory)
    ensures |b| == f.len
  {
    memory[f.base..f.base + f.len]
  }

  ghost predicate AllInMemory(fs: seq<Fragment>, memory: seq<Byte>) {
    forall i :: 0 <= i < |fs| ==> InMemory(fs[i], memory)
  }

  /** The contents of the fragments, one after the other. */
  ghost function Contents(fs: seq<Fragment>, memory: seq<Byte>): seq<Byte>
    requires AllInMemory(fs, memory)
  {
    if fs == [] then [] else Bytes(fs[0], memory) + Contents(fs[1..], memory)
  }

  /** What is left of f after n bytes. */
  function Tail(f: Fragment, n: nat): Fragment
    requires n <= f.len
  {
    Fragment(f.base + n, f.len - n)
  }

  lemma TailBytes(f: Fragment, n: nat, memory: seq<Byte>)
    requires InMemory(f, memory) && n <= f.len
    ensures InMemory(Tail(f, n), memory)
    ensures Bytes(f, memory) == Bytes(f, memory)[..n] + Bytes(Tail(f, n), memory)
  {
  }

  /** What is still to be written: the rest of fragment index, of which part is gone, and the others. */
  ghost function Remaining(fs: seq<Fragment>, index: nat, part: nat, memory: seq<Byte>): seq<Byte>
    requires AllInMemory(fs, memory) && index <= |fs| && (index < |fs| ==> part <= fs[index].len)
  {
    if index == |fs| then [] else Bytes(Tail(fs[index], part), memory) + Contents(fs[index + 1..], memory)
  }

  lemma RemainingStart(fs: seq<Fragment>, index: nat, memory: seq<Byte>)
    requires AllInMemory(fs, memory) && index <= |fs|
    ensures Remaining(fs, index, 0, memory) == Contents(fs[index..], memory)
  {
    if index < |fs| {
      assert fs[index..][1..] == fs[index + 1..];
      assert Tail(fs[index], 0) == fs[index];
    } else {
      assert fs[index..] == [];
    }
  }

  lemma NothingLeft(fs: seq<Fragment>, index: nat, part: nat, memory: seq<Byte>)
    requires AllInMemory(fs, memory) && index <= |fs| && (index < |fs| ==> part <= fs[index].len)
    ensures index == |fs| ==> Remaining(fs, index, part, memory) == []
  {
  }

  /** Writing the whole rest of the current fragment. */
  lemma TakeFragment(fs: seq<Fragment>, index: nat, part: nat, memory: seq<Byte>)
    requires AllInMemory(fs, memory) && index < |fs| && part <= fs[index].len
    ensures Remaining(fs, index, part, memory)
            == Bytes(Tail(fs[index], part), memory) + Remaining(fs, index + 1, 0, memory)
  {
    RemainingStart(fs, index + 1, memory);
  }

  /** Writing some bytes of the current fragment. */
  lemma TakeBytes(fs: seq<Fragment>, index: nat, part: nat, n: nat, memory: seq<Byte>)
    requires AllInMemory(fs, memory) && index < |fs| && part + n <= fs[index].len
    ensures Remaining(fs, index, part, memory)
            == Bytes(Tail(fs[index], part), memory)[..n] + Remaining(fs, index, part + n, memory)
  {
    hide Contents;
    TailBytes(Tail(fs[index], part), n, memory);
    assert Tail(Tail(fs[index], part), n) == Tail(fs[index], part + n);
    hide Bytes, Tail;
    Join(Bytes(Tail(fs[index], part), memory)[..n], Bytes(Tail(fs[index], part + n), memory),
        Contents(fs[index + 1..], memory));
  }

  // ---- what core_send sets up ----

  const IE_PROTL := 4
  const IE_HOST := 5
  const IE_FIRST_HEADER := 7
  const MAX_EXTRA_HEADERS := 4
  const IE_LEN := 13

  /**
   What core_send puts into the vector: the protocol line of the call's version, the connection's
   host name, an empty host under no_host_hdr, and the Client-Id header of the call statistics.
   Address 0 is the null pointer.
   */
  datatype Setup = Setup(noHostHdr: bool, empty: Fragment, protocol: Fragment, hostname: Fragment,
      idHdr: Option<Fragment>)

  ghost predicate GoodSetup(s: Setup, memory: seq<Byte>) {
    && InMemory(s.empty, memory) && InMemory(s.protocol, memory) && InMemory(s.hostname, memory)
    && s.empty.len == 0 && s.hostname.base != 0
    && (s.idHdr.Some? ==> InMemory(s.idHdr.value, memory))
  }

  /** The vector as core_send leaves it, when extra additional headers were there before. */
  function Prepared(fs: seq<Fragment>, extra: nat, s: Setup): (r: seq<Fragment>)
    requires |fs| == IE_LEN
    ensures |r| == IE_LEN
  {
    var withId := if s.idHdr.Some? && extra < MAX_EXTRA_HEADERS then fs[IE_FIRST_HEADER + extra := s.idHdr.value]
        else fs;
    var withHost :=
      if s.noHostHdr then withId[IE_HOST := s.empty]
      else if withId[IE_HOST].base == 0 then withId[IE_HOST := s.hostname]
      else withId;
    withHost[IE_PROTL := s.protocol]
  }

  /** What core_send would put there is there already. */
  predicate SetUp(fs: seq<Fragment>, s: Setup)
    requires |fs| == IE_LEN
  {
    fs[IE_PROTL] == s.protocol && if s.noHostHdr then fs[IE_HOST] == s.empty else fs[IE_HOST].base != 0
  }

  class Request {
    const memory: seq<Byte>
    const iov: array<Fragment>
    /** req.iov_index, req.iov_saved, req.size and req.num_extra_hdrs. */
    var index: nat
    var saved: Fragment
    var size: nat
    var numExtraHdrs: nat

    /** The fragments as they were set up, and how much of the current one is written. */
    ghost var original: seq<Fragment>
    ghost var part: nat
    /** The bytes written since the request was queued, and the size counted before. */
    ghost var sent: seq<Byte>
    ghost var sizeBefore: nat

    /** All fragments but the current one are as set up; saved keeps the current one. */
    ghost predicate Placed()
      reads this, iov
    {
      && iov.Length == |original| && index <= iov.Length && AllInMemory(original, memory)
      && (forall i :: 0 <= i < iov.Length && i != index ==> iov[i] == original[i])
      && (index < iov.Length ==>
            saved == original[index] && (part == 0 || part < saved.len) && iov[index] == Tail(saved, part))
    }

    /** The bytes still in the vector. */
    ghost function Left(): seq<Byte>
      requires Placed()
      reads this, iov
    {
      Remaining(original, index, part, memory)
    }

    ghost predicate Valid()
      reads this, iov
    {
      Placed() && sent + Left() == Contents(original, memory) && size == sizeBefore + |sent|
    }

    /** call_append_request_header; with all places taken the header is left out. */
    method AppendHeader(hdr: Fragment)
      requires iov.Length == IE_LEN
      modifies this`numExtraHdrs, iov
      ensures iov[..] == if old(numExtraHdrs) < MAX_EXTRA_HEADERS
              then old(iov[..])[IE_FIRST_HEADER + old(numExtraHdrs) := hdr]
                         else old(iov[..])
      ensures numExtraHdrs == if old(numExtraHdrs) < MAX_EXTRA_HEADERS then old(numExtraHdrs) + 1 else old(numExtraHdrs)
    {
      if numExtraHdrs < MAX_EXTRA_HEADERS {
        iov[IE_FIRST_HEADER + numExtraHdrs] := hdr;
        numExtraHdrs := numExtraHdrs + 1;
      }
    }

    /** core_send: what it sets up anew replaces what was there, cut or not; the rest is sent as it stands. */
    method CoreSend(s: Setup)
      requires iov.Length == IE_LEN && AllInMemory(iov[..], memory) && GoodSetup(s, memory)
      modifies this, iov
      ensures Valid() && sent == [] && index == 0 && part == 0 && size == old(size)
      ensures original == Prepared(old(iov[..]), old(numExtraHdrs), s) && SetUp(original, s)
      ensures s.idHdr.None? ==> numExtraHdrs == old(numExtraHdrs)
    {
      if s.idHdr.Some? {
        AppendHeader(s.idHdr.value);
      }
      if s.noHostHdr {
        iov[IE_HOST] := s.empty;
      } else if iov[IE_HOST].base == 0 {
        iov[IE_HOST] := s.hostname;
      }
      iov[IE_PROTL] := s.protocol;
      assert iov[..] == Prepared(old(iov[..]), old(numExtraHdrs), s);
      Queue();
    }

    constructor (memory: seq<Byte>, fragments: seq<Fragment>)
      requires fragments != [] && AllInMemory(fragments, memory)
      ensures Valid() && fresh(iov) && original == fragments && sent == [] && index == 0 && size == 0
              && this.memory == memory
    {
      this.memory := memory;
      iov := new Fragment[|fragments|](i requires 0 <= i < |fragments| => fragments[i]);
      index, saved, size, numExtraHdrs := 0, fragments[0], 0, 0;
      original, part, sent, sizeBefore := fragments, 0, [], 0;
      new;
      assert Tail(fragments[0], 0) == fragments[0];
      RemainingStart(fragments, 0, memory);
      assert fragments[0..] == fragments;
    }

    /** The end of core_send: queues whatever the vector holds now. */
    method Queue()
      requires iov.Length > 0 && AllInMemory(iov[..], memory)
      modifies this
      ensures Valid() && original == iov[..] && sent == [] && index == 0 && part == 0 && size == old(size)
      ensures numExtraHdrs == old(numExtraHdrs)
    {
      index := 0;
      saved := iov[0];
      original, part, sent, sizeBefore := iov[..], 0, [], size;
      assert Tail(original[0], 0) == original[0];
      RemainingStart(original, 0, memory);
      assert original[0..] == original;
    }

    /** The current fragment was written to its end. */
    method FinishFragment(beyond: Fragment) returns (ghost block: seq<Byte>)
      requires Placed() && index < iov.Length
      modifies this`index, this`saved, this`part, iov
      ensures Placed() && index == old(index) + 1 && part == 0
      ensures |block| == old(iov[index].len) && old(Left()) == block + Left()
    {
      block := Bytes(Tail(original[index], part), memory);
      TakeFragment(original, index, part, memory);
      iov[index] := saved;
      index := index + 1;
      part := 0;
      saved := if index < iov.Length then iov[index] else beyond;
    }

    /** Only n bytes of the current fragment were written. */
    method WriteBytes(n: nat) returns (ghost block: seq<Byte>)
      requires Placed() && index < iov.Length && n < iov[index].len
      modifies this`part, iov
      ensures Placed() && part == old(part) + n
      ensures |block| == n && old(Left()) == block + Left()
    {
      assert InMemory(original[index], memory);
      hide Contents, Bytes, Remaining, AllInMemory;
      block := Bytes(Tail(original[index], part), memory)[..n];
      TakeBytes(original, index, part, n, memory);
      iov[index] := Fragment(iov[index].base + n, iov[index].len - n);
      part := part + n;
    }

    /**
     do_send after writev has written nsent bytes. The bytes written and those still in the vector
     are the request; when all is written, the vector is as it was set up. The last fragment
     finished, what lies behind the vector is copied to saved.
     */
    method Wrote(nsent: nat, beyond: Fragment)
      requires Valid() && nsent <= |Left()|
      modifies this, iov
      ensures Valid() && original == old(original) && size == old(size) + nsent && sizeBefore == old(sizeBefore)
      ensures numExtraHdrs == old(numExtraHdrs)
      ensures sent == old(sent) + old(Left())[..nsent]
      ensures index >= old(index) && (index == old(index) < iov.Length ==> part == old(part) + nsent)
      ensures index == iov.Length ==> iov[..] == original && sent == Contents(original, memory)
    {
      hide Remaining, Contents, Tail, Bytes, AllInMemory;
      var left: nat := nsent;
      size := size + nsent;
      ghost var written: seq<Byte> := [];
      ghost var all := Left();
      while index < iov.Length
        invariant Placed() && original == old(original) && numExtraHdrs == old(numExtraHdrs)
        invariant sent == old(sent) && sizeBefore == old(sizeBefore) && size == old(size) + nsent
        invariant old(index) <= index && (index == old(index) ==> part == old(part) && left == nsent)
        invariant written + Left() == all && |written| + left == nsent
      {
        ghost var block;
        if left < iov[index].len {
          block := WriteBytes(left);
          Join(written, block, Left());
          written := written + block;
          left := 0;
          break;
        } else {
          left := left - iov[index].len;
          block := FinishFragment(beyond);
          Join(written, block, Left());
          written := written + block;
        }
      }
      NothingLeft(original, index, part, memory);
      Finish(old(sent), written, Left(), all, Contents(original, memory), nsent, left);
      sent := sent + written;
      assert index == iov.Length ==> iov[..] == original;
    }
  }

  /** The bytes written are the first nsent of those that were left. */
  lemma Finish(sent: seq<Byte>, written: seq<Byte>, rest: seq<Byte>, all: seq<Byte>, contents: seq<Byte>, nsent: nat,
               left: nat)
    requires written + rest == all && |written| + left == nsent <= |all| && sent + all == contents
    requires left == 0 || rest == []
    ensures left == 0 && written == all[..nsent] && (sent + written) + rest == contents
            && (rest == [] ==> sent + written == contents)
  {
  }

  ghost function Total(fs: seq<Fragment>): nat {
    if fs == [] then 0 else fs[0].len + Total(fs[1..])
  }

  lemma {:induction false} ContentsLength(fs: seq<Fragment>, memory: seq<Byte>)
    requires AllInMemory(fs, memory)
    ensures |Contents(fs, memory)| == Total(fs)
  {
    if fs != [] {
      ContentsLength(fs[1..], memory);
    }
  }

  lemma {:induction false} TotalWithout(fs: seq<Fragment>, i: nat, n: nat)
    requires i < |fs| && n <= fs[i].len
    ensures Total(fs[i := Tail(fs[i], n)]) == Total(fs) - n
  {
    if i > 0 {
      assert fs[i := Tail(fs[i], n)][1..] == fs[1..][i - 1 := Tail(fs[i], n)];
      TotalWithout(fs[1..], i - 1, n);
    } else {
      assert fs[0 := Tail(fs[0], n)][1..] == fs[1..];
    }
  }

  /** Where the vector stands: nowhere inside a fragment, or inside one that core_send sets up anew. */
  ghost predicate Restorable(index: nat, part: nat) {
    index == IE_LEN || part == 0 || index == IE_PROTL
  }

  /**
   A request whose connection failed is handed to core_send again as its vector stands. Without
   call statistics the whole request goes out again exactly when no fragment but the protocol line
   had been written in part.
   */
  lemma ResentWhole(r: Request, s: Setup)
    requires r.Valid() && r.iov.Length == IE_LEN && SetUp(r.original, s) && GoodSetup(s, r.memory) && s.idHdr.None?
    ensures AllInMemory(r.iov[..], r.memory) && AllInMemory(Prepared(r.iov[..], r.numExtraHdrs, s), r.memory)
    ensures Contents(Prepared(r.iov[..], r.numExtraHdrs, s), r.memory) == Contents(r.original, r.memory)
            <==> Restorable(r.index, r.part)
  {
    var again := Prepared(r.iov[..], r.numExtraHdrs, s);
    if r.index == IE_LEN || r.part == 0 || r.index == IE_PROTL || (s.noHostHdr && r.index == IE_HOST) {
      assert again == r.original;
    } else {
      assert again == r.original[r.index := Tail(r.original[r.index], r.part)];
      TotalWithout(r.original, r.index, r.part);
      ContentsLength(again, r.memory);
      ContentsLength(r.original, r.memory);
    }
  }

  /**
   With call statistics each core_send adds a header as long as there is a place for it, so that a
   request is never the same the second time, unless it was cut as well.
   */
  lemma StatisticsGrow(r: Request, s: Setup, hdr: Fragment)
    requires r.Valid() && r.iov.Length == IE_LEN && SetUp(r.original, s) && GoodSetup(s, r.memory)
    requires s.idHdr == Some(hdr) && hdr.len > 0 && r.numExtraHdrs < MAX_EXTRA_HEADERS
    requires r.original[IE_FIRST_HEADER + r.numExtraHdrs].len == 0 && Restorable(r.index, r.part)
    ensures AllInMemory(Prepared(r.iov[..], r.numExtraHdrs, s), r.memory)
    ensures |Contents(Prepared(r.iov[..], r.numExtraHdrs, s), r.memory)| == |Contents(r.original, r.memory)| + hdr.len
  {
    var again, i := Prepared(r.iov[..], r.numExtraHdrs, s), IE_FIRST_HEADER + r.numExtraHdrs;
    assert again == r.original[i := hdr];
    assert r.original == again[i := r.original[i]];
    TotalReplaced(r.original, i, hdr);
    ContentsLength(again, r.memory);
    ContentsLength(r.original, r.memory);
  }

  lemma {:induction false} TotalReplaced(fs: seq<Fragment>, i: nat, f: Fragment)
    requires i < |fs|
    ensures Total(fs[i := f]) + fs[i].len == Total(fs) + f.len
  {
    if i > 0 {
      assert fs[i := f][1..] == fs[1..][i - 1 := f];
      TotalReplaced(fs[1..], i - 1, f);
    } else {
      assert fs[0 := f][1..] == fs[1..];
    }
  }

  /** The number of bytes sent tells where the vector stands. */
  lemma {:induction false} RemainingLength(fs: seq<Fragment>, index: nat, part: nat, memory: seq<Byte>)
    requires AllInMemory(fs, memory) && index <= |fs| && (index < |fs| ==> part <= fs[index].len)
    ensures Total(fs[..index]) + (if index < |fs| then part else 0) + |Remaining(fs, index, part, memory)| == Total(fs)
  {
    if index == |fs| {
      assert fs[..index] == fs;
    } else if index == 0 {
      ContentsLength(fs[1..], memory);
    } else {
      RemainingLength(fs[1..], index - 1, part, memory);
      assert fs[..index][1..] == fs[1..][..index - 1];
      assert fs[1..][index - 1 + 1..] == fs[index + 1..];
    }
  }

  lemma {:induction false} TotalNext(fs: seq<Fragment>, i: nat)
    requires i < |fs|
    ensures Total(fs[..i + 1]) == Total(fs[..i]) + fs[i].len
  {
    if i == 0 {
      assert fs[..1] == [fs[0]];
      assert Total([fs[0]]) == fs[0].len + Total([fs[0]][1..]);
    } else {
      assert fs[..i + 1][1..] == fs[1..][..i] && fs[..i][1..] == fs[1..][..i - 1];
      TotalNext(fs[1..], i - 1);
    }
  }

  lemma {:induction false} TotalMonotone(fs: seq<Fragment>, i: nat, j: nat)
    requires i <= j <= |fs|
    ensures Total(fs[..i]) <= Total(fs[..j])
  {
    if i > 0 {
      assert fs[..i][1..] == fs[1..][..i - 1] && fs[..j][1..] == fs[1..][..j - 1];
      TotalMonotone(fs[1..], i - 1, j - 1);
    }
  }

  function Sum(ns: seq<nat>): nat {
    if ns == [] then 0 else Sum(ns[..|ns| - 1]) + ns[|ns| - 1]
  }

  lemma SumPrefix(ns: seq<nat>, i: nat)
    requires i < |ns|
    ensures Sum(ns[..i + 1]) == Sum(ns[..i]) + ns[i]
  {
    assert ns[..i + 1][..i] == ns[..i];
  }

  lemma {:induction false} SumGrows(ns: seq<nat>, i: nat)
    requires i <= |ns|
    ensures Sum(ns[..i]) <= Sum(ns)
    decreases |ns| - i
  {
    if i == |ns| {
      assert ns[..i] == ns;
    } else {
      SumPrefix(ns, i);
      SumGrows(ns, i + 1);
    }
  }

  lemma TakeMore(sent: seq<Byte>, all: seq<Byte>, sent': seq<Byte>, rest': seq<Byte>, now: seq<Byte>,
                 contents: seq<Byte>, a: nat, n: nat)
    requires a + n <= |all| && sent' == sent + all[..a] && sent' + rest' == contents == sent + all && n <= |rest'|
    requires now == sent' + rest'[..n]
    ensures now == sent + all[..a + n]
  {
    assert now == contents[..|sent'| + n];
    assert sent + all[..a + n] == contents[..|sent| + a + n];
  }

  /**
   Any sequence of writes: the bytes sent are the first bytes of the request, none lost and none
   repeated, and when it is complete the vector is as it was set up.
   */
  method WriteAll(r: Request, results: seq<nat>, beyond: Fragment)
    requires r.Valid() && Sum(results) <= |r.Left()|
    modifies r, r.iov
    ensures r.Valid() && r.original == old(r.original) && r.size == old(r.size) + Sum(results)
    ensures r.numExtraHdrs == old(r.numExtraHdrs)
    ensures r.sent == old(r.sent) + old(r.Left())[..Sum(results)]
    ensures r.index == r.iov.Length ==> r.iov[..] == r.original && r.sent == Contents(r.original, r.memory)
    ensures Sum(results) == |old(r.Left())| ==> r.sent == Contents(r.original, r.memory)
  {
    hide Contents, Remaining, Tail, Bytes, AllInMemory;
    ghost var all, before := r.Left(), r.sent;
    assert r.sent == before + all[..0];
    var i := 0;
    while i < |results|
      invariant 0 <= i <= |results| && r.Valid() && r.original == old(r.original)
      invariant r.numExtraHdrs == old(r.numExtraHdrs)
      invariant Sum(results[..i]) <= |all| && r.size == old(r.size) + Sum(results[..i])
      invariant r.sent == before + all[..Sum(results[..i])]
      invariant r.index == r.iov.Length ==> r.iov[..] == r.original
    {
      SumPrefix(results, i);
      SumGrows(results, i + 1);
      ghost var sent', rest' := r.sent, r.Left();
      r.Wrote(results[i], beyond);
      TakeMore(before, all, sent', rest', r.sent, Contents(r.original, r.memory), Sum(results[..i]), results[i]);
      i := i + 1;
    }
    assert results[..i] == results;
    assert all[..|all|] == all;
    NothingLeft(r.original, r.index, r.part, r.memory);
    assert r.Left() == [] ==> r.sent + r.Left() == r.sent;
  }

  /** After n bytes a fragment has just been finished. */
  ghost predicate AtBoundary(fs: seq<Fragment>, n: nat) {
    exists i :: 0 <= i <= |fs| && n == Total(fs[..i])
  }

  /** After n bytes the vector stands at a boundary or in the protocol line. */
  ghost predicate WholeAgain(fs: seq<Fragment>, n: nat)
    requires |fs| == IE_LEN
  {
    AtBoundary(fs, n) || Total(fs[..IE_PROTL]) <= n < Total(fs[..IE_PROTL + 1])
  }

  /** Where the vector stands after n bytes, told by their number. */
  lemma StandsAt(fs: seq<Fragment>, index: nat, part: nat, n: nat)
    requires |fs| == IE_LEN && index <= IE_LEN && (index < IE_LEN ==> part == 0 || part < fs[index].len)
    requires n == Total(fs[..index]) + if index < IE_LEN then part else 0
    ensures Restorable(index, part) <==> WholeAgain(fs, n)
  {
    if index < IE_LEN {
      TotalNext(fs, index);
    }
    if index == IE_LEN || part == 0 {
      assert AtBoundary(fs, n);
    } else if index != IE_PROTL {
      NotAtBoundary(fs, index, n);
      if index < IE_PROTL {
        TotalMonotone(fs, index + 1, IE_PROTL);
      } else {
        TotalMonotone(fs, IE_PROTL + 1, index);
      }
    }
  }

  lemma NotAtBoundary(fs: seq<Fragment>, index: nat, n: nat)
    requires index < |fs| && Total(fs[..index]) < n < Total(fs[..index + 1])
    ensures !AtBoundary(fs, n)
  {
    forall i | 0 <= i <= |fs| ensures n != Total(fs[..i]) {
      if i <= index {
        TotalMonotone(fs, i, index);
      } else {
        TotalMonotone(fs, index + 1, i);
      }
    }
  }

  /** The bytes sent so far tell where the vector stands. */
  lemma SentSoFar(r: Request)
    requires r.Valid() && r.iov.Length == IE_LEN
    ensures |r.sent| == Total(r.original[..r.index]) + if r.index < IE_LEN then r.part else 0
  {
    RemainingLength(r.original, r.index, r.part, r.memory);
    ContentsLength(r.original, r.memory);
  }

  /**
   Any writes of a request, a failure, and core_send again: what is to be sent then is the whole
   request if and only if the bytes written ended between two fragments or in the protocol line.
   */
  method CutAndResend(r: Request, results: seq<nat>, beyond: Fragment, s: Setup)
    requires r.Valid() && r.iov.Length == IE_LEN && r.sent == [] && Sum(results) <= |r.Left()|
    requires SetUp(r.original, s) && GoodSetup(s, r.memory) && s.idHdr.None?
    modifies r, r.iov
    ensures r.Valid() && r.sent == []
    ensures r.Left() == old(Contents(r.original, r.memory)) <==> WholeAgain(old(r.original), Sum(results))
  {
    hide Contents, Remaining, Tail, Bytes, Total, WholeAgain, Restorable, Prepared, SetUp, GoodSetup;
    WriteAll(r, results, beyond);
    SentSoFar(r);
    StandsAt(r.original, r.index, r.part, Sum(results));
    ResentWhole(r, s);
    r.CoreSend(s);
    assert [] + r.Left() == r.Left();
  }
}
