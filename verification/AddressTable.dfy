/** core.c: the table of resolved addresses, an open-addressing hash table with linear probing. */
module AddressTable {
  import opened Finite
  import opened Wrappers

  const HASH_TABLE_SIZE := 1024

  type HostByte = b: int | 0 < b < 256 witness 1
  type Host = seq<HostByte>

  // ---- hash_code ----

  /** One character of the ELF hash, in a machine word of 64 bits. */
  function HashStep(h: bv64, ch: bv64): bv64 {
    var h1 := (h << 4) + ch;
    var g := h1 & 0xf000_0000;
    if g != 0 then (h1 ^ (g >> 24)) & !g else h1
  }

  lemma TopNibbleClear(h: bv64, ch: bv64)
    ensures HashStep(h, ch) & 0xf000_0000 == 0
  {
  }

  function Hash(host: Host, h: bv64): bv64
    decreases |host|
  {
    if host == [] then h else Hash(host[1..], HashStep(h, host[0] as bv64))
  }

  /** A signed 32-bit number as an unsigned 64-bit one. */
  function FromInt(port: int): bv64
    requires -0x8000_0000 <= port < 0x8000_0000
  {
    if port >= 0 then port as bv64 else (0x1_0000_0000_0000_0000 + port) as bv64
  }

  /** ... and back: the low 32 bits, signed. */
  function ToInt(h: bv64): int {
    var low := (h & 0xffff_ffff) as int;
    if low < 0x8000_0000 then low else low - 0x1_0000_0000
  }

  /** hash_code; with no character to add, the port comes back as it went in. */
  function HashCode(host: Host, port: int): int
    requires -0x8000_0000 <= port < 0x8000_0000
  {
    if host == [] then port else ToInt(Hash(host, FromInt(port)))
  }

  /** The remainder as C takes it: with the sign of the dividend. */
  function Rem(n: int, m: nat): int
    requires m > 0
  {
    if n >= 0 then n % m else -(-n % m)
  }

  lemma {:induction false} HashClear(host: Host, h: bv64)
    requires host != [] || h & 0xf000_0000 == 0
    ensures Hash(host, h) & 0xf000_0000 == 0
    decreases |host|
  {
    if host != [] {
      TopNibbleClear(h, host[0] as bv64);
      HashClear(host[1..], HashStep(h, host[0] as bv64));
    }
  }

  lemma LowBits(h: bv64)
    requires h & 0xf000_0000 == 0
    ensures 0 <= ToInt(h) < 0x1000_0000
  {
    assert h & 0xffff_ffff < 0x1000_0000;
  }

  /**
   The index is within the table for every host that has a character, whatever the port; for the
   empty host it is exactly when the port is not negative, or a multiple of the table size.
   */
  lemma IndexInRange(host: Host, port: int)
    requires -0x8000_0000 <= port < 0x8000_0000
    ensures host != [] ==> 0 <= HashCode(host, port) < 0x1000_0000
    ensures 0 <= Rem(HashCode(host, port), HASH_TABLE_SIZE) < HASH_TABLE_SIZE
            <==> host != [] || port >= 0 || port % HASH_TABLE_SIZE == 0
  {
    if host != [] {
      HashClear(host, FromInt(port));
      LowBits(Hash(host, FromInt(port)));
    }
  }

  // ---- the table ----

  /** An entry of the table; sin stands for the resolved address. */
  datatype Entry = Entry(host: Host, port: int, sin: int)

  predicate Known(host: Host, port: int) {
    -0x8000_0000 <= port < 0x8000_0000 && (host != [] || port >= 0 || port % HASH_TABLE_SIZE == 0)
  }

  function Home(host: Host, port: int): (h: nat)
    requires Known(host, port)
    ensures h < HASH_TABLE_SIZE
  {
    IndexInRange(host, port);
    Rem(HashCode(host, port), HASH_TABLE_SIZE)
  }

  /** The slot d steps behind slot h, around the end of the table. */
  function Probe(h: nat, d: nat): (s: nat)
    requires h < HASH_TABLE_SIZE
    ensures s < HASH_TABLE_SIZE
  {
    (h + d) % HASH_TABLE_SIZE
  }

  /** How far slot s is behind slot h. */
  function Distance(h: nat, s: nat): (d: nat)
    requires h < HASH_TABLE_SIZE && s < HASH_TABLE_SIZE
    ensures d < HASH_TABLE_SIZE && Probe(h, d) == s
  {
    if s >= h then s - h else s + HASH_TABLE_SIZE - h
  }

  lemma ProbeOnce(h: nat, d: nat, e: nat)
    requires h < HASH_TABLE_SIZE && d < HASH_TABLE_SIZE && e < HASH_TABLE_SIZE && Probe(h, d) == Probe(h, e)
    ensures d == e
  {
  }

  predicate Matches(e: Entry, host: Host, port: int) { e.port == port && e.host == host }

  /** What a lookup is to find: the first entry made for host and port. */
  function FirstMade(log: seq<Entry>, host: Host, port: int): (r: Option<nat>)
    ensures r.Some? ==> r.value < |log|
  {
    if log == [] then None
    else match FirstMade(log[..|log| - 1], host, port)
      case Some(k) => Some(k)
      case None => if Matches(log[|log| - 1], host, port) then Some(|log| - 1) else None
  }

  lemma {:induction false} FirstMadeIs(log: seq<Entry>, host: Host, port: int)
    ensures match FirstMade(log, host, port)
            case None => forall k :: 0 <= k < |log| ==> !Matches(log[k], host, port)
            case Some(k) =>
              && k < |log| && Matches(log[k], host, port)
              && forall j :: 0 <= j < k ==> !Matches(log[j], host, port)
  {
    if log != [] {
      FirstMadeIs(log[..|log| - 1], host, port);
    }
  }

  /**
   slots[s] holds entry owner[s] of the log; entry k sits in slot place[k], and every slot between
   its home and its place holds an earlier entry.
   */
  ghost predicate Probed(slots: seq<Option<Entry>>, log: seq<Entry>, place: seq<nat>) {
    && |slots| == HASH_TABLE_SIZE && |place| == |log|
    && (forall k :: 0 <= k < |log| ==>
          Known(log[k].host, log[k].port) && place[k] < HASH_TABLE_SIZE && slots[place[k]] == Some(log[k]))
    && (forall s :: 0 <= s < |slots| && slots[s].Some? ==> Owned(place, s))
    && (forall k, d: nat :: 0 <= k < |log| && d < Distance(Home(log[k].host, log[k].port), place[k]) ==>
          EarlierAt(place, Probe(Home(log[k].host, log[k].port), d), k))
  }

  ghost predicate Owned(place: seq<nat>, s: nat) { exists k :: 0 <= k < |place| && place[k] == s }

  ghost predicate EarlierAt(place: seq<nat>, s: nat, k: nat) { exists j :: 0 <= j < k && j < |place| && place[j] == s }

  /** The first d slots from home h on are taken. */
  ghost predicate Taken(slots: seq<Option<Entry>>, h: nat, d: nat)
    requires |slots| == HASH_TABLE_SIZE && h < HASH_TABLE_SIZE
  {
    forall e: nat :: e < d ==> slots[Probe(h, e)].Some?
  }

  /** ... by entries of other names. */
  ghost predicate TakenByOthers(slots: seq<Option<Entry>>, h: nat, d: nat, host: Host, port: int)
    requires |slots| == HASH_TABLE_SIZE && h < HASH_TABLE_SIZE
  {
    forall e: nat :: e < d ==> slots[Probe(h, e)].Some? && !Matches(slots[Probe(h, e)].value, host, port)
  }

  class Table {
    const slots: array<Option<Entry>>
    ghost var log: seq<Entry>
    ghost var place: seq<nat>

    ghost predicate Valid()
      reads this, slots
    {
      slots.Length == HASH_TABLE_SIZE && Probed(slots[..], log, place)
    }

    constructor ()
      ensures Valid() && fresh(slots) && log == []
    {
      slots := new Option<Entry>[HASH_TABLE_SIZE](_ => None);
      log, place := [], [];
    }

    /** The walk of hash_enter to the first free slot. */
    method FindFree(host: Host, port: int) returns (index: nat, ghost d: nat)
      requires Valid() && Known(host, port) && |log| < HASH_TABLE_SIZE
      ensures d < HASH_TABLE_SIZE && index == Probe(Home(host, port), d) < slots.Length && slots[index] == None
      ensures Taken(slots[..], Home(host, port), d)
    {
      hide Home, Known, Probed;
      ghost var h := Home(host, port);
      FreeSlot(slots[..], log, place);
      ghost var s :| 0 <= s < slots.Length && slots[s] == None;
      d := 0;
      index := Home(host, port);
      while slots[index].Some?
        invariant index < slots.Length && index == Probe(h, d) && d <= Distance(h, s)
        invariant Taken(slots[..], h, d)
        decreases Distance(h, s) - d
      {
        index := index + 1;
        if index >= HASH_TABLE_SIZE {
          index := 0;
        }
        d := d + 1;
      }
    }

    /** hash_enter, as long as the table is not full. */
    method Enter(host: Host, port: int, sin: int) returns (index: nat)
      requires Valid() && Known(host, port) && |log| < HASH_TABLE_SIZE
      modifies this, slots
      ensures Valid() && log == old(log) + [Entry(host, port, sin)]
      ensures index < slots.Length && slots[..] == old(slots[..])[index := Some(Entry(host, port, sin))]
    {
      hide Home, Known, Probed, Taken, Probe;
      ghost var d;
      index, d := FindFree(host, port);
      EnterProbed(slots[..], log, place, Entry(host, port, sin), d);
      slots[index] := Some(Entry(host, port, sin));
      log := log + [Entry(host, port, sin)];
      place := place + [index];
    }

    /** hash_lookup */
    method Lookup(host: Host, port: int) returns (sin: Option<int>)
      requires Valid() && Known(host, port)
      ensures sin == match FirstMade(log, host, port) { case None => None case Some(k) => Some(log[k].sin) }
    {
      hide Home, Known, Probed, FirstMade;
      var startIndex := Home(host, port);
      var index := startIndex;
      ghost var d: nat := 0;
      while slots[index].Some?
        invariant index < slots.Length && index == Probe(startIndex, d) && d < HASH_TABLE_SIZE
        invariant TakenByOthers(slots[..], startIndex, d, host, port)
        decreases HASH_TABLE_SIZE - d
      {
        if slots[index].value.port == port && slots[index].value.host == host {
          FoundFirst(slots[..], log, place, host, port, d);
          return Some(slots[index].value.sin);
        }
        index := index + 1;
        if index >= HASH_TABLE_SIZE {
          index := 0;
        }
        d := d + 1;
        if index == startIndex {
          break;
        }
      }
      NotFound(slots[..], log, place, host, port, d);
      return None;
    }
  }

  /** With fewer entries than slots, a slot is free. */
  lemma FreeSlot(slots: seq<Option<Entry>>, log: seq<Entry>, place: seq<nat>)
    requires Probed(slots, log, place) && |log| < HASH_TABLE_SIZE
    ensures exists s :: 0 <= s < |slots| && slots[s] == None
  {
    hide Home, Known;
    if forall s :: 0 <= s < |slots| ==> slots[s].Some? {
      forall s | s in UpTo(HASH_TABLE_SIZE) ensures s in Values(place) {
        assert slots[s].Some?;
      }
      SubsetSize(UpTo(HASH_TABLE_SIZE), Values(place));
      assert false;
    }
  }

  /** A new entry in the first free slot behind its home. */
  lemma EnterProbed(slots: seq<Option<Entry>>, log: seq<Entry>, place: seq<nat>, e: Entry, d: nat)
    requires Probed(slots, log, place) && Known(e.host, e.port) && d < HASH_TABLE_SIZE
    requires var h := Home(e.host, e.port);
             |slots| == HASH_TABLE_SIZE && slots[Probe(h, d)] == None && Taken(slots, h, d)
    ensures var s := Probe(Home(e.host, e.port), d);
            Probed(slots[s := Some(e)], log + [e], place + [s])
  {
    hide Home, Known;
    var h := Home(e.host, e.port);
    var s := Probe(h, d);
    var slots', log', place' := slots[s := Some(e)], log + [e], place + [s];
    ProbeOnce(h, d, Distance(h, s));
    forall t | 0 <= t < |slots'| && slots'[t].Some? ensures Owned(place', t) {
      if t == s {
        assert place'[|log|] == s;
      } else {
        var k :| 0 <= k < |place| && place[k] == t;
        assert place'[k] == t;
      }
    }
    forall k, f: nat | 0 <= k < |log'| && f < Distance(Home(log'[k].host, log'[k].port), place'[k])
      ensures EarlierAt(place', Probe(Home(log'[k].host, log'[k].port), f), k)
    {
      var t := Probe(Home(log'[k].host, log'[k].port), f);
      if k < |log| {
        assert EarlierAt(place, t, k);
        var j :| 0 <= j < k && j < |place| && place[j] == t;
        assert place'[j] == t;
      } else {
        assert slots[t].Some?;
        var j :| 0 <= j < |place| && place[j] == t;
        assert place'[j] == t;
      }
    }
  }

  /** The probe sequence meets the first entry made before any other of the same name. */
  lemma FoundFirst(slots: seq<Option<Entry>>, log: seq<Entry>, place: seq<nat>, host: Host, port: int, d: nat)
    requires Probed(slots, log, place) && Known(host, port) && d < HASH_TABLE_SIZE
    requires var h := Home(host, port);
             && |slots| == HASH_TABLE_SIZE && slots[Probe(h, d)].Some? && Matches(slots[Probe(h, d)].value, host, port)
             && TakenByOthers(slots, h, d, host, port)
    ensures FirstMade(log, host, port).Some? && FirstMade(log, host, port).value < |log|
    ensures log[FirstMade(log, host, port).value] == slots[Probe(Home(host, port), d)].value
  {
    FirstMadeIs(log, host, port);
    hide Home, Known, FirstMade;
    var h := Home(host, port);
    assert Owned(place, Probe(h, d));
    var i :| 0 <= i < |place| && place[i] == Probe(h, d);
    assert Matches(log[i], host, port);
    var k := FirstMade(log, host, port).value;
    NotPast(slots, log, place, host, port, d, k);
    NotBefore(slots, log, place, host, port, d, k, i);
  }

  /** Slots that hold other names only do not hold entry k. */
  lemma NotPast(slots: seq<Option<Entry>>, log: seq<Entry>, place: seq<nat>, host: Host, port: int, d: nat, k: nat)
    requires Probed(slots, log, place) && Known(host, port) && d <= HASH_TABLE_SIZE && k < |log|
             && Matches(log[k], host, port)
    requires TakenByOthers(slots, Home(host, port), d, host, port)
    ensures d <= Distance(Home(host, port), place[k])
  {
    hide Home, Known;
    if Distance(Home(host, port), place[k]) < d {
      assert false;
    }
  }

  /** A slot with an entry i of the same name is not in front of the place of the first one. */
  lemma NotBefore(slots: seq<Option<Entry>>, log: seq<Entry>, place: seq<nat>, host: Host, port: int, d: nat, k: nat,
                  i: nat)
    requires Probed(slots, log, place) && Known(host, port) && d < HASH_TABLE_SIZE && k < |log| && i < |log|
    requires Matches(log[k], host, port) && Matches(log[i], host, port) && place[i] == Probe(Home(host, port), d)
    requires forall j :: 0 <= j < k ==> !Matches(log[j], host, port)
    ensures Distance(Home(host, port), place[k]) <= d
  {
    hide Home, Known;
    var h := Home(host, port);
    if d < Distance(h, place[k]) {
      var j := Earlier(slots, log, place, k, d);
      assert false;
    }
  }

  lemma Earlier(slots: seq<Option<Entry>>, log: seq<Entry>, place: seq<nat>, k: nat, d: nat) returns (j: nat)
    requires Probed(slots, log, place) && k < |log| && d < Distance(Home(log[k].host, log[k].port), place[k])
    ensures j < k && place[j] == Probe(Home(log[k].host, log[k].port), d) && slots[place[j]] == Some(log[j])
  {
    hide Home, Known;
    assert EarlierAt(place, Probe(Home(log[k].host, log[k].port), d), k);
    j :| 0 <= j < k && j < |place| && place[j] == Probe(Home(log[k].host, log[k].port), d);
  }

  /** No entry of that name: the probe sequence met an empty slot, or the whole table. */
  lemma NotFound(slots: seq<Option<Entry>>, log: seq<Entry>, place: seq<nat>, host: Host, port: int, d: nat)
    requires Probed(slots, log, place) && Known(host, port) && d <= HASH_TABLE_SIZE
    requires var h := Home(host, port);
             && |slots| == HASH_TABLE_SIZE && (d < HASH_TABLE_SIZE ==> slots[Probe(h, d)] == None)
             && TakenByOthers(slots, h, d, host, port)
    ensures FirstMade(log, host, port) == None
  {
    FirstMadeIs(log, host, port);
    hide Home, Known, FirstMade;
    if FirstMade(log, host, port).Some? {
      var k := FirstMade(log, host, port).value;
      NotPast(slots, log, place, host, port, d, k);
      if d < Distance(Home(host, port), place[k]) {
        var j := Earlier(slots, log, place, k, d);
      }
      assert false;
    }
  }
}
