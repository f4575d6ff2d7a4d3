/**
 Reference counts seen as a multiset (the count of object c is its multiplicity)
 and the references held by a family of queues.
 */
module RefLedger {

  ghost function Held<T>(qs: seq<seq<T>>): multiset<T> {
    if qs == [] then multiset{} else Held(qs[..|qs| - 1]) + multiset(qs[|qs| - 1])
  }

  lemma {:induction false} HeldUpdate<T>(qs: seq<seq<T>>, i: nat, q: seq<T>)
    requires i < |qs|
    ensures Held(qs[i := q]) + multiset(qs[i]) == Held(qs) + multiset(q)
  {
    var n := |qs| - 1;
    if i == n {
      assert qs[i := q][..n] == qs[..n];
    } else {
      HeldUpdate(qs[..n], i, q);
      var rs := qs[i := q];
      assert rs[..n] == qs[..n][i := q];
      assert rs != [] && Held(rs) == Held(rs[..n]) + multiset(qs[n]);
      assert qs[..n][i] == qs[i];
      calc {
        Held(rs) + multiset(qs[i]);
        Held(rs[..n]) + multiset(qs[n]) + multiset(qs[i]);
        (Held(rs[..n]) + multiset(qs[i])) + multiset(qs[n]);
        (Held(qs[..n]) + multiset(q)) + multiset(qs[n]);
        Held(qs) + multiset(q);
      }
    }
  }

  /** A queue replaced by one with the same entries, one entry more, or one entry less. */
  lemma HeldChange<T>(qs: seq<seq<T>>, i: nat, q: seq<T>, c: T)
    requires i < |qs|
    ensures multiset(q) == multiset(qs[i]) ==> Held(qs[i := q]) == Held(qs)
    ensures multiset(q) == multiset(qs[i]) + multiset{c} ==> Held(qs[i := q]) == Held(qs) + multiset{c}
    ensures multiset(q) + multiset{c} == multiset(qs[i]) ==> Held(qs[i := q]) + multiset{c} == Held(qs)
  {
    HeldUpdate(qs, i, q);
    var h, h', m := Held(qs), Held(qs[i := q]), multiset(qs[i]);
    if multiset(q) == m {
      Cancel(h', h, m);
    } else if multiset(q) == m + multiset{c} {
      assert h + (m + multiset{c}) == (h + multiset{c}) + m;
      Cancel(h', h + multiset{c}, m);
    } else if multiset(q) + multiset{c} == m {
      assert h' + (multiset(q) + multiset{c}) == (h' + multiset{c}) + multiset(q);
      Cancel(h' + multiset{c}, h, multiset(q));
    }
  }

  lemma Cancel<T>(a: multiset<T>, b: multiset<T>, m: multiset<T>)
    requires a + m == b + m
    ensures a == b
  {
    forall x ensures a[x] == b[x] {
      assert (a + m)[x] == (b + m)[x];
    }
  }

  lemma HeldAppend<T>(qs: seq<seq<T>>, q: seq<T>)
    ensures Held(qs + [q]) == Held(qs) + multiset(q)
  {
    assert (qs + [q])[..|qs|] == qs;
  }

  lemma {:induction false} HeldIn<T>(qs: seq<seq<T>>, i: nat)
    requires i < |qs|
    ensures multiset(qs[i]) <= Held(qs)
  {
    if i < |qs| - 1 {
      HeldIn(qs[..|qs| - 1], i);
    }
  }

  lemma {:induction false} HeldFrom<T>(qs: seq<seq<T>>, c: T)
    requires Held(qs)[c] > 0
    ensures exists i :: 0 <= i < |qs| && c in qs[i]
  {
    var n := |qs| - 1;
    if c !in qs[n] {
      HeldFrom(qs[..n], c);
      var i :| 0 <= i < n && c in qs[..n][i];
      assert c in qs[i];
    }
  }

  lemma {:induction false} HeldNothing<T>(qs: seq<seq<T>>)
    requires forall i :: 0 <= i < |qs| ==> qs[i] == []
    ensures Held(qs) == multiset{}
  {
    if qs != [] {
      HeldNothing(qs[..|qs| - 1]);
    }
  }
}
