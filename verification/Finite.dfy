/** Counting finite sets. */
module Finite {

  /** The numbers below n. */
  function UpTo(n: nat): (v: set<int>)
    ensures |v| == n && forall s :: s in v <==> 0 <= s < n
  {
    if n == 0 then {} else UpTo(n - 1) + {n - 1}
  }

  /** The values of a sequence. */
  function Values(s: seq<int>): (v: set<int>)
    ensures |v| <= |s| && forall x :: x in v <==> x in s
  {
    if s == [] then {} else Values(s[1..]) + {s[0]}
  }

  lemma SubsetSize<T>(a: set<T>, b: set<T>)
    requires a <= b
    ensures |a| <= |b|
    decreases |b|
  {
    if a != {} {
      var x :| x in a;
      SubsetSize(a - {x}, b - {x});
    }
  }
}
