/**
 make_zipf.c: ranks of videos as a random permutation, its inverse, and the sampling, sorting and
 relabelling of sessions by rank. Random numbers are exact reals in [0, 1).
 */
module VideoRanks {
  import opened Finite

  ghost predicate Permutation(s: seq<int>) {
    (forall i :: 0 <= i < |s| ==> 0 <= s[i] < |s|) && (forall i, j :: 0 <= i < j < |s| ==> s[i] != s[j])
  }

  predicate Random(r: real) { 0.0 <= r < 1.0 }

  // ---- create_random_ranks ----

  /** random() / (1.0 + INT_MAX) * (i+1), truncated. */
  function Draw(r: real, i: nat): (j: nat)
    requires Random(r)
    ensures j <= i
  {
    assert r * ((i + 1) as real) < (i + 1) as real;
    (r * ((i + 1) as real)).Floor
  }

  /** The first loop: the inside-out shuffle. */
  method Shuffle(videoRank: array<int>, draws: seq<real>)
    requires |draws| == videoRank.Length && forall i :: 0 <= i < |draws| ==> Random(draws[i])
    modifies videoRank
    ensures Permutation(videoRank[..])
  {
    var i := 0;
    while i < videoRank.Length
      invariant 0 <= i <= videoRank.Length && Permutation(videoRank[..i])
    {
      var j := Draw(draws[i], i);
      ghost var before := videoRank[..i];
      videoRank[i] := videoRank[j];
      videoRank[j] := i;
      ShuffleStep(before, j, videoRank[..i + 1]);
      i := i + 1;
    }
    assert videoRank[..i] == videoRank[..];
  }

  lemma ShuffleStep(s: seq<int>, j: nat, s': seq<int>)
    requires Permutation(s) && j <= |s| == |s'| - 1
    requires forall k :: 0 <= k < |s'| ==> s'[k] == if k == j then |s| else if k == |s| then s[j] else s[k]
    ensures Permutation(s')
  {
  }

  lemma SwapPermutation(s: seq<int>, a: nat, b: nat)
    requires Permutation(s) && a < |s| && b < |s|
    ensures Permutation(s[a := s[b]][b := s[a]])
  {
  }

  /** A permutation takes every value. */
  lemma HasValue(s: seq<int>, v: nat) returns (k: nat)
    requires Permutation(s) && v < |s|
    ensures k < |s| && s[k] == v
  {
    Covered(s, v);
    k :| 0 <= k < |s| && s[k] == v;
  }

  lemma Covered(s: seq<int>, v: nat)
    requires Permutation(s) && v < |s|
    ensures v in s
  {
    DistinctSize(s);
    var values, all := Values(s), UpTo(|s|);
    assert forall x :: x in values ==> x in all;
    hide Permutation, Values, UpTo;
    if v !in s {
      SubsetSize(values, all - {v});
      assert false;
    }
  }

  lemma {:induction false} DistinctSize(s: seq<int>)
    requires forall i, j :: 0 <= i < j < |s| ==> s[i] != s[j]
    ensures |Values(s)| == |s|
  {
    if s != [] {
      DistinctSize(s[1..]);
      assert s[0] !in s[1..];
    }
  }

  /** The distances from the median, scanned up to n: the position chosen for rank j. */
  function Choose(rank: seq<int>, diff: seq<real>, j: int, n: nat): (c: nat)
    requires 1 <= n <= |rank| == |diff|
    ensures c < n
  {
    if n == 1 then 0
    else
      var c := Choose(rank, diff, j, n - 1);
      if diff[n - 1] < diff[c] && rank[n - 1] > j then n - 1 else c
  }

  /** It is the closest of position 0 and the videos not yet ranked up to j. */
  lemma {:induction false} ChooseMeans(rank: seq<int>, diff: seq<real>, j: int, n: nat)
    requires 1 <= n <= |rank| == |diff|
    ensures var c := Choose(rank, diff, j, n);
            (c == 0 || rank[c] > j) && forall i :: 0 <= i < n && (i == 0 || rank[i] > j) ==> diff[c] <= diff[i]
  {
    if n > 1 {
      ChooseMeans(rank, diff, j, n - 1);
    }
  }

  /** No video is closer to the median than the one at c. */
  ghost predicate Closest(diff: seq<real>, c: nat) {
    c < |diff| && forall i :: 0 <= i < |diff| ==> diff[c] <= diff[i]
  }

  /** Whether position k is considered for rank j. */
  predicate Considered(rank: seq<int>, j: int, k: int) {
    0 <= k < |rank| && (k == 0 || rank[k] > j)
  }

  /**
   The loop finds a video closest to the median exactly when every video it passes over, one other
   than the first that has a rank up to j already, is matched by one that it considers.
   */
  lemma ClosestChosen(rank: seq<int>, diff: seq<real>, j: int)
    requires 1 <= |rank| == |diff|
    ensures Closest(diff, Choose(rank, diff, j, |diff|)) <==>
            forall i :: 0 < i < |diff| && rank[i] <= j ==> exists k :: Considered(rank, j, k) && diff[k] <= diff[i]
  {
    var c := Choose(rank, diff, j, |diff|);
    ChooseMeans(rank, diff, j, |diff|);
    assert Considered(rank, j, c);
    if forall i :: 0 < i < |diff| && rank[i] <= j ==> exists k :: Considered(rank, j, k) && diff[k] <= diff[i] {
      forall i | 0 <= i < |diff| ensures diff[c] <= diff[i] {
        if i > 0 && rank[i] <= j {
          var k :| Considered(rank, j, k) && diff[k] <= diff[i];
        }
      }
    }
  }

  /** The position that has rank v. */
  ghost function Holder(s: seq<int>, v: nat): (p: nat)
    requires Permutation(s) && v < |s|
    ensures p < |s| && s[p] == v
  {
    Covered(s, v);
    var p: nat :| p < |s| && s[p] == v;
    p
  }

  /** The ranks after the turn for rank j: the chosen position and the holder of rank j exchange their ranks. */
  ghost function Turn(s: seq<int>, diff: seq<real>, j: nat): (r: seq<int>)
    requires Permutation(s) && |s| == |diff| && j < |s|
    ensures Permutation(r) && |r| == |s|
  {
    var m, p := Choose(s, diff, j, |diff|), Holder(s, j);
    SwapPermutation(s, p, m);
    s[p := s[m]][m := j]
  }

  lemma OneHolder(s: seq<int>, v: nat, p: nat)
    requires Permutation(s) && v < |s| && p < |s| && s[p] == v
    ensures Holder(s, v) == p
  {
  }

  /** The position that ends with rank 0 after both turns. */
  lemma RankZero(s: seq<int>, diff: seq<real>)
    requires Permutation(s) && |s| == |diff| >= 2
    ensures var c, q := Choose(s, diff, 0, |diff|), Holder(s, 0);
            Holder(Turn(Turn(s, diff, 0), diff, 1), 0) ==
            if c != 0 then c
            else if s[0] == 1 then q
            else if s[0] > 1 && diff[q] < diff[0] then 0
            else Holder(s, 1)
  {
    hide Permutation;
    var c, q, p := Choose(s, diff, 0, |diff|), Holder(s, 0), Holder(s, 1);
    var t := Turn(s, diff, 0);
    var c', p' := Choose(t, diff, 1, |diff|), Holder(t, 1);
    var u := Turn(t, diff, 1);
    ChooseMeans(s, diff, 0, |diff|);
    ChooseMeans(t, diff, 1, |diff|);
    assert t[c] == 0 && t == s[q := s[c]][c := 0] && u == t[p' := t[c']][c' := 1];
    if c != 0 {
      assert c' != c && p' != c;
      OneHolder(u, 0, c);
    } else if s[0] > 1 && diff[q] < diff[0] {
      assert t[q] > 1 && c' != 0 && p' != 0;
      OneHolder(u, 0, 0);
    } else {
      forall k | 0 < k < |diff| && t[k] > 1 ensures diff[0] <= diff[k] {
        assert k == q || s[k] > 0;
      }
      FirstAgain(t, diff);
      assert t[0] == 0 && p' != 0;
      OneHolder(u, 0, p');
      if s[0] == 1 {
        OneHolder(t, 1, q);
      } else {
        assert p != q && p != 0;
        OneHolder(t, 1, p);
      }
    }
  }

  /** Nothing considered is closer than position 0. */
  lemma FirstAgain(t: seq<int>, diff: seq<real>)
    requires 1 <= |t| == |diff| && forall k :: 0 < k < |diff| && t[k] > 1 ==> diff[0] <= diff[k]
    ensures Choose(t, diff, 1, |diff|) == 0
  {
    FirstStays(t, diff, 1, |diff|);
  }

  lemma {:induction false} FirstStays(t: seq<int>, diff: seq<real>, j: int, n: nat)
    requires 1 <= n <= |t| == |diff| && forall k :: 0 < k < n && t[k] > j ==> diff[0] <= diff[k]
    ensures Choose(t, diff, j, n) == 0
  {
    if n > 1 {
      FirstStays(t, diff, j, n - 1);
    }
  }

  /** Both turns together, by what the first turn chooses. */
  lemma RankZeroByChoice(s: seq<int>, diff: seq<real>)
    requires Permutation(s) && |s| == |diff| >= 2
    ensures var c, q, p := Choose(s, diff, 0, |diff|), Holder(s, 0), Holder(s, 1);
            Closest(diff, Holder(Turn(Turn(s, diff, 0), diff, 1), 0)) <==>
            if c != 0 then q == 0 || diff[c] <= diff[q]
            else if s[0] == 1 then diff[q] <= diff[0]
            else diff[p] <= diff[0] && (s[0] > 1 ==> diff[0] <= diff[q])
  {
    var c, q, p := Choose(s, diff, 0, |diff|), Holder(s, 0), Holder(s, 1);
    RankZero(s, diff);
    ChooseMeans(s, diff, 0, |diff|);
    forall k | 0 <= k < |diff| && k != q ensures diff[c] <= diff[k] {
      assert s[k] != s[q];
    }
    hide Turn, Choose;
  }

  /** Some video that has not rank 0 is closer than the first one. */
  ghost predicate FirstBeaten(s: seq<int>, diff: seq<real>) {
    |s| == |diff| && exists i :: 0 < i < |s| && s[i] > 0 && diff[i] < diff[0]
  }

  /**
   Both turns together, on the shuffled ranks and the distances: a video closest to the median ends
   with rank 0 if and only if one of the following holds. The first video is beaten, and the initial
   holder of rank 0 is the first video or matched by one that is considered. Or the first video is not
   beaten and has rank 1, and the initial holder of rank 0 is no farther than it. Or it is not beaten,
   the initial holder of rank 1, another video, is no farther, and if the first video has a rank above 1,
   the initial holder of rank 0 is no closer.
   */
  lemma ClosestGetsRankZero(s: seq<int>, diff: seq<real>)
    requires Permutation(s) && |s| == |diff| >= 2
    ensures var q, p := Holder(s, 0), Holder(s, 1);
            Closest(diff, Holder(Turn(Turn(s, diff, 0), diff, 1), 0)) <==>
            if FirstBeaten(s, diff) then q == 0 || exists k :: Considered(s, 0, k) && diff[k] <= diff[q]
            else if s[0] == 1 then diff[q] <= diff[0]
            else diff[p] <= diff[0] && (s[0] > 1 ==> diff[0] <= diff[q])
  {
    var c, q := Choose(s, diff, 0, |diff|), Holder(s, 0);
    RankZeroByChoice(s, diff);
    ChooseMeans(s, diff, 0, |diff|);
    assert Considered(s, 0, c);
    assert c != 0 <==> FirstBeaten(s, diff) by {
      if !FirstBeaten(s, diff) {
        FirstStays(s, diff, 0, |diff|);
      }
    }
    hide Turn, Choose, Closest;
  }

  /** In particular the first video never keeps rank 0 when it alone is closest. */
  lemma FirstLosesRankZero(s: seq<int>, diff: seq<real>)
    requires Permutation(s) && |s| == |diff| >= 2 && forall i :: 0 < i < |diff| ==> diff[0] < diff[i]
    ensures !Closest(diff, Holder(Turn(Turn(s, diff, 0), diff, 1), 0))
  {
    ClosestGetsRankZero(s, diff);
    FirstStays(s, diff, 0, |diff|);
    hide Turn;
  }

  /** One turn of the second loop of create_random_ranks, for rank j. */
  method MoveToMedian(videoRank: array<int>, diff: seq<real>, j: nat)
    requires videoRank.Length == |diff| > 0 && Permutation(videoRank[..])
    modifies videoRank
    ensures var m := Choose(old(videoRank[..]), diff, j, |diff|);
            && videoRank[m] == j
            && (j < |diff| ==> videoRank[..] == Turn(old(videoRank[..]), diff, j))
            && (|diff| == 1 ==> videoRank[..] == [j])
  {
    ghost var s := videoRank[..];
    var medianDiff := diff[0];
    var medianPos, jPos := 0, 0;
    var i := 1;
    while i < videoRank.Length
      invariant 1 <= i <= videoRank.Length && 0 <= jPos < i && videoRank[..] == s
      invariant medianPos == Choose(s, diff, j, i) && medianDiff == diff[medianPos]
      invariant s[jPos] == j || (jPos == 0 && forall k :: 0 <= k < i ==> s[k] != j)
    {
      if diff[i] < medianDiff {
        if videoRank[i] > j {
          medianDiff := diff[i];
          medianPos := i;
        }
      }
      if videoRank[i] == j {
        jPos := i;
      }
      i := i + 1;
    }
    if j < |diff| {
      var k := HasValue(s, j);
      OneHolder(s, j, jPos);
    }
    videoRank[jPos] := videoRank[medianPos];
    videoRank[medianPos] := j;
    if j < |diff| {
      assert videoRank[..] == s[jPos := s[medianPos]][medianPos := s[jPos]];
    }
  }

  /**
   create_random_ranks: the ranks are a permutation exactly when there are at least two videos; a
   single one ends with rank 1. They are the shuffled ranks after a turn for rank 0 and one for rank 1.
   */
  method CreateRandomRanks(videoRank: array<int>, diff: seq<real>, draws: seq<real>) returns (ghost shuffled: seq<int>)
    requires videoRank.Length == |diff| == |draws| > 0 && forall i :: 0 <= i < |draws| ==> Random(draws[i])
    modifies videoRank
    ensures Permutation(videoRank[..]) <==> videoRank.Length >= 2
    ensures videoRank.Length == 1 ==> videoRank[0] == 1
    ensures |shuffled| == |diff| && Permutation(shuffled)
    ensures videoRank.Length >= 2 ==> videoRank[..] == Turn(Turn(shuffled, diff, 0), diff, 1)
  {
    Shuffle(videoRank, draws);
    shuffled := videoRank[..];
    hide Turn;
    var j := 0;
    while j < 2
      invariant 0 <= j <= 2
      invariant j < 2 || videoRank.Length >= 2 ==> Permutation(videoRank[..])
      invariant j == 2 && videoRank.Length == 1 ==> videoRank[..] == [1]
      invariant j == 0 ==> videoRank[..] == shuffled
      invariant j == 1 ==> videoRank[..] == Turn(shuffled, diff, 0)
      invariant j == 2 && videoRank.Length >= 2 ==> videoRank[..] == Turn(Turn(shuffled, diff, 0), diff, 1)
    {
      MoveToMedian(videoRank, diff, j);
      j := j + 1;
    }
    if videoRank.Length == 1 {
      assert videoRank[..][0] == 1;
    }
  }

  /** make_video_index: the videos in rank order. */
  method MakeVideoIndex(videoRank: array<int>) returns (videoIndex: array<int>)
    requires Permutation(videoRank[..])
    ensures fresh(videoIndex) && videoIndex.Length == videoRank.Length && Permutation(videoIndex[..])
    ensures forall i :: 0 <= i < videoRank.Length ==>
            0 <= videoRank[i] < videoIndex.Length && videoIndex[videoRank[i]] == i
    ensures forall k :: 0 <= k < videoIndex.Length ==>
            0 <= videoIndex[k] < videoRank.Length && videoRank[videoIndex[k]] == k
  {
    videoIndex := new int[videoRank.Length];
    ghost var s := videoRank[..];
    var i := 0;
    while i < videoRank.Length
      invariant 0 <= i <= videoRank.Length && videoRank[..] == s
      invariant forall k :: 0 <= k < i ==> videoIndex[s[k]] == k
    {
      videoIndex[videoRank[i]] := i;
      i := i + 1;
    }
    forall k | 0 <= k < videoIndex.Length
      ensures 0 <= videoIndex[k] < videoRank.Length && videoRank[videoIndex[k]] == k
    {
      var p := HasValue(s, k);
    }
  }

  // ---- sampling, sorting and relabelling ----

  function Sum(pdf: seq<real>): real {
    if pdf == [] then 0.0 else Sum(pdf[..|pdf| - 1]) + pdf[|pdf| - 1]
  }

  /**
   The rank that a random number picks: where the sums of the probabilities pass it. If they never
   do, which takes probabilities that sum to less than one, it is one more than there are.
   */
  method PickRank(pdf: seq<real>, r: real) returns (rank: nat)
    requires Random(r)
    ensures rank <= |pdf| && (rank < |pdf| ==> r < Sum(pdf[..rank + 1]))
    ensures forall k :: 0 <= k <= rank ==> Sum(pdf[..k]) <= r
    ensures Sum(pdf) >= 1.0 ==> rank < |pdf|
  {
    var p := r;
    rank := 0;
    while rank < |pdf|
      invariant rank <= |pdf| && p == r - Sum(pdf[..rank])
      invariant forall k :: 0 <= k <= rank ==> Sum(pdf[..k]) <= r
      invariant rank == |pdf| ==> Sum(pdf) <= r
      decreases |pdf| - rank
    {
      assert pdf[..rank + 1][..rank] == pdf[..rank];
      assert pdf[..|pdf|] == pdf;
      p := p - pdf[rank];
      if p < 0.0 {
        return;
      }
      rank := rank + 1;
    }
  }

  /** How often value x occurs among the ranks. */
  function Count(ranks: seq<nat>, x: nat): nat {
    if ranks == [] then 0 else Count(ranks[..|ranks| - 1], x) + if ranks[|ranks| - 1] == x then 1 else 0
  }

  /** An entry of rank_views: a rank as it was sampled, and the number of its sessions. */
  datatype RankViews = RankViews(index: nat, views: nat)

  /** The ranks of all sessions, and how many there are of each. */
  method SampleSessions(pdf: seq<real>, draws: seq<real>) returns (ranks: seq<nat>, views: array<RankViews>)
    requires forall i :: 0 <= i < |draws| ==> Random(draws[i])
    ensures |ranks| == |draws| && (forall i :: 0 <= i < |ranks| ==> ranks[i] <= |pdf|)
    ensures Sum(pdf) >= 1.0 ==> forall i :: 0 <= i < |ranks| ==> ranks[i] < |pdf|
    ensures fresh(views) && views.Length == |pdf| + 1
    ensures forall k :: 0 <= k < views.Length ==> views[k] == RankViews(k, Count(ranks, k))
  {
    views := new RankViews[|pdf| + 1](k requires 0 <= k => RankViews(k, 0));
    ranks := [];
    while |ranks| < |draws|
      invariant |ranks| <= |draws| && forall i :: 0 <= i < |ranks| ==> ranks[i] <= |pdf|
      invariant Sum(pdf) >= 1.0 ==> forall i :: 0 <= i < |ranks| ==> ranks[i] < |pdf|
      invariant forall k :: 0 <= k < views.Length ==> views[k] == RankViews(k, Count(ranks, k))
    {
      var rank := PickRank(pdf, draws[|ranks|]);
      ghost var before := ranks;
      ranks := ranks + [rank];
      assert ranks[..|ranks| - 1] == before;
      views[rank] := RankViews(views[rank].index, views[rank].views + 1);
    }
  }

  /** What qsort makes of the first n entries: the same entries, those with most sessions first. */
  ghost predicate SortedViews(sorted: seq<RankViews>, ranks: seq<nat>) {
    && (forall k :: 0 <= k < |sorted| ==>
       sorted[k].index < |sorted| && sorted[k].views == Count(ranks, sorted[k].index))
    && (forall k, l :: 0 <= k < l < |sorted| ==>
       sorted[k].index != sorted[l].index && sorted[k].views >= sorted[l].views)
  }

  lemma {:induction false} OnceOnly(s: seq<RankViews>, x: RankViews)
    requires forall i, j :: 0 <= i < j < |s| ==> s[i] != s[j]
    ensures multiset(s)[x] <= 1
  {
    if s != [] {
      OnceOnly(s[1..], x);
      assert s == [s[0]] + s[1..] && s[0] !in s[1..];
    }
  }

  lemma TwiceAtLeast(s: seq<RankViews>, k: nat, l: nat)
    requires k < l < |s| && s[k] == s[l]
    ensures multiset(s)[s[k]] >= 2
  {
    assert s == s[..l] + [s[l]] + s[l + 1..];
    assert s[k] in s[..l];
  }

  /** Whatever qsort does with equal numbers of views, it delivers such a sequence. */
  lemma QsortDelivers(views: seq<RankViews>, ranks: seq<nat>, sorted: seq<RankViews>)
    requires forall k :: 0 <= k < |views| ==> views[k] == RankViews(k, Count(ranks, k))
    requires multiset(sorted) == multiset(views)
             && forall k, l :: 0 <= k < l < |sorted| ==> sorted[k].views >= sorted[l].views
    ensures SortedViews(sorted, ranks) && |sorted| == |views|
  {
    assert |sorted| == |multiset(sorted)| == |multiset(views)| == |views|;
    forall k | 0 <= k < |sorted| ensures sorted[k] in views {
      assert sorted[k] in multiset(sorted);
    }
    forall k, l | 0 <= k < l < |sorted| ensures sorted[k].index != sorted[l].index {
      if sorted[k] == sorted[l] {
        TwiceAtLeast(sorted, k, l);
        OnceOnly(views, sorted[k]);
        assert false;
      }
    }
  }

  function Indices(sorted: seq<RankViews>): seq<int> {
    seq(|sorted|, k requires 0 <= k < |sorted| => sorted[k].index)
  }

  /** The search in the relabelling loop; the assertion behind it holds. */
  method FindLabel(sorted: seq<RankViews>, ranks: seq<nat>, old_rank: nat) returns (rank: nat)
    requires SortedViews(sorted, ranks) && old_rank < |sorted|
    ensures rank < |sorted| && sorted[rank].index == old_rank
  {
    ghost var p := HasValue(Indices(sorted), old_rank);
    rank := 0;
    while rank < |sorted|
      invariant rank <= p
    {
      if sorted[rank].index == old_rank {
        return;
      }
      rank := rank + 1;
    }
    assert false;
  }

  /**
   Relabelling: every session gets the place of its rank in the sorted order, so the number of
   sessions does not increase with the rank, and all sessions are counted.
   */
  method Relabel(ranks: seq<nat>, sorted: seq<RankViews>) returns (labels: seq<nat>)
    requires SortedViews(sorted, ranks) && forall i :: 0 <= i < |ranks| ==> ranks[i] < |sorted|
    ensures |labels| == |ranks| && forall i :: 0 <= i < |labels| ==>
            labels[i] < |sorted| && sorted[labels[i]].index == ranks[i]
    ensures forall k :: 0 <= k < |sorted| ==> Count(labels, k) == sorted[k].views
    ensures forall k, l :: 0 <= k < l < |sorted| ==> Count(labels, k) >= Count(labels, l)
    ensures TotalCount(labels, |sorted|) == |ranks|
  {
    labels := [];
    while |labels| < |ranks|
      invariant |labels| <= |ranks|
      invariant forall i :: 0 <= i < |labels| ==> labels[i] < |sorted| && sorted[labels[i]].index == ranks[i]
    {
      var rank := FindLabel(sorted, ranks, ranks[|labels|]);
      labels := labels + [rank];
    }
    forall k | 0 <= k < |sorted| ensures Count(labels, k) == sorted[k].views {
      SameCount(labels, ranks, sorted, k, |ranks|);
      assert labels[..|ranks|] == labels && ranks[..|ranks|] == ranks;
    }
    CountAll(labels, |sorted|);
  }

  /** What qsort may make of the first n entries of an array: a permutation, most views first. */
  ghost predicate Qsorted(before: seq<RankViews>, after: seq<RankViews>) {
    multiset(after) == multiset(before) && forall k, l :: 0 <= k < l < |after| ==> after[k].views >= after[l].views
  }

  /**
   From the random numbers to the labels, for every qsort: the number of sessions does not increase with
   the rank, the counts are those of the sampled ranks, and they sum to the number of sessions.
   */
  method RankSessions(pdf: seq<real>, draws: seq<real>, qsort: seq<RankViews> -> seq<RankViews>)
    returns (ranks: seq<nat>, labels: seq<nat>)
    requires Sum(pdf) >= 1.0 && forall i :: 0 <= i < |draws| ==> Random(draws[i])
    requires forall v :: Qsorted(v, qsort(v))
    ensures |ranks| == |labels| == |draws| && forall i :: 0 <= i < |labels| ==> ranks[i] < |pdf| && labels[i] < |pdf|
    ensures forall i, j :: 0 <= i < |labels| && 0 <= j < |labels| ==> (labels[i] == labels[j] <==> ranks[i] == ranks[j])
    ensures forall k, l :: 0 <= k < l < |pdf| ==> Count(labels, k) >= Count(labels, l)
    ensures TotalCount(labels, |pdf|) == |draws|
  {
    var views;
    ranks, views := SampleSessions(pdf, draws);
    var sorted := qsort(views[..|pdf|]);
    assert Qsorted(views[..|pdf|], sorted);
    QsortDelivers(views[..|pdf|], ranks, sorted);
    labels := Relabel(ranks, sorted);
  }

  lemma {:induction false} SameCount(labels: seq<nat>, ranks: seq<nat>, sorted: seq<RankViews>, k: nat, n: nat)
    requires n <= |labels| == |ranks| && k < |sorted|
    requires forall i :: 0 <= i < |labels| ==> labels[i] < |sorted| && sorted[labels[i]].index == ranks[i]
    requires forall a, b :: 0 <= a < b < |sorted| ==> sorted[a].index != sorted[b].index
    ensures Count(labels[..n], k) == Count(ranks[..n], sorted[k].index)
  {
    if n > 0 {
      SameCount(labels, ranks, sorted, k, n - 1);
      assert labels[..n][..n - 1] == labels[..n - 1] && ranks[..n][..n - 1] == ranks[..n - 1];
    }
  }

  function TotalCount(ranks: seq<nat>, n: nat): nat {
    if n == 0 then 0 else TotalCount(ranks, n - 1) + Count(ranks, n - 1)
  }

  lemma {:induction false} CountAll(ranks: seq<nat>, n: nat)
    requires forall i :: 0 <= i < |ranks| ==> ranks[i] < n
    ensures TotalCount(ranks, n) == |ranks|
  {
    if ranks == [] {
      CountNone(n);
    } else {
      var front := ranks[..|ranks| - 1];
      CountAll(front, n);
      CountOneMore(front, ranks[|ranks| - 1], n);
      assert front + [ranks[|ranks| - 1]] == ranks;
    }
  }

  lemma {:induction false} CountNone(n: nat)
    ensures TotalCount([], n) == 0
  {
    if n > 0 {
      CountNone(n - 1);
    }
  }

  lemma {:induction false} CountOneMore(front: seq<nat>, x: nat, n: nat)
    ensures TotalCount(front + [x], n) == TotalCount(front, n) + if x < n then 1 else 0
  {
    if n > 0 {
      CountOneMore(front, x, n - 1);
      assert (front + [x])[..|front|] == front;
    }
  }
}
