/** Latency statistics of a benchmark (cmd/agt/check_bench.go). Percentages are exact fractions. */
module Latency {
  import opened Common
  import opened Ordering

  datatype Stats = Stats(min: int, p50: int, p95: int, max: int)

  /** The half-up rounding of `n * num / den`, kept within 1..n. */
  function Rank(n: nat, num: nat, den: nat): (r: nat)
    requires n > 0 && den > 0
    ensures 1 <= r <= n
  {
    var rank := (2 * n * num + den) / (2 * den);
    var atLeast := if rank < 1 then 1 else rank;
    if atLeast > n then n else atLeast
  }

  function Pick(sorted: seq<int>, num: nat, den: nat): int
    requires sorted != [] && den > 0
  {
    sorted[Rank(|sorted|, num, den) - 1]
  }

  function StatsOf(lats: seq<int>): Stats {
    var sorted := SortBy(lats, IntLeq);
    if sorted == [] then Stats(0, 0, 0, 0)
    else Stats(sorted[0], Pick(sorted, 1, 2), Pick(sorted, 19, 20), sorted[|sorted| - 1])
  }

  /** `slices.Sort`. */
  method SortInPlace(a: array<int>)
    modifies a
    ensures a[..] == SortBy(old(a[..]), IntLeq)
  {
    IntLeqIsTotal();
    SortIsSortedPermutation(a[..], IntLeq);
    var sorted := SortBy(a[..], IntLeq);
    for i := 0 to a.Length
      invariant a[..i] == sorted[..i]
    {
      a[i] := sorted[i];
    }
  }

  /** Sorts a copy: it modifies nothing, so the measurements keep their order. */
  method ComputeLatencyStats(lats: array<int>) returns (stats: Stats)
    ensures stats == StatsOf(lats[..])
  {
    hide SortBy, Sorted, TotalOrder, Rank;
    IntLeqIsTotal();
    SortIsSortedPermutation(lats[..], IntLeq);
    if lats.Length == 0 { return Stats(0, 0, 0, 0); }
    var sorted := new int[lats.Length];
    for i := 0 to lats.Length
      invariant sorted[..i] == lats[..i]
    {
      sorted[i] := lats[i];
    }
    assert sorted[..] == lats[..];
    SortInPlace(sorted);
    var p50, p95 := Pick(sorted[..], 1, 2), Pick(sorted[..], 19, 20);
    stats := Stats(sorted[0], p50, p95, sorted[sorted.Length - 1]);
  }

  // ---------- what the numbers mean ----------

  function Below(v: int): int -> bool { x => x < v }

  function AtMost(v: int): int -> bool { x => x <= v }

  /** `v` is the measurement of rank `r`: fewer than `r` lie below it, at least `r` do not exceed it. */
  predicate HasRank(s: seq<int>, v: int, r: nat) {
    |Filter(s, Below(v))| < r <= |Filter(s, AtMost(v))|
  }

  lemma {:induction false} FilterCounts(s: seq<int>, keep: int -> bool, x: int)
    ensures multiset(Filter(s, keep))[x] == if keep(x) then multiset(s)[x] else 0
  {
    if s != [] {
      var t, y := s[..|s| - 1], s[|s| - 1];
      assert s == t + [y];
      FilterCounts(t, keep, x);
    }
  }

  lemma CountIgnoresOrder(s: seq<int>, t: seq<int>, keep: int -> bool)
    requires multiset(s) == multiset(t)
    ensures |Filter(s, keep)| == |Filter(t, keep)|
  {
    forall x ensures multiset(Filter(s, keep))[x] == multiset(Filter(t, keep))[x] {
      FilterCounts(s, keep, x);
      FilterCounts(t, keep, x);
    }
    assert multiset(Filter(s, keep)) == multiset(Filter(t, keep));
    SameElementsSameLength(Filter(s, keep), Filter(t, keep));
  }

  lemma {:induction false} CountGrows(s: seq<int>, f: int -> bool, g: int -> bool)
    requires forall x :: f(x) ==> g(x)
    ensures |Filter(s, f)| <= |Filter(s, g)|
  {
    if s != [] { CountGrows(s[..|s| - 1], f, g); }
  }

  lemma SortedHasRank(s: seq<int>, r: nat)
    requires Sorted(s, IntLeq) && 1 <= r <= |s|
    ensures HasRank(s, s[r - 1], r)
  {
    var v := s[r - 1];
    assert s == s[..r - 1] + s[r - 1..] && s == s[..r] + s[r..];
    FilterConcat(s[..r - 1], s[r - 1..], Below(v));
    FilterNone(s[r - 1..], Below(v));
    FilterMembers(s[..r - 1], Below(v));
    FilterConcat(s[..r], s[r..], AtMost(v));
    FilterAll(s[..r], AtMost(v));
    hide Filter;
  }

  /** The number at a rank of the sorted copy is the measurement of that rank, and the only one. */
  lemma SortedPicksRank(s: seq<int>, v: int, r: nat)
    requires 1 <= r <= |s| == |SortBy(s, IntLeq)|
    ensures HasRank(s, v, r) <==> v == SortBy(s, IntLeq)[r - 1]
  {
    hide Filter, SortBy;
    IntLeqIsTotal();
    SortIsSortedPermutation(s, IntLeq);
    var sorted := SortBy(s, IntLeq);
    var w := sorted[r - 1];
    SortedHasRank(sorted, r);
    CountIgnoresOrder(s, sorted, Below(w));
    CountIgnoresOrder(s, sorted, AtMost(w));
    assert HasRank(s, w, r);
    if v < w { CountGrows(s, AtMost(v), Below(w)); }
    if w < v { CountGrows(s, AtMost(w), Below(v)); }
  }

  /** p50 is the lower median and p95 the measurement of rank ⌊(19n + 10) / 20⌋, and nothing else is. */
  lemma PercentilesHaveRank(s: seq<int>, v: int)
    requires s != []
    ensures v == StatsOf(s).p50 <==> HasRank(s, v, (|s| + 1) / 2)
    ensures v == StatsOf(s).p95 <==> HasRank(s, v, (19 * |s| + 10) / 20)
  {
    hide HasRank, SortBy, Rank, Sorted, TotalOrder;
    IntLeqIsTotal();
    SortIsSortedPermutation(s, IntLeq);
    Ranks(|s|);
    SortedPicksRank(s, v, (|s| + 1) / 2);
    SortedPicksRank(s, v, (19 * |s| + 10) / 20);
  }

  /** min and max are measurements, and bound them all. */
  lemma ExtremesBound(s: seq<int>, x: int)
    requires x in s
    ensures StatsOf(s).min <= x <= StatsOf(s).max && StatsOf(s).min in s && StatsOf(s).max in s
  {
    hide SortBy, Rank, TotalOrder;
    var sorted := SortBy(s, IntLeq);
    IntLeqIsTotal();
    SortIsSortedPermutation(s, IntLeq);
    SameMembers(s, sorted, x);
    SameMembers(s, sorted, sorted[0]);
    SameMembers(s, sorted, sorted[|s| - 1]);
    var k :| 0 <= k < |sorted| && sorted[k] == x;
    assert (k > 0 ==> IntLeq(sorted[0], sorted[k])) && (k < |s| - 1 ==> IntLeq(sorted[k], sorted[|s| - 1]));
  }

  lemma SameMembers(s: seq<int>, t: seq<int>, x: int)
    requires multiset(s) == multiset(t)
    ensures x in s <==> x in t
  {
    assert (x in s <==> x in multiset(s)) && (x in t <==> x in multiset(t));
  }

  /** For these two percentages the clamping never acts. */
  lemma Ranks(n: nat)
    requires n > 0
    ensures Rank(n, 1, 2) == (n + 1) / 2 && Rank(n, 19, 20) == (19 * n + 10) / 20
    ensures 1 <= (n + 1) / 2 <= (19 * n + 10) / 20 <= n
  {}

  lemma StatsAreOrdered(s: seq<int>)
    ensures StatsOf(s).min <= StatsOf(s).p50 <= StatsOf(s).p95 <= StatsOf(s).max
  {
    hide SortBy, Rank, TotalOrder;
    var sorted := SortBy(s, IntLeq);
    IntLeqIsTotal();
    SortIsSortedPermutation(s, IntLeq);
    if s != [] {
      var n := |s|;
      Ranks(n);
      var a, b := (n + 1) / 2 - 1, (19 * n + 10) / 20 - 1;
      assert (a > 0 ==> IntLeq(sorted[0], sorted[a])) && (a < b ==> IntLeq(sorted[a], sorted[b]));
      assert b < n - 1 ==> IntLeq(sorted[b], sorted[n - 1]);
    }
  }

  /** The order of the measurements does not matter. */
  lemma StatsIgnoreOrder(s: seq<int>, t: seq<int>)
    requires multiset(s) == multiset(t)
    ensures StatsOf(s) == StatsOf(t)
    ensures s == [] ==> StatsOf(s) == Stats(0, 0, 0, 0)
  {
    IntLeqIsTotal();
    SortIgnoresArrivalOrder(s, t, IntLeq);
  }

  /** The p95 rank is ⌈19n / 20⌉, as its comment has it, exactly when n mod 20 is at most 10;
      otherwise it is one less. The p50 rank always is ⌈n / 2⌉. */
  lemma DocumentedRankIff(n: nat)
    requires n > 0
    ensures Rank(n, 19, 20) == (19 * n + 19) / 20 <==> n % 20 <= 10
    ensures n % 20 > 10 ==> Rank(n, 19, 20) == (19 * n + 19) / 20 - 1
    ensures Rank(n, 1, 2) == (n + 1) / 2
  {
    hide Rank;
    Ranks(n);
    RoundedUpIff(n / 20, n % 20);
  }

  /** With eleven measurements the p95 rank is 10; the comment says 11. */
  lemma ElevenMeasurements()
    ensures Rank(11, 19, 20) == 10 && (19 * 11 + 19) / 20 == 11
  {}

  lemma RoundedUpIff(q: nat, r: nat)
    requires r < 20
    ensures (19 * (20 * q + r) + 19) / 20 == 19 * q + r
    ensures (19 * (20 * q + r) + 10) / 20 == if r <= 10 then 19 * q + r else 19 * q + r - 1
  {}
}
