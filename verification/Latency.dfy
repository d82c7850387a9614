/** Latency summaries of the runtime benchmark: nearest-rank percentiles over exact reals. */
module Latency {
  import opened Options

  datatype LatencyStats = LatencyStats(
    count: nat, minMs: real, meanMs: real, p50Ms: real, p95Ms: real, p99Ms: real, maxMs: real)

  function Ceil(x: real): int {
    -((-x).Floor)
  }

  /** `Math.round(value * 1000) / 1000`. */
  function Round(value: real): real {
    (value * 1000.0 + 0.5).Floor as real / 1000.0
  }

  lemma RoundMonotone(x: real, y: real)
    requires x <= y
    ensures Round(x) <= Round(y)
  {
    assert (x * 1000.0 + 0.5).Floor <= (y * 1000.0 + 0.5).Floor;
  }

  /** Rounding moves a value by at most half a thousandth, onto a whole number of thousandths. */
  lemma RoundIsNear(x: real)
    ensures -0.0005 <= Round(x) - x <= 0.0005
    ensures Round(x) * 1000.0 == (Round(x) * 1000.0).Floor as real
  {
    var n := (x * 1000.0 + 0.5).Floor;
    Thousandths(n);
    assert n as real <= x * 1000.0 + 0.5 < n as real + 1.0;
    var r := Round(x);
    assert r == n as real / 1000.0;
    hide Round;
  }

  lemma Thousandths(n: int)
    ensures n as real / 1000.0 * 1000.0 == n as real
    ensures (n as real / 1000.0 * 1000.0).Floor == n
  {
    assert (n as real).Floor == n;
  }

  // ---- Sorting ---------------------------------------------------------------------------------

  predicate IsSorted(s: seq<real>) {
    forall i, j :: 0 <= i < j < |s| ==> s[i] <= s[j]
  }

  function Insert(x: real, s: seq<real>): (r: seq<real>)
    ensures |r| == |s| + 1
  {
    if s == [] || x <= s[0] then [x] + s else [s[0]] + Insert(x, s[1..])
  }

  function Sort(s: seq<real>): (r: seq<real>)
    ensures |r| == |s|
  {
    if s == [] then [] else Insert(s[0], Sort(s[1..]))
  }

  lemma {:induction false} InsertMembers(x: real, s: seq<real>)
    ensures forall v :: v in Insert(x, s) <==> v == x || v in s
  {
    if s == [] || x <= s[0] {
    } else {
      InsertMembers(x, s[1..]);
      assert s == [s[0]] + s[1..];
    }
  }

  lemma {:induction false} InsertSorted(x: real, s: seq<real>)
    requires IsSorted(s)
    ensures IsSorted(Insert(x, s))
  {
    if s == [] || x <= s[0] {
    } else {
      InsertSorted(x, s[1..]);
      InsertMembers(x, s[1..]);
      var r := Insert(x, s[1..]);
      forall i | 0 <= i < |r|
        ensures s[0] <= r[i]
      {
        assert r[i] in r;
      }
    }
  }

  lemma {:induction false} SortSorts(s: seq<real>)
    ensures IsSorted(Sort(s))
    ensures forall v :: v in Sort(s) <==> v in s
  {
    if s == [] {
    } else {
      SortSorts(s[1..]);
      InsertSorted(s[0], Sort(s[1..]));
      InsertMembers(s[0], Sort(s[1..]));
      assert s == [s[0]] + s[1..];
    }
  }

  // ---- Nearest rank ----------------------------------------------------------------------------

  /** How many of `n` samples a fraction `p` asks for. */
  function RankOf(n: nat, p: real): int {
    Ceil(n as real * p)
  }

  function PercentileIndex(n: nat, p: real): int {
    var k := RankOf(n, p) - 1;
    if n - 1 < k then n - 1 else k
  }

  /** The index is a place in the list exactly for a positive fraction. */
  lemma IndexInRange(n: nat, p: real)
    requires n > 0
    ensures 0 <= PercentileIndex(n, p) < n <==> p > 0.0
    ensures 0.0 < p <= 1.0 ==> PercentileIndex(n, p) == RankOf(n, p) - 1
  {
    var x := n as real * p;
    if p > 0.0 {
      assert x > 0.0;
      if p <= 1.0 { assert x <= n as real; }
    } else {
      assert x <= 0.0;
    }
  }

  function CountAtMost(s: seq<real>, v: real): nat {
    if s == [] then 0 else (if s[0] <= v then 1 else 0) + CountAtMost(s[1..], v)
  }

  function CountBelow(s: seq<real>, v: real): nat {
    if s == [] then 0 else (if s[0] < v then 1 else 0) + CountBelow(s[1..], v)
  }

  lemma {:induction false} InsertCounts(x: real, s: seq<real>, v: real)
    ensures CountAtMost(Insert(x, s), v) == CountAtMost([x] + s, v)
    ensures CountBelow(Insert(x, s), v) == CountBelow([x] + s, v)
  {
    assert ([x] + s)[1..] == s;
    if s == [] || x <= s[0] {
    } else {
      InsertCounts(x, s[1..], v);
      assert ([x] + s[1..])[1..] == s[1..];
    }
  }

  lemma {:induction false} SortCounts(s: seq<real>, v: real)
    ensures CountAtMost(Sort(s), v) == CountAtMost(s, v)
    ensures CountBelow(Sort(s), v) == CountBelow(s, v)
  {
    if s == [] {
    } else {
      SortCounts(s[1..], v);
      InsertCounts(s[0], Sort(s[1..]), v);
      assert ([s[0]] + Sort(s[1..]))[1..] == Sort(s[1..]);
    }
  }

  /** In a sorted list, the value at index `i` has more than `i` samples at or below it and at most `i`
      below it. */
  lemma {:induction false} SortedCounts(s: seq<real>, v: real, i: nat)
    requires IsSorted(s) && i < |s|
    ensures s[i] <= v ==> CountAtMost(s, v) > i
    ensures v <= s[i] ==> CountBelow(s, v) <= i
  {
    var tail := s[1..];
    assert forall k :: 0 <= k < |tail| ==> tail[k] == s[k + 1];
    if i > 0 {
      SortedCounts(tail, v, i - 1);
      assert s[0] <= s[i];
    } else if v <= s[0] {
      NoneBelow(s, v);
    }
  }

  lemma {:induction false} NoneBelow(s: seq<real>, v: real)
    requires forall i :: 0 <= i < |s| ==> v <= s[i]
    ensures CountBelow(s, v) == 0
  {
    if s != [] {
      assert forall k :: 0 <= k < |s[1..]| ==> s[1..][k] == s[k + 1];
      NoneBelow(s[1..], v);
    }
  }

  /** The sample a percentile picks before rounding. */
  function PickSample(sorted: seq<real>, p: real): real
    requires |sorted| > 0 && 0.0 < p
  {
    IndexInRange(|sorted|, p);
    sorted[PercentileIndex(|sorted|, p)]
  }

  function Percentile(sorted: seq<real>, p: real): real
    requires |sorted| > 0 && 0.0 < p
  {
    Round(PickSample(sorted, p))
  }

  /** The pick is the true nearest-rank value of the samples in any order: at least ⌈np⌉ of them are at
      or below it and fewer than ⌈np⌉ are below it. */
  lemma NearestRank(samples: seq<real>, p: real)
    requires |samples| > 0 && 0.0 < p <= 1.0
    ensures var v, rank := PickSample(Sort(samples), p), RankOf(|samples|, p);
      v in samples && CountAtMost(samples, v) >= rank && CountBelow(samples, v) < rank
  {
    var i := PercentileIndex(|samples|, p);
    IndexInRange(|samples|, p);
    RankCounts(samples, i);
  }

  lemma RankCounts(samples: seq<real>, i: nat)
    requires i < |samples|
    ensures var v := Sort(samples)[i]; v in samples && CountAtMost(samples, v) > i && CountBelow(samples, v) <= i
  {
    var s := Sort(samples);
    SortSorts(samples);
    SortedCounts(s, s[i], i);
    SortCounts(samples, s[i]);
    assert s[i] in s;
  }

  // ---- The summary -----------------------------------------------------------------------------

  function Total(s: seq<real>): real {
    if s == [] then 0.0 else s[0] + Total(s[1..])
  }

  lemma {:induction false} TotalBounds(s: seq<real>, lo: real, hi: real)
    requires forall i :: 0 <= i < |s| ==> lo <= s[i] <= hi
    ensures |s| as real * lo <= Total(s) <= |s| as real * hi
  {
    if s != [] {
      assert forall k :: 0 <= k < |s[1..]| ==> s[1..][k] == s[k + 1];
      TotalBounds(s[1..], lo, hi);
      assert |s| as real * lo == lo + |s[1..]| as real * lo;
      assert |s| as real * hi == hi + |s[1..]| as real * hi;
    }
  }

  lemma MeanBounds(total: real, n: real, lo: real, hi: real)
    requires n > 0.0 && n * lo <= total <= n * hi
    ensures lo <= total / n <= hi
  {
    var mean := total / n;
    assert mean * n == total;
    if mean < lo {
      MultiplyLess(mean, lo, n);
    } else if hi < mean {
      MultiplyLess(hi, mean, n);
    }
  }

  lemma MultiplyLess(x: real, y: real, n: real)
    requires x < y && n > 0.0
    ensures x * n < y * n
  {
  }

  /** None stands for the error on an empty sample set. */
  function Stats(samples: seq<real>): Option<LatencyStats> {
    if samples == [] then None
    else
      var sorted := Sort(samples);
      var n := |sorted|;
      Some(LatencyStats(
        n, Round(sorted[0]), Round(Total(sorted) / n as real),
        Percentile(sorted, 0.5), Percentile(sorted, 0.95), Percentile(sorted, 0.99), Round(sorted[n - 1])))
  }

  lemma {:induction false} InsertTotal(x: real, s: seq<real>)
    ensures Total(Insert(x, s)) == x + Total(s)
  {
    if s == [] || x <= s[0] {
      assert ([x] + s)[1..] == s;
    } else {
      InsertTotal(x, s[1..]);
      assert ([s[0]] + Insert(x, s[1..]))[1..] == Insert(x, s[1..]);
    }
  }

  lemma {:induction false} SortTotal(s: seq<real>)
    ensures Total(Sort(s)) == Total(s)
  {
    if s != [] {
      SortTotal(s[1..]);
      InsertTotal(s[0], Sort(s[1..]));
    }
  }

  ghost predicate IsLeast(samples: seq<real>, v: real) {
    v in samples && forall w :: w in samples ==> v <= w
  }

  ghost predicate IsGreatest(samples: seq<real>, v: real) {
    v in samples && forall w :: w in samples ==> w <= v
  }

  /** What the summary says of the samples as they came: their number, least, greatest and mean value. */
  lemma StatsOfSamples(samples: seq<real>) returns (least: real, greatest: real)
    requires samples != []
    ensures IsLeast(samples, least) && IsGreatest(samples, greatest)
    ensures var r := Stats(samples).value;
      && r.count == |samples| && r.minMs == Round(least) && r.maxMs == Round(greatest)
      && r.meanMs == Round(Total(samples) / |samples| as real)
  {
    var s := Sort(samples);
    least, greatest := s[0], s[|s| - 1];
    SortSorts(samples);
    SortTotal(samples);
    forall w | w in samples
      ensures least <= w <= greatest
    {
      assert w in s;
      var i :| 0 <= i < |s| && s[i] == w;
    }
    assert s[0] in s && s[|s| - 1] in s;
  }

  /** At least the fraction `p` of the samples is at or below the value, and less than that is below it. */
  predicate IsNearestRank(samples: seq<real>, v: real, p: real) {
    && v in samples
    && CountAtMost(samples, v) as real >= |samples| as real * p
    && (CountBelow(samples, v) as real) < |samples| as real * p
  }

  lemma CeilIs(x: real)
    ensures x <= Ceil(x) as real < x + 1.0
  {
  }

  lemma PickIsNearestRank(samples: seq<real>, p: real)
    requires samples != [] && 0.0 < p <= 1.0
    ensures IsNearestRank(samples, PickSample(Sort(samples), p), p)
    ensures -0.0005 <= Percentile(Sort(samples), p) - PickSample(Sort(samples), p) <= 0.0005
  {
    var v, x := PickSample(Sort(samples), p), |samples| as real * p;
    NearestRank(samples, p);
    CeilIs(x);
    RoundIsNear(v);
    assert CountBelow(samples, v) + 1 <= Ceil(x) <= CountAtMost(samples, v);
  }

  /** The three percentiles of the summary lie within half a thousandth of the samples at the ranks of one
      half, 95 and 99 in the hundred. */
  lemma StatsPercentiles(samples: seq<real>) returns (p50: real, p95: real, p99: real)
    requires samples != []
    ensures IsNearestRank(samples, p50, 0.5) && IsNearestRank(samples, p95, 0.95) && IsNearestRank(samples, p99, 0.99)
    ensures var r := Stats(samples).value;
      && -0.0005 <= r.p50Ms - p50 <= 0.0005
      && -0.0005 <= r.p95Ms - p95 <= 0.0005
      && -0.0005 <= r.p99Ms - p99 <= 0.0005
  {
    hide IsNearestRank, Percentile, PickSample, Sort;
    PickIsNearestRank(samples, 0.5);
    PickIsNearestRank(samples, 0.95);
    PickIsNearestRank(samples, 0.99);
    var s := Sort(samples);
    p50, p95, p99 := PickSample(s, 0.5), PickSample(s, 0.95), PickSample(s, 0.99);
  }

  lemma MultiplyMonotone(n: real, p: real, q: real)
    requires 0.0 <= n && p <= q
    ensures n * p <= n * q
  {
  }

  lemma CeilMonotone(x: real, y: real)
    requires x <= y
    ensures Ceil(x) <= Ceil(y)
  {
    assert (-y).Floor <= (-x).Floor;
  }

  lemma IndexMonotone(n: nat, p: real, q: real)
    requires p <= q
    ensures PercentileIndex(n, p) <= PercentileIndex(n, q)
  {
    MultiplyMonotone(n as real, p, q);
    CeilMonotone(n as real * p, n as real * q);
    assert RankOf(n, p) <= RankOf(n, q);
  }

  lemma PercentilesOrdered(sorted: seq<real>, p: real, q: real)
    requires |sorted| > 0 && IsSorted(sorted) && 0.0 < p <= q
    ensures Round(sorted[0]) <= Percentile(sorted, p) <= Percentile(sorted, q) <= Round(sorted[|sorted| - 1])
  {
    hide PercentileIndex, RankOf, Round;
    var n := |sorted|;
    IndexInRange(n, p);
    IndexInRange(n, q);
    IndexMonotone(n, p, q);
    var i, j := PercentileIndex(n, p), PercentileIndex(n, q);
    RoundMonotone(sorted[0], sorted[i]);
    RoundMonotone(sorted[i], sorted[j]);
    RoundMonotone(sorted[j], sorted[n - 1]);
  }

  /** Rounding keeps every summary in order. */
  lemma StatsOrdered(samples: seq<real>)
    ensures Stats(samples) == None <==> samples == []
    ensures Stats(samples).Some? ==>
      var r := Stats(samples).value;
      r.minMs <= r.p50Ms <= r.p95Ms <= r.p99Ms <= r.maxMs && r.minMs <= r.meanMs <= r.maxMs
  {
    if samples == [] { return; }
    var s := Sort(samples);
    var n := |s|;
    SortSorts(samples);
    PercentilesOrdered(s, 0.5, 0.95);
    PercentilesOrdered(s, 0.95, 0.99);
    MeanOrdered(s);
  }

  lemma MeanOrdered(s: seq<real>)
    requires |s| > 0 && IsSorted(s)
    ensures Round(s[0]) <= Round(Total(s) / |s| as real) <= Round(s[|s| - 1])
  {
    var mean := Total(s) / |s| as real;
    MeanInside(s);
    RoundMonotone(s[0], mean);
    RoundMonotone(mean, s[|s| - 1]);
  }

  lemma MeanInside(s: seq<real>)
    requires |s| > 0 && IsSorted(s)
    ensures s[0] <= Total(s) / |s| as real <= s[|s| - 1]
  {
    TotalBounds(s, s[0], s[|s| - 1]);
    MeanBounds(Total(s), |s| as real, s[0], s[|s| - 1]);
  }
}
