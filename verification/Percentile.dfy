/** Nearest-rank percentiles of scripts/bench/gen_report.py, over exact reals. */
module Percentile {
  import opened Sorting
  import opened Rounding
  import opened Wrappers

  datatype Error = IndexOutOfRange

  predicate RealLe(x: real, y: real) { x <= y }

  function Ceil(x: real): int { -((-x).Floor) }

  /** How many of the values are at most v. */
  function CountLe(values: seq<real>, v: real): nat {
    if values == [] then 0 else (if values[0] <= v then 1 else 0) + CountLe(values[1..], v)
  }

  /** The number of values a percentile has to cover. */
  function Rank(p: real, n: nat): int { Ceil(p / 100.0 * n as real) }

  function Percentile(values: seq<real>, p: real): Result<real, Error> {
    if values == [] then Ok(0.0)
    else
      var s := Sort(values, RealLe);
      var index := Rank(p, |s|) - 1;
      var i := if index < 0 then 0 else index;
      if i < |s| then Ok(s[i]) else Err(IndexOutOfRange)
  }

  /** The least listed value that covers at least rank of the values. */
  ghost predicate LeastCovering(values: seq<real>, rank: int, v: real) {
    && v in values && CountLe(values, v) >= rank
    && forall u | u in values && CountLe(values, u) >= rank :: v <= u
  }

  lemma {:induction false} CountInsert(x: real, s: seq<real>, v: real)
    ensures CountLe(Insert(x, s, RealLe), v) == CountLe([x] + s, v)
  {
    if s == [] || RealLe(x, s[0]) {
    } else {
      var rest := Insert(x, s[1..], RealLe);
      CountInsert(x, s[1..], v);
      assert ([s[0]] + rest)[1..] == rest;
      assert ([x] + s)[1..] == s && ([x] + s[1..])[1..] == s[1..];
    }
  }

  lemma {:induction false} CountSort(s: seq<real>, v: real)
    ensures CountLe(Sort(s, RealLe), v) == CountLe(s, v)
  {
    if s != [] {
      var rest := Sort(s[1..], RealLe);
      CountSort(s[1..], v);
      CountInsert(s[0], rest, v);
      assert ([s[0]] + rest)[1..] == rest;
    }
  }

  lemma {:induction false} CountAtLeast(s: seq<real>, v: real, m: nat)
    requires m <= |s| && forall k | 0 <= k < m :: s[k] <= v
    ensures CountLe(s, v) >= m
  {
    if m > 0 { CountAtLeast(s[1..], v, m - 1); }
  }

  lemma {:induction false} CountAtMost(s: seq<real>, v: real, m: nat)
    requires m <= |s| && forall k | m <= k < |s| :: s[k] > v
    ensures CountLe(s, v) <= m
  {
    if s != [] { CountAtMost(s[1..], v, if m == 0 then 0 else m - 1); }
  }

  lemma RealIsTotalOrder()
    ensures TotalOrder(RealLe)
  {}

  lemma CeilBounds(x: real, n: nat)
    requires 0.0 < x <= n as real
    ensures 1 <= Ceil(x) <= n
  {}

  lemma RankBounds(p: real, n: nat)
    requires 0.0 < p <= 100.0 && n > 0
    ensures 1 <= Rank(p, n) <= n
  {
    var f := p / 100.0;
    var m := n as real;
    assert 0.0 < f <= 1.0;
    assert 0.0 < f * m <= 1.0 * m;
    CeilBounds(f * m, n);
  }

  lemma RankMonotone(p: real, q: real, n: nat)
    requires 0.0 < p <= q <= 100.0
    ensures Rank(p, n) <= Rank(q, n)
  {
    var m := n as real;
    assert p / 100.0 * m <= q / 100.0 * m;
  }

  /** The i-th smallest value is the least one that covers i + 1 values. */
  lemma SortedIsLeastCovering(values: seq<real>, i: nat)
    requires i < |values|
    ensures |Sort(values, RealLe)| == |values|
    ensures LeastCovering(values, i + 1, Sort(values, RealLe)[i])
  {
    RealIsTotalOrder();
    SortSorts(values, RealLe);
    SortMembers(values, RealLe);
    var s := Sort(values, RealLe);
    CountSort(values, s[i]);
    CountAtLeast(s, s[i], i + 1);
    forall u | u in values && CountLe(values, u) >= i + 1 ensures s[i] <= u {
      if u < s[i] {
        forall k | i <= k < |s| ensures s[k] > u { assert i < k ==> RealLe(s[i], s[k]); }
        CountSort(values, u);
        CountAtMost(s, u, i);
      }
    }
  }

  /** For 0 < p <= 100 the result is the least listed value with at least ceil(p/100 * n) values at or
      below it, and nothing else is. */
  lemma PercentileIsNearestRank(values: seq<real>, p: real, v: real)
    requires values != [] && 0.0 < p <= 100.0
    ensures Percentile(values, p) == Ok(v) <==> LeastCovering(values, Rank(p, |values|), v)
  {
    RankBounds(p, |values|);
    SortedIsLeastCovering(values, Rank(p, |values|) - 1);
  }

  /** The order in which the points were recorded does not matter. */
  lemma PercentileIgnoresOrder(a: seq<real>, b: seq<real>, p: real)
    requires multiset(a) == multiset(b)
    ensures Percentile(a, p) == Percentile(b, p)
  {
    assert |multiset(a)| == |multiset(b)|;
    RealIsTotalOrder();
    SortPermutation(a, b, RealLe);
  }

  /** A percentile above 100 runs off the end of the list as soon as it asks for more values than there are. */
  lemma PercentileFailsExactly(values: seq<real>, p: real)
    ensures Percentile(values, p).Err? <==> values != [] && Rank(p, |values|) > |values|
  {
    RealIsTotalOrder();
    SortSorts(values, RealLe);
  }

  function Min(values: seq<real>): real
    requires values != []
  {
    if |values| == 1 then values[0]
    else
      var m := Min(values[1..]);
      if values[0] <= m then values[0] else m
  }

  function Max(values: seq<real>): real
    requires values != []
  {
    if |values| == 1 then values[0]
    else
      var m := Max(values[1..]);
      if values[0] >= m then values[0] else m
  }

  function RealSum(values: seq<real>): real { if values == [] then 0.0 else values[0] + RealSum(values[1..]) }

  datatype Stats = Stats(min: real, avg: real, p50: real, p95: real, p99: real, max: real, count: nat)

  function OrZero(r: Result<real, Error>): real { if r.Ok? then r.value else 0.0 }

  function Summarize(values: seq<real>): Stats {
    if values == [] then Stats(0.0, 0.0, 0.0, 0.0, 0.0, 0.0, 0)
    else Stats(Min(values), RealSum(values) / |values| as real,
               OrZero(Percentile(values, 50.0)), OrZero(Percentile(values, 95.0)), OrZero(Percentile(values, 99.0)),
               Max(values), |values|)
  }

  lemma {:induction false} ExtremesBound(values: seq<real>)
    requires values != []
    ensures forall v | v in values :: Min(values) <= v <= Max(values)
  {
    if |values| > 1 {
      assert values == [values[0]] + values[1..];
      ExtremesBound(values[1..]);
    }
  }

  /** A sum of n numbers between low and high lies between n * low and n * high. */
  lemma {:induction false} SumBetween(values: seq<real>, low: real, high: real)
    requires forall v | v in values :: low <= v <= high
    ensures low * |values| as real <= RealSum(values) <= high * |values| as real
  {
    if values != [] {
      forall v | v in values[1..] ensures low <= v <= high { assert v in values; }
      SumBetween(values[1..], low, high);
      assert values[0] in values;
      var n := |values[1..]| as real;
      assert |values| as real == n + 1.0;
      assert low * |values| as real == low * n + low && high * |values| as real == high * n + high;
    }
  }

  /** A higher percentile is never a smaller value. */
  lemma PercentileMonotone(values: seq<real>, p: real, q: real)
    requires values != [] && 0.0 < p <= q <= 100.0
    ensures Percentile(values, p).Ok? && Percentile(values, q).Ok?
    ensures Percentile(values, p).value <= Percentile(values, q).value
    ensures Percentile(values, p).value in values && Percentile(values, q).value in values
  {
    RankBounds(p, |values|);
    RankBounds(q, |values|);
    RankMonotone(p, q, |values|);
    RealIsTotalOrder();
    SortSorts(values, RealLe);
    SortMembers(values, RealLe);
    var s := Sort(values, RealLe);
    assert Rank(p, |s|) < Rank(q, |s|) ==> RealLe(s[Rank(p, |s|) - 1], s[Rank(q, |s|) - 1]);
  }

  lemma QuotientBetween(low: real, sum: real, high: real, n: real)
    requires n > 0.0 && low * n <= sum <= high * n
    ensures low <= sum / n <= high
  {
    var q := sum / n;
    assert q * n == sum;
    assert q < low ==> q * n < low * n;
    assert q > high ==> q * n > high * n;
  }

  lemma AverageBetween(values: seq<real>)
    requires values != []
    ensures Min(values) <= RealSum(values) / |values| as real <= Max(values)
  {
    ExtremesBound(values);
    SumBetween(values, Min(values), Max(values));
    QuotientBetween(Min(values), RealSum(values), Max(values), |values| as real);
  }

  /** The summary is ordered, and every quantile in it is one of the values. */
  lemma SummaryIsOrdered(values: seq<real>)
    requires values != []
    ensures var s := Summarize(values);
      && s.min <= s.p50 <= s.p95 <= s.p99 <= s.max && s.min <= s.avg <= s.max
      && s.p50 in values && s.p95 in values && s.p99 in values
  {
    AverageBetween(values);
    PercentileMonotone(values, 50.0, 95.0);
    PercentileMonotone(values, 95.0, 99.0);
    ExtremesBound(values);
  }

  /** The summary as it is returned, rounded to hundredths. */
  datatype RoundedStats = RoundedStats(min: int, avg: int, p50: int, p95: int, p99: int, max: int, count: nat)

  function Hundredths(x: real): int { RoundHalfEven(x * 100.0) }

  function Rounded(s: Stats): RoundedStats {
    RoundedStats(Hundredths(s.min), Hundredths(s.avg), Hundredths(s.p50), Hundredths(s.p95), Hundredths(s.p99),
                 Hundredths(s.max), s.count)
  }

  /** Rounding keeps the summary in order. */
  lemma RoundedSummaryIsOrdered(values: seq<real>)
    ensures var s := Rounded(Summarize(values));
      s.min <= s.p50 <= s.p95 <= s.p99 <= s.max && s.min <= s.avg <= s.max && s.count == |values|
  {
    if values != [] {
      var s := Summarize(values);
      SummaryIsOrdered(values);
      HundredthsAreMonotone(s.min, s.p50);
      HundredthsAreMonotone(s.p50, s.p95);
      HundredthsAreMonotone(s.p95, s.p99);
      HundredthsAreMonotone(s.p99, s.max);
      HundredthsAreMonotone(s.min, s.avg);
      HundredthsAreMonotone(s.avg, s.max);
    }
  }

  lemma HundredthsAreMonotone(x: real, y: real)
    requires x <= y
    ensures Hundredths(x) <= Hundredths(y)
  {
    RoundingIsMonotone(x * 100.0, y * 100.0);
  }

  // ---- the summary, in terms of the values alone ------------------------------------------

  lemma {:induction false} CountLeSteps(a: seq<real>, x: real, v: real)
    ensures CountLe([], v) == 0
    ensures CountLe(a + [x], v) == CountLe(a, v) + if x <= v then 1 else 0
  {
    if a == [] {
      assert [] + [x] == [x];
    } else {
      assert (a + [x])[1..] == a[1..] + [x];
      CountLeSteps(a[1..], x, v);
    }
  }

  lemma {:induction false} RealSumSteps(a: seq<real>, x: real)
    ensures RealSum([]) == 0.0
    ensures RealSum(a + [x]) == RealSum(a) + x
  {
    if a == [] {
      assert [] + [x] == [x];
    } else {
      assert (a + [x])[1..] == a[1..] + [x];
      RealSumSteps(a[1..], x);
    }
  }

  /** At least percent of a hundred of the values are at or below v, which is not so of any smaller one. */
  ghost predicate Covers(values: seq<real>, percent: nat, v: real) {
    && v in values && 100 * CountLe(values, v) >= percent * |values|
    && forall u | u in values && u < v :: 100 * CountLe(values, u) < percent * |values|
  }

  lemma RankIsCeiling(percent: nat, n: nat, k: int)
    ensures k >= Rank(percent as real, n) <==> 100 * k >= percent * n
  {
    var x := percent as real / 100.0 * n as real;
    assert x * 100.0 == (percent * n) as real;
    assert Ceil(x) as real - 1.0 < x <= Ceil(x) as real;
    if 100 * k >= percent * n { assert k as real >= x; }
    if k >= Ceil(x) { assert k as real * 100.0 >= x * 100.0; }
  }

  lemma PercentileCovers(values: seq<real>, percent: nat)
    requires values != [] && 0 < percent <= 100
    ensures Percentile(values, percent as real).Ok?
    ensures Covers(values, percent, Percentile(values, percent as real).value)
  {
    PercentileMonotone(values, percent as real, percent as real);
    var v := Percentile(values, percent as real).value;
    PercentileIsNearestRank(values, percent as real, v);
    RankIsCeiling(percent, |values|, CountLe(values, v));
    forall u | u in values && u < v ensures 100 * CountLe(values, u) < percent * |values| {
      RankIsCeiling(percent, |values|, CountLe(values, u));
    }
  }

  lemma {:induction false} ExtremesAreValues(values: seq<real>)
    requires values != []
    ensures Min(values) in values && Max(values) in values
  {
    if |values| > 1 {
      ExtremesAreValues(values[1..]);
      assert values == [values[0]] + values[1..];
    }
  }

  lemma SummaryQuantiles(values: seq<real>)
    requires values != []
    ensures var s := Summarize(values);
      Covers(values, 50, s.p50) && Covers(values, 95, s.p95) && Covers(values, 99, s.p99)
  {
    PercentileCovers(values, 50);
    PercentileCovers(values, 95);
    PercentileCovers(values, 99);
  }

  lemma SummaryExtremes(values: seq<real>)
    requires values != []
    ensures var s := Summarize(values);
      && s.min in values && s.max in values && (forall v | v in values :: s.min <= v <= s.max)
      && s.avg == RealSum(values) / |values| as real && s.count == |values|
  {
    ExtremesBound(values);
    ExtremesAreValues(values);
  }

  /** Each number of the rounded summary is the nearest hundredth of what its name says. */
  lemma SummaryMeans(values: seq<real>) returns (min: real, p50: real, p95: real, p99: real, max: real)
    requires values != []
    ensures min in values && max in values && forall v | v in values :: min <= v <= max
    ensures Covers(values, 50, p50) && Covers(values, 95, p95) && Covers(values, 99, p99)
    ensures var s := Rounded(Summarize(values));
      && Nearest(s.min, min * 100.0) && Nearest(s.max, max * 100.0)
      && Nearest(s.p50, p50 * 100.0) && Nearest(s.p95, p95 * 100.0) && Nearest(s.p99, p99 * 100.0)
      && Nearest(s.avg, RealSum(values) / |values| as real * 100.0) && s.count == |values|
  {
    var s := Summarize(values);
    min, p50, p95, p99, max := s.min, s.p50, s.p95, s.p99, s.max;
    SummaryQuantiles(values);
    SummaryExtremes(values);
    RoundedIsNearest(s);
  }

  lemma RoundedIsNearest(s: Stats)
    ensures var r := Rounded(s);
      && Nearest(r.min, s.min * 100.0) && Nearest(r.max, s.max * 100.0) && Nearest(r.avg, s.avg * 100.0)
      && Nearest(r.p50, s.p50 * 100.0) && Nearest(r.p95, s.p95 * 100.0) && Nearest(r.p99, s.p99 * 100.0)
      && r.count == s.count
  {
    HundredthIsNearest(s.min);
    HundredthIsNearest(s.max);
    HundredthIsNearest(s.avg);
    HundredthIsNearest(s.p50);
    HundredthIsNearest(s.p95);
    HundredthIsNearest(s.p99);
  }

  lemma HundredthIsNearest(x: real)
    ensures Nearest(Hundredths(x), x * 100.0)
  {
    RoundsToNearest(Hundredths(x), x * 100.0);
  }
}
