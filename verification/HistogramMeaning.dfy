/** What the numbers of scripts/bench/conversation_metrics.py say about the observations behind them. */
module HistogramMeaning {
  import opened Sorting
  import opened Wrappers
  import opened ConversationMetrics
  import P = Percentile

  /** How many of the observed durations a cumulative bucket with this bound holds. */
  function CountWithin(log: seq<real>, bound: Bound): nat {
    match bound
    case Finite(seconds) => P.CountLe(log, seconds)
    case Infinite => |log|
  }

  /** Every raw bound parses, and "+Inf" is among them. */
  predicate BoundsParse(float: string -> Option<Bound>, raws: set<string>) {
    "+Inf" in raws && forall raw | raw in raws :: RawBound(float, raw).Some?
  }

  /** The samples are the histogram of the log: one cumulative bucket for each raw bound, no other, and the
      observation count. */
  ghost predicate Reflects(
      float: string -> Option<Bound>, projection: string, raws: set<string>, samples: Samples, log: seq<real>)
    requires BoundsParse(float, raws)
  {
    && (forall raw | raw in raws ::
          && BucketKey(projection, raw) in samples
          && samples[BucketKey(projection, raw)] == CountWithin(log, RawBound(float, raw).value) as real)
    && (forall key | key in samples && IsSuccessBucket(key, projection) :: IsBucketOf(projection, raws, key))
    && DurationKey("_count", projection, "success") in samples
    && samples[DurationKey("_count", projection, "success")] == |log| as real
  }

  ghost predicate IsBucketOf(projection: string, raws: set<string>, key: Key) {
    exists raw :: raw in raws && key == BucketKey(projection, raw)
  }

  /** Each node's snapshots reflect a log of observations that only grew, by the new ones. */
  ghost predicate Fleet(
      float: string -> Option<Bound>, projection: string, raws: set<string>,
      befores: seq<Samples>, afters: seq<Samples>, logs: seq<seq<real>>, recent: seq<seq<real>>) {
    && BoundsParse(float, raws)
    && |befores| == |afters| == |logs| == |recent|
    && forall i | 0 <= i < |befores| ::
         && Reflects(float, projection, raws, befores[i], logs[i])
         && Reflects(float, projection, raws, afters[i], logs[i] + recent[i])
  }

  lemma {:induction false} CountAppend(a: seq<real>, b: seq<real>, v: real)
    ensures P.CountLe(a + b, v) == P.CountLe(a, v) + P.CountLe(b, v)
  {
    if a == [] {
      assert a + b == b;
    } else {
      assert (a + b)[1..] == a[1..] + b;
      CountAppend(a[1..], b, v);
    }
  }

  lemma WithinAppend(a: seq<real>, b: seq<real>, bound: Bound)
    ensures CountWithin(a + b, bound) == CountWithin(a, bound) + CountWithin(b, bound)
  {
    if bound.Finite? { CountAppend(a, b, bound.seconds); }
  }

  lemma {:induction false} NodeDeltasShape(befores: seq<Samples>, afters: seq<Samples>, index: nat)
    requires |befores| == |afters| && index <= |befores|
    ensures NodeDeltasFrom(befores, afters, index).Ok? <==>
            forall i | index <= i < |befores| :: Comparable(befores[i], afters[i])
    ensures NodeDeltasFrom(befores, afters, index).Ok? ==>
      var deltas := NodeDeltasFrom(befores, afters, index).value;
      && |deltas| == |befores| - index
      && forall i | index <= i < |befores| ::
           befores[i].Keys <= afters[i].Keys && deltas[i - index] == Delta(befores[i], afters[i])
    decreases |befores| - index
  {
    if index < |befores| { NodeDeltasShape(befores, afters, index + 1); }
  }

  lemma NodeDeltasAre(befores: seq<Samples>, afters: seq<Samples>)
    requires |befores| == |afters|
    ensures NodeDeltas(befores, afters).Ok? <==> forall i | 0 <= i < |befores| :: Comparable(befores[i], afters[i])
    ensures NodeDeltas(befores, afters).Ok? ==>
      var deltas := NodeDeltas(befores, afters).value;
      && |deltas| == |befores|
      && forall i | 0 <= i < |befores| ::
           befores[i].Keys <= afters[i].Keys && deltas[i] == Delta(befores[i], afters[i])
  {
    NodeDeltasShape(befores, afters, 0);
    if NodeDeltas(befores, afters).Ok? {
      var deltas := NodeDeltas(befores, afters).value;
      assert forall i | 0 <= i < |befores| :: deltas[i] == deltas[i - 0];
    }
  }

  lemma {:induction false} TotalCounts(deltas: seq<Samples>, key: Key, recent: seq<seq<real>>, bound: Bound)
    requires |deltas| == |recent|
    requires forall i | 0 <= i < |deltas| :: key in deltas[i] && deltas[i][key] == CountWithin(recent[i], bound) as real
    ensures Everywhere(deltas, key) && Total(deltas, key) == CountWithin(Flatten(recent), bound) as real
  {
    if deltas != [] {
      var last := |deltas| - 1;
      TotalCounts(deltas[..last], key, recent[..last], bound);
      WithinAppend(Flatten(recent[..last]), recent[last], bound);
    }
  }

  /** Every bucket of the summed difference counts exactly the new observations within its bound. */
  lemma BucketCountsFresh(
      float: string -> Option<Bound>, projection: string, raws: set<string>, befores: seq<Samples>,
      afters: seq<Samples>,
      logs: seq<seq<real>>, recent: seq<seq<real>>, deltas: seq<Samples>, raw: string)
    requires Fleet(float, projection, raws, befores, afters, logs, recent)
    requires NodeDeltas(befores, afters) == Ok(deltas) && raw in raws
    ensures Entry(float, deltas, projection, raw)
         == Some(Bucket(RawBound(float, raw).value, CountWithin(Flatten(recent), RawBound(float, raw).value)))
  {
    NodeDeltasAre(befores, afters);
    var key := BucketKey(projection, raw);
    forall i | 0 <= i < |deltas|
      ensures key in deltas[i] && deltas[i][key] == CountWithin(recent[i], RawBound(float, raw).value) as real
    {
      WithinAppend(logs[i], recent[i], RawBound(float, raw).value);
    }
    TotalCounts(deltas, key, recent, RawBound(float, raw).value);
  }

  // ---- scanning the sorted buckets -------------------------------------------------------

  lemma {:induction false} ScanFinds(buckets: seq<Bucket>, rank: int)
    ensures match FirstCovering(buckets, rank)
      case None => forall i | 0 <= i < |buckets| :: buckets[i].count < rank
      case Some(b) => exists i :: 0 <= i < |buckets| && buckets[i].bound == b && buckets[i].count >= rank
                                  && forall j | 0 <= j < i :: buckets[j].count < rank
  {
    if buckets != [] && buckets[0].count < rank {
      ScanFinds(buckets[1..], rank);
      match FirstCovering(buckets[1..], rank)
      case None =>
      case Some(b) =>
        var i :| 0 <= i < |buckets[1..]| && buckets[1..][i].bound == b && buckets[1..][i].count >= rank
                 && forall j | 0 <= j < i :: buckets[1..][j].count < rank;
        assert buckets[i + 1].bound == b;
        forall j | 0 <= j < i + 1 ensures buckets[j].count < rank {
          if j > 0 { assert buckets[j] == buckets[1..][j - 1]; }
        }
    }
  }

  /** bound is the smallest of the bounds whose bucket holds at least rank observations. */
  ghost predicate Smallest(entry: string -> Bucket, raws: set<string>, rank: int, bound: Bound) {
    && (exists raw :: raw in raws && entry(raw).bound == bound && entry(raw).count >= rank)
    && forall raw | raw in raws && BoundLt(entry(raw).bound, bound) :: entry(raw).count < rank
  }

  ghost predicate SmallestCovering(
      float: string -> Option<Bound>, deltas: seq<Samples>, projection: string, rank: int, bound: Bound) {
    Smallest(EntryOf(float, deltas, projection), RawBounds(deltas, projection), rank, bound)
  }

  /** The sorted buckets are the entries of the raw bounds. */
  lemma BucketMembers(float: string -> Option<Bound>, deltas: seq<Samples>, projection: string)
    requires Readable(float, deltas, projection)
    ensures SortedBy(Buckets(float, deltas, projection).value, BucketLe)
    ensures forall raw | raw in RawBounds(deltas, projection) ::
      EntryOf(float, deltas, projection)(raw) in Buckets(float, deltas, projection).value
    ensures forall b | b in Buckets(float, deltas, projection).value ::
      exists raw :: raw in RawBounds(deltas, projection) && EntryOf(float, deltas, projection)(raw) == b
  {
    var entry := EntryOf(float, deltas, projection);
    var listing := Listing(RawBounds(deltas, projection));
    var entries := Map(entry, listing);
    BucketsAreTotallyOrdered();
    SortSorts(entries, BucketLe);
    SortMembers(entries, BucketLe);
    forall raw | raw in RawBounds(deltas, projection) ensures entry(raw) in entries {
      var k :| 0 <= k < |listing| && listing[k] == raw;
      assert entries[k] == entry(raw);
    }
    forall b | b in entries ensures exists raw :: raw in RawBounds(deltas, projection) && entry(raw) == b {
      var k :| 0 <= k < |entries| && entries[k] == b;
      assert listing[k] in listing;
    }
  }

  /** On sorted buckets the scan stops at the smallest covering bound. */
  lemma SortedScan(buckets: seq<Bucket>, rank: int)
    requires SortedBy(buckets, BucketLe)
    ensures match FirstCovering(buckets, rank)
      case None => forall b | b in buckets :: b.count < rank
      case Some(bound) =>
        && (exists b :: b in buckets && b.bound == bound && b.count >= rank)
        && forall b | b in buckets && BoundLt(b.bound, bound) :: b.count < rank
  {
    ScanFinds(buckets, rank);
    match FirstCovering(buckets, rank) {
      case None =>
      case Some(bound) =>
        var i :| 0 <= i < |buckets| && buckets[i].bound == bound && buckets[i].count >= rank
                 && forall j | 0 <= j < i :: buckets[j].count < rank;
        assert buckets[i] in buckets;
        forall b | b in buckets && BoundLt(b.bound, bound) ensures b.count < rank {
          var j :| 0 <= j < |buckets| && buckets[j] == b;
          assert i < j ==> BucketLe(buckets[i], buckets[j]);
        }
    }
  }

  lemma ScanOfBuckets(float: string -> Option<Bound>, deltas: seq<Samples>, projection: string, rank: int)
    requires Readable(float, deltas, projection)
    ensures match FirstCovering(Buckets(float, deltas, projection).value, rank)
      case None =>
        forall raw | raw in RawBounds(deltas, projection) :: EntryOf(float, deltas, projection)(raw).count < rank
      case Some(bound) => SmallestCovering(float, deltas, projection, rank, bound)
  {
    BucketMembers(float, deltas, projection);
    SortedScan(Buckets(float, deltas, projection).value, rank);
  }

  // ---- the p95 bound ---------------------------------------------------------------------

  lemma RankIsPercentileRank(n: nat)
    ensures Rank95(n) == P.Rank(95.0, n)
    ensures n > 0 ==> 1 <= Rank95(n) <= n
  {
    assert n as real * 0.95 == 95.0 / 100.0 * n as real;
    if n > 0 { P.RankBounds(95.0, n); }
  }

  /** Reading the fleet's histogram never fails, and each entry counts the new observations. */
  lemma FleetIsReadable(
      float: string -> Option<Bound>, projection: string, raws: set<string>, befores: seq<Samples>,
      afters: seq<Samples>,
      logs: seq<seq<real>>, recent: seq<seq<real>>, deltas: seq<Samples>)
    requires Fleet(float, projection, raws, befores, afters, logs, recent)
    requires NodeDeltas(befores, afters) == Ok(deltas)
    ensures Readable(float, deltas, projection)
    ensures Flatten(recent) != [] ==> RawBounds(deltas, projection) == raws
    ensures forall raw | raw in raws ::
      EntryOf(float, deltas, projection)(raw)
        == Bucket(RawBound(float, raw).value, CountWithin(Flatten(recent), RawBound(float, raw).value))
  {
    NodeDeltasAre(befores, afters);
    FleetBounds(float, projection, raws, befores, afters, logs, recent, deltas);
    forall raw | raw in raws
      ensures Entry(float, deltas, projection, raw)
           == Some(Bucket(RawBound(float, raw).value, CountWithin(Flatten(recent), RawBound(float, raw).value)))
    {
      BucketCountsFresh(float, projection, raws, befores, afters, logs, recent, deltas, raw);
    }
  }

  lemma FleetScan(
      float: string -> Option<Bound>, projection: string, raws: set<string>, befores: seq<Samples>,
      afters: seq<Samples>,
      logs: seq<seq<real>>, recent: seq<seq<real>>, deltas: seq<Samples>)
    requires Fleet(float, projection, raws, befores, afters, logs, recent)
    requires NodeDeltas(befores, afters) == Ok(deltas) && Flatten(recent) != []
    ensures Readable(float, deltas, projection)
    ensures var first := FirstCovering(Buckets(float, deltas, projection).value, Rank95(|Flatten(recent)|));
      first.Some? && CoveringBound(float, raws, Flatten(recent), first.value)
  {
    var all := Flatten(recent);
    FleetIsReadable(float, projection, raws, befores, afters, logs, recent, deltas);
    RankIsPercentileRank(|all|);
    ScanOfBuckets(float, deltas, projection, Rank95(|all|));
    assert EntryOf(float, deltas, projection)("+Inf").count == |all|;
  }

  lemma P95OfFirst(buckets: seq<Bucket>, n: nat)
    requires n > 0 && FirstCovering(buckets, Rank95(n)).Some?
    ensures P95(buckets, n).Ok? && ReportedAs(P95(buckets, n).value, FirstCovering(buckets, Rank95(n)).value)
  {}

  /** The reported p95 is right for these observations: none for no observations, otherwise the smallest
      bound that covers ceil(0.95 n) of them. */
  ghost predicate SoundP95(
      float: string -> Option<Bound>, raws: set<string>, all: seq<real>, p95: Result<Option<real>, Error>)
    requires BoundsParse(float, raws)
  {
    && p95.Ok?
    && if all == [] then p95.value == None
       else exists bound :: ReportedAs(p95.value, bound) && CoveringBound(float, raws, all, bound)
  }

  /** For the fleet's new observations: the count reported is their number, reading the histogram never
      fails, and the reported bound covers at least ceil(0.95 n) of them while every smaller bound covers
      fewer. */
  lemma P95CoversTheNewObservations(
      float: string -> Option<Bound>, projection: string, raws: set<string>, befores: seq<Samples>,
      afters: seq<Samples>,
      logs: seq<seq<real>>, recent: seq<seq<real>>, deltas: seq<Samples>)
    requires Fleet(float, projection, raws, befores, afters, logs, recent)
    requires NodeDeltas(befores, afters) == Ok(deltas)
    ensures SumCount(deltas, DurationKey("_count", projection, "success")) == Ok(|Flatten(recent)|)
    ensures Buckets(float, deltas, projection).Ok?
    ensures SoundP95(float, raws, Flatten(recent), P95(Buckets(float, deltas, projection).value, |Flatten(recent)|))
  {
    GrowthIsCounted(befores, afters, deltas, DurationKey("_count", projection, "success"), logs, recent);
    FleetIsReadable(float, projection, raws, befores, afters, logs, recent, deltas);
    if Flatten(recent) != [] {
      FleetScan(float, projection, raws, befores, afters, logs, recent, deltas);
      P95OfFirst(Buckets(float, deltas, projection).value, |Flatten(recent)|);
    }
  }

  /** What a row says is right for these observations. */
  ghost predicate SoundRow(float: string -> Option<Bound>, raws: set<string>, all: seq<real>, row: Row)
    requires BoundsParse(float, raws)
  {
    && row.writes == row.timing.successCount == |all|
    && SoundP95(float, raws, all, Ok(row.timing.p95UpperBoundMs))
  }

  lemma RowIsSound(
      float: string -> Option<Bound>, projection: string, raws: set<string>, befores: seq<Samples>,
      afters: seq<Samples>,
      logs: seq<seq<real>>, recent: seq<seq<real>>, deltas: seq<Samples>, row: Row)
    requires Fleet(float, projection, raws, befores, afters, logs, recent)
    requires NodeDeltas(befores, afters) == Ok(deltas) && ProjectionRow(float, deltas, projection) == Ok(row)
    ensures row.projection == projection && SoundRow(float, raws, Flatten(recent), row)
  {
    P95CoversTheNewObservations(float, projection, raws, befores, afters, logs, recent, deltas);
  }

  /** Whenever the report is built, the row of a projection whose histograms reflect growing logs counts exactly
      the observations the nodes added, and its p95 bound is sound for them. */
  lemma ReportIsSound(
      float: string -> Option<Bound>, projections: seq<string>, befores: seq<Samples>, afters: seq<Samples>, k: nat,
      raws: set<string>, logs: seq<seq<real>>, recent: seq<seq<real>>)
    requires |projections| == 3 && k < 3 && BuildReport(float, befores, afters, projections).Ok?
    requires Fleet(float, projections[k], raws, befores, afters, logs, recent)
    ensures |BuildReport(float, befores, afters, projections).value.rows| == 3
    ensures var row := BuildReport(float, befores, afters, projections).value.rows[k];
      row.projection == projections[k] && SoundRow(float, raws, Flatten(recent), row)
  {
    var deltas := NodeDeltas(befores, afters).value;
    var rows := BuildReport(float, befores, afters, projections).value.rows;
    TraverseOk(RowOf(float, deltas), projections, rows);
    assert RowOf(float, deltas)(projections[k]) == Ok(rows[k]);
    RowIsSound(float, projections[k], raws, befores, afters, logs, recent, deltas, rows[k]);
  }

  /** bound is the smallest of the histogram's bounds that holds 95% of the observations. */
  ghost predicate CoveringBound(float: string -> Option<Bound>, raws: set<string>, all: seq<real>, bound: Bound)
    requires BoundsParse(float, raws)
  {
    && (exists raw :: raw in raws && RawBound(float, raw).value == bound)
    && CountWithin(all, bound) >= Rank95(|all|)
    && forall raw | raw in raws && BoundLt(RawBound(float, raw).value, bound) ::
         CountWithin(all, RawBound(float, raw).value) < Rank95(|all|)
  }

  /** The report gives milliseconds, and nothing for the infinite bound. */
  predicate ReportedAs(ms: Option<real>, bound: Bound) {
    ms == match bound case Infinite => None case Finite(seconds) => Some(seconds * 1000.0)
  }

  /** A counter that follows the length of growing logs gives their growth as a count. */
  lemma GrowthIsCounted(
      befores: seq<Samples>, afters: seq<Samples>, deltas: seq<Samples>, key: Key, logs: seq<seq<real>>,
      recent: seq<seq<real>>)
    requires NodeDeltas(befores, afters) == Ok(deltas) && |befores| == |afters| == |logs| == |recent|
    requires forall i | 0 <= i < |befores| ::
      && key in befores[i] && befores[i][key] == |logs[i]| as real
      && key in afters[i] && afters[i][key] == |logs[i] + recent[i]| as real
    ensures SumCount(deltas, key) == Ok(|Flatten(recent)|)
  {
    NodeDeltasAre(befores, afters);
    forall i | 0 <= i < |deltas|
      ensures key in deltas[i] && deltas[i][key] == CountWithin(recent[i], Infinite) as real
    {
      assert |logs[i] + recent[i]| == |logs[i]| + |recent[i]|;
    }
    TotalCounts(deltas, key, recent, Infinite);
  }

  /** The union of the nodes' bounds is the histogram's own set of bounds. */
  lemma FleetBounds(
      float: string -> Option<Bound>, projection: string, raws: set<string>, befores: seq<Samples>,
      afters: seq<Samples>,
      logs: seq<seq<real>>, recent: seq<seq<real>>, deltas: seq<Samples>)
    requires Fleet(float, projection, raws, befores, afters, logs, recent)
    requires NodeDeltas(befores, afters) == Ok(deltas)
    ensures AllLabelled(deltas, projection)
    ensures RawBounds(deltas, projection) == if deltas == [] then {} else raws
  {
    NodeDeltasAre(befores, afters);
    forall d, key | d in deltas && key in d && IsSuccessBucket(key, projection)
      ensures "le" in key.labels && key.labels["le"] in raws
    {
      var i :| 0 <= i < |deltas| && deltas[i] == d;
      assert key in befores[i];
      assert IsBucketOf(projection, raws, key);
    }
    if deltas != [] {
      forall raw | raw in raws ensures raw in RawBounds(deltas, projection) {
        var key := BucketKey(projection, raw);
        assert deltas[0] in deltas && key in befores[0] && key in deltas[0];
        assert IsSuccessBucket(key, projection) && key.labels["le"] == raw;
      }
    }
  }

  /** The bound brackets the exact nearest-rank percentile that scripts/bench/gen_report.py computes from the
      raw observations: it is at or above it, and every smaller bound is below it. */
  lemma BoundBracketsThePercentile(float: string -> Option<Bound>, raws: set<string>, all: seq<real>, bound: Bound)
    requires BoundsParse(float, raws) && all != [] && CoveringBound(float, raws, all, bound)
    ensures var p95 := P.Percentile(all, 95.0);
      && p95.Ok? && BoundLe(Finite(p95.value), bound)
      && forall raw | raw in raws && BoundLt(RawBound(float, raw).value, bound) ::
           BoundLt(RawBound(float, raw).value, Finite(p95.value))
  {
    var n := |all|;
    RankIsPercentileRank(n);
    P.PercentileMonotone(all, 95.0, 95.0);
    var v := P.Percentile(all, 95.0).value;
    P.PercentileIsNearestRank(all, 95.0, v);
    if bound.Finite? {
      P.SortedIsLeastCovering(all, Rank95(n) - 1);
      CoveredByAMember(all, bound.seconds, Rank95(n), v);
    }
    forall raw | raw in raws && BoundLt(RawBound(float, raw).value, bound)
      ensures BoundLt(RawBound(float, raw).value, Finite(v))
    {
      var b := RawBound(float, raw).value;
      if BoundLe(Finite(v), b) { CountMonotone(all, v, b.seconds); }
    }
  }

  lemma {:induction false} CountMonotone(log: seq<real>, u: real, v: real)
    requires u <= v
    ensures P.CountLe(log, u) <= P.CountLe(log, v)
  {
    if log != [] { CountMonotone(log[1..], u, v); }
  }

  /** If rank observations lie within a bound, the least covering observation does. */
  lemma CoveredByAMember(all: seq<real>, bound: real, rank: int, v: real)
    requires rank >= 1 && P.CountLe(all, bound) >= rank && P.LeastCovering(all, rank, v)
    ensures v <= bound
  {
    var u := LargestWithin(all, bound);
  }

  /** The largest observation within the bound counts the same observations as the bound. */
  lemma {:induction false} LargestWithin(all: seq<real>, bound: real) returns (u: real)
    requires P.CountLe(all, bound) >= 1
    ensures u in all && u <= bound && P.CountLe(all, u) == P.CountLe(all, bound)
  {
    var rest := all[1..];
    assert all == [all[0]] + rest;
    if P.CountLe(rest, bound) == 0 {
      u := all[0];
      CountMonotone(rest, u, bound);
    } else {
      var w := LargestWithin(rest, bound);
      if all[0] <= w || all[0] > bound {
        u := w;
      } else {
        u := all[0];
        CountMonotone(rest, w, u);
        CountMonotone(rest, u, bound);
      }
    }
  }
}
