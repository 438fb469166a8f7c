/** Two consecutive measurements of scripts/bench/conversation_metrics.py add up to the one over the whole
    span: A to B and B to C against A to C. */
module SnapshotChaining {
  import opened Sorting
  import opened Wrappers
  import opened ConversationMetrics
  import opened HistogramMeaning
  import P = Percentile

  /** Same series on every node, and each whole-span difference is the sum of the two parts. */
  ghost predicate Composes(ab: seq<Samples>, bc: seq<Samples>, ac: seq<Samples>) {
    && |ab| == |bc| == |ac|
    && forall i | 0 <= i < |ab| ::
         && ab[i].Keys == bc[i].Keys == ac[i].Keys
         && forall key | key in ab[i] :: ac[i][key] == ab[i][key] + bc[i][key]
  }

  /** The summed buckets never fall from one bound to a larger one. */
  ghost predicate CumulativeOn(entry: string -> Bucket, raws: set<string>) {
    forall r, s | r in raws && s in raws && BoundLe(entry(r).bound, entry(s).bound) :: entry(r).count <= entry(s).count
  }

  ghost predicate Cumulative(float: string -> Option<Bound>, deltas: seq<Samples>, projection: string) {
    CumulativeOn(EntryOf(float, deltas, projection), RawBounds(deltas, projection))
  }

  lemma EverywhereAlike(a: seq<Samples>, b: seq<Samples>, key: Key)
    requires |a| == |b| && forall i | 0 <= i < |a| :: a[i].Keys == b[i].Keys
    requires Everywhere(a, key)
    ensures Everywhere(b, key)
  {
    forall d | d in b ensures key in d {
      var i :| 0 <= i < |b| && b[i] == d;
      assert a[i] in a;
    }
  }

  lemma {:induction false} TotalAdds(ab: seq<Samples>, bc: seq<Samples>, ac: seq<Samples>, key: Key)
    requires Composes(ab, bc, ac) && Everywhere(ab, key) && Everywhere(bc, key) && Everywhere(ac, key)
    ensures Total(ac, key) == Total(ab, key) + Total(bc, key)
  {
    if ab != [] {
      var last := |ab| - 1;
      assert ab[last] in ab;
      assert Everywhere(ab[..last], key) && Everywhere(bc[..last], key) && Everywhere(ac[..last], key);
      TotalAdds(ab[..last], bc[..last], ac[..last], key);
    }
  }

  lemma SumAdds(ab: seq<Samples>, bc: seq<Samples>, ac: seq<Samples>, key: Key)
    requires Composes(ab, bc, ac)
    requires SumSamples(ab, key).Ok? && SumSamples(bc, key).Ok?
    ensures SumSamples(ac, key) == Ok(SumSamples(ab, key).value + SumSamples(bc, key).value)
  {
    EverywhereAlike(ab, ac, key);
    TotalAdds(ab, bc, ac, key);
  }

  lemma AsCountAdds(x: real, y: real)
    requires AsCount(x).Ok? && AsCount(y).Ok?
    ensures AsCount(x + y) == Ok(AsCount(x).value + AsCount(y).value)
  {
    var m, n := x.Floor, y.Floor;
    assert x + y == (m + n) as real;
    assert (x + y).Floor == m + n;
  }

  lemma CountAdds(ab: seq<Samples>, bc: seq<Samples>, ac: seq<Samples>, key: Key)
    requires Composes(ab, bc, ac)
    requires SumCount(ab, key).Ok? && SumCount(bc, key).Ok?
    ensures SumCount(ac, key) == Ok(SumCount(ab, key).value + SumCount(bc, key).value)
  {
    SumAdds(ab, bc, ac, key);
    AsCountAdds(SumSamples(ab, key).value, SumSamples(bc, key).value);
  }

  lemma SameBounds(ab: seq<Samples>, bc: seq<Samples>, ac: seq<Samples>, projection: string)
    requires Composes(ab, bc, ac)
    ensures RawBounds(ab, projection) == RawBounds(bc, projection) == RawBounds(ac, projection)
    ensures AllLabelled(ab, projection) ==> AllLabelled(ac, projection)
  {
    BoundsOfKeys(ab, bc, projection);
    BoundsOfKeys(bc, ac, projection);
    if AllLabelled(ab, projection) {
      forall d, key | d in ac && key in d && IsSuccessBucket(key, projection) ensures "le" in key.labels {
        var i :| 0 <= i < |ac| && ac[i] == d;
        assert ab[i] in ab && key in ab[i];
      }
    }
  }

  lemma BoundsOfKeys(a: seq<Samples>, b: seq<Samples>, projection: string)
    requires |a| == |b| && forall i | 0 <= i < |a| :: a[i].Keys == b[i].Keys
    ensures RawBounds(a, projection) == RawBounds(b, projection)
  {
    forall raw ensures raw in RawBounds(a, projection) <==> raw in RawBounds(b, projection) {
      if raw in RawBounds(a, projection) {
        var d, key :| && d in a && key in d && IsSuccessBucket(key, projection)
                      && "le" in key.labels && key.labels["le"] == raw;
        var i :| 0 <= i < |a| && a[i] == d;
        assert b[i] in b && key in b[i];
      }
      if raw in RawBounds(b, projection) {
        var d, key :| && d in b && key in d && IsSuccessBucket(key, projection)
                      && "le" in key.labels && key.labels["le"] == raw;
        var i :| 0 <= i < |b| && b[i] == d;
        assert a[i] in a && key in a[i];
      }
    }
  }

  ghost predicate Sums(x: string -> Bucket, y: string -> Bucket, z: string -> Bucket, raws: set<string>) {
    forall raw | raw in raws ::
      x(raw).bound == y(raw).bound == z(raw).bound && z(raw).count == x(raw).count + y(raw).count
  }

  /** Bucket by bucket the two histograms add. */
  lemma BucketsAdd(
      float: string -> Option<Bound>, ab: seq<Samples>, bc: seq<Samples>, ac: seq<Samples>, projection: string)
    requires Composes(ab, bc, ac) && Readable(float, ab, projection) && Readable(float, bc, projection)
    ensures Readable(float, ac, projection)
    ensures RawBounds(ab, projection) == RawBounds(bc, projection) == RawBounds(ac, projection)
    ensures Sums(EntryOf(float, ab, projection), EntryOf(float, bc, projection), EntryOf(float, ac, projection),
                 RawBounds(ac, projection))
  {
    SameBounds(ab, bc, ac, projection);
    forall raw | raw in RawBounds(ac, projection)
      ensures var x, y := Entry(float, ab, projection, raw), Entry(float, bc, projection, raw);
        var z := Entry(float, ac, projection, raw);
        z.Some? && x.value.bound == y.value.bound == z.value.bound && z.value.count == x.value.count + y.value.count
    {
      assert Entry(float, ab, projection, raw).Some? && Entry(float, bc, projection, raw).Some?;
      CountAdds(ab, bc, ac, BucketKey(projection, raw));
    }
  }

  lemma RanksAdd(a: nat, b: nat)
    ensures Rank95(a + b) <= Rank95(a) + Rank95(b)
    ensures Rank95(a) + Rank95(b) - 2 < Rank95(a + b)
    ensures Rank95(0) == 0
  {
    var x, y := a as real * 0.95, b as real * 0.95;
    assert (a + b) as real * 0.95 == x + y;
  }

  /** A bound that covers both parts covers the whole, since the ranks at most add up. */
  lemma TopCovers(
      x: string -> Bucket, y: string -> Bucket, z: string -> Bucket, raws: set<string>, r1: int, r2: int, r3: int,
      b1: Bound, b2: Bound) returns (top: string)
    requires Sums(x, y, z, raws) && CumulativeOn(x, raws) && CumulativeOn(y, raws)
    requires Smallest(x, raws, r1, b1) && Smallest(y, raws, r2, b2) && r3 <= r1 + r2
    ensures top in raws && z(top).count >= r3
    ensures z(top).bound == if BoundLe(b1, b2) then b2 else b1
  {
    var s1 :| s1 in raws && x(s1).bound == b1 && x(s1).count >= r1;
    var s2 :| s2 in raws && y(s2).bound == b2 && y(s2).count >= r2;
    top := if BoundLe(b1, b2) then s2 else s1;
    assert x(top).count >= r1 && y(top).count >= r2;
  }

  /** The whole span is first covered between the two parts' bounds. */
  lemma CoverageBetween(
      x: string -> Bucket, y: string -> Bucket, z: string -> Bucket, raws: set<string>, r1: int, r2: int, r3: int,
      b1: Bound, b2: Bound, b3: Bound)
    requires Sums(x, y, z, raws) && CumulativeOn(x, raws) && CumulativeOn(y, raws)
    requires Smallest(x, raws, r1, b1) && Smallest(y, raws, r2, b2) && Smallest(z, raws, r3, b3)
    requires r1 + r2 - 2 < r3 <= r1 + r2
    ensures (BoundLe(b1, b3) && BoundLe(b3, b2)) || (BoundLe(b2, b3) && BoundLe(b3, b1))
  {
    var top := TopCovers(x, y, z, raws, r1, r2, r3, b1, b2);
    var s3 :| s3 in raws && z(s3).bound == b3 && z(s3).count >= r3;
    assert BoundLt(b3, b1) && BoundLt(b3, b2) ==> z(s3).count <= r1 + r2 - 2;
  }

  /** Milliseconds as reported, nothing standing for infinity. */
  predicate MsLe(a: Option<real>, b: Option<real>) { b.None? || (a.Some? && a.value <= b.value) }

  predicate Between(a: Option<real>, x: Option<real>, b: Option<real>) {
    (MsLe(a, x) && MsLe(x, b)) || (MsLe(b, x) && MsLe(x, a))
  }

  /** ms is the p95 of n observations counted by these buckets, as reported. */
  ghost predicate Is95(entry: string -> Bucket, raws: set<string>, n: nat, ms: Option<real>) {
    if n == 0 then ms == None
    else exists bound :: Smallest(entry, raws, Rank95(n), bound) && ReportedAs(ms, bound)
  }

  lemma SmallestIsUnique(entry: string -> Bucket, raws: set<string>, rank: int, a: Bound, b: Bound)
    requires Smallest(entry, raws, rank, a) && Smallest(entry, raws, rank, b)
    ensures a == b
  {
    assert BoundLt(a, b) || BoundLt(b, a) || a == b;
  }

  lemma FirstIs95(entry: string -> Bucket, raws: set<string>, buckets: seq<Bucket>, n: nat, ms: Option<real>)
    requires n > 0
    requires match FirstCovering(buckets, Rank95(n))
      case None => forall raw | raw in raws :: entry(raw).count < Rank95(n)
      case Some(bound) => Smallest(entry, raws, Rank95(n), bound)
    ensures P95(buckets, n) == Ok(ms) <==> Is95(entry, raws, n, ms)
  {
    match FirstCovering(buckets, Rank95(n))
    case None =>
    case Some(bound) =>
      P95OfFirst(buckets, n);
      if Is95(entry, raws, n, ms) {
        var b :| Smallest(entry, raws, Rank95(n), b) && ReportedAs(ms, b);
        SmallestIsUnique(entry, raws, Rank95(n), b, bound);
      }
  }

  /** The p95 step succeeds with ms exactly when ms is the p95 of the buckets. */
  lemma P95StepIs95(float: string -> Option<Bound>, deltas: seq<Samples>, projection: string, n: nat, ms: Option<real>)
    requires Readable(float, deltas, projection)
    ensures P95(Buckets(float, deltas, projection).value, n) == Ok(ms) <==>
            Is95(EntryOf(float, deltas, projection), RawBounds(deltas, projection), n, ms)
  {
    if n > 0 {
      ScanOfBuckets(float, deltas, projection, Rank95(n));
      FirstIs95(EntryOf(float, deltas, projection), RawBounds(deltas, projection),
                Buckets(float, deltas, projection).value, n, ms);
    }
  }

  lemma SmallestExists(float: string -> Option<Bound>, deltas: seq<Samples>, projection: string, rank: int, raw: string)
      returns (bound: Bound)
    requires Readable(float, deltas, projection)
    requires raw in RawBounds(deltas, projection) && EntryOf(float, deltas, projection)(raw).count >= rank
    ensures Smallest(EntryOf(float, deltas, projection), RawBounds(deltas, projection), rank, bound)
  {
    ScanOfBuckets(float, deltas, projection, rank);
    bound := FirstCovering(Buckets(float, deltas, projection).value, rank).value;
  }

  /** Some bucket of the whole span holds enough observations. */
  lemma SomethingCovers(
      x: string -> Bucket, y: string -> Bucket, z: string -> Bucket, raws: set<string>, m: nat, n: nat,
      p1: Option<real>, p2: Option<real>) returns (raw: string)
    requires Sums(x, y, z, raws) && CumulativeOn(x, raws) && CumulativeOn(y, raws) && m + n > 0
    requires Is95(x, raws, m, p1) && Is95(y, raws, n, p2)
    ensures raw in raws && z(raw).count >= Rank95(m + n)
  {
    RanksAdd(m, n);
    if n == 0 {
      var b :| Smallest(x, raws, Rank95(m), b);
      raw :| raw in raws && x(raw).bound == b && x(raw).count >= Rank95(m);
    } else if m == 0 {
      var b :| Smallest(y, raws, Rank95(n), b);
      raw :| raw in raws && y(raw).bound == b && y(raw).count >= Rank95(n);
    } else {
      var b1 :| Smallest(x, raws, Rank95(m), b1);
      var b2 :| Smallest(y, raws, Rank95(n), b2);
      raw := TopCovers(x, y, z, raws, Rank95(m), Rank95(n), Rank95(m + n), b1, b2);
    }
  }

  lemma ReportedBetween(
      b1: Bound, b2: Bound, b3: Bound, p1: Option<real>, p2: Option<real>, p3: Option<real>)
    requires ReportedAs(p1, b1) && ReportedAs(p2, b2) && ReportedAs(p3, b3)
    requires (BoundLe(b1, b3) && BoundLe(b3, b2)) || (BoundLe(b2, b3) && BoundLe(b3, b1))
    ensures Between(p1, p3, p2)
  {}

  lemma NinetyFiveBetween(
      x: string -> Bucket, y: string -> Bucket, z: string -> Bucket, raws: set<string>, m: nat, n: nat,
      p1: Option<real>, p2: Option<real>, p3: Option<real>)
    requires Sums(x, y, z, raws) && CumulativeOn(x, raws) && CumulativeOn(y, raws) && m > 0 && n > 0
    requires Is95(x, raws, m, p1) && Is95(y, raws, n, p2) && Is95(z, raws, m + n, p3)
    ensures Between(p1, p3, p2)
  {
    RanksAdd(m, n);
    var b1 :| Smallest(x, raws, Rank95(m), b1) && ReportedAs(p1, b1);
    var b2 :| Smallest(y, raws, Rank95(n), b2) && ReportedAs(p2, b2);
    var b3 :| Smallest(z, raws, Rank95(m + n), b3) && ReportedAs(p3, b3);
    CoverageBetween(x, y, z, raws, Rank95(m), Rank95(n), Rank95(m + n), b1, b2, b3);
    ReportedBetween(b1, b2, b3, p1, p2, p3);
  }

  /** The p95 step of the whole span succeeds, and its bound lands between the parts' bounds. */
  lemma P95Chains(
      float: string -> Option<Bound>, ab: seq<Samples>, bc: seq<Samples>, ac: seq<Samples>, projection: string,
      m: nat, n: nat, p1: Option<real>, p2: Option<real>) returns (p3: Option<real>)
    requires Composes(ab, bc, ac) && Readable(float, ab, projection) && Readable(float, bc, projection)
    requires Cumulative(float, ab, projection) && Cumulative(float, bc, projection)
    requires Is95(EntryOf(float, ab, projection), RawBounds(ab, projection), m, p1)
    requires Is95(EntryOf(float, bc, projection), RawBounds(bc, projection), n, p2)
    ensures Readable(float, ac, projection)
    ensures Is95(EntryOf(float, ac, projection), RawBounds(ac, projection), m + n, p3)
    ensures m > 0 && n > 0 ==> Between(p1, p3, p2)
  {
    BucketsAdd(float, ab, bc, ac, projection);
    var x, y, z := EntryOf(float, ab, projection), EntryOf(float, bc, projection), EntryOf(float, ac, projection);
    var raws := RawBounds(ac, projection);
    p3 := None;
    if m + n > 0 {
      var raw := SomethingCovers(x, y, z, raws, m, n, p1, p2);
      var bound := SmallestExists(float, ac, projection, Rank95(m + n), raw);
      p3 := match bound case Infinite => None case Finite(seconds) => Some(seconds * 1000.0);
      assert ReportedAs(p3, bound);
      if m > 0 && n > 0 { NinetyFiveBetween(x, y, z, raws, m, n, p1, p2, p3); }
    }
  }

  /** The counting steps a row is made of. */
  ghost predicate CountSteps(deltas: seq<Samples>, row: Row) {
    && SumCount(deltas, WritesKey(row.projection)) == Ok(row.writes)
    && SumCount(deltas, DurationKey("_count", row.projection, "success")) == Ok(row.timing.successCount)
    && SumCount(deltas, DurationKey("_count", row.projection, "error")) == Ok(row.timing.errorCount)
    && SumSamples(deltas, DurationKey("_sum", row.projection, "success")) == Ok(row.timing.successSumSeconds)
  }

  ghost predicate Adds(x: Row, y: Row, z: Row) {
    && x.projection == y.projection == z.projection
    && z.writes == x.writes + y.writes
    && z.timing.successCount == x.timing.successCount + y.timing.successCount
    && z.timing.errorCount == x.timing.errorCount + y.timing.errorCount
    && z.timing.successSumSeconds == x.timing.successSumSeconds + y.timing.successSumSeconds
  }

  /** Every count of the whole span is the sum of its parts, and its p95 bound lies between theirs. */
  ghost predicate RowsAdd(x: Row, y: Row, z: Row) {
    && Adds(x, y, z)
    && (x.timing.successCount > 0 && y.timing.successCount > 0 ==>
          Between(x.timing.p95UpperBoundMs, z.timing.p95UpperBoundMs, y.timing.p95UpperBoundMs))
  }

  ghost predicate RowChecks(float: string -> Option<Bound>, deltas: seq<Samples>, row: Row) {
    && row.writes == row.timing.successCount
    && Readable(float, deltas, row.projection)
    && Is95(EntryOf(float, deltas, row.projection), RawBounds(deltas, row.projection),
            row.timing.successCount, row.timing.p95UpperBoundMs)
  }

  ghost predicate AverageStep(row: Row) {
    row.timing.averageSuccessMs == Average(row.timing.successSumSeconds, row.timing.successCount)
  }

  ghost predicate Steps(float: string -> Option<Bound>, deltas: seq<Samples>, row: Row) {
    CountSteps(deltas, row) && RowChecks(float, deltas, row)
  }

  lemma RowIsItsSteps(float: string -> Option<Bound>, deltas: seq<Samples>, row: Row)
    ensures ProjectionRow(float, deltas, row.projection) == Ok(row) <==>
            Steps(float, deltas, row) && AverageStep(row)
  {
    if Readable(float, deltas, row.projection) {
      P95StepIs95(float, deltas, row.projection, row.timing.successCount, row.timing.p95UpperBoundMs);
    }
  }

  lemma CountStepsChain(ab: seq<Samples>, bc: seq<Samples>, ac: seq<Samples>, x: Row, y: Row, z: Row)
    requires Composes(ab, bc, ac) && CountSteps(ab, x) && CountSteps(bc, y) && Adds(x, y, z)
    ensures CountSteps(ac, z)
  {
    CountAdds(ab, bc, ac, WritesKey(z.projection));
    CountAdds(ab, bc, ac, DurationKey("_count", z.projection, "success"));
    CountAdds(ab, bc, ac, DurationKey("_count", z.projection, "error"));
    SumAdds(ab, bc, ac, DurationKey("_sum", z.projection, "success"));
  }

  lemma RowChecksChain(
      float: string -> Option<Bound>, ab: seq<Samples>, bc: seq<Samples>, ac: seq<Samples>, x: Row, y: Row)
      returns (z: Row)
    requires Composes(ab, bc, ac) && x.projection == y.projection
    requires Cumulative(float, ab, x.projection) && Cumulative(float, bc, x.projection)
    requires RowChecks(float, ab, x) && RowChecks(float, bc, y)
    ensures RowChecks(float, ac, z) && RowsAdd(x, y, z)
  {
    var m, n := x.timing.successCount, y.timing.successCount;
    var seconds := x.timing.successSumSeconds + y.timing.successSumSeconds;
    var p95 := P95Chains(float, ab, bc, ac, x.projection, m, n, x.timing.p95UpperBoundMs, y.timing.p95UpperBoundMs);
    z := Row(x.projection, m + n,
             Timing(m + n, x.timing.errorCount + y.timing.errorCount, seconds, None, p95));
  }

  lemma StepsChain(float: string -> Option<Bound>, ab: seq<Samples>, bc: seq<Samples>, ac: seq<Samples>, x: Row, y: Row)
      returns (z: Row)
    requires Composes(ab, bc, ac) && x.projection == y.projection
    requires Cumulative(float, ab, x.projection) && Cumulative(float, bc, x.projection)
    requires Steps(float, ab, x) && Steps(float, bc, y)
    ensures Steps(float, ac, z) && RowsAdd(x, y, z)
  {
    z := RowChecksChain(float, ab, bc, ac, x, y);
    CountStepsChain(ab, bc, ac, x, y, z);
  }

  // ---- whole reports ---------------------------------------------------------------------

  /** Every node exports the same series at all three moments. */
  ghost predicate SameSeries(a: seq<Samples>, b: seq<Samples>, c: seq<Samples>) {
    |a| == |b| == |c| && forall i | 0 <= i < |a| :: a[i].Keys == b[i].Keys == c[i].Keys
  }

  /** No node fell by more than the tolerance over the whole span. */
  ghost predicate ComparableThroughout(a: seq<Samples>, c: seq<Samples>)
    requires |a| == |c|
  {
    forall i | 0 <= i < |a| :: Comparable(a[i], c[i])
  }

  /** Two differences that were taken make one over the whole span exactly when the tolerated falls in them do
      not add up to more than the tolerance. */
  lemma DeltasCompose(a: seq<Samples>, b: seq<Samples>, c: seq<Samples>)
    requires SameSeries(a, b, c) && NodeDeltas(a, b).Ok? && NodeDeltas(b, c).Ok?
    ensures NodeDeltas(a, c).Ok? <==> ComparableThroughout(a, c)
    ensures NodeDeltas(a, c).Ok? ==> Composes(NodeDeltas(a, b).value, NodeDeltas(b, c).value, NodeDeltas(a, c).value)
  {
    NodeDeltasAre(a, b);
    NodeDeltasAre(b, c);
    NodeDeltasAre(a, c);
  }

  lemma RowKeepsProjection(float: string -> Option<Bound>, deltas: seq<Samples>, projection: string)
    requires ProjectionRow(float, deltas, projection).Ok?
    ensures ProjectionRow(float, deltas, projection).value.projection == projection
  {}

  /** The rows of a report are the steps of its projections, all of them successful. */
  ghost predicate RowSteps(
      float: string -> Option<Bound>, deltas: seq<Samples>, projections: seq<string>, rows: seq<Row>) {
    |rows| == |projections|
    && forall k | 0 <= k < |rows| :: rows[k].projection == projections[k] && StepsOf(float, deltas)(rows[k])
  }

  /** Steps as a function value, for reasoning about lists of rows. */
  ghost function StepsOf(float: string -> Option<Bound>, deltas: seq<Samples>): Row -> bool {
    row => Steps(float, deltas, row)
  }

  ghost predicate AverageSteps(rows: seq<Row>) { forall row | row in rows :: AverageStep(row) }

  lemma RowAtIsItsSteps(float: string -> Option<Bound>, deltas: seq<Samples>, projection: string, row: Row)
    ensures RowOf(float, deltas)(projection) == Ok(row) <==>
            row.projection == projection && StepsOf(float, deltas)(row) && AverageStep(row)
  {
    if ProjectionRow(float, deltas, projection).Ok? { RowKeepsProjection(float, deltas, projection); }
    RowIsItsSteps(float, deltas, row);
  }

  lemma RowsAreSteps(float: string -> Option<Bound>, deltas: seq<Samples>, projections: seq<string>, rows: seq<Row>)
    ensures Traverse(RowOf(float, deltas), projections) == Ok(rows) <==>
            RowSteps(float, deltas, projections, rows) && AverageSteps(rows)
  {
    TraverseOk(RowOf(float, deltas), projections, rows);
    if |rows| == |projections| {
      forall k | 0 <= k < |rows|
        ensures RowOf(float, deltas)(projections[k]) == Ok(rows[k]) <==>
                rows[k].projection == projections[k] && StepsOf(float, deltas)(rows[k]) && AverageStep(rows[k])
      {
        RowAtIsItsSteps(float, deltas, projections[k], rows[k]);
      }
    }
  }

  function WithAverage(row: Row): Row {
    row.(timing := row.timing.(averageSuccessMs := Average(row.timing.successSumSeconds, row.timing.successCount)))
  }

  lemma WithAverageKeeps(float: string -> Option<Bound>, deltas: seq<Samples>, x: Row, y: Row, z: Row)
    requires Steps(float, deltas, z) && RowsAdd(x, y, z)
    ensures Steps(float, deltas, WithAverage(z)) && RowsAdd(x, y, WithAverage(z))
    ensures AverageStep(WithAverage(z)) && WithAverage(z).projection == z.projection
  {}

  /** z is the whole-span row at position k. */
  ghost function ChainedAt(
      float: string -> Option<Bound>, ac: seq<Samples>, projections: seq<string>, xs: seq<Row>, ys: seq<Row>)
      : (nat, Row) -> bool
    requires |xs| == |ys| == |projections|
  {
    (k: nat, z: Row) =>
      k < |xs| && z.projection == projections[k] && Steps(float, ac, z) && RowsAdd(xs[k], ys[k], z)
  }

  lemma RowStepsChain(
      float: string -> Option<Bound>, ab: seq<Samples>, bc: seq<Samples>, ac: seq<Samples>, projections: seq<string>,
      xs: seq<Row>, ys: seq<Row>) returns (zs: seq<Row>)
    requires Composes(ab, bc, ac)
    requires forall p | p in projections :: Cumulative(float, ab, p) && Cumulative(float, bc, p)
    requires RowSteps(float, ab, projections, xs) && RowSteps(float, bc, projections, ys)
    ensures |xs| == |ys| == |zs| == |projections|
    ensures forall k: nat | k < |zs| :: ChainedAt(float, ac, projections, xs, ys)(k, zs[k])
  {
    var good := ChainedAt(float, ac, projections, xs, ys);
    forall k: nat | k < |projections| ensures Solvable(good, k) {
      assert projections[k] in projections;
      assert StepsOf(float, ab)(xs[k]) && StepsOf(float, bc)(ys[k]);
      var z := StepsChain(float, ab, bc, ac, xs[k], ys[k]);
      assert good(k, z);
    }
    zs := ChooseEach(|projections|, good);
  }

  lemma FillAverages(
      float: string -> Option<Bound>, deltas: seq<Samples>, projections: seq<string>,
      xs: seq<Row>, ys: seq<Row>, zs: seq<Row>) returns (filled: seq<Row>)
    requires |xs| == |ys| == |zs| == |projections|
    requires forall k: nat | k < |zs| :: ChainedAt(float, deltas, projections, xs, ys)(k, zs[k])
    ensures RowSteps(float, deltas, projections, filled) && AverageSteps(filled)
    ensures |filled| == |zs| && forall k | 0 <= k < |zs| :: RowsAdd(xs[k], ys[k], filled[k])
  {
    filled := Map(WithAverage, zs);
    forall k | 0 <= k < |zs|
      ensures filled[k].projection == projections[k] && StepsOf(float, deltas)(filled[k])
      ensures RowsAdd(xs[k], ys[k], filled[k])
      ensures AverageStep(filled[k])
    {
      assert ChainedAt(float, deltas, projections, xs, ys)(k, zs[k]);
      WithAverageKeeps(float, deltas, xs[k], ys[k], zs[k]);
    }
  }

  /** If the reports A to B and B to C succeed over the same cumulative series, the report A to C succeeds exactly
      when no series fell by more than the tolerance in all; then its writes, successes, errors and seconds are
      the sums, and each p95 bound lies between the two. */
  lemma ReportsChain(
      float: string -> Option<Bound>, a: seq<Samples>, b: seq<Samples>, c: seq<Samples>, projections: seq<string>)
    requires SameSeries(a, b, c) && |projections| == 3
    requires BuildReport(float, a, b, projections).Ok? && BuildReport(float, b, c, projections).Ok?
    requires forall p | p in projections ::
      NodeDeltas(a, b).Ok? && Cumulative(float, NodeDeltas(a, b).value, p)
      && NodeDeltas(b, c).Ok? && Cumulative(float, NodeDeltas(b, c).value, p)
    ensures BuildReport(float, a, c, projections).Ok? <==> ComparableThroughout(a, c)
    ensures BuildReport(float, a, c, projections).Ok? ==>
      ReportsAdd(BuildReport(float, a, b, projections).value, BuildReport(float, b, c, projections).value,
                 BuildReport(float, a, c, projections).value)
  {
    var xs := ReportRows(float, a, b, projections);
    var ys := ReportRows(float, b, c, projections);
    DeltasCompose(a, b, c);
    if ComparableThroughout(a, c) {
      var zs := RowsChain(
        float, NodeDeltas(a, b).value, NodeDeltas(b, c).value, NodeDeltas(a, c).value, projections, xs, ys);
      RowsMakeAReport(float, a, c, projections, zs);
      TotalsAdd(xs, ys, zs);
    }
  }

  ghost predicate ReportsAdd(x: Report, y: Report, z: Report) {
    && z.writeOperations == x.writeOperations + y.writeOperations
    && |x.rows| == |y.rows| == |z.rows| == 3
    && forall k | 0 <= k < 3 :: RowsAdd(x.rows[k], y.rows[k], z.rows[k])
  }

  lemma RowsChain(
      float: string -> Option<Bound>, ab: seq<Samples>, bc: seq<Samples>, ac: seq<Samples>, projections: seq<string>,
      xs: seq<Row>, ys: seq<Row>) returns (zs: seq<Row>)
    requires Composes(ab, bc, ac)
    requires forall p | p in projections :: Cumulative(float, ab, p) && Cumulative(float, bc, p)
    requires RowSteps(float, ab, projections, xs) && RowSteps(float, bc, projections, ys)
    ensures RowSteps(float, ac, projections, zs) && AverageSteps(zs)
    ensures |xs| == |ys| == |zs| && forall k | 0 <= k < |zs| :: RowsAdd(xs[k], ys[k], zs[k])
  {
    var rows := RowStepsChain(float, ab, bc, ac, projections, xs, ys);
    zs := FillAverages(float, ac, projections, xs, ys, rows);
  }

  lemma TotalsAdd(xs: seq<Row>, ys: seq<Row>, zs: seq<Row>)
    requires |xs| == |ys| == |zs| == 3 && forall k | 0 <= k < 3 :: RowsAdd(xs[k], ys[k], zs[k])
    ensures Assemble(zs).writeOperations == Assemble(xs).writeOperations + Assemble(ys).writeOperations
  {
    assert RowsAdd(xs[0], ys[0], zs[0]) && RowsAdd(xs[2], ys[2], zs[2]);
  }

  lemma ReportRows(float: string -> Option<Bound>, a: seq<Samples>, b: seq<Samples>, projections: seq<string>)
      returns (rows: seq<Row>)
    requires |projections| == 3 && BuildReport(float, a, b, projections).Ok?
    ensures NodeDeltas(a, b).Ok? && |rows| == 3 && RowSteps(float, NodeDeltas(a, b).value, projections, rows)
    ensures BuildReport(float, a, b, projections) == Ok(Assemble(rows))
  {
    rows := BuildReport(float, a, b, projections).value.rows;
    RowsAreSteps(float, NodeDeltas(a, b).value, projections, rows);
  }

  lemma RowsMakeAReport(
      float: string -> Option<Bound>, a: seq<Samples>, b: seq<Samples>, projections: seq<string>, rows: seq<Row>)
    requires |projections| == 3 && NodeDeltas(a, b).Ok?
    requires RowSteps(float, NodeDeltas(a, b).value, projections, rows) && AverageSteps(rows)
    ensures |rows| == 3 && BuildReport(float, a, b, projections) == Ok(Assemble(rows))
  {
    RowsAreSteps(float, NodeDeltas(a, b).value, projections, rows);
  }

  /** Histograms that reflect growing logs satisfy the cumulative hypothesis. */
  lemma LogsAreCumulative(
      float: string -> Option<Bound>, projection: string, raws: set<string>, befores: seq<Samples>,
      afters: seq<Samples>,
      logs: seq<seq<real>>, recent: seq<seq<real>>, deltas: seq<Samples>)
    requires Fleet(float, projection, raws, befores, afters, logs, recent)
    requires NodeDeltas(befores, afters) == Ok(deltas)
    ensures Cumulative(float, deltas, projection)
  {
    FleetBounds(float, projection, raws, befores, afters, logs, recent, deltas);
    FleetIsReadable(float, projection, raws, befores, afters, logs, recent, deltas);
    var entry := EntryOf(float, deltas, projection);
    forall r, s | r in RawBounds(deltas, projection) && s in RawBounds(deltas, projection)
                  && BoundLe(entry(r).bound, entry(s).bound)
      ensures entry(r).count <= entry(s).count
    {
      WithinMonotone(Flatten(recent), entry(r).bound, entry(s).bound);
    }
  }

  lemma WithinMonotone(log: seq<real>, a: Bound, b: Bound)
    requires BoundLe(a, b)
    ensures CountWithin(log, a) <= CountWithin(log, b)
  {
    if b.Finite? {
      CountMonotone(log, a.seconds, b.seconds);
    } else if a.Finite? {
      P.CountAtMost(log, a.seconds, |log|);
    }
  }
}
