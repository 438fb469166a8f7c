/** What the numbers that scripts/bench/conversation_metrics.py writes are, said of the snapshots alone: sums over the
    nodes of what changed in one series, rounded. */
module WrittenDeltas {
  import opened Rounding
  import opened Sorting
  import opened Text
  import opened Wrappers
  import opened ConversationMetrics
  import opened HistogramMeaning
  import opened HistogramExport
  import opened SnapshotChaining
  import opened ConversationBaseline
  import P = Percentile

  const WRITES := "dipole_conversation_projection_writes_total"
  const COUNTS := "dipole_conversation_projection_write_duration_seconds_count"
  const SUMS := "dipole_conversation_projection_write_duration_seconds_sum"
  const BUCKETS := "dipole_conversation_projection_write_duration_seconds_bucket"

  function Writes(p: string): Key { Key(WRITES, map["projection" := p]) }

  function Timed(name: string, p: string, outcome: string): Key {
    Key(name, map["projection" := p, "outcome" := outcome])
  }

  function Bucketed(p: string, le: string): Key {
    Key(BUCKETS, map["projection" := p, "outcome" := "success", "le" := le])
  }

  lemma KeysAreSpelled(p: string, le: string)
    ensures Writes(p) == WritesKey(p)
    ensures Timed(COUNTS, p, "success") == DurationKey("_count", p, "success")
    ensures Timed(COUNTS, p, "error") == DurationKey("_count", p, "error")
    ensures Timed(SUMS, p, "success") == DurationKey("_sum", p, "success")
    ensures Bucketed(p, le) == BucketKey(p, le)
  {
    assert COUNTS == DURATION_SOURCE + "_count" && SUMS == DURATION_SOURCE + "_sum";
    assert BUCKETS == DURATION_SOURCE + "_bucket";
  }

  /** How much a series changed, over all nodes. */
  function Change(befores: seq<Samples>, afters: seq<Samples>, key: Key): real
    requires |befores| == |afters|
  {
    if befores == [] then 0.0
    else
      var last := |befores| - 1;
      Change(befores[..last], afters[..last], key)
      + if key in befores[last] && key in afters[last] then afters[last][key] - befores[last][key] else 0.0
  }

  ghost predicate OnEveryNode(befores: seq<Samples>, key: Key) { forall b | b in befores :: key in b }

  lemma {:induction false} TotalIsChange(befores: seq<Samples>, afters: seq<Samples>, deltas: seq<Samples>, key: Key)
    requires |befores| == |afters| == |deltas| && Everywhere(deltas, key)
    requires forall i | 0 <= i < |befores| ::
      befores[i].Keys <= afters[i].Keys && deltas[i] == Delta(befores[i], afters[i])
    ensures Total(deltas, key) == Change(befores, afters, key)
  {
    if befores != [] {
      var last := |befores| - 1;
      assert deltas[last] in deltas;
      TotalIsChange(befores[..last], afters[..last], deltas[..last], key);
    }
  }

  lemma SumIsChange(befores: seq<Samples>, afters: seq<Samples>, key: Key, total: real)
    requires NodeDeltas(befores, afters).Ok? && SumSamples(NodeDeltas(befores, afters).value, key) == Ok(total)
    ensures |befores| == |afters| && OnEveryNode(befores, key) && total == Change(befores, afters, key)
  {
    var deltas := NodeDeltas(befores, afters).value;
    NodeDeltasAre(befores, afters);
    TotalIsChange(befores, afters, deltas, key);
    forall b | b in befores ensures key in b {
      var i :| 0 <= i < |befores| && befores[i] == b;
      assert deltas[i] in deltas;
    }
  }

  lemma CountIsChange(befores: seq<Samples>, afters: seq<Samples>, key: Key, count: nat)
    requires NodeDeltas(befores, afters).Ok? && SumCount(NodeDeltas(befores, afters).value, key) == Ok(count)
    ensures |befores| == |afters| && OnEveryNode(befores, key) && count as real == Change(befores, afters, key)
  {
    SumIsChange(befores, afters, key, SumSamples(NodeDeltas(befores, afters).value, key).value);
  }

  /** Differences are taken exactly of as many snapshots after as before, in which every series of before is still
      there and has not fallen by more than a millionth of a millionth. */
  lemma DeltasAreTaken(befores: seq<Samples>, afters: seq<Samples>)
    ensures NodeDeltas(befores, afters).Ok? <==>
      && |befores| == |afters|
      && forall i, key | 0 <= i < |befores| && key in befores[i] ::
           key in afters[i] && afters[i][key] + 0.000000000001 >= befores[i][key]
  {
    if |befores| == |afters| { NodeDeltasAre(befores, afters); }
  }

  /** A change is a count exactly when it is a natural number. */
  lemma NaturalsAreCounts(value: real, n: nat)
    ensures AsCount(value) == Ok(n) <==> value == n as real
  {}

  predicate Below(a: Bound, b: Bound) { a.Finite? && (b.Infinite? || a.seconds < b.seconds) }

  /** Bounds are ordered as numbers, the infinite one last. */
  lemma BoundsAreOrdered(a: Bound, b: Bound)
    ensures BoundLt(a, b) <==> Below(a, b)
    ensures BoundLe(a, b) <==> Below(a, b) || a == b
  {}

  function IsOf(key: Key): Line -> bool { (line: Line) => line.Sample? && line.key == key }

  function ValueOf(): Line -> real { (line: Line) => if line.Sample? then line.value else 0.0 }

  /** A series read from a snapshot is the sum of its lines. */
  lemma {:induction false} SampleIsSum(lines: seq<Line>, key: Key)
    ensures SampleTotal(lines, key) == P.RealSum(Map(ValueOf(), Filter(IsOf(key), lines)))
  {
    if lines != [] {
      var last := |lines| - 1;
      var before := Filter(IsOf(key), lines[..last]);
      SampleIsSum(lines[..last], key);
      assert before + [] == before;
      if IsOf(key)(lines[last]) {
        MapAppend(ValueOf(), before, [lines[last]]);
        P.RealSumSteps(Map(ValueOf(), before), lines[last].value);
        assert Map(ValueOf(), [lines[last]]) == [lines[last].value];
      }
    } else {
      assert Map(ValueOf(), Filter(IsOf(key), lines)) == [];
    }
  }

  /** Which lines of a snapshot are read: not blank ones, comments, lines of another form or other metrics. */
  lemma LinesAreRead(grammar: string -> Option<Match>, left: string, line: string, right: string)
    requires AllOf(left, IsPythonSpace) && AllOf(right, IsPythonSpace)
    requires line == "" || (!IsPythonSpace(line[0]) && !IsPythonSpace(line[|line| - 1]))
    ensures var read := LineOf(grammar)(left + line + right);
      if line == "" || line[0] == '#' || grammar(line).None?
         || !("dipole_conversation_projection_" <= grammar(line).value.name) then read == Skipped
      else if grammar(line).value.sample.None? then read == Unreadable
      else
        var (labels, value) := grammar(line).value.sample.value;
        read == Sample(Key(grammar(line).value.name, labels), value)
  {
    TrimByExactly(left, line, right, IsPythonSpace);
  }

  // ---- counts, sums and averages ---------------------------------------------------------

  /** The numbers of one projection, all but the p95. */
  ghost predicate RightNumbers(befores: seq<Samples>, afters: seq<Samples>, w: Written, p: string)
    requires |befores| == |afters|
  {
    && p in w.projectionWrites && p in w.timing
    && var t := w.timing[p];
    && var seconds := Change(befores, afters, Timed(SUMS, p, "success"));
    && OnEveryNode(befores, Writes(p)) && OnEveryNode(befores, Timed(COUNTS, p, "success"))
    && OnEveryNode(befores, Timed(COUNTS, p, "error")) && OnEveryNode(befores, Timed(SUMS, p, "success"))
    && w.projectionWrites[p] as real == Change(befores, afters, Writes(p))
    && t.successCount as real == Change(befores, afters, Timed(COUNTS, p, "success"))
    && t.errorCount as real == Change(befores, afters, Timed(COUNTS, p, "error"))
    && Nearest(t.successSumNanos, seconds * 1000000000.0)
    && (t.averageNanos.None? <==> t.successCount == 0)
    && (t.successCount > 0 ==> Nearest(t.averageNanos.value, seconds / t.successCount as real * 1000000000.0))
  }

  lemma AverageInNanos(seconds: real, n: real)
    requires n > 0.0
    ensures seconds * 1000.0 / n * 1000000.0 == seconds / n * 1000000000.0
  {
    var q := seconds / n;
    assert seconds == q * n;
    Divided(q * 1000.0, seconds * 1000.0, n);
  }

  lemma Divided(q: real, x: real, n: real)
    requires n > 0.0 && q * n == x
    ensures x / n == q
  {}

  /** The timing of a row, as it is written. */
  lemma WrittenTimingIs(t: Timing)
    requires t.averageSuccessMs == Average(t.successSumSeconds, t.successCount)
    ensures var w := WriteTiming(t);
      && w.successCount == t.successCount && w.errorCount == t.errorCount
      && Nearest(w.successSumNanos, t.successSumSeconds * 1000000000.0)
      && (w.averageNanos.None? <==> t.successCount == 0)
      && (t.successCount > 0 ==>
            Nearest(w.averageNanos.value, t.successSumSeconds / t.successCount as real * 1000000000.0))
      && (w.p95Nanos.None? <==> t.p95UpperBoundMs.None?)
      && (w.p95Nanos.Some? ==> Nearest(w.p95Nanos.value, t.p95UpperBoundMs.value * 1000000.0))
  {
    var w := WriteTiming(t);
    RoundsToNearest(w.successSumNanos, t.successSumSeconds * NANOS_PER_SECOND);
    if t.p95UpperBoundMs.Some? { RoundsToNearest(w.p95Nanos.value, t.p95UpperBoundMs.value * NANOS_PER_MILLI); }
    if t.successCount > 0 {
      RoundsToNearest(w.averageNanos.value, t.averageSuccessMs.value * NANOS_PER_MILLI);
      AverageInNanos(t.successSumSeconds, t.successCount as real);
    }
  }

  lemma RowNumbers(
      befores: seq<Samples>, afters: seq<Samples>, float: string -> Option<Bound>, w: Written, row: Row)
    requires NodeDeltas(befores, afters).Ok? && CountSteps(NodeDeltas(befores, afters).value, row)
    requires row.timing.averageSuccessMs == Average(row.timing.successSumSeconds, row.timing.successCount)
    requires row.projection in w.projectionWrites && w.projectionWrites[row.projection] == row.writes
    requires row.projection in w.timing && w.timing[row.projection] == WriteTiming(row.timing)
    ensures |befores| == |afters| && RightNumbers(befores, afters, w, row.projection)
  {
    var p := row.projection;
    KeysAreSpelled(p, "");
    CountIsChange(befores, afters, Writes(p), row.writes);
    CountIsChange(befores, afters, Timed(COUNTS, p, "success"), row.timing.successCount);
    CountIsChange(befores, afters, Timed(COUNTS, p, "error"), row.timing.errorCount);
    SumIsChange(befores, afters, Timed(SUMS, p, "success"), row.timing.successSumSeconds);
    WrittenTimingIs(row.timing);
  }

  // ---- the p95 ---------------------------------------------------------------------------

  /** A bucket of the projection's successes. */
  predicate IsBucket(key: Key, p: string) {
    && key.name == BUCKETS && "projection" in key.labels && key.labels["projection"] == p
    && "outcome" in key.labels && key.labels["outcome"] == "success" && "le" in key.labels
  }

  /** The bounds of the projection's success buckets on any node. */
  ghost function Labels(befores: seq<Samples>, p: string): set<string> {
    set b, key | b in befores && key in b && IsBucket(key, p) :: key.labels["le"]
  }

  function BoundOf(float: string -> Option<Bound>, le: string): Option<Bound> {
    if le == "+Inf" then Some(Infinite) else float(le)
  }

  /** At least 95 of a hundred of the new observations fell into the bucket. */
  ghost predicate Covered(befores: seq<Samples>, afters: seq<Samples>, p: string, le: string, n: nat)
    requires |befores| == |afters|
  {
    100.0 * Change(befores, afters, Bucketed(p, le)) >= (95 * n) as real
  }

  /** The smallest bound that covers so many, in whole nanoseconds; none for the infinite one or no observations. */
  ghost predicate RightP95(
      float: string -> Option<Bound>, befores: seq<Samples>, afters: seq<Samples>, p: string, n: nat,
      nanos: Option<int>)
    requires |befores| == |afters|
  {
    if n == 0 then nanos == None
    else exists bound :: RightBound(float, befores, afters, p, n, bound) && WrittenAs(nanos, bound)
  }

  ghost predicate RightBound(
      float: string -> Option<Bound>, befores: seq<Samples>, afters: seq<Samples>, p: string, n: nat, bound: Bound)
    requires |befores| == |afters|
  {
    && (exists le ::
          le in Labels(befores, p) && BoundOf(float, le) == Some(bound) && Covered(befores, afters, p, le, n))
    && forall le | le in Labels(befores, p) && BoundOf(float, le).Some? && BoundLt(BoundOf(float, le).value, bound) ::
         !Covered(befores, afters, p, le, n)
  }

  predicate WrittenAs(nanos: Option<int>, bound: Bound) {
    match bound
    case Infinite => nanos == None
    case Finite(seconds) => nanos.Some? && Nearest(nanos.value, seconds * 1000000000.0)
  }

  lemma LabelsAreBounds(befores: seq<Samples>, afters: seq<Samples>, p: string)
    requires NodeDeltas(befores, afters).Ok?
    ensures RawBounds(NodeDeltas(befores, afters).value, p) == Labels(befores, p)
  {
    var deltas := NodeDeltas(befores, afters).value;
    NodeDeltasAre(befores, afters);
    forall le | le in Labels(befores, p) ensures le in RawBounds(deltas, p) {
      var b, key :| b in befores && key in b && IsBucket(key, p) && key.labels["le"] == le;
      KeysAreSpelled(p, le);
      var i :| 0 <= i < |befores| && befores[i] == b;
      assert deltas[i] in deltas && key in deltas[i];
    }
    forall le | le in RawBounds(deltas, p) ensures le in Labels(befores, p) {
      var d, key :| && d in deltas && key in d && IsSuccessBucket(key, p)
                    && "le" in key.labels && key.labels["le"] == le;
      var i :| 0 <= i < |deltas| && deltas[i] == d;
      assert befores[i] in befores && key in befores[i];
      KeysAreSpelled(p, le);
      assert IsBucket(key, p);
    }
  }

  predicate Counts(value: real, n: nat) { value == n as real }

  /** A bucket that every node has, under a bound that parses, with a natural number of observations. */
  ghost predicate BoundIsRead(float: string -> Option<Bound>, deltas: seq<Samples>, p: string, le: string) {
    && BoundOf(float, le).Some?
    && (forall d | d in deltas :: Bucketed(p, le) in d)
    && exists n: nat :: Counts(Total(deltas, Bucketed(p, le)), n)
  }

  lemma EntryIsRead(float: string -> Option<Bound>, deltas: seq<Samples>, p: string, le: string)
    ensures Entry(float, deltas, p, le).Some? <==> BoundIsRead(float, deltas, p, le)
  {
    KeysAreSpelled(p, le);
    if Everywhere(deltas, Bucketed(p, le)) {
      var total := Total(deltas, Bucketed(p, le));
      if AsCount(total).Ok? {
        NaturalsAreCounts(total, AsCount(total).value);
        assert Counts(total, AsCount(total).value);
      }
      if n: nat :| Counts(total, n) { NaturalsAreCounts(total, n); }
    }
  }

  /** The success histogram is read exactly when each of its buckets has a bound, and each bound is read. */
  lemma HistogramIsReadExactly(float: string -> Option<Bound>, deltas: seq<Samples>, p: string)
    ensures Buckets(float, deltas, p).Ok? <==>
      && (forall d, key
            | d in deltas && key in d && key.name == BUCKETS
              && ("projection", p) in key.labels.Items && ("outcome", "success") in key.labels.Items ::
            "le" in key.labels)
      && forall le | le in Labels(deltas, p) :: BoundIsRead(float, deltas, p, le)
  {
    forall le ensures Entry(float, deltas, p, le).Some? <==> BoundIsRead(float, deltas, p, le) {
      EntryIsRead(float, deltas, p, le);
    }
    forall key: Key
      ensures IsSuccessBucket(key, p) <==>
        key.name == BUCKETS && ("projection", p) in key.labels.Items && ("outcome", "success") in key.labels.Items
    {
      KeysAreSpelled(p, "");
    }
    assert RawBounds(deltas, p) == Labels(deltas, p) by {
      forall le ensures le in RawBounds(deltas, p) <==> le in Labels(deltas, p) { KeysAreSpelled(p, le); }
    }
  }

  lemma EntryIsChange(
      float: string -> Option<Bound>, befores: seq<Samples>, afters: seq<Samples>, p: string, le: string, n: nat)
    requires NodeDeltas(befores, afters).Ok? && Readable(float, NodeDeltas(befores, afters).value, p)
    requires le in Labels(befores, p)
    ensures |befores| == |afters|
    ensures var entry := EntryOf(float, NodeDeltas(befores, afters).value, p)(le);
      && BoundOf(float, le) == Some(entry.bound)
      && (entry.count >= Rank95(n) <==> Covered(befores, afters, p, le, n))
  {
    var deltas := NodeDeltas(befores, afters).value;
    LabelsAreBounds(befores, afters, p);
    assert Entry(float, deltas, p, le).Some?;
    var count := EntryOf(float, deltas, p)(le).count;
    KeysAreSpelled(p, le);
    CountIsChange(befores, afters, Bucketed(p, le), count);
    RankIsPercentileRank(n);
    P.RankIsCeiling(95, n, count);
  }

  lemma Is95IsRight(
      float: string -> Option<Bound>, befores: seq<Samples>, afters: seq<Samples>, row: Row, nanos: Option<int>)
    requires NodeDeltas(befores, afters).Ok? && RowChecks(float, NodeDeltas(befores, afters).value, row)
    requires nanos.None? <==> row.timing.p95UpperBoundMs.None?
    requires nanos.Some? ==> Nearest(nanos.value, row.timing.p95UpperBoundMs.value * 1000000.0)
    ensures |befores| == |afters|
    ensures RightP95(float, befores, afters, row.projection, row.timing.successCount, nanos)
  {
    var deltas, p, n := NodeDeltas(befores, afters).value, row.projection, row.timing.successCount;
    NodeDeltasAre(befores, afters);
    LabelsAreBounds(befores, afters, p);
    if n > 0 {
      var entry := EntryOf(float, deltas, p);
      var ms := row.timing.p95UpperBoundMs;
      var bound :| Smallest(entry, RawBounds(deltas, p), Rank95(n), bound) && ReportedAs(ms, bound);
      EntriesAreChanges(float, befores, afters, p, n);
      SmallestIsRight(float, befores, afters, p, n, entry, bound);
      MillisAreWritten(ms, bound, nanos);
    }
  }

  lemma MillisAreWritten(ms: Option<real>, bound: Bound, nanos: Option<int>)
    requires ReportedAs(ms, bound) && (nanos.None? <==> ms.None?)
    requires nanos.Some? ==> Nearest(nanos.value, ms.value * 1000000.0)
    ensures WrittenAs(nanos, bound)
  {
    if bound.Finite? { assert bound.seconds * 1000.0 * 1000000.0 == bound.seconds * 1000000000.0; }
  }

  lemma EntriesAreChanges(
      float: string -> Option<Bound>, befores: seq<Samples>, afters: seq<Samples>, p: string, n: nat)
    requires NodeDeltas(befores, afters).Ok? && Readable(float, NodeDeltas(befores, afters).value, p)
    ensures |befores| == |afters|
    ensures forall le | le in Labels(befores, p) ::
      var entry := EntryOf(float, NodeDeltas(befores, afters).value, p)(le);
      && BoundOf(float, le) == Some(entry.bound)
      && (entry.count >= Rank95(n) <==> Covered(befores, afters, p, le, n))
  {
    NodeDeltasAre(befores, afters);
    forall le | le in Labels(befores, p)
      ensures var entry := EntryOf(float, NodeDeltas(befores, afters).value, p)(le);
        && BoundOf(float, le) == Some(entry.bound)
        && (entry.count >= Rank95(n) <==> Covered(befores, afters, p, le, n))
    {
      EntryIsChange(float, befores, afters, p, le, n);
    }
  }

  lemma SmallestIsRight(
      float: string -> Option<Bound>, befores: seq<Samples>, afters: seq<Samples>, p: string, n: nat,
      entry: string -> Bucket, bound: Bound)
    requires |befores| == |afters| && Smallest(entry, Labels(befores, p), Rank95(n), bound)
    requires forall le | le in Labels(befores, p) ::
      && BoundOf(float, le) == Some(entry(le).bound)
      && (entry(le).count >= Rank95(n) <==> Covered(befores, afters, p, le, n))
    ensures RightBound(float, befores, afters, p, n, bound)
  {
    var le :| le in Labels(befores, p) && entry(le).bound == bound && entry(le).count >= Rank95(n);
    assert BoundOf(float, le) == Some(bound) && Covered(befores, afters, p, le, n);
  }

  // ---- the whole report ------------------------------------------------------------------

  /** What the program writes. */
  ghost function WrittenDelta(float: string -> Option<Bound>, befores: seq<Samples>, afters: seq<Samples>)
      : Result<Written, Error> {
    match BuildReport(float, befores, afters, PROJECTIONS)
    case Err(e) => Err(e)
    case Ok(report) => Ok(WriteReport(report))
  }

  /** Every number is what it is called. */
  ghost predicate RightReading(float: string -> Option<Bound>, befores: seq<Samples>, afters: seq<Samples>, w: Written)
    requires |befores| == |afters|
  {
    && (forall p | p in ["direct_message", "group_init", "group_message"] ::
          && RightNumbers(befores, afters, w, p) && w.projectionWrites[p] == w.timing[p].successCount >= 0
          && RightP95(float, befores, afters, p, w.projectionWrites[p], w.timing[p].p95Nanos))
    && "direct_message" in w.projectionWrites && "group_message" in w.projectionWrites
    && w.writeOperations == w.projectionWrites["direct_message"] + w.projectionWrites["group_message"]
    && w.counterSource == WRITES && w.durationSource == "dipole_conversation_projection_write_duration_seconds"
  }

  lemma RowIsRead(
      float: string -> Option<Bound>, befores: seq<Samples>, afters: seq<Samples>, w: Written, row: Row)
    requires NodeDeltas(befores, afters).Ok? && Steps(float, NodeDeltas(befores, afters).value, row) && AverageStep(row)
    requires row.projection in w.projectionWrites && w.projectionWrites[row.projection] == row.writes
    requires row.projection in w.timing && w.timing[row.projection] == WriteTiming(row.timing)
    ensures |befores| == |afters| && RightNumbers(befores, afters, w, row.projection)
    ensures row.writes == row.timing.successCount == w.timing[row.projection].successCount
    ensures RightP95(float, befores, afters, row.projection, row.writes, w.timing[row.projection].p95Nanos)
  {
    RowNumbers(befores, afters, float, w, row);
    WrittenTimingIs(row.timing);
    Is95IsRight(float, befores, afters, row, WriteTiming(row.timing).p95Nanos);
  }

  /** Whenever a difference is written, each count is the change of its series over all nodes, the summed time and the
      average are the nearest nanosecond, and the p95 is the smallest bound that covers 95 of a hundred. */
  lemma WrittenNumbersAreRight(float: string -> Option<Bound>, befores: seq<Samples>, afters: seq<Samples>, w: Written)
    requires WrittenDelta(float, befores, afters) == Ok(w)
    ensures |befores| == |afters| && RightReading(float, befores, afters, w)
  {
    var report := BuildReport(float, befores, afters, PROJECTIONS).value;
    var deltas := NodeDeltas(befores, afters).value;
    NodeDeltasAre(befores, afters);
    RowsAreCoherent(float, befores, afters, report);
    RowsAreSteps(float, deltas, PROJECTIONS, report.rows);
    ThreeRowsWritten(report.rows);
    forall k | 0 <= k < 3
      ensures RightNumbers(befores, afters, w, NAMES[k])
      ensures w.projectionWrites[NAMES[k]] == w.timing[NAMES[k]].successCount
      ensures RightP95(float, befores, afters, NAMES[k], w.projectionWrites[NAMES[k]], w.timing[NAMES[k]].p95Nanos)
    {
      assert StepsOf(float, deltas)(report.rows[k]) && report.rows[k] in report.rows;
      RowIsRead(float, befores, afters, w, report.rows[k]);
    }
  }

  // ---- nodes that follow their logs ------------------------------------------------------

  /** The written numbers are those of what was logged during the measurement. */
  ghost predicate RightWritten(float: string -> Option<Bound>, works: seq<Work>, w: Written)
    requires |works| == 3
  {
    && w.writeOperations == |Flatten(works[0].recent)| + |Flatten(works[2].recent)|
    && forall k | 0 <= k < 3 ::
      BoundsParse(float, works[k].raws) && NAMES[k] in w.projectionWrites && NAMES[k] in w.timing
         && w.projectionWrites[NAMES[k]] == |Flatten(works[k].recent)|
         && RightTiming(float, works[k], w.timing[NAMES[k]])
  }

  ghost predicate RightTiming(float: string -> Option<Bound>, work: Work, t: WrittenTiming)
    requires BoundsParse(float, work.raws)
  {
    var all := Flatten(work.recent);
    && t.successCount == |all| && t.errorCount == |Flatten(work.failing)|
    && Nearest(t.successSumNanos, P.RealSum(all) * 1000000000.0)
    && (t.averageNanos.None? <==> all == [])
    && (all != [] ==> Nearest(t.averageNanos.value, P.RealSum(all) / |all| as real * 1000000000.0))
    && if all == [] then t.p95Nanos == None
       else exists bound :: CoveringBound(float, work.raws, all, bound) && WrittenAs(t.p95Nanos, bound)
  }

  lemma RightRowIsWrittenRight(float: string -> Option<Bound>, p: string, work: Work, row: Row)
    requires RightRow(float, p, work, row) && Coherent(row)
    ensures RightTiming(float, work, WriteTiming(row.timing))
  {
    var all, t := Flatten(work.recent), row.timing;
    WrittenTimingIs(t);
    if all != [] {
      var bound :| ReportedAs(t.p95UpperBoundMs, bound) && CoveringBound(float, work.raws, all, bound);
      MillisAreWritten(t.p95UpperBoundMs, bound, WriteTiming(t).p95Nanos);
    }
  }

  /** If the series of all three projections follow their logs, a difference is written exactly when it can be taken,
      and all its numbers are those of the logs. */
  lemma FaithfulFleetIsWritten(
      float: string -> Option<Bound>, befores: seq<Samples>, afters: seq<Samples>, works: seq<Work>)
    requires |works| == 3 && forall k | 0 <= k < 3 :: Follows(float, NAMES[k], befores, afters, works[k])
    ensures WrittenDelta(float, befores, afters).Ok? <==> NodeDeltas(befores, afters).Ok?
    ensures WrittenDelta(float, befores, afters).Ok? ==>
      RightWritten(float, works, WrittenDelta(float, befores, afters).value)
  {
    assert NAMES == PROJECTIONS;
    FaithfulFleetIsReported(float, PROJECTIONS, befores, afters, works);
    if NodeDeltas(befores, afters).Ok? {
      var report := BuildReport(float, befores, afters, PROJECTIONS).value;
      RowsAreCoherent(float, befores, afters, report);
      ThreeRowsWritten(report.rows);
      forall k | 0 <= k < 3 ensures RightTiming(float, works[k], WriteTiming(report.rows[k].timing)) {
        RightRowIsWrittenRight(float, NAMES[k], works[k], report.rows[k]);
      }
    }
  }
}
