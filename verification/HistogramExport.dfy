/** Nodes whose series of all three projections follow their logs: scripts/bench/conversation_metrics.py refuses
    them only for a series that vanished or fell, and what it reports for them is sound. Such nodes exist for all
    logs. */
module HistogramExport {
  import opened Sorting
  import opened Wrappers
  import opened ConversationMetrics
  import opened HistogramMeaning
  import P = Percentile

  /** The other series of a projection: writes and failed operations are counted, successful time summed. */
  ghost predicate Accompanied(projection: string, samples: Samples, log: seq<real>, failures: seq<real>) {
    && WritesKey(projection) in samples && samples[WritesKey(projection)] == |log| as real
    && DurationKey("_count", projection, "error") in samples
    && samples[DurationKey("_count", projection, "error")] == |failures| as real
    && DurationKey("_sum", projection, "success") in samples
    && samples[DurationKey("_sum", projection, "success")] == P.RealSum(log)
  }

  ghost predicate AccompaniedFleet(
      projection: string, befores: seq<Samples>, afters: seq<Samples>, logs: seq<seq<real>>, recent: seq<seq<real>>,
      failed: seq<seq<real>>, failing: seq<seq<real>>) {
    && |befores| == |afters| == |logs| == |recent| == |failed| == |failing|
    && forall i | 0 <= i < |befores| ::
         && Accompanied(projection, befores[i], logs[i], failed[i])
         && Accompanied(projection, afters[i], logs[i] + recent[i], failed[i] + failing[i])
  }

  lemma {:induction false} SumAppend(a: seq<real>, b: seq<real>)
    ensures P.RealSum(a + b) == P.RealSum(a) + P.RealSum(b)
  {
    if a == [] {
      assert a + b == b;
    } else {
      assert (a + b)[1..] == a[1..] + b;
      SumAppend(a[1..], b);
    }
  }

  lemma {:induction false} TotalSums(deltas: seq<Samples>, key: Key, recent: seq<seq<real>>)
    requires |deltas| == |recent|
    requires forall i | 0 <= i < |deltas| :: key in deltas[i] && deltas[i][key] == P.RealSum(recent[i])
    ensures Everywhere(deltas, key) && Total(deltas, key) == P.RealSum(Flatten(recent))
  {
    if deltas != [] {
      var last := |deltas| - 1;
      TotalSums(deltas[..last], key, recent[..last]);
      SumAppend(Flatten(recent[..last]), recent[last]);
    }
  }

  lemma TimeIsSummed(
      befores: seq<Samples>, afters: seq<Samples>, deltas: seq<Samples>, key: Key, logs: seq<seq<real>>,
      recent: seq<seq<real>>)
    requires NodeDeltas(befores, afters) == Ok(deltas) && |befores| == |afters| == |logs| == |recent|
    requires forall i | 0 <= i < |befores| ::
      && key in befores[i] && befores[i][key] == P.RealSum(logs[i])
      && key in afters[i] && afters[i][key] == P.RealSum(logs[i] + recent[i])
    ensures SumSamples(deltas, key) == Ok(P.RealSum(Flatten(recent)))
  {
    NodeDeltasAre(befores, afters);
    forall i | 0 <= i < |deltas| ensures key in deltas[i] && deltas[i][key] == P.RealSum(recent[i]) {
      SumAppend(logs[i], recent[i]);
    }
    TotalSums(deltas, key, recent);
  }

  /** The row of a projection whose series follow the logs is never refused: no count is fractional or missing, writes
      match successes, the buckets can be read, and the p95 scan finds a bound. It holds the number and the total
      time of the new observations, and the number of new failures. */
  lemma FaithfulRowIsReported(
      float: string -> Option<Bound>, projection: string, raws: set<string>, befores: seq<Samples>,
      afters: seq<Samples>,
      logs: seq<seq<real>>, recent: seq<seq<real>>, failed: seq<seq<real>>, failing: seq<seq<real>>,
      deltas: seq<Samples>)
    requires Fleet(float, projection, raws, befores, afters, logs, recent)
    requires AccompaniedFleet(projection, befores, afters, logs, recent, failed, failing)
    requires NodeDeltas(befores, afters) == Ok(deltas)
    ensures ProjectionRow(float, deltas, projection).Ok?
    ensures var row := ProjectionRow(float, deltas, projection).value;
      && SoundRow(float, raws, Flatten(recent), row) && row.projection == projection
      && row.timing.errorCount == |Flatten(failing)| && row.timing.successSumSeconds == P.RealSum(Flatten(recent))
  {
    GrowthIsCounted(befores, afters, deltas, WritesKey(projection), logs, recent);
    GrowthIsCounted(befores, afters, deltas, DurationKey("_count", projection, "error"), failed, failing);
    TimeIsSummed(befores, afters, deltas, DurationKey("_sum", projection, "success"), logs, recent);
    P95CoversTheNewObservations(float, projection, raws, befores, afters, logs, recent, deltas);
    var row := ProjectionRow(float, deltas, projection).value;
    RowIsSound(float, projection, raws, befores, afters, logs, recent, deltas, row);
  }

  // ---- whole reports ---------------------------------------------------------------------

  /** What the nodes logged of one projection, and the raw bounds of its histogram: durations of successes and of
      failures, before the measurement and during it. */
  datatype Work = Work(
    raws: set<string>, logs: seq<seq<real>>, recent: seq<seq<real>>, failed: seq<seq<real>>, failing: seq<seq<real>>)

  /** The series of the projection follow the logs on every node. */
  ghost predicate Follows(
      float: string -> Option<Bound>, projection: string, befores: seq<Samples>, afters: seq<Samples>, w: Work) {
    && Fleet(float, projection, w.raws, befores, afters, w.logs, w.recent)
    && AccompaniedFleet(projection, befores, afters, w.logs, w.recent, w.failed, w.failing)
  }

  /** The row is right about what was logged during the measurement. */
  ghost predicate RightRow(float: string -> Option<Bound>, projection: string, w: Work, row: Row) {
    && BoundsParse(float, w.raws) && SoundRow(float, w.raws, Flatten(w.recent), row) && row.projection == projection
    && row.timing.errorCount == |Flatten(w.failing)| && row.timing.successSumSeconds == P.RealSum(Flatten(w.recent))
  }

  /** Some row of the projection, right for its work, is what the deltas give. */
  ghost function RightRowOf(
      float: string -> Option<Bound>, deltas: seq<Samples>, projections: seq<string>, works: seq<Work>)
      : (nat, Row) -> bool
    requires |projections| == |works|
  {
    (k: nat, row: Row) =>
      && k < |works| && RightRow(float, projections[k], works[k], row)
      && RowOf(float, deltas)(projections[k]) == Ok(row)
  }

  lemma RightRowFor(
      float: string -> Option<Bound>, projection: string, befores: seq<Samples>, afters: seq<Samples>, w: Work,
      deltas: seq<Samples>) returns (row: Row)
    requires Follows(float, projection, befores, afters, w) && NodeDeltas(befores, afters) == Ok(deltas)
    ensures RowOf(float, deltas)(projection) == Ok(row) && RightRow(float, projection, w, row)
  {
    FaithfulRowIsReported(
      float, projection, w.raws, befores, afters, w.logs, w.recent, w.failed, w.failing, deltas);
    row := ProjectionRow(float, deltas, projection).value;
  }

  lemma RightRowExists(
      float: string -> Option<Bound>, befores: seq<Samples>, afters: seq<Samples>, deltas: seq<Samples>,
      projections: seq<string>, works: seq<Work>, k: nat)
    requires |projections| == |works| && k < |works| && NodeDeltas(befores, afters) == Ok(deltas)
    requires Follows(float, projections[k], befores, afters, works[k])
    ensures Solvable(RightRowOf(float, deltas, projections, works), k)
  {
    var row := RightRowFor(float, projections[k], befores, afters, works[k], deltas);
    assert RightRowOf(float, deltas, projections, works)(k, row);
  }

  /** A report over nodes whose series of all three projections follow their logs is built exactly when the
      differences can be taken. It then counts the new direct and group messages, and every row is right. */
  lemma FaithfulFleetIsReported(
      float: string -> Option<Bound>, projections: seq<string>, befores: seq<Samples>, afters: seq<Samples>,
      works: seq<Work>)
    requires |projections| == |works| == 3
    requires forall k | 0 <= k < 3 :: Follows(float, projections[k], befores, afters, works[k])
    ensures BuildReport(float, befores, afters, projections).Ok? <==> NodeDeltas(befores, afters).Ok?
    ensures BuildReport(float, befores, afters, projections).Ok? ==>
      RightReport(float, projections, works, BuildReport(float, befores, afters, projections).value)
  {
    if NodeDeltas(befores, afters).Ok? {
      var deltas := NodeDeltas(befores, afters).value;
      var good := RightRowOf(float, deltas, projections, works);
      forall k: nat | k < 3 ensures Solvable(good, k) {
        RightRowExists(float, befores, afters, deltas, projections, works, k);
      }
      var rows := ChooseEach(3, good);
      RightRowsAreRight(float, deltas, projections, works, rows);
      TraverseOk(RowOf(float, deltas), projections, rows);
    }
  }

  ghost predicate RightReport(
      float: string -> Option<Bound>, projections: seq<string>, works: seq<Work>, report: Report)
    requires |projections| == |works| == 3
  {
    && |report.rows| == 3 && (forall k | 0 <= k < 3 :: RightRow(float, projections[k], works[k], report.rows[k]))
    && report.writeOperations == |Flatten(works[0].recent)| + |Flatten(works[2].recent)|
  }

  lemma RightRowsAreRight(
      float: string -> Option<Bound>, deltas: seq<Samples>, projections: seq<string>, works: seq<Work>, rows: seq<Row>)
    requires |projections| == |works| == |rows| == 3
    requires forall k: nat | k < 3 :: RightRowOf(float, deltas, projections, works)(k, rows[k])
    ensures RightReport(float, projections, works, Assemble(rows))
    ensures forall k | 0 <= k < 3 :: RowOf(float, deltas)(projections[k]) == Ok(rows[k])
  {
    var good := RightRowOf(float, deltas, projections, works);
    assert good(0, rows[0]) && good(1, rows[1]) && good(2, rows[2]);
  }

  // ---- such nodes exist for all logs -----------------------------------------------------

  function BucketKeys(projection: string, raws: set<string>): set<Key> {
    set raw | raw in raws :: BucketKey(projection, raw)
  }

  /** What a node exports about a projection whose successes and failures it logged. */
  function Exported(
      float: string -> Option<Bound>, projection: string, raws: set<string>, log: seq<real>, failures: seq<real>)
      : Samples
    requires BoundsParse(float, raws)
  {
    (map key | key in BucketKeys(projection, raws) :: CountWithin(log, RawBound(float, key.labels["le"]).value) as real)
    + map[WritesKey(projection) := |log| as real,
          DurationKey("_count", projection, "success") := |log| as real,
          DurationKey("_count", projection, "error") := |failures| as real,
          DurationKey("_sum", projection, "success") := P.RealSum(log)]
  }

  lemma KeysDiffer(projection: string, raw: string)
    ensures BucketKey(projection, raw).labels["le"] == raw
    ensures BucketKey(projection, raw) != WritesKey(projection)
    ensures BucketKey(projection, raw) != DurationKey("_count", projection, "success")
    ensures BucketKey(projection, raw) != DurationKey("_count", projection, "error")
    ensures BucketKey(projection, raw) != DurationKey("_sum", projection, "success")
    ensures DurationKey("_count", projection, "success") != DurationKey("_count", projection, "error")
    ensures WritesKey(projection) != DurationKey("_count", projection, "success")
    ensures WritesKey(projection) != DurationKey("_count", projection, "error")
    ensures WritesKey(projection) != DurationKey("_sum", projection, "success")
    ensures DurationKey("_sum", projection, "success") != DurationKey("_count", projection, "success")
    ensures DurationKey("_sum", projection, "success") != DurationKey("_count", projection, "error")
  {
    assert "le" in BucketKey(projection, raw).labels;
    assert "le" !in DurationKey("_count", projection, "success").labels;
    assert "le" !in DurationKey("_count", projection, "error").labels;
    assert "le" !in DurationKey("_sum", projection, "success").labels;
    assert "outcome" !in WritesKey(projection).labels;
    assert "outcome" in DurationKey("_count", projection, "success").labels;
    assert "outcome" in DurationKey("_count", projection, "error").labels;
    assert "outcome" in DurationKey("_sum", projection, "success").labels;
    assert DurationKey("_count", projection, "success").labels["outcome"] == "success";
    assert DurationKey("_count", projection, "error").labels["outcome"] == "error";
    assert |DURATION_SOURCE + "_count"| != |DURATION_SOURCE + "_sum"|;
  }

  lemma ExportedReflects(
      float: string -> Option<Bound>, projection: string, raws: set<string>, log: seq<real>, failures: seq<real>)
    requires BoundsParse(float, raws)
    ensures Reflects(float, projection, raws, Exported(float, projection, raws, log, failures), log)
    ensures Accompanied(projection, Exported(float, projection, raws, log, failures), log, failures)
  {
    var samples := Exported(float, projection, raws, log, failures);
    forall raw | raw in raws
      ensures BucketKey(projection, raw) in samples
      ensures samples[BucketKey(projection, raw)] == CountWithin(log, RawBound(float, raw).value) as real
    {
      KeysDiffer(projection, raw);
      assert BucketKey(projection, raw) in BucketKeys(projection, raws);
    }
    KeysDiffer(projection, "");
    forall key | key in samples && IsSuccessBucket(key, projection) ensures IsBucketOf(projection, raws, key) {
      NotABucket(projection);
      assert key in BucketKeys(projection, raws);
    }
  }

  lemma NotABucket(projection: string)
    ensures !IsSuccessBucket(WritesKey(projection), projection)
    ensures !IsSuccessBucket(DurationKey("_count", projection, "success"), projection)
    ensures !IsSuccessBucket(DurationKey("_count", projection, "error"), projection)
    ensures !IsSuccessBucket(DurationKey("_sum", projection, "success"), projection)
  {
    assert "outcome" !in WritesKey(projection).labels;
    assert |DURATION_SOURCE + "_bucket"| == |DURATION_SOURCE| + 7;
    assert |DURATION_SOURCE + "_count"| == |DURATION_SOURCE| + 6;
    assert |DURATION_SOURCE + "_sum"| == |DURATION_SOURCE| + 4;
  }

  lemma {:induction false} SumNonNegative(s: seq<real>)
    requires forall x | x in s :: x >= 0.0
    ensures P.RealSum(s) >= 0.0
  {
    if s != [] {
      assert s[0] in s;
      forall x | x in s[1..] ensures x >= 0.0 { assert x in s; }
      SumNonNegative(s[1..]);
    }
  }

  /** The series that are not buckets. */
  predicate IsPlainKey(projection: string, key: Key) {
    || key == WritesKey(projection) || key == DurationKey("_count", projection, "success")
    || key == DurationKey("_count", projection, "error") || key == DurationKey("_sum", projection, "success")
  }

  lemma ExportedKeys(
      float: string -> Option<Bound>, projection: string, raws: set<string>, log: seq<real>, failures: seq<real>)
    requires BoundsParse(float, raws)
    ensures forall key | key in Exported(float, projection, raws, log, failures) ::
      IsPlainKey(projection, key) || IsBucketOf(projection, raws, key)
  {}

  lemma PlainGrows(
      projection: string, before: Samples, after: Samples, log: seq<real>, more: seq<real>,
      failures: seq<real>, worse: seq<real>, key: Key)
    requires Accompanied(projection, before, log, failures)
    requires Accompanied(projection, after, log + more, failures + worse)
    requires DurationKey("_count", projection, "success") in before
    requires DurationKey("_count", projection, "success") in after
    requires before[DurationKey("_count", projection, "success")] == |log| as real
    requires after[DurationKey("_count", projection, "success")] == |log + more| as real
    requires IsPlainKey(projection, key) && forall x | x in more :: x >= 0.0
    ensures key in before && key in after && before[key] <= after[key]
  {
    SumAppend(log, more);
    SumNonNegative(more);
  }

  /** The same series, none of them lower. */
  ghost predicate Rises(before: Samples, after: Samples) {
    before.Keys == after.Keys && forall key | key in before :: before[key] <= after[key]
  }

  lemma ExportsRise(
      float: string -> Option<Bound>, projection: string, raws: set<string>, log: seq<real>, more: seq<real>,
      failures: seq<real>, worse: seq<real>)
    requires BoundsParse(float, raws) && forall x | x in more :: x >= 0.0
    ensures Rises(Exported(float, projection, raws, log, failures),
                  Exported(float, projection, raws, log + more, failures + worse))
  {
    var before := Exported(float, projection, raws, log, failures);
    var after := Exported(float, projection, raws, log + more, failures + worse);
    assert before.Keys == after.Keys;
    ExportedKeys(float, projection, raws, log, failures);
    ExportedReflects(float, projection, raws, log, failures);
    ExportedReflects(float, projection, raws, log + more, failures + worse);
    FaithfulRise(float, projection, raws, before, after, log, more, failures, worse);
  }

  lemma FaithfulRise(
      float: string -> Option<Bound>, projection: string, raws: set<string>, before: Samples, after: Samples,
      log: seq<real>, more: seq<real>, failures: seq<real>, worse: seq<real>)
    requires BoundsParse(float, raws) && forall x | x in more :: x >= 0.0
    requires Reflects(float, projection, raws, before, log) && Accompanied(projection, before, log, failures)
    requires Reflects(float, projection, raws, after, log + more)
    requires Accompanied(projection, after, log + more, failures + worse)
    requires forall key | key in before :: IsPlainKey(projection, key) || IsBucketOf(projection, raws, key)
    ensures forall key | key in before :: key in after && before[key] <= after[key]
  {
    forall key | key in before ensures key in after && before[key] <= after[key] {
      if IsPlainKey(projection, key) {
        PlainGrows(projection, before, after, log, more, failures, worse, key);
      } else {
        var raw :| raw in raws && key == BucketKey(projection, raw);
        WithinAppend(log, more, RawBound(float, raw).value);
      }
    }
  }

  lemma RiseIsComparable(before: Samples, after: Samples)
    requires Rises(before, after)
    ensures Comparable(before, after)
  {}

  // ---- a node that exports several projections -------------------------------------------

  /** What one node has logged of one projection. */
  datatype Seen = Seen(projection: string, raws: set<string>, log: seq<real>, failures: seq<real>)

  ghost predicate Exportable(float: string -> Option<Bound>, seen: seq<Seen>) {
    && (forall s | s in seen :: BoundsParse(float, s.raws))
    && forall j, k | 0 <= j < k < |seen| :: seen[j].projection != seen[k].projection
  }

  /** The series of one projection, as a function of what was logged of it. */
  ghost function PartOf(float: string -> Option<Bound>): Seen -> Samples {
    (s: Seen) =>
      if BoundsParse(float, s.raws) then Exported(float, s.projection, s.raws, s.log, s.failures) else map[]
  }

  ghost function ExportedNode(part: Seen -> Samples, seen: seq<Seen>): Samples {
    if seen == [] then map[] else ExportedNode(part, seen[..|seen| - 1]) + part(seen[|seen| - 1])
  }

  /** Of the series about the projection, the samples hold exactly those of the part. */
  ghost predicate Holds(samples: Samples, part: Samples, projection: string) {
    && (forall key | key in part :: key in samples && samples[key] == part[key])
    && forall key | key in samples && key !in part :: About(key) != Some(projection)
  }

  function About(key: Key): Option<string> {
    if "projection" in key.labels then Some(key.labels["projection"]) else None
  }

  lemma PartIsAbout(float: string -> Option<Bound>, s: Seen)
    requires BoundsParse(float, s.raws)
    ensures forall key | key in PartOf(float)(s) :: About(key) == Some(s.projection)
  {
    ExportedKeys(float, s.projection, s.raws, s.log, s.failures);
  }

  lemma {:induction false} NodeHolds(float: string -> Option<Bound>, seen: seq<Seen>, k: nat)
    requires Exportable(float, seen) && k < |seen|
    ensures Holds(ExportedNode(PartOf(float), seen), PartOf(float)(seen[k]), seen[k].projection)
    decreases |seen|
  {
    var last := |seen| - 1;
    assert seen[k] in seen && seen[last] in seen;
    PartIsAbout(float, seen[last]);
    if k < last {
      NodeHolds(float, seen[..last], k);
      PartIsAbout(float, seen[k]);
    } else {
      NodeIsAbout(float, seen[..last]);
    }
  }

  lemma {:induction false} NodeIsAbout(float: string -> Option<Bound>, seen: seq<Seen>)
    requires Exportable(float, seen)
    ensures forall key | key in ExportedNode(PartOf(float), seen) ::
      exists s :: s in seen && About(key) == Some(s.projection)
    decreases |seen|
  {
    if seen != [] {
      var last := |seen| - 1;
      NodeIsAbout(float, seen[..last]);
      assert seen[last] in seen;
      PartIsAbout(float, seen[last]);
    }
  }

  /** What holds of a projection's own series holds of a node that exports them among others. */
  lemma HoldsKeeps(
      float: string -> Option<Bound>, projection: string, raws: set<string>, samples: Samples, part: Samples,
      log: seq<real>, failures: seq<real>)
    requires BoundsParse(float, raws) && Holds(samples, part, projection)
    requires Reflects(float, projection, raws, part, log) && Accompanied(projection, part, log, failures)
    ensures Reflects(float, projection, raws, samples, log) && Accompanied(projection, samples, log, failures)
  {
    forall key | key in samples && IsSuccessBucket(key, projection) ensures IsBucketOf(projection, raws, key) {
      assert About(key) == Some(projection);
    }
  }

  lemma NodeReflects(float: string -> Option<Bound>, seen: seq<Seen>, k: nat)
    requires Exportable(float, seen) && k < |seen|
    ensures BoundsParse(float, seen[k].raws)
    ensures var node := ExportedNode(PartOf(float), seen);
      && Reflects(float, seen[k].projection, seen[k].raws, node, seen[k].log)
      && Accompanied(seen[k].projection, node, seen[k].log, seen[k].failures)
  {
    var s := seen[k];
    assert s in seen;
    NodeHolds(float, seen, k);
    ExportedReflects(float, s.projection, s.raws, s.log, s.failures);
    HoldsKeeps(float, s.projection, s.raws, ExportedNode(PartOf(float), seen), PartOf(float)(s), s.log, s.failures);
  }

  /** Later, the same node has logged more. */
  ghost predicate LoggedMore(before: Seen, after: Seen) {
    && before.projection == after.projection && before.raws == after.raws
    && before.log <= after.log && before.failures <= after.failures
    && forall x | x in after.log[|before.log|..] :: x >= 0.0
  }

  lemma MergedRise(x: Samples, y: Samples, more: Samples, worse: Samples)
    requires Rises(x, more) && Rises(y, worse)
    ensures Rises(x + y, more + worse)
  {}

  lemma SeenRises(float: string -> Option<Bound>, b: Seen, a: Seen)
    requires BoundsParse(float, b.raws) && LoggedMore(b, a)
    ensures Rises(PartOf(float)(b), PartOf(float)(a))
  {
    var more, worse := a.log[|b.log|..], a.failures[|b.failures|..];
    assert a.log == b.log + more && a.failures == b.failures + worse;
    ExportsRise(float, b.projection, b.raws, b.log, more, b.failures, worse);
  }

  lemma {:induction false} NodeRises(part: Seen -> Samples, before: seq<Seen>, after: seq<Seen>)
    requires |before| == |after| && forall k | 0 <= k < |before| :: Rises(part(before[k]), part(after[k]))
    ensures Rises(ExportedNode(part, before), ExportedNode(part, after))
    decreases |before|
  {
    if before != [] {
      var last := |before| - 1;
      NodeRises(part, before[..last], after[..last]);
      MergedRise(ExportedNode(part, before[..last]), part(before[last]),
                 ExportedNode(part, after[..last]), part(after[last]));
    }
  }

  /** Each list of the work has one entry for each of n nodes. */
  predicate ForNodes(w: Work, n: nat) { |w.logs| == |w.recent| == |w.failed| == |w.failing| == n }

  ghost function SeenBefore(projections: seq<string>, works: seq<Work>, n: nat, i: nat): (seen: seq<Seen>)
    requires |projections| == |works| && i < n && forall w | w in works :: ForNodes(w, n)
    ensures |seen| == |works|
    ensures forall k | 0 <= k < |works| ::
      && ForNodes(works[k], n)
      && seen[k] == Seen(projections[k], works[k].raws, works[k].logs[i], works[k].failed[i])
  {
    assert forall k | 0 <= k < |works| :: works[k] in works;
    seq(|works|, k requires 0 <= k < |works| && ForNodes(works[k], n) =>
      Seen(projections[k], works[k].raws, works[k].logs[i], works[k].failed[i]))
  }

  ghost function SeenAfter(projections: seq<string>, works: seq<Work>, n: nat, i: nat): (seen: seq<Seen>)
    requires |projections| == |works| && i < n && forall w | w in works :: ForNodes(w, n)
    ensures |seen| == |works|
    ensures forall k | 0 <= k < |works| ::
      && ForNodes(works[k], n)
      && seen[k] == Seen(projections[k], works[k].raws, works[k].logs[i] + works[k].recent[i],
                         works[k].failed[i] + works[k].failing[i])
  {
    assert forall k | 0 <= k < |works| :: works[k] in works;
    seq(|works|, k requires 0 <= k < |works| && ForNodes(works[k], n) =>
      Seen(projections[k], works[k].raws, works[k].logs[i] + works[k].recent[i],
           works[k].failed[i] + works[k].failing[i]))
  }

  /** Projections that can be exported side by side by n nodes, with no new duration negative. */
  ghost predicate Exporting(float: string -> Option<Bound>, projections: seq<string>, works: seq<Work>, n: nat) {
    && |projections| == |works| && Distinct(projections)
    && (forall w | w in works :: ForNodes(w, n) && BoundsParse(float, w.raws))
    && forall w, i, x | w in works && 0 <= i < |w.recent| && x in w.recent[i] :: x >= 0.0
  }

  lemma SeenIsExportable(float: string -> Option<Bound>, projections: seq<string>, works: seq<Work>, n: nat, i: nat)
    requires Exporting(float, projections, works, n) && i < n
    ensures Exportable(float, SeenBefore(projections, works, n, i))
    ensures Exportable(float, SeenAfter(projections, works, n, i))
    ensures forall k | 0 <= k < |works| ::
      LoggedMore(SeenBefore(projections, works, n, i)[k], SeenAfter(projections, works, n, i)[k])
  {
    forall k | 0 <= k < |works|
      ensures LoggedMore(SeenBefore(projections, works, n, i)[k], SeenAfter(projections, works, n, i)[k])
    {
      var w := works[k];
      assert w in works;
      assert (w.logs[i] + w.recent[i])[|w.logs[i]|..] == w.recent[i];
    }
  }

  /** The snapshots are what the nodes export before and after. */
  ghost predicate Snapshots(
      float: string -> Option<Bound>, projections: seq<string>, works: seq<Work>, n: nat,
      befores: seq<Samples>, afters: seq<Samples>)
    requires |projections| == |works| && forall w | w in works :: ForNodes(w, n)
  {
    && |befores| == |afters| == n
    && forall i | 0 <= i < n ::
         && befores[i] == ExportedNode(PartOf(float), SeenBefore(projections, works, n, i))
         && afters[i] == ExportedNode(PartOf(float), SeenAfter(projections, works, n, i))
  }

  lemma NodesFollow(
      float: string -> Option<Bound>, projections: seq<string>, works: seq<Work>, n: nat, k: nat,
      befores: seq<Samples>, afters: seq<Samples>)
    requires Exporting(float, projections, works, n) && k < |works|
    requires Snapshots(float, projections, works, n, befores, afters)
    ensures Follows(float, projections[k], befores, afters, works[k])
  {
    var w := works[k];
    assert w in works;
    forall i | 0 <= i < n
      ensures Reflects(float, projections[k], w.raws, befores[i], w.logs[i])
      ensures Reflects(float, projections[k], w.raws, afters[i], w.logs[i] + w.recent[i])
      ensures Accompanied(projections[k], befores[i], w.logs[i], w.failed[i])
      ensures Accompanied(projections[k], afters[i], w.logs[i] + w.recent[i], w.failed[i] + w.failing[i])
    {
      SeenIsExportable(float, projections, works, n, i);
      NodeReflects(float, SeenBefore(projections, works, n, i), k);
      NodeReflects(float, SeenAfter(projections, works, n, i), k);
    }
  }

  lemma NodeIsComparable(float: string -> Option<Bound>, projections: seq<string>, works: seq<Work>, n: nat, i: nat)
    requires Exporting(float, projections, works, n) && i < n
    ensures Comparable(ExportedNode(PartOf(float), SeenBefore(projections, works, n, i)),
                       ExportedNode(PartOf(float), SeenAfter(projections, works, n, i)))
  {
    var before, after := SeenBefore(projections, works, n, i), SeenAfter(projections, works, n, i);
    SeenIsExportable(float, projections, works, n, i);
    forall k | 0 <= k < |before| ensures Rises(PartOf(float)(before[k]), PartOf(float)(after[k])) {
      assert before[k] in before;
      SeenRises(float, before[k], after[k]);
    }
    NodeRises(PartOf(float), before, after);
    RiseIsComparable(ExportedNode(PartOf(float), before), ExportedNode(PartOf(float), after));
  }

  lemma NodesAreComparable(
      float: string -> Option<Bound>, projections: seq<string>, works: seq<Work>, n: nat,
      befores: seq<Samples>, afters: seq<Samples>)
    requires Exporting(float, projections, works, n) && Snapshots(float, projections, works, n, befores, afters)
    ensures NodeDeltas(befores, afters).Ok?
  {
    forall i | 0 <= i < n ensures Comparable(befores[i], afters[i]) {
      NodeIsComparable(float, projections, works, n, i);
    }
    NodeDeltasAre(befores, afters);
  }

  /** Whatever n nodes logged of three projections, the report over their exported series is built and right, so
      long as no new duration is negative. */
  lemma ExportersAreReported(float: string -> Option<Bound>, projections: seq<string>, works: seq<Work>, n: nat)
      returns (befores: seq<Samples>, afters: seq<Samples>)
    requires Exporting(float, projections, works, n) && |projections| == 3
    ensures |befores| == |afters| == n
    ensures forall k | 0 <= k < 3 :: Follows(float, projections[k], befores, afters, works[k])
    ensures BuildReport(float, befores, afters, projections).Ok?
    ensures RightReport(float, projections, works, BuildReport(float, befores, afters, projections).value)
  {
    befores := seq(n, i requires 0 <= i < n => ExportedNode(PartOf(float), SeenBefore(projections, works, n, i)));
    afters := seq(n, i requires 0 <= i < n => ExportedNode(PartOf(float), SeenAfter(projections, works, n, i)));
    NodesAreComparable(float, projections, works, n, befores, afters);
    forall k | 0 <= k < 3 ensures Follows(float, projections[k], befores, afters, works[k]) {
      NodesFollow(float, projections, works, n, k, befores, afters);
    }
    FaithfulFleetIsReported(float, projections, befores, afters, works);
  }

  /** The program's own projections are three different ones. */
  lemma ProjectionsDiffer()
    ensures |PROJECTIONS| == 3 && Distinct(PROJECTIONS)
  {
    assert |PROJECTIONS[0]| == 14 && |PROJECTIONS[1]| == 10 && |PROJECTIONS[2]| == 13;
  }
}
