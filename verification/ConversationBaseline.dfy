/** The conversation state section of the baseline report (scripts/bench/baseline_report.py, operations v3 and v4), and
    when it accepts what scripts/bench/conversation_metrics.py writes. */
module ConversationBaseline {
  import opened Rounding
  import opened Sorting
  import opened Wrappers
  import opened ConversationMetrics
  import opened HistogramMeaning
  import opened SnapshotChaining
  import opened DriftingSeries

  /** The decoded section: what the difference wrote, and two counts taken elsewhere. */
  datatype State = State(rowsTouched: int, messagesObserved: int, written: Written)

  /** What the baseline report keeps of it. */
  datatype Section = Section(state: State, writesPerMessageMicros: Option<int>)

  datatype Refusal = BadCounts | BadProjections | BadTotal | BadSource | BadTiming

  /** sorted(PROJECTION_NAMES) */
  const NAMES := ["direct_message", "group_init", "group_message"]

  predicate ValidTiming(t: WrittenTiming, writes: int) {
    && t.successCount >= 0 && t.errorCount >= 0 && t.successSumNanos >= 0
    && (t.averageNanos.Some? ==> t.averageNanos.value >= 0) && (t.p95Nanos.Some? ==> t.p95Nanos.value >= 0)
    && t.successCount == writes
    && (t.successCount == 0 ==> t.averageNanos.None? && t.p95Nanos.None?)
    && (t.successCount > 0 ==> t.averageNanos.Some?)
  }

  ghost predicate ValidState(s: State) {
    var w := s.written;
    && s.rowsTouched >= 0 && s.messagesObserved >= 0 && w.writeOperations >= 0
    && (forall name :: name in w.projectionWrites <==> name in NAMES)
    && (forall name | name in w.projectionWrites :: w.projectionWrites[name] >= 0)
    && w.writeOperations == w.projectionWrites[NAMES[0]] + w.projectionWrites[NAMES[2]]
    && w.counterSource == COUNTER_SOURCE && w.durationSource == DURATION_SOURCE
    && (forall name :: name in w.timing <==> name in NAMES)
    && forall name | name in NAMES :: ValidTiming(w.timing[name], w.projectionWrites[name])
  }

  predicate CountsAreIn(s: State) {
    s.rowsTouched >= 0 && s.messagesObserved >= 0 && s.written.writeOperations >= 0
  }

  ghost predicate ProjectionsAreIn(w: Written) {
    && (forall name :: name in w.projectionWrites <==> name in NAMES)
    && forall name | name in w.projectionWrites :: w.projectionWrites[name] >= 0
  }

  /** The first check that fails. */
  ghost predicate RefusedFor(s: State, refusal: Refusal) {
    var w := s.written;
    match refusal
    case BadCounts => !CountsAreIn(s)
    case BadProjections => CountsAreIn(s) && !ProjectionsAreIn(w)
    case BadTotal =>
      && CountsAreIn(s) && ProjectionsAreIn(w)
      && w.writeOperations != w.projectionWrites[NAMES[0]] + w.projectionWrites[NAMES[2]]
    case BadSource =>
      && CountsAreIn(s) && ProjectionsAreIn(w)
      && w.writeOperations == w.projectionWrites[NAMES[0]] + w.projectionWrites[NAMES[2]]
      && (w.counterSource != COUNTER_SOURCE || w.durationSource != DURATION_SOURCE)
    case BadTiming =>
      && CountsAreIn(s) && ProjectionsAreIn(w)
      && w.writeOperations == w.projectionWrites[NAMES[0]] + w.projectionWrites[NAMES[2]]
      && w.counterSource == COUNTER_SOURCE && w.durationSource == DURATION_SOURCE
      && ((exists name :: name in w.timing && name !in NAMES)
          || exists name ::
               name in NAMES && (name in w.timing ==> !ValidTiming(w.timing[name], w.projectionWrites[name])))
  }

  function WritesPerMessage(s: State): Option<int> {
    if s.messagesObserved <= 0 then None
    else Some(RoundHalfEven(s.written.writeOperations as real / s.messagesObserved as real * 1000000.0))
  }

  predicate HasNames<V>(m: map<string, V>) {
    |m.Keys| == 3 && NAMES[0] in m && NAMES[1] in m && NAMES[2] in m
  }

  lemma HasNamesExactly<V>(m: map<string, V>)
    ensures HasNames(m) <==> forall name :: name in m <==> name in NAMES
  {
    var names := {NAMES[0], NAMES[1], NAMES[2]};
    NamesDiffer();
    assert |names| == 3;
    assert forall name :: name in names <==> name in NAMES;
    if HasNames(m) {
      assert names <= m.Keys && |m.Keys - names| == 0;
      assert m.Keys == names;
    }
    if forall name :: name in m <==> name in NAMES {
      assert m.Keys == names;
    }
  }

  /** The section accepts exactly the valid states and keeps them as they are: every number in them already has the
      digits it is rounded to. */
  method ConversationStateSection(s: State) returns (r: Result<Section, Refusal>)
    ensures r.Ok? <==> ValidState(s)
    ensures r.Err? ==> RefusedFor(s, r.error)
    ensures r.Ok? ==> r.value == Section(s, WritesPerMessage(s))
  {
    var w := s.written;
    HasNamesExactly(w.projectionWrites);
    HasNamesExactly(w.timing);
    if s.rowsTouched < 0 || s.messagesObserved < 0 || w.writeOperations < 0 {
      return Err(BadCounts);
    }
    if !HasNames(w.projectionWrites) {
      return Err(BadProjections);
    }
    for i := 0 to |NAMES|
      invariant forall k | 0 <= k < i :: w.projectionWrites[NAMES[k]] >= 0
    {
      if w.projectionWrites[NAMES[i]] < 0 {
        return Err(BadProjections);
      }
    }
    if w.writeOperations != w.projectionWrites[NAMES[0]] + w.projectionWrites[NAMES[2]] {
      return Err(BadTotal);
    }
    if w.counterSource != COUNTER_SOURCE || w.durationSource != DURATION_SOURCE {
      return Err(BadSource);
    }
    if !HasNames(w.timing) {
      return Err(BadTiming);
    }
    for i := 0 to |NAMES|
      invariant forall k | 0 <= k < i :: ValidTiming(w.timing[NAMES[k]], w.projectionWrites[NAMES[k]])
    {
      if !ValidTiming(w.timing[NAMES[i]], w.projectionWrites[NAMES[i]]) {
        return Err(BadTiming);
      }
    }
    return Ok(Section(s, WritesPerMessage(s)));
  }

  // ---- what a difference writes ----------------------------------------------------------

  /** What building a row guarantees of it. */
  predicate Coherent(row: Row) {
    && row.writes == row.timing.successCount
    && row.timing.averageSuccessMs == Average(row.timing.successSumSeconds, row.timing.successCount)
    && (row.timing.successCount == 0 ==> row.timing.p95UpperBoundMs.None?)
  }

  /** Neither the summed time nor the p95 bound rounds to less than zero nanoseconds. */
  predicate NotBelowZero(row: Row) {
    && row.timing.successSumSeconds >= -0.0000000005
    && (row.timing.p95UpperBoundMs.Some? ==> row.timing.p95UpperBoundMs.value >= -0.0000005)
  }

  lemma AverageFollowsSum(seconds: real, count: nat)
    requires count > 0 && seconds >= -0.0000000005
    ensures Average(seconds, count).value >= -0.0000005
  {
    var n := count as real;
    assert seconds * 1000.0 >= -0.0000005 * n;
    DividedBelow(seconds * 1000.0, -0.0000005, n);
  }

  lemma DividedBelow(x: real, low: real, n: real)
    requires n > 0.0 && x >= low * n
    ensures x / n >= low
  {
    if x / n < low { Scaled(x / n, low, n); }
  }

  lemma Scaled(x: real, y: real, n: real)
    requires n > 0.0 && x < y
    ensures x * n < y * n
  {}

  lemma TimingAcceptedExactly(row: Row)
    requires Coherent(row)
    ensures ValidTiming(WriteTiming(row.timing), row.writes) <==> NotBelowZero(row)
  {
    var t := row.timing;
    RoundsToNonNegative(t.successSumSeconds * NANOS_PER_SECOND);
    if t.p95UpperBoundMs.Some? { RoundsToNonNegative(t.p95UpperBoundMs.value * NANOS_PER_MILLI); }
    if t.successCount > 0 {
      RoundsToNonNegative(t.averageSuccessMs.value * NANOS_PER_MILLI);
      if t.successSumSeconds >= -0.0000000005 { AverageFollowsSum(t.successSumSeconds, t.successCount); }
    }
  }

  lemma RowsAreCoherent(float: string -> Option<Bound>, befores: seq<Samples>, afters: seq<Samples>, report: Report)
    requires BuildReport(float, befores, afters, PROJECTIONS) == Ok(report)
    ensures |report.rows| == 3 && report == Assemble(report.rows)
    ensures forall k | 0 <= k < 3 :: report.rows[k].projection == NAMES[k] && Coherent(report.rows[k])
  {
    var deltas := NodeDeltas(befores, afters).value;
    RowsAreSteps(float, deltas, PROJECTIONS, report.rows);
    forall k | 0 <= k < 3 ensures report.rows[k].projection == NAMES[k] && Coherent(report.rows[k]) {
      assert StepsOf(float, deltas)(report.rows[k]) && report.rows[k] in report.rows;
    }
  }

  /** The written form holds these three rows. */
  ghost predicate HoldsRows(w: Written, rows: seq<Row>) {
    && |rows| == 3 && w.counterSource == COUNTER_SOURCE && w.durationSource == DURATION_SOURCE
    && w.writeOperations == rows[0].writes + rows[2].writes
    && (forall name :: name in w.projectionWrites <==> name in NAMES)
    && (forall name :: name in w.timing <==> name in NAMES)
    && forall k | 0 <= k < 3 ::
         w.projectionWrites[NAMES[k]] == rows[k].writes && w.timing[NAMES[k]] == WriteTiming(rows[k].timing)
  }

  lemma ThreeRowsWritten(rows: seq<Row>)
    requires |rows| == 3 && forall k | 0 <= k < 3 :: rows[k].projection == NAMES[k]
    ensures HoldsRows(WriteReport(Assemble(rows)), rows)
  {
    NamesDiffer();
    assert rows[..2][..1] == rows[..1] && rows[..1][..0] == [] && rows[..3] == rows;
    assert WritesByProjection(rows[..1]) == map[NAMES[0] := rows[0].writes];
    assert WritesByProjection(rows[..2]) == map[NAMES[0] := rows[0].writes, NAMES[1] := rows[1].writes];
    assert TimingByProjection(rows[..1]) == map[NAMES[0] := WriteTiming(rows[0].timing)];
    assert TimingByProjection(rows[..2])
        == map[NAMES[0] := WriteTiming(rows[0].timing), NAMES[1] := WriteTiming(rows[1].timing)];
  }

  lemma NamesDiffer()
    ensures NAMES[0] != NAMES[1] && NAMES[1] != NAMES[2] && NAMES[0] != NAMES[2]
  {
    assert |NAMES[0]| == 14 && |NAMES[1]| == 10 && |NAMES[2]| == 13;
  }

  lemma StateIsItsRows(s: State, rows: seq<Row>)
    requires HoldsRows(s.written, rows) && s.rowsTouched >= 0 && s.messagesObserved >= 0
    ensures ValidState(s) <==> forall k | 0 <= k < 3 :: ValidTiming(s.written.timing[NAMES[k]], rows[k].writes)
  {
    forall name | name in NAMES ensures s.written.projectionWrites[name] >= 0 {
      var k :| 0 <= k < 3 && NAMES[k] == name;
      assert s.written.projectionWrites[NAMES[k]] == rows[k].writes;
    }
    assert NAMES[0] in NAMES && NAMES[1] in NAMES && NAMES[2] in NAMES;
  }

  /** What the difference writes the baseline report accepts, exactly when no summed time is below minus half a
      nanosecond and no p95 bound is either. */
  lemma WrittenAcceptedExactly(
      float: string -> Option<Bound>, befores: seq<Samples>, afters: seq<Samples>, report: Report,
      rowsTouched: nat, messagesObserved: nat)
    requires BuildReport(float, befores, afters, PROJECTIONS) == Ok(report)
    ensures ValidState(State(rowsTouched, messagesObserved, WriteReport(report))) <==>
      forall row | row in report.rows :: NotBelowZero(row)
  {
    var rows := report.rows;
    RowsAreCoherent(float, befores, afters, report);
    ThreeRowsWritten(rows);
    StateIsItsRows(State(rowsTouched, messagesObserved, WriteReport(report)), rows);
    forall k | 0 <= k < 3 ensures ValidTiming(WriteTiming(rows[k].timing), rows[k].writes) <==> NotBelowZero(rows[k]) {
      TimingAcceptedExactly(rows[k]);
    }
    EachRow(rows);
  }

  lemma EachRow(rows: seq<Row>)
    requires |rows| == 3
    ensures (forall row | row in rows :: NotBelowZero(row)) <==> forall k | 0 <= k < 3 :: NotBelowZero(rows[k])
  {
    assert rows[0] in rows && rows[1] in rows && rows[2] in rows;
  }

  // ---- how many nodes it takes -----------------------------------------------------------

  lemma {:induction false} TotalNotBelow(deltas: seq<Samples>, key: Key, low: real)
    requires Everywhere(deltas, key) && forall d | d in deltas :: key in d && d[key] >= low
    ensures Total(deltas, key) >= |deltas| as real * low
  {
    if deltas != [] {
      var last := |deltas| - 1;
      assert deltas[last] in deltas;
      TotalNotBelow(deltas[..last], key, low);
      assert |deltas| as real * low == last as real * low + low;
    }
  }

  /** No finite bound of the projection's histogram is negative. */
  ghost predicate BoundsNotNegative(float: string -> Option<Bound>, deltas: seq<Samples>, projection: string) {
    forall raw | raw in RawBounds(deltas, projection) && RawBound(float, raw).Some? ::
      BoundLe(Finite(0.0), RawBound(float, raw).value)
  }

  lemma SumOfFewNodes(befores: seq<Samples>, afters: seq<Samples>, key: Key, total: real)
    requires NodeDeltas(befores, afters).Ok? && |befores| <= 500
    requires SumSamples(NodeDeltas(befores, afters).value, key) == Ok(total)
    ensures total >= -0.0000000005
  {
    var deltas := NodeDeltas(befores, afters).value;
    NodeDeltasAre(befores, afters);
    forall d | d in deltas ensures key in d && d[key] >= -RESET_TOLERANCE {
      var i :| 0 <= i < |deltas| && deltas[i] == d;
      assert Comparable(befores[i], afters[i]);
    }
    TotalNotBelow(deltas, key, -RESET_TOLERANCE);
  }

  lemma SmallestNotNegative(entry: string -> Bucket, raws: set<string>, n: nat, ms: Option<real>)
    requires Is95(entry, raws, n, ms) && forall raw | raw in raws :: BoundLe(Finite(0.0), entry(raw).bound)
    ensures ms.Some? ==> ms.value >= 0.0
  {
    if n > 0 {
      var bound :| Smallest(entry, raws, Rank95(n), bound) && ReportedAs(ms, bound);
      var raw :| raw in raws && entry(raw).bound == bound && entry(raw).count >= Rank95(n);
    }
  }

  lemma EntriesNotNegative(float: string -> Option<Bound>, deltas: seq<Samples>, projection: string)
    requires Readable(float, deltas, projection) && BoundsNotNegative(float, deltas, projection)
    ensures forall raw | raw in RawBounds(deltas, projection) ::
      BoundLe(Finite(0.0), EntryOf(float, deltas, projection)(raw).bound)
  {}

  lemma BoundOfP95(float: string -> Option<Bound>, deltas: seq<Samples>, row: Row)
    requires RowChecks(float, deltas, row) && BoundsNotNegative(float, deltas, row.projection)
    ensures row.timing.p95UpperBoundMs.Some? ==> row.timing.p95UpperBoundMs.value >= 0.0
  {
    EntriesNotNegative(float, deltas, row.projection);
    SmallestNotNegative(EntryOf(float, deltas, row.projection), RawBounds(deltas, row.projection),
                        row.timing.successCount, row.timing.p95UpperBoundMs);
  }

  lemma RowOfFewNodes(float: string -> Option<Bound>, befores: seq<Samples>, afters: seq<Samples>, row: Row)
    requires NodeDeltas(befores, afters).Ok? && |befores| <= 500
    requires StepsOf(float, NodeDeltas(befores, afters).value)(row)
    requires BoundsNotNegative(float, NodeDeltas(befores, afters).value, row.projection)
    ensures NotBelowZero(row)
  {
    SumOfFewNodes(befores, afters, SumKey(row.projection), row.timing.successSumSeconds);
    BoundOfP95(float, NodeDeltas(befores, afters).value, row);
  }

  lemma RowsOfFewNodes(
      float: string -> Option<Bound>, befores: seq<Samples>, afters: seq<Samples>, projections: seq<string>,
      rows: seq<Row>)
    requires NodeDeltas(befores, afters).Ok? && |befores| <= 500
    requires RowSteps(float, NodeDeltas(befores, afters).value, projections, rows)
    requires forall p | p in projections :: BoundsNotNegative(float, NodeDeltas(befores, afters).value, p)
    ensures forall k | 0 <= k < |rows| :: NotBelowZero(rows[k])
  {
    forall k | 0 <= k < |rows| ensures NotBelowZero(rows[k]) {
      assert projections[k] in projections;
      RowOfFewNodes(float, befores, afters, rows[k]);
    }
  }

  /** With at most 500 nodes and no negative bucket bound, what the difference writes is always accepted: the falls
      that the reset tolerance lets through cannot add up to more than half a nanosecond. */
  lemma FewNodesAreAccepted(
      float: string -> Option<Bound>, befores: seq<Samples>, afters: seq<Samples>, report: Report,
      rowsTouched: nat, messagesObserved: nat)
    requires BuildReport(float, befores, afters, PROJECTIONS) == Ok(report) && |befores| <= 500
    requires forall p | p in PROJECTIONS :: BoundsNotNegative(float, NodeDeltas(befores, afters).value, p)
    ensures ValidState(State(rowsTouched, messagesObserved, WriteReport(report)))
  {
    RowsAreSteps(float, NodeDeltas(befores, afters).value, PROJECTIONS, report.rows);
    RowsOfFewNodes(float, befores, afters, PROJECTIONS, report.rows);
    WrittenAcceptedExactly(float, befores, afters, report, rowsTouched, messagesObserved);
  }

  lemma SumIsNotACount(p: string, q: string)
    ensures SumKey(p) !in CountKeys(q) && (p != q ==> SumKey(p) != SumKey(q))
  {
    assert |DURATION_SOURCE + "_count"| != |DURATION_SOURCE + "_sum"|;
    assert "outcome" in SumKey(p).labels && "outcome" !in WritesKey(q).labels;
    assert SumKey(p).labels["projection"] == p && SumKey(q).labels["projection"] == q;
  }

  lemma DriftRows(n: nat)
    ensures var rows := QuietRows(n, PROJECTIONS, SumKey(NAMES[0]), -RESET_TOLERANCE);
      (forall row | row in rows :: NotBelowZero(row)) <==> n <= 500
  {
    var rows := QuietRows(n, PROJECTIONS, SumKey(NAMES[0]), -RESET_TOLERANCE);
    SumIsNotACount(NAMES[0], NAMES[1]);
    SumIsNotACount(NAMES[0], NAMES[2]);
    NamesDiffer();
    assert rows[0].timing.successSumSeconds == n as real * -RESET_TOLERANCE;
    assert rows[1].timing.successSumSeconds == 0.0 && rows[2].timing.successSumSeconds == 0.0;
    EachRow(rows);
  }

  /** n nodes on which nothing happens but that the summed time of direct messages falls by the tolerance: the
      difference is always written, and is refused from the 501st node on. */
  lemma DriftIsRefusedFrom501(float: string -> Option<Bound>, n: nat, rowsTouched: nat, messagesObserved: nat)
      returns (befores: seq<Samples>, afters: seq<Samples>)
    requires n > 0
    ensures |befores| == |afters| == n && BuildReport(float, befores, afters, PROJECTIONS).Ok?
    ensures var report := BuildReport(float, befores, afters, PROJECTIONS).value;
      ValidState(State(rowsTouched, messagesObserved, WriteReport(report))) <==> n <= 500
  {
    var keys, drifting := KeysOf(PROJECTIONS), SumKey(NAMES[0]);
    KeysOfArePlain(PROJECTIONS);
    assert NAMES[0] in PROJECTIONS && drifting in ReadKeys(NAMES[0]);
    forall p | p in PROJECTIONS ensures drifting !in CountKeys(p) { SumIsNotACount(NAMES[0], p); }
    var u := RESET_TOLERANCE;
    befores, afters := Alike(n, Still(keys, drifting, u)), Alike(n, Still(keys, drifting, u + -RESET_TOLERANCE));
    StillReport(float, n, PROJECTIONS, keys, drifting, u, -RESET_TOLERANCE);
    var report := Assemble(QuietRows(n, PROJECTIONS, drifting, -RESET_TOLERANCE));
    WrittenAcceptedExactly(float, befores, afters, report, rowsTouched, messagesObserved);
    DriftRows(n);
  }

  // ---- the accepted states, written out --------------------------------------------------

  predicate NoNegative(ns: seq<int>) { forall n | n in ns :: n >= 0 }

  /** The timing of a projection with this many writes: one observation for each, an average exactly if there are any,
      and a p95 only then. */
  predicate TimingFits(t: WrittenTiming, writes: int) {
    && t.successCount == writes && NoNegative([writes, t.errorCount, t.successSumNanos])
    && (t.averageNanos.Some? <==> writes != 0) && (t.p95Nanos.Some? ==> writes != 0)
    && (t.averageNanos.Some? ==> t.averageNanos.value >= 0) && (t.p95Nanos.Some? ==> t.p95Nanos.value >= 0)
  }

  lemma TimingFitsExactly(t: WrittenTiming, writes: int)
    ensures TimingFits(t, writes) <==> ValidTiming(t, writes)
  {
    var ns := [writes, t.errorCount, t.successSumNanos];
    assert ns[0] in ns && ns[1] in ns && ns[2] in ns;
  }

  /** Exactly the states of these three projections, whose direct and group messages make the total. */
  lemma StateAcceptedExactly(s: State)
    ensures ValidState(s) <==>
      && NoNegative([s.rowsTouched, s.messagesObserved, s.written.writeOperations])
      && s.written.projectionWrites.Keys == {"direct_message", "group_message", "group_init"}
      && s.written.timing.Keys == {"direct_message", "group_message", "group_init"}
      && s.written.writeOperations
           == s.written.projectionWrites["direct_message"] + s.written.projectionWrites["group_message"]
      && s.written.counterSource == "dipole_conversation_projection_writes_total"
      && s.written.durationSource == "dipole_conversation_projection_write_duration_seconds"
      && forall name | name in s.written.projectionWrites ::
        TimingFits(s.written.timing[name], s.written.projectionWrites[name])
  {
    var ns := [s.rowsTouched, s.messagesObserved, s.written.writeOperations];
    assert ns[0] in ns && ns[1] in ns && ns[2] in ns;
    forall t, writes ensures TimingFits(t, writes) <==> ValidTiming(t, writes) { TimingFitsExactly(t, writes); }
    NamesAreThree(s.written.projectionWrites);
    NamesAreThree(s.written.timing);
    var names := NAMES;
    assert names[0] in names && names[1] in names && names[2] in names;
  }

  lemma NamesAreThree<V>(m: map<string, V>)
    ensures (forall name :: name in m <==> name in NAMES)
       <==> m.Keys == {"direct_message", "group_message", "group_init"}
  {
    var names := NAMES;
    assert names[0] == "direct_message" && names[1] == "group_init" && names[2] == "group_message";
    assert names[0] in names && names[1] in names && names[2] in names;
    assert forall name :: name in NAMES <==> name in {"direct_message", "group_message", "group_init"};
  }

  /** The writes of a message, in millionths and to the nearest; none are given without messages. */
  lemma WritesPerMessageIsNearest(s: State)
    ensures WritesPerMessage(s).Some? <==> s.messagesObserved > 0
    ensures s.messagesObserved > 0 ==>
      Nearest(WritesPerMessage(s).value, 1000000.0 * s.written.writeOperations as real / s.messagesObserved as real)
  {
    if s.messagesObserved > 0 {
      var w, m := s.written.writeOperations as real, s.messagesObserved as real;
      assert w / m * 1000000.0 == 1000000.0 * w / m;
      RoundsToNearest(WritesPerMessage(s).value, 1000000.0 * w / m);
    }
  }
}
