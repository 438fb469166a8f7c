/** Nodes on which nothing happens but that one series drifts: the smallest snapshots that show what the reset tolerance
    of scripts/bench/conversation_metrics.py lets through. */
module DriftingSeries {
  import opened Sorting
  import opened Wrappers
  import opened ConversationMetrics
  import opened HistogramMeaning
  import opened SnapshotChaining

  /** A series the report does not read, though the difference is taken of it. */
  const SPARE := Key("dipole_conversation_projection_spare", map[])

  function CountKeys(projection: string): set<Key> {
    {WritesKey(projection), DurationKey("_count", projection, "success"), DurationKey("_count", projection, "error")}
  }

  function SumKey(projection: string): Key { DurationKey("_sum", projection, "success") }

  function ReadKeys(projection: string): set<Key> { CountKeys(projection) + {SumKey(projection)} }

  function KeysOf(projections: seq<string>): set<Key> {
    if projections == [] then {SPARE} else ReadKeys(projections[0]) + KeysOf(projections[1..])
  }

  /** The series of the projections and the spare one, and no bucket. */
  ghost predicate Plain(projections: seq<string>, keys: set<Key>) {
    && SPARE in keys
    && (forall p | p in projections :: ReadKeys(p) <= keys - {SPARE})
    && forall key, p | key in keys :: !IsSuccessBucket(key, p)
  }

  lemma SpareIsNotRead(projection: string)
    ensures SPARE !in ReadKeys(projection)
    ensures forall key, p | key in ReadKeys(projection) + {SPARE} :: !IsSuccessBucket(key, p)
  {
    assert forall key | key in ReadKeys(projection) :: "projection" in key.labels;
    assert "outcome" !in WritesKey(projection).labels && "projection" !in SPARE.labels;
    assert |DURATION_SOURCE + "_bucket"| == |DURATION_SOURCE| + 7;
    assert |DURATION_SOURCE + "_count"| == |DURATION_SOURCE| + 6;
    assert |DURATION_SOURCE + "_sum"| == |DURATION_SOURCE| + 4;
  }

  lemma {:induction false} KeysOfArePlain(projections: seq<string>)
    ensures Plain(projections, KeysOf(projections))
  {
    if projections == [] {
      SpareIsNotRead("");
    } else {
      SpareIsNotRead(projections[0]);
      KeysOfArePlain(projections[1..]);
      assert projections == [projections[0]] + projections[1..];
    }
  }

  /** A node whose series are all zero but the drifting one. */
  function Still(keys: set<Key>, drifting: Key, value: real): Samples {
    map key | key in keys :: if key == drifting then value else 0.0
  }

  lemma StillDelta(keys: set<Key>, drifting: Key, u: real, drift: real)
    requires drifting in keys
    ensures Comparable(Still(keys, drifting, u), Still(keys, drifting, u + drift)) <==> -RESET_TOLERANCE <= drift
    ensures Delta(Still(keys, drifting, u), Still(keys, drifting, u + drift)) == Still(keys, drifting, drift)
  {
    var before, after := Still(keys, drifting, u), Still(keys, drifting, u + drift);
    assert drifting in before && before[drifting] == u && after[drifting] == u + drift;
  }

  // ---- many alike nodes ------------------------------------------------------------------

  function Alike(n: nat, node: Samples): (nodes: seq<Samples>)
    ensures |nodes| == n && forall i | 0 <= i < n :: nodes[i] == node
  {
    seq(n, _ => node)
  }

  lemma AlikeDeltas(n: nat, before: Samples, after: Samples)
    requires n > 0
    ensures NodeDeltas(Alike(n, before), Alike(n, after)) ==
      if Comparable(before, after) then Ok(Alike(n, Delta(before, after))) else Err(NodeChanged(0))
  {
    var befores, afters := Alike(n, before), Alike(n, after);
    assert befores[0] == before && afters[0] == after;
    NodeDeltasAre(befores, afters);
    if Comparable(before, after) {
      assert NodeDeltas(befores, afters).value == Alike(n, Delta(before, after));
    }
  }

  lemma {:induction false} AlikeTotal(n: nat, node: Samples, key: Key)
    requires key in node
    ensures Everywhere(Alike(n, node), key) && Total(Alike(n, node), key) == n as real * node[key]
  {
    if n > 0 {
      AlikeTotal(n - 1, node, key);
      assert Alike(n, node)[..n - 1] == Alike(n - 1, node);
      assert n as real * node[key] == (n - 1) as real * node[key] + node[key];
    }
  }

  /** The row of a projection that wrote nothing. */
  function QuietRow(projection: string, seconds: real): Row { Row(projection, 0, Timing(0, 0, seconds, None, None)) }

  lemma QuietBuckets(float: string -> Option<Bound>, n: nat, keys: set<Key>, drifting: Key, value: real, p: string)
    requires forall key | key in keys :: !IsSuccessBucket(key, p)
    ensures Readable(float, Alike(n, Still(keys, drifting, value)), p)
  {
    var deltas := Alike(n, Still(keys, drifting, value));
    forall d, key | d in deltas && key in d ensures !IsSuccessBucket(key, p) {
      assert key in keys;
    }
    assert RawBounds(deltas, p) == {};
  }

  function Drift(n: nat, drifting: Key, value: real, key: Key): real {
    if key == drifting then n as real * value else 0.0
  }

  lemma StillSum(n: nat, keys: set<Key>, drifting: Key, value: real, key: Key)
    requires key in keys
    ensures SumSamples(Alike(n, Still(keys, drifting, value)), key) == Ok(Drift(n, drifting, value, key))
  {
    var node := Still(keys, drifting, value);
    AlikeTotal(n, node, key);
    Times(n, node[key], if key == drifting then value else 0.0);
    assert Total(Alike(n, node), key) == Drift(n, drifting, value, key);
  }

  lemma Times(n: nat, x: real, y: real)
    requires x == y
    ensures n as real * x == n as real * y
    ensures y == 0.0 ==> n as real * y == 0.0
  {}

  lemma StillRow(
      float: string -> Option<Bound>, n: nat, projections: seq<string>, keys: set<Key>, drifting: Key, value: real,
      p: string)
    requires Plain(projections, keys) && p in projections && drifting !in CountKeys(p)
    ensures ProjectionRow(float, Alike(n, Still(keys, drifting, value)), p) ==
      Ok(QuietRow(p, Drift(n, drifting, value, SumKey(p))))
  {
    var deltas := Alike(n, Still(keys, drifting, value));
    forall key | key in ReadKeys(p) ensures SumSamples(deltas, key) == Ok(Drift(n, drifting, value, key)) {
      StillSum(n, keys, drifting, value, key);
    }
    QuietBuckets(float, n, keys, drifting, value, p);
    assert forall key | key in CountKeys(p) :: SumCount(deltas, key) == Ok(0);
  }

  function QuietRows(n: nat, projections: seq<string>, drifting: Key, value: real): seq<Row> {
    Map((p: string) => QuietRow(p, Drift(n, drifting, value, SumKey(p))), projections)
  }

  lemma StillRows(
      float: string -> Option<Bound>, n: nat, projections: seq<string>, keys: set<Key>, drifting: Key, value: real)
    requires Plain(projections, keys) && forall p | p in projections :: drifting !in CountKeys(p)
    ensures Traverse(RowOf(float, Alike(n, Still(keys, drifting, value))), projections) ==
      Ok(QuietRows(n, projections, drifting, value))
  {
    var deltas := Alike(n, Still(keys, drifting, value));
    var rows := QuietRows(n, projections, drifting, value);
    forall k | 0 <= k < |projections| ensures RowOf(float, deltas)(projections[k]) == Ok(rows[k]) {
      StillRow(float, n, projections, keys, drifting, value, projections[k]);
    }
    TraverseOk(RowOf(float, deltas), projections, rows);
  }

  lemma ReportOfDeltas(
      float: string -> Option<Bound>, befores: seq<Samples>, afters: seq<Samples>, projections: seq<string>,
      deltas: seq<Samples>, rows: seq<Row>)
    requires |projections| == 3 && Traverse(RowOf(float, deltas), projections) == Ok(rows)
    ensures NodeDeltas(befores, afters) == Ok(deltas) ==>
      BuildReport(float, befores, afters, projections) == Ok(Assemble(rows))
    ensures NodeDeltas(befores, afters) == Err(NodeChanged(0)) ==>
      BuildReport(float, befores, afters, projections) == Err(NodeChanged(0))
  {}

  /** If the drift is of a sum or of the spare series, the report over n such nodes is built exactly when it stays
      within the tolerance on each, and shows n times the drift. */
  lemma StillReport(
      float: string -> Option<Bound>, n: nat, projections: seq<string>, keys: set<Key>, drifting: Key, u: real,
      drift: real)
    requires n > 0 && |projections| == 3 && Plain(projections, keys) && drifting in keys
    requires forall p | p in projections :: drifting !in CountKeys(p)
    ensures BuildReport(
      float, Alike(n, Still(keys, drifting, u)), Alike(n, Still(keys, drifting, u + drift)), projections) ==
      if -RESET_TOLERANCE <= drift then Ok(Assemble(QuietRows(n, projections, drifting, drift)))
      else Err(NodeChanged(0))
  {
    var before, after := Still(keys, drifting, u), Still(keys, drifting, u + drift);
    StillDelta(keys, drifting, u, drift);
    AlikeDeltas(n, before, after);
    StillRows(float, n, projections, keys, drifting, drift);
    ReportOfDeltas(float, Alike(n, before), Alike(n, after), projections, Alike(n, Still(keys, drifting, drift)),
                   QuietRows(n, projections, drifting, drift));
  }

  lemma SpareReport(float: string -> Option<Bound>, projections: seq<string>, keys: set<Key>, u: real, drift: real)
    requires |projections| == 3 && Plain(projections, keys)
    ensures var r := BuildReport(
        float, Alike(1, Still(keys, SPARE, u)), Alike(1, Still(keys, SPARE, u + drift)), projections);
      if -RESET_TOLERANCE <= drift then r.Ok? else r == Err(NodeChanged(0))
  {
    forall p | p in projections ensures SPARE !in CountKeys(p) { SpareIsNotRead(p); }
    StillReport(float, 1, projections, keys, SPARE, u, drift);
  }

  /** Two reports can each be built over a series that falls by less than the tolerance, and the report over the
      whole span be refused because the falls add up to more. */
  lemma ToleratedFallsAddUp(float: string -> Option<Bound>, projections: seq<string>)
      returns (a: seq<Samples>, b: seq<Samples>, c: seq<Samples>)
    requires |projections| == 3
    ensures SameSeries(a, b, c)
    ensures BuildReport(float, a, b, projections).Ok? && BuildReport(float, b, c, projections).Ok?
    ensures BuildReport(float, a, c, projections) == Err(NodeChanged(0))
  {
    var keys := KeysOf(projections);
    KeysOfArePlain(projections);
    var u, fall, twice := 0.0000000000020, -0.0000000000008, -0.0000000000016;
    a := Alike(1, Still(keys, SPARE, u));
    b := Alike(1, Still(keys, SPARE, u + fall));
    c := Alike(1, Still(keys, SPARE, u + twice));
    assert u + fall + fall == u + twice;
    SpareReport(float, projections, keys, u, fall);
    SpareReport(float, projections, keys, u + fall, fall);
    SpareReport(float, projections, keys, u, twice);
  }
}
