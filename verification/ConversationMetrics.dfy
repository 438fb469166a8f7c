/** scripts/bench/conversation_metrics.py: the difference of two sets of Prometheus snapshots, one pair a
    node, and the p95 bound read off the summed histogram. Sample values are exact reals. */
module ConversationMetrics {
  import opened Sorting
  import opened Rounding
  import opened Text
  import opened Wrappers
  import P = Percentile

  datatype Key = Key(name: string, labels: map<string, string>)

  type Samples = map<Key, real>

  datatype Bound = Finite(seconds: real) | Infinite

  datatype Bucket = Bucket(bound: Bound, count: nat)

  /** Where an error depends on the iteration order of a Python dict or set, one error stands for all
      the messages that could come first. */
  datatype Error =
    | BadLine
    | SnapshotCountMismatch
    | NodeChanged(node: nat)
    | MissingSample
    | NotACount
    | WritesMismatch
    | BadBucket
    | CountNotCovered

  datatype Timing = Timing(
    successCount: nat, errorCount: nat, successSumSeconds: real,
    averageSuccessMs: Option<real>, p95UpperBoundMs: Option<real>)

  datatype Row = Row(projection: string, writes: nat, timing: Timing)

  datatype Report = Report(writeOperations: nat, rows: seq<Row>)

  const PROJECTIONS := ["direct_message", "group_init", "group_message"]
  const COUNTER_SOURCE := "dipole_conversation_projection_writes_total"
  const DURATION_SOURCE := "dipole_conversation_projection_write_duration_seconds"
  const METRIC_PREFIX := "dipole_conversation_projection_"
  const RESET_TOLERANCE := 0.000000000001

  function WritesKey(projection: string): Key { Key(COUNTER_SOURCE, map["projection" := projection]) }

  function DurationKey(suffix: string, projection: string, outcome: string): Key {
    Key(DURATION_SOURCE + suffix, map["projection" := projection, "outcome" := outcome])
  }

  function BucketKey(projection: string, le: string): Key {
    Key(DURATION_SOURCE + "_bucket", map["projection" := projection, "outcome" := "success", "le" := le])
  }

  // ---- snapshots -------------------------------------------------------------------------

  /** What the regular expressions make of a line: a metric name, and its labels and value if they can be read. */
  datatype Match = Match(name: string, sample: Option<(map<string, string>, real)>)

  datatype Line = Skipped | Unreadable | Sample(key: Key, value: real)

  /** Blank lines, comments, lines that do not match and other metrics are passed over, readable or not. */
  function LineOf(grammar: string -> Option<Match>): string -> Line {
    (raw: string) =>
      var line := TrimBy(raw, IsPythonSpace);
      if line == "" || line[0] == '#' || grammar(line).None? || !(METRIC_PREFIX <= grammar(line).value.name)
      then Skipped
      else
        match grammar(line).value.sample
        case None => Unreadable
        case Some((labels, value)) => Sample(Key(grammar(line).value.name, labels), value)
  }

  function SampleTotal(lines: seq<Line>, key: Key): real {
    if lines == [] then 0.0
    else
      var last := lines[|lines| - 1];
      SampleTotal(lines[..|lines| - 1], key) + (if last.Sample? && last.key == key then last.value else 0.0)
  }

  /** Fails exactly on an unreadable line of one of the metrics; samples repeated under one key add up. */
  method ParseSnapshot(grammar: string -> Option<Match>, text: seq<string>) returns (r: Result<Samples, Error>)
    ensures r.Ok? <==> Unreadable !in Map(LineOf(grammar), text)
    ensures r.Ok? ==> forall key :: key in r.value <==>
      exists line :: line in Map(LineOf(grammar), text) && line.Sample? && line.key == key
    ensures r.Ok? ==> forall key | key in r.value :: r.value[key] == SampleTotal(Map(LineOf(grammar), text), key)
  {
    ghost var lines := Map(LineOf(grammar), text);
    var samples: Samples := map[];
    for i := 0 to |text|
      invariant Unreadable !in lines[..i]
      invariant forall key :: key in samples <==> exists line :: line in lines[..i] && line.Sample? && line.key == key
      invariant forall key :: SampleTotal(lines[..i], key) == if key in samples then samples[key] else 0.0
    {
      var line := LineOf(grammar)(text[i]);
      assert lines[i] == line && lines[..i + 1] == lines[..i] + [line];
      assert lines[..i + 1][..i] == lines[..i];
      if line.Unreadable? {
        return Err(BadLine);
      }
      if line.Sample? {
        samples := samples[line.key := (if line.key in samples then samples[line.key] else 0.0) + line.value];
      }
    }
    assert lines[..|text|] == lines;
    return Ok(samples);
  }

  ghost predicate Comparable(before: Samples, after: Samples) {
    forall key | key in before :: key in after && !(after[key] + RESET_TOLERANCE < before[key])
  }

  function Delta(before: Samples, after: Samples): Samples
    requires before.Keys <= after.Keys
  {
    map key | key in before :: after[key] - before[key]
  }

  /** The first node, from index on, whose series vanished or went down. */
  ghost function NodeDeltasFrom(befores: seq<Samples>, afters: seq<Samples>, index: nat): Result<seq<Samples>, Error>
    requires |befores| == |afters| && index <= |befores|
    decreases |befores| - index
  {
    if index == |befores| then Ok([])
    else if !Comparable(befores[index], afters[index]) then Err(NodeChanged(index))
    else
      match NodeDeltasFrom(befores, afters, index + 1)
      case Err(e) => Err(e)
      case Ok(rest) => Ok([Delta(befores[index], afters[index])] + rest)
  }

  ghost function NodeDeltas(befores: seq<Samples>, afters: seq<Samples>): Result<seq<Samples>, Error> {
    if |befores| != |afters| then Err(SnapshotCountMismatch) else NodeDeltasFrom(befores, afters, 0)
  }

  method DiffNode(before: Samples, after: Samples) returns (delta: Option<Samples>)
    ensures delta == if Comparable(before, after) then Some(Delta(before, after)) else None
  {
    var keys := before.Keys;
    var sofar: Samples := map[];
    while keys != {}
      invariant keys <= before.Keys
      invariant forall key | key in before.Keys - keys ::
        key in after && !(after[key] + RESET_TOLERANCE < before[key])
      invariant sofar.Keys == before.Keys - keys
      invariant forall key | key in sofar :: key in before && key in after && sofar[key] == after[key] - before[key]
      decreases keys
    {
      var key :| key in keys;
      if key !in after {
        return None;
      }
      if after[key] + RESET_TOLERANCE < before[key] {
        return None;
      }
      sofar := sofar[key := after[key] - before[key]];
      keys := keys - {key};
    }
    assert sofar == Delta(before, after);
    return Some(sofar);
  }

  method DiffNodes(befores: seq<Samples>, afters: seq<Samples>) returns (r: Result<seq<Samples>, Error>)
    ensures r == NodeDeltas(befores, afters)
  {
    if |befores| != |afters| {
      return Err(SnapshotCountMismatch);
    }
    var deltas: seq<Samples> := [];
    assert forall rest: seq<Samples> :: [] + rest == rest;
    for i := 0 to |befores|
      invariant NodeDeltas(befores, afters) ==
        match NodeDeltasFrom(befores, afters, i)
        case Err(e) => Err(e)
        case Ok(rest) => Ok(deltas + rest)
    {
      var delta := DiffNode(befores[i], afters[i]);
      match delta {
        case None => return Err(NodeChanged(i));
        case Some(d) =>
          assert forall rest: seq<Samples> :: deltas + ([d] + rest) == (deltas + [d]) + rest;
          deltas := deltas + [d];
      }
    }
    assert deltas + [] == deltas;
    return Ok(deltas);
  }

  // ---- sums over nodes -------------------------------------------------------------------

  predicate Everywhere(deltas: seq<Samples>, key: Key) { forall d | d in deltas :: key in d }

  function Total(deltas: seq<Samples>, key: Key): real
    requires Everywhere(deltas, key)
  {
    if deltas == [] then 0.0
    else
      var last := |deltas| - 1;
      assert Everywhere(deltas[..last], key) && deltas[last] in deltas;
      Total(deltas[..last], key) + deltas[last][key]
  }

  function SumSamples(deltas: seq<Samples>, key: Key): Result<real, Error> {
    if Everywhere(deltas, key) then Ok(Total(deltas, key)) else Err(MissingSample)
  }

  method SumOverNodes(deltas: seq<Samples>, key: Key) returns (r: Result<real, Error>)
    ensures r == SumSamples(deltas, key)
  {
    var total := 0.0;
    for i := 0 to |deltas|
      invariant Everywhere(deltas[..i], key) && total == Total(deltas[..i], key)
    {
      if key !in deltas[i] {
        assert deltas[i] in deltas;
        return Err(MissingSample);
      }
      assert deltas[..i + 1][..i] == deltas[..i];
      assert deltas[..i + 1] == deltas[..i] + [deltas[i]];
      total := total + deltas[i][key];
    }
    assert deltas[..|deltas|] == deltas;
    return Ok(total);
  }

  function AsCount(value: real): Result<nat, Error> {
    if value >= 0.0 && value == value.Floor as real then Ok(value.Floor) else Err(NotACount)
  }

  // ---- the summed histogram --------------------------------------------------------------

  predicate BoundLe(a: Bound, b: Bound) { b.Infinite? || (a.Finite? && a.seconds <= b.seconds) }

  predicate BoundLt(a: Bound, b: Bound) { BoundLe(a, b) && a != b }

  /** Python's order on (bound, count) pairs. */
  predicate BucketLe(a: Bucket, b: Bucket) { BoundLt(a.bound, b.bound) || (a.bound == b.bound && a.count <= b.count) }

  lemma BucketsAreTotallyOrdered()
    ensures TotalOrder(BucketLe)
  {}

  predicate IsSuccessBucket(key: Key, projection: string) {
    && key.name == DURATION_SOURCE + "_bucket"
    && "projection" in key.labels && key.labels["projection"] == projection
    && "outcome" in key.labels && key.labels["outcome"] == "success"
  }

  /** Python's float() on a bound label, with "+Inf" set apart. */
  function RawBound(float: string -> Option<Bound>, raw: string): Option<Bound> {
    if raw == "+Inf" then Some(Infinite) else float(raw)
  }

  ghost predicate AllLabelled(deltas: seq<Samples>, projection: string) {
    forall d, key | d in deltas && key in d && IsSuccessBucket(key, projection) :: "le" in key.labels
  }

  ghost function RawBounds(deltas: seq<Samples>, projection: string): set<string> {
    set d, key | d in deltas && key in d && IsSuccessBucket(key, projection) && "le" in key.labels :: key.labels["le"]
  }

  function Entry(
      float: string -> Option<Bound>, deltas: seq<Samples>, projection: string, raw: string): Option<Bucket> {
    match SumSamples(deltas, BucketKey(projection, raw))
    case Err(_) => None
    case Ok(value) =>
      match (AsCount(value), RawBound(float, raw))
      case (Ok(count), Some(bound)) => Some(Bucket(bound, count))
      case _ => None
  }

  ghost predicate Readable(float: string -> Option<Bound>, deltas: seq<Samples>, projection: string) {
    && AllLabelled(deltas, projection)
    && forall raw | raw in RawBounds(deltas, projection) :: Entry(float, deltas, projection, raw).Some?
  }

  /** The entry of each raw bound, as one function; read only where the bounds are readable. */
  function EntryOf(float: string -> Option<Bound>, deltas: seq<Samples>, projection: string): string -> Bucket {
    raw => match Entry(float, deltas, projection, raw) case Some(b) => b case None => Bucket(Infinite, 0)
  }

  /** Some listing of a set without repetition. */
  ghost function Listing(s: set<string>): (l: seq<string>)
    ensures Distinct(l) && forall x :: x in l <==> x in s
  {
    if s == {} then [] else var x :| x in s; Listing(s - {x}) + [x]
  }

  ghost function Buckets(
      float: string -> Option<Bound>, deltas: seq<Samples>, projection: string): Result<seq<Bucket>, Error> {
    if Readable(float, deltas, projection)
    then Ok(Sort(Map(EntryOf(float, deltas, projection), Listing(RawBounds(deltas, projection))), BucketLe))
    else Err(BadBucket)
  }

  /** Each raw bound contributes its entry once, whatever order the set of bounds is walked in. */
  lemma AnyOrderSortsAlike(
      float: string -> Option<Bound>, deltas: seq<Samples>, projection: string, raws: seq<string>)
    requires Readable(float, deltas, projection) && Distinct(raws)
    requires forall raw :: raw in raws <==> raw in RawBounds(deltas, projection)
    ensures Buckets(float, deltas, projection) == Ok(Sort(Map(EntryOf(float, deltas, projection), raws), BucketLe))
  {
    var entry := EntryOf(float, deltas, projection);
    var listing := Listing(RawBounds(deltas, projection));
    DistinctPermutation(listing, raws);
    MapPermutation(entry, listing, raws);
    BucketsAreTotallyOrdered();
    SortPermutation(Map(entry, listing), Map(entry, raws), BucketLe);
  }

  method CollectBounds(deltas: seq<Samples>, projection: string) returns (bounds: Option<set<string>>)
    ensures bounds.Some? <==> AllLabelled(deltas, projection)
    ensures bounds.Some? ==> bounds.value == RawBounds(deltas, projection)
  {
    var found: set<string> := {};
    for i := 0 to |deltas|
      invariant AllLabelled(deltas[..i], projection) && found == RawBounds(deltas[..i], projection)
    {
      var keys := deltas[i].Keys;
      ghost var upto := deltas[..i + 1];
      assert upto == deltas[..i] + [deltas[i]];
      while keys != {}
        invariant keys <= deltas[i].Keys
        invariant forall key | key in deltas[i].Keys - keys && IsSuccessBucket(key, projection) :: "le" in key.labels
        invariant found == RawBounds(deltas[..i], projection) +
          set key | key in deltas[i].Keys - keys && IsSuccessBucket(key, projection) && "le" in key.labels ::
            key.labels["le"]
        decreases keys
      {
        var key :| key in keys;
        if IsSuccessBucket(key, projection) {
          if "le" !in key.labels {
            assert deltas[i] in deltas;
            return None;
          }
          found := found + {key.labels["le"]};
        }
        keys := keys - {key};
      }
      assert forall d | d in upto :: d in deltas[..i] || d == deltas[i];
      assert deltas[i] in upto && forall d | d in deltas[..i] :: d in upto;
      assert found == RawBounds(upto, projection);
    }
    assert deltas[..|deltas|] == deltas;
    return Some(found);
  }

  method ReadBucket(float: string -> Option<Bound>, deltas: seq<Samples>, projection: string, raw: string)
      returns (entry: Option<Bucket>)
    ensures entry == Entry(float, deltas, projection, raw)
  {
    var value := SumOverNodes(deltas, BucketKey(projection, raw));
    if value.Err? { return None; }
    var bound := RawBound(float, raw);
    var count := AsCount(value.value);
    if bound.None? || count.Err? { return None; }
    return Some(Bucket(bound.value, count.value));
  }

  /** Reads the entry of every bound, in no particular order; walked is the order taken. */
  method ReadBuckets(float: string -> Option<Bound>, deltas: seq<Samples>, projection: string, bounds: set<string>)
      returns (r: Option<seq<Bucket>>, ghost walked: seq<string>)
    ensures r.Some? <==> forall raw | raw in bounds :: Entry(float, deltas, projection, raw).Some?
    ensures Distinct(walked) && (r.Some? ==> forall raw :: raw in walked <==> raw in bounds)
    ensures r.Some? ==> r.value == Map(EntryOf(float, deltas, projection), walked)
  {
    var left := bounds;
    ghost var entry := EntryOf(float, deltas, projection);
    walked := [];
    var result: seq<Bucket> := [];
    while left != {}
      invariant left <= bounds && Distinct(walked)
      invariant forall raw :: raw in walked <==> raw in bounds - left
      invariant forall raw | raw in bounds - left :: Entry(float, deltas, projection, raw).Some?
      invariant result == Map(entry, walked)
      decreases left
    {
      var raw :| raw in left;
      var bucket := ReadBucket(float, deltas, projection, raw);
      if bucket.None? {
        return None, walked;
      }
      MapAppend(entry, walked, [raw]);
      AppendDistinct(walked, raw);
      result := result + [bucket.value];
      walked := walked + [raw];
      left := left - {raw};
    }
    return Some(result), walked;
  }

  method SuccessBuckets(float: string -> Option<Bound>, deltas: seq<Samples>, projection: string)
      returns (r: Result<seq<Bucket>, Error>)
    ensures r == Buckets(float, deltas, projection)
  {
    var bounds := CollectBounds(deltas, projection);
    if bounds.None? {
      return Err(BadBucket);
    }
    ghost var walked;
    var result;
    result, walked := ReadBuckets(float, deltas, projection, bounds.value);
    if result.None? {
      return Err(BadBucket);
    }
    AnyOrderSortsAlike(float, deltas, projection, walked);
    return Ok(Sort(result.value, BucketLe));
  }

  // ---- the quantile ----------------------------------------------------------------------

  function Rank95(count: nat): int { P.Ceil(count as real * 0.95) }

  function FirstCovering(buckets: seq<Bucket>, rank: int): Option<Bound> {
    if buckets == [] then None
    else if buckets[0].count >= rank then Some(buckets[0].bound)
    else FirstCovering(buckets[1..], rank)
  }

  function P95(buckets: seq<Bucket>, count: nat): Result<Option<real>, Error> {
    if count == 0 then Ok(None)
    else
      match FirstCovering(buckets, Rank95(count))
      case None => Err(CountNotCovered)
      case Some(Infinite) => Ok(None)
      case Some(Finite(seconds)) => Ok(Some(seconds * 1000.0))
  }

  method P95UpperBoundMs(buckets: seq<Bucket>, count: nat) returns (r: Result<Option<real>, Error>)
    ensures r == P95(buckets, count)
  {
    if count == 0 {
      return Ok(None);
    }
    var rank := Rank95(count);
    for i := 0 to |buckets|
      invariant FirstCovering(buckets, rank) == FirstCovering(buckets[i..], rank)
    {
      assert buckets[i..][1..] == buckets[i + 1..];
      if buckets[i].count >= rank {
        match buckets[i].bound {
          case Infinite => return Ok(None);
          case Finite(seconds) => return Ok(Some(seconds * 1000.0));
        }
      }
    }
    return Err(CountNotCovered);
  }

  // ---- the report ------------------------------------------------------------------------

  function SumCount(deltas: seq<Samples>, key: Key): Result<nat, Error> {
    match SumSamples(deltas, key)
    case Err(e) => Err(e)
    case Ok(value) => AsCount(value)
  }

  ghost function ProjectionRow(
      float: string -> Option<Bound>, deltas: seq<Samples>, projection: string): Result<Row, Error> {
    match SumCount(deltas, WritesKey(projection))
    case Err(e) => Err(e)
    case Ok(writes) =>
      match SumCount(deltas, DurationKey("_count", projection, "success"))
      case Err(e) => Err(e)
      case Ok(successes) =>
        match SumCount(deltas, DurationKey("_count", projection, "error"))
        case Err(e) => Err(e)
        case Ok(errors) =>
          match SumSamples(deltas, DurationKey("_sum", projection, "success"))
          case Err(e) => Err(e)
          case Ok(seconds) =>
            if writes != successes then Err(WritesMismatch)
            else
              match Buckets(float, deltas, projection)
              case Err(e) => Err(e)
              case Ok(buckets) =>
                match P95(buckets, successes)
                case Err(e) => Err(e)
                case Ok(p95) =>
                  Ok(Row(projection, writes, Timing(successes, errors, seconds, Average(seconds, successes), p95)))
  }

  function Average(seconds: real, count: nat): Option<real> {
    if count == 0 then None else Some(seconds * 1000.0 / count as real)
  }

  method BuildRow(
      float: string -> Option<Bound>, deltas: seq<Samples>, projection: string) returns (r: Result<Row, Error>)
    ensures r == ProjectionRow(float, deltas, projection)
  {
    var writes := CountOverNodes(deltas, WritesKey(projection));
    if writes.Err? { return Err(writes.error); }
    var successes := CountOverNodes(deltas, DurationKey("_count", projection, "success"));
    if successes.Err? { return Err(successes.error); }
    var errors := CountOverNodes(deltas, DurationKey("_count", projection, "error"));
    if errors.Err? { return Err(errors.error); }
    var seconds := SumOverNodes(deltas, DurationKey("_sum", projection, "success"));
    if seconds.Err? { return Err(seconds.error); }
    if writes.value != successes.value {
      return Err(WritesMismatch);
    }
    var buckets := SuccessBuckets(float, deltas, projection);
    if buckets.Err? { return Err(buckets.error); }
    var p95 := P95UpperBoundMs(buckets.value, successes.value);
    if p95.Err? { return Err(p95.error); }
    var average := Average(seconds.value, successes.value);
    return Ok(Row(projection, writes.value,
                  Timing(successes.value, errors.value, seconds.value, average, p95.value)));
  }

  method CountOverNodes(deltas: seq<Samples>, key: Key) returns (r: Result<nat, Error>)
    ensures r == SumCount(deltas, key)
  {
    var value := SumOverNodes(deltas, key);
    if value.Err? { return Err(value.error); }
    return AsCount(value.value);
  }

  ghost function RowOf(float: string -> Option<Bound>, deltas: seq<Samples>): string -> Result<Row, Error> {
    projection => ProjectionRow(float, deltas, projection)
  }

  ghost function BuildReport(
      float: string -> Option<Bound>, befores: seq<Samples>, afters: seq<Samples>, projections: seq<string>)
      : Result<Report, Error>
    requires |projections| == 3
  {
    match NodeDeltas(befores, afters)
    case Err(e) => Err(e)
    case Ok(deltas) =>
      match Traverse(RowOf(float, deltas), projections)
      case Err(e) => Err(e)
      case Ok(rows) => Ok(Assemble(rows))
  }

  /** write_operations counts the direct and the group message writes, not the group initialisations. */
  function Assemble(rows: seq<Row>): Report
    requires |rows| == 3
  {
    Report(rows[0].writes + rows[2].writes, rows)
  }

  method BuildRows(float: string -> Option<Bound>, deltas: seq<Samples>, projections: seq<string>)
      returns (r: Result<seq<Row>, Error>)
    ensures r == Traverse(RowOf(float, deltas), projections)
  {
    ghost var row := RowOf(float, deltas);
    var rows: seq<Row> := [];
    assert projections[0..] == projections && forall rest: seq<Row> :: [] + rest == rest;
    for i := 0 to |projections|
      invariant Traverse(row, projections) ==
        match Traverse(row, projections[i..])
        case Err(e) => Err(e)
        case Ok(rest) => Ok(rows + rest)
    {
      TraverseStep(row, projections, i);
      var next := BuildRow(float, deltas, projections[i]);
      if next.Err? { return Err(next.error); }
      assert forall rest: seq<Row> :: rows + ([next.value] + rest) == (rows + [next.value]) + rest;
      rows := rows + [next.value];
    }
    assert rows + [] == rows;
    return Ok(rows);
  }

  // ---- the report as it is written -------------------------------------------------------

  /** Seconds to nine digits and milliseconds to six: all of it in nanoseconds. */
  datatype WrittenTiming = WrittenTiming(
    successCount: int, errorCount: int, successSumNanos: int, averageNanos: Option<int>, p95Nanos: Option<int>)

  datatype Written = Written(
    writeOperations: int, projectionWrites: map<string, int>, counterSource: string, durationSource: string,
    timing: map<string, WrittenTiming>)

  const NANOS_PER_SECOND := 1000000000.0
  const NANOS_PER_MILLI := 1000000.0

  function WriteTiming(t: Timing): WrittenTiming {
    WrittenTiming(t.successCount, t.errorCount, RoundHalfEven(t.successSumSeconds * NANOS_PER_SECOND),
                  RoundOption(t.averageSuccessMs, NANOS_PER_MILLI), RoundOption(t.p95UpperBoundMs, NANOS_PER_MILLI))
  }

  function WritesByProjection(rows: seq<Row>): map<string, int> {
    if rows == [] then map[]
    else
      var last := rows[|rows| - 1];
      WritesByProjection(rows[..|rows| - 1])[last.projection := last.writes]
  }

  function TimingByProjection(rows: seq<Row>): map<string, WrittenTiming> {
    if rows == [] then map[]
    else
      var last := rows[|rows| - 1];
      TimingByProjection(rows[..|rows| - 1])[last.projection := WriteTiming(last.timing)]
  }

  function WriteReport(r: Report): Written {
    Written(r.writeOperations, WritesByProjection(r.rows), COUNTER_SOURCE, DURATION_SOURCE, TimingByProjection(r.rows))
  }

  /** The dictionaries filled projection by projection, as they are written. */
  method BuildDelta(float: string -> Option<Bound>, befores: seq<Samples>, afters: seq<Samples>)
      returns (r: Result<Written, Error>)
    ensures r == match BuildReport(float, befores, afters, PROJECTIONS)
      case Err(e) => Err(e)
      case Ok(report) => Ok(WriteReport(report))
  {
    var deltas := DiffNodes(befores, afters);
    if deltas.Err? { return Err(deltas.error); }
    var rows := BuildRows(float, deltas.value, PROJECTIONS);
    if rows.Err? { return Err(rows.error); }
    var projectionWrites: map<string, int> := map[];
    var timing: map<string, WrittenTiming> := map[];
    for i := 0 to |rows.value|
      invariant projectionWrites == WritesByProjection(rows.value[..i])
      invariant timing == TimingByProjection(rows.value[..i])
    {
      var row := rows.value[i];
      assert rows.value[..i + 1][..i] == rows.value[..i];
      projectionWrites := projectionWrites[row.projection := row.writes];
      timing := timing[row.projection := WriteTiming(row.timing)];
    }
    assert rows.value[..|rows.value|] == rows.value;
    var report := Assemble(rows.value);
    return Ok(Written(report.writeOperations, projectionWrites, COUNTER_SOURCE, DURATION_SOURCE, timing));
  }
}
