/** Process resource evidence: the sampler's summary (scripts/bench/process_metrics.py) and the baseline report's
    own check of it (scripts/bench/baseline_report.py). */
module ProcessResources {
  import opened Rounding
  import opened Wrappers

  /** One process as sampled; the numbers are what the JSON held, so they may be negative. */
  datatype Observation = Observation(
    pid: int, startTimeTicks: int, cpuTicks: int, rssBytes: int, threadCount: int, voluntary: int, involuntary: int)

  datatype Sample = Sample(schemaVersion: string, capturedNs: int, clockTicks: int, services: map<string, Observation>)

  /** cpuMicroPercent is cpu_core_percent in millionths, the precision both programs round it to. */
  datatype Service = Service(
    pid: int, cpuMicroPercent: int, rssStart: int, rssEnd: int, rssPeak: int, threadPeak: int,
    voluntary: int, involuntary: int)

  /** durationMicros is duration_seconds in millionths, the precision it is rounded to. */
  datatype Report = Report(schemaVersion: string, sampleCount: nat, durationMicros: int, services: map<string, Service>)

  /** BadService stands for whatever is found wrong with an observation first; the sample checks come before it. */
  datatype Error =
    | TooFewSamples | NoServices | BadClock | BadSample(index: nat) | BadService
    | BadFields | BadSchema | BadCount | BadDuration | BadServiceSummary

  const SAMPLE_SCHEMA := "dipole.performance.process-sample.v1"
  const REPORT_SCHEMA := "dipole.performance.process-resources.v1"

  // ---- samples ---------------------------------------------------------------------------

  predicate SampleFits(samples: seq<Sample>, i: nat)
    requires i < |samples|
  {
    && samples[i].schemaVersion == SAMPLE_SCHEMA
    && samples[i].services.Keys == samples[0].services.Keys
    && samples[i].clockTicks == samples[0].clockTicks
    && samples[i].capturedNs >= 0
    && (i > 0 ==> samples[i].capturedNs > samples[i - 1].capturedNs)
  }

  predicate SamplesFit(samples: seq<Sample>) {
    && |samples| >= 2 && samples[0].services != map[] && samples[0].clockTicks > 0
    && forall i: nat | i < |samples| :: SampleFits(samples, i)
  }

  /** The first check that fails. */
  predicate SamplesFailFor(samples: seq<Sample>, error: Error) {
    match error
    case TooFewSamples => |samples| < 2
    case NoServices => |samples| >= 2 && samples[0].services == map[]
    case BadClock => |samples| >= 2 && samples[0].services != map[] && samples[0].clockTicks <= 0
    case BadSample(i) =>
      && 2 <= |samples| && samples[0].services != map[] && samples[0].clockTicks > 0
      && i < |samples| && !SampleFits(samples, i) && forall k: nat | k < i :: SampleFits(samples, k)
    case _ => false
  }

  method CheckSamples(samples: seq<Sample>) returns (error: Option<Error>)
    ensures error.None? <==> SamplesFit(samples)
    ensures error.Some? ==> SamplesFailFor(samples, error.value)
  {
    if |samples| < 2 {
      return Some(TooFewSamples);
    }
    if samples[0].services == map[] {
      return Some(NoServices);
    }
    if samples[0].clockTicks <= 0 {
      return Some(BadClock);
    }
    var previous: Option<int> := None;
    for i := 0 to |samples|
      invariant previous == if i == 0 then None else Some(samples[i - 1].capturedNs)
      invariant forall k: nat | k < i :: SampleFits(samples, k)
    {
      var sample := samples[i];
      if sample.schemaVersion != SAMPLE_SCHEMA || sample.services.Keys != samples[0].services.Keys
         || sample.clockTicks != samples[0].clockTicks || sample.capturedNs < 0
         || (previous.Some? && sample.capturedNs <= previous.value) {
        assert !SampleFits(samples, i);
        return Some(BadSample(i));
      }
      previous := Some(sample.capturedNs);
    }
    return None;
  }

  // ---- one service -----------------------------------------------------------------------

  predicate NonNegative(o: Observation) {
    && o.pid >= 0 && o.startTimeTicks >= 0 && o.cpuTicks >= 0 && o.rssBytes >= 0 && o.threadCount >= 0
    && o.voluntary >= 0 && o.involuntary >= 0
  }

  predicate NoneRegressed(before: Observation, after: Observation) {
    && before.cpuTicks <= after.cpuTicks
    && before.voluntary <= after.voluntary && before.involuntary <= after.involuntary
  }

  predicate ServiceFits(os: seq<Observation>) {
    && (forall o | o in os :: o.pid == os[0].pid && o.startTimeTicks == os[0].startTimeTicks && NonNegative(o))
    && forall k | 0 < k < |os| :: NoneRegressed(os[k - 1], os[k])
  }

  method CheckService(os: seq<Observation>) returns (fits: bool)
    requires os != []
    ensures fits <==> ServiceFits(os)
  {
    for i := 0 to |os|
      invariant forall k | 0 <= k < i ::
        os[k].pid == os[0].pid && os[k].startTimeTicks == os[0].startTimeTicks && NonNegative(os[k])
    {
      if os[i].pid != os[0].pid || os[i].startTimeTicks != os[0].startTimeTicks || !NonNegative(os[i]) {
        assert os[i] in os;
        return false;
      }
    }
    var previous := os[0];
    for i := 1 to |os|
      invariant previous == os[i - 1]
      invariant forall k | 0 < k < i :: NoneRegressed(os[k - 1], os[k])
    {
      if !NoneRegressed(previous, os[i]) {
        return false;
      }
      previous := os[i];
    }
    return true;
  }

  /** The largest value and where it is reached. */
  ghost predicate IsPeak(values: seq<int>, peak: int) { peak in values && forall v | v in values :: v <= peak }

  method Max(values: seq<int>) returns (peak: int)
    requires values != []
    ensures IsPeak(values, peak)
  {
    peak := values[0];
    for i := 1 to |values|
      invariant peak in values[..i] && forall k | 0 <= k < i :: values[k] <= peak
    {
      if values[i] > peak {
        peak := values[i];
      }
    }
  }

  function Rss(os: seq<Observation>): (r: seq<int>)
    ensures |r| == |os| && forall k | 0 <= k < |os| :: r[k] == os[k].rssBytes
  {
    seq(|os|, k requires 0 <= k < |os| => os[k].rssBytes)
  }

  function Threads(os: seq<Observation>): (r: seq<int>)
    ensures |r| == |os| && forall k | 0 <= k < |os| :: r[k] == os[k].threadCount
  {
    seq(|os|, k requires 0 <= k < |os| => os[k].threadCount)
  }

  /** What accumulated between consecutive observations. */
  function Accumulated(os: seq<Observation>, counter: Observation -> int): int {
    if |os| < 2 then 0
    else Accumulated(os[..|os| - 1], counter) + (counter(os[|os| - 1]) - counter(os[|os| - 2]))
  }

  function CpuMicroPercent(ticks: int, clockTicks: int, durationNs: int): int
    requires clockTicks > 0 && durationNs > 0
  {
    RoundHalfEven((ticks as real / clockTicks as real) / (durationNs as real / 1000000000.0) * 100.0 * 1000000.0)
  }

  /** The summary of one service says what its observations say. */
  ghost predicate Summarises(os: seq<Observation>, clockTicks: int, durationNs: int, s: Service)
    requires os != [] && clockTicks > 0 && durationNs > 0
  {
    && s.pid == os[0].pid
    && s.rssStart == os[0].rssBytes && s.rssEnd == os[|os| - 1].rssBytes
    && IsPeak(Rss(os), s.rssPeak) && IsPeak(Threads(os), s.threadPeak)
    && s.voluntary == Accumulated(os, (o: Observation) => o.voluntary)
    && s.involuntary == Accumulated(os, (o: Observation) => o.involuntary)
    && s.cpuMicroPercent == CpuMicroPercent(Accumulated(os, (o: Observation) => o.cpuTicks), clockTicks, durationNs)
  }

  lemma {:induction false} AccumulatedTelescopes(os: seq<Observation>, counter: Observation -> int)
    requires os != []
    ensures Accumulated(os, counter) == counter(os[|os| - 1]) - counter(os[0])
  {
    if |os| >= 2 { AccumulatedTelescopes(os[..|os| - 1], counter); }
  }

  method SummariseService(os: seq<Observation>, clockTicks: int, durationNs: int) returns (s: Service)
    requires os != [] && clockTicks > 0 && durationNs > 0
    ensures Summarises(os, clockTicks, durationNs, s)
  {
    var first, last := os[0], os[|os| - 1];
    var rssPeak := Max(Rss(os));
    var threadPeak := Max(Threads(os));
    AccumulatedTelescopes(os, (o: Observation) => o.voluntary);
    AccumulatedTelescopes(os, (o: Observation) => o.involuntary);
    AccumulatedTelescopes(os, (o: Observation) => o.cpuTicks);
    var percent := CpuMicroPercent(last.cpuTicks - first.cpuTicks, clockTicks, durationNs);
    s := Service(first.pid, percent, first.rssBytes, last.rssBytes, rssPeak, threadPeak,
                 last.voluntary - first.voluntary, last.involuntary - first.involuntary);
  }

  // ---- the summary -----------------------------------------------------------------------

  function ObservationsOf(samples: seq<Sample>, name: string): (os: seq<Observation>)
    requires forall i | 0 <= i < |samples| :: name in samples[i].services
    ensures |os| == |samples| && forall i | 0 <= i < |os| :: os[i] == samples[i].services[name]
  {
    seq(|samples|, i requires 0 <= i < |samples| => samples[i].services[name])
  }

  /** round(ns / 1e9, 6) in millionths: to the nearest, ties to even. */
  function RoundMicros(ns: int): int {
    var q, r := ns / 1000, ns % 1000;
    if r < 500 || (r == 500 && q % 2 == 0) then q else q + 1
  }

  lemma {:induction false} Increasing(samples: seq<Sample>, i: nat)
    requires SamplesFit(samples) && i < |samples|
    ensures samples[0].capturedNs <= samples[i].capturedNs && (i > 0 ==> samples[0].capturedNs < samples[i].capturedNs)
  {
    assert SampleFits(samples, i);
    if i > 0 { Increasing(samples, i - 1); }
  }

  function DurationNs(samples: seq<Sample>): int
    requires samples != []
  {
    samples[|samples| - 1].capturedNs - samples[0].capturedNs
  }

  lemma FitMeansNamed(samples: seq<Sample>)
    requires SamplesFit(samples)
    ensures forall i | 0 <= i < |samples| :: samples[i].services.Keys == samples[0].services.Keys
    ensures DurationNs(samples) > 0
  {
    forall i: nat | i < |samples| ensures samples[i].services.Keys == samples[0].services.Keys {
      assert SampleFits(samples, i);
    }
    Increasing(samples, |samples| - 1);
  }

  predicate NamedEverywhere(samples: seq<Sample>) {
    samples != [] && forall i | 0 <= i < |samples| :: samples[i].services.Keys == samples[0].services.Keys
  }

  /** The samples that are summarised rather than refused. */
  ghost predicate Acceptable(samples: seq<Sample>) {
    && SamplesFit(samples) && NamedEverywhere(samples)
    && forall name | name in samples[0].services :: FitTest(samples)(name)
  }

  /** Whether an entry summarises the service of that name, as a function value. */
  ghost function SummaryTest(samples: seq<Sample>): (string, Service) -> bool
    requires NamedEverywhere(samples) && samples[0].clockTicks > 0 && DurationNs(samples) > 0
  {
    (name: string, s: Service) =>
      name in samples[0].services
      && Summarises(ObservationsOf(samples, name), samples[0].clockTicks, DurationNs(samples), s)
  }

  ghost function FitTest(samples: seq<Sample>): string -> bool
    requires NamedEverywhere(samples)
  {
    (name: string) => name in samples[0].services && ServiceFits(ObservationsOf(samples, name))
  }

  ghost predicate IsReport(samples: seq<Sample>, r: Report)
    requires NamedEverywhere(samples) && samples[0].clockTicks > 0 && DurationNs(samples) > 0
  {
    && r.schemaVersion == REPORT_SCHEMA && r.sampleCount == |samples|
    && r.durationMicros == RoundMicros(DurationNs(samples))
    && r.services.Keys == samples[0].services.Keys
    && forall name | name in r.services :: SummaryTest(samples)(name, r.services[name])
  }

  method SummarizeSamples(samples: seq<Sample>) returns (r: Result<Report, Error>)
    ensures r.Ok? <==> Acceptable(samples)
    ensures r.Err? ==> if SamplesFit(samples) then r.error == BadService else SamplesFailFor(samples, r.error)
    ensures r.Ok? ==> DurationNs(samples) > 0 && IsReport(samples, r.value)
  {
    var error := CheckSamples(samples);
    if error.Some? {
      return Err(error.value);
    }
    FitMeansNamed(samples);
    var names := samples[0].services.Keys;
    var services: map<string, Service> := map[];
    while names != {}
      invariant names <= samples[0].services.Keys
      invariant services.Keys == samples[0].services.Keys - names
      invariant forall name | name in services :: FitTest(samples)(name) && SummaryTest(samples)(name, services[name])
      decreases names
    {
      var name :| name in names;
      var service := SummariseNamed(samples, name);
      if service.None? {
        return Err(BadService);
      }
      services := services[name := service.value];
      names := names - {name};
    }
    return Ok(Report(REPORT_SCHEMA, |samples|, RoundMicros(DurationNs(samples)), services));
  }

  method SummariseNamed(samples: seq<Sample>, name: string) returns (s: Option<Service>)
    requires NamedEverywhere(samples) && samples[0].clockTicks > 0 && DurationNs(samples) > 0
    requires name in samples[0].services
    ensures s.Some? <==> FitTest(samples)(name)
    ensures s.Some? ==> SummaryTest(samples)(name, s.value)
  {
    var observations := ObservationsOf(samples, name);
    var fits := CheckService(observations);
    if !fits {
      return None;
    }
    var service := SummariseService(observations, samples[0].clockTicks, DurationNs(samples));
    return Some(service);
  }

  // ---- the consumer ----------------------------------------------------------------------

  predicate ValidService(name: string, s: Service) {
    && name != "" && s.pid > 0 && s.cpuMicroPercent >= 0
    && s.rssStart >= 0 && s.rssEnd >= 0 && s.rssPeak >= 0 && s.threadPeak >= 0 && s.voluntary >= 0 && s.involuntary >= 0
    && s.rssPeak >= s.rssStart && s.rssPeak >= s.rssEnd
  }

  predicate ValidReport(r: Report) {
    && r.schemaVersion == REPORT_SCHEMA && r.sampleCount >= 2 && r.durationMicros > 0 && r.services != map[]
    && forall name | name in r.services :: ValidService(name, r.services[name])
  }

  /** The first check that fails. */
  predicate ReportFailsFor(r: Report, error: Error) {
    var schema, count, duration := r.schemaVersion == REPORT_SCHEMA, r.sampleCount >= 2, r.durationMicros > 0;
    match error
    case BadSchema => !schema
    case BadCount => schema && !count
    case BadDuration => schema && count && !duration
    case NoServices => schema && count && duration && r.services == map[]
    case BadServiceSummary =>
      schema && count && duration && exists name :: name in r.services && !ValidService(name, r.services[name])
    case _ => false
  }

  /** The process resources section of the baseline report hands on exactly the services it checked. */
  method ProcessResourcesSection(r: Report) returns (section: Result<map<string, Service>, Error>)
    ensures section.Ok? <==> ValidReport(r)
    ensures section.Err? ==> ReportFailsFor(r, section.error)
    ensures section.Ok? ==> section.value == r.services
  {
    if r.schemaVersion != REPORT_SCHEMA {
      return Err(BadSchema);
    }
    if r.sampleCount < 2 {
      return Err(BadCount);
    }
    if r.durationMicros < 0 || r.durationMicros == 0 {
      return Err(BadDuration);
    }
    if r.services == map[] {
      return Err(NoServices);
    }
    var names := r.services.Keys;
    var services: map<string, Service> := map[];
    while names != {}
      invariant names <= r.services.Keys && services.Keys == r.services.Keys - names
      invariant forall name | name in services ::
        services[name] == r.services[name] && ValidService(name, r.services[name])
      decreases names
    {
      var name :| name in names;
      if !ValidService(name, r.services[name]) {
        return Err(BadServiceSummary);
      }
      services := services[name := r.services[name]];
      names := names - {name};
    }
    assert services == r.services;
    return Ok(services);
  }

  lemma {:induction false} AccumulatedNonNegative(os: seq<Observation>)
    requires ServiceFits(os)
    ensures Accumulated(os, (o: Observation) => o.voluntary) >= 0
    ensures Accumulated(os, (o: Observation) => o.involuntary) >= 0
    ensures Accumulated(os, (o: Observation) => o.cpuTicks) >= 0
  {
    if |os| >= 2 {
      assert NoneRegressed(os[|os| - 2], os[|os| - 1]);
      AccumulatedNonNegative(os[..|os| - 1]);
    }
  }

  lemma PercentNonNegative(ticks: int, clockTicks: int, durationNs: int)
    requires ticks >= 0 && clockTicks > 0 && durationNs > 0
    ensures CpuMicroPercent(ticks, clockTicks, durationNs) >= 0
  {}

  lemma SummaryIsValid(name: string, os: seq<Observation>, clockTicks: int, durationNs: int, s: Service)
    requires os != [] && clockTicks > 0 && durationNs > 0
    requires ServiceFits(os) && Summarises(os, clockTicks, durationNs, s)
    ensures ValidService(name, s) <==> name != "" && os[0].pid > 0
  {
    AccumulatedNonNegative(os);
    PercentNonNegative(Accumulated(os, (o: Observation) => o.cpuTicks), clockTicks, durationNs);
    var first, last := os[0], os[|os| - 1];
    assert first in os && last in os;
    assert Rss(os)[0] in Rss(os) && Rss(os)[|os| - 1] in Rss(os);
    assert Threads(os)[0] in Threads(os);
  }

  lemma EntryIsValid(samples: seq<Sample>, name: string, s: Service)
    requires NamedEverywhere(samples) && samples[0].clockTicks > 0 && DurationNs(samples) > 0
    requires FitTest(samples)(name) && SummaryTest(samples)(name, s)
    ensures name in samples[0].services
    ensures ValidService(name, s) <==> name != "" && samples[0].services[name].pid > 0
  {
    SummaryIsValid(name, ObservationsOf(samples, name), samples[0].clockTicks, DurationNs(samples), s);
  }

  lemma EntriesAreValid(samples: seq<Sample>, r: Report)
    requires Acceptable(samples) && DurationNs(samples) > 0 && IsReport(samples, r)
    ensures r.services.Keys == samples[0].services.Keys != {}
    ensures forall name | name in r.services ::
      ValidService(name, r.services[name]) <==> name != "" && samples[0].services[name].pid > 0
  {
    forall name | name in r.services
      ensures ValidService(name, r.services[name]) <==> name != "" && samples[0].services[name].pid > 0
    {
      EntryIsValid(samples, name, r.services[name]);
    }
    HasKeys(samples[0].services);
  }

  lemma HasKeys<K, V>(m: map<K, V>)
    requires m != map[]
    ensures m.Keys != {}
  {
    assert exists k :: k in m;
  }

  lemma RoundsToZero(ns: int)
    requires ns > 0
    ensures RoundMicros(ns) > 0 <==> ns > 500
  {}

  lemma ValidWhenEntriesAre(r: Report, first: map<string, Observation>)
    requires r.services.Keys == first.Keys != {} && r.schemaVersion == REPORT_SCHEMA && r.sampleCount >= 2
    requires forall name | name in r.services ::
      ValidService(name, r.services[name]) <==> name != "" && first[name].pid > 0
    ensures ValidReport(r) <==> r.durationMicros > 0 && forall name | name in first :: name != "" && first[name].pid > 0
  {}

  /** What the sampler writes the baseline report accepts, exactly when every process has a name and a positive
      pid and the run lasted more than 500 nanoseconds, below which the duration rounds to zero. */
  lemma SummaryAcceptedExactly(samples: seq<Sample>, r: Report)
    requires Acceptable(samples) && DurationNs(samples) > 0 && IsReport(samples, r)
    ensures ValidReport(r) <==>
      && DurationNs(samples) > 500
      && forall name | name in samples[0].services :: name != "" && samples[0].services[name].pid > 0
  {
    EntriesAreValid(samples, r);
    RoundsToZero(DurationNs(samples));
    ValidWhenEntriesAre(r, samples[0].services);
  }

  /** Two samples of one idle process, some time apart. */
  function TwoSamples(name: string, pid: int, ns: int): seq<Sample> {
    var o := Observation(pid, 0, 0, 0, 0, 0, 0);
    [Sample(SAMPLE_SCHEMA, 0, 100, map[name := o]), Sample(SAMPLE_SCHEMA, ns, 100, map[name := o])]
  }

  /** The sampler summarises any of them; a pid of 0, an empty name or a run of 500 ns is then refused. */
  lemma SummarisedButRefused(name: string, pid: int, ns: int, r: Report)
    requires pid >= 0 && ns > 0
    ensures Acceptable(TwoSamples(name, pid, ns)) && DurationNs(TwoSamples(name, pid, ns)) == ns
    ensures IsReport(TwoSamples(name, pid, ns), r) ==> (ValidReport(r) <==> ns > 500 && name != "" && pid > 0)
  {
    var samples := TwoSamples(name, pid, ns);
    assert name in samples[0].services;
    assert SampleFits(samples, 0) && SampleFits(samples, 1);
    assert ServiceFits(ObservationsOf(samples, name));
    assert FitTest(samples)(name);
    if IsReport(samples, r) {
      SummaryAcceptedExactly(samples, r);
    }
  }
}
