/** What the process resource summary (scripts/bench/process_metrics.py) says of the samples it was given: which samples
    it takes, and every figure it writes, in terms of the samples alone. */
module ResourceFigures {
  import opened Rounding
  import opened ProcessResources

  /** A figure no process can have. */
  predicate Sane(o: Observation) {
    forall n | n in [o.pid, o.startTimeTicks, o.cpuTicks, o.rssBytes, o.threadCount, o.voluntary, o.involuntary] ::
      n >= 0
  }

  /** One process, observed later. */
  predicate Continues(before: Observation, after: Observation) {
    && before.pid == after.pid && before.startTimeTicks == after.startTimeTicks
    && before.cpuTicks <= after.cpuTicks
    && before.voluntary <= after.voluntary && before.involuntary <= after.involuntary
  }

  ghost predicate Coherent(samples: seq<Sample>) {
    && (forall s | s in samples ::
          && s.schemaVersion == "dipole.performance.process-sample.v1"
          && s.services.Keys == samples[0].services.Keys && s.clockTicks == samples[0].clockTicks
          && s.capturedNs >= 0)
    && forall i, j | 0 <= i < j < |samples| :: samples[i].capturedNs < samples[j].capturedNs
  }

  ghost predicate SameProcesses(samples: seq<Sample>) {
    && (forall s, name | s in samples && name in s.services :: Sane(s.services[name]))
    && forall i, j, name
      | 0 <= i < j < |samples| && name in samples[i].services && name in samples[j].services ::
      Continues(samples[i].services[name], samples[j].services[name])
  }

  lemma SaneExactly(o: Observation)
    ensures Sane(o) <==> NonNegative(o)
  {
    var ns := [o.pid, o.startTimeTicks, o.cpuTicks, o.rssBytes, o.threadCount, o.voluntary, o.involuntary];
    assert ns[0] in ns && ns[1] in ns && ns[2] in ns && ns[3] in ns && ns[4] in ns && ns[5] in ns && ns[6] in ns;
  }

  lemma {:induction false} LaterSamples(samples: seq<Sample>, i: nat, j: nat)
    requires i < j < |samples| && forall k: nat | k < |samples| :: SampleFits(samples, k)
    ensures samples[i].capturedNs < samples[j].capturedNs
  {
    assert SampleFits(samples, j);
    if i < j - 1 { LaterSamples(samples, i, j - 1); }
  }

  lemma CoherentExactly(samples: seq<Sample>)
    requires samples != []
    ensures Coherent(samples) <==> forall k: nat | k < |samples| :: SampleFits(samples, k)
  {
    if forall k: nat | k < |samples| :: SampleFits(samples, k) {
      forall s | s in samples
        ensures s.schemaVersion == "dipole.performance.process-sample.v1"
        ensures s.services.Keys == samples[0].services.Keys && s.clockTicks == samples[0].clockTicks
        ensures s.capturedNs >= 0
      {
        var k :| 0 <= k < |samples| && samples[k] == s;
        assert SampleFits(samples, k);
      }
      forall i, j | 0 <= i < j < |samples| ensures samples[i].capturedNs < samples[j].capturedNs {
        LaterSamples(samples, i, j);
      }
    }
    if Coherent(samples) {
      forall k: nat | k < |samples| ensures SampleFits(samples, k) { assert samples[k] in samples; }
    }
  }

  lemma {:induction false} LaterObservations(os: seq<Observation>, i: nat, j: nat)
    requires i < j < |os| && ServiceFits(os)
    ensures Continues(os[i], os[j])
  {
    assert os[i] in os && os[j] in os && os[j - 1] in os;
    assert NoneRegressed(os[j - 1], os[j]);
    if i < j - 1 { LaterObservations(os, i, j - 1); }
  }

  /** The observations of one service are those of one process whose counters never fall. */
  lemma ServiceExactly(os: seq<Observation>)
    ensures ServiceFits(os) <==>
      && (forall o | o in os :: Sane(o)) && forall i, j | 0 <= i < j < |os| :: Continues(os[i], os[j])
  {
    forall o: Observation ensures Sane(o) <==> NonNegative(o) { SaneExactly(o); }
    if ServiceFits(os) {
      forall i, j | 0 <= i < j < |os| ensures Continues(os[i], os[j]) { LaterObservations(os, i, j); }
    }
    if (forall o | o in os :: Sane(o)) && forall i, j | 0 <= i < j < |os| :: Continues(os[i], os[j]) {
      forall o | o in os ensures o.pid == os[0].pid && o.startTimeTicks == os[0].startTimeTicks {
        var k :| 0 <= k < |os| && os[k] == o;
        assert k > 0 ==> Continues(os[0], os[k]);
      }
      forall k | 0 < k < |os| ensures NoneRegressed(os[k - 1], os[k]) { assert Continues(os[k - 1], os[k]); }
    }
  }

  lemma NamedFitExactly(samples: seq<Sample>)
    requires NamedEverywhere(samples)
    ensures (forall name | name in samples[0].services :: FitTest(samples)(name)) <==> SameProcesses(samples)
  {
    forall name | name in samples[0].services
      ensures ServiceFits(ObservationsOf(samples, name)) <==>
        && (forall s | s in samples :: Sane(s.services[name]))
        && forall i, j | 0 <= i < j < |samples| :: Continues(samples[i].services[name], samples[j].services[name])
    {
      ServiceExactly(ObservationsOf(samples, name));
      OfOneName(samples, name);
    }
    forall s | s in samples ensures s.services.Keys == samples[0].services.Keys {
      var k :| 0 <= k < |samples| && samples[k] == s;
    }
  }

  lemma OfOneName(samples: seq<Sample>, name: string)
    requires forall i | 0 <= i < |samples| :: name in samples[i].services
    ensures (forall o | o in ObservationsOf(samples, name) :: Sane(o)) <==>
            forall s | s in samples :: Sane(s.services[name])
  {
    var os := ObservationsOf(samples, name);
    if forall o | o in os :: Sane(o) {
      forall s | s in samples ensures Sane(s.services[name]) {
        var k :| 0 <= k < |samples| && samples[k] == s;
        assert os[k] in os;
      }
    }
    if forall s | s in samples :: Sane(s.services[name]) {
      forall o | o in os ensures Sane(o) {
        var k :| 0 <= k < |os| && os[k] == o;
        assert samples[k] in samples;
      }
    }
  }

  /** Samples are summarised exactly when there are at least two, they name the same services on one clock at strictly
      later times, and each service is one process whose counters never fall. */
  lemma AcceptedSamplesExactly(samples: seq<Sample>)
    ensures Acceptable(samples) <==>
      && |samples| >= 2 && samples[0].services != map[] && samples[0].clockTicks > 0
      && Coherent(samples) && SameProcesses(samples)
  {
    if samples != [] {
      CoherentExactly(samples);
      if SamplesFit(samples) { FitMeansNamed(samples); }
      if NamedEverywhere(samples) { NamedFitExactly(samples); }
    }
  }

  // ---- the figures -----------------------------------------------------------------------

  ghost predicate Largest(samples: seq<Sample>, name: string, of: Observation -> int, n: int) {
    && (forall s | s in samples && name in s.services :: of(s.services[name]) <= n)
    && exists s :: s in samples && name in s.services && of(s.services[name]) == n
  }

  /** n is the integer nearest to num / den, the even one of two. */
  predicate NearestTo(n: int, num: int, den: int) {
    var twice := 2 * (n * den - num);
    -den <= twice <= den && (twice == den || twice == -den ==> n % 2 == 0)
  }

  function RssBytes(): Observation -> int { (o: Observation) => o.rssBytes }
  function ThreadCount(): Observation -> int { (o: Observation) => o.threadCount }

  /** The largest of every sample. */
  ghost predicate RightPeaks(samples: seq<Sample>, name: string, s: Service) {
    Largest(samples, name, RssBytes(), s.rssPeak) && Largest(samples, name, ThreadCount(), s.threadPeak)
  }

  /** The levels at both ends, what the counters grew by, and the share of one core in millionths of a percent. */
  predicate RightEnds(first: Observation, last: Observation, clockTicks: int, durationNs: int, s: Service) {
    && s.pid == first.pid && s.rssStart == first.rssBytes && s.rssEnd == last.rssBytes
    && s.voluntary == last.voluntary - first.voluntary && s.involuntary == last.involuntary - first.involuntary
    && NearestTo(s.cpuMicroPercent, (last.cpuTicks - first.cpuTicks) * 100_000_000_000_000_000, clockTicks * durationNs)
  }

  /** The figures of one service. */
  ghost predicate RightFigures(samples: seq<Sample>, name: string, s: Service)
    requires |samples| >= 2
  {
    var start, end := samples[0], samples[|samples| - 1];
    && name in start.services && name in end.services && RightPeaks(samples, name, s)
    && RightEnds(start.services[name], end.services[name], start.clockTicks, end.capturedNs - start.capturedNs, s)
  }

  /** The figures of the whole report. */
  ghost predicate RightReport(samples: seq<Sample>, r: Report)
    requires |samples| >= 2
  {
    && r.schemaVersion == "dipole.performance.process-resources.v1" && r.sampleCount == |samples|
    && NearestTo(r.durationMicros, samples[|samples| - 1].capturedNs - samples[0].capturedNs, 1000)
    && r.services.Keys == samples[0].services.Keys
    && forall name | name in r.services :: RightFigures(samples, name, r.services[name])
  }

  lemma QuotientMeaning(x: real, num: int, den: int)
    requires den > 0 && x * den as real == num as real
    ensures NearestTo(RoundHalfEven(x), num, den)
  {
    var n := RoundHalfEven(x);
    RoundsToNearest(n, x);
    Distance(n, x, num, den);
    WithinHalf(n, n as real - x, 2 * (n * den - num), den);
  }

  lemma WithinHalf(n: int, d: real, twice: int, den: int)
    requires den > 0 && 2.0 * (d * den as real) == twice as real && -0.5 <= d <= 0.5
    requires d == 0.5 || d == -0.5 ==> n % 2 == 0
    ensures -den <= twice <= den && (twice == den || twice == -den ==> n % 2 == 0)
  {
    ScaleBounds(d, den as real, d * den as real, twice as real);
  }

  lemma ScaleBounds(d: real, den: real, e: real, twice: real)
    requires den > 0.0 && -0.5 <= d <= 0.5 && e == d * den && 2.0 * e == twice
    ensures -den <= twice <= den
    ensures twice == den ==> d == 0.5
    ensures twice == -den ==> d == -0.5
  {
    Product(0.5 - d, den);
    Product(d + 0.5, den);
    assert (0.5 - d) * den == 0.5 * den - e && (d + 0.5) * den == e + 0.5 * den;
  }

  lemma Product(a: real, b: real)
    requires a >= 0.0 && b > 0.0
    ensures a * b >= 0.0 && (a * b == 0.0 ==> a == 0.0)
  {}

  lemma Distance(n: int, x: real, num: int, den: int)
    requires x * den as real == num as real
    ensures 2.0 * ((n as real - x) * den as real) == (2 * (n * den - num)) as real
  {
    assert (n as real - x) * den as real == n as real * den as real - x * den as real;
    assert (n * den) as real == n as real * den as real;
  }

  /** The share is the nearest millionth of a percent to ticks / clock / seconds. */
  lemma PercentIsNearest(ticks: int, clockTicks: int, durationNs: int)
    requires clockTicks > 0 && durationNs > 0
    ensures NearestTo(CpuMicroPercent(ticks, clockTicks, durationNs), ticks * 100_000_000_000_000_000,
                      clockTicks * durationNs)
  {
    var x := (ticks as real / clockTicks as real) / (durationNs as real / 1000000000.0) * 100.0 * 1000000.0;
    var c, d, t := clockTicks as real, durationNs as real, ticks as real;
    assert x == (t / c) / (d / 1000000000.0) * 100.0 * 1000000.0;
    QuotientOfQuotients(t, c, d);
    assert (clockTicks * durationNs) as real == c * d;
    PositiveProduct(clockTicks, durationNs);
    QuotientMeaning(x, ticks * 100_000_000_000_000_000, clockTicks * durationNs);
  }

  lemma PositiveProduct(a: int, b: int)
    requires a > 0 && b > 0
    ensures a * b > 0
  {}

  lemma QuotientOfQuotients(t: real, c: real, d: real)
    requires c > 0.0 && d > 0.0
    ensures ((t / c) / (d / 1000000000.0) * 100.0 * 1000000.0) * (c * d) == t * 100000000000000000.0
  {
    var u, v := t / c, d / 1000000000.0;
    var w := u / v;
    assert u * c == t && v * 1000000000.0 == d && w * v == u;
    assert w * d * c == w * (v * 1000000000.0) * c == (w * v) * 1000000000.0 * c == (u * c) * 1000000000.0;
    assert (w * 100.0 * 1000000.0) * (c * d) == (w * d * c) * 100000000.0;
  }

  lemma PeakIsLargest(samples: seq<Sample>, name: string, of: Observation -> int, values: seq<int>, n: int)
    requires NamedEverywhere(samples) && name in samples[0].services
    requires |values| == |samples| && forall k | 0 <= k < |samples| :: values[k] == of(samples[k].services[name])
    requires IsPeak(values, n)
    ensures Largest(samples, name, of, n)
  {
    forall s | s in samples && name in s.services ensures of(s.services[name]) <= n {
      var k :| 0 <= k < |samples| && samples[k] == s;
      assert values[k] in values;
    }
    var k :| 0 <= k < |values| && values[k] == n;
    assert samples[k] in samples;
  }

  lemma PeaksAreRight(samples: seq<Sample>, name: string, s: Service)
    requires NamedEverywhere(samples) && name in samples[0].services
    requires IsPeak(Rss(ObservationsOf(samples, name)), s.rssPeak)
    requires IsPeak(Threads(ObservationsOf(samples, name)), s.threadPeak)
    ensures RightPeaks(samples, name, s)
  {
    var os := ObservationsOf(samples, name);
    PeakIsLargest(samples, name, RssBytes(), Rss(os), s.rssPeak);
    PeakIsLargest(samples, name, ThreadCount(), Threads(os), s.threadPeak);
  }

  lemma EndsAreRight(os: seq<Observation>, clockTicks: int, durationNs: int, s: Service)
    requires os != [] && clockTicks > 0 && durationNs > 0 && Summarises(os, clockTicks, durationNs, s)
    ensures RightEnds(os[0], os[|os| - 1], clockTicks, durationNs, s)
  {
    AccumulatedTelescopes(os, (o: Observation) => o.voluntary);
    AccumulatedTelescopes(os, (o: Observation) => o.involuntary);
    AccumulatedTelescopes(os, (o: Observation) => o.cpuTicks);
    PercentIsNearest(os[|os| - 1].cpuTicks - os[0].cpuTicks, clockTicks, durationNs);
  }

  lemma FiguresAreRight(samples: seq<Sample>, name: string, s: Service)
    requires NamedEverywhere(samples) && |samples| >= 2 && samples[0].clockTicks > 0 && DurationNs(samples) > 0
    requires SummaryTest(samples)(name, s)
    ensures RightFigures(samples, name, s)
  {
    PeaksAreRight(samples, name, s);
    EndsAreRight(ObservationsOf(samples, name), samples[0].clockTicks, DurationNs(samples), s);
  }

  lemma ReportIsRight(samples: seq<Sample>, r: Report)
    requires NamedEverywhere(samples) && |samples| >= 2 && samples[0].clockTicks > 0 && DurationNs(samples) > 0
    requires IsReport(samples, r)
    ensures RightReport(samples, r)
  {
    forall name | name in r.services ensures RightFigures(samples, name, r.services[name]) {
      FiguresAreRight(samples, name, r.services[name]);
    }
  }

  /** Every figure of a summary is the samples' own. */
  lemma SummaryIsRight(samples: seq<Sample>, r: Report)
    requires Acceptable(samples) && DurationNs(samples) > 0 && IsReport(samples, r)
    ensures RightReport(samples, r)
  {
    ReportIsRight(samples, r);
  }

  /** The summaries the baseline report takes: no negative figure, no peak below either end, two samples or more. */
  lemma TakenExactly(r: Report)
    ensures ValidReport(r) <==>
      && r.schemaVersion == "dipole.performance.process-resources.v1"
      && r.sampleCount > 1 && r.durationMicros > 0 && (exists name :: name in r.services)
      && forall name | name in r.services ::
        && var s := r.services[name];
        && name != "" && s.pid > 0 && s.rssPeak >= s.rssStart && s.rssPeak >= s.rssEnd
        && forall n | n in [s.cpuMicroPercent, s.rssStart, s.rssEnd, s.threadPeak, s.voluntary, s.involuntary] :: n >= 0
  {
    forall s: Service
      ensures (forall n | n in [s.cpuMicroPercent, s.rssStart, s.rssEnd, s.threadPeak, s.voluntary, s.involuntary] ::
                 n >= 0)
              <==> s.cpuMicroPercent >= 0 && s.rssStart >= 0 && s.rssEnd >= 0 && s.threadPeak >= 0 && s.voluntary >= 0
                   && s.involuntary >= 0
    {
      var ns := [s.cpuMicroPercent, s.rssStart, s.rssEnd, s.threadPeak, s.voluntary, s.involuntary];
      assert ns[0] in ns && ns[1] in ns && ns[2] in ns && ns[3] in ns && ns[4] in ns && ns[5] in ns;
    }
  }
}
