/** The decision of scripts/realtime_delivery_comparison.py: what is counted over the last attempts, which
    issues block a cutover, and that none of it depends on how the retries were interleaved. */
module DeliveryReport {
  import opened Sorting
  import opened Text
  import opened Wrappers
  import opened DeliveryComparison

  datatype Workload = Workload(
    attempted: int, accepted: int, rejected: int, persisted: int, received: int, expectedReceipts: int,
    messageType: int)

  datatype Baseline = Baseline(
    schemaVersion: string, runId: string, scenario: string, gitCommit: string, workload: Workload,
    deliveryRate: Option<real>, httpFailureRate: Option<real>, settledLag: Option<real>)

  datatype GoCount = Attempted | Accepted | Persisted | Received | ExpectedReceipts

  datatype Issue =
    | AcceptedDiffersFromRecords | NotAllProjected | NoTransportRequested | ObservedDiffers | BackpressureOrRejection
    | PresenceDirty | OfflineItems | GoCountDiffers(count: GoCount) | GoRejected | DeliveryIncomplete | LagUnsettled

  datatype Comparison = Comparison(
    observedRecords: nat, filteredOut: int, uniqueRecords: nat, deferredAttempts: int, finalProjected: int,
    requested: int, observed: int, duplicate: int, rejected: int, backpressured: int)

  datatype Report = Report(
    eligible: bool, issues: seq<Issue>, runId: string, goRevision: string, cppRevision: string,
    workload: Workload, comparison: Comparison)

  const BASELINE_SCHEMA := "dipole.performance.baseline.v4"
  const SCENARIOS: set<string> := {"direct", "direct_msg", "concurrent"}
  const GO_COUNTS := [Attempted, Accepted, Persisted, Received, ExpectedReceipts]

  function Lower(c: char): char { if 'A' <= c <= 'Z' then c + ('a' - 'A') else c }

  /** A revision, stripped and lower-cased, if it is a full Git SHA-1. No other character lower-cases to a digit or
      to one of these letters. */
  function RevisionOf(value: string): Option<string> {
    var revision := Map(Lower, TrimBy(value, IsPythonSpace));
    if |revision| == 40 && forall c | c in revision :: '0' <= c <= '9' || 'a' <= c <= 'f' then Some(revision) else None
  }

  predicate ValidBaseline(b: Baseline, goRevision: string) {
    var w := b.workload;
    && b.schemaVersion == BASELINE_SCHEMA
    && TrimBy(b.runId, IsPythonSpace) != "" && b.scenario in SCENARIOS && b.gitCommit == goRevision
    && w.attempted >= 0 && w.accepted >= 0 && w.rejected >= 0 && w.persisted >= 0 && w.received >= 0
    && w.expectedReceipts >= 0 && w.messageType >= 0
    && w.attempted == w.accepted + w.rejected
  }

  // ---- counting over last attempts -------------------------------------------------------

  type Group = seq<Evidence>

  /** The last attempt of a group satisfies p; no group is empty. */
  predicate LastIs(g: Group, p: Evidence -> bool) { g != [] && p(g[|g| - 1]) }

  function LastCount(f: Evidence -> nat): Group -> int {
    (g: Group) => if g == [] then 0 else f(g[|g| - 1])
  }

  /** Sums a count over the last attempts. */
  function Total(f: Evidence -> nat, attempts: seq<Group>): int { Sum(Map(LastCount(f), attempts)) }

  function CountIn(p: Evidence -> bool): Group -> int {
    (g: Group) => |Filter(p, g)|
  }

  function OfType(messageType: int): Group -> bool {
    (g: Group) => LastIs(g, (e: Evidence) => e.messageType == messageType)
  }

  function IsProjected(): Evidence -> bool { (e: Evidence) => e.outcome.Projected? }
  function IsDeferred(): Evidence -> bool { (e: Evidence) => e.outcome.Deferred? }
  function NothingRequested(): Evidence -> bool { (e: Evidence) => e.requested == 0 }
  function DirtyPresence(): Evidence -> bool { (e: Evidence) => e.malformed != 0 || e.stale != 0 }
  function LeftOffline(): Evidence -> bool { (e: Evidence) => e.offline != 0 }
  function OneIfProjected(): Evidence -> nat { (e: Evidence) => if e.outcome.Projected? then 1 else 0 }
  function Requested(): Evidence -> nat { (e: Evidence) => e.requested }
  function Observed(): Evidence -> nat { (e: Evidence) => e.observed }
  function Duplicate(): Evidence -> nat { (e: Evidence) => e.duplicate }
  function Rejected(): Evidence -> nat { (e: Evidence) => e.rejected }
  function Backpressured(): Evidence -> nat { (e: Evidence) => e.backpressured }

  predicate AllLast(attempts: seq<Group>, p: Evidence -> bool) { forall g | g in attempts :: LastIs(g, p) }

  predicate AnyLast(attempts: seq<Group>, p: Evidence -> bool) { exists g :: g in attempts && LastIs(g, p) }

  function CountOf(w: Workload, c: GoCount): int {
    match c
    case Attempted => w.attempted
    case Accepted => w.accepted
    case Persisted => w.persisted
    case Received => w.received
    case ExpectedReceipts => w.expectedReceipts
  }

  function Raised(condition: bool, issue: Issue): seq<Issue> { if condition then [issue] else [] }

  function CountIssues(w: Workload, counts: seq<GoCount>): seq<Issue> {
    if counts == [] then []
    else
      var last := |counts| - 1;
      CountIssues(w, counts[..last]) + Raised(CountOf(w, counts[last]) != w.accepted, GoCountDiffers(counts[last]))
  }

  function EvidenceIssues(w: Workload, attempts: seq<Group>): seq<Issue> {
    Raised(w.accepted != |attempts|, AcceptedDiffersFromRecords)
    + Raised(!AllLast(attempts, IsProjected()), NotAllProjected)
    + Raised(AnyLast(attempts, NothingRequested()), NoTransportRequested)
    + Raised(Total(Requested(), attempts) != Total(Observed(), attempts), ObservedDiffers)
    + Raised(Total(Backpressured(), attempts) != 0 || Total(Rejected(), attempts) != 0, BackpressureOrRejection)
    + Raised(AnyLast(attempts, DirtyPresence()), PresenceDirty)
    + Raised(AnyLast(attempts, LeftOffline()), OfflineItems)
  }

  function BaselineIssues(b: Baseline): seq<Issue> {
    CountIssues(b.workload, GO_COUNTS)
    + Raised(b.workload.rejected != 0, GoRejected)
    + Raised(b.deliveryRate != Some(1.0) || b.httpFailureRate != Some(0.0), DeliveryIncomplete)
    + Raised(b.settledLag != Some(0.0), LagUnsettled)
  }

  function IssuesOf(b: Baseline, attempts: seq<Group>): seq<Issue> {
    EvidenceIssues(b.workload, attempts) + BaselineIssues(b)
  }

  function ComparisonOf(groups: seq<Group>, attempts: seq<Group>): Comparison {
    Comparison(
      |groups|, |groups| - |attempts|, |attempts|,
      Sum(Map(CountIn(IsDeferred()), attempts)),
      Total(OneIfProjected(), attempts),
      Total(Requested(), attempts), Total(Observed(), attempts), Total(Duplicate(), attempts),
      Total(Rejected(), attempts), Total(Backpressured(), attempts))
  }

  function ReportOf(b: Baseline, goRevision: string, cppRevision: string, groups: seq<Group>): Report {
    var attempts := Filter(OfType(b.workload.messageType), groups);
    var issues := IssuesOf(b, attempts);
    Report(issues == [], issues, b.runId, goRevision, cppRevision, b.workload, ComparisonOf(groups, attempts))
  }

  method CollectCountIssues(w: Workload, counts: seq<GoCount>) returns (issues: seq<Issue>)
    ensures issues == CountIssues(w, counts)
  {
    issues := [];
    for i := 0 to |counts|
      invariant issues == CountIssues(w, counts[..i])
    {
      assert counts[..i + 1][..i] == counts[..i];
      if CountOf(w, counts[i]) != w.accepted {
        issues := issues + [GoCountDiffers(counts[i])];
      }
    }
    assert counts[..|counts|] == counts;
  }

  method BuildReport(b: Baseline, raws: seq<Option<RawRecord>>, goRevision: string, cppRevision: string)
      returns (r: Result<Report, Error>)
    ensures r.Ok? <==>
      && RevisionOf(goRevision).Some? && RevisionOf(cppRevision).Some?
      && ValidBaseline(b, RevisionOf(goRevision).value) && Acceptable(raws)
    ensures r == Err(BadRevision) <==> RevisionOf(goRevision).None? || RevisionOf(cppRevision).None?
    ensures r == Err(BadBaseline) <==>
      && RevisionOf(goRevision).Some? && RevisionOf(cppRevision).Some?
      && !ValidBaseline(b, RevisionOf(goRevision).value)
    ensures r.Err? && r.error != BadRevision && r.error != BadBaseline ==> RefusedFor(raws, r.error)
    ensures r.Ok? ==>
      var groups := Groups(Traverse(Decode, raws).value);
      r.value == ReportOf(b, RevisionOf(goRevision).value, RevisionOf(cppRevision).value, groups)
  {
    var go, cpp := RevisionOf(goRevision), RevisionOf(cppRevision);
    if go.None? || cpp.None? {
      return Err(BadRevision);
    }
    if !ValidBaseline(b, go.value) {
      return Err(BadBaseline);
    }
    var observed := GroupEvidence(raws);
    if observed.Err? {
      return Err(observed.error);
    }
    var attempts := Filter(OfType(b.workload.messageType), observed.value);
    var issues := EvidenceIssues(b.workload, attempts);
    var counts := CollectCountIssues(b.workload, GO_COUNTS);
    issues := issues + (counts + Raised(b.workload.rejected != 0, GoRejected)
      + Raised(b.deliveryRate != Some(1.0) || b.httpFailureRate != Some(0.0), DeliveryIncomplete)
      + Raised(b.settledLag != Some(0.0), LagUnsettled));
    return Ok(Report(issues == [], issues, b.runId, go.value, cpp.value, b.workload,
                     ComparisonOf(observed.value, attempts)));
  }

  // ---- the report ignores the interleaving -----------------------------------------------

  lemma TotalIgnoresOrder(f: Evidence -> nat, a: seq<Group>, b: seq<Group>)
    requires multiset(a) == multiset(b)
    ensures Total(f, a) == Total(f, b)
  {
    MapPermutation(LastCount(f), a, b);
    SumPermutation(Map(LastCount(f), a), Map(LastCount(f), b));
  }

  lemma EvidenceIssuesIgnoreOrder(w: Workload, a: seq<Group>, b: seq<Group>)
    requires multiset(a) == multiset(b)
    ensures EvidenceIssues(w, a) == EvidenceIssues(w, b)
  {
    assert |multiset(a)| == |multiset(b)|;
    SameMembers(a, b);
    TotalIgnoresOrder(Requested(), a, b);
    TotalIgnoresOrder(Observed(), a, b);
    TotalIgnoresOrder(Rejected(), a, b);
    TotalIgnoresOrder(Backpressured(), a, b);
  }

  lemma ComparisonIgnoresOrder(groups: seq<Group>, more: seq<Group>, a: seq<Group>, b: seq<Group>)
    requires multiset(groups) == multiset(more) && multiset(a) == multiset(b)
    ensures ComparisonOf(groups, a) == ComparisonOf(more, b)
  {
    assert |multiset(a)| == |multiset(b)| && |multiset(groups)| == |multiset(more)|;
    MapPermutation(CountIn(IsDeferred()), a, b);
    SumPermutation(Map(CountIn(IsDeferred()), a), Map(CountIn(IsDeferred()), b));
    TotalIgnoresOrder(OneIfProjected(), a, b);
    TotalIgnoresOrder(Requested(), a, b);
    TotalIgnoresOrder(Observed(), a, b);
    TotalIgnoresOrder(Duplicate(), a, b);
    TotalIgnoresOrder(Rejected(), a, b);
    TotalIgnoresOrder(Backpressured(), a, b);
  }

  /** Interleaving the attempts differently, each coordinate keeping its own order, changes no count, no issue
      and not the decision. */
  lemma ReportIgnoresInterleaving(
      b: Baseline, goRevision: string, cppRevision: string, es: seq<Evidence>, fs: seq<Evidence>)
    requires Reinterleaved(es, fs)
    ensures Consistent(es) <==> Consistent(fs)
    ensures ReportOf(b, goRevision, cppRevision, Groups(es)) == ReportOf(b, goRevision, cppRevision, Groups(fs))
  {
    ReinterleavedMembers(es, fs);
    GroupsIgnoreInterleaving(es, fs);
    var keep := OfType(b.workload.messageType);
    FilterPermutation(keep, Groups(es), Groups(fs));
    EvidenceIssuesIgnoreOrder(b.workload, Filter(keep, Groups(es)), Filter(keep, Groups(fs)));
    ComparisonIgnoresOrder(Groups(es), Groups(fs), Filter(keep, Groups(es)), Filter(keep, Groups(fs)));
  }

  /** The same of the raw records that the report is built from: a list in which each coordinate's records keep
      their order is accepted alike, and gives the same report. */
  lemma BuildIgnoresInterleaving(
      b: Baseline, goRevision: string, cppRevision: string, x: seq<Option<RawRecord>>, y: seq<Option<RawRecord>>)
    requires RecordsReinterleaved(x, y)
    ensures Acceptable(x) <==> Acceptable(y)
    ensures Acceptable(x) ==>
      ReportOf(b, goRevision, cppRevision, Groups(Traverse(Decode, x).value))
      == ReportOf(b, goRevision, cppRevision, Groups(Traverse(Decode, y).value))
  {
    AcceptanceIgnoresOrder(x, y);
    if Acceptable(x) {
      var es, fs := Traverse(Decode, x).value, Traverse(Decode, y).value;
      DecodedReinterleaved(x, y, es, fs);
      ReportIgnoresInterleaving(b, goRevision, cppRevision, es, fs);
    }
  }

  // ---- what eligibility means ------------------------------------------------------------

  lemma {:induction false} TotalAtLeast(f: Evidence -> nat, attempts: seq<Group>, low: nat)
    requires AllLast(attempts, (e: Evidence) => f(e) >= low)
    ensures Total(f, attempts) >= low * |attempts|
  {
    if attempts != [] {
      var rest := attempts[1..];
      assert attempts[0] in attempts;
      forall g | g in rest ensures LastIs(g, (e: Evidence) => f(e) >= low) { assert g in attempts; }
      TotalAtLeast(f, rest, low);
      assert Map(LastCount(f), attempts)[1..] == Map(LastCount(f), rest);
      assert low * |attempts| == low + low * |rest|;
    }
  }

  lemma {:induction false} TotalZero(f: Evidence -> nat, attempts: seq<Group>)
    ensures Total(f, attempts) >= 0
    ensures Total(f, attempts) == 0 <==> forall g | g in attempts :: LastCount(f)(g) == 0
  {
    if attempts != [] {
      var rest := attempts[1..];
      assert attempts == [attempts[0]] + rest;
      TotalZero(f, rest);
      assert Map(LastCount(f), attempts)[1..] == Map(LastCount(f), rest);
    }
  }

  lemma NoCountIssues(w: Workload)
    ensures CountIssues(w, GO_COUNTS) == [] <==>
      w.attempted == w.persisted == w.received == w.expectedReceipts == w.accepted
  {
    var c := GO_COUNTS;
    assert c[..4] == [Attempted, Accepted, Persisted, Received] && c[..4][..3] == c[..3] && c[..3][..2] == c[..2]
           && c[..2][..1] == c[..1] && c[..1][..0] == [];
    assert CountIssues(w, c[..1]) == Raised(w.attempted != w.accepted, GoCountDiffers(Attempted));
    assert CountIssues(w, c[..2]) == CountIssues(w, c[..1]);
    assert CountIssues(w, c[..3])
        == CountIssues(w, c[..2]) + Raised(w.persisted != w.accepted, GoCountDiffers(Persisted));
    assert CountIssues(w, c[..4])
        == CountIssues(w, c[..3]) + Raised(w.received != w.accepted, GoCountDiffers(Received));
  }

  /** The last attempt at the coordinate of a group ended clean: projected, with transport asked for, none of it
      refused or held back, no malformed or stale presence and nothing left for offline users. */
  predicate Clean(e: Evidence) {
    && e.outcome.Projected? && e.requested > 0 && e.backpressured == 0 && e.rejected == 0
    && e.malformed == 0 && e.stale == 0 && e.offline == 0
  }

  lemma NoEvidenceIssues(w: Workload, attempts: seq<Group>)
    requires forall g | g in attempts :: g != []
    ensures EvidenceIssues(w, attempts) == [] <==>
      && w.accepted == |attempts|
      && AllLast(attempts, Clean)
      && Total(Requested(), attempts) == Total(Observed(), attempts)
  {
    TotalZero(Backpressured(), attempts);
    TotalZero(Rejected(), attempts);
    if EvidenceIssues(w, attempts) == [] {
      forall g | g in attempts ensures LastIs(g, Clean) {
        var e := g[|g| - 1];
        assert LastCount(Backpressured())(g) == 0 && LastCount(Rejected())(g) == 0;
        assert LastIs(g, IsProjected());
        assert !LastIs(g, NothingRequested());
        assert !LastIs(g, DirtyPresence());
        assert !LastIs(g, LeftOffline());
      }
    }
  }

  /** The decision is "eligible" exactly when the Go counts all agree with no loss, and the Kafka records of the
      compared type are as many, every one of them clean in its last attempt, with as much transport observed
      as requested. */
  lemma EligibleExactly(b: Baseline, goRevision: string, cppRevision: string, es: seq<Evidence>)
    ensures var w := b.workload;
      var attempts := Filter(OfType(w.messageType), Groups(es));
      ReportOf(b, goRevision, cppRevision, Groups(es)).eligible <==>
        && w.attempted == w.persisted == w.received == w.expectedReceipts == w.accepted == |attempts|
        && w.rejected == 0 && b.deliveryRate == Some(1.0) && b.httpFailureRate == Some(0.0) && b.settledLag == Some(0.0)
        && AllLast(attempts, Clean)
        && Total(Requested(), attempts) == Total(Observed(), attempts)
  {
    var attempts := Filter(OfType(b.workload.messageType), Groups(es));
    GroupsPartitionTheRecords(es);
    forall g | g in attempts ensures g != [] {
      FilterMembers(OfType(b.workload.messageType), Groups(es), g);
    }
    NoEvidenceIssues(b.workload, attempts);
    NoCountIssues(b.workload);
  }

  /** An eligible run observed at least one node batch for every message the Go side accepted. */
  lemma EligibleRunsDelivered(b: Baseline, goRevision: string, cppRevision: string, es: seq<Evidence>)
    requires ReportOf(b, goRevision, cppRevision, Groups(es)).eligible
    ensures ReportOf(b, goRevision, cppRevision, Groups(es)).comparison.observed >= b.workload.accepted
  {
    var attempts := Filter(OfType(b.workload.messageType), Groups(es));
    EligibleExactly(b, goRevision, cppRevision, es);
    forall g | g in attempts ensures LastIs(g, (e: Evidence) => Requested()(e) >= 1) {
      assert LastIs(g, Clean);
    }
    TotalAtLeast(Requested(), attempts, 1);
  }
}
