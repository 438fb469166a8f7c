/** What the report of the realtime comparison (scripts/realtime_delivery_comparison.py) says of the records
    it was given: every number, every issue and the decision, in terms of the last record of each Kafka
    coordinate. */
module DeliveryVerdict {
  import opened Sorting
  import opened Text
  import opened Wrappers
  import opened DeliveryComparison
  import opened DeliveryReport
  import opened DeliveryRecords

  // ---- the numbers of the report ---------------------------------------------------------

  function OfRawType(t: int): RawRecord -> bool { (r: RawRecord) => r.messageType == Int(t) }

  /** The last records of the compared message type. */
  ghost function Mine(raws: seq<Option<RawRecord>>, t: int): seq<RawRecord> { Filter(OfRawType(t), LastRecords(raws)) }

  function N(j: Json): int { if j.Int? then j.n else 0 }

  // The numbers of one record.
  function RequestedIn(): RawRecord -> int { (r: RawRecord) => N(r.requested) }
  function ObservedIn(): RawRecord -> int { (r: RawRecord) => N(r.observed) }
  function DuplicateIn(): RawRecord -> int { (r: RawRecord) => N(r.duplicate) }
  function RejectedIn(): RawRecord -> int { (r: RawRecord) => N(r.rejected) }
  function BackpressuredIn(): RawRecord -> int { (r: RawRecord) => N(r.backpressured) }
  function WasProjected(): RawRecord -> bool { (r: RawRecord) => r.outcome == Str("projected") }

  ghost predicate AtSome(mine: seq<RawRecord>, raw: RawRecord) { exists r :: r in mine && SameSpot(r, raw) }

  /** A deferred attempt at the coordinate of one of these records. */
  ghost predicate DeferredAt(mine: seq<RawRecord>, raw: Option<RawRecord>) {
    raw.Some? && raw.value.outcome == Str("deferred") && AtSome(mine, raw.value)
  }

  ghost function DeferredBefore(mine: seq<RawRecord>): Option<RawRecord> -> bool {
    (raw: Option<RawRecord>) => DeferredAt(mine, raw)
  }

  /** Every number of the comparison, over the records. */
  ghost predicate RightComparison(raws: seq<Option<RawRecord>>, t: int, c: Comparison) {
    var lasts, mine := LastRecords(raws), Mine(raws, t);
    && c.observedRecords == |lasts| && c.uniqueRecords == |mine| && c.filteredOut == |lasts| - |mine|
    && c.deferredAttempts == |Filter(DeferredBefore(mine), raws)|
    && c.finalProjected == |Filter(WasProjected(), mine)|
    && c.requested == Sum(Map(RequestedIn(), mine))
    && c.observed == Sum(Map(ObservedIn(), mine))
    && c.duplicate == Sum(Map(DuplicateIn(), mine))
    && c.rejected == Sum(Map(RejectedIn(), mine))
    && c.backpressured == Sum(Map(BackpressuredIn(), mine))
  }

  lemma {:induction false} MineAlike(rs: seq<RawRecord>, es: seq<Evidence>, t: int)
    requires LastsDecoded(rs, es)
    ensures LastsDecoded(Filter(OfRawType(t), rs), Filter(TypeE(t), es))
  {
    if rs != [] {
      var last := |rs| - 1;
      MineAlike(rs[..last], es[..last], t);
      assert Reading()(Some(rs[last]), es[last]);
    }
  }

  lemma SumsAlike(field: RawRecord -> int, f: Evidence -> nat, rs: seq<RawRecord>, es: seq<Evidence>)
    requires |rs| == |es| && forall k | 0 <= k < |rs| :: field(rs[k]) == f(es[k])
    ensures Sum(Map(field, rs)) == Sum(Map(CountE(f), es))
  {
    assert Map(field, rs) == Map(CountE(f), es);
  }

  lemma {:induction false} SizesAlike<A, B>(keepA: A -> bool, keepB: B -> bool, a: seq<A>, b: seq<B>)
    requires |a| == |b| && forall k | 0 <= k < |a| :: keepA(a[k]) == keepB(b[k])
    ensures |Filter(keepA, a)| == |Filter(keepB, b)|
  {
    if a != [] {
      var last := |a| - 1;
      SizesAlike(keepA, keepB, a[..last], b[..last]);
    }
  }

  lemma {:induction false} SumOfProjected(s: seq<Evidence>)
    ensures Sum(Map(CountE(OneIfProjected()), s)) == |Filter(IsProjected(), s)|
  {
    if s != [] {
      assert s == [s[0]] + s[1..] && [s[0]][..0] == [];
      SumOfProjected(s[1..]);
      assert Map(CountE(OneIfProjected()), s)[1..] == Map(CountE(OneIfProjected()), s[1..]);
      FilterAppend(IsProjected(), [s[0]], s[1..]);
    }
  }

  lemma TotalIsSum(
      field: RawRecord -> int, f: Evidence -> nat, rs: seq<RawRecord>, es: seq<Evidence>, t: int)
    requires LastsDecoded(rs, Filter(TypeE(t), LastAttempts(es)))
    requires forall r, e | Reading()(Some(r), e) :: field(r) == f(e)
    ensures Total(f, Attempts(es, t)) == Sum(Map(field, rs))
  {
    TotalOverLasts(f, es, t);
    SumsAlike(field, f, rs, Filter(TypeE(t), LastAttempts(es)));
  }

  /** What grouping guarantees of the decoded attempts. */
  lemma AcceptedAreDecoded(raws: seq<Option<RawRecord>>) returns (es: seq<Evidence>)
    requires Acceptable(raws)
    ensures Traverse(Decode, raws) == Ok(es) && AllDecoded(raws, es)
  {
    es := Traverse(Decode, raws).value;
    TraverseOk(Decode, raws, es);
    forall k | 0 <= k < |raws| ensures raws[k].Some? && Reading()(raws[k], es[k]) { DecodesItsFields(raws[k]); }
  }

  lemma MineIsDecoded(raws: seq<Option<RawRecord>>, es: seq<Evidence>, t: int)
    requires AllDecoded(raws, es)
    ensures LastsDecoded(LastRecords(raws), LastAttempts(es))
    ensures LastsDecoded(Mine(raws, t), Filter(TypeE(t), LastAttempts(es)))
  {
    LastsAlike(raws, es);
    MineAlike(LastRecords(raws), LastAttempts(es), t);
  }

  lemma DeferredAreRight(raws: seq<Option<RawRecord>>, es: seq<Evidence>, t: int)
    requires AllDecoded(raws, es)
    ensures Sum(Map(CountIn(IsDeferred()), Attempts(es, t))) == |Filter(DeferredBefore(Mine(raws, t)), raws)|
  {
    var mine, mineE := Mine(raws, t), Filter(TypeE(t), LastAttempts(es));
    DeferredOverAll(es, t);
    MineIsDecoded(raws, es, t);
    forall k | 0 <= k < |raws|
      ensures DeferredBefore(mine)(raws[k]) == Within(IsDeferred(), TypedSpots(es, t))(es[k])
    {
      DeferredAlike(mine, mineE, raws[k], es[k]);
      TypedSpotsExactly(es, t, es[k].coordinate);
    }
    SizesAlike(DeferredBefore(mine), Within(IsDeferred(), TypedSpots(es, t)), raws, es);
  }

  lemma OutcomesAlike(r: RawRecord, e: Evidence)
    requires Decodes(Some(r), e)
    ensures r.outcome == Str("projected") <==> e.outcome.Projected?
    ensures r.outcome == Str("deferred") <==> e.outcome.Deferred?
  {
    var p, d, x := "projected", "deferred", "rejected";
    assert p[0] != d[0] && p[0] != x[0] && d[0] != x[0];
  }

  lemma SpotsAlike(mine: seq<RawRecord>, mineE: seq<Evidence>, r: RawRecord, e: Evidence)
    requires LastsDecoded(mine, mineE) && Decodes(Some(r), e)
    ensures AtSome(mine, r) <==> exists l :: l in mineE && l.coordinate == e.coordinate
  {
    forall k | 0 <= k < |mine| ensures SameSpot(mine[k], r) <==> mineE[k].coordinate == e.coordinate {
      assert Reading()(Some(mine[k]), mineE[k]);
      FitsAgree(Some(mine[k]), Some(r), mineE[k], e);
    }
    if AtSome(mine, r) {
      var k :| 0 <= k < |mine| && SameSpot(mine[k], r);
      assert mineE[k] in mineE;
    }
    if l :| l in mineE && l.coordinate == e.coordinate {
      var k :| 0 <= k < |mineE| && mineE[k] == l;
      assert mine[k] in mine;
    }
  }

  lemma DeferredAlike(mine: seq<RawRecord>, mineE: seq<Evidence>, raw: Option<RawRecord>, e: Evidence)
    requires LastsDecoded(mine, mineE) && raw.Some? && Reading()(raw, e)
    ensures DeferredAt(mine, raw) <==> e.outcome.Deferred? && exists l :: l in mineE && l.coordinate == e.coordinate
  {
    assert raw == Some(raw.value);
    OutcomesAlike(raw.value, e);
    SpotsAlike(mine, mineE, raw.value, e);
  }

  lemma ProjectedAreRight(rs: seq<RawRecord>, es: seq<Evidence>, t: int)
    requires LastsDecoded(rs, Filter(TypeE(t), LastAttempts(es)))
    ensures Total(OneIfProjected(), Attempts(es, t)) == |Filter(WasProjected(), rs)|
  {
    var mine := Filter(TypeE(t), LastAttempts(es));
    TotalOverLasts(OneIfProjected(), es, t);
    SumOfProjected(mine);
    forall k | 0 <= k < |rs| ensures WasProjected()(rs[k]) == IsProjected()(mine[k]) {
      assert Reading()(Some(rs[k]), mine[k]);
      OutcomesAlike(rs[k], mine[k]);
    }
    SizesAlike(WasProjected(), IsProjected(), rs, mine);
  }

  lemma FieldsAlike(r: RawRecord, e: Evidence)
    requires Reading()(Some(r), e)
    ensures RequestedIn()(r) == Requested()(e) && ObservedIn()(r) == Observed()(e)
    ensures DuplicateIn()(r) == Duplicate()(e) && RejectedIn()(r) == Rejected()(e)
    ensures BackpressuredIn()(r) == Backpressured()(e)
  {}

  /** Every number of the comparison is the sum of the record field it is named after, over the last records of the
      compared type, or counts records. */
  lemma NumbersAreRight(raws: seq<Option<RawRecord>>, t: int)
    requires Acceptable(raws)
    ensures var groups := Groups(Traverse(Decode, raws).value);
      RightComparison(raws, t, ComparisonOf(groups, Filter(OfType(t), groups)))
  {
    var es := AcceptedAreDecoded(raws);
    MineIsDecoded(raws, es, t);
    SizeOverLasts(es, t);
    DeferredAreRight(raws, es, t);
    ProjectedAreRight(Mine(raws, t), es, t);
    SumsAreRight(Mine(raws, t), es, t);
  }

  lemma SumsAreRight(mine: seq<RawRecord>, es: seq<Evidence>, t: int)
    requires LastsDecoded(mine, Filter(TypeE(t), LastAttempts(es)))
    ensures Total(Requested(), Attempts(es, t)) == Sum(Map(RequestedIn(), mine))
    ensures Total(Observed(), Attempts(es, t)) == Sum(Map(ObservedIn(), mine))
    ensures Total(Duplicate(), Attempts(es, t)) == Sum(Map(DuplicateIn(), mine))
    ensures Total(Rejected(), Attempts(es, t)) == Sum(Map(RejectedIn(), mine))
    ensures Total(Backpressured(), Attempts(es, t)) == Sum(Map(BackpressuredIn(), mine))
  {
    forall r, e | Reading()(Some(r), e)
      ensures RequestedIn()(r) == Requested()(e) && ObservedIn()(r) == Observed()(e)
      ensures DuplicateIn()(r) == Duplicate()(e) && RejectedIn()(r) == Rejected()(e)
      ensures BackpressuredIn()(r) == Backpressured()(e)
    {
      FieldsAlike(r, e);
    }
    TotalIsSum(RequestedIn(), Requested(), mine, es, t);
    TotalIsSum(ObservedIn(), Observed(), mine, es, t);
    TotalIsSum(DuplicateIn(), Duplicate(), mine, es, t);
    TotalIsSum(RejectedIn(), Rejected(), mine, es, t);
    TotalIsSum(BackpressuredIn(), Backpressured(), mine, es, t);
  }

  // ---- the issues of the report ----------------------------------------------------------

  /** What each issue says. */
  ghost predicate Raises(b: Baseline, mine: seq<RawRecord>, issue: Issue) {
    var w := b.workload;
    match issue
    case AcceptedDiffersFromRecords => w.accepted != |mine|
    case NotAllProjected => exists r :: r in mine && r.outcome != Str("projected")
    case NoTransportRequested => exists r :: r in mine && N(r.requested) == 0
    case ObservedDiffers =>
      Sum(Map(RequestedIn(), mine)) != Sum(Map(ObservedIn(), mine))
    case BackpressureOrRejection => exists r :: r in mine && (N(r.backpressured) > 0 || N(r.rejected) > 0)
    case PresenceDirty => exists r :: r in mine && (N(r.malformed) > 0 || N(r.stale) > 0)
    case OfflineItems => exists r :: r in mine && N(r.offline) > 0
    case GoCountDiffers(Attempted) => w.attempted != w.accepted
    case GoCountDiffers(Accepted) => false
    case GoCountDiffers(Persisted) => w.persisted != w.accepted
    case GoCountDiffers(Received) => w.received != w.accepted
    case GoCountDiffers(ExpectedReceipts) => w.expectedReceipts != w.accepted
    case GoRejected => w.rejected != 0
    case DeliveryIncomplete => b.deliveryRate != Some(1.0) || b.httpFailureRate != Some(0.0)
    case LagUnsettled => b.settledLag != Some(0.0)
  }

  lemma CountIssuesAre(w: Workload)
    ensures CountIssues(w, GO_COUNTS) ==
      Raised(w.attempted != w.accepted, GoCountDiffers(Attempted))
      + Raised(w.persisted != w.accepted, GoCountDiffers(Persisted))
      + Raised(w.received != w.accepted, GoCountDiffers(Received))
      + Raised(w.expectedReceipts != w.accepted, GoCountDiffers(ExpectedReceipts))
  {
    var c := GO_COUNTS;
    assert c[..4] == [Attempted, Accepted, Persisted, Received] && c[..4][..3] == c[..3] && c[..3][..2] == c[..2]
           && c[..2][..1] == c[..1] && c[..1][..0] == [];
    assert CountIssues(w, c[..1]) == Raised(w.attempted != w.accepted, GoCountDiffers(Attempted));
    assert CountIssues(w, c[..2]) == CountIssues(w, c[..1]);
    assert CountIssues(w, c[..3])
        == CountIssues(w, c[..2]) + Raised(w.persisted != w.accepted, GoCountDiffers(Persisted));
    assert CountIssues(w, c[..4])
        == CountIssues(w, c[..3]) + Raised(w.received != w.accepted, GoCountDiffers(Received));
  }

  lemma AllIsRaw(rs: seq<RawRecord>, es: seq<Evidence>, field: RawRecord -> bool, p: Evidence -> bool)
    requires LastsDecoded(rs, es) && forall r, e | Reading()(Some(r), e) :: field(r) == p(e)
    ensures (exists e :: e in es && p(e)) <==> exists r :: r in rs && field(r)
  {
    if e :| e in es && p(e) {
      var k :| 0 <= k < |es| && es[k] == e;
      assert rs[k] in rs;
    }
    if r :| r in rs && field(r) {
      var k :| 0 <= k < |rs| && rs[k] == r;
      assert es[k] in es;
    }
  }

  /** One issue over the last attempts, as one over the records. */
  lemma AnyIsRaw(
      rs: seq<RawRecord>, es: seq<Evidence>, t: int, field: RawRecord -> bool, p: Evidence -> bool)
    requires LastsDecoded(rs, Filter(TypeE(t), LastAttempts(es)))
    requires forall r, e | Reading()(Some(r), e) :: field(r) == p(e)
    ensures AnyLast(Attempts(es, t), p) <==> exists r :: r in rs && field(r)
    ensures AllLast(Attempts(es, t), p) <==> forall r | r in rs :: field(r)
  {
    var mine := Filter(TypeE(t), LastAttempts(es));
    AllOverLasts(p, es, t);
    AllIsRaw(rs, mine, field, p);
    AllIsRaw(rs, mine, (r: RawRecord) => !field(r), (e: Evidence) => !p(e));
    if !AllLast(Attempts(es, t), p) {
      var e :| e in mine && !p(e);
      assert ((x: Evidence) => !p(x))(e);
    }
  }

  lemma {:induction false} SumPositive(field: RawRecord -> int, rs: seq<RawRecord>)
    requires forall r | r in rs :: field(r) >= 0
    ensures Sum(Map(field, rs)) >= 0
    ensures Sum(Map(field, rs)) != 0 <==> exists r :: r in rs && field(r) > 0
  {
    if rs != [] {
      assert rs == [rs[0]] + rs[1..] && rs[0] in rs;
      SumPositive(field, rs[1..]);
      assert Map(field, rs)[1..] == Map(field, rs[1..]);
    }
  }

  lemma EvidenceIssuesAre(b: Baseline, es: seq<Evidence>, mine: seq<RawRecord>)
    requires LastsDecoded(mine, Filter(TypeE(b.workload.messageType), LastAttempts(es)))
    ensures EvidenceIssues(b.workload, Attempts(es, b.workload.messageType)) ==
      Raised(Raises(b, mine, AcceptedDiffersFromRecords), AcceptedDiffersFromRecords)
      + Raised(Raises(b, mine, NotAllProjected), NotAllProjected)
      + Raised(Raises(b, mine, NoTransportRequested), NoTransportRequested)
      + Raised(Raises(b, mine, ObservedDiffers), ObservedDiffers)
      + Raised(Raises(b, mine, BackpressureOrRejection), BackpressureOrRejection)
      + Raised(Raises(b, mine, PresenceDirty), PresenceDirty)
      + Raised(Raises(b, mine, OfflineItems), OfflineItems)
  {
    CountsDiffer(b, es, mine);
    NotProjectedIs(b, es, mine);
    NothingRequestedIs(b, es, mine);
    HeldBackIs(b, es, mine);
    PresenceIs(b, es, mine);
    OfflineIs(b, es, mine);
  }

  lemma CountsDiffer(b: Baseline, es: seq<Evidence>, mine: seq<RawRecord>)
    requires LastsDecoded(mine, Filter(TypeE(b.workload.messageType), LastAttempts(es)))
    ensures var attempts := Attempts(es, b.workload.messageType);
      && (Raises(b, mine, AcceptedDiffersFromRecords) <==> b.workload.accepted != |attempts|)
      && (Raises(b, mine, ObservedDiffers) <==> Total(Requested(), attempts) != Total(Observed(), attempts))
  {
    SizeOverLasts(es, b.workload.messageType);
    SumsAreRight(mine, es, b.workload.messageType);
  }

  lemma NotProjectedIs(b: Baseline, es: seq<Evidence>, mine: seq<RawRecord>)
    requires LastsDecoded(mine, Filter(TypeE(b.workload.messageType), LastAttempts(es)))
    ensures Raises(b, mine, NotAllProjected) <==> !AllLast(Attempts(es, b.workload.messageType), IsProjected())
  {
    forall r, e | Reading()(Some(r), e) ensures WasProjected()(r) == IsProjected()(e) { OutcomesAlike(r, e); }
    AnyIsRaw(mine, es, b.workload.messageType, WasProjected(), IsProjected());
    assert (exists r :: r in mine && r.outcome != Str("projected")) <==> exists r :: r in mine && !WasProjected()(r);
  }

  function AskedNothing(): RawRecord -> bool { (r: RawRecord) => N(r.requested) == 0 }
  function SawDirtyPresence(): RawRecord -> bool { (r: RawRecord) => N(r.malformed) > 0 || N(r.stale) > 0 }
  function HadOffline(): RawRecord -> bool { (r: RawRecord) => N(r.offline) > 0 }

  lemma ConditionsAlike(r: RawRecord, e: Evidence)
    requires Reading()(Some(r), e)
    ensures AskedNothing()(r) == NothingRequested()(e)
    ensures SawDirtyPresence()(r) == DirtyPresence()(e) && HadOffline()(r) == LeftOffline()(e)
  {}

  lemma NothingRequestedIs(b: Baseline, es: seq<Evidence>, mine: seq<RawRecord>)
    requires LastsDecoded(mine, Filter(TypeE(b.workload.messageType), LastAttempts(es)))
    ensures Raises(b, mine, NoTransportRequested) <==>
      AnyLast(Attempts(es, b.workload.messageType), NothingRequested())
  {
    forall r, e | Reading()(Some(r), e) ensures AskedNothing()(r) == NothingRequested()(e) { ConditionsAlike(r, e); }
    AnyIsRaw(mine, es, b.workload.messageType, AskedNothing(), NothingRequested());
    assert (exists r :: r in mine && N(r.requested) == 0) <==> exists r :: r in mine && AskedNothing()(r);
  }

  lemma PresenceIs(b: Baseline, es: seq<Evidence>, mine: seq<RawRecord>)
    requires LastsDecoded(mine, Filter(TypeE(b.workload.messageType), LastAttempts(es)))
    ensures Raises(b, mine, PresenceDirty) <==> AnyLast(Attempts(es, b.workload.messageType), DirtyPresence())
  {
    forall r, e | Reading()(Some(r), e) ensures SawDirtyPresence()(r) == DirtyPresence()(e) { ConditionsAlike(r, e); }
    AnyIsRaw(mine, es, b.workload.messageType, SawDirtyPresence(), DirtyPresence());
    DirtyIs(b, mine);
  }

  lemma DirtyIs(b: Baseline, mine: seq<RawRecord>)
    ensures Raises(b, mine, PresenceDirty) <==> exists r :: r in mine && SawDirtyPresence()(r)
  {
    if r :| r in mine && SawDirtyPresence()(r) { assert N(r.malformed) > 0 || N(r.stale) > 0; }
    if r :| r in mine && (N(r.malformed) > 0 || N(r.stale) > 0) { assert SawDirtyPresence()(r); }
  }

  lemma OfflineIs(b: Baseline, es: seq<Evidence>, mine: seq<RawRecord>)
    requires LastsDecoded(mine, Filter(TypeE(b.workload.messageType), LastAttempts(es)))
    ensures Raises(b, mine, OfflineItems) <==> AnyLast(Attempts(es, b.workload.messageType), LeftOffline())
  {
    forall r, e | Reading()(Some(r), e) ensures HadOffline()(r) == LeftOffline()(e) { ConditionsAlike(r, e); }
    AnyIsRaw(mine, es, b.workload.messageType, HadOffline(), LeftOffline());
    assert Raises(b, mine, OfflineItems) <==> exists r :: r in mine && HadOffline()(r);
  }

  lemma HeldBackIs(b: Baseline, es: seq<Evidence>, mine: seq<RawRecord>)
    requires LastsDecoded(mine, Filter(TypeE(b.workload.messageType), LastAttempts(es)))
    ensures Raises(b, mine, BackpressureOrRejection) <==>
      || Total(Backpressured(), Attempts(es, b.workload.messageType)) != 0
      || Total(Rejected(), Attempts(es, b.workload.messageType)) != 0
  {
    SumsAreRight(mine, es, b.workload.messageType);
    CountsAreNatural(mine, Filter(TypeE(b.workload.messageType), LastAttempts(es)));
    HeldBackSums(b, mine);
  }

  lemma HeldBackSums(b: Baseline, mine: seq<RawRecord>)
    requires forall r | r in mine :: BackpressuredIn()(r) >= 0 && RejectedIn()(r) >= 0
    ensures Raises(b, mine, BackpressureOrRejection) <==>
      Sum(Map(BackpressuredIn(), mine)) != 0 || Sum(Map(RejectedIn(), mine)) != 0
  {
    SumPositive(BackpressuredIn(), mine);
    SumPositive(RejectedIn(), mine);
    if r :| r in mine && (N(r.backpressured) > 0 || N(r.rejected) > 0) {
      assert BackpressuredIn()(r) > 0 || RejectedIn()(r) > 0;
    }
    if r :| r in mine && BackpressuredIn()(r) > 0 { assert N(r.backpressured) > 0; }
    if r :| r in mine && RejectedIn()(r) > 0 { assert N(r.rejected) > 0; }
  }

  lemma CountsAreNatural(mine: seq<RawRecord>, es: seq<Evidence>)
    requires LastsDecoded(mine, es)
    ensures forall r | r in mine :: BackpressuredIn()(r) >= 0 && RejectedIn()(r) >= 0
  {
    forall r | r in mine ensures BackpressuredIn()(r) >= 0 && RejectedIn()(r) >= 0 {
      var k :| 0 <= k < |mine| && mine[k] == r;
      FieldsAlike(mine[k], es[k]);
    }
  }

  /** Every issue there is, in the order they are looked for. */
  const RECORD_ISSUES := [
    AcceptedDiffersFromRecords, NotAllProjected, NoTransportRequested, ObservedDiffers, BackpressureOrRejection,
    PresenceDirty, OfflineItems]
  const GO_ISSUES := [
    GoCountDiffers(Attempted), GoCountDiffers(Persisted), GoCountDiffers(Received), GoCountDiffers(ExpectedReceipts),
    GoRejected, DeliveryIncomplete, LagUnsettled]

  ghost function RaisedBy(b: Baseline, mine: seq<RawRecord>): Issue -> bool {
    (issue: Issue) => Raises(b, mine, issue)
  }

  lemma FilterPrefix(p: Issue -> bool, s: seq<Issue>, k: nat)
    requires k < |s|
    ensures Filter(p, s[..k + 1]) == Filter(p, s[..k]) + Raised(p(s[k]), s[k])
  {
    assert s[..k + 1][..k] == s[..k];
  }

  lemma FilterOfThree(p: Issue -> bool, s: seq<Issue>)
    requires |s| >= 3
    ensures Filter(p, s[..3]) == Raised(p(s[0]), s[0]) + Raised(p(s[1]), s[1]) + Raised(p(s[2]), s[2])
  {
    FilterPrefix(p, s, 0);
    FilterPrefix(p, s, 1);
    FilterPrefix(p, s, 2);
    assert s[..0] == [] && [] + Raised(p(s[0]), s[0]) == Raised(p(s[0]), s[0]);
  }

  lemma FilterTwoMore(p: Issue -> bool, s: seq<Issue>, k: nat)
    requires k + 2 <= |s|
    ensures Filter(p, s[..k + 2]) == Filter(p, s[..k]) + Raised(p(s[k]), s[k]) + Raised(p(s[k + 1]), s[k + 1])
  {
    FilterPrefix(p, s, k);
    FilterPrefix(p, s, k + 1);
  }

  lemma FilterOfSeven(p: Issue -> bool, s: seq<Issue>)
    requires |s| == 7
    ensures Filter(p, s) ==
      Raised(p(s[0]), s[0]) + Raised(p(s[1]), s[1]) + Raised(p(s[2]), s[2]) + Raised(p(s[3]), s[3])
      + Raised(p(s[4]), s[4]) + Raised(p(s[5]), s[5]) + Raised(p(s[6]), s[6])
  {
    FilterOfThree(p, s);
    FilterTwoMore(p, s, 3);
    FilterTwoMore(p, s, 5);
    assert s[..7] == s;
  }

  /** Every issue raised by the records, in order. */
  lemma EvidenceIssuesAreRaised(b: Baseline, es: seq<Evidence>, mine: seq<RawRecord>)
    requires LastsDecoded(mine, Filter(TypeE(b.workload.messageType), LastAttempts(es)))
    ensures EvidenceIssues(b.workload, Attempts(es, b.workload.messageType)) == Filter(RaisedBy(b, mine), RECORD_ISSUES)
  {
    EvidenceIssuesAre(b, es, mine);
    FilterOfSeven(RaisedBy(b, mine), RECORD_ISSUES);
  }

  /** Every issue raised by the Go side, in order. */
  lemma BaselineIssuesAre(b: Baseline, mine: seq<RawRecord>)
    ensures BaselineIssues(b) == Filter(RaisedBy(b, mine), GO_ISSUES)
  {
    CountIssuesAre(b.workload);
    FilterOfSeven(RaisedBy(b, mine), GO_ISSUES);
  }

  lemma AllIssuesAreRaised(b: Baseline, es: seq<Evidence>, mine: seq<RawRecord>)
    requires LastsDecoded(mine, Filter(TypeE(b.workload.messageType), LastAttempts(es)))
    ensures IssuesOf(b, Attempts(es, b.workload.messageType))
         == Filter(RaisedBy(b, mine), RECORD_ISSUES + GO_ISSUES)
  {
    EvidenceIssuesAreRaised(b, es, mine);
    BaselineIssuesAre(b, mine);
    FilterAppend(RaisedBy(b, mine), RECORD_ISSUES, GO_ISSUES);
  }

  /** The issues of the report are those that hold of the records, in order. */
  lemma IssuesAreRaised(b: Baseline, raws: seq<Option<RawRecord>>)
    requires Acceptable(raws)
    ensures var t := b.workload.messageType;
      IssuesOf(b, Filter(OfType(t), Groups(Traverse(Decode, raws).value)))
      == Filter(RaisedBy(b, Mine(raws, t)), RECORD_ISSUES + GO_ISSUES)
  {
    var es := AcceptedAreDecoded(raws);
    MineIsDecoded(raws, es, b.workload.messageType);
    AllIssuesAreRaised(b, es, Mine(raws, b.workload.messageType));
  }

  // ---- the report ------------------------------------------------------------------------

  /** The report in terms of the records. */
  ghost predicate RightReport(b: Baseline, raws: seq<Option<RawRecord>>, go: string, cpp: string, report: Report) {
    && report.issues == Filter(RaisedBy(b, Mine(raws, b.workload.messageType)), RECORD_ISSUES + GO_ISSUES)
    && (report.eligible <==> report.issues == [])
    && RightComparison(raws, b.workload.messageType, report.comparison)
    && report.runId == b.runId && report.workload == b.workload
    && report.goRevision == go && report.cppRevision == cpp
  }

  /** A report is right of the records it was built from: its numbers and its issues are theirs, whatever they are. */
  lemma ReportIsRight(b: Baseline, raws: seq<Option<RawRecord>>, go: string, cpp: string)
    requires Acceptable(raws)
    ensures RightReport(b, raws, go, cpp, ReportOf(b, go, cpp, Groups(Traverse(Decode, raws).value)))
  {
    IssuesAreRaised(b, raws);
    NumbersAreRight(raws, b.workload.messageType);
  }

  /** Projected, with transport asked for, and nothing refused, held back, malformed, stale or left offline. */
  predicate EndedClean(r: RawRecord) {
    && r.outcome == Str("projected") && N(r.requested) > 0
    && r.rejected == Int(0) && r.backpressured == Int(0)
    && r.malformed == Int(0) && r.stale == Int(0) && r.offline == Int(0)
  }

  ghost predicate CountsAgree(b: Baseline, n: nat) {
    && b.workload.attempted == b.workload.persisted == b.workload.received == b.workload.expectedReceipts
       == b.workload.accepted == n
    && b.workload.rejected == 0
    && b.deliveryRate == Some(1.0) && b.httpFailureRate == Some(0.0) && b.settledLag == Some(0.0)
  }

  lemma NothingRaised(b: Baseline, mine: seq<RawRecord>)
    ensures Filter(RaisedBy(b, mine), RECORD_ISSUES + GO_ISSUES) == [] <==> forall issue :: !Raises(b, mine, issue)
  {
    var p, all := RaisedBy(b, mine), RECORD_ISSUES + GO_ISSUES;
    forall issue ensures issue in Filter(p, all) <==> Raises(b, mine, issue) {
      FilterMembers(p, all, issue);
      EveryIssueIsListed(issue);
    }
    if Filter(p, all) != [] { assert Filter(p, all)[0] in Filter(p, all); }
  }

  predicate OfRecords(issue: Issue) {
    || issue.AcceptedDiffersFromRecords? || issue.NotAllProjected? || issue.NoTransportRequested?
    || issue.ObservedDiffers? || issue.BackpressureOrRejection? || issue.PresenceDirty? || issue.OfflineItems?
  }

  lemma RecordIssuesAre(issue: Issue)
    ensures issue in RECORD_ISSUES <==> OfRecords(issue)
  {
    var r := RECORD_ISSUES;
    assert r[0] in r && r[1] in r && r[2] in r && r[3] in r && r[4] in r && r[5] in r && r[6] in r;
  }

  lemma GoIssuesAre(issue: Issue)
    ensures issue in GO_ISSUES <==> !OfRecords(issue) && issue != GoCountDiffers(Accepted)
  {
    var g := GO_ISSUES;
    assert g[0] in g && g[1] in g && g[2] in g && g[3] in g && g[4] in g && g[5] in g && g[6] in g;
    match issue
    case GoCountDiffers(c) => assert issue in g <==> c != Accepted;
    case _ =>
  }

  lemma EveryIssueIsListed(issue: Issue)
    ensures issue in RECORD_ISSUES + GO_ISSUES <==> issue != GoCountDiffers(Accepted)
  {
    RecordIssuesAre(issue);
    GoIssuesAre(issue);
  }

  lemma CleanRaisesNothing(b: Baseline, mine: seq<RawRecord>)
    requires forall r | r in mine :: CountedRecord(r)
    ensures (forall issue :: !Raises(b, mine, issue)) <==>
      && CountsAgree(b, |mine|) && (forall r | r in mine :: EndedClean(r))
      && Sum(Map(RequestedIn(), mine)) == Sum(Map(ObservedIn(), mine))
  {
    if forall issue :: !Raises(b, mine, issue) {
      assert !Raises(b, mine, GoCountDiffers(Attempted)) && !Raises(b, mine, GoCountDiffers(Persisted));
      assert !Raises(b, mine, GoCountDiffers(Received)) && !Raises(b, mine, GoCountDiffers(ExpectedReceipts));
      assert !Raises(b, mine, GoRejected) && !Raises(b, mine, DeliveryIncomplete) && !Raises(b, mine, LagUnsettled);
      assert !Raises(b, mine, AcceptedDiffersFromRecords) && !Raises(b, mine, ObservedDiffers);
      forall r | r in mine ensures EndedClean(r) { CleanRecord(b, mine, r); }
    }
  }

  /** The counts of a well-formed record. */
  predicate CountedRecord(r: RawRecord) {
    && IsCount(r.requested) && IsCount(r.rejected) && IsCount(r.backpressured)
    && IsCount(r.malformed) && IsCount(r.stale) && IsCount(r.offline)
  }

  lemma CleanRecord(b: Baseline, mine: seq<RawRecord>, r: RawRecord)
    requires r in mine && CountedRecord(r)
    requires !Raises(b, mine, NotAllProjected) && !Raises(b, mine, NoTransportRequested)
    requires !Raises(b, mine, BackpressureOrRejection) && !Raises(b, mine, PresenceDirty)
    requires !Raises(b, mine, OfflineItems)
    ensures EndedClean(r)
  {}

  lemma {:induction false} LastsAreCounted(raws: seq<Option<RawRecord>>, t: int)
    requires Acceptable(raws)
    ensures forall r | r in Mine(raws, t) :: CountedRecord(r)
  {
    AcceptableExactly(raws);
    forall r | r in Mine(raws, t) ensures CountedRecord(r) {
      FilterMembers(OfRawType(t), LastRecords(raws), r);
      LastsAreRecords(raws, r);
      assert WellFormed(Some(r));
    }
  }

  lemma {:induction false} LastsAreRecords(raws: seq<Option<RawRecord>>, r: RawRecord)
    requires r in LastRecords(raws)
    ensures Some(r) in raws
  {
    assert raws == [raws[0]] + raws[1..];
    if r in LastRecords(raws[1..]) { LastsAreRecords(raws[1..], r); }
  }

  /** The decision over the records: eligible exactly when the Go side lost nothing and its messages are as many as
      the coordinates of the compared type, the last record of each ended clean, and as many node batches were
      observed as were requested. */
  lemma EligibleOverRecords(b: Baseline, raws: seq<Option<RawRecord>>, go: string, cpp: string)
    requires Acceptable(raws)
    ensures var mine := Mine(raws, b.workload.messageType);
      ReportOf(b, go, cpp, Groups(Traverse(Decode, raws).value)).eligible <==>
        && CountsAgree(b, |mine|) && (forall r | r in mine :: EndedClean(r))
        && Sum(Map(RequestedIn(), mine)) == Sum(Map(ObservedIn(), mine))
  {
    var mine := Mine(raws, b.workload.messageType);
    IssuesAreRaised(b, raws);
    NothingRaised(b, mine);
    LastsAreCounted(raws, b.workload.messageType);
    CleanRaisesNothing(b, mine);
  }

  /** One character of a revision and its lower case. */
  predicate SameHexDigit(c: char, lower: char) {
    lower in "0123456789abcdef" && (c == lower || (c in "ABCDEF" && c as int - 65 == lower as int - 97))
  }

  /** Forty hexadecimal digits in either case, with white space around them, and their lower case. */
  ghost predicate Spells(value: string, revision: string) {
    && |revision| == 40
    && exists left, core, right ::
         && value == left + core + right && AllOf(left, IsPythonSpace) && AllOf(right, IsPythonSpace)
         && |core| == 40 && forall k | 0 <= k < 40 :: SameHexDigit(core[k], revision[k])
  }

  lemma LowerHex(c: char, lower: char)
    ensures SameHexDigit(c, lower) <==> lower == Lower(c) && ('0' <= lower <= '9' || 'a' <= lower <= 'f')
  {}

  /** A revision is accepted exactly when it is spelled so, and is then its lower case. */
  lemma RevisionExactly(value: string, revision: string)
    ensures RevisionOf(value) == Some(revision) <==> Spells(value, revision)
  {
    if RevisionOf(value) == Some(revision) { RevisionIsSpelled(value, revision); }
    if Spells(value, revision) {
      var left, core, right :|
        && value == left + core + right && AllOf(left, IsPythonSpace) && AllOf(right, IsPythonSpace)
        && |core| == 40 && forall k | 0 <= k < 40 :: SameHexDigit(core[k], revision[k]);
      SpelledIsRevision(left, core, right, revision);
    }
  }

  lemma SpelledIsRevision(left: string, core: string, right: string, revision: string)
    requires |revision| == 40 && AllOf(left, IsPythonSpace) && AllOf(right, IsPythonSpace)
    requires |core| == 40 && forall k | 0 <= k < 40 :: SameHexDigit(core[k], revision[k])
    ensures RevisionOf(left + core + right) == Some(revision)
  {
    forall k | 0 <= k < 40
      ensures revision[k] == Lower(core[k]) && ('0' <= revision[k] <= '9' || 'a' <= revision[k] <= 'f')
    {
      LowerHex(core[k], revision[k]);
    }
    TrimByExactly(left, core, right, IsPythonSpace);
    assert Map(Lower, core) == revision;
  }

  lemma RevisionIsSpelled(value: string, revision: string)
    requires RevisionOf(value) == Some(revision)
    ensures Spells(value, revision)
  {
    var left, right := TrimByParts(value, IsPythonSpace);
    var core := TrimBy(value, IsPythonSpace);
    assert revision == Map(Lower, core);
    forall k | 0 <= k < 40 ensures SameHexDigit(core[k], revision[k]) {
      assert revision[k] in revision;
      LowerHex(core[k], revision[k]);
    }
  }

  /** The baselines that are compared: of this schema, a known scenario and the given revision, every message either
      accepted or rejected. */
  lemma BaselineExactly(b: Baseline, go: string)
    ensures ValidBaseline(b, go) <==>
      && b.schemaVersion == "dipole.performance.baseline.v4"
      && (exists c :: c in b.runId && !IsPythonSpace(c))
      && (b.scenario == "direct" || b.scenario == "direct_msg" || b.scenario == "concurrent")
      && b.gitCommit == go
      && (forall n | n in [b.workload.accepted, b.workload.rejected, b.workload.persisted, b.workload.received,
                           b.workload.expectedReceipts, b.workload.messageType] :: n >= 0)
      && b.workload.accepted + b.workload.rejected == b.workload.attempted
  {
    var w := b.workload;
    var ns := [w.accepted, w.rejected, w.persisted, w.received, w.expectedReceipts, w.messageType];
    assert ns[0] in ns && ns[1] in ns && ns[2] in ns && ns[3] in ns && ns[4] in ns && ns[5] in ns;
    NotBlank(b.runId);
  }
}
