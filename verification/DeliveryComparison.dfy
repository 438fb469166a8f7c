/** The Go and C++ realtime comparison (scripts/realtime_delivery_comparison.py): retry attempts grouped by
    Kafka coordinate, and the eligibility decision taken from the last attempt of each. */
module DeliveryComparison {
  import opened Sorting
  import opened Text
  import opened Wrappers

  /** A decoded JSON value; Null also stands for a missing key. */
  datatype Json = Null | Bool(b: bool) | Int(n: int) | Str(s: string) | OtherJson(text: string)

  datatype RawRecord = RawRecord(
    schemaVersion: Json, topic: Json, partition: Json, offset: Json, outcome: Json,
    requested: Json, observed: Json, duplicate: Json, rejected: Json, backpressured: Json,
    malformed: Json, stale: Json, offline: Json, eventId: Json, batchId: Json, messageType: Json)

  datatype Coordinate = Coordinate(topic: string, partition: nat, offset: nat)

  datatype Outcome = Projected | Deferred | RejectedOutcome

  datatype Evidence = Evidence(
    coordinate: Coordinate, outcome: Outcome, requested: nat, observed: nat, duplicate: nat, rejected: nat,
    backpressured: nat, malformed: nat, stale: nat, offline: nat, eventId: string, batchId: Json, messageType: nat)

  datatype RecordError = BadSchema | BadCoordinate | BadOutcome | BadCount | BadEvent | BadMessageType

  datatype Error =
    | NoRecords | BadRecord(index: nat, error: RecordError) | EventMoved | IdentityDrifted
    | BadRevision | BadBaseline

  const EVIDENCE_SCHEMA := "dipole.realtime.shadow-evidence.v3"

  predicate Natural(j: Json) { j.Int? && j.n >= 0 }

  function OutcomeOf(j: Json): Option<Outcome> {
    if j == Str("projected") then Some(Projected)
    else if j == Str("deferred") then Some(Deferred)
    else if j == Str("rejected") then Some(RejectedOutcome)
    else None
  }

  /** The checks on one record; None is a line that is no JSON object. */
  function Decode(raw: Option<RawRecord>): Result<Evidence, RecordError> {
    if raw.None? || raw.value.schemaVersion != Str(EVIDENCE_SCHEMA) then Err(BadSchema)
    else
      var r := raw.value;
      if !r.topic.Str? || r.topic.s == "" || !Natural(r.partition) || !Natural(r.offset) then Err(BadCoordinate)
      else if OutcomeOf(r.outcome).None? then Err(BadOutcome)
      else if !Natural(r.requested) || !Natural(r.observed) || !Natural(r.duplicate) || !Natural(r.rejected)
              || !Natural(r.backpressured) || !Natural(r.malformed) || !Natural(r.stale) || !Natural(r.offline)
      then Err(BadCount)
      else if !r.eventId.Str? || TrimBy(r.eventId.s, IsPythonSpace) == "" then Err(BadEvent)
      else if !Natural(r.messageType) then Err(BadMessageType)
      else
        Ok(Evidence(
             Coordinate(r.topic.s, r.partition.n, r.offset.n), OutcomeOf(r.outcome).value,
             r.requested.n, r.observed.n, r.duplicate.n, r.rejected.n, r.backpressured.n,
             r.malformed.n, r.stale.n, r.offline.n, r.eventId.s, r.batchId, r.messageType.n))
  }

  // ---- grouping --------------------------------------------------------------------------

  function At(c: Coordinate): Evidence -> bool { (e: Evidence) => e.coordinate == c }

  /** The attempts at one coordinate, in the order they were recorded. */
  function Of(es: seq<Evidence>): Coordinate -> seq<Evidence> {
    (c: Coordinate) => Filter(At(c), es)
  }

  /** The coordinates in the order they first appear, which is the order of the dictionary. */
  function FirstSeen(es: seq<Evidence>): seq<Coordinate> {
    if es == [] then []
    else
      var last := |es| - 1;
      var before := FirstSeen(es[..last]);
      if es[last].coordinate in before then before else before + [es[last].coordinate]
  }

  function Groups(es: seq<Evidence>): seq<seq<Evidence>> { Map(Of(es), FirstSeen(es)) }

  predicate Agree(a: Evidence, b: Evidence) {
    && (a.eventId == b.eventId ==> a.coordinate == b.coordinate)
    && (a.coordinate == b.coordinate ==> a.eventId == b.eventId && a.batchId == b.batchId)
  }

  /** Event ids and coordinates are in bijection, and a coordinate keeps its batch. */
  ghost predicate Consistent(es: seq<Evidence>) {
    forall a, b | a in es && b in es :: Agree(a, b)
  }

  ghost predicate Mentions(es: seq<Evidence>, id: string) { exists e :: e in es && e.eventId == id }

  /** The dictionary of groups, with its insertion order. */
  ghost predicate GroupsFit(es: seq<Evidence>, order: seq<Coordinate>, groups: map<Coordinate, seq<Evidence>>) {
    && order == FirstSeen(es)
    && (forall c :: c in groups <==> c in order)
    && (forall c | c in groups :: groups[c] == Of(es)(c))
  }

  /** The dictionary from events to coordinates. */
  ghost predicate EventsFit(es: seq<Evidence>, events: map<string, Coordinate>) {
    && (forall id | id in events :: Mentions(es, id))
    && (forall e | e in es :: e.eventId in events && events[e.eventId] == e.coordinate)
  }

  lemma OfAppend(es: seq<Evidence>, e: Evidence, c: Coordinate)
    ensures Of(es + [e])(c) == Of(es)(c) + if e.coordinate == c then [e] else []
  {
    assert (es + [e])[..|es|] == es;
  }

  lemma FirstSeenAppend(es: seq<Evidence>, e: Evidence)
    ensures FirstSeen(es + [e]) == FirstSeen(es) + if e.coordinate in FirstSeen(es) then [] else [e.coordinate]
  {
    assert (es + [e])[..|es|] == es;
  }

  lemma OfMembers(es: seq<Evidence>, c: Coordinate, e: Evidence)
    ensures e in Of(es)(c) <==> e in es && e.coordinate == c
  {
    FilterMembers(At(c), es, e);
  }

  /** The first attempt at a coordinate, which the retry check compares with. */
  lemma FirstAttempt(es: seq<Evidence>, order: seq<Coordinate>, groups: map<Coordinate, seq<Evidence>>, c: Coordinate)
    requires GroupsFit(es, order, groups) && c in groups
    ensures groups[c] != [] && groups[c][0] in es && groups[c][0].coordinate == c
  {
    FirstSeenMembers(es, c);
    var e :| e in es && e.coordinate == c;
    OfMembers(es, c, e);
    OfMembers(es, c, groups[c][0]);
  }

  lemma AbsentMeansNew(es: seq<Evidence>, order: seq<Coordinate>, groups: map<Coordinate, seq<Evidence>>, c: Coordinate)
    requires GroupsFit(es, order, groups) && c !in groups
    ensures forall e | e in es :: e.coordinate != c
  {
    FirstSeenMembers(es, c);
  }

  /** The two checks the loop makes of one more record. */
  predicate Checks(groups: map<Coordinate, seq<Evidence>>, events: map<string, Coordinate>, e: Evidence) {
    && (e.eventId in events ==> events[e.eventId] == e.coordinate)
    && (e.coordinate in groups && groups[e.coordinate] != [] ==>
          groups[e.coordinate][0].eventId == e.eventId && groups[e.coordinate][0].batchId == e.batchId)
  }

  /** They hold exactly when the record agrees with everything before it. */
  lemma ChecksSuffice(
      es: seq<Evidence>, order: seq<Coordinate>, groups: map<Coordinate, seq<Evidence>>,
      events: map<string, Coordinate>,
      e: Evidence)
    requires Consistent(es) && GroupsFit(es, order, groups) && EventsFit(es, events)
    ensures Checks(groups, events, e) <==> forall a | a in es :: Agree(a, e)
  {
    if e.coordinate in groups {
      FirstAttempt(es, order, groups, e.coordinate);
      var first := groups[e.coordinate][0];
      assert forall a | a in es :: Agree(a, first);
    } else {
      AbsentMeansNew(es, order, groups, e.coordinate);
    }
    if e.eventId in events { assert Mentions(es, e.eventId); }
  }

  lemma ConsistentAppend(es: seq<Evidence>, e: Evidence)
    ensures Consistent(es + [e]) <==> Consistent(es) && forall a | a in es :: Agree(a, e)
  {
    var all := es + [e];
    assert e in all && forall a | a in es :: a in all;
  }

  lemma GroupsGrow(es: seq<Evidence>, order: seq<Coordinate>, groups: map<Coordinate, seq<Evidence>>, e: Evidence)
    requires GroupsFit(es, order, groups)
    ensures GroupsFit(
      es + [e],
      if e.coordinate in groups then order else order + [e.coordinate],
      groups[e.coordinate := (if e.coordinate in groups then groups[e.coordinate] else []) + [e]])
  {
    FirstSeenAppend(es, e);
    OfAppend(es, e, e.coordinate);
    if e.coordinate !in groups { NothingThere(es, e.coordinate); }
    forall c | c in groups && c != e.coordinate ensures Of(es + [e])(c) == groups[c] { OfAppend(es, e, c); }
  }

  lemma EventsGrow(es: seq<Evidence>, events: map<string, Coordinate>, e: Evidence)
    requires EventsFit(es, events) && forall a | a in es :: Agree(a, e)
    ensures EventsFit(es + [e], events[e.eventId := e.coordinate])
  {
    var all := es + [e];
    assert e in all;
    forall id | id in events ensures Mentions(all, id) {
      assert Mentions(es, id);
      var a :| a in es && a.eventId == id;
      assert a in all;
    }
    forall a | a in all ensures a == e || (a in es && Agree(a, e)) {}
  }

  lemma {:induction false} FirstSeenMembers(es: seq<Evidence>, c: Coordinate)
    ensures c in FirstSeen(es) <==> exists e :: e in es && e.coordinate == c
    ensures Distinct(FirstSeen(es))
  {
    if es != [] {
      var last := |es| - 1;
      assert es == es[..last] + [es[last]];
      FirstSeenMembers(es[..last], c);
      if es[last].coordinate !in FirstSeen(es[..last]) { AppendDistinct(FirstSeen(es[..last]), es[last].coordinate); }
    }
  }

  lemma NothingThere(es: seq<Evidence>, c: Coordinate)
    requires c !in FirstSeen(es)
    ensures Of(es)(c) == []
  {
    FirstSeenMembers(es, c);
    if Of(es)(c) != [] {
      var e := Of(es)(c)[0];
      OfMembers(es, c, e);
    }
  }

  /** The record lists that are grouped rather than refused. */
  ghost predicate Acceptable(raws: seq<Option<RawRecord>>) {
    && raws != [] && Traverse(Decode, raws).Ok? && Consistent(Traverse(Decode, raws).value)
  }

  /** The records read so far. */
  ghost predicate DecodedTo(raws: seq<Option<RawRecord>>, es: seq<Evidence>) {
    |es| <= |raws| && forall k | 0 <= k < |es| :: Decode(raws[k]) == Ok(es[k])
  }

  lemma DecodedAppend(raws: seq<Option<RawRecord>>, es: seq<Evidence>, e: Evidence)
    requires DecodedTo(raws, es) && |es| < |raws| && Decode(raws[|es|]) == Ok(e)
    ensures DecodedTo(raws, es + [e])
  {}

  /** list(groups.values()): the groups in insertion order. */
  function Values(order: seq<Coordinate>, groups: map<Coordinate, seq<Evidence>>): seq<seq<Evidence>>
    requires forall c | c in order :: c in groups
  {
    seq(|order|, k requires 0 <= k < |order| && order[k] in order => groups[order[k]])
  }

  lemma ValuesAreGroups(es: seq<Evidence>, order: seq<Coordinate>, groups: map<Coordinate, seq<Evidence>>)
    requires GroupsFit(es, order, groups)
    ensures Values(order, groups) == Groups(es)
  {
    forall k | 0 <= k < |order| ensures Values(order, groups)[k] == Groups(es)[k] { assert order[k] in groups; }
  }

  lemma RefusedAt(raws: seq<Option<RawRecord>>, es: seq<Evidence>)
    requires |es| < |raws| && DecodedTo(raws, es)
    requires Decode(raws[|es|]).Err? || !Consistent(es + [Decode(raws[|es|]).value])
    ensures !Acceptable(raws)
  {
    if Traverse(Decode, raws).Ok? {
      var all := Traverse(Decode, raws).value;
      TraverseOk(Decode, raws, all);
      var i := |es|;
      assert Decode(raws[i]) == Ok(all[i]);
      var some := es + [Decode(raws[i]).value];
      forall a | a in some ensures a in all {
        var k :| 0 <= k < |some| && some[k] == a;
        assert Decode(raws[k]) == Ok(all[k]);
      }
    }
  }

  /** Everything before this record was read and fits. */
  ghost predicate ReadUpTo(raws: seq<Option<RawRecord>>, es: seq<Evidence>, e: Evidence) {
    && DecodedTo(raws, es) && Consistent(es)
    && |es| < |raws| && Decode(raws[|es|]) == Ok(e)
  }

  ghost predicate UnreadableAt(raws: seq<Option<RawRecord>>, es: seq<Evidence>, i: nat, error: RecordError) {
    && DecodedTo(raws, es) && Consistent(es)
    && |es| == i < |raws| && Decode(raws[i]) == Err(error)
  }

  /** The event was read before at another coordinate. */
  ghost predicate Moved(es: seq<Evidence>, e: Evidence) {
    exists a :: a in es && a.eventId == e.eventId && a.coordinate != e.coordinate
  }

  /** The coordinate was read before with another event or batch. */
  ghost predicate Drifted(es: seq<Evidence>, e: Evidence) {
    exists a :: a in es && a.coordinate == e.coordinate && (a.eventId != e.eventId || a.batchId != e.batchId)
  }

  /** What each refusal says of the first record that is at fault. */
  ghost predicate RefusedFor(raws: seq<Option<RawRecord>>, error: Error) {
    match error
    case NoRecords => raws == []
    case BadRecord(i, why) => exists es :: UnreadableAt(raws, es, i, why)
    case EventMoved => exists es, e :: ReadUpTo(raws, es, e) && Moved(es, e)
    case IdentityDrifted => exists es, e :: ReadUpTo(raws, es, e) && !Moved(es, e) && Drifted(es, e)
    case _ => false
  }

  /** The first check fails exactly for a moved event, and the second for a drifted identity. */
  lemma ChecksMean(
      es: seq<Evidence>, order: seq<Coordinate>, groups: map<Coordinate, seq<Evidence>>,
      events: map<string, Coordinate>, e: Evidence)
    requires Consistent(es) && GroupsFit(es, order, groups) && EventsFit(es, events)
    ensures Moved(es, e) <==> e.eventId in events && events[e.eventId] != e.coordinate
    ensures Drifted(es, e) <==>
      && e.coordinate in groups && groups[e.coordinate] != []
      && (groups[e.coordinate][0].eventId != e.eventId || groups[e.coordinate][0].batchId != e.batchId)
  {
    if e.eventId in events { assert Mentions(es, e.eventId); }
    if e.coordinate in groups {
      FirstAttempt(es, order, groups, e.coordinate);
      assert forall a | a in es :: Agree(a, groups[e.coordinate][0]);
    } else {
      AbsentMeansNew(es, order, groups, e.coordinate);
    }
  }

  method GroupEvidence(raws: seq<Option<RawRecord>>)
      returns (r: Result<seq<seq<Evidence>>, Error>)
    ensures r.Ok? <==> Acceptable(raws)
    ensures r.Err? ==> RefusedFor(raws, r.error)
    ensures r.Ok? ==> r.value == Groups(Traverse(Decode, raws).value)
  {
    if |raws| == 0 {
      return Err(NoRecords);
    }
    var order: seq<Coordinate> := [];
    var groups: map<Coordinate, seq<Evidence>> := map[];
    var events: map<string, Coordinate> := map[];
    ghost var es: seq<Evidence> := [];
    for i := 0 to |raws|
      invariant |es| == i && DecodedTo(raws, es) && Consistent(es)
      invariant GroupsFit(es, order, groups) && EventsFit(es, events)
    {
      var record := Decode(raws[i]);
      if record.Err? {
        RefusedAt(raws, es);
        assert UnreadableAt(raws, es, i, record.error);
        return Err(BadRecord(i, record.error));
      }
      var e := record.value;
      ChecksSuffice(es, order, groups, events, e);
      ChecksMean(es, order, groups, events, e);
      ConsistentAppend(es, e);
      assert ReadUpTo(raws, es, e);
      if e.eventId in events && events[e.eventId] != e.coordinate {
        RefusedAt(raws, es);
        return Err(EventMoved);
      }
      var group := if e.coordinate in groups then groups[e.coordinate] else [];
      if group != [] && (group[0].eventId != e.eventId || group[0].batchId != e.batchId) {
        RefusedAt(raws, es);
        return Err(IdentityDrifted);
      }
      GroupsGrow(es, order, groups, e);
      EventsGrow(es, events, e);
      DecodedAppend(raws, es, e);
      order := if e.coordinate in groups then order else order + [e.coordinate];
      groups := groups[e.coordinate := group + [e]];
      events := events[e.eventId := e.coordinate];
      es := es + [e];
    }
    TraverseOk(Decode, raws, es);
    ValuesAreGroups(es, order, groups);
    return Ok(Values(order, groups));
  }

  // ---- acceptance and grouping do not depend on the interleaving -------------------------

  /** Whether a list of records is accepted does not depend on its order. */
  lemma AcceptanceIgnoresOrder(a: seq<Option<RawRecord>>, b: seq<Option<RawRecord>>)
    requires multiset(a) == multiset(b)
    ensures Acceptable(a) <==> Acceptable(b)
  {
    assert |multiset(a)| == |multiset(b)|;
    if Acceptable(a) { AcceptedAlike(a, b); }
    if Acceptable(b) { AcceptedAlike(b, a); }
  }

  lemma AcceptedAlike(a: seq<Option<RawRecord>>, b: seq<Option<RawRecord>>)
    requires multiset(a) == multiset(b) && Acceptable(a)
    ensures Acceptable(b)
  {
    assert |multiset(a)| == |multiset(b)|;
    SameMembers(a, b);
    var es := Traverse(Decode, a).value;
    TraverseOk(Decode, a, es);
    forall r | r in b ensures Decode(r).Ok? && Decode(r).value in es {
      var k :| 0 <= k < |a| && a[k] == r;
      assert Decode(a[k]) == Ok(es[k]);
    }
    var fs := seq(|b|, k requires 0 <= k < |b| && b[k] in b => Decode(b[k]).value);
    TraverseOk(Decode, b, fs);
    forall x | x in fs ensures x in es {
      var k :| 0 <= k < |fs| && fs[k] == x;
      assert b[k] in b;
    }
  }

  /** Two recordings of the same attempts that keep each coordinate's order. */
  ghost predicate Reinterleaved(es: seq<Evidence>, fs: seq<Evidence>) {
    forall c :: Of(es)(c) == Of(fs)(c)
  }

  lemma ReinterleavedMembers(es: seq<Evidence>, fs: seq<Evidence>)
    requires Reinterleaved(es, fs)
    ensures forall e :: e in es <==> e in fs
    ensures Consistent(es) <==> Consistent(fs)
  {
    forall e ensures e in es <==> e in fs {
      OfMembers(es, e.coordinate, e);
      OfMembers(fs, e.coordinate, e);
    }
  }

  lemma MapAgrees<A, B>(f: A -> B, g: A -> B, s: seq<A>)
    requires forall x | x in s :: f(x) == g(x)
    ensures Map(f, s) == Map(g, s)
  {}

  /** The records at one coordinate. */
  function RecordAt(c: Coordinate): Option<RawRecord> -> bool {
    (raw: Option<RawRecord>) => Decode(raw).Ok? && Decode(raw).value.coordinate == c
  }

  /** Two lists of the same raw records that keep each coordinate's order. */
  ghost predicate RecordsReinterleaved(a: seq<Option<RawRecord>>, b: seq<Option<RawRecord>>) {
    multiset(a) == multiset(b) && forall c :: Filter(RecordAt(c), a) == Filter(RecordAt(c), b)
  }

  /** The attempts at a coordinate are its records, decoded one by one. */
  lemma {:induction false} AttemptsAreRecords(raws: seq<Option<RawRecord>>, es: seq<Evidence>, c: Coordinate)
    requires |raws| == |es| && forall k | 0 <= k < |raws| :: Decode(raws[k]) == Ok(es[k])
    ensures DecodedTo(Filter(RecordAt(c), raws), Of(es)(c)) && |Filter(RecordAt(c), raws)| == |Of(es)(c)|
  {
    if raws != [] {
      var last := |raws| - 1;
      AttemptsAreRecords(raws[..last], es[..last], c);
      assert Decode(raws[last]) == Ok(es[last]);
      assert es == es[..last] + [es[last]];
      OfAppend(es[..last], es[last], c);
    }
  }

  lemma DecodedReinterleaved(a: seq<Option<RawRecord>>, b: seq<Option<RawRecord>>, es: seq<Evidence>, fs: seq<Evidence>)
    requires RecordsReinterleaved(a, b) && Traverse(Decode, a) == Ok(es) && Traverse(Decode, b) == Ok(fs)
    ensures Reinterleaved(es, fs)
  {
    TraverseOk(Decode, a, es);
    TraverseOk(Decode, b, fs);
    forall c ensures Of(es)(c) == Of(fs)(c) {
      AttemptsAreRecords(a, es, c);
      AttemptsAreRecords(b, fs, c);
      SameDecoded(Filter(RecordAt(c), a), Of(es)(c), Of(fs)(c));
    }
  }

  lemma SameDecoded(raws: seq<Option<RawRecord>>, es: seq<Evidence>, fs: seq<Evidence>)
    requires |raws| == |es| == |fs| && DecodedTo(raws, es) && DecodedTo(raws, fs)
    ensures es == fs
  {
    forall k | 0 <= k < |es| ensures es[k] == fs[k] {
      assert Decode(raws[k]) == Ok(es[k]);
    }
  }

  /** They group into the same groups, possibly listed in another order. */
  lemma GroupsIgnoreInterleaving(es: seq<Evidence>, fs: seq<Evidence>)
    requires Reinterleaved(es, fs)
    ensures multiset(Groups(es)) == multiset(Groups(fs))
  {
    ReinterleavedMembers(es, fs);
    forall c ensures c in FirstSeen(es) <==> c in FirstSeen(fs) {
      FirstSeenMembers(es, c);
      FirstSeenMembers(fs, c);
    }
    DistinctFirstSeen(es);
    DistinctFirstSeen(fs);
    DistinctPermutation(FirstSeen(es), FirstSeen(fs));
    MapPermutation(Of(es), FirstSeen(es), FirstSeen(fs));
    MapAgrees(Of(es), Of(fs), FirstSeen(fs));
  }

  lemma {:induction false} DistinctFirstSeen(es: seq<Evidence>)
    ensures Distinct(FirstSeen(es))
  {
    if es != [] {
      var last := |es| - 1;
      DistinctFirstSeen(es[..last]);
      if es[last].coordinate !in FirstSeen(es[..last]) { AppendDistinct(FirstSeen(es[..last]), es[last].coordinate); }
    }
  }

  lemma {:induction false} FlattenCount(es: seq<Evidence>, order: seq<Coordinate>, e: Evidence)
    requires Distinct(order)
    ensures multiset(Flatten(Map(Of(es), order)))[e] == if e.coordinate in order then multiset(es)[e] else 0
  {
    if order != [] {
      var last := |order| - 1;
      var groups := Map(Of(es), order);
      assert groups[..last] == Map(Of(es), order[..last]);
      assert order == order[..last] + [order[last]];
      FlattenCount(es, order[..last], e);
      FilterCount(At(order[last]), es, e);
    }
  }

  /** The groups partition the records: each one is in exactly one group, with its multiplicity. */
  lemma GroupsPartitionTheRecords(es: seq<Evidence>)
    ensures multiset(Flatten(Groups(es))) == multiset(es)
    ensures forall i | 0 <= i < |Groups(es)| :: Groups(es)[i] != []
    ensures forall i, j, a, b
      | 0 <= i < |Groups(es)| && 0 <= j < |Groups(es)| && a in Groups(es)[i] && b in Groups(es)[j] ::
      a.coordinate == b.coordinate <==> i == j
  {
    var order := FirstSeen(es);
    DistinctFirstSeen(es);
    var m := multiset(Flatten(Groups(es)));
    forall e ensures m[e] == multiset(es)[e] {
      FlattenCount(es, order, e);
      FirstSeenMembers(es, e.coordinate);
      assert e in es <==> e in multiset(es);
    }
    SameCounts(m, multiset(es));
    forall i | 0 <= i < |order| ensures Groups(es)[i] != [] {
      FirstSeenMembers(es, order[i]);
      var e :| e in es && e.coordinate == order[i];
      OfMembers(es, order[i], e);
    }
    forall i, a | 0 <= i < |order| && a in Groups(es)[i] ensures a.coordinate == order[i] {
      OfMembers(es, order[i], a);
    }
  }
}
