/** Runtime image provenance: the report builder (scripts/bench/runtime_provenance.py) and the baseline report
    that runs it again on the builder's own output (scripts/bench/baseline_report.py). */
module RuntimeProvenance {
  import opened Sorting
  import opened Text
  import opened Wrappers

  datatype Json = Str(s: string) | Bool(b: bool) | OtherJson

  /** The keys of a service object; any other key is kept by its text. */
  datatype Field = Name | ContainerId | ImageIdField | Revision | Created | SourceDirty | Unknown(text: string)

  /** A decoded service: a JSON object, or None for anything else. */
  type Raw = Option<map<Field, Json>>

  datatype Service = Service(containerId: string, imageId: string, revision: string, created: string, sourceDirty: bool)

  /** names lists the services in the order they are written. */
  datatype Report = Report(
    schemaVersion: string, expectedRevision: string, sourceAligned: bool,
    names: seq<string>, services: map<string, Service>)

  datatype Error = BadHeader | BadRevision | NoServices | BadService(index: nat) | RevisionDrift

  const FIELDS: set<Field> := {Name, ContainerId, ImageIdField, Revision, Created, SourceDirty}
  const PROVENANCE_SCHEMA := "dipole.performance.runtime-provenance.v1"
  const IMAGE_PREFIX := "sha256:"

  predicate Hex(s: string, n: nat) {
    |s| == n && forall c | c in s :: '0' <= c <= '9' || 'a' <= c <= 'f'
  }

  predicate ImageId(s: string) {
    |s| == 71 && s[..7] == IMAGE_PREFIX && Hex(s[7..], 64)
  }

  predicate IsText(fields: map<Field, Json>, field: Field) { field in fields && fields[field].Str? }

  /** Every check on one service alone; timestamp says which strings parse as RFC 3339 with a zone. */
  predicate Fits(expected: string, timestamp: string -> bool, raw: Raw) {
    && raw.Some? && raw.value.Keys == FIELDS
    && var f := raw.value;
    && IsText(f, Name) && f[Name].s != ""
    && IsText(f, ContainerId) && Hex(f[ContainerId].s, 64)
    && IsText(f, ImageIdField) && ImageId(f[ImageIdField].s)
    && IsText(f, Revision) && Hex(f[Revision].s, 40) && f[Revision].s == expected
    && f[SourceDirty] == Bool(false)
    && IsText(f, Created) && f[Created].s != "" && timestamp(f[Created].s)
  }

  /** The check as a function value. */
  function FitTest(expected: string, timestamp: string -> bool): Raw -> bool {
    raw => Fits(expected, timestamp, raw)
  }

  function TextOf(raw: Raw, field: Field): string {
    if raw.Some? && IsText(raw.value, field) then raw.value[field].s else ""
  }

  function NameOf(raw: Raw): string { TextOf(raw, Name) }

  function ContainerOf(raw: Raw): string { TextOf(raw, ContainerId) }

  function ServiceOf(raw: Raw): Service {
    Service(TextOf(raw, ContainerId), TextOf(raw, ImageIdField), TextOf(raw, Revision), TextOf(raw, Created), false)
  }

  /** The service lists a report is built from: all sound, with their names and their containers all different. */
  ghost predicate Acceptable(expected: string, timestamp: string -> bool, raws: seq<Raw>) {
    && Hex(expected, 40) && raws != []
    && AllSound(FitTest(expected, timestamp), raws)
  }

  predicate Headed(r: Report) { r.schemaVersion == PROVENANCE_SCHEMA && r.sourceAligned }

  ghost predicate IsReport(expected: string, raws: seq<Raw>, r: Report) {
    && Headed(r) && r.expectedRevision == expected
    && r.names == Sort(Map(NameOf, raws), LexLe)
    && (forall name :: name in r.services <==> name in Map(NameOf, raws))
    && forall raw | raw in raws :: NameOf(raw) in r.services && r.services[NameOf(raw)] == ServiceOf(raw)
  }

  method BuildReport(expected: string, timestamp: string -> bool, raws: seq<Raw>) returns (r: Result<Report, Error>)
    ensures r.Ok? <==> Acceptable(expected, timestamp, raws)
    ensures r == Err(BadRevision) <==> !Hex(expected, 40)
    ensures r == Err(NoServices) <==> Hex(expected, 40) && raws == []
    ensures r.Err? && r.error != BadRevision && r.error != NoServices ==>
      FaultyAt(FitTest(expected, timestamp), raws, r.error)
    ensures r.Ok? ==> IsReport(expected, raws, r.value)
  {
    if !Hex(expected, 40) {
      return Err(BadRevision);
    }
    if |raws| == 0 {
      return Err(NoServices);
    }
    var gathered, names, services := GatherServices(FitTest(expected, timestamp), raws);
    if gathered.Some? {
      return Err(gathered.value);
    }
    return Ok(Report(PROVENANCE_SCHEMA, expected, true, Sort(names, LexLe), services));
  }

  /** Every service passes its own checks, and no name and no container comes twice. */
  ghost predicate AllSound(fits: Raw -> bool, raws: seq<Raw>) {
    && (forall raw | raw in raws :: fits(raw))
    && Distinct(Map(NameOf, raws)) && Distinct(Map(ContainerOf, raws))
  }

  /** What the builder's loop has after i services: the dictionary, its insertion order and the containers. */
  ghost predicate Gathered(
      fits: Raw -> bool, raws: seq<Raw>, i: nat, names: seq<string>, services: map<string, Service>,
      containers: set<string>)
    requires i <= |raws|
  {
    && names == Map(NameOf, raws)[..i] && Distinct(names) && Distinct(Map(ContainerOf, raws)[..i])
    && (forall k | 0 <= k < i :: fits(raws[k]))
    && (forall name :: name in services <==> name in names)
    && (forall id :: id in containers <==> id in Map(ContainerOf, raws)[..i])
    && (forall k | 0 <= k < i :: names[k] in services && services[names[k]] == ServiceOf(raws[k]))
  }

  lemma GatherOne(
      fits: Raw -> bool, raws: seq<Raw>, i: nat, names: seq<string>, services: map<string, Service>,
      containers: set<string>)
    requires i < |raws| && Gathered(fits, raws, i, names, services, containers) && fits(raws[i])
    requires NameOf(raws[i]) !in services && ContainerOf(raws[i]) !in containers
    ensures Gathered(fits, raws, i + 1, names + [NameOf(raws[i])], services[NameOf(raws[i]) := ServiceOf(raws[i])],
                     containers + {ContainerOf(raws[i])})
  {
    var name := NameOf(raws[i]);
    DistinctGrows(Map(NameOf, raws), i);
    DistinctGrows(Map(ContainerOf, raws), i);
    forall k | 0 <= k < i ensures names[k] != name { assert names[k] in names; }
  }

  /** That service is refused for itself, or for its name or container, which one before it has. */
  ghost predicate FaultyAt(fits: Raw -> bool, raws: seq<Raw>, error: Error) {
    match error
    case BadService(i) =>
      && i < |raws| && (forall k | 0 <= k < i :: fits(raws[k]))
      && (!fits(raws[i]) || exists k :: 0 <= k < i && Clash(raws[k], raws[i]))
    case _ => false
  }

  predicate Clash(a: Raw, b: Raw) { NameOf(a) == NameOf(b) || ContainerOf(a) == ContainerOf(b) }

  method GatherServices(fits: Raw -> bool, raws: seq<Raw>)
      returns (error: Option<Error>, names: seq<string>, services: map<string, Service>)
    ensures error.None? <==> AllSound(fits, raws)
    ensures error.Some? ==> FaultyAt(fits, raws, error.value)
    ensures error.None? ==>
      && names == Map(NameOf, raws)
      && (forall name :: name in services <==> name in names)
      && forall raw | raw in raws :: NameOf(raw) in services && services[NameOf(raw)] == ServiceOf(raw)
  {
    services, names := map[], [];
    var containers: set<string> := {};
    for i := 0 to |raws|
      invariant Gathered(fits, raws, i, names, services, containers)
    {
      var name, container := NameOf(raws[i]), ContainerOf(raws[i]);
      if !fits(raws[i]) || name in services || container in containers {
        Unsound(fits, raws, i, names, services, containers);
        ClashesBefore(fits, raws, i, names, services, containers);
        return Some(BadService(i)), names, services;
      }
      GatherOne(fits, raws, i, names, services, containers);
      containers := containers + {container};
      services := services[name := ServiceOf(raws[i])];
      names := names + [name];
    }
    assert Map(NameOf, raws)[..|raws|] == Map(NameOf, raws);
    assert Map(ContainerOf, raws)[..|raws|] == Map(ContainerOf, raws);
    return None, names, services;
  }

  lemma ClashesBefore(
      fits: Raw -> bool, raws: seq<Raw>, i: nat, names: seq<string>, services: map<string, Service>,
      containers: set<string>)
    requires i < |raws| && Gathered(fits, raws, i, names, services, containers)
    requires !fits(raws[i]) || NameOf(raws[i]) in services || ContainerOf(raws[i]) in containers
    ensures FaultyAt(fits, raws, BadService(i))
  {
    if NameOf(raws[i]) in services {
      var k :| 0 <= k < i && names[k] == NameOf(raws[i]);
      assert Clash(raws[k], raws[i]);
    } else if ContainerOf(raws[i]) in containers {
      var k :| 0 <= k < i && Map(ContainerOf, raws)[k] == ContainerOf(raws[i]);
      assert Clash(raws[k], raws[i]);
    }
  }

  lemma Unsound(
      fits: Raw -> bool, raws: seq<Raw>, i: nat, names: seq<string>, services: map<string, Service>,
      containers: set<string>)
    requires i < |raws| && Gathered(fits, raws, i, names, services, containers)
    requires !fits(raws[i]) || NameOf(raws[i]) in services || ContainerOf(raws[i]) in containers
    ensures !AllSound(fits, raws)
  {
    assert raws[i] in raws;
    if NameOf(raws[i]) in services {
      DuplicateBreaks(Map(NameOf, raws), i);
    } else if ContainerOf(raws[i]) in containers {
      DuplicateBreaks(Map(ContainerOf, raws), i);
    }
  }

  // ---- the report ignores the order it was given -----------------------------------------

  lemma AcceptanceIgnoresOrder(expected: string, timestamp: string -> bool, a: seq<Raw>, b: seq<Raw>)
    requires multiset(a) == multiset(b)
    ensures Acceptable(expected, timestamp, a) <==> Acceptable(expected, timestamp, b)
  {
    assert |multiset(a)| == |multiset(b)|;
    SameMembers(a, b);
    MapPermutation(NameOf, a, b);
    MapPermutation(ContainerOf, a, b);
    DistinctPermuted(Map(NameOf, a), Map(NameOf, b));
    DistinctPermuted(Map(ContainerOf, a), Map(ContainerOf, b));
  }

  lemma ReportIgnoresOrder(expected: string, a: seq<Raw>, b: seq<Raw>, r: Report)
    requires multiset(a) == multiset(b) && IsReport(expected, a, r)
    ensures IsReport(expected, b, r)
  {
    SameMembers(a, b);
    MapPermutation(NameOf, a, b);
    SameMembers(Map(NameOf, a), Map(NameOf, b));
    LexIsTotalOrder();
    SortPermutation(Map(NameOf, a), Map(NameOf, b), LexLe);
  }

  lemma ReportIsUnique(expected: string, raws: seq<Raw>, r: Report, q: Report)
    requires IsReport(expected, raws, r) && IsReport(expected, raws, q)
    ensures r == q
  {
    var names := Map(NameOf, raws);
    forall name | name in r.services ensures name in q.services && r.services[name] == q.services[name] {
      var k :| 0 <= k < |raws| && names[k] == name;
      assert raws[k] in raws;
    }
    assert r.services.Keys == q.services.Keys;
    assert r.services == q.services;
  }

  /** Listing the services in another order is accepted alike and gives the very same report. */
  lemma OrderDoesNotMatter(expected: string, timestamp: string -> bool, a: seq<Raw>, b: seq<Raw>, r: Report, q: Report)
    requires multiset(a) == multiset(b)
    ensures Acceptable(expected, timestamp, a) <==> Acceptable(expected, timestamp, b)
    ensures IsReport(expected, a, r) && IsReport(expected, b, q) ==> r == q
  {
    AcceptanceIgnoresOrder(expected, timestamp, a, b);
    if IsReport(expected, a, r) && IsReport(expected, b, q) {
      ReportIgnoresOrder(expected, a, b, r);
      ReportIsUnique(expected, b, r, q);
    }
  }

  // ---- the report is a normal form -------------------------------------------------------

  /** A reported service with its name put back, as the baseline report feeds it to the builder. */
  function Repack(services: map<string, Service>): string -> Raw {
    name =>
      if name !in services then None
      else
        var s := services[name];
        Some(map[Name := Str(name), ContainerId := Str(s.containerId), ImageIdField := Str(s.imageId),
                 Revision := Str(s.revision), Created := Str(s.created), SourceDirty := Bool(s.sourceDirty)])
  }

  lemma RepackIsInverse(expected: string, timestamp: string -> bool, services: map<string, Service>, raw: Raw)
    requires Fits(expected, timestamp, raw)
    requires NameOf(raw) in services && services[NameOf(raw)] == ServiceOf(raw)
    ensures Repack(services)(NameOf(raw)) == raw
  {
    var again := Repack(services)(NameOf(raw));
    assert again.Some? && again.value.Keys == FIELDS;
    assert forall f | f in FIELDS :: again.value[f] == raw.value[f];
    assert again.value == raw.value;
  }

  /** Building again from the report's own services, in any order, is accepted and returns the same report. */
  lemma ReportIsNormalForm(expected: string, timestamp: string -> bool, raws: seq<Raw>, r: Report, order: seq<string>)
    requires Acceptable(expected, timestamp, raws) && IsReport(expected, raws, r)
    requires Distinct(order) && forall name :: name in order <==> name in r.services
    ensures Acceptable(expected, timestamp, Map(Repack(r.services), order))
    ensures IsReport(expected, Map(Repack(r.services), order), r)
  {
    var names := Map(NameOf, raws);
    DistinctPermutation(order, names);
    MapPermutation(Repack(r.services), order, names);
    RepackAll(expected, timestamp, raws, r);
    AcceptanceIgnoresOrder(expected, timestamp, raws, Map(Repack(r.services), order));
    ReportIgnoresOrder(expected, raws, Map(Repack(r.services), order), r);
  }

  lemma RepackAll(expected: string, timestamp: string -> bool, raws: seq<Raw>, r: Report)
    requires Acceptable(expected, timestamp, raws) && IsReport(expected, raws, r)
    ensures Map(Repack(r.services), Map(NameOf, raws)) == raws
  {
    forall k | 0 <= k < |raws| ensures Repack(r.services)(NameOf(raws[k])) == raws[k] {
      assert raws[k] in raws && FitTest(expected, timestamp)(raws[k]);
      RepackIsInverse(expected, timestamp, r.services, raws[k]);
    }
  }

  ghost predicate SeparateContainers(services: map<string, Service>) {
    forall a, b | a in services && b in services && a != b :: services[a].containerId != services[b].containerId
  }

  /** Services that would each be accepted, in different containers. */
  ghost predicate SoundReport(timestamp: string -> bool, values: Report) {
    && Hex(values.expectedRevision, 40) && values.services != map[]
    && (forall name | name in values.services ::
          FitTest(values.expectedRevision, timestamp)(Repack(values.services)(name)))
    && SeparateContainers(values.services)
  }

  /** The same services, written in name order. */
  ghost predicate Rewritten(values: Report, section: Report) {
    && Headed(section) && section.expectedRevision == values.expectedRevision && section.services == values.services
    && SortedBy(section.names, LexLe) && multiset(section.names) == multiset(values.services.Keys)
  }

  lemma OfRepacked(services: map<string, Service>, order: seq<string>)
    requires forall name | name in order :: name in services
    ensures |Map(Repack(services), order)| == |order|
    ensures Map(NameOf, Map(Repack(services), order)) == order
    ensures forall k | 0 <= k < |order| ::
      Map(ContainerOf, Map(Repack(services), order))[k] == services[order[k]].containerId
  {
    var raws := Map(Repack(services), order);
    forall k | 0 <= k < |order|
      ensures NameOf(raws[k]) == order[k] && ContainerOf(raws[k]) == services[order[k]].containerId
    {
      assert order[k] in services;
    }
  }

  lemma ListingCounts(services: map<string, Service>, order: seq<string>)
    requires Distinct(order) && forall name :: name in order <==> name in services
    ensures multiset(order) == multiset(services.Keys)
    ensures order == [] <==> services == map[]
  {
    forall x ensures multiset(order)[x] == multiset(services.Keys)[x] { DistinctCountsOnce(order, x); }
    if order != [] { assert order[0] in services; }
    if services != map[] { var x :| x in services; assert x in order; }
  }

  lemma DistinctContainers(services: map<string, Service>, order: seq<string>, ids: seq<string>)
    requires Distinct(order) && forall name :: name in order <==> name in services
    requires |ids| == |order| && forall k | 0 <= k < |order| :: ids[k] == services[order[k]].containerId
    ensures Distinct(ids) <==> SeparateContainers(services)
  {
    if Distinct(ids) {
      forall a, b | a in services && b in services && a != b
        ensures services[a].containerId != services[b].containerId
      {
        var i :| 0 <= i < |order| && order[i] == a;
        var j :| 0 <= j < |order| && order[j] == b;
        assert ids[i] != ids[j];
      }
    }
  }

  lemma EachPasses(fits: Raw -> bool, repack: string -> Raw, order: seq<string>)
    ensures (forall raw | raw in Map(repack, order) :: fits(raw)) <==> forall name | name in order :: fits(repack(name))
  {
    var raws := Map(repack, order);
    if forall raw | raw in raws :: fits(raw) {
      forall name | name in order ensures fits(repack(name)) {
        var k :| 0 <= k < |order| && order[k] == name;
        assert raws[k] in raws;
      }
    }
  }

  /** Whatever order the services are walked in, the builder accepts them exactly when they are sound. */
  lemma SoundInAnyOrder(timestamp: string -> bool, values: Report, order: seq<string>)
    requires Distinct(order) && forall name :: name in order <==> name in values.services
    ensures Acceptable(values.expectedRevision, timestamp, Map(Repack(values.services), order)) <==>
            SoundReport(timestamp, values)
  {
    var raws := Map(Repack(values.services), order);
    OfRepacked(values.services, order);
    ListingCounts(values.services, order);
    DistinctContainers(values.services, order, Map(ContainerOf, raws));
    EachPasses(FitTest(values.expectedRevision, timestamp), Repack(values.services), order);
  }

  lemma RepackedIsService(expected: string, timestamp: string -> bool, services: map<string, Service>, name: string)
    requires name in services && FitTest(expected, timestamp)(Repack(services)(name))
    ensures ServiceOf(Repack(services)(name)) == services[name]
  {}

  lemma RebuiltService(
      timestamp: string -> bool, values: Report, order: seq<string>, section: Report, k: nat)
    requires k < |order| && forall name | name in order :: name in values.services
    requires FitTest(values.expectedRevision, timestamp)(Repack(values.services)(order[k]))
    requires IsReport(values.expectedRevision, Map(Repack(values.services), order), section)
    ensures order[k] in section.services && section.services[order[k]] == values.services[order[k]]
  {
    var raws := Map(Repack(values.services), order);
    OfRepacked(values.services, order);
    assert raws[k] in raws && NameOf(raws[k]) == order[k];
    RepackedIsService(values.expectedRevision, timestamp, values.services, order[k]);
  }

  lemma RebuiltNames(services: map<string, Service>, order: seq<string>)
    requires Distinct(order) && forall name :: name in order <==> name in services
    ensures SortedBy(Sort(order, LexLe), LexLe) && multiset(Sort(order, LexLe)) == multiset(services.Keys)
  {
    ListingCounts(services, order);
    LexIsTotalOrder();
    SortSorts(order, LexLe);
  }

  lemma SameServices(a: map<string, Service>, b: map<string, Service>, order: seq<string>)
    requires forall name :: name in order <==> name in a
    requires forall name :: name in order <==> name in b
    requires forall k | 0 <= k < |order| :: a[order[k]] == b[order[k]]
    ensures a == b
  {
    forall name | name in a ensures a[name] == b[name] {
      var k :| 0 <= k < |order| && order[k] == name;
    }
    assert forall name :: name in a <==> name in b;
  }

  lemma RebuiltServices(timestamp: string -> bool, values: Report, order: seq<string>, section: Report)
    requires forall name :: name in order <==> name in values.services
    requires forall name | name in values.services ::
      FitTest(values.expectedRevision, timestamp)(Repack(values.services)(name))
    requires IsReport(values.expectedRevision, Map(Repack(values.services), order), section)
    ensures section.services == values.services
  {
    OfRepacked(values.services, order);
    forall k | 0 <= k < |order|
      ensures order[k] in section.services && section.services[order[k]] == values.services[order[k]]
    {
      RebuiltService(timestamp, values, order, section, k);
    }
    SameServices(section.services, values.services, order);
  }

  lemma RebuiltIsRewritten(timestamp: string -> bool, values: Report, order: seq<string>, section: Report)
    requires Distinct(order) && forall name :: name in order <==> name in values.services
    requires SoundReport(timestamp, values)
    requires IsReport(values.expectedRevision, Map(Repack(values.services), order), section)
    ensures Rewritten(values, section)
  {
    OfRepacked(values.services, order);
    RebuiltNames(values.services, order);
    RebuiltServices(timestamp, values, order, section);
  }

  /** The runtime provenance section of the baseline report accepts exactly the sound reports, with the right header
      and taken at the collector's commit, and writes their services again in name order. */
  method RuntimeProvenanceSection(timestamp: string -> bool, values: Report, gitCommit: string)
      returns (section: Result<Report, Error>)
    ensures section.Ok? <==> Headed(values) && SoundReport(timestamp, values) && gitCommit == values.expectedRevision
    ensures section == Err(BadHeader) <==> !Headed(values)
    ensures section == Err(NoServices) <==> Headed(values) && values.services == map[]
    ensures section == Err(RevisionDrift) <==>
      Headed(values) && SoundReport(timestamp, values) && gitCommit != values.expectedRevision
    ensures section.Ok? ==> Rewritten(values, section.value)
  {
    if !Headed(values) {
      return Err(BadHeader);
    }
    if values.services == map[] {
      return Err(NoServices);
    }
    ghost var repack := Repack(values.services);
    ghost var order := [];
    var raws: seq<Raw> := [];
    var names := values.services.Keys;
    while names != {}
      invariant names <= values.services.Keys && Distinct(order)
      invariant forall name :: name in order <==> name in values.services.Keys - names
      invariant raws == Map(repack, order)
      decreases names
    {
      var name :| name in names;
      AppendDistinct(order, name);
      MapAppend(repack, order, [name]);
      raws := raws + [Repack(values.services)(name)];
      order := order + [name];
      names := names - {name};
    }
    var normalized := BuildReport(values.expectedRevision, timestamp, raws);
    SoundInAnyOrder(timestamp, values, order);
    if normalized.Err? {
      return Err(normalized.error);
    }
    RebuiltIsRewritten(timestamp, values, order, normalized.value);
    if gitCommit != normalized.value.expectedRevision {
      return Err(RevisionDrift);
    }
    return Ok(normalized.value);
  }

  /** Whatever the builder wrote is sound, and the only report the baseline can rewrite it to is itself. */
  lemma BuiltReportSurvivesBaseline(
      expected: string, timestamp: string -> bool, raws: seq<Raw>, r: Report, section: Report)
    requires Acceptable(expected, timestamp, raws) && IsReport(expected, raws, r)
    ensures Headed(r) && SoundReport(timestamp, r)
    ensures Rewritten(r, section) <==> section == r
  {
    var order := Map(NameOf, raws);
    ReportIsNormalForm(expected, timestamp, raws, r, order);
    SoundInAnyOrder(timestamp, r, order);
    RebuiltIsRewritten(timestamp, r, order, r);
    LexIsTotalOrder();
    if Rewritten(r, section) {
      SortedUnique(section.names, r.names, LexLe);
    }
  }
}
