/** Version lineage of Agent memories: canonicalisation and its check on the server
    (internal/application/agent_memory.go), and the chain of corrections a client accepts
    (frontend/src/api/agentMemories.ts). */
module MemoryLineage {
  import opened Text
  import opened Wrappers

  datatype Provenance = Provenance(sourceType: string, sourceId: string, sequence: string, uri: string)

  /** The part of a stored memory that lineage and erasure look at. */
  datatype Memory = Memory(
    memoryUuid: string, memoryRootUuid: string, memoryVersion: nat, supersedesUuid: string,
    correctedByUuid: string, correctionReason: string, provenance: Provenance,
    revoked: bool, revokeReason: string, content: string, compactContent: string, resourceType: string,
    resourceId: string,
    erased: bool, erasedByUuid: string, erasureReason: string)

  const OWNER_CORRECTION := "owner_correction"
  const ID_LIMIT := 64

  const REASON_LIMIT := 1000
  const ERASED := "[erased]"
  const SOURCE_ERASED := "erased"
  const ERASURE_AUDIT := "privacy erasure"
  const ERASURE_REASONS: set<string> := {"owner_request", "retention_expired", "policy_violation"}

  predicate IsControl(c: char) { c as int < 0x20 || 0x7F <= c as int <= 0x9F }

  predicate ValidLineage(m: Memory) {
    var root, predecessor := Trim(m.memoryRootUuid), Trim(m.supersedesUuid);
    var corrector, reason := Trim(m.correctedByUuid), Trim(m.correctionReason);
    if m.memoryVersion == 0 then root == "" && predecessor == "" && corrector == "" && reason == ""
    else if root == "" || |root| > ID_LIMIT || |predecessor| > ID_LIMIT || |corrector| > ID_LIMIT
            || |reason| > REASON_LIMIT
    then false
    else if m.memoryVersion == 1 then root == Trim(m.memoryUuid) && predecessor == "" && corrector == "" && reason == ""
    else
      && predecessor != "" && corrector != "" && reason != "" && (forall c | c in reason :: !IsControl(c))
      && m.provenance.sourceType == OWNER_CORRECTION && m.provenance.sourceId == predecessor
      && m.provenance.sequence == Decimal(m.memoryVersion)
  }

  predicate ValidErasure(m: Memory) {
    if !m.erased then m.erasedByUuid == "" && m.erasureReason == ""
    else
      && m.erasureReason in ERASURE_REASONS && m.revoked && !Blank(m.erasedByUuid)
      && m.content == ERASED && m.compactContent == "" && m.provenance.uri == ""
      && m.resourceType == SOURCE_ERASED && m.resourceId == ERASED
      && (m.memoryVersion > 1 || (m.provenance.sourceType == SOURCE_ERASED
                                  && m.provenance.sourceId == ERASED && m.provenance.sequence == ""))
      && m.revokeReason == ERASURE_AUDIT
      && (if m.memoryVersion <= 1 then m.correctionReason == "" else m.correctionReason == ERASURE_AUDIT)
  }

  /** An erased memory holds nothing any more, was revoked for it, and says why and by whom; others say neither. */
  lemma ErasedExactly(m: Memory)
    ensures ValidErasure(m) <==>
      if m.erased then
        && m.content == "[erased]" && m.resourceId == "[erased]" && m.resourceType == "erased"
        && m.compactContent == "" && m.provenance.uri == ""
        && m.revoked && m.revokeReason == "privacy erasure" && (exists c :: c in m.erasedByUuid && !IsSpace(c))
        && (m.erasureReason == "owner_request" || m.erasureReason == "retention_expired"
            || m.erasureReason == "policy_violation")
        && (if m.memoryVersion > 1 then m.correctionReason == "privacy erasure"
            else m.correctionReason == "" && m.provenance == Provenance("erased", "[erased]", "", ""))
      else m.erasedByUuid == "" && m.erasureReason == ""
  {
    var left, right := TrimByParts(m.erasedByUuid, IsSpace);
    if Trim(m.erasedByUuid) != "" { assert Trim(m.erasedByUuid)[0] in m.erasedByUuid; }
  }

  /** Gives a memory from before versioning its place as the first version of its own root. */
  function CanonicalLineage(m: Memory): Memory {
    if m.memoryVersion == 0 && Blank(m.memoryRootUuid) && Blank(m.supersedesUuid)
       && Blank(m.correctedByUuid) && Blank(m.correctionReason)
    then m.(memoryRootUuid := Trim(m.memoryUuid), memoryVersion := 1)
    else m
  }

  /** Canonicalising is done once, never disturbs erasure, and keeps a valid lineage valid exactly when the memory
      was versioned already or has a usable id. */
  lemma CanonicalLineageKeepsValidity(m: Memory)
    requires ValidLineage(m)
    ensures CanonicalLineage(CanonicalLineage(m)) == CanonicalLineage(m)
    ensures CanonicalLineage(m).memoryVersion >= 1
    ensures ValidErasure(m) <==> ValidErasure(CanonicalLineage(m))
    ensures ValidLineage(CanonicalLineage(m)) <==>
      m.memoryVersion > 0 || UsableId(m.memoryUuid)
  {
    TrimIdempotent(m.memoryUuid);
  }

  /** The ids that validation of a memory asks for. */
  predicate UsableId(id: string) { !Blank(id) && |Trim(id)| <= ID_LIMIT }

  /** A memory whose id and lineage are accepted is still accepted once canonicalised. */
  lemma AcceptedLineageStaysAccepted(m: Memory)
    requires UsableId(m.memoryUuid) && ValidLineage(m) && ValidErasure(m)
    ensures ValidLineage(CanonicalLineage(m)) && ValidErasure(CanonicalLineage(m))
    ensures CanonicalLineage(m).memoryUuid == m.memoryUuid && CanonicalLineage(m).memoryVersion >= 1
  {
    CanonicalLineageKeepsValidity(m);
  }

  /** The id matters: a memory from before versioning without one has a lineage that is valid only until it is
      canonicalised. */
  lemma BlankIdLosesItsLineage() returns (m: Memory)
    ensures ValidLineage(m) && !UsableId(m.memoryUuid) && !ValidLineage(CanonicalLineage(m))
  {
    m := Memory("", "", 0, "", "", "", Provenance("", "", "", ""), false, "", "", "", "", "", false, "", "");
    CanonicalLineageKeepsValidity(m);
  }

  // ---- corrections as the client accepts them --------------------------------------------

  datatype ClientProvenance = ClientProvenance(sourceType: string, sourceId: string, sequence: Option<string>)

  /** A memory as the API returns it; undefined is None. */
  datatype View = View(
    memoryId: string, rootId: string, version: nat, supersedes: Option<string>, correctedBy: Option<string>,
    correctionReason: Option<string>, provenance: ClientProvenance, active: bool,
    content: string, compactContent: Option<string>)

  /** The lineage part of parsing one memory. */
  predicate LineageParses(v: View) {
    && v.version >= 1
    && if v.version == 1
       then v.rootId == v.memoryId && v.supersedes.None? && v.correctedBy.None? && v.correctionReason.None?
       else
         && v.supersedes.Some? && v.correctedBy.Some? && v.correctionReason.Some?
         && v.provenance.sourceType == OWNER_CORRECTION && v.provenance.sourceId == v.supersedes.value
         && v.provenance.sequence == Some(Decimal(v.version))
  }

  /** What a caller asked to be corrected. */
  datatype Ask = Ask(memoryId: string, expectedVersion: nat, content: string, compactContent: string, reason: string)

  predicate CorrectionAccepted(previous: View, corrected: View, ask: Ask) {
    && LineageParses(previous) && LineageParses(corrected)
    && previous.memoryId == ask.memoryId && previous.version == ask.expectedVersion && !previous.active
    && corrected.active && corrected.rootId == previous.rootId && corrected.version == ask.expectedVersion + 1
    && corrected.supersedes == Some(ask.memoryId) && corrected.content == ask.content
    && corrected.compactContent == Some(ask.compactContent) && corrected.correctionReason == Some(ask.reason)
  }

  /** Root, version and predecessor of a memory never change once it exists. */
  datatype Lineage = Lineage(rootId: string, version: nat, supersedes: Option<string>)

  function LineageOf(v: View): Lineage { Lineage(v.rootId, v.version, v.supersedes) }

  predicate Recorded(store: map<string, Lineage>, v: View) { v.memoryId in store && store[v.memoryId] == LineageOf(v) }

  /** An original memory and the corrections accepted one after the other, every response agreeing with the store. */
  ghost predicate CorrectionRun(store: map<string, Lineage>, views: seq<View>) {
    && views != [] && LineageParses(views[0]) && views[0].version == 1
    && (forall i | 0 <= i < |views| :: Recorded(store, views[i]))
    && forall i | 0 <= i < |views| - 1 :: CorrectionStep(store, views[i].memoryId, views[i + 1])
  }

  /** Some correction of that memory was accepted and returned the view. */
  ghost predicate CorrectionStep(store: map<string, Lineage>, id: string, corrected: View) {
    exists previous, ask ::
      Recorded(store, previous) && CorrectionAccepted(previous, corrected, ask) && ask.memoryId == id
  }

  /** Follows predecessors. */
  function Hops(store: map<string, Lineage>, id: string, n: nat): Option<string>
    decreases n
  {
    if n == 0 then Some(id)
    else if id in store && store[id].supersedes.Some? then Hops(store, store[id].supersedes.value, n - 1)
    else None
  }

  lemma {:induction false} RunVersions(store: map<string, Lineage>, views: seq<View>, k: nat)
    requires CorrectionRun(store, views) && k < |views|
    ensures views[k].version == k + 1 && views[k].rootId == views[0].memoryId
    ensures k > 0 ==> views[k].supersedes == Some(views[k - 1].memoryId)
  {
    if k > 0 {
      RunVersions(store, views, k - 1);
      assert Recorded(store, views[k - 1]);
      assert CorrectionStep(store, views[k - 1].memoryId, views[k - 1 + 1]);
    }
  }

  /** After any run of accepted corrections, each version leads back to the original in exactly version - 1 hops,
      keeps its root, and no memory occurs twice. */
  lemma {:induction false} CorrectionsReachTheRoot(store: map<string, Lineage>, views: seq<View>, k: nat)
    requires CorrectionRun(store, views) && k < |views|
    ensures views[k].version == k + 1 && views[k].rootId == views[0].memoryId
    ensures Hops(store, views[k].memoryId, views[k].version - 1) == Some(views[0].memoryId)
    ensures Hops(store, views[k].memoryId, views[k].version) == None
    ensures forall j | 0 <= j < k :: views[j].memoryId != views[k].memoryId
    decreases k
  {
    RunVersions(store, views, k);
    assert Recorded(store, views[k]);
    if k > 0 {
      CorrectionsReachTheRoot(store, views, k - 1);
    }
    forall j | 0 <= j < k ensures views[j].memoryId != views[k].memoryId {
      RunVersions(store, views, j);
      assert Recorded(store, views[j]);
    }
  }
}
