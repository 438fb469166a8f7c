/** Which lineages of a memory the server stores (internal/application/agent_memory.go), and which ones and which
    corrections a client accepts (frontend/src/api/agentMemories.ts), written out. */
module LineageRules {
  import opened Text
  import opened Wrappers
  import opened MemoryLineage

  /** Unicode's control characters. */
  lemma ControlsAreTwoRanges(c: char)
    ensures IsControl(c) <==> c < ' ' || '\U{7F}' <= c < '\U{A0}'
  {}

  /** Nothing but white space. */
  ghost predicate Nothing(s: string) { forall c | c in s :: IsSpace(c) }

  lemma NothingIsBlank(s: string)
    ensures Nothing(s) <==> Trim(s) == ""
  {
    var left, right := TrimByParts(s, IsSpace);
    if Trim(s) != "" { assert Trim(s)[0] in s; }
  }

  /** Something within the limit, white space around it not counted. */
  ghost predicate Given(s: string, limit: nat) { !Nothing(s) && |Trim(s)| <= limit }

  /** Before versioning nothing is said; a first version is its own root and corrects nothing; every later one names its
      root, what it supersedes, who corrected it and why, and comes from the memory it supersedes. */
  lemma LineageExactly(m: Memory)
    ensures ValidLineage(m) <==>
      if m.memoryVersion < 2 then
        && Nothing(m.supersedesUuid) && Nothing(m.correctedByUuid) && Nothing(m.correctionReason)
        && (if m.memoryVersion == 0 then Nothing(m.memoryRootUuid)
            else Given(m.memoryRootUuid, 64) && Trim(m.memoryRootUuid) == Trim(m.memoryUuid))
      else
        && Given(m.memoryRootUuid, 64) && Given(m.supersedesUuid, 64) && Given(m.correctedByUuid, 64)
        && Given(m.correctionReason, 1000) && (forall c | c in Trim(m.correctionReason) :: !IsControl(c))
        && m.provenance.sourceType == "owner_correction" && m.provenance.sourceId == Trim(m.supersedesUuid)
        && m.provenance.sequence == Decimal(m.memoryVersion)
  {
    NothingIsBlank(m.memoryRootUuid);
    NothingIsBlank(m.supersedesUuid);
    NothingIsBlank(m.correctedByUuid);
    NothingIsBlank(m.correctionReason);
  }

  /** Only a memory from before versioning that says nothing of its lineage is changed: it becomes the first version of
      its own root. */
  lemma CanonicalExactly(m: Memory)
    ensures CanonicalLineage(m) ==
      if m.memoryVersion == 0 && Nothing(m.memoryRootUuid) && Nothing(m.supersedesUuid)
         && Nothing(m.correctedByUuid) && Nothing(m.correctionReason)
      then m.(memoryVersion := 1, memoryRootUuid := Trim(m.memoryUuid)) else m
  {
    NothingIsBlank(m.memoryRootUuid);
    NothingIsBlank(m.supersedesUuid);
    NothingIsBlank(m.correctedByUuid);
    NothingIsBlank(m.correctionReason);
  }

  /** A later version, as the client reads it. */
  predicate CorrectionOf(v: View, id: string) {
    && v.version > 1 && v.supersedes == Some(id) && v.correctedBy != None && v.correctionReason != None
    && v.provenance == ClientProvenance("owner_correction", id, Some(Decimal(v.version)))
  }

  /** An original, as the client reads it. */
  predicate Original(v: View) {
    && v.version == 1 && v.rootId == v.memoryId
    && v.supersedes == None && v.correctedBy == None && v.correctionReason == None
  }

  lemma ParsesExactly(v: View)
    ensures LineageParses(v) <==> Original(v) || exists id :: CorrectionOf(v, id)
  {
    if LineageParses(v) && v.version > 1 { assert CorrectionOf(v, v.supersedes.value); }
  }

  /** The client accepts an answer exactly when it shows the memory it asked about, revoked, and one active successor of
      it on the same root that says what was asked for. */
  lemma AcceptedExactly(previous: View, corrected: View, ask: Ask)
    ensures CorrectionAccepted(previous, corrected, ask) <==>
      && (Original(previous) || exists id :: CorrectionOf(previous, id)) && CorrectionOf(corrected, ask.memoryId)
      && previous.memoryId == ask.memoryId && previous.version == ask.expectedVersion
      && corrected.version == previous.version + 1 && corrected.rootId == previous.rootId
      && corrected.active && !previous.active
      && corrected.content == ask.content && corrected.compactContent == Some(ask.compactContent)
      && corrected.correctionReason == Some(ask.reason)
  {
    ParsesExactly(previous);
    ParsesExactly(corrected);
  }
}
