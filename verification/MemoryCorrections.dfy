/** A correction of an Agent memory on its whole way: what the server writes
    (internal/services/agent/application/agent_memory_owner.go), what the gateway passes on
    (internal/services/gateway/server/agent_memory.go), and when the client that asked for it accepts the answer
    (frontend/src/api/agentMemories.ts). */
module MemoryCorrections {
  import opened Text
  import opened Wrappers
  import opened MemoryLineage

  const MAX_VERSION := 0xFFFF_FFFF

  // ---- the server ------------------------------------------------------------------------

  /** The gateway and the service trim what they are sent. */
  function Received(ask: Ask): Ask {
    ask.(content := Trim(ask.content), compactContent := Trim(ask.compactContent), reason := Trim(ask.reason))
  }

  predicate ValidReason(reason: string) {
    reason != "" && |reason| <= REASON_LIMIT && forall c | c in reason :: !IsControl(c)
  }

  /** The new version that a correction of c would store. */
  function NextVersion(c: Memory, newId: string, principal: string, ask: Ask): Memory {
    Memory(newId, c.memoryRootUuid, c.memoryVersion + 1, c.memoryUuid, principal, ask.reason,
           Provenance(OWNER_CORRECTION, c.memoryUuid, Decimal(c.memoryVersion + 1), ""),
           false, "", ask.content, ask.compactContent, c.resourceType, c.resourceId, false, "", "")
  }

  /** The corrected memory and its successor, if the correction is applied. A version is a uint32. */
  function Correct(source: Memory, newId: string, principal: string, asked: Ask): Option<(Memory, Memory)> {
    var ask := Received(asked);
    if Blank(principal) || ask.content == "" || !ValidReason(ask.reason) || ask.expectedVersion == 0 then None
    else
      var c := CanonicalLineage(source);
      if !ValidLineage(c) || !ValidErasure(c) then None
      else if c.memoryVersion != ask.expectedVersion || c.memoryVersion >= MAX_VERSION then None
      else
        var next := NextVersion(c, newId, principal, ask);
        if !ValidLineage(next) || !ValidErasure(next) then None
        else if source.memoryVersion != ask.expectedVersion || source.revoked then None
        else Some((source.(revoked := true, revokeReason := "superseded by " + newId), next))
  }

  lemma NextVersionIsValidExactly(c: Memory, newId: string, principal: string, ask: Ask)
    requires ValidLineage(c) && c.memoryVersion >= 1 && ask.reason == Trim(ask.reason) && ValidReason(ask.reason)
    ensures ValidErasure(NextVersion(c, newId, principal, ask))
    ensures ValidLineage(NextVersion(c, newId, principal, ask)) <==>
      && c.memoryUuid != "" && Trim(c.memoryUuid) == c.memoryUuid && |c.memoryUuid| <= 64
      && !Blank(principal) && |Trim(principal)| <= 64
  {}

  lemma NotBlank(s: string)
    ensures Trim(s) != "" <==> exists c :: c in s && !IsSpace(c)
  {
    var left, right := TrimByParts(s, IsSpace);
    if Trim(s) != "" { assert Trim(s)[0] in s; }
  }

  /** A correction is applied to the active memory of the expected version exactly when the version still counts up, the
      memory's id needs no trimming, and content, corrector and reason are given within their limits. */
  lemma AppliedExactly(source: Memory, newId: string, principal: string, ask: Ask)
    ensures Correct(source, newId, principal, ask).Some? <==>
      && ValidLineage(source) && ValidErasure(source) && !source.revoked
      && 1 <= ask.expectedVersion == source.memoryVersion < 0xFFFF_FFFF
      && source.memoryUuid != "" && Trim(source.memoryUuid) == source.memoryUuid && |source.memoryUuid| <= 64
      && (exists c :: c in ask.content && !IsSpace(c))
      && (exists c :: c in principal && !IsSpace(c)) && |Trim(principal)| <= 64
      && (exists c :: c in ask.reason && !IsSpace(c)) && |Trim(ask.reason)| <= 1000
      && forall c | c in Trim(ask.reason) :: !IsControl(c)
  {
    NotBlank(ask.content);
    NotBlank(principal);
    NotBlank(ask.reason);
    TrimIdempotent(ask.reason);
    if ValidLineage(source) && source.memoryVersion >= 1 && ValidReason(Trim(ask.reason)) {
      NextVersionIsValidExactly(source, newId, principal, Received(ask));
    }
  }

  /** The successor stands one version above the memory it supersedes, on the same root, active and whole; the memory
      itself is only revoked. */
  lemma AppliedCorrectionExtendsTheChain(source: Memory, newId: string, principal: string, ask: Ask)
    requires Correct(source, newId, principal, ask).Some?
    ensures var (previous, next) := Correct(source, newId, principal, ask).value;
      && ValidLineage(previous) && ValidErasure(previous) && ValidLineage(next) && ValidErasure(next)
      && previous == source.(revoked := true, revokeReason := previous.revokeReason)
      && previous.revoked && !next.revoked && next.memoryUuid == newId
      && next.memoryVersion == source.memoryVersion + 1 && next.memoryRootUuid == source.memoryRootUuid
      && next.supersedesUuid == source.memoryUuid && next.content == Trim(ask.content)
      && next.compactContent == Trim(ask.compactContent) && next.correctionReason == Trim(ask.reason)
      && next.resourceType == source.resourceType && next.resourceId == source.resourceId
      && next.correctedByUuid == principal && previous.revokeReason == "superseded by " + newId
  {}

  // ---- the gateway -----------------------------------------------------------------------

  predicate IdCharacter(c: char) { 'a' <= c <= 'z' || 'A' <= c <= 'Z' || '0' <= c <= '9' }

  predicate PublicId(id: string, limit: nat) {
    && id != "" && |id| <= limit && IdCharacter(id[0])
    && forall c | c in id :: IdCharacter(c) || c in {'_', '.', ':', '-'}
  }

  /** Public ids match [A-Za-z0-9][A-Za-z0-9_.:-]*, within the limit. */
  lemma PublicIdExactly(id: string, limit: nat)
    ensures PublicId(id, limit) <==>
      && 1 <= |id| <= limit && (forall c | c in id :: Alphanumeric(c) || c in "_.:-") && Alphanumeric(id[0])
  {
    forall c: char ensures IdCharacter(c) <==> Alphanumeric(c) { LettersAndDigits(c); }
    forall c: char ensures c in "_.:-" <==> c in {'_', '.', ':', '-'} {}
  }

  predicate Alphanumeric(c: char) {
    c in "abcdefghijklmnopqrstuvwxyz" || c in "ABCDEFGHIJKLMNOPQRSTUVWXYZ" || c in "0123456789"
  }

  lemma LettersAndDigits(c: char)
    ensures IdCharacter(c) <==> Alphanumeric(c)
  {
    LowerLetters(c);
    UpperLetters(c);
    TenDigits(c);
  }

  lemma LowerLetters(c: char)
    ensures c in "abcdefghijklmnopqrstuvwxyz" <==> 'a' <= c <= 'z'
  {
    var lower := "abcdefghijklmnopqrstuvwxyz";
    if 'a' <= c <= 'z' { assert lower[c as int - 'a' as int] == c; }
  }

  lemma UpperLetters(c: char)
    ensures c in "ABCDEFGHIJKLMNOPQRSTUVWXYZ" <==> 'A' <= c <= 'Z'
  {
    var upper := "ABCDEFGHIJKLMNOPQRSTUVWXYZ";
    if 'A' <= c <= 'Z' { assert upper[c as int - 'A' as int] == c; }
  }

  lemma TenDigits(c: char)
    ensures c in "0123456789" <==> '0' <= c <= '9'
  {}

  /** The lineage part of what the gateway checks before it passes a memory on. */
  predicate GatewayPasses(m: Memory) {
    && PublicId(m.memoryUuid, 64) && PublicId(m.memoryRootUuid, 64) && m.memoryVersion != 0
    && if m.memoryVersion == 1
       then
         && m.memoryRootUuid == m.memoryUuid
         && m.supersedesUuid == "" && m.correctedByUuid == "" && m.correctionReason == ""
       else
         && PublicId(m.supersedesUuid, 64) && PublicId(m.correctedByUuid, 64) && !Blank(m.correctionReason)
         && m.provenance.sourceType == OWNER_CORRECTION && m.provenance.sourceId == m.supersedesUuid
         && m.provenance.sequence == Decimal(m.memoryVersion)
  }

  /** A JSON member that is left out when it is empty. */
  function OmitEmpty(s: string): Option<string> { if s == "" then None else Some(s) }

  /** The memory as it is sent. */
  function Sent(m: Memory): View {
    View(m.memoryUuid, m.memoryRootUuid, m.memoryVersion, OmitEmpty(m.supersedesUuid), OmitEmpty(m.correctedByUuid),
         OmitEmpty(m.correctionReason),
         ClientProvenance(m.provenance.sourceType, m.provenance.sourceId, OmitEmpty(m.provenance.sequence)),
         !m.revoked, m.content, OmitEmpty(m.compactContent))
  }

  lemma IdNeedsNoTrim(id: string, limit: nat)
    requires PublicId(id, limit)
    ensures Trim(id) == id && !Blank(id)
  {
    assert id[0] in id && id[|id| - 1] in id;
    TrimTrimmed(id);
  }

  /** Whatever the gateway passes on, the client can parse, and the server would have stored. */
  lemma PassedMemoriesParse(m: Memory)
    requires GatewayPasses(m)
    ensures LineageParses(Sent(m))
    ensures |m.correctionReason| <= 1000 && (forall c | c in m.correctionReason :: !IsControl(c)) ==> ValidLineage(m)
  {
    IdNeedsNoTrim(m.memoryUuid, 64);
    IdNeedsNoTrim(m.memoryRootUuid, 64);
    DecimalHasOnlyDigits(m.memoryVersion);
    if m.memoryVersion > 1 {
      IdNeedsNoTrim(m.supersedesUuid, 64);
      IdNeedsNoTrim(m.correctedByUuid, 64);
      var left, right := TrimByParts(m.correctionReason, IsSpace);
      assert forall c | c in Trim(m.correctionReason) :: c in m.correctionReason;
    } else {
      assert Trim("") == "";
    }
  }

  /** The successor of a memory that passes passes too, exactly when its id and its corrector's are public ones. */
  lemma SuccessorPassesExactly(source: Memory, newId: string, principal: string, ask: Ask)
    requires Correct(source, newId, principal, ask).Some? && GatewayPasses(source)
    ensures var (previous, next) := Correct(source, newId, principal, ask).value;
      GatewayPasses(previous) && (GatewayPasses(next) <==> PublicId(newId, 64) && PublicId(principal, 64))
  {
    AppliedExactly(source, newId, principal, ask);
    DecimalHasOnlyDigits(source.memoryVersion + 1);
  }

  // ---- the client ------------------------------------------------------------------------

  predicate EcmaTrimmed(s: string) { s == "" || (!IsEcmaSpace(s[0]) && !IsEcmaSpace(s[|s| - 1])) }

  /** What the client asks for is trimmed its own way. */
  predicate AskedByClient(ask: Ask) {
    EcmaTrimmed(ask.content) && EcmaTrimmed(ask.compactContent) && EcmaTrimmed(ask.reason)
  }

  const NEXT_LINE := 0x85 as char

  /** U+0085 is white space to the server and none to the client. */
  predicate EndsInNextLine(s: string) { s != "" && (s[0] == NEXT_LINE || s[|s| - 1] == NEXT_LINE) }

  lemma ServerTrims(s: string)
    requires EcmaTrimmed(s)
    ensures Trim(s) == s <==> !EndsInNextLine(s)
  {
    if s != "" {
      if EndsInNextLine(s) {
        TrimIsTrimmed(s);
      } else {
        TrimTrimmed(s);
      }
    }
  }

  /** The client accepts the answer to a correction that was applied exactly when it asked for some compact content, and
      no text it sent begins or ends in a character that only the server trims. In every other case the correction has
      been made and the client reports that it failed: an empty compact content is left out of the answer. */
  lemma AnswerAcceptedExactly(source: Memory, newId: string, principal: string, ask: Ask)
    requires AskedByClient(ask) && ask.memoryId == source.memoryUuid
    requires Correct(source, newId, principal, ask).Some?
    requires var (previous, next) := Correct(source, newId, principal, ask).value;
      GatewayPasses(previous) && GatewayPasses(next)
    ensures var (previous, next) := Correct(source, newId, principal, ask).value;
      CorrectionAccepted(Sent(previous), Sent(next), ask) <==>
        && ask.compactContent != ""
        && !EndsInNextLine(ask.content) && !EndsInNextLine(ask.compactContent) && !EndsInNextLine(ask.reason)
  {
    var (previous, next) := Correct(source, newId, principal, ask).value;
    PassedMemoriesParse(previous);
    PassedMemoriesParse(next);
    AppliedCorrectionExtendsTheChain(source, newId, principal, ask);
    ServerTrims(ask.content);
    ServerTrims(ask.compactContent);
    ServerTrims(ask.reason);
  }

  const SAMPLE :=
    Memory("a", "a", 1, "", "", "", Provenance("s", "s", "", ""), false, "", "old", "", "r", "r", false, "", "")
  const SAMPLE_ASK := Ask("a", 1, "new", "", "why")

  lemma SampleIsApplied()
    ensures Correct(SAMPLE, "b", "u", SAMPLE_ASK).Some?
    ensures GatewayPasses(SAMPLE) && AskedByClient(SAMPLE_ASK)
  {
    TrimTrimmed("a");
    TrimTrimmed("");
    TrimTrimmed("u");
    TrimTrimmed("new");
    TrimTrimmed("why");
  }

  /** A memory that is corrected without any compact content: the server stores version 2, and the client refuses the
      answer. */
  lemma MadeButReportedAsFailed() returns (source: Memory, ask: Ask)
    ensures AskedByClient(ask) && ask.memoryId == source.memoryUuid && GatewayPasses(source)
    ensures Correct(source, "b", "u", ask).Some?
    ensures var (previous, next) := Correct(source, "b", "u", ask).value;
      && GatewayPasses(previous) && GatewayPasses(next) && next.memoryVersion == 2
      && !CorrectionAccepted(Sent(previous), Sent(next), ask)
  {
    source, ask := SAMPLE, SAMPLE_ASK;
    SampleIsApplied();
    SuccessorPassesExactly(source, "b", "u", ask);
    AnswerAcceptedExactly(source, "b", "u", ask);
  }
}
