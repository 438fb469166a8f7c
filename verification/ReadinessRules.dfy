/** What external MCP readiness evidence (internal/application/agent_mcp_readiness_evidence.go) is accepted,
    and what is then recorded of it, written out: limits, members and lines. */
module ReadinessRules {
  import opened Text
  import opened Wrappers
  import opened IsoTime
  import opened ReadinessEvidence

  /** Sixty-four lower-case hexadecimal digits, with white space around them. */
  ghost predicate IsDigest(value: string) {
    exists left, core, right ::
      && value == left + core + right && AllOf(left, IsSpace) && AllOf(right, IsSpace)
      && |core| == 64 && forall k | 0 <= k < 64 :: core[k] in "0123456789abcdef"
  }

  lemma HexDigit(c: char)
    ensures c in "0123456789abcdef" <==> '0' <= c <= '9' || 'a' <= c <= 'f'
  {}

  lemma DigestExactly(value: string)
    ensures ValidSha256(value) <==> IsDigest(value)
  {
    if ValidSha256(value) {
      var left, right := TrimByParts(value, IsSpace);
      var core := Trim(value);
      forall k | 0 <= k < 64 ensures core[k] in "0123456789abcdef" {
        assert core[k] in core;
        HexDigit(core[k]);
      }
    }
    if IsDigest(value) {
      var left, core, right :|
        && value == left + core + right && AllOf(left, IsSpace) && AllOf(right, IsSpace)
        && |core| == 64 && forall k | 0 <= k < 64 :: core[k] in "0123456789abcdef";
      DigestIsValid(left, core, right);
    }
  }

  lemma DigestIsValid(left: string, core: string, right: string)
    requires AllOf(left, IsSpace) && AllOf(right, IsSpace)
    requires |core| == 64 && forall k | 0 <= k < 64 :: core[k] in "0123456789abcdef"
    ensures ValidSha256(left + core + right)
  {
    forall k | 0 <= k < 64 ensures '0' <= core[k] <= '9' || 'a' <= core[k] <= 'f' { HexDigit(core[k]); }
    TrimByExactly(left, core, right, IsSpace);
  }

  /** Not empty, no white space at either end, no longer than the limit. */
  predicate Identifies(p: Platform, value: string, limit: nat) {
    value != "" && !IsSpace(value[0]) && !IsSpace(value[|value| - 1]) && p.byteLength(value) <= limit
  }

  lemma IdentifierExactly(p: Platform, value: string, limit: nat)
    ensures ValidIdentifier(p, value, limit) <==> Identifies(p, value, limit)
  {
    TrimIsTrimmed(value);
    if Trimmed(value) { TrimTrimmed(value); }
  }

  /** The whole milliseconds of an instant. */
  function Millis(t: int): int { t / 1_000_000 }

  predicate Between(low: int, n: int, high: int) { low <= n <= high }

  /** Checks begin, preflight, connectivity and end in this order within ten minutes, a few of everything, no more
      credentials or bundles than profiles. */
  ghost predicate GoodEvidence(e: Evidence) {
    var start, preflight, connectivity, end :=
      Millis(e.startedAt), Millis(e.preflightCheckedAt), Millis(e.connectivityCheckedAt), Millis(e.completedAt);
    && e.schemaVersion == "dipole.agent.external-mcp-readiness-evidence.v2"
    && IsDigest(e.bindingSha256) && IsDigest(e.profileBindingSha256)
    && start != 0 && start <= preflight <= connectivity <= end <= start + 600_000
    && Between(1, e.profileCount, 64)
    && Between(1, e.credentialCount, e.profileCount) && Between(1, e.caBundleCount, e.profileCount)
    && Between(1, e.toolCount, 256)
  }

  lemma TruncateIsMillis(t: int)
    ensures Truncate(t) == 1_000_000 * Millis(t)
  {}

  lemma SoundExactly(e: Evidence)
    ensures Sound(Truncated(e)) <==> GoodEvidence(e)
  {
    DigestExactly(e.bindingSha256);
    DigestExactly(e.profileBindingSha256);
    TruncateIsMillis(e.startedAt);
    TruncateIsMillis(e.completedAt);
    TruncateIsMillis(e.preflightCheckedAt);
    TruncateIsMillis(e.connectivityCheckedAt);
  }

  /** The operator's id without its white space. */
  ghost predicate Operates(p: Platform, operatorUuid: string, operator: string) {
    && Identifies(p, operator, 64)
    && exists left, right :: operatorUuid == left + operator + right && AllOf(left, IsSpace) && AllOf(right, IsSpace)
  }

  lemma OperatorExactly(p: Platform, operatorUuid: string, operator: string)
    ensures Operates(p, operatorUuid, operator) <==>
      operator == Trim(operatorUuid) && ValidIdentifier(p, Trim(operatorUuid), 64)
  {
    IdentifierExactly(p, operator, 64);
    var l, r := TrimByParts(operatorUuid, IsSpace);
    if Operates(p, operatorUuid, operator) {
      var left, right :| operatorUuid == left + operator + right && AllOf(left, IsSpace) && AllOf(right, IsSpace);
      TrimByExactly(left, operator, right, IsSpace);
    }
  }

  /** Requests are recorded for an operator exactly when the callers are named, the profile is the evidence's own, the
      evidence is good, and the record expires within the hour after its end. */
  ghost predicate Recordable(p: Platform, operator: string, request: Request) {
    && Identifies(p, request.tenantId, 64)
    && (request.requestId == "" || Identifies(p, request.requestId, 128))
    && (request.traceId == "" || Identifies(p, request.traceId, 128))
    && request.profileBindingSha256 == request.evidence.profileBindingSha256
    && GoodEvidence(request.evidence)
    && Between(1, Millis(request.expiresAt) - Millis(request.evidence.completedAt), 3_600_000)
  }

  /** The members of the content, in order. */
  function Content(e: Evidence): Payload {
    Document(
      [(SchemaVersion, TextValue("dipole.agent.external-mcp-readiness-evidence.v2")),
       (BindingSha256, TextValue(e.bindingSha256)), (ProfileBindingSha256, TextValue(e.profileBindingSha256)),
       (StartedAt, TextValue(IsoMilliseconds(e.startedAt))), (CompletedAt, TextValue(IsoMilliseconds(e.completedAt))),
       (PreflightCheckedAt, TextValue(IsoMilliseconds(e.preflightCheckedAt))),
       (ConnectivityCheckedAt, TextValue(IsoMilliseconds(e.connectivityCheckedAt))),
       (ProfileCount, NumberValue(e.profileCount)), (CredentialCount, NumberValue(e.credentialCount)),
       (CaBundleCount, NumberValue(e.caBundleCount)), (ToolCount, NumberValue(e.toolCount))], false, "")
  }

  /** What is written of such a request. */
  ghost predicate RecordedAs(p: Platform, operator: string, request: Request, r: Record) {
    var e := request.evidence;
    && r.content == Content(e)
    && r.contentSha256 == p.contentDigest(r.content)
    && r.evidenceUuid == p.textDigest(Join(
         ["dipole.agent.external-mcp-readiness-evidence-record.v1", request.tenantId, request.profileBindingSha256,
          e.bindingSha256, r.contentSha256, operator, request.requestId, request.traceId,
          IsoMilliseconds(request.expiresAt)], '\n'))
    && r.schemaVersion == "dipole.agent.external-mcp-readiness-evidence-record.v1" && r.status == "recorded"
    && r.tenantId == request.tenantId && r.profileBindingSha256 == request.profileBindingSha256
    && r.runtimeBindingSha256 == e.bindingSha256 && r.operatorUuid == operator
    && r.requestId == request.requestId && r.traceId == request.traceId
    && r.collectedAt == 1_000_000 * Millis(e.completedAt) && r.expiresAt == 1_000_000 * Millis(request.expiresAt)
  }

  lemma RecordableExactly(p: Platform, operatorUuid: string, request: Request)
    ensures NewRecord(p, operatorUuid, request).Ok? <==>
      exists operator :: Operates(p, operatorUuid, operator) && Recordable(p, operator, request)
  {
    BuiltExactly(p, operatorUuid, request);
    OperatorExactly(p, operatorUuid, Trim(operatorUuid));
    IdentifierExactly(p, request.tenantId, 64);
    IdentifierExactly(p, request.requestId, 128);
    IdentifierExactly(p, request.traceId, 128);
    DigestExactly(request.profileBindingSha256);
    SoundExactly(request.evidence);
    TruncateIsMillis(request.expiresAt);
    TruncateIsMillis(request.evidence.completedAt);
    if operator :| Operates(p, operatorUuid, operator) && Recordable(p, operator, request) {
      OperatorExactly(p, operatorUuid, operator);
    }
  }

  lemma ThreeFourFour<T>(a: T, b: T, c: T, d: T, e: T, f: T, g: T, h: T, i: T, j: T, k: T)
    ensures [a, b, c] + [d, e, f, g] + [h, i, j, k] == [a, b, c, d, e, f, g, h, i, j, k]
  {}

  lemma MembersAre(e: Evidence)
    requires e.schemaVersion == "dipole.agent.external-mcp-readiness-evidence.v2"
    ensures Marshal(Truncated(e)) == Content(e)
  {
    TimesAre(e);
    var x, t, n := TextMembers(Truncated(e)), TimeMembers(Truncated(e)), CountMembers(Truncated(e));
    ThreeFourFour(x[0], x[1], x[2], t[0], t[1], t[2], t[3], n[0], n[1], n[2], n[3]);
    assert x == [x[0], x[1], x[2]] && t == [t[0], t[1], t[2], t[3]] && n == [n[0], n[1], n[2], n[3]];
  }

  lemma TimesAre(e: Evidence)
    ensures TimeMembers(Truncated(e)) == TimeMembers(e)
  {
    TruncateIdempotent(e.startedAt);
    TruncateIdempotent(e.completedAt);
    TruncateIdempotent(e.preflightCheckedAt);
    TruncateIdempotent(e.connectivityCheckedAt);
  }

  /** The record of a request says what the request says, in these members and lines. */
  lemma RecordSaysSo(p: Platform, operatorUuid: string, operator: string, request: Request)
    requires NewRecord(p, operatorUuid, request).Ok? && Operates(p, operatorUuid, operator)
    ensures RecordedAs(p, operator, request, NewRecord(p, operatorUuid, request).value)
  {
    BuiltFields(p, operatorUuid, request);
    BuiltExactly(p, operatorUuid, request);
    OperatorExactly(p, operatorUuid, operator);
    MembersAre(request.evidence);
    TruncateIdempotent(request.expiresAt);
    TruncateIsMillis(request.expiresAt);
    TruncateIsMillis(request.evidence.completedAt);
  }

  // ---- content that is refused -----------------------------------------------------------

  predicate Readable(key: Key, value: Value) { !key.UnknownKey? && !value.OtherValue? }

  lemma {:induction false} UnreadableMember(e: Evidence, members: seq<(Key, Value)>, parse: TimeParser, k: nat)
    requires k < |members| && !Readable(members[k].0, members[k].1)
    ensures DecodeMembers(e, members, parse).None?
    decreases |members|
  {
    if k > 0 {
      match WithMember(e, members[0].0, members[0].1, parse)
      case None =>
      case Some(next) => UnreadableMember(next, members[1..], parse, k - 1);
    }
  }

  /** Content with an unknown key anywhere, or with anything behind the object, is refused whatever else it says. */
  lemma ForeignContentIsRefused(parse: TimeParser, members: seq<(Key, Value)>, trailing: bool, layout: string, k: nat)
    requires trailing || (k < |members| && !Readable(members[k].0, members[k].1))
    ensures ParseEvidence(parse, Document(members, trailing, layout)) == Err(EvidenceInvalid)
  {
    if !trailing { UnreadableMember(ZERO, members, parse, k); }
  }

  /** A null under a known key says nothing. */
  lemma NullsAreSkipped(parse: TimeParser, a: seq<(Key, Value)>, key: Key, b: seq<(Key, Value)>, layout: string)
    requires !key.UnknownKey?
    ensures ParseEvidence(parse, Document(a + [(key, NullValue)] + b, false, layout))
         == ParseEvidence(parse, Document(a + b, false, layout))
  {
    DecodeAppend(ZERO, a + [(key, NullValue)], b, parse);
    DecodeAppend(ZERO, a, [(key, NullValue)], parse);
    DecodeAppend(ZERO, a, b, parse);
    assert [(key, NullValue)][1..] == [];
  }

  /** Whatever content is accepted, what is read is good evidence in whole milliseconds. */
  lemma ReadEvidenceIsGood(parse: TimeParser, content: Payload)
    requires ParseEvidence(parse, content).Ok?
    ensures var e := ParseEvidence(parse, content).value;
      GoodEvidence(e) && forall t | t in [e.startedAt, e.completedAt, e.preflightCheckedAt, e.connectivityCheckedAt] ::
        t % 1_000_000 == 0
  {
    var decoded := DecodeMembers(ZERO, content.members, parse).value;
    var e := ParseEvidence(parse, content).value;
    assert e == Truncated(decoded);
    TruncatedTwice(decoded);
    SoundExactly(e);
    TruncateIsMillis(decoded.startedAt);
    TruncateIsMillis(decoded.completedAt);
    TruncateIsMillis(decoded.preflightCheckedAt);
    TruncateIsMillis(decoded.connectivityCheckedAt);
  }

  /** The two agree in what this key stands for. */
  predicate SameField(key: Key, a: Evidence, b: Evidence) {
    match key
    case SchemaVersion => a.schemaVersion == b.schemaVersion
    case BindingSha256 => a.bindingSha256 == b.bindingSha256
    case ProfileBindingSha256 => a.profileBindingSha256 == b.profileBindingSha256
    case StartedAt => a.startedAt == b.startedAt
    case CompletedAt => a.completedAt == b.completedAt
    case PreflightCheckedAt => a.preflightCheckedAt == b.preflightCheckedAt
    case ConnectivityCheckedAt => a.connectivityCheckedAt == b.connectivityCheckedAt
    case ProfileCount => a.profileCount == b.profileCount
    case CredentialCount => a.credentialCount == b.credentialCount
    case CaBundleCount => a.caBundleCount == b.caBundleCount
    case ToolCount => a.toolCount == b.toolCount
    case UnknownKey(_) => true
  }

  /** Says nothing of this key. */
  predicate Silent(members: seq<(Key, Value)>, key: Key) { forall m | m in members && m.0 == key :: m.1 == NullValue }

  lemma OtherKeysStay(e: Evidence, m: (Key, Value), parse: TimeParser, key: Key)
    requires WithMember(e, m.0, m.1, parse).Some? && (m.0 == key ==> m.1 == NullValue)
    ensures SameField(key, e, WithMember(e, m.0, m.1, parse).value)
  {}

  lemma {:induction false} SilentKeysStay(e: Evidence, members: seq<(Key, Value)>, parse: TimeParser, key: Key)
    requires DecodeMembers(e, members, parse).Some? && Silent(members, key)
    ensures SameField(key, e, DecodeMembers(e, members, parse).value)
    decreases |members|
  {
    if members != [] {
      assert members[0] in members;
      var next := WithMember(e, members[0].0, members[0].1, parse).value;
      OtherKeysStay(e, members[0], parse, key);
      SilentKeysStay(next, members[1..], parse, key);
    }
  }

  /** Content that leaves out the schema, a digest, a count or when it began is refused; and so is content that leaves
      out one of the other times, unless it began before the year 1, whose first instant a missing time stands for. */
  lemma MissingMemberIsRefused(parse: TimeParser, content: Payload, key: Key)
    requires content.Document? && Silent(content.members, key) && !key.UnknownKey?
    ensures ParseEvidence(parse, content).Ok? ==>
      && key in {CompletedAt, PreflightCheckedAt, ConnectivityCheckedAt}
      && ParseEvidence(parse, content).value.startedAt < 0
  {
    if ParseEvidence(parse, content).Ok? {
      var e := DecodeMembers(ZERO, content.members, parse).value;
      SilentKeysStay(ZERO, content.members, parse, key);
      TruncateIsMillis(0);
      assert ParseEvidence(parse, content).value == Truncated(e) && Sound(Truncated(e));
      BlankIsNoDigest();
    }
  }

  lemma BlankIsNoDigest()
    ensures !ValidSha256("")
  {}
}
