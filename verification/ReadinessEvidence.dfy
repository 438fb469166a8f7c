/** External MCP readiness evidence (internal/application/agent_mcp_readiness_evidence.go): a record is built from
    canonical content, and is checked by parsing that content and building it again. */
module ReadinessEvidence {
  import opened Text
  import opened Wrappers
  import opened IsoTime

  datatype Error = EvidenceInvalid

  type Uint32 = n: int | 0 <= n < 0x1_0000_0000

  datatype Evidence = Evidence(
    schemaVersion: string, bindingSha256: string, profileBindingSha256: string,
    startedAt: int, completedAt: int, preflightCheckedAt: int, connectivityCheckedAt: int,
    profileCount: Uint32, credentialCount: Uint32, caBundleCount: Uint32, toolCount: Uint32)

  datatype Key =
    | SchemaVersion | BindingSha256 | ProfileBindingSha256 | StartedAt | CompletedAt | PreflightCheckedAt
    | ConnectivityCheckedAt | ProfileCount | CredentialCount | CaBundleCount | ToolCount | UnknownKey(text: string)

  datatype Value = NullValue | TextValue(s: string) | NumberValue(n: int) | OtherValue(text: string)

  /** A content payload: what its bytes decode to, keys standing for the fields they are matched to, and how they are
      laid out and spelled, which the canonical form leaves empty. */
  datatype Payload = Malformed(bytes: string) | Document(members: seq<(Key, Value)>, trailing: bool, layout: string)

  datatype Request = Request(
    tenantId: string, profileBindingSha256: string, requestId: string, traceId: string, expiresAt: int,
    evidence: Evidence)

  datatype Record = Record(
    evidenceUuid: string, schemaVersion: string, tenantId: string, profileBindingSha256: string,
    runtimeBindingSha256: string, contentSha256: string, content: Payload,
    operatorUuid: string, requestId: string, traceId: string, status: string,
    collectedAt: int, expiresAt: int, createdAt: int)

  /** The JSON decoder's reader of timestamps. */
  type TimeParser = string -> Option<int>

  /** What lies outside the model: SHA-256 of content and of text, the byte length of a string, and how timestamps
      are read. */
  datatype Platform = Platform(
    contentDigest: Payload -> string, textDigest: string -> string, byteLength: string -> nat, parseTime: TimeParser)

  const EVIDENCE_SCHEMA := "dipole.agent.external-mcp-readiness-evidence.v2"
  const RECORD_SCHEMA := "dipole.agent.external-mcp-readiness-evidence-record.v1"
  const RECORDED := "recorded"
  const MINUTE := 60000000000
  const NEWLINE := '\n'

  predicate ValidSha256(value: string) {
    var v := Trim(value);
    |v| == 64 && forall c | c in v :: '0' <= c <= '9' || 'a' <= c <= 'f'
  }

  predicate ValidIdentifier(p: Platform, value: string, limit: nat) {
    value != "" && value == Trim(value) && p.byteLength(value) <= limit
  }

  predicate ValidOptionalIdentifier(p: Platform, value: string, limit: nat) {
    value == "" || ValidIdentifier(p, value, limit)
  }

  // ---- canonical content -----------------------------------------------------------------

  function Truncated(e: Evidence): Evidence {
    e.(startedAt := Truncate(e.startedAt), completedAt := Truncate(e.completedAt),
       preflightCheckedAt := Truncate(e.preflightCheckedAt), connectivityCheckedAt := Truncate(e.connectivityCheckedAt))
  }

  predicate Sound(e: Evidence) {
    && e.schemaVersion == EVIDENCE_SCHEMA && ValidSha256(e.bindingSha256) && ValidSha256(e.profileBindingSha256)
    && e.startedAt != 0 && e.startedAt <= e.completedAt && e.completedAt - e.startedAt <= 10 * MINUTE
    && e.startedAt <= e.preflightCheckedAt <= e.completedAt
    && e.preflightCheckedAt <= e.connectivityCheckedAt <= e.completedAt
    && 1 <= e.profileCount <= 64 && 1 <= e.credentialCount <= 64 && e.credentialCount <= e.profileCount
    && 1 <= e.caBundleCount <= 64 && e.caBundleCount <= e.profileCount && 1 <= e.toolCount <= 256
  }

  function TextMembers(e: Evidence): seq<(Key, Value)> {
    [(SchemaVersion, TextValue(e.schemaVersion)), (BindingSha256, TextValue(e.bindingSha256)),
     (ProfileBindingSha256, TextValue(e.profileBindingSha256))]
  }

  function TimeMembers(e: Evidence): seq<(Key, Value)> {
    [(StartedAt, TextValue(IsoMilliseconds(e.startedAt))), (CompletedAt, TextValue(IsoMilliseconds(e.completedAt))),
     (PreflightCheckedAt, TextValue(IsoMilliseconds(e.preflightCheckedAt))),
     (ConnectivityCheckedAt, TextValue(IsoMilliseconds(e.connectivityCheckedAt)))]
  }

  function CountMembers(e: Evidence): seq<(Key, Value)> {
    [(ProfileCount, NumberValue(e.profileCount)), (CredentialCount, NumberValue(e.credentialCount)),
     (CaBundleCount, NumberValue(e.caBundleCount)), (ToolCount, NumberValue(e.toolCount))]
  }

  function Marshal(e: Evidence): Payload {
    Document(TextMembers(e) + TimeMembers(e) + CountMembers(e), false, "")
  }

  function Canonical(evidence: Evidence): Result<(Evidence, Payload), Error> {
    var e := Truncated(evidence);
    if Sound(e) then Ok((e, Marshal(e))) else Err(EvidenceInvalid)
  }

  // ---- parsing ---------------------------------------------------------------------------

  /** The zero value a decoder starts from. */
  const ZERO := Evidence("", "", "", 0, 0, 0, 0, 0, 0, 0, 0)

  function WithText(e: Evidence, key: Key, s: string, parse: TimeParser): Option<Evidence> {
    match key
    case SchemaVersion => Some(e.(schemaVersion := s))
    case BindingSha256 => Some(e.(bindingSha256 := s))
    case ProfileBindingSha256 => Some(e.(profileBindingSha256 := s))
    case StartedAt => (match parse(s) case None => None case Some(t) => Some(e.(startedAt := t)))
    case CompletedAt => (match parse(s) case None => None case Some(t) => Some(e.(completedAt := t)))
    case PreflightCheckedAt => (match parse(s) case None => None case Some(t) => Some(e.(preflightCheckedAt := t)))
    case ConnectivityCheckedAt =>
      (match parse(s) case None => None case Some(t) => Some(e.(connectivityCheckedAt := t)))
    case _ => None
  }

  function WithNumber(e: Evidence, key: Key, n: int): Option<Evidence> {
    if !(0 <= n < 0x1_0000_0000) then None
    else
      match key
      case ProfileCount => Some(e.(profileCount := n))
      case CredentialCount => Some(e.(credentialCount := n))
      case CaBundleCount => Some(e.(caBundleCount := n))
      case ToolCount => Some(e.(toolCount := n))
      case _ => None
  }

  /** One member of the object; a null leaves the field alone, an unknown key is refused. */
  function WithMember(e: Evidence, key: Key, value: Value, parse: TimeParser): Option<Evidence> {
    if key.UnknownKey? then None
    else
      match value
      case NullValue => Some(e)
      case TextValue(s) => WithText(e, key, s, parse)
      case NumberValue(n) => WithNumber(e, key, n)
      case OtherValue(_) => None
  }

  function DecodeMembers(e: Evidence, members: seq<(Key, Value)>, parse: TimeParser): Option<Evidence>
    decreases |members|
  {
    if members == [] then Some(e)
    else
      match WithMember(e, members[0].0, members[0].1, parse)
      case None => None
      case Some(next) => DecodeMembers(next, members[1..], parse)
  }

  function ParseEvidence(parse: TimeParser, content: Payload): Result<Evidence, Error> {
    match content
    case Malformed(_) => Err(EvidenceInvalid)
    case Document(members, trailing, _) =>
      match DecodeMembers(ZERO, members, parse)
      case None => Err(EvidenceInvalid)
      case Some(e) =>
        if trailing then Err(EvidenceInvalid)
        else
          match Canonical(e)
          case Err(error) => Err(error)
          case Ok((validated, _)) => Ok(validated)
  }

  // ---- records ---------------------------------------------------------------------------

  function Identity(
      tenant: string, profile: string, binding: string, content: string, operator: string, request: string,
                    trace: string, expiresAt: int): seq<string> {
    [RECORD_SCHEMA, tenant, profile, binding, content, operator, request, trace, IsoMilliseconds(expiresAt)]
  }

  function NewRecord(p: Platform, operatorUuid: string, request: Request): Result<Record, Error> {
    var operator := Trim(operatorUuid);
    if !ValidIdentifier(p, operator, 64) || !ValidIdentifier(p, request.tenantId, 64)
       || !ValidSha256(request.profileBindingSha256)
       || request.profileBindingSha256 != request.evidence.profileBindingSha256
       || !ValidOptionalIdentifier(p, request.requestId, 128) || !ValidOptionalIdentifier(p, request.traceId, 128)
    then Err(EvidenceInvalid)
    else
      match Canonical(request.evidence)
      case Err(error) => Err(error)
      case Ok((e, content)) =>
        var expiresAt := Truncate(request.expiresAt);
        if expiresAt <= e.completedAt || expiresAt - e.completedAt > 60 * MINUTE then Err(EvidenceInvalid)
        else
          var digest := p.contentDigest(content);
          var lines := Identity(request.tenantId, request.profileBindingSha256, e.bindingSha256, digest, operator,
                                request.requestId, request.traceId, expiresAt);
          var identity := Join(lines, NEWLINE);
          Ok(Record(p.textDigest(identity), RECORD_SCHEMA, request.tenantId, request.profileBindingSha256,
                    e.bindingSha256, digest, content, operator, request.requestId, request.traceId, RECORDED,
                    e.completedAt, expiresAt, 0))
  }

  /** The request a record is rebuilt from. */
  function RequestOf(record: Record, evidence: Evidence): Request {
    Request(record.tenantId, record.profileBindingSha256, record.requestId, record.traceId, record.expiresAt, evidence)
  }

  predicate Validates(p: Platform, record: Record) {
    match ParseEvidence(p.parseTime, record.content)
    case Err(_) => false
    case Ok(evidence) =>
      match NewRecord(p, record.operatorUuid, RequestOf(record, evidence))
      case Err(_) => false
      case Ok(rebuilt) =>
        && record.evidenceUuid == rebuilt.evidenceUuid && record.schemaVersion == rebuilt.schemaVersion
        && record.runtimeBindingSha256 == rebuilt.runtimeBindingSha256 && record.contentSha256 == rebuilt.contentSha256
        && record.status == rebuilt.status && record.content == rebuilt.content
        && Truncate(record.collectedAt) == rebuilt.collectedAt
  }

  // ---- the content is a fixed point ------------------------------------------------------

  lemma TruncatedTwice(e: Evidence)
    ensures Truncated(Truncated(e)) == Truncated(e)
  {
    TruncateIdempotent(e.startedAt);
    TruncateIdempotent(e.completedAt);
    TruncateIdempotent(e.preflightCheckedAt);
    TruncateIdempotent(e.connectivityCheckedAt);
  }

  /** Canonical content, made canonical again, is unchanged. */
  lemma CanonicalIdempotent(e: Evidence)
    requires Canonical(e).Ok?
    ensures Canonical(Canonical(e).value.0) == Canonical(e)
  {
    TruncatedTwice(e);
  }

  predicate FourDigitYears(e: Evidence) {
    && FourDigits(CivilOf(e.startedAt).year) && FourDigits(CivilOf(e.completedAt).year)
    && FourDigits(CivilOf(e.preflightCheckedAt).year) && FourDigits(CivilOf(e.connectivityCheckedAt).year)
  }

  lemma {:induction false} DecodeAppend(e: Evidence, a: seq<(Key, Value)>, b: seq<(Key, Value)>, parse: TimeParser)
    ensures DecodeMembers(e, a + b, parse) ==
      match DecodeMembers(e, a, parse) case None => None case Some(x) => DecodeMembers(x, b, parse)
    decreases |a|
  {
    if a == [] {
      assert a + b == b;
    } else {
      assert (a + b)[1..] == a[1..] + b;
      match WithMember(e, a[0].0, a[0].1, parse)
      case None =>
      case Some(next) => DecodeAppend(next, a[1..], b, parse);
    }
  }

  lemma DecodeOne(e: Evidence, key: Key, value: Value, rest: seq<(Key, Value)>, parse: TimeParser)
    ensures DecodeMembers(e, [(key, value)] + rest, parse) ==
      match WithMember(e, key, value, parse) case None => None case Some(x) => DecodeMembers(x, rest, parse)
  {
    assert ([(key, value)] + rest)[1..] == rest;
  }

  /** Four members, one after the other. */
  lemma DecodeFour(e: Evidence, m: seq<(Key, Value)>, parse: TimeParser)
    requires |m| == 4
    ensures DecodeMembers(e, m, parse) ==
      match WithMember(e, m[0].0, m[0].1, parse)
      case None => None
      case Some(w) =>
        match WithMember(w, m[1].0, m[1].1, parse)
        case None => None
        case Some(x) =>
          match WithMember(x, m[2].0, m[2].1, parse)
          case None => None
          case Some(y) => WithMember(y, m[3].0, m[3].1, parse)
  {
    assert m == [(m[0].0, m[0].1)] + m[1..] && m[1..] == [(m[1].0, m[1].1)] + m[2..];
    assert m[2..] == [(m[2].0, m[2].1)] + m[3..] && m[3..] == [(m[3].0, m[3].1)] + [];
    DecodeOne(e, m[0].0, m[0].1, m[1..], parse);
    match WithMember(e, m[0].0, m[0].1, parse) {
      case None =>
      case Some(w) =>
        DecodeOne(w, m[1].0, m[1].1, m[2..], parse);
        match WithMember(w, m[1].0, m[1].1, parse) {
          case None =>
          case Some(x) =>
            DecodeOne(x, m[2].0, m[2].1, m[3..], parse);
            match WithMember(x, m[2].0, m[2].1, parse) {
              case None =>
              case Some(y) => DecodeOne(y, m[3].0, m[3].1, [], parse);
            }
        }
    }
  }

  lemma DecodeTexts(e: Evidence, parse: TimeParser)
    ensures DecodeMembers(ZERO, TextMembers(e), parse) == Some(
      ZERO.(schemaVersion := e.schemaVersion, bindingSha256 := e.bindingSha256,
            profileBindingSha256 := e.profileBindingSha256))
  {
    var m := TextMembers(e);
    var x := ZERO.(schemaVersion := e.schemaVersion);
    var y := x.(bindingSha256 := e.bindingSha256);
    assert m == [m[0]] + [m[1], m[2]] && [m[1], m[2]] == [m[1]] + [m[2]] && [m[2]] == [m[2]] + [];
    DecodeOne(ZERO, m[0].0, m[0].1, [m[1], m[2]], parse);
    DecodeOne(x, m[1].0, m[1].1, [m[2]], parse);
    DecodeOne(y, m[2].0, m[2].1, [], parse);
  }

  lemma DecodeTimeTexts(
      x: Evidence, m: seq<(Key, Value)>, s: string, c: string, p: string, n: string, parse: TimeParser)
    requires m == [(StartedAt, TextValue(s)), (CompletedAt, TextValue(c)), (PreflightCheckedAt, TextValue(p)),
                   (ConnectivityCheckedAt, TextValue(n))]
    ensures DecodeMembers(x, m, parse) ==
      if parse(s).Some? && parse(c).Some? && parse(p).Some? && parse(n).Some?
      then Some(x.(startedAt := parse(s).value, completedAt := parse(c).value,
                   preflightCheckedAt := parse(p).value, connectivityCheckedAt := parse(n).value))
      else None
  {
    DecodeFour(x, m, parse);
  }

  /** However many other spellings it may accept, the reader takes the canonical one of a four-digit year for what
      it says, and refuses that of any other year. */
  ghost predicate ReadsIso(parse: TimeParser) {
    forall t :: parse(IsoMilliseconds(t)) == if FourDigits(CivilOf(t).year) then Some(Truncate(t)) else None
  }

  lemma StrictParserReadsIso()
    ensures ReadsIso(Parse)
  {
    forall t ensures Parse(IsoMilliseconds(t)) == if FourDigits(CivilOf(t).year) then Some(Truncate(t)) else None {
      ParseIsoMilliseconds(t);
    }
  }

  lemma DecodeTimes(x: Evidence, e: Evidence, parse: TimeParser)
    requires ReadsIso(parse)
    ensures DecodeMembers(x, TimeMembers(e), parse) ==
      if FourDigitYears(e) then Some(x.(startedAt := Truncate(e.startedAt), completedAt := Truncate(e.completedAt),
                                        preflightCheckedAt := Truncate(e.preflightCheckedAt),
                                        connectivityCheckedAt := Truncate(e.connectivityCheckedAt)))
      else None
  {
    DecodeTimeTexts(x, TimeMembers(e), IsoMilliseconds(e.startedAt), IsoMilliseconds(e.completedAt),
                    IsoMilliseconds(e.preflightCheckedAt), IsoMilliseconds(e.connectivityCheckedAt), parse);
  }

  lemma DecodeCounts(x: Evidence, e: Evidence, parse: TimeParser)
    ensures DecodeMembers(x, CountMembers(e), parse) ==
      Some(x.(profileCount := e.profileCount, credentialCount := e.credentialCount, caBundleCount := e.caBundleCount,
              toolCount := e.toolCount))
  {
    DecodeFour(x, CountMembers(e), parse);
  }

  /** Marshalled content decodes to the evidence it was made from, and does so exactly while every year has four
      digits. */
  lemma MarshalRoundTrip(e: Evidence, parse: TimeParser)
    requires ReadsIso(parse)
    ensures DecodeMembers(ZERO, Marshal(e).members, parse) == if FourDigitYears(e) then Some(Truncated(e)) else None
  {
    DecodeTexts(e, parse);
    var x := ZERO.(schemaVersion := e.schemaVersion, bindingSha256 := e.bindingSha256,
                   profileBindingSha256 := e.profileBindingSha256);
    DecodeAppend(ZERO, TextMembers(e) + TimeMembers(e), CountMembers(e), parse);
    DecodeAppend(ZERO, TextMembers(e), TimeMembers(e), parse);
    DecodeTimes(x, e, parse);
    if FourDigitYears(e) {
      DecodeCounts(DecodeMembers(x, TimeMembers(e), parse).value, e, parse);
    }
  }

  lemma ParseOfCanonical(evidence: Evidence, parse: TimeParser)
    requires ReadsIso(parse) && Canonical(evidence).Ok?
    ensures var (e, content) := Canonical(evidence).value;
      ParseEvidence(parse, content) == if FourDigitYears(e) then Ok(e) else Err(EvidenceInvalid)
  {
    var e := Truncated(evidence);
    TruncatedTwice(evidence);
    MarshalRoundTrip(e, parse);
    ParseOfDecoded(parse, Marshal(e).members, DecodeMembers(ZERO, Marshal(e).members, parse));
  }

  lemma ParseOfDecoded(parse: TimeParser, members: seq<(Key, Value)>, decoded: Option<Evidence>)
    requires DecodeMembers(ZERO, members, parse) == decoded
    ensures decoded.None? ==> ParseEvidence(parse, Document(members, false, "")) == Err(EvidenceInvalid)
    ensures decoded.Some? && Sound(Truncated(decoded.value)) ==>
      ParseEvidence(parse, Document(members, false, "")) == Ok(Truncated(decoded.value))
  {}

  // ---- building and validating agree -----------------------------------------------------

  /** The instants of a built record's content all have four-digit years. */
  predicate PrintsInFourDigits(request: Request) { FourDigitYears(Truncated(request.evidence)) }

  /** A record without what validation does not look at: its creation time, parts of a millisecond, and white
      space around the operator. */
  function Normalized(record: Record): Record {
    record.(operatorUuid := Trim(record.operatorUuid), collectedAt := Truncate(record.collectedAt),
            expiresAt := Truncate(record.expiresAt), createdAt := 0)
  }

  /** A record validates exactly when, normalized, it is the record the constructor builds from its parsed
      content. */
  lemma ValidRecordsAreBuilt(p: Platform, record: Record)
    ensures Validates(p, record) <==>
      && ParseEvidence(p.parseTime, record.content).Ok?
      && NewRecord(p, record.operatorUuid, RequestOf(record, ParseEvidence(p.parseTime, record.content).value))
         == Ok(Normalized(record))
  {}

  /** Building again from a built record's own fields gives the record. */
  lemma RebuiltIsSame(p: Platform, operatorUuid: string, request: Request)
    requires NewRecord(p, operatorUuid, request).Ok?
    ensures var record := NewRecord(p, operatorUuid, request).value;
      && NewRecord(p, record.operatorUuid, RequestOf(record, Truncated(request.evidence))) == Ok(record)
      && Normalized(record) == record
      && Canonical(request.evidence) == Ok((Truncated(request.evidence), record.content))
  {
    TruncatedTwice(request.evidence);
    TruncateIdempotent(request.expiresAt);
    TruncateIdempotent(request.evidence.completedAt);
    TrimIdempotent(operatorUuid);
  }

  /** Whatever the constructor builds passes its own validation, exactly when the evidence's instants have
      four-digit years. */
  lemma BuiltRecordsValidate(p: Platform, operatorUuid: string, request: Request)
    requires ReadsIso(p.parseTime) && NewRecord(p, operatorUuid, request).Ok?
    ensures Validates(p, NewRecord(p, operatorUuid, request).value) <==> PrintsInFourDigits(request)
  {
    RebuiltIsSame(p, operatorUuid, request);
    ParseOfCanonical(request.evidence, p.parseTime);
    ValidRecordsAreBuilt(p, NewRecord(p, operatorUuid, request).value);
  }

  // ---- identity --------------------------------------------------------------------------

  /** The text whose digest is the record's UUID. */
  function IdentityOf(record: Record): string {
    Join(Identity(record.tenantId, record.profileBindingSha256, record.runtimeBindingSha256, record.contentSha256,
                  record.operatorUuid, record.requestId, record.traceId, record.expiresAt), NEWLINE)
  }

  lemma BuiltFields(p: Platform, operatorUuid: string, request: Request)
    requires NewRecord(p, operatorUuid, request).Ok?
    ensures var record := NewRecord(p, operatorUuid, request).value;
      && ValidIdentifier(p, record.tenantId, 64) && ValidSha256(record.profileBindingSha256)
      && record.tenantId == request.tenantId && record.profileBindingSha256 == request.profileBindingSha256
      && record.runtimeBindingSha256 == request.evidence.bindingSha256
      && record.contentSha256 == p.contentDigest(Marshal(Truncated(request.evidence)))
      && record.operatorUuid == Trim(operatorUuid)
      && record.requestId == request.requestId && record.traceId == request.traceId
      && record.expiresAt == Truncate(request.expiresAt)
      && record.evidenceUuid == p.textDigest(IdentityOf(record))
  {}

  predicate OneLine(lines: seq<string>) { forall line | line in lines :: NEWLINE !in line }

  /** If no field of the first holds a newline, no other fields at all give its identity text. */
  lemma IdentityIsInjective(
      t1: string, p1: string, b1: string, c1: string, o1: string, r1: string, x1: string, e1: int,
      t2: string, p2: string, b2: string, c2: string, o2: string, r2: string, x2: string, e2: int)
    requires OneLine(Identity(t1, p1, b1, c1, o1, r1, x1, e1))
    requires Join(Identity(t1, p1, b1, c1, o1, r1, x1, e1), NEWLINE)
          == Join(Identity(t2, p2, b2, c2, o2, r2, x2, e2), NEWLINE)
    ensures t1 == t2 && p1 == p2 && b1 == b2 && c1 == c2 && o1 == o2 && r1 == r2 && x1 == x2
    ensures Truncate(e1) == Truncate(e2)
  {
    var i, j := Identity(t1, p1, b1, c1, o1, r1, x1, e1), Identity(t2, p2, b2, c2, o2, r2, x2, e2);
    OccurrencesInJoin(i, NEWLINE);
    OccurrencesInJoin(j, NEWLINE);
    JoinInjective(i, j, NEWLINE);
    assert i[1] == j[1] && i[2] == j[2] && i[3] == j[3] && i[4] == j[4];
    assert i[5] == j[5] && i[6] == j[6] && i[7] == j[7] && i[8] == j[8];
    IsoInjective(e1, e2);
  }

  // Fields may hold newlines, so different requests may share an identity text. Which ones is known exactly.

  lemma FirstLine(a: string, x: string, b: string, y: string)
    requires NEWLINE !in a && NEWLINE !in b && a + [NEWLINE] + x == b + [NEWLINE] + y
    ensures a == b && x == y
  {
    var s, t := a + [NEWLINE] + x, b + [NEWLINE] + y;
    assert s[|a|] == NEWLINE && t[|b|] == NEWLINE;
    assert s[..|a|] == a && t[..|b|] == b && s[|a| + 1..] == x && t[|b| + 1..] == y;
  }

  /** A digest is longer than an identifier may be, so an identifier that reaches into one ends inside it. */
  lemma EndsInsideDigest(s: string, t1: string, p1: string, m1: string, t2: string)
    requires s == t1 + [NEWLINE] + (p1 + [NEWLINE] + m1) && ValidSha256(p1)
    requires t1 != "" && t2 != "" && Trimmed(t2) && |t1| < |t2| <= 64 && |t2| < |s| && s[..|t2|] == t2
    ensures s[|t2|] != NEWLINE
  {
    assert s[|t1|] == NEWLINE && s[|t2| - 1] == t2[|t2| - 1];
    var i := TrimStart(p1);
    var m := |t2| - |t1| - 2;
    assert m >= 0 && s[|t2| - 1] == p1[m] && m >= i;
    assert p1[m + 1] == Trim(p1)[m + 1 - i];
    assert p1[m + 1] in Trim(p1);
  }

  lemma TenantIsNotShorter(t1: string, p1: string, m1: string, t2: string, rest: string)
    requires t1 != "" && t2 != "" && Trimmed(t2) && |t2| <= 64 && ValidSha256(p1)
    requires t1 + [NEWLINE] + (p1 + [NEWLINE] + m1) == t2 + [NEWLINE] + rest
    ensures |t1| >= |t2|
  {
    var s := t2 + [NEWLINE] + rest;
    assert s[|t2|] == NEWLINE && s[..|t2|] == t2;
    if |t1| < |t2| { EndsInsideDigest(s, t1, p1, m1, t2); }
  }

  /** The lines between tenant and expiry, joined. */
  function Middle(record: Record): string {
    Join([record.profileBindingSha256, record.runtimeBindingSha256, record.contentSha256,
          record.operatorUuid, record.requestId, record.traceId], NEWLINE)
  }

  lemma JoinFirst(line: string, rest: seq<string>)
    requires rest != []
    ensures Join([line] + rest, NEWLINE) == line + [NEWLINE] + Join(rest, NEWLINE)
  {
    assert ([line] + rest)[1..] == rest;
  }

  lemma Regroup(t: string, m: string, last: string)
    ensures t + [NEWLINE] + (m + [NEWLINE] + last) == t + [NEWLINE] + m + [NEWLINE] + last
  {}

  lemma FirstTwoAndLast(v: string, t: string, middle: seq<string>, last: string)
    requires middle != []
    ensures Join([v, t] + (middle + [last]), NEWLINE) ==
      (v + [NEWLINE]) + (t + [NEWLINE] + Join(middle, NEWLINE) + [NEWLINE] + last)
  {
    assert [v, t] + (middle + [last]) == [v] + ([t] + (middle + [last]));
    JoinFirst(v, [t] + (middle + [last]));
    JoinFirst(t, middle + [last]);
    JoinAppend(middle, [last], NEWLINE);
    Regroup(t, Join(middle, NEWLINE), last);
  }

  lemma IdentityShape(record: Record)
    ensures IdentityOf(record) ==
      (RECORD_SCHEMA + [NEWLINE])
      + (record.tenantId + [NEWLINE] + Middle(record) + [NEWLINE] + IsoMilliseconds(record.expiresAt))
  {
    var last := IsoMilliseconds(record.expiresAt);
    var middle := [record.profileBindingSha256, record.runtimeBindingSha256, record.contentSha256,
                   record.operatorUuid, record.requestId, record.traceId];
    assert Identity(record.tenantId, record.profileBindingSha256, record.runtimeBindingSha256, record.contentSha256,
                    record.operatorUuid, record.requestId, record.traceId, record.expiresAt)
        == [RECORD_SCHEMA, record.tenantId] + (middle + [last]);
    FirstTwoAndLast(RECORD_SCHEMA, record.tenantId, middle, last);
  }

  lemma SixLines(a: string, b: string, c: string, d: string, e: string, f: string)
    ensures Join([a, b, c, d, e, f], NEWLINE) ==
      a + [NEWLINE] + (b + [NEWLINE] + (c + [NEWLINE] + (d + [NEWLINE] + (e + [NEWLINE] + f))))
  {
    assert [a, b, c, d, e, f] == [a] + [b, c, d, e, f] && [b, c, d, e, f] == [b] + [c, d, e, f];
    assert [c, d, e, f] == [c] + [d, e, f] && [d, e, f] == [d] + [e, f] && [e, f] == [e] + [f];
    JoinFirst(a, [b, c, d, e, f]);
    JoinFirst(b, [c, d, e, f]);
    JoinFirst(c, [d, e, f]);
    JoinFirst(d, [e, f]);
    JoinFirst(e, [f]);
  }

  lemma MiddleShape(record: Record)
    ensures Middle(record) == record.profileBindingSha256 + [NEWLINE] + (record.runtimeBindingSha256 + [NEWLINE]
      + (record.contentSha256 + [NEWLINE] + (record.operatorUuid + [NEWLINE]
      + (record.requestId + [NEWLINE] + record.traceId))))
  {
    SixLines(record.profileBindingSha256, record.runtimeBindingSha256, record.contentSha256,
             record.operatorUuid, record.requestId, record.traceId);
  }

  /** What building guarantees of the fields that frame the identity text. */
  predicate Framed(record: Record) {
    && record.tenantId != "" && Trim(record.tenantId) == record.tenantId && |record.tenantId| <= 64
    && ValidSha256(record.profileBindingSha256) && Truncate(record.expiresAt) == record.expiresAt
  }

  lemma BuiltIsFramed(p: Platform, operatorUuid: string, request: Request)
    requires forall s :: |s| <= p.byteLength(s)
    requires NewRecord(p, operatorUuid, request).Ok?
    ensures Framed(NewRecord(p, operatorUuid, request).value)
  {
    BuiltFields(p, operatorUuid, request);
    TruncateIdempotent(request.expiresAt);
    assert |request.tenantId| <= p.byteLength(request.tenantId);
  }

  /** Whatever else records hold, their tenants and expiries can be read off their identity texts. */
  lemma IdentitiesEqualExactly(a: Record, b: Record)
    requires Framed(a) && Framed(b)
    ensures IdentityOf(a) == IdentityOf(b) <==>
      a.tenantId == b.tenantId && a.expiresAt == b.expiresAt && Middle(a) == Middle(b)
  {
    IdentityShape(a);
    IdentityShape(b);
    if IdentityOf(a) == IdentityOf(b) {
      var head, d, e := RECORD_SCHEMA + [NEWLINE], IsoMilliseconds(a.expiresAt), IsoMilliseconds(b.expiresAt);
      var x, y := a.tenantId + [NEWLINE] + Middle(a), b.tenantId + [NEWLINE] + Middle(b);
      CommonPrefix(head, x + [NEWLINE] + d, y + [NEWLINE] + e);
      TextIsOneLine(a.expiresAt);
      TextIsOneLine(b.expiresAt);
      LastLine(x, d, y, e, NEWLINE);
      IsoInjective(a.expiresAt, b.expiresAt);
      TenantsAgree(a, b);
    }
  }

  lemma TenantsAgree(a: Record, b: Record)
    requires Framed(a) && Framed(b)
    requires a.tenantId + [NEWLINE] + Middle(a) == b.tenantId + [NEWLINE] + Middle(b)
    ensures a.tenantId == b.tenantId && Middle(a) == Middle(b)
  {
    MiddleShape(a);
    MiddleShape(b);
    TrimIsTrimmed(a.tenantId);
    TrimIsTrimmed(b.tenantId);
    var m := a.runtimeBindingSha256 + [NEWLINE] + (a.contentSha256 + [NEWLINE]
               + (a.operatorUuid + [NEWLINE] + (a.requestId + [NEWLINE] + a.traceId)));
    var n := b.runtimeBindingSha256 + [NEWLINE] + (b.contentSha256 + [NEWLINE]
               + (b.operatorUuid + [NEWLINE] + (b.requestId + [NEWLINE] + b.traceId)));
    TenantIsNotShorter(a.tenantId, a.profileBindingSha256, m, b.tenantId, Middle(b));
    TenantIsNotShorter(b.tenantId, b.profileBindingSha256, n, a.tenantId, Middle(a));
    var s, t := a.tenantId + [NEWLINE] + Middle(a), b.tenantId + [NEWLINE] + Middle(b);
    assert s[..|a.tenantId|] == a.tenantId && t[..|b.tenantId|] == b.tenantId;
    assert s[|a.tenantId| + 1..] == Middle(a) && t[|b.tenantId| + 1..] == Middle(b);
  }

  /** What may still be confused once the digests are plain: operator, request and trace, joined by newlines. */
  function Callers(record: Record): string {
    record.operatorUuid + [NEWLINE] + (record.requestId + [NEWLINE] + record.traceId)
  }

  /** Records whose digests hold no newline share an identity text exactly when they agree in tenant, digests and
      expiry, and in operator, request and trace joined by newlines. */
  lemma PlainIdentitiesEqualExactly(a: Record, b: Record)
    requires Framed(a) && Framed(b) && PlainDigests(a) && PlainDigests(b)
    ensures IdentityOf(a) == IdentityOf(b) <==>
      && a.tenantId == b.tenantId && a.expiresAt == b.expiresAt
      && a.profileBindingSha256 == b.profileBindingSha256 && a.runtimeBindingSha256 == b.runtimeBindingSha256
      && a.contentSha256 == b.contentSha256 && Callers(a) == Callers(b)
  {
    IdentitiesEqualExactly(a, b);
    PlainMiddles(a, b);
  }

  predicate PlainDigests(record: Record) {
    && NEWLINE !in record.profileBindingSha256 && NEWLINE !in record.runtimeBindingSha256
    && NEWLINE !in record.contentSha256
  }

  lemma PlainMiddles(a: Record, b: Record)
    requires PlainDigests(a) && PlainDigests(b)
    ensures Middle(a) == Middle(b) <==>
      && a.profileBindingSha256 == b.profileBindingSha256 && a.runtimeBindingSha256 == b.runtimeBindingSha256
      && a.contentSha256 == b.contentSha256 && Callers(a) == Callers(b)
  {
    MiddleShape(a);
    MiddleShape(b);
    if Middle(a) == Middle(b) {
      var x2, y2 := a.contentSha256 + [NEWLINE] + Callers(a), b.contentSha256 + [NEWLINE] + Callers(b);
      FirstLine(a.profileBindingSha256, a.runtimeBindingSha256 + [NEWLINE] + x2,
                b.profileBindingSha256, b.runtimeBindingSha256 + [NEWLINE] + y2);
      FirstLine(a.runtimeBindingSha256, x2, b.runtimeBindingSha256, y2);
      FirstLine(a.contentSha256, Callers(a), b.contentSha256, Callers(b));
    }
  }

  /** The identifiers a caller hands in. */
  predicate ValidCallers(p: Platform, operatorUuid: string, request: Request) {
    && ValidIdentifier(p, Trim(operatorUuid), 64) && ValidIdentifier(p, request.tenantId, 64)
    && ValidOptionalIdentifier(p, request.requestId, 128) && ValidOptionalIdentifier(p, request.traceId, 128)
  }

  /** The rest of what the constructor asks for. */
  predicate ValidRest(request: Request) {
    && ValidSha256(request.profileBindingSha256)
    && request.profileBindingSha256 == request.evidence.profileBindingSha256
    && Sound(Truncated(request.evidence))
    && 0 < Truncate(request.expiresAt) - Truncate(request.evidence.completedAt) <= 60 * MINUTE
  }

  lemma BuiltExactly(p: Platform, operatorUuid: string, request: Request)
    ensures NewRecord(p, operatorUuid, request).Ok? <==> ValidCallers(p, operatorUuid, request) && ValidRest(request)
  {}

  lemma SameCallersSameIdentity(a: Record, b: Record)
    requires a.tenantId == b.tenantId && a.expiresAt == b.expiresAt && a.profileBindingSha256 == b.profileBindingSha256
    requires a.runtimeBindingSha256 == b.runtimeBindingSha256 && a.contentSha256 == b.contentSha256
    requires Callers(a) == Callers(b)
    ensures IdentityOf(a) == IdentityOf(b)
  {
    MiddleShape(a);
    MiddleShape(b);
    IdentityShape(a);
    IdentityShape(b);
  }

  /** The UUID a request's record gets, if it is accepted, as a function value. */
  function UuidFor(p: Platform, operatorUuid: string): Request -> Option<string> {
    (r: Request) => match NewRecord(p, operatorUuid, r) case Ok(record) => Some(record.evidenceUuid) case Err(_) => None
  }

  /** Requests that differ only in how their callers are split at a newline get one UUID. */
  lemma SplitAtNewlineCollides(p: Platform, operatorUuid: string, r: Request, q: Request)
    requires UuidFor(p, operatorUuid)(r).Some? && UuidFor(p, operatorUuid)(q).Some?
    requires q == r.(requestId := q.requestId, traceId := q.traceId)
    requires r.requestId + [NEWLINE] + r.traceId == q.requestId + [NEWLINE] + q.traceId
    ensures UuidFor(p, operatorUuid)(q) == UuidFor(p, operatorUuid)(r)
  {
    BuiltFields(p, operatorUuid, r);
    BuiltFields(p, operatorUuid, q);
    SameCallersSameIdentity(NewRecord(p, operatorUuid, r).value, NewRecord(p, operatorUuid, q).value);
  }

  lemma OtherCallersAreBuilt(p: Platform, operatorUuid: string, r: Request, q: Request)
    requires UuidFor(p, operatorUuid)(r).Some?
    requires q == r.(requestId := q.requestId, traceId := q.traceId)
    requires ValidOptionalIdentifier(p, q.requestId, 128) && ValidOptionalIdentifier(p, q.traceId, 128)
    ensures UuidFor(p, operatorUuid)(q).Some?
  {
    BuiltExactly(p, operatorUuid, r);
    BuiltExactly(p, operatorUuid, q);
  }

  /** A request id holding a newline collides: with what follows the newline moved to the front of the trace, a
      different request is accepted and gets the same UUID, so long as the longer trace is still an identifier. */
  lemma NewlineInRequestCollides(p: Platform, operatorUuid: string, r: Request, q: Request, y: string)
    requires UuidFor(p, operatorUuid)(r).Some?
    requires q == r.(requestId := q.requestId, traceId := y + [NEWLINE] + r.traceId)
    requires r.requestId == q.requestId + [NEWLINE] + y
    requires ValidOptionalIdentifier(p, q.requestId, 128) && ValidOptionalIdentifier(p, q.traceId, 128)
    ensures q != r && UuidFor(p, operatorUuid)(q) == UuidFor(p, operatorUuid)(r)
  {
    OtherCallersAreBuilt(p, operatorUuid, r, q);
    MoveToTrace(q.requestId, y, r.traceId);
    SplitAtNewlineCollides(p, operatorUuid, r, q);
  }

  lemma MoveToTrace(x: string, y: string, z: string)
    ensures (x + [NEWLINE] + y) + [NEWLINE] + z == x + [NEWLINE] + (y + [NEWLINE] + z)
    ensures |x + [NEWLINE] + y| > |x|
  {}

  // ---- requests that show where the guarantees end ---------------------------------------

  /** Measured in bytes as UTF-8 does. */
  ghost predicate CountsBytes(p: Platform) { forall s :: |s| <= p.byteLength(s) <= 4 * |s| }

  lemma ShortIsIdentifier(p: Platform, value: string, limit: nat)
    requires CountsBytes(p) && Trimmed(value) && 4 * |value| <= limit
    ensures ValidOptionalIdentifier(p, value, limit) && (value != "" ==> ValidIdentifier(p, value, limit))
  {
    TrimTrimmed(value);
    assert p.byteLength(value) <= 4 * |value|;
  }

  lemma SomeDigest() returns (digest: string)
    ensures ValidSha256(digest) && NEWLINE !in digest
  {
    digest := seq(64, _ => 'a');
    TrimTrimmed(digest);
  }

  /** Evidence in which everything happened at one instant, and a record of it. */
  lemma SampleRequest(p: Platform, t: int, requestId: string, traceId: string) returns (r: Request)
    requires CountsBytes(p) && t != 0 && Truncate(t) == t
    requires Trimmed(requestId) && Trimmed(traceId) && |requestId| <= 32 && |traceId| <= 32
    ensures ValidCallers(p, "operator", r) && ValidRest(r)
    ensures r.requestId == requestId && r.traceId == traceId && r.evidence.startedAt == t
  {
    var digest := SomeDigest();
    r := Request("tenant", digest, requestId, traceId, t + MINUTE,
                 Evidence(EVIDENCE_SCHEMA, digest, digest, t, t, t, t, 1, 1, 1, 1));
    AtOnceIsValid(r, digest, t);
    ShortCallersAreValid(p, r);
  }

  lemma ShortCallersAreValid(p: Platform, r: Request)
    requires CountsBytes(p) && r.tenantId == "tenant"
    requires Trimmed(r.requestId) && Trimmed(r.traceId) && |r.requestId| <= 32 && |r.traceId| <= 32
    ensures ValidCallers(p, "operator", r)
  {
    TrimTrimmed("operator");
    ShortIsIdentifier(p, "tenant", 64);
    ShortIsIdentifier(p, "operator", 64);
    ShortIsIdentifier(p, r.requestId, 128);
    ShortIsIdentifier(p, r.traceId, 128);
  }

  lemma AtOnceIsValid(r: Request, digest: string, t: int)
    requires ValidSha256(digest) && t != 0 && Truncate(t) == t
    requires r.profileBindingSha256 == digest && r.expiresAt == t + MINUTE
    requires r.evidence == Evidence(EVIDENCE_SCHEMA, digest, digest, t, t, t, t, 1, 1, 1, 1)
    ensures ValidRest(r)
  {
    assert Truncate(t + MINUTE) == t + MINUTE;
    assert Truncated(r.evidence) == r.evidence;
  }

  /** Two different requests, both accepted, with one UUID. */
  lemma InnerNewlinesCollide(p: Platform) returns (r: Request, q: Request)
    requires CountsBytes(p)
    ensures r != q && UuidFor(p, "operator")(r).Some?
    ensures UuidFor(p, "operator")(q) == UuidFor(p, "operator")(r)
  {
    var x, y, z := "a", "b", "c";
    r := SampleRequest(p, MINUTE, x + [NEWLINE] + y, z);
    ShortIsIdentifier(p, x, 128);
    ShortIsIdentifier(p, y + [NEWLINE] + z, 128);
    q := r.(requestId := x, traceId := y + [NEWLINE] + z);
    BuiltExactly(p, "operator", r);
    NewlineInRequestCollides(p, "operator", r, q, y);
  }

  /** Evidence from the year 10000 is built into a record that does not validate. */
  lemma TheYear10000DoesNotValidate(p: Platform) returns (r: Request)
    requires CountsBytes(p) && ReadsIso(p.parseTime)
    ensures NewRecord(p, "operator", r).Ok? && !Validates(p, NewRecord(p, "operator", r).value)
  {
    var t := DaysBefore(10000) * MILLIS_PER_DAY * NANOS_PER_MILLI;
    NewYear(10000);
    r := SampleRequest(p, t, "", "");
    BuiltExactly(p, "operator", r);
    BuiltRecordsValidate(p, "operator", r);
    TruncateIdempotent(t);
  }
}
