/** The Agent policy kernel of internal/application/agent_policy.go: which approved capabilities a pinned
    Definition projects, and what the authorizer grants on a resource. */
module CapabilityPolicy {
  import opened Sorting
  import opened Text
  import opened Wrappers
  import opened ScopeEncoding

  datatype Risk = Read | Write | Destructive | OtherRisk

  datatype Descriptor = Descriptor(id: string, risk: Risk, requiredPermission: string, approvalRequired: bool)

  datatype Status = Active | Revoked | OtherStatus

  /** Instants are numbers; the zero time is 0. */
  datatype Definition = Definition(
    definitionUuid: string, version: nat, tenantId: string, ownerUuid: string, agentUuid: string, status: Status,
    permissions: seq<string>, scopes: seq<Scope>, validFrom: int, expiresAt: Option<int>, revokedAt: Option<int>)

  datatype Invocation = Invocation(
    tenantId: string, principalUuid: string, agentUuid: string, delegatedByUuid: string,
    permissions: seq<string>, resourceScopes: seq<Scope>, approvedCapabilities: seq<string>)

  datatype Rule = Rule(capabilityId: string, permission: string, resourceType: string, action: string)

  datatype Denied = CapabilityDenied

  const WILDCARD := "*"
  const CONVERSATION := "conversation"
  const WRITE := "write"
  const MESSAGE_WRITE := "message.write"

  const SYSTEM_SEND := "message.system.send"
  const ASSISTANT_REPLY := "message.assistant_reply.send"
  const GROUP_REPLY := "message.group_reply.send"

  /** The explicit allowlist of what an active runtime may be granted. */
  const PROJECTION := [
    Rule(SYSTEM_SEND, MESSAGE_WRITE, CONVERSATION, WRITE),
    Rule(ASSISTANT_REPLY, MESSAGE_WRITE, CONVERSATION, WRITE),
    Rule(GROUP_REPLY, MESSAGE_WRITE, CONVERSATION, WRITE)
  ]

  const DESCRIPTORS := [
    Descriptor("user.profile.read", Read, "user.profile.read", false),
    Descriptor("message.direct.read", Read, "conversation.read", false),
    Descriptor("conversation.list", Read, "conversation.list", false),
    Descriptor("conversation.read", Read, "conversation.read", false),
    Descriptor("conversation.search", Read, "conversation.search", false),
    Descriptor(ASSISTANT_REPLY, Write, MESSAGE_WRITE, false),
    Descriptor(GROUP_REPLY, Write, MESSAGE_WRITE, false),
    Descriptor(SYSTEM_SEND, Write, MESSAGE_WRITE, false)
  ]

  // ---- membership searches ---------------------------------------------------------------

  /** A listed value is the expected one, up to surrounding white space. */
  ghost predicate Contains(values: seq<string>, expected: string) {
    exists k :: 0 <= k < |values| && Trim(values[k]) == Trim(expected)
  }

  method ContainsPolicyValue(values: seq<string>, expected: string) returns (found: bool)
    ensures found <==> Contains(values, expected)
  {
    var wanted := Trim(expected);
    for i := 0 to |values|
      invariant forall k | 0 <= k < i :: Trim(values[k]) != wanted
    {
      if Trim(values[i]) == wanted {
        return true;
      }
    }
    return false;
  }

  ghost predicate ScopeAllowsType(scope: Scope, resourceType: string, action: string) {
    Trim(scope.resourceType) == resourceType && (Contains(scope.actions, action) || Contains(scope.actions, WILDCARD))
  }

  ghost predicate DefinitionAllows(d: Definition, resourceType: string, action: string) {
    exists k :: 0 <= k < |d.scopes| && ScopeAllowsType(d.scopes[k], resourceType, action)
  }

  method DefinitionAllowsResourceAction(d: Definition, resourceType: string, action: string) returns (allows: bool)
    ensures allows <==> DefinitionAllows(d, resourceType, action)
  {
    for i := 0 to |d.scopes|
      invariant forall k | 0 <= k < i :: !ScopeAllowsType(d.scopes[k], resourceType, action)
    {
      if Trim(d.scopes[i].resourceType) == resourceType {
        var direct := ContainsPolicyValue(d.scopes[i].actions, action);
        if direct { return true; }
        var any := ContainsPolicyValue(d.scopes[i].actions, WILDCARD);
        if any { return true; }
      }
    }
    return false;
  }

  // ---- definitions -----------------------------------------------------------------------

  ghost predicate ValidDefinition(d: Definition) {
    && !Blank(d.definitionUuid) && !Blank(d.tenantId) && !Blank(d.ownerUuid) && !Blank(d.agentUuid)
    && d.version != 0 && d.validFrom != 0 && !d.status.OtherStatus?
    && d.permissions != [] && d.scopes != []
    && (forall p | p in d.permissions :: !Blank(p))
    && (forall s | s in d.scopes :: ValidScope(s))
    && (d.expiresAt.Some? ==> d.validFrom < d.expiresAt.value)
    && (d.status.Revoked? <==> d.revokedAt.Some?)
  }

  method ValidateDefinition(d: Definition) returns (valid: bool)
    ensures valid <==> ValidDefinition(d)
  {
    if Blank(d.definitionUuid) || Blank(d.tenantId) || Blank(d.ownerUuid) || Blank(d.agentUuid) || d.version == 0
       || d.validFrom == 0 || d.status.OtherStatus? || |d.permissions| == 0 || |d.scopes| == 0 {
      return false;
    }
    for i := 0 to |d.permissions|
      invariant forall k | 0 <= k < i :: !Blank(d.permissions[k])
    {
      if Blank(d.permissions[i]) {
        assert d.permissions[i] in d.permissions;
        return false;
      }
    }
    for i := 0 to |d.scopes|
      invariant forall k | 0 <= k < i :: ValidScope(d.scopes[k])
    {
      var valid := ValidAgentResourceScope(d.scopes[i]);
      if !valid {
        assert d.scopes[i] in d.scopes;
        return false;
      }
    }
    if d.expiresAt.Some? && d.validFrom >= d.expiresAt.value {
      return false;
    }
    return d.status.Revoked? <==> d.revokedAt.Some?;
  }

  ghost predicate Projectable(d: Definition) { ValidDefinition(d) && d.status.Active? && d.revokedAt.None? }

  ghost predicate Admits(d: Definition, rule: Rule) {
    Contains(d.permissions, rule.permission) && DefinitionAllows(d, rule.resourceType, rule.action)
  }

  /** The ids of the admitted rules, in the order of the rules. */
  ghost function Admitted(d: Definition, rules: seq<Rule>): seq<string> {
    if rules == [] then []
    else
      var last := |rules| - 1;
      Admitted(d, rules[..last]) + if Admits(d, rules[last]) then [rules[last].capabilityId] else []
  }

  method ProjectApprovedCapabilities(d: Definition) returns (r: Result<seq<string>, Denied>)
    ensures r.Ok? <==> Projectable(d)
    ensures r.Ok? ==> r.value == Admitted(d, PROJECTION)
  {
    var valid := ValidateDefinition(d);
    if !valid || !d.status.Active? || d.revokedAt.Some? {
      return Err(CapabilityDenied);
    }
    var approved := AdmittedRules(d, PROJECTION);
    return Ok(approved);
  }

  method AdmittedRules(d: Definition, rules: seq<Rule>) returns (approved: seq<string>)
    ensures approved == Admitted(d, rules)
  {
    approved := [];
    for i := 0 to |rules|
      invariant approved == Admitted(d, rules[..i])
    {
      assert rules[..i + 1][..i] == rules[..i];
      var permitted := ContainsPolicyValue(d.permissions, rules[i].permission);
      if permitted {
        var allowed := DefinitionAllowsResourceAction(d, rules[i].resourceType, rules[i].action);
        if allowed {
          approved := approved + [rules[i].capabilityId];
        }
      }
    }
    assert rules[..|rules|] == rules;
  }

  // ---- authorization ---------------------------------------------------------------------

  ghost predicate Authorized(i: Invocation, descriptor: Descriptor) {
    && !Blank(i.tenantId) && !Blank(i.principalUuid) && !Blank(i.agentUuid)
    && (Trim(i.delegatedByUuid) == "" || Trim(i.delegatedByUuid) == Trim(i.principalUuid))
    && !Blank(descriptor.id) && !descriptor.risk.OtherRisk? && !Blank(descriptor.requiredPermission)
    && Contains(i.permissions, descriptor.requiredPermission)
    && (descriptor.approvalRequired || descriptor.risk.Destructive? ==> Contains(i.approvedCapabilities, descriptor.id))
  }

  ghost predicate ScopeGrants(scope: Scope, resourceType: string, resourceId: string, action: string) {
    && Trim(scope.resourceType) == Trim(resourceType)
    && (Trim(scope.resourceId) == WILDCARD || Trim(scope.resourceId) == Trim(resourceId))
    && (Contains(scope.actions, WILDCARD) || Contains(scope.actions, action))
  }

  ghost predicate SomeScopeGrants(scopes: seq<Scope>, resourceType: string, resourceId: string, action: string) {
    exists k :: 0 <= k < |scopes| && ScopeGrants(scopes[k], resourceType, resourceId, action)
  }

  ghost predicate AuthorizedFor(
      i: Invocation, descriptor: Descriptor, resourceType: string, resourceId: string, action: string) {
    && Authorized(i, descriptor)
    && !Blank(resourceType) && !Blank(resourceId) && !Blank(action)
    && SomeScopeGrants(i.resourceScopes, resourceType, resourceId, action)
  }

  method AuthorizeCapability(i: Invocation, descriptor: Descriptor) returns (granted: bool)
    ensures granted <==> Authorized(i, descriptor)
  {
    if Blank(i.tenantId) || Blank(i.principalUuid) || Blank(i.agentUuid) {
      return false;
    }
    var delegator := Trim(i.delegatedByUuid);
    if delegator != "" && delegator != Trim(i.principalUuid) {
      return false;
    }
    if Blank(descriptor.id) || descriptor.risk.OtherRisk? || Blank(descriptor.requiredPermission) {
      return false;
    }
    var permitted := ContainsPolicyValue(i.permissions, descriptor.requiredPermission);
    if !permitted {
      return false;
    }
    if descriptor.approvalRequired || descriptor.risk.Destructive? {
      granted := ContainsPolicyValue(i.approvedCapabilities, descriptor.id);
      return granted;
    }
    return true;
  }

  method AuthorizeCapabilityForResource(
      i: Invocation, descriptor: Descriptor, resourceType: string, resourceId: string, action: string)
      returns (granted: bool)
    ensures granted <==> AuthorizedFor(i, descriptor, resourceType, resourceId, action)
  {
    var able := AuthorizeCapability(i, descriptor);
    if !able || Blank(resourceType) || Blank(resourceId) || Blank(action) {
      return false;
    }
    granted := AnyScopeGrants(i.resourceScopes, resourceType, resourceId, action);
  }

  method AnyScopeGrants(
      scopes: seq<Scope>, resourceType: string, resourceId: string, action: string) returns (granted: bool)
    ensures granted <==> SomeScopeGrants(scopes, resourceType, resourceId, action)
  {
    for n := 0 to |scopes|
      invariant forall k | 0 <= k < n :: !ScopeGrants(scopes[k], resourceType, resourceId, action)
    {
      var grants := ScopeGrantsAction(scopes[n], resourceType, resourceId, action);
      if grants { return true; }
    }
    return false;
  }

  method ScopeGrantsAction(
      scope: Scope, resourceType: string, resourceId: string, action: string) returns (grants: bool)
    ensures grants <==> ScopeGrants(scope, resourceType, resourceId, action)
  {
    if Trim(scope.resourceType) != Trim(resourceType) {
      return false;
    }
    var scopeId := Trim(scope.resourceId);
    if scopeId != WILDCARD && scopeId != Trim(resourceId) {
      return false;
    }
    var any := ContainsPolicyValue(scope.actions, WILDCARD);
    if any { return true; }
    grants := ContainsPolicyValue(scope.actions, Trim(action));
    TrimIdempotent(action);
  }

  // ---- approved capability lists ---------------------------------------------------------

  predicate Listed(capabilityId: string) {
    capabilityId == SYSTEM_SEND || capabilityId == ASSISTANT_REPLY || capabilityId == GROUP_REPLY
  }

  /** What the validator of approved capabilities accepts. */
  ghost predicate ValidApproved(mode: string, capabilities: seq<string>) {
    || (Trim(mode) == "shadow" && capabilities == [])
    || (Trim(mode) == "active" && Distinct(Map(Trim, capabilities)) && forall c | c in capabilities :: Listed(Trim(c)))
  }

  method ActiveApprovedCapability(capabilityId: string) returns (found: bool)
    ensures found <==> Listed(capabilityId)
  {
    var rules := PROJECTION;
    for i := 0 to |rules|
      invariant forall k | 0 <= k < i :: capabilityId != rules[k].capabilityId
    {
      if capabilityId == rules[i].capabilityId {
        return true;
      }
    }
    assert rules[0].capabilityId == SYSTEM_SEND && rules[1].capabilityId == ASSISTANT_REPLY;
    assert rules[2].capabilityId == GROUP_REPLY;
    return false;
  }

  method ValidateApprovedCapabilities(mode: string, capabilities: seq<string>) returns (valid: bool)
    ensures valid <==> ValidApproved(mode, capabilities)
  {
    if Trim(mode) != "shadow" && Trim(mode) != "active" {
      return false;
    }
    if Trim(mode) == "shadow" && |capabilities| != 0 {
      return false;
    }
    valid := EachListedOnce(capabilities);
  }

  method EachListedOnce(capabilities: seq<string>) returns (valid: bool)
    ensures valid <==> Distinct(Map(Trim, capabilities)) && forall c | c in capabilities :: Listed(Trim(c))
  {
    var seen: set<string> := {};
    ghost var trimmed := Map(Trim, capabilities);
    for i := 0 to |capabilities|
      invariant forall x :: x in seen <==> x in trimmed[..i]
      invariant forall k | 0 <= k < i :: Listed(trimmed[k])
      invariant Distinct(trimmed[..i])
    {
      var capabilityId := Trim(capabilities[i]);
      assert trimmed[i] == capabilityId && capabilities[i] in capabilities;
      var listed := ActiveApprovedCapability(capabilityId);
      if capabilityId in seen {
        DuplicateBreaks(trimmed, i);
        return false;
      }
      if !listed {
        return false;
      }
      DistinctGrows(trimmed, i);
      seen := seen + {capabilityId};
    }
    assert trimmed[..|capabilities|] == trimmed;
    return true;
  }

  // ---- projection against authorization --------------------------------------------------

  /** The Definition copied into an invocation of its owner, with nobody delegating. */
  function InvocationOf(d: Definition, approved: seq<string>): Invocation {
    Invocation(d.tenantId, d.ownerUuid, d.agentUuid, "", d.permissions, d.scopes, approved)
  }

  lemma AdmittedIsPerRule(d: Definition)
    ensures Admitted(d, PROJECTION) ==
      if Admits(d, PROJECTION[0]) then [SYSTEM_SEND, ASSISTANT_REPLY, GROUP_REPLY] else []
  {
    var rules := PROJECTION;
    assert Admits(d, rules[0]) == Admits(d, rules[1]) == Admits(d, rules[2]);
    assert rules[..2][..1] == rules[..1] && rules[..1][..0] == [];
    assert Admitted(d, rules[..1]) == if Admits(d, rules[0]) then [SYSTEM_SEND] else [];
    assert Admitted(d, rules[..2]) == if Admits(d, rules[0]) then [SYSTEM_SEND, ASSISTANT_REPLY] else [];
  }

  /** A scope that allows the type names a resource it can be asked for. */
  lemma AllowingScope(d: Definition) returns (k: nat)
    requires ValidDefinition(d) && DefinitionAllows(d, CONVERSATION, WRITE)
    ensures k < |d.scopes| && ScopeAllowsType(d.scopes[k], CONVERSATION, WRITE) && !Blank(d.scopes[k].resourceId)
  {
    k :| 0 <= k < |d.scopes| && ScopeAllowsType(d.scopes[k], CONVERSATION, WRITE);
    assert d.scopes[k] in d.scopes;
  }

  lemma ConversationScopesAgree(scope: Scope, resourceId: string)
    ensures ScopeGrants(scope, CONVERSATION, resourceId, WRITE) ==> ScopeAllowsType(scope, CONVERSATION, WRITE)
    ensures ScopeAllowsType(scope, CONVERSATION, WRITE) ==> ScopeGrants(scope, CONVERSATION, scope.resourceId, WRITE)
  {
    TrimTrimmed(CONVERSATION);
  }

  /** The authorizer grants a capability a write on some conversation exactly when the owner is authorized for it
      at all and the Definition allows conversation writes. */
  lemma SomeResourceGrantedExactly(d: Definition, approved: seq<string>, descriptor: Descriptor)
    requires ValidDefinition(d)
    ensures (exists resourceId :: AuthorizedFor(InvocationOf(d, approved), descriptor, CONVERSATION, resourceId, WRITE))
       <==> Authorized(InvocationOf(d, approved), descriptor) && DefinitionAllows(d, CONVERSATION, WRITE)
  {
    var i := InvocationOf(d, approved);
    NamesAreNotBlank();
    if Authorized(i, descriptor) && DefinitionAllows(d, CONVERSATION, WRITE) {
      var k := AllowingScope(d);
      ConversationScopesAgree(d.scopes[k], "");
      assert SomeScopeGrants(i.resourceScopes, CONVERSATION, d.scopes[k].resourceId, WRITE);
      assert AuthorizedFor(i, descriptor, CONVERSATION, d.scopes[k].resourceId, WRITE);
    }
    if resourceId :| AuthorizedFor(i, descriptor, CONVERSATION, resourceId, WRITE) {
      var k :| 0 <= k < |i.resourceScopes| && ScopeGrants(i.resourceScopes[k], CONVERSATION, resourceId, WRITE);
      ConversationScopesAgree(d.scopes[k], resourceId);
    }
  }

  /** A well-formed descriptor whose use nobody has to approve, as all registered ones are. */
  predicate NeedsNoApproval(descriptor: Descriptor) {
    && !Blank(descriptor.id) && !Blank(descriptor.requiredPermission)
    && (descriptor.risk.Read? || descriptor.risk.Write?) && !descriptor.approvalRequired
  }

  lemma PlainTextIsNotBlank(s: string)
    requires s != "" && Trimmed(s)
    ensures !Blank(s)
  {
    TrimTrimmed(s);
  }

  lemma RegisteredDescriptors(descriptor: Descriptor)
    requires descriptor in DESCRIPTORS
    ensures NeedsNoApproval(descriptor)
    ensures Listed(descriptor.id) ==> descriptor.requiredPermission == MESSAGE_WRITE
  {
    RegisteredIds(descriptor);
    RegisteredPermissions(descriptor);
    PlainTextIsNotBlank(descriptor.id);
    PlainTextIsNotBlank(descriptor.requiredPermission);
  }

  lemma RegisteredIds(descriptor: Descriptor)
    requires descriptor in DESCRIPTORS
    ensures descriptor.id != "" && Trimmed(descriptor.id)
  {}

  lemma RegisteredPermissions(descriptor: Descriptor)
    requires descriptor in DESCRIPTORS
    ensures descriptor.requiredPermission != "" && Trimmed(descriptor.requiredPermission)
    ensures (descriptor.risk.Read? || descriptor.risk.Write?) && !descriptor.approvalRequired
  {}

  /** A Definition's own invocation is authorized by holding the permission. */
  lemma OwnerIsAuthorized(d: Definition, approved: seq<string>, descriptor: Descriptor)
    requires ValidDefinition(d) && NeedsNoApproval(descriptor)
    ensures Authorized(InvocationOf(d, approved), descriptor) <==>
            Contains(d.permissions, descriptor.requiredPermission)
  {
    TrimTrimmed("");
  }

  ghost predicate GrantedSomewhere(d: Definition, descriptor: Descriptor) {
    exists resourceId ::
      AuthorizedFor(InvocationOf(d, Admitted(d, PROJECTION)), descriptor, CONVERSATION, resourceId, WRITE)
  }

  /** A registered capability is in the approved projection of a valid active Definition exactly when it is on
      the allowlist and the authorizer would grant it a conversation write on some resource. */
  lemma ProjectionMatchesAuthorizer(d: Definition, descriptor: Descriptor)
    requires Projectable(d) && descriptor in DESCRIPTORS
    ensures descriptor.id in Admitted(d, PROJECTION) <==> Listed(descriptor.id) && GrantedSomewhere(d, descriptor)
  {
    AdmittedIsPerRule(d);
    RegisteredDescriptors(descriptor);
    OwnerIsAuthorized(d, Admitted(d, PROJECTION), descriptor);
    SomeResourceGrantedExactly(d, Admitted(d, PROJECTION), descriptor);
  }

  /** The projection and the authorizer agree about a registered capability exactly when it is on the allowlist,
      or the Definition lacks its permission, or allows no conversation writes at all. */
  lemma ProjectionAgreesExactly(d: Definition, descriptor: Descriptor)
    requires Projectable(d) && descriptor in DESCRIPTORS
    ensures (descriptor.id in Admitted(d, PROJECTION) <==> GrantedSomewhere(d, descriptor)) <==>
      || Listed(descriptor.id)
      || !Contains(d.permissions, descriptor.requiredPermission)
      || !DefinitionAllows(d, CONVERSATION, WRITE)
  {
    ProjectionMatchesAuthorizer(d, descriptor);
    RegisteredDescriptors(descriptor);
    OwnerIsAuthorized(d, Admitted(d, PROJECTION), descriptor);
    SomeResourceGrantedExactly(d, Admitted(d, PROJECTION), descriptor);
  }

  /** Off the allowlist a capability that needs no approval is never projected, and is granted a write on a
      conversation exactly when the Definition holds its own permission, whichever that is, and a scope that
      grants the write. */
  lemma AuthorizerIsWiderThanProjection(
      d: Definition, descriptor: Descriptor, approved: seq<string>, resourceId: string)
    requires Projectable(d) && NeedsNoApproval(descriptor) && !Listed(descriptor.id)
    ensures descriptor.id !in Admitted(d, PROJECTION)
    ensures AuthorizedFor(InvocationOf(d, approved), descriptor, CONVERSATION, resourceId, WRITE) <==>
      && Contains(d.permissions, descriptor.requiredPermission)
      && !Blank(resourceId) && SomeScopeGrants(d.scopes, CONVERSATION, resourceId, WRITE)
  {
    AdmittedIsPerRule(d);
    NamesAreNotBlank();
    OwnerIsAuthorized(d, approved, descriptor);
  }

  /** A Definition that may only read conversations but has a scope for writing them. */
  const READER := Definition(
    "definition", 1, "tenant", "owner", "agent", Active, ["conversation.read"],
    [ScopeEncoding.Scope(CONVERSATION, WILDCARD, [WRITE])], 1, None, None)

  /** For it the authorizer grants the reading capability a write that is not projected. */
  lemma ReaderIsGrantedAWrite(resourceId: string)
    requires !Blank(resourceId)
    ensures Projectable(READER) && DESCRIPTORS[3].id !in Admitted(READER, PROJECTION)
    ensures AuthorizedFor(InvocationOf(READER, []), DESCRIPTORS[3], CONVERSATION, resourceId, WRITE)
  {
    var descriptor := DESCRIPTORS[3];
    assert descriptor in DESCRIPTORS;
    RegisteredDescriptors(descriptor);
    TrimTrimmed("conversation.read");
    TrimTrimmed(WILDCARD);
    TrimTrimmed(CONVERSATION);
    TrimTrimmed(WRITE);
    ReaderIsProjectable();
    assert READER.permissions[0] == descriptor.requiredPermission;
    assert Contains(READER.permissions, descriptor.requiredPermission);
    assert Contains(READER.scopes[0].actions, WRITE) by { assert READER.scopes[0].actions[0] == WRITE; }
    assert ScopeGrants(READER.scopes[0], CONVERSATION, resourceId, WRITE);
    AuthorizerIsWiderThanProjection(READER, descriptor, [], resourceId);
  }

  lemma ReaderIsProjectable()
    ensures Projectable(READER)
  {
    TrimTrimmed("definition");
    TrimTrimmed("tenant");
    TrimTrimmed("owner");
    TrimTrimmed("agent");
    TrimTrimmed("conversation.read");
    TrimTrimmed(CONVERSATION);
    TrimTrimmed(WILDCARD);
    TrimTrimmed(WRITE);
  }

  lemma NamesAreNotBlank()
    ensures !Blank(CONVERSATION) && !Blank(WRITE)
  {
    TrimTrimmed(CONVERSATION);
    TrimTrimmed(WRITE);
  }

  /** What is projected always passes the validator for active runs, and passes the one for shadow runs only
      when it is empty. */
  lemma ProjectionIsValid(d: Definition)
    ensures ValidApproved("active", Admitted(d, PROJECTION))
    ensures Distinct(Admitted(d, PROJECTION))
    ensures ValidApproved("shadow", Admitted(d, PROJECTION)) <==> Admitted(d, PROJECTION) == []
  {
    AdmittedIsPerRule(d);
    AllowlistIsDistinct();
    TrimTrimmed("active");
    TrimTrimmed("shadow");
    assert "active" != "shadow";
  }

  lemma AllowlistIsDistinct()
    ensures var all := [SYSTEM_SEND, ASSISTANT_REPLY, GROUP_REPLY];
      Distinct(all) && Map(Trim, all) == all && forall c | c in all :: Listed(Trim(c))
  {
    TrimTrimmed(SYSTEM_SEND);
    TrimTrimmed(ASSISTANT_REPLY);
    TrimTrimmed(GROUP_REPLY);
    AllowlistIdsDiffer();
  }

  lemma AllowlistIdsDiffer()
    ensures SYSTEM_SEND != ASSISTANT_REPLY && SYSTEM_SEND != GROUP_REPLY && ASSISTANT_REPLY != GROUP_REPLY
  {
    assert |SYSTEM_SEND| == 19 && |ASSISTANT_REPLY| == 28 && |GROUP_REPLY| == 24;
  }
}
