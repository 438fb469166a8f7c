/** What the policy kernel of internal/application/agent_policy.go lets nobody do, said of scopes, permissions
    and ids as they stand: the authorizer is local to a resource, and every check refuses on its own. */
module AuthorizationRefusals {
  import opened Text
  import opened Sorting
  import opened Wrappers
  import opened ScopeEncoding
  import opened CapabilityPolicy

  predicate Lists(values: seq<string>, value: string) { exists v :: v in values && Trim(v) == value }

  /** One scope names the type, the resource or any resource, and the action or any action. */
  predicate Covers(s: Scope, resourceType: string, resourceId: string, action: string) {
    && Trim(s.resourceType) == Trim(resourceType)
    && (Trim(s.resourceId) == "*" || Trim(s.resourceId) == Trim(resourceId))
    && (Lists(s.actions, "*") || Lists(s.actions, Trim(action)))
  }

  lemma ContainsLists(values: seq<string>, expected: string)
    ensures Contains(values, expected) <==> Lists(values, Trim(expected))
  {
    if Lists(values, Trim(expected)) {
      var v :| v in values && Trim(v) == Trim(expected);
      var k :| 0 <= k < |values| && values[k] == v;
      assert Trim(values[k]) == Trim(expected);
    }
  }

  lemma ContainsWildcard(values: seq<string>)
    ensures Contains(values, WILDCARD) <==> Lists(values, "*")
  {
    ContainsLists(values, WILDCARD);
    TrimTrimmed("*");
  }

  lemma GrantsCovers(s: Scope, resourceType: string, resourceId: string, action: string)
    ensures ScopeGrants(s, resourceType, resourceId, action) <==> Covers(s, resourceType, resourceId, action)
  {
    ContainsWildcard(s.actions);
    ContainsLists(s.actions, action);
  }

  lemma SomeGrantsCovers(scopes: seq<Scope>, resourceType: string, resourceId: string, action: string)
    ensures SomeScopeGrants(scopes, resourceType, resourceId, action) <==>
      exists s :: s in scopes && Covers(s, resourceType, resourceId, action)
  {
    if SomeScopeGrants(scopes, resourceType, resourceId, action) {
      var k :| 0 <= k < |scopes| && ScopeGrants(scopes[k], resourceType, resourceId, action);
      GrantsCovers(scopes[k], resourceType, resourceId, action);
      assert scopes[k] in scopes;
    }
    if s :| s in scopes && Covers(s, resourceType, resourceId, action) {
      var k :| 0 <= k < |scopes| && scopes[k] == s;
      GrantsCovers(scopes[k], resourceType, resourceId, action);
    }
  }

  /** A grant comes from one scope that covers the resource and the action. */
  lemma GrantedByOneScope(
      i: Invocation, descriptor: Descriptor, resourceType: string, resourceId: string, action: string)
    ensures AuthorizedFor(i, descriptor, resourceType, resourceId, action) <==>
      && Authorized(i, descriptor)
      && Trim(resourceType) != "" && Trim(resourceId) != "" && Trim(action) != ""
      && exists s :: s in i.resourceScopes && Covers(s, resourceType, resourceId, action)
  {
    SomeGrantsCovers(i.resourceScopes, resourceType, resourceId, action);
  }

  /** Scopes that all name other resources, other types or other actions grant nothing. */
  lemma OtherScopesGrantNothing(
      i: Invocation, descriptor: Descriptor, resourceType: string, resourceId: string, action: string)
    requires
      || (forall s | s in i.resourceScopes :: Trim(s.resourceId) != "*" && Trim(s.resourceId) != Trim(resourceId))
      || (forall s | s in i.resourceScopes :: Trim(s.resourceType) != Trim(resourceType))
      || (forall s, a | s in i.resourceScopes && a in s.actions :: Trim(a) != "*" && Trim(a) != Trim(action))
    ensures !AuthorizedFor(i, descriptor, resourceType, resourceId, action)
  {
    GrantedByOneScope(i, descriptor, resourceType, resourceId, action);
  }

  /** More scopes never take a grant away, and padding what is asked for changes nothing. */
  lemma MoreScopesKeepGrants(
      i: Invocation, more: seq<Scope>, descriptor: Descriptor, resourceType: string, resourceId: string, action: string)
    requires AuthorizedFor(i, descriptor, resourceType, resourceId, action)
    requires forall s | s in i.resourceScopes :: s in more
    ensures AuthorizedFor(i.(resourceScopes := more), descriptor, Trim(resourceType), Trim(resourceId), Trim(action))
  {
    var j := i.(resourceScopes := more);
    GrantedByOneScope(i, descriptor, resourceType, resourceId, action);
    TrimIdempotent(resourceType);
    TrimIdempotent(resourceId);
    TrimIdempotent(action);
    var s :| s in i.resourceScopes && Covers(s, resourceType, resourceId, action);
    assert Covers(s, Trim(resourceType), Trim(resourceId), Trim(action));
    GrantedByOneScope(j, descriptor, Trim(resourceType), Trim(resourceId), Trim(action));
  }

  /** Authorization, check by check. */
  lemma AuthorizedExactly(i: Invocation, d: Descriptor)
    ensures Authorized(i, d) <==>
      && Trim(i.tenantId) != "" && Trim(i.principalUuid) != "" && Trim(i.agentUuid) != ""
      && (Trim(i.delegatedByUuid) == "" || Trim(i.delegatedByUuid) == Trim(i.principalUuid))
      && Trim(d.id) != "" && Trim(d.requiredPermission) != "" && d.risk in {Read, Write, Destructive}
      && Lists(i.permissions, Trim(d.requiredPermission))
      && (Lists(i.approvedCapabilities, Trim(d.id)) || (d.risk != Destructive && !d.approvalRequired))
  {
    ContainsLists(i.permissions, d.requiredPermission);
    ContainsLists(i.approvedCapabilities, d.id);
  }

  /** A destructive or approval-requiring capability outside the approved list is never authorized. */
  lemma UnapprovedIsRefused(i: Invocation, d: Descriptor)
    requires d.risk == Destructive || d.approvalRequired
    requires forall c | c in i.approvedCapabilities :: Trim(c) != Trim(d.id)
    ensures !Authorized(i, d)
  {
    AuthorizedExactly(i, d);
  }

  /** Nor is anything on behalf of somebody else than the principal. */
  lemma OtherDelegatorIsRefused(i: Invocation, d: Descriptor)
    requires Trim(i.delegatedByUuid) != "" && Trim(i.delegatedByUuid) != Trim(i.principalUuid)
    ensures !Authorized(i, d)
  {
    AuthorizedExactly(i, d);
  }

  /** Nor without the permission, whatever else is held. */
  lemma MissingPermissionIsRefused(i: Invocation, d: Descriptor)
    requires forall p | p in i.permissions :: Trim(p) != Trim(d.requiredPermission)
    ensures !Authorized(i, d)
  {
    AuthorizedExactly(i, d);
  }

  // ---- Definitions -----------------------------------------------------------------------

  /** Scopes, check by check. */
  lemma ValidScopeExactly(s: Scope)
    ensures ValidScope(s) <==>
      && Trim(s.resourceType) != "" && Trim(s.resourceId) != "" && s.actions != []
      && (forall k | 0 <= k < |s.actions| :: Trim(s.actions[k]) != "")
      && forall j, k | 0 <= j < k < |s.actions| :: Trim(s.actions[j]) != Trim(s.actions[k])
  {
    var trimmed := Map(Trim, s.actions);
    if ValidScope(s) {
      forall k | 0 <= k < |s.actions| ensures Trim(s.actions[k]) != "" { assert s.actions[k] in s.actions; }
      forall j, k | 0 <= j < k < |s.actions| ensures Trim(s.actions[j]) != Trim(s.actions[k]) {
        assert trimmed[j] != trimmed[k];
      }
    }
  }

  /** Definitions, check by check: named, versioned, with permissions and scopes, ending after they begin, and revoked
      exactly when they say since when. */
  lemma DefinitionExactly(d: Definition)
    ensures ValidDefinition(d) <==>
      && Trim(d.definitionUuid) != "" && Trim(d.tenantId) != "" && Trim(d.ownerUuid) != "" && Trim(d.agentUuid) != ""
      && d.version > 0 && d.validFrom != 0 && d.permissions != [] && d.scopes != []
      && (forall p | p in d.permissions :: Trim(p) != "") && (forall s | s in d.scopes :: ValidScope(s))
      && (d.expiresAt == None || d.validFrom < d.expiresAt.value)
      && ((d.status == Active && d.revokedAt == None) || (d.status == Revoked && d.revokedAt != None))
  {}

  /** Which Definitions may be projected: valid in every part, and active. */
  lemma ProjectableExactly(d: Definition)
    ensures Projectable(d) <==>
      && Trim(d.definitionUuid) != "" && Trim(d.tenantId) != "" && Trim(d.ownerUuid) != "" && Trim(d.agentUuid) != ""
      && d.version > 0 && d.validFrom != 0 && d.status == Active && d.revokedAt == None
      && d.permissions != [] && d.scopes != []
      && (forall p | p in d.permissions :: Trim(p) != "") && (forall s | s in d.scopes :: ValidScope(s))
      && (d.expiresAt == None || d.validFrom < d.expiresAt.value)
  {}

  /** Exactly the three replies are projected, in this order, for a Definition that lists the message permission and a
      conversation scope with the write or any action; nothing is for any other. */
  lemma ProjectedExactly(d: Definition)
    ensures Admitted(d, PROJECTION) ==
      if Lists(d.permissions, "message.write")
         && exists s :: s in d.scopes && Trim(s.resourceType) == "conversation"
                        && (Lists(s.actions, "write") || Lists(s.actions, "*"))
      then ["message.system.send", "message.assistant_reply.send", "message.group_reply.send"] else []
  {
    AdmittedIsPerRule(d);
    ContainsLists(d.permissions, MESSAGE_WRITE);
    TrimTrimmed(MESSAGE_WRITE);
    TrimTrimmed(WRITE);
    forall s: Scope ensures ScopeAllowsType(s, CONVERSATION, WRITE) <==>
      Trim(s.resourceType) == "conversation" && (Lists(s.actions, "write") || Lists(s.actions, "*"))
    {
      ContainsLists(s.actions, WRITE);
      ContainsWildcard(s.actions);
    }
    AllowedBySome(d);
  }

  lemma AllowedBySome(d: Definition)
    ensures DefinitionAllows(d, CONVERSATION, WRITE) <==>
      exists s :: s in d.scopes && ScopeAllowsType(s, CONVERSATION, WRITE)
  {
    if s :| s in d.scopes && ScopeAllowsType(s, CONVERSATION, WRITE) {
      var k :| 0 <= k < |d.scopes| && d.scopes[k] == s;
    }
  }

  /** What approved lists pass: none in shadow mode, in active mode any of the three replies once each. */
  lemma ValidApprovedExactly(mode: string, capabilities: seq<string>)
    ensures ValidApproved(mode, capabilities) <==>
      || (Trim(mode) == "shadow" && capabilities == [])
      || (Trim(mode) == "active"
          && (forall c | c in capabilities ::
                Trim(c) in ["message.system.send", "message.assistant_reply.send", "message.group_reply.send"])
          && forall j, k | 0 <= j < k < |capabilities| :: Trim(capabilities[j]) != Trim(capabilities[k]))
  {
    var trimmed := Map(Trim, capabilities);
    assert Distinct(trimmed) <==> forall j, k | 0 <= j < k < |capabilities| :: trimmed[j] != trimmed[k];
  }
}
