/** The canonical strings that approvals, runs and conversations are identified by: resource scopes and run
    identities (internal/application/agent_policy_persistence.go), conversation keys (internal/model/message.go).
    Digests are taken of these strings, so claims about identity are claims about them. */
module ScopeEncoding {
  import opened Sorting
  import opened Text
  import opened Wrappers

  datatype Error = PolicyInvalid

  datatype Scope = Scope(resourceType: string, resourceId: string, actions: seq<string>)

  const SCOPE_HASH_VERSION := "dipole.agent.scope.v1"
  const RUN_ID_VERSION := "dipole.agent.run.v1"
  const NEWLINE := '\n'

  // ---- resource scopes -------------------------------------------------------------------

  ghost predicate ValidScope(scope: Scope) {
    && !Blank(scope.resourceType) && !Blank(scope.resourceId) && scope.actions != []
    && (forall action | action in scope.actions :: !Blank(action))
    && Distinct(Map(Trim, scope.actions))
  }

  function SortedActions(scope: Scope): seq<string> { Sort(Map(Trim, scope.actions), LexLe) }

  function Canonical(scope: Scope): string {
    SCOPE_HASH_VERSION + [NEWLINE] + Trim(scope.resourceType) + [NEWLINE] + Trim(scope.resourceId) + [NEWLINE]
    + Join(SortedActions(scope), NEWLINE)
  }

  method ValidAgentResourceScope(scope: Scope) returns (valid: bool)
    ensures valid <==> ValidScope(scope)
  {
    if Blank(scope.resourceType) || Blank(scope.resourceId) || |scope.actions| == 0 {
      return false;
    }
    var seen: set<string> := {};
    for i := 0 to |scope.actions|
      invariant forall k | 0 <= k < i :: !Blank(scope.actions[k])
      invariant forall x :: x in seen <==> exists k :: 0 <= k < i && Trim(scope.actions[k]) == x
      invariant forall j, k | 0 <= j < k < i :: Trim(scope.actions[j]) != Trim(scope.actions[k])
    {
      var action := Trim(scope.actions[i]);
      if action == "" {
        assert scope.actions[i] in scope.actions;
        return false;
      }
      if action in seen {
        var k :| 0 <= k < i && Trim(scope.actions[k]) == action;
        assert Map(Trim, scope.actions)[k] == Map(Trim, scope.actions)[i];
        return false;
      }
      seen := seen + {action};
    }
    return true;
  }

  method ScopeCanonicalString(scope: Scope) returns (r: Result<string, Error>)
    ensures r == if ValidScope(scope) then Ok(Canonical(scope)) else Err(PolicyInvalid)
  {
    var valid := ValidAgentResourceScope(scope);
    if !valid {
      return Err(PolicyInvalid);
    }
    var actions: seq<string> := [];
    var seen: set<string> := {};
    ghost var trimmed := Map(Trim, scope.actions);
    for i := 0 to |scope.actions|
      invariant actions == trimmed[..i]
      invariant forall x :: x in seen <==> x in trimmed[..i]
    {
      var action := Trim(scope.actions[i]);
      assert action == trimmed[i];
      if action in seen {
        return Err(PolicyInvalid);
      }
      seen := seen + {action};
      actions := actions + [action];
    }
    assert trimmed[..|scope.actions|] == trimmed;
    actions := Sort(actions, LexLe);
    return Ok(SCOPE_HASH_VERSION + [NEWLINE] + Trim(scope.resourceType) + [NEWLINE] + Trim(scope.resourceId) + [NEWLINE]
              + Join(actions, NEWLINE));
  }

  /** The same grant: type, id and set of actions agree once trimmed. */
  ghost predicate SameScope(a: Scope, b: Scope) {
    && Trim(a.resourceType) == Trim(b.resourceType)
    && Trim(a.resourceId) == Trim(b.resourceId)
    && forall x :: x in Map(Trim, a.actions) <==> x in Map(Trim, b.actions)
  }

  ghost predicate NewlineFree(scope: Scope) {
    && NEWLINE !in Trim(scope.resourceType) && NEWLINE !in Trim(scope.resourceId)
    && forall x | x in Map(Trim, scope.actions) :: NEWLINE !in x
  }

  /** Reordering the actions or padding any field leaves the canonical string alone. */
  lemma SameScopesEncodeAlike(a: Scope, b: Scope)
    requires ValidScope(a) && ValidScope(b) && SameScope(a, b)
    ensures Canonical(a) == Canonical(b)
  {
    LexIsTotalOrder();
    DistinctPermutation(Map(Trim, a.actions), Map(Trim, b.actions));
    SortPermutation(Map(Trim, a.actions), Map(Trim, b.actions), LexLe);
  }

  function Lines(scope: Scope): seq<string> {
    [SCOPE_HASH_VERSION, Trim(scope.resourceType), Trim(scope.resourceId)] + SortedActions(scope)
  }

  lemma CanonicalIsJoinedLines(scope: Scope)
    requires ValidScope(scope)
    ensures |SortedActions(scope)| == |scope.actions|
    ensures Canonical(scope) == Join(Lines(scope), NEWLINE)
    ensures forall x :: x in SortedActions(scope) <==> x in Map(Trim, scope.actions)
  {
    LexIsTotalOrder();
    SortSorts(Map(Trim, scope.actions), LexLe);
    SortMembers(Map(Trim, scope.actions), LexLe);
    var head := [SCOPE_HASH_VERSION, Trim(scope.resourceType), Trim(scope.resourceId)];
    JoinAppend(head, SortedActions(scope), NEWLINE);
    assert head[1..] == [Trim(scope.resourceType), Trim(scope.resourceId)];
    assert head[1..][1..] == [Trim(scope.resourceId)];
    assert Join(head[1..][1..], NEWLINE) == Trim(scope.resourceId);
    assert Join(head[1..], NEWLINE) == Trim(scope.resourceType) + [NEWLINE] + Trim(scope.resourceId);
    assert Join(head, NEWLINE) == SCOPE_HASH_VERSION + [NEWLINE] + Join(head[1..], NEWLINE);
    Regroup(SCOPE_HASH_VERSION, Trim(scope.resourceType), Trim(scope.resourceId));
  }

  lemma Regroup(a: string, b: string, c: string)
    ensures a + [NEWLINE] + (b + [NEWLINE] + c) == a + [NEWLINE] + b + [NEWLINE] + c
  {}

  lemma NewlineFreeLines(scope: Scope)
    requires ValidScope(scope)
    ensures NewlineFree(scope) <==> forall line | line in Lines(scope) :: NEWLINE !in line
  {
    CanonicalIsJoinedLines(scope);
    var lines := Lines(scope);
    assert lines[1] in lines && lines[2] in lines;
    assert forall x | x in SortedActions(scope) :: x in lines;
  }

  /** Without newlines inside the fields, equal canonical strings mean equal grants. */
  lemma CanonicalIsInjective(a: Scope, b: Scope)
    requires ValidScope(a) && ValidScope(b) && NewlineFree(a) && NewlineFree(b)
    ensures Canonical(a) == Canonical(b) <==> SameScope(a, b)
  {
    CanonicalIsJoinedLines(a);
    CanonicalIsJoinedLines(b);
    NewlineFreeLines(a);
    NewlineFreeLines(b);
    if Canonical(a) == Canonical(b) {
      JoinInjective(Lines(a), Lines(b), NEWLINE);
      assert Lines(a)[1] == Lines(b)[1] && Lines(a)[2] == Lines(b)[2];
      assert Lines(a)[3..] == Lines(b)[3..];
    } else if SameScope(a, b) {
      SameScopesEncodeAlike(a, b);
    }
  }

  // Validation does not look for newlines inside a field, so a scope may share its string with a
  // different one. Which newline-free scopes can be confused is known exactly.

  lemma {:induction false} JoinOfTrimmed(lines: seq<string>)
    requires lines != [] && forall line | line in lines :: line != "" && Trimmed(line)
    ensures Join(lines, NEWLINE) != "" && Trimmed(Join(lines, NEWLINE))
    ensures Join(lines, NEWLINE)[0] == lines[0][0]
  {
    assert lines[0] in lines;
    if |lines| > 1 {
      forall line | line in lines[1..] ensures line in lines {}
      JoinOfTrimmed(lines[1..]);
    }
  }

  /** The scope whose only action is all of these actions, joined by newlines. */
  function Folded(scope: Scope): Scope {
    Scope(Trim(scope.resourceType), Trim(scope.resourceId), [Join(SortedActions(scope), NEWLINE)])
  }

  lemma FoldedCollides(scope: Scope)
    requires ValidScope(scope)
    ensures ValidScope(Folded(scope)) && Canonical(Folded(scope)) == Canonical(scope)
    ensures Map(Trim, Folded(scope).actions) == [Join(SortedActions(scope), NEWLINE)]
  {
    CanonicalIsJoinedLines(scope);
    var actions := SortedActions(scope);
    var joined := Join(actions, NEWLINE);
    forall line | line in actions ensures line != "" && Trimmed(line) {
      var k :| 0 <= k < |scope.actions| && Map(Trim, scope.actions)[k] == line;
      assert scope.actions[k] in scope.actions;
      TrimIsTrimmed(scope.actions[k]);
    }
    JoinOfTrimmed(actions);
    TrimTrimmed(joined);
    TrimIdempotent(scope.resourceType);
    TrimIdempotent(scope.resourceId);
    assert Map(Trim, [joined]) == [joined];
    assert Sort([joined], LexLe) == [joined] by { assert [joined][1..] == []; }
    assert Join([joined], NEWLINE) == joined;
  }

  /** A newline-free scope shares its canonical string with no other valid scope exactly when it grants a
      single action. */
  lemma UniqueAmongAllScopesExactly(scope: Scope)
    requires ValidScope(scope) && NewlineFree(scope)
    ensures (forall other | ValidScope(other) && Canonical(other) == Canonical(scope) :: SameScope(scope, other))
       <==> |scope.actions| == 1
  {
    CanonicalIsJoinedLines(scope);
    NewlineFreeLines(scope);
    OccurrencesInJoin(Lines(scope), NEWLINE);
    if |scope.actions| == 1 {
      forall other | ValidScope(other) && Canonical(other) == Canonical(scope) ensures SameScope(scope, other) {
        CanonicalIsJoinedLines(other);
        OccurrencesInJoin(Lines(other), NEWLINE);
        NewlineFreeLines(other);
        CanonicalIsInjective(scope, other);
      }
    } else {
      var folded := Folded(scope);
      FoldedCollides(scope);
      var joined := Join(SortedActions(scope), NEWLINE);
      OccurrencesInJoin(SortedActions(scope), NEWLINE);
      NoOccurrences(joined, NEWLINE);
      assert NEWLINE in joined;
      assert joined in Map(Trim, folded.actions);
      assert !SameScope(scope, folded);
    }
  }

  // Which scopes are alone with their string among all valid ones, newlines and all.

  /** What a field or an action is once trimmed. */
  predicate Piece(s: string) { s != "" && Trimmed(s) }

  /** The canonical string after its version line. */
  function Body(scope: Scope): string {
    Trim(scope.resourceType) + [NEWLINE] + Trim(scope.resourceId) + [NEWLINE] + Join(SortedActions(scope), NEWLINE)
  }

  /** Cut at these newlines, the text reads as a type, an id and one action. */
  predicate ReadsAsScope(s: string, i: nat, j: nat) {
    && i < j < |s| && s[i] == s[j] == NEWLINE
    && Piece(s[..i]) && Piece(s[i + 1..j]) && Piece(s[j + 1..])
  }

  /** Cut at this newline, the action reads as two different actions in order. */
  predicate ReadsAsTwoActions(s: string, k: nat) {
    && k < |s| && s[k] == NEWLINE && Piece(s[..k]) && Piece(s[k + 1..])
    && s[..k] != s[k + 1..] && LexLe(s[..k], s[k + 1..])
  }

  ghost predicate AloneWithItsString(scope: Scope) {
    forall other | ValidScope(other) && Canonical(other) == Canonical(scope) :: SameScope(scope, other)
  }

  ghost predicate ReadsOneWay(scope: Scope) {
    && (forall i: nat, j: nat | ReadsAsScope(Body(scope), i, j) ::
          i == |Trim(scope.resourceType)| && j == |Trim(scope.resourceType)| + 1 + |Trim(scope.resourceId)|)
    && forall k: nat, action | action in scope.actions :: !ReadsAsTwoActions(Trim(action), k)
  }

  lemma CanonicalIsBody(a: Scope, b: Scope)
    ensures Canonical(a) == Canonical(b) <==> Body(a) == Body(b)
  {
    var head := SCOPE_HASH_VERSION + [NEWLINE];
    assert Canonical(a) == head + Body(a) && Canonical(b) == head + Body(b);
    if Canonical(a) == Canonical(b) { CommonPrefix(head, Body(a), Body(b)); }
  }

  lemma Pieces(scope: Scope)
    requires ValidScope(scope)
    ensures Piece(Trim(scope.resourceType)) && Piece(Trim(scope.resourceId))
    ensures forall action | action in scope.actions :: Piece(Trim(action))
    ensures forall action | action in SortedActions(scope) :: Piece(action)
    ensures |SortedActions(scope)| == |scope.actions| && Distinct(SortedActions(scope))
    ensures SortedBy(SortedActions(scope), LexLe)
    ensures Piece(Join(SortedActions(scope), NEWLINE))
  {
    LexIsTotalOrder();
    SortSorts(Map(Trim, scope.actions), LexLe);
    DistinctPermuted(SortedActions(scope), Map(Trim, scope.actions));
    CanonicalIsJoinedLines(scope);
    TrimIsTrimmed(scope.resourceType);
    TrimIsTrimmed(scope.resourceId);
    forall action | action in scope.actions ensures Piece(Trim(action)) { TrimIsTrimmed(action); }
    forall action | action in SortedActions(scope) ensures Piece(action) {
      var k :| 0 <= k < |scope.actions| && Map(Trim, scope.actions)[k] == action;
      assert scope.actions[k] in scope.actions;
    }
    JoinOfTrimmed(SortedActions(scope));
  }

  /** A scope with two actions always shares its string. */
  lemma SeveralActionsCollide(scope: Scope)
    requires ValidScope(scope) && |scope.actions| > 1
    ensures !AloneWithItsString(scope)
  {
    FoldedCollides(scope);
    var trimmed := Map(Trim, scope.actions);
    assert trimmed[0] != trimmed[1] && trimmed[0] in trimmed && trimmed[1] in trimmed;
    assert !SameScope(scope, Folded(scope));
  }

  lemma OneAction(scope: Scope)
    requires |scope.actions| == 1
    ensures Map(Trim, scope.actions) == [Trim(scope.actions[0])] == SortedActions(scope)
    ensures Join(SortedActions(scope), NEWLINE) == Trim(scope.actions[0])
  {
    var whole := Trim(scope.actions[0]);
    assert Map(Trim, scope.actions) == [whole];
    assert Sort([whole], LexLe) == [whole] by { assert [whole][1..] == []; }
  }

  lemma TwoActions(x: string, y: string)
    requires Trimmed(x) && Trimmed(y) && LexLe(x, y)
    ensures Map(Trim, [x, y]) == [x, y] == Sort([x, y], LexLe)
    ensures Join([x, y], NEWLINE) == x + [NEWLINE] + y
  {
    TrimTrimmed(x);
    TrimTrimmed(y);
    assert Map(Trim, [x, y]) == [x, y];
    assert [x, y][1..] == [y] && [y][1..] == [];
    assert Sort([y], LexLe) == [y];
    assert Sort([x, y], LexLe) == Insert(x, [y], LexLe) == [x, y];
  }

  lemma OneActionBody(resourceType: string, resourceId: string, action: string)
    requires Piece(resourceType) && Piece(resourceId) && Piece(action)
    ensures var scope := Scope(resourceType, resourceId, [action]);
      && ValidScope(scope) && Map(Trim, scope.actions) == [action]
      && Trim(resourceType) == resourceType && Trim(resourceId) == resourceId
      && Body(scope) == resourceType + [NEWLINE] + resourceId + [NEWLINE] + action
  {
    TrimTrimmed(resourceType);
    TrimTrimmed(resourceId);
    TrimTrimmed(action);
    OneAction(Scope(resourceType, resourceId, [action]));
  }

  lemma OtherReadingCollides(scope: Scope, i: nat, j: nat)
    requires ValidScope(scope) && ReadsAsScope(Body(scope), i, j)
    requires i != |Trim(scope.resourceType)| || j != |Trim(scope.resourceType)| + 1 + |Trim(scope.resourceId)|
    ensures !AloneWithItsString(scope)
  {
    var s := Body(scope);
    var other := Scope(s[..i], s[i + 1..j], [s[j + 1..]]);
    OneActionBody(s[..i], s[i + 1..j], s[j + 1..]);
    assert s == s[..i] + [NEWLINE] + s[i + 1..j] + [NEWLINE] + s[j + 1..];
    CanonicalIsBody(scope, other);
    assert |s[i + 1..j]| == j - i - 1;
    assert !SameScope(scope, other);
  }

  lemma TwoActionScope(scope: Scope, x: string, y: string)
    requires ValidScope(scope) && Piece(x) && Piece(y) && x != y && LexLe(x, y)
    ensures var other := Scope(scope.resourceType, scope.resourceId, [x, y]);
      && ValidScope(other) && Map(Trim, other.actions) == [x, y]
      && Body(other) == Trim(scope.resourceType) + [NEWLINE] + Trim(scope.resourceId) + [NEWLINE] + (x + [NEWLINE] + y)
  {
    TwoActions(x, y);
    TrimTrimmed(x);
    TrimTrimmed(y);
  }

  lemma TwoActionsCollide(scope: Scope, k: nat)
    requires ValidScope(scope) && |scope.actions| == 1 && ReadsAsTwoActions(Trim(scope.actions[0]), k)
    ensures !AloneWithItsString(scope)
  {
    var whole := Trim(scope.actions[0]);
    var x, y := whole[..k], whole[k + 1..];
    var other := Scope(scope.resourceType, scope.resourceId, [x, y]);
    TwoActionScope(scope, x, y);
    OneAction(scope);
    assert x + [NEWLINE] + y == whole;
    CanonicalIsBody(scope, other);
    assert whole in Map(Trim, scope.actions) && whole != x && whole != y;
    assert !SameScope(scope, other);
  }

  lemma {:induction false} LexPrefix(a: string, b: string)
    ensures LexLe(a, a + b)
  {
    if a != "" {
      assert (a + b)[1..] == a[1..] + b;
      LexPrefix(a[1..], b);
    }
  }

  /** Sorted actions, joined, can be cut after the first one. */
  lemma JoinedReadsAsTwo(actions: seq<string>)
    requires |actions| > 1 && Distinct(actions) && SortedBy(actions, LexLe)
    requires forall action | action in actions :: Piece(action)
    ensures ReadsAsTwoActions(Join(actions, NEWLINE), |actions[0]|)
  {
    var rest := Join(actions[1..], NEWLINE);
    var s := Join(actions, NEWLINE);
    forall line | line in actions[1..] ensures line != "" && Trimmed(line) { assert line in actions; }
    JoinOfTrimmed(actions[1..]);
    assert s == actions[0] + [NEWLINE] + rest;
    assert s[..|actions[0]|] == actions[0] && s[|actions[0]| + 1..] == rest;
    assert actions[0] in actions && actions[0] != actions[1] && LexLe(actions[0], actions[1]);
    var more := if |actions| == 2 then "" else [NEWLINE] + Join(actions[1..][1..], NEWLINE);
    assert rest == actions[1] + more;
    LexPrefix(actions[1], more);
    LexTransitive(actions[0], actions[1], rest);
    LexTotal(actions[0], actions[1]);
  }

  lemma CutInTwo(a: string, b: string, sep: char)
    ensures var s := a + [sep] + b; |a| < |s| && s[..|a|] == a && s[|a|] == sep && s[|a| + 1..] == b
  {}

  lemma CutInThree(a: string, b: string, c: string)
    ensures var s, j := a + [NEWLINE] + b + [NEWLINE] + c, |a| + 1 + |b|;
      j < |s| && s[|a|] == s[j] == NEWLINE && s[..|a|] == a && s[|a| + 1..j] == b && s[j + 1..] == c
  {}

  /** Where another valid scope with the same string is cut is one of the string's readings. */
  lemma OtherIsAReading(s: string, other: Scope)
    requires ValidScope(other) && Body(other) == s
    ensures var t, d := Trim(other.resourceType), Trim(other.resourceId); ReadsAsScope(s, |t|, |t| + 1 + |d|)
  {
    Pieces(other);
    CutInThree(Trim(other.resourceType), Trim(other.resourceId), Join(SortedActions(other), NEWLINE));
  }

  lemma OneReadingIsAlone(scope: Scope, other: Scope)
    requires ValidScope(scope) && |scope.actions| == 1 && ReadsOneWay(scope)
    requires ValidScope(other) && Canonical(other) == Canonical(scope)
    ensures SameScope(scope, other)
  {
    var s := Body(scope);
    CanonicalIsBody(scope, other);
    OtherIsAReading(s, other);
    CutInThree(Trim(other.resourceType), Trim(other.resourceId), Join(SortedActions(other), NEWLINE));
    CutInThree(Trim(scope.resourceType), Trim(scope.resourceId), Join(SortedActions(scope), NEWLINE));
    SameActions(scope, other);
  }

  lemma SameActions(scope: Scope, other: Scope)
    requires ValidScope(scope) && |scope.actions| == 1 && ReadsOneWay(scope) && ValidScope(other)
    requires Join(SortedActions(scope), NEWLINE) == Join(SortedActions(other), NEWLINE)
    ensures Map(Trim, scope.actions) == Map(Trim, other.actions)
  {
    Pieces(other);
    OneAction(scope);
    assert scope.actions[0] in scope.actions;
    if |other.actions| > 1 {
      JoinedReadsAsTwo(SortedActions(other));
    } else {
      OneAction(other);
    }
  }

  /** A valid scope shares its canonical string with no different one exactly when it grants a single action and
      the string can be read in no other way: not as another type, id and action, and not as several actions. */
  lemma AloneExactly(scope: Scope)
    requires ValidScope(scope)
    ensures AloneWithItsString(scope) <==> |scope.actions| == 1 && ReadsOneWay(scope)
  {
    if |scope.actions| > 1 {
      SeveralActionsCollide(scope);
    } else if ReadsOneWay(scope) {
      forall other | ValidScope(other) && Canonical(other) == Canonical(scope) ensures SameScope(scope, other) {
        OneReadingIsAlone(scope, other);
      }
    } else if k: nat :| ReadsAsTwoActions(Trim(scope.actions[0]), k) {
      TwoActionsCollide(scope, k);
    } else {
      var i: nat, j: nat :| ReadsAsScope(Body(scope), i, j) && !(i == |Trim(scope.resourceType)|
                            && j == |Trim(scope.resourceType)| + 1 + |Trim(scope.resourceId)|);
      OtherReadingCollides(scope, i, j);
    }
  }

  // ---- run identities --------------------------------------------------------------------

  const MODES: set<string> := {"embedded", "shadow", "active"}

  ghost predicate ValidRun(taskUuid: string, runtimeId: string, mode: string, attempt: nat) {
    attempt != 0 && !Blank(taskUuid) && !Blank(runtimeId) && Trim(mode) in MODES
  }

  /** The string hashed for a run: the first attempt keeps the identity it always had. */
  function RunPreimage(taskUuid: string, runtimeId: string, mode: string, attempt: nat): Result<string, Error> {
    if attempt == 0 || Blank(taskUuid) || Blank(runtimeId) || Trim(mode) !in MODES then Err(PolicyInvalid)
    else if attempt == 1 then
      Ok(RUN_ID_VERSION + [NEWLINE] + Trim(taskUuid) + [NEWLINE] + Trim(runtimeId) + [NEWLINE] + Trim(mode))
    else
      Ok(RUN_ID_VERSION + ":attempt" + [NEWLINE] + Trim(taskUuid) + [NEWLINE] + Trim(runtimeId) + [NEWLINE] + Trim(mode)
         + [NEWLINE] + Decimal(attempt))
  }

  lemma ModesHaveNoNewline(mode: string)
    requires mode in MODES
    ensures NEWLINE !in mode
  {}

  /** Two runs share an identity string exactly when attempt, mode and the two ids joined by a newline all
      agree; nothing else about them can be confused. */
  lemma RunPreimagesEqualExactly(
      t1: string, r1: string, m1: string, n1: nat, t2: string, r2: string, m2: string, n2: nat)
    requires ValidRun(t1, r1, m1, n1) && ValidRun(t2, r2, m2, n2)
    ensures RunPreimage(t1, r1, m1, n1) == RunPreimage(t2, r2, m2, n2) <==>
      && n1 == n2 && Trim(m1) == Trim(m2)
      && Trim(t1) + [NEWLINE] + Trim(r1) == Trim(t2) + [NEWLINE] + Trim(r2)
  {
    ModesHaveNoNewline(Trim(m1));
    ModesHaveNoNewline(Trim(m2));
    var ids1, ids2 := Trim(t1) + [NEWLINE] + Trim(r1), Trim(t2) + [NEWLINE] + Trim(r2);
    var first, later := RUN_ID_VERSION + [NEWLINE], RUN_ID_VERSION + ":attempt" + [NEWLINE];
    RunShape(t1, r1, m1, n1);
    RunShape(t2, r2, m2, n2);
    assert first[|RUN_ID_VERSION|] == NEWLINE && later[|RUN_ID_VERSION|] == ':';
    if RunPreimage(t1, r1, m1, n1) == RunPreimage(t2, r2, m2, n2) {
      var s := RunPreimage(t1, r1, m1, n1).value;
      assert (n1 == 1) == (s[|RUN_ID_VERSION|] == NEWLINE) == (n2 == 1);
      if n1 == 1 {
        CommonPrefix(first, ids1 + [NEWLINE] + Trim(m1), ids2 + [NEWLINE] + Trim(m2));
      } else {
        DecimalHasOnlyDigits(n1);
        DecimalHasOnlyDigits(n2);
        CommonPrefix(later, ids1 + [NEWLINE] + Trim(m1) + [NEWLINE] + Decimal(n1),
                            ids2 + [NEWLINE] + Trim(m2) + [NEWLINE] + Decimal(n2));
        LastLine(ids1 + [NEWLINE] + Trim(m1), Decimal(n1), ids2 + [NEWLINE] + Trim(m2), Decimal(n2), NEWLINE);
        DecimalInjective(n1, n2);
      }
      LastLine(ids1, Trim(m1), ids2, Trim(m2), NEWLINE);
    }
  }

  lemma RunShape(t: string, r: string, m: string, n: nat)
    requires ValidRun(t, r, m, n)
    ensures var ids := Trim(t) + [NEWLINE] + Trim(r);
      RunPreimage(t, r, m, n) == Ok(
        if n == 1 then (RUN_ID_VERSION + [NEWLINE]) + (ids + [NEWLINE] + Trim(m))
        else (RUN_ID_VERSION + ":attempt" + [NEWLINE]) + (ids + [NEWLINE] + Trim(m) + [NEWLINE] + Decimal(n)))
  {
    Associate(RUN_ID_VERSION + [NEWLINE], Trim(t), Trim(r), Trim(m), "");
    Associate(RUN_ID_VERSION + ":attempt" + [NEWLINE], Trim(t), Trim(r), Trim(m), Decimal(n));
  }

  lemma Associate(p: string, a: string, b: string, c: string, d: string)
    ensures p + a + [NEWLINE] + b + [NEWLINE] + c == p + (a + [NEWLINE] + b + [NEWLINE] + c)
    ensures p + a + [NEWLINE] + b + [NEWLINE] + c + [NEWLINE] + d
         == p + (a + [NEWLINE] + b + [NEWLINE] + c + [NEWLINE] + d)
  {}

  /** With newline-free runtime ids a run's identity string determines the run. */
  lemma RunIdentityIsInjective(t1: string, r1: string, m1: string, n1: nat, t2: string, r2: string, m2: string, n2: nat)
    requires ValidRun(t1, r1, m1, n1) && ValidRun(t2, r2, m2, n2)
    requires NEWLINE !in Trim(r1) && NEWLINE !in Trim(r2)
    ensures RunPreimage(t1, r1, m1, n1) == RunPreimage(t2, r2, m2, n2) <==>
      Trim(t1) == Trim(t2) && Trim(r1) == Trim(r2) && Trim(m1) == Trim(m2) && n1 == n2
  {
    RunPreimagesEqualExactly(t1, r1, m1, n1, t2, r2, m2, n2);
    if Trim(t1) + [NEWLINE] + Trim(r1) == Trim(t2) + [NEWLINE] + Trim(r2) {
      LastLine(Trim(t1), Trim(r1), Trim(t2), Trim(r2), NEWLINE);
    }
  }

  /** Cut at this newline, the text reads as a task id and a runtime id. */
  predicate ReadsAsRun(s: string, k: nat) { k < |s| && s[k] == NEWLINE && Piece(s[..k]) && Piece(s[k + 1..]) }

  /** A run shares its identity string with no other run exactly when its two ids, joined by the newline, can be
      cut at no other newline into two trimmed ids. */
  lemma RunIsAloneExactly(t: string, r: string, m: string, n: nat)
    requires ValidRun(t, r, m, n)
    ensures (forall t2, r2, m2, n2: nat
               | ValidRun(t2, r2, m2, n2) && RunPreimage(t2, r2, m2, n2) == RunPreimage(t, r, m, n) ::
               Trim(t2) == Trim(t) && Trim(r2) == Trim(r) && Trim(m2) == Trim(m) && n2 == n)
       <==> forall k: nat | ReadsAsRun(Trim(t) + [NEWLINE] + Trim(r), k) :: k == |Trim(t)|
  {
    var ids := Trim(t) + [NEWLINE] + Trim(r);
    if k: nat :| ReadsAsRun(ids, k) && k != |Trim(t)| {
      TrimTrimmed(ids[..k]);
      TrimTrimmed(ids[k + 1..]);
      assert ids[..k] + [NEWLINE] + ids[k + 1..] == ids;
      assert ValidRun(ids[..k], ids[k + 1..], m, n);
      RunPreimagesEqualExactly(ids[..k], ids[k + 1..], m, n, t, r, m, n);
    } else {
      forall t2, r2, m2, n2: nat | ValidRun(t2, r2, m2, n2) && RunPreimage(t2, r2, m2, n2) == RunPreimage(t, r, m, n)
        ensures Trim(t2) == Trim(t) && Trim(r2) == Trim(r) && Trim(m2) == Trim(m) && n2 == n
      {
        RunPreimagesEqualExactly(t2, r2, m2, n2, t, r, m, n);
        TrimIsTrimmed(t2);
        TrimIsTrimmed(r2);
        var k := |Trim(t2)|;
        assert ids == Trim(t2) + [NEWLINE] + Trim(r2);
        CutInTwo(Trim(t2), Trim(r2), NEWLINE);
        CutInTwo(Trim(t), Trim(r), NEWLINE);
        assert ReadsAsRun(ids, k);
      }
    }
  }

  /** Two different runs with one identity string. */
  lemma RunsCollide(mode: string, attempt: nat)
    requires Trim(mode) in MODES && attempt != 0
    ensures ValidRun("a\nb", "c", mode, attempt) && ValidRun("a", "b\nc", mode, attempt)
    ensures RunPreimage("a\nb", "c", mode, attempt) == RunPreimage("a", "b\nc", mode, attempt)
  {
    TrimTrimmed("a\nb");
    TrimTrimmed("c");
    TrimTrimmed("a");
    TrimTrimmed("b\nc");
    assert "a\nb" + [NEWLINE] + "c" == "a" + [NEWLINE] + "b\nc";
    RunPreimagesEqualExactly("a\nb", "c", mode, attempt, "a", "b\nc", mode, attempt);
  }

  // ---- conversation keys -----------------------------------------------------------------

  const COLON := ':'

  function DirectConversationKey(userOne: string, userTwo: string): string {
    var one, two := Trim(userOne), Trim(userTwo);
    if LexLe(one, two) then "direct:" + one + [COLON] + two else "direct:" + two + [COLON] + one
  }

  function GroupConversationKey(groupUuid: string): string { "group:" + Trim(groupUuid) }

  /** The two ids as the key lists them, the smaller one first. */
  function SortedIds(userOne: string, userTwo: string): (string, string) {
    var one, two := Trim(userOne), Trim(userTwo);
    if LexLe(one, two) then (one, two) else (two, one)
  }

  lemma KeyShape(u: string, v: string)
    ensures var (a, b) := SortedIds(u, v);
      && Trimmed(a) && Trimmed(b) && LexLe(a, b)
      && DirectConversationKey(u, v) == "direct:" + (a + [COLON] + b)
  {
    LexTotal(Trim(u), Trim(v));
    TrimIsTrimmed(u);
    TrimIsTrimmed(v);
    var (a, b) := SortedIds(u, v);
    assert "direct:" + a + [COLON] + b == "direct:" + (a + [COLON] + b);
  }

  ghost predicate SamePair(u: string, v: string, x: string, y: string) {
    (Trim(u) == Trim(x) && Trim(v) == Trim(y)) || (Trim(u) == Trim(y) && Trim(v) == Trim(x))
  }

  lemma SamePairMeansSameIds(u: string, v: string, x: string, y: string)
    ensures SamePair(u, v, x, y) <==> SortedIds(u, v) == SortedIds(x, y)
  {
    LexTotal(Trim(u), Trim(v));
    LexTotal(Trim(x), Trim(y));
  }

  /** A direct conversation has one key, whoever starts it, and it is never a group's key. */
  lemma DirectKeyIsSymmetric(u: string, v: string, g: string)
    ensures DirectConversationKey(u, v) == DirectConversationKey(v, u) != GroupConversationKey(g)
  {
    LexTotal(Trim(u), Trim(v));
    assert DirectConversationKey(u, v)[0] == 'd' && GroupConversationKey(g)[0] == 'g';
  }

  /** Cut at this colon, the text reads as two trimmed ids in order. */
  predicate ReadsAsIds(s: string, k: nat) {
    k < |s| && s[k] == COLON && Trimmed(s[..k]) && Trimmed(s[k + 1..]) && LexLe(s[..k], s[k + 1..])
  }

  lemma CutOfIds(a: string, b: string, k: nat)
    requires ReadsAsIds(a + [COLON] + b, k)
    ensures var s := a + [COLON] + b;
      s[..k] + [COLON] + s[k + 1..] == s && SortedIds(s[..k], s[k + 1..]) == (s[..k], s[k + 1..])
  {
    var s := a + [COLON] + b;
    TrimTrimmed(s[..k]);
    TrimTrimmed(s[k + 1..]);
  }

  /** Two users share their key with no other pair exactly when the two ids, joined by the colon in their order,
      can be cut at no other colon into two trimmed ids in order. */
  lemma DirectKeyIdentifiesThePair(u: string, v: string)
    ensures var (a, b) := SortedIds(u, v);
      (forall x, y | DirectConversationKey(x, y) == DirectConversationKey(u, v) :: SamePair(u, v, x, y))
      <==> forall k: nat | ReadsAsIds(a + [COLON] + b, k) :: k == |a|
  {
    var (a, b) := SortedIds(u, v);
    var s := a + [COLON] + b;
    KeyShape(u, v);
    if k: nat :| ReadsAsIds(s, k) && k != |a| {
      CutOfIds(a, b, k);
      KeyShape(s[..k], s[k + 1..]);
      SamePairMeansSameIds(u, v, s[..k], s[k + 1..]);
      assert DirectConversationKey(s[..k], s[k + 1..]) == DirectConversationKey(u, v);
      assert !SamePair(u, v, s[..k], s[k + 1..]);
    } else {
      forall x, y | DirectConversationKey(x, y) == DirectConversationKey(u, v) ensures SamePair(u, v, x, y) {
        var (c, d) := SortedIds(x, y);
        KeyShape(x, y);
        CommonPrefix("direct:", s, c + [COLON] + d);
        assert s[..|c|] == c && s[|c|] == COLON && s[|c| + 1..] == d;
        assert ReadsAsIds(s, |c|);
        assert s[..|a|] == a && s[|a| + 1..] == b;
        SamePairMeansSameIds(u, v, x, y);
      }
    }
  }

  /** Ids without colons are always told apart, whatever the other pair looks like. */
  lemma ColonFreeIdsAreToldApart(u: string, v: string, x: string, y: string)
    requires COLON !in Trim(u) && COLON !in Trim(v)
    ensures DirectConversationKey(u, v) == DirectConversationKey(x, y) <==> SamePair(u, v, x, y)
  {
    var (a, b) := SortedIds(u, v);
    var s := a + [COLON] + b;
    DirectKeyIdentifiesThePair(u, v);
    SamePairMeansSameIds(u, v, x, y);
    KeyShape(u, v);
    KeyShape(x, y);
  }

  /** Colons inside ids can make two different pairs share a key. */
  lemma ColonsCollide()
    ensures DirectConversationKey("a", "b:c") == DirectConversationKey("a:b", "c")
    ensures !SamePair("a", "b:c", "a:b", "c")
  {
    TrimTrimmed("a");
    TrimTrimmed("b:c");
    TrimTrimmed("a:b");
    TrimTrimmed("c");
  }

  /** They need not: here the other reading would list the larger id first. */
  lemma ColonsNeedNotCollide(x: string, y: string)
    requires DirectConversationKey(x, y) == DirectConversationKey("b:a", "c")
    ensures SamePair("b:a", "c", x, y)
  {
    TrimTrimmed("c");
    TrimTrimmed("b:a");
    DirectKeyIdentifiesThePair("b:a", "c");
    assert SortedIds("b:a", "c") == ("b:a", "c");
    var s := "b:a" + [COLON] + "c";
    assert s == "b:a:c";
    forall k: nat | ReadsAsIds(s, k) ensures k == 3 {
      assert k == 1 || k == 3;
      assert s[..1] == "b" && s[2..] == "a:c";
    }
  }
}
