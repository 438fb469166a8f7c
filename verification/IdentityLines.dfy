/** The lines of the canonical strings (internal/application/agent_policy_persistence.go) and the parts of the
    conversation keys (internal/model/message.go), one by one. */
module IdentityLines {
  import opened Sorting
  import opened Text
  import opened Wrappers
  import opened ScopeEncoding

  lemma SplitOfJoin(lines: seq<string>)
    requires lines != [] && forall line | line in lines :: '\n' !in line
    ensures Split(Join(lines, '\n'), '\n') == lines
  {
    SplitJoin(lines, '\n');
  }

  /** Cut at its newlines, a scope's string is the version, the trimmed type and id, and the trimmed actions, each once
      and in ascending order. */
  lemma ScopeLines(scope: Scope)
    requires ValidScope(scope) && NewlineFree(scope)
    ensures var lines := Split(Canonical(scope), '\n');
      && |lines| == 3 + |scope.actions|
      && lines[0] == "dipole.agent.scope.v1"
      && lines[1] == Trim(scope.resourceType) && lines[2] == Trim(scope.resourceId)
      && (forall i, j | 3 <= i < j < |lines| :: LexLe(lines[i], lines[j]) && lines[i] != lines[j])
      && forall x :: x in lines[3..] <==> exists a :: a in scope.actions && Trim(a) == x
  {
    CanonicalIsJoinedLines(scope);
    NewlineFreeLines(scope);
    Pieces(scope);
    var lines := Lines(scope);
    SplitOfJoin(lines);
    forall i, j | 3 <= i < j < |lines| ensures LexLe(lines[i], lines[j]) && lines[i] != lines[j] {
      assert lines[i] == SortedActions(scope)[i - 3] && lines[j] == SortedActions(scope)[j - 3];
    }
    forall x ensures x in lines[3..] <==> exists a :: a in scope.actions && Trim(a) == x {
      assert lines[3..] == SortedActions(scope);
      TrimmedActions(scope, x);
    }
  }

  lemma TrimmedActions(scope: Scope, x: string)
    ensures x in Map(Trim, scope.actions) <==> exists a :: a in scope.actions && Trim(a) == x
  {
    if x in Map(Trim, scope.actions) {
      var k :| 0 <= k < |scope.actions| && Map(Trim, scope.actions)[k] == x;
      assert scope.actions[k] in scope.actions;
    }
    if a :| a in scope.actions && Trim(a) == x {
      var k :| 0 <= k < |scope.actions| && scope.actions[k] == a;
      assert Map(Trim, scope.actions)[k] == x;
    }
  }

  /** The strings scopes are refused for: nothing in a field but white space, no action, one action twice. */
  lemma RefusedScopes(scope: Scope)
    ensures !ValidScope(scope) <==>
      || (forall c | c in scope.resourceType :: IsSpace(c)) || (forall c | c in scope.resourceId :: IsSpace(c))
      || scope.actions == []
      || (exists a :: a in scope.actions && forall c | c in a :: IsSpace(c))
      || exists i, j :: 0 <= i < j < |scope.actions| && Trim(scope.actions[i]) == Trim(scope.actions[j])
  {
    forall s: string ensures Blank(s) <==> forall c | c in s :: IsSpace(c) { BlankExactly(s); }
    var trimmed := Map(Trim, scope.actions);
    if Distinct(trimmed) {
      forall i, j | 0 <= i < j < |scope.actions| ensures Trim(scope.actions[i]) != Trim(scope.actions[j]) {
        assert trimmed[i] != trimmed[j];
      }
    } else {
      var i, j :| 0 <= i < j < |trimmed| && trimmed[i] == trimmed[j];
      assert Trim(scope.actions[i]) == Trim(scope.actions[j]);
    }
  }

  lemma BlankExactly(s: string)
    ensures Blank(s) <==> forall c | c in s :: IsSpace(c)
  {
    var left, right := TrimByParts(s, IsSpace);
    if Trim(s) != "" { assert Trim(s)[0] in s; }
  }

  /** The lines of a run's string: the first attempt carries no number, later ones say that they do. */
  lemma RunLines(task: string, runtime: string, mode: string, attempt: nat)
    requires ValidRun(task, runtime, mode, attempt) && '\n' !in Trim(task) && '\n' !in Trim(runtime)
    ensures RunPreimage(task, runtime, mode, attempt).Ok?
    ensures Split(RunPreimage(task, runtime, mode, attempt).value, '\n') ==
      if attempt == 1 then ["dipole.agent.run.v1", Trim(task), Trim(runtime), Trim(mode)]
      else ["dipole.agent.run.v1:attempt", Trim(task), Trim(runtime), Trim(mode), Decimal(attempt)]
  {
    ModesHaveNoNewline(Trim(mode));
    if attempt == 1 {
      FourLines("dipole.agent.run.v1", Trim(task), Trim(runtime), Trim(mode));
    } else {
      DecimalHasOnlyDigits(attempt);
      var head := "dipole.agent.run.v1:attempt";
      assert RUN_ID_VERSION + ":attempt" == head;
      FiveLines(head, Trim(task), Trim(runtime), Trim(mode), Decimal(attempt));
    }
  }

  lemma FourLines(a: string, b: string, c: string, d: string)
    requires '\n' !in a && '\n' !in b && '\n' !in c && '\n' !in d
    ensures Split(a + ['\n'] + b + ['\n'] + c + ['\n'] + d, '\n') == [a, b, c, d]
  {
    JoinFour(a, b, c, d);
    SplitOfJoin([a, b, c, d]);
  }

  lemma FiveLines(a: string, b: string, c: string, d: string, e: string)
    requires '\n' !in a && '\n' !in b && '\n' !in c && '\n' !in d && '\n' !in e
    ensures Split(a + ['\n'] + b + ['\n'] + c + ['\n'] + d + ['\n'] + e, '\n') == [a, b, c, d, e]
  {
    JoinFive(a, b, c, d, e);
    SplitOfJoin([a, b, c, d, e]);
  }

  lemma JoinFour(a: string, b: string, c: string, d: string)
    ensures Join([a, b, c, d], '\n') == a + ['\n'] + b + ['\n'] + c + ['\n'] + d
  {
    assert [a, b, c, d][1..] == [b, c, d] && [b, c, d][1..] == [c, d] && [c, d][1..] == [d];
    assert Join([c, d], '\n') == c + ['\n'] + d;
    assert Join([b, c, d], '\n') == b + ['\n'] + (c + ['\n'] + d);
    assert Join([a, b, c, d], '\n') == a + ['\n'] + (b + ['\n'] + (c + ['\n'] + d));
  }

  lemma JoinFive(a: string, b: string, c: string, d: string, e: string)
    ensures Join([a, b, c, d, e], '\n') == a + ['\n'] + b + ['\n'] + c + ['\n'] + d + ['\n'] + e
  {
    assert [a, b, c, d, e][1..] == [b, c, d, e];
    JoinFour(b, c, d, e);
    assert Join([a, b, c, d, e], '\n') == a + ['\n'] + (b + ['\n'] + c + ['\n'] + d + ['\n'] + e);
  }

  /** Which runs have one: any attempt but 0, in one of three modes, of a named task on a named runtime. */
  lemma RunsThatHaveOne(task: string, runtime: string, mode: string, attempt: nat)
    ensures RunPreimage(task, runtime, mode, attempt).Ok? <==>
      && attempt > 0 && (exists c :: c in task && !IsSpace(c)) && (exists c :: c in runtime && !IsSpace(c))
      && (Trim(mode) == "embedded" || Trim(mode) == "shadow" || Trim(mode) == "active")
  {
    BlankExactly(task);
    BlankExactly(runtime);
  }

  /** A direct key is the kind and the two trimmed ids, smaller first, with colons between; a group's is its own. */
  lemma KeyParts(u: string, v: string, group: string)
    requires ':' !in u && ':' !in v && ':' !in group
    ensures exists a, b ::
      && Split(DirectConversationKey(u, v), ':') == ["direct", a, b] && LexLe(a, b)
      && multiset{a, b} == multiset{Trim(u), Trim(v)}
    ensures Split(GroupConversationKey(group), ':') == ["group", Trim(group)]
  {
    LexTotal(Trim(u), Trim(v));
    NoneTrimmed(u);
    NoneTrimmed(v);
    NoneTrimmed(group);
    var (a, b) := SortedIds(u, v);
    KeyShape(u, v);
    ThreeParts(a, b);
    TwoParts(Trim(group));
    assert multiset{a, b} == multiset{Trim(u), Trim(v)};
  }

  lemma ThreeParts(a: string, b: string)
    requires ':' !in a && ':' !in b
    ensures Split("direct:" + (a + [':'] + b), ':') == ["direct", a, b]
  {
    assert ["direct", a, b][1..] == [a, b] && [a, b][1..] == [b];
    assert Join([a, b], ':') == a + [':'] + b;
    assert "direct" + [':'] == "direct:";
    assert Join(["direct", a, b], ':') == "direct:" + (a + [':'] + b);
    SplitJoin(["direct", a, b], ':');
  }

  lemma TwoParts(a: string)
    requires ':' !in a
    ensures Split("group:" + a, ':') == ["group", a]
  {
    assert ["group", a][1..] == [a];
    assert "group" + [':'] == "group:";
    assert Join(["group", a], ':') == "group:" + a;
    SplitJoin(["group", a], ':');
  }

  lemma NoneTrimmed(s: string)
    requires ':' !in s
    ensures ':' !in Trim(s)
  {
    var left, right := TrimByParts(s, IsSpace);
    assert forall c | c in Trim(s) :: c in s;
  }
}
