/** The credential-field check on MCP tool arguments (internal/application/agent_tool_invocation.go): a
    depth-bounded walk of a JSON value that refuses denied key names anywhere in it. */
module CredentialFields {
  import opened Sorting
  import opened Wrappers

  datatype Json =
    | Null
    | Bool(b: bool)
    | Number(literal: string)
    | String(s: string)
    | Array(items: seq<Json>)
    | Object(fields: map<string, Json>)

  const MAX_DEPTH := 16

  const SENSITIVE_NAMES: set<string> := {
    "password", "passwd", "secret", "secretkey", "token", "apikey", "apitoken",
    "authorization", "cookie", "credential", "credentials", "privatekey", "clientsecret",
    "accesstoken", "refreshtoken", "sessiontoken", "bearertoken"
  }

  /** Lower-cases ASCII letters, keeps digits, drops everything else. */
  function Normalize(key: string): string {
    if key == "" then ""
    else
      var c := key[0];
      var rest := Normalize(key[1..]);
      if 'a' <= c <= 'z' || '0' <= c <= '9' then [c] + rest
      else if 'A' <= c <= 'Z' then [c + ('a' - 'A')] + rest
      else rest
  }

  predicate Sensitive(key: string) { Normalize(key) in SENSITIVE_NAMES }

  /** The walk as the code runs it, true for a refusal. */
  predicate Rejects(value: Json, depth: nat)
    decreases MAX_DEPTH + 1 - depth
  {
    if depth > MAX_DEPTH then true
    else
      match value
      case Array(items) => exists i :: 0 <= i < |items| && Rejects(items[i], depth + 1)
      case Object(fields) => exists key :: key in fields && (Sensitive(key) || Rejects(fields[key], depth + 1))
      case _ => false
  }

  /** Go ranges over a map in no particular order; whichever key comes next, the answer is the same. */
  method RejectCredentialFields(value: Json, depth: nat) returns (rejected: bool)
    ensures rejected <==> Rejects(value, depth)
    decreases MAX_DEPTH + 1 - depth
  {
    if depth > MAX_DEPTH {
      return true;
    }
    match value {
      case Array(items) =>
        for i := 0 to |items|
          invariant forall k | 0 <= k < i :: !Rejects(items[k], depth + 1)
        {
          var inner := RejectCredentialFields(items[i], depth + 1);
          if inner { return true; }
        }
      case Object(fields) =>
        var keys := fields.Keys;
        while keys != {}
          invariant keys <= fields.Keys
          invariant forall key | key in fields.Keys - keys :: !Sensitive(key) && !Rejects(fields[key], depth + 1)
          decreases keys
        {
          var key :| key in keys;
          if Sensitive(key) { return true; }
          var inner := RejectCredentialFields(fields[key], depth + 1);
          if inner { return true; }
          keys := keys - {key};
        }
      case _ =>
    }
    return false;
  }

  // ---- what is refused -------------------------------------------------------------------

  datatype Step = Item(index: nat) | Field(key: string)

  /** The value a path leads to, if it leads anywhere. */
  function Follow(value: Json, path: seq<Step>): Option<Json>
    decreases |path|
  {
    if path == [] then Some(value)
    else
      match (value, path[0])
      case (Array(items), Item(i)) => if i < |items| then Follow(items[i], path[1..]) else None
      case (Object(fields), Field(key)) => if key in fields then Follow(fields[key], path[1..]) else None
      case _ => None
  }

  /** A path that exists in the value and is too long, or passes through a denied key. */
  ghost predicate Offending(value: Json, path: seq<Step>, budget: nat) {
    && Follow(value, path).Some?
    && (|path| > budget || exists k :: 0 <= k < |path| && path[k].Field? && Sensitive(path[k].key))
  }

  lemma FollowStep(value: Json, step: Step, inner: Json, rest: seq<Step>)
    requires Follow(value, [step]) == Some(inner)
    ensures Follow(value, [step] + rest) == Follow(inner, rest)
  {
    assert ([step] + rest)[1..] == rest && [step][1..] == [];
  }

  lemma OffendingDeeper(value: Json, step: Step, inner: Json, path: seq<Step>, budget: nat)
    requires Follow(value, [step]) == Some(inner) && Offending(inner, path, budget)
    ensures Offending(value, [step] + path, budget + 1)
  {
    FollowStep(value, step, inner, path);
    if |path| <= budget {
      var k :| 0 <= k < |path| && path[k].Field? && Sensitive(path[k].key);
      assert ([step] + path)[k + 1] == path[k];
    }
  }

  /** A refusal points at a path: too deep a value, or a denied key. */
  lemma {:induction false} RejectionHasAPath(value: Json, depth: nat) returns (path: seq<Step>)
    requires depth <= MAX_DEPTH && Rejects(value, depth)
    ensures Offending(value, path, MAX_DEPTH - depth)
    decreases MAX_DEPTH - depth
  {
    match value {
      case Array(items) =>
        var i :| 0 <= i < |items| && Rejects(items[i], depth + 1);
        assert Follow(value, [Item(i)]) == Some(items[i]);
        path := DeeperPath(value, Item(i), items[i], depth);
      case Object(fields) =>
        var key :| key in fields && (Sensitive(key) || Rejects(fields[key], depth + 1));
        assert Follow(value, [Field(key)]) == Some(fields[key]);
        if Sensitive(key) {
          path := [Field(key)];
          assert path[0].Field? && Sensitive(path[0].key);
        } else {
          path := DeeperPath(value, Field(key), fields[key], depth);
        }
      case _ =>
    }
  }

  lemma {:induction false} DeeperPath(value: Json, step: Step, inner: Json, depth: nat) returns (path: seq<Step>)
    requires depth <= MAX_DEPTH && Follow(value, [step]) == Some(inner) && Rejects(inner, depth + 1)
    ensures Offending(value, path, MAX_DEPTH - depth)
    decreases MAX_DEPTH - depth, 0
  {
    if depth == MAX_DEPTH {
      path := [step];
    } else {
      var rest := RejectionHasAPath(inner, depth + 1);
      path := [step] + rest;
      OffendingDeeper(value, step, inner, rest, MAX_DEPTH - depth - 1);
    }
  }

  /** Every offending path is found. */
  lemma {:induction false} PathIsRejected(value: Json, depth: nat, path: seq<Step>)
    requires depth <= MAX_DEPTH && Offending(value, path, MAX_DEPTH - depth)
    ensures Rejects(value, depth)
    decreases MAX_DEPTH - depth
  {
    var step, rest := path[0], path[1..];
    if step.Field? && Sensitive(step.key) {
      assert value.Object? && step.key in value.fields;
    } else if depth < MAX_DEPTH {
      var inner := if step.Item? then value.items[step.index] else value.fields[step.key];
      if |rest| <= MAX_DEPTH - depth - 1 {
        var k :| 0 <= k < |path| && path[k].Field? && Sensitive(path[k].key);
        assert rest[k - 1] == path[k];
      }
      PathIsRejected(inner, depth + 1, rest);
    }
  }

  /** The arguments are accepted exactly when every value in them lies at most 16 levels down and no object key
      on the way to any of them normalizes to a denied name. */
  lemma AcceptedExactly(value: Json)
    ensures !Rejects(value, 0) <==>
      forall path: seq<Step> | Follow(value, path).Some? ::
        |path| <= MAX_DEPTH && forall k | 0 <= k < |path| && path[k].Field? :: !Sensitive(path[k].key)
  {
    if Rejects(value, 0) {
      var path := RejectionHasAPath(value, 0);
    } else if path :| Offending(value, path, MAX_DEPTH) {
      PathIsRejected(value, 0, path);
    } else {
      forall path: seq<Step> | Follow(value, path).Some?
        ensures |path| <= MAX_DEPTH && forall k | 0 <= k < |path| && path[k].Field? :: !Sensitive(path[k].key)
      {
        assert !Offending(value, path, MAX_DEPTH);
      }
    }
  }

  predicate Alphanumeric(c: char) { 'a' <= c <= 'z' || 'A' <= c <= 'Z' || '0' <= c <= '9' }

  /** A denied name stays denied however separators are put into it and letters are capitalised. */
  lemma {:induction false} SpellingDoesNotHide(a: string, x: char, y: char, b: string)
    requires x == y || ('a' <= x <= 'z' && y == x - ('a' - 'A'))
    ensures Normalize(a + [x] + b) == Normalize(a + [y] + b)
    ensures !Alphanumeric(x) ==> Normalize(a + [x] + b) == Normalize(a + b)
  {
    if a == "" {
      assert ([] + [x] + b)[1..] == b && ([] + [y] + b)[1..] == b;
      assert [] + b == b;
    } else {
      assert (a + [x] + b)[1..] == a[1..] + [x] + b && (a + [y] + b)[1..] == a[1..] + [y] + b;
      assert (a + b)[1..] == a[1..] + b;
      SpellingDoesNotHide(a[1..], x, y, b);
    }
  }

  // ---- what the normalized name is -------------------------------------------------------

  function ToLower(c: char): char { if 'A' <= c <= 'Z' then c + ('a' - 'A') else c }

  /** The letters and digits of a key, lower-cased. */
  function Spelling(key: string): string { Map(ToLower, Filter(Alphanumeric, key)) }

  lemma {:induction false} NormalizeAppend(a: string, b: string)
    ensures Normalize(a + b) == Normalize(a) + Normalize(b)
  {
    if a == "" {
      assert a + b == b;
    } else {
      assert (a + b)[1..] == a[1..] + b;
      NormalizeAppend(a[1..], b);
    }
  }

  /** Normalizing keeps exactly the ASCII letters and digits of a key, in order, and lower-cases them. */
  lemma {:induction false} NormalizeIsSpelling(key: string)
    ensures Normalize(key) == Spelling(key)
  {
    if key != "" {
      var last := |key| - 1;
      NormalizeIsSpelling(key[..last]);
      assert key == key[..last] + [key[last]];
      NormalizeAppend(key[..last], [key[last]]);
      assert Normalize([key[last]]) == Map(ToLower, if Alphanumeric(key[last]) then [key[last]] else []);
      MapAppend(ToLower, Filter(Alphanumeric, key[..last]), if Alphanumeric(key[last]) then [key[last]] else []);
    }
  }

  /** A name in lower-case letters and digits normalizes to itself. */
  lemma {:induction false} PlainNameStays(name: string)
    requires forall c | c in name :: 'a' <= c <= 'z' || '0' <= c <= '9'
    ensures Normalize(name) == name
  {
    if name != "" {
      forall c | c in name[1..] ensures 'a' <= c <= 'z' || '0' <= c <= '9' { assert c in name; }
      assert name[0] in name;
      PlainNameStays(name[1..]);
    }
  }

  /** The key spells one of the denied names. */
  predicate SpellsDenied(key: string) {
    var name := Spelling(key);
    || name == "password" || name == "passwd" || name == "secret" || name == "secretkey" || name == "token"
    || name == "apikey" || name == "apitoken" || name == "authorization" || name == "cookie" || name == "credential"
    || name == "credentials" || name == "privatekey" || name == "clientsecret" || name == "accesstoken"
    || name == "refreshtoken" || name == "sessiontoken" || name == "bearertoken"
  }

  lemma SensitiveExactly(key: string)
    ensures Sensitive(key) <==> SpellsDenied(key)
  {
    NormalizeIsSpelling(key);
  }

  /** An object with a key that spells a denied name, in whatever case and with whatever separators, is refused; one
      without is refused only for what it holds, or for lying more than sixteen levels down. */
  lemma DeniedKeyIsRefused(fields: map<string, Json>, depth: nat)
    ensures Rejects(Object(fields), depth) <==>
      || depth > 16
      || (exists key :: key in fields && SpellsDenied(key))
      || (exists key :: key in fields && Rejects(fields[key], depth + 1))
  {
    forall key ensures Sensitive(key) <==> SpellsDenied(key) { SensitiveExactly(key); }
  }

  /** Empty arrays inside one another. */
  function Nested(levels: nat): Json { if levels == 0 then Array([]) else Array([Nested(levels - 1)]) }

  /** The seventeenth level is refused whatever it is. */
  lemma {:induction false} NestingIsRefusedFrom17(levels: nat, depth: nat)
    ensures Rejects(Nested(levels), depth) <==> levels + depth > 16
    decreases levels
  {
    if levels > 0 {
      NestingIsRefusedFrom17(levels - 1, depth + 1);
      var inner := [Nested(levels - 1)];
      assert Nested(levels) == Array(inner) && inner[0] == Nested(levels - 1);
    }
  }

  /** The arguments are accepted exactly when every value in them lies at most sixteen levels down and no key on the
      way to any of them spells a denied name. */
  lemma AcceptedInPlainTerms(value: Json)
    ensures !Rejects(value, 0) <==>
      forall path: seq<Step> | Follow(value, path).Some? ::
        |path| <= 16 && forall k | 0 <= k < |path| && path[k].Field? :: !SpellsDenied(path[k].key)
  {
    AcceptedExactly(value);
    forall key ensures Sensitive(key) <==> SpellsDenied(key) { SensitiveExactly(key); }
  }
}
