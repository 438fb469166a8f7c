/** Outcomes shared by every component: an optional value, and a value or an error. */
module Wrappers {
  datatype Option<+T> = None | Some(value: T)

  datatype Result<+T, +E> = Ok(value: T) | Err(error: E)

  /** Applies a fallible step to each element; the first error ends it. */
  function Traverse<A, B, E>(step: A -> Result<B, E>, s: seq<A>): (r: Result<seq<B>, E>)
    ensures r.Ok? ==> |r.value| == |s|
  {
    if s == [] then Ok([])
    else
      match step(s[0])
      case Err(e) => Err(e)
      case Ok(first) =>
        match Traverse(step, s[1..])
        case Err(e) => Err(e)
        case Ok(rest) => Ok([first] + rest)
  }

  /** It succeeds exactly when each step does, with the steps' results in order. */
  lemma {:induction false} TraverseOk<A, B, E>(step: A -> Result<B, E>, s: seq<A>, r: seq<B>)
    ensures Traverse(step, s) == Ok(r) <==> |r| == |s| && forall k | 0 <= k < |s| :: step(s[k]) == Ok(r[k])
  {
    if s != [] && r != [] {
      assert r == [r[0]] + r[1..];
      TraverseOk(step, s[1..], r[1..]);
    }
  }

  /** What is left to do after a successful prefix decides the outcome. */
  lemma TraverseStep<A, B, E>(step: A -> Result<B, E>, s: seq<A>, i: nat)
    requires i < |s|
    ensures Traverse(step, s[i..]) ==
      match step(s[i])
      case Err(e) => Err(e)
      case Ok(first) =>
        match Traverse(step, s[i + 1..])
        case Err(e) => Err(e)
        case Ok(rest) => Ok([first] + rest)
  {
    assert s[i..][1..] == s[i + 1..];
  }
}
