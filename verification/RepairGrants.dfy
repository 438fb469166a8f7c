/** What grants and targets let a repair do (internal/application/agent_workflow_repair_guard.go): when a grant is in
    force, what a digest stands for, and why a repair is refused. */
module RepairGrants {
  import opened Text
  import opened Wrappers
  import opened RepairGuard

  /** Some character of it is no white space. */
  ghost predicate Named(s: string) { exists c :: c in s && !IsSpace(c) }

  lemma NamedExactly(s: string)
    ensures Named(s) <==> !Blank(s)
  {
    var left, right := TrimByParts(s, IsSpace);
    if Trim(s) != "" { assert Trim(s)[0] in s; }
  }

  /** A grant is in force from its first moment up to, and not at, the earlier of its expiry and its revocation. */
  ghost predicate InForce(g: Grant, at: int) {
    && Named(g.userUuid) && g.validFrom <= at
    && forall end | end in {g.expiresAt, g.revokedAt} && end.Some? :: at < end.value
  }

  /** The execution was given to this version of this user's grant. */
  predicate GrantedTo(e: Execution, g: Grant) {
    e.executorUuid == g.userUuid && e.executorGrantVersion == g.version && g.canExecute
  }

  lemma ActiveExactly(g: Grant, at: int)
    ensures GrantActive(g, at) <==> InForce(g, at)
  {
    NamedExactly(g.userUuid);
    assert g.expiresAt in {g.expiresAt, g.revokedAt} && g.revokedAt in {g.expiresAt, g.revokedAt};
  }

  /** Every applied repair of a run came at a time when the grant it was given to was in force. */
  lemma AppliedUnderItsGrant(
      hash: Digested -> string, width: string -> nat, cell: Option<Projection>, attempts: seq<Repair>, k: nat)
    requires IsHash(hash) && Applied(hash, width, cell, attempts, k)
    ensures InForce(attempts[k].grant, attempts[k].at) && GrantedTo(attempts[k].execution, attempts[k].grant)
  {
    ActiveExactly(attempts[k].grant, attempts[k].at);
    PassesExactly(hash, width, attempts[k], After(hash, width, cell, attempts[..k]));
  }

  /** A run of attempts under grants that have ended, have not begun or were given to others changes nothing. */
  lemma {:induction false} EndedGrantsRepairNothing(
      hash: Digested -> string, width: string -> nat, cell: Option<Projection>, attempts: seq<Repair>)
    requires IsHash(hash)
    requires forall r | r in attempts :: !InForce(r.grant, r.at) || !GrantedTo(r.execution, r.grant)
    ensures After(hash, width, cell, attempts) == cell
  {
    if attempts != [] {
      var last := |attempts| - 1;
      EndedGrantsRepairNothing(hash, width, cell, attempts[..last]);
      assert attempts[last] in attempts;
      ActiveExactly(attempts[last].grant, attempts[last].at);
    }
  }

  /** In between, time does not matter: a repair that passes at two times passes at every time between, but for the
      zero time. */
  lemma PassesInBetween(
      hash: Digested -> string, width: string -> nat, r: Repair, current: Option<Projection>, early: int, late: int)
    requires Passes(hash, width, r.(at := early), current) && Passes(hash, width, r.(at := late), current)
    requires early <= r.at <= late
    ensures Passes(hash, width, r, current) <==> r.at != 0
  {
    ActiveExactly(r.grant, early);
    ActiveExactly(r.grant, late);
    ActiveExactly(r.grant, r.at);
  }

  // ---- targets ---------------------------------------------------------------------------

  /** A projection that may be written: named, in one of the seven states, its ids no longer than their columns and its
      revision within 63 bits. */
  ghost predicate Writable(width: string -> nat, p: Projection) {
    && Named(p.taskUuid) && Named(p.workflowId) && Named(p.runId)
    && width(Trim(p.workflowId)) < 256 && width(Trim(p.runId)) < 65 && p.revision < 0x8000_0000_0000_0000
    && p.status in {Created, Running, WaitingInput, WaitingApproval, Completed, Failed, Cancelled}
  }

  lemma WritableExactly(width: string -> nat, p: Projection)
    ensures ValidProjection(width, p) <==> Writable(width, p)
  {
    NamedExactly(p.taskUuid);
    NamedExactly(p.workflowId);
    NamedExactly(p.runId);
  }

  ghost predicate Injective(hash: Digested -> string) { forall a, b :: hash(a) == hash(b) ==> a == b }

  predicate SameRecord(p: Projection, q: Projection) {
    p.revision == q.revision && p.status == q.status && p.workflowId == q.workflowId && p.runId == q.runId
  }

  /** What an execution authorises is one record: with a digest that tells records apart, two applied repairs were of
      the same target digest exactly when they wrote the same revision, status, workflow and run. */
  lemma TargetIsOneRecord(
      hash: Digested -> string, width: string -> nat, cell: Option<Projection>, attempts: seq<Repair>, i: nat, j: nat)
    requires IsHash(hash) && Injective(hash)
    requires Applied(hash, width, cell, attempts, i) && Applied(hash, width, cell, attempts, j)
    ensures Writable(width, attempts[i].target)
    ensures attempts[i].execution.target == attempts[j].execution.target
       <==> SameRecord(attempts[i].target, attempts[j].target)
  {
    WritableExactly(width, attempts[i].target);
    PassesExactly(hash, width, attempts[i], After(hash, width, cell, attempts[..i]));
    PassesExactly(hash, width, attempts[j], After(hash, width, cell, attempts[..j]));
    var a, b := attempts[i].target, attempts[j].target;
    var x := Digested(a.revision, a.status, a.workflowId, a.runId);
    var y := Digested(b.revision, b.status, b.workflowId, b.runId);
    assert x == y <==> SameRecord(a, b);
  }

  /** With such a digest an applied repair changes the record: the one it replaced differs from the one it wrote. */
  lemma AppliedRepairsChangeTheRecord(
      hash: Digested -> string, width: string -> nat, cell: Option<Projection>, attempts: seq<Repair>, k: nat)
    requires IsHash(hash) && Injective(hash) && Applied(hash, width, cell, attempts, k)
    ensures var before := After(hash, width, cell, attempts[..k]);
      before.Some? ==>
        !SameRecord(before.value, attempts[k].target) && before.value.taskUuid == attempts[k].target.taskUuid
  {
    PassesExactly(hash, width, attempts[k], After(hash, width, cell, attempts[..k]));
  }

  // ---- refusals --------------------------------------------------------------------------

  /** The refusals, in the order they are looked for. */
  const REFUSALS := [
    NoEvaluationTime, NotClaimable, GrantUnavailable, TargetUnbound, TargetMismatch, ExpectedMissing, CurrentMismatch,
    Unchanged]

  /** What each refusal says of the repair and the cell. */
  ghost predicate Wrong(
      hash: Digested -> string, width: string -> nat, r: Repair, current: Option<Projection>, refusal: Refusal) {
    match refusal
    case NoEvaluationTime => r.at == 0
    case NotClaimable => r.execution.status == Settled
    case GrantUnavailable => !InForce(r.grant, r.at) || !GrantedTo(r.execution, r.grant)
    case TargetUnbound => !Writable(width, r.target) || r.target.taskUuid != r.execution.taskUuid
    case TargetMismatch => CellDigest(hash, Some(r.target)) != r.execution.target
    case ExpectedMissing => r.execution.expectedCurrent == "" && current.Some?
    case CurrentMismatch =>
      && r.execution.expectedCurrent != ""
      && !exists p :: current == Some(p) && p.taskUuid == r.execution.taskUuid
                      && CellDigest(hash, current) == r.execution.expectedCurrent
    case Unchanged => current.Some? && CellDigest(hash, current) == CellDigest(hash, Some(r.target))
  }

  /** k is the first refusal that holds, or the end of the list. */
  ghost predicate First(
      hash: Digested -> string, width: string -> nat, r: Repair, current: Option<Projection>, k: nat) {
    && k <= |REFUSALS| && (k < |REFUSALS| ==> Wrong(hash, width, r, current, REFUSALS[k]))
    && forall j | 0 <= j < k :: !Wrong(hash, width, r, current, REFUSALS[j])
  }

  lemma GuardsAreWrongs(hash: Digested -> string, width: string -> nat, r: Repair, current: Option<Projection>)
    ensures var wrong := (why: Refusal) => Wrong(hash, width, r, current, why);
      Check(hash, width, r, current) ==
        if wrong(NoEvaluationTime) then Some(NoEvaluationTime)
        else if wrong(NotClaimable) then Some(NotClaimable)
        else if wrong(GrantUnavailable) then Some(GrantUnavailable)
        else if wrong(TargetUnbound) then Some(TargetUnbound)
        else if wrong(TargetMismatch) then Some(TargetMismatch)
        else if wrong(ExpectedMissing) then Some(ExpectedMissing)
        else if wrong(CurrentMismatch) then Some(CurrentMismatch)
        else if wrong(Unchanged) then Some(Unchanged)
        else None
  {
    ActiveExactly(r.grant, r.at);
    WritableExactly(width, r.target);
  }

  lemma GuardsInOrder(hash: Digested -> string, width: string -> nat, r: Repair, current: Option<Projection>)
      returns (k: nat)
    ensures First(hash, width, r, current, k)
    ensures Check(hash, width, r, current) == if k < |REFUSALS| then Some(REFUSALS[k]) else None
  {
    GuardsAreWrongs(hash, width, r, current);
    if Wrong(hash, width, r, current, NoEvaluationTime) { return 0; }
    if Wrong(hash, width, r, current, NotClaimable) { return 1; }
    if Wrong(hash, width, r, current, GrantUnavailable) { return 2; }
    if Wrong(hash, width, r, current, TargetUnbound) { return 3; }
    if Wrong(hash, width, r, current, TargetMismatch) { return 4; }
    if Wrong(hash, width, r, current, ExpectedMissing) { return 5; }
    if Wrong(hash, width, r, current, CurrentMismatch) { return 6; }
    if Wrong(hash, width, r, current, Unchanged) { return 7; }
    return 8;
  }

  lemma OneIsFirst(
      hash: Digested -> string, width: string -> nat, r: Repair, current: Option<Projection>, j: nat, k: nat)
    requires First(hash, width, r, current, j) && First(hash, width, r, current, k)
    ensures j == k
  {}

  /** A repair is refused for the first thing that is wrong with it, and passes exactly when nothing is. */
  lemma RefusedForTheFirst(
      hash: Digested -> string, width: string -> nat, r: Repair, current: Option<Projection>, k: nat)
    requires First(hash, width, r, current, k)
    ensures Check(hash, width, r, current) == if k < |REFUSALS| then Some(REFUSALS[k]) else None
  {
    var first := GuardsInOrder(hash, width, r, current);
    OneIsFirst(hash, width, r, current, k, first);
  }
}
