/** The precondition of a workflow repair (internal/application/agent_workflow_repair_guard.go) as an optimistic
    compare-and-swap on one projection cell, and what whole runs of repairs keep. */
module RepairGuard {
  import opened Text
  import opened Wrappers

  datatype WorkflowStatus =
    | Created | Running | WaitingInput | WaitingApproval | Completed | Failed | Cancelled | OtherStatus

  datatype Projection = Projection(
    taskUuid: string, workflowId: string, runId: string, status: WorkflowStatus, revision: nat)

  datatype ExecutionStatus = Prepared | Executing | Settled

  datatype Execution = Execution(
    taskUuid: string, executorUuid: string, executorGrantVersion: nat,
    expectedCurrent: string, target: string, status: ExecutionStatus)

  datatype Grant = Grant(
    userUuid: string, version: nat, canExecute: bool, validFrom: int, expiresAt: Option<int>, revokedAt: Option<int>)

  /** Everything a repair is checked with but the current projection. at is 0 for the zero time. */
  datatype Repair = Repair(execution: Execution, grant: Grant, target: Projection, at: int)

  datatype Refusal =
    | NoEvaluationTime | NotClaimable | GrantUnavailable | TargetUnbound | TargetMismatch
    | ExpectedMissing | CurrentMismatch | Unchanged

  const MAX_INT64 := 0x7FFF_FFFF_FFFF_FFFF

  /** The fields of a projection that its digest covers; the task is not one of them. */
  datatype Digested = Digested(revision: nat, status: WorkflowStatus, workflowId: string, runId: string)

  /** hash stands for the hex SHA-256 of the canonical JSON; it is never empty. */
  ghost predicate IsHash(hash: Digested -> string) { forall d :: hash(d) != "" }

  function Digest(hash: Digested -> string, p: Projection): string {
    hash(Digested(p.revision, p.status, p.workflowId, p.runId))
  }

  /** The digest of a cell, empty when nothing is there. */
  function CellDigest(hash: Digested -> string, cell: Option<Projection>): string {
    match cell case None => "" case Some(p) => Digest(hash, p)
  }

  predicate GrantActive(g: Grant, at: int) {
    && !Blank(g.userUuid) && g.validFrom <= at
    && (g.expiresAt.Some? ==> g.expiresAt.value > at)
    && (g.revokedAt.Some? ==> g.revokedAt.value > at)
  }

  /** len() counts bytes; width says how many a string has in UTF-8. */
  predicate ValidProjection(width: string -> nat, p: Projection) {
    && !Blank(p.taskUuid) && !Blank(p.workflowId) && !Blank(p.runId)
    && width(Trim(p.workflowId)) <= 255 && width(Trim(p.runId)) <= 64 && p.revision <= MAX_INT64
    && !p.status.OtherStatus?
  }

  function Check(
      hash: Digested -> string, width: string -> nat, r: Repair, current: Option<Projection>): Option<Refusal> {
    var e := r.execution;
    if r.at == 0 then Some(NoEvaluationTime)
    else if !e.status.Prepared? && !e.status.Executing? then Some(NotClaimable)
    else if e.executorUuid != r.grant.userUuid || e.executorGrantVersion != r.grant.version || !r.grant.canExecute
            || !GrantActive(r.grant, r.at) then Some(GrantUnavailable)
    else if !ValidProjection(width, r.target) || r.target.taskUuid != e.taskUuid then Some(TargetUnbound)
    else if Digest(hash, r.target) != e.target then Some(TargetMismatch)
    else if e.expectedCurrent == "" && current.Some? then Some(ExpectedMissing)
    else if e.expectedCurrent != "" && (current.None? || current.value.taskUuid != e.taskUuid
            || Digest(hash, current.value) != e.expectedCurrent) then Some(CurrentMismatch)
    else if current.Some? && Digest(hash, current.value) == Digest(hash, r.target) then Some(Unchanged)
    else None
  }

  predicate Passes(hash: Digested -> string, width: string -> nat, r: Repair, current: Option<Projection>) {
    Check(hash, width, r, current).None?
  }

  /** The guard's own conditions on clock, grant and target; they leave the cell out. */
  predicate Ready(hash: Digested -> string, width: string -> nat, r: Repair) {
    && r.at != 0 && !r.execution.status.Settled?
    && r.execution.executorUuid == r.grant.userUuid && r.execution.executorGrantVersion == r.grant.version
    && r.grant.canExecute && GrantActive(r.grant, r.at)
    && ValidProjection(width, r.target) && r.target.taskUuid == r.execution.taskUuid
    && Digest(hash, r.target) == r.execution.target
  }

  /** The guard is a compare-and-swap: it passes exactly when the repair is in order, the cell's digest is the expected
      one and not the target's, and what the cell holds is about the same task. */
  lemma PassesExactly(hash: Digested -> string, width: string -> nat, r: Repair, current: Option<Projection>)
    requires IsHash(hash)
    ensures Passes(hash, width, r, current) <==>
      && Ready(hash, width, r)
      && CellDigest(hash, current) == r.execution.expectedCurrent != r.execution.target
      && (current.Some? ==> current.value.taskUuid == r.execution.taskUuid)
  {}

  /** A repair that passes writes its target; one that does not leaves the cell alone. */
  function Attempt(
      hash: Digested -> string, width: string -> nat, cell: Option<Projection>, r: Repair): Option<Projection> {
    if Passes(hash, width, r, cell) then Some(r.target) else cell
  }

  function After(
      hash: Digested -> string, width: string -> nat, cell: Option<Projection>, attempts: seq<Repair>)
      : Option<Projection> {
    if attempts == [] then cell
    else
      var last := |attempts| - 1;
      Attempt(hash, width, After(hash, width, cell, attempts[..last]), attempts[last])
  }

  /** The k-th attempt of the run was applied. */
  predicate Applied(
      hash: Digested -> string, width: string -> nat, cell: Option<Projection>, attempts: seq<Repair>, k: nat) {
    k < |attempts| && Passes(hash, width, attempts[k], After(hash, width, cell, attempts[..k]))
  }

  function AppliedAt(
      hash: Digested -> string, width: string -> nat, cell: Option<Projection>, attempts: seq<Repair>): nat -> bool {
    (k: nat) => Applied(hash, width, cell, attempts, k)
  }

  /** Nothing was applied from i on, up to j. */
  predicate NoneApplied(
      hash: Digested -> string, width: string -> nat, cell: Option<Projection>, attempts: seq<Repair>, i: nat,
      j: nat) {
    forall k: nat | i <= k < j :: !AppliedAt(hash, width, cell, attempts)(k)
  }

  lemma AfterOne(
      hash: Digested -> string, width: string -> nat, cell: Option<Projection>, attempts: seq<Repair>, k: nat)
    requires k < |attempts|
    ensures After(hash, width, cell, attempts[..k + 1])
         == Attempt(hash, width, After(hash, width, cell, attempts[..k]), attempts[k])
  {
    assert attempts[..k + 1][..k] == attempts[..k];
  }

  lemma {:induction false} CellUnchanged(
      hash: Digested -> string, width: string -> nat, cell: Option<Projection>, attempts: seq<Repair>, i: nat, j: nat)
    requires i <= j <= |attempts| && NoneApplied(hash, width, cell, attempts, i, j)
    ensures After(hash, width, cell, attempts[..j]) == After(hash, width, cell, attempts[..i])
    decreases j - i
  {
    if i < j {
      assert !AppliedAt(hash, width, cell, attempts)(j - 1);
      AfterOne(hash, width, cell, attempts, j - 1);
      CellUnchanged(hash, width, cell, attempts, i, j - 1);
    }
  }

  lemma {:induction false} PresentStaysPresent(
      hash: Digested -> string, width: string -> nat, cell: Option<Projection>, attempts: seq<Repair>, i: nat, j: nat)
    requires i <= j <= |attempts| && After(hash, width, cell, attempts[..i]).Some?
    ensures After(hash, width, cell, attempts[..j]).Some?
    decreases j - i
  {
    if i < j {
      PresentStaysPresent(hash, width, cell, attempts, i, j - 1);
      AfterOne(hash, width, cell, attempts, j - 1);
    }
  }

  /** Each applied repair starts from the state the previous applied one left: its expected digest is that
      repair's target digest, and both are about the same task. */
  lemma AppliedRepairsChain(
      hash: Digested -> string, width: string -> nat, cell: Option<Projection>, attempts: seq<Repair>, i: nat, j: nat)
    requires IsHash(hash) && i < j
    requires Applied(hash, width, cell, attempts, i) && Applied(hash, width, cell, attempts, j)
    requires NoneApplied(hash, width, cell, attempts, i + 1, j)
    ensures attempts[j].execution.expectedCurrent == attempts[i].execution.target
    ensures attempts[j].execution.taskUuid == attempts[i].execution.taskUuid
    ensures attempts[j].execution != attempts[i].execution
  {
    CellUnchanged(hash, width, cell, attempts, i + 1, j);
    AfterOne(hash, width, cell, attempts, i);
    PassesExactly(hash, width, attempts[i], After(hash, width, cell, attempts[..i]));
    PassesExactly(hash, width, attempts[j], After(hash, width, cell, attempts[..j]));
  }

  /** The last position before j where something holds that held at i. */
  lemma {:induction false} LastBefore(holds: nat -> bool, i: nat, j: nat) returns (p: nat)
    requires i < j && holds(i)
    ensures i <= p < j && holds(p) && forall k: nat | p < k < j :: !holds(k)
    decreases j
  {
    if holds(j - 1) {
      p := j - 1;
    } else {
      p := LastBefore(holds, i, j - 1);
    }
  }

  lemma PreviousApplied(
      hash: Digested -> string, width: string -> nat, cell: Option<Projection>, attempts: seq<Repair>, i: nat, j: nat)
      returns (p: nat)
    requires i < j && Applied(hash, width, cell, attempts, i)
    ensures i <= p < j && Applied(hash, width, cell, attempts, p)
    ensures NoneApplied(hash, width, cell, attempts, p + 1, j)
  {
    p := LastBefore((k: nat) => Applied(hash, width, cell, attempts, k), i, j);
  }

  /** All the repairs applied in one run are about one task. */
  lemma {:induction false} AppliedRepairsShareATask(
      hash: Digested -> string, width: string -> nat, cell: Option<Projection>, attempts: seq<Repair>, i: nat, j: nat)
    requires IsHash(hash) && i <= j
    requires Applied(hash, width, cell, attempts, i) && Applied(hash, width, cell, attempts, j)
    ensures attempts[i].execution.taskUuid == attempts[j].execution.taskUuid
    decreases j - i
  {
    if i < j {
      var p := PreviousApplied(hash, width, cell, attempts, i, j);
      AppliedRepairsShareATask(hash, width, cell, attempts, i, p);
      AppliedRepairsChain(hash, width, cell, attempts, p, j);
    }
  }

  /** A repair that expects a missing projection is applied at most once in a run, and before all others. */
  lemma MissingIsRepairedOnce(
      hash: Digested -> string, width: string -> nat, cell: Option<Projection>, attempts: seq<Repair>, i: nat, j: nat)
    requires IsHash(hash) && i < j
    requires Applied(hash, width, cell, attempts, i) && Applied(hash, width, cell, attempts, j)
    ensures attempts[j].execution.expectedCurrent != ""
  {
    AfterOne(hash, width, cell, attempts, i);
    PresentStaysPresent(hash, width, cell, attempts, i + 1, j);
    PassesExactly(hash, width, attempts[j], After(hash, width, cell, attempts[..j]));
  }

  /** The cell always holds what the last applied repair authorised. */
  lemma CellHoldsTheLastTarget(
      hash: Digested -> string, width: string -> nat, cell: Option<Projection>, attempts: seq<Repair>, i: nat)
    requires IsHash(hash) && Applied(hash, width, cell, attempts, i)
    requires NoneApplied(hash, width, cell, attempts, i + 1, |attempts|)
    ensures After(hash, width, cell, attempts) == Some(attempts[i].target)
    ensures CellDigest(hash, After(hash, width, cell, attempts)) == attempts[i].execution.target
  {
    CellUnchanged(hash, width, cell, attempts, i + 1, |attempts|);
    AfterOne(hash, width, cell, attempts, i);
    PassesExactly(hash, width, attempts[i], After(hash, width, cell, attempts[..i]));
    assert attempts[..|attempts|] == attempts;
  }

  /** Only an immediate replay is refused. Once another repair has put the old state back, the same execution
      passes again, at whatever time its grant is still good: the guard compares states and keeps no history. */
  lemma ReplayAfterUndoPasses(
      hash: Digested -> string, width: string -> nat, cell: Option<Projection>, forth: Repair, back: Repair,
      again: Repair)
    requires IsHash(hash) && cell.Some? && back.target == cell.value
    requires Passes(hash, width, forth, cell) && Passes(hash, width, back, Some(forth.target))
    requires again.execution == forth.execution && Ready(hash, width, again)
    ensures Applied(hash, width, cell, [forth, back, again], 0)
    ensures Applied(hash, width, cell, [forth, back, again], 1)
    ensures Applied(hash, width, cell, [forth, back, again], 2)
  {
    var attempts := [forth, back, again];
    assert attempts[..0] == [] && attempts[..1] == [forth] && attempts[..2] == [forth, back];
    AfterOne(hash, width, cell, attempts, 0);
    AfterOne(hash, width, cell, attempts, 1);
    PassesExactly(hash, width, forth, cell);
    PassesExactly(hash, width, again, cell);
  }

  /** A repair that passed on one cell passes on another exactly when that one has the same digest and, if it holds
      anything, is about the same task. */
  lemma PassesAgainExactly(
      hash: Digested -> string, width: string -> nat, r: Repair, was: Option<Projection>, now: Option<Projection>)
    requires IsHash(hash) && Passes(hash, width, r, was)
    ensures Passes(hash, width, r, now) <==>
      CellDigest(hash, now) == CellDigest(hash, was) && (now.Some? ==> now.value.taskUuid == r.execution.taskUuid)
  {
    PassesExactly(hash, width, r, was);
    PassesExactly(hash, width, r, now);
  }

  /** Between two applications of one execution another repair restored the digest it expects. */
  lemma ReplayNeedsAnUndo(
      hash: Digested -> string, width: string -> nat, cell: Option<Projection>, attempts: seq<Repair>, i: nat, j: nat)
      returns (p: nat)
    requires IsHash(hash) && i < j
    requires Applied(hash, width, cell, attempts, i) && Applied(hash, width, cell, attempts, j)
    requires attempts[i].execution == attempts[j].execution
    ensures i < p < j && Applied(hash, width, cell, attempts, p)
    ensures attempts[p].execution.target == attempts[i].execution.expectedCurrent
  {
    p := PreviousApplied(hash, width, cell, attempts, i, j);
    AppliedRepairsChain(hash, width, cell, attempts, p, j);
  }

  /** p is the last repair applied before j, after i, and it put that digest back. */
  predicate Restores(
      hash: Digested -> string, width: string -> nat, cell: Option<Projection>, attempts: seq<Repair>, i: nat,
      p: nat, j: nat,
      digest: string) {
    && i < p < j && Applied(hash, width, cell, attempts, p)
    && NoneApplied(hash, width, cell, attempts, p + 1, j) && attempts[p].execution.target == digest
  }

  /** An applied execution that is attempted again, at any later time and under any grant, is applied again exactly
      when the last repair applied in between put back the digest it expects and the new attempt is itself in
      order. */
  lemma ReplayedExactly(
      hash: Digested -> string, width: string -> nat, cell: Option<Projection>, attempts: seq<Repair>, i: nat, j: nat)
    requires IsHash(hash) && i < j < |attempts| && attempts[j].execution == attempts[i].execution
    requires Applied(hash, width, cell, attempts, i)
    ensures Applied(hash, width, cell, attempts, j) <==>
      && Ready(hash, width, attempts[j])
      && exists p: nat :: Restores(hash, width, cell, attempts, i, p, j, attempts[i].execution.expectedCurrent)
  {
    var p := PreviousApplied(hash, width, cell, attempts, i, j);
    if Applied(hash, width, cell, attempts, j) {
      AppliedRepairsChain(hash, width, cell, attempts, p, j);
      PassesExactly(hash, width, attempts[j], After(hash, width, cell, attempts[..j]));
      assert Restores(hash, width, cell, attempts, i, p, j, attempts[i].execution.expectedCurrent);
    }
    if q: nat :| Restores(hash, width, cell, attempts, i, q, j, attempts[i].execution.expectedCurrent) {
      if Ready(hash, width, attempts[j]) {
        RestoredPasses(hash, width, cell, attempts, i, q, j);
      }
    }
  }

  lemma RestoredPasses(
      hash: Digested -> string, width: string -> nat, cell: Option<Projection>, attempts: seq<Repair>,
      i: nat, q: nat, j: nat)
    requires IsHash(hash) && i < q < j < |attempts| && attempts[j].execution == attempts[i].execution
    requires Applied(hash, width, cell, attempts, i) && Applied(hash, width, cell, attempts, q)
    requires NoneApplied(hash, width, cell, attempts, q + 1, j)
    requires attempts[q].execution.target == attempts[i].execution.expectedCurrent
    requires Ready(hash, width, attempts[j])
    ensures Applied(hash, width, cell, attempts, j)
  {
    CellUnchanged(hash, width, cell, attempts, q + 1, j);
    AfterOne(hash, width, cell, attempts, q);
    AppliedRepairsShareATask(hash, width, cell, attempts, i, q);
    var target := attempts[q].target;
    PassesExactly(hash, width, attempts[q], After(hash, width, cell, attempts[..q]));
    PassesExactly(hash, width, attempts[i], After(hash, width, cell, attempts[..i]));
    assert After(hash, width, cell, attempts[..j]) == Some(target);
    assert target.taskUuid == attempts[j].execution.taskUuid;
    PassesExactly(hash, width, attempts[j], Some(target));
  }

  /** With any digest that tells two states of a workflow apart, a run in which one execution is applied twice:
      revision 1 is repaired to 2, back to 1, and later to 2 again. */
  lemma AnExecutionAppliedTwice(hash: Digested -> string, width: string -> nat)
      returns (cell: Option<Projection>, attempts: seq<Repair>)
    requires IsHash(hash) && width("w") <= 64
    requires hash(Digested(1, Running, "w", "w")) != hash(Digested(2, Running, "w", "w"))
    ensures |attempts| == 3 && attempts[0].execution == attempts[2].execution
    ensures attempts[0].at < attempts[1].at < attempts[2].at
    ensures Applied(hash, width, cell, attempts, 0) && Applied(hash, width, cell, attempts, 2)
  {
    var one, two := Projection("w", "w", "w", Running, 1), Projection("w", "w", "w", Running, 2);
    var first, second := Digest(hash, one), Digest(hash, two);
    var grant := Grant("w", 1, true, 0, None, None);
    var forth := Repair(Execution("w", "w", 1, first, second, Prepared), grant, two, 1);
    var back := Repair(Execution("w", "w", 1, second, first, Prepared), grant, one, 2);
    TrimTrimmed("w");
    cell, attempts := Some(one), [forth, back, forth.(at := 3)];
    ReplayAfterUndoPasses(hash, width, cell, forth, back, forth.(at := 3));
  }
}
