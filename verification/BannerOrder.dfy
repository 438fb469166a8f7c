/** What the waiting-task banner shows (frontend/src/composables/useAgentTaskWaiting.ts): the rows of a page,
    the order of the notices, and which of equal revisions stays. */
module BannerOrder {
  import opened Wrappers
  import opened TaskWaiting

  /** The row waits for someone, as this locator says. */
  predicate WaitsAs(t: OwnedTask, l: Locator) {
    t.taskId == l.taskId && t.pendingKind == Some(l.kind) && t.revision == l.revision && t.revision > 0
  }

  predicate Ascending(at: seq<nat>) { forall i, j | 0 <= i < j < |at| :: at[i] < at[j] }

  /** at lists the rows of the page that wait, in order. */
  ghost predicate RowsAre(tasks: seq<OwnedTask>, waiting: seq<Locator>, at: seq<nat>) {
    && |at| == |waiting| && Ascending(at)
    && (forall k | 0 <= k < |at| :: at[k] < |tasks| && WaitsAs(tasks[at[k]], waiting[k]))
    && forall i: nat | i < |tasks| && tasks[i].pendingKind.Some? && tasks[i].revision > 0 :: i in at
  }

  lemma RowWaits(tasks: seq<OwnedTask>, t: OwnedTask, l: Locator, waiting: seq<Locator>, at: seq<nat>)
    requires RowsAre(tasks, waiting, at) && WaitsAs(t, l)
    ensures RowsAre(tasks + [t], waiting + [l], at + [|tasks|])
  {
    var all, more := tasks + [t], at + [|tasks|];
    forall i: nat | i < |all| && all[i].pendingKind.Some? && all[i].revision > 0 ensures i in more {
      if i < |tasks| { assert i in at; } else { assert more[|at|] == i; }
    }
  }

  lemma RowDoesNotWait(tasks: seq<OwnedTask>, t: OwnedTask, waiting: seq<Locator>, at: seq<nat>)
    requires RowsAre(tasks, waiting, at) && (t.pendingKind.None? || t.revision == 0)
    ensures RowsAre(tasks + [t], waiting, at)
  {}

  /** A page's locators are those of its waiting rows, one for each, in the order of the page. */
  lemma {:induction false} WaitingRows(tasks: seq<OwnedTask>) returns (at: seq<nat>)
    ensures RowsAre(tasks, Waiting(tasks), at)
  {
    at := [];
    if tasks != [] {
      var last := |tasks| - 1;
      var t := tasks[last];
      at := WaitingRows(tasks[..last]);
      assert tasks == tasks[..last] + [t];
      if t.pendingKind.Some? && t.revision > 0 {
        RowWaits(tasks[..last], t, Locator(t.taskId, t.pendingKind.value, t.revision), Waiting(tasks[..last]), at);
        at := at + [last];
      } else {
        RowDoesNotWait(tasks[..last], t, Waiting(tasks[..last]), at);
      }
    }
  }

  /** A replacing page is shown as it is: the notices are its waiting rows in order. */
  lemma ReplaceShowsThePage(s: State, tasks: seq<OwnedTask>) returns (at: seq<nat>)
    ensures RowsAre(tasks, Step(s, Replace(Some(tasks))).notices, at)
  {
    at := WaitingRows(tasks);
  }

  predicate Silent(e: Event) { e == Push(None) || e == Merge(None) || e == Replace(None) }

  /** What does not arrive changes nothing: pushes that do not parse and pages that could not be fetched. */
  lemma {:induction false} NothingArrives(s: State, events: seq<Event>)
    requires forall e | e in events :: Silent(e)
    ensures After(s, events) == s
    decreases |events|
  {
    if events != [] {
      assert Silent(events[0]);
      NothingArrives(s, events[1..]);
    }
  }

  // ---- the order of the notices ----------------------------------------------------------

  /** a is delivered before b is delivered for the first time. */
  ghost predicate ComesFirst(delivered: seq<Locator>, a: string, b: string) {
    exists k :: 0 <= k < |delivered| && delivered[k].taskId == a && Absent(delivered, k, b)
  }

  ghost predicate Absent(delivered: seq<Locator>, k: int, id: string)
    requires k < |delivered|
  {
    forall j | 0 <= j <= k :: delivered[j].taskId != id
  }

  /** n is delivered, and every delivery of its task before it was of a smaller revision. */
  ghost predicate FirstOfItsRevision(delivered: seq<Locator>, n: Locator) {
    exists k :: 0 <= k < |delivered| && delivered[k] == n
                && forall j | 0 <= j < k && delivered[j].taskId == n.taskId :: delivered[j].revision < n.revision
  }

  /** The notices stand in the order their tasks were first delivered, each the first of its revision. */
  ghost predicate InOrder(s: State, delivered: seq<Locator>) {
    && (forall i, j | 0 <= i < j < |s.notices| ::
          ComesFirst(delivered, s.notices[i].taskId, s.notices[j].taskId))
    && forall n | n in s.notices :: FirstOfItsRevision(delivered, n)
  }

  lemma EarlierStays(delivered: seq<Locator>, l: Locator, a: string, b: string)
    requires ComesFirst(delivered, a, b)
    ensures ComesFirst(delivered + [l], a, b)
  {
    var k :| 0 <= k < |delivered| && delivered[k].taskId == a && Absent(delivered, k, b);
    var all := delivered + [l];
    assert all[k].taskId == a && Absent(all, k, b);
  }

  lemma NewComesLast(delivered: seq<Locator>, l: Locator, a: string)
    requires (exists d :: d in delivered && d.taskId == a) && forall d | d in delivered :: d.taskId != l.taskId
    ensures ComesFirst(delivered + [l], a, l.taskId)
  {
    var d :| d in delivered && d.taskId == a;
    var k :| 0 <= k < |delivered| && delivered[k] == d;
    var all := delivered + [l];
    assert all[k].taskId == a && Absent(all, k, l.taskId);
  }

  lemma FirstStays(delivered: seq<Locator>, l: Locator, n: Locator)
    requires FirstOfItsRevision(delivered, n)
    ensures FirstOfItsRevision(delivered + [l], n)
  {
    var k :| 0 <= k < |delivered| && delivered[k] == n
             && forall j | 0 <= j < k && delivered[j].taskId == n.taskId :: delivered[j].revision < n.revision;
    assert (delivered + [l])[k] == n;
  }

  lemma NewsIsFirst(seen: map<string, nat>, delivered: seq<Locator>, l: Locator)
    requires IsWatermark(seen, delivered) && News(seen, l)
    ensures FirstOfItsRevision(delivered + [l], l)
  {
    var all := delivered + [l];
    assert all[|delivered|] == l;
    forall j | 0 <= j < |delivered| && all[j].taskId == l.taskId ensures all[j].revision < l.revision {
      assert delivered[j] in delivered;
    }
  }

  /** A notice keeps its place when a later revision of its task arrives; a new task goes to the end. */
  lemma UpsertKeepsPlaces(notices: seq<Locator>, l: Locator)
    ensures var after := Upsert(notices, l);
      && |notices| <= |after| <= |notices| + 1
      && (forall k | 0 <= k < |notices| :: after[k].taskId == notices[k].taskId)
      && (forall k | 0 <= k < |after| :: after[k] == l || (k < |notices| && after[k] == notices[k]))
      && (|after| == |notices| <==> exists n :: n in notices && n.taskId == l.taskId)
      && l in after
  {
    var i := IndexOf(notices, l.taskId);
    assert Upsert(notices, l)[i] == l;
  }

  lemma AcceptKeepsOrder(s: State, delivered: seq<Locator>, l: Locator)
    requires IsWatermark(s.seen, delivered) && Mirrors(s, delivered) && InOrder(s, delivered)
    ensures InOrder(Accept(s, l), delivered + [l])
  {
    if News(s.seen, l) {
      NewsKeepsPlaces(s, delivered, l);
      NewsKeepsFirsts(s, delivered, l);
    } else {
      forall i, j | 0 <= i < j < |s.notices|
        ensures ComesFirst(delivered + [l], s.notices[i].taskId, s.notices[j].taskId)
      {
        EarlierStays(delivered, l, s.notices[i].taskId, s.notices[j].taskId);
      }
      forall n | n in s.notices ensures FirstOfItsRevision(delivered + [l], n) { FirstStays(delivered, l, n); }
    }
  }

  lemma NewsKeepsPlaces(s: State, delivered: seq<Locator>, l: Locator)
    requires IsWatermark(s.seen, delivered) && Mirrors(s, delivered) && InOrder(s, delivered)
    ensures var after := Upsert(s.notices, l);
      forall i, j | 0 <= i < j < |after| :: ComesFirst(delivered + [l], after[i].taskId, after[j].taskId)
  {
    var after := Upsert(s.notices, l);
    UpsertKeepsPlaces(s.notices, l);
    forall i, j | 0 <= i < j < |after| ensures ComesFirst(delivered + [l], after[i].taskId, after[j].taskId) {
      if j < |s.notices| {
        EarlierStays(delivered, l, s.notices[i].taskId, s.notices[j].taskId);
      } else {
        NewTaskIsUnheardOf(s, delivered, l);
        assert s.notices[i] in s.notices;
        NewComesLast(delivered, l, s.notices[i].taskId);
      }
    }
  }

  lemma NewTaskIsUnheardOf(s: State, delivered: seq<Locator>, l: Locator)
    requires IsWatermark(s.seen, delivered) && Mirrors(s, delivered)
    requires forall n | n in s.notices :: n.taskId != l.taskId
    ensures forall d | d in delivered :: d.taskId != l.taskId
  {
    forall d | d in delivered ensures d.taskId != l.taskId { assert d.taskId in s.seen; }
  }

  lemma NewsKeepsFirsts(s: State, delivered: seq<Locator>, l: Locator)
    requires IsWatermark(s.seen, delivered) && InOrder(s, delivered) && News(s.seen, l)
    ensures forall n | n in Upsert(s.notices, l) :: FirstOfItsRevision(delivered + [l], n)
  {
    UpsertMembersOnly(s.notices, l);
    forall n | n in Upsert(s.notices, l) ensures FirstOfItsRevision(delivered + [l], n) {
      if n in s.notices { FirstStays(delivered, l, n); } else { NewsIsFirst(s.seen, delivered, l); }
    }
  }

  lemma {:induction false} AcceptAllKeepsOrder(s: State, delivered: seq<Locator>, waiting: seq<Locator>)
    requires IsWatermark(s.seen, delivered) && Mirrors(s, delivered) && InOrder(s, delivered)
    ensures InOrder(AcceptAll(s, waiting), delivered + waiting)
    decreases |waiting|
  {
    if waiting == [] {
      assert delivered + waiting == delivered;
    } else {
      assert (delivered + [waiting[0]]) + waiting[1..] == delivered + waiting;
      AcceptKeeps(s, delivered, waiting[0]);
      AcceptKeepsOrder(s, delivered, waiting[0]);
      AcceptAllKeepsOrder(Accept(s, waiting[0]), delivered + [waiting[0]], waiting[1..]);
    }
  }

  lemma {:induction false} MergeRunKeepsOrder(s: State, delivered: seq<Locator>, events: seq<Event>)
    requires IsWatermark(s.seen, delivered) && Mirrors(s, delivered) && InOrder(s, delivered) && MergesOnly(events)
    ensures InOrder(After(s, events), delivered + Delivered(events))
    decreases |events|
  {
    if events == [] {
      assert delivered + Delivered(events) == delivered;
    } else {
      assert events[0] in events;
      var so := delivered + Payload(events[0]);
      assert so + Delivered(events[1..]) == delivered + Delivered(events);
      MergeStepKeeps(s, delivered, events[0]);
      StepKeepsOrder(s, delivered, events[0]);
      MergeRunKeepsOrder(Step(s, events[0]), so, events[1..]);
    }
  }

  lemma StepKeepsOrder(s: State, delivered: seq<Locator>, e: Event)
    requires IsWatermark(s.seen, delivered) && Mirrors(s, delivered) && InOrder(s, delivered) && !e.Replace?
    ensures InOrder(Step(s, e), delivered + Payload(e))
  {
    assert delivered + [] == delivered;
    match e {
      case Push(Some(locator)) => AcceptKeepsOrder(s, delivered, locator);
      case Merge(Some(tasks)) => AcceptAllKeepsOrder(s, delivered, Waiting(tasks));
      case _ =>
    }
  }

  /** After pushes and merged pages alone the tasks stand in the order they were first heard of, and of locators with
      the same task and revision the first to arrive is the one shown. */
  lemma MergeRunShowsInOrder(events: seq<Event>)
    requires MergesOnly(events)
    ensures InOrder(After(NOTHING_SEEN, events), Delivered(events))
  {
    assert [] + Delivered(events) == Delivered(events);
    MergeRunKeepsOrder(NOTHING_SEEN, [], events);
  }
}
