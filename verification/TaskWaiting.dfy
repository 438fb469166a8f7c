/** The waiting-task banner of frontend/src/composables/useAgentTaskWaiting.ts: pushed locators and
    fetched inbox pages, merged under one revision watermark per task. */
module TaskWaiting {
  import opened Wrappers

  datatype PendingKind = Input | Approval

  datatype Locator = Locator(taskId: string, kind: PendingKind, revision: nat)

  datatype OwnedTask = OwnedTask(taskId: string, revision: nat, pendingKind: Option<PendingKind>)

  datatype State = State(notices: seq<Locator>, seen: map<string, nat>)

  const NOTHING_SEEN := State([], map[])

  // ---- one delivery ----------------------------------------------------------------------

  function IndexOf(notices: seq<Locator>, taskId: string): (i: nat)
    ensures i <= |notices|
    ensures i < |notices| ==> notices[i].taskId == taskId
    ensures forall k | 0 <= k < i :: notices[k].taskId != taskId
  {
    if notices == [] || notices[0].taskId == taskId then 0 else 1 + IndexOf(notices[1..], taskId)
  }

  function Upsert(notices: seq<Locator>, locator: Locator): seq<Locator> {
    var i := IndexOf(notices, locator.taskId);
    if i < |notices| then notices[i := locator] else notices + [locator]
  }

  predicate News(seen: map<string, nat>, locator: Locator) {
    locator.taskId in seen ==> seen[locator.taskId] < locator.revision
  }

  function Accept(s: State, locator: Locator): State {
    if News(s.seen, locator)
    then State(Upsert(s.notices, locator), s.seen[locator.taskId := locator.revision])
    else s
  }

  function AcceptAll(s: State, waiting: seq<Locator>): State
    decreases |waiting|
  {
    if waiting == [] then s else AcceptAll(Accept(s, waiting[0]), waiting[1..])
  }

  function RaiseMarks(seen: map<string, nat>, waiting: seq<Locator>): map<string, nat>
    decreases |waiting|
  {
    if waiting == [] then seen
    else
      var l := waiting[0];
      RaiseMarks(if News(seen, l) then seen[l.taskId := l.revision] else seen, waiting[1..])
  }

  /** The waiting rows of an inbox page. */
  function Waiting(tasks: seq<OwnedTask>): seq<Locator> {
    if tasks == [] then []
    else
      var last := |tasks| - 1;
      var t := tasks[last];
      Waiting(tasks[..last])
      + if t.pendingKind.None? || t.revision < 1 then [] else [Locator(t.taskId, t.pendingKind.value, t.revision)]
  }

  /** raw is None when the pushed event does not parse; page is None when the list call failed. */
  datatype Event =
    | Push(raw: Option<Locator>)
    | Merge(page: Option<seq<OwnedTask>>)
    | Replace(page: Option<seq<OwnedTask>>)

  function Step(s: State, e: Event): State {
    match e
    case Push(Some(locator)) => Accept(s, locator)
    case Merge(Some(tasks)) => AcceptAll(s, Waiting(tasks))
    case Replace(Some(tasks)) => State(Waiting(tasks), RaiseMarks(s.seen, Waiting(tasks)))
    case _ => s
  }

  function After(s: State, events: seq<Event>): State
    decreases |events|
  {
    if events == [] then s else After(Step(s, events[0]), events[1..])
  }

  // ---- the composable --------------------------------------------------------------------

  class TaskBanner {
    const enabled: bool
    const listed: bool
    var notices: seq<Locator>
    var seen: map<string, nat>

    ghost function View(): State
      reads this
    {
      State(notices, seen)
    }

    constructor (enabled: bool, listed: bool)
      ensures View() == NOTHING_SEEN && this.enabled == enabled && this.listed == listed
    {
      this.enabled, this.listed := enabled, listed;
      notices, seen := [], map[];
    }

    /** refreshing says whether a merge refresh was started. */
    method AcceptLocator(raw: Option<Locator>) returns (accepted: bool, refreshing: bool)
      modifies this
      ensures View() == if enabled then Step(old(View()), Push(raw)) else old(View())
      ensures accepted <==> enabled && raw.Some? && News(old(seen), raw.value)
      ensures refreshing <==> accepted && listed
    {
      if !enabled || raw.None? {
        return false, false;
      }
      var locator := raw.value;
      if locator.taskId in seen && seen[locator.taskId] >= locator.revision {
        return false, false;
      }
      seen := seen[locator.taskId := locator.revision];
      PutNotice(locator);
      return true, listed;
    }

    /** What happens when the inbox list call comes back. */
    method RefreshFromInbox(replace: bool, page: Option<seq<OwnedTask>>)
      modifies this
      ensures View() ==
        if !enabled || !listed then old(View())
        else Step(old(View()), if replace then Replace(page) else Merge(page))
    {
      if !enabled || !listed || page.None? {
        return;
      }
      var waiting := WaitingFromInbox(page.value);
      if replace {
        RaiseSeen(waiting);
        notices := waiting;
      } else {
        MergeWaiting(waiting);
      }
    }

    /** The loop over a replacing page. */
    method RaiseSeen(waiting: seq<Locator>)
      modifies this`seen
      ensures seen == RaiseMarks(old(seen), waiting)
    {
      var i := 0;
      while i < |waiting|
        invariant 0 <= i <= |waiting|
        invariant RaiseMarks(seen, waiting[i..]) == RaiseMarks(old(seen), waiting)
      {
        var locator := waiting[i];
        assert waiting[i..][1..] == waiting[i + 1..];
        if locator.taskId !in seen || seen[locator.taskId] < locator.revision {
          seen := seen[locator.taskId := locator.revision];
        }
        i := i + 1;
      }
    }

    /** The loop over a merged page. */
    method MergeWaiting(waiting: seq<Locator>)
      modifies this
      ensures View() == AcceptAll(old(View()), waiting)
    {
      var i := 0;
      while i < |waiting|
        invariant 0 <= i <= |waiting|
        invariant AcceptAll(View(), waiting[i..]) == AcceptAll(old(View()), waiting)
      {
        var locator := waiting[i];
        assert waiting[i..][1..] == waiting[i + 1..];
        if !(locator.taskId in seen && seen[locator.taskId] >= locator.revision) {
          seen := seen[locator.taskId := locator.revision];
          PutNotice(locator);
        }
        i := i + 1;
      }
    }

    method PutNotice(locator: Locator)
      modifies this`notices
      ensures notices == Upsert(old(notices), locator)
    {
      var index := 0;
      while index < |notices| && notices[index].taskId != locator.taskId
        invariant 0 <= index <= |notices|
        invariant forall k | 0 <= k < index :: notices[k].taskId != locator.taskId
      {
        index := index + 1;
      }
      notices := if index < |notices| then notices[index := locator] else notices + [locator];
    }
  }

  method WaitingFromInbox(tasks: seq<OwnedTask>) returns (waiting: seq<Locator>)
    ensures waiting == Waiting(tasks)
  {
    waiting := [];
    var i := 0;
    while i < |tasks|
      invariant 0 <= i <= |tasks|
      invariant waiting == Waiting(tasks[..i])
    {
      var task := tasks[i];
      assert tasks[..i + 1][..i] == tasks[..i];
      if task.pendingKind.Some? && task.revision >= 1 {
        waiting := waiting + [Locator(task.taskId, task.pendingKind.value, task.revision)];
      }
      i := i + 1;
    }
    assert tasks[..i] == tasks;
  }

  // ---- merging converges -----------------------------------------------------------------

  predicate DistinctTasks(notices: seq<Locator>) {
    forall i, j | 0 <= i < j < |notices| :: notices[i].taskId != notices[j].taskId
  }

  /** seen holds, for each task delivered, the largest revision delivered. */
  ghost predicate IsWatermark(seen: map<string, nat>, delivered: seq<Locator>) {
    && (forall l | l in delivered :: l.taskId in seen && l.revision <= seen[l.taskId])
    && (forall id | id in seen :: exists l :: l in delivered && l.taskId == id && l.revision == seen[id])
  }

  /** The banner shows every task once, at its watermark, with a locator that was delivered. */
  ghost predicate Mirrors(s: State, delivered: seq<Locator>) {
    && DistinctTasks(s.notices)
    && (forall n | n in s.notices :: n in delivered && n.taskId in s.seen && n.revision == s.seen[n.taskId])
    && (forall id | id in s.seen :: exists n :: n in s.notices && n.taskId == id)
  }

  lemma UpsertMembers(notices: seq<Locator>, locator: Locator)
    requires DistinctTasks(notices)
    ensures DistinctTasks(Upsert(notices, locator))
    ensures forall n :: n in Upsert(notices, locator) <==>
                        n == locator || (n in notices && n.taskId != locator.taskId)
  {
    var i := IndexOf(notices, locator.taskId);
    var after := Upsert(notices, locator);
    forall n ensures n in after <==> n == locator || (n in notices && n.taskId != locator.taskId) {
      if n == locator {
        assert after[if i < |notices| then i else |notices|] == n;
      }
      if n in notices && n.taskId != locator.taskId {
        var k :| 0 <= k < |notices| && notices[k] == n;
        assert after[k] == n;
      }
    }
  }

  lemma AcceptKeepsWatermark(s: State, delivered: seq<Locator>, locator: Locator)
    requires IsWatermark(s.seen, delivered)
    ensures IsWatermark(Accept(s, locator).seen, delivered + [locator])
  {
    var seen := Accept(s, locator).seen;
    var all := delivered + [locator];
    assert locator in all;
    forall id | id in seen
      ensures exists l :: l in all && l.taskId == id && l.revision == seen[id]
    {
      if id != locator.taskId || !News(s.seen, locator) {
        var l :| l in delivered && l.taskId == id && l.revision == s.seen[id];
        assert l in all;
      }
    }
  }

  lemma AcceptKeepsMirror(s: State, delivered: seq<Locator>, locator: Locator)
    requires Mirrors(s, delivered) && News(s.seen, locator)
    ensures Mirrors(Accept(s, locator), delivered + [locator])
  {
    var t := Accept(s, locator);
    var all := delivered + [locator];
    UpsertMembers(s.notices, locator);
    forall n | n in t.notices ensures n in all && n.taskId in t.seen && n.revision == t.seen[n.taskId] {
      assert n == locator || n in delivered;
    }
    forall id | id in t.seen ensures exists n :: n in t.notices && n.taskId == id {
      if id == locator.taskId {
        assert locator in t.notices;
      } else {
        var n :| n in s.notices && n.taskId == id;
        assert n in t.notices;
      }
    }
  }

  lemma AcceptKeeps(s: State, delivered: seq<Locator>, locator: Locator)
    requires IsWatermark(s.seen, delivered) && Mirrors(s, delivered)
    ensures var t := Accept(s, locator);
      IsWatermark(t.seen, delivered + [locator]) && Mirrors(t, delivered + [locator])
  {
    AcceptKeepsWatermark(s, delivered, locator);
    if News(s.seen, locator) {
      AcceptKeepsMirror(s, delivered, locator);
    }
  }

  lemma {:induction false} AcceptAllKeeps(s: State, delivered: seq<Locator>, waiting: seq<Locator>)
    requires IsWatermark(s.seen, delivered) && Mirrors(s, delivered)
    ensures var t := AcceptAll(s, waiting);
      IsWatermark(t.seen, delivered + waiting) && Mirrors(t, delivered + waiting)
    decreases |waiting|
  {
    if waiting == [] {
      assert delivered + waiting == delivered;
    } else {
      var so := delivered + [waiting[0]];
      assert so + waiting[1..] == delivered + waiting by {
        assert waiting == [waiting[0]] + waiting[1..];
      }
      AcceptKeeps(s, delivered, waiting[0]);
      AcceptAllKeeps(Accept(s, waiting[0]), so, waiting[1..]);
    }
  }

  function Payload(e: Event): seq<Locator> {
    match e
    case Push(Some(locator)) => [locator]
    case Merge(Some(tasks)) => Waiting(tasks)
    case Replace(Some(tasks)) => Waiting(tasks)
    case _ => []
  }

  /** Everything a run delivers, in the order it arrives. */
  function Delivered(events: seq<Event>): seq<Locator> {
    if events == [] then [] else Payload(events[0]) + Delivered(events[1..])
  }

  predicate MergesOnly(events: seq<Event>) { forall e | e in events :: !e.Replace? }

  lemma MergeStepKeeps(s: State, delivered: seq<Locator>, e: Event)
    requires IsWatermark(s.seen, delivered) && Mirrors(s, delivered) && !e.Replace?
    ensures var t := Step(s, e); var all := delivered + Payload(e);
      IsWatermark(t.seen, all) && Mirrors(t, all)
  {
    assert delivered + [] == delivered;
    match e {
      case Push(Some(locator)) => AcceptKeeps(s, delivered, locator);
      case Merge(Some(tasks)) => AcceptAllKeeps(s, delivered, Waiting(tasks));
      case _ =>
    }
  }

  lemma {:induction false} MergeRunKeeps(s: State, delivered: seq<Locator>, events: seq<Event>)
    requires IsWatermark(s.seen, delivered) && Mirrors(s, delivered) && MergesOnly(events)
    ensures var t := After(s, events); var all := delivered + Delivered(events);
      IsWatermark(t.seen, all) && Mirrors(t, all)
    decreases |events|
  {
    if events == [] {
      assert delivered + Delivered(events) == delivered;
    } else {
      var so := delivered + Payload(events[0]);
      assert so + Delivered(events[1..]) == delivered + Delivered(events);
      MergeStepKeeps(s, delivered, events[0]);
      MergeRunKeeps(Step(s, events[0]), so, events[1..]);
    }
  }

  /** After pushes and merged pages alone, the banner shows each delivered task exactly once, at the
      largest revision delivered for it. */
  lemma MergeRunShowsTheMaximum(events: seq<Event>)
    requires MergesOnly(events)
    ensures var s := After(NOTHING_SEEN, events);
      IsWatermark(s.seen, Delivered(events)) && Mirrors(s, Delivered(events))
  {
    assert [] + Delivered(events) == Delivered(events);
    MergeRunKeeps(NOTHING_SEEN, [], events);
  }

  ghost predicate SameElements<T(!new)>(a: seq<T>, b: seq<T>) { forall x :: x in a <==> x in b }

  ghost predicate Shown(s: State, id: string, r: nat) {
    exists n :: n in s.notices && n.taskId == id && n.revision == r
  }

  /** No interleaving and no duplication can be told apart afterwards: two runs that delivered the same
      locators agree on every watermark and on which revision is shown for which task, and on the whole
      locators when task and revision fix the kind. */
  lemma MergeRunsConverge(a: seq<Event>, b: seq<Event>)
    requires MergesOnly(a) && MergesOnly(b)
    requires SameElements(Delivered(a), Delivered(b))
    ensures After(NOTHING_SEEN, a).seen == After(NOTHING_SEEN, b).seen
    ensures forall id, r :: Shown(After(NOTHING_SEEN, a), id, r) <==> Shown(After(NOTHING_SEEN, b), id, r)
    ensures (forall l, m | l in Delivered(a) && m in Delivered(a) && l.taskId == m.taskId && l.revision == m.revision
              :: l == m)
            ==> SameElements(After(NOTHING_SEEN, a).notices, After(NOTHING_SEEN, b).notices)
  {
    MergeRunShowsTheMaximum(a);
    MergeRunShowsTheMaximum(b);
    SameWatermark(After(NOTHING_SEEN, a).seen, After(NOTHING_SEEN, b).seen, Delivered(a), Delivered(b));
  }

  lemma SameWatermark(m: map<string, nat>, n: map<string, nat>, a: seq<Locator>, b: seq<Locator>)
    requires SameElements(a, b) && IsWatermark(m, a) && IsWatermark(n, b)
    ensures m == n
  {
    assert forall id | id in m :: id in n && m[id] <= n[id];
    assert forall id | id in n :: id in m && n[id] <= m[id];
  }

  // ---- every run, replacements included --------------------------------------------------

  ghost predicate Rises(before: map<string, nat>, after: map<string, nat>) {
    forall id | id in before :: id in after && before[id] <= after[id]
  }

  ghost predicate Capped(s: State) {
    forall n | n in s.notices :: n.taskId in s.seen && n.revision <= s.seen[n.taskId]
  }

  lemma UpsertMembersOnly(notices: seq<Locator>, locator: Locator)
    ensures forall n | n in Upsert(notices, locator) :: n == locator || n in notices
  {}

  lemma {:induction false} AcceptAllRises(s: State, waiting: seq<Locator>)
    requires Capped(s)
    ensures Rises(s.seen, AcceptAll(s, waiting).seen) && Capped(AcceptAll(s, waiting))
    decreases |waiting|
  {
    if waiting != [] {
      UpsertMembersOnly(s.notices, waiting[0]);
      AcceptAllRises(Accept(s, waiting[0]), waiting[1..]);
    }
  }

  /** A replacement raises each watermark to the larger of what it was and what the page carries. */
  lemma {:induction false} RaiseMarksIsMaximum(seen: map<string, nat>, waiting: seq<Locator>)
    ensures var after := RaiseMarks(seen, waiting);
      && Rises(seen, after)
      && (forall l | l in waiting :: l.taskId in after && l.revision <= after[l.taskId])
      && (forall id | id in after :: (id in seen && seen[id] == after[id])
                                     || exists l :: l in waiting && l.taskId == id && l.revision == after[id])
    decreases |waiting|
  {
    if waiting != [] {
      var l := waiting[0];
      var next := if News(seen, l) then seen[l.taskId := l.revision] else seen;
      RaiseMarksIsMaximum(next, waiting[1..]);
      assert l in waiting;
      forall m | m in waiting[1..] ensures m in waiting {}
    }
  }

  lemma StepRises(s: State, e: Event)
    requires Capped(s)
    ensures Rises(s.seen, Step(s, e).seen) && Capped(Step(s, e))
  {
    match e {
      case Push(Some(locator)) => UpsertMembersOnly(s.notices, locator);
      case Merge(Some(tasks)) => AcceptAllRises(s, Waiting(tasks));
      case Replace(Some(tasks)) => RaiseMarksIsMaximum(s.seen, Waiting(tasks));
      case _ =>
    }
  }

  /** In every run a watermark never falls and nothing is shown above it. */
  lemma {:induction false} WatermarksNeverFall(s: State, events: seq<Event>)
    requires Capped(s)
    ensures Rises(s.seen, After(s, events).seen) && Capped(After(s, events))
    decreases |events|
  {
    if events != [] {
      StepRises(s, events[0]);
      WatermarksNeverFall(Step(s, events[0]), events[1..]);
    }
  }

  lemma {:induction false} AfterSplits(s: State, a: seq<Event>, b: seq<Event>)
    ensures After(s, a + b) == After(After(s, a), b)
    decreases |a|
  {
    if a == [] {
      assert a + b == b;
    } else {
      assert (a + b)[1..] == a[1..] + b;
      AfterSplits(Step(s, a[0]), a[1..], b);
    }
  }

  /** acceptLocator answers true for the i-th event of a run. */
  ghost predicate AcceptedAt(events: seq<Event>, i: nat) {
    && i < |events| && events[i].Push? && events[i].raw.Some?
    && News(After(NOTHING_SEEN, events[..i]).seen, events[i].raw.value)
  }

  /** The revisions accepted for one task strictly increase over the whole run. */
  lemma AcceptedRevisionsIncrease(events: seq<Event>, i: nat, j: nat)
    requires i < j && AcceptedAt(events, i) && AcceptedAt(events, j)
    requires events[i].raw.value.taskId == events[j].raw.value.taskId
    ensures events[i].raw.value.revision < events[j].raw.value.revision
  {
    var before := After(NOTHING_SEEN, events[..i]);
    var between := events[i + 1..j];
    WatermarksNeverFall(NOTHING_SEEN, events[..i]);
    StepRises(before, events[i]);
    WatermarksNeverFall(Step(before, events[i]), between);
    assert events[..j] == events[..i] + ([events[i]] + between);
    AfterSplits(NOTHING_SEEN, events[..i], [events[i]] + between);
    assert ([events[i]] + between)[1..] == between;
  }

  // ---- when a replacement is safe --------------------------------------------------------

  ghost predicate InSync(s: State) {
    forall n | n in s.notices :: n.taskId in s.seen && n.revision == s.seen[n.taskId]
  }

  /** A replacing page leaves the banner at its watermarks exactly when none of its rows is older than a
      revision already seen and no task appears in it at two revisions. */
  lemma ReplaceInSyncExactly(s: State, tasks: seq<OwnedTask>)
    ensures InSync(Step(s, Replace(Some(tasks)))) <==>
      && (forall l | l in Waiting(tasks) && l.taskId in s.seen :: s.seen[l.taskId] <= l.revision)
      && (forall l, m | l in Waiting(tasks) && m in Waiting(tasks) && l.taskId == m.taskId :: l.revision == m.revision)
  {
    RaiseMarksIsMaximum(s.seen, Waiting(tasks));
  }

  /** An inbox page fetched before a push and arriving after it rolls the banner back, and the pushed
      revision can no longer correct it. */
  lemma LateReplaceRollsBack(id: string)
    ensures var news := Locator(id, Approval, 5);
      var late := [OwnedTask(id, 3, Some(Input))];
      var s := After(NOTHING_SEEN, [Push(Some(news)), Replace(Some(late)), Push(Some(news))]);
      s == State([Locator(id, Input, 3)], map[id := 5])
  {
    var news := Locator(id, Approval, 5);
    var late := [OwnedTask(id, 3, Some(Input))];
    var page := [Locator(id, Input, 3)];
    assert Waiting(late) == page by {
      assert Waiting(late[..0]) == [];
    }
    var s1 := Accept(NOTHING_SEEN, news);
    var s2 := Step(s1, Replace(Some(late)));
    assert s2 == State(page, map[id := 5]) by {
      assert RaiseMarks(s1.seen, page[1..]) == s1.seen;
    }
    var events := [Push(Some(news)), Replace(Some(late)), Push(Some(news))];
    assert events[1..] == [Replace(Some(late)), Push(Some(news))];
    assert events[1..][1..] == [Push(Some(news))];
    assert After(s2, [Push(Some(news))]) == Accept(s2, news);
  }
}
