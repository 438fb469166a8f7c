/** The debounced message search of frontend/src/composables/useMessageSearch.ts: one timer, a version
    counter, and any number of requests that settle in any order. The class follows the composable's
    closures; the state machine beside it carries what every run keeps. */
module MessageSearch {
  import opened Text

  datatype Message = Message(id: string, content: string)

  datatype Status = Idle | Loading | Results | Empty | Failed

  /** How the promise of one request settles. */
  datatype Outcome = Found(messages: seq<Message>) | Rejected

  /** inFlight holds the awaiting continuations: the version each one captured and the text it asked for. */
  datatype State = State(
    query: string, results: seq<Message>, status: Status, errorMessage: string,
    timer: bool, version: nat, inFlight: map<nat, string>, active: bool)

  const SERVICE_UNAVAILABLE := "搜索服务暂时不可用"
  const QUERY_LIMIT := 256

  function Normalize(query: string): string {
    var trimmed := TrimBy(query, IsEcmaSpace);
    if |trimmed| <= QUERY_LIMIT then trimmed else trimmed[..QUERY_LIMIT]
  }

  const INITIAL := State("", [], Idle, "", false, 0, map[], true)

  // ---- one step --------------------------------------------------------------------------

  datatype Event = Edit(value: string) | Fire | Run | Settle(version: nat) | Dispose

  /** A timer fires only while armed, a request settles once, a scope is disposed once. */
  predicate Enabled(s: State, e: Event) {
    match e
    case Fire => s.timer
    case Settle(v) => v in s.inFlight
    case Dispose => s.active
    case _ => true
  }

  function ResetStep(s: State): State {
    s.(version := s.version + 1, results := [], errorMessage := "", status := Idle)
  }

  function RunStep(s: State): State {
    var cleared := s.(timer := false);
    var normalized := Normalize(s.query);
    if normalized == "" then ResetStep(cleared)
    else
      var v := s.version + 1;
      cleared.(version := v, status := Loading, errorMessage := "", inFlight := s.inFlight[v := normalized])
  }

  function SettleStep(s: State, v: nat, outcome: Outcome): State
    requires v in s.inFlight
  {
    var left := s.(inFlight := s.inFlight - {v});
    if v != s.version then left
    else match outcome
      case Found(messages) => left.(results := messages, status := if messages != [] then Results else Empty)
      case Rejected => left.(results := [], errorMessage := SERVICE_UNAVAILABLE, status := Failed)
  }

  /** The watcher runs only when the value really changes, and not after its scope is gone. */
  function EditStep(s: State, value: string): State {
    if value == s.query || !s.active then s.(query := value)
    else
      var next := s.(query := value, timer := false, version := s.version + 1);
      if TrimBy(value, IsEcmaSpace) == "" then ResetStep(next)
      else next.(results := [], errorMessage := "", status := Loading, timer := true)
  }

  function DisposeStep(s: State): State {
    s.(timer := false, version := s.version + 1, active := false)
  }

  /** The service answers each request, told apart by its version, in one way. */
  function Step(server: (nat, string) -> Outcome, s: State, e: Event): State
    requires Enabled(s, e)
  {
    match e
    case Edit(value) => EditStep(s, value)
    case Fire => RunStep(s)
    case Run => RunStep(s)
    case Settle(v) => SettleStep(s, v, server(v, s.inFlight[v]))
    case Dispose => DisposeStep(s)
  }

  predicate CanRun(server: (nat, string) -> Outcome, s: State, events: seq<Event>)
    decreases |events|
  {
    events == [] || (Enabled(s, events[0]) && CanRun(server, Step(server, s, events[0]), events[1..]))
  }

  function After(server: (nat, string) -> Outcome, s: State, events: seq<Event>): State
    requires CanRun(server, s, events)
    decreases |events|
  {
    if events == [] then s else After(server, Step(server, s, events[0]), events[1..])
  }

  // ---- the composable --------------------------------------------------------------------

  class SearchBox {
    var query: string
    var results: seq<Message>
    var status: Status
    var errorMessage: string
    var timer: bool
    var requestVersion: nat
    var inFlight: map<nat, string>
    var active: bool

    ghost function View(): State
      reads this
    {
      State(query, results, status, errorMessage, timer, requestVersion, inFlight, active)
    }

    constructor ()
      ensures View() == INITIAL
    {
      query, results, status, errorMessage := "", [], Idle, "";
      timer, requestVersion, inFlight, active := false, 0, map[], true;
    }

    method ClearTimer()
      modifies this`timer
      ensures !timer
    {
      if timer {
        timer := false;
      }
    }

    method Reset()
      modifies this
      ensures View() == ResetStep(old(View()))
    {
      requestVersion := requestVersion + 1;
      results := [];
      errorMessage := "";
      status := Idle;
    }

    /** run() up to its await; the continuation is SettleRequest. */
    method RunSearch()
      modifies this
      ensures View() == RunStep(old(View()))
    {
      ClearTimer();
      var normalized := Normalize(query);
      if normalized == "" {
        Reset();
        return;
      }
      requestVersion := requestVersion + 1;
      status := Loading;
      errorMessage := "";
      inFlight := inFlight[requestVersion := normalized];
    }

    method SettleRequest(currentVersion: nat, outcome: Outcome)
      requires currentVersion in inFlight
      modifies this
      ensures View() == SettleStep(old(View()), currentVersion, outcome)
    {
      inFlight := inFlight - {currentVersion};
      if currentVersion != requestVersion {
        return;
      }
      match outcome
      case Found(messages) =>
        results := messages;
        status := if |messages| > 0 then Results else Empty;
      case Rejected =>
        results := [];
        errorMessage := SERVICE_UNAVAILABLE;
        status := Failed;
    }

    method SetQuery(value: string)
      modifies this
      ensures View() == EditStep(old(View()), value)
    {
      var changed := value != query;
      query := value;
      if changed && active {
        QueryChanged(value);
      }
    }

    /** The body of the synchronous watcher. */
    method QueryChanged(value: string)
      requires query == value
      modifies this
      ensures View() ==
        var next := old(View()).(timer := false, version := old(requestVersion) + 1);
        if TrimBy(value, IsEcmaSpace) == "" then ResetStep(next)
        else next.(results := [], errorMessage := "", status := Loading, timer := true)
    {
      ClearTimer();
      requestVersion := requestVersion + 1;
      if TrimBy(value, IsEcmaSpace) == "" {
        Reset();
        return;
      }
      results := [];
      errorMessage := "";
      status := Loading;
      timer := true;
    }

    method ScopeDisposed()
      requires active
      modifies this
      ensures View() == DisposeStep(old(View()))
    {
      ClearTimer();
      requestVersion := requestVersion + 1;
      active := false;
    }
  }

  // ---- what every run keeps --------------------------------------------------------------

  /** The screen shows exactly this outcome. */
  predicate Shows(s: State, outcome: Outcome) {
    match outcome
    case Found(messages) =>
      s.results == messages && s.errorMessage == "" && s.status == (if messages != [] then Results else Empty)
    case Rejected => s.results == [] && s.errorMessage == SERVICE_UNAVAILABLE && s.status == Failed
  }

  /** Holds whether or not the scope is still there. */
  predicate Tracked(s: State) {
    && (forall v | v in s.inFlight :: 1 <= v <= s.version)
    && (s.version in s.inFlight ==> s.status == Loading && s.errorMessage == "" && !s.timer)
    && (s.timer ==> s.active)
  }

  ghost predicate Consistent(server: (nat, string) -> Outcome, s: State) {
    var text := Normalize(s.query);
    && (s.status == Idle <==> text == "")
    && (text == "" ==> s.results == [] && s.errorMessage == "")
    && (s.status == Loading <==> s.timer || s.version in s.inFlight)
    && (s.timer ==> s.version !in s.inFlight && s.results == [])
    && (s.version in s.inFlight ==> s.inFlight[s.version] == text)
    && (s.status == Loading ==> s.errorMessage == "")
    && (s.status in {Results, Empty, Failed} ==> Shows(s, server(s.version, text)))
  }

  lemma NormalizeEmpty(query: string)
    ensures Normalize(query) == "" <==> TrimBy(query, IsEcmaSpace) == ""
  {}

  lemma StepKeepsInvariant(server: (nat, string) -> Outcome, s: State, e: Event)
    requires Enabled(s, e) && Tracked(s)
    requires s.active ==> Consistent(server, s)
    ensures Tracked(Step(server, s, e))
    ensures Step(server, s, e).active ==> Consistent(server, Step(server, s, e))
  {
    StepKeepsTracked(server, s, e);
    NormalizeEmpty(Step(server, s, e).query);
  }

  lemma StepKeepsTracked(server: (nat, string) -> Outcome, s: State, e: Event)
    requires Enabled(s, e) && Tracked(s)
    ensures Tracked(Step(server, s, e))
  {}

  /** Before the scope is disposed, every run keeps the screen, the timer and the requests consistent:
      idle exactly on an empty query, and loading exactly while the timer or the one current request is
      pending. */
  lemma {:induction false} RunsStayConsistent(server: (nat, string) -> Outcome, s: State, events: seq<Event>)
    requires CanRun(server, s, events) && Tracked(s)
    requires s.active ==> Consistent(server, s)
    ensures Tracked(After(server, s, events))
    ensures After(server, s, events).active ==> Consistent(server, After(server, s, events))
    decreases |events|
  {
    if events != [] {
      StepKeepsInvariant(server, s, events[0]);
      RunsStayConsistent(server, Step(server, s, events[0]), events[1..]);
    }
  }

  /** At its k-th event the run settled the request with the version then current, which was in flight and had
      asked for the text, with this outcome. */
  ghost predicate AnsweredAt(
      server: (nat, string) -> Outcome, events: seq<Event>, k: nat, text: string, outcome: Outcome) {
    && k < |events| && events[k].Settle? && CanRun(server, INITIAL, events[..k])
    && var before := After(server, INITIAL, events[..k]);
    && events[k].version == before.version && before.version in before.inFlight
    && before.inFlight[before.version] == text && server(before.version, text) == outcome
  }

  /** From the first state of the composable the guarantee needs no assumption, and whatever is shown was the
      answer to a request the run sent for the current query. */
  lemma EveryRunIsConsistent(server: (nat, string) -> Outcome, events: seq<Event>)
    requires CanRun(server, INITIAL, events)
    ensures var s := After(server, INITIAL, events);
      s.active ==>
        && (s.status == Idle <==> TrimBy(s.query, IsEcmaSpace) == "")
        && (s.status == Loading <==> s.timer || s.version in s.inFlight)
        && !(s.timer && s.version in s.inFlight)
        && (s.results != [] ==> exists k :: AnsweredAt(server, events, k, Normalize(s.query), Found(s.results)))
        && (s.status in {Results, Empty, Failed} ==>
              exists k, outcome :: AnsweredAt(server, events, k, Normalize(s.query), outcome) && Shows(s, outcome))
  {
    RunsStayConsistent(server, INITIAL, events);
    NormalizeEmpty(After(server, INITIAL, events).query);
    if After(server, INITIAL, events).active {
      ShownWasAnswered(server, events);
    }
  }

  /** A prefix of a run is a run, and the next event takes its state one step on. */
  lemma {:induction false} RunPrefix(server: (nat, string) -> Outcome, s: State, events: seq<Event>, k: nat)
    requires CanRun(server, s, events) && k < |events|
    ensures CanRun(server, s, events[..k]) && CanRun(server, s, events[..k + 1])
    ensures Enabled(After(server, s, events[..k]), events[k])
    ensures After(server, s, events[..k + 1]) == Step(server, After(server, s, events[..k]), events[k])
    decreases k
  {
    if k > 0 {
      var t := Step(server, s, events[0]);
      assert events[1..][..k - 1] == events[..k][1..] && events[1..][..k] == events[..k + 1][1..];
      RunPrefix(server, t, events[1..], k - 1);
    } else {
      assert events[..1] == [events[0]] && events[..1][1..] == [];
    }
  }

  /** A step that leaves results on the screen either brought them, or found them there for the same text. */
  lemma WhereResultsComeFrom(server: (nat, string) -> Outcome, s: State, e: Event)
    requires Enabled(s, e) && s.active && Step(server, s, e).active && Consistent(server, s)
    ensures var t := Step(server, s, e);
      var current := e.Settle? && e.version == s.version;
      && (current ==> Normalize(t.query) == s.inFlight[s.version] && Shows(t, server(s.version, s.inFlight[s.version])))
      && (!current && t.results != [] ==> t.results == s.results && Normalize(t.query) == Normalize(s.query))
      && (!current && t.status in {Results, Empty, Failed} ==>
            Normalize(t.query) == Normalize(s.query) && t.status == s.status && t.results == s.results
            && t.errorMessage == s.errorMessage)
  {
    NormalizeEmpty(s.query);
  }

  lemma AnsweredEarlier(
      server: (nat, string) -> Outcome, events: seq<Event>, k: nat, last: nat, text: string, outcome: Outcome)
    requires last <= |events| && AnsweredAt(server, events[..last], k, text, outcome)
    ensures AnsweredAt(server, events, k, text, outcome)
  {
    assert events[..last][..k] == events[..k];
  }

  lemma {:induction false} ShownWasAnswered(server: (nat, string) -> Outcome, events: seq<Event>)
    requires CanRun(server, INITIAL, events) && After(server, INITIAL, events).active
    ensures var s := After(server, INITIAL, events); var text := Normalize(s.query);
      && (s.results != [] ==> exists k :: AnsweredAt(server, events, k, text, Found(s.results)))
      && (s.status in {Results, Empty, Failed} ==>
            exists k, outcome :: AnsweredAt(server, events, k, text, outcome) && Shows(s, outcome))
    decreases |events|
  {
    if events != [] {
      var last := |events| - 1;
      var e := events[last];
      RunPrefix(server, INITIAL, events, last);
      assert events[..last + 1] == events;
      var s := After(server, INITIAL, events[..last]);
      var t := After(server, INITIAL, events);
      RunsStayConsistent(server, INITIAL, events[..last]);
      WhereResultsComeFrom(server, s, e);
      ShownWasAnswered(server, events[..last]);
      var text := Normalize(t.query);
      if e.Settle? && e.version == s.version {
        assert AnsweredAt(server, events, last, text, server(s.version, text));
      } else {
        if t.results != [] {
          var k :| AnsweredAt(server, events[..last], k, text, Found(t.results));
          AnsweredEarlier(server, events, k, last, text, Found(t.results));
        }
        if t.status in {Results, Empty, Failed} {
          var k, outcome :| AnsweredAt(server, events[..last], k, text, outcome) && Shows(s, outcome);
          AnsweredEarlier(server, events, k, last, text, outcome);
          assert Shows(t, outcome);
        }
      }
    }
  }

  /** A settlement whose version was overtaken changes nothing but the list of pending requests. */
  lemma StaleSettlementIsInvisible(server: (nat, string) -> Outcome, s: State, v: nat)
    requires v in s.inFlight && v != s.version
    ensures Step(server, s, Settle(v)) == s.(inFlight := s.inFlight - {v})
  {}

  // ---- quiescence ------------------------------------------------------------------------

  predicate Autonomous(e: Event) { e.Fire? || e.Settle? }

  predicate Quiet(s: State) { !s.timer && s.inFlight == map[] }

  function Measure(s: State): nat { (if s.timer then 2 else 0) + |s.inFlight| }

  /** What the screen will show once everything pending has happened. */
  ghost predicate Settled(server: (nat, string) -> Outcome, s: State, final: State) {
    if s.timer then Shows(final, server(s.version + 1, Normalize(s.query)))
    else if s.version in s.inFlight then Shows(final, server(s.version, s.inFlight[s.version]))
    else final.results == s.results && final.status == s.status && final.errorMessage == s.errorMessage
  }

  lemma PendingSizes(pending: map<nat, string>, v: nat, text: string)
    ensures v in pending ==> |pending - {v}| == |pending| - 1
    ensures |pending[v := text]| <= |pending| + 1
  {
    assert (pending - {v}).Keys == pending.Keys - {v};
    assert pending[v := text].Keys == pending.Keys + {v};
    assert |pending.Keys + {v}| <= |pending.Keys| + 1;
  }

  lemma AutonomousMeasure(server: (nat, string) -> Outcome, s: State, e: Event)
    requires Enabled(s, e) && Autonomous(e)
    ensures Measure(Step(server, s, e)) < Measure(s)
  {
    if e.Settle? {
      PendingSizes(s.inFlight, e.version, "");
    } else {
      RunMeasure(s);
    }
  }

  lemma RunMeasure(s: State)
    requires s.timer
    ensures Measure(RunStep(s)) < Measure(s)
  {
    var text := Normalize(s.query);
    PendingSizes(s.inFlight, s.version + 1, text);
    assert !RunStep(s).timer;
    assert RunStep(s).inFlight == if text == "" then s.inFlight else s.inFlight[s.version + 1 := text];
  }

  lemma AutonomousStep(server: (nat, string) -> Outcome, s: State, e: Event, final: State)
    requires Enabled(s, e) && Autonomous(e) && Tracked(s)
    requires s.active ==> Consistent(server, s)
    requires Settled(server, Step(server, s, e), final)
    ensures Settled(server, s, final)
  {
    NormalizeEmpty(s.query);
  }

  /** Without further input the machine stops within 2 * [timer armed] + |in flight| steps, and every
      order of firing and settling ends with the same screen: the answer to the one request that was,
      or will be, sent for the current query. */
  lemma {:induction false} EveryOrderEndsAlike(server: (nat, string) -> Outcome, s: State, events: seq<Event>)
    requires CanRun(server, s, events) && Tracked(s)
    requires s.active ==> Consistent(server, s)
    requires forall e | e in events :: Autonomous(e)
    ensures |events| + Measure(After(server, s, events)) <= Measure(s)
    ensures After(server, s, events).query == s.query
    ensures Quiet(After(server, s, events)) ==> Settled(server, s, After(server, s, events))
    decreases |events|
  {
    if events != [] {
      var e := events[0];
      assert Autonomous(e);
      var t := Step(server, s, e);
      StepKeepsInvariant(server, s, e);
      AutonomousMeasure(server, s, e);
      EveryOrderEndsAlike(server, t, events[1..]);
      var final := After(server, s, events);
      if Quiet(final) {
        AutonomousStep(server, s, e, final);
      }
    }
  }

  /** Until it is quiet, some timer or settlement can still happen. */
  lemma NotQuietMeansProgress(s: State)
    requires !Quiet(s)
    ensures exists e :: Autonomous(e) && Enabled(s, e)
  {
    if s.timer {
      assert Autonomous(Fire) && Enabled(s, Fire);
    } else {
      assert s.inFlight.Keys != {};
      var v :| v in s.inFlight;
      assert Autonomous(Settle(v)) && Enabled(s, Settle(v));
    }
  }

  /** A run that has come to rest shows the idle screen, or the answer to the last request, which asked
      for the current query. */
  lemma QuietBoxShowsTheAnswer(server: (nat, string) -> Outcome, events: seq<Event>)
    requires CanRun(server, INITIAL, events)
    requires var s := After(server, INITIAL, events); s.active && Quiet(s)
    ensures var s := After(server, INITIAL, events);
      if TrimBy(s.query, IsEcmaSpace) == "" then s.status == Idle && s.results == []
      else Shows(s, server(s.version, Normalize(s.query)))
  {
    RunsStayConsistent(server, INITIAL, events);
    NormalizeEmpty(After(server, INITIAL, events).query);
  }

  // ---- disposal --------------------------------------------------------------------------

  /** Once the scope is gone no pending timer or settlement, and no edit, reaches the screen; only an
      explicit run() can. A box disposed while loading therefore stays loading. */
  lemma {:induction false} DisposedBoxIsSilent(server: (nat, string) -> Outcome, s: State, events: seq<Event>)
    requires Tracked(s) && CanRun(server, DisposeStep(s), events)
    requires Run !in events
    ensures var t := After(server, DisposeStep(s), events);
      t.results == s.results && t.status == s.status && t.errorMessage == s.errorMessage
  {
    SilentRun(server, DisposeStep(s), events);
  }

  lemma {:induction false} SilentRun(server: (nat, string) -> Outcome, s: State, events: seq<Event>)
    requires !s.active && !s.timer && s.version !in s.inFlight
    requires CanRun(server, s, events) && Run !in events
    ensures var t := After(server, s, events);
      t.results == s.results && t.status == s.status && t.errorMessage == s.errorMessage
    decreases |events|
  {
    if events != [] {
      assert events[0] in events;
      SilentRun(server, Step(server, s, events[0]), events[1..]);
    }
  }
}
