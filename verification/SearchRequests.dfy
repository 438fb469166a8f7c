/** The requests of the message search (frontend/src/composables/useMessageSearch.ts): which text each one asks for, and
    when its answer can still reach the screen. */
module SearchRequests {
  import opened Text
  import opened MessageSearch

  /** Everything trim() removes in ECMAScript. */
  lemma EcmaSpacesAreListed(c: char)
    ensures IsEcmaSpace(c) <==> c as int in {
      9, 10, 11, 12, 13, 32, 0xA0, 0x1680, 0x2000, 0x2001, 0x2002, 0x2003, 0x2004, 0x2005, 0x2006, 0x2007, 0x2008,
      0x2009, 0x200A, 0x2028, 0x2029, 0x202F, 0x205F, 0x3000, 0xFEFF}
  {}

  /** The text asked for is what white space leaves of the query on both sides, and of that at most 256 characters. */
  lemma TextAskedFor(query: string) returns (left: string, core: string, right: string)
    ensures query == left + core + right
    ensures (forall c | c in left || c in right :: IsEcmaSpace(c))
    ensures core == "" || (!IsEcmaSpace(core[0]) && !IsEcmaSpace(core[|core| - 1]))
    ensures Normalize(query) == if |core| < 256 then core else core[..256]
  {
    core := TrimBy(query, IsEcmaSpace);
    left, right := TrimByParts(query, IsEcmaSpace);
  }

  /** Padding a query changes nothing of what is asked for. */
  lemma PaddingIsNotAskedFor(left: string, query: string, right: string)
    requires AllOf(left, IsEcmaSpace) && AllOf(right, IsEcmaSpace)
    ensures Normalize(left + query + right) == Normalize(query)
  {
    var core := TrimBy(query, IsEcmaSpace);
    var l, r := TrimByParts(query, IsEcmaSpace);
    TrimByExactly(left + l, core, r + right, IsEcmaSpace);
    assert (left + l) + core + (r + right) == left + query + right;
  }

  // ---- one request at a time -------------------------------------------------------------

  /** Sending a request leaves what is shown on the screen until it settles. */
  lemma AskingKeepsTheScreen(server: (nat, string) -> Outcome, s: State, e: Event)
    requires Tracked(s) && Enabled(s, e) && (e == Run || e == Fire) && Normalize(s.query) != ""
    ensures var t := Step(server, s, e);
      && t.results == s.results && t.status == Loading && t.errorMessage == "" && !t.timer
      && t.query == s.query && t.active == s.active && t.version !in s.inFlight
      && (forall v :: v in t.inFlight <==> v in s.inFlight || v == t.version)
      && t.inFlight[t.version] == Normalize(s.query)
      && forall v | v in s.inFlight :: t.inFlight[v] == s.inFlight[v]
  {
    var t := Step(server, s, e);
    forall v ensures v in t.inFlight <==> v in s.inFlight || v == t.version {}
  }

  /** What makes earlier requests irrelevant: a new one, a changed query, the end of the scope. */
  predicate Overtakes(s: State, e: Event) {
    match e
    case Run => true
    case Fire => true
    case Edit(value) => s.active && value != s.query
    case Settle(_) => false
    case Dispose => true
  }

  lemma {:induction false} VersionsNeverFall(server: (nat, string) -> Outcome, s: State, events: seq<Event>)
    requires CanRun(server, s, events)
    ensures After(server, s, events).version >= s.version
    decreases |events|
  {
    if events != [] { VersionsNeverFall(server, Step(server, s, events[0]), events[1..]); }
  }

  /** Whatever was in flight then stays overtaken: however the run goes on, its answer changes nothing on the screen. */
  lemma OvertakenForever(
      server: (nat, string) -> Outcome, s: State, e: Event, rest: seq<Event>, v: nat)
    requires Tracked(s) && Enabled(s, e) && Overtakes(s, e) && v in s.inFlight
    requires CanRun(server, Step(server, s, e), rest)
    ensures var t := After(server, Step(server, s, e), rest);
      v in t.inFlight ==> Step(server, t, Settle(v)) == t.(inFlight := t.inFlight - {v})
  {
    VersionsNeverFall(server, Step(server, s, e), rest);
  }

  /** What the current request's answer puts on the screen: its messages, or that there are none, or the failure. */
  lemma AnswerOnTheScreen(server: (nat, string) -> Outcome, s: State)
    requires s.version in s.inFlight && Tracked(s)
    ensures var t := Step(server, s, Settle(s.version));
      match server(s.version, s.inFlight[s.version])
      case Found(messages) =>
        && t.results == messages && t.errorMessage == ""
        && t.status == (if |messages| == 0 then Empty else Results)
      case Rejected => t.results == [] && t.errorMessage == "搜索服务暂时不可用" && t.status == Failed
  {}

  lemma {:induction false} StaysPending(server: (nat, string) -> Outcome, s: State, events: seq<Event>, v: nat)
    requires Tracked(s) && v in s.inFlight && CanRun(server, s, events) && Settle(v) !in events
    ensures v in After(server, s, events).inFlight && After(server, s, events).inFlight[v] == s.inFlight[v]
    decreases |events|
  {
    if events != [] {
      assert events[0] in events;
      StepKeepsTracked(server, s, events[0]);
      StaysPending(server, Step(server, s, events[0]), events[1..], v);
    }
  }

  /** No event in between overtakes. */
  predicate Undisturbed(server: (nat, string) -> Outcome, s: State, events: seq<Event>)
    requires CanRun(server, s, events)
    decreases |events|
  {
    events == [] || (!Overtakes(s, events[0]) && Undisturbed(server, Step(server, s, events[0]), events[1..]))
  }

  lemma {:induction false} UndisturbedKeepsVersion(server: (nat, string) -> Outcome, s: State, events: seq<Event>)
    requires CanRun(server, s, events)
    ensures After(server, s, events).version == s.version <==> Undisturbed(server, s, events)
    decreases |events|
  {
    if events != [] {
      UndisturbedKeepsVersion(server, Step(server, s, events[0]), events[1..]);
      VersionsNeverFall(server, Step(server, s, events[0]), events[1..]);
    }
  }

  /** The answer to the current request reaches the screen exactly when nothing has overtaken it before it settles. */
  lemma AnswerShownExactly(server: (nat, string) -> Outcome, s: State, events: seq<Event>)
    requires Tracked(s) && s.version in s.inFlight && CanRun(server, s, events) && Settle(s.version) !in events
    ensures var t := After(server, s, events);
      && s.version in t.inFlight
      && var u := Step(server, t, Settle(s.version));
      if Undisturbed(server, s, events) then Shows(u, server(s.version, s.inFlight[s.version]))
      else u.results == t.results && u.status == t.status && u.errorMessage == t.errorMessage
  {
    StaysPending(server, s, events, s.version);
    UndisturbedKeepsVersion(server, s, events);
    RunsKeepTracked(server, s, events);
  }

  lemma {:induction false} RunsKeepTracked(server: (nat, string) -> Outcome, s: State, events: seq<Event>)
    requires CanRun(server, s, events) && Tracked(s)
    ensures Tracked(After(server, s, events))
    decreases |events|
  {
    if events != [] {
      StepKeepsTracked(server, s, events[0]);
      RunsKeepTracked(server, Step(server, s, events[0]), events[1..]);
    }
  }
}
