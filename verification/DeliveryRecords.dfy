/** The records the realtime comparison accepts (scripts/realtime_delivery_comparison.py), and counting over the last
    record of each Kafka coordinate. */
module DeliveryRecords {
  import opened Sorting
  import opened Text
  import opened Wrappers
  import opened DeliveryComparison
  import opened DeliveryReport

  // ---- which records are accepted --------------------------------------------------------

  predicate IsCount(j: Json) { j.Int? && j.n >= 0 }

  /** A record of the right schema with a coordinate, an outcome, counts, an event and a message type. */
  predicate WellFormed(raw: Option<RawRecord>) {
    && raw.Some?
    && var r := raw.value;
    && r.schemaVersion == Str("dipole.realtime.shadow-evidence.v3")
    && r.topic.Str? && r.topic.s != "" && IsCount(r.partition) && IsCount(r.offset)
    && r.outcome in {Str("projected"), Str("deferred"), Str("rejected")}
    && IsCount(r.requested) && IsCount(r.observed) && IsCount(r.duplicate) && IsCount(r.rejected)
    && IsCount(r.backpressured) && IsCount(r.malformed) && IsCount(r.stale) && IsCount(r.offline)
    && r.eventId.Str? && (exists c :: c in r.eventId.s && !IsPythonSpace(c))
    && IsCount(r.messageType)
  }

  predicate SameSpot(a: RawRecord, b: RawRecord) {
    a.topic == b.topic && a.partition == b.partition && a.offset == b.offset
  }

  /** Events and coordinates go together one to one, and a coordinate keeps its batch. */
  predicate Fit(a: RawRecord, b: RawRecord) {
    && (a.eventId == b.eventId <==> SameSpot(a, b))
    && (SameSpot(a, b) ==> a.batchId == b.batchId)
  }

  /** The decoded fields are the record's own. */
  predicate Decodes(raw: Option<RawRecord>, e: Evidence) {
    && raw.Some?
    && var r := raw.value;
    && r.topic == Str(e.coordinate.topic) && r.partition == Int(e.coordinate.partition)
    && r.offset == Int(e.coordinate.offset)
    && r.outcome == Str(match e.outcome case Projected => "projected" case Deferred => "deferred" case _ => "rejected")
    && r.requested == Int(e.requested) && r.observed == Int(e.observed) && r.duplicate == Int(e.duplicate)
    && r.rejected == Int(e.rejected) && r.backpressured == Int(e.backpressured)
    && r.malformed == Int(e.malformed) && r.stale == Int(e.stale) && r.offline == Int(e.offline)
    && r.eventId == Str(e.eventId) && r.batchId == e.batchId && r.messageType == Int(e.messageType)
  }

  lemma NotBlank(s: string)
    ensures TrimBy(s, IsPythonSpace) != "" <==> exists c :: c in s && !IsPythonSpace(c)
  {
    var t := TrimBy(s, IsPythonSpace);
    var left, right := TrimByParts(s, IsPythonSpace);
    if t != "" {
      assert t[0] in s;
    }
  }

  lemma DecodesItsFields(raw: Option<RawRecord>)
    ensures Decode(raw).Ok? <==> WellFormed(raw)
    ensures Decode(raw).Ok? ==> Decodes(raw, Decode(raw).value)
  {
    if raw.Some? && raw.value.eventId.Str? { NotBlank(raw.value.eventId.s); }
  }

  lemma FitsAgree(a: Option<RawRecord>, b: Option<RawRecord>, x: Evidence, y: Evidence)
    requires Decodes(a, x) && Decodes(b, y)
    ensures Agree(x, y) <==> Fit(a.value, b.value)
    ensures SameSpot(a.value, b.value) <==> x.coordinate == y.coordinate
  {}

  /** The records are grouped exactly when there are some, each is well formed, and any two fit. */
  lemma AcceptableExactly(raws: seq<Option<RawRecord>>)
    ensures Acceptable(raws) <==>
      && raws != [] && (forall raw | raw in raws :: WellFormed(raw))
      && forall a, b | a in raws && b in raws && a.Some? && b.Some? :: Fit(a.value, b.value)
  {
    forall raw ensures Decode(raw).Ok? <==> WellFormed(raw) { DecodesItsFields(raw); }
    if Traverse(Decode, raws).Ok? {
      var es := Traverse(Decode, raws).value;
      TraverseOk(Decode, raws, es);
      forall raw | raw in raws ensures WellFormed(raw) {
        var k :| 0 <= k < |raws| && raws[k] == raw;
        assert Decode(raws[k]) == Ok(es[k]);
      }
      FitExactly(raws, es);
    } else if forall raw | raw in raws :: WellFormed(raw) {
      AllDecode(raws);
    }
  }

  lemma AllDecode(raws: seq<Option<RawRecord>>)
    requires forall raw | raw in raws :: Decode(raw).Ok?
    ensures Traverse(Decode, raws).Ok?
  {
    var es := seq(|raws|, k requires 0 <= k < |raws| && raws[k] in raws => Decode(raws[k]).value);
    TraverseOk(Decode, raws, es);
  }

  lemma FitExactly(raws: seq<Option<RawRecord>>, es: seq<Evidence>)
    requires |raws| == |es| && forall k | 0 <= k < |raws| :: Decode(raws[k]) == Ok(es[k])
    ensures Consistent(es) <==>
      forall a, b | a in raws && b in raws && a.Some? && b.Some? :: Fit(a.value, b.value)
  {
    if Consistent(es) {
      forall a, b | a in raws && b in raws && a.Some? && b.Some? ensures Fit(a.value, b.value) {
        var i :| 0 <= i < |raws| && raws[i] == a;
        var j :| 0 <= j < |raws| && raws[j] == b;
        DecodesItsFields(a);
        DecodesItsFields(b);
        assert es[i] in es && es[j] in es;
        FitsAgree(a, b, es[i], es[j]);
      }
    }
    if forall a, b | a in raws && b in raws && a.Some? && b.Some? :: Fit(a.value, b.value) {
      forall x, y | x in es && y in es ensures Agree(x, y) {
        var i :| 0 <= i < |es| && es[i] == x;
        var j :| 0 <= j < |es| && es[j] == y;
        DecodesItsFields(raws[i]);
        DecodesItsFields(raws[j]);
        assert raws[i] in raws && raws[j] in raws;
        FitsAgree(raws[i], raws[j], x, y);
      }
    }
  }

  // ---- the last record of each coordinate ------------------------------------------------

  ghost predicate LaterAt(rest: seq<Option<RawRecord>>, r: RawRecord) {
    exists raw :: raw in rest && raw.Some? && SameSpot(raw.value, r)
  }

  /** The records after which none follows for the same coordinate, in the order they were recorded. */
  ghost function LastRecords(raws: seq<Option<RawRecord>>): seq<RawRecord> {
    if raws == [] then []
    else (if raws[0].Some? && !LaterAt(raws[1..], raws[0].value) then [raws[0].value] else []) + LastRecords(raws[1..])
  }

  /** The same of decoded attempts. */
  ghost function LastAttempts(es: seq<Evidence>): seq<Evidence> {
    if es == [] then []
    else (if forall e | e in es[1..] :: e.coordinate != es[0].coordinate then [es[0]] else []) + LastAttempts(es[1..])
  }

  /** Decodes as a function value. */
  function Reading(): (Option<RawRecord>, Evidence) -> bool {
    (raw: Option<RawRecord>, e: Evidence) => Decodes(raw, e)
  }

  ghost predicate AllDecoded(raws: seq<Option<RawRecord>>, es: seq<Evidence>) {
    |raws| == |es| && forall k | 0 <= k < |raws| :: raws[k].Some? && Reading()(raws[k], es[k])
  }

  ghost predicate LastsDecoded(rs: seq<RawRecord>, es: seq<Evidence>) {
    |rs| == |es| && forall k | 0 <= k < |rs| :: Reading()(Some(rs[k]), es[k])
  }

  lemma LaterAlike(raws: seq<Option<RawRecord>>, es: seq<Evidence>)
    requires AllDecoded(raws, es) && raws != []
    ensures LaterAt(raws[1..], raws[0].value) <==> exists e :: e in es[1..] && e.coordinate == es[0].coordinate
  {
    if LaterAt(raws[1..], raws[0].value) {
      var raw :| raw in raws[1..] && raw.Some? && SameSpot(raw.value, raws[0].value);
      var k :| 0 <= k < |raws[1..]| && raws[1..][k] == raw;
      assert Reading()(raws[k + 1], es[k + 1]) && Reading()(raws[0], es[0]) && es[1..][k] in es[1..];
      FitsAgree(raws[k + 1], raws[0], es[k + 1], es[0]);
    }
    if e :| e in es[1..] && e.coordinate == es[0].coordinate {
      var k :| 0 <= k < |es[1..]| && es[1..][k] == e;
      assert Reading()(raws[k + 1], es[k + 1]) && Reading()(raws[0], es[0]) && raws[1..][k] in raws[1..];
      FitsAgree(raws[k + 1], raws[0], es[k + 1], es[0]);
    }
  }

  lemma DecodedCons(r: RawRecord, e: Evidence, rs: seq<RawRecord>, es: seq<Evidence>)
    requires Reading()(Some(r), e) && LastsDecoded(rs, es)
    ensures LastsDecoded([r] + rs, [e] + es)
  {}

  lemma AllDecodedRest(raws: seq<Option<RawRecord>>, es: seq<Evidence>)
    requires AllDecoded(raws, es) && raws != []
    ensures AllDecoded(raws[1..], es[1..]) && raws[0].Some? && Reading()(Some(raws[0].value), es[0])
  {
    assert raws[0] == Some(raws[0].value);
  }

  lemma {:induction false} LastsAlike(raws: seq<Option<RawRecord>>, es: seq<Evidence>)
    requires AllDecoded(raws, es)
    ensures LastsDecoded(LastRecords(raws), LastAttempts(es))
  {
    if raws != [] {
      var rs, xs := LastRecords(raws[1..]), LastAttempts(es[1..]);
      AllDecodedRest(raws, es);
      LaterAlike(raws, es);
      LastsAlike(raws[1..], es[1..]);
      DecodedCons(raws[0].value, es[0], rs, xs);
      assert [] + rs == rs && [] + xs == xs;
    }
  }

  /** The last attempt at a coordinate. */
  function LastOf(es: seq<Evidence>): Coordinate -> Option<Evidence> {
    (c: Coordinate) => var g := Of(es)(c); if g == [] then None else Some(g[|g| - 1])
  }

  lemma LastOfCons(es: seq<Evidence>, c: Coordinate)
    requires es != []
    ensures LastOf(es)(c) ==
      if LastOf(es[1..])(c).Some? then LastOf(es[1..])(c)
      else if es[0].coordinate == c then Some(es[0]) else None
  {
    assert es == [es[0]] + es[1..];
    FilterAppend(At(c), [es[0]], es[1..]);
    assert [es[0]][..0] == [];
    var first := Filter(At(c), [es[0]]);
    assert first == if es[0].coordinate == c then [es[0]] else [];
    assert Of(es)(c) == first + Of(es[1..])(c);
  }

  lemma LastOfNone(es: seq<Evidence>, c: Coordinate)
    ensures LastOf(es)(c).None? <==> forall e | e in es :: e.coordinate != c
    ensures LastOf(es)(c).Some? ==> LastOf(es)(c).value in es && LastOf(es)(c).value.coordinate == c
  {
    var g := Of(es)(c);
    if g != [] { OfMembers(es, c, g[|g| - 1]); }
    if e :| e in es && e.coordinate == c { OfMembers(es, c, e); }
  }

  function Spot(): Evidence -> Coordinate { (e: Evidence) => e.coordinate }

  /** Each coordinate has one last attempt, which is the last of its group. */
  lemma {:induction false} LastAttemptsAreLast(es: seq<Evidence>)
    ensures forall e | e in LastAttempts(es) :: e in es && LastOf(es)(e.coordinate) == Some(e)
    ensures forall e | e in es :: LastOf(es)(e.coordinate).Some? && LastOf(es)(e.coordinate).value in LastAttempts(es)
    ensures Distinct(Map(Spot(), LastAttempts(es)))
  {
    if es != [] {
      var rest := es[1..];
      LastAttemptsAreLast(rest);
      LastOfNone(rest, es[0].coordinate);
      forall e | e in LastAttempts(es) ensures e in es && LastOf(es)(e.coordinate) == Some(e) {
        LastOfCons(es, e.coordinate);
      }
      forall e | e in es
        ensures LastOf(es)(e.coordinate).Some? && LastOf(es)(e.coordinate).value in LastAttempts(es)
      {
        LastOfCons(es, e.coordinate);
        LastOfNone(rest, e.coordinate);
      }
      DistinctWithFirst(es);
    }
  }

  lemma NewFirstIsDistinct(first: Evidence, rest: seq<Evidence>)
    requires Distinct(Map(Spot(), rest)) && forall e | e in rest :: e.coordinate != first.coordinate
    ensures Distinct(Map(Spot(), [first] + rest))
  {
    var spots, all := Map(Spot(), rest), Map(Spot(), [first] + rest);
    assert all == [first.coordinate] + spots;
    forall k | 0 <= k < |spots| ensures spots[k] != first.coordinate { assert rest[k] in rest; }
  }

  lemma DistinctWithFirst(es: seq<Evidence>)
    requires es != [] && Distinct(Map(Spot(), LastAttempts(es[1..])))
    requires forall e | e in LastAttempts(es[1..]) :: e in es[1..]
    ensures Distinct(Map(Spot(), LastAttempts(es)))
  {
    var rest := LastAttempts(es[1..]);
    if forall e | e in es[1..] :: e.coordinate != es[0].coordinate {
      assert LastAttempts(es) == [es[0]] + rest;
      NewFirstIsDistinct(es[0], rest);
    }
  }

  /** The last attempts are the last elements of the groups, possibly in another order. */
  lemma LastsOfGroups(es: seq<Evidence>)
    ensures multiset(Map(LastOf(es), FirstSeen(es))) == multiset(Map((e: Evidence) => Some(e), LastAttempts(es)))
  {
    var spots := Map(Spot(), LastAttempts(es));
    LastAttemptsAreLast(es);
    DistinctFirstSeen(es);
    forall c ensures c in spots <==> c in FirstSeen(es) {
      FirstSeenMembers(es, c);
      if c in spots {
        var k :| 0 <= k < |spots| && spots[k] == c;
        assert LastAttempts(es)[k] in LastAttempts(es);
      }
      if e :| e in es && e.coordinate == c {
        var l := LastOf(es)(c).value;
        LastOfNone(es, c);
        var k :| 0 <= k < |LastAttempts(es)| && LastAttempts(es)[k] == l;
        assert spots[k] == c;
      }
    }
    DistinctPermutation(FirstSeen(es), spots);
    MapPermutation(LastOf(es), FirstSeen(es), spots);
    var somes := Map((e: Evidence) => Some(e), LastAttempts(es));
    assert Map(LastOf(es), spots) == somes by {
      forall k | 0 <= k < |spots| ensures LastOf(es)(spots[k]) == somes[k] {
        assert LastAttempts(es)[k] in LastAttempts(es);
      }
    }
  }

  // ---- counting over last records --------------------------------------------------------

  function LastE(): Group -> Option<Evidence> { (g: Group) => if g == [] then None else Some(g[|g| - 1]) }

  function SomeE(): Evidence -> Option<Evidence> { (e: Evidence) => Some(e) }

  function TypeE(t: int): Evidence -> bool { (e: Evidence) => e.messageType == t }

  function TypeO(t: int): Option<Evidence> -> bool {
    (o: Option<Evidence>) => o.Some? && o.value.messageType == t
  }

  function CountO(f: Evidence -> nat): Option<Evidence> -> int {
    (o: Option<Evidence>) => if o.None? then 0 else f(o.value)
  }

  function CountE(f: Evidence -> nat): Evidence -> int { (e: Evidence) => f(e) }

  /** The groups the report counts. */
  function Attempts(es: seq<Evidence>, t: int): seq<Group> { Filter(OfType(t), Groups(es)) }

  /** Their last attempts are the last attempts of that type. */
  lemma LastsOfAttempts(es: seq<Evidence>, t: int)
    ensures multiset(Map(LastE(), Attempts(es, t))) == multiset(Map(SomeE(), Filter(TypeE(t), LastAttempts(es))))
  {
    var lasts := Map(LastOf(es), FirstSeen(es));
    var somes := Map(SomeE(), LastAttempts(es));
    FilterOfMap(LastE(), OfType(t), TypeO(t), Groups(es));
    MapOfMap(Of(es), LastE(), LastOf(es), FirstSeen(es));
    LastsOfGroups(es);
    assert somes == Map((e: Evidence) => Some(e), LastAttempts(es));
    FilterPermutation(TypeO(t), lasts, somes);
    FilterOfMap(SomeE(), TypeE(t), TypeO(t), LastAttempts(es));
  }

  lemma TotalOverLasts(f: Evidence -> nat, es: seq<Evidence>, t: int)
    ensures Total(f, Attempts(es, t)) == Sum(Map(CountE(f), Filter(TypeE(t), LastAttempts(es))))
  {
    var mine := Filter(TypeE(t), LastAttempts(es));
    LastsOfAttempts(es, t);
    MapOfMap(LastE(), CountO(f), LastCount(f), Attempts(es, t));
    MapOfMap(SomeE(), CountO(f), CountE(f), mine);
    MapPermutation(CountO(f), Map(LastE(), Attempts(es, t)), Map(SomeE(), mine));
    SumPermutation(Map(LastCount(f), Attempts(es, t)), Map(CountE(f), mine));
  }

  lemma SizeOverLasts(es: seq<Evidence>, t: int)
    ensures |Attempts(es, t)| == |Filter(TypeE(t), LastAttempts(es))|
    ensures |Groups(es)| == |LastAttempts(es)|
  {
    LastsOfAttempts(es, t);
    LastsOfGroups(es);
    assert |multiset(Map(LastE(), Attempts(es, t)))| == |Attempts(es, t)|;
    assert |multiset(Map(LastOf(es), FirstSeen(es)))| == |FirstSeen(es)|;
  }

  lemma LastIsMine(attempts: seq<Group>, mine: seq<Evidence>, g: Group)
    requires multiset(Map(LastE(), attempts)) == multiset(Map(SomeE(), mine)) && g in attempts
    ensures g != [] && g[|g| - 1] in mine
  {
    var lasts, somes := Map(LastE(), attempts), Map(SomeE(), mine);
    SameMembers(lasts, somes);
    var k :| 0 <= k < |attempts| && attempts[k] == g;
    assert lasts[k] in somes;
    var j :| 0 <= j < |somes| && somes[j] == lasts[k];
    assert somes[j] == Some(mine[j]);
  }

  lemma MineIsLast(attempts: seq<Group>, mine: seq<Evidence>, e: Evidence) returns (g: Group)
    requires multiset(Map(LastE(), attempts)) == multiset(Map(SomeE(), mine)) && e in mine
    ensures g in attempts && g != [] && g[|g| - 1] == e
  {
    var lasts, somes := Map(LastE(), attempts), Map(SomeE(), mine);
    SameMembers(lasts, somes);
    var j :| 0 <= j < |mine| && mine[j] == e;
    assert somes[j] in lasts;
    var k :| 0 <= k < |lasts| && lasts[k] == Some(e);
    g := attempts[k];
  }

  lemma AllOver(attempts: seq<Group>, mine: seq<Evidence>, p: Evidence -> bool)
    requires multiset(Map(LastE(), attempts)) == multiset(Map(SomeE(), mine))
    ensures AllLast(attempts, p) <==> forall e | e in mine :: p(e)
    ensures AnyLast(attempts, p) <==> exists e :: e in mine && p(e)
  {
    forall e | e in mine && AllLast(attempts, p) ensures p(e) {
      var g := MineIsLast(attempts, mine, e);
      assert LastIs(g, p);
    }
    forall g | g in attempts && forall e | e in mine :: p(e) ensures LastIs(g, p) { LastIsMine(attempts, mine, g); }
    if e :| e in mine && p(e) {
      var g := MineIsLast(attempts, mine, e);
      assert LastIs(g, p);
    }
    if g :| g in attempts && LastIs(g, p) { LastIsMine(attempts, mine, g); }
  }

  lemma AllOverLasts(p: Evidence -> bool, es: seq<Evidence>, t: int)
    ensures AllLast(Attempts(es, t), p) <==> forall e | e in Filter(TypeE(t), LastAttempts(es)) :: p(e)
    ensures AnyLast(Attempts(es, t), p) <==> exists e :: e in Filter(TypeE(t), LastAttempts(es)) && p(e)
  {
    LastsOfAttempts(es, t);
    AllOver(Attempts(es, t), Filter(TypeE(t), LastAttempts(es)), p);
  }

  // ---- retries before the last -----------------------------------------------------------

  lemma {:induction false} DisjointFilters<A(!new)>(p: A -> bool, q: A -> bool, either: A -> bool, s: seq<A>)
    requires forall x :: either(x) == (p(x) || q(x)) && !(p(x) && q(x))
    ensures |Filter(either, s)| == |Filter(p, s)| + |Filter(q, s)|
  {
    if s != [] { DisjointFilters(p, q, either, s[..|s| - 1]); }
  }

  lemma {:induction false} FilterTwice<A(!new)>(p: A -> bool, q: A -> bool, both: A -> bool, s: seq<A>)
    requires forall x :: both(x) == (p(x) && q(x))
    ensures Filter(p, Filter(q, s)) == Filter(both, s)
  {
    if s != [] {
      var last := |s| - 1;
      FilterTwice(p, q, both, s[..last]);
      FilterAppend(p, Filter(q, s[..last]), if q(s[last]) then [s[last]] else []);
      assert [s[last]][..0] == [];
    }
  }

  function CountAt(p: Evidence -> bool, es: seq<Evidence>): Coordinate -> int {
    (c: Coordinate) => |Filter(p, Of(es)(c))|
  }

  function Within(p: Evidence -> bool, spots: seq<Coordinate>): Evidence -> bool {
    (e: Evidence) => p(e) && e.coordinate in spots
  }

  /** Counting coordinate by coordinate counts every attempt at one of them once. */
  lemma {:induction false} SpreadCount(p: Evidence -> bool, es: seq<Evidence>, spots: seq<Coordinate>)
    requires Distinct(spots)
    ensures Sum(Map(CountAt(p, es), spots)) == |Filter(Within(p, spots), es)|
  {
    if spots == [] {
      NoneWithin(p, es);
    } else {
      var c, rest := spots[0], spots[1..];
      SpreadCount(p, es, rest);
      assert Map(CountAt(p, es), spots)[1..] == Map(CountAt(p, es), rest);
      var here := (e: Evidence) => p(e) && e.coordinate == c;
      FilterTwice(p, At(c), here, es);
      forall e: Evidence
        ensures Within(p, spots)(e) == (here(e) || Within(p, rest)(e)) && !(here(e) && Within(p, rest)(e))
      {
        assert spots == [c] + rest;
      }
      DisjointFilters(here, Within(p, rest), Within(p, spots), es);
      assert Of(es)(c) == Filter(At(c), es);
      assert Filter(p, Of(es)(c)) == Filter(here, es);
      assert CountAt(p, es)(c) == |Filter(p, Of(es)(c))|;
      assert Sum(Map(CountAt(p, es), spots)) == CountAt(p, es)(c) + Sum(Map(CountAt(p, es), rest));
    }
  }

  lemma {:induction false} NoneWithin(p: Evidence -> bool, es: seq<Evidence>)
    ensures Filter(Within(p, []), es) == []
  {
    if es != [] { NoneWithin(p, es[..|es| - 1]); }
  }

  function TypedSpot(es: seq<Evidence>, t: int): Coordinate -> bool { (c: Coordinate) => OfType(t)(Of(es)(c)) }

  /** The coordinates whose last attempt is of the type. */
  function TypedSpots(es: seq<Evidence>, t: int): seq<Coordinate> { Filter(TypedSpot(es, t), FirstSeen(es)) }

  lemma {:induction false} FilterDistinct<A(!new)>(keep: A -> bool, s: seq<A>)
    requires Distinct(s)
    ensures Distinct(Filter(keep, s))
  {
    if s != [] {
      var last := |s| - 1;
      FilterDistinct(keep, s[..last]);
      FilterMembers(keep, s[..last], s[last]);
      AppendDistinct(Filter(keep, s[..last]), s[last]);
    }
  }

  lemma TypedIsLast(es: seq<Evidence>, t: int, c: Coordinate)
    ensures TypedSpot(es, t)(c) <==> LastOf(es)(c).Some? && LastOf(es)(c).value.messageType == t
  {
    var g := Of(es)(c);
    assert TypedSpot(es, t)(c) == OfType(t)(g);
    assert OfType(t)(g) == LastIs(g, (e: Evidence) => e.messageType == t);
    assert LastOf(es)(c) == if g == [] then None else Some(g[|g| - 1]);
  }

  lemma LastIsMineExactly(es: seq<Evidence>, t: int, e: Evidence)
    ensures e in Filter(TypeE(t), LastAttempts(es)) <==> LastOf(es)(e.coordinate) == Some(e) && e.messageType == t
  {
    FilterMembers(TypeE(t), LastAttempts(es), e);
    LastAttemptsAreLast(es);
    LastOfNone(es, e.coordinate);
  }

  lemma TypedSpotsExactly(es: seq<Evidence>, t: int, c: Coordinate)
    ensures c in TypedSpots(es, t) <==> exists e :: e in Filter(TypeE(t), LastAttempts(es)) && e.coordinate == c
  {
    FilterMembers(TypedSpot(es, t), FirstSeen(es), c);
    FirstSeenMembers(es, c);
    TypedIsLast(es, t, c);
    LastOfNone(es, c);
    if LastOf(es)(c).Some? { LastIsMineExactly(es, t, LastOf(es)(c).value); }
    if e :| e in Filter(TypeE(t), LastAttempts(es)) && e.coordinate == c { LastIsMineExactly(es, t, e); }
  }

  lemma DeferredOverAll(es: seq<Evidence>, t: int)
    ensures Sum(Map(CountIn(IsDeferred()), Attempts(es, t))) == |Filter(Within(IsDeferred(), TypedSpots(es, t)), es)|
  {
    var spots := TypedSpots(es, t);
    DistinctFirstSeen(es);
    FilterDistinct(TypedSpot(es, t), FirstSeen(es));
    FilterOfMap(Of(es), TypedSpot(es, t), OfType(t), FirstSeen(es));
    MapOfMap(Of(es), CountIn(IsDeferred()), CountAt(IsDeferred(), es), spots);
    SpreadCount(IsDeferred(), es, spots);
  }
}
