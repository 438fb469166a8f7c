/** The library sorts of Python and Go, seen through what callers may rely on: the result is the one
    sorted arrangement of the input, so it cannot depend on the order the elements arrived in. */
module Sorting {
  ghost predicate TotalOrder<T(!new)>(le: (T, T) -> bool) {
    && (forall x, y :: le(x, y) || le(y, x))
    && (forall x, y :: le(x, y) && le(y, x) ==> x == y)
    && (forall x, y, z :: le(x, y) && le(y, z) ==> le(x, z))
  }

  ghost predicate SortedBy<T>(s: seq<T>, le: (T, T) -> bool) {
    forall i, j | 0 <= i < j < |s| :: le(s[i], s[j])
  }

  ghost predicate Distinct<T>(s: seq<T>) {
    forall i, j | 0 <= i < j < |s| :: s[i] != s[j]
  }

  function Insert<T>(x: T, s: seq<T>, le: (T, T) -> bool): seq<T> {
    if s == [] || le(x, s[0]) then [x] + s else [s[0]] + Insert(x, s[1..], le)
  }

  function Sort<T>(s: seq<T>, le: (T, T) -> bool): seq<T> {
    if s == [] then [] else Insert(s[0], Sort(s[1..], le), le)
  }

  lemma {:induction false} InsertKeepsOrder<T(!new)>(x: T, s: seq<T>, le: (T, T) -> bool)
    requires TotalOrder(le) && SortedBy(s, le)
    ensures SortedBy(Insert(x, s, le), le)
    ensures multiset(Insert(x, s, le)) == multiset{x} + multiset(s)
  {
    if s != [] {
      assert s == [s[0]] + s[1..];
      if !le(x, s[0]) {
        var rest := Insert(x, s[1..], le);
        InsertKeepsOrder(x, s[1..], le);
        forall j | 0 <= j < |rest| ensures le(s[0], rest[j]) {
          assert rest[j] in multiset(rest);
        }
      }
    }
  }

  /** Sorting orders the elements and keeps each of them with its multiplicity. */
  lemma {:induction false} SortSorts<T(!new)>(s: seq<T>, le: (T, T) -> bool)
    requires TotalOrder(le)
    ensures SortedBy(Sort(s, le), le) && multiset(Sort(s, le)) == multiset(s)
    ensures |Sort(s, le)| == |s|
  {
    if s != [] {
      assert s == [s[0]] + s[1..];
      SortSorts(s[1..], le);
      InsertKeepsOrder(s[0], Sort(s[1..], le), le);
      assert |multiset(Sort(s, le))| == |multiset(s)|;
    }
  }

  /** A multiset has only one sorted arrangement. */
  lemma {:induction false} SortedUnique<T(!new)>(a: seq<T>, b: seq<T>, le: (T, T) -> bool)
    requires TotalOrder(le) && SortedBy(a, le) && SortedBy(b, le)
    requires multiset(a) == multiset(b)
    ensures a == b
  {
    assert |multiset(a)| == |multiset(b)|;
    if a != [] {
      assert a == [a[0]] + a[1..] && b == [b[0]] + b[1..];
      assert a[0] in multiset(b) && b[0] in multiset(a);
      assert a[0] == b[0];
      assert multiset(a[1..]) == multiset(a) - multiset{a[0]};
      SortedUnique(a[1..], b[1..], le);
    }
  }

  lemma SortPermutation<T(!new)>(a: seq<T>, b: seq<T>, le: (T, T) -> bool)
    requires TotalOrder(le) && multiset(a) == multiset(b)
    ensures Sort(a, le) == Sort(b, le)
  {
    SortSorts(a, le);
    SortSorts(b, le);
    SortedUnique(Sort(a, le), Sort(b, le), le);
  }

  lemma SortMembers<T(!new)>(s: seq<T>, le: (T, T) -> bool)
    requires TotalOrder(le)
    ensures forall x :: x in Sort(s, le) <==> x in s
  {
    SortSorts(s, le);
    forall x ensures x in Sort(s, le) <==> x in s {
      assert x in Sort(s, le) <==> x in multiset(Sort(s, le));
      assert x in s <==> x in multiset(s);
    }
  }

  lemma {:induction false} DistinctCountsOnce<T>(s: seq<T>, x: T)
    requires Distinct(s)
    ensures multiset(s)[x] == if x in s then 1 else 0
  {
    if s != [] {
      assert s == [s[0]] + s[1..];
      DistinctCountsOnce(s[1..], x);
    }
  }

  /** Two duplicate-free lists of the same elements are permutations of each other. */
  lemma DistinctPermutation<T>(a: seq<T>, b: seq<T>)
    requires Distinct(a) && Distinct(b)
    requires forall x :: x in a <==> x in b
    ensures multiset(a) == multiset(b)
  {
    forall x ensures multiset(a)[x] == multiset(b)[x] {
      DistinctCountsOnce(a, x);
      DistinctCountsOnce(b, x);
    }
  }

  // ---- mapping ---------------------------------------------------------------------------

  function Map<A, B>(f: A -> B, s: seq<A>): (r: seq<B>)
    ensures |r| == |s|
    ensures forall i | 0 <= i < |s| :: r[i] == f(s[i])
  {
    seq(|s|, i requires 0 <= i < |s| => f(s[i]))
  }

  lemma MapAppend<A, B>(f: A -> B, a: seq<A>, b: seq<A>)
    ensures Map(f, a + b) == Map(f, a) + Map(f, b)
  {}

  lemma MapMiddle<A, B>(f: A -> B, left: seq<A>, x: A, right: seq<A>)
    ensures multiset(Map(f, left + [x] + right)) == multiset{f(x)} + multiset(Map(f, left + right))
  {
    assert Map(f, left + [x] + right) == Map(f, left) + [f(x)] + Map(f, right);
    assert Map(f, left + right) == Map(f, left) + Map(f, right);
  }

  lemma MultisetMiddle<A>(left: seq<A>, x: A, right: seq<A>)
    ensures multiset(left + [x] + right) - multiset{x} == multiset(left + right)
  {}

  /** Mapping a permutation yields a permutation. */
  lemma {:induction false} MapPermutation<A, B>(f: A -> B, a: seq<A>, b: seq<A>)
    requires multiset(a) == multiset(b)
    ensures multiset(Map(f, a)) == multiset(Map(f, b))
  {
    assert |multiset(a)| == |multiset(b)|;
    if a != [] {
      var x := a[0];
      assert a == [] + [x] + a[1..] && [] + a[1..] == a[1..];
      assert x in multiset(b);
      var k :| 0 <= k < |b| && b[k] == x;
      var left, right := b[..k], b[k + 1..];
      assert b == left + [x] + right;
      MultisetMiddle([], x, a[1..]);
      MultisetMiddle(left, x, right);
      MapMiddle(f, [], x, a[1..]);
      MapMiddle(f, left, x, right);
      MapPermutation(f, a[1..], left + right);
    }
  }

  lemma DistinctIsAboutCounts<T(!new)>(s: seq<T>)
    ensures Distinct(s) <==> forall x :: multiset(s)[x] <= 1
  {
    if Distinct(s) {
      forall x ensures multiset(s)[x] <= 1 { DistinctCountsOnce(s, x); }
    } else {
      var i, j :| 0 <= i < j < |s| && s[i] == s[j];
      assert s == s[..i] + [s[i]] + s[i + 1..j] + [s[j]] + s[j + 1..];
      assert multiset(s)[s[i]] >= 2;
    }
  }

  lemma DistinctPermuted<T(!new)>(a: seq<T>, b: seq<T>)
    requires multiset(a) == multiset(b)
    ensures Distinct(a) <==> Distinct(b)
  {
    DistinctIsAboutCounts(a);
    DistinctIsAboutCounts(b);
  }

  lemma DuplicateBreaks<T>(s: seq<T>, i: nat)
    requires i < |s| && s[i] in s[..i]
    ensures !Distinct(s)
  {}

  lemma DistinctGrows<T>(s: seq<T>, i: nat)
    requires i < |s| && s[i] !in s[..i] && Distinct(s[..i])
    ensures s[..i + 1] == s[..i] + [s[i]] && Distinct(s[..i + 1])
  {
    AppendDistinct(s[..i], s[i]);
  }

  lemma AppendDistinct<T>(s: seq<T>, x: T)
    requires Distinct(s) && x !in s
    ensures Distinct(s + [x])
  {}

  function Filter<A>(keep: A -> bool, s: seq<A>): seq<A> {
    if s == [] then []
    else
      var last := |s| - 1;
      Filter(keep, s[..last]) + if keep(s[last]) then [s[last]] else []
  }

  lemma {:induction false} FilterCount<A>(keep: A -> bool, s: seq<A>, x: A)
    ensures multiset(Filter(keep, s))[x] == if keep(x) then multiset(s)[x] else 0
  {
    if s != [] {
      var last := |s| - 1;
      assert s == s[..last] + [s[last]];
      FilterCount(keep, s[..last], x);
    }
  }

  /** Filtering keeps the order. */
  lemma {:induction false} FilterAppend<A>(keep: A -> bool, a: seq<A>, b: seq<A>)
    ensures Filter(keep, a + b) == Filter(keep, a) + Filter(keep, b)
  {
    if b == [] {
      assert a + b == a;
    } else {
      var last := |b| - 1;
      assert (a + b)[..|a + b| - 1] == a + b[..last];
      FilterAppend(keep, a, b[..last]);
    }
  }

  /** Choosing before or after mapping is the same, if both choose alike. */
  lemma {:induction false} FilterOfMap<A, B>(f: A -> B, before: A -> bool, after: B -> bool, s: seq<A>)
    requires forall x | x in s :: before(x) == after(f(x))
    ensures Map(f, Filter(before, s)) == Filter(after, Map(f, s))
  {
    if s != [] {
      var last := |s| - 1;
      assert s == s[..last] + [s[last]] && s[last] in s;
      FilterOfMap(f, before, after, s[..last]);
      MapAppend(f, s[..last], [s[last]]);
      FilterAppend(after, Map(f, s[..last]), [f(s[last])]);
      assert [f(s[last])][..0] == [];
      MapAppend(f, Filter(before, s[..last]), if before(s[last]) then [s[last]] else []);
    }
  }

  lemma MapOfMap<A, B, C>(f: A -> B, g: B -> C, h: A -> C, s: seq<A>)
    requires forall x | x in s :: h(x) == g(f(x))
    ensures Map(g, Map(f, s)) == Map(h, s)
  {}

  /** Filtering a permutation yields a permutation. */
  lemma FilterPermutation<A>(keep: A -> bool, a: seq<A>, b: seq<A>)
    requires multiset(a) == multiset(b)
    ensures multiset(Filter(keep, a)) == multiset(Filter(keep, b))
  {
    var m, n := multiset(Filter(keep, a)), multiset(Filter(keep, b));
    forall x ensures m[x] == n[x] {
      FilterCount(keep, a, x);
      FilterCount(keep, b, x);
    }
    SameCounts(m, n);
  }

  lemma SameCounts<A>(m: multiset<A>, n: multiset<A>)
    requires forall x :: m[x] == n[x]
    ensures m == n
  {}

  lemma {:induction false} FilterMembers<A>(keep: A -> bool, s: seq<A>, x: A)
    ensures x in Filter(keep, s) <==> x in s && keep(x)
  {
    FilterCount(keep, s, x);
    assert x in Filter(keep, s) <==> x in multiset(Filter(keep, s));
    assert x in s <==> x in multiset(s);
  }

  lemma SameMembers<T(!new)>(a: seq<T>, b: seq<T>)
    requires multiset(a) == multiset(b)
    ensures forall x :: x in a <==> x in b
  {
    forall x ensures x in a <==> x in b {
      assert x in a <==> x in multiset(a);
      assert x in b <==> x in multiset(b);
    }
  }

  function Flatten<T>(s: seq<seq<T>>): seq<T> { if s == [] then [] else Flatten(s[..|s| - 1]) + s[|s| - 1] }

  function Sum(s: seq<int>): int { if s == [] then 0 else s[0] + Sum(s[1..]) }

  lemma {:induction false} SumMiddle(left: seq<int>, x: int, right: seq<int>)
    ensures Sum(left + [x] + right) == x + Sum(left + right)
  {
    if left == [] {
      assert left + [x] + right == [x] + right && left + right == right;
    } else {
      assert (left + [x] + right)[1..] == left[1..] + [x] + right && (left + right)[1..] == left[1..] + right;
      SumMiddle(left[1..], x, right);
    }
  }

  lemma {:induction false} SumPermutation(a: seq<int>, b: seq<int>)
    requires multiset(a) == multiset(b)
    ensures Sum(a) == Sum(b)
  {
    assert |multiset(a)| == |multiset(b)|;
    if a != [] {
      var x := a[0];
      assert a == [] + [x] + a[1..] && [] + a[1..] == a[1..];
      assert x in multiset(b);
      var k :| 0 <= k < |b| && b[k] == x;
      assert b == b[..k] + [x] + b[k + 1..];
      MultisetMiddle([], x, a[1..]);
      MultisetMiddle(b[..k], x, b[k + 1..]);
      SumMiddle(b[..k], x, b[k + 1..]);
      SumPermutation(a[1..], b[..k] + b[k + 1..]);
    }
  }

  ghost predicate Solvable<T(!new)>(good: (nat, T) -> bool, k: nat) { exists x :: good(k, x) }

  /** Picks an element for each position where one is known to exist. */
  lemma ChooseEach<T(!new)>(n: nat, good: (nat, T) -> bool) returns (s: seq<T>)
    requires forall k: nat | k < n :: Solvable(good, k)
    ensures |s| == n && forall k: nat | k < n :: good(k, s[k])
  {
    s := [];
    for i := 0 to n
      invariant |s| == i && forall k: nat | k < i :: good(k, s[k])
    {
      assert Solvable(good, i);
      var x :| good(i, x);
      s := s + [x];
    }
  }
}
