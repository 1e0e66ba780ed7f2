/** Values shared by every component: optional values, identifiers, half-open time windows. */
module Core {
  datatype Option<+T> = None | Some(value: T)

  /** An identifier. The program's ids are strings used only through equality, order and
      emptiness. Any finite set of strings is order-isomorphic to a set of naturals in which
      the empty string, being the least, is 0 (see module Identifiers). */
  type Id = nat

  const EMPTY_ID: Id := 0

  /** A time in nanoseconds on the traffic timeline. */
  type Time = int

  const NANOS_PER_SECOND := 1_000_000_000

  datatype Span = Span(start: Time, end: Time)

  /** A half-open interval [start, end). A window is never empty: the constructor demands it. */
  type TimeWindow = w: Span | w.start < w.end witness Span(0, 1)

  function MakeTimeWindow(start: Time, end: Time): Option<TimeWindow> {
    if end <= start then None else Some(Span(start, end))
  }

  predicate Contains(w: TimeWindow, t: Time) {
    w.start <= t < w.end
  }

  predicate Overlaps(a: TimeWindow, b: TimeWindow) {
    a.start < b.end && b.start < a.end
  }

  function Later(s: Time, t: Time): Time {
    if s > t then s else t
  }

  function Earlier(s: Time, t: Time): Time {
    if s < t then s else t
  }

  /** The order test on the ends is exactly "some instant lies in both windows". */
  lemma OverlapIsSharedInstant(a: TimeWindow, b: TimeWindow)
    ensures Overlaps(a, b) <==> exists t :: Contains(a, t) && Contains(b, t)
  {
    if Overlaps(a, b) {
      var t := Later(a.start, b.start);
      assert Contains(a, t) && Contains(b, t);
    }
  }

  /** Conversion of a double to an integer: truncation toward zero. */
  function Truncate(x: real): int {
    if x >= 0.0 then x.Floor else -((-x).Floor)
  }

  /** A duration in nanoseconds, as seconds. */
  function Seconds(duration: int): real {
    duration as real / NANOS_PER_SECOND as real
  }

  lemma Scale(k: real, x: real, y: real)
    requires k >= 0.0 && x <= y
    ensures k * x <= k * y
  {
  }
}

/** Strict orders, sorting, and the iteration order of ordered containers. */
module Ordering {
  import opened Core

  ghost predicate StrictWeakOrder<T(!new)>(less: (T, T) -> bool) {
    && (forall a :: !less(a, a))
    && (forall a, b, c :: less(a, b) && less(b, c) ==> less(a, c))
    && (forall a, b, c :: less(a, c) ==> less(a, b) || less(b, c))
  }

  ghost predicate StrictTotalOrder<T(!new)>(less: (T, T) -> bool) {
    && (forall a :: !less(a, a))
    && (forall a, b, c :: less(a, b) && less(b, c) ==> less(a, c))
    && (forall a, b :: a == b || less(a, b) || less(b, a))
  }

  /** No element is followed by one that belongs before it. */
  ghost predicate Sorted<T(!new)>(s: seq<T>, less: (T, T) -> bool) {
    forall i, j :: 0 <= i < j < |s| ==> !less(s[j], s[i])
  }

  /** Different elements of `s` are always ordered one way or the other. */
  ghost predicate Separates<T(!new)>(s: seq<T>, less: (T, T) -> bool) {
    forall a, b :: a in s && b in s && a != b ==> less(a, b) || less(b, a)
  }

  /** What the library sort promises: a sorted permutation. Elements the order
      does not separate may come out in any order. */
  ghost predicate IsSortOf<T(!new)>(r: seq<T>, s: seq<T>, less: (T, T) -> bool) {
    multiset(r) == multiset(s) && Sorted(r, less)
  }

  lemma NotLessThrough<T(!new)>(less: (T, T) -> bool, x: T, y: T, z: T)
    requires StrictWeakOrder(less) && less(x, y) && !less(z, y)
    ensures !less(z, x)
  {
  }

  lemma NotLessAfter<T(!new)>(s: seq<T>, x: T, less: (T, T) -> bool, k: nat)
    requires StrictWeakOrder(less) && Sorted(s, less)
    requires k < |s| ==> less(x, s[k])
    ensures forall j :: k <= j < |s| ==> !less(s[j], x)
  {
    hide StrictWeakOrder;
    forall j | k <= j < |s| ensures !less(s[j], x) {
      if k < j {
        NotLessThrough(less, x, s[k], s[j]);
      } else {
        Irreflexive(less, s[k]);
        NotLessThrough(less, x, s[k], s[k]);
      }
    }
  }

  lemma PlacedIsSorted<T(!new)>(s: seq<T>, x: T, less: (T, T) -> bool, k: nat)
    requires k <= |s| && Sorted(s, less)
    requires forall i :: 0 <= i < k ==> !less(x, s[i])
    requires forall j :: k <= j < |s| ==> !less(s[j], x)
    ensures Sorted(s[..k] + [x] + s[k..], less)
  {
    var r := s[..k] + [x] + s[k..];
    forall i, j | 0 <= i < j < |r| ensures !less(r[j], r[i]) {
      assert r[i] == if i < k then s[i] else if i == k then x else s[i - 1];
      assert r[j] == if j < k then s[j] else if j == k then x else s[j - 1];
    }
  }

  lemma PlacedMultiset<T(!new)>(s: seq<T>, x: T, k: nat)
    requires k <= |s|
    ensures multiset(s[..k] + [x] + s[k..]) == multiset(s + [x])
  {
    assert s == s[..k] + s[k..];
  }

  method Insert<T(!new)>(s: seq<T>, x: T, less: (T, T) -> bool) returns (r: seq<T>)
    requires StrictWeakOrder(less) && Sorted(s, less)
    ensures IsSortOf(r, s + [x], less)
  {
    hide StrictWeakOrder, Sorted;
    var k := 0;
    while k < |s| && !less(x, s[k])
      invariant 0 <= k <= |s|
      invariant forall i :: 0 <= i < k ==> !less(x, s[i])
    {
      k := k + 1;
    }
    NotLessAfter(s, x, less, k);
    PlacedIsSorted(s, x, less, k);
    PlacedMultiset(s, x, k);
    r := s[..k] + [x] + s[k..];
  }

  lemma Irreflexive<T(!new)>(less: (T, T) -> bool, x: T)
    requires StrictWeakOrder(less)
    ensures !less(x, x)
  {
  }

  method Sort<T(!new)>(s: seq<T>, less: (T, T) -> bool) returns (r: seq<T>)
    requires StrictWeakOrder(less)
    ensures IsSortOf(r, s, less)
  {
    hide StrictWeakOrder, Sorted;
    r := [];
    assert IsSortOf(r, s[..0], less) by { EmptyIsSorted(less); }
    for i := 0 to |s|
      invariant IsSortOf(r, s[..i], less)
    {
      r := Insert(r, s[i], less);
      assert s[..i + 1] == s[..i] + [s[i]];
    }
    assert s[..|s|] == s;
  }

  lemma EmptyIsSorted<T(!new)>(less: (T, T) -> bool)
    ensures Sorted([], less)
  {
  }

  lemma MultisetTail<T(!new)>(p: seq<T>)
    requires p != []
    ensures multiset(p[1..]) == multiset(p) - multiset{p[0]}
    ensures forall x :: x in p[1..] ==> x in p
  {
    assert p == [p[0]] + p[1..];
  }

  lemma SortedHead<T(!new)>(p: seq<T>, x: T, less: (T, T) -> bool)
    requires Sorted(p, less) && x in p
    ensures x == p[0] || !less(x, p[0])
  {
    var i :| 0 <= i < |p| && p[i] == x;
  }

  lemma SameMembers<T(!new)>(p: seq<T>, q: seq<T>, x: T)
    requires multiset(p) == multiset(q) && x in p
    ensures x in q
  {
    assert x in multiset(p);
  }

  /** Where the order separates the elements, the sorted permutation is unique. */
  lemma {:induction false} SortIsUnique<T(!new)>(p: seq<T>, q: seq<T>, less: (T, T) -> bool)
    requires multiset(p) == multiset(q)
    requires Sorted(p, less) && Sorted(q, less) && Separates(p, less)
    ensures p == q
  {
    assert |p| == |multiset(p)| == |multiset(q)| == |q|;
    if p != [] {
      SameMembers(p, q, p[0]);
      SameMembers(q, p, q[0]);
      SortedHead(p, q[0], less);
      SortedHead(q, p[0], less);
      assert p[0] == q[0];
      MultisetTail(p);
      MultisetTail(q);
      SortIsUnique(p[1..], q[1..], less);
      assert p == [p[0]] + p[1..] && q == [q[0]] + q[1..];
    }
  }

  lemma LessIsTransitive<T(!new)>(less: (T, T) -> bool, x: T, y: T, z: T)
    requires StrictTotalOrder(less) && less(x, y) && less(y, z)
    ensures less(x, z)
  {
  }

  lemma LessIsTotal<T(!new)>(less: (T, T) -> bool, x: T, y: T)
    requires StrictTotalOrder(less)
    ensures x == y || less(x, y) || less(y, x)
    ensures !(less(x, y) && less(y, x))
    ensures !less(x, x)
  {
  }

  lemma {:induction false} LeastExists<T(!new)>(s: set<T>, less: (T, T) -> bool)
    requires StrictTotalOrder(less) && s != {}
    ensures exists m :: IsLeast(m, s, less)
  {
    hide StrictTotalOrder;
    var x :| x in s;
    if s == {x} {
      assert IsLeast(x, s, less);
    } else {
      LeastExists(s - {x}, less);
      var m :| IsLeast(m, s - {x}, less);
      if less(x, m) {
        forall y | y in s ensures y == x || less(x, y) {
          if y != x && y != m { LessIsTransitive(less, x, m, y); }
        }
        assert IsLeast(x, s, less);
      } else {
        LessIsTotal(less, x, m);
        assert IsLeast(m, s, less);
      }
    }
  }

  ghost predicate IsLeast<T(!new)>(m: T, s: set<T>, less: (T, T) -> bool) {
    m in s && forall x :: x in s ==> x == m || less(m, x)
  }

  ghost function Least<T(!new)>(s: set<T>, less: (T, T) -> bool): (m: T)
    requires StrictTotalOrder(less) && s != {}
    ensures IsLeast(m, s, less)
  {
    LeastExists(s, less);
    var m :| IsLeast(m, s, less);
    m
  }

  /** The elements of a set, ascending: how an ordered container is walked. */
  ghost function InOrder<T(!new)>(s: set<T>, less: (T, T) -> bool): (q: seq<T>)
    requires StrictTotalOrder(less)
    ensures |q| == |s|
    ensures forall x :: x in q <==> x in s
    ensures Ascending(q, less)
    decreases |s|
  {
    if s == {} then []
    else
      var m := Least(s, less);
      [m] + InOrder(s - {m}, less)
  }

  ghost predicate Ascending<T(!new)>(q: seq<T>, less: (T, T) -> bool) {
    forall i, j :: 0 <= i < j < |q| ==> less(q[i], q[j])
  }

  /** A set is listed in ascending order in one way only. */
  lemma {:induction false} InOrderIsUnique<T(!new)>(q: seq<T>, s: set<T>, less: (T, T) -> bool)
    requires StrictTotalOrder(less)
    requires Ascending(q, less)
    requires forall x :: x in q ==> x in s
    requires forall x :: x in s ==> x in q
    ensures q == InOrder(s, less)
    decreases |s|
  {
    hide StrictTotalOrder;
    assert q != [] ==> q[0] in q;
    if s != {} {
      var m := Least(s, less);
      var k :| 0 <= k < |q| && q[k] == m;
      LessIsTotal(less, q[0], m);
      assert k == 0;
      var rest := q[1..];
      assert q == [m] + rest;
      forall x | x in rest ensures x in s - {m} {
        var i :| 0 <= i < |rest| && rest[i] == x;
        assert less(q[0], q[i + 1]);
        LessIsTotal(less, m, m);
      }
      InOrderIsUnique(rest, s - {m}, less);
    }
  }

  predicate IdLess(a: Id, b: Id) {
    a < b
  }

  lemma IdOrder()
    ensures StrictTotalOrder(IdLess)
  {
  }

  ghost function InIdOrder(s: set<Id>): (q: seq<Id>)
    ensures |q| == |s|
    ensures forall x :: x in q <==> x in s
    ensures Ascending(q, IdLess)
  {
    InOrder(s, IdLess)
  }

  /** Walks an ordered container. */
  method WalkBy<T(==, !new)>(s: set<T>, less: (T, T) -> bool) returns (q: seq<T>)
    requires StrictTotalOrder(less)
    ensures q == InOrder(s, less)
  {
    hide StrictTotalOrder, InOrder, Ascending;
    q := [];
    var rest := s;
    while rest != {}
      invariant q + InOrder(rest, less) == InOrder(s, less)
      decreases |rest|
    {
      SomeLeast(rest, less);
      var m :| m in rest && forall x :: x in rest ==> x == m || less(m, x);
      TakeLeast(q, rest, m, less);
      q := q + [m];
      rest := rest - {m};
    }
    NothingLeft(less);
  }

  lemma SomeLeast<T(!new)>(s: set<T>, less: (T, T) -> bool)
    requires StrictTotalOrder(less) && s != {}
    ensures exists m :: m in s && forall x :: x in s ==> x == m || less(m, x)
  {
    LeastExists(s, less);
    var m :| IsLeast(m, s, less);
    assert m in s && forall x :: x in s ==> x == m || less(m, x);
  }

  lemma TakeLeast<T(!new)>(q: seq<T>, s: set<T>, m: T, less: (T, T) -> bool)
    requires StrictTotalOrder(less) && m in s && forall x :: x in s ==> x == m || less(m, x)
    ensures q + InOrder(s, less) == (q + [m]) + InOrder(s - {m}, less)
  {
    LessIsTotal(less, m, Least(s, less));
    FirstIsLeast(s, less);
    hide *;
    assert forall tail: seq<T> :: q + ([m] + tail) == (q + [m]) + tail;
  }

  lemma FirstIsLeast<T(!new)>(s: set<T>, less: (T, T) -> bool)
    requires StrictTotalOrder(less) && s != {}
    ensures InOrder(s, less) == [Least(s, less)] + InOrder(s - {Least(s, less)}, less)
  {
    hide StrictTotalOrder, Ascending;
  }

  lemma NothingLeft<T(!new)>(less: (T, T) -> bool)
    requires StrictTotalOrder(less)
    ensures InOrder({}, less) == []
  {
  }

  method Walk(s: set<Id>) returns (q: seq<Id>)
    ensures q == InIdOrder(s)
  {
    IdOrder();
    q := WalkBy(s, IdLess);
  }

  function Reversed<T>(q: seq<T>): (r: seq<T>)
    ensures |r| == |q| && forall i :: 0 <= i < |q| ==> r[i] == q[|q| - 1 - i]
  {
    if q == [] then [] else [q[|q| - 1]] + Reversed(q[..|q| - 1])
  }

  predicate Distinct<T(==)>(q: seq<T>) {
    forall i, j :: 0 <= i < j < |q| ==> q[i] != q[j]
  }

  lemma Member<T>(s: set<T>) returns (x: T)
    requires s != {}
    ensures x in s
  {
    x :| x in s;
  }

  lemma SubsetSize<T>(a: set<T>, b: set<T>)
    requires a <= b
    ensures |a| <= |b|
  {
    assert b == a + (b - a);
  }

  /** The latest of these instants not after `t`. */
  lemma {:induction false} LatestUpTo(instants: set<Time>, first: Time, t: Time) returns (s: Time)
    requires first in instants && first <= t
    ensures s in instants && first <= s <= t && forall x :: x in instants && x <= t ==> x <= s
  {
    if later :| later in instants && first < later <= t {
      s := LatestUpTo(instants - {first}, later, t);
      forall x | x in instants && x <= t ensures x <= s {
        assert x == first || x in instants - {first};
      }
    } else {
      s := first;
    }
  }
}
