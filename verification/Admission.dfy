/** When a claim may be added: the declarative meaning of the admission check,
    the safety invariant, and the proof that the one decides the other. */
module Admission {
  import opened Core
  import opened Ordering
  import opened Graph
  import opened Claims

  /** `r` withholds its resource and its window contains `t`. */
  predicate Occupies(r: Record, resource: Id, t: Time) {
    && HoldsResource(r.reservation.state)
    && r.reservation.resource == resource
    && Contains(r.reservation.window, t)
  }

  /** The distinct robots inside a resource at an instant. */
  ghost function RobotsAt(book: Book, resource: Id, t: Time): set<Id> {
    set id | id in book && Occupies(book[id], resource, t) :: book[id].reservation.robot
  }

  /** Two different robots are in the same resource at the same instant. */
  ghost predicate Meet(a: Record, b: Record, t: Time) {
    && a.reservation.robot != b.reservation.robot
    && Occupies(a, a.reservation.resource, t)
    && Occupies(b, a.reservation.resource, t)
  }

  predicate Opposed(d: MapData, a: Record, b: Record) {
    OpposesDirection(d, a.reservation.resource, a.usage, b.usage)
    || OpposesMovement(d, a.reservation.resource, a.usage, b.usage)
  }

  ghost predicate CapacitySafe(d: MapData, book: Book) {
    forall resource: Id, t: Time :: |RobotsAt(book, resource, t)| <= CapacityOf(d, resource)
  }

  ghost predicate ExclusionSafe(d: MapData, book: Book) {
    forall a, b, t: Time :: a in book && b in book && Meet(book[a], book[b], t) ==> !Opposed(d, book[a], book[b])
  }

  /** At every instant no resource holds more distinct robots than its capacity, no two robots
      share a corridor in opposite stated directions, and none share an intersection on
      movements of one conflict group. */
  ghost predicate Safe(d: MapData, book: Book) {
    CapacitySafe(d, book) && ExclusionSafe(d, book)
  }

  // ------------------------------------------------------------- the check

  predicate Contends(r: Record, resource: Id, requester: Id, w: TimeWindow) {
    && HoldsResource(r.reservation.state)
    && r.reservation.resource == resource
    && r.reservation.robot != requester
    && Overlaps(r.reservation.window, w)
  }

  function ContenderIds(book: Book, resource: Id, requester: Id, w: TimeWindow): set<Id> {
    set id | id in book && Contends(book[id], resource, requester, w)
  }

  function OpposingIds(d: MapData, book: Book, resource: Id, requester: Id, w: TimeWindow,
                       usage: ResourceUsage): set<Id> {
    set id | id in book && Contends(book[id], resource, requester, w)
             && OpposesDirection(d, resource, usage, book[id].usage)
  }

  function CrossingIds(d: MapData, book: Book, resource: Id, requester: Id, w: TimeWindow,
                       usage: ResourceUsage): set<Id> {
    set id | id in book && Contends(book[id], resource, requester, w)
             && !OpposesDirection(d, resource, usage, book[id].usage)
             && OpposesMovement(d, resource, usage, book[id].usage)
  }

  /** Robots other than the requester that are inside at `t`. */
  ghost function OthersAt(book: Book, resource: Id, requester: Id, t: Time): set<Id> {
    RobotsAt(book, resource, t) - {requester}
  }

  /** `n` is the largest number of other robots inside at any instant of the window. */
  ghost predicate IsPeak(book: Book, resource: Id, requester: Id, w: TimeWindow, n: nat) {
    && (exists t :: Contains(w, t) && |OthersAt(book, resource, requester, t)| == n)
    && (forall t :: Contains(w, t) ==> |OthersAt(book, resource, requester, t)| <= n)
  }

  lemma {:induction false} PeakBelow(book: Book, resource: Id, requester: Id, w: TimeWindow, n: nat)
    requires forall t :: Contains(w, t) ==> |OthersAt(book, resource, requester, t)| <= n
    ensures exists p: nat :: IsPeak(book, resource, requester, w, p)
  {
    if exists t :: Contains(w, t) && |OthersAt(book, resource, requester, t)| == n {
      assert IsPeak(book, resource, requester, w, n);
    } else {
      assert Contains(w, w.start);
      assert |OthersAt(book, resource, requester, w.start)| < n;
      PeakBelow(book, resource, requester, w, n - 1);
    }
  }

  lemma RobotsAtBound(book: Book, resource: Id, t: Time)
    ensures RobotsAt(book, resource, t) <= set id | id in book :: book[id].reservation.robot
  {
  }

  ghost function Peak(book: Book, resource: Id, requester: Id, w: TimeWindow): (n: nat)
    ensures IsPeak(book, resource, requester, w, n)
  {
    var everyone := set id | id in book :: book[id].reservation.robot;
    assert forall t :: Contains(w, t) ==> |OthersAt(book, resource, requester, t)| <= |everyone| by {
      forall t | Contains(w, t) ensures |OthersAt(book, resource, requester, t)| <= |everyone| {
        RobotsAtBound(book, resource, t);
        SubsetSize(OthersAt(book, resource, requester, t), everyone);
      }
    }
    PeakBelow(book, resource, requester, w, |everyone|);
    var n: nat :| IsPeak(book, resource, requester, w, n);
    n
  }

  lemma PeakIsUnique(book: Book, resource: Id, requester: Id, w: TimeWindow, m: nat, n: nat)
    requires IsPeak(book, resource, requester, w, m) && IsPeak(book, resource, requester, w, n)
    ensures m == n
  {
    hide OthersAt, Contains;
    var s :| Contains(w, s) && |OthersAt(book, resource, requester, s)| == m;
    var t :| Contains(w, t) && |OthersAt(book, resource, requester, t)| == n;
  }

  datatype AdmissionResult = Admitted | CapacityExceeded | OpposingDirection | MovementConflict

  ghost function Result(d: MapData, book: Book, resource: Id, requester: Id, w: TimeWindow,
                        usage: ResourceUsage): AdmissionResult {
    if OpposingIds(d, book, resource, requester, w, usage) != {} then OpposingDirection
    else if CrossingIds(d, book, resource, requester, w, usage) != {} then MovementConflict
    else if Peak(book, resource, requester, w) >= CapacityOf(d, resource) then CapacityExceeded
    else Admitted
  }

  ghost predicate Admits(d: MapData, book: Book, resource: Id, requester: Id, w: TimeWindow, usage: ResourceUsage) {
    Result(d, book, resource, requester, w, usage) == Admitted
  }

  /** What being admitted means, instant by instant. */
  lemma AdmittedMeans(d: MapData, book: Book, resource: Id, requester: Id, w: TimeWindow, usage: ResourceUsage)
    ensures Admits(d, book, resource, requester, w, usage) <==>
      && (forall id :: id in book && Contends(book[id], resource, requester, w) ==>
            !OpposesDirection(d, resource, usage, book[id].usage) && !OpposesMovement(d, resource, usage, book[id].usage))
      && (forall t :: Contains(w, t) ==> |OthersAt(book, resource, requester, t)| < CapacityOf(d, resource))
  {
    hide OpposesDirection, OpposesMovement, Contends, OthersAt, CapacityOf, Contains;
    var opposing := OpposingIds(d, book, resource, requester, w, usage);
    var crossing := CrossingIds(d, book, resource, requester, w, usage);
    var peak := Peak(book, resource, requester, w);
    if opposing != {} {
      var id :| id in opposing;
      assert id in book;
    } else if crossing != {} {
      var id :| id in crossing;
      assert id in book;
    } else {
      forall id | id in book && Contends(book[id], resource, requester, w)
        ensures !OpposesDirection(d, resource, usage, book[id].usage) && !OpposesMovement(d, resource, usage, book[id].usage)
      {
        assert id !in opposing && id !in crossing;
      }
      assert IsPeak(book, resource, requester, w, peak);
    }
  }

  // ------------------------------------------------------------- exactness

  /** `grown` is a new claim over `added`, or a claim already in the book that also gains `added`. */
  ghost predicate Grows(before: Book, grown: Record, added: TimeWindow) {
    var id := grown.reservation.id;
    && HoldsResource(grown.reservation.state)
    && (id in before ==>
          && HoldsResource(before[id].reservation.state)
          && before[id].reservation.resource == grown.reservation.resource
          && before[id].reservation.robot == grown.reservation.robot
          && before[id].usage == grown.usage)
    && (forall t :: Contains(grown.reservation.window, t) <==>
          (id in before && Contains(before[id].reservation.window, t)) || Contains(added, t))
  }

  lemma InsertGrows(book: Book, r: Record)
    requires r.reservation.id !in book && HoldsResource(r.reservation.state)
    ensures Grows(book, r, r.reservation.window)
  {
  }

  lemma ExtendGrows(book: Book, id: Id, end: Time)
    requires id in book && HoldsResource(book[id].reservation.state) && book[id].reservation.window.end < end
    ensures Grows(book, WithEnd(book[id], end), Span(book[id].reservation.window.end, end))
  {
  }

  lemma OccupiesGrown(before: Book, grown: Record, added: TimeWindow, q: Id, t: Time)
    requires Grows(before, grown, added)
    ensures Occupies(grown, q, t) <==>
      (grown.reservation.id in before && Occupies(before[grown.reservation.id], q, t))
      || (q == grown.reservation.resource && Contains(added, t))
  {
  }

  lemma RobotsAtGrown(before: Book, grown: Record, added: TimeWindow, q: Id, t: Time)
    requires Grows(before, grown, added)
    ensures RobotsAt(before[grown.reservation.id := grown], q, t) ==
      if q == grown.reservation.resource && Contains(added, t)
      then RobotsAt(before, q, t) + {grown.reservation.robot} else RobotsAt(before, q, t)
  {
    var id, after := grown.reservation.id, before[grown.reservation.id := grown];
    OccupiesGrown(before, grown, added, q, t);
    hide Occupies, HoldsResource, Contains;
    forall x | x in RobotsAt(before, q, t) ensures x in RobotsAt(after, q, t) {
      var i :| i in before && Occupies(before[i], q, t) && before[i].reservation.robot == x;
      assert i in after && Occupies(after[i], q, t) && after[i].reservation.robot == x;
    }
    forall x | x in RobotsAt(after, q, t)
      ensures x in RobotsAt(before, q, t) ||
              (x == grown.reservation.robot && q == grown.reservation.resource && Contains(added, t))
    {
      var i :| i in after && Occupies(after[i], q, t) && after[i].reservation.robot == x;
      assert i != id ==> i in before && Occupies(before[i], q, t);
      assert i == id && id in before && Occupies(before[id], q, t) ==> x in RobotsAt(before, q, t);
    }
    if Occupies(grown, q, t) {
      assert id in after && after[id] == grown;
      assert grown.reservation.robot in RobotsAt(after, q, t);
    }
  }

  lemma SizeWithout(s: set<Id>, x: Id)
    ensures |s + {x}| == |s - {x}| + 1
  {
    assert s + {x} == (s - {x}) + {x};
  }

  /** Capacity survives an added presence exactly when there is room at every added instant. */
  lemma RoomIsExact(d: MapData, before: Book, grown: Record, added: TimeWindow)
    requires CapacitySafe(d, before) && Grows(before, grown, added)
    ensures CapacitySafe(d, before[grown.reservation.id := grown]) <==>
      forall t :: Contains(added, t) ==>
        |OthersAt(before, grown.reservation.resource, grown.reservation.robot, t)| < CapacityOf(d, grown.reservation.resource)
  {
    var after := before[grown.reservation.id := grown];
    var resource, robot := grown.reservation.resource, grown.reservation.robot;
    forall q: Id, t: Time
      ensures RobotsAt(after, q, t) ==
        if q == resource && Contains(added, t) then RobotsAt(before, q, t) + {robot} else RobotsAt(before, q, t)
    {
      RobotsAtGrown(before, grown, added, q, t);
    }
    hide CapacityOf, RobotsAt, Contains, Grows;
    forall t | Contains(added, t) ensures |RobotsAt(after, resource, t)| == |OthersAt(before, resource, robot, t)| + 1 {
      SizeWithout(RobotsAt(before, resource, t), robot);
    }
    if forall t :: Contains(added, t) ==> |OthersAt(before, resource, robot, t)| < CapacityOf(d, resource) {
      forall q: Id, t: Time ensures |RobotsAt(after, q, t)| <= CapacityOf(d, q) {
        if q == resource && Contains(added, t) {
          assert |OthersAt(before, resource, robot, t)| < CapacityOf(d, resource);
        } else {
          assert RobotsAt(after, q, t) == RobotsAt(before, q, t);
        }
      }
    }
  }

  lemma OpposedIsSymmetric(d: MapData, a: Record, b: Record)
    requires a.reservation.resource == b.reservation.resource
    ensures Opposed(d, a, b) == Opposed(d, b, a)
  {
  }

  /** The pair rule seen from the grown claim: it clashes with exactly the contenders of the added span. */
  ghost predicate ClearOf(d: MapData, before: Book, grown: Record, added: TimeWindow) {
    forall i :: i in before && Contends(before[i], grown.reservation.resource, grown.reservation.robot, added) ==>
      !Opposed(d, grown, before[i])
  }

  lemma MeetsGrown(before: Book, grown: Record, added: TimeWindow, other: Record, t: Time)
    requires Grows(before, grown, added)
    ensures Meet(grown, other, t) <==>
      || (grown.reservation.id in before && Meet(before[grown.reservation.id], other, t))
      || (Contains(added, t) && Occupies(other, grown.reservation.resource, t) && other.reservation.robot != grown.reservation.robot)
  {
    OccupiesGrown(before, grown, added, grown.reservation.resource, t);
    hide Contains, HoldsResource;
  }

  lemma ContendsIsMeeting(resource: Id, requester: Id, w: TimeWindow, r: Record)
    ensures Contends(r, resource, requester, w) <==>
      exists t :: Contains(w, t) && Occupies(r, resource, t) && r.reservation.robot != requester
  {
    OverlapIsSharedInstant(r.reservation.window, w);
    if Contends(r, resource, requester, w) {
      var t :| Contains(r.reservation.window, t) && Contains(w, t);
      assert Contains(w, t) && Occupies(r, resource, t);
    }
  }

  lemma ClearKeepsExclusion(d: MapData, before: Book, grown: Record, added: TimeWindow)
    requires ExclusionSafe(d, before) && Grows(before, grown, added) && ClearOf(d, before, grown, added)
    ensures ExclusionSafe(d, before[grown.reservation.id := grown])
  {
    var id, after := grown.reservation.id, before[grown.reservation.id := grown];
    forall i, t: Time | i in after && i != id && Meet(grown, after[i], t) ensures !Opposed(d, grown, after[i]) {
      MeetsGrown(before, grown, added, after[i], t);
      if id in before && Meet(before[id], before[i], t) {
        assert !Opposed(d, before[id], before[i]);
      } else {
        ContendsIsMeeting(grown.reservation.resource, grown.reservation.robot, added, before[i]);
        assert Contends(before[i], grown.reservation.resource, grown.reservation.robot, added);
      }
    }
    hide Opposed, Grows, ClearOf;
    forall a, b, t: Time | a in after && b in after && Meet(after[a], after[b], t) ensures !Opposed(d, after[a], after[b]) {
      if a == id {
        assert b != id;
      } else if b == id {
        assert Meet(grown, after[a], t);
        OpposedIsSymmetric(d, after[a], grown);
      } else {
        assert Meet(before[a], before[b], t);
      }
    }
  }

  lemma ExclusionNeedsClear(d: MapData, before: Book, grown: Record, added: TimeWindow)
    requires Grows(before, grown, added) && ExclusionSafe(d, before[grown.reservation.id := grown])
    ensures ClearOf(d, before, grown, added)
  {
    var id, after := grown.reservation.id, before[grown.reservation.id := grown];
    forall i | i in before && Contends(before[i], grown.reservation.resource, grown.reservation.robot, added)
      ensures !Opposed(d, grown, before[i])
    {
      ContendsIsMeeting(grown.reservation.resource, grown.reservation.robot, added, before[i]);
      var t :| Contains(added, t) && Occupies(before[i], grown.reservation.resource, t);
      MeetsGrown(before, grown, added, before[i], t);
      assert i != id;
      hide Grows, Opposed, Contends;
      assert after[i] == before[i] && after[id] == grown;
      assert Meet(after[id], after[i], t);
    }
  }

  /** Exact admission. In a safe book the check admits a span for a claim, new or already held,
      if and only if the book with that claim grown by the span is safe. */
  lemma AdmissionIsExact(d: MapData, before: Book, grown: Record, added: TimeWindow)
    requires Safe(d, before) && Grows(before, grown, added)
    ensures Admits(d, before, grown.reservation.resource, grown.reservation.robot, added, grown.usage)
      <==> Safe(d, before[grown.reservation.id := grown])
  {
    hide Grows, ClearOf, Admits, OthersAt, Contends, Contains, OpposesDirection, OpposesMovement, CapacityOf;
    hide CapacitySafe, ExclusionSafe;
    AdmittedMeans(d, before, grown.reservation.resource, grown.reservation.robot, added, grown.usage);
    RoomIsExact(d, before, grown, added);
    if Safe(d, before[grown.reservation.id := grown]) {
      ExclusionNeedsClear(d, before, grown, added);
      ClearMeans(d, before, grown, added);
    }
    if Admits(d, before, grown.reservation.resource, grown.reservation.robot, added, grown.usage) {
      ClearMeans(d, before, grown, added);
      ClearKeepsExclusion(d, before, grown, added);
    }
  }

  lemma ClearMeans(d: MapData, before: Book, grown: Record, added: TimeWindow)
    ensures ClearOf(d, before, grown, added) <==>
      forall id :: id in before && Contends(before[id], grown.reservation.resource, grown.reservation.robot, added) ==>
        !OpposesDirection(d, grown.reservation.resource, grown.usage, before[id].usage)
        && !OpposesMovement(d, grown.reservation.resource, grown.usage, before[id].usage)
  {
    hide OpposesDirection, OpposesMovement, Contends;
  }

  /** Every presence in `after` was already a presence, by the same robot on the same usage, in `before`. */
  ghost predicate Shrinks(before: Book, after: Book) {
    forall id :: id in after && HoldsResource(after[id].reservation.state) ==>
      && id in before
      && HoldsResource(before[id].reservation.state)
      && after[id].reservation.robot == before[id].reservation.robot
      && after[id].reservation.resource == before[id].reservation.resource
      && after[id].reservation.window == before[id].reservation.window
      && after[id].usage == before[id].usage
  }

  /** Giving claims back, or moving them from granted to entered, never endangers anyone. */
  lemma ShrinkingIsSafe(d: MapData, before: Book, after: Book)
    requires Safe(d, before) && Shrinks(before, after)
    ensures Safe(d, after)
  {
    forall q: Id, t: Time ensures |RobotsAt(after, q, t)| <= CapacityOf(d, q) {
      ShrunkRobots(before, after, q, t);
      SubsetSize(RobotsAt(after, q, t), RobotsAt(before, q, t));
    }
    forall a, b, t: Time | a in after && b in after && Meet(after[a], after[b], t) ensures !Opposed(d, after[a], after[b]) {
      assert Meet(before[a], before[b], t);
    }
  }

  lemma ShrunkRobots(before: Book, after: Book, q: Id, t: Time)
    requires Shrinks(before, after)
    ensures RobotsAt(after, q, t) <= RobotsAt(before, q, t)
  {
    hide Contains;
    forall x | x in RobotsAt(after, q, t) ensures x in RobotsAt(before, q, t) {
      var i :| i in after && Occupies(after[i], q, t) && after[i].reservation.robot == x;
      assert i in before && Occupies(before[i], q, t);
    }
  }
}

/** Orders and explanations that accompany an admission verdict. */
module Verdicts {
  import opened Core
  import opened Ordering
  import opened Graph
  import opened Claims
  import opened Admission

  /** The index key of a holding claim. */
  datatype Key = Key(start: Time, id: Id)

  predicate KeyLess(a: Key, b: Key) {
    a.start < b.start || (a.start == b.start && a.id < b.id)
  }

  lemma KeyOrder()
    ensures StrictTotalOrder(KeyLess)
  {
  }

  function KeyOf(r: Record): Key {
    Key(r.reservation.window.start, r.reservation.id)
  }

  ghost function InKeyOrder(keys: set<Key>): (q: seq<Key>)
    ensures |q| == |keys| && (forall k :: k in q <==> k in keys) && Ascending(q, KeyLess)
  {
    KeyOrder();
    InOrder(keys, KeyLess)
  }

  ghost function KeysOf(book: Book, ids: set<Id>): set<Key> {
    set id | id in ids && id in book :: KeyOf(book[id])
  }

  /** Claims in (start, id) order. */
  ghost function InClaimOrder(book: Book, ids: set<Id>): seq<Id> {
    var keys := InKeyOrder(KeysOf(book, ids));
    seq(|keys|, i requires 0 <= i < |keys| => keys[i].id)
  }

  ghost function RobotsOf(book: Book, ids: set<Id>): set<Id> {
    set id | id in ids && id in book :: book[id].reservation.robot
  }

  /** `t` is the earliest end among these claims; nothing when there are none. */
  ghost predicate IsEarliestEnd(book: Book, ids: set<Id>, t: Option<Time>) {
    && (t.None? ==> forall id :: id in ids ==> id !in book)
    && (t.Some? ==>
          && (exists id :: id in ids && id in book && book[id].reservation.window.end == t.value)
          && (forall id :: id in ids && id in book ==> t.value <= book[id].reservation.window.end))
  }

  lemma {:induction false} EarliestEndExists(book: Book, ids: set<Id>)
    ensures exists t :: IsEarliestEnd(book, ids, t)
  {
    if ids == {} {
      assert IsEarliestEnd(book, ids, None);
    } else {
      var x :| x in ids;
      EarliestEndExists(book, ids - {x});
      var t :| IsEarliestEnd(book, ids - {x}, t);
      if x !in book || (t.Some? && t.value <= book[x].reservation.window.end) {
        assert IsEarliestEnd(book, ids, t);
      } else {
        assert IsEarliestEnd(book, ids, Some(book[x].reservation.window.end));
      }
    }
  }

  ghost function EarliestEnd(book: Book, ids: set<Id>): (t: Option<Time>)
    ensures IsEarliestEnd(book, ids, t)
  {
    EarliestEndExists(book, ids);
    var t :| IsEarliestEnd(book, ids, t);
    t
  }

  lemma EarliestEndIsUnique(book: Book, ids: set<Id>, t: Option<Time>)
    requires IsEarliestEnd(book, ids, t)
    ensures t == EarliestEnd(book, ids)
  {
  }

  datatype AdmissionVerdict = AdmissionVerdict(
    result: AdmissionResult, capacity: nat, peakHolders: nat,
    blockers: seq<Id>, blockingRobots: seq<Id>, nextAvailable: Option<Time>)

  ghost function BlockerIds(d: MapData, book: Book, resource: Id, requester: Id, w: TimeWindow,
                            usage: ResourceUsage): set<Id> {
    match Result(d, book, resource, requester, w, usage)
    case OpposingDirection => OpposingIds(d, book, resource, requester, w, usage)
    case MovementConflict => CrossingIds(d, book, resource, requester, w, usage)
    case CapacityExceeded => ContenderIds(book, resource, requester, w)
    case Admitted => {}
  }

  ghost function Verdict(d: MapData, book: Book, resource: Id, requester: Id, w: TimeWindow,
                         usage: ResourceUsage): AdmissionVerdict {
    var result := Result(d, book, resource, requester, w, usage);
    var blockers := BlockerIds(d, book, resource, requester, w, usage);
    AdmissionVerdict(
      result, CapacityOf(d, resource),
      if result in {OpposingDirection, MovementConflict} then 0 else Peak(book, resource, requester, w),
      InClaimOrder(book, blockers), InIdOrder(RobotsOf(book, blockers)), EarliestEnd(book, blockers))
  }
}
