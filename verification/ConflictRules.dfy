/** When two observed occupancies cannot stand together. */
module ConflictRules {
  import opened Core
  import opened Ordering
  import opened Graph

  // ------------------------------------------------------------- occupancies

  /** One robot's presence on one resource for one window. */
  datatype Occupancy = Occupancy(robot: Id, resource: Id, window: TimeWindow)

  datatype NodeVisit = NodeVisit(robot: Id, node: Id, window: TimeWindow)

  datatype EdgeTraversal = EdgeTraversal(robot: Id, edge: Id, fromNode: Id, toNode: Id, resource: Id, window: TimeWindow)

  datatype PassageDirection = EntryToExit | ExitToEntry

  datatype CorridorPassage = CorridorPassage(
    robot: Id, corridor: Id, entryNode: Id, exitNode: Id, direction: PassageDirection, window: TimeWindow)

  datatype IntersectionCrossing = IntersectionCrossing(robot: Id, intersection: Id, movement: Option<Id>, window: TimeWindow)

  function OfVisit(v: NodeVisit): Occupancy { Occupancy(v.robot, v.node, v.window) }
  function OfTraversal(t: EdgeTraversal): Occupancy { Occupancy(t.robot, t.resource, t.window) }
  function OfPassage(p: CorridorPassage): Occupancy { Occupancy(p.robot, p.corridor, p.window) }
  function OfCrossing(c: IntersectionCrossing): Occupancy { Occupancy(c.robot, c.intersection, c.window) }

  // ------------------------------------------------------------- pair rules

  /** The span both windows cover. */
  function OverlapOf(a: TimeWindow, b: TimeWindow): (r: Option<TimeWindow>)
    ensures r.Some? ==> forall t :: Contains(r.value, t) <==> Contains(a, t) && Contains(b, t)
    ensures r.None? ==> forall t :: !(Contains(a, t) && Contains(b, t))
  {
    if !Overlaps(a, b) then None
    else Some(Span(Later(a.start, b.start), Earlier(a.end, b.end)))
  }

  predicate TemporalConflict(a: Occupancy, b: Occupancy) {
    a.robot != b.robot && a.resource != EMPTY_ID && a.resource == b.resource && Overlaps(a.window, b.window)
  }

  predicate NodeConflict(a: NodeVisit, b: NodeVisit) {
    a.robot != b.robot && a.node != EMPTY_ID && a.node == b.node && Overlaps(a.window, b.window)
  }

  predicate FollowingConflict(a: EdgeTraversal, b: EdgeTraversal) {
    a.robot != b.robot && a.edge != EMPTY_ID && a.edge == b.edge && a.fromNode == b.fromNode && Overlaps(a.window, b.window)
  }

  predicate HeadOnConflict(a: EdgeTraversal, b: EdgeTraversal) {
    a.robot != b.robot && a.edge != EMPTY_ID && a.edge == b.edge && a.fromNode != b.fromNode && Overlaps(a.window, b.window)
  }

  datatype ConflictType = NodeClash | EdgeClash | HeadOn | Crossing | CorridorClash | ResourceClash | Temporal

  function ClassifyEdgeConflict(a: EdgeTraversal, b: EdgeTraversal): Option<ConflictType> {
    if HeadOnConflict(a, b) then Some(HeadOn)
    else if FollowingConflict(a, b) then Some(EdgeClash)
    else None
  }

  /** Opposite ways through a single-lane two-way corridor. */
  predicate CorridorHeadOn(corridor: Corridor, a: CorridorPassage, b: CorridorPassage) {
    && a.robot != b.robot && a.corridor == corridor.id && b.corridor == corridor.id
    && CanDeadlockHeadOn(corridor) && a.direction != b.direction && Overlaps(a.window, b.window)
  }

  /** Conflict groups decide; a movement the map does not define clashes with every other. */
  predicate CrossingConflict(crossing: Intersection, a: IntersectionCrossing, b: IntersectionCrossing) {
    && a.robot != b.robot && a.intersection == crossing.id && b.intersection == crossing.id
    && Overlaps(a.window, b.window)
    && (a.movement.None? || b.movement.None? || MovementsConflict(crossing, a.movement.value, b.movement.value))
  }

  /** The two edge rules never both apply, and between them cover every meeting on one edge. */
  lemma EdgeRulesPartition(a: EdgeTraversal, b: EdgeTraversal)
    ensures !(HeadOnConflict(a, b) && FollowingConflict(a, b))
    ensures ClassifyEdgeConflict(a, b).Some? <==>
      a.robot != b.robot && a.edge != EMPTY_ID && a.edge == b.edge && exists t :: Contains(a.window, t) && Contains(b.window, t)
    ensures ClassifyEdgeConflict(a, b) == ClassifyEdgeConflict(b, a)
  {
    OverlapIsSharedInstant(a.window, b.window);
  }

  /** Which classification survives when several describe one contention. */
  function Precedence(t: ConflictType): int {
    match t
    case HeadOn => 6
    case Crossing => 5
    case CorridorClash => 4
    case EdgeClash => 3
    case NodeClash => 2
    case ResourceClash => 1
    case Temporal => 0
  }

  // ------------------------------------------------------------- capacity

  /** The distinct robots present on a resource at an instant. */
  function RobotsIn(holders: set<Occupancy>, resource: Id, t: Time): set<Id> {
    set h | h in holders && h.resource == resource && Contains(h.window, t) :: h.robot
  }

  /** The two meet, and at some instant they share more robots are present than the resource admits. */
  ghost predicate Overfull(a: Occupancy, b: Occupancy, holders: set<Occupancy>, capacity: nat) {
    TemporalConflict(a, b) &&
    exists t :: Contains(a.window, t) && Contains(b.window, t) && |RobotsIn(holders, a.resource, t)| > capacity
  }

  lemma OverfullIsSymmetric(a: Occupancy, b: Occupancy, holders: set<Occupancy>, capacity: nat)
    ensures Overfull(a, b, holders, capacity) == Overfull(b, a, holders, capacity)
  {
  }

  function Listed<T>(q: seq<T>): set<T> {
    set x | x in q
  }

  method DistinctRobotsAt(holders: seq<Occupancy>, resource: Id, instant: Time) returns (count: nat)
    ensures count == |RobotsIn(Listed(holders), resource, instant)|
  {
    hide Contains;
    var present: set<Id> := {};
    for i := 0 to |holders|
      invariant present == RobotsIn(Listed(holders[..i]), resource, instant)
    {
      PresentNext(holders, i, resource, instant);
      if holders[i].resource == resource && Contains(holders[i].window, instant) {
        present := present + {holders[i].robot};
      }
    }
    assert holders[..|holders|] == holders;
    count := |present|;
  }

  lemma PresentNext(holders: seq<Occupancy>, i: nat, resource: Id, t: Time)
    requires i < |holders|
    ensures RobotsIn(Listed(holders[..i + 1]), resource, t) ==
      RobotsIn(Listed(holders[..i]), resource, t)
      + if holders[i].resource == resource && Contains(holders[i].window, t) then {holders[i].robot} else {}
  {
    hide Contains;
    assert holders[..i + 1] == holders[..i] + [holders[i]];
    assert Listed(holders[..i + 1]) == Listed(holders[..i]) + {holders[i]};
  }

  /** The instants worth testing: the start of the window and every start of a holder inside it. */
  predicate Samples(instants: set<Time>, holders: set<Occupancy>, resource: Id, w: TimeWindow) {
    && w.start in instants
    && (forall t :: t in instants ==> Contains(w, t))
    && (forall h :: h in holders && h.resource == resource && Contains(w, h.window.start) ==> h.window.start in instants)
  }

  /** The count can only rise where some holder's window begins, so testing the samples finds the maximum. */
  lemma SamplingIsExact(instants: set<Time>, holders: set<Occupancy>, resource: Id, w: TimeWindow, t: Time)
    requires Samples(instants, holders, resource, w) && Contains(w, t)
    ensures exists s :: s in instants && RobotsIn(holders, resource, t) <= RobotsIn(holders, resource, s)
  {
    var s := LatestUpTo(instants, w.start, t);
    forall robot | robot in RobotsIn(holders, resource, t) ensures robot in RobotsIn(holders, resource, s) {
      var h :| h in holders && h.resource == resource && Contains(h.window, t) && h.robot == robot;
      assert h.window.start <= s by {
        if h.window.start >= w.start { assert Contains(w, h.window.start); }
      }
      assert Contains(h.window, s);
    }
  }

  /** Two robots meeting already exceed a capacity of one. */
  lemma PairExceedsOne(a: Occupancy, b: Occupancy, holders: set<Occupancy>, capacity: nat)
    requires TemporalConflict(a, b) && a in holders && b in holders && capacity <= 1
    ensures Overfull(a, b, holders, capacity)
  {
    OverlapIsSharedInstant(a.window, b.window);
    var t :| Contains(a.window, t) && Contains(b.window, t);
    hide Contains, Overlaps;
    assert {a.robot, b.robot} <= RobotsIn(holders, a.resource, t);
    SubsetSize({a.robot, b.robot}, RobotsIn(holders, a.resource, t));
  }

  lemma SampledIsOverfull(a: Occupancy, b: Occupancy, shared: TimeWindow, holders: set<Occupancy>, capacity: nat,
                          instants: set<Time>)
    requires TemporalConflict(a, b) && OverlapOf(a.window, b.window) == Some(shared)
    requires Samples(instants, holders, a.resource, shared)
    ensures Overfull(a, b, holders, capacity) <==> exists s :: s in instants && |RobotsIn(holders, a.resource, s)| > capacity
  {
    hide Overlaps, RobotsIn;
    if Overfull(a, b, holders, capacity) {
      var t :| Contains(a.window, t) && Contains(b.window, t) && |RobotsIn(holders, a.resource, t)| > capacity;
      assert Contains(shared, t);
      SamplingIsExact(instants, holders, a.resource, shared, t);
      var s :| s in instants && RobotsIn(holders, a.resource, t) <= RobotsIn(holders, a.resource, s);
      SubsetSize(RobotsIn(holders, a.resource, t), RobotsIn(holders, a.resource, s));
    }
    if s :| s in instants && |RobotsIn(holders, a.resource, s)| > capacity {
      assert Contains(shared, s);
    }
  }

  /** Exact, short circuit included: true just when some shared instant holds more distinct robots
      than the capacity. Both occupancies must be among the holders. */
  method IsCapacityConflict(a: Occupancy, b: Occupancy, holders: seq<Occupancy>, capacity: nat) returns (conflict: bool)
    requires a in holders && b in holders
    ensures conflict <==> Overfull(a, b, Listed(holders), capacity)
  {
    hide Overfull, RobotsIn, TemporalConflict, Contains, OverlapOf;
    if !TemporalConflict(a, b) {
      NeverWithoutMeeting(a, b, Listed(holders), capacity);
      return false;
    }
    if capacity <= 1 {
      PairExceedsOne(a, b, Listed(holders), capacity);
      return true;
    }
    var shared := OverlapOf(a.window, b.window);
    MeetingsOverlap(a, b);
    var window := shared.value;
    var instants := [window.start];
    FirstSample(window);
    for i := 0 to |holders|
      invariant instants != [] && instants[0] == window.start
      invariant Samples(Listed(instants), Listed(holders[..i]), a.resource, window)
    {
      ghost var before := instants;
      if holders[i].resource == a.resource && Contains(window, holders[i].window.start) {
        instants := instants + [holders[i].window.start];
      }
      NextSample(before, instants, holders, i, a.resource, window);
    }
    assert holders[..|holders|] == holders;
    SampledIsOverfull(a, b, window, Listed(holders), capacity, Listed(instants));
    for i := 0 to |instants|
      invariant forall j :: 0 <= j < i ==> |RobotsIn(Listed(holders), a.resource, instants[j])| <= capacity
    {
      var count := DistinctRobotsAt(holders, a.resource, instants[i]);
      assert instants[i] in Listed(instants);
      if count > capacity {
        return true;
      }
    }
    return false;
  }

  lemma NeverWithoutMeeting(a: Occupancy, b: Occupancy, holders: set<Occupancy>, capacity: nat)
    requires !TemporalConflict(a, b)
    ensures !Overfull(a, b, holders, capacity)
  {
  }

  lemma MeetingsOverlap(a: Occupancy, b: Occupancy)
    requires TemporalConflict(a, b)
    ensures OverlapOf(a.window, b.window).Some?
  {
  }

  lemma FirstSample(w: TimeWindow)
    ensures forall resource :: Samples(Listed([w.start]), Listed([]), resource, w)
  {
  }

  lemma NextSample(before: seq<Time>, after: seq<Time>, holders: seq<Occupancy>, i: nat, resource: Id, w: TimeWindow)
    requires i < |holders| && Samples(Listed(before), Listed(holders[..i]), resource, w)
    requires after == if holders[i].resource == resource && Contains(w, holders[i].window.start)
                      then before + [holders[i].window.start] else before
    ensures Samples(Listed(after), Listed(holders[..i + 1]), resource, w)
  {
    hide Contains;
    assert holders[..i + 1] == holders[..i] + [holders[i]];
  }

  // ------------------------------------------------------------- severity

  datatype ConflictSeverity = Low | Medium | High

  datatype SeverityThresholds = SeverityThresholds(absorbedLead: int, criticalLead: int)

  /** How urgent a meeting is by the warning left; a head-on is never merely something to watch. */
  function SeverityFor(kind: ConflictType, overlap: TimeWindow, now: Time, t: SeverityThresholds): ConflictSeverity {
    var lead := overlap.start - now;
    var severity := if lead < t.criticalLead then High else if lead < t.absorbedLead then Medium else Low;
    if kind == HeadOn && severity == Low then Medium else severity
  }
}
