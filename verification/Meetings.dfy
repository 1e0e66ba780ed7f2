/** What each pass finds, instant by instant: two robots in one place, and too many there. */
module Meetings {
  import opened Core
  import opened Graph
  import opened Claims
  import opened Routes
  import opened ConflictRules
  import opened RouteReading
  import opened Contentions
  import opened Findings

  predicate IsMeeting(c: Candidate, a: Id, b: Id, resource: Id, kind: ConflictType) {
    c.robotA == a && c.robotB == b && c.resource == resource && c.kind == kind
  }

  ghost predicate IsFound(d: MapData, s: Scene, reservations: set<Reservation>, a: Id, b: Id, resource: Id, kind: ConflictType) {
    exists c :: c in Candidates(d, s, reservations) && IsMeeting(c, a, b, resource, kind)
  }

  /** A pass reports only its own kinds. */
  lemma KindsOfRules(d: MapData, s: Scene, held: set<Reservation>, everyone: set<Occupancy>)
    ensures forall x, y :: NodePair(d, s.visits, x, y).Some? ==> NodePair(d, s.visits, x, y).value.kind == NodeClash
    ensures forall x, y :: EdgePair(d, s.traversals, x, y).Some? ==> EdgePair(d, s.traversals, x, y).value.kind in {HeadOn, EdgeClash}
    ensures forall x, y :: CorridorPair(d, s.passages, x, y).Some? ==> CorridorPair(d, s.passages, x, y).value.kind in {HeadOn, CorridorClash}
    ensures forall x, y :: CrossingPair(d, x, y).Some? ==> CrossingPair(d, x, y).value.kind == Crossing
    ensures forall x, y :: ReservationPair(d, held, x, y).Some? ==> ReservationPair(d, held, x, y).value.kind == ResourceClash
    ensures forall x, y :: GrantPair(d, everyone, x, y).Some? ==> GrantPair(d, everyone, x, y).value.kind == Temporal
  {
    hide Overfull, NodeConflict, ConflictsWith, CrossingConflict, CorridorHeadOn, HeadOnConflict, FollowingConflict, OverlapOf;
  }

  /** A candidate is found by the pass its kind belongs to. */
  lemma FoundByItsPass(d: MapData, s: Scene, reservations: set<Reservation>, c: Candidate)
    ensures c in Candidates(d, s, reservations) <==>
      var held, claims := Holding(reservations), RouteClaims(s);
      match c.kind
      case NodeClash => exists x, y :: x in s.visits && y in s.visits && NodePair(d, s.visits, x, y) == Some(c)
      case EdgeClash => exists x, y :: x in s.traversals && y in s.traversals && EdgePair(d, s.traversals, x, y) == Some(c)
      case HeadOn =>
        || (exists x, y :: x in s.traversals && y in s.traversals && EdgePair(d, s.traversals, x, y) == Some(c))
        || (exists x, y :: x in s.passages && y in s.passages && CorridorPair(d, s.passages, x, y) == Some(c))
      case CorridorClash => exists x, y :: x in s.passages && y in s.passages && CorridorPair(d, s.passages, x, y) == Some(c)
      case Crossing => exists x, y :: x in s.crossings && y in s.crossings && CrossingPair(d, x, y) == Some(c)
      case ResourceClash => exists x, y :: x in held && y in held && ReservationPair(d, held, x, y) == Some(c)
      case Temporal => exists x, y :: x in Grants(held) && y in claims && GrantPair(d, Grants(held) + claims, x, y) == Some(c)
  {
    KindsOfRules(d, s, Holding(reservations), Grants(Holding(reservations)) + RouteClaims(s));
    hide NodePair, EdgePair, CorridorPair, CrossingPair, ReservationPair, GrantPair, RouteClaims, Holding, Grants;
  }

  function VisitorsAt(s: Scene, node: Id, t: Time): set<Id> {
    set v | v in s.visits && v.node == node && Contains(v.window, t) :: v.robot
  }

  /** Robots `a` and `b` are at the node at one instant, and with all others there then exceed its capacity. */
  ghost predicate MeetAtNode(d: MapData, s: Scene, a: Id, b: Id, node: Id) {
    exists x, y, t :: x in s.visits && y in s.visits && x.robot == a && y.robot == b && x.node == node && y.node == node
                      && Contains(x.window, t) && Contains(y.window, t)
                      && |VisitorsAt(s, node, t)| > if FindNode(d, node).Some? then FindNode(d, node).value.capacity else 1
  }

  lemma VisitorsArePresent(s: Scene, node: Id, t: Time)
    ensures RobotsIn(VisitsAt(s.visits, node), node, t) == VisitorsAt(s, node, t)
  {
    hide Contains;
    forall r | r in VisitorsAt(s, node, t) ensures r in RobotsIn(VisitsAt(s.visits, node), node, t) {
      var v :| v in s.visits && v.node == node && Contains(v.window, t) && v.robot == r;
      assert OfVisit(v) in VisitsAt(s.visits, node);
    }
  }

  lemma NodePairMeans(d: MapData, s: Scene, x: NodeVisit, y: NodeVisit, c: Candidate)
    requires x in s.visits && y in s.visits && NodePair(d, s.visits, x, y) == Some(c)
    ensures c.resource != EMPTY_ID && c.robotA < c.robotB && MeetAtNode(d, s, c.robotA, c.robotB, c.resource)
  {
    var t :| Contains(x.window, t) && Contains(y.window, t) && |RobotsIn(VisitsAt(s.visits, x.node), x.node, t)| > NodeCapacity(d, x.node);
    VisitorsArePresent(s, x.node, t);
    hide Contains, VisitorsAt, FindNode, RobotsIn, OverlapOf;
  }

  lemma NodeMeetingPairs(d: MapData, s: Scene, a: Id, b: Id, node: Id)
    requires a < b && node != EMPTY_ID && MeetAtNode(d, s, a, b, node)
    ensures exists x, y :: x in s.visits && y in s.visits && NodePair(d, s.visits, x, y).Some?
                           && IsMeeting(NodePair(d, s.visits, x, y).value, a, b, node, NodeClash)
  {
    var x, y, t :| x in s.visits && y in s.visits && x.robot == a && y.robot == b && x.node == node && y.node == node
                   && Contains(x.window, t) && Contains(y.window, t)
                   && |VisitorsAt(s, node, t)| > if FindNode(d, node).Some? then FindNode(d, node).value.capacity else 1;
    VisitorsArePresent(s, node, t);
    OverlapIsSharedInstant(x.window, y.window);
    hide VisitorsAt, FindNode, RobotsIn;
    assert Overfull(OfVisit(x), OfVisit(y), VisitsAt(s.visits, node), NodeCapacity(d, node));
    assert NodePair(d, s.visits, x, y).Some?;
  }

  /** A node clash is found exactly where two robots meet at an overfull node. */
  lemma NodeClashExactlyWhen(d: MapData, s: Scene, reservations: set<Reservation>, a: Id, b: Id, node: Id)
    ensures IsFound(d, s, reservations, a, b, node, NodeClash) <==> a < b && node != EMPTY_ID && MeetAtNode(d, s, a, b, node)
  {
    hide Candidates, NodePair, MeetAtNode;
    if IsFound(d, s, reservations, a, b, node, NodeClash) {
      var c :| c in Candidates(d, s, reservations) && IsMeeting(c, a, b, node, NodeClash);
      FoundByItsPass(d, s, reservations, c);
      var x, y :| x in s.visits && y in s.visits && NodePair(d, s.visits, x, y) == Some(c);
      NodePairMeans(d, s, x, y, c);
    }
    if a < b && node != EMPTY_ID && MeetAtNode(d, s, a, b, node) {
      NodeMeetingPairs(d, s, a, b, node);
      var x, y :| x in s.visits && y in s.visits && NodePair(d, s.visits, x, y).Some?
                  && IsMeeting(NodePair(d, s.visits, x, y).value, a, b, node, NodeClash);
      FoundByItsPass(d, s, reservations, NodePair(d, s.visits, x, y).value);
    }
  }

  // ------------------------------------------------------------- edges

  function DriversAt(s: Scene, edge: Id, t: Time): set<Id> {
    set x | x in s.traversals && x.edge == edge && Contains(x.window, t) :: x.robot
  }

  ghost predicate OnOneEdge(d: MapData, s: Scene, x: EdgeTraversal, y: EdgeTraversal, a: Id, b: Id, resource: Id, t: Time) {
    && x in s.traversals && y in s.traversals && x.robot == a && y.robot == b && x.edge == y.edge && x.edge != EMPTY_ID
    && TraversedResource(d, x.edge) == resource && Contains(x.window, t) && Contains(y.window, t)
    && |DriversAt(s, x.edge, t)| > CapacityOf(d, resource)
  }

  /** They share an overfull edge, coming from its two ends. */
  ghost predicate MeetOpposite(d: MapData, s: Scene, a: Id, b: Id, resource: Id) {
    exists x, y, t :: OnOneEdge(d, s, x, y, a, b, resource, t) && x.fromNode != y.fromNode
  }

  /** They share an overfull edge, coming from the same end. */
  ghost predicate MeetFollowing(d: MapData, s: Scene, a: Id, b: Id, resource: Id) {
    exists x, y, t :: OnOneEdge(d, s, x, y, a, b, resource, t) && x.fromNode == y.fromNode
  }

  lemma DriversArePresent(d: MapData, s: Scene, edge: Id, t: Time)
    requires NamesResources(d, s.traversals)
    ensures RobotsIn(TraversalsOf(s.traversals, edge), TraversedResource(d, edge), t) == DriversAt(s, edge, t)
  {
    hide Contains, TraversedResource;
    var resource := TraversedResource(d, edge);
    forall r | r in DriversAt(s, edge, t) ensures r in RobotsIn(TraversalsOf(s.traversals, edge), resource, t) {
      var x :| x in s.traversals && x.edge == edge && Contains(x.window, t) && x.robot == r;
      assert OfTraversal(x) in TraversalsOf(s.traversals, edge);
    }
  }

  lemma EdgePairMeans(d: MapData, s: Scene, x: EdgeTraversal, y: EdgeTraversal, c: Candidate)
    requires NamesResources(d, s.traversals) && x in s.traversals && y in s.traversals && EdgePair(d, s.traversals, x, y) == Some(c)
    ensures c.resource != EMPTY_ID && c.robotA < c.robotB && c.kind in {HeadOn, EdgeClash}
    ensures c.kind == HeadOn ==> MeetOpposite(d, s, c.robotA, c.robotB, c.resource)
    ensures c.kind == EdgeClash ==> MeetFollowing(d, s, c.robotA, c.robotB, c.resource)
  {
    var resource := TraversedResource(d, x.edge);
    var t :| Contains(x.window, t) && Contains(y.window, t)
             && |RobotsIn(TraversalsOf(s.traversals, x.edge), x.resource, t)| > CapacityOf(d, resource);
    DriversArePresent(d, s, x.edge, t);
    hide Contains, DriversAt, CapacityOf, RobotsIn, OverlapOf, TraversedResource;
    assert OnOneEdge(d, s, x, y, x.robot, y.robot, resource, t);
    assert OnOneEdge(d, s, y, x, y.robot, x.robot, resource, t);
  }

  lemma EdgeMeetingPairs(d: MapData, s: Scene, x: EdgeTraversal, y: EdgeTraversal, a: Id, b: Id, resource: Id, t: Time)
    requires NamesResources(d, s.traversals) && a < b && resource != EMPTY_ID && OnOneEdge(d, s, x, y, a, b, resource, t)
    ensures EdgePair(d, s.traversals, x, y).Some?
    ensures IsMeeting(EdgePair(d, s.traversals, x, y).value, a, b, resource, if x.fromNode == y.fromNode then EdgeClash else HeadOn)
  {
    DriversArePresent(d, s, x.edge, t);
    OverlapIsSharedInstant(x.window, y.window);
    hide DriversAt, CapacityOf, RobotsIn, TraversedResource;
    assert Overfull(OfTraversal(x), OfTraversal(y), TraversalsOf(s.traversals, x.edge), CapacityOf(d, resource));
  }

  /** Two robots following each other are found exactly where they share an overfull edge from one end. */
  lemma EdgeClashExactlyWhen(d: MapData, s: Scene, reservations: set<Reservation>, a: Id, b: Id, resource: Id)
    requires NamesResources(d, s.traversals)
    ensures IsFound(d, s, reservations, a, b, resource, EdgeClash) <==>
      a < b && resource != EMPTY_ID && MeetFollowing(d, s, a, b, resource)
  {
    hide Candidates, EdgePair, OnOneEdge, NamesResources;
    if IsFound(d, s, reservations, a, b, resource, EdgeClash) {
      var c :| c in Candidates(d, s, reservations) && IsMeeting(c, a, b, resource, EdgeClash);
      FoundByItsPass(d, s, reservations, c);
      var x, y :| x in s.traversals && y in s.traversals && EdgePair(d, s.traversals, x, y) == Some(c);
      EdgePairMeans(d, s, x, y, c);
    }
    if a < b && resource != EMPTY_ID && MeetFollowing(d, s, a, b, resource) {
      var x, y, t :| OnOneEdge(d, s, x, y, a, b, resource, t) && x.fromNode == y.fromNode;
      EdgeMeetingPairs(d, s, x, y, a, b, resource, t);
      OnOneEdgeDrives(d, s, x, y, a, b, resource, t);
      FoundByItsPass(d, s, reservations, EdgePair(d, s.traversals, x, y).value);
    }
  }

  lemma OnOneEdgeDrives(d: MapData, s: Scene, x: EdgeTraversal, y: EdgeTraversal, a: Id, b: Id, resource: Id, t: Time)
    requires OnOneEdge(d, s, x, y, a, b, resource, t)
    ensures x in s.traversals && y in s.traversals
  {
  }

  // ------------------------------------------------------------- corridors

  function InsideAt(s: Scene, corridor: Id, t: Time): set<Id> {
    set x | x in s.passages && x.corridor == corridor && Contains(x.window, t) :: x.robot
  }

  ghost predicate InOneCorridor(s: Scene, x: CorridorPassage, y: CorridorPassage, a: Id, b: Id, corridor: Id, t: Time) {
    && x in s.passages && y in s.passages && x.robot == a && y.robot == b && x.corridor == corridor && y.corridor == corridor
    && Contains(x.window, t) && Contains(y.window, t)
  }

  /** A corridor the map knows that admits one robot and may be driven both ways. */
  predicate SingleLaneTwoWay(d: MapData, corridor: Id) {
    FindCorridor(d, corridor).Some? && FindCorridor(d, corridor).value.capacity == 1
    && FindCorridor(d, corridor).value.direction == Bidirectional
  }

  /** They are inside a single-lane two-way corridor at one instant, going opposite ways. */
  ghost predicate MeetHeadOn(d: MapData, s: Scene, a: Id, b: Id, corridor: Id) {
    exists x, y, t :: InOneCorridor(s, x, y, a, b, corridor, t) && x.direction != y.direction && SingleLaneTwoWay(d, corridor)
  }

  /** They are inside a known, overfull corridor at one instant, and not head-on. */
  ghost predicate MeetInCorridor(d: MapData, s: Scene, a: Id, b: Id, corridor: Id) {
    exists x, y, t :: InOneCorridor(s, x, y, a, b, corridor, t) && (x.direction == y.direction || !SingleLaneTwoWay(d, corridor))
                      && FindCorridor(d, corridor).Some? && |InsideAt(s, corridor, t)| > FindCorridor(d, corridor).value.capacity
  }

  lemma InsideArePresent(s: Scene, corridor: Id, t: Time)
    ensures RobotsIn(PassagesThrough(s.passages, corridor), corridor, t) == InsideAt(s, corridor, t)
  {
    hide Contains;
    forall r | r in InsideAt(s, corridor, t) ensures r in RobotsIn(PassagesThrough(s.passages, corridor), corridor, t) {
      var x :| x in s.passages && x.corridor == corridor && Contains(x.window, t) && x.robot == r;
      assert OfPassage(x) in PassagesThrough(s.passages, corridor);
    }
  }

  lemma HeadOnInstant(corridor: Corridor, x: CorridorPassage, y: CorridorPassage)
    ensures CorridorHeadOn(corridor, x, y) <==>
      && x.robot != y.robot && x.corridor == corridor.id && y.corridor == corridor.id
      && corridor.capacity == 1 && corridor.direction == Bidirectional && x.direction != y.direction
      && exists t :: Contains(x.window, t) && Contains(y.window, t)
  {
    OverlapIsSharedInstant(x.window, y.window);
    hide Contains, Overlaps;
  }

  lemma CorridorPairMeans(d: MapData, s: Scene, x: CorridorPassage, y: CorridorPassage, c: Candidate)
    requires x in s.passages && y in s.passages && CorridorPair(d, s.passages, x, y) == Some(c)
    ensures c.resource != EMPTY_ID && c.robotA < c.robotB && c.kind in {HeadOn, CorridorClash}
    ensures c.kind == HeadOn ==> MeetHeadOn(d, s, c.robotA, c.robotB, c.resource)
    ensures c.kind == CorridorClash ==> MeetInCorridor(d, s, c.robotA, c.robotB, c.resource)
  {
    var corridor := FindCorridor(d, x.corridor).value;
    FirstIsMember(d.corridors, CorridorId, x.corridor);
    HeadOnInstant(corridor, x, y);
    hide First, CorridorHeadOn, OverlapOf, Contains, RobotsIn, InsideAt;
    if c.kind == HeadOn {
      var t :| Contains(x.window, t) && Contains(y.window, t);
      assert InOneCorridor(s, x, y, x.robot, y.robot, x.corridor, t);
      assert InOneCorridor(s, y, x, y.robot, x.robot, x.corridor, t);
    } else {
      var t :| Contains(x.window, t) && Contains(y.window, t)
               && |RobotsIn(PassagesThrough(s.passages, x.corridor), x.corridor, t)| > corridor.capacity;
      InsideArePresent(s, x.corridor, t);
      assert InOneCorridor(s, x, y, x.robot, y.robot, x.corridor, t);
      assert InOneCorridor(s, y, x, y.robot, x.robot, x.corridor, t);
    }
  }

  lemma CorridorMeetingPairs(d: MapData, s: Scene, x: CorridorPassage, y: CorridorPassage, a: Id, b: Id, corridor: Id, t: Time)
    requires a < b && corridor != EMPTY_ID && InOneCorridor(s, x, y, a, b, corridor, t) && FindCorridor(d, corridor).Some?
    ensures var headOn := x.direction != y.direction && SingleLaneTwoWay(d, corridor);
            && (headOn ==>
                  CorridorPair(d, s.passages, x, y).Some? && IsMeeting(CorridorPair(d, s.passages, x, y).value, a, b, corridor, HeadOn))
            && (!headOn && |InsideAt(s, corridor, t)| > FindCorridor(d, corridor).value.capacity ==>
                  CorridorPair(d, s.passages, x, y).Some? && IsMeeting(CorridorPair(d, s.passages, x, y).value, a, b, corridor, CorridorClash))
  {
    FirstIsMember(d.corridors, CorridorId, corridor);
    HeadOnInstant(FindCorridor(d, corridor).value, x, y);
    InsideArePresent(s, corridor, t);
    OverlapIsSharedInstant(x.window, y.window);
    hide First, CorridorHeadOn, RobotsIn, InsideAt;
    if |InsideAt(s, corridor, t)| > FindCorridor(d, corridor).value.capacity {
      assert Overfull(OfPassage(x), OfPassage(y), PassagesThrough(s.passages, corridor), FindCorridor(d, corridor).value.capacity);
    }
  }

  /** A head-on is found exactly where two robots come at each other: on an overfull edge from its two ends, or
      anywhere in a single-lane two-way corridor, however far apart they still are. */
  lemma HeadOnExactlyWhen(d: MapData, s: Scene, reservations: set<Reservation>, a: Id, b: Id, resource: Id)
    requires NamesResources(d, s.traversals)
    ensures IsFound(d, s, reservations, a, b, resource, HeadOn) <==>
      a < b && resource != EMPTY_ID && (MeetOpposite(d, s, a, b, resource) || MeetHeadOn(d, s, a, b, resource))
  {
    hide Candidates, EdgePair, CorridorPair, OnOneEdge, InOneCorridor, NamesResources, SingleLaneTwoWay;
    if IsFound(d, s, reservations, a, b, resource, HeadOn) {
      var c :| c in Candidates(d, s, reservations) && IsMeeting(c, a, b, resource, HeadOn);
      FoundByItsPass(d, s, reservations, c);
      if x, y :| x in s.traversals && y in s.traversals && EdgePair(d, s.traversals, x, y) == Some(c) {
        EdgePairMeans(d, s, x, y, c);
      } else {
        var x, y :| x in s.passages && y in s.passages && CorridorPair(d, s.passages, x, y) == Some(c);
        CorridorPairMeans(d, s, x, y, c);
      }
    }
    if a < b && resource != EMPTY_ID && MeetOpposite(d, s, a, b, resource) {
      var x, y, t :| OnOneEdge(d, s, x, y, a, b, resource, t) && x.fromNode != y.fromNode;
      EdgeMeetingPairs(d, s, x, y, a, b, resource, t);
      OnOneEdgeDrives(d, s, x, y, a, b, resource, t);
      FoundByItsPass(d, s, reservations, EdgePair(d, s.traversals, x, y).value);
    }
    if a < b && resource != EMPTY_ID && MeetHeadOn(d, s, a, b, resource) {
      var x, y, t :| InOneCorridor(s, x, y, a, b, resource, t) && x.direction != y.direction && SingleLaneTwoWay(d, resource);
      InOneCorridorPasses(d, s, x, y, a, b, resource, t);
      CorridorMeetingPairs(d, s, x, y, a, b, resource, t);
      FoundByItsPass(d, s, reservations, CorridorPair(d, s.passages, x, y).value);
    }
  }

  lemma InOneCorridorPasses(d: MapData, s: Scene, x: CorridorPassage, y: CorridorPassage, a: Id, b: Id, corridor: Id, t: Time)
    requires InOneCorridor(s, x, y, a, b, corridor, t)
    ensures x in s.passages && y in s.passages
    ensures SingleLaneTwoWay(d, corridor) ==> FindCorridor(d, corridor).Some?
  {
  }

  /** Any other meeting in a corridor is found exactly where it is over its capacity. */
  lemma CorridorClashExactlyWhen(d: MapData, s: Scene, reservations: set<Reservation>, a: Id, b: Id, corridor: Id)
    ensures IsFound(d, s, reservations, a, b, corridor, CorridorClash) <==>
      a < b && corridor != EMPTY_ID && MeetInCorridor(d, s, a, b, corridor)
  {
    hide Candidates, CorridorPair, InOneCorridor, SingleLaneTwoWay, InsideAt, FindCorridor;
    if IsFound(d, s, reservations, a, b, corridor, CorridorClash) {
      var c :| c in Candidates(d, s, reservations) && IsMeeting(c, a, b, corridor, CorridorClash);
      FoundByItsPass(d, s, reservations, c);
      var x, y :| x in s.passages && y in s.passages && CorridorPair(d, s.passages, x, y) == Some(c);
      CorridorPairMeans(d, s, x, y, c);
    }
    if a < b && corridor != EMPTY_ID && MeetInCorridor(d, s, a, b, corridor) {
      var x, y, t :| InOneCorridor(s, x, y, a, b, corridor, t) && (x.direction == y.direction || !SingleLaneTwoWay(d, corridor))
                     && FindCorridor(d, corridor).Some? && |InsideAt(s, corridor, t)| > FindCorridor(d, corridor).value.capacity;
      InOneCorridorPasses(d, s, x, y, a, b, corridor, t);
      CorridorMeetingPairs(d, s, x, y, a, b, corridor, t);
      FoundByItsPass(d, s, reservations, CorridorPair(d, s.passages, x, y).value);
    }
  }

  // ------------------------------------------------------------- intersections

  /** Two movements that cannot be made together: one of them unknown, or two that share a conflict group. */
  predicate CannotCrossTogether(crossing: Intersection, a: Option<Id>, b: Option<Id>) {
    || a.None? || b.None?
    || (a != b && exists g :: g in crossing.conflictGroups && a.value in g.movements && b.value in g.movements)
  }

  /** They are in a known intersection at one instant, on movements that cannot be made together. */
  ghost predicate MeetCrossing(d: MapData, s: Scene, a: Id, b: Id, intersection: Id) {
    FindIntersection(d, intersection).Some? &&
    exists x, y, t :: x in s.crossings && y in s.crossings && x.robot == a && y.robot == b
                      && x.intersection == intersection && y.intersection == intersection
                      && Contains(x.window, t) && Contains(y.window, t)
                      && CannotCrossTogether(FindIntersection(d, intersection).value, x.movement, y.movement)
  }

  lemma ClashIsSymmetric(crossing: Intersection, a: Option<Id>, b: Option<Id>)
    ensures CannotCrossTogether(crossing, a, b) == CannotCrossTogether(crossing, b, a)
  {
  }

  lemma CrossingInstant(crossing: Intersection, x: IntersectionCrossing, y: IntersectionCrossing)
    ensures CrossingConflict(crossing, x, y) <==>
      && x.robot != y.robot && x.intersection == crossing.id && y.intersection == crossing.id
      && (exists t :: Contains(x.window, t) && Contains(y.window, t))
      && CannotCrossTogether(crossing, x.movement, y.movement)
  {
    OverlapIsSharedInstant(x.window, y.window);
    hide Contains, Overlaps;
  }

  /** A crossing conflict is found exactly there, whatever the intersection's capacity: a robot whose movement
      the map does not define clashes with everyone inside. */
  lemma CrossingExactlyWhen(d: MapData, s: Scene, reservations: set<Reservation>, a: Id, b: Id, intersection: Id)
    ensures IsFound(d, s, reservations, a, b, intersection, Crossing) <==>
      a < b && intersection != EMPTY_ID && MeetCrossing(d, s, a, b, intersection)
  {
    FirstIsMember(d.intersections, IntersectionId, intersection);
    hide Candidates, CrossingConflict, CannotCrossTogether, First, OverlapOf, Contains;
    if IsFound(d, s, reservations, a, b, intersection, Crossing) {
      var c :| c in Candidates(d, s, reservations) && IsMeeting(c, a, b, intersection, Crossing);
      FoundByItsPass(d, s, reservations, c);
      var x, y :| x in s.crossings && y in s.crossings && CrossingPair(d, x, y) == Some(c);
      var crossing := FindIntersection(d, intersection).value;
      CrossingInstant(crossing, x, y);
      ClashIsSymmetric(crossing, x.movement, y.movement);
      var t :| Contains(x.window, t) && Contains(y.window, t);
    }
    if a < b && intersection != EMPTY_ID && MeetCrossing(d, s, a, b, intersection) {
      CrossingPairs(d, s, a, b, intersection);
      var x, y :| x in s.crossings && y in s.crossings && CrossingPair(d, x, y).Some?
                  && IsMeeting(CrossingPair(d, x, y).value, a, b, intersection, Crossing);
      FoundByItsPass(d, s, reservations, CrossingPair(d, x, y).value);
    }
  }

  lemma CrossingPairs(d: MapData, s: Scene, a: Id, b: Id, intersection: Id)
    requires a < b && intersection != EMPTY_ID && MeetCrossing(d, s, a, b, intersection)
    ensures exists x, y :: x in s.crossings && y in s.crossings && CrossingPair(d, x, y).Some?
                           && IsMeeting(CrossingPair(d, x, y).value, a, b, intersection, Crossing)
  {
    FirstIsMember(d.intersections, IntersectionId, intersection);
    var crossing := FindIntersection(d, intersection).value;
    var x, y, t :| x in s.crossings && y in s.crossings && x.robot == a && y.robot == b
                   && x.intersection == intersection && y.intersection == intersection
                   && Contains(x.window, t) && Contains(y.window, t)
                   && CannotCrossTogether(crossing, x.movement, y.movement);
    CrossingInstant(crossing, x, y);
    OverlapIsSharedInstant(x.window, y.window);
    hide CrossingConflict, CannotCrossTogether, First;
    assert CrossingPair(d, x, y).Some?;
  }

  // ------------------------------------------------------------- reservations

  function HoldersAt(reservations: set<Reservation>, resource: Id, t: Time): set<Id> {
    set r | r in reservations && HoldsResource(r.state) && r.resource == resource && Contains(r.window, t) :: r.robot
  }

  /** Both hold the resource at one instant, and with all other holders exceed its capacity. */
  ghost predicate HoldTogether(d: MapData, reservations: set<Reservation>, a: Id, b: Id, resource: Id) {
    exists t :: a in HoldersAt(reservations, resource, t) && b in HoldersAt(reservations, resource, t)
                && |HoldersAt(reservations, resource, t)| > CapacityOf(d, resource)
  }

  lemma HoldersArePresent(reservations: set<Reservation>, resource: Id, t: Time)
    ensures RobotsIn(ClaimsOn(Holding(reservations), resource), resource, t) == HoldersAt(reservations, resource, t)
  {
    hide Contains, HoldsResource;
    forall x | x in HoldersAt(reservations, resource, t) ensures x in RobotsIn(ClaimsOn(Holding(reservations), resource), resource, t) {
      var r :| r in reservations && HoldsResource(r.state) && r.resource == resource && Contains(r.window, t) && r.robot == x;
      assert OfReservation(r) in ClaimsOn(Holding(reservations), resource);
    }
  }

  lemma ReservationPairMeans(d: MapData, reservations: set<Reservation>, x: Reservation, y: Reservation, c: Candidate)
    requires x in Holding(reservations) && y in Holding(reservations)
    requires ReservationPair(d, Holding(reservations), x, y) == Some(c)
    ensures c.resource != EMPTY_ID && c.robotA < c.robotB && HoldTogether(d, reservations, c.robotA, c.robotB, c.resource)
  {
    var t :| Contains(x.window, t) && Contains(y.window, t)
             && |RobotsIn(ClaimsOn(Holding(reservations), x.resource), x.resource, t)| > CapacityOf(d, x.resource);
    HoldersArePresent(reservations, x.resource, t);
    assert x.robot in HoldersAt(reservations, x.resource, t) && y.robot in HoldersAt(reservations, x.resource, t);
    hide Contains, HoldersAt, CapacityOf, RobotsIn, OverlapOf, ClaimsOn, Holding;
  }

  lemma HoldersPair(d: MapData, reservations: set<Reservation>, a: Id, b: Id, resource: Id)
    requires a < b && resource != EMPTY_ID && HoldTogether(d, reservations, a, b, resource)
    ensures exists x, y :: x in Holding(reservations) && y in Holding(reservations)
                           && ReservationPair(d, Holding(reservations), x, y).Some?
                           && IsMeeting(ReservationPair(d, Holding(reservations), x, y).value, a, b, resource, ResourceClash)
  {
    var t :| a in HoldersAt(reservations, resource, t) && b in HoldersAt(reservations, resource, t)
             && |HoldersAt(reservations, resource, t)| > CapacityOf(d, resource);
    var x :| x in reservations && HoldsResource(x.state) && x.resource == resource && Contains(x.window, t) && x.robot == a;
    var y :| y in reservations && HoldsResource(y.state) && y.resource == resource && Contains(y.window, t) && y.robot == b;
    HoldersArePresent(reservations, resource, t);
    OverlapIsSharedInstant(x.window, y.window);
    hide HoldersAt, CapacityOf, RobotsIn, ClaimsOn;
    assert Overfull(OfReservation(x), OfReservation(y), ClaimsOn(Holding(reservations), resource), CapacityOf(d, resource));
    assert ReservationPair(d, Holding(reservations), x, y).Some?;
  }

  /** A resource clash is found exactly where two live reservations hold an overfull resource together. */
  lemma ResourceClashExactlyWhen(d: MapData, s: Scene, reservations: set<Reservation>, a: Id, b: Id, resource: Id)
    ensures IsFound(d, s, reservations, a, b, resource, ResourceClash) <==>
      a < b && resource != EMPTY_ID && HoldTogether(d, reservations, a, b, resource)
  {
    hide Candidates, ReservationPair, HoldTogether, Holding;
    if IsFound(d, s, reservations, a, b, resource, ResourceClash) {
      var c :| c in Candidates(d, s, reservations) && IsMeeting(c, a, b, resource, ResourceClash);
      FoundByItsPass(d, s, reservations, c);
      var x, y :| x in Holding(reservations) && y in Holding(reservations) && ReservationPair(d, Holding(reservations), x, y) == Some(c);
      ReservationPairMeans(d, reservations, x, y, c);
    }
    if a < b && resource != EMPTY_ID && HoldTogether(d, reservations, a, b, resource) {
      HoldersPair(d, reservations, a, b, resource);
      var x, y :| x in Holding(reservations) && y in Holding(reservations)
                  && ReservationPair(d, Holding(reservations), x, y).Some?
                  && IsMeeting(ReservationPair(d, Holding(reservations), x, y).value, a, b, resource, ResourceClash);
      FoundByItsPass(d, s, reservations, ReservationPair(d, Holding(reservations), x, y).value);
    }
  }

  // ------------------------------------------------------------- routes against grants

  /** The robots whose routes take them to the resource at this instant. */
  function RoutedAt(s: Scene, resource: Id, t: Time): set<Id> {
    (set x | x in s.visits && x.node == resource && Contains(x.window, t) :: x.robot)
    + (set x | x in s.traversals && x.resource == resource && Contains(x.window, t) :: x.robot)
    + (set x | x in s.passages && x.corridor == resource && Contains(x.window, t) :: x.robot)
    + (set x | x in s.crossings && x.intersection == resource && Contains(x.window, t) :: x.robot)
  }

  /** One holds the resource at an instant at which the other's route takes it there, and all who hold it or
      are routed there then exceed its capacity. */
  ghost predicate RoutedIntoGrant(d: MapData, s: Scene, reservations: set<Reservation>, holder: Id, routed: Id, resource: Id) {
    exists t :: holder in HoldersAt(reservations, resource, t) && routed in RoutedAt(s, resource, t)
                && |HoldersAt(reservations, resource, t) + RoutedAt(s, resource, t)| > CapacityOf(d, resource)
  }

  lemma RobotsOfBoth(x: set<Occupancy>, y: set<Occupancy>, resource: Id, t: Time)
    ensures RobotsIn(On(x + y, resource), resource, t) == RobotsIn(x, resource, t) + RobotsIn(y, resource, t)
  {
    hide Contains;
  }

  lemma GrantsArePresent(reservations: set<Reservation>, resource: Id, t: Time)
    ensures RobotsIn(Grants(Holding(reservations)), resource, t) == HoldersAt(reservations, resource, t)
  {
    hide Contains, HoldsResource;
    forall x | x in HoldersAt(reservations, resource, t) ensures x in RobotsIn(Grants(Holding(reservations)), resource, t) {
      var r :| r in reservations && HoldsResource(r.state) && r.resource == resource && Contains(r.window, t) && r.robot == x;
      assert OfReservation(r) in Grants(Holding(reservations));
    }
  }

  lemma RoutedArePresent(s: Scene, resource: Id, t: Time)
    ensures RobotsIn(RouteClaims(s), resource, t) == RoutedAt(s, resource, t)
  {
    hide Contains;
    forall r | r in RoutedAt(s, resource, t) ensures r in RobotsIn(RouteClaims(s), resource, t) {
      if x :| x in s.visits && x.node == resource && Contains(x.window, t) && x.robot == r {
        assert OfVisit(x) in RouteClaims(s);
      } else if x :| x in s.traversals && x.resource == resource && Contains(x.window, t) && x.robot == r {
        assert OfTraversal(x) in RouteClaims(s);
      } else if x :| x in s.passages && x.corridor == resource && Contains(x.window, t) && x.robot == r {
        assert OfPassage(x) in RouteClaims(s);
      } else {
        var x :| x in s.crossings && x.intersection == resource && Contains(x.window, t) && x.robot == r;
        assert OfCrossing(x) in RouteClaims(s);
      }
    }
  }

  lemma GrantPairMeans(d: MapData, s: Scene, reservations: set<Reservation>, grant: Occupancy, claim: Occupancy, c: Candidate)
    requires grant in Grants(Holding(reservations)) && claim in RouteClaims(s)
    requires GrantPair(d, Grants(Holding(reservations)) + RouteClaims(s), grant, claim) == Some(c)
    ensures c.resource != EMPTY_ID && c.robotA < c.robotB
    ensures RoutedIntoGrant(d, s, reservations, c.robotA, c.robotB, c.resource)
            || RoutedIntoGrant(d, s, reservations, c.robotB, c.robotA, c.resource)
  {
    var grants, claims, resource := Grants(Holding(reservations)), RouteClaims(s), grant.resource;
    hide Grants, RouteClaims, Holding;
    var t :| Contains(grant.window, t) && Contains(claim.window, t)
             && |RobotsIn(On(grants + claims, resource), resource, t)| > CapacityOf(d, resource);
    RobotsOfBoth(grants, claims, resource, t);
    GrantsArePresent(reservations, resource, t);
    RoutedArePresent(s, resource, t);
    assert grant.robot in RobotsIn(grants, resource, t) && claim.robot in RobotsIn(claims, resource, t);
    hide Contains, HoldersAt, RoutedAt, CapacityOf, RobotsIn, OverlapOf, On;
  }

  lemma RoutedPairs(d: MapData, s: Scene, reservations: set<Reservation>, holder: Id, routed: Id, resource: Id)
    requires holder != routed && resource != EMPTY_ID && RoutedIntoGrant(d, s, reservations, holder, routed, resource)
    ensures var grants, claims := Grants(Holding(reservations)), RouteClaims(s);
            exists x, y :: x in grants && y in claims && GrantPair(d, grants + claims, x, y).Some?
              && IsMeeting(GrantPair(d, grants + claims, x, y).value, if holder < routed then holder else routed,
                           if holder < routed then routed else holder, resource, Temporal)
  {
    var grants, claims := Grants(Holding(reservations)), RouteClaims(s);
    hide Grants, RouteClaims, Holding;
    var t :| holder in HoldersAt(reservations, resource, t) && routed in RoutedAt(s, resource, t)
             && |HoldersAt(reservations, resource, t) + RoutedAt(s, resource, t)| > CapacityOf(d, resource);
    GrantsArePresent(reservations, resource, t);
    RoutedArePresent(s, resource, t);
    hide HoldersAt, RoutedAt, CapacityOf;
    MeetingOverfills(d, grants, claims, holder, routed, resource, t);
  }

  lemma MeetingOverfills(d: MapData, grants: set<Occupancy>, claims: set<Occupancy>, holder: Id, routed: Id, resource: Id, t: Time)
    requires holder != routed && resource != EMPTY_ID
    requires holder in RobotsIn(grants, resource, t) && routed in RobotsIn(claims, resource, t)
    requires |RobotsIn(grants, resource, t) + RobotsIn(claims, resource, t)| > CapacityOf(d, resource)
    ensures exists x, y :: x in grants && y in claims && GrantPair(d, grants + claims, x, y).Some?
              && IsMeeting(GrantPair(d, grants + claims, x, y).value, if holder < routed then holder else routed,
                           if holder < routed then routed else holder, resource, Temporal)
  {
    RobotsOfBoth(grants, claims, resource, t);
    var x :| x in grants && x.resource == resource && Contains(x.window, t) && x.robot == holder;
    var y :| y in claims && y.resource == resource && Contains(y.window, t) && y.robot == routed;
    OverlapIsSharedInstant(x.window, y.window);
    hide CapacityOf, RobotsIn, On;
    assert Overfull(x, y, On(grants + claims, resource), CapacityOf(d, resource));
    assert GrantPair(d, grants + claims, x, y).Some?;
  }

  /** A temporal clash is found exactly where one robot's route takes it onto an overfull resource that the
      other holds. */
  lemma TemporalExactlyWhen(d: MapData, s: Scene, reservations: set<Reservation>, a: Id, b: Id, resource: Id)
    ensures IsFound(d, s, reservations, a, b, resource, Temporal) <==>
      && a < b && resource != EMPTY_ID
      && (RoutedIntoGrant(d, s, reservations, a, b, resource) || RoutedIntoGrant(d, s, reservations, b, a, resource))
  {
    hide Candidates, GrantPair, RoutedIntoGrant, Holding, Grants, RouteClaims;
    var grants, claims := Grants(Holding(reservations)), RouteClaims(s);
    if IsFound(d, s, reservations, a, b, resource, Temporal) {
      var c :| c in Candidates(d, s, reservations) && IsMeeting(c, a, b, resource, Temporal);
      FoundByItsPass(d, s, reservations, c);
      var x, y :| x in grants && y in claims && GrantPair(d, grants + claims, x, y) == Some(c);
      GrantPairMeans(d, s, reservations, x, y, c);
    }
    var ab, ba := RoutedIntoGrant(d, s, reservations, a, b, resource), RoutedIntoGrant(d, s, reservations, b, a, resource);
    if a < b && resource != EMPTY_ID && (ab || ba) {
      if ab {
        RoutedPairs(d, s, reservations, a, b, resource);
      } else {
        RoutedPairs(d, s, reservations, b, a, resource);
      }
      var x, y :| x in grants && y in claims && GrantPair(d, grants + claims, x, y).Some?
                  && IsMeeting(GrantPair(d, grants + claims, x, y).value, a, b, resource, Temporal);
      FoundByItsPass(d, s, reservations, GrantPair(d, grants + claims, x, y).value);
    }
  }

  // ------------------------------------------------------------- what the fleet is told

  ghost predicate IsReported(report: seq<Conflict>, a: Id, b: Id, resource: Id, kind: ConflictType) {
    exists x :: x in report && x.robotA == a && x.robotB == b && x.resource == resource && x.kind == kind
  }

  /** A kind is what is reported of two robots on a resource exactly when it was found, and nothing more telling was. */
  lemma ReportedExactlyWhen(d: MapData, s: Scene, reservations: set<Reservation>, now: Time, config: DetectorConfig,
                            a: Id, b: Id, resource: Id, kind: ConflictType)
    requires a != EMPTY_ID && b != EMPTY_ID && resource != EMPTY_ID && a != b
    ensures IsReported(Report(Candidates(d, s, reservations), now, config), a, b, resource, kind) <==>
      && IsFound(d, s, reservations, a, b, resource, kind)
      && forall k :: IsFound(d, s, reservations, a, b, resource, k) ==> AtLeast(k, kind)
  {
    var candidates := Candidates(d, s, reservations);
    var report := Report(candidates, now, config);
    hide Candidates, Report, AtLeast;
    forall x | x in report && x.robotA == a && x.robotB == b && x.resource == resource
      ensures IsFound(d, s, reservations, a, b, resource, x.kind)
      ensures forall k :: IsFound(d, s, reservations, a, b, resource, k) ==> AtLeast(k, x.kind)
    {
      ReportedKindIsStrongest(candidates, now, config, x);
      var c :| c in candidates && SameContention(c, x) && c.kind == x.kind;
      assert IsMeeting(c, a, b, resource, x.kind);
    }
    if IsFound(d, s, reservations, a, b, resource, kind)
       && forall k :: IsFound(d, s, reservations, a, b, resource, k) ==> AtLeast(k, kind) {
      var c :| c in candidates && IsMeeting(c, a, b, resource, kind);
      NothingIsSwallowed(candidates, now, config, c);
      var x :| x in report && SameContention(c, x);
      OneMostTelling(x.kind, kind);
      ReportedKindIsStrongest(candidates, now, config, x);
    }
  }

  lemma OneMostTelling(k: ConflictType, kind: ConflictType)
    ensures AtLeast(k, kind) && AtLeast(kind, k) ==> k == kind
  {
  }

  /** What a fleet is told. Two named robots are reported head-on exactly when their routes bring them at each
      other, on an overfull edge from its two ends or through a single-lane two-way corridor; and then never as a
      matter of low urgency. Otherwise, in an intersection on movements that cannot be made together, they are
      reported as crossing. */
  lemma HeadOnIsDetectedExactlyWhen(d: MapData, routes: set<Route>, reservations: set<Reservation>, now: Time,
                                    config: DetectorConfig, a: Id, b: Id, resource: Id)
    requires a != EMPTY_ID && b != EMPTY_ID && resource != EMPTY_ID && a < b
    ensures var report, s := Detected(d, routes, reservations, now, config), SceneOf(d, routes, config.nodeBuffer);
            && (IsReported(report, a, b, resource, HeadOn) <==> MeetOpposite(d, s, a, b, resource) || MeetHeadOn(d, s, a, b, resource))
            && (IsReported(report, a, b, resource, Crossing) <==>
                  && !MeetOpposite(d, s, a, b, resource) && !MeetHeadOn(d, s, a, b, resource)
                  && MeetCrossing(d, s, a, b, resource))
            && forall x :: x in report && x.kind == HeadOn ==> x.severity != Low
  {
    var s := SceneOf(d, routes, config.nodeBuffer);
    SceneNamesResources(d, routes, config.nodeBuffer);
    TopKindsReported(d, s, reservations, now, config, a, b, resource);
    HeadOnExactlyWhen(d, s, reservations, a, b, resource);
    CrossingExactlyWhen(d, s, reservations, a, b, resource);
    HeadOnIsNeverLow(Candidates(d, s, reservations), now, config);
    hide SceneOf, Candidates, Report, MeetOpposite, MeetHeadOn, MeetCrossing, IsFound, IsReported, NamesResources;
  }

  lemma HeadOnIsNeverLow(candidates: set<Candidate>, now: Time, config: DetectorConfig)
    ensures forall x :: x in Report(candidates, now, config) && x.kind == HeadOn ==> x.severity != Low
  {
    hide Report;
    forall x | x in Report(candidates, now, config) && x.kind == HeadOn ensures x.severity != Low {
      SeverityIsTheWarningLeft(candidates, now, config, x);
    }
  }

  lemma TopKindsReported(d: MapData, s: Scene, reservations: set<Reservation>, now: Time, config: DetectorConfig,
                         a: Id, b: Id, resource: Id)
    requires a != EMPTY_ID && b != EMPTY_ID && resource != EMPTY_ID && a != b
    ensures var report := Report(Candidates(d, s, reservations), now, config);
            && (IsReported(report, a, b, resource, HeadOn) <==> IsFound(d, s, reservations, a, b, resource, HeadOn))
            && (IsReported(report, a, b, resource, Crossing) <==>
                  !IsFound(d, s, reservations, a, b, resource, HeadOn) && IsFound(d, s, reservations, a, b, resource, Crossing))
  {
    ReportedExactlyWhen(d, s, reservations, now, config, a, b, resource, HeadOn);
    ReportedExactlyWhen(d, s, reservations, now, config, a, b, resource, Crossing);
    TopOfTheLadder();
    hide Candidates, Report, IsFound, IsReported, AtLeast;
  }

  lemma TopOfTheLadder()
    ensures forall k :: AtLeast(k, HeadOn)
    ensures forall k :: AtLeast(k, Crossing) <==> k != HeadOn
  {
  }
}
