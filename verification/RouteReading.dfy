/** Turning a route into the occupancies the conflict rules compare. */
module RouteReading {
  import opened Core
  import opened Graph
  import opened MapIndex
  import opened Routes
  import opened ConflictRules

  /** The margin a node visit is widened by. */
  datatype SafetyBuffer = SafetyBuffer(entry: int, exit: int)

  predicate ValidBuffer(b: SafetyBuffer) {
    b.entry >= 0 && b.exit >= 0
  }

  /** What `f` yields at 0, 1, ..., n - 1, in that order; positions yielding nothing are skipped. */
  function Collected<T>(f: nat -> Option<T>, n: nat): seq<T> {
    if n == 0 then []
    else Collected(f, n - 1) + match f(n - 1) case Some(x) => [x] case None => []
  }

  lemma {:induction false} CollectedMembers<T>(f: nat -> Option<T>, n: nat)
    ensures forall x :: x in Collected(f, n) <==> exists i: nat :: i < n && f(i) == Some(x)
  {
    if n > 0 {
      CollectedMembers(f, n - 1);
    }
  }

  lemma {:induction false} NothingCollected<T>(f: nat -> Option<T>, m: nat, n: nat)
    requires m <= n && forall i: nat :: m <= i < n ==> f(i) == None
    ensures Collected(f, n) == Collected(f, m)
  {
    if m < n {
      NothingCollected(f, m, n - 1);
    }
  }

  // ------------------------------------------------------------- nodes

  function Arrives(route: Route, index: nat): Option<Time> {
    if 0 < index && index - 1 < |route.segments| && route.segments[index - 1].expectedWindow.Some?
    then Some(route.segments[index - 1].expectedWindow.value.end) else None
  }

  function Departs(route: Route, index: nat): Option<Time> {
    if index < |route.segments| && route.segments[index].expectedWindow.Some?
    then Some(route.segments[index].expectedWindow.value.start) else None
  }

  /** When the robot is at this node, widened by the buffer; the ends of a route have one side only,
      which stands in for the other. */
  function NodeWindow(route: Route, index: nat, b: SafetyBuffer): Option<TimeWindow> {
    match (Arrives(route, index), Departs(route, index))
    case (Some(arrival), Some(departure)) => MakeTimeWindow(arrival - b.entry, departure + b.exit)
    case (Some(arrival), None) => MakeTimeWindow(arrival - b.entry, arrival + b.exit)
    case (None, Some(departure)) => MakeTimeWindow(departure - b.entry, departure + b.exit)
    case (None, None) => None
  }

  function IntersectionAt(d: MapData, node: Id): Option<Intersection> {
    match FindNode(d, node)
    case Some(n) => if n.resource == EMPTY_ID then None else FindIntersection(d, n.resource)
    case None => None
  }

  /** A node outside every intersection, for as long as the robot is there. */
  function VisitAt(d: MapData, route: Route, b: SafetyBuffer, i: nat): Option<NodeVisit> {
    if i >= |route.nodes| || IntersectionAt(d, route.nodes[i]).Some? then None
    else match NodeWindow(route, i, b)
      case Some(w) => Some(NodeVisit(route.robot, route.nodes[i], w))
      case None => None
  }

  function VisitReader(d: MapData, route: Route, b: SafetyBuffer): nat -> Option<NodeVisit> {
    (i: nat) => VisitAt(d, route, b, i)
  }

  function FindMovement(movements: seq<Movement>, fromEdge: Id, toEdge: Id): Option<Movement> {
    if movements == [] then None
    else if movements[0].fromEdge == fromEdge && movements[0].toEdge == toEdge then Some(movements[0])
    else FindMovement(movements[1..], fromEdge, toEdge)
  }

  /** The movement the map defines for the edges either side of this node, if both exist. */
  function MovementAt(crossing: Intersection, route: Route, i: nat): Option<Id> {
    if 0 < i < |route.segments| then
      match FindMovement(crossing.movements, route.segments[i - 1].edge, route.segments[i].edge)
      case Some(m) => Some(m.id)
      case None => None
    else None
  }

  function CrossingAt(d: MapData, route: Route, b: SafetyBuffer, i: nat): Option<IntersectionCrossing> {
    if i >= |route.nodes| || IntersectionAt(d, route.nodes[i]).None? then None
    else
      var crossing := IntersectionAt(d, route.nodes[i]).value;
      match NodeWindow(route, i, b)
      case Some(w) => Some(IntersectionCrossing(route.robot, crossing.id, MovementAt(crossing, route, i), w))
      case None => None
  }

  function CrossingReader(d: MapData, route: Route, b: SafetyBuffer): nat -> Option<IntersectionCrossing> {
    (i: nat) => CrossingAt(d, route, b, i)
  }

  function IntersectionHere(world: Map, node: Id): (r: Option<Intersection>)
    requires world.Valid()
    ensures r == IntersectionAt(world.data, node)
  {
    var found := world.NodeAt(node);
    if found.None? || found.value.resource == EMPTY_ID then None
    else world.IntersectionAt(found.value.resource)
  }

  method NodeVisits(world: Map, route: Route, b: SafetyBuffer) returns (visits: seq<NodeVisit>)
    requires world.Valid()
    ensures visits == Collected(VisitReader(world.data, route, b), |route.nodes|)
  {
    hide IntersectionAt, NodeWindow, MapIndex.Map.Valid;
    visits := [];
    for i := 0 to |route.nodes|
      invariant visits == Collected(VisitReader(world.data, route, b), i)
    {
      var crossing := IntersectionHere(world, route.nodes[i]);
      if crossing.None? {
        var window := NodeWindow(route, i, b);
        if window.Some? {
          visits := visits + [NodeVisit(route.robot, route.nodes[i], window.value)];
        }
      }
    }
  }

  method IntersectionCrossings(world: Map, route: Route, b: SafetyBuffer) returns (crossings: seq<IntersectionCrossing>)
    requires world.Valid()
    ensures crossings == Collected(CrossingReader(world.data, route, b), |route.nodes|)
  {
    hide IntersectionAt, NodeWindow, MapIndex.Map.Valid;
    crossings := [];
    for i := 0 to |route.nodes|
      invariant crossings == Collected(CrossingReader(world.data, route, b), i)
    {
      var crossing := IntersectionHere(world, route.nodes[i]);
      if crossing.Some? {
        var window := NodeWindow(route, i, b);
        if window.Some? {
          var movement := MovementAt(crossing.value, route, i);
          crossings := crossings + [IntersectionCrossing(route.robot, crossing.value.id, movement, window.value)];
        }
      }
    }
  }

  /** With a positive margin, every node next to a timed segment whose neighbours are in time order is
      seen by exactly one reader: as a crossing inside an intersection, as a visit anywhere else. */
  lemma EveryTimedNodeIsRead(d: MapData, route: Route, b: SafetyBuffer, i: nat)
    requires ValidBuffer(b) && b.entry + b.exit > 0 && i < |route.nodes|
    requires Arrives(route, i).Some? || Departs(route, i).Some?
    requires Arrives(route, i).Some? && Departs(route, i).Some? ==> Arrives(route, i).value <= Departs(route, i).value
    ensures VisitAt(d, route, b, i).Some? <==> IntersectionAt(d, route.nodes[i]).None?
    ensures CrossingAt(d, route, b, i).Some? <==> IntersectionAt(d, route.nodes[i]).Some?
  {
    hide IntersectionAt, Arrives, Departs;
  }

  /** A timed route's stay at node `i`: from the end of the segment into it to the start of the one out of it;
      at the first node from setting off, at the last until arriving. */
  predicate StaysAt(route: Route, i: nat, from: Time, until: Time)
    requires i < |route.nodes| == |route.segments| + 1 && |route.segments| > 0
    requires forall k :: 0 <= k < |route.segments| ==> route.segments[k].expectedWindow.Some?
  {
    && from == (if i > 0 then route.segments[i - 1].expectedWindow.value.end else route.segments[0].expectedWindow.value.start)
    && until == (if i < |route.segments| then route.segments[i].expectedWindow.value.start
                 else route.segments[i - 1].expectedWindow.value.end)
  }

  /** At most the entry margin before `u`, or less than the exit margin after it. */
  predicate WithinMargin(b: SafetyBuffer, u: Time, t: Time) {
    u - b.entry <= t < u + b.exit
  }

  /** The span read for a node is its stay with the margin on each side: it holds exactly the instants within the
      margin of some instant of the stay. */
  lemma WindowIsTheStay(route: Route, i: nat, b: SafetyBuffer, from: Time, until: Time, t: Time)
    requires ValidBuffer(b) && b.entry + b.exit > 0 && i < |route.nodes| == |route.segments| + 1 && |route.segments| > 0
    requires forall k :: 0 <= k < |route.segments| ==> route.segments[k].expectedWindow.Some?
    requires StaysAt(route, i, from, until) && from <= until
    ensures NodeWindow(route, i, b).Some?
    ensures Contains(NodeWindow(route, i, b).value, t) <==> exists u :: from <= u <= until && WithinMargin(b, u, t)
  {
    var w := NodeWindow(route, i, b).value;
    assert w == Span(from - b.entry, until + b.exit);
    if Contains(w, t) {
      var u := if t < from then from else if t > until then until else if b.exit > 0 then t else t + 1;
      assert from <= u <= until && WithinMargin(b, u, t);
    }
  }

  /** The movement at a node is the first one the map lists from the edge driven in on to the edge driven out on. */
  lemma {:induction false} MovementIsFirstListed(movements: seq<Movement>, fromEdge: Id, toEdge: Id)
    ensures match FindMovement(movements, fromEdge, toEdge)
            case Some(m) =>
              exists k :: 0 <= k < |movements| && movements[k] == m && m.fromEdge == fromEdge && m.toEdge == toEdge
                && forall j :: 0 <= j < k ==> movements[j].fromEdge != fromEdge || movements[j].toEdge != toEdge
            case None => forall m :: m in movements ==> m.fromEdge != fromEdge || m.toEdge != toEdge
  {
    if movements != [] && !(movements[0].fromEdge == fromEdge && movements[0].toEdge == toEdge) {
      MovementIsFirstListed(movements[1..], fromEdge, toEdge);
      var rest := FindMovement(movements[1..], fromEdge, toEdge);
      if rest.Some? {
        var k :| 0 <= k < |movements| - 1 && movements[1..][k] == rest.value
                 && forall j :: 0 <= j < k ==> movements[1..][j].fromEdge != fromEdge || movements[1..][j].toEdge != toEdge;
        assert movements[k + 1] == rest.value;
        forall j | 0 <= j < k + 1 ensures movements[j].fromEdge != fromEdge || movements[j].toEdge != toEdge {
          if j > 0 { assert movements[1..][j - 1] == movements[j]; }
        }
      }
    }
  }

  /** Whatever is read at a position is the route's own robot at that position: at the node of a visit, in the
      intersection its node belongs to on the movement between the edges either side, on the edge of a segment. */
  lemma ReadersSayWhere(d: MapData, route: Route, b: SafetyBuffer, i: nat)
    ensures var v := VisitAt(d, route, b, i);
            v.Some? ==> i < |route.nodes| && v.value.robot == route.robot && v.value.node == route.nodes[i]
    ensures var c := CrossingAt(d, route, b, i);
            c.Some? ==>
              && i < |route.nodes| && c.value.robot == route.robot && FindNode(d, route.nodes[i]).Some?
              && FindIntersection(d, FindNode(d, route.nodes[i]).value.resource).Some?
              && c.value.intersection == FindNode(d, route.nodes[i]).value.resource
              && (c.value.movement.Some? <==>
                    0 < i < |route.segments| && exists m :: IsMovementThere(d, route, i, m))
              && (c.value.movement.Some? ==> exists m :: IsMovementThere(d, route, i, m) && m.id == c.value.movement.value)
    ensures var t := TraversalAt(d, route, i);
            t.Some? ==>
              && i < |route.segments| && route.segments[i].expectedWindow.Some?
              && var x := route.segments[i];
                 var known := FindEdge(d, x.edge);
                 t.value == EdgeTraversal(route.robot, x.edge, x.fromNode, x.toNode,
                                          if known.Some? && known.value.resource != EMPTY_ID then known.value.resource else x.edge,
                                          x.expectedWindow.value)
  {
    hide NodeWindow;
    if i < |route.segments| { FirstIsMember(d.edges, EdgeId, route.segments[i].edge); }
    if i < |route.nodes| && IntersectionAt(d, route.nodes[i]).Some? {
      FirstIsMember(d.intersections, IntersectionId, FindNode(d, route.nodes[i]).value.resource);
      if 0 < i < |route.segments| {
        var movements := IntersectionAt(d, route.nodes[i]).value.movements;
        var found := FindMovement(movements, route.segments[i - 1].edge, route.segments[i].edge);
        MovementIsFirstListed(movements, route.segments[i - 1].edge, route.segments[i].edge);
        if found.Some? { assert IsMovementThere(d, route, i, found.value); }
      }
    }
    hide First;
  }

  /** A movement of the intersection at node `i`, from the edge driven in on to the edge driven out on. */
  ghost predicate IsMovementThere(d: MapData, route: Route, i: nat, m: Movement) {
    && 0 < i < |route.segments| && i < |route.nodes| && IntersectionAt(d, route.nodes[i]).Some?
    && m in IntersectionAt(d, route.nodes[i]).value.movements
    && m.fromEdge == route.segments[i - 1].edge && m.toEdge == route.segments[i].edge
  }

  // ------------------------------------------------------------- edges

  /** The resource that admits robots to an edge; an edge the map lacks still names itself. */
  function TraversedResource(d: MapData, edge: Id): Id {
    if ResourceForEdge(d, edge) == EMPTY_ID then edge else ResourceForEdge(d, edge)
  }

  function TraversalAt(d: MapData, route: Route, i: nat): Option<EdgeTraversal> {
    if i >= |route.segments| then None
    else
      var s := route.segments[i];
      match s.expectedWindow
      case Some(w) => Some(EdgeTraversal(route.robot, s.edge, s.fromNode, s.toNode, TraversedResource(d, s.edge), w))
      case None => None
  }

  function TraversalReader(d: MapData, route: Route): nat -> Option<EdgeTraversal> {
    (i: nat) => TraversalAt(d, route, i)
  }

  method EdgeTraversals(world: Map, route: Route) returns (traversals: seq<EdgeTraversal>)
    requires world.Valid()
    ensures traversals == Collected(TraversalReader(world.data, route), |route.segments|)
  {
    hide MapIndex.Map.Valid, ResourceForEdge;
    traversals := [];
    for i := 0 to |route.segments|
      invariant traversals == Collected(TraversalReader(world.data, route), i)
    {
      var s := route.segments[i];
      if s.expectedWindow.Some? {
        var resource := world.ResourceOfEdge(s.edge);
        if resource == EMPTY_ID {
          resource := s.edge;
        }
        traversals := traversals + [EdgeTraversal(route.robot, s.edge, s.fromNode, s.toNode, resource, s.expectedWindow.value)];
      }
    }
  }

  // ------------------------------------------------------------- corridors

  /** The corridor's nodes, walked from `current` along its edges until one does not join on. */
  function OrderFrom(d: MapData, current: Id, edges: seq<Id>): seq<Id>
    decreases |edges|
  {
    if edges == [] || FindEdge(d, edges[0]).None? || OppositeNode(FindEdge(d, edges[0]).value, current).None? then [current]
    else [current] + OrderFrom(d, OppositeNode(FindEdge(d, edges[0]).value, current).value, edges[1..])
  }

  method CorridorNodeOrder(world: Map, corridor: Corridor) returns (order: seq<Id>)
    requires world.Valid()
    ensures order == OrderFrom(world.data, corridor.entryNode, corridor.edges)
  {
    hide MapIndex.Map.Valid, FindEdge, OppositeNode;
    var current := corridor.entryNode;
    order := [current];
    for i := 0 to |corridor.edges|
      invariant order != [] && order[|order| - 1] == current
      invariant OrderFrom(world.data, corridor.entryNode, corridor.edges)
        == order[..|order| - 1] + OrderFrom(world.data, current, corridor.edges[i..])
    {
      var edge := world.EdgeAt(corridor.edges[i]);
      if edge.None? {
        return;
      }
      var next := OppositeNode(edge.value, current);
      if next.None? {
        return;
      }
      assert corridor.edges[i..][1..] == corridor.edges[i + 1..];
      current := next.value;
      order := order + [current];
    }
  }

  function FirstIndex(q: seq<Id>, x: Id): Option<nat> {
    if q == [] then None
    else if q[0] == x then Some(0)
    else match FirstIndex(q[1..], x) case Some(i) => Some(i + 1) case None => None
  }

  lemma {:induction false} FirstIndexIs(q: seq<Id>, x: Id, i: nat)
    requires i < |q| && q[i] == x && forall j :: 0 <= j < i ==> q[j] != x
    ensures FirstIndex(q, x) == Some(i)
  {
    if i > 0 { FirstIndexIs(q[1..], x, i - 1); }
  }

  lemma {:induction false} NoFirstIndex(q: seq<Id>, x: Id)
    requires forall j :: 0 <= j < |q| ==> q[j] != x
    ensures FirstIndex(q, x) == None
  {
    if q != [] { NoFirstIndex(q[1..], x); }
  }

  /** Which way a passage runs; the corridor's own orientation when an end is not on it. */
  function DirectionThrough(d: MapData, corridor: Corridor, entry: Id, exit: Id): PassageDirection {
    var order := OrderFrom(d, corridor.entryNode, corridor.edges);
    match (FirstIndex(order, entry), FirstIndex(order, exit))
    case (Some(i), Some(j)) => if i < j then EntryToExit else ExitToEntry
    case _ => EntryToExit
  }

  lemma {:induction false} FirstIndexFinds(q: seq<Id>, x: Id)
    ensures match FirstIndex(q, x)
            case Some(i) => i < |q| && q[i] == x && forall j :: 0 <= j < i ==> q[j] != x
            case None => x !in q
  {
    if q != [] && q[0] != x { FirstIndexFinds(q[1..], x); }
  }

  /** A passage runs backward exactly when the corridor's walk meets both its ends, and the exit no later. */
  lemma BackwardExactlyWhen(d: MapData, corridor: Corridor, entry: Id, exit: Id)
    ensures var order := OrderFrom(d, corridor.entryNode, corridor.edges);
            DirectionThrough(d, corridor, entry, exit) == ExitToEntry <==>
            entry in order && exists j :: 0 <= j < |order| && order[j] == exit && entry !in order[..j]
  {
    var order := OrderFrom(d, corridor.entryNode, corridor.edges);
    FirstIndexFinds(order, entry);
    FirstIndexFinds(order, exit);
    hide OrderFrom, FirstIndex;
  }

  /** The walked nodes start at the corridor's entry, each joined to the next by the corridor's edge of that
      place, and stop only where the edges run out or the next does not join on. */
  lemma {:induction false} WalkFollowsEdges(d: MapData, current: Id, edges: seq<Id>)
    ensures var order := OrderFrom(d, current, edges);
            && 1 <= |order| <= |edges| + 1 && order[0] == current
            && (forall k :: 0 <= k < |order| - 1 ==>
                  FindEdge(d, edges[k]).Some? && Joins(FindEdge(d, edges[k]).value, order[k], order[k + 1]))
            && (|order| <= |edges| ==>
                  var next := FindEdge(d, edges[|order| - 1]);
                  next.Some? ==> order[|order| - 1] !in {next.value.fromNode, next.value.toNode})
    decreases |edges|
  {
    hide First;
    if |OrderFrom(d, current, edges)| > 1 {
      var next := OppositeNode(FindEdge(d, edges[0]).value, current).value;
      WalkFollowsEdges(d, next, edges[1..]);
      var order, rest := OrderFrom(d, current, edges), OrderFrom(d, next, edges[1..]);
      assert order == [current] + rest;
      forall k | 0 <= k < |order| - 1
        ensures FindEdge(d, edges[k]).Some? && Joins(FindEdge(d, edges[k]).value, order[k], order[k + 1])
      {
        if k > 0 { assert edges[1..][k - 1] == edges[k] && order[k] == rest[k - 1] && order[k + 1] == rest[k]; }
      }
    }
  }

  /** Going the other way turns the direction round exactly between two different nodes of the corridor. */
  lemma ReturnTripTurnsRound(d: MapData, corridor: Corridor, entry: Id, exit: Id)
    ensures var order := OrderFrom(d, corridor.entryNode, corridor.edges);
            DirectionThrough(d, corridor, entry, exit) != DirectionThrough(d, corridor, exit, entry) <==>
            entry in order && exit in order && entry != exit
  {
    var order := OrderFrom(d, corridor.entryNode, corridor.edges);
    FirstIndexFinds(order, entry);
    FirstIndexFinds(order, exit);
    hide OrderFrom, FirstIndex;
  }

  /** Where the walk along the edges meets the declared exit, the corridor driven from its entry to its exit
      runs forward, and driven back runs backward. */
  lemma WholeCorridorRunsForward(d: MapData, corridor: Corridor)
    requires corridor.entryNode != corridor.exitNode && corridor.exitNode in OrderFrom(d, corridor.entryNode, corridor.edges)
    ensures DirectionThrough(d, corridor, corridor.entryNode, corridor.exitNode) == EntryToExit
    ensures DirectionThrough(d, corridor, corridor.exitNode, corridor.entryNode) == ExitToEntry
  {
    var order := OrderFrom(d, corridor.entryNode, corridor.edges);
    assert order[0] == corridor.entryNode;
    FirstIndexFinds(order, corridor.entryNode);
    FirstIndexFinds(order, corridor.exitNode);
    hide OrderFrom, FirstIndex;
  }

  /** `found` is where `x` first occurs among the first `n` elements. */
  predicate FoundFirst(q: seq<Id>, n: nat, x: Id, found: Option<nat>)
    requires n <= |q|
  {
    match found
    case Some(i) => i < n && q[i] == x && forall j :: 0 <= j < i ==> q[j] != x
    case None => forall j :: 0 <= j < n ==> q[j] != x
  }

  lemma FoundFirstIndex(q: seq<Id>, x: Id, found: Option<nat>)
    requires FoundFirst(q, |q|, x, found)
    ensures found == FirstIndex(q, x)
  {
    if found.Some? {
      FirstIndexIs(q, x, found.value);
    } else {
      NoFirstIndex(q, x);
    }
  }

  method DirectionOfPassage(world: Map, corridor: Corridor, entry: Id, exit: Id) returns (direction: PassageDirection)
    requires world.Valid()
    ensures direction == DirectionThrough(world.data, corridor, entry, exit)
  {
    var order := CorridorNodeOrder(world, corridor);
    var entryIndex: Option<nat>, exitIndex: Option<nat> := None, None;
    for i := 0 to |order|
      invariant FoundFirst(order, i, entry, entryIndex) && FoundFirst(order, i, exit, exitIndex)
    {
      if entryIndex.None? && order[i] == entry {
        entryIndex := Some(i);
      }
      if exitIndex.None? && order[i] == exit {
        exitIndex := Some(i);
      }
    }
    FoundFirstIndex(order, entry, entryIndex);
    FoundFirstIndex(order, exit, exitIndex);
    if entryIndex.None? || exitIndex.None? {
      return EntryToExit;
    }
    return if entryIndex.value < exitIndex.value then EntryToExit else ExitToEntry;
  }

  /** A timed segment over an edge of this resource. */
  predicate InCorridor(d: MapData, s: RouteSegment, corridor: Id) {
    s.expectedWindow.Some? && ResourceForEdge(d, s.edge) == corridor
  }

  /** Segments i to j are one uninterrupted run inside the corridor, and neither end can be extended. */
  predicate IsRun(d: MapData, segments: seq<RouteSegment>, corridor: Id, i: nat, j: nat) {
    && i <= j < |segments|
    && (forall k :: i <= k <= j ==> InCorridor(d, segments[k], corridor))
    && (i == 0 || !InCorridor(d, segments[i - 1], corridor))
    && (j + 1 == |segments| || !InCorridor(d, segments[j + 1], corridor))
  }

  predicate OpensCorridor(d: MapData, segments: seq<RouteSegment>, i: nat) {
    && i < |segments| && segments[i].expectedWindow.Some?
    && FindCorridor(d, ResourceForEdge(d, segments[i].edge)).Some?
  }

  predicate RunStarts(d: MapData, segments: seq<RouteSegment>, i: nat) {
    && OpensCorridor(d, segments, i)
    && (i == 0 || !InCorridor(d, segments[i - 1], ResourceForEdge(d, segments[i].edge)))
  }

  function RunEnd(d: MapData, segments: seq<RouteSegment>, corridor: Id, i: nat): (j: nat)
    requires i < |segments|
    ensures i <= j < |segments|
    decreases |segments| - i
  {
    if i + 1 < |segments| && InCorridor(d, segments[i + 1], corridor) then RunEnd(d, segments, corridor, i + 1) else i
  }

  function PassageOver(d: MapData, route: Route, i: nat, j: nat): Option<CorridorPassage>
    requires i <= j < |route.segments|
    requires route.segments[i].expectedWindow.Some? && route.segments[j].expectedWindow.Some?
  {
    var first, last := route.segments[i], route.segments[j];
    var corridor := ResourceForEdge(d, first.edge);
    match (FindCorridor(d, corridor), MakeTimeWindow(first.expectedWindow.value.start, last.expectedWindow.value.end))
    case (Some(c), Some(w)) =>
      Some(CorridorPassage(route.robot, corridor, first.fromNode, last.toNode,
                           DirectionThrough(d, c, first.fromNode, last.toNode), w))
    case _ => None
  }

  function PassageAt(d: MapData, route: Route, i: nat): Option<CorridorPassage> {
    if !RunStarts(d, route.segments, i) then None
    else
      var corridor := ResourceForEdge(d, route.segments[i].edge);
      RunIsMaximal(d, route.segments, corridor, i);
      PassageOver(d, route, i, RunEnd(d, route.segments, corridor, i))
  }

  function PassageReader(d: MapData, route: Route): nat -> Option<CorridorPassage> {
    (i: nat) => PassageAt(d, route, i)
  }

  lemma {:induction false} RunIsMaximal(d: MapData, segments: seq<RouteSegment>, corridor: Id, i: nat)
    requires i < |segments| && InCorridor(d, segments[i], corridor)
    ensures var j := RunEnd(d, segments, corridor, i);
            && (forall k :: i <= k <= j ==> InCorridor(d, segments[k], corridor))
            && (j + 1 == |segments| || !InCorridor(d, segments[j + 1], corridor))
    decreases |segments| - i
  {
    hide InCorridor;
    if i + 1 < |segments| && InCorridor(d, segments[i + 1], corridor) {
      RunIsMaximal(d, segments, corridor, i + 1);
    }
  }

  lemma {:induction false} RunIsUnique(d: MapData, segments: seq<RouteSegment>, corridor: Id, i: nat, j: nat)
    requires i <= j < |segments| && forall k :: i <= k <= j ==> InCorridor(d, segments[k], corridor)
    requires j + 1 == |segments| || !InCorridor(d, segments[j + 1], corridor)
    ensures RunEnd(d, segments, corridor, i) == j
    decreases j - i
  {
    hide InCorridor;
    if i < j {
      RunIsUnique(d, segments, corridor, i + 1, j);
    }
  }

  /** `p` covers segments i to j, a maximal run inside a corridor of the map: in at the first, out at the last. */
  predicate IsPassage(d: MapData, route: Route, corridor: Id, i: nat, j: nat, p: CorridorPassage) {
    && IsRun(d, route.segments, corridor, i, j) && FindCorridor(d, corridor).Some?
    && p.robot == route.robot && p.corridor == corridor
    && p.entryNode == route.segments[i].fromNode && p.exitNode == route.segments[j].toNode
    && p.direction == DirectionThrough(d, FindCorridor(d, corridor).value, p.entryNode, p.exitNode)
    && p.window.start == route.segments[i].expectedWindow.value.start && p.window.end == route.segments[j].expectedWindow.value.end
  }

  /** The passages are exactly the maximal runs: one for each, and nothing else. A route that leaves
      a corridor and comes back has two. */
  lemma PassagesAreRuns(d: MapData, route: Route, p: CorridorPassage)
    ensures p in Collected(PassageReader(d, route), |route.segments|) <==>
      exists corridor, i: nat, j: nat ::
        IsPassage(d, route, corridor, i, j, p)
  {
    var segments := route.segments;
    CollectedMembers(PassageReader(d, route), |segments|);
    hide PassageOver, ResourceForEdge, FindCorridor, Collected, IsRun, PassageAt, IsPassage;
    if i: nat :| i < |segments| && PassageAt(d, route, i) == Some(p) {
      PassageIsRun(d, route, i, p);
    }
    if corridor, i: nat, j: nat :|
      IsPassage(d, route, corridor, i, j, p)
    {
      RunIsPassage(d, route, corridor, i, j, p);
      assert PassageReader(d, route)(i) == Some(p);
    }
  }

  lemma PassageOverIs(d: MapData, route: Route, i: nat, j: nat, p: CorridorPassage)
    requires i < |route.segments| && IsRun(d, route.segments, ResourceForEdge(d, route.segments[i].edge), i, j)
    ensures PassageOver(d, route, i, j) == Some(p) <==> IsPassage(d, route, ResourceForEdge(d, route.segments[i].edge), i, j, p)
  {
    hide ResourceForEdge, FindCorridor, DirectionThrough;
  }

  lemma PassageIsRun(d: MapData, route: Route, i: nat, p: CorridorPassage)
    requires PassageAt(d, route, i) == Some(p)
    ensures exists corridor, j: nat ::
      IsPassage(d, route, corridor, i, j, p)
  {
    hide PassageOver, ResourceForEdge, FindCorridor, IsPassage;
    var corridor := ResourceForEdge(d, route.segments[i].edge);
    RunIsMaximal(d, route.segments, corridor, i);
    PassageOverIs(d, route, i, RunEnd(d, route.segments, corridor, i), p);
  }

  lemma RunIsPassage(d: MapData, route: Route, corridor: Id, i: nat, j: nat, p: CorridorPassage)
    requires IsPassage(d, route, corridor, i, j, p)
    ensures i < |route.segments| && PassageAt(d, route, i) == Some(p)
  {
    hide PassageOver, ResourceForEdge, FindCorridor, DirectionThrough;
    RunIsUnique(d, route.segments, corridor, i, j);
    assert InCorridor(d, route.segments[i], corridor);
    PassageOverIs(d, route, i, j, p);
  }

  method CorridorPassages(world: Map, route: Route) returns (passages: seq<CorridorPassage>)
    requires world.Valid()
    ensures passages == Collected(PassageReader(world.data, route), |route.segments|)
  {
    hide MapIndex.Map.Valid, ResourceForEdge, FindCorridor, DirectionThrough, Collected;
    var d, segments := world.data, route.segments;
    passages := [];
    assert Collected(PassageReader(d, route), 0) == [] by { CollectedNext(d, route, 0); }
    var index := 0;
    while index < |segments|
      invariant index <= |segments|
      invariant passages == Collected(PassageReader(d, route), index)
      invariant OpensCorridor(d, segments, index) ==> RunStarts(d, segments, index)
    {
      CollectedNext(d, route, index);
      var opening := segments[index].expectedWindow;
      if opening.None? {
        index := index + 1;
        continue;
      }
      var resource := world.ResourceOfEdge(segments[index].edge);
      var corridor := world.CorridorAt(resource);
      if corridor.None? {
        index := index + 1;
        continue;
      }
      var last := index;
      while last + 1 < |segments| && InCorridorHere(world, segments[last + 1], resource)
        invariant index <= last < |segments|
        invariant forall k :: index <= k <= last ==> InCorridor(d, segments[k], resource)
      {
        last := last + 1;
      }
      RunIsUnique(d, segments, resource, index, last);
      assert InCorridor(d, segments[last], resource);
      var window := MakeTimeWindow(opening.value.start, segments[last].expectedWindow.value.end);
      if window.Some? {
        var entry, exit := segments[index].fromNode, segments[last].toNode;
        var direction := DirectionOfPassage(world, corridor.value, entry, exit);
        passages := passages + [CorridorPassage(route.robot, resource, entry, exit, direction, window.value)];
      }
      InsideRunNothingStarts(d, route, resource, index, last);
      index := last + 1;
    }
  }

  predicate InCorridorHere(world: Map, s: RouteSegment, corridor: Id)
    requires world.Valid()
    ensures InCorridorHere(world, s, corridor) == InCorridor(world.data, s, corridor)
  {
    s.expectedWindow.Some? && world.ResourceOfEdge(s.edge) == corridor
  }

  lemma CollectedNext(d: MapData, route: Route, i: nat)
    ensures Collected(PassageReader(d, route), 0) == []
    ensures Collected(PassageReader(d, route), i + 1) ==
      Collected(PassageReader(d, route), i) + match PassageAt(d, route, i) case Some(p) => [p] case None => []
  {
    hide PassageAt;
  }

  lemma InsideRunNothingStarts(d: MapData, route: Route, corridor: Id, i: nat, j: nat)
    requires i <= j < |route.segments| && forall k :: i <= k <= j ==> InCorridor(d, route.segments[k], corridor)
    ensures Collected(PassageReader(d, route), j + 1) == Collected(PassageReader(d, route), i + 1)
  {
    hide ResourceForEdge, FindCorridor, PassageOver;
    forall k: nat | i + 1 <= k < j + 1 ensures PassageReader(d, route)(k) == None {
      assert InCorridor(d, route.segments[k - 1], corridor) && InCorridor(d, route.segments[k], corridor);
    }
    NothingCollected(PassageReader(d, route), i + 1, j + 1);
  }
}
