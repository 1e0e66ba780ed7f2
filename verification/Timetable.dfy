/** What a planned route says about times and distances. */
module Timetable {
  import opened Core
  import opened Graph
  import opened Routes
  import opened Search
  import opened Optimality
  import opened Planning

  /** The larger of the edge's driving time and one nanosecond. */
  function TimeOn(edge: Edge): int {
    if NominalTravelTime(edge) >= 1 then NominalTravelTime(edge) else 1
  }

  /** Driving time is length over speed in whole nanoseconds, rounded toward zero; an override replaces it, and
      an edge without a speed takes none. */
  lemma DrivingTimeIsExact(edge: Edge)
    requires edge.length >= 0.0
    ensures var t := NominalTravelTime(edge);
            match edge.travelTimeOverride
            case Some(override) => t == override
            case None =>
              if edge.speedLimit <= 0.0 then t == 0
              else t >= 0 && t as real <= edge.length / edge.speedLimit * 1000000000.0 < (t + 1) as real
  {
    if edge.travelTimeOverride.None? && edge.speedLimit > 0.0 {
      QuotientIsNotNegative(edge.length, edge.speedLimit);
    }
  }

  lemma QuotientIsNotNegative(x: real, y: real)
    requires x >= 0.0 && y > 0.0
    ensures x / y >= 0.0
  {
  }

  /** The sum of the lengths of the edges a list of segments drives. */
  function LengthDriven(d: MapData, segments: seq<RouteSegment>): real {
    if segments == [] then 0.0
    else
      var last := FindEdge(d, segments[|segments| - 1].edge);
      LengthDriven(d, segments[..|segments| - 1]) + if last.Some? then last.value.length else 0.0
  }

  /** Segment `i` is driven without a break after the one before it, for as long as its edge takes. */
  ghost predicate DrivenInTurn(d: MapData, t0: Time, segments: seq<RouteSegment>, i: nat)
    requires i < |segments|
  {
    && segments[i].expectedWindow.Some?
    && FindEdge(d, segments[i].edge).Some?
    && (i == 0 ==> segments[i].expectedWindow.value.start == t0)
    && (i > 0 ==> segments[i - 1].expectedWindow.Some?
                  && segments[i].expectedWindow.value.start == segments[i - 1].expectedWindow.value.end)
    && segments[i].expectedWindow.value.end - segments[i].expectedWindow.value.start
       == TimeOn(FindEdge(d, segments[i].edge).value)
  }

  function LastEnd(t0: Time, segments: seq<RouteSegment>): Time {
    if segments == [] || segments[|segments| - 1].expectedWindow.None? then t0
    else segments[|segments| - 1].expectedWindow.value.end
  }

  lemma {:induction false} SegmentsAreDrivenInTurn(d: MapData, start: Id, t0: Time, w: seq<Hop>)
    requires forall h :: h in w ==> FindEdge(d, h.edge).Some?
    ensures var segments := Segments(d, start, t0, w);
            && (forall i :: 0 <= i < |segments| ==> DrivenInTurn(d, t0, segments, i))
            && LastEnd(t0, segments) == Arrival(d, t0, w)
            && LengthDriven(d, segments) == Distance(d, w)
  {
    hide FindEdge, NominalTravelTime;
    if w != [] {
      var front, last := w[..|w| - 1], w[|w| - 1];
      assert last in w;
      SegmentsAreDrivenInTurn(d, start, t0, front);
      var before, segments := Segments(d, start, t0, front), Segments(d, start, t0, w);
      assert segments[..|segments| - 1] == before;
      forall i | 0 <= i < |segments| ensures DrivenInTurn(d, t0, segments, i) {
        if i < |before| {
          assert DrivenInTurn(d, t0, before, i);
        }
      }
    }
  }

  lemma {:induction false} WalkEdgesAreKnown(d: MapData, s: Settings, q: RouteRequest, w: seq<Hop>)
    requires IsWalk(RequestNet(d, s, q), q.start, w)
    ensures forall h :: h in w ==> FindEdge(d, h.edge).Some?
  {
    hide RequestNet, NetOf, Arc, Usable, FindEdge;
    if w != [] {
      var front, last := w[..|w| - 1], w[|w| - 1];
      WalkEdgesAreKnown(d, s, q, front);
      ArcIsKnown(d, s, q, EndOf(q.start, front), last.edge, last.to);
    }
  }

  lemma ArcIsKnown(d: MapData, s: Settings, q: RouteRequest, u: Id, e: Id, v: Id)
    ensures Arc(RequestNet(d, s, q), u, e, v) ==> FindEdge(d, e).Some?
  {
    NetArcs(d, s, q.constraints, q.currentTime, q.goal, u, e, v);
    UsableEdgeFound(d, q.constraints, u, e);
    hide Usable, NetOf, FindEdge;
  }

  /** The timetable of a planned route. The robot sets off at the request's time and drives the segments one
      after another without a break, each for the driving time of its edge but at least a nanosecond; the
      duration runs to the end of the last, and the distance is the sum of the edges' lengths. */
  lemma PlannedRouteIsTimed(d: MapData, s: Settings, q: RouteRequest, sequence: nat, started: Time)
    requires Plan(d, s, q, sequence, started).Planned?
    ensures var r := Plan(d, s, q, sequence, started).response;
            && (forall i :: 0 <= i < |r.route.segments| ==> DrivenInTurn(d, q.currentTime, r.route.segments, i))
            && r.estimatedTime == LastEnd(q.currentTime, r.route.segments) - q.currentTime
            && r.totalDistance == LengthDriven(d, r.route.segments)
            && r.route.robot == q.robot && r.route.id == RouteId(q.robot, sequence)
            && r.route.mapVersion == d.version && r.route.createdAt == started
  {
    var w := PlannedWalk(d, s, q, sequence, started);
    WalkEdgesAreKnown(d, s, q, w);
    SegmentsAreDrivenInTurn(d, q.start, q.currentTime, w);
    hide Plan, RequestNet, Segments, WalkNodes, Arrival, Distance, IsWalk, DrivenInTurn, LengthDriven, FindEdge;
  }
}

/** The validator and the planner mean the same by a route: valid routes are the walks the planner searches. */
module ValidRoutes {
  import opened Core
  import opened Graph
  import opened CostModel
  import opened Routes
  import opened Search
  import opened Optimality
  import opened Planning

  function HopsOf(segments: seq<RouteSegment>): (w: seq<Hop>)
    ensures |w| == |segments| && forall i :: 0 <= i < |w| ==> w[i] == Hop(segments[i].edge, segments[i].toNode)
  {
    seq(|segments|, i requires 0 <= i < |segments| => Hop(segments[i].edge, segments[i].toNode))
  }

  /** Neither the segment nor the node it leads to has a defect. */
  ghost predicate Sound(d: MapData, c: RouteConstraints, s: RouteSegment) {
    forall defect :: !SegmentDefect(d, c, s, defect) && !NodeDefect(d, c, s.toNode, defect)
  }

  /** A segment has no defect exactly when the planner could have driven it. */
  lemma SoundIsUsable(d: MapData, c: RouteConstraints, s: RouteSegment)
    ensures Sound(d, c, s) <==> UsableSegment(d, c, s)
  {
    if Sound(d, c, s) {
      assert !SegmentDefect(d, c, s, UnknownEdge);
      assert !SegmentDefect(d, c, s, EdgeDoesNotConnect);
      assert !SegmentDefect(d, c, s, WrongDirection) && !SegmentDefect(d, c, s, EdgeDisabled);
      assert !SegmentDefect(d, c, s, BlockedEdge) && !SegmentDefect(d, c, s, BlockedResource);
      assert !NodeDefect(d, c, s.toNode, UnknownNode) && !NodeDefect(d, c, s.toNode, BlockedNode);
      hide First, ResourceForEdge;
      HeadIsFarEnd(FindEdge(d, s.edge).value, s.fromNode, s.toNode);
    }
    if UsableSegment(d, c, s) {
      forall defect ensures !SegmentDefect(d, c, s, defect) && !NodeDefect(d, c, s.toNode, defect) {
        UsableIsSound(d, c, s, defect);
      }
    }
  }

  lemma HeadIsFarEnd(edge: Edge, a: Id, b: Id)
    requires Joins(edge, a, b)
    ensures OppositeNode(edge, a) == Some(b)
  {
  }

  /** Each segment drives an arc of the network between the nodes either side of it. */
  ghost predicate DrivesArcs(n: Net, nodes: seq<Id>, segments: seq<RouteSegment>)
    requires |nodes| == |segments| + 1
  {
    forall i :: 0 <= i < |segments| ==> Arc(n, nodes[i], segments[i].edge, nodes[i + 1])
  }

  lemma {:induction false} WalkByArcs(n: Net, nodes: seq<Id>, segments: seq<RouteSegment>)
    requires |nodes| == |segments| + 1 && forall i :: 0 <= i < |segments| ==> segments[i].toNode == nodes[i + 1]
    ensures IsWalk(n, nodes[0], HopsOf(segments)) <==> DrivesArcs(n, nodes, segments)
    ensures EndOf(nodes[0], HopsOf(segments)) == nodes[|segments|]
  {
    hide Arc;
    if segments != [] {
      var w := HopsOf(segments);
      assert w[..|w| - 1] == HopsOf(segments[..|w| - 1]);
      WalkByArcs(n, nodes[..|w|], segments[..|w| - 1]);
    }
  }

  ghost predicate AllSound(d: MapData, c: RouteConstraints, segments: seq<RouteSegment>) {
    forall i :: 0 <= i < |segments| ==> Sound(d, c, segments[i])
  }

  /** The route has no defect but possibly its age exactly when its start is good and each segment sound. */
  lemma ValidBySegments(d: MapData, route: Routes.Route, c: RouteConstraints)
    requires Connected(route.robot, route.nodes, route.segments)
    ensures RouteValid(d, route, c) <==>
      && route.mapVersion >= d.version && FindNode(d, route.nodes[0]).Some? && AllowsNode(c, route.nodes[0])
      && AllSound(d, c, route.segments)
  {
    hide SegmentDefect, FindNode;
    var n := |route.segments|;
    if RouteValid(d, route, c) {
      assert !HasDefect(d, route, c, RouteIssue(StaleMapVersion, n));
      assert !HasDefect(d, route, c, RouteIssue(UnknownNode, 0)) && !HasDefect(d, route, c, RouteIssue(BlockedNode, 0));
      forall i, defect | 0 <= i < n
        ensures !SegmentDefect(d, c, route.segments[i], defect) && !NodeDefect(d, c, route.segments[i].toNode, defect)
      {
        assert !HasDefect(d, route, c, RouteIssue(defect, i)) && !HasDefect(d, route, c, RouteIssue(defect, i + 1));
      }
    } else {
      var issue :| HasDefect(d, route, c, issue);
      if forall i :: 0 <= i < n ==> Sound(d, c, route.segments[i]) {
        if 0 < issue.index <= n { assert Sound(d, c, route.segments[issue.index - 1]); }
        if issue.index < n { assert Sound(d, c, route.segments[issue.index]); }
      }
    }
  }

  /** The validator accepts exactly the walks the planner searches: a route that joins on is valid under the
      request's constraints if and only if it is not older than the map, may start where it does, and is a walk
      of the network the request searches. */
  lemma ValidExactlyWhenWalk(d: MapData, s: Settings, q: RouteRequest, route: Routes.Route)
    requires Connected(route.robot, route.nodes, route.segments) && route.nodes[0] == q.start
    ensures RouteValid(d, route, q.constraints) <==>
      && route.mapVersion >= d.version && FindNode(d, q.start).Some? && AllowsNode(q.constraints, q.start)
      && IsWalk(RequestNet(d, s, q), q.start, HopsOf(route.segments))
    ensures EndOf(q.start, HopsOf(route.segments)) == route.nodes[|route.nodes| - 1]
  {
    ValidBySegments(d, route, q.constraints);
    WalkByArcs(RequestNet(d, s, q), route.nodes, route.segments);
    hide RouteValid, IsWalk, AllSound, DrivesArcs, RequestNet, FindNode, EndOf, HopsOf;
    if FindNode(d, q.start).Some? {
      SoundSegmentsAreArcs(d, s, q, route);
    }
  }

  lemma SoundSegmentsAreArcs(d: MapData, s: Settings, q: RouteRequest, route: Routes.Route)
    requires Connected(route.robot, route.nodes, route.segments) && FindNode(d, route.nodes[0]).Some?
    ensures AllSound(d, q.constraints, route.segments) <==> DrivesArcs(RequestNet(d, s, q), route.nodes, route.segments)
  {
    hide Sound, RequestNet, FindNode, Arc;
    var n := |route.segments|;
    if AllSound(d, q.constraints, route.segments) {
      forall i | 0 <= i < n ensures Arc(RequestNet(d, s, q), route.nodes[i], route.segments[i].edge, route.nodes[i + 1]) {
        NodeIsKnown(d, q.constraints, route, i);
        ArcIsSound(d, s, q, route.segments[i]);
      }
    }
    if DrivesArcs(RequestNet(d, s, q), route.nodes, route.segments) {
      forall i | 0 <= i < n ensures Sound(d, q.constraints, route.segments[i]) {
        assert Arc(RequestNet(d, s, q), route.nodes[i], route.segments[i].edge, route.nodes[i + 1]);
        ArcIsSound(d, s, q, route.segments[i]);
      }
    }
  }

  lemma NodeIsKnown(d: MapData, c: RouteConstraints, route: Routes.Route, i: nat)
    requires Connected(route.robot, route.nodes, route.segments) && i < |route.segments|
    requires FindNode(d, route.nodes[0]).Some? && forall j :: 0 <= j < |route.segments| ==> Sound(d, c, route.segments[j])
    ensures FindNode(d, route.nodes[i]).Some?
  {
    hide FindNode, SegmentDefect;
    if i > 0 {
      assert Sound(d, c, route.segments[i - 1]);
      assert !NodeDefect(d, c, route.segments[i - 1].toNode, UnknownNode);
    }
  }

  lemma ArcIsSound(d: MapData, s: Settings, q: RouteRequest, x: RouteSegment)
    ensures Arc(RequestNet(d, s, q), x.fromNode, x.edge, x.toNode) <==>
      FindNode(d, x.fromNode).Some? && Sound(d, q.constraints, x)
  {
    NetArcs(d, s, q.constraints, q.currentTime, q.goal, x.fromNode, x.edge, x.toNode);
    SoundIsUsable(d, q.constraints, x);
    FoundNode(d, x.fromNode);
    hide Sound, Usable, HeadOf, NetOf, FindNode;
  }

  lemma {:induction false} CostOfSegments(d: MapData, s: Settings, q: RouteRequest, segments: seq<RouteSegment>)
    requires IsWalk(RequestNet(d, s, q), q.start, HopsOf(segments))
    ensures RouteCost(d, s, q.constraints, q.currentTime, segments) == Some(Length(RequestNet(d, s, q), HopsOf(segments)))
  {
    hide RequestNet, NetOf, Arc, StepCost, Cost, FindEdge;
    if segments != [] {
      var front, last, w := segments[..|segments| - 1], segments[|segments| - 1], HopsOf(segments);
      assert w[..|w| - 1] == HopsOf(front);
      CostOfSegments(d, s, q, front);
      StepIsCosted(d, s, q, EndOf(q.start, HopsOf(front)), last.edge, last.toNode);
    }
  }

  lemma StepIsCosted(d: MapData, s: Settings, q: RouteRequest, u: Id, e: Id, v: Id)
    requires Arc(RequestNet(d, s, q), u, e, v)
    ensures FindEdge(d, e).Some? && Cost(RequestNet(d, s, q), e) == StepCost(d, s, q.constraints, q.currentTime, e)
  {
    NetArcs(d, s, q.constraints, q.currentTime, q.goal, u, e, v);
    UsableEdgeFound(d, q.constraints, u, e);
    hide Usable, HeadOf, NetOf, FindEdge, StepCost;
  }

  /** The planned route is a cheapest valid route. With a heuristic consistent on the map, every route from start
      to goal that the validator accepts under the same constraints costs at least as much. */
  lemma PlannedIsCheapestValid(d: MapData, s: Settings, q: RouteRequest, sequence: nat, started: Time, other: Routes.Route)
    requires Consistent(RequestNet(d, s, q)) && Plan(d, s, q, sequence, started).Planned?
    requires Connected(other.robot, other.nodes, other.segments) && RouteValid(d, other, q.constraints)
    requires other.nodes[0] == q.start && other.nodes[|other.nodes| - 1] == q.goal
    ensures var cost := RouteCost(d, s, q.constraints, q.currentTime, other.segments);
            cost.Some? && Plan(d, s, q, sequence, started).response.cost <= cost.value
  {
    hide Plan, RouteValid, RequestNet, Consistent, IsWalk, RouteCost, Length, FindNode;
    ValidExactlyWhenWalk(d, s, q, other);
    CostOfSegments(d, s, q, other.segments);
    PlannedRouteIsOptimal(d, s, q, sequence, started);
  }

  /** And when the planner finds no route, the validator accepts none, unless an allowed step has no id. */
  lemma NoRouteMeansNoneIsValid(d: MapData, s: Settings, q: RouteRequest, sequence: nat, started: Time, other: Routes.Route)
    requires Unplannable(d, q).None? && Plan(d, s, q, sequence, started) == Failed(NoRoute) && NamedSteps(RequestNet(d, s, q))
    requires Connected(other.robot, other.nodes, other.segments)
    requires other.nodes[0] == q.start && other.nodes[|other.nodes| - 1] == q.goal
    ensures !RouteValid(d, other, q.constraints)
  {
    PlanningIsComplete(d, s, q, sequence, started);
    ValidExactlyWhenWalk(d, s, q, other);
    hide Plan, RouteValid, RequestNet, IsWalk, FindNode, NamedSteps;
  }

  /** Where the validator finds what, for a route that joins on: nodes and edges at their positions, an outdated map
      at the end. A closed edge is not also called the wrong way, and a blocked one not also on a blocked resource. */
  lemma DefectsAreWhere(d: MapData, route: Routes.Route, c: RouteConstraints, defect: RouteDefect, i: nat)
    requires Connected(route.robot, route.nodes, route.segments)
    ensures HasDefect(d, route, c, RouteIssue(defect, i)) <==>
      match defect
      case EmptyRoute => false
      case InconsistentShape => false
      case StaleMapVersion => i == |route.segments| && route.mapVersion < d.version
      case UnknownNode => i < |route.nodes| && route.nodes[i] !in NodeIds(d)
      case BlockedNode => i < |route.nodes| && route.nodes[i] in NodeIds(d) && route.nodes[i] in c.blockedNodes
      case UnknownEdge => i < |route.segments| && FindEdge(d, route.segments[i].edge).None?
      case _ =>
        && i < |route.segments| && FindEdge(d, route.segments[i].edge).Some?
        && var x, edge := route.segments[i], FindEdge(d, route.segments[i].edge).value;
           var joined := (x.fromNode == edge.fromNode && x.toNode == edge.toNode) || (x.fromNode == edge.toNode && x.toNode == edge.fromNode);
           match defect
           case EdgeDoesNotConnect => !joined
           case EdgeDisabled => joined && !edge.enabled
           case WrongDirection =>
             joined && edge.enabled
             && !(x.fromNode == edge.fromNode && edge.direction != ReverseOnly)
             && !(x.fromNode == edge.toNode && edge.direction != ForwardOnly)
           case BlockedEdge => joined && x.edge in c.blockedEdges
           case BlockedResource =>
             joined && x.edge !in c.blockedEdges && AdmittingResource(edge) in c.blockedResources + c.forbiddenResources
           case _ => false
  {
    if i < |route.nodes| { FoundNode(d, route.nodes[i]); }
    if i < |route.segments| { FoundEdge(d, route.segments[i].edge); }
    hide First, NodeIds;
  }
}
