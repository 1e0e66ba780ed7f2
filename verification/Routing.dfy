/** What a route request may use, and what each edge costs it. */
module CostModel {
  import opened Core
  import opened Graph

  datatype RouteConstraints = RouteConstraints(
    blockedEdges: set<Id>, blockedNodes: set<Id>, blockedResources: set<Id>,
    forbiddenResources: set<Id>, preferredResources: set<Id>)

  predicate Unconstrained(c: RouteConstraints) {
    c.blockedEdges == {} && c.blockedNodes == {} && c.blockedResources == {}
    && c.forbiddenResources == {} && c.preferredResources == {}
  }

  predicate AllowsNode(c: RouteConstraints, node: Id) {
    node !in c.blockedNodes
  }

  predicate AllowsEdge(c: RouteConstraints, edge: Id, resource: Id) {
    edge !in c.blockedEdges && resource !in c.blockedResources && resource !in c.forbiddenResources
  }

  datatype CostWeights = CostWeights(distance: real, travelTime: real, congestion: real, waiting: real, preferredFactor: real)

  predicate ValidWeights(w: CostWeights) {
    && w.distance >= 0.0 && w.travelTime >= 0.0 && w.congestion >= 0.0 && w.waiting >= 0.0
    && 0.0 < w.preferredFactor <= 1.0
  }

  /** The traffic the planner reads but does not own. */
  datatype Conditions = Conditions(congestion: Id -> real, expectedWait: (Id, Time) -> int)

  const NO_CONSTRAINTS := RouteConstraints({}, {}, {}, {}, {})

  /** Nothing is congested and nobody waits. */
  function FreeFlow(): Conditions {
    Conditions(r => 0.0, (r, at) => 0)
  }

  function EdgeCost(edge: Edge, resource: Id, w: CostWeights, c: RouteConstraints, traffic: Conditions,
                    at: Time): real {
    var cost := w.distance * edge.length + w.travelTime * Seconds(NominalTravelTime(edge))
                + w.congestion * traffic.congestion(resource) + w.waiting * Seconds(traffic.expectedWait(resource, at));
    if resource in c.preferredResources then cost * w.preferredFactor else cost
  }

  /** On the open road an edge costs its length and its driving time at their weights. Congestion and expected
      waiting add to that at theirs, and a preferred resource discounts the whole. */
  lemma TrafficCostsExtra(edge: Edge, resource: Id, w: CostWeights, c: RouteConstraints, traffic: Conditions, at: Time)
    ensures var extra := w.congestion * traffic.congestion(resource) + w.waiting * Seconds(traffic.expectedWait(resource, at));
            var open := EdgeCost(edge, resource, w, NO_CONSTRAINTS, FreeFlow(), at);
            && open == w.distance * edge.length + w.travelTime * Seconds(NominalTravelTime(edge))
            && (resource !in c.preferredResources ==> EdgeCost(edge, resource, w, c, traffic, at) == open + extra)
            && (resource in c.preferredResources ==> EdgeCost(edge, resource, w, c, traffic, at) == w.preferredFactor * (open + extra))
  {
    hide NominalTravelTime;
  }

  /** The least a metre can cost. */
  function MinCostPerMetre(w: CostWeights, maxSpeed: real): real {
    if maxSpeed <= 0.0 then 0.0
    else w.preferredFactor * (w.distance + w.travelTime / maxSpeed)
  }
}

/** Routes, and the requests and answers about them. */
module Routes {
  import opened Core
  import opened Graph
  import opened CostModel

  datatype RouteSegment = RouteSegment(edge: Id, fromNode: Id, toNode: Id, sequence: nat, expectedWindow: Option<TimeWindow>)

  /** "ROUTE-<robot>-<sequence>", kept as the parts it is written from. */
  datatype RouteId = RouteId(robot: Id, sequence: nat)

  datatype Route = Route(id: RouteId, robot: Id, nodes: seq<Id>, segments: seq<RouteSegment>, mapVersion: nat, createdAt: Time)

  datatype RouteRequest = RouteRequest(robot: Id, start: Id, goal: Id, currentTime: Time, constraints: RouteConstraints)

  datatype RouteFailure = InvalidRequest | UnknownStart | UnknownGoal | BlockedStart | BlockedGoal | NoRoute | SearchLimitReached

  datatype RouteResponse = RouteResponse(route: Route, totalDistance: real, estimatedTime: int, cost: real, expandedNodes: nat)

  datatype PlanResult = Planned(response: RouteResponse) | Failed(failure: RouteFailure)

  /** The factory's check: a walk over n edges visits n + 1 nodes and every segment joins on. */
  predicate Connected(robot: Id, nodes: seq<Id>, segments: seq<RouteSegment>) {
    && robot != EMPTY_ID
    && |nodes| == |segments| + 1
    && forall i :: 0 <= i < |segments| ==>
         && segments[i].edge != EMPTY_ID && segments[i].sequence == i
         && segments[i].fromNode == nodes[i] && segments[i].toNode == nodes[i + 1]
  }

  datatype RouteDefect =
    | EmptyRoute | InconsistentShape | UnknownNode | UnknownEdge | EdgeDoesNotConnect | EdgeDisabled
    | WrongDirection | BlockedNode | BlockedEdge | BlockedResource | StaleMapVersion

  datatype RouteIssue = RouteIssue(defect: RouteDefect, index: nat)

  predicate Joins(edge: Edge, a: Id, b: Id) {
    (edge.fromNode == a && edge.toNode == b) || (edge.fromNode == b && edge.toNode == a)
  }

  /** The node at this position is unknown to the map or excluded by the constraints. */
  predicate NodeDefect(d: MapData, c: RouteConstraints, node: Id, defect: RouteDefect) {
    match defect
    case UnknownNode => FindNode(d, node).None?
    case BlockedNode => FindNode(d, node).Some? && !AllowsNode(c, node)
    case _ => false
  }

  /** What is wrong with one segment. An edge that cannot be judged hides every later finding. */
  predicate SegmentDefect(d: MapData, c: RouteConstraints, s: RouteSegment, defect: RouteDefect) {
    var edge := FindEdge(d, s.edge);
    var resource := ResourceForEdge(d, s.edge);
    match defect
    case UnknownEdge => edge.None?
    case EdgeDoesNotConnect => edge.Some? && !Joins(edge.value, s.fromNode, s.toNode)
    case EdgeDisabled => edge.Some? && Joins(edge.value, s.fromNode, s.toNode) && !edge.value.enabled
    case WrongDirection =>
      edge.Some? && Joins(edge.value, s.fromNode, s.toNode) && edge.value.enabled && !TraversableFrom(edge.value, s.fromNode)
    case BlockedEdge => edge.Some? && Joins(edge.value, s.fromNode, s.toNode) && s.edge in c.blockedEdges
    case BlockedResource =>
      edge.Some? && Joins(edge.value, s.fromNode, s.toNode) && s.edge !in c.blockedEdges && !AllowsEdge(c, s.edge, resource)
    case _ => false
  }

  /** Every finding the validator owes, by kind and position. */
  predicate HasDefect(d: MapData, route: Route, c: RouteConstraints, issue: RouteIssue) {
    if route.nodes == [] then issue == RouteIssue(EmptyRoute, 0)
    else if |route.segments| + 1 != |route.nodes| then issue == RouteIssue(InconsistentShape, |route.segments|)
    else
      || (issue == RouteIssue(StaleMapVersion, |route.segments|) && route.mapVersion < d.version)
      || (issue.index < |route.nodes| && NodeDefect(d, c, route.nodes[issue.index], issue.defect))
      || (issue.index < |route.segments| && SegmentDefect(d, c, route.segments[issue.index], issue.defect))
  }

  ghost predicate RouteValid(d: MapData, route: Route, c: RouteConstraints) {
    forall issue :: !HasDefect(d, route, c, issue)
  }
}

/** The independent check that stands between a stale route and a closed aisle. */
module RouteValidator {
  import opened Core
  import opened Graph
  import opened MapIndex
  import opened CostModel
  import opened Routes

  method ValidateSegment(world: Map, s: RouteSegment, c: RouteConstraints, index: nat, issues: seq<RouteIssue>)
    returns (updated: seq<RouteIssue>)
    requires world.Valid()
    ensures forall x :: x in updated <==> x in issues || (x.index == index && SegmentDefect(world.data, c, s, x.defect))
  {
    hide First;
    updated := issues;
    var edge := world.EdgeAt(s.edge);
    if edge.None? {
      updated := updated + [RouteIssue(UnknownEdge, index)];
      return;
    }
    if !Joins(edge.value, s.fromNode, s.toNode) {
      updated := updated + [RouteIssue(EdgeDoesNotConnect, index)];
      return;
    }
    if !edge.value.enabled {
      updated := updated + [RouteIssue(EdgeDisabled, index)];
    } else if !TraversableFrom(edge.value, s.fromNode) {
      updated := updated + [RouteIssue(WrongDirection, index)];
    }
    var resource := world.ResourceOfEdge(s.edge);
    if s.edge in c.blockedEdges {
      updated := updated + [RouteIssue(BlockedEdge, index)];
    } else if !AllowsEdge(c, s.edge, resource) {
      updated := updated + [RouteIssue(BlockedResource, index)];
    }
  }

  /** Reports every defect of the route and nothing else. */
  method ValidateRoute(world: Map, route: Route, c: RouteConstraints) returns (issues: seq<RouteIssue>)
    requires world.Valid()
    ensures forall x :: x in issues <==> HasDefect(world.data, route, c, x)
    ensures issues == [] <==> RouteValid(world.data, route, c)
  {
    hide NodeDefect, SegmentDefect;
    if route.nodes == [] {
      issues := [RouteIssue(EmptyRoute, 0)];
      assert HasDefect(world.data, route, c, RouteIssue(EmptyRoute, 0));
      return;
    }
    if |route.segments| + 1 != |route.nodes| {
      issues := [RouteIssue(InconsistentShape, |route.segments|)];
      assert HasDefect(world.data, route, c, RouteIssue(InconsistentShape, |route.segments|));
      return;
    }
    issues := [];
    if route.mapVersion < world.data.version {
      issues := [RouteIssue(StaleMapVersion, |route.segments|)];
    }
    ghost var stale := issues;
    for i := 0 to |route.nodes|
      invariant forall x :: x in issues <==> x in stale || (x.index < i && NodeDefect(world.data, c, route.nodes[x.index], x.defect))
    {
      issues := CheckNode(world, route.nodes[i], c, i, issues);
    }
    ghost var upToNodes := issues;
    for i := 0 to |route.segments|
      invariant forall x :: x in issues <==> x in upToNodes || (x.index < i && SegmentDefect(world.data, c, route.segments[x.index], x.defect))
    {
      issues := ValidateSegment(world, route.segments[i], c, i, issues);
    }
    assert issues != [] ==> issues[0] in issues;
  }

  method CheckNode(world: Map, node: Id, c: RouteConstraints, index: nat,
                   issues: seq<RouteIssue>) returns (updated: seq<RouteIssue>)
    requires world.Valid()
    ensures forall x :: x in updated <==> x in issues || (x.index == index && NodeDefect(world.data, c, node, x.defect))
  {
    hide First;
    updated := issues;
    if world.NodeAt(node).None? {
      updated := updated + [RouteIssue(UnknownNode, index)];
      return;
    }
    if !AllowsNode(c, node) {
      updated := updated + [RouteIssue(BlockedNode, index)];
    }
  }
}
