/** The network a request searches, and what planning promises, as functions of the map's content. */
module Planning {
  import opened Core
  import opened Ordering
  import opened Graph
  import opened CostModel
  import opened Routes
  import opened Search
  import opened Optimality

  /** Everything one planner is configured with, but the map. */
  datatype Settings = Settings(weights: CostWeights, traffic: Conditions, heuristic: (Position, Position) -> real, maxExpansions: nat)

  function NodeIds(d: MapData): set<Id> {
    set n | n in d.nodes :: n.id
  }

  function EdgeIds(d: MapData): set<Id> {
    set e | e in d.edges :: e.id
  }

  lemma FoundNode(d: MapData, v: Id)
    ensures FindNode(d, v).Some? <==> v in NodeIds(d)
    ensures FindNode(d, v).Some? ==> FindNode(d, v).value in d.nodes && FindNode(d, v).value.id == v
  {
    FirstIsMember(d.nodes, NodeId, v);
    if v in NodeIds(d) {
      var x :| x in d.nodes && x.id == v;
      assert NodeId(x) == v;
    }
  }

  lemma FoundEdge(d: MapData, e: Id)
    ensures FindEdge(d, e).Some? <==> e in EdgeIds(d)
    ensures FindEdge(d, e).Some? ==> FindEdge(d, e).value in d.edges && FindEdge(d, e).value.id == e
  {
    FirstIsMember(d.edges, EdgeId, e);
    if e in EdgeIds(d) {
      var x :| x in d.edges && x.id == e;
      assert EdgeId(x) == e;
    }
  }

  /** An allowed step: drivable from `u`, over an allowed edge, to an allowed node of the map. */
  predicate Usable(d: MapData, c: RouteConstraints, u: Id, e: Id) {
    && FindEdge(d, e).Some?
    && TraversableFrom(FindEdge(d, e).value, u)
    && AllowsEdge(c, e, ResourceForEdge(d, e))
    && AllowsNode(c, HeadOf(d, u, e))
    && FindNode(d, HeadOf(d, u, e)).Some?
  }

  function HeadOf(d: MapData, u: Id, e: Id): Id {
    if FindEdge(d, e).None? then EMPTY_ID
    else match OppositeNode(FindEdge(d, e).value, u) case Some(v) => v case None => EMPTY_ID
  }

  function StepCost(d: MapData, s: Settings, c: RouteConstraints, at: Time, e: Id): real
    requires FindEdge(d, e).Some?
  {
    EdgeCost(FindEdge(d, e).value, ResourceForEdge(d, e), s.weights, c, s.traffic, at)
  }

  function Remaining(d: MapData, s: Settings, goal: Id, v: Id): real {
    if FindNode(d, v).Some? && FindNode(d, goal).Some?
    then s.heuristic(FindNode(d, v).value.position, FindNode(d, goal).value.position) else 0.0
  }

  ghost function NetOf(d: MapData, s: Settings, c: RouteConstraints, at: Time, goal: Id): Net {
    Net(NodeIds(d),
        map u, e | u in NodeIds(d) && e in EdgeIds(d) && Usable(d, c, u, e) :: Tail(u, e) := HeadOf(d, u, e),
        map e | e in EdgeIds(d) && FindEdge(d, e).Some? :: StepCost(d, s, c, at, e),
        map v | v in NodeIds(d) :: Remaining(d, s, goal, v))
  }

  lemma NetIsWellFormed(d: MapData, s: Settings, c: RouteConstraints, at: Time, goal: Id)
    ensures WellFormed(NetOf(d, s, c, at, goal))
  {
    var n := NetOf(d, s, c, at, goal);
    forall t | t in n.heads ensures t.node in n.nodes && n.heads[t] in n.nodes {
      FoundNode(d, HeadOf(d, t.node, t.edge));
    }
  }

  lemma NetArcs(d: MapData, s: Settings, c: RouteConstraints, at: Time, goal: Id, u: Id, e: Id, v: Id)
    ensures Arc(NetOf(d, s, c, at, goal), u, e, v) <==> u in NodeIds(d) && Usable(d, c, u, e) && v == HeadOf(d, u, e)
    ensures FindEdge(d, e).Some? ==> Cost(NetOf(d, s, c, at, goal), e) == StepCost(d, s, c, at, e)
    ensures Estimate(NetOf(d, s, c, at, goal), u) == if u in NodeIds(d) then Remaining(d, s, goal, u) else 0.0
  {
    FoundEdge(d, e);
    hide FindEdge, FindNode, StepCost, HeadOf, Remaining;
  }

  /** The resource that admits robots to an edge: its own, or one that carries the edge's name. */
  function AdmittingResource(edge: Edge): Id {
    if edge.resource == EMPTY_ID then edge.id else edge.resource
  }

  /** The network a request searches is the map less what the request excludes: an arc leads from a node of the map
      to one exactly when an open edge joins them, its direction allows that way, and the constraints exclude
      neither the edge, nor its resource, nor the node it leads to. */
  lemma NetworkIsTheMap(d: MapData, s: Settings, c: RouteConstraints, at: Time, goal: Id, u: Id, e: Id, v: Id)
    ensures Arc(NetOf(d, s, c, at, goal), u, e, v) <==>
      && u in NodeIds(d) && v in NodeIds(d) && v !in c.blockedNodes && e !in c.blockedEdges && FindEdge(d, e).Some?
      && var edge := FindEdge(d, e).value;
         && edge.enabled
         && (|| (u == edge.fromNode && v == edge.toNode && edge.direction != ReverseOnly)
             || (u == edge.toNode && v == edge.fromNode && edge.direction != ForwardOnly))
         && AdmittingResource(edge) !in c.blockedResources + c.forbiddenResources
  {
    NetArcs(d, s, c, at, goal, u, e, v);
    FoundNode(d, v);
    FoundEdge(d, e);
    if FindEdge(d, e).Some? { DrivenExactlyWhen(FindEdge(d, e).value, u, v); }
    hide NetOf, First, NodeIds;
  }

  // ------------------------------------------------------------- order of the edge list

  predicate DistinctEdgeIds(edges: seq<Edge>) {
    forall a, b :: a in edges && b in edges && a.id == b.id ==> a == b
  }

  lemma SameLookup(d: MapData, edges: seq<Edge>, e: Id)
    requires multiset(edges) == multiset(d.edges) && DistinctEdgeIds(d.edges)
    ensures FindEdge(d.(edges := edges), e) == FindEdge(d, e)
  {
    FirstIsMember(d.edges, EdgeId, e);
    FirstIsMember(edges, EdgeId, e);
    forall x | x in edges ensures x in d.edges { SameMembers(edges, d.edges, x); }
    forall x | x in d.edges ensures x in edges { SameMembers(d.edges, edges, x); }
  }

  /** Reordering the map's edge list changes nothing the search can see. */
  lemma NetIgnoresEdgeOrder(d: MapData, edges: seq<Edge>, s: Settings, c: RouteConstraints, at: Time, goal: Id)
    requires multiset(edges) == multiset(d.edges) && DistinctEdgeIds(d.edges)
    ensures NetOf(d.(edges := edges), s, c, at, goal) == NetOf(d, s, c, at, goal)
  {
    var d2 := d.(edges := edges);
    forall e ensures FindEdge(d2, e) == FindEdge(d, e) { SameLookup(d, edges, e); }
    forall x | x in edges ensures x in d.edges { SameMembers(edges, d.edges, x); }
    forall x | x in d.edges ensures x in edges { SameMembers(d.edges, edges, x); }
    assert EdgeIds(d2) == EdgeIds(d);
    assert NodeIds(d2) == NodeIds(d);
    forall u, e ensures Usable(d2, c, u, e) == Usable(d, c, u, e) && HeadOf(d2, u, e) == HeadOf(d, u, e) {
      assert FindEdge(d2, e) == FindEdge(d, e);
      hide First;
    }
    hide FindEdge, FindNode, Usable, HeadOf;
    var a, b := NetOf(d2, s, c, at, goal), NetOf(d, s, c, at, goal);
    assert a.heads == b.heads;
    assert a.cost == b.cost;
    assert a.estimate == b.estimate;
  }

  // ------------------------------------------------------------- from a walk to a route

  const SMALLEST_SEGMENT := 1

  function TravelTime(d: MapData, e: Id): int {
    match FindEdge(d, e)
    case Some(edge) => if NominalTravelTime(edge) > SMALLEST_SEGMENT then NominalTravelTime(edge) else SMALLEST_SEGMENT
    case None => SMALLEST_SEGMENT
  }

  function WalkNodes(start: Id, w: seq<Hop>): seq<Id> {
    if w == [] then [start] else WalkNodes(start, w[..|w| - 1]) + [w[|w| - 1].to]
  }

  /** When the walk's end is reached. */
  function Arrival(d: MapData, t0: Time, w: seq<Hop>): Time {
    if w == [] then t0 else Arrival(d, t0, w[..|w| - 1]) + TravelTime(d, w[|w| - 1].edge)
  }

  function Distance(d: MapData, w: seq<Hop>): real {
    if w == [] then 0.0
    else Distance(d, w[..|w| - 1]) + match FindEdge(d, w[|w| - 1].edge) case Some(edge) => edge.length case None => 0.0
  }

  function Segments(d: MapData, start: Id, t0: Time, w: seq<Hop>): (q: seq<RouteSegment>)
    ensures |q| == |w|
  {
    if w == [] then []
    else
      var front, last := w[..|w| - 1], w[|w| - 1];
      Segments(d, start, t0, front)
      + [RouteSegment(last.edge, EndOf(start, front), last.to, |front|,
                      Some(Span(Arrival(d, t0, front), Arrival(d, t0, front) + TravelTime(d, last.edge))))]
  }

  function RouteOver(d: MapData, q: RouteRequest, w: seq<Hop>, sequence: nat, started: Time): Route {
    Route(RouteId(q.robot, sequence), q.robot, WalkNodes(q.start, w), Segments(d, q.start, q.currentTime, w), d.version,
          started)
  }

  function Answer(d: MapData, q: RouteRequest, w: seq<Hop>, cost: real, expanded: nat, sequence: nat,
                  started: Time): PlanResult {
    var route := RouteOver(d, q, w, sequence, started);
    if !Connected(route.robot, route.nodes, route.segments) then Failed(NoRoute)
    else Planned(RouteResponse(route, Distance(d, w), Arrival(d, q.currentTime, w) - q.currentTime, cost, expanded))
  }

  /** The walk a finished search hands back. */
  ghost function FoundWalk(n: Net, start: Id, goal: Id, cap: nat): (w: seq<Hop>)
    requires WellFormed(n) && start in n.nodes && SearchFrom(n, start, goal, cap).Found?
    ensures IsWalk(n, start, w) && EndOf(start, w) == goal
    ensures Length(n, w) == G(SearchFrom(n, start, goal, cap).front, goal)
  {
    InitialIsReady(n, start);
    ExploreFinishes(n, start, goal, cap, Initial(start));
    var f := SearchFrom(n, start, goal, cap).front;
    Optimality.Route(n, start, f, goal, |f.settled| - 1)
  }

  /** Why a request is turned away before any search, if it is. */
  function Unplannable(d: MapData, q: RouteRequest): Option<RouteFailure> {
    if q.robot == EMPTY_ID || q.start == EMPTY_ID || q.goal == EMPTY_ID then Some(InvalidRequest)
    else if FindNode(d, q.start).None? then Some(UnknownStart)
    else if FindNode(d, q.goal).None? then Some(UnknownGoal)
    else if !AllowsNode(q.constraints, q.start) then Some(BlockedStart)
    else if !AllowsNode(q.constraints, q.goal) then Some(BlockedGoal)
    else None
  }

  ghost function RequestNet(d: MapData, s: Settings, q: RouteRequest): (n: Net)
    ensures WellFormed(n) && n.nodes == NodeIds(d)
  {
    NetIsWellFormed(d, s, q.constraints, q.currentTime, q.goal);
    NetOf(d, s, q.constraints, q.currentTime, q.goal)
  }

  /** One planned route, or the reason there is none. */
  ghost function Plan(d: MapData, s: Settings, q: RouteRequest, sequence: nat, started: Time): PlanResult {
    if Unplannable(d, q).Some? then Failed(Unplannable(d, q).value)
    else if q.start == q.goal then Answer(d, q, [], 0.0, 1, sequence, started)
    else
      FoundNode(d, q.start);
      var n := RequestNet(d, s, q);
      match SearchFrom(n, q.start, q.goal, s.maxExpansions)
      case Found(f) => Answer(d, q, FoundWalk(n, q.start, q.goal, s.maxExpansions), G(f, q.goal), |f.settled|, sequence, started)
      case Exhausted(_) => Failed(NoRoute)
      case LimitReached(_) => Failed(SearchLimitReached)
  }

  // ------------------------------------------------------------- what planning promises

  /** A segment that drives hop `i` between the nodes either side of it. */
  predicate Fits(s: RouteSegment, i: nat, w: seq<Hop>, nodes: seq<Id>) {
    && i < |w| && i + 1 < |nodes|
    && s.edge == w[i].edge && s.sequence == i
    && s.fromNode == nodes[i] && s.toNode == w[i].to && s.toNode == nodes[i + 1]
  }

  predicate UsableSegment(d: MapData, c: RouteConstraints, s: RouteSegment) {
    Usable(d, c, s.fromNode, s.edge) && s.toNode == HeadOf(d, s.fromNode, s.edge)
  }

  lemma {:induction false} WalkShape(d: MapData, start: Id, t0: Time, w: seq<Hop>)
    ensures |WalkNodes(start, w)| == |w| + 1 && WalkNodes(start, w)[0] == start && WalkNodes(start, w)[|w|] == EndOf(start, w)
    ensures forall i :: 0 <= i < |w| ==> Fits(Segments(d, start, t0, w)[i], i, w, WalkNodes(start, w))
  {
    hide TravelTime;
    if w != [] {
      var front := w[..|w| - 1];
      WalkShape(d, start, t0, front);
      forall i | 0 <= i < |w|
        ensures Fits(Segments(d, start, t0, w)[i], i, w, WalkNodes(start, w))
      {
        if i < |front| {
          assert Fits(Segments(d, start, t0, front)[i], i, front, WalkNodes(start, front));
        }
      }
    }
  }

  lemma {:induction false} WalkArcs(n: Net, start: Id, w: seq<Hop>)
    requires IsWalk(n, start, w)
    ensures |WalkNodes(start, w)| == |w| + 1 && WalkNodes(start, w)[|w|] == EndOf(start, w)
    ensures forall i :: 0 <= i < |w| ==> Arc(n, WalkNodes(start, w)[i], w[i].edge, WalkNodes(start, w)[i + 1])
  {
    hide Arc;
    if w != [] {
      WalkArcs(n, start, w[..|w| - 1]);
      assert EndOf(start, w) == w[|w| - 1].to;
    }
  }

  lemma OppositeJoins(edge: Edge, u: Id)
    requires TraversableFrom(edge, u)
    ensures OppositeNode(edge, u).Some? && Joins(edge, u, OppositeNode(edge, u).value) && edge.enabled
  {
  }

  lemma UsableIsSound(d: MapData, c: RouteConstraints, s: RouteSegment, defect: RouteDefect)
    requires UsableSegment(d, c, s)
    ensures !SegmentDefect(d, c, s, defect)
    ensures !NodeDefect(d, c, s.toNode, defect)
  {
    OppositeJoins(FindEdge(d, s.edge).value, s.fromNode);
    hide First, TraversableFrom, OppositeNode, Joins;
  }

  /** Soundness. A planned route starts and ends where it was asked to and passes the independent
      validator under the same constraints. */
  lemma PlannedRouteIsValid(d: MapData, s: Settings, q: RouteRequest, sequence: nat, started: Time)
    ensures var result := Plan(d, s, q, sequence, started);
            result.Planned? ==>
              var route := result.response.route;
              && RouteValid(d, route, q.constraints)
              && route.nodes[0] == q.start && route.nodes[|route.nodes| - 1] == q.goal
  {
    hide Plan, RouteValid, RequestNet;
    if Plan(d, s, q, sequence, started).Planned? {
      var w := PlannedWalk(d, s, q, sequence, started);
      WalkRouteIsValid(d, s, q, w, sequence, started);
    }
  }

  lemma WalkRouteIsValid(d: MapData, s: Settings, q: RouteRequest, w: seq<Hop>, sequence: nat, started: Time)
    requires Unplannable(d, q).None? && IsWalk(RequestNet(d, s, q), q.start, w) && EndOf(q.start, w) == q.goal
    ensures var route := RouteOver(d, q, w, sequence, started);
            && RouteValid(d, route, q.constraints)
            && route.nodes[0] == q.start && route.nodes[|route.nodes| - 1] == q.goal
  {
    var n := RequestNet(d, s, q);
    var route := RouteOver(d, q, w, sequence, started);
    WalkShape(d, q.start, q.currentTime, w);
    WalkArcs(n, q.start, w);
    forall i | 0 <= i < |w|
      ensures UsableSegment(d, q.constraints, route.segments[i]) && route.segments[i].toNode == route.nodes[i + 1]
    {
      assert Fits(route.segments[i], i, w, route.nodes);
      NetArcs(d, s, q.constraints, q.currentTime, q.goal, route.nodes[i], w[i].edge, route.nodes[i + 1]);
    }
    hide UsableSegment, NodeDefect, IsWalk, Arc, Unplannable, RequestNet, NetOf, RouteValid;
    forall defect ensures !NodeDefect(d, q.constraints, q.start, defect) {
      StartIsSound(d, q, defect);
    }
    UsableRouteIsValid(d, route, q.constraints);
  }

  lemma UsableRouteIsValid(d: MapData, route: Routes.Route, c: RouteConstraints)
    requires |route.nodes| == |route.segments| + 1 && route.mapVersion == d.version
    requires forall defect :: !NodeDefect(d, c, route.nodes[0], defect)
    requires forall i :: 0 <= i < |route.segments| ==>
      UsableSegment(d, c, route.segments[i]) && route.segments[i].toNode == route.nodes[i + 1]
    ensures RouteValid(d, route, c)
  {
    hide UsableSegment, NodeDefect, SegmentDefect;
    forall issue ensures !HasDefect(d, route, c, issue) {
      if issue.index < |route.segments| {
        UsableIsSound(d, c, route.segments[issue.index], issue.defect);
      }
      if 0 < issue.index <= |route.segments| {
        UsableIsSound(d, c, route.segments[issue.index - 1], issue.defect);
      }
    }
  }

  lemma StartIsSound(d: MapData, q: RouteRequest, defect: RouteDefect)
    requires Unplannable(d, q).None?
    ensures !NodeDefect(d, q.constraints, q.start, defect)
  {
  }

  /** Each way of planning nothing has its own cause, looked for in this order: a missing name, an unknown end, an
      end the constraints exclude. The expansions reported never exceed the cap. */
  lemma FailureSaysWhy(d: MapData, s: Settings, q: RouteRequest, sequence: nat, started: Time)
    ensures var result := Plan(d, s, q, sequence, started);
            var named := q.robot != EMPTY_ID && q.start != EMPTY_ID && q.goal != EMPTY_ID;
            var known := q.start in NodeIds(d) && q.goal in NodeIds(d);
            && (result == Failed(InvalidRequest) <==> !named)
            && (result == Failed(UnknownStart) <==> named && q.start !in NodeIds(d))
            && (result == Failed(UnknownGoal) <==> named && q.start in NodeIds(d) && q.goal !in NodeIds(d))
            && (result == Failed(BlockedStart) <==> named && known && q.start in q.constraints.blockedNodes)
            && (result == Failed(BlockedGoal) <==>
                  named && known && q.start !in q.constraints.blockedNodes && q.goal in q.constraints.blockedNodes)
            && (result.Planned? && s.maxExpansions > 0 ==> 1 <= result.response.expandedNodes <= s.maxExpansions)
  {
    FoundNode(d, q.start);
    FoundNode(d, q.goal);
    hide RequestNet, NetOf, FindNode, Connected, RouteOver, Distance, Arrival, FoundWalk;
    if Unplannable(d, q).None? && q.start != q.goal {
      ExpansionsAreCapped(RequestNet(d, s, q), q.start, q.goal, s.maxExpansions);
    }
  }

  lemma ExpansionsAreCapped(n: Net, start: Id, goal: Id, cap: nat)
    requires WellFormed(n) && start in n.nodes
    ensures var r := SearchFrom(n, start, goal, cap);
            && (cap > 0 ==> |r.front.settled| <= cap)
            && (r.Found? ==> |r.front.settled| > 0)
  {
    InitialIsReady(n, start);
    ExploreFinishes(n, start, goal, cap, Initial(start));
    if cap > 0 { CapIsKept(n, goal, cap, Initial(start)); }
    hide Explore, Sound, SettledOptimal, Consistent, TiesBroken, Offered;
  }

  /** The walk behind a planned route, and its cost. */
  lemma PlannedWalk(d: MapData, s: Settings, q: RouteRequest, sequence: nat, started: Time) returns (w: seq<Hop>)
    requires Plan(d, s, q, sequence, started).Planned?
    ensures Unplannable(d, q).None?
    ensures IsWalk(RequestNet(d, s, q), q.start, w) && EndOf(q.start, w) == q.goal
    ensures Plan(d, s, q, sequence, started).response.route == RouteOver(d, q, w, sequence, started)
    ensures Plan(d, s, q, sequence, started).response.cost == Length(RequestNet(d, s, q), w)
    ensures Plan(d, s, q, sequence, started).response.totalDistance == Distance(d, w)
    ensures Plan(d, s, q, sequence, started).response.estimatedTime == Arrival(d, q.currentTime, w) - q.currentTime
  {
    hide RouteOver, RequestNet, NetOf, SearchFrom, Distance, Arrival, Connected;
    if q.start == q.goal {
      w := [];
    } else {
      FoundNode(d, q.start);
      w := FoundWalk(RequestNet(d, s, q), q.start, q.goal, s.maxExpansions);
    }
  }

  /** What driving a route costs under these conditions; nothing when the map lacks one of its edges. */
  function RouteCost(d: MapData, s: Settings, c: RouteConstraints, at: Time,
                     segments: seq<RouteSegment>): Option<real> {
    if segments == [] then Some(0.0)
    else
      var front, last := RouteCost(d, s, c, at, segments[..|segments| - 1]), segments[|segments| - 1];
      if front.None? || FindEdge(d, last.edge).None? then None
      else Some(front.value + StepCost(d, s, c, at, last.edge))
  }

  lemma {:induction false} CostOfWalk(d: MapData, s: Settings, c: RouteConstraints, at: Time, goal: Id, start: Id,
                                      w: seq<Hop>)
    requires IsWalk(NetOf(d, s, c, at, goal), start, w)
    ensures RouteCost(d, s, c, at, Segments(d, start, at, w)) == Some(Length(NetOf(d, s, c, at, goal), w))
  {
    hide NetOf, StepCost, Cost, TravelTime, Usable, FindEdge;
    if w != [] {
      var front, last := w[..|w| - 1], w[|w| - 1];
      CostOfWalk(d, s, c, at, goal, start, front);
      NetArcs(d, s, c, at, goal, EndOf(start, front), last.edge, last.to);
      UsableEdgeFound(d, c, EndOf(start, front), last.edge);
      var q := Segments(d, start, at, w);
      assert q[..|q| - 1] == Segments(d, start, at, front) && q[|q| - 1].edge == last.edge;
    }
  }

  lemma UsableEdgeFound(d: MapData, c: RouteConstraints, u: Id, e: Id)
    ensures Usable(d, c, u, e) ==> FindEdge(d, e).Some?
  {
  }

  /** The cost the planner reports is what `estimate_route_cost` gives the route it returns. */
  lemma PlannedCostIsRouteCost(d: MapData, s: Settings, q: RouteRequest, sequence: nat, started: Time)
    ensures var result := Plan(d, s, q, sequence, started);
            result.Planned? ==>
              var r := result.response;
              RouteCost(d, s, q.constraints, q.currentTime, r.route.segments) == Some(r.cost)
  {
    hide Plan, RouteCost, NetOf;
    if Plan(d, s, q, sequence, started).Planned? {
      var w := PlannedWalk(d, s, q, sequence, started);
      CostOfWalk(d, s, q.constraints, q.currentTime, q.goal, q.start, w);
    }
  }

  /** Optimality. With a heuristic consistent on the map, no allowed walk to the goal costs less than
      the planned route. */
  lemma PlannedRouteIsOptimal(d: MapData, s: Settings, q: RouteRequest, sequence: nat, started: Time)
    requires Consistent(RequestNet(d, s, q))
    ensures var result := Plan(d, s, q, sequence, started);
            result.Planned? ==> NoCheaperWalk(RequestNet(d, s, q), q.start, q.goal, result.response.cost)
  {
    var n := RequestNet(d, s, q);
    FoundNode(d, q.start);
    hide Consistent, NoCheaperWalk, SearchFrom, RequestNet, NetOf, Distance, Arrival, Connected, FindNode;
    if Unplannable(d, q).None? {
      if q.start == q.goal {
        StayingIsCheapest(n, q.start);
      } else {
        SearchIsOptimal(n, q.start, q.goal, s.maxExpansions);
      }
    }
  }

  /** No allowed step between two different nodes is over an edge without an id. */
  ghost predicate NamedSteps(n: Net) {
    forall u, v :: u != v ==> !Arc(n, u, EMPTY_ID, v)
  }

  lemma FoundWalkIs(n: Net, start: Id, goal: Id, cap: nat)
    requires WellFormed(n) && start in n.nodes && SearchFrom(n, start, goal, cap).Found?
    ensures var f := SearchFrom(n, start, goal, cap).front;
            && Sound(n, start, f) && TiesBroken(n, f) && f.settled != [] && f.settled[|f.settled| - 1] == goal
            && FoundWalk(n, start, goal, cap) == Optimality.Route(n, start, f, goal, |f.settled| - 1)
  {
    InitialIsReady(n, start);
    ExploreFinishes(n, start, goal, cap, Initial(start));
    hide Sound, Explore, SettledOptimal, Consistent, TiesBroken, Offered, Optimality.Route;
  }

  lemma NamedStepsNameTheWalk(n: Net, start: Id, goal: Id, cap: nat, h: Hop)
    requires WellFormed(n) && start in n.nodes && SearchFrom(n, start, goal, cap).Found? && NamedSteps(n)
    requires h in FoundWalk(n, start, goal, cap)
    ensures h.edge != EMPTY_ID
  {
    hide Sound, SearchFrom, Optimality.Route, FoundWalk, Arc;
    FoundWalkIs(n, start, goal, cap);
    var f := SearchFrom(n, start, goal, cap).front;
    RouteHopsMove(n, start, f, goal, |f.settled| - 1, h);
    var u :| u != h.to && Arc(n, u, h.edge, h.to);
  }

  /** A route can be built over exactly the walks whose edges all have ids. */
  lemma NamedWalkIsConnected(d: MapData, q: RouteRequest, w: seq<Hop>, sequence: nat, started: Time)
    requires q.robot != EMPTY_ID
    ensures var route := RouteOver(d, q, w, sequence, started);
            Connected(route.robot, route.nodes, route.segments) <==> forall h :: h in w ==> h.edge != EMPTY_ID
  {
    WalkShape(d, q.start, q.currentTime, w);
    var route := RouteOver(d, q, w, sequence, started);
    hide WalkNodes, Segments;
    forall i | 0 <= i < |w|
      ensures route.segments[i].edge == w[i].edge && route.segments[i].sequence == i
      ensures route.segments[i].fromNode == route.nodes[i] && route.segments[i].toNode == route.nodes[i + 1]
    {
      assert Fits(route.segments[i], i, w, route.nodes);
    }
    if Connected(route.robot, route.nodes, route.segments) {
      forall h | h in w ensures h.edge != EMPTY_ID {
        var i :| 0 <= i < |w| && w[i] == h;
        assert route.segments[i].edge == w[i].edge;
      }
    }
  }

  /** Completeness. A route is returned only when an allowed walk exists, and "no route" only when none
      does, unless some allowed step is over an edge without an id. The only other answer is that the
      search was stopped at its cap. */
  lemma PlanningIsComplete(d: MapData, s: Settings, q: RouteRequest, sequence: nat, started: Time)
    requires Unplannable(d, q).None?
    ensures var result, n := Plan(d, s, q, sequence, started), RequestNet(d, s, q);
            && (result.Planned? ==> exists w :: IsWalk(n, q.start, w) && EndOf(q.start, w) == q.goal)
            && (result == Failed(NoRoute) && NamedSteps(n) ==> forall w :: IsWalk(n, q.start, w) ==> EndOf(q.start, w) != q.goal)
            && (result.Planned? || result == Failed(NoRoute) || (s.maxExpansions != 0 && result == Failed(SearchLimitReached)))
  {
    var n, cap := RequestNet(d, s, q), s.maxExpansions;
    FoundNode(d, q.start);
    if q.start == q.goal {
      assert IsWalk(n, q.start, []) && EndOf(q.start, []) == q.goal;
      NamedWalkIsConnected(d, q, [], sequence, started);
    } else {
      SearchIsCorrect(n, q.start, q.goal, cap);
      if SearchFrom(n, q.start, q.goal, cap).Found? {
        var w := FoundWalk(n, q.start, q.goal, cap);
        NamedWalkIsConnected(d, q, w, sequence, started);
        if NamedSteps(n) {
          forall h | h in w ensures h.edge != EMPTY_ID { NamedStepsNameTheWalk(n, q.start, q.goal, cap, h); }
        }
      }
    }
    hide SearchFrom, RequestNet, NetOf, Distance, Arrival, Connected, FoundWalk, RouteOver, IsWalk, FindNode;
  }

  /** Edge-order independence. Reordering the edge list of a map with distinct edge ids changes
      neither the search (settled sequence, labels, expansions) nor the planned answer. */
  lemma PlanIgnoresEdgeOrder(d: MapData, edges: seq<Edge>, s: Settings, q: RouteRequest, sequence: nat, started: Time)
    requires multiset(edges) == multiset(d.edges) && DistinctEdgeIds(d.edges)
    ensures Plan(d.(edges := edges), s, q, sequence, started) == Plan(d, s, q, sequence, started)
    ensures RequestNet(d.(edges := edges), s, q) == RequestNet(d, s, q)
  {
    var d2 := d.(edges := edges);
    NetIgnoresEdgeOrder(d, edges, s, q.constraints, q.currentTime, q.goal);
    forall e ensures FindEdge(d2, e) == FindEdge(d, e) { SameLookup(d, edges, e); }
    forall w: seq<Hop>, t0: Time ensures Arrival(d2, t0, w) == Arrival(d, t0, w) && Distance(d2, w) == Distance(d, w)
                               && Segments(d2, q.start, t0, w) == Segments(d, q.start, t0, w) {
      SameTimes(d2, d, q.start, t0, w);
    }
    SameNodes(d, edges, q);
    forall w, cost, expanded ensures Answer(d2, q, w, cost, expanded, sequence, started) == Answer(d, q, w, cost, expanded, sequence, started) {
      assert Arrival(d2, q.currentTime, w) == Arrival(d, q.currentTime, w);
    }
    hide NetOf, FindEdge, FindNode, Answer, FoundWalk, SearchFrom;
    assert RequestNet(d2, s, q) == RequestNet(d, s, q);
  }

  lemma SameNodes(d: MapData, edges: seq<Edge>, q: RouteRequest)
    ensures FindNode(d.(edges := edges), q.start) == FindNode(d, q.start)
    ensures FindNode(d.(edges := edges), q.goal) == FindNode(d, q.goal)
  {
  }

  lemma {:induction false} SameTimes(a: MapData, b: MapData, start: Id, t0: Time, w: seq<Hop>)
    requires forall e :: FindEdge(a, e) == FindEdge(b, e)
    ensures Arrival(a, t0, w) == Arrival(b, t0, w) && Distance(a, w) == Distance(b, w)
    ensures Segments(a, start, t0, w) == Segments(b, start, t0, w)
  {
    hide First;
    if w != [] {
      SameTimes(a, b, start, t0, w[..|w| - 1]);
      assert FindEdge(a, w[|w| - 1].edge) == FindEdge(b, w[|w| - 1].edge);
      hide FindEdge, NominalTravelTime;
    }
  }
}
