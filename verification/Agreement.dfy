/** The planner and the breadth-first search agree on what can be reached. */
module Agreement {
  import opened Core
  import opened Graph
  import opened MapIndex
  import opened CostModel
  import opened Routes
  import opened Search
  import opened Optimality
  import opened Planning
  import opened Reachability

  /** What map validation guarantees: every edge joins two nodes of the map. */
  predicate NoDanglingEdge(d: MapData) {
    forall e :: e in d.edges ==> FindNode(d, e.fromNode).Some? && FindNode(d, e.toNode).Some?
  }

  /** Nothing is excluded and the search is never cut short. */
  predicate Unrestricted(s: Settings, q: RouteRequest) {
    Unconstrained(q.constraints) && s.maxExpansions == 0
  }

  lemma ArcLeads(d: MapData, s: Settings, q: RouteRequest, u: Id, e: Id, v: Id)
    requires Arc(RequestNet(d, s, q), u, e, v)
    ensures Leads(d, u, e, v)
  {
    NetArcs(d, s, q.constraints, q.currentTime, q.goal, u, e, v);
    hide NetOf, FindEdge, FindNode;
    OppositeJoins(FindEdge(d, e).value, u);
  }

  lemma LeadsIsArc(d: MapData, s: Settings, q: RouteRequest, u: Id, e: Id, v: Id)
    requires Leads(d, u, e, v) && u in NodeIds(d) && Unrestricted(s, q) && NoDanglingEdge(d)
    ensures Arc(RequestNet(d, s, q), u, e, v) && v in NodeIds(d)
  {
    NetArcs(d, s, q.constraints, q.currentTime, q.goal, u, e, v);
    FoundEdge(d, e);
    FoundNode(d, v);
    EndIsKnown(d, FindEdge(d, e).value, u, v);
    hide NetOf, FindEdge, FindNode, NodeIds, TraversableFrom;
  }

  lemma EndIsKnown(d: MapData, edge: Edge, u: Id, v: Id)
    requires edge in d.edges && NoDanglingEdge(d) && OppositeNode(edge, u) == Some(v)
    ensures FindNode(d, v).Some?
  {
    hide FindNode;
  }

  /** Every walk of the search is a path of the map. */
  lemma WalkIsPath(d: MapData, s: Settings, q: RouteRequest, w: seq<Hop>)
    requires IsWalk(RequestNet(d, s, q), q.start, w)
    ensures Reaches(d, q.start, EndOf(q.start, w))
  {
    var n, p := RequestNet(d, s, q), WalkNodes(q.start, w);
    WalkArcs(n, q.start, w);
    WalkShape(d, q.start, q.currentTime, w);
    hide WalkNodes, IsWalk, Arc, RequestNet, EndOf;
    forall i | 0 < i < |p| ensures Linked(d, p[i - 1], p[i]) {
      ArcLeads(d, s, q, p[i - 1], w[i - 1].edge, p[i]);
      assert Leads(d, p[i - 1], w[i - 1].edge, p[i]);
    }
    assert IsPathFrom(d, p, q.start, EndOf(q.start, w));
  }

  /** With nothing excluded, every path from a node of the map is a walk of the search. */
  lemma {:induction false} PathIsWalk(d: MapData, s: Settings, q: RouteRequest, p: seq<Id>) returns (w: seq<Hop>)
    requires Unrestricted(s, q) && NoDanglingEdge(d)
    requires IsPath(d, p) && p[0] == q.start && q.start in NodeIds(d)
    ensures IsWalk(RequestNet(d, s, q), q.start, w) && EndOf(q.start, w) == p[|p| - 1]
    ensures p[|p| - 1] in NodeIds(d)
    decreases |p|
  {
    hide Leads, Arc, RequestNet, NoDanglingEdge, NodeIds;
    if |p| == 1 {
      w := [];
    } else {
      var front := PathIsWalk(d, s, q, p[..|p| - 1]);
      var u, v := p[|p| - 2], p[|p| - 1];
      assert Linked(d, u, v);
      var e :| Leads(d, u, e, v);
      LeadsIsArc(d, s, q, u, e, v);
      w := front + [Hop(e, v)];
      assert w[..|w| - 1] == front;
    }
  }

  lemma SomeWalk(d: MapData, s: Settings, q: RouteRequest)
    requires Unplannable(d, q).None? && Unrestricted(s, q) && NoDanglingEdge(d)
    requires Reaches(d, q.start, q.goal)
    ensures exists w :: IsWalk(RequestNet(d, s, q), q.start, w) && EndOf(q.start, w) == q.goal
  {
    FoundNode(d, q.start);
    var p :| IsPathFrom(d, p, q.start, q.goal);
    var w := PathIsWalk(d, s, q, p);
  }

  /** The answer when edges may be unnamed: the walk found must also avoid unnamed edges, since no
      route can be built over one. */
  lemma PlannerNeedsNamedEdges(d: MapData, s: Settings, q: RouteRequest, sequence: nat, started: Time)
    requires Unplannable(d, q).None? && Unrestricted(s, q) && NoDanglingEdge(d) && q.start != q.goal
    ensures q.start in NodeIds(d)
    ensures Plan(d, s, q, sequence, started).Planned? <==>
      && Reaches(d, q.start, q.goal)
      && var found := SearchFrom(RequestNet(d, s, q), q.start, q.goal, 0);
         found.Found? &&
         forall h :: h in FoundWalk(RequestNet(d, s, q), q.start, q.goal, 0) ==> h.edge != EMPTY_ID
  {
    var n := RequestNet(d, s, q);
    FoundNode(d, q.start);
    SearchIsCorrect(n, q.start, q.goal, 0);
    if SearchFrom(n, q.start, q.goal, 0).Found? {
      var w := FoundWalk(n, q.start, q.goal, 0);
      WalkIsPath(d, s, q, w);
      NamedWalkIsConnected(d, q, w, sequence, started);
      hide RequestNet, IsWalk, Reaches, SearchFrom, Connected, RouteOver, Distance, Arrival, FoundWalk;
      assert n == RequestNet(d, s, q);
    }
  }

  const ORIGIN := Position(0.0, 0.0, 0.0)

  /** Two nodes joined by one edge that has no id. Map validation accepts it. */
  function UnnamedEdgeMap(): MapData {
    MapData(1,
            [Node(1, ORIGIN, 1, EMPTY_ID), Node(2, ORIGIN, 1, EMPTY_ID)],
            [Edge(EMPTY_ID, 1, 2, 1.0, 1.0, Bidirectional, 1, EMPTY_ID, None, true)], [], [], [])
  }

  /** Naming is needed: over an unnamed edge the goal is reachable and yet no route is returned. */
  lemma UnnamedEdgeLosesTheRoute(s: Settings, q: RouteRequest, sequence: nat, started: Time)
    requires q.robot != EMPTY_ID && q.start == 1 && q.goal == 2 && Unrestricted(s, q)
    ensures Unplannable(UnnamedEdgeMap(), q).None? && NoDanglingEdge(UnnamedEdgeMap())
    ensures Reaches(UnnamedEdgeMap(), q.start, q.goal)
    ensures !Plan(UnnamedEdgeMap(), s, q, sequence, started).Planned?
  {
    var d := UnnamedEdgeMap();
    OneUnnamedEdge();
    UnnamedMapIsPlannable(q);
    assert IsPathFrom(d, [1, 2], 1, 2);
    hide UnnamedEdgeMap, RequestNet;
    PlannerNeedsNamedEdges(d, s, q, sequence, started);
    var n := RequestNet(d, s, q);
    if SearchFrom(n, q.start, q.goal, 0).Found? {
      var w := FoundWalk(n, q.start, q.goal, 0);
      assert w != [];
      var front, last := w[..|w| - 1], w[|w| - 1];
      ArcLeads(d, s, q, EndOf(q.start, front), last.edge, last.to);
      assert last in w && last.edge == EMPTY_ID;
    }
  }

  lemma UnnamedMapIsPlannable(q: RouteRequest)
    requires q.robot != EMPTY_ID && q.start == 1 && q.goal == 2 && Unconstrained(q.constraints)
    ensures Unplannable(UnnamedEdgeMap(), q).None? && NoDanglingEdge(UnnamedEdgeMap())
  {
    var nodes := UnnamedEdgeMap().nodes;
    FirstFound(nodes, NodeId, 1, 0);
    FirstFound(nodes, NodeId, 2, 1);
  }

  lemma OneUnnamedEdge()
    ensures forall u, e, v :: Leads(UnnamedEdgeMap(), u, e, v) ==> e == EMPTY_ID
    ensures Linked(UnnamedEdgeMap(), 1, 2)
  {
    var d := UnnamedEdgeMap();
    forall u, e, v | Leads(d, u, e, v) ensures e == EMPTY_ID {
      FoundEdge(d, e);
    }
    FirstFound(d.edges, EdgeId, EMPTY_ID, 0);
    assert Leads(d, 1, EMPTY_ID, 2);
  }

  // ------------------------------------------------------------- exactly which maps keep the promise

  /** On this map every unrestricted, plannable request is answered with a route exactly when its goal
      can be reached, whatever the weights, the traffic and the heuristic. */
  ghost predicate AlwaysAgrees(d: MapData) {
    forall s, q, sequence: nat, started: Time :: Unplannable(d, q).None? && Unrestricted(s, q) ==>
      (Plan(d, s, q, sequence, started).Planned? <==> Reaches(d, q.start, q.goal))
  }

  /** No edge without an id can be driven from one node to another. */
  ghost predicate NoUnnamedStep(d: MapData) {
    forall u, v :: u != v ==> !Leads(d, u, EMPTY_ID, v)
  }

  /** On such a map whose edges join its nodes, an unrestricted request is answered with a route exactly
      when the breadth-first search finds the goal. */
  lemma PlannerAgreesWithReachability(d: MapData, s: Settings, q: RouteRequest, sequence: nat, started: Time)
    requires Unplannable(d, q).None? && Unrestricted(s, q) && NoDanglingEdge(d) && NoUnnamedStep(d)
    ensures Plan(d, s, q, sequence, started).Planned? <==> Reaches(d, q.start, q.goal)
  {
    PlanningIsComplete(d, s, q, sequence, started);
    hide RequestNet, NoDanglingEdge, IsWalk, Plan, Reaches, Leads, Arc;
    var n, result := RequestNet(d, s, q), Plan(d, s, q, sequence, started);
    if result.Planned? {
      var w :| IsWalk(n, q.start, w) && EndOf(q.start, w) == q.goal;
      WalkIsPath(d, s, q, w);
    }
    forall u, v | u != v ensures !Arc(n, u, EMPTY_ID, v) {
      if Arc(n, u, EMPTY_ID, v) { ArcLeads(d, s, q, u, EMPTY_ID, v); }
    }
    if Reaches(d, q.start, q.goal) {
      SomeWalk(d, s, q);
    }
  }

  /** Every edge costs nothing and every estimate is zero: the search then goes by ids alone. */
  function Weightless(): Settings {
    Settings(CostWeights(0.0, 0.0, 0.0, 0.0, 1.0), FreeFlow(), (a, b) => 0.0, 0)
  }

  function Straight(u: Id, v: Id): RouteRequest {
    RouteRequest(1, u, v, 0, NO_CONSTRAINTS)
  }

  lemma WeightlessIsFree(d: MapData, q: RouteRequest, e: Id)
    ensures Cost(RequestNet(d, Weightless(), q), e) == 0.0
  {
    FoundEdge(d, e);
    if FindEdge(d, e).Some? {
      NetArcs(d, Weightless(), q.constraints, q.currentTime, q.goal, 0, e, 0);
      assert StepCost(d, Weightless(), q.constraints, q.currentTime, e) == 0.0 by {
        hide FindEdge, ResourceForEdge, NominalTravelTime;
      }
    }
    hide FindEdge, StepCost;
  }

  lemma {:induction false} WeightlessWalk(d: MapData, q: RouteRequest, w: seq<Hop>)
    ensures Length(RequestNet(d, Weightless(), q), w) == 0.0
  {
    hide RequestNet, Weightless, Cost;
    if w != [] {
      WeightlessWalk(d, q, w[..|w| - 1]);
      WeightlessIsFree(d, q, w[|w| - 1].edge);
    }
  }

  /** Between the two ends of an unnamed edge the tie on cost goes to that edge, the least id of all. */
  lemma UnnamedEdgeIsTaken(d: MapData, u: Id, v: Id)
    requires Arc(RequestNet(d, Weightless(), Straight(u, v)), u, EMPTY_ID, v) && u != v && u in NodeIds(d)
    requires SearchFrom(RequestNet(d, Weightless(), Straight(u, v)), u, v, 0).Found?
    ensures Hop(EMPTY_ID, v) in FoundWalk(RequestNet(d, Weightless(), Straight(u, v)), u, v, 0)
  {
    var q := Straight(u, v);
    var n := RequestNet(d, Weightless(), q);
    hide RequestNet, Weightless, SearchFrom, Arc, Sound, TiesBroken, Optimality.Route, FoundWalk, Cost, G, Length;
    FoundWalkIs(n, u, v, 0);
    var f := SearchFrom(n, u, v, 0).front;
    var k := |f.settled| - 1;
    WeightlessWalk(d, q, Optimality.Route(n, u, f, v, k));
    WeightlessIsFree(d, q, EMPTY_ID);
    FreeTiesGoToLeast(n, u, f, v, k);
  }

  lemma UnnamedStepBreaksAgreement(d: MapData, u: Id, v: Id)
    requires NoDanglingEdge(d) && EMPTY_ID !in NodeIds(d) && u != v && Leads(d, u, EMPTY_ID, v)
    ensures !AlwaysAgrees(d)
  {
    var s, q := Weightless(), Straight(u, v);
    EndsAreKnown(d, u, EMPTY_ID, v);
    LeadsIsArc(d, s, q, u, EMPTY_ID, v);
    assert IsPathFrom(d, [u, v], u, v) by { assert Linked(d, u, v); }
    assert Reaches(d, q.start, q.goal);
    assert Unplannable(d, q).None? by { BothOnMap(d, u, v); }
    hide Reaches, RequestNet, Plan, NoDanglingEdge, Leads, SearchFrom, FoundWalk, Weightless, Arc;
    PlannerNeedsNamedEdges(d, s, q, 1, 0);
    if SearchFrom(RequestNet(d, s, q), u, v, 0).Found? {
      UnnamedEdgeIsTaken(d, u, v);
    }
    assert !Plan(d, s, q, 1, 0).Planned?;
  }

  lemma BothOnMap(d: MapData, u: Id, v: Id)
    requires EMPTY_ID !in NodeIds(d) && u in NodeIds(d) && v in NodeIds(d)
    ensures Unplannable(d, Straight(u, v)).None?
  {
    FoundNode(d, u);
    FoundNode(d, v);
    hide FindNode, NodeIds;
  }

  lemma EndsAreKnown(d: MapData, u: Id, e: Id, v: Id)
    requires NoDanglingEdge(d) && Leads(d, u, e, v)
    ensures u in NodeIds(d) && v in NodeIds(d)
  {
    FoundEdge(d, e);
    FoundNode(d, u);
    FoundNode(d, v);
    hide FindNode, FindEdge, NodeIds;
  }

  /** The exact condition, read off the map alone. Where every edge joins nodes of the map and every
      node is named, planning agrees with reachability for all requests and all settings if and only
      if no edge without an id can be driven from one node to another. */
  lemma AgreementIsExactlyNamedSteps(d: MapData)
    requires NoDanglingEdge(d) && EMPTY_ID !in NodeIds(d)
    ensures AlwaysAgrees(d) <==> NoUnnamedStep(d)
  {
    hide NoDanglingEdge, Leads, Plan, Reaches, NodeIds, Unplannable, Unrestricted;
    if NoUnnamedStep(d) {
      forall s, q, sequence: nat, started: Time | Unplannable(d, q).None? && Unrestricted(s, q)
        ensures Plan(d, s, q, sequence, started).Planned? <==> Reaches(d, q.start, q.goal)
      {
        PlannerAgreesWithReachability(d, s, q, sequence, started);
      }
    } else {
      var u, v :| u != v && Leads(d, u, EMPTY_ID, v);
      UnnamedStepBreaksAgreement(d, u, v);
    }
  }
}
