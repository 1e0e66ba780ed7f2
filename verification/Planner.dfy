/** The A* planner: a queue with lazy deletion, labels in hash maps, a closed set. Proved to
    compute the search of module Search on the network of the request. */
module Planner {
  import opened Core
  import opened Ordering
  import opened Graph
  import opened MapIndex
  import opened CostModel
  import opened Routes
  import opened Search
  import opened Optimality
  import opened Planning

  /** An entry in the open set. */
  datatype Candidate = Candidate(f: real, g: real, node: Id)

  /** True when `a` should be visited later than `b`. */
  predicate WorseFirst(a: Candidate, b: Candidate) {
    if a.f != b.f then a.f > b.f
    else if a.g != b.g then a.g < b.g
    else a.node > b.node
  }

  predicate BetterFirst(a: Candidate, b: Candidate) {
    WorseFirst(b, a)
  }

  lemma TopExists(open: multiset<Candidate>)
    requires open != multiset{}
    ensures exists top :: top in open && forall c :: c in open ==> !WorseFirst(top, c)
  {
    var entries := set c | c in open;
    var some := MemberOf(open);
    assert some in entries;
    assert StrictTotalOrder(BetterFirst);
    LeastExists(entries, BetterFirst);
    var top :| IsLeast(top, entries, BetterFirst);
    forall c | c in open ensures !WorseFirst(top, c) {
      assert c in entries;
      assert c == top || BetterFirst(top, c);
    }
    assert top in open;
  }

  lemma MemberOf<T>(m: multiset<T>) returns (x: T)
    requires m != multiset{}
    ensures x in m
  {
    x :| x in m;
  }

  /** Takes the entry the queue has on top: none of the others should be visited sooner. */
  method Pop(open: multiset<Candidate>) returns (top: Candidate, rest: multiset<Candidate>)
    requires open != multiset{}
    ensures top in open && rest == open - multiset{top}
    ensures forall c :: c in open ==> !WorseFirst(top, c)
  {
    TopExists(open);
    top :| top in open && forall c :: c in open ==> !WorseFirst(top, c);
    rest := open - multiset{top};
  }

  /** The hash maps and the closed set hold exactly the front. */
  ghost predicate Holds(f: Front, best: map<Id, real>, cameFrom: map<Id, Via>, settled: set<Id>) {
    && settled == SettledSet(f)
    && best.Keys == f.labels.Keys
    && (forall v :: v in best ==> v in f.labels && best[v] == f.labels[v].cost)
    && (forall v :: v in f.labels ==> (v in cameFrom <==> f.labels[v].via.Some?))
    && (forall v :: v in cameFrom ==> v in f.labels && Some(cameFrom[v]) == f.labels[v].via)
  }

  /** Every open node waits in the queue at its best; every other entry for it is stale, hence worse. */
  ghost predicate Queued(n: Net, f: Front, open: multiset<Candidate>) {
    && (forall v :: v in f.labels && v !in f.settled ==> Candidate(F(n, f, v), G(f, v), v) in open)
    && (forall c :: c in open ==> c.node in f.labels && c.f == c.g + Estimate(n, c.node)
                                  && (c.node in f.settled || c.g >= G(f, c.node)))
  }

  lemma PoppedIsNext(n: Net, f: Front, open: multiset<Candidate>, top: Candidate)
    requires Queued(n, f, open) && top in open && forall c :: c in open ==> !WorseFirst(top, c)
    requires top.node !in f.settled
    ensures OpenNodes(f) != {} && top.node == Next(n, f) && top.g == G(f, top.node)
  {
    var x := top.node;
    assert x in OpenNodes(f);
    var own := Candidate(F(n, f, x), G(f, x), x);
    assert own in open && !WorseFirst(top, own);
    var u := Next(n, f);
    var due := Candidate(F(n, f, u), G(f, u), u);
    assert due in open && !WorseFirst(top, due);
    assert x == u || Sooner(n, f, u, x);
  }

  lemma StaleIsSkipped(n: Net, f: Front, open: multiset<Candidate>, top: Candidate)
    requires Queued(n, f, open) && top in open && top.node in f.settled
    ensures Queued(n, f, open - multiset{top})
  {
    var rest := open - multiset{top};
    forall v | v in f.labels && v !in f.settled ensures Candidate(F(n, f, v), G(f, v), v) in rest {
      assert Candidate(F(n, f, v), G(f, v), v) in open;
    }
  }

  lemma NothingQueued(n: Net, f: Front)
    requires Queued(n, f, multiset{})
    ensures OpenNodes(f) == {}
  {
    assert forall v :: v in f.labels && v !in f.settled ==> Candidate(F(n, f, v), G(f, v), v) in multiset{};
    assert forall v :: v !in OpenNodes(f);
  }

  lemma QueuedAfterPop(n: Net, f: Front, open: multiset<Candidate>, top: Candidate)
    requires Queued(n, f, open) && top in open && top.node !in f.settled
    ensures Queued(n, Front(f.settled + [top.node], f.labels), open - multiset{top})
  {
    var f1, rest := Front(f.settled + [top.node], f.labels), open - multiset{top};
    forall v | v in f1.labels && v !in f1.settled ensures Candidate(F(n, f1, v), G(f1, v), v) in rest {
      assert Candidate(F(n, f, v), G(f, v), v) in open;
      assert F(n, f1, v) == F(n, f, v);
    }
    forall c | c in rest ensures c.node in f1.settled || c.g >= G(f1, c.node) {
      assert c in open;
    }
  }

  lemma QueuedAfterPush(n: Net, f: Front, open: multiset<Candidate>, v: Id, mark: Label)
    requires Queued(n, f, open) && v !in f.settled
    requires v in f.labels ==> mark.cost <= G(f, v)
    ensures Queued(n, Front(f.settled, f.labels[v := mark]), open + multiset{Candidate(mark.cost + Estimate(n, v), mark.cost, v)})
  {
    var f2 := Front(f.settled, f.labels[v := mark]);
    var grown := open + multiset{Candidate(mark.cost + Estimate(n, v), mark.cost, v)};
    forall x | x in f2.labels && x !in f2.settled ensures Candidate(F(n, f2, x), G(f2, x), x) in grown {
      if x != v { assert Candidate(F(n, f, x), G(f, x), x) in open; }
    }
    forall c | c in grown
      ensures c.node in f2.labels && c.f == c.g + Estimate(n, c.node) && (c.node in f2.settled || c.g >= G(f2, c.node))
    {
      if c in open { assert c.node in f.labels; }
    }
  }

  lemma HoldsAfterWrite(f: Front, best: map<Id, real>, cameFrom: map<Id, Via>, settled: set<Id>, v: Id, cost: real,
                        via: Via)
    requires Holds(f, best, cameFrom, settled)
    ensures Holds(Front(f.settled, f.labels[v := Label(cost, Some(via))]), best[v := cost], cameFrom[v := via], settled)
  {
  }

  lemma HoldsAfterSettle(f: Front, best: map<Id, real>, cameFrom: map<Id, Via>, settled: set<Id>, u: Id)
    requires Holds(f, best, cameFrom, settled)
    ensures Holds(Front(f.settled + [u], f.labels), best, cameFrom, settled + {u})
  {
  }

  /** Only edges that lead somewhere allowed from `u` matter, so the expansion list will do. */
  lemma RelaxedByList(n: Net, f: Front, u: Id, edges: set<Id>)
    requires Out(n, u) <= edges
    ensures Relaxed(n, f, u, edges) == Relaxed(n, f, u, Out(n, u))
  {
    forall v ensures Into(n, u, edges, v) == Into(n, u, Out(n, u), v) {
      forall e | e in Into(n, u, edges, v) ensures e in Out(n, u) {
        assert Tail(u, e) in n.heads;
      }
    }
    forall v ensures Improved(n, f, u, edges, v) == Improved(n, f, u, Out(n, u), v) {
      assert Into(n, u, edges, v) == Into(n, u, Out(n, u), v);
      hide Into;
    }
    hide Improved, Into, Out;
    assert HeadsOf(n, u, edges) == HeadsOf(n, u, Out(n, u)) by { SameHeads(n, u, edges); }
  }

  lemma SameHeads(n: Net, u: Id, edges: set<Id>)
    requires Out(n, u) <= edges
    ensures HeadsOf(n, u, edges) == HeadsOf(n, u, Out(n, u))
  {
    forall e | e in edges && Tail(u, e) in n.heads ensures e in Out(n, u) {
    }
  }

  lemma OutIsListed(d: MapData, s: Settings, c: RouteConstraints, at: Time, goal: Id, u: Id)
    ensures Out(NetOf(d, s, c, at, goal), u) <= set e | e in TraversableEdges(d, u)
  {
    TraversableExactly(d, u);
    var n := NetOf(d, s, c, at, goal);
    forall e | e in Out(n, u) ensures e in TraversableEdges(d, u) {
      assert Tail(u, e) in n.heads;
      OppositeJoins(FindEdge(d, e).value, u);
      assert Leads(d, u, e, HeadOf(d, u, e));
    }
  }

  datatype SearchOutcome = SearchOutcome(nodes: seq<Id>, edges: seq<Id>, cost: real, expanded: nat, found: bool, hitLimit: bool)

  /** The outcome reports the result of the search, walk and all. */
  ghost predicate Reports(n: Net, start: Id, goal: Id, cap: nat, o: SearchOutcome) {
    WellFormed(n) && start in n.nodes &&
    match SearchFrom(n, start, goal, cap)
    case Found(f) =>
      && o.found && !o.hitLimit && o.cost == G(f, goal) && o.expanded == |f.settled|
      && o.nodes == WalkNodes(start, FoundWalk(n, start, goal, cap)) && o.edges == WalkEdges(FoundWalk(n, start, goal, cap))
    case Exhausted(f) => !o.found && !o.hitLimit && o.expanded == |f.settled|
    case LimitReached(f) => !o.found && o.hitLimit && o.expanded == |f.settled|
  }

  function WalkEdges(w: seq<Hop>): seq<Id> {
    seq(|w|, i requires 0 <= i < |w| => w[i].edge)
  }

  lemma RouteStep(n: Net, start: Id, f: Front, v: Id, k: nat) returns (j: nat)
    requires Sound(n, start, f) && k < |f.settled| && f.settled[k] == v && v != start
    ensures v in f.labels && f.labels[v].via.Some?
    ensures var via := f.labels[v].via.value;
            && j < k && f.settled[j] == via.node
            && WalkNodes(start, Optimality.Route(n, start, f, v, k)) == WalkNodes(start, Optimality.Route(n, start, f, via.node, j)) + [v]
            && WalkEdges(Optimality.Route(n, start, f, v, k)) == WalkEdges(Optimality.Route(n, start, f, via.node, j)) + [via.edge]
  {
    assert v in f.settled;
    assert Chained(n, f, v) && Before(f.settled, f.labels[v].via.value.node, v);
    var via := f.labels[v].via.value;
    j := EarlierIndex(f.settled, via.node, v, k);
    var front, w := Optimality.Route(n, start, f, via.node, j), Optimality.Route(n, start, f, v, k);
    hide Sound, Chained, Before, Optimality.Route;
    assert w == front + [Hop(via.edge, v)] && w[..|w| - 1] == front by { RouteUnfolds(n, start, f, v, k); }
  }

  lemma RouteUnfolds(n: Net, start: Id, f: Front, v: Id, k: nat)
    requires Sound(n, start, f) && k < |f.settled| && f.settled[k] == v && v != start
    ensures v in f.settled && Chained(n, f, v) && Before(f.settled, f.labels[v].via.value.node, v)
    ensures var via := f.labels[v].via.value;
            Optimality.Route(n, start, f, v, k) ==
              Optimality.Route(n, start, f, via.node, EarlierIndex(f.settled, via.node, v, k)) + [Hop(via.edge, v)]
  {
  }

  /** Walks the predecessor chain back from the goal. Every predecessor was settled strictly earlier,
      so the walk ends, and the lookup never misses. */
  method Reconstruct(cameFrom: map<Id, Via>, start: Id, goal: Id,
                     ghost n: Net, ghost f: Front, ghost best: map<Id, real>, ghost settled: set<Id>)
    returns (nodes: seq<Id>, edges: seq<Id>)
    requires Sound(n, start, f) && Holds(f, best, cameFrom, settled)
    requires f.settled != [] && f.settled[|f.settled| - 1] == goal
    ensures nodes == WalkNodes(start, Optimality.Route(n, start, f, goal, |f.settled| - 1))
    ensures edges == WalkEdges(Optimality.Route(n, start, f, goal, |f.settled| - 1))
  {
    hide Sound, Optimality.Route, WalkNodes, WalkEdges, Reversed;
    var cursor := goal;
    ghost var k: nat := |f.settled| - 1;
    ghost var whole := Optimality.Route(n, start, f, goal, k);
    nodes, edges := [], [];
    while cursor != start
      invariant k < |f.settled| && f.settled[k] == cursor
      invariant WalkNodes(start, whole) == WalkNodes(start, Optimality.Route(n, start, f, cursor, k)) + Reversed(nodes)
      invariant WalkEdges(whole) == WalkEdges(Optimality.Route(n, start, f, cursor, k)) + Reversed(edges)
      decreases k
    {
      ghost var j := RouteStep(n, start, f, cursor, k);
      PushReversed(nodes, cursor);
      PushReversed(edges, cameFrom[cursor].edge);
      nodes := nodes + [cursor];
      edges := edges + [cameFrom[cursor].edge];
      cursor := cameFrom[cursor].node;
      k := j;
    }
    StartRoute(n, start, f, k);
    PushReversed(nodes, start);
    nodes := nodes + [start];
    nodes, edges := Reversed(nodes), Reversed(edges);
  }

  lemma PushReversed(q: seq<Id>, x: Id)
    ensures Reversed(q + [x]) == [x] + Reversed(q)
  {
    assert (q + [x])[..|q|] == q;
  }

  lemma StartRoute(n: Net, start: Id, f: Front, k: nat)
    requires Sound(n, start, f) && k < |f.settled| && f.settled[k] == start
    ensures WalkNodes(start, Optimality.Route(n, start, f, start, k)) == [start]
    ensures WalkEdges(Optimality.Route(n, start, f, start, k)) == []
  {
  }

  /** For an edge of the expansion list, the remaining checks decide whether the network has the arc. */
  lemma ListedArc(d: MapData, s: Settings, q: RouteRequest, u: Id, e: Id)
    requires u in NodeIds(d) && e in TraversableEdges(d, u) && FindNode(d, q.goal).Some?
    ensures FindEdge(d, e).Some? && OppositeNode(FindEdge(d, e).value, u).Some?
    ensures var n, v := RequestNet(d, s, q), OppositeNode(FindEdge(d, e).value, u).value;
            && (Tail(u, e) in n.heads <==> AllowsEdge(q.constraints, e, ResourceForEdge(d, e)) && AllowsNode(q.constraints, v) && FindNode(d, v).Some?)
            && (Tail(u, e) in n.heads ==> n.heads[Tail(u, e)] == v)
            && Cost(n, e) == StepCost(d, s, q.constraints, q.currentTime, e)
            && (FindNode(d, v).Some? ==> Estimate(n, v) == s.heuristic(FindNode(d, v).value.position, FindNode(d, q.goal).value.position))
  {
    TraversableExactly(d, u);
    var v :| Leads(d, u, e, v);
    NetArcs(d, s, q.constraints, q.currentTime, q.goal, u, e, v);
    NetArcs(d, s, q.constraints, q.currentTime, q.goal, v, e, v);
    FoundNode(d, v);
    hide First, NetOf, StepCost, AllowsEdge, AllowsNode, TraversableFrom, OppositeNode, TraversableEdges;
  }

  /** The request reached its goal, whether or not a route could then be made of the walk. */
  ghost predicate WalkFound(d: MapData, s: Settings, q: RouteRequest) {
    Unplannable(d, q).None? &&
    (q.start == q.goal ||
     (FoundNode(d, q.start);
      SearchFrom(RequestNet(d, s, q), q.start, q.goal, s.maxExpansions).Found?))
  }

  class AStarPlanner {
    const world: Map
    const settings: Settings
    var routeSequence: nat

    constructor (w: Map, s: Settings)
      requires w.Valid()
      ensures world == w && settings == s && routeSequence == 0
    {
      world, settings, routeSequence := w, s, 0;
    }

    /** Considers one step out of `from` along `edgeId`. The lookup of the previous step into a labelled
        node always succeeds. */
    method Relax(q: RouteRequest, goalPosition: Position, from: Id, fromCost: real, edgeId: Id, settled: set<Id>,
                 best: map<Id, real>, cameFrom: map<Id, Via>, open: multiset<Candidate>, ghost f: Front)
      returns (best': map<Id, real>, cameFrom': map<Id, Via>, open': multiset<Candidate>)
      requires world.Valid() && Holds(f, best, cameFrom, settled) && Stepped(f)
      requires Queued(RequestNet(world.data, settings, q), f, open)
      requires from in NodeIds(world.data) && fromCost == G(f, from) && edgeId in TraversableEdges(world.data, from)
      requires FindNode(world.data, q.goal).Some? && goalPosition == FindNode(world.data, q.goal).value.position
      ensures var f2 := Front(f.settled, RelaxOne(RequestNet(world.data, settings, q), f, from, edgeId));
              && Holds(f2, best', cameFrom', settled) && Stepped(f2)
              && Queued(RequestNet(world.data, settings, q), f2, open')
    {
      hide Queued, Map.Valid, RequestNet, NetOf, FindEdge, FindNode, EdgeCost, TraversableFrom, OppositeNode,
           TraversableEdges,
           AllowsEdge, AllowsNode, NodeIds, ResourceForEdge, Cost, Estimate;
      ghost var d, n := world.data, RequestNet(world.data, settings, q);
      best', cameFrom', open' := best, cameFrom, open;
      ListedArc(d, settings, q, from, edgeId);
      var edge := world.EdgeAt(edgeId);
      if edge.None? {
        return;
      }
      var resource := world.ResourceOfEdge(edgeId);
      if !AllowsEdge(q.constraints, edgeId, resource) {
        return;
      }
      var next := OppositeNode(edge.value, from);
      if next.None? || next.value in settled || !AllowsNode(q.constraints, next.value) {
        return;
      }
      var nextNode := world.NodeAt(next.value);
      if nextNode.None? {
        return;
      }
      var step := EdgeCost(edge.value, resource, settings.weights, q.constraints, settings.traffic, q.currentTime);
      var cost := fromCost + step;
      if next.value in best {
        var cheaper := cost < best[next.value];
        var sameCostLowerEdge := cost == best[next.value] && edgeId < cameFrom[next.value].edge;
        if !cheaper && !sameCostLowerEdge {
          return;
        }
      }
      HoldsAfterWrite(f, best, cameFrom, settled, next.value, cost, Via(from, edgeId));
      QueuedAfterPush(n, f, open, next.value, Label(cost, Some(Via(from, edgeId))));
      best' := best[next.value := cost];
      cameFrom' := cameFrom[next.value := Via(from, edgeId)];
      open' := open + multiset{Candidate(cost + settings.heuristic(nextNode.value.position, goalPosition), cost, next.value)};
    }

    /** Settles the popped node's neighbours: every edge of the expansion list, in list order. */
    method Expand(q: RouteRequest, goalPosition: Position, u: Id, g: real, settled: set<Id>,
                  best: map<Id, real>, cameFrom: map<Id, Via>, open: multiset<Candidate>, ghost f: Front)
      returns (best': map<Id, real>, cameFrom': map<Id, Via>, open': multiset<Candidate>)
      requires world.Valid() && Holds(f, best, cameFrom, settled) && Stepped(f)
      requires Queued(RequestNet(world.data, settings, q), f, open)
      requires u in NodeIds(world.data) && u in f.settled && u in f.labels && g == G(f, u)
      requires FindNode(world.data, q.goal).Some? && goalPosition == FindNode(world.data, q.goal).value.position
      ensures var n := RequestNet(world.data, settings, q);
              var f2 := Front(f.settled, Relaxed(n, f, u, Out(n, u)));
              Holds(f2, best', cameFrom', settled) && Queued(n, f2, open') && Stepped(f2)
    {
      hide Queued, Holds, Map.Valid, RequestNet, NetOf, FindNode, TraversableEdges, NodeIds, Relaxed, RelaxOne, Stepped,
           Out, Improved;
      ghost var n := RequestNet(world.data, settings, q);
      best', cameFrom', open' := best, cameFrom, open;
      var ids := world.TraversableFromNode(u);
      RelaxNone(n, f, u);
      ghost var seen: set<Id> := {};
      for i := 0 to |ids|
        invariant seen == set e | e in ids[..i]
        invariant var fi := Front(f.settled, Relaxed(n, f, u, seen));
                  Holds(fi, best', cameFrom', settled) && Queued(n, fi, open') && Stepped(fi)
      {
        ghost var fi := Front(f.settled, Relaxed(n, f, u, seen));
        SettledCostKept(n, f, u, seen);
        RelaxOneMore(n, f, u, seen, ids[i]);
        assert ids[..i + 1] == ids[..i] + [ids[i]];
        best', cameFrom', open' := Relax(q, goalPosition, u, g, ids[i], settled, best', cameFrom', open', fi);
        seen := seen + {ids[i]};
      }
      assert ids[..|ids|] == ids;
      OutIsListed(world.data, settings, q.constraints, q.currentTime, q.goal, u);
      ExpandedAll(n, world.data, settings, q, f, u, seen);
    }

    /** The search itself. */
    method Search(q: RouteRequest, goalPosition: Position) returns (o: SearchOutcome)
      requires world.Valid() && Unplannable(world.data, q).None? && q.start != q.goal
      requires goalPosition == FindNode(world.data, q.goal).value.position
      ensures Reports(RequestNet(world.data, settings, q), q.start, q.goal, settings.maxExpansions, o)
    {
      hide Queued, Holds, Map.Valid, RequestNet, NetOf, FindNode, NodeIds, Relaxed, Stepped, Reports, Explore, Settle,
           FoundWalk, WalkNodes, WalkEdges;
      ghost var d, n := world.data, RequestNet(world.data, settings, q);
      FoundNode(d, q.start);
      var startNode := world.NodeAt(q.start);
      var best: map<Id, real>, cameFrom: map<Id, Via>, settled: set<Id> := map[q.start := 0.0], map[], {};
      var estimate := settings.heuristic(startNode.value.position, goalPosition);
      var open := multiset{Candidate(estimate, 0.0, q.start)};
      var expanded := 0;
      ghost var f := Initial(q.start);
      ghost var cap := settings.maxExpansions;
      SearchStarts(d, settings, q, best, cameFrom, settled, open);
      while open != multiset{}
        invariant Within(n, f) && Holds(f, best, cameFrom, settled) && Queued(n, f, open)
        invariant SearchFrom(n, q.start, q.goal, cap) == Explore(n, q.goal, cap, f)
        invariant StartRight(q.start, f) && (f.settled != [] ==> Stepped(f))
        invariant expanded == |f.settled|
        decreases n.nodes - SettledSet(f), |open|
      {
        var current, rest := Pop(open);
        ghost var waiting := open;
        open := rest;
        HeldSettled(f, best, cameFrom, settled, current.node);
        if current.node in settled {
          StaleIsSkipped(n, f, waiting, current);
        } else {
          PoppedIsNext(n, f, waiting, current);
          QueuedAfterPop(n, f, waiting, current);
          HoldsAfterSettle(f, best, cameFrom, settled, current.node);
          settled := settled + {current.node};
          expanded := expanded + 1;
          ghost var f1 := Front(f.settled + [current.node], f.labels);
          ExploreStep(n, q.goal, cap, f);
          if current.node == q.goal {
            var nodes, edges := Trace(cameFrom, q, n, f1, best, settled);
            o := SearchOutcome(nodes, edges, current.g, expanded, true, false);
            FoundReported(n, q.start, q.goal, cap, f1, o);
            return;
          }
          if settings.maxExpansions != 0 && expanded >= settings.maxExpansions {
            o := SearchOutcome([], [], 0.0, expanded, false, true);
            NotFoundReported(n, q.start, q.goal, cap, o);
            return;
          }
          SteppedAfterFirst(q.start, f, current.node);
          NextIsANode(d, settings, q, f, current.node);
          best, cameFrom, open := Expand(q, goalPosition, current.node, current.g, settled, best, cameFrom, open, f1);
          SettledMore(n, q.start, f, current.node);
          f := Settle(n, f, current.node);
        }
      }
      NothingQueued(n, f);
      ExploreStep(n, q.goal, cap, f);
      o := SearchOutcome([], [], 0.0, expanded, false, false);
      NotFoundReported(n, q.start, q.goal, cap, o);
    }

    /** Turns a node-and-edge walk into timed segments. */
    method Assemble(q: RouteRequest, nodes: seq<Id>, edges: seq<Id>, ghost w: seq<Hop>)
      returns (segments: seq<RouteSegment>, distance: real, estimatedTime: int)
      requires world.Valid() && nodes == WalkNodes(q.start, w) && edges == WalkEdges(w)
      ensures segments == Segments(world.data, q.start, q.currentTime, w)
      ensures distance == Distance(world.data, w) && estimatedTime == Arrival(world.data, q.currentTime, w) - q.currentTime
    {
      hide Map.Valid, FindEdge, NominalTravelTime;
      segments, distance := [], 0.0;
      var cursor := q.currentTime;
      WalkShape(world.data, q.start, q.currentTime, w);
      for i := 0 to |edges|
        invariant segments == Segments(world.data, q.start, q.currentTime, w[..i])
        invariant cursor == Arrival(world.data, q.currentTime, w[..i])
        invariant distance == Distance(world.data, w[..i])
      {
        assert w[..i + 1][..i] == w[..i];
        PrefixNodes(q.start, w, i);
        var edge := world.EdgeAt(edges[i]);
        var travel := if edge.None? then SMALLEST_SEGMENT
                      else if NominalTravelTime(edge.value) > SMALLEST_SEGMENT then NominalTravelTime(edge.value) else SMALLEST_SEGMENT;
        segments := segments + [RouteSegment(edges[i], nodes[i], nodes[i + 1], i, Some(Span(cursor, cursor + travel)))];
        cursor := cursor + travel;
        if edge.Some? {
          distance := distance + edge.value.length;
        }
      }
      assert w[..|w|] == w;
      estimatedTime := cursor - q.currentTime;
    }

    /** Plans one route. */
    method PlanRoute(q: RouteRequest, started: Time) returns (result: PlanResult)
      requires world.Valid()
      modifies this
      ensures result == Plan(world.data, settings, q, old(routeSequence) + 1, started)
      ensures routeSequence == old(routeSequence) + if WalkFound(world.data, settings, q) then 1 else 0
    {
      hide Map.Valid, RequestNet, NetOf, FindNode, WalkNodes, WalkEdges, Segments, Distance, Arrival, FoundWalk,
           SearchFrom, Connected;
      ghost var d := world.data;
      if q.robot == EMPTY_ID || q.start == EMPTY_ID || q.goal == EMPTY_ID {
        return Failed(InvalidRequest);
      }
      if world.NodeAt(q.start).None? {
        return Failed(UnknownStart);
      }
      var goalNode := world.NodeAt(q.goal);
      if goalNode.None? {
        return Failed(UnknownGoal);
      }
      if !AllowsNode(q.constraints, q.start) {
        return Failed(BlockedStart);
      }
      if !AllowsNode(q.constraints, q.goal) {
        return Failed(BlockedGoal);
      }
      var outcome;
      ghost var w: seq<Hop> := [];
      if q.start == q.goal {
        outcome := SearchOutcome([q.start], [], 0.0, 1, true, false);
        StayingPut(q.start);
      } else {
        FoundNode(d, q.start);
        outcome := Search(q, goalNode.value.position);
        if outcome.found {
          w := FoundWalk(RequestNet(d, settings, q), q.start, q.goal, settings.maxExpansions);
        }
      }
      if !outcome.found {
        return Failed(if outcome.hitLimit then SearchLimitReached else NoRoute);
      }
      routeSequence := routeSequence + 1;
      var segments, distance, time := Assemble(q, outcome.nodes, outcome.edges, w);
      if !Connected(q.robot, outcome.nodes, segments) {
        return Failed(NoRoute);
      }
      var route := Routes.Route(RouteId(q.robot, routeSequence), q.robot, outcome.nodes, segments, world.data.version, started);
      return Planned(RouteResponse(route, distance, time, outcome.cost, outcome.expanded));
    }

    /** What driving a route costs now; nothing when it uses an edge this map lacks. */
    method EstimateRouteCost(route: Routes.Route, c: RouteConstraints, at: Time) returns (total: Option<real>)
      requires world.Valid()
      ensures total == RouteCost(world.data, settings, c, at, route.segments)
    {
      hide Map.Valid, FindEdge, EdgeCost;
      var sum := 0.0;
      for i := 0 to |route.segments|
        invariant RouteCost(world.data, settings, c, at, route.segments[..i]) == Some(sum)
      {
        assert route.segments[..i + 1][..i] == route.segments[..i];
        var edge := world.EdgeAt(route.segments[i].edge);
        if edge.None? {
          MissingEdge(world.data, settings, c, at, route.segments, i);
          return None;
        }
        sum := sum + EdgeCost(edge.value, world.ResourceOfEdge(route.segments[i].edge), settings.weights, c, settings.traffic, at);
      }
      assert route.segments[..|route.segments|] == route.segments;
      return Some(sum);
    }

    method Trace(cameFrom: map<Id, Via>, q: RouteRequest, ghost n: Net, ghost f: Front, ghost best: map<Id, real>,
                 ghost settled: set<Id>)
      returns (nodes: seq<Id>, edges: seq<Id>)
      requires WellFormed(n) && q.start in n.nodes && SearchFrom(n, q.start, q.goal, settings.maxExpansions) == Found(f)
      requires Holds(f, best, cameFrom, settled)
      ensures nodes == WalkNodes(q.start, FoundWalk(n, q.start, q.goal, settings.maxExpansions))
      ensures edges == WalkEdges(FoundWalk(n, q.start, q.goal, settings.maxExpansions))
    {
      hide Sound, Holds, Optimality.Route, WalkNodes, WalkEdges, Explore;
      FoundWalkIs(n, q.start, q.goal, settings.maxExpansions);
      nodes, edges := Reconstruct(cameFrom, q.start, q.goal, n, f, best, settled);
    }
  }

  lemma {:induction false} MissingEdge(d: MapData, s: Settings, c: RouteConstraints, at: Time,
                                       segments: seq<RouteSegment>, i: nat)
    requires i < |segments| && FindEdge(d, segments[i].edge).None?
    ensures RouteCost(d, s, c, at, segments).None?
    decreases |segments|
  {
    hide FindEdge, StepCost;
    if i < |segments| - 1 {
      assert segments[..|segments| - 1][i] == segments[i];
      MissingEdge(d, s, c, at, segments[..|segments| - 1], i);
    }
  }

  lemma StayingPut(start: Id)
    ensures WalkNodes(start, []) == [start] && WalkEdges([]) == [] && EndOf(start, []) == start
  {
  }

  lemma {:induction false} PrefixNodes(start: Id, w: seq<Hop>, i: nat)
    requires i < |w|
    ensures |WalkNodes(start, w)| == |w| + 1
    ensures WalkNodes(start, w)[i] == EndOf(start, w[..i]) && WalkNodes(start, w)[i + 1] == w[i].to
    decreases |w|
  {
    var front := w[..|w| - 1];
    if i < |w| - 1 {
      PrefixNodes(start, front, i);
      assert front[..i] == w[..i];
    } else {
      NodesLength(start, front);
      assert w[..i] == front;
    }
  }

  lemma {:induction false} NodesLength(start: Id, w: seq<Hop>)
    ensures |WalkNodes(start, w)| == |w| + 1 && WalkNodes(start, w)[|w|] == EndOf(start, w)
  {
    if w != [] { NodesLength(start, w[..|w| - 1]); }
  }

  lemma SettledCostKept(n: Net, f: Front, u: Id, edges: set<Id>)
    requires u in f.settled && u in f.labels
    ensures G(Front(f.settled, Relaxed(n, f, u, edges)), u) == G(f, u)
  {
    RelaxedMember(n, f, u, edges, u);
    hide Relaxed, Into;
  }

  lemma ExpandedAll(n: Net, d: MapData, s: Settings, q: RouteRequest, f: Front, u: Id, seen: set<Id>)
    requires n == RequestNet(d, s, q) && Out(NetOf(d, s, q.constraints, q.currentTime, q.goal), u) <= seen
    ensures Relaxed(n, f, u, seen) == Relaxed(n, f, u, Out(n, u))
  {
    hide NetOf, Relaxed, Out;
    RelaxedByList(n, f, u, seen);
  }

  lemma SearchStarts(d: MapData, s: Settings, q: RouteRequest, best: map<Id, real>, cameFrom: map<Id, Via>,
                     settled: set<Id>, open: multiset<Candidate>)
    requires Unplannable(d, q).None? && best == map[q.start := 0.0] && cameFrom == map[] && settled == {}
    requires FindNode(d, q.start).Some? && FindNode(d, q.goal).Some?
    requires open == multiset{Candidate(s.heuristic(FindNode(d, q.start).value.position, FindNode(d, q.goal).value.position), 0.0, q.start)}
    ensures var n, f := RequestNet(d, s, q), Initial(q.start);
            q.start in n.nodes && Within(n, f) && Holds(f, best, cameFrom, settled) && Queued(n, f, open) && StartRight(q.start, f)
  {
    FoundNode(d, q.start);
    NetArcs(d, s, q.constraints, q.currentTime, q.goal, q.start, 0, 0);
    hide NetOf, FindNode;
  }

  lemma HeldSettled(f: Front, best: map<Id, real>, cameFrom: map<Id, Via>, settled: set<Id>, v: Id)
    requires Holds(f, best, cameFrom, settled)
    ensures v in settled <==> v in f.settled
  {
  }

  lemma ExploreStep(n: Net, goal: Id, cap: nat, f: Front)
    requires Within(n, f)
    ensures OpenNodes(f) == {} ==> Explore(n, goal, cap, f) == Exhausted(f)
    ensures OpenNodes(f) != {} ==>
      var u := Next(n, f);
      var f1 := Front(f.settled + [u], f.labels);
      && Within(n, Settle(n, f, u))
      && Explore(n, goal, cap, f) ==
           if u == goal then Found(f1)
           else if cap != 0 && |f1.settled| >= cap then LimitReached(f1)
           else Explore(n, goal, cap, Settle(n, f, u))
  {
    if OpenNodes(f) != {} { SettleWithin(n, f, Next(n, f)); }
    hide Settle, Next;
  }

  lemma FoundReported(n: Net, start: Id, goal: Id, cap: nat, f: Front, o: SearchOutcome)
    requires WellFormed(n) && start in n.nodes && SearchFrom(n, start, goal, cap) == Found(f)
    requires o.found && !o.hitLimit && o.cost == G(f, goal) && o.expanded == |f.settled|
    requires o.nodes == WalkNodes(start, FoundWalk(n, start, goal, cap)) && o.edges == WalkEdges(FoundWalk(n, start, goal, cap))
    ensures Reports(n, start, goal, cap, o)
  {
  }

  lemma NotFoundReported(n: Net, start: Id, goal: Id, cap: nat, o: SearchOutcome)
    requires WellFormed(n) && start in n.nodes && !SearchFrom(n, start, goal, cap).Found? && !o.found
    requires o.hitLimit == SearchFrom(n, start, goal, cap).LimitReached? && o.expanded == |SearchFrom(n, start, goal, cap).front.settled|
    ensures Reports(n, start, goal, cap, o)
  {
  }

  lemma SteppedAfterFirst(start: Id, f: Front, u: Id)
    requires StartRight(start, f) && (f.settled != [] ==> Stepped(f)) && u in f.labels && u !in f.settled
    ensures Stepped(Front(f.settled + [u], f.labels))
  {
  }

  lemma NextIsANode(d: MapData, s: Settings, q: RouteRequest, f: Front, u: Id)
    requires Within(RequestNet(d, s, q), f) && u in f.labels
    ensures u in NodeIds(d)
  {
  }

  lemma SettledMore(n: Net, start: Id, f: Front, u: Id)
    requires Within(n, f) && StartRight(start, f) && u in f.labels && u !in f.settled
    ensures var f2 := Settle(n, f, u);
            && f2 == Front(f.settled + [u], Relaxed(n, Front(f.settled + [u], f.labels), u, Out(n, u)))
            && StartRight(start, f2) && SettledSet(f2) == SettledSet(f) + {u} && |f2.settled| == |f.settled| + 1 && u in n.nodes
  {
    SettleLabels(n, f, u, start);
    hide Relaxed, Out, Arc;
  }
}
