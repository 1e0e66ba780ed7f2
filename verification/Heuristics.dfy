/** When the straight-line estimate may be trusted: the triangle inequality, the least a metre can
    cost, and exactly which edges keep the estimate consistent. */
module Heuristics {
  import opened Core
  import opened Graph
  import opened MapIndex
  import opened CostModel
  import opened Routes
  import opened Search
  import opened Optimality
  import opened Planning

  // ------------------------------------------------------------- straight-line distance

  function Square(x: real): real {
    x * x
  }

  function SquaredDistance(a: Position, b: Position): real {
    Square(b.x - a.x) + Square(b.y - a.y) + Square(b.z - a.z)
  }

  /** `dist` is the Euclidean distance: the non-negative root of the sum of squares. */
  ghost predicate IsEuclidean(dist: (Position, Position) -> real) {
    forall a, b :: dist(a, b) >= 0.0 && Square(dist(a, b)) == SquaredDistance(a, b)
  }

  lemma SquareIsNonNegative(x: real)
    ensures Square(x) >= 0.0
  {
  }

  lemma PositiveProduct(p: real, q: real, product: real)
    requires p > 0.0 && q > 0.0 && product == p * q
    ensures product > 0.0
  {
  }

  lemma NonZeroSquare(x: real)
    requires x != 0.0
    ensures Square(x) > 0.0
  {
    if x > 0.0 {
      PositiveProduct(x, x, Square(x));
    } else {
      PositiveProduct(-x, -x, Square(x));
    }
  }

  lemma ZeroSquare(x: real)
    requires Square(x) == 0.0
    ensures x == 0.0
  {
    hide Square;
    if x != 0.0 {
      NonZeroSquare(x);
    }
  }

  lemma SquareOfSum(x: real, y: real)
    ensures Square(x + y) == Square(x) + 2.0 * (x * y) + Square(y)
  {
  }

  lemma SquareOfScaledDifference(p: real, u: real, q: real, v: real)
    ensures Square(q * u - p * v) == Square(q) * Square(u) - 2.0 * ((p * q) * (u * v)) + Square(p) * Square(v)
  {
    assert (q * u) * (p * v) == (p * q) * (u * v);
    assert (q * u) * (q * u) == Square(q) * Square(u);
    assert (p * v) * (p * v) == Square(p) * Square(v);
  }

  lemma Distribute(k: real, a: real, b: real, c: real)
    ensures k * (a + b + c) == k * a + k * b + k * c
  {
  }

  lemma PositiveFactor(k: real, x: real)
    requires k > 0.0 && k * x >= 0.0
    ensures x >= 0.0
  {
  }

  /** The Cauchy-Schwarz inequality for three coordinates, with both lengths given. */
  lemma DotIsBounded(u1: real, u2: real, u3: real, v1: real, v2: real, v3: real, p: real, q: real)
    requires p >= 0.0 && Square(p) == Square(u1) + Square(u2) + Square(u3)
    requires q >= 0.0 && Square(q) == Square(v1) + Square(v2) + Square(v3)
    ensures u1 * v1 + u2 * v2 + u3 * v3 <= p * q
  {
    hide Square;
    if p == 0.0 {
      assert Square(p) == 0.0 by { ZeroIsSquared(); }
      AllZero(u1, u2, u3);
    } else if q == 0.0 {
      assert Square(q) == 0.0 by { ZeroIsSquared(); }
      AllZero(v1, v2, v3);
    } else {
      PositiveProduct(p, q, p * q);
      ScaledBound(p, u1, q, v1);
      ScaledBound(p, u2, q, v2);
      ScaledBound(p, u3, q, v3);
      Distribute(Square(q), Square(u1), Square(u2), Square(u3));
      Distribute(Square(p), Square(v1), Square(v2), Square(v3));
      SquareOfProduct(p, q);
      CommonFactor(p * q, u1 * v1, u2 * v2, u3 * v3);
    }
  }

  lemma CommonFactor(k: real, a: real, b: real, c: real)
    requires k > 0.0 && k * k - (k * a + k * b + k * c) >= 0.0
    ensures a + b + c <= k
  {
    Distribute(k, a, b, c);
    assert k * (k - (a + b + c)) == k * k - k * (a + b + c);
    PositiveFactor(k, k - (a + b + c));
  }

  lemma ZeroIsSquared()
    ensures Square(0.0) == 0.0
  {
  }

  lemma ScaledBound(p: real, u: real, q: real, v: real)
    ensures Square(q) * Square(u) - 2.0 * ((p * q) * (u * v)) + Square(p) * Square(v) >= 0.0
  {
    SquareOfScaledDifference(p, u, q, v);
    SquareIsNonNegative(q * u - p * v);
  }

  lemma SquareOfProduct(p: real, q: real)
    ensures Square(q) * Square(p) == (p * q) * (p * q)
    ensures Square(p) * Square(q) == (p * q) * (p * q)
  {
    assert (q * q) * (p * p) == (p * q) * (p * q);
  }

  lemma AllZero(a: real, b: real, c: real)
    requires Square(a) + Square(b) + Square(c) == 0.0
    ensures a == 0.0 && b == 0.0 && c == 0.0
  {
    SquareIsNonNegative(a);
    SquareIsNonNegative(b);
    SquareIsNonNegative(c);
    ZeroSquare(a);
    ZeroSquare(b);
    ZeroSquare(c);
  }

  lemma SquareGrows(r: real, t: real)
    requires r > t >= 0.0
    ensures Square(r) > Square(t)
  {
    assert (r - t) * (r + t) == Square(r) - Square(t);
    PositiveProduct(r - t, r + t, Square(r) - Square(t));
  }

  lemma RootIsMonotone(r: real, t: real)
    requires t >= 0.0 && Square(r) <= Square(t)
    ensures r <= t
  {
    hide Square;
    if r > t {
      SquareGrows(r, t);
    }
  }

  /** Going through `b` is never shorter than going straight. */
  lemma TriangleInequality(dist: (Position, Position) -> real, a: Position, b: Position, c: Position)
    requires IsEuclidean(dist)
    ensures dist(a, c) <= dist(a, b) + dist(b, c)
  {
    var p, q, r := dist(a, b), dist(b, c), dist(a, c);
    var u1, u2, u3 := b.x - a.x, b.y - a.y, b.z - a.z;
    var v1, v2, v3 := c.x - b.x, c.y - b.y, c.z - b.z;
    assert c.x - a.x == u1 + v1 && c.y - a.y == u2 + v2 && c.z - a.z == u3 + v3;
    hide Square;
    DotIsBounded(u1, u2, u3, v1, v2, v3, p, q);
    SquareOfSum(u1, v1);
    SquareOfSum(u2, v2);
    SquareOfSum(u3, v3);
    SquareOfSum(p, q);
    assert Square(r) <= Square(p + q);
    RootIsMonotone(r, p + q);
  }

  // ------------------------------------------------------------- the fastest edge

  /** The largest speed limit on the map, disabled edges included; zero when there is none above it. */
  ghost predicate IsTopSpeed(edges: seq<Edge>, top: real) {
    && top >= 0.0
    && (forall e :: e in edges ==> e.speedLimit <= top)
    && (top == 0.0 || exists e :: e in edges && e.speedLimit == top)
  }

  method MaxSpeedLimit(world: Map) returns (fastest: real)
    ensures IsTopSpeed(world.data.edges, fastest)
  {
    var edges := world.data.edges;
    fastest := 0.0;
    for i := 0 to |edges|
      invariant IsTopSpeed(edges[..i], fastest)
    {
      ghost var before := edges[..i];
      assert edges[..i + 1] == before + [edges[i]];
      if edges[i].speedLimit > fastest {
        fastest := edges[i].speedLimit;
        assert edges[i] in edges[..i + 1];
      }
    }
    assert edges[..|edges|] == edges;
  }

  // ------------------------------------------------------------- the bound on one edge

  ghost predicate NonNegativeTraffic(t: Conditions) {
    (forall r :: t.congestion(r) >= 0.0) && (forall r, at :: t.expectedWait(r, at) >= 0)
  }

  function EdgeSeconds(edge: Edge): real {
    Seconds(NominalTravelTime(edge))
  }

  /** The edge is at least as long as the straight line and takes at least as long as driving
      that line at the map's top speed. */
  predicate Bounded(edge: Edge, straight: real, top: real) {
    if top <= 0.0 then edge.length >= 0.0 && EdgeSeconds(edge) >= 0.0
    else straight <= edge.length && straight <= EdgeSeconds(edge) * top
  }

  /** Whatever valid weights, constraints and traffic are in force, `straight` metres at the least
      cost per metre never come to more than driving the edge. */
  ghost predicate NeverOverestimates(edge: Edge, straight: real, top: real) {
    forall w, r, c, traffic, at :: ValidWeights(w) && NonNegativeTraffic(traffic) ==>
      MinCostPerMetre(w, top) * straight <= EdgeCost(edge, r, w, c, traffic, at)
  }

  /** The time part of the bound, for one weight. */
  lemma TimeTerm(weight: real, top: real, straight: real, seconds: real)
    requires weight >= 0.0 && top > 0.0 && straight <= seconds * top
    ensures weight / top * straight <= weight * seconds
  {
    Scale(weight / top, straight, seconds * top);
    assert weight / top * (seconds * top) == weight * seconds by {
      DivideOut(weight, top, seconds);
    }
  }

  lemma DivideOut(weight: real, top: real, seconds: real)
    requires top > 0.0
    ensures weight / top * (seconds * top) == weight * seconds
  {
    var rate := weight / top;
    assert rate * top == weight;
    assert rate * (seconds * top) == (rate * top) * seconds;
  }

  /** The undiscounted cost of driving the edge on an empty map. */
  function BareCost(edge: Edge, w: CostWeights): real {
    w.distance * edge.length + w.travelTime * EdgeSeconds(edge)
  }

  lemma CostIsAtLeastBare(edge: Edge, r: Id, w: CostWeights, c: RouteConstraints, traffic: Conditions, at: Time)
    requires ValidWeights(w) && NonNegativeTraffic(traffic) && BareCost(edge, w) >= 0.0
    ensures EdgeCost(edge, r, w, c, traffic, at) >= w.preferredFactor * BareCost(edge, w)
  {
    var busy, wait := traffic.congestion(r), Seconds(traffic.expectedWait(r, at));
    assert busy >= 0.0 && traffic.expectedWait(r, at) >= 0;
    SecondsAreNonNegative(traffic.expectedWait(r, at));
    Scale(w.congestion, 0.0, busy);
    Scale(w.waiting, 0.0, wait);
    SameCost(edge, r, w, c, traffic, at, BareCost(edge, w), busy, wait);
    hide *;
    DiscountKeepsShare(BareCost(edge, w), w.congestion * busy, w.waiting * wait, w.preferredFactor);
  }

  /** A discount leaves at least its share of every part. */
  lemma DiscountKeepsShare(bare: real, x: real, y: real, factor: real)
    requires bare >= 0.0 && x >= 0.0 && y >= 0.0 && 0.0 < factor <= 1.0
    ensures (bare + x + y) * factor >= factor * bare
    ensures bare + x + y >= factor * bare
  {
    Scale(factor, bare, bare + x + y);
    Scale(bare, factor, 1.0);
  }

  lemma SameCost(edge: Edge, r: Id, w: CostWeights, c: RouteConstraints, traffic: Conditions, at: Time, bare: real,
                 busy: real, wait: real)
    requires bare == BareCost(edge, w) && busy == traffic.congestion(r) && wait == Seconds(traffic.expectedWait(r, at))
    ensures EdgeCost(edge, r, w, c, traffic, at) ==
      if r in c.preferredResources then (bare + w.congestion * busy + w.waiting * wait) * w.preferredFactor
      else bare + w.congestion * busy + w.waiting * wait
  {
    hide Seconds, NominalTravelTime;
  }

  lemma SecondsAreNonNegative(duration: int)
    requires duration >= 0
    ensures Seconds(duration) >= 0.0
  {
  }

  lemma BoundedIsEnough(edge: Edge, straight: real, top: real, w: CostWeights)
    requires Bounded(edge, straight, top) && straight >= 0.0 && ValidWeights(w)
    ensures BareCost(edge, w) >= 0.0
    ensures MinCostPerMetre(w, top) * straight <= w.preferredFactor * BareCost(edge, w)
  {
    hide EdgeSeconds, BareCost, MinCostPerMetre;
    BareCostIs(edge, w);
    MinCostIs(w, top);
    if top <= 0.0 {
      NoBoundIsKept(w.distance, w.travelTime, w.preferredFactor, edge.length, EdgeSeconds(edge));
    } else {
      RateIsKept(w.distance, w.travelTime, w.preferredFactor, top, straight, edge.length, EdgeSeconds(edge));
    }
  }

  lemma NoBoundIsKept(distance: real, time: real, factor: real, length: real, seconds: real)
    requires distance >= 0.0 && time >= 0.0 && factor > 0.0 && length >= 0.0 && seconds >= 0.0
    ensures 0.0 <= distance * length + time * seconds
    ensures 0.0 <= factor * (distance * length + time * seconds)
  {
    Scale(distance, 0.0, length);
    Scale(time, 0.0, seconds);
    Scale(factor, 0.0, distance * length + time * seconds);
  }

  lemma RateIsKept(distance: real, time: real, factor: real, top: real, straight: real, length: real, seconds: real)
    requires distance >= 0.0 && time >= 0.0 && factor > 0.0 && top > 0.0
    requires 0.0 <= straight <= length && straight <= seconds * top
    ensures 0.0 <= distance * length + time * seconds
    ensures factor * (distance + time / top) * straight <= factor * (distance * length + time * seconds)
  {
    RatesAreBounded(distance, time, top, straight, length, seconds);
    var rate := distance + time / top;
    Scale(factor, rate * straight, distance * length + time * seconds);
    Associate(factor, rate, straight);
  }

  lemma MinCostIs(w: CostWeights, top: real)
    ensures top <= 0.0 ==> MinCostPerMetre(w, top) == 0.0
    ensures top > 0.0 ==> MinCostPerMetre(w, top) == w.preferredFactor * (w.distance + w.travelTime / top)
  {
  }

  lemma BareCostIs(edge: Edge, w: CostWeights)
    ensures BareCost(edge, w) == w.distance * edge.length + w.travelTime * EdgeSeconds(edge)
  {
  }

  lemma RatesAreBounded(distance: real, time: real, top: real, straight: real, length: real, seconds: real)
    requires distance >= 0.0 && time >= 0.0 && top > 0.0 && 0.0 <= straight <= length && straight <= seconds * top
    ensures 0.0 <= (distance + time / top) * straight <= distance * length + time * seconds
  {
    Scale(distance, straight, length);
    TimeTerm(time, top, straight, seconds);
    Scale(distance, 0.0, straight);
    var pace := time / top;
    Scale(pace, 0.0, straight);
    assert (distance + pace) * straight == distance * straight + pace * straight;
  }

  lemma Associate(a: real, b: real, c: real)
    ensures (a * b) * c == a * (b * c)
  {
  }

  const BY_DISTANCE := CostWeights(1.0, 0.0, 0.0, 0.0, 1.0)
  const BY_TIME := CostWeights(0.0, 1.0, 0.0, 0.0, 1.0)

  /** Each condition is needed: weighing only distance, or only time, breaks the bound without it. */
  lemma TwoWeightsDecide(edge: Edge, straight: real, top: real)
    requires MinCostPerMetre(BY_DISTANCE, top) * straight <= BareCost(edge, BY_DISTANCE)
    requires MinCostPerMetre(BY_TIME, top) * straight <= BareCost(edge, BY_TIME)
    ensures Bounded(edge, straight, top)
  {
    hide EdgeSeconds;
    if top > 0.0 {
      var seconds := EdgeSeconds(edge);
      assert straight <= edge.length by { assert 0.0 / top == 0.0; }
      assert 1.0 / top * straight <= seconds;
      Scale(top, 1.0 / top * straight, seconds);
      assert top * (1.0 / top * straight) == straight by { Associate(top, 1.0 / top, straight); }
    }
  }

  lemma BoundedIsNeeded(edge: Edge, straight: real, top: real)
    requires NeverOverestimates(edge, straight, top)
    ensures Bounded(edge, straight, top)
  {
    FreeFlowIsNonNegative();
    hide EdgeCost, MinCostPerMetre, FreeFlow, NonNegativeTraffic, BareCost, Bounded;
    assert MinCostPerMetre(BY_DISTANCE, top) * straight <= EdgeCost(edge, 0, BY_DISTANCE, NO_CONSTRAINTS, FreeFlow(), 0);
    assert MinCostPerMetre(BY_TIME, top) * straight <= EdgeCost(edge, 0, BY_TIME, NO_CONSTRAINTS, FreeFlow(), 0);
    hide NeverOverestimates;
    FreeCost(edge, 0, BY_DISTANCE);
    FreeCost(edge, 0, BY_TIME);
    TwoWeightsDecide(edge, straight, top);
  }

  lemma FreeFlowIsNonNegative()
    ensures NonNegativeTraffic(FreeFlow())
  {
  }

  lemma FreeCost(edge: Edge, r: Id, w: CostWeights)
    ensures EdgeCost(edge, r, w, NO_CONSTRAINTS, FreeFlow(), 0) == BareCost(edge, w)
  {
    SameCost(edge, r, w, NO_CONSTRAINTS, FreeFlow(), 0, BareCost(edge, w), 0.0, 0.0);
    hide BareCost, EdgeCost;
  }

  /** The per-metre bound is never too high across an edge exactly when the edge is bounded. */
  lemma BoundIsExact(edge: Edge, straight: real, top: real)
    requires straight >= 0.0
    ensures NeverOverestimates(edge, straight, top) <==> Bounded(edge, straight, top)
  {
    if Bounded(edge, straight, top) {
      forall w, r, c, traffic, at | ValidWeights(w) && NonNegativeTraffic(traffic)
        ensures MinCostPerMetre(w, top) * straight <= EdgeCost(edge, r, w, c, traffic, at)
      {
        BoundedIsEnough(edge, straight, top, w);
        CostIsAtLeastBare(edge, r, w, c, traffic, at);
        hide *;
      }
    } else if NeverOverestimates(edge, straight, top) {
      BoundedIsNeeded(edge, straight, top);
    }
  }

  /** Without an override, an edge no slower than the top speed takes long enough, provided its
      travel time is a whole number of nanoseconds. */
  lemma UntruncatedTimeIsBounded(edge: Edge, top: real)
    requires edge.travelTimeOverride.None? && 0.0 < edge.speedLimit <= top && edge.length >= 0.0
    requires var exact := edge.length / edge.speedLimit * NANOS_PER_SECOND as real; exact == exact.Floor as real
    ensures edge.length <= EdgeSeconds(edge) * top
  {
    var time := edge.length / edge.speedLimit;
    assert time >= 0.0;
    var exact := time * NANOS_PER_SECOND as real;
    assert NominalTravelTime(edge) == exact.Floor;
    assert EdgeSeconds(edge) == time;
    hide NominalTravelTime, EdgeSeconds;
    assert time * edge.speedLimit == edge.length;
    Scale(time, edge.speedLimit, top);
  }

  // ------------------------------------------------------------- consistency on the map

  /** The planner is set up with the straight-line heuristic scaled by the least cost per metre. */
  ghost predicate StraightLine(d: MapData, s: Settings, dist: (Position, Position) -> real, top: real) {
    && IsEuclidean(dist) && IsTopSpeed(d.edges, top)
    && ValidWeights(s.weights) && NonNegativeTraffic(s.traffic)
    && forall a, b :: s.heuristic(a, b) == MinCostPerMetre(s.weights, top) * dist(a, b)
  }

  /** The straight line along a step from `u` over `e`. */
  function StepLength(d: MapData, dist: (Position, Position) -> real, u: Id, e: Id): real {
    match (FindNode(d, u), FindNode(d, HeadOf(d, u, e)))
    case (Some(a), Some(b)) => dist(a.position, b.position)
    case _ => 0.0
  }

  /** `e` can be driven from `u`, and both ends of the step are on the map. */
  predicate KnownStep(d: MapData, u: Id, e: Id) {
    && FindEdge(d, e).Some? && TraversableFrom(FindEdge(d, e).value, u)
    && FindNode(d, u).Some? && FindNode(d, HeadOf(d, u, e)).Some?
  }

  /** Every edge is bounded in each direction it can be driven between nodes of the map. */
  ghost predicate EveryStepBounded(d: MapData, dist: (Position, Position) -> real, top: real) {
    forall u, e :: KnownStep(d, u, e) ==> Bounded(FindEdge(d, e).value, StepLength(d, dist, u, e), top)
  }

  lemma RateIsNonNegative(w: CostWeights, top: real)
    requires ValidWeights(w)
    ensures MinCostPerMetre(w, top) >= 0.0
  {
    if top > 0.0 {
      assert w.travelTime / top >= 0.0;
      Scale(w.preferredFactor, 0.0, w.distance + w.travelTime / top);
    }
  }

  /** The estimate drops along a straight step by at most the scaled step. */
  lemma EstimateDrops(dist: (Position, Position) -> real, rate: real, a: Position, b: Position, goal: Position)
    requires IsEuclidean(dist) && rate >= 0.0
    ensures rate * dist(a, goal) <= rate * dist(a, b) + rate * dist(b, goal)
  {
    TriangleInequality(dist, a, b, goal);
    hide IsEuclidean;
    Scale(rate, dist(a, goal), dist(a, b) + dist(b, goal));
    assert rate * (dist(a, b) + dist(b, goal)) == rate * dist(a, b) + rate * dist(b, goal);
  }

  lemma StepIsBounded(d: MapData, s: Settings, q: RouteRequest, dist: (Position, Position) -> real, top: real, u: Id,
                      e: Id)
    requires StraightLine(d, s, dist, top) && EveryStepBounded(d, dist, top)
    requires FindNode(d, u).Some? && Usable(d, q.constraints, u, e)
    ensures MinCostPerMetre(s.weights, top) * StepLength(d, dist, u, e) <= StepCost(d, s, q.constraints, q.currentTime, e)
  {
    hide FindEdge, FindNode, HeadOf, Usable, StepLength, StepCost, Bounded, EveryStepBounded, IsEuclidean, IsTopSpeed,
         ValidWeights, NonNegativeTraffic, MinCostPerMetre, BareCost;
    UsableStep(d, q.constraints, dist, top, u, e);
    StepLengthIsNonNegative(d, dist, u, e);
    BoundedIsEnough(FindEdge(d, e).value, StepLength(d, dist, u, e), top, s.weights);
    StepCostIsAtLeastBare(d, s, q, e);
  }

  lemma UsableStep(d: MapData, c: RouteConstraints, dist: (Position, Position) -> real, top: real, u: Id, e: Id)
    requires EveryStepBounded(d, dist, top) && FindNode(d, u).Some? && Usable(d, c, u, e)
    ensures FindEdge(d, e).Some? && Bounded(FindEdge(d, e).value, StepLength(d, dist, u, e), top)
  {
    hide FindEdge, FindNode, HeadOf, StepLength, Bounded, TraversableFrom, ResourceForEdge;
    assert KnownStep(d, u, e);
  }

  lemma StepLengthIsNonNegative(d: MapData, dist: (Position, Position) -> real, u: Id, e: Id)
    requires IsEuclidean(dist)
    ensures StepLength(d, dist, u, e) >= 0.0
  {
    hide FindNode, HeadOf;
  }

  lemma StepCostIsAtLeastBare(d: MapData, s: Settings, q: RouteRequest, e: Id)
    requires FindEdge(d, e).Some? && ValidWeights(s.weights) && NonNegativeTraffic(s.traffic)
    requires BareCost(FindEdge(d, e).value, s.weights) >= 0.0
    ensures StepCost(d, s, q.constraints, q.currentTime, e) >= s.weights.preferredFactor * BareCost(FindEdge(d, e).value, s.weights)
  {
    CostIsAtLeastBare(FindEdge(d, e).value, ResourceForEdge(d, e), s.weights, q.constraints, s.traffic, q.currentTime);
    hide FindEdge, ResourceForEdge, BareCost, EdgeCost;
  }

  /** The straight-line heuristic is consistent on every request's network. */
  lemma StraightLineIsConsistent(d: MapData, s: Settings, q: RouteRequest, dist: (Position, Position) -> real,
                                 top: real)
    requires StraightLine(d, s, dist, top) && EveryStepBounded(d, dist, top) && FindNode(d, q.goal).Some?
    ensures Consistent(RequestNet(d, s, q))
  {
    var n, rate := RequestNet(d, s, q), MinCostPerMetre(s.weights, top);
    RateIsNonNegative(s.weights, top);
    forall u, e, v | Arc(n, u, e, v) ensures Estimate(n, u) <= Cost(n, e) + Estimate(n, v) {
      ArcIsConsistent(d, s, q, dist, top, u, e, v);
    }
  }

  lemma ArcIsConsistent(d: MapData, s: Settings, q: RouteRequest, dist: (Position, Position) -> real, top: real, u: Id,
                        e: Id, v: Id)
    requires StraightLine(d, s, dist, top) && EveryStepBounded(d, dist, top) && FindNode(d, q.goal).Some?
    requires Arc(RequestNet(d, s, q), u, e, v)
    ensures Estimate(RequestNet(d, s, q), u) <= Cost(RequestNet(d, s, q), e) + Estimate(RequestNet(d, s, q), v)
  {
    var rate := MinCostPerMetre(s.weights, top);
    RateIsNonNegative(s.weights, top);
    NetArcs(d, s, q.constraints, q.currentTime, q.goal, u, e, v);
    NetArcs(d, s, q.constraints, q.currentTime, q.goal, v, e, v);
    FoundNode(d, u);
    FoundNode(d, v);
    StepIsBounded(d, s, q, dist, top, u, e);
    hide *;
    StepIsStraight(d, s, q, dist, top, u, e, v);
  }

  lemma StepIsStraight(d: MapData, s: Settings, q: RouteRequest, dist: (Position, Position) -> real, top: real, u: Id,
                       e: Id, v: Id)
    requires StraightLine(d, s, dist, top) && MinCostPerMetre(s.weights, top) >= 0.0
    requires FindNode(d, q.goal).Some? && FindNode(d, u).Some? && v == HeadOf(d, u, e) && FindNode(d, v).Some?
    ensures Remaining(d, s, q.goal, u) <=
      MinCostPerMetre(s.weights, top) * StepLength(d, dist, u, e) + Remaining(d, s, q.goal, v)
  {
    hide FindNode, HeadOf, MinCostPerMetre, IsEuclidean, IsTopSpeed, NonNegativeTraffic, ValidWeights;
    EstimateDrops(dist, MinCostPerMetre(s.weights, top), FindNode(d, u).value.position, FindNode(d, v).value.position,
                  FindNode(d, q.goal).value.position);
  }

  // ------------------------------------------------------------- and only there

  /** However the planner is weighted, whatever the traffic, the constraints and the goal. */
  ghost predicate AlwaysConsistent(d: MapData, dist: (Position, Position) -> real, top: real) {
    forall s, q: RouteRequest :: StraightLine(d, s, dist, top) && FindNode(d, q.goal).Some? ==> Consistent(RequestNet(d, s, q))
  }

  function Scaled(dist: (Position, Position) -> real, rate: real): (Position, Position) -> real {
    (a, b) => rate * dist(a, b)
  }

  /** The straight-line planner with these weights on an empty map. */
  function Weighing(dist: (Position, Position) -> real, top: real, w: CostWeights): Settings {
    Settings(w, FreeFlow(), Scaled(dist, MinCostPerMetre(w, top)), 0)
  }

  /** From the start of a step to its head. */
  function Along(d: MapData, u: Id, e: Id): RouteRequest {
    RouteRequest(1, u, HeadOf(d, u, e), 0, NO_CONSTRAINTS)
  }

  lemma WeighingIsStraightLine(d: MapData, dist: (Position, Position) -> real, top: real, w: CostWeights)
    requires IsEuclidean(dist) && IsTopSpeed(d.edges, top) && ValidWeights(w)
    ensures StraightLine(d, Weighing(dist, top, w), dist, top)
  {
    FreeFlowIsNonNegative();
    hide IsEuclidean, IsTopSpeed, NonNegativeTraffic, MinCostPerMetre, ValidWeights;
  }

  lemma NoDistanceToItself(dist: (Position, Position) -> real, a: Position)
    requires IsEuclidean(dist)
    ensures dist(a, a) == 0.0
  {
    ZeroIsSquared();
    ZeroSquare(dist(a, a));
    hide Square;
  }

  lemma KnownStepIsUsable(d: MapData, u: Id, e: Id)
    requires KnownStep(d, u, e)
    ensures u in NodeIds(d) && Usable(d, NO_CONSTRAINTS, u, e)
  {
    FoundNode(d, u);
    hide FindNode, FindEdge, HeadOf, TraversableFrom, NodeIds, ResourceForEdge;
  }

  /** Taking the goal to be the head of the step makes its own estimate zero: a consistent estimate
      then never exceeds the cost of the step. */
  lemma ConsistentStep(d: MapData, dist: (Position, Position) -> real, top: real, w: CostWeights, u: Id, e: Id)
    requires IsEuclidean(dist) && KnownStep(d, u, e)
    requires Consistent(RequestNet(d, Weighing(dist, top, w), Along(d, u, e)))
    ensures MinCostPerMetre(w, top) * StepLength(d, dist, u, e) <= BareCost(FindEdge(d, e).value, w)
  {
    var s, q, v := Weighing(dist, top, w), Along(d, u, e), HeadOf(d, u, e);
    var n := RequestNet(d, s, q);
    KnownStepIsUsable(d, u, e);
    FoundNode(d, v);
    NetArcs(d, s, q.constraints, q.currentTime, q.goal, u, e, v);
    NetArcs(d, s, q.constraints, q.currentTime, q.goal, v, e, v);
    assert Estimate(n, u) <= Cost(n, e) + Estimate(n, v) by { assert Arc(n, u, e, v); }
    FreeCost(FindEdge(d, e).value, ResourceForEdge(d, e), w);
    NoDistanceToItself(dist, FindNode(d, v).value.position);
    hide RequestNet, NetOf, FindNode, FindEdge, HeadOf, Usable, ResourceForEdge, EdgeCost, BareCost, MinCostPerMetre,
         IsEuclidean,
         Consistent, Arc, NodeIds, TraversableFrom, FreeFlow, Cost, Estimate;
    RemainingAlong(d, dist, top, w, u, e);
    assert StepCost(d, s, NO_CONSTRAINTS, 0, e) == BareCost(FindEdge(d, e).value, w);
  }

  lemma RemainingAlong(d: MapData, dist: (Position, Position) -> real, top: real, w: CostWeights, u: Id, e: Id)
    requires KnownStep(d, u, e) && dist(FindNode(d, HeadOf(d, u, e)).value.position, FindNode(d, HeadOf(d, u, e)).value.position) == 0.0
    ensures Remaining(d, Weighing(dist, top, w), HeadOf(d, u, e), u) == MinCostPerMetre(w, top) * StepLength(d, dist, u, e)
    ensures Remaining(d, Weighing(dist, top, w), HeadOf(d, u, e), HeadOf(d, u, e)) == 0.0
  {
    hide FindNode, FindEdge, HeadOf, TraversableFrom, MinCostPerMetre, FreeFlow;
  }

  /** The exact condition on the map: the straight-line heuristic is consistent for all settings and
      requests if and only if every step is at least as long as the straight line and takes at least as
      long as driving it at top speed. */
  lemma ConsistencyIsExactlyBounded(d: MapData, dist: (Position, Position) -> real, top: real)
    requires IsEuclidean(dist) && IsTopSpeed(d.edges, top)
    ensures AlwaysConsistent(d, dist, top) <==> EveryStepBounded(d, dist, top)
  {
    hide IsEuclidean, IsTopSpeed, Consistent, RequestNet, Bounded, StepLength, FindEdge, FindNode, Weighing, HeadOf;
    if EveryStepBounded(d, dist, top) {
      forall s, q: RouteRequest | StraightLine(d, s, dist, top) && FindNode(d, q.goal).Some? ensures Consistent(RequestNet(d, s, q)) {
        StraightLineIsConsistent(d, s, q, dist, top);
      }
    }
    if AlwaysConsistent(d, dist, top) {
      forall u, e | KnownStep(d, u, e) ensures Bounded(FindEdge(d, e).value, StepLength(d, dist, u, e), top) {
        ConsistentIsBounded(d, dist, top, u, e);
      }
    }
  }

  lemma ConsistentIsBounded(d: MapData, dist: (Position, Position) -> real, top: real, u: Id, e: Id)
    requires IsEuclidean(dist) && IsTopSpeed(d.edges, top) && AlwaysConsistent(d, dist, top) && KnownStep(d, u, e)
    ensures Bounded(FindEdge(d, e).value, StepLength(d, dist, u, e), top)
  {
    assert ValidWeights(BY_DISTANCE) && ValidWeights(BY_TIME);
    WeighingIsStraightLine(d, dist, top, BY_DISTANCE);
    WeighingIsStraightLine(d, dist, top, BY_TIME);
    assert FindNode(d, Along(d, u, e).goal).Some?;
    hide IsEuclidean, IsTopSpeed, Consistent, RequestNet, KnownStep, Bounded, StepLength, FindEdge, FindNode, HeadOf,
         Weighing,
         StraightLine, BareCost, MinCostPerMetre, ValidWeights, Along;
    ConsistentStep(d, dist, top, BY_DISTANCE, u, e);
    ConsistentStep(d, dist, top, BY_TIME, u, e);
    TwoWeightsDecide(FindEdge(d, e).value, StepLength(d, dist, u, e), top);
  }

  /** Ten metres of aisle whose override says one second, on a map whose top speed is a metre a second. */
  function OverrideMap(): MapData {
    MapData(1,
            [Node(1, Position(0.0, 0.0, 0.0), 1, EMPTY_ID), Node(2, Position(10.0, 0.0, 0.0), 1, EMPTY_ID)],
            [Edge(3, 1, 2, 10.0, 1.0, Bidirectional, 1, EMPTY_ID, Some(NANOS_PER_SECOND), true)], [], [], [])
  }

  lemma OverrideMapLookups()
    ensures IsTopSpeed(OverrideMap().edges, 1.0)
    ensures FindEdge(OverrideMap(), 3) == Some(OverrideMap().edges[0])
    ensures FindNode(OverrideMap(), 1) == Some(OverrideMap().nodes[0]) && FindNode(OverrideMap(), 2) == Some(OverrideMap().nodes[1])
  {
    var d := OverrideMap();
    FirstFound(d.edges, EdgeId, 3, 0);
    FirstFound(d.nodes, NodeId, 1, 0);
    FirstFound(d.nodes, NodeId, 2, 1);
    assert d.edges[0] in d.edges && d.edges[0].speedLimit == 1.0;
  }

  lemma TenMetres(dist: (Position, Position) -> real)
    requires IsEuclidean(dist)
    ensures dist(Position(0.0, 0.0, 0.0), Position(10.0, 0.0, 0.0)) == 10.0
  {
    var a, b := Position(0.0, 0.0, 0.0), Position(10.0, 0.0, 0.0);
    assert dist(a, b) >= 0.0 && Square(dist(a, b)) == SquaredDistance(a, b);
    SquaredTenMetres();
    hide *;
    RootIsMonotone(dist(a, b), 10.0);
    RootIsMonotone(10.0, dist(a, b));
  }

  lemma SquaredTenMetres()
    ensures SquaredDistance(Position(0.0, 0.0, 0.0), Position(10.0, 0.0, 0.0)) == Square(10.0)
  {
  }

  /** An override faster than the map's top speed makes the heuristic inconsistent: here the estimate
      is ten, the step costs one, and the head of the step is the goal. */
  lemma FastOverrideIsInconsistent(dist: (Position, Position) -> real)
    requires IsEuclidean(dist)
    ensures StraightLine(OverrideMap(), Weighing(dist, 1.0, BY_TIME), dist, 1.0)
    ensures !Consistent(RequestNet(OverrideMap(), Weighing(dist, 1.0, BY_TIME), Along(OverrideMap(), 1, 3)))
  {
    var d := OverrideMap();
    OverrideMapLookups();
    WeighingIsStraightLine(d, dist, 1.0, BY_TIME);
    TenMetres(dist);
    assert HeadOf(d, 1, 3) == 2 && KnownStep(d, 1, 3) && StepLength(d, dist, 1, 3) == 10.0;
    assert BareCost(d.edges[0], BY_TIME) == 1.0 && MinCostPerMetre(BY_TIME, 1.0) == 1.0;
    hide Consistent, RequestNet, Weighing, KnownStep, StepLength, FindEdge, BareCost, MinCostPerMetre, StraightLine,
         OverrideMap, IsEuclidean;
    if Consistent(RequestNet(d, Weighing(dist, 1.0, BY_TIME), Along(d, 1, 3))) {
      ConsistentStep(d, dist, 1.0, BY_TIME, 1, 3);
    }
  }

  /** Put together: on a map of bounded edges the planner set up with the straight-line heuristic
      returns a route no allowed walk undercuts. */
  lemma StraightLinePlansAreOptimal(d: MapData, s: Settings, q: RouteRequest, dist: (Position, Position) -> real,
                                    top: real,
                                    sequence: nat, started: Time)
    requires StraightLine(d, s, dist, top) && EveryStepBounded(d, dist, top)
    ensures var result := Plan(d, s, q, sequence, started);
            result.Planned? ==> NoCheaperWalk(RequestNet(d, s, q), q.start, q.goal, result.response.cost)
  {
    hide StraightLine, EveryStepBounded, Plan, NoCheaperWalk, RequestNet, IsWalk;
    if Plan(d, s, q, sequence, started).Planned? {
      var w := PlannedWalk(d, s, q, sequence, started);
      StraightLineIsConsistent(d, s, q, dist, top);
      PlannedRouteIsOptimal(d, s, q, sequence, started);
    }
  }

  /** With the zero heuristic, consistency is just that no usable edge has a negative cost. */
  lemma ZeroIsConsistent(d: MapData, s: Settings, q: RouteRequest)
    requires forall a, b :: s.heuristic(a, b) == 0.0
    ensures Consistent(RequestNet(d, s, q)) <==>
      forall u, e :: u in NodeIds(d) && Usable(d, q.constraints, u, e) ==> StepCost(d, s, q.constraints, q.currentTime, e) >= 0.0
  {
    var n := RequestNet(d, s, q);
    forall u, e, v ensures Arc(n, u, e, v) <==> u in NodeIds(d) && Usable(d, q.constraints, u, e) && v == HeadOf(d, u, e)
      ensures FindEdge(d, e).Some? ==> Cost(n, e) == StepCost(d, s, q.constraints, q.currentTime, e)
      ensures Estimate(n, u) == 0.0
    {
      NetArcs(d, s, q.constraints, q.currentTime, q.goal, u, e, v);
    }
    forall u, e ensures Usable(d, q.constraints, u, e) ==> FindEdge(d, e).Some? {
      UsableEdgeFound(d, q.constraints, u, e);
    }
    hide RequestNet, NetOf, Usable, HeadOf, StepCost, Arc, Cost, Estimate, FindEdge;
    if Consistent(n) {
      forall u, e | u in NodeIds(d) && Usable(d, q.constraints, u, e)
        ensures StepCost(d, s, q.constraints, q.currentTime, e) >= 0.0
      {
        assert Arc(n, u, e, HeadOf(d, u, e));
      }
    }
  }

  // ------------------------------------------------------------- checking the geometry

  const TOLERANCE := 0.000001

  predicate LongEnough(d: MapData, dist: (Position, Position) -> real, edge: Edge) {
    && FindNode(d, edge.fromNode).Some? && FindNode(d, edge.toNode).Some?
    && edge.length + TOLERANCE >= dist(FindNode(d, edge.fromNode).value.position, FindNode(d, edge.toNode).value.position)
  }

  /** True exactly when both ends of every edge are on the map and no edge is materially shorter than the straight line. */
  method GeometrySupportsDistance(world: Map, dist: (Position, Position) -> real) returns (ok: bool)
    requires world.Valid()
    ensures ok <==> forall e :: e in world.data.edges ==> LongEnough(world.data, dist, e)
  {
    hide FindNode, MapIndex.Map.Valid;
    var edges := world.data.edges;
    for i := 0 to |edges|
      invariant forall j :: 0 <= j < i ==> LongEnough(world.data, dist, edges[j])
    {
      var from, to := world.NodeAt(edges[i].fromNode), world.NodeAt(edges[i].toNode);
      assert edges[i] in edges;
      if from.None? || to.None? {
        return false;
      }
      if edges[i].length + TOLERANCE < dist(from.value.position, to.value.position) {
        return false;
      }
    }
    return true;
  }

  /** Slack of `t` metres in the edge costs the estimate at most `t` metres' worth of consistency. */
  lemma NearlyBounded(edge: Edge, straight: real, top: real, t: real, w: CostWeights, r: Id, c: RouteConstraints,
                      traffic: Conditions, at: Time)
    requires t >= 0.0 && straight >= 0.0 && top > 0.0 && edge.length >= 0.0 && EdgeSeconds(edge) >= 0.0
    requires straight <= edge.length + t && straight <= EdgeSeconds(edge) * top + t
    requires ValidWeights(w) && NonNegativeTraffic(traffic)
    ensures MinCostPerMetre(w, top) * straight <= EdgeCost(edge, r, w, c, traffic, at) + MinCostPerMetre(w, top) * t
  {
    var rate := MinCostPerMetre(w, top);
    RateIsNonNegative(w, top);
    var least := if straight > t then straight - t else 0.0;
    Scale(EdgeSeconds(edge), 0.0, top);
    hide EdgeSeconds, MinCostPerMetre, EdgeCost, BareCost, NonNegativeTraffic, ValidWeights;
    assert Bounded(edge, least, top);
    hide *;
    BoundedIsEnough(edge, least, top, w);
    CostIsAtLeastBare(edge, r, w, c, traffic, at);
    Scale(rate, straight, least + t);
    assert rate * (least + t) == rate * least + rate * t;
  }
}
