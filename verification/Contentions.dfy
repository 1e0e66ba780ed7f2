/** Which contentions a fleet's routes and reservations contain, as a set: what six passes look for,
    and how several descriptions of one contention are reduced to one. No order enters anywhere. */
module Contentions {
  import opened Core
  import opened Ordering
  import opened Graph
  import opened Claims
  import opened Routes
  import opened ConflictRules
  import opened RouteReading

  /** A finding. The smaller robot id always comes first. */
  datatype Candidate = Candidate(robotA: Id, robotB: Id, resource: Id, kind: ConflictType, overlap: TimeWindow)

  function MakeCandidate(first: Id, second: Id, resource: Id, kind: ConflictType,
                         overlap: Option<TimeWindow>): Option<Candidate> {
    if overlap.None? || resource == EMPTY_ID || first == second then None
    else if first < second then Some(Candidate(first, second, resource, kind, overlap.value))
    else Some(Candidate(second, first, resource, kind, overlap.value))
  }

  /** Everything one pass over the fleet compares. */
  datatype Scene = Scene(
    visits: set<NodeVisit>, traversals: set<EdgeTraversal>, passages: set<CorridorPassage>, crossings: set<IntersectionCrossing>)

  function OfReservation(r: Reservation): Occupancy {
    Occupancy(r.robot, r.resource, r.window)
  }

  function Holding(reservations: set<Reservation>): set<Reservation> {
    set r | r in reservations && HoldsResource(r.state)
  }

  // ------------------------------------------------------------- the six passes

  function NodeCapacity(d: MapData, node: Id): nat {
    match FindNode(d, node) case Some(n) => n.capacity case None => 1
  }

  function VisitsAt(visits: set<NodeVisit>, node: Id): set<Occupancy> {
    set v | v in visits && v.node == node :: OfVisit(v)
  }

  ghost function NodePair(d: MapData, visits: set<NodeVisit>, x: NodeVisit, y: NodeVisit): Option<Candidate> {
    if NodeConflict(x, y) && Overfull(OfVisit(x), OfVisit(y), VisitsAt(visits, x.node), NodeCapacity(d, x.node))
    then MakeCandidate(x.robot, y.robot, x.node, NodeClash, OverlapOf(x.window, y.window)) else None
  }

  function TraversalsOf(traversals: set<EdgeTraversal>, edge: Id): set<Occupancy> {
    set t | t in traversals && t.edge == edge :: OfTraversal(t)
  }

  ghost function EdgePair(d: MapData, traversals: set<EdgeTraversal>, x: EdgeTraversal,
                          y: EdgeTraversal): Option<Candidate> {
    var kind := ClassifyEdgeConflict(x, y);
    var resource := TraversedResource(d, x.edge);
    if kind.Some? && Overfull(OfTraversal(x), OfTraversal(y), TraversalsOf(traversals, x.edge), CapacityOf(d, resource))
    then MakeCandidate(x.robot, y.robot, resource, kind.value, OverlapOf(x.window, y.window)) else None
  }

  function PassagesThrough(passages: set<CorridorPassage>, corridor: Id): set<Occupancy> {
    set p | p in passages && p.corridor == corridor :: OfPassage(p)
  }

  ghost function CorridorKind(corridor: Corridor, holders: set<Occupancy>, x: CorridorPassage,
                              y: CorridorPassage): Option<ConflictType> {
    if CorridorHeadOn(corridor, x, y) then Some(HeadOn)
    else if Overfull(OfPassage(x), OfPassage(y), holders, corridor.capacity) then Some(CorridorClash)
    else None
  }

  ghost function CorridorPair(d: MapData, passages: set<CorridorPassage>, x: CorridorPassage,
                              y: CorridorPassage): Option<Candidate> {
    var corridor := FindCorridor(d, x.corridor);
    if corridor.None? || x.corridor != y.corridor then None
    else
      match CorridorKind(corridor.value, PassagesThrough(passages, x.corridor), x, y)
      case Some(kind) => MakeCandidate(x.robot, y.robot, x.corridor, kind, OverlapOf(x.window, y.window))
      case None => None
  }

  ghost function CrossingPair(d: MapData, x: IntersectionCrossing, y: IntersectionCrossing): Option<Candidate> {
    var crossing := FindIntersection(d, x.intersection);
    if crossing.Some? && x.intersection == y.intersection && CrossingConflict(crossing.value, x, y)
    then MakeCandidate(x.robot, y.robot, x.intersection, Crossing, OverlapOf(x.window, y.window)) else None
  }

  function ClaimsOn(held: set<Reservation>, resource: Id): set<Occupancy> {
    set r | r in held && r.resource == resource :: OfReservation(r)
  }

  ghost function ReservationPair(d: MapData, held: set<Reservation>, x: Reservation,
                                 y: Reservation): Option<Candidate> {
    if ConflictsWith(x, y) && Overfull(OfReservation(x), OfReservation(y), ClaimsOn(held, x.resource), CapacityOf(d, x.resource))
    then MakeCandidate(x.robot, y.robot, x.resource, ResourceClash, OverlapOf(x.window, y.window)) else None
  }

  function RouteClaims(s: Scene): set<Occupancy> {
    (set v | v in s.visits :: OfVisit(v)) + (set t | t in s.traversals :: OfTraversal(t))
    + (set p | p in s.passages :: OfPassage(p)) + (set c | c in s.crossings :: OfCrossing(c))
  }

  function Grants(held: set<Reservation>): set<Occupancy> {
    set r | r in held :: OfReservation(r)
  }

  function On(holders: set<Occupancy>, resource: Id): set<Occupancy> {
    set h | h in holders && h.resource == resource
  }

  /** A route wanting what a reservation already withholds. */
  ghost function GrantPair(d: MapData, everyone: set<Occupancy>, grant: Occupancy,
                           claim: Occupancy): Option<Candidate> {
    if Overfull(grant, claim, On(everyone, grant.resource), CapacityOf(d, grant.resource))
    then MakeCandidate(grant.robot, claim.robot, grant.resource, Temporal, OverlapOf(grant.window, claim.window)) else None
  }

  // Each pass as a rule on pairs.

  ghost function NodeRule(d: MapData, visits: set<NodeVisit>): (NodeVisit, NodeVisit) -> Option<Candidate> {
    (x: NodeVisit, y: NodeVisit) => NodePair(d, visits, x, y)
  }

  ghost function EdgeRule(d: MapData, traversals: set<EdgeTraversal>): (EdgeTraversal,
                          EdgeTraversal) -> Option<Candidate> {
    (x: EdgeTraversal, y: EdgeTraversal) => EdgePair(d, traversals, x, y)
  }

  ghost function CorridorRule(d: MapData, passages: set<CorridorPassage>): (CorridorPassage,
                              CorridorPassage) -> Option<Candidate> {
    (x: CorridorPassage, y: CorridorPassage) => CorridorPair(d, passages, x, y)
  }

  ghost function CrossingRule(d: MapData): (IntersectionCrossing, IntersectionCrossing) -> Option<Candidate> {
    (x: IntersectionCrossing, y: IntersectionCrossing) => CrossingPair(d, x, y)
  }

  ghost function ReservationRule(d: MapData, held: set<Reservation>): (Reservation, Reservation) -> Option<Candidate> {
    (x: Reservation, y: Reservation) => ReservationPair(d, held, x, y)
  }

  ghost function GrantRule(d: MapData, everyone: set<Occupancy>): (Occupancy, Occupancy) -> Option<Candidate> {
    (x: Occupancy, y: Occupancy) => GrantPair(d, everyone, x, y)
  }

  /** What a rule finds between an element of `xs` and one of `ys`. */
  ghost function Between<T(!new)>(xs: set<T>, ys: set<T>, rule: (T, T) -> Option<Candidate>): set<Candidate> {
    set x, y | x in xs && y in ys && rule(x, y).Some? :: rule(x, y).value
  }

  ghost function Candidates(d: MapData, s: Scene, reservations: set<Reservation>): set<Candidate> {
    var held, claims := Holding(reservations), RouteClaims(s);
    Between(s.visits, s.visits, NodeRule(d, s.visits))
    + Between(s.traversals, s.traversals, EdgeRule(d, s.traversals))
    + Between(s.passages, s.passages, CorridorRule(d, s.passages))
    + Between(s.crossings, s.crossings, CrossingRule(d))
    + Between(held, held, ReservationRule(d, held))
    + Between(Grants(held), claims, GrantRule(d, Grants(held) + claims))
  }

  /** Everything one route asks for. */
  function RouteScene(d: MapData, r: Route, b: SafetyBuffer): Scene {
    Scene(Listed(Collected(VisitReader(d, r, b), |r.nodes|)), Listed(Collected(TraversalReader(d, r), |r.segments|)),
          Listed(Collected(PassageReader(d, r), |r.segments|)), Listed(Collected(CrossingReader(d, r, b), |r.nodes|)))
  }

  /** Everything the routes of a fleet ask for. */
  function SceneOf(d: MapData, routes: set<Route>, b: SafetyBuffer): Scene {
    Scene(set r, v | r in routes && v in RouteScene(d, r, b).visits :: v,
          set r, t | r in routes && t in RouteScene(d, r, b).traversals :: t,
          set r, p | r in routes && p in RouteScene(d, r, b).passages :: p,
          set r, c | r in routes && c in RouteScene(d, r, b).crossings :: c)
  }

  /** The traversals name the resource that admits robots to their edge, as route reading makes them do. */
  predicate NamesResources(d: MapData, traversals: set<EdgeTraversal>) {
    forall t :: t in traversals ==> t.resource == TraversedResource(d, t.edge)
  }

  lemma SceneNamesResources(d: MapData, routes: set<Route>, b: SafetyBuffer)
    ensures NamesResources(d, SceneOf(d, routes, b).traversals)
  {
    hide TraversedResource;
    forall t | t in SceneOf(d, routes, b).traversals ensures t.resource == TraversedResource(d, t.edge) {
      var r :| r in routes && t in RouteScene(d, r, b).traversals;
      CollectedMembers(TraversalReader(d, r), |r.segments|);
    }
  }

  // ------------------------------------------------------------- one conflict per contention

  /** Two robots and the resource they contend for, whichever rule noticed it. */
  datatype ContentionKey = ContentionKey(robotA: Id, robotB: Id, resource: Id)

  function KeyOf(c: Candidate): ContentionKey {
    ContentionKey(c.robotA, c.robotB, c.resource)
  }

  predicate KeyBefore(a: ContentionKey, b: ContentionKey) {
    if a.robotA != b.robotA then a.robotA < b.robotA
    else if a.robotB != b.robotB then a.robotB < b.robotB
    else a.resource < b.resource
  }

  lemma KeyOrder()
    ensures StrictTotalOrder(KeyBefore)
  {
  }

  /** Higher precedence first; then the earlier meeting; then the one over sooner. */
  predicate Better(a: Candidate, b: Candidate) {
    if Precedence(a.kind) != Precedence(b.kind) then Precedence(a.kind) > Precedence(b.kind)
    else if a.overlap.start != b.overlap.start then a.overlap.start < b.overlap.start
    else a.overlap.end < b.overlap.end
  }

  ghost predicate IsBest(c: Candidate, candidates: set<Candidate>) {
    c in candidates && forall x :: x in candidates && KeyOf(x) == KeyOf(c) ==> !Better(x, c)
  }

  lemma BetterIsTransitive(a: Candidate, b: Candidate, c: Candidate)
    requires Better(a, b) && Better(b, c)
    ensures Better(a, c)
  {
    hide Precedence;
  }

  /** Two candidates for one contention that neither improves on the other are the same candidate. */
  lemma BetterSeparates(a: Candidate, b: Candidate)
    requires KeyOf(a) == KeyOf(b) && !Better(a, b) && !Better(b, a)
    ensures a == b
  {
  }

  lemma BestIsUnique(a: Candidate, b: Candidate, candidates: set<Candidate>)
    requires IsBest(a, candidates) && IsBest(b, candidates) && KeyOf(a) == KeyOf(b)
    ensures a == b
  {
    BetterSeparates(a, b);
  }

  /** One more candidate: it becomes the best of its contention, or changes nothing. */
  lemma BestWithOneMore(best: Candidate, c: Candidate, candidates: set<Candidate>)
    requires IsBest(best, candidates) && KeyOf(best) == KeyOf(c)
    ensures IsBest(if Better(c, best) then c else best, candidates + {c})
  {
    var all := candidates + {c};
    if Better(c, best) {
      forall x | x in all && KeyOf(x) == KeyOf(c) ensures !Better(x, c) {
        if x != c && Better(x, c) { BetterIsTransitive(x, c, best); }
        NotBetterThanItself(c);
      }
    }
  }

  lemma NotBetterThanItself(c: Candidate)
    ensures !Better(c, c)
  {
  }

  lemma FirstIsBest(c: Candidate, candidates: set<Candidate>)
    requires forall x :: x in candidates ==> KeyOf(x) != KeyOf(c)
    ensures IsBest(c, candidates + {c})
  {
    NotBetterThanItself(c);
  }

  lemma OtherStaysBest(best: Candidate, c: Candidate, candidates: set<Candidate>)
    requires IsBest(best, candidates) && KeyOf(best) != KeyOf(c)
    ensures IsBest(best, candidates + {c})
  {
  }

  ghost function Keys(candidates: set<Candidate>): set<ContentionKey> {
    set c | c in candidates :: KeyOf(c)
  }

  lemma {:induction false} BestExists(candidates: set<Candidate>, key: ContentionKey)
    requires key in Keys(candidates)
    ensures exists c :: IsBest(c, candidates) && KeyOf(c) == key
    decreases |candidates|
  {
    hide Better;
    var c :| c in candidates && KeyOf(c) == key;
    var rest := candidates - {c};
    assert rest + {c} == candidates;
    if key in Keys(rest) {
      BestExists(rest, key);
      var best :| IsBest(best, rest) && KeyOf(best) == key;
      BestWithOneMore(best, c, rest);
    } else {
      assert forall x :: x in rest ==> KeyOf(x) in Keys(rest);
      FirstIsBest(c, rest);
    }
  }

  ghost function Best(candidates: set<Candidate>, key: ContentionKey): (c: Candidate)
    requires key in Keys(candidates)
    ensures IsBest(c, candidates) && KeyOf(c) == key
  {
    BestExists(candidates, key);
    var c :| IsBest(c, candidates) && KeyOf(c) == key;
    c
  }

  // ------------------------------------------------------------- the report

  datatype DetectorConfig = DetectorConfig(severity: SeverityThresholds, nodeBuffer: SafetyBuffer, idPrefix: Id)

  /** "<prefix>-<kind>-<resource>-<low>-<high>-<start>", kept as the parts it is written from. */
  datatype ConflictId = ConflictId(prefix: Id, kind: ConflictType, resource: Id, low: Id, high: Id, start: Time)

  datatype Conflict = Conflict(
    id: ConflictId, robotA: Id, robotB: Id, resource: Id, kind: ConflictType, severity: ConflictSeverity, detectedAt: Time)

  function MakeConflictId(prefix: Id, kind: ConflictType, resource: Id, first: Id, second: Id,
                          start: Time): ConflictId {
    if first < second then ConflictId(prefix, kind, resource, first, second, start)
    else ConflictId(prefix, kind, resource, second, first, start)
  }

  /** A conflict needs two different named robots and a named resource. */
  function MakeConflict(id: ConflictId, robotA: Id, robotB: Id, resource: Id, kind: ConflictType,
                        severity: ConflictSeverity, at: Time): Option<Conflict>
  {
    if robotA == EMPTY_ID || robotB == EMPTY_ID || resource == EMPTY_ID || robotA == robotB then None
    else Some(Conflict(id, robotA, robotB, resource, kind, severity, at))
  }

  function ConflictOf(c: Candidate, now: Time, config: DetectorConfig): Option<Conflict> {
    MakeConflict(MakeConflictId(config.idPrefix, c.kind, c.resource, c.robotA, c.robotB, c.overlap.start),
                 c.robotA, c.robotB, c.resource, c.kind, SeverityFor(c.kind, c.overlap, now, config.severity), now)
  }

  ghost function Reported(keys: seq<ContentionKey>, candidates: set<Candidate>, now: Time,
                          config: DetectorConfig): seq<Conflict>
    requires forall k :: k in keys ==> k in Keys(candidates)
  {
    if keys == [] then []
    else
      assert keys[|keys| - 1] in keys;
      Reported(keys[..|keys| - 1], candidates, now, config)
      + match ConflictOf(Best(candidates, keys[|keys| - 1]), now, config) case Some(x) => [x] case None => []
  }

  /** One conflict per contention, ordered by robot pair and resource. */
  ghost function Report(candidates: set<Candidate>, now: Time, config: DetectorConfig): seq<Conflict> {
    KeyOrder();
    Reported(InOrder(Keys(candidates), KeyBefore), candidates, now, config)
  }

  ghost function Detected(d: MapData, routes: set<Route>, reservations: set<Reservation>, now: Time,
                          config: DetectorConfig): seq<Conflict> {
    Report(Candidates(d, SceneOf(d, routes, config.nodeBuffer), reservations), now, config)
  }

  // ------------------------------------------------------------- what the report promises

  function KeyOfConflict(x: Conflict): ContentionKey {
    ContentionKey(x.robotA, x.robotB, x.resource)
  }

  function ConflictKeys(q: seq<Conflict>): (r: seq<ContentionKey>)
    ensures |r| == |q| && forall i :: 0 <= i < |q| ==> r[i] == KeyOfConflict(q[i])
  {
    seq(|q|, i requires 0 <= i < |q| => KeyOfConflict(q[i]))
  }

  lemma ConflictKeepsKey(c: Candidate, now: Time, config: DetectorConfig)
    ensures var x := ConflictOf(c, now, config); x.Some? ==> KeyOfConflict(x.value) == KeyOf(c)
  {
  }

  lemma {:induction false} ReportedMembers(keys: seq<ContentionKey>, candidates: set<Candidate>, now: Time,
      config: DetectorConfig)
    requires forall k :: k in keys ==> k in Keys(candidates)
    ensures forall x :: x in Reported(keys, candidates, now, config) <==>
      exists k :: k in keys && ConflictOf(Best(candidates, k), now, config) == Some(x)
  {
    hide ConflictOf, Best, Keys;
    if keys != [] {
      var front, last := keys[..|keys| - 1], keys[|keys| - 1];
      assert last in keys;
      ReportedMembers(front, candidates, now, config);
      assert keys == front + [last];
    }
  }

  lemma {:induction false} ReportedAscends(keys: seq<ContentionKey>, candidates: set<Candidate>, now: Time,
      config: DetectorConfig)
    requires forall k :: k in keys ==> k in Keys(candidates)
    requires Ascending(keys, KeyBefore)
    ensures Ascending(ConflictKeys(Reported(keys, candidates, now, config)), KeyBefore)
  {
    if keys != [] {
      var front, last := keys[..|keys| - 1], keys[|keys| - 1];
      assert last in keys;
      assert keys == front + [last];
      ReportedAscends(front, candidates, now, config);
      var before := Reported(front, candidates, now, config);
      hide *;
      forall i | 0 <= i < |before| ensures KeyBefore(KeyOfConflict(before[i]), last) {
        ReportedKey(front, candidates, now, config, i);
        LastIsGreatest(keys, KeyOfConflict(before[i]));
      }
      AppendAscends(front, before, candidates, now, config, last, keys);
    }
  }

  lemma ReportedKey(keys: seq<ContentionKey>, candidates: set<Candidate>, now: Time, config: DetectorConfig, i: nat)
    requires forall k :: k in keys ==> k in Keys(candidates)
    requires i < |Reported(keys, candidates, now, config)|
    ensures KeyOfConflict(Reported(keys, candidates, now, config)[i]) in keys
  {
    var report := Reported(keys, candidates, now, config);
    ReportedMembers(keys, candidates, now, config);
    hide ConflictOf, Best, Keys, Reported, KeyOf, KeyOfConflict;
    assert report[i] in report;
    var k :| k in keys && ConflictOf(Best(candidates, k), now, config) == Some(report[i]);
    ConflictKeepsKey(Best(candidates, k), now, config);
  }

  lemma LastIsGreatest(keys: seq<ContentionKey>, k: ContentionKey)
    requires keys != [] && Ascending(keys, KeyBefore) && k in keys[..|keys| - 1]
    ensures KeyBefore(k, keys[|keys| - 1])
  {
    hide KeyBefore;
    var j :| 0 <= j < |keys| - 1 && keys[..|keys| - 1][j] == k;
    assert keys[j] == k;
  }

  lemma AppendAscends(front: seq<ContentionKey>, before: seq<Conflict>, candidates: set<Candidate>, now: Time,
                      config: DetectorConfig,
                      last: ContentionKey, keys: seq<ContentionKey>)
    requires keys == front + [last] && forall k :: k in keys ==> k in Keys(candidates)
    requires before == Reported(front, candidates, now, config) && Ascending(ConflictKeys(before), KeyBefore)
    requires forall i :: 0 <= i < |before| ==> KeyBefore(KeyOfConflict(before[i]), last)
    ensures Ascending(ConflictKeys(Reported(keys, candidates, now, config)), KeyBefore)
  {
    assert keys[..|keys| - 1] == front && keys[|keys| - 1] == last;
    ConflictKeepsKey(Best(candidates, last), now, config);
    hide ConflictOf, Best, Keys, KeyBefore, KeyOf;
    var all := Reported(keys, candidates, now, config);
    assert all == before || (|all| == |before| + 1 && all[..|before|] == before && KeyOfConflict(all[|before|]) == last);
    forall i, j | 0 <= i < j < |all| ensures KeyBefore(ConflictKeys(all)[i], ConflictKeys(all)[j]) {
      assert all[i] == before[i];
      if j < |before| {
        assert all[j] == before[j];
        assert KeyBefore(ConflictKeys(before)[i], ConflictKeys(before)[j]);
      }
    }
  }

  /** The report is in strictly ascending order of contention, so lists each contention once, and what
      it lists is exactly the best description of each contention between named robots. */
  lemma ReportIsCanonical(candidates: set<Candidate>, now: Time, config: DetectorConfig)
    ensures Ascending(ConflictKeys(Report(candidates, now, config)), KeyBefore)
    ensures forall x :: x in Report(candidates, now, config) <==>
      exists c :: IsBest(c, candidates) && ConflictOf(c, now, config) == Some(x)
  {
    KeyOrder();
    var keys := InOrder(Keys(candidates), KeyBefore);
    ReportedAscends(keys, candidates, now, config);
    ReportedMembers(keys, candidates, now, config);
    hide ConflictOf, Better, KeyBefore, StrictTotalOrder, Ascending, Reported;
    forall x ensures x in Report(candidates, now, config) <==> exists c :: IsBest(c, candidates) && ConflictOf(c, now, config) == Some(x) {
      if x in Report(candidates, now, config) {
        var k :| k in keys && ConflictOf(Best(candidates, k), now, config) == Some(x);
        assert IsBest(Best(candidates, k), candidates);
      }
      if c :| IsBest(c, candidates) && ConflictOf(c, now, config) == Some(x) {
        assert KeyOf(c) in keys;
        BestIsUnique(c, Best(candidates, KeyOf(c)), candidates);
      }
    }
  }

  /** Determinism. Whatever order the routes and the reservations come in, the list is the same. */
  lemma DetectionIgnoresOrder(d: MapData, routes: seq<Route>, routes': seq<Route>, reservations: seq<Reservation>,
                              reservations': seq<Reservation>, now: Time, config: DetectorConfig)
    requires multiset(routes) == multiset(routes') && multiset(reservations) == multiset(reservations')
    ensures Detected(d, Listed(routes), Listed(reservations), now, config)
         == Detected(d, Listed(routes'), Listed(reservations'), now, config)
  {
    SameListed(routes, routes');
    SameListed(reservations, reservations');
    hide Detected;
  }

  lemma SameListed<T(!new)>(p: seq<T>, q: seq<T>)
    requires multiset(p) == multiset(q)
    ensures Listed(p) == Listed(q)
  {
    forall x ensures x in p <==> x in q {
      assert x in p <==> x in multiset(p);
      assert x in q <==> x in multiset(q);
    }
  }
}
