/** The graph's elements and the resources laid over it. */
module Graph {
  import opened Core

  datatype Position = Position(x: real, y: real, z: real)

  datatype EdgeDirection = ForwardOnly | ReverseOnly | Bidirectional

  datatype Node = Node(id: Id, position: Position, capacity: nat, resource: Id)

  datatype Edge = Edge(
    id: Id, fromNode: Id, toNode: Id, length: real, speedLimit: real, direction: EdgeDirection,
    capacity: nat, resource: Id, travelTimeOverride: Option<int>, enabled: bool)

  datatype Corridor = Corridor(
    id: Id, entryNode: Id, exitNode: Id, edges: seq<Id>, capacity: nat, direction: EdgeDirection)

  datatype Movement = Movement(id: Id, fromEdge: Id, toEdge: Id)

  datatype ConflictGroup = ConflictGroup(id: Id, movements: seq<Id>)

  datatype Intersection = Intersection(
    id: Id, nodes: seq<Id>, movements: seq<Movement>, conflictGroups: seq<ConflictGroup>, capacity: nat)

  datatype WaitingBay = WaitingBay(id: Id, node: Id, capacity: nat)

  datatype MapData = MapData(
    version: nat, nodes: seq<Node>, edges: seq<Edge>,
    corridors: seq<Corridor>, intersections: seq<Intersection>, waitingBays: seq<WaitingBay>)

  predicate TraversableFrom(edge: Edge, from: Id) {
    edge.enabled &&
    match edge.direction
    case ForwardOnly => from == edge.fromNode
    case ReverseOnly => from == edge.toNode
    case Bidirectional => from == edge.fromNode || from == edge.toNode
  }

  function OppositeNode(edge: Edge, from: Id): Option<Id> {
    if from == edge.fromNode then Some(edge.toNode)
    else if from == edge.toNode then Some(edge.fromNode)
    else None
  }

  /** An edge is driven from its first node to its second unless it is reverse-only or closed, and from its second
      to its first unless it is forward-only or closed; never otherwise. */
  lemma DrivenExactlyWhen(edge: Edge, u: Id, v: Id)
    ensures TraversableFrom(edge, u) && OppositeNode(edge, u) == Some(v) <==>
      && edge.enabled
      && (|| (u == edge.fromNode && v == edge.toNode && edge.direction != ReverseOnly)
          || (u == edge.toNode && v == edge.fromNode && edge.direction != ForwardOnly))
  {
  }

  function EffectiveResource(edge: Edge): Id {
    if edge.resource != EMPTY_ID then edge.resource else edge.id
  }

  /** Whole nanoseconds: a derived time is truncated by the duration cast. */
  function NominalTravelTime(edge: Edge): int {
    match edge.travelTimeOverride
    case Some(t) => t
    case None =>
      if edge.speedLimit <= 0.0 then 0
      else Truncate(edge.length / edge.speedLimit * NANOS_PER_SECOND as real)
  }

  predicate IsBidirectional(corridor: Corridor) {
    corridor.direction == Bidirectional
  }

  predicate CanDeadlockHeadOn(corridor: Corridor) {
    IsBidirectional(corridor) && corridor.capacity == 1
  }

  predicate MovementsConflict(crossing: Intersection, a: Id, b: Id) {
    a != b && exists g :: g in crossing.conflictGroups && a in g.movements && b in g.movements
  }

  // ---- Lookup by scanning: the reference the map's indices are held to.

  function NodeId(n: Node): Id { n.id }
  function EdgeId(e: Edge): Id { e.id }
  function CorridorId(c: Corridor): Id { c.id }
  function IntersectionId(i: Intersection): Id { i.id }
  function WaitingBayId(b: WaitingBay): Id { b.id }

  /** The first element with this id. */
  function First<T>(s: seq<T>, key: T -> Id, id: Id): Option<T> {
    if s == [] then None
    else if key(s[0]) == id then Some(s[0])
    else First(s[1..], key, id)
  }

  lemma {:induction false} FirstFound<T>(s: seq<T>, key: T -> Id, id: Id, k: nat)
    requires k < |s| && key(s[k]) == id
    requires forall j :: 0 <= j < k ==> key(s[j]) != id
    ensures First(s, key, id) == Some(s[k])
  {
    if k > 0 { FirstFound(s[1..], key, id, k - 1); }
  }

  lemma {:induction false} FirstAbsent<T>(s: seq<T>, key: T -> Id, id: Id)
    requires forall j :: 0 <= j < |s| ==> key(s[j]) != id
    ensures First(s, key, id) == None
  {
    if s != [] { FirstAbsent(s[1..], key, id); }
  }

  /** What a scan returns really is an element of the list, and carries the id. */
  lemma {:induction false} FirstIsMember<T>(s: seq<T>, key: T -> Id, id: Id)
    ensures match First(s, key, id)
            case Some(x) => x in s && key(x) == id
            case None => forall x :: x in s ==> key(x) != id
  {
    if s != [] && key(s[0]) != id { FirstIsMember(s[1..], key, id); }
  }

  function FindNode(d: MapData, id: Id): Option<Node> { First(d.nodes, NodeId, id) }
  function FindEdge(d: MapData, id: Id): Option<Edge> { First(d.edges, EdgeId, id) }
  function FindCorridor(d: MapData, id: Id): Option<Corridor> { First(d.corridors, CorridorId, id) }
  function FindIntersection(d: MapData, id: Id): Option<Intersection> {
    First(d.intersections, IntersectionId, id)
  }
  function FindWaitingBay(d: MapData, id: Id): Option<WaitingBay> {
    First(d.waitingBays, WaitingBayId, id)
  }

  /** How many robots a resource admits: the corridor, intersection or bay of that name,
      else the edge or node that is its own resource, else one. */
  function CapacityOf(d: MapData, resource: Id): nat {
    match FindCorridor(d, resource)
    case Some(corridor) => corridor.capacity
    case None =>
    match FindIntersection(d, resource)
    case Some(crossing) => crossing.capacity
    case None =>
    match FindWaitingBay(d, resource)
    case Some(bay) => bay.capacity
    case None =>
    match FindEdge(d, resource)
    case Some(edge) => edge.capacity
    case None =>
    match FindNode(d, resource)
    case Some(node) => node.capacity
    case None => 1
  }

  ghost predicate NoneNamed<T(!new)>(s: seq<T>, key: T -> Id, id: Id) {
    forall x :: x in s ==> key(x) != id
  }

  /** `x` is in the list, under an id no other element of it has. */
  ghost predicate OnlyNamed<T(!new)>(s: seq<T>, key: T -> Id, id: Id, x: T) {
    x in s && key(x) == id && forall y :: y in s && key(y) == id ==> y == x
  }

  lemma OnlyOneIsFirst<T(!new)>(s: seq<T>, key: T -> Id, id: Id)
    ensures forall x :: OnlyNamed(s, key, id, x) ==> First(s, key, id) == Some(x)
    ensures NoneNamed(s, key, id) ==> First(s, key, id) == None
  {
    FirstIsMember(s, key, id);
  }

  /** A resource has the capacity of the element it is named after, where names are not shared within a kind. A
      corridor's name hides an intersection's, that a bay's, that an edge's and that a node's; what nothing is
      named after admits one. */
  lemma CapacityIsTheElements(d: MapData, resource: Id)
    ensures var noCorridor := NoneNamed(d.corridors, CorridorId, resource);
            var noCrossing := noCorridor && NoneNamed(d.intersections, IntersectionId, resource);
            var noBay := noCrossing && NoneNamed(d.waitingBays, WaitingBayId, resource);
            var noEdge := noBay && NoneNamed(d.edges, EdgeId, resource);
            && (forall x :: OnlyNamed(d.corridors, CorridorId, resource, x) ==> CapacityOf(d, resource) == x.capacity)
            && (forall x :: noCorridor && OnlyNamed(d.intersections, IntersectionId, resource, x) ==> CapacityOf(d, resource) == x.capacity)
            && (forall x :: noCrossing && OnlyNamed(d.waitingBays, WaitingBayId, resource, x) ==> CapacityOf(d, resource) == x.capacity)
            && (forall x :: noBay && OnlyNamed(d.edges, EdgeId, resource, x) ==> CapacityOf(d, resource) == x.capacity)
            && (forall x :: noEdge && OnlyNamed(d.nodes, NodeId, resource, x) ==> CapacityOf(d, resource) == x.capacity)
            && (noEdge && NoneNamed(d.nodes, NodeId, resource) ==> CapacityOf(d, resource) == 1)
  {
    OnlyOneIsFirst(d.corridors, CorridorId, resource);
    OnlyOneIsFirst(d.intersections, IntersectionId, resource);
    OnlyOneIsFirst(d.waitingBays, WaitingBayId, resource);
    OnlyOneIsFirst(d.edges, EdgeId, resource);
    OnlyOneIsFirst(d.nodes, NodeId, resource);
    hide First, NoneNamed, OnlyNamed;
  }

  /** No element of the map has capacity zero: map validation reports each as an error. */
  predicate PositiveCapacities(d: MapData) {
    && (forall x :: x in d.corridors ==> x.capacity > 0)
    && (forall x :: x in d.intersections ==> x.capacity > 0)
    && (forall x :: x in d.waitingBays ==> x.capacity > 0)
    && (forall x :: x in d.edges ==> x.capacity > 0)
    && (forall x :: x in d.nodes ==> x.capacity > 0)
  }

  /** Then every resource admits at least one robot, those the map does not know included. */
  lemma EveryResourceAdmitsOne(d: MapData, resource: Id)
    requires PositiveCapacities(d)
    ensures CapacityOf(d, resource) >= 1
  {
    FirstIsMember(d.corridors, CorridorId, resource);
    FirstIsMember(d.intersections, IntersectionId, resource);
    FirstIsMember(d.waitingBays, WaitingBayId, resource);
    FirstIsMember(d.edges, EdgeId, resource);
    FirstIsMember(d.nodes, NodeId, resource);
    hide First;
  }

  function ResourceForEdge(d: MapData, id: Id): Id {
    match FindEdge(d, id)
    case Some(edge) => EffectiveResource(edge)
    case None => EMPTY_ID
  }
}

/** Claims on resources and their lifecycle. */
module Claims {
  import opened Core
  import opened Graph

  datatype ReservationState = Pending | Active | Released | Expired | Cancelled

  predicate Terminal(s: ReservationState) {
    s.Released? || s.Expired? || s.Cancelled?
  }

  predicate HoldsResource(s: ReservationState) {
    s.Pending? || s.Active?
  }

  predicate TransitionAllowed(from: ReservationState, to: ReservationState) {
    match from
    case Pending => to != Released
    case Active => to != Pending && to != Cancelled
    case _ => to == from
  }

  datatype Reservation = Reservation(
    id: Id, robot: Id, resource: Id, window: TimeWindow, state: ReservationState,
    priority: int, requestedAt: Time)

  datatype TravelDirection = Forward | Reverse

  datatype ResourceUsage = ResourceUsage(direction: Option<TravelDirection>, movement: Option<Id>)

  datatype Record = Record(
    reservation: Reservation, usage: ResourceUsage, requestedStart: Time, requestedDuration: int,
    decidedAt: Time, lastTransitionAt: Time, committed: bool, route: Option<Id>, task: Option<Id>)

  function MakeRecord(r: Reservation, usage: ResourceUsage, requestedStart: Time, requestedDuration: int,
                      decidedAt: Time, route: Option<Id>, task: Option<Id>): Record {
    Record(r, usage, requestedStart, requestedDuration, decidedAt, decidedAt, false, route, task)
  }

  function WithState(r: Record, next: ReservationState, at: Time): Record {
    r.(reservation := r.reservation.(state := next), lastTransitionAt := at)
  }

  function WithEnd(r: Record, end: Time): Record
    requires r.reservation.window.start < end
  {
    r.(reservation := r.reservation.(window := Span(r.reservation.window.start, end)))
  }

  predicate IsPastWindow(r: Reservation, now: Time) {
    now >= r.window.end
  }

  /** The domain's pairwise rule: same resource, different robots, both holding, overlapping. */
  predicate ConflictsWith(a: Reservation, b: Reservation) {
    && a.resource == b.resource
    && a.robot != b.robot
    && HoldsResource(a.state) && HoldsResource(b.state)
    && Overlaps(a.window, b.window)
  }

  /** Opposite stated directions through a corridor, whatever its capacity. */
  predicate OpposesDirection(d: MapData, resource: Id, a: ResourceUsage, b: ResourceUsage) {
    && FindCorridor(d, resource).Some?
    && a.direction.Some? && b.direction.Some?
    && a.direction.value != b.direction.value
  }

  /** Stated movements through an intersection that share a conflict group. */
  predicate OpposesMovement(d: MapData, resource: Id, a: ResourceUsage, b: ResourceUsage) {
    && FindIntersection(d, resource).Some?
    && a.movement.Some? && b.movement.Some?
    && MovementsConflict(FindIntersection(d, resource).value, a.movement.value, b.movement.value)
  }

  /** The records by id. Every record is filed under its own id. */
  type Book = m: map<Id, Record> | forall id :: id in m ==> m[id].reservation.id == id
    witness map[]

  function HoldingIds(book: Book): set<Id> {
    set id | id in book && HoldsResource(book[id].reservation.state)
  }

  function HoldingIdsFor(book: Book, robot: Id): set<Id> {
    set id | id in book && HoldsResource(book[id].reservation.state) && book[id].reservation.robot == robot
  }

  /** A new record adds to the claims held exactly when it holds its resource. */
  lemma CountInserted(book: Book, r: Record)
    requires r.reservation.id !in book
    ensures |HoldingIds(book[r.reservation.id := r])| == |HoldingIds(book)| + if HoldsResource(r.reservation.state) then 1 else 0
  {
    var after := book[r.reservation.id := r];
    if HoldsResource(r.reservation.state) {
      assert HoldingIds(after) == HoldingIds(book) + {r.reservation.id};
    } else {
      assert HoldingIds(after) == HoldingIds(book);
    }
  }
}
