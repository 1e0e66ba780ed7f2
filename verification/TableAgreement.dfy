/** The detector and the reservation table mean the same thing by "too many robots". */
module TableAgreement {
  import opened Core
  import opened Ordering
  import opened Graph
  import opened Claims
  import opened Admission
  import opened Policy
  import opened Protocol
  import opened Safety
  import opened ConflictRules
  import opened RouteReading
  import opened Contentions

  function ReservationsOf(book: Book): set<Reservation> {
    set id | id in book :: book[id].reservation
  }

  ghost function DetectedInTable(d: MapData, book: Book, now: Time, config: DetectorConfig): seq<Conflict> {
    Detected(d, {}, ReservationsOf(book), now, config)
  }

  function Held(book: Book): set<Reservation> {
    Holding(ReservationsOf(book))
  }

  /** What the detector counts on a resource is what the table's invariant counts. */
  lemma CountsAgree(book: Book, resource: Id, t: Time)
    ensures RobotsIn(ClaimsOn(Held(book), resource), resource, t) == RobotsAt(book, resource, t)
  {
    hide Contains, HoldsResource;
    var counted := RobotsIn(ClaimsOn(Held(book), resource), resource, t);
    forall robot | robot in counted ensures robot in RobotsAt(book, resource, t) {
      var h :| h in ClaimsOn(Held(book), resource) && Contains(h.window, t) && h.robot == robot;
      var r :| r in Held(book) && r.resource == resource && OfReservation(r) == h;
      var id :| id in book && book[id].reservation == r;
      assert Occupies(book[id], resource, t);
    }
    forall robot | robot in RobotsAt(book, resource, t) ensures robot in counted {
      var id :| id in book && Occupies(book[id], resource, t) && book[id].reservation.robot == robot;
      var r := book[id].reservation;
      assert r in Held(book);
      assert OfReservation(r) in ClaimsOn(Held(book), resource);
    }
  }

  lemma NoRoutesNoScene(d: MapData, b: SafetyBuffer)
    ensures SceneOf(d, {}, b) == Scene({}, {}, {}, {})
  {
    hide RouteScene;
  }

  lemma OnlyReservationPairs(d: MapData, book: Book, b: SafetyBuffer)
    ensures Candidates(d, SceneOf(d, {}, b), ReservationsOf(book)) == Between(Held(book), Held(book), ReservationRule(d, Held(book)))
  {
    NoRoutesNoScene(d, b);
    hide NodeRule, EdgeRule, CorridorRule, CrossingRule, ReservationRule, GrantRule, ReservationsOf, Holding, SceneOf,
         Grants;
    var none := Scene({}, {}, {}, {});
    assert RouteClaims(none) == {};
    assert Between(none.visits, none.visits, NodeRule(d, {})) == {};
    assert Between(none.traversals, none.traversals, EdgeRule(d, {})) == {};
    assert Between(none.passages, none.passages, CorridorRule(d, {})) == {};
    assert Between(none.crossings, none.crossings, CrossingRule(d)) == {};
    assert Between(Grants(Held(book)), {}, GrantRule(d, Grants(Held(book)) + {})) == {};
  }

  function AtLeastOne(n: nat): nat {
    if n == 0 then 1 else n
  }

  /** No named resource ever holds more robots than its capacity, counting a capacity of zero as one. */
  ghost predicate WithinCapacity(d: MapData, book: Book) {
    forall resource: Id, t: Time :: resource != EMPTY_ID ==> |RobotsAt(book, resource, t)| <= AtLeastOne(CapacityOf(d, resource))
  }

  lemma TwoMembers(s: set<Id>) returns (a: Id, b: Id)
    requires |s| > 1
    ensures a in s && b in s && a != b
  {
    a := Member(s);
    assert |s - {a}| > 0;
    b := Member(s - {a});
  }

  lemma ClaimOf(book: Book, resource: Id, t: Time, robot: Id) returns (r: Reservation)
    requires robot in RobotsAt(book, resource, t)
    ensures r in Held(book) && r.resource == resource && r.robot == robot && Contains(r.window, t) && HoldsResource(r.state)
  {
    hide Contains, HoldsResource;
    var id :| id in book && Occupies(book[id], resource, t) && book[id].reservation.robot == robot;
    r := book[id].reservation;
  }

  lemma MeetingClaimsConflict(x: Reservation, y: Reservation, t: Time)
    requires x.resource == y.resource && x.robot != y.robot && HoldsResource(x.state) && HoldsResource(y.state)
    requires Contains(x.window, t) && Contains(y.window, t)
    ensures ConflictsWith(x, y) && OverlapOf(x.window, y.window).Some?
    ensures x.resource != EMPTY_ID ==> TemporalConflict(OfReservation(x), OfReservation(y))
  {
  }

  lemma CrowdIsFound(d: MapData, book: Book, resource: Id, t: Time)
    requires resource != EMPTY_ID && |RobotsAt(book, resource, t)| > AtLeastOne(CapacityOf(d, resource))
    ensures Between(Held(book), Held(book), ReservationRule(d, Held(book))) != {}
  {
    var a, b := TwoMembers(RobotsAt(book, resource, t));
    var x := ClaimOf(book, resource, t, a);
    var y := ClaimOf(book, resource, t, b);
    CountsAgree(book, resource, t);
    MeetingClaimsConflict(x, y, t);
    CrowdedPair(d, Held(book), x, y, t);
    hide *;
    PairIsFound(d, Held(book), x, y);
  }

  lemma CrowdedPair(d: MapData, held: set<Reservation>, x: Reservation, y: Reservation, t: Time)
    requires ConflictsWith(x, y) && OverlapOf(x.window, y.window).Some? && TemporalConflict(OfReservation(x), OfReservation(y))
    requires Contains(x.window, t) && Contains(y.window, t)
    requires |RobotsIn(ClaimsOn(held, x.resource), x.resource, t)| > CapacityOf(d, x.resource)
    ensures ReservationPair(d, held, x, y).Some?
  {
    hide Contains, RobotsIn, CapacityOf, ClaimsOn, OverlapOf, ConflictsWith;
    assert Overfull(OfReservation(x), OfReservation(y), ClaimsOn(held, x.resource), CapacityOf(d, x.resource));
  }

  lemma PairIsFound(d: MapData, held: set<Reservation>, x: Reservation, y: Reservation)
    requires x in held && y in held && ReservationPair(d, held, x, y).Some?
    ensures Between(held, held, ReservationRule(d, held)) != {}
  {
    hide ReservationPair;
    assert ReservationRule(d, held)(x, y).Some?;
    assert ReservationPair(d, held, x, y).value in Between(held, held, ReservationRule(d, held));
  }

  lemma FoundIsCrowd(d: MapData, book: Book, c: Candidate)
    requires c in Between(Held(book), Held(book), ReservationRule(d, Held(book)))
    ensures exists t: Time :: c.resource != EMPTY_ID && |RobotsAt(book, c.resource, t)| > AtLeastOne(CapacityOf(d, c.resource))
  {
    var held := Held(book);
    var x, y :| x in held && y in held && ReservationPair(d, held, x, y) == Some(c);
    hide CapacityOf, RobotsIn, Contains;
    var resource := x.resource;
    assert Overfull(OfReservation(x), OfReservation(y), ClaimsOn(held, resource), CapacityOf(d, resource));
    var t :| Contains(x.window, t) && Contains(y.window, t)
      && |RobotsIn(ClaimsOn(held, resource), resource, t)| > CapacityOf(d, resource);
    hide Overfull, OverlapOf, ConflictsWith;
    CountsAgree(book, resource, t);
    BothPresent(book, x, y, t);
    SubsetSize({x.robot, y.robot}, RobotsAt(book, resource, t));
    assert x.robot != y.robot;
    assert |RobotsAt(book, c.resource, t)| > AtLeastOne(CapacityOf(d, c.resource));
  }

  lemma BothPresent(book: Book, x: Reservation, y: Reservation, t: Time)
    requires x in Held(book) && y in Held(book) && x.resource == y.resource && Contains(x.window, t) && Contains(y.window, t)
    ensures {x.robot, y.robot} <= RobotsAt(book, x.resource, t)
  {
    hide Contains, HoldsResource;
    var i :| i in book && book[i].reservation == x;
    var j :| j in book && book[j].reservation == y;
    assert Occupies(book[i], x.resource, t) && Occupies(book[j], x.resource, t);
  }

  /** The reservation pass finds something exactly when some instant is over capacity. */
  lemma NoCandidatesMeansWithin(d: MapData, book: Book)
    ensures Between(Held(book), Held(book), ReservationRule(d, Held(book))) == {} <==> WithinCapacity(d, book)
  {
    var found := Between(Held(book), Held(book), ReservationRule(d, Held(book)));
    hide Between, RobotsAt, CapacityOf, AtLeastOne, Held;
    if found != {} {
      var c := Member(found);
      FoundIsCrowd(d, book, c);
    }
    if !WithinCapacity(d, book) {
      var resource: Id, t: Time :| resource != EMPTY_ID && |RobotsAt(book, resource, t)| > AtLeastOne(CapacityOf(d, resource));
      CrowdIsFound(d, book, resource, t);
    }
  }

  /** Every claim that withholds a resource names its robot. */
  predicate RobotsNamed(book: Book) {
    forall id :: id in book && HoldsResource(book[id].reservation.state) ==> book[id].reservation.robot != EMPTY_ID
  }

  lemma NothingToReport(now: Time, config: DetectorConfig)
    ensures Report({}, now, config) == []
  {
    hide ConflictOf, Report;
    var report := Report({}, now, config);
    assert report != [] ==> report[0] in report;
    ReportIsCanonical({}, now, config);
  }

  lemma CandidateIsReported(candidates: set<Candidate>, c: Candidate, now: Time, config: DetectorConfig)
    requires c in candidates && c.robotA != EMPTY_ID && c.robotA < c.robotB && c.resource != EMPTY_ID
    ensures Report(candidates, now, config) != []
  {
    ReportIsCanonical(candidates, now, config);
    assert KeyOf(c) in Keys(candidates);
    var best := Best(candidates, KeyOf(c));
    BestIsNamed(best, now, config);
    assert ConflictOf(best, now, config).value in Report(candidates, now, config);
  }

  lemma BestIsNamed(c: Candidate, now: Time, config: DetectorConfig)
    requires c.robotA != EMPTY_ID && c.robotA < c.robotB && c.resource != EMPTY_ID
    ensures ConflictOf(c, now, config).Some?
  {
  }

  lemma CandidateIsNamed(d: MapData, book: Book, c: Candidate)
    requires RobotsNamed(book) && c in Between(Held(book), Held(book), ReservationRule(d, Held(book)))
    ensures c.robotA != EMPTY_ID && c.robotA < c.robotB && c.resource != EMPTY_ID
  {
    var held := Held(book);
    var x, y :| x in held && y in held && ReservationPair(d, held, x, y) == Some(c);
    hide Overfull, CapacityOf, OverlapOf, HoldsResource, ConflictsWith;
    var i :| i in book && book[i].reservation == x;
    var j :| j in book && book[j].reservation == y;
  }

  /** Detecting over the table's reservations alone finds nothing exactly when no named resource is
      over capacity at any instant. */
  lemma DetectorMeansCapacity(d: MapData, book: Book, now: Time, config: DetectorConfig)
    requires RobotsNamed(book)
    ensures DetectedInTable(d, book, now, config) == [] <==> WithinCapacity(d, book)
  {
    OnlyReservationPairs(d, book, config.nodeBuffer);
    NoCandidatesMeansWithin(d, book);
    NothingToReport(now, config);
    var found := Between(Held(book), Held(book), ReservationRule(d, Held(book)));
    hide WithinCapacity, Between, Candidates, SceneOf, Report, Held, ReservationsOf, RobotsNamed;
    if found != {} {
      var c := Member(found);
      CandidateIsNamed(d, book, c);
      CandidateIsReported(found, c, now, config);
    }
  }

  /** What map validation and the request checks guarantee: every capacity is at least one and every
      claim names its robot and its resource. */
  ghost predicate ProperlyNamed(d: MapData, book: Book) {
    && RobotsNamed(book)
    && PositiveCapacities(d)
    && (forall id :: id in book ==> book[id].reservation.resource != EMPTY_ID)
  }

  /** Then the detector is silent exactly when the table's capacity invariant holds. */
  lemma DetectorAgreesWithTable(d: MapData, book: Book, now: Time, config: DetectorConfig)
    requires ProperlyNamed(d, book)
    ensures DetectedInTable(d, book, now, config) == [] <==> CapacitySafe(d, book)
  {
    DetectorMeansCapacity(d, book, now, config);
    forall resource ensures CapacityOf(d, resource) >= 1 { EveryResourceAdmitsOne(d, resource); }
    hide PositiveCapacities, DetectedInTable, RobotsNamed, CapacityOf, Occupies;
    forall t: Time ensures RobotsAt(book, EMPTY_ID, t) == {} {
      NobodyInTheUnnamed(book, t);
    }
    assert forall resource :: AtLeastOne(CapacityOf(d, resource)) == CapacityOf(d, resource);
    hide RobotsAt, AtLeastOne;
  }

  lemma NobodyInTheUnnamed(book: Book, t: Time)
    requires forall id :: id in book ==> book[id].reservation.resource != EMPTY_ID
    ensures RobotsAt(book, EMPTY_ID, t) == {}
  {
  }

  /** In a safe state the detector has nothing to say, whatever the names and capacities. */
  lemma SafeTableIsSilent(d: MapData, book: Book, now: Time, config: DetectorConfig)
    requires CapacitySafe(d, book)
    ensures DetectedInTable(d, book, now, config) == []
  {
    OnlyReservationPairs(d, book, config.nodeBuffer);
    NoCandidatesMeansWithin(d, book);
    NothingToReport(now, config);
    hide RobotsAt, CapacityOf, Between, Candidates, SceneOf, Report, Held, ReservationsOf;
  }

  /** Hence in every state any sequence of manager calls can reach. */
  lemma ReachableTablesAreSilent(d: MapData, p: ReservationPolicy, states: seq<State>, calls: seq<Call>, k: nat,
                                 now: Time, config: DetectorConfig)
    requires Run(d, p, states, calls) && states[0] == EMPTY && k < |states|
    ensures DetectedInTable(d, states[k].book, now, config) == []
  {
    EmptyIsSafe(d);
    RunsAreSafe(d, p, states, calls, k);
    hide CapacitySafe, Run, DetectedInTable;
    SafeTableIsSilent(d, states[k].book, now, config);
  }
}
