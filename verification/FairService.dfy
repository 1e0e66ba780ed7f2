/** Who is served first when requests arrive together. */
module FairService {
  import opened Core
  import opened Ordering
  import opened Graph
  import opened Claims
  import opened Admission
  import opened Policy
  import opened Protocol
  import opened Safety
  import opened History
  import opened Answers

  /** The priority a request is served at. */
  function Urgency(waits: map<Id, WaitEntry>, p: ReservationPolicy, now: Time, q: Request): int {
    EffectivePriority(q.priority, WaitedFor(waits, q.robot, q.resource, now), p)
  }

  function Patience(waits: map<Id, WaitEntry>, now: Time, q: Request): int {
    WaitedFor(waits, q.robot, q.resource, now)
  }

  /** A request for no task is named before any task's. */
  function TaskNumber(q: Request): int {
    match q.task case None => -1 case Some(t) => t
  }

  /** The documented order: more urgent, then longer waiting, then the smaller task, robot and reservation. */
  predicate Outranks(waits: map<Id, WaitEntry>, p: ReservationPolicy, now: Time, a: Request, b: Request) {
    var asUrgent := Urgency(waits, p, now, a) == Urgency(waits, p, now, b);
    var asLong := Patience(waits, now, a) == Patience(waits, now, b);
    || Urgency(waits, p, now, a) > Urgency(waits, p, now, b)
    || (asUrgent && Patience(waits, now, a) > Patience(waits, now, b))
    || (asUrgent && asLong && TaskNumber(a) < TaskNumber(b))
    || (asUrgent && asLong && TaskNumber(a) == TaskNumber(b) && a.robot < b.robot)
    || (asUrgent && asLong && TaskNumber(a) == TaskNumber(b) && a.robot == b.robot && a.reservation < b.reservation)
  }

  /** Nobody is served before a request that outranks it: in particular urgency never rises along the
      sequence, and among equally urgent requests neither does the time waited. */
  ghost predicate Fair(waits: map<Id, WaitEntry>, p: ReservationPolicy, now: Time, served: seq<Request>) {
    forall i, j :: 0 <= i < j < |served| ==>
      && Urgency(waits, p, now, served[i]) >= Urgency(waits, p, now, served[j])
      && (Urgency(waits, p, now, served[i]) == Urgency(waits, p, now, served[j]) ==>
            Patience(waits, now, served[i]) >= Patience(waits, now, served[j]))
      && !Outranks(waits, p, now, served[j], served[i])
  }

  lemma PrecedesIsOutranking(waits: map<Id, WaitEntry>, p: ReservationPolicy, now: Time, a: Request, b: Request)
    ensures Precedes(waits, p, now, a, b) == Outranks(waits, p, now, a, b)
  {
    hide EffectivePriority, WaitedFor;
  }

  lemma RankedFirst(waits: map<Id, WaitEntry>, p: ReservationPolicy, now: Time, a: Request, b: Request)
    requires !Outranks(waits, p, now, b, a)
    ensures Urgency(waits, p, now, a) >= Urgency(waits, p, now, b)
    ensures Urgency(waits, p, now, a) == Urgency(waits, p, now, b) ==> Patience(waits, now, a) >= Patience(waits, now, b)
  {
    hide Urgency, Patience;
  }

  lemma ArbitratedIsFair(waits: map<Id, WaitEntry>, p: ReservationPolicy, now: Time, served: seq<Request>)
    requires Sorted(served, Arbitration(waits, p, now))
    ensures Fair(waits, p, now, served)
  {
    hide Precedes, Outranks, Urgency, Patience;
    forall i, j | 0 <= i < j < |served|
      ensures !Outranks(waits, p, now, served[j], served[i])
    {
      PrecedesIsOutranking(waits, p, now, served[j], served[i]);
    }
    forall i, j | 0 <= i < j < |served|
      ensures Urgency(waits, p, now, served[i]) >= Urgency(waits, p, now, served[j])
      ensures Urgency(waits, p, now, served[i]) == Urgency(waits, p, now, served[j]) ==>
                Patience(waits, now, served[i]) >= Patience(waits, now, served[j])
    {
      RankedFirst(waits, p, now, served[i], served[j]);
    }
  }

  /** Requests that arrive together are decided one after the other in a fair order. */
  lemma RequestsAreServedFairly(d: MapData, p: ReservationPolicy, s: State, qs: seq<Request>, now: Time, after: State)
    requires Step(d, p, s, RequestMany(qs, now), after)
    ensures exists served: seq<Request> ::
              multiset(served) == multiset(qs) && Fair(s.waits, p, now, served) && after == AfterRequests(d, p, s, served, now)
  {
    hide Fair, Sorted, Arbitration, AfterRequests;
    var served :| IsSortOf(served, qs, Arbitration(s.waits, p, now)) && after == AfterRequests(d, p, s, served, now);
    ArbitratedIsFair(s.waits, p, now, served);
  }

  // ------------------------------------------------------------- who gets the resource

  /** A new, well-formed request for the near future. */
  ghost predicate Eligible(p: ReservationPolicy, s: State, q: Request, now: Time) {
    Named(q) && q.reservation !in s.book && AsksForTime(q, p) && q.requestedStart <= now + p.horizon
  }

  /** The request asks for another resource, under another id. */
  predicate Elsewhere(q: Request, a: Request, b: Request) {
    q.resource != a.resource && q.reservation != a.reservation && q.reservation != b.reservation
  }

  ghost predicate FreeFor(book: Book, q: Request, w: TimeWindow) {
    forall id :: id in book ==> !Contends(book[id], q.resource, q.robot, w)
  }

  lemma ElsewhereStaysFree(d: MapData, p: ReservationPolicy, s: State, q: Request, now: Time, a: Request, w: TimeWindow)
    requires FreeFor(s.book, a, w) && q.resource != a.resource
    ensures FreeFor(AfterRequest(d, p, s, q, now).book, a, w)
  {
    GrantedExactlyWhen(d, p, s, q, now);
    hide AfterRequest, Decide, NewGrant;
  }

  lemma {:induction false} EarlierLeaveFree(d: MapData, p: ReservationPolicy, s: State, earlier: seq<Request>, now: Time,
                                            a: Request, w: TimeWindow)
    requires FreeFor(s.book, a, w) && forall q :: q in earlier ==> q.resource != a.resource
    ensures FreeFor(AfterRequests(d, p, s, earlier, now).book, a, w)
  {
    hide AfterRequest, FreeFor;
    if earlier != [] {
      var before, last := earlier[..|earlier| - 1], earlier[|earlier| - 1];
      EarlierLeaveFree(d, p, s, before, now, a, w);
      ElsewhereStaysFree(d, p, AfterRequests(d, p, s, before, now), last, now, a, w);
    }
  }

  /** The book holds `q`'s own claim over the whole buffered span. */
  predicate IsGrantOf(book: Book, q: Request, p: ReservationPolicy)
    requires AsksForTime(q, p)
  {
    && q.reservation in book
    && book[q.reservation].reservation.state == Pending
    && book[q.reservation].reservation.robot == q.robot && book[q.reservation].reservation.resource == q.resource
    && book[q.reservation].reservation.window == Wanted(q, p)
  }

  lemma FreeRequestIsGranted(d: MapData, p: ReservationPolicy, s: State, q: Request, now: Time)
    requires Eligible(p, s, q, now) && FreeFor(s.book, q, Wanted(q, p)) && CapacityOf(d, q.resource) > 0
    ensures IsGrantOf(AfterRequest(d, p, s, q, now).book, q, p)
  {
    WantedIsEffective(q, p);
    UncontestedIsAdmitted(d, s.book, q.resource, q.robot, Wanted(q, p), q.usage);
    GrantedExactlyWhen(d, p, s, q, now);
    hide AfterRequest, Decide, FreeFor, Admits, EffectiveWindow, AsksForTime, CapacityOf;
  }

  /** While somebody holds a resource of capacity one, nobody else gets an overlapping span. */
  lemma TakenIsRefused(d: MapData, p: ReservationPolicy, s: State, holder: Id, q: Request, now: Time)
    requires AsksForTime(q, p) && CapacityOf(d, q.resource) <= 1 && q.reservation !in s.book
    requires holder in s.book && Contends(s.book[holder], q.resource, q.robot, Wanted(q, p))
    ensures q.reservation !in AfterRequest(d, p, s, q, now).book
  {
    WantedIsEffective(q, p);
    GrantedExactlyWhen(d, p, s, q, now);
    ContestedIsNotAdmitted(d, s.book, holder, q.resource, q.robot, Wanted(q, p), q.usage);
    hide AfterRequest, Decide, EffectiveWindow, AsksForTime, Admits, Contends, CapacityOf;
  }

  lemma HolderContends(book: Book, a: Request, b: Request, p: ReservationPolicy)
    requires AsksForTime(a, p) && AsksForTime(b, p) && IsGrantOf(book, a, p)
    requires a.robot != b.robot && a.resource == b.resource && Overlaps(Wanted(a, p), Wanted(b, p))
    ensures Contends(book[a.reservation], b.resource, b.robot, Wanted(b, p))
  {
  }

  lemma {:induction false} LaterAreRefused(d: MapData, p: ReservationPolicy, s: State, later: seq<Request>, now: Time,
                                           a: Request, b: Request)
    requires AsksForTime(a, p) && AsksForTime(b, p) && IsGrantOf(s.book, a, p) && b.reservation !in s.book
    requires a.robot != b.robot && a.resource == b.resource && Overlaps(Wanted(a, p), Wanted(b, p)) && CapacityOf(d, a.resource) == 1
    requires forall q :: q in later && q.reservation == b.reservation ==> q == b
    ensures var after := AfterRequests(d, p, s, later, now).book;
            IsGrantOf(after, a, p) && b.reservation !in after
  {
    hide AfterRequest, AsksForTime, Overlaps, CapacityOf;
    if later != [] {
      var before, last := later[..|later| - 1], later[|later| - 1];
      LaterAreRefused(d, p, s, before, now, a, b);
      var middle := AfterRequests(d, p, s, before, now);
      RequestOnlyAdds(d, p, middle, last, now);
      if last.reservation == b.reservation {
        assert last == b;
        HolderContends(middle.book, a, b, p);
        TakenIsRefused(d, p, middle, a.reservation, b, now);
      }
    }
  }

  lemma {:induction false} ServedInTurn(d: MapData, p: ReservationPolicy, s: State, earlier: seq<Request>, later: seq<Request>,
                                        now: Time)
    ensures AfterRequests(d, p, s, earlier + later, now)
         == AfterRequests(d, p, AfterRequests(d, p, s, earlier, now), later, now)
    decreases |later|
  {
    hide AfterRequest;
    if later == [] {
      assert earlier + later == earlier;
    } else {
      var all, front := earlier + later, later[..|later| - 1];
      assert all[..|all| - 1] == earlier + front;
      ServedInTurn(d, p, s, earlier, front, now);
    }
  }

  /** The first position of an element. */
  lemma {:induction false} FirstPosition(q: seq<Request>, x: Request) returns (i: nat)
    requires x in q
    ensures i < |q| && q[i] == x && x !in q[..i]
  {
    if q[0] == x {
      i := 0;
    } else {
      var j := FirstPosition(q[1..], x);
      i := j + 1;
      assert q[..i] == [q[0]] + q[1..][..j];
    }
  }

  /** The two compete for one place: each new and well formed, by different robots, over spans that overlap on
      a free resource of capacity one, and nobody else among `qs` wants that resource or their ids. */
  ghost predicate Compete(d: MapData, p: ReservationPolicy, s: State, qs: seq<Request>, a: Request, b: Request, now: Time) {
    && a in qs && b in qs && Eligible(p, s, a, now) && Eligible(p, s, b, now)
    && a.reservation != b.reservation && a.robot != b.robot && a.resource == b.resource
    && Overlaps(Wanted(a, p), Wanted(b, p)) && CapacityOf(d, a.resource) == 1
    && FreeFor(s.book, a, Wanted(a, p))
    && forall q :: q in qs ==> q == a || q == b || Elsewhere(q, a, b)
  }

  /** The higher-ranked competitor gets the place, over the whole span it asked for, and the other gets
      nothing: more urgent wins, among equals the longer waiting, and so on down the documented order. */
  lemma HigherRankIsGranted(d: MapData, p: ReservationPolicy, s: State, qs: seq<Request>, now: Time, after: State,
                            a: Request, b: Request)
    requires Step(d, p, s, RequestMany(qs, now), after)
    requires Compete(d, p, s, qs, a, b, now) && Outranks(s.waits, p, now, a, b)
    ensures IsGrantOf(after.book, a, p) && b.reservation !in after.book
  {
    hide Step, Fair, AfterRequests, Outranks, IsGrantOf, FreeFor, AsksForTime, Overlaps, CapacityOf;
    RequestsAreServedFairly(d, p, s, qs, now, after);
    var served :| multiset(served) == multiset(qs) && Fair(s.waits, p, now, served) && after == AfterRequests(d, p, s, served, now);
    assert forall q :: q in served ==> q in qs by {
      forall q | q in served ensures q in qs { SameMembers(served, qs, q); }
    }
    SameMembers(qs, served, a);
    var i := FirstPosition(served, a);
    var earlier, later := served[..i], served[i + 1..];
    LowerRankIsNotEarlier(s.waits, p, now, served, i, b);
    TurnComes(d, p, s, served, i, now);
    FirstTurnIsGranted(d, p, s, earlier, now, a, b);
    var middle := AfterRequests(d, p, s, earlier, now);
    var taken := AfterRequest(d, p, middle, a, now);
    RequestOnlyAdds(d, p, middle, a, now);
    hide AfterRequest, Decide;
    assert forall q :: q in later ==> q in served;
    LaterAreRefused(d, p, taken, later, now, a, b);
  }

  lemma LowerRankIsNotEarlier(waits: map<Id, WaitEntry>, p: ReservationPolicy, now: Time, served: seq<Request>, i: nat, b: Request)
    requires Fair(waits, p, now, served) && i < |served| && Outranks(waits, p, now, served[i], b)
    ensures b !in served[..i]
  {
    hide Outranks, Urgency, Patience;
    assert forall j :: 0 <= j < i ==> served[..i][j] == served[j];
  }

  lemma TurnComes(d: MapData, p: ReservationPolicy, s: State, served: seq<Request>, i: nat, now: Time)
    requires i < |served|
    ensures AfterRequests(d, p, s, served, now)
         == AfterRequests(d, p, AfterRequest(d, p, AfterRequests(d, p, s, served[..i], now), served[i], now), served[i + 1..], now)
  {
    hide AfterRequest;
    assert served == served[..i + 1] + served[i + 1..];
    assert served[..i + 1][..i] == served[..i];
    ServedInTurn(d, p, s, served[..i + 1], served[i + 1..], now);
  }

  lemma FirstTurnIsGranted(d: MapData, p: ReservationPolicy, s: State, earlier: seq<Request>, now: Time, a: Request, b: Request)
    requires Eligible(p, s, a, now) && FreeFor(s.book, a, Wanted(a, p)) && CapacityOf(d, a.resource) == 1
    requires b.reservation !in s.book
    requires forall q :: q in earlier ==> Elsewhere(q, a, b)
    ensures var middle := AfterRequests(d, p, s, earlier, now);
            && b.reservation !in middle.book
            && IsGrantOf(AfterRequest(d, p, middle, a, now).book, a, p)
  {
    hide AfterRequest, FreeFor, AsksForTime, CapacityOf, IsGrantOf;
    EarlierLeaveFree(d, p, s, earlier, now, a, Wanted(a, p));
    RequestsOnlyAdd(d, p, s, earlier, now);
    hide AfterRequests;
    FreeRequestIsGranted(d, p, AfterRequests(d, p, s, earlier, now), a, now);
  }
}
