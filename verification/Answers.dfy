/** What a request is told, against the records it finds and leaves. */
module Answers {
  import opened Core
  import opened Ordering
  import opened Graph
  import opened Claims
  import opened Admission
  import opened Verdicts
  import opened Policy
  import opened Protocol
  import opened Safety
  import opened History

  predicate Named(q: Request) {
    q.reservation != EMPTY_ID && q.robot != EMPTY_ID && q.resource != EMPTY_ID
  }

  /** The claim a request asks about is its robot's own, on its resource. */
  predicate Matches(r: Reservation, q: Request) {
    r.robot == q.robot && r.resource == q.resource
  }

  /** The span asked for with both buffers is one: the duration is not negative and something is left. */
  predicate AsksForTime(q: Request, p: ReservationPolicy) {
    q.estimatedDuration >= 0 && q.requestedStart - p.entryBuffer < q.requestedStart + q.estimatedDuration + p.exitBuffer
  }

  /** The buffered span. */
  function Wanted(q: Request, p: ReservationPolicy): TimeWindow
    requires AsksForTime(q, p)
  {
    Span(q.requestedStart - p.entryBuffer, q.requestedStart + q.estimatedDuration + p.exitBuffer)
  }

  lemma WantedIsEffective(q: Request, p: ReservationPolicy)
    ensures var w := EffectiveWindow(q.requestedStart, q.estimatedDuration, p);
            (w.Some? <==> AsksForTime(q, p)) && (w.Some? ==> w.value == Wanted(q, p))
  {
  }

  /** An answer "granted" is the truth, and the whole truth: a named request is answered so exactly when
      its id now names a live claim of that robot on that resource, and is told that claim's window. */
  lemma GrantedExactlyWhenHeld(d: MapData, p: ReservationPolicy, s: State, q: Request, now: Time)
    requires Named(q)
    ensures var decision, book := Decide(d, p, s, q, now), AfterRequest(d, p, s, q, now).book;
            decision.status.Granted? <==>
              && q.reservation in book
              && book[q.reservation].reservation.state in {Pending, Active}
              && book[q.reservation].reservation.robot == q.robot
              && book[q.reservation].reservation.resource == q.resource
    ensures var decision, book := Decide(d, p, s, q, now), AfterRequest(d, p, s, q, now).book;
            decision.status.Granted? ==>
              && q.reservation in book
              && decision.windowStart == book[q.reservation].reservation.window.start
              && decision.windowEnd == book[q.reservation].reservation.window.end
  {
    hide Verdict, Result, EffectivePriority, WaitedFor, EffectiveWindow, Log, NoteWait, AfterRequest;
    GrantedExactlyWhen(d, p, s, q, now);
    VerdictResult(d, s.book, q.resource, q.robot, q.usage);
  }

  /** A known id is answered from its claim alone: the reason says whether the robot or resource is another's,
      or the claim is over. Nothing but the log and the counters changes. */
  lemma KnownIdIsAnsweredFromItsClaim(d: MapData, p: ReservationPolicy, s: State, q: Request, now: Time)
    requires Named(q) && q.reservation in s.book
    ensures var decision, r := Decide(d, p, s, q, now), s.book[q.reservation].reservation;
            && (decision.reason == DuplicateRequest <==> r.robot != q.robot || r.resource != q.resource)
            && (decision.reason == ReservationEnded <==> Matches(r, q) && r.state in {Released, Expired, Cancelled})
            && (decision.reason == NoReason <==> Matches(r, q) && r.state in {Pending, Active})
            && (decision.status.Rejected? <==> decision.reason != NoReason)
            && (decision.status.Granted? <==> decision.reason == NoReason) && (decision.replayed <==> decision.status.Granted?)
            && decision.windowStart == r.window.start && decision.windowEnd == r.window.end
    ensures var after := AfterRequest(d, p, s, q, now); after.book == s.book && after.waits == s.waits
  {
    hide Verdict, EffectivePriority, WaitedFor, EffectiveWindow, Log, NoteWait;
  }

  /** A new id is refused for good exactly when a name is missing, the span is empty or it starts beyond the
      horizon, in that order; it is told to wait exactly when somebody is in the way. */
  lemma NewIdIsAnswered(d: MapData, p: ReservationPolicy, s: State, q: Request, now: Time)
    requires q.reservation !in s.book
    ensures var decision := Decide(d, p, s, q, now);
            && (decision.reason == EmptyIdentifier <==> !Named(q))
            && (decision.reason == InvalidWindow <==> Named(q) && !AsksForTime(q, p))
            && (decision.reason == BeyondHorizon <==>
                  Named(q) && AsksForTime(q, p) && q.requestedStart > now + p.horizon)
            && (decision.status.Rejected? <==> decision.reason in {EmptyIdentifier, InvalidWindow, BeyondHorizon})
            && (decision.status.Wait? <==>
                  && Named(q) && AsksForTime(q, p) && q.requestedStart <= now + p.horizon
                  && !Admits(d, s.book, q.resource, q.robot, Wanted(q, p), q.usage))
            && !decision.replayed
  {
    WantedIsEffective(q, p);
    VerdictResult(d, s.book, q.resource, q.robot, q.usage);
    hide Verdict, Result, EffectivePriority, WaitedFor, EffectiveWindow, AsksForTime;
  }

  /** The claims a request waits for, by the reason it is given. */
  ghost predicate InTheWay(d: MapData, book: Book, q: Request, w: TimeWindow, reason: DenialReason, id: Id) {
    && id in book && Contends(book[id], q.resource, q.robot, w)
    && (reason.OpposingTraffic? ==> OpposesDirection(d, q.resource, q.usage, book[id].usage))
    && (reason.MovementClash? ==> OpposesMovement(d, q.resource, q.usage, book[id].usage))
  }

  /** Why a request waits, for whom and until when. Oncoming traffic in a corridor comes before clashing
      movements, and those before numbers; the robots in the way are listed once each, ascending. */
  lemma WaitIsExplained(d: MapData, p: ReservationPolicy, s: State, q: Request, now: Time)
    requires Decide(d, p, s, q, now).status.Wait?
    ensures AsksForTime(q, p)
    ensures var decision, w, book := Decide(d, p, s, q, now), Wanted(q, p), s.book;
            && (decision.reason == OpposingTraffic <==> Stands(d, book, q, w, OpposingTraffic))
            && (decision.reason == MovementClash <==>
                  !Stands(d, book, q, w, OpposingTraffic) && Stands(d, book, q, w, MovementClash))
            && (decision.reason == ResourceOccupied <==>
                  !Stands(d, book, q, w, OpposingTraffic) && !Stands(d, book, q, w, MovementClash))
            && (forall robot :: robot in decision.blockingRobots <==>
                  exists id :: InTheWay(d, book, q, w, decision.reason, id) && book[id].reservation.robot == robot)
            && (forall i, j :: 0 <= i < j < |decision.blockingRobots| ==> decision.blockingRobots[i] < decision.blockingRobots[j])
            && EarliestOf(d, book, q, w, decision.reason, decision.nextAvailable)
  {
    hide EffectivePriority, WaitedFor, EffectiveWindow, AsksForTime, Contends, OpposesDirection, OpposesMovement, Peak,
         CapacityOf, InClaimOrder, Stands, EarliestOf;
    WantedIsEffective(q, p);
    var w, book := Wanted(q, p), s.book;
    StandsIs(d, book, q, w);
    BlockersAre(d, book, q, w);
    var blockers := BlockerIds(d, book, q.resource, q.robot, w, q.usage);
    var decision := Decide(d, p, s, q, now);
    VerdictParts(d, book, q, w);
    hide Verdict, BlockerIds, Result, EarliestEnd, InIdOrder, RobotsOf;
    WaitTellsVerdict(d, p, s, q, now);
    EarliestAmong(d, book, q, w, decision.reason, blockers, decision.nextAvailable);
    RobotsListed(d, book, q, w, decision.reason, blockers, decision.blockingRobots);
  }

  ghost predicate Stands(d: MapData, book: Book, q: Request, w: TimeWindow, reason: DenialReason) {
    exists id :: InTheWay(d, book, q, w, reason, id)
  }

  /** The instant at which the first of the claims in the way ends; nothing when there are none. */
  ghost predicate EarliestOf(d: MapData, book: Book, q: Request, w: TimeWindow, reason: DenialReason, t: Option<Time>) {
    match t
    case None => forall id :: !InTheWay(d, book, q, w, reason, id)
    case Some(end) =>
      && (exists id :: InTheWay(d, book, q, w, reason, id) && book[id].reservation.window.end == end)
      && (forall id :: InTheWay(d, book, q, w, reason, id) ==> end <= book[id].reservation.window.end)
  }

  lemma WaitTellsVerdict(d: MapData, p: ReservationPolicy, s: State, q: Request, now: Time)
    requires Decide(d, p, s, q, now).status.Wait?
    ensures AsksForTime(q, p)
    ensures var decision, verdict := Decide(d, p, s, q, now), Verdict(d, s.book, q.resource, q.robot, Wanted(q, p), q.usage);
            && verdict.result != Admitted && decision.reason == ReasonFor(verdict.result)
            && decision.nextAvailable == verdict.nextAvailable && decision.blockingRobots == verdict.blockingRobots
  {
    WantedIsEffective(q, p);
    hide Verdict, EffectivePriority, WaitedFor, EffectiveWindow, AsksForTime;
  }

  lemma VerdictParts(d: MapData, book: Book, q: Request, w: TimeWindow)
    ensures var verdict, blockers := Verdict(d, book, q.resource, q.robot, w, q.usage), BlockerIds(d, book, q.resource, q.robot, w, q.usage);
            && verdict.result == Result(d, book, q.resource, q.robot, w, q.usage)
            && verdict.nextAvailable == EarliestEnd(book, blockers)
            && verdict.blockingRobots == InIdOrder(RobotsOf(book, blockers))
  {
    hide Result, BlockerIds, InClaimOrder, Peak, EarliestEnd, InIdOrder, RobotsOf, CapacityOf;
  }

  lemma StandsIs(d: MapData, book: Book, q: Request, w: TimeWindow)
    ensures Stands(d, book, q, w, OpposingTraffic) <==> OpposingIds(d, book, q.resource, q.robot, w, q.usage) != {}
    ensures !Stands(d, book, q, w, OpposingTraffic) ==>
      (Stands(d, book, q, w, MovementClash) <==> CrossingIds(d, book, q.resource, q.robot, w, q.usage) != {})
  {
    hide Contends, OpposesDirection, OpposesMovement;
    var opposing := OpposingIds(d, book, q.resource, q.robot, w, q.usage);
    var crossing := CrossingIds(d, book, q.resource, q.robot, w, q.usage);
    if opposing != {} {
      var id := Member(opposing);
      assert InTheWay(d, book, q, w, OpposingTraffic, id);
    }
    if crossing != {} {
      var id := Member(crossing);
      assert InTheWay(d, book, q, w, MovementClash, id);
    }
    if id :| InTheWay(d, book, q, w, OpposingTraffic, id) { assert id in opposing; }
    if id :| InTheWay(d, book, q, w, MovementClash, id) {
      assert id in crossing || InTheWay(d, book, q, w, OpposingTraffic, id);
    }
  }

  lemma BlockersAre(d: MapData, book: Book, q: Request, w: TimeWindow)
    ensures var result := Result(d, book, q.resource, q.robot, w, q.usage);
            result != Admitted ==>
              forall id :: id in BlockerIds(d, book, q.resource, q.robot, w, q.usage) <==>
                InTheWay(d, book, q, w, ReasonFor(result), id)
    ensures var reason := ReasonFor(Result(d, book, q.resource, q.robot, w, q.usage));
            && (reason == OpposingTraffic <==> OpposingIds(d, book, q.resource, q.robot, w, q.usage) != {})
            && (reason == MovementClash <==>
                  OpposingIds(d, book, q.resource, q.robot, w, q.usage) == {} && CrossingIds(d, book, q.resource, q.robot, w, q.usage) != {})
  {
    hide Contends, OpposesDirection, OpposesMovement, Peak, CapacityOf;
    var opposing := OpposingIds(d, book, q.resource, q.robot, w, q.usage);
    forall id | id in book && Contends(book[id], q.resource, q.robot, w) && opposing == {}
      ensures !OpposesDirection(d, q.resource, q.usage, book[id].usage)
    {
      assert id !in opposing;
    }
  }

  lemma EarliestAmong(d: MapData, book: Book, q: Request, w: TimeWindow, reason: DenialReason, ids: set<Id>,
                      t: Option<Time>)
    requires forall id :: id in ids <==> InTheWay(d, book, q, w, reason, id)
    requires t == EarliestEnd(book, ids)
    ensures EarliestOf(d, book, q, w, reason, t)
  {
    assert IsEarliestEnd(book, ids, t);
    assert forall id :: InTheWay(d, book, q, w, reason, id) ==> id in book;
    hide InTheWay, EarliestEnd;
  }

  lemma RobotsListed(d: MapData, book: Book, q: Request, w: TimeWindow, reason: DenialReason, ids: set<Id>,
                     robots: seq<Id>)
    requires forall id :: id in ids <==> InTheWay(d, book, q, w, reason, id)
    requires robots == InIdOrder(RobotsOf(book, ids))
    ensures forall robot :: robot in robots <==>
      exists id :: InTheWay(d, book, q, w, reason, id) && book[id].reservation.robot == robot
    ensures forall i, j :: 0 <= i < j < |robots| ==> robots[i] < robots[j]
  {
    assert forall id :: InTheWay(d, book, q, w, reason, id) ==> id in book;
    hide InTheWay, InIdOrder;
  }

  /** The verdict behind an answer lists exactly the claims in the way, by start and then id, and how many robots the
      resource admits; it counts the others inside at the fullest instant unless traffic or movements decided. */
  lemma VerdictListsBlockers(d: MapData, book: Book, q: Request, w: TimeWindow)
    ensures var verdict := Verdict(d, book, q.resource, q.robot, w, q.usage);
            && (forall id :: id in verdict.blockers <==>
                  verdict.result != Admitted && InTheWay(d, book, q, w, ReasonFor(verdict.result), id))
            && (forall i, j :: 0 <= i < j < |verdict.blockers| ==> Sooner(book, verdict.blockers[i], verdict.blockers[j]))
            && verdict.capacity == CapacityOf(d, q.resource)
            && (verdict.result in {Admitted, CapacityExceeded} ==> IsPeak(book, q.resource, q.robot, w, verdict.peakHolders))
            && (verdict.result in {OpposingDirection, MovementConflict} ==> verdict.peakHolders == 0)
  {
    hide Result, Peak, InIdOrder, RobotsOf, CapacityOf, EarliestEnd, IsPeak, InTheWay, Sooner, InClaimOrder;
    var blockers := BlockerIds(d, book, q.resource, q.robot, w, q.usage);
    BlockersAre(d, book, q, w);
    BlockersAreKnown(d, book, q, w);
    InClaimOrderMembers(book, blockers);
    ListedSooner(book, blockers);
  }

  /** Claim `a` starts before claim `b`, or together with it under a smaller id. */
  predicate Sooner(book: Book, a: Id, b: Id) {
    && a in book && b in book
    && (|| book[a].reservation.window.start < book[b].reservation.window.start
        || (book[a].reservation.window.start == book[b].reservation.window.start && a < b))
  }

  lemma BlockersAreKnown(d: MapData, book: Book, q: Request, w: TimeWindow)
    ensures forall id :: id in BlockerIds(d, book, q.resource, q.robot, w, q.usage) ==> id in book
  {
    hide Contends, OpposesDirection, OpposesMovement, Peak, CapacityOf;
  }

  lemma ListedSooner(book: Book, ids: set<Id>)
    requires forall id :: id in ids ==> id in book
    ensures var q := InClaimOrder(book, ids); forall i, j :: 0 <= i < j < |q| ==> Sooner(book, q[i], q[j])
  {
    var keys, q := InKeyOrder(KeysOf(book, ids)), InClaimOrder(book, ids);
    forall i, j | 0 <= i < j < |q| ensures Sooner(book, q[i], q[j]) {
      assert keys[i] in keys && keys[j] in keys && KeyLess(keys[i], keys[j]);
    }
  }

  // ------------------------------------------------------------- what an answer and a grant carry

  /** Every answer names its request and instant and carries the aged priority. A request that is never judged on
      time is told the span it asked for, one that is judged the buffered span. */
  lemma AnswerEchoesRequest(d: MapData, p: ReservationPolicy, s: State, q: Request, now: Time)
    ensures var decision := Decide(d, p, s, q, now);
            && decision.reservation == q.reservation && decision.robot == q.robot && decision.resource == q.resource
            && decision.decidedAt == now
            && decision.effectivePriority == EffectivePriority(q.priority, WaitedFor(s.waits, q.robot, q.resource, now), p)
            && (!Named(q) || (q.reservation !in s.book && !AsksForTime(q, p)) ==>
                  decision.windowStart == q.requestedStart && decision.windowEnd == q.requestedStart + q.estimatedDuration)
            && (Named(q) && q.reservation !in s.book && AsksForTime(q, p) ==>
                  decision.windowStart == Wanted(q, p).start && decision.windowEnd == Wanted(q, p).end)
            && (!decision.status.Wait? ==> decision.nextAvailable.None? && decision.blockingRobots == [])
  {
    WantedIsEffective(q, p);
    hide Verdict, EffectivePriority, WaitedFor, EffectiveWindow, AsksForTime;
  }

  /** A grant is written down as it was asked and answered: pending, over the buffered span, at the aged priority,
      with the request's own span, usage, route and task. */
  lemma GrantIsRecorded(d: MapData, p: ReservationPolicy, s: State, q: Request, now: Time)
    requires NewGrant(d, p, s, q, now)
    ensures AsksForTime(q, p)
    ensures var aged := EffectivePriority(q.priority, WaitedFor(s.waits, q.robot, q.resource, now), p);
            AfterRequest(d, p, s, q, now).book
            == s.book[q.reservation :=
                 Record(Reservation(q.reservation, q.robot, q.resource, Wanted(q, p), Pending, aged, now), q.usage,
                        q.requestedStart, q.estimatedDuration, now, now, false, q.route, q.task)]
  {
    WantedIsEffective(q, p);
    GrantedExactlyWhen(d, p, s, q, now);
    AnswerEchoesRequest(d, p, s, q, now);
    hide AfterRequest, Decide, Admits, EffectivePriority, WaitedFor, EffectiveWindow, AsksForTime;
  }
}
