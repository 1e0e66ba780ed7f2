/** Short runs from an empty table in which a promise of the documentation fails. */
module Witnesses {
  import opened Core
  import opened Ordering
  import opened Graph
  import opened Claims
  import opened Admission
  import opened Verdicts
  import opened Policy
  import opened Protocol
  import opened Safety
  import opened History

  /** A map that knows no resource: each then admits one robot at a time. */
  const BLANK := MapData(1, [], [], [], [], [])

  /** No buffers, no aging, no decision log, and a horizon and grant timeout of a thousand. */
  const PLAIN := ReservationPolicy(0, 0, 1000, 1000, 0.0, 0)

  const AISLE: Id := 7

  function Ask(id: Id, robot: Id, start: Time, duration: int): Request {
    Request(id, robot, AISLE, start, duration, 0, ResourceUsage(None, None), None, None)
  }

  /** `r` is this robot's claim on the aisle, as granted. */
  predicate IsClaim(r: Record, robot: Id, start: Time, end: Time, state: ReservationState) {
    && r.reservation.robot == robot && r.reservation.resource == AISLE && r.reservation.state == state
    && r.reservation.window.start == start && r.reservation.window.end == end
    && r.usage == ResourceUsage(None, None) && !r.committed
  }

  lemma BlankKnowsNothing()
    ensures forall r :: CapacityOf(BLANK, r) == 1 && FindCorridor(BLANK, r).None? && FindIntersection(BLANK, r).None?
  {
  }

  ghost function Asked(s: State, id: Id, robot: Id, start: Time, duration: int): State {
    AfterRequest(BLANK, PLAIN, s, Ask(id, robot, start, duration), 0)
  }

  /** Nobody else claims the aisle over this span. */
  predicate Clear(book: Book, robot: Id, w: TimeWindow) {
    forall i :: i in book ==> !Contends(book[i], AISLE, robot, w)
  }

  lemma ClearSpanIsAdmitted(book: Book, robot: Id, w: TimeWindow)
    requires Clear(book, robot, w)
    ensures Admits(BLANK, book, AISLE, robot, w, ResourceUsage(None, None))
  {
    BlankKnowsNothing();
    hide Admits, Contends, CapacityOf, FindCorridor, FindIntersection;
    UncontestedIsAdmitted(BLANK, book, AISLE, robot, w, ResourceUsage(None, None));
  }

  /** A span nobody else overlaps is granted. */
  lemma ClearSpanIsGranted(s: State, id: Id, robot: Id, start: Time, duration: int)
    requires id != EMPTY_ID && robot != EMPTY_ID && id !in s.book && 0 < duration && start <= 1000
    requires Clear(s.book, robot, Span(start, start + duration))
    ensures var after := Asked(s, id, robot, start, duration).book;
            && after.Keys == s.book.Keys + {id} && (forall i :: i in s.book ==> after[i] == s.book[i])
            && IsClaim(after[id], robot, start, start + duration, Pending)
  {
    var q, w := Ask(id, robot, start, duration), Span(start, start + duration);
    AskIsNew(s, id, robot, start, duration);
    GrantedExactlyWhen(BLANK, PLAIN, s, q, 0);
    GrantIsClaim(id, robot, start, duration, Decide(BLANK, PLAIN, s, q, 0).effectivePriority);
    hide Decide, AfterRequest, Clear, NewGrant, EffectiveWindow, GrantedRecord, IsClaim;
  }

  lemma AskIsNew(s: State, id: Id, robot: Id, start: Time, duration: int)
    requires id != EMPTY_ID && robot != EMPTY_ID && id !in s.book && 0 < duration && start <= 1000
    requires Clear(s.book, robot, Span(start, start + duration))
    ensures NewGrant(BLANK, PLAIN, s, Ask(id, robot, start, duration), 0)
  {
    hide Admits, Clear, Contends;
    ClearSpanIsAdmitted(s.book, robot, Span(start, start + duration));
    NewGrantWhenAdmitted(s, Ask(id, robot, start, duration), Span(start, start + duration));
  }

  lemma NewGrantWhenAdmitted(s: State, q: Request, w: TimeWindow)
    requires q.reservation != EMPTY_ID && q.robot != EMPTY_ID && q.resource != EMPTY_ID && q.reservation !in s.book
    requires EffectiveWindow(q.requestedStart, q.estimatedDuration, PLAIN) == Some(w) && q.requestedStart <= PLAIN.horizon
    requires Admits(BLANK, s.book, q.resource, q.robot, w, q.usage)
    ensures NewGrant(BLANK, PLAIN, s, q, 0)
  {
    hide Admits, EffectiveWindow;
  }

  lemma GrantIsClaim(id: Id, robot: Id, start: Time, duration: int, effective: int)
    requires 0 < duration
    ensures var q := Ask(id, robot, start, duration);
            && EffectiveWindow(start, duration, PLAIN) == Some(Span(start, start + duration))
            && IsClaim(GrantedRecord(PLAIN, q, Span(start, start + duration), effective, 0), robot, start, start + duration, Pending)
  {
  }

  /** A span another robot overlaps is not admitted. */
  lemma TakenSpanIsRefused(book: Book, other: Id, robot: Id, w: TimeWindow)
    requires other in book && Contends(book[other], AISLE, robot, w)
    ensures !Admits(BLANK, book, AISLE, robot, w, ResourceUsage(None, None))
  {
    BlankKnowsNothing();
    hide Admits, Contends, CapacityOf, FindCorridor, FindIntersection;
    ContestedIsNotAdmitted(BLANK, book, other, AISLE, robot, w, ResourceUsage(None, None));
  }

  /** Robot 1 in the aisle over [0, 10); robots 2 and 3 queued, the later one under the smaller id. */
  predicate Queued(book: Book) {
    && book.Keys == {9, 5, 3}
    && IsClaim(book[9], 1, 0, 10, Active)
    && IsClaim(book[5], 2, 20, 30, Pending)
    && IsClaim(book[3], 3, 40, 50, Pending)
  }

  predicate OneIn(book: Book) {
    book.Keys == {9} && IsClaim(book[9], 1, 0, 10, Pending)
  }

  predicate TwoIn(book: Book) {
    book.Keys == {9, 5} && IsClaim(book[9], 1, 0, 10, Pending) && IsClaim(book[5], 2, 20, 30, Pending)
  }

  predicate ThreeIn(book: Book) {
    && book.Keys == {9, 5, 3} && IsClaim(book[9], 1, 0, 10, Pending)
    && IsClaim(book[5], 2, 20, 30, Pending) && IsClaim(book[3], 3, 40, 50, Pending)
  }

  lemma FirstGrant()
    ensures OneIn(Asked(EMPTY, 9, 1, 0, 10).book)
  {
    hide Asked, IsClaim;
    ClearSpanIsGranted(EMPTY, 9, 1, 0, 10);
  }

  lemma SecondGrant(s: State)
    requires OneIn(s.book)
    ensures TwoIn(Asked(s, 5, 2, 20, 10).book)
  {
    hide Asked, Contends;
    ApartDoesNotContend(s.book[9], 2, Span(20, 30));
    hide IsClaim;
    ClearSpanIsGranted(s, 5, 2, 20, 10);
  }

  lemma ThirdGrant(s: State)
    requires TwoIn(s.book)
    ensures ThreeIn(Asked(s, 3, 3, 40, 10).book)
  {
    hide Asked, Contends;
    ApartDoesNotContend(s.book[9], 3, Span(40, 50));
    ApartDoesNotContend(s.book[5], 3, Span(40, 50));
    hide IsClaim;
    ClearSpanIsGranted(s, 3, 3, 40, 10);
  }

  lemma FirstEnters(s: State)
    requires ThreeIn(s.book)
    ensures Queued(AfterActivate(s, 9, 0).book)
  {
  }

  lemma ThreeRobotsQueue() returns (states: seq<State>, calls: seq<Call>)
    ensures Run(BLANK, PLAIN, states, calls) && states[0] == EMPTY && |states| == 5 && Queued(states[4].book)
  {
    hide AfterRequest, AfterActivate, OneIn, TwoIn, ThreeIn, Queued;
    var s1 := Asked(EMPTY, 9, 1, 0, 10);
    var s2 := Asked(s1, 5, 2, 20, 10);
    var s3 := Asked(s2, 3, 3, 40, 10);
    var s4 := AfterActivate(s3, 9, 0);
    FirstGrant();
    SecondGrant(s1);
    ThirdGrant(s2);
    FirstEnters(s3);
    states := [EMPTY, s1, s2, s3, s4];
    calls := [RequestOne(Ask(9, 1, 0, 10), 0), RequestOne(Ask(5, 2, 20, 10), 0), RequestOne(Ask(3, 3, 40, 10), 0), Activate(9, 0)];
  }

  lemma ApartDoesNotContend(r: Record, robot: Id, w: TimeWindow)
    requires r.reservation.window.end <= w.start || w.end <= r.reservation.window.start
    ensures !Contends(r, AISLE, robot, w)
  {
  }

  lemma OverlapContends(r: Record, robot: Id, w: TimeWindow)
    requires HoldsResource(r.reservation.state) && r.reservation.resource == AISLE && r.reservation.robot != robot
    requires r.reservation.window.start < w.end && w.start < r.reservation.window.end
    ensures Contends(r, AISLE, robot, w)
  {
  }

  /** The revoked claims are promised in id order. In this run an extension is granted and revokes
      claims 5 and 3 in an order that is not theirs. */
  lemma RevokedOutOfIdOrder() returns (states: seq<State>, calls: seq<Call>)
    ensures Run(BLANK, PLAIN, states, calls) && states[0] == EMPTY && |states| == 5
    ensures var o := Extension(BLANK, states[4], 9, 60, 5);
            o.granted && 5 in o.revoked && 3 in o.revoked && !Ascending(o.revoked, IdLess)
  {
    states, calls := ThreeRobotsQueue();
    var s := states[4];
    hide Run, Step;
    QueueMakesWay(s.book);
    RevokedInIdOrderExactlyWhen(BLANK, s, 9, 60, 5);
    ExtensionIsAllOrNothing(BLANK, s, 9, 60, 5);
    hide Admits, Displaced, Contends, CapacityOf, Ascending, AfterExtend, InClaimOrder, RobotsOf, InIdOrder;
    var displaced := Displaced(s.book, 9, 60);
    assert !StartsFollowIds(s.book, displaced) by { assert 3 in displaced && 5 in displaced; }
    RevokedAre(s, 9, 60, 5);
  }

  lemma RevokedAre(s: State, id: Id, newEnd: Time, now: Time)
    requires ExtensionCase(BLANK, s.book, id, newEnd).RoomAfterRevoking?
    ensures Extension(BLANK, s, id, newEnd, now).granted
    ensures forall x :: x in Displaced(s.book, id, newEnd) ==> x in Extension(BLANK, s, id, newEnd, now).revoked
  {
    InClaimOrderMembers(s.book, Displaced(s.book, id, newEnd));
    hide Admits, CapacityOf, InClaimOrder, Contends;
  }

  lemma QueueIsDisplaced(book: Book)
    requires Queued(book)
    ensures Displaced(book, 9, 60) == {5, 3}
    ensures Contends(book[5], AISLE, 1, Span(10, 60))
  {
    var w := Span(10, 60);
    OverlapContends(book[5], 1, w);
    OverlapContends(book[3], 1, w);
    OwnClaimDoesNotContend(book[9], 1, w);
    hide Contends;
    assert ContenderIds(book, AISLE, 1, w) == {5, 3};
  }

  lemma QueueIsCallable(book: Book)
    requires Queued(book)
    ensures forall o :: o in {5, 3} ==> o in book && !Irrevocable(book[o])
    ensures 9 in book && !Terminal(book[9].reservation.state) && book[9].reservation.window.end == 10
    ensures book[9].reservation.resource == AISLE && book[9].reservation.robot == 1 && book[9].usage == ResourceUsage(None, None)
  {
  }

  lemma QueueMakesWay(book: Book)
    requires Queued(book)
    ensures ExtensionCase(BLANK, book, 9, 60).RoomAfterRevoking?
    ensures Displaced(book, 9, 60) == {5, 3}
  {
    QueueIsDisplaced(book);
    QueueIsCallable(book);
    BlankKnowsNothing();
    TakenSpanIsRefused(book, 5, 1, Span(10, 60));
    hide Admits, Contends, CapacityOf, FindCorridor, FindIntersection, Displaced, Queued;
  }

  lemma OwnClaimDoesNotContend(r: Record, robot: Id, w: TimeWindow)
    requires r.reservation.robot == robot
    ensures !Contends(r, AISLE, robot, w)
  {
  }

  lemma CommitIsKept(s: State)
    requires OneIn(s.book)
    ensures var r := AfterCommit(s, 9).book;
            9 in r && r[9].committed && r[9].reservation.state.Pending? && r[9].reservation.window.end == 10
  {
  }

  lemma SweptWhenPast(s: State, id: Id, now: Time)
    requires id in s.book && s.book[id].committed && s.book[id].reservation.state.Pending? && s.book[id].reservation.window.end <= now
    ensures Ends(s.book, AfterSweep(PLAIN, s, now).book, id)
  {
    CommitDoesNotProtect(PLAIN, s, id, now);
    hide AfterSweep, Ends;
  }

  lemma OnSteps(s1: State, s2: State, s3: State)
    requires s1 == Asked(EMPTY, 9, 1, 0, 10) && s2 == AfterCommit(s1, 9) && s3 == AfterSweep(PLAIN, s2, 10)
    ensures Step(BLANK, PLAIN, EMPTY, RequestOne(Ask(9, 1, 0, 10), 0), s1)
    ensures Step(BLANK, PLAIN, s1, Commit(9), s2) && Step(BLANK, PLAIN, s2, Sweep(10), s3)
  {
    hide AfterRequest, AfterCommit, AfterSweep;
  }

  /** Commit marks a claim as past the point where cancelling would help. In this run a committed claim
      that nobody entered is ended all the same, by a sweep. */
  lemma CommittedClaimIsSwept() returns (states: seq<State>, calls: seq<Call>)
    ensures Run(BLANK, PLAIN, states, calls) && states[0] == EMPTY && |states| == 4
    ensures 9 in states[2].book && states[2].book[9].committed && states[2].book[9].reservation.state.Pending?
    ensures calls[2].Sweep? && Ends(states[2].book, states[3].book, 9)
  {
    hide Asked, AfterCommit, AfterSweep, OneIn, Ends, Step, Run;
    var s1 := Asked(EMPTY, 9, 1, 0, 10);
    var s2 := AfterCommit(s1, 9);
    var s3 := AfterSweep(PLAIN, s2, 10);
    FirstGrant();
    CommitIsKept(s1);
    SweptWhenPast(s2, 9, 10);
    OnSteps(s1, s2, s3);
    states := [EMPTY, s1, s2, s3];
    calls := [RequestOne(Ask(9, 1, 0, 10), 0), Commit(9), Sweep(10)];
    ThreeStepsRun(states, calls);
  }

  lemma ThreeStepsRun(states: seq<State>, calls: seq<Call>)
    requires |states| == 4 && |calls| == 3
    requires Step(BLANK, PLAIN, states[0], calls[0], states[1]) && Step(BLANK, PLAIN, states[1], calls[1], states[2])
    requires Step(BLANK, PLAIN, states[2], calls[2], states[3])
    ensures Run(BLANK, PLAIN, states, calls)
  {
    hide Step;
  }
}
