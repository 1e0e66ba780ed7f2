/** What each call on existing claims does, when it refuses, and what it counts. */
module CallEffects {
  import opened Core
  import opened Ordering
  import opened Graph
  import opened Claims
  import opened Admission
  import opened Verdicts
  import opened Policy
  import opened Protocol
  import opened History
  import opened Waiting

  predicate Live(book: Book, id: Id) {
    id in book && book[id].reservation.state in {Pending, Active}
  }

  predicate Finished(book: Book, id: Id) {
    id in book && book[id].reservation.state in {Released, Expired, Cancelled}
  }

  /** Each refusal has one reason. A claim never entered cannot be released, an entered one cannot be cancelled,
      and a commit is looked at before anything else when cancelling. */
  lemma RefusalsSayWhy(book: Book, id: Id)
    ensures var e := MoveError(book, id, Active);
            (e.NoError? <==> Live(book, id)) && (e.AlreadyTerminal? <==> Finished(book, id)) && (e.UnknownReservation? <==> id !in book)
    ensures var e := MoveError(book, id, Released);
            && (e.NoError? <==> id in book && book[id].reservation.state == Active)
            && (e.InvalidTransition? <==> id in book && book[id].reservation.state == Pending)
            && (e.AlreadyTerminal? <==> Finished(book, id)) && (e.UnknownReservation? <==> id !in book)
    ensures var e := MoveError(book, id, Expired);
            (e.NoError? <==> Live(book, id)) && (e.AlreadyTerminal? <==> Finished(book, id)) && (e.UnknownReservation? <==> id !in book)
    ensures var e := CancelError(book, id);
            && (e.NoError? <==> id in book && book[id].reservation.state == Pending && !book[id].committed)
            && (e.AlreadyCommitted? <==> id in book && book[id].committed)
            && (e.InvalidTransition? <==> id in book && book[id].reservation.state == Active && !book[id].committed)
            && (e.AlreadyTerminal? <==> Finished(book, id) && !book[id].committed) && (e.UnknownReservation? <==> id !in book)
    ensures var e := CommitError(book, id);
            (e.NoError? <==> Live(book, id)) && (e.AlreadyTerminal? <==> Finished(book, id)) && (e.UnknownReservation? <==> id !in book)
  {
  }

  /** Only this record differs, and only in what the call is for. */
  ghost predicate Rewrites(before: State, after: State, id: Id, r: Record) {
    && id in before.book && after.book == before.book[id := r]
    && after.waits == before.waits && after.journal == before.journal
  }

  function Moving(r: Record, next: ReservationState, now: Time): Record {
    Record(r.reservation.(state := next), r.usage, r.requestedStart, r.requestedDuration, r.decidedAt, now, r.committed,
           r.route, r.task)
  }

  /** A call on one claim changes that record's state and the instant of its last transition, or the commit
      mark, exactly when the claim is in a state that allows it; otherwise it changes nothing. */
  lemma OneClaimChanges(d: MapData, p: ReservationPolicy, s: State, c: Call, after: State)
    requires Step(d, p, s, c, after)
    ensures match c
            case Activate(id, now) => if Live(s.book, id) then Rewrites(s, after, id, Moving(s.book[id], Active, now)) else after == s
            case Release(id, now) =>
              if id in s.book && s.book[id].reservation.state == Active
              then Rewrites(s, after, id, Moving(s.book[id], Released, now)) else after == s
            case Cancel(id, now) =>
              if id in s.book && s.book[id].reservation.state == Pending && !s.book[id].committed
              then Rewrites(s, after, id, Moving(s.book[id], Cancelled, now)) else after == s
            case Expire(id, now) => if Live(s.book, id) then Rewrites(s, after, id, Moving(s.book[id], Expired, now)) else after == s
            case Commit(id) => if Live(s.book, id) then Rewrites(s, after, id, s.book[id].(committed := true)) else after == s
            case _ => true
  {
    hide AfterRequest, AfterRequests, AfterRecover, AfterExtend, AfterSweep, AfterReleaseAllFor, MoveError, CancelError, CommitError;
    match c
    case Activate(id, now) => RefusalsSayWhy(s.book, id);
    case Release(id, now) => RefusalsSayWhy(s.book, id);
    case Cancel(id, now) => RefusalsSayWhy(s.book, id);
    case Expire(id, now) => RefusalsSayWhy(s.book, id);
    case Commit(id) => RefusalsSayWhy(s.book, id);
    case _ =>
  }

  /** After a sweep every live claim past its window is one somebody entered, and those are the overrunning ones
      it reports. It ends exactly the claims nobody entered whose window or grant has run out, as expired. */
  lemma SweepTidies(p: ReservationPolicy, s: State, now: Time)
    ensures var after := AfterSweep(p, s, now);
            && after.book.Keys == s.book.Keys && after.waits == s.waits && after.journal == s.journal
            && (forall id :: id in s.book ==>
                  var r := s.book[id];
                  var over := r.reservation.window.end <= now || r.decidedAt + p.grantTimeout <= now;
                  after.book[id] == if r.reservation.state == Pending && over then Moving(r, Expired, now) else r)
            && (forall id :: id in OverrunningIds(s.book, now) <==>
                  Live(after.book, id) && after.book[id].reservation.window.end <= now)
  {
  }

  /** Once everything of a robot is released it holds nothing and waits for nothing: what it was in is released,
      what it was not in is cancelled, and no other robot's claim or wait is touched. */
  lemma ReleaseAllLeavesNothing(s: State, robot: Id, now: Time)
    ensures var after := AfterReleaseAllFor(s, robot, now);
            && after.book.Keys == s.book.Keys && after.waits.Keys == s.waits.Keys - {robot} && after.journal == s.journal
            && (forall r :: r in after.waits ==> after.waits[r] == s.waits[r])
            && (forall id :: id in s.book ==>
                  var r := s.book[id];
                  after.book[id] ==
                    if r.reservation.robot != robot then r
                    else match r.reservation.state
                      case Active => Moving(r, Released, now)
                      case Pending => Moving(r, Cancelled, now)
                      case _ => r)
  {
  }

  // ------------------------------------------------------------- what is counted

  /** The live claims that ended in this state. */
  function EndedAs(before: Book, after: Book, x: ReservationState): set<Id> {
    set id | Live(before, id) && id in before && id in after && after[id].reservation.state == x
  }

  function EndMoved(before: Book, after: Book): set<Id> {
    set id | id in before && id in after && after[id].reservation.window.end != before[id].reservation.window.end
  }

  /** What was counted between the two states is what happened to the claims. */
  ghost predicate CountsEnds(s: State, after: State) {
    && after.metrics.released == s.metrics.released + |EndedAs(s.book, after.book, Released)|
    && after.metrics.expired == s.metrics.expired + |EndedAs(s.book, after.book, Expired)|
    && after.metrics.cancelled == s.metrics.cancelled + |EndedAs(s.book, after.book, Cancelled)|
    && after.metrics.extended == s.metrics.extended + |EndMoved(s.book, after.book)|
  }

  lemma NothingEnded(s: State, after: State)
    requires forall id :: id in s.book ==> id in after.book && after.book[id].reservation == s.book[id].reservation
    requires after.metrics.released == s.metrics.released && after.metrics.expired == s.metrics.expired
    requires after.metrics.cancelled == s.metrics.cancelled && after.metrics.extended == s.metrics.extended
    ensures CountsEnds(s, after)
  {
    assert EndedAs(s.book, after.book, Released) == {};
    assert EndedAs(s.book, after.book, Expired) == {};
    assert EndedAs(s.book, after.book, Cancelled) == {};
    assert EndMoved(s.book, after.book) == {};
  }

  lemma MovedSetEnded(before: Book, ids: set<Id>, next: ReservationState, now: Time)
    requires forall id :: id in ids ==> Live(before, id)
    requires Terminal(next)
    ensures var after := AllMoved(before, ids, next, now);
            && EndedAs(before, after, next) == ids && EndMoved(before, after) == {}
            && forall x :: Terminal(x) && x != next ==> EndedAs(before, after, x) == {}
  {
    var after := AllMoved(before, ids, next, now);
    assert EndedAs(before, after, next) == ids;
  }

  lemma OneMoveCounts(s: State, id: Id, next: ReservationState, now: Time)
    requires Live(s.book, id)
    ensures var after := s.book[id := WithState(s.book[id], next, now)];
            && (forall x :: Terminal(x) ==> |EndedAs(s.book, after, x)| == if x == next then 1 else 0)
            && |EndMoved(s.book, after)| == 0
  {
    var after := s.book[id := WithState(s.book[id], next, now)];
    forall x | Terminal(x) ensures |EndedAs(s.book, after, x)| == if x == next then 1 else 0 {
      assert EndedAs(s.book, after, x) == if x == next then {id} else {};
    }
    assert EndMoved(s.book, after) == {};
  }

  /** The records after moving one live claim are counted once the counter of its end is. */
  lemma MoveCounted(s: State, id: Id, next: ReservationState, now: Time, after: State)
    requires Live(s.book, id) && after.book == s.book[id := WithState(s.book[id], next, now)]
    requires after.metrics.released == s.metrics.released + One(next == Released)
    requires after.metrics.expired == s.metrics.expired + One(next == Expired)
    requires after.metrics.cancelled == s.metrics.cancelled + One(next == Cancelled)
    requires after.metrics.extended == s.metrics.extended
    ensures CountsEnds(s, after)
  {
    OneMoveCounts(s, id, next, now);
    hide EndedAs, EndMoved, WithState, Live;
  }

  lemma OneClaimCounts(s: State, c: Call, after: State)
    requires match c
             case Activate(x, now) => after == AfterActivate(s, x, now)
             case Release(x, now) => after == AfterRelease(s, x, now)
             case Cancel(x, now) => after == AfterCancel(s, x, now)
             case Commit(x) => after == AfterCommit(s, x)
             case Expire(x, now) => after == AfterExpire(s, x, now)
             case _ => false
    ensures CountsEnds(s, after) && after.metrics.revoked == s.metrics.revoked
  {
    hide CountsEnds, MoveError, CancelError, CommitError, WithState;
    match c
    case Activate(id, now) =>
      RefusalsSayWhy(s.book, id);
      if Live(s.book, id) { MoveCounted(s, id, Active, now, after); } else { NothingEnded(s, after); }
    case Release(id, now) =>
      RefusalsSayWhy(s.book, id);
      if MoveError(s.book, id, Released).NoError? { MoveCounted(s, id, Released, now, after); } else { NothingEnded(s, after); }
    case Cancel(id, now) =>
      RefusalsSayWhy(s.book, id);
      if CancelError(s.book, id).NoError? { MoveCounted(s, id, Cancelled, now, after); } else { NothingEnded(s, after); }
    case Expire(id, now) =>
      RefusalsSayWhy(s.book, id);
      if Live(s.book, id) { MoveCounted(s, id, Expired, now, after); } else { NothingEnded(s, after); }
    case Commit(id) => NothingEnded(s, after);
  }

  lemma ReleaseAllEnded(book: Book, robot: Id, now: Time)
    ensures var entered, queued := EnteredIds(book, robot), QueuedIds(book, robot);
            var after := AllMoved(AllMoved(book, entered, Released, now), queued, Cancelled, now);
            && EndedAs(book, after, Released) == entered && EndedAs(book, after, Cancelled) == queued
            && EndedAs(book, after, Expired) == {} && EndMoved(book, after) == {}
  {
  }

  lemma ReleaseAllCounts(s: State, robot: Id, now: Time)
    ensures CountsEnds(s, AfterReleaseAllFor(s, robot, now))
  {
    ReleaseAllEnded(s.book, robot, now);
    hide EndedAs, EndMoved, EnteredIds, QueuedIds, AllMoved;
  }

  lemma SweepCounts(p: ReservationPolicy, s: State, now: Time)
    ensures CountsEnds(s, AfterSweep(p, s, now))
  {
    MovedSetEnded(s.book, UnusedIds(s.book, p, now), Expired, now);
    hide EndedAs, EndMoved, UnusedIds;
  }

  lemma ExtendCounts(d: MapData, s: State, id: Id, newEnd: Time, now: Time)
    ensures var after := AfterExtend(d, s, id, newEnd, now);
            && CountsEnds(s, after)
            && after.metrics.revoked == s.metrics.revoked + |EndedAs(s.book, after.book, Cancelled)|
  {
    hide ExtensionCase, Displaced, CountsEnds, EndedAs, EndMoved, WithState, WithEnd;
    match ExtensionCase(d, s.book, id, newEnd)
    case Refused(_) => NothingEnded(s, s); NobodyEnded(s.book);
    case RoomAsIs => GrownSetEnded(s.book, {}, id, newEnd, now); ExtendCountsRoom(d, s, id, newEnd, now);
    case RoomAfterRevoking =>
      DisplacedArePending(d, s.book, id, newEnd);
      GrownSetEnded(s.book, Displaced(s.book, id, newEnd), id, newEnd, now);
      ExtendCountsRevoked(d, s, id, newEnd, now);
  }

  lemma NobodyEnded(book: Book)
    ensures forall x :: Terminal(x) ==> EndedAs(book, book, x) == {}
  {
  }

  lemma GrownSetEnded(before: Book, ids: set<Id>, id: Id, newEnd: Time, now: Time)
    requires Live(before, id) && before[id].reservation.window.end < newEnd && id !in ids
    requires forall x :: x in ids ==> Live(before, x)
    ensures var after := AllMoved(before, ids, Cancelled, now)[id := WithEnd(before[id], newEnd)];
            && EndedAs(before, after, Cancelled) == ids && EndedAs(before, after, Released) == {}
            && EndedAs(before, after, Expired) == {} && EndMoved(before, after) == {id}
  {
  }

  lemma ExtendCountsRoom(d: MapData, s: State, id: Id, newEnd: Time, now: Time)
    requires ExtensionCase(d, s.book, id, newEnd).RoomAsIs?
    requires var after := AllMoved(s.book, {}, Cancelled, now)[id := WithEnd(s.book[id], newEnd)];
             && EndedAs(s.book, after, Cancelled) == {} && EndedAs(s.book, after, Released) == {}
             && EndedAs(s.book, after, Expired) == {} && EndMoved(s.book, after) == {id}
    ensures var after := AfterExtend(d, s, id, newEnd, now);
            && CountsEnds(s, after)
            && after.metrics.revoked == s.metrics.revoked + |EndedAs(s.book, after.book, Cancelled)|
  {
    hide ExtensionCase, EndedAs, EndMoved, WithEnd;
    assert AllMoved(s.book, {}, Cancelled, now) == s.book;
  }

  lemma ExtendCountsRevoked(d: MapData, s: State, id: Id, newEnd: Time, now: Time)
    requires ExtensionCase(d, s.book, id, newEnd).RoomAfterRevoking?
    requires var ids := Displaced(s.book, id, newEnd);
             var after := AllMoved(s.book, ids, Cancelled, now)[id := WithEnd(s.book[id], newEnd)];
             && EndedAs(s.book, after, Cancelled) == ids && EndedAs(s.book, after, Released) == {}
             && EndedAs(s.book, after, Expired) == {} && EndMoved(s.book, after) == {id}
    ensures var after := AfterExtend(d, s, id, newEnd, now);
            && CountsEnds(s, after)
            && after.metrics.revoked == s.metrics.revoked + |EndedAs(s.book, after.book, Cancelled)|
  {
    hide ExtensionCase, EndedAs, EndMoved, WithEnd, Displaced, AllMoved;
  }

  /** Every counter counts its own event. In each call but `recover` the released, expired and cancelled
      counters grow by the live claims that ended so, the extended counter by the claims whose end moved, and
      the revoked counter by the claims an extension cancelled. */
  lemma EndsAreCounted(d: MapData, p: ReservationPolicy, s: State, c: Call, after: State)
    requires Step(d, p, s, c, after) && !c.Recover?
    ensures CountsEnds(s, after)
    ensures after.metrics.revoked == s.metrics.revoked + if c.Extend? then |EndedAs(s.book, after.book, Cancelled)| else 0
  {
    hide AfterRequest, AfterRequests, AfterExtend, AfterActivate, AfterRelease, AfterCancel, AfterExpire, AfterCommit,
         CountsEnds, UnusedIds, EnteredIds, QueuedIds, AllMoved, EndedAs, Tally;
    match c
    case RequestOne(q, now) =>
      RequestOnlyAdds(d, p, s, q, now);
      AnswerIsCounted(d, p, s, q, now);
      NothingEnded(s, after);
    case RequestMany(qs, now) =>
      var ordered :| IsSortOf(ordered, qs, Arbitration(s.waits, p, now)) && after == AfterRequests(d, p, s, ordered, now);
      RequestsOnlyAdd(d, p, s, ordered, now);
      AnswersAreCounted(d, p, s, ordered, now);
      NothingEnded(s, after);
    case Extend(id, newEnd, now) => ExtendCounts(d, s, id, newEnd, now);
    case ReleaseAllFor(robot, now) => ReleaseAllCounts(s, robot, now);
    case Sweep(now) => SweepCounts(p, s, now);
    case _ => OneClaimCounts(s, c, after);
  }

  /** Recovery counts what its report lists as expired, and nothing else. */
  lemma {:induction false} RecoveryCountsExpired(d: MapData, s: State, ordered: seq<Record>, now: Time)
    ensures AfterRecover(d, s, ordered, now).metrics
         == s.metrics.(expired := s.metrics.expired + |Recovery(d, s, ordered, now).expired|)
  {
    hide RecoveryCase;
    if ordered != [] {
      RecoveryCountsExpired(d, s, ordered[..|ordered| - 1], now);
    }
  }

  // ------------------------------------------------------------- extension

  /** Everyone overlapping the added span can still be called back. */
  ghost predicate CanBeCleared(book: Book, id: Id, newEnd: Time)
    requires id in book && book[id].reservation.window.end < newEnd
  {
    forall o :: o in book && Contends(book[o], book[id].reservation.resource, book[id].reservation.robot,
                                      Span(book[id].reservation.window.end, newEnd)) ==>
      book[o].reservation.state == Pending && !book[o].committed
  }

  /** An extension is granted exactly to a live claim that gains time, when the added span is admitted as
      things stand, or at a capacity other than zero when everyone in the way can be called back. Each refusal
      has its own reason. */
  lemma ExtensionIsGrantedExactlyWhen(d: MapData, s: State, id: Id, newEnd: Time, now: Time)
    ensures var o := Extension(d, s, id, newEnd, now);
            && (o.error.UnknownReservation? <==> id !in s.book)
            && (o.error.AlreadyTerminal? <==> Finished(s.book, id))
            && (o.error.NotAnExtension? <==> Live(s.book, id) && newEnd <= s.book[id].reservation.window.end)
            && (Live(s.book, id) && s.book[id].reservation.window.end < newEnd ==>
                  var r := s.book[id].reservation;
                  && o.error in {NoError, ExtensionBlocked} && (o.granted <==> o.error.NoError?)
                  && (o.granted <==>
                        || Admits(d, s.book, r.resource, r.robot, Span(r.window.end, newEnd), s.book[id].usage)
                        || (CapacityOf(d, r.resource) != 0 && CanBeCleared(s.book, id, newEnd))))
            && (Live(s.book, id) ==> o.newEnd == if o.granted then newEnd else s.book[id].reservation.window.end)
            && (!Live(s.book, id) ==> !o.granted && o.newEnd == 0) && o.reservation == id && o.decidedAt == now
  {
    hide Admits, CapacityOf, Contends, InIdOrder, RobotsOf, InClaimOrder;
    if Live(s.book, id) && s.book[id].reservation.window.end < newEnd {
      ClearedMeans(s.book, id, newEnd);
    }
    hide CanBeCleared, Displaced;
  }

  lemma ClearedMeans(book: Book, id: Id, newEnd: Time)
    requires id in book && book[id].reservation.window.end < newEnd
    ensures CanBeCleared(book, id, newEnd) <==> !exists o :: o in Displaced(book, id, newEnd) && Irrevocable(book[o])
  {
    if !CanBeCleared(book, id, newEnd) {
      var o :| o in book && Contends(book[o], book[id].reservation.resource, book[id].reservation.robot,
                                     Span(book[id].reservation.window.end, newEnd))
               && (book[o].reservation.state != Pending || book[o].committed);
      assert o in Displaced(book, id, newEnd) && Irrevocable(book[o]);
    }
  }

  /** The robots told about an extension are, once each and ascending, exactly the others holding part of the
      added span: when they block it or make way for it, and none when there is room for all. */
  lemma AffectedAreThoseInTheWay(d: MapData, s: State, id: Id, newEnd: Time, now: Time)
    ensures var o := Extension(d, s, id, newEnd, now);
            && (forall i, j :: 0 <= i < j < |o.affectedRobots| ==> o.affectedRobots[i] < o.affectedRobots[j])
            && (forall robot :: robot in o.affectedRobots <==>
                  && Live(s.book, id) && s.book[id].reservation.window.end < newEnd
                  && !Admits(d, s.book, s.book[id].reservation.resource, s.book[id].reservation.robot,
                             Span(s.book[id].reservation.window.end, newEnd), s.book[id].usage)
                  && exists x :: x in s.book && s.book[x].reservation.robot == robot
                       && Contends(s.book[x], s.book[id].reservation.resource, s.book[id].reservation.robot,
                                   Span(s.book[id].reservation.window.end, newEnd)))
  {
    hide Admits, CapacityOf, Contends, InIdOrder, InClaimOrder;
  }
}
