/** What a whole run keeps about each record, the counters and the buffers. */
module History {
  import opened Core
  import opened Ordering
  import opened Graph
  import opened Claims
  import opened Admission
  import opened Verdicts
  import opened Policy
  import opened Protocol
  import opened Safety

  // ------------------------------------------------------------- no revival, no preemption

  /** `b` is a legal later version of `a`: a finished claim is frozen, an entered one is never
      un-entered or cancelled, the start never moves and the end never shrinks. */
  predicate Succeeds(a: Record, b: Record) {
    && (Terminal(a.reservation.state) ==> b == a)
    && (a.reservation.state.Active? ==> !b.reservation.state.Pending? && !b.reservation.state.Cancelled?)
    && (a.committed ==> b.committed)
    && b.reservation.window.start == a.reservation.window.start
    && b.reservation.window.end >= a.reservation.window.end
    && b == a.(reservation := a.reservation.(window := b.reservation.window, state := b.reservation.state),
               lastTransitionAt := b.lastTransitionAt, committed := b.committed)
  }

  ghost predicate Evolves(before: Book, after: Book) {
    forall id :: id in before ==> id in after && Succeeds(before[id], after[id])
  }

  /** Old records untouched; only these ids may be new. */
  ghost predicate OnlyAdds(before: Book, after: Book, novel: set<Id>) {
    && (forall id :: id in before ==> id in after && after[id] == before[id])
    && (forall id :: id in after ==> id in before || id in novel)
  }

  lemma EvolvesTransitive(a: Book, b: Book, c: Book)
    requires Evolves(a, b) && Evolves(b, c)
    ensures Evolves(a, c)
  {
    forall id | id in a ensures id in c && Succeeds(a[id], c[id]) {
      assert Succeeds(a[id], b[id]) && Succeeds(b[id], c[id]);
    }
  }

  lemma AddingEvolves(a: Book, b: Book, novel: set<Id>)
    requires OnlyAdds(a, b, novel)
    ensures Evolves(a, b)
  {
  }

  lemma AddingTwice(a: Book, b: Book, c: Book, x: set<Id>, y: set<Id>)
    requires OnlyAdds(a, b, x) && OnlyAdds(b, c, y)
    ensures OnlyAdds(a, c, x + y)
  {
  }

  /** A request, re-sent or not, never alters an existing record. */
  lemma RequestOnlyAdds(d: MapData, p: ReservationPolicy, s: State, q: Request, now: Time)
    ensures OnlyAdds(s.book, AfterRequest(d, p, s, q, now).book, {q.reservation})
  {
    hide AfterRequest, Decide, Admits, EffectiveWindow;
    GrantedExactlyWhen(d, p, s, q, now);
  }

  function ReservationIds(qs: seq<Request>): set<Id> {
    set q | q in qs :: q.reservation
  }

  lemma {:induction false} RequestsOnlyAdd(d: MapData, p: ReservationPolicy, s: State, ordered: seq<Request>, now: Time)
    ensures OnlyAdds(s.book, AfterRequests(d, p, s, ordered, now).book, ReservationIds(ordered))
  {
    hide AfterRequest;
    if ordered != [] {
      var before, last := ordered[..|ordered| - 1], ordered[|ordered| - 1];
      RequestsOnlyAdd(d, p, s, before, now);
      RequestOnlyAdds(d, p, AfterRequests(d, p, s, before, now), last, now);
      AddingTwice(s.book, AfterRequests(d, p, s, before, now).book, AfterRequests(d, p, s, ordered, now).book,
                  ReservationIds(before), {last.reservation});
      assert ReservationIds(before) + {last.reservation} <= ReservationIds(ordered);
    }
  }

  lemma RecoverOneOnlyAdds(d: MapData, s: State, r: Record, now: Time)
    ensures OnlyAdds(s.book, AfterRecoverOne(d, s, r, now).book, {r.reservation.id})
  {
    hide Admits;
  }

  lemma {:induction false} RecoverOnlyAdds(d: MapData, s: State, ordered: seq<Record>, now: Time)
    ensures exists novel :: OnlyAdds(s.book, AfterRecover(d, s, ordered, now).book, novel)
  {
    hide AfterRecoverOne;
    if ordered == [] {
      assert OnlyAdds(s.book, AfterRecover(d, s, ordered, now).book, {});
    } else {
      var before, last := ordered[..|ordered| - 1], ordered[|ordered| - 1];
      RecoverOnlyAdds(d, s, before, now);
      var middle := AfterRecover(d, s, before, now);
      var novel :| OnlyAdds(s.book, middle.book, novel);
      RecoverOneOnlyAdds(d, middle, last, now);
      AddingTwice(s.book, middle.book, AfterRecoverOne(d, middle, last, now).book, novel, {last.reservation.id});
      assert AfterRecover(d, s, ordered, now) == AfterRecoverOne(d, middle, last, now);
      assert OnlyAdds(s.book, AfterRecover(d, s, ordered, now).book, novel + {last.reservation.id});
    }
  }

  lemma MovingEvolves(book: Book, ids: set<Id>, next: ReservationState, now: Time)
    requires forall id :: id in ids && id in book ==>
      HoldsResource(book[id].reservation.state) && TransitionAllowed(book[id].reservation.state, next)
    ensures Evolves(book, AllMoved(book, ids, next, now))
  {
  }

  lemma RewriteEvolves(book: Book, id: Id, r: Record)
    requires id in book && r.reservation.id == id && Succeeds(book[id], r)
    ensures Evolves(book, book[id := r])
  {
  }

  lemma MoveEvolves(s: State, id: Id, next: ReservationState, now: Time)
    requires MoveError(s.book, id, next).NoError?
    ensures Evolves(s.book, Moved(s, id, next, now).book)
  {
    RewriteEvolves(s.book, id, WithState(s.book[id], next, now));
  }

  lemma EvolvesReflexive(book: Book)
    ensures Evolves(book, book)
  {
  }

  lemma ExtendEvolves(d: MapData, s: State, id: Id, newEnd: Time, now: Time)
    ensures Evolves(s.book, AfterExtend(d, s, id, newEnd, now).book)
  {
    hide Admits, CapacityOf, Evolves;
    match ExtensionCase(d, s.book, id, newEnd)
    case Refused(_) => EvolvesReflexive(s.book);
    case RoomAsIs => RewriteEvolves(s.book, id, WithEnd(s.book[id], newEnd));
    case RoomAfterRevoking =>
      var displaced := Displaced(s.book, id, newEnd);
      var cleared := AllMoved(s.book, displaced, Cancelled, now);
      DisplacedArePending(d, s.book, id, newEnd);
      MovingEvolves(s.book, displaced, Cancelled, now);
      assert cleared[id] == s.book[id];
      RewriteEvolves(cleared, id, WithEnd(cleared[id], newEnd));
      EvolvesTransitive(s.book, cleared, cleared[id := WithEnd(cleared[id], newEnd)]);
  }

  /** A revoked claim was granted to another robot, never entered and never committed. */
  lemma DisplacedArePending(d: MapData, book: Book, id: Id, newEnd: Time)
    requires ExtensionCase(d, book, id, newEnd).RoomAfterRevoking?
    ensures forall o :: o in Displaced(book, id, newEnd) ==>
      && o in book && o != id
      && book[o].reservation.state.Pending? && !book[o].committed
      && book[o].reservation.robot != book[id].reservation.robot
  {
    hide Admits, CapacityOf;
    forall o | o in Displaced(book, id, newEnd)
      ensures o in book && o != id && book[o].reservation.state.Pending? && !book[o].committed
              && book[o].reservation.robot != book[id].reservation.robot
    {
      assert !Irrevocable(book[o]);
    }
  }

  lemma ReleaseAllEvolves(s: State, robot: Id, now: Time)
    ensures Evolves(s.book, AfterReleaseAllFor(s, robot, now).book)
  {
    var entered, queued := EnteredIds(s.book, robot), QueuedIds(s.book, robot);
    var released := AllMoved(s.book, entered, Released, now);
    MovingEvolves(s.book, entered, Released, now);
    assert forall id :: id in queued ==> released[id] == s.book[id];
    MovingEvolves(released, queued, Cancelled, now);
    hide Evolves;
    EvolvesTransitive(s.book, released, AfterReleaseAllFor(s, robot, now).book);
  }

  lemma CommitEvolves(s: State, id: Id)
    ensures Evolves(s.book, AfterCommit(s, id).book)
  {
    hide Evolves;
    EvolvesReflexive(s.book);
    if CommitError(s.book, id).NoError? { RewriteEvolves(s.book, id, s.book[id].(committed := true)); }
  }

  lemma StepEvolves(d: MapData, p: ReservationPolicy, s: State, c: Call, after: State)
    requires Step(d, p, s, c, after)
    ensures Evolves(s.book, after.book)
  {
    hide AfterRequest, AfterRequests, AfterRecover, AfterExtend, Evolves, OnlyAdds, UnusedIds, AfterReleaseAllFor,
         MoveError;
    EvolvesReflexive(s.book);
    match c
    case RequestOne(q, now) =>
      RequestOnlyAdds(d, p, s, q, now);
      AddingEvolves(s.book, after.book, {q.reservation});
    case RequestMany(qs, now) =>
      var ordered :| IsSortOf(ordered, qs, Arbitration(s.waits, p, now)) && after == AfterRequests(d, p, s, ordered, now);
      RequestsOnlyAdd(d, p, s, ordered, now);
      AddingEvolves(s.book, after.book, ReservationIds(ordered));
    case Recover(records, now) =>
      var ordered :| IsSortOf(ordered, records, ClaimedBefore) && after == AfterRecover(d, s, ordered, now);
      RecoverOnlyAdds(d, s, ordered, now);
      var novel :| OnlyAdds(s.book, after.book, novel);
      AddingEvolves(s.book, after.book, novel);
    case Extend(id, newEnd, now) => ExtendEvolves(d, s, id, newEnd, now);
    case ReleaseAllFor(robot, now) => ReleaseAllEvolves(s, robot, now);
    case Commit(id) => CommitEvolves(s, id);
    case Sweep(now) => SweepEvolves(p, s, now);
    case Activate(id, now) => if MoveError(s.book, id, Active).NoError? { MoveEvolves(s, id, Active, now); }
    case Release(id, now) => if MoveError(s.book, id, Released).NoError? { MoveEvolves(s, id, Released, now); }
    case Expire(id, now) => if MoveError(s.book, id, Expired).NoError? { MoveEvolves(s, id, Expired, now); }
    case Cancel(id, now) => if CancelError(s.book, id).NoError? { MoveEvolves(s, id, Cancelled, now); }
  }

  lemma SweepEvolves(p: ReservationPolicy, s: State, now: Time)
    ensures Evolves(s.book, AfterSweep(p, s, now).book)
  {
    MovingEvolves(s.book, UnusedIds(s.book, p, now), Expired, now);
  }

  /** No revival and no preemption, over any stretch of any run: every record is still there and
      is a legal successor of what it was. */
  lemma {:induction false} RunsEvolve(d: MapData, p: ReservationPolicy, states: seq<State>, calls: seq<Call>, i: nat,
                                      j: nat)
    requires Run(d, p, states, calls) && i <= j < |states|
    ensures Evolves(states[i].book, states[j].book)
    decreases j - i
  {
    hide Step, Evolves;
    EvolvesReflexive(states[i].book);
    if i < j {
      StepEvolves(d, p, states[i], calls[i], states[i + 1]);
      RunsEvolve(d, p, states, calls, i + 1, j);
      EvolvesTransitive(states[i].book, states[i + 1].book, states[j].book);
    }
  }

  // ------------------------------------------------------------- how a claim can end

  /** The calls that can end a live claim `r`, and the state each ends it in. Only `cancel` and
      `extend` respect the commit mark; only an un-entered claim can be taken by `sweep`. */
  predicate MayEnd(r: Record, c: Call, to: ReservationState) {
    match c
    case Release(id, _) => id == r.reservation.id && r.reservation.state.Active? && to == Released
    case Expire(id, _) => id == r.reservation.id && to == Expired
    case Cancel(id, _) => id == r.reservation.id && r.reservation.state.Pending? && !r.committed && to == Cancelled
    case Sweep(_) => r.reservation.state.Pending? && to == Expired
    case ReleaseAllFor(robot, _) =>
      robot == r.reservation.robot && to == (if r.reservation.state.Active? then Released else Cancelled)
    case Extend(id, _, _) => id != r.reservation.id && r.reservation.state.Pending? && !r.committed && to == Cancelled
    case _ => false
  }

  ghost predicate Ends(before: Book, after: Book, id: Id) {
    && id in before && !Terminal(before[id].reservation.state)
    && id in after && Terminal(after[id].reservation.state)
  }

  lemma AddingEndsNothing(before: Book, after: Book, novel: set<Id>, id: Id)
    requires OnlyAdds(before, after, novel)
    ensures !Ends(before, after, id)
  {
  }

  lemma ExtendEnds(d: MapData, s: State, target: Id, newEnd: Time, now: Time, id: Id)
    requires Ends(s.book, AfterExtend(d, s, target, newEnd, now).book, id)
    ensures MayEnd(s.book[id], Extend(target, newEnd, now), AfterExtend(d, s, target, newEnd, now).book[id].reservation.state)
  {
    hide Admits, CapacityOf;
    if ExtensionCase(d, s.book, target, newEnd).RoomAfterRevoking? { DisplacedArePending(d, s.book, target, newEnd); }
    hide Displaced;
  }

  lemma ReleaseAllEnds(s: State, robot: Id, now: Time, id: Id)
    requires Ends(s.book, AfterReleaseAllFor(s, robot, now).book, id)
    ensures MayEnd(s.book[id], ReleaseAllFor(robot, now), AfterReleaseAllFor(s, robot, now).book[id].reservation.state)
  {
  }

  lemma SweepEnds(p: ReservationPolicy, s: State, now: Time, id: Id)
    requires Ends(s.book, AfterSweep(p, s, now).book, id)
    ensures MayEnd(s.book[id], Sweep(now), AfterSweep(p, s, now).book[id].reservation.state)
  {
  }

  lemma OneMoveEnds(s: State, c: Call, after: State, id: Id)
    requires match c
             case Activate(x, now) => after == AfterActivate(s, x, now)
             case Release(x, now) => after == AfterRelease(s, x, now)
             case Cancel(x, now) => after == AfterCancel(s, x, now)
             case Commit(x) => after == AfterCommit(s, x)
             case Expire(x, now) => after == AfterExpire(s, x, now)
             case _ => false
    requires Ends(s.book, after.book, id)
    ensures MayEnd(s.book[id], c, after.book[id].reservation.state)
  {
  }

  /** A claim ends only through one of those calls: an entered claim only through `release`,
      `expire` or `release_all_for`. */
  lemma EndsOnlyThrough(d: MapData, p: ReservationPolicy, s: State, c: Call, after: State, id: Id)
    requires Step(d, p, s, c, after) && Ends(s.book, after.book, id)
    ensures MayEnd(s.book[id], c, after.book[id].reservation.state)
  {
    hide AfterRequest, AfterRequests, AfterRecover, AfterExtend, AfterReleaseAllFor, AfterSweep, OnlyAdds,
         AfterActivate, AfterRelease, AfterCancel, AfterExpire, AfterCommit, Ends, MayEnd;
    match c
    case RequestOne(q, now) =>
      RequestOnlyAdds(d, p, s, q, now);
      AddingEndsNothing(s.book, after.book, {q.reservation}, id);
    case RequestMany(qs, now) =>
      var ordered :| IsSortOf(ordered, qs, Arbitration(s.waits, p, now)) && after == AfterRequests(d, p, s, ordered, now);
      RequestsOnlyAdd(d, p, s, ordered, now);
      AddingEndsNothing(s.book, after.book, ReservationIds(ordered), id);
    case Recover(records, now) =>
      var ordered :| IsSortOf(ordered, records, ClaimedBefore) && after == AfterRecover(d, s, ordered, now);
      RecoverOnlyAdds(d, s, ordered, now);
      var novel :| OnlyAdds(s.book, after.book, novel);
      AddingEndsNothing(s.book, after.book, novel, id);
    case Extend(target, newEnd, now) => ExtendEnds(d, s, target, newEnd, now, id);
    case ReleaseAllFor(robot, now) => ReleaseAllEnds(s, robot, now, id);
    case Sweep(now) => SweepEnds(p, s, now, id);
    case _ => OneMoveEnds(s, c, after, id);
  }

  /** Whether this call ends the live claim `id`, told from the state before it. */
  ghost predicate EndedBy(d: MapData, p: ReservationPolicy, s: State, c: Call, id: Id)
    requires id in s.book
  {
    var r := s.book[id];
    match c
    case Release(x, _) => x == id && r.reservation.state.Active?
    case Expire(x, _) => x == id
    case Cancel(x, _) => x == id && r.reservation.state.Pending? && !r.committed
    case Sweep(now) => id in UnusedIds(s.book, p, now)
    case ReleaseAllFor(robot, _) => robot == r.reservation.robot
    case Extend(x, newEnd, _) =>
      ExtensionCase(d, s.book, x, newEnd).RoomAfterRevoking? && id in Displaced(s.book, x, newEnd)
    case _ => false
  }

  lemma ExtendEndsExactly(d: MapData, s: State, target: Id, newEnd: Time, now: Time, id: Id)
    requires id in s.book && !Terminal(s.book[id].reservation.state)
    ensures Ends(s.book, AfterExtend(d, s, target, newEnd, now).book, id) <==>
      ExtensionCase(d, s.book, target, newEnd).RoomAfterRevoking? && id in Displaced(s.book, target, newEnd)
  {
    hide Admits, CapacityOf;
    if ExtensionCase(d, s.book, target, newEnd).RoomAfterRevoking? { DisplacedArePending(d, s.book, target, newEnd); }
  }

  lemma ReleaseAllEndsExactly(s: State, robot: Id, now: Time, id: Id)
    requires id in s.book && !Terminal(s.book[id].reservation.state)
    ensures Ends(s.book, AfterReleaseAllFor(s, robot, now).book, id) <==> robot == s.book[id].reservation.robot
  {
  }

  lemma SweepEndsExactly(p: ReservationPolicy, s: State, now: Time, id: Id)
    requires id in s.book && !Terminal(s.book[id].reservation.state)
    ensures Ends(s.book, AfterSweep(p, s, now).book, id) <==> id in UnusedIds(s.book, p, now)
  {
  }

  lemma MoveEndsExactly(s: State, x: Id, next: ReservationState, now: Time, id: Id)
    requires id in s.book && !Terminal(s.book[id].reservation.state)
    ensures var after := if MoveError(s.book, x, next).NoError? then Moved(s, x, next, now).book else s.book;
            Ends(s.book, after, id) <==>
              x == id && TransitionAllowed(s.book[id].reservation.state, next) && Terminal(next)
  {
    hide TransitionAllowed;
  }

  lemma CommitEndsNothing(s: State, x: Id, id: Id)
    ensures !Ends(s.book, AfterCommit(s, x).book, id)
  {
  }

  lemma OneMoveEndsExactly(d: MapData, p: ReservationPolicy, s: State, c: Call, after: State, id: Id)
    requires id in s.book && !Terminal(s.book[id].reservation.state)
    requires match c
             case Activate(x, now) => after == AfterActivate(s, x, now)
             case Release(x, now) => after == AfterRelease(s, x, now)
             case Cancel(x, now) => after == AfterCancel(s, x, now)
             case Commit(x) => after == AfterCommit(s, x)
             case Expire(x, now) => after == AfterExpire(s, x, now)
             case _ => false
    ensures Ends(s.book, after.book, id) <==> EndedBy(d, p, s, c, id)
  {
    hide ExtensionCase, UnusedIds, Displaced, Ends, MoveError, Moved;
    match c
    case Activate(x, now) => MoveEndsExactly(s, x, Active, now, id);
    case Release(x, now) => MoveEndsExactly(s, x, Released, now, id);
    case Cancel(x, now) => CancelEndsExactly(s, x, now, id);
    case Commit(x) => CommitEndsNothing(s, x, id);
    case Expire(x, now) => MoveEndsExactly(s, x, Expired, now, id);
  }

  lemma CancelEndsExactly(s: State, x: Id, now: Time, id: Id)
    requires id in s.book && !Terminal(s.book[id].reservation.state)
    ensures Ends(s.book, AfterCancel(s, x, now).book, id) <==>
      x == id && s.book[id].reservation.state.Pending? && !s.book[id].committed
  {
    MoveEndsExactly(s, x, Cancelled, now, id);
    hide MoveError, Moved;
  }

  /** Exactly when a call ends a live claim. Requests and recovery never do. A commit stops `cancel`, and
      it stops an extension, which revokes nothing if any claim in its way is committed; it does not stop
      `expire`, `sweep` or `release_all_for`. */
  lemma EndsExactlyWhen(d: MapData, p: ReservationPolicy, s: State, c: Call, after: State, id: Id)
    requires Step(d, p, s, c, after) && id in s.book && !Terminal(s.book[id].reservation.state)
    ensures Ends(s.book, after.book, id) <==> EndedBy(d, p, s, c, id)
  {
    hide AfterRequest, AfterRequests, AfterRecover, AfterExtend, AfterReleaseAllFor, AfterSweep, OnlyAdds,
         AfterActivate, AfterRelease, AfterCancel, AfterExpire, AfterCommit, Ends, UnusedIds, Displaced, ExtensionCase;
    match c
    case RequestOne(q, now) =>
      RequestOnlyAdds(d, p, s, q, now);
      AddingEndsNothing(s.book, after.book, {q.reservation}, id);
    case RequestMany(qs, now) =>
      var ordered :| IsSortOf(ordered, qs, Arbitration(s.waits, p, now)) && after == AfterRequests(d, p, s, ordered, now);
      RequestsOnlyAdd(d, p, s, ordered, now);
      AddingEndsNothing(s.book, after.book, ReservationIds(ordered), id);
    case Recover(records, now) =>
      var ordered :| IsSortOf(ordered, records, ClaimedBefore) && after == AfterRecover(d, s, ordered, now);
      RecoverOnlyAdds(d, s, ordered, now);
      var novel :| OnlyAdds(s.book, after.book, novel);
      AddingEndsNothing(s.book, after.book, novel, id);
    case Extend(target, newEnd, now) => ExtendEndsExactly(d, s, target, newEnd, now, id);
    case ReleaseAllFor(robot, now) => ReleaseAllEndsExactly(s, robot, now, id);
    case Sweep(now) => SweepEndsExactly(p, s, now, id);
    case _ => OneMoveEndsExactly(d, p, s, c, after, id);
  }

  /** So a commit never protects a pending claim from these three calls. */
  lemma CommitDoesNotProtect(p: ReservationPolicy, s: State, id: Id, now: Time)
    requires id in s.book && s.book[id].reservation.state.Pending? && s.book[id].committed
    ensures Ends(s.book, AfterExpire(s, id, now).book, id)
    ensures Ends(s.book, AfterReleaseAllFor(s, s.book[id].reservation.robot, now).book, id)
    ensures Ends(s.book, AfterSweep(p, s, now).book, id) <==>
      IsPastWindow(s.book[id].reservation, now) || now >= s.book[id].decidedAt + p.grantTimeout
  {
    ReleaseAllEndsExactly(s, s.book[id].reservation.robot, now, id);
    SweepEndsExactly(p, s, now, id);
    hide AfterReleaseAllFor, AfterSweep;
  }

  // ------------------------------------------------------------- extension

  /** Extension is all or nothing. A refused one changes nothing. A granted one sets exactly the new
      end; it revokes claims only when there was no room, then at least one, and exactly the other
      robots' claims overlapping the added span, all of them granted, un-entered and uncommitted. */
  lemma ExtensionIsAllOrNothing(d: MapData, s: State, id: Id, newEnd: Time, now: Time)
    ensures var o, after := Extension(d, s, id, newEnd, now), AfterExtend(d, s, id, newEnd, now);
            && (!o.granted ==> after == s && o.revoked == [] && !o.error.NoError?)
            && (o.granted ==>
                  && id in s.book && HoldsResource(s.book[id].reservation.state)
                  && s.book[id].reservation.window.end < newEnd && o.newEnd == newEnd
                  && after.book.Keys == s.book.Keys
                  && after.book[id] == WithEnd(s.book[id], newEnd)
                  && (forall x :: x in s.book && x != id ==>
                        after.book[x] == if x in o.revoked then WithState(s.book[x], Cancelled, now) else s.book[x])
                  && (forall x :: x in o.revoked ==>
                        x in s.book && x != id && s.book[x].reservation.state.Pending? && !s.book[x].committed
                        && Contends(s.book[x], s.book[id].reservation.resource, s.book[id].reservation.robot,
                                    Span(s.book[id].reservation.window.end, newEnd)))
                  && (o.revoked == [] <==>
                        Admits(d, s.book, s.book[id].reservation.resource, s.book[id].reservation.robot,
                               Span(s.book[id].reservation.window.end, newEnd), s.book[id].usage))
                  && (o.revoked != [] ==> forall x :: x in Displaced(s.book, id, newEnd) ==> x in o.revoked))
  {
    hide Extension, AfterExtend, ExtensionCase, Admits, Displaced, Contends, WithEnd, WithState;
    RoomAsIsMeansAdmitted(d, s.book, id, newEnd);
    match ExtensionCase(d, s.book, id, newEnd)
    case Refused(_) => RefusedChangesNothing(d, s, id, newEnd, now);
    case RoomAsIs => InRoomOnlyExtends(d, s, id, newEnd, now);
    case RoomAfterRevoking =>
      RevokingExtends(d, s, id, newEnd, now);
      DisplacedArePending(d, s.book, id, newEnd);
      DisplacedContend(s.book, id, newEnd);
  }

  lemma RefusedChangesNothing(d: MapData, s: State, id: Id, newEnd: Time, now: Time)
    requires ExtensionCase(d, s.book, id, newEnd).Refused? && !ExtensionCase(d, s.book, id, newEnd).error.NoError?
    ensures var o := Extension(d, s, id, newEnd, now);
            !o.granted && o.revoked == [] && !o.error.NoError? && AfterExtend(d, s, id, newEnd, now) == s
  {
    hide ExtensionCase, RobotsOf, InIdOrder, Displaced;
  }

  lemma InRoomOnlyExtends(d: MapData, s: State, id: Id, newEnd: Time, now: Time)
    requires ExtensionCase(d, s.book, id, newEnd).RoomAsIs?
    ensures var o := Extension(d, s, id, newEnd, now);
            && o.granted && o.revoked == [] && o.newEnd == newEnd
            && AfterExtend(d, s, id, newEnd, now).book == s.book[id := WithEnd(s.book[id], newEnd)]
  {
    hide ExtensionCase, WithEnd;
  }

  lemma RevokingExtends(d: MapData, s: State, id: Id, newEnd: Time, now: Time)
    requires ExtensionCase(d, s.book, id, newEnd).RoomAfterRevoking?
    ensures var o, displaced := Extension(d, s, id, newEnd, now), Displaced(s.book, id, newEnd);
            && o.granted && o.newEnd == newEnd && o.revoked != []
            && (forall x :: x in o.revoked <==> x in displaced)
            && AfterExtend(d, s, id, newEnd, now).book == AllMoved(s.book, displaced, Cancelled, now)[id := WithEnd(s.book[id], newEnd)]
  {
    RoomAsIsMeansAdmitted(d, s.book, id, newEnd);
    NoRoomMeansDisplaced(d, s.book, id, newEnd);
    InClaimOrderMembers(s.book, Displaced(s.book, id, newEnd));
    hide ExtensionCase, WithEnd, WithState, AllMoved, InClaimOrder, RobotsOf, InIdOrder, Admits, Contends;
  }

  lemma DisplacedContend(book: Book, id: Id, newEnd: Time)
    requires id in book && book[id].reservation.window.end < newEnd
    ensures forall x :: x in Displaced(book, id, newEnd) ==>
      x in book && Contends(book[x], book[id].reservation.resource, book[id].reservation.robot,
                            Span(book[id].reservation.window.end, newEnd))
  {
    hide Contends;
  }

  lemma RoomAsIsMeansAdmitted(d: MapData, book: Book, id: Id, newEnd: Time)
    ensures var path := ExtensionCase(d, book, id, newEnd);
            && (path.Refused? ==> !path.error.NoError?)
            && (path.RoomAfterRevoking? ==> CapacityOf(d, book[id].reservation.resource) != 0)
            && (!path.Refused? ==>
                  (path.RoomAsIs? <==>
                   Admits(d, book, book[id].reservation.resource, book[id].reservation.robot,
                          Span(book[id].reservation.window.end, newEnd), book[id].usage)))
  {
    hide Admits, CapacityOf, Contends;
  }

  /** The revoked claims come out by (start, id). They are in id order exactly when nothing has to be
      revoked, or no claim in the way starts later than one with a larger id. */
  lemma RevokedInIdOrderExactlyWhen(d: MapData, s: State, id: Id, newEnd: Time, now: Time)
    ensures Ascending(Extension(d, s, id, newEnd, now).revoked, IdLess) <==>
      (ExtensionCase(d, s.book, id, newEnd).RoomAfterRevoking? ==> StartsFollowIds(s.book, Displaced(s.book, id, newEnd)))
  {
    hide Admits, CapacityOf, InClaimOrder, RobotsOf, InIdOrder, Contends, Ascending, StartsFollowIds;
    if ExtensionCase(d, s.book, id, newEnd).RoomAfterRevoking? {
      ClaimOrderIsIdOrder(s.book, Displaced(s.book, id, newEnd));
    } else {
      NothingAscends(Extension(d, s, id, newEnd, now).revoked);
    }
  }

  lemma NothingAscends(q: seq<Id>)
    requires q == []
    ensures Ascending(q, IdLess)
  {
  }

  ghost predicate StartsFollowIds(book: Book, ids: set<Id>)
    requires ids <= book.Keys
  {
    forall a, b :: a in ids && b in ids && a < b ==> book[a].reservation.window.start <= book[b].reservation.window.start
  }

  lemma ClaimOrderIsIdOrder(book: Book, ids: set<Id>)
    requires ids <= book.Keys
    ensures Ascending(InClaimOrder(book, ids), IdLess) <==> StartsFollowIds(book, ids)
  {
    var keys, q := InKeyOrder(KeysOf(book, ids)), InClaimOrder(book, ids);
    forall i | 0 <= i < |q| ensures q[i] in ids && keys[i] == KeyOf(book[q[i]]) {
      assert keys[i] in keys;
    }
    InClaimOrderMembers(book, ids);
    hide InClaimOrder, KeysOf, InKeyOrder;
    forall i, j | 0 <= i < j < |q| ensures q[i] != q[j] {
      assert KeyLess(keys[i], keys[j]);
    }
    hide Ascending;
    OrderedBothWays(keys, q);
    if forall i, j :: 0 <= i < |q| && 0 <= j < |q| && q[i] < q[j] ==> keys[i].start <= keys[j].start {
      forall a, b | a in ids && b in ids && a < b ensures book[a].reservation.window.start <= book[b].reservation.window.start {
        var i :| 0 <= i < |q| && q[i] == a;
        var j :| 0 <= j < |q| && q[j] == b;
      }
    }
  }

  lemma OrderedBothWays(keys: seq<Key>, q: seq<Id>)
    requires |keys| == |q| && Ascending(keys, KeyLess) && forall i :: 0 <= i < |q| ==> keys[i].id == q[i]
    requires forall i, j :: 0 <= i < j < |q| ==> q[i] != q[j]
    ensures Ascending(q, IdLess) <==> forall i, j :: 0 <= i < |q| && 0 <= j < |q| && q[i] < q[j] ==> keys[i].start <= keys[j].start
  {
    if Ascending(q, IdLess) {
      forall i, j | 0 <= i < |q| && 0 <= j < |q| && q[i] < q[j] ensures keys[i].start <= keys[j].start {
        assert j < i ==> IdLess(q[j], q[i]);
        assert i < j ==> KeyLess(keys[i], keys[j]);
      }
    } else {
      var i, j :| 0 <= i < j < |q| && !IdLess(q[i], q[j]);
      assert KeyLess(keys[i], keys[j]);
    }
  }

  lemma InClaimOrderMembers(book: Book, ids: set<Id>)
    requires forall id :: id in ids ==> id in book
    ensures forall id :: id in InClaimOrder(book, ids) <==> id in ids
    ensures ids != {} ==> InClaimOrder(book, ids) != []
  {
    var keys := InKeyOrder(KeysOf(book, ids));
    var q := InClaimOrder(book, ids);
    forall id | id in ids ensures id in q {
      assert KeyOf(book[id]) in KeysOf(book, ids);
      assert KeyOf(book[id]) in keys;
      var i :| 0 <= i < |keys| && keys[i] == KeyOf(book[id]);
      assert q[i] == id;
    }
    forall id | id in q ensures id in ids {
      var i :| 0 <= i < |q| && q[i] == id;
      assert keys[i] in keys;
    }
  }

  /** With nobody in the added span the check can only fail at capacity zero. */
  lemma NoRoomMeansDisplaced(d: MapData, book: Book, id: Id, newEnd: Time)
    requires id in book && HoldsResource(book[id].reservation.state) && book[id].reservation.window.end < newEnd
    requires CapacityOf(d, book[id].reservation.resource) != 0
    ensures var r := book[id].reservation;
            Displaced(book, id, newEnd) == {} ==>
              Admits(d, book, r.resource, r.robot, Span(r.window.end, newEnd), book[id].usage)
  {
    if Displaced(book, id, newEnd) == {} {
      RevokingMakesRoom(d, book, id, newEnd, 0);
      assert AllMoved(book, {}, Cancelled, 0) == book;
    }
  }

  // ------------------------------------------------------------- the buffers

  /** Every claim's window starts its entry buffer early, and ends at least its exit buffer late. */
  ghost predicate Buffered(p: ReservationPolicy, book: Book) {
    forall id :: id in book ==> BufferedRecord(p, book[id])
  }

  predicate BufferedRecord(p: ReservationPolicy, r: Record) {
    && r.requestedDuration >= 0
    && r.reservation.window.start == r.requestedStart - p.entryBuffer
    && r.reservation.window.end >= r.requestedStart + r.requestedDuration + p.exitBuffer
  }

  lemma RequestKeepsBuffers(d: MapData, p: ReservationPolicy, s: State, q: Request, now: Time)
    requires Buffered(p, s.book)
    ensures Buffered(p, AfterRequest(d, p, s, q, now).book)
  {
    hide AfterRequest, Decide, Admits;
    GrantedExactlyWhen(d, p, s, q, now);
  }

  lemma {:induction false} RequestsKeepBuffers(d: MapData, p: ReservationPolicy, s: State, ordered: seq<Request>,
      now: Time)
    requires Buffered(p, s.book)
    ensures Buffered(p, AfterRequests(d, p, s, ordered, now).book)
  {
    hide AfterRequest, Buffered;
    if ordered != [] {
      var before := ordered[..|ordered| - 1];
      RequestsKeepBuffers(d, p, s, before, now);
      RequestKeepsBuffers(d, p, AfterRequests(d, p, s, before, now), ordered[|ordered| - 1], now);
    }
  }

  lemma EvolvingKeepsBuffers(p: ReservationPolicy, before: Book, after: Book)
    requires Buffered(p, before) && Evolves(before, after) && after.Keys == before.Keys
    ensures Buffered(p, after)
  {
    forall id | id in after ensures BufferedRecord(p, after[id]) {
      assert id in before && Succeeds(before[id], after[id]);
    }
  }

  lemma StepKeepsBuffers(d: MapData, p: ReservationPolicy, s: State, c: Call, after: State)
    requires Buffered(p, s.book) && Step(d, p, s, c, after) && !c.Recover?
    ensures Buffered(p, after.book)
  {
    match c {
      case RequestOne(q, now) =>
        hide AfterRequest, Buffered;
        RequestKeepsBuffers(d, p, s, q, now);
      case RequestMany(qs, now) =>
        hide AfterRequests, Buffered;
        var ordered :| IsSortOf(ordered, qs, Arbitration(s.waits, p, now)) && after == AfterRequests(d, p, s, ordered, now);
        RequestsKeepBuffers(d, p, s, ordered, now);
      case _ =>
        SameIds(d, p, s, c, after);
        StepEvolves(d, p, s, c, after);
        hide Step, Buffered, Evolves;
        EvolvingKeepsBuffers(p, s.book, after.book);
    }
  }

  lemma SameIds(d: MapData, p: ReservationPolicy, s: State, c: Call, after: State)
    requires Step(d, p, s, c, after) && !c.Recover? && !c.RequestOne? && !c.RequestMany?
    ensures after.book.Keys == s.book.Keys
  {
    hide Admits, CapacityOf, Displaced, UnusedIds, EnteredIds, QueuedIds;
  }

  lemma {:induction false} RunsKeepBuffers(d: MapData, p: ReservationPolicy, states: seq<State>, calls: seq<Call>,
      k: nat)
    requires Run(d, p, states, calls) && states[0] == EMPTY && k < |states|
    requires forall i :: 0 <= i < |calls| ==> !calls[i].Recover?
    ensures Buffered(p, states[k].book)
  {
    hide Step;
    if k > 0 {
      RunsKeepBuffers(d, p, states, calls, k - 1);
      StepKeepsBuffers(d, p, states[k - 1], calls[k - 1], states[k]);
    }
  }

  lemma OneAtATime(d: MapData, book: Book, a: Id, b: Id)
    requires CapacitySafe(d, book) && a in book && b in book
    requires ConflictsWith(book[a].reservation, book[b].reservation)
    ensures CapacityOf(d, book[a].reservation.resource) >= 2
  {
    var resource := book[a].reservation.resource;
    OverlapIsSharedInstant(book[a].reservation.window, book[b].reservation.window);
    var t :| Contains(book[a].reservation.window, t) && Contains(book[b].reservation.window, t);
    var pair := {book[a].reservation.robot, book[b].reservation.robot};
    assert pair <= RobotsAt(book, resource, t) by {
      assert Occupies(book[a], resource, t) && Occupies(book[b], resource, t);
    }
    hide RobotsAt, CapacityOf;
    SubsetSize(pair, RobotsAt(book, resource, t));
    assert |RobotsAt(book, resource, t)| <= CapacityOf(d, resource);
  }

  /** When the robot is out: the end of its window less the exit buffer, extensions included. */
  function VacatedBy(p: ReservationPolicy, r: Record): Time {
    r.reservation.window.end - p.exitBuffer
  }

  /** The safety gap. In any run without `recover`, on a resource of capacity one, one of two robots'
      spans is over, extensions included, at least both buffers before the other's begins. */
  lemma SafetyGap(d: MapData, p: ReservationPolicy, states: seq<State>, calls: seq<Call>, k: nat, a: Id, b: Id)
    requires Run(d, p, states, calls) && states[0] == EMPTY && k < |states|
    requires forall i :: 0 <= i < |calls| ==> !calls[i].Recover?
    requires var book := states[k].book;
             && a in book && b in book
             && HoldsResource(book[a].reservation.state) && HoldsResource(book[b].reservation.state)
             && book[a].reservation.robot != book[b].reservation.robot
             && book[a].reservation.resource == book[b].reservation.resource
             && CapacityOf(d, book[a].reservation.resource) == 1
    ensures var x, y := states[k].book[a], states[k].book[b];
            && VacatedBy(p, x) >= x.requestedStart + x.requestedDuration
            && (|| VacatedBy(p, x) + p.exitBuffer + p.entryBuffer <= y.requestedStart
                || VacatedBy(p, y) + p.exitBuffer + p.entryBuffer <= x.requestedStart)
  {
    hide Step, CapacityOf;
    RunsKeepBuffers(d, p, states, calls, k);
    EmptyIsSafe(d);
    RunsAreSafe(d, p, states, calls, k);
    assert BufferedRecord(p, states[k].book[a]) && BufferedRecord(p, states[k].book[b]);
    if ConflictsWith(states[k].book[a].reservation, states[k].book[b].reservation) {
      OneAtATime(d, states[k].book, a, b);
    }
  }
}
