/** Run safety: no sequence of manager calls ever puts two robots where only one fits. */
module Safety {
  import opened Core
  import opened Ordering
  import opened Graph
  import opened Claims
  import opened Admission
  import opened Verdicts
  import opened Policy
  import opened Protocol

  /** A new grant is admitted, well named, and takes a fresh id. */
  ghost predicate NewGrant(d: MapData, p: ReservationPolicy, s: State, q: Request, now: Time) {
    var w := EffectiveWindow(q.requestedStart, q.estimatedDuration, p);
    && q.reservation != EMPTY_ID && q.robot != EMPTY_ID && q.resource != EMPTY_ID
    && q.reservation !in s.book
    && w.Some?
    && q.requestedStart <= now + p.horizon
    && Admits(d, s.book, q.resource, q.robot, w.value, q.usage)
  }

  /** A request is newly granted exactly when it is well formed, fresh, near enough and admitted;
      otherwise the book does not change at all. */
  lemma GrantedExactlyWhen(d: MapData, p: ReservationPolicy, s: State, q: Request, now: Time)
    ensures var decision := Decide(d, p, s, q, now);
            (decision.status.Granted? && !decision.replayed) <==> NewGrant(d, p, s, q, now)
    ensures AfterRequest(d, p, s, q, now).book ==
            if NewGrant(d, p, s, q, now)
            then s.book[q.reservation := GrantedRecord(p, q, EffectiveWindow(q.requestedStart, q.estimatedDuration, p).value,
                                                       Decide(d, p, s, q, now).effectivePriority, now)]
            else s.book
  {
    hide Verdict, Result, EffectivePriority, WaitedFor, EffectiveWindow, Log, NoteWait;
    VerdictResult(d, s.book, q.resource, q.robot, q.usage);
  }

  lemma VerdictResult(d: MapData, book: Book, resource: Id, robot: Id, usage: ResourceUsage)
    ensures forall w: TimeWindow :: Verdict(d, book, resource, robot, w, usage).result == Result(d, book, resource, robot, w, usage)
  {
    hide Result, BlockerIds, InClaimOrder, Peak;
  }

  lemma RequestKeepsSafe(d: MapData, p: ReservationPolicy, s: State, q: Request, now: Time)
    requires Safe(d, s.book)
    ensures Safe(d, AfterRequest(d, p, s, q, now).book)
  {
    hide Safe, AfterRequest, Admits, Decide;
    GrantedExactlyWhen(d, p, s, q, now);
    if NewGrant(d, p, s, q, now) {
      var w := EffectiveWindow(q.requestedStart, q.estimatedDuration, p).value;
      var r := GrantedRecord(p, q, w, Decide(d, p, s, q, now).effectivePriority, now);
      InsertGrows(s.book, r);
      AdmissionIsExact(d, s.book, r, w);
    }
  }

  lemma {:induction false} RequestsKeepSafe(d: MapData, p: ReservationPolicy, s: State, ordered: seq<Request>,
      now: Time)
    requires Safe(d, s.book)
    ensures Safe(d, AfterRequests(d, p, s, ordered, now).book)
  {
    hide Safe, AfterRequest;
    if ordered != [] {
      var before := ordered[..|ordered| - 1];
      RequestsKeepSafe(d, p, s, before, now);
      RequestKeepsSafe(d, p, AfterRequests(d, p, s, before, now), ordered[|ordered| - 1], now);
    }
  }

  lemma MovingShrinks(book: Book, ids: set<Id>, next: ReservationState, now: Time)
    requires HoldsResource(next) ==> forall id :: id in ids && id in book ==> HoldsResource(book[id].reservation.state)
    ensures Shrinks(book, AllMoved(book, ids, next, now))
  {
  }

  lemma ShrinksTransitive(a: Book, b: Book, c: Book)
    requires Shrinks(a, b) && Shrinks(b, c)
    ensures Shrinks(a, c)
  {
  }

  /** The calls that only give claims back or enter them. */
  lemma LifecycleShrinks(s: State, id: Id, now: Time)
    ensures Shrinks(s.book, AfterActivate(s, id, now).book)
    ensures Shrinks(s.book, AfterRelease(s, id, now).book)
    ensures Shrinks(s.book, AfterCancel(s, id, now).book)
    ensures Shrinks(s.book, AfterExpire(s, id, now).book)
    ensures Shrinks(s.book, AfterCommit(s, id).book)
  {
    hide Shrinks;
    ShrinksReflexive(s.book);
    if id in s.book && !Terminal(s.book[id].reservation.state) {
      RewriteShrinks(s.book, id, WithState(s.book[id], Active, now));
      RewriteShrinks(s.book, id, WithState(s.book[id], Released, now));
      RewriteShrinks(s.book, id, WithState(s.book[id], Cancelled, now));
      RewriteShrinks(s.book, id, WithState(s.book[id], Expired, now));
      RewriteShrinks(s.book, id, s.book[id].(committed := true));
    }
  }

  lemma ShrinksReflexive(book: Book)
    ensures Shrinks(book, book)
  {
  }

  lemma RewriteShrinks(book: Book, id: Id, r: Record)
    requires id in book && r.reservation.id == id
    requires HoldsResource(r.reservation.state) ==> HoldsResource(book[id].reservation.state)
    requires r.reservation.(state := Pending) == book[id].reservation.(state := Pending) && r.usage == book[id].usage
    ensures Shrinks(book, book[id := r])
  {
  }

  lemma ReleaseAllShrinks(s: State, robot: Id, now: Time)
    ensures Shrinks(s.book, AfterReleaseAllFor(s, robot, now).book)
  {
    var released := AllMoved(s.book, EnteredIds(s.book, robot), Released, now);
    MovingShrinks(s.book, EnteredIds(s.book, robot), Released, now);
    MovingShrinks(released, QueuedIds(s.book, robot), Cancelled, now);
    hide Shrinks;
    ShrinksTransitive(s.book, released, AfterReleaseAllFor(s, robot, now).book);
  }

  lemma NoContendersNoOthers(book: Book, resource: Id, robot: Id, added: TimeWindow, t: Time)
    requires forall i :: i in book ==> !Contends(book[i], resource, robot, added)
    requires Contains(added, t)
    ensures OthersAt(book, resource, robot, t) == {}
  {
    forall x | x in OthersAt(book, resource, robot, t)
      ensures exists i :: i in book && Contends(book[i], resource, robot, added)
    {
      var i :| i in book && Occupies(book[i], resource, t) && book[i].reservation.robot == x;
      ContendsIsMeeting(resource, robot, added, book[i]);
    }
  }

  /** Where nobody contends, anything but capacity zero admits. */
  lemma UncontestedIsAdmitted(d: MapData, book: Book, resource: Id, robot: Id, w: TimeWindow, usage: ResourceUsage)
    requires forall id :: id in book ==> !Contends(book[id], resource, robot, w)
    requires CapacityOf(d, resource) != 0
    ensures Admits(d, book, resource, robot, w, usage)
  {
    forall t | Contains(w, t) ensures OthersAt(book, resource, robot, t) == {} {
      NoContendersNoOthers(book, resource, robot, w, t);
    }
    AdmittedMeans(d, book, resource, robot, w, usage);
    hide Admits, OthersAt, Contends, CapacityOf, Contains;
  }

  /** Where somebody contends, capacity one does not admit. */
  lemma ContestedIsNotAdmitted(d: MapData, book: Book, id: Id, resource: Id, robot: Id, w: TimeWindow, usage: ResourceUsage)
    requires id in book && Contends(book[id], resource, robot, w) && CapacityOf(d, resource) <= 1
    ensures !Admits(d, book, resource, robot, w, usage)
  {
    AdmittedMeans(d, book, resource, robot, w, usage);
    ContendsIsMeeting(resource, robot, w, book[id]);
    var t :| Contains(w, t) && Occupies(book[id], resource, t);
    hide Admits, Contends, CapacityOf;
    assert book[id].reservation.robot in OthersAt(book, resource, robot, t) by { assert id in book; }
    hide OthersAt;
    assert !(|OthersAt(book, resource, robot, t)| < 1);
  }

  /** Once every contender of the added span is gone there is room at any capacity but zero. */
  lemma RevokingMakesRoom(d: MapData, book: Book, id: Id, newEnd: Time, now: Time)
    requires id in book && HoldsResource(book[id].reservation.state) && book[id].reservation.window.end < newEnd
    requires CapacityOf(d, book[id].reservation.resource) != 0
    ensures var r := book[id].reservation;
            Admits(d, AllMoved(book, Displaced(book, id, newEnd), Cancelled, now), r.resource, r.robot,
                   Span(r.window.end, newEnd), book[id].usage)
  {
    var r, displaced := book[id].reservation, Displaced(book, id, newEnd);
    var added := Span(r.window.end, newEnd);
    var after := AllMoved(book, displaced, Cancelled, now);
    assert forall i :: i in after ==> !Contends(after[i], r.resource, r.robot, added) by {
      forall i | i in after ensures !Contends(after[i], r.resource, r.robot, added) {
        if i !in displaced { assert after[i] == book[i]; }
      }
    }
    hide Contends, CapacityOf, Admits;
    UncontestedIsAdmitted(d, after, r.resource, r.robot, added, book[id].usage);
  }

  lemma ExtendKeepsSafe(d: MapData, s: State, id: Id, newEnd: Time, now: Time)
    requires Safe(d, s.book)
    ensures Safe(d, AfterExtend(d, s, id, newEnd, now).book)
  {
    hide Safe, Admits, CapacityOf;
    match ExtensionCase(d, s.book, id, newEnd)
    case Refused(_) =>
    case RoomAsIs =>
      ExtendGrows(s.book, id, newEnd);
      AdmissionIsExact(d, s.book, WithEnd(s.book[id], newEnd), Span(s.book[id].reservation.window.end, newEnd));
    case RoomAfterRevoking =>
      var displaced := Displaced(s.book, id, newEnd);
      var cleared := AllMoved(s.book, displaced, Cancelled, now);
      MovingShrinks(s.book, displaced, Cancelled, now);
      ShrinkingIsSafe(d, s.book, cleared);
      RevokingMakesRoom(d, s.book, id, newEnd, now);
      assert cleared[id] == s.book[id];
      ExtendGrows(cleared, id, newEnd);
      AdmissionIsExact(d, cleared, WithEnd(cleared[id], newEnd), Span(cleared[id].reservation.window.end, newEnd));
  }

  lemma RecoverOneKeepsSafe(d: MapData, s: State, r: Record, now: Time)
    requires Safe(d, s.book)
    ensures Safe(d, AfterRecoverOne(d, s, r, now).book)
  {
    hide Safe, Admits;
    var id := r.reservation.id;
    match RecoveryCase(d, s.book, r, now)
    case Reject =>
    case RestoreAndExpire => ShrinkingIsSafe(d, s.book, AfterRecoverOne(d, s, r, now).book);
    case Restore =>
      if Terminal(r.reservation.state) {
        ShrinkingIsSafe(d, s.book, s.book[id := r]);
      } else {
        InsertGrows(s.book, r);
        AdmissionIsExact(d, s.book, r, r.reservation.window);
      }
  }

  lemma {:induction false} RecoverKeepsSafe(d: MapData, s: State, ordered: seq<Record>, now: Time)
    requires Safe(d, s.book)
    ensures Safe(d, AfterRecover(d, s, ordered, now).book)
  {
    hide Safe, AfterRecoverOne;
    if ordered != [] {
      var before := ordered[..|ordered| - 1];
      RecoverKeepsSafe(d, s, before, now);
      RecoverOneKeepsSafe(d, AfterRecover(d, s, before, now), ordered[|ordered| - 1], now);
    }
  }

  /** Every manager call keeps the safety invariant. */
  lemma StepKeepsSafe(d: MapData, p: ReservationPolicy, s: State, c: Call, after: State)
    requires Safe(d, s.book) && Step(d, p, s, c, after)
    ensures Safe(d, after.book)
  {
    hide Safe, AfterRequest, AfterRequests, AfterRecover, AfterExtend, AfterActivate, AfterRelease, AfterCancel,
         AfterExpire, AfterCommit, AfterReleaseAllFor, Shrinks, UnusedIds;
    match c
    case RequestOne(q, now) => RequestKeepsSafe(d, p, s, q, now);
    case RequestMany(qs, now) =>
      var ordered :| IsSortOf(ordered, qs, Arbitration(s.waits, p, now)) && after == AfterRequests(d, p, s, ordered, now);
      RequestsKeepSafe(d, p, s, ordered, now);
    case Extend(id, newEnd, now) => ExtendKeepsSafe(d, s, id, newEnd, now);
    case Recover(records, now) =>
      var ordered :| IsSortOf(ordered, records, ClaimedBefore) && after == AfterRecover(d, s, ordered, now);
      RecoverKeepsSafe(d, s, ordered, now);
    case Activate(id, now) => LifecycleShrinks(s, id, now); ShrinkingIsSafe(d, s.book, after.book);
    case Release(id, now) => LifecycleShrinks(s, id, now); ShrinkingIsSafe(d, s.book, after.book);
    case Cancel(id, now) => LifecycleShrinks(s, id, now); ShrinkingIsSafe(d, s.book, after.book);
    case Expire(id, now) => LifecycleShrinks(s, id, now); ShrinkingIsSafe(d, s.book, after.book);
    case Commit(id) => LifecycleShrinks(s, id, 0); ShrinkingIsSafe(d, s.book, after.book);
    case Sweep(now) => MovingShrinks(s.book, UnusedIds(s.book, p, now), Expired, now); ShrinkingIsSafe(d, s.book, after.book);
    case ReleaseAllFor(robot, now) => ReleaseAllShrinks(s, robot, now); ShrinkingIsSafe(d, s.book, after.book);
  }

  lemma EmptyIsSafe(d: MapData)
    ensures Safe(d, map[])
  {
    forall q: Id, t: Time ensures |RobotsAt(map[], q, t)| <= CapacityOf(d, q) {
      assert RobotsAt(map[], q, t) == {};
    }
  }

  /** Run safety. Starting safe, every state of every run is safe: whatever the calls and their
      order, at every instant capacity, direction and movement exclusion hold. */
  lemma {:induction false} RunsAreSafe(d: MapData, p: ReservationPolicy, states: seq<State>, calls: seq<Call>, k: nat)
    requires Run(d, p, states, calls) && Safe(d, states[0].book) && k < |states|
    ensures Safe(d, states[k].book)
  {
    hide Safe, Step;
    if k > 0 {
      RunsAreSafe(d, p, states, calls, k - 1);
      StepKeepsSafe(d, p, states[k - 1], calls[k - 1], states[k]);
    }
  }

  /** In particular from an empty table. */
  lemma RunsFromEmptyAreSafe(d: MapData, p: ReservationPolicy, states: seq<State>, calls: seq<Call>, k: nat)
    requires Run(d, p, states, calls) && states[0] == EMPTY && k < |states|
    ensures forall resource: Id, t: Time :: |RobotsAt(states[k].book, resource, t)| <= CapacityOf(d, resource)
    ensures forall a, b, t: Time :: a in states[k].book && b in states[k].book && Meet(states[k].book[a], states[k].book[b], t)
              ==> !Opposed(d, states[k].book[a], states[k].book[b])
  {
    EmptyIsSafe(d);
    RunsAreSafe(d, p, states, calls, k);
  }
}
