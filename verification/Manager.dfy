/** The reservation manager: the one thing that changes reservation state. Every method is proved
    to do to the live tables and counters exactly what the protocol function of the call says. */
module Manager {
  import opened Core
  import opened Ordering
  import opened Graph
  import opened Claims
  import opened Admission
  import opened Verdicts
  import opened ClaimIndex
  import opened Table
  import opened Policy
  import opened Protocol
  import opened Safety
  import opened Accounts
  import opened ArbitrationOrder
  import opened Recoveries
  import FairService
  import RecoveryOrder

  datatype SweepReport = SweepReport(expired: seq<Id>, overrunning: seq<Id>)

  lemma VerdictAdmits(d: MapData, book: Book, resource: Id, robot: Id, w: TimeWindow, usage: ResourceUsage)
    ensures (Verdict(d, book, resource, robot, w, usage).result == Admitted) <==> Admits(d, book, resource, robot, w, usage)
  {
    hide Result, BlockerIds, InClaimOrder, Peak;
  }

  lemma MovedOneMore(book: Book, ids: set<Id>, id: Id, next: ReservationState, now: Time)
    requires id in book && id !in ids
    ensures AllMoved(book, ids, next, now)[id] == book[id]
    ensures AllMoved(book, ids, next, now)[id := WithState(book[id], next, now)] == AllMoved(book, ids + {id}, next, now)
  {
  }

  /** The ids listed so far that belong to `ids`. */
  function Seen(q: seq<Id>, ids: set<Id>): set<Id> {
    set id | id in q && id in ids
  }

  lemma SeenNext(q: seq<Id>, i: nat, ids: set<Id>)
    requires i < |q| && Ascending(q, IdLess)
    ensures q[i] !in Seen(q[..i], ids)
    ensures Seen(q[..i + 1], ids) == Seen(q[..i], ids) + if q[i] in ids then {q[i]} else {}
    ensures |Seen(q[..i + 1], ids)| == |Seen(q[..i], ids)| + if q[i] in ids then 1 else 0
    ensures Kept(q[..i + 1], ids) == Kept(q[..i], ids) + if q[i] in ids then [q[i]] else []
  {
    assert q[..i + 1] == q[..i] + [q[i]];
    assert q[..i + 1][..i] == q[..i];
    assert forall j :: 0 <= j < i ==> IdLess(q[j], q[i]);
    assert Seen(q[..i + 1], ids) == Seen(q[..i], ids) + if q[i] in ids then {q[i]} else {};
  }

  lemma SeenAll(q: seq<Id>, all: set<Id>, ids: set<Id>)
    requires q == InIdOrder(all) && ids <= all
    ensures Seen(q[..|q|], ids) == ids
    ensures Kept(q[..|q|], ids) == InIdOrder(ids)
  {
    assert q[..|q|] == q;
    KeptIsInIdOrder(all, ids);
    assert forall x :: x in q <==> x in all;
  }

  lemma LifecycleKeepsSafe(d: MapData, s: State, id: Id, now: Time)
    requires Safe(d, s.book)
    ensures Safe(d, AfterActivate(s, id, now).book) && Safe(d, AfterRelease(s, id, now).book)
    ensures Safe(d, AfterCancel(s, id, now).book) && Safe(d, AfterExpire(s, id, now).book) && Safe(d, AfterCommit(s, id).book)
  {
    hide Safe, Shrinks, AfterActivate, AfterRelease, AfterCancel, AfterExpire, AfterCommit;
    LifecycleShrinks(s, id, now);
    ShrinkingIsSafe(d, s.book, AfterActivate(s, id, now).book);
    ShrinkingIsSafe(d, s.book, AfterRelease(s, id, now).book);
    ShrinkingIsSafe(d, s.book, AfterCancel(s, id, now).book);
    ShrinkingIsSafe(d, s.book, AfterExpire(s, id, now).book);
    ShrinkingIsSafe(d, s.book, AfterCommit(s, id).book);
  }

  lemma ReleaseAllKeepsSafe(d: MapData, s: State, robot: Id, now: Time)
    requires Safe(d, s.book)
    ensures Safe(d, AfterReleaseAllFor(s, robot, now).book)
  {
    hide Safe, Shrinks, AfterReleaseAllFor;
    ReleaseAllShrinks(s, robot, now);
    ShrinkingIsSafe(d, s.book, AfterReleaseAllFor(s, robot, now).book);
  }

  lemma SweepKeepsSafe(d: MapData, p: ReservationPolicy, s: State, now: Time)
    requires Safe(d, s.book)
    ensures Safe(d, AfterSweep(p, s, now).book)
  {
    hide Safe, Shrinks, UnusedIds;
    MovingShrinks(s.book, UnusedIds(s.book, p, now), Expired, now);
    ShrinkingIsSafe(d, s.book, AfterSweep(p, s, now).book);
  }

  class ReservationManager {
    const table: ReservationTable
    const policy: ReservationPolicy
    var waits: map<Id, WaitEntry>
    var journal: seq<Decision>
    var metrics: Metrics

    /** The table's indices are right, and the claims it holds are safe. */
    ghost predicate Valid()
      reads this, table
    {
      table.Valid() && Safe(table.world.data, table.records)
    }

    /** The manager and its table as a protocol state. */
    function Now(): State
      reads this, table
    {
      State(table.records, waits, journal, metrics)
    }

    constructor (t: ReservationTable, p: ReservationPolicy)
      requires t.Valid() && Safe(t.world.data, t.records)
      ensures Valid() && table == t && policy == p
      ensures Now() == State(t.records, map[], [], NO_METRICS)
    {
      table, policy := t, p;
      waits, journal, metrics := map[], [], NO_METRICS;
    }

    method Journal(decision: Decision)
      modifies this`journal
      ensures journal == Log(old(journal), decision, policy.decisionLogCapacity)
    {
      if policy.decisionLogCapacity == 0 {
        return;
      }
      if |journal| >= policy.decisionLogCapacity {
        journal := journal[1..];
      }
      journal := journal + [decision];
    }

    /** Checks and, if the resource allows it, grants, as one step. */
    method Submit(q: Request, now: Time) returns (decision: Decision)
      requires Valid()
      modifies this, table
      ensures Valid()
      ensures decision == Decide(table.world.data, policy, old(Now()), q, now)
      ensures Now() == AfterRequest(table.world.data, policy, old(Now()), q, now)
    {
      hide table.Valid, Verdict, EffectiveWindow, EffectivePriority, WaitedFor, Log, NoteWait, GrantedRecord, Safe;
      RequestKeepsSafe(table.world.data, policy, Now(), q, now);
      decision := Undecided(policy, waits, q, now);
      if q.reservation == EMPTY_ID || q.robot == EMPTY_ID || q.resource == EMPTY_ID {
        decision := decision.(reason := EmptyIdentifier);
        metrics := metrics.(rejected := metrics.rejected + 1);
        Journal(decision);
        return;
      }
      var existing := table.Find(q.reservation);
      if existing.Some? {
        decision := Replay(existing.value, q, decision);
        metrics := Count(metrics, decision);
        Journal(decision);
        return;
      }
      var window := EffectiveWindow(q.requestedStart, q.estimatedDuration, policy);
      if window.None? {
        decision := decision.(reason := InvalidWindow);
        metrics := metrics.(rejected := metrics.rejected + 1);
        Journal(decision);
        return;
      }
      decision := decision.(windowStart := window.value.start, windowEnd := window.value.end);
      if q.requestedStart > now + policy.horizon {
        decision := decision.(reason := BeyondHorizon);
        metrics := metrics.(rejected := metrics.rejected + 1);
        Journal(decision);
        return;
      }
      var verdict := table.Check(q.resource, q.robot, window.value, q.usage);
      if verdict.result != Admitted {
        decision := decision.(status := Wait, reason := ReasonFor(verdict.result),
                              nextAvailable := verdict.nextAvailable, blockingRobots := verdict.blockingRobots);
        waits := NoteWait(waits, q, verdict.blockingRobots, now);
        metrics := metrics.(waited := metrics.waited + 1);
        Journal(decision);
        return;
      }
      var status := table.Insert(GrantedRecord(policy, q, window.value, decision.effectivePriority, now));
      waits := waits - {q.robot};
      decision := decision.(status := Granted);
      metrics := metrics.(granted := metrics.granted + 1);
      Journal(decision);
    }

    /** Decides a set of requests that arrived together, in arbitration order. */
    method SubmitAll(requests: seq<Request>, now: Time) returns (decisions: seq<Decision>, ghost ordered: seq<Request>)
      requires Valid()
      modifies this, table
      ensures Valid()
      ensures IsSortOf(ordered, requests, Arbitration(old(waits), policy, now))
      ensures FairService.Fair(old(waits), policy, now, ordered)
      ensures decisions == Decisions(table.world.data, policy, old(Now()), ordered, now)
      ensures Now() == AfterRequests(table.world.data, policy, old(Now()), ordered, now)
      ensures Step(table.world.data, policy, old(Now()), RequestMany(requests, now), Now())
    {
      hide table.Valid, Arbitration, AfterRequest, Decide, Safe, FairService.Fair;
      ArbitrationIsOrder(waits, policy, now);
      var sorted := Sort(requests, Arbitration(waits, policy, now));
      RequestsKeepSafe(table.world.data, policy, Now(), sorted, now);
      ordered := sorted;
      FairService.ArbitratedIsFair(waits, policy, now, ordered);
      decisions := [];
      ghost var d, before := table.world.data, Now();
      for i := 0 to |sorted|
        invariant Valid()
        invariant Now() == AfterRequests(d, policy, before, sorted[..i], now)
        invariant decisions == Decisions(d, policy, before, sorted[..i], now)
      {
        assert sorted[..i + 1][..i] == sorted[..i];
        var decision := Submit(sorted[i], now);
        decisions := decisions + [decision];
      }
      assert sorted[..|sorted|] == sorted;
    }

    /** Moves one claim if it is live and the lifecycle allows it. */
    method Move(id: Id, next: ReservationState, now: Time) returns (error: ReservationError)
      requires table.Valid()
      modifies table
      ensures table.Valid()
      ensures error == MoveError(old(table.records), id, next)
      ensures table.records == if error.NoError? then old(table.records)[id := WithState(old(table.records)[id], next, now)] else old(table.records)
    {
      hide table.Valid;
      var record := table.Find(id);
      if record.None? {
        return UnknownReservation;
      }
      if Terminal(record.value.reservation.state) {
        return AlreadyTerminal;
      }
      var status := table.SetState(id, next, now);
      return if status == TableOk then NoError else InvalidTransition;
    }

    method Enter(id: Id, now: Time) returns (error: ReservationError)
      requires Valid()
      modifies this, table
      ensures Valid() && error == MoveError(old(table.records), id, Active)
      ensures Now() == AfterActivate(old(Now()), id, now)
    {
      hide table.Valid, Safe, WithState, TransitionAllowed;
      LifecycleKeepsSafe(table.world.data, Now(), id, now);
      error := Move(id, Active, now);
    }

    method GiveBack(id: Id, now: Time) returns (error: ReservationError)
      requires Valid()
      modifies this, table
      ensures Valid() && error == MoveError(old(table.records), id, Released)
      ensures Now() == AfterRelease(old(Now()), id, now)
    {
      hide table.Valid, Safe, WithState, TransitionAllowed;
      LifecycleKeepsSafe(table.world.data, Now(), id, now);
      error := Move(id, Released, now);
      if error.NoError? {
        metrics := metrics.(released := metrics.released + 1);
      }
    }

    method Withdraw(id: Id, now: Time) returns (error: ReservationError)
      requires Valid()
      modifies this, table
      ensures Valid() && error == CancelError(old(table.records), id)
      ensures Now() == AfterCancel(old(Now()), id, now)
    {
      hide table.Valid, Safe;
      LifecycleKeepsSafe(table.world.data, Now(), id, now);
      var record := table.Find(id);
      if record.Some? && record.value.committed {
        return AlreadyCommitted;
      }
      error := Move(id, Cancelled, now);
      if error.NoError? {
        metrics := metrics.(cancelled := metrics.cancelled + 1);
      }
    }

    method ExpireOne(id: Id, now: Time) returns (error: ReservationError)
      requires Valid()
      modifies this, table
      ensures Valid() && error == MoveError(old(table.records), id, Expired)
      ensures Now() == AfterExpire(old(Now()), id, now)
    {
      hide table.Valid, Safe, WithState, TransitionAllowed;
      LifecycleKeepsSafe(table.world.data, Now(), id, now);
      error := Move(id, Expired, now);
      if error.NoError? {
        metrics := metrics.(expired := metrics.expired + 1);
      }
    }

    method MarkCommitted(id: Id) returns (error: ReservationError)
      requires Valid()
      modifies this, table
      ensures Valid() && error == CommitError(old(table.records), id)
      ensures Now() == AfterCommit(old(Now()), id)
    {
      hide table.Valid, Safe;
      LifecycleKeepsSafe(table.world.data, Now(), id, 0);
      var status := table.MarkCommitted(id);
      return match status
        case TableOk => NoError
        case UnknownId => UnknownReservation
        case _ => AlreadyTerminal;
    }

    /** Releases what the robot is in, cancels what it is not, in id order. */
    method GiveBackAllFor(robot: Id, now: Time) returns (gone: seq<Id>)
      requires Valid()
      modifies this, table
      ensures Valid()
      ensures gone == InIdOrder(HoldingIdsFor(old(table.records), robot))
      ensures Now() == AfterReleaseAllFor(old(Now()), robot, now)
    {
      hide table.Valid, AllMoved, Split, Seen, EnteredIds, QueuedIds, InIdOrder, AfterReleaseAllFor, HoldingIdsFor,
           WithState, Safe, CountReturned;
      ReleaseAllKeepsSafe(table.world.data, Now(), robot, now);
      gone := [];
      ghost var before, counts := table.records, metrics;
      ghost var entered, queued := EnteredIds(before, robot), QueuedIds(before, robot);
      var ids := table.HoldingIdListFor(robot);
      SplitBegin(before, entered, queued, now);
      NoneReturned(counts);
      for i := 0 to |ids|
        invariant table.Valid() && gone == ids[..i]
        invariant table.records == Split(before, Seen(ids[..i], entered), Seen(ids[..i], queued), now)
        invariant waits == old(waits) && journal == old(journal)
        invariant metrics == CountReturned(counts, |Seen(ids[..i], entered)|, |Seen(ids[..i], queued)|)
      {
        var id := ids[i];
        SplitNext(before, robot, ids, i, now);
        OneMoreReturned(counts, |Seen(ids[..i], entered)|, |Seen(ids[..i], queued)|);
        var record := table.Find(id);
        if record.Some? {
          var inside := record.value.reservation.state.Active?;
          var status := table.SetState(id, if inside then Released else Cancelled, now);
          if status == TableOk {
            gone := gone + [id];
            if inside {
              metrics := CountReturned(metrics, 1, 0);
            } else {
              metrics := CountReturned(metrics, 0, 1);
            }
          }
        }
      }
      SplitEnd(before, robot, ids, now);
      waits := waits - {robot};
      ReleaseAllIs(old(Now()), robot, now);
    }

    /** Expires grants nobody used and reports, without touching, claims that overrun. */
    method Tidy(now: Time) returns (report: SweepReport)
      requires Valid()
      modifies this, table
      ensures Valid()
      ensures report.expired == InIdOrder(UnusedIds(old(table.records), policy, now))
      ensures report.overrunning == InIdOrder(OverrunningIds(old(table.records), now))
      ensures Now() == AfterSweep(policy, old(Now()), now)
    {
      hide table.Valid, AllMoved, Seen, Kept, UnusedIds, OverrunningIds, InIdOrder, AfterSweep, HoldingIds, WithState,
           Safe, CountExpired;
      SweepKeepsSafe(table.world.data, policy, Now(), now);
      ghost var before, counts := table.records, metrics;
      ghost var unused, late := UnusedIds(before, policy, now), OverrunningIds(before, now);
      var expired, overrunning := [], [];
      var ids := table.HoldingIdList();
      SweepBegin(before, unused, late, now);
      NoneExpired(counts);
      for i := 0 to |ids|
        invariant table.Valid()
        invariant expired == Kept(ids[..i], unused) && overrunning == Kept(ids[..i], late)
        invariant table.records == AllMoved(before, Seen(ids[..i], unused), Expired, now)
        invariant waits == old(waits) && journal == old(journal)
        invariant metrics == CountExpired(counts, |Seen(ids[..i], unused)|)
      {
        var id := ids[i];
        SweepNext(before, policy, ids, i, now);
        OneMoreExpired(counts, |Seen(ids[..i], unused)|);
        var record := table.Find(id);
        if record.Some? {
          if record.value.reservation.state.Active? {
            if IsPastWindow(record.value.reservation, now) {
              overrunning := overrunning + [id];
            }
          } else {
            var windowGone := IsPastWindow(record.value.reservation, now);
            var neverTakenUp := now >= record.value.decidedAt + policy.grantTimeout;
            if windowGone || neverTakenUp {
              var status := table.SetState(id, Expired, now);
              if status == TableOk {
                expired := expired + [id];
                metrics := CountExpired(metrics, 1);
              }
            }
          }
        }
      }
      SweepEnd(before, policy, ids, now);
      report := SweepReport(expired, overrunning);
      SweepIs(policy, old(Now()), now);
    }

    /** Holds a resource for longer. Only the added span is checked; queued grants give way only when
        there is no room, and only if every robot in the way can still be called back. */
    method Prolong(id: Id, newEnd: Time, now: Time) returns (outcome: ExtensionOutcome)
      requires Valid()
      modifies this, table
      ensures Valid()
      ensures outcome == Extension(table.world.data, old(Now()), id, newEnd, now)
      ensures Now() == AfterExtend(table.world.data, old(Now()), id, newEnd, now)
    {
      hide table.Valid, Admits, Verdict, CapacityOf, ListsClaims, InIdOrder, InClaimOrder, RobotsOf, AllMoved,
           Irrevocable,
           ExtensionCase, Extension, AfterExtend, WithEnd, WithState, HoldingIds, ContenderIds, Safe;
      ExtendKeepsSafe(table.world.data, Now(), id, newEnd, now);
      ghost var d, s := table.world.data, Now();
      outcome := ExtensionOutcome(false, id, 0, NoError, [], [], now);
      ExtendRefusedEarly(d, s, id, newEnd, now);
      var record := table.Find(id);
      if record.None? {
        outcome := outcome.(error := UnknownReservation);
        return;
      }
      var r := record.value.reservation;
      if Terminal(r.state) {
        outcome := outcome.(error := AlreadyTerminal);
        return;
      }
      outcome := outcome.(newEnd := r.window.end);
      if newEnd <= r.window.end {
        outcome := outcome.(error := NotAnExtension);
        return;
      }
      var addition := Span(r.window.end, newEnd);
      VerdictAdmits(d, s.book, r.resource, r.robot, addition, record.value.usage);
      var verdict := table.Check(r.resource, r.robot, addition, record.value.usage);
      if verdict.result == Admitted {
        ExtendInRoom(d, s, id, newEnd, now);
        var status := table.SetWindowEnd(id, newEnd);
        metrics := metrics.(extended := metrics.extended + 1);
        outcome := outcome.(granted := true, newEnd := newEnd);
        return;
      }
      outcome := ProlongByRevoking(id, newEnd, now);
    }

    method ProlongByRevoking(id: Id, newEnd: Time, now: Time) returns (outcome: ExtensionOutcome)
      requires table.Valid() && MayExtend(table.world.data, Now(), id, newEnd, false)
      modifies this, table
      ensures table.Valid()
      ensures outcome == Extension(table.world.data, old(Now()), id, newEnd, now)
      ensures Now() == AfterExtend(table.world.data, old(Now()), id, newEnd, now)
    {
      hide table.Valid, Admits, Verdict, CapacityOf, ListsClaims, InIdOrder, InClaimOrder, RobotsOf, AllMoved,
           Irrevocable,
           ExtensionCase, Extension, AfterExtend, WithState, WithEnd, HoldingIds, ContenderIds, Revoked, Contends, Safe;
      ghost var d, s := table.world.data, Now();
      ghost var ids := Displaced(s.book, id, newEnd);
      var r := table.records[id].reservation;
      var displaced := table.Contenders(r.resource, Span(r.window.end, newEnd), r.robot);
      DisplacedHold(s.book, id, newEnd);
      var robots := OwnersOf(displaced, s.book, ids);
      var blocked := AnyIrrevocable(displaced, ids);
      var capacity := table.CapacityOfResource(r.resource);
      outcome := ExtensionOutcome(false, id, r.window.end, ExtensionBlocked, [], robots, now);
      if blocked || capacity == 0 {
        ExtendBlocked(d, s, id, newEnd, now);
        return;
      }
      ExtendByRevoking(d, s, id, newEnd, now);
      RevocableArePending(s.book, ids);
      hide MayExtend, Displaced;
      outcome := TakeBack(id, newEnd, displaced, ids, robots, now);
    }

    /** Takes back the queued grants and gives the span to the robot holding the resource. */
    method TakeBack(id: Id, newEnd: Time, displaced: seq<Record>, ghost ids: set<Id>, robots: seq<Id>, now: Time)
      returns (outcome: ExtensionOutcome)
      requires table.Valid() && ListsClaims(displaced, table.records, ids)
      requires id in table.records && id !in ids && !Terminal(table.records[id].reservation.state)
      requires table.records[id].reservation.window.end < newEnd
      requires forall o :: o in ids ==> o in table.records && table.records[o].reservation.state.Pending?
      modifies this, table
      ensures table.Valid()
      ensures outcome == ExtensionOutcome(true, id, newEnd, NoError, InClaimOrder(old(table.records), ids), robots, now)
      ensures Now() == Revoked(old(Now()), id, newEnd, ids, now)
    {
      hide table.Valid, ListsClaims, InClaimOrder, AllMoved, WithState, WithEnd, Revoked, Terminal,
           CountRevoked, CountExtended;
      ghost var s := Now();
      var revoked := Revoke(displaced, ids, now);
      ClearedKeeps(s.book, ids, id, now);
      var status := table.SetWindowEnd(id, newEnd);
      metrics := CountExtended(metrics);
      RevokedBy(s, Now(), id, newEnd, ids, now);
      outcome := ExtensionOutcome(true, id, newEnd, NoError, revoked, robots, now);
    }

    method AnyIrrevocable(displaced: seq<Record>, ghost ids: set<Id>) returns (blocked: bool)
      requires ListsClaims(displaced, table.records, ids)
      ensures blocked <==> exists o :: o in ids && o in table.records && Irrevocable(table.records[o])
    {
      hide Ascending;
      for i := 0 to |displaced|
        invariant forall j :: 0 <= j < i ==> !Irrevocable(displaced[j])
      {
        assert displaced[i] in displaced;
        var blocker := table.Find(displaced[i].reservation.id);
        var inside := displaced[i].reservation.state.Active?;
        var goingIn := blocker.Some? && blocker.value.committed;
        if inside || goingIn {
          return true;
        }
      }
      return false;
    }

    /** Takes back every queued grant in the way, in (start, id) order. */
    method Revoke(displaced: seq<Record>, ghost ids: set<Id>, now: Time) returns (revoked: seq<Id>)
      requires table.Valid() && ListsClaims(displaced, table.records, ids)
      requires forall o :: o in ids ==> o in table.records && table.records[o].reservation.state.Pending?
      modifies this`metrics, table
      ensures table.Valid()
      ensures table.records == AllMoved(old(table.records), ids, Cancelled, now)
      ensures revoked == InClaimOrder(old(table.records), ids)
      ensures metrics == CountRevoked(old(metrics), |ids|)
    {
      hide table.Valid, ListsClaims, AllMoved, InClaimOrder, WithState, IdsSeen, Ids, CountRevoked;
      revoked := [];
      ghost var before := table.records;
      RevokeBegin(before, displaced, now);
      NoneRevoked(metrics);
      for i := 0 to |displaced|
        invariant table.Valid()
        invariant revoked == Ids(displaced[..i])
        invariant table.records == AllMoved(before, IdsSeen(displaced[..i]), Cancelled, now)
        invariant metrics == CountRevoked(old(metrics), |IdsSeen(displaced[..i])|)
      {
        var other := displaced[i].reservation.id;
        RevokeNext(before, displaced, ids, i, now);
        var status := table.SetState(other, Cancelled, now);
        if status == TableOk {
          revoked := revoked + [other];
          OneMoreRevoked(old(metrics), |IdsSeen(displaced[..i])|);
          metrics := CountRevoked(metrics, 1);
        }
      }
      RevokeEnd(before, displaced, ids);
    }

    /** Rebuilds state after a restart, earliest claim first. */
    method Restore(records: seq<Record>, now: Time) returns (report: RecoveryReport, ghost ordered: seq<Record>)
      requires Valid()
      modifies this, table
      ensures Valid()
      ensures IsSortOf(ordered, records, ClaimedBefore) && RecoveryOrder.EarliestFirst(ordered)
      ensures Now() == AfterRecover(table.world.data, old(Now()), ordered, now)
      ensures report == Recovery(table.world.data, old(Now()), ordered, now)
      ensures Step(table.world.data, policy, old(Now()), Recover(records, now), Now())
    {
      hide table.Valid, ClaimedBefore, AfterRecoverOne, Reported, Safe, RecoveryOrder.EarliestFirst;
      ClaimedBeforeIsOrder();
      var sorted := Sort(records, ClaimedBefore);
      RecoverKeepsSafe(table.world.data, Now(), sorted, now);
      ordered := sorted;
      RecoveryOrder.SortedIsEarliestFirst(ordered);
      report := NOTHING_RECOVERED;
      ghost var d, before := table.world.data, Now();
      for i := 0 to |sorted|
        invariant table.Valid()
        invariant Now() == AfterRecover(d, before, sorted[..i], now)
        invariant report == Recovery(d, before, sorted[..i], now)
      {
        assert sorted[..i + 1][..i] == sorted[..i];
        report := RestoreOne(sorted[i], report, now);
      }
      assert sorted[..|sorted|] == sorted;
    }

    method RestoreOne(record: Record, report: RecoveryReport, now: Time) returns (updated: RecoveryReport)
      requires table.Valid()
      modifies this, table
      ensures table.Valid()
      ensures Now() == AfterRecoverOne(table.world.data, old(Now()), record, now)
      ensures updated == Reported(table.world.data, old(table.records), report, record, now)
    {
      hide table.Valid, Verdict, Admits, WithState, IsPastWindow;
      var r := record.reservation;
      if r.id in table.records {
        return report.(rejected := report.rejected + [r.id]);
      }
      if Terminal(r.state) {
        var _ := table.Insert(record);
        return report.(restored := report.restored + [r.id]);
      }
      VerdictAdmits(table.world.data, table.records, r.resource, r.robot, r.window, record.usage);
      var verdict := table.Check(r.resource, r.robot, r.window, record.usage);
      if verdict.result != Admitted {
        return report.(rejected := report.rejected + [r.id]);
      }
      if r.state.Pending? && IsPastWindow(r, now) {
        RestoreStale(record, now);
        metrics := metrics.(expired := metrics.expired + 1);
        return report.(expired := report.expired + [r.id]);
      }
      var _ := table.Insert(record);
      return report.(restored := report.restored + [r.id]);
    }

    /** Files a pending claim and expires it at once, so that both transitions are the table's own. */
    method RestoreStale(record: Record, now: Time)
      requires table.Valid() && record.reservation.id !in table.records && record.reservation.state.Pending?
      modifies table
      ensures table.Valid()
      ensures table.records == old(table.records)[record.reservation.id := WithState(record, Expired, now)]
    {
      hide table.Valid, WithState;
      var _ := table.Insert(record);
      var status := table.SetState(record.reservation.id, Expired, now);
    }
  }

  // ---- The exits of an extension.

  lemma ExtendRefusedEarly(d: MapData, s: State, id: Id, newEnd: Time, now: Time)
    ensures id !in s.book ==>
      && AfterExtend(d, s, id, newEnd, now) == s
      && Extension(d, s, id, newEnd, now) == ExtensionOutcome(false, id, 0, UnknownReservation, [], [], now)
    ensures id in s.book && Terminal(s.book[id].reservation.state) ==>
      && AfterExtend(d, s, id, newEnd, now) == s
      && Extension(d, s, id, newEnd, now) == ExtensionOutcome(false, id, 0, AlreadyTerminal, [], [], now)
    ensures id in s.book && !Terminal(s.book[id].reservation.state) && newEnd <= s.book[id].reservation.window.end ==>
      && AfterExtend(d, s, id, newEnd, now) == s
      && Extension(d, s, id, newEnd, now) == ExtensionOutcome(false, id, s.book[id].reservation.window.end, NotAnExtension, [], [], now)
  {
    hide Admits, CapacityOf, AllMoved, InClaimOrder, InIdOrder, Displaced, RobotsOf;
  }

  /** A live claim asked to end later, and room for the added span or not. */
  ghost predicate MayExtend(d: MapData, s: State, id: Id, newEnd: Time, room: bool) {
    && id in s.book && !Terminal(s.book[id].reservation.state) && s.book[id].reservation.window.end < newEnd
    && room == Admits(d, s.book, s.book[id].reservation.resource, s.book[id].reservation.robot,
                      Span(s.book[id].reservation.window.end, newEnd), s.book[id].usage)
  }

  lemma ExtendInRoom(d: MapData, s: State, id: Id, newEnd: Time, now: Time)
    requires MayExtend(d, s, id, newEnd, true)
    ensures Extension(d, s, id, newEnd, now) == ExtensionOutcome(true, id, newEnd, NoError, [], [], now)
    ensures AfterExtend(d, s, id, newEnd, now) ==
      s.(book := s.book[id := WithEnd(s.book[id], newEnd)], metrics := s.metrics.(extended := s.metrics.extended + 1))
  {
    hide Admits, CapacityOf, AllMoved, InClaimOrder, InIdOrder, Displaced, RobotsOf;
  }

  lemma ExtendBlocked(d: MapData, s: State, id: Id, newEnd: Time, now: Time)
    requires MayExtend(d, s, id, newEnd, false)
    requires (exists o :: o in Displaced(s.book, id, newEnd) && o in s.book && Irrevocable(s.book[o]))
             || CapacityOf(d, s.book[id].reservation.resource) == 0
    ensures AfterExtend(d, s, id, newEnd, now) == s
    ensures Extension(d, s, id, newEnd, now) ==
      ExtensionOutcome(false, id, s.book[id].reservation.window.end, ExtensionBlocked, [],
                       InIdOrder(RobotsOf(s.book, Displaced(s.book, id, newEnd))), now)
  {
    hide Admits, CapacityOf, AllMoved, InClaimOrder, InIdOrder, RobotsOf, Irrevocable, Contends;
  }

  lemma ExtendByRevoking(d: MapData, s: State, id: Id, newEnd: Time, now: Time)
    requires MayExtend(d, s, id, newEnd, false)
    requires !exists o :: o in Displaced(s.book, id, newEnd) && o in s.book && Irrevocable(s.book[o])
    requires CapacityOf(d, s.book[id].reservation.resource) != 0
    ensures Extension(d, s, id, newEnd, now) ==
      ExtensionOutcome(true, id, newEnd, NoError, InClaimOrder(s.book, Displaced(s.book, id, newEnd)),
                       InIdOrder(RobotsOf(s.book, Displaced(s.book, id, newEnd))), now)
    ensures AfterExtend(d, s, id, newEnd, now) == Revoked(s, id, newEnd, Displaced(s.book, id, newEnd), now)
  {
    RevokingCase(d, s, id, newEnd);
    hide *;
    RevokedIs(d, s, id, newEnd, now);
  }

  function Revoked(s: State, id: Id, newEnd: Time, displaced: set<Id>, now: Time): State
    requires id in s.book && s.book[id].reservation.window.end < newEnd
  {
    s.(book := AllMoved(s.book, displaced, Cancelled, now)[id := WithEnd(s.book[id], newEnd)],
       metrics := CountExtended(CountRevoked(s.metrics, |displaced|)))
  }

  function CountRevoked(m: Metrics, n: nat): Metrics {
    m.(revoked := m.revoked + n, cancelled := m.cancelled + n)
  }

  lemma NoneRevoked(m: Metrics)
    ensures CountRevoked(m, 0) == m
  {
  }

  lemma OneMoreRevoked(m: Metrics, n: nat)
    ensures CountRevoked(CountRevoked(m, n), 1) == CountRevoked(m, n + 1)
  {
  }

  function CountReturned(m: Metrics, released: nat, cancelled: nat): Metrics {
    m.(released := m.released + released, cancelled := m.cancelled + cancelled)
  }

  lemma NoneReturned(m: Metrics)
    ensures CountReturned(m, 0, 0) == m
  {
  }

  lemma OneMoreReturned(m: Metrics, released: nat, cancelled: nat)
    ensures CountReturned(CountReturned(m, released, cancelled), 1, 0) == CountReturned(m, released + 1, cancelled)
    ensures CountReturned(CountReturned(m, released, cancelled), 0, 1) == CountReturned(m, released, cancelled + 1)
  {
  }

  function CountExpired(m: Metrics, n: nat): Metrics {
    m.(expired := m.expired + n)
  }

  lemma NoneExpired(m: Metrics)
    ensures CountExpired(m, 0) == m
  {
  }

  lemma OneMoreExpired(m: Metrics, n: nat)
    ensures CountExpired(CountExpired(m, n), 1) == CountExpired(m, n + 1)
  {
  }

  function CountExtended(m: Metrics): Metrics {
    m.(extended := m.extended + 1)
  }

  lemma RevokedBy(s: State, after: State, id: Id, newEnd: Time, displaced: set<Id>, now: Time)
    requires id in s.book && s.book[id].reservation.window.end < newEnd
    requires after.book == AllMoved(s.book, displaced, Cancelled, now)[id := WithEnd(s.book[id], newEnd)]
    requires after.waits == s.waits && after.journal == s.journal
    requires after.metrics == CountExtended(CountRevoked(s.metrics, |displaced|))
    ensures after == Revoked(s, id, newEnd, displaced, now)
  {
    hide AllMoved, WithEnd;
  }

  lemma RevokedIs(d: MapData, s: State, id: Id, newEnd: Time, now: Time)
    requires ExtensionCase(d, s.book, id, newEnd) == RoomAfterRevoking
    requires id in s.book && s.book[id].reservation.window.end < newEnd
    ensures Extension(d, s, id, newEnd, now) ==
      ExtensionOutcome(true, id, newEnd, NoError, InClaimOrder(s.book, Displaced(s.book, id, newEnd)),
                       InIdOrder(RobotsOf(s.book, Displaced(s.book, id, newEnd))), now)
    ensures AfterExtend(d, s, id, newEnd, now) == Revoked(s, id, newEnd, Displaced(s.book, id, newEnd), now)
  {
    hide ExtensionCase, AllMoved, InClaimOrder, InIdOrder, RobotsOf, Displaced, WithEnd;
  }

  lemma RevokingCase(d: MapData, s: State, id: Id, newEnd: Time)
    requires MayExtend(d, s, id, newEnd, false)
    requires !exists o :: o in Displaced(s.book, id, newEnd) && o in s.book && Irrevocable(s.book[o])
    requires CapacityOf(d, s.book[id].reservation.resource) != 0
    ensures ExtensionCase(d, s.book, id, newEnd) == RoomAfterRevoking
  {
    hide Admits, CapacityOf, Irrevocable, Contends;
  }

  // ---- Revoking, step by step.

  function IdsSeen(rs: seq<Record>): set<Id> {
    set r | r in rs :: r.reservation.id
  }

  method OwnersOf(rs: seq<Record>, ghost book: Book, ghost ids: set<Id>) returns (robots: seq<Id>)
    requires ListsClaims(rs, book, ids)
    ensures robots == InIdOrder(RobotsOf(book, ids))
  {
    hide InIdOrder, ListsClaims;
    ListedRobots(rs, book, ids);
    robots := Walk(set r | r in rs :: r.reservation.robot);
  }

  lemma RevocableArePending(book: Book, ids: set<Id>)
    requires ids <= HoldingIds(book)
    requires !exists o :: o in ids && o in book && Irrevocable(book[o])
    ensures forall o :: o in ids ==> o in book && book[o].reservation.state.Pending?
  {
    forall o | o in ids ensures o in book && book[o].reservation.state.Pending? {
      assert !Irrevocable(book[o]);
    }
  }

  lemma ClearedKeeps(book: Book, ids: set<Id>, id: Id, now: Time)
    requires id in book && id !in ids
    ensures id in AllMoved(book, ids, Cancelled, now) && AllMoved(book, ids, Cancelled, now)[id] == book[id]
  {
  }

  lemma RevokeBegin(book: Book, displaced: seq<Record>, now: Time)
    ensures IdsSeen(displaced[..0]) == {} && Ids(displaced[..0]) == []
    ensures AllMoved(book, {}, Cancelled, now) == book
  {
  }

  lemma RevokeNext(book: Book, displaced: seq<Record>, ids: set<Id>, i: nat, now: Time)
    requires ListsClaims(displaced, book, ids) && i < |displaced|
    requires forall o :: o in ids ==> o in book && book[o].reservation.state.Pending?
    ensures var other := displaced[i].reservation.id;
            var partly := AllMoved(book, IdsSeen(displaced[..i]), Cancelled, now);
            && other in partly && other in book && partly[other] == book[other]
            && book[other].reservation.state.Pending?
            && Ids(displaced[..i + 1]) == Ids(displaced[..i]) + [other]
            && |IdsSeen(displaced[..i + 1])| == |IdsSeen(displaced[..i])| + 1
            && AllMoved(book, IdsSeen(displaced[..i + 1]), Cancelled, now) == partly[other := WithState(book[other], Cancelled, now)]
  {
    hide WithState, AllMoved;
    var other := displaced[i].reservation.id;
    assert displaced[i] in displaced;
    assert displaced[..i + 1] == displaced[..i] + [displaced[i]];
    assert other !in IdsSeen(displaced[..i]) by { DistinctListed(displaced, book, ids, i); }
    assert IdsSeen(displaced[..i + 1]) == IdsSeen(displaced[..i]) + {other};
    MovedOneMore(book, IdsSeen(displaced[..i]), other, Cancelled, now);
    AllMovedKeys(book, IdsSeen(displaced[..i]), Cancelled, now);
  }

  lemma AllMovedKeys(book: Book, ids: set<Id>, next: ReservationState, now: Time)
    ensures AllMoved(book, ids, next, now).Keys == book.Keys
  {
  }

  lemma DistinctListed(rs: seq<Record>, book: Book, ids: set<Id>, i: nat)
    requires ListsClaims(rs, book, ids) && i < |rs|
    ensures rs[i].reservation.id !in IdsSeen(rs[..i])
  {
    forall j | 0 <= j < i ensures rs[j].reservation.id != rs[i].reservation.id {
      assert KeyLess(Keys(rs)[j], Keys(rs)[i]);
      assert rs[j] in rs && rs[i] in rs;
    }
  }

  lemma RevokeEnd(book: Book, displaced: seq<Record>, ids: set<Id>)
    requires ListsClaims(displaced, book, ids)
    ensures displaced[..|displaced|] == displaced
    ensures IdsSeen(displaced) == ids && Ids(displaced) == InClaimOrder(book, ids)
  {
    ListedInClaimOrder(displaced, book, ids);
    hide Ascending, InClaimOrder;
    forall id | id in ids ensures id in IdsSeen(displaced) {
      assert book[id] in displaced;
    }
  }

  // ---- The loops over id snapshots, step by step.

  function Split(book: Book, entered: set<Id>, queued: set<Id>, now: Time): Book {
    AllMoved(AllMoved(book, entered, Released, now), queued, Cancelled, now)
  }

  lemma SplitBegin(book: Book, entered: set<Id>, queued: set<Id>, now: Time)
    ensures Seen([], entered) == {} && Seen([], queued) == {}
    ensures Split(book, {}, {}, now) == book
  {
  }

  lemma SplitNext(book: Book, robot: Id, ids: seq<Id>, i: nat, now: Time)
    requires ids == InIdOrder(HoldingIdsFor(book, robot)) && i < |ids|
    ensures var entered, queued := EnteredIds(book, robot), QueuedIds(book, robot);
            var partly := Split(book, Seen(ids[..i], entered), Seen(ids[..i], queued), now);
            && ids[i] in book && ids[i] in partly && partly[ids[i]] == book[ids[i]]
            && HoldsResource(book[ids[i]].reservation.state)
            && ids[..i + 1] == ids[..i] + [ids[i]]
            && (if book[ids[i]].reservation.state.Active?
                then TransitionAllowed(book[ids[i]].reservation.state, Released)
                     && partly[ids[i] := WithState(book[ids[i]], Released, now)] == Split(book, Seen(ids[..i + 1], entered), Seen(ids[..i + 1], queued), now)
                     && |Seen(ids[..i + 1], entered)| == |Seen(ids[..i], entered)| + 1 && |Seen(ids[..i + 1], queued)| == |Seen(ids[..i], queued)|
                else TransitionAllowed(book[ids[i]].reservation.state, Cancelled)
                     && partly[ids[i] := WithState(book[ids[i]], Cancelled, now)] == Split(book, Seen(ids[..i + 1], entered), Seen(ids[..i + 1], queued), now)
                     && |Seen(ids[..i + 1], entered)| == |Seen(ids[..i], entered)| && |Seen(ids[..i + 1], queued)| == |Seen(ids[..i], queued)| + 1)
  {
    hide *;
    var id, entered, queued := ids[i], EnteredIds(book, robot), QueuedIds(book, robot);
    EnteredOrQueued(book, robot, id);
    assert id in ids && ids[..i + 1] == ids[..i] + [id];
    SeenNext(ids, i, entered);
    SeenNext(ids, i, queued);
    var e, q := Seen(ids[..i], entered), Seen(ids[..i], queued);
    assert e + {} == e && q + {} == q;
    SplitOneMore(book, e, q, id, now);
  }

  lemma EnteredOrQueued(book: Book, robot: Id, id: Id)
    ensures id in HoldingIdsFor(book, robot) ==>
      && id in book && HoldsResource(book[id].reservation.state)
      && (id in EnteredIds(book, robot) <==> book[id].reservation.state.Active?)
      && (id in QueuedIds(book, robot) <==> !book[id].reservation.state.Active?)
      && TransitionAllowed(book[id].reservation.state, if book[id].reservation.state.Active? then Released else Cancelled)
  {
  }

  lemma SplitOneMore(book: Book, entered: set<Id>, queued: set<Id>, id: Id, now: Time)
    requires id in book && id !in entered && id !in queued
    ensures id in Split(book, entered, queued, now) && Split(book, entered, queued, now)[id] == book[id]
    ensures Split(book, entered, queued, now)[id := WithState(book[id], Released, now)] == Split(book, entered + {id}, queued, now)
    ensures Split(book, entered, queued, now)[id := WithState(book[id], Cancelled, now)] == Split(book, entered, queued + {id}, now)
  {
    hide WithState;
    var first := AllMoved(book, entered, Released, now);
    MovedOneMore(first, queued, id, Cancelled, now);
    MovedOneMore(book, entered, id, Released, now);
    hide AllMoved;
    MoveElsewhere(first, queued, id, WithState(book[id], Released, now), Cancelled, now);
  }

  lemma MoveElsewhere(book: Book, ids: set<Id>, id: Id, r: Record, next: ReservationState, now: Time)
    requires id in book && id !in ids && r.reservation.id == id
    ensures AllMoved(book[id := r], ids, next, now) == AllMoved(book, ids, next, now)[id := r]
  {
    hide WithState;
  }

  lemma SplitEnd(book: Book, robot: Id, ids: seq<Id>, now: Time)
    requires ids == InIdOrder(HoldingIdsFor(book, robot))
    ensures ids[..|ids|] == ids
    ensures Seen(ids[..|ids|], EnteredIds(book, robot)) == EnteredIds(book, robot)
    ensures Seen(ids[..|ids|], QueuedIds(book, robot)) == QueuedIds(book, robot)
  {
    SeenAll(ids, HoldingIdsFor(book, robot), EnteredIds(book, robot));
    SeenAll(ids, HoldingIdsFor(book, robot), QueuedIds(book, robot));
  }

  lemma ReleaseAllIs(s: State, robot: Id, now: Time)
    ensures AfterReleaseAllFor(s, robot, now) ==
      State(Split(s.book, EnteredIds(s.book, robot), QueuedIds(s.book, robot), now), s.waits - {robot}, s.journal,
            CountReturned(s.metrics, |EnteredIds(s.book, robot)|, |QueuedIds(s.book, robot)|))
  {
  }

  lemma SweepBegin(book: Book, unused: set<Id>, late: set<Id>, now: Time)
    ensures Seen([], unused) == {} && Kept([], unused) == [] && Kept([], late) == []
    ensures AllMoved(book, {}, Expired, now) == book
  {
  }

  lemma SweepNext(book: Book, p: ReservationPolicy, ids: seq<Id>, i: nat, now: Time)
    requires ids == InIdOrder(HoldingIds(book)) && i < |ids|
    ensures var unused, late := UnusedIds(book, p, now), OverrunningIds(book, now);
            var partly := AllMoved(book, Seen(ids[..i], unused), Expired, now);
            var id := ids[i];
            && id in book && id in partly && partly[id] == book[id]
            && HoldsResource(book[id].reservation.state) && TransitionAllowed(book[id].reservation.state, Expired)
            && (id in late <==> book[id].reservation.state.Active? && IsPastWindow(book[id].reservation, now))
            && (id in unused <==> (!book[id].reservation.state.Active?
                                   && (IsPastWindow(book[id].reservation, now) || now >= book[id].decidedAt + p.grantTimeout)))
            && Kept(ids[..i + 1], unused) == Kept(ids[..i], unused) + (if id in unused then [id] else [])
            && Kept(ids[..i + 1], late) == Kept(ids[..i], late) + (if id in late then [id] else [])
            && |Seen(ids[..i + 1], unused)| == |Seen(ids[..i], unused)| + (if id in unused then 1 else 0)
            && AllMoved(book, Seen(ids[..i + 1], unused), Expired, now) ==
                 if id in unused then partly[id := WithState(book[id], Expired, now)] else partly
  {
    var unused, late := UnusedIds(book, p, now), OverrunningIds(book, now);
    hide *;
    assert ids[i] in ids;
    SweepTest(book, p, ids[i], now);
    SeenNext(ids, i, unused);
    SeenNext(ids, i, late);
    MovedOneMore(book, Seen(ids[..i], unused), ids[i], Expired, now);
  }

  lemma SweepTest(book: Book, p: ReservationPolicy, id: Id, now: Time)
    ensures id in HoldingIds(book) ==>
      && id in book && HoldsResource(book[id].reservation.state) && TransitionAllowed(book[id].reservation.state, Expired)
      && (id in OverrunningIds(book, now) <==> book[id].reservation.state.Active? && IsPastWindow(book[id].reservation, now))
      && (id in UnusedIds(book, p, now) <==> (!book[id].reservation.state.Active?
                                              && (IsPastWindow(book[id].reservation, now) || now >= book[id].decidedAt + p.grantTimeout)))
  {
    hide IsPastWindow;
  }

  lemma SweepEnd(book: Book, p: ReservationPolicy, ids: seq<Id>, now: Time)
    requires ids == InIdOrder(HoldingIds(book))
    ensures Seen(ids[..|ids|], UnusedIds(book, p, now)) == UnusedIds(book, p, now)
    ensures Kept(ids[..|ids|], UnusedIds(book, p, now)) == InIdOrder(UnusedIds(book, p, now))
    ensures Kept(ids[..|ids|], OverrunningIds(book, now)) == InIdOrder(OverrunningIds(book, now))
  {
    SeenAll(ids, HoldingIds(book), UnusedIds(book, p, now));
    SeenAll(ids, HoldingIds(book), OverrunningIds(book, now));
  }

  lemma SweepIs(p: ReservationPolicy, s: State, now: Time)
    ensures AfterSweep(p, s, now) ==
      s.(book := AllMoved(s.book, UnusedIds(s.book, p, now), Expired, now),
         metrics := CountExpired(s.metrics, |UnusedIds(s.book, p, now)|))
  {
  }
}
