/** Conservation: the counters account for every claim and every request of a run. */
module Accounts {
  import opened Core
  import opened Ordering
  import opened Graph
  import opened Claims
  import opened Admission
  import opened Policy
  import opened Protocol
  import opened Safety

  /** Claims outstanding by the counters: granted and not yet ended. */
  function Outstanding(m: Metrics): int {
    m.granted - m.released - m.expired - m.cancelled
  }

  function Answered(m: Metrics): nat {
    m.granted + m.waited + m.rejected + m.replayed
  }

  function Holding(book: Book): nat {
    |HoldingIds(book)|
  }

  /** Claims held less claims outstanding: what only `recover` changes. */
  function Surplus(s: State): int {
    Holding(s.book) - Outstanding(s.metrics)
  }

  lemma HoldingRewritten(book: Book, id: Id, r: Record)
    requires id in book && r.reservation.id == id && HoldsResource(book[id].reservation.state)
    ensures Holding(book[id := r]) == Holding(book) - if HoldsResource(r.reservation.state) then 0 else 1
  {
    var after := book[id := r];
    if HoldsResource(r.reservation.state) {
      assert HoldingIds(after) == HoldingIds(book);
    } else {
      assert HoldingIds(after) == HoldingIds(book) - {id};
    }
  }

  lemma HoldingMoved(book: Book, ids: set<Id>, next: ReservationState, now: Time)
    requires ids <= HoldingIds(book) && Terminal(next)
    ensures Holding(AllMoved(book, ids, next, now)) == Holding(book) - |ids|
  {
    hide WithState, AllMoved;
    MovedState(book, ids, next, now);
    assert HoldingIds(AllMoved(book, ids, next, now)) == HoldingIds(book) - ids;
  }

  lemma MovedState(book: Book, ids: set<Id>, next: ReservationState, now: Time)
    ensures forall id :: id in book ==>
      AllMoved(book, ids, next, now)[id].reservation.state == if id in ids then next else book[id].reservation.state
  {
  }

  lemma RequestBalances(d: MapData, p: ReservationPolicy, s: State, q: Request, now: Time)
    ensures Surplus(AfterRequest(d, p, s, q, now)) == Surplus(s)
    ensures Answered(AfterRequest(d, p, s, q, now).metrics) == Answered(s.metrics) + 1
  {
    hide Decide, Admits, Log, NoteWait, EffectiveWindow, HoldingIds;
    GrantedExactlyWhen(d, p, s, q, now);
    if NewGrant(d, p, s, q, now) {
      CountInserted(s.book, GrantedRecord(p, q, EffectiveWindow(q.requestedStart, q.estimatedDuration, p).value,
                                            Decide(d, p, s, q, now).effectivePriority, now));
    }
  }

  lemma {:induction false} RequestsBalance(d: MapData, p: ReservationPolicy, s: State, ordered: seq<Request>, now: Time)
    ensures Surplus(AfterRequests(d, p, s, ordered, now)) == Surplus(s)
    ensures Answered(AfterRequests(d, p, s, ordered, now).metrics) == Answered(s.metrics) + |ordered|
  {
    hide AfterRequest, Surplus, Answered;
    if ordered != [] {
      var before := ordered[..|ordered| - 1];
      RequestsBalance(d, p, s, before, now);
      RequestBalances(d, p, AfterRequests(d, p, s, before, now), ordered[|ordered| - 1], now);
    }
  }

  lemma OneMoveBalances(s: State, id: Id, now: Time)
    ensures Surplus(AfterActivate(s, id, now)) == Surplus(s)
    ensures Surplus(AfterRelease(s, id, now)) == Surplus(s)
    ensures Surplus(AfterCancel(s, id, now)) == Surplus(s)
    ensures Surplus(AfterExpire(s, id, now)) == Surplus(s)
    ensures Surplus(AfterCommit(s, id)) == Surplus(s)
  {
    hide HoldingIds;
    if id in s.book && !Terminal(s.book[id].reservation.state) {
      HoldingRewritten(s.book, id, WithState(s.book[id], Active, now));
      HoldingRewritten(s.book, id, WithState(s.book[id], Released, now));
      HoldingRewritten(s.book, id, WithState(s.book[id], Cancelled, now));
      HoldingRewritten(s.book, id, WithState(s.book[id], Expired, now));
      HoldingRewritten(s.book, id, s.book[id].(committed := true));
    }
  }

  lemma ReleaseAllBalances(s: State, robot: Id, now: Time)
    ensures Surplus(AfterReleaseAllFor(s, robot, now)) == Surplus(s)
  {
    var entered, queued := EnteredIds(s.book, robot), QueuedIds(s.book, robot);
    HoldingMoved(s.book, entered, Released, now);
    var released := AllMoved(s.book, entered, Released, now);
    assert queued <= HoldingIds(released);
    HoldingMoved(released, queued, Cancelled, now);
  }

  lemma SweepBalances(p: ReservationPolicy, s: State, now: Time)
    ensures Surplus(AfterSweep(p, s, now)) == Surplus(s)
  {
    HoldingMoved(s.book, UnusedIds(s.book, p, now), Expired, now);
  }

  lemma ExtendBalances(d: MapData, s: State, id: Id, newEnd: Time, now: Time)
    ensures Surplus(AfterExtend(d, s, id, newEnd, now)) == Surplus(s)
  {
    hide Admits, CapacityOf, HoldingIds;
    match ExtensionCase(d, s.book, id, newEnd)
    case Refused(_) =>
    case RoomAsIs => HoldingRewritten(s.book, id, WithEnd(s.book[id], newEnd));
    case RoomAfterRevoking =>
      var displaced := Displaced(s.book, id, newEnd);
      DisplacedHold(s.book, id, newEnd);
      HoldingMoved(s.book, displaced, Cancelled, now);
      var cleared := AllMoved(s.book, displaced, Cancelled, now);
      assert cleared[id] == s.book[id];
      HoldingRewritten(cleared, id, WithEnd(cleared[id], newEnd));
  }

  lemma DisplacedHold(book: Book, id: Id, newEnd: Time)
    requires id in book && book[id].reservation.window.end < newEnd
    ensures Displaced(book, id, newEnd) <= HoldingIds(book)
    ensures id !in Displaced(book, id, newEnd)
  {
  }

  /** How many live records a recovery lets in, those it expires at once included. */
  ghost function LiveRecovered(d: MapData, s: State, ordered: seq<Record>, now: Time): nat {
    if ordered == [] then 0
    else
      var before, last := ordered[..|ordered| - 1], ordered[|ordered| - 1];
      LiveRecovered(d, s, before, now)
      + if !Terminal(last.reservation.state) && !RecoveryCase(d, AfterRecover(d, s, before, now).book, last, now).Reject? then 1 else 0
  }

  lemma RecoverOneBalances(d: MapData, s: State, r: Record, now: Time)
    ensures Surplus(AfterRecoverOne(d, s, r, now)) == Surplus(s)
      + if !Terminal(r.reservation.state) && !RecoveryCase(d, s.book, r, now).Reject? then 1 else 0
  {
    hide Admits, HoldingIds;
    match RecoveryCase(d, s.book, r, now)
    case Reject =>
    case Restore => CountInserted(s.book, r);
    case RestoreAndExpire => CountInserted(s.book, WithState(r, Expired, now));
  }

  lemma {:induction false} RecoverBalances(d: MapData, s: State, ordered: seq<Record>, now: Time)
    ensures Surplus(AfterRecover(d, s, ordered, now)) == Surplus(s) + LiveRecovered(d, s, ordered, now)
    ensures Answered(AfterRecover(d, s, ordered, now).metrics) == Answered(s.metrics)
  {
    hide Surplus, RecoveryCase;
    if ordered != [] {
      var before := ordered[..|ordered| - 1];
      RecoverBalances(d, s, before, now);
      RecoverOneBalances(d, AfterRecover(d, s, before, now), ordered[|ordered| - 1], now);
    }
  }

  /** A call that let `live` unfinished records in. */
  ghost predicate CountedStep(d: MapData, p: ReservationPolicy, s: State, c: Call, after: State, live: nat) {
    match c
    case Recover(records, now) =>
      exists ordered :: IsSortOf(ordered, records, ClaimedBefore)
                        && after == AfterRecover(d, s, ordered, now) && live == LiveRecovered(d, s, ordered, now)
    case _ => Step(d, p, s, c, after) && live == 0
  }

  function Asked(c: Call): nat {
    match c
    case RequestOne(_, _) => 1
    case RequestMany(qs, _) => |qs|
    case _ => 0
  }

  lemma SortKeepsLength<T(!new)>(r: seq<T>, s: seq<T>, less: (T, T) -> bool)
    requires IsSortOf(r, s, less)
    ensures |r| == |s|
  {
    assert |multiset(r)| == |multiset(s)|;
  }

  lemma CountedStepBalances(d: MapData, p: ReservationPolicy, s: State, c: Call, after: State, live: nat)
    requires CountedStep(d, p, s, c, after, live)
    ensures Surplus(after) == Surplus(s) + live
    ensures Answered(after.metrics) == Answered(s.metrics) + Asked(c)
  {
    hide AfterRequest, AfterRequests, AfterRecover, Surplus, Admits, CapacityOf, AllMoved, Displaced, UnusedIds,
         EnteredIds, QueuedIds, Sorted, MoveError;
    match c
    case RequestOne(q, now) => RequestBalances(d, p, s, q, now);
    case RequestMany(qs, now) =>
      var ordered :| IsSortOf(ordered, qs, Arbitration(s.waits, p, now)) && after == AfterRequests(d, p, s, ordered, now);
      RequestsBalance(d, p, s, ordered, now);
      SortKeepsLength(ordered, qs, Arbitration(s.waits, p, now));
    case Recover(records, now) =>
      var ordered :| IsSortOf(ordered, records, ClaimedBefore)
                     && after == AfterRecover(d, s, ordered, now) && live == LiveRecovered(d, s, ordered, now);
      RecoverBalances(d, s, ordered, now);
    case Extend(id, newEnd, now) => ExtendBalances(d, s, id, newEnd, now);
    case ReleaseAllFor(robot, now) => ReleaseAllBalances(s, robot, now);
    case Sweep(now) => SweepBalances(p, s, now);
    case Activate(id, now) => OneMoveBalances(s, id, now);
    case Release(id, now) => OneMoveBalances(s, id, now);
    case Cancel(id, now) => OneMoveBalances(s, id, now);
    case Expire(id, now) => OneMoveBalances(s, id, now);
    case Commit(id) => OneMoveBalances(s, id, 0);
  }

  /** Counting loses no run: every step is a counted step for some count. */
  lemma EveryStepCounts(d: MapData, p: ReservationPolicy, s: State, c: Call, after: State)
    ensures Step(d, p, s, c, after) <==> exists live: nat :: CountedStep(d, p, s, c, after, live)
  {
    hide AfterRequest, AfterRequests, AfterRecover, AfterExtend;
    if Step(d, p, s, c, after) {
      if c.Recover? {
        var ordered :| IsSortOf(ordered, c.records, ClaimedBefore) && after == AfterRecover(d, s, ordered, c.now);
        assert CountedStep(d, p, s, c, after, LiveRecovered(d, s, ordered, c.now));
      } else {
        assert CountedStep(d, p, s, c, after, 0);
      }
    }
  }

  function Total(counts: seq<nat>): nat {
    if counts == [] then 0 else Total(counts[..|counts| - 1]) + counts[|counts| - 1]
  }

  function TotalAsked(calls: seq<Call>): nat {
    if calls == [] then 0 else TotalAsked(calls[..|calls| - 1]) + Asked(calls[|calls| - 1])
  }

  ghost predicate CountedRun(d: MapData, p: ReservationPolicy, states: seq<State>, calls: seq<Call>, live: seq<nat>) {
    && |states| == |calls| + 1 && |live| == |calls|
    && forall i :: 0 <= i < |calls| ==> CountedStep(d, p, states[i], calls[i], states[i + 1], live[i])
  }

  /** Conservation. From an empty start the claims held are always those granted, plus the live ones
      recovery let in, less those released, expired or cancelled; and every request made was
      granted, told to wait, rejected or answered from an existing claim. */
  lemma {:induction false} RunsConserve(d: MapData, p: ReservationPolicy, states: seq<State>, calls: seq<Call>,
                                        live: seq<nat>, k: nat)
    requires CountedRun(d, p, states, calls, live) && states[0] == EMPTY && k <= |calls|
    ensures var s := states[k];
            && Holding(s.book) == s.metrics.granted + Total(live[..k])
                                  - s.metrics.released - s.metrics.expired - s.metrics.cancelled
            && s.metrics.granted + s.metrics.waited + s.metrics.rejected + s.metrics.replayed == TotalAsked(calls[..k])
  {
    hide CountedStep, HoldingIds, Asked, Total, TotalAsked;
    TotalNext(live, calls, k);
    if k > 0 {
      RunsConserve(d, p, states, calls, live, k - 1);
      CountedStepBalances(d, p, states[k - 1], calls[k - 1], states[k], live[k - 1]);
    } else {
      NothingHeld();
    }
  }

  lemma NothingHeld()
    ensures Holding(map[]) == 0
  {
    assert HoldingIds(map[]) == {};
  }

  lemma TotalNext(live: seq<nat>, calls: seq<Call>, k: nat)
    requires k <= |live| == |calls|
    ensures k == 0 ==> Total(live[..k]) == 0 && TotalAsked(calls[..k]) == 0
    ensures k > 0 ==> Total(live[..k]) == Total(live[..k - 1]) + live[k - 1]
    ensures k > 0 ==> TotalAsked(calls[..k]) == TotalAsked(calls[..k - 1]) + Asked(calls[k - 1])
  {
    hide Asked;
    if k > 0 {
      assert live[..k][..k - 1] == live[..k - 1] && calls[..k][..k - 1] == calls[..k - 1];
    }
  }
}

/** Arbitration: a set of requests is decided the same way however it was listed. */
module ArbitrationOrder {
  import opened Core
  import opened Ordering
  import opened Graph
  import opened Policy
  import opened Protocol

  /** What the comparator looks at: smaller comes first, position by position. */
  datatype Rank = Rank(priority: int, waited: int, task: int, robot: int, reservation: int)

  function RankOf(waits: map<Id, WaitEntry>, p: ReservationPolicy, now: Time, q: Request): Rank {
    var waited := WaitedFor(waits, q.robot, q.resource, now);
    Rank(-EffectivePriority(q.priority, waited, p), -waited,
         if q.task.None? then -1 else q.task.value, q.robot, q.reservation)
  }

  predicate RankLess(a: Rank, b: Rank) {
    if a.priority != b.priority then a.priority < b.priority
    else if a.waited != b.waited then a.waited < b.waited
    else if a.task != b.task then a.task < b.task
    else if a.robot != b.robot then a.robot < b.robot
    else a.reservation < b.reservation
  }

  lemma PrecedesByRank(waits: map<Id, WaitEntry>, p: ReservationPolicy, now: Time, a: Request, b: Request)
    ensures Precedes(waits, p, now, a, b) == RankLess(RankOf(waits, p, now, a), RankOf(waits, p, now, b))
  {
    hide WaitedFor, EffectivePriority;
  }

  lemma RankOrder()
    ensures StrictTotalOrder(RankLess)
  {
  }

  /** The comparator is a strict weak order, as the sort demands of it. */
  lemma ArbitrationIsOrder(waits: map<Id, WaitEntry>, p: ReservationPolicy, now: Time)
    ensures StrictWeakOrder(Arbitration(waits, p, now))
  {
    hide Precedes, RankOf, RankLess;
    RankOrder();
    var less := Arbitration(waits, p, now);
    forall a, b ensures less(a, b) == RankLess(RankOf(waits, p, now, a), RankOf(waits, p, now, b)) {
      PrecedesByRank(waits, p, now, a, b);
    }
    WeakByRank(less, q => RankOf(waits, p, now, q));
  }

  lemma WeakByRank<T(!new)>(less: (T, T) -> bool, rank: T -> Rank)
    requires forall a, b :: less(a, b) == RankLess(rank(a), rank(b))
    ensures StrictWeakOrder(less)
  {
    hide RankLess;
    RankOrder();
    forall a, b, c | less(a, c) ensures less(a, b) || less(b, c) {
      LessIsTotal(RankLess, rank(a), rank(b));
      if rank(a) != rank(b) && RankLess(rank(b), rank(a)) {
        LessIsTransitive(RankLess, rank(b), rank(a), rank(c));
      }
    }
    forall a, b, c | less(a, b) && less(b, c) ensures less(a, c) {
      LessIsTransitive(RankLess, rank(a), rank(b), rank(c));
    }
    forall a ensures !less(a, a) {
      LessIsTotal(RankLess, rank(a), rank(a));
    }
  }

  predicate DistinctIds(qs: seq<Request>) {
    forall a, b :: a in qs && b in qs && a != b ==> a.reservation != b.reservation
  }

  lemma DistinctIdsSeparate(waits: map<Id, WaitEntry>, p: ReservationPolicy, now: Time, qs: seq<Request>)
    requires DistinctIds(qs)
    ensures Separates(qs, Arbitration(waits, p, now))
  {
    hide WaitedFor, EffectivePriority;
  }

  /** Arbitration is deterministic. When different requests carry different reservation ids, any two
      listings of the same requests give the same decisions and leave the same records, waits,
      journal and counters. */
  lemma ArbitrationIsDeterministic(d: MapData, p: ReservationPolicy, s: State, now: Time,
                                   listed: seq<Request>, relisted: seq<Request>, a: State, b: State)
    requires multiset(listed) == multiset(relisted) && DistinctIds(listed)
    requires Step(d, p, s, RequestMany(listed, now), a) && Step(d, p, s, RequestMany(relisted, now), b)
    ensures a == b
    ensures forall x, y :: IsSortOf(x, listed, Arbitration(s.waits, p, now)) && IsSortOf(y, relisted, Arbitration(s.waits, p, now))
              ==> Decisions(d, p, s, x, now) == Decisions(d, p, s, y, now)
  {
    var less := Arbitration(s.waits, p, now);
    forall x, y | IsSortOf(x, listed, less) && IsSortOf(y, relisted, less) ensures x == y {
      SameIds(listed, x);
      DistinctIdsSeparate(s.waits, p, now, x);
      SortIsUnique(x, y, less);
    }
  }

  lemma SameIds(qs: seq<Request>, x: seq<Request>)
    requires DistinctIds(qs) && multiset(x) == multiset(qs)
    ensures DistinctIds(x)
  {
    forall a, b | a in x && b in x && a != b ensures a.reservation != b.reservation {
      SameMembers(x, qs, a);
      SameMembers(x, qs, b);
    }
  }
}

/** Recovery: a consistent snapshot loses nothing, an inconsistent one endangers nobody. */
module Recoveries {
  import opened Core
  import opened Ordering
  import opened Graph
  import opened Claims
  import opened Admission
  import opened Policy
  import opened Protocol

  predicate Stale(r: Record, now: Time) {
    r.reservation.state.Pending? && IsPastWindow(r.reservation, now)
  }

  /** A record as recovery leaves it: a pending claim past its window is expired, nothing else changes. */
  function Refreshed(r: Record, now: Time): Record {
    if Stale(r, now) then WithState(r, Expired, now) else r
  }

  /** The snapshot restricted to `ids`, as recovery leaves it. */
  function RefreshedPart(snapshot: Book, ids: set<Id>, now: Time): Book {
    map id | id in snapshot && id in ids :: Refreshed(snapshot[id], now)
  }

  function RecordIds(records: seq<Record>): seq<Id> {
    seq(|records|, i requires 0 <= i < |records| => records[i].reservation.id)
  }

  /** `records` lists every record of the snapshot once. */
  predicate Lists(records: seq<Record>, snapshot: Book) {
    && (forall r :: r in records ==> r.reservation.id in snapshot && snapshot[r.reservation.id] == r)
    && (forall id :: id in snapshot ==> snapshot[id] in records)
    && (forall r :: r in records ==> multiset(records)[r] == 1)
  }

  lemma PartShrinks(snapshot: Book, ids: set<Id>, r: Record, now: Time)
    requires r.reservation.id in snapshot && snapshot[r.reservation.id] == r
    ensures Shrinks(snapshot, RefreshedPart(snapshot, ids, now)[r.reservation.id := r])
  {
  }

  lemma NextIsAccepted(d: MapData, snapshot: Book, ids: set<Id>, r: Record, now: Time)
    requires Safe(d, snapshot) && r.reservation.id in snapshot && snapshot[r.reservation.id] == r && r.reservation.id !in ids
    ensures var part := RefreshedPart(snapshot, ids, now);
            && RecoveryCase(d, part, r, now) == (if Stale(r, now) then RestoreAndExpire else Restore)
            && part[r.reservation.id := Refreshed(r, now)] == RefreshedPart(snapshot, ids + {r.reservation.id}, now)
  {
    var part := RefreshedPart(snapshot, ids, now);
    PartShrinks(snapshot, ids, r, now);
    PartIsSafe(d, snapshot, ids, now);
    PartGrows(snapshot, ids, r, now);
    assert r.reservation.id !in part;
    hide Safe, Admits, Shrinks, RefreshedPart;
    ShrinkingIsSafe(d, snapshot, part[r.reservation.id := r]);
    if !Terminal(r.reservation.state) {
      InsertGrows(part, r);
      AdmissionIsExact(d, part, r, r.reservation.window);
    }
  }

  lemma PartGrows(snapshot: Book, ids: set<Id>, r: Record, now: Time)
    requires r.reservation.id in snapshot && snapshot[r.reservation.id] == r
    ensures RefreshedPart(snapshot, ids, now)[r.reservation.id := Refreshed(r, now)] == RefreshedPart(snapshot, ids + {r.reservation.id}, now)
  {
    hide Refreshed;
  }

  lemma PartIsSafe(d: MapData, snapshot: Book, ids: set<Id>, now: Time)
    requires Safe(d, snapshot)
    ensures Safe(d, RefreshedPart(snapshot, ids, now))
  {
    assert Shrinks(snapshot, RefreshedPart(snapshot, ids, now));
    ShrinkingIsSafe(d, snapshot, RefreshedPart(snapshot, ids, now));
  }

  function IdSet(records: seq<Record>): set<Id> {
    set r | r in records :: r.reservation.id
  }

  lemma {:induction false} PrefixIsRecovered(d: MapData, snapshot: Book, ordered: seq<Record>, m: Metrics, now: Time,
      k: nat)
    requires Safe(d, snapshot) && Lists(ordered, snapshot) && k <= |ordered|
    ensures var s := AfterRecover(d, State(map[], map[], [], m), ordered[..k], now);
            && s.book == RefreshedPart(snapshot, IdSet(ordered[..k]), now)
            && s.waits == map[] && s.journal == []
    ensures Recovery(d, State(map[], map[], [], m), ordered[..k], now).rejected == []
  {
    var start := State(map[], map[], [], m);
    if k > 0 {
      PrefixIsRecovered(d, snapshot, ordered, m, now, k - 1);
      var r, done := ordered[k - 1], ordered[..k - 1];
      assert ordered[..k][..k - 1] == done;
      NextIsNew(snapshot, ordered, k - 1);
      NextIsAccepted(d, snapshot, IdSet(done), r, now);
      hide Safe, RecoveryCase, RefreshedPart, Lists, IdSet;
      AcceptedIsRecovered(d, AfterRecover(d, start, done, now), r, now);
    }
  }

  lemma NextIsNew(snapshot: Book, ordered: seq<Record>, k: nat)
    requires Lists(ordered, snapshot) && k < |ordered|
    ensures var r := ordered[k];
            && r.reservation.id in snapshot && snapshot[r.reservation.id] == r
            && r.reservation.id !in IdSet(ordered[..k])
            && IdSet(ordered[..k + 1]) == IdSet(ordered[..k]) + {r.reservation.id}
  {
    var r, done := ordered[k], ordered[..k];
    assert r in ordered;
    NoRepeat(ordered, k);
    assert r.reservation.id !in IdSet(done) by {
      assert forall q :: q in done ==> q in ordered;
    }
    assert ordered[..k + 1] == done + [r];
  }

  lemma AcceptedIsRecovered(d: MapData, s: State, r: Record, now: Time)
    requires RecoveryCase(d, s.book, r, now) == (if Stale(r, now) then RestoreAndExpire else Restore)
    ensures var after := AfterRecoverOne(d, s, r, now);
            after.book == s.book[r.reservation.id := Refreshed(r, now)] && after.waits == s.waits && after.journal == s.journal
    ensures forall report :: Reported(d, s.book, report, r, now).rejected == report.rejected
  {
    hide RecoveryCase;
  }

  /** The recovery round trip. Whatever order its records arrive and are sorted in, recovering a
      safe snapshot into an empty table rejects nothing and rebuilds it exactly, save that pending
      claims past their window come back expired. */
  lemma RecoveryRoundTrip(d: MapData, p: ReservationPolicy, snapshot: Book, records: seq<Record>, now: Time,
                          after: State)
    requires Safe(d, snapshot) && Lists(records, snapshot)
    requires Step(d, p, EMPTY, Recover(records, now), after)
    ensures after.book.Keys == snapshot.Keys
    ensures forall id :: id in snapshot ==> after.book[id] == Refreshed(snapshot[id], now)
    ensures forall ordered :: IsSortOf(ordered, records, ClaimedBefore) ==> Recovery(d, EMPTY, ordered, now).rejected == []
  {
    hide Safe, AfterRecover, Sorted, Recovery;
    forall ordered | IsSortOf(ordered, records, ClaimedBefore)
      ensures AfterRecover(d, EMPTY, ordered, now).book == RefreshedPart(snapshot, snapshot.Keys, now)
      ensures Recovery(d, EMPTY, ordered, now).rejected == []
    {
      SortedLists(ordered, records, snapshot);
      PrefixIsRecovered(d, snapshot, ordered, NO_METRICS, now, |ordered|);
      assert ordered[..|ordered|] == ordered;
      ListsAll(ordered, snapshot);
    }
  }

  lemma ListsAll(ordered: seq<Record>, snapshot: Book)
    requires Lists(ordered, snapshot)
    ensures IdSet(ordered) == snapshot.Keys
  {
    forall id | id in snapshot ensures id in IdSet(ordered) {
      assert snapshot[id] in ordered;
    }
  }

  lemma NoRepeat<T>(s: seq<T>, k: nat)
    requires k < |s| && multiset(s)[s[k]] == 1
    ensures s[k] !in s[..k]
  {
    assert s == s[..k] + [s[k]] + s[k + 1..];
    assert multiset(s) == multiset(s[..k]) + multiset{s[k]} + multiset(s[k + 1..]);
  }

  lemma SortedLists(ordered: seq<Record>, records: seq<Record>, snapshot: Book)
    requires Lists(records, snapshot) && multiset(ordered) == multiset(records)
    ensures Lists(ordered, snapshot)
  {
    forall r | r in ordered ensures r in records { SameMembers(ordered, records, r); }
    forall r | r in records ensures r in ordered { SameMembers(records, ordered, r); }
  }

  function Listed(report: RecoveryReport): multiset<Id> {
    multiset(report.restored) + multiset(report.expired) + multiset(report.rejected)
  }

  lemma ReportedOnce(d: MapData, book: Book, report: RecoveryReport, r: Record, now: Time)
    ensures Listed(Reported(d, book, report, r, now)) == Listed(report) + multiset{r.reservation.id}
  {
    hide RecoveryCase;
  }

  /** For any records at all: every one is reported, in exactly one list. */
  lemma {:induction false} ReportPartitionsInput(d: MapData, s: State, ordered: seq<Record>, now: Time)
    ensures var report := Recovery(d, s, ordered, now);
            multiset(report.restored) + multiset(report.expired) + multiset(report.rejected) == multiset(RecordIds(ordered))
  {
    hide Reported, AfterRecover;
    if ordered != [] {
      var before, last := ordered[..|ordered| - 1], ordered[|ordered| - 1];
      ReportPartitionsInput(d, s, before, now);
      ReportedOnce(d, AfterRecover(d, s, before, now).book, Recovery(d, s, before, now), last, now);
      assert RecordIds(ordered) == RecordIds(before) + [last.reservation.id];
    }
  }

  lemma ClaimedBeforeIsOrder()
    ensures StrictWeakOrder(ClaimedBefore)
  {
  }
}
