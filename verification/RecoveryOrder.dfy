/** Which of several inconsistent records a recovery believes: the claim made earliest. */
module RecoveryOrder {
  import opened Core
  import opened Ordering
  import opened Graph
  import opened Claims
  import opened Admission
  import opened Policy
  import opened Protocol
  import opened Safety
  import opened Recoveries

  /** The claim starts earlier; of claims starting together, the smaller id. */
  predicate StartsFirst(a: Record, b: Record) {
    || a.reservation.window.start < b.reservation.window.start
    || (a.reservation.window.start == b.reservation.window.start && a.reservation.id < b.reservation.id)
  }

  /** The records that were there before the recovery, and those it let in that start before `r`. */
  ghost function KnownBefore(before: Book, after: Book, r: Record): Book {
    map id | id in after && (id in before || StartsFirst(after[id], r)) :: after[id]
  }

  /** `r` is the only record of its id: none in the table, and no other in the input. */
  ghost predicate Alone(book: Book, records: seq<Record>, r: Record) {
    && r in records && r.reservation.id !in book && multiset(records)[r] == 1
    && forall x :: x in records && x.reservation.id == r.reservation.id ==> x == r
  }

  // ------------------------------------------------------------- where records come from

  /** Restored from one of these, perhaps expired on the way. */
  ghost predicate ComesFrom(r: Record, records: seq<Record>) {
    exists x :: x in records && (r == x || r == WithState(x, Expired, r.lastTransitionAt))
  }

  ghost predicate OnlyRestores(before: Book, after: Book, records: seq<Record>) {
    && (forall id :: id in before ==> id in after && after[id] == before[id])
    && (forall id :: id in after ==> id in before || ComesFrom(after[id], records))
  }

  lemma ComesFromMore(r: Record, some: seq<Record>, more: seq<Record>)
    requires ComesFrom(r, some) && forall x :: x in some ==> x in more
    ensures ComesFrom(r, more)
  {
  }

  lemma RecoverOneRestores(d: MapData, s: State, r: Record, now: Time)
    ensures OnlyRestores(s.book, AfterRecoverOne(d, s, r, now).book, [r])
  {
    hide RecoveryCase;
    assert RecoveryCase(d, s.book, r, now) != Reject ==> r.reservation.id !in s.book by { KnownIdIsRejected(d, s.book, r, now); }
    assert r in [r];
  }

  lemma KnownIdIsRejected(d: MapData, book: Book, r: Record, now: Time)
    ensures r.reservation.id in book ==> RecoveryCase(d, book, r, now) == Reject
  {
    hide Admits;
  }

  lemma {:induction false} RecoverRestores(d: MapData, s: State, ordered: seq<Record>, now: Time)
    ensures OnlyRestores(s.book, AfterRecover(d, s, ordered, now).book, ordered)
  {
    hide AfterRecoverOne, ComesFrom;
    if ordered != [] {
      var before, last := ordered[..|ordered| - 1], ordered[|ordered| - 1];
      RecoverRestores(d, s, before, now);
      var middle := AfterRecover(d, s, before, now);
      RecoverOneRestores(d, middle, last, now);
      var after := AfterRecoverOne(d, middle, last, now).book;
      forall id | id in after && id !in s.book ensures ComesFrom(after[id], ordered) {
        if id in middle.book {
          ComesFromMore(after[id], before, ordered);
        } else {
          ComesFromMore(after[id], [last], ordered);
        }
      }
    }
  }

  lemma {:induction false} RecoveredInTurn(d: MapData, s: State, earlier: seq<Record>, later: seq<Record>, now: Time)
    ensures AfterRecover(d, s, earlier + later, now) == AfterRecover(d, AfterRecover(d, s, earlier, now), later, now)
    decreases |later|
  {
    hide AfterRecoverOne;
    if later == [] {
      assert earlier + later == earlier;
    } else {
      var all, front := earlier + later, later[..|later| - 1];
      assert all[..|all| - 1] == earlier + front;
      RecoveredInTurn(d, s, earlier, front, now);
    }
  }

  // ------------------------------------------------------------- the order

  /** No record comes after one that starts after it. */
  ghost predicate EarliestFirst(ordered: seq<Record>) {
    forall i, j :: 0 <= i < j < |ordered| ==> !StartsFirst(ordered[j], ordered[i])
  }

  lemma SortedIsEarliestFirst(ordered: seq<Record>)
    requires Sorted(ordered, ClaimedBefore)
    ensures EarliestFirst(ordered)
  {
  }

  /** The table when `r`'s turn comes. */
  lemma TableAtItsTurn(d: MapData, s: State, ordered: seq<Record>, now: Time, k: nat)
    requires EarliestFirst(ordered) && k < |ordered| && Alone(s.book, ordered, ordered[k])
    ensures var r, middle := ordered[k], AfterRecover(d, s, ordered[..k], now);
            && AfterRecover(d, s, ordered, now) == AfterRecover(d, AfterRecoverOne(d, middle, r, now), ordered[k + 1..], now)
            && KnownBefore(s.book, AfterRecover(d, s, ordered, now).book, r) == middle.book
            && r.reservation.id !in middle.book
            && (forall x :: x in ordered[k + 1..] ==> x.reservation.id != r.reservation.id)
  {
    hide AfterRecover, AfterRecoverOne, ComesFrom;
    var r, earlier, later := ordered[k], ordered[..k], ordered[k + 1..];
    var middle := AfterRecover(d, s, earlier, now);
    var next := AfterRecoverOne(d, middle, r, now);
    var last := AfterRecover(d, s, ordered, now);
    TurnComes(d, s, ordered, k, now);
    OthersAreOther(s.book, ordered, k);
    RecoverRestores(d, s, earlier, now);
    RecoverOneRestores(d, middle, r, now);
    RecoverRestores(d, next, later, now);
    forall id | id in middle.book && id !in s.book ensures StartsFirst(middle.book[id], r) && id != r.reservation.id {
      EarlierOrigin(middle.book[id], earlier, r);
    }
    forall id | id in last.book && id !in middle.book ensures !StartsFirst(last.book[id], r) {
      if id in next.book {
        LaterOrigin(last.book[id], [r], r);
      } else {
        LaterOrigin(last.book[id], later, r);
      }
    }
  }

  lemma TurnComes(d: MapData, s: State, ordered: seq<Record>, k: nat, now: Time)
    requires k < |ordered|
    ensures AfterRecover(d, s, ordered, now)
         == AfterRecover(d, AfterRecoverOne(d, AfterRecover(d, s, ordered[..k], now), ordered[k], now), ordered[k + 1..], now)
  {
    hide AfterRecoverOne;
    assert ordered == ordered[..k + 1] + ordered[k + 1..];
    assert ordered[..k + 1][..k] == ordered[..k];
    RecoveredInTurn(d, s, ordered[..k + 1], ordered[k + 1..], now);
  }

  lemma OthersAreOther(book: Book, ordered: seq<Record>, k: nat)
    requires EarliestFirst(ordered) && k < |ordered| && Alone(book, ordered, ordered[k])
    ensures forall x :: x in ordered[..k] ==> StartsFirst(x, ordered[k]) && x.reservation.id != ordered[k].reservation.id
    ensures forall x :: x in ordered[k + 1..] ==> !StartsFirst(x, ordered[k]) && x.reservation.id != ordered[k].reservation.id
  {
    var r := ordered[k];
    NoRepeat(ordered, k);
    assert ordered == ordered[..k] + [r] + ordered[k + 1..];
    assert multiset(ordered) == multiset(ordered[..k]) + multiset{r} + multiset(ordered[k + 1..]);
    assert r !in ordered[k + 1..];
    forall x | x in ordered[..k] ensures StartsFirst(x, r) && x.reservation.id != r.reservation.id {
      var i :| 0 <= i < k && ordered[..k][i] == x;
      assert ordered[i] == x && !StartsFirst(r, x);
    }
    forall x | x in ordered[k + 1..] ensures !StartsFirst(x, r) && x.reservation.id != r.reservation.id {
      var i :| 0 <= i < |ordered[k + 1..]| && ordered[k + 1..][i] == x;
      assert ordered[k + 1 + i] == x;
    }
  }

  lemma EarlierOrigin(x: Record, records: seq<Record>, r: Record)
    requires ComesFrom(x, records)
    requires forall y :: y in records ==> StartsFirst(y, r) && y.reservation.id != r.reservation.id
    ensures StartsFirst(x, r) && x.reservation.id != r.reservation.id
  {
  }

  lemma LaterOrigin(x: Record, records: seq<Record>, r: Record)
    requires ComesFrom(x, records) && forall y :: y in records ==> !StartsFirst(y, r)
    ensures !StartsFirst(x, r)
  {
  }

  /** A record nothing else shares an id with is let in exactly when it is history, or the check admits it to
      the table as it was before together with the accepted records that start first. It comes in as it was,
      save that a pending claim past its window comes in expired. */
  lemma RecoveredExactlyWhen(d: MapData, p: ReservationPolicy, s: State, records: seq<Record>, now: Time, after: State, r: Record)
    requires Step(d, p, s, Recover(records, now), after) && Alone(s.book, records, r)
    ensures var v := r.reservation;
            v.id in after.book <==>
              Terminal(v.state) || Admits(d, KnownBefore(s.book, after.book, r), v.resource, v.robot, v.window, r.usage)
    ensures r.reservation.id in after.book ==>
              after.book[r.reservation.id] ==
                if r.reservation.state == Pending && now >= r.reservation.window.end then WithState(r, Expired, now) else r
  {
    hide AfterRecover, AfterRecoverOne, Sorted, EarliestFirst, Admits, KnownBefore;
    var ordered :| IsSortOf(ordered, records, ClaimedBefore) && after == AfterRecover(d, s, ordered, now);
    SortedIsEarliestFirst(ordered);
    StaysAlone(s.book, records, ordered, r);
    var k :| 0 <= k < |ordered| && ordered[k] == r;
    TableAtItsTurn(d, s, ordered, now, k);
    var middle := AfterRecover(d, s, ordered[..k], now);
    LetInAtItsTurn(d, middle, r, now);
    KeepsWhatItDecided(d, AfterRecoverOne(d, middle, r, now), ordered[k + 1..], now, r.reservation.id);
  }

  lemma StaysAlone(book: Book, records: seq<Record>, ordered: seq<Record>, r: Record)
    requires Alone(book, records, r) && multiset(ordered) == multiset(records)
    ensures Alone(book, ordered, r)
  {
    SameMembers(records, ordered, r);
    forall x | x in ordered ensures x in records { SameMembers(ordered, records, x); }
  }

  lemma LetInAtItsTurn(d: MapData, s: State, r: Record, now: Time)
    requires r.reservation.id !in s.book
    ensures var v, after := r.reservation, AfterRecoverOne(d, s, r, now).book;
            && (v.id in after <==> Terminal(v.state) || Admits(d, s.book, v.resource, v.robot, v.window, r.usage))
            && (v.id in after ==>
                  after[v.id] == if v.state == Pending && now >= v.window.end then WithState(r, Expired, now) else r)
  {
    hide Admits;
  }

  lemma KeepsWhatItDecided(d: MapData, s: State, later: seq<Record>, now: Time, id: Id)
    requires forall x :: x in later ==> x.reservation.id != id
    ensures var after := AfterRecover(d, s, later, now).book;
            (id in after <==> id in s.book) && (id in s.book ==> after[id] == s.book[id])
  {
    RecoverRestores(d, s, later, now);
    hide AfterRecover;
  }

  // ------------------------------------------------------------- two claims that cannot both be true

  /** Two live claims by different robots over spans that overlap on a resource of capacity one, with nobody in
      `a`'s way in the table and no other claim on the resource in the input; `a` is not so old that it is
      expired at once. */
  ghost predicate Contradict(d: MapData, book: Book, records: seq<Record>, a: Record, b: Record, now: Time) {
    && Alone(book, records, a) && Alone(book, records, b)
    && ConflictsWith(a.reservation, b.reservation) && CapacityOf(d, a.reservation.resource) == 1
    && (a.reservation.state == Active || now < a.reservation.window.end)
    && (forall id :: id in book ==> !Contends(book[id], a.reservation.resource, a.reservation.robot, a.reservation.window))
    && (forall x :: x in records && x != a && x != b ==> x.reservation.resource != a.reservation.resource)
  }

  /** The earlier claim is restored and the later one rejected. */
  lemma EarlierClaimIsBelieved(d: MapData, p: ReservationPolicy, s: State, records: seq<Record>, now: Time, after: State,
                               a: Record, b: Record)
    requires Step(d, p, s, Recover(records, now), after)
    requires Contradict(d, s.book, records, a, b, now) && StartsFirst(a, b)
    ensures a.reservation.id in after.book && after.book[a.reservation.id] == a
    ensures b.reservation.id !in after.book
  {
    RecoveredExactlyWhen(d, p, s, records, now, after, a);
    RecoveredExactlyWhen(d, p, s, records, now, after, b);
    NobodyBefore(d, p, s, records, now, after, a, b);
    var known := KnownBefore(s.book, after.book, a);
    hide Step, Admits, CapacityOf, KnownBefore, Alone, Contends;
    var v := a.reservation;
    assert Admits(d, known, v.resource, v.robot, v.window, a.usage) by {
      UncontestedIsAdmitted(d, known, v.resource, v.robot, v.window, a.usage);
    }
    EarlierIsKnown(s.book, after.book, a, b);
    var u := b.reservation;
    ContestedIsNotAdmitted(d, KnownBefore(s.book, after.book, b), v.id, u.resource, u.robot, u.window, b.usage);
  }

  lemma EarlierIsKnown(before: Book, after: Book, a: Record, b: Record)
    requires a.reservation.id in after && after[a.reservation.id] == a && StartsFirst(a, b)
    ensures a.reservation.id in KnownBefore(before, after, b) && KnownBefore(before, after, b)[a.reservation.id] == a
    ensures ConflictsWith(a.reservation, b.reservation) ==> Contends(a, b.reservation.resource, b.reservation.robot, b.reservation.window)
  {
  }

  lemma NobodyBefore(d: MapData, p: ReservationPolicy, s: State, records: seq<Record>, now: Time, after: State,
                     a: Record, b: Record)
    requires Step(d, p, s, Recover(records, now), after)
    requires Contradict(d, s.book, records, a, b, now) && StartsFirst(a, b)
    ensures var known, v := KnownBefore(s.book, after.book, a), a.reservation;
            forall id :: id in known ==> !Contends(known[id], v.resource, v.robot, v.window)
  {
    var ordered :| IsSortOf(ordered, records, ClaimedBefore) && after == AfterRecover(d, s, ordered, now);
    RecoverRestores(d, s, ordered, now);
    forall x | x in ordered ensures x in records { SameMembers(ordered, records, x); }
    hide Step, AfterRecover, CapacityOf, Sorted, ComesFrom, Contends, Alone, StartsFirst;
    var known, v := KnownBefore(s.book, after.book, a), a.reservation;
    forall id | id in known && id !in s.book ensures !Contends(known[id], v.resource, v.robot, v.window) {
      ComesFromMore(known[id], ordered, records);
      StrangerDoesNotContend(known[id], records, a, b);
    }
  }

  lemma StrangerDoesNotContend(r: Record, records: seq<Record>, a: Record, b: Record)
    requires ComesFrom(r, records) && StartsFirst(r, a) && StartsFirst(a, b)
    requires forall x :: x in records && x != a && x != b ==> x.reservation.resource != a.reservation.resource
    ensures !Contends(r, a.reservation.resource, a.reservation.robot, a.reservation.window)
  {
    var x :| x in records && (r == x || r == WithState(x, Expired, r.lastTransitionAt));
    assert StartsFirst(x, a);
  }

  // ------------------------------------------------------------- the report

  /** The report says of each such record what became of it: restored as it was, expired, or not let in. */
  lemma {:induction false} ReportIsTrue(d: MapData, s: State, ordered: seq<Record>, now: Time, r: Record)
    requires Alone(s.book, ordered, r)
    ensures var report, book, id := Recovery(d, s, ordered, now), AfterRecover(d, s, ordered, now).book, r.reservation.id;
            && (id in report.rejected <==> id !in book)
            && (id in report.expired <==> id in book && r.reservation.state == Pending && now >= r.reservation.window.end)
            && (id in report.restored <==> id in book && !(r.reservation.state == Pending && now >= r.reservation.window.end))
  {
    hide AfterRecoverOne, Reported, Recovery, AfterRecover;
    var id := r.reservation.id;
    var before, last := ordered[..|ordered| - 1], ordered[|ordered| - 1];
    assert ordered == before + [last];
    RecoveryNext(d, s, ordered, now);
    var middle, sofar := AfterRecover(d, s, before, now), Recovery(d, s, before, now);
    if last == r {
      NoRepeat(ordered, |before|);
      NotReportedYet(d, s, before, now, id);
      RecoverRestores(d, s, before, now);
      assert id !in middle.book;
      LetInAtItsTurn(d, middle, r, now);
      ReportsTheLast(d, middle.book, sofar, r, now);
    } else {
      assert Alone(s.book, before, r);
      ReportIsTrue(d, s, before, now, r);
      ReportsAnother(d, middle, sofar, last, now, id);
    }
  }

  lemma RecoveryNext(d: MapData, s: State, ordered: seq<Record>, now: Time)
    requires ordered != []
    ensures var before, last := ordered[..|ordered| - 1], ordered[|ordered| - 1];
            && AfterRecover(d, s, ordered, now) == AfterRecoverOne(d, AfterRecover(d, s, before, now), last, now)
            && Recovery(d, s, ordered, now)
               == Reported(d, AfterRecover(d, s, before, now).book, Recovery(d, s, before, now), last, now)
  {
    hide AfterRecoverOne, Reported;
  }

  lemma NotReportedYet(d: MapData, s: State, before: seq<Record>, now: Time, id: Id)
    requires forall x :: x in before ==> x.reservation.id != id
    ensures var report := Recovery(d, s, before, now);
            id !in report.restored && id !in report.expired && id !in report.rejected
  {
    ReportPartitionsInput(d, s, before, now);
    hide Recovery;
    var report := Recovery(d, s, before, now);
    assert id !in multiset(RecordIds(before));
  }

  lemma ReportsTheLast(d: MapData, book: Book, report: RecoveryReport, r: Record, now: Time)
    requires r.reservation.id !in book
    requires r.reservation.id !in report.restored && r.reservation.id !in report.expired && r.reservation.id !in report.rejected
    ensures var v, next := r.reservation, Reported(d, book, report, r, now);
            var letIn := Terminal(v.state) || Admits(d, book, v.resource, v.robot, v.window, r.usage);
            var stale := v.state == Pending && now >= v.window.end;
            && (v.id in next.rejected <==> !letIn)
            && (v.id in next.expired <==> letIn && stale)
            && (v.id in next.restored <==> letIn && !stale)
  {
    hide Admits;
  }

  lemma ReportsAnother(d: MapData, s: State, report: RecoveryReport, x: Record, now: Time, id: Id)
    requires x.reservation.id != id
    ensures var next, after := Reported(d, s.book, report, x, now), AfterRecoverOne(d, s, x, now).book;
            && (id in next.rejected <==> id in report.rejected) && (id in next.expired <==> id in report.expired)
            && (id in next.restored <==> id in report.restored) && (id in after <==> id in s.book)
  {
    hide Admits;
  }
}
