/** What the manager remembers between requests: who waits since when, the newest decisions, the counts. */
module Waiting {
  import opened Core
  import opened Ordering
  import opened Graph
  import opened Claims
  import opened Admission
  import opened Verdicts
  import opened Policy
  import opened Protocol
  import opened Safety
  import opened History

  // ------------------------------------------------------------- waits

  /** One request's effect on the waits. The first refusal starts the clock, a retry on the same resource does
      not restart it, a new grant stops it, and nobody else's entry is touched. */
  lemma RequestNotesWait(d: MapData, p: ReservationPolicy, s: State, q: Request, now: Time)
    ensures var decision, waits := Decide(d, p, s, q, now), AfterRequest(d, p, s, q, now).waits;
            && (decision.status.Wait? ==>
                  && q.robot in waits && waits.Keys == s.waits.Keys + {q.robot}
                  && waits[q.robot].resource == q.resource && waits[q.robot].blockedBy == decision.blockingRobots
                  && waits[q.robot].since == if AwaitedBefore(s.waits, q) then s.waits[q.robot].since else now)
            && (decision.status.Granted? && !decision.replayed ==> waits.Keys == s.waits.Keys - {q.robot})
            && (decision.status.Rejected? || decision.replayed ==> waits == s.waits)
            && (forall r :: r in s.waits && r != q.robot ==> r in waits && waits[r] == s.waits[r])
  {
    hide Decide, Log, GrantedRecord;
    GrantedExactlyWhen(d, p, s, q, now);
    hide Admits;
    OnlyGrantsAreReplayed(d, p, s, q, now);
  }

  predicate AwaitedBefore(waits: map<Id, WaitEntry>, q: Request) {
    q.robot in waits && waits[q.robot].resource == q.resource
  }

  lemma OnlyGrantsAreReplayed(d: MapData, p: ReservationPolicy, s: State, q: Request, now: Time)
    ensures Decide(d, p, s, q, now).replayed ==> Decide(d, p, s, q, now).status.Granted?
  {
    hide Verdict, EffectivePriority, WaitedFor, EffectiveWindow;
  }

  /** The robot has been waiting for this resource since then. */
  predicate WaitsSince(s: State, robot: Id, resource: Id, since: Time) {
    robot in s.waits && s.waits[robot].resource == resource && s.waits[robot].since == since
  }

  /** The call neither asks for something else in the robot's name nor takes the robot off the floor. */
  predicate StaysPut(c: Call, robot: Id, resource: Id) {
    match c
    case RequestOne(q, _) => q.robot == robot ==> q.resource == resource
    case RequestMany(qs, _) => forall q :: q in qs && q.robot == robot ==> q.resource == resource
    case ReleaseAllFor(r, _) => r != robot
    case _ => true
  }

  /** The robot got a claim on the resource it did not have. */
  ghost predicate Served(before: Book, after: Book, robot: Id, resource: Id) {
    exists id :: id !in before && id in after && after[id].reservation.robot == robot && after[id].reservation.resource == resource
  }

  lemma ServedStaysServed(a: Book, b: Book, c: Book, robot: Id, resource: Id)
    requires Evolves(a, b) && Evolves(b, c) && (Served(a, b, robot, resource) || Served(b, c, robot, resource))
    ensures Served(a, c, robot, resource)
  {
    if Served(a, b, robot, resource) {
      var id :| id !in a && id in b && b[id].reservation.robot == robot && b[id].reservation.resource == resource;
      assert Succeeds(b[id], c[id]);
      assert id in c;
    } else {
      var id :| id !in b && id in c && c[id].reservation.robot == robot && c[id].reservation.resource == resource;
      assert id !in a;
    }
  }

  lemma RequestKeepsWait(d: MapData, p: ReservationPolicy, s: State, q: Request, now: Time, robot: Id, resource: Id,
                         since: Time)
    requires WaitsSince(s, robot, resource, since) && (q.robot == robot ==> q.resource == resource)
    ensures var after := AfterRequest(d, p, s, q, now);
            WaitsSince(after, robot, resource, since) || Served(s.book, after.book, robot, resource)
  {
    RequestNotesWait(d, p, s, q, now);
    GrantedExactlyWhen(d, p, s, q, now);
    var after := AfterRequest(d, p, s, q, now);
    hide AfterRequest, Decide, NewGrant;
    if q.robot == robot && NewGrant(d, p, s, q, now) {
      assert q.reservation !in s.book by { NewGrantIsFresh(d, p, s, q, now); }
      assert q.reservation in after.book;
    }
  }

  lemma NewGrantIsFresh(d: MapData, p: ReservationPolicy, s: State, q: Request, now: Time)
    ensures NewGrant(d, p, s, q, now) ==> q.reservation !in s.book
  {
  }

  lemma {:induction false} RequestsKeepWait(d: MapData, p: ReservationPolicy, s: State, ordered: seq<Request>, now: Time,
                                            robot: Id, resource: Id, since: Time)
    requires WaitsSince(s, robot, resource, since) && forall q :: q in ordered && q.robot == robot ==> q.resource == resource
    ensures var after := AfterRequests(d, p, s, ordered, now);
            WaitsSince(after, robot, resource, since) || Served(s.book, after.book, robot, resource)
  {
    hide AfterRequest, WaitsSince, Served, Evolves, OnlyAdds;
    if ordered != [] {
      var before, last := ordered[..|ordered| - 1], ordered[|ordered| - 1];
      var middle := AfterRequests(d, p, s, before, now);
      var after := AfterRequest(d, p, middle, last, now);
      RequestsKeepWait(d, p, s, before, now, robot, resource, since);
      RequestsOnlyAdd(d, p, s, before, now);
      AddingEvolves(s.book, middle.book, ReservationIds(before));
      RequestOnlyAdds(d, p, middle, last, now);
      AddingEvolves(middle.book, after.book, {last.reservation});
      if WaitsSince(middle, robot, resource, since) {
        RequestKeepsWait(d, p, middle, last, now, robot, resource, since);
      }
      if !WaitsSince(after, robot, resource, since) {
        ServedStaysServed(s.book, middle.book, after.book, robot, resource);
      }
    }
  }

  lemma StepKeepsWait(d: MapData, p: ReservationPolicy, s: State, c: Call, after: State, robot: Id, resource: Id, since: Time)
    requires Step(d, p, s, c, after) && StaysPut(c, robot, resource) && WaitsSince(s, robot, resource, since)
    ensures WaitsSince(after, robot, resource, since) || Served(s.book, after.book, robot, resource)
  {
    hide AfterRequest, AfterRequests, Served, AllMoved, ExtensionCase, MoveError, CommitError, UnusedIds, Displaced,
         EnteredIds, QueuedIds;
    match c
    case RequestOne(q, now) => RequestKeepsWait(d, p, s, q, now, robot, resource, since);
    case RequestMany(qs, now) =>
      var ordered :| IsSortOf(ordered, qs, Arbitration(s.waits, p, now)) && after == AfterRequests(d, p, s, ordered, now);
      forall q | q in ordered ensures q in qs { SameMembers(ordered, qs, q); }
      RequestsKeepWait(d, p, s, ordered, now, robot, resource, since);
    case Recover(records, now) =>
      var ordered :| IsSortOf(ordered, records, ClaimedBefore) && after == AfterRecover(d, s, ordered, now);
      RecoveryKeepsWaits(d, s, ordered, now);
    case _ =>
  }

  lemma {:induction false} RecoveryKeepsWaits(d: MapData, s: State, ordered: seq<Record>, now: Time)
    ensures AfterRecover(d, s, ordered, now).waits == s.waits && AfterRecover(d, s, ordered, now).journal == s.journal
  {
    hide RecoveryCase;
    if ordered != [] {
      RecoveryKeepsWaits(d, s, ordered[..|ordered| - 1], now);
    }
  }

  /** A wait survives any stretch of a run. As long as the robot asks for nothing else and is not taken off the
      floor, its clock keeps the instant it started from until the resource is its own. */
  lemma {:induction false} RunsKeepWaits(d: MapData, p: ReservationPolicy, states: seq<State>, calls: seq<Call>, i: nat, j: nat,
                                         robot: Id, resource: Id, since: Time)
    requires Run(d, p, states, calls) && i <= j < |states| && WaitsSince(states[i], robot, resource, since)
    requires forall k :: i <= k < j ==> StaysPut(calls[k], robot, resource)
    ensures WaitsSince(states[j], robot, resource, since) || Served(states[i].book, states[j].book, robot, resource)
    decreases j - i
  {
    hide Step, Served, WaitsSince, Evolves, StaysPut;
    if i < j {
      StepKeepsWait(d, p, states[i], calls[i], states[i + 1], robot, resource, since);
      RunsEvolve(d, p, states, calls, i, i + 1);
      RunsEvolve(d, p, states, calls, i + 1, j);
      if WaitsSince(states[i + 1], robot, resource, since) {
        RunsKeepWaits(d, p, states, calls, i + 1, j, robot, resource, since);
      }
      if !WaitsSince(states[j], robot, resource, since) {
        ServedStaysServed(states[i].book, states[i + 1].book, states[j].book, robot, resource);
      }
    }
  }

  /** So its waiting time is all of the time since, and its effective priority never falls. */
  lemma WaitingTimeAddsUp(d: MapData, p: ReservationPolicy, states: seq<State>, calls: seq<Call>, i: nat, j: nat,
                          robot: Id, resource: Id, since: Time, sooner: Time, later: Time, base: int)
    requires Run(d, p, states, calls) && i <= j < |states| && WaitsSince(states[i], robot, resource, since)
    requires forall k :: i <= k < j ==> StaysPut(calls[k], robot, resource)
    requires !Served(states[i].book, states[j].book, robot, resource)
    requires since <= sooner <= later && base <= MAX_PRIORITY
    ensures WaitedFor(states[i].waits, robot, resource, sooner) == sooner - since
    ensures WaitedFor(states[j].waits, robot, resource, later) == later - since
    ensures EffectivePriority(base, WaitedFor(states[i].waits, robot, resource, sooner), p)
         <= EffectivePriority(base, WaitedFor(states[j].waits, robot, resource, later), p)
  {
    RunsKeepWaits(d, p, states, calls, i, j, robot, resource, since);
    AgingIsMonotone(base, sooner - since, later - since, p);
    hide EffectivePriority, Served, Run;
  }

  /** A robot that is not waiting, or waits for something else, has waited no time for this. */
  lemma NobodyElseHasWaited(waits: map<Id, WaitEntry>, robot: Id, resource: Id, now: Time)
    ensures WaitedFor(waits, robot, resource, now) >= 0
    ensures WaitedFor(waits, robot, resource, now) > 0 <==>
      robot in waits && waits[robot].resource == resource && waits[robot].since < now
  {
  }

  // ------------------------------------------------------------- the decision log

  /** The last `n` elements. */
  function Newest(q: seq<Decision>, n: nat): (r: seq<Decision>)
    ensures |r| <= n
  {
    if |q| <= n then q else q[|q| - n..]
  }

  /** The log is the newest of all decisions made, as many as it may hold, oldest first. */
  lemma {:induction false} JournalKeepsNewest(d: MapData, p: ReservationPolicy, s: State, ordered: seq<Request>, now: Time)
    requires |s.journal| <= p.decisionLogCapacity
    ensures AfterRequests(d, p, s, ordered, now).journal
         == Newest(s.journal + Decisions(d, p, s, ordered, now), p.decisionLogCapacity)
  {
    hide Decide, Count, EffectiveWindow, NoteWait, GrantedRecord;
    var cap := p.decisionLogCapacity;
    if ordered != [] {
      var before, last := ordered[..|ordered| - 1], ordered[|ordered| - 1];
      JournalKeepsNewest(d, p, s, before, now);
      var middle := AfterRequests(d, p, s, before, now);
      var made := Decide(d, p, middle, last, now);
      LogKeepsNewest(s.journal + Decisions(d, p, s, before, now), made, cap);
      assert s.journal + (Decisions(d, p, s, before, now) + [made]) == (s.journal + Decisions(d, p, s, before, now)) + [made];
    }
  }

  lemma LogKeepsNewest(q: seq<Decision>, made: Decision, cap: nat)
    ensures Log(Newest(q, cap), made, cap) == Newest(q + [made], cap)
  {
  }

  // ------------------------------------------------------------- the counts of answers

  function Tally(decisions: seq<Decision>, counted: Decision -> bool): nat {
    if decisions == [] then 0
    else Tally(decisions[..|decisions| - 1], counted) + if counted(decisions[|decisions| - 1]) then 1 else 0
  }

  predicate GrantedAnew(x: Decision) { x.status.Granted? && !x.replayed }
  predicate GrantedAgain(x: Decision) { x.status.Granted? && x.replayed }
  predicate ToldToWait(x: Decision) { x.status.Wait? }
  predicate TurnedAway(x: Decision) { x.status.Rejected? }

  function One(b: bool): nat { if b then 1 else 0 }

  lemma AnswerIsCounted(d: MapData, p: ReservationPolicy, s: State, q: Request, now: Time)
    ensures var m, after, made := s.metrics, AfterRequest(d, p, s, q, now).metrics, Decide(d, p, s, q, now);
            && after.granted == m.granted + One(GrantedAnew(made)) && after.replayed == m.replayed + One(GrantedAgain(made))
            && after.waited == m.waited + One(ToldToWait(made)) && after.rejected == m.rejected + One(TurnedAway(made))
            && (after.released, after.expired, after.cancelled) == (m.released, m.expired, m.cancelled)
            && (after.extended, after.revoked) == (m.extended, m.revoked)
  {
    hide Decide, Log, EffectiveWindow, NoteWait, GrantedRecord;
  }

  /** Each answer is counted once, under what it said: granted anew, granted again, wait or rejected. The
      other counters stay put. */
  lemma {:induction false} AnswersAreCounted(d: MapData, p: ReservationPolicy, s: State, ordered: seq<Request>, now: Time)
    ensures var m, after, made := s.metrics, AfterRequests(d, p, s, ordered, now).metrics, Decisions(d, p, s, ordered, now);
            && after.granted == m.granted + Tally(made, GrantedAnew) && after.replayed == m.replayed + Tally(made, GrantedAgain)
            && after.waited == m.waited + Tally(made, ToldToWait) && after.rejected == m.rejected + Tally(made, TurnedAway)
            && (after.released, after.expired, after.cancelled) == (m.released, m.expired, m.cancelled)
            && (after.extended, after.revoked) == (m.extended, m.revoked)
  {
    hide Decide, AfterRequest, GrantedAnew, GrantedAgain, ToldToWait, TurnedAway;
    if ordered != [] {
      var before, last := ordered[..|ordered| - 1], ordered[|ordered| - 1];
      AnswersAreCounted(d, p, s, before, now);
      AnswerIsCounted(d, p, AfterRequests(d, p, s, before, now), last, now);
      var made := Decisions(d, p, s, ordered, now);
      assert made[..|made| - 1] == Decisions(d, p, s, before, now);
    }
  }
}
