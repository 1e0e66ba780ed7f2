/** The numbers a reservation decision depends on. */
module Policy {
  import opened Core

  datatype ReservationPolicy = ReservationPolicy(
    entryBuffer: int, exitBuffer: int, horizon: int, grantTimeout: int,
    agingPerSecond: real, decisionLogCapacity: nat)

  /** The window everyone else is kept out of: the requested span widened by both buffers. */
  function EffectiveWindow(start: Time, duration: int, p: ReservationPolicy): Option<TimeWindow> {
    if duration < 0 then None
    else MakeTimeWindow(start - p.entryBuffer, start + duration + p.exitBuffer)
  }

  const MAX_PRIORITY := 0x7FFF_FFFF

  /** The base priority raised by the time waited, saturating at the largest 32-bit value. */
  function EffectivePriority(base: int, waited: int, p: ReservationPolicy): int {
    if p.agingPerSecond <= 0.0 || waited <= 0 then base
    else Saturated(base, AgingPoints(p, waited))
  }

  function AgingPoints(p: ReservationPolicy, waited: int): real {
    p.agingPerSecond * Seconds(waited)
  }

  function Saturated(base: int, points: real): int {
    var raised := base as real + points;
    if raised >= MAX_PRIORITY as real then MAX_PRIORITY else Truncate(raised)
  }

  /** Waiting never costs a robot priority, and never carries it past the 32-bit ceiling. */
  lemma AgingIsMonotone(base: int, shorter: int, longer: int, p: ReservationPolicy)
    requires base <= MAX_PRIORITY && shorter <= longer
    ensures EffectivePriority(base, shorter, p) <= EffectivePriority(base, longer, p) <= MAX_PRIORITY
    ensures base <= EffectivePriority(base, shorter, p)
  {
    hide Saturated, AgingPoints;
    if p.agingPerSecond > 0.0 && longer > 0 {
      var less := if shorter > 0 then shorter else 0;
      PointsAreMonotone(p, less, longer);
      SaturationIsMonotone(base, AgingPoints(p, less), AgingPoints(p, longer));
    }
  }

  /** Priority grows in proportion to the wait, to within the fraction lost to whole numbers, until it
      reaches the ceiling; without aging or waiting it is the base. */
  lemma AgingIsProportional(base: int, waited: int, p: ReservationPolicy)
    ensures var points := p.agingPerSecond * (waited as real / NANOS_PER_SECOND as real);
            var effective := EffectivePriority(base, waited, p);
            if p.agingPerSecond <= 0.0 || waited <= 0 then effective == base
            else if base as real + points >= MAX_PRIORITY as real then effective == MAX_PRIORITY
            else base as real + points - 1.0 < effective as real < base as real + points + 1.0
  {
  }

  lemma PointsAreMonotone(p: ReservationPolicy, less: int, more: int)
    requires p.agingPerSecond > 0.0 && 0 <= less <= more
    ensures 0.0 <= AgingPoints(p, less) <= AgingPoints(p, more)
  {
    SecondsMonotone(0, less);
    SecondsMonotone(less, more);
    Scale(p.agingPerSecond, 0.0, Seconds(less));
    Scale(p.agingPerSecond, Seconds(less), Seconds(more));
  }

  lemma SecondsMonotone(s: int, l: int)
    ensures s <= l ==> Seconds(s) <= Seconds(l)
    ensures Seconds(0) == 0.0
  {
  }

  lemma SaturationIsMonotone(base: int, less: real, more: real)
    requires base <= MAX_PRIORITY && 0.0 <= less <= more
    ensures base <= Saturated(base, less) <= Saturated(base, more) <= MAX_PRIORITY
  {
    TruncateExact(base);
    TruncateExact(MAX_PRIORITY);
    TruncateMonotone(base as real, base as real + less);
    TruncateMonotone(base as real + less, base as real + more);
    if base as real + more < MAX_PRIORITY as real {
      TruncateMonotone(base as real + more, MAX_PRIORITY as real);
    }
    if base as real + less < MAX_PRIORITY as real {
      TruncateMonotone(base as real + less, MAX_PRIORITY as real);
    }
  }

  lemma TruncateMonotone(x: real, y: real)
    requires x <= y
    ensures Truncate(x) <= Truncate(y)
  {
  }

  lemma TruncateExact(n: int)
    ensures Truncate(n as real) == n
  {
  }
}

/** The reservation protocol as functions on values: what each manager call does to the
    records, the waits, the decision log and the counters, and what it answers. */
module Protocol {
  import opened Core
  import opened Ordering
  import opened Graph
  import opened Claims
  import opened Admission
  import opened Verdicts
  import opened Policy

  datatype Request = Request(
    reservation: Id, robot: Id, resource: Id, requestedStart: Time, estimatedDuration: int,
    priority: int, usage: ResourceUsage, route: Option<Id>, task: Option<Id>)

  datatype DecisionStatus = Granted | Wait | Rejected

  datatype DenialReason =
    | NoReason | ResourceOccupied | OpposingTraffic | MovementClash | EmptyIdentifier
    | InvalidWindow | BeyondHorizon | ReservationEnded | DuplicateRequest

  datatype Decision = Decision(
    status: DecisionStatus, reservation: Id, robot: Id, resource: Id, windowStart: Time, windowEnd: Time,
    reason: DenialReason, nextAvailable: Option<Time>, blockingRobots: seq<Id>,
    effectivePriority: int, replayed: bool, decidedAt: Time)

  datatype WaitEntry = WaitEntry(resource: Id, since: Time, blockedBy: seq<Id>)

  datatype Metrics = Metrics(
    granted: nat, waited: nat, rejected: nat, released: nat, expired: nat,
    cancelled: nat, extended: nat, revoked: nat, replayed: nat)

  datatype State = State(book: Book, waits: map<Id, WaitEntry>, journal: seq<Decision>, metrics: Metrics)

  const NO_METRICS := Metrics(0, 0, 0, 0, 0, 0, 0, 0, 0)

  const EMPTY := State(map[], map[], [], NO_METRICS)

  function WaitedFor(waits: map<Id, WaitEntry>, robot: Id, resource: Id, now: Time): int {
    if robot !in waits || waits[robot].resource != resource || now <= waits[robot].since then 0
    else now - waits[robot].since
  }

  function ReasonFor(result: AdmissionResult): DenialReason {
    match result
    case Admitted => NoReason
    case CapacityExceeded => ResourceOccupied
    case OpposingDirection => OpposingTraffic
    case MovementConflict => MovementClash
  }

  function NoteWait(waits: map<Id, WaitEntry>, q: Request, blockedBy: seq<Id>, now: Time): map<Id, WaitEntry> {
    if q.robot in waits && waits[q.robot].resource == q.resource
    then waits[q.robot := waits[q.robot].(blockedBy := blockedBy)]
    else waits[q.robot := WaitEntry(q.resource, now, blockedBy)]
  }

  /** The decision log keeps the newest entries, as many as the policy allows. */
  function Log(journal: seq<Decision>, decision: Decision, capacity: nat): seq<Decision> {
    if capacity == 0 then journal
    else (if |journal| >= capacity then journal[1..] else journal) + [decision]
  }

  function Undecided(p: ReservationPolicy, waits: map<Id, WaitEntry>, q: Request, now: Time): Decision {
    Decision(Rejected, q.reservation, q.robot, q.resource, q.requestedStart, q.requestedStart + q.estimatedDuration,
             NoReason, None, [], EffectivePriority(q.priority, WaitedFor(waits, q.robot, q.resource, now), p), false, now)
  }

  function Replay(existing: Record, q: Request, decision: Decision): Decision {
    var r := existing.reservation;
    var timed := decision.(windowStart := r.window.start, windowEnd := r.window.end);
    if r.robot != q.robot || r.resource != q.resource then timed.(status := Rejected, reason := DuplicateRequest)
    else if Terminal(r.state) then timed.(status := Rejected, reason := ReservationEnded)
    else timed.(status := Granted, reason := NoReason, replayed := true)
  }

  /** The record a grant creates. */
  function GrantedRecord(p: ReservationPolicy, q: Request, w: TimeWindow, effective: int, now: Time): Record {
    MakeRecord(Reservation(q.reservation, q.robot, q.resource, w, Pending, effective, now),
               q.usage, q.requestedStart, q.estimatedDuration, now, q.route, q.task)
  }

  ghost function Decide(d: MapData, p: ReservationPolicy, s: State, q: Request, now: Time): Decision {
    var base := Undecided(p, s.waits, q, now);
    if q.reservation == EMPTY_ID || q.robot == EMPTY_ID || q.resource == EMPTY_ID then base.(reason := EmptyIdentifier)
    else if q.reservation in s.book then Replay(s.book[q.reservation], q, base)
    else
      var w := EffectiveWindow(q.requestedStart, q.estimatedDuration, p);
      if w.None? then base.(reason := InvalidWindow)
      else
        var timed := base.(windowStart := w.value.start, windowEnd := w.value.end);
        if q.requestedStart > now + p.horizon then timed.(reason := BeyondHorizon)
        else
          var verdict := Verdict(d, s.book, q.resource, q.robot, w.value, q.usage);
          if verdict.result != Admitted then
            timed.(status := Wait, reason := ReasonFor(verdict.result),
                   nextAvailable := verdict.nextAvailable, blockingRobots := verdict.blockingRobots)
          else timed.(status := Granted)
  }

  function Count(m: Metrics, decision: Decision): Metrics {
    match decision.status
    case Rejected => m.(rejected := m.rejected + 1)
    case Wait => m.(waited := m.waited + 1)
    case Granted => if decision.replayed then m.(replayed := m.replayed + 1) else m.(granted := m.granted + 1)
  }

  function Applied(p: ReservationPolicy, s: State, q: Request, decision: Decision, now: Time): State {
    var logged := s.(journal := Log(s.journal, decision, p.decisionLogCapacity), metrics := Count(s.metrics, decision));
    var w := EffectiveWindow(q.requestedStart, q.estimatedDuration, p);
    if decision.status.Wait? then
      logged.(waits := NoteWait(s.waits, q, decision.blockingRobots, now))
    else if decision.status.Granted? && !decision.replayed && w.Some? then
      logged.(book := s.book[q.reservation := GrantedRecord(p, q, w.value, decision.effectivePriority, now)],
              waits := s.waits - {q.robot})
    else logged
  }

  /** One request: decided, and when granted written, as one step. */
  ghost function AfterRequest(d: MapData, p: ReservationPolicy, s: State, q: Request, now: Time): State {
    Applied(p, s, q, Decide(d, p, s, q, now), now)
  }

  // ------------------------------------------------------------- arbitration

  predicate OptionLess(a: Option<Id>, b: Option<Id>) {
    b.Some? && (a.None? || a.value < b.value)
  }

  /** Priority, then waiting time, then task, then robot, then reservation. */
  predicate Precedes(waits: map<Id, WaitEntry>, p: ReservationPolicy, now: Time, a: Request, b: Request) {
    var aWaited := WaitedFor(waits, a.robot, a.resource, now);
    var bWaited := WaitedFor(waits, b.robot, b.resource, now);
    var aPriority := EffectivePriority(a.priority, aWaited, p);
    var bPriority := EffectivePriority(b.priority, bWaited, p);
    if aPriority != bPriority then aPriority > bPriority
    else if aWaited != bWaited then aWaited > bWaited
    else if a.task != b.task then OptionLess(a.task, b.task)
    else if a.robot != b.robot then a.robot < b.robot
    else a.reservation < b.reservation
  }

  function Arbitration(waits: map<Id, WaitEntry>, p: ReservationPolicy, now: Time): (Request, Request) -> bool {
    (a, b) => Precedes(waits, p, now, a, b)
  }

  ghost function AfterRequests(d: MapData, p: ReservationPolicy, s: State, ordered: seq<Request>, now: Time): State {
    if ordered == [] then s
    else AfterRequest(d, p, AfterRequests(d, p, s, ordered[..|ordered| - 1], now), ordered[|ordered| - 1], now)
  }

  ghost function Decisions(d: MapData, p: ReservationPolicy, s: State, ordered: seq<Request>,
                           now: Time): seq<Decision> {
    if ordered == [] then []
    else
      var before := ordered[..|ordered| - 1];
      Decisions(d, p, s, before, now) + [Decide(d, p, AfterRequests(d, p, s, before, now), ordered[|ordered| - 1], now)]
  }

  // ------------------------------------------------------------- lifecycle

  datatype ReservationError =
    | NoError | UnknownReservation | AlreadyTerminal | InvalidTransition
    | NotAnExtension | ExtensionBlocked | AlreadyCommitted

  /** Moves one live claim to `next`, if the lifecycle allows it. */
  function Moved(s: State, id: Id, next: ReservationState, now: Time): State
    requires id in s.book
  {
    s.(book := s.book[id := WithState(s.book[id], next, now)])
  }

  function MoveError(book: Book, id: Id, next: ReservationState): ReservationError {
    if id !in book then UnknownReservation
    else if Terminal(book[id].reservation.state) then AlreadyTerminal
    else if !TransitionAllowed(book[id].reservation.state, next) then InvalidTransition
    else NoError
  }

  function CancelError(book: Book, id: Id): ReservationError {
    if id in book && book[id].committed then AlreadyCommitted else MoveError(book, id, Cancelled)
  }

  function AfterActivate(s: State, id: Id, now: Time): State {
    if MoveError(s.book, id, Active).NoError? then Moved(s, id, Active, now) else s
  }

  function AfterRelease(s: State, id: Id, now: Time): State {
    if !MoveError(s.book, id, Released).NoError? then s
    else Moved(s, id, Released, now).(metrics := s.metrics.(released := s.metrics.released + 1))
  }

  function AfterCancel(s: State, id: Id, now: Time): State {
    if !CancelError(s.book, id).NoError? then s
    else Moved(s, id, Cancelled, now).(metrics := s.metrics.(cancelled := s.metrics.cancelled + 1))
  }

  function AfterExpire(s: State, id: Id, now: Time): State {
    if !MoveError(s.book, id, Expired).NoError? then s
    else Moved(s, id, Expired, now).(metrics := s.metrics.(expired := s.metrics.expired + 1))
  }

  function CommitError(book: Book, id: Id): ReservationError {
    if id !in book then UnknownReservation
    else if Terminal(book[id].reservation.state) then AlreadyTerminal
    else NoError
  }

  function AfterCommit(s: State, id: Id): State {
    if !CommitError(s.book, id).NoError? then s
    else s.(book := s.book[id := s.book[id].(committed := true)])
  }

  /** Every claim of `ids` moved to `next`. */
  function AllMoved(book: Book, ids: set<Id>, next: ReservationState, now: Time): (after: Book)
    ensures after.Keys == book.Keys
    ensures forall id :: id in book ==> after[id] == if id in ids then WithState(book[id], next, now) else book[id]
  {
    map id | id in book :: if id in ids then WithState(book[id], next, now) else book[id]
  }

  function EnteredIds(book: Book, robot: Id): set<Id> {
    set id | id in HoldingIdsFor(book, robot) && book[id].reservation.state.Active?
  }

  function QueuedIds(book: Book, robot: Id): set<Id> {
    set id | id in HoldingIdsFor(book, robot) && book[id].reservation.state.Pending?
  }

  /** Releases what the robot entered, cancels what it did not, and forgets its wait. */
  function AfterReleaseAllFor(s: State, robot: Id, now: Time): State {
    var entered, queued := EnteredIds(s.book, robot), QueuedIds(s.book, robot);
    State(AllMoved(AllMoved(s.book, entered, Released, now), queued, Cancelled, now),
          s.waits - {robot}, s.journal,
          s.metrics.(released := s.metrics.released + |entered|, cancelled := s.metrics.cancelled + |queued|))
  }

  /** Grants whose window has gone, or that nobody took up in time. */
  function UnusedIds(book: Book, p: ReservationPolicy, now: Time): set<Id> {
    set id | id in book && book[id].reservation.state.Pending?
             && (IsPastWindow(book[id].reservation, now) || now >= book[id].decidedAt + p.grantTimeout)
  }

  function OverrunningIds(book: Book, now: Time): set<Id> {
    set id | id in book && book[id].reservation.state.Active? && IsPastWindow(book[id].reservation, now)
  }

  function AfterSweep(p: ReservationPolicy, s: State, now: Time): State {
    var unused := UnusedIds(s.book, p, now);
    s.(book := AllMoved(s.book, unused, Expired, now),
       metrics := s.metrics.(expired := s.metrics.expired + |unused|))
  }

  // ------------------------------------------------------------- extension

  datatype ExtensionOutcome = ExtensionOutcome(
    granted: bool, reservation: Id, newEnd: Time, error: ReservationError,
    revoked: seq<Id>, affectedRobots: seq<Id>, decidedAt: Time)

  /** The other robots' claims that overlap the span an extension would add. */
  function Displaced(book: Book, id: Id, newEnd: Time): set<Id>
    requires id in book && book[id].reservation.window.end < newEnd
  {
    var r := book[id].reservation;
    ContenderIds(book, r.resource, r.robot, Span(r.window.end, newEnd))
  }

  /** Past being called back: already inside, or committed to going in. */
  predicate Irrevocable(r: Record) {
    r.reservation.state.Active? || r.committed
  }

  datatype ExtensionPath = Refused(error: ReservationError) | RoomAsIs | RoomAfterRevoking

  ghost function ExtensionCase(d: MapData, book: Book, id: Id, newEnd: Time): (path: ExtensionPath)
    ensures !path.Refused? ==> id in book && HoldsResource(book[id].reservation.state) && book[id].reservation.window.end < newEnd
  {
    if id !in book then Refused(UnknownReservation)
    else
      var r := book[id].reservation;
      if Terminal(r.state) then Refused(AlreadyTerminal)
      else if newEnd <= r.window.end then Refused(NotAnExtension)
      else if Admits(d, book, r.resource, r.robot, Span(r.window.end, newEnd), book[id].usage) then RoomAsIs
      else if exists o :: o in Displaced(book, id, newEnd) && Irrevocable(book[o]) then Refused(ExtensionBlocked)
      else if CapacityOf(d, r.resource) == 0 then Refused(ExtensionBlocked)
      else RoomAfterRevoking
  }

  ghost function AfterExtend(d: MapData, s: State, id: Id, newEnd: Time, now: Time): State {
    hide ExtensionCase, Displaced;
    match ExtensionCase(d, s.book, id, newEnd)
    case Refused(_) => s
    case RoomAsIs =>
      s.(book := s.book[id := WithEnd(s.book[id], newEnd)],
         metrics := s.metrics.(extended := s.metrics.extended + 1))
    case RoomAfterRevoking =>
      var displaced := Displaced(s.book, id, newEnd);
      s.(book := AllMoved(s.book, displaced, Cancelled, now)[id := WithEnd(s.book[id], newEnd)],
         metrics := s.metrics.(revoked := s.metrics.revoked + |displaced|,
                               cancelled := s.metrics.cancelled + |displaced|,
                               extended := s.metrics.extended + 1))
  }

  ghost function Extension(d: MapData, s: State, id: Id, newEnd: Time, now: Time): ExtensionOutcome {
    match ExtensionCase(d, s.book, id, newEnd)
    case Refused(error) =>
      ExtensionOutcome(false, id,
        if error.UnknownReservation? || error.AlreadyTerminal? || id !in s.book then 0 else s.book[id].reservation.window.end,
        error, [],
        if error.ExtensionBlocked? && id in s.book && s.book[id].reservation.window.end < newEnd
        then InIdOrder(RobotsOf(s.book, Displaced(s.book, id, newEnd))) else [], now)
    case RoomAsIs => ExtensionOutcome(true, id, newEnd, NoError, [], [], now)
    case RoomAfterRevoking =>
      var displaced := Displaced(s.book, id, newEnd);
      ExtensionOutcome(true, id, newEnd, NoError, InClaimOrder(s.book, displaced),
                       InIdOrder(RobotsOf(s.book, displaced)), now)
  }

  // ------------------------------------------------------------- recovery

  datatype RecoveryReport = RecoveryReport(restored: seq<Id>, expired: seq<Id>, rejected: seq<Id>)

  const NOTHING_RECOVERED := RecoveryReport([], [], [])

  /** Earliest claim first, ties broken by id. */
  predicate ClaimedBefore(a: Record, b: Record) {
    KeyLess(KeyOf(a), KeyOf(b))
  }

  datatype RecoveryVerdict = Restore | RestoreAndExpire | Reject

  ghost function RecoveryCase(d: MapData, book: Book, r: Record, now: Time): RecoveryVerdict {
    var v := r.reservation;
    if v.id in book then Reject
    else if Terminal(v.state) then Restore
    else if !Admits(d, book, v.resource, v.robot, v.window, r.usage) then Reject
    else if v.state.Pending? && IsPastWindow(v, now) then RestoreAndExpire
    else Restore
  }

  ghost function AfterRecoverOne(d: MapData, s: State, r: Record, now: Time): State {
    match RecoveryCase(d, s.book, r, now)
    case Reject => s
    case Restore => s.(book := s.book[r.reservation.id := r])
    case RestoreAndExpire =>
      s.(book := s.book[r.reservation.id := WithState(r, Expired, now)],
         metrics := s.metrics.(expired := s.metrics.expired + 1))
  }

  ghost function Reported(d: MapData, book: Book, report: RecoveryReport, r: Record, now: Time): RecoveryReport {
    match RecoveryCase(d, book, r, now)
    case Reject => report.(rejected := report.rejected + [r.reservation.id])
    case Restore => report.(restored := report.restored + [r.reservation.id])
    case RestoreAndExpire => report.(expired := report.expired + [r.reservation.id])
  }

  ghost function AfterRecover(d: MapData, s: State, ordered: seq<Record>, now: Time): State {
    if ordered == [] then s
    else AfterRecoverOne(d, AfterRecover(d, s, ordered[..|ordered| - 1], now), ordered[|ordered| - 1], now)
  }

  ghost function Recovery(d: MapData, s: State, ordered: seq<Record>, now: Time): RecoveryReport {
    if ordered == [] then NOTHING_RECOVERED
    else
      var before := ordered[..|ordered| - 1];
      Reported(d, AfterRecover(d, s, before, now).book, Recovery(d, s, before, now), ordered[|ordered| - 1], now)
  }

  // ------------------------------------------------------------- runs

  datatype Call =
    | RequestOne(request: Request, now: Time)
    | RequestMany(requests: seq<Request>, now: Time)
    | Activate(id: Id, now: Time)
    | Extend(id: Id, newEnd: Time, now: Time)
    | Release(id: Id, now: Time)
    | ReleaseAllFor(robot: Id, now: Time)
    | Cancel(id: Id, now: Time)
    | Commit(id: Id)
    | Expire(id: Id, now: Time)
    | Sweep(now: Time)
    | Recover(records: seq<Record>, now: Time)

  /** One manager call. The two calls that sort their input may see elements the order does
      not separate in any order, so they are relations. */
  ghost predicate Step(d: MapData, p: ReservationPolicy, s: State, c: Call, after: State) {
    match c
    case RequestOne(q, now) => after == AfterRequest(d, p, s, q, now)
    case RequestMany(qs, now) =>
      exists ordered :: IsSortOf(ordered, qs, Arbitration(s.waits, p, now)) && after == AfterRequests(d, p, s, ordered, now)
    case Activate(id, now) => after == AfterActivate(s, id, now)
    case Extend(id, newEnd, now) => after == AfterExtend(d, s, id, newEnd, now)
    case Release(id, now) => after == AfterRelease(s, id, now)
    case ReleaseAllFor(robot, now) => after == AfterReleaseAllFor(s, robot, now)
    case Cancel(id, now) => after == AfterCancel(s, id, now)
    case Commit(id) => after == AfterCommit(s, id)
    case Expire(id, now) => after == AfterExpire(s, id, now)
    case Sweep(now) => after == AfterSweep(p, s, now)
    case Recover(records, now) =>
      exists ordered :: IsSortOf(ordered, records, ClaimedBefore) && after == AfterRecover(d, s, ordered, now)
  }

  /** A run: one state before each call and one at the end. */
  ghost predicate Run(d: MapData, p: ReservationPolicy, states: seq<State>, calls: seq<Call>) {
    && |states| == |calls| + 1
    && forall i :: 0 <= i < |calls| ==> Step(d, p, states[i], calls[i], states[i + 1])
  }
}
