# Verified model of the traffic core

This project models the three components of the traffic-control server that share one map, and proves
what the fleet relies on them for.

**The reservation core.** Robots claim resources (edges, corridors, intersections, bays, nodes) for
half-open time windows. `ReservationTable` keeps the claims with three redundant indices and answers
whether a claim may be added; `ReservationManager` is the protocol over it: request, request-all,
activate, extend, release, release-all-for, cancel, commit, expire, sweep and recover. Both are classes
whose methods change their fields. Every manager method is proved equal to a function on protocol states
(module `Protocol`), and the theorems are about those functions and about runs: sequences of states
linked by any calls in any order.

**Route planning.** The A* search (priority queue with lazy deletion, closed set, three-level tie-break,
re-parenting on equal cost, expansion cap) is a class whose search loop is proved to compute a best-first
search written with no queue and no list order (module `Search`). Soundness, completeness, optimality,
tie-breaking and independence from the edge list are proved of that search. The heuristic, the cost model,
the route validator and the breadth-first search of the map are proved against it.

**Conflict detection.** Routes and reservations are turned into occupancies, six passes compare them in
pairs, and the findings are reduced to one conflict per robot pair and resource. Each pass is proved to
compute an order-free set, and the reduction to compute one list from that set.

## Files

| file | modules |
|---|---|
| `Core.dfy` | `Core` (windows, durations), `Ordering` (strict orders, sorting, ordered containers) |
| `Identifiers.dfy` | `Identifiers` (why numbers may stand for id strings) |
| `Domain.dfy` | `Graph` (map data), `Claims` (reservations, lifecycle, records) |
| `MapIndex.dfy`, `Reachability.dfy` | the indexed map, breadth-first search |
| `Admission.dfy` | `Admission` (safety invariant, exact admission), `Verdicts` |
| `Protocol.dfy` | `Policy`, `Protocol` (each call as a function, steps and runs) |
| `Safety.dfy`, `History.dfy`, `Accounts.dfy` | run safety, what can happen to a claim, conservation, arbitration, recovery |
| `Answers.dfy`, `Waiting.dfy`, `CallEffects.dfy` | what a request is told; waits, log and counts; what the other calls do and count |
| `FairService.dfy`, `RecoveryOrder.dfy` | who is served first; which of two inconsistent records is believed |
| `Witnesses.dfy` | short runs in which a documented promise fails |
| `Table.dfy`, `Manager.dfy` | the two classes |
| `Search.dfy`, `Optimality.dfy`, `Planning.dfy`, `Planner.dfy`, `Routing.dfy` | the search, its theorems, planning, the planner class, cost model and route validator |
| `Timetable.dfy` | `Timetable` (the times of a planned route), `ValidRoutes` (the validator accepts the planner's walks) |
| `Heuristics.dfy`, `Agreement.dfy` | when the heuristic is consistent; planner against breadth-first search |
| `ConflictRules.dfy`, `RouteReading.dfy`, `Contentions.dfy`, `Detection.dfy` | the detector as sets and as passes |
| `Findings.dfy`, `Meetings.dfy`, `TableAgreement.dfy` | what a reported conflict means, what each pass finds; the detector and its agreement with the table |

`dafny verify dfyconfig.toml` checks everything.

## How the model reads the program

- Times are integers (nanoseconds), costs and distances are reals. Clocks are parameters.
- An id is a natural number; 0 is the empty id. `Identifiers.RankKeepsOrder` shows nothing is lost: ids are
  used only through equality, order and emptiness.
- A time window is never empty, the constructor's own precondition (`include/traffic/domain/values.h:141`).
- `std::sort` may leave elements its order does not separate in any order, so the two calls that sort their
  input are relations: any sorted permutation is a legal step, and theorems hold for all of them.
- Capacity counts distinct robots, as the code does, not claims.
- Conflict and route ids are kept as the parts they are written from.
- The estimate is a function of two positions; traffic conditions are functions of resource and time.

## Where code and documentation differ

- `include/traffic/reservation/reservation_manager.h:131` says revoked claims come out in id order. The code
  returns them in (start, id) order. `Witnesses.RevokedOutOfIdOrder` is a run from an empty table in which the
  order differs; `History.RevokedInIdOrderExactlyWhen` says, from the state before the call, exactly when it does.
- "Committed" protects a claim from `cancel` and from being revoked by `extend`, and from nothing else:
  `release_all_for`, `expire` and `sweep` end committed claims. `History.EndsExactlyWhen` says exactly which
  calls end a claim, `History.CommitDoesNotProtect` that these three do, and `Witnesses.CommittedClaimIsSwept`
  is a run in which it happens.
- Map validation accepts an edge with an empty id, and no route can be built over one, so on such a map a
  reachable goal can be answered with "no route" (`Agreement.UnnamedEdgeLosesTheRoute`), from the branch the
  comment at `src/planning/astar_planner.cpp:352` calls unreachable. `Agreement.AgreementIsExactlyNamedSteps` is
  the exact condition, read off the map: no edge without an id can be driven from one node to another.
- The straight-line estimate is consistent, for all weights and goals, exactly where no travel-time override
  and no truncation to whole nanoseconds makes a step faster than driving its straight line at the map's top
  speed, and no edge is shorter than that line (`Heuristics.ConsistencyIsExactlyBounded`).
  `Heuristics.FastOverrideIsInconsistent` is a two-node map where it is not.

## Model

| member | source | states |
|---|---|---|
| Core.OverlapIsSharedInstant | include/traffic/domain/values.h:150-161 | the overlap test on half-open windows is true exactly when some instant lies in both, so a window ending where another begins is a handover and no overlap |
| Identifiers.RankKeepsOrder | include/traffic/core/strong_id.h:49-53 | numbering any finite set of id strings keeps equality, lexicographic order and emptiness |
| Ordering.SortIsUnique | src/reservation/reservation_manager.cpp:165-189 | where a comparator separates the elements, sorting has only one result |
| Policy.AgingIsMonotone | src/reservation/reservation_policy.cpp:46-61 | waiting longer never lowers a robot's effective priority, never takes it below the base and never past the 32-bit ceiling |
| Policy.AgingIsProportional | src/reservation/reservation_policy.cpp:46-61 | the priority gained is the aging rate times the seconds waited, to within the fraction lost to whole numbers, until it stops at the 32-bit ceiling; nothing is gained without aging or waiting |
| MapIndex.BuildIndex | src/map/map.cpp:24-57 | the index sends each id to the position of its first element, and contains every id |
| MapIndex.IndexFindsFirst | src/map/map.cpp:61-69 | looking an id up through the index gives what scanning the list from the front gives, found or not |
| MapIndex.BuildAdjacency | src/map/map.cpp:37-48 | the incident lists and the resource lists are, for every node and resource, the edges of the list in list order, a self-loop once |
| MapIndex.Map.EdgesOfResource | src/map/map.cpp:205-208 | the edges of a resource are exactly those a scan by effective resource collects, in order |
| MapIndex.Map.TraversableFromNode | src/map/map.cpp:87-96 | returns the edges at the node that can be driven away from it, in edge-list order |
| MapIndex.Map.CapacityAt | src/reservation/conflict_detector.cpp:181-200 | the corridor, intersection or bay of that name decides how many robots a resource admits, else the edge or node of that name, else one |
| Graph.EveryResourceAdmitsOne | src/map/map_validator.cpp:163-322 | where no element of the map has capacity zero, as validation demands, every resource admits at least one robot |
| Graph.CapacityIsTheElements | src/reservation/reservation_table.cpp:122-150 | a resource has the capacity of the element it is named after, a name of one kind hiding the same name of a later kind, and one where nothing is named after it |
| Graph.DrivenExactlyWhen | src/map/map.cpp:87-110 | an edge can be driven from one node to another exactly when it is open, joins them, and its direction allows that way |
| MapIndex.TraversableExactly | src/map/map.cpp:87-96 | an edge is in a node's expansion list if and only if it leads somewhere from that node |
| Reachability.NeighboursExactly | src/map/map.cpp:98-110 | a node is a neighbour if and only if some edge can be driven to it |
| Reachability.ReachableFrom | src/map/map.cpp:112-140 | the queue-and-seen-set loop lists nodes in breadth-first order: first found, first expanded, new neighbours in edge order; nothing for an unknown start |
| Reachability.ReachableOrderIsExact | src/map/map.cpp:112-140 | that list holds exactly the nodes some path reaches, each once, the start first |
| Reachability.NearerNodesComeFirst | src/map/map.cpp:112-140 | no node is listed before one that fewer steps reach |
| Reachability.IsReachable | src/map/map.cpp:142-170 | true if and only if both nodes are on the map and some path leads from one to the other |
| Admission.AdmittedMeans | src/reservation/reservation_table.cpp:152-198 | a claim is admitted if and only if no overlapping claim of another robot opposes it in direction or movement and at every instant of the window fewer other robots are inside than the capacity |
| Admission.RoomIsExact | src/reservation/reservation_table.cpp:185-194 | the capacity invariant survives an added presence exactly when there is room at every added instant |
| Admission.AdmissionIsExact | src/reservation/reservation_table.cpp:152-198 | in a safe state the check admits a claim, or an extension of one, if and only if adding it keeps capacity, direction and movement exclusion |
| Admission.ShrinkingIsSafe | src/reservation/reservation_table.cpp:220-246 | ending claims, or entering granted ones, never breaks safety |
| Table.SampleCovers | src/reservation/reservation_table.cpp:23-52 | for every instant of a window some sampled instant sees at least the same robots |
| Table.PeakOccupancy | src/reservation/reservation_table.cpp:23-52 | the sampled count is attained at some instant of the window and exceeded at none |
| Table.CountedPeak | src/reservation/reservation_table.cpp:23-52 | counted over the contenders, the peak is the largest number of other robots inside at any instant |
| ClaimIndex.IndexInserted | src/reservation/reservation_table.cpp:432-436 | inserting a record into the resource index leaves it describing exactly the grown records |
| ClaimIndex.IndexRemoved | src/reservation/reservation_table.cpp:438-449 | removing a record leaves it describing exactly the rest, with no empty bucket |
| ClaimIndex.ListedInClaimOrder | src/reservation/reservation_table.cpp:428-430 | claims listed by ascending key are the claims in (start, id) order, in one way only |
| Table.PurgeIsSafe | src/reservation/reservation_table.cpp:279-300 | forgetting old finished claims never breaks safety |
| Table.ScanComplete | src/reservation/reservation_table.cpp:451-481 | stopping the bucket scan at the first claim that starts too late misses no contender |
| Table.ReservationTable.Insert | src/reservation/reservation_table.cpp:202-218 | refuses a known id and changes nothing, otherwise adds exactly that record; all four structures stay in step |
| Table.ReservationTable.SetState | src/reservation/reservation_table.cpp:220-246 | the status is decided by presence and the lifecycle table; only a success changes anything, and only that record |
| Table.ReservationTable.SetWindowEnd | src/reservation/reservation_table.cpp:248-265 | moves the end of a live claim and nothing else, or reports why not and changes nothing |
| Table.ReservationTable.MarkCommitted | src/reservation/reservation_table.cpp:267-277 | marks a live claim committed and nothing else |
| Table.ReservationTable.PurgeTerminalBefore | src/reservation/reservation_table.cpp:279-300 | removes exactly the finished claims whose window ended before the cutoff and counts them |
| Table.ReservationTable.CapacityOfResource | src/reservation/reservation_table.cpp:122-150 | the corridor, intersection or bay of that name decides, else the edge or node, else one |
| Table.ReservationTable.HoldingIdList | src/reservation/reservation_table.cpp:321-329 | lists exactly the claims that withhold a resource, in id order |
| Table.ReservationTable.HoldingIdListFor | src/reservation/reservation_table.cpp:403-417 | lists through the robot index exactly one robot's holding claims, in id order |
| Table.ReservationTable.Contenders | src/reservation/reservation_table.cpp:451-481 | the early-exit index scan returns the (start, id)-ordered list of all overlapping holding claims of other robots |
| Table.ReservationTable.Check | src/reservation/reservation_table.cpp:152-198 | result, capacity, peak, blockers, blocking robots and next available time are those of the declarative verdict |
| Table.Explain | src/reservation/reservation_table.cpp:513-530 | the explanation lists the blockers in order, their robots once each in id order and their earliest end |
| Safety.GrantedExactlyWhen | src/reservation/reservation_manager.cpp:65-156 | a request is newly granted if and only if it is named, fresh, well formed, within the horizon and admitted; otherwise no record changes |
| Safety.UncontestedIsAdmitted | src/reservation/reservation_table.cpp:152-198 | a span nobody else overlaps is admitted at any capacity but zero |
| Safety.ContestedIsNotAdmitted | src/reservation/reservation_table.cpp:152-198 | a span another robot overlaps is not admitted at capacity one |
| Answers.GrantedExactlyWhenHeld | src/reservation/reservation_manager.cpp:65-156 | for a request with all three ids the answer is granted, new or replayed, if and only if the id now names a live claim of that robot on that resource, and the answer gives that claim's window |
| Answers.KnownIdIsAnsweredFromItsClaim | src/reservation/reservation_manager.cpp:592-623 | a known id is rejected as a duplicate exactly when its claim is another robot's or on another resource, as ended exactly when it is the robot's own but over, and otherwise confirmed; nothing but log and counters changes |
| Answers.NewIdIsAnswered | src/reservation/reservation_manager.cpp:79-127 | which of the three refusals a new id gets, from the request, the horizon and the buffers alone, and that it waits exactly when all three are passed and the span is not admitted |
| Answers.WaitIsExplained | src/reservation/reservation_manager.cpp:119-127 | the reason, the robots in the way (once each, ascending) and the earliest end among their claims are those of exactly the overlapping claims the reason is about; opposing traffic comes before clashing movements, those before numbers |
| Answers.VerdictListsBlockers | src/reservation/reservation_table.cpp:152-198 | the blockers are exactly the claims in the way, by start and then id, with the capacity and the largest number of other robots at any instant of the span |
| Answers.AnswerEchoesRequest | src/reservation/reservation_manager.cpp:65-79 | every answer carries the request's ids, the instant and the aged priority, and the asked or the buffered span as far as the request was judged |
| Answers.GrantIsRecorded | src/reservation/reservation_manager.cpp:129-148 | the record a grant writes, field by field, and that no other record changes |
| Waiting.RequestNotesWait | src/reservation/reservation_manager.cpp:625-646 | the first refusal starts a robot's clock, a retry on the same resource keeps it, a new grant stops it, and no other robot's entry changes |
| Waiting.RunsKeepWaits | src/reservation/reservation_manager.cpp:625-646 | over any stretch of a run, while a robot asks for nothing else and is not released from everything, it either still waits since the same instant or has got a claim on the resource |
| Waiting.WaitingTimeAddsUp | src/reservation/reservation_manager.cpp:566-579 | so the time it has waited is all the time since, across retries, and its effective priority never falls |
| Waiting.NobodyElseHasWaited | src/reservation/reservation_manager.cpp:566-579 | waiting time is counted exactly for the resource a robot waits for, from after the instant it began |
| Waiting.JournalKeepsNewest | src/reservation/reservation_manager.cpp:581-590 | the decision log is the newest of all decisions made, oldest first, as many as it may hold |
| Waiting.AnswersAreCounted | src/reservation/reservation_manager.cpp:65-156 | each answer is counted once under what it said, and no other counter moves |
| FairService.RequestsAreServedFairly | src/reservation/reservation_manager.cpp:158-197 | requests that arrive together are decided in an order in which effective priority never rises, waiting time never rises among equals, and nobody precedes a request that outranks it by task, robot and id |
| FairService.HigherRankIsGranted | src/reservation/reservation_manager.cpp:158-197 | of two new well-formed requests by different robots that compete for one place on a free resource of capacity one, the higher ranked is granted the whole span it asked for and the other gets nothing |
| Safety.RevokingMakesRoom | src/reservation/reservation_manager.cpp:278-303 | once every claim in the way is cancelled there is room, capacity zero excepted |
| Safety.ExtendKeepsSafe | src/reservation/reservation_manager.cpp:216-309 | extending, by either path, keeps every safety property |
| Safety.StepKeepsSafe | src/reservation/reservation_manager.cpp:65-507 | every manager call keeps capacity, direction and movement exclusion |
| Safety.RunsAreSafe | src/reservation/reservation_manager.cpp:65-507 | hence every state of every run from a safe state is safe |
| Safety.RunsFromEmptyAreSafe | src/reservation/reservation_manager.cpp:65-507 | from an empty table, at every instant no resource holds more distinct robots than its capacity and no two robots meet in opposite directions or conflicting movements |
| History.RequestsOnlyAdd | src/reservation/reservation_manager.cpp:158-197 | requests, re-sent ids included, never alter an existing record and add only their own ids |
| History.RunsEvolve | src/reservation/reservation_manager.cpp:65-442 | over any stretch of any run finished claims are frozen, entered claims are never cancelled or un-entered, starts never move and ends never shrink |
| History.EndsOnlyThrough | src/reservation/reservation_manager.cpp:311-442 | a claim ends only through the calls listed, an entered one only through release, expire or release-all-for; cancel and extend spare committed claims |
| History.EndsExactlyWhen | src/reservation/reservation_manager.cpp:65-507 | a call ends a live claim if and only if it is a release of it while entered, an expiry of it, a cancellation of it while pending and uncommitted, a sweep that finds it unused, a release of everything its robot holds, or an extension that makes room by revoking it; requests and recovery never do |
| CallEffects.RefusalsSayWhy | src/reservation/reservation_manager.cpp:201-407 | which error each call on one claim gives, read off the claim's state and commit mark |
| CallEffects.OneClaimChanges | src/reservation/reservation_manager.cpp:201-407 | such a call rewrites that record's state and transition time, or its commit mark, exactly when it is allowed, and otherwise changes nothing at all |
| CallEffects.SweepTidies | src/reservation/reservation_manager.cpp:409-442 | after a sweep the live claims past their window are the entered ones it reports; it expires exactly the pending ones whose window or grant ran out |
| CallEffects.ReleaseAllLeavesNothing | src/reservation/reservation_manager.cpp:330-357 | afterwards the robot holds and awaits nothing, entered claims released and others cancelled, and no other robot is touched |
| CallEffects.EndsAreCounted | src/reservation/reservation_manager.cpp:65-442 | in every call but recovery each counter grows by exactly its own events: claims ended as released, expired or cancelled, ends moved, claims revoked |
| CallEffects.RecoveryCountsExpired | src/reservation/reservation_manager.cpp:444-507 | recovery counts exactly the records it reports as expired |
| History.CommitDoesNotProtect | src/reservation/reservation_manager.cpp:330-442 | expiring, releasing all for the robot, and sweeping past the window or timeout do end a committed pending claim |
| Witnesses.CommittedClaimIsSwept | src/reservation/reservation_manager.cpp:382-442 | a run from an empty table that requests, commits and then sweeps a claim away |
| History.ExtensionIsAllOrNothing | src/reservation/reservation_manager.cpp:216-309 | a refused extension changes nothing; a granted one sets exactly the new end and, only when there was no room, cancels exactly the other robots' overlapping claims, all pending and uncommitted |
| CallEffects.ExtensionIsGrantedExactlyWhen | src/reservation/reservation_manager.cpp:216-309 | granted if and only if the claim is live, gains time, and the added span is admitted or, at a capacity other than zero, everyone in it is pending and uncommitted; each refusal has its own error and the end reported is the one in force |
| CallEffects.AffectedAreThoseInTheWay | src/reservation/reservation_manager.cpp:259-298 | the affected robots are exactly the others holding part of the added span when it is not admitted, once each and ascending, and none otherwise |
| History.RevokedInIdOrderExactlyWhen | src/reservation/reservation_manager.cpp:259-297 | the revoked list is in id order if and only if the extension need not revoke, or no claim in its way starts later than one in its way with a larger id |
| Witnesses.RevokedOutOfIdOrder | src/reservation/reservation_manager.cpp:259-297 | a run from an empty table after which an extension is granted and its revoked list is not in id order |
| History.RunsKeepBuffers | src/reservation/reservation_policy.cpp:37-44 | in runs without recovery every window starts its entry buffer early and ends at least its exit buffer late |
| History.SafetyGap | src/reservation/reservation_policy.cpp:37-44 | in such runs two robots' spans on a capacity-one resource, extensions included, are at least entry plus exit buffer apart |
| Accounts.EveryStepCounts | src/reservation/reservation_manager.cpp:65-507 | every step of the protocol is a step of the counted protocol, and conversely |
| Accounts.RunsConserve | src/reservation/reservation_manager.cpp:65-507 | claims held always equal granted plus live records recovered minus released, expired and cancelled; requests made equal granted plus waited plus rejected plus replayed |
| ArbitrationOrder.ArbitrationIsOrder | src/reservation/reservation_manager.cpp:165-189 | the arbitration comparator is a strict weak order, as the sort requires |
| ArbitrationOrder.ArbitrationIsDeterministic | src/reservation/reservation_manager.cpp:158-197 | when different requests carry different ids, any permutation yields the same decisions, records, waits, journal and counters |
| Recoveries.RecoveryRoundTrip | src/reservation/reservation_manager.cpp:444-507 | recovering a safe snapshot into an empty table rejects nothing and rebuilds it, except that pending claims past their window come back expired |
| Recoveries.ReportPartitionsInput | src/reservation/reservation_manager.cpp:444-507 | for any records each one appears in exactly one of the three report lists |
| RecoveryOrder.RecoveredExactlyWhen | src/reservation/reservation_manager.cpp:444-507 | a record alone in its id is let in if and only if it is finished or admitted by the starting table together with the accepted records of smaller (start, id); it comes in unchanged unless it is pending and past its window |
| RecoveryOrder.EarlierClaimIsBelieved | src/reservation/reservation_manager.cpp:448-461 | of two live claims by different robots that overlap on a resource of capacity one with nobody else on it, the one of smaller (start, id) is restored and the other is not |
| RecoveryOrder.ReportIsTrue | src/reservation/reservation_manager.cpp:463-504 | such a record is reported rejected exactly when it is not in the table, expired exactly when it came in past its window, restored exactly when it came in as it was |
| Manager.ReservationManager.Submit | src/reservation/reservation_manager.cpp:65-156 | answers and changes the state exactly as one protocol request; what that answer means is `Answers.GrantedExactlyWhenHeld`, `KnownIdIsAnsweredFromItsClaim`, `NewIdIsAnswered` and `WaitIsExplained` |
| Manager.ReservationManager.SubmitAll | src/reservation/reservation_manager.cpp:158-197 | decides the requests one after another in a fair order (`FairService.Fair`: no request before one that outranks it), with all answers and the whole new state |
| Manager.ReservationManager.Enter | src/reservation/reservation_manager.cpp:201-214 | activates a pending claim or reports why not, a legal protocol step |
| Manager.ReservationManager.Prolong | src/reservation/reservation_manager.cpp:216-309 | the outcome and the whole new state of an extension, through every exit |
| Manager.ReservationManager.GiveBack | src/reservation/reservation_manager.cpp:311-328 | releases an entered claim and counts it, or reports why not |
| Manager.ReservationManager.GiveBackAllFor | src/reservation/reservation_manager.cpp:330-357 | releases what the robot is in, cancels what it is not, in id order, and forgets its wait |
| Manager.ReservationManager.Withdraw | src/reservation/reservation_manager.cpp:359-380 | cancels an uncommitted pending claim, or reports why not |
| Manager.ReservationManager.MarkCommitted | src/reservation/reservation_manager.cpp:382-391 | commits a live claim, or reports why not |
| Manager.ReservationManager.ExpireOne | src/reservation/reservation_manager.cpp:393-407 | expires a live claim and counts it, or reports why not |
| Manager.ReservationManager.Tidy | src/reservation/reservation_manager.cpp:409-442 | expires exactly the pending claims past their window or grant timeout and reports exactly the overrunning ones, both in id order |
| Manager.ReservationManager.Restore | src/reservation/reservation_manager.cpp:444-507 | replays the records earliest start first, then smaller id, with the report and the whole new state; what is let in is `RecoveryOrder.RecoveredExactlyWhen` |
| Search.RelaxOneMore | src/planning/astar_planner.cpp:110-161 | considering edges one at a time, in whatever order, gives what considering them all at once gives: the least of cost then edge id |
| Search.NextIsBest | src/planning/astar_planner.cpp:48-60 | the node settled next has the least estimate of the whole, among those the greatest cost so far, among those the smallest id |
| Search.CapIsKept | src/planning/astar_planner.cpp:199-210 | under a cap no more nodes than that are settled, and the search stops for the cap exactly on reaching it |
| Optimality.SearchIsCorrect | src/planning/astar_planner.cpp:164-218 | for any estimate and cap: a goal found comes with a walk of exactly the reported cost, exhaustion means no walk exists even under a cap, and stopping at the cap means that many nodes settled without the goal |
| Optimality.RecordedStepIsLeast | src/planning/astar_planner.cpp:110-161 | the predecessor recorded is the cheapest step from an earlier settled node, and among equally cheap ones the smallest edge id |
| Optimality.SearchIsOptimal | src/planning/astar_planner.cpp:164-218 | with a consistent estimate every settled node's cost is the least of any walk to it and a walk achieves it, whether the goal was found, the search was exhausted or it stopped at the cap |
| Optimality.Route | src/planning/astar_planner.cpp:77-95 | following predecessors back from a settled node always ends at the start and gives a walk of exactly the recorded cost, zero-cost edges included |
| Planner.Pop | src/planning/astar_planner.cpp:48-60 | takes an entry that no other entry precedes under the three-level comparison |
| Planner.StaleIsSkipped | src/planning/astar_planner.cpp:192-196 | dropping an entry for a node already settled leaves the queue describing the same search |
| Planner.PoppedIsNext | src/planning/astar_planner.cpp:188-198 | the entry popped for an unsettled node is the node the search settles next, at its recorded cost |
| Planner.AStarPlanner.Relax | src/planning/astar_planner.cpp:110-161 | one relaxation writes the queue, the costs and the predecessors exactly as considering that edge prescribes |
| Planner.AStarPlanner.Search | src/planning/astar_planner.cpp:164-218 | the loop reports the nodes, edges, cost, expansions and verdict of the order-free search |
| Planner.Reconstruct | src/planning/astar_planner.cpp:77-95 | the reconstructed nodes and edges are those of the walk the labels record; the predecessor lookup never fails |
| Planner.AStarPlanner.Assemble | src/planning/astar_planner.cpp:226-267 | the route over the reconstructed walk with its segments, distance and duration; `Timetable.PlannedRouteIsTimed` says what times they are |
| Planner.AStarPlanner.PlanRoute | src/planning/astar_planner.cpp:288-364 | the answer, failure reasons included, is that of the planning function, and the sequence number grows exactly when the goal was reached; what that answer is: `Planning.FailureSaysWhy`, `Timetable.PlannedRouteIsTimed`, `ValidRoutes.PlannedIsCheapestValid` |
| Planner.AStarPlanner.EstimateRouteCost | src/planning/astar_planner.cpp:399-418 | sums the edge costs of a route, and gives no finite cost when the map lacks one of its edges |
| Planning.PlannedRouteIsValid | src/planning/astar_planner.cpp:288-364 | a planned route runs from start to goal and has no defect under the same constraints |
| ValidRoutes.ValidExactlyWhenWalk | src/planning/route_validator.cpp:133-179 | the validator accepts a connected route if and only if it is not older than the map, may start where it does, and is a walk of the network the planner searches |
| ValidRoutes.DefectsAreWhere | src/planning/route_validator.cpp:13-72 | which defect of a connected route is reported at which position, spelled out on the map, and which hides which |
| ValidRoutes.PlannedIsCheapestValid | src/planning/astar_planner.cpp:288-364 | with a heuristic consistent on the map, every connected route from start to goal that the validator accepts is estimated to cost at least the planned cost |
| ValidRoutes.NoRouteMeansNoneIsValid | src/planning/astar_planner.cpp:344-356 | and when no route is returned the validator accepts none, unless an allowed step is over an edge without an id |
| Timetable.PlannedRouteIsTimed | src/planning/astar_planner.cpp:226-267 | the first segment starts at the request's time and each next where the one before ends; each lasts the driving time of its edge, at least a nanosecond; duration and distance are those of all segments |
| Timetable.DrivingTimeIsExact | src/domain/graph.cpp:94-104 | driving time is length over speed in whole nanoseconds rounded down, unless overridden, and none without a speed |
| Planning.FailureSaysWhy | src/planning/astar_planner.cpp:288-330 | which failure each bad request gets, in the order they are looked for, and that reported expansions never exceed the cap |
| Planning.PlannedCostIsRouteCost | src/planning/astar_planner.cpp:399-418 | the cost reported is what estimating the returned route gives under the same conditions |
| CostModel.TrafficCostsExtra | src/planning/cost_model.cpp:38-61 | an edge costs its length and driving time at their weights, plus congestion and expected waiting at theirs, all of it discounted on a preferred resource |
| Planning.PlannedRouteIsOptimal | src/planning/astar_planner.cpp:288-364 | with a heuristic consistent on the map no allowed walk from start to goal is cheaper than the planned route, staying put included |
| Planning.PlanningIsComplete | src/planning/astar_planner.cpp:312-356 | a route is returned only when an allowed walk exists and no route only when none does, unless an allowed step crosses an edge without an id; the only other answer is that the cap was reached |
| Planning.PlanIgnoresEdgeOrder | src/planning/astar_planner.cpp:142-161 | reordering the edge list of a map with distinct edge ids changes neither the network searched nor any part of the answer |
| Planning.NetIgnoresEdgeOrder | src/map/map.cpp:24-57 | the network a request searches does not depend on the order of the edge list |
| Planning.NetworkIsTheMap | src/planning/astar_planner.cpp:110-140 | a request may step exactly over the open edges between nodes of the map, in a direction they allow, that its constraints exclude neither by edge, resource nor node |
| Agreement.PlannerAgreesWithReachability | src/planning/astar_planner.cpp:288-364 | unconstrained and uncapped, on a map with no dangling edge and no unnamed edge drivable between two nodes, planning succeeds exactly when the goal is reachable |
| Agreement.AgreementIsExactlyNamedSteps | src/planning/astar_planner.cpp:288-364 | where edges join nodes of the map and nodes have ids, planning agrees with reachability for all settings and requests if and only if no edge without an id can be driven from one node to another |
| Agreement.UnnamedEdgeLosesTheRoute | src/planning/astar_planner.cpp:344-356 | a concrete two-node map where the goal is reachable and no route is returned |
| RouteValidator.ValidateSegment | src/planning/route_validator.cpp:13-72 | adds exactly the defects of one segment, an unusable edge hiding the rest |
| RouteValidator.ValidateRoute | src/planning/route_validator.cpp:133-179 | reports every defect of a route with its position and nothing else; empty exactly when the route is valid |
| Heuristics.TriangleInequality | src/planning/heuristic.cpp:41-44 | the straight-line distance obeys the triangle inequality in three dimensions |
| Heuristics.MaxSpeedLimit | src/planning/heuristic.cpp:62-71 | the largest speed limit of any edge, disabled ones included, never below zero |
| Heuristics.BoundIsExact | src/planning/cost_model.cpp:38-69 | the per-metre bound never overestimates an edge, whatever valid weights, preferences and traffic, if and only if the edge is no shorter than the straight line and no faster than driving it at top speed |
| Heuristics.UntruncatedTimeIsBounded | src/planning/heuristic.cpp:62-75 | an edge without override whose travel time is a whole number of nanoseconds meets the speed half of that condition |
| Heuristics.StraightLineIsConsistent | src/planning/heuristic.cpp:41-75 | on a map whose steps all meet that condition the scaled straight-line heuristic is consistent on every request's network |
| Heuristics.ConsistencyIsExactlyBounded | src/planning/heuristic.cpp:41-75 | consistent for all valid weights, traffic, constraints and goals if and only if every step between nodes of the map is at least as long as the straight line and takes at least as long as driving it at top speed |
| Heuristics.FastOverrideIsInconsistent | src/planning/heuristic.cpp:73-75 | a concrete map whose one edge has an override faster than the top speed, where the estimate exceeds the cost of the step |
| Heuristics.StraightLinePlansAreOptimal | src/planning/heuristic.cpp:73-75 | and so the planner using it returns a route no allowed walk undercuts |
| Heuristics.ZeroIsConsistent | src/planning/heuristic.cpp:27-30 | the zero heuristic is consistent exactly when no usable edge has a negative cost |
| Heuristics.GeometrySupportsDistance | src/planning/heuristic.cpp:77-91 | true exactly when both ends of every edge are on the map and no edge is shorter than the straight line by more than the tolerance |
| Heuristics.NearlyBounded | src/planning/heuristic.cpp:77-91 | slack of t metres in an edge costs the estimate at most t metres' worth of consistency |
| ConflictRules.OverlapOf | src/reservation/conflict_rules.cpp:89-97 | the shared span holds exactly the instants in both windows, and is absent exactly when there are none |
| ConflictRules.EdgeRulesPartition | src/reservation/conflict_rules.cpp:162-191 | head-on and following exclude each other, together cover every meeting of two robots on one edge, and do not depend on argument order |
| ConflictRules.DistinctRobotsAt | src/reservation/conflict_rules.cpp:18-28 | counts the distinct robots present on a resource at an instant |
| ConflictRules.SamplingIsExact | src/reservation/conflict_rules.cpp:133-149 | for every instant of the shared window some sampled instant sees at least the same robots |
| ConflictRules.IsCapacityConflict | src/reservation/conflict_rules.cpp:114-150 | with both occupancies among the holders: true if and only if at some shared instant more distinct robots are present than the capacity, short circuit included |
| RouteReading.NodeVisits | src/reservation/conflict_detector.cpp:641-664 | one visit for each timed node outside every intersection, in route order |
| RouteReading.IntersectionCrossings | src/reservation/conflict_detector.cpp:722-752 | one crossing for each timed node inside an intersection, with the movement the map defines for its edges |
| RouteReading.EveryTimedNodeIsRead | src/reservation/conflict_detector.cpp:68-104 | with a positive margin every timed node, if the robot does not leave it before arriving, is seen by exactly one of the two readers |
| RouteReading.WindowIsTheStay | src/reservation/conflict_detector.cpp:68-104 | the span read for a node holds exactly the instants at most the entry margin before, or less than the exit margin after, some instant of the robot's stay |
| RouteReading.ReadersSayWhere | src/reservation/conflict_detector.cpp:611-752 | a visit, crossing or traversal names the route's robot and its own node, intersection or edge; a crossing has a movement exactly when the intersection lists one between the edges either side |
| RouteReading.MovementIsFirstListed | src/reservation/conflict_detector.cpp:722-752 | of several listed movements between two edges the first is taken |
| RouteReading.EdgeTraversals | src/reservation/conflict_detector.cpp:611-639 | one traversal for each timed segment; an edge the map lacks names itself as its resource |
| RouteReading.DirectionOfPassage | src/reservation/conflict_detector.cpp:123-173 | the direction follows the first positions of entry and exit in the corridor's walked node order |
| RouteReading.WalkFollowsEdges | src/reservation/conflict_detector.cpp:123-144 | the walked nodes start at the corridor's entry, are joined by its edges in turn, and stop only where the edges run out or the next one does not join on |
| RouteReading.BackwardExactlyWhen | src/reservation/conflict_detector.cpp:146-173 | a passage runs backward exactly when the walk meets both its ends and the exit no later than the entry |
| RouteReading.ReturnTripTurnsRound | src/reservation/conflict_detector.cpp:146-173 | swapping entry and exit turns the direction round exactly when both are on the corridor's walked nodes and differ |
| RouteReading.WholeCorridorRunsForward | src/reservation/conflict_detector.cpp:146-173 | a corridor whose walked nodes reach its exit runs forward from entry to exit and backward the other way |
| RouteReading.CorridorPassages | src/reservation/conflict_detector.cpp:666-720 | one passage for each segment at which a run inside a corridor starts, in route order |
| RouteReading.PassagesAreRuns | src/reservation/conflict_detector.cpp:666-720 | the passages are exactly the maximal uninterrupted runs of timed segments in one corridor |
| Detection.DetectNodeConflicts | src/reservation/conflict_detector.cpp:269-298 | grouping by node and comparing each pair once finds exactly what the node rule finds between any two visits |
| Detection.DetectEdgeConflicts | src/reservation/conflict_detector.cpp:300-340 | the same for edges, head-on and following alike, judged by the capacity of the admitting resource |
| Detection.DetectCorridorConflicts | src/reservation/conflict_detector.cpp:342-376 | the same for corridors, head-on before capacity |
| Detection.DetectIntersectionConflicts | src/reservation/conflict_detector.cpp:378-410 | the same for intersections, decided by conflict groups and not by capacity |
| Detection.DetectReservationConflicts | src/reservation/conflict_detector.cpp:412-447 | the same for the reservations that still withhold their resource |
| Detection.DetectGrantConflicts | src/reservation/conflict_detector.cpp:480-521 | exactly the over-capacity meetings of a grant with a route's claim on the same resource |
| Detection.AllPairs | src/reservation/conflict_detector.cpp:281-296 | comparing each pair of positions once under a symmetric rule misses nothing |
| Contentions.BestIsUnique | src/reservation/conflict_detector.cpp:222-238 | precedence, then start, then end leave one best description of a contention |
| Detection.Reduce | src/reservation/conflict_detector.cpp:525-563 | the result depends only on which candidates there are: the best of each contention, by robot pair and resource |
| Contentions.ReportIsCanonical | src/reservation/conflict_detector.cpp:525-563 | the report is strictly ascending by contention, so has one conflict each, and holds exactly the best description of each contention between named robots; `Findings.ReportedKindIsStrongest` says which is best |
| Findings.ReportedKindIsStrongest | src/reservation/conflict_rules.cpp:231-253 | a reported conflict has the highest kind found for its robots and resource on the seven-step ladder, head-on at the top and temporal only where all are temporal, and the earliest start of that kind |
| Findings.NothingIsSwallowed | src/reservation/conflict_detector.cpp:525-563 | every meeting of two named robots on a named resource is reported, once |
| Findings.ReportIsInOrder | src/reservation/conflict_detector.cpp:47-59 | the list ascends by the smaller robot, then the larger, then the resource |
| Findings.SeverityIsTheWarningLeft | src/reservation/conflict_rules.cpp:271-315 | severity is read off the time left before the conflict starts, a head-on never low; the id is written from its parts, smaller robot first |
| Meetings.NodeClashExactlyWhen | src/reservation/conflict_detector.cpp:269-298 | found exactly where two robots are at one node at an instant at which its visitors exceed its capacity |
| Meetings.EdgeClashExactlyWhen | src/reservation/conflict_detector.cpp:300-340 | found exactly where two robots share an edge from the same end at an instant at which those on it exceed the capacity of its resource |
| Meetings.HeadOnExactlyWhen | src/reservation/conflict_detector.cpp:300-376 | found exactly where two robots share an overfull edge from its two ends, or are in a single-lane two-way corridor going opposite ways |
| Meetings.CorridorClashExactlyWhen | src/reservation/conflict_detector.cpp:342-376 | found exactly where two robots are in a known corridor, not head-on, at an instant at which it is over capacity |
| Meetings.CrossingExactlyWhen | src/reservation/conflict_detector.cpp:378-410 | found exactly where two robots are in a known intersection at one instant on movements that share a conflict group or one of which is undefined |
| Meetings.ResourceClashExactlyWhen | src/reservation/conflict_detector.cpp:412-447 | found exactly where two robots hold a resource at an instant at which its holders exceed its capacity |
| Meetings.TemporalExactlyWhen | src/reservation/conflict_detector.cpp:480-521 | found exactly where one robot holds a resource at an instant the other's route takes it there, and all who hold it or are routed there exceed its capacity |
| Meetings.ReportedExactlyWhen | src/reservation/conflict_detector.cpp:525-563 | a kind is reported of two robots on a resource if and only if it was found and nothing above it on the ladder was |
| Meetings.HeadOnIsDetectedExactlyWhen | src/reservation/conflict_detector.cpp:768-774 | what the detector reports as head-on and as crossing, for any fleet, stated on the routes' own occupancies; a head-on is never of low severity |
| Detection.ConflictDetector.Detect | src/reservation/conflict_detector.cpp:768-774 | the answer is a function of the set of routes and the set of reservations, the one `Meetings.ReportedExactlyWhen` and `Meetings.HeadOnIsDetectedExactlyWhen` describe |
| Detection.ConflictDetector.DetectBetween | src/reservation/conflict_detector.cpp:776-782 | the answer for two routes is the whole-fleet answer for those two and no reservations |
| Contentions.DetectionIgnoresOrder | src/reservation/conflict_detector.cpp:565-581 | permuting the routes and the reservations leaves the list identical |
| TableAgreement.CountsAgree | src/reservation/conflict_rules.cpp:18-28 | what the detector counts on a resource is what the table's invariant counts |
| TableAgreement.DetectorMeansCapacity | src/reservation/conflict_detector.cpp:412-447 | over the table's reservations alone, with named robots, nothing is detected if and only if no named resource is over capacity at any instant |
| TableAgreement.DetectorAgreesWithTable | src/reservation/conflict_detector.cpp:412-447 | on a map without zero capacities, with named claims, that is exactly the table's capacity invariant |
| TableAgreement.ReachableTablesAreSilent | src/reservation/conflict_detector.cpp:412-447 | hence nothing is detected in any state any sequence of manager calls reaches |

## Left out

- Floating-point rounding and the width of 64-bit times, 32-bit capacities and doubles: integers and reals are exact. Truncation of travel times and priorities to integers is modelled.
- Heuristics.ConsistencyIsExactlyBounded: the straight-line distance is any function that is the non-negative root of the sum of squares; the square root itself is not computed.
- Heuristics.StraightLineIsConsistent: stated for exact geometry; the 1e-6 m tolerance of the geometry check appears in `Heuristics.GeometrySupportsDistance` and `Heuristics.NearlyBounded`.
- Agreement.AgreementIsExactlyNamedSteps: leaves out maps with a node whose id is empty, which no request can name as start or goal.
- ConflictRules.IsCapacityConflict: requires both occupancies to be among the holders, as its header asks of every caller.
- The order of buckets in hash containers, the heap behind the priority queue and iterator invalidation: maps, sets and multisets are mathematical values. The queue may return any entry no other precedes.
- The sampled instants of the admission count are a set instead of a sorted array without duplicates.
- Error branches that the surrounding checks rule out (a grant whose record cannot be built or inserted, a missing predecessor, a refused state change inside a loop over live claims) are proved unreachable rather than modelled as answers.
- Map loading and saving, map validation reports, logging, the simulator and all text conversions.
- Clocks and the measured planning time: the current time is a parameter.
- Replanning, route stability, the sequential fleet planner, planning records, the Manhattan heuristic: thin decisions over the planner.
- The state manager, task manager, task assignment, stall policy, commands and events: one map of records plus counters.
- Read-only views of the table and the manager that only copy records out (active reservations, owners, wait-for edges, decision log).
- Robot types of waiting bays, movement weights and other map attributes nothing here reads.
