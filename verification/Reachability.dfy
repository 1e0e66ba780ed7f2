/** Breadth-first search over the map: what it lists, and that it agrees with the planner. */
module Reachability {
  import opened Core
  import opened Ordering
  import opened Graph
  import opened MapIndex

  /** Some edge can be driven from `u` to `v`. */
  ghost predicate Linked(d: MapData, u: Id, v: Id) {
    exists e :: Leads(d, u, e, v)
  }

  ghost predicate IsPath(d: MapData, p: seq<Id>) {
    p != [] && forall i :: 0 < i < |p| ==> Linked(d, p[i - 1], p[i])
  }

  ghost predicate IsPathFrom(d: MapData, p: seq<Id>, u: Id, v: Id) {
    IsPath(d, p) && p[0] == u && p[|p| - 1] == v
  }

  ghost predicate Reaches(d: MapData, u: Id, v: Id) {
    exists p :: IsPathFrom(d, p, u, v)
  }

  lemma ReachesItself(d: MapData, u: Id)
    ensures Reaches(d, u, u)
  {
    assert IsPathFrom(d, [u], u, u);
  }

  lemma ReachesFurther(d: MapData, start: Id, u: Id, v: Id)
    requires Reaches(d, start, u) && Linked(d, u, v)
    ensures Reaches(d, start, v)
  {
    var p :| IsPathFrom(d, p, start, u);
    hide Linked;
    assert IsPathFrom(d, p + [v], start, v);
  }

  /** A set holding the start and closed under links holds everything reached. */
  lemma {:induction false} ReachedStayInside(d: MapData, inside: set<Id>, p: seq<Id>)
    requires IsPath(d, p) && p[0] in inside
    requires forall u, v :: u in inside && Linked(d, u, v) ==> v in inside
    ensures p[|p| - 1] in inside
    decreases |p|
  {
    hide Linked;
    if |p| > 1 {
      ReachedStayInside(d, inside, p[..|p| - 1]);
      assert Linked(d, p[|p| - 2], p[|p| - 1]);
    }
  }

  lemma NothingElseReached(d: MapData, inside: set<Id>, start: Id, v: Id)
    requires start in inside && v !in inside
    requires forall u, v :: u in inside && Linked(d, u, v) ==> v in inside
    ensures !Reaches(d, start, v)
  {
    forall p ensures !IsPathFrom(d, p, start, v) {
      if IsPath(d, p) && p[0] == start {
        ReachedStayInside(d, inside, p);
      }
    }
  }

  // ------------------------------------------------------------- neighbours

  /** Where each of these edges leads from `node`, in order. */
  function HeadsFrom(d: MapData, ids: seq<Id>, node: Id): seq<Id> {
    if ids == [] then []
    else
      var last := FindEdge(d, ids[|ids| - 1]);
      HeadsFrom(d, ids[..|ids| - 1], node)
      + if last.Some? && OppositeNode(last.value, node).Some? then [OppositeNode(last.value, node).value] else []
  }

  function NeighboursOf(d: MapData, node: Id): seq<Id> {
    HeadsFrom(d, TraversableEdges(d, node), node)
  }

  lemma {:induction false} HeadsExactly(d: MapData, ids: seq<Id>, node: Id)
    ensures forall v :: v in HeadsFrom(d, ids, node) <==>
      exists e :: e in ids && FindEdge(d, e).Some? && OppositeNode(FindEdge(d, e).value, node) == Some(v)
  {
    hide FindEdge, OppositeNode;
    if ids != [] {
      HeadsExactly(d, ids[..|ids| - 1], node);
      assert ids == ids[..|ids| - 1] + [ids[|ids| - 1]];
    }
  }

  /** A node's neighbours are exactly the nodes some edge can be driven to. */
  lemma NeighboursExactly(d: MapData, u: Id, v: Id)
    ensures v in NeighboursOf(d, u) <==> Linked(d, u, v)
  {
    var ids := TraversableEdges(d, u);
    TraversableExactly(d, u);
    HeadsExactly(d, ids, u);
    hide TraversableEdges, HeadsFrom, FindEdge, OppositeNode, TraversableFrom;
    if v in NeighboursOf(d, u) {
      var e :| e in ids && FindEdge(d, e).Some? && OppositeNode(FindEdge(d, e).value, u) == Some(v);
      var x :| Leads(d, u, e, x);
      assert Leads(d, u, e, v);
    }
    if Linked(d, u, v) {
      var e :| Leads(d, u, e, v);
      assert e in ids;
    }
  }

  method Neighbours(world: Map, node: Id) returns (result: seq<Id>)
    requires world.Valid()
    ensures result == NeighboursOf(world.data, node)
  {
    hide TraversableEdges, First;
    var ids := world.TraversableFromNode(node);
    result := [];
    for i := 0 to |ids|
      invariant result == HeadsFrom(world.data, ids[..i], node)
    {
      assert ids[..i + 1][..i] == ids[..i];
      var edge := world.EdgeAt(ids[i]);
      if edge.Some? {
        var other := OppositeNode(edge.value, node);
        if other.Some? {
          result := result + [other.value];
        }
      }
    }
    assert ids[..|ids|] == ids;
  }

  // ------------------------------------------------------------- the sweep

  function Members(q: seq<Id>): set<Id> {
    set x | x in q
  }

  /** Every node some edge touches: all a sweep can ever discover. */
  function Ends(d: MapData): set<Id> {
    (set e | e in d.edges :: e.fromNode) + (set e | e in d.edges :: e.toNode)
  }

  /** The list with the newly met ids appended, each once, in the order met. */
  function WithNew(order: seq<Id>, met: seq<Id>): (r: seq<Id>)
    ensures order <= r
    ensures forall x :: x in r <==> x in order || x in met
    ensures Distinct(order) ==> Distinct(r)
  {
    if met == [] then order
    else
      var front, last := WithNew(order, met[..|met| - 1]), met[|met| - 1];
      assert met == met[..|met| - 1] + [last];
      if last in front then front else front + [last]
  }

  lemma LinkedEnds(d: MapData, u: Id, v: Id)
    requires Linked(d, u, v)
    ensures v in Ends(d)
  {
    var e :| Leads(d, u, e, v);
    FirstIsMember(d.edges, EdgeId, e);
  }

  lemma NewAreEnds(d: MapData, order: seq<Id>, u: Id)
    ensures Members(WithNew(order, NeighboursOf(d, u))) <= Members(order) + Ends(d)
  {
    hide Ends, NeighboursOf;
    forall v | v in NeighboursOf(d, u) ensures v in Ends(d) {
      NeighboursExactly(d, u, v);
      LinkedEnds(d, u, v);
    }
  }

  lemma SweepGoesOn(d: MapData, order: seq<Id>, head: nat)
    requires head < |order|
    ensures var more := WithNew(order, NeighboursOf(d, order[head]));
            more == order || Ends(d) - Members(more) < Ends(d) - Members(order)
  {
    var more := WithNew(order, NeighboursOf(d, order[head]));
    NewAreEnds(d, order, order[head]);
    hide Ends, NeighboursOf, WithNew;
    if more != order {
      NewMember(order, NeighboursOf(d, order[head]));
      var x :| x in more && x !in order;
      assert x in Members(more) && x !in Members(order);
      assert Members(order) <= Members(more);
    }
  }

  lemma {:induction false} NewMember(order: seq<Id>, met: seq<Id>)
    requires WithNew(order, met) != order
    ensures exists x :: x in WithNew(order, met) && x !in order
  {
    var front, last := WithNew(order, met[..|met| - 1]), met[|met| - 1];
    if front != order {
      NewMember(order, met[..|met| - 1]);
      var x :| x in front && x !in order;
      assert x in WithNew(order, met);
    } else {
      assert last in WithNew(order, met);
    }
  }

  /** First found, first expanded; each node's new neighbours are listed in edge order. */
  function Sweep(d: MapData, order: seq<Id>, head: nat): seq<Id>
    requires head <= |order|
    decreases Ends(d) - Members(order), |order| - head
  {
    if head == |order| then order
    else
      SweepGoesOn(d, order, head);
      Sweep(d, WithNew(order, NeighboursOf(d, order[head])), head + 1)
  }

  function ReachableOrder(d: MapData, start: Id): seq<Id> {
    if FindNode(d, start).None? then [] else Sweep(d, [start], 0)
  }

  /** Everything linked from an expanded node has been listed. */
  ghost predicate Expanded(d: MapData, order: seq<Id>, head: nat)
    requires head <= |order|
  {
    forall i, v :: 0 <= i < head && Linked(d, order[i], v) ==> v in order
  }

  lemma ExpandNext(d: MapData, start: Id, order: seq<Id>, head: nat)
    requires head < |order| && Expanded(d, order, head)
    requires forall x :: x in order ==> Reaches(d, start, x)
    ensures var more := WithNew(order, NeighboursOf(d, order[head]));
            Expanded(d, more, head + 1) && forall x :: x in more ==> Reaches(d, start, x)
  {
    var u := order[head];
    var met := NeighboursOf(d, u);
    forall v ensures v in met <==> Linked(d, u, v) { NeighboursExactly(d, u, v); }
    ExpandWith(d, order, head, met, WithNew(order, met));
    hide *;
    forall x | x in WithNew(order, met) ensures Reaches(d, start, x) {
      if x !in order { ReachesFurther(d, start, u, x); }
    }
  }

  lemma ExpandWith(d: MapData, order: seq<Id>, head: nat, met: seq<Id>, more: seq<Id>)
    requires head < |order| && Expanded(d, order, head) && order <= more
    requires forall v :: v in met <==> Linked(d, order[head], v)
    requires forall x :: x in more <==> x in order || x in met
    ensures Expanded(d, more, head + 1)
  {
    hide Linked;
    forall i, v | 0 <= i < head + 1 && Linked(d, more[i], v) ensures v in more {
      assert more[i] == order[i];
    }
  }

  lemma {:induction false} SweepIsExact(d: MapData, start: Id, order: seq<Id>, head: nat)
    requires head <= |order| && order != [] && order[0] == start && Distinct(order)
    requires Expanded(d, order, head) && forall x :: x in order ==> Reaches(d, start, x)
    ensures var all := Sweep(d, order, head);
            all != [] && all[0] == start && Distinct(all) && forall v :: v in all <==> Reaches(d, start, v)
    decreases Ends(d) - Members(order), |order| - head
  {
    if head == |order| {
      hide Linked, Reaches;
      forall v | v !in order ensures !Reaches(d, start, v) {
        forall u, w | u in Members(order) && Linked(d, u, w) ensures w in Members(order) {
          var i :| 0 <= i < |order| && order[i] == u;
        }
        NothingElseReached(d, Members(order), start, v);
      }
    } else {
      SweepGoesOn(d, order, head);
      ExpandNext(d, start, order, head);
      hide Linked, Reaches, Expanded, NeighboursOf;
      SweepIsExact(d, start, WithNew(order, NeighboursOf(d, order[head])), head + 1);
    }
  }

  /** `reachable_from` lists exactly the nodes some path reaches, each once, the start first. */
  lemma ReachableOrderIsExact(d: MapData, start: Id)
    requires FindNode(d, start).Some?
    ensures var order := ReachableOrder(d, start);
            order != [] && order[0] == start && Distinct(order) && forall v :: v in order <==> Reaches(d, start, v)
  {
    ReachesItself(d, start);
    hide Reaches, Linked;
    SweepIsExact(d, start, [start], 0);
  }

  /** Every listed node but the first is linked from an expanded one, and whatever links to a node links no
      earlier than something that links to each node listed before it. */
  ghost predicate InTurn(d: MapData, order: seq<Id>, head: nat)
    requires head <= |order|
  {
    && (forall i :: 0 < i < |order| ==> LinkedBy(d, order, head, order[i]))
    && (forall i, j, b :: 0 < i < j < |order| && 0 <= b < head && Linked(d, order[b], order[j]) ==> LinkedBy(d, order, b + 1, order[i]))
  }

  /** One of the first `n` listed nodes links to `v`. */
  ghost predicate LinkedBy(d: MapData, order: seq<Id>, n: nat, v: Id)
    requires n <= |order|
  {
    exists a :: 0 <= a < n && Linked(d, order[a], v)
  }

  lemma StaysLinked(d: MapData, order: seq<Id>, more: seq<Id>, n: nat, m: nat, v: Id)
    requires order <= more && n <= |order| && n <= m <= |more| && LinkedBy(d, order, n, v)
    ensures LinkedBy(d, more, m, v)
  {
    hide Linked;
    var a :| 0 <= a < n && Linked(d, order[a], v);
    assert more[a] == order[a];
  }

  lemma ExpandInTurn(d: MapData, order: seq<Id>, head: nat, met: seq<Id>, more: seq<Id>)
    requires head < |order| && Expanded(d, order, head) && InTurn(d, order, head) && order <= more && Distinct(more)
    requires forall v :: v in met <==> Linked(d, order[head], v)
    requires forall x :: x in more <==> x in order || x in met
    ensures InTurn(d, more, head + 1)
  {
    hide Linked, LinkedBy;
    forall i | 0 < i < |more| ensures LinkedBy(d, more, head + 1, more[i]) {
      if i < |order| {
        assert more[i] == order[i];
        StaysLinked(d, order, more, head, head + 1, order[i]);
      } else {
        NewIsMet(order, met, more, i);
        LinkedHere(d, more, head, more[i]);
      }
    }
    forall i, j, b | 0 < i < j < |more| && 0 <= b < head + 1 && Linked(d, more[b], more[j]) ensures LinkedBy(d, more, b + 1, more[i]) {
      assert more[b] == order[b];
      if b == head {
        assert LinkedBy(d, more, head + 1, more[i]);
      } else {
        assert more[j] in order;
        NewIsNotOld(order, more, j);
        assert more[i] == order[i] && more[j] == order[j];
        StaysLinked(d, order, more, b + 1, b + 1, order[i]);
      }
    }
  }

  lemma LinkedHere(d: MapData, order: seq<Id>, a: nat, v: Id)
    requires a < |order| && Linked(d, order[a], v)
    ensures LinkedBy(d, order, a + 1, v)
  {
    hide Linked;
  }

  lemma NewIsMet(order: seq<Id>, met: seq<Id>, more: seq<Id>, i: nat)
    requires order <= more && Distinct(more) && |order| <= i < |more|
    requires forall x :: x in more <==> x in order || x in met
    ensures more[i] in met
  {
    assert more[i] in more;
    assert forall k :: 0 <= k < |order| ==> more[k] == order[k];
  }

  lemma NewIsNotOld(order: seq<Id>, more: seq<Id>, j: nat)
    requires order <= more && Distinct(more) && j < |more| && more[j] in order
    ensures j < |order|
  {
    var k :| 0 <= k < |order| && order[k] == more[j];
    assert more[k] == order[k];
  }

  lemma {:induction false} SweepIsInTurn(d: MapData, order: seq<Id>, head: nat)
    requires head <= |order| && Distinct(order) && Expanded(d, order, head) && InTurn(d, order, head)
    ensures var all := Sweep(d, order, head); InTurn(d, all, |all|)
    decreases Ends(d) - Members(order), |order| - head
  {
    if head < |order| {
      var met := NeighboursOf(d, order[head]);
      var more := WithNew(order, met);
      SweepGoesOn(d, order, head);
      forall v ensures v in met <==> Linked(d, order[head], v) { NeighboursExactly(d, order[head], v); }
      hide Linked, InTurn, Expanded, NeighboursOf;
      ExpandWith(d, order, head, met, more);
      ExpandInTurn(d, order, head, met, more);
      SweepIsInTurn(d, more, head + 1);
    }
  }

  /** The list is breadth-first: no node comes before one that fewer steps reach. */
  lemma NearerNodesComeFirst(d: MapData, start: Id, i: nat, j: nat, p: seq<Id>)
    requires FindNode(d, start).Some? && i < j < |ReachableOrder(d, start)|
    requires IsPathFrom(d, p, start, ReachableOrder(d, start)[j])
    ensures exists q :: IsPathFrom(d, q, start, ReachableOrder(d, start)[i]) && |q| <= |p|
  {
    ReachableOrderIsExact(d, start);
    SweepIsInTurn(d, [start], 0);
    hide Linked, IsPathFrom, Reaches, InTurn;
    NearerInTurn(d, start, ReachableOrder(d, start), i, j, p);
  }

  lemma {:induction false} NearerInTurn(d: MapData, start: Id, order: seq<Id>, i: nat, j: nat, p: seq<Id>)
    requires InTurn(d, order, |order|) && Distinct(order) && (forall v :: Reaches(d, start, v) ==> v in order)
    requires i < j < |order| && order[0] == start && IsPathFrom(d, p, start, order[j])
    ensures exists q :: IsPathFrom(d, q, start, order[i]) && |q| <= |p|
    decreases |p|
  {
    hide Linked, InTurn;
    if i == 0 {
      assert IsPathFrom(d, [start], start, order[0]);
    } else {
      var before, u := LastLeg(d, p, start, order[j]);
      assert Reaches(d, start, u);
      var b :| 0 <= b < |order| && order[b] == u;
      EarlierLink(d, order, i, j, b);
      var a :| 0 <= a <= b && Linked(d, order[a], order[i]);
      hide IsPathFrom;
      var q := before;
      if a < b {
        NearerInTurn(d, start, order, a, b, before);
        q :| IsPathFrom(d, q, start, order[a]) && |q| <= |before|;
      }
      OneStepMore(d, q, start, order[a], order[i]);
    }
  }

  lemma LastLeg(d: MapData, p: seq<Id>, start: Id, v: Id) returns (before: seq<Id>, u: Id)
    requires IsPathFrom(d, p, start, v) && v != start
    ensures IsPathFrom(d, before, start, u) && Linked(d, u, v) && |before| == |p| - 1
  {
    hide Linked;
    before := p[..|p| - 1];
    u := p[|p| - 2];
  }

  lemma OneStepMore(d: MapData, q: seq<Id>, start: Id, u: Id, v: Id)
    requires IsPathFrom(d, q, start, u) && Linked(d, u, v)
    ensures IsPathFrom(d, q + [v], start, v)
  {
    hide Linked;
  }

  lemma EarlierLink(d: MapData, order: seq<Id>, i: nat, j: nat, b: nat)
    requires InTurn(d, order, |order|) && 0 < i < j < |order| && b < |order| && Linked(d, order[b], order[j])
    ensures exists a :: 0 <= a <= b && Linked(d, order[a], order[i])
  {
    hide Linked;
    assert LinkedBy(d, order, b + 1, order[i]);
  }

  method ReachableFrom(world: Map, start: Id) returns (visited: seq<Id>)
    requires world.Valid()
    ensures visited == ReachableOrder(world.data, start)
  {
    hide First, NeighboursOf, Ends, MapIndex.Map.Valid, Sweep, WithNew;
    visited := [];
    if world.NodeAt(start).None? {
      return;
    }
    var d := world.data;
    var seen := {start};
    var queue := [start];
    visited := [start];
    ghost var head: nat := 0;
    while queue != []
      invariant head <= |visited| && queue == visited[head..] && seen == Members(visited)
      invariant Sweep(d, visited, head) == Sweep(d, [start], 0)
      decreases Ends(d) - Members(visited), |queue|
    {
      ghost var before := visited;
      var current := queue[0];
      queue := queue[1..];
      var met := Neighbours(world, current);
      NoneMet(before, met);
      for i := 0 to |met|
        invariant visited == WithNew(before, met[..i])
        invariant queue == visited[head + 1..] && seen == Members(visited)
      {
        NextMet(before, met, i);
        if met[i] !in seen {
          seen := seen + {met[i]};
          queue := queue + [met[i]];
          visited := visited + [met[i]];
        }
      }
      assert met[..|met|] == met;
      SweepUnrolls(d, before, head);
      SweepGoesOn(d, before, head);
      head := head + 1;
    }
    SweepEnds(d, visited);
  }

  lemma NoneMet(order: seq<Id>, met: seq<Id>)
    ensures WithNew(order, met[..0]) == order
  {
  }

  lemma NextMet(order: seq<Id>, met: seq<Id>, i: nat)
    requires i < |met|
    ensures order <= WithNew(order, met[..i])
    ensures WithNew(order, met[..i + 1]) ==
      if met[i] in WithNew(order, met[..i]) then WithNew(order, met[..i]) else WithNew(order, met[..i]) + [met[i]]
  {
    assert met[..i + 1][..i] == met[..i];
  }

  lemma SweepUnrolls(d: MapData, order: seq<Id>, head: nat)
    requires head < |order|
    ensures order <= WithNew(order, NeighboursOf(d, order[head]))
    ensures Sweep(d, order, head) == Sweep(d, WithNew(order, NeighboursOf(d, order[head])), head + 1)
  {
    hide NeighboursOf, WithNew;
  }

  lemma SweepEnds(d: MapData, order: seq<Id>)
    ensures Sweep(d, order, |order|) == order
  {
  }

  // ------------------------------------------------------------- one goal

  /** Everything linked from a node no longer queued has been seen. */
  ghost predicate Drained(d: MapData, seen: set<Id>, queue: seq<Id>) {
    forall u, v :: u in seen && u !in queue && Linked(d, u, v) ==> v in seen
  }

  /** What the search for one goal keeps between rounds. */
  ghost predicate Searching(d: MapData, start: Id, goal: Id, seen: set<Id>, queue: seq<Id>) {
    && start in seen && goal !in seen
    && (forall x :: x in seen ==> Reaches(d, start, x))
    && (forall x :: x in queue ==> x in seen)
    && Drained(d, seen, queue)
  }

  /** The neighbours met so far have been seen; every other drained node still is. */
  ghost predicate Meeting(d: MapData, start: Id, goal: Id, seen: set<Id>, queue: seq<Id>, current: Id, met: seq<Id>) {
    && start in seen && goal !in seen && current in seen
    && (forall x :: x in seen ==> Reaches(d, start, x))
    && (forall x :: x in queue ==> x in seen)
    && (forall u, v :: u in seen && u !in queue && u != current && Linked(d, u, v) ==> v in seen)
    && (forall x :: x in met ==> x in seen)
  }

  lemma MeetNext(d: MapData, start: Id, goal: Id, seen: set<Id>, queue: seq<Id>, current: Id, met: seq<Id>, next: Id)
    requires Meeting(d, start, goal, seen, queue, current, met) && Linked(d, current, next) && next != goal
    ensures next !in seen ==> Meeting(d, start, goal, seen + {next}, queue + [next], current, met + [next])
    ensures next in seen ==> Meeting(d, start, goal, seen, queue, current, met + [next])
  {
    ReachesFurther(d, start, current, next);
    hide Linked, Reaches;
  }

  lemma MetAll(d: MapData, start: Id, goal: Id, seen: set<Id>, queue: seq<Id>, current: Id)
    requires Meeting(d, start, goal, seen, queue, current, NeighboursOf(d, current))
    ensures Searching(d, start, goal, seen, queue)
  {
    forall v ensures v in NeighboursOf(d, current) <==> Linked(d, current, v) { NeighboursExactly(d, current, v); }
    hide Linked, Reaches, NeighboursOf;
  }

  lemma DrainedFindsNothing(d: MapData, start: Id, goal: Id, seen: set<Id>)
    requires Searching(d, start, goal, seen, [])
    ensures !Reaches(d, start, goal)
  {
    hide Linked, Reaches;
    NothingElseReached(d, seen, start, goal);
  }

  lemma StartSearching(d: MapData, start: Id, goal: Id)
    requires start != goal
    ensures Searching(d, start, goal, {start}, [start])
  {
    ReachesItself(d, start);
    hide Linked, Reaches;
  }

  lemma StartMeeting(d: MapData, start: Id, goal: Id, seen: set<Id>, queue: seq<Id>)
    requires queue != [] && Searching(d, start, goal, seen, queue)
    ensures Meeting(d, start, goal, seen, queue[1..], queue[0], [])
  {
    hide Linked, Reaches;
    assert forall x :: x in queue <==> x == queue[0] || x in queue[1..] by {
      assert queue == [queue[0]] + queue[1..];
    }
  }

  /** True exactly when both nodes are on the map and some path leads from one to the other. */
  method IsReachable(world: Map, start: Id, goal: Id) returns (found: bool)
    requires world.Valid()
    ensures found <==> FindNode(world.data, start).Some? && FindNode(world.data, goal).Some? && Reaches(world.data, start, goal)
  {
    hide First, NeighboursOf, Ends, MapIndex.Map.Valid, Reaches, Linked, Searching, Meeting;
    if world.NodeAt(start).None? || world.NodeAt(goal).None? {
      return false;
    }
    var d := world.data;
    if start == goal {
      ReachesItself(d, start);
      return true;
    }
    var seen := {start};
    var queue := [start];
    StartSearching(d, start, goal);
    while queue != []
      invariant Searching(d, start, goal, seen, queue)
      decreases Ends(d) - seen, |queue|
    {
      StartMeeting(d, start, goal, seen, queue);
      ghost var queued, before := |queue|, seen;
      var current := queue[0];
      queue := queue[1..];
      var met := Neighbours(world, current);
      for i := 0 to |met|
        invariant Meeting(d, start, goal, seen, queue, current, met[..i])
        invariant before <= seen
        invariant if seen == before then |queue| < queued else Ends(d) - seen < Ends(d) - before
      {
        var next := met[i];
        NeighboursExactly(d, current, next);
        assert met[..i + 1] == met[..i] + [next];
        if next == goal {
          GoalMet(d, start, goal, seen, queue, current, met[..i]);
          return true;
        }
        MeetNext(d, start, goal, seen, queue, current, met[..i], next);
        if next !in seen {
          LinkedEnds(d, current, next);
          seen := seen + {next};
          queue := queue + [next];
        }
      }
      assert met[..|met|] == met;
      MetAll(d, start, goal, seen, queue, current);
    }
    DrainedFindsNothing(d, start, goal, seen);
    return false;
  }

  lemma GoalMet(d: MapData, start: Id, goal: Id, seen: set<Id>, queue: seq<Id>, current: Id, met: seq<Id>)
    requires Meeting(d, start, goal, seen, queue, current, met) && Linked(d, current, goal)
    ensures Reaches(d, start, goal)
  {
    hide Linked, Reaches;
    ReachesFurther(d, start, current, goal);
  }
}
