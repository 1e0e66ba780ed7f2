/** The detector itself: six passes over grouped claims, then the reduction, each proved to compute
    the order-free set or list of module Contentions. */
module Detection {
  import opened Core
  import opened Ordering
  import opened Graph
  import opened MapIndex
  import opened Claims
  import opened Routes
  import opened ConflictRules
  import opened RouteReading
  import opened Contentions

  // ------------------------------------------------------------- comparing every pair once

  /** The rule found `c` in some pair of positions compared before reaching (i, j). */
  ghost predicate FoundBefore<T(!new)>(xs: seq<T>, rule: (T, T) -> Option<Candidate>, i: nat, j: nat, c: Candidate) {
    exists p, q :: 0 <= p < q < |xs| && (p < i || (p == i && q < j)) && rule(xs[p], xs[q]) == Some(c)
  }

  /** `out` is `base` and everything found before (i, j). */
  ghost predicate Holds<T(!new)>(out: seq<Candidate>, base: seq<Candidate>, xs: seq<T>,
                                 rule: (T, T) -> Option<Candidate>, i: nat, j: nat) {
    forall c :: c in out <==> c in base || FoundBefore(xs, rule, i, j, c)
  }

  ghost predicate Symmetric<T(!new)>(rule: (T, T) -> Option<Candidate>) {
    (forall x, y :: rule(x, y) == rule(y, x)) && forall x :: rule(x, x) == None
  }

  lemma NothingFoundYet<T(!new)>(base: seq<Candidate>, xs: seq<T>, rule: (T, T) -> Option<Candidate>)
    ensures Holds(base, base, xs, rule, 0, 1)
  {
  }

  lemma NextPair<T(!new)>(before: seq<Candidate>, after: seq<Candidate>, base: seq<Candidate>, xs: seq<T>,
                          rule: (T, T) -> Option<Candidate>, i: nat, j: nat)
    requires i < j < |xs| && Holds(before, base, xs, rule, i, j)
    requires after == before + match rule(xs[i], xs[j]) case Some(c) => [c] case None => []
    ensures Holds(after, base, xs, rule, i, j + 1)
  {
    forall c ensures FoundBefore(xs, rule, i, j + 1, c) <==> FoundBefore(xs, rule, i, j, c) || rule(xs[i], xs[j]) == Some(c) {
      if FoundBefore(xs, rule, i, j + 1, c) {
        var p, q :| 0 <= p < q < |xs| && (p < i || (p == i && q < j + 1)) && rule(xs[p], xs[q]) == Some(c);
        assert (p == i && q == j) || FoundBefore(xs, rule, i, j, c);
      }
      if FoundBefore(xs, rule, i, j, c) {
        var p, q :| 0 <= p < q < |xs| && (p < i || (p == i && q < j)) && rule(xs[p], xs[q]) == Some(c);
        assert FoundBefore(xs, rule, i, j + 1, c);
      }
      if rule(xs[i], xs[j]) == Some(c) {
        assert FoundBefore(xs, rule, i, j + 1, c);
      }
    }
    hide FoundBefore;
  }

  lemma NextRow<T(!new)>(out: seq<Candidate>, base: seq<Candidate>, xs: seq<T>, rule: (T, T) -> Option<Candidate>,
                         i: nat)
    requires i < |xs| && Holds(out, base, xs, rule, i, |xs|)
    ensures Holds(out, base, xs, rule, i + 1, i + 2)
  {
    forall c ensures FoundBefore(xs, rule, i, |xs|, c) <==> FoundBefore(xs, rule, i + 1, i + 2, c) {
      if FoundBefore(xs, rule, i, |xs|, c) {
        var p, q :| 0 <= p < q < |xs| && (p < i || (p == i && q < |xs|)) && rule(xs[p], xs[q]) == Some(c);
        assert FoundBefore(xs, rule, i + 1, i + 2, c);
      }
      if FoundBefore(xs, rule, i + 1, i + 2, c) {
        var p, q :| 0 <= p < q < |xs| && (p < i + 1 || (p == i + 1 && q < i + 2)) && rule(xs[p], xs[q]) == Some(c);
        assert FoundBefore(xs, rule, i, |xs|, c);
      }
    }
    hide FoundBefore;
  }

  /** Comparing each pair of positions once finds all that comparing everything with everything would. */
  lemma AllPairs<T(!new)>(out: seq<Candidate>, base: seq<Candidate>, xs: seq<T>, rule: (T, T) -> Option<Candidate>)
    requires Holds(out, base, xs, rule, |xs|, |xs| + 1) && Symmetric(rule)
    ensures Listed(out) == Listed(base) + Between(Listed(xs), Listed(xs), rule)
  {
    forall c ensures FoundBefore(xs, rule, |xs|, |xs| + 1, c) <==> c in Between(Listed(xs), Listed(xs), rule) {
      if c in Between(Listed(xs), Listed(xs), rule) {
        var x, y :| x in xs && y in xs && rule(x, y) == Some(c);
        var p :| 0 <= p < |xs| && xs[p] == x;
        var q :| 0 <= q < |xs| && xs[q] == y;
        assert p != q;
        assert rule(xs[q], xs[p]) == Some(c);
        assert FoundBefore(xs, rule, |xs|, |xs| + 1, c);
      }
      if FoundBefore(xs, rule, |xs|, |xs| + 1, c) {
        var p, q :| 0 <= p < q < |xs| && rule(xs[p], xs[q]) == Some(c);
        assert xs[p] in Listed(xs) && xs[q] in Listed(xs);
      }
    }
    hide FoundBefore, Between;
  }

  // ------------------------------------------------------------- grouping

  /** `groups` splits `xs` by key. */
  ghost predicate IsGrouping<T(!new)>(groups: map<Id, seq<T>>, xs: seq<T>, key: T -> Id) {
    && (forall x :: x in xs ==> key(x) in groups && x in groups[key(x)])
    && (forall k, x :: k in groups && x in groups[k] ==> x in xs && key(x) == k)
    && (forall k :: k in groups ==> groups[k] != [])
  }

  method GroupBy<T(!new)>(xs: seq<T>, key: T -> Id) returns (groups: map<Id, seq<T>>)
    ensures IsGrouping(groups, xs, key)
  {
    groups := map[];
    for i := 0 to |xs|
      invariant IsGrouping(groups, xs[..i], key)
    {
      ghost var before := groups;
      var k := key(xs[i]);
      groups := groups[k := (if k in groups then groups[k] else []) + [xs[i]]];
      GroupingGrows(before, xs[..i], key, xs[i]);
      assert xs[..i + 1] == xs[..i] + [xs[i]];
    }
    assert xs[..|xs|] == xs;
  }

  lemma GroupingGrows<T(!new)>(groups: map<Id, seq<T>>, xs: seq<T>, key: T -> Id, x: T)
    requires IsGrouping(groups, xs, key)
    ensures IsGrouping(groups[key(x) := (if key(x) in groups then groups[key(x)] else []) + [x]], xs + [x], key)
  {
  }

  lemma GroupIs<T(!new)>(groups: map<Id, seq<T>>, xs: seq<T>, key: T -> Id, k: Id)
    requires IsGrouping(groups, xs, key) && k in groups
    ensures forall x :: x in groups[k] <==> x in xs && key(x) == k
  {
  }

  /** `out` is `base` and what the rule finds inside the first `n` groups. */
  ghost predicate GroupsDone<T(!new)>(out: seq<Candidate>, base: seq<Candidate>, groups: map<Id, seq<T>>, keys: seq<Id>,
                                      rule: (T, T) -> Option<Candidate>, n: nat)
    requires n <= |keys| && forall k :: k in keys ==> k in groups
  {
    forall c :: c in out <==> c in base || exists j :: 0 <= j < n && c in Within(groups, keys[j], rule)
  }

  ghost function Within<T(!new)>(groups: map<Id, seq<T>>, k: Id, rule: (T, T) -> Option<Candidate>): set<Candidate>
    requires k in groups
  {
    Between(Listed(groups[k]), Listed(groups[k]), rule)
  }

  lemma NextGroup<T(!new)>(before: seq<Candidate>, after: seq<Candidate>, base: seq<Candidate>, groups: map<Id, seq<T>>,
                           keys: seq<Id>,
                           rule: (T, T) -> Option<Candidate>, n: nat)
    requires n < |keys| && forall k :: k in keys ==> k in groups
    requires GroupsDone(before, base, groups, keys, rule, n)
    requires Listed(after) == Listed(before) + Within(groups, keys[n], rule)
    ensures GroupsDone(after, base, groups, keys, rule, n + 1)
  {
    hide Within;
    forall c ensures c in after <==> c in base || exists j :: 0 <= j < n + 1 && c in Within(groups, keys[j], rule) {
      assert c in after <==> c in Listed(after);
      assert c in before <==> c in Listed(before);
      if j :| 0 <= j < n + 1 && c in Within(groups, keys[j], rule) {
        assert j == n || c in before;
      }
    }
  }

  /** A rule that only ever relates claims of one key loses nothing by looking group by group. */
  lemma AllGroups<T(!new)>(out: seq<Candidate>, base: seq<Candidate>, groups: map<Id, seq<T>>, keys: seq<Id>,
                           xs: seq<T>, key: T -> Id,
                           rule: (T, T) -> Option<Candidate>)
    requires IsGrouping(groups, xs, key) && forall k :: k in keys <==> k in groups
    requires GroupsDone(out, base, groups, keys, rule, |keys|)
    requires forall x, y :: rule(x, y).Some? ==> key(x) == key(y)
    ensures Listed(out) == Listed(base) + Between(Listed(xs), Listed(xs), rule)
  {
    forall c ensures (exists j :: 0 <= j < |keys| && c in Within(groups, keys[j], rule)) <==> c in Between(Listed(xs), Listed(xs), rule) {
      if c in Between(Listed(xs), Listed(xs), rule) {
        var x, y :| x in xs && y in xs && rule(x, y) == Some(c);
        assert key(x) == key(y) && key(x) in keys;
        var j :| 0 <= j < |keys| && keys[j] == key(x);
        assert c in Within(groups, keys[j], rule);
      }
      if j :| 0 <= j < |keys| && c in Within(groups, keys[j], rule) {
        var x, y :| x in groups[keys[j]] && y in groups[keys[j]] && rule(x, y) == Some(c);
        assert keys[j] in groups;
        assert x in Listed(xs) && y in Listed(xs);
      }
    }
    hide IsGrouping, Between;
  }

  method OccupanciesOf<T>(claims: seq<T>, asOccupancy: T -> Occupancy) returns (holders: seq<Occupancy>)
    ensures |holders| == |claims| && forall i :: 0 <= i < |claims| ==> holders[i] == asOccupancy(claims[i])
  {
    holders := [];
    for i := 0 to |claims|
      invariant |holders| == i && forall j :: 0 <= j < i ==> holders[j] == asOccupancy(claims[j])
    {
      holders := holders + [asOccupancy(claims[i])];
    }
  }

  method AddCandidate(out: seq<Candidate>, first: Id, second: Id, resource: Id, kind: ConflictType,
                      overlap: Option<TimeWindow>)
    returns (updated: seq<Candidate>)
    ensures updated == out + match MakeCandidate(first, second, resource, kind, overlap) case Some(c) => [c] case None => []
  {
    if overlap.None? || resource == EMPTY_ID || first == second {
      return out;
    }
    var ordered := first < second;
    return out + [Candidate(if ordered then first else second, if ordered then second else first, resource, kind, overlap.value)];
  }

  // ------------------------------------------------------------- nodes

  lemma OverlapIsSymmetric(a: TimeWindow, b: TimeWindow)
    ensures OverlapOf(a, b) == OverlapOf(b, a)
  {
  }

  lemma NodeRuleIsSymmetric(d: MapData, visits: set<NodeVisit>)
    ensures Symmetric(NodeRule(d, visits))
    ensures forall x, y :: NodeRule(d, visits)(x, y).Some? ==> x.node == y.node
  {
    forall x: NodeVisit, y: NodeVisit ensures NodePair(d, visits, x, y) == NodePair(d, visits, y, x) {
      OverlapIsSymmetric(x.window, y.window);
      OverfullIsSymmetric(OfVisit(x), OfVisit(y), VisitsAt(visits, x.node), NodeCapacity(d, x.node));
      hide Overfull, NodeCapacity, VisitsAt, OverlapOf;
    }
    hide Overfull, NodeCapacity, VisitsAt, OverlapOf;
  }

  function VisitNode(v: NodeVisit): Id { v.node }

  lemma VisitHolders(group: seq<NodeVisit>, visits: set<NodeVisit>, node: Id, holders: seq<Occupancy>)
    requires forall v :: v in group <==> v in visits && v.node == node
    requires |holders| == |group| && forall i :: 0 <= i < |group| ==> holders[i] == OfVisit(group[i])
    ensures Listed(holders) == VisitsAt(visits, node)
  {
    hide OfVisit;
    forall h | h in VisitsAt(visits, node) ensures h in holders {
      var v :| v in visits && v.node == node && OfVisit(v) == h;
      var i :| 0 <= i < |group| && group[i] == v;
      assert holders[i] == h;
    }
  }

  /** The visits of one node, each pair once. */
  method CompareVisits(world: Map, group: seq<NodeVisit>, node: Id, ghost visits: set<NodeVisit>, out: seq<Candidate>)
    returns (updated: seq<Candidate>)
    requires world.Valid()
    requires forall v :: v in group <==> v in visits && v.node == node
    ensures Listed(updated) == Listed(out) + Between(Listed(group), Listed(group), NodeRule(world.data, visits))
  {
    hide Overfull, OverlapOf, NodeConflict, MapIndex.Map.Valid, VisitsAt, Holds, Between, FindNode, MakeCandidate,
         Symmetric;
    var found := world.NodeAt(node);
    var capacity := if found.Some? then found.value.capacity else 1;
    var holders := OccupanciesOf(group, OfVisit);
    ghost var rule := NodeRule(world.data, visits);
    VisitHolders(group, visits, node, holders);
    NodeRuleIsSymmetric(world.data, visits);
    updated := out;
    NothingFoundYet(out, group, rule);
    for i := 0 to |group|
      invariant Holds(updated, out, group, rule, i, i + 1)
    {
      for j := i + 1 to |group|
        invariant Holds(updated, out, group, rule, i, j)
      {
        ghost var before := updated;
        assert group[i] in group && group[j] in group && holders[i] in holders && holders[j] in holders;
        if NodeConflict(group[i], group[j]) {
          var full := IsCapacityConflict(holders[i], holders[j], holders, capacity);
          if full {
            updated := AddCandidate(updated, group[i].robot, group[j].robot, node, NodeClash,
                                    OverlapOf(group[i].window, group[j].window));
          }
        }
        NextPair(before, updated, out, group, rule, i, j);
      }
      NextRow(updated, out, group, rule, i);
    }
    AllPairs(updated, out, group, rule);
  }

  method DetectNodeConflicts(world: Map, visits: seq<NodeVisit>, out: seq<Candidate>) returns (updated: seq<Candidate>)
    requires world.Valid()
    ensures Listed(updated) == Listed(out) + Between(Listed(visits), Listed(visits), NodeRule(world.data, Listed(visits)))
  {
    hide MapIndex.Map.Valid, Between, IsGrouping, GroupsDone, InIdOrder, NodeRule;
    ghost var rule := NodeRule(world.data, Listed(visits));
    NodeRuleIsSymmetric(world.data, Listed(visits));
    var groups := GroupBy(visits, VisitNode);
    var nodes := Walk(groups.Keys);
    updated := out;
    NoGroupsYet(out, groups, nodes, rule);
    for i := 0 to |nodes|
      invariant GroupsDone(updated, out, groups, nodes, rule, i)
    {
      ghost var before := updated;
      assert nodes[i] in nodes;
      GroupIs(groups, visits, VisitNode, nodes[i]);
      updated := CompareVisits(world, groups[nodes[i]], nodes[i], Listed(visits), updated);
      NextGroup(before, updated, out, groups, nodes, rule, i);
    }
    AllGroups(updated, out, groups, nodes, visits, VisitNode, rule);
  }

  lemma NoGroupsYet<T(!new)>(base: seq<Candidate>, groups: map<Id, seq<T>>, keys: seq<Id>,
                             rule: (T, T) -> Option<Candidate>)
    requires forall k :: k in keys ==> k in groups
    ensures GroupsDone(base, base, groups, keys, rule, 0)
  {
  }

  // ------------------------------------------------------------- edges

  lemma EdgeRuleIsSymmetric(d: MapData, traversals: set<EdgeTraversal>)
    ensures Symmetric(EdgeRule(d, traversals))
    ensures forall x, y :: EdgeRule(d, traversals)(x, y).Some? ==> x.edge == y.edge
  {
    forall x: EdgeTraversal, y: EdgeTraversal ensures EdgePair(d, traversals, x, y) == EdgePair(d, traversals, y, x) {
      OverlapIsSymmetric(x.window, y.window);
      EdgeRulesPartition(x, y);
      OverfullIsSymmetric(OfTraversal(x), OfTraversal(y), TraversalsOf(traversals, x.edge),
                          CapacityOf(d, TraversedResource(d, x.edge)));
      hide Overfull, CapacityOf, TraversedResource, TraversalsOf, OverlapOf;
    }
    hide Overfull, CapacityOf, TraversedResource, TraversalsOf, OverlapOf;
  }

  function TraversedEdge(t: EdgeTraversal): Id { t.edge }

  lemma TraversalHolders(group: seq<EdgeTraversal>, traversals: set<EdgeTraversal>, edge: Id, holders: seq<Occupancy>)
    requires forall t :: t in group <==> t in traversals && t.edge == edge
    requires |holders| == |group| && forall i :: 0 <= i < |group| ==> holders[i] == OfTraversal(group[i])
    ensures Listed(holders) == TraversalsOf(traversals, edge)
  {
    hide OfTraversal;
    forall h | h in TraversalsOf(traversals, edge) ensures h in holders {
      var t :| t in traversals && t.edge == edge && OfTraversal(t) == h;
      var i :| 0 <= i < |group| && group[i] == t;
      assert holders[i] == h;
    }
  }

  /** The traversals of one edge, each pair once. */
  method CompareTraversals(world: Map, group: seq<EdgeTraversal>, edge: Id, ghost traversals: set<EdgeTraversal>,
                           out: seq<Candidate>)
    returns (updated: seq<Candidate>)
    requires world.Valid() && NamesResources(world.data, traversals) && group != []
    requires forall t :: t in group <==> t in traversals && t.edge == edge
    ensures Listed(updated) == Listed(out) + Between(Listed(group), Listed(group), EdgeRule(world.data, traversals))
  {
    hide Overfull, OverlapOf, ClassifyEdgeConflict, MapIndex.Map.Valid, TraversalsOf, Holds, Between, CapacityOf,
         MakeCandidate,
         Symmetric, TraversedResource;
    assert group[0] in group;
    var resource := group[0].resource;
    var capacity := world.CapacityAt(resource);
    var holders := OccupanciesOf(group, OfTraversal);
    ghost var rule := EdgeRule(world.data, traversals);
    TraversalHolders(group, traversals, edge, holders);
    EdgeRuleIsSymmetric(world.data, traversals);
    updated := out;
    NothingFoundYet(out, group, rule);
    for i := 0 to |group|
      invariant Holds(updated, out, group, rule, i, i + 1)
    {
      for j := i + 1 to |group|
        invariant Holds(updated, out, group, rule, i, j)
      {
        ghost var before := updated;
        assert group[i] in group && group[j] in group && holders[i] in holders && holders[j] in holders;
        var kind := ClassifyEdgeConflict(group[i], group[j]);
        if kind.Some? {
          var full := IsCapacityConflict(holders[i], holders[j], holders, capacity);
          if full {
            updated := AddCandidate(updated, group[i].robot, group[j].robot, resource, kind.value,
                                    OverlapOf(group[i].window, group[j].window));
          }
        }
        NextPair(before, updated, out, group, rule, i, j);
      }
      NextRow(updated, out, group, rule, i);
    }
    AllPairs(updated, out, group, rule);
  }

  method DetectEdgeConflicts(world: Map, traversals: seq<EdgeTraversal>,
                             out: seq<Candidate>) returns (updated: seq<Candidate>)
    requires world.Valid() && NamesResources(world.data, Listed(traversals))
    ensures Listed(updated) == Listed(out) + Between(Listed(traversals), Listed(traversals), EdgeRule(world.data, Listed(traversals)))
  {
    hide MapIndex.Map.Valid, Between, GroupsDone, InIdOrder, EdgeRule, NamesResources;
    ghost var rule := EdgeRule(world.data, Listed(traversals));
    EdgeRuleIsSymmetric(world.data, Listed(traversals));
    var groups := GroupBy(traversals, TraversedEdge);
    var edges := Walk(groups.Keys);
    updated := out;
    NoGroupsYet(out, groups, edges, rule);
    for i := 0 to |edges|
      invariant GroupsDone(updated, out, groups, edges, rule, i)
    {
      ghost var before := updated;
      assert edges[i] in edges;
      GroupIs(groups, traversals, TraversedEdge, edges[i]);
      updated := CompareTraversals(world, groups[edges[i]], edges[i], Listed(traversals), updated);
      NextGroup(before, updated, out, groups, edges, rule, i);
    }
    AllGroups(updated, out, groups, edges, traversals, TraversedEdge, rule);
  }

  // ------------------------------------------------------------- corridors

  lemma CorridorKindIsSymmetric(corridor: Corridor, holders: set<Occupancy>, x: CorridorPassage, y: CorridorPassage)
    ensures CorridorKind(corridor, holders, x, y) == CorridorKind(corridor, holders, y, x)
    ensures CorridorKind(corridor, holders, x, x) == None
  {
    OverfullIsSymmetric(OfPassage(x), OfPassage(y), holders, corridor.capacity);
    NeverWithoutMeeting(OfPassage(x), OfPassage(x), holders, corridor.capacity);
    hide Overfull;
  }

  lemma CorridorRuleIsSymmetric(d: MapData, passages: set<CorridorPassage>)
    ensures Symmetric(CorridorRule(d, passages))
    ensures forall x, y :: CorridorRule(d, passages)(x, y).Some? ==> x.corridor == y.corridor
  {
    forall x: CorridorPassage, y: CorridorPassage
      ensures CorridorPair(d, passages, x, y) == CorridorPair(d, passages, y, x)
      ensures CorridorPair(d, passages, x, x) == None
    {
      OverlapIsSymmetric(x.window, y.window);
      if FindCorridor(d, x.corridor).Some? {
        CorridorKindIsSymmetric(FindCorridor(d, x.corridor).value, PassagesThrough(passages, x.corridor), x, y);
      }
      hide CorridorKind, FindCorridor, PassagesThrough, OverlapOf;
    }
    hide CorridorKind, FindCorridor, PassagesThrough, OverlapOf;
  }

  function PassageCorridor(p: CorridorPassage): Id { p.corridor }

  lemma PassageHolders(group: seq<CorridorPassage>, passages: set<CorridorPassage>, corridor: Id,
                       holders: seq<Occupancy>)
    requires forall p :: p in group <==> p in passages && p.corridor == corridor
    requires |holders| == |group| && forall i :: 0 <= i < |group| ==> holders[i] == OfPassage(group[i])
    ensures Listed(holders) == PassagesThrough(passages, corridor)
  {
    hide OfPassage;
    forall h | h in PassagesThrough(passages, corridor) ensures h in holders {
      var p :| p in passages && p.corridor == corridor && OfPassage(p) == h;
      var i :| 0 <= i < |group| && group[i] == p;
      assert holders[i] == h;
    }
  }

  /** How two passages of a corridor collide, if they do. */
  method ClassifyPassages(corridor: Corridor, holders: seq<Occupancy>, x: CorridorPassage, y: CorridorPassage)
    returns (kind: Option<ConflictType>)
    requires OfPassage(x) in holders && OfPassage(y) in holders
    ensures kind == CorridorKind(corridor, Listed(holders), x, y)
  {
    hide Overfull;
    if CorridorHeadOn(corridor, x, y) {
      return Some(HeadOn);
    }
    var full := IsCapacityConflict(OfPassage(x), OfPassage(y), holders, corridor.capacity);
    return if full then Some(CorridorClash) else None;
  }

  /** The passages through one corridor, each pair once. */
  method ComparePassages(world: Map, group: seq<CorridorPassage>, corridor: Id, ghost passages: set<CorridorPassage>,
                         out: seq<Candidate>)
    returns (updated: seq<Candidate>)
    requires world.Valid()
    requires forall p :: p in group <==> p in passages && p.corridor == corridor
    ensures Listed(updated) == Listed(out) + Between(Listed(group), Listed(group), CorridorRule(world.data, passages))
  {
    hide CorridorKind, OverlapOf, MapIndex.Map.Valid, PassagesThrough, Holds, Between, FindCorridor, MakeCandidate,
         Symmetric;
    ghost var rule := CorridorRule(world.data, passages);
    var found := world.CorridorAt(corridor);
    if found.None? {
      UnknownCorridor(world.data, group, corridor, passages);
      return out;
    }
    var holders := OccupanciesOf(group, OfPassage);
    PassageHolders(group, passages, corridor, holders);
    CorridorRuleIsSymmetric(world.data, passages);
    updated := out;
    NothingFoundYet(out, group, rule);
    for i := 0 to |group|
      invariant Holds(updated, out, group, rule, i, i + 1)
    {
      for j := i + 1 to |group|
        invariant Holds(updated, out, group, rule, i, j)
      {
        ghost var before := updated;
        assert group[i] in group && group[j] in group && holders[i] in holders && holders[j] in holders;
        var kind := ClassifyPassages(found.value, holders, group[i], group[j]);
        if kind.Some? {
          updated := AddCandidate(updated, group[i].robot, group[j].robot, corridor, kind.value,
                                  OverlapOf(group[i].window, group[j].window));
        }
        NextPair(before, updated, out, group, rule, i, j);
      }
      NextRow(updated, out, group, rule, i);
    }
    AllPairs(updated, out, group, rule);
  }

  lemma UnknownCorridor(d: MapData, group: seq<CorridorPassage>, corridor: Id, passages: set<CorridorPassage>)
    requires FindCorridor(d, corridor).None? && forall p :: p in group ==> p.corridor == corridor
    ensures Between(Listed(group), Listed(group), CorridorRule(d, passages)) == {}
  {
    hide FindCorridor;
  }

  method DetectCorridorConflicts(world: Map, passages: seq<CorridorPassage>,
                                 out: seq<Candidate>) returns (updated: seq<Candidate>)
    requires world.Valid()
    ensures Listed(updated) == Listed(out) + Between(Listed(passages), Listed(passages), CorridorRule(world.data, Listed(passages)))
  {
    hide MapIndex.Map.Valid, Between, IsGrouping, GroupsDone, InIdOrder, CorridorRule;
    ghost var rule := CorridorRule(world.data, Listed(passages));
    CorridorRuleIsSymmetric(world.data, Listed(passages));
    var groups := GroupBy(passages, PassageCorridor);
    var corridors := Walk(groups.Keys);
    updated := out;
    NoGroupsYet(out, groups, corridors, rule);
    for i := 0 to |corridors|
      invariant GroupsDone(updated, out, groups, corridors, rule, i)
    {
      ghost var before := updated;
      assert corridors[i] in corridors;
      GroupIs(groups, passages, PassageCorridor, corridors[i]);
      updated := ComparePassages(world, groups[corridors[i]], corridors[i], Listed(passages), updated);
      NextGroup(before, updated, out, groups, corridors, rule, i);
    }
    AllGroups(updated, out, groups, corridors, passages, PassageCorridor, rule);
  }

  // ------------------------------------------------------------- intersections

  lemma CrossingIsSymmetric(crossing: Intersection, x: IntersectionCrossing, y: IntersectionCrossing)
    ensures CrossingConflict(crossing, x, y) == CrossingConflict(crossing, y, x)
  {
  }

  lemma CrossingRuleIsSymmetric(d: MapData)
    ensures Symmetric(CrossingRule(d))
    ensures forall x, y :: CrossingRule(d)(x, y).Some? ==> x.intersection == y.intersection
  {
    forall x: IntersectionCrossing, y: IntersectionCrossing ensures CrossingPair(d, x, y) == CrossingPair(d, y, x) {
      OverlapIsSymmetric(x.window, y.window);
      if FindIntersection(d, x.intersection).Some? {
        CrossingIsSymmetric(FindIntersection(d, x.intersection).value, x, y);
      }
      hide CrossingConflict, FindIntersection, OverlapOf;
    }
    hide CrossingConflict, FindIntersection, OverlapOf;
  }

  function CrossedIntersection(c: IntersectionCrossing): Id { c.intersection }

  /** The crossings of one intersection, each pair once. No capacity test: conflict groups decide. */
  method CompareCrossings(world: Map, group: seq<IntersectionCrossing>, intersection: Id, out: seq<Candidate>)
    returns (updated: seq<Candidate>)
    requires world.Valid() && forall c :: c in group ==> c.intersection == intersection
    ensures Listed(updated) == Listed(out) + Between(Listed(group), Listed(group), CrossingRule(world.data))
  {
    hide CrossingConflict, OverlapOf, MapIndex.Map.Valid, Holds, Between, FindIntersection, MakeCandidate, Symmetric;
    ghost var rule := CrossingRule(world.data);
    var found := world.IntersectionAt(intersection);
    if found.None? {
      UnknownIntersection(world.data, group, intersection);
      return out;
    }
    CrossingRuleIsSymmetric(world.data);
    updated := out;
    NothingFoundYet(out, group, rule);
    for i := 0 to |group|
      invariant Holds(updated, out, group, rule, i, i + 1)
    {
      for j := i + 1 to |group|
        invariant Holds(updated, out, group, rule, i, j)
      {
        ghost var before := updated;
        assert group[i] in group && group[j] in group;
        if CrossingConflict(found.value, group[i], group[j]) {
          updated := AddCandidate(updated, group[i].robot, group[j].robot, intersection, Crossing,
                                  OverlapOf(group[i].window, group[j].window));
        }
        NextPair(before, updated, out, group, rule, i, j);
      }
      NextRow(updated, out, group, rule, i);
    }
    AllPairs(updated, out, group, rule);
  }

  lemma UnknownIntersection(d: MapData, group: seq<IntersectionCrossing>, intersection: Id)
    requires FindIntersection(d, intersection).None? && forall c :: c in group ==> c.intersection == intersection
    ensures Between(Listed(group), Listed(group), CrossingRule(d)) == {}
  {
    hide FindIntersection;
  }

  method DetectIntersectionConflicts(world: Map, crossings: seq<IntersectionCrossing>, out: seq<Candidate>)
    returns (updated: seq<Candidate>)
    requires world.Valid()
    ensures Listed(updated) == Listed(out) + Between(Listed(crossings), Listed(crossings), CrossingRule(world.data))
  {
    hide MapIndex.Map.Valid, Between, IsGrouping, GroupsDone, InIdOrder, CrossingRule;
    ghost var rule := CrossingRule(world.data);
    CrossingRuleIsSymmetric(world.data);
    var groups := GroupBy(crossings, CrossedIntersection);
    var intersections := Walk(groups.Keys);
    updated := out;
    NoGroupsYet(out, groups, intersections, rule);
    for i := 0 to |intersections|
      invariant GroupsDone(updated, out, groups, intersections, rule, i)
    {
      ghost var before := updated;
      assert intersections[i] in intersections;
      GroupIs(groups, crossings, CrossedIntersection, intersections[i]);
      updated := CompareCrossings(world, groups[intersections[i]], intersections[i], updated);
      NextGroup(before, updated, out, groups, intersections, rule, i);
    }
    AllGroups(updated, out, groups, intersections, crossings, CrossedIntersection, rule);
  }

  // ------------------------------------------------------------- reservations

  lemma ReservationRuleIsSymmetric(d: MapData, held: set<Reservation>)
    ensures Symmetric(ReservationRule(d, held))
    ensures forall x, y :: ReservationRule(d, held)(x, y).Some? ==> x.resource == y.resource
  {
    forall x: Reservation, y: Reservation ensures ReservationPair(d, held, x, y) == ReservationPair(d, held, y, x) {
      OverlapIsSymmetric(x.window, y.window);
      OverfullIsSymmetric(OfReservation(x), OfReservation(y), ClaimsOn(held, x.resource), CapacityOf(d, x.resource));
      hide Overfull, CapacityOf, ClaimsOn, OverlapOf;
    }
    hide Overfull, CapacityOf, ClaimsOn, OverlapOf;
  }

  function ReservedResource(r: Reservation): Id { r.resource }

  lemma ClaimHolders(group: seq<Reservation>, held: set<Reservation>, resource: Id, holders: seq<Occupancy>)
    requires forall r :: r in group <==> r in held && r.resource == resource
    requires |holders| == |group| && forall i :: 0 <= i < |group| ==> holders[i] == OfReservation(group[i])
    ensures Listed(holders) == ClaimsOn(held, resource)
  {
    hide OfReservation;
    forall h | h in ClaimsOn(held, resource) ensures h in holders {
      var r :| r in held && r.resource == resource && OfReservation(r) == h;
      var i :| 0 <= i < |group| && group[i] == r;
      assert holders[i] == h;
    }
  }

  /** The claims on one resource, each pair once. */
  method CompareClaims(world: Map, group: seq<Reservation>, resource: Id, ghost held: set<Reservation>,
                       out: seq<Candidate>)
    returns (updated: seq<Candidate>)
    requires world.Valid()
    requires forall r :: r in group <==> r in held && r.resource == resource
    ensures Listed(updated) == Listed(out) + Between(Listed(group), Listed(group), ReservationRule(world.data, held))
  {
    hide Overfull, OverlapOf, ConflictsWith, MapIndex.Map.Valid, ClaimsOn, Holds, Between, CapacityOf, MakeCandidate,
         Symmetric;
    var capacity := world.CapacityAt(resource);
    var holders := OccupanciesOf(group, OfReservation);
    ghost var rule := ReservationRule(world.data, held);
    ClaimHolders(group, held, resource, holders);
    ReservationRuleIsSymmetric(world.data, held);
    updated := out;
    NothingFoundYet(out, group, rule);
    for i := 0 to |group|
      invariant Holds(updated, out, group, rule, i, i + 1)
    {
      for j := i + 1 to |group|
        invariant Holds(updated, out, group, rule, i, j)
      {
        ghost var before := updated;
        assert group[i] in group && group[j] in group && holders[i] in holders && holders[j] in holders;
        if ConflictsWith(group[i], group[j]) {
          var full := IsCapacityConflict(holders[i], holders[j], holders, capacity);
          if full {
            updated := AddCandidate(updated, group[i].robot, group[j].robot, resource, ResourceClash,
                                    OverlapOf(group[i].window, group[j].window));
          }
        }
        NextPair(before, updated, out, group, rule, i, j);
      }
      NextRow(updated, out, group, rule, i);
    }
    AllPairs(updated, out, group, rule);
  }

  /** Those reservations that withhold their resource. */
  method Withholding(reservations: seq<Reservation>) returns (held: seq<Reservation>)
    ensures Listed(held) == Holding(Listed(reservations))
  {
    held := [];
    for i := 0 to |reservations|
      invariant forall r :: r in held <==> r in reservations[..i] && HoldsResource(r.state)
    {
      assert reservations[..i + 1] == reservations[..i] + [reservations[i]];
      if HoldsResource(reservations[i].state) {
        held := held + [reservations[i]];
      }
    }
    assert reservations[..|reservations|] == reservations;
  }

  method DetectReservationConflicts(world: Map, reservations: seq<Reservation>,
                                    out: seq<Candidate>) returns (updated: seq<Candidate>)
    requires world.Valid()
    ensures var held := Holding(Listed(reservations));
            Listed(updated) == Listed(out) + Between(held, held, ReservationRule(world.data, held))
  {
    hide MapIndex.Map.Valid, Between, IsGrouping, GroupsDone, InIdOrder, ReservationRule, Holding;
    var held := Withholding(reservations);
    ghost var rule := ReservationRule(world.data, Listed(held));
    ReservationRuleIsSymmetric(world.data, Listed(held));
    var groups := GroupBy(held, ReservedResource);
    var resources := Walk(groups.Keys);
    updated := out;
    NoGroupsYet(out, groups, resources, rule);
    for i := 0 to |resources|
      invariant GroupsDone(updated, out, groups, resources, rule, i)
    {
      ghost var before := updated;
      assert resources[i] in resources;
      GroupIs(groups, held, ReservedResource, resources[i]);
      updated := CompareClaims(world, groups[resources[i]], resources[i], Listed(held), updated);
      NextGroup(before, updated, out, groups, resources, rule, i);
    }
    AllGroups(updated, out, groups, resources, held, ReservedResource, rule);
  }

  // ------------------------------------------------------------- routes against reservations

  /** The rule found `c` between some position of `xs` and some position of `ys` before (i, j). */
  ghost predicate FoundAcross<T(!new)>(xs: seq<T>, ys: seq<T>, rule: (T, T) -> Option<Candidate>, i: nat, j: nat,
                                       c: Candidate) {
    exists p, q :: 0 <= p < |xs| && 0 <= q < |ys| && (p < i || (p == i && q < j)) && rule(xs[p], ys[q]) == Some(c)
  }

  ghost predicate Spans<T(!new)>(out: seq<Candidate>, base: seq<Candidate>, xs: seq<T>, ys: seq<T>,
                                 rule: (T, T) -> Option<Candidate>, i: nat, j: nat)
  {
    forall c :: c in out <==> c in base || FoundAcross(xs, ys, rule, i, j, c)
  }

  lemma NothingAcrossYet<T(!new)>(base: seq<Candidate>, xs: seq<T>, ys: seq<T>, rule: (T, T) -> Option<Candidate>)
    ensures Spans(base, base, xs, ys, rule, 0, 0)
  {
  }

  lemma NextAcross<T(!new)>(before: seq<Candidate>, after: seq<Candidate>, base: seq<Candidate>, xs: seq<T>, ys: seq<T>,
                            rule: (T, T) -> Option<Candidate>, i: nat, j: nat)
    requires i < |xs| && j < |ys| && Spans(before, base, xs, ys, rule, i, j)
    requires after == before + match rule(xs[i], ys[j]) case Some(c) => [c] case None => []
    ensures Spans(after, base, xs, ys, rule, i, j + 1)
  {
    forall c ensures FoundAcross(xs, ys, rule, i, j + 1, c) <==> FoundAcross(xs, ys, rule, i, j, c) || rule(xs[i], ys[j]) == Some(c) {
      if FoundAcross(xs, ys, rule, i, j + 1, c) {
        var p, q :| 0 <= p < |xs| && 0 <= q < |ys| && (p < i || (p == i && q < j + 1)) && rule(xs[p], ys[q]) == Some(c);
        assert (p == i && q == j) || FoundAcross(xs, ys, rule, i, j, c);
      }
      if FoundAcross(xs, ys, rule, i, j, c) {
        var p, q :| 0 <= p < |xs| && 0 <= q < |ys| && (p < i || (p == i && q < j)) && rule(xs[p], ys[q]) == Some(c);
        assert FoundAcross(xs, ys, rule, i, j + 1, c);
      }
      if rule(xs[i], ys[j]) == Some(c) {
        assert FoundAcross(xs, ys, rule, i, j + 1, c);
      }
    }
    hide FoundAcross;
  }

  lemma NextRowAcross<T(!new)>(out: seq<Candidate>, base: seq<Candidate>, xs: seq<T>, ys: seq<T>,
                               rule: (T, T) -> Option<Candidate>, i: nat)
    requires i < |xs| && Spans(out, base, xs, ys, rule, i, |ys|)
    ensures Spans(out, base, xs, ys, rule, i + 1, 0)
  {
    forall c ensures FoundAcross(xs, ys, rule, i, |ys|, c) <==> FoundAcross(xs, ys, rule, i + 1, 0, c) {
      if FoundAcross(xs, ys, rule, i, |ys|, c) {
        var p, q :| 0 <= p < |xs| && 0 <= q < |ys| && (p < i || (p == i && q < |ys|)) && rule(xs[p], ys[q]) == Some(c);
        assert FoundAcross(xs, ys, rule, i + 1, 0, c);
      }
      if FoundAcross(xs, ys, rule, i + 1, 0, c) {
        var p, q :| 0 <= p < |xs| && 0 <= q < |ys| && (p < i + 1 || (p == i + 1 && q < 0)) && rule(xs[p], ys[q]) == Some(c);
        assert FoundAcross(xs, ys, rule, i, |ys|, c);
      }
    }
    hide FoundAcross;
  }

  lemma AllAcross<T(!new)>(out: seq<Candidate>, base: seq<Candidate>, xs: seq<T>, ys: seq<T>,
                           rule: (T, T) -> Option<Candidate>)
    requires Spans(out, base, xs, ys, rule, |xs|, 0)
    ensures Listed(out) == Listed(base) + Between(Listed(xs), Listed(ys), rule)
  {
    forall c ensures FoundAcross(xs, ys, rule, |xs|, 0, c) <==> c in Between(Listed(xs), Listed(ys), rule) {
      if c in Between(Listed(xs), Listed(ys), rule) {
        var x, y :| x in xs && y in ys && rule(x, y) == Some(c);
        var p :| 0 <= p < |xs| && xs[p] == x;
        var q :| 0 <= q < |ys| && ys[q] == y;
        assert FoundAcross(xs, ys, rule, |xs|, 0, c);
      }
      if FoundAcross(xs, ys, rule, |xs|, 0, c) {
        var p, q :| 0 <= p < |xs| && 0 <= q < |ys| && rule(xs[p], ys[q]) == Some(c);
        assert xs[p] in Listed(xs) && ys[q] in Listed(ys);
      }
    }
    hide FoundAcross, Between;
  }

  function OccupiedResource(o: Occupancy): Id { o.resource }

  /** Every grant on one resource against every route's claim on it. */
  method CompareGrants(world: Map, granted: seq<Occupancy>, claimed: seq<Occupancy>, resource: Id,
                       ghost everyone: set<Occupancy>,
                       out: seq<Candidate>)
    returns (updated: seq<Candidate>)
    requires world.Valid()
    requires forall g :: g in granted ==> g.resource == resource
    requires Listed(granted) + Listed(claimed) == On(everyone, resource)
    ensures Listed(updated) == Listed(out) + Between(Listed(granted), Listed(claimed), GrantRule(world.data, everyone))
  {
    hide Overfull, OverlapOf, MapIndex.Map.Valid, On, Spans, Between, CapacityOf, MakeCandidate;
    var capacity := world.CapacityAt(resource);
    var holders := granted + claimed;
    assert Listed(holders) == On(everyone, resource);
    ghost var rule := GrantRule(world.data, everyone);
    updated := out;
    NothingAcrossYet(out, granted, claimed, rule);
    for i := 0 to |granted|
      invariant Spans(updated, out, granted, claimed, rule, i, 0)
    {
      for j := 0 to |claimed|
        invariant Spans(updated, out, granted, claimed, rule, i, j)
      {
        ghost var before := updated;
        assert granted[i] in granted && claimed[j] in claimed;
        var full := IsCapacityConflict(granted[i], claimed[j], holders, capacity);
        if full {
          updated := AddCandidate(updated, granted[i].robot, claimed[j].robot, resource, Temporal,
                                  OverlapOf(granted[i].window, claimed[j].window));
        }
        NextAcross(before, updated, out, granted, claimed, rule, i, j);
      }
      NextRowAcross(updated, out, granted, claimed, rule, i);
    }
    AllAcross(updated, out, granted, claimed, rule);
  }

  /** What the rule finds on one resource. */
  ghost function Meeting(held: map<Id, seq<Occupancy>>, claims: map<Id, seq<Occupancy>>, k: Id,
                         rule: (Occupancy, Occupancy) -> Option<Candidate>): set<Candidate>
  {
    if k in held && k in claims then Between(Listed(held[k]), Listed(claims[k]), rule) else {}
  }

  ghost predicate ResourcesDone(out: seq<Candidate>, base: seq<Candidate>, held: map<Id, seq<Occupancy>>,
                                claims: map<Id, seq<Occupancy>>,
                                keys: seq<Id>, rule: (Occupancy, Occupancy) -> Option<Candidate>, n: nat)
    requires n <= |keys|
  {
    forall c :: c in out <==> c in base || exists j :: 0 <= j < n && c in Meeting(held, claims, keys[j], rule)
  }

  lemma NextResource(before: seq<Candidate>, after: seq<Candidate>, base: seq<Candidate>, held: map<Id, seq<Occupancy>>,
                     claims: map<Id, seq<Occupancy>>, keys: seq<Id>, rule: (Occupancy, Occupancy) -> Option<Candidate>, n: nat)
    requires n < |keys| && ResourcesDone(before, base, held, claims, keys, rule, n)
    requires Listed(after) == Listed(before) + Meeting(held, claims, keys[n], rule)
    ensures ResourcesDone(after, base, held, claims, keys, rule, n + 1)
  {
    hide Meeting;
    forall c ensures c in after <==> c in base || exists j :: 0 <= j < n + 1 && c in Meeting(held, claims, keys[j], rule) {
      assert c in after <==> c in Listed(after);
      assert c in before <==> c in Listed(before);
      if j :| 0 <= j < n + 1 && c in Meeting(held, claims, keys[j], rule) {
        assert j == n || c in before;
      }
    }
  }

  lemma AllResources(out: seq<Candidate>, base: seq<Candidate>, held: map<Id, seq<Occupancy>>,
                     claims: map<Id, seq<Occupancy>>,
                     keys: seq<Id>, grants: seq<Occupancy>, wanted: seq<Occupancy>, rule: (Occupancy, Occupancy) -> Option<Candidate>)
    requires IsGrouping(held, grants, OccupiedResource) && IsGrouping(claims, wanted, OccupiedResource)
    requires forall k :: k in keys <==> k in held
    requires ResourcesDone(out, base, held, claims, keys, rule, |keys|)
    requires forall x, y :: rule(x, y).Some? ==> x.resource == y.resource
    ensures Listed(out) == Listed(base) + Between(Listed(grants), Listed(wanted), rule)
  {
    hide IsGrouping, Between, Meeting;
    forall c ensures (exists j :: 0 <= j < |keys| && c in Meeting(held, claims, keys[j], rule)) <==> c in Between(Listed(grants), Listed(wanted), rule) {
      if c in Between(Listed(grants), Listed(wanted), rule) {
        FoundOnResource(held, claims, grants, wanted, rule, c);
        var k :| k in held && c in Meeting(held, claims, k, rule);
        assert k in keys;
        var j :| 0 <= j < |keys| && keys[j] == k;
        assert c in Meeting(held, claims, keys[j], rule);
      }
      if j :| 0 <= j < |keys| && c in Meeting(held, claims, keys[j], rule) {
        MeetingIsAmongAll(held, claims, grants, wanted, rule, keys[j], c);
      }
    }
  }

  lemma FoundOnResource(held: map<Id, seq<Occupancy>>, claims: map<Id, seq<Occupancy>>, grants: seq<Occupancy>,
                        wanted: seq<Occupancy>,
                        rule: (Occupancy, Occupancy) -> Option<Candidate>, c: Candidate)
    requires IsGrouping(held, grants, OccupiedResource) && IsGrouping(claims, wanted, OccupiedResource)
    requires forall x, y :: rule(x, y).Some? ==> x.resource == y.resource
    requires c in Between(Listed(grants), Listed(wanted), rule)
    ensures exists k :: k in held && c in Meeting(held, claims, k, rule)
  {
    var x, y :| x in grants && y in wanted && rule(x, y) == Some(c);
    assert OccupiedResource(x) == OccupiedResource(y) == x.resource;
    assert x in held[x.resource] && y in claims[x.resource];
    assert c in Meeting(held, claims, x.resource, rule);
  }

  lemma MeetingIsAmongAll(held: map<Id, seq<Occupancy>>, claims: map<Id, seq<Occupancy>>, grants: seq<Occupancy>,
                          wanted: seq<Occupancy>,
                          rule: (Occupancy, Occupancy) -> Option<Candidate>, k: Id, c: Candidate)
    requires IsGrouping(held, grants, OccupiedResource) && IsGrouping(claims, wanted, OccupiedResource)
    requires c in Meeting(held, claims, k, rule)
    ensures c in Between(Listed(grants), Listed(wanted), rule)
  {
    var x, y :| x in held[k] && y in claims[k] && rule(x, y) == Some(c);
    assert x in Listed(grants) && y in Listed(wanted);
  }

  lemma GrantRuleKeepsResource(d: MapData, everyone: set<Occupancy>)
    ensures forall x, y :: GrantRule(d, everyone)(x, y).Some? ==> x.resource == y.resource
  {
    hide On, CapacityOf, OverlapOf, MakeCandidate;
  }

  lemma HoldersHere(held: map<Id, seq<Occupancy>>, claims: map<Id, seq<Occupancy>>, grants: seq<Occupancy>,
                    wanted: seq<Occupancy>, k: Id)
    requires IsGrouping(held, grants, OccupiedResource) && IsGrouping(claims, wanted, OccupiedResource)
    requires k in held && k in claims
    ensures Listed(held[k]) + Listed(claims[k]) == On(Listed(grants) + Listed(wanted), k)
    ensures forall g :: g in held[k] ==> g.resource == k
  {
    GroupIs(held, grants, OccupiedResource, k);
    GroupIs(claims, wanted, OccupiedResource, k);
    hide IsGrouping;
  }

  /** Grants against the routes' claims, resource by resource. */
  method DetectGrantConflicts(world: Map, grants: seq<Occupancy>, wanted: seq<Occupancy>,
                              out: seq<Candidate>) returns (updated: seq<Candidate>)
    requires world.Valid()
    ensures Listed(updated) == Listed(out)
      + Between(Listed(grants), Listed(wanted), GrantRule(world.data, Listed(grants) + Listed(wanted)))
  {
    hide MapIndex.Map.Valid, Between, IsGrouping, ResourcesDone, InIdOrder, GrantRule, On;
    ghost var everyone := Listed(grants) + Listed(wanted);
    ghost var rule := GrantRule(world.data, everyone);
    GrantRuleKeepsResource(world.data, everyone);
    var held := GroupBy(grants, OccupiedResource);
    var claims := GroupBy(wanted, OccupiedResource);
    var resources := Walk(held.Keys);
    updated := out;
    NoResourcesYet(out, held, claims, resources, rule);
    for i := 0 to |resources|
      invariant ResourcesDone(updated, out, held, claims, resources, rule, i)
    {
      ghost var before := updated;
      var k := resources[i];
      assert k in resources;
      if k in claims {
        HoldersHere(held, claims, grants, wanted, k);
        updated := CompareGrants(world, held[k], claims[k], k, everyone, updated);
      }
      NextResource(before, updated, out, held, claims, resources, rule, i);
    }
    AllResources(updated, out, held, claims, resources, grants, wanted, rule);
  }

  lemma NoResourcesYet(base: seq<Candidate>, held: map<Id, seq<Occupancy>>, claims: map<Id, seq<Occupancy>>,
                       keys: seq<Id>,
                       rule: (Occupancy, Occupancy) -> Option<Candidate>)
    ensures ResourcesDone(base, base, held, claims, keys, rule, 0)
  {
  }

  // ------------------------------------------------------------- the reduction

  /** `best` keeps the best description of every contention among `seen`. */
  ghost predicate KeepsBest(best: map<ContentionKey, Candidate>, seen: set<Candidate>) {
    && best.Keys == Keys(seen)
    && forall k :: k in best ==> KeyOf(best[k]) == k && IsBest(best[k], seen)
  }

  lemma BestGrows(best: map<ContentionKey, Candidate>, seen: set<Candidate>, c: Candidate)
    requires KeepsBest(best, seen)
    ensures KeepsBest(if KeyOf(c) !in best || Better(c, best[KeyOf(c)]) then best[KeyOf(c) := c] else best, seen + {c})
  {
    hide Better, IsBest;
    var after := if KeyOf(c) !in best || Better(c, best[KeyOf(c)]) then best[KeyOf(c) := c] else best;
    KeysGrow(seen, c);
    forall k | k in after ensures KeyOf(after[k]) == k && IsBest(after[k], seen + {c}) {
      if k != KeyOf(c) {
        OtherStaysBest(best[k], c, seen);
      } else if k in best {
        BestWithOneMore(best[k], c, seen);
      } else {
        assert forall x :: x in seen ==> KeyOf(x) in Keys(seen);
        FirstIsBest(c, seen);
      }
    }
  }

  lemma KeysGrow(seen: set<Candidate>, c: Candidate)
    ensures Keys(seen + {c}) == Keys(seen) + {KeyOf(c)}
  {
    hide KeyOf;
  }

  method Reduce(candidates: seq<Candidate>, now: Time, config: DetectorConfig) returns (conflicts: seq<Conflict>)
    ensures conflicts == Report(Listed(candidates), now, config)
  {
    hide KeepsBest, Better, InOrder, KeyBefore, Reported, StrictTotalOrder, Ascending, ConflictOf, Keys;
    ghost var all := Listed(candidates);
    var best: map<ContentionKey, Candidate> := map[];
    NothingKept();
    for i := 0 to |candidates|
      invariant KeepsBest(best, Listed(candidates[..i]))
    {
      BestGrows(best, Listed(candidates[..i]), candidates[i]);
      assert Listed(candidates[..i + 1]) == Listed(candidates[..i]) + {candidates[i]} by {
        assert candidates[..i + 1] == candidates[..i] + [candidates[i]];
      }
      var key := KeyOf(candidates[i]);
      if key !in best {
        best := best[key := candidates[i]];
      } else if Better(candidates[i], best[key]) {
        best := best[key := candidates[i]];
      }
    }
    assert candidates[..|candidates|] == candidates;
    KeyOrder();
    KeptKeys(best, all);
    var keys := WalkBy(best.Keys, KeyBefore);
    conflicts := [];
    ReportedNone(all, now, config);
    for i := 0 to |keys|
      invariant conflicts == Reported(keys[..i], all, now, config)
    {
      assert keys[i] in keys;
      KeptIsBest(best, all, keys[i]);
      ReportedNext(keys, i, all, now, config);
      var conflict := ConflictOf(best[keys[i]], now, config);
      if conflict.Some? {
        conflicts := conflicts + [conflict.value];
      }
    }
    assert keys[..|keys|] == keys;
  }

  lemma NothingKept()
    ensures KeepsBest(map[], Listed([]))
  {
  }

  lemma KeptKeys(best: map<ContentionKey, Candidate>, all: set<Candidate>)
    requires KeepsBest(best, all)
    ensures best.Keys == Keys(all)
  {
  }

  lemma KeptIsBest(best: map<ContentionKey, Candidate>, all: set<Candidate>, key: ContentionKey)
    requires KeepsBest(best, all) && key in best
    ensures key in Keys(all) && best[key] == Best(all, key)
  {
    BestIsUnique(best[key], Best(all, key), all);
  }

  lemma ReportedNone(all: set<Candidate>, now: Time, config: DetectorConfig)
    ensures Reported([], all, now, config) == []
  {
  }

  lemma ReportedNext(keys: seq<ContentionKey>, i: nat, all: set<Candidate>, now: Time, config: DetectorConfig)
    requires i < |keys| && forall k :: k in keys ==> k in Keys(all)
    ensures Reported(keys[..i + 1], all, now, config) ==
      Reported(keys[..i], all, now, config)
      + match ConflictOf(Best(all, keys[i]), now, config) case Some(x) => [x] case None => []
  {
    assert keys[..i + 1][..i] == keys[..i];
    hide ConflictOf, Keys, Best;
  }

  // ------------------------------------------------------------- the detector

  /** What the routes read so far ask for. */
  ghost predicate Gathers(visits: seq<NodeVisit>, traversals: seq<EdgeTraversal>, passages: seq<CorridorPassage>,
                          crossings: seq<IntersectionCrossing>, s: Scene)
  {
    Listed(visits) == s.visits && Listed(traversals) == s.traversals
    && Listed(passages) == s.passages && Listed(crossings) == s.crossings
  }

  ghost function ReadTogether(s: Scene, t: Scene): Scene {
    Scene(s.visits + t.visits, s.traversals + t.traversals, s.passages + t.passages, s.crossings + t.crossings)
  }

  lemma OneMoreRoute(d: MapData, routes: set<Route>, r: Route, b: SafetyBuffer)
    ensures SceneOf(d, routes + {r}, b) == ReadTogether(SceneOf(d, routes, b), RouteScene(d, r, b))
  {
    hide RouteScene;
    var s, t, u := SceneOf(d, routes + {r}, b), SceneOf(d, routes, b), RouteScene(d, r, b);
    assert s.visits == t.visits + u.visits;
    assert s.traversals == t.traversals + u.traversals;
    assert s.passages == t.passages + u.passages;
    assert s.crossings == t.crossings + u.crossings;
  }

  lemma GatherBoth(v: seq<NodeVisit>, t: seq<EdgeTraversal>, p: seq<CorridorPassage>, c: seq<IntersectionCrossing>,
                   s: Scene,
                   v': seq<NodeVisit>, t': seq<EdgeTraversal>, p': seq<CorridorPassage>, c': seq<IntersectionCrossing>, s': Scene)
    requires Gathers(v, t, p, c, s) && Gathers(v', t', p', c', s')
    ensures Gathers(v + v', t + t', p + p', c + c', ReadTogether(s, s'))
  {
  }

  /** What every reader together says the routes want, as occupancies. */
  method ReadClaims(visits: seq<NodeVisit>, traversals: seq<EdgeTraversal>, passages: seq<CorridorPassage>,
                    crossings: seq<IntersectionCrossing>, ghost s: Scene)
    returns (wanted: seq<Occupancy>)
    requires Gathers(visits, traversals, passages, crossings, s)
    ensures Listed(wanted) == RouteClaims(s)
  {
    hide Listed, RouteClaims;
    var a := OccupanciesOf(visits, OfVisit);
    var b := OccupanciesOf(traversals, OfTraversal);
    var c := OccupanciesOf(passages, OfPassage);
    var e := OccupanciesOf(crossings, OfCrossing);
    ProjectionIs(visits, OfVisit, a);
    ProjectionIs(traversals, OfTraversal, b);
    ProjectionIs(passages, OfPassage, c);
    ProjectionIs(crossings, OfCrossing, e);
    wanted := a + b + c + e;
    ClaimsTogether(visits, traversals, passages, crossings, s, a, b, c, e);
  }

  lemma ProjectionIs<T(!new)>(xs: seq<T>, f: T -> Occupancy, holders: seq<Occupancy>)
    requires |holders| == |xs| && forall i :: 0 <= i < |xs| ==> holders[i] == f(xs[i])
    ensures Listed(holders) == set x | x in Listed(xs) :: f(x)
  {
    forall x | x in Listed(xs) ensures f(x) in holders {
      var i :| 0 <= i < |xs| && xs[i] == x;
      assert holders[i] == f(x);
    }
  }

  lemma ClaimsTogether(visits: seq<NodeVisit>, traversals: seq<EdgeTraversal>, passages: seq<CorridorPassage>,
                       crossings: seq<IntersectionCrossing>, s: Scene,
                       a: seq<Occupancy>, b: seq<Occupancy>, c: seq<Occupancy>, e: seq<Occupancy>)
    requires Gathers(visits, traversals, passages, crossings, s)
    requires Listed(a) == set x | x in Listed(visits) :: OfVisit(x)
    requires Listed(b) == set x | x in Listed(traversals) :: OfTraversal(x)
    requires Listed(c) == set x | x in Listed(passages) :: OfPassage(x)
    requires Listed(e) == set x | x in Listed(crossings) :: OfCrossing(x)
    ensures Listed(a + b + c + e) == RouteClaims(s)
  {
    hide OfVisit, OfTraversal, OfPassage, OfCrossing;
    assert Listed(a + b + c + e) == Listed(a) + Listed(b) + Listed(c) + Listed(e);
  }

  class ConflictDetector {
    const world: Map
    const config: DetectorConfig

    constructor (m: Map, c: DetectorConfig)
      ensures world == m && config == c
    {
      world, config := m, c;
    }

    /** All six passes over one scene, then the reduction. */
    method DetectIn(visits: seq<NodeVisit>, traversals: seq<EdgeTraversal>, passages: seq<CorridorPassage>,
                    crossings: seq<IntersectionCrossing>, reservations: seq<Reservation>, now: Time, ghost s: Scene)
      returns (conflicts: seq<Conflict>)
      requires world.Valid() && Gathers(visits, traversals, passages, crossings, s) && NamesResources(world.data, s.traversals)
      ensures conflicts == Report(Candidates(world.data, s, Listed(reservations)), now, config)
    {
      hide MapIndex.Map.Valid, Between, Holding, RouteClaims, NamesResources, Report, NodeRule, EdgeRule, CorridorRule,
           CrossingRule, ReservationRule, GrantRule, Grants, Listed;
      var out: seq<Candidate> := [];
      out := DetectNodeConflicts(world, visits, out);
      out := DetectEdgeConflicts(world, traversals, out);
      out := DetectCorridorConflicts(world, passages, out);
      out := DetectIntersectionConflicts(world, crossings, out);
      out := DetectReservationConflicts(world, reservations, out);
      NoneListed();
      if reservations != [] {
        var held := Withholding(reservations);
        var grants := OccupanciesOf(held, OfReservation);
        GrantsAre(held, grants);
        var wanted := ReadClaims(visits, traversals, passages, crossings, s);
        out := DetectGrantConflicts(world, grants, wanted, out);
      } else {
        NothingGranted(world.data, RouteClaims(s));
      }
      assert Listed(out) == Candidates(world.data, s, Listed(reservations));
      conflicts := Reduce(out, now, config);
    }

    /** Every conflict among the routes and reservations. The answer is a function of which routes and
        reservations there are, never of their order. */
    method Detect(routes: seq<Route>, reservations: seq<Reservation>, now: Time) returns (conflicts: seq<Conflict>)
      requires world.Valid()
      ensures conflicts == Detected(world.data, Listed(routes), Listed(reservations), now, config)
    {
      hide MapIndex.Map.Valid, SceneOf, Gathers, Candidates, Report, Listed, Collected, VisitReader, TraversalReader,
           PassageReader, CrossingReader, ReadTogether, NamesResources;
      var visits: seq<NodeVisit>, traversals: seq<EdgeTraversal> := [], [];
      var passages: seq<CorridorPassage>, crossings: seq<IntersectionCrossing> := [], [];
      ghost var b := config.nodeBuffer;
      NothingRead(world.data, b);
      for i := 0 to |routes|
        invariant Gathers(visits, traversals, passages, crossings, SceneOf(world.data, Listed(routes[..i]), b))
      {
        var v := NodeVisits(world, routes[i], config.nodeBuffer);
        var t := EdgeTraversals(world, routes[i]);
        var p := CorridorPassages(world, routes[i]);
        var c := IntersectionCrossings(world, routes[i], config.nodeBuffer);
        OneMoreRoute(world.data, Listed(routes[..i]), routes[i], b);
        ListedNext(routes, i);
        GatherBoth(visits, traversals, passages, crossings, SceneOf(world.data, Listed(routes[..i]), b),
                   v, t, p, c, RouteScene(world.data, routes[i], b));
        visits, traversals, passages, crossings := visits + v, traversals + t, passages + p, crossings + c;
      }
      assert routes[..|routes|] == routes;
      SceneNamesResources(world.data, Listed(routes), b);
      conflicts := DetectIn(visits, traversals, passages, crossings, reservations, now, SceneOf(world.data, Listed(routes), b));
    }

    /** Every conflict between two routes. */
    method DetectBetween(lhs: Route, rhs: Route, now: Time) returns (conflicts: seq<Conflict>)
      requires world.Valid()
      ensures conflicts == Detected(world.data, {lhs, rhs}, {}, now, config)
    {
      hide MapIndex.Map.Valid, Detected;
      conflicts := Detect([lhs, rhs], [], now);
      assert Listed([lhs, rhs]) == {lhs, rhs};
      assert Listed<Reservation>([]) == {};
    }
  }

  lemma NoneListed()
    ensures Listed<Candidate>([]) == {}
  {
  }

  lemma NothingRead(d: MapData, b: SafetyBuffer)
    ensures forall routes: seq<Route> :: Gathers([], [], [], [], SceneOf(d, Listed(routes[..0]), b))
  {
    forall routes: seq<Route> ensures Gathers([], [], [], [], SceneOf(d, Listed(routes[..0]), b)) {
      assert Listed(routes[..0]) == {};
    }
  }

  lemma ListedNext<T>(q: seq<T>, i: nat)
    requires i < |q|
    ensures Listed(q[..i + 1]) == Listed(q[..i]) + {q[i]}
  {
    assert q[..i + 1] == q[..i] + [q[i]];
  }

  lemma GrantsAre(held: seq<Reservation>, grants: seq<Occupancy>)
    requires |grants| == |held| && forall i :: 0 <= i < |held| ==> grants[i] == OfReservation(held[i])
    ensures Listed(grants) == Grants(Listed(held))
  {
    hide OfReservation;
    ProjectionIs(held, OfReservation, grants);
  }

  lemma NothingGranted(d: MapData, claims: set<Occupancy>)
    ensures forall rule :: Between(Grants(Holding(Listed<Reservation>([]))), claims, rule) == {}
  {
    assert Listed<Reservation>([]) == {};
    assert Holding({}) == {};
    assert Grants({}) == {};
  }
}
