/** The indexed, read-only map: every lookup answers what a scan of the data would. */
module MapIndex {
  import opened Core
  import opened Graph

  /** `index` sends each id to the position of its first element. */
  ghost predicate IsIndex<T(!new)>(s: seq<T>, key: T -> Id, index: map<Id, nat>) {
    && (forall id :: id in index ==> index[id] < |s| && key(s[index[id]]) == id)
    && (forall j :: 0 <= j < |s| ==> key(s[j]) in index && index[key(s[j])] <= j)
  }

  method BuildIndex<T(!new)>(s: seq<T>, key: T -> Id) returns (index: map<Id, nat>)
    ensures IsIndex(s, key, index)
  {
    index := map[];
    for i := 0 to |s|
      invariant forall id :: id in index ==> index[id] < i && key(s[index[id]]) == id
      invariant forall j :: 0 <= j < i ==> key(s[j]) in index && index[key(s[j])] <= j
    {
      if key(s[i]) !in index {
        index := index[key(s[i]) := i];
      }
    }
  }

  lemma IndexFindsFirst<T(!new)>(s: seq<T>, key: T -> Id, index: map<Id, nat>, id: Id)
    requires IsIndex(s, key, index)
    ensures First(s, key, id) == if id in index then Some(s[index[id]]) else None
  {
    if id in index {
      FirstFound(s, key, id, index[id]);
    } else {
      FirstAbsent(s, key, id);
    }
  }

  /** The edges touching a node, in edge-list order. */
  function Touching(edges: seq<Edge>, node: Id): seq<Id> {
    if edges == [] then []
    else
      var last := edges[|edges| - 1];
      Touching(edges[..|edges| - 1], node) + if node == last.fromNode || node == last.toNode then [last.id] else []
  }

  function EdgesOf(edges: seq<Edge>, resource: Id): seq<Id> {
    if edges == [] then []
    else
      var last := edges[|edges| - 1];
      EdgesOf(edges[..|edges| - 1], resource) + if EffectiveResource(last) == resource then [last.id] else []
  }

  function AtKey(lists: map<Id, seq<Id>>, k: Id): seq<Id> {
    if k in lists then lists[k] else []
  }

  function Appended(lists: map<Id, seq<Id>>, k: Id, x: Id): map<Id, seq<Id>> {
    lists[k := AtKey(lists, k) + [x]]
  }

  ghost predicate IsTouching(lists: map<Id, seq<Id>>, edges: seq<Edge>) {
    forall n :: AtKey(lists, n) == Touching(edges, n)
  }

  ghost predicate IsByResource(lists: map<Id, seq<Id>>, edges: seq<Edge>) {
    forall r :: AtKey(lists, r) == EdgesOf(edges, r)
  }

  function WithEdge(lists: map<Id, seq<Id>>, edge: Edge): map<Id, seq<Id>> {
    var once := Appended(lists, edge.fromNode, edge.id);
    if edge.toNode != edge.fromNode then Appended(once, edge.toNode, edge.id) else once
  }

  lemma TouchingNext(edges: seq<Edge>, edge: Edge, k: Id)
    ensures Touching(edges + [edge], k) == Touching(edges, k) + if k == edge.fromNode || k == edge.toNode then [edge.id] else []
    ensures EdgesOf(edges + [edge], k) == EdgesOf(edges, k) + if EffectiveResource(edge) == k then [edge.id] else []
  {
    hide EffectiveResource;
    var all := edges + [edge];
    assert all[..|all| - 1] == edges && all[|all| - 1] == edge;
  }

  lemma AtKeyAppended(lists: map<Id, seq<Id>>, k: Id, x: Id, n: Id)
    ensures AtKey(Appended(lists, k, x), n) == AtKey(lists, n) + if n == k then [x] else []
  {
  }

  lemma AtKeyWithEdge(lists: map<Id, seq<Id>>, edge: Edge, n: Id)
    ensures AtKey(WithEdge(lists, edge), n) == AtKey(lists, n) + if n == edge.fromNode || n == edge.toNode then [edge.id] else []
  {
    hide AtKey, Appended;
    var once := Appended(lists, edge.fromNode, edge.id);
    AtKeyAppended(lists, edge.fromNode, edge.id, n);
    AtKeyAppended(once, edge.toNode, edge.id, n);
  }

  lemma EdgeAppended(lists: map<Id, seq<Id>>, byResource: map<Id, seq<Id>>, edges: seq<Edge>, edge: Edge)
    requires IsTouching(lists, edges) && IsByResource(byResource, edges)
    ensures IsTouching(WithEdge(lists, edge), edges + [edge])
    ensures IsByResource(Appended(byResource, EffectiveResource(edge), edge.id), edges + [edge])
  {
    hide EffectiveResource, AtKey, Appended, WithEdge, Touching, EdgesOf;
    forall n ensures AtKey(WithEdge(lists, edge), n) == Touching(edges + [edge], n) {
      TouchingNext(edges, edge, n);
      AtKeyWithEdge(lists, edge, n);
    }
    forall r ensures AtKey(Appended(byResource, EffectiveResource(edge), edge.id), r) == EdgesOf(edges + [edge], r) {
      TouchingNext(edges, edge, r);
      AtKeyAppended(byResource, EffectiveResource(edge), edge.id, r);
    }
  }

  lemma NoEdgesYet()
    ensures IsTouching(map[], []) && IsByResource(map[], [])
  {
  }

  /** Both lists are built by walking the edge list in order, so they come out in edge-list order. */
  method BuildAdjacency(edges: seq<Edge>) returns (touching: map<Id, seq<Id>>, byResource: map<Id, seq<Id>>)
    ensures IsTouching(touching, edges) && IsByResource(byResource, edges)
  {
    hide IsTouching, IsByResource, WithEdge, Appended, EffectiveResource;
    touching, byResource := map[], map[];
    NoEdgesYet();
    for i := 0 to |edges|
      invariant IsTouching(touching, edges[..i]) && IsByResource(byResource, edges[..i])
    {
      var edge := edges[i];
      EdgeAppended(touching, byResource, edges[..i], edge);
      assert edges[..i + 1] == edges[..i] + [edge];
      touching := WithEdge(touching, edge);
      byResource := Appended(byResource, EffectiveResource(edge), edge.id);
    }
    assert edges[..|edges|] == edges;
  }

  /** The edges that can be driven away from `node`, among those with these ids. */
  function Drivable(d: MapData, ids: seq<Id>, node: Id): seq<Id> {
    if ids == [] then []
    else
      var last := ids[|ids| - 1];
      Drivable(d, ids[..|ids| - 1], node)
      + if FindEdge(d, last).Some? && TraversableFrom(FindEdge(d, last).value, node) then [last] else []
  }

  function TraversableEdges(d: MapData, node: Id): seq<Id> {
    Drivable(d, Touching(d.edges, node), node)
  }

  /** `edge` can be driven from `u`, and leads to `v`. */
  predicate Leads(d: MapData, u: Id, edge: Id, v: Id) {
    && FindEdge(d, edge).Some?
    && TraversableFrom(FindEdge(d, edge).value, u)
    && OppositeNode(FindEdge(d, edge).value, u) == Some(v)
  }

  lemma {:induction false} DrivableMembers(d: MapData, ids: seq<Id>, node: Id)
    ensures forall e :: e in Drivable(d, ids, node) <==>
      e in ids && FindEdge(d, e).Some? && TraversableFrom(FindEdge(d, e).value, node)
  {
    hide FindEdge, TraversableFrom;
    if ids != [] {
      DrivableMembers(d, ids[..|ids| - 1], node);
      assert ids == ids[..|ids| - 1] + [ids[|ids| - 1]];
    }
  }

  lemma {:induction false} TouchingMembers(edges: seq<Edge>, node: Id)
    ensures forall e :: e in edges && (node == e.fromNode || node == e.toNode) ==> e.id in Touching(edges, node)
  {
    if edges != [] {
      TouchingMembers(edges[..|edges| - 1], node);
      assert edges == edges[..|edges| - 1] + [edges[|edges| - 1]];
    }
  }

  /** The expansion list of a node is, as a set, exactly the edges that lead somewhere from it. */
  lemma TraversableExactly(d: MapData, u: Id)
    ensures forall e :: e in TraversableEdges(d, u) <==> exists v :: Leads(d, u, e, v)
  {
    DrivableMembers(d, Touching(d.edges, u), u);
    TouchingMembers(d.edges, u);
    forall e ensures e in TraversableEdges(d, u) <==> exists v :: Leads(d, u, e, v) {
      FirstIsMember(d.edges, EdgeId, e);
      if FindEdge(d, e).Some? && TraversableFrom(FindEdge(d, e).value, u) {
        assert Leads(d, u, e, OppositeNode(FindEdge(d, e).value, u).value);
      }
    }
  }

  class Map {
    const data: MapData
    const nodeIndex: map<Id, nat>
    const edgeIndex: map<Id, nat>
    const incident: map<Id, seq<Id>>
    const corridorIndex: map<Id, nat>
    const intersectionIndex: map<Id, nat>
    const waitingBayIndex: map<Id, nat>
    const resourceEdges: map<Id, seq<Id>>

    ghost predicate Valid() {
      && IsIndex(data.nodes, NodeId, nodeIndex)
      && IsIndex(data.edges, EdgeId, edgeIndex)
      && IsIndex(data.corridors, CorridorId, corridorIndex)
      && IsIndex(data.intersections, IntersectionId, intersectionIndex)
      && IsIndex(data.waitingBays, WaitingBayId, waitingBayIndex)
      && IsTouching(incident, data.edges)
      && IsByResource(resourceEdges, data.edges)
    }

    constructor (d: MapData)
      ensures Valid() && data == d
    {
      var nodes := BuildIndex(d.nodes, NodeId);
      var edges := BuildIndex(d.edges, EdgeId);
      var corridors := BuildIndex(d.corridors, CorridorId);
      var intersections := BuildIndex(d.intersections, IntersectionId);
      var bays := BuildIndex(d.waitingBays, WaitingBayId);
      var touching, byResource := BuildAdjacency(d.edges);
      data := d;
      nodeIndex, edgeIndex := nodes, edges;
      corridorIndex, intersectionIndex, waitingBayIndex := corridors, intersections, bays;
      incident, resourceEdges := touching, byResource;
    }

    function NodeAt(id: Id): (r: Option<Node>)
      requires Valid()
      ensures r == FindNode(data, id)
    {
      IndexFindsFirst(data.nodes, NodeId, nodeIndex, id);
      if id in nodeIndex then Some(data.nodes[nodeIndex[id]]) else None
    }

    function EdgeAt(id: Id): (r: Option<Edge>)
      requires Valid()
      ensures r == FindEdge(data, id)
    {
      IndexFindsFirst(data.edges, EdgeId, edgeIndex, id);
      if id in edgeIndex then Some(data.edges[edgeIndex[id]]) else None
    }

    function CorridorAt(id: Id): (r: Option<Corridor>)
      requires Valid()
      ensures r == FindCorridor(data, id)
    {
      IndexFindsFirst(data.corridors, CorridorId, corridorIndex, id);
      if id in corridorIndex then Some(data.corridors[corridorIndex[id]]) else None
    }

    function IntersectionAt(id: Id): (r: Option<Intersection>)
      requires Valid()
      ensures r == FindIntersection(data, id)
    {
      IndexFindsFirst(data.intersections, IntersectionId, intersectionIndex, id);
      if id in intersectionIndex then Some(data.intersections[intersectionIndex[id]]) else None
    }

    function WaitingBayAt(id: Id): (r: Option<WaitingBay>)
      requires Valid()
      ensures r == FindWaitingBay(data, id)
    {
      IndexFindsFirst(data.waitingBays, WaitingBayId, waitingBayIndex, id);
      if id in waitingBayIndex then Some(data.waitingBays[waitingBayIndex[id]]) else None
    }

    /** The corridor, intersection or bay of that name decides, else the edge or node, else one. */
    function CapacityAt(resource: Id): (n: nat)
      requires Valid()
      ensures n == CapacityOf(data, resource)
    {
      if CorridorAt(resource).Some? then CorridorAt(resource).value.capacity
      else if IntersectionAt(resource).Some? then IntersectionAt(resource).value.capacity
      else if WaitingBayAt(resource).Some? then WaitingBayAt(resource).value.capacity
      else if EdgeAt(resource).Some? then EdgeAt(resource).value.capacity
      else if NodeAt(resource).Some? then NodeAt(resource).value.capacity
      else 1
    }

    function ResourceOfEdge(id: Id): (r: Id)
      requires Valid()
      ensures r == ResourceForEdge(data, id)
    {
      if EdgeAt(id).Some? then EffectiveResource(EdgeAt(id).value) else EMPTY_ID
    }

    function EdgesOfResource(resource: Id): (r: seq<Id>)
      requires Valid()
      ensures r == EdgesOf(data.edges, resource)
    {
      AtKey(resourceEdges, resource)
    }

    function IncidentEdges(node: Id): (r: seq<Id>)
      requires Valid()
      ensures r == Touching(data.edges, node)
    {
      AtKey(incident, node)
    }

    method TraversableFromNode(node: Id) returns (usable: seq<Id>)
      requires Valid()
      ensures usable == TraversableEdges(data, node)
    {
      usable := [];
      var ids := IncidentEdges(node);
      for i := 0 to |ids|
        invariant usable == Drivable(data, ids[..i], node)
      {
        assert ids[..i + 1][..i] == ids[..i];
        var edge := EdgeAt(ids[i]);
        if edge.Some? && TraversableFrom(edge.value, node) {
          usable := usable + [ids[i]];
        }
      }
      assert ids[..|ids|] == ids;
    }
  }
}
