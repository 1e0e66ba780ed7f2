/** Best-first search as a function of the network alone: no queue, no list order.
    Nodes are settled best first; settling a node offers each neighbour its cheapest edge. */
module Search {
  import opened Core
  import opened Ordering

  datatype Tail = Tail(node: Id, edge: Id)

  /** Who leads where at what cost, and the estimate of what remains from each node. */
  datatype Net = Net(nodes: set<Id>, heads: map<Tail, Id>, cost: map<Id, real>, estimate: map<Id, real>)

  predicate Arc(n: Net, u: Id, e: Id, v: Id) {
    Tail(u, e) in n.heads && n.heads[Tail(u, e)] == v
  }

  function Cost(n: Net, e: Id): real {
    if e in n.cost then n.cost[e] else 0.0
  }

  function Estimate(n: Net, v: Id): real {
    if v in n.estimate then n.estimate[v] else 0.0
  }

  /** Every arc stays inside the network. */
  predicate WellFormed(n: Net) {
    forall t :: t in n.heads ==> t.node in n.nodes && n.heads[t] in n.nodes
  }

  /** The estimate never drops along an arc by more than the arc costs. */
  ghost predicate Consistent(n: Net) {
    forall u, e, v :: Arc(n, u, e, v) ==> Estimate(n, u) <= Cost(n, e) + Estimate(n, v)
  }

  datatype Via = Via(node: Id, edge: Id)

  /** The best way found so far to a node: what it costs and its last step. */
  datatype Label = Label(cost: real, via: Option<Via>)

  datatype Front = Front(settled: seq<Id>, labels: map<Id, Label>)

  function G(f: Front, v: Id): real {
    if v in f.labels then f.labels[v].cost else 0.0
  }

  function F(n: Net, f: Front, v: Id): real {
    G(f, v) + Estimate(n, v)
  }

  function OpenNodes(f: Front): set<Id> {
    set v | v in f.labels && v !in f.settled
  }

  /** Smallest estimate of the whole first; then the node further along; then the smaller id. */
  predicate Sooner(n: Net, f: Front, u: Id, v: Id) {
    if F(n, f, u) != F(n, f, v) then F(n, f, u) < F(n, f, v)
    else if G(f, u) != G(f, v) then G(f, u) > G(f, v)
    else u < v
  }

  function Queue(n: Net, f: Front): (Id, Id) -> bool {
    (u: Id, v: Id) => Sooner(n, f, u, v)
  }

  lemma QueueOrder(n: Net, f: Front)
    ensures StrictTotalOrder(Queue(n, f))
  {
    hide F, G;
  }

  ghost function Next(n: Net, f: Front): (u: Id)
    requires OpenNodes(f) != {}
    ensures u in f.labels && u !in f.settled
    ensures forall v :: v in f.labels && v !in f.settled ==> v == u || Sooner(n, f, u, v)
  {
    QueueOrder(n, f);
    var u := Least(OpenNodes(f), Queue(n, f));
    assert forall v :: v in f.labels && v !in f.settled ==> v in OpenNodes(f);
    u
  }

  /** The node settled next: no open node has a smaller estimate of the whole, none with the same estimate is
      further along, and none as far with the same estimate has a smaller id. */
  lemma NextIsBest(n: Net, f: Front, v: Id)
    requires OpenNodes(f) != {} && v in f.labels && v !in f.settled
    ensures var u := Next(n, f);
            && G(f, u) + Estimate(n, u) <= G(f, v) + Estimate(n, v)
            && (G(f, u) + Estimate(n, u) == G(f, v) + Estimate(n, v) ==> G(f, u) >= G(f, v))
            && (G(f, u) + Estimate(n, u) == G(f, v) + Estimate(n, v) && G(f, u) == G(f, v) ==> u <= v)
  {
    var u := Next(n, f);
    assert v == u || Sooner(n, f, u, v);
    hide G, Estimate;
  }

  /** Cheaper edge first, then the smaller edge id. */
  predicate CheaperEdge(n: Net, a: Id, b: Id) {
    Cost(n, a) < Cost(n, b) || (Cost(n, a) == Cost(n, b) && a < b)
  }

  function EdgeOrder(n: Net): (Id, Id) -> bool {
    (a: Id, b: Id) => CheaperEdge(n, a, b)
  }

  lemma EdgeOrderIsTotal(n: Net)
    ensures StrictTotalOrder(EdgeOrder(n))
  {
    hide Cost;
  }

  function Into(n: Net, u: Id, edges: set<Id>, v: Id): set<Id> {
    set e | e in edges && Arc(n, u, e, v)
  }

  function Out(n: Net, u: Id): set<Id> {
    set t | t in n.heads && t.node == u :: t.edge
  }

  function HeadsOf(n: Net, u: Id, edges: set<Id>): set<Id> {
    set e | e in edges && Tail(u, e) in n.heads :: n.heads[Tail(u, e)]
  }

  function Step(n: Net, u: Id, g: real, e: Id): Label {
    Label(g + Cost(n, e), Some(Via(u, e)))
  }

  ghost function Offer(n: Net, u: Id, g: real, edges: set<Id>, v: Id): Label
    requires Into(n, u, edges, v) != {}
  {
    EdgeOrderIsTotal(n);
    Step(n, u, g, Least(Into(n, u, edges, v), EdgeOrder(n)))
  }

  /** Cheaper, or as cheap by a smaller edge id. */
  predicate Beats(a: Label, b: Label) {
    a.cost < b.cost || (a.cost == b.cost && a.via.Some? && b.via.Some? && a.via.value.edge < b.via.value.edge)
  }

  ghost function Improved(n: Net, f: Front, u: Id, edges: set<Id>, v: Id): Option<Label> {
    var known := if v in f.labels then Some(f.labels[v]) else None;
    if v in f.settled || Into(n, u, edges, v) == {} then known
    else
      var offer := Offer(n, u, G(f, u), edges, v);
      if known.None? || Beats(offer, known.value) then Some(offer) else known
  }

  /** The labels once these edges out of `u` have been considered. */
  ghost function Relaxed(n: Net, f: Front, u: Id, edges: set<Id>): map<Id, Label> {
    map v | v in f.labels.Keys + HeadsOf(n, u, edges) && Improved(n, f, u, edges, v).Some? :: Improved(n, f, u, edges, v).value
  }

  ghost function Settle(n: Net, f: Front, u: Id): Front {
    var f1 := Front(f.settled + [u], f.labels);
    Front(f1.settled, Relaxed(n, f1, u, Out(n, u)))
  }

  datatype SearchResult = Found(front: Front) | Exhausted(front: Front) | LimitReached(front: Front)

  /** The part of a front's invariant that makes the search well defined. */
  predicate Within(n: Net, f: Front) {
    && WellFormed(n)
    && (forall v :: v in f.labels ==> v in n.nodes)
    && (forall v :: v in f.settled ==> v in f.labels)
  }

  lemma RelaxedMember(n: Net, f: Front, u: Id, edges: set<Id>, v: Id)
    ensures v in Relaxed(n, f, u, edges) <==> Improved(n, f, u, edges, v).Some?
    ensures v in Relaxed(n, f, u, edges) ==> Some(Relaxed(n, f, u, edges)[v]) == Improved(n, f, u, edges, v)
  {
    if Improved(n, f, u, edges, v).Some? && v !in f.labels {
      var e :| e in Into(n, u, edges, v);
      assert v in HeadsOf(n, u, edges);
    }
    hide Improved;
  }

  lemma SettleWithin(n: Net, f: Front, u: Id)
    requires Within(n, f) && u in f.labels
    ensures Within(n, Settle(n, f, u))
  {
    var f1 := Front(f.settled + [u], f.labels);
    var f2 := Settle(n, f, u);
    forall v | v in f2.labels ensures v in n.nodes {
      if v !in f.labels { assert v in HeadsOf(n, u, Out(n, u)); }
    }
    forall v | v in f2.settled ensures v in f2.labels {
      RelaxedMember(n, f1, u, Out(n, u), v);
      assert v in f1.settled;
    }
  }

  function SettledSet(f: Front): set<Id> {
    set v | v in f.settled
  }

  /** The whole search from a front. `cap` bounds the nodes settled; zero means no bound. */
  ghost function Explore(n: Net, goal: Id, cap: nat, f: Front): SearchResult
    requires Within(n, f)
    decreases n.nodes - SettledSet(f)
  {
    if OpenNodes(f) == {} then Exhausted(f)
    else
      var u := Next(n, f);
      var f1 := Front(f.settled + [u], f.labels);
      if u == goal then Found(f1)
      else if cap != 0 && |f1.settled| >= cap then LimitReached(f1)
      else
        SettleWithin(n, f, u);
        assert SettledSet(Settle(n, f, u)) == SettledSet(f) + {u};
        Explore(n, goal, cap, Settle(n, f, u))
  }

  function Initial(start: Id): Front {
    Front([], map[start := Label(0.0, None)])
  }

  ghost function SearchFrom(n: Net, start: Id, goal: Id, cap: nat): SearchResult
    requires WellFormed(n) && start in n.nodes
  {
    Explore(n, goal, cap, Initial(start))
  }

  /** Under a cap the search settles no more nodes than that, and stops for the cap exactly on reaching it. */
  lemma {:induction false} CapIsKept(n: Net, goal: Id, cap: nat, f: Front)
    requires Within(n, f) && cap > 0 && |f.settled| < cap
    ensures var r := Explore(n, goal, cap, f);
            && |r.front.settled| <= cap
            && (r.LimitReached? ==> |r.front.settled| == cap)
            && (r.Exhausted? ==> |r.front.settled| < cap)
    decreases n.nodes - SettledSet(f)
  {
    if OpenNodes(f) != {} {
      var u := Next(n, f);
      SettleWithin(n, f, u);
      assert SettledSet(Settle(n, f, u)) == SettledSet(f) + {u};
      if u != goal && |f.settled| + 1 < cap {
        assert Settle(n, f, u).settled == f.settled + [u];
        hide Settle, OpenNodes, Next, Within;
        CapIsKept(n, goal, cap, Settle(n, f, u));
      }
    }
  }

  // ------------------------------------------------------------- relaxing one edge at a time

  /** One edge considered, as the loop does it. */
  function RelaxOne(n: Net, f: Front, u: Id, e: Id): map<Id, Label> {
    if Tail(u, e) !in n.heads || n.heads[Tail(u, e)] in f.settled then f.labels
    else
      var v := n.heads[Tail(u, e)];
      var offer := Step(n, u, G(f, u), e);
      if v !in f.labels || Beats(offer, f.labels[v]) then f.labels[v := offer] else f.labels
  }

  /** Unsettled labels all have a last step: only the start, settled first, has none. */
  predicate Stepped(f: Front) {
    forall v :: v in f.labels && v !in f.settled ==> f.labels[v].via.Some?
  }

  lemma OfferGrows(n: Net, u: Id, g: real, edges: set<Id>, e: Id, v: Id)
    requires Arc(n, u, e, v)
    ensures Into(n, u, edges + {e}, v) == Into(n, u, edges, v) + {e}
    ensures Offer(n, u, g, edges + {e}, v) ==
      if Into(n, u, edges, v) == {} || CheaperEdge(n, e, Least(Into(n, u, edges, v), EdgeOrder(n)))
      then Step(n, u, g, e) else Offer(n, u, g, edges, v)
  {
    EdgeOrderIsTotal(n);
    var less := EdgeOrder(n);
    var before, after := Into(n, u, edges, v), Into(n, u, edges + {e}, v);
    assert after == before + {e};
    hide Arc;
    var m := Least(after, less);
    if before != {} {
      var b := Least(before, less);
      LessIsTotal(less, e, b);
      LessIsTotal(less, m, b);
      LessIsTotal(less, m, e);
      assert CheaperEdge(n, e, b) == less(e, b);
    }
  }

  lemma ImprovedGrows(n: Net, f: Front, u: Id, edges: set<Id>, e: Id, v: Id)
    requires Arc(n, u, e, v) && v !in f.settled && Stepped(f)
    ensures var before := Improved(n, f, u, edges, v);
            var step := Step(n, u, G(f, u), e);
            Improved(n, f, u, edges + {e}, v) ==
              if before.None? || Beats(step, before.value) then Some(step) else before
  {
    OfferGrows(n, u, G(f, u), edges, e, v);
    EdgeOrderIsTotal(n);
    hide Into, Least, EdgeOrder, StrictTotalOrder, Arc;
  }

  lemma ImprovedElsewhere(n: Net, f: Front, u: Id, edges: set<Id>, e: Id, v: Id)
    requires !Arc(n, u, e, v) || v in f.settled
    ensures Improved(n, f, u, edges + {e}, v) == Improved(n, f, u, edges, v)
  {
    if v !in f.settled {
      assert Into(n, u, edges + {e}, v) == Into(n, u, edges, v);
    }
  }

  /** Considering one more edge, in whatever order, refines considering them all at once. */
  lemma RelaxOneMore(n: Net, f: Front, u: Id, edges: set<Id>, e: Id)
    requires Stepped(f) && u in f.settled && u in f.labels
    ensures RelaxOne(n, Front(f.settled, Relaxed(n, f, u, edges)), u, e) == Relaxed(n, f, u, edges + {e})
  {
    var f1 := Front(f.settled, Relaxed(n, f, u, edges));
    var a, b := RelaxOne(n, f1, u, e), Relaxed(n, f, u, edges + {e});
    RelaxedMember(n, f, u, edges, u);
    assert G(f1, u) == G(f, u);
    forall v ensures v in a <==> v in b
      ensures v in a && v in b ==> a[v] == b[v]
    {
      RelaxedMember(n, f, u, edges, v);
      RelaxedMember(n, f, u, edges + {e}, v);
      if Arc(n, u, e, v) && v !in f.settled {
        ImprovedGrows(n, f, u, edges, e, v);
      } else {
        ImprovedElsewhere(n, f, u, edges, e, v);
      }
      hide Improved, Relaxed;
    }
  }

  lemma RelaxNone(n: Net, f: Front, u: Id)
    ensures Relaxed(n, f, u, {}) == f.labels
  {
    forall v ensures Improved(n, f, u, {}, v) == if v in f.labels then Some(f.labels[v]) else None {
    }
  }
}
