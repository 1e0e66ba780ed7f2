/** What the search guarantees: sound routes, completeness, optimality, and tie-breaking. */
module Optimality {
  import opened Core
  import opened Ordering
  import opened Search

  // ------------------------------------------------------------- walks

  datatype Hop = Hop(edge: Id, to: Id)

  function EndOf(start: Id, w: seq<Hop>): Id {
    if w == [] then start else w[|w| - 1].to
  }

  ghost predicate IsWalk(n: Net, start: Id, w: seq<Hop>) {
    w == [] ||
    (var front, last := w[..|w| - 1], w[|w| - 1];
     IsWalk(n, start, front) && Arc(n, EndOf(start, front), last.edge, last.to))
  }

  function Length(n: Net, w: seq<Hop>): real {
    if w == [] then 0.0 else Length(n, w[..|w| - 1]) + Cost(n, w[|w| - 1].edge)
  }

  /** No walk from the start to `v` costs less. */
  ghost predicate NoCheaperWalk(n: Net, start: Id, v: Id, cost: real) {
    forall w :: IsWalk(n, start, w) && EndOf(start, w) == v ==> cost <= Length(n, w)
  }

  // ------------------------------------------------------------- what every front keeps

  /** A node's last step comes from a node settled before it, and its cost is that node's plus the edge. */
  predicate Chained(n: Net, f: Front, v: Id) {
    v in f.labels && f.labels[v].via.Some? &&
    var via := f.labels[v].via.value;
    && via.node in f.settled && via.node in f.labels
    && Arc(n, via.node, via.edge, v)
    && f.labels[v].cost == f.labels[via.node].cost + Cost(n, via.edge)
  }

  /** `u` was settled, and not after `v`. */
  predicate Before(q: seq<Id>, u: Id, v: Id) {
    exists i :: 0 <= i < |q| && q[i] == u && v !in q[..i + 1]
  }

  predicate StartRight(start: Id, f: Front) {
    && start in f.labels && f.labels[start] == Label(0.0, None)
    && (f.settled == [] ==> forall v :: v in f.labels ==> v == start)
    && (f.settled != [] ==> f.settled[0] == start)
  }

  ghost predicate Sound(n: Net, start: Id, f: Front) {
    && Within(n, f) && StartRight(start, f) && Distinct(f.settled)
    && (forall v :: v in f.labels && v != start ==> Chained(n, f, v))
    && (forall v :: v in f.settled && v != start ==> Chained(n, f, v) && Before(f.settled, f.labels[v].via.value.node, v))
  }

  /** Every arc out of a settled node has been offered: nothing beats the label it left. */
  ghost predicate Offered(n: Net, f: Front) {
    forall u, e, v :: Arc(n, u, e, v) && Before(f.settled, u, v) ==>
      v in f.labels && !Beats(Step(n, u, G(f, u), e), f.labels[v])
  }

  lemma InitialIsSound(n: Net, start: Id)
    requires WellFormed(n) && start in n.nodes
    ensures Sound(n, start, Initial(start)) && Offered(n, Initial(start))
  {
  }

  /** Settling changes no settled label, and every other label only for the better. */
  lemma SettleLabels(n: Net, f: Front, u: Id, v: Id)
    requires Within(n, f) && u in f.labels && u !in f.settled
    ensures var f2 := Settle(n, f, u);
            && f2.settled == f.settled + [u]
            && (v in f2.settled ==> v in f.labels && v in f2.labels && f2.labels[v] == f.labels[v])
            && (v in f.labels ==> v in f2.labels)
            && (v in f2.labels ==>
                  || (v in f.labels && f2.labels[v] == f.labels[v])
                  || (v !in f2.settled && (v in f.labels ==> Beats(f2.labels[v], f.labels[v]))
                      && exists e :: Arc(n, u, e, v) && f2.labels[v] == Step(n, u, f.labels[u].cost, e)))
  {
    var f1 := Front(f.settled + [u], f.labels);
    RelaxedMember(n, f1, u, Out(n, u), v);
    if v !in f1.settled && Into(n, u, Out(n, u), v) != {} {
      EdgeOrderIsTotal(n);
      var e := Least(Into(n, u, Out(n, u), v), EdgeOrder(n));
      assert Arc(n, u, e, v) && Offer(n, u, G(f1, u), Out(n, u), v) == Step(n, u, f.labels[u].cost, e);
    }
    hide Into, Offer, Relaxed, Out, Least, EdgeOrder;
  }

  /** After settling `u`, its arcs have been offered too. */
  lemma SettleOffers(n: Net, f: Front, u: Id, e: Id, v: Id)
    requires Within(n, f) && u in f.labels && Arc(n, u, e, v) && v !in f.settled && v != u
    requires v in f.labels ==> f.labels[v].via.Some?
    ensures var f2 := Settle(n, f, u);
            v in f2.labels && !Beats(Step(n, u, f.labels[u].cost, e), f2.labels[v])
  {
    var f1 := Front(f.settled + [u], f.labels);
    assert e in Out(n, u) by { assert Tail(u, e) in n.heads; }
    assert e in Into(n, u, Out(n, u), v);
    RelaxedMember(n, f1, u, Out(n, u), v);
    EdgeOrderIsTotal(n);
    var m := Least(Into(n, u, Out(n, u), v), EdgeOrder(n));
    assert m == e || EdgeOrder(n)(m, e);
    hide Into, Out, Least, EdgeOrder, StrictTotalOrder;
  }

  lemma BeforeSettling(q: seq<Id>, u: Id, v: Id, x: Id)
    requires Before(q + [x], u, v) && Distinct(q + [x])
    ensures Before(q, u, v) || (u == x && v !in q && v != x)
    ensures u != x ==> Before(q, u, v)
  {
    var i :| 0 <= i < |q + [x]| && (q + [x])[i] == u && v !in (q + [x])[..i + 1];
    if i < |q| {
      assert (q + [x])[..i + 1] == q[..i + 1];
    } else {
      assert (q + [x])[..i + 1] == q + [x];
    }
  }

  lemma BeforeExtends(q: seq<Id>, u: Id, v: Id, x: Id)
    requires Before(q, u, v)
    ensures Before(q + [x], u, v)
  {
    var i :| 0 <= i < |q| && q[i] == u && v !in q[..i + 1];
    assert (q + [x])[..i + 1] == q[..i + 1];
  }

  lemma SettledBeforeNew(q: seq<Id>, u: Id, x: Id)
    requires u in q && x !in q
    ensures Before(q + [x], u, x)
  {
    var i :| 0 <= i < |q| && q[i] == u;
    assert (q + [x])[..i + 1] == q[..i + 1];
  }

  lemma NextKeepsSound(n: Net, start: Id, f: Front, u: Id)
    requires Sound(n, start, f) && u in f.labels && u !in f.settled
    ensures Sound(n, start, Front(f.settled + [u], f.labels))
  {
    var f1 := Front(f.settled + [u], f.labels);
    forall v | v in f1.settled && v != start ensures Chained(n, f1, v) && Before(f1.settled, f1.labels[v].via.value.node, v) {
      assert v in f.labels && Chained(n, f, v);
      var p := f.labels[v].via.value.node;
      if v == u {
        SettledBeforeNew(f.settled, p, u);
      } else {
        BeforeExtends(f.settled, p, v, u);
      }
    }
    forall v | v in f1.labels && v != start ensures Chained(n, f1, v) {
      assert Chained(n, f, v);
    }
  }

  lemma SettleKeepsSound(n: Net, start: Id, f: Front, u: Id)
    requires Sound(n, start, f) && u in f.labels && u !in f.settled
    ensures Sound(n, start, Settle(n, f, u))
  {
    var f1, f2 := Front(f.settled + [u], f.labels), Settle(n, f, u);
    NextKeepsSound(n, start, f, u);
    SettleWithin(n, f, u);
    forall v ensures v in f2.settled ==> v in f.labels && v in f2.labels && f2.labels[v] == f.labels[v] {
      SettleLabels(n, f, u, v);
    }
    assert f2.settled == f1.settled;
    assert StartRight(start, f2) by {
      SettleLabels(n, f, u, start);
      assert start in f2.settled;
    }
    forall v | v in f2.labels && v != start ensures Chained(n, f2, v) {
      SettleKeepsChained(n, start, f, u, v);
    }
    hide Settle, Within, Arc, StartRight;
    forall v | v in f2.settled && v != start ensures Before(f2.settled, f2.labels[v].via.value.node, v) {
      assert Chained(n, f1, v) && Before(f1.settled, f1.labels[v].via.value.node, v);
    }
  }

  lemma SettleKeepsChained(n: Net, start: Id, f: Front, u: Id, v: Id)
    requires Sound(n, start, f) && u in f.labels && u !in f.settled && v in Settle(n, f, u).labels && v != start
    ensures Chained(n, Settle(n, f, u), v)
  {
    SettleLabels(n, f, u, v);
    SettleLabels(n, f, u, u);
    hide Settle, Within, Arc, StartRight, Before;
    if v in f.labels && Settle(n, f, u).labels[v] == f.labels[v] {
      assert Chained(n, f, v);
      SettleLabels(n, f, u, f.labels[v].via.value.node);
    }
  }

  lemma SettleKeepsOffered(n: Net, start: Id, f: Front, u: Id)
    requires Sound(n, start, f) && Offered(n, f) && u in f.labels && u !in f.settled
    ensures Offered(n, Settle(n, f, u))
  {
    var f2 := Settle(n, f, u);
    SettleLabels(n, f, u, u);
    forall a, e, v | Arc(n, a, e, v) && Before(f2.settled, a, v)
      ensures v in f2.labels && !Beats(Step(n, a, G(f2, a), e), f2.labels[v])
    {
      BeforeSettling(f.settled, a, v, u);
      SettleLabels(n, f, u, a);
      SettleLabels(n, f, u, v);
      if a == u {
        assert v !in f.settled && v != u;
        if v in f.labels { assert v != start ==> Chained(n, f, v); }
        StartSettledFirst(start, f, u, v);
        SettleOffers(n, f, u, e, v);
      } else {
        assert v in f.labels && !Beats(Step(n, a, G(f, a), e), f.labels[v]);
        NotBeatenStill(Step(n, a, G(f, a), e), f.labels[v], f2.labels[v]);
      }
    }
  }

  lemma StartSettledFirst(start: Id, f: Front, u: Id, v: Id)
    requires StartRight(start, f) && u in f.labels && v !in f.settled && v != u
    ensures v != start
  {
  }

  lemma NotBeatenStill(offer: Label, old_: Label, better: Label)
    requires !Beats(offer, old_) && (better == old_ || Beats(better, old_))
    requires offer.via.Some? && old_.via.Some?
    ensures !Beats(offer, better)
  {
  }

  // ------------------------------------------------------------- optimality

  /** Nothing settled was estimated above anything still open. */
  ghost predicate Monotone(n: Net, f: Front) {
    forall u, v :: u in f.settled && v in f.labels && v !in f.settled ==> F(n, f, u) <= F(n, f, v)
  }

  /** Settled labels cannot be improved along any arc. */
  ghost predicate Closed(n: Net, f: Front) {
    forall u, e, v :: u in f.settled && Arc(n, u, e, v) ==> v in f.labels && G(f, v) <= G(f, u) + Cost(n, e)
  }

  ghost predicate SettledOptimal(n: Net, start: Id, f: Front) {
    forall v :: v in f.settled ==> NoCheaperWalk(n, start, v, G(f, v))
  }

  lemma NextIsFirst(n: Net, f: Front, v: Id)
    requires OpenNodes(f) != {} && v in f.labels && v !in f.settled
    ensures F(n, f, Next(n, f)) <= F(n, f, v)
  {
    hide F, G;
    assert v == Next(n, f) || Sooner(n, f, Next(n, f), v);
  }

  lemma SettleKeepsMonotone(n: Net, start: Id, f: Front)
    requires Sound(n, start, f) && Monotone(n, f) && Consistent(n) && OpenNodes(f) != {}
    ensures Monotone(n, Settle(n, f, Next(n, f)))
  {
    var x := Next(n, f);
    var f2 := Settle(n, f, x);
    forall u, v | u in f2.settled && v in f2.labels && v !in f2.settled ensures F(n, f2, u) <= F(n, f2, v) {
      SettleLabels(n, f, x, u);
      SettleLabels(n, f, x, v);
      NextIsFirst(n, f, x);
      assert F(n, f2, u) == F(n, f, u) <= F(n, f, x) by {
        if u in f.settled { assert F(n, f, u) <= F(n, f, x); }
      }
      if v in f.labels && f2.labels[v] == f.labels[v] {
        NextIsFirst(n, f, v);
      } else {
        var e :| Arc(n, x, e, v) && f2.labels[v] == Step(n, x, f.labels[x].cost, e);
        assert Estimate(n, x) <= Cost(n, e) + Estimate(n, v);
      }
    }
  }

  lemma SettleKeepsClosed(n: Net, start: Id, f: Front)
    requires Sound(n, start, f) && Monotone(n, f) && Closed(n, f) && Offered(n, f) && Consistent(n) && OpenNodes(f) != {}
    ensures Closed(n, Settle(n, f, Next(n, f)))
  {
    var x := Next(n, f);
    var f2 := Settle(n, f, x);
    SettleLabels(n, f, x, x);
    forall u, e, v | u in f2.settled && Arc(n, u, e, v)
      ensures v in f2.labels && G(f2, v) <= G(f2, u) + Cost(n, e)
    {
      SettleLabels(n, f, x, u);
      SettleLabels(n, f, x, v);
      if u == x {
        if v in f2.settled {
          if v in f.settled {
            assert F(n, f, v) <= F(n, f, x);
          }
          assert Estimate(n, x) <= Cost(n, e) + Estimate(n, v);
        } else {
          StartSettledFirst(start, f, x, v);
          if v in f.labels { assert Chained(n, f, v); }
          SettleOffers(n, f, x, e, v);
        }
      } else {
        assert v in f.labels && G(f, v) <= G(f, u) + Cost(n, e);
      }
    }
  }

  /** Along any walk: either its end already has a label no dearer than the walk, or some open node
      on it is estimated no dearer than the whole walk. */
  lemma {:induction false} WalkIsBounded(n: Net, start: Id, f: Front, w: seq<Hop>)
    requires Sound(n, start, f) && Closed(n, f) && Consistent(n) && IsWalk(n, start, w)
    ensures var end := EndOf(start, w);
            || (end in f.labels && G(f, end) <= Length(n, w))
            || (exists z :: z in f.labels && z !in f.settled && F(n, f, z) <= Length(n, w) + Estimate(n, end))
  {
    if w != [] {
      var front, last := w[..|w| - 1], w[|w| - 1];
      WalkIsBounded(n, start, f, front);
      var y, x := EndOf(start, front), last.to;
      assert Arc(n, y, last.edge, x);
      hide Sound, IsWalk;
      assert Estimate(n, y) <= Cost(n, last.edge) + Estimate(n, x);
      if y in f.labels && G(f, y) <= Length(n, front) {
        if y in f.settled {
          assert G(f, x) <= G(f, y) + Cost(n, last.edge);
        } else {
          assert F(n, f, y) <= Length(n, w) + Estimate(n, x);
        }
      } else {
        var z :| z in f.labels && z !in f.settled && F(n, f, z) <= Length(n, front) + Estimate(n, y);
        assert F(n, f, z) <= Length(n, w) + Estimate(n, x);
      }
    }
  }

  /** When a node is settled its label is already the cheapest any walk can offer. */
  lemma NextIsOptimal(n: Net, start: Id, f: Front)
    requires Sound(n, start, f) && Monotone(n, f) && Closed(n, f) && Consistent(n) && OpenNodes(f) != {}
    ensures NoCheaperWalk(n, start, Next(n, f), G(f, Next(n, f)))
  {
    var x := Next(n, f);
    forall w | IsWalk(n, start, w) && EndOf(start, w) == x ensures G(f, x) <= Length(n, w) {
      WalkIsBounded(n, start, f, w);
      if z :| z in f.labels && z !in f.settled && F(n, f, z) <= Length(n, w) + Estimate(n, x) {
        NextIsFirst(n, f, z);
      }
    }
  }

  ghost predicate Ready(n: Net, start: Id, f: Front) {
    && Sound(n, start, f) && Offered(n, f)
    && (Consistent(n) ==> Monotone(n, f) && Closed(n, f) && SettledOptimal(n, start, f))
  }

  lemma InitialIsReady(n: Net, start: Id)
    requires WellFormed(n) && start in n.nodes
    ensures Ready(n, start, Initial(start))
  {
    InitialIsSound(n, start);
  }

  lemma SettlingKeepsOptimal(n: Net, start: Id, f: Front, u: Id)
    requires Sound(n, start, f) && SettledOptimal(n, start, f) && u in f.labels && u !in f.settled
    requires NoCheaperWalk(n, start, u, G(f, u))
    ensures SettledOptimal(n, start, Settle(n, f, u)) && SettledOptimal(n, start, Front(f.settled + [u], f.labels))
  {
    forall v | v in f.settled + [u] ensures G(Settle(n, f, u), v) == G(f, v) && v in f.labels {
      SettleLabels(n, f, u, v);
    }
    SettleLabels(n, f, u, u);
    hide Settle, NoCheaperWalk;
  }

  lemma SettleKeepsReady(n: Net, start: Id, f: Front)
    requires Ready(n, start, f) && OpenNodes(f) != {}
    ensures Ready(n, start, Settle(n, f, Next(n, f)))
  {
    hide Sound, Offered, Monotone, Closed, SettledOptimal, Consistent, Settle, NoCheaperWalk;
    SettleKeepsSound(n, start, f, Next(n, f));
    SettleKeepsOffered(n, start, f, Next(n, f));
    if Consistent(n) {
      SettleKeepsMonotone(n, start, f);
      SettleKeepsClosed(n, start, f);
      NextIsOptimal(n, start, f);
      SettlingKeepsOptimal(n, start, f, Next(n, f));
    }
  }

  // ------------------------------------------------------------- the result

  /** Each settled node's last step is the least, by cost and then edge id, of all steps into it
      from nodes settled before it. */
  ghost predicate TiesBroken(n: Net, f: Front) {
    forall u, e, v :: Arc(n, u, e, v) && Before(f.settled, u, v) && v in f.settled ==>
      v in f.labels && !Beats(Step(n, u, G(f, u), e), f.labels[v])
  }

  lemma OfferedBreaksTies(n: Net, start: Id, f: Front, u: Id)
    requires Sound(n, start, f) && Offered(n, f) && u in f.labels && u !in f.settled
    ensures TiesBroken(n, Front(f.settled + [u], f.labels))
  {
    var f1 := Front(f.settled + [u], f.labels);
    forall a, e, v | Arc(n, a, e, v) && Before(f1.settled, a, v) && v in f1.settled
      ensures v in f1.labels && !Beats(Step(n, a, G(f1, a), e), f1.labels[v])
    {
      BeforeSettling(f.settled, a, v, u);
    }
  }

  ghost predicate Finished(n: Net, start: Id, goal: Id, cap: nat, r: SearchResult) {
    match r
    case Found(f) =>
      && Sound(n, start, f) && f.settled != [] && f.settled[|f.settled| - 1] == goal && TiesBroken(n, f)
      && (Consistent(n) ==> SettledOptimal(n, start, f))
    case Exhausted(f) =>
      && Sound(n, start, f) && Offered(n, f) && OpenNodes(f) == {} && goal !in f.settled
      && (Consistent(n) ==> SettledOptimal(n, start, f))
    case LimitReached(f) =>
      && Sound(n, start, f) && TiesBroken(n, f) && goal !in f.settled && cap != 0 && |f.settled| >= cap
      && (Consistent(n) ==> SettledOptimal(n, start, f))
  }

  lemma {:induction false} ExploreFinishes(n: Net, start: Id, goal: Id, cap: nat, f: Front)
    requires Ready(n, start, f) && goal !in f.settled
    ensures Within(n, f)
    ensures Finished(n, start, goal, cap, Explore(n, goal, cap, f))
    decreases n.nodes - SettledSet(f)
  {
    hide Offered, Monotone, Closed, SettledOptimal, Consistent, NoCheaperWalk, Settle, TiesBroken;
    if OpenNodes(f) != {} {
      var u := Next(n, f);
      NextKeepsSound(n, start, f, u);
      OfferedBreaksTies(n, start, f, u);
      if Consistent(n) {
        NextIsOptimal(n, start, f);
        SettlingKeepsOptimal(n, start, f, u);
      }
      var f1 := Front(f.settled + [u], f.labels);
      if u != goal && !(cap != 0 && |f1.settled| >= cap) {
        SettleKeepsReady(n, start, f);
        SettleLabels(n, f, u, u);
        assert SettledSet(Settle(n, f, u)) == SettledSet(f) + {u};
        ExploreFinishes(n, start, goal, cap, Settle(n, f, u));
      }
    }
  }

  /** The walk the labels record, read back from a settled node to the start. */
  ghost function Route(n: Net, start: Id, f: Front, v: Id, k: nat): (w: seq<Hop>)
    requires Sound(n, start, f) && k < |f.settled| && f.settled[k] == v
    ensures IsWalk(n, start, w) && EndOf(start, w) == v
    ensures Length(n, w) == G(f, v)
    decreases k
  {
    hide Arc, IsWalk, Within, Chained;
    LastStep(n, start, f, v, k);
    if v == start then []
    else
      var via := f.labels[v].via.value;
      var j := EarlierIndex(f.settled, via.node, v, k);
      var front := Route(n, start, f, via.node, j);
      WalkExtends(n, start, front, via.edge, v);
      front + [Hop(via.edge, v)]
  }

  lemma LastStep(n: Net, start: Id, f: Front, v: Id, k: nat)
    requires Sound(n, start, f) && k < |f.settled| && f.settled[k] == v
    ensures v == start ==> G(f, v) == 0.0 && IsWalk(n, start, [])
    ensures v != start ==> Chained(n, f, v) && Before(f.settled, f.labels[v].via.value.node, v)
    ensures v != start ==> Arc(n, f.labels[v].via.value.node, f.labels[v].via.value.edge, v)
    ensures v != start ==> G(f, v) == G(f, f.labels[v].via.value.node) + Cost(n, f.labels[v].via.value.edge)
  {
    assert v in f.settled;
    hide Arc;
  }

  lemma WalkExtends(n: Net, start: Id, front: seq<Hop>, edge: Id, v: Id)
    requires IsWalk(n, start, front) && Arc(n, EndOf(start, front), edge, v)
    ensures var w := front + [Hop(edge, v)];
            IsWalk(n, start, w) && EndOf(start, w) == v && Length(n, w) == Length(n, front) + Cost(n, edge)
  {
    var w := front + [Hop(edge, v)];
    assert w[..|w| - 1] == front;
    hide Arc;
  }

  /** Each hop of a recorded walk leads from one node to another. */
  lemma {:induction false} RouteHopsMove(n: Net, start: Id, f: Front, v: Id, k: nat, h: Hop)
    requires Sound(n, start, f) && k < |f.settled| && f.settled[k] == v
    requires h in Route(n, start, f, v, k)
    ensures exists u :: u != h.to && Arc(n, u, h.edge, h.to)
    decreases k
  {
    hide Arc, IsWalk, Within, Sound;
    LastStep(n, start, f, v, k);
    if v != start {
      var via := f.labels[v].via.value;
      var j := EarlierIndex(f.settled, via.node, v, k);
      var front := Route(n, start, f, via.node, j);
      assert Route(n, start, f, v, k) == front + [Hop(via.edge, v)];
      if h in front {
        RouteHopsMove(n, start, f, via.node, j, h);
      } else {
        BeforeIsOther(f.settled, via.node, v);
        assert Arc(n, via.node, h.edge, h.to);
      }
    }
  }

  lemma BeforeIsOther(q: seq<Id>, u: Id, v: Id)
    requires Before(q, u, v)
    ensures u != v
  {
    var i :| 0 <= i < |q| && q[i] == u && v !in q[..i + 1];
    assert q[..i + 1][i] == u;
  }

  lemma LastHop(n: Net, start: Id, f: Front, v: Id, k: nat)
    requires Sound(n, start, f) && k < |f.settled| && f.settled[k] == v && v != start
    ensures v in f.labels && f.labels[v].via.Some?
    ensures var w := Route(n, start, f, v, k); w != [] && w[|w| - 1] == Hop(f.labels[v].via.value.edge, v)
  {
    LastStep(n, start, f, v, k);
    hide Sound;
  }

  lemma StartComesFirst(n: Net, start: Id, f: Front, v: Id)
    requires Sound(n, start, f) && f.settled != [] && v != start
    ensures Before(f.settled, start, v) && G(f, start) == 0.0
  {
    assert f.settled[0] == start && v !in f.settled[..1];
  }

  /** Where everything is free, ties go to the least edge id: a step from the start over edge zero is
      the last hop of the walk found to its head. */
  lemma FreeTiesGoToLeast(n: Net, start: Id, f: Front, v: Id, k: nat)
    requires Sound(n, start, f) && TiesBroken(n, f) && k < |f.settled| && f.settled[k] == v && v != start
    requires Arc(n, start, EMPTY_ID, v) && Cost(n, EMPTY_ID) == 0.0 && G(f, v) == 0.0
    ensures Hop(EMPTY_ID, v) in Route(n, start, f, v, k)
  {
    hide Sound, Route, Arc, Before, TiesBroken, Beats;
    LastHop(n, start, f, v, k);
    StartComesFirst(n, start, f, v);
    TieBroken(n, start, f, v, k);
    LeastEdgeWins(Step(n, start, G(f, start), EMPTY_ID), f.labels[v]);
    var w := Route(n, start, f, v, k);
    assert w[|w| - 1] in w;
  }

  lemma TieBroken(n: Net, u: Id, f: Front, v: Id, k: nat)
    requires TiesBroken(n, f) && k < |f.settled| && f.settled[k] == v && v in f.labels
    requires Arc(n, u, EMPTY_ID, v) && Before(f.settled, u, v)
    ensures !Beats(Step(n, u, G(f, u), EMPTY_ID), f.labels[v])
  {
    hide Arc, Before, Beats, Step;
    assert f.settled[k] in f.settled;
  }

  lemma LeastEdgeWins(offer: Label, winner: Label)
    requires offer.via.Some? && winner.via.Some? && offer.via.value.edge == EMPTY_ID && offer.cost == winner.cost
    requires !Beats(offer, winner)
    ensures winner.via.value.edge == EMPTY_ID
  {
  }

  ghost function EarlierIndex(q: seq<Id>, u: Id, v: Id, k: nat): (j: nat)
    requires Before(q, u, v) && k < |q| && q[k] == v
    ensures j < k && q[j] == u
  {
    var i :| 0 <= i < |q| && q[i] == u && v !in q[..i + 1];
    assert forall m :: 0 <= m < |q[..i + 1]| ==> q[..i + 1][m] == q[m];
    i
  }

  /** The search's verdict, for any estimate and any cap. A route found is a walk of exactly the cost
      reported. "No route" is reported only when there is no walk, even under a cap. Stopping at the
      cap means that many nodes were settled and the goal was not among them. */
  lemma SearchIsCorrect(n: Net, start: Id, goal: Id, cap: nat)
    requires WellFormed(n) && start in n.nodes
    ensures match SearchFrom(n, start, goal, cap)
            case Found(f) => exists w :: IsWalk(n, start, w) && EndOf(start, w) == goal && Length(n, w) == G(f, goal)
            case Exhausted(_) => forall w :: IsWalk(n, start, w) ==> EndOf(start, w) != goal
            case LimitReached(f) => cap != 0 && |f.settled| >= cap && goal !in f.settled
    ensures match SearchFrom(n, start, goal, cap) case Exhausted(_) => true case Found(f) => TiesBroken(n, f) case LimitReached(f) => TiesBroken(n, f)
  {
    InitialIsReady(n, start);
    ExploreFinishes(n, start, goal, cap, Initial(start));
    hide Sound, Offered, Consistent, SettledOptimal, Explore, TiesBroken;
    match SearchFrom(n, start, goal, cap)
    case Found(f) =>
      var w := Route(n, start, f, goal, |f.settled| - 1);
      assert IsWalk(n, start, w) && EndOf(start, w) == goal && Length(n, w) == G(f, goal);
    case Exhausted(f) =>
      forall w | IsWalk(n, start, w) ensures EndOf(start, w) != goal {
        WalksStaySettled(n, start, f, w);
      }
    case LimitReached(f) =>
  }

  /** The step recorded into a node is the cheapest of all steps into it from nodes settled before it, and among
      equally cheap ones the one over the smallest edge id. */
  lemma RecordedStepIsLeast(n: Net, start: Id, goal: Id, cap: nat, u: Id, e: Id, v: Id)
    requires WellFormed(n) && start in n.nodes && !SearchFrom(n, start, goal, cap).Exhausted?
    requires var f := SearchFrom(n, start, goal, cap).front; Arc(n, u, e, v) && Before(f.settled, u, v) && v in f.settled
    ensures var f := SearchFrom(n, start, goal, cap).front;
            && v in f.labels && G(f, v) <= G(f, u) + Cost(n, e)
            && (G(f, v) == G(f, u) + Cost(n, e) && f.labels[v].via.Some? ==> f.labels[v].via.value.edge <= e)
  {
    SearchIsCorrect(n, start, goal, cap);
    hide SearchFrom, Before, Arc;
  }

  /** With nothing open, every walk stays among the settled nodes. */
  lemma {:induction false} WalksStaySettled(n: Net, start: Id, f: Front, w: seq<Hop>)
    requires Sound(n, start, f) && Offered(n, f) && OpenNodes(f) == {} && IsWalk(n, start, w)
    ensures EndOf(start, w) in f.settled
  {
    if w == [] {
      AllSettled(f, start);
    } else {
      var front, last := w[..|w| - 1], w[|w| - 1];
      WalksStaySettled(n, start, f, front);
      var u, v := EndOf(start, front), last.to;
      if v !in f.settled {
        var i :| 0 <= i < |f.settled| && f.settled[i] == u;
        assert v !in f.settled[..i + 1];
        assert Before(f.settled, u, v);
        assert Arc(n, u, last.edge, v);
        assert v in f.labels;
        AllSettled(f, v);
      }
    }
  }

  lemma AllSettled(f: Front, v: Id)
    requires OpenNodes(f) == {} && v in f.labels
    ensures v in f.settled
  {
    assert v !in OpenNodes(f);
  }

  /** A consistent estimate drops along a walk by no more than the walk costs. */
  lemma {:induction false} EstimateAlongWalk(n: Net, start: Id, w: seq<Hop>)
    requires Consistent(n) && IsWalk(n, start, w)
    ensures Estimate(n, start) <= Length(n, w) + Estimate(n, EndOf(start, w))
  {
    if w != [] {
      var front, last := w[..|w| - 1], w[|w| - 1];
      EstimateAlongWalk(n, start, front);
      assert Arc(n, EndOf(start, front), last.edge, last.to);
      hide Arc, Estimate, Cost;
    }
  }

  /** So staying put is never beaten. */
  lemma StayingIsCheapest(n: Net, start: Id)
    requires Consistent(n)
    ensures NoCheaperWalk(n, start, start, 0.0)
  {
    forall w | IsWalk(n, start, w) && EndOf(start, w) == start ensures 0.0 <= Length(n, w) {
      EstimateAlongWalk(n, start, w);
    }
  }

  /** The cost recorded for a node is the least of any walk to it, and some walk achieves it. */
  ghost predicate LeastAndAttained(n: Net, start: Id, f: Front, v: Id) {
    && NoCheaperWalk(n, start, v, G(f, v))
    && exists w :: IsWalk(n, start, w) && EndOf(start, w) == v && Length(n, w) == G(f, v)
  }

  lemma SettledIsLeast(n: Net, start: Id, f: Front, v: Id)
    requires Sound(n, start, f) && SettledOptimal(n, start, f) && v in f.settled
    ensures LeastAndAttained(n, start, f, v)
  {
    hide Sound, NoCheaperWalk, IsWalk;
    var k :| 0 <= k < |f.settled| && f.settled[k] == v;
    var w := Route(n, start, f, v, k);
  }

  /** Optimality. With a consistent estimate every node settled, however the search ended, carries the
      least cost of any walk to it, and a walk achieves it; so does the goal when it is found. */
  lemma SearchIsOptimal(n: Net, start: Id, goal: Id, cap: nat)
    requires WellFormed(n) && start in n.nodes && Consistent(n)
    ensures var r := SearchFrom(n, start, goal, cap);
            && (forall v :: v in r.front.settled ==> LeastAndAttained(n, start, r.front, v))
            && (r.Found? ==> goal in r.front.settled)
  {
    InitialIsReady(n, start);
    ExploreFinishes(n, start, goal, cap, Initial(start));
    hide Sound, Offered, SettledOptimal, Explore, Consistent, TiesBroken, LeastAndAttained;
    var f := SearchFrom(n, start, goal, cap).front;
    forall v | v in f.settled ensures LeastAndAttained(n, start, f, v) {
      SettledIsLeast(n, start, f, v);
    }
  }
}
