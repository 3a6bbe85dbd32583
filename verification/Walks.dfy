/**
  Walks in a weighted graph given by a cost matrix, and the state of the queue-based
  shortest-path search of wolfbench/Benchmarks/dijkstra/dijkstra_large.c.
*/
module Walks {
  const NUM_NODES: nat := 100
  const NONE: int := 9999

  type Matrix = (nat, nat) -> int

  ghost predicate IsWalk(w: Matrix, s: nat, v: nat, p: seq<nat>) {
    && |p| > 0 && p[0] == s && p[|p| - 1] == v
    && (forall k :: 0 <= k < |p| ==> p[k] < NUM_NODES)
    && (forall k {:trigger p[k]} :: 0 <= k < |p| - 1 ==> w(p[k], p[k + 1]) != NONE)
  }

  ghost predicate IsSimple(p: seq<nat>) {
    forall i, j :: 0 <= i < j < |p| ==> p[i] != p[j]
  }

  ghost function Cost(w: Matrix, p: seq<nat>): int {
    if |p| <= 1 then 0 else Cost(w, p[..|p| - 1]) + w(p[|p| - 2], p[|p| - 1])
  }

  /** The cost of the walk as far as position k. */
  ghost function CostAt(w: Matrix, p: seq<nat>, k: nat): int
    requires k < |p|
  {
    Cost(w, p[..k + 1])
  }

  lemma CostAtExtended(w: Matrix, p: seq<nat>, v: nat, k: nat)
    requires k <= |p|
    ensures CostAt(w, p + [v], k) == if k < |p| then CostAt(w, p, k) else Cost(w, p + [v])
  {
    assert (p + [v])[..k + 1] == if k < |p| then p[..k + 1] else p + [v];
  }

  ghost predicate NonNegative(w: Matrix) {
    forall i, j :: w(i, j) >= 0
  }

  /** No path from s costs as much as the value that stands for infinity. */
  ghost predicate Bounded(w: Matrix, s: nat) {
    forall v, p :: IsWalk(w, s, v, p) && IsSimple(p) ==> Cost(w, p) < NONE
  }

  lemma {:induction false} CostPositive(w: Matrix, p: seq<nat>, k: nat)
    requires NonNegative(w) && k < |p|
    ensures 0 <= CostAt(w, p, k) <= Cost(w, p)
  {
    if k + 1 < |p| {
      var q := p[..|p| - 1];
      CostPositive(w, q, k);
      assert q[..k + 1] == p[..k + 1];
    } else {
      assert p[..k + 1] == p;
      if |p| > 1 {
        CostPositive(w, p[..|p| - 1], 0);
      }
    }
  }

  lemma Extend(w: Matrix, s: nat, u: nat, p: seq<nat>, v: nat)
    requires IsWalk(w, s, u, p) && v < NUM_NODES && w(u, v) != NONE
    ensures IsWalk(w, s, v, p + [v]) && Cost(w, p + [v]) == Cost(w, p) + w(u, v)
  {
    assert (p + [v])[..|p|] == p;
  }

  // ------------------------------------------------------------------- labels

  datatype Item = Item(node: nat, dist: int)

  /** What the program keeps (dist, prev, queue) and what the proof adds (a path per label and item, a time per label). */
  datatype State = State(dist: seq<int>, prev: seq<int>, queue: seq<Item>,
                         paths: seq<seq<nat>>, routes: seq<seq<nat>>, stamp: seq<nat>, clock: nat)

  ghost predicate Shaped(x: State) {
    |x.dist| == |x.prev| == |x.paths| == |x.stamp| == NUM_NODES && |x.queue| == |x.routes|
  }

  /** p is a simple path from s to v of this cost, all of whose vertices have labels no greater than along p. */
  ghost predicate Covered(w: Matrix, s: nat, dist: seq<int>, v: nat, cost: int, p: seq<nat>)
    requires |dist| == NUM_NODES
  {
    && IsWalk(w, s, v, p) && IsSimple(p) && Cost(w, p) == cost
    && forall k :: 0 <= k < |p| ==> dist[p[k]] <= CostAt(w, p, k)
  }

  ghost predicate Labelled(w: Matrix, s: nat, x: State)
    requires Shaped(x) && s < NUM_NODES
  {
    && x.dist[s] == 0
    && forall v: nat :: v < NUM_NODES && x.dist[v] != NONE ==>
      IsWalk(w, s, v, x.paths[v]) && IsSimple(x.paths[v]) && Cost(w, x.paths[v]) == x.dist[v]
  }

  ghost predicate Queued(w: Matrix, s: nat, x: State)
    requires Shaped(x)
  {
    forall k :: 0 <= k < |x.queue| ==> Covered(w, s, x.dist, x.queue[k].node, x.queue[k].dist, x.routes[k])
  }

  /** Edges out of u towards vertices below n need no further work. */
  ghost predicate RelaxedTo(w: Matrix, dist: seq<int>, u: nat, d: int, n: nat)
    requires |dist| == NUM_NODES
  {
    forall v: nat :: v < n && v < NUM_NODES && w(u, v) != NONE ==> dist[v] != NONE && dist[v] <= d + w(u, v)
  }

  ghost predicate Waiting(x: State, u: nat, d: int) {
    exists k :: 0 <= k < |x.queue| && x.queue[k] == Item(u, d)
  }

  /** Every label is either in the queue or has been used on all edges, except perhaps that of one vertex. */
  ghost predicate Frontier(w: Matrix, x: State, but: nat, d: int)
    requires Shaped(x)
  {
    forall u: nat :: u < NUM_NODES && x.dist[u] != NONE && !(u == but && x.dist[u] == d) ==>
      Waiting(x, u, x.dist[u]) || RelaxedTo(w, x.dist, u, x.dist[u], NUM_NODES)
  }

  /** The predecessor's label explains the label, and where it does so exactly it is older. */
  ghost predicate Linked(w: Matrix, s: nat, x: State)
    requires Shaped(x) && s < NUM_NODES
  {
    && x.prev[s] == NONE
    && (forall v: nat :: v < NUM_NODES ==> x.stamp[v] < x.clock)
    && forall v: nat :: v < NUM_NODES && v != s ==>
      if x.dist[v] == NONE then x.prev[v] == NONE else IsLink(w, x, v)
  }

  ghost predicate IsLink(w: Matrix, x: State, v: nat)
    requires Shaped(x) && v < NUM_NODES
  {
    var u := x.prev[v];
    && 0 <= u < NUM_NODES && x.dist[u] != NONE && w(u, v) != NONE && x.dist[u] + w(u, v) <= x.dist[v]
    && (x.dist[u] + w(u, v) == x.dist[v] ==> x.stamp[u] < x.stamp[v])
  }

  ghost predicate Inv(w: Matrix, s: nat, x: State) {
    s < NUM_NODES && Shaped(x) && Labelled(w, s, x) && Queued(w, s, x) && Linked(w, s, x)
  }

  function Start(s: nat): State
    requires s < NUM_NODES
  {
    var none := seq(NUM_NODES, _ => NONE);
    State(none[s := 0], none, [Item(s, 0)], seq(NUM_NODES, _ => [s]), [[s]], seq(NUM_NODES, _ => 0), 1)
  }

  lemma StartInv(w: Matrix, s: nat)
    requires s < NUM_NODES
    ensures Inv(w, s, Start(s)) && Frontier(w, Start(s), s, NONE)
  {
    var x := Start(s);
    assert [s][..1] == [s];
    assert x.queue[0] == Item(s, 0);
  }

  /** The label of v lowered through u, and v queued with it. */
  function Relax(x: State, w: Matrix, u: nat, d: int, route: seq<nat>, v: nat): State
    requires |x.dist| == |x.prev| == |x.paths| == |x.stamp| == NUM_NODES && v < NUM_NODES
  {
    State(x.dist[v := d + w(u, v)], x.prev[v := u], x.queue + [Item(v, d + w(u, v))],
          x.paths[v := route + [v]], x.routes + [route + [v]], x.stamp[v := x.clock], x.clock + 1)
  }

  /** The comparison of the inner loop. */
  predicate Improves(x: State, w: Matrix, u: nat, d: int, v: nat)
    requires |x.dist| == NUM_NODES && v < NUM_NODES
  {
    w(u, v) != NONE && (x.dist[v] == NONE || x.dist[v] > w(u, v) + d)
  }

  /** The item being worked on: its label may meanwhile have been lowered. */
  ghost predicate InHand(w: Matrix, s: nat, x: State, u: nat, d: int, route: seq<nat>)
    requires Shaped(x)
  {
    u < NUM_NODES && Covered(w, s, x.dist, u, d, route)
  }

  /** Along a covered path labels are known and no greater than the cost. */
  lemma CoveredLabels(w: Matrix, s: nat, dist: seq<int>, u: nat, d: int, p: seq<nat>, v: nat)
    requires NonNegative(w) && Bounded(w, s) && |dist| == NUM_NODES && Covered(w, s, dist, u, d, p)
    ensures 0 <= d < NONE && u in p && s in p
    ensures v in p ==> v < NUM_NODES && dist[v] <= d
  {
    assert Cost(w, p) < NONE;
    assert p[..|p|] == p;
    CostPositive(w, p, |p| - 1);
    if v in p {
      var k :| 0 <= k < |p| && p[k] == v;
      CostPositive(w, p, k);
    }
  }

  /** A vertex that improves is new on the route, so labels stay costs of simple paths. */
  lemma NewOnRoute(w: Matrix, s: nat, x: State, u: nat, d: int, route: seq<nat>, v: nat)
    requires NonNegative(w) && Bounded(w, s) && Shaped(x) && InHand(w, s, x, u, d, route) && v < NUM_NODES && Improves(x, w, u, d, v)
    ensures v !in route && v != s && v != u && x.dist[u] <= d < NONE
    ensures IsWalk(w, s, v, route + [v]) && IsSimple(route + [v]) && Cost(w, route + [v]) == d + w(u, v)
    ensures 0 <= d + w(u, v) < NONE && d + w(u, v) < x.dist[v]
  {
    CoveredLabels(w, s, x.dist, u, d, route, v);
    CoveredLabels(w, s, x.dist, u, d, route, u);
    assert IsWalk(w, s, u, route) && IsSimple(route);
    hide Covered;
    Extend(w, s, u, route, v);
    assert IsSimple(route + [v]);
  }

  lemma CoveredAt(w: Matrix, s: nat, dist: seq<int>, v: nat, cost: int, p: seq<nat>)
    requires |dist| == NUM_NODES && Covered(w, s, dist, v, cost, p)
    ensures forall k :: 0 <= k < |p| ==> p[k] < NUM_NODES && dist[p[k]] <= CostAt(w, p, k)
  {
    hide CostAt;
  }

  /** The extended route is covered once the label is lowered. */
  lemma ExtendedCovered(w: Matrix, s: nat, dist: seq<int>, u: nat, d: int, route: seq<nat>, v: nat)
    requires |dist| == NUM_NODES && v < NUM_NODES && Covered(w, s, dist, u, d, route) && v !in route
    requires IsWalk(w, s, v, route + [v]) && IsSimple(route + [v]) && Cost(w, route + [v]) == d + w(u, v)
    ensures Covered(w, s, dist[v := d + w(u, v)], v, d + w(u, v), route + [v])
  {
    hide *;
    CoveredAt(w, s, dist, u, d, route);
    var p := route + [v];
    forall k | 0 <= k < |p| ensures p[k] < NUM_NODES && dist[v := d + w(u, v)][p[k]] <= CostAt(w, p, k) {
      CostAtExtended(w, route, v, k);
    }
    IsCovered(w, s, dist[v := d + w(u, v)], v, d + w(u, v), p);
  }

  lemma IsCovered(w: Matrix, s: nat, dist: seq<int>, v: nat, cost: int, p: seq<nat>)
    requires |dist| == NUM_NODES && IsWalk(w, s, v, p) && IsSimple(p) && Cost(w, p) == cost
    requires forall k :: 0 <= k < |p| ==> p[k] < NUM_NODES && dist[p[k]] <= CostAt(w, p, k)
    ensures Covered(w, s, dist, v, cost, p)
  {
  }

  /** Lowering a label keeps covered what was covered. */
  lemma StillCovered(w: Matrix, s: nat, dist: seq<int>, v: nat, lower: int, t: nat, cost: int, p: seq<nat>)
    requires |dist| == NUM_NODES && v < NUM_NODES && lower <= dist[v] && Covered(w, s, dist, t, cost, p)
    ensures Covered(w, s, dist[v := lower], t, cost, p)
  {
  }

  lemma RelaxQueued(w: Matrix, s: nat, x: State, u: nat, d: int, route: seq<nat>, v: nat)
    requires NonNegative(w) && Bounded(w, s) && Shaped(x) && Queued(w, s, x) && InHand(w, s, x, u, d, route)
    requires v < NUM_NODES && Improves(x, w, u, d, v)
    ensures Shaped(Relax(x, w, u, d, route, v))
    ensures Queued(w, s, Relax(x, w, u, d, route, v)) && InHand(w, s, Relax(x, w, u, d, route, v), u, d, route)
  {
    hide Covered, Bounded, IsWalk, IsSimple, Cost, NonNegative;
    NewOnRoute(w, s, x, u, d, route, v);
    ExtendedCovered(w, s, x.dist, u, d, route, v);
    var x' := Relax(x, w, u, d, route, v);
    hide Improves;
    forall k | 0 <= k < |x.queue| ensures Covered(w, s, x'.dist, x.queue[k].node, x.queue[k].dist, x.routes[k]) {
      StillCovered(w, s, x.dist, v, d + w(u, v), x.queue[k].node, x.queue[k].dist, x.routes[k]);
    }
    StillCovered(w, s, x.dist, v, d + w(u, v), u, d, route);
  }

  lemma RelaxLinked(w: Matrix, s: nat, x: State, u: nat, d: int, route: seq<nat>, v: nat)
    requires NonNegative(w) && Shaped(x) && s < NUM_NODES && Linked(w, s, x) && v < NUM_NODES && u < NUM_NODES
    requires v != s && u != v && w(u, v) != NONE && x.dist[u] <= d && x.dist[u] != NONE && d + w(u, v) < x.dist[v] && d + w(u, v) != NONE
    ensures Linked(w, s, Relax(x, w, u, d, route, v))
  {
    var x' := Relax(x, w, u, d, route, v);
    forall t: nat | t < NUM_NODES && t != s ensures if x'.dist[t] == NONE then x'.prev[t] == NONE else IsLink(w, x', t) {
      assert t != v && x.dist[t] != NONE ==> IsLink(w, x, t);
    }
  }

  /** One successful comparison of the inner loop keeps the invariant and lowers the label. */
  lemma RelaxInv(w: Matrix, s: nat, x: State, u: nat, d: int, route: seq<nat>, v: nat)
    requires NonNegative(w) && Bounded(w, s) && Inv(w, s, x) && InHand(w, s, x, u, d, route)
    requires v < NUM_NODES && Improves(x, w, u, d, v)
    ensures var x' := Relax(x, w, u, d, route, v);
      Inv(w, s, x') && InHand(w, s, x', u, d, route) && 0 <= x'.dist[v] < x.dist[v] && x'.dist[v] < NONE && v != s && v != u
  {
    hide IsWalk, IsSimple, Cost, Bounded, Covered, NonNegative, Queued, Linked, Labelled;
    NewOnRoute(w, s, x, u, d, route, v);
    RelaxQueued(w, s, x, u, d, route, v);
    RelaxLinked(w, s, x, u, d, route, v);
    RelaxLabelled(w, s, x, u, d, route, v);
  }

  lemma RelaxLabelled(w: Matrix, s: nat, x: State, u: nat, d: int, route: seq<nat>, v: nat)
    requires Shaped(x) && s < NUM_NODES && Labelled(w, s, x) && v < NUM_NODES && v != s
    requires IsWalk(w, s, v, route + [v]) && IsSimple(route + [v]) && Cost(w, route + [v]) == d + w(u, v)
    ensures Labelled(w, s, Relax(x, w, u, d, route, v))
  {
    hide IsWalk, IsSimple, Cost;
  }

  lemma RelaxFrontier(w: Matrix, x: State, u: nat, d: int, route: seq<nat>, v: nat)
    requires Shaped(x) && Frontier(w, x, u, d) && RelaxedTo(w, x.dist, u, d, v) && v < NUM_NODES && u != v
    requires d + w(u, v) < x.dist[v] && d + w(u, v) < NONE
    ensures var x' := Relax(x, w, u, d, route, v); Frontier(w, x', u, d) && RelaxedTo(w, x'.dist, u, d, v + 1)
  {
    var x' := Relax(x, w, u, d, route, v);
    forall t: nat | t < NUM_NODES && x'.dist[t] != NONE && !(t == u && x'.dist[t] == d)
      ensures Waiting(x', t, x'.dist[t]) || RelaxedTo(w, x'.dist, t, x'.dist[t], NUM_NODES)
    {
      if t == v {
        assert x'.queue[|x.queue|] == Item(t, x'.dist[t]);
      } else if Waiting(x, t, x.dist[t]) {
        var k :| 0 <= k < |x.queue| && x.queue[k] == Item(t, x.dist[t]);
        assert x'.queue[k] == Item(t, x'.dist[t]);
      }
    }
  }

  lemma SkipFrontier(w: Matrix, x: State, u: nat, d: int, v: nat)
    requires Shaped(x) && RelaxedTo(w, x.dist, u, d, v) && v < NUM_NODES && !Improves(x, w, u, d, v)
    ensures RelaxedTo(w, x.dist, u, d, v + 1)
  {
  }

  // ------------------------------------------------------------------ results

  /** The queue is empty and every label has been used on every edge. */
  ghost predicate Finished(w: Matrix, s: nat, x: State) {
    Inv(w, s, x) && forall u: nat :: u < NUM_NODES && x.dist[u] != NONE ==> RelaxedTo(w, x.dist, u, x.dist[u], NUM_NODES)
  }

  lemma EmptyQueue(w: Matrix, s: nat, x: State)
    requires Inv(w, s, x) && Frontier(w, x, s, NONE) && x.queue == []
    ensures Finished(w, s, x)
  {
  }

  /** A walk without its last edge. */
  lemma ShorterWalk(w: Matrix, s: nat, v: nat, p: seq<nat>)
    requires IsWalk(w, s, v, p) && |p| > 1
    ensures var u := p[|p| - 2];
      v < NUM_NODES && w(u, v) != NONE && IsWalk(w, s, u, p[..|p| - 1]) && Cost(w, p) == Cost(w, p[..|p| - 1]) + w(u, v)
  {
    var q := p[..|p| - 1];
    assert forall k {:trigger q[k]} :: 0 <= k < |q| - 1 ==> q[k] == p[k] && q[k + 1] == p[k + 1];
    assert w(p[|p| - 2], p[|p| - 1]) != NONE;
  }

  /** No walk costs less than the label. */
  lemma {:induction false} LowerBound(w: Matrix, s: nat, x: State, v: nat, p: seq<nat>)
    requires Finished(w, s, x) && IsWalk(w, s, v, p)
    ensures v < NUM_NODES && x.dist[v] != NONE && x.dist[v] <= Cost(w, p)
    decreases |p|
  {
    if |p| > 1 {
      var u := p[|p| - 2];
      ShorterWalk(w, s, v, p);
      hide IsWalk, Cost, Inv;
      LowerBound(w, s, x, u, p[..|p| - 1]);
      assert RelaxedTo(w, x.dist, u, x.dist[u], NUM_NODES);
    }
  }

  /** dist holds the least walk costs from s, and NONE where there is no walk. */
  ghost predicate AreShortest(w: Matrix, s: nat, dist: seq<int>) {
    && |dist| == NUM_NODES
    && (forall v: nat, p :: IsWalk(w, s, v, p) ==> v < NUM_NODES && dist[v] != NONE && dist[v] <= Cost(w, p))
    && (forall v: nat :: v < NUM_NODES && dist[v] != NONE ==> exists p :: IsWalk(w, s, v, p) && Cost(w, p) == dist[v])
  }

  lemma Correct(w: Matrix, s: nat, x: State)
    requires Finished(w, s, x)
    ensures AreShortest(w, s, x.dist)
  {
    forall v: nat, p | IsWalk(w, s, v, p) ensures v < NUM_NODES && x.dist[v] != NONE && x.dist[v] <= Cost(w, p) {
      LowerBound(w, s, x, v, p);
    }
    forall v: nat | v < NUM_NODES && x.dist[v] != NONE ensures exists p :: IsWalk(w, s, v, p) && Cost(w, p) == x.dist[v] {
      assert IsWalk(w, s, v, x.paths[v]);
    }
  }

  /** At the end a label is exactly its predecessor's plus the edge, and following predecessors terminates. */
  lemma Backward(w: Matrix, s: nat, x: State, v: nat)
    requires NonNegative(w) && Finished(w, s, x) && v < NUM_NODES && x.prev[v] != NONE
    ensures v != s && 0 <= x.prev[v] < NUM_NODES && x.dist[v] != NONE && x.dist[x.prev[v]] != NONE && w(x.prev[v], v) != NONE
    ensures x.dist[v] == x.dist[x.prev[v]] + w(x.prev[v], v)
    ensures 0 <= x.dist[x.prev[v]] && x.stamp[x.prev[v]] < x.stamp[v]
  {
    var u := x.prev[v];
    assert v != s && IsLink(w, x, v);
    assert RelaxedTo(w, x.dist, u, x.dist[u], NUM_NODES);
    var p := x.paths[u];
    assert p[..1] == p[..0 + 1] && |p| > 0;
    CostPositive(w, p, 0);
  }

  lemma NoPredecessor(w: Matrix, s: nat, x: State, v: nat)
    requires Finished(w, s, x) && v < NUM_NODES && x.prev[v] == NONE
    ensures v == s || x.dist[v] == NONE
    ensures x.dist[s] == 0
  {
    assert v != s && x.dist[v] != NONE ==> IsLink(w, x, v);
  }

  ghost function Sum(dist: seq<int>): int {
    if dist == [] then 0 else Sum(dist[..|dist| - 1]) + dist[|dist| - 1]
  }

  lemma {:induction false} SumUpdate(dist: seq<int>, v: nat, d: int)
    requires v < |dist|
    ensures Sum(dist[v := d]) == Sum(dist) - dist[v] + d
  {
    var n := |dist| - 1;
    if v < n {
      SumUpdate(dist[..n], v, d);
      assert dist[v := d][..n] == dist[..n][v := d];
    } else {
      assert dist[v := d][..n] == dist[..n];
    }
  }

  lemma {:induction false} SumPositive(dist: seq<int>)
    requires forall v :: 0 <= v < |dist| ==> dist[v] >= 0
    ensures Sum(dist) >= 0
  {
    if dist != [] {
      SumPositive(dist[..|dist| - 1]);
    }
  }

  /** The labels are never negative, so their sum bounds the number of improvements. */
  lemma LabelsPositive(w: Matrix, s: nat, x: State)
    requires NonNegative(w) && Inv(w, s, x)
    ensures Sum(x.dist) >= 0
  {
    forall v: nat | v < NUM_NODES ensures x.dist[v] >= 0 {
      if x.dist[v] != NONE {
        CostPositive(w, x.paths[v], 0);
      }
    }
    SumPositive(x.dist);
  }
}
