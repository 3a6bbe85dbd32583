/**
  The first-in-first-out shortest-path search with its linked queue, and the printing of the path
  (wolfbench/Benchmarks/dijkstra/dijkstra_large.c).
*/
module Dijkstra {
  import opened Walks

  class QItem {
    const iNode: nat
    const iDist: int
    const iPrev: int
    var qNext: QItem?

    constructor (iNode: nat, iDist: int, iPrev: int)
      ensures this.iNode == iNode && this.iDist == iDist && this.iPrev == iPrev && qNext == null
    {
      this.iNode, this.iDist, this.iPrev, qNext := iNode, iDist, iPrev, null;
    }
  }

  ghost predicate IsQueue(head: QItem?, items: seq<QItem>)
    reads items
  {
    && head == (if items == [] then null else items[0])
    && (forall i {:trigger items[i].qNext} :: 0 <= i < |items| ==> items[i].qNext == if i + 1 < |items| then items[i + 1] else null)
    && (forall i, j :: 0 <= i < j < |items| ==> items[i] != items[j])
  }

  ghost function Contents(items: seq<QItem>): (q: seq<Item>)
    ensures |q| == |items|
  {
    seq(|items|, i requires 0 <= i < |items| => Item(items[i].iNode, items[i].iDist))
  }

  class Queue {
    var qHead: QItem?
    var gqCount: int
    ghost var items: seq<QItem>

    ghost predicate Valid()
      reads this, items
    {
      IsQueue(qHead, items) && gqCount == |items|
    }

    constructor ()
      ensures Valid() && items == []
    {
      qHead, gqCount, items := null, 0, [];
    }

    method Enqueue(iNode: nat, iDist: int, iPrev: int)
      requires Valid()
      modifies this, items
      ensures Valid() && Contents(items) == old(Contents(items)) + [Item(iNode, iDist)]
      ensures |items| == old(|items|) + 1 && items[..|items| - 1] == old(items) && fresh(items[|items| - 1])
    {
      var qNew := new QItem(iNode, iDist, iPrev);
      if qHead == null {
        qHead := qNew;
      } else {
        var qLast := qHead;
        ghost var i := 0;
        while qLast.qNext != null
          invariant 0 <= i < |items| && qLast == items[i]
          decreases |items| - i
        {
          qLast := qLast.qNext;
          i := i + 1;
        }
        qLast.qNext := qNew;
      }
      items := items + [qNew];
      gqCount := gqCount + 1;
    }

    /** Takes the first item; the results stay what they were when the queue is empty. */
    method Dequeue(iNode0: nat, iDist0: int, iPrev0: int) returns (iNode: nat, iDist: int, iPrev: int)
      requires Valid()
      modifies this
      ensures Valid()
      ensures old(items) == [] ==> items == [] && (iNode, iDist, iPrev) == (iNode0, iDist0, iPrev0)
      ensures old(items) != [] ==> items == old(items)[1..] && Contents(items) == old(Contents(items))[1..]
      ensures old(items) != [] ==> Item(iNode, iDist) == old(Contents(items))[0] && iPrev == old(items[0].iPrev)
    {
      iNode, iDist, iPrev := iNode0, iDist0, iPrev0;
      if qHead != null {
        iNode, iDist, iPrev := qHead.iNode, qHead.iDist, qHead.iPrev;
        qHead := qHead.qNext;
        gqCount := gqCount - 1;
        assert forall i :: 0 <= i < |items| - 1 ==> items[1..][i] == items[i + 1];
        items := items[1..];
      }
    }
  }

  datatype Node = Node(iDist: int, iPrev: int)

  ghost predicate IsMatrix(adjMatrix: array2<int>, w: Matrix)
    reads adjMatrix
  {
    && adjMatrix.Length0 == adjMatrix.Length1 == NUM_NODES
    && forall i: nat, j: nat :: i < NUM_NODES && j < NUM_NODES ==> adjMatrix[i, j] == w(i, j)
  }

  /** The program's state is that of x. */
  ghost predicate Represents(rgnNodes: array<Node>, queue: Queue, x: State)
    reads rgnNodes, queue, queue.items
  {
    && Shaped(x) && rgnNodes.Length == NUM_NODES && (forall v :: 0 <= v < NUM_NODES ==> rgnNodes[v] == Node(x.dist[v], x.prev[v]))
    && queue.Valid() && Contents(queue.items) == x.queue
  }

  /** The body of the inner loop: one edge out of iNode. */
  method Consider(iNode: nat, iDist: int, i: nat, adjMatrix: array2<int>, rgnNodes: array<Node>, queue: Queue,
                  ghost w: Matrix, ghost s: nat, ghost x: State, ghost route: seq<nat>)
    returns (ghost x': State)
    requires NonNegative(w) && Bounded(w, s) && IsMatrix(adjMatrix, w) && i < NUM_NODES && iNode < NUM_NODES
    requires Represents(rgnNodes, queue, x) && Inv(w, s, x) && InHand(w, s, x, iNode, iDist, route)
    requires Frontier(w, x, iNode, iDist) && RelaxedTo(w, x.dist, iNode, iDist, i)
    modifies rgnNodes, queue, queue.items
    ensures Represents(rgnNodes, queue, x') && Inv(w, s, x') && InHand(w, s, x', iNode, iDist, route)
    ensures Frontier(w, x', iNode, iDist) && RelaxedTo(w, x'.dist, iNode, iDist, i + 1)
    ensures x' == x || Sum(x'.dist) < Sum(x.dist)
    ensures fresh(set o | o in queue.items && o !in old(queue.items))
  {
    hide Inv, Frontier, RelaxedTo, InHand, Sum, Bounded;
    x' := x;
    var iCost := adjMatrix[iNode, i];
    if iCost != NONE {
      if rgnNodes[i].iDist == NONE || rgnNodes[i].iDist > iCost + iDist {
        RelaxInv(w, s, x, iNode, iDist, route, i);
        RelaxFrontier(w, x, iNode, iDist, route, i);
        SumUpdate(x.dist, i, iDist + iCost);
        x' := Relax(x, w, iNode, iDist, route, i);
        rgnNodes[i] := Node(iDist + iCost, iNode);
        queue.Enqueue(i, iDist + iCost, iNode);
        return;
      }
    }
    SkipFrontier(w, x, iNode, iDist, i);
  }

  /** The state with its first item taken out. */
  ghost function Taken(x: State): State
    requires |x.queue| > 0 && |x.routes| > 0
  {
    x.(queue := x.queue[1..], routes := x.routes[1..])
  }

  lemma CoveredNode(w: Matrix, s: nat, dist: seq<int>, v: nat, cost: int, p: seq<nat>)
    requires |dist| == NUM_NODES && Covered(w, s, dist, v, cost, p)
    ensures v < NUM_NODES
  {
  }

  lemma Take(w: Matrix, s: nat, x: State)
    requires Inv(w, s, x) && Frontier(w, x, s, NONE) && x.queue != []
    ensures Inv(w, s, Taken(x)) && x.queue[0].node < NUM_NODES
    ensures InHand(w, s, Taken(x), x.queue[0].node, x.queue[0].dist, x.routes[0])
    ensures Frontier(w, Taken(x), x.queue[0].node, x.queue[0].dist) && RelaxedTo(w, x.dist, x.queue[0].node, x.queue[0].dist, 0)
  {
    hide Labelled, Linked, RelaxedTo, Covered;
    var x' := Taken(x);
    assert Labelled(w, s, x') && Linked(w, s, x') by { OnlyQueue(w, s, x, x'); }
    assert Covered(w, s, x.dist, x.queue[0].node, x.queue[0].dist, x.routes[0]);
    CoveredNode(w, s, x.dist, x.queue[0].node, x.queue[0].dist, x.routes[0]);
    forall u: nat | u < NUM_NODES && Waiting(x, u, x.dist[u]) && Item(u, x.dist[u]) != x.queue[0] ensures Waiting(x', u, x.dist[u]) {
      var k :| 0 <= k < |x.queue| && x.queue[k] == Item(u, x.dist[u]);
      assert x'.queue[k - 1] == Item(u, x.dist[u]);
    }
    assert RelaxedTo(w, x.dist, x.queue[0].node, x.queue[0].dist, 0) by { NothingYet(w, x.dist, x.queue[0].node, x.queue[0].dist); }
  }

  lemma OnlyQueue(w: Matrix, s: nat, x: State, x': State)
    requires Shaped(x) && Shaped(x') && s < NUM_NODES && Labelled(w, s, x) && Linked(w, s, x)
    requires x'.dist == x.dist && x'.prev == x.prev && x'.paths == x.paths && x'.stamp == x.stamp && x'.clock == x.clock
    ensures Labelled(w, s, x') && Linked(w, s, x')
  {
    forall v: nat | v < NUM_NODES && v != s && x.dist[v] != NONE ensures IsLink(w, x', v) {
      assert IsLink(w, x, v);
    }
  }

  lemma NothingYet(w: Matrix, dist: seq<int>, u: nat, d: int)
    requires |dist| == NUM_NODES
    ensures RelaxedTo(w, dist, u, d, 0)
  {
  }

  lemma AllUsed(w: Matrix, s: nat, x: State, u: nat, d: int)
    requires Shaped(x) && s < NUM_NODES && x.dist[s] != NONE && Frontier(w, x, u, d) && RelaxedTo(w, x.dist, u, d, NUM_NODES)
    ensures Frontier(w, x, s, NONE)
  {
  }

  /** The first item, taken out of the queue. */
  method First(rgnNodes: array<Node>, queue: Queue, ghost w: Matrix, ghost s: nat, ghost x: State)
    returns (iNode: nat, iDist: int, ghost x': State, ghost route: seq<nat>)
    requires Represents(rgnNodes, queue, x) && Inv(w, s, x) && Frontier(w, x, s, NONE) && x.queue != []
    modifies queue
    ensures Represents(rgnNodes, queue, x') && Inv(w, s, x') && iNode < NUM_NODES && InHand(w, s, x', iNode, iDist, route)
    ensures Frontier(w, x', iNode, iDist) && RelaxedTo(w, x'.dist, iNode, iDist, 0)
    ensures x'.dist == x.dist && |x'.queue| < |x.queue| && forall o :: o in queue.items ==> o in old(queue.items)
  {
    Take(w, s, x);
    hide Inv, Frontier, RelaxedTo, InHand;
    var iPrev;
    iNode, iDist, iPrev := queue.Dequeue(0, 0, 0);
    x', route := Taken(x), x.routes[0];
  }

  /** One turn of the outer loop: the first item is used on every edge out of its node. */
  method Turn(adjMatrix: array2<int>, rgnNodes: array<Node>, queue: Queue, ghost w: Matrix, ghost s: nat, ghost x: State)
    returns (ghost x': State)
    requires NonNegative(w) && Bounded(w, s) && IsMatrix(adjMatrix, w)
    requires Represents(rgnNodes, queue, x) && Inv(w, s, x) && Frontier(w, x, s, NONE) && x.queue != []
    modifies rgnNodes, queue, queue.items
    ensures Represents(rgnNodes, queue, x') && Inv(w, s, x') && Frontier(w, x', s, NONE)
    ensures Sum(x'.dist) < Sum(x.dist) || (x'.dist == x.dist && |x'.queue| < |x.queue|)
    ensures fresh(set o | o in queue.items && o !in old(queue.items))
  {
    hide Inv, Frontier, RelaxedTo, InHand, Sum, Bounded, IsMatrix, IsQueue, Contents, NonNegative;
    var iNode, iDist; ghost var route;
    iNode, iDist, x', route := First(rgnNodes, queue, w, s, x);
    var i := 0;
    while i < NUM_NODES
      invariant 0 <= i <= NUM_NODES && IsMatrix(adjMatrix, w)
      invariant Represents(rgnNodes, queue, x') && Inv(w, s, x') && InHand(w, s, x', iNode, iDist, route)
      invariant Frontier(w, x', iNode, iDist) && RelaxedTo(w, x'.dist, iNode, iDist, i)
      invariant (x'.dist == x.dist && |x'.queue| < |x.queue|) || Sum(x'.dist) < Sum(x.dist)
      invariant fresh(set o | o in queue.items && o !in old(queue.items))
    {
      x' := Consider(iNode, iDist, i, adjMatrix, rgnNodes, queue, w, s, x', route);
      i := i + 1;
    }
    StartLabel(w, s, x');
    AllUsed(w, s, x', iNode, iDist);
  }

  lemma StartLabel(w: Matrix, s: nat, x: State)
    requires Inv(w, s, x)
    ensures Shaped(x) && s < NUM_NODES && x.dist[s] == 0
  {
  }

  /** The nodes that print_path prints, in order. */
  method PrintPath(rgnNodes: array<Node>, chNode: nat, ghost w: Matrix, ghost s: nat, ghost x: State) returns (printed: seq<nat>)
    requires NonNegative(w) && Finished(w, s, x) && chNode < NUM_NODES
    requires rgnNodes.Length == NUM_NODES && forall v :: 0 <= v < NUM_NODES ==> rgnNodes[v] == Node(x.dist[v], x.prev[v])
    ensures if x.dist[chNode] == NONE then printed == [chNode]
            else IsWalk(w, s, chNode, printed) && Cost(w, printed) == x.dist[chNode]
    decreases x.stamp[chNode]
  {
    printed := [];
    if rgnNodes[chNode].iPrev != NONE {
      Backward(w, s, x, chNode);
      hide Finished, NonNegative;
      printed := PrintPath(rgnNodes, rgnNodes[chNode].iPrev, w, s, x);
      Extend(w, s, rgnNodes[chNode].iPrev, printed, chNode);
    } else {
      NoPredecessor(w, s, x, chNode);
    }
    printed := printed + [chNode];
  }

  ghost function Dists(rgnNodes: array<Node>): (d: seq<int>)
    reads rgnNodes
  {
    seq(rgnNodes.Length, i requires 0 <= i < rgnNodes.Length reads rgnNodes => rgnNodes[i].iDist)
  }

  /** The first loop: no node has a distance or a predecessor. */
  method Clear(rgnNodes: array<Node>)
    modifies rgnNodes
    ensures forall v :: 0 <= v < rgnNodes.Length ==> rgnNodes[v] == Node(NONE, NONE)
  {
    var ch := 0;
    while ch < rgnNodes.Length
      invariant 0 <= ch <= rgnNodes.Length && forall v :: 0 <= v < ch ==> rgnNodes[v] == Node(NONE, NONE)
    {
      rgnNodes[ch] := Node(NONE, NONE);
      ch := ch + 1;
    }
  }

  /** The start node with label 0 is the first in the queue. */
  method Seed(chStart: nat, rgnNodes: array<Node>, queue: Queue) returns (ghost x: State)
    requires chStart < NUM_NODES && queue.Valid() && queue.items == []
    requires rgnNodes.Length == NUM_NODES && (forall v :: 0 <= v < NUM_NODES ==> rgnNodes[v] == Node(NONE, NONE))
    modifies rgnNodes, queue
    ensures x == Start(chStart) && Represents(rgnNodes, queue, x) && fresh(set o | o in queue.items)
  {
    x := Start(chStart);
    rgnNodes[chStart] := Node(0, NONE);
    queue.Enqueue(chStart, 0, NONE);
  }

  /** From cleared nodes and an empty queue: the search proper. */
  method Run(chStart: nat, adjMatrix: array2<int>, rgnNodes: array<Node>, queue: Queue, ghost w: Matrix) returns (ghost x: State)
    requires NonNegative(w) && Bounded(w, chStart) && IsMatrix(adjMatrix, w) && chStart < NUM_NODES
    requires rgnNodes.Length == NUM_NODES && (forall v :: 0 <= v < NUM_NODES ==> rgnNodes[v] == Node(NONE, NONE))
    requires queue.Valid() && queue.items == []
    modifies rgnNodes, queue
    ensures Finished(w, chStart, x) && Represents(rgnNodes, queue, x) && queue.items == []
  {
    hide Inv, Frontier, Sum, Bounded, IsMatrix, IsQueue, Contents, NonNegative;
    StartInv(w, chStart);
    x := Seed(chStart, rgnNodes, queue);
    LabelsPositive(w, chStart, x);
    while queue.gqCount > 0
      invariant IsMatrix(adjMatrix, w) && Represents(rgnNodes, queue, x) && Inv(w, chStart, x) && Frontier(w, x, chStart, NONE)
      invariant fresh(set o | o in queue.items) && Sum(x.dist) >= 0
      decreases Sum(x.dist), |x.queue|
    {
      x := Turn(adjMatrix, rgnNodes, queue, w, chStart, x);
      LabelsPositive(w, chStart, x);
    }
    EmptyQueue(w, chStart, x);
  }

  /** Least costs from chStart to every node, and the path printed for chEnd. */
  method Dijkstra(chStart: nat, chEnd: nat, adjMatrix: array2<int>, rgnNodes: array<Node>, queue: Queue, ghost w: Matrix)
    returns (printed: seq<nat>)
    requires NonNegative(w) && Bounded(w, chStart) && IsMatrix(adjMatrix, w) && chStart < NUM_NODES && chEnd < NUM_NODES
    requires rgnNodes.Length == NUM_NODES && queue.Valid() && queue.items == []
    modifies rgnNodes, queue
    ensures queue.Valid() && queue.items == []
    ensures chStart == chEnd ==> printed == [] && forall v :: 0 <= v < NUM_NODES ==> rgnNodes[v] == Node(NONE, NONE)
    ensures chStart != chEnd ==> AreShortest(w, chStart, Dists(rgnNodes))
    ensures chStart != chEnd ==> if rgnNodes[chEnd].iDist == NONE then printed == [chEnd]
      else IsWalk(w, chStart, chEnd, printed) && Cost(w, printed) == rgnNodes[chEnd].iDist
  {
    Clear(rgnNodes);
    printed := [];
    if chStart != chEnd {
      ghost var x := Run(chStart, adjMatrix, rgnNodes, queue, w);
      Correct(w, chStart, x);
      hide AreShortest, Finished;
      assert Dists(rgnNodes) == x.dist;
      printed := PrintPath(rgnNodes, chEnd, w, chStart, x);
    }
  }
}
