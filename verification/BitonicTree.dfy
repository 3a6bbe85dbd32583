/**
  The tree that bisort sorts in place: nodes on the heap, the shape they form, and what the
  single descent of Bimerge does to it (wolfbench/Benchmarks/bisort/bitonic.c, built with the
  pointer-exchanging ONEONLY variant of SwapValLeft and SwapValRight).
*/
module BitonicTree {
  import opened AdaptiveMerge
  import opened BitonicSeq

  class Node {
    var value: int
    var left: Node?
    var right: Node?

    constructor (value: int)
      ensures this.value == value && left == null && right == null
    {
      this.value, left, right := value, null, null;
    }
  }

  /** The contents of a node, and of a region of nodes. */
  datatype Cell = Cell(value: int, left: Node?, right: Node?)

  type Memory = map<Node, Cell>

  ghost function Snapshot(region: set<Node>): (m: Memory)
    reads region
    ensures m.Keys == region
  {
    map n | n in region :: Cell(n.value, n.left, n.right)
  }

  /** Which node sits where. */
  datatype Shape = Nil | Fork(node: Node, left: Shape, right: Shape)

  function Root(t: Shape): Node? {
    if t.Nil? then null else t.node
  }

  function Nodes(t: Shape): set<Node> {
    if t.Nil? then {} else {t.node} + Nodes(t.left) + Nodes(t.right)
  }

  lemma {:induction false} NodesAllocated(t: Shape)
    ensures forall n :: n in Nodes(t) ==> allocated(n)
  {
    if t.Fork? {
      NodesAllocated(t.left);
      NodesAllocated(t.right);
    }
  }

  /** The memory holds the shape, without sharing. */
  ghost predicate Holds(m: Memory, t: Shape) {
    t.Fork? ==>
      && t.node in m && m[t.node].left == Root(t.left) && m[t.node].right == Root(t.right)
      && Holds(m, t.left) && Holds(m, t.right)
      && t.node !in Nodes(t.left) && t.node !in Nodes(t.right) && Nodes(t.left) !! Nodes(t.right)
  }

  predicate Perfect(t: Shape, h: nat) {
    if h == 0 then t.Nil? else t.Fork? && Perfect(t.left, h - 1) && Perfect(t.right, h - 1)
  }

  function Values(m: Memory, t: Shape): seq<int>
    requires Nodes(t) <= m.Keys
  {
    if t.Nil? then [] else Values(m, t.left) + [m[t.node].value] + Values(m, t.right)
  }

  lemma {:induction false} HoldsKeys(m: Memory, t: Shape)
    requires Holds(m, t)
    ensures Nodes(t) <= m.Keys
  {
    if t.Fork? {
      HoldsKeys(m, t.left);
      HoldsKeys(m, t.right);
    }
  }

  lemma {:induction false} SameSize(m: Memory, a: Shape, b: Shape, h: nat)
    requires Perfect(a, h) && Perfect(b, h) && Nodes(a) <= m.Keys && Nodes(b) <= m.Keys
    ensures |Values(m, a)| == |Values(m, b)|
    ensures h > 0 ==> |Values(m, a)| == 2 * |Values(m, a.left)| + 1
    ensures h > 0 ==> |Values(m, a.left)| == |Values(m, b.left)| == |Values(m, a.right)| == |Values(m, b.right)|
  {
    if h > 0 {
      SameSize(m, a.left, b.left, h - 1);
      SameSize(m, a.right, b.right, h - 1);
      SameSize(m, a.left, a.right, h - 1);
    }
  }

  ghost predicate AgreeOn(m: Memory, m': Memory, s: set<Node>) {
    forall n :: n in s ==> n in m && n in m' && m[n] == m'[n]
  }

  lemma {:induction false} HoldsFrame(m: Memory, m': Memory, t: Shape)
    requires Holds(m, t) && AgreeOn(m, m', Nodes(t))
    ensures Holds(m', t) && Nodes(t) <= m.Keys && Nodes(t) <= m'.Keys && Values(m', t) == Values(m, t)
  {
    if t.Fork? {
      HoldsFrame(m, m', t.left);
      HoldsFrame(m, m', t.right);
    }
  }

  // ------------------------------------------------------------ the descent

  /** One turn of the while loop: exchange values and one pair of subtrees, or nothing. */
  ghost function Turn(m: Memory, pl: Node, pr: Node, fromRight: bool, dir: bool): (r: Memory)
    requires pl in m && pr in m
    ensures r.Keys == m.Keys
  {
    var l, r := m[pl], m[pr];
    if !Exchanges(l.value, r.value, dir) then m
    else if fromRight then m[pr := Cell(l.value, r.left, l.right)][pl := Cell(r.value, l.left, r.right)]
    else m[pr := Cell(l.value, l.left, r.right)][pl := Cell(r.value, r.left, l.right)]
  }

  /** Which way both cursors go on. */
  predicate GoesLeft(a: int, b: int, fromRight: bool, dir: bool) {
    fromRight == Exchanges(a, b, dir)
  }

  /** The shapes after the descent. */
  ghost function DescendShapes(m: Memory, l: Shape, r: Shape, fromRight: bool, dir: bool): (Shape, Shape)
    requires Nodes(l) <= m.Keys && Nodes(r) <= m.Keys
  {
    if l.Nil? || r.Nil? then (l, r) else
    var ex := Exchanges(m[l.node].value, m[r.node].value, dir);
    if fromRight == ex then
      var d := DescendShapes(m, l.left, r.left, fromRight, dir);
      if ex then (Fork(l.node, d.0, r.right), Fork(r.node, d.1, l.right))
      else (Fork(l.node, d.0, l.right), Fork(r.node, d.1, r.right))
    else
      var d := DescendShapes(m, l.right, r.right, fromRight, dir);
      if ex then (Fork(l.node, r.left, d.0), Fork(r.node, l.left, d.1))
      else (Fork(l.node, l.left, d.0), Fork(r.node, r.left, d.1))
  }

  /** The memory after the descent, following the shapes. */
  ghost function Descend(m: Memory, l: Shape, r: Shape, fromRight: bool, dir: bool): (m': Memory)
    requires Nodes(l) <= m.Keys && Nodes(r) <= m.Keys
    ensures m'.Keys == m.Keys
    decreases l
  {
    if l.Nil? || r.Nil? then m else
    var next := Turn(m, l.node, r.node, fromRight, dir);
    if GoesLeft(m[l.node].value, m[r.node].value, fromRight, dir)
    then Descend(next, l.left, r.left, fromRight, dir)
    else Descend(next, l.right, r.right, fromRight, dir)
  }

  lemma {:induction false} DescendFrame(m: Memory, l: Shape, r: Shape, fromRight: bool, dir: bool, n: Node)
    requires Nodes(l) <= m.Keys && Nodes(r) <= m.Keys && n in m && n !in Nodes(l) && n !in Nodes(r)
    ensures Descend(m, l, r, fromRight, dir)[n] == m[n]
    decreases l
  {
    if l.Fork? && r.Fork? {
      var next := Turn(m, l.node, r.node, fromRight, dir);
      if GoesLeft(m[l.node].value, m[r.node].value, fromRight, dir) {
        DescendFrame(next, l.left, r.left, fromRight, dir, n);
      } else {
        DescendFrame(next, l.right, r.right, fromRight, dir, n);
      }
    }
  }

  /** Rearranging two pairs of disjoint node sets below x and y. */
  lemma Rearranged(x: Node, y: Node, a: set<Node>, b: set<Node>, c: set<Node>, d: set<Node>, da: set<Node>, db: set<Node>)
    requires x != y && x !in a + b + c + d && y !in a + b + c + d
    requires a !! b !! c !! d && da + db == a + b && da !! db
    ensures ({x} + da + c) + ({y} + db + d) == ({x} + a + c) + ({y} + b + d)
    ensures ({x} + da + d) + ({y} + db + c) == ({x} + a + c) + ({y} + b + d)
    ensures {x} + da + c !! {y} + db + d
    ensures {x} + da + d !! {y} + db + c
  {
    assert forall n :: n in da || n in db <==> n in a || n in b;
  }

  /** The two trees exchange nodes, but their union, their disjointness and their form stay. */
  lemma {:induction false} ShapesKeepNodes(m: Memory, l: Shape, r: Shape, fromRight: bool, dir: bool, h: nat)
    requires Holds(m, l) && Holds(m, r) && Nodes(l) <= m.Keys && Nodes(r) <= m.Keys && Nodes(l) !! Nodes(r)
    requires Perfect(l, h) && Perfect(r, h)
    ensures var d := DescendShapes(m, l, r, fromRight, dir);
      && Nodes(d.0) + Nodes(d.1) == Nodes(l) + Nodes(r) && Nodes(d.0) !! Nodes(d.1)
      && Perfect(d.0, h) && Perfect(d.1, h) && Root(d.0) == Root(l) && Root(d.1) == Root(r)
    decreases h
  {
    if h > 0 {
      var left := GoesLeft(m[l.node].value, m[r.node].value, fromRight, dir);
      var (a, b, c, d) := if left then (l.left, r.left, l.right, r.right) else (l.right, r.right, l.left, r.left);
      ShapesKeepNodes(m, a, b, fromRight, dir, h - 1);
      var s := DescendShapes(m, a, b, fromRight, dir);
      Rearranged(l.node, r.node, Nodes(a), Nodes(b), Nodes(c), Nodes(d), Nodes(s.0), Nodes(s.1));
      hide Holds;
      assert Nodes(l) == {l.node} + Nodes(a) + Nodes(c) && Nodes(r) == {r.node} + Nodes(b) + Nodes(d);
    }
  }

  /** The shapes only depend on the nodes they are made of. */
  lemma {:induction false} ShapesFrame(m: Memory, m': Memory, l: Shape, r: Shape, fromRight: bool, dir: bool)
    requires Nodes(l) <= m.Keys && Nodes(r) <= m.Keys && Nodes(l) <= m'.Keys && Nodes(r) <= m'.Keys
    requires AgreeOn(m, m', Nodes(l)) && AgreeOn(m, m', Nodes(r))
    ensures DescendShapes(m', l, r, fromRight, dir) == DescendShapes(m, l, r, fromRight, dir)
  {
    if l.Fork? && r.Fork? {
      ShapesFrame(m, m', l.left, r.left, fromRight, dir);
      ShapesFrame(m, m', l.right, r.right, fromRight, dir);
    }
  }

  /** One turn leaves everything below the two cursors as it was. */
  lemma TurnKeeps(m: Memory, l: Shape, r: Shape, t: Shape, fromRight: bool, dir: bool)
    requires Holds(m, l) && Holds(m, r) && Holds(m, t) && l.Fork? && r.Fork? && l.node !in Nodes(t) && r.node !in Nodes(t)
    ensures var next := Turn(m, l.node, r.node, fromRight, dir);
      AgreeOn(m, next, Nodes(t)) && Holds(next, t) && Nodes(t) <= m.Keys && Nodes(t) <= next.Keys && Values(next, t) == Values(m, t)
  {
    HoldsKeys(m, t);
    HoldsFrame(m, Turn(m, l.node, r.node, fromRight, dir), t);
  }

  /** The descent goes on below without touching a tree that lies elsewhere. */
  lemma DescendKeeps(m: Memory, a: Shape, b: Shape, t: Shape, fromRight: bool, dir: bool)
    requires Nodes(a) <= m.Keys && Nodes(b) <= m.Keys && Holds(m, t) && Nodes(t) !! Nodes(a) && Nodes(t) !! Nodes(b)
    ensures var m' := Descend(m, a, b, fromRight, dir);
      Holds(m', t) && Nodes(t) <= m.Keys && Values(m', t) == Values(m, t)
  {
    var m' := Descend(m, a, b, fromRight, dir);
    HoldsKeys(m, t);
    forall n | n in Nodes(t) ensures m[n] == m'[n] {
      DescendFrame(m, a, b, fromRight, dir, n);
    }
    HoldsFrame(m, m', t);
  }

  /** The two resulting trees hold what the descent on sequences yields. */
  ghost predicate Matches(m: Memory, m': Memory, l: Shape, r: Shape, l': Shape, r': Shape, fromRight: bool, dir: bool)
    requires Nodes(l) <= m.Keys && Nodes(r) <= m.Keys
  {
    && Holds(m', l') && Holds(m', r') && Nodes(l') <= m'.Keys && Nodes(r') <= m'.Keys
    && |Values(m, l)| == |Values(m, r)|
    && (Values(m', l'), Values(m', r')) == DescendSeq(Values(m, l), Values(m, r), fromRight, dir)
  }

  /** Two trees of the same height without shared nodes, held in memory. */
  ghost predicate Pair(m: Memory, l: Shape, r: Shape, h: nat) {
    Holds(m, l) && Holds(m, r) && Nodes(l) <= m.Keys && Nodes(r) <= m.Keys && Nodes(l) !! Nodes(r) && Perfect(l, h) && Perfect(r, h)
  }

  /** The subtree the cursors move to, and the other one. */
  function Near(t: Shape, goLeft: bool): Shape
    requires t.Fork?
  {
    if goLeft then t.left else t.right
  }

  function Far(t: Shape, goLeft: bool): Shape
    requires t.Fork?
  {
    if goLeft then t.right else t.left
  }

  function Rebuild(n: Node, near: Shape, far: Shape, goLeft: bool): Shape {
    if goLeft then Fork(n, near, far) else Fork(n, far, near)
  }

  lemma PairParts(m: Memory, l: Shape, r: Shape, goLeft: bool, h: nat)
    requires h > 0 && Pair(m, l, r, h)
    ensures var (a, b, c, d) := (Near(l, goLeft), Near(r, goLeft), Far(l, goLeft), Far(r, goLeft));
      && Pair(m, a, b, h - 1) && Pair(m, c, d, h - 1)
      && Nodes(a) !! Nodes(b) !! Nodes(c) !! Nodes(d)
      && l.node != r.node && l.node !in Nodes(a) + Nodes(b) + Nodes(c) + Nodes(d) && r.node !in Nodes(a) + Nodes(b) + Nodes(c) + Nodes(d)
      && l.node in m && r.node in m
  {
  }

  /** After one turn the pair below is intact and the other pair stays put throughout. */
  lemma AfterTurn(m: Memory, l: Shape, r: Shape, goLeft: bool, h: nat, fromRight: bool, dir: bool)
    requires h > 0 && Pair(m, l, r, h)
    ensures var (a, b, c, d) := (Near(l, goLeft), Near(r, goLeft), Far(l, goLeft), Far(r, goLeft));
      var next := Turn(m, l.node, r.node, fromRight, dir);
      && Pair(m, a, b, h - 1) && Pair(m, c, d, h - 1) && Pair(next, a, b, h - 1)
      && Values(next, a) == Values(m, a) && Values(next, b) == Values(m, b)
      && DescendShapes(next, a, b, fromRight, dir) == DescendShapes(m, a, b, fromRight, dir)
    ensures var (a, b, c, d) := (Near(l, goLeft), Near(r, goLeft), Far(l, goLeft), Far(r, goLeft));
      var next := Turn(m, l.node, r.node, fromRight, dir);
      var m' := Descend(next, a, b, fromRight, dir);
      && Holds(m', c) && Holds(m', d) && Values(m', c) == Values(m, c) && Values(m', d) == Values(m, d)
      && m'[l.node] == next[l.node] && m'[r.node] == next[r.node]
  {
    var (a, b, c, d) := (Near(l, goLeft), Near(r, goLeft), Far(l, goLeft), Far(r, goLeft));
    var next := Turn(m, l.node, r.node, fromRight, dir);
    PairParts(m, l, r, goLeft, h);
    hide Turn, Descend, DescendShapes, Values, Holds, Nodes, Perfect, Near, Far;
    TurnKeeps(m, l, r, a, fromRight, dir);
    TurnKeeps(m, l, r, b, fromRight, dir);
    TurnKeeps(m, l, r, c, fromRight, dir);
    TurnKeeps(m, l, r, d, fromRight, dir);
    ShapesFrame(m, next, a, b, fromRight, dir);
    DescendKeeps(next, a, b, c, fromRight, dir);
    DescendKeeps(next, a, b, d, fromRight, dir);
    DescendFrame(next, a, b, fromRight, dir, l.node);
    DescendFrame(next, a, b, fromRight, dir, r.node);
  }

  /** How the resulting shapes and memory are put together from the pieces of one turn. */
  lemma Unfold(m: Memory, l: Shape, r: Shape, fromRight: bool, dir: bool)
    requires Nodes(l) <= m.Keys && Nodes(r) <= m.Keys && l.Fork? && r.Fork?
    ensures var ex := Exchanges(m[l.node].value, m[r.node].value, dir); var g := fromRight == ex;
      var (a, b, c, d) := (Near(l, g), Near(r, g), Far(l, g), Far(r, g));
      var s := DescendShapes(m, a, b, fromRight, dir);
      && DescendShapes(m, l, r, fromRight, dir)
        == (Rebuild(l.node, s.0, if ex then d else c, g), Rebuild(r.node, s.1, if ex then c else d, g))
      && Descend(m, l, r, fromRight, dir) == Descend(Turn(m, l.node, r.node, fromRight, dir), a, b, fromRight, dir)
  {
  }

  /** The rebuilt trees are held in memory. */
  lemma RebuiltHold(m: Memory, m': Memory, l: Shape, r: Shape, a': Shape, b': Shape, h: nat, fromRight: bool, dir: bool)
    requires h > 0 && Pair(m, l, r, h)
    requires var ex := Exchanges(m[l.node].value, m[r.node].value, dir); var g := fromRight == ex;
      && Holds(m', a') && Holds(m', b') && Holds(m', Far(l, g)) && Holds(m', Far(r, g))
      && Nodes(a') + Nodes(b') == Nodes(Near(l, g)) + Nodes(Near(r, g))
      && Root(a') == Root(Near(l, g)) && Root(b') == Root(Near(r, g))
    requires l.node in m' && m'[l.node] == Turn(m, l.node, r.node, fromRight, dir)[l.node]
    requires r.node in m' && m'[r.node] == Turn(m, l.node, r.node, fromRight, dir)[r.node]
    ensures var ex := Exchanges(m[l.node].value, m[r.node].value, dir); var g := fromRight == ex;
      && Holds(m', Rebuild(l.node, a', if ex then Far(r, g) else Far(l, g), g))
      && Holds(m', Rebuild(r.node, b', if ex then Far(l, g) else Far(r, g), g))
  {
    hide Exchanges;
    var g := fromRight == Exchanges(m[l.node].value, m[r.node].value, dir);
    assert forall n :: n in Nodes(a') || n in Nodes(b') <==> n in Nodes(Near(l, g)) || n in Nodes(Near(r, g));
  }

  lemma RebuiltValues(m: Memory, n: Node, near: Shape, far: Shape, g: bool)
    requires n in m && Nodes(near) <= m.Keys && Nodes(far) <= m.Keys
    ensures Nodes(Rebuild(n, near, far, g)) <= m.Keys
    ensures Values(m, Rebuild(n, near, far, g)) == Around(Values(m, near), m[n].value, Values(m, far), g)
  {
    if g {
      assert Rebuild(n, near, far, g) == Fork(n, near, far);
    } else {
      assert Rebuild(n, near, far, g) == Fork(n, far, near);
    }
  }

  lemma TurnCells(m: Memory, pl: Node, pr: Node, fromRight: bool, dir: bool)
    requires pl in m && pr in m && pl != pr
    ensures var ex := Exchanges(m[pl].value, m[pr].value, dir); var next := Turn(m, pl, pr, fromRight, dir);
      && next[pl].value == (if ex then m[pr].value else m[pl].value)
      && next[pr].value == (if ex then m[pl].value else m[pr].value)
  {
  }

  /** A shape is its node with its near and far subtrees. */
  lemma AsRebuilt(t: Shape, g: bool)
    requires t.Fork?
    ensures t == Rebuild(t.node, Near(t, g), Far(t, g), g)
  {
    assert t == Fork(t.node, t.left, t.right);
  }

  /** What is known when the descent below the first turn has been dealt with. */
  ghost predicate Below(m: Memory, l: Shape, r: Shape, h: nat, fromRight: bool, dir: bool, g: bool, next: Memory, m': Memory, a': Shape, b': Shape)
  {
    && h > 0 && Pair(m, l, r, h) && l.Fork? && r.Fork? && l.node in m && r.node in m
    && g == GoesLeft(m[l.node].value, m[r.node].value, fromRight, dir)
    && next == Turn(m, l.node, r.node, fromRight, dir)
    && Nodes(Near(l, g)) <= next.Keys && Nodes(Near(r, g)) <= next.Keys
    && m' == Descend(next, Near(l, g), Near(r, g), fromRight, dir)
    && (a', b') == DescendShapes(next, Near(l, g), Near(r, g), fromRight, dir)
    && Matches(next, m', Near(l, g), Near(r, g), a', b', fromRight, dir)
  }

  lemma TurnHolds(m: Memory, l: Shape, r: Shape, h: nat, fromRight: bool, dir: bool, g: bool, next: Memory, m': Memory, a': Shape, b': Shape)
    requires Below(m, l, r, h, fromRight, dir, g, next, m', a', b')
    ensures var d := DescendShapes(m, l, r, fromRight, dir);
      m' == Descend(m, l, r, fromRight, dir) && Holds(m', d.0) && Holds(m', d.1)
  {
    hide Descend, DescendShapes, Holds, Perfect, DescendSeq, Exchanges, Values, Nodes, Near, Far, Rebuild, Turn;
    PairParts(m, l, r, g, h);
    AfterTurn(m, l, r, g, h, fromRight, dir);
    ShapesKeepNodes(m, Near(l, g), Near(r, g), fromRight, dir, h - 1);
    Unfold(m, l, r, fromRight, dir);
    RebuiltHold(m, m', l, r, a', b', h, fromRight, dir);
  }

  lemma TurnKeepsValues(m: Memory, l: Shape, r: Shape, h: nat, fromRight: bool, dir: bool, g: bool, next: Memory, m': Memory, a': Shape, b': Shape)
    requires Below(m, l, r, h, fromRight, dir, g, next, m', a', b')
    ensures l.node in m && r.node in m && Nodes(Near(l, g)) <= m.Keys && Nodes(Near(r, g)) <= m.Keys && Nodes(Far(l, g)) <= m.Keys && Nodes(Far(r, g)) <= m.Keys
    ensures Nodes(Far(l, g)) <= m'.Keys && Nodes(Far(r, g)) <= m'.Keys && l.node in m' && r.node in m'
    ensures Values(next, Near(l, g)) == Values(m, Near(l, g)) && Values(next, Near(r, g)) == Values(m, Near(r, g))
    ensures Values(m', Far(l, g)) == Values(m, Far(l, g)) && Values(m', Far(r, g)) == Values(m, Far(r, g))
    ensures |Values(m, Near(l, g))| == |Values(m, Near(r, g))| == |Values(m, Far(l, g))| == |Values(m, Far(r, g))|
    ensures var ex := Exchanges(m[l.node].value, m[r.node].value, dir);
      && m'[l.node].value == (if ex then m[r.node].value else m[l.node].value)
      && m'[r.node].value == (if ex then m[l.node].value else m[r.node].value)
  {
    hide Descend, DescendShapes, Holds, Perfect, DescendSeq, Exchanges, Values, Nodes, Near, Far, Turn, Matches;
    PairParts(m, l, r, g, h);
    AfterTurn(m, l, r, g, h, fromRight, dir);
    TurnCells(m, l.node, r.node, fromRight, dir);
    SameSize(m, Near(l, g), Near(r, g), h - 1);
    SameSize(m, Far(l, g), Far(r, g), h - 1);
    SameSize(m, Near(l, g), Far(l, g), h - 1);
  }

  lemma TurnMatches(m: Memory, l: Shape, r: Shape, h: nat, fromRight: bool, dir: bool, g: bool, next: Memory, m': Memory, a': Shape, b': Shape)
    requires Below(m, l, r, h, fromRight, dir, g, next, m', a', b')
    ensures var d := DescendShapes(m, l, r, fromRight, dir);
      m' == Descend(m, l, r, fromRight, dir) && Matches(m, m', l, r, d.0, d.1, fromRight, dir)
  {
    TurnHolds(m, l, r, h, fromRight, dir, g, next, m', a', b');
    TurnKeepsValues(m, l, r, h, fromRight, dir, g, next, m', a', b');
    hide Descend, DescendShapes, Holds, Perfect, DescendSeq, Exchanges, Values, Nodes, Near, Far, Rebuild, Turn, Around;
    var ex := Exchanges(m[l.node].value, m[r.node].value, dir);
    var a, b, c, d := Near(l, g), Near(r, g), Far(l, g), Far(r, g);
    AfterTurn(m, l, r, g, h, fromRight, dir);
    Unfold(m, l, r, fromRight, dir);
    AsRebuilt(l, g);
    AsRebuilt(r, g);
    RebuiltValues(m', l.node, a', if ex then d else c, g);
    RebuiltValues(m', r.node, b', if ex then c else d, g);
    RebuiltValues(m, l.node, a, c, g);
    RebuiltValues(m, r.node, b, d, g);
    DescendSeqStep(m[l.node].value, m[r.node].value, Values(m, a), Values(m, b), Values(m, c), Values(m, d), fromRight, dir);
  }

  lemma PairRoots(m: Memory, l: Shape, r: Shape, h: nat)
    requires Pair(m, l, r, h)
    ensures Nodes(l) <= m.Keys && Nodes(r) <= m.Keys
    ensures h > 0 ==> l.Fork? && r.Fork? && l.node in m && r.node in m
  {
  }

  lemma IsBelow(m: Memory, l: Shape, r: Shape, h: nat, fromRight: bool, dir: bool, g: bool, next: Memory, m': Memory, a': Shape, b': Shape)
    requires h > 0 && Pair(m, l, r, h) && l.Fork? && r.Fork? && l.node in m && r.node in m
    requires g == GoesLeft(m[l.node].value, m[r.node].value, fromRight, dir)
    requires next == Turn(m, l.node, r.node, fromRight, dir)
    requires Nodes(Near(l, g)) <= next.Keys && Nodes(Near(r, g)) <= next.Keys
    requires m' == Descend(next, Near(l, g), Near(r, g), fromRight, dir)
    requires (a', b') == DescendShapes(next, Near(l, g), Near(r, g), fromRight, dir)
    requires Matches(next, m', Near(l, g), Near(r, g), a', b', fromRight, dir)
    ensures Below(m, l, r, h, fromRight, dir, g, next, m', a', b')
  {
    hide Pair, GoesLeft, Turn, Nodes, Descend, DescendShapes, Matches, Near;
  }

  lemma LeavesMatch(m: Memory, l: Shape, r: Shape, fromRight: bool, dir: bool)
    requires Pair(m, l, r, 0)
    ensures var d := DescendShapes(m, l, r, fromRight, dir);
      Matches(m, Descend(m, l, r, fromRight, dir), l, r, d.0, d.1, fromRight, dir)
  {
  }

  /** The root-to-leaf descent, by pointer exchanges, computes DescendSeq on the in-order values of both trees. */
  lemma {:induction false} DescendMatches(m: Memory, l: Shape, r: Shape, h: nat, fromRight: bool, dir: bool)
    requires Pair(m, l, r, h)
    ensures var d := DescendShapes(m, l, r, fromRight, dir);
      Matches(m, Descend(m, l, r, fromRight, dir), l, r, d.0, d.1, fromRight, dir)
    decreases h
  {
    hide *;
    PairRoots(m, l, r, h);
    if h == 0 {
      LeavesMatch(m, l, r, fromRight, dir);
    } else {
      var g := GoesLeft(m[l.node].value, m[r.node].value, fromRight, dir);
      var next := Turn(m, l.node, r.node, fromRight, dir);
      var a, b := Near(l, g), Near(r, g);
      AfterTurn(m, l, r, g, h, fromRight, dir);
      PairRoots(next, a, b, h - 1);
      DescendMatches(next, a, b, h - 1, fromRight, dir);
      var s := DescendShapes(next, a, b, fromRight, dir);
      IsBelow(m, l, r, h, fromRight, dir, g, next, Descend(next, a, b, fromRight, dir), s.0, s.1);
      TurnMatches(m, l, r, h, fromRight, dir, g, next, Descend(next, a, b, fromRight, dir), s.0, s.1);
    }
  }
}
