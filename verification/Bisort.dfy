/**
  Adaptive bitonic sort in place on a perfect tree of nodes and one spare value
  (Bimerge and Bisort of wolfbench/Benchmarks/bisort/bitonic.c).
*/
module Bisort {
  import opened Bits
  import opened AdaptiveMerge
  import opened BitonicSeq
  import opened BitonicTree

  /** n is the root of a perfect tree of height h with shape t. */
  ghost predicate IsTree(n: Node?, t: Shape, h: nat)
    reads Nodes(t)
  {
    n == Root(t) && Holds(Snapshot(Nodes(t)), t) && Perfect(t, h)
  }

  /** The values in order. */
  ghost function Vals(t: Shape): seq<int>
    reads Nodes(t)
  {
    Values(Snapshot(Nodes(t)), t)
  }

  /** What a larger snapshot says about t, t's own snapshot says too. */
  lemma Narrow(t: Shape, region: set<Node>)
    requires Nodes(t) <= region
    ensures Holds(Snapshot(region), t) <==> Holds(Snapshot(Nodes(t)), t)
    ensures Values(Snapshot(region), t) == Vals(t)
  {
    NarrowTo(t, region, Nodes(t));
  }

  lemma {:induction false} NarrowTo(t: Shape, big: set<Node>, small: set<Node>)
    requires Nodes(t) <= small <= big
    ensures Holds(Snapshot(big), t) <==> Holds(Snapshot(small), t)
    ensures Values(Snapshot(big), t) == Values(Snapshot(small), t)
  {
    if t.Fork? {
      NarrowTo(t.left, big, small);
      NarrowTo(t.right, big, small);
    }
  }

  lemma Parts(n: Node, t: Shape, h: nat)
    requires IsTree(n, t, h)
    ensures h > 0 && t.Fork? && t.node == n
    ensures IsTree(n.left, t.left, h - 1) && IsTree(n.right, t.right, h - 1)
    ensures n !in Nodes(t.left) + Nodes(t.right) && Nodes(t.left) !! Nodes(t.right)
    ensures Vals(t) == Vals(t.left) + [n.value] + Vals(t.right) && |Vals(t.left)| == |Vals(t.right)|
    ensures Pair(Snapshot(Nodes(t)), t.left, t.right, h - 1)
  {
    Narrow(t.left, Nodes(t));
    Narrow(t.right, Nodes(t));
    SameSize(Snapshot(Nodes(t)), t.left, t.right, h - 1);
  }

  lemma Build(n: Node, l: Shape, r: Shape, h: nat)
    requires IsTree(n.left, l, h) && IsTree(n.right, r, h)
    requires n !in Nodes(l) + Nodes(r) && Nodes(l) !! Nodes(r)
    ensures IsTree(n, Fork(n, l, r), h + 1) && Vals(Fork(n, l, r)) == Vals(l) + [n.value] + Vals(r)
  {
    var t := Fork(n, l, r);
    Narrow(l, Nodes(t));
    Narrow(r, Nodes(t));
  }

  /** SwapValRight, or SwapValLeft when fromRight is false. */
  method SwapPart(l: Node, r: Node, fromRight: bool, dir: bool, ghost region: set<Node>)
    requires l in region && r in region && l != r
    requires Exchanges(l.value, r.value, dir)
    modifies l, r
    ensures Snapshot(region) == Turn(old(Snapshot(region)), l, r, fromRight, dir)
  {
    var lval, rval := l.value, r.value;
    r.value := lval;
    if fromRight {
      var lr, rr := l.right, r.right;
      r.right := lr;
      l.right := rr;
    } else {
      var ll, rl := l.left, r.left;
      r.left := ll;
      l.left := rl;
    }
    l.value := rval;
  }

  /** The two subtrees after the descent, their values, and what the descent left alone. */
  ghost predicate Descended(root: Node, l: Shape, r: Shape, vl: seq<int>, vr: seq<int>, l': Shape, r': Shape, h: nat, fromRight: bool, dir: bool)
    reads root, Nodes(l'), Nodes(r')
  {
    && IsTree(root.left, l', h) && IsTree(root.right, r', h)
    && Nodes(l') + Nodes(r') == Nodes(l) + Nodes(r) && Nodes(l') !! Nodes(r')
    && |vl| == |vr| && (Vals(l'), Vals(r')) == DescendSeq(vl, vr, fromRight, dir)
  }

  /** Where the cursors stand after one turn, and that the rest of the descent is still to be done. */
  lemma Onward(m: Memory, cl: Shape, cr: Shape, k: nat, fromRight: bool, dir: bool)
    requires k > 0 && Pair(m, cl, cr, k)
    ensures cl.Fork? && cr.Fork? && cl.node in m && cr.node in m && cl.node != cr.node
    ensures m[cl.node].left == Root(cl.left) && m[cl.node].right == Root(cl.right)
    ensures m[cr.node].left == Root(cr.left) && m[cr.node].right == Root(cr.right)
    ensures var g := GoesLeft(m[cl.node].value, m[cr.node].value, fromRight, dir);
      var next := Turn(m, cl.node, cr.node, fromRight, dir);
      && Pair(next, Near(cl, g), Near(cr, g), k - 1)
      && Descend(next, Near(cl, g), Near(cr, g), fromRight, dir) == Descend(m, cl, cr, fromRight, dir)
  {
    PairParts(m, cl, cr, true, k);
    AfterTurn(m, cl, cr, GoesLeft(m[cl.node].value, m[cr.node].value, fromRight, dir), k, fromRight, dir);
    Unfold(m, cl, cr, fromRight, dir);
  }

  lemma PairRoots(m: Memory, cl: Shape, cr: Shape, k: nat)
    requires Pair(m, cl, cr, k)
    ensures Root(cl) == null <==> k == 0
    ensures k == 0 ==> cl.Nil? && cr.Nil?
  {
  }

  /** One turn of the loop, on the heap. */
  method TurnBoth(pl: Node, pr: Node, fromRight: bool, dir: bool, ghost region: set<Node>) returns (elementExchange: bool)
    requires pl in region && pr in region && pl != pr
    modifies pl, pr
    ensures elementExchange == old(Exchanges(pl.value, pr.value, dir))
    ensures Snapshot(region) == Turn(old(Snapshot(region)), pl, pr, fromRight, dir)
  {
    elementExchange := Exchanges(pl.value, pr.value, dir);
    if elementExchange {
      SwapPart(pl, pr, fromRight, dir, region);
    }
  }

  /** What the finished descent amounts to. */
  lemma Arrived(root: Node, l: Shape, r: Shape, region: set<Node>, m0: Memory, h: nat, fromRight: bool, dir: bool)
    requires Pair(m0, l, r, h) && m0.Keys == region == Nodes(l) + Nodes(r) && root !in region
    requires root.left == Root(l) && root.right == Root(r)
    requires Snapshot(region) == Descend(m0, l, r, fromRight, dir)
    ensures var d := DescendShapes(m0, l, r, fromRight, dir);
      Descended(root, l, r, Values(m0, l), Values(m0, r), d.0, d.1, h, fromRight, dir)
  {
    hide Descend, DescendShapes, Holds, Perfect, Values, Nodes, DescendSeq;
    var d := DescendShapes(m0, l, r, fromRight, dir);
    DescendMatches(m0, l, r, h, fromRight, dir);
    ShapesKeepNodes(m0, l, r, fromRight, dir, h);
    SameSize(m0, l, r, h);
    Narrow(d.0, region);
    Narrow(d.1, region);
  }

  lemma NothingLeft(m: Memory, cl: Shape, cr: Shape, fromRight: bool, dir: bool)
    requires Pair(m, cl, cr, 0)
    ensures Descend(m, cl, cr, fromRight, dir) == m
  {
  }

  /** The while loop of Bimerge, with both cursors going down together. */
  method DescendLoop(l: Node?, r: Node?, fromRight: bool, dir: bool, ghost region: set<Node>, ghost tl: Shape, ghost tr: Shape, ghost h: nat)
    requires l == Root(tl) && r == Root(tr) && Pair(Snapshot(region), tl, tr, h)
    modifies region
    ensures Nodes(tl) <= region && Nodes(tr) <= region
    ensures Snapshot(region) == Descend(old(Snapshot(region)), tl, tr, fromRight, dir)
  {
    hide Descend, DescendShapes, Holds, Perfect, Values, Nodes, Turn, Exchanges;
    var pl, pr := l, r;
    ghost var cl, cr, k := tl, tr, h;
    PairRoots(Snapshot(region), cl, cr, k);
    while pl != null
      invariant pl == Root(cl) && pr == Root(cr) && (pl == null <==> k == 0)
      invariant Pair(Snapshot(region), cl, cr, k)
      invariant Descend(Snapshot(region), cl, cr, fromRight, dir) == Descend(old(Snapshot(region)), tl, tr, fromRight, dir)
      decreases k
    {
      Onward(Snapshot(region), cl, cr, k, fromRight, dir);
      var pll, plr, prl, prr := pl.left, pl.right, pr.left, pr.right;
      var elementExchange := TurnBoth(pl, pr, fromRight, dir, region);
      if fromRight == elementExchange {
        pl, pr := pll, prl;
        cl, cr := cl.left, cr.left;
      } else {
        pl, pr := plr, prr;
        cl, cr := cl.right, cr.right;
      }
      k := k - 1;
      PairRoots(Snapshot(region), cl, cr, k);
    }
    NothingLeft(Snapshot(region), cl, cr, fromRight, dir);
  }

  method DescendBoth(root: Node, ghost l: Shape, ghost r: Shape, ghost h: nat, fromRight: bool, dir: bool)
    returns (ghost l': Shape, ghost r': Shape)
    requires IsTree(root.left, l, h) && IsTree(root.right, r, h) && Nodes(l) !! Nodes(r) && root !in Nodes(l) + Nodes(r)
    modifies Nodes(l), Nodes(r)
    ensures root.left == old(root.left) && root.right == old(root.right) && root.value == old(root.value)
    ensures Descended(root, l, r, old(Vals(l)), old(Vals(r)), l', r', h, fromRight, dir)
  {
    hide Descend, DescendShapes, Holds, Perfect, Values, Nodes, DescendSeq, Turn, Exchanges;
    ghost var region := Nodes(l) + Nodes(r);
    ghost var m0 := Snapshot(region);
    Narrow(l, region);
    Narrow(r, region);
    ghost var shapes := DescendShapes(m0, l, r, fromRight, dir);
    l', r' := shapes.0, shapes.1;
    DescendLoop(root.left, root.right, fromRight, dir, region, l, r, h);
    Arrived(root, l, r, region, m0, h, fromRight, dir);
  }

  /** A tree of height h and a spare make Pow2(h) values. */
  lemma {:induction false} TreeSize(n: Node?, t: Shape, h: nat)
    requires IsTree(n, t, h)
    ensures |Vals(t)| + 1 == Pow2(h)
    decreases h
  {
    if h > 0 {
      Parts(n, t, h);
      TreeSize(n.left, t.left, h - 1);
    }
  }

  /** after is the merge of before. */
  ghost predicate Merged(before: seq<int>, after: seq<int>, h: nat, dir: bool) {
    |before| == Pow2(h) && after == MergeSeq(before, h, dir)
  }

  lemma MergedOne(v: int, dir: bool)
    ensures Merged([v], [v], 0, dir)
  {
  }

  /** Merging both results of the descent merges the whole. */
  lemma MergedWhole(x: seq<int>, u: int, y: seq<int>, spr: int, lo: seq<int>, hi: seq<int>, lo': seq<int>, hi': seq<int>, h: nat, dir: bool)
    requires h > 0 && |x| == |y| == Pow2(h - 1) - 1 && (lo, hi) == DescendSeq(x, y, Exchanges(u, spr, dir), dir)
    requires Merged(lo + [if Exchanges(u, spr, dir) then spr else u], lo', h - 1, dir)
    requires Merged(hi + [if Exchanges(u, spr, dir) then u else spr], hi', h - 1, dir)
    ensures Merged(x + [u] + y + [spr], lo' + hi', h, dir)
  {
    hide MergeSeq, DescendSeq, Exchanges;
    MergeSeqUnfold(x, u, y, spr, h, dir);
  }

  /** after is what Bisort makes of before. */
  ghost predicate IsSort(before: seq<int>, after: seq<int>, h: nat, dir: bool) {
    |before| == Pow2(h) && after == SortSeq(before, h, dir)
  }

  /** The two recursive calls at the end of Bimerge, when there are subtrees. */
  method MergeHalves(root: Node, spr: int, dir: bool, ghost l: Shape, ghost r: Shape, ghost h: nat)
    returns (sprVal: int, ghost l': Shape, ghost r': Shape)
    requires IsTree(root.left, l, h) && IsTree(root.right, r, h) && Nodes(l) !! Nodes(r) && root !in Nodes(l) + Nodes(r)
    modifies root, Nodes(l), Nodes(r)
    ensures IsTree(root.left, l', h) && IsTree(root.right, r', h) && Nodes(l') == Nodes(l) && Nodes(r') == Nodes(r)
    ensures Merged(old(Vals(l)) + [old(root.value)], Vals(l') + [root.value], h, dir)
    ensures Merged(old(Vals(r)) + [spr], Vals(r') + [sprVal], h, dir)
    decreases h, 1
  {
    hide IsTree, Vals, Merged, Nodes;
    sprVal, l', r' := spr, l, r;
    if root.left != null {
      NonEmptyTree(root.left, l, h);
      NonEmptyTree(root.right, r, h);
      var rl, rr, value := root.left, root.right, root.value;
      NodesAllocated(r);
      value, l' := Bimerge(rl, value, dir, l, h);
      root.value := value;
      assert Vals(r) == old(Vals(r));
      ghost var sorted := Vals(l');
      NodesAllocated(l');
      sprVal, r' := Bimerge(rr, sprVal, dir, r, h);
      assert Vals(l') == sorted;
    } else {
      EmptyTree(root.left, l, h);
      EmptyTree(root.right, r, h);
      MergedOne(root.value, dir);
      MergedOne(spr, dir);
      assert Vals(l) + [root.value] == [root.value] && Vals(r) + [spr] == [spr];
    }
  }

  /** The merge: makes MergeSeq of the in-order values and the spare. */
  method Bimerge(root: Node, spr: int, dir: bool, ghost t: Shape, ghost h: nat) returns (sprVal: int, ghost t': Shape)
    requires h > 0 && IsTree(root, t, h)
    modifies Nodes(t)
    ensures IsTree(root, t', h) && Nodes(t') == Nodes(t)
    ensures Merged(old(Vals(t)) + [spr], Vals(t') + [sprVal], h, dir)
    decreases h, 0
  {
    hide IsTree, Vals, DescendSeq, Exchanges, Merged, Nodes;
    Parts(root, t, h);
    ghost var x, y, u := Vals(t.left), Vals(t.right), root.value;
    TreeSize(root.left, t.left, h - 1);
    ForkNodes(t);
    sprVal := spr;
    var rightexchange := Exchanges(root.value, spr, dir);
    if rightexchange {
      sprVal := root.value;
      root.value := spr;
    }
    ghost var l', r' := DescendBoth(root, t.left, t.right, h - 1, rightexchange, dir);
    ghost var lo, hi := Vals(l'), Vals(r');
    sprVal, l', r' := MergeHalves(root, sprVal, dir, l', r', h - 1);
    MergedWhole(x, u, y, spr, lo, hi, Vals(l') + [root.value], Vals(r') + [sprVal], h, dir);
    t' := Fork(root, l', r');
    ForkNodes(t');
    Build(root, l', r', h - 1);
    assert Vals(t') + [sprVal] == (Vals(l') + [root.value]) + (Vals(r') + [sprVal]);
  }

  lemma NonEmptyTree(n: Node?, t: Shape, h: nat)
    requires IsTree(n, t, h) && (n != null || h > 0)
    ensures n != null && h > 0 && t.Fork?
  {
  }

  /** The two recursive calls of Bisort: one half up, the other half down. */
  method SortHalves(root: Node, spr: int, dir: bool, ghost l: Shape, ghost r: Shape, ghost h: nat)
    returns (sprVal: int, ghost l': Shape, ghost r': Shape)
    requires h > 0 && IsTree(root.left, l, h) && IsTree(root.right, r, h) && Nodes(l) !! Nodes(r) && root !in Nodes(l) + Nodes(r)
    modifies root, Nodes(l), Nodes(r)
    ensures IsTree(root.left, l', h) && IsTree(root.right, r', h) && Nodes(l') == Nodes(l) && Nodes(r') == Nodes(r)
    ensures IsSort(old(Vals(l)) + [old(root.value)], Vals(l') + [root.value], h, dir)
    ensures IsSort(old(Vals(r)) + [spr], Vals(r') + [sprVal], h, !dir)
    decreases h, 1
  {
    hide IsTree, Vals, IsSort, Sorts, Nodes;
    NonEmptyTree(root.left, l, h);
    NonEmptyTree(root.right, r, h);
    var rl, rr, val := root.left, root.right, root.value;
    NodesAllocated(r);
    val, l' := Bisort(rl, val, dir, l, h);
    root.value := val;
    assert Vals(r) == old(Vals(r));
    ghost var sorted := Vals(l');
    NodesAllocated(l');
    var ndir := !dir;
    sprVal, r' := Bisort(rr, spr, ndir, r, h);
    assert Vals(l') == sorted;
  }

  /** A single node and the spare. */
  method SortPair(root: Node, spr: int, dir: bool, ghost t: Shape) returns (sprVal: int)
    requires IsTree(root, t, 1)
    modifies root
    ensures IsTree(root, t, 1) && IsSort(old(Vals(t)) + [spr], Vals(t) + [sprVal], 1, dir)
  {
    Parts(root, t, 1);
    EmptyTree(root.left, t.left, 0);
    EmptyTree(root.right, t.right, 0);
    sprVal := spr;
    if Exchanges(root.value, sprVal, dir) {
      var val := sprVal;
      sprVal := root.value;
      root.value := val;
    }
    Build(root, t.left, t.right, 0);
    assert t == Fork(root, t.left, t.right);
    PairSorted(old(root.value), spr, dir);
    assert old(Vals(t)) + [spr] == [old(root.value), spr];
    assert Vals(t) + [sprVal] == [root.value, sprVal];
  }

  /** Sorts the tree and the spare: ascending for UP (dir false), descending for DOWN. */
  method Bisort(root: Node, spr: int, dir: bool, ghost t: Shape, ghost h: nat) returns (sprVal: int, ghost t': Shape)
    requires h > 0 && IsTree(root, t, h)
    modifies Nodes(t)
    ensures IsTree(root, t', h) && Nodes(t') == Nodes(t)
    ensures IsSort(old(Vals(t)) + [spr], Vals(t') + [sprVal], h, dir)
    ensures Sorts(old(Vals(t)) + [spr], Vals(t') + [sprVal], dir)
    decreases h, 0
  {
    hide IsTree, Vals, IsSort, Sorts, Nodes, Merged, SortSeq;
    Parts(root, t, h);
    ForkNodes(t);
    if root.left == null {
      EmptyTree(root.left, t.left, h - 1);
      sprVal := SortPair(root, spr, dir, t);
      t' := t;
    } else {
      NonEmptyTree(root.left, t.left, h - 1);
      ghost var x, y := Vals(t.left) + [root.value], Vals(t.right) + [spr];
      assert Vals(t) + [spr] == x + y;
      ghost var l', r';
      sprVal, l', r' := SortHalves(root, spr, dir, t.left, t.right, h - 1);
      ghost var mid := Fork(root, l', r');
      ForkNodes(mid);
      Build(root, l', r', h - 1);
      ghost var x', y' := Vals(l') + [root.value], Vals(r') + [sprVal];
      assert Vals(mid) + [sprVal] == x' + y';
      sprVal, t' := Bimerge(root, sprVal, dir, mid, h);
      SortedWhole(x, y, x', y', Vals(t') + [sprVal], h, dir);
    }
    SortIsSort(old(Vals(t)) + [spr], Vals(t') + [sprVal], h, dir);
  }

  lemma PairSorted(a: int, b: int, dir: bool)
    ensures IsSort([a, b], if Exchanges(a, b, dir) then [b, a] else [a, b], 1, dir)
  {
    SortTwo(a, b, dir);
  }

  lemma SortedWhole(x: seq<int>, y: seq<int>, x': seq<int>, y': seq<int>, r: seq<int>, h: nat, dir: bool)
    requires h > 0 && IsSort(x, x', h - 1, dir) && IsSort(y, y', h - 1, !dir) && Merged(x' + y', r, h, dir)
    ensures IsSort(x + y, r, h, dir)
  {
    hide MergeSeq, SortSeq;
    SortUnfold(x, y, h - 1, dir);
  }

  lemma SortIsSort(before: seq<int>, after: seq<int>, h: nat, dir: bool)
    requires IsSort(before, after, h, dir)
    ensures Sorts(before, after, dir)
  {
    SortSeqSorts(before, h, dir);
  }

  lemma ForkNodes(t: Shape)
    requires t.Fork?
    ensures Nodes(t) == {t.node} + Nodes(t.left) + Nodes(t.right)
  {
  }

  lemma EmptyTree(n: Node?, t: Shape, h: nat)
    requires IsTree(n, t, h) && (n == null || h == 0)
    ensures t == Nil && h == 0 && Vals(t) == []
  {
  }
}
