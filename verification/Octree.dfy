/**
  Building the tree of bodies: expandbox, loadtree and maketree of wolfbench/Benchmarks/bh/newbh.c. A failed
  assertion of the source ends the program; here the methods then return false.
*/
module Octree {
  import opened Wrappers
  import opened Bits
  import opened OctSpace
  import opened OctTree

  class Space {
    var rmin: Vec
    var rsize: real
    var root: Node?

    constructor (rmin: Vec, rsize: real)
      ensures this.rmin == rmin && this.rsize == rsize && root == null
    {
      this.rmin, this.rsize, root := rmin, rsize, null;
    }

    function Box(): Box
      reads this`rmin, this`rsize
    {
      OctSpace.Box.Box(rmin, rsize)
    }
  }

  /** A tree in its box, m doublings of the grid's unit wide. */
  ghost predicate Loaded(t: Node?, tree: Oct, box: Box, root: Box, m: nat)
    reads Cells(tree)`subp
  {
    && root.size > 0.0 && box.size > 0.0 && OctSpace.Cell(box, root, Pow2(m))
    && Rep(t, tree) && Proper(tree) && Placed(tree, box)
  }

  ghost predicate AllKnown(s: seq<Body>)
    reads set x | x in s :: x.node
  {
    forall x :: x in s ==> Known(x)
  }

  /** subindex; its assertions hold of a body in the box. */
  method Subindex(p: Node, tr: Space, l: nat) returns (i: nat)
    requires tr.rsize > 0.0 && InBox(p.pos, tr.Box())
    ensures i == OldSubindex(IntCoord(p.pos, tr.Box()), l)
  {
    TestIsInBox(p.pos, tr.Box());
    assert IcTest(p.pos, tr.Box());
    i := OldSubindex(IntCoord(p.pos, tr.Box()), l);
  }

  function Level(m: nat): nat {
    if m == 0 then 0 else Pow2(m - 1)
  }

  lemma LevelHalves(m: nat)
    ensures m > 0 ==> Level(m) / 2 == Level(m - 1) && Level(m) == Pow2(m - 1)
    ensures Level(m) == 0 <==> m == 0
  {
  }

  /** A body put into a cell of its own: the collision of loadtree. */
  method Collide(t: Node, tr: Space, l: nat, ghost tree: Oct, ghost box: Box, ghost m: nat) returns (c: Node, ghost tree': Oct)
    requires m > 0 && l == Level(m) && tree.Leaf? && Loaded(t, tree, box, tr.Box(), m)
    requires Known(tree.body) && InBox(tree.body.at, tr.Box())
    ensures fresh(c) && tree'.Branch? && Bodies(tree') == Bodies(tree) && Cells(tree') == {c} && DenseBelow(tree')
    ensures Loaded(c, tree', box, tr.Box(), m)
  {
    c := new Node.Cell();
    var si := Subindex(t, tr, l);
    BitsAreOctants(t.pos, box, tr.Box(), m - 1);
    Octants(t.pos, box, si);
    c.subp := c.subp[si := t];
    tree' := Single(c, si, tree);
    SinglePlaced(c, si, tree, box);
    SingleProper(c, si, tree);
    SingleRep(c, si, tree, t);
  }

  /** Some body of the tree has the same integer coordinates. */
  ghost predicate Taken(tree: Oct, xpic: Coord, root: Box)
    requires root.size > 0.0
  {
    exists x :: x in Bodies(tree) && IntCoord(x.at, root) == xpic
  }

  /** Coordinates can only be taken within the octant in which the body belongs. */
  lemma TakenBelow(tree: Oct, box: Box, root: Box, m: nat, body: Body)
    requires m > 0 && tree.Branch? && root.size > 0.0 && box.size > 0.0 && OctSpace.Cell(box, root, Pow2(m)) && Placed(tree, box) && InBox(body.at, box)
    ensures var i := Octant(body.at, box);
      i < 8 == |tree.subs| && (Taken(tree, IntCoord(body.at, root), root) <==> Taken(tree.subs[i], IntCoord(body.at, root), root))
  {
    var i, xpic := Octant(body.at, box), IntCoord(body.at, root);
    BitsAreOctants(body.at, box, root, m - 1);
    hide IntCoord, Octant, Pow2, OldSubindex, InBox, OctSpace.Cell;
    if Taken(tree, xpic, root) {
      var x :| x in Bodies(tree) && IntCoord(x.at, root) == xpic;
      BodiesOfFind(tree.subs, x);
      var j :| 0 <= j < |tree.subs| && x in Bodies(tree.subs[j]);
      PlacedOctant(tree, box, j, x);
      BitsAreOctants(x.at, box, root, m - 1);
    }
    if Taken(tree.subs[i], xpic, root) {
      var x :| x in Bodies(tree.subs[i]) && IntCoord(x.at, root) == xpic;
      BodiesOfMember(tree.subs, x);
    }
  }

  /** In a cell of one unit they are always taken. */
  lemma TakenAtBottom(tree: Oct, box: Box, root: Box, body: Body)
    requires root.size > 0.0 && box.size > 0.0 && OctSpace.Cell(box, root, 1) && Placed(tree, box) && tree != Nil && InBox(body.at, box)
    ensures Taken(tree, IntCoord(body.at, root), root)
  {
    assert Bodies(tree) != [];
    var x := Bodies(tree)[0];
    PlacedInside(tree, box);
    UnitCell(x.at, body.at, box, root);
  }

  /** The octant's tree is a tree in the octant. */
  lemma Descend(t: Node, tree: Oct, box: Box, root: Box, m: nat, i: nat)
    requires m > 0 && i < 8 && tree.Branch? && Loaded(t, tree, box, root, m)
    ensures |t.subp| == |tree.subs| == 8 && t == tree.cell && Loaded(t.subp[i], tree.subs[i], SubBox(box, i), root, m - 1)
    ensures Cells(tree.subs[i]) <= Cells(tree) && t !in Cells(tree.subs[i])
    ensures forall x :: x in Bodies(tree.subs[i]) ==> x in Bodies(tree)
  {
    SubCell(box, root, Pow2(m - 1), i);
    forall x | x in Bodies(tree.subs[i]) ensures x in Bodies(tree) {
      BodiesOfMember(tree.subs, x);
    }
  }

  /** The octants' trees other than the i-th are still there, and the i-th is now c. */
  ghost predicate Hung(t: Node, tree: Oct, i: nat, c: Oct)
    requires tree.Branch? && |tree.subs| == 8 && i < 8
    reads t, Cells(tree)`subp, Cells(c)`subp
  {
    && t == tree.cell && !t.isBody && |t.subp| == 8 && Rep(t.subp[i], c)
    && (forall j :: 0 <= j < 8 ==> Cells(tree.subs[j]) <= Cells(tree))
    && forall j :: 0 <= j < 8 && j != i ==> Rep(t.subp[j], tree.subs[j])
  }

  lemma EightBelow(tree: Oct)
    requires Proper(tree) && tree.Branch?
    ensures |tree.subs| == 8
  {
  }

  lemma Hang(t: Node, tree: Oct, box: Box, root: Box, m: nat, i: nat, c: Oct, body: Body, before: set<Node>)
    requires tree.Branch? && i < 8 && root.size > 0.0 && box.size > 0.0 && OctSpace.Cell(box, root, Pow2(m))
    requires Proper(tree) && Placed(tree, box) && Hung(t, tree, i, c)
    requires Proper(c) && Placed(c, SubBox(box, i)) && multiset(Bodies(c)) == multiset(Bodies(tree.subs[i])) + multiset{body}
    requires Cells(tree) <= before && forall n :: n in Cells(c) ==> n in Cells(tree.subs[i]) || n !in before
    ensures var tree' := Branch(tree.cell, tree.subs[i := c]); Loaded(t, tree', box, root, m) && multiset(Bodies(tree')) == multiset(Bodies(tree)) + multiset{body}
    ensures forall n :: n in Cells(Branch(tree.cell, tree.subs[i := c])) ==> n in Cells(tree) || n in Cells(c)
  {
    hide Placed, Proper, Bodies, OctSpace.Cell, Pow2;
    EightBelow(tree);
    PutPlaced(tree, i, c, body, box);
    PutProper(tree, i, c, before);
    var tree' := Branch(tree.cell, tree.subs[i := c]);
    forall j | 0 <= j < 8 ensures Cells(tree'.subs[j]) <= Cells(tree') && Rep(t.subp[j], tree'.subs[j]) {
    }
  }

  /** loadtree: fails exactly if a body of the tree has the same integer coordinates. */
  method LoadTree(p: Node, xpic: Coord, t0: Node?, l: nat, tr: Space, ghost tree0: Oct, ghost box: Box, ghost m: nat, ghost body: Body)
    returns (ok: bool, t: Node?, ghost tree: Oct)
    requires Loaded(t0, tree0, box, tr.Box(), m) && l == Level(m)
    requires body.node == p && p.isBody && InBox(body.at, box) && xpic == IntCoord(body.at, tr.Box())
    requires AllKnown(Bodies(tree0)) && forall x :: x in Bodies(tree0) ==> InBox(x.at, tr.Box())
    modifies Cells(tree0)`subp
    ensures ok <==> !Taken(tree0, xpic, tr.Box())
    ensures ok ==> Loaded(t, tree, box, tr.Box(), m) && multiset(Bodies(tree)) == multiset(Bodies(tree0)) + multiset{body}
    ensures ok ==> forall n :: n in Cells(tree) ==> n in Cells(tree0) || fresh(n)
    ensures ok && Dense(tree0) ==> Dense(tree)
    decreases m
  {
    ok, t, tree := true, t0, tree0;
    LevelHalves(m);
    if t == null {
      t, tree := p, Leaf(body);
    } else if l == 0 {
      TakenAtBottom(tree, box, tr.Box(), body);
      ok := false;
    } else {
      if t.isBody {
        t, tree := Collide(t, tr, l, tree, box, m);
      }
      ok, tree := LoadBelow(p, xpic, t, l, tr, tree, box, m, body);
    }
  }

  /** One level down. */
  method LoadBelow(p: Node, xpic: Coord, t: Node, l: nat, tr: Space, ghost tree0: Oct, ghost box: Box, ghost m: nat, ghost body: Body)
    returns (ok: bool, ghost tree: Oct)
    requires m > 0 && tree0.Branch? && Loaded(t, tree0, box, tr.Box(), m) && l == Level(m)
    requires body.node == p && p.isBody && InBox(body.at, box) && xpic == IntCoord(body.at, tr.Box())
    requires AllKnown(Bodies(tree0)) && forall x :: x in Bodies(tree0) ==> InBox(x.at, tr.Box())
    modifies Cells(tree0)`subp
    ensures ok <==> !Taken(tree0, xpic, tr.Box())
    ensures ok ==> Loaded(t, tree, box, tr.Box(), m) && multiset(Bodies(tree)) == multiset(Bodies(tree0)) + multiset{body}
    ensures ok ==> forall n :: n in Cells(tree) ==> n in Cells(tree0) || fresh(n)
    ensures ok && DenseBelow(tree0) ==> Dense(tree)
    decreases m, 0
  {
    hide *;
    ghost var root, before := tr.Box(), Cells(tree0);
    var si := OldSubindex(xpic, l);
    LevelHalves(m);
    Siblings(t, tree0, box, root, m, 0);
    Choose(body.at, box, root, m, si);
    TakenBelow(tree0, box, root, m, body);
    Descend(t, tree0, box, root, m, si);
    Siblings(t, tree0, box, root, m, si);
    DenseIsBelow(tree0, si);
    BodiesBelow(tree0, si, root);
    CellsAllocated(tree0);
    var rt := t.subp[si];
    var x; ghost var c;
    ok, x, c := LoadTree(p, xpic, rt, l / 2, tr, tree0.subs[si], SubBox(box, si), m - 1, body);
    tree := Branch(tree0.cell, tree0.subs[si := c]);
    if ok {
      LoadedRep(x, c, SubBox(box, si), root, m - 1);
      forall j {:trigger tree0.subs[j]} | 0 <= j < 8 && j != si ensures Rep(t.subp[j], tree0.subs[j]) {
        assert old(Rep(t.subp[j], tree0.subs[j]));
        assert forall n :: n in Cells(tree0.subs[j]) ==> n in before && n !in Cells(tree0.subs[si]);
      }
      PutChild(t, tree0, si, x, c);
      Hang(t, tree0, box, root, m, si, c, body, before);
      DenseAgain(tree0, box, si, c, body);
    }
  }

  /** One more body makes two at least. */
  lemma DenseAgain(tree: Oct, box: Box, i: nat, c: Oct, body: Body)
    requires tree.Branch? && Placed(tree, box) && i < |tree.subs| && (DenseBelow(tree) ==> Dense(c))
    requires multiset(Bodies(Branch(tree.cell, tree.subs[i := c]))) == multiset(Bodies(tree)) + multiset{body}
    ensures DenseBelow(tree) ==> Dense(Branch(tree.cell, tree.subs[i := c]))
  {
    var tree' := Branch(tree.cell, tree.subs[i := c]);
    assert |Bodies(tree')| == |multiset(Bodies(tree'))| == |multiset(Bodies(tree))| + 1 == |Bodies(tree)| + 1;
    assert Bodies(tree) == BodiesOf(tree.subs) != [];
  }

  lemma DenseIsBelow(tree: Oct, i: nat)
    requires tree.Branch? && i < |tree.subs|
    ensures (Dense(tree) ==> DenseBelow(tree)) && (DenseBelow(tree) ==> Dense(tree.subs[i]))
  {
  }

  lemma Choose(p: Vec, box: Box, root: Box, m: nat, si: nat)
    requires m > 0 && root.size > 0.0 && box.size > 0.0 && InBox(p, box) && OctSpace.Cell(box, root, Pow2(m))
    requires si == OldSubindex(IntCoord(p, root), Pow2(m - 1))
    ensures si < 8 && si == Octant(p, box) && InBox(p, SubBox(box, si))
  {
    BitsAreOctants(p, box, root, m - 1);
    Octants(p, box, si);
  }

  lemma BodiesBelow(tree: Oct, i: nat, root: Box)
    requires tree.Branch? && i < |tree.subs| && AllKnown(Bodies(tree)) && forall x :: x in Bodies(tree) ==> InBox(x.at, root)
    ensures AllKnown(Bodies(tree.subs[i])) && forall x :: x in Bodies(tree.subs[i]) ==> InBox(x.at, root)
  {
    forall x | x in Bodies(tree.subs[i]) ensures x in Bodies(tree) {
      BodiesOfMember(tree.subs, x);
    }
  }

  lemma CellsAllocated(t: Oct)
    ensures forall n :: n in Cells(t) ==> allocated(n)
  {
  }

  lemma LoadedRep(t: Node?, tree: Oct, box: Box, root: Box, m: nat)
    requires Loaded(t, tree, box, root, m)
    ensures Rep(t, tree) && Proper(tree) && Placed(tree, box)
  {
  }

  lemma Siblings(t: Node, tree: Oct, box: Box, root: Box, m: nat, i: nat)
    requires i < 8 && tree.Branch? && Loaded(t, tree, box, root, m)
    ensures t == tree.cell && t in Cells(tree) && !t.isBody && |t.subp| == |tree.subs| == 8 && Proper(tree) && Placed(tree, box)
    ensures root.size > 0.0 && box.size > 0.0 && OctSpace.Cell(box, root, Pow2(m))
    ensures forall j {:trigger tree.subs[j]} :: 0 <= j < 8 ==> Rep(t.subp[j], tree.subs[j]) && Cells(tree.subs[j]) <= Cells(tree) && t !in Cells(tree.subs[j])
    ensures forall j {:trigger tree.subs[j]} :: 0 <= j < 8 && j != i ==> Cells(tree.subs[j]) !! Cells(tree.subs[i])
  {
  }

  /** The link to the octant's tree. */
  method PutChild(t: Node, ghost tree: Oct, i: nat, x: Node?, ghost c: Oct)
    requires tree.Branch? && |tree.subs| == 8 && i < 8 && t == tree.cell && !t.isBody && |t.subp| == 8
    requires Rep(x, c) && t !in Cells(c)
    requires forall j {:trigger tree.subs[j]} :: 0 <= j < 8 ==> Cells(tree.subs[j]) <= Cells(tree) && t !in Cells(tree.subs[j])
    requires forall j {:trigger tree.subs[j]} :: 0 <= j < 8 && j != i ==> Rep(t.subp[j], tree.subs[j])
    modifies t`subp
    ensures Hung(t, tree, i, c)
  {
    hide Rep, Cells;
    t.subp := t.subp[i := x];
  }

  lemma RootWidth()
    ensures Pow2(30) == IMAX && Pow2(29) == IMAX / 2 && Level(30) == IMAX / 2
  {
    assert Pow2(5) == 32;
    Pow2Sum(5, 5);
    Pow2Sum(10, 10);
    Pow2Sum(20, 10);
    assert Pow2(30) == 2 * Pow2(29);
  }

  /** The whole tree in the space's box. */
  ghost predicate Built(tr: Space, tree: Oct)
    reads tr, Cells(tree)`subp
  {
    tr.rsize >= 1.0 && Loaded(tr.root, tree, tr.Box(), tr.Box(), ImaxLog)
  }

  /** Where the old tree goes: the bits of the old midpoint name the octant that is the old box. */
  lemma GraftPlace(p: Vec, b: Box, k: nat)
    requires b.size >= 1.0 && k == OldSubindex(IntCoord(Middle(b), Grow(p, b)), IMAX / 2)
    ensures k < 8 && SubBox(Grow(p, b), k) == b && IcTest(Middle(b), Grow(p, b))
    ensures Grow(p, b).size >= 1.0 && OctSpace.Cell(Grow(p, b), Grow(p, b), Pow2(ImaxLog))
  {
    hide Pow2, OldSubindex, IntCoord, SubBox, Octant, IcTest, InBox, OctSpace.Cell;
    var g := Grow(p, b);
    RootWidth();
    OldBoxIsOctant(p, b);
    RootCell(g);
    BitsAreOctants(Middle(b), g, g, ImaxLog - 1);
    TestIsInBox(Middle(b), g);
  }

  lemma Grafted(newt: Node, k: nat, t: Node, tree: Oct, b: Box, g: Box)
    requires k < 8 && SubBox(g, k) == b && g.size >= 1.0 && OctSpace.Cell(g, g, Pow2(ImaxLog))
    requires Loaded(t, tree, b, b, ImaxLog) && newt !in Cells(tree) && !newt.isBody && newt.subp == seq(8, _ => null)[k := t]
    ensures Loaded(newt, Single(newt, k, tree), g, g, ImaxLog) && Bodies(Single(newt, k, tree)) == Bodies(tree)
    ensures Cells(Single(newt, k, tree)) == Cells(tree) + {newt} && Single(newt, k, tree) != Nil
  {
    hide Pow2, OctSpace.Cell, SubBox, Rep, Placed, Proper, Cells;
    Occupied(t, tree, b);
    SinglePlaced(newt, k, tree, g);
    SingleProper(newt, k, tree);
    SingleRep(newt, k, tree, t);
  }

  /** The old tree becomes an octant of a new one: the regraft of expandbox, after the box has grown from b. */
  method Regraft(ghost p: Vec, rmid: Vec, tr: Space, t: Node, ghost tree0: Oct, ghost b: Box) returns (ghost tree: Oct)
    requires Loaded(t, tree0, b, b, ImaxLog) && b.size >= 1.0 && tr.Box() == Grow(p, b) && tr.rsize >= 1.0 && rmid == Middle(b)
    modifies tr`root
    ensures Built(tr, tree) && Bodies(tree) == Bodies(tree0) && tr.root != null && tree != Nil
    ensures forall n :: n in Cells(tree) ==> n in Cells(tree0) || fresh(n)
  {
    hide *;
    CellsAllocated(tree0);
    var newt := new Node.Cell();
    IsBuilt(tr, tree0);
    var ic := IntCoord(rmid, tr.Box());
    var k := OldSubindex(ic, IMAX / 2);
    GraftPlace(p, b, k);
    assert IcTest(rmid, tr.Box());
    newt.subp := newt.subp[k := t];
    tree := Single(newt, k, tree0);
    Grafted(newt, k, t, tree0, b, tr.Box());
    tr.root := newt;
    IsBuilt(tr, tree);
  }

  lemma IsBuilt(tr: Space, tree: Oct)
    ensures Built(tr, tree) <==> tr.rsize >= 1.0 && Loaded(tr.root, tree, tr.Box(), tr.Box(), ImaxLog)
    ensures tr.Box().size == tr.rsize
    ensures Built(tr, tree) ==> (tr.root == null <==> tree == Nil)
  {
  }

  lemma EmptyBuilt(tr: Space)
    requires tr.rsize >= 1.0 && tr.root == null
    ensures Built(tr, Nil)
  {
    RootWidth();
    RootCell(tr.Box());
  }

  /** One turn of expandbox. Without a tree the flag is not computed anew. */
  method GrowBox(p: Node, tr: Space, ghost tree0: Oct) returns (inbox: bool, ghost tree: Oct)
    requires Built(tr, tree0) && tr.rsize < Limit
    modifies tr
    ensures tr.Box() == Grow(p.pos, old(tr.Box())) && Built(tr, tree) && Bodies(tree) == Bodies(tree0)
    ensures (tr.root == null <==> old(tr.root) == null) && (tree == Nil <==> tree0 == Nil)
    ensures inbox <==> tr.root != null && InBox(p.pos, tr.Box())
    ensures forall n :: n in Cells(tree) ==> n in Cells(tree0) || fresh(n)
  {
    ghost var b := tr.Box();
    IsBuilt(tr, tree0);
    var rsize, rmid, rmin := tr.rsize, Middle(tr.Box()), tr.rmin;
    if p.pos.x < rmid.x {
      rmin := Vec(rmin.x - rsize, rmin.y, rmin.z);
    }
    if p.pos.y < rmid.y {
      rmin := Vec(rmin.x, rmin.y - rsize, rmin.z);
    }
    if p.pos.z < rmid.z {
      rmin := Vec(rmin.x, rmin.y, rmin.z - rsize);
    }
    tr.rmin := rmin;
    tr.rsize := 2.0 * rsize;
    assert tr.Box() == Grow(p.pos, b);
    hide *;
    inbox, tree := false, tree0;
    if tr.root != null {
      tree := Regraft(p.pos, rmid, tr, tr.root, tree0, b);
      TestIsInBox(p.pos, tr.Box());
      inbox := IcTest(p.pos, tr.Box());
    } else {
      EmptyBuilt(tr);
    }
    IsBuilt(tr, tree);
  }

  /** expandbox: doubles the box towards the body until the body is inside. */
  method ExpandBox(p: Node, tr: Space, ghost tree0: Oct) returns (ok: bool, ghost tree: Oct)
    requires Built(tr, tree0)
    modifies tr
    ensures ok ==> Built(tr, tree) && Bodies(tree) == Bodies(tree0) && InBox(p.pos, tr.Box())
    ensures ok ==> forall n :: n in Cells(tree) ==> n in Cells(tree0) || fresh(n)
    ensures InBox(p.pos, old(tr.Box())) ==> ok && tr.Box() == old(tr.Box()) && tree == tree0
    ensures tree0 == Nil ==> (ok <==> InBox(p.pos, old(tr.Box())))
    ensures tree0 != Nil ==> old(tr.Box()).size >= 1.0 && (ok <==> WithinReach(p.pos, old(tr.Box())))
    ensures ok && tree0 != Nil ==> Enlarged(p.pos, old(tr.Box())) == Some(tr.Box())
  {
    hide *;
    ghost var b0, at := tr.Box(), p.pos;
    ok, tree := true, tree0;
    IsBuilt(tr, tree);
    TestIsInBox(p.pos, tr.Box());
    EnlargedExact(at, b0);
    var inbox := IcTest(p.pos, tr.Box());
    while !inbox
      invariant Built(tr, tree) && Bodies(tree) == Bodies(tree0)
      invariant tr.Box().size >= 1.0 && (tree0 != Nil ==> Enlarged(at, tr.Box()) == Enlarged(at, b0))
      invariant (tr.root == null <==> tree0 == Nil) && (tree == Nil <==> tree0 == Nil)
      invariant inbox ==> InBox(at, tr.Box())
      invariant tree0 != Nil ==> (InBox(at, tr.Box()) ==> inbox)
      invariant tree0 == Nil ==> (inbox <==> InBox(at, b0))
      invariant InBox(at, b0) ==> inbox && tr.Box() == b0 && tree == tree0
      invariant forall n :: n in Cells(tree) ==> n in Cells(tree0) || fresh(n)
      decreases Limit - tr.rsize
    {
      IsBuilt(tr, tree);
      if !(tr.rsize < Limit) {
        if tree0 != Nil {
          EnlargedStep(at, tr.Box());
        }
        ok := false;
        return;
      }
      GrowSize(at, tr.Box());
      EnlargedStep(at, tr.Box());
      inbox, tree := GrowBox(p, tr, tree);
      IsBuilt(tr, tree);
    }
  }

  lemma GrowSize(p: Vec, b: Box)
    ensures Grow(p, b).size == 2.0 * b.size
  {
  }

  lemma EnlargedStep(p: Vec, b: Box)
    requires b.size >= 1.0
    ensures !InBox(p, b) ==> Enlarged(p, b) == if b.size >= Limit then None else Enlarged(p, Grow(p, b))
  {
  }

  /** On the level of width m every body hangs where the bits of its integer coordinates say. */
  ghost predicate ByBits(t: Oct, root: Box, m: nat)
    requires root.size > 0.0
    decreases t
  {
    t.Branch? && m > 0 ==>
      && |t.subs| == 8
      && (forall i :: 0 <= i < 8 ==> ByBits(t.subs[i], root, m - 1))
      && forall i, x :: 0 <= i < 8 && x in Bodies(t.subs[i]) ==> OldSubindex(IntCoord(x.at, root), Pow2(m - 1)) == i
  }

  /** The place of a body is the path given by its coordinates' bits. */
  lemma {:induction false} PlacedByBits(t: Oct, b: Box, root: Box, m: nat)
    requires root.size > 0.0 && b.size > 0.0 && Placed(t, b) && OctSpace.Cell(b, root, Pow2(m))
    ensures ByBits(t, root, m)
    decreases t
  {
    if t.Branch? && m > 0 {
      forall i | 0 <= i < 8
        ensures ByBits(t.subs[i], root, m - 1) && forall x :: x in Bodies(t.subs[i]) ==> OldSubindex(IntCoord(x.at, root), Pow2(m - 1)) == i
      {
        SubCell(b, root, Pow2(m - 1), i);
        PlacedByBits(t.subs[i], SubBox(b, i), root, m - 1);
        forall x | x in Bodies(t.subs[i]) ensures OldSubindex(IntCoord(x.at, root), Pow2(m - 1)) == i {
          PlacedOctant(t, b, i, x);
          BitsAreOctants(x.at, b, root, m - 1);
        }
      }
    }
  }
}
