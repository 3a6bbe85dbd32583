/**
  The body tree of the Barnes-Hut program (wolfbench/Benchmarks/bh/newbh.c): where bodies are placed, which
  nodes a tree is made of, and what its masses add up to.
*/
module OctTree {
  import opened OctSpace

  /** A body or a cell; cells use subp. */
  class Node {
    const isBody: bool
    var mass: real
    var pos: Vec
    var subp: seq<Node?>

    constructor Body(mass: real, pos: Vec)
      ensures isBody && this.mass == mass && this.pos == pos
    {
      isBody, this.mass, this.pos, subp := true, mass, pos, [];
    }

    /** cell_alloc. */
    constructor Cell()
      ensures !isBody && subp == seq(8, _ => null)
    {
      isBody, mass, pos, subp := false, 0.0, Vec(0.0, 0.0, 0.0), seq(8, _ => null);
    }
  }

  datatype Body = Body(node: Node, at: Vec, mass: real)

  datatype Oct = Nil | Leaf(body: Body) | Branch(cell: Node, subs: seq<Oct>)

  function Bodies(t: Oct): seq<Body> {
    match t
    case Nil => []
    case Leaf(body) => [body]
    case Branch(_, subs) => BodiesOf(subs)
  }

  function BodiesOf(subs: seq<Oct>): seq<Body> {
    if subs == [] then [] else Bodies(subs[0]) + BodiesOf(subs[1..])
  }

  function Cells(t: Oct): set<Node> {
    match t
    case Nil => {}
    case Leaf(_) => {}
    case Branch(cell, subs) => {cell} + set i, n | 0 <= i < |subs| && n in Cells(subs[i]) :: n
  }

  /** Every body lies in the box of the place where it hangs; no cell is empty. */
  ghost predicate Placed(t: Oct, b: Box) {
    match t
    case Nil => true
    case Leaf(body) => InBox(body.at, b)
    case Branch(_, subs) => |subs| == 8 && BodiesOf(subs) != [] && forall i :: 0 <= i < 8 ==> Placed(subs[i], SubBox(b, i))
  }

  /** No cell occurs twice. */
  ghost predicate Proper(t: Oct) {
    t.Branch? ==>
      && |t.subs| == 8
      && (forall i :: 0 <= i < 8 ==> Proper(t.subs[i]) && t.cell !in Cells(t.subs[i]))
      && (forall i, j :: 0 <= i < j < 8 ==> Cells(t.subs[i]) !! Cells(t.subs[j]))
  }

  /** The tree as it is linked in memory. */
  ghost predicate Rep(p: Node?, t: Oct)
    reads Cells(t)`subp
    decreases t
  {
    match t
    case Nil => p == null
    case Leaf(body) => p == body.node && body.node.isBody
    case Branch(cell, subs) =>
      && p == cell && !cell.isBody && |cell.subp| == |subs| == 8
      && (forall i :: 0 <= i < 8 ==> Cells(subs[i]) <= Cells(t))
      && forall i :: 0 <= i < 8 ==> Rep(cell.subp[i], subs[i])
  }

  /** What is known of a body holds of the node in memory. */
  ghost predicate Known(x: Body)
    reads x.node`mass, x.node`pos
  {
    x.node.isBody && x.node.mass == x.mass && x.node.pos == x.at
  }

  lemma {:induction false} BodiesOfAt(subs: seq<Oct>, i: nat)
    requires i < |subs|
    ensures BodiesOf(subs) == BodiesOf(subs[..i]) + Bodies(subs[i]) + BodiesOf(subs[i + 1..])
  {
    if i > 0 {
      BodiesOfAt(subs[1..], i - 1);
      assert subs[1..][..i - 1] == subs[..i][1..] && subs[1..][i..] == subs[i + 1..];
    } else {
      assert subs[..0] == [];
    }
  }

  lemma BodiesOfMember(subs: seq<Oct>, x: Body)
    ensures x in BodiesOf(subs) <==> exists i :: 0 <= i < |subs| && x in Bodies(subs[i])
  {
    if x in BodiesOf(subs) {
      BodiesOfFind(subs, x);
    }
    forall i | 0 <= i < |subs| && x in Bodies(subs[i]) ensures x in BodiesOf(subs) {
      BodiesOfAt(subs, i);
    }
  }

  lemma {:induction false} BodiesOfFind(subs: seq<Oct>, x: Body)
    requires x in BodiesOf(subs)
    ensures exists i :: 0 <= i < |subs| && x in Bodies(subs[i])
  {
    if x !in Bodies(subs[0]) {
      BodiesOfFind(subs[1..], x);
      var i :| 0 <= i < |subs[1..]| && x in Bodies(subs[1..][i]);
      assert x in Bodies(subs[i + 1]);
    }
  }

  lemma BodiesOfUpdate(subs: seq<Oct>, i: nat, c: Oct)
    requires i < |subs|
    ensures multiset(BodiesOf(subs[i := c])) + multiset(Bodies(subs[i])) == multiset(BodiesOf(subs)) + multiset(Bodies(c))
  {
    BodiesOfAt(subs, i);
    BodiesOfAt(subs[i := c], i);
    assert subs[i := c][..i] == subs[..i] && subs[i := c][i + 1..] == subs[i + 1..];
  }

  /** All bodies of a placed tree lie in its box. */
  lemma {:induction false} PlacedInside(t: Oct, b: Box)
    requires Placed(t, b) && b.size > 0.0
    ensures forall x :: x in Bodies(t) ==> InBox(x.at, b)
    decreases t
  {
    if t.Branch? {
      forall x | x in Bodies(t) ensures InBox(x.at, b) {
        BodiesOfFind(t.subs, x);
        var i :| 0 <= i < |t.subs| && x in Bodies(t.subs[i]);
        PlacedInside(t.subs[i], SubBox(b, i));
        Octants(x.at, b, i);
      }
    }
  }

  /** Each body of a cell hangs in the octant in which it lies. */
  lemma PlacedOctant(t: Oct, b: Box, i: nat, x: Body)
    requires Placed(t, b) && b.size > 0.0 && t.Branch? && i < 8 && x in Bodies(t.subs[i])
    ensures InBox(x.at, b) && Octant(x.at, b) == i
  {
    PlacedInside(t.subs[i], SubBox(b, i));
    Octants(x.at, b, i);
  }

  /** A cell with one occupied octant. */
  function Single(cell: Node, i: nat, t: Oct): Oct
    requires i < 8
  {
    Branch(cell, seq(8, _ => Nil)[i := t])
  }

  lemma {:induction false} NilBodies(subs: seq<Oct>)
    requires forall i :: 0 <= i < |subs| ==> subs[i] == Nil
    ensures BodiesOf(subs) == []
  {
    if subs != [] {
      NilBodies(subs[1..]);
    }
  }

  lemma SingleBodies(cell: Node, i: nat, t: Oct)
    requires i < 8
    ensures Bodies(Single(cell, i, t)) == Bodies(t)
  {
    OneOccupied(seq(8, _ => Nil)[i := t], i);
  }

  lemma OneOccupied(subs: seq<Oct>, i: nat)
    requires i < |subs| && forall j :: 0 <= j < |subs| && j != i ==> subs[j] == Nil
    ensures BodiesOf(subs) == Bodies(subs[i])
  {
    hide BodiesOf, Bodies;
    BodiesOfAt(subs, i);
    NilBodies(subs[..i]);
    NilBodies(subs[i + 1..]);
  }

  lemma SinglePlaced(cell: Node, i: nat, t: Oct, b: Box)
    requires i < 8 && Placed(t, SubBox(b, i)) && Bodies(t) != []
    ensures Placed(Single(cell, i, t), b) && Bodies(Single(cell, i, t)) == Bodies(t)
  {
    SingleBodies(cell, i, t);
    hide Bodies, SubBox;
  }

  lemma SingleProper(cell: Node, i: nat, t: Oct)
    requires i < 8 && Proper(t) && cell !in Cells(t)
    ensures Proper(Single(cell, i, t)) && Cells(Single(cell, i, t)) == Cells(t) + {cell}
  {
    var s := Single(cell, i, t);
    assert forall j :: 0 <= j < 8 ==> s.subs[j] == if j == i then t else Nil;
    assert s.subs[i] == t;
  }

  lemma SingleRep(cell: Node, i: nat, t: Oct, p: Node?)
    requires i < 8 && Rep(p, t) && !cell.isBody && cell.subp == seq(8, _ => null)[i := p] && Cells(Single(cell, i, t)) == Cells(t) + {cell}
    ensures Rep(cell, Single(cell, i, t))
  {
    var s := Single(cell, i, t);
    assert forall j :: 0 <= j < 8 ==> s.subs[j] == if j == i then t else Nil;
  }

  /** Replacing one octant's tree. */
  lemma PutPlaced(t: Oct, i: nat, c: Oct, p: Body, b: Box)
    requires Placed(t, b) && t.Branch? && i < 8 && Placed(c, SubBox(b, i)) && multiset(Bodies(c)) == multiset(Bodies(t.subs[i])) + multiset{p}
    ensures var t' := Branch(t.cell, t.subs[i := c]); Placed(t', b) && multiset(Bodies(t')) == multiset(Bodies(t)) + multiset{p}
  {
    BodiesOfUpdate(t.subs, i, c);
    CancelOut(multiset(BodiesOf(t.subs[i := c])), multiset(BodiesOf(t.subs)), multiset(Bodies(t.subs[i])), multiset{p});
    assert p in multiset(BodiesOf(t.subs[i := c]));
  }

  lemma CancelOut(a: multiset<Body>, b: multiset<Body>, c: multiset<Body>, d: multiset<Body>)
    requires a + c == b + (c + d)
    ensures a == b + d
  {
    forall x ensures a[x] == (b + d)[x] {
      assert (a + c)[x] == (b + (c + d))[x];
    }
  }

  lemma PutProper(t: Oct, i: nat, c: Oct, old': set<Node>)
    requires Proper(t) && t.Branch? && i < 8 && Proper(c) && Cells(t) <= old'
    requires forall n :: n in Cells(c) ==> n in Cells(t.subs[i]) || n !in old'
    ensures var t' := Branch(t.cell, t.subs[i := c]); Proper(t') && Cells(c) <= Cells(t') && forall n :: n in Cells(t') ==> n in Cells(t) || n in Cells(c)
  {
    var t' := Branch(t.cell, t.subs[i := c]);
    forall j | 0 <= j < 8 ensures Cells(t.subs[j]) <= Cells(t) {
    }
    assert t'.subs[i] == c;
    forall j, k | 0 <= j < k < 8 ensures Cells(t'.subs[j]) !! Cells(t'.subs[k]) {
      assert Cells(t.subs[j]) !! Cells(t.subs[k]);
    }
  }

  lemma Occupied(p: Node?, t: Oct, b: Box)
    requires Rep(p, t) && Placed(t, b)
    ensures p == null <==> Bodies(t) == []
    ensures p == null <==> t == Nil
  {
  }

  // ------------------------------------------------------------ the least tree

  /** A cell stands only where there are two bodies at least. */
  ghost predicate Dense(t: Oct) {
    t.Branch? ==> |Bodies(t)| >= 2 && forall i :: 0 <= i < |t.subs| ==> Dense(t.subs[i])
  }

  ghost predicate DenseBelow(t: Oct) {
    t.Branch? ==> forall i :: 0 <= i < |t.subs| ==> Dense(t.subs[i])
  }

  /** The same places, whichever nodes serve as cells. */
  ghost predicate SamePlaces(t: Oct, u: Oct) {
    match t
    case Nil => u == Nil
    case Leaf(_) => u == t
    case Branch(_, subs) => u.Branch? && |u.subs| == |subs| && forall i :: 0 <= i < |subs| ==> SamePlaces(subs[i], u.subs[i])
  }

  /** How often a body occurs below a cell is how often it occurs in the octant in which it lies. */
  lemma CountInOctant(t: Oct, b: Box, i: nat, x: Body)
    requires Placed(t, b) && b.size > 0.0 && t.Branch? && i < 8
    ensures multiset(Bodies(t.subs[i]))[x] == if Octant(x.at, b) == i then multiset(Bodies(t))[x] else 0
  {
    hide Placed, Octant, InBox;
    EightSubs(t, b);
    forall j | 0 <= j < 8 && x in Bodies(t.subs[j]) ensures j == Octant(x.at, b) {
      PlacedOctant(t, b, j, x);
    }
    if Octant(x.at, b) == i {
      CountInOne(t.subs, i, x);
    }
  }

  lemma EightSubs(t: Oct, b: Box)
    requires Placed(t, b) && t.Branch?
    ensures |t.subs| == 8 && forall i :: 0 <= i < 8 ==> Placed(t.subs[i], SubBox(b, i))
  {
  }

  lemma {:induction false} CountInOne(subs: seq<Oct>, i: nat, x: Body)
    requires i < |subs| && forall j :: 0 <= j < |subs| && j != i ==> x !in Bodies(subs[j])
    ensures multiset(BodiesOf(subs))[x] == multiset(Bodies(subs[i]))[x]
  {
    if i == 0 {
      NotInRest(subs[1..], x);
    } else {
      assert x !in Bodies(subs[0]);
      CountInOne(subs[1..], i - 1, x);
    }
  }

  lemma {:induction false} NotInRest(subs: seq<Oct>, x: Body)
    requires forall j :: 0 <= j < |subs| ==> x !in Bodies(subs[j])
    ensures x !in BodiesOf(subs)
  {
    if subs != [] {
      assert x !in Bodies(subs[0]);
      NotInRest(subs[1..], x);
    }
  }

  /** Such a tree is determined by its bodies: the order in which they were loaded leaves no trace. */
  lemma {:induction false} DenseUnique(t: Oct, u: Oct, b: Box)
    requires b.size > 0.0 && Placed(t, b) && Placed(u, b) && Dense(t) && Dense(u) && multiset(Bodies(t)) == multiset(Bodies(u))
    ensures SamePlaces(t, u)
    decreases t
  {
    assert |Bodies(t)| == |multiset(Bodies(t))| == |Bodies(u)|;
    if t.Branch? && u.Branch? {
      EightSubs(t, b);
      EightSubs(u, b);
      forall i | 0 <= i < 8 ensures SamePlaces(t.subs[i], u.subs[i]) {
        SameInOctant(t, u, b, i);
        DenseUnique(t.subs[i], u.subs[i], SubBox(b, i));
      }
    } else if t.Leaf? {
      assert t.body in multiset(Bodies(u));
    }
  }

  lemma SameCounts(m: multiset<Body>, n: multiset<Body>)
    requires forall x: Body :: m[x] == n[x]
    ensures m == n
  {
  }

  lemma SameInOctant(t: Oct, u: Oct, b: Box, i: nat)
    requires b.size > 0.0 && Placed(t, b) && Placed(u, b) && t.Branch? && u.Branch? && i < 8 && multiset(Bodies(t)) == multiset(Bodies(u))
    ensures multiset(Bodies(t.subs[i])) == multiset(Bodies(u.subs[i]))
  {
    hide *;
    EightSubs(t, b);
    EightSubs(u, b);
    var m, n := multiset(Bodies(t.subs[i])), multiset(Bodies(u.subs[i]));
    forall x: Body ensures m[x] == n[x] {
      CountInOctant(t, b, i, x);
      CountInOctant(u, b, i, x);
    }
    SameCounts(m, n);
  }
}
