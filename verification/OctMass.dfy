/**
  Centres of mass of the body tree: hackcofm of wolfbench/Benchmarks/bh/newbh.c, over exact reals.
*/
module OctMass {
  import opened Wrappers
  import opened Bits
  import opened OctSpace
  import opened OctTree
  import opened Octree

  function MassOf(s: seq<Body>): real {
    if s == [] then 0.0 else s[0].mass + MassOf(s[1..])
  }

  function Times(v: Vec, m: real): Vec {
    Vec(v.x * m, v.y * m, v.z * m)
  }

  function Plus(v: Vec, w: Vec): Vec {
    Vec(v.x + w.x, v.y + w.y, v.z + w.z)
  }

  const Zero := Vec(0.0, 0.0, 0.0)

  function Moment(s: seq<Body>): Vec {
    if s == [] then Zero else Plus(Times(s[0].at, s[0].mass), Moment(s[1..]))
  }

  predicate Heavy(s: seq<Body>) {
    forall x :: x in s ==> x.mass > 0.0
  }

  lemma {:induction false} SumsAdd(s: seq<Body>, t: seq<Body>)
    ensures MassOf(s + t) == MassOf(s) + MassOf(t) && Moment(s + t) == Plus(Moment(s), Moment(t))
  {
    hide *;
    if s == [] {
      SumsOfNothing(t);
      assert s + t == t;
    } else {
      var x, r := s[0], s[1..];
      SumsAdd(r, t);
      SumsOfCons(x, r);
      SumsOfCons(x, r + t);
      assert s == [x] + r && s + t == [x] + (r + t);
      PlusAssociates(Times(x.at, x.mass), Moment(r), Moment(t));
    }
  }

  lemma SumsOfNothing(t: seq<Body>)
    ensures MassOf([]) == 0.0 && Plus(Moment([]), Moment(t)) == Moment(t)
  {
  }

  lemma PlusAssociates(u: Vec, v: Vec, w: Vec)
    ensures Plus(u, Plus(v, w)) == Plus(Plus(u, v), w)
  {
  }

  lemma {:induction false} Positive(s: seq<Body>)
    requires Heavy(s)
    ensures MassOf(s) >= 0.0 && (s != [] ==> MassOf(s) > 0.0)
  {
    if s != [] {
      Positive(s[1..]);
    }
  }

  /** The sums do not depend on the order of the bodies. */
  lemma {:induction false} SumsPermute(s: seq<Body>, t: seq<Body>)
    requires multiset(s) == multiset(t)
    ensures MassOf(s) == MassOf(t) && Moment(s) == Moment(t)
  {
    hide *;
    assert |t| == |multiset(t)| == |multiset(s)|;
    if s == [] {
      assert t == s;
    } else {
      assert s[0] in multiset(t);
      var i :| 0 <= i < |t| && t[i] == s[0];
      PullOut(s, 0);
      PullOut(t, i);
      SumsPermute(s[..0] + s[1..], t[..i] + t[i + 1..]);
    }
  }

  lemma PullOut(t: seq<Body>, i: nat)
    requires i < |t|
    ensures var rest := t[..i] + t[i + 1..];
      MassOf(t) == t[i].mass + MassOf(rest) && Moment(t) == Plus(Times(t[i].at, t[i].mass), Moment(rest)) && multiset(rest) == multiset(t) - multiset{t[i]}
  {
    var x, a, b := t[i], t[..i], t[i + 1..];
    assert t == a + ([x] + b) && multiset(t) == multiset(a) + (multiset{x} + multiset(b));
    SumsAdd(a, [x] + b);
    SumsAdd(a, b);
    SumsOfCons(x, b);
    hide Times, MassOf, Moment;
  }

  lemma SumsOfCons(x: Body, b: seq<Body>)
    ensures MassOf([x] + b) == x.mass + MassOf(b) && Moment([x] + b) == Plus(Times(x.at, x.mass), Moment(b))
  {
    hide Times;
    assert ([x] + b)[1..] == b;
  }

  /** The node carries the mass and the centre of mass of these bodies. */
  ghost predicate Carries(q: Node, s: seq<Body>)
    reads q`mass, q`pos
  {
    q.mass == MassOf(s) && Times(q.pos, q.mass) == Moment(s)
  }

  /** Every cell carries the sums over the bodies below it. */
  ghost predicate Summed(t: Oct)
    reads Cells(t)`mass, Cells(t)`pos
    decreases t
  {
    t.Branch? ==> Carries(t.cell, Bodies(t)) && forall i :: 0 <= i < |t.subs| ==> Cells(t.subs[i]) <= Cells(t) && Summed(t.subs[i])
  }

  lemma {:induction false} CellsAreCells(p: Node?, t: Oct)
    requires Rep(p, t)
    ensures forall n :: n in Cells(t) ==> !n.isBody
    decreases t
  {
    if t.Branch? {
      forall i | 0 <= i < |t.subs| ensures forall n :: n in Cells(t.subs[i]) ==> !n.isBody {
        CellsAreCells(t.cell.subp[i], t.subs[i]);
      }
    }
  }

  /** What is known of the octants before any of them is summed. */
  lemma Octs(q: Node, t: Oct, b: Box)
    requires Rep(q, t) && Proper(t) && Placed(t, b) && t.Branch?
    ensures q == t.cell && q in Cells(t) && |q.subp| == |t.subs| == 8 && Bodies(t) == BodiesOf(t.subs) != []
    ensures forall j {:trigger t.subs[j]} :: 0 <= j < 8 ==>
      Rep(q.subp[j], t.subs[j]) && Proper(t.subs[j]) && Placed(t.subs[j], SubBox(b, j)) && Cells(t.subs[j]) <= Cells(t) && q !in Cells(t.subs[j])
    ensures forall j, k {:trigger t.subs[j], t.subs[k]} :: 0 <= j < 8 && 0 <= k < 8 && j != k ==> Cells(t.subs[j]) !! Cells(t.subs[k])
    ensures forall j {:trigger t.subs[j]} :: 0 <= j < 8 ==> forall x :: x in Bodies(t.subs[j]) ==> x in Bodies(t)
  {
    forall j, x | 0 <= j < 8 && x in Bodies(t.subs[j]) ensures x in Bodies(t) {
      BodiesOfMember(t.subs, x);
    }
  }

  lemma {:induction false} BodiesUpTo(subs: seq<Oct>, i: nat)
    requires i < |subs|
    ensures BodiesOf(subs[..i + 1]) == BodiesOf(subs[..i]) + Bodies(subs[i])
  {
    BodiesOfAt(subs[..i + 1], i);
    assert subs[..i + 1][..i] == subs[..i] && subs[..i + 1][i + 1..] == [];
  }

  /** hackcofm: every cell gets the total mass and the centre of mass of the bodies below it. */
  method HackCofM(q: Node, ghost t: Oct, ghost b: Box) returns (mq: real)
    requires Rep(q, t) && Proper(t) && Placed(t, b) && AllKnown(Bodies(t)) && Heavy(Bodies(t))
    modifies Cells(t)`mass, Cells(t)`pos
    ensures mq == q.mass > 0.0 && Carries(q, Bodies(t)) && Summed(t)
    decreases t, 2
  {
    Occupied(q, t, b);
    Positive(Bodies(t));
    if !q.isBody {
      assert t.Branch?;
      mq := SumCell(q, t, b);
    } else {
      mq := q.mass;
      OneBody(q, t);
    }
  }

  lemma OneBody(q: Node, t: Oct)
    requires Rep(q, t) && q.isBody && AllKnown(Bodies(t)) && Heavy(Bodies(t))
    ensures q.mass > 0.0 && Carries(q, Bodies(t)) && Summed(t)
  {
    assert t == Leaf(t.body) && t.body in Bodies(t) && Known(t.body);
    assert Bodies(t) == [t.body] + [];
    SumsOfCons(t.body, []);
  }

  /** The sums over the first i octants. */
  predicate Partial(t: Oct, i: nat, mq: real, mom: Vec)
    requires t.Branch? && i <= |t.subs|
  {
    mq == MassOf(BodiesOf(t.subs[..i])) && mom == Moment(BodiesOf(t.subs[..i]))
  }

  lemma BodiesApart(q: Node?, t: Oct)
    requires Rep(q, t) && AllKnown(Bodies(t))
    ensures forall x :: x in Bodies(t) ==> x.node !in Cells(t)
  {
    CellsAreCells(q, t);
  }

  lemma BodiesBelowHeavy(t: Oct, i: nat)
    requires t.Branch? && i < |t.subs| && AllKnown(Bodies(t)) && Heavy(Bodies(t))
    ensures AllKnown(Bodies(t.subs[i])) && Heavy(Bodies(t.subs[i]))
  {
    forall x | x in Bodies(t.subs[i]) ensures x in Bodies(t) {
      BodiesOfMember(t.subs, x);
    }
  }

  lemma PartialNext(t: Oct, i: nat, mq: real, mom: Vec, mr: real, mom': Vec)
    requires t.Branch? && i < |t.subs| && Partial(t, i, mq, mom)
    requires mr == MassOf(Bodies(t.subs[i])) && mom' == Moment(Bodies(t.subs[i]))
    ensures Partial(t, i + 1, mr + mq, Plus(mom, mom'))
  {
    BodiesUpTo(t.subs, i);
    SumsAdd(BodiesOf(t.subs[..i]), Bodies(t.subs[i]));
  }

  lemma EmptyOct(t: Oct)
    requires t == Nil
    ensures MassOf(Bodies(t)) == 0.0 && Moment(Bodies(t)) == Zero && Summed(t) && forall v :: Plus(v, Zero) == v
  {
  }

  lemma CarriesIs(q: Node, s: seq<Body>)
    ensures Carries(q, s) <==> q.mass == MassOf(s) && Times(q.pos, q.mass) == Moment(s)
  {
  }

  /** One turn of the loop. */
  method SumOct(q: Node, ghost t: Oct, ghost b: Box, i: nat, mq0: real, mom0: Vec) returns (mq: real, mom: Vec)
    requires t.Branch? && i < 8 == |q.subp| == |t.subs| && Partial(t, i, mq0, mom0)
    requires Rep(q.subp[i], t.subs[i]) && Proper(t.subs[i]) && Placed(t.subs[i], SubBox(b, i))
    requires AllKnown(Bodies(t.subs[i])) && Heavy(Bodies(t.subs[i]))
    requires forall j {:trigger t.subs[j]} :: 0 <= j < i ==> Cells(t.subs[j]) !! Cells(t.subs[i]) && Summed(t.subs[j])
    modifies Cells(t.subs[i])`mass, Cells(t.subs[i])`pos
    ensures Partial(t, i + 1, mq, mom) && forall j {:trigger t.subs[j]} :: 0 <= j < i + 1 ==> Summed(t.subs[j])
    decreases t, 0
  {
    hide *;
    var r := q.subp[i];
    mq, mom := mq0, mom0;
    Occupied(r, t.subs[i], SubBox(b, i));
    ghost var c := t.subs[i];
    assert c < t;
    forall j {:trigger t.subs[j]} | 0 <= j < i ensures forall n :: n in Cells(t.subs[j]) ==> allocated(n) {
      CellsAllocated(t.subs[j]);
    }
    if r != null {
      var mr := HackCofM(r, c, SubBox(b, i));
      CarriesIs(r, Bodies(c));
      PartialNext(t, i, mq, mom, mr, Times(r.pos, mr));
      mq := mr + mq;
      mom := Plus(mom, Times(r.pos, mr));
      forall j {:trigger t.subs[j]} | 0 <= j < i ensures Summed(t.subs[j]) {
        assert old(Summed(t.subs[j]));
        assert forall n :: n in Cells(t.subs[j]) ==> n !in Cells(c);
      }
    } else {
      EmptyOct(c);
      PartialNext(t, i, mq, mom, 0.0, Zero);
    }
  }

  lemma StartSums(t: Oct)
    requires t.Branch?
    ensures Partial(t, 0, 0.0, Zero)
  {
  }

  lemma EndSums(t: Oct, mq: real, mom: Vec)
    requires t.Branch? && |t.subs| == 8 && Partial(t, 8, mq, mom)
    ensures mq == MassOf(Bodies(t)) && mom == Moment(Bodies(t))
  {
    assert t.subs[..8] == t.subs;
  }

  lemma Rescaled(mom: Vec, m: real)
    requires m > 0.0
    ensures Times(Vec(mom.x / m, mom.y / m, mom.z / m), m) == mom
  {
  }

  lemma IsSummed(t: Oct)
    requires t.Branch? && Carries(t.cell, Bodies(t)) && forall i {:trigger t.subs[i]} :: 0 <= i < |t.subs| ==> Cells(t.subs[i]) <= Cells(t) && Summed(t.subs[i])
    ensures Summed(t)
  {
  }

  lemma AllKnownIs(s: seq<Body>)
    ensures AllKnown(s) <==> forall x :: x in s ==> Known(x)
    ensures forall x :: x in s ==> allocated(x.node) && allocated(x)
  {
  }

  method SumCell(q: Node, ghost t: Oct, ghost b: Box) returns (mq: real)
    requires t.Branch? && Rep(q, t) && Proper(t) && Placed(t, b) && AllKnown(Bodies(t)) && Heavy(Bodies(t))
    requires MassOf(Bodies(t)) > 0.0
    modifies Cells(t)`mass, Cells(t)`pos
    ensures mq == q.mass > 0.0 && Carries(q, Bodies(t)) && Summed(t)
    decreases t, 1
  {
    hide *;
    mq := 0.0;
    var mom, i := Zero, 0;
    StartSums(t);
    Octs(q, t, b);
    BodiesApart(q, t);
    CellsAllocated(t);
    while i < 8
      invariant 0 <= i <= 8 && Partial(t, i, mq, mom) && AllKnown(Bodies(t))
      invariant forall j {:trigger t.subs[j]} :: 0 <= j < i ==> Summed(t.subs[j])
    {
      BodiesBelowHeavy(t, i);
      AllKnownIs(Bodies(t));
      label L:
      mq, mom := SumOct(q, t, b, i, mq, mom);
      forall x | x in Bodies(t) ensures Known(x) {
        assert allocated(x.node) && x.node !in Cells(t.subs[i]);
        assert old@L(Known(x));
      }
      AllKnownIs(Bodies(t));
      i := i + 1;
    }
    EndSums(t, mq, mom);
    q.mass := mq;
    q.pos := Vec(mom.x / q.mass, mom.y / q.mass, mom.z / q.mass);
    Rescaled(mom, mq);
    CarriesIs(q, Bodies(t));
    IsSummed(t);
  }

  /** The bodies of a list as they are in memory. */
  ghost function Snapshot(list: seq<Node>): (r: seq<Body>)
    reads list
    ensures |r| == |list| && forall i {:trigger r[i]} :: 0 <= i < |list| ==> r[i] == Body(list[i], list[i].pos, list[i].mass)
  {
    if list == [] then [] else
      var q := list[|list| - 1];
      Snapshot(list[..|list| - 1]) + [Body(q, q.pos, q.mass)]
  }

  /** The bodies that are loaded: those that have mass. */
  function Massive(s: seq<Body>): seq<Body> {
    if s == [] then [] else Massive(s[..|s| - 1]) + if s[|s| - 1].mass != 0.0 then [s[|s| - 1]] else []
  }

  /** No two of them have the same integer coordinates. */
  ghost predicate DistinctCoords(s: seq<Body>, root: Box)
    requires root.size > 0.0
  {
    forall i, j :: 0 <= i < j < |s| ==> IntCoord(s[i].at, root) != IntCoord(s[j].at, root)
  }

  lemma {:induction false} MassiveMembers(s: seq<Body>)
    ensures forall x :: x in Massive(s) ==> x in s && x.mass != 0.0
  {
    if s != [] {
      MassiveMembers(s[..|s| - 1]);
    }
  }

  lemma SameMembers(s: seq<Body>, t: seq<Body>)
    requires multiset(s) == multiset(t)
    ensures forall x :: x in s ==> x in t
    ensures forall x :: x in t ==> x in s
  {
    assert forall x :: x in s ==> x in multiset(s);
    assert forall x :: x in t ==> x in multiset(t);
  }

  /** The box in which a body at p lands, if it does: while there is no tree the box does not grow. */
  function Landing(p: Vec, b: Box, empty: bool): (r: Option<Box>)
    requires b.size >= 1.0
    ensures r.Some? ==> InBox(p, r.value) && r.value.size >= 1.0
  {
    if !empty then Enlarged(p, b) else if InBox(p, b) then Some(b) else None
  }

  lemma LandingIs(p: Vec, b: Box, empty: bool)
    requires b.size >= 1.0
    ensures var r := Landing(p, b, empty);
      && (r.Some? ==> InBox(p, r.value) && r.value.size >= 1.0) && (InBox(p, b) ==> r == Some(b))
      && (empty ==> (r.Some? <==> InBox(p, b))) && (!empty ==> r == Enlarged(p, b) && (r.Some? <==> WithinReach(p, b)))
  {
    EnlargedExact(p, b);
  }

  lemma TakenSame(t: Oct, t': Oct, c: Coord, root: Box)
    requires root.size > 0.0 && Bodies(t) == Bodies(t')
    ensures Taken(t, c, root) <==> Taken(t', c, root)
  {
  }

  /** Some body of s has the integer coordinates of p. */
  ghost predicate Meets(s: seq<Body>, p: Vec, root: Box)
    requires root.size > 0.0
  {
    exists x :: x in s && IntCoord(x.at, root) == IntCoord(p, root)
  }

  /**
    What becomes of the box when the bodies s are loaded one after the other; none if the program ends before: the
    first body outside the box, a later one out of reach, or one that meets another in the box as it then is.
  */
  ghost function Fate(s: seq<Body>, b: Box): (r: Option<Box>)
    requires b.size >= 1.0
    ensures r.Some? ==> r.value.size >= 1.0
  {
    if s == [] then Some(b) else
      var c := Fate(s[..|s| - 1], b);
      if c.None? then None else NextFate(s[..|s| - 1], s[|s| - 1].at, c.value)
  }

  ghost function NextFate(s: seq<Body>, p: Vec, b: Box): (r: Option<Box>)
    requires b.size >= 1.0
    ensures r.Some? ==> r.value.size >= 1.0
  {
    var d := Landing(p, b, s == []);
    if d.None? || Meets(s, p, d.value) then None else d
  }

  /** For bodies in the box: it stays, and they get through exactly if their integer coordinates differ. */
  lemma {:induction false} FateInBox(s: seq<Body>, b: Box)
    requires b.size >= 1.0 && AllInBox(s, b)
    ensures Fate(s, b) == if DistinctCoords(s, b) then Some(b) else None
  {
    if s != [] {
      var init, x := s[..|s| - 1], s[|s| - 1];
      assert s == init + [x] && x in s && forall y :: y in init ==> y in s;
      FateInBox(init, b);
      DistinctSnoc(init, x, b);
      LandingIs(x.at, b, init == []);
    }
  }

  lemma DistinctSnoc(s: seq<Body>, x: Body, root: Box)
    requires root.size > 0.0
    ensures DistinctCoords(s + [x], root) <==> DistinctCoords(s, root) && !Meets(s, x.at, root)
  {
    var s' := s + [x];
    assert forall i :: 0 <= i < |s| ==> s'[i] == s[i];
    if DistinctCoords(s', root) {
      forall y | y in s ensures IntCoord(y.at, root) != IntCoord(x.at, root) {
        var i :| 0 <= i < |s| && s[i] == y;
        assert s'[|s|] == x;
      }
    }
    if DistinctCoords(s, root) && !Meets(s, x.at, root) {
      forall i, j | 0 <= i < j < |s'| ensures IntCoord(s'[i].at, root) != IntCoord(s'[j].at, root) {
        assert i < |s| && s[i] in s;
      }
    }
  }

  /** A first body outside the box ends the program. */
  lemma {:induction false} FirstOutside(s: seq<Body>, b: Box)
    requires b.size >= 1.0 && s != [] && !InBox(s[0].at, b)
    ensures Fate(s, b) == None
  {
    if |s| > 1 {
      assert s[..|s| - 1][0] == s[0];
      FirstOutside(s[..|s| - 1], b);
    } else {
      assert s[..0] == [];
    }
  }

  /** Once the program has ended no more bodies help. */
  lemma {:induction false} FateStuck(s: seq<Body>, i: nat, b: Box)
    requires i <= |s| && b.size >= 1.0 && Fate(Massive(s[..i]), b) == None
    ensures Fate(Massive(s), b) == None
    decreases |s| - i
  {
    if i < |s| {
      MassiveNext(s, i);
      var m, m' := Massive(s[..i]), Massive(s[..i + 1]);
      assert m' != m ==> m'[..|m'| - 1] == m;
      FateStuck(s, i + 1, b);
    } else {
      assert s[..i] == s;
    }
  }

  lemma FateSnoc(s: seq<Body>, x: Body, b: Box)
    requires b.size >= 1.0
    ensures Fate(s + [x], b) == var c := Fate(s, b); if c.None? then None else NextFate(s, x.at, c.value)
  {
    assert (s + [x])[..|s|] == s;
  }

  /** The turn of maketree for one body with mass. */
  method LoadBody(q: Node, tr: Space, ghost tree0: Oct) returns (ok: bool, ghost tree: Oct)
    requires Built(tr, tree0) && AllKnown(Bodies(tree0)) && q.isBody
    modifies tr, Cells(tree0)`subp
    ensures ok ==> Built(tr, tree) && multiset(Bodies(tree)) == multiset(Bodies(tree0)) + multiset{Body(q, q.pos, q.mass)}
    ensures ok ==> forall n :: n in Cells(tree) ==> n in Cells(tree0) || fresh(n)
    ensures old(tr.Box()).size >= 1.0 && (InBox(q.pos, old(tr.Box())) ==> tr.Box() == old(tr.Box()))
    ensures var d := Landing(q.pos, old(tr.Box()), tree0 == Nil);
      (ok <==> d.Some? && !Taken(tree0, IntCoord(q.pos, d.value), d.value)) && (ok ==> d.Some? && tr.Box() == d.value)
    ensures ok && InBox(q.pos, old(tr.Box())) && Dense(tree0) ==> Dense(tree)
  {
    hide *;
    BuiltParts(tr, tree0);
    LandingIs(q.pos, tr.Box(), tree0 == Nil);
    ghost var body := Body(q, q.pos, q.mass);
    ghost var t1;
    CellsAllocated(tree0);
    AllKnownIs(Bodies(tree0));
    ok, t1 := ExpandBox(q, tr, tree0);
    tree := t1;
    if ok {
      BuiltParts(tr, t1);
      var xqic := IntCoord(q.pos, tr.Box());
      var node1;
      forall x | x in Bodies(t1) ensures Known(x) {
        assert old(Known(x));
      }
      AllKnownIs(Bodies(t1));
      TakenSame(tree0, t1, xqic, tr.Box());
      ok, node1, tree := LoadTree(q, xqic, tr.root, IMAX / 2, tr, t1, tr.Box(), ImaxLog, body);
      if ok {
        tr.root := node1;
        IsBuilt(tr, tree);
      }
    }
  }

  lemma BuiltParts(tr: Space, t: Oct)
    requires Built(tr, t)
    ensures tr.rsize >= 1.0 && tr.Box().size == tr.rsize && Loaded(tr.root, t, tr.Box(), tr.Box(), ImaxLog) && IMAX / 2 == Level(ImaxLog)
    ensures forall x :: x in Bodies(t) ==> InBox(x.at, tr.Box())
  {
    RootWidth();
    PlacedInside(t, tr.Box());
  }

  lemma MassiveNext(s: seq<Body>, i: nat)
    requires i < |s|
    ensures Massive(s[..i + 1]) == Massive(s[..i]) + if s[i].mass != 0.0 then [s[i]] else []
  {
    assert s[..i + 1][..i] == s[..i];
  }

  ghost predicate AllInBox(s: seq<Body>, b: Box) {
    forall x :: x in s ==> InBox(x.at, b)
  }

  /** What maketree has built from the first bodies; s is the list. */
  ghost predicate Made(tr: Space, tree: Oct, s: seq<Body>, i: nat, b0: Box)
    requires i <= |s| && b0.size >= 1.0
    reads tr, Cells(tree)`subp
  {
    Built(tr, tree) && multiset(Bodies(tree)) == multiset(Massive(s[..i])) && Fate(Massive(s[..i]), b0) == Some(tr.Box())
  }

  lemma MadeNothing(tr: Space, s: seq<Body>)
    requires tr.rsize >= 1.0 && tr.root == null
    ensures tr.Box().size >= 1.0 && Made(tr, Nil, s, 0, tr.Box())
  {
    EmptyBuilt(tr);
  }

  /** A body of the list with mass is one of the massive ones. */
  lemma {:induction false} MassiveHas(s: seq<Body>, i: nat)
    requires i < |s| && s[i].mass != 0.0
    ensures s[i] in Massive(s)
  {
    if i < |s| - 1 {
      MassiveHas(s[..|s| - 1], i);
    }
  }

  /** The bodies of the tree are those of the list so far. */
  lemma SameBodies(tr: Space, t: Oct, m: seq<Body>, p: Vec, root: Box)
    requires Built(tr, t) && multiset(Bodies(t)) == multiset(m) && root.size > 0.0
    ensures t == Nil <==> m == []
    ensures Taken(t, IntCoord(p, root), root) <==> Meets(m, p, root)
  {
    SameMembers(Bodies(t), m);
    Occupied(tr.root, t, tr.Box());
    assert m != [] ==> m[0] in m;
    assert Bodies(t) != [] ==> Bodies(t)[0] in Bodies(t);
  }

  lemma MadeNext(tr: Space, tree: Oct, m: seq<Body>, s: seq<Body>, i: nat, b0: Box, c: Box, ok: bool)
    requires i < |s| && b0.size >= 1.0 && c.size >= 1.0 && s[i].mass != 0.0 && m == Massive(s[..i]) && Fate(m, b0) == Some(c)
    requires var d := Landing(s[i].at, c, m == []);
      (ok <==> d.Some? && !Meets(m, s[i].at, d.value)) && (ok ==> d.Some? && tr.Box() == d.value)
    requires ok ==> Built(tr, tree) && multiset(Bodies(tree)) == multiset(m) + multiset{s[i]}
    ensures ok ==> Made(tr, tree, s, i + 1, b0)
    ensures !ok ==> Fate(Massive(s), b0) == None
  {
    MassiveNext(s, i);
    FateSnoc(m, s[i], b0);
    hide Fate, Massive, Built, Bodies, Landing, Meets;
    if !ok {
      FateStuck(s, i + 1, b0);
    }
  }

  lemma MadeIs(tr: Space, tree: Oct, s: seq<Body>, i: nat, b0: Box)
    requires i <= |s| && b0.size >= 1.0
    ensures Made(tr, tree, s, i, b0) <==>
      Built(tr, tree) && multiset(Bodies(tree)) == multiset(Massive(s[..i])) && Fate(Massive(s[..i]), b0) == Some(tr.Box())
  {
  }

  lemma MadeSkip(tr: Space, tree: Oct, s: seq<Body>, i: nat, b0: Box)
    requires i < |s| && b0.size >= 1.0 && s[i].mass == 0.0 && Made(tr, tree, s, i, b0)
    ensures Made(tr, tree, s, i + 1, b0)
  {
    hide *;
    MassiveNext(s, i);
    assert Massive(s[..i + 1]) == Massive(s[..i]);
    MadeIs(tr, tree, s, i, b0);
    MadeIs(tr, tree, s, i + 1, b0);
  }

  lemma MadeParts(tr: Space, tree: Oct, s: seq<Body>, i: nat, b0: Box)
    requires i <= |s| && b0.size >= 1.0 && Made(tr, tree, s, i, b0)
    ensures Built(tr, tree) && multiset(Bodies(tree)) == multiset(Massive(s[..i])) && Fate(Massive(s[..i]), b0) == Some(tr.Box())
    ensures tr.Box().size >= 1.0
    ensures forall x :: x in Bodies(tree) ==> x in s && x.mass != 0.0
  {
    hide Massive, Bodies, Fate;
    SameMembers(Bodies(tree), Massive(s[..i]));
    MassiveMembers(s[..i]);
  }

  /** If all massive bodies lie in the box, it is still the same after the first of them. */
  lemma InBoxSoFar(s: seq<Body>, i: nat, b0: Box, c: Box)
    requires i <= |s| && b0.size >= 1.0 && AllInBox(Massive(s), b0) && Fate(Massive(s[..i]), b0) == Some(c)
    ensures c == b0 && (i < |s| && s[i].mass != 0.0 ==> InBox(s[i].at, b0))
  {
    if i < |s| && s[i].mass != 0.0 {
      MassiveHas(s, i);
    }
    MassivePrefix(s, i);
    FateInBox(Massive(s[..i]), b0);
  }

  lemma {:induction false} MassivePrefix(s: seq<Body>, i: nat)
    requires i <= |s|
    ensures forall x :: x in Massive(s[..i]) ==> x in Massive(s)
    decreases |s| - i
  {
    if i < |s| {
      MassiveNext(s, i);
      MassivePrefix(s, i + 1);
    } else {
      assert s[..i] == s;
    }
  }

  lemma SomeMass(list: seq<Node>)
    requires (forall q :: q in list ==> q.mass >= 0.0) && exists q :: q in list && q.mass > 0.0
    ensures (forall x :: x in Snapshot(list) ==> x.mass >= 0.0) && Massive(Snapshot(list)) != []
  {
    var q :| q in list && q.mass > 0.0;
    var i :| 0 <= i < |list| && list[i] == q;
    MassiveHas(Snapshot(list), i);
  }

  lemma BuiltRoot(tr: Space, t: Oct, s: seq<Body>)
    requires Built(tr, t) && multiset(Bodies(t)) == multiset(Massive(s)) && Massive(s) != [] && AllKnown(s) && forall x :: x in s ==> x.mass >= 0.0
    ensures tr.root != null && tr.Box().size > 0.0 && OctSpace.Cell(tr.Box(), tr.Box(), Pow2(ImaxLog))
    ensures Rep(tr.root, t) && Proper(t) && Placed(t, tr.Box()) && AllKnown(Bodies(t)) && Heavy(Bodies(t))
  {
    SameMembers(Bodies(t), Massive(s));
    MassiveMembers(s);
    assert Bodies(t) != [] by {
      assert Massive(s)[0] in Massive(s);
    }
    Occupied(tr.root, t, tr.Box());
  }

  /** One turn of maketree's loop. */
  method LoadTurn(q: Node, tr: Space, ghost tree0: Oct, ghost s: seq<Body>, ghost i: nat, ghost b0: Box) returns (ok: bool, ghost tree: Oct)
    requires i < |s| && b0.size >= 1.0 && Made(tr, tree0, s, i, b0) && AllKnown(s) && s[i].node == q
    modifies tr, Cells(tree0)`subp
    ensures ok ==> Made(tr, tree, s, i + 1, b0)
    ensures AllKnown(s) && forall n :: ok && n in Cells(tree) ==> n in Cells(tree0) || fresh(n)
    ensures !ok ==> Fate(Massive(s), b0) == None && (AllInBox(Massive(s), b0) ==> tr.Box() == b0)
    ensures ok && AllInBox(Massive(s), b0) && Dense(tree0) ==> Dense(tree)
  {
    hide *;
    ok, tree := true, tree0;
    AllKnownIs(s);
    KnownIs(s[i]);
    MadeParts(tr, tree, s, i, b0);
    if q.mass != 0.0 {
      AllKnownIs(Bodies(tree));
      ghost var c, m := tr.Box(), Massive(s[..i]);
      if AllInBox(Massive(s), b0) {
        InBoxSoFar(s, i, b0, c);
      }
      SameBodies(tr, tree, m, q.pos, c);
      LandingIs(q.pos, c, m == []);
      ghost var d := Landing(q.pos, c, m == []);
      if d.Some? {
        SameBodies(tr, tree, m, q.pos, d.value);
      }
      ok, tree := LoadBody(q, tr, tree);
      MadeNext(tr, tree, m, s, i, b0, c, ok);
    } else {
      MadeSkip(tr, tree, s, i, b0);
    }
    forall x | x in s ensures Known(x) {
      assert old(Known(x));
    }
    AllKnownIs(s);
  }

  lemma KnownIs(x: Body)
    requires Known(x)
    ensures x.node.isBody && x == Body(x.node, x.node.pos, x.node.mass)
  {
  }

  /** maketree's loop over the bodies. */
  method LoadAll(list: seq<Node>, tr: Space, ghost s: seq<Body>) returns (ok: bool, ghost tree: Oct)
    requires tr.rsize >= 1.0 && (forall q :: q in list ==> q.isBody) && s == Snapshot(list)
    modifies tr
    ensures old(tr.Box()).size >= 1.0
    ensures ok ==> Made(tr, tree, s, |s|, old(tr.Box())) && AllKnown(s) && forall n :: n in Cells(tree) ==> fresh(n)
    ensures !ok ==> Fate(Massive(s), old(tr.Box())) == None && (AllInBox(Massive(s), old(tr.Box())) ==> tr.Box() == old(tr.Box()))
    ensures ok && AllInBox(Massive(s), old(tr.Box())) ==> Dense(tree)
  {
    hide *;
    ghost var b0 := tr.Box();
    SnapshotKnown(list);
    tr.root := null;
    IsBuilt(tr, Nil);
    MadeNothing(tr, s);
    NoCells();
    ok, tree := true, Nil;
    var i := 0;
    while i < |list|
      invariant 0 <= i <= |list| && Made(tr, tree, s, i, b0) && AllKnown(s) && ok
      invariant AllInBox(Massive(s), b0) ==> Dense(tree)
      invariant forall n :: n in Cells(tree) ==> fresh(n)
    {
      ok, tree := LoadTurn(list[i], tr, tree, s, i, b0);
      if !ok {
        return;
      }
      i := i + 1;
    }
  }

  lemma NoCells()
    ensures Cells(Nil) == {} && Dense(Nil)
  {
  }

  lemma SnapshotKnown(list: seq<Node>)
    requires forall q :: q in list ==> q.isBody
    ensures AllKnown(Snapshot(list)) && |Snapshot(list)| == |list|
    ensures forall i {:trigger list[i]} :: 0 <= i < |list| ==> Snapshot(list)[i].node == list[i]
  {
  }

  /**
    maketree, for the list of one processor: on success the tree holds exactly the bodies with mass, in their
    places, and every cell carries the sums over its bodies. Fate says exactly when it succeeds. If all of them lie in
    the box to begin with, the box stays and it succeeds exactly when their integer coordinates differ.
  */
  method MakeTree(list: seq<Node>, tr: Space) returns (ok: bool, ghost tree: Oct)
    requires tr.rsize >= 1.0 && (forall q :: q in list ==> q.isBody && q.mass >= 0.0)
    requires exists q :: q in list && q.mass > 0.0
    modifies tr
    ensures ok ==> Built(tr, tree) && multiset(Bodies(tree)) == multiset(Massive(old(Snapshot(list)))) && ByBits(tree, tr.Box(), ImaxLog)
    ensures ok ==> tr.root != null && Carries(tr.root, Massive(old(Snapshot(list)))) && Summed(tree)
    ensures old(tr.Box()).size >= 1.0 && (ok <==> Fate(Massive(old(Snapshot(list))), old(tr.Box())).Some?)
    ensures ok ==> Fate(Massive(old(Snapshot(list))), old(tr.Box())) == Some(tr.Box())
    ensures AllInBox(Massive(old(Snapshot(list))), old(tr.Box())) ==>
      tr.Box() == old(tr.Box()) && (ok <==> DistinctCoords(Massive(old(Snapshot(list))), old(tr.Box()))) && (ok ==> Dense(tree))
  {
    hide *;
    ghost var s, b0 := Snapshot(list), tr.Box();
    SomeMass(list);
    ok, tree := LoadAll(list, tr, s);
    assert s[..|s|] == s;
    if AllInBox(Massive(s), b0) {
      FateInBox(Massive(s), b0);
    }
    if ok {
      MadeParts(tr, tree, s, |s|, b0);
      BuiltRoot(tr, tree, s);
      PlacedByBits(tree, tr.Box(), tr.Box(), ImaxLog);
      CellsAllocated(tree);
      var mq := HackCofM(tr.root, tree, tr.Box());
      CarriesIs(tr.root, Bodies(tree));
      CarriesIs(tr.root, Massive(s));
      SumsPermute(Bodies(tree), Massive(s));
    }
  }
}
