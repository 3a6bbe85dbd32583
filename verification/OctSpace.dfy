/**
  Boxes, octants and integer coordinates of the Barnes-Hut tree (wolfbench/Benchmarks/bh/newbh.c), over exact reals.
*/
module OctSpace {
  import opened Wrappers
  import opened Bits

  const ImaxLog: nat := 30
  const IMAX: nat := 0x4000_0000

  datatype Vec = Vec(x: real, y: real, z: real)
  datatype Box = Box(min: Vec, size: real)
  datatype Coord = Coord(x: int, y: int, z: int)

  predicate Within(p: real, lo: real, size: real) {
    lo <= p < lo + size
  }

  predicate InBox(p: Vec, b: Box) {
    Within(p.x, b.min.x, b.size) && Within(p.y, b.min.y, b.size) && Within(p.z, b.min.z, b.size)
  }

  predicate Upper(p: real, lo: real, size: real) {
    p >= lo + 0.5 * size
  }

  function Index(x: bool, y: bool, z: bool): (i: nat)
    ensures i < 8
  {
    (if x then 4 else 0) + (if y then 2 else 0) + if z then 1 else 0
  }

  /** The octant of the box in which p lies. */
  function Octant(p: Vec, b: Box): nat {
    Index(Upper(p.x, b.min.x, b.size), Upper(p.y, b.min.y, b.size), Upper(p.z, b.min.z, b.size))
  }

  function Side(lo: real, size: real, upper: bool): real {
    if upper then lo + 0.5 * size else lo
  }

  function SubBox(b: Box, i: nat): Box {
    Box(Vec(Side(b.min.x, b.size, i / 4 % 2 == 1), Side(b.min.y, b.size, i / 2 % 2 == 1), Side(b.min.z, b.size, i % 2 == 1)), 0.5 * b.size)
  }

  lemma IndexBits(x: bool, y: bool, z: bool)
    ensures var i := Index(x, y, z); (i / 4 % 2 == 1 <==> x) && (i / 2 % 2 == 1 <==> y) && (i % 2 == 1 <==> z)
  {
  }

  lemma IndexOnto(i: nat)
    requires i < 8
    ensures i == Index(i / 4 % 2 == 1, i / 2 % 2 == 1, i % 2 == 1)
  {
  }

  /** The octants of a box partition it. */
  lemma Octants(p: Vec, b: Box, i: nat)
    requires i < 8 && b.size > 0.0
    ensures InBox(p, SubBox(b, i)) <==> InBox(p, b) && Octant(p, b) == i
  {
    IndexOnto(i);
    IndexBits(Upper(p.x, b.min.x, b.size), Upper(p.y, b.min.y, b.size), Upper(p.z, b.min.z, b.size));
    hide Index;
    HalfWithin(p.x, b.min.x, b.size, i / 4 % 2 == 1);
    HalfWithin(p.y, b.min.y, b.size, i / 2 % 2 == 1);
    HalfWithin(p.z, b.min.z, b.size, i % 2 == 1);
  }

  lemma HalfWithin(p: real, lo: real, size: real, upper: bool)
    requires size > 0.0
    ensures Within(p, Side(lo, size, upper), 0.5 * size) <==> Within(p, lo, size) && Upper(p, lo, size) == upper
  {
  }

  /** One integer coordinate: the position scaled to the box. */
  function Integerize(p: real, lo: real, size: real): int
    requires size > 0.0
  {
    (IMAX as real * ((p - lo) / size)).Floor
  }

  function IntCoord(p: Vec, b: Box): Coord
    requires b.size > 0.0
  {
    Coord(Integerize(p.x, b.min.x, b.size), Integerize(p.y, b.min.y, b.size), Integerize(p.z, b.min.z, b.size))
  }

  function Bit(x: int, l: nat): bool {
    x >= 0 && And(x, l) != 0
  }

  /** old_subindex: the octant by one bit of each coordinate. */
  function OldSubindex(c: Coord, l: nat): nat {
    Index(Bit(c.x, l), Bit(c.y, l), Bit(c.z, l))
  }

  /** The corner is on the grid of cells w units wide, the q-th of them. */
  predicate OnGrid(lo: real, size: real, rlo: real, rsize: real, w: nat, q: nat)
    requires rsize > 0.0
  {
    var u := rsize / IMAX as real;
    size == w as real * u && lo == rlo + (q * w) as real * u
  }

  ghost predicate Gridded(lo: real, size: real, rlo: real, rsize: real, w: nat)
    requires rsize > 0.0
  {
    exists q: nat :: OnGrid(lo, size, rlo, rsize, w, q)
  }

  /** The box is a cell of the root box's grid, w units wide. */
  ghost predicate Cell(b: Box, root: Box, w: nat)
    requires root.size > 0.0
  {
    && Gridded(b.min.x, b.size, root.min.x, root.size, w)
    && Gridded(b.min.y, b.size, root.min.y, root.size, w)
    && Gridded(b.min.z, b.size, root.min.z, root.size, w)
  }

  lemma Cancel(d: real, u: real, m: real)
    requires u > 0.0 && m > 0.0
    ensures m * (d / (m * u)) == d / u
  {
    assert d / (m * u) * (m * u) == d;
    assert m * (d / (m * u)) * u == d / (m * u) * (m * u);
    assert m * (d / (m * u)) == m * (d / (m * u)) * u / u;
  }

  lemma Compare(d: real, u: real, n: int)
    requires u > 0.0
    ensures d >= n as real * u <==> d / u >= n as real
  {
    assert d == d / u * u;
  }

  /** A position is past a grid line exactly if its coordinate is. */
  lemma Threshold(p: real, rlo: real, rsize: real, n: int)
    requires rsize > 0.0
    ensures var u := rsize / IMAX as real; p >= rlo + n as real * u <==> Integerize(p, rlo, rsize) >= n
  {
    var u := rsize / IMAX as real;
    var m := IMAX as real;
    assert m * u == rsize;
    Cancel(p - rlo, u, m);
    Compare(p - rlo, u, n);
  }

  lemma Quotient(x: int, q: int, w: int)
    requires w > 0 && q * w <= x < (q + 1) * w
    ensures x / w == q
  {
    var r := x - q * w;
    assert x == q * w + r && 0 <= r < w;
    DivMod(x, w, q, r);
  }

  lemma Fold(q: int, w: int, u: real)
    ensures (q * w) as real * u + w as real * u == ((q + 1) * w) as real * u
  {
    assert (q + 1) * w == q * w + w;
    assert ((q + 1) * w) as real == (q * w) as real + w as real;
  }

  /** A position in a cell of the grid has that cell's number as its upper bits, and conversely. */
  lemma CellNumber(p: real, lo: real, size: real, rlo: real, rsize: real, w: nat, q: nat)
    requires rsize > 0.0 && w > 0 && OnGrid(lo, size, rlo, rsize, w, q)
    ensures Within(p, lo, size) <==> q * w <= Integerize(p, rlo, rsize) < (q + 1) * w
  {
    Threshold(p, rlo, rsize, q * w);
    Threshold(p, rlo, rsize, (q + 1) * w);
    Fold(q, w, rsize / IMAX as real);
  }

  lemma HalfLine(q: int, l: int, u: real)
    ensures (q * (2 * l)) as real * u + 0.5 * ((2 * l) as real * u) == ((2 * q + 1) * l) as real * u
  {
    assert (2 * q + 1) * l == q * (2 * l) + l;
    assert ((2 * q + 1) * l) as real == (q * (2 * l)) as real + l as real;
    assert (2 * l) as real == 2.0 * l as real;
  }

  lemma Halves(x: int, q: int, l: nat)
    requires l > 0 && q * (2 * l) <= x < (q + 1) * (2 * l)
    ensures x >= (2 * q + 1) * l <==> x / l % 2 == 1
  {
    assert (2 * q) * l == q * (2 * l) && (2 * q + 1) * l == q * (2 * l) + l && (2 * q + 2) * l == (q + 1) * (2 * l);
    if x >= (2 * q + 1) * l {
      Quotient(x, 2 * q + 1, l);
    } else {
      Quotient(x, 2 * q, l);
    }
  }

  /** In a cell of the grid the bit of the coordinate tells the half. */
  lemma BitIsUpper(p: real, lo: real, size: real, rlo: real, rsize: real, k: nat)
    requires rsize > 0.0 && Within(p, lo, size) && Gridded(lo, size, rlo, rsize, 2 * Pow2(k))
    ensures Bit(Integerize(p, rlo, rsize), Pow2(k)) <==> Upper(p, lo, size)
  {
    hide Integerize, Pow2, And;
    var l := Pow2(k);
    var q: nat :| OnGrid(lo, size, rlo, rsize, 2 * l, q);
    var x := Integerize(p, rlo, rsize);
    CellNumber(p, lo, size, rlo, rsize, 2 * l, q);
    UpperIsPast(p, lo, size, rlo, rsize, l, q);
    NonNegative(q, 2 * l);
    hide OnGrid, Upper;
    AndPow2(x, k);
    Halves(x, q, l);
  }

  lemma NonNegative(a: nat, b: nat)
    ensures a * b >= 0
  {
  }

  lemma UpperIsPast(p: real, lo: real, size: real, rlo: real, rsize: real, l: nat, q: nat)
    requires rsize > 0.0 && OnGrid(lo, size, rlo, rsize, 2 * l, q)
    ensures Upper(p, lo, size) <==> Integerize(p, rlo, rsize) >= (2 * q + 1) * l
  {
    HalfLine(q, l, rsize / IMAX as real);
    Threshold(p, rlo, rsize, (2 * q + 1) * l);
  }

  /** The integer coordinates choose the octant in which the position lies, on every level. */
  lemma BitsAreOctants(p: Vec, b: Box, root: Box, k: nat)
    requires root.size > 0.0 && InBox(p, b) && Cell(b, root, 2 * Pow2(k))
    ensures OldSubindex(IntCoord(p, root), Pow2(k)) == Octant(p, b)
  {
    BitIsUpper(p.x, b.min.x, b.size, root.min.x, root.size, k);
    BitIsUpper(p.y, b.min.y, b.size, root.min.y, root.size, k);
    BitIsUpper(p.z, b.min.z, b.size, root.min.z, root.size, k);
  }

  lemma HalfOnGrid(lo: real, size: real, rlo: real, rsize: real, l: nat, upper: bool)
    requires rsize > 0.0 && Gridded(lo, size, rlo, rsize, 2 * l)
    ensures Gridded(Side(lo, size, upper), 0.5 * size, rlo, rsize, l)
  {
    var q: nat :| OnGrid(lo, size, rlo, rsize, 2 * l, q);
    var u := rsize / IMAX as real;
    assert 0.5 * ((2 * l) as real * u) == l as real * u by {
      assert (2 * l) as real == 2.0 * l as real;
    }
    var q' := if upper then 2 * q + 1 else 2 * q;
    HalfLine(q, l, u);
    assert (2 * q) * l == q * (2 * l);
    assert OnGrid(Side(lo, size, upper), 0.5 * size, rlo, rsize, l, q');
  }

  /** The octants of a cell are cells of half the width. */
  lemma SubCell(b: Box, root: Box, l: nat, i: nat)
    requires root.size > 0.0 && Cell(b, root, 2 * l)
    ensures Cell(SubBox(b, i), root, l)
  {
    HalfOnGrid(b.min.x, b.size, root.min.x, root.size, l, i / 4 % 2 == 1);
    HalfOnGrid(b.min.y, b.size, root.min.y, root.size, l, i / 2 % 2 == 1);
    HalfOnGrid(b.min.z, b.size, root.min.z, root.size, l, i % 2 == 1);
  }

  /** The root box is one cell, IMAX units wide. */
  lemma RootCell(root: Box)
    requires root.size > 0.0
    ensures Cell(root, root, IMAX)
  {
    assert OnGrid(root.min.x, root.size, root.min.x, root.size, IMAX, 0);
    assert OnGrid(root.min.y, root.size, root.min.y, root.size, IMAX, 0);
    assert OnGrid(root.min.z, root.size, root.min.z, root.size, IMAX, 0);
  }

  /** In a cell one unit wide all positions have the same coordinate. */
  lemma UnitCell(p: Vec, p': Vec, b: Box, root: Box)
    requires root.size > 0.0 && Cell(b, root, 1) && InBox(p, b) && InBox(p', b)
    ensures IntCoord(p, root) == IntCoord(p', root)
  {
    UnitLine(p.x, p'.x, b.min.x, b.size, root.min.x, root.size);
    UnitLine(p.y, p'.y, b.min.y, b.size, root.min.y, root.size);
    UnitLine(p.z, p'.z, b.min.z, b.size, root.min.z, root.size);
  }

  lemma UnitLine(p: real, p': real, lo: real, size: real, rlo: real, rsize: real)
    requires rsize > 0.0 && Within(p, lo, size) && Within(p', lo, size) && Gridded(lo, size, rlo, rsize, 1)
    ensures Integerize(p, rlo, rsize) == Integerize(p', rlo, rsize)
  {
    var q: nat :| OnGrid(lo, size, rlo, rsize, 1, q);
    CellNumber(p, lo, size, rlo, rsize, 1, q);
    CellNumber(p', lo, size, rlo, rsize, 1, q);
  }

  /** ic_test: the body is in the box. */
  predicate IcTest(p: Vec, b: Box)
    requires b.size > 0.0
  {
    Scaled(p.x, b.min.x, b.size) && Scaled(p.y, b.min.y, b.size) && Scaled(p.z, b.min.z, b.size)
  }

  predicate Scaled(p: real, lo: real, size: real)
    requires size > 0.0
  {
    0.0 <= (p - lo) / size < 1.0
  }

  lemma TestIsInBox(p: Vec, b: Box)
    requires b.size > 0.0
    ensures IcTest(p, b) <==> InBox(p, b)
  {
    ScaledIsWithin(p.x, b.min.x, b.size);
    ScaledIsWithin(p.y, b.min.y, b.size);
    ScaledIsWithin(p.z, b.min.z, b.size);
  }

  lemma ScaledIsWithin(p: real, lo: real, size: real)
    requires size > 0.0
    ensures Scaled(p, lo, size) <==> Within(p, lo, size)
  {
    Compare(p - lo, size, 0);
    Compare(p - lo, size, 1);
  }

  /** The lower end after doubling towards p. */
  function GrowLo(p: real, lo: real, size: real): real {
    if p < lo + 0.5 * size then lo - size else lo
  }

  /** One doubling of the box towards p. */
  function Grow(p: Vec, b: Box): Box {
    Box(Vec(GrowLo(p.x, b.min.x, b.size), GrowLo(p.y, b.min.y, b.size), GrowLo(p.z, b.min.z, b.size)), 2.0 * b.size)
  }

  function Middle(b: Box): Vec {
    Vec(b.min.x + 0.5 * b.size, b.min.y + 0.5 * b.size, b.min.z + 0.5 * b.size)
  }

  /** The old box is the octant of the new one in which its midpoint lies. */
  lemma OldBoxIsOctant(p: Vec, b: Box)
    requires b.size > 0.0
    ensures InBox(Middle(b), Grow(p, b)) && Octant(Middle(b), Grow(p, b)) < 8 && SubBox(Grow(p, b), Octant(Middle(b), Grow(p, b))) == b
  {
    var g, m := Grow(p, b), Middle(b);
    IndexBits(Upper(m.x, g.min.x, g.size), Upper(m.y, g.min.y, g.size), Upper(m.z, g.min.z, g.size));
  }

  /** Doubling the box halves a coordinate; the new top bit tells where the old box lies. */
  lemma GrownCoordinate(x: real, p: real, lo: real, size: real)
    requires size > 0.0 && Within(x, lo, size)
    ensures Integerize(x, GrowLo(p, lo, size), 2.0 * size) == Integerize(x, lo, size) / 2 + if GrowLo(p, lo, size) < lo then IMAX / 2 else 0
  {
    var y := IMAX as real * ((x - lo) / size);
    var m := IMAX as real;
    var a := (x - lo) / size;
    assert a * size == x - lo;
    Divided(x - lo, 2.0 * size, a / 2.0);
    Divided(x - lo + size, 2.0 * size, a / 2.0 + 0.5);
    assert m * ((x - lo) / (2.0 * size)) == y / 2.0;
    assert m * ((x - lo) / (2.0 * size) + 0.5) == y / 2.0 + 536870912.0;
    HalfFloor(y, 0);
    HalfFloor(y, IMAX / 2);
  }

  lemma Divided(n: real, d: real, q: real)
    requires d > 0.0 && q * d == n
    ensures n / d == q
  {
  }

  lemma HalfFloor(y: real, n: int)
    ensures (y / 2.0 + n as real).Floor == y.Floor / 2 + n
  {
    var f := y.Floor;
    assert f as real <= y < f as real + 1.0;
    var h := f / 2;
    assert h as real <= y / 2.0 < h as real + 1.0;
  }

  /** While p is left of the box it has only grown to the left, while p is right of it only to the right. */
  predicate OneWay(p: real, lo: real, size: real, lo0: real, size0: real) {
    (p < lo ==> lo == lo0 - (size - size0)) && (p >= lo + size ==> lo == lo0)
  }

  predicate Towards(p: Vec, b: Box, b0: Box) {
    && OneWay(p.x, b.min.x, b.size, b0.min.x, b0.size)
    && OneWay(p.y, b.min.y, b.size, b0.min.y, b0.size)
    && OneWay(p.z, b.min.z, b.size, b0.min.z, b0.size)
  }

  lemma GrowTowards(p: Vec, b: Box, b0: Box)
    requires b.size > 0.0 && Towards(p, b, b0)
    ensures Towards(p, Grow(p, b), b0)
  {
  }

  const Limit := 1000.0

  /** The size at which doubling stops. */
  function Reach(size: real): (r: real)
    requires size >= 1.0
    ensures r >= size && r >= Limit
    decreases Limit - size
  {
    if size >= Limit then size else Reach(2.0 * size)
  }

  /** The stretch of an axis that the box can come to cover, growing to one side only. */
  predicate Reaches(p: real, lo: real, size: real)
    requires size >= 1.0
  {
    lo - (Reach(size) - size) <= p < lo + Reach(size)
  }

  predicate WithinReach(p: Vec, b: Box)
    requires b.size >= 1.0
  {
    Reaches(p.x, b.min.x, b.size) && Reaches(p.y, b.min.y, b.size) && Reaches(p.z, b.min.z, b.size)
  }

  /** The first box, doubling towards p, that p is in, if there is one before the limit. */
  function Enlarged(p: Vec, b: Box): (r: Option<Box>)
    requires b.size >= 1.0
    ensures r.Some? ==> InBox(p, r.value) && r.value.size >= 1.0
    ensures InBox(p, b) ==> r == Some(b)
    decreases Limit - b.size
  {
    if InBox(p, b) then Some(b) else if b.size >= Limit then None else Enlarged(p, Grow(p, b))
  }

  /** The lower end has moved at most by what the box has grown. */
  predicate Covers(lo: real, size: real, lo0: real, size0: real) {
    lo0 - (size - size0) <= lo <= lo0
  }

  predicate CoversBox(b: Box, b0: Box) {
    Covers(b.min.x, b.size, b0.min.x, b0.size) && Covers(b.min.y, b.size, b0.min.y, b0.size) && Covers(b.min.z, b.size, b0.min.z, b0.size)
  }

  lemma StepReaches(p: real, lo: real, size: real, lo0: real, size0: real)
    requires size >= 1.0 && size0 >= 1.0 && Reach(size) == Reach(size0) && OneWay(p, lo, size, lo0, size0) && Covers(lo, size, lo0, size0)
    ensures Within(p, lo, size) ==> Reaches(p, lo0, size0)
    ensures size >= Limit && Reaches(p, lo0, size0) ==> Within(p, lo, size)
  {
  }

  /** From any box on the way: p is reached exactly if it lies in the stretch of each axis. */
  lemma {:induction false} EnlargedFrom(p: Vec, b: Box, b0: Box)
    requires b.size >= 1.0 && b0.size >= 1.0 && Towards(p, b, b0) && CoversBox(b, b0) && Reach(b.size) == Reach(b0.size)
    ensures Enlarged(p, b).Some? <==> WithinReach(p, b0)
    decreases Limit - b.size
  {
    StepReaches(p.x, b.min.x, b.size, b0.min.x, b0.size);
    StepReaches(p.y, b.min.y, b.size, b0.min.y, b0.size);
    StepReaches(p.z, b.min.z, b.size, b0.min.z, b0.size);
    if !InBox(p, b) && b.size < Limit {
      GrowTowards(p, b, b0);
      GrowCovers(p, b, b0);
      hide Reaches;
      EnlargedFrom(p, Grow(p, b), b0);
    }
  }

  lemma GrowCovers(p: Vec, b: Box, b0: Box)
    requires 1.0 <= b.size < Limit && CoversBox(b, b0)
    ensures CoversBox(Grow(p, b), b0) && Grow(p, b).size >= 1.0 && Reach(Grow(p, b).size) == Reach(b.size)
  {
  }

  /** Growing reaches p exactly if p lies, on each axis, no further off than the box can grow. */
  lemma EnlargedExact(p: Vec, b: Box)
    requires b.size >= 1.0
    ensures Enlarged(p, b).Some? <==> WithinReach(p, b)
  {
    EnlargedFrom(p, b, b);
  }
}
