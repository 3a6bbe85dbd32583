/**
  The bookkeeping of the doubling hash table of LectureCode/Review/uthash.h: bucket indices by masking,
  the ideal chain length, and why the chains of a table that may still expand stay bounded.
*/
module BucketStats {
  import opened Bits

  datatype Bucket<T> = Bucket(head: T, count: nat, expandMult: nat)

  const Capacity: nat := 10 // HASH_BKT_CAPACITY_THRESH

  /** r is the least whole number not below n / b. */
  predicate IsCeiling(r: int, n: int, b: int) {
    r * b >= n && (r > 0 ==> (r - 1) * b < n)
  }

  lemma CeilingByRemainder(n: nat, b: nat)
    requires b > 0
    ensures IsCeiling(n / b + (if n % b != 0 then 1 else 0), n, b)
  {
    var q := n / b;
    assert n == q * b + n % b;
    assert (q + 1) * b == q * b + b && (q - 1) * b == q * b - b;
  }

  /** The shift and the mask give the ceiling. */
  lemma CeilingByBits(n: nat, k: nat)
    ensures IsCeiling(Shr(n, k) + (if And(n, Pow2(k) - 1) != 0 then 1 else 0), n, Pow2(k))
  {
    MaskIsMod(n, k);
    ShiftIsDiv(n, k);
    var b := Pow2(k);
    hide Pow2, Shr, And;
    CeilingByRemainder(n, b);
  }

  function Sum<T>(bs: seq<Bucket<T>>, f: Bucket<T> -> int): int {
    if bs == [] then 0 else Sum(bs[..|bs| - 1], f) + f(bs[|bs| - 1])
  }

  lemma {:induction false} SumUpdate<T>(bs: seq<Bucket<T>>, i: nat, b: Bucket<T>, f: Bucket<T> -> int)
    requires i < |bs|
    ensures Sum(bs[i := b], f) == Sum(bs, f) - f(bs[i]) + f(b)
  {
    var last := |bs| - 1;
    if i == last {
      assert bs[i := b][..last] == bs[..last];
    } else {
      assert bs[i := b][..last] == bs[..last][i := b];
      SumUpdate(bs[..last], i, b, f);
    }
  }

  /** A bound on every bucket is one on the sums. */
  lemma {:induction false} SumBound<T>(bs: seq<Bucket<T>>, p: int, f: Bucket<T> -> int, g: Bucket<T> -> int, q: int, r: int)
    requires forall b :: b in bs ==> p * f(b) <= q * g(b) + r
    ensures p * Sum(bs, f) <= q * Sum(bs, g) + r * |bs|
  {
    if bs != [] {
      var init, b := bs[..|bs| - 1], bs[|bs| - 1];
      SumBound(init, p, f, g, q, r);
      BoundStep(p, Sum(init, f), f(b), q, Sum(init, g), g(b), r, |init|);
    }
  }

  lemma BoundStep(p: int, x: int, u: int, q: int, y: int, v: int, r: int, n: int)
    requires p * x <= q * y + r * n && p * u <= q * v + r
    ensures p * (x + u) <= q * (y + v) + r * (n + 1)
  {
    assert p * (x + u) == p * x + p * u && q * (y + v) == q * y + q * v && r * (n + 1) == r * n + r;
  }

  function Count<T>(b: Bucket<T>): int {
    b.count
  }

  /** The items of a bucket whose position in the chain exceeds m. */
  function Beyond<T>(m: nat): Bucket<T> -> int {
    (b: Bucket<T>) => if b.count > m then b.count - m else 0
  }

  /** A chain is below its threshold, or has just the capacity and no multiplier, as an expansion can leave it. */
  predicate Fits<T>(b: Bucket<T>) {
    b.count < Capacity * (b.expandMult + 1) || (b.count == Capacity && b.expandMult == 0)
  }

  function Weight<T>(b: Bucket<T>): int {
    b.expandMult + if b.count >= Capacity * (b.expandMult + 1) then 2 else 1
  }

  /** What holds of a table for as long as it may expand. */
  ghost predicate Bounded<T>(bs: seq<Bucket<T>>) {
    (forall b :: b in bs ==> Fits(b)) && Sum(bs, Weight) <= 2 * |bs|
  }

  /** So such a table holds less than twenty items a bucket. */
  lemma BelowTwenty<T>(bs: seq<Bucket<T>>)
    requires Bounded(bs)
    ensures Sum(bs, Count) <= 19 * |bs|
  {
    forall b | b in bs ensures 1 * Count(b) <= 10 * Weight(b) - 1 {
      assert Fits(b);
    }
    SumBound(bs, 1, Count, Weight, 10, -1);
  }

  /** The ideal length computed when a bucket has just reached its threshold is at most the capacity. */
  lemma IdealWithinCapacity(n: nat, b: nat, r: nat)
    requires n <= 19 * b + 1 && b > 0 && IsCeiling(r, n, 2 * b)
    ensures r <= Capacity
  {
    Scaled(r - 1, 10, 2 * b);
  }

  predicate Redistributed<T>(b: Bucket<T>, ideal: nat)
    requires ideal > 0
  {
    b.expandMult == if b.count > ideal then b.count / ideal else 0
  }

  lemma Quotient(c: nat, d: nat)
    requires d > 0
    ensures d * (c / d) <= c < d * (c / d + 1)
  {
  }

  /** A chain beyond the ideal length is below the threshold of its multiplier. */
  lemma BelowThreshold(c: int, ideal: int, q: int)
    requires 0 < ideal <= 10 && q >= 0 && c < ideal * (q + 1)
    ensures c < 10 * (q + 1)
  {
    Scaled(10, ideal, q + 1);
  }

  lemma RedistributedFits<T>(b: Bucket<T>, ideal: nat)
    requires 0 < ideal <= Capacity && Redistributed(b, ideal)
    ensures Fits(b) && ideal * Weight(b) <= Count(b) + ideal
  {
    var c, q := b.count, b.count / ideal;
    Quotient(c, ideal);
    if c > ideal {
      BelowThreshold(c, ideal, q);
      Distribute(ideal, q);
    } else {
      SmallWeight(c, ideal);
    }
  }

  lemma Distribute(d: int, q: int)
    ensures d * (q + 1) == d * q + d
  {
  }

  lemma SmallWeight(c: int, ideal: int)
    requires 0 <= c <= ideal <= 10
    ensures ideal * (if c >= 10 then 2 else 1) <= c + ideal
  {
  }

  lemma Cancel(w: int, m: int, n: int, ideal: int)
    requires ideal > 0 && ideal * w <= n + ideal * m && n <= ideal * m
    ensures w <= 2 * m
  {
    assert ideal * (w - 2 * m) == ideal * w - 2 * (ideal * m);
    Apart(w - 2 * m, ideal);
  }

  /** An expansion bounds the chains again. */
  lemma ExpansionBounds<T>(bs: seq<Bucket<T>>, ideal: nat)
    requires 0 < ideal <= Capacity && forall b :: b in bs ==> Redistributed(b, ideal)
    requires IsCeiling(ideal, Sum(bs, Count), |bs|)
    ensures Bounded(bs)
  {
    forall b | b in bs ensures Fits(b) && ideal * Weight(b) <= 1 * Count(b) + ideal {
      RedistributedFits(b, ideal);
    }
    SumBound(bs, ideal, Weight, Count, 1, ideal);
    hide Sum;
    Cancel(Sum(bs, Weight), |bs|, Sum(bs, Count), ideal);
  }

  /** Adding below the threshold, or removing, keeps the bounds. */
  lemma BoundsKept<T>(bs: seq<Bucket<T>>, i: nat, b: Bucket<T>)
    requires Bounded(bs) && i < |bs| && b.expandMult == bs[i].expandMult
    requires b.count < Capacity * (b.expandMult + 1) || b.count <= bs[i].count
    ensures Bounded(bs[i := b])
  {
    SumUpdate(bs, i, b, Weight);
    var bs' := bs[i := b];
    forall c | c in bs' ensures Fits(c) {
      var k :| 0 <= k < |bs'| && bs'[k] == c;
      assert Fits(bs[k]);
    }
    assert Fits(bs[i]);
  }
}
