/**
  What Bimerge and Bisort of wolfbench/Benchmarks/bisort/bitonic.c compute, as functions on the
  in-order values of the tree followed by the spare, and when that is a sort.
*/
module AdaptiveMerge {
  import opened Bits
  import opened BitonicSeq

  /** The descent of Bimerge on the in-order values of two perfect trees of one height. */
  function DescendSeq(x: seq<int>, y: seq<int>, fromRight: bool, dir: bool): (r: (seq<int>, seq<int>))
    requires |x| == |y|
    ensures |r.0| == |r.1| == |x|
  {
    if x == [] then (x, y) else
    var m := |x| / 2;
    var ex := Exchanges(x[m], y[m], dir);
    var p, q := if ex then y else x, if ex then x else y;
    if fromRight == ex then
      var d := DescendSeq(x[..m], y[..m], fromRight, dir);
      (d.0 + p[m..], d.1 + q[m..])
    else
      var d := DescendSeq(x[m + 1..], y[m + 1..], fromRight, dir);
      (p[..m + 1] + d.0, q[..m + 1] + d.1)
  }

  function Around(near: seq<int>, v: int, far: seq<int>, g: bool): (r: seq<int>)
    ensures |r| == |near| + 1 + |far| && multiset(r) == multiset(near) + multiset{v} + multiset(far)
  {
    if g then near + [v] + far else far + [v] + near
  }

  lemma StepLeft(lv: int, rv: int, a: seq<int>, b: seq<int>, c: seq<int>, d: seq<int>, fromRight: bool, dir: bool)
    requires |a| == |b| == |c| == |d| && fromRight == Exchanges(lv, rv, dir)
    ensures var w := DescendSeq(a, b, fromRight, dir);
      DescendSeq(a + [lv] + c, b + [rv] + d, fromRight, dir)
      == if fromRight then (w.0 + [rv] + d, w.1 + [lv] + c) else (w.0 + [lv] + c, w.1 + [rv] + d)
  {
    hide Exchanges;
    var x, y, m := a + [lv] + c, b + [rv] + d, |a|;
    assert |x| / 2 == m && x[m] == lv && y[m] == rv;
    assert x[..m] == a && y[..m] == b && x[m..] == [lv] + c && y[m..] == [rv] + d;
    var w := DescendSeq(a, b, fromRight, dir);
    assert DescendSeq(x, y, fromRight, dir) == if fromRight then (w.0 + y[m..], w.1 + x[m..]) else (w.0 + x[m..], w.1 + y[m..]);
    hide DescendSeq;
    Associative(w.0, w.1, lv, rv, c, d);
  }

  lemma Associative(p: seq<int>, q: seq<int>, lv: int, rv: int, c: seq<int>, d: seq<int>)
    ensures p + ([rv] + d) == p + [rv] + d && q + ([lv] + c) == q + [lv] + c
    ensures p + ([lv] + c) == p + [lv] + c && q + ([rv] + d) == q + [rv] + d
  {
  }

  lemma StepRight(lv: int, rv: int, a: seq<int>, b: seq<int>, c: seq<int>, d: seq<int>, fromRight: bool, dir: bool)
    requires |a| == |b| == |c| == |d| && fromRight != Exchanges(lv, rv, dir)
    ensures var w := DescendSeq(a, b, fromRight, dir);
      DescendSeq(c + [lv] + a, d + [rv] + b, fromRight, dir)
      == if fromRight then (c + [lv] + w.0, d + [rv] + w.1) else (d + [rv] + w.0, c + [lv] + w.1)
  {
    hide Exchanges;
    var x, y, m := c + [lv] + a, d + [rv] + b, |a|;
    assert |x| / 2 == m && x[m] == lv && y[m] == rv;
    assert x[m + 1..] == a && y[m + 1..] == b && x[..m + 1] == c + [lv] && y[..m + 1] == d + [rv];
  }

  /** One comparison of the descent: a and b are the values below, c and d those beside the path. */
  lemma DescendSeqStep(lv: int, rv: int, a: seq<int>, b: seq<int>, c: seq<int>, d: seq<int>, fromRight: bool, dir: bool)
    requires |a| == |b| == |c| == |d|
    ensures var ex := Exchanges(lv, rv, dir); var g := fromRight == ex; var w := DescendSeq(a, b, fromRight, dir);
      DescendSeq(Around(a, lv, c, g), Around(b, rv, d, g), fromRight, dir)
      == if ex then (Around(w.0, rv, d, g), Around(w.1, lv, c, g)) else (Around(w.0, lv, c, g), Around(w.1, rv, d, g))
  {
    hide Exchanges;
    if fromRight == Exchanges(lv, rv, dir) {
      StepLeft(lv, rv, a, b, c, d, fromRight, dir);
    } else {
      StepRight(lv, rv, a, b, c, d, fromRight, dir);
    }
  }

  lemma Regroup(a: multiset<int>, b: multiset<int>, x: multiset<int>, y: multiset<int>,
                c: multiset<int>, d: multiset<int>, p: multiset<int>, q: multiset<int>)
    requires p + q == a + b
    ensures (p + y + d) + (q + x + c) == (a + x + c) + (b + y + d)
    ensures (p + x + c) + (q + y + d) == (a + x + c) + (b + y + d)
  {
    forall n: int ensures ((p + y + d) + (q + x + c))[n] == ((a + x + c) + (b + y + d))[n] &&
      ((p + x + c) + (q + y + d))[n] == ((a + x + c) + (b + y + d))[n]
    {
      assert (p + q)[n] == (a + b)[n];
    }
  }

  /** Every sequence that a perfect tree can hold is a value with two such halves around it. */
  lemma SplitAround(x: seq<int>, g: bool) returns (near: seq<int>, far: seq<int>)
    requires |x| % 2 == 1
    ensures |near| == |far| == |x| / 2 && x == Around(near, x[|x| / 2], far, g)
  {
    var m := |x| / 2;
    near, far := if g then x[..m] else x[m + 1..], if g then x[m + 1..] else x[..m];
    assert x == x[..m] + [x[m]] + x[m + 1..];
  }

  /** The descent loses and duplicates nothing, whatever the values. */
  lemma {:induction false} DescendSeqPermutes(x: seq<int>, y: seq<int>, h: nat, fromRight: bool, dir: bool)
    requires |x| == |y| == Pow2(h) - 1
    ensures var d := DescendSeq(x, y, fromRight, dir); multiset(d.0) + multiset(d.1) == multiset(x) + multiset(y)
    decreases h
  {
    if h > 0 {
      var m := |x| / 2;
      var lv, rv := x[m], y[m];
      var g := fromRight == Exchanges(lv, rv, dir);
      var a, c := SplitAround(x, g);
      var b, d := SplitAround(y, g);
      hide DescendSeq, Exchanges;
      DescendSeqPermutes(a, b, h - 1, fromRight, dir);
      DescendSeqStep(lv, rv, a, b, c, d, fromRight, dir);
      var w := DescendSeq(a, b, fromRight, dir);
      Regroup(multiset(a), multiset(b), multiset{lv}, multiset{rv}, multiset(c), multiset(d), multiset(w.0), multiset(w.1));
    }
  }

  /** The side the path leaves is all to be exchanged, or not at all. */
  lemma StepCleans(lv: int, rv: int, a: seq<int>, b: seq<int>, c: seq<int>, d: seq<int>, w: (seq<int>, seq<int>), fromRight: bool, dir: bool)
    requires |a| == |b| == |c| == |d| && w == (CleanLo(a, b, dir), CleanHi(a, b, dir))
    requires var g := fromRight == Exchanges(lv, rv, dir); OneSided(Around(a, lv, c, g), Around(b, rv, d, g), dir, fromRight)
    ensures var ex := Exchanges(lv, rv, dir); var g := fromRight == ex;
      (CleanLo(Around(a, lv, c, g), Around(b, rv, d, g), dir), CleanHi(Around(a, lv, c, g), Around(b, rv, d, g), dir))
      == if ex then (Around(w.0, rv, d, g), Around(w.1, lv, c, g)) else (Around(w.0, lv, c, g), Around(w.1, rv, d, g))
  {
    hide Exchanges, OneSided;
    if fromRight == Exchanges(lv, rv, dir) {
      OneSidedParts(a, lv, c, b, rv, d, dir, fromRight);
      CleanUniform(c, d, dir, fromRight);
      CleanConcat(a, lv, c, b, rv, d, dir);
    } else {
      OneSidedParts(c, lv, a, d, rv, b, dir, fromRight);
      CleanUniform(c, d, dir, !fromRight);
      CleanConcat(c, lv, a, d, rv, b, dir);
    }
  }

  lemma OneSidedNear(lv: int, rv: int, a: seq<int>, b: seq<int>, c: seq<int>, d: seq<int>, g: bool, fromRight: bool, dir: bool)
    requires |a| == |b| == |c| == |d| && OneSided(Around(a, lv, c, g), Around(b, rv, d, g), dir, fromRight)
    ensures OneSided(a, b, dir, fromRight)
  {
    hide Exchanges, OneSided;
    if g {
      OneSidedParts(a, lv, c, b, rv, d, dir, fromRight);
    } else {
      OneSidedParts(c, lv, a, d, rv, b, dir, fromRight);
    }
  }

  /** The logarithmic descent performs the whole half-cleaner when the exchanges lie on one side. */
  lemma {:induction false} DescendSeqCleans(x: seq<int>, y: seq<int>, h: nat, fromRight: bool, dir: bool)
    requires |x| == |y| == Pow2(h) - 1 && OneSided(x, y, dir, fromRight)
    ensures DescendSeq(x, y, fromRight, dir) == (CleanLo(x, y, dir), CleanHi(x, y, dir))
    decreases h
  {
    hide *;
    if h == 0 {
      NoValues(x, y, fromRight, dir);
    } else {
      HalfSize(x, h);
      var m := |x| / 2;
      var lv, rv := x[m], y[m];
      var g := fromRight == Exchanges(lv, rv, dir);
      var a, c := SplitAround(x, g);
      var b, d := SplitAround(y, g);
      OneSidedNear(lv, rv, a, b, c, d, g, fromRight, dir);
      DescendSeqCleans(a, b, h - 1, fromRight, dir);
      DescendSeqStep(lv, rv, a, b, c, d, fromRight, dir);
      StepCleans(lv, rv, a, b, c, d, DescendSeq(a, b, fromRight, dir), fromRight, dir);
    }
  }

  /** The path goes right from a first pair that is tied, and all other pairs are to be exchanged, or none. */
  lemma DescendSeqTied(x: seq<int>, y: seq<int>, h: nat, dir: bool)
    requires |x| == |y| == Pow2(h) - 1 && TiedFirst(x, y)
    ensures DescendSeq(x, y, dir, dir) == (CleanLo(x, y, dir), CleanHi(x, y, dir))
  {
    hide *;
    var lv, rv, a, b, c, d := TiedSplit(x, y, h, dir);
    DescendSeqCleans(a, b, h - 1, dir, dir);
    DescendSeqStep(lv, rv, a, b, c, d, dir, dir);
    CleanAround(a, lv, c, b, rv, d, dir, false);
  }

  /** The first comparison: near is right of it, far holds the tie. */
  lemma TiedSplit(x: seq<int>, y: seq<int>, h: nat, dir: bool) returns (lv: int, rv: int, a: seq<int>, b: seq<int>, c: seq<int>, d: seq<int>)
    requires |x| == |y| == Pow2(h) - 1 && TiedFirst(x, y)
    ensures h > 0 && |a| == |b| == |c| == |d| == Pow2(h - 1) - 1 && x == Around(a, lv, c, false) && y == Around(b, rv, d, false)
    ensures OneSided(a, b, dir, dir) && Exchanges(lv, rv, dir) == !dir
    ensures CleanLo(c, d, dir) == (if dir then c else d) && CleanHi(c, d, dir) == (if dir then d else c)
  {
    var m := |x| / 2;
    assert h > 0 && |x| == 2 * m + 1 && m >= 1;
    hide Pow2;
    lv, rv, a, b, c, d := x[m], y[m], x[m + 1..], y[m + 1..], x[..m], y[..m];
    assert x == x[..m] + [x[m]] + x[m + 1..] && y == y[..m] + [y[m]] + y[m + 1..];
    AllAbove(a, b, dir);
    CleanUniform(c, d, dir, !dir);
  }

  lemma AllAbove(x: seq<int>, y: seq<int>, dir: bool)
    requires |x| == |y| && forall i :: 0 <= i < |x| ==> x[i] > y[i]
    ensures OneSided(x, y, dir, dir)
  {
  }

  /** The converse of StepCleans, for opposite values that differ. */
  lemma StepCleansOnly(lv: int, rv: int, a: seq<int>, b: seq<int>, c: seq<int>, d: seq<int>, fromRight: bool, dir: bool)
    requires |a| == |b| == |c| == |d| && lv != rv && (forall i :: 0 <= i < |c| ==> c[i] != d[i]) && OneSided(a, b, dir, fromRight)
    requires CleanLo(c, d, dir) == if Exchanges(lv, rv, dir) then d else c
    ensures var g := fromRight == Exchanges(lv, rv, dir); OneSided(Around(a, lv, c, g), Around(b, rv, d, g), dir, fromRight)
  {
    var ex := Exchanges(lv, rv, dir);
    forall i | 0 <= i < |c| ensures Exchanges(c[i], d[i], dir) == ex {
      assert CleanLo(c, d, dir)[i] == if ex then d[i] else c[i];
    }
    hide Exchanges;
    if fromRight == ex {
      OneSidedWhole(a, lv, c, b, rv, d, dir, fromRight);
    } else {
      OneSidedWhole(c, lv, a, d, rv, b, dir, fromRight);
    }
  }

  lemma OneSidedWhole(x1: seq<int>, u: int, x2: seq<int>, y1: seq<int>, v: int, y2: seq<int>, dir: bool, fromRight: bool)
    requires |x1| == |y1| && |x2| == |y2| && OneSided(x1, y1, dir, fromRight) && OneSided(x2, y2, dir, fromRight)
    requires if fromRight == Exchanges(u, v, dir) then forall i :: 0 <= i < |x2| ==> Exchanges(x2[i], y2[i], dir) == fromRight
             else forall i :: 0 <= i < |x1| ==> Exchanges(x1[i], y1[i], dir) != fromRight
    ensures OneSided(x1 + [u] + x2, y1 + [v] + y2, dir, fromRight)
  {
    var x, y, n := x1 + [u] + x2, y1 + [v] + y2, |x1|;
    hide Exchanges;
    assert forall i :: 0 <= i < n ==> x[i] == x1[i] && y[i] == y1[i];
    assert forall i :: n < i < |x| ==> x[i] == x2[i - n - 1] && y[i] == y2[i - n - 1];
  }

  lemma AroundParts(a: seq<int>, u: int, c: seq<int>, a': seq<int>, u': int, c': seq<int>, g: bool)
    requires |a| == |a'| && |c| == |c'| && Around(a, u, c, g) == Around(a', u', c', g)
    ensures a == a' && u == u' && c == c'
  {
    var s, s' := Around(a, u, c, g), Around(a', u', c', g);
    if g {
      assert a == s[..|a|] && c == s[|a| + 1..] && u == s[|a|];
      assert a' == s'[..|a|] && c' == s'[|a| + 1..] && u' == s'[|a|];
    } else {
      assert c == s[..|c|] && a == s[|c| + 1..] && u == s[|c|];
      assert c' == s'[..|c|] && a' == s'[|c| + 1..] && u' == s'[|c|];
    }
  }

  /** Where opposite values differ, the descent performs the half-cleaner exactly when the exchanges lie on one side. */
  lemma {:induction false} DescendSeqExact(x: seq<int>, y: seq<int>, h: nat, fromRight: bool, dir: bool)
    requires |x| == |y| == Pow2(h) - 1 && forall i :: 0 <= i < |x| ==> x[i] != y[i]
    ensures DescendSeq(x, y, fromRight, dir) == (CleanLo(x, y, dir), CleanHi(x, y, dir)) <==> OneSided(x, y, dir, fromRight)
    decreases h
  {
    hide *;
    if OneSided(x, y, dir, fromRight) {
      DescendSeqCleans(x, y, h, fromRight, dir);
    } else if h == 0 {
      NoValues(x, y, fromRight, dir);
    } else if DescendSeq(x, y, fromRight, dir) == (CleanLo(x, y, dir), CleanHi(x, y, dir)) {
      HalfSize(x, h);
      var m := |x| / 2;
      var lv, rv := x[m], y[m];
      var g := fromRight == Exchanges(lv, rv, dir);
      var a, c := SplitAround(x, g);
      var b, d := SplitAround(y, g);
      NearAndFar(lv, rv, a, b, c, d, g);
      DescendSeqStep(lv, rv, a, b, c, d, fromRight, dir);
      CleanAround(a, lv, c, b, rv, d, dir, g);
      PartsClean(lv, rv, a, b, c, d, DescendSeq(a, b, fromRight, dir), g, dir);
      DescendSeqExact(a, b, h - 1, fromRight, dir);
      StepCleansOnly(lv, rv, a, b, c, d, fromRight, dir);
    }
  }

  lemma HalfSize(x: seq<int>, h: nat)
    requires h > 0 && |x| == Pow2(h) - 1
    ensures |x| % 2 == 1 && |x| / 2 == Pow2(h - 1) - 1
  {
  }

  lemma NoValues(x: seq<int>, y: seq<int>, fromRight: bool, dir: bool)
    requires |x| == |y| == Pow2(0) - 1
    ensures OneSided(x, y, dir, fromRight) && DescendSeq(x, y, fromRight, dir) == (CleanLo(x, y, dir), CleanHi(x, y, dir))
  {
  }

  lemma NearAndFar(lv: int, rv: int, a: seq<int>, b: seq<int>, c: seq<int>, d: seq<int>, g: bool)
    requires |a| == |b| == |c| == |d| && forall i :: 0 <= i < |Around(a, lv, c, g)| ==> Around(a, lv, c, g)[i] != Around(b, rv, d, g)[i]
    ensures lv != rv && (forall i :: 0 <= i < |a| ==> a[i] != b[i]) && forall i :: 0 <= i < |c| ==> c[i] != d[i]
  {
    var x, y, n := Around(a, lv, c, g), Around(b, rv, d, g), |a|;
    assert x[n] == lv && y[n] == rv;
    forall i | 0 <= i < n ensures a[i] != b[i] && c[i] != d[i] {
      assert x[i] == if g then a[i] else c[i];
      assert y[i] == if g then b[i] else d[i];
      assert x[n + 1 + i] == if g then c[i] else a[i];
      assert y[n + 1 + i] == if g then d[i] else b[i];
    }
  }

  lemma CleanAround(a: seq<int>, u: int, c: seq<int>, b: seq<int>, v: int, d: seq<int>, dir: bool, g: bool)
    requires |a| == |b| == |c| == |d|
    ensures var ex := Exchanges(u, v, dir); var x, y := Around(a, u, c, g), Around(b, v, d, g);
      && CleanLo(x, y, dir) == Around(CleanLo(a, b, dir), if ex then v else u, CleanLo(c, d, dir), g)
      && CleanHi(x, y, dir) == Around(CleanHi(a, b, dir), if ex then u else v, CleanHi(c, d, dir), g)
  {
    hide CleanLo, CleanHi;
    if g {
      CleanConcat(a, u, c, b, v, d, dir);
    } else {
      CleanConcat(c, u, a, d, v, b, dir);
    }
  }

  /** If a step cleans the whole, it cleans what is below, and it leaves the rest right. */
  lemma PartsClean(lv: int, rv: int, a: seq<int>, b: seq<int>, c: seq<int>, d: seq<int>, w: (seq<int>, seq<int>), g: bool, dir: bool)
    requires |a| == |b| == |c| == |d| == |w.0| == |w.1|
    requires var ex := Exchanges(lv, rv, dir);
      && Around(CleanLo(a, b, dir), if ex then rv else lv, CleanLo(c, d, dir), g) == (if ex then Around(w.0, rv, d, g) else Around(w.0, lv, c, g))
      && Around(CleanHi(a, b, dir), if ex then lv else rv, CleanHi(c, d, dir), g) == (if ex then Around(w.1, lv, c, g) else Around(w.1, rv, d, g))
    ensures w == (CleanLo(a, b, dir), CleanHi(a, b, dir)) && CleanLo(c, d, dir) == if Exchanges(lv, rv, dir) then d else c
  {
    hide CleanLo, CleanHi, Around;
    var ex := Exchanges(lv, rv, dir);
    AroundParts(CleanLo(a, b, dir), if ex then rv else lv, CleanLo(c, d, dir), w.0, if ex then rv else lv, if ex then d else c, g);
    AroundParts(CleanHi(a, b, dir), if ex then lv else rv, CleanHi(c, d, dir), w.1, if ex then lv else rv, if ex then c else d, g);
  }

  /** Bimerge on the in-order values followed by the spare. */
  function MergeSeq(s: seq<int>, h: nat, dir: bool): (r: seq<int>)
    requires |s| == Pow2(h)
    ensures |r| == |s|
    decreases h
  {
    if h == 0 then s else
    var m := Pow2(h - 1);
    var u, spr := s[m - 1], s[2 * m - 1];
    var ex := Exchanges(u, spr, dir);
    var d := DescendSeq(s[..m - 1], s[m..2 * m - 1], ex, dir);
    MergeSeq(d.0 + [if ex then spr else u], h - 1, dir) + MergeSeq(d.1 + [if ex then u else spr], h - 1, dir)
  }

  /** Bisort on the in-order values followed by the spare. */
  function SortSeq(s: seq<int>, h: nat, dir: bool): (r: seq<int>)
    requires |s| == Pow2(h)
    ensures |r| == |s|
    decreases h
  {
    if h == 0 then s else
    var m := Pow2(h - 1);
    MergeSeq(SortSeq(s[..m], h - 1, dir) + SortSeq(s[m..], h - 1, !dir), h, dir)
  }

  // ------------------------------------------------------------- it sorts

  /** What the merge achieves on bitonic input. */
  ghost predicate Merges(before: seq<int>, after: seq<int>, dir: bool) {
    multiset(after) == multiset(before) && (Bitonic(before) && FewTies(before) ==> Sorted(after, dir))
  }

  lemma FewTiesParts(a: seq<int>, b: seq<int>, s: seq<int>)
    requires multiset(a) + multiset(b) == multiset(s) && FewTies(s)
    ensures FewTies(a) && FewTies(b)
  {
    forall v: int ensures multiset(a)[v] <= 4 && multiset(b)[v] <= 4 {
      assert (multiset(a) + multiset(b))[v] == multiset(s)[v];
    }
  }

  lemma MergesMultiset(x: seq<int>, u: int, y: seq<int>, v: int, lo: seq<int>, hi: seq<int>, lo': seq<int>, hi': seq<int>, ex: bool)
    requires multiset(lo) + multiset(hi) == multiset(x) + multiset(y)
    requires multiset(lo') == multiset(lo + [if ex then v else u]) && multiset(hi') == multiset(hi + [if ex then u else v])
    ensures multiset(lo' + hi') == multiset(x + [u] + y + [v])
  {
    var p, q := if ex then v else u, if ex then u else v;
    assert multiset(lo + [p]) == multiset(lo) + multiset{p} && multiset(hi + [q]) == multiset(hi) + multiset{q};
    assert multiset(x + [u] + y + [v]) == multiset(x) + multiset{u} + multiset(y) + multiset{v};
    SumOrder(multiset(lo), multiset{p}, multiset(hi), multiset{q}, multiset(x), multiset{u}, multiset(y), multiset{v});
  }

  lemma SumOrder(a: multiset<int>, b: multiset<int>, c: multiset<int>, d: multiset<int>, x: multiset<int>, u: multiset<int>, y: multiset<int>, v: multiset<int>)
    requires a + c == x + y && b + d == u + v
    ensures (a + b) + (c + d) == x + u + y + v
  {
    forall n: int ensures ((a + b) + (c + d))[n] == (x + u + y + v)[n] {
      assert (a + c)[n] == (x + y)[n] && (b + d)[n] == (u + v)[n];
    }
  }

  /** Merging both results of the half-cleaner merges the whole. */
  lemma MergesWhole(x: seq<int>, u: int, y: seq<int>, spr: int, lo: seq<int>, hi: seq<int>, lo': seq<int>, hi': seq<int>, dir: bool)
    requires |x| == |y| != 2
    requires var ex := Exchanges(u, spr, dir);
      && multiset(lo) + multiset(hi) == multiset(x) + multiset(y)
      && (OneSided(x, y, dir, ex) || (TiedFirst(x, y) && ex == dir) ==> lo == CleanLo(x, y, dir) && hi == CleanHi(x, y, dir))
      && Merges(lo + [if ex then spr else u], lo', dir) && Merges(hi + [if ex then u else spr], hi', dir)
    ensures Merges(x + [u] + y + [spr], lo' + hi', dir)
  {
    hide OneSided, TiedFirst, Exchanges, Bitonic, FewTies, CleanLo, CleanHi, Sorted, Before;
    MergesMultiset(x, u, y, spr, lo, hi, lo', hi', Exchanges(u, spr, dir));
    if Bitonic(x + [u] + y + [spr]) && FewTies(x + [u] + y + [spr]) {
      MergeLevel(x, u, y, spr, dir);
      var ex := Exchanges(u, spr, dir);
      FewTiesParts(lo + [if ex then spr else u], hi + [if ex then u else spr], x + [u] + y + [spr]);
      JoinSorted(lo + [if ex then spr else u], hi + [if ex then u else spr], lo', hi', dir);
    }
  }

  /** One level of the merge, from the parts of its input. */
  lemma MergeSeqUnfold(x: seq<int>, u: int, y: seq<int>, spr: int, h: nat, dir: bool)
    requires h > 0 && |x| == |y| == Pow2(h - 1) - 1
    ensures var ex := Exchanges(u, spr, dir); var d := DescendSeq(x, y, ex, dir);
      MergeSeq(x + [u] + y + [spr], h, dir)
      == MergeSeq(d.0 + [if ex then spr else u], h - 1, dir) + MergeSeq(d.1 + [if ex then u else spr], h - 1, dir)
  {
    hide DescendSeq, Exchanges;
    var s, m := x + [u] + y + [spr], Pow2(h - 1);
    assert |s| == 2 * m == Pow2(h);
    hide Pow2;
    assert s[m - 1] == u && s[2 * m - 1] == spr;
    assert s[..m - 1] == x && s[m..2 * m - 1] == y;
  }

  /** The input of a merge: left values, root, right values, spare. */
  lemma MergeInput(s: seq<int>, h: nat) returns (x: seq<int>, u: int, y: seq<int>, spr: int)
    requires h > 0 && |s| == Pow2(h)
    ensures |x| == |y| == Pow2(h - 1) - 1 && s == x + [u] + y + [spr]
  {
    var m := Pow2(h - 1);
    x, u, y, spr := s[..m - 1], s[m - 1], s[m..2 * m - 1], s[2 * m - 1];
  }

  lemma OneValue(s: seq<int>, dir: bool)
    requires |s| == Pow2(0)
    ensures Merges(s, MergeSeq(s, 0, dir), dir) && Sorts(s, SortSeq(s, 0, dir), dir)
  {
  }

  lemma NotTwo(h: nat)
    ensures Pow2(h) - 1 != 2
  {
  }

  lemma MergeSeqLevel(s: seq<int>, h: nat, dir: bool, x: seq<int>, u: int, y: seq<int>, spr: int, d: (seq<int>, seq<int>), lo': seq<int>, hi': seq<int>)
    requires h > 0 && |x| == |y| == Pow2(h - 1) - 1 && s == x + [u] + y + [spr]
    requires d == DescendSeq(x, y, Exchanges(u, spr, dir), dir)
    requires Merges(d.0 + [if Exchanges(u, spr, dir) then spr else u], lo', dir)
    requires Merges(d.1 + [if Exchanges(u, spr, dir) then u else spr], hi', dir)
    ensures Merges(s, lo' + hi', dir)
  {
    hide *;
    var ex := Exchanges(u, spr, dir);
    DescendSeqPermutes(x, y, h - 1, ex, dir);
    NotTwo(h - 1);
    if OneSided(x, y, dir, ex) {
      DescendSeqCleans(x, y, h - 1, ex, dir);
    } else if TiedFirst(x, y) && ex == dir {
      DescendSeqTied(x, y, h - 1, dir);
    }
    MergesWhole(x, u, y, spr, d.0, d.1, lo', hi', dir);
  }

  /** The merge keeps the values, and sorts them when they are bitonic and none occurs more than four times. */
  lemma {:induction false} MergeSeqMerges(s: seq<int>, h: nat, dir: bool)
    requires |s| == Pow2(h)
    ensures Merges(s, MergeSeq(s, h, dir), dir)
    decreases h
  {
    hide *;
    if h > 0 {
      var x, u, y, spr := MergeInput(s, h);
      var ex := Exchanges(u, spr, dir);
      var d := DescendSeq(x, y, ex, dir);
      var lo, hi := d.0 + [if ex then spr else u], d.1 + [if ex then u else spr];
      MergeSeqMerges(lo, h - 1, dir);
      MergeSeqMerges(hi, h - 1, dir);
      MergeSeqUnfold(x, u, y, spr, h, dir);
      MergeSeqLevel(s, h, dir, x, u, y, spr, d, MergeSeq(lo, h - 1, dir), MergeSeq(hi, h - 1, dir));
    } else {
      OneValue(s, dir);
    }
  }

  /** A sort of before into after. */
  ghost predicate Sorts(before: seq<int>, after: seq<int>, dir: bool) {
    multiset(after) == multiset(before) && (FewTies(before) ==> Sorted(after, dir))
  }

  /** Sorting the halves in opposite directions and merging sorts the whole. */
  lemma SortsWhole(x: seq<int>, y: seq<int>, x': seq<int>, y': seq<int>, r: seq<int>, dir: bool)
    requires Sorts(x, x', dir) && Sorts(y, y', !dir) && Merges(x' + y', r, dir)
    ensures Sorts(x + y, r, dir)
  {
    hide Sorted, Bitonic, FewTies;
    assert multiset(x' + y') == multiset(x') + multiset(y') == multiset(x) + multiset(y) == multiset(x + y);
    if FewTies(x + y) {
      FewTiesParts(x, y, x + y);
      UpDownBitonic(x', y', dir);
      SameTies(x + y, x' + y');
    }
  }

  lemma SameTies(s: seq<int>, t: seq<int>)
    requires FewTies(s) && multiset(t) == multiset(s)
    ensures FewTies(t)
  {
  }

  lemma Halves(s: seq<int>, h: nat) returns (x: seq<int>, y: seq<int>)
    requires h > 0 && |s| == Pow2(h)
    ensures |x| == |y| == Pow2(h - 1) && s == x + y && |x| + |y| == Pow2(h)
  {
    x, y := s[..Pow2(h - 1)], s[Pow2(h - 1)..];
  }

  lemma SortSeqLevel(s: seq<int>, h: nat, dir: bool, x: seq<int>, y: seq<int>, x': seq<int>, y': seq<int>)
    requires h > 0 && |x| == |y| == Pow2(h - 1) && s == x + y && |s| == Pow2(h)
    requires x' == SortSeq(x, h - 1, dir) && y' == SortSeq(y, h - 1, !dir) && |x' + y'| == Pow2(h)
    requires Sorts(x, x', dir) && Sorts(y, y', !dir)
    ensures Sorts(s, SortSeq(s, h, dir), dir)
  {
    assert SortSeq(s, h, dir) == MergeSeq(x' + y', h, dir) by {
      hide MergeSeq, Merges, Sorts;
      assert s[..|x|] == x && s[|x|..] == y;
    }
    hide *;
    MergeSeqMerges(x' + y', h, dir);
    SortsWhole(x, y, x', y', MergeSeq(x' + y', h, dir), dir);
  }

  /** Bisort permutes every input, and sorts every input in which no value occurs more than four times. */
  lemma {:induction false} SortSeqSorts(s: seq<int>, h: nat, dir: bool)
    requires |s| == Pow2(h)
    ensures Sorts(s, SortSeq(s, h, dir), dir)
    decreases h
  {
    hide *;
    if h > 0 {
      var x, y := Halves(s, h);
      var x', y' := SortSeq(x, h - 1, dir), SortSeq(y, h - 1, !dir);
      SortSeqSorts(x, h - 1, dir);
      SortSeqSorts(y, h - 1, !dir);
      SortSeqLevel(s, h, dir, x, y, x', y');
    } else {
      OneValue(s, dir);
    }
  }

  /** Compare and exchange. */
  function Low(a: int, b: int, dir: bool): int {
    if Exchanges(a, b, dir) then b else a
  }

  function High(a: int, b: int, dir: bool): int {
    if Exchanges(a, b, dir) then a else b
  }

  lemma MergeTwo(a: int, b: int, dir: bool)
    ensures MergeSeq([a, b], 1, dir) == [Low(a, b, dir), High(a, b, dir)]
  {
    assert [a, b] == [] + [a] + [] + [b];
    MergeSeqUnfold([], a, [], b, 1, dir);
    assert DescendSeq([], [], Exchanges(a, b, dir), dir) == ([], []);
  }

  lemma SortUnfold(x: seq<int>, y: seq<int>, h: nat, dir: bool)
    requires |x| == |y| == Pow2(h)
    ensures SortSeq(x + y, h + 1, dir) == MergeSeq(SortSeq(x, h, dir) + SortSeq(y, h, !dir), h + 1, dir)
  {
    hide MergeSeq;
    assert (x + y)[..|x|] == x && (x + y)[|x|..] == y;
  }

  lemma SortTwo(a: int, b: int, dir: bool)
    ensures SortSeq([a, b], 1, dir) == [Low(a, b, dir), High(a, b, dir)]
  {
    SortUnfold([a], [b], 0, dir);
    assert [a] + [b] == [a, b];
    MergeTwo(a, b, dir);
  }
}
