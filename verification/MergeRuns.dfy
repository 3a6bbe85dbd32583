/**
  Bottom-up merging of runs, as the sort macros of LectureCode/Review/utlist.h do it, on the
  sequence of list elements: each pass turns sorted runs of length n into runs of length 2 * n.
*/
module MergeRuns {
  class Elem {
    const data: int
    var next: Elem?
    var prev: Elem?

    constructor (data: int)
      ensures this.data == data && next == null && prev == null
    {
      this.data, next, prev := data, null, null;
    }
  }

  type Compare = (int, int) -> int

  ghost predicate TotalPreorder(cmp: Compare) {
    && (forall a, b :: cmp(a, b) <= 0 || cmp(b, a) <= 0)
    && (forall a, b, c :: cmp(a, b) <= 0 && cmp(b, c) <= 0 ==> cmp(a, c) <= 0)
  }

  /** The place of x in the list that is being sorted. */
  function Place(l0: seq<Elem>, x: Elem): nat {
    if l0 == [] || l0[0] == x then 0 else 1 + Place(l0[1..], x)
  }

  /** x belongs before y: it is smaller, or equal and was before y already. */
  ghost predicate Before(cmp: Compare, l0: seq<Elem>, x: Elem, y: Elem) {
    cmp(x.data, y.data) <= 0 && (cmp(y.data, x.data) <= 0 ==> Place(l0, x) < Place(l0, y))
  }

  ghost predicate Ordered(cmp: Compare, l0: seq<Elem>, s: seq<Elem>) {
    forall i, j :: 0 <= i < j < |s| ==> Before(cmp, l0, s[i], s[j])
  }

  /** All of a was before all of b. */
  ghost predicate Earlier(l0: seq<Elem>, a: seq<Elem>, b: seq<Elem>) {
    forall x, y :: x in a && y in b ==> Place(l0, x) < Place(l0, y)
  }

  /** r is the stable sort of l0. */
  ghost predicate StableSort(cmp: Compare, l0: seq<Elem>, r: seq<Elem>) {
    multiset(r) == multiset(l0) && Ordered(cmp, l0, r)
  }

  function Merge(cmp: Compare, a: seq<Elem>, b: seq<Elem>): (r: seq<Elem>)
    ensures |r| == |a| + |b| && multiset(r) == multiset(a) + multiset(b)
  {
    if a == [] then b
    else if b == [] then a
    else if cmp(a[0].data, b[0].data) <= 0 then
      assert a == [a[0]] + a[1..];
      [a[0]] + Merge(cmp, a[1..], b)
    else
      assert b == [b[0]] + b[1..];
      [b[0]] + Merge(cmp, a, b[1..])
  }

  function Least(n: nat, m: nat): nat {
    if n < m then n else m
  }

  /** One pass of the outer loop. */
  function Pass(cmp: Compare, l: seq<Elem>, n: nat): (r: seq<Elem>)
    requires n > 0
    ensures |r| == |l| && multiset(r) == multiset(l)
    decreases |l|
  {
    if l == [] then [] else
    var m1, m2 := Least(n, |l|), Least(2 * n, |l|);
    assert l == l[..m1] + l[m1..m2] + l[m2..];
    Merge(cmp, l[..m1], l[m1..m2]) + Pass(cmp, l[m2..], n)
  }

  /** How many merges a pass over this many elements makes. */
  function Merges(len: nat, n: nat): nat
    requires n > 0
  {
    if len == 0 then 0 else 1 + Merges(len - Least(2 * n, len), n)
  }

  /** Runs of length n, the last one maybe shorter, each ordered, each of elements that came before the next ones. */
  ghost predicate Runs(cmp: Compare, l0: seq<Elem>, l: seq<Elem>, n: nat)
    requires n > 0
    decreases |l|
  {
    l != [] ==>
      var m := Least(n, |l|);
      Ordered(cmp, l0, l[..m]) && Earlier(l0, l[..m], l[m..]) && Runs(cmp, l0, l[m..], n)
  }

  lemma Members(a: seq<Elem>, b: seq<Elem>, r: seq<Elem>)
    requires multiset(r) == multiset(a) + multiset(b)
    ensures forall x :: x in r <==> x in a || x in b
  {
    forall x: Elem ensures x in r <==> x in a || x in b {
      assert x in r <==> x in multiset(r);
      assert x in a <==> x in multiset(a);
      assert x in b <==> x in multiset(b);
    }
  }

  lemma Member(a: seq<Elem>, b: seq<Elem>, r: seq<Elem>, x: Elem)
    requires multiset(r) == multiset(a) + multiset(b)
    ensures x in r <==> x in a || x in b
  {
    Members(a, b, r);
  }

  /** x before everything in s, put in front of it. */
  lemma OrderedCons(cmp: Compare, l0: seq<Elem>, x: Elem, s: seq<Elem>)
    requires Ordered(cmp, l0, s) && forall y :: y in s ==> Before(cmp, l0, x, y)
    ensures Ordered(cmp, l0, [x] + s)
  {
  }

  lemma OrderedRest(cmp: Compare, l0: seq<Elem>, s: seq<Elem>)
    requires Ordered(cmp, l0, s) && s != []
    ensures Ordered(cmp, l0, s[1..]) && forall y :: y in s[1..] ==> Before(cmp, l0, s[0], y)
  {
  }

  lemma BeforeAll(cmp: Compare, l0: seq<Elem>, x: Elem, z: Elem, y: Elem)
    requires TotalPreorder(cmp) && Before(cmp, l0, x, z) && (z == y || Before(cmp, l0, z, y))
    ensures Before(cmp, l0, x, y)
  {
  }

  lemma HeadOrRest(s: seq<Elem>, x: Elem)
    requires x in s
    ensures x == s[0] || x in s[1..]
  {
  }

  /** Merging an earlier run with a later one is stable. */
  lemma {:induction false} MergeOrdered(cmp: Compare, l0: seq<Elem>, a: seq<Elem>, b: seq<Elem>)
    requires TotalPreorder(cmp) && Ordered(cmp, l0, a) && Ordered(cmp, l0, b) && Earlier(l0, a, b)
    ensures Ordered(cmp, l0, Merge(cmp, a, b))
    decreases |a| + |b|
  {
    if a != [] && b != [] {
      OrderedRest(cmp, l0, a);
      OrderedRest(cmp, l0, b);
      var x, y := a[0], b[0];
      assert Place(l0, x) < Place(l0, y);
      if cmp(x.data, y.data) <= 0 {
        var r := Merge(cmp, a[1..], b);
        MergeOrdered(cmp, l0, a[1..], b);
        hide Ordered, TotalPreorder, Merge, Place;
        forall z | z in r ensures Before(cmp, l0, x, z) {
          Member(a[1..], b, r, z);
          if z !in a[1..] {
            HeadOrRest(b, z);
            BeforeAll(cmp, l0, x, y, z);
          }
        }
        OrderedCons(cmp, l0, x, r);
      } else {
        assert Before(cmp, l0, y, x);
        var r := Merge(cmp, a, b[1..]);
        MergeOrdered(cmp, l0, a, b[1..]);
        hide Ordered, TotalPreorder, Merge, Place;
        forall z | z in r ensures Before(cmp, l0, y, z) {
          Member(a, b[1..], r, z);
          if z !in b[1..] {
            HeadOrRest(a, z);
            BeforeAll(cmp, l0, y, x, z);
          }
        }
        OrderedCons(cmp, l0, y, r);
      }
    }
  }

  /** What the first two runs are. */
  lemma TwoRuns(cmp: Compare, l0: seq<Elem>, l: seq<Elem>, n: nat)
    requires n > 0 && l != [] && Runs(cmp, l0, l, n)
    ensures var m1, m2 := Least(n, |l|), Least(2 * n, |l|);
      && Ordered(cmp, l0, l[..m1]) && Ordered(cmp, l0, l[m1..m2]) && Earlier(l0, l[..m1], l[m1..m2])
      && Earlier(l0, l[..m1], l[m2..]) && Earlier(l0, l[m1..m2], l[m2..]) && Runs(cmp, l0, l[m2..], n)
  {
    var m1, m2 := Least(n, |l|), Least(2 * n, |l|);
    var t := l[m1..];
    if t != [] {
      var m := Least(n, |t|);
      assert t[..m] == l[m1..m2] && t[m..] == l[m2..];
    } else {
      assert m1 == m2 == |l|;
    }
    assert t == l[m1..m2] + l[m2..];
  }

  lemma EarlierMerged(cmp: Compare, l0: seq<Elem>, a: seq<Elem>, b: seq<Elem>, c: seq<Elem>, m: seq<Elem>, d: seq<Elem>)
    requires Earlier(l0, a, c) && Earlier(l0, b, c) && multiset(m) == multiset(a) + multiset(b) && multiset(d) == multiset(c)
    ensures Earlier(l0, m, d)
  {
    Members(a, b, m);
    Members(c, [], d);
  }

  lemma RunsOf(cmp: Compare, l0: seq<Elem>, a: seq<Elem>, b: seq<Elem>, n: nat)
    requires n > 0 && |a| == Least(n, |a| + |b|) && Ordered(cmp, l0, a) && Earlier(l0, a, b) && Runs(cmp, l0, b, n)
    ensures Runs(cmp, l0, a + b, n)
  {
    var l := a + b;
    if l != [] {
      assert l[..|a|] == a && l[|a|..] == b;
    }
  }

  /** A pass doubles the length of the runs. */
  lemma {:induction false} PassRuns(cmp: Compare, l0: seq<Elem>, l: seq<Elem>, n: nat)
    requires TotalPreorder(cmp) && n > 0 && Runs(cmp, l0, l, n)
    ensures Runs(cmp, l0, Pass(cmp, l, n), 2 * n)
    decreases |l|
  {
    if l != [] {
      var m1, m2 := Least(n, |l|), Least(2 * n, |l|);
      var a, b, c := l[..m1], l[m1..m2], l[m2..];
      TwoRuns(cmp, l0, l, n);
      MergeOrdered(cmp, l0, a, b);
      PassRuns(cmp, l0, c, n);
      var m, d := Merge(cmp, a, b), Pass(cmp, c, n);
      hide Ordered, TotalPreorder, Merge, Earlier;
      EarlierMerged(cmp, l0, a, b, c, m, d);
      RunsOf(cmp, l0, m, d, 2 * n);
    }
  }

  /** One run is all there is when a pass makes at most one merge. */
  lemma OneMerge(len: nat, n: nat)
    requires n > 0
    ensures Merges(len, n) <= 1 <==> len <= 2 * n
  {
  }

  lemma OneRun(cmp: Compare, l0: seq<Elem>, r: seq<Elem>, n: nat)
    requires n > 0 && |r| <= n && Runs(cmp, l0, r, n)
    ensures Ordered(cmp, l0, r)
  {
    if r != [] {
      assert r[..|r|] == r;
    }
  }

  lemma {:induction false} PlaceAt(l0: seq<Elem>, i: nat)
    requires i < |l0| && forall j, k :: 0 <= j < k < |l0| ==> l0[j] != l0[k]
    ensures Place(l0, l0[i]) == i
  {
    if i > 0 {
      PlaceAt(l0[1..], i - 1);
    }
  }

  /** Single elements are runs. */
  lemma {:induction false} SingleRuns(cmp: Compare, l0: seq<Elem>, k: nat)
    requires k <= |l0| && forall i, j :: 0 <= i < j < |l0| ==> l0[i] != l0[j]
    ensures Runs(cmp, l0, l0[k..], 1)
    decreases |l0| - k
  {
    if k < |l0| {
      SingleRuns(cmp, l0, k + 1);
      var l := l0[k..];
      assert l[1..] == l0[k + 1..] && l[..1] == [l0[k]];
      PlaceAt(l0, k);
      forall y | y in l[1..] ensures Place(l0, l0[k]) < Place(l0, y) {
        var i :| k + 1 <= i < |l0| && l0[i] == y;
        PlaceAt(l0, i);
      }
    }
  }

  lemma SplitFirst(r: seq<Elem>)
    requires r != []
    ensures r == [r[0]] + r[1..] && multiset(r[1..]) == multiset(r) - multiset{r[0]}
  {
    assert r == [r[0]] + r[1..];
  }

  lemma SameFirst(cmp: Compare, l0: seq<Elem>, r: seq<Elem>, r': seq<Elem>)
    requires r != [] && |r| == |r'| && multiset(r) == multiset(r') && Ordered(cmp, l0, r) && Ordered(cmp, l0, r')
    ensures r[0] == r'[0]
  {
    assert r[0] in multiset(r') && r'[0] in multiset(r);
    var i :| 0 <= i < |r'| && r'[i] == r[0];
    var j :| 0 <= j < |r| && r[j] == r'[0];
    assert i == 0 || j == 0 || (Before(cmp, l0, r'[0], r[0]) && Before(cmp, l0, r[0], r'[0]));
  }

  /** There is only one stable sort of a list. */
  lemma {:induction false} StableSortUnique(cmp: Compare, l0: seq<Elem>, r: seq<Elem>, r': seq<Elem>)
    requires multiset(r) == multiset(r') && Ordered(cmp, l0, r) && Ordered(cmp, l0, r')
    ensures r == r'
  {
    assert |r| == |multiset(r)| == |multiset(r')| == |r'|;
    if r != [] {
      SameFirst(cmp, l0, r, r');
      hide Before;
      assert Ordered(cmp, l0, r[1..]) && Ordered(cmp, l0, r'[1..]);
      hide Ordered;
      SplitFirst(r);
      SplitFirst(r');
      StableSortUnique(cmp, l0, r[1..], r'[1..]);
    }
  }
}
