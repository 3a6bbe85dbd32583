/**
  Dominance over execution paths, and what it says about how fresh a value is: between the
  last execution of j and a place that j dominates, nothing that dominates j runs again.
*/
module Dominance {
  import opened IR

  /** i is the last completed execution of d in hist. */
  predicate LastAt(hist: seq<Point>, d: Point, i: nat) {
    i < |hist| - 1 && hist[i] == d && forall j :: i < j < |hist| - 1 ==> hist[j] != d
  }

  lemma LastExists(hist: seq<Point>, d: Point) returns (i: nat)
    requires hist != [] && d in hist[..|hist| - 1]
    ensures LastAt(hist, d, i)
  {
    i := |hist| - 2;
    while hist[i] != d
      invariant i < |hist| - 1 && d in hist[..i + 1]
      invariant forall j :: i < j < |hist| - 1 ==> hist[j] != d
      decreases i
    {
      i := i - 1;
    }
  }

  lemma FirstExists(hist: seq<Point>, d: Point) returns (i: nat)
    requires d in hist
    ensures i < |hist| && hist[i] == d && d !in hist[..i]
  {
    i := 0;
    while hist[i] != d
      invariant i < |hist| && d in hist[i..] && d !in hist[..i]
      decreases |hist| - i
    {
      i := i + 1;
    }
  }

  lemma PathPrefix(code: Code, path: seq<Point>, n: nat)
    requires IsPath(code, path) && n < |path|
    ensures IsPath(code, path[..n + 1])
  {
    var pre := path[..n + 1];
    assert forall i {:trigger pre[i]} :: 0 <= i < |pre| - 1 ==> pre[i] == path[i] && pre[i + 1] == path[i + 1];
  }

  lemma PathStart(code: Code, path: seq<Point>)
    requires IsPath(code, path)
    ensures path != [] && path[0] == 0
  {
  }

  lemma PathEdge(code: Code, path: seq<Point>, i: nat)
    requires IsPath(code, path) && i < |path| - 1
    ensures Edge(code, path[i], path[i + 1])
  {
  }

  lemma IsPathOf(code: Code, s: seq<Point>)
    requires s != [] && s[0] == 0 && forall i {:trigger s[i]} :: 0 <= i < |s| - 1 ==> Edge(code, s[i], s[i + 1])
    ensures IsPath(code, s)
  {
  }

  lemma SplicedPath(code: Code, path: seq<Point>, e: nat, k: nat, s: seq<Point>)
    requires IsPath(code, path) && e <= k < |path| && path[e] == path[k] && |s| == e + |path| - k
    requires (forall i :: 0 <= i <= e ==> s[i] == path[i]) && forall i :: e < i < |s| ==> s[i] == path[k - e + i]
    ensures IsPath(code, s)
  {
    hide *;
    PathStart(code, path);
    forall i | 0 <= i < |s| - 1 ensures Edge(code, s[i], s[i + 1]) {
      if i < e {
        PathEdge(code, path, i);
      } else {
        PathEdge(code, path, k - e + i);
        assert s[i] == path[k - e + i];
      }
    }
    IsPathOf(code, s);
  }

  /** Leaving out the stretch between two visits of the same slot leaves a path. */
  lemma PathSplice(code: Code, path: seq<Point>, e: nat, k: nat)
    requires IsPath(code, path) && e <= k < |path| && path[e] == path[k]
    ensures IsPath(code, path[..e + 1] + path[k + 1..])
  {
    hide IsPath;
    SplicedPath(code, path, e, k, path[..e + 1] + path[k + 1..]);
  }

  lemma EarlierToo(code: Code, path: seq<Point>, i: nat, a: Point, b: Point)
    requires SDom(code, a, b) && i < |path| - 1 && path[i] == b && IsPath(code, path[..i + 1])
    ensures a in path[..|path| - 1]
  {
    hide IsPath;
    var q := path[..i + 1];
    assert a in q[..|q| - 1];
    var k :| 0 <= k < i && q[k] == a;
    assert path[..|path| - 1][k] == a;
  }

  lemma SDomTransitive(code: Code, a: Point, b: Point, c: Point)
    requires SDom(code, a, b) && SDom(code, b, c)
    ensures SDom(code, a, c)
  {
    forall path | IsPath(code, path) && path[|path| - 1] == c ensures a in path[..|path| - 1] {
      hide IsPath;
      var i := LastExists(path, b);
      PathPrefix(code, path, i);
      EarlierToo(code, path, i, a, b);
    }
  }

  lemma DominatorRan(code: Code, path: seq<Point>, d: Point) returns (i: nat)
    requires IsPath(code, path) && SDom(code, d, path[|path| - 1])
    ensures LastAt(path, d, i)
  {
    assert d in path[..|path| - 1];
    i := LastExists(path, d);
  }

  lemma SDomIrreflexive(code: Code, path: seq<Point>, p: Point)
    requires IsPath(code, path) && path[|path| - 1] == p
    ensures !SDom(code, p, p)
  {
    var f := FirstExists(path, p);
    PathPrefix(code, path, f);
    assert path[..f + 1][..f] == path[..f];
  }

  lemma StrictDominance(code: Code, a: Point, b: Point)
    requires SDom(code, a, b) && Reachable(code, b)
    ensures a != b
  {
    var path :| IsPath(code, path) && path[|path| - 1] == b;
    SDomIrreflexive(code, path, b);
  }

  /** Nothing that dominates j runs between j's last execution and a slot that j dominates. */
  lemma NoReexecution(code: Code, path: seq<Point>, x: Point, j: Point, i: nat)
    requires IsPath(code, path) && SDom(code, x, j) && SDom(code, j, path[|path| - 1])
    requires LastAt(path, j, i)
    ensures forall k :: i < k < |path| - 1 ==> path[k] != x
  {
    forall k | i < k < |path| - 1 ensures path[k] != x {
      if path[k] == x {
        var e := ExecutedBefore(code, path, x, j, i);
        PathSplice(code, path, e, k);
        SpliceAvoids(path, j, i, e, k);
      }
    }
  }

  lemma ExecutedBefore(code: Code, path: seq<Point>, x: Point, j: Point, i: nat) returns (e: nat)
    requires IsPath(code, path) && SDom(code, x, j) && i < |path| && path[i] == j
    ensures e < i && path[e] == x && j !in path[..e + 1]
  {
    var f := FirstExists(path, j);
    PathPrefix(code, path, f);
    assert path[..f + 1][..f] == path[..f];
    assert x in path[..f];
    e :| 0 <= e < f && path[e] == x;
    assert path[..e + 1] <= path[..f];
  }

  lemma SpliceAvoids(path: seq<Point>, j: Point, i: nat, e: nat, k: nat)
    requires LastAt(path, j, i) && e < i < k < |path| - 1 && j !in path[..e + 1]
    ensures var s := path[..e + 1] + path[k + 1..]; j !in s[..|s| - 1] && s[|s| - 1] == path[|path| - 1]
  {
    var s := path[..e + 1] + path[k + 1..];
    forall n | 0 <= n < |s| - 1 ensures s[n] != j {
      if n <= e {
        assert s[n] == path[..e + 1][n];
      } else {
        assert s[n] == path[k + n - e];
      }
    }
  }

  /** A block is entered only at its first slot, so reaching q means having run p..q. */
  lemma {:induction false} StraightLine(code: Code, path: seq<Point>, p: Point, q: Point)
    requires FlowOk(code) && IsPath(code, path) && path[|path| - 1] == q
    requires p <= q < |code| && forall k :: p <= k < q ==> !IsTerminator(code[k])
    ensures |path| >= q - p + 1
    ensures forall i :: |path| - 1 - (q - p) <= i < |path| ==> path[i] == q - (|path| - 1 - i)
    decreases q - p
  {
    if p < q {
      var n := |path| - 1;
      assert !IsLeader(code, q);
      assert Edge(code, path[n - 1], path[n - 1 + 1]);
      assert path[n - 1] == q - 1;
      PathPrefix(code, path, n - 1);
      StraightLine(code, path[..n], p, q - 1);
      forall i | n - (q - p) <= i < |path| ensures path[i] == q - (n - i) {
        if i < n {
          assert path[..n][i] == q - 1 - (n - 1 - i);
        }
      }
    }
  }

  lemma SameBlockDominates(code: Code, p: Point, q: Point)
    requires FlowOk(code) && p < q < |code|
    requires forall k :: p <= k < q ==> !IsTerminator(code[k])
    ensures SDom(code, p, q)
  {
    forall path | IsPath(code, path) && path[|path| - 1] == q ensures p in path[..|path| - 1] {
      StraightLine(code, path, p, q);
      assert path[..|path| - 1][|path| - 1 - (q - p)] == p;
    }
  }

  /** Execution follows the edges of the control-flow graph and never falls off the end. */
  lemma {:induction false} RunIsPath(w: World, code: Code, n: nat)
    requires FlowOk(code)
    ensures var st := Run(w, code, n); IsPath(code, st.hist) && st.Pc() < |code|
  {
    if n > 0 {
      RunIsPath(w, code, n - 1);
      StepFollowsEdge(w, code, Run(w, code, n - 1));
    }
  }

  lemma StepFollowsEdge(w: World, code: Code, st: State)
    requires FlowOk(code) && IsPath(code, st.hist) && st.Pc() < |code|
    ensures var st' := Step(w, code, st); IsPath(code, st'.hist) && st'.Pc() < |code|
    ensures var st' := Step(w, code, st); st'.hist == st.hist || st'.hist == st.hist + [st'.Pc()]
  {
    var st' := Step(w, code, st);
    var pc := st.Pc();
    assert pc == |code| - 1 ==> IsTerminator(code[pc]);
    if st'.hist != st.hist {
      var q := st'.Pc();
      assert Edge(code, pc, q) && q < |code|;
      var h := st.hist + [q];
      forall i {:trigger h[i]} | 0 <= i < |h| - 1 ensures Edge(code, h[i], h[i + 1]) {
        if i < |st.hist| - 1 {
          assert Edge(code, st.hist[i], st.hist[i + 1]);
        }
      }
    }
  }
}
