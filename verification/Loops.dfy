/**
  Natural loops with a preheader, as LLVM's LoopInfo reports them, and what holds on every
  path between the end of the preheader and a slot of the loop.
*/
module Loops {
  import opened IR
  import opened Dominance
  import opened Facts
  import opened Replace
  import opened AvailableValues

  /** The slots of the loop in visiting order, its first slot, and its preheader's terminator. */
  datatype Loop = Loop(body: seq<Point>, header: Point, pre: Point)

  ghost predicate LoopPath(code: Code, l: Loop, s: seq<Point>) {
    s != [] && s[0] == l.header && s[|s| - 1] in l.body &&
    (forall i {:trigger s[i]} :: 0 <= i < |s| - 1 ==> Edge(code, s[i], s[i + 1]) && s[i] in l.body)
  }

  ghost predicate InnerReachable(code: Code, l: Loop, x: Point) {
    exists s :: LoopPath(code, l, s) && s[|s| - 1] == x
  }

  ghost predicate WholeBlocks(code: Code, l: Loop) {
    forall p: Point :: p < |code| && !IsTerminator(code[p]) ==> (p in l.body <==> p + 1 in l.body)
  }

  ghost predicate LoopOk(code: Code, l: Loop) {
    && 0 !in l.body && l.header in l.body && l.pre !in l.body
    && (forall x :: x in l.body ==> x < |code|)
    && WholeBlocks(code, l)
    && l.pre < |code| && code[l.pre].Br? && code[l.pre].thn == l.header && code[l.pre].els == l.header
    && (forall p, q :: Edge(code, p, q) && q in l.body && p !in l.body ==> p == l.pre && q == l.header)
    && (forall x :: x in l.body ==> InnerReachable(code, l, x))
  }

  lemma PathLast(code: Code, path: seq<Point>)
    requires IsPath(code, path) && |path| > 1
    ensures Edge(code, path[|path| - 2], path[|path| - 1])
  {
    assert path[|path| - 2 + 1] == path[|path| - 1];
  }

  /** The loop is entered only from the preheader, and the preheader's end only from slot t. */
  lemma ComingFrom(code: Code, l: Loop, t: Point, path: seq<Point>)
    requires FlowOk(code) && LoopOk(code, l) && t + 1 == l.pre && !IsTerminator(code[t])
    requires IsPath(code, path)
    ensures path[|path| - 1] in l.body ==> |path| > 1 && (path[|path| - 2] in l.body || path[|path| - 2] == l.pre)
    ensures path[|path| - 1] == l.pre ==> |path| > 1 && path[|path| - 2] == t
  {
    hide WholeBlocks, InnerReachable;
    if |path| > 1 {
      PathLast(code, path);
      assert !IsLeader(code, l.pre);
    }
  }

  lemma {:induction false} SlotRan(code: Code, l: Loop, t: Point, path: seq<Point>)
    requires FlowOk(code) && LoopOk(code, l) && t + 1 == l.pre && !IsTerminator(code[t])
    requires IsPath(code, path) && path[|path| - 1] in l.body
    ensures t in path[..|path| - 1]
    decreases |path|
  {
    hide FlowOk, LoopOk, Edge;
    var n := |path| - 1;
    ComingFrom(code, l, t, path);
    PathPrefix(code, path, n - 1);
    if path[n - 1] in l.body {
      SlotRan(code, l, t, path[..n]);
      assert path[..n][..n - 1] <= path[..n];
    } else {
      ComingFrom(code, l, t, path[..n]);
      assert path[..n][n - 2] == t;
    }
  }

  lemma SlotDominatesLoop(code: Code, l: Loop, t: Point, x: Point)
    requires FlowOk(code) && LoopOk(code, l) && t + 1 == l.pre && !IsTerminator(code[t]) && x in l.body
    ensures SDom(code, t, x)
  {
    hide FlowOk, LoopOk;
    forall path | IsPath(code, path) && path[|path| - 1] == x ensures t in path[..|path| - 1] {
      SlotRan(code, l, t, path);
    }
  }

  /** From slot t's last execution to a slot of the loop, the loop is never left. */
  lemma {:induction false} StaysInLoop(code: Code, l: Loop, t: Point, path: seq<Point>, at: nat)
    requires FlowOk(code) && LoopOk(code, l) && t + 1 == l.pre && !IsTerminator(code[t])
    requires IsPath(code, path) && path[|path| - 1] in l.body && LastAt(path, t, at)
    ensures forall k :: at < k < |path| ==> path[k] in l.body || path[k] == l.pre
    decreases |path|
  {
    hide FlowOk, LoopOk, Edge;
    var n := |path| - 1;
    ComingFrom(code, l, t, path);
    PathPrefix(code, path, n - 1);
    var init := path[..n];
    if path[n - 1] in l.body {
      NotTheSlot(code, l, t);
      assert LastAt(init, t, at);
      StaysInLoop(code, l, t, init, at);
      assert forall k :: at < k < n ==> path[k] == init[k];
    } else {
      ComingFrom(code, l, t, init);
      assert path[n - 2] == t;
    }
  }

  lemma NotTheSlot(code: Code, l: Loop, t: Point)
    requires LoopOk(code, l) && FlowOk(code) && t + 1 == l.pre && !IsTerminator(code[t])
    ensures t !in l.body
  {
  }

  // ------------------------------------------------------------ hoisting

  /** Nothing in the loop can write the cell. */
  ghost predicate LoopQuiet(w: World, code: Code, l: Loop, cell: Operand) {
    forall p :: p in l.body && p < |code| ==> !MayWrite(w, code, code[p], cell)
  }

  /** Its operands come from outside the loop. */
  predicate InvariantOperands(code: Code, l: Loop, x: Inst) {
    forall o :: o in Operands(x) && o.Reg? ==> o.p !in l.body
  }

  lemma HoistedFact(w: World, code: Code, l: Loop, t: Point, x: Point, st: State)
    requires WellFormed(code) && LoopOk(code, l) && t + 1 == l.pre && !IsTerminator(code[t]) && x in l.body
    requires Sound(w, code, st) && st.Pc() == x
    requires code[t].Pure? || (code[t].Load? && LoopQuiet(w, code, l, code[t].addr))
    ensures Holds(w, code, t, st)
  {
    hide SDom, UsesOk, SitesOk, ReachOk, EnvOk, Edge, Holds, LoopOk, IsPath, Produces;
    SlotDominatesLoop(code, l, t, x);
    var at := DominatorRan(code, st.hist, t);
    OperandsFresh(code, st.hist, t, at);
    StaysInLoop(code, l, t, st.hist, at);
    PreBranches(code, l);
    assert Unkilled(w, code, st.hist, t, at);
  }

  lemma PreBranches(code: Code, l: Loop)
    requires LoopOk(code, l)
    ensures l.pre < |code| && code[l.pre].Br?
  {
  }

  /** In every iteration a hoisted copy still has the value its original would compute. */
  lemma HoistedEqual(w: World, code: Code, l: Loop, t: Point, x: Point)
    requires WellFormed(code) && LayoutOk(w) && LoopOk(code, l) && t + 1 == l.pre && x in l.body && x < |code|
    requires code[t] == code[x] && (code[t].Pure? || (code[t].Load? && LoopQuiet(w, code, l, code[t].addr)))
    ensures EqualAt(w, code, x, Reg(t)) && Available(code, x, Reg(t))
  {
    SlotDominatesLoop(code, l, t, x);
    NotTheSlot(code, l, t);
    forall n: nat | Run(w, code, n).Pc() == x && Run(w, code, n).status.Running?
      ensures ValueOf(w, Run(w, code, n), code[x]) == Eval(w, Run(w, code, n).env, Reg(t))
    {
      hide SDom, UsesOk, FlowOk, SitesOk, ReachOk, LayoutOk, EnvOk, FactsOk, IsPath, Run, LoopOk, LoopQuiet;
      RunSound(w, code, n);
      HoistedFact(w, code, l, t, x, Run(w, code, n));
    }
  }

  /** Filling a vacant slot with an instruction nobody uses yet. */
  lemma FillPreserves(w: World, code: Code, t: Point, x: Inst)
    requires WellFormed(code) && t < |code| && code[t].Erased? && (x.Pure? || (x.Load? && !x.vol))
    requires forall d :: Uses(x, d) ==> UseOk(code, t, d)
    ensures WellFormed(code[t := x]) && SameFlow(code, code[t := x]) && SameBehaviour(w, code, code[t := x])
  {
    hide SDom;
    var code' := code[t := x];
    FillWellFormed(code, t, x);
    assert NoUses(code', t) by {
      FilledUnused(code, t, x);
    }
    FilledBack(code, t, x);
    ReplacePreserves(w, code', t, Const(0));
  }

  lemma FilledBack(code: Code, t: Point, x: Inst)
    requires t < |code| && code[t].Erased? && NoUses(code[t := x], t)
    ensures ReplaceAndErase(code[t := x], t, Const(0)) == code
  {
    var code' := code[t := x];
    forall k | 0 <= k < |code'| ensures RewireInst(t, Const(0), code'[k]) == code'[k] {
      var y := code'[k];
      assert forall o :: o in Operands(y) ==> Rewire(t, Const(0), o) == o;
      if y.Pure? || y.Call? {
        assert RewireAll(t, Const(0), y.args) == y.args;
      }
    }
  }

  lemma FilledUnused(code: Code, t: Point, x: Inst)
    requires UsesOk(code) && ReachOk(code) && t < |code| && code[t].Erased?
    requires forall d :: Uses(x, d) ==> UseOk(code, t, d)
    ensures NoUses(code[t := x], t)
  {
    hide SDom, Reachable;
    var code' := code[t := x];
    forall p | 0 <= p < |code'| ensures !Uses(code'[p], t) {
      if p == t {
        assert Uses(x, t) ==> UseOk(code, t, t);
      } else {
        assert Uses(code[p], t) ==> UseOk(code, p, t);
      }
    }
  }

  lemma FillWellFormed(code: Code, t: Point, x: Inst)
    requires WellFormed(code) && t < |code| && code[t].Erased? && (x.Pure? || x.Load?)
    requires forall d :: Uses(x, d) ==> UseOk(code, t, d)
    ensures WellFormed(code[t := x]) && SameFlow(code, code[t := x])
  {
    hide SDom, Reachable;
    var code' := code[t := x];
    SameFlowPaths(code, code');
    SameFlowOk(code, code');
    forall p, d | 0 <= p < |code'| && Uses(code'[p], d) ensures UseOk(code', p, d) {
      assert UseOk(code, p, d);
    }
  }

  // ------------------------------------------------------------ invariant operands reach the preheader

  lemma JoinPaths(code: Code, l: Loop, path: seq<Point>, s: seq<Point>)
    requires LoopOk(code, l) && IsPath(code, path) && path[|path| - 1] == l.pre && LoopPath(code, l, s)
    ensures IsPath(code, path + s)
  {
    var r := path + s;
    forall i {:trigger r[i]} | 0 <= i < |r| - 1 ensures Edge(code, r[i], r[i + 1]) {
      if i < |path| - 1 {
        assert Edge(code, path[i], path[i + 1]);
      } else if i >= |path| {
        assert Edge(code, s[i - |path|], s[i - |path| + 1]);
      }
    }
  }

  /** What dominates a slot of the loop from outside the loop dominates the preheader's end. */
  lemma OutsideReachesPreheader(code: Code, l: Loop, d: Point, x: Point)
    requires LoopOk(code, l) && x in l.body && d !in l.body && d < |code| && Produces(code[d]) && SDom(code, d, x)
    ensures SDom(code, d, l.pre)
  {
    assert InnerReachable(code, l, x);
    var s :| LoopPath(code, l, s) && s[|s| - 1] == x;
    forall path | IsPath(code, path) && path[|path| - 1] == l.pre ensures d in path[..|path| - 1] {
      JoinPaths(code, l, path, s);
      InFirstPart(code, l, path, s, d);
    }
  }

  lemma PathInLoop(code: Code, l: Loop, s: seq<Point>)
    requires LoopPath(code, l, s)
    ensures s != [] && forall p :: p in s ==> p in l.body
  {
  }

  lemma NotLast(path: seq<Point>, d: Point)
    requires path != [] && d != path[|path| - 1]
    ensures d in path <==> d in path[..|path| - 1]
  {
    assert path == path[..|path| - 1] + [path[|path| - 1]];
  }

  lemma InFirstPart(code: Code, l: Loop, path: seq<Point>, s: seq<Point>, d: Point)
    requires IsPath(code, path) && path[|path| - 1] == l.pre && LoopPath(code, l, s) && d !in l.body && d != l.pre
    requires IsPath(code, path + s) && SDom(code, d, s[|s| - 1])
    ensures d in path[..|path| - 1]
  {
    hide IsPath, SDom;
    PathInLoop(code, l, s);
    DominatorInJoin(code, path, s, d);
    NotLast(path, d);
  }

  lemma DominatorInJoin(code: Code, path: seq<Point>, s: seq<Point>, d: Point)
    requires s != [] && IsPath(code, path + s) && SDom(code, d, s[|s| - 1])
    ensures d in path || d in s[..|s| - 1]
  {
    var r := path + s;
    assert r[|r| - 1] == s[|s| - 1];
    assert r[..|r| - 1] == path + s[..|s| - 1];
  }
}
