/**
  When an earlier value can stand in for a later instruction: the equalities that the
  elimination passes rely on, proved for every execution path of every control-flow graph.
*/
module AvailableValues {
  import opened IR
  import opened Dominance
  import opened Facts
  import opened Replace

  /** No operand of i is redefined between i's last execution and a slot that i dominates. */
  lemma OperandsFresh(code: Code, path: seq<Point>, i: Point, at: nat)
    requires UsesOk(code) && IsPath(code, path) && i < |code|
    requires LastAt(path, i, at) && SDom(code, i, path[|path| - 1])
    ensures forall k :: at < k < |path| - 1 ==> !Uses(code[i], path[k])
  {
    hide SDom, Edge;
    forall k | at < k < |path| - 1 ensures !Uses(code[i], path[k]) {
      if Uses(code[i], path[k]) {
        assert UseOk(code, i, path[k]);
        NoReexecution(code, path, path[k], i, at);
      }
    }
  }

  /** An instruction that dominates an identical pure one already holds its value. */
  lemma DominatingCopyEqual(w: World, code: Code, i: Point, j: Point)
    requires WellFormed(code) && LayoutOk(w)
    requires i < |code| && j < |code| && code[i].Pure? && code[j] == code[i] && SDom(code, i, j)
    ensures EqualAt(w, code, j, Reg(i))
  {
    forall n: nat | Run(w, code, n).Pc() == j && Run(w, code, n).status.Running?
      ensures ValueOf(w, Run(w, code, n), code[j]) == Eval(w, Run(w, code, n).env, Reg(i))
    {
      hide SDom, UsesOk, FlowOk, SitesOk, ReachOk, LayoutOk, EnvOk, FactsOk, IsPath, Run;
      RunSound(w, code, n);
      CopyHolds(w, code, Run(w, code, n), i);
    }
  }

  lemma CopyHolds(w: World, code: Code, st: State, i: Point)
    requires WellFormed(code) && Sound(w, code, st) && i < |code| && code[i].Pure? && SDom(code, i, st.Pc())
    ensures Holds(w, code, i, st)
  {
    hide SDom, UsesOk, FlowOk, SitesOk, ReachOk, EnvOk, IsPath, Holds, Unkilled, LastAt, Uses;
    var at := DominatorRan(code, st.hist, i);
    OperandsFresh(code, st.hist, i, at);
    PureUnkilled(w, code, st.hist, i, at);
  }

  lemma PureUnkilled(w: World, code: Code, hist: seq<Point>, i: Point, at: nat)
    requires i < |code| && code[i].Pure? && forall k :: 0 <= k < |hist| ==> hist[k] < |code|
    requires forall k :: at < k < |hist| - 1 ==> !Uses(code[i], hist[k])
    ensures Unkilled(w, code, hist, i, at)
  {
    hide Uses;
  }

  /** Slots p..q lie in one block. */
  predicate InBlock(code: Code, p: Point, q: Point) {
    p <= q < |code| && forall k :: p <= k < q ==> !IsTerminator(code[k])
  }

  /** In this block nothing strictly between i and j can write the cell that i accesses. */
  ghost predicate MemoryQuiet(w: World, code: Code, i: Point, j: Point) {
    InBlock(code, i, j) &&
    forall k :: i < k < j ==> !code[k].Store? && (code[k].Call? ==> CallsKeepMemory(w))
  }

  /** The last visit of an earlier slot of the block, with only slots between the two after it. */
  lemma LastVisit(code: Code, hist: seq<Point>, i: Point, j: Point) returns (at: nat)
    requires FlowOk(code) && IsPath(code, hist) && hist[|hist| - 1] == j && i < j && InBlock(code, i, j)
    ensures LastAt(hist, i, at) && forall k :: at < k < |hist| - 1 ==> i < hist[k] < j
  {
    hide FlowOk, Edge;
    StraightLine(code, hist, i, j);
    at := |hist| - 1 - (j - i);
    assert forall k :: at <= k < |hist| ==> hist[k] == j - (|hist| - 1 - k);
  }

  lemma QuietUnkilled(w: World, code: Code, hist: seq<Point>, i: Point, j: Point, at: nat)
    requires MemoryQuiet(w, code, i, j) && forall k :: 0 <= k < |hist| ==> hist[k] < |code|
    requires forall k :: at < k < |hist| - 1 ==> i < hist[k] < j && !Uses(code[i], hist[k])
    ensures Unkilled(w, code, hist, i, at)
  {
    hide Uses;
  }

  lemma MemoryFactHolds(w: World, code: Code, st: State, i: Point)
    requires WellFormed(code) && Sound(w, code, st) && i < st.Pc() && MemoryQuiet(w, code, i, st.Pc())
    requires code[i].Load? || code[i].Store?
    ensures Holds(w, code, i, st)
  {
    hide SDom, UsesOk, FlowOk, SitesOk, ReachOk, EnvOk, IsPath, Holds, Unkilled, LastAt, Uses;
    var at := LastVisit(code, st.hist, i, st.Pc());
    SameBlockDominates(code, i, st.Pc());
    OperandsFresh(code, st.hist, i, at);
    QuietUnkilled(w, code, st.hist, i, st.Pc(), at);
  }

  /** A load repeats an earlier load of its block if nothing between them can write memory. */
  lemma RepeatedLoadEqual(w: World, code: Code, i: Point, j: Point)
    requires WellFormed(code) && LayoutOk(w) && i < j && MemoryQuiet(w, code, i, j)
    requires code[i].Load? && code[j].Load? && code[i].ty == code[j].ty && code[i].addr == code[j].addr
    ensures EqualAt(w, code, j, Reg(i)) && Available(code, j, Reg(i))
  {
    SameBlockDominates(code, i, j);
    forall n: nat | Run(w, code, n).Pc() == j && Run(w, code, n).status.Running?
      ensures ValueOf(w, Run(w, code, n), code[j]) == Eval(w, Run(w, code, n).env, Reg(i))
    {
      hide SDom, UsesOk, FlowOk, SitesOk, ReachOk, LayoutOk, EnvOk, FactsOk, IsPath, Run;
      RunSound(w, code, n);
      MemoryFactHolds(w, code, Run(w, code, n), i);
    }
  }

  /** A load of the cell that a store of its block has just filled yields the stored value. */
  lemma ForwardedStoreEqual(w: World, code: Code, i: Point, j: Point)
    requires WellFormed(code) && LayoutOk(w) && i < j && MemoryQuiet(w, code, i, j)
    requires code[i].Store? && code[j].Load? && code[i].ty == code[j].ty && code[i].addr == code[j].addr
    ensures EqualAt(w, code, j, code[i].val) && Available(code, j, code[i].val)
  {
    SameBlockDominates(code, i, j);
    var v := code[i].val;
    if v.Reg? {
      assert Uses(code[i], v.p);
      assert UseOk(code, i, v.p);
      SDomTransitive(code, v.p, i, j);
      StrictDominance(code, v.p, j);
    }
    forall n: nat | Run(w, code, n).Pc() == j && Run(w, code, n).status.Running?
      ensures ValueOf(w, Run(w, code, n), code[j]) == Eval(w, Run(w, code, n).env, v)
    {
      hide SDom, UsesOk, FlowOk, SitesOk, ReachOk, EnvOk, Edge, Run;
      RunSound(w, code, n);
      MemoryFactHolds(w, code, Run(w, code, n), i);
    }
  }
}
