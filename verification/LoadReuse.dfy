/**
  The load scan of projects/p2/C++/p2.cpp passes over calls. Exactly when that is right, and
  a program on which it is not.
*/
module LoadReuse {
  import opened IR
  import opened Dominance
  import opened Facts
  import opened Replace
  import opened AvailableValues
  import opened DeadStore
  import opened Cse

  predicate NoCallBetween(code: Code, i: Point, j: Point) {
    j <= |code| && forall k :: i < k < j ==> !code[k].Call?
  }

  /** As w, except that the call made when `out` has been seen also writes the cells at a. */
  function Disturb(w: World, out: seq<Event>, a: int, cells: seq<int>): World {
    w.(callMem := (f: nat, args: seq<int>, m: Mem, o: seq<Event>) =>
        if o == out then WriteCells(m, a, cells) else w.callMem(f, args, m, o))
  }

  lemma DisturbEval(w: World, out: seq<Event>, a: int, cells: seq<int>, env: map<Point, int>)
    ensures forall o :: Eval(Disturb(w, out, a, cells), env, o) == Eval(w, env, o)
    ensures forall os :: EvalAll(Disturb(w, out, a, cells), env, os) == EvalAll(w, env, os)
  {
  }

  lemma DisturbStep(w: World, out: seq<Event>, a: int, cells: seq<int>, code: Code, st: State)
    requires st.hist != []
    requires st.Pc() < |code| && code[st.Pc()].Call? ==> st.out != out
    ensures Step(Disturb(w, out, a, cells), code, st) == Step(w, code, st)
  {
    hide Eval, WriteCells;
    DisturbEval(w, out, a, cells, st.env);
  }

  lemma {:induction false} OutGrows(w: World, code: Code, m: nat, n: nat)
    requires m <= n
    ensures |Run(w, code, m).out| <= |Run(w, code, n).out|
    decreases n
  {
    if m < n {
      OutGrows(w, code, m, n - 1);
    }
  }

  /** Up to the disturbed call nothing is different. */
  lemma {:induction false} SameUntil(w: World, code: Code, m: nat, n: nat, a: int, cells: seq<int>)
    requires WellFormed(code) && m <= n
    requires Run(w, code, n).status.Running?
    ensures Run(Disturb(w, Run(w, code, n).out, a, cells), code, m) == Run(w, code, m)
  {
    assert Disturb(w, Run(w, code, n).out, a, cells).init == w.init;
    hide WellFormed, Step, Disturb;
    if m > 0 {
      SameUntil(w, code, m - 1, n, a, cells);
      var st := Run(w, code, m - 1);
      if st.Pc() < |code| && code[st.Pc()].Call? {
        CallGrows(w, code, m - 1, n);
      }
      DisturbStep(w, Run(w, code, n).out, a, cells, code, st);
    }
  }

  lemma CallGrows(w: World, code: Code, m: nat, n: nat)
    requires m < n && Run(w, code, n).status.Running?
    requires Run(w, code, m).Pc() < |code| && code[Run(w, code, m).Pc()].Call?
    ensures Run(w, code, m).out != Run(w, code, n).out
  {
    hide NextEnv, NextMem, NextPc, EvalAll;
    OutGrows(w, code, m + 1, n);
    StaysReturned(w, code, m, n);
    assert Run(w, code, m + 1) == Step(w, code, Run(w, code, m));
  }

  lemma {:induction false} StaysReturned(w: World, code: Code, m: nat, n: nat)
    requires m <= n
    ensures Run(w, code, m).status.Returned? ==> Run(w, code, n) == Run(w, code, m)
    decreases n
  {
    if m < n {
      StaysReturned(w, code, m, n - 1);
    }
  }

  lemma QuietStep(w: World, code: Code, s: State)
    requires s.hist != [] && s.Pc() < |code| && s.status.Running?
    requires var x := code[s.Pc()]; !IsTerminator(x) && !x.Store? && !x.Call?
    ensures var t := Step(w, code, s);
      && t.Pc() == s.Pc() + 1 && t.status.Running? && t.mem == s.mem
      && forall d: Point :: d != s.Pc() ==> Eval(w, t.env, Reg(d)) == Eval(w, s.env, Reg(d))
  {
    hide ValueOf;
  }

  /** A run of slots without stores, calls or terminators keeps memory and earlier values. */
  lemma {:induction false} QuietRun(w: World, code: Code, n: nat, k: Point, j: Point)
    requires k <= j < |code| && Run(w, code, n).Pc() == k && Run(w, code, n).status.Running?
    requires forall m :: k <= m < j ==> !IsTerminator(code[m]) && !code[m].Store? && !code[m].Call?
    ensures var s, t := Run(w, code, n), Run(w, code, n + (j - k));
      && t.Pc() == j && t.status.Running? && t.mem == s.mem
      && forall d: Point :: !(k <= d < j) ==> Eval(w, t.env, Reg(d)) == Eval(w, s.env, Reg(d))
    decreases j - k
  {
    hide Step, Eval;
    if k < j {
      var s := Run(w, code, n);
      assert Run(w, code, n + 1) == Step(w, code, s);
      QuietStep(w, code, s);
      QuietRun(w, code, n + 1, k + 1, j);
    }
  }

  lemma ReturnedStays(w: World, code: Code, s: State)
    requires s.hist != [] && Step(w, code, s).status.Running?
    ensures s.status.Running? && (s.Pc() < |code| ==> |Step(w, code, s).hist| == |s.hist| + 1)
  {
    hide NextPc, NextEnv, NextMem, NextOut;
  }

  /** While running, every step visits one more slot. */
  lemma {:induction false} HistLength(w: World, code: Code, n: nat)
    requires FlowOk(code) && Run(w, code, n).status.Running?
    ensures |Run(w, code, n).hist| == n + 1
    ensures forall m :: 0 <= m <= n ==> Run(w, code, m).status.Running? && Run(w, code, m).hist == Run(w, code, n).hist[..m + 1]
  {
    hide Step, FlowOk, IsPath;
    if n > 0 {
      var s := Run(w, code, n - 1);
      RunIsPath(w, code, n - 1);
      ReturnedStays(w, code, s);
      HistLength(w, code, n - 1);
      StepPrefix(w, code, s);
    }
  }

  lemma StepPrefix(w: World, code: Code, s: State)
    requires s.hist != []
    ensures s.hist <= Step(w, code, s).hist
  {
    hide NextPc, NextEnv, NextMem, NextOut;
  }

  lemma LastCall(code: Code, i: Point, j: Point) returns (c: Point)
    requires i < j <= |code| && !NoCallBetween(code, i, j)
    ensures i < c < j && code[c].Call? && NoCallBetween(code, c, j)
  {
    c := j - 1;
    while !code[c].Call?
      invariant i < c < j && NoCallBetween(code, c, j)
      invariant exists k :: i < k <= c && code[k].Call?
      decreases c
    {
      c := c - 1;
    }
  }

  /** The state in which the last call before j is made. */
  lemma AtCall(w: World, code: Code, c: Point, j: Point, n: nat) returns (m: nat)
    requires WellFormed(code) && c < j && InBlock(code, c, j)
    requires Run(w, code, n).Pc() == j && Run(w, code, n).status.Running?
    ensures m + (j - c) == n && Run(w, code, m).Pc() == c && Run(w, code, m).status.Running?
  {
    hide UsesOk, SitesOk, ReachOk;
    RunIsPath(w, code, n);
    HistLength(w, code, n);
    StraightLine(code, Run(w, code, n).hist, c, j);
    m := n - (j - c);
    assert Run(w, code, m).hist == Run(w, code, n).hist[..m + 1];
    assert Run(w, code, n).hist[m] == c;
  }

  lemma OperandsKept(code: Code, i: Point, j: Point)
    requires WellFormed(code) && InBlock(code, i, j)
    ensures forall k :: i < k <= j ==> !Uses(code[i], k)
  {
    hide FlowOk, UsesOk, SitesOk, ReachOk;
    forall k | i < k <= j ensures !Uses(code[i], k) {
      StoreOperandsStay(code, i, k);
    }
  }

  /** The operands of i have the same values in t as in s. */
  lemma AddressKept(w: World, w': World, code: Code, i: Point, lo: Point, hi: Point, s: State, t: State, o: Operand)
    requires WellFormed(code) && InBlock(code, i, hi) && i < lo <= hi && o in Operands(code[i])
    requires w'.arg == w.arg && w'.global == w.global
    requires forall d: Point :: !(lo <= d < hi) ==> Eval(w', t.env, Reg(d)) == Eval(w, s.env, Reg(d))
    ensures Eval(w', t.env, o) == Eval(w, s.env, o)
  {
    hide WellFormed;
    OperandsKept(code, i, hi);
    assert o.Reg? ==> Uses(code[i], o.p);
  }

  /** Just after the disturbed call memory holds the disturbing cells. */
  lemma AfterCall(w: World, code: Code, m: nat, c: Point, a: int, cells: seq<int>)
    requires WellFormed(code) && c < |code| && code[c].Call?
    requires Run(w, code, m).Pc() == c && Run(w, code, m).status.Running?
    ensures var s := Run(w, code, m); var w' := Disturb(w, s.out, a, cells); var t := Run(w', code, m + 1);
      && t.Pc() == c + 1 && t.status.Running? && t.mem == WriteCells(s.mem, a, cells)
      && forall d: Point :: d != c ==> Eval(w', t.env, Reg(d)) == Eval(w, s.env, Reg(d))
  {
    hide WellFormed, WriteCells;
    SameUntil(w, code, m, m, a, cells);
  }

  /** What the run in the disturbed world finds at j: the disturbed cell, everything else as before. */
  lemma DisturbedRun(w: World, code: Code, i: Point, c: Point, j: Point, m: nat, a: int, cells: seq<int>)
    requires WellFormed(code) && InBlock(code, i, j) && i < c < j && code[c].Call?
    requires NoStoreBetween(code, i, j) && NoCallBetween(code, c, j)
    requires Run(w, code, m).Pc() == c && Run(w, code, m).status.Running?
    ensures var s := Run(w, code, m); var w' := Disturb(w, s.out, a, cells); var u := Run(w', code, m + (j - c));
      && u.Pc() == j && u.status.Running? && u.mem == WriteCells(s.mem, a, cells)
      && forall d: Point :: !(c <= d < j) ==> Eval(w', u.env, Reg(d)) == Eval(w, s.env, Reg(d))
  {
    hide WellFormed, WriteCells, Run, Eval, Disturb;
    AfterCall(w, code, m, c, a, cells);
    QuietRun(Disturb(w, Run(w, code, m).out, a, cells), code, m + 1, c + 1, j);
  }

  /** Along a straight line the history is determined by where it begins. */
  lemma SameHist(w: World, w': World, code: Code, c: Point, j: Point, m: nat, n: nat)
    requires WellFormed(code) && InBlock(code, c, j) && n == m + (j - c)
    requires Run(w, code, m).hist == Run(w', code, m).hist
    requires Run(w, code, n).Pc() == j && Run(w, code, n).status.Running? && Run(w', code, n).Pc() == j && Run(w', code, n).status.Running?
    ensures Run(w', code, n).hist == Run(w, code, n).hist
  {
    hide *;
    StraightRun(w, code, c, j, m, n);
    StraightRun(w', code, c, j, m, n);
  }

  lemma StraightRun(w: World, code: Code, c: Point, j: Point, m: nat, n: nat)
    requires WellFormed(code) && InBlock(code, c, j) && n == m + (j - c)
    requires Run(w, code, n).Pc() == j && Run(w, code, n).status.Running?
    ensures Run(w, code, n).hist == Run(w, code, m).hist + Steps(c, j)
  {
    hide WellFormed, FlowOk, InBlock, Run, Step, IsPath, Steps;
    FlowGiven(code, c, j);
    RunIsPath(w, code, n);
    HistLength(w, code, n);
    StraightLine(code, Run(w, code, n).hist, c, j);
    EndsInSteps(Run(w, code, n).hist, c, j, m);
  }

  lemma FlowGiven(code: Code, c: Point, j: Point)
    requires WellFormed(code) && InBlock(code, c, j)
    ensures FlowOk(code) && c <= j < |code| && forall k :: c <= k < j ==> !IsTerminator(code[k])
  {
  }

  lemma EndsInSteps(hist: seq<Point>, c: Point, j: Point, m: nat)
    requires c <= j && |hist| == m + (j - c) + 1 && forall i :: m <= i < |hist| ==> hist[i] == j - (|hist| - 1 - i)
    ensures hist == hist[..m + 1] + Steps(c, j)
  {
  }

  function Steps(c: Point, j: Point): seq<Point>
    requires c <= j
  {
    seq(j - c, k requires 0 <= k < j - c => c + 1 + k)
  }

  lemma NotEqualAt(w: World, code: Code, i: Point, j: Point, n: nat)
    requires j < |code| && code[j].Load? && Run(w, code, n).Pc() == j && Run(w, code, n).status.Running?
    requires ValueOf(w, Run(w, code, n), code[j]) != Eval(w, Run(w, code, n).env, Reg(i))
    ensures !EqualAt(w, code, j, Reg(i))
  {
    hide Run, Eval, ValueOf;
  }

  /** A call in between, reached in some world, is wrong in a world where it writes that cell. */
  lemma DisturbingCall(w: World, code: Code, i: Point, j: Point, n: nat) returns (w': World)
    requires WellFormed(code) && LayoutOk(w) && i < j && InBlock(code, i, j) && NoStoreBetween(code, i, j)
    requires SameLoad(code[i], code[j]) && !NoCallBetween(code, i, j)
    requires Run(w, code, n).Pc() == j && Run(w, code, n).status.Running?
    ensures LayoutOk(w') && !EqualAt(w', code, j, Reg(i))
    ensures Run(w', code, n).Pc() == j && Run(w', code, n).status.Running? && Run(w', code, n).hist == Run(w, code, n).hist
    ensures ValueOf(w', Run(w', code, n), code[j]) != Eval(w', Run(w', code, n).env, Reg(i))
  {
    hide WellFormed, WriteCells, ReadCells, Run, Eval;
    var c := LastCall(code, i, j);
    var m := AtCall(w, code, c, j, n);
    var s, x := Run(w, code, m), code[j];
    var a, before := Eval(w, s.env, x.addr), Eval(w, s.env, Reg(i));
    var cells := w.encode(x.ty, before + 1);
    w' := Disturb(w, s.out, a, cells);
    DisturbedRun(w, code, i, c, j, m, a, cells);
    var u := Run(w', code, n);
    AddressKept(w, w', code, i, c, j, s, u, x.addr);
    ReadBack(s.mem, a, cells);
    assert ValueOf(w', u, x) == before + 1;
    assert Eval(w', u.env, Reg(i)) == before;
    hide *;
    SameUntil(w, code, m, m, a, cells);
    SameHist(w, w', code, c, j, m, n);
    NotEqualAt(w', code, i, j, n);
  }

  /** A matching load with no store in between has the earlier one's value in every world exactly when no call is in between. */
  lemma LoadValueExact(w: World, code: Code, i: Point, j: Point, n: nat)
    requires WellFormed(code) && LayoutOk(w) && i < j && InBlock(code, i, j) && NoStoreBetween(code, i, j)
    requires SameLoad(code[i], code[j])
    requires Run(w, code, n).Pc() == j && Run(w, code, n).status.Running?
    ensures (forall v: World :: LayoutOk(v) ==> EqualAt(v, code, j, Reg(i))) <==> NoCallBetween(code, i, j)
  {
    hide WellFormed, EqualAt, LayoutOk, CallsKeepMemory;
    if NoCallBetween(code, i, j) {
      forall v: World | LayoutOk(v) ensures EqualAt(v, code, j, Reg(i)) {
        assert MemoryQuiet(v, code, i, j);
        RepeatedLoadEqual(v, code, i, j);
      }
    } else {
      var v := DisturbingCall(w, code, i, j, n);
    }
  }

  // ------------------------------------------------------------ where the loaded value is seen

  /** The block returns what j loads, and nothing after j touches memory before that. */
  predicate ReturnsLoad(code: Code, j: Point, u: Point) {
    && j < u && InBlock(code, j, u) && code[u] == Ret(Reg(j))
    && forall k :: j < k < u ==> !code[k].Store? && !code[k].Call?
  }

  /** The first step at which j is reached. */
  lemma FirstReach(w: World, code: Code, j: Point, n: nat) returns (m: nat)
    requires Run(w, code, n).Pc() == j && Run(w, code, n).status.Running?
    ensures m <= n && Run(w, code, m).Pc() == j && Run(w, code, m).status.Running?
    ensures forall k :: 0 <= k < m ==> !(Run(w, code, k).Pc() == j && Run(w, code, k).status.Running?)
  {
    m := 0;
    while !(Run(w, code, m).Pc() == j && Run(w, code, m).status.Running?)
      invariant m <= n
      invariant forall k :: 0 <= k < m ==> !(Run(w, code, k).Pc() == j && Run(w, code, k).status.Running?)
      decreases n - m
    {
      m := m + 1;
    }
  }

  /** A slot that uses j has not been reached before j. */
  lemma NotUsedBefore(w: World, code: Code, j: Point, n: nat)
    requires WellFormed(code) && Run(w, code, n).status.Running? && Run(w, code, n).Pc() < |code|
    requires forall k :: 0 <= k < n ==> Run(w, code, k).Pc() != j
    ensures !Uses(code[Run(w, code, n).Pc()], j)
  {
    hide SDom, FlowOk, SitesOk, ReachOk, Step, Run, IsPath;
    var st := Run(w, code, n);
    RunIsPath(w, code, n);
    HistLength(w, code, n);
    forall k | 0 <= k < n ensures st.hist[k] != j {
      assert Run(w, code, k).hist == st.hist[..k + 1];
    }
    NotPassed(code, st.hist, j);
  }

  lemma NotPassed(code: Code, hist: seq<Point>, j: Point)
    requires hist != [] && UsesOk(code) && IsPath(code, hist) && hist[|hist| - 1] < |code| && forall k :: 0 <= k < |hist| - 1 ==> hist[k] != j
    ensures !Uses(code[hist[|hist| - 1]], j)
  {
    hide IsPath;
    assert Uses(code[hist[|hist| - 1]], j) ==> UseOk(code, hist[|hist| - 1], j);
  }

  lemma SameStepWhereUnused(w: World, code: Code, j: Point, v: Operand, st: State)
    requires st.hist != [] && j < |code| && (st.Pc() < |code| ==> st.Pc() != j && !Uses(code[st.Pc()], j))
    ensures Step(w, ReplaceAndErase(code, j, v), st) == Step(w, code, st)
  {
    if st.Pc() < |code| {
      RewireNothing(code[st.Pc()], j, v);
    }
  }

  lemma RewireNothing(x: Inst, j: Point, v: Operand)
    requires !Uses(x, j)
    ensures RewireInst(j, v, x) == x
  {
    assert forall o :: o in Operands(x) ==> Rewire(j, v, o) == o;
    if x.Pure? || x.Call? {
      assert RewireAll(j, v, x.args) == x.args;
    }
  }

  /** Until j is reached the rewritten program runs as the original one. */
  lemma {:induction false} SameBeforeFirst(w: World, code: Code, j: Point, v: Operand, m: nat, n: nat)
    requires WellFormed(code) && j < |code| && m <= n && Run(w, code, n).status.Running?
    requires forall k :: 0 <= k < n ==> Run(w, code, k).Pc() != j
    ensures Run(w, ReplaceAndErase(code, j, v), m) == Run(w, code, m)
  {
    hide Step, ReplaceAndErase, WellFormed;
    if m > 0 {
      SameBeforeFirst(w, code, j, v, m - 1, n);
      var st := Run(w, code, m - 1);
      StaysReturned(w, code, m - 1, n);
      if st.Pc() < |code| {
        StillRunning(w, code, m - 1, n);
        NotUsedBefore(w, code, j, m - 1);
      }
      SameStepWhereUnused(w, code, j, v, st);
    }
  }

  lemma StillRunning(w: World, code: Code, m: nat, n: nat)
    requires m <= n && Run(w, code, n).status.Running?
    ensures Run(w, code, m).status.Running?
  {
    StaysReturned(w, code, m, n);
  }

  lemma ReturnsWhere(code: Code, j: Point, u: Point)
    requires ReturnsLoad(code, j, u)
    ensures j < u < |code| && code[u] == Ret(Reg(j))
  {
  }

  /** From j on: what is returned is what the load yields. */
  lemma OriginalReturns(w: World, code: Code, j: Point, u: Point, n: nat)
    requires ReturnsLoad(code, j, u) && code[j].Load? && Run(w, code, n).Pc() == j && Run(w, code, n).status.Running?
    ensures Run(w, code, n + (u - j) + 1).status == Returned(ValueOf(w, Run(w, code, n), code[j]))
  {
    hide Step, ValueOf, Run, Eval;
    LoadStep(w, code, Run(w, code, n));
    RunNext(w, code, n);
    QuietRun(w, code, n + 1, j + 1, u);
    hide *;
    ReturnsWhere(code, j, u);
    RetStep(w, code, Run(w, code, n + (u - j)));
    RunNext(w, code, n + (u - j));
  }

  lemma LoadStep(w: World, code: Code, st: State)
    requires st.hist != [] && st.Pc() < |code| && code[st.Pc()].Load? && st.status.Running?
    ensures var t := Step(w, code, st);
      t.Pc() == st.Pc() + 1 && t.status.Running? && Eval(w, t.env, Reg(st.Pc())) == ValueOf(w, st, code[st.Pc()])
  {
    hide ValueOf;
  }

  lemma RetStep(w: World, code: Code, st: State)
    requires st.hist != [] && st.Pc() < |code| && code[st.Pc()].Ret? && st.status.Running?
    ensures Step(w, code, st).status == Returned(Eval(w, st.env, code[st.Pc()].val))
  {
    hide Eval;
  }

  lemma ErasedStep(w: World, code: Code, st: State)
    requires st.hist != [] && st.Pc() < |code| && code[st.Pc()].Erased? && st.status.Running?
    ensures var t := Step(w, code, st); t.Pc() == st.Pc() + 1 && t.status.Running? && t.env == st.env
  {
  }

  lemma RewrittenSlots(code: Code, i: Point, j: Point, u: Point)
    requires ReturnsLoad(code, j, u) && i < j
    ensures var d := ReplaceAndErase(code, j, Reg(i));
      && j < u < |d| && d[j] == Erased && d[u] == Ret(Reg(i))
      && forall k :: j + 1 <= k < u ==> !IsTerminator(d[k]) && !d[k].Store? && !d[k].Call?
  {
  }

  lemma RunNext(w: World, code: Code, n: nat)
    ensures Run(w, code, n + 1) == Step(w, code, Run(w, code, n))
  {
  }

  /** From a vacant slot on to a return of an earlier value. */
  lemma VacantReturns(w: World, d: Code, i: Point, j: Point, u: Point, n: nat)
    requires i < j < u < |d| && d[j] == Erased && d[u] == Ret(Reg(i))
    requires forall k :: j + 1 <= k < u ==> !IsTerminator(d[k]) && !d[k].Store? && !d[k].Call?
    requires Run(w, d, n).Pc() == j && Run(w, d, n).status.Running?
    ensures Run(w, d, n + (u - j) + 1).status == Returned(Eval(w, Run(w, d, n).env, Reg(i)))
  {
    hide *;
    var st := Run(w, d, n);
    ErasedStep(w, d, st);
    RunNext(w, d, n);
    QuietRun(w, d, n + 1, j + 1, u);
    var last := Run(w, d, n + (u - j));
    RetStep(w, d, last);
    RunNext(w, d, n + (u - j));
  }

  /** With the load replaced, what is returned is the value of i. */
  lemma RewrittenReturns(w: World, code: Code, i: Point, j: Point, u: Point, n: nat)
    requires ReturnsLoad(code, j, u) && i < j
    requires var d := ReplaceAndErase(code, j, Reg(i)); Run(w, d, n).Pc() == j && Run(w, d, n).status.Running?
    ensures var d := ReplaceAndErase(code, j, Reg(i)); Run(w, d, n + (u - j) + 1).status == Returned(Eval(w, Run(w, d, n).env, Reg(i)))
  {
    RewrittenSlots(code, i, j, u);
    VacantReturns(w, ReplaceAndErase(code, j, Reg(i)), i, j, u, n);
    hide *;
  }

  lemma ReturnedOnce(w: World, c: Code, d: Code, n: nat)
    requires Run(w, c, n).status.Returned? && Run(w, d, n).status.Returned? && Run(w, c, n).status != Run(w, d, n).status
    ensures !SameBehaviour(w, c, d)
  {
    if SameBehaviour(w, c, d) {
      assert Shows(w, d, Observe(Run(w, c, n)));
      var k: nat :| Observe(Run(w, d, k)) == Observe(Run(w, c, n));
      if k <= n {
        StaysReturned(w, d, k, n);
      } else {
        StaysReturned(w, d, n, k);
      }
    }
  }

  lemma NeverBefore(w: World, code: Code, j: Point, n: nat)
    requires Run(w, code, n).status.Running?
    requires forall k :: 0 <= k < n ==> !(Run(w, code, k).Pc() == j && Run(w, code, k).status.Running?)
    ensures forall k :: 0 <= k < n ==> Run(w, code, k).Pc() != j
  {
    forall k | 0 <= k < n ensures Run(w, code, k).Pc() != j {
      StillRunning(w, code, k, n);
    }
  }

  /** In the disturbed world, too, j is reached for the first time. */
  lemma DisturbedFirst(w: World, w': World, code: Code, j: Point, n: nat)
    requires FlowOk(code) && Run(w, code, n).status.Running? && Run(w', code, n).status.Running?
    requires Run(w', code, n).hist == Run(w, code, n).hist
    requires forall k :: 0 <= k < n ==> Run(w, code, k).Pc() != j
    ensures forall k :: 0 <= k < n ==> Run(w', code, k).Pc() != j
  {
    hide FlowOk, Step, Run;
    HistLength(w, code, n);
    HistLength(w', code, n);
    forall k | 0 <= k < n ensures Run(w', code, k).Pc() != j {
      assert Run(w', code, k).hist == Run(w, code, k).hist;
    }
  }

  lemma BrokenWorld(w: World, code: Code, i: Point, j: Point, u: Point, n: nat) returns (w': World)
    requires WellFormed(code) && LayoutOk(w) && i < j && InBlock(code, i, j) && NoStoreBetween(code, i, j)
    requires SameLoad(code[i], code[j]) && ReturnsLoad(code, j, u) && !NoCallBetween(code, i, j)
    requires Run(w, code, n).Pc() == j && Run(w, code, n).status.Running?
    requires forall k :: 0 <= k < n ==> !(Run(w, code, k).Pc() == j && Run(w, code, k).status.Running?)
    ensures LayoutOk(w') && !SameBehaviour(w', code, ReplaceAndErase(code, j, Reg(i)))
  {
    hide *;
    w' := DisturbingCall(w, code, i, j, n);
    NeverBefore(w, code, j, n);
    FlowIs(code);
    DisturbedFirst(w, w', code, j, n);
    LoadIs(code, i, j, u);
    SameBeforeFirst(w', code, j, Reg(i), n, n);
    OriginalReturns(w', code, j, u, n);
    RewrittenReturns(w', code, i, j, u, n);
    ReturnedOnce(w', code, ReplaceAndErase(code, j, Reg(i)), n + (u - j) + 1);
  }

  lemma FlowIs(code: Code)
    requires WellFormed(code)
    ensures FlowOk(code)
  {
  }

  lemma LoadIs(code: Code, i: Point, j: Point, u: Point)
    requires InBlock(code, i, j) && SameLoad(code[i], code[j]) && ReturnsLoad(code, j, u)
    ensures i < |code| && j < |code| && code[j].Load? && j < u
  {
  }

  /**
    Where a block returns what j loads, replacing j by an earlier matching load of the block keeps the program's
    behaviour in every world exactly when there is no call in between.
  */
  lemma LoadReuseExact(w: World, code: Code, i: Point, j: Point, u: Point, n: nat)
    requires WellFormed(code) && LayoutOk(w) && i < j && InBlock(code, i, j) && NoStoreBetween(code, i, j)
    requires SameLoad(code[i], code[j]) && ReturnsLoad(code, j, u)
    requires Run(w, code, n).Pc() == j && Run(w, code, n).status.Running?
    ensures (forall v: World :: LayoutOk(v) ==> SameBehaviour(v, code, ReplaceAndErase(code, j, Reg(i)))) <==> NoCallBetween(code, i, j)
  {
    hide WellFormed, EqualAt, LayoutOk, CallsKeepMemory, SameBehaviour, Available, ReplaceAndErase;
    if NoCallBetween(code, i, j) {
      forall v: World | LayoutOk(v) ensures SameBehaviour(v, code, ReplaceAndErase(code, j, Reg(i))) {
        assert MemoryQuiet(v, code, i, j);
        RepeatedLoadEqual(v, code, i, j);
        ReplacePreserves(v, code, j, Reg(i));
      }
    } else {
      var m := FirstReach(w, code, j, n);
      var v := BrokenWorld(w, code, i, j, u, m);
    }
  }

  // ------------------------------------------------------------ a program that breaks

  /** One cell per object; every call stores 1 in the cell of global 0. */
  const Meddling: World := World(
    map[],
    (op: PureOp, vs: seq<int>) => 0,
    (i: nat) => 0,
    (g: nat) => 2 * g,
    (s: nat) => 2 * s + 1,
    (ty: nat) => 1,
    (ty: nat, v: int) => [v],
    (ty: nat, s: seq<int>) => if s == [] then 0 else s[0],
    (f: nat, args: seq<int>, m: Mem, out: seq<Event>) => 0,
    (f: nat, args: seq<int>, m: Mem, out: seq<Event>) => m[0 := 1])

  /** load global 0; call; load global 0 again and return it. */
  const LoadCallLoad: Code := [
    Load(0, Global(0), false), Call(0, []), Load(0, Global(0), false), Ret(Reg(2))]

  const Reused: Code := [
    Load(0, Global(0), false), Call(0, []), Erased, Ret(Reg(0))]

  lemma MeddlingLayout()
    ensures LayoutOk(Meddling)
  {
    var w := Meddling;
    forall ty: nat, v: int ensures |w.encode(ty, v)| == w.width(ty) && w.decode(ty, w.encode(ty, v)) == v {
    }
    forall g: nat, h: nat, t: nat, u: nat | g != h ensures Apart(w.global(g), w.width(t), w.global(h), w.width(u)) {
      assert w.global(g) == 2 * g && w.global(h) == 2 * h;
    }
    forall s: nat, r: nat, t: nat, u: nat | s != r ensures Apart(w.frame(s), w.width(t), w.frame(r), w.width(u)) {
      assert w.frame(s) == 2 * s + 1 && w.frame(r) == 2 * r + 1;
    }
    forall g: nat, s: nat, t: nat, u: nat ensures Apart(w.global(g), w.width(t), w.frame(s), w.width(u)) {
      assert w.global(g) == 2 * g && w.frame(s) == 2 * s + 1;
    }
  }

  lemma LoadCallLoadWellFormed()
    ensures WellFormed(LoadCallLoad)
  {
    var c := LoadCallLoad;
    assert FlowOk(c);
    forall p: Point | p < |c| ensures Reachable(c, p) {
      var path := [0, 1, 2, 3][..p + 1];
      assert IsPath(c, path) && path[|path| - 1] == p;
    }
    SameBlockDominates(c, 2, 3);
    forall p: Point, d: Point | p < |c| && Uses(c[p], d) ensures UseOk(c, p, d) {
      assert p == 3 && d == 2;
    }
  }

  lemma OriginalReturnsOne()
    ensures Run(Meddling, LoadCallLoad, 4).status == Returned(1)
  {
    var w, c := Meddling, LoadCallLoad;
    var s0 := Run(w, c, 0);
    var s1 := Run(w, c, 1);
    assert s1 == Step(w, c, s0);
    assert s1.Pc() == 1 && s1.status.Running?;
    var s2 := Run(w, c, 2);
    assert s2 == Step(w, c, s1);
    assert s2.Pc() == 2 && s2.mem[0] == 1 && s2.status.Running?;
    var s3 := Run(w, c, 3);
    assert s3 == Step(w, c, s2);
    assert ReadCells(s2.mem, 0, 1)[0] == 1;
    assert s3.Pc() == 3 && s3.env[2] == 1 && s3.status.Running?;
    assert Run(w, c, 4) == Step(w, c, s3);
  }

  ghost predicate ReusedState(s: State) {
    && s.hist != [] && s.status != Returned(1)
    && (if s.Pc() == 0 then s.mem == map[] && s.status.Running? else 0 in s.env && s.env[0] == 0)
  }

  lemma ReusedFirst(s: State)
    requires ReusedState(s) && s.Pc() == 0
    ensures ReusedState(Step(Meddling, Reused, s))
  {
    var x := Reused[0];
    assert ReadCells(s.mem, 0, 1) == [0];
    assert ValueOf(Meddling, s, x) == 0;
    assert NextPc(Meddling, s, x) == 1;
  }

  lemma ReusedLater(s: State)
    requires ReusedState(s) && s.Pc() != 0
    ensures ReusedState(Step(Meddling, Reused, s))
  {
    hide NextMem, NextOut;
    if s.Pc() < 3 {
      assert NextPc(Meddling, s, Reused[s.Pc()]) == s.Pc() + 1;
    }
  }

  lemma {:induction false} ReusedNeverReturnsOne(n: nat)
    ensures ReusedState(Run(Meddling, Reused, n))
  {
    hide Step, ReusedState;
    if n == 0 {
      assert ReusedState(Start(Meddling)) by { ReusedStart(); }
    } else {
      var s := Run(Meddling, Reused, n - 1);
      ReusedNeverReturnsOne(n - 1);
      if s.Pc() == 0 {
        ReusedFirst(s);
      } else {
        ReusedLater(s);
      }
    }
  }

  lemma ReusedStart()
    ensures ReusedState(Start(Meddling))
  {
  }

  lemma ScanReuses()
    ensures ReuseLoads(LoadCallLoad, 0, 1, 4) == Reused
  {
    var c := LoadCallLoad;
    assert RewireAll(2, Reg(0), []) == [];
    assert ReplaceAndErase(c, 2, Reg(0)) == Reused;
    assert ReuseLoads(c, 0, 1, 4) == ReuseLoads(c, 0, 2, 4) == ReuseLoads(Reused, 0, 3, 4) == ReuseLoads(Reused, 0, 4, 4) == Reused;
  }

  /** The pass, slot by slot, when nothing can be simplified. */
  lemma PassReuses(domTree: DomTree, simplify: Simplifier)
    requires forall code, p :: simplify(code, p).None?
    ensures RunPass(domTree, simplify, LoadCallLoad, 0) == Reused
  {
    ScanReuses();
    hide ReuseLoads;
    var c, d := LoadCallLoad, Reused;
    assert BlockEnd(c, 0) == 4 by {
      assert BlockEnd(c, 3) == 4 && BlockEnd(c, 2) == 4 && BlockEnd(c, 1) == 4;
    }
    assert VisitSlot(domTree, simplify, c, 0) == d;
    assert VisitSlot(domTree, simplify, d, 1) == d && VisitSlot(domTree, simplify, d, 2) == d && VisitSlot(domTree, simplify, d, 3) == d;
    hide VisitSlot;
    assert RunPass(domTree, simplify, d, 4) == d;
    assert RunPass(domTree, simplify, d, 3) == d;
    assert RunPass(domTree, simplify, d, 2) == d;
    assert RunPass(domTree, simplify, d, 1) == d;
  }

  /** The pass turns a program that returns 1 into one that never does, whatever the dominator tree. */
  lemma LoadReuseBreaks(domTree: DomTree, simplify: Simplifier)
    requires forall code, p :: simplify(code, p).None?
    ensures LayoutOk(Meddling) && WellFormed(LoadCallLoad)
    ensures !SameBehaviour(Meddling, LoadCallLoad, RunPass(domTree, simplify, LoadCallLoad, 0))
  {
    hide WellFormed, LayoutOk, Run;
    PassReuses(domTree, simplify);
    MeddlingLayout();
    LoadCallLoadWellFormed();
    var c := LoadCallLoad;
    OriginalReturnsOne();
    assert Observe(Run(Meddling, c, 4)).status == Returned(1);
    if Shows(Meddling, Reused, Observe(Run(Meddling, c, 4))) {
      var n: nat :| Observe(Run(Meddling, Reused, n)) == Observe(Run(Meddling, c, 4));
      ReusedNeverReturnsOne(n);
      assert false;
    }
  }
}
