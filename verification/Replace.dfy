/**
  The one rewriting step that CSE, instruction simplification, load elimination, store-to-load
  forwarding, dead code elimination and hoisting share: replace every use of j by an operand
  v that is available at j and always equal to it there, then erase j.
*/
module Replace {
  import opened IR
  import opened Dominance
  import opened Facts

  function Rewire(j: Point, v: Operand, o: Operand): Operand {
    if o == Reg(j) then v else o
  }

  function RewireAll(j: Point, v: Operand, os: seq<Operand>): (r: seq<Operand>)
    ensures |r| == |os| && forall i :: 0 <= i < |os| ==> r[i] == Rewire(j, v, os[i])
  {
    seq(|os|, i requires 0 <= i < |os| => Rewire(j, v, os[i]))
  }

  function RewireInst(j: Point, v: Operand, x: Inst): Inst {
    match x
    case Pure(op, args) => Pure(op, RewireAll(j, v, args))
    case Alloca(_) => x
    case Load(ty, a, vol) => Load(ty, Rewire(j, v, a), vol)
    case Store(ty, s, a, vol) => Store(ty, Rewire(j, v, s), Rewire(j, v, a), vol)
    case Call(f, args) => Call(f, RewireAll(j, v, args))
    case Br(c, t, e) => Br(Rewire(j, v, c), t, e)
    case Ret(r) => Ret(Rewire(j, v, r))
    case Erased => x
  }

  function ReplaceAllUses(code: Code, j: Point, v: Operand): (r: Code)
    ensures |r| == |code|
  {
    seq(|code|, i requires 0 <= i < |code| => RewireInst(j, v, code[i]))
  }

  /** replaceAllUsesWith followed by eraseFromParent. */
  function ReplaceAndErase(code: Code, j: Point, v: Operand): (r: Code)
    requires j < |code|
  {
    ReplaceAllUses(code, j, v)[j := Erased]
  }

  ghost predicate Available(code: Code, j: Point, v: Operand) {
    v.Reg? ==> v.p < |code| && v.p != j && Produces(code[v.p]) && SDom(code, v.p, j)
  }

  ghost predicate EqualAt(w: World, code: Code, j: Point, v: Operand)
    requires j < |code| && Produces(code[j])
  {
    forall n: nat :: var st := Run(w, code, n);
      st.Pc() == j && st.status.Running? ==> ValueOf(w, st, code[j]) == Eval(w, st.env, v)
  }

  predicate NoUses(code: Code, j: Point) {
    forall p :: 0 <= p < |code| ==> !Uses(code[p], j)
  }

  lemma RewiredUses(j: Point, v: Operand, x: Inst, d: Point)
    requires Uses(RewireInst(j, v, x), d)
    ensures (Uses(x, d) && d != j) || (Uses(x, j) && v == Reg(d))
  {
    var y := RewireInst(j, v, x);
    assert |Operands(y)| == |Operands(x)|;
    var i :| 0 <= i < |Operands(y)| && Operands(y)[i] == Reg(d);
    assert Operands(y)[i] == Rewire(j, v, Operands(x)[i]);
  }

  lemma ReplaceSameFlow(code: Code, j: Point, v: Operand)
    requires j < |code| && Produces(code[j])
    ensures SameFlow(code, ReplaceAndErase(code, j, v))
  {
  }

  lemma RewiredUseOk(code: Code, j: Point, v: Operand, p: Point, d: Point)
    requires UsesOk(code) && j < |code| && Available(code, j, v) && p < |code|
    requires Uses(ReplaceAndErase(code, j, v)[p], d)
    ensures d < |code| && d != j && Produces(code[d]) && SDom(code, d, p)
  {
    hide SDom;
    RewiredUses(j, v, code[p], d);
    if Uses(code[p], d) && d != j {
      assert UseOk(code, p, d);
    } else {
      assert UseOk(code, p, j);
      SDomTransitive(code, d, j, p);
    }
  }

  lemma ReplaceWellFormed(code: Code, j: Point, v: Operand)
    requires WellFormed(code) && j < |code| && Produces(code[j]) && Available(code, j, v)
    ensures SameFlow(code, ReplaceAndErase(code, j, v)) && WellFormed(ReplaceAndErase(code, j, v))
  {
    hide SDom, Available, RewireInst, UsesOk;
    var code' := ReplaceAndErase(code, j, v);
    ReplaceSameFlow(code, j, v);
    SameFlowPaths(code, code');
    SameFlowOk(code, code');
    assert SitesOk(code') by {
      ReplaceKinds(code, j, v);
    }
    assert UsesOk(code') by {
      ReplaceUsesOk(code, j, v);
    }
  }

  lemma ReplaceKinds(code: Code, j: Point, v: Operand)
    requires j < |code|
    ensures forall p :: 0 <= p < |code| && p != j ==>
      (ReplaceAndErase(code, j, v)[p].Alloca? == code[p].Alloca?) &&
      (code[p].Alloca? ==> ReplaceAndErase(code, j, v)[p] == code[p]) &&
      (Produces(ReplaceAndErase(code, j, v)[p]) == Produces(code[p]))
  {
  }

  lemma ReplaceUsesOk(code: Code, j: Point, v: Operand)
    requires UsesOk(code) && j < |code| && Available(code, j, v)
    requires SameFlow(code, ReplaceAndErase(code, j, v))
    ensures UsesOk(ReplaceAndErase(code, j, v))
  {
    hide SDom, Available, RewireInst;
    var code' := ReplaceAndErase(code, j, v);
    SameFlowPaths(code, code');
    ReplaceKinds(code, j, v);
    assert forall p, d :: 0 <= p < |code'| && Uses(code'[p], d) ==> UseOk(code', p, d) by {
      forall p, d | 0 <= p < |code'| && Uses(code'[p], d) ensures UseOk(code', p, d) {
        RewiredUseOk(code, j, v, p, d);
      }
    }
  }

  // ------------------------------------------------------------ simulation

  /** Same state, except that the rewritten program never computes j. */
  ghost predicate Agree(st: State, st': State, j: Point) {
    st' == st.(env := st.env - {j})
  }

  /** Since j last ran, and unless v was recomputed since, j's value is v's value. */
  ghost predicate StillEqual(w: World, st: State, j: Point, v: Operand) {
    forall i: nat :: LastAt(st.hist, j, i) && (v.Reg? ==> forall k :: i < k < |st.hist| - 1 ==> st.hist[k] != v.p)
      ==> j in st.env && st.env[j] == Eval(w, st.env, v)
  }

  lemma StillEqualStep(w: World, code: Code, st: State, j: Point, v: Operand)
    requires FlowOk(code) && IsPath(code, st.hist) && j < |code| && st.Pc() < |code| && Produces(code[j])
    requires v.Reg? ==> v.p != j
    requires StillEqual(w, st, j, v)
    requires st.Pc() == j && st.status.Running? ==> ValueOf(w, st, code[j]) == Eval(w, st.env, v)
    ensures StillEqual(w, Step(w, code, st), j, v)
  {
    hide FlowOk, NextPc, NextMem, NextOut, ValueOf;
    var pc, st' := st.Pc(), Step(w, code, st);
    StepFollowsEdge(w, code, st);
    forall i: nat | LastAt(st'.hist, j, i) && (v.Reg? ==> forall k :: i < k < |st'.hist| - 1 ==> st'.hist[k] != v.p)
      ensures j in st'.env && st'.env[j] == Eval(w, st'.env, v)
    {
      if st'.hist != st.hist && pc != j {
        assert st'.hist[|st.hist| - 1] == pc;
        assert i < |st.hist| - 1;
        assert forall k :: i < k < |st.hist| - 1 ==> st.hist[k] == st'.hist[k];
        assert LastAt(st.hist, j, i);
      }
    }
  }

  /** Where the original reads j, the rewritten program reads the same value from v. */
  lemma UseReadsSame(w: World, code: Code, st: State, j: Point, v: Operand)
    requires WellFormed(code) && IsPath(code, st.hist) && st.Pc() < |code| && j < |code|
    requires Available(code, j, v) && StillEqual(w, st, j, v) && Uses(code[st.Pc()], j)
    ensures Eval(w, st.env, Reg(j)) == Eval(w, st.env - {j}, v)
  {
    hide SDom, Edge, FlowOk, SitesOk, ReachOk;
    assert UseOk(code, st.Pc(), j);
    var i := DominatorRan(code, st.hist, j);
    if v.Reg? {
      NoReexecution(code, st.hist, v.p, j, i);
    }
    assert j in st.env && st.env[j] == Eval(w, st.env, v);
  }

  lemma RewiredEvalAll(w: World, env: map<Point, int>, env': map<Point, int>, j: Point, v: Operand, os: seq<Operand>)
    requires forall o :: o in os ==> Eval(w, env, o) == Eval(w, env', Rewire(j, v, o))
    ensures EvalAll(w, env, os) == EvalAll(w, env', RewireAll(j, v, os))
  {
    assert forall i :: 0 <= i < |os| ==> os[i] in os;
  }

  /** The rewired instruction does to the reduced state what the original does to the full one. */
  lemma RewiredEffect(w: World, st: State, st': State, x: Inst, j: Point, v: Operand)
    requires st.hist != [] && Agree(st, st', j) && st.Pc() != j
    requires forall o :: o in Operands(x) ==> Eval(w, st.env, o) == Eval(w, st'.env, Rewire(j, v, o))
    ensures NextPc(w, st', RewireInst(j, v, x)) == NextPc(w, st, x)
    ensures NextMem(w, st', RewireInst(j, v, x)) == NextMem(w, st, x)
    ensures NextOut(w, st', RewireInst(j, v, x)) == NextOut(w, st, x)
    ensures NextEnv(w, st', RewireInst(j, v, x)) == NextEnv(w, st, x) - {j}
    ensures x.Ret? ==> Eval(w, st'.env, RewireInst(j, v, x).val) == Eval(w, st.env, x.val)
  {
    hide Eval, Rewire, WriteCells;
    if x.Pure? || x.Call? {
      RewiredEvalAll(w, st.env, st'.env, j, v, x.args);
    }
    assert Produces(x) ==> ValueOf(w, st', RewireInst(j, v, x)) == ValueOf(w, st, x);
  }

  lemma RewiredStep(w: World, code: Code, st: State, j: Point, v: Operand)
    requires st.hist != [] && st.Pc() < |code| && j < |code| && Removable(code[j])
    requires forall o :: o in Operands(code[st.Pc()]) ==> Eval(w, st.env, o) == Eval(w, st.env - {j}, Rewire(j, v, o))
    ensures Agree(Step(w, code, st), Step(w, ReplaceAndErase(code, j, v), st.(env := st.env - {j})), j)
  {
    hide Rewire, Eval;
    var pc, x, st' := st.Pc(), code[st.Pc()], st.(env := st.env - {j});
    if pc != j {
      hide NextPc, NextEnv, NextMem, NextOut;
      RewiredEffect(w, st, st', x, j, v);
      assert ReplaceAndErase(code, j, v)[pc] == RewireInst(j, v, x);
      assert RewireInst(j, v, x).Ret? == x.Ret?;
    } else {
      assert st.env[pc := ValueOf(w, st, x)] - {j} == st'.env;
    }
  }

  lemma ReplaceStep(w: World, code: Code, st: State, j: Point, v: Operand)
    requires WellFormed(code) && IsPath(code, st.hist) && st.Pc() < |code|
    requires j < |code| && Removable(code[j]) && Available(code, j, v)
    requires NoUses(code, j) || StillEqual(w, st, j, v)
    ensures Agree(Step(w, code, st), Step(w, ReplaceAndErase(code, j, v), st.(env := st.env - {j})), j)
  {
    hide WellFormed, Edge, Step, ReplaceAndErase, Available, StillEqual;
    var x := code[st.Pc()];
    forall o | o in Operands(x) ensures Eval(w, st.env, o) == Eval(w, st.env - {j}, Rewire(j, v, o)) {
      if o == Reg(j) {
        assert Uses(x, j);
        UseReadsSame(w, code, st, j, v);
      }
    }
    RewiredStep(w, code, st, j, v);
  }

  /** The two programs run in lock step; every other value, the memory and all events agree. */
  lemma {:induction false} ReplaceSimulation(w: World, code: Code, j: Point, v: Operand, n: nat)
    requires WellFormed(code) && j < |code| && Removable(code[j]) && Available(code, j, v)
    requires NoUses(code, j) || EqualAt(w, code, j, v)
    ensures Agree(Run(w, code, n), Run(w, ReplaceAndErase(code, j, v), n), j)
    ensures NoUses(code, j) || StillEqual(w, Run(w, code, n), j, v)
  {
    hide UsesOk, FlowOk, SitesOk, ReachOk, SDom, Step, ReplaceAndErase;
    if n == 0 {
      assert Start(w).env - {j} == Start(w).env;
    } else {
      var st := Run(w, code, n - 1);
      RunIsPath(w, code, n - 1);
      ReplaceSimulation(w, code, j, v, n - 1);
      ReplaceStep(w, code, st, j, v);
      if !NoUses(code, j) {
        StillEqualStep(w, code, st, j, v);
      }
    }
  }

  lemma ReplacePreserves(w: World, code: Code, j: Point, v: Operand)
    requires WellFormed(code) && j < |code| && Removable(code[j]) && Available(code, j, v)
    requires NoUses(code, j) || EqualAt(w, code, j, v)
    ensures SameBehaviour(w, code, ReplaceAndErase(code, j, v))
  {
    hide Run, WellFormed, SDom;
    var code' := ReplaceAndErase(code, j, v);
    forall n: nat ensures Observe(Run(w, code, n)) == Observe(Run(w, code', n)) {
      ReplaceSimulation(w, code, j, v, n);
    }
    LockStep(w, code, code');
  }
}
