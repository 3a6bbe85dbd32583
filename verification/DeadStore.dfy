/**
  A store that a later store of the same block overwrites before anything can look at the cell.
*/
module DeadStore {
  import opened IR
  import opened Dominance
  import opened AvailableValues

  /** code[t] overwrites what code[i] stored, and nothing between them touches memory. */
  predicate Overwritten(code: Code, i: Point, t: Point) {
    && i < t && InBlock(code, i, t)
    && code[i].Store? && !code[i].vol
    && code[t].Store? && code[t].ty == code[i].ty && code[t].addr == code[i].addr
    && forall k :: i < k < t ==> !code[k].Load? && !code[k].Store? && !code[k].Call?
  }

  /** Equal states, except that between the two stores the cell still lacks the first value. */
  ghost predicate Masks(w: World, code: Code, i: Point, t: Point, st: State, st': State)
    requires i < |code| && code[i].Store?
  {
    && st.hist != [] && st.hist == st'.hist && st.env == st'.env && st.out == st'.out && st.status == st'.status
    && st.mem == (if i < st.Pc() <= t
                  then WriteCells(st'.mem, Eval(w, st.env, code[i].addr),
                                  w.encode(code[i].ty, Eval(w, st.env, code[i].val)))
                  else st'.mem)
  }

  /** Between the stores no operand of the first one is redefined. */
  lemma StoreOperandsStay(code: Code, i: Point, k: Point)
    requires WellFormed(code) && i < k && InBlock(code, i, k)
    ensures !Uses(code[i], k)
  {
    hide SDom, Edge, FlowOk, SitesOk;
    if Uses(code[i], k) {
      assert UseOk(code, i, k);
      SameBlockDominates(code, i, k);
      SDomTransitive(code, k, i, k);
      StrictDominance(code, k, k);
    }
  }

  lemma MaskStep(w: World, code: Code, i: Point, t: Point, st: State, st': State)
    requires WellFormed(code) && LayoutOk(w) && t < |code| && Overwritten(code, i, t)
    requires IsPath(code, st.hist) && st.Pc() < |code| && Masks(w, code, i, t, st, st')
    ensures Masks(w, code, i, t, Step(w, code, st), Step(w, code[i := Erased], st'))
  {
    hide UsesOk, SDom, SitesOk, ReachOk, IsPath, WriteCells, LayoutOk;
    var pc, x, y := st.Pc(), code[st.Pc()], code[i];
    if st.status.Running? && !x.Ret? {
      var q := NextPc(w, st, x);
      assert !IsTerminator(x) ==> q == pc + 1;
      assert IsTerminator(x) ==> IsLeader(code, q) && !(i < q <= t) && !(i <= pc < t);
      if i < pc < t {
        StoreOperandsStay(code, i, pc);
        assert forall o :: o in Operands(y) ==> Eval(w, NextEnv(w, st, x), o) == Eval(w, st.env, o);
      } else if pc == t {
        assert |w.encode(y.ty, Eval(w, st.env, y.val))| == |w.encode(x.ty, Eval(w, st.env, x.val))| by {
          WidthFixed(w, y.ty, Eval(w, st.env, y.val), Eval(w, st.env, x.val));
        }
        WriteOver(st'.mem, Eval(w, st.env, y.addr), w.encode(y.ty, Eval(w, st.env, y.val)), w.encode(x.ty, Eval(w, st.env, x.val)));
      }
    }
  }

  lemma WidthFixed(w: World, ty: nat, a: int, b: int)
    requires LayoutOk(w)
    ensures |w.encode(ty, a)| == |w.encode(ty, b)|
  {
  }

  lemma {:induction false} MaskRun(w: World, code: Code, i: Point, t: Point, n: nat)
    requires WellFormed(code) && LayoutOk(w) && t < |code| && Overwritten(code, i, t)
    ensures Masks(w, code, i, t, Run(w, code, n), Run(w, code[i := Erased], n))
  {
    hide UsesOk, SDom, SitesOk, ReachOk, LayoutOk, Step;
    if n > 0 {
      RunIsPath(w, code, n - 1);
      MaskRun(w, code, i, t, n - 1);
      MaskStep(w, code, i, t, Run(w, code, n - 1), Run(w, code[i := Erased], n - 1));
    }
  }

  lemma {:induction false} ReturnedAtRet(w: World, code: Code, n: nat)
    requires FlowOk(code)
    ensures var st := Run(w, code, n); st.status.Returned? ==> st.Pc() < |code| && code[st.Pc()].Ret?
  {
    if n > 0 {
      ReturnedAtRet(w, code, n - 1);
    }
  }

  /** Erasing an overwritten store changes nothing that can be observed. */
  lemma DeadStorePreserves(w: World, code: Code, i: Point, t: Point)
    requires WellFormed(code) && LayoutOk(w) && t < |code| && Overwritten(code, i, t)
    ensures SameBehaviour(w, code, code[i := Erased])
  {
    hide Run, FlowOk, UsesOk, SDom, SitesOk, ReachOk, LayoutOk;
    forall n: nat ensures Observe(Run(w, code, n)) == Observe(Run(w, code[i := Erased], n)) {
      MaskRun(w, code, i, t, n);
      ReturnedAtRet(w, code, n);
    }
    LockStep(w, code, code[i := Erased]);
  }

  lemma EraseStoreWellFormed(code: Code, i: Point)
    requires WellFormed(code) && i < |code| && code[i].Store?
    ensures WellFormed(code[i := Erased]) && SameFlow(code, code[i := Erased])
  {
    hide SDom, Reachable;
    var code' := code[i := Erased];
    SameFlowPaths(code, code');
    SameFlowOk(code, code');
    forall p, d | 0 <= p < |code'| && Uses(code'[p], d) ensures UseOk(code', p, d) {
      assert UseOk(code, p, d);
    }
  }
}
