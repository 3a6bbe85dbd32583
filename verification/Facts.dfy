/**
  What the last execution of an instruction still says about the current state: the value it
  computed is the value it would compute now, as long as nothing in between redefined an
  operand or wrote the cell it read or wrote.
*/
module Facts {
  import opened IR
  import opened Dominance

  /** A global or an alloca: an object of its own that overlaps no other. */
  predicate IsObject(code: Code, o: Operand) {
    o.Global? || (o.Reg? && o.p < |code| && code[o.p].Alloca?)
  }

  predicate KnownDistinct(code: Code, a: Operand, b: Operand) {
    a != b && IsObject(code, a) && IsObject(code, b)
  }

  ghost predicate MayWrite(w: World, code: Code, x: Inst, cell: Operand) {
    match x
    case Store(_, _, a, _) => !KnownDistinct(code, a, cell)
    case Call(_, _) => !CallsKeepMemory(w)
    case _ => false
  }

  /** Executing p may make what the last execution of d established untrue. */
  ghost predicate Kills(w: World, code: Code, d: Point, p: Point)
    requires d < |code| && p < |code|
  {
    || Uses(code[d], p)
    || ((code[d].Load? || code[d].Store?) && MayWrite(w, code, code[p], code[d].addr))
  }

  ghost predicate Holds(w: World, code: Code, d: Point, st: State)
    requires d < |code|
  {
    match code[d]
    case Pure(_, _) => d in st.env && st.env[d] == ValueOf(w, st, code[d])
    case Load(_, _, _) => d in st.env && st.env[d] == ValueOf(w, st, code[d])
    case Store(ty, v, a, _) => ReadCells(st.mem, Eval(w, st.env, a), w.width(ty)) == w.encode(ty, Eval(w, st.env, v))
    case _ => true
  }

  ghost predicate Unkilled(w: World, code: Code, hist: seq<Point>, d: Point, i: nat)
    requires d < |code| && forall k :: 0 <= k < |hist| ==> hist[k] < |code|
  {
    forall k :: i < k < |hist| - 1 ==> !Kills(w, code, d, hist[k])
  }

  ghost predicate InCode(code: Code, hist: seq<Point>) {
    hist != [] && forall k :: 0 <= k < |hist| ==> hist[k] < |code|
  }

  ghost predicate EnvOk(w: World, code: Code, st: State) {
    && InCode(code, st.hist)
    && (forall k :: 0 <= k < |st.hist| - 1 && Produces(code[st.hist[k]]) ==> st.hist[k] in st.env)
    && (forall a :: a in st.env && a < |code| && code[a].Alloca? ==> st.env[a] == w.frame(code[a].site))
  }

  ghost predicate FactsOk(w: World, code: Code, st: State) {
    && InCode(code, st.hist)
    && forall d: Point, i: nat :: d < |code| && LastAt(st.hist, d, i) && Unkilled(w, code, st.hist, d, i) ==> Holds(w, code, d, st)
  }

  lemma PathInCode(code: Code, path: seq<Point>)
    requires IsPath(code, path) && path[|path| - 1] < |code|
    ensures InCode(code, path)
  {
    forall k | 0 <= k < |path| ensures path[k] < |code| {
      if k < |path| - 1 {
        assert Edge(code, path[k], path[k + 1]);
      }
    }
  }

  lemma EvalAgree(w: World, env: map<Point, int>, env': map<Point, int>, os: seq<Operand>)
    requires forall o :: o in os ==> Eval(w, env, o) == Eval(w, env', o)
    ensures EvalAll(w, env, os) == EvalAll(w, env', os)
  {
  }

  /** The operands of the slot about to execute are defined, and objects hold their address. */
  lemma OperandDefined(w: World, code: Code, st: State, k: nat, d: Point)
    requires WellFormed(code) && IsPath(code, st.hist) && EnvOk(w, code, st)
    requires k < |st.hist| && Uses(code[st.hist[k]], d)
    ensures d in st.env
  {
    PathPrefix(code, st.hist, k);
    assert UseOk(code, st.hist[k], d);
    assert d in st.hist[..k + 1][..k];
    var e :| 0 <= e < k && st.hist[e] == d;
  }

  function ObjectAddress(w: World, code: Code, o: Operand): int
    requires IsObject(code, o)
  {
    if o.Global? then w.global(o.g) else w.frame(code[o.p].site)
  }

  lemma ObjectEval(w: World, code: Code, st: State, k: nat, o: Operand)
    requires WellFormed(code) && IsPath(code, st.hist) && EnvOk(w, code, st)
    requires k < |st.hist| && o in Operands(code[st.hist[k]]) && IsObject(code, o)
    ensures Eval(w, st.env, o) == ObjectAddress(w, code, o)
  {
    if o.Reg? {
      OperandDefined(w, code, st, k, o.p);
    }
  }

  lemma ObjectsApart(w: World, code: Code, a: Operand, b: Operand, m: nat, n: nat)
    requires LayoutOk(w) && SitesOk(code) && KnownDistinct(code, a, b)
    ensures Apart(ObjectAddress(w, code, a), w.width(m), ObjectAddress(w, code, b), w.width(n))
  {
    if a.Reg? && b.Reg? {
      assert code[a.p] != code[b.p];
    } else if a.Reg? {
      assert Apart(w.global(b.g), w.width(n), w.frame(code[a.p].site), w.width(m));
    }
  }

  /** A step only adds the value of the slot it executes; that of an alloca is its frame address. */
  lemma EnvGrows(w: World, code: Code, st: State)
    requires st.hist != [] && st.Pc() < |code|
    ensures var t, pc := Step(w, code, st), st.Pc();
      && (forall a :: a in st.env ==> a in t.env)
      && (t.hist != st.hist && Produces(code[pc]) ==> pc in t.env)
      && (forall a :: a in t.env && a != pc ==> a in st.env && t.env[a] == st.env[a])
      && (code[pc].Alloca? && pc in t.env ==> t.env[pc] == w.frame(code[pc].site) || (pc in st.env && t.env[pc] == st.env[pc]))
  {
    hide Eval, EvalAll, ReadCells, WriteCells;
  }

  lemma EnvStep(w: World, code: Code, st: State)
    requires WellFormed(code) && IsPath(code, st.hist) && EnvOk(w, code, st)
    ensures EnvOk(w, code, Step(w, code, st))
  {
    hide UsesOk, SitesOk, ReachOk, FlowOk, IsPath, Step, Produces;
    StepFollowsEdge(w, code, st);
    PathInCode(code, Step(w, code, st).hist);
    EnvGrows(w, code, st);
  }

  /** Executing p leaves what d established true unless p is one of the things that kill it. */
  lemma StepKeepsFact(w: World, code: Code, st: State, d: Point, i: nat)
    requires WellFormed(code) && LayoutOk(w) && IsPath(code, st.hist) && EnvOk(w, code, st)
    requires st.status.Running? && st.Pc() < |code|
    requires d < |code| && d != st.Pc() && i < |st.hist| && st.hist[i] == d
    requires Holds(w, code, d, st) && !Kills(w, code, d, st.Pc())
    ensures Holds(w, code, d, Step(w, code, st))
  {
    hide UsesOk, FlowOk, SitesOk, ReachOk, IsPath, EnvOk;
    var pc, st' := st.Pc(), Step(w, code, st);
    var x := code[d];
    forall o | o in Operands(x) ensures Eval(w, st.env, o) == Eval(w, st'.env, o) {
      assert o == Reg(pc) ==> Uses(x, pc);
    }
    if x.Pure? {
      EvalAgree(w, st.env, st'.env, x.args);
    } else if x.Load? || x.Store? {
      if code[pc].Store? {
        var y := code[pc];
        ObjectEval(w, code, st, |st.hist| - 1, y.addr);
        ObjectEval(w, code, st, i, x.addr);
        ObjectsApart(w, code, y.addr, x.addr, y.ty, x.ty);
        ReadApart(st.mem, Eval(w, st.env, y.addr), w.encode(y.ty, Eval(w, st.env, y.val)), Eval(w, st.env, x.addr), w.width(x.ty));
      }
    }
  }

  lemma StepMakesFact(w: World, code: Code, st: State)
    requires WellFormed(code) && LayoutOk(w) && IsPath(code, st.hist) && st.status.Running? && st.Pc() < |code|
    ensures Holds(w, code, st.Pc(), Step(w, code, st))
  {
    var pc, st' := st.Pc(), Step(w, code, st);
    var x := code[pc];
    hide SDom, Edge, FlowOk, SitesOk, ReachOk;
    SDomIrreflexive(code, st.hist, pc);
    forall o | o in Operands(x) ensures Eval(w, st.env, o) == Eval(w, st'.env, o) {
      assert o != Reg(pc) by {
        assert Uses(x, pc) ==> UseOk(code, pc, pc);
      }
    }
    if x.Pure? {
      EvalAgree(w, st.env, st'.env, x.args);
    } else if x.Store? {
      ReadBack(st.mem, Eval(w, st.env, x.addr), w.encode(x.ty, Eval(w, st.env, x.val)));
    }
  }

  /** Seen from one slot further on, an earlier last execution is still the last one. */
  lemma LastBefore(w: World, code: Code, hist: seq<Point>, q: Point, d: Point, i: nat)
    requires InCode(code, hist) && q < |code| && d < |code| && d != hist[|hist| - 1]
    requires LastAt(hist + [q], d, i) && Unkilled(w, code, hist + [q], d, i)
    ensures LastAt(hist, d, i) && Unkilled(w, code, hist, d, i) && !Kills(w, code, d, hist[|hist| - 1])
  {
    var h := hist + [q];
    assert h[|hist| - 1] == hist[|hist| - 1];
    assert forall k :: i < k < |hist| - 1 ==> hist[k] == h[k];
  }

  lemma FactStep(w: World, code: Code, st: State, q: Point, d: Point, i: nat)
    requires WellFormed(code) && LayoutOk(w) && IsPath(code, st.hist) && EnvOk(w, code, st) && FactsOk(w, code, st)
    requires Step(w, code, st).hist == st.hist + [q] && q < |code| && d < |code|
    requires LastAt(st.hist + [q], d, i) && InCode(code, st.hist + [q]) && Unkilled(w, code, st.hist + [q], d, i)
    ensures Holds(w, code, d, Step(w, code, st))
  {
    if d == st.Pc() {
      StepMakesFact(w, code, st);
    } else {
      LastBefore(w, code, st.hist, q, d, i);
      StepKeepsFact(w, code, st, d, i);
    }
  }

  lemma FactsStep(w: World, code: Code, st: State)
    requires WellFormed(code) && LayoutOk(w) && IsPath(code, st.hist) && EnvOk(w, code, st) && FactsOk(w, code, st)
    ensures FactsOk(w, code, Step(w, code, st))
  {
    var st' := Step(w, code, st);
    StepFollowsEdge(w, code, st);
    PathInCode(code, st'.hist);
    if st'.hist != st.hist {
      forall d: Point, i: nat | d < |code| && LastAt(st'.hist, d, i) && Unkilled(w, code, st'.hist, d, i)
        ensures Holds(w, code, d, st')
      {
        FactStep(w, code, st, st'.Pc(), d, i);
      }
    } else {
      StillFacts(w, code, st);
    }
  }

  lemma StillFacts(w: World, code: Code, st: State)
    requires FactsOk(w, code, st) && Step(w, code, st).hist == st.hist
    ensures FactsOk(w, code, Step(w, code, st))
  {
    var st' := Step(w, code, st);
    assert st' == st.(status := st'.status);
    forall d: Point, i: nat | d < |code| && LastAt(st'.hist, d, i) && Unkilled(w, code, st'.hist, d, i)
      ensures Holds(w, code, d, st')
    {
      assert Holds(w, code, d, st);
    }
  }

  /** What every reachable state satisfies. */
  ghost predicate Sound(w: World, code: Code, st: State) {
    IsPath(code, st.hist) && EnvOk(w, code, st) && FactsOk(w, code, st)
  }

  lemma SoundStep(w: World, code: Code, st: State)
    requires WellFormed(code) && LayoutOk(w) && Sound(w, code, st)
    ensures Sound(w, code, Step(w, code, st))
  {
    StepFollowsEdge(w, code, st);
    EnvStep(w, code, st);
    FactsStep(w, code, st);
  }

  lemma SoundStart(w: World, code: Code)
    requires WellFormed(code)
    ensures Sound(w, code, Start(w))
  {
  }

  lemma {:induction false} RunSound(w: World, code: Code, n: nat)
    requires WellFormed(code) && LayoutOk(w)
    ensures Sound(w, code, Run(w, code, n))
  {
    if n == 0 {
      SoundStart(w, code);
    } else {
      RunSound(w, code, n - 1);
      SoundStep(w, code, Run(w, code, n - 1));
    }
  }
}
