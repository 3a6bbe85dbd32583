/**
  Making room: inserting a vacant slot in front of a terminator, the first half of
  `moveBefore(preHeader->getTerminator())`. Every later slot gets a new number, and the
  function behaves as before.
*/
module Slots {
  import opened IR
  import opened Dominance
  import opened Facts

  function Shift(t: Point, p: Point): Point {
    if p < t then p else p + 1
  }

  function Unshift(t: Point, p: Point): Point
    requires p != t
  {
    if p < t then p else p - 1
  }

  /** Jumps to t now enter at the vacant slot. */
  function ShiftTarget(t: Point, q: Point): Point {
    if q <= t then q else q + 1
  }

  function ShiftOperand(t: Point, o: Operand): Operand {
    if o.Reg? then Reg(Shift(t, o.p)) else o
  }

  function ShiftAll(t: Point, os: seq<Operand>): (r: seq<Operand>)
    ensures |r| == |os| && forall i :: 0 <= i < |os| ==> r[i] == ShiftOperand(t, os[i])
  {
    seq(|os|, i requires 0 <= i < |os| => ShiftOperand(t, os[i]))
  }

  function ShiftInst(t: Point, x: Inst): Inst {
    match x
    case Pure(op, args) => Pure(op, ShiftAll(t, args))
    case Alloca(_) => x
    case Load(ty, a, vol) => Load(ty, ShiftOperand(t, a), vol)
    case Store(ty, v, a, vol) => Store(ty, ShiftOperand(t, v), ShiftOperand(t, a), vol)
    case Call(f, args) => Call(f, ShiftAll(t, args))
    case Br(c, a, b) => Br(ShiftOperand(t, c), ShiftTarget(t, a), ShiftTarget(t, b))
    case Ret(v) => Ret(ShiftOperand(t, v))
    case Erased => x
  }

  function InsertSlot(code: Code, t: Point): (r: Code)
    requires t < |code|
    ensures |r| == |code| + 1 && r[t] == Erased
  {
    seq(|code| + 1, p requires 0 <= p < |code| + 1 =>
      if p < t then ShiftInst(t, code[p]) else if p == t then Erased else ShiftInst(t, code[p - 1]))
  }

  lemma SlotAt(code: Code, t: Point, p': Point)
    requires t < |code| && p' <= |code| && p' != t
    ensures InsertSlot(code, t)[p'] == ShiftInst(t, code[Unshift(t, p')])
    ensures Shift(t, Unshift(t, p')) == p'
  {
  }

  /** The edges of the new function are the old ones, with t entered through the slot. */
  lemma SlotEdge(code: Code, t: Point, p': Point, q': Point)
    requires t < |code|
    ensures Edge(InsertSlot(code, t), p', q') <==>
      (if p' == t then q' == t + 1
       else q' != t + 1 && Edge(code, Unshift(t, p'), if q' == t then t else Unshift(t, q')))
  {
    if p' <= |code| && p' != t {
      SlotAt(code, t, p');
    }
  }

  // ------------------------------------------------------------ paths

  /** The path of the old function that a path of the new one walks. */
  function Project(t: Point, s: seq<Point>): (r: seq<Point>) {
    if s == [] then []
    else
      var q := s[|s| - 1];
      Project(t, s[..|s| - 1]) + if q == t then [] else [Unshift(t, q)]
  }

  lemma PathInit(code: Code, path: seq<Point>)
    requires IsPath(code, path) && |path| > 1
    ensures IsPath(code, path[..|path| - 1]) && Edge(code, path[|path| - 2], path[|path| - 1])
  {
    PathPrefix(code, path, |path| - 2);
    assert path[|path| - 2 + 1] == path[|path| - 1];
  }

  lemma PathSnoc(code: Code, path: seq<Point>, q: Point)
    requires IsPath(code, path) && Edge(code, path[|path| - 1], q)
    ensures IsPath(code, path + [q])
  {
    var s := path + [q];
    forall i {:trigger s[i]} | 0 <= i < |s| - 1 ensures Edge(code, s[i], s[i + 1]) {
      if i < |path| - 1 {
        assert Edge(code, path[i], path[i + 1]);
      }
    }
  }

  /** The projected path, completed by t when the new path has just reached the slot. */
  function Projected(t: Point, s: seq<Point>): seq<Point>
    requires s != []
  {
    Project(t, s) + if s[|s| - 1] == t then [t] else []
  }

  lemma {:induction false} ProjectPath(code: Code, t: Point, path': seq<Point>)
    requires t < |code| && IsPath(InsertSlot(code, t), path')
    ensures IsPath(code, Projected(t, path'))
    decreases |path'|
  {
    var code' := InsertSlot(code, t);
    var n := |path'| - 1;
    var q' := path'[n];
    if n == 0 {
      assert Project(t, path'[..0]) == [];
    } else {
      var pre := path'[..n];
      PathInit(code', path');
      ProjectPath(code, t, pre);
      var p' := path'[n - 1];
      SlotEdge(code, t, p', q');
      if p' != t {
        PathSnoc(code, Projected(t, pre), if q' == t then t else Unshift(t, q'));
      }
      assert Projected(t, path') == if p' == t then Projected(t, pre) else Projected(t, pre) + [if q' == t then t else Unshift(t, q')];
    }
  }

  lemma {:induction false} ProjectMember(t: Point, s: seq<Point>, d: Point)
    requires d in Project(t, s)
    ensures Shift(t, d) in s
    decreases |s|
  {
    var n := |s| - 1;
    if d in Project(t, s[..n]) {
      ProjectMember(t, s[..n], d);
      assert Shift(t, d) in s[..n];
    } else {
      assert s[n] == Shift(t, d);
    }
  }

  lemma SlotPath(code: Code, t: Point, d: Point, p: Point, path': seq<Point>)
    requires t < |code| && SDom(code, d, p) && path' != [] && IsPath(InsertSlot(code, t), path') && path'[|path'| - 1] == Shift(t, p)
    ensures Shift(t, d) in path'[..|path'| - 1]
  {
    hide IsPath, SDom, InsertSlot, Project;
    ProjectPath(code, t, path');
    assert Projected(t, path') == Project(t, path'[..|path'| - 1]) + [p] by {
      ProjectedEnd(t, p, path');
    }
    InInit(code, Project(t, path'[..|path'| - 1]), p, d);
    ProjectMember(t, path'[..|path'| - 1], d);
  }

  lemma ProjectedEnd(t: Point, p: Point, path': seq<Point>)
    requires path' != [] && path'[|path'| - 1] == Shift(t, p)
    ensures Projected(t, path') == Project(t, path'[..|path'| - 1]) + [p]
  {
  }

  lemma SlotDominance(code: Code, t: Point, d: Point, p: Point)
    requires t < |code| && SDom(code, d, p)
    ensures SDom(InsertSlot(code, t), Shift(t, d), Shift(t, p))
  {
    forall path' | IsPath(InsertSlot(code, t), path') && path'[|path'| - 1] == Shift(t, p)
      ensures Shift(t, d) in path'[..|path'| - 1]
    {
      SlotPath(code, t, d, p, path');
    }
  }

  lemma InInit(code: Code, init: seq<Point>, p: Point, d: Point)
    requires SDom(code, d, p) && IsPath(code, init + [p])
    ensures d in init
  {
    assert (init + [p])[..|init + [p]| - 1] == init;
  }

  /** Entering old slot q: one edge, or two when the way leads through the vacant slot. */
  lemma EmbedEdge(code: Code, t: Point, path': seq<Point>, p: Point, q: Point) returns (r: seq<Point>)
    requires t < |code| && IsPath(InsertSlot(code, t), path') && path'[|path'| - 1] == Shift(t, p) && Edge(code, p, q)
    ensures IsPath(InsertSlot(code, t), r) && r[|r| - 1] == Shift(t, q)
  {
    hide Edge, InsertSlot;
    SlotEdge(code, t, Shift(t, p), ShiftTarget(t, q));
    PathSnoc(InsertSlot(code, t), path', ShiftTarget(t, q));
    r := path' + [ShiftTarget(t, q)];
    if q == t {
      r := ThroughSlot(code, t, r);
    }
  }

  lemma ThroughSlot(code: Code, t: Point, path': seq<Point>) returns (r: seq<Point>)
    requires t < |code| && IsPath(InsertSlot(code, t), path') && path'[|path'| - 1] == t
    ensures IsPath(InsertSlot(code, t), r) && r[|r| - 1] == t + 1
  {
    hide Edge, InsertSlot;
    SlotEdge(code, t, t, t + 1);
    PathSnoc(InsertSlot(code, t), path', t + 1);
    r := path' + [t + 1];
  }

  lemma {:induction false} EmbedPath(code: Code, t: Point, path: seq<Point>) returns (path': seq<Point>)
    requires t < |code| && IsPath(code, path)
    ensures IsPath(InsertSlot(code, t), path') && path'[|path'| - 1] == Shift(t, path[|path| - 1])
    decreases |path|
  {
    hide Edge, InsertSlot;
    var n := |path| - 1;
    if n == 0 {
      path' := [0];
      if t == 0 {
        path' := ThroughSlot(code, t, path');
      }
    } else {
      PathInit(code, path);
      path' := EmbedPath(code, t, path[..n]);
      path' := EmbedEdge(code, t, path', path[n - 1], path[n]);
    }
  }

  lemma SlotReachable(code: Code, t: Point)
    requires t < |code| && ReachOk(code)
    ensures ReachOk(InsertSlot(code, t))
  {
    var code' := InsertSlot(code, t);
    forall p' | 0 <= p' < |code'| ensures Reachable(code', p') {
      var p := if p' == t then t else Unshift(t, p');
      assert Reachable(code, p);
      var path :| IsPath(code, path) && path[|path| - 1] == p;
      var path' := EmbedPath(code, t, path);
      if p' == t {
        EndsThroughSlot(code, t, path');
      }
    }
  }

  lemma EndsThroughSlot(code: Code, t: Point, path': seq<Point>)
    requires t < |code| && IsPath(InsertSlot(code, t), path') && path'[|path'| - 1] == t + 1
    ensures |path'| > 1 && path'[|path'| - 2] == t
    ensures Reachable(InsertSlot(code, t), t)
  {
    PathInit(InsertSlot(code, t), path');
    SlotEdge(code, t, path'[|path'| - 2], t + 1);
    assert path'[..|path'| - 1][|path'| - 2] == t;
  }

  lemma ShiftedUses(t: Point, x: Inst, d': Point)
    requires Uses(ShiftInst(t, x), d')
    ensures d' != t && Uses(x, Unshift(t, d'))
  {
    var y := ShiftInst(t, x);
    var i :| 0 <= i < |Operands(y)| && Operands(y)[i] == Reg(d');
    assert Operands(y)[i] == ShiftOperand(t, Operands(x)[i]);
    assert Operands(x)[i] == Reg(Unshift(t, d'));
  }

  lemma SlotUsesOk(code: Code, t: Point)
    requires t < |code| && UsesOk(code)
    ensures UsesOk(InsertSlot(code, t))
  {
    hide SDom, InsertSlot, ShiftInst;
    var code' := InsertSlot(code, t);
    forall p': Point, d': Point | p' < |code'| && Uses(code'[p'], d') ensures UseOk(code', p', d') {
      assert p' != t;
      SlotUse(code, t, p', d');
    }
  }

  lemma SlotUse(code: Code, t: Point, p': Point, d': Point)
    requires t < |code| && UsesOk(code) && p' <= |code| && p' != t && Uses(InsertSlot(code, t)[p'], d')
    ensures UseOk(InsertSlot(code, t), p', d')
  {
    hide SDom, InsertSlot, ShiftInst, UsesOk;
    var p := Unshift(t, p');
    SlotAt(code, t, p');
    ShiftedUses(t, code[p], d');
    var d := Unshift(t, d');
    assert UseOk(code, p, d) by {
      UseAt(code, p, d);
    }
    SlotAt(code, t, d');
    ShiftKinds(t, code[d]);
    SlotDominance(code, t, d, p);
  }

  lemma UseAt(code: Code, p: Point, d: Point)
    requires UsesOk(code) && p < |code| && Uses(code[p], d)
    ensures UseOk(code, p, d)
  {
  }

  lemma SlotLeader(code: Code, t: Point, l: Point)
    requires t < |code| && IsLeader(code, l)
    ensures IsLeader(InsertSlot(code, t), ShiftTarget(t, l))
  {
    hide InsertSlot, ShiftInst;
    if l > 0 {
      SlotAt(code, t, ShiftTarget(t, l) - 1);
      ShiftKinds(t, code[l - 1]);
    }
  }

  lemma SlotFlowOk(code: Code, t: Point)
    requires t < |code| && FlowOk(code)
    ensures FlowOk(InsertSlot(code, t))
  {
    hide InsertSlot, IsLeader;
    var code' := InsertSlot(code, t);
    SlotAt(code, t, |code|);
    forall p': Point | p' < |code'| && code'[p'].Br?
      ensures IsLeader(code', code'[p'].thn) && IsLeader(code', code'[p'].els)
    {
      SlotAt(code, t, p');
      var x := code[Unshift(t, p')];
      SlotLeader(code, t, x.thn);
      SlotLeader(code, t, x.els);
    }
  }

  lemma SlotSitesOk(code: Code, t: Point)
    requires t < |code| && SitesOk(code)
    ensures SitesOk(InsertSlot(code, t))
  {
    var code' := InsertSlot(code, t);
    forall p: Point, q: Point | p < |code'| && q < |code'| && code'[p].Alloca? && code'[p] == code'[q] ensures p == q {
      SlotAt(code, t, p);
      SlotAt(code, t, q);
    }
  }

  lemma SlotWellFormed(code: Code, t: Point)
    requires WellFormed(code) && t < |code|
    ensures WellFormed(InsertSlot(code, t))
  {
    hide FlowOk, UsesOk, SitesOk, ReachOk;
    SlotFlowOk(code, t);
    SlotUsesOk(code, t);
    SlotSitesOk(code, t);
    SlotReachable(code, t);
  }

  // ------------------------------------------------------------ simulation

  /** The same state up to the new numbers; the new run may still be in the slot before t. */
  ghost predicate Renumbered(t: Point, s: State, s': State) {
    && s.hist != [] && s'.hist != []
    && (s'.Pc() == Shift(t, s.Pc()) || (s.Pc() == t && s'.Pc() == t))
    && s'.mem == s.mem && s'.out == s.out && s'.status == s.status
    && forall d: Point :: (d in s.env <==> Shift(t, d) in s'.env) && (d in s.env ==> s'.env[Shift(t, d)] == s.env[d])
  }

  lemma ShiftedEval(w: World, t: Point, s: State, s': State)
    requires Renumbered(t, s, s')
    ensures forall o :: Eval(w, s'.env, ShiftOperand(t, o)) == Eval(w, s.env, o)
    ensures forall os :: EvalAll(w, s'.env, ShiftAll(t, os)) == EvalAll(w, s.env, os)
  {
    forall o ensures Eval(w, s'.env, ShiftOperand(t, o)) == Eval(w, s.env, o) {
      if o.Reg? {
        assert o.p in s.env <==> Shift(t, o.p) in s'.env;
      }
    }
    ShiftedEvalAll(w, t, s.env, s'.env);
  }

  lemma ShiftedEvalAll(w: World, t: Point, e: map<Point, int>, e': map<Point, int>)
    requires forall o :: Eval(w, e', ShiftOperand(t, o)) == Eval(w, e, o)
    ensures forall os :: EvalAll(w, e', ShiftAll(t, os)) == EvalAll(w, e, os)
  {
    hide Eval, ShiftOperand;
  }

  lemma ShiftedEffect(w: World, t: Point, s: State, s': State, x: Inst)
    requires Renumbered(t, s, s')
    ensures var y := ShiftInst(t, x);
      && (Produces(x) ==> Produces(y) && ValueOf(w, s', y) == ValueOf(w, s, x))
      && NextMem(w, s', y) == NextMem(w, s, x)
      && NextOut(w, s', y) == NextOut(w, s, x)
      && (x.Br? ==> NextPc(w, s', y) == ShiftTarget(t, NextPc(w, s, x)))
      && (x.Ret? ==> Eval(w, s'.env, y.val) == Eval(w, s.env, x.val))
  {
    hide Eval, EvalAll, ShiftOperand, Renumbered, WriteCells, ReadCells, LoadValue;
    ShiftedEval(w, t, s, s');
    SameMemory(t, s, s');
    assert Produces(x) ==> ValueOf(w, s', ShiftInst(t, x)) == ValueOf(w, s, x);
  }

  lemma SameMemory(t: Point, s: State, s': State)
    requires Renumbered(t, s, s')
    ensures s.hist != [] && s'.hist != [] && s.mem == s'.mem && s.out == s'.out && s.status == s'.status
  {
  }

  lemma ShiftedStep(w: World, code: Code, t: Point, s: State, s': State)
    requires t < |code| && Renumbered(t, s, s') && s'.Pc() == Shift(t, s.Pc())
    ensures Renumbered(t, Step(w, code, s), Step(w, InsertSlot(code, t), s'))
  {
    hide InsertSlot, NextMem, NextOut, NextEnv, NextPc, Eval, ShiftInst, Renumbered;
    SameMemory(t, s, s');
    if s.status.Running? && s.Pc() < |code| {
      SlotAt(code, t, s'.Pc());
      ShiftKinds(t, code[s.Pc()]);
      if code[s.Pc()].Ret? {
        ShiftedEffect(w, t, s, s', code[s.Pc()]);
        NewStatus(t, s, s', Returned(Eval(w, s.env, code[s.Pc()].val)));
      } else {
        ShiftedMove(w, t, s, s', code[s.Pc()]);
      }
    }
  }

  lemma NewStatus(t: Point, s: State, s': State, r: Status)
    requires Renumbered(t, s, s')
    ensures Renumbered(t, s.(status := r), s'.(status := r))
  {
  }

  lemma ShiftedMove(w: World, t: Point, s: State, s': State, x: Inst)
    requires Renumbered(t, s, s') && s'.Pc() == Shift(t, s.Pc()) && !x.Ret? && s.status.Running?
    ensures var y := ShiftInst(t, x);
      Renumbered(t, State(s.hist + [NextPc(w, s, x)], NextEnv(w, s, x), NextMem(w, s, x), NextOut(w, s, x), Running),
        State(s'.hist + [NextPc(w, s', y)], NextEnv(w, s', y), NextMem(w, s', y), NextOut(w, s', y), Running))
  {
    hide NextMem, NextOut, NextEnv, NextPc, ShiftInst;
    ShiftedEffect(w, t, s, s', x);
    ShiftedEnv(w, t, s, s', x);
    ShiftedPc(w, t, s, s', x);
  }

  lemma ShiftedPc(w: World, t: Point, s: State, s': State, x: Inst)
    requires Renumbered(t, s, s') && s'.Pc() == Shift(t, s.Pc()) && !x.Ret?
    ensures var q, q' := NextPc(w, s, x), NextPc(w, s', ShiftInst(t, x)); q' == Shift(t, q) || (q == t && q' == t)
  {
    hide Eval;
    ShiftedEffect(w, t, s, s', x);
  }

  lemma ShiftKinds(t: Point, x: Inst)
    ensures var y := ShiftInst(t, x);
      y.Br? == x.Br? && y.Ret? == x.Ret? && Produces(y) == Produces(x)
  {
  }

  lemma ShiftedEnv(w: World, t: Point, s: State, s': State, x: Inst)
    requires Renumbered(t, s, s') && s'.Pc() == Shift(t, s.Pc())
    ensures var e, e' := NextEnv(w, s, x), NextEnv(w, s', ShiftInst(t, x));
      forall d: Point :: (d in e <==> Shift(t, d) in e') && (d in e ==> e'[Shift(t, d)] == e[d])
  {
    hide ValueOf, ShiftInst, NextMem, NextOut, NextPc, Eval;
    ShiftKinds(t, x);
    if Produces(x) {
      ShiftedEffect(w, t, s, s', x);
      ShiftedUpdate(t, s.env, s'.env, s.Pc(), ValueOf(w, s, x));
    }
  }

  lemma ShiftedUpdate(t: Point, e: map<Point, int>, e': map<Point, int>, p: Point, v: int)
    requires forall d: Point :: (d in e <==> Shift(t, d) in e') && (d in e ==> e'[Shift(t, d)] == e[d])
    ensures var f, f' := e[p := v], e'[Shift(t, p) := v];
      forall d: Point :: (d in f <==> Shift(t, d) in f') && (d in f ==> f'[Shift(t, d)] == f[d])
  {
  }

  /** Leaving the vacant slot. */
  lemma SlotStep(w: World, code: Code, t: Point, s: State, s': State)
    requires t < |code| && Renumbered(t, s, s') && s.Pc() == t && s'.Pc() == t && s.status.Running?
    ensures var r := Step(w, InsertSlot(code, t), s'); Renumbered(t, s, r) && r.Pc() == Shift(t, s.Pc())
  {
  }

  lemma {:induction false} SlotForward(w: World, code: Code, t: Point, n: nat) returns (m: nat)
    requires t < |code|
    ensures Renumbered(t, Run(w, code, n), Run(w, InsertSlot(code, t), m))
    ensures Run(w, InsertSlot(code, t), m).Pc() == Shift(t, Run(w, code, n).Pc()) || Run(w, code, n).status.Running?
    decreases n
  {
    hide Step, Renumbered, InsertSlot;
    var code' := InsertSlot(code, t);
    if n == 0 {
      m := 0;
      SlotStart(w, t);
    } else {
      m := SlotForward(w, code, t, n - 1);
      var s := Run(w, code, n - 1);
      if Run(w, code', m).Pc() != Shift(t, s.Pc()) {
        InSlot(t, s, Run(w, code', m));
        SlotStep(w, code, t, s, Run(w, code', m));
        assert Run(w, code', m + 1) == Step(w, code', Run(w, code', m));
        m := m + 1;
      }
      ShiftedStep(w, code, t, s, Run(w, code', m));
      RetKeepsPc(w, code, s);
      RetKeepsPc(w, code', Run(w, code', m));
      assert Run(w, code', m + 1) == Step(w, code', Run(w, code', m));
      SameStatus(t, Run(w, code, n), Run(w, code', m + 1));
      SameStatus(t, s, Run(w, code', m));
      m := m + 1;
    }
  }

  lemma SameStatus(t: Point, s: State, s': State)
    requires Renumbered(t, s, s')
    ensures s.status == s'.status
  {
  }

  lemma RetKeepsPc(w: World, code: Code, s: State)
    requires s.hist != []
    ensures Step(w, code, s).status.Returned? ==> Step(w, code, s).Pc() == s.Pc()
  {
  }

  lemma SlotStart(w: World, t: Point)
    ensures Renumbered(t, Start(w), Start(w))
  {
  }

  lemma InSlot(t: Point, s: State, s': State)
    requires Renumbered(t, s, s') && s'.Pc() != Shift(t, s.Pc())
    ensures s.Pc() == t && s'.Pc() == t
  {
  }

  lemma {:induction false} SlotBackward(w: World, code: Code, t: Point, m: nat) returns (n: nat)
    requires t < |code|
    ensures Renumbered(t, Run(w, code, n), Run(w, InsertSlot(code, t), m))
    decreases m
  {
    hide Step, Renumbered, InsertSlot;
    var code' := InsertSlot(code, t);
    if m == 0 {
      n := 0;
      SlotStart(w, t);
    } else {
      n := SlotBackward(w, code, t, m - 1);
      var s, s' := Run(w, code, n), Run(w, code', m - 1);
      if s'.Pc() == Shift(t, s.Pc()) {
        ShiftedStep(w, code, t, s, s');
        assert Run(w, code, n + 1) == Step(w, code, s);
        n := n + 1;
      } else {
        InSlot(t, s, s');
        SlotIdle(w, code, t, s, s');
      }
    }
  }

  lemma SlotIdle(w: World, code: Code, t: Point, s: State, s': State)
    requires t < |code| && Renumbered(t, s, s') && s.Pc() == t && s'.Pc() == t
    ensures Renumbered(t, s, Step(w, InsertSlot(code, t), s'))
  {
  }

  lemma RenumberedSeen(t: Point, s: State, s': State)
    requires Renumbered(t, s, s')
    ensures Observe(s) == Observe(s')
  {
  }

  /** Inserting a vacant slot changes nothing that can be observed. */
  lemma SlotPreserves(w: World, code: Code, t: Point)
    requires t < |code|
    ensures SameBehaviour(w, code, InsertSlot(code, t))
  {
    hide Run, Observe, InsertSlot, Renumbered;
    var code' := InsertSlot(code, t);
    forall n: nat ensures Shows(w, code', Observe(Run(w, code, n))) {
      var m := SlotForward(w, code, t, n);
      RenumberedSeen(t, Run(w, code, n), Run(w, code', m));
    }
    forall m: nat ensures Shows(w, code, Observe(Run(w, code', m))) {
      var n := SlotBackward(w, code, t, m);
      RenumberedSeen(t, Run(w, code, n), Run(w, code', m));
    }
  }
}
