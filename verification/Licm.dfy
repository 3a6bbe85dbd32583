/**
  Loop-invariant code motion, projects/p3/p3.cpp: which instructions of a loop are moved to
  the end of its preheader, and why the program still behaves as before.
*/
module Licm {
  import opened IR
  import opened Dominance
  import opened Facts
  import opened Replace
  import opened Slots
  import opened Loops

  // ------------------------------------------------------------ the guards

  /** May a store through a1 change the cell a2 names? Objects are told apart, the rest is not. */
  predicate IsSameAddress(code: Code, a1: Operand, a2: Operand) {
    if IsObject(code, a1) then a1 == a2 else true
  }

  predicate BlocksMove(code: Code, x: Inst, a: Operand) {
    (x.Store? && IsSameAddress(code, x.addr, a)) || x.Call?
  }

  predicate HasStores(code: Code, l: Loop, a: Operand) {
    exists i :: 0 <= i < |l.body| && l.body[i] < |code| && BlocksMove(code, code[l.body[i]], a)
  }

  predicate HasAnyStores(code: Code, l: Loop) {
    exists i :: 0 <= i < |l.body| && l.body[i] < |code| && (code[l.body[i]].Store? || code[l.body[i]].Call?)
  }

  predicate IsAlloca(code: Code, a: Operand) {
    a.Reg? && IsObject(code, a)
  }

  predicate CanMoveLoad(code: Code, l: Loop, x: Inst, dominatesExits: bool)
    requires x.Load?
  {
    !x.vol &&
    (|| (x.addr.Global? && !HasStores(code, l, x.addr))
     || (IsAlloca(code, x.addr) && !HasStores(code, l, x.addr) && x.addr.p !in l.body)
     || (!HasAnyStores(code, l) && (x.addr.Reg? ==> x.addr.p !in l.body) && dominatesExits))
  }

  /** moveLoopInvariants: a speculatable instruction with invariant operands, or a movable load. */
  predicate ShouldHoist(code: Code, l: Loop, x: Inst, speculatable: PureOp -> bool, dominatesExits: bool) {
    || (x.Pure? && InvariantOperands(code, l, x) && speculatable(x.op))
    || (x.Load? && CanMoveLoad(code, l, x, dominatesExits))
  }

  /** The scan only accepts a load if no slot of the loop may write the loaded cell. */
  lemma AcceptedLoadIsQuiet(w: World, code: Code, l: Loop, x: Inst, dominatesExits: bool)
    requires x.Load? && CanMoveLoad(code, l, x, dominatesExits)
    ensures LoopQuiet(w, code, l, x.addr) && InvariantOperands(code, l, x)
  {
    forall p | p in l.body && p < |code| ensures !MayWrite(w, code, code[p], x.addr) {
      var i :| 0 <= i < |l.body| && l.body[i] == p;
      if HasAnyStores(code, l) {
        assert !HasStores(code, l, x.addr);
        assert !BlocksMove(code, code[l.body[i]], x.addr);
      } else {
        assert !code[l.body[i]].Store? && !code[l.body[i]].Call?;
      }
    }
  }

  /** Who is in the loop has come through the preheader. */
  lemma {:induction false} PreheaderRan(code: Code, l: Loop, path: seq<Point>) returns (k: nat)
    requires LoopOk(code, l) && IsPath(code, path) && path[|path| - 1] in l.body
    ensures k < |path| - 1 && path[k] == l.pre
    decreases |path|
  {
    hide WholeBlocks, InnerReachable;
    var n := |path| - 1;
    assert n > 0;
    PathLast(code, path);
    hide Edge;
    if path[n - 1] in l.body {
      PathPrefix(code, path, n - 1);
      k := PreheaderRan(code, l, path[..n]);
    } else {
      k := n - 1;
    }
  }

  /** In the loop an operand from outside has been computed. */
  lemma OutsideComputed(code: Code, l: Loop, x: Point, path: seq<Point>, d: Point)
    requires WellFormed(code) && LoopOk(code, l) && x in l.body && x < |code| && Uses(code[x], d) && d !in l.body
    requires IsPath(code, path) && path[|path| - 1] in l.body
    ensures d in path[..|path| - 1] && d < |code| && Produces(code[d])
  {
    hide FlowOk, SitesOk, ReachOk, SDom, LoopOk, IsPath;
    assert UseOk(code, x, d);
    OutsideReachesPreheader(code, l, d, x);
    var k := PreheaderRan(code, l, path);
    PathPrefix(code, path, k);
    var e := DominatorRan(code, path[..k + 1], d);
    assert path[e] == d && e < |path| - 1;
  }

  /** The loaded address, whenever the loop runs: an object's own, if it is one. */
  lemma AddressInLoop(w: World, code: Code, l: Loop, x: Point, st: State)
    requires WellFormed(code) && LoopOk(code, l) && x in l.body && x < |code| && code[x].Load? && InvariantOperands(code, l, code[x])
    requires Sound(w, code, st) && st.Pc() in l.body && IsObject(code, code[x].addr)
    ensures Eval(w, st.env, code[x].addr) == ObjectAddress(w, code, code[x].addr)
  {
    hide WellFormed, LoopOk, IsPath, FactsOk;
    var a := code[x].addr;
    if a.Reg? {
      assert Operands(code[x])[0] == a;
      assert Uses(code[x], a.p);
      OutsideComputed(code, l, x, st.hist, a.p);
      var e :| 0 <= e < |st.hist| - 1 && st.hist[e] == a.p;
      assert a.p in st.env;
    }
  }

  /** If the scan accepts a load, no step made in the loop changes its address or the cell it loads. */
  lemma LoopStepKeepsCell(w: World, code: Code, l: Loop, x: Point, dominatesExits: bool, n: nat)
    requires WellFormed(code) && LayoutOk(w) && LoopOk(code, l) && x in l.body && x < |code|
    requires code[x].Load? && CanMoveLoad(code, l, code[x], dominatesExits)
    requires Run(w, code, n).status.Running? && Run(w, code, n).Pc() in l.body
    ensures var s, t := Run(w, code, n), Run(w, code, n + 1);
      var a := Eval(w, s.env, code[x].addr);
      Eval(w, t.env, code[x].addr) == a && ReadCells(t.mem, a, w.width(code[x].ty)) == ReadCells(s.mem, a, w.width(code[x].ty))
  {
    hide WellFormed, LoopOk, CanMoveLoad, Step, Run;
    AcceptedLoadIsQuiet(w, code, l, code[x], dominatesExits);
    RunSound(w, code, n);
    LoopShape(code, l);
    StepKeepsCell(w, code, l, x, Run(w, code, n));
    NextRun(w, code, n);
  }

  lemma NextRun(w: World, code: Code, n: nat)
    ensures Run(w, code, n + 1) == Step(w, code, Run(w, code, n))
  {
  }

  lemma StepKeepsCell(w: World, code: Code, l: Loop, x: Point, st: State)
    requires WellFormed(code) && LayoutOk(w) && LoopOk(code, l) && x in l.body && x < |code| && code[x].Load?
    requires LoopQuiet(w, code, l, code[x].addr) && InvariantOperands(code, l, code[x])
    requires Sound(w, code, st) && st.status.Running? && st.Pc() in l.body && st.Pc() < |code|
    ensures var a := Eval(w, st.env, code[x].addr); var t := Step(w, code, st);
      Eval(w, t.env, code[x].addr) == a && ReadCells(t.mem, a, w.width(code[x].ty)) == ReadCells(st.mem, a, w.width(code[x].ty))
  {
    assert Operands(code[x])[0] == code[x].addr;
    assert !MayWrite(w, code, code[st.Pc()], code[x].addr);
    StepMemory(w, code, st);
    hide LoopOk, WellFormed, Sound, LoopQuiet, Step;
    if code[st.Pc()].Store? {
      StoreKeepsCell(w, code, l, x, st);
    }
  }

  /** What a step does to memory, and to the values of other slots. */
  lemma StepMemory(w: World, code: Code, st: State)
    requires st.hist != [] && st.status.Running? && st.Pc() < |code|
    ensures Step(w, code, st).mem == if code[st.Pc()].Store? || code[st.Pc()].Call? then NextMem(w, st, code[st.Pc()]) else st.mem
    ensures forall o: Operand :: o != Reg(st.Pc()) ==> Eval(w, Step(w, code, st).env, o) == Eval(w, st.env, o)
  {
  }

  lemma StoreKeepsCell(w: World, code: Code, l: Loop, x: Point, st: State)
    requires WellFormed(code) && LayoutOk(w) && LoopOk(code, l) && x in l.body && x < |code| && code[x].Load?
    requires InvariantOperands(code, l, code[x]) && Sound(w, code, st) && st.Pc() in l.body && st.Pc() < |code|
    requires code[st.Pc()].Store? && KnownDistinct(code, code[st.Pc()].addr, code[x].addr)
    ensures var a, n := Eval(w, st.env, code[x].addr), w.width(code[x].ty);
      ReadCells(NextMem(w, st, code[st.Pc()]), a, n) == ReadCells(st.mem, a, n)
  {
    hide LoopOk, FlowOk, UsesOk, ReachOk, FactsOk, IsPath;
    var o, y := code[x].addr, code[st.Pc()];
    ObjectEval(w, code, st, |st.hist| - 1, y.addr);
    AddressInLoop(w, code, l, x, st);
    ObjectsApart(w, code, y.addr, o, y.ty, code[x].ty);
    ReadApart(st.mem, Eval(w, st.env, y.addr), w.encode(y.ty, Eval(w, st.env, y.val)), Eval(w, st.env, o), w.width(code[x].ty));
  }

  // ------------------------------------------------------------ renumbering loops

  /** The slots in the new numbers and in the same order; the inserted slot comes right before the terminator that it precedes. */
  function ShiftBody(t: Point, body: seq<Point>): (r: seq<Point>) {
    if body == [] then [] else
    var p := body[|body| - 1];
    ShiftBody(t, body[..|body| - 1]) + if p == t then [t, t + 1] else [Shift(t, p)]
  }

  /** The loop in the new numbers; the inserted slot belongs to every loop that t belongs to. */
  function ShiftLoop(t: Point, l: Loop): Loop {
    Loop(ShiftBody(t, l.body), ShiftTarget(t, l.header), Shift(t, l.pre))
  }

  lemma ShiftedMember(t: Point, l: Loop, q': Point)
    ensures q' in ShiftLoop(t, l).body <==> (if q' == t then t in l.body else Unshift(t, q') in l.body)
  {
    ShiftedIn(t, l.body, q');
  }

  lemma {:induction false} ShiftedIn(t: Point, body: seq<Point>, q': Point)
    ensures q' in ShiftBody(t, body) <==> (if q' == t then t in body else Unshift(t, q') in body)
  {
    if body != [] {
      var init, p := body[..|body| - 1], body[|body| - 1];
      assert forall q :: q in body <==> q in init || q == p;
      ShiftedIn(t, init, q');
    }
  }

  /** Where the terminator is not one of the slots, there are as many as before. */
  lemma {:induction false} ShiftedAside(t: Point, body: seq<Point>)
    requires t !in body
    ensures |ShiftBody(t, body)| == |body| && forall i :: 0 <= i < |body| ==> ShiftBody(t, body)[i] == Shift(t, body[i])
  {
    if body != [] {
      ShiftedAside(t, body[..|body| - 1]);
    }
  }

  lemma LoopPathSnoc(code: Code, l: Loop, s: seq<Point>, q: Point)
    requires LoopPath(code, l, s) && Edge(code, s[|s| - 1], q) && q in l.body
    ensures LoopPath(code, l, s + [q])
  {
    var r := s + [q];
    forall i {:trigger r[i]} | 0 <= i < |r| - 1 ensures Edge(code, r[i], r[i + 1]) && r[i] in l.body {
      if i < |s| - 1 {
        assert Edge(code, s[i], s[i + 1]) && s[i] in l.body;
      }
    }
  }

  lemma LoopPathInit(code: Code, l: Loop, s: seq<Point>)
    requires LoopPath(code, l, s) && |s| > 1
    ensures LoopPath(code, l, s[..|s| - 1]) && Edge(code, s[|s| - 2], s[|s| - 1])
  {
    var r := s[..|s| - 1];
    assert s[|s| - 2] in l.body && s[|s| - 2 + 1] == s[|s| - 1];
    assert forall i {:trigger r[i]} :: 0 <= i < |r| - 1 ==> r[i] == s[i] && r[i + 1] == s[i + 1];
  }

  lemma LoopThroughSlot(code: Code, l: Loop, t: Point, s': seq<Point>) returns (r: seq<Point>)
    requires t < |code| && t in l.body && LoopPath(InsertSlot(code, t), ShiftLoop(t, l), s') && s'[|s'| - 1] == t
    ensures LoopPath(InsertSlot(code, t), ShiftLoop(t, l), r) && r[|r| - 1] == t + 1
  {
    hide Edge, InsertSlot, ShiftLoop;
    ShiftedMember(t, l, t + 1);
    SlotEdge(code, t, t, t + 1);
    LoopPathSnoc(InsertSlot(code, t), ShiftLoop(t, l), s', t + 1);
    r := s' + [t + 1];
  }

  lemma EmbedLoopEdge(code: Code, l: Loop, t: Point, s': seq<Point>, p: Point, q: Point) returns (r: seq<Point>)
    requires t < |code| && q in l.body && Edge(code, p, q)
    requires LoopPath(InsertSlot(code, t), ShiftLoop(t, l), s') && s'[|s'| - 1] == Shift(t, p)
    ensures LoopPath(InsertSlot(code, t), ShiftLoop(t, l), r) && r[|r| - 1] == Shift(t, q)
  {
    hide Edge, InsertSlot, ShiftLoop, LoopPath;
    var q' := ShiftTarget(t, q);
    LoopPathNonempty(InsertSlot(code, t), ShiftLoop(t, l), s');
    ShiftedMember(t, l, q');
    SlotEdge(code, t, Shift(t, p), q');
    LoopPathSnoc(InsertSlot(code, t), ShiftLoop(t, l), s', q');
    r := s' + [q'];
    if q == t {
      r := LoopThroughSlot(code, l, t, r);
    }
  }

  lemma LoopPathNonempty(code: Code, l: Loop, s: seq<Point>)
    requires LoopPath(code, l, s)
    ensures s != [] && forall i :: 0 <= i < |s| ==> s[i] in l.body
  {
  }

  lemma LoopPathStart(code: Code, l: Loop, t: Point) returns (r: seq<Point>)
    requires t < |code| && l.header in l.body
    ensures LoopPath(InsertSlot(code, t), ShiftLoop(t, l), r) && r[|r| - 1] == Shift(t, l.header)
  {
    ShiftedMember(t, l, ShiftTarget(t, l.header));
    r := [ShiftTarget(t, l.header)];
    if l.header == t {
      r := LoopThroughSlot(code, l, t, r);
    }
  }

  lemma {:induction false} EmbedLoopPath(code: Code, l: Loop, t: Point, s: seq<Point>) returns (s': seq<Point>)
    requires t < |code| && LoopPath(code, l, s)
    ensures LoopPath(InsertSlot(code, t), ShiftLoop(t, l), s') && s'[|s'| - 1] == Shift(t, s[|s| - 1])
    decreases |s|
  {
    hide Edge, InsertSlot, ShiftLoop;
    var n := |s| - 1;
    LoopPathNonempty(code, l, s);
    if n == 0 {
      s' := LoopPathStart(code, l, t);
    } else {
      LoopPathInit(code, l, s);
      s' := EmbedLoopPath(code, l, t, s[..n]);
      s' := EmbedLoopEdge(code, l, t, s', s[n - 1], s[n]);
    }
  }

  lemma ShiftedInner(code: Code, l: Loop, t: Point, x': Point)
    requires t < |code| && x' in ShiftLoop(t, l).body
    requires forall x :: x in l.body ==> InnerReachable(code, l, x)
    ensures InnerReachable(InsertSlot(code, t), ShiftLoop(t, l), x')
  {
    hide InsertSlot, ShiftLoop, Edge;
    ShiftedMember(t, l, x');
    var x := if x' == t then t else Unshift(t, x');
    assert InnerReachable(code, l, x);
    var s :| LoopPath(code, l, s) && s[|s| - 1] == x;
    var s' := EmbedLoopPath(code, l, t, s);
    if x' == t {
      StartsElsewhere(t, l);
      assert |s'| > 1;
      LoopPathInit(InsertSlot(code, t), ShiftLoop(t, l), s');
      SlotEdge(code, t, s'[|s'| - 2], t + 1);
      assert s'[..|s'| - 1][|s'| - 2] == t;
    }
  }

  lemma StartsElsewhere(t: Point, l: Loop)
    ensures ShiftLoop(t, l).header != t + 1
  {
  }

  lemma ShiftedWholeBlocks(code: Code, l: Loop, t: Point)
    requires t < |code| && WholeBlocks(code, l)
    ensures WholeBlocks(InsertSlot(code, t), ShiftLoop(t, l))
  {
    hide InsertSlot, ShiftLoop, ShiftInst;
    var code', l' := InsertSlot(code, t), ShiftLoop(t, l);
    forall p': Point | p' < |code'| && !IsTerminator(code'[p']) ensures p' in l'.body <==> p' + 1 in l'.body {
      ShiftedMember(t, l, p');
      ShiftedMember(t, l, p' + 1);
      if p' != t {
        SlotAt(code, t, p');
        ShiftKinds(t, code[Unshift(t, p')]);
      }
    }
  }

  lemma ShiftedEntry(code: Code, l: Loop, t: Point, p': Point, q': Point)
    requires t < |code| && LoopOk(code, l)
    requires Edge(InsertSlot(code, t), p', q') && q' in ShiftLoop(t, l).body && p' !in ShiftLoop(t, l).body
    ensures p' == Shift(t, l.pre) && q' == ShiftTarget(t, l.header)
  {
    hide InsertSlot, ShiftLoop, Edge, WholeBlocks, InnerReachable;
    ShiftedMember(t, l, p');
    ShiftedMember(t, l, q');
    SlotEdge(code, t, p', q');
  }

  /** Inserting a slot leaves every loop a loop. */
  lemma ShiftedLoopOk(code: Code, l: Loop, t: Point)
    requires t < |code| && LoopOk(code, l)
    ensures LoopOk(InsertSlot(code, t), ShiftLoop(t, l))
  {
    var code', l' := InsertSlot(code, t), ShiftLoop(t, l);
    ShiftedShape(code, l, t);
    hide InsertSlot, ShiftLoop, Edge, WholeBlocks, InnerReachable;
    ShiftedWholeBlocks(code, l, t);
    forall p': Point, q': Point | Edge(code', p', q') && q' in l'.body && p' !in l'.body
      ensures p' == l'.pre && q' == l'.header
    {
      ShiftedEntry(code, l, t, p', q');
    }
    forall x' | x' in l'.body ensures InnerReachable(code', l', x') {
      ShiftedInner(code, l, t, x');
    }
  }

  lemma ShiftedShape(code: Code, l: Loop, t: Point)
    requires t < |code| && LoopOk(code, l)
    ensures var code', l' := InsertSlot(code, t), ShiftLoop(t, l);
      && l'.pre == Shift(t, l.pre) && l'.header == ShiftTarget(t, l.header)
      && 0 !in l'.body && l'.header in l'.body && l'.pre !in l'.body
      && (forall x :: x in l'.body ==> x < |code'|)
      && l'.pre < |code'| && code'[l'.pre].Br? && code'[l'.pre].thn == l'.header && code'[l'.pre].els == l'.header
  {
    hide InsertSlot, Edge, WholeBlocks, InnerReachable;
    var l' := ShiftLoop(t, l);
    ShiftedMember(t, l, 0);
    ShiftedMember(t, l, l'.header);
    ShiftedMember(t, l, l'.pre);
    SlotAt(code, t, l'.pre);
    forall x' | x' in l'.body ensures x' < |code| + 1 {
      ShiftedMember(t, l, x');
    }
  }

  lemma SameFlowLoop(c: Code, d: Code, l: Loop)
    requires SameFlow(c, d) && LoopOk(c, l)
    ensures LoopOk(d, l)
  {
    hide SDom, IsPath;
    SameFlowPaths(c, d);
    forall x | x in l.body ensures InnerReachable(d, l, x) {
      assert InnerReachable(c, l, x);
      var s :| LoopPath(c, l, s) && s[|s| - 1] == x;
      assert forall i {:trigger s[i]} :: 0 <= i < |s| - 1 ==> (Edge(c, s[i], s[i + 1]) <==> Edge(d, s[i], s[i + 1]));
      assert LoopPath(d, l, s);
    }
    assert WholeBlocks(d, l);
  }

  // ------------------------------------------------------------ moving one instruction

  /** load->moveBefore(preHeader->getTerminator()): a new slot in front of t takes x's instruction. */
  function MoveBefore(code: Code, t: Point, x: Point): (r: Code)
    requires t < |code| && x < |code|
    ensures |r| == |code| + 1
  {
    ReplaceAndErase(CopyBefore(code, t, x), Shift(t, x), Reg(t))
  }

  /** The program halfway: the new slot holds a copy, the original is still there. */
  function CopyBefore(code: Code, t: Point, x: Point): (r: Code)
    requires t < |code| && x < |code|
    ensures |r| == |code| + 1 && r[t] == r[Shift(t, x)]
    ensures forall p' :: 0 <= p' <= |code| && p' != t ==> r[p'] == InsertSlot(code, t)[p']
  {
    var roomy := InsertSlot(code, t);
    roomy[t := roomy[Shift(t, x)]]
  }

  lemma ReachesSlot(code: Code, t: Point, d': Point)
    requires t < |code| && SDom(InsertSlot(code, t), d', t + 1) && d' != t
    ensures SDom(InsertSlot(code, t), d', t)
  {
    hide InsertSlot, Edge;
    var code' := InsertSlot(code, t);
    forall path | IsPath(code', path) && path[|path| - 1] == t ensures d' in path[..|path| - 1] {
      SlotEdge(code, t, t, t + 1);
      PathSnoc(code', path, t + 1);
      InInit(code', path, t + 1, d');
      assert path == path[..|path| - 1] + [t];
    }
  }

  lemma HoistedUseOk(code: Code, l: Loop, x: Point, d': Point)
    requires WellFormed(code) && LoopOk(code, l) && x in l.body && x < |code| && InvariantOperands(code, l, code[x])
    requires Uses(ShiftInst(l.pre, code[x]), d')
    ensures UseOk(InsertSlot(code, l.pre), l.pre, d')
  {
    var t := l.pre;
    hide InsertSlot, SDom, LoopOk, ShiftInst, FlowOk, SitesOk, ReachOk;
    PreBranches(code, l);
    ShiftedUses(t, code[x], d');
    var d := Unshift(t, d');
    assert Reg(d) in Operands(code[x]) && d !in l.body;
    assert UseOk(code, x, d);
    OutsideReachesPreheader(code, l, d, x);
    SlotDominance(code, t, d, t);
    ReachesSlot(code, t, d');
    SlotAt(code, t, d');
    ShiftKinds(t, code[d]);
  }

  lemma ShiftedDistinct(code: Code, code': Code, t: Point, a: Operand, b: Operand)
    requires t < |code| && KnownDistinct(code, a, b)
    requires |code'| == |code| + 1 && forall p' :: 0 <= p' <= |code| && p' != t ==> code'[p'] == InsertSlot(code, t)[p']
    ensures KnownDistinct(code', ShiftOperand(t, a), ShiftOperand(t, b))
  {
    hide InsertSlot;
    if a.Reg? {
      SlotAt(code, t, Shift(t, a.p));
    }
    if b.Reg? {
      SlotAt(code, t, Shift(t, b.p));
    }
  }

  lemma ShiftedQuiet(w: World, code: Code, code': Code, l: Loop, t: Point, cell: Operand)
    requires t < |code| && t !in l.body && LoopQuiet(w, code, l, cell) && (forall x :: x in l.body ==> x < |code|)
    requires |code'| == |code| + 1 && forall p' :: 0 <= p' <= |code| && p' != t ==> code'[p'] == InsertSlot(code, t)[p']
    ensures LoopQuiet(w, code', ShiftLoop(t, l), ShiftOperand(t, cell))
  {
    hide InsertSlot, ShiftLoop, KnownDistinct, CallsKeepMemory;
    var l' := ShiftLoop(t, l);
    forall p' | p' in l'.body && p' < |code'| ensures !MayWrite(w, code', code'[p'], ShiftOperand(t, cell)) {
      ShiftedMember(t, l, p');
      SlotAt(code, t, p');
      var p := Unshift(t, p');
      assert !MayWrite(w, code, code[p], cell);
      if code[p].Store? {
        ShiftedDistinct(code, code', t, code[p].addr, cell);
      }
    }
  }

  ghost predicate Hoistable(w: World, code: Code, l: Loop, x: Point) {
    && x in l.body && x < |code| && InvariantOperands(code, l, code[x])
    && (code[x].Pure? || (code[x].Load? && !code[x].vol && LoopQuiet(w, code, l, code[x].addr)))
  }

  lemma FillSlot(w: World, code: Code, l: Loop, x: Point)
    requires WellFormed(code) && LoopOk(code, l) && Hoistable(w, code, l, x) && l.pre < |code|
    ensures var filled := CopyBefore(code, l.pre, x);
      WellFormed(filled) && SameFlow(InsertSlot(code, l.pre), filled) && SameBehaviour(w, code, filled)
  {
    var t := l.pre;
    var roomy := InsertSlot(code, t);
    hide InsertSlot, SDom, LoopOk, ShiftInst, FlowOk, SitesOk, ReachOk, UsesOk, SameBehaviour, SameFlow, LoopQuiet;
    SlotWellFormed(code, t);
    SlotPreserves(w, code, t);
    SlotAt(code, t, Shift(t, x));
    var y := roomy[Shift(t, x)];
    ShiftLoads(t, code[x]);
    forall d' | Uses(y, d') ensures UseOk(roomy, t, d') {
      HoistedUseOk(code, l, x, d');
    }
    FillPreserves(w, roomy, t, y);
    SameBehaviourTransitive(w, code, roomy, roomy[t := y]);
  }

  lemma ShiftLoads(t: Point, x: Inst)
    ensures var y := ShiftInst(t, x);
      y.Pure? == x.Pure? && y.Load? == x.Load? &&
      (x.Load? ==> y.vol == x.vol && y.addr == ShiftOperand(t, x.addr))
  {
  }

  /** Moving an accepted instruction to the preheader changes nothing that can be observed. */
  lemma HoistPreserves(w: World, code: Code, l: Loop, x: Point)
    requires WellFormed(code) && LayoutOk(w) && LoopOk(code, l) && Hoistable(w, code, l, x) && l.pre < |code|
    ensures var code' := MoveBefore(code, l.pre, x);
      WellFormed(code') && SameFlow(InsertSlot(code, l.pre), code') && SameBehaviour(w, code, code')
  {
    var t := l.pre;
    var roomy, x' := InsertSlot(code, t), Shift(t, x);
    var filled, l' := CopyBefore(code, t, x), ShiftLoop(t, l);
    FillSlot(w, code, l, x);
    HoistReady(w, code, l, x);
    hide InsertSlot, CopyBefore, SDom, LoopOk, ShiftInst, WellFormed, SameBehaviour, SameFlow, LoopQuiet, LayoutOk, ReplaceAndErase, EqualAt, Available;
    HoistedEqual(w, filled, l', t, x');
    ReplacePreserves(w, filled, x', Reg(t));
    ReplaceWellFormed(filled, x', Reg(t));
    SameBehaviourTransitive(w, code, filled, ReplaceAndErase(filled, x', Reg(t)));
    SameFlowTransitive(roomy, filled, ReplaceAndErase(filled, x', Reg(t)));
  }

  lemma SameFlowTransitive(a: Code, b: Code, c: Code)
    requires SameFlow(a, b) && SameFlow(b, c)
    ensures SameFlow(a, c)
  {
  }

  lemma LoopShape(code: Code, l: Loop)
    requires LoopOk(code, l)
    ensures l.pre !in l.body && (forall x :: x in l.body ==> x < |code|) && l.pre < |code| && code[l.pre].Br?
  {
  }

  /** The state of affairs just before the original is replaced by the hoisted copy. */
  lemma HoistReady(w: World, code: Code, l: Loop, x: Point)
    requires LoopOk(code, l) && Hoistable(w, code, l, x) && l.pre < |code|
    requires SameFlow(InsertSlot(code, l.pre), CopyBefore(code, l.pre, x))
    ensures var t, x' := l.pre, Shift(l.pre, x); var filled, l' := CopyBefore(code, t, x), ShiftLoop(t, l);
      && LoopOk(filled, l') && t + 1 == l'.pre && x' in l'.body && x' < |filled| && Removable(filled[x'])
      && (filled[t].Pure? || (filled[t].Load? && LoopQuiet(w, filled, l', filled[t].addr)))
  {
    hide InsertSlot, CopyBefore, ShiftInst, SameFlow, LoopOk, LoopQuiet, InvariantOperands;
    var t, x' := l.pre, Shift(l.pre, x);
    LoopShape(code, l);
    ShiftedLoopOk(code, l, t);
    SameFlowLoop(InsertSlot(code, t), CopyBefore(code, t, x), ShiftLoop(t, l));
    ShiftedMember(t, l, x');
    CopiedInst(code, t, x);
    ShiftLoads(t, code[x]);
    if code[x].Load? {
      ShiftedQuiet(w, code, CopyBefore(code, t, x), l, t, code[x].addr);
    }
  }

  lemma CopiedInst(code: Code, t: Point, x: Point)
    requires t < |code| && x < |code|
    ensures CopyBefore(code, t, x)[Shift(t, x)] == ShiftInst(t, code[x])
  {
    hide InsertSlot;
    SlotAt(code, t, Shift(t, x));
  }

  /** What moving does: the copy sits before the terminator and the original is gone. */
  lemma MovedWhere(code: Code, t: Point, x: Point)
    requires t < |code| && x < |code| && x != t && !IsTerminator(code[x])
    requires !Uses(code[x], x)
    ensures var code' := MoveBefore(code, t, x);
      |code'| == |code| + 1 && code'[t] == ShiftInst(t, code[x]) && code'[Shift(t, x)] == Erased
  {
    hide InsertSlot;
    var x' := Shift(t, x);
    SlotAt(code, t, x');
    var y := InsertSlot(code, t)[x'];
    if Uses(y, x') {
      ShiftedUses(t, code[x], x');
    }
    assert forall o :: o in Operands(y) ==> Rewire(x', Reg(t), o) == o;
    if y.Pure? || y.Call? {
      assert RewireAll(x', Reg(t), y.args) == y.args;
    }
    assert RewireInst(x', Reg(t), y) == y;
  }

  // ------------------------------------------------------------ the pass

  /** Answers the dominator tree gives: does the block of this slot dominate all exits of the loop? */
  type ExitDominance = (Code, Loop, Point) -> bool

  /** A function under transformation and its loops, inner loops first. */
  datatype Unit = Unit(code: Code, loops: seq<Loop>)

  ghost predicate UnitOk(u: Unit) {
    InRange(u) && WellFormed(u.code) && forall n :: 0 <= n < |u.loops| ==> LoopOk(u.code, u.loops[n])
  }

  /** Slots and loop numbers that the pass looks at exist. */
  predicate InRange(u: Unit) {
    forall n :: 0 <= n < |u.loops| ==> LoopInRange(u.loops[n], |u.code|)
  }

  predicate LoopInRange(l: Loop, size: nat) {
    l.pre < size && l.pre !in l.body && forall i :: 0 <= i < |l.body| ==> l.body[i] < size
  }

  function ShiftLoops(t: Point, ls: seq<Loop>): (r: seq<Loop>)
    ensures |r| == |ls| && forall n :: 0 <= n < |ls| ==> r[n] == ShiftLoop(t, ls[n])
  {
    seq(|ls|, n requires 0 <= n < |ls| => ShiftLoop(t, ls[n]))
  }

  /** One turn of the scan of loop n: its k-th slot is hoisted or left alone. */
  function VisitSlot(u: Unit, n: nat, k: nat, spec: PureOp -> bool, dom: ExitDominance): (r: Unit)
    requires InRange(u) && n < |u.loops| && k < |u.loops[n].body|
    ensures |r.loops| == |u.loops|
  {
    assert LoopInRange(u.loops[n], |u.code|);
    var l := u.loops[n];
    var x := l.body[k];
    if ShouldHoist(u.code, l, u.code[x], spec, dom(u.code, l, x))
    then Unit(MoveBefore(u.code, l.pre, x), ShiftLoops(l.pre, u.loops))
    else u
  }

  lemma VisitInRange(u: Unit, n: nat, k: nat, spec: PureOp -> bool, dom: ExitDominance)
    requires InRange(u) && n < |u.loops| && k < |u.loops[n].body|
    ensures InRange(VisitSlot(u, n, k, spec, dom))
    ensures |VisitSlot(u, n, k, spec, dom).loops[n].body| == |u.loops[n].body|
  {
    hide ShouldHoist, InsertSlot, MoveBefore, LoopInRange, ShiftLoop;
    var t := u.loops[n].pre;
    assert LoopInRange(u.loops[n], |u.code|);
    OwnBodyKeepsSize(t, u.loops[n], |u.code|);
    forall m | 0 <= m < |u.loops| ensures LoopInRange(ShiftLoop(t, u.loops[m]), |u.code| + 1) {
      ShiftedLoopInRange(t, u.loops[m], |u.code|);
    }
  }

  lemma OwnBodyKeepsSize(t: Point, l: Loop, size: nat)
    requires LoopInRange(l, size) && l.pre == t
    ensures t < size && |ShiftLoop(t, l).body| == |l.body| && forall i :: 0 <= i < |l.body| ==> ShiftLoop(t, l).body[i] == Shift(t, l.body[i])
  {
    ShiftedAside(t, l.body);
  }

  lemma ShiftedLoopInRange(t: Point, l: Loop, size: nat)
    requires LoopInRange(l, size) && t < size
    ensures LoopInRange(ShiftLoop(t, l), size + 1)
  {
    ShiftedMember(t, l, ShiftLoop(t, l).pre);
    var b := ShiftLoop(t, l).body;
    forall i | 0 <= i < |b| ensures b[i] < size + 1 {
      ShiftedMember(t, l, b[i]);
      if b[i] != t {
        var k :| 0 <= k < |l.body| && l.body[k] == Unshift(t, b[i]);
      }
    }
  }

  function RunLoop(u: Unit, n: nat, k: nat, spec: PureOp -> bool, dom: ExitDominance): (r: Unit)
    requires InRange(u) && n < |u.loops|
    ensures InRange(r) && |r.loops| == |u.loops|
    decreases |u.loops[n].body| - k
  {
    if k >= |u.loops[n].body| then u else
    VisitInRange(u, n, k, spec, dom);
    RunLoop(VisitSlot(u, n, k, spec, dom), n, k + 1, spec, dom)
  }

  function RunLoops(u: Unit, n: nat, spec: PureOp -> bool, dom: ExitDominance): (r: Unit)
    requires InRange(u)
    ensures InRange(r) && |r.loops| == |u.loops|
    decreases |u.loops| - n
  {
    if n >= |u.loops| then u else RunLoops(RunLoop(u, n, 0, spec, dom), n + 1, spec, dom)
  }

  ghost predicate UnitRefined(w: World, u: Unit, v: Unit) {
    UnitOk(v) && |v.loops| == |u.loops| && SameBehaviour(w, u.code, v.code)
  }

  /** Loops of a well-formed function are in range. */
  lemma LoopsOk(u: Unit)
    requires WellFormed(u.code) && forall n :: 0 <= n < |u.loops| ==> LoopOk(u.code, u.loops[n])
    ensures UnitOk(u)
  {
    hide WellFormed, InnerReachable, WholeBlocks, Edge;
    forall n | 0 <= n < |u.loops| ensures LoopInRange(u.loops[n], |u.code|) {
      LoopShape(u.code, u.loops[n]);
      assert forall i :: 0 <= i < |u.loops[n].body| ==> u.loops[n].body[i] in u.loops[n].body;
    }
  }

  lemma UnitInRange(u: Unit)
    requires UnitOk(u)
    ensures InRange(u)
  {
  }

  lemma ChosenIsHoistable(w: World, code: Code, l: Loop, x: Point, spec: PureOp -> bool, dominatesExits: bool)
    requires x in l.body && x < |code| && ShouldHoist(code, l, code[x], spec, dominatesExits)
    ensures Hoistable(w, code, l, x)
  {
    hide HasStores, HasAnyStores, LoopQuiet;
    if code[x].Load? {
      AcceptedLoadIsQuiet(w, code, l, code[x], dominatesExits);
    }
  }

  lemma VisitRefined(w: World, u: Unit, n: nat, k: nat, spec: PureOp -> bool, dom: ExitDominance)
    requires UnitOk(u) && LayoutOk(w) && n < |u.loops| && k < |u.loops[n].body|
    ensures UnitRefined(w, u, VisitSlot(u, n, k, spec, dom))
  {
    VisitInRange(u, n, k, spec, dom);
    hide WellFormed, LoopOk, LayoutOk, SameBehaviour, ShouldHoist, Hoistable, MoveBefore, InsertSlot, ShiftLoop, SameFlow, InRange;
    var l := u.loops[n];
    var x := l.body[k];
    assert LoopOk(u.code, l);
    LoopShape(u.code, l);
    assert x in l.body;
    if ShouldHoist(u.code, l, u.code[x], spec, dom(u.code, l, x)) {
      ChosenIsHoistable(w, u.code, l, x, spec, dom(u.code, l, x));
      HoistPreserves(w, u.code, l, x);
      forall m | 0 <= m < |u.loops| ensures LoopOk(MoveBefore(u.code, l.pre, x), ShiftLoop(l.pre, u.loops[m])) {
        ShiftedLoopOk(u.code, u.loops[m], l.pre);
        SameFlowLoop(InsertSlot(u.code, l.pre), MoveBefore(u.code, l.pre, x), ShiftLoop(l.pre, u.loops[m]));
      }
    } else {
      SameBehaviourReflexive(w, u.code);
    }
  }

  lemma {:induction false} RunLoopRefined(w: World, u: Unit, n: nat, k: nat, spec: PureOp -> bool, dom: ExitDominance)
    requires UnitOk(u) && LayoutOk(w) && n < |u.loops|
    ensures UnitRefined(w, u, RunLoop(u, n, k, spec, dom))
    decreases |u.loops[n].body| - k
  {
    UnitInRange(u);
    hide UnitOk, LayoutOk, SameBehaviour, VisitSlot, InRange;
    if k >= |u.loops[n].body| {
      SameBehaviourReflexive(w, u.code);
    } else {
      var v := VisitSlot(u, n, k, spec, dom);
      VisitInRange(u, n, k, spec, dom);
      VisitRefined(w, u, n, k, spec, dom);
      RunLoopRefined(w, v, n, k + 1, spec, dom);
      SameBehaviourTransitive(w, u.code, v.code, RunLoop(v, n, k + 1, spec, dom).code);
    }
  }

  /** The whole pass, inner loops first, changes nothing that can be observed. */
  lemma {:induction false} LicmPreserves(w: World, u: Unit, n: nat, spec: PureOp -> bool, dom: ExitDominance)
    requires UnitOk(u) && LayoutOk(w)
    ensures UnitRefined(w, u, RunLoops(u, n, spec, dom))
    decreases |u.loops| - n
  {
    UnitInRange(u);
    hide UnitOk, LayoutOk, SameBehaviour, InRange, RunLoop;
    if n >= |u.loops| {
      SameBehaviourReflexive(w, u.code);
    } else {
      var v := RunLoop(u, n, 0, spec, dom);
      RunLoopRefined(w, u, n, 0, spec, dom);
      LicmPreserves(w, v, n + 1, spec, dom);
      SameBehaviourTransitive(w, u.code, v.code, RunLoops(v, n + 1, spec, dom).code);
    }
  }

  // ------------------------------------------------------------ what is moved, and what is left

  /** d is c with the instruction at x moved right before t: the rest is renumbered, and whoever used x uses the new slot. */
  ghost predicate Moved(c: Code, d: Code, t: Point, x: Point)
    requires t < |c| && x < |c|
  {
    && |d| == |c| + 1 && d[t] == ShiftInst(t, c[x]) && d[Shift(t, x)] == Erased
    && forall p: Point :: p < |c| && p != x ==> d[Shift(t, p)] == RewireInst(Shift(t, x), Reg(t), ShiftInst(t, c[p]))
  }

  /** The same loops in the new numbers; the new slot belongs to those that t belongs to. */
  ghost predicate LoopMoved(l: Loop, l': Loop, t: Point) {
    && l'.pre == Shift(t, l.pre) && l'.header == ShiftTarget(t, l.header)
    && forall q: Point :: q in l'.body <==> if q == t then t in l.body else Unshift(t, q) in l.body
  }

  ghost predicate LoopsMoved(ls: seq<Loop>, ls': seq<Loop>, t: Point) {
    |ls'| == |ls| && forall n :: 0 <= n < |ls| ==> LoopMoved(ls[n], ls'[n], t)
  }

  /** No call in the loop, and no store but to other objects. */
  ghost predicate Spares(code: Code, l: Loop, a: Operand) {
    forall p :: p in l.body && p < |code| ==> !code[p].Call? && (code[p].Store? ==> IsObject(code, code[p].addr) && code[p].addr != a)
  }

  /**
    What one turn does: a speculatable instruction with no operand from the loop is moved; so is a load, not volatile, of a global
    or of an alloca outside the loop that the loop spares, or one of an address from outside a loop without stores and calls that
    dominates the exits. Everything else stays where it is.
  */
  ghost predicate Hoists(u: Unit, v: Unit, n: nat, k: nat, spec: PureOp -> bool, dom: ExitDominance)
    requires InRange(u) && n < |u.loops| && k < |u.loops[n].body|
  {
    assert LoopInRange(u.loops[n], |u.code|);
    var l := u.loops[n];
    var x := l.body[k];
    var y := u.code[x];
    if || (y.Pure? && spec(y.op) && forall d :: Uses(y, d) ==> d !in l.body)
       || (y.Load? && !y.vol && y.addr.Global? && Spares(u.code, l, y.addr))
       || (y.Load? && !y.vol && y.addr.Reg? && y.addr.p < |u.code| && u.code[y.addr.p].Alloca? && y.addr.p !in l.body && Spares(u.code, l, y.addr))
       || (y.Load? && !y.vol && (y.addr.Reg? ==> y.addr.p !in l.body) && dom(u.code, l, x)
           && forall p :: p in l.body && p < |u.code| ==> !u.code[p].Store? && !u.code[p].Call?)
    then Moved(u.code, v.code, l.pre, x) && LoopsMoved(u.loops, v.loops, l.pre)
    else v == u
  }

  lemma MoveMoves(c: Code, t: Point, x: Point)
    requires t < |c| && x < |c| && x != t && !Uses(c[x], x) && !IsTerminator(c[x])
    ensures Moved(c, MoveBefore(c, t, x), t, x)
  {
    MovedWhere(c, t, x);
    hide InsertSlot, RewireInst, ShiftInst;
    var d := MoveBefore(c, t, x);
    forall p: Point | p < |c| && p != x ensures d[Shift(t, p)] == RewireInst(Shift(t, x), Reg(t), ShiftInst(t, c[p])) {
      SlotAt(c, t, Shift(t, p));
    }
  }

  lemma ScanDecides(code: Code, l: Loop, a: Operand)
    ensures HasStores(code, l, a) <==> !Spares(code, l, a)
    ensures HasAnyStores(code, l) <==> !forall p :: p in l.body && p < |code| ==> !code[p].Store? && !code[p].Call?
  {
    if p :| p in l.body && p < |code| && !(!code[p].Call? && (code[p].Store? ==> IsObject(code, code[p].addr) && code[p].addr != a)) {
      var i :| 0 <= i < |l.body| && l.body[i] == p;
      assert BlocksMove(code, code[l.body[i]], a);
    }
    if p :| p in l.body && p < |code| && (code[p].Store? || code[p].Call?) {
      var i :| 0 <= i < |l.body| && l.body[i] == p;
      assert code[l.body[i]].Store? || code[l.body[i]].Call?;
    }
  }

  lemma OwnOperand(code: Code, l: Loop, x: Point, spec: PureOp -> bool, dominatesExits: bool)
    requires x < |code| && x in l.body && ShouldHoist(code, l, code[x], spec, dominatesExits)
    ensures !Uses(code[x], x) && !IsTerminator(code[x]) && (code[x].Pure? || code[x].Load?)
  {
    hide HasStores, HasAnyStores;
    if code[x].Load? {
      assert Operands(code[x]) == [code[x].addr];
    }
  }

  lemma LoopsAreMoved(t: Point, ls: seq<Loop>)
    ensures LoopsMoved(ls, ShiftLoops(t, ls), t)
  {
    hide ShiftBody;
    forall n | 0 <= n < |ls| ensures LoopMoved(ls[n], ShiftLoop(t, ls[n]), t) {
      forall q: Point ensures q in ShiftLoop(t, ls[n]).body <==> if q == t then t in ls[n].body else Unshift(t, q) in ls[n].body {
        ShiftedMember(t, ls[n], q);
      }
    }
  }

  lemma VisitHoists(u: Unit, n: nat, k: nat, spec: PureOp -> bool, dom: ExitDominance)
    requires InRange(u) && n < |u.loops| && k < |u.loops[n].body|
    ensures Hoists(u, VisitSlot(u, n, k, spec, dom), n, k, spec, dom)
  {
    hide MoveBefore, HasStores, HasAnyStores, Spares, Moved, LoopsMoved, ShiftLoop;
    assert LoopInRange(u.loops[n], |u.code|);
    var l := u.loops[n];
    var x := l.body[k];
    var y := u.code[x];
    if y.Load? {
      ScanDecides(u.code, l, y.addr);
    }
    assert InvariantOperands(u.code, l, y) <==> forall d :: Uses(y, d) ==> d !in l.body;
    if ShouldHoist(u.code, l, y, spec, dom(u.code, l, x)) {
      OwnOperand(u.code, l, x, spec, dom(u.code, l, x));
      MoveMoves(u.code, l.pre, x);
      LoopsAreMoved(l.pre, u.loops);
    }
  }

  /** An instruction that the pass moves whatever is around it: no operand is an instruction, or a load of a spared global. */
  ghost predicate Ready(code: Code, l: Loop, p: Point, spec: PureOp -> bool) {
    p < |code| &&
    (|| (code[p].Pure? && spec(code[p].op) && forall d :: !Uses(code[p], d))
     || (code[p].Load? && !code[p].vol && code[p].addr.Global? && Spares(code, l, code[p].addr)))
  }

  ghost predicate NothingReady(code: Code, l: Loop, spec: PureOp -> bool) {
    forall p :: p in l.body ==> !Ready(code, l, p, spec)
  }

  /** What becomes of each operand when x is moved to t. */
  lemma MovedOperands(y: Inst, t: Point, x: Point)
    ensures var z := RewireInst(Shift(t, x), Reg(t), ShiftInst(t, y));
      && |Operands(z)| == |Operands(y)|
      && forall i :: 0 <= i < |Operands(y)| ==> Operands(z)[i] == Rewire(Shift(t, x), Reg(t), ShiftOperand(t, Operands(y)[i]))
  {
  }

  lemma MovedUses(y: Inst, t: Point, x: Point, q: Point)
    ensures Uses(RewireInst(Shift(t, x), Reg(t), ShiftInst(t, y)), q) <==>
      if q == t then Uses(y, x) else q != Shift(t, x) && Uses(y, Unshift(t, q))
  {
    hide RewireInst, ShiftInst;
    MovedOperands(y, t, x);
    var z := RewireInst(Shift(t, x), Reg(t), ShiftInst(t, y));
    if Uses(z, q) {
      var i :| 0 <= i < |Operands(z)| && Operands(z)[i] == Reg(q);
      assert Operands(y)[i].Reg?;
    }
    if q == t && Uses(y, x) {
      var i :| 0 <= i < |Operands(y)| && Operands(y)[i] == Reg(x);
      assert Operands(z)[i] == Reg(t);
    }
    if q != t && q != Shift(t, x) && Uses(y, Unshift(t, q)) {
      var i :| 0 <= i < |Operands(y)| && Operands(y)[i] == Reg(Unshift(t, q));
      assert Operands(z)[i] == Reg(q);
    }
  }

  lemma MovedKind(y: Inst, t: Point, x: Point)
    ensures var z := RewireInst(Shift(t, x), Reg(t), ShiftInst(t, y));
      && (z.Pure? == y.Pure? && z.Load? == y.Load? && z.Store? == y.Store? && z.Call? == y.Call? && z.Alloca? == y.Alloca?)
      && (y.Pure? ==> z.op == y.op)
      && (y.Load? ==> z.vol == y.vol && z.addr == Rewire(Shift(t, x), Reg(t), ShiftOperand(t, y.addr)))
      && (y.Store? ==> z.addr == Rewire(Shift(t, x), Reg(t), ShiftOperand(t, y.addr)))
  {
  }

  /** An address is that of an object after the move only if it was before. */
  lemma MovedObject(c: Code, d: Code, t: Point, x: Point, a: Operand)
    requires t < |c| && x < |c| && (c[x].Pure? || c[x].Load?) && Moved(c, d, t, x)
    ensures var b := Rewire(Shift(t, x), Reg(t), ShiftOperand(t, a)); IsObject(d, b) ==> IsObject(c, a)
  {
    hide RewireInst, ShiftInst;
    MovedKind(c[x], t, x);
    ShiftMoves(c[x], t);
    if a.Reg? && a.p != x && a.p < |c| {
      MovedKind(c[a.p], t, x);
      assert d[Shift(t, a.p)] == RewireInst(Shift(t, x), Reg(t), ShiftInst(t, c[a.p]));
    }
    if a.Reg? && a.p >= |c| {
      assert Shift(t, a.p) >= |d|;
    }
  }

  lemma ShiftMoves(y: Inst, t: Point)
    ensures ShiftInst(t, y).Alloca? == y.Alloca?
  {
  }

  lemma MovedSpares(c: Code, d: Code, t: Point, x: Point, l: Loop, l': Loop, a: Operand)
    requires t < |c| && x < |c| && (c[x].Pure? || c[x].Load?) && Moved(c, d, t, x) && LoopMoved(l, l', t) && a.Global?
    requires Spares(d, l', a)
    ensures Spares(c, l, a)
  {
    hide RewireInst, ShiftInst, IsObject, Moved;
    forall p | p in l.body && p < |c| ensures !c[p].Call? && (c[p].Store? ==> IsObject(c, c[p].addr) && c[p].addr != a) {
      if p != x {
        MovedAt(c, d, t, x, p);
        MovedKind(c[p], t, x);
        assert Shift(t, p) in l'.body;
        if c[p].Store? {
          MovedObject(c, d, t, x, c[p].addr);
        }
      }
    }
  }

  lemma MovedAt(c: Code, d: Code, t: Point, x: Point, p: Point)
    requires t < |c| && x < |c| && p < |c| && p != x && Moved(c, d, t, x)
    ensures |d| == |c| + 1 && Shift(t, p) < |d| && d[Shift(t, p)] == RewireInst(Shift(t, x), Reg(t), ShiftInst(t, c[p]))
  {
    hide RewireInst, ShiftInst;
  }

  /** A move makes no slot ready but the one that is filled. */
  lemma MovedReady(c: Code, d: Code, t: Point, x: Point, l: Loop, l': Loop, p': Point, spec: PureOp -> bool)
    requires t < |c| && x < |c| && (c[x].Pure? || c[x].Load?) && Moved(c, d, t, x) && LoopMoved(l, l', t)
    requires p' != t && Ready(d, l', p', spec)
    ensures Unshift(t, p') != x && Ready(c, l, Unshift(t, p'), spec)
  {
    hide RewireInst, ShiftInst, Spares;
    var p := Unshift(t, p');
    assert p' == Shift(t, p) && p < |c|;
    if p != x {
      MovedAt(c, d, t, x, p);
      MovedKind(c[p], t, x);
      if c[p].Pure? {
        forall q ensures !Uses(c[p], q) {
          MovedUses(c[p], t, x, t);
          MovedUses(c[p], t, x, Shift(t, q));
        }
      } else {
        MovedSpares(c, d, t, x, l, l', c[p].addr);
      }
    }
  }

  /** No later loop's preheader lies in an earlier loop: inner loops come first. */
  predicate InnerFirst(ls: seq<Loop>) {
    forall m, n :: 0 <= m < n < |ls| ==> ls[n].pre !in ls[m].body
  }

  lemma InnerFirstMoved(ls: seq<Loop>, ls': seq<Loop>, t: Point)
    requires InnerFirst(ls) && LoopsMoved(ls, ls', t)
    ensures InnerFirst(ls')
  {
    forall m, n | 0 <= m < n < |ls'| ensures ls'[n].pre !in ls'[m].body {
      assert LoopMoved(ls[m], ls'[m], t) && LoopMoved(ls[n], ls'[n], t);
    }
  }

  /** Nothing in the first n loops and the first k slots of loop n is ready any more. */
  ghost predicate Cleared(u: Unit, n: nat, k: nat, spec: PureOp -> bool)
    requires InRange(u) && n < |u.loops| && k <= |u.loops[n].body|
  {
    && InnerFirst(u.loops) && (forall m :: 0 <= m < n ==> NothingReady(u.code, u.loops[m], spec))
    && forall j :: 0 <= j < k ==> !Ready(u.code, u.loops[n], u.loops[n].body[j], spec)
  }

  lemma MovedClears(u: Unit, v: Unit, n: nat, k: nat, spec: PureOp -> bool)
    requires InRange(u) && InRange(v) && n < |u.loops| && k < |u.loops[n].body| && Cleared(u, n, k, spec)
    requires u.loops[n].pre < |u.code| && u.loops[n].pre !in u.loops[n].body && u.loops[n].body[k] < |u.code|
    requires var y := u.code[u.loops[n].body[k]]; y.Pure? || y.Load?
    requires Moved(u.code, v.code, u.loops[n].pre, u.loops[n].body[k]) && LoopsMoved(u.loops, v.loops, u.loops[n].pre)
    requires |v.loops[n].body| == |u.loops[n].body|
    requires forall j :: 0 <= j < |u.loops[n].body| ==> v.loops[n].body[j] == Shift(u.loops[n].pre, u.loops[n].body[j])
    ensures Cleared(v, n, k + 1, spec)
  {
    hide Moved, Ready, InRange;
    var t, x := u.loops[n].pre, u.loops[n].body[k];
    InnerFirstMoved(u.loops, v.loops, t);
    forall m | 0 <= m < n ensures NothingReady(v.code, v.loops[m], spec) {
      assert LoopMoved(u.loops[m], v.loops[m], t);
      forall p' | p' in v.loops[m].body ensures !Ready(v.code, v.loops[m], p', spec) {
        assert p' != t && Unshift(t, p') in u.loops[m].body;
        if Ready(v.code, v.loops[m], p', spec) {
          MovedReady(u.code, v.code, t, x, u.loops[m], v.loops[m], p', spec);
        }
      }
    }
    assert LoopMoved(u.loops[n], v.loops[n], t);
    forall j | 0 <= j < k + 1 ensures !Ready(v.code, v.loops[n], v.loops[n].body[j], spec) {
      var p' := v.loops[n].body[j];
      assert p' != t && Unshift(t, p') == u.loops[n].body[j];
      if Ready(v.code, v.loops[n], p', spec) {
        MovedReady(u.code, v.code, t, x, u.loops[n], v.loops[n], p', spec);
      }
    }
  }

  lemma ReadyIsHoisted(u: Unit, n: nat, k: nat, spec: PureOp -> bool, dom: ExitDominance)
    requires InRange(u) && n < |u.loops| && k < |u.loops[n].body| && Ready(u.code, u.loops[n], u.loops[n].body[k], spec)
    ensures LoopInRange(u.loops[n], |u.code|)
    ensures var l := u.loops[n]; ShouldHoist(u.code, l, u.code[l.body[k]], spec, dom(u.code, l, l.body[k]))
  {
    hide HasStores, HasAnyStores, Spares;
    assert LoopInRange(u.loops[n], |u.code|);
    var y := u.code[u.loops[n].body[k]];
    if y.Load? {
      ScanDecides(u.code, u.loops[n], y.addr);
    } else {
      forall o | o in Operands(y) ensures !o.Reg? {
        assert o.Reg? ==> Uses(y, o.p);
      }
    }
  }

  lemma VisitClears(u: Unit, n: nat, k: nat, spec: PureOp -> bool, dom: ExitDominance)
    requires InRange(u) && n < |u.loops| && k < |u.loops[n].body| && Cleared(u, n, k, spec)
    ensures var v := VisitSlot(u, n, k, spec, dom); InRange(v) && |v.loops[n].body| == |u.loops[n].body| && Cleared(v, n, k + 1, spec)
  {
    hide MoveBefore, Moved, LoopsMoved, Ready, ShiftLoop, ShouldHoist, NothingReady, InnerFirst;
    var v := VisitSlot(u, n, k, spec, dom);
    VisitInRange(u, n, k, spec, dom);
    assert LoopInRange(u.loops[n], |u.code|);
    var l := u.loops[n];
    var x := l.body[k];
    if ShouldHoist(u.code, l, u.code[x], spec, dom(u.code, l, x)) {
      assert x in l.body;
      OwnOperand(u.code, l, x, spec, dom(u.code, l, x));
      MoveMoves(u.code, l.pre, x);
      LoopsAreMoved(l.pre, u.loops);
      OwnBodyKeepsSize(l.pre, l, |u.code|);
      MovedClears(u, v, n, k, spec);
    } else if Ready(u.code, l, x, spec) {
      ReadyIsHoisted(u, n, k, spec, dom);
    }
  }

  lemma {:induction false} RunLoopClears(u: Unit, n: nat, k: nat, spec: PureOp -> bool, dom: ExitDominance)
    requires InRange(u) && n < |u.loops| && k <= |u.loops[n].body| && Cleared(u, n, k, spec)
    ensures var v := RunLoop(u, n, k, spec, dom); InnerFirst(v.loops) && forall m :: 0 <= m <= n ==> NothingReady(v.code, v.loops[m], spec)
    decreases |u.loops[n].body| - k
  {
    hide VisitSlot, Ready, InRange, InnerFirst;
    if k < |u.loops[n].body| {
      VisitClears(u, n, k, spec, dom);
      RunLoopClears(VisitSlot(u, n, k, spec, dom), n, k + 1, spec, dom);
    }
  }

  /** When the pass is over, nothing in any loop is ready to be moved. */
  lemma {:induction false} RunLoopsClear(u: Unit, n: nat, spec: PureOp -> bool, dom: ExitDominance)
    requires InRange(u) && InnerFirst(u.loops) && forall m :: 0 <= m < n && m < |u.loops| ==> NothingReady(u.code, u.loops[m], spec)
    ensures var v := RunLoops(u, n, spec, dom); forall m :: 0 <= m < |v.loops| ==> NothingReady(v.code, v.loops[m], spec)
    decreases |u.loops| - n
  {
    hide RunLoop, NothingReady, InRange, InnerFirst;
    assert n >= |u.loops| ==> RunLoops(u, n, spec, dom) == u;
    if n < |u.loops| {
      RunLoopClears(u, n, 0, spec, dom);
      var v := RunLoop(u, n, 0, spec, dom);
      RunLoopsClear(v, n + 1, spec, dom);
      assert RunLoops(u, n, spec, dom) == RunLoops(v, n + 1, spec, dom);
    }
  }

  /** The slots of the loop are listed once each, and definitions before their uses. */
  ghost predicate InOrder(code: Code, l: Loop) {
    && (forall i, j :: 0 <= i < j < |l.body| ==> l.body[i] != l.body[j])
    && forall i, j :: 0 <= i < |l.body| && 0 <= j < |l.body| && l.body[i] < |code| && Uses(code[l.body[i]], l.body[j]) ==> j < i
  }

  ghost predicate NeedsEarlier(code: Code, l: Loop, j: nat)
    requires j < |l.body| && l.body[j] < |code|
  {
    exists m :: 0 <= m < j && Uses(code[l.body[j]], l.body[m])
  }

  /** The speculatable instructions among the first k slots need another one of them. */
  ghost predicate Settled(code: Code, l: Loop, k: nat, spec: PureOp -> bool)
    requires LoopInRange(l, |code|) && k <= |l.body|
  {
    InOrder(code, l) && forall j :: 0 <= j < k && code[l.body[j]].Pure? && spec(code[l.body[j]].op) ==> NeedsEarlier(code, l, j)
  }

  /** The numbering of the loop after its own slot k has been moved out. */
  ghost predicate OwnMoved(c: Code, d: Code, l: Loop, l': Loop, k: nat) {
    && LoopInRange(l, |c|) && LoopInRange(l', |d|) && k < |l.body| && |l'.body| == |l.body| && Moved(c, d, l.pre, l.body[k])
    && forall j :: 0 <= j < |l.body| ==> l'.body[j] == Shift(l.pre, l.body[j])
  }

  lemma OwnUses(c: Code, d: Code, l: Loop, l': Loop, k: nat, i: nat, j: nat)
    requires OwnMoved(c, d, l, l', k) && i < |l.body| && j < |l.body|
    ensures Uses(d[l'.body[i]], l'.body[j]) <==> i != k && l.body[i] != l.body[k] && l.body[j] != l.body[k] && Uses(c[l.body[i]], l.body[j])
    ensures l.body[i] != l.body[k] ==>
      var y, z := c[l.body[i]], d[l'.body[i]]; z.Pure? == y.Pure? && (y.Pure? ==> z.op == y.op)
    ensures l.body[i] == l.body[k] ==> d[l'.body[i]] == Erased
  {
    hide RewireInst, ShiftInst;
    var t, x := l.pre, l.body[k];
    assert l.body[i] in l.body && l.body[j] in l.body;
    if l.body[i] != x {
      MovedAt(c, d, t, x, l.body[i]);
      MovedUses(c[l.body[i]], t, x, l'.body[j]);
      MovedKind(c[l.body[i]], t, x);
    }
  }

  lemma MoveSettles(c: Code, d: Code, l: Loop, l': Loop, k: nat, spec: PureOp -> bool)
    requires OwnMoved(c, d, l, l', k) && Settled(c, l, k, spec)
    ensures Settled(d, l', k + 1, spec)
  {
    hide Moved;
    forall i, j | 0 <= i < |l'.body| && 0 <= j < |l'.body| && l'.body[i] < |d| && Uses(d[l'.body[i]], l'.body[j]) ensures j < i {
      OwnUses(c, d, l, l', k, i, j);
    }
    forall i, j | 0 <= i < j < |l'.body| ensures l'.body[i] != l'.body[j] {
      assert l.body[i] != l.body[j];
    }
    forall j | 0 <= j < k + 1 && d[l'.body[j]].Pure? && spec(d[l'.body[j]].op) ensures NeedsEarlier(d, l', j) {
      OwnUses(c, d, l, l', k, j, j);
      assert NeedsEarlier(c, l, j);
      var m :| 0 <= m < j && Uses(c[l.body[j]], l.body[m]);
      OwnUses(c, d, l, l', k, j, m);
    }
  }

  lemma StaySettles(code: Code, l: Loop, k: nat, spec: PureOp -> bool)
    requires LoopInRange(l, |code|) && k < |l.body| && Settled(code, l, k, spec)
    requires !(code[l.body[k]].Pure? && spec(code[l.body[k]].op) && InvariantOperands(code, l, code[l.body[k]]))
    ensures Settled(code, l, k + 1, spec)
  {
    var y := code[l.body[k]];
    if y.Pure? && spec(y.op) {
      var o :| o in Operands(y) && o.Reg? && o.p in l.body;
      var m :| 0 <= m < |l.body| && l.body[m] == o.p;
      assert Uses(y, l.body[m]);
    }
  }

  lemma VisitSettles(u: Unit, n: nat, k: nat, spec: PureOp -> bool, dom: ExitDominance)
    requires InRange(u) && n < |u.loops| && k < |u.loops[n].body| && LoopInRange(u.loops[n], |u.code|) && Settled(u.code, u.loops[n], k, spec)
    ensures var v := VisitSlot(u, n, k, spec, dom);
      && InRange(v) && LoopInRange(v.loops[n], |v.code|) && |v.loops[n].body| == |u.loops[n].body|
      && Settled(v.code, v.loops[n], k + 1, spec)
  {
    hide MoveBefore, Moved, ShiftLoop, HasStores, HasAnyStores, Settled;
    var v := VisitSlot(u, n, k, spec, dom);
    VisitInRange(u, n, k, spec, dom);
    assert LoopInRange(v.loops[n], |v.code|);
    var l := u.loops[n];
    var x := l.body[k];
    if ShouldHoist(u.code, l, u.code[x], spec, dom(u.code, l, x)) {
      assert x in l.body;
      OwnOperand(u.code, l, x, spec, dom(u.code, l, x));
      MoveMoves(u.code, l.pre, x);
      OwnBodyKeepsSize(l.pre, l, |u.code|);
      MoveSettles(u.code, v.code, l, v.loops[n], k, spec);
    } else {
      StaySettles(u.code, l, k, spec);
    }
  }

  /** Definitions first: then one run leaves no speculatable instruction whose operands all come from outside. */
  lemma {:induction false} RunLoopSettles(u: Unit, n: nat, k: nat, spec: PureOp -> bool, dom: ExitDominance)
    requires InRange(u) && n < |u.loops| && k <= |u.loops[n].body| && LoopInRange(u.loops[n], |u.code|) && Settled(u.code, u.loops[n], k, spec)
    ensures var v := RunLoop(u, n, k, spec, dom); NoInvariantLeft(v.code, v.loops[n], spec)
    decreases |u.loops[n].body| - k
  {
    hide VisitSlot, InRange, Settled, NoInvariantLeft;
    if k < |u.loops[n].body| {
      VisitSettles(u, n, k, spec, dom);
      RunLoopSettles(VisitSlot(u, n, k, spec, dom), n, k + 1, spec, dom);
    } else {
      SettledAll(u.code, u.loops[n], spec);
    }
  }

  ghost predicate NoInvariantLeft(code: Code, l: Loop, spec: PureOp -> bool) {
    forall p :: p in l.body && p < |code| && code[p].Pure? && spec(code[p].op) ==> exists d :: d in l.body && Uses(code[p], d)
  }

  lemma SettledAll(code: Code, l: Loop, spec: PureOp -> bool)
    requires LoopInRange(l, |code|) && Settled(code, l, |l.body|, spec)
    ensures NoInvariantLeft(code, l, spec)
  {
    forall p | p in l.body && p < |code| && code[p].Pure? && spec(code[p].op) ensures exists d :: d in l.body && Uses(code[p], d) {
      var j :| 0 <= j < |l.body| && l.body[j] == p;
      assert NeedsEarlier(code, l, j);
      var m :| 0 <= m < j && Uses(code[l.body[j]], l.body[m]);
      assert l.body[m] in l.body;
    }
  }

  class LoopPass {
    var code: Code
    var loops: seq<Loop>
    const spec: PureOp -> bool
    const dom: ExitDominance

    constructor (code: Code, loops: seq<Loop>, spec: PureOp -> bool, dom: ExitDominance)
      ensures this.code == code && this.loops == loops && this.spec == spec && this.dom == dom
    {
      this.code, this.loops, this.spec, this.dom := code, loops, spec, dom;
    }

    /** The scan over the loop with its two flags. */
    method CanMoveLoadOutOfLoop(l: Loop, x: Point) returns (r: bool)
      requires x < |code| && code[x].Load? && LoopInRange(l, |code|)
      ensures r == CanMoveLoad(code, l, code[x], dom(code, l, x))
    {
      var a := code[x].addr;
      if code[x].vol {
        return false;
      }
      var hasStores, hasAnyStores := false, false;
      var k := 0;
      while k < |l.body|
        invariant k <= |l.body|
        invariant hasStores <==> exists i :: 0 <= i < k && BlocksMove(code, code[l.body[i]], a)
        invariant hasAnyStores <==> exists i :: 0 <= i < k && (code[l.body[i]].Store? || code[l.body[i]].Call?)
      {
        var y := code[l.body[k]];
        if y.Store? {
          hasAnyStores := true;
          hasStores := hasStores || IsSameAddress(code, y.addr, a);
        } else if y.Call? {
          hasAnyStores, hasStores := true, true;
        }
        k := k + 1;
      }
      assert hasStores == HasStores(code, l, a);
      assert hasAnyStores == HasAnyStores(code, l);
      var isAllocaInsideLoop := IsAlloca(code, a) && a.p in l.body;
      if a.Global? && !hasStores {
        return true;
      }
      if IsAlloca(code, a) && !hasStores && !isAllocaInsideLoop {
        return true;
      }
      return !hasAnyStores && (a.Reg? ==> a.p !in l.body) && dom(code, l, x);
    }

    method MoveLoopInvariants(n: nat, k: nat)
      requires InRange(Unit(code, loops)) && n < |loops| && k < |loops[n].body|
      modifies this`code, this`loops
      ensures Unit(code, loops) == VisitSlot(old(Unit(code, loops)), n, k, spec, dom)
      ensures Hoists(old(Unit(code, loops)), Unit(code, loops), n, k, spec, dom)
      ensures UnitOk(old(Unit(code, loops))) ==>
        forall w: World :: LayoutOk(w) ==> UnitRefined(w, old(Unit(code, loops)), Unit(code, loops))
    {
      ghost var u := Unit(code, loops);
      if UnitOk(u) {
        forall w: World | LayoutOk(w) ensures UnitRefined(w, u, VisitSlot(u, n, k, spec, dom)) {
          VisitRefined(w, u, n, k, spec, dom);
        }
      }
      VisitHoists(u, n, k, spec, dom);
      hide UnitOk, UnitRefined, LayoutOk;
      var l := loops[n];
      assert LoopInRange(l, |code|);
      var x := l.body[k];
      var accepted := false;
      if code[x].Pure? {
        accepted := InvariantOperands(code, l, code[x]) && spec(code[x].op);
      } else if code[x].Load? {
        accepted := CanMoveLoadOutOfLoop(l, x);
      }
      if accepted {
        code := MoveBefore(code, l.pre, x);
        loops := ShiftLoops(l.pre, loops);
      }
    }

    method LoopInvariantCodeMotion(n: nat)
      requires InRange(Unit(code, loops)) && n < |loops|
      modifies this`code, this`loops
      ensures Unit(code, loops) == RunLoop(old(Unit(code, loops)), n, 0, spec, dom)
      ensures |loops| == |old(loops)| && (InOrder(old(code), old(loops)[n]) ==> NoInvariantLeft(code, loops[n], spec))
    {
      if InOrder(code, loops[n]) {
        assert LoopInRange(loops[n], |code|);
        RunLoopSettles(Unit(code, loops), n, 0, spec, dom);
      }
      var k := 0;
      while k < |loops[n].body|
        invariant InRange(Unit(code, loops)) && |loops| == |old(loops)| && k <= |loops[n].body|
        invariant RunLoop(Unit(code, loops), n, k, spec, dom) == RunLoop(old(Unit(code, loops)), n, 0, spec, dom)
        decreases |loops[n].body| - k
      {
        VisitInRange(Unit(code, loops), n, k, spec, dom);
        MoveLoopInvariants(n, k);
        k := k + 1;
      }
    }

    /** workOnNestedLoops, with the loops listed inner first. */
    method WorkOnNestedLoops()
      requires WellFormed(code) && forall n :: 0 <= n < |loops| ==> LoopOk(code, loops[n])
      modifies this`code, this`loops
      ensures InRange(old(Unit(code, loops))) && Unit(code, loops) == RunLoops(old(Unit(code, loops)), 0, spec, dom)
      ensures forall w: World :: (LayoutOk(w) ==> WellFormed(code) && SameBehaviour(w, old(code), code))
      ensures InnerFirst(old(loops)) ==> forall m :: 0 <= m < |loops| ==> NothingReady(code, loops[m], spec)
    {
      LoopsOk(Unit(code, loops));
      hide WellFormed, LoopOk;
      var n := 0;
      while n < |loops|
        invariant InRange(Unit(code, loops)) && |loops| == |old(loops)| && n <= |loops|
        invariant RunLoops(Unit(code, loops), n, spec, dom) == RunLoops(old(Unit(code, loops)), 0, spec, dom)
      {
        LoopInvariantCodeMotion(n);
        n := n + 1;
      }
      forall w: World | LayoutOk(w) ensures WellFormed(code) && SameBehaviour(w, old(code), code) {
        LicmPreserves(w, old(Unit(code, loops)), 0, spec, dom);
      }
      if InnerFirst(old(loops)) {
        RunLoopsClear(old(Unit(code, loops)), 0, spec, dom);
      }
    }
  }
}
