/**
  A small SSA intermediate representation, the part of LLVM that the passes in
  projects/p2, projects/p3 and tutorials/3 inspect and rewrite.

  A function is a flat sequence of instruction slots. The position of a slot is also the
  name of the value it defines. A basic block is a maximal run of slots that ends in a
  terminator. Erasing an instruction leaves the vacant slot `Erased` behind, which executes
  as a no-operation.
*/
module IR {
  type Point = nat

  /** The value-computing opcodes without side effects. */
  datatype PureOp =
    | Add | FNeg | FAdd | Sub | FSub | Mul | FMul | UDiv | SDiv | FDiv | URem | SRem | FRem
    | Shl | LShr | AShr | And | Or | Xor | GetElementPtr
    | Trunc | ZExt | SExt | FPToUI | FPToSI | UIToFP | SIToFP | FPTrunc | FPExt
    | PtrToInt | IntToPtr | BitCast | AddrSpaceCast | ICmp | FCmp | Select
    | ExtractElement | InsertElement | ShuffleVector | ExtractValue | InsertValue

  datatype Operand = Const(c: int) | Arg(i: nat) | Global(g: nat) | Reg(p: Point)

  datatype Inst =
    | Pure(op: PureOp, args: seq<Operand>)
    | Alloca(site: nat)
    | Load(ty: nat, addr: Operand, vol: bool)
    | Store(ty: nat, val: Operand, addr: Operand, vol: bool)
    | Call(callee: nat, args: seq<Operand>)
    | Br(cond: Operand, thn: Point, els: Point)
    | Ret(val: Operand)
    | Erased

  type Code = seq<Inst>

  function Operands(x: Inst): seq<Operand> {
    match x
    case Pure(_, args) => args
    case Alloca(_) => []
    case Load(_, a, _) => [a]
    case Store(_, v, a, _) => [v, a]
    case Call(_, args) => args
    case Br(c, _, _) => [c]
    case Ret(v) => [v]
    case Erased => []
  }

  predicate Uses(x: Inst, d: Point) {
    Reg(d) in Operands(x)
  }

  predicate IsTerminator(x: Inst) {
    x.Br? || x.Ret?
  }

  predicate Produces(x: Inst) {
    x.Pure? || x.Alloca? || x.Load? || x.Call?
  }

  /** Computes a value and does nothing else that the rest of the program can see. */
  predicate Removable(x: Inst) {
    x.Pure? || x.Alloca? || (x.Load? && !x.vol)
  }

  // ---------------------------------------------------------------- execution

  type Mem = map<int, int>

  datatype Event =
    | Called(callee: nat, args: seq<int>, mem: Mem)
    | VolatileLoad(ty: nat, addr: int, value: int)
    | VolatileStore(ty: nat, addr: int, value: int)

  /**
    Everything the program text leaves open: the memory at the start (cells that it does not
    name hold 0), arithmetic, the arguments, where globals and stack slots lie, the layout of
    each type, and what called functions do. A call may depend on its arguments, on memory,
    and on everything observable that happened before it.
  */
  datatype World = World(
    init: Mem,
    eval: (PureOp, seq<int>) -> int,
    arg: nat -> int,
    global: nat -> int,
    frame: nat -> int,
    width: nat -> nat,
    encode: (nat, int) -> seq<int>,
    decode: (nat, seq<int>) -> int,
    callValue: (nat, seq<int>, Mem, seq<Event>) -> int,
    callMem: (nat, seq<int>, Mem, seq<Event>) -> Mem)

  ghost predicate LayoutOk(w: World) {
    && (forall ty, v :: |w.encode(ty, v)| == w.width(ty) && w.decode(ty, w.encode(ty, v)) == v)
    && (forall g, h, t, u :: g != h ==> Apart(w.global(g), w.width(t), w.global(h), w.width(u)))
    && (forall s, r, t, u :: s != r ==> Apart(w.frame(s), w.width(t), w.frame(r), w.width(u)))
    && (forall g, s, t, u :: Apart(w.global(g), w.width(t), w.frame(s), w.width(u)))
  }

  /** [a, a+m) and [b, b+n) share no cell. */
  predicate Apart(a: int, m: nat, b: int, n: nat) {
    a + m <= b || b + n <= a
  }

  ghost predicate CallsKeepMemory(w: World) {
    forall f, args, m, out :: w.callMem(f, args, m, out) == m
  }

  function ReadCells(m: Mem, a: int, n: nat): (r: seq<int>)
    ensures |r| == n
  {
    seq(n, i => if a + i in m then m[a + i] else 0)
  }

  function Cells(a: int, n: nat): (r: set<int>)
    ensures forall k :: k in r <==> a <= k < a + n
  {
    if n == 0 then {} else Cells(a, n - 1) + {a + n - 1}
  }

  function WriteCells(m: Mem, a: int, s: seq<int>): Mem {
    m + map k | k in Cells(a, |s|) :: s[k - a]
  }

  lemma ReadBack(m: Mem, a: int, s: seq<int>)
    ensures ReadCells(WriteCells(m, a, s), a, |s|) == s
  {
  }

  lemma ReadApart(m: Mem, a: int, s: seq<int>, b: int, n: nat)
    requires Apart(a, |s|, b, n)
    ensures ReadCells(WriteCells(m, a, s), b, n) == ReadCells(m, b, n)
  {
  }

  lemma WriteOver(m: Mem, a: int, s: seq<int>, t: seq<int>)
    requires |s| == |t|
    ensures WriteCells(WriteCells(m, a, s), a, t) == WriteCells(m, a, t)
  {
  }

  datatype Status = Running | Returned(value: int)

  /** `hist` is every slot visited so far; its last entry is the slot about to execute. */
  datatype State = State(hist: seq<Point>, env: map<Point, int>, mem: Mem, out: seq<Event>, status: Status)
  {
    function Pc(): Point
      requires hist != []
    {
      hist[|hist| - 1]
    }
  }

  function Eval(w: World, env: map<Point, int>, o: Operand): int {
    match o
    case Const(c) => c
    case Arg(i) => w.arg(i)
    case Global(g) => w.global(g)
    case Reg(p) => if p in env then env[p] else 0
  }

  function EvalAll(w: World, env: map<Point, int>, os: seq<Operand>): (r: seq<int>)
    ensures |r| == |os|
  {
    seq(|os|, i requires 0 <= i < |os| => Eval(w, env, os[i]))
  }

  function LoadValue(w: World, m: Mem, ty: nat, a: int): int {
    w.decode(ty, ReadCells(m, a, w.width(ty)))
  }

  /** The value that executing the producing instruction x defines. */
  function ValueOf(w: World, st: State, x: Inst): int
    requires Produces(x)
  {
    match x
    case Pure(op, args) => w.eval(op, EvalAll(w, st.env, args))
    case Alloca(site) => w.frame(site)
    case Load(ty, a, _) => LoadValue(w, st.mem, ty, Eval(w, st.env, a))
    case Call(f, args) => w.callValue(f, EvalAll(w, st.env, args), st.mem, st.out)
  }

  function NextPc(w: World, st: State, x: Inst): Point
    requires st.hist != []
  {
    match x
    case Br(c, t, e) => if Eval(w, st.env, c) != 0 then t else e
    case _ => st.Pc() + 1
  }

  function NextEnv(w: World, st: State, x: Inst): map<Point, int>
    requires st.hist != []
  {
    if Produces(x) then st.env[st.Pc() := ValueOf(w, st, x)] else st.env
  }

  function NextMem(w: World, st: State, x: Inst): Mem {
    match x
    case Store(ty, v, a, _) => WriteCells(st.mem, Eval(w, st.env, a), w.encode(ty, Eval(w, st.env, v)))
    case Call(f, args) => w.callMem(f, EvalAll(w, st.env, args), st.mem, st.out)
    case _ => st.mem
  }

  function NextOut(w: World, st: State, x: Inst): seq<Event> {
    match x
    case Load(ty, a, vol) =>
      if vol then st.out + [VolatileLoad(ty, Eval(w, st.env, a), ValueOf(w, st, x))] else st.out
    case Store(ty, v, a, vol) =>
      if vol then st.out + [VolatileStore(ty, Eval(w, st.env, a), Eval(w, st.env, v))] else st.out
    case Call(f, args) => st.out + [Called(f, EvalAll(w, st.env, args), st.mem)]
    case _ => st.out
  }

  function Step(w: World, code: Code, st: State): (r: State)
    requires st.hist != []
    ensures r.hist != []
  {
    if st.status.Returned? || st.Pc() >= |code| then st
    else if code[st.Pc()].Ret? then st.(status := Returned(Eval(w, st.env, code[st.Pc()].val)))
    else
      var x := code[st.Pc()];
      State(st.hist + [NextPc(w, st, x)], NextEnv(w, st, x), NextMem(w, st, x), NextOut(w, st, x), Running)
  }

  /** A world in which every object has a cell of its own and calls do nothing to memory. */
  function Calm(): World {
    World(map[], (op, vs) => 0, i => 0, g => 2 * g, s => 2 * s + 1, ty => 1, (ty, v) => [v], (ty, cells) => if cells == [] then 0 else cells[0],
      (f, vs, m, out) => 0, (f, vs, m, out) => m)
  }

  ghost predicate OneCell(w: World) {
    && (forall ty: nat, v :: w.encode(ty, v) == [v] && w.decode(ty, [v]) == v)
    && (forall ty: nat :: w.width(ty) == 1) && (forall g: nat :: w.global(g) == 2 * g) && forall s: nat :: w.frame(s) == 2 * s + 1
  }

  lemma CalmIsWorld()
    ensures LayoutOk(Calm()) && CallsKeepMemory(Calm())
  {
    CalmParts();
    hide *;
    OneCellLayout(Calm());
  }

  lemma CalmParts()
    ensures OneCell(Calm()) && CallsKeepMemory(Calm())
  {
  }

  lemma OneCellLayout(w: World)
    requires OneCell(w)
    ensures LayoutOk(w)
  {
    forall g: nat, h: nat, t: nat, u: nat | g != h ensures Apart(w.global(g), w.width(t), w.global(h), w.width(u)) {}
    forall s: nat, r: nat, t: nat, u: nat | s != r ensures Apart(w.frame(s), w.width(t), w.frame(r), w.width(u)) {}
    forall g: nat, s: nat, t: nat, u: nat ensures Apart(w.global(g), w.width(t), w.frame(s), w.width(u)) {}
    hide Apart;
  }

  /** Removable are exactly the instructions that yield a value and never touch memory or what is observed. */
  lemma RemovableExact(x: Inst)
    ensures Removable(x) <==>
      Produces(x) && forall w: World, st: State :: NextMem(w, st, x) == st.mem && NextOut(w, st, x) == st.out
  {
    if Produces(x) && !Removable(x) {
      var w := Calm();
      assert |NextOut(w, Start(w), x)| == 1;
    }
  }

  function Start(w: World): State {
    State([0], map[], w.init, [], Running)
  }

  function Run(w: World, code: Code, n: nat): (r: State)
    ensures r.hist != []
  {
    if n == 0 then Start(w) else Step(w, code, Run(w, code, n - 1))
  }

  /** What an outside observer sees: the events so far and, on return, the value and memory. */
  datatype Seen = Seen(out: seq<Event>, status: Status, mem: Mem)

  function Observe(st: State): Seen {
    Seen(st.out, st.status, if st.status.Returned? then st.mem else map[])
  }

  ghost predicate Shows(w: World, c: Code, seen: Seen) {
    exists n: nat :: Observe(Run(w, c, n)) == seen
  }

  /** c and d show an observer the same things, for finished and for endless runs. */
  ghost predicate SameBehaviour(w: World, c: Code, d: Code) {
    && (forall n: nat :: Shows(w, d, Observe(Run(w, c, n))))
    && (forall n: nat :: Shows(w, c, Observe(Run(w, d, n))))
  }

  lemma SameBehaviourReflexive(w: World, a: Code)
    ensures SameBehaviour(w, a, a)
  {
  }

  lemma SameBehaviourTransitive(w: World, a: Code, b: Code, c: Code)
    requires SameBehaviour(w, a, b) && SameBehaviour(w, b, c)
    ensures SameBehaviour(w, a, c)
  {
    forall n: nat ensures Shows(w, c, Observe(Run(w, a, n))) {
      var k: nat :| Observe(Run(w, b, k)) == Observe(Run(w, a, n));
      assert Shows(w, c, Observe(Run(w, b, k)));
    }
    forall n: nat ensures Shows(w, a, Observe(Run(w, c, n))) {
      var k: nat :| Observe(Run(w, b, k)) == Observe(Run(w, c, n));
      assert Shows(w, a, Observe(Run(w, b, k)));
    }
  }

  lemma LockStep(w: World, c: Code, d: Code)
    requires forall n: nat :: Observe(Run(w, c, n)) == Observe(Run(w, d, n))
    ensures SameBehaviour(w, c, d)
  {
    forall n: nat ensures Shows(w, d, Observe(Run(w, c, n))) && Shows(w, c, Observe(Run(w, d, n))) {
      assert Observe(Run(w, c, n)) == Observe(Run(w, d, n));
    }
  }

  // ---------------------------------------------------------------- control flow

  predicate Edge(code: Code, p: Point, q: Point) {
    p < |code| &&
    match code[p]
    case Br(_, t, e) => q == t || q == e
    case Ret(_) => false
    case _ => q == p + 1
  }

  ghost predicate IsPath(code: Code, path: seq<Point>) {
    path != [] && path[0] == 0 &&
    forall i {:trigger path[i]} :: 0 <= i < |path| - 1 ==> Edge(code, path[i], path[i + 1])
  }

  /** Every way of reaching p has executed d before. */
  ghost predicate SDom(code: Code, d: Point, p: Point) {
    forall path :: IsPath(code, path) && path[|path| - 1] == p ==> d in path[..|path| - 1]
  }

  predicate IsLeader(code: Code, p: Point) {
    p < |code| && (p == 0 || IsTerminator(code[p - 1]))
  }

  ghost predicate UseOk(code: Code, p: Point, d: Point) {
    d < |code| && Produces(code[d]) && SDom(code, d, p)
  }

  /** Blocks end in terminators and are entered only at their first slot. */
  predicate FlowOk(code: Code) {
    && code != []
    && IsTerminator(code[|code| - 1])
    && forall p :: 0 <= p < |code| && code[p].Br? ==> IsLeader(code, code[p].thn) && IsLeader(code, code[p].els)
  }

  /** Every operand is a live value that is defined on every way of reaching its use. */
  ghost predicate UsesOk(code: Code) {
    forall p, d :: 0 <= p < |code| && Uses(code[p], d) ==> UseOk(code, p, d)
  }

  /** Two allocas never share a stack slot. */
  predicate SitesOk(code: Code) {
    forall p, q :: 0 <= p < |code| && 0 <= q < |code| && code[p].Alloca? && code[p] == code[q] ==> p == q
  }

  ghost predicate Reachable(code: Code, p: Point) {
    exists path :: IsPath(code, path) && path[|path| - 1] == p
  }

  ghost predicate ReachOk(code: Code) {
    forall p :: 0 <= p < |code| ==> Reachable(code, p)
  }

  /** What the LLVM verifier guarantees of a function without unreachable blocks. */
  ghost predicate WellFormed(code: Code) {
    FlowOk(code) && UsesOk(code) && SitesOk(code) && ReachOk(code)
  }

  /** Same slots, same control flow: what rewriting of non-terminators keeps. */
  predicate SameFlow(c: Code, d: Code) {
    |c| == |d| &&
    forall p :: 0 <= p < |c| ==>
      match c[p]
      case Br(_, t, e) => d[p].Br? && d[p].thn == t && d[p].els == e
      case Ret(_) => d[p].Ret?
      case _ => !IsTerminator(d[p])
  }

  lemma SameFlowPaths(c: Code, d: Code)
    requires SameFlow(c, d)
    ensures forall p, q :: Edge(c, p, q) == Edge(d, p, q)
    ensures forall path :: IsPath(c, path) == IsPath(d, path)
    ensures forall p, q :: SDom(c, p, q) == SDom(d, p, q)
    ensures forall p :: IsLeader(c, p) == IsLeader(d, p)
  {
    forall path ensures IsPath(c, path) == IsPath(d, path) {
      assert forall i {:trigger path[i]} :: 0 <= i < |path| - 1 ==>
          (Edge(c, path[i], path[i + 1]) == Edge(d, path[i], path[i + 1]));
    }
    forall p, q ensures SDom(c, p, q) == SDom(d, p, q) {
      if SDom(c, p, q) {
        forall path | IsPath(d, path) && path[|path| - 1] == q ensures p in path[..|path| - 1] {
          assert IsPath(c, path);
        }
      }
      if SDom(d, p, q) {
        forall path | IsPath(c, path) && path[|path| - 1] == q ensures p in path[..|path| - 1] {
          assert IsPath(d, path);
        }
      }
    }
  }

  lemma SameFlowOk(c: Code, d: Code)
    requires SameFlow(c, d)
    ensures FlowOk(c) == FlowOk(d)
    ensures forall p :: Reachable(c, p) == Reachable(d, p)
  {
    SameFlowPaths(c, d);
  }
}
