/**
  The local and dominator-based elimination pass of projects/p2/C++/p2.cpp: what each of its
  scans does to a function, and why the whole pass keeps the function's behaviour.
*/
module Cse {
  import opened Wrappers
  import opened IR
  import opened Dominance
  import opened Facts
  import opened Replace
  import opened AvailableValues
  import opened DeadStore

  /** The leaders of the blocks that the block led by the given slot immediately dominates. */
  type DomTree = (Code, Point) -> seq<Point>

  /** LLVM's SimplifyInstruction: an existing value the instruction can be folded to, if any. */
  type Simplifier = (Code, Point) -> Option<Operand>

  ghost predicate DomTreeOk(domTree: DomTree) {
    forall code, b, l :: FlowOk(code) && IsLeader(code, b) && l in domTree(code, b) ==>
      IsLeader(code, l) && l != b && SDom(code, b, l)
  }

  ghost predicate SimplifierOk(w: World, simplify: Simplifier) {
    forall code, p: Point :: WellFormed(code) && p < |code| && simplify(code, p).Some? ==>
      && Removable(code[p])
      && Available(code, p, simplify(code, p).value)
      && EqualAt(w, code, p, simplify(code, p).value)
  }

  // ------------------------------------------------------------ the scans

  function BlockEnd(code: Code, p: Point): (r: nat)
    ensures p < |code| ==> p < r <= |code| && InBlock(code, p, r - 1)
    decreases |code| - p
  {
    if p >= |code| then p
    else if IsTerminator(code[p]) then p + 1
    else BlockEnd(code, p + 1)
  }

  function BlockStart(code: Code, p: Point): (r: nat)
    requires p < |code|
    ensures InBlock(code, r, p) && IsLeader(code, r)
  {
    if p == 0 || IsTerminator(code[p - 1]) then p else BlockStart(code, p - 1)
  }

  predicate IsDead(code: Code, p: Point)
    requires p < |code|
  {
    NoUses(code, p) && code[p].Pure?
  }

  predicate ShouldCse(x: Inst) {
    x.Pure? && x.op != FCmp
  }

  function RemoveCommon(code: Code, i: Point, k: Point, end: nat): (r: Code)
    requires i < |code| && end <= |code|
    ensures |r| == |code|
    decreases end - k
  {
    if k >= end then code
    else if k != i && code[k] == code[i] then RemoveCommon(ReplaceAndErase(code, k, Reg(i)), i, k + 1, end)
    else RemoveCommon(code, i, k + 1, end)
  }

  function RemoveCommonInBlocks(code: Code, i: Point, blocks: seq<Point>): (r: Code)
    requires i < |code| && forall l :: l in blocks ==> l < |code|
    ensures |r| == |code|
    decreases |blocks|
  {
    if blocks == [] then code
    else
      assert blocks[0] in blocks && forall l :: l in blocks[1..] ==> l in blocks;
      RemoveCommonInBlocks(RemoveCommon(code, i, blocks[0], BlockEnd(code, blocks[0])), i, blocks[1..])
  }

  predicate SameLoad(x: Inst, y: Inst) {
    x.Load? && y.Load? && !y.vol && x.ty == y.ty && x.addr == y.addr
  }

  function ReuseLoads(code: Code, i: Point, k: Point, end: nat): (r: Code)
    requires i < |code| && end <= |code|
    ensures |r| == |code|
    decreases end - k
  {
    if k >= end then code
    else if SameLoad(code[i], code[k]) then ReuseLoads(ReplaceAndErase(code, k, Reg(i)), i, k + 1, end)
    else if code[k].Store? then code
    else ReuseLoads(code, i, k + 1, end)
  }

  predicate LoadsFrom(s: Inst, y: Inst) {
    s.Store? && y.Load? && !y.vol && s.addr == y.addr && s.ty == y.ty
  }

  predicate Overwrites(s: Inst, y: Inst) {
    s.Store? && y.Store? && !s.vol && s.addr == y.addr && s.ty == y.ty
  }

  function StoreScan(code: Code, i: Point, k: Point, end: nat): (r: Code)
    requires i < |code| && end <= |code|
    ensures |r| == |code|
    decreases end - k
  {
    if k >= end then code
    else if LoadsFrom(code[i], code[k]) then StoreScan(ReplaceAndErase(code, k, code[i].val), i, k + 1, end)
    else if Overwrites(code[i], code[k]) then code[i := Erased]
    else if code[k].Load? || code[k].Store? || code[k].Call? then code
    else StoreScan(code, i, k + 1, end)
  }

  // ------------------------------------------------------------ refinement

  /** Rewriting only removes loads, stores and calls and never touches control flow. */
  predicate Thinned(c: Code, d: Code) {
    SameFlow(c, d) &&
    forall p :: 0 <= p < |c| ==>
      && (d[p].Load? ==> c[p].Load? && c[p].ty == d[p].ty && c[p].vol == d[p].vol && (c[p].addr.Reg? || c[p].addr == d[p].addr))
      && (d[p].Store? ==> c[p].Store?) && (d[p].Call? ==> c[p].Call?)
  }

  /** From the given slot on no store is removed. */
  predicate StoresKept(c: Code, d: Code, from: Point) {
    |c| == |d| && forall p :: from <= p < |c| && c[p].Store? ==> d[p].Store?
  }

  ghost predicate Refined(w: World, c: Code, d: Code) {
    WellFormed(d) && Thinned(c, d) && SameBehaviour(w, c, d)
  }

  lemma ThinnedTransitive(a: Code, b: Code, c: Code)
    requires Thinned(a, b) && Thinned(b, c)
    ensures Thinned(a, c)
  {
  }

  lemma RefinedTransitive(w: World, a: Code, b: Code, c: Code)
    requires Refined(w, a, b) && Refined(w, b, c)
    ensures Refined(w, a, c)
  {
    hide WellFormed, SameBehaviour;
    ThinnedTransitive(a, b, c);
    SameBehaviourTransitive(w, a, b, c);
  }

  lemma RefinedReflexive(w: World, a: Code)
    requires WellFormed(a)
    ensures Refined(w, a, a)
  {
    hide WellFormed, SameBehaviour;
    SameBehaviourReflexive(w, a);
  }

  lemma ReplaceRefined(w: World, code: Code, j: Point, v: Operand)
    requires WellFormed(code) && j < |code| && Removable(code[j]) && Available(code, j, v)
    requires NoUses(code, j) || EqualAt(w, code, j, v)
    ensures Refined(w, code, ReplaceAndErase(code, j, v))
  {
    hide WellFormed, SameBehaviour, Available, SDom;
    ReplaceWellFormed(code, j, v);
    ReplacePreserves(w, code, j, v);
    ReplaceSameFlow(code, j, v);
  }

  lemma ThinnedBlocks(c: Code, d: Code)
    requires Thinned(c, d)
    ensures forall p, q :: InBlock(c, p, q) == InBlock(d, p, q)
    ensures forall p, q :: SDom(c, p, q) == SDom(d, p, q)
  {
    hide SDom;
    SameFlowPaths(c, d);
    assert forall p :: 0 <= p < |c| ==> IsTerminator(c[p]) == IsTerminator(d[p]);
  }

  /** i is executed before every slot of the block that starts at f. */
  ghost predicate Before(code: Code, i: Point, f: Point) {
    f < |code| && (f == i || SDom(code, i, f))
  }

  lemma BeforeInBlock(code: Code, i: Point, f: Point, k: Point)
    requires FlowOk(code) && Before(code, i, f) && InBlock(code, f, k) && k != i
    ensures SDom(code, i, k)
  {
    hide SDom;
    if f != k {
      SameBlockDominates(code, f, k);
      if f != i {
        SDomTransitive(code, i, f, k);
      }
    }
  }

  lemma {:induction false} RemoveCommonRefined(w: World, code: Code, i: Point, f: Point, k: Point, end: nat)
    requires WellFormed(code) && LayoutOk(w) && i < |code| && code[i].Pure?
    requires Before(code, i, f) && f <= k && f < end <= |code| && InBlock(code, f, end - 1)
    ensures Refined(w, code, RemoveCommon(code, i, k, end))
    decreases end - k
  {
    hide WellFormed, SDom, SameBehaviour, ReplaceAndErase, Refined;
    if k >= end {
      RefinedReflexive(w, code);
    } else if k != i && code[k] == code[i] {
      var code' := ReplaceAndErase(code, k, Reg(i));
      CommonStep(w, code, i, f, k);
      KeepsBefore(w, code, code', i, f, end);
      PureStays(code, i, k);
      RemoveCommonRefined(w, code', i, f, k + 1, end);
      RefinedTransitive(w, code, code', RemoveCommon(code', i, k + 1, end));
    } else {
      RemoveCommonRefined(w, code, i, f, k + 1, end);
    }
  }

  lemma CommonStep(w: World, code: Code, i: Point, f: Point, k: Point)
    requires WellFormed(code) && LayoutOk(w) && i < |code| && code[i].Pure?
    requires Before(code, i, f) && InBlock(code, f, k) && k != i && code[k] == code[i]
    ensures Refined(w, code, ReplaceAndErase(code, k, Reg(i)))
  {
    hide SDom, SameBehaviour, ReplaceAndErase, Refined, EqualAt, LayoutOk;
    BeforeInBlock(code, i, f, k);
    DominatingCopyEqual(w, code, i, k);
    ReplaceRefined(w, code, k, Reg(i));
  }

  lemma PureStays(code: Code, i: Point, k: Point)
    requires i < |code| && k < |code| && i != k
    ensures ReplaceAndErase(code, k, Reg(i))[i].Pure? == code[i].Pure?
    ensures ReplaceAndErase(code, k, Reg(i))[i].Load? == code[i].Load?
  {
  }

  lemma KeepsBefore(w: World, c: Code, d: Code, i: Point, f: Point, end: nat)
    requires Refined(w, c, d) && Before(c, i, f) && f < end <= |c| && InBlock(c, f, end - 1)
    ensures WellFormed(d) && |d| == |c| && Before(d, i, f) && InBlock(d, f, end - 1)
  {
    hide WellFormed, SDom, SameBehaviour;
    ThinnedBlocks(c, d);
  }

  lemma {:induction false} CommonInBlocksRefined(w: World, code: Code, i: Point, blocks: seq<Point>)
    requires WellFormed(code) && LayoutOk(w) && i < |code| && code[i].Pure?
    requires forall l :: l in blocks ==> l < |code| && Before(code, i, l)
    ensures Refined(w, code, RemoveCommonInBlocks(code, i, blocks))
    decreases |blocks|
  {
    hide WellFormed, SDom, SameBehaviour, ReplaceAndErase, Refined, RemoveCommon;
    if blocks == [] {
      RefinedReflexive(w, code);
    } else {
      var f := blocks[0];
      assert f in blocks && forall l :: l in blocks[1..] ==> l in blocks;
      var code' := RemoveCommon(code, i, f, BlockEnd(code, f));
      RemoveCommonRefined(w, code, i, f, f, BlockEnd(code, f));
      forall l | l in blocks[1..] ensures l < |code'| && Before(code', i, l) {
        KeepsBefore(w, code, code', i, l, l + 1);
      }
      assert WellFormed(code') by {
        KeepsBefore(w, code, code', i, f, f + 1);
      }
      RemoveCommonPure(code, i, f, BlockEnd(code, f));
      CommonInBlocksRefined(w, code', i, blocks[1..]);
      RefinedTransitive(w, code, code', RemoveCommonInBlocks(code', i, blocks[1..]));
    }
  }

  lemma {:induction false} RemoveCommonPure(code: Code, i: Point, k: Point, end: nat)
    requires i < |code| && end <= |code|
    ensures RemoveCommon(code, i, k, end)[i].Pure? == code[i].Pure?
    decreases end - k
  {
    if k < end {
      if k != i && code[k] == code[i] {
        PureStays(code, i, k);
        RemoveCommonPure(ReplaceAndErase(code, k, Reg(i)), i, k + 1, end);
      } else {
        RemoveCommonPure(code, i, k + 1, end);
      }
    }
  }

  // ------------------------------------------------------------ loads and stores

  /**
    From the given slot on, no load is followed in its block by a call and then by a load that could come to repeat it,
    unless a store stands between the two loads.
  */
  predicate NoReuseOverCall(code: Code, from: Point) {
    forall i, k, j :: from <= i < k < j < |code| && InBlock(code, i, j) && code[k].Call? && SameKind(code[i], code[j]) ==>
      exists m :: i < m < j && code[m].Store?
  }

  /** Loads of one type, the second not volatile, whose addresses are equal or may become equal when operands are replaced. */
  predicate SameKind(x: Inst, y: Inst) {
    x.Load? && y.Load? && !y.vol && x.ty == y.ty && (x.addr == y.addr || x.addr.Reg? || y.addr.Reg?)
  }

  /** The load scan does not stop at calls, so where it could pass one, calls had better not write memory. */
  ghost predicate CallsHarmless(w: World, code: Code, from: Point) {
    CallsKeepMemory(w) || NoReuseOverCall(code, from)
  }

  lemma HarmlessStays(w: World, c: Code, d: Code, p: Point, q: Point)
    requires CallsHarmless(w, c, p) && Thinned(c, d) && p <= q && StoresKept(c, d, q)
    ensures CallsHarmless(w, d, q)
  {
    hide SDom, CallsKeepMemory;
    ThinnedBlocks(c, d);
    if !CallsKeepMemory(w) {
      forall i, k, j | q <= i < k < j < |d| && InBlock(d, i, j) && d[k].Call? && SameKind(d[i], d[j])
        ensures exists m :: i < m < j && d[m].Store?
      {
        var m :| i < m < j && c[m].Store?;
        assert d[m].Store?;
      }
    }
  }

  lemma ReplaceKeepsStores(code: Code, k: Point, v: Operand)
    requires k < |code| && !code[k].Store?
    ensures StoresKept(code, ReplaceAndErase(code, k, v), 0)
  {
  }

  lemma {:induction false} RemoveCommonKeepsStores(code: Code, i: Point, k: Point, end: nat)
    requires i < |code| && end <= |code| && code[i].Pure?
    ensures StoresKept(code, RemoveCommon(code, i, k, end), 0)
    decreases end - k
  {
    hide ReplaceAndErase;
    if k < end {
      if k != i && code[k] == code[i] {
        PureStays(code, i, k);
        ReplaceKeepsStores(code, k, Reg(i));
        RemoveCommonKeepsStores(ReplaceAndErase(code, k, Reg(i)), i, k + 1, end);
      } else {
        RemoveCommonKeepsStores(code, i, k + 1, end);
      }
    }
  }

  lemma {:induction false} BlocksKeepStores(code: Code, i: Point, blocks: seq<Point>)
    requires i < |code| && code[i].Pure? && forall l :: l in blocks ==> l < |code|
    ensures StoresKept(code, RemoveCommonInBlocks(code, i, blocks), 0)
    decreases |blocks|
  {
    hide RemoveCommon;
    if blocks != [] {
      assert blocks[0] in blocks && forall l :: l in blocks[1..] ==> l in blocks;
      RemoveCommonPure(code, i, blocks[0], BlockEnd(code, blocks[0]));
      RemoveCommonKeepsStores(code, i, blocks[0], BlockEnd(code, blocks[0]));
      BlocksKeepStores(RemoveCommon(code, i, blocks[0], BlockEnd(code, blocks[0])), i, blocks[1..]);
    }
  }

  lemma {:induction false} ReuseLoadsKeepsStores(code: Code, i: Point, k: Point, end: nat)
    requires i < |code| && end <= |code|
    ensures StoresKept(code, ReuseLoads(code, i, k, end), 0)
    decreases end - k
  {
    hide ReplaceAndErase;
    if k < end {
      if SameLoad(code[i], code[k]) {
        ReplaceKeepsStores(code, k, Reg(i));
        ReuseLoadsKeepsStores(ReplaceAndErase(code, k, Reg(i)), i, k + 1, end);
      } else if !code[k].Store? {
        ReuseLoadsKeepsStores(code, i, k + 1, end);
      }
    }
  }

  lemma {:induction false} StoreScanKeepsStores(code: Code, i: Point, k: Point, end: nat)
    requires i < |code| && end <= |code|
    ensures StoresKept(code, StoreScan(code, i, k, end), i + 1)
    decreases end - k
  {
    hide ReplaceAndErase;
    if k < end {
      if LoadsFrom(code[i], code[k]) {
        ReplaceKeepsStores(code, k, code[i].val);
        StoreScanKeepsStores(ReplaceAndErase(code, k, code[i].val), i, k + 1, end);
      } else if !Overwrites(code[i], code[k]) && !code[k].Load? && !code[k].Store? && !code[k].Call? {
        StoreScanKeepsStores(code, i, k + 1, end);
      }
    }
  }

  lemma BasicCseKeepsStores(domTree: DomTree, code: Code, p: Point)
    requires p < |code|
    ensures StoresKept(code, BasicCse(domTree, code, p), 0)
  {
    if ShouldCse(code[p]) {
      hide RemoveCommon, RemoveCommonInBlocks;
      RemoveCommonPure(code, p, p, BlockEnd(code, p));
      RemoveCommonKeepsStores(code, p, p, BlockEnd(code, p));
      var local := RemoveCommon(code, p, p, BlockEnd(code, p));
      var blocks := domTree(local, BlockStart(local, p));
      if forall l :: l in blocks ==> l < |code| {
        BlocksKeepStores(local, p, blocks);
      }
    }
  }

  /** A turn at slot p removes no later store. */
  lemma VisitKeepsStores(domTree: DomTree, simplify: Simplifier, code: Code, p: Point)
    requires p < |code| && (simplify(code, p).Some? ==> !code[p].Store?)
    ensures StoresKept(code, VisitSlot(domTree, simplify, code, p), p + 1)
  {
    hide ReplaceAndErase, BasicCse, ReuseLoads, StoreScan;
    if !code[p].Erased? && !IsDead(code, p) {
      if simplify(code, p).Some? {
        ReplaceKeepsStores(code, p, simplify(code, p).value);
      } else {
        BasicCseKeepsStores(domTree, code, p);
        var c := BasicCse(domTree, code, p);
        if c[p].Load? {
          ReuseLoadsKeepsStores(c, p, p + 1, BlockEnd(c, p));
        } else if c[p].Store? {
          StoreScanKeepsStores(c, p, p + 1, BlockEnd(c, p));
        }
      }
    }
  }

  predicate NoStoreBetween(code: Code, i: Point, k: Point) {
    k <= |code| && forall m :: i < m < k ==> !code[m].Store?
  }

  lemma ReuseStep(w: World, code: Code, i: Point, k: Point)
    requires WellFormed(code) && LayoutOk(w) && CallsHarmless(w, code, i)
    requires i < k && InBlock(code, i, k) && NoStoreBetween(code, i, k) && SameLoad(code[i], code[k])
    ensures Refined(w, code, ReplaceAndErase(code, k, Reg(i)))
  {
    hide SDom, SameBehaviour, ReplaceAndErase, Refined, EqualAt, LayoutOk, Available, WellFormed, CallsKeepMemory;
    assert MemoryQuiet(w, code, i, k);
    RepeatedLoadEqual(w, code, i, k);
    ReplaceRefined(w, code, k, Reg(i));
  }

  lemma {:induction false} ReuseLoadsRefined(w: World, code: Code, i: Point, k: Point, end: nat)
    requires WellFormed(code) && LayoutOk(w) && CallsHarmless(w, code, i)
    requires i < k <= end <= |code| && code[i].Load? && InBlock(code, i, end - 1) && NoStoreBetween(code, i, k)
    ensures Refined(w, code, ReuseLoads(code, i, k, end))
    decreases end - k
  {
    hide WellFormed, SDom, SameBehaviour, ReplaceAndErase, CallsHarmless, LayoutOk;
    if k >= end || (!SameLoad(code[i], code[k]) && code[k].Store?) {
      RefinedReflexive(w, code);
    } else if SameLoad(code[i], code[k]) {
      var code' := ReplaceAndErase(code, k, Reg(i));
      ReuseStep(w, code, i, k);
      ThinnedBlocks(code, code');
      ReplaceKeepsStores(code, k, Reg(i));
      HarmlessStays(w, code, code', i, i);
      PureStays(code, i, k);
      ReuseLoadsRefined(w, code', i, k + 1, end);
      RefinedTransitive(w, code, code', ReuseLoads(code', i, k + 1, end));
    } else {
      ReuseLoadsRefined(w, code, i, k + 1, end);
    }
  }

  /** The store at i is still the last thing that touched memory when the scan looks at k. */
  predicate ScanQuiet(code: Code, i: Point, k: Point) {
    k <= |code| && forall m :: i < m < k ==> !code[m].Load? && !code[m].Store? && !code[m].Call?
  }

  lemma ForwardStep(w: World, code: Code, i: Point, k: Point)
    requires WellFormed(code) && LayoutOk(w)
    requires i < k && InBlock(code, i, k) && ScanQuiet(code, i, k) && LoadsFrom(code[i], code[k])
    ensures Refined(w, code, ReplaceAndErase(code, k, code[i].val))
    ensures ReplaceAndErase(code, k, code[i].val)[i].Store?
    ensures ReplaceAndErase(code, k, code[i].val)[k] == Erased
  {
    hide SDom, SameBehaviour, Refined, EqualAt, LayoutOk, Available, WellFormed, CallsKeepMemory;
    assert MemoryQuiet(w, code, i, k);
    ForwardedStoreEqual(w, code, i, k);
    ReplaceRefined(w, code, k, code[i].val);
  }

  lemma OverwriteStep(w: World, code: Code, i: Point, k: Point)
    requires WellFormed(code) && LayoutOk(w)
    requires i < k && InBlock(code, i, k) && ScanQuiet(code, i, k) && Overwrites(code[i], code[k])
    ensures Refined(w, code, code[i := Erased])
  {
    hide WellFormed, SameBehaviour, LayoutOk;
    DeadStorePreserves(w, code, i, k);
    EraseStoreWellFormed(code, i);
  }

  lemma {:induction false} StoreScanRefined(w: World, code: Code, i: Point, k: Point, end: nat)
    requires WellFormed(code) && LayoutOk(w)
    requires i < k <= end <= |code| && code[i].Store? && InBlock(code, i, end - 1) && ScanQuiet(code, i, k)
    ensures Refined(w, code, StoreScan(code, i, k, end))
    decreases end - k
  {
    hide WellFormed, SDom, SameBehaviour, ReplaceAndErase, LayoutOk;
    if k < end && LoadsFrom(code[i], code[k]) {
      var code' := ReplaceAndErase(code, k, code[i].val);
      ForwardStep(w, code, i, k);
      ThinnedBlocks(code, code');
      StoreScanRefined(w, code', i, k + 1, end);
      RefinedTransitive(w, code, code', StoreScan(code', i, k + 1, end));
    } else if k < end && Overwrites(code[i], code[k]) {
      OverwriteStep(w, code, i, k);
    } else if k < end && !code[k].Load? && !code[k].Store? && !code[k].Call? {
      StoreScanRefined(w, code, i, k + 1, end);
    } else {
      RefinedReflexive(w, code);
    }
  }

  // ------------------------------------------------------------ the pass

  /** basicCSEPass: remove copies of slot p later in its block and in the blocks it immediately dominates. */
  function BasicCse(domTree: DomTree, code: Code, p: Point): (r: Code)
    requires p < |code|
    ensures |r| == |code|
  {
    if !ShouldCse(code[p]) then code else
    var local := RemoveCommon(code, p, p, BlockEnd(code, p));
    var blocks := domTree(local, BlockStart(local, p));
    if forall l :: l in blocks ==> l < |code| then RemoveCommonInBlocks(local, p, blocks) else local
  }

  /** One turn of the pass's main loop, at slot p. */
  function VisitSlot(domTree: DomTree, simplify: Simplifier, code: Code, p: Point): (r: Code)
    requires p < |code|
    ensures |r| == |code|
  {
    if code[p].Erased? then code
    else if IsDead(code, p) then code[p := Erased]
    else match simplify(code, p)
      case Some(v) => ReplaceAndErase(code, p, v)
      case None =>
        var c := BasicCse(domTree, code, p);
        if c[p].Load? then ReuseLoads(c, p, p + 1, BlockEnd(c, p))
        else if c[p].Store? then StoreScan(c, p, p + 1, BlockEnd(c, p))
        else c
  }

  function RunPass(domTree: DomTree, simplify: Simplifier, code: Code, p: Point): (r: Code)
    ensures |r| == |code|
    decreases |code| - p
  {
    if p >= |code| then code else RunPass(domTree, simplify, VisitSlot(domTree, simplify, code, p), p + 1)
  }

  lemma EraseDeadIsReplace(code: Code, p: Point)
    requires p < |code| && NoUses(code, p)
    ensures code[p := Erased] == ReplaceAndErase(code, p, Const(0))
  {
    forall k | 0 <= k < |code| ensures RewireInst(p, Const(0), code[k]) == code[k] {
      NotUsed(code[k], p);
    }
  }

  lemma NotUsed(x: Inst, p: Point)
    requires !Uses(x, p)
    ensures RewireInst(p, Const(0), x) == x
  {
    assert forall o :: o in Operands(x) ==> Rewire(p, Const(0), o) == o;
    if x.Pure? || x.Call? {
      assert RewireAll(p, Const(0), x.args) == x.args;
    }
  }

  lemma BasicCseRefined(w: World, domTree: DomTree, code: Code, p: Point)
    requires WellFormed(code) && LayoutOk(w) && DomTreeOk(domTree) && p < |code|
    ensures Refined(w, code, BasicCse(domTree, code, p))
  {
    hide SDom, SameBehaviour, LayoutOk, UsesOk, SitesOk, ReachOk, RemoveCommon, RemoveCommonInBlocks;
    if ShouldCse(code[p]) {
      RemoveCommonRefined(w, code, p, p, p, BlockEnd(code, p));
      var local := RemoveCommon(code, p, p, BlockEnd(code, p));
      RemoveCommonPure(code, p, p, BlockEnd(code, p));
      var b := BlockStart(local, p);
      forall l | l in domTree(local, b) ensures l < |local| && Before(local, p, l) {
        DominatedBlock(domTree, local, p, l);
      }
      CommonInBlocksRefined(w, local, p, domTree(local, b));
      RefinedTransitive(w, code, local, RemoveCommonInBlocks(local, p, domTree(local, b)));
    } else {
      RefinedReflexive(w, code);
    }
  }

  lemma DominatedBlock(domTree: DomTree, code: Code, p: Point, l: Point)
    requires FlowOk(code) && DomTreeOk(domTree) && p < |code| && l in domTree(code, BlockStart(code, p))
    ensures SDom(code, p, l) && l < |code|
  {
    WholeBlockDominates(code, BlockStart(code, p), p, l);
  }

  /** Once a block is entered it runs to its end before any other block is entered. */
  lemma WholeBlockDominates(code: Code, b: Point, p: Point, l: Point)
    requires FlowOk(code) && InBlock(code, b, p) && IsLeader(code, l) && l != b && SDom(code, b, l)
    ensures SDom(code, p, l)
  {
    forall path | IsPath(code, path) && path[|path| - 1] == l ensures p in path[..|path| - 1] {
      hide SDom;
      var k := DominatorRan(code, path, b);
      BlockRuns(code, path, k, b, p);
      assert path[..|path| - 1][k + (p - b)] == p;
    }
  }

  lemma {:induction false} BlockRuns(code: Code, path: seq<Point>, k: nat, b: Point, p: Point)
    requires FlowOk(code) && IsPath(code, path) && InBlock(code, b, p)
    requires k < |path| - 1 && path[k] == b && IsLeader(code, path[|path| - 1])
    ensures k + (p - b) < |path| - 1 && path[k + (p - b)] == p
    decreases p - b
  {
    if b < p {
      assert Edge(code, path[k], path[k + 1]);
      assert !IsLeader(code, b + 1);
      BlockRuns(code, path, k + 1, b + 1, p);
    }
  }

  lemma BasicCseKeepsMemoryOps(domTree: DomTree, code: Code, p: Point)
    requires p < |code| && !code[p].Pure?
    ensures BasicCse(domTree, code, p) == code
  {
  }

  lemma VisitRefined(w: World, domTree: DomTree, simplify: Simplifier, code: Code, p: Point)
    requires WellFormed(code) && LayoutOk(w) && CallsHarmless(w, code, p) && p < |code|
    requires DomTreeOk(domTree) && SimplifierOk(w, simplify)
    ensures Refined(w, code, VisitSlot(domTree, simplify, code, p))
  {
    hide SDom, SameBehaviour, LayoutOk, UsesOk, SitesOk, ReachOk, CallsHarmless, DomTreeOk, EqualAt, BasicCse, ReplaceAndErase;
    if code[p].Erased? {
      RefinedReflexive(w, code);
    } else if IsDead(code, p) {
      EraseDeadIsReplace(code, p);
      ReplaceRefined(w, code, p, Const(0));
    } else if simplify(code, p).Some? {
      ReplaceRefined(w, code, p, simplify(code, p).value);
    } else {
      BasicCseRefined(w, domTree, code, p);
      if !code[p].Pure? {
        BasicCseKeepsMemoryOps(domTree, code, p);
        if code[p].Load? {
          ReuseLoadsRefined(w, code, p, p + 1, BlockEnd(code, p));
        } else if code[p].Store? {
          StoreScanRefined(w, code, p, p + 1, BlockEnd(code, p));
        }
      } else {
        BasicCsePure(domTree, code, p);
      }
    }
  }

  lemma BasicCsePure(domTree: DomTree, code: Code, p: Point)
    requires p < |code| && code[p].Pure?
    ensures !BasicCse(domTree, code, p)[p].Load? && !BasicCse(domTree, code, p)[p].Store?
  {
    if ShouldCse(code[p]) {
      RemoveCommonPure(code, p, p, BlockEnd(code, p));
      var local := RemoveCommon(code, p, p, BlockEnd(code, p));
      var blocks := domTree(local, BlockStart(local, p));
      if forall l :: l in blocks ==> l < |code| {
        BlocksPure(local, p, blocks);
      }
    }
  }

  lemma {:induction false} BlocksPure(code: Code, i: Point, blocks: seq<Point>)
    requires i < |code| && forall l :: l in blocks ==> l < |code|
    ensures RemoveCommonInBlocks(code, i, blocks)[i].Pure? == code[i].Pure?
    decreases |blocks|
  {
    if blocks != [] {
      assert blocks[0] in blocks && forall l :: l in blocks[1..] ==> l in blocks;
      RemoveCommonPure(code, i, blocks[0], BlockEnd(code, blocks[0]));
      BlocksPure(RemoveCommon(code, i, blocks[0], BlockEnd(code, blocks[0])), i, blocks[1..]);
    }
  }

  lemma SimplifiedIsNoStore(w: World, simplify: Simplifier, code: Code, p: Point)
    requires WellFormed(code) && SimplifierOk(w, simplify) && p < |code|
    ensures simplify(code, p).Some? ==> !code[p].Store?
  {
    hide WellFormed;
  }

  /** The whole pass keeps the function well formed and its behaviour unchanged. */
  lemma {:induction false} PassPreserves(w: World, domTree: DomTree, simplify: Simplifier, code: Code, p: Point)
    requires WellFormed(code) && LayoutOk(w) && CallsHarmless(w, code, p)
    requires DomTreeOk(domTree) && SimplifierOk(w, simplify)
    ensures Refined(w, code, RunPass(domTree, simplify, code, p))
    decreases |code| - p
  {
    hide WellFormed, SameBehaviour, LayoutOk, CallsHarmless, DomTreeOk, SimplifierOk, VisitSlot, Thinned;
    if p >= |code| {
      RefinedReflexive(w, code);
    } else {
      var code' := VisitSlot(domTree, simplify, code, p);
      VisitRefined(w, domTree, simplify, code, p);
      SimplifiedIsNoStore(w, simplify, code, p);
      VisitKeepsStores(domTree, simplify, code, p);
      HarmlessStays(w, code, code', p, p + 1);
      PassPreserves(w, domTree, simplify, code', p + 1);
      RefinedTransitive(w, code, code', RunPass(domTree, simplify, code', p + 1));
    }
  }
}
