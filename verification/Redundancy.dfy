/**
  What the elimination pass of projects/p2/C++/p2.cpp achieves: which copies, loads and stores
  a turn removes, and which pairs no run of the pass leaves side by side.
*/
module Redundancy {
  import opened Wrappers
  import opened IR
  import opened Dominance
  import opened Facts
  import opened Replace
  import opened AvailableValues
  import opened DeadStore
  import opened Cse

  // ------------------------------------------------------------ what is redundant

  /** The last leader, other than l, that every way to l passes. */
  ghost predicate ImmediatelyDominates(code: Code, b: Point, l: Point) {
    && IsLeader(code, b) && IsLeader(code, l) && l != b && SDom(code, b, l)
    && forall d: Point :: IsLeader(code, d) && d != b && d != l && SDom(code, d, l) ==> SDom(code, d, b)
  }

  /** The dominator tree lists exactly the blocks that a block immediately dominates. */
  ghost predicate DomTreeExact(domTree: DomTree) {
    forall code, b, l :: FlowOk(code) && IsLeader(code, b) ==> (l in domTree(code, b) <==> ImmediatelyDominates(code, b, l))
  }

  /** A simplifier names a value that is there, and only for instructions that can go. */
  ghost predicate SimplifierFits(simplify: Simplifier) {
    forall code, p: Point :: WellFormed(code) && p < |code| && simplify(code, p).Some? ==>
      Removable(code[p]) && Available(code, p, simplify(code, p).value)
  }

  /** m lies where copies of i are looked for: later in its block, or in a block that its block immediately dominates. */
  ghost predicate InScope(code: Code, i: Point, m: Point) {
    i < |code| && m < |code| && m != i &&
    ((i < m && InBlock(code, i, m)) || exists l: Point :: ImmediatelyDominates(code, BlockStart(code, i), l) && InBlock(code, l, m))
  }

  ghost predicate Copy(code: Code, i: Point, m: Point) {
    InScope(code, i, m) && code[i].Pure? && code[i].op != FCmp && code[m] == code[i]
  }

  /** m loads what i loaded, in the same block, with no store in between. */
  predicate RepeatedLoad(code: Code, i: Point, m: Point) {
    && i < m && InBlock(code, i, m) && code[i].Load? && code[m] == Load(code[i].ty, code[i].addr, false)
    && forall k :: i < k < m ==> !code[k].Store?
  }

  /** Between the store at i and t: loads of the stored cell, and instructions that do not touch memory. */
  predicate OnlyReads(code: Code, i: Point, t: Point) {
    i < t && InBlock(code, i, t) && code[i].Store? && forall m :: i < m < t ==>
      code[m] == Load(code[i].ty, code[i].addr, false) || (!code[m].Load? && !code[m].Store? && !code[m].Call?)
  }

  /** m loads what i has just stored. */
  predicate ReadsBack(code: Code, i: Point, m: Point) {
    OnlyReads(code, i, m) && code[m] == Load(code[i].ty, code[i].addr, false)
  }

  /** t stores over what i stored. */
  predicate StoredOver(code: Code, i: Point, t: Point) {
    OnlyReads(code, i, t) && !code[i].vol && code[t].Store? && code[t].ty == code[i].ty && code[t].addr == code[i].addr
  }

  // ------------------------------------------------------------ what each scan achieves

  lemma NoSelfUse(code: Code, i: Point)
    requires UsesOk(code) && ReachOk(code) && i < |code|
    ensures !Uses(code[i], i)
  {
    hide SDom, Reachable;
    if Uses(code[i], i) {
      assert UseOk(code, i, i);
      StrictDominance(code, i, i);
    }
  }


  lemma RewireMakesUse(x: Inst, k: Point, i: Point)
    requires Uses(x, k)
    ensures Uses(RewireInst(k, Reg(i), x), i)
  {
    var n :| 0 <= n < |Operands(x)| && Operands(x)[n] == Reg(k);
    assert Operands(RewireInst(k, Reg(i), x))[n] == Reg(i);
  }


  lemma RewireUnused(x: Inst, k: Point, v: Operand)
    requires !Uses(x, k)
    ensures RewireInst(k, v, x) == x
  {
    assert forall o :: o in Operands(x) ==> Rewire(k, v, o) == o;
    if x.Pure? || x.Call? {
      assert RewireAll(k, v, x.args) == x.args;
    }
  }


  /** Replacing a later copy of i by i leaves i alone and makes no other slot equal to it. */
  lemma OthersStayDifferent(code: Code, i: Point, k: Point, m: Point)
    requires UsesOk(code) && ReachOk(code) && i < |code| && k < |code| && SDom(code, i, k) && m < |code|
    requires m == i || (m != k && code[m] != code[i])
    ensures var code' := ReplaceAndErase(code, k, Reg(i));
      code'[i] == code[i] && (m != i ==> code'[m] != code[i])
  {
    hide SDom, Reachable, RewireInst;
    StrictDominance(code, i, k);
    NoSelfUse(code, i);
    if Uses(code[i], k) {
      assert UseOk(code, i, k);
      SDomTransitive(code, i, k, i);
      StrictDominance(code, i, i);
    }
    RewireUnused(code[i], k, Reg(i));
    if Uses(code[m], k) {
      RewireMakesUse(code[m], k, i);
    } else {
      RewireUnused(code[m], k, Reg(i));
    }
  }


  lemma OthersStay(code: Code, k: Point, v: Operand, m: Point)
    requires k < |code| && m < |code| && m != k && code[m] != Erased
    ensures ReplaceAndErase(code, k, v)[m] != Erased
  {
  }

  /** The scan leaves i alone and no copy of it in the slots it scanned, and makes no new one. */
  lemma {:induction false} CommonGone(code: Code, i: Point, f: Point, k: Point, end: nat)
    requires WellFormed(code) && i < |code| && code[i].Pure?
    requires Before(code, i, f) && f <= k <= end && f < end <= |code| && InBlock(code, f, end - 1)
    ensures RemoveCommon(code, i, k, end)[i] == code[i]
    ensures forall m :: 0 <= m < |code| && m != i && (k <= m < end || code[m] != code[i]) ==> RemoveCommon(code, i, k, end)[m] != code[i]
    ensures forall m :: 0 <= m < |code| && code[m] != Erased && code[m] != code[i] ==> RemoveCommon(code, i, k, end)[m] != Erased
    decreases end - k
  {
    hide SDom, FlowOk, UsesOk, SitesOk, ReachOk, RewireInst, SameFlow;
    if k < end {
      if k != i && code[k] == code[i] {
        var code' := ReplaceAndErase(code, k, Reg(i));
        BeforeInBlock(code, i, f, k);
        StrictDominance(code, i, k) by {
          ReachAt(code, k);
        }
        ReplaceWellFormed(code, k, Reg(i));
        SameFlowPaths(code, code');
        SameFlowBlocks(code, code');
        forall m: nat | m < |code| && (m == i || code[m] != code[i])
          ensures (m == i ==> code'[m] == code[i]) && (m != i ==> code'[m] != code[i]) && (m != k && code[m] != Erased ==> code'[m] != Erased)
        {
          OthersStayDifferent(code, i, k, m);
          if m != k && code[m] != Erased {
            OthersStay(code, k, Reg(i), m);
          }
        }
        CommonGone(code', i, f, k + 1, end);
      } else {
        CommonGone(code, i, f, k + 1, end);
      }
    }
  }

  lemma ReachAt(code: Code, k: Point)
    requires ReachOk(code) && k < |code|
    ensures Reachable(code, k)
  {
  }


  lemma SameFlowBlocks(c: Code, d: Code)
    requires SameFlow(c, d)
    ensures forall p, q :: InBlock(c, p, q) == InBlock(d, p, q)
  {
    assert forall p :: 0 <= p < |c| ==> IsTerminator(c[p]) == IsTerminator(d[p]);
  }


  lemma {:induction false} InsideBlock(code: Code, p: Point, m: Point)
    requires InBlock(code, p, m)
    ensures m < BlockEnd(code, p)
    decreases m - p
  {
    if p < m {
      InsideBlock(code, p + 1, m);
    }
  }

  /** The same for the blocks of a list: no copy is left in any of them. */
  lemma {:induction false} CommonGoneInBlocks(code: Code, i: Point, blocks: seq<Point>)
    requires WellFormed(code) && i < |code| && code[i].Pure?
    requires forall l :: l in blocks ==> l < |code| && Before(code, i, l)
    ensures RemoveCommonInBlocks(code, i, blocks)[i] == code[i]
    ensures forall m :: 0 <= m < |code| && m != i && (code[m] != code[i] || InSome(code, blocks, m)) ==>
      RemoveCommonInBlocks(code, i, blocks)[m] != code[i]
    ensures forall m :: 0 <= m < |code| && code[m] != Erased && code[m] != code[i] ==> RemoveCommonInBlocks(code, i, blocks)[m] != Erased
    decreases |blocks|
  {
    hide WellFormed, SDom, RemoveCommon, Refined, SameBehaviour, Before, BlockEnd, LayoutOk;
    if blocks != [] {
      var f, rest := blocks[0], blocks[1..];
      assert f in blocks && forall l :: l in rest ==> l in blocks;
      var code' := RemoveCommon(code, i, f, BlockEnd(code, f));
      ScanStaysWellFormed(code, i, f);
      CommonGone(code, i, f, f, BlockEnd(code, f));
      forall l | l in rest ensures l < |code'| && Before(code', i, l) {
        SameFlowBefore(code, code', i, l);
      }
      CommonGoneInBlocks(code', i, rest);
      SameFlowBlocks(code, code');
      forall m | 0 <= m < |code| && m != i && (code[m] != code[i] || InSome(code, blocks, m))
        ensures code'[m] != code[i] || InSome(code', rest, m)
      {
        if code[m] == code[i] {
          var l :| l in blocks && InBlock(code, l, m);
          if l == f {
            InsideBlock(code, f, m);
          } else {
            assert l in rest && InBlock(code', l, m);
          }
        }
      }
    }
  }

  ghost predicate InSome(code: Code, blocks: seq<Point>, m: Point) {
    exists l :: l in blocks && InBlock(code, l, m)
  }

  lemma ScanStaysWellFormed(code: Code, i: Point, f: Point)
    requires WellFormed(code) && i < |code| && code[i].Pure? && f < |code| && Before(code, i, f)
    ensures var d := RemoveCommon(code, i, f, BlockEnd(code, f)); WellFormed(d) && SameFlow(code, d)
  {
    hide WellFormed, SDom, SameBehaviour, RemoveCommon, LayoutOk;
    CalmIsWorld();
    RemoveCommonRefined(Calm(), code, i, f, f, BlockEnd(code, f));
  }

  lemma SameFlowBefore(c: Code, d: Code, i: Point, l: Point)
    requires SameFlow(c, d) && Before(c, i, l)
    ensures Before(d, i, l)
  {
    hide SDom;
    SameFlowPaths(c, d);
  }

  /** Between i and t there is nothing but loads of the stored cell and instructions that do not touch memory. */
  predicate OnlyForwards(code: Code, i: Point, from: Point, t: Point) {
    t < |code| && i < |code| && forall m :: from <= m < t ==>
      LoadsFrom(code[i], code[m]) || (!code[m].Load? && !code[m].Store? && !code[m].Call?)
  }


  lemma ForwardsStay(code: Code, i: Point, k: Point, t: Point)
    requires i < k < t && OnlyForwards(code, i, k, t) && Overwrites(code[i], code[t]) && LoadsFrom(code[i], code[k])
    requires forall m :: i < m <= t ==> !Uses(code[i], m)
    ensures var code' := ReplaceAndErase(code, k, code[i].val);
      |code'| == |code| && code'[i] == code[i] && OnlyForwards(code', i, k + 1, t) && Overwrites(code'[i], code'[t])
  {
    RewireUnused(code[i], k, code[i].val);
    var a := code[i].addr;
    assert a != Reg(k) by {
      assert Operands(code[i])[1] == a;
    }
  }


  /** Every store that a later one overwrites is erased, also when loads that it was forwarded to stand between. */
  lemma {:induction false} ForwardedStoreGone(code: Code, i: Point, k: Point, t: Point, end: nat)
    requires i < k <= t < end <= |code| && OnlyForwards(code, i, k, t) && Overwrites(code[i], code[t])
    requires forall m :: i < m <= t ==> !Uses(code[i], m)
    ensures StoreScan(code, i, k, end)[i] == Erased
    ensures forall m :: k <= m < t && LoadsFrom(code[i], code[m]) ==> StoreScan(code, i, k, end)[m] == Erased
    decreases t - k
  {
    hide ReplaceAndErase;
    if k < t {
      if LoadsFrom(code[i], code[k]) {
        var code' := ReplaceAndErase(code, k, code[i].val);
        ForwardsStay(code, i, k, t);
        LoadsStay(code, i, k, t);
        ForwardedStoreGone(code', i, k + 1, t, end);
        ErasedStays(code', i, k + 1, end, k);
      } else {
        ForwardedStoreGone(code, i, k + 1, t, end);
      }
    }
  }


  lemma LoadsStay(code: Code, i: Point, k: Point, t: Point)
    requires i < k < t < |code| && LoadsFrom(code[i], code[k]) && !Uses(code[i], k)
    ensures var code' := ReplaceAndErase(code, k, code[i].val);
      code'[k] == Erased && forall m :: k < m < t && LoadsFrom(code[i], code[m]) ==> LoadsFrom(code'[i], code'[m])
  {
    RewireUnused(code[i], k, code[i].val);
    assert code[i].addr != Reg(k) by {
      assert Operands(code[i])[1] == code[i].addr;
    }
  }


  lemma {:induction false} ErasedStays(code: Code, i: Point, k: Point, end: nat, m: Point)
    requires i < |code| && end <= |code| && m < |code| && code[m] == Erased
    ensures StoreScan(code, i, k, end)[m] == Erased
    decreases end - k
  {
    if k < end {
      if LoadsFrom(code[i], code[k]) {
        ErasedStays(ReplaceAndErase(code, k, code[i].val), i, k + 1, end, m);
      } else if !Overwrites(code[i], code[k]) && !code[k].Load? && !code[k].Store? && !code[k].Call? {
        ErasedStays(code, i, k + 1, end, m);
      }
    }
  }

  /** Every later load of the cell goes, up to the first store. */
  lemma {:induction false} RepeatedLoadGone(code: Code, i: Point, k: Point, m: Point, end: nat)
    requires i < k <= m < end <= |code| && code[i].Load? && code[m] == Load(code[i].ty, code[i].addr, false)
    requires (forall j :: k <= j < m ==> !code[j].Store?) && forall j :: i < j <= m ==> !Uses(code[i], j)
    ensures ReuseLoads(code, i, k, end)[m] == Erased
    decreases m - k
  {
    hide ReplaceAndErase;
    if SameLoad(code[i], code[k]) {
      var code' := ReplaceAndErase(code, k, Reg(i));
      ReusedStays(code, i, k, m);
      if k == m {
        ReuseKeepsErased(code', i, k + 1, end, k);
      } else {
        RepeatedLoadGone(code', i, k + 1, m, end);
      }
    } else {
      RepeatedLoadGone(code, i, k + 1, m, end);
    }
  }

  lemma ReusedStays(code: Code, i: Point, k: Point, m: Point)
    requires i < k <= m < |code| && code[i].Load? && !Uses(code[i], k)
    ensures var code' := ReplaceAndErase(code, k, Reg(i));
      && |code'| == |code| && code'[i] == code[i] && code'[k] == Erased && (forall j :: k < j <= m && !code[j].Store? ==> !code'[j].Store?)
      && (k < m && code[m] == Load(code[i].ty, code[i].addr, false) ==> code'[m] == code[m])
  {
    RewireUnused(code[i], k, Reg(i));
    assert Operands(code[i])[0] == code[i].addr;
  }

  lemma {:induction false} ReuseKeepsErased(code: Code, i: Point, k: Point, end: nat, m: Point)
    requires i < |code| && end <= |code| && m < |code| && code[m] == Erased
    ensures ReuseLoads(code, i, k, end)[m] == Erased
    decreases end - k
  {
    if k < end {
      if SameLoad(code[i], code[k]) {
        ReuseKeepsErased(ReplaceAndErase(code, k, Reg(i)), i, k + 1, end, m);
      } else if !code[k].Store? {
        ReuseKeepsErased(code, i, k + 1, end, m);
      }
    }
  }

  /** And nothing else. */
  lemma {:induction false} OnlyRepeatedLoadsGo(code: Code, i: Point, k: Point, m: Point, end: nat)
    requires i < k && i < end <= |code| && code[i].Load? && m < |code| && code[m] != Erased && ReuseLoads(code, i, k, end)[m] == Erased
    requires forall j :: i <= j < end ==> !Uses(code[i], j)
    ensures k <= m < end && SameLoad(code[i], code[m]) && forall j :: k <= j < m ==> !code[j].Store?
    decreases end - k
  {
    hide ReplaceAndErase;
    if k < end && SameLoad(code[i], code[k]) {
      if m != k {
        var code' := ReplaceAndErase(code, k, Reg(i));
        ReusedBack(code, i, k, m, end);
        OnlyRepeatedLoadsGo(code', i, k + 1, m, end);
      }
    } else if k < end && !code[k].Store? {
      OnlyRepeatedLoadsGo(code, i, k + 1, m, end);
    }
  }

  lemma ReusedBack(code: Code, i: Point, k: Point, m: Point, end: nat)
    requires i < k < end <= |code| && m < |code| && m != k && code[m] != Erased && SameLoad(code[i], code[k])
    requires forall j :: i <= j < end ==> !Uses(code[i], j)
    ensures var code' := ReplaceAndErase(code, k, Reg(i));
      && |code'| == |code| && code'[i] == code[i] && code'[m] != Erased && (forall j :: 0 <= j < |code| && !code'[j].Store? ==> !code[j].Store?)
      && (SameLoad(code[i], code'[m]) ==> SameLoad(code[i], code[m]))
  {
    RewireUnused(code[i], k, Reg(i));
    assert Operands(code[i])[0] == code[i].addr;
    assert !Uses(code[i], i);
  }

  /** A load that reads back the store goes, whether or not the store does. */
  lemma {:induction false} ReadBackGone(code: Code, i: Point, k: Point, t: Point, end: nat)
    requires i < k <= t < end <= |code| && OnlyForwards(code, i, k, t) && LoadsFrom(code[i], code[t])
    requires forall m :: i < m <= t ==> !Uses(code[i], m)
    ensures StoreScan(code, i, k, end)[t] == Erased
    decreases t - k
  {
    hide ReplaceAndErase;
    if LoadsFrom(code[i], code[k]) {
      var code' := ReplaceAndErase(code, k, code[i].val);
      ReadersStay(code, i, k, t);
      if k == t {
        ErasedStays(code', i, k + 1, end, k);
      } else {
        ReadBackGone(code', i, k + 1, t, end);
      }
    } else {
      ReadBackGone(code, i, k + 1, t, end);
    }
  }

  lemma ReadersStay(code: Code, i: Point, k: Point, t: Point)
    requires i < k <= t && OnlyForwards(code, i, k, t) && LoadsFrom(code[i], code[t]) && LoadsFrom(code[i], code[k])
    requires forall m :: i < m <= t ==> !Uses(code[i], m)
    ensures var code' := ReplaceAndErase(code, k, code[i].val);
      && |code'| == |code| && code'[k] == Erased && code'[i] == code[i]
      && (k < t ==> OnlyForwards(code', i, k + 1, t) && LoadsFrom(code'[i], code'[t]))
  {
    RewireUnused(code[i], k, code[i].val);
    assert Operands(code[i])[1] == code[i].addr;
  }

  /** Unless a cell's own address is stored in it, nothing but the loads that read it back goes, and the store only if another one stores over it. */
  lemma {:induction false} OnlyReadersGo(code: Code, i: Point, k: Point, m: Point, end: nat)
    requires i < k && i < end <= |code| && code[i].Store? && m < |code| && code[m] != Erased && StoreScan(code, i, k, end)[m] == Erased
    requires code[i].val != code[i].addr && forall j :: i < j < end ==> !Uses(code[i], j)
    ensures m == i || (k <= m < end && LoadsFrom(code[i], code[m]) && OnlyForwards(code, i, k, m))
    ensures m == i ==> exists t :: k <= t < end && Overwrites(code[i], code[t]) && OnlyForwards(code, i, k, t)
    decreases end - k
  {
    hide ReplaceAndErase;
    if k < end && LoadsFrom(code[i], code[k]) {
      if m != k {
        var code' := ReplaceAndErase(code, k, code[i].val);
        ForwardedBack(code, i, k, end);
        OthersStay(code, k, code[i].val, m);
        OnlyReadersGo(code', i, k + 1, m, end);
        if m == i {
          var t :| k + 1 <= t < end && Overwrites(code'[i], code'[t]) && OnlyForwards(code', i, k + 1, t);
          assert Overwrites(code[i], code[t]) && OnlyForwards(code, i, k, t);
        }
      }
    } else if k < end && Overwrites(code[i], code[k]) {
      assert OnlyForwards(code, i, k, k);
    } else if k < end && !code[k].Load? && !code[k].Store? && !code[k].Call? {
      OnlyReadersGo(code, i, k + 1, m, end);
      if m == i {
        var t :| k + 1 <= t < end && Overwrites(code[i], code[t]) && OnlyForwards(code, i, k + 1, t);
        assert OnlyForwards(code, i, k, t);
      }
    }
  }

  lemma ForwardedBack(code: Code, i: Point, k: Point, end: nat)
    requires i < k < end <= |code| && LoadsFrom(code[i], code[k]) && code[i].val != code[i].addr
    requires forall j :: i < j < end ==> !Uses(code[i], j)
    ensures var code' := ReplaceAndErase(code, k, code[i].val);
      && |code'| == |code| && code'[i] == code[i]
      && (forall j :: k < j < end ==> code'[j].Load? == code[j].Load? && code'[j].Store? == code[j].Store? && code'[j].Call? == code[j].Call?)
      && (forall j :: k < j < end && LoadsFrom(code[i], code'[j]) ==> LoadsFrom(code[i], code[j]))
      && (forall j :: k < j < end && Overwrites(code[i], code'[j]) ==> Overwrites(code[i], code[j]))
  {
    RewireUnused(code[i], k, code[i].val);
    assert Operands(code[i])[1] == code[i].addr && Operands(code[i])[0] == code[i].val;
  }

  // ------------------------------------------------------------ what a turn removes

  lemma ExactIsOk(domTree: DomTree)
    requires DomTreeExact(domTree)
    ensures DomTreeOk(domTree)
  {
    hide SDom, FlowOk;
  }

  lemma NotErasedEarly(domTree: DomTree, simplify: Simplifier, code: Code, p: Point)
    requires p < |code| && !code[p].Erased? && !IsDead(code, p) && simplify(code, p).None?
    ensures VisitSlot(domTree, simplify, code, p) ==
      var c := BasicCse(domTree, code, p);
      if c[p].Load? then ReuseLoads(c, p, p + 1, BlockEnd(c, p))
      else if c[p].Store? then StoreScan(c, p, p + 1, BlockEnd(c, p))
      else c
  {
  }

  /** A turn at a pure instruction, fcmp apart, leaves it alone and no copy of it in scope. */
  lemma TurnRemovesCopies(domTree: DomTree, simplify: Simplifier, code: Code, p: Point)
    requires WellFormed(code) && DomTreeExact(domTree) && p < |code| && ShouldCse(code[p])
    requires !NoUses(code, p) && simplify(code, p).None?
    ensures var d := VisitSlot(domTree, simplify, code, p); d[p] == code[p] && forall m: Point :: InScope(code, p, m) ==> d[m] != code[p]
    ensures var d := VisitSlot(domTree, simplify, code, p);
      forall m :: 0 <= m < |code| && d[m] == Erased ==> code[m] == Erased || code[m] == code[p]
  {
    hide WellFormed, SDom, RemoveCommon, RemoveCommonInBlocks, BlockStart, BlockEnd, ImmediatelyDominates, NoUses;
    ExactIsOk(domTree);
    NotErasedEarly(domTree, simplify, code, p);
    BasicCsePure(domTree, code, p);
    var local := RemoveCommon(code, p, p, BlockEnd(code, p));
    ScanStaysWellFormed(code, p, p);
    CommonGone(code, p, p, p, BlockEnd(code, p));
    LocalBlocks(domTree, code, local, p);
    CommonGoneInBlocks(local, p, domTree(local, BlockStart(local, p)));
    forall m: Point | InScope(code, p, m) ensures BasicCse(domTree, code, p)[m] != code[p] {
      if p < m && InBlock(code, p, m) {
        InsideBlock(code, p, m);
      } else {
        var l: Point :| ImmediatelyDominates(code, BlockStart(code, p), l) && InBlock(code, l, m);
        assert InBlock(local, l, m);
        assert InSome(local, domTree(local, BlockStart(local, p)), m);
      }
    }
  }

  /** The dominator tree of the function after the scan of the own block is still that of the function before. */
  lemma LocalBlocks(domTree: DomTree, code: Code, local: Code, p: Point)
    requires WellFormed(local) && SameFlow(code, local) && DomTreeExact(domTree) && p < |code|
    ensures var blocks := domTree(local, BlockStart(local, p));
      && BlockStart(local, p) == BlockStart(code, p) && (forall l :: l in blocks ==> l < |local| && Before(local, p, l))
      && (forall l: Point :: ImmediatelyDominates(code, BlockStart(code, p), l) ==> l in blocks)
    ensures forall q, m :: InBlock(code, q, m) == InBlock(local, q, m)
  {
    hide UsesOk, SitesOk, ReachOk, SDom, BlockStart;
    ExactIsOk(domTree);
    SameFlowBlocks(code, local);
    SameFlowPaths(code, local);
    SameStart(code, local, p);
    var b := BlockStart(local, p);
    forall l | l in domTree(local, b) ensures l < |local| && Before(local, p, l) {
      DominatedBlock(domTree, local, p, l);
    }
    assert FlowOk(local) && IsLeader(local, b);
    hide DomTreeOk, FlowOk;
    forall l: Point | ImmediatelyDominates(code, b, l) ensures l in domTree(local, b) {
      SameDominator(code, local, b, l);
    }
  }

  lemma SameDominator(c: Code, d: Code, b: Point, l: Point)
    requires SameFlow(c, d) && ImmediatelyDominates(c, b, l)
    ensures ImmediatelyDominates(d, b, l)
  {
    hide SDom, IsLeader;
    SameFlowPaths(c, d);
  }

  lemma {:induction false} SameStart(c: Code, d: Code, p: Point)
    requires SameFlow(c, d) && p < |c|
    ensures BlockStart(c, p) == BlockStart(d, p)
  {
    if p > 0 {
      assert IsTerminator(c[p - 1]) == IsTerminator(d[p - 1]);
      if !IsTerminator(c[p - 1]) {
        SameStart(c, d, p - 1);
      }
    }
  }

  lemma OperandsNotRedefined(code: Code, i: Point, t: Point)
    requires WellFormed(code) && InBlock(code, i, t)
    ensures forall m :: i < m <= t ==> !Uses(code[i], m)
  {
    hide WellFormed;
    forall m | i < m <= t ensures !Uses(code[i], m) {
      StoreOperandsStay(code, i, m);
    }
  }

  /** A turn at a load removes every load of the cell up to the first store. */
  lemma TurnRemovesLoads(domTree: DomTree, simplify: Simplifier, code: Code, p: Point, m: Point)
    requires WellFormed(code) && p < |code| && simplify(code, p).None? && RepeatedLoad(code, p, m)
    ensures VisitSlot(domTree, simplify, code, p)[m] == Erased
  {
    hide WellFormed, BlockEnd, NoUses, ReuseLoads, BasicCse;
    NotErasedEarly(domTree, simplify, code, p);
    BasicCseKeepsMemoryOps(domTree, code, p);
    InsideBlock(code, p, m);
    OperandsNotRedefined(code, p, m);
    RepeatedLoadGone(code, p, p + 1, m, BlockEnd(code, p));
  }

  lemma TurnAtStore(domTree: DomTree, simplify: Simplifier, code: Code, p: Point, t: Point)
    requires WellFormed(code) && p < |code| && simplify(code, p).None? && OnlyReads(code, p, t)
    ensures VisitSlot(domTree, simplify, code, p) == StoreScan(code, p, p + 1, BlockEnd(code, p))
    ensures p + 1 <= t < BlockEnd(code, p) <= |code| && OnlyForwards(code, p, p + 1, t) && forall m :: p < m <= t ==> !Uses(code[p], m)
  {
    hide WellFormed, BlockEnd, NoUses, StoreScan, BasicCse;
    NotErasedEarly(domTree, simplify, code, p);
    BasicCseKeepsMemoryOps(domTree, code, p);
    InsideBlock(code, p, t);
    OperandsNotRedefined(code, p, t);
  }

  /** A turn at a store removes the loads that read it back. */
  lemma TurnRemovesReads(domTree: DomTree, simplify: Simplifier, code: Code, p: Point, m: Point)
    requires WellFormed(code) && p < |code| && simplify(code, p).None? && ReadsBack(code, p, m)
    ensures VisitSlot(domTree, simplify, code, p)[m] == Erased
  {
    hide WellFormed, BlockEnd, StoreScan, VisitSlot, OnlyForwards;
    TurnAtStore(domTree, simplify, code, p, m);
    ReadBackGone(code, p, p + 1, m, BlockEnd(code, p));
  }

  /** And the store itself, if another one stores over it. */
  lemma TurnRemovesStore(domTree: DomTree, simplify: Simplifier, code: Code, p: Point, t: Point)
    requires WellFormed(code) && p < |code| && simplify(code, p).None? && StoredOver(code, p, t)
    ensures VisitSlot(domTree, simplify, code, p)[p] == Erased
  {
    hide WellFormed, BlockEnd, StoreScan, VisitSlot, OnlyForwards;
    TurnAtStore(domTree, simplify, code, p, t);
    ForwardedStoreGone(code, p, p + 1, t, BlockEnd(code, p));
  }

  // ------------------------------------------------------------ what the pass leaves

  function SubstAll(s: Operand -> Operand, os: seq<Operand>): (r: seq<Operand>)
    ensures |r| == |os| && forall i :: 0 <= i < |os| ==> r[i] == s(os[i])
  {
    seq(|os|, i requires 0 <= i < |os| => s(os[i]))
  }

  function Subst(s: Operand -> Operand, x: Inst): Inst {
    match x
    case Pure(op, args) => Pure(op, SubstAll(s, args))
    case Alloca(_) => x
    case Load(ty, a, vol) => Load(ty, s(a), vol)
    case Store(ty, v, a, vol) => Store(ty, s(v), s(a), vol)
    case Call(f, args) => Call(f, SubstAll(s, args))
    case Br(c, t, e) => Br(s(c), t, e)
    case Ret(v) => Ret(s(v))
    case Erased => x
  }

  /** What is left of c in d is c with the same operand put for the same operand everywhere. */
  ghost predicate ImageBy(c: Code, d: Code, s: Operand -> Operand) {
    |c| == |d| && forall p :: 0 <= p < |c| ==> d[p] == Erased || d[p] == Subst(s, c[p])
  }

  ghost predicate Image(c: Code, d: Code) {
    exists s :: ImageBy(c, d, s)
  }

  lemma SubstNothing(x: Inst)
    ensures Subst(o => o, x) == x
  {
    if x.Pure? || x.Call? {
      assert SubstAll(o => o, x.args) == x.args;
    }
  }

  lemma ImageSelf(c: Code)
    ensures Image(c, c)
  {
    hide Subst;
    var id: Operand -> Operand := o => o;
    forall p | 0 <= p < |c| ensures Subst(id, c[p]) == c[p] {
      SubstNothing(c[p]);
    }
    assert ImageBy(c, c, id);
  }

  lemma SubstTwice(s: Operand -> Operand, t: Operand -> Operand, x: Inst)
    ensures Subst(t, Subst(s, x)) == Subst(o => t(s(o)), x)
  {
    if x.Pure? || x.Call? {
      assert SubstAll(t, SubstAll(s, x.args)) == SubstAll(o => t(s(o)), x.args);
    }
  }

  lemma ImageTransitive(c: Code, d: Code, e: Code)
    requires Image(c, d) && Image(d, e)
    ensures Image(c, e)
  {
    hide Subst;
    var s :| ImageBy(c, d, s);
    var t :| ImageBy(d, e, t);
    var u: Operand -> Operand := o => t(s(o));
    forall p | 0 <= p < |c| ensures e[p] == Erased || e[p] == Subst(u, c[p]) {
      SubstTwice(s, t, c[p]);
      SubstErased(t);
    }
    assert ImageBy(c, e, u);
  }

  lemma SubstErased(s: Operand -> Operand)
    ensures Subst(s, Erased) == Erased
  {
  }

  lemma RewireIsSubst(j: Point, v: Operand, x: Inst)
    ensures RewireInst(j, v, x) == Subst(o => Rewire(j, v, o), x)
  {
    if x.Pure? || x.Call? {
      assert RewireAll(j, v, x.args) == SubstAll(o => Rewire(j, v, o), x.args);
    }
  }

  lemma ReplaceImage(code: Code, j: Point, v: Operand)
    requires j < |code|
    ensures Image(code, ReplaceAndErase(code, j, v))
  {
    hide Subst, RewireInst;
    var s: Operand -> Operand := o => Rewire(j, v, o);
    forall p | 0 <= p < |code| ensures RewireInst(j, v, code[p]) == Subst(s, code[p]) {
      RewireIsSubst(j, v, code[p]);
    }
    assert ImageBy(code, ReplaceAndErase(code, j, v), s);
  }

  lemma EraseImage(code: Code, j: Point)
    requires j < |code|
    ensures Image(code, code[j := Erased])
  {
    hide Subst;
    ImageSelf(code);
    var s :| ImageBy(code, code, s);
    assert ImageBy(code, code[j := Erased], s);
  }

  lemma {:induction false} RemoveCommonImage(code: Code, i: Point, k: Point, end: nat)
    requires i < |code| && end <= |code|
    ensures Image(code, RemoveCommon(code, i, k, end))
    decreases end - k
  {
    hide Image, ReplaceAndErase;
    if k >= end {
      ImageSelf(code);
    } else if k != i && code[k] == code[i] {
      var code' := ReplaceAndErase(code, k, Reg(i));
      ReplaceImage(code, k, Reg(i));
      ReplaceSize(code, k, Reg(i));
      RemoveCommonImage(code', i, k + 1, end);
      ImageTransitive(code, code', RemoveCommon(code', i, k + 1, end));
    } else {
      RemoveCommonImage(code, i, k + 1, end);
    }
  }

  lemma ReplaceSize(code: Code, j: Point, v: Operand)
    requires j < |code|
    ensures |ReplaceAndErase(code, j, v)| == |code|
  {
  }

  lemma {:induction false} BlocksImage(code: Code, i: Point, blocks: seq<Point>)
    requires i < |code| && forall l :: l in blocks ==> l < |code|
    ensures Image(code, RemoveCommonInBlocks(code, i, blocks))
    decreases |blocks|
  {
    hide Image, RemoveCommon;
    if blocks == [] {
      ImageSelf(code);
    } else {
      assert blocks[0] in blocks && forall l :: l in blocks[1..] ==> l in blocks;
      var code' := RemoveCommon(code, i, blocks[0], BlockEnd(code, blocks[0]));
      RemoveCommonImage(code, i, blocks[0], BlockEnd(code, blocks[0]));
      BlocksImage(code', i, blocks[1..]);
      ImageTransitive(code, code', RemoveCommonInBlocks(code', i, blocks[1..]));
    }
  }

  lemma {:induction false} ReuseLoadsImage(code: Code, i: Point, k: Point, end: nat)
    requires i < |code| && end <= |code|
    ensures Image(code, ReuseLoads(code, i, k, end))
    decreases end - k
  {
    hide Image, ReplaceAndErase;
    if k >= end {
      ImageSelf(code);
    } else if SameLoad(code[i], code[k]) {
      var code' := ReplaceAndErase(code, k, Reg(i));
      ReplaceImage(code, k, Reg(i));
      ReplaceSize(code, k, Reg(i));
      ReuseLoadsImage(code', i, k + 1, end);
      ImageTransitive(code, code', ReuseLoads(code', i, k + 1, end));
    } else if code[k].Store? {
      ImageSelf(code);
    } else {
      ReuseLoadsImage(code, i, k + 1, end);
    }
  }

  lemma {:induction false} StoreScanImage(code: Code, i: Point, k: Point, end: nat)
    requires i < |code| && end <= |code|
    ensures Image(code, StoreScan(code, i, k, end))
    decreases end - k
  {
    hide Image, ReplaceAndErase;
    if k >= end {
      ImageSelf(code);
    } else if LoadsFrom(code[i], code[k]) {
      var code' := ReplaceAndErase(code, k, code[i].val);
      ReplaceImage(code, k, code[i].val);
      ReplaceSize(code, k, code[i].val);
      StoreScanImage(code', i, k + 1, end);
      ImageTransitive(code, code', StoreScan(code', i, k + 1, end));
    } else if Overwrites(code[i], code[k]) {
      EraseImage(code, i);
    } else if code[k].Load? || code[k].Store? || code[k].Call? {
      ImageSelf(code);
    } else {
      StoreScanImage(code, i, k + 1, end);
    }
  }

  lemma BasicCseImage(domTree: DomTree, code: Code, p: Point)
    requires p < |code|
    ensures Image(code, BasicCse(domTree, code, p))
  {
    hide Image, RemoveCommon, RemoveCommonInBlocks, BlockStart, BlockEnd;
    ImageSelf(code);
    if ShouldCse(code[p]) {
      var local := RemoveCommon(code, p, p, BlockEnd(code, p));
      RemoveCommonImage(code, p, p, BlockEnd(code, p));
      var blocks := domTree(local, BlockStart(local, p));
      if forall l :: l in blocks ==> l < |code| {
        BlocksImage(local, p, blocks);
        ImageTransitive(code, local, RemoveCommonInBlocks(local, p, blocks));
      }
    }
  }

  lemma VisitImage(domTree: DomTree, simplify: Simplifier, code: Code, p: Point)
    requires p < |code|
    ensures Image(code, VisitSlot(domTree, simplify, code, p))
  {
    hide Image, ReplaceAndErase, BasicCse, ReuseLoads, StoreScan, NoUses, BlockEnd;
    ImageSelf(code);
    EraseImage(code, p);
    if simplify(code, p).Some? {
      ReplaceImage(code, p, simplify(code, p).value);
    }
    var c := BasicCse(domTree, code, p);
    BasicCseImage(domTree, code, p);
    if c[p].Load? {
      ReuseLoadsImage(c, p, p + 1, BlockEnd(c, p));
      ImageTransitive(code, c, ReuseLoads(c, p, p + 1, BlockEnd(c, p)));
    } else if c[p].Store? {
      StoreScanImage(c, p, p + 1, BlockEnd(c, p));
      ImageTransitive(code, c, StoreScan(c, p, p + 1, BlockEnd(c, p)));
    }
  }

  /** A turn keeps the function well formed and its flow; calls do not matter for that. */
  lemma VisitStaysWellFormed(domTree: DomTree, simplify: Simplifier, code: Code, p: Point)
    requires WellFormed(code) && DomTreeExact(domTree) && SimplifierFits(simplify) && p < |code|
    ensures var d := VisitSlot(domTree, simplify, code, p); WellFormed(d) && SameFlow(code, d)
  {
    hide WellFormed, SDom, SameBehaviour, LayoutOk, BasicCse, ReuseLoads, StoreScan, ReplaceAndErase, BlockEnd, NoUses, Available, DomTreeExact;
    if simplify(code, p).Some? && !code[p].Erased? && !IsDead(code, p) {
      ReplaceWellFormed(code, p, simplify(code, p).value);
    } else {
      var never: Simplifier := (c: Code, q: Point) => None;
      CalmIsWorld();
      ExactIsOk(domTree);
      VisitRefined(Calm(), domTree, never, code, p);
    }
  }

  lemma InScopeStays(c: Code, d: Code, i: Point, m: Point)
    requires InScope(c, i, m) && SameFlow(c, d)
    ensures InScope(d, i, m)
  {
    hide SDom, ImmediatelyDominates, BlockStart;
    SameFlowBlocks(c, d);
    SameStart(c, d, i);
    if !(i < m && InBlock(c, i, m)) {
      var l: Point :| ImmediatelyDominates(c, BlockStart(c, i), l) && InBlock(c, l, m);
      SameDominator(c, d, BlockStart(c, i), l);
    }
  }

  lemma CopyStays(c: Code, d: Code, i: Point, m: Point)
    requires Copy(c, i, m) && Image(c, d) && SameFlow(c, d) && d[i] != Erased && d[m] != Erased
    ensures Copy(d, i, m)
  {
    hide InScope;
    InScopeStays(c, d, i, m);
    assert i < |c| && m < |c| by {
      InScopeRange(c, i, m);
    }
    var s :| ImageBy(c, d, s);
  }

  lemma InScopeRange(c: Code, i: Point, m: Point)
    requires InScope(c, i, m)
    ensures i < |c| && m < |c|
  {
  }

  lemma RepeatedLoadStays(c: Code, d: Code, i: Point, m: Point)
    requires RepeatedLoad(c, i, m) && Image(c, d) && SameFlow(c, d) && d[i] != Erased && d[m] != Erased
    ensures RepeatedLoad(d, i, m)
  {
    SameFlowBlocks(c, d);
    var s :| ImageBy(c, d, s);
  }

  lemma OnlyReadsStays(c: Code, d: Code, i: Point, t: Point)
    requires OnlyReads(c, i, t) && Image(c, d) && SameFlow(c, d) && d[i] != Erased && d[t] != Erased
    ensures OnlyReads(d, i, t) && (ReadsBack(c, i, t) ==> ReadsBack(d, i, t)) && (StoredOver(c, i, t) ==> StoredOver(d, i, t))
  {
    SameFlowBlocks(c, d);
    var s :| ImageBy(c, d, s);
  }

  /** What is erased stays erased to the end of the pass. */
  lemma {:induction false} ErasedForGood(domTree: DomTree, simplify: Simplifier, code: Code, p: Point, m: Point)
    requires m < |code| && code[m] == Erased
    ensures RunPass(domTree, simplify, code, p)[m] == Erased
    decreases |code| - p
  {
    hide VisitSlot;
    if p < |code| {
      VisitImage(domTree, simplify, code, p);
      ErasedForGood(domTree, simplify, VisitSlot(domTree, simplify, code, p), p + 1, m);
    }
  }

  /** A turn erases what is dead, and what is simplified. */
  lemma TurnErases(domTree: DomTree, simplify: Simplifier, code: Code, p: Point)
    requires p < |code| && ((code[p].Pure? && NoUses(code, p)) || (simplify(code, p).Some? && !code[p].Erased?))
    ensures VisitSlot(domTree, simplify, code, p)[p] == Erased
  {
    hide NoUses;
  }

  lemma TurnAtCopy(domTree: DomTree, simplify: Simplifier, code: Code, i: Point, m: Point)
    requires WellFormed(code) && DomTreeExact(domTree) && SimplifierFits(simplify) && i < |code| && m < |code| && Copy(code, i, m)
    ensures var v := VisitSlot(domTree, simplify, code, i); v[i] == Erased || v[m] == Erased
  {
    hide WellFormed, DomTreeExact, VisitSlot, InScope, NoUses, SimplifierFits;
    var v := VisitSlot(domTree, simplify, code, i);
    if NoUses(code, i) || simplify(code, i).Some? {
      TurnErases(domTree, simplify, code, i);
    } else if v[m] != Erased {
      TurnRemovesCopies(domTree, simplify, code, i);
      VisitImage(domTree, simplify, code, i);
      VisitStaysWellFormed(domTree, simplify, code, i);
      CopyStays(code, v, i, m);
    }
  }

  /** Of an instruction and a copy of it in scope at most one is left, wherever the pass stands before the first one. */
  lemma {:induction false} NoCopiesLeft(domTree: DomTree, simplify: Simplifier, code: Code, p: Point, i: Point, m: Point)
    requires WellFormed(code) && DomTreeExact(domTree) && SimplifierFits(simplify) && p <= i && Copy(code, i, m)
    ensures var d := RunPass(domTree, simplify, code, p); |d| == |code| && i < |d| && m < |d| && (d[i] == Erased || d[m] == Erased)
    decreases |code| - p
  {
    hide WellFormed, DomTreeExact, SimplifierFits, VisitSlot, InScope, NoUses, SameFlow, Image;
    InScopeRange(code, i, m);
    var v := VisitSlot(domTree, simplify, code, p);
    VisitStaysWellFormed(domTree, simplify, code, p);
    VisitImage(domTree, simplify, code, p);
    if p == i {
      TurnAtCopy(domTree, simplify, code, i, m);
    }
    if v[i] == Erased {
      ErasedForGood(domTree, simplify, v, p + 1, i);
    } else if v[m] == Erased {
      ErasedForGood(domTree, simplify, v, p + 1, m);
    } else {
      CopyStays(code, v, i, m);
      NoCopiesLeft(domTree, simplify, v, p + 1, i, m);
    }
  }

  /** Of two loads of one cell with no store in between, at most one. */
  lemma {:induction false} NoRepeatedLoadsLeft(domTree: DomTree, simplify: Simplifier, code: Code, p: Point, i: Point, m: Point)
    requires WellFormed(code) && DomTreeExact(domTree) && SimplifierFits(simplify) && p <= i && RepeatedLoad(code, i, m)
    ensures var d := RunPass(domTree, simplify, code, p); |d| == |code| && (d[i] == Erased || d[m] == Erased)
    decreases |code| - p
  {
    hide WellFormed, DomTreeExact, SimplifierFits, VisitSlot, NoUses, SameFlow, Image;
    var v := VisitSlot(domTree, simplify, code, p);
    VisitStaysWellFormed(domTree, simplify, code, p);
    VisitImage(domTree, simplify, code, p);
    if p == i {
      if simplify(code, i).Some? {
        TurnErases(domTree, simplify, code, i);
      } else {
        TurnRemovesLoads(domTree, simplify, code, i, m);
      }
    }
    if v[i] == Erased {
      ErasedForGood(domTree, simplify, v, p + 1, i);
    } else if v[m] == Erased {
      ErasedForGood(domTree, simplify, v, p + 1, m);
    } else {
      RepeatedLoadStays(code, v, i, m);
      NoRepeatedLoadsLeft(domTree, simplify, v, p + 1, i, m);
    }
  }

  lemma NotSimplified(simplify: Simplifier, code: Code, p: Point)
    requires WellFormed(code) && SimplifierFits(simplify) && p < |code| && code[p].Store?
    ensures simplify(code, p).None?
  {
    hide WellFormed, Available;
  }

  lemma StoresStay(domTree: DomTree, simplify: Simplifier, code: Code, p: Point)
    requires WellFormed(code) && SimplifierFits(simplify) && p < |code|
    ensures var v := VisitSlot(domTree, simplify, code, p);
      |v| == |code| && forall q: Point :: p < q < |code| && code[q].Store? ==> v[q].Store?
  {
    hide WellFormed, Available, VisitSlot;
    VisitKeepsStores(domTree, simplify, code, p);
  }

  /** No load is left that reads back a store, whatever becomes of the store. */
  lemma {:induction false} NoReadsBackLeft(domTree: DomTree, simplify: Simplifier, code: Code, p: Point, i: Point, m: Point)
    requires WellFormed(code) && DomTreeExact(domTree) && SimplifierFits(simplify) && p <= i && ReadsBack(code, i, m)
    ensures var d := RunPass(domTree, simplify, code, p); |d| == |code| && d[m] == Erased
    decreases |code| - p
  {
    hide WellFormed, DomTreeExact, SimplifierFits, VisitSlot, NoUses, SameFlow, Image;
    var v := VisitSlot(domTree, simplify, code, p);
    VisitStaysWellFormed(domTree, simplify, code, p);
    VisitImage(domTree, simplify, code, p);
    StoresStay(domTree, simplify, code, p);
    if p == i {
      NotSimplified(simplify, code, i);
      TurnRemovesReads(domTree, simplify, code, i, m);
    }
    if v[m] == Erased {
      ErasedForGood(domTree, simplify, v, p + 1, m);
    } else {
      OnlyReadsStays(code, v, i, m);
      NoReadsBackLeft(domTree, simplify, v, p + 1, i, m);
    }
  }

  /** No store is left that another one stores over. */
  lemma {:induction false} NoStoredOverLeft(domTree: DomTree, simplify: Simplifier, code: Code, p: Point, i: Point, t: Point)
    requires WellFormed(code) && DomTreeExact(domTree) && SimplifierFits(simplify) && p <= i && StoredOver(code, i, t)
    ensures var d := RunPass(domTree, simplify, code, p); |d| == |code| && d[i] == Erased
    decreases |code| - p
  {
    hide WellFormed, DomTreeExact, SimplifierFits, VisitSlot, NoUses, SameFlow, Image;
    var v := VisitSlot(domTree, simplify, code, p);
    VisitStaysWellFormed(domTree, simplify, code, p);
    VisitImage(domTree, simplify, code, p);
    StoresStay(domTree, simplify, code, p);
    if p == i {
      NotSimplified(simplify, code, i);
      TurnRemovesStore(domTree, simplify, code, i, t);
    }
    if v[i] == Erased {
      ErasedForGood(domTree, simplify, v, p + 1, i);
    } else {
      OnlyReadsStays(code, v, i, t);
      NoStoredOverLeft(domTree, simplify, v, p + 1, i, t);
    }
  }

  /** What the pass leaves of any redundancy of the original: never both of a pair, and never a load read back or a store stored over. */
  ghost predicate NothingRedundantLeft(c: Code, d: Code)
    requires |c| == |d|
  {
    && (forall i: Point, m: Point :: Copy(c, i, m) ==> i < |c| && m < |c| && (d[i] == Erased || d[m] == Erased))
    && (forall i: Point, m: Point :: RepeatedLoad(c, i, m) ==> d[i] == Erased || d[m] == Erased)
    && (forall i: Point, m: Point :: ReadsBack(c, i, m) ==> d[m] == Erased)
    && (forall i: Point, t: Point :: StoredOver(c, i, t) ==> d[i] == Erased)
  }

  lemma PassAchieves(domTree: DomTree, simplify: Simplifier, code: Code)
    requires WellFormed(code) && DomTreeExact(domTree) && SimplifierFits(simplify)
    ensures NothingRedundantLeft(code, RunPass(domTree, simplify, code, 0))
  {
    hide WellFormed, DomTreeExact, SimplifierFits, RunPass, Copy, RepeatedLoad, ReadsBack, StoredOver;
    var d := RunPass(domTree, simplify, code, 0);
    forall i: Point, m: Point | Copy(code, i, m) ensures i < |code| && m < |code| && (d[i] == Erased || d[m] == Erased) {
      NoCopiesLeft(domTree, simplify, code, 0, i, m);
    }
    forall i: Point, m: Point | RepeatedLoad(code, i, m)
      ensures i < |code| && m < |code| && (d[i] == Erased || d[m] == Erased)
    {
      RepeatedLoadRange(code, i, m);
      NoRepeatedLoadsLeft(domTree, simplify, code, 0, i, m);
    }
    forall i: Point, m: Point | ReadsBack(code, i, m) ensures m < |code| && d[m] == Erased {
      ReadsBackRange(code, i, m);
      NoReadsBackLeft(domTree, simplify, code, 0, i, m);
    }
    forall i: Point, t: Point | StoredOver(code, i, t) ensures i < |code| && d[i] == Erased {
      StoredOverRange(code, i, t);
      NoStoredOverLeft(domTree, simplify, code, 0, i, t);
    }
  }

  lemma RepeatedLoadRange(code: Code, i: Point, m: Point)
    requires RepeatedLoad(code, i, m)
    ensures i < m < |code|
  {
  }

  lemma ReadsBackRange(code: Code, i: Point, m: Point)
    requires ReadsBack(code, i, m)
    ensures i < m < |code|
  {
  }

  lemma StoredOverRange(code: Code, i: Point, t: Point)
    requires StoredOver(code, i, t)
    ensures i < t < |code|
  {
  }

  lemma TurnAtDead(domTree: DomTree, simplify: Simplifier, code: Code, i: Point)
    requires i < |code| && code[i].Pure? && NoUses(code, i)
    ensures VisitSlot(domTree, simplify, code, i) == code[i := Erased]
  {
    hide NoUses;
  }

  lemma TurnSimplifies(domTree: DomTree, simplify: Simplifier, code: Code, i: Point)
    requires WellFormed(code) && SimplifierFits(simplify) && i < |code| && simplify(code, i).Some?
    ensures var d := VisitSlot(domTree, simplify, code, i); d[i] == Erased && NoUses(d, i)
  {
    hide WellFormed, SDom, RewireInst;
    var v := simplify(code, i).value;
    assert Removable(code[i]) && Available(code, i, v);
    if !IsDead(code, i) {
      forall q | 0 <= q < |code| ensures !Uses(RewireInst(i, v, code[q]), i) {
        RewiredAway(code[q], i, v);
      }
    }
  }

  lemma RewiredAway(x: Inst, i: Point, v: Operand)
    requires v != Reg(i)
    ensures !Uses(RewireInst(i, v, x), i)
  {
  }

  /** A turn at any other instruction changes nothing. */
  lemma TurnElsewhere(domTree: DomTree, simplify: Simplifier, code: Code, i: Point)
    requires i < |code| && simplify(code, i).None? && !code[i].Load? && !code[i].Store? && (code[i].Pure? ==> code[i].op == FCmp && !NoUses(code, i))
    ensures VisitSlot(domTree, simplify, code, i) == code
  {
    hide NoUses;
  }

  /** A turn at a load removes nothing else. */
  lemma TurnAtLoadOnly(domTree: DomTree, simplify: Simplifier, code: Code, i: Point, m: Point)
    requires WellFormed(code) && i < |code| && code[i].Load? && simplify(code, i).None?
    requires m < |code| && code[m] != Erased && VisitSlot(domTree, simplify, code, i)[m] == Erased
    ensures RepeatedLoad(code, i, m)
  {
    hide WellFormed, BlockEnd, NoUses, ReuseLoads, BasicCse, InBlock;
    NotErasedEarly(domTree, simplify, code, i);
    BasicCseKeepsMemoryOps(domTree, code, i);
    var end := BlockEnd(code, i);
    OperandsNotRedefined(code, i, end - 1);
    NotOwnOperand(code, i);
    OnlyRepeatedLoadsGo(code, i, i + 1, m, end);
    SubBlock(code, i, m, end - 1);
  }

  lemma NotOwnOperand(code: Code, i: Point)
    requires WellFormed(code) && i < |code|
    ensures !Uses(code[i], i)
  {
    hide FlowOk, SitesOk;
    NoSelfUse(code, i);
  }

  lemma SubBlock(code: Code, i: Point, m: Point, t: Point)
    requires InBlock(code, i, t) && i <= m <= t
    ensures InBlock(code, i, m)
  {
  }

  /** Nor does one at a store, unless a cell's own address is stored in it. */
  lemma TurnAtStoreOnly(domTree: DomTree, simplify: Simplifier, code: Code, i: Point, m: Point)
    requires WellFormed(code) && i < |code| && code[i].Store? && code[i].val != code[i].addr && simplify(code, i).None?
    requires m < |code| && code[m] != Erased && VisitSlot(domTree, simplify, code, i)[m] == Erased
    ensures ReadsBack(code, i, m) || (m == i && exists t: Point :: StoredOver(code, i, t))
  {
    hide WellFormed, BlockEnd, NoUses, StoreScan, BasicCse, InBlock;
    NotErasedEarly(domTree, simplify, code, i);
    BasicCseKeepsMemoryOps(domTree, code, i);
    var end := BlockEnd(code, i);
    OperandsNotRedefined(code, i, end - 1);
    OnlyReadersGo(code, i, i + 1, m, end);
    if m == i {
      var t :| i + 1 <= t < end && Overwrites(code[i], code[t]) && OnlyForwards(code, i, i + 1, t);
      SubBlock(code, i, t, end - 1);
      assert StoredOver(code, i, t);
    } else {
      SubBlock(code, i, m, end - 1);
    }
  }

  /** The same for one turn. */
  lemma TurnAchieves(domTree: DomTree, simplify: Simplifier, code: Code, i: Point)
    requires i < |code|
    ensures var d := VisitSlot(domTree, simplify, code, i);
      && (code[i].Pure? && NoUses(code, i) ==> d == code[i := Erased])
      && (WellFormed(code) && SimplifierFits(simplify) && simplify(code, i).Some? ==> d[i] == Erased && NoUses(d, i))
      && (WellFormed(code) && DomTreeExact(domTree) && simplify(code, i).None? && ShouldCse(code[i]) && !NoUses(code, i) ==>
            d[i] == code[i] && forall m: Point :: InScope(code, i, m) ==> d[m] != code[i])
    ensures WellFormed(code) && simplify(code, i).None? ==> forall m: Point :: RepeatedLoad(code, i, m) || ReadsBack(code, i, m) ==>
      m < |code| && VisitSlot(domTree, simplify, code, i)[m] == Erased
    ensures WellFormed(code) && simplify(code, i).None? ==>
      forall t: Point :: StoredOver(code, i, t) ==> VisitSlot(domTree, simplify, code, i)[i] == Erased
    ensures WellFormed(code) && DomTreeExact(domTree) && simplify(code, i).None? ==> OnlyRedundantGone(code, VisitSlot(domTree, simplify, code, i), i)
  {
    hide OnlyRedundantGone, WellFormed, DomTreeExact, SimplifierFits, VisitSlot, NoUses, InScope, RepeatedLoad, ReadsBack, StoredOver;
    if code[i].Pure? && NoUses(code, i) {
      TurnAtDead(domTree, simplify, code, i);
    }
    if WellFormed(code) && SimplifierFits(simplify) && simplify(code, i).Some? {
      TurnSimplifies(domTree, simplify, code, i);
    }
    if WellFormed(code) && DomTreeExact(domTree) && simplify(code, i).None? && ShouldCse(code[i]) && !NoUses(code, i) {
      TurnRemovesCopies(domTree, simplify, code, i);
    }
    if WellFormed(code) && simplify(code, i).None? {
      forall m: Point | RepeatedLoad(code, i, m) || ReadsBack(code, i, m)
        ensures m < |code| && VisitSlot(domTree, simplify, code, i)[m] == Erased
      {
        if RepeatedLoad(code, i, m) {
          RepeatedLoadRange(code, i, m);
          TurnRemovesLoads(domTree, simplify, code, i, m);
        } else {
          ReadsBackRange(code, i, m);
          TurnRemovesReads(domTree, simplify, code, i, m);
        }
      }
      forall t: Point | StoredOver(code, i, t) ensures VisitSlot(domTree, simplify, code, i)[i] == Erased {
        StoredOverRange(code, i, t);
        TurnRemovesStore(domTree, simplify, code, i, t);
      }
    }
    if WellFormed(code) && DomTreeExact(domTree) && simplify(code, i).None? {
      TurnSparesOthers(domTree, simplify, code, i);
    }
  }

  /** What a turn at i that simplifies nothing has erased from c is redundant, or dead. */
  ghost predicate OnlyRedundantGone(c: Code, d: Code, i: Point)
    requires |c| == |d| && i < |c|
  {
    match c[i]
    case Pure(op, _) =>
      if NoUses(c, i) then d == c[i := Erased]
      else if op == FCmp then d == c
      else forall m :: 0 <= m < |c| && d[m] == Erased ==> c[m] == Erased || c[m] == c[i]
    case Load(_, _, _) => forall m: Point :: m < |c| && d[m] == Erased ==> c[m] == Erased || RepeatedLoad(c, i, m)
    case Store(_, v, a, _) => v != a ==> forall m: Point :: m < |c| && d[m] == Erased ==>
      c[m] == Erased || ReadsBack(c, i, m) || (m == i && exists t: Point :: StoredOver(c, i, t))
    case _ => d == c
  }

  lemma TurnSparesOthers(domTree: DomTree, simplify: Simplifier, code: Code, i: Point)
    requires WellFormed(code) && DomTreeExact(domTree) && i < |code| && simplify(code, i).None?
    ensures OnlyRedundantGone(code, VisitSlot(domTree, simplify, code, i), i)
  {
    hide WellFormed, DomTreeExact, VisitSlot, NoUses, InScope, RepeatedLoad, ReadsBack, StoredOver;
    var d := VisitSlot(domTree, simplify, code, i);
    if code[i].Load? {
      forall m: Point | m < |code| && d[m] == Erased ensures code[m] == Erased || RepeatedLoad(code, i, m) {
        if code[m] != Erased {
          TurnAtLoadOnly(domTree, simplify, code, i, m);
        }
      }
    } else if code[i].Store? {
      if code[i].val != code[i].addr {
        forall m: Point | m < |code| && d[m] == Erased
          ensures code[m] == Erased || ReadsBack(code, i, m) || (m == i && exists t: Point :: StoredOver(code, i, t))
        {
          if code[m] != Erased {
            TurnAtStoreOnly(domTree, simplify, code, i, m);
          }
        }
      }
    } else if code[i].Pure? && NoUses(code, i) {
      TurnAtDead(domTree, simplify, code, i);
    } else if ShouldCse(code[i]) {
      TurnRemovesCopies(domTree, simplify, code, i);
    } else {
      TurnElsewhere(domTree, simplify, code, i);
    }
  }
}
