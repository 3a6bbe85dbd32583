/**
  The pass itself: an object that walks a function slot by slot and rewrites it in place, as
  CommonSubexpressionElimination does with its instruction iterators.
*/
module CsePass {
  import opened IR
  import opened Dominance
  import opened Replace
  import opened AvailableValues
  import opened DeadStore
  import opened Cse
  import opened Redundancy

  class FunctionPass {
    var code: Code
    const domTree: DomTree
    const simplify: Simplifier

    constructor (code: Code, domTree: DomTree, simplify: Simplifier)
      ensures this.code == code && this.domTree == domTree && this.simplify == simplify
    {
      this.code, this.domTree, this.simplify := code, domTree, simplify;
    }

    method RemoveCommonInstructionsIn(from: Point, i: Point)
      requires from < |code| && i < |code|
      modifies this`code
      ensures code == RemoveCommon(old(code), i, from, BlockEnd(old(code), from))
    {
      var end := BlockEnd(code, from);
      var next := from;
      while next < end
        invariant |code| == |old(code)|
        invariant RemoveCommon(code, i, next, end) == RemoveCommon(old(code), i, from, end)
      {
        if i != next && code[next] == code[i] {
          code := ReplaceAndErase(code, next, Reg(i));
        }
        next := next + 1;
      }
    }

    method RemoveCommonInstInDominatedBlocks(i: Point)
      requires i < |code| && forall l :: l in domTree(code, BlockStart(code, i)) ==> l < |code|
      modifies this`code
      ensures code == RemoveCommonInBlocks(old(code), i, domTree(old(code), BlockStart(old(code), i)))
    {
      var blocks := domTree(code, BlockStart(code, i));
      var n := 0;
      while n < |blocks|
        invariant n <= |blocks| && |code| == |old(code)|
        invariant (forall l :: l in blocks ==> l < |code|) && (forall l :: l in blocks[n..] ==> l < |code|)
        invariant RemoveCommonInBlocks(code, i, blocks[n..]) == RemoveCommonInBlocks(old(code), i, blocks)
      {
        assert blocks[n..][1..] == blocks[n + 1..] && blocks[n] == blocks[n..][0] && blocks[n] in blocks;
        RemoveCommonInstructionsIn(blocks[n], i);
        n := n + 1;
        assert forall l :: l in blocks[n..] ==> l in blocks;
      }
      assert blocks[n..] == [];
    }

    method BasicCsePass(i: Point)
      requires i < |code|
      modifies this`code
      ensures code == BasicCse(domTree, old(code), i)
      ensures WellFormed(old(code)) && DomTreeOk(domTree) ==> forall w: World :: LayoutOk(w) ==> Refined(w, old(code), code)
    {
      if WellFormed(code) && DomTreeOk(domTree) {
        forall w: World | LayoutOk(w) ensures Refined(w, code, BasicCse(domTree, code, i)) {
          BasicCseRefined(w, domTree, code, i);
        }
      }
      hide Refined, WellFormed, DomTreeOk;
      if ShouldCse(code[i]) {
        RemoveCommonInstructionsIn(i, i);
        var blocks := domTree(code, BlockStart(code, i));
        if forall l :: l in blocks ==> l < |code| {
          RemoveCommonInstInDominatedBlocks(i);
        }
      }
    }

    method EliminateRedundantLoads(i: Point)
      requires i < |code|
      modifies this`code
      ensures code == ReuseLoads(old(code), i, i + 1, BlockEnd(old(code), i))
    {
      var end := BlockEnd(code, i);
      var next := i + 1;
      while next < end
        invariant |code| == |old(code)| && i < next <= end
        invariant ReuseLoads(code, i, next, end) == ReuseLoads(old(code), i, i + 1, end)
      {
        if SameLoad(code[i], code[next]) {
          code := ReplaceAndErase(code, next, Reg(i));
        } else if code[next].Store? {
          return;
        }
        next := next + 1;
      }
    }

    method EliminateRedundantStore(i: Point)
      requires i < |code|
      modifies this`code
      ensures code == StoreScan(old(code), i, i + 1, BlockEnd(old(code), i))
    {
      var end := BlockEnd(code, i);
      var next := i + 1;
      while next < end
        invariant |code| == |old(code)| && i < next <= end
        invariant StoreScan(code, i, next, end) == StoreScan(old(code), i, i + 1, end)
      {
        if LoadsFrom(code[i], code[next]) {
          code := ReplaceAndErase(code, next, code[i].val);
        } else if Overwrites(code[i], code[next]) {
          code := code[i := Erased];
          return;
        } else if code[next].Load? || code[next].Store? || code[next].Call? {
          return;
        }
        next := next + 1;
      }
    }

    /**
      One turn of the main loop: what is dead goes, what can be simplified is replaced; otherwise copies, repeated loads, loads
      that read back a store and stores that are stored over go.
    */
    method Visit(i: Point)
      requires i < |code|
      modifies this`code
      ensures code == VisitSlot(domTree, simplify, old(code), i)
      ensures old(code)[i].Pure? && (forall q :: 0 <= q < |code| ==> !Uses(old(code)[q], i)) ==> code == old(code)[i := Erased]
      ensures WellFormed(old(code)) && SimplifierFits(simplify) && simplify(old(code), i).Some? ==>
        code[i] == Erased && forall q :: 0 <= q < |code| ==> !Uses(code[q], i)
      ensures (WellFormed(old(code)) && DomTreeExact(domTree) && simplify(old(code), i).None? && old(code)[i].Pure?
               && old(code)[i].op != FCmp && exists q :: 0 <= q < |code| && Uses(old(code)[q], i))
        ==> code[i] == old(code)[i] && forall m: Point :: InScope(old(code), i, m) ==> code[m] != code[i]
      ensures WellFormed(old(code)) && simplify(old(code), i).None? ==>
        forall m: Point :: RepeatedLoad(old(code), i, m) || ReadsBack(old(code), i, m) ==> code[m] == Erased
      ensures WellFormed(old(code)) && simplify(old(code), i).None? ==>
        forall t: Point :: StoredOver(old(code), i, t) ==> code[i] == Erased
      ensures |code| == |old(code)|
      ensures WellFormed(old(code)) && DomTreeExact(domTree) && simplify(old(code), i).None? ==> OnlyRedundantGone(old(code), code, i)
      ensures WellFormed(old(code)) && DomTreeOk(domTree) ==>
        forall w: World :: LayoutOk(w) && CallsHarmless(w, old(code), i) && SimplifierOk(w, simplify) ==> Refined(w, old(code), code)
    {
      if WellFormed(code) && DomTreeOk(domTree) {
        forall w: World | LayoutOk(w) && CallsHarmless(w, code, i) && SimplifierOk(w, simplify)
          ensures Refined(w, code, VisitSlot(domTree, simplify, code, i))
        {
          VisitRefined(w, domTree, simplify, code, i);
        }
      }
      TurnAchieves(domTree, simplify, code, i);
      hide Refined, WellFormed, DomTreeOk, SimplifierOk, CallsHarmless, LayoutOk;
      if code[i].Erased? {
      } else if IsDead(code, i) {
        code := code[i := Erased];
      } else {
        var simplified := simplify(code, i);
        if simplified.Some? {
          code := ReplaceAndErase(code, i, simplified.value);
        } else {
          BasicCsePass(i);
          if code[i].Load? {
            EliminateRedundantLoads(i);
          } else if code[i].Store? {
            EliminateRedundantStore(i);
          }
        }
      }
    }

    /** The loop always moves on to the next slot, and what it leaves behaves as before. */
    method CommonSubexpressionElimination()
      requires WellFormed(code) && DomTreeOk(domTree)
      modifies this`code
      ensures code == RunPass(domTree, simplify, old(code), 0)
      ensures forall w: World :: (LayoutOk(w) && CallsHarmless(w, old(code), 0) && SimplifierOk(w, simplify)
        ==> WellFormed(code) && SameBehaviour(w, old(code), code))
      ensures DomTreeExact(domTree) && SimplifierFits(simplify) ==> |code| == |old(code)| && NothingRedundantLeft(old(code), code)
    {
      var i := 0;
      while i < |code|
        invariant i <= |code|
        invariant RunPass(domTree, simplify, code, i) == RunPass(domTree, simplify, old(code), 0)
      {
        Visit(i);
        i := i + 1;
      }
      forall w: World | LayoutOk(w) && CallsHarmless(w, old(code), 0) && SimplifierOk(w, simplify)
        ensures WellFormed(code) && SameBehaviour(w, old(code), code)
      {
        PassPreserves(w, domTree, simplify, old(code), 0);
      }
      if DomTreeExact(domTree) && SimplifierFits(simplify) {
        PassAchieves(domTree, simplify, old(code));
      }
    }
  }
}
