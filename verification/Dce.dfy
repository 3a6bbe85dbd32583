/**
  Worklist dead code elimination, tutorials/3/C++/dce.cpp. Whatever order the worklist is
  emptied in, exactly the least set of removable instructions without live users disappears.
*/
module Dce {
  import opened IR
  import opened Dominance
  import opened Replace
  import opened Cse

  /** isDead: no use left, and an opcode whose removal nobody notices. */
  predicate Dead(code: Code, p: Point)
    requires p < |code|
  {
    NoUses(code, p) && Removable(code[p])
  }

  /** Contains every removable instruction all of whose users it contains. */
  ghost predicate Closed(code: Code, s: set<Point>) {
    forall p :: 0 <= p < |code| && Removable(code[p]) && UsersIn(code, p, s) ==> p in s
  }

  predicate UsersIn(code: Code, p: Point, s: set<Point>) {
    forall q :: 0 <= q < |code| && Uses(code[q], p) ==> q in s
  }

  /** s is the least closed set. */
  ghost predicate LeastClosed(code: Code, s: set<Point>) {
    Closed(code, s) && forall t: set<Point> :: Closed(code, t) ==> s <= t
  }

  function EraseAll(code: Code, s: set<Point>): (r: Code)
    ensures |r| == |code|
  {
    seq(|code|, p requires 0 <= p < |code| => if p in s then Erased else code[p])
  }

  /** Two sets that are both least closed are one and the same: the outcome is unique. */
  lemma LeastIsUnique(code: Code, s: set<Point>, t: set<Point>)
    requires LeastClosed(code, s) && LeastClosed(code, t)
    ensures s == t
  {
  }

  /** The erased set so far, with everything the pass keeps true about it. */
  ghost predicate Progress(orig: Code, code: Code, gone: set<Point>) {
    && WellFormed(code) && code == EraseAll(orig, gone)
    && (forall p :: p in gone ==> p < |orig| && Removable(orig[p]))
    && (forall t: set<Point> :: Closed(orig, t) ==> gone <= t)
  }

  ghost predicate WorklistOk(code: Code, worklist: set<Point>) {
    && (forall p :: p in worklist ==> p < |code| && !code[p].Erased?)
    && (forall p :: 0 <= p < |code| && Dead(code, p) ==> p in worklist)
  }

  lemma EraseOne(orig: Code, code: Code, gone: set<Point>, i: Point)
    requires Progress(orig, code, gone) && i < |code| && Dead(code, i)
    ensures Progress(orig, code[i := Erased], gone + {i})
  {
    hide SDom;
    EraseDeadIsReplace(code, i);
    ReplaceWellFormed(code, i, Const(0));
    assert i !in gone;
    forall t: set<Point> | Closed(orig, t) ensures i in t {
      assert gone <= t;
      forall q | 0 <= q < |orig| && Uses(orig[q], i) ensures q in t {
        assert code[q] != orig[q];
      }
      assert UsersIn(orig, i, t);
    }
  }

  /** Erasing i can only make operands of i dead. */
  lemma NewlyDead(code: Code, i: Point, p: Point)
    requires i < |code| && p < |code| && Dead(code[i := Erased], p) && !Dead(code, p)
    ensures Uses(code[i], p)
  {
    var code' := code[i := Erased];
    assert code'[p] == code[p];
    var q :| 0 <= q < |code| && Uses(code[q], p);
    assert code'[q] != code[q];
  }

  /** When nothing dead is left, the erased set is the least closed one. */
  lemma NothingDeadLeft(orig: Code, code: Code, gone: set<Point>)
    requires Progress(orig, code, gone) && forall p :: 0 <= p < |code| ==> !Dead(code, p)
    ensures LeastClosed(orig, gone)
  {
    hide WellFormed;
    forall p | 0 <= p < |orig| && Removable(orig[p]) && UsersIn(orig, p, gone) ensures p in gone {
      assert NoUses(code, p);
      assert !Dead(code, p);
    }
  }

  // ------------------------------------------------------------ meaning

  /** Step for step the reduced program has the same history, memory, events and other values. */
  ghost predicate SameButGone(w: World, orig: Code, code: Code, gone: set<Point>, n: nat) {
    Run(w, code, n) == Run(w, orig, n).(env := Run(w, orig, n).env - gone)
  }

  ghost predicate AlwaysSameButGone(orig: Code, code: Code, gone: set<Point>) {
    forall w: World, n: nat :: SameButGone(w, orig, code, gone, n)
  }

  lemma NothingGone(orig: Code)
    ensures AlwaysSameButGone(orig, orig, {}) && EraseAll(orig, {}) == orig
  {
    forall w: World, n: nat ensures SameButGone(w, orig, orig, {}, n) {
      assert Run(w, orig, n).env - {} == Run(w, orig, n).env;
    }
  }

  lemma EraseOneAgrees(w: World, orig: Code, code: Code, gone: set<Point>, i: Point, n: nat)
    requires WellFormed(code) && i < |code| && Dead(code, i) && SameButGone(w, orig, code, gone, n)
    ensures SameButGone(w, orig, code[i := Erased], gone + {i}, n)
  {
    hide WellFormed, Run;
    EraseDeadIsReplace(code, i);
    ReplaceSimulation(w, code, i, Const(0), n);
    var e := Run(w, orig, n).env;
    assert e - gone - {i} == e - (gone + {i});
  }

  function PointsIn(os: seq<Operand>): (r: set<Point>)
    ensures forall o :: o in os && o.Reg? ==> o.p in r
    ensures forall p :: p in r ==> Reg(p) in os
  {
    if os == [] then {}
    else PointsIn(os[..|os| - 1]) + if os[|os| - 1].Reg? then {os[|os| - 1].p} else {}
  }

  function OperandPoints(x: Inst): set<Point> {
    PointsIn(Operands(x))
  }

  /** Queuing the operands of i before erasing it keeps every dead instruction queued. */
  lemma StillQueued(code: Code, worklist: set<Point>, i: Point)
    requires i < |code| && i !in worklist && OperandPoints(code[i]) <= worklist
    requires forall p :: p in worklist ==> p < |code| && !code[p].Erased?
    requires forall p :: 0 <= p < |code| && p != i && Dead(code, p) ==> p in worklist
    ensures WorklistOk(code[i := Erased], worklist)
  {
    var code' := code[i := Erased];
    forall p | 0 <= p < |code'| && Dead(code', p) ensures p in worklist {
      if !Dead(code, p) {
        NewlyDead(code, i, p);
        assert Reg(p) in Operands(code[i]);
        assert p in OperandPoints(code[i]);
      }
    }
  }

  lemma OperandsAreLive(code: Code, i: Point)
    requires WellFormed(code) && i < |code|
    ensures forall p :: p in OperandPoints(code[i]) ==> p < |code| && !code[p].Erased? && p != i
  {
    hide SDom, Reachable;
    forall p | p in OperandPoints(code[i]) ensures p < |code| && !code[p].Erased? && p != i {
      assert Uses(code[i], p);
      assert UseOk(code, i, p);
      StrictDominance(code, p, i);
    }
  }

  /** One successful turn of the loop: i leaves the worklist, its operands enter, i is erased. */
  lemma Turn(orig: Code, code: Code, gone: set<Point>, worklist: set<Point>, i: Point)
    requires Progress(orig, code, gone) && WorklistOk(code, worklist) && AlwaysSameButGone(orig, code, gone)
    requires i in worklist && i < |code| && Dead(code, i)
    ensures Progress(orig, code[i := Erased], gone + {i})
    ensures WorklistOk(code[i := Erased], worklist - {i} + OperandPoints(code[i]))
    ensures AlwaysSameButGone(orig, code[i := Erased], gone + {i})
    ensures i < |orig| && i !in gone
  {
    hide WellFormed, Dead, OperandPoints;
    EraseOne(orig, code, gone, i);
    OperandsAreLive(code, i);
    StillQueued(code, worklist - {i} + OperandPoints(code[i]), i);
    var code', gone' := code[i := Erased], gone + {i};
    forall w: World, n: nat ensures SameButGone(w, orig, code', gone', n) {
      EraseOneAgrees(w, orig, code, gone, i, n);
    }
  }

  class DeadCodePass {
    var code: Code
    var worklist: set<Point>

    constructor (code: Code)
      ensures this.code == code && worklist == {}
    {
      this.code, worklist := code, {};
    }

    /** Queues every instruction that is dead to begin with. */
    method CollectDead()
      requires worklist == {}
      modifies this`worklist
      ensures forall p: Point :: p in worklist <==> p < |code| && Dead(code, p)
    {
      var p := 0;
      while p < |code|
        invariant p <= |code|
        invariant forall q: Point :: q in worklist <==> q < p && Dead(code, q)
      {
        if Dead(code, p) {
          worklist := worklist + {p};
        }
        p := p + 1;
      }
    }

    /** Queues the instructions among the operands of i. */
    method QueueOperands(i: Point)
      requires i < |code|
      modifies this`worklist
      ensures worklist == old(worklist) + OperandPoints(code[i])
    {
      var os := Operands(code[i]);
      var k := 0;
      while k < |os|
        invariant k <= |os| && os == Operands(code[i])
        invariant worklist == old(worklist) + PointsIn(os[..k])
      {
        assert os[..k + 1][..k] == os[..k];
        if os[k].Reg? {
          worklist := worklist + {os[k].p};
        }
        k := k + 1;
      }
      assert os[..k] == os;
    }

    /** The order in which the worklist yields its elements is left open. */
    method RunDeadCodeElimination() returns (ghost gone: set<Point>)
      requires WellFormed(code) && worklist == {}
      modifies this`code, this`worklist
      ensures WellFormed(code) && code == EraseAll(old(code), gone)
      ensures LeastClosed(old(code), gone)
      ensures forall p :: p in gone ==> p < |old(code)| && Removable(old(code)[p])
      ensures forall p :: 0 <= p < |code| && (code[p].Pure? || code[p].Alloca? || (code[p].Load? && !code[p].vol)) ==>
        exists q :: 0 <= q < |code| && Uses(code[q], p)
      ensures AlwaysSameButGone(old(code), code, gone)
    {
      hide FlowOk, UsesOk, SitesOk, ReachOk, Closed, AlwaysSameButGone, OperandPoints;
      ghost var orig := code;
      ghost var all := Cells(0, |orig|);
      gone := {};
      NothingGone(orig);
      CollectDead();
      while worklist != {}
        invariant Progress(orig, code, gone) && WorklistOk(code, worklist) && AlwaysSameButGone(orig, code, gone)
        decreases all - gone, worklist
      {
        var i :| i in worklist;
        if Dead(code, i) {
          Turn(orig, code, gone, worklist, i);
        }
        worklist := worklist - {i};
        if Dead(code, i) {
          QueueOperands(i);
          code := code[i := Erased];
          gone := gone + {i};
        }
      }
      NothingDeadLeft(orig, code, gone);
      assert forall p :: 0 <= p < |code| ==> !Dead(code, p);
    }
  }
}
