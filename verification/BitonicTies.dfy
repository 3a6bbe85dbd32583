/**
  Five equal values can defeat the adaptive merge: the descent of Bimerge
  (wolfbench/Benchmarks/bisort/bitonic.c) goes to the wrong side of a tie and leaves a pair
  beside its path uncompared. So the bound of four in AdaptiveMerge.SortSeqSorts is the best one.
*/
module BitonicTies {
  import opened BitonicSeq
  import opened Bits
  import opened AdaptiveMerge

  lemma DescendOne(a: int, b: int, fromRight: bool, dir: bool)
    ensures DescendSeq([a], [b], fromRight, dir) == ([Low(a, b, dir)], [High(a, b, dir)])
  {
    var g := fromRight == Exchanges(a, b, dir);
    assert [a] == Around([], a, [], g) && [b] == Around([], b, [], g);
    DescendSeqStep(a, b, [], [], [], [], fromRight, dir);
  }

  lemma MergeFour(a: int, b: int, c: int, d: int, dir: bool)
    ensures MergeSeq([a, b, c, d], 2, dir)
      == MergeSeq([Low(a, c, dir), Low(b, d, dir)], 1, dir) + MergeSeq([High(a, c, dir), High(b, d, dir)], 1, dir)
  {
    assert [a, b, c, d] == [a] + [b] + [c] + [d];
    MergeSeqUnfold([a], b, [c], d, 2, dir);
    DescendOne(a, c, Exchanges(b, d, dir), dir);
  }

  lemma SortFour(a: int, b: int, c: int, d: int, dir: bool)
    ensures SortSeq([a, b, c, d], 2, dir)
      == MergeSeq([Low(a, b, dir), High(a, b, dir), Low(c, d, !dir), High(c, d, !dir)], 2, dir)
  {
    hide MergeSeq, SortSeq, Low, High;
    SortTwo(a, b, dir);
    SortTwo(c, d, !dir);
    SortUnfold([a, b], [c, d], 1, dir);
    assert [a, b] + [c, d] == [a, b, c, d];
    Joined(Low(a, b, dir), High(a, b, dir), Low(c, d, !dir), High(c, d, !dir));
  }

  lemma Joined(a: int, b: int, c: int, d: int)
    ensures [a, b] + [c, d] == [a, b, c, d]
  {
  }

  lemma DescendThree(a: int, u: int, c: int, b: int, v: int, d: int, dir: bool)
    requires !Exchanges(u, v, dir)
    ensures DescendSeq([a, u, c], [b, v, d], false, dir) == ([Low(a, b, dir), u, c], [High(a, b, dir), v, d])
  {
    hide DescendSeq, Low, High, Exchanges;
    DescendOne(a, b, false, dir);
    assert [a, u, c] == [a] + [u] + [c] && [b, v, d] == [b] + [v] + [d];
    StepLeft(u, v, [a], [b], [c], [d], false, dir);
    ThreeJoined(Low(a, b, dir), u, c);
    ThreeJoined(High(a, b, dir), v, d);
  }

  lemma ThreeJoined(a: int, b: int, c: int)
    ensures [a] + [b] + [c] == [a, b, c]
  {
  }

  /** Eight values; where the middle pairs are in order the third pair is not looked at. */
  lemma MergeEight(a: int, u: int, c: int, p: int, b: int, v: int, d: int, q: int, dir: bool)
    requires !Exchanges(u, v, dir) && !Exchanges(p, q, dir)
    ensures MergeSeq([a, u, c, p, b, v, d, q], 3, dir)
      == MergeSeq([Low(a, b, dir), u, c, p], 2, dir) + MergeSeq([High(a, b, dir), v, d, q], 2, dir)
  {
    hide DescendSeq, MergeSeq, Low, High, Exchanges;
    assert [a, u, c, p, b, v, d, q] == [a, u, c] + [p] + [b, v, d] + [q];
    MergeSeqUnfold([a, u, c], p, [b, v, d], q, 3, dir);
    DescendThree(a, u, c, b, v, d, dir);
    Appended(Low(a, b, dir), u, c, p);
    Appended(High(a, b, dir), v, d, q);
  }

  lemma Appended(a: int, b: int, c: int, d: int)
    ensures [a, b, c] + [d] == [a, b, c, d]
  {
  }

  lemma TiedMerge()
    ensures MergeSeq([0, 0, 2, 1, 1, 1, 1, 1], 3, false) == [0, 0, 1, 2, 1, 1, 1, 1]
  {
    hide MergeSeq;
    MergeEight(0, 0, 2, 1, 1, 1, 1, 1, false);
    MergeFourValues(0, 0, 2, 1, false);
    MergeFourValues(1, 1, 1, 1, false);
  }

  /** No value occurs more than five times. */
  ghost predicate FiveAtMost(s: seq<int>) {
    forall v: int :: multiset(s)[v] <= 5
  }

  /** A bitonic sequence with one value five times that the merge does not sort: its 2 is never compared with what follows. */
  lemma TiesDefeatTheMerge(s: seq<int>, h: nat)
    requires s == [0, 0, 2, 1, 1, 1, 1, 1] && h == 3
    ensures |s| == Pow2(h) && Bitonic(s) && FiveAtMost(s) && !Sorted(MergeSeq(s, h, false), false)
  {
    hide *;
    PowersOfTwo();
    FiveOnes(s);
    assert [0, 0, 2] + [1, 1, 1, 1, 1] == s;
    Runs([0, 0, 2], [1, 1, 1, 1, 1]);
    UpDownBitonic([0, 0, 2], [1, 1, 1, 1, 1], false);
    TiedMerge();
    NotSorted(MergeSeq(s, h, false), 3, 4);
  }

  lemma PowersOfTwo()
    ensures Pow2(2) == 4 && Pow2(3) == 8 && Pow2(4) == 16
  {
    assert Pow2(1) == 2;
  }

  lemma FiveOnes(s: seq<int>)
    requires s == [0, 0, 2, 1, 1, 1, 1, 1]
    ensures FiveAtMost(s)
  {
    assert multiset(s) == multiset{0, 0, 2, 1, 1, 1, 1, 1};
  }

  lemma FiveOfSixteen(s: seq<int>)
    requires s == [0, 3, 0, 3, 5, 4, 5, 3, 1, 1, 1, 2, 3, 2, 1, 1]
    ensures FiveAtMost(s)
  {
    var a, b := [0, 3, 0, 3, 5, 4, 5, 3], [1, 1, 1, 2, 3, 2, 1, 1];
    assert s == a + b;
    FirstCounts(a);
    SecondCounts(b);
    AddedCounts(a, b);
  }

  lemma FirstCounts(a: seq<int>)
    requires a == [0, 3, 0, 3, 5, 4, 5, 3]
    ensures forall v: int :: multiset(a)[v] <= if v == 1 then 0 else 3
  {
    assert multiset(a) == multiset{0, 3, 0, 3, 5, 4, 5, 3};
  }

  lemma SecondCounts(b: seq<int>)
    requires b == [1, 1, 1, 2, 3, 2, 1, 1]
    ensures forall v: int :: multiset(b)[v] <= if v == 1 then 5 else 2
  {
    assert multiset(b) == multiset{1, 1, 1, 2, 3, 2, 1, 1};
  }

  lemma AddedCounts(a: seq<int>, b: seq<int>)
    requires forall v: int :: multiset(a)[v] <= if v == 1 then 0 else 3
    requires forall v: int :: multiset(b)[v] <= if v == 1 then 5 else 2
    ensures FiveAtMost(a + b)
  {
    assert multiset(a + b) == multiset(a) + multiset(b);
  }

  lemma Runs(a: seq<int>, b: seq<int>)
    requires a == [0, 0, 2] && b == [1, 1, 1, 1, 1]
    ensures Sorted(a, false) && Sorted(b, true)
  {
  }

  lemma NotSorted(s: seq<int>, i: nat, j: nat)
    requires i < j < |s| && s[i] > s[j]
    ensures !Sorted(s, false)
  {
    assert !Before(s[i], s[j], false);
  }

  // ------------------------------------------------------ sixteen values, sorted wrongly

  /** Four values, merged. */
  lemma MergeFourValues(a: int, b: int, c: int, d: int, dir: bool)
    ensures MergeSeq([a, b, c, d], 2, dir) ==
      var p, q, u, v := Low(a, c, dir), Low(b, d, dir), High(a, c, dir), High(b, d, dir);
      [Low(p, q, dir), High(p, q, dir), Low(u, v, dir), High(u, v, dir)]
  {
    hide MergeSeq, Low, High;
    var p, q, u, v := Low(a, c, dir), Low(b, d, dir), High(a, c, dir), High(b, d, dir);
    MergeFour(a, b, c, d, dir);
    MergeTwo(p, q, dir);
    MergeTwo(u, v, dir);
    Joined(Low(p, q, dir), High(p, q, dir), Low(u, v, dir), High(u, v, dir));
  }

  /** The other turn of MergeEight: both middle pairs are exchanged. */
  lemma MergeEightExchanged(a: int, u: int, c: int, p: int, b: int, v: int, d: int, q: int, dir: bool)
    requires Exchanges(u, v, dir) && Exchanges(p, q, dir)
    ensures MergeSeq([a, u, c, p, b, v, d, q], 3, dir)
      == MergeSeq([Low(a, b, dir), v, d, q], 2, dir) + MergeSeq([High(a, b, dir), u, c, p], 2, dir)
  {
    hide DescendSeq, MergeSeq, Low, High, Exchanges;
    assert [a, u, c, p, b, v, d, q] == [a, u, c] + [p] + [b, v, d] + [q];
    MergeSeqUnfold([a, u, c], p, [b, v, d], q, 3, dir);
    DescendOne(a, b, true, dir);
    assert [a, u, c] == [a] + [u] + [c] && [b, v, d] == [b] + [v] + [d];
    StepLeft(u, v, [a], [b], [c], [d], true, dir);
    ThreeJoined(Low(a, b, dir), v, d);
    ThreeJoined(High(a, b, dir), u, c);
    Appended(Low(a, b, dir), v, d, q);
    Appended(High(a, b, dir), u, c, p);
  }

  lemma FirstHalf(s: seq<int>)
    requires s == [0, 3, 0, 3, 5, 4, 5, 3]
    ensures |s| == Pow2(3) && SortSeq(s, 3, false) == [0, 0, 3, 3, 3, 4, 5, 5]
  {
    hide MergeSeq, SortSeq, Pow2;
    PowersOfTwo();
    SortFour(0, 3, 0, 3, false);
    SortFour(5, 4, 5, 3, true);
    MergeFourValues(0, 3, 3, 0, false);
    MergeFourValues(5, 4, 3, 5, true);
    SortEight([0, 3, 0, 3], [5, 4, 5, 3], s, false);
    assert [0, 0, 3, 3] + [5, 5, 4, 3] == [0, 0, 3, 3, 5, 5, 4, 3];
    MergeEight(0, 0, 3, 3, 5, 5, 4, 3, false);
    MergeFourValues(0, 0, 3, 3, false);
    MergeFourValues(5, 5, 4, 3, false);
  }

  lemma SecondHalf(s: seq<int>)
    requires s == [1, 1, 1, 2, 3, 2, 1, 1]
    ensures |s| == Pow2(3) && SortSeq(s, 3, true) == [3, 2, 2, 1, 1, 1, 1, 1]
  {
    hide MergeSeq, SortSeq, Pow2;
    PowersOfTwo();
    SortFour(1, 1, 1, 2, true);
    SortFour(3, 2, 1, 1, false);
    MergeFourValues(1, 1, 1, 2, true);
    MergeFourValues(2, 3, 1, 1, false);
    SortEight([1, 1, 1, 2], [3, 2, 1, 1], s, true);
    assert [2, 1, 1, 1] + [1, 1, 2, 3] == [2, 1, 1, 1, 1, 1, 2, 3];
    MergeEightExchanged(2, 1, 1, 1, 1, 1, 2, 3, true);
    MergeFourValues(2, 1, 2, 3, true);
    MergeFourValues(1, 1, 1, 1, true);
  }

  lemma SortEight(x: seq<int>, y: seq<int>, s: seq<int>, dir: bool)
    requires |x| == |y| == Pow2(2) && s == x + y && |s| == Pow2(3)
    ensures |SortSeq(x, 2, dir) + SortSeq(y, 2, !dir)| == Pow2(3)
    ensures SortSeq(s, 3, dir) == MergeSeq(SortSeq(x, 2, dir) + SortSeq(y, 2, !dir), 3, dir)
  {
    SortUnfold(x, y, 2, dir);
  }

  lemma DescendSeven(x: seq<int>, y: seq<int>)
    requires x == [0, 0, 3, 3, 3, 4, 5] && y == [3, 2, 2, 1, 1, 1, 1]
    ensures DescendSeq(x, y, true, false) == ([0, 0, 2, 1, 1, 1, 1], [3, 2, 3, 3, 3, 4, 5])
  {
    hide DescendSeq;
    DescendOne(3, 2, true, false);
    StepRight(0, 2, [3], [2], [0], [3], true, false);
    assert [0] + [0] + [3] == [0, 0, 3] && [3] + [2] + [2] == [3, 2, 2];
    assert [0] + [0] + [2] == [0, 0, 2] && [3] + [2] + [3] == [3, 2, 3];
    StepLeft(3, 1, [0, 0, 3], [3, 2, 2], [3, 4, 5], [1, 1, 1], true, false);
    assert [0, 0, 3] + [3] + [3, 4, 5] == x && [3, 2, 2] + [1] + [1, 1, 1] == y;
    assert [0, 0, 2] + [1] + [1, 1, 1] == [0, 0, 2, 1, 1, 1, 1] && [3, 2, 3] + [3] + [3, 4, 5] == [3, 2, 3, 3, 3, 4, 5];
  }

  lemma LastMerge(x: seq<int>, y: seq<int>, s: seq<int>)
    requires x == [0, 0, 3, 3, 3, 4, 5] && y == [3, 2, 2, 1, 1, 1, 1] && s == x + [5] + y + [1] && |s| == Pow2(4)
    ensures MergeSeq(s, 4, false)[3] == 2 && MergeSeq(s, 4, false)[4] == 1
  {
    hide DescendSeq, MergeSeq, Pow2;
    PowersOfTwo();
    DescendSeven(x, y);
    MergeSeqUnfold(x, 5, y, 1, 4, false);
    assert [0, 0, 2, 1, 1, 1, 1] + [1] == [0, 0, 2, 1, 1, 1, 1, 1];
    TiedMerge();
  }

  /** Bisort leaves these sixteen values out of order, of which only the 1 occurs five times. */
  lemma TiesDefeatTheSort(s: seq<int>, h: nat)
    requires s == [0, 3, 0, 3, 5, 4, 5, 3, 1, 1, 1, 2, 3, 2, 1, 1] && h == 4
    ensures |s| == Pow2(h) && FiveAtMost(s) && !Sorted(SortSeq(s, h, false), false)
  {
    hide *;
    FiveOfSixteen(s);
    PowersOfTwo();
    var x, y := s[..8], s[8..];
    assert s == x + y;
    FirstHalf(x);
    SecondHalf(y);
    SortUnfold(x, y, 3, false);
    var t := [0, 0, 3, 3, 3, 4, 5, 5] + [3, 2, 2, 1, 1, 1, 1, 1];
    assert t == [0, 0, 3, 3, 3, 4, 5] + [5] + [3, 2, 2, 1, 1, 1, 1] + [1];
    LastMerge([0, 0, 3, 3, 3, 4, 5], [3, 2, 2, 1, 1, 1, 1], t);
    NotSorted(MergeSeq(t, h, false), 3, 4);
  }
}
