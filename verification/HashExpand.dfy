/**
  HASH_EXPAND_BUCKETS of LectureCode/Review/uthash.h: every handle moves to one of twice as many buckets.
*/
module HashExpand {
  import opened Bits
  import opened BucketStats
  import opened HashLinks

  /** The new buckets while handles move: those moved so far are items. */
  ghost predicate Spread(bs: seq<Slot>, chains: seq<seq<Item>>, items: set<Item>, fcn: Key -> nat, ideal: nat, nonideal: nat)
    reads items`hhNext, items`hhPrev
  {
    && ideal > 0 && Partition(chains, fcn, items) && Linked(bs, chains, items) && Counted(bs, chains)
    && (forall b :: b in bs ==> Redistributed(b, ideal))
    && nonideal == Sum(bs, Beyond(ideal))
  }

  function Moved(bs: seq<Slot>, b: nat, x: Item, ideal: nat): Slot
    requires b < |bs| && ideal > 0
  {
    var c := bs[b].count + 1;
    Bucket(x, c, if c > ideal then c / ideal else bs[b].expandMult)
  }

  lemma SpreadNumbers(bs: seq<Slot>, b: nat, x: Item, ideal: nat)
    requires b < |bs| && ideal > 0 && forall c :: c in bs ==> Redistributed(c, ideal)
    ensures var bs' := bs[b := Moved(bs, b, x, ideal)];
      && (forall c :: c in bs' ==> Redistributed(c, ideal)) && Sum(bs', Count) == Sum(bs, Count) + 1
      && Sum(bs', Beyond(ideal)) == Sum(bs, Beyond(ideal)) + if bs[b].count + 1 > ideal then 1 else 0
  {
    var m := Moved(bs, b, x, ideal);
    SumUpdate(bs, b, m, Count);
    SumUpdate(bs, b, m, Beyond(ideal));
    var bs' := bs[b := m];
    forall c | c in bs' ensures Redistributed(c, ideal) {
      var k :| 0 <= k < |bs'| && bs'[k] == c;
      assert Redistributed(bs[k], ideal);
    }
  }

  lemma HomeChain(chains: seq<seq<Item>>, fcn: Key -> nat, items: set<Item>, x: Item)
    requires Partition(chains, fcn, items) && x !in items
    ensures var h := Home(fcn, x, |chains|); x !in chains[h] && forall b :: 0 <= b < |chains| && b != h ==> x !in chains[b] && forall y :: y in chains[b] ==> y !in chains[h]
  {
  }

  lemma OneBucket(bs: seq<Slot>, chains: seq<seq<Item>>, items: set<Item>, b: nat)
    requires Linked(bs, chains, items) && Counted(bs, chains) && b < |bs|
    ensures |bs| == |chains| && bs[b].head == HeadOf(chains[b]) && bs[b].count == |chains[b]| && Chain(chains[b])
    ensures forall y :: y in chains[b] ==> y in items
  {
  }

  /** A bucket's new chain in place of its old one. */
  lemma LinkedAdd(bs: seq<Slot>, chains: seq<seq<Item>>, items: set<Item>, b: nat, x: Item)
    requires |bs| == |chains| && b < |bs| && bs[b].head == x && Chain([x] + chains[b])
    requires forall c {:trigger chains[c]} :: 0 <= c < |bs| && c != b ==> bs[c].head == HeadOf(chains[c]) && Chain(chains[c])
    requires forall c, i :: 0 <= c < |chains| && 0 <= i < |chains[c]| ==> chains[c][i] in items
    ensures Linked(bs, chains[b := [x] + chains[b]], items + {x})
  {
    var chains' := chains[b := [x] + chains[b]];
    forall c, i | 0 <= c < |chains'| && 0 <= i < |chains'[c]| ensures chains'[c][i] in items + {x} {
      if c == b && i > 0 {
        assert chains'[c][i] == chains[c][i - 1];
      }
    }
  }

  lemma LinkedItems(bs: seq<Slot>, chains: seq<seq<Item>>, items: set<Item>)
    requires Linked(bs, chains, items)
    ensures |bs| == |chains| && forall c, i :: 0 <= c < |chains| && 0 <= i < |chains[c]| ==> chains[c][i] in items
    ensures forall c {:trigger chains[c]} :: 0 <= c < |bs| ==> bs[c].head == HeadOf(chains[c]) && Chain(chains[c])
  {
  }

  lemma CountedAdd(bs: seq<Slot>, bs': seq<Slot>, chains: seq<seq<Item>>, b: nat, x: Item)
    requires Counted(bs, chains) && b < |bs| == |bs'| && bs'[b].count == bs[b].count + 1
    requires forall c :: 0 <= c < |bs| && c != b ==> bs'[c].count == bs[c].count
    ensures Counted(bs', chains[b := [x] + chains[b]])
  {
  }

  /** One turn of the inner loop. */
  method MoveHandle(newBuckets: array<Slot>, x: Item, ideal: nat, nonideal0: nat, fcn: Key -> nat, ghost log2: nat, ghost chains0: seq<seq<Item>>, ghost items: set<Item>)
    returns (nonideal: nat, ghost chains: seq<seq<Item>>)
    requires Spread(newBuckets[..], chains0, items, fcn, ideal, nonideal0) && newBuckets.Length == Pow2(log2)
    requires x !in items && x.hashv == fcn(x.key)
    modifies newBuckets, x`hhNext, x`hhPrev, items`hhPrev
    ensures Spread(newBuckets[..], chains, items + {x}, fcn, ideal, nonideal) && |chains| == |chains0|
    ensures Sum(newBuckets[..], Count) == old(Sum(newBuckets[..], Count)) + 1
  {
    ghost var bs := newBuckets[..];
    MaskIsMod(x.hashv, log2);
    var b := And(x.hashv, newBuckets.Length - 1);
    assert b == Home(fcn, x, |chains0|);
    HomeChain(chains0, fcn, items, x);
    OneBucket(bs, chains0, items, b);
    LinkedItems(bs, chains0, items);
    SpreadNumbers(bs, b, x, ideal);
    PartitionAdd(chains0, fcn, items, x);
    hide Pow2, And, Sum, Linked, Partition, Counted, Chain;
    chains := chains0[b := [x] + chains0[b]];
    nonideal := nonideal0;
    var bucket := newBuckets[b];
    bucket := Bucket(bucket.head, bucket.count + 1, bucket.expandMult);
    if bucket.count > ideal {
      nonideal := nonideal + 1;
      bucket := Bucket(bucket.head, bucket.count, bucket.count / ideal);
    }
    newBuckets[b] := bucket;
    PushInto(newBuckets, b, x, chains0);
    ghost var bs' := newBuckets[..];
    assert bs' == bs[b := Moved(bs, b, x, ideal)];
    LinkedAdd(bs', chains0, items, b, x);
    CountedAdd(bs, bs', chains0, b, x);
  }

  ghost function SetOf(s: seq<Item>): set<Item> {
    set x | x in s
  }

  /** The inner loop: the handles of one old chain move. */
  method MoveChain(head: Item?, newBuckets: array<Slot>, ideal: nat, nonideal0: nat, fcn: Key -> nat, ghost log2: nat,
                   ghost chain: seq<Item>, ghost chains0: seq<seq<Item>>, ghost items0: set<Item>)
    returns (nonideal: nat, ghost chains: seq<seq<Item>>)
    requires Spread(newBuckets[..], chains0, items0, fcn, ideal, nonideal0) && newBuckets.Length == Pow2(log2)
    requires head == HeadOf(chain) && Distinct(chain) && Forward(chain)
    requires forall x :: x in chain ==> x !in items0 && x.hashv == fcn(x.key)
    modifies newBuckets, chain`hhNext, chain`hhPrev, items0`hhPrev
    ensures Spread(newBuckets[..], chains, items0 + SetOf(chain), fcn, ideal, nonideal) && |chains| == |chains0|
    ensures Sum(newBuckets[..], Count) == old(Sum(newBuckets[..], Count)) + |chain|
  {
    hide Spread, Pow2, Sum;
    var thh := head;
    nonideal, chains := nonideal0, chains0;
    ghost var j, items := 0, items0;
    while thh != null
      invariant 0 <= j <= |chain| && thh == At(chain, j) && items == items0 + SetOf(chain[..j])
      invariant forall i {:trigger chain[i].hhNext} :: j <= i < |chain| ==> chain[i].hhNext == At(chain, i + 1)
      invariant Spread(newBuckets[..], chains, items, fcn, ideal, nonideal) && |chains| == |chains0|
      invariant Sum(newBuckets[..], Count) == old(Sum(newBuckets[..], Count)) + j
      decreases |chain| - j
    {
      var next := thh.hhNext;
      nonideal, chains := MoveHandle(newBuckets, thh, ideal, nonideal, fcn, log2, chains, items);
      items := items + {thh};
      assert chain[..j + 1] == chain[..j] + [chain[j]];
      thh := next;
      j := j + 1;
    }
    assert chain[..j] == chain;
  }

  /** The items of the first i buckets. */
  ghost function Below(items: set<Item>, fcn: Key -> nat, n: nat, i: nat): set<Item>
    requires n > 0
  {
    set x | x in items && Home(fcn, x, n) < i
  }

  lemma BelowNext(chains: seq<seq<Item>>, fcn: Key -> nat, items: set<Item>, i: nat)
    requires Partition(chains, fcn, items) && i < |chains|
    ensures Below(items, fcn, |chains|, i) <= items
    ensures Below(items, fcn, |chains|, i) + SetOf(chains[i]) == Below(items, fcn, |chains|, i + 1)
    ensures forall x :: x in chains[i] ==> x in items && x !in Below(items, fcn, |chains|, i)
    ensures forall b, k :: i < b < |chains| && 0 <= k < |chains[b]| ==> chains[b][k] !in Below(items, fcn, |chains|, i + 1)
  {
    var n := |chains|;
    forall x | x in Below(items, fcn, n, i + 1) ensures x in Below(items, fcn, n, i) + SetOf(chains[i]) {
      assert x in chains[Home(fcn, x, n)];
    }
  }

  lemma {:induction false} SumOfEmpty(bs: seq<Slot>, f: Slot -> int)
    requires forall b :: b in bs ==> f(b) == 0
    ensures Sum(bs, f) == 0
  {
    if bs != [] {
      SumOfEmpty(bs[..|bs| - 1], f);
    }
  }

  lemma NothingMoved(bs: seq<Slot>, fcn: Key -> nat, n: nat, items: set<Item>, ideal: nat)
    requires ideal > 0 && n > 0 && |bs| == 2 * n && forall b :: b in bs ==> b == Bucket(null, 0, 0)
    ensures Spread(bs, seq(2 * n, _ => []), Below(items, fcn, n, 0), fcn, ideal, 0) && Sum(bs, Count) == 0
  {
    SumOfEmpty(bs, Count);
    SumOfEmpty(bs, Beyond(ideal));
    assert forall b :: 0 <= b < |bs| ==> bs[b] in bs;
  }

  lemma PrefixSum(bs: seq<Slot>, i: nat)
    requires i < |bs|
    ensures Sum(bs[..i + 1], Count) == Sum(bs[..i], Count) + bs[i].count
  {
    assert bs[..i + 1][..i] == bs[..i];
  }

  /** Empty buckets, twice as many, and the ideal chain length. */
  method NewBuckets(length: nat, log2: nat, numItems: nat, ghost fcn: Key -> nat, ghost items: set<Item>)
    returns (newBuckets: array<Slot>, ideal: nat, ghost chains: seq<seq<Item>>)
    requires length == Pow2(log2) && numItems > 0
    ensures fresh(newBuckets) && newBuckets.Length == 2 * length == |chains| && newBuckets.Length == Pow2(log2 + 1)
    ensures Spread(newBuckets[..], chains, Below(items, fcn, length, 0), fcn, ideal, 0)
    ensures Sum(newBuckets[..], Count) == 0 && IsCeiling(ideal, numItems, newBuckets.Length)
  {
    newBuckets := new Slot[2 * length](_ => Bucket(null, 0, 0));
    ideal := Shr(numItems, log2 + 1) + if And(numItems, 2 * length - 1) != 0 then 1 else 0;
    CeilingByBits(numItems, log2 + 1);
    assert ideal > 0;
    hide And, Shr, Spread;
    chains := seq(2 * length, _ => []);
    NothingMoved(newBuckets[..], fcn, length, items, ideal);
  }

  /** The outer loop's turn for one old bucket; later buckets keep their chains. */
  method MoveBucket(bucket: Slot, newBuckets: array<Slot>, ideal: nat, nonideal0: nat, fcn: Key -> nat, ghost log2: nat,
                    ghost before: seq<seq<Item>>, ghost i: nat, ghost chains0: seq<seq<Item>>, ghost items: set<Item>)
    returns (nonideal: nat, ghost chains: seq<seq<Item>>)
    requires Partition(before, fcn, items) && i < |before| && newBuckets.Length == Pow2(log2)
    requires Spread(newBuckets[..], chains0, Below(items, fcn, |before|, i), fcn, ideal, nonideal0)
    requires bucket.head == HeadOf(before[i]) && Distinct(before[i])
    requires forall b {:trigger before[b]} :: i <= b < |before| ==> Forward(before[b])
    requires forall x :: x in items ==> x.hashv == fcn(x.key)
    modifies newBuckets, items`hhNext, items`hhPrev
    ensures Spread(newBuckets[..], chains, Below(items, fcn, |before|, i + 1), fcn, ideal, nonideal) && |chains| == |chains0|
    ensures forall b {:trigger before[b]} :: i < b < |before| ==> Forward(before[b])
    ensures Sum(newBuckets[..], Count) == old(Sum(newBuckets[..], Count)) + |before[i]|
  {
    BelowNext(before, fcn, items, i);
    hide Spread, Pow2, Sum, Partition, Below;
    assert Forward(before[i]);
    nonideal, chains := MoveChain(bucket.head, newBuckets, ideal, nonideal0, fcn, log2, before[i], chains0, Below(items, fcn, |before|, i));
    forall b {:trigger before[b]} | i < b < |before| ensures Forward(before[b]) {
      assert old(Forward(before[b]));
    }
  }

  lemma OldChains(bs: seq<Slot>, chains: seq<seq<Item>>, items: set<Item>)
    requires Linked(bs, chains, items) && Counted(bs, chains)
    ensures |bs| == |chains| && Sum(bs[..0], Count) == 0
    ensures forall b {:trigger chains[b]} :: 0 <= b < |chains| ==> bs[b].count == |chains[b]| && bs[b].head == HeadOf(chains[b])
    ensures forall b {:trigger chains[b]} :: 0 <= b < |chains| ==> Distinct(chains[b]) && Forward(chains[b])
  {
    LinkedItems(bs, chains, items);
  }

  /** All handles move to twice as many buckets; the ideal length is the ceiling, and nonideal counts the excess. */
  method ExpandBuckets(buckets: array<Slot>, log2: nat, numItems: nat, fcn: Key -> nat, ghost chains0: seq<seq<Item>>, ghost items: set<Item>)
    returns (newBuckets: array<Slot>, ideal: nat, nonideal: nat, ghost chains: seq<seq<Item>>)
    requires Partition(chains0, fcn, items) && Linked(buckets[..], chains0, items) && Counted(buckets[..], chains0)
    requires buckets.Length == Pow2(log2) && Sum(buckets[..], Count) == numItems > 0
    requires forall x :: x in items ==> x.hashv == fcn(x.key)
    modifies items`hhNext, items`hhPrev
    ensures fresh(newBuckets) && newBuckets.Length == 2 * buckets.Length == |chains|
    ensures Spread(newBuckets[..], chains, items, fcn, ideal, nonideal)
    ensures Sum(newBuckets[..], Count) == numItems && IsCeiling(ideal, numItems, newBuckets.Length)
  {
    hide *;
    ghost var bs, n := buckets[..], buckets.Length;
    nonideal := 0;
    OldChains(bs, chains0, items);
    newBuckets, ideal, chains := NewBuckets(buckets.Length, log2, numItems, fcn, items);
    var i := 0;
    while i < buckets.Length
      invariant 0 <= i <= n && buckets[..] == bs && |chains| == 2 * n
      invariant Spread(newBuckets[..], chains, Below(items, fcn, n, i), fcn, ideal, nonideal)
      invariant forall b {:trigger chains0[b]} :: i <= b < n ==> Forward(chains0[b])
      invariant Sum(newBuckets[..], Count) == Sum(bs[..i], Count)
    {
      PrefixSum(bs, i);
      nonideal, chains := MoveBucket(buckets[i], newBuckets, ideal, nonideal, fcn, log2 + 1, chains0, i, chains, items);
      i := i + 1;
    }
    assert bs[..i] == bs;
    AllBelow(chains0, fcn, items);
  }

  lemma AllBelow(chains: seq<seq<Item>>, fcn: Key -> nat, items: set<Item>)
    requires |chains| > 0
    ensures Below(items, fcn, |chains|, |chains|) == items
  {
  }
}
