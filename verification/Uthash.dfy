/**
  The hash table of LectureCode/Review/uthash.h: add, find, delete, replace and the integrity check.
*/
module Uthash {
  import opened Bits
  import opened BucketStats
  import opened HashLinks
  import opened HashExpand

  /** The buckets and chains of a table that holds these items. */
  ghost predicate Stored(t: Table, items: set<Item>)
    reads t`numBuckets, t`log2NumBuckets, t`buckets, t`chains, t.buckets, items`hashv, items`tbl, items`hhNext, items`hhPrev
  {
    && t.numBuckets == t.buckets.Length == |t.chains| == Pow2(t.log2NumBuckets)
    && Partition(t.chains, t.fcn, items) && Linked(t.buckets[..], t.chains, items) && Counted(t.buckets[..], t.chains)
    && forall x :: x in items ==> x.hashv == t.fcn(x.key) && x.tbl == t
  }

  /** And its chains are bounded for as long as it may expand. */
  ghost predicate Hashed(t: Table, items: set<Item>)
    reads t`numBuckets, t`log2NumBuckets, t`buckets, t`chains, t`noexpand, t.buckets, items`hashv, items`tbl, items`hhNext, items`hhPrev
  {
    Stored(t, items) && (t.noexpand != 1 ==> Bounded(t.buckets[..]))
  }

  /** What an expansion leaves behind: numbers, ideal chain length and items beyond it, all exact. */
  ghost predicate Doubled(t: Table, numBuckets: nat, ineff: nat, noexpand: nat)
    reads t, t.buckets
  {
    && t.numBuckets == 2 * numBuckets
    && 0 < t.idealChainMaxlen <= Capacity && IsCeiling(t.idealChainMaxlen, t.numItems, t.numBuckets)
    && (forall b :: b in t.buckets[..] ==> Redistributed(b, t.idealChainMaxlen))
    && t.nonidealItems == Sum(t.buckets[..], Beyond(t.idealChainMaxlen))
    && t.ineffExpands == (if 2 * t.nonidealItems > t.numItems then ineff + 1 else 0)
    && t.noexpand == if t.ineffExpands > 1 then 1 else noexpand
  }

  lemma SpreadBounds(bs: seq<Slot>, chains: seq<seq<Item>>, items: set<Item>, fcn: Key -> nat, ideal: nat, nonideal: nat, n: nat, m: nat)
    requires Spread(bs, chains, items, fcn, ideal, nonideal) && Sum(bs, Count) == n && |bs| == 2 * m && IsCeiling(ideal, n, |bs|)
    requires n <= 19 * m + 1 && m > 0
    ensures Bounded(bs) && 0 < ideal <= Capacity && Partition(chains, fcn, items) && Linked(bs, chains, items) && Counted(bs, chains)
    ensures (forall b :: b in bs ==> Redistributed(b, ideal)) && nonideal == Sum(bs, Beyond(ideal))
  {
    IdealWithinCapacity(n, m, ideal);
    ExpansionBounds(bs, ideal);
  }

  /** HASH_EXPAND_BUCKETS. */
  method ExpandTable(t: Table, ghost items: set<Item>)
    requires Stored(t, items) && t.numItems == Sum(t.buckets[..], Count) && 0 < t.numItems <= 19 * t.numBuckets + 1
    modifies t`buckets, t`numBuckets, t`log2NumBuckets, t`idealChainMaxlen, t`nonidealItems, t`ineffExpands, t`noexpand, t`chains
    modifies items`hhNext, items`hhPrev
    ensures Stored(t, items) && Bounded(t.buckets[..]) && fresh(t.buckets) && t.numItems == Sum(t.buckets[..], Count)
    ensures Doubled(t, old(t.numBuckets), old(t.ineffExpands), old(t.noexpand))
  {
    hide *;
    StoredParts(t, items);
    var newBuckets, ideal, nonideal; ghost var chains;
    newBuckets, ideal, nonideal, chains := ExpandBuckets(t.buckets, t.log2NumBuckets, t.numItems, t.fcn, t.chains, items);
    SpreadBounds(newBuckets[..], chains, items, t.fcn, ideal, nonideal, t.numItems, t.numBuckets);
    TakeBuckets(t, newBuckets, ideal, nonideal, chains, items);
  }

  lemma StoredParts(t: Table, items: set<Item>)
    requires Stored(t, items)
    ensures t.numBuckets == t.buckets.Length == |t.chains| == Pow2(t.log2NumBuckets) > 0
    ensures Partition(t.chains, t.fcn, items) && Linked(t.buckets[..], t.chains, items) && Counted(t.buckets[..], t.chains)
    ensures forall x :: x in items ==> x.hashv == t.fcn(x.key) && x.tbl == t
  {
  }

  /** The end of HASH_EXPAND_BUCKETS: the table's own numbers. */
  method TakeBuckets(t: Table, newBuckets: array<Slot>, ideal: nat, nonideal: nat, ghost chains: seq<seq<Item>>, ghost items: set<Item>)
    requires t.numBuckets == Pow2(t.log2NumBuckets) && newBuckets.Length == |chains| == 2 * t.numBuckets
    requires Partition(chains, t.fcn, items) && Linked(newBuckets[..], chains, items) && Counted(newBuckets[..], chains)
    requires forall x :: x in items ==> x.hashv == t.fcn(x.key) && x.tbl == t
    requires 0 < ideal <= Capacity && IsCeiling(ideal, t.numItems, newBuckets.Length)
    requires (forall b :: b in newBuckets[..] ==> Redistributed(b, ideal)) && nonideal == Sum(newBuckets[..], Beyond(ideal))
    modifies t`buckets, t`numBuckets, t`log2NumBuckets, t`idealChainMaxlen, t`nonidealItems, t`ineffExpands, t`noexpand, t`chains
    ensures Stored(t, items) && t.buckets == newBuckets && newBuckets[..] == old(newBuckets[..])
    ensures Doubled(t, old(t.numBuckets), old(t.ineffExpands), old(t.noexpand))
  {
    hide Partition, Linked, Counted, Sum, Beyond, IsCeiling, Redistributed;
    t.idealChainMaxlen, t.nonidealItems, t.chains := ideal, nonideal, chains;
    t.numBuckets := 2 * t.numBuckets;
    t.log2NumBuckets := t.log2NumBuckets + 1;
    t.buckets := newBuckets;
    t.ineffExpands := if t.nonidealItems > t.numItems / 2 then t.ineffExpands + 1 else 0;
    if t.ineffExpands > 1 {
      t.noexpand := 1;
    }
  }

  /** The table with x linked into its bucket, before the question of expanding. */
  method LinkIntoBkt(t: Table, b: nat, x: Item, ghost items: set<Item>)
    requires Stored(t, items) && x !in items && x.tbl == t && x.hashv == t.fcn(x.key) && b == x.hashv % |t.chains|
    modifies t`chains, t.buckets, x`hhNext, x`hhPrev, items`hhPrev
    ensures Stored(t, items + {x})
    ensures var bs := old(t.buckets[..]); t.buckets[..] == bs[b := Bucket(x, bs[b].count + 1, bs[b].expandMult)]
  {
    hide *;
    ghost var bs, chains := t.buckets[..], t.chains;
    StoredParts(t, items);
    HomeIs(t.fcn, x, |chains|);
    HomeChain(chains, t.fcn, items, x);
    OneBucket(bs, chains, items, b);
    LinkedItems(bs, chains, items);
    PartitionAdd(chains, t.fcn, items, x);
    t.buckets[b] := Bucket(t.buckets[b].head, t.buckets[b].count + 1, t.buckets[b].expandMult);
    PushInto(t.buckets, b, x, chains);
    t.chains := chains[b := [x] + chains[b]];
    ghost var bs' := t.buckets[..];
    assert bs' == bs[b := Bucket(x, bs[b].count + 1, bs[b].expandMult)];
    LinkedAdd(bs', chains, items, b, x);
    CountedAdd(bs, bs', chains, b, x);
    NowStored(t, items + {x});
  }

  lemma HomeIs(fcn: Key -> nat, x: Item, n: nat)
    requires n > 0
    ensures Home(fcn, x, n) == fcn(x.key) % n
  {
  }

  lemma NowStored(t: Table, items: set<Item>)
    requires t.numBuckets == t.buckets.Length == |t.chains| == Pow2(t.log2NumBuckets)
    requires Partition(t.chains, t.fcn, items) && Linked(t.buckets[..], t.chains, items) && Counted(t.buckets[..], t.chains)
    requires forall x :: x in items ==> x.hashv == t.fcn(x.key) && x.tbl == t
    ensures Stored(t, items)
  {
  }

  /** When HASH_ADD_TO_BKT expands. */
  predicate Full(b: Slot, noexpand: nat) {
    b.count >= (b.expandMult + 1) * Capacity && noexpand != 1
  }

  lemma FullNumbers(bs: seq<Slot>, b: nat, x: Item, n: nat)
    requires b < |bs| && n == Sum(bs, Count) + 1
    ensures var m := Bucket(x, bs[b].count + 1, bs[b].expandMult);
      Sum(bs[b := m], Count) == n > 0 && (Bounded(bs) ==> n <= 19 * |bs| + 1 && (!Full(m, 0) ==> Bounded(bs[b := m])))
  {
    var m := Bucket(x, bs[b].count + 1, bs[b].expandMult);
    SumUpdate(bs, b, m, Count);
    SumBound(bs, -1, Count, Count, 0, 0);
    if Bounded(bs) {
      BelowTwenty(bs);
      if !Full(m, 0) {
        BoundsKept(bs, b, m);
      }
    }
  }

  lemma Lengths(t: Table, items: set<Item>)
    requires Stored(t, items)
    ensures t.numBuckets == t.buckets.Length == |t.chains| > 0
  {
  }

  /** HASH_ADD_TO_BKT. */
  method AddToBkt(t: Table, b: nat, x: Item, ghost items: set<Item>)
    requires Hashed(t, items) && x !in items && x.tbl == t && x.hashv == t.fcn(x.key) && b == x.hashv % |t.chains|
    requires t.numItems == Sum(t.buckets[..], Count) + 1
    modifies t`buckets, t`numBuckets, t`log2NumBuckets, t`idealChainMaxlen, t`nonidealItems, t`ineffExpands, t`noexpand, t`chains
    modifies t.buckets, x`hhNext, x`hhPrev, items`hhNext, items`hhPrev
    ensures Hashed(t, items + {x}) && t.numItems == Sum(t.buckets[..], Count) && (t.buckets == old(t.buckets) || fresh(t.buckets))
    ensures var bs := old(t.buckets[..]); var m := Bucket(x, bs[b].count + 1, bs[b].expandMult);
      if Full(m, old(t.noexpand)) then Doubled(t, old(t.numBuckets), old(t.ineffExpands), old(t.noexpand)) else Kept(t, bs[b := m], old(t.numBuckets))
    ensures t.numBuckets == if old(t.noexpand) != 1 && old(t.buckets[b].count) + 1 >= 10 * (old(t.buckets[b].expandMult) + 1)
                            then 2 * old(t.numBuckets) else old(t.numBuckets)
  {
    hide Stored, Sum, Bounded, Pow2, IsCeiling, Redistributed, Beyond;
    ghost var bs := t.buckets[..];
    Lengths(t, items);
    FullNumbers(bs, b, x, t.numItems);
    LinkIntoBkt(t, b, x, items);
    Lengths(t, items + {x});
    if t.buckets[b].count >= (t.buckets[b].expandMult + 1) * Capacity && t.noexpand != 1 {
      ExpandTable(t, items + {x});
    }
  }

  /** One more item in the bucket of this hash value fills it up. */
  ghost predicate Crowded(t: Table, hashv: nat)
    reads t`noexpand, t`numBuckets, t`buckets, t.buckets
    requires 0 < t.numBuckets == t.buckets.Length
  {
    var b := t.buckets[hashv % t.numBuckets];
    t.noexpand != 1 && b.count + 1 >= 10 * (b.expandMult + 1)
  }

  lemma CrowdedIs(t: Table, hashv: nat)
    requires 0 < t.numBuckets == t.buckets.Length
    ensures var b := t.buckets[hashv % t.numBuckets]; Crowded(t, hashv) <==> t.noexpand != 1 && b.count + 1 >= 10 * (b.expandMult + 1)
  {
  }

  ghost predicate Kept(t: Table, bs: seq<Slot>, numBuckets: nat)
    reads t, t.buckets
  {
    t.buckets[..] == bs && t.numBuckets == numBuckets
  }

  lemma ChainOf(t: Table, items: set<Item>, x: Item) returns (n: nat)
    requires Stored(t, items) && x in items
    ensures var c := t.chains[x.hashv % |t.chains|]; n < |c| && c[n] == x
  {
    n :| 0 <= n < |t.chains[x.hashv % |t.chains|]| && t.chains[x.hashv % |t.chains|][n] == x;
  }

  lemma LinkedRemove(bs: seq<Slot>, chains: seq<seq<Item>>, items: set<Item>, b: nat, c: seq<Item>)
    requires |bs| == |chains| && b < |bs| && bs[b].head == HeadOf(c) && Chain(c) && forall y :: y in c ==> y in items
    requires forall i {:trigger chains[i]} :: 0 <= i < |bs| && i != b ==> bs[i].head == HeadOf(chains[i]) && Chain(chains[i])
    requires forall i, k :: 0 <= i < |chains| && i != b && 0 <= k < |chains[i]| ==> chains[i][k] in items
    ensures Linked(bs, chains[b := c], items)
  {
  }

  lemma OthersElsewhere(chains: seq<seq<Item>>, fcn: Key -> nat, items: set<Item>, b: nat, x: Item)
    requires Partition(chains, fcn, items) && b < |chains| && x in chains[b]
    ensures forall c, y :: 0 <= c < |chains| && c != b && y in chains[c] ==> y !in chains[b]
    ensures forall c, k :: 0 <= c < |chains| && c != b && 0 <= k < |chains[c]| ==> chains[c][k] in items - {x}
  {
  }

  /** HASH_DEL_IN_BKT. */
  method DelInBkt(t: Table, b: nat, x: Item, ghost items: set<Item>)
    requires Hashed(t, items) && x in items && b == x.hashv % |t.chains|
    modifies t`chains, t.buckets, items`hhNext, items`hhPrev
    ensures Hashed(t, items - {x}) && Sum(t.buckets[..], Count) == old(Sum(t.buckets[..], Count)) - 1
  {
    hide *;
    ghost var bs, chains := t.buckets[..], t.chains;
    HashedIs(t, items);
    StoredParts(t, items);
    HomeIs(t.fcn, x, |chains|);
    ghost var n := ChainOf(t, items, x);
    OneBucket(bs, chains, items, b);
    LinkedItems(bs, chains, items);
    ChainDistinct(chains[b]);
    PartitionRemove(chains, t.fcn, items, x, n);
    OthersElsewhere(chains, t.fcn, items, b, x);
    CutMembers(chains[b], n);
    t.buckets[b] := Bucket(t.buckets[b].head, t.buckets[b].count - 1, t.buckets[b].expandMult);
    DropFrom(t.buckets, b, x, chains, n);
    ghost var c := Cut(chains[b], n);
    t.chains := chains[b := c];
    ghost var bs' := t.buckets[..];
    assert bs' == bs[b := Bucket(HeadOf(c), bs[b].count - 1, bs[b].expandMult)];
    LinkedRemove(bs', chains, items - {x}, b, c);
    CountedCut(bs, bs', chains, b, n);
    Fewer(bs, b, bs'[b]);
    NowStored(t, items - {x});
    HashedIs(t, items - {x});
  }

  lemma HashedIs(t: Table, items: set<Item>)
    ensures Hashed(t, items) <==> Stored(t, items) && (t.noexpand != 1 ==> Bounded(t.buckets[..]))
  {
  }

  lemma ChainDistinct(s: seq<Item>)
    requires Chain(s)
    ensures Distinct(s)
  {
  }

  lemma CountedCut(bs: seq<Slot>, bs': seq<Slot>, chains: seq<seq<Item>>, b: nat, n: nat)
    requires Counted(bs, chains) && b < |bs| == |bs'| && n < |chains[b]| && bs'[b].count == bs[b].count - 1
    requires forall c :: 0 <= c < |bs| && c != b ==> bs'[c].count == bs[c].count
    ensures Counted(bs', chains[b := Cut(chains[b], n)])
  {
  }

  lemma Fewer(bs: seq<Slot>, b: nat, m: Slot)
    requires b < |bs| && m.count == bs[b].count - 1 && m.expandMult == bs[b].expandMult
    ensures Sum(bs[b := m], Count) == Sum(bs, Count) - 1 && (Bounded(bs) ==> Bounded(bs[b := m]))
  {
    SumUpdate(bs, b, m, Count);
    if Bounded(bs) {
      BoundsKept(bs, b, m);
    }
  }

  /** HASH_FIND_IN_BKT. */
  method FindInBkt(bucket: Slot, key: Key, hashval: nat, ghost chain: seq<Item>) returns (out: Item?)
    requires bucket.head == HeadOf(chain) && Chain(chain) && forall x :: x in chain && x.key == key ==> x.hashv == hashval
    ensures out != null ==> out in chain && out.key == key
    ensures out == null ==> forall x :: x in chain ==> x.key != key
  {
    out := bucket.head;
    ghost var i := 0;
    while out != null
      invariant 0 <= i <= |chain| && out == At(chain, i)
      invariant forall k :: 0 <= k < i ==> chain[k].key != key
      decreases |chain| - i
    {
      if out.hashv == hashval && |out.key| == |key| && out.key == key {
        break;
      }
      out := out.hhNext;
      i := i + 1;
    }
  }

  lemma NewTable(t: Table)
    requires t.numBuckets == t.buckets.Length == 32 && t.log2NumBuckets == 5 && t.noexpand == 0
    requires t.chains == seq(32, _ => []) && forall b :: b in t.buckets[..] ==> b == Bucket(null, 0, 0)
    ensures Hashed(t, {}) && Sum(t.buckets[..], Count) == 0
  {
    var bs := t.buckets[..];
    SumOfEmpty(bs, Count);
    assert forall b :: 0 <= b < |bs| ==> bs[b] in bs;
    forall b | b in bs ensures 1 * Weight(b) <= 0 * Count(b) + 1 {
    }
    SumBound(bs, 1, Weight, Count, 0, 1);
    assert Pow2(5) == 32;
  }

  /** The table t holds the list s, threaded through the chains and through the insertion order. */
  ghost predicate Filled(t: Table, s: seq<Item>)
    reads t, t.buckets, s
  {
    && s != [] && AppList(s) && t.tail == s[|s| - 1] && Hashed(t, SetOf(s))
    && t.numItems == |s| == Sum(t.buckets[..], Count)
  }

  function BucketOf(hashv: nat, numBuckets: nat): nat
    requires numBuckets > 0
  {
    And(hashv, numBuckets - 1)
  }

  lemma BucketOfIsMod(t: Table, items: set<Item>, hashv: nat)
    requires Hashed(t, items)
    ensures t.numBuckets == |t.chains| == t.buckets.Length > 0 && BucketOf(hashv, t.numBuckets) == hashv % |t.chains|
  {
    MaskIsMod(hashv, t.log2NumBuckets);
  }

  /** The common end of HASH_ADD_KEYPTR_BYHASHVALUE: the count and the bucket. */
  method Insert(t: Table, add: Item, ghost s: seq<Item>)
    requires Hashed(t, SetOf(s)) && t.numItems == |s| == Sum(t.buckets[..], Count) && add !in s
    requires AppList(s + [add]) && t.tail == add && add.tbl == t && add.hashv == t.fcn(add.key)
    modifies t`numItems, t`buckets, t`numBuckets, t`log2NumBuckets, t`idealChainMaxlen, t`nonidealItems, t`ineffExpands, t`noexpand, t`chains
    modifies t.buckets, add`hhNext, add`hhPrev, SetOf(s)`hhNext, SetOf(s)`hhPrev
    ensures Filled(t, s + [add]) && (t.buckets == old(t.buckets) || fresh(t.buckets))
    ensures 0 < old(t.numBuckets) == old(t.buckets).Length
    ensures t.numBuckets == if old(Crowded(t, add.hashv)) then 2 * old(t.numBuckets) else old(t.numBuckets)
  {
    hide *;
    ghost var items := SetOf(s);
    BucketOfIsMod(t, items, add.hashv);
    CrowdedIs(t, add.hashv);
    SetOfMore(s, add);
    t.numItems := t.numItems + 1;
    AddToBkt(t, BucketOf(add.hashv, t.numBuckets), add, items);
    IsFilled(t, s + [add]);
  }

  lemma SetOfMore(s: seq<Item>, x: Item)
    ensures SetOf(s + [x]) == SetOf(s) + {x} && (x in SetOf(s) <==> x in s)
  {
  }

  lemma IsFilled(t: Table, s: seq<Item>)
    requires s != [] && AppList(s) && t.tail == s[|s| - 1] && Hashed(t, SetOf(s)) && t.numItems == |s| == Sum(t.buckets[..], Count)
    ensures Filled(t, s)
  {
  }

  /** The first item: HASH_MAKE_TABLE and the links. */
  method StartTable(fcn: Key -> nat, add: Item) returns (t: Table)
    modifies add
    ensures fresh(t) && fresh(t.buckets) && t.fcn == fcn && add.tbl == t && t.tail == add && AppList([add])
    ensures t.numBuckets == t.buckets.Length == 32 && forall h: nat :: !Crowded(t, h)
    ensures Hashed(t, {}) && t.numItems == 0 == Sum(t.buckets[..], Count) && add.hashv == old(add.hashv)
  {
    add.next, add.prev := null, null;
    t := new Table(fcn, add);
    add.tbl := t;
    hide Stored, Sum, Bounded;
    NewTable(t);
    forall h: nat ensures !Crowded(t, h) {
      assert t.buckets[h % 32] in t.buckets[..];
    }
  }

  /** The other case: the links at the end of the list. */
  method AppendTo(t: Table, add: Item, ghost s: seq<Item>)
    requires Filled(t, s) && add !in s
    modifies t`tail, add`tbl, add`prev, add`next, s`next
    ensures Hashed(t, SetOf(s)) && t.numItems == |s| == Sum(t.buckets[..], Count)
    ensures add.tbl == t && t.tail == add && AppList(s + [add])
  {
    hide Stored, AppList, Sum, Bounded;
    add.tbl := t;
    AppendItem(add, t.tail, s);
    t.tail := add;
  }

  method AddFirst(fcn: Key -> nat, add: Item) returns (t: Table)
    requires add.hashv == fcn(add.key)
    modifies add
    ensures fresh(t) && fresh(t.buckets) && t.fcn == fcn && Filled(t, [add]) && t.numBuckets == 32
  {
    hide *;
    t := StartTable(fcn, add);
    EmptySet();
    Insert(t, add, []);
  }

  lemma EmptySet()
    ensures SetOf([]) == {} && forall x: Item :: [] + [x] == [x]
  {
  }

  method AddNext(t: Table, add: Item, ghost s: seq<Item>)
    requires Filled(t, s) && add !in s && add.hashv == t.fcn(add.key)
    modifies t, t.buckets, add`tbl, add`prev, add`next, add`hhNext, add`hhPrev, s, SetOf(s)
    ensures Filled(t, s + [add]) && (t.buckets == old(t.buckets) || fresh(t.buckets))
    ensures 0 < old(t.numBuckets) == old(t.buckets).Length
    ensures t.numBuckets == if old(Crowded(t, add.hashv)) then 2 * old(t.numBuckets) else old(t.numBuckets)
  {
    hide *;
    AppendTo(t, add, s);
    Insert(t, add, s);
  }

  lemma TableOf(t: Table, s: seq<Item>)
    requires Filled(t, s)
    ensures forall x :: x in s ==> x.tbl == t && x.hashv == t.fcn(x.key)
    ensures s != [] && t.tail == s[|s| - 1]
  {
    assert forall x :: x in s ==> x in SetOf(s);
  }

  /** Below nine items no bucket is nearly full. */
  lemma FewAreNotCrowded(t: Table, s: seq<Item>, hashv: nat)
    requires Filled(t, s)
    ensures 0 < t.numBuckets == t.buckets.Length && (|s| < 9 ==> !Crowded(t, hashv))
  {
    hide AppList, Sum, Bounded;
    BucketOfIsMod(t, SetOf(s), hashv);
    PartBelowSum(t.buckets[..], hashv % t.numBuckets);
  }

  lemma {:induction false} PartBelowSum(bs: seq<Slot>, b: nat)
    requires b < |bs|
    ensures bs[b].count <= Sum(bs, Count)
  {
    SumUpdate(bs, b, Bucket(bs[b].head, 0, bs[b].expandMult), Count);
    SumBound(bs[b := Bucket(bs[b].head, 0, bs[b].expandMult)], -1, Count, Count, 0, 0);
  }

  method FindIn(t: Table, fcn: Key -> nat, key: Key, ghost s: seq<Item>) returns (out: Item?)
    requires Filled(t, s) && t.fcn == fcn
    ensures out != null ==> out in s && out.key == key
    ensures out == null ==> forall x :: x in s ==> x.key != key
  {
    var hashv := fcn(key);
    ghost var items := SetOf(s);
    BucketOfIsMod(t, items, hashv);
    var b := BucketOf(hashv, t.numBuckets);
    OneBucket(t.buckets[..], t.chains, items, b);
    out := FindInBkt(t.buckets[b], key, hashv, t.chains[b]);
    hide BucketOf, Sum, Bounded, Linked;
    if out == null {
      forall x | x in s ensures x.key != key {
        assert x in items && x in t.chains[Home(fcn, x, |t.chains|)];
      }
    }
  }

  lemma Ends(t: Table, s: seq<Item>, n: nat)
    requires Filled(t, s) && n < |s|
    ensures s[n].prev == null && s[n].next == null <==> |s| == 1
    ensures |s| == 1 ==> Cut(s, n) == []
  {
    assert s[n].prev == At(s, n - 1) && s[n].next == At(s, n + 1);
  }

  /** HASH_DELETE of an item that is not the only one. */
  method DeleteFrom(t: Table, head0: Item, del: Item, ghost s: seq<Item>, ghost n: nat) returns (head: Item?)
    requires Filled(t, s) && n < |s| && s[n] == del && head0 == s[0] && |s| > 1
    modifies t`tail, t`numItems, t`chains, t.buckets, s`next, s`prev, SetOf(s)`hhNext, SetOf(s)`hhPrev
    ensures Filled(t, Cut(s, n)) && head == HeadOf(Cut(s, n)) && head != null
  {
    hide Filled, Hashed, AppList, Sum, BucketOf, Cut, HeadOf, Count;
    ghost var items, c := SetOf(s), Cut(s, n);
    FilledParts(t, s);
    CutLast(s, n);
    SetOfCut(s, n);
    BucketOfIsMod(t, items, del.hashv);
    assert del == s[n];
    if del == t.tail {
      t.tail := del.prev;
    }
    head := UnlinkItem(head0, del, s, n);
    assert AppList(c);
    DelInBkt(t, BucketOf(del.hashv, t.numBuckets), del, items);
    assert AppList(c);
    t.numItems := t.numItems - 1;
    IsFilled(t, c);
  }

  lemma FilledParts(t: Table, s: seq<Item>)
    requires Filled(t, s)
    ensures s != [] && AppList(s) && t.tail == s[|s| - 1] && Hashed(t, SetOf(s)) && t.numItems == |s| == Sum(t.buckets[..], Count)
    ensures forall n {:trigger s[n]} :: 0 <= n < |s| ==> s[n].prev == At(s, n - 1) && (s[n] == t.tail <==> n == |s| - 1) && s[n] in SetOf(s)
  {
  }

  lemma CutLast(s: seq<Item>, n: nat)
    requires n < |s| && |s| > 1
    ensures HeadOf(Cut(s, n)) != null && (forall x :: x in Cut(s, n) ==> x in s)
    ensures |Cut(s, n)| == |s| - 1 && Cut(s, n) != []
    ensures Cut(s, n)[|s| - 2] == if n == |s| - 1 then s[n - 1] else s[|s| - 1]
  {
  }

  lemma SetOfCut(s: seq<Item>, n: nat)
    requires n < |s| && AppList(s)
    ensures SetOf(Cut(s, n)) == SetOf(s) - {s[n]}
  {
    CutMembers(s, n);
  }

  ghost predicate UniqueKeys(s: seq<Item>) {
    forall i, j :: 0 <= i < j < |s| ==> s[i].key != s[j].key
  }

  /** The items with other keys, in their order. */
  ghost function Others(s: seq<Item>, key: Key): seq<Item> {
    if s == [] then [] else Others(s[..|s| - 1], key) + if s[|s| - 1].key == key then [] else [s[|s| - 1]]
  }

  lemma {:induction false} OthersAll(s: seq<Item>, key: Key)
    requires forall i :: 0 <= i < |s| ==> s[i].key != key
    ensures Others(s, key) == s
  {
    if s != [] {
      OthersAll(s[..|s| - 1], key);
    }
  }

  lemma {:induction false} OthersCut(s: seq<Item>, n: nat)
    requires n < |s| && UniqueKeys(s)
    ensures Others(s, s[n].key) == Cut(s, n)
  {
    var m := |s| - 1;
    if n == m {
      OthersAll(s[..m], s[n].key);
    } else {
      OthersCut(s[..m], n);
      assert Cut(s[..m], n) + [s[m]] == Cut(s, n);
    }
  }

  lemma UniqueMore(s: seq<Item>, x: Item)
    requires UniqueKeys(s) && forall y :: y in s ==> y.key != x.key
    ensures UniqueKeys(s + [x])
  {
    var t := s + [x];
    assert forall i :: 0 <= i < |s| ==> t[i] == s[i] && s[i] in s;
    assert t[|s|] == x;
  }

  lemma UniqueInit(s: seq<Item>)
    requires s != [] && UniqueKeys(s)
    ensures var init := s[..|s| - 1]; UniqueKeys(init) && forall y :: y in s <==> y in init || y == s[|s| - 1]
    ensures forall y :: y in s[..|s| - 1] ==> y.key != s[|s| - 1].key
  {
    var init := s[..|s| - 1];
    assert s == init + [s[|s| - 1]];
    assert forall i :: 0 <= i < |init| ==> init[i] == s[i];
  }

  lemma {:induction false} OthersKeys(s: seq<Item>, key: Key)
    requires UniqueKeys(s)
    ensures UniqueKeys(Others(s, key))
    ensures forall x :: x in Others(s, key) ==> x in s && x.key != key
    ensures forall x :: x in s && x.key != key ==> x in Others(s, key)
  {
    if s != [] {
      var init, x := s[..|s| - 1], s[|s| - 1];
      UniqueInit(s);
      OthersKeys(init, key);
      hide UniqueKeys;
      if x.key != key {
        UniqueMore(Others(init, key), x);
      }
      assert Others(s, key) == Others(init, key) + if x.key == key then [] else [x];
    }
  }

  lemma OthersMore(s: seq<Item>, x: Item)
    requires UniqueKeys(s)
    ensures forall y :: y in Others(s, x.key) ==> y in s
    ensures x !in Others(s, x.key) && UniqueKeys(Others(s, x.key) + [x])
  {
    OthersKeys(s, x.key);
    UniqueMore(Others(s, x.key), x);
  }

  // ------------------------------------------------------------ the integrity check

  /** The links back along a chain, and along the insertion order. */
  ghost predicate BackInChain(chain: seq<Item>)
    reads chain`hhPrev
  {
    forall i {:trigger chain[i].hhPrev} :: 0 <= i < |chain| ==> chain[i].hhPrev == At(chain, i - 1)
  }

  ghost predicate BackInList(s: seq<Item>)
    reads s`prev
  {
    forall i {:trigger s[i].prev} :: 0 <= i < |s| ==> s[i].prev == At(s, i - 1)
  }

  ghost predicate ForwardInList(s: seq<Item>)
    reads s`next
  {
    forall i {:trigger s[i].next} :: 0 <= i < |s| ==> s[i].next == At(s, i + 1)
  }

  ghost function ChainLengths(chains: seq<seq<Item>>): nat {
    if chains == [] then 0 else ChainLengths(chains[..|chains| - 1]) + |chains[|chains| - 1]|
  }

  /** HASH_FSCK's walk along a chain: the length, and whether every hh_prev link leads back. */
  method WalkChain(head: Item?, ghost chain: seq<Item>) returns (count: nat, good: bool)
    requires head == HeadOf(chain) && Forward(chain)
    ensures count == |chain| && (good <==> BackInChain(chain))
  {
    count, good := 0, true;
    var thh: Item?, prev: Item? := head, null;
    while thh != null
      invariant 0 <= count <= |chain| && thh == At(chain, count) && prev == At(chain, count - 1)
      invariant good <==> forall i {:trigger chain[i].hhPrev} :: 0 <= i < count ==> chain[i].hhPrev == At(chain, i - 1)
      decreases |chain| - count
    {
      assert thh == chain[count];
      if prev != thh.hhPrev {
        good := false;
      }
      count := count + 1;
      prev, thh := thh, thh.hhNext;
    }
  }

  /** Its walk in insertion order. */
  method WalkList(head: Item, ghost s: seq<Item>) returns (count: nat, good: bool)
    requires s != [] && head == s[0] && ForwardInList(s)
    ensures count == |s| && (good <==> BackInList(s))
  {
    count, good := 0, true;
    var thh: Item?, prev: Item? := head, null;
    while thh != null
      invariant 0 <= count <= |s| && thh == At(s, count) && prev == At(s, count - 1)
      invariant good <==> forall i {:trigger s[i].prev} :: 0 <= i < count ==> s[i].prev == At(s, i - 1)
      decreases |s| - count
    {
      assert thh == s[count];
      count := count + 1;
      if prev != thh.prev {
        good := false;
      }
      prev, thh := thh, thh.next;
    }
  }

  /** The forward links make these chains of the buckets. */
  ghost predicate Reaches(t: Table, chains: seq<seq<Item>>)
    reads t`numBuckets, t`buckets, t.buckets, set b, i | 0 <= b < |chains| && 0 <= i < |chains[b]| :: chains[b][i]
  {
    && t.numBuckets == t.buckets.Length == |chains|
    && forall b {:trigger chains[b]} :: 0 <= b < |chains| ==> t.buckets[b].head == HeadOf(chains[b]) && Forward(chains[b])
  }

  /** Bucket b has its links back and its count right. */
  ghost predicate BucketRight(t: Table, chains: seq<seq<Item>>, b: nat)
    requires b < |chains| == t.buckets.Length
    reads t`buckets, t.buckets, chains[b]`hhPrev
  {
    BackInChain(chains[b]) && t.buckets[b].count == |chains[b]|
  }

  lemma BucketIsRight(t: Table, chains: seq<seq<Item>>, b: nat)
    requires b < |chains| == t.buckets.Length
    ensures BucketRight(t, chains, b) <==> BackInChain(chains[b]) && t.buckets[b].count == |chains[b]|
  {
  }

  ghost predicate BucketsRight(t: Table, chains: seq<seq<Item>>, n: nat)
    requires n <= |chains| == t.buckets.Length
    reads t`buckets, t.buckets, set b, i | 0 <= b < |chains| && 0 <= i < |chains[b]| :: chains[b][i]
  {
    forall b :: 0 <= b < n ==> BucketRight(t, chains, b)
  }

  /** Its loop over the buckets. */
  method WalkBuckets(t: Table, ghost chains: seq<seq<Item>>) returns (count: nat, good: bool)
    requires Reaches(t, chains)
    ensures count == ChainLengths(chains) && (good <==> BucketsRight(t, chains, |chains|))
  {
    hide BucketRight, BackInChain;
    count, good := 0, true;
    var i := 0;
    ghost var wrong := 0;
    assert chains[..0] == [];
    while i < t.numBuckets
      invariant 0 <= i <= |chains| && count == ChainLengths(chains[..i])
      invariant good ==> BucketsRight(t, chains, i)
      invariant !good ==> wrong < i && !BucketRight(t, chains, wrong)
    {
      var n, ok := WalkChain(t.buckets[i].head, chains[i]);
      BucketIsRight(t, chains, i);
      if !ok || t.buckets[i].count != n {
        good := false;
        wrong := i;
      }
      count := count + n;
      assert chains[..i + 1][..i] == chains[..i];
      i := i + 1;
    }
    assert chains[..i] == chains;
  }

  /**
    HASH_FSCK on any table whose forward links come to an end: it finds no fault exactly if all links lead back, every bucket knows
    the length of its chain, and both ways of walking meet as many items as the table has.
  */
  method Check(head: Item, t: Table, ghost chains: seq<seq<Item>>, ghost s: seq<Item>) returns (good: bool)
    requires Reaches(t, chains) && s != [] && head == s[0] && ForwardInList(s)
    ensures t.buckets.Length == |chains|
    ensures good <==> BucketsRight(t, chains, |chains|) && BackInList(s) && ChainLengths(chains) == t.numItems == |s|
  {
    hide ForwardInList, BackInList, BucketsRight, Forward;
    good := true;
    var count, ok := WalkBuckets(t, chains);
    if !ok || count != t.numItems {
      good := false;
    }
    count, ok := WalkList(head, s);
    if !ok || count != t.numItems {
      good := false;
    }
  }

  /** In a table as the macros build it, everything is right. */
  lemma NothingWrong(t: Table, s: seq<Item>)
    requires Filled(t, s)
    ensures Reaches(t, t.chains) && ForwardInList(s) && BackInList(s) && ChainLengths(t.chains) == t.numItems == |s|
    ensures |t.chains| == t.buckets.Length && BucketsRight(t, t.chains, |t.chains|)
  {
    FilledParts(t, s);
    HashedIs(t, SetOf(s));
    StoredParts(t, SetOf(s));
    LinkedItems(t.buckets[..], t.chains, SetOf(s));
    LengthsAreCounts(t.buckets[..], t.chains);
    assert forall b :: 0 <= b < |t.chains| ==> t.buckets[..][b] == t.buckets[b] && Chain(t.chains[b]);
  }

  lemma {:induction false} LengthsAreCounts(bs: seq<Slot>, chains: seq<seq<Item>>)
    requires Counted(bs, chains)
    ensures ChainLengths(chains) == Sum(bs, Count)
  {
    if chains != [] {
      LengthsAreCounts(bs[..|bs| - 1], chains[..|chains| - 1]);
    }
  }

  /** The table as one variable of the program, a pointer to the first item or null, and what it holds in insertion order. */
  class Hash {
    const fcn: Key -> nat
    var head: Item?
    ghost var table: Table?
    ghost var items: seq<Item>

    ghost predicate Valid()
      reads this, items, if table == null then {} else {table, table.buckets}
    {
      if head == null then table == null && items == []
      else table != null && items != [] && head == items[0] && table.fcn == fcn && Filled(table, items)
    }

    ghost function Parts(): set<object>
      reads this, table
    {
      if table == null then {} else {table as object, table.buckets as object}
    }

    constructor (fcn: Key -> nat)
      ensures Valid() && items == [] && table == null && this.fcn == fcn
    {
      this.fcn, head, table, items := fcn, null, null, [];
    }

    /** HASH_ADD_KEYPTR: a new item at the end of the list. */
    method Add(add: Item)
      requires Valid() && add !in items
      modifies this`head, this`table, this`items, add, items, Parts()
      ensures Valid() && items == old(items) + [add] && fresh(Parts() - old(Parts()))
      ensures old(head) == null ==> table.numBuckets == 32
      ensures old(head) != null ==> 0 < old(table.numBuckets) == old(table.buckets).Length
      ensures old(head) != null ==>
        table.numBuckets == if old(Crowded(table, fcn(add.key))) then 2 * old(table.numBuckets) else old(table.numBuckets)
      ensures old(head) != null && |items| < 10 ==> table.numBuckets == old(table.numBuckets)
    {
      hide Filled, Crowded;
      add.hashv := fcn(add.key);
      if head == null {
        var t := AddFirst(fcn, add);
        head, table, items := add, t, [add];
      } else {
        assert Filled(table, items) && add !in items;
        TableOf(table, items);
        FewAreNotCrowded(table, items, fcn(add.key));
        var t := head.tbl;
        AddNext(t, add, items);
        items := items + [add];
      }
    }

    /** HASH_FIND: some item with the key, if there is one. */
    method Find(key: Key) returns (out: Item?)
      requires Valid()
      ensures out != null ==> out in items && out.key == key
      ensures out == null ==> forall x :: x in items ==> x.key != key
    {
      out := null;
      if head != null {
        TableOf(table, items);
        out := FindIn(head.tbl, fcn, key, items);
      }
    }

    /** HASH_DELETE: everything else stays, in its order. */
    method Delete(del: Item, ghost n: nat)
      requires Valid() && n < |items| && items[n] == del
      modifies this`head, this`table, this`items, items, Parts()
      ensures Valid() && items == Cut(old(items), n) && Parts() <= old(Parts())
    {
      hide Filled;
      TableOf(table, items);
      Ends(table, items, n);
      if del.prev == null && del.next == null {
        head, table, items := null, null, [];
      } else {
        var t := head.tbl;
        head := DeleteFrom(t, head, del, items, n);
        items := Cut(items, n);
      }
    }

    /** HASH_REPLACE: afterwards the key belongs to the new item, the last one. */
    method Replace(add: Item) returns (replaced: Item?)
      requires Valid() && UniqueKeys(items)
      modifies this`head, this`table, this`items, add, items, Parts()
      ensures Valid() && UniqueKeys(items) && fresh(Parts() - old(Parts()))
      ensures if replaced == null then forall x :: x in old(items) ==> x.key != add.key
              else replaced in old(items) && replaced.key == add.key
      ensures items == Others(old(items), add.key) + [add]
    {
      hide Filled, Others, UniqueKeys, Cut, Valid;
      replaced := Find(add.key);
      ghost var s := items;
      if replaced != null {
        ghost var n :| 0 <= n < |items| && items[n] == replaced;
        OthersCut(items, n);
        Delete(replaced, n);
      } else {
        OthersAll(items, add.key);
      }
      OthersMore(s, add);
      assert items == Others(s, add.key) && Parts() <= old(Parts());
      assert forall i :: 0 <= i < |items| ==> items[i] in items && items[i] in s;
      Add(add);
    }

    /** HASH_COUNT. */
    method Count() returns (n: nat)
      requires Valid()
      ensures n == |items|
    {
      n := if head != null then head.tbl.numItems else 0;
    }

    /** HASH_FSCK never finds a fault. */
    method Fsck() returns (good: bool)
      requires Valid()
      ensures good
    {
      good := true;
      if head != null {
        TableOf(table, items);
        NothingWrong(table, items);
        hide Filled, Reaches, BucketsRight, ForwardInList, BackInList;
        good := Check(head, head.tbl, table.chains, items);
      }
    }

    /** As long as expansion is not inhibited, chains stay bounded and the buckets hold less than twenty items on average. */
    lemma StaysBounded()
      requires Valid() && head != null && table.noexpand != 1
      ensures |items| <= 19 * table.numBuckets
      ensures forall b {:trigger table.chains[b]} :: 0 <= b < |table.chains| ==> |table.chains[b]| <= Capacity * (table.buckets[b].expandMult + 1)
    {
      var bs := table.buckets[..];
      BelowTwenty(bs);
      forall b {:trigger table.chains[b]} | 0 <= b < |table.chains| ensures |table.chains[b]| <= Capacity * (bs[b].expandMult + 1) {
        assert bs[b] in bs;
        assert Fits(bs[b]) && bs[b].count == |table.chains[b]|;
      }
    }
  }
}
