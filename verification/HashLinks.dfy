/**
  The links of the hash table of LectureCode/Review/uthash.h: each item is threaded through the list in
  insertion order and through the chain of its bucket.
*/
module HashLinks {
  import opened BucketStats

  type Key = seq<char>

  type Slot = Bucket<Item?>

  /** UT_hash_table; the hash function, a macro in the source, is any function. */
  class Table {
    const fcn: Key -> nat
    var buckets: array<Slot>
    var numBuckets: nat
    var log2NumBuckets: nat
    var numItems: nat
    var tail: Item?
    var idealChainMaxlen: nat
    var nonidealItems: nat
    var ineffExpands: nat
    var noexpand: nat
    ghost var chains: seq<seq<Item>>

    /** HASH_MAKE_TABLE. */
    constructor (fcn: Key -> nat, tail: Item)
      ensures this.fcn == fcn && this.tail == tail && fresh(buckets)
      ensures numBuckets == buckets.Length == 32 && log2NumBuckets == 5 && numItems == 0
      ensures idealChainMaxlen == nonidealItems == ineffExpands == noexpand == 0
      ensures chains == seq(32, _ => []) && forall b :: b in buckets[..] ==> b == Bucket(null, 0, 0)
    {
      this.fcn, this.tail := fcn, tail;
      buckets := new Slot[32](_ => Bucket(null, 0, 0));
      numBuckets, log2NumBuckets, numItems := 32, 5, 0;
      idealChainMaxlen, nonidealItems, ineffExpands, noexpand := 0, 0, 0, 0;
      chains := seq(32, _ => []);
    }
  }

  /** A structure with its hash handle. */
  class Item {
    const key: Key
    var hashv: nat
    var tbl: Table?
    var prev: Item?
    var next: Item?
    var hhPrev: Item?
    var hhNext: Item?

    constructor (key: Key)
      ensures this.key == key
    {
      this.key := key;
    }
  }

  function HeadOf(s: seq<Item>): Item? {
    if s == [] then null else s[0]
  }

  ghost predicate Distinct(s: seq<Item>) {
    forall i, j :: 0 <= i < j < |s| ==> s[i] != s[j]
  }

  function At(s: seq<Item>, i: int): Item? {
    if 0 <= i < |s| then s[i] else null
  }

  function Cut(s: seq<Item>, n: nat): seq<Item>
    requires n < |s|
  {
    s[..n] + s[n + 1..]
  }

  /** The list in insertion order. */
  ghost predicate AppList(s: seq<Item>)
    reads s`next, s`prev
  {
    && Distinct(s)
    && (forall i {:trigger s[i].next} :: 0 <= i < |s| ==> s[i].next == At(s, i + 1))
    && (forall i {:trigger s[i].prev} :: 0 <= i < |s| ==> s[i].prev == At(s, i - 1))
  }

  ghost predicate Forward(s: seq<Item>)
    reads s`hhNext
  {
    forall i {:trigger s[i].hhNext} :: 0 <= i < |s| ==> s[i].hhNext == At(s, i + 1)
  }

  /** The chain of a bucket. */
  ghost predicate Chain(s: seq<Item>)
    reads s`hhNext, s`hhPrev
  {
    Distinct(s) && Forward(s) && forall i {:trigger s[i].hhPrev} :: 0 <= i < |s| ==> s[i].hhPrev == At(s, i - 1)
  }

  /** The bucket with this index is where hash values h with h % n == b belong. */
  function Home(fcn: Key -> nat, x: Item, n: nat): nat
    requires n > 0
  {
    fcn(x.key) % n
  }

  /** The chains hold exactly the given items, each in the chain of its hash value. */
  ghost predicate Partition(chains: seq<seq<Item>>, fcn: Key -> nat, items: set<Item>) {
    && |chains| > 0
    && (forall b, i :: 0 <= b < |chains| && 0 <= i < |chains[b]| ==> chains[b][i] in items && Home(fcn, chains[b][i], |chains|) == b)
    && (forall x :: x in items ==> x in chains[Home(fcn, x, |chains|)])
  }

  /** Each bucket leads to its chain. */
  ghost predicate Linked(bs: seq<Slot>, chains: seq<seq<Item>>, items: set<Item>)
    reads items`hhNext, items`hhPrev
  {
    && |bs| == |chains|
    && (forall b, i :: 0 <= b < |chains| && 0 <= i < |chains[b]| ==> chains[b][i] in items)
    && forall b {:trigger chains[b]} :: 0 <= b < |chains| ==> bs[b].head == HeadOf(chains[b]) && Chain(chains[b])
  }

  /** Each bucket knows the length of its chain. */
  ghost predicate Counted(bs: seq<Slot>, chains: seq<seq<Item>>) {
    |bs| == |chains| && forall b {:trigger chains[b]} :: 0 <= b < |chains| ==> bs[b].count == |chains[b]|
  }

  lemma PartitionAdd(chains: seq<seq<Item>>, fcn: Key -> nat, items: set<Item>, x: Item)
    requires Partition(chains, fcn, items)
    ensures var b := Home(fcn, x, |chains|); Partition(chains[b := [x] + chains[b]], fcn, items + {x})
  {
    var b := Home(fcn, x, |chains|);
    var chains' := chains[b := [x] + chains[b]];
    assert forall i :: 0 <= i < |chains'[b]| ==> chains'[b][i] == if i == 0 then x else chains[b][i - 1];
    forall y | y in items + {x} ensures y in chains'[Home(fcn, y, |chains'|)] {
      var c := Home(fcn, y, |chains|);
      if y == x {
        assert chains'[b][0] == x;
      } else {
        var i :| 0 <= i < |chains[c]| && chains[c][i] == y;
        assert y == if c == b then chains'[c][i + 1] else chains'[c][i];
      }
    }
  }

  lemma CutMembers(s: seq<Item>, n: nat)
    requires n < |s| && Distinct(s)
    ensures Distinct(Cut(s, n)) && forall y :: y in s && y != s[n] ==> y in Cut(s, n)
    ensures forall y :: y in Cut(s, n) ==> y in s && y != s[n]
  {
    var c := Cut(s, n);
    assert forall i :: 0 <= i < |c| ==> c[i] == s[if i < n then i else i + 1];
    forall y | y in s && y != s[n] ensures y in c {
      var i :| 0 <= i < |s| && s[i] == y;
      assert c[if i < n then i else i - 1] == y;
    }
  }

  lemma PartitionRemove(chains: seq<seq<Item>>, fcn: Key -> nat, items: set<Item>, x: Item, n: nat)
    requires Partition(chains, fcn, items)
    requires var c := chains[Home(fcn, x, |chains|)]; Distinct(c) && n < |c| && c[n] == x
    ensures var b := Home(fcn, x, |chains|); Partition(chains[b := Cut(chains[b], n)], fcn, items - {x})
  {
    var b := Home(fcn, x, |chains|);
    var chains' := chains[b := Cut(chains[b], n)];
    CutMembers(chains[b], n);
    forall c, i | 0 <= c < |chains'| && 0 <= i < |chains'[c]|
      ensures chains'[c][i] in items - {x} && Home(fcn, chains'[c][i], |chains'|) == c
    {
      assert chains'[c][i] in chains'[c];
      assert chains'[c][i] in chains[c];
    }
    forall y | y in items - {x} ensures y in chains'[Home(fcn, y, |chains'|)] {
      assert y in chains[Home(fcn, y, |chains|)];
    }
  }

  /** Linking a handle in front of a chain: the end of HASH_ADD_TO_BKT and of the loop in HASH_EXPAND_BUCKETS. */
  method PushHandle(buckets: array<Slot>, b: nat, x: Item, ghost chain: seq<Item>)
    requires b < buckets.Length && buckets[b].head == HeadOf(chain) && Chain(chain) && x !in chain
    modifies buckets, x`hhNext, x`hhPrev, chain`hhPrev
    ensures Chain([x] + chain) && buckets[..] == old(buckets[..])[b := old(buckets[b]).(head := x)]
  {
    x.hhNext := buckets[b].head;
    x.hhPrev := null;
    var h := buckets[b].head;
    if h != null {
      h.hhPrev := x;
    }
    buckets[b] := buckets[b].(head := x);
    ghost var c := [x] + chain;
    assert forall i :: 0 < i < |c| ==> c[i] == chain[i - 1];
    forall i {:trigger c[i].hhNext} | 0 <= i < |c| ensures c[i].hhNext == At(c, i + 1) {
      assert i > 0 ==> old(chain[i - 1].hhNext) == At(chain, i);
    }
    forall i {:trigger c[i].hhPrev} | 0 <= i < |c| ensures c[i].hhPrev == At(c, i - 1) {
      assert i > 0 ==> old(chain[i - 1].hhPrev) == At(chain, i - 2);
    }
  }

  /** HASH_DEL_IN_BKT, apart from the count; n is the handle's place in the chain. */
  method DropHandle(buckets: array<Slot>, b: nat, x: Item, ghost chain: seq<Item>, ghost n: nat)
    requires b < buckets.Length && buckets[b].head == HeadOf(chain) && Chain(chain) && n < |chain| && chain[n] == x
    modifies buckets, chain`hhNext, chain`hhPrev
    ensures Chain(Cut(chain, n)) && buckets[b].head == HeadOf(Cut(chain, n))
    ensures buckets[..] == old(buckets[..])[b := old(buckets[b]).(head := buckets[b].head)]
  {
    ghost var c := Cut(chain, n);
    CutMembers(chain, n);
    assert forall i :: 0 <= i < |c| ==> c[i] == chain[if i < n then i else i + 1];
    if buckets[b].head == x {
      buckets[b] := buckets[b].(head := x.hhNext);
    }
    if x.hhPrev != null {
      x.hhPrev.hhNext := x.hhNext;
    }
    if x.hhNext != null {
      x.hhNext.hhPrev := x.hhPrev;
    }
    forall i {:trigger c[i].hhNext} | 0 <= i < |c| ensures c[i].hhNext == At(c, i + 1) {
      ghost var o := if i < n then i else i + 1;
      assert old(chain[o].hhNext) == At(chain, o + 1);
    }
    forall i {:trigger c[i].hhPrev} | 0 <= i < |c| ensures c[i].hhPrev == At(c, i - 1) {
      ghost var o := if i < n then i else i + 1;
      assert old(chain[o].hhPrev) == At(chain, o - 1);
    }
  }

  /** The other chains do not notice. */
  method PushInto(buckets: array<Slot>, b: nat, x: Item, ghost chains: seq<seq<Item>>)
    requires b < buckets.Length == |chains|
    requires forall c {:trigger chains[c]} :: 0 <= c < |chains| ==> buckets[c].head == HeadOf(chains[c]) && Chain(chains[c]) && x !in chains[c]
    requires forall c, y :: 0 <= c < |chains| && c != b && y in chains[c] ==> y !in chains[b]
    modifies buckets, x`hhNext, x`hhPrev, chains[b]`hhPrev
    ensures Chain([x] + chains[b]) && buckets[..] == old(buckets[..])[b := old(buckets[b]).(head := x)]
    ensures forall c {:trigger chains[c]} :: 0 <= c < |chains| && c != b ==> buckets[c].head == HeadOf(chains[c]) && Chain(chains[c])
  {
    PushHandle(buckets, b, x, chains[b]);
    forall c {:trigger chains[c]} | 0 <= c < |chains| && c != b ensures Chain(chains[c]) {
      ghost var s := chains[c];
      assert old(Chain(s));
      forall i | 0 <= i < |s| ensures s[i].hhNext == old(s[i].hhNext) && s[i].hhPrev == old(s[i].hhPrev) {
        assert s[i] in chains[c] && s[i] !in chains[b];
      }
    }
  }

  method DropFrom(buckets: array<Slot>, b: nat, x: Item, ghost chains: seq<seq<Item>>, ghost n: nat)
    requires b < buckets.Length == |chains| && n < |chains[b]| && chains[b][n] == x
    requires forall c {:trigger chains[c]} :: 0 <= c < |chains| ==> buckets[c].head == HeadOf(chains[c]) && Chain(chains[c])
    requires forall c, y :: 0 <= c < |chains| && c != b && y in chains[c] ==> y !in chains[b]
    modifies buckets, chains[b]`hhNext, chains[b]`hhPrev
    ensures Chain(Cut(chains[b], n)) && buckets[..] == old(buckets[..])[b := old(buckets[b]).(head := HeadOf(Cut(chains[b], n)))]
    ensures forall c {:trigger chains[c]} :: 0 <= c < |chains| && c != b ==> buckets[c].head == HeadOf(chains[c]) && Chain(chains[c])
  {
    DropHandle(buckets, b, x, chains[b], n);
    forall c {:trigger chains[c]} | 0 <= c < |chains| && c != b ensures Chain(chains[c]) {
      ghost var s := chains[c];
      assert old(Chain(s));
      forall i | 0 <= i < |s| ensures s[i].hhNext == old(s[i].hhNext) && s[i].hhPrev == old(s[i].hhPrev) {
        assert s[i] in chains[c] && s[i] !in chains[b];
      }
    }
  }

  /** HASH_APPEND_LIST: the links of the new last item. */
  method AppendItem(x: Item, tail: Item, ghost s: seq<Item>)
    requires AppList(s) && s != [] && tail == s[|s| - 1] && x !in s
    modifies x`next, x`prev, tail`next
    ensures AppList(s + [x])
  {
    x.next := null;
    x.prev := tail;
    tail.next := x;
    ghost var c := s + [x];
    assert forall i :: 0 <= i < |s| ==> c[i] == s[i];
    forall i {:trigger c[i].next} | 0 <= i < |c| ensures c[i].next == At(c, i + 1) {
      assert i < |s| ==> old(s[i].next) == At(s, i + 1);
    }
    forall i {:trigger c[i].prev} | 0 <= i < |c| ensures c[i].prev == At(c, i - 1) {
      assert i < |s| ==> old(s[i].prev) == At(s, i - 1);
    }
  }

  /** Unlinking an item from the insertion-order list; the head changes if it is the first. */
  method UnlinkItem(head0: Item, x: Item, ghost s: seq<Item>, ghost n: nat) returns (head: Item?)
    requires AppList(s) && n < |s| && s[n] == x && head0 == s[0]
    modifies s`next, s`prev
    ensures AppList(Cut(s, n)) && head == HeadOf(Cut(s, n))
    ensures x.next == old(x.next) && x.prev == old(x.prev)
  {
    ghost var c := Cut(s, n);
    CutMembers(s, n);
    assert forall i :: 0 <= i < |c| ==> c[i] == s[if i < n then i else i + 1];
    head := head0;
    assert x.next == At(s, n + 1) && x.prev == At(s, n - 1);
    if x.prev != null {
      x.prev.next := x.next;
    } else {
      head := x.next;
    }
    if x.next != null {
      x.next.prev := x.prev;
    }
    forall i {:trigger c[i].next} | 0 <= i < |c| ensures c[i].next == At(c, i + 1) {
      ghost var o := if i < n then i else i + 1;
      assert old(s[o].next) == At(s, o + 1);
    }
    forall i {:trigger c[i].prev} | 0 <= i < |c| ensures c[i].prev == At(c, i - 1) {
      ghost var o := if i < n then i else i + 1;
      assert old(s[o].prev) == At(s, o - 1);
    }
  }
}
