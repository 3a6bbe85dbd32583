/**
  A Patricia trie with its head node as a map from keys to data
  (wolfbench/Benchmarks/patricia/patricia.c). The head holds the default entry: key 0, mask 0.
*/
module PatriciaMap {
  import opened Wrappers
  import opened PatriciaShape
  import opened PatriciaLinks

  /** The leaves below one link of the head are those of nodes with this first bit, and the head's own. */
  ghost predicate HalfOk(t: Shape, head: Node, first: bool, v: map<Node, Entry>) {
    && Good(t, map[head := 0]) && head in v && Leaf(head, v[head]) in Leaves(t)
    && Stored(t, v) && forall f :: f in Leaves(t) && f.node != head ==> f.entry.key[0] == first && f.entry.mask == Ones()
  }

  ghost predicate IsTrie(t: Shape, head: Node, v: map<Node, Entry>) {
    && t.Down? && t.node == head && t.bit == 0 && Disjoint(t)
    && HalfOk(t.left, head, false, v) && HalfOk(t.right, head, true, v)
    && v[head].key == Zeros() && v[head].mask == Zeros()
  }

  lemma TrieBits(t: Shape, head: Node, v: map<Node, Entry>)
    requires IsTrie(t, head, v)
    ensures Bits(t) && Tree(t)
  {
    GoodBits(t.left, map[head := 0]);
    GoodBits(t.right, map[head := 0]);
    GoodTree(t.left, map[head := 0]);
    GoodTree(t.right, map[head := 0]);
  }

  /** The data stored for a key. */
  function Get(t: Shape, head: Node, key: Key): Option<int>
    requires Bits(t)
  {
    var f := Find(t, key);
    if f.node != head && f.entry.key == key then Some(f.entry.data) else None
  }

  /** The trie holds this entry. */
  ghost predicate Has(t: Shape, head: Node, e: Entry) {
    exists f :: f in Leaves(t) && f.node != head && f.entry == e
  }

  /** Following the bits of a key finds exactly what is stored under it. */
  lemma GetMeans(t: Shape, head: Node, v: map<Node, Entry>, key: Key, d: int)
    requires IsTrie(t, head, v)
    ensures Bits(t) && (Get(t, head, key) == Some(d) <==> Has(t, head, Entry(key, Ones(), d)))
  {
    TrieBits(t, head, v);
    FindIn(t, key);
    if Has(t, head, Entry(key, Ones(), d)) {
      var f :| f in Leaves(t) && f.node != head && f.entry == Entry(key, Ones(), d);
      TrieFindOwn(t, head, v, f);
    }
  }

  lemma TrieFindOwn(t: Shape, head: Node, v: map<Node, Entry>, f: Leaf)
    requires IsTrie(t, head, v) && f in Leaves(t) && f.node != head
    ensures Bits(t) && Find(t, f.entry.key) == f
  {
    TrieBits(t, head, v);
    var side := Side(t, f.entry.key);
    assert f in Leaves(side);
    FindOwn(side, map[head := 0], f);
  }

  // ------------------------------------------------------------------ insert

  /** The first bit from 1 on in which the keys differ, as the scan of pat_insert finds it. */
  ghost predicate FirstDifference(a: Key, b: Key, d: nat) {
    1 <= d < 32 && Agree(a, b, d) && a[d] != b[d]
  }

  lemma SomeBitDiffers(a: Key, b: Key)
    ensures a == b || exists i :: 0 <= i < 32 && a[i] != b[i]
  {
    if forall i :: 0 <= i < 32 ==> a[i] == b[i] {
      assert a == b;
    }
  }

  /** Below the head only bits from 1 on are tested. */
  lemma {:induction false} SamePath(t: Shape, path: map<Node, nat>, a: Key, b: Key)
    requires Good(t, path) && Bits(t) && path != map[] && forall i :: 1 <= i < 32 ==> a[i] == b[i]
    ensures Find(t, a) == Find(t, b)
  {
    if t.Down? {
      var q :| q in path;
      assert path[q] < t.bit && path[t.node := t.bit] != map[];
      SamePath(Side(t, a), path[t.node := t.bit], a, b);
    }
  }

  /** The scan from bit 1 finds a difference exactly for the keys with some bit set after the first. */
  lemma Differs(t: Shape, head: Node, v: map<Node, Entry>, key: Key)
    requires IsTrie(t, head, v) && Bits(t) && key != Find(t, key).entry.key
    ensures (exists i :: 1 <= i < 32 && key[i] != Find(t, key).entry.key[i]) <==> (exists i :: 1 <= i < 32 && key[i])
  {
    var f := Find(t, key);
    FindIn(Side(t, key), key);
    if i :| 1 <= i < 32 && key[i] {
      if f.node == head {
        assert f.entry.key[i] == false;
      } else {
        assert f.entry.key[0] == key[0];
        SomeBitDiffers(key, f.entry.key);
      }
    } else {
      assert head in map[head := 0];
      SamePath(Side(t, key), map[head := 0], key, Zeros());
      FindOwn(Side(t, key), map[head := 0], Leaf(head, v[head]));
    }
  }

  lemma HalfInsert(t: Shape, head: Node, first: bool, v: map<Node, Entry>, f: Leaf, d: nat)
    requires HalfOk(t, head, first, v) && Bits(t) && DiffersAt(t, f.entry.key, d)
    requires f.node != head && f.node !in Downs(t) && f.entry.key[0] == first && f.entry.mask == Ones()
    requires forall g :: g in Leaves(t) ==> g.node != f.node
    ensures HalfOk(Insert(t, f, d), head, first, v[f.node := f.entry])
  {
    hide Good, Insert, Find, Downs, Leaves, Bits, Agree;
    InsertGood(t, map[head := 0], f, d);
    Inserted(t, f, d);
    hide DiffersAt;
    assert Leaf(head, v[f.node := f.entry][head]) == Leaf(head, v[head]);
  }

  lemma HalfOther(t: Shape, head: Node, first: bool, v: map<Node, Entry>, v': map<Node, Entry>)
    requires HalfOk(t, head, first, v) && forall f :: f in Leaves(t) ==> f.node in v' && v'[f.node] == v[f.node]
    ensures HalfOk(t, head, first, v')
  {
    assert Leaf(head, v[head]) in Leaves(t);
  }

  /** The leaves belong to the head and the nodes below. */
  lemma LeavesOf(t: Shape, head: Node, v: map<Node, Entry>, f: Leaf)
    requires IsTrie(t, head, v) && f in Leaves(t)
    ensures f.node in Downs(t)
  {
    Owners(t.left, map[head := 0]);
    Owners(t.right, map[head := 0]);
  }

  lemma TrieInsert(t: Shape, head: Node, v: map<Node, Entry>, f: Leaf, d: nat)
    requires IsTrie(t, head, v) && f.node !in Downs(t) && Bits(t) && FirstDifference(f.entry.key, Find(t, f.entry.key).entry.key, d)
    requires f.entry.mask == Ones()
    ensures IsTrie(Insert(t, f, d), head, v[f.node := f.entry]) && Bits(Insert(t, f, d))
  {
    var key, v' := f.entry.key, v[f.node := f.entry];
    forall g | g in Leaves(t) ensures g.node != f.node {
      LeavesOf(t, head, v, g);
    }
    Inserted(Side(t, key), f, d);
    assert Leaves(t) == Leaves(t.left) + Leaves(t.right) && Downs(t) == {head} + Downs(t.left) + Downs(t.right);
    hide HalfOk, Insert, Leaves, Downs, Agree;
    HalfInsert(Side(t, key), head, key[0], v, f, d);
    HalfStays(Far(t, key), head, !key[0], v, f);
    InsertTop(t, f, d);
  }

  lemma HalfStays(t: Shape, head: Node, first: bool, v: map<Node, Entry>, f: Leaf)
    requires HalfOk(t, head, first, v) && forall g :: g in Leaves(t) ==> g.node != f.node
    ensures HalfOk(t, head, first, v[f.node := f.entry])
  {
    HalfOther(t, head, first, v, v[f.node := f.entry]);
  }

  lemma InsertTop(t: Shape, f: Leaf, d: nat)
    requires t.Down? && t.bit == 0 && Bits(t) && 1 <= d < 32
    requires Disjoint(t) && f.node !in Downs(t)
    ensures Insert(t, f, d) == Rebuild(t, f.entry.key, Insert(Side(t, f.entry.key), f, d)) && Disjoint(Insert(t, f, d))
  {
    Inserted(Side(t, f.entry.key), f, d);
  }

  /** After an insertion the new key has its data and every other key what it had. */
  lemma GetInserted(t: Shape, head: Node, v: map<Node, Entry>, f: Leaf, d: nat, k: Key)
    requires IsTrie(t, head, v) && f.node != head && Bits(t) && d < 32 && f.entry.mask == Ones() && f.entry.key != Find(t, f.entry.key).entry.key
    requires IsTrie(Insert(t, f, d), head, v[f.node := f.entry]) && Bits(Insert(t, f, d))
    ensures Get(Insert(t, f, d), head, k) == if k == f.entry.key then Some(f.entry.data) else Get(t, head, k)
  {
    var r, v' := Insert(t, f, d), v[f.node := f.entry];
    Inserted(t, f, d);
    hide IsTrie, Insert;
    if k == f.entry.key {
      assert f in Leaves(r);
      GetMeans(r, head, v', k, f.entry.data);
    } else {
      FindIn(t, k);
      FindIn(r, k);
      SameGet(t, head, v, r, v', k);
    }
  }

  /** Two tries that hold the same entries for a key answer alike for it. */
  lemma SameGet(t: Shape, head: Node, v: map<Node, Entry>, r: Shape, v': map<Node, Entry>, k: Key)
    requires IsTrie(t, head, v) && IsTrie(r, head, v') && Bits(t) && Bits(r)
    requires forall e: Entry :: e.key == k ==> (Has(t, head, e) <==> Has(r, head, e))
    ensures Get(t, head, k) == Get(r, head, k)
  {
    hide IsTrie, Get, Has;
    if Get(t, head, k).Some? {
      var d := Get(t, head, k).value;
      GetMeans(t, head, v, k, d);
      GetMeans(r, head, v', k, d);
    }
    if Get(r, head, k).Some? {
      var d := Get(r, head, k).value;
      GetMeans(t, head, v, k, d);
      GetMeans(r, head, v', k, d);
    }
  }

  // ------------------------------------------------------------------ remove

  /** Below the head: what the removal of f, whose parent is p, leaves of one half. */
  lemma HalfRemove(t: Shape, head: Node, first: bool, v: map<Node, Entry>, key: Key)
    requires HalfOk(t, head, first, v) && Bits(t) && t.Down? && Find(t, key).node != head && head !in Downs(t)
    ensures var p, f := Parent(t, key), Find(t, key);
      && p in v && p in Downs(t) && f.node in v
      && Removed(t, Remove(t, key, v[p].key), map[head := 0], f, p, v)
      && HalfOk(Remove(t, key, v[p].key), head, first, v[f.node := v[p]])
  {
    RemoveGood(t, map[head := 0], key, v);
    FindIn(t, key);
    ParentIn(t, key);
    Owners(t, map[head := 0]);
    var p, f := Parent(t, key), Find(t, key);
    var r := Remove(t, key, v[p].key);
    var g :| g in Leaves(t) && g.node == p;
    hide Good, Remove, Find, Parent, Bits, Downs, Leaves;
    HalfLeaves(t, r, head, first, v, f, p);
  }

  lemma HalfLeaves(t: Shape, r: Shape, head: Node, first: bool, v: map<Node, Entry>, f: Leaf, p: Node)
    requires HalfOk(t, head, first, v) && f in Leaves(t) && p in v && Leaf(p, v[p]) in Leaves(t) && f.node != head && p != head
    requires Good(r, map[head := 0]) && Leaves(r) == LeavesAfter(t, f, p, v)
    ensures f.node in v && HalfOk(r, head, first, v[f.node := v[p]])
  {
    hide Good, Leaves;
    var v' := v[f.node := v[p]];
    assert Leaf(head, v[head]) in Leaves(r);
    forall g | g in Leaves(r) ensures g.node in v' && v'[g.node] == g.entry {
      if g != Leaf(f.node, v[p]) {
        assert g in Leaves(t) && g != f;
      }
    }
  }

  lemma BelowHead(t: Shape, head: Node, v: map<Node, Entry>, key: Key)
    requires IsTrie(t, head, v) && Bits(t)
    ensures Side(t, key).Down? || Find(t, key).node == head
  {
  }

  /** Removal of the leaf f that the key leads to, below the head. */
  lemma TrieRemove(t: Shape, head: Node, v: map<Node, Entry>, key: Key)
    requires IsTrie(t, head, v) && Bits(t) && Find(t, key).node != head
    ensures Side(t, key).Down? && var p, f := Parent(t, key), Find(t, key);
      && p in v && f.node in v && p != head && p in Downs(t) && var r := Remove(t, key, v[p].key);
      && IsTrie(r, head, v[f.node := v[p]]) && Bits(r) && Downs(r) == Downs(t) - {p} && Leaves(r) == LeavesAfter(t, f, p, v)
  {
    var side := Side(t, key);
    BelowHead(t, head, v, key);
    HalfRemove(side, head, key[0], v, key);
    var p, f := Parent(t, key), Find(t, key);
    var s := Remove(side, key, v[p].key);
    assert Parent(side, key) == p && Find(side, key) == f && Remove(t, key, v[p].key) == Rebuild(t, key, s);
    FindIn(side, key);
    TopRemoved(t, head, v, key, s, f, p);
  }

  lemma TopRemoved(t: Shape, head: Node, v: map<Node, Entry>, key: Key, s: Shape, f: Leaf, p: Node)
    requires IsTrie(t, head, v) && Bits(t) && Side(t, key).Down? && p in v && p in Downs(Side(t, key)) && f in Leaves(Side(t, key)) && f.node != head
    requires Removed(Side(t, key), s, map[head := 0], f, p, v) && HalfOk(s, head, key[0], v[f.node := v[p]])
    ensures var r := Rebuild(t, key, s);
      IsTrie(r, head, v[f.node := v[p]]) && Bits(r) && Downs(r) == Downs(t) - {p} && Leaves(r) == LeavesAfter(t, f, p, v) && p != head
  {
    OwnInHalf(t, head, v, key, p);
    assert head in v by { HeadThere(t, head, v); }
    hide *;
    OtherHalf(t, head, v, key, f, p);
    TopShape(t, head, v, key, s, f, p);
    TopIsTrie(t, head, v, v[f.node := v[p]], key, s);
  }

  lemma HeadThere(t: Shape, head: Node, v: map<Node, Entry>)
    requires IsTrie(t, head, v)
    ensures head in v
  {
  }

  lemma OwnInHalf(t: Shape, head: Node, v: map<Node, Entry>, key: Key, p: Node)
    requires IsTrie(t, head, v) && Bits(t) && p in v && p in Downs(Side(t, key))
    ensures Leaf(p, v[p]) in Leaves(Side(t, key)) && head !in Downs(Side(t, key)) && p != head
  {
    Owners(Side(t, key), map[head := 0]);
    var g :| g in Leaves(Side(t, key)) && g.node == p;
    assert g == Leaf(p, v[p]);
  }

  lemma TopShape(t: Shape, head: Node, v: map<Node, Entry>, key: Key, s: Shape, f: Leaf, p: Node)
    requires IsTrie(t, head, v) && Bits(t) && p in v && p in Downs(Side(t, key)) && Removed(Side(t, key), s, map[head := 0], f, p, v)
    requires f !in Leaves(Far(t, key)) && Leaf(p, v[p]) !in Leaves(Far(t, key))
    ensures var r := Rebuild(t, key, s);
      && Disjoint(r) && Bits(r) && Downs(r) == Downs(t) - {p} && Leaves(r) == LeavesAfter(t, f, p, v)
  {
    assert t.Down? && t.bit < 32 && Disjoint(t) && Bits(t.left) && Bits(t.right);
    assert Bits(s) && Downs(s) == Downs(Side(t, key)) - {p} && Leaves(s) == LeavesAfter(Side(t, key), f, p, v);
    hide *;
    LevelDowns(t, key, s, p);
    LeavesAround(t, key, s, f, p, v);
    BitsAround(t, key, s);
  }

  lemma LeavesAround(t: Shape, key: Key, s: Shape, f: Leaf, p: Node, v: map<Node, Entry>)
    requires t.Down? && t.bit < 32 && p in v && Leaves(s) == LeavesAfter(Side(t, key), f, p, v)
    requires f !in Leaves(Far(t, key)) && Leaf(p, v[p]) !in Leaves(Far(t, key))
    ensures Leaves(Rebuild(t, key, s)) == LeavesAfter(t, f, p, v)
  {
    assert Leaves(t) == Leaves(Side(t, key)) + Leaves(Far(t, key)) && Leaves(Rebuild(t, key, s)) == Leaves(s) + Leaves(Far(t, key));
    hide Leaves;
  }

  lemma BitsAround(t: Shape, key: Key, s: Shape)
    requires t.Down? && t.bit < 32 && Bits(t.left) && Bits(t.right) && Bits(s)
    ensures Bits(Rebuild(t, key, s))
  {
  }

  lemma TopIsTrie(t: Shape, head: Node, v: map<Node, Entry>, v': map<Node, Entry>, key: Key, s: Shape)
    requires IsTrie(t, head, v) && Bits(t) && Disjoint(Rebuild(t, key, s)) && head in v && head in v' && v'[head] == v[head]
    requires HalfOk(s, head, key[0], v') && HalfOk(Far(t, key), head, !key[0], v')
    ensures IsTrie(Rebuild(t, key, s), head, v')
  {
  }

  /** The half of the trie that the key does not lead to. */
  lemma OtherHalf(t: Shape, head: Node, v: map<Node, Entry>, key: Key, f: Leaf, p: Node)
    requires IsTrie(t, head, v) && Bits(t) && f in Leaves(Side(t, key)) && f.node != head
    requires p in v && p != head && Leaf(p, v[p]) in Leaves(Side(t, key))
    ensures HalfOk(Far(t, key), head, !key[0], v[f.node := v[p]]) && f !in Leaves(Far(t, key)) && Leaf(p, v[p]) !in Leaves(Far(t, key))
  {
    var far := Far(t, key);
    hide Good, Leaves, Downs, Bits;
    forall h | h in Leaves(far) ensures h.node != f.node && h.node != p {
      assert h.node != head ==> h.entry.key[0] != key[0];
    }
    HalfOther(far, head, !key[0], v, v[f.node := v[p]]);
  }

  /** After a removal the key is gone and every other key has what it had. */
  lemma GetRemoved(t: Shape, head: Node, v: map<Node, Entry>, r: Shape, v': map<Node, Entry>, f: Leaf, p: Node, k: Key)
    requires IsTrie(t, head, v) && IsTrie(r, head, v') && Bits(t) && Bits(r) && f in Leaves(t) && f.node != head
    requires p in v && p != head && Leaf(p, v[p]) in Leaves(t) && Leaves(r) == LeavesAfter(t, f, p, v)
    ensures Get(r, head, k) == if k == f.entry.key then None else Get(t, head, k)
  {
    if k == f.entry.key {
      FindIn(r, k);
      if Get(r, head, k).Some? {
        OnlyOne(t, head, v, r, f, p, Find(r, k));
      }
    } else {
      forall e: Entry | e.key == k ensures Has(t, head, e) <==> Has(r, head, e) {
        StillHas(t, head, r, f, p, v, e);
      }
      SameGet(t, head, v, r, v', k);
    }
  }

  lemma OnlyOne(t: Shape, head: Node, v: map<Node, Entry>, r: Shape, f: Leaf, p: Node, g: Leaf)
    requires IsTrie(t, head, v) && f in Leaves(t) && f.node != head && p in v && p != head && Leaf(p, v[p]) in Leaves(t)
    requires Leaves(r) == LeavesAfter(t, f, p, v) && g in Leaves(r) && g.node != head
    ensures g.entry.key != f.entry.key
  {
    TrieFindOwn(t, head, v, f);
    TrieFindOwn(t, head, v, Leaf(p, v[p]));
    assert f.node != p ==> v[p].key != f.entry.key;
    if g in Leaves(t) {
      TrieFindOwn(t, head, v, g);
    }
  }

  lemma StillHas(t: Shape, head: Node, r: Shape, f: Leaf, p: Node, v: map<Node, Entry>, e: Entry)
    requires p in v && p != head && f.node != head && Leaf(p, v[p]) in Leaves(t) && Leaves(r) == LeavesAfter(t, f, p, v) && e.key != f.entry.key
    requires f.node == p ==> f.entry == v[p]
    ensures Has(t, head, e) <==> Has(r, head, e)
  {
    if Has(t, head, e) {
      var g :| g in Leaves(t) && g.node != head && g.entry == e;
      if g == Leaf(p, v[p]) {
        assert Leaf(f.node, v[p]) in Leaves(r);
      } else {
        assert g in Leaves(r);
      }
    }
    if Has(r, head, e) {
      var g :| g in Leaves(r) && g.node != head && g.entry == e;
      if g !in Leaves(t) {
        assert Leaf(p, v[p]).entry == e;
      }
    }
  }

  // ------------------------------------------------------------ replaced data

  lemma {:induction false} RestoreLinks(m: Memory, t: Shape, key: Key, e: Entry)
    requires Bits(t) && LinksIn(m, t)
    ensures LinksIn(m, Restore(t, key, e)) && Root(Restore(t, key, e)) == Root(t)
  {
    if t.Down? {
      RestoreLinks(m, Side(t, key), key, e);
    }
  }

  lemma HalfRestore(t: Shape, head: Node, first: bool, v: map<Node, Entry>, key: Key, e: Entry)
    requires HalfOk(t, head, first, v) && Bits(t) && Find(t, key).node != head && e.key == Find(t, key).entry.key && e.mask == Ones()
    ensures HalfOk(Restore(t, key, e), head, first, v[Find(t, key).node := e])
  {
    var f := Find(t, key);
    Restored(t, map[head := 0], key, e);
    FindIn(t, key);
    hide Good, Leaves, Restore, Bits, Find, Keys, Downs, HalfOk;
    HalfRestored(t, Restore(t, key, e), head, first, v, f, e);
  }

  lemma HalfRestored(t: Shape, r: Shape, head: Node, first: bool, v: map<Node, Entry>, f: Leaf, e: Entry)
    requires HalfOk(t, head, first, v) && f in Leaves(t) && f.node != head && e.key == f.entry.key && e.mask == Ones()
    requires Good(r, map[head := 0]) && Leaves(r) == Leaves(t) - {f} + {Leaf(f.node, e)}
    ensures HalfOk(r, head, first, v[f.node := e])
  {
    hide Good, Leaves;
    var v' := v[f.node := e];
    assert Leaf(head, v[head]) in Leaves(r);
    forall g | g in Leaves(r) ensures g.node in v' && v'[g.node] == g.entry {
      if g != Leaf(f.node, e) {
        assert g in Leaves(t) && g != f;
      }
    }
  }

  lemma TrieRestore(t: Shape, head: Node, v: map<Node, Entry>, key: Key, e: Entry)
    requires IsTrie(t, head, v) && Bits(t) && Find(t, key).node != head && e.key == Find(t, key).entry.key && e.mask == Ones()
    ensures var r := Restore(t, key, e);
      && IsTrie(r, head, v[Find(t, key).node := e]) && Bits(r) && Downs(r) == Downs(t)
      && Leaves(r) == Leaves(t) - {Find(t, key)} + {Leaf(Find(t, key).node, e)}
  {
    var side, f, s := Side(t, key), Find(t, key), Restore(Side(t, key), key, e);
    FindIn(side, key);
    Restored(side, map[head := 0], key, e);
    HalfRestore(side, head, key[0], v, key, e);
    assert Restore(t, key, e) == Rebuild(t, key, s) && Find(side, key) == f;
    OtherHalfKept(t, head, v, key, f, e);
    TopRestored(t, head, v, key, s, f, e);
  }

  /** The other half has no leaf of the node. */
  lemma OtherHalfKept(t: Shape, head: Node, v: map<Node, Entry>, key: Key, f: Leaf, e: Entry)
    requires IsTrie(t, head, v) && Bits(t) && f in Leaves(Side(t, key)) && f.node != head
    ensures HalfOk(Far(t, key), head, !key[0], v[f.node := e]) && f !in Leaves(Far(t, key))
  {
    var far := Far(t, key);
    hide Good, Leaves, Downs, Bits;
    forall h | h in Leaves(far) ensures h.node != f.node {
      assert h.node != head ==> h.entry.key[0] != key[0];
    }
    HalfOther(far, head, !key[0], v, v[f.node := e]);
  }

  lemma TopRestored(t: Shape, head: Node, v: map<Node, Entry>, key: Key, s: Shape, f: Leaf, e: Entry)
    requires IsTrie(t, head, v) && Bits(t) && Bits(s) && f in Leaves(Side(t, key)) && f !in Leaves(Far(t, key)) && f.node != head
    requires Downs(s) == Downs(Side(t, key)) && Leaves(s) == Leaves(Side(t, key)) - {f} + {Leaf(f.node, e)}
    requires HalfOk(s, head, key[0], v[f.node := e]) && HalfOk(Far(t, key), head, !key[0], v[f.node := e])
    ensures var r := Rebuild(t, key, s);
      && IsTrie(r, head, v[f.node := e]) && Bits(r) && Downs(r) == Downs(t)
      && Leaves(r) == Leaves(t) - {f} + {Leaf(f.node, e)}
  {
    assert t.Down? && t.bit < 32 && Disjoint(t) && Bits(t.left) && Bits(t.right);
    HeadThere(t, head, v);
    hide *;
    BitsAround(t, key, s);
    SameDowns(t, key, s);
    LeavesRestored(t, key, s, f, e);
    TopIsTrie(t, head, v, v[f.node := e], key, s);
  }

  lemma SameDowns(t: Shape, key: Key, s: Shape)
    requires t.Down? && t.bit < 32 && Disjoint(t) && Downs(s) == Downs(Side(t, key))
    ensures Downs(Rebuild(t, key, s)) == Downs(t) && Disjoint(Rebuild(t, key, s))
  {
  }

  lemma LeavesRestored(t: Shape, key: Key, s: Shape, f: Leaf, e: Entry)
    requires t.Down? && t.bit < 32 && f !in Leaves(Far(t, key)) && Leaves(s) == Leaves(Side(t, key)) - {f} + {Leaf(f.node, e)}
    ensures Leaves(Rebuild(t, key, s)) == Leaves(t) - {f} + {Leaf(f.node, e)}
  {
    assert Leaves(t) == Leaves(Side(t, key)) + Leaves(Far(t, key)) && Leaves(Rebuild(t, key, s)) == Leaves(s) + Leaves(Far(t, key));
    hide Leaves;
  }

  /** After the data of a key has been replaced it has the new data and every other key what it had. */
  lemma GetRestored(t: Shape, head: Node, v: map<Node, Entry>, r: Shape, v': map<Node, Entry>, f: Leaf, e: Entry, k: Key)
    requires IsTrie(t, head, v) && IsTrie(r, head, v') && Bits(t) && Bits(r) && f in Leaves(t) && f.node != head
    requires Leaves(r) == Leaves(t) - {f} + {Leaf(f.node, e)} && e.key == f.entry.key && e.mask == Ones()
    ensures Get(r, head, k) == if k == e.key then Some(e.data) else Get(t, head, k)
  {
    if k == e.key {
      assert Leaf(f.node, e) in Leaves(r);
      GetMeans(r, head, v', k, e.data);
    } else {
      forall x: Entry | x.key == k ensures Has(t, head, x) <==> Has(r, head, x) {
        if Has(t, head, x) {
          var g :| g in Leaves(t) && g.node != head && g.entry == x;
          assert g in Leaves(r);
        }
      }
      SameGet(t, head, v, r, v', k);
    }
  }
}
