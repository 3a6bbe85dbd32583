/**
  The shape of a Patricia trie (wolfbench/Benchmarks/patricia/patricia.c): a tree of down-links
  whose leaves are up-links to nodes on the path. Keys are 32 bits, most significant first.
*/
module PatriciaShape {
  type Key = s: seq<bool> | |s| == 32 witness seq(32, _ => false)

  function Zeros(): (k: Key)
    ensures forall i :: 0 <= i < 32 ==> !k[i]
  {
    seq(32, _ => false)
  }

  function Ones(): (k: Key)
    ensures forall i :: 0 <= i < 32 ==> k[i]
  {
    seq(32, _ => true)
  }

  /** `key & mask` */
  function And(key: Key, mask: Key): Key {
    seq(32, i requires 0 <= i < 32 => key[i] && mask[i])
  }

  lemma Masked(key: Key)
    ensures And(key, Ones()) == key
    ensures And(key, Zeros()) == Zeros()
  {
  }

  class Node {
    var key: Key
    var mask: Key
    var data: int
    var b: nat
    var left: Node?
    var right: Node?

    constructor (key: Key, mask: Key, data: int)
      ensures this.key == key && this.mask == mask && this.data == data && b == 0 && left == null && right == null
    {
      this.key, this.mask, this.data, b, left, right := key, mask, data, 0, null, null;
    }
  }

  datatype Entry = Entry(key: Key, mask: Key, data: int)

  /** An up-link: the node it leads to and what that node stores. */
  datatype Leaf = Leaf(node: Node, entry: Entry)

  datatype Shape = Up(leaf: Leaf) | Down(node: Node, bit: nat, left: Shape, right: Shape)

  function Root(t: Shape): Node {
    if t.Up? then t.leaf.node else t.node
  }

  function Downs(t: Shape): set<Node> {
    if t.Up? then {} else {t.node} + Downs(t.left) + Downs(t.right)
  }

  function Leaves(t: Shape): set<Leaf> {
    if t.Up? then {t.leaf} else Leaves(t.left) + Leaves(t.right)
  }

  /** The subtree the key leads to, and the other one. */
  function Side(t: Shape, key: Key): Shape
    requires t.Down? && t.bit < 32
  {
    if key[t.bit] then t.right else t.left
  }

  function Far(t: Shape, key: Key): Shape
    requires t.Down? && t.bit < 32
  {
    if key[t.bit] then t.left else t.right
  }

  /** The tests on the way down are on bits of a key. */
  predicate Bits(t: Shape) {
    t.Down? ==> t.bit < 32 && Bits(t.left) && Bits(t.right)
  }

  /** Where the key leads. */
  function Find(t: Shape, key: Key): Leaf
    requires Bits(t)
  {
    if t.Up? then t.leaf else Find(Side(t, key), key)
  }

  predicate Agree(a: Key, b: Key, n: nat) {
    forall i :: 1 <= i < n && i < 32 ==> a[i] == b[i]
  }

  /** All leaves agree on the bits skipped above n. */
  ghost predicate SkippedAgree(t: Shape, n: nat) {
    forall f, g :: f in Leaves(t) && g in Leaves(t) ==> Agree(f.entry.key, g.entry.key, n)
  }

  ghost predicate AllHave(t: Shape, i: nat, v: bool)
    requires i < 32
  {
    forall f :: f in Leaves(t) ==> f.entry.key[i] == v
  }

  /** The node is new on its path and tests a later bit than the nodes above. */
  ghost predicate Deeper(n: Node, b: nat, path: map<Node, nat>) {
    n !in path && b < 32 && forall q :: q in path ==> path[q] < b
  }

  ghost predicate Disjoint(t: Shape)
    requires t.Down?
  {
    t.node !in Downs(t.left) && t.node !in Downs(t.right) && Downs(t.left) !! Downs(t.right)
  }

  /** The leaves are sorted by the bit tested, and agree on the bits before it. */
  ghost predicate Sorted(t: Shape)
    requires t.Down? && t.bit < 32
  {
    AllHave(t.left, t.bit, false) && AllHave(t.right, t.bit, true) && SkippedAgree(t, t.bit)
  }

  /** The node's own leaf is below it. */
  ghost predicate Owns(t: Shape)
    requires t.Down?
  {
    exists f :: f in Leaves(t) && f.node == t.node
  }

  /** A subtree below the nodes of path, given with the bits they test; an up-link leads to one of these nodes. */
  ghost predicate Good(t: Shape, path: map<Node, nat>) {
    match t
    case Up(f) => f.node in path
    case Down(n, b, l, r) =>
      && Deeper(n, b, path) && Disjoint(t) && Sorted(t) && Owns(t)
      && Good(l, path[n := b]) && Good(r, path[n := b])
  }

  lemma {:induction false} GoodBits(t: Shape, path: map<Node, nat>)
    requires Good(t, path)
    ensures Bits(t)
  {
    hide Disjoint, Sorted, Owns;
    if t.Down? {
      GoodBits(t.left, path[t.node := t.bit]);
      GoodBits(t.right, path[t.node := t.bit]);
    }
  }

  lemma {:induction false} FindIn(t: Shape, key: Key)
    requires Bits(t)
    ensures Find(t, key) in Leaves(t)
  {
    if t.Down? {
      FindIn(Side(t, key), key);
    }
  }

  /** Every key's own bits lead to its leaf. */
  lemma {:induction false} FindOwn(t: Shape, path: map<Node, nat>, f: Leaf)
    requires Good(t, path) && f in Leaves(t)
    ensures Bits(t) && Find(t, f.entry.key) == f
  {
    hide Disjoint, Owns, SkippedAgree;
    GoodBits(t, path);
    if t.Down? {
      FindOwn(Side(t, f.entry.key), path[t.node := t.bit], f);
    }
  }

  /** The owners of leaves are on the path or below. */
  lemma {:induction false} Owners(t: Shape, path: map<Node, nat>)
    requires Good(t, path)
    ensures forall f :: f in Leaves(t) ==> f.node in path || f.node in Downs(t)
    ensures forall n :: n in Downs(t) ==> n !in path && exists f :: f in Leaves(t) && f.node == n
  {
    hide Disjoint, Sorted;
    if t.Down? {
      Owners(t.left, path[t.node := t.bit]);
      Owners(t.right, path[t.node := t.bit]);
    }
  }

  // ---------------------------------------------------------------- insertion

  /** insertR on shapes. */
  function Insert(t: Shape, f: Leaf, d: nat): Shape
    requires Bits(t) && d < 32
  {
    if t.Up? || t.bit >= d then
      if f.entry.key[d] then Down(f.node, d, t, Up(f)) else Down(f.node, d, Up(f), t)
    else if f.entry.key[t.bit] then Down(t.node, t.bit, t.left, Insert(t.right, f, d))
    else Down(t.node, t.bit, Insert(t.left, f, d), t.right)
  }

  lemma {:induction false} Inserted(t: Shape, f: Leaf, d: nat)
    requires Bits(t) && d < 32
    ensures Leaves(Insert(t, f, d)) == Leaves(t) + {f} && Downs(Insert(t, f, d)) == Downs(t) + {f.node}
    ensures Bits(Insert(t, f, d))
  {
    if t.Down? && t.bit < d {
      Inserted(Side(t, f.entry.key), f, d);
    }
  }

  /** A subtree may hang below one more node that tests an earlier bit. */
  lemma {:induction false} Widen(t: Shape, path: map<Node, nat>, n: Node, d: nat)
    requires Good(t, path) && n !in path && n !in Downs(t) && (t.Down? ==> d < t.bit)
    ensures Good(t, path[n := d])
  {
    hide Disjoint, Sorted, Owns;
    if t.Down? {
      var p := path[t.node := t.bit];
      Widen(t.left, p, n, d);
      Widen(t.right, p, n, d);
      assert p[n := d] == path[n := d][t.node := t.bit];
    }
  }

  /** What insertion relies on: f's key and the leaf it leads to first differ at bit d. */
  ghost predicate DiffersAt(t: Shape, key: Key, d: nat)
    requires Bits(t)
  {
    1 <= d < 32 && Agree(key, Find(t, key).entry.key, d) && key[d] != Find(t, key).entry.key[d]
  }

  /** Below the insertion point all leaves lie on the other side of the new test. */
  lemma BelowDiffers(t: Shape, path: map<Node, nat>, key: Key, d: nat)
    requires Good(t, path) && Bits(t) && DiffersAt(t, key, d) && (t.Up? || t.bit >= d)
    ensures t.Down? ==> d < t.bit
    ensures AllHave(t, d, !key[d]) && SkippedAgree(t, d) && forall g :: g in Leaves(t) ==> Agree(key, g.entry.key, d)
  {
    var h := Find(t, key);
    FindIn(t, key);
    if t.Down? {
      FindIn(Side(t, key), key);
      forall g | g in Leaves(t) ensures g.entry.key[d] == !key[d] && Agree(key, g.entry.key, d) {
        assert Agree(g.entry.key, h.entry.key, t.bit);
      }
    }
  }

  lemma InsertHere(t: Shape, path: map<Node, nat>, f: Leaf, d: nat)
    requires Good(t, path) && Bits(t) && DiffersAt(t, f.entry.key, d) && (t.Up? || t.bit >= d)
    requires f.node !in path && f.node !in Downs(t) && forall q :: q in path ==> path[q] < d
    ensures Good(Insert(t, f, d), path)
  {
    BelowDiffers(t, path, f.entry.key, d);
    Widen(t, path, f.node, d);
    HereForm(t, path, f, d);
    UpGood(f, path[f.node := d]);
    hide Good, Sorted, Owns, Disjoint, Deeper;
    Compose(Insert(t, f, d), path);
  }

  /** The new node with the new leaf on one side and what was there on the other. */
  lemma HereForm(t: Shape, path: map<Node, nat>, f: Leaf, d: nat)
    requires Good(t, path) && Bits(t) && DiffersAt(t, f.entry.key, d) && (t.Up? || t.bit >= d)
    requires f.node !in path && f.node !in Downs(t) && forall q :: q in path ==> path[q] < d
    ensures var r := Insert(t, f, d);
      && r.Down? && r.node == f.node && r.bit == d && Sorted(r) && Owns(r) && Disjoint(r) && Deeper(r.node, r.bit, path)
      && ((r.left == Up(f) && r.right == t) || (r.left == t && r.right == Up(f)))
  {
    BelowDiffers(t, path, f.entry.key, d);
    var r := Insert(t, f, d);
    hide Good;
    assert Leaves(Up(f)) == {f} && Downs(Up(f)) == {};
    assert Leaves(r) == Leaves(t) + {f} && f in Leaves(r);
  }

  lemma UpGood(f: Leaf, path: map<Node, nat>)
    requires f.node in path
    ensures Good(Up(f), path)
  {
  }

  lemma Compose(t: Shape, path: map<Node, nat>)
    requires t.Down? && Deeper(t.node, t.bit, path) && Disjoint(t) && Sorted(t) && Owns(t)
    requires Good(t.left, path[t.node := t.bit]) && Good(t.right, path[t.node := t.bit])
    ensures Good(t, path)
  {
  }

  lemma Decompose(t: Shape, path: map<Node, nat>)
    requires t.Down? && Good(t, path)
    ensures Deeper(t.node, t.bit, path) && Disjoint(t) && Sorted(t) && Owns(t)
    ensures Good(t.left, path[t.node := t.bit]) && Good(t.right, path[t.node := t.bit])
  {
  }

  /** One level of the descent keeps the leaves sorted and the nodes apart. */
  lemma InsertBelow(t: Shape, f: Leaf, d: nat)
    requires t.Down? && t.bit < d && Bits(t) && Disjoint(t) && Sorted(t) && Owns(t)
    requires DiffersAt(t, f.entry.key, d) && f.node !in Downs(t)
    ensures var r := Insert(t, f, d); r.Down? && Disjoint(r) && Sorted(r) && Owns(r)
  {
    hide SkippedAgree;
    var r := Insert(t, f, d);
    Inserted(Side(t, f.entry.key), f, d);
    InsertedAgrees(t, f, d);
    assert Leaves(r) == Leaves(t) + {f};
    assert AllHave(Side(r, f.entry.key), t.bit, f.entry.key[t.bit]);
    var g :| g in Leaves(t) && g.node == t.node;
    assert g in Leaves(r);
  }

  lemma {:induction false} InsertGood(t: Shape, path: map<Node, nat>, f: Leaf, d: nat)
    requires Good(t, path) && Bits(t) && DiffersAt(t, f.entry.key, d)
    requires f.node !in path && f.node !in Downs(t) && forall q :: q in path ==> path[q] < d
    ensures Good(Insert(t, f, d), path)
  {
    hide Good, Disjoint, Sorted, Owns, Agree;
    if t.Up? || t.bit >= d {
      InsertHere(t, path, f, d);
    } else {
      Decompose(t, path);
      InsertGood(Side(t, f.entry.key), path[t.node := t.bit], f, d);
      InsertBelow(t, f, d);
      Compose(Insert(t, f, d), path);
    }
  }

  lemma InsertedAgrees(t: Shape, f: Leaf, d: nat)
    requires t.Down? && Bits(t) && t.bit < d < 32 && DiffersAt(t, f.entry.key, d) && SkippedAgree(t, t.bit)
    ensures SkippedAgree(Insert(t, f, d), t.bit)
  {
    Inserted(t, f, d);
    FindIn(t, f.entry.key);
    var h := Find(t, f.entry.key);
    forall g | g in Leaves(t) ensures Agree(f.entry.key, g.entry.key, t.bit) && Agree(g.entry.key, f.entry.key, t.bit) {
      assert Agree(g.entry.key, h.entry.key, t.bit);
    }
  }

  // ------------------------------------------------------------------ removal

  /** t with the subtree the key leads to replaced. */
  function Rebuild(t: Shape, key: Key, side: Shape): Shape
    requires t.Down? && t.bit < 32
  {
    if key[t.bit] then Down(t.node, t.bit, t.left, side) else Down(t.node, t.bit, side, t.right)
  }

  /** The up-link at the end of key's path made to lead to n, which takes over what was stored. */
  function Redirect(t: Shape, key: Key, n: Node): Shape
    requires Bits(t)
  {
    if t.Up? then Up(Leaf(n, t.leaf.entry)) else Rebuild(t, key, Redirect(Side(t, key), key, n))
  }

  lemma {:induction false} Redirected(t: Shape, path: map<Node, nat>, key: Key, n: Node)
    requires Good(t, path) && Bits(t)
    ensures Bits(Redirect(t, key, n)) && Downs(Redirect(t, key, n)) == Downs(t)
    ensures Leaves(Redirect(t, key, n)) == Leaves(t) - {Find(t, key)} + {Leaf(n, Find(t, key).entry)}
  {
    hide Disjoint, Owns, SkippedAgree;
    if t.Down? {
      Redirected(Side(t, key), path[t.node := t.bit], key, n);
      FindIn(Side(t, key), key);
      assert Find(t, key) !in Leaves(Far(t, key));
    }
  }

  /** Redirecting a leaf that belongs to a node above keeps the subtree good. */
  lemma {:induction false} RedirectGood(t: Shape, path: map<Node, nat>, key: Key, n: Node)
    requires Good(t, path) && Bits(t) && n in path && Find(t, key).node in path
    ensures Good(Redirect(t, key, n), path)
  {
    hide Good, Disjoint, Sorted, Owns;
    if t.Down? {
      Decompose(t, path);
      RedirectGood(Side(t, key), path[t.node := t.bit], key, n);
      RedirectLevel(t, path, key, n);
      Compose(Redirect(t, key, n), path);
    } else {
      UpGood(Leaf(n, t.leaf.entry), path);
    }
  }

  function Keys(t: Shape): set<Key> {
    set f | f in Leaves(t) :: f.entry.key
  }

  /** A node stays sorted when its leaves have no new keys. */
  lemma SortedFewer(t: Shape, r: Shape)
    requires t.Down? && r.Down? && t.bit == r.bit < 32 && Sorted(t)
    requires Keys(r.left) <= Keys(t.left) && Keys(r.right) <= Keys(t.right)
    ensures Sorted(r)
  {
    forall f | f in Leaves(r.left) ensures exists g :: g in Leaves(t.left) && g.entry.key == f.entry.key {
      assert f.entry.key in Keys(r.left);
    }
    forall f | f in Leaves(r.right) ensures exists g :: g in Leaves(t.right) && g.entry.key == f.entry.key {
      assert f.entry.key in Keys(r.right);
    }
    forall f, g | f in Leaves(r) && g in Leaves(r) ensures Agree(f.entry.key, g.entry.key, r.bit) {
      var f' :| f' in Leaves(t) && f'.entry.key == f.entry.key;
      var g' :| g' in Leaves(t) && g'.entry.key == g.entry.key;
      assert Agree(f'.entry.key, g'.entry.key, t.bit);
    }
  }

  lemma {:induction false} RedirectKeys(t: Shape, key: Key, n: Node)
    requires Bits(t)
    ensures Keys(Redirect(t, key, n)) == Keys(t) && Downs(Redirect(t, key, n)) == Downs(t)
  {
    if t.Down? {
      RedirectKeys(Side(t, key), key, n);
      assert forall r: Shape :: r.Down? ==> Keys(r) == Keys(r.left) + Keys(r.right);
    }
  }

  lemma RedirectLevel(t: Shape, path: map<Node, nat>, key: Key, n: Node)
    requires t.Down? && Good(t, path) && Bits(t) && Find(t, key).node in path
    ensures var r := Redirect(t, key, n); r.Down? && Disjoint(r) && Sorted(r) && Owns(r)
  {
    var r, side := Redirect(t, key, n), Redirect(Side(t, key), key, n);
    Decompose(t, path);
    RedirectKeys(Side(t, key), key, n);
    assert Sorted(r) by { SortedFewer(t, r); }
    Redirected(t, path, key, n);
    var g :| g in Leaves(t) && g.node == t.node;
    assert g in Leaves(r);
  }

  /** A node no leaf belongs to can be dropped from the path. */
  lemma {:induction false} Narrow(t: Shape, path: map<Node, nat>, p: Node)
    requires Good(t, path) && p !in Downs(t) && forall f :: f in Leaves(t) ==> f.node != p
    ensures Good(t, path - {p})
  {
    hide Disjoint, Sorted, Owns;
    if t.Down? {
      Narrow(t.left, path[t.node := t.bit], p);
      Narrow(t.right, path[t.node := t.bit], p);
      assert path[t.node := t.bit] - {p} == (path - {p})[t.node := t.bit];
    }
  }

  /** Each leaf tells what its node stores. */
  ghost predicate Stored(t: Shape, v: map<Node, Entry>) {
    forall f :: f in Leaves(t) ==> f.node in v && v[f.node] == f.entry
  }

  /** The node from which key's path goes up. */
  function Parent(t: Shape, key: Key): Node
    requires t.Down? && Bits(t)
  {
    if Side(t, key).Up? then t.node else Parent(Side(t, key), key)
  }

  /** pat_remove on shapes: the parent leaves the trie, its own up-link goes to the target instead. */
  function Remove(t: Shape, key: Key, own: Key): Shape
    requires t.Down? && Bits(t)
  {
    if Side(t, key).Up? then Far(Redirect(t, own, Side(t, key).leaf.node), key)
    else Rebuild(t, key, Remove(Side(t, key), key, own))
  }

  /** The leaves after the removal of the one key leads to: the target stores what its parent p stored. */
  ghost function LeavesAfter(t: Shape, f: Leaf, p: Node, v: map<Node, Entry>): set<Leaf>
    requires p in v
  {
    Leaves(t) - {f, Leaf(p, v[p])} + if f.node == p then {} else {Leaf(f.node, v[p])}
  }

  /** What removal below t achieves. */
  ghost predicate Removed(t: Shape, r: Shape, path: map<Node, nat>, f: Leaf, p: Node, v: map<Node, Entry>) {
    && p in v && Good(r, path) && Bits(r)
    && Downs(r) == Downs(t) - {p} && Leaves(r) == LeavesAfter(t, f, p, v)
  }

  /** The own leaf of the node above an up-link: the up-link itself, or on the other side. */
  lemma OwnLeaf(t: Shape, path: map<Node, nat>, key: Key, v: map<Node, Entry>)
    requires t.Down? && Good(t, path) && Bits(t) && Stored(t, v) && Side(t, key).Up?
    ensures t.node in v && var pl := Leaf(t.node, v[t.node]); var f := Side(t, key).leaf;
      && pl in Leaves(t) && Find(t, pl.entry.key) == pl
      && (if f.node == t.node then pl == f && pl !in Leaves(Far(t, key)) else pl in Leaves(Far(t, key)) && pl != f)
      && (pl.entry.key[t.bit] == key[t.bit] <==> f.node == t.node)
  {
    Decompose(t, path);
    var g :| g in Leaves(t) && g.node == t.node;
    hide Good, SkippedAgree;
    assert Leaves(t) == Leaves(Side(t, key)) + Leaves(Far(t, key));
    assert Leaves(Side(t, key)) == {Side(t, key).leaf};
    assert g.entry.key[t.bit] == key[t.bit] <==> g !in Leaves(Far(t, key));
    FindOwn(t, path, g);
  }

  /** What is left of the parent: the other side, with the parent's up-link redirected if it is there. */
  lemma FarRedirect(t: Shape, key: Key, own: Key, n: Node)
    requires t.Down? && Bits(t)
    ensures Far(Redirect(t, own, n), key) == if own[t.bit] == key[t.bit] then Far(t, key) else Redirect(Far(t, key), own, n)
  {
  }

  lemma WithoutNode(path: map<Node, nat>, n: Node, b: nat)
    requires n !in path
    ensures path[n := b] - {n} == path
  {
  }

  /** The target's parent is the target itself. */
  lemma RemoveSelf(t: Shape, path: map<Node, nat>, key: Key, v: map<Node, Entry>)
    requires t.Down? && Good(t, path) && Bits(t) && Stored(t, v) && Side(t, key).Up? && Side(t, key).leaf.node == t.node
    ensures t.node in v && Removed(t, Far(t, key), path, Find(t, key), t.node, v)
  {
    OwnLeaf(t, path, key, v);
    Decompose(t, path);
    hide Good, Sorted, Owns, Find;
    var f, o := Side(t, key).leaf, Far(t, key);
    WithoutNode(path, t.node, t.bit);
    Narrow(o, path[t.node := t.bit], t.node);
    assert Leaves(t) == Leaves(o) + {f};
    assert Downs(t) == Downs(o) + {t.node};
    assert f == Find(t, key) by { FindHere(t, key); }
  }

  lemma FindHere(t: Shape, key: Key)
    requires t.Down? && Bits(t) && Side(t, key).Up?
    ensures Find(t, key) == Side(t, key).leaf
  {
  }

  /** The leaves of the other side once its leaf pl has been given to f's node. */
  lemma GivenTo(t: set<Leaf>, o: set<Leaf>, r: set<Leaf>, f: Leaf, pl: Leaf, v: map<Node, Entry>)
    requires pl.node in v && pl.entry == v[pl.node] && f.node != pl.node && f.node in v && f.entry == v[f.node]
    requires t == o + {f} && f !in o && r == o - {pl} + {Leaf(f.node, pl.entry)} && forall g :: g in t ==> g.node in v && v[g.node] == g.entry
    ensures r == t - {f, pl} + {Leaf(f.node, pl.entry)} && forall g :: g in r ==> g.node != pl.node
  {
  }

  lemma RemoveOther(t: Shape, path: map<Node, nat>, key: Key, v: map<Node, Entry>)
    requires t.Down? && Good(t, path) && Bits(t) && Stored(t, v) && Side(t, key).Up? && Side(t, key).leaf.node != t.node
    ensures t.node in v && Removed(t, Redirect(Far(t, key), v[t.node].key, Side(t, key).leaf.node), path, Find(t, key), t.node, v)
  {
    OwnLeaf(t, path, key, v);
    Decompose(t, path);
    FindHere(t, key);
    var f, o, own, p := Side(t, key).leaf, Far(t, key), v[t.node].key, path[t.node := t.bit];
    var pl := Leaf(t.node, v[t.node]);
    var r := Redirect(o, own, f.node);
    assert Good(o, p) && f.node in v && f.entry == v[f.node] && t.node !in path && forall g :: g in Leaves(t) ==> g.node in v && v[g.node] == g.entry;
    hide *;
    FindFar(t, key, own);
    OneSided(t, key, f);
    UpGoodInv(f, p);
    RedirectGood(o, p, own, f.node);
    Redirected(o, p, own, f.node);
    DownsHere(t, key);
    GivenTo(Leaves(t), Leaves(o), Leaves(r), f, pl, v);
    WithoutNode(path, t.node, t.bit);
    Narrow(r, p, t.node);
    IsRemoved(t, r, path, f, t.node, v);
  }

  lemma IsRemoved(t: Shape, r: Shape, path: map<Node, nat>, f: Leaf, p: Node, v: map<Node, Entry>)
    requires p in v && Good(r, path) && Bits(r) && Downs(r) == Downs(t) - {p}
    requires Leaves(r) == Leaves(t) - {f, Leaf(p, v[p])} + {Leaf(f.node, v[p])} && f.node != p
    ensures Removed(t, r, path, f, p, v)
  {
  }

  lemma DownsHere(t: Shape, key: Key)
    requires t.Down? && Bits(t) && Side(t, key).Up? && Disjoint(t)
    ensures Downs(t) == Downs(Far(t, key)) + {t.node} && t.node !in Downs(Far(t, key))
  {
  }

  lemma OneSided(t: Shape, key: Key, f: Leaf)
    requires t.Down? && Bits(t) && Sorted(t) && (f in Leaves(Side(t, key)) || Side(t, key) == Up(f))
    ensures f !in Leaves(Far(t, key))
    ensures Side(t, key).Up? ==> Leaves(t) == Leaves(Far(t, key)) + {Side(t, key).leaf}
  {
  }

  lemma FindFar(t: Shape, key: Key, own: Key)
    requires t.Down? && Bits(t) && own[t.bit] != key[t.bit]
    ensures Find(Far(t, key), own) == Find(t, own)
  {
  }

  lemma RemoveHere(t: Shape, path: map<Node, nat>, key: Key, v: map<Node, Entry>)
    requires t.Down? && Good(t, path) && Bits(t) && Stored(t, v) && Side(t, key).Up?
    ensures t.node in v && Removed(t, Remove(t, key, v[t.node].key), path, Find(t, key), t.node, v)
  {
    OwnLeaf(t, path, key, v);
    hide Good, Removed, Find, Redirect, Stored;
    FarRedirect(t, key, v[t.node].key, Side(t, key).leaf.node);
    if Side(t, key).leaf.node == t.node {
      RemoveSelf(t, path, key, v);
    } else {
      RemoveOther(t, path, key, v);
    }
  }

  lemma UpGoodInv(f: Leaf, path: map<Node, nat>)
    requires Good(Up(f), path)
    ensures f.node in path
  {
  }

  lemma {:induction false} ParentIn(t: Shape, key: Key)
    requires t.Down? && Bits(t)
    ensures Parent(t, key) in Downs(t)
  {
    if Side(t, key).Down? {
      ParentIn(Side(t, key), key);
    }
  }

  /** The parent's own leaf lies on the side the key leads to. */
  lemma ParentLeaf(t: Shape, path: map<Node, nat>, key: Key, v: map<Node, Entry>)
    requires t.Down? && Good(t, path) && Bits(t) && Stored(t, v) && Side(t, key).Down?
    ensures var p := Parent(t, key); p in v && p in Downs(Side(t, key)) && Leaf(p, v[p]) in Leaves(Side(t, key))
  {
    ParentIn(Side(t, key), key);
    Decompose(t, path);
    hide Good;
    Owners(Side(t, key), path[t.node := t.bit]);
    var p := Parent(t, key);
    var g :| g in Leaves(Side(t, key)) && g.node == p;
    assert g in Leaves(t);
  }

  lemma LevelLeaves(t: Shape, key: Key, s: Shape, f: Leaf, p: Node, v: map<Node, Entry>)
    requires t.Down? && Bits(t) && Sorted(t) && p in v && f in Leaves(Side(t, key)) && Leaf(p, v[p]) in Leaves(Side(t, key))
    requires Leaves(s) == LeavesAfter(Side(t, key), f, p, v)
    ensures Leaves(Rebuild(t, key, s)) == LeavesAfter(t, f, p, v) && Sorted(Rebuild(t, key, s))
  {
    OneSided(t, key, f);
    OneSided(t, key, Leaf(p, v[p]));
    assert Leaves(t) == Leaves(Side(t, key)) + Leaves(Far(t, key));
    assert Leaves(Rebuild(t, key, s)) == Leaves(s) + Leaves(Far(t, key));
    hide Sorted;
    forall k | k in Keys(s) ensures k in Keys(Side(t, key)) {
      var g :| g in Leaves(s) && g.entry.key == k;
      var g' := if g in Leaves(Side(t, key)) then g else Leaf(p, v[p]);
      assert g' in Leaves(Side(t, key)) && g'.entry.key == k;
    }
    SortedFewer(t, Rebuild(t, key, s));
  }

  lemma LevelOwns(t: Shape, r: Shape, f: Leaf, p: Node, v: map<Node, Entry>)
    requires t.Down? && r.Down? && r.node == t.node != p && Owns(t) && p in v && Leaves(r) == LeavesAfter(t, f, p, v)
    ensures Owns(r)
  {
    var g :| g in Leaves(t) && g.node == t.node;
    if g == f {
      assert Leaf(f.node, v[p]) in Leaves(r);
    } else {
      assert g in Leaves(r);
    }
  }

  lemma LevelDowns(t: Shape, key: Key, s: Shape, p: Node)
    requires t.Down? && Bits(t) && Disjoint(t) && p in Downs(Side(t, key)) && Downs(s) == Downs(Side(t, key)) - {p}
    ensures var r := Rebuild(t, key, s); Downs(r) == Downs(t) - {p} && Disjoint(r) && p != t.node
  {
  }

  lemma LevelGood(t: Shape, key: Key, s: Shape, path: map<Node, nat>)
    requires t.Down? && Bits(t) && Good(t, path) && Good(s, path[t.node := t.bit]) && Bits(s)
    requires var r := Rebuild(t, key, s); Disjoint(r) && Sorted(r) && Owns(r)
    ensures Good(Rebuild(t, key, s), path) && Bits(Rebuild(t, key, s))
  {
  }

  /** Removal deletes exactly the leaf the key leads to, moves the parent's entry to the target, and keeps the rest good. */
  lemma {:induction false} RemoveGood(t: Shape, path: map<Node, nat>, key: Key, v: map<Node, Entry>)
    requires t.Down? && Good(t, path) && Bits(t) && Stored(t, v)
    ensures var p := Parent(t, key); p in v && Removed(t, Remove(t, key, v[p].key), path, Find(t, key), p, v)
  {
    if Side(t, key).Up? {
      RemoveHere(t, path, key, v);
    } else {
      var side, p, f := Side(t, key), Parent(t, key), Find(t, key);
      assert Stored(side, v);
      ParentLeaf(t, path, key, v);
      Decompose(t, path);
      RemoveGood(side, path[t.node := t.bit], key, v);
      var s := Remove(side, key, v[p].key);
      assert Remove(t, key, v[p].key) == Rebuild(t, key, s) && Parent(side, key) == p && Find(side, key) == f;
      RemoveLevel(t, path, key, v, s, f, p);
    }
  }

  lemma RemoveLevel(t: Shape, path: map<Node, nat>, key: Key, v: map<Node, Entry>, s: Shape, f: Leaf, p: Node)
    requires t.Down? && Good(t, path) && Bits(t) && Side(t, key).Down? && p in v
    requires Removed(Side(t, key), s, path[t.node := t.bit], f, p, v)
    requires f == Find(Side(t, key), key) && p in Downs(Side(t, key)) && Leaf(p, v[p]) in Leaves(Side(t, key))
    ensures Removed(t, Rebuild(t, key, s), path, f, p, v)
  {
    Decompose(t, path);
    FindIn(Side(t, key), key);
    hide Good, Find, Sorted, Owns, Disjoint, Leaves, Downs, LeavesAfter, Bits;
    LevelDowns(t, key, s, p);
    LevelLeaves(t, key, s, f, p, v);
    LevelOwns(t, Rebuild(t, key, s), f, p, v);
    LevelGood(t, key, s, path);
  }

  // ------------------------------------------------------------ replaced data

  /** The entry at the end of key's path replaced. */
  function Restore(t: Shape, key: Key, e: Entry): Shape
    requires Bits(t)
  {
    if t.Up? then Up(Leaf(t.leaf.node, e)) else Rebuild(t, key, Restore(Side(t, key), key, e))
  }

  lemma {:induction false} Restored(t: Shape, path: map<Node, nat>, key: Key, e: Entry)
    requires Good(t, path) && Bits(t) && e.key == Find(t, key).entry.key
    ensures var r := Restore(t, key, e);
      && Bits(r) && Root(r) == Root(t) && Downs(r) == Downs(t) && Keys(r) == Keys(t)
      && Leaves(r) == Leaves(t) - {Find(t, key)} + {Leaf(Find(t, key).node, e)} && Good(r, path)
  {
    hide Good, Disjoint, Sorted, Owns;
    if t.Down? {
      Decompose(t, path);
      Restored(Side(t, key), path[t.node := t.bit], key, e);
      RestoreLevel(t, path, key, e);
      Compose(Restore(t, key, e), path);
    } else {
      UpGoodInv(t.leaf, path);
      UpGood(Leaf(t.leaf.node, e), path);
    }
  }

  lemma RestoreLevel(t: Shape, path: map<Node, nat>, key: Key, e: Entry)
    requires t.Down? && Good(t, path) && Bits(t)
    requires var s, side := Restore(Side(t, key), key, e), Side(t, key);
      && Bits(s) && Root(s) == Root(side) && Downs(s) == Downs(side) && Keys(s) == Keys(side)
      && Leaves(s) == Leaves(side) - {Find(t, key)} + {Leaf(Find(t, key).node, e)}
    ensures var r := Restore(t, key, e);
      && Bits(r) && Downs(r) == Downs(t) && Keys(r) == Keys(t) && Disjoint(r) && Sorted(r) && Owns(r)
      && Leaves(r) == Leaves(t) - {Find(t, key)} + {Leaf(Find(t, key).node, e)}
  {
    var r, s, f := Restore(t, key, e), Restore(Side(t, key), key, e), Find(t, key);
    Decompose(t, path);
    FindIn(Side(t, key), key);
    assert r == Rebuild(t, key, s) && Bits(r);
    hide *;
    RestoreKeys(t, key, s);
    SortedFewer(t, r);
    RestoreLeaves(t, key, s, f, e);
    RestoreOwns(t, r, f, e);
  }

  lemma KeysSplit(t: Shape)
    requires t.Down?
    ensures Keys(t) == Keys(t.left) + Keys(t.right)
  {
  }

  lemma RestoreKeys(t: Shape, key: Key, s: Shape)
    requires t.Down? && t.bit < 32 && Disjoint(t) && Keys(s) == Keys(Side(t, key)) && Downs(s) == Downs(Side(t, key))
    ensures var r := Rebuild(t, key, s);
      && r.bit == t.bit && r.node == t.node && Keys(r.left) == Keys(t.left) && Keys(r.right) == Keys(t.right)
      && Keys(r) == Keys(t) && Downs(r) == Downs(t) && Disjoint(r)
  {
    KeysSplit(t);
    KeysSplit(Rebuild(t, key, s));
    hide Keys;
  }

  lemma RestoreLeaves(t: Shape, key: Key, s: Shape, f: Leaf, e: Entry)
    requires t.Down? && Bits(t) && Sorted(t) && f in Leaves(Side(t, key)) && Leaves(s) == Leaves(Side(t, key)) - {f} + {Leaf(f.node, e)}
    ensures Leaves(Rebuild(t, key, s)) == Leaves(t) - {f} + {Leaf(f.node, e)}
  {
    OneSided(t, key, f);
    assert Leaves(t) == Leaves(Side(t, key)) + Leaves(Far(t, key)) && Leaves(Rebuild(t, key, s)) == Leaves(s) + Leaves(Far(t, key));
    hide Leaves, Sorted;
  }

  lemma RestoreOwns(t: Shape, r: Shape, f: Leaf, e: Entry)
    requires t.Down? && r.Down? && r.node == t.node && Owns(t) && Leaves(r) == Leaves(t) - {f} + {Leaf(f.node, e)}
    ensures Owns(r)
  {
    var g :| g in Leaves(t) && g.node == t.node;
    assert (if g == f then Leaf(f.node, e) else g) in Leaves(r);
  }
}
