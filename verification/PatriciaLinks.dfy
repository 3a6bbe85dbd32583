/**
  How a Patricia trie lies in memory, what single link updates do to its shape, and the trie
  below its head node (wolfbench/Benchmarks/patricia/patricia.c).
*/
module PatriciaLinks {
  import opened Wrappers
  import opened PatriciaShape

  /** The links of a node: bit to check, left and right pointer. */
  datatype Cell = Cell(b: nat, left: Node?, right: Node?)

  type Memory = map<Node, Cell>

  ghost function Cells(region: set<Node>): (m: Memory)
    reads region`b, region`left, region`right
    ensures m.Keys == region
  {
    map n | n in region :: Cell(n.b, n.left, n.right)
  }

  ghost function Entries(region: set<Node>): (v: map<Node, Entry>)
    reads region`key, region`mask, region`data
    ensures v.Keys == region
  {
    map n | n in region :: Entry(n.key, n.mask, n.data)
  }

  ghost predicate LinksIn(m: Memory, t: Shape) {
    t.Down? ==> t.node in m && m[t.node] == Cell(t.bit, Root(t.left), Root(t.right)) && LinksIn(m, t.left) && LinksIn(m, t.right)
  }

  lemma {:induction false} LinksFrame(m: Memory, m': Memory, t: Shape)
    requires LinksIn(m, t) && forall n :: n in Downs(t) && n in m ==> n in m' && m'[n] == m[n]
    ensures LinksIn(m', t)
  {
    if t.Down? {
      LinksFrame(m, m', t.left);
      LinksFrame(m, m', t.right);
    }
  }

  ghost predicate Tree(t: Shape) {
    t.Down? ==> Disjoint(t) && Tree(t.left) && Tree(t.right)
  }

  lemma {:induction false} GoodTree(t: Shape, path: map<Node, nat>)
    requires Good(t, path)
    ensures Tree(t)
  {
    if t.Down? {
      GoodTree(t.left, path[t.node := t.bit]);
      GoodTree(t.right, path[t.node := t.bit]);
    }
  }

  /** A cell with the left or the right link changed. */
  function SetLink(c: Cell, right: bool, n: Node): Cell {
    if right then c.(right := n) else c.(left := n)
  }

  /** The memory after the link of g towards key has been set to n. */
  ghost function Relinked(m: Memory, g: Node, key: Key, n: Node): Memory
    requires g in m && m[g].b < 32
  {
    m[g := SetLink(m[g], key[m[g].b], n)]
  }

  lemma {:induction false} ParentCell(m: Memory, t: Shape, key: Key)
    requires t.Down? && Bits(t) && LinksIn(m, t)
    ensures Parent(t, key) in m && m[Parent(t, key)].b < 32
  {
    if Side(t, key).Down? {
      ParentCell(m, Side(t, key), key);
    }
  }

  /** Setting one link redirects the up-link at the end of key's path. */
  lemma {:induction false} RedirectLinks(m: Memory, t: Shape, key: Key, n: Node)
    requires t.Down? && Bits(t) && LinksIn(m, t) && Tree(t)
    ensures Parent(t, key) in m && m[Parent(t, key)].b < 32
    ensures LinksIn(Relinked(m, Parent(t, key), key, n), Redirect(t, key, n))
  {
    ParentCell(m, t, key);
    ParentIn(t, key);
    var m' := Relinked(m, Parent(t, key), key, n);
    if Side(t, key).Down? {
      ParentIn(Side(t, key), key);
      RedirectLinks(m, Side(t, key), key, n);
      RedirectKeys(Side(t, key), key, n);
      RootsKept(Side(t, key), key, n);
    }
    LinksFrame(m, m', Far(t, key));
  }

  lemma RootsKept(t: Shape, key: Key, n: Node)
    requires t.Down? && Bits(t)
    ensures Root(Redirect(t, key, n)) == Root(t)
  {
  }

  /** The subtree of the node from which key's path goes up, and the node above it. */
  function ParentShape(t: Shape, key: Key): (p: Shape)
    requires t.Down? && Bits(t)
    ensures p.Down? && Bits(p) && Side(p, key).Up? && p.node == Parent(t, key)
  {
    if Side(t, key).Up? then t else ParentShape(Side(t, key), key)
  }

  function Grand(t: Shape, key: Key): Node
    requires t.Down? && Bits(t) && Side(t, key).Down? && Bits(Side(t, key))
  {
    var s := Side(t, key);
    if Side(s, key).Up? then t.node else Grand(s, key)
  }

  /** What takes the parent's place. */
  function Rest(t: Shape, key: Key, own: Key): Shape
    requires t.Down? && Bits(t)
  {
    var p := ParentShape(t, key);
    Far(Redirect(p, own, Side(p, key).leaf.node), key)
  }

  lemma {:induction false} Positions(m: Memory, t: Shape, key: Key)
    requires t.Down? && Bits(t) && LinksIn(m, t) && Tree(t)
    ensures var p := ParentShape(t, key); LinksIn(m, p) && Tree(p) && Downs(p) <= Downs(t) && Side(p, key) == Up(Find(t, key))
    ensures Side(t, key).Down? ==> var g := Grand(t, key); g in m && m[g].b < 32 && g in Downs(t) && g !in Downs(ParentShape(t, key))
    ensures Side(t, key).Down? ==> Downs(ParentShape(t, key)) <= Downs(Side(t, key))
  {
    if Side(t, key).Down? {
      Positions(m, Side(t, key), key);
    }
  }

  /** The parent's up-link is redirected: what will take the parent's place is linked up. */
  lemma RestLinks(m: Memory, p: Shape, key: Key, own: Key)
    requires p.Down? && Bits(p) && LinksIn(m, p) && Tree(p) && Side(p, key).Up?
    ensures Parent(p, own) in m && m[Parent(p, own)].b < 32 && Parent(p, own) in Downs(p)
    ensures LinksIn(Relinked(m, Parent(p, own), own, Side(p, key).leaf.node), Far(Redirect(p, own, Side(p, key).leaf.node), key))
    ensures Downs(Far(Redirect(p, own, Side(p, key).leaf.node), key)) <= Downs(p)
  {
    var n := Side(p, key).leaf.node;
    RedirectLinks(m, p, own, n);
    ParentIn(p, own);
    RedirectKeys(p, own, n);
  }

  /** Both link updates together unlink the parent: first the one below it, then the one above. */
  lemma {:induction false} RemoveLinks(m: Memory, t: Shape, key: Key, own: Key, m1: Memory, m2: Memory)
    requires t.Down? && Bits(t) && Side(t, key).Down? && LinksIn(m, t) && Tree(t)
    requires var p := ParentShape(t, key);
      && Parent(p, own) in m && m[Parent(p, own)].b < 32 && m1 == Relinked(m, Parent(p, own), own, Side(p, key).leaf.node)
      && Grand(t, key) in m1 && m1[Grand(t, key)].b < 32 && m2 == Relinked(m1, Grand(t, key), key, Root(Rest(t, key, own)))
    ensures LinksIn(m2, Remove(t, key, own))
  {
    var side, p, g := Side(t, key), ParentShape(t, key), Grand(t, key);
    Positions(m, t, key);
    ParentIn(p, own);
    if Side(side, key).Up? {
      LinksFrame(m, m2, Far(t, key));
      RestLinks(m, p, key, own);
      LinksFrame(m1, m2, Rest(t, key, own));
    } else {
      Positions(m, side, key);
      LinksFrame(m, m2, Far(t, key));
      RemoveLinks(m, side, key, own, m1, m2);
      assert g != t.node;
    }
  }
}
