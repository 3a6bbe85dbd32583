/**
  pat_search, pat_insert and pat_remove on the heap (wolfbench/Benchmarks/patricia/patricia.c),
  for nodes with one mask: all ones except at the head.
*/
module Patricia {
  import opened Wrappers
  import opened PatriciaShape
  import opened PatriciaLinks
  import opened PatriciaMap

  /** t is the trie that hangs from head. */
  ghost predicate Trie(head: Node, t: Shape)
    reads Downs(t)
  {
    IsTrie(t, head, Entries(Downs(t))) && LinksIn(Cells(Downs(t)), t)
  }

  /** A cursor at the down-node c below the nodes of path. */
  ghost predicate Cursor(m: Memory, c: Shape, path: map<Node, nat>) {
    && c.Down? && c.bit < 32 && Bits(c) && LinksIn(m, c)
    && Good(c.left, path[c.node := c.bit]) && Good(c.right, path[c.node := c.bit])
    && forall q :: q in path ==> q in m && m[q].b == path[q] <= c.bit
  }

  /** What a program does before the first insertion: a head with the default entry, linked to itself. It stores nothing. */
  method Initialise(data: int) returns (head: Node, ghost t: Shape)
    ensures fresh(head) && head.key == Zeros() && head.mask == Zeros() && head.data == data
    ensures Trie(head, t) && Downs(t) == {head} && Bits(t) && forall k :: Get(t, head, k) == None
  {
    head := new Node(Zeros(), Zeros(), data);
    head.left, head.right := head, head;
    ghost var f := Leaf(head, Entry(Zeros(), Zeros(), data));
    t := Down(head, 0, Up(f), Up(f));
    assert Trie(head, t);
    forall k ensures Get(t, head, k) == None {
      assert Find(t, k) == Find(Side(t, k), k);
    }
  }

  lemma StartCursor(head: Node, t: Shape, m: Memory, v: map<Node, Entry>)
    requires IsTrie(t, head, v) && LinksIn(m, t)
    ensures Cursor(m, t, map[]) && t.node == head
  {
    TrieBits(t, head, v);
  }

  /** One step down: the bit comparison tells a down-link from an up-link. */
  lemma Step(m: Memory, c: Shape, path: map<Node, nat>, key: Key)
    requires Cursor(m, c, path)
    ensures c.Down? && c.bit < 32 && c.node in m && m[c.node] == Cell(c.bit, Root(c.left), Root(c.right))
    ensures Bits(c) && Bits(Side(c, key)) && Root(Side(c, key)) == if key[c.bit] then Root(c.right) else Root(c.left)
    ensures Root(Side(c, key)) in m && (c.bit < m[Root(Side(c, key))].b <==> Side(c, key).Down?)
    ensures Side(c, key).Down? ==> Cursor(m, Side(c, key), path[c.node := c.bit]) && Find(Side(c, key), key) == Find(c, key)
    ensures Side(c, key).Up? ==> Side(c, key).leaf == Find(c, key)
  {
    hide Disjoint, Sorted, Owns;
    var s, p := Side(c, key), path[c.node := c.bit];
    assert forall q :: q in p ==> q in m && m[q].b == p[q] <= c.bit;
    assert Good(s, p) && LinksIn(m, s) && Bits(s);
    hide Good, LinksIn, Bits;
    if s.Down? {
      Decompose(s, p);
      DownCell(m, s);
    } else {
      UpGoodInv(s.leaf, p);
    }
  }

  lemma DownCell(m: Memory, s: Shape)
    requires s.Down? && LinksIn(m, s) && Bits(s)
    ensures s.node in m && m[s.node].b == s.bit && s.bit < 32
  {
  }

  /** What the nodes of a trie store. */
  lemma NodeEntry(t: Shape, head: Node, v: map<Node, Entry>, n: Node)
    requires IsTrie(t, head, v) && n in Downs(t) && n in v
    ensures n == head ==> v[n].key == Zeros() && v[n].mask == Zeros()
    ensures n != head ==> v[n].mask == Ones() && Leaf(n, v[n]) in Leaves(t)
  {
    if n != head {
      var half := if n in Downs(t.left) then t.left else t.right;
      Owners(half, map[head := 0]);
      var f :| f in Leaves(half) && f.node == n;
      assert f in Leaves(t);
    }
  }

  /** The leaf a key leads to belongs to a node of the trie. */
  lemma FoundNode(t: Shape, head: Node, v: map<Node, Entry>, key: Key)
    requires IsTrie(t, head, v) && Bits(t)
    ensures Find(t, key).node in Downs(t) && Find(t, key).node in v && v[Find(t, key).node] == Find(t, key).entry
  {
    FindIn(t, key);
    LeavesOf(t, head, v, Find(t, key));
  }

  /** The test of pat_search at a node: it passes at the head and where the key is stored. */
  predicate Matches(key: Key, e: Entry) {
    e.key == And(key, e.mask)
  }

  lemma MatchMeans(t: Shape, head: Node, v: map<Node, Entry>, key: Key, n: Node)
    requires IsTrie(t, head, v) && n in Downs(t) && n in v
    ensures Matches(key, v[n]) <==> n == head || v[n].key == key
    ensures Bits(t) && (n != head && v[n].key == key ==> Find(t, key) == Leaf(n, v[n]))
  {
    Masked(key);
    TrieBits(t, head, v);
    NodeEntry(t, head, v, n);
    if n != head && v[n].key == key {
      TrieFindOwn(t, head, v, Leaf(n, v[n]));
    }
  }

  /** What pat_search answers: the node that stores the key, or the default. */
  ghost predicate IsAnswer(t: Shape, head: Node, v: map<Node, Entry>, key: Key, r: Node)
    requires Bits(t)
  {
    match Get(t, head, key)
    case None => r == head
    case Some(d) => r in Downs(t) && r != head && r in v && v[r] == Entry(key, Ones(), d)
  }

  lemma Answer(t: Shape, head: Node, v: map<Node, Entry>, key: Key, p: Node, r: Node)
    requires IsTrie(t, head, v) && Bits(t) && p in Downs(t) && p in v && (p == head || v[p].key == key)
    requires FoundAt(t, key, v, p, r)
    ensures IsAnswer(t, head, v, key, r)
  {
    var f := Find(t, key);
    FoundNode(t, head, v, key);
    MatchMeans(t, head, v, key, f.node);
    MatchMeans(t, head, v, key, p);
    NodeEntry(t, head, v, f.node);
  }

  ghost predicate FoundAt(t: Shape, key: Key, v: map<Node, Entry>, p: Node, r: Node)
    requires Bits(t)
  {
    var f := Find(t, key);
    f.node in v && r == if Matches(key, v[f.node]) then f.node else p
  }

  method PatSearch(key: Key, head: Node, ghost t: Shape) returns (r: Node)
    requires Trie(head, t)
    ensures Bits(t) && IsAnswer(t, head, Entries(Downs(t)), key, r)
  {
    hide IsTrie, LinksIn, Bits, Good, Find, Downs, Cursor, Matches;
    ghost var m, v := Cells(Downs(t)), Entries(Downs(t));
    StartCursor(head, t, m, v);
    TrieBits(t, head, v);
    var p: Node?, n := null, head;
    var i;
    ghost var c, path: map<Node, nat> := t, map[];
    while true
      invariant Cursor(m, c, path) && c.Down? && n == c.node && Bits(c) && Find(c, key) == Find(t, key)
      invariant if p == null then n == head else p in Downs(t) && (p == head || v[p].key == key)
      decreases c
    {
      Step(m, c, path, key);
      MatchMeans(t, head, v, key, n);
      if Matches(key, Entry(n.key, n.mask, n.data)) {
        p := n;
      }
      i := n.b;
      n := if key[n.b] then n.right else n.left;
      if !(i < n.b) {
        break;
      }
      c, path := Side(c, key), path[c.node := c.bit];
    }
    FoundNode(t, head, v, key);
    r := if Matches(key, Entry(n.key, n.mask, n.data)) then n else p;
    Answer(t, head, v, key, p, r);
  }

  // ------------------------------------------------------------------ insert

  /** The descent of pat_insert: the node that the key leads to. */
  method Closest(key: Key, head: Node, ghost t: Shape) returns (n: Node)
    requires Trie(head, t)
    ensures Bits(t) && n == Find(t, key).node && n in Downs(t) && Entry(n.key, n.mask, n.data) == Find(t, key).entry
  {
    hide IsTrie, LinksIn, Bits, Good, Find, Downs, Cursor;
    ghost var m, v := Cells(Downs(t)), Entries(Downs(t));
    StartCursor(head, t, m, v);
    TrieBits(t, head, v);
    n := head;
    ghost var c, path: map<Node, nat> := t, map[];
    while true
      invariant Cursor(m, c, path) && c.Down? && n == c.node && Bits(c) && Find(c, key) == Find(t, key)
      decreases c
    {
      Step(m, c, path, key);
      var i := n.b;
      n := if key[n.b] then n.right else n.left;
      if !(i < n.b) {
        break;
      }
      c, path := Side(c, key), path[c.node := c.bit];
    }
    FoundNode(t, head, v, key);
  }

  /** The scan of pat_insert for the first bit, from 1 on, in which two keys differ; 32 if there is none. */
  method FirstBit(a: Key, b: Key) returns (i: nat)
    ensures if exists k :: 1 <= k < 32 && a[k] != b[k] then FirstDifference(a, b, i) else i == 32
  {
    i := 1;
    while i < 32 && a[i] == b[i]
      invariant 1 <= i <= 32 && forall k :: 1 <= k < i ==> a[k] == b[k]
    {
      i := i + 1;
    }
  }

  /** Where insertR stands: at a link from the path to c. */
  ghost predicate AtLink(m: Memory, c: Shape, path: map<Node, nat>, p: Node) {
    && Good(c, path) && LinksIn(m, c) && p in path && Root(c) in m
    && forall q :: q in path ==> q in m && m[q].b == path[q] <= path[p]
  }

  lemma NextLink(m: Memory, c: Shape, path: map<Node, nat>, p: Node, d: nat)
    requires AtLink(m, c, path, p) && Bits(c) && p in m && m[p].b < d < 32
    ensures LinksIn(m, c) && Root(c) in m && (m[Root(c)].b >= d || m[Root(c)].b <= m[p].b <==> c.Up? || c.bit >= d)
  {
    if c.Down? {
      Decompose(c, path);
    }
  }

  lemma SidesApart(c: Shape, key: Key)
    requires c.Down? && c.bit < 32 && Disjoint(c)
    ensures Downs(Side(c, key)) <= Downs(c) && c.node !in Downs(Side(c, key)) && c.node in Downs(c)
    ensures Downs(Far(c, key)) <= Downs(c) && Downs(Far(c, key)) !! Downs(Side(c, key))
  {
  }

  lemma AtLinkMeans(m: Memory, c: Shape, path: map<Node, nat>, p: Node)
    requires AtLink(m, c, path, p)
    ensures Good(c, path) && LinksIn(m, c) && p in path && Root(c) in m
    ensures forall q :: q in path ==> q in m && m[q].b == path[q] <= path[p]
  {
    hide Good, LinksIn;
  }

  lemma DownMeans(m: Memory, c: Shape, path: map<Node, nat>, key: Key)
    requires Good(c, path) && LinksIn(m, c) && Bits(c) && c.Down?
    ensures c.bit < 32 && c.node in m && m[c.node] == Cell(c.bit, Root(c.left), Root(c.right)) && Disjoint(c) && Tree(c)
    ensures Good(Side(c, key), path[c.node := c.bit]) && LinksIn(m, Side(c, key)) && Bits(Side(c, key))
    ensures forall q :: q in path ==> path[q] < c.bit
  {
    GoodTree(c, path);
    hide Disjoint, Sorted, Owns, Tree;
  }

  lemma GoDown(m: Memory, c: Shape, path: map<Node, nat>, p: Node, key: Key)
    requires AtLink(m, c, path, p) && Bits(c) && c.Down?
    ensures c.node in m && m[c.node] == Cell(c.bit, Root(c.left), Root(c.right)) && Tree(c)
    ensures AtLink(m, Side(c, key), path[c.node := c.bit], c.node) && Bits(Side(c, key))
    ensures Downs(Side(c, key)) <= Downs(c) && c.node !in Downs(Side(c, key)) && c.node in Downs(c)
    ensures Downs(Far(c, key)) <= Downs(c) && Downs(Far(c, key)) !! Downs(Side(c, key))
  {
    hide *;
    var next := path[c.node := c.bit];
    AtLinkMeans(m, c, path, p);
    DownMeans(m, c, path, key);
    SidesApart(c, key);
    AllInMemory(m, Side(c, key), next);
    IsAtLink(m, Side(c, key), next, c.node);
  }

  lemma IsAtLink(m: Memory, c: Shape, path: map<Node, nat>, p: Node)
    requires Good(c, path) && LinksIn(m, c) && p in path && Root(c) in m
    requires forall q :: q in path ==> q in m && m[q].b == path[q] <= path[p]
    ensures AtLink(m, c, path, p)
  {
  }

  lemma AllInMemory(m: Memory, c: Shape, path: map<Node, nat>)
    requires Good(c, path) && LinksIn(m, c) && forall q :: q in path ==> q in m
    ensures Root(c) in m
  {
  }

  lemma LinkedHere(m: Memory, m': Memory, c: Shape, f: Leaf, d: nat)
    requires LinksIn(m, c) && Bits(c) && f.node !in Downs(c) && f.node !in m && d < 32 && (c.Up? || c.bit >= d)
    requires m' == m[f.node := Cell(d, if f.entry.key[d] then Root(c) else f.node, if f.entry.key[d] then f.node else Root(c))]
    ensures LinksIn(m', Insert(c, f, d)) && Root(Insert(c, f, d)) == f.node
  {
    LinksFrame(m, m', c);
  }

  lemma LinkedBelow(m: Memory, m1: Memory, m2: Memory, c: Shape, f: Leaf, d: nat)
    requires c.Down? && LinksIn(m, c) && Bits(c) && Tree(c) && c.bit < d < 32 && f.node !in Downs(c)
    requires var key := f.entry.key; var s := Insert(Side(c, key), f, d);
      && LinksIn(m1, s) && c.node in m1 && m1[c.node] == m[c.node] && m2 == m1[c.node := SetLink(m1[c.node], key[c.bit], Root(s))]
    requires forall q :: q in Downs(Far(c, f.entry.key)) && q in m ==> q in m1 && m1[q] == m[q]
    ensures LinksIn(m2, Insert(c, f, d)) && Root(Insert(c, f, d)) == c.node
  {
    var key := f.entry.key;
    var s := Insert(Side(c, key), f, d);
    Inserted(Side(c, key), f, d);
    LinksFrame(m1, m2, s);
    LinksFrame(m, m2, Far(c, key));
  }

  method SetChild(h: Node, right: bool, q: Node, ghost region: set<Node>)
    requires h in region
    modifies h`left, h`right
    ensures Cells(region) == old(Cells(region))[h := SetLink(old(Cells(region))[h], right, q)]
  {
    if right {
      h.right := q;
    } else {
      h.left := q;
    }
  }

  /** The base case of insertR: n tests bit d, with its own up-link on its side and h on the other. */
  method SetTest(n: Node, d: nat, h: Node, ghost region: set<Node>)
    requires n !in region && d < 32
    modifies n`b, n`left, n`right
    ensures Cells(region + {n}) == old(Cells(region))[n := Cell(d, if n.key[d] then h else n, if n.key[d] then n else h)]
  {
    n.b := d;
    n.left := if n.key[d] then h else n;
    n.right := if n.key[d] then n else h;
  }

  /** Links n in above the first node that tests a later bit, or above an up-link. */
  method InsertR(h: Node, n: Node, d: nat, p: Node, ghost c: Shape, ghost path: map<Node, nat>, ghost region: set<Node>) returns (r: Node)
    requires n !in region && p in region && Downs(c) <= region && h == Root(c) && Bits(c)
    requires AtLink(Cells(region), c, path, p) && p.b < d < 32
    modifies Downs(c)`left, Downs(c)`right, n`b, n`left, n`right
    ensures var f := Leaf(n, Entry(n.key, n.mask, n.data));
      LinksIn(Cells(region + {n}), Insert(c, f, d)) && r == Root(Insert(c, f, d))
    decreases c
  {
    hide Good, LinksIn, Bits, AtLink, Insert, Tree, Downs, Far, SetLink;
    ghost var m, f := Cells(region), Leaf(n, Entry(n.key, n.mask, n.data));
    NextLink(m, c, path, p, d);
    if h.b >= d || h.b <= p.b {
      SetTest(n, d, h, region);
      LinkedHere(m, Cells(region + {n}), c, f, d);
      return n;
    }
    GoDown(m, c, path, p, n.key);
    var right := n.key[h.b];
    var q := InsertR(if right then h.right else h.left, n, d, h, Side(c, n.key), path[h := c.bit], region);
    ghost var m1 := Cells(region + {n});
    assert forall x :: x in region && x !in Downs(Side(c, n.key)) ==> m1[x] == m[x];
    SetChild(h, right, q, region + {n});
    LinkedBelow(m, m1, Cells(region + {n}), c, f, d);
    return h;
  }

  lemma TrieOf(head: Node, t: Shape, region: set<Node>)
    requires Downs(t) == region && IsTrie(t, head, Entries(region)) && LinksIn(Cells(region), t)
    ensures Trie(head, t)
  {
  }

  /** The recursive step of pat_insert, on the links. */
  method LinkBelow(n: Node, head: Node, d: nat, ghost t: Shape, ghost region: set<Node>)
    requires region == Downs(t) && n !in region && t.Down? && t.node == head && t.bit == 0 && Bits(t) && Tree(t) && 0 < d < 32
    requires LinksIn(Cells(region), t) && AtLink(Cells(region), Side(t, n.key), map[head := 0], head)
    modifies region`left, region`right, n`b, n`left, n`right
    ensures LinksIn(Cells(region + {n}), Insert(t, Leaf(n, Entry(n.key, n.mask, n.data)), d))
  {
    ghost var m, f := Cells(region), Leaf(n, Entry(n.key, n.mask, n.data));
    assert m[head] == Cell(0, Root(t.left), Root(t.right));
    SidesApart(t, n.key);
    hide LinksIn, Bits, Insert, Tree, Downs, AtLink;
    var right := n.key[head.b];
    var q := InsertR(if right then head.right else head.left, n, d, head, Side(t, n.key), map[head := 0], region);
    ghost var m1 := Cells(region + {n});
    SetChild(head, right, q, region + {n});
    LinkedBelow(m, m1, Cells(region + {n}), t, f, d);
  }

  lemma Lookups(t: Shape, head: Node, v: map<Node, Entry>, f: Leaf, d: nat, t': Shape, v': map<Node, Entry>)
    requires IsTrie(t, head, v) && f.node != head && Bits(t) && d < 32 && f.entry.mask == Ones() && f.entry.key != Find(t, f.entry.key).entry.key
    requires t' == Insert(t, f, d) && v' == v[f.node := f.entry] && IsTrie(t', head, v') && Bits(t')
    ensures forall k: Key :: Get(t', head, k) == if k == f.entry.key then Some(f.entry.data) else Get(t, head, k)
  {
    forall k: Key ensures Get(t', head, k) == if k == f.entry.key then Some(f.entry.data) else Get(t, head, k) {
      GetInserted(t, head, v, f, d, k);
    }
  }

  /** What linking n in at bit d will amount to. */
  lemma Plan(n: Node, head: Node, d: nat, t: Shape, region: set<Node>, f: Leaf)
    requires Trie(head, t) && region == Downs(t) && n !in region && n.mask == Ones() && Bits(t)
    requires f == Leaf(n, Entry(n.key, n.mask, n.data)) && FirstDifference(n.key, Find(t, n.key).entry.key, d)
    ensures t.Down? && t.node == head && t.bit == 0 && Tree(t) && 0 < d < 32 && head != n
    ensures LinksIn(Cells(region), t) && AtLink(Cells(region), Side(t, n.key), map[head := 0], head)
    ensures Bits(Insert(t, f, d)) && Downs(Insert(t, f, d)) == region + {n} && IsTrie(Insert(t, f, d), head, Entries(region + {n}))
    ensures forall k: Key :: Get(Insert(t, f, d), head, k) == if k == n.key then Some(n.data) else Get(t, head, k)
  {
    assert Entries(region + {n}) == Entries(region)[n := f.entry];
    hide LinksIn, Insert, Find, IsTrie, AtLink, Agree;
    TopLink(head, t, Cells(region), Entries(region), n.key);
    Inserted(t, f, d);
    TrieInsert(t, head, Entries(region), f, d);
    hide Get;
    assert f.node != head && f.entry.key != Find(t, f.entry.key).entry.key;
    Lookups(t, head, Entries(region), f, d, Insert(t, f, d), Entries(region + {n}));
  }

  /** The end of pat_insert: links n in below the head. */
  method LinkIn(n: Node, head: Node, d: nat, ghost t: Shape) returns (ghost t': Shape)
    requires Trie(head, t) && n !in Downs(t) && n.mask == Ones() && Bits(t) && FirstDifference(n.key, Find(t, n.key).entry.key, d)
    modifies Downs(t)`left, Downs(t)`right, n`b, n`left, n`right
    ensures Trie(head, t') && Bits(t') && Downs(t') == Downs(t) + {n} && head != n
    ensures forall k: Key :: Get(t', head, k) == if k == n.key then Some(n.data) else Get(t, head, k)
  {
    hide *;
    ghost var region, f := Downs(t), Leaf(n, Entry(n.key, n.mask, n.data));
    Plan(n, head, d, t, region, f);
    t' := Insert(t, f, d);
    ghost var v' := Entries(region + {n});
    LinkBelow(n, head, d, t, region);
    assert Entries(region + {n}) == v';
    TrieOf(head, t', region + {n});
  }

  lemma TopLink(head: Node, t: Shape, m: Memory, v: map<Node, Entry>, key: Key)
    requires IsTrie(t, head, v) && LinksIn(m, t)
    ensures t.Down? && t.bit == 0 && Bits(t) && Tree(t) && t.node == head && head in m && m[head] == Cell(0, Root(t.left), Root(t.right))
    ensures Side(t, key) == (if key[0] then t.right else t.left) && Bits(Side(t, key)) && AtLink(m, Side(t, key), map[head := 0], head)
    ensures Downs(Side(t, key)) <= Downs(t) && head !in Downs(Side(t, key)) && head in Downs(t)
    ensures Downs(Far(t, key)) <= Downs(t) && Downs(Far(t, key)) !! Downs(Side(t, key))
  {
    TrieBits(t, head, v);
    SidesApart(t, key);
    AllInMemory(m, Side(t, key), map[head := 0]);
  }

  /** What replacing the data of the key will amount to. */
  lemma ReplacePlan(t: Shape, head: Node, v: map<Node, Entry>, key: Key, e: Entry)
    requires IsTrie(t, head, v) && Bits(t) && Find(t, key).node != head && Find(t, key).entry.key == key == e.key && e.mask == Ones()
    ensures var t' := Restore(t, key, e); var c := Find(t, key).node;
      && c in Downs(t) && c in v && v[c].key == key && v[c].mask == Ones()
      && IsTrie(t', head, v[c := e]) && Bits(t') && Downs(t') == Downs(t)
      && forall k: Key :: Get(t', head, k) == if k == key then Some(e.data) else Get(t, head, k)
  {
    var t', f := Restore(t, key, e), Find(t, key);
    FindIn(t, key);
    FoundNode(t, head, v, key);
    NodeEntry(t, head, v, f.node);
    TrieRestore(t, head, v, key, e);
    hide *;
    forall k: Key ensures Get(t', head, k) == if k == key then Some(e.data) else Get(t, head, k) {
      GetRestored(t, head, v, t', v[f.node := e], f, e, k);
    }
  }

  /** An equal key: the data is replaced. */
  method Replace(c: Node, n: Node, head: Node, ghost t: Shape) returns (ghost t': Shape)
    requires Trie(head, t) && Bits(t) && c == Find(t, n.key).node && c != head && Find(t, n.key).entry.key == n.key
    modifies c`data
    ensures Trie(head, t') && Bits(t') && Downs(t') == Downs(t) && c.data == old(n.data)
    ensures forall k: Key :: Get(t', head, k) == if k == n.key then Some(old(n.data)) else Get(t, head, k)
  {
    ghost var region, v, e := Downs(t), Entries(Downs(t)), Entry(n.key, Ones(), n.data);
    t' := Restore(t, n.key, e);
    hide IsTrie, LinksIn, Restore, Find, Bits, Downs, Get;
    ReplacePlan(t, head, v, n.key, e);
    RestoreLinks(Cells(region), t, n.key, e);
    SetData(c, n.data, region);
    hide *;
    TrieOf(head, t', region);
  }

  /** Only the entry of the node changes. */
  method SetData(c: Node, data: int, ghost region: set<Node>)
    requires c in region
    modifies c`data
    ensures c.data == data && Cells(region) == old(Cells(region)) && Entries(region) == old(Entries(region))[c := Entry(c.key, c.mask, data)]
  {
    c.data := data;
  }

  lemma NotHead(head: Node, t: Shape, key: Key, c: Node)
    requires Trie(head, t) && Bits(t) && c == Find(t, key).node && exists i :: 1 <= i < 32 && key[i]
    requires c in Downs(t) && c.key == Find(t, key).entry.key
    ensures key == c.key ==> c != head
    ensures key != c.key ==> exists i :: 1 <= i < 32 && key[i] != c.key[i]
  {
    var v := Entries(Downs(t));
    NodeEntry(t, head, v, c);
    if key != c.key {
      Differs(t, head, v, key);
    }
  }

  lemma {:induction false} NodesAllocated(t: Shape)
    ensures forall n :: n in Downs(t) ==> allocated(n)
  {
    if t.Down? {
      NodesAllocated(t.left);
      NodesAllocated(t.right);
    }
  }

  /** pat_insert after the key has been made to match the mask. */
  method Store(n: Node, head: Node, ghost t: Shape) returns (r: Node, ghost t': Shape)
    requires Trie(head, t) && n !in Downs(t) && n.mask == Ones() && exists i :: 1 <= i < 32 && n.key[i]
    modifies Downs(t)`left, Downs(t)`right, Downs(t)`data, n`b, n`left, n`right
    ensures Trie(head, t') && Bits(t) && Bits(t') && Downs(t') <= Downs(t) + {n}
    ensures forall k: Key :: Get(t', head, k) == if k == n.key then Some(n.data) else Get(t, head, k)
    ensures r in Downs(t') && r != head && r.key == n.key && r.data == n.data
  {
    hide *;
    NodesAllocated(t);
    var c := Closest(n.key, head, t);
    NotHead(head, t, n.key, c);
    if n.key == c.key {
      t' := Replace(c, n, head, t);
      return c, t';
    }
    var i := FirstBit(n.key, c.key);
    t' := LinkIn(n, head, i, t);
    return n, t';
  }

  /** Inserts the key with its data, or replaces the data it had; every other key keeps what it had. */
  method PatInsert(n: Node, head: Node, ghost t: Shape) returns (r: Node, ghost t': Shape)
    requires Trie(head, t) && n !in Downs(t) && n.mask == Ones() && exists i :: 1 <= i < 32 && n.key[i]
    modifies Downs(t), n
    ensures Trie(head, t') && Bits(t) && Bits(t') && Downs(t') <= Downs(t) + {n}
    ensures forall k: Key :: Get(t', head, k) == if k == old(n.key) then Some(old(n.data)) else Get(t, head, k)
    ensures r in Downs(t') && r != head && r.key == old(n.key) && r.data == old(n.data)
  {
    hide *;
    NodesAllocated(t);
    Masked(n.key);
    n.key := And(n.key, n.mask);
    assert Trie(head, t);
    r, t' := Store(n, head, t);
  }

  // ------------------------------------------------------------------ remove

  /** The cursor c is on key's path in t; unless it is at the top, p is the node above it. */
  ghost predicate Tracked(t: Shape, top: bool, c: Shape, before: Shape, key: Key, p: Node) {
    && t.Down? && Bits(t) && c.Down? && Bits(c) && ParentShape(c, key) == ParentShape(t, key) && Find(c, key) == Find(t, key)
    && if top then c == t else
      && before.Down? && Bits(before) && Side(before, key) == c && p == before.node
      && Side(t, key).Down? && Bits(Side(t, key)) && Grand(before, key) == Grand(t, key)
  }

  lemma TrackStep(t: Shape, top: bool, c: Shape, before: Shape, key: Key, p: Node)
    requires Tracked(t, top, c, before, key, p) && Side(c, key).Down?
    ensures Tracked(t, false, Side(c, key), c, key, c.node)
  {
  }

  /** The search has ended at c with p above it. */
  lemma TrackEnd(t: Shape, top: bool, c: Shape, before: Shape, key: Key, p: Node, head: Node, m: Memory, v: map<Node, Entry>)
    requires Tracked(t, top, c, before, key, p) && Side(c, key).Up? && IsTrie(t, head, v) && LinksIn(m, t)
    ensures c == ParentShape(t, key) && c.node == Parent(t, key) && Parent(t, key) in Downs(t)
    ensures Find(t, key).node != head ==> Side(t, key).Down? && Bits(Side(t, key)) && p == Grand(t, key) && p in Downs(t)
  {
    BelowHead(t, head, v, key);
    TrieBits(t, head, v);
    ParentIn(t, key);
    hide IsTrie;
    Positions(m, t, key);
  }

  /** The search of pat_remove: the target, its parent and the node above that. */
  method Locate(key: Key, head: Node, ghost t: Shape) returns (g: Node, p: Node, n: Node, ghost path: map<Node, nat>)
    requires Trie(head, t)
    ensures Bits(t) && n == Find(t, key).node && n in Downs(t) && Entry(n.key, n.mask, n.data) == Find(t, key).entry
    ensures t.Down? && p == Parent(t, key) && p in Downs(t) && Cursor(Cells(Downs(t)), ParentShape(t, key), path)
    ensures n != head ==> Side(t, key).Down? && Bits(Side(t, key)) && g == Grand(t, key) && g in Downs(t)
  {
    hide IsTrie, LinksIn, Bits, Good, Find, Downs, Cursor, Grand, ParentShape, Parent, Tracked;
    ghost var m, v := Cells(Downs(t)), Entries(Downs(t));
    StartCursor(head, t, m, v);
    TrieBits(t, head, v);
    g, p, n := head, head, head;
    ghost var c, before, top := t, t, true;
    path := map[];
    TrackStart(t, key, head);
    while true
      invariant Cursor(m, c, path) && c.Down? && n == c.node && Tracked(t, top, c, before, key, p)
      decreases c
    {
      Step(m, c, path, key);
      var i := n.b;
      g := p;
      p := n;
      n := if key[n.b] then n.right else n.left;
      if !(i < n.b) {
        break;
      }
      TrackStep(t, top, c, before, key, g);
      top, before, c, path := false, c, Side(c, key), path[c.node := c.bit];
    }
    Same(t, top, c, before, key, g);
    TrackEnd(t, top, c, before, key, g, head, m, v);
    FoundNode(t, head, v, key);
  }

  lemma TrackStart(t: Shape, key: Key, p: Node)
    requires t.Down? && Bits(t)
    ensures Tracked(t, true, t, t, key, p)
  {
  }

  lemma Same(t: Shape, top: bool, c: Shape, before: Shape, key: Key, p: Node)
    requires Tracked(t, top, c, before, key, p)
    ensures Bits(c) && Bits(t) && Find(c, key) == Find(t, key) && t.Down?
  {
  }

  /** The second search of pat_remove: the node whose up-link leads to p. */
  method UpLink(p: Node, ghost c: Shape, ghost path: map<Node, nat>, ghost region: set<Node>) returns (pp: Node)
    requires Cursor(Cells(region), c, path) && p == c.node && p in region
    ensures Bits(c) && pp == Parent(c, p.key)
  {
    ghost var m, d, pathD: map<Node, nat> := Cells(region), c, path;
    Step(m, c, path, p.key);
    hide LinksIn, Bits, Good, Downs, Cursor, Parent, Find;
    var pt := p;
    while true
      invariant Cursor(m, d, pathD) && pt == d.node && Bits(d) && Parent(d, p.key) == Parent(c, p.key)
      decreases d
    {
      Step(m, d, pathD, p.key);
      var i := pt.b;
      pp := pt;
      pt := if p.key[pt.b] then pt.right else pt.left;
      ParentStep(d, p.key);
      if !(i < pt.b) {
        break;
      }
      d, pathD := Side(d, p.key), pathD[d.node := d.bit];
    }
  }

  lemma ParentStep(c: Shape, key: Key)
    requires c.Down? && Bits(c)
    ensures Bits(Side(c, key)) && if Side(c, key).Up? then Parent(c, key) == c.node else Parent(c, key) == Parent(Side(c, key), key)
  {
  }

  /** What pat_remove reads to find the subtree that takes p's place, after the first update. */
  lemma RestRoot(m: Memory, p: Shape, key: Key, own: Key, n: Node, m1: Memory)
    requires p.Down? && Bits(p) && LinksIn(m, p) && Tree(p) && Side(p, key) == Up(Leaf(n, Find(p, key).entry))
    requires Parent(p, own) in m && m[Parent(p, own)].b < 32 && m1 == Relinked(m, Parent(p, own), own, n)
    ensures p.node in m1 && m1[p.node].b == p.bit
    ensures (if key[p.bit] then m1[p.node].left else m1[p.node].right) == Root(Far(Redirect(p, own, n), key))
  {
    RedirectLinks(m, p, own, n);
  }

  lemma Prepared(m: Memory, t: Shape, head: Node, v: map<Node, Entry>, key: Key, own: Key)
    requires t.Down? && Bits(t) && LinksIn(m, t) && IsTrie(t, head, v) && Side(t, key).Down? && Bits(Side(t, key))
    ensures Tree(t)
    ensures var p := ParentShape(t, key);
      && LinksIn(m, p) && Tree(p) && p.bit < 32 && Side(p, key) == Up(Find(t, key)) && Find(p, key) == Find(t, key)
      && Parent(p, own) in Downs(t) && Parent(p, own) in m && m[Parent(p, own)].b < 32
      && Grand(t, key) in m && m[Grand(t, key)].b < 32 && Grand(t, key) in Downs(t) && Grand(t, key) !in Downs(p) && Parent(p, own) in Downs(p)
  {
    TrieBits(t, head, v);
    Positions(m, t, key);
    ParentCell(m, ParentShape(t, key), own);
    ParentIn(ParentShape(t, key), own);
  }

  /** The two link updates of pat_remove. */
  method Unlink(g: Node, p: Node, pp: Node, n: Node, key: Key, own: Key, head: Node, ghost t: Shape, ghost region: set<Node>)
    requires Bits(t) && t.Down? && LinksIn(Cells(region), t) && IsTrie(t, head, Entries(region)) && region == Downs(t)
    requires Side(t, key).Down? && Bits(Side(t, key)) && p == Parent(t, key) && g == Grand(t, key) && pp == Parent(ParentShape(t, key), own)
    requires n == Find(t, key).node && p in region
    modifies region`left, region`right
    ensures LinksIn(Cells(region), Remove(t, key, own))
  {
    ghost var m, ps := Cells(region), ParentShape(t, key);
    Prepared(m, t, head, Entries(region), key, own);
    hide Bits, LinksIn, IsTrie, Downs, Grand, Parent, ParentShape, Remove, Redirect, Tree, Find;
    SetChild(pp, own[pp.b], n, region);
    ghost var m1 := Cells(region);
    RestRoot(m, ps, key, own, n, m1);
    var rest := if key[p.b] then p.left else p.right;
    SetChild(g, key[g.b], rest, region);
    RemoveLinks(m, t, key, own, m1, Cells(region));
  }

  /** Only the head tests bit 0. */
  lemma {:induction false} TestsLater(m: Memory, t: Shape, path: map<Node, nat>, head: Node, n: Node)
    requires Good(t, path) && LinksIn(m, t) && head in path && n in Downs(t)
    ensures n in m && m[n].b > path[head]
  {
    if n != t.node {
      TestsLater(m, if n in Downs(t.left) then t.left else t.right, path[t.node := t.bit], head, n);
    }
  }

  lemma HeadTestsFirst(m: Memory, t: Shape, head: Node, v: map<Node, Entry>, n: Node)
    requires IsTrie(t, head, v) && LinksIn(m, t) && n in Downs(t)
    ensures n in m && (m[n].b == 0 <==> n == head)
  {
    if n != head {
      TestsLater(m, if n in Downs(t.left) then t.left else t.right, map[head := 0], head, n);
    }
  }

  /** What removing the key will amount to. */
  lemma RemovePlan(t: Shape, head: Node, v: map<Node, Entry>, key: Key)
    requires IsTrie(t, head, v) && Bits(t) && Find(t, key).node != head && Find(t, key).entry.key == key
    ensures Side(t, key).Down? && var p, f := Parent(t, key), Find(t, key);
      && p in v && p in Downs(t) && f.node in Downs(t) && var r := Remove(t, key, v[p].key);
      && IsTrie(r, head, v[f.node := v[p]]) && Bits(r) && Downs(r) == Downs(t) - {p} && Get(t, head, key).Some?
      && forall k: Key :: Get(r, head, k) == if k == key then None else Get(t, head, k)
  {
    var p, f := Parent(t, key), Find(t, key);
    TrieRemove(t, head, v, key);
    FindIn(t, key);
    FoundNode(t, head, v, key);
    NodeEntry(t, head, v, p);
    var r := Remove(t, key, v[p].key);
    forall k: Key ensures Get(r, head, k) == if k == key then None else Get(t, head, k) {
      GetRemoved(t, head, v, r, v[f.node := v[p]], f, p, k);
    }
  }

  /** Moves what the parent stored to the target; the parent is freed. */
  method TakeOver(n: Node, p: Node, head: Node, ghost t': Shape, ghost region: set<Node>, ghost v: map<Node, Entry>)
    requires n in region && p in region && v == Entries(region) && Downs(t') == region - {p}
    requires LinksIn(Cells(region), t') && IsTrie(t', head, v[n := v[p]])
    modifies n`key, n`mask, n`data
    ensures Trie(head, t')
  {
    ghost var m := Cells(region);
    hide IsTrie, LinksIn, Downs;
    if n != p {
      n.key, n.mask, n.data := p.key, p.mask, p.data;
    }
    assert Cells(region) == m;
    assert forall x :: x in region - {p} ==> Entries(region - {p})[x] == v[n := v[p]][x];
    assert forall x :: x in region - {p} ==> Cells(region - {p})[x] == m[x];
    LinksFrame(m, Cells(region - {p}), t');
    SameEntries(t', head, v[n := v[p]], Entries(region - {p}));
    TrieOf(head, t', region - {p});
  }

  lemma SameEntries(t: Shape, head: Node, v: map<Node, Entry>, v': map<Node, Entry>)
    requires IsTrie(t, head, v) && forall n :: n in Downs(t) ==> n in v' && (n in v ==> v'[n] == v[n])
    ensures IsTrie(t, head, v')
  {
    forall f | f in Leaves(t) ensures f.node in Downs(t) {
      LeavesOf(t, head, v, f);
    }
    HalfOther(t.left, head, false, v, v');
    HalfOther(t.right, head, true, v, v');
  }

  /** The part of pat_remove after its checks. */
  method RemoveNode(g: Node, p: Node, c: Node, key: Key, head: Node, ghost t: Shape, ghost path: map<Node, nat>) returns (ghost t': Shape)
    requires Trie(head, t) && Bits(t) && c == Find(t, key).node && c != head && Find(t, key).entry.key == key
    requires t.Down? && p == Parent(t, key) && p in Downs(t) && Cursor(Cells(Downs(t)), ParentShape(t, key), path)
    requires Side(t, key).Down? && Bits(Side(t, key)) && g == Grand(t, key)
    modifies Downs(t)
    ensures Trie(head, t') && Bits(t') && Downs(t') == Downs(t) - {p} && Get(t, head, key).Some?
    ensures forall k: Key :: Get(t', head, k) == if k == key then None else Get(t, head, k)
  {
    hide *;
    ghost var region, v := Downs(t), Entries(Downs(t));
    var own := p.key;
    Ready(head, t, p, key);
    NodesAllocated(t);
    t' := Remove(t, key, own);
    var pp := UpLink(p, ParentShape(t, key), path, region);
    Unlink(g, p, pp, c, key, own, head, t, region);
    assert Entries(region) == v;
    TakeOver(c, p, head, t', region, v);
  }

  lemma Ready(head: Node, t: Shape, p: Node, key: Key)
    requires Trie(head, t) && Bits(t) && Find(t, key).node != head && Find(t, key).entry.key == key
    requires t.Down? && p == Parent(t, key) && p in Downs(t)
    ensures var v, f, r := Entries(Downs(t)), Find(t, key), Remove(t, key, p.key);
      && LinksIn(Cells(Downs(t)), t) && IsTrie(t, head, v) && f.node in Downs(t) && p in v && f.node in v
      && IsTrie(r, head, v[f.node := v[p]]) && Bits(r) && Downs(r) == Downs(t) - {p} && Get(t, head, key).Some?
      && forall k: Key :: Get(r, head, k) == if k == key then None else Get(t, head, k)
  {
    var v := Entries(Downs(t));
    hide IsTrie, LinksIn, Bits, Find, Remove, Downs, Get, Parent;
    RemovePlan(t, head, v, key);
    assert v[p].key == p.key;
  }

  lemma NoEntry(head: Node, t: Shape, key: Key, c: Node)
    requires Trie(head, t) && Bits(t) && c == Find(t, key).node && c in Downs(t) && Entry(c.key, c.mask, c.data) == Find(t, key).entry
    ensures c.b == 0 <==> c == head
    ensures c != head ==> c.mask == Ones()
    ensures c.key != key || c == head ==> Get(t, head, key) == None
    ensures c.key == key && c != head ==> Get(t, head, key).Some?
  {
    HeadTestsFirst(Cells(Downs(t)), t, head, Entries(Downs(t)), c);
    NodeEntry(t, head, Entries(Downs(t)), c);
  }

  /** Removes the key if it is there under this mask; every other key keeps what it had, and one node leaves the trie. */
  method PatRemove(n: Node, head: Node, ghost t: Shape) returns (removed: bool, ghost t': Shape)
    requires Trie(head, t) && n !in Downs(t)
    modifies Downs(t)
    ensures Trie(head, t') && Bits(t) && Bits(t')
    ensures removed <==> Get(t, head, n.key).Some? && n.mask == Ones()
    ensures !removed ==> t' == t
    ensures removed ==> forall k: Key :: Get(t', head, k) == if k == n.key then None else Get(t, head, k)
    ensures removed ==> exists p :: p in Downs(t) && Downs(t') == Downs(t) - {p}
  {
    hide *;
    NodesAllocated(t);
    var g, p, c; ghost var path;
    g, p, c, path := Locate(n.key, head, t);
    NoEntry(head, t, n.key, c);
    t' := t;
    if c.key != n.key {
      return false, t;
    }
    if c.b == 0 {
      return false, t;
    }
    if c.mask != n.mask {
      return false, t;
    }
    t' := RemoveNode(g, p, c, n.key, head, t, path);
    removed := true;
  }
}
