/**
  Prim's algorithm over a shrinking list of vertices (BlueRule, Do_all_BlueRule and ComputeMst
  of wolfbench/Benchmarks/mst/main.c). Edge weights are read from the hash table of each vertex.
*/
module Prim {
  import opened HashTable
  import opened SpanningTree

  const INFINITE := 9999999

  class Vertex {
    /** The vertex's address, the key under which others store the edge to it. */
    const key: nat
    const edgehash: Hash
    var mindist: int
    var next: Vertex?

    constructor (key: nat, edgehash: Hash, next: Vertex?)
      ensures this.key == key && this.edgehash == edgehash && this.next == next && mindist == INFINITE
    {
      this.key, this.edgehash, this.next, mindist := key, edgehash, next, INFINITE;
    }
  }

  class Graph {
    var vlist: Vertex?
    /** The file-level MyVertexList of the source. */
    var myVertexList: Vertex?

    constructor (vlist: Vertex?)
      ensures this.vlist == vlist
    {
      this.vlist, myVertexList := vlist, null;
    }
  }

  ghost predicate DistinctKeys(vs: seq<Vertex>) {
    forall i, j :: 0 <= i < j < |vs| ==> vs[i].key != vs[j].key
  }

  ghost predicate IsList(head: Vertex?, vs: seq<Vertex>)
    reads vs
  {
    && head == (if vs == [] then null else vs[0])
    && forall i {:trigger vs[i].next} :: 0 <= i < |vs| ==> vs[i].next == if i + 1 < |vs| then vs[i + 1] else null
  }

  ghost function Keys(vs: seq<Vertex>): set<nat> {
    set v | v in vs :: v.key
  }

  /** The hash table of v, all of whose objects are in tables, holds the weight of the edge to every other vertex of vs. */
  ghost predicate Weighted(v: Vertex, vs: seq<Vertex>, w: Weights, tables: set<object>)
    reads tables
  {
    && v.edgehash in tables && v.edgehash.buckets in tables && (forall e :: e in v.edgehash.entries ==> e in tables)
    && v.edgehash.Valid()
    && forall u :: u in vs && u != v ==> u.key in v.edgehash.contents && v.edgehash.contents[u.key] == w(u.key, v.key)
  }

  /** vs without x. */
  ghost function Without(vs: seq<Vertex>, x: Vertex): (r: seq<Vertex>)
    ensures forall v :: v in r ==> v in vs
  {
    if vs == [] then [] else if vs[0] == x then vs[1..] else [vs[0]] + Without(vs[1..], x)
  }

  lemma {:induction false} WithoutAt(vs: seq<Vertex>, x: Vertex, n: nat)
    requires n < |vs| && vs[n] == x && forall i :: 0 <= i < n ==> vs[i] != x
    ensures Without(vs, x) == vs[..n] + vs[n + 1..]
  {
    if n > 0 {
      WithoutAt(vs[1..], x, n - 1);
      assert vs[..n] == [vs[0]] + vs[1..][..n - 1];
    }
  }

  lemma {:induction false} WithoutNone(vs: seq<Vertex>, x: Vertex)
    requires x !in vs
    ensures Without(vs, x) == vs
  {
    if vs != [] {
      WithoutNone(vs[1..], x);
    }
  }

  /** What HashLookup on the edges of v yields for u: never the 0 that makes the source panic. */
  method EdgeWeight(v: Vertex, u: Vertex, ghost vs: seq<Vertex>, ghost w: Weights, ghost tables: set<object>) returns (dist: int)
    requires Weighted(v, vs, w, tables) && u in vs && u != v && w(u.key, v.key) != 0
    ensures dist == w(u.key, v.key) && dist != 0
  {
    dist := v.edgehash.HashLookup(u.key);
  }

  function Min(a: int, b: int): int {
    if b < a then b else a
  }

  /** vs are vertices of the graph, all of whose edges have a weight. */
  ghost predicate Listed(vs: seq<Vertex>, all: seq<Vertex>, w: Weights, tables: set<object>)
    reads tables
  {
    && DistinctKeys(vs) && DistinctKeys(all)
    && (forall v :: v in vs ==> v in all && Weighted(v, all, w, tables))
    && (forall i, j :: i != j ==> w(i, j) != 0)
  }

  /** No vertex is part of a table. */
  ghost predicate Apart(vs: seq<Vertex>, tables: set<object>) {
    forall v :: v in vs ==> v !in tables
  }

  /** The distance of v once u is in the tree. */
  ghost function Lowered(v: Vertex, u: Vertex, dist: int, w: Weights): int {
    if v == u then dist else Min(dist, w(u.key, v.key))
  }

  ghost function Dists(vs: seq<Vertex>): (ds: seq<int>)
    reads vs
    ensures |ds| == |vs|
  {
    seq(|vs|, i requires 0 <= i < |vs| reads vs => vs[i].mindist)
  }

  /** Position n holds the first least distance among those of vs other than out, up to a bound. */
  ghost predicate FirstLeast(vs: seq<Vertex>, ds: seq<int>, out: Vertex, n: nat, upto: nat)
    requires |vs| == |ds|
  {
    && n < upto <= |vs| && vs[n] != out
    && (forall i :: 0 <= i < n && vs[i] != out ==> ds[n] < ds[i])
    && (forall i :: n < i < upto && vs[i] != out ==> ds[n] <= ds[i])
  }

  /** The distances when the first i vertices have been dealt with. */
  ghost predicate PartlyLowered(vs: seq<Vertex>, ds0: seq<int>, ds: seq<int>, u: Vertex, w: Weights, i: nat) {
    && |vs| == |ds0| == |ds|
    && forall k :: 0 <= k < |vs| ==> ds[k] == if k < i then Lowered(vs[k], u, ds0[k], w) else ds0[k]
  }

  /** Lowers the distance of one vertex. */
  method Relax(v: Vertex, inserted: Vertex, ghost all: seq<Vertex>, ghost w: Weights, ghost tables: set<object>) returns (dist2: int)
    requires Weighted(v, all, w, tables) && inserted in all && v != inserted && w(inserted.key, v.key) != 0
    modifies v`mindist
    ensures dist2 == v.mindist == Min(old(v.mindist), w(inserted.key, v.key))
  {
    dist2 := v.mindist;
    var dist := EdgeWeight(v, inserted, all, w, tables);
    if dist != 0 && dist < dist2 {
      v.mindist := dist;
      dist2 := dist;
    }
  }

  ghost function Nexts(vs: seq<Vertex>): (ns: seq<Vertex?>)
    reads vs
    ensures |ns| == |vs|
  {
    seq(|vs|, i requires 0 <= i < |vs| reads vs => vs[i].next)
  }

  /** The links when the first i vertices have been passed. */
  ghost predicate PartlyUnlinked(vs: seq<Vertex>, ns0: seq<Vertex?>, ns: seq<Vertex?>, out: Vertex, i: nat) {
    && |vs| == |ns0| == |ns|
    && forall k {:trigger ns[k]} :: 0 <= k < |vs| ==> ns[k] == if k + 1 < i && k + 1 < |vs| && vs[k + 1] == out then ns0[k + 1] else ns0[k]
  }

  lemma EdgesThere(vs: seq<Vertex>, all: seq<Vertex>, w: Weights, tables: set<object>, v: Vertex, u: Vertex)
    requires Listed(vs, all, w, tables) && v in vs && u in all && v != u
    ensures w(u.key, v.key) != 0
  {
    assert v in all;
  }

  lemma InApart(v: Vertex, vs: seq<Vertex>, tables: set<object>)
    requires Apart(vs, tables) && v in vs
    ensures v !in tables
  {
  }

  /** One turn of the loop: unlink the inserted vertex, or lower the distance of another one. */
  method Pass(prev: Vertex, tmp: Vertex, inserted: Vertex, vert: Vertex, dist: int,
              ghost vs: seq<Vertex>, ghost i: nat, ghost all: seq<Vertex>, ghost w: Weights, ghost tables: set<object>)
    returns (vert': Vertex, dist': int)
    requires Apart(vs, tables)
    requires Listed(vs, all, w, tables) && 0 < i < |vs| && prev == vs[i - 1] && tmp == vs[i] && inserted in all
    modifies prev`next, tmp`mindist
    ensures Dists(vs) == old(Dists(vs))[i := Lowered(tmp, inserted, old(Dists(vs))[i], w)]
    ensures Nexts(vs) == if tmp == inserted then old(Nexts(vs))[i - 1 := old(Nexts(vs))[i]] else old(Nexts(vs))
    ensures (vert', dist') == if tmp != inserted && Dists(vs)[i] < dist then (tmp, Dists(vs)[i]) else (vert, dist)
    ensures Listed(vs, all, w, tables)
  {
    vert', dist' := vert, dist;
    assert prev in vs && tmp in vs && Weighted(tmp, all, w, tables) && DistinctKeys(vs);
    if tmp != inserted {
      EdgesThere(vs, all, w, tables, tmp, inserted);
    }
    hide Weighted, Listed, Apart;
    assert prev !in tables && tmp !in tables by { InApart(prev, vs, tables); InApart(tmp, vs, tables); }
    if tmp == inserted {
      prev.next := tmp.next;
    } else {
      var dist2 := Relax(tmp, inserted, all, w, tables);
      if dist2 < dist {
        vert', dist' := tmp, dist2;
      }
    }
  }

  /** The invariant of the scan, on the values of the fields. */
  ghost predicate Scanned(vs: seq<Vertex>, ds0: seq<int>, ds: seq<int>, ns0: seq<Vertex?>, ns: seq<Vertex?>,
                          u: Vertex, w: Weights, vert: Vertex?, dist: int, n: nat, i: nat) {
    && PartlyLowered(vs, ds0, ds, u, w, i) && PartlyUnlinked(vs, ns0, ns, u, i)
    && FirstLeast(vs, ds, u, n, i) && vert == vs[n] && dist == ds[n]
  }

  lemma ScanOn(vs: seq<Vertex>, ds0: seq<int>, ds: seq<int>, ns0: seq<Vertex?>, ns: seq<Vertex?>, u: Vertex, w: Weights,
               vert: Vertex?, dist: int, n: nat, i: nat, ds': seq<int>, ns': seq<Vertex?>)
    requires Scanned(vs, ds0, ds, ns0, ns, u, w, vert, dist, n, i) && 0 < i < |vs| && DistinctKeys(vs)
    requires ds' == ds[i := Lowered(vs[i], u, ds[i], w)]
    requires ns' == if vs[i] == u then ns[i - 1 := ns[i]] else ns
    ensures if vs[i] != u && ds'[i] < dist then Scanned(vs, ds0, ds', ns0, ns', u, w, vs[i], ds'[i], i, i + 1)
            else Scanned(vs, ds0, ds', ns0, ns', u, w, vert, dist, n, i + 1)
  {
  }

  lemma ScanStart(vs: seq<Vertex>, ds0: seq<int>, ds: seq<int>, ns: seq<Vertex?>, u: Vertex, w: Weights, dist: int)
    requires vs != [] && vs[0] != u && |vs| == |ds0| == |ns| && DistinctKeys(vs)
    requires dist == Lowered(vs[0], u, ds0[0], w) && ds == ds0[0 := dist]
    ensures Scanned(vs, ds0, ds, ns, ns, u, w, vs[0], dist, 0, 1)
  {
  }

  lemma UnlinkedAt(head: Vertex?, vs: seq<Vertex>, ns0: seq<Vertex?>, ns: seq<Vertex?>, u: Vertex, n: nat)
    requires vs != [] && head == vs[0] != u && DistinctKeys(vs) && n < |vs| && vs[n] == u && ns == Nexts(vs)
    requires LinksOf(vs, ns0) && PartlyUnlinked(vs, ns0, ns, u, |vs|)
    ensures IsList(head, vs[..n] + vs[n + 1..])
  {
    var r := vs[..n] + vs[n + 1..];
    assert r != [] && r[0] == vs[0];
    forall i {:trigger r[i].next} | 0 <= i < |r| ensures r[i].next == if i + 1 < |r| then r[i + 1] else null {
      if i + 1 < n {
        assert r[i] == vs[i] && r[i + 1] == vs[i + 1] && ns[i] == ns0[i];
      } else if i + 1 == n {
        assert r[i] == vs[i] && ns[i] == ns0[n] && (n + 1 < |vs| ==> r[n] == vs[n + 1]);
      } else {
        assert r[i] == vs[i + 1] && ns[i + 1] == ns0[i + 1] && (i + 1 < |r| ==> r[i + 1] == vs[i + 2]);
      }
    }
  }

  /** When the scan is over the inserted vertex is unlinked. */
  lemma ScanOver(head: Vertex?, vs: seq<Vertex>, ns0: seq<Vertex?>, ds0: seq<int>, ds: seq<int>, u: Vertex, w: Weights, vert: Vertex?, dist: int, n: nat)
    requires vs != [] && head == vs[0] != u && DistinctKeys(vs)
    requires LinksOf(vs, ns0) && Scanned(vs, ds0, ds, ns0, Nexts(vs), u, w, vert, dist, n, |vs|)
    ensures IsList(head, Without(vs, u)) && PartlyLowered(vs, ds0, ds, u, w, |vs|)
    ensures FirstLeast(vs, ds, u, n, |vs|) && vert == vs[n] && dist == ds[n]
  {
    hide Without;
    var ns := Nexts(vs);
    if u in vs {
      var k :| 0 <= k < |vs| && vs[k] == u;
      WithoutAt(vs, u, k);
      UnlinkedAt(head, vs, ns0, ns, u, k);
    } else {
      WithoutNone(vs, u);
      assert forall i {:trigger vs[i].next} :: 0 <= i < |vs| ==> vs[i].next == ns[i];
    }
  }

  /** The original links of a list. */
  ghost predicate LinksOf(vs: seq<Vertex>, ns: seq<Vertex?>) {
    |ns| == |vs| && forall i {:trigger ns[i]} :: 0 <= i < |vs| ==> ns[i] == if i + 1 < |vs| then vs[i + 1] else null
  }

  /** The scan has not yet touched the link it follows. */
  lemma Onward(vs: seq<Vertex>, ns0: seq<Vertex?>, ds0: seq<int>, ds: seq<int>, u: Vertex, w: Weights, vert: Vertex?, dist: int, n: nat, i: nat)
    requires i < |vs| && LinksOf(vs, ns0) && Scanned(vs, ds0, ds, ns0, Nexts(vs), u, w, vert, dist, n, i + 1)
    ensures vs[i].next == if i + 1 < |vs| then vs[i + 1] else null
  {
    assert vs[i].next == Nexts(vs)[i] == ns0[i];
  }

  /** One turn keeps the invariant of the scan. */
  method Turn(prev: Vertex, tmp: Vertex, inserted: Vertex, vert: Vertex, dist: int, ghost vs: seq<Vertex>,
              ghost ds0: seq<int>, ghost ns0: seq<Vertex?>, ghost n: nat, ghost i: nat, ghost all: seq<Vertex>, ghost w: Weights, ghost tables: set<object>)
    returns (vert': Vertex, dist': int, ghost n': nat)
    requires Apart(vs, tables)
    requires Listed(vs, all, w, tables) && 0 < i < |vs| && prev == vs[i - 1] && tmp == vs[i] && inserted in all && LinksOf(vs, ns0)
    requires Scanned(vs, ds0, Dists(vs), ns0, Nexts(vs), inserted, w, vert, dist, n, i)
    modifies prev`next, tmp`mindist
    ensures Listed(vs, all, w, tables) && tmp.next == if i + 1 < |vs| then vs[i + 1] else null
    ensures Scanned(vs, ds0, Dists(vs), ns0, Nexts(vs), inserted, w, vert', dist', n', i + 1)
  {
    assert DistinctKeys(vs);
    hide *;
    ghost var ds, ns := Dists(vs), Nexts(vs);
    vert', dist' := Pass(prev, tmp, inserted, vert, dist, vs, i, all, w, tables);
    ScanOn(vs, ds0, ds, ns0, ns, inserted, w, vert, dist, n, i, Dists(vs), Nexts(vs));
    n' := if tmp != inserted && Dists(vs)[i] < dist then i else n;
    Onward(vs, ns0, ds0, Dists(vs), inserted, w, vert', dist', n', i);
  }

  /** The part of BlueRule before its loop. */
  method First(vlist: Vertex, inserted: Vertex, ghost vs: seq<Vertex>, ghost all: seq<Vertex>, ghost w: Weights, ghost tables: set<object>)
    returns (dist: int)
    requires Apart(vs, tables)
    requires IsList(vlist, vs) && Listed(vs, all, w, tables) && inserted in all && vlist != inserted
    modifies vlist`mindist
    ensures vs != [] && vs[0] == vlist && Listed(vs, all, w, tables) && LinksOf(vs, Nexts(vs)) && Nexts(vs) == old(Nexts(vs))
    ensures Scanned(vs, old(Dists(vs)), Dists(vs), Nexts(vs), Nexts(vs), inserted, w, vlist, dist, 0, 1)
  {
    assert Weighted(vlist, all, w, tables);
    ghost var ds0, ns := Dists(vs), Nexts(vs);
    hide Weighted;
    dist := Relax(vlist, inserted, all, w, tables);
    assert Nexts(vs) == ns;
    assert Dists(vs) == ds0[0 := dist];
    ScanStart(vs, ds0, Dists(vs), ns, inserted, w, dist);
  }

  /** Lowers the distances by the edges of the vertex just inserted, unlinks it, and finds the nearest. */
  method BlueRule(inserted: Vertex, vlist: Vertex?, ghost vs: seq<Vertex>, ghost all: seq<Vertex>, ghost w: Weights, ghost tables: set<object>)
    returns (vert: Vertex?, dist: int, ghost n: nat)
    requires Apart(vs, tables)
    requires IsList(vlist, vs) && Listed(vs, all, w, tables) && inserted in all && (vs != [] ==> vs[0] != inserted)
    modifies vs
    ensures vs == [] ==> vert == null && dist == 999999
    ensures vs != [] ==> FirstLeast(vs, Dists(vs), inserted, n, |vs|) && vert == vs[n] && dist == Dists(vs)[n]
    ensures IsList(vlist, Without(vs, inserted)) && Listed(vs, all, w, tables)
    ensures PartlyLowered(vs, old(Dists(vs)), Dists(vs), inserted, w, |vs|)
  {
    if vlist == null {
      return null, 999999, 0;
    }
    assert vs != [] && vs[0] == vlist && DistinctKeys(vs);
    hide *;
    n := 0;
    var prev := vlist;
    vert := vlist;
    ghost var ds0 := Dists(vs);
    dist := First(vlist, inserted, vs, all, w, tables);
    ghost var ns0 := Nexts(vs);
    Onward(vs, ns0, ds0, Dists(vs), inserted, w, vert, dist, n, 0);
    var tmp := vlist.next;
    ghost var i := 1;
    while tmp != null
      invariant 1 <= i <= |vs| && tmp == (if i < |vs| then vs[i] else null) && prev == vs[i - 1]
      invariant Listed(vs, all, w, tables) && vert != null
      invariant Scanned(vs, ds0, Dists(vs), ns0, Nexts(vs), inserted, w, vert, dist, n, i)
      decreases |vs| - i
    {
      vert, dist, n := Turn(prev, tmp, inserted, vert, dist, vs, ds0, ns0, n, i, all, w, tables);
      prev, tmp := tmp, tmp.next;
      i := i + 1;
    }
    ScanOver(vlist, vs, ns0, ds0, Dists(vs), inserted, w, vert, dist, n);
  }

  // -------------------------------------------------------------- ComputeMst

  lemma WithoutKeeps(vs: seq<Vertex>, x: Vertex)
    requires DistinctKeys(vs)
    ensures x !in Without(vs, x) && DistinctKeys(Without(vs, x))
    ensures forall v :: v in vs ==> v == x || v in Without(vs, x)
    ensures |Without(vs, x)| == if x in vs then |vs| - 1 else |vs|
  {
    hide Without;
    if x in vs {
      var n :| 0 <= n < |vs| && vs[n] == x;
      WithoutAt(vs, x, n);
      var r := vs[..n] + vs[n + 1..];
      forall i | 0 <= i < |r| ensures r[i] == vs[if i < n then i else i + 1] {
      }
      forall v | v in vs && v != x ensures v in r {
        var i :| 0 <= i < |vs| && vs[i] == v;
        assert r[if i < n then i else i - 1] == v;
      }
    } else {
      WithoutNone(vs, x);
    }
  }

  /** d is the weight of the cheapest edge from s to the vertex k, or INFINITE when s is empty. */
  ghost predicate IsDistance(d: int, s: set<nat>, k: nat, w: Weights) {
    && (forall i :: i in s ==> d <= w(i, k))
    && (if s == {} then d == INFINITE else exists i :: i in s && d == w(i, k))
  }

  ghost predicate Distances(vs: seq<Vertex>, s: set<nat>, w: Weights)
    reads vs
  {
    forall v :: v in vs ==> IsDistance(v.mindist, s, v.key, w)
  }

  lemma DistanceLowered(d: int, s: set<nat>, x: nat, k: nat, w: Weights)
    requires IsDistance(d, s, k, w) && w(x, k) < INFINITE
    ensures IsDistance(Min(d, w(x, k)), s + {x}, k, w)
  {
    if d <= w(x, k) && s != {} {
      var i :| i in s && d == w(i, k);
      assert i in s + {x};
    } else {
      assert x in s + {x};
    }
  }

  /** The distances recorded for the list, as values. */
  ghost predicate Recorded(vs: seq<Vertex>, ds: seq<int>, out: Vertex, s: set<nat>, w: Weights) {
    |ds| == |vs| && forall i :: 0 <= i < |vs| && vs[i] != out ==> IsDistance(ds[i], s, vs[i].key, w)
  }

  lemma Record(vs: seq<Vertex>, out: Vertex, s: set<nat>, w: Weights)
    requires DistinctKeys(vs) && Distances(Without(vs, out), s, w)
    ensures Recorded(vs, Dists(vs), out, s, w)
  {
    WithoutKeeps(vs, out);
  }

  lemma RecordLowered(vs: seq<Vertex>, ds0: seq<int>, ds: seq<int>, x: Vertex, s: set<nat>, w: Weights)
    requires Recorded(vs, ds0, x, s, w) && PartlyLowered(vs, ds0, ds, x, w, |vs|) && forall i, j :: w(i, j) < INFINITE
    ensures Recorded(vs, ds, x, s + {x.key}, w)
  {
    hide IsDistance;
    forall i | 0 <= i < |vs| && vs[i] != x ensures IsDistance(ds[i], s + {x.key}, vs[i].key, w) {
      DistanceLowered(ds0[i], s, x.key, vs[i].key, w);
    }
  }

  /** What the caller of the blue rule relies on. */
  ghost predicate Nearest(rest: seq<Vertex>, vert: Vertex?, dist: int)
    reads rest
  {
    if rest == [] then vert == null && dist == 999999
    else vert in rest && dist == vert.mindist && forall v :: v in rest ==> dist <= v.mindist
  }

  lemma RestOf(vs: seq<Vertex>, x: Vertex, s: set<nat>, w: Weights, n: nat)
    requires DistinctKeys(vs) && Recorded(vs, Dists(vs), x, s, w) && vs != [] && FirstLeast(vs, Dists(vs), x, n, |vs|)
    ensures Distances(Without(vs, x), s, w) && Nearest(Without(vs, x), vs[n], Dists(vs)[n])
  {
    WithoutKeeps(vs, x);
    var rest, ds := Without(vs, x), Dists(vs);
    hide IsDistance, Without;
    forall v | v in rest ensures IsDistance(v.mindist, s, v.key, w) && ds[n] <= v.mindist {
      var i :| 0 <= i < |vs| && vs[i] == v;
      assert ds[i] == v.mindist;
    }
  }

  /** BlueRule on a list that does not start with the inserted vertex. */
  method RuleOnRest(inserted: Vertex, vlist: Vertex?, ghost vs: seq<Vertex>, ghost all: seq<Vertex>, ghost w: Weights, ghost tables: set<object>, ghost s: set<nat>)
    returns (vert: Vertex?, dist: int)
    requires Apart(vs, tables)
    requires IsList(vlist, vs) && Listed(vs, all, w, tables) && inserted in all && (vs != [] ==> vs[0] != inserted)
    requires Distances(Without(vs, inserted), s, w) && forall i, j :: w(i, j) < INFINITE
    modifies vs
    ensures var rest := Without(vs, inserted);
      IsList(vlist, rest) && Listed(vs, all, w, tables) && Distances(rest, s + {inserted.key}, w) && Nearest(rest, vert, dist)
  {
    assert DistinctKeys(vs);
    assert vs == [] ==> Without(vs, inserted) == [];
    Record(vs, inserted, s, w);
    ghost var ds0, n := Dists(vs), 0;
    hide Listed, IsList, Distances, Recorded, Without, FirstLeast, PartlyLowered, Dists;
    vert, dist, n := BlueRule(inserted, vlist, vs, all, w, tables);
    RecordLowered(vs, ds0, Dists(vs), inserted, s, w);
    if vs != [] {
      RestOf(vs, inserted, s + {inserted.key}, w, n);
    } else {
      Empty(Without(vs, inserted), s + {inserted.key}, w);
    }
  }

  lemma Empty(vs: seq<Vertex>, s: set<nat>, w: Weights)
    requires vs == []
    ensures Distances(vs, s, w)
  {
  }

  method DoAllBlueRule(g: Graph, inserted: Vertex, ghost vs: seq<Vertex>, ghost all: seq<Vertex>, ghost w: Weights, ghost tables: set<object>, ghost s: set<nat>)
    returns (vert: Vertex?, dist: int)
    requires Apart(vs, tables) && g !in tables
    requires IsList(g.myVertexList, vs) && Listed(vs, all, w, tables) && inserted in all
    requires Distances(Without(vs, inserted), s, w) && forall i, j :: w(i, j) < INFINITE
    modifies g`myVertexList, set u: Vertex | u in vs
    ensures var rest := Without(vs, inserted);
      && IsList(g.myVertexList, rest) && Listed(rest, all, w, tables)
      && Distances(rest, s + {inserted.key}, w) && Nearest(rest, vert, dist)
  {
    ghost var list := vs;
    WithoutKeeps(vs, inserted);
    if inserted == g.myVertexList {
      list := vs[1..];
      g.myVertexList := g.myVertexList.next;
      WithoutNone(list, inserted);
    }
    assert Listed(list, all, w, tables) && IsList(g.myVertexList, list) && Without(list, inserted) == Without(vs, inserted);
    hide Distances, IsList, Nearest, Weighted, Without;
    vert, dist := RuleOnRest(inserted, g.myVertexList, list, all, w, tables, s);
    assert Listed(Without(vs, inserted), all, w, tables);
  }

  /** f is a tree on the inserted vertices s, of weight cost, and part of a cheapest tree on v; rest is still to come. */
  ghost predicate Growing(v: set<nat>, rest: set<nat>, s: set<nat>, f: seq<Edge>, cost: int, w: Weights) {
    && s != {} && s + rest == v && s !! rest
    && Within(f, s) && Connects(f, s) && |f| + 1 == |s| && Promising(w, f, v) && Weight(w, f) == cost
  }

  lemma GrowingStart(v: set<nat>, rest: set<nat>, x: nat, w: Weights)
    requires {x} + rest == v && x !in rest
    ensures Growing(v, rest, {x}, [], 0, w)
  {
    NothingIsPromising(w, v);
    forall c: set<nat> ensures !Cut(c, {x}) {
      if c <= {x} {
        assert c == {} || c == {x};
      }
    }
  }

  lemma GrowingStep(v: set<nat>, rest: set<nat>, s: set<nat>, f: seq<Edge>, cost: int, w: Weights, e: Edge)
    requires Growing(v, rest, s, f, cost, w) && Symmetric(w) && Cheapest(w, e, s, v)
    ensures Growing(v, rest - {e.b}, s + {e.b}, f + [e], cost + w(e.a, e.b), w)
  {
    BlueRuleKeeps(w, f, s, v, e);
    Grows(f, s, e);
    WeightConcat(w, f, [e]);
    hide Promising, Connects, Weight;
    assert Weight(w, [e]) == w(e.a, e.b) by { WeightOne(w, e); }
    assert Within(f + [e], s + {e.b});
  }

  lemma WeightOne(w: Weights, e: Edge)
    ensures Weight(w, [e]) == w(e.a, e.b)
  {
  }

  /** The nearest vertex is the far end of a cheapest edge out of the tree. */
  lemma NearestEdge(rest: seq<Vertex>, s: set<nat>, v: set<nat>, f: seq<Edge>, cost: int, w: Weights, vert: Vertex, dist: int) returns (e: Edge)
    requires rest != [] && Distances(rest, s, w) && Nearest(rest, vert, dist) && Growing(v, Keys(rest), s, f, cost, w)
    ensures e.b == vert.key && Cheapest(w, e, s, v) && w(e.a, e.b) == dist
  {
    hide Connects, Promising, Within, Weight;
    assert IsDistance(vert.mindist, s, vert.key, w);
    var i :| i in s && dist == w(i, vert.key);
    e := Edge(i, vert.key);
    forall i, j | i in s && j in v - s ensures dist <= w(i, j) {
      assert j in Keys(rest);
      var u :| u in rest && u.key == j;
      assert IsDistance(u.mindist, s, u.key, w);
    }
  }

  lemma NearestIn(rest: seq<Vertex>, vert: Vertex?, dist: int)
    requires Nearest(rest, vert, dist) && rest != []
    ensures vert in rest
  {
  }

  lemma RestKeys(vs: seq<Vertex>, x: Vertex, all: seq<Vertex>, w: Weights, tables: set<object>)
    requires Listed(vs, all, w, tables) && x in vs
    ensures Keys(Without(vs, x)) == Keys(vs) - {x.key} && |Without(vs, x)| + 1 == |vs|
  {
    hide Weighted;
    WithoutKeeps(vs, x);
    forall v | v in vs && v.key == x.key ensures v == x {
    }
  }

  /** The list after its first vertex has been taken for the tree. */
  lemma StartList(vs: seq<Vertex>, w: Weights, tables: set<object>)
    requires vs != [] && IsList(vs[0], vs) && Listed(vs, vs, w, tables) && forall v :: v in vs ==> v.mindist == INFINITE
    ensures IsList(vs[0].next, vs[1..]) && Listed(vs[1..], vs, w, tables) && Without(vs[1..], vs[0]) == vs[1..]
    ensures Distances(vs[1..], {}, w) && {vs[0].key} + Keys(vs[1..]) == Keys(vs) && vs[0].key !in Keys(vs[1..])
  {
    var list := vs[1..];
    hide Weighted;
    WithoutNone(list, vs[0]);
    assert vs == [vs[0]] + list;
    assert forall i {:trigger list[i].next} :: 0 <= i < |list| ==> list[i] == vs[i + 1];
  }

  lemma FewerDistances(rest: seq<Vertex>, vert: Vertex, s: set<nat>, w: Weights)
    requires Distances(rest, s, w)
    ensures Distances(Without(rest, vert), s, w)
  {
  }

  /** The nearest vertex joins the tree by a cheapest edge. */
  lemma Joins(rest: seq<Vertex>, all: seq<Vertex>, w: Weights, tables: set<object>, s: set<nat>, f: seq<Edge>, cost: int, vert: Vertex?, dist: int)
    returns (e: Edge)
    requires rest != [] && Listed(rest, all, w, tables) && Distances(rest, s, w) && Nearest(rest, vert, dist) && Symmetric(w)
    requires Growing(Keys(all), Keys(rest), s, f, cost, w)
    ensures vert in rest && e.b == vert.key && dist == w(e.a, e.b) && e.b !in s
    ensures Growing(Keys(all), Keys(Without(rest, vert)), s + {e.b}, f + [e], cost + dist, w)
    ensures |Without(rest, vert)| + 1 == |rest| && Distances(Without(rest, vert), s, w)
  {
    hide Distances, Listed, Without, Keys, Growing, Symmetric, Nearest;
    NearestIn(rest, vert, dist);
    e := NearestEdge(rest, s, Keys(all), f, cost, w, vert, dist);
    RestKeys(rest, vert, all, w, tables);
    GrowingStep(Keys(all), Keys(rest), s, f, cost, w, e);
    FewerDistances(rest, vert, s, w);
  }

  /** Where ComputeMst stands when inserted has joined the tree f and left vertices are missing. */
  ghost predicate Underway(g: Graph, list: seq<Vertex>, inserted: Vertex, vs: seq<Vertex>, w: Weights, tables: set<object>,
                           s: set<nat>, f: seq<Edge>, cost: int, left: nat)
    reads g, list, tables, Without(list, inserted)
  {
    var rest := Without(list, inserted);
    && IsList(g.myVertexList, list) && Listed(list, vs, w, tables) && Apart(list, tables) && g !in tables
    && inserted in vs && inserted.key in s && Distances(rest, s - {inserted.key}, w)
    && Growing(Keys(vs), Keys(rest), s, f, cost, w) && |rest| == left
  }

  /** One turn of the loop: announce the inserted vertex and insert the nearest one. */
  method Round(g: Graph, inserted: Vertex, ghost list: seq<Vertex>, ghost vs: seq<Vertex>, ghost w: Weights, ghost tables: set<object>,
               ghost s: set<nat>, ghost f: seq<Edge>, ghost cost: int, ghost left: nat, ghost region: set<Vertex>)
    returns (vert: Vertex?, dist: int, ghost e: Edge)
    requires forall u :: u in list ==> u in region
    requires Underway(g, list, inserted, vs, w, tables, s, f, cost, left) && left > 0
    requires Symmetric(w) && forall i, j :: w(i, j) < INFINITE
    modifies g`myVertexList, region
    ensures vert != null && Underway(g, Without(list, inserted), vert, vs, w, tables, s + {e.b}, f + [e], cost + dist, left - 1)
  {
    hide Distances, Listed, IsList, Without, Keys, Growing, Symmetric, Nearest, Apart;
    assert (s - {inserted.key}) + {inserted.key} == s;
    vert, dist := DoAllBlueRule(g, inserted, list, vs, w, tables, s - {inserted.key});
    StillApart(list, inserted, tables);
    e := Joins(Without(list, inserted), vs, w, tables, s, f, cost, vert, dist);
    assert (s + {e.b}) - {e.b} == s;
    AmongAll(Without(list, inserted), vs, w, tables, vert);
  }

  lemma AmongAll(vs: seq<Vertex>, all: seq<Vertex>, w: Weights, tables: set<object>, v: Vertex)
    requires Listed(vs, all, w, tables) && v in vs
    ensures v in all
  {
  }

  lemma Begun(g: Graph, vs: seq<Vertex>, w: Weights, tables: set<object>)
    requires vs != [] && Apart(vs, tables) && g !in tables && g.myVertexList == vs[0].next
    requires IsList(vs[0], vs) && Listed(vs, vs, w, tables) && forall v :: v in vs ==> v.mindist == INFINITE
    ensures Underway(g, vs[1..], vs[0], vs, w, tables, {vs[0].key}, [], 0, |vs| - 1)
  {
    var inserted, list := vs[0], vs[1..];
    assert Apart(list, tables);
    assert {inserted.key} - {inserted.key} == {};
    hide Distances, Listed, IsList, Without, Keys, Growing, Apart;
    StartList(vs, w, tables);
    GrowingStart(Keys(vs), Keys(list), inserted.key, w);
  }

  /** Returns the weight of a minimum spanning tree, and the tree. */
  method ComputeMst(g: Graph, numvert: nat, ghost vs: seq<Vertex>, ghost w: Weights, ghost tables: set<object>)
    returns (cost: int, ghost tree: seq<Edge>)
    requires IsList(g.vlist, vs) && |vs| == numvert > 0 && forall v :: v in vs ==> v.mindist == INFINITE
    requires Listed(vs, vs, w, tables) && Apart(vs, tables) && g !in tables
    requires Symmetric(w) && forall i, j :: w(i, j) < INFINITE
    modifies g, set u: Vertex | u in vs
    ensures IsSpanningTree(tree, Keys(vs)) && Weight(w, tree) == cost
    ensures forall t :: IsSpanningTree(t, Keys(vs)) ==> cost <= Weight(w, t)
  {
    hide *;
    HeadOf(g.vlist, vs);
    var inserted: Vertex := g.vlist;
    var tmp := inserted.next;
    g.vlist, g.myVertexList := tmp, tmp;
    var left := numvert - 1;
    cost, tree := 0, [];
    ghost var list, s := vs[1..], {inserted.key};
    ghost var region := set u: Vertex | u in vs;
    Begun(g, vs, w, tables);
    assert forall u :: u in list ==> u in region;
    while left != 0
      invariant Underway(g, list, inserted, vs, w, tables, s, tree, cost, left)
      invariant forall u :: u in list ==> u in region
      decreases left
    {
      var vert, dist; ghost var e;
      vert, dist, e := Round(g, inserted, list, vs, w, tables, s, tree, cost, left, region);
      list := Without(list, inserted);
      inserted, left, cost := vert, left - 1, cost + dist;
      s, tree := s + {e.b}, tree + [e];
    }
    Finished(g, list, inserted, vs, w, tables, s, tree, cost);
  }

  lemma HeadOf(head: Vertex?, vs: seq<Vertex>)
    requires IsList(head, vs) && vs != []
    ensures head == vs[0]
  {
  }

  lemma Finished(g: Graph, list: seq<Vertex>, inserted: Vertex, vs: seq<Vertex>, w: Weights, tables: set<object>,
                 s: set<nat>, f: seq<Edge>, cost: int)
    requires Underway(g, list, inserted, vs, w, tables, s, f, cost, 0)
    ensures IsSpanningTree(f, Keys(vs)) && Weight(w, f) == cost
    ensures forall t :: IsSpanningTree(t, Keys(vs)) ==> cost <= Weight(w, t)
  {
    hide Distances, Listed, IsList, Without, Growing;
    NoKeys(Without(list, inserted));
    Spanning(Keys(vs), s, f, cost, w);
  }

  lemma StillApart(vs: seq<Vertex>, x: Vertex, tables: set<object>)
    requires Apart(vs, tables)
    ensures Apart(Without(vs, x), tables)
  {
  }

  lemma NoKeys(vs: seq<Vertex>)
    requires vs == []
    ensures Keys(vs) == {}
  {
  }

  lemma Spanning(v: set<nat>, s: set<nat>, f: seq<Edge>, cost: int, w: Weights)
    requires Growing(v, {}, s, f, cost, w)
    ensures IsSpanningTree(f, v) && Weight(w, f) == cost && forall t :: IsSpanningTree(t, v) ==> cost <= Weight(w, t)
  {
    assert s == v;
    forall t | IsSpanningTree(t, v) ensures cost <= Weight(w, t) {
      PromisingTreeIsMinimum(w, f, v, t);
    }
  }
}
