/**
  Spanning trees of an undirected weighted graph, by cuts: a set of edges connects a set of
  vertices when every proper nonempty part of it is left by some edge. Blue-rule correctness
  for wolfbench/Benchmarks/mst/main.c.
*/
module SpanningTree {
  datatype Edge = Edge(a: nat, b: nat)

  type Weights = (nat, nat) -> int

  ghost predicate Symmetric(w: Weights) {
    forall i, j :: w(i, j) == w(j, i)
  }

  ghost function Weight(w: Weights, t: seq<Edge>): int {
    if t == [] then 0 else w(t[0].a, t[0].b) + Weight(w, t[1..])
  }

  /** e leads out of the part s of v. */
  predicate Crosses(e: Edge, s: set<nat>, v: set<nat>) {
    (e.a in s && e.b in v - s) || (e.b in s && e.a in v - s)
  }

  ghost predicate Cut(s: set<nat>, v: set<nat>) {
    s != {} && s <= v && s != v
  }

  ghost predicate Crossed(t: seq<Edge>, s: set<nat>, v: set<nat>) {
    exists e :: e in t && Crosses(e, s, v)
  }

  ghost predicate Connects(t: seq<Edge>, v: set<nat>) {
    forall s: set<nat> :: Cut(s, v) ==> Crossed(t, s, v)
  }

  ghost predicate Within(t: seq<Edge>, v: set<nat>) {
    forall e :: e in t ==> e.a in v && e.b in v
  }

  /** A connected graph on v with one edge less than vertices. */
  ghost predicate IsSpanningTree(t: seq<Edge>, v: set<nat>) {
    Within(t, v) && Connects(t, v) && |t| + 1 == |v|
  }

  lemma {:induction false} WeightConcat(w: Weights, x: seq<Edge>, y: seq<Edge>)
    ensures Weight(w, x + y) == Weight(w, x) + Weight(w, y)
  {
    if x == [] {
      assert x + y == y;
    } else {
      WeightConcat(w, x[1..], y);
      assert (x + y)[1..] == x[1..] + y;
    }
  }

  lemma WeightRemove(w: Weights, t: seq<Edge>, i: nat)
    requires i < |t|
    ensures Weight(w, t) == Weight(w, t[..i] + t[i + 1..]) + w(t[i].a, t[i].b)
  {
    hide Weight;
    var front, back := t[..i], t[i + 1..];
    assert t == front + ([t[i]] + back);
    WeightConcat(w, front, [t[i]] + back);
    WeightConcat(w, [t[i]], back);
    WeightConcat(w, front, back);
    WeightOne(w, t[i]);
  }

  lemma WeightOne(w: Weights, e: Edge)
    ensures Weight(w, [e]) == w(e.a, e.b)
  {
  }

  // --------------------------------------------------------------- components

  /** No edge of t leads from a to the rest of x. */
  ghost predicate Isolated(t: seq<Edge>, a: set<nat>, x: set<nat>) {
    a <= x && forall e :: e in t ==> !Crosses(e, a, x)
  }

  /** Around every vertex of x there is a part that t connects and isolates within x. */
  lemma {:induction false} Component(t: seq<Edge>, x: set<nat>, start: set<nat>, v: nat) returns (a: set<nat>)
    requires v in start && Isolated(t, start, x)
    ensures v in a && Isolated(t, a, x) && Connects(t, a)
    decreases |start|
  {
    a := start;
    if !Connects(t, start) {
      var s: set<nat> :| Cut(s, start) && !Crossed(t, s, start);
      var rest := start - s;
      assert |s| + |rest| == |start| by {
        assert s + rest == start;
      }
      assert rest != {};
      forall e | e in t ensures !Crosses(e, s, x) && !Crosses(e, rest, x) {
        assert !Crosses(e, s, start) && !Crosses(e, start, x);
      }
      a := Component(t, x, if v in s then s else rest, v);
    }
  }

  // ------------------------------------------------------------ the blue rule

  /** e is a cheapest edge from the part s of v to the rest. */
  ghost predicate Cheapest(w: Weights, e: Edge, s: set<nat>, v: set<nat>) {
    && e.a in s && e.b in v - s
    && forall i, j :: i in s && j in v - s ==> w(e.a, e.b) <= w(i, j)
  }

  /** f is the edge to give up for e. */
  lemma EdgeToGiveUp(f: seq<Edge>, r: seq<Edge>, s: set<nat>, v: set<nat>, e: Edge, a: set<nat>) returns (i: nat)
    requires Within(f, s) && Connects(f + r, v) && s <= v && s != {} && e.b in a
    requires Isolated(f + r, a, v - s)
    ensures i < |r| && Crosses(r[i], s, v) && Crosses(r[i], a, v)
  {
    assert Cut(a, v) by {
      var x :| x in s;
      assert x !in a && x in v;
    }
    assert Crossed(f + r, a, v);
    var g :| g in f + r && Crosses(g, a, v);
    assert g !in f;
    assert g in r;
    i :| 0 <= i < |r| && r[i] == g;
    assert !Crosses(g, a, v - s);
  }

  /** After the exchange every cut is still crossed. */
  lemma ExchangeConnects(f: seq<Edge>, r: seq<Edge>, s: set<nat>, v: set<nat>, e: Edge, a: set<nat>, i: nat)
    requires Within(f, s) && Connects(f, s) && Connects(f + r, v) && s <= v && e.a in s && e.b in a
    requires Isolated(f + r, a, v - s) && Connects(f + r, a)
    requires i < |r| && Crosses(r[i], s, v) && Crosses(r[i], a, v)
    ensures Connects((f + [e]) + (r[..i] + r[i + 1..]), v)
  {
    var t := (f + [e]) + (r[..i] + r[i + 1..]);
    assert forall g :: g in f ==> g in t;
    assert forall g :: g in f + r ==> g == r[i] || g in t;
    forall x: set<nat> | Cut(x, v) ensures Crossed(t, x, v) {
      OneSide(f, r[i], s, x, v, t);
      OneSide(f + r, r[i], a, x, v, t);
      CrossedElsewhere(f, r, e, i, x, v);
      if Crosses(r[i], x, v) && (s <= x || s * x == {}) && (a <= x || a * x == {}) {
        AcrossBoth(r[i], s, a, x, v);
        assert e in t && Crosses(e, x, v);
      }
    }
  }

  /** An edge between s and a that crosses x has all of s on one side and all of a on the other. */
  lemma AcrossBoth(g: Edge, s: set<nat>, a: set<nat>, x: set<nat>, v: set<nat>)
    requires s <= v && a <= v - s && Crosses(g, s, v) && Crosses(g, a, v) && Crosses(g, x, v)
    requires (s <= x || s * x == {}) && (a <= x || a * x == {})
    ensures forall y, z :: y in s && z in a ==> (y in x) != (z in x)
  {
    var p, q := if g.a in s then g.a else g.b, if g.a in s then g.b else g.a;
    assert p in s && q in a;
    forall y, z | y in s && z in a ensures (y in x) != (z in x) {
      assert (y in x) == (p in x) by { SameSide(s, x, y, p); }
      assert (z in x) == (q in x) by { SameSide(a, x, z, q); }
    }
  }

  lemma SameSide(c: set<nat>, x: set<nat>, y: nat, z: nat)
    requires y in c && z in c && (c <= x || c * x == {})
    ensures y in x <==> z in x
  {
    assert y in c * x <==> y in x;
    assert z in c * x <==> z in x;
  }

  /** A part connected by edges lies on one side of x, or one of its edges other than out crosses x. */
  lemma OneSide(g: seq<Edge>, out: Edge, c: set<nat>, x: set<nat>, v: set<nat>, t: seq<Edge>)
    requires Connects(g, c) && c <= v
    requires forall e :: e in g ==> e == out || e in t
    requires !(out.a in c && out.b in c)
    ensures Crossed(t, x, v) || c <= x || c * x == {}
  {
    if !(c <= x) && c * x != {} {
      assert Cut(c * x, c);
      var e :| e in g && Crosses(e, c * x, c);
      assert e != out;
      assert Crosses(e, x, v);
    }
  }

  lemma CrossedElsewhere(f: seq<Edge>, r: seq<Edge>, e: Edge, i: nat, x: set<nat>, v: set<nat>)
    requires i < |r| && Connects(f + r, v) && Cut(x, v)
    ensures Crossed((f + [e]) + (r[..i] + r[i + 1..]), x, v) || Crosses(r[i], x, v)
  {
    var t := (f + [e]) + (r[..i] + r[i + 1..]);
    assert Crossed(f + r, x, v);
    var g :| g in f + r && Crosses(g, x, v);
    if g in f {
      assert g in f + [e];
      assert g in t;
    } else {
      var k :| 0 <= k < |r| && r[k] == g;
      if k < i {
        assert r[..i][k] == g;
        assert g in t;
      } else if k > i {
        assert r[i + 1..][k - i - 1] == g;
        assert g in t;
      }
    }
  }

  /** Whatever spans v can be made to contain f at no greater weight. */
  ghost predicate Promising(w: Weights, f: seq<Edge>, v: set<nat>) {
    forall t :: Within(t, v) && Connects(t, v) ==> exists r :: Completes(w, f, r, t, v)
  }

  ghost predicate Completes(w: Weights, f: seq<Edge>, r: seq<Edge>, t: seq<Edge>, v: set<nat>) {
    Within(r, v) && Connects(f + r, v) && |f| + |r| == |t| && Weight(w, f) + Weight(w, r) <= Weight(w, t)
  }

  lemma NothingIsPromising(w: Weights, v: set<nat>)
    ensures Promising(w, [], v)
  {
    forall t | Within(t, v) && Connects(t, v) ensures exists r :: Completes(w, [], r, t, v) {
      assert [] + t == t;
      assert Completes(w, [], t, t, v);
    }
  }

  /** The blue rule: a cheapest edge out of what f connects may be added. */
  lemma BlueRuleKeeps(w: Weights, f: seq<Edge>, s: set<nat>, v: set<nat>, e: Edge)
    requires Symmetric(w) && Within(f, s) && Connects(f, s) && s <= v && Promising(w, f, v) && Cheapest(w, e, s, v)
    ensures Promising(w, f + [e], v)
  {
    forall t | Within(t, v) && Connects(t, v) ensures exists r :: Completes(w, f + [e], r, t, v) {
      var r :| Completes(w, f, r, t, v);
      var r' := Exchange(w, f, r, s, v, e);
      assert Completes(w, f + [e], r', t, v) by {
        WeightConcat(w, f, [e]);
      }
    }
  }

  lemma Exchange(w: Weights, f: seq<Edge>, r: seq<Edge>, s: set<nat>, v: set<nat>, e: Edge) returns (r': seq<Edge>)
    requires Symmetric(w) && Within(f, s) && Connects(f, s) && s <= v && Cheapest(w, e, s, v)
    requires Within(r, v) && Connects(f + r, v)
    ensures Within(r', v) && Connects((f + [e]) + r', v) && |r'| + 1 == |r| && w(e.a, e.b) + Weight(w, r') <= Weight(w, r)
  {
    assert Isolated(f + r, v - s, v - s);
    var a := Component(f + r, v - s, v - s, e.b);
    var i := EdgeToGiveUp(f, r, s, v, e, a);
    ExchangeConnects(f, r, s, v, e, a, i);
    r' := r[..i] + r[i + 1..];
    WeightRemove(w, r, i);
    assert w(r[i].a, r[i].b) == w(r[i].b, r[i].a);
  }

  /** The new edge connects the new vertex. */
  lemma Grows(f: seq<Edge>, s: set<nat>, e: Edge)
    requires Connects(f, s) && e.a in s && e.b !in s
    ensures Connects(f + [e], s + {e.b})
  {
    var v := s + {e.b};
    forall x: set<nat> | Cut(x, v) ensures Crossed(f + [e], x, v) {
      if Cut(x * s, s) {
        var g :| g in f && Crosses(g, x * s, s);
        assert g in f + [e] && Crosses(g, x, v);
      } else {
        assert e in f + [e] && Crosses(e, x, v) by {
          if x * s == {} {
            var y :| y in x;
            assert e.b in x;
          } else {
            assert x * s == s;
            assert e.a in x;
            assert !(s + {e.b} <= x);
          }
        }
      }
    }
  }

  /** A promising set of edges that spans is a minimum spanning tree. */
  lemma PromisingTreeIsMinimum(w: Weights, f: seq<Edge>, v: set<nat>, t: seq<Edge>)
    requires Promising(w, f, v) && IsSpanningTree(f, v) && IsSpanningTree(t, v)
    ensures Weight(w, f) <= Weight(w, t)
  {
    var r :| Completes(w, f, r, t, v);
    assert r == [];
  }
}
