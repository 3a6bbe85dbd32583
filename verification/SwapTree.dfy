/**
  The exchange of two subtrees' values in chunks, with three explicit stacks, and its recursive form
  (wolfbench/Benchmarks/bisort/swap.c).
*/
module SwapTree {
  import opened BitonicTree

  const CollectSize: nat := 256
  const DfsSize: nat := 20

  /** The nodes in preorder. */
  function Pre(t: Shape): seq<Node> {
    if t.Nil? then [] else [t.node] + Pre(t.left) + Pre(t.right)
  }

  function Slice(c: seq<int>, at: nat, n: nat): seq<int>
    requires at + n <= |c|
  {
    c[at..at + n]
  }

  function Before(c: seq<int>, n: nat): seq<int>
    requires n <= |c|
  {
    c[..n]
  }

  function After(c: seq<int>, n: nat): seq<int>
    requires n <= |c|
  {
    c[n..]
  }

  function Levels(t: Shape): nat {
    if t.Nil? then 0 else 1 + if Levels(t.left) > Levels(t.right) then Levels(t.left) else Levels(t.right)
  }

  /** Every node has both children or none. */
  predicate Full(t: Shape) {
    t.Fork? ==> (t.left.Nil? <==> t.right.Nil?) && Full(t.left) && Full(t.right)
  }

  /** The links in memory form the shape. */
  ghost predicate Wired(t: Shape)
    reads Nodes(t)`left, Nodes(t)`right
  {
    t.Fork? ==> t.node.left == Root(t.left) && t.node.right == Root(t.right) && Wired(t.left) && Wired(t.right)
  }

  lemma {:induction false} PreNodes(t: Shape)
    ensures forall n :: n in Pre(t) ==> n in Nodes(t)
    ensures forall n :: n in Nodes(t) ==> n in Pre(t)
  {
    if t.Fork? {
      PreNodes(t.left);
      PreNodes(t.right);
    }
  }

  ghost predicate NoDup(s: seq<Node>) {
    forall i, j :: 0 <= i < j < |s| ==> s[i] != s[j]
  }

  /** What a traversal with these trees on its stack, the last on top, has still to visit. */
  function Rest(ts: seq<Shape>): seq<Node> {
    if ts == [] then [] else Pre(ts[|ts| - 1]) + Rest(ts[..|ts| - 1])
  }

  class Stack {
    var top: int
    const handles: array<Node?>

    constructor ()
      ensures top == -1 && handles.Length == DfsSize && fresh(handles)
    {
      top := -1;
      handles := new Node?[DfsSize](_ => null);
    }

    method Push(v: Node)
      requires -1 <= top < handles.Length - 1
      modifies this`top, handles
      ensures top == old(top) + 1 && handles[..] == old(handles[..])[top := v]
    {
      top := top + 1;
      handles[top] := v;
    }

    method Pop() returns (v: Node?)
      requires 0 <= top < handles.Length
      modifies this`top
      ensures top == old(top) - 1 && v == handles[old(top)]
    {
      v := handles[top];
      top := top - 1;
    }
  }

  /** The stack holds these trees; the deeper in the stack, the more levels a tree may have. */
  ghost predicate Stacked(s: Stack, ts: seq<Shape>)
    reads s, s.handles
  {
    && s.handles.Length == DfsSize && s.top == |ts| - 1 && |ts| <= DfsSize
    && (forall i {:trigger ts[i]} :: 0 <= i < |ts| ==> ts[i].Fork? && s.handles[i] == ts[i].node && Full(ts[i]) && Levels(ts[i]) <= DfsSize - i)
  }

  function NodesAll(ts: seq<Shape>): set<Node> {
    set i, n | 0 <= i < |ts| && n in Nodes(ts[i]) :: n
  }

  ghost predicate AllWired(ts: seq<Shape>)
    reads NodesAll(ts)`left, NodesAll(ts)`right
  {
    forall i {:trigger ts[i]} :: 0 <= i < |ts| ==> Wired(ts[i])
  }

  /** What remains after a visit. */
  function Unfolded(ts: seq<Shape>): seq<Shape>
    requires ts != [] && ts[|ts| - 1].Fork?
  {
    var t := ts[|ts| - 1];
    ts[..|ts| - 1] + if t.left.Nil? then [] else [t.right, t.left]
  }

  lemma RestUnfolds(ts: seq<Shape>)
    requires ts != [] && ts[|ts| - 1].Fork? && Full(ts[|ts| - 1])
    ensures Rest(ts) == [ts[|ts| - 1].node] + Rest(Unfolded(ts))
  {
    hide Rest, Pre, Full;
    var init, t := ts[..|ts| - 1], ts[|ts| - 1];
    assert ts == init + [t];
    if t.left.Nil? {
      RestLeaf(init, t);
      assert Unfolded(ts) == init;
    } else {
      RestFork(init, t);
    }
  }

  lemma RestLeaf(ts: seq<Shape>, t: Shape)
    requires t.Fork? && Full(t) && t.left.Nil?
    ensures Rest(ts + [t]) == [t.node] + Rest(ts)
  {
    hide *;
    PreUnfolds(t);
    RestPush(ts, t);
  }

  lemma RestFork(ts: seq<Shape>, t: Shape)
    requires t.Fork? && Full(t)
    ensures Rest(ts + [t]) == [t.node] + Rest(ts + [t.right, t.left])
  {
    hide *;
    PreUnfolds(t);
    RestPush(ts, t);
    RestPushTwo(ts, t.right, t.left);
    Regroup(t.node, Pre(t.left), Pre(t.right), Rest(ts));
  }

  lemma RestPushTwo(ts: seq<Shape>, a: Shape, b: Shape)
    ensures Rest(ts + [a, b]) == Pre(b) + (Pre(a) + Rest(ts))
  {
    assert ts + [a, b] == (ts + [a]) + [b];
    RestPush(ts, a);
    RestPush(ts + [a], b);
  }

  lemma PreUnfolds(t: Shape)
    requires t.Fork? && Full(t)
    ensures Pre(t) == [t.node] + Pre(t.left) + Pre(t.right) && (t.left.Nil? ==> Pre(t) == [t.node])
  {
  }

  lemma Regroup(x: Node, a: seq<Node>, b: seq<Node>, c: seq<Node>)
    ensures ([x] + a + b) + c == [x] + (a + (b + c))
  {
  }

  lemma RestPush(ts: seq<Shape>, t: Shape)
    ensures Rest(ts + [t]) == Pre(t) + Rest(ts)
  {
    assert (ts + [t])[..|ts|] == ts;
  }

  /** Children of the tree on top fit where they are pushed. */
  lemma Children(ts: seq<Shape>)
    requires ts != [] && |ts| <= DfsSize && ts[|ts| - 1].Fork? && Full(ts[|ts| - 1]) && Levels(ts[|ts| - 1]) <= DfsSize - (|ts| - 1)
    ensures var t := ts[|ts| - 1];
      !t.left.Nil? ==>
        && |ts| < DfsSize && t.left.Fork? && t.right.Fork? && Full(t.left) && Full(t.right)
        && Levels(t.left) <= DfsSize - |ts| && Levels(t.right) <= DfsSize - |ts|
  {
    var t := ts[|ts| - 1];
    if !t.left.Nil? {
      assert Levels(t.left) >= 1;
    }
  }

  /** Taking a node from the stack and stacking its children; with at most twenty levels there is room. */
  method NextNode(s: Stack, ghost ts: seq<Shape>) returns (v: Node)
    requires Stacked(s, ts) && AllWired(ts) && ts != []
    modifies s`top, s.handles
    ensures v == ts[|ts| - 1].node && Stacked(s, Unfolded(ts))
  {
    ghost var t := ts[|ts| - 1];
    Children(ts);
    WiredNode(t);
    hide Wired, Levels, Full;
    var top := s.Pop();
    v := top;
    if v.left != null {
      s.Push(v.right);
      s.Push(v.left);
    }
  }

  lemma AllWiredUnfolded(ts: seq<Shape>)
    requires AllWired(ts) && ts != [] && ts[|ts| - 1].Fork?
    ensures AllWired(Unfolded(ts))
  {
    WiredNode(ts[|ts| - 1]);
  }

  lemma WiredNode(t: Shape)
    requires t.Fork? && Wired(t)
    ensures t.node.left == Root(t.left) && t.node.right == Root(t.right) && Wired(t.left) && Wired(t.right)
  {
  }

  datatype Visit = VisitCollect | VisitCollectReplace | VisitReplace

  method Apply(visit: Visit, t: Node, collection: array<int>, num: nat)
    requires num < collection.Length
    modifies t`value, collection
    ensures collection[..] == old(collection[..])[num := if visit.VisitReplace? then old(collection[num]) else old(t.value)]
    ensures t.value == if visit.VisitCollect? then old(t.value) else old(collection[num])
  {
    match visit {
      case VisitCollect =>
        collection[num] := t.value;
      case VisitCollectReplace =>
        var temp, val := collection[num], t.value;
        collection[num] := val;
        t.value := temp;
      case VisitReplace =>
        t.value := collection[num];
    }
  }

  function Least(a: nat, b: nat): nat {
    if a < b then a else b
  }

  lemma RestEmpty(ts: seq<Shape>)
    requires forall i :: 0 <= i < |ts| ==> ts[i].Fork?
    ensures Rest(ts) == [] <==> ts == []
  {
  }

  /** What the visit of n nodes does to them and to the collection, given what both held before. */
  ghost predicate Visited(visit: Visit, pre: seq<Node>, n: nat, collection: array<int>, held: seq<int>, stored: seq<int>)
    requires n <= |pre| == |held| && n <= collection.Length == |stored|
    reads pre, collection
  {
    && (forall k {:trigger collection[k]} :: 0 <= k < n ==> collection[k] == if visit.VisitReplace? then stored[k] else held[k])
    && (forall k {:trigger collection[k]} :: n <= k < collection.Length ==> collection[k] == stored[k])
    && (forall k {:trigger pre[k].value} :: 0 <= k < n ==> pre[k].value == if visit.VisitCollect? then held[k] else stored[k])
    && (forall k {:trigger pre[k].value} :: n <= k < |pre| ==> pre[k].value == held[k])
  }

  /** The values of these nodes. */
  ghost function Held(s: seq<Node>): (r: seq<int>)
    reads s`value
    ensures |r| == |s| && forall k {:trigger r[k]} {:trigger s[k]} :: 0 <= k < |s| ==> r[k] == s[k].value
  {
    if s == [] then [] else Held(s[..|s| - 1]) + [s[|s| - 1].value]
  }

  /** swapDFS: visits the next 256 nodes in preorder, or all that are left. */
  method SwapDFS(s: Stack, collection: array<int>, visit: Visit, ghost ts0: seq<Shape>) returns (ghost ts: seq<Shape>)
    requires Stacked(s, ts0) && AllWired(ts0) && collection.Length == CollectSize && NoDup(Rest(ts0)) && collection != s.handles as object
    modifies s`top, s.handles, collection, Now(Rest(ts0))`value
    ensures Stacked(s, ts) && AllWired(ts) && Rest(ts) == Later(Rest(ts0))
    ensures var now := Now(Rest(ts0)); var n := |now|;
      && n <= collection.Length && Before(collection[..], n) == (if visit.VisitReplace? then Before(old(collection[..]), n) else old(Held(now)))
      && Held(now) == if visit.VisitCollect? then old(Held(now)) else Before(old(collection[..]), n)
  {
    hide *;
    ts := ts0;
    ghost var pre, held, stored := Rest(ts0), Held(Rest(ts0)), collection[..];
    var num := 0;
    StackForks(s, ts);
    RestEmpty(ts);
    NoneVisited(visit, pre, collection);
    NowLength(pre);
    HeldPrefix(pre, |Now(pre)|);
    while s.top >= 0 && num < CollectSize
      invariant Stacked(s, ts) && AllWired(ts) && num <= CollectSize && num <= |pre| && Rest(ts) == pre[num..]
      invariant Visited(visit, pre, num, collection, held, stored)
      invariant s.top >= 0 <==> ts != []
      invariant Rest(ts) == [] <==> ts == []
      decreases |pre| - num
    {
      ts := VisitNext(s, collection, visit, num, ts, pre, held, stored);
      num := num + 1;
      StackForks(s, ts);
      RestEmpty(ts);
    }
    LeastIs(CollectSize, |pre|, num);
    NowVisited(visit, pre, num, collection, held, stored);
  }

  /** The nodes of one chunk. */
  function Now(pre: seq<Node>): seq<Node> {
    pre[..Least(CollectSize, |pre|)]
  }

  function Later(pre: seq<Node>): seq<Node> {
    pre[Least(CollectSize, |pre|)..]
  }

  lemma NowVisited(visit: Visit, pre: seq<Node>, n: nat, collection: array<int>, held: seq<int>, stored: seq<int>)
    requires n == Least(CollectSize, |pre|) && n <= collection.Length == |stored| && |held| == |pre| && Visited(visit, pre, n, collection, held, stored)
    ensures |Now(pre)| == n && Later(pre) == pre[n..]
    ensures Before(collection[..], n) == if visit.VisitReplace? then Before(stored, n) else held[..n]
    ensures Held(Now(pre)) == if visit.VisitCollect? then held[..n] else Before(stored, n)
  {
    assert collection[..][..n] == collection[..n];
    forall k | 0 <= k < n ensures Now(pre)[k].value == if visit.VisitCollect? then held[k] else stored[k] {
      assert Now(pre)[k] == pre[k];
    }
  }

  lemma NowLength(pre: seq<Node>)
    ensures |Now(pre)| <= |pre| && |Now(pre)| <= CollectSize && Now(pre) == pre[..|Now(pre)|] && Later(pre) == pre[|Now(pre)|..]
    ensures forall k :: 0 <= k < |pre| && k < CollectSize ==> k < |Now(pre)| && Now(pre)[k] == pre[k]
    ensures pre != [] ==> Now(pre) != []
  {
  }

  lemma HeldPrefix(pre: seq<Node>, n: nat)
    requires n <= |pre|
    ensures Held(pre[..n]) == Held(pre)[..n]
  {
  }

  lemma LeastIs(a: nat, b: nat, n: nat)
    ensures n <= a && n <= b && (n == a || n == b) ==> n == Least(a, b)
  {
  }

  lemma NoneVisited(visit: Visit, pre: seq<Node>, collection: array<int>)
    ensures Visited(visit, pre, 0, collection, Held(pre), collection[..])
  {
  }

  /** One turn of swapDFS. */
  method VisitNext(s: Stack, collection: array<int>, visit: Visit, num: nat, ghost ts: seq<Shape>, ghost pre: seq<Node>, ghost held: seq<int>, ghost stored: seq<int>)
    returns (ghost ts': seq<Shape>)
    requires Stacked(s, ts) && AllWired(ts) && ts != [] && num < |pre| == |held| && num < collection.Length == |stored| && NoDup(pre)
    requires Rest(ts) == pre[num..] && collection != s.handles as object && Visited(visit, pre, num, collection, held, stored)
    modifies s`top, s.handles, collection, {pre[num]}`value
    ensures Stacked(s, ts') && AllWired(ts') && Rest(ts') == pre[num + 1..] && Visited(visit, pre, num + 1, collection, held, stored)
  {
    StackForks(s, ts);
    RestUnfolds(ts);
    AllWiredUnfolded(ts);
    ts' := Unfolded(ts);
    assert ts[|ts| - 1].node == pre[num];
    AllAllocated(ts');
    hide Rest, Unfolded, AllWired, Stacked, Wired, Visited;
    var v := NextNode(s, ts);
    assert Visited(visit, pre, num, collection, held, stored);
    ApplyNext(visit, v, collection, num, pre, held, stored);
  }

  /** In this module no link ever changes. */
  lemma AllAllocated(ts: seq<Shape>)
    ensures forall n :: n in NodesAll(ts) ==> allocated(n)
  {
    forall i | 0 <= i < |ts| ensures forall n :: n in Nodes(ts[i]) ==> allocated(n) {
      NodesAllocated(ts[i]);
    }
  }

  method ApplyNext(visit: Visit, v: Node, collection: array<int>, num: nat, ghost pre: seq<Node>, ghost held: seq<int>, ghost stored: seq<int>)
    requires num < |pre| == |held| && num < collection.Length == |stored| && NoDup(pre) && v == pre[num]
    requires Visited(visit, pre, num, collection, held, stored)
    modifies v`value, collection
    ensures Visited(visit, pre, num + 1, collection, held, stored)
  {
    assert v.value == held[num] && collection[num] == stored[num];
    Apply(visit, v, collection, num);
  }

  lemma StackForks(s: Stack, ts: seq<Shape>)
    requires Stacked(s, ts)
    ensures s.top == |ts| - 1 && forall i :: 0 <= i < |ts| ==> ts[i].Fork? && Full(ts[i])
  {
  }

  ghost predicate Apart(a: seq<Node>, b: seq<Node>) {
    NoDup(a) && NoDup(b) && forall i, j :: 0 <= i < |a| && 0 <= j < |b| ==> a[i] != b[j]
  }

  lemma ApartNow(a: seq<Node>, b: seq<Node>)
    requires Apart(a, b) && |a| == |b|
    ensures Apart(Now(a), Now(b)) && Apart(Later(a), Later(b)) && |Now(a)| == |Now(b)| && |Later(a)| == |Later(b)|
    ensures Apart(Now(a), Later(a)) && Apart(Now(b), Later(b)) && Apart(Now(a), Later(b)) && Apart(Now(b), Later(a))
    ensures NoDup(a) && NoDup(b) && |Now(a)| <= CollectSize && (a != [] ==> |Later(a)| < |a|)
    ensures a == Now(a) + Later(a) && b == Now(b) + Later(b)
  {
  }

  /** The three stacks and the collection are different objects. */
  predicate Separate(c1: Stack, s2: Stack, r1: Stack, collection: array<int>) {
    && c1 != s2 && c1 != r1 && s2 != r1 && c1.handles != s2.handles && c1.handles != r1.handles && s2.handles != r1.handles
    && collection != c1.handles as object && collection != s2.handles as object && collection != r1.handles as object
    && collection.Length == CollectSize
  }

  /** The first two traversals of a turn: the collection takes over what the first tree had, then changes places with the second. */
  method CollectBoth(c1: Stack, s2: Stack, collection: array<int>, ghost tc: seq<Shape>, ghost ts: seq<Shape>)
    returns (ghost tc': seq<Shape>, ghost ts': seq<Shape>)
    requires Stacked(c1, tc) && AllWired(tc) && Stacked(s2, ts) && AllWired(ts)
    requires |Rest(tc)| == |Rest(ts)| && Apart(Rest(tc), Rest(ts)) && collection.Length == CollectSize
    requires c1 != s2 && c1.handles != s2.handles && collection != c1.handles as object && collection != s2.handles as object
    modifies c1`top, c1.handles, s2`top, s2.handles, collection, Now(Rest(tc))`value, Now(Rest(ts))`value
    ensures Stacked(c1, tc') && AllWired(tc') && Stacked(s2, ts') && AllWired(ts')
    ensures Rest(tc') == Later(Rest(tc)) && Rest(ts') == Later(Rest(ts)) && |Now(Rest(tc))| == |Now(Rest(ts))| <= collection.Length
    ensures Before(collection[..], |Now(Rest(ts))|) == old(Held(Now(Rest(ts)))) && Held(Now(Rest(ts))) == old(Held(Now(Rest(tc))))
  {
    hide *;
    ghost var a, b := Now(Rest(tc)), Now(Rest(ts));
    AllAllocated(ts);
    ApartNow(Rest(tc), Rest(ts));
    ApartNodes(a, b);
    NowAllocated(ts);
    tc' := SwapDFS(c1, collection, VisitCollect, tc);
    AllAllocated(tc');
    assert Before(collection[..], |a|) == old(Held(a)) && Held(b) == old(Held(b));
    ts' := SwapDFS(s2, collection, VisitCollectReplace, ts);
  }

  lemma {:induction false} RestAllocated(ts: seq<Shape>)
    ensures forall i :: 0 <= i < |Rest(ts)| ==> allocated(Rest(ts)[i])
  {
    if ts != [] {
      PreAllocated(ts[|ts| - 1]);
      RestAllocated(ts[..|ts| - 1]);
      hide Pre;
    }
  }

  lemma NowAllocated(ts: seq<Shape>)
    ensures forall i :: 0 <= i < |Now(Rest(ts))| ==> allocated(Now(Rest(ts))[i])
  {
    RestAllocated(ts);
    NowLength(Rest(ts));
    hide Rest;
  }

  /** One turn of NewSwapSubTree's loop: the next chunks of both trees change places. */
  method SwapChunk(c1: Stack, s2: Stack, r1: Stack, collection: array<int>, ghost tc: seq<Shape>, ghost ts: seq<Shape>, ghost tr: seq<Shape>)
    returns (ghost tc': seq<Shape>, ghost ts': seq<Shape>, ghost tr': seq<Shape>)
    requires Stacked(c1, tc) && AllWired(tc) && Stacked(s2, ts) && AllWired(ts) && Stacked(r1, tr) && AllWired(tr)
    requires Rest(tc) == Rest(tr) && |Rest(tc)| == |Rest(ts)| && Apart(Rest(tc), Rest(ts))
    requires Separate(c1, s2, r1, collection)
    modifies c1`top, c1.handles, s2`top, s2.handles, r1`top, r1.handles, collection, Now(Rest(tc))`value, Now(Rest(ts))`value
    ensures Stacked(c1, tc') && AllWired(tc') && Stacked(s2, ts') && AllWired(ts') && Stacked(r1, tr') && AllWired(tr')
    ensures Rest(tc') == Rest(tr') == Later(Rest(tc)) && Rest(ts') == Later(Rest(ts))
    ensures Held(Now(Rest(tc))) == old(Held(Now(Rest(ts)))) && Held(Now(Rest(ts))) == old(Held(Now(Rest(tc))))
  {
    hide *;
    SeparateIs(c1, s2, r1, collection);
    AllAllocated(tr);
    ApartNow(Rest(tc), Rest(ts));
    ApartNodes(Now(Rest(tc)), Now(Rest(ts)));
    NowAllocated(ts);
    tc', ts' := CollectBoth(c1, s2, collection, tc, ts);
    AllAllocated(tc');
    AllAllocated(ts');
    tr' := SwapDFS(r1, collection, VisitReplace, tr);
  }

  lemma {:induction false} HeldConcat(s: seq<Node>, t: seq<Node>)
    ensures Held(s + t) == Held(s) + Held(t)
  {
  }

  /** done has been exchanged, rest is still to come; v and w are the values of both trees at the start. */
  ghost predicate Halfway(done: seq<Node>, rest: seq<Node>, all: seq<Node>, v: seq<int>, w: seq<int>)
    reads done`value, rest`value
  {
    && |v| == |w| == |all| && done + rest == all
    && Held(done) == w[..|done|] && Held(rest) == v[|done|..]
  }

  lemma HalfwayNext(done: seq<Node>, now: seq<Node>, later: seq<Node>, all: seq<Node>, v: seq<int>, w: seq<int>)
    requires |v| == |w| == |all| && done + (now + later) == all
    requires Held(done) == Before(w, |done|) && Held(later) == After(v, |done| + |now|) && Held(now) == Slice(w, |done|, |now|)
    ensures Halfway(done + now, later, all, v, w)
  {
    HeldConcat(done, now);
    HeldLength(done);
    HeldLength(now);
    Joined(w, Held(done), Held(now));
    ThreeNodes(done, now, later);
    hide Held;
  }

  lemma HeldLength(s: seq<Node>)
    ensures |Held(s)| == |s|
  {
  }

  lemma Joined(w: seq<int>, a: seq<int>, b: seq<int>)
    requires |a| + |b| <= |w| && a == w[..|a|] && b == w[|a|..|a| + |b|]
    ensures a + b == w[..|a| + |b|]
  {
  }

  lemma Split(v: seq<int>, d: nat, a: seq<int>, b: seq<int>)
    requires d <= |v| && v[d..] == a + b
    ensures d + |a| <= |v| && a == v[d..d + |a|] && b == v[d + |a|..]
  {
    assert v == v[..d] + (a + b);
  }

  lemma ThreeNodes(a: seq<Node>, b: seq<Node>, c: seq<Node>)
    ensures (a + b) + c == a + (b + c)
  {
  }

  /** Before a chunk: the values of its nodes. */
  lemma HalfwayNow(done: seq<Node>, now: seq<Node>, later: seq<Node>, all: seq<Node>, v: seq<int>, w: seq<int>)
    requires Halfway(done, now + later, all, v, w)
    ensures |v| == |w| == |all| && done + (now + later) == all && Held(done) == Before(w, |done|)
    ensures Held(now) == Slice(v, |done|, |now|) && Held(later) == After(v, |done| + |now|)
  {
    HeldConcat(now, later);
    HeldLength(now);
    HeldLength(later);
    Split(v, |done|, Held(now), Held(later));
    hide Held;
  }

  lemma StartHalfway(all: seq<Node>, w: seq<int>)
    requires |w| == |all|
    ensures Halfway([], all, all, Held(all), w)
  {
  }

  lemma EndHalfway(done: seq<Node>, all: seq<Node>, v: seq<int>, w: seq<int>)
    requires Halfway(done, [], all, v, w)
    ensures Held(all) == w
  {
    assert done == all;
  }

  lemma ApartParts(da: seq<Node>, ra: seq<Node>, db: seq<Node>, rb: seq<Node>, a: seq<Node>, b: seq<Node>)
    requires Apart(a, b) && da + ra == a && db + rb == b
    ensures Apart(ra, rb) && Apart(da, ra) && Apart(da, rb) && Apart(db, ra) && Apart(db, rb)
  {
    assert forall i :: 0 <= i < |da| ==> a[i] == da[i];
    assert forall i :: 0 <= i < |ra| ==> a[|da| + i] == ra[i];
    assert forall i :: 0 <= i < |db| ==> b[i] == db[i];
    assert forall i :: 0 <= i < |rb| ==> b[|db| + i] == rb[i];
  }

  /** The other nodes keep their values. */
  method SwapOnly(c1: Stack, s2: Stack, r1: Stack, collection: array<int>, ghost tc: seq<Shape>, ghost ts: seq<Shape>, ghost tr: seq<Shape>,
                  ghost da: seq<Node>, ghost db: seq<Node>, ghost la: seq<Node>, ghost lb: seq<Node>)
    returns (ghost tc': seq<Shape>, ghost ts': seq<Shape>, ghost tr': seq<Shape>)
    requires Stacked(c1, tc) && AllWired(tc) && Stacked(s2, ts) && AllWired(ts) && Stacked(r1, tr) && AllWired(tr)
    requires Rest(tc) == Rest(tr) && |Rest(tc)| == |Rest(ts)| && Apart(Rest(tc), Rest(ts))
    requires Separate(c1, s2, r1, collection)
    requires forall i :: 0 <= i < |da| ==> da[i] !in Now(Rest(tc)) && da[i] !in Now(Rest(ts))
    requires forall i :: 0 <= i < |la| ==> la[i] !in Now(Rest(tc)) && la[i] !in Now(Rest(ts))
    requires forall i :: 0 <= i < |db| ==> db[i] !in Now(Rest(tc)) && db[i] !in Now(Rest(ts))
    requires forall i :: 0 <= i < |lb| ==> lb[i] !in Now(Rest(tc)) && lb[i] !in Now(Rest(ts))
    modifies c1`top, c1.handles, s2`top, s2.handles, r1`top, r1.handles, collection, Now(Rest(tc))`value, Now(Rest(ts))`value
    ensures Stacked(c1, tc') && AllWired(tc') && Stacked(s2, ts') && AllWired(ts') && Stacked(r1, tr') && AllWired(tr')
    ensures Rest(tc') == Rest(tr') == Later(Rest(tc)) && Rest(ts') == Later(Rest(ts))
    ensures Held(Now(Rest(tc))) == old(Held(Now(Rest(ts)))) && Held(Now(Rest(ts))) == old(Held(Now(Rest(tc))))
    ensures Held(da) == old(Held(da)) && Held(db) == old(Held(db)) && Held(la) == old(Held(la)) && Held(lb) == old(Held(lb))
  {
    hide *;
    tc', ts', tr' := SwapChunk(c1, s2, r1, collection, tc, ts, tr);
  }

  /** One turn, seen from both trees. */
  method SwapTurn(c1: Stack, s2: Stack, r1: Stack, collection: array<int>, ghost tc: seq<Shape>, ghost ts: seq<Shape>, ghost tr: seq<Shape>,
                  ghost da: seq<Node>, ghost db: seq<Node>, ghost a: seq<Node>, ghost b: seq<Node>, ghost v: seq<int>, ghost w: seq<int>)
    returns (ghost tc': seq<Shape>, ghost ts': seq<Shape>, ghost tr': seq<Shape>, ghost da': seq<Node>, ghost db': seq<Node>)
    requires Stacked(c1, tc) && AllWired(tc) && Stacked(s2, ts) && AllWired(ts) && Stacked(r1, tr) && AllWired(tr)
    requires Rest(tc) == Rest(tr) && Apart(a, b) && |da| == |db| && |a| == |b|
    requires Halfway(da, Rest(tc), a, v, w) && Halfway(db, Rest(ts), b, w, v)
    requires Separate(c1, s2, r1, collection)
    modifies c1`top, c1.handles, s2`top, s2.handles, r1`top, r1.handles, collection, a`value, b`value
    ensures Stacked(c1, tc') && AllWired(tc') && Stacked(s2, ts') && AllWired(ts') && Stacked(r1, tr') && AllWired(tr')
    ensures Rest(tc') == Rest(tr') && |da'| == |db'| && Halfway(da', Rest(tc'), a, v, w) && Halfway(db', Rest(ts'), b, w, v)
    ensures Rest(tc) != [] ==> |Rest(tc')| < |Rest(tc)|
  {
    hide *;
    ghost var na, la, nb, lb := Now(Rest(tc)), Later(Rest(tc)), Now(Rest(ts)), Later(Rest(ts));
    HalfwayJoin(da, Rest(tc), a, v, w);
    HalfwayJoin(db, Rest(ts), b, w, v);
    ApartParts(da, Rest(tc), db, Rest(ts), a, b);
    ApartNow(Rest(tc), Rest(ts));
    HalfwayNow(da, na, la, a, v, w);
    HalfwayNow(db, nb, lb, b, w, v);
    Untouched(da, db, na, la, nb, lb, a, b);
    tc', ts', tr' := SwapOnly(c1, s2, r1, collection, tc, ts, tr, da, db, la, lb);
    da', db' := da + na, db + nb;
    HalfwayNext(da, na, la, a, v, w);
    HalfwayNext(db, nb, lb, b, w, v);
  }

  lemma HalfwayJoin(done: seq<Node>, rest: seq<Node>, all: seq<Node>, v: seq<int>, w: seq<int>)
    requires Halfway(done, rest, all, v, w)
    ensures done + rest == all && |v| == |w| == |all| && |rest| == |all| - |done|
  {
  }

  lemma Untouched(da: seq<Node>, db: seq<Node>, na: seq<Node>, la: seq<Node>, nb: seq<Node>, lb: seq<Node>, a: seq<Node>, b: seq<Node>)
    requires da + (na + la) == a && db + (nb + lb) == b && Apart(a, b)
    ensures forall i :: 0 <= i < |da| ==> da[i] !in na && da[i] !in nb && da[i] in a
    ensures forall i :: 0 <= i < |la| ==> la[i] !in na && la[i] !in nb && la[i] in a
    ensures forall i :: 0 <= i < |db| ==> db[i] !in na && db[i] !in nb && db[i] in b
    ensures forall i :: 0 <= i < |lb| ==> lb[i] !in na && lb[i] !in nb && lb[i] in b
    ensures forall i :: 0 <= i < |na| ==> na[i] in a
    ensures forall i :: 0 <= i < |nb| ==> nb[i] in b
  {
    assert a == da + na + la && b == db + nb + lb;
    assert forall i :: 0 <= i < |da| ==> a[i] == da[i];
    assert forall i :: 0 <= i < |na| ==> a[|da| + i] == na[i];
    assert forall i :: 0 <= i < |la| ==> a[|da| + |na| + i] == la[i];
    assert forall i :: 0 <= i < |db| ==> b[i] == db[i];
    assert forall i :: 0 <= i < |nb| ==> b[|db| + i] == nb[i];
    assert forall i :: 0 <= i < |lb| ==> b[|db| + |nb| + i] == lb[i];
  }

  /** Two separate full trees with equally many nodes. */
  ghost predicate Exchangeable(t1: Node?, t2: Node?, a: Shape, b: Shape)
    reads Nodes(a)`left, Nodes(a)`right, Nodes(b)`left, Nodes(b)`right
  {
    && t1 == Root(a) && t2 == Root(b) && Wired(a) && Wired(b)
    && Apart(Pre(a), Pre(b)) && |Pre(a)| == |Pre(b)|
  }

  lemma OneTree(s: Stack, t: Shape)
    requires s.handles.Length == DfsSize && s.top == 0 && t.Fork? && s.handles[0] == t.node && Full(t) && Levels(t) <= DfsSize && Wired(t)
    ensures Stacked(s, [t]) && AllWired([t]) && Rest([t]) == Pre(t)
  {
    assert [t][..0] == [];
  }

  /** The first push onto a new stack. */
  method StartStack(t1: Node, ghost t: Shape) returns (s: Stack)
    requires t.Fork? && t1 == t.node && Full(t) && Levels(t) <= DfsSize && Wired(t)
    ensures fresh(s) && fresh(s.handles) && Stacked(s, [t]) && AllWired([t]) && Rest([t]) == Pre(t) && NodesAll([t]) == Nodes(t)
  {
    NodesAllocated(t);
    s := new Stack();
    s.Push(t1);
    OneTree(s, t);
  }

  /** NewSwapSubTree: all values change places, node by node in preorder. */
  method NewSwapSubTree(t1: Node?, t2: Node?, ghost a: Shape, ghost b: Shape)
    requires Exchangeable(t1, t2, a, b) && Full(a) && Full(b) && Levels(a) <= DfsSize && Levels(b) <= DfsSize
    modifies Pre(a)`value, Pre(b)`value
    ensures Held(Pre(a)) == old(Held(Pre(b))) && Held(Pre(b)) == old(Held(Pre(a)))
    ensures SameForm(a, b) ==> Image(a) == old(Image(b)) && Image(b) == old(Image(a))
  {
    hide *;
    Images(a, b);
    if t1 != null {
      NewSwapNonempty(t1, t2, a, b);
    } else {
      ExchangeableParts(t1, t2, a, b);
      NoValues(a, b);
    }
    Images(a, b);
  }

  lemma NoValues(a: Shape, b: Shape)
    requires Root(a) == null && |Pre(a)| == |Pre(b)|
    ensures Held(Pre(a)) == Held(Pre(b))
  {
  }

  /** Trees of one form differ only by their values in preorder. */
  lemma Images(a: Shape, b: Shape)
    ensures |Held(Pre(a))| == |Pre(a)| && |Held(Pre(b))| == |Pre(b)|
    ensures Image(a) == Labels(a, Held(Pre(a))) && Image(b) == Labels(b, Held(Pre(b)))
    ensures SameForm(a, b) ==> |Pre(a)| == |Pre(b)| && forall v {:trigger Labels(a, v)} :: |v| == |Pre(a)| ==> Labels(a, v) == Labels(b, v)
  {
    ImageIsLabels(a);
    ImageIsLabels(b);
    if SameForm(a, b) {
      forall v | |v| == |Pre(a)| ensures |Pre(a)| == |Pre(b)| && Labels(a, v) == Labels(b, v) {
        SameFormLabels(a, b, v);
      }
      SameFormLabels(a, b, Held(Pre(a)));
    }
  }

  method NewSwapNonempty(t1: Node, t2: Node?, ghost a: Shape, ghost b: Shape)
    requires Exchangeable(t1, t2, a, b) && Full(a) && Full(b) && Levels(a) <= DfsSize && Levels(b) <= DfsSize
    modifies Pre(a)`value, Pre(b)`value
    ensures Held(Pre(a)) == old(Held(Pre(b))) && Held(Pre(b)) == old(Held(Pre(a)))
  {
    hide *;
    ghost var na, nb := Pre(a), Pre(b);
    ghost var v, w := Held(na), Held(nb);
    ExchangeableParts(t1, t2, a, b);
    NodesAllocated(a);
    NodesAllocated(b);
    HeldLength(na);
    HeldLength(nb);
    var c1 := StartStack(t1, a);
    var r1 := StartStack(t1, a);
    var s2 := StartStack(t2, b);
    var collection := new int[CollectSize];
    SeparateIs(c1, s2, r1, collection);
    StartHalfway(na, w);
    StartHalfway(nb, v);
    SwapLoop(c1, s2, r1, collection, [a], [b], na, nb, v, w);
  }

  /** The loop of NewSwapSubTree. */
  method SwapLoop(c1: Stack, s2: Stack, r1: Stack, collection: array<int>, ghost tc0: seq<Shape>, ghost ts0: seq<Shape>,
                  ghost a: seq<Node>, ghost b: seq<Node>, ghost v: seq<int>, ghost w: seq<int>)
    requires Stacked(c1, tc0) && AllWired(tc0) && Stacked(s2, ts0) && AllWired(ts0) && Stacked(r1, tc0)
    requires Apart(a, b) && |a| == |b|
    requires Halfway([], Rest(tc0), a, v, w) && Halfway([], Rest(ts0), b, w, v)
    requires Separate(c1, s2, r1, collection)
    modifies c1`top, c1.handles, s2`top, s2.handles, r1`top, r1.handles, collection, a`value, b`value
    ensures Held(a) == w && Held(b) == v
  {
    hide *;
    ghost var tc, tr, ts := tc0, tc0, ts0;
    ghost var da: seq<Node>, db: seq<Node> := [], [];
    StackForks(c1, tc);
    RestEmpty(tc);
    while c1.top >= 0
      invariant Stacked(c1, tc) && AllWired(tc) && Stacked(s2, ts) && AllWired(ts) && Stacked(r1, tr) && AllWired(tr)
      invariant Rest(tc) == Rest(tr) && |da| == |db| && Halfway(da, Rest(tc), a, v, w) && Halfway(db, Rest(ts), b, w, v)
      invariant c1.top >= 0 <==> Rest(tc) != []
      decreases |Rest(tc)|
    {
      tc, ts, tr, da, db := SwapTurn(c1, s2, r1, collection, tc, ts, tr, da, db, a, b, v, w);
      StackForks(c1, tc);
      RestEmpty(tc);
    }
    HalfwayJoin(da, Rest(tc), a, v, w);
    HalfwayJoin(db, Rest(ts), b, w, v);
    EndHalfway(da, a, v, w);
    EndHalfway(db, b, w, v);
  }

  lemma SeparateIs(c1: Stack, s2: Stack, r1: Stack, collection: array<int>)
    ensures Separate(c1, s2, r1, collection) <==>
      && c1 != s2 && c1 != r1 && s2 != r1 && c1.handles != s2.handles && c1.handles != r1.handles && s2.handles != r1.handles
      && collection != c1.handles as object && collection != s2.handles as object && collection != r1.handles as object
      && collection.Length == CollectSize
    ensures CollectSize == 256
  {
  }

  lemma ExchangeableParts(t1: Node?, t2: Node?, a: Shape, b: Shape)
    requires Exchangeable(t1, t2, a, b)
    ensures t1 == Root(a) && t2 == Root(b) && Wired(a) && Wired(b) && Apart(Pre(a), Pre(b)) && |Pre(a)| == |Pre(b)|
    ensures t1 != null ==> a.Fork? && a.node == t1
    ensures t1 != null ==> t2 != null && b.Fork? && b.node == t2
  {
  }

  // ------------------------------------------------------------ the recursive form

  lemma PreFork(t: Shape)
    requires t.Fork? && Wired(t)
    ensures Pre(t) == [t.node] + Pre(t.left) + Pre(t.right) && |Pre(t)| == 1 + |Pre(t.left)| + |Pre(t.right)|
    ensures t.node.left == Root(t.left) && t.node.right == Root(t.right) && Wired(t.left) && Wired(t.right)
    ensures Held(Pre(t)) == [t.node.value] + Held(Pre(t.left)) + Held(Pre(t.right))
  {
    HeldThree(t.node, Pre(t.left), Pre(t.right));
  }

  lemma HeldThree(x: Node, a: seq<Node>, b: seq<Node>)
    ensures Held([x] + a + b) == [x.value] + Held(a) + Held(b)
  {
    HeldConcat([x] + a, b);
    HeldConcat([x], a);
    HeldOne(x);
    hide Held;
  }

  lemma HeldOne(x: Node)
    ensures Held([x]) == [x.value]
  {
  }

  lemma PreNil(t: Shape)
    ensures t.Nil? ==> Pre(t) == [] && Held(Pre(t)) == []
    ensures t.Nil? <==> Root(t) == null
    ensures |Held(Pre(t))| == |Pre(t)|
  {
  }

  lemma PreAllocated(t: Shape)
    ensures forall n :: n in Nodes(t) ==> allocated(n)
    ensures forall i :: 0 <= i < |Pre(t)| ==> allocated(Pre(t)[i])
  {
    NodesAllocated(t);
    PreNodes(t);
    assert forall i :: 0 <= i < |Pre(t)| ==> Pre(t)[i] in Pre(t);
  }

  lemma RootFork(t: Shape)
    requires Root(t) != null
    ensures t.Fork? && t.node == Root(t)
  {
  }

  /** A buffer with s from position at on. */
  function Put(c: seq<int>, at: nat, s: seq<int>): seq<int>
    requires at + |s| <= |c|
  {
    c[..at] + s + c[at + |s|..]
  }

  lemma NoSlice(c: seq<int>, at: nat)
    requires at <= |c|
    ensures Slice(c, at, 0) == []
  {
  }

  lemma PutPut(c: seq<int>, at: nat, x: int, s: seq<int>, t: seq<int>)
    requires at + 1 + |s| + |t| <= |c|
    ensures Put(Put(c[at := x], at + 1, s), at + 1 + |s|, t) == Put(c, at, [x] + s + t)
  {
  }

  lemma PutNothing(c: seq<int>, at: nat)
    requires at <= |c|
    ensures Put(c, at, []) == c
  {
  }

  /** Collect: the values of the tree in preorder. */
  method Collect(t1: Node?, collection: array<int>, at: nat, ghost t: Shape) returns (next: nat)
    requires t1 == Root(t) && Wired(t) && at + |Pre(t)| <= collection.Length
    modifies collection
    ensures next == at + |Pre(t)| && |Held(Pre(t))| == |Pre(t)| && collection[..] == Put(old(collection[..]), at, Held(Pre(t)))
    decreases t
  {
    hide *;
    PreNil(t);
    PutNothing(collection[..], at);
    next := at;
    if t1 != null {
      RootFork(t);
      PreFork(t);
      PreNil(t.left);
      PreNil(t.right);
      PreAllocated(t.left);
      PreAllocated(t.right);
      ghost var c := collection[..];
      collection[at] := t1.value;
      next := Collect(t1.left, collection, at + 1, t.left);
      next := Collect(t1.right, collection, next, t.right);
      PutPut(c, at, t1.value, Held(Pre(t.left)), Held(Pre(t.right)));
    }
  }

  lemma NoDupParts(x: Node, a: seq<Node>, b: seq<Node>)
    requires NoDup([x] + a + b)
    ensures NoDup(a) && NoDup(b)
    ensures forall i :: 0 <= i < |a| ==> a[i] != x && a[i] !in b && a[i] in [x] + a + b
    ensures forall i :: 0 <= i < |b| ==> b[i] != x && b[i] !in a && b[i] in [x] + a + b
    ensures x !in a && x !in b && x in [x] + a + b
  {
    var s := [x] + a + b;
    assert s[0] == x && forall i :: 0 <= i < |a| ==> s[i + 1] == a[i];
    assert forall i :: 0 <= i < |b| ==> s[i + 1 + |a|] == b[i];
  }

  /** The part of the buffer from i to j is not touched by what is put before it. */
  lemma PutBefore(c: seq<int>, at: nat, s: seq<int>, i: nat, j: nat)
    requires at + |s| <= i <= j <= |c|
    ensures Put(c, at, s)[i..j] == c[i..j]
  {
  }

  lemma SliceJoin(c: seq<int>, at: nat, m: nat, n: nat)
    requires at < m <= n <= |c|
    ensures [c[at]] + c[at + 1..m] + c[m..n] == c[at..n]
  {
  }

  lemma SliceParts(c: seq<int>, at: nat, m: nat, n: nat)
    requires at + 1 + m + n <= |c|
    ensures [c[at]] + Slice(c, at + 1, m) + Slice(c, at + 1 + m, n) == Slice(c, at, 1 + m + n)
  {
    SliceJoin(c, at, at + 1 + m, at + 1 + m + n);
  }

  /** What the buffer held for both subtrees. */
  lemma Slices(c: seq<int>, at: nat, x: int, s: seq<int>, t: seq<int>)
    requires at + 1 + |s| + |t| <= |c|
    ensures var c1 := c[at := x]; var c2 := Put(c1, at + 1, s);
      [c[at]] + c1[at + 1..at + 1 + |s|] + c2[at + 1 + |s|..at + 1 + |s| + |t|] == c[at..at + 1 + |s| + |t|]
  {
    var c1, m, n := c[at := x], at + 1 + |s|, at + 1 + |s| + |t|;
    PutBefore(c1, at + 1, s, m, n);
    assert c1[at + 1..m] == c[at + 1..m] && c1[m..n] == c[m..n];
    SliceJoin(c, at, m, n);
  }

  /** The two recursive calls together: c, c1, c2 and c3 are the buffer before, after the node, and after each call. */
  lemma Exchanged(c: seq<int>, at: nat, x: int, l: seq<int>, r: seq<int>, c1: seq<int>, c2: seq<int>, c3: seq<int>, l': seq<int>, r': seq<int>)
    requires at + 1 + |l| + |r| <= |c| && c1 == c[at := x] && c2 == Put(c1, at + 1, l) && c3 == Put(c2, at + 1 + |l|, r)
    requires |c2| == |c| && l' == Slice(c1, at + 1, |l|) && r' == Slice(c2, at + 1 + |l|, |r|)
    ensures c3 == Put(c, at, [x] + l + r) && [c[at]] + l' + r' == Slice(c, at, 1 + |l| + |r|)
  {
    PutPut(c, at, x, l, r);
    Slices(c, at, x, l, r);
    hide Put;
  }

  /** Collect_Replace: the tree and the buffer change places. */
  method CollectReplace(t1: Node?, collection: array<int>, at: nat, ghost t: Shape) returns (next: nat)
    requires t1 == Root(t) && Wired(t) && NoDup(Pre(t)) && at + |Pre(t)| <= collection.Length
    modifies collection, Pre(t)`value
    ensures next == at + |Pre(t)| && |old(Held(Pre(t)))| == |Pre(t)| && collection[..] == Put(old(collection[..]), at, old(Held(Pre(t))))
    ensures Held(Pre(t)) == Slice(old(collection[..]), at, |Pre(t)|)
    decreases t, 1
  {
    hide *;
    PreNil(t);
    PutNothing(collection[..], at);
    NoSlice(collection[..], at);
    next := at;
    if t1 != null {
      RootFork(t);
      PreFork(t);
      PreNil(t.left);
      PreNil(t.right);
      PreAllocated(t.left);
      PreAllocated(t.right);
      NoDupParts(t.node, Pre(t.left), Pre(t.right));
      ghost var c, l, r := collection[..], Held(Pre(t.left)), Held(Pre(t.right));
      ghost var val := t1.value;
      SwapNode(t1, collection, at, Pre(t.left), Pre(t.right));
      ghost var c1, c2 := collection[..], collection[..];
      next, c2 := CollectReplaceBoth(t1, collection, at + 1, t, c1, l, r);
      PreFork(t);
      Exchanged(c, at, val, l, r, c1, c2, collection[..], Held(Pre(t.left)), Held(Pre(t.right)));
    }
  }

  /** The node itself; a and b are the nodes below it. */
  method SwapNode(t1: Node, collection: array<int>, at: nat, ghost a: seq<Node>, ghost b: seq<Node>)
    requires at < collection.Length && t1 !in a && t1 !in b
    modifies collection, t1`value
    ensures collection[..] == old(collection[..])[at := old(t1.value)] && t1.value == old(collection[..])[at]
    ensures Held(a) == old(Held(a)) && Held(b) == old(Held(b))
  {
    hide Held;
    var temp, val := collection[at], t1.value;
    collection[at] := val;
    t1.value := temp;
  }

  method CollectReplaceBoth(t1: Node, collection: array<int>, at: nat, ghost t: Shape, ghost c1: seq<int>, ghost l: seq<int>, ghost r: seq<int>)
    returns (next: nat, ghost c2: seq<int>)
    requires t.Fork? && t1 == t.node && t1.left == Root(t.left) && t1.right == Root(t.right) && Wired(t.left) && Wired(t.right)
    requires NoDup([t.node] + Pre(t.left) + Pre(t.right)) && at + |Pre(t.left)| + |Pre(t.right)| <= collection.Length
    requires c1 == collection[..] && l == Held(Pre(t.left)) && r == Held(Pre(t.right))
    modifies collection, Pre(t.left)`value, Pre(t.right)`value
    ensures next == at + |l| + |r| && |l| == |Pre(t.left)| && |r| == |Pre(t.right)| && c2 == Put(c1, at, l) && |c2| == |c1| && collection[..] == Put(c2, at + |l|, r)
    ensures Held(Pre(t.left)) == Slice(c1, at, |l|) && Held(Pre(t.right)) == Slice(c2, at + |l|, |r|) && t1.value == old(t1.value)
    decreases t, 0
  {
    hide *;
    PreNil(t.left);
    PreNil(t.right);
    PreAllocated(t.left);
    PreAllocated(t.right);
    NoDupParts(t.node, Pre(t.left), Pre(t.right));
    next := CollectReplace(t1.left, collection, at, t.left);
    c2 := collection[..];
    next := CollectReplace(t1.right, collection, next, t.right);
  }

  /** Replace: the tree takes the values of the buffer. */
  method Replace(t1: Node?, collection: array<int>, at: nat, ghost t: Shape) returns (next: nat)
    requires t1 == Root(t) && Wired(t) && NoDup(Pre(t)) && at + |Pre(t)| <= collection.Length
    modifies Pre(t)`value
    ensures next == at + |Pre(t)| && Held(Pre(t)) == Slice(collection[..], at, |Pre(t)|)
    decreases t, 1
  {
    hide *;
    PreNil(t);
    NoSlice(collection[..], at);
    next := at;
    if t1 != null {
      RootFork(t);
      PreFork(t);
      PreAllocated(t.left);
      PreAllocated(t.right);
      NoDupParts(t.node, Pre(t.left), Pre(t.right));
      t1.value := collection[at];
      next := ReplaceBoth(t1, collection, at + 1, t);
      PreFork(t);
      SliceParts(collection[..], at, |Pre(t.left)|, |Pre(t.right)|);
    }
  }

  method ReplaceBoth(t1: Node, collection: array<int>, at: nat, ghost t: Shape) returns (next: nat)
    requires t.Fork? && t1 == t.node && t1.left == Root(t.left) && t1.right == Root(t.right) && Wired(t.left) && Wired(t.right)
    requires NoDup([t.node] + Pre(t.left) + Pre(t.right)) && at + |Pre(t.left)| + |Pre(t.right)| <= collection.Length
    modifies Pre(t.left)`value, Pre(t.right)`value
    ensures next == at + |Pre(t.left)| + |Pre(t.right)| && t1.value == old(t1.value)
    ensures Held(Pre(t.left)) == Slice(collection[..], at, |Pre(t.left)|)
    ensures Held(Pre(t.right)) == Slice(collection[..], at + |Pre(t.left)|, |Pre(t.right)|)
    decreases t, 0
  {
    hide *;
    PreAllocated(t.left);
    PreAllocated(t.right);
    NoDupParts(t.node, Pre(t.left), Pre(t.right));
    next := Replace(t1.left, collection, at, t.left);
    next := Replace(t1.right, collection, next, t.right);
  }

  /** SwapSubTree: within the size of its buffer, the exchange that NewSwapSubTree makes. */
  method SwapSubTree(t1: Node?, t2: Node?, ghost a: Shape, ghost b: Shape)
    requires Exchangeable(t1, t2, a, b) && |Pre(a)| <= CollectSize
    modifies Pre(a)`value, Pre(b)`value
    ensures Held(Pre(a)) == old(Held(Pre(b))) && Held(Pre(b)) == old(Held(Pre(a)))
  {
    hide *;
    ExchangeableParts(t1, t2, a, b);
    PreAllocated(a);
    PreAllocated(b);
    ApartNodes(Pre(a), Pre(b));
    var collection := new int[CollectSize];
    ghost var v := Held(Pre(a));
    CollectFirst(t1, collection, a);
    ReplaceFirst(t1, t2, collection, a, b, v);
  }

  /** The first of its calls. */
  method CollectFirst(t1: Node?, collection: array<int>, ghost a: Shape)
    requires t1 == Root(a) && Wired(a) && |Pre(a)| <= collection.Length
    modifies collection
    ensures Slice(collection[..], 0, |Pre(a)|) == Held(Pre(a))
  {
    hide *;
    PutStart(collection[..], Held(Pre(a)));
    PreNil(a);
    var end := Collect(t1, collection, 0, a);
  }

  /** The other two. */
  method ReplaceFirst(t1: Node?, t2: Node?, collection: array<int>, ghost a: Shape, ghost b: Shape, ghost v: seq<int>)
    requires t1 == Root(a) && t2 == Root(b) && Wired(a) && Wired(b) && NoDup(Pre(a)) && NoDup(Pre(b))
    requires |v| == |Pre(a)| == |Pre(b)| <= collection.Length && Slice(collection[..], 0, |v|) == v
    requires forall i :: 0 <= i < |Pre(b)| ==> Pre(b)[i] !in Pre(a)
    modifies collection, Pre(a)`value, Pre(b)`value
    ensures Held(Pre(a)) == old(Held(Pre(b))) && Held(Pre(b)) == v
  {
    hide *;
    PreAllocated(a);
    PreAllocated(b);
    PreNil(b);
    ghost var w := Held(Pre(b));
    PutStart(collection[..], w);
    var end := CollectReplace(t2, collection, 0, b);
    assert Slice(collection[..], 0, |w|) == w && Held(Pre(b)) == v;
    end := Replace(t1, collection, 0, a);
  }

  lemma ApartNodes(a: seq<Node>, b: seq<Node>)
    requires Apart(a, b)
    ensures NoDup(a) && NoDup(b)
    ensures forall i :: 0 <= i < |a| ==> a[i] !in b
    ensures forall i :: 0 <= i < |b| ==> b[i] !in a
  {
  }

  lemma PutStart(c: seq<int>, s: seq<int>)
    requires |s| <= |c|
    ensures |Put(c, 0, s)| == |c| && Slice(Put(c, 0, s), 0, |s|) == s
  {
  }

  // ------------------------------------------------------------ what is exchanged

  datatype Values = NoValue | Labelled(value: int, left: Values, right: Values)

  /** The tree of the values. */
  ghost function Image(t: Shape): Values
    reads Nodes(t)`value
  {
    if t.Nil? then NoValue else Labelled(t.node.value, Image(t.left), Image(t.right))
  }

  predicate SameForm(a: Shape, b: Shape) {
    if a.Nil? then b.Nil? else b.Fork? && SameForm(a.left, b.left) && SameForm(a.right, b.right)
  }

  /** A tree of this form with these values in preorder. */
  function Labels(t: Shape, v: seq<int>): Values
    requires |v| == |Pre(t)|
  {
    if t.Nil? then NoValue
    else
      assert |Pre(t)| == 1 + |Pre(t.left)| + |Pre(t.right)|;
      Labelled(v[0], Labels(t.left, v[1..1 + |Pre(t.left)|]), Labels(t.right, v[1 + |Pre(t.left)|..]))
  }

  lemma PreSize(t: Shape)
    ensures |Pre(t)| == if t.Nil? then 0 else 1 + |Pre(t.left)| + |Pre(t.right)|
  {
  }

  lemma {:induction false} SameFormLabels(a: Shape, b: Shape, v: seq<int>)
    requires SameForm(a, b) && |v| == |Pre(a)|
    ensures |Pre(a)| == |Pre(b)| && Labels(a, v) == Labels(b, v)
  {
    PreSize(a);
    PreSize(b);
    hide Pre;
    if a.Fork? {
      SameFormLabels(a.left, b.left, v[1..1 + |Pre(a.left)|]);
      SameFormLabels(a.right, b.right, v[1 + |Pre(a.left)|..]);
    }
  }

  lemma {:induction false} ImageIsLabels(t: Shape)
    ensures Image(t) == Labels(t, Held(Pre(t)))
  {
    if t.Fork? {
      ImageIsLabels(t.left);
      ImageIsLabels(t.right);
      HeldThree(t.node, Pre(t.left), Pre(t.right));
      ThreeSlices(t.node.value, Held(Pre(t.left)), Held(Pre(t.right)));
    }
  }

  lemma ThreeSlices(x: int, a: seq<int>, b: seq<int>)
    ensures var s := [x] + a + b; s[0] == x && s[1..1 + |a|] == a && s[1 + |a|..] == b
  {
  }
}
