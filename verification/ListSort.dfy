/**
  The in-place mergesort of a doubly linked list, DL_SORT2 of LectureCode/Review/utlist.h: the head's
  prev link leads to the tail, the tail's next link is null.
*/
module ListSort {
  import opened MergeRuns

  ghost predicate Distinct(s: seq<Elem>) {
    forall i, j :: 0 <= i < j < |s| ==> s[i] != s[j]
  }

  ghost predicate Disjoint(a: seq<Elem>, b: seq<Elem>) {
    forall i, j :: 0 <= i < |a| && 0 <= j < |b| ==> a[i] != b[j]
  }

  /** No element occurs twice in the three lists. */
  ghost predicate Separate(a: seq<Elem>, b: seq<Elem>, c: seq<Elem>) {
    Distinct(a) && Distinct(b) && Distinct(c) && Disjoint(a, b) && Disjoint(a, c) && Disjoint(b, c)
  }

  function HeadOf(s: seq<Elem>): Elem? {
    if s == [] then null else s[0]
  }

  function TailOf(s: seq<Elem>): Elem? {
    if s == [] then null else s[|s| - 1]
  }

  /** Each element's next link leads to the following one; nothing is said of the last. */
  ghost predicate Chained(s: seq<Elem>)
    reads s
  {
    forall i {:trigger s[i].next} :: 0 <= i < |s| - 1 ==> s[i].next == s[i + 1]
  }

  ghost predicate Ended(s: seq<Elem>)
    reads s
  {
    s != [] ==> s[|s| - 1].next == null
  }

  /** Each prev link leads back; that of the first element is null. */
  ghost predicate Backed(s: seq<Elem>)
    reads s
  {
    forall i {:trigger s[i].prev} :: 0 <= i < |s| ==> s[i].prev == if i == 0 then null else s[i - 1]
  }

  ghost predicate IsList(list: Elem?, s: seq<Elem>)
    reads s
  {
    && list == HeadOf(s) && Distinct(s) && Chained(s) && Ended(s)
    && forall i {:trigger s[i].prev} :: 0 <= i < |s| ==> s[i].prev == if i == 0 then s[|s| - 1] else s[i - 1]
  }

  /** The pass in progress: done has been linked up again, ps is what is left of the run at p, qs the list from q on. */
  ghost predicate Passing(list: Elem?, tail: Elem?, done: seq<Elem>, p: Elem?, ps: seq<Elem>, q: Elem?, qs: seq<Elem>)
    reads done, ps, qs
  {
    && list == HeadOf(done) && tail == TailOf(done) && (ps != [] ==> p == ps[0]) && q == HeadOf(qs)
    && Separate(done, ps, qs) && Chained(done) && Backed(done) && Chained(ps) && Chained(qs) && Ended(qs)
  }

  /** Appends e to what is done: the end of the merge loop's body. */
  method Append(e: Elem, list: Elem?, tail: Elem?, ghost done: seq<Elem>, ghost ps: seq<Elem>, ghost qs: seq<Elem>)
    returns (list': Elem?, tail': Elem?)
    requires list == HeadOf(done) && tail == TailOf(done) && Separate(done + [e], ps, qs)
    requires Chained(done) && Backed(done) && Chained(ps) && Chained(qs) && Ended(qs)
    modifies e`prev, done`next
    ensures list' == HeadOf(done + [e]) && tail' == e && Chained(done + [e]) && Backed(done + [e])
    ensures Chained(ps) && Chained(qs) && Ended(qs)
  {
    ghost var d := done + [e];
    assert forall i :: 0 <= i < |done| ==> d[i] == done[i];
    assert d[|done|] == e && (tail != null ==> tail == d[|done| - 1]);
    list' := list;
    if tail != null {
      tail.next := e;
    } else {
      list' := e;
    }
    e.prev := tail;
    tail' := e;
    forall i {:trigger d[i].next} | 0 <= i < |d| - 1 ensures d[i].next == d[i + 1] {
      assert i < |done| - 1 ==> old(done[i].next) == done[i + 1];
    }
    forall i {:trigger d[i].prev} | 0 <= i < |d| ensures d[i].prev == if i == 0 then null else d[i - 1] {
      assert i < |done| ==> old(done[i].prev) == if i == 0 then null else done[i - 1];
    }
  }

  /** Which element the merge takes next: true for the one at p. */
  predicate TakesP(cmp: Compare, p: Elem?, psize: nat, q: Elem?, qsize: nat)
    requires psize > 0 ==> p != null
    requires psize == 0 ==> q != null
  {
    psize != 0 && (qsize == 0 || q == null || cmp(p.data, q.data) <= 0)
  }

  lemma Shift(done: seq<Elem>, s: seq<Elem>, t: seq<Elem>)
    requires s != [] && (Separate(done, s, t) || Separate(done, t, s))
    ensures Separate(done + [s[0]], s[1..], t) && Separate(done + [s[0]], t, s[1..])
  {
    var d, r := done + [s[0]], s[1..];
    assert forall i :: 0 <= i < |d| ==> d[i] == if i < |done| then done[i] else s[0];
    assert forall i :: 0 <= i < |r| ==> r[i] == s[i + 1];
  }

  lemma MergeUnfold(cmp: Compare, a: seq<Elem>, b: seq<Elem>)
    ensures b == [] ==> Merge(cmp, a, b) == a
    ensures a == [] ==> Merge(cmp, a, b) == b
    ensures a != [] && (b == [] || cmp(a[0].data, b[0].data) <= 0) ==> Merge(cmp, a, b) == [a[0]] + Merge(cmp, a[1..], b)
    ensures b != [] && (a == [] || cmp(a[0].data, b[0].data) > 0) ==> Merge(cmp, a, b) == [b[0]] + Merge(cmp, a, b[1..])
  {
  }

  /** What is left of the run at q. */
  function Run(qs: seq<Elem>, qsize: nat): (r: seq<Elem>)
    ensures r == [] <==> qsize == 0 || qs == []
    ensures r != [] ==> r[0] == qs[0]
  {
    qs[..Least(qsize, |qs|)]
  }

  /** What follows it. */
  function Rest(qs: seq<Elem>, qsize: nat): seq<Elem> {
    qs[Least(qsize, |qs|)..]
  }

  lemma RunRest(qs: seq<Elem>, qsize: nat)
    requires qsize > 0 && qs != []
    ensures Run(qs[1..], qsize - 1) == Run(qs, qsize)[1..]
  {
  }

  /** How the merge goes on. */
  lemma MergeStep(cmp: Compare, ps: seq<Elem>, qs: seq<Elem>, qsize: nat)
    requires ps != [] || (qsize > 0 && qs != [])
    ensures var takesP := TakesP(cmp, HeadOf(ps), |ps|, HeadOf(qs), qsize);
      if takesP then ps != [] && Merge(cmp, ps, Run(qs, qsize)) == [ps[0]] + Merge(cmp, ps[1..], Run(qs, qsize))
      else qs != [] && qsize > 0 && Merge(cmp, ps, Run(qs, qsize)) == [qs[0]] + Merge(cmp, ps, Run(qs[1..], qsize - 1))
  {
    MergeUnfold(cmp, ps, Run(qs, qsize));
    if qsize > 0 && qs != [] {
      RunRest(qs, qsize);
    }
    hide Merge, Run;
  }

  ghost predicate Within(done: seq<Elem>, ps: seq<Elem>, qs: seq<Elem>, region: set<Elem>) {
    (forall x :: x in done ==> x in region) && (forall x :: x in ps ==> x in region) && (forall x :: x in qs ==> x in region)
  }

  /** One turn of the merge loop. */
  method Step(cmp: Compare, list: Elem?, tail: Elem?, p: Elem?, psize: nat, q: Elem?, qsize: nat,
              ghost done: seq<Elem>, ghost ps: seq<Elem>, ghost qs: seq<Elem>, ghost region: set<Elem>)
    returns (list': Elem?, tail': Elem?, p': Elem?, psize': nat, q': Elem?, qsize': nat,
             ghost done': seq<Elem>, ghost ps': seq<Elem>, ghost qs': seq<Elem>)
    requires Passing(list, tail, done, p, ps, q, qs) && |ps| == psize && (psize > 0 || (qsize > 0 && q != null))
    requires Within(done, ps, qs, region)
    modifies region
    ensures Passing(list', tail', done', p', ps', q', qs') && |ps'| == psize' && tail' != null && Within(done', ps', qs', region)
    ensures var takesP := TakesP(cmp, HeadOf(ps), psize, q, qsize);
      && done' == done + [if takesP then ps[0] else qs[0]] && ps' == (if takesP then ps[1..] else ps) && qs' == (if takesP then qs else qs[1..])
      && qsize' == if takesP then qsize else qsize - 1
  {
    ghost var takesP := TakesP(cmp, HeadOf(ps), psize, q, qsize);
    Shift(done, if takesP then ps else qs, if takesP then qs else ps);
    p', psize', q', qsize', ps', qs' := p, psize, q, qsize, ps, qs;
    var e;
    if psize == 0 {
      e := q;
      q', qsize', qs' := q.next, qsize - 1, qs[1..];
    } else if qsize == 0 || q == null || cmp(p.data, q.data) <= 0 {
      e := p;
      p', psize', ps' := p.next, psize - 1, ps[1..];
    } else {
      e := q;
      q', qsize', qs' := q.next, qsize - 1, qs[1..];
    }
    done' := done + [e];
    RestChained(ps);
    RestChained(qs);
    list', tail' := Append(e, list, tail, done, ps', qs');
  }

  lemma RestChained(s: seq<Elem>)
    requires s != [] ==> Chained(s)
    ensures s != [] ==> Chained(s[1..]) && (s[0].next == HeadOf(s[1..]) || |s| == 1)
    ensures s != [] && Ended(s) ==> Ended(s[1..]) && s[0].next == HeadOf(s[1..])
  {
    if s != [] {
      var t := s[1..];
      assert forall i {:trigger t[i].next} :: 0 <= i < |t| ==> t[i] == s[i + 1];
    }
  }

  /** The merge loop: what is left of the run at p with the run of at most insize elements at q. */
  method MergeRun(cmp: Compare, list0: Elem?, tail0: Elem?, p0: Elem, psize0: nat, q0: Elem?, insize: nat,
                  ghost done0: seq<Elem>, ghost ps0: seq<Elem>, ghost qs0: seq<Elem>, ghost region: set<Elem>)
    returns (list: Elem?, tail: Elem?, q: Elem?, ghost done: seq<Elem>, ghost qs: seq<Elem>)
    requires Passing(list0, tail0, done0, p0, ps0, q0, qs0) && |ps0| == psize0 > 0 && Within(done0, ps0, qs0, region)
    modifies region
    ensures Passing(list, tail, done, null, [], q, qs) && Within(done, [], qs, region)
    ensures done == done0 + Merge(cmp, ps0, Run(qs0, insize)) && qs == Rest(qs0, insize)
  {
    list, tail, q, done, qs := list0, tail0, q0, done0, qs0;
    var p: Elem?, psize, qsize := p0, psize0, insize;
    ghost var ps := ps0;
    hide Passing, Merge, Within, Run, Rest;
    Heads(list, tail, done, p, ps, q, qs);
    while psize > 0 || (qsize > 0 && q != null)
      invariant Passing(list, tail, done, p, ps, q, qs) && |ps| == psize && q == HeadOf(qs) && (ps != [] ==> p == ps[0]) && Within(done, ps, qs, region)
      invariant done + Merge(cmp, ps, Run(qs, qsize)) == done0 + Merge(cmp, ps0, Run(qs0, insize))
      invariant Rest(qs, qsize) == Rest(qs0, insize)
      decreases psize + |qs|
    {
      ghost var done1, ps1, qs1, qsize1 := done, ps, qs, qsize;
      list, tail, p, psize, q, qsize, done, ps, qs := Step(cmp, list, tail, p, psize, q, qsize, done, ps, qs, region);
      StepKeeps(cmp, done1, ps1, qs1, qsize1, done, ps, qs, qsize);
      Heads(list, tail, done, p, ps, q, qs);
    }
    NothingToMerge(list, tail, done, p, ps, q, qs, qsize, cmp);
  }

  lemma Heads(list: Elem?, tail: Elem?, done: seq<Elem>, p: Elem?, ps: seq<Elem>, q: Elem?, qs: seq<Elem>)
    requires Passing(list, tail, done, p, ps, q, qs)
    ensures q == HeadOf(qs) && (ps != [] ==> p == ps[0])
  {
  }

  /** What one turn leaves to be merged. */
  lemma StepKeeps(cmp: Compare, done: seq<Elem>, ps: seq<Elem>, qs: seq<Elem>, qsize: nat, done': seq<Elem>, ps': seq<Elem>, qs': seq<Elem>, qsize': nat)
    requires ps != [] || (qsize > 0 && qs != [])
    requires var takesP := TakesP(cmp, HeadOf(ps), |ps|, HeadOf(qs), qsize);
      && (takesP ==> ps != []) && (!takesP ==> qs != [])
      && done' == done + [if takesP then ps[0] else qs[0]] && ps' == (if takesP then ps[1..] else ps) && qs' == (if takesP then qs else qs[1..])
      && qsize' == if takesP then qsize else qsize - 1
    ensures done' + Merge(cmp, ps', Run(qs', qsize')) == done + Merge(cmp, ps, Run(qs, qsize))
    ensures Rest(qs', qsize') == Rest(qs, qsize)
  {
    hide Merge, TakesP, Run, Rest;
    MergeStep(cmp, ps, qs, qsize);
    RunsRest(qs, qsize);
    Associative(done, done'[|done|], Merge(cmp, ps', Run(qs', qsize')));
  }

  lemma Associative(a: seq<Elem>, x: Elem, b: seq<Elem>)
    ensures (a + [x]) + b == a + ([x] + b)
  {
  }

  lemma RunsRest(qs: seq<Elem>, qsize: nat)
    ensures qsize > 0 && qs != [] ==> Rest(qs[1..], qsize - 1) == Rest(qs, qsize)
  {
  }

  lemma NothingToMerge(list: Elem?, tail: Elem?, done: seq<Elem>, p: Elem?, ps: seq<Elem>, q: Elem?, qs: seq<Elem>, qsize: nat, cmp: Compare)
    requires Passing(list, tail, done, p, ps, q, qs) && ps == [] && (qsize == 0 || q == null)
    ensures Passing(list, tail, done, null, [], q, qs) && Merge(cmp, ps, Run(qs, qsize)) == [] && Rest(qs, qsize) == qs
  {
  }

  /** The step to the second run: at most insize elements further on. */
  method Advance(p: Elem, insize: nat, ghost s: seq<Elem>) returns (q: Elem?, psize: nat)
    requires s != [] && p == s[0] && Chained(s) && Ended(s) && insize > 0
    ensures psize == Least(insize, |s|) && 0 < psize <= |s| && q == HeadOf(s[psize..])
  {
    q, psize := p, 0;
    var i := 0;
    while i < insize
      invariant 0 <= i <= insize && psize == i < |s| && q == s[i]
    {
      psize := psize + 1;
      q := q.next;
      if q == null {
        break;
      }
      i := i + 1;
    }
  }

  /** The list up to p has been merged, what is left begins with a run of psize elements at p. */
  lemma SplitRun(list: Elem?, tail: Elem?, done: seq<Elem>, p: Elem?, rest: seq<Elem>, q: Elem?, psize: nat, region: set<Elem>)
    requires Passing(list, tail, done, null, [], p, rest) && Within(done, [], rest, region) && 0 < psize <= |rest| && q == HeadOf(rest[psize..])
    ensures p == rest[0] && Passing(list, tail, done, p, rest[..psize], q, rest[psize..]) && Within(done, rest[..psize], rest[psize..], region)
  {
    var ps, qs := rest[..psize], rest[psize..];
    assert forall i :: 0 <= i < |ps| ==> ps[i] == rest[i];
    assert forall i :: 0 <= i < |qs| ==> qs[i] == rest[psize + i];
    assert Chained(ps) && Chained(qs) && Ended(qs);
    assert Separate(done, ps, qs);
  }

  /** The elements are those of the list. */
  ghost function Region(l: seq<Elem>): set<Elem> {
    set x | x in l
  }

  lemma StartPass(list: Elem?, l: seq<Elem>)
    requires IsList(list, l)
    ensures Passing(null, null, [], null, [], list, l) && Within([], [], l, Region(l))
  {
  }

  /** The links that close the list after a pass. */
  method Close(list: Elem, tail: Elem, ghost r: seq<Elem>, ghost region: set<Elem>)
    requires Passing(list, tail, r, null, [], null, []) && Within(r, [], [], region)
    modifies region
    ensures IsList(list, r)
  {
    assert r != [] && list == r[0] && tail == r[|r| - 1];
    list.prev := tail;
    tail.next := null;
  }

  lemma PassEnds(cmp: Compare, n: nat)
    requires n > 0
    ensures Pass(cmp, [], n) == [] && Merges(0, n) == 0
  {
  }

  lemma ChainOf(list: Elem?, tail: Elem?, done: seq<Elem>, p: Elem?, rest: seq<Elem>)
    requires Passing(list, tail, done, null, [], p, rest)
    ensures Chained(rest) && Ended(rest) && (p != null ==> rest != [] && p == rest[0])
  {
  }

  lemma PassUnfold(cmp: Compare, l: seq<Elem>, n: nat, m1: nat, m2: nat)
    requires n > 0 && l != [] && m1 == Least(n, |l|) && m2 == Least(2 * n, |l|)
    ensures Pass(cmp, l, n) == Merge(cmp, l[..m1], l[m1..m2]) + Pass(cmp, l[m2..], n)
    ensures Merges(|l|, n) == 1 + Merges(|l| - m2, n)
  {
    hide Merge;
  }

  lemma TwoSlices(l: seq<Elem>, n: nat, m1: nat, m2: nat)
    requires n > 0 && l != [] && m1 == Least(n, |l|) && m2 == Least(2 * n, |l|)
    ensures 0 < m1 <= m2 <= |l| && Run(l[m1..], n) == l[m1..m2] && Rest(l[m1..], n) == l[m2..]
  {
  }

  /** The first two runs merged, then the rest. */
  lemma PassStep(cmp: Compare, l: seq<Elem>, n: nat, ps: seq<Elem>, qs: seq<Elem>)
    requires n > 0 && l != [] && Least(n, |l|) <= |l| && ps == l[..Least(n, |l|)] && qs == l[Least(n, |l|)..]
    ensures Pass(cmp, l, n) == Merge(cmp, ps, Run(qs, n)) + Pass(cmp, Rest(qs, n), n)
    ensures Merges(|l|, n) == 1 + Merges(|Rest(qs, n)|, n) && |Rest(qs, n)| < |l| && |ps| == Least(n, |l|) > 0
  {
    hide *;
    var m1, m2 := Least(n, |l|), Least(2 * n, |l|);
    TwoSlices(l, n, m1, m2);
    PassUnfold(cmp, l, n, m1, m2);
  }

  lemma PassLength(cmp: Compare, l: seq<Elem>, n: nat)
    requires n > 0
    ensures |Pass(cmp, l, n)| == |l|
  {
  }

  lemma Closing(list: Elem?, tail: Elem?, r: seq<Elem>, p: Elem?, rest: seq<Elem>)
    requires Passing(list, tail, r, null, [], p, rest) && p == null && r != []
    ensures rest == [] && list != null && tail != null && Passing(list, tail, r, null, [], null, [])
  {
  }

  /** One merge of a pass: the run at p with the next one. */
  method PassTurn(cmp: Compare, list0: Elem?, tail0: Elem?, p0: Elem, insize: nat, ghost done: seq<Elem>, ghost rest0: seq<Elem>, ghost region: set<Elem>)
    returns (list: Elem?, tail: Elem?, p: Elem?, ghost r: seq<Elem>, ghost rest: seq<Elem>)
    requires Passing(list0, tail0, done, null, [], p0, rest0) && Within(done, [], rest0, region) && p0 == HeadOf(rest0) && insize > 0
    modifies region
    ensures Passing(list, tail, r, null, [], p, rest) && Within(r, [], rest, region) && p == HeadOf(rest) && |rest| < |rest0|
    ensures r + Pass(cmp, rest, insize) == done + Pass(cmp, rest0, insize) && Merges(|rest0|, insize) == 1 + Merges(|rest|, insize)
  {
    hide *;
    ChainOf(list0, tail0, done, p0, rest0);
    var q, psize := Advance(p0, insize, rest0);
    ghost var ps, qs := rest0[..psize], rest0[psize..];
    PassStep(cmp, rest0, insize, ps, qs);
    SplitRun(list0, tail0, done, p0, rest0, q, psize, region);
    list, tail, p, r, rest := MergeRun(cmp, list0, tail0, p0, psize, q, insize, done, ps, qs, region);
    Heads(list, tail, r, null, [], p, rest);
    Concat(done, Merge(cmp, ps, Run(qs, insize)), Pass(cmp, rest, insize));
  }

  lemma Concat(a: seq<Elem>, b: seq<Elem>, c: seq<Elem>)
    ensures (a + b) + c == a + (b + c)
  {
  }

  /** One pass over the list. */
  method OnePass(cmp: Compare, list0: Elem, insize: nat, ghost l: seq<Elem>) returns (list: Elem?, nmerges: nat, ghost r: seq<Elem>)
    requires IsList(list0, l) && l != [] && insize > 0
    modifies Region(l)
    ensures IsList(list, r) && r == Pass(cmp, l, insize) && nmerges == Merges(|l|, insize)
  {
    hide Passing, Merge, Within, Pass, Merges, IsList, Region;
    var p: Elem?, tail: Elem? := list0, null;
    ghost var rest, region := l, Region(l);
    list, nmerges, r := null, 0, [];
    StartPass(list0, l);
    Heads(list, tail, r, null, [], p, rest);
    while p != null
      invariant Passing(list, tail, r, null, [], p, rest) && Within(r, [], rest, region) && p == HeadOf(rest)
      invariant r + Pass(cmp, rest, insize) == Pass(cmp, l, insize) && nmerges + Merges(|rest|, insize) == Merges(|l|, insize)
      decreases |rest|
    {
      nmerges := nmerges + 1;
      list, tail, p, r, rest := PassTurn(cmp, list, tail, p, insize, r, rest, region);
    }
    PassEnds(cmp, insize);
    assert rest == [] && r == Pass(cmp, l, insize);
    PassLength(cmp, l, insize);
    Closing(list, tail, r, p, rest);
    Close(list, tail, r, region);
  }

  /** Sorts the list in place: a stable sorted permutation, with all links restored. */
  method DLSort(cmp: Compare, list0: Elem?, ghost l: seq<Elem>) returns (list: Elem?, ghost r: seq<Elem>)
    requires TotalPreorder(cmp) && IsList(list0, l)
    modifies Region(l)
    ensures IsList(list, r) && StableSort(cmp, l, r)
  {
    list, r := list0, l;
    if list != null {
      var insize, looping := 1, true;
      StartRuns(cmp, l);
      hide Passing, Pass, Merges, IsList, Runs, TotalPreorder, Ordered;
      NotEmpty(list, l);
      while looping
        invariant insize > 0 && list != null && IsList(list, r) && multiset(r) == multiset(l) && Region(r) == Region(l) && r != []
        invariant Runs(cmp, l, r, insize)
        invariant !looping ==> |r| <= insize
        decreases looping, if looping then 2 * |l| - insize else 0
      {
        var nmerges; ghost var r1 := r;
        list, nmerges, r := OnePass(cmp, list, insize, r);
        PassRuns(cmp, l, r1, insize);
        OneMerge(|r1|, insize);
        AfterPass(cmp, l, r1, r, insize, list);
        if nmerges <= 1 {
          looping := false;
        }
        insize := insize * 2;
      }
      OneRun(cmp, l, r, insize);
    }
  }

  lemma StartRuns(cmp: Compare, l: seq<Elem>)
    requires Distinct(l)
    ensures Runs(cmp, l, l, 1)
  {
    SingleRuns(cmp, l, 0);
    assert l[0..] == l;
  }

  lemma NotEmpty(list: Elem?, l: seq<Elem>)
    requires IsList(list, l)
    ensures list == null <==> l == []
  {
  }

  lemma AfterPass(cmp: Compare, l: seq<Elem>, r1: seq<Elem>, r: seq<Elem>, n: nat, list: Elem?)
    requires n > 0 && r == Pass(cmp, r1, n) && multiset(r1) == multiset(l) && r1 != [] && IsList(list, r)
    ensures |r| == |r1| == |l| && multiset(r) == multiset(l) && Region(r) == Region(l) && r != [] && list != null
  {
    assert |r1| == |multiset(r1)| == |multiset(l)| == |l|;
    assert forall x :: x in r <==> x in multiset(r);
    assert forall x :: x in l <==> x in multiset(l);
    NotEmpty(list, r);
  }
}
