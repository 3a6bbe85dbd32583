/**
  Cyclic bitonic sequences and the half-cleaner: the theory behind Bimerge in
  wolfbench/Benchmarks/bisort/bitonic.c.
*/
module BitonicSeq {
  /** `dir` true is DOWN. The comparison that decides an exchange. */
  predicate Exchanges(a: int, b: int, dir: bool) {
    (a > b) != dir
  }

  /** No value occurs more than four times. */
  ghost predicate FewTies(s: seq<int>) {
    forall v: int :: multiset(s)[v] <= 4
  }

  predicate Before(a: int, b: int, dir: bool) {
    if dir then a >= b else a <= b
  }

  ghost predicate Sorted(s: seq<int>, dir: bool) {
    forall i, j :: 0 <= i < j < |s| ==> Before(s[i], s[j], dir)
  }

  /** a and c both lie above b and d, or both below. */
  predicate Alternate(a: int, b: int, c: int, d: int) {
    || (a > b && a > d && c > b && c > d)
    || (a < b && a < d && c < b && c < d)
  }

  /** No four positions alternate: going around, the values rise once and fall once. */
  ghost predicate Bitonic(s: seq<int>) {
    forall i, j, k, l :: 0 <= i < j < k < l < |s| ==> !Alternate(s[i], s[j], s[k], s[l])
  }

  /** An up-run followed by a down-run, or the other way round, is bitonic. */
  lemma UpDownBitonic(a: seq<int>, b: seq<int>, dir: bool)
    requires Sorted(a, dir) && Sorted(b, !dir)
    ensures Bitonic(a + b)
  {
    var s, n := a + b, |a|;
    forall i, j, k, l | 0 <= i < j < k < l < |s| ensures !Alternate(s[i], s[j], s[k], s[l]) {
      if j < n {
        assert Before(a[i], a[j], dir);
        if k < n {
          assert Before(a[j], a[k], dir);
        } else {
          assert Before(b[k - n], b[l - n], !dir);
        }
      } else {
        assert Before(b[j - n], b[k - n], !dir);
        assert Before(b[k - n], b[l - n], !dir);
      }
    }
  }

  /** The lower result of the half-cleaner: position i keeps a[i] or takes b[i]. */
  function CleanLo(a: seq<int>, b: seq<int>, dir: bool): (r: seq<int>)
    requires |a| == |b|
    ensures |r| == |a|
  {
    seq(|a|, i requires 0 <= i < |a| => if Exchanges(a[i], b[i], dir) then b[i] else a[i])
  }

  function CleanHi(a: seq<int>, b: seq<int>, dir: bool): (r: seq<int>)
    requires |a| == |b|
    ensures |r| == |a|
  {
    seq(|a|, i requires 0 <= i < |a| => if Exchanges(a[i], b[i], dir) then a[i] else b[i])
  }

  /** The positions to exchange form a suffix (fromRight) or a prefix. */
  ghost predicate OneSided(a: seq<int>, b: seq<int>, dir: bool, fromRight: bool)
    requires |a| == |b|
  {
    forall i, j :: 0 <= i < j < |a| ==>
      if fromRight then Exchanges(a[i], b[i], dir) ==> Exchanges(a[j], b[j], dir)
      else Exchanges(a[j], b[j], dir) ==> Exchanges(a[i], b[i], dir)
  }

  /** In a bitonic sequence the comparison of opposite positions does not flip twice, ties apart. */
  lemma FlipsOnce(s: seq<int>, m: nat, i: nat, j: nat, k: nat)
    requires Bitonic(s) && |s| == 2 * m && i < j < k < m
    ensures !(s[i] > s[i + m] && s[j] < s[j + m] && s[k] > s[k + m])
    ensures !(s[i] < s[i + m] && s[j] > s[j + m] && s[k] < s[k + m])
  {
    assert !Alternate(s[i], s[k], s[i + m], s[j + m]);
    assert !Alternate(s[i], s[k], s[j + m], s[k + m]);
    assert !Alternate(s[i], s[j], s[k], s[j + m]);
    assert !Alternate(s[i], s[j], s[k], s[i + m]);
    assert !Alternate(s[j], s[k], s[j + m], s[k + m]);
    assert !Alternate(s[j], s[i + m], s[j + m], s[k + m]);
    assert !Alternate(s[k], s[i + m], s[j + m], s[k + m]);
    assert !Alternate(s[i], s[j], s[i + m], s[k + m]);
    assert !Alternate(s[i], s[j], s[i + m], s[j + m]);
    assert !Alternate(s[i], s[k], s[i + m], s[k + m]);
  }

  /** Position t lies between z and its opposite. */
  predicate Inside(m: nat, z: nat, t: nat) {
    z < t < z + m
  }

  predicate Outside(m: nat, z: nat, t: nat) {
    t < z || z + m < t < 2 * m
  }

  /** Opposite positions are tied, and everything on one side of them has their value. */
  ghost predicate Plateau(s: seq<int>, m: nat, z: nat)
    requires |s| == 2 * m && z < m
  {
    s[z] == s[z + m] &&
    ((forall t: nat :: Inside(m, z, t) ==> s[t] == s[z]) || (forall t: nat :: Outside(m, z, t) ==> s[t] == s[z]))
  }

  /** Around a tie, both sides do not rise above it, and both do not fall below it. */
  lemma Sides(s: seq<int>, m: nat, z: nat, t: nat, u: nat)
    requires Bitonic(s) && |s| == 2 * m && z < m && s[z] == s[z + m] && Inside(m, z, t) && Outside(m, z, u)
    ensures !(s[t] > s[z] && s[u] > s[z]) && !(s[t] < s[z] && s[u] < s[z])
  {
    if u < z {
      assert !Alternate(s[u], s[z], s[t], s[z + m]);
    } else {
      assert !Alternate(s[z], s[t], s[z + m], s[u]);
    }
  }

  lemma InRange(m: nat, z: nat, t: nat, u: nat, v: nat)
    requires z < m && Inside(m, z, t) && Outside(m, z, u) && Outside(m, z, v)
    ensures t < 2 * m && u < 2 * m && v < 2 * m
  {
  }

  /** A tie between exchanges in opposite senses on both sides is part of a plateau. */
  lemma TieIsPlateau(s: seq<int>, m: nat, z: nat, p: nat, p': nat, q: nat, q': nat)
    requires Bitonic(s) && |s| == 2 * m && z < m && s[z] == s[z + m]
    requires Inside(m, z, p) && Outside(m, z, p') && Inside(m, z, q) && Outside(m, z, q')
    requires s[p] > s[p'] && s[q] < s[q']
    ensures Plateau(s, m, z)
  {
    hide Bitonic;
    if t: nat :| Inside(m, z, t) && s[t] != s[z] {
      forall u: nat | Outside(m, z, u) ensures s[u] == s[z] {
        hide *;
        InRange(m, z, t, p', u);
        InRange(m, z, p, q', u);
        InRange(m, z, q, q', u);
        Sides(s, m, z, t, p');
        Sides(s, m, z, t, q');
        Sides(s, m, z, p, u);
        Sides(s, m, z, q, u);
        Sides(s, m, z, t, u);
      }
    }
  }
  /** Five equal values. */
  lemma FiveEqual(s: seq<int>, a: nat, b: nat, c: nat, d: nat, e: nat, v: int)
    requires a < b < c < d < e < |s| && s[a] == s[b] == s[c] == s[d] == s[e] == v
    ensures !FewTies(s)
  {
    CountOne(s, e, v);
    CountOne(s[..e], d, v);
    CountOne(s[..d], c, v);
    CountOne(s[..c], b, v);
    CountOne(s[..b], a, v);
    assert s[..e][..d] == s[..d] && s[..d][..c] == s[..c] && s[..c][..b] == s[..b];
    assert multiset(s)[v] >= 5;
  }

  lemma CountOne(s: seq<int>, n: nat, v: int)
    requires n < |s| && s[n] == v
    ensures multiset(s)[v] >= multiset(s[..n])[v] + 1
  {
    assert s == s[..n] + [s[n]] + s[n + 1..];
  }

  /** With four positions or more between opposites, a plateau holds five equal values. */
  lemma PlateauHasFive(s: seq<int>, m: nat, z: nat)
    requires |s| == 2 * m && z < m && m >= 4 && Plateau(s, m, z)
    ensures !FewTies(s)
  {
    var v := s[z];
    hide FewTies;
    if forall t: nat :: Inside(m, z, t) ==> s[t] == v {
      assert Inside(m, z, z + 1) && Inside(m, z, z + 2) && Inside(m, z, z + 3);
      FiveEqual(s, z, z + 1, z + 2, z + 3, z + m, v);
    } else if z >= 3 {
      assert Outside(m, z, 0) && Outside(m, z, 1) && Outside(m, z, 2);
      FiveEqual(s, 0, 1, 2, z, z + m, v);
    } else if z == 2 {
      assert Outside(m, z, 0) && Outside(m, z, 1) && Outside(m, z, 2 * m - 1);
      FiveEqual(s, 0, 1, 2, m + 2, 2 * m - 1, v);
    } else if z == 1 {
      assert Outside(m, z, 0) && Outside(m, z, 2 * m - 2) && Outside(m, z, 2 * m - 1);
      FiveEqual(s, 0, 1, m + 1, 2 * m - 2, 2 * m - 1, v);
    } else {
      assert Outside(m, z, 2 * m - 3) && Outside(m, z, 2 * m - 2) && Outside(m, z, 2 * m - 1);
      FiveEqual(s, 0, m, 2 * m - 3, 2 * m - 2, 2 * m - 1, v);
    }
  }

  /** With few ties, three pairs do not show a tie beside or between exchanges of the wrong senses. */
  lemma NoTieBetween(s: seq<int>, m: nat, i: nat, j: nat, k: nat)
    requires Bitonic(s) && FewTies(s) && |s| == 2 * m && m >= 4 && i < j < k < m
    ensures !(s[i] > s[i + m] && s[j] == s[j + m] && s[k] > s[k + m])
    ensures !(s[i] < s[i + m] && s[j] == s[j + m] && s[k] < s[k + m])
    ensures !(s[i] == s[i + m] && s[j] > s[j + m] && s[k] < s[k + m])
    ensures !(s[i] == s[i + m] && s[j] < s[j + m] && s[k] > s[k + m])
    ensures !(s[i] < s[i + m] && s[j] > s[j + m] && s[k] == s[k + m])
    ensures !(s[i] > s[i + m] && s[j] < s[j + m] && s[k] == s[k + m])
  {
    hide Bitonic, FewTies, Plateau;
    if s[j] == s[j + m] && ((s[i] > s[i + m] && s[k] > s[k + m]) || (s[i] < s[i + m] && s[k] < s[k + m])) {
      if s[k] > s[k + m] {
        TieIsPlateau(s, m, j, k, k + m, i + m, i);
      } else {
        TieIsPlateau(s, m, j, i + m, i, k, k + m);
      }
      PlateauHasFive(s, m, j);
    }
    if s[i] == s[i + m] && ((s[j] > s[j + m] && s[k] < s[k + m]) || (s[j] < s[j + m] && s[k] > s[k + m])) {
      if s[j] > s[j + m] {
        TieIsPlateau(s, m, i, j, j + m, k, k + m);
      } else {
        TieIsPlateau(s, m, i, k, k + m, j, j + m);
      }
      PlateauHasFive(s, m, i);
    }
    if s[k] == s[k + m] && ((s[i] < s[i + m] && s[j] > s[j + m]) || (s[i] > s[i + m] && s[j] < s[j + m])) {
      if s[j] > s[j + m] {
        TieIsPlateau(s, m, k, i + m, i, j + m, j);
      } else {
        TieIsPlateau(s, m, k, j + m, j, i + m, i);
      }
      PlateauHasFive(s, m, k);
    }
  }

  /** Two ties with an exchange between them have one value, four times in all. */
  lemma TwoTies(s: seq<int>, m: nat, i: nat, k: nat)
    requires Bitonic(s) && |s| == 2 * m && i < k < m && s[i] == s[i + m] && s[k] == s[k + m]
    ensures s[i] == s[k]
  {
    assert !Alternate(s[i], s[k], s[i + m], s[k + m]);
  }

  lemma ThirdTie(s: seq<int>, m: nat, i: nat, j: nat, k: nat)
    requires Bitonic(s) && FewTies(s) && |s| == 2 * m && i < j < k < m
    ensures !(s[i] == s[i + m] && s[j] == s[j + m] && s[k] == s[k + m])
  {
    hide FewTies;
    if s[i] == s[i + m] && s[j] == s[j + m] && s[k] == s[k + m] {
      TwoTies(s, m, i, j);
      TwoTies(s, m, i, k);
      FiveEqual(s, i, j, k, i + m, j + m, s[i]);
    }
  }

  /** Ties at both ends, exchanges of one sense everywhere between. */
  ghost predicate TiedEnds(a: seq<int>, b: seq<int>)
    requires |a| == |b|
  {
    && |a| >= 4 && a[0] == b[0] && a[|a| - 1] == b[|a| - 1]
    && forall i :: 0 < i < |a| - 1 ==> a[i] > b[i]
  }

  /** Two positions that break the order that the last comparison indicates. */
  lemma BrokenIsTied(s: seq<int>, m: nat, i: nat, j: nat)
    requires Bitonic(s) && FewTies(s) && |s| == 2 * m && m >= 4 && i < j < m
    requires if s[m - 1] > s[2 * m - 1] then s[i] > s[i + m] && s[j] <= s[j + m] else s[i] <= s[i + m] && s[j] > s[j + m]
    ensures TiedEnds(s[..m], s[m..])
  {
    hide Bitonic, FewTies;
    var l := m - 1;
    assert j < l;
    FlipsOnce(s, m, i, j, l);
    NoTieBetween(s, m, i, j, l);
    TiedAround(s, m, i, j);
  }

  /** An exchange between ties, of which one is the last pair. */
  lemma TiedAround(s: seq<int>, m: nat, i: nat, j: nat)
    requires Bitonic(s) && FewTies(s) && |s| == 2 * m && m >= 4 && i < j < m - 1
    requires s[i] == s[i + m] && s[j] > s[j + m] && s[m - 1] == s[2 * m - 1]
    ensures TiedEnds(s[..m], s[m..])
  {
    hide Bitonic, FewTies;
    var l := m - 1;
    if i > 0 {
      ThirdTie(s, m, 0, i, l);
      NoTieBetween(s, m, 0, i, j);
      NoTieBetween(s, m, 0, j, l);
    }
    forall t | 0 < t < l ensures s[t] > s[t + m] {
      ThirdTie(s, m, 0, t, l);
      if t < j {
        NoTieBetween(s, m, t, j, l);
      } else if t > j {
        NoTieBetween(s, m, 0, j, t);
      }
    }
  }

  /** The key lemma: the last comparison tells on which side the exchanges lie, or only the ends are tied. */
  lemma ExchangesOneSided(a: seq<int>, b: seq<int>, dir: bool)
    requires |a| == |b| > 0 && |a| != 3 && Bitonic(a + b) && FewTies(a + b)
    ensures OneSided(a, b, dir, Exchanges(a[|a| - 1], b[|a| - 1], dir)) || TiedEnds(a, b)
  {
    var s, m := a + b, |a|;
    hide Bitonic, FewTies, TiedEnds;
    assert s[..m] == a && s[m..] == b;
    if !TiedEnds(a, b) {
      forall i, j | 0 <= i < j < m ensures
        if Exchanges(a[m - 1], b[m - 1], dir) then Exchanges(a[i], b[i], dir) ==> Exchanges(a[j], b[j], dir)
        else Exchanges(a[j], b[j], dir) ==> Exchanges(a[i], b[i], dir)
      {
        assert s[i] == a[i] && s[i + m] == b[i] && s[j] == a[j] && s[j + m] == b[j] && s[m - 1] == a[m - 1] && s[m - 1 + m] == b[m - 1];
        if m >= 4 && (if s[m - 1] > s[2 * m - 1] then s[i] > s[i + m] && s[j] <= s[j + m] else s[i] <= s[i + m] && s[j] > s[j + m]) {
          BrokenIsTied(s, m, i, j);
        }
      }
    }
  }

  /** Everything in the lower result comes before everything in the higher one. */
  lemma CleanSeparates(a: seq<int>, b: seq<int>, dir: bool)
    requires |a| == |b| && Bitonic(a + b)
    ensures forall i, j :: 0 <= i < |a| && 0 <= j < |a| ==> Before(CleanLo(a, b, dir)[i], CleanHi(a, b, dir)[j], dir)
  {
    var s, m := a + b, |a|;
    forall i, j | 0 <= i < m && 0 <= j < m ensures Before(CleanLo(a, b, dir)[i], CleanHi(a, b, dir)[j], dir) {
      assert s[i] == a[i] && s[i + m] == b[i] && s[j] == a[j] && s[j + m] == b[j];
      if i < j {
        assert !Alternate(s[i], s[j], s[i + m], s[j + m]);
      } else if j < i {
        assert !Alternate(s[j], s[i], s[j + m], s[i + m]);
      }
    }
  }

  /** Four positions of a result that takes b on one side of a cut and a on the other. */
  lemma CutBitonic(a: seq<int>, b: seq<int>, r: seq<int>, fromB: seq<bool>)
    requires |a| == |b| == |r| == |fromB| && Bitonic(a + b)
    requires forall i :: 0 <= i < |a| ==> r[i] == if fromB[i] then b[i] else a[i]
    requires (forall i, j :: 0 <= i < j < |a| ==> fromB[i] ==> fromB[j]) || (forall i, j :: 0 <= i < j < |a| ==> fromB[j] ==> fromB[i])
    ensures Bitonic(r)
  {
    var s, m := a + b, |a|;
    forall i, j, k, l | 0 <= i < j < k < l < m ensures !Alternate(r[i], r[j], r[k], r[l]) {
      var p, q, u, v := if fromB[i] then i + m else i, if fromB[j] then j + m else j, if fromB[k] then k + m else k, if fromB[l] then l + m else l;
      assert r[i] == s[p] && r[j] == s[q] && r[k] == s[u] && r[l] == s[v];
      if p < q < u < v {
        assert !Alternate(s[p], s[q], s[u], s[v]);
      } else if q < u < v < p {
        assert !Alternate(s[q], s[u], s[v], s[p]);
      } else if u < v < p < q {
        assert !Alternate(s[u], s[v], s[p], s[q]);
      } else {
        assert v < p < q < u;
        assert !Alternate(s[v], s[p], s[q], s[u]);
      }
    }
  }

  lemma PartBitonic(a: seq<int>, b: seq<int>)
    requires Bitonic(a + b)
    ensures Bitonic(a) && Bitonic(b)
  {
    var s, n := a + b, |a|;
    forall i, j, k, l | 0 <= i < j < k < l < |a| ensures !Alternate(a[i], a[j], a[k], a[l]) {
      assert !Alternate(s[i], s[j], s[k], s[l]);
    }
    forall i, j, k, l | 0 <= i < j < k < l < |b| ensures !Alternate(b[i], b[j], b[k], b[l]) {
      assert !Alternate(s[n + i], s[n + j], s[n + k], s[n + l]);
    }
  }

  /** Both results are again bitonic, so the merge can recurse. */
  lemma CleanBitonic(a: seq<int>, b: seq<int>, dir: bool)
    requires |a| == |b| > 0 && |a| != 3 && Bitonic(a + b) && FewTies(a + b)
    ensures Bitonic(CleanLo(a, b, dir)) && Bitonic(CleanHi(a, b, dir))
  {
    hide Bitonic, FewTies, Exchanges, TiedEnds;
    ExchangesOneSided(a, b, dir);
    if TiedEnds(a, b) {
      PartBitonic(a, b);
      TiedClean(a, b, dir);
    } else {
      var e := seq(|a|, i requires 0 <= i < |a| => Exchanges(a[i], b[i], dir));
      var n := seq(|a|, i requires 0 <= i < |a| => !Exchanges(a[i], b[i], dir));
      CutBitonic(a, b, CleanLo(a, b, dir), e);
      CutBitonic(a, b, CleanHi(a, b, dir), n);
    }
  }

  /** Between tied ends all pairs are exchanged, or none. */
  lemma TiedClean(a: seq<int>, b: seq<int>, dir: bool)
    requires |a| == |b| && TiedEnds(a, b)
    ensures CleanLo(a, b, dir) == (if dir then a else b) && CleanHi(a, b, dir) == (if dir then b else a)
  {
    CleanUniform(a, b, dir, !dir);
  }

  /** Sorted halves in the right order, holding what the half-cleaner separated, are sorted. */
  lemma JoinSorted(lo: seq<int>, hi: seq<int>, a: seq<int>, b: seq<int>, dir: bool)
    requires Sorted(a, dir) && Sorted(b, dir) && multiset(a) == multiset(lo) && multiset(b) == multiset(hi)
    requires forall i, j :: 0 <= i < |lo| && 0 <= j < |hi| ==> Before(lo[i], hi[j], dir)
    ensures Sorted(a + b, dir)
  {
    var s := a + b;
    forall i, j | 0 <= i < j < |s| ensures Before(s[i], s[j], dir) {
      if i < |a| <= j {
        assert a[i] in multiset(lo) && b[j - |a|] in multiset(hi);
      }
    }
  }

  /** No exchange at all, or exchanges everywhere, ties apart. */
  lemma CleanUniform(x: seq<int>, y: seq<int>, dir: bool, ex: bool)
    requires |x| == |y| && forall i :: 0 <= i < |x| ==> Exchanges(x[i], y[i], dir) == ex || x[i] == y[i]
    ensures CleanLo(x, y, dir) == (if ex then y else x) && CleanHi(x, y, dir) == (if ex then x else y)
  {
  }

  lemma JoinedAt(x1: seq<int>, u: int, x2: seq<int>)
    ensures |x1 + [u] + x2| == |x1| + 1 + |x2| && Joined(x1 + [u] + x2, x1, u, x2)
  {
  }

  ghost predicate Joined(x: seq<int>, x1: seq<int>, u: int, x2: seq<int>)
    requires |x| == |x1| + 1 + |x2|
  {
    && x[|x1|] == u && (forall i :: 0 <= i < |x1| ==> x1[i] == x[i])
    && forall i :: 0 <= i < |x2| ==> x2[i] == x[|x1| + 1 + i]
  }

  lemma OneSidedAt(x: seq<int>, y: seq<int>, i: nat, j: nat, dir: bool, fromRight: bool)
    requires |x| == |y| && i < j < |x| && OneSided(x, y, dir, fromRight)
    ensures if fromRight then Exchanges(x[i], y[i], dir) ==> Exchanges(x[j], y[j], dir)
            else Exchanges(x[j], y[j], dir) ==> Exchanges(x[i], y[i], dir)
  {
    hide Exchanges;
  }

  lemma OneSidedPiece(x: seq<int>, y: seq<int>, off: nat, a: seq<int>, b: seq<int>, dir: bool, fromRight: bool)
    requires |x| == |y| && |a| == |b| && off + |a| <= |x| && OneSided(x, y, dir, fromRight)
    requires (forall i :: 0 <= i < |a| ==> a[i] == x[off + i]) && forall i :: 0 <= i < |b| ==> b[i] == y[off + i]
    ensures OneSided(a, b, dir, fromRight)
  {
    hide Exchanges;
    forall i, j | 0 <= i < j < |a|
      ensures if fromRight then Exchanges(a[i], b[i], dir) ==> Exchanges(a[j], b[j], dir)
              else Exchanges(a[j], b[j], dir) ==> Exchanges(a[i], b[i], dir)
    {
      hide OneSided;
      OneSidedAt(x, y, off + i, off + j, dir, fromRight);
    }
  }

  lemma OneSidedParts(x1: seq<int>, u: int, x2: seq<int>, y1: seq<int>, v: int, y2: seq<int>, dir: bool, fromRight: bool)
    requires |x1| == |y1| && |x2| == |y2| && OneSided(x1 + [u] + x2, y1 + [v] + y2, dir, fromRight)
    ensures OneSided(x1, y1, dir, fromRight) && OneSided(x2, y2, dir, fromRight)
    ensures fromRight == Exchanges(u, v, dir) ==> forall i :: 0 <= i < |x2| ==> Exchanges(x2[i], y2[i], dir) == fromRight
    ensures fromRight != Exchanges(u, v, dir) ==> forall i :: 0 <= i < |x1| ==> Exchanges(x1[i], y1[i], dir) != fromRight
  {
    hide *;
    JoinedAt(x1, u, x2);
    JoinedAt(y1, v, y2);
    OneSidedPieces(x1 + [u] + x2, y1 + [v] + y2, x1, u, x2, y1, v, y2, dir, fromRight);
  }

  lemma OneSidedPieces(x: seq<int>, y: seq<int>, x1: seq<int>, u: int, x2: seq<int>, y1: seq<int>, v: int, y2: seq<int>,
                       dir: bool, fromRight: bool)
    requires |x1| == |y1| && |x2| == |y2| && |x| == |y| == |x1| + 1 + |x2| && OneSided(x, y, dir, fromRight)
    requires Joined(x, x1, u, x2) && Joined(y, y1, v, y2)
    ensures OneSided(x1, y1, dir, fromRight) && OneSided(x2, y2, dir, fromRight)
    ensures fromRight == Exchanges(u, v, dir) ==> forall i :: 0 <= i < |x2| ==> Exchanges(x2[i], y2[i], dir) == fromRight
    ensures fromRight != Exchanges(u, v, dir) ==> forall i :: 0 <= i < |x1| ==> Exchanges(x1[i], y1[i], dir) != fromRight
  {
    var n := |x1|;
    hide Exchanges, OneSided;
    OneSidedPiece(x, y, 0, x1, y1, dir, fromRight);
    OneSidedPiece(x, y, n + 1, x2, y2, dir, fromRight);
    forall i | 0 <= i < |x2| && fromRight == Exchanges(u, v, dir) ensures Exchanges(x2[i], y2[i], dir) == fromRight {
      OneSidedAt(x, y, n, n + 1 + i, dir, fromRight);
    }
    forall i | 0 <= i < |x1| && fromRight != Exchanges(u, v, dir) ensures Exchanges(x1[i], y1[i], dir) != fromRight {
      OneSidedAt(x, y, i, n, dir, fromRight);
    }
  }

  lemma CleanConcat(x1: seq<int>, u: int, x2: seq<int>, y1: seq<int>, v: int, y2: seq<int>, dir: bool)
    requires |x1| == |y1| && |x2| == |y2|
    ensures var ex := Exchanges(u, v, dir);
      && CleanLo(x1 + [u] + x2, y1 + [v] + y2, dir) == CleanLo(x1, y1, dir) + [if ex then v else u] + CleanLo(x2, y2, dir)
      && CleanHi(x1 + [u] + x2, y1 + [v] + y2, dir) == CleanHi(x1, y1, dir) + [if ex then u else v] + CleanHi(x2, y2, dir)
  {
  }

  /** The descent goes right all the way: exchanges of one sense everywhere but at the first pair, which is tied. */
  ghost predicate TiedFirst(x: seq<int>, y: seq<int>)
    requires |x| == |y|
  {
    |x| >= 3 && x[0] == y[0] && forall i :: 0 < i < |x| ==> x[i] > y[i]
  }

  /**
    One level of the merge: comparing the last pair first, cleaning the rest from the side it
    indicates, leaves two bitonic halves, everything in the first before everything in the second.
  */
  lemma MergeLevel(x: seq<int>, u: int, y: seq<int>, v: int, dir: bool)
    requires |x| == |y| && |x| != 2 && Bitonic(x + [u] + y + [v]) && FewTies(x + [u] + y + [v])
    ensures var ex := Exchanges(u, v, dir);
      var lo, hi := CleanLo(x, y, dir) + [if ex then v else u], CleanHi(x, y, dir) + [if ex then u else v];
      && (OneSided(x, y, dir, ex) || (TiedFirst(x, y) && ex == dir))
      && Bitonic(lo) && Bitonic(hi)
      && forall i, j :: 0 <= i < |lo| && 0 <= j < |hi| ==> Before(lo[i], hi[j], dir)
  {
    var a, b := x + [u], y + [v];
    assert a + b == x + [u] + y + [v];
    hide Bitonic, FewTies, Exchanges, TiedEnds, TiedFirst;
    ExchangesOneSided(a, b, dir);
    CleanBitonic(a, b, dir);
    CleanSeparates(a, b, dir);
    if TiedEnds(a, b) {
      TiedInit(x, u, y, v, dir);
    } else {
      OneSidedInit(x, u, y, v, dir, Exchanges(u, v, dir));
    }
    assert CleanLo(a, b, dir) == CleanLo(x, y, dir) + [if Exchanges(u, v, dir) then v else u];
    assert CleanHi(a, b, dir) == CleanHi(x, y, dir) + [if Exchanges(u, v, dir) then u else v];
  }

  lemma TiedInit(x: seq<int>, u: int, y: seq<int>, v: int, dir: bool)
    requires |x| == |y| && TiedEnds(x + [u], y + [v])
    ensures TiedFirst(x, y) && Exchanges(u, v, dir) == dir
  {
    assert forall i :: 0 <= i < |x| ==> (x + [u])[i] == x[i] && (y + [v])[i] == y[i];
    assert (x + [u])[|x|] == u && (y + [v])[|y|] == v;
  }

  lemma OneSidedInit(x: seq<int>, u: int, y: seq<int>, v: int, dir: bool, fromRight: bool)
    requires |x| == |y| && OneSided(x + [u], y + [v], dir, fromRight)
    ensures OneSided(x, y, dir, fromRight)
  {
    assert forall i :: 0 <= i < |x| ==> (x + [u])[i] == x[i] && (y + [v])[i] == y[i];
  }
}
