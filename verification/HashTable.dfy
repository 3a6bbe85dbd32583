/**
  The chained hash table that holds the edge weights (wolfbench/Benchmarks/mst/hash.c).
  Keys stand for vertex addresses; a lookup that finds nothing yields 0.
*/
module HashTable {
  class HashEntry {
    const key: nat
    const entry: int
    var next: HashEntry?

    constructor (key: nat, entry: int, next: HashEntry?)
      ensures this.key == key && this.entry == entry && this.next == next
    {
      this.key, this.entry, this.next := key, entry, next;
    }
  }

  /** The entries of one chain, first to last. */
  ghost predicate IsChain(head: HashEntry?, chain: seq<HashEntry>)
    reads chain
  {
    && head == (if chain == [] then null else chain[0])
    && (forall i {:trigger chain[i].next} :: 0 <= i < |chain| ==> chain[i].next == if i + 1 < |chain| then chain[i + 1] else null)
    && (forall i, j :: 0 <= i < j < |chain| ==> chain[i] != chain[j])
  }

  /** The n-th entry is the first with the key. */
  ghost predicate FirstAt(chain: seq<HashEntry>, key: nat, n: nat) {
    n < |chain| && chain[n].key == key && forall i :: 0 <= i < n ==> chain[i].key != key
  }

  /**
    The chain holds exactly the keys of m that belong in bucket j, each with its entry in m where it comes first.
    Behind it there may be more entries of the key, all of them 0: the source lets a key with entry 0 be inserted again.
  */
  ghost predicate Stores(chain: seq<HashEntry>, m: map<nat, int>, mapfunc: nat -> int, j: int) {
    && (forall e :: e in chain ==> mapfunc(e.key) == j && e.key in m)
    && (forall k :: k in m && mapfunc(k) == j ==> exists n: nat :: FirstAt(chain, k, n) && chain[n].entry == m[k])
    && (forall i, n :: 0 <= i < n < |chain| && chain[i].key == chain[n].key ==> chain[n].entry == 0)
  }

  /** The search loop of HashLookup: the first entry with the key, if the chain has one. */
  method Search(head: HashEntry?, key: nat, ghost chain: seq<HashEntry>) returns (ent: HashEntry?)
    requires IsChain(head, chain)
    ensures ent != null ==> exists n: nat :: FirstAt(chain, key, n) && chain[n] == ent
    ensures ent == null ==> forall e :: e in chain ==> e.key != key
  {
    ent := head;
    ghost var i := 0;
    while ent != null && ent.key != key
      invariant 0 <= i <= |chain| && ent == (if i < |chain| then chain[i] else null)
      invariant forall k :: 0 <= k < i ==> chain[k].key != key
      decreases |chain| - i
    {
      ent := ent.next;
      i := i + 1;
    }
    assert ent != null ==> FirstAt(chain, key, i);
  }

  /** The loop and the unlinking of HashDelete; n is where the key comes first. */
  method Unlink(buckets: array<HashEntry?>, j: nat, key: nat, ghost chain: seq<HashEntry>, ghost n: nat)
    requires j < buckets.Length && IsChain(buckets[j], chain) && FirstAt(chain, key, n)
    modifies buckets, set e | e in chain
    ensures IsChain(buckets[j], Without(chain, n))
    ensures forall i :: 0 <= i < buckets.Length && i != j ==> buckets[i] == old(buckets[i])
  {
    var prev: HashEntry?, ent := null, buckets[j];
    ghost var i := 0;
    while ent != null && ent.key != key
      invariant 0 <= i <= n && ent == chain[i] && prev == if i == 0 then null else chain[i - 1]
      invariant forall k :: 0 <= k < i ==> chain[k].key != key
      decreases n - i
    {
      prev, ent := ent, ent.next;
      i := i + 1;
    }
    if prev == null {
      buckets[j] := ent.next;
    } else {
      prev.next := ent.next;
    }
    ghost var c := Without(chain, n);
    forall k | 0 <= k < |c| ensures c[k].next == if k + 1 < |c| then c[k + 1] else null {
      ghost var o := if k < n then k else k + 1;
      assert c[k] == chain[o];
      assert old(chain[o].next == if o + 1 < |chain| then chain[o + 1] else null);
      assert k + 1 < |c| ==> c[k + 1] == chain[if k + 1 < n then k + 1 else k + 2];
    }
  }

  lemma Prepended(ent: HashEntry, head: HashEntry?, chain: seq<HashEntry>)
    requires IsChain(head, chain) && ent.next == head && ent !in chain
    ensures IsChain(ent, [ent] + chain)
  {
    var c := [ent] + chain;
    forall i | 0 <= i < |c| ensures c[i].next == if i + 1 < |c| then c[i + 1] else null {
      if i > 0 {
        assert c[i] == chain[i - 1];
        assert chain[i - 1].next == if i < |chain| then chain[i] else null;
      }
      assert i + 1 < |c| ==> c[i + 1] == chain[i];
    }
  }

  /** A new first entry for a key that is not there, or is there with entry 0. */
  lemma StoresMore(ent: HashEntry, chain: seq<HashEntry>, m: map<nat, int>, mapfunc: nat -> int)
    requires Stores(chain, m, mapfunc, mapfunc(ent.key)) && (ent.key in m ==> m[ent.key] == 0)
    ensures Stores([ent] + chain, m[ent.key := ent.entry], mapfunc, mapfunc(ent.key))
  {
    var chain', m', j := [ent] + chain, m[ent.key := ent.entry], mapfunc(ent.key);
    forall k | k in m' && mapfunc(k) == j ensures exists n: nat :: FirstAt(chain', k, n) && chain'[n].entry == m'[k] {
      if k == ent.key {
        assert FirstAt(chain', k, 0);
      } else {
        var n: nat :| FirstAt(chain, k, n) && chain[n].entry == m[k];
        assert FirstAt(chain', k, n + 1);
      }
    }
    forall i, n | 0 <= i < n < |chain'| && chain'[i].key == chain'[n].key ensures chain'[n].entry == 0 {
      assert chain'[n] == chain[n - 1] && chain[n - 1] in chain;
      if i == 0 {
        var f: nat :| FirstAt(chain, ent.key, f) && chain[f].entry == m[ent.key];
        assert f <= n - 1;
      }
    }
  }

  lemma FirstOf(chain: seq<HashEntry>, m: map<nat, int>, mapfunc: nat -> int, key: nat) returns (n: nat)
    requires Stores(chain, m, mapfunc, mapfunc(key)) && key in m
    ensures n < |chain| && FirstAt(chain, key, n) && chain[n].entry == m[key]
  {
    n :| FirstAt(chain, key, n) && chain[n].entry == m[key];
  }

  /** What the map is after the first entry of a key is gone: the key too, or entry 0 if there was another. */
  function Removed(m: map<nat, int>, key: nat, again: bool): map<nat, int> {
    if again then m[key := 0] else m - {key}
  }

  lemma {:induction false} FirstExists(chain: seq<HashEntry>, key: nat)
    requires exists i :: 0 <= i < |chain| && chain[i].key == key
    ensures exists n: nat :: FirstAt(chain, key, n)
  {
    if chain[0].key == key {
      assert FirstAt(chain, key, 0);
    } else {
      FirstExists(chain[1..], key);
      var n: nat :| FirstAt(chain[1..], key, n);
      assert FirstAt(chain, key, n + 1) by {
        assert forall i :: 0 < i < |chain| ==> chain[i] == chain[1..][i - 1];
      }
    }
  }

  function Without(chain: seq<HashEntry>, n: nat): seq<HashEntry>
    requires n < |chain|
  {
    chain[..n] + chain[n + 1..]
  }

  lemma WithoutAt(chain: seq<HashEntry>, n: nat)
    requires n < |chain|
    ensures |Without(chain, n)| == |chain| - 1
    ensures forall i :: 0 <= i < |chain| - 1 ==> Without(chain, n)[i] == chain[if i < n then i else i + 1]
    ensures forall e :: e in Without(chain, n) ==> e in chain
  {
  }

  lemma FirstOfOther(chain: seq<HashEntry>, n: nat, key: nat, k: nat, p: nat)
    requires FirstAt(chain, key, n) && FirstAt(chain, k, p) && k != key
    ensures var q := if p < n then p else p - 1; q >= 0 && FirstAt(Without(chain, n), k, q) && Without(chain, n)[q] == chain[p]
  {
    WithoutAt(chain, n);
  }

  lemma FirstOfSame(chain: seq<HashEntry>, n: nat, key: nat, p: nat)
    requires FirstAt(chain, key, n) && FirstAt(Without(chain, n), key, p)
    ensures p >= n && p + 1 < |chain| && Without(chain, n)[p] == chain[p + 1]
  {
    WithoutAt(chain, n);
  }

  ghost predicate HasKey(chain: seq<HashEntry>, key: nat) {
    exists i :: 0 <= i < |chain| && chain[i].key == key
  }

  /** The chain has more than one entry of the key. */
  ghost predicate Repeats(chain: seq<HashEntry>, key: nat) {
    exists i, n :: 0 <= i < n < |chain| && chain[i].key == key && chain[n].key == key
  }

  lemma RepeatsMeans(chain: seq<HashEntry>, key: nat, n: nat)
    requires FirstAt(chain, key, n)
    ensures HasKey(Without(chain, n), key) <==> Repeats(chain, key)
  {
    WithoutAt(chain, n);
    if Repeats(chain, key) {
      var i, p :| 0 <= i < p < |chain| && chain[i].key == key && chain[p].key == key;
      assert Without(chain, n)[p - 1] == chain[p];
    }
    if HasKey(Without(chain, n), key) {
      var i :| 0 <= i < |chain| - 1 && Without(chain, n)[i].key == key;
      assert chain[if i < n then i else i + 1].key == key;
    }
  }

  lemma StoresLess(chain: seq<HashEntry>, n: nat, m: map<nat, int>, mapfunc: nat -> int, key: nat)
    requires Stores(chain, m, mapfunc, mapfunc(key)) && FirstAt(chain, key, n) && key in m
    ensures Stores(Without(chain, n), Removed(m, key, HasKey(Without(chain, n), key)), mapfunc, mapfunc(key))
  {
    var chain' := Without(chain, n);
    var m', j := Removed(m, key, HasKey(chain', key)), mapfunc(key);
    WithoutAt(chain, n);
    hide Without;
    forall e | e in chain' ensures mapfunc(e.key) == j && e.key in m' {
      var i :| 0 <= i < |chain'| && chain'[i] == e;
    }
    forall k | k in m' && mapfunc(k) == j ensures exists p: nat :: FirstAt(chain', k, p) && chain'[p].entry == m'[k] {
      if k == key {
        FirstExists(chain', key);
        var p: nat :| FirstAt(chain', key, p);
        FirstOfSame(chain, n, key, p);
        assert chain[n].key == chain[p + 1].key;
      } else {
        var p: nat :| FirstAt(chain, k, p) && chain[p].entry == m[k];
        FirstOfOther(chain, n, key, k, p);
      }
    }
  }

  class Hash {
    const buckets: array<HashEntry?>
    const mapfunc: nat -> int
    ghost var chains: seq<seq<HashEntry>>
    ghost var entries: set<HashEntry>
    /** The table as a map. */
    ghost var contents: map<nat, int>

    ghost predicate Bucket(j: int)
      reads this, buckets, entries
      requires 0 <= j < |chains| == buckets.Length
    {
      && (forall i :: 0 <= i < |chains[j]| ==> chains[j][i] in entries)
      && IsChain(buckets[j], chains[j]) && Stores(chains[j], contents, mapfunc, j)
    }

    ghost predicate Valid()
      reads this, buckets, entries
    {
      && |chains| == buckets.Length
      && (forall k :: 0 <= mapfunc(k) < buckets.Length)
      && (forall j :: 0 <= j < |chains| ==> Bucket(j))
    }

    /** MakeHash. */
    constructor (size: nat, map': nat -> int)
      requires forall k :: 0 <= map'(k) < size
      ensures Valid() && contents == map[] && fresh(buckets) && entries == {}
    {
      buckets := new HashEntry?[size](_ => null);
      mapfunc := map';
      chains := seq(size, _ => []);
      entries := {};
      contents := map[];
    }

    method HashLookup(key: nat) returns (entry: int)
      requires Valid()
      ensures entry == if key in contents then contents[key] else 0
    {
      var j := mapfunc(key);
      assert Bucket(j);
      var ent := Search(buckets[j], key, chains[j]);
      ghost var chain := chains[j];
      if key in contents {
        ghost var n := FirstOf(chain, contents, mapfunc, key);
        assert chain[n] in chain;
      }
      entry := if ent != null then ent.entry else 0;
    }

    /** A change at one key is not noticed in the other buckets, which share no entry with its own. */
    lemma OtherBuckets(m': map<nat, int>, key: nat)
      requires Valid() && forall k :: k != key ==> (k in contents <==> k in m') && (k in m' ==> contents[k] == m'[k])
      ensures forall i :: 0 <= i < |chains| && i != mapfunc(key) ==> Stores(chains[i], m', mapfunc, i)
      ensures forall i :: 0 <= i < |chains| && i != mapfunc(key) ==> forall e :: e in chains[i] ==> e !in chains[mapfunc(key)]
    {
      assert Bucket(mapfunc(key));
      forall i | 0 <= i < |chains| && i != mapfunc(key)
        ensures Stores(chains[i], m', mapfunc, i) && forall e :: e in chains[i] ==> e !in chains[mapfunc(key)]
      {
        assert Bucket(i);
      }
    }

    /** The source stops with an assertion failure when the key is there with an entry other than 0. */
    method HashInsert(entry: int, key: nat)
      requires Valid() && (key in contents ==> contents[key] == 0)
      modifies this, buckets
      ensures Valid() && contents == old(contents)[key := entry] && fresh(entries - old(entries))
      ensures exists ent :: ent in entries && ent.key == key && ent.entry == entry
                         && chains == old(chains)[mapfunc(key) := [ent] + old(chains[mapfunc(key)])]
    {
      hide Stores;
      var j := mapfunc(key);
      assert Bucket(j);
      ghost var m := contents;
      var ent := new HashEntry(key, entry, buckets[j]);
      StoresMore(ent, chains[j], m, mapfunc);
      OtherBuckets(m[key := entry], key);
      assert forall i :: 0 <= i < |chains| ==> Bucket(i);
      buckets[j] := ent;
      chains := chains[j := [ent] + chains[j]];
      entries := entries + {ent};
      contents := contents[key := entry];
      assert IsChain(ent, chains[j]) by {
        Prepended(ent, old(buckets[j]), old(chains[j]));
      }
      forall i | 0 <= i < |chains| ensures Bucket(i) {
        if i != j {
          assert old(Bucket(i)) && chains[i] == old(chains[i]) && buckets[i] == old(buckets[i]);
          assert IsChain(buckets[i], chains[i]);
        }
      }
    }

    /**
      The source stops with an assertion failure when the key is missing. The first entry of the key goes: the key is gone with
      it, or has the entry 0 if there was another, which the first one hid.
    */
    method HashDelete(key: nat)
      requires Valid() && key in contents
      modifies this, buckets, entries
      ensures Valid() && entries == old(entries)
      ensures contents == Removed(old(contents), key, Repeats(old(chains[mapfunc(key)]), key))
      ensures exists n: nat :: FirstAt(old(chains[mapfunc(key)]), key, n)
                            && chains == old(chains)[mapfunc(key) := Without(old(chains[mapfunc(key)]), n)]
    {
      hide Stores, IsChain, FirstAt, HasKey, Repeats, Without;
      var j := mapfunc(key);
      assert Bucket(j);
      ghost var chain, m := chains[j], contents;
      ghost var n := FirstOf(chain, m, mapfunc, key);
      StoresLess(chain, n, m, mapfunc, key);
      RepeatsMeans(chain, key, n);
      WithoutAt(chain, n);
      ghost var c := Without(chain, n);
      ghost var m' := Removed(m, key, HasKey(c, key));
      OtherBuckets(m', key);
      assert forall i :: 0 <= i < |chains| ==> Bucket(i);
      Unlink(buckets, j, key, chain, n);
      chains := chains[j := c];
      contents := m';
      forall i | 0 <= i < |chains| ensures Bucket(i) {
        if i != j {
          assert old(Bucket(i)) && chains[i] == old(chains[i]) && buckets[i] == old(buckets[i]);
          assert IsChain(buckets[i], chains[i]);
        }
      }
    }
  }
}
