/**
  The streaming hash of wolfbench/Benchmarks/sha/sha.c on a little-endian machine; the data buffer is seen as
  its 64 bytes. modified stands for the macro USE_MODIFIED_SHA.
*/
module Sha {
  import opened ShaModel
  import opened Bits

  const Full: nat := 0x1_0000_0000 // an unsigned int wraps here

  /** The words that the program reads from the bytes of the buffer. */
  function Loaded(s: seq<Byte>): (w: seq<Word>)
    requires |s| == 64
    ensures |w| == 16
  {
    seq(16, i requires 0 <= i < 16 => ToWord(Big(s[4 * i + 3], s[4 * i + 2], s[4 * i + 1], s[4 * i])))
  }

  /** Which byte byte_reverse puts at position i. */
  function Mirror(i: nat): (r: nat)
    ensures i < 64 ==> r < 64
  {
    4 * (i / 4) + (3 - i % 4)
  }

  function Reversed(s: seq<Byte>): (r: seq<Byte>)
    requires |s| == 64
    ensures |r| == 64
  {
    seq(64, i requires 0 <= i < 64 => s[Mirror(i)])
  }

  /** Reading the reversed bytes the program's way is reading the bytes the standard's way. */
  lemma LoadedReversed(s: seq<Byte>)
    requires |s| == 64
    ensures Loaded(Reversed(s)) == Words(s)
  {
    var l, w := Loaded(Reversed(s)), Words(s);
    forall i | 0 <= i < 16 ensures l[i] == w[i] {
      MirrorAt(i, 0);
      MirrorAt(i, 1);
      MirrorAt(i, 2);
      MirrorAt(i, 3);
      hide Mirror, ToWord, Big;
    }
  }

  lemma MirrorAt(i: nat, j: nat)
    requires j < 4
    ensures Mirror(4 * i + j) == 4 * i + (3 - j)
  {
    DivMod(4 * i + j, 4, i, j);
  }

  /** ROT32. */
  function Rot32(x: Word, n: nat): Word
    requires 0 < n < 32
  {
    (x << n) | (x >> (32 - n))
  }

  lemma Rotations(x: Word)
    ensures Rot32(x, 1) == RotL(x, 1) && Rot32(x, 5) == RotL(x, 5) && Rot32(x, 30) == RotL(x, 30)
  {
  }

  /** The program's f1 to f4. */
  function Fn(n: nat, x: Word, y: Word, z: Word): Word {
    if n == 1 then (x & y) | (!x & z) else if n == 3 then (x & y) | (x & z) | (y & z) else x ^ y ^ z
  }

  /** They are the functions of the standard. */
  lemma FnIsF(t: nat, x: Word, y: Word, z: Word)
    requires t < 80
    ensures Fn(t / 20 + 1, x, y, z) == F(t, x, y, z)
  {
    hide Ch, Maj, Parity, Fn;
    FnIs(x, y, z);
  }

  lemma FnIs(x: Word, y: Word, z: Word)
    ensures Fn(1, x, y, z) == Ch(x, y, z) && Fn(3, x, y, z) == Maj(x, y, z)
    ensures Fn(2, x, y, z) == Parity(x, y, z) == Fn(4, x, y, z)
  {
    ChooseEither(x, y, z);
    MajorityEither(x, y, z);
    hide Ch, Maj;
  }

  lemma ChooseEither(x: Word, y: Word, z: Word)
    ensures (x & y) | (!x & z) == Ch(x, y, z)
  {
  }

  lemma MajorityEither(x: Word, y: Word, z: Word)
    ensures (x & y) | (x & z) | (y & z) == Maj(x, y, z)
  {
  }

  function Const(n: nat): Word {
    if n == 1 then 0x5a827999 else if n == 2 then 0x6ed9eba1 else if n == 3 then 0x8f1bbcdc else 0xca62c1d6
  }

  lemma ConstIsK(t: nat)
    requires t < 80
    ensures Const(t / 20 + 1) == K(t)
  {
  }

  method AddFive(rotated: Word, f: Word, e: Word, w: Word, k: Word) returns (temp: Word)
    ensures temp == Sum(rotated, f, e, w, k)
  {
    temp := rotated + f + e + w + k;
  }

  method AddTo(x: Word, y: Word) returns (z: Word)
    ensures z == Plus(x, y)
  {
    z := x + y;
  }

  /** FUNC: one round on the local variables. */
  method Func(n: nat, ghost t: nat, w: Word, v: Vars) returns (r: Vars)
    requires t < 80 && n == t / 20 + 1
    ensures r == Round(t, v, w)
  {
    hide F, K, Fn, Const, Rot32, RotL, Sum;
    var A, B, C, D, E := v.a, v.b, v.c, v.d, v.e;
    Rotations(A);
    Rotations(B);
    FnIsF(t, B, C, D);
    ConstIsK(t);
    var temp := AddFive(Rot32(A, 5), Fn(n, B, C, D), E, w, Const(n));
    E := D;
    D := C;
    C := Rot32(B, 30);
    B := A;
    A := temp;
    r := Vars(A, B, C, D, E);
  }

  lemma ScheduleStart(m: seq<Word>, t: nat, modified: bool)
    requires |m| == 16 && t < 16
    ensures Schedule(m, t, modified) == m[t]
  {
  }

  lemma ScheduleStep(m: seq<Word>, t: nat, modified: bool)
    requires |m| == 16 && t >= 16
    ensures Schedule(m, t, modified)
         == Mixed(Schedule(m, t - 3, modified), Schedule(m, t - 8, modified), Schedule(m, t - 14, modified), Schedule(m, t - 16, modified), modified)
  {
  }

  /** The first two loops of sha_transform. */
  method Expand(m: seq<Word>, modified: bool) returns (W: array<Word>)
    requires |m| == 16
    ensures fresh(W) && W.Length == 80 && forall t {:trigger W[t]} :: 0 <= t < 80 ==> W[t] == Schedule(m, t, modified)
  {
    hide Schedule, Mixed;
    W := new Word[80](_ => 0);
    for i := 0 to 16
      invariant forall t {:trigger W[t]} :: 0 <= t < i ==> W[t] == Schedule(m, t, modified)
    {
      ScheduleStart(m, i, modified);
      W[i] := m[i];
    }
    for i := 16 to 80
      invariant forall t {:trigger W[t]} :: 0 <= t < i ==> W[t] == Schedule(m, t, modified)
    {
      ScheduleStep(m, i, modified);
      W[i] := Xored(W[i - 3], W[i - 8], W[i - 14], W[i - 16], modified);
    }
  }

  /** The words combined, and rotated in the modified version. */
  function Xored(a: Word, b: Word, c: Word, d: Word, modified: bool): (w: Word)
    ensures w == Mixed(a, b, c, d, modified)
  {
    var x := a ^ b ^ c ^ d;
    if modified then Rotations(x); Rot32(x, 1) else x
  }

  lemma RoundsStep(t: nat, h: Vars, m: seq<Word>, modified: bool)
    requires |m| == 16
    ensures Rounds(t + 1, h, m, modified) == Round(t, Rounds(t, h, m, modified), Schedule(m, t, modified))
  {
  }

  /** One of the four loops, with function n. */
  method TwentyRounds(n: nat, W: array<Word>, v0: Vars, ghost h: Vars, ghost m: seq<Word>, ghost modified: bool) returns (v: Vars)
    requires 1 <= n <= 4 && |m| == 16 && W.Length == 80 && forall t {:trigger W[t]} :: 0 <= t < 80 ==> W[t] == Schedule(m, t, modified)
    requires v0 == Rounds(20 * (n - 1), h, m, modified)
    ensures v == Rounds(20 * n, h, m, modified)
  {
    hide Schedule, Rounds, Round;
    v := v0;
    for i := 20 * (n - 1) to 20 * n
      invariant v == Rounds(i, h, m, modified)
    {
      RoundsStep(i, h, m, modified);
      v := Func(n, i, W[i], v);
    }
  }

  /** The four bytes from cp on in the opposite order. */
  method ReverseWord(a: array<Byte>, cp: nat)
    requires cp + 4 <= a.Length
    modifies a
    ensures a[cp] == old(a[cp + 3]) && a[cp + 1] == old(a[cp + 2]) && a[cp + 2] == old(a[cp + 1]) && a[cp + 3] == old(a[cp])
    ensures forall j {:trigger a[j]} :: 0 <= j < a.Length && !(cp <= j < cp + 4) ==> a[j] == old(a[j])
  {
    a[cp], a[cp + 1], a[cp + 2], a[cp + 3] := a[cp + 3], a[cp + 2], a[cp + 1], a[cp];
  }

  /** byte_reverse of the whole buffer. */
  method ByteReverse(a: array<Byte>)
    requires a.Length == 64
    modifies a
    ensures a[..] == Reversed(old(a[..]))
  {
    hide Mirror;
    for i := 0 to 16
      invariant forall j {:trigger a[j]} :: 0 <= j < 4 * i ==> a[j] == old(a[..])[Mirror(j)]
      invariant forall j {:trigger a[j]} :: 4 * i <= j < 64 ==> a[j] == old(a[j])
    {
      MirrorBlock(i);
      ReverseWord(a, 4 * i);
    }
  }

  lemma MirrorBlock(i: nat)
    ensures Mirror(4 * i) == 4 * i + 3 && Mirror(4 * i + 1) == 4 * i + 2 && Mirror(4 * i + 2) == 4 * i + 1 && Mirror(4 * i + 3) == 4 * i
  {
    MirrorAt(i, 0);
    MirrorAt(i, 1);
    MirrorAt(i, 2);
    MirrorAt(i, 3);
  }

  /** memcpy and memset into the buffer. */
  method CopyTo(a: array<Byte>, at: nat, s: seq<Byte>)
    requires at + |s| <= a.Length
    modifies a
    ensures a[..] == old(a[..at]) + s + old(a[at + |s|..])
  {
    for i := 0 to |s|
      invariant forall k {:trigger a[k]} :: 0 <= k < a.Length ==> a[k] == if at <= k < at + i then s[k - at] else old(a[k])
    {
      a[at + i] := s[i];
    }
  }

  /** The bytes of an unsigned int in memory. */
  function Stored(w: nat): (s: seq<Byte>)
    ensures |s| == 4
  {
    [w % 256, w / 256 % 256, w / 256 / 256 % 256, w / 256 / 256 / 256 % 256]
  }

  lemma StoredBackwards(w: nat)
    ensures BigEndian(w, 4) == [Stored(w)[3], Stored(w)[2], Stored(w)[1], Stored(w)[0]]
  {
    BigEndianStep(w, 4);
    BigEndianStep(w / 256, 3);
    BigEndianStep(w / 256 / 256, 2);
    BigEndianStep(w / 256 / 256 / 256, 1);
    hide BigEndian;
    assert BigEndian(w / 256 / 256 / 256 / 256, 0) == [] by {
      BigEndianNone(w / 256 / 256 / 256 / 256);
    }
  }

  lemma BigEndianNone(x: nat)
    ensures BigEndian(x, 0) == []
  {
  }

  /** What the additions of sha_update do to the pair of counters. */
  lemma Counted(lo: nat, hi: nat, count: nat)
    requires lo < Full && hi < Full && count < 0x8000_0000
    ensures var l := 8 * count % Full;
      var hi1 := if (lo + l) % Full < lo then (hi + 1) % Full else hi;
      (hi1 + count / 0x2000_0000) % Full * Full + (lo + l) % Full == (hi * Full + lo + 8 * count) % (Full * Full)
  {
    var l, h := 8 * count % Full, count / 0x2000_0000;
    assert 8 * count == h * Full + l;
    var carry := if lo + l >= Full then 1 else 0;
    var s, t := lo + l - carry * Full, hi + h + carry;
    Carried(lo, l, carry);
    HighWord(hi, h, carry);
    WordPair(t, s);
    assert hi * Full + lo + 8 * count == t * Full + s;
  }

  lemma Carried(lo: nat, l: nat, carry: nat)
    requires lo < Full && l < Full && carry == if lo + l >= Full then 1 else 0
    ensures (lo + l) % Full == lo + l - carry * Full && ((lo + l) % Full < lo <==> carry == 1)
  {
  }

  lemma HighWord(hi: nat, h: nat, carry: nat)
    requires hi < Full && h < Full && carry <= 1
    ensures ((if carry == 1 then (hi + 1) % Full else hi) + h) % Full == (hi + h + carry) % Full
  {
  }

  lemma WordPair(t: nat, s: nat)
    requires t < 2 * Full && s < Full
    ensures (t * Full + s) % (Full * Full) == t % Full * Full + s
  {
    var q := if t >= Full then 1 else 0;
    DivMod(t * Full + s, Full * Full, q, (t - q * Full) * Full + s);
  }

  /** The sequences differ where both have a byte. */
  predicate Clash(s: seq<Byte>, t: seq<Byte>) {
    exists i :: 0 <= i < |s| && i < |t| && s[i] != t[i]
  }

  class ShaInfo {
    const digest: array<Word>
    var countLo: nat
    var countHi: nat
    const data: array<Byte>

    ghost predicate Sized()
      reads this`countLo, this`countHi
    {
      digest.Length == 5 && data.Length == 64 && countLo < Full && countHi < Full
    }

    function Value(): Vars
      requires digest.Length == 5
      reads digest
    {
      Vars(digest[0], digest[1], digest[2], digest[3], digest[4])
    }

    /** count_hi:count_lo. */
    function Count(): nat
      reads this`countLo, this`countHi
    {
      countHi * Full + countLo
    }

    constructor ()
      ensures digest.Length == 5 && data.Length == 64 && fresh(digest) && fresh(data)
    {
      digest := new Word[5](_ => 0);
      data := new Byte[64](_ => 0);
    }

    lemma ValueIs()
      requires digest.Length == 5
      ensures Value() == Vars(digest[0], digest[1], digest[2], digest[3], digest[4])
    {
    }

    method SetValue(v: Vars)
      requires digest.Length == 5
      modifies digest
      ensures Value() == v
    {
      digest[0], digest[1], digest[2], digest[3], digest[4] := v.a, v.b, v.c, v.d, v.e;
    }

    /** sha_transform: the hash of a block as the standard has it. */
    method ShaTransform(modified: bool)
      requires Sized()
      modifies digest
      ensures Value() == Compress(old(Value()), Loaded(data[..]), modified)
    {
      ghost var h := Value();
      SizedIs();
      hide *;
      var m := Loaded(data[..]);
      RoundsNone(h, m, modified);
      var W := Expand(m, modified);
      var v := TwentyRounds(1, W, Value(), h, m, modified);
      v := TwentyRounds(2, W, v, h, m, modified);
      v := TwentyRounds(3, W, v, h, m, modified);
      v := TwentyRounds(4, W, v, h, m, modified);
      ValueIs();
      var A := AddTo(digest[0], v.a);
      var B := AddTo(digest[1], v.b);
      var C := AddTo(digest[2], v.c);
      var D := AddTo(digest[3], v.d);
      var E := AddTo(digest[4], v.e);
      SetValue(Vars(A, B, C, D, E));
      CompressSums(h, m, modified);
    }

    /** The state after a message: its whole blocks are hashed, the rest is in the buffer, and its bits are counted. */
    ghost predicate Holds(message: seq<Byte>, modified: bool)
      reads this`countLo, this`countHi, digest, data
    {
      && Sized() && Value() == Absorb(Initial, Whole(message), modified)
      && data[..|Tail(message)|] == Tail(message) && Count() == 8 * |message| % (Full * Full)
    }

    /** sha_init. */
    method ShaInit(ghost modified: bool)
      requires digest.Length == 5 && data.Length == 64
      modifies this`countLo, this`countHi, digest
      ensures Holds([], modified)
    {
      hide *;
      SetValue(Vars(0x67452301, 0xefcdab89, 0x98badcfe, 0x10325476, 0xc3d2e1f0));
      InitialIs();
      countLo, countHi := 0, 0;
      NothingHeld(modified);
    }

    lemma InitialIs()
      ensures Initial == Vars(0x67452301, 0xefcdab89, 0x98badcfe, 0x10325476, 0xc3d2e1f0)
    {
    }

    lemma NothingHeld(modified: bool)
      requires digest.Length == 5 && data.Length == 64 && Value() == Initial && countLo == countHi == 0
      ensures Holds([], modified)
    {
      hide *;
      HoldsIs([], modified);
      SizedIs();
      AbsorbNothing(Initial, modified);
      NothingLeft();
      CountIs();
    }

    lemma CountIs()
      ensures Count() == countHi * Full + countLo && Full == 0x1_0000_0000
    {
    }

    /** One turn of the loop of sha_update. */
    method UpdateBlock(block: seq<Byte>, modified: bool)
      requires Sized() && |block| == 64
      modifies digest, data
      ensures Value() == Compress(old(Value()), Words(block), modified) && data[..] == Reversed(block)
    {
      hide Absorb, Words, Loaded, Compress, Reversed, Value;
      CopyTo(data, 0, block);
      assert data[..] == block;
      ByteReverse(data);
      LoadedReversed(block);
      ShaTransform(modified);
    }

    /** The loop of sha_update: every whole block of the buffer, from its start. */
    method UpdateBlocks(buffer: seq<Byte>, modified: bool) returns (at: nat)
      requires Sized()
      modifies digest, data
      ensures at == |Whole(buffer)| && Value() == Absorb(old(Value()), Whole(buffer), modified)
      ensures |buffer| < 64 ==> data[..] == old(data[..])
      ensures |buffer| >= 64 ==> data[..] == Reversed(buffer[at - 64..at])
    {
      hide Absorb, Words, Loaded, Compress, Reversed, Value;
      ghost var h, k := Value(), 0;
      at := 0;
      assert Value() == Absorb(h, buffer[..0], modified) by {
        AbsorbNothing(h, modified);
      }
      while |buffer| - at >= 64
        invariant at == 64 * k <= |buffer| && Value() == Absorb(h, buffer[..at], modified)
        invariant |buffer| < 64 ==> data[..] == old(data[..])
        invariant at > 0 ==> data[..] == Reversed(buffer[at - 64..at])
      {
        UpdateBlock(buffer[at..at + 64], modified);
        AbsorbNext(h, buffer, k, modified);
        k := k + 1;
        at := at + 64;
      }
      WholeLength(|buffer|, k);
    }

    /** sha_update; the message goes on where a block begins. */
    method ShaUpdate(buffer: seq<Byte>, modified: bool, ghost message: seq<Byte>)
      requires Sized() && |buffer| < 0x8000_0000
      modifies this`countLo, this`countHi, digest, data
      ensures Sized() && Count() == (old(Count()) + 8 * |buffer|) % (Full * Full)
      ensures Value() == Absorb(old(Value()), Whole(buffer), modified)
      ensures data[..|Tail(buffer)|] == Tail(buffer)
      ensures |buffer| < 64 ==> data[|buffer|..] == old(data[|buffer|..])
      ensures |buffer| >= 64 && Tail(buffer) == [] ==> data[..] == Reversed(buffer[|buffer| - 64..])
      ensures old(Holds(message, modified)) && (|message| % 64 == 0 || buffer == []) ==> Holds(message + buffer, modified)
      ensures Clash(Tail(buffer), Tail(message + buffer)) ==> !Holds(message + buffer, modified)
    {
      hide *;
      SizedIs();
      ghost var h, c, d, held := Value(), Count(), data[..], Holds(message, modified);
      HoldsIs(message, modified);
      AddBits(|buffer|);
      SizedIs();
      var at := UpdateBlocks(buffer, modified);
      WholeAndTail(buffer, at);
      ghost var d1 := data[..];
      CopyTo(data, 0, buffer[at..]);
      Copied(data, d1, Tail(buffer));
      LastOfBuffer(buffer, at);
      if held && (|message| % 64 == 0 || buffer == []) {
        HoldsNext(message, buffer, h, c, d, modified);
      }
      Clashing(message + buffer, Tail(buffer), modified);
    }

    lemma Clashing(message: seq<Byte>, t: seq<Byte>, modified: bool)
      requires data.Length == 64 && |t| <= 64 && data[..|t|] == t
      ensures Clash(t, Tail(message)) ==> !Holds(message, modified)
    {
      hide Tail, Holds;
      if Clash(t, Tail(message)) {
        var i :| 0 <= i < |t| && i < |Tail(message)| && t[i] != Tail(message)[i];
        assert data[..|t|][i] == data[i];
        WrongByte(this, message, i, modified);
      }
    }

    /** The end of sha_final: the last block, whose first 56 bytes are in the buffer, and the counters. */
    method FinishBlock(lo: nat, hi: nat, modified: bool, ghost front: seq<Byte>)
      requires Sized() && |front| == 56 && data[..56] == front && lo < Full && hi < Full
      modifies digest, data
      ensures Value() == Compress(old(Value()), Words(front + (BigEndian(hi, 4) + BigEndian(lo, 4))), modified)
    {
      hide *;
      SizedIs();
      ghost var d, block := data[..], front + (BigEndian(hi, 4) + BigEndian(lo, 4));
      ByteReverse(data);
      ghost var r := data[..];
      CopyTo(data, 56, Stored(hi));
      ghost var r1 := data[..];
      CopyTo(data, 60, Stored(lo));
      LastBlock(d, r, r1, data[..], front, hi, lo);
      LoadedReversed(block);
      ShaTransform(modified);
    }

    /** sha_final: the digest of the whole message. */
    method ShaFinal(modified: bool, ghost message: seq<Byte>)
      requires Holds(message, modified)
      modifies digest, data
      ensures Value() == Digest(message, modified)
    {
      hide *;
      HoldsIs(message, modified);
      SizedIs();
      CountIs();
      FinalCount(countLo, countHi, |message|);
      LengthBytes(8 * |message|);
      TailLength(message);
      var lo, hi := countLo, countHi;
      var count := lo / 8 % 64;
      ghost var tail, h := Tail(message), Value();
      PutByte(data, count, 0x80, tail);
      DigestByTail(message, modified);
      count := count + 1;
      if count > 56 {
        ghost var b1 := tail + [0x80] + Zeros(63 - |tail|);
        ClearFrom(data, count, 64, tail + [0x80]);
        ByteReverse(data);
        LoadedReversed(b1);
        ShaTransform(modified);
        ClearFrom(data, 0, 56, []);
        FinishBlock(lo, hi, modified, Zeros(56));
      } else {
        ClearFrom(data, count, 56, tail + [0x80]);
        FinishBlock(lo, hi, modified, tail + [0x80] + Zeros(55 - |tail|));
      }
    }

    lemma HoldsIs(message: seq<Byte>, modified: bool)
      ensures Holds(message, modified) <==>
        && Sized() && Value() == Absorb(Initial, Whole(message), modified)
        && data[..|Tail(message)|] == Tail(message) && Count() == 8 * |message| % (Full * Full)
    {
    }

    lemma HoldsNext(message: seq<Byte>, s: seq<Byte>, h: Vars, c: nat, d: seq<Byte>, modified: bool)
      requires |message| % 64 == 0 || s == []
      requires h == Absorb(Initial, Whole(message), modified) && c == 8 * |message| % (Full * Full) && |d| == 64 && d[..|Tail(message)|] == Tail(message)
      requires Sized() && Value() == Absorb(h, Whole(s), modified) && Count() == (c + 8 * |s|) % (Full * Full)
      requires data[..|Tail(s)|] == Tail(s) && (s == [] ==> data[..] == d)
      ensures Holds(message + s, modified)
    {
      hide Absorb, Whole, Tail;
      HoldsIs(message + s, modified);
      hide Holds;
      Continues(message, s, h, modified);
      BitCount(|message|, |s|);
      if s == [] {
        assert data[..|Tail(message)|] == data[..][..|Tail(message)|];
      }
    }

    lemma SizedIs()
      ensures Sized() <==> digest.Length == 5 && data.Length == 64 && countLo < Full && countHi < Full
    {
    }

    /** The counters at the beginning of sha_update. */
    method AddBits(count: nat)
      requires Sized() && count < 0x8000_0000
      modifies this`countLo, this`countHi
      ensures Sized() && Count() == (old(Count()) + 8 * count) % (Full * Full)
    {
      Counted(countLo, countHi, count);
      var l := 8 * count % Full;
      if (countLo + l) % Full < countLo {
        countHi := (countHi + 1) % Full;
      }
      countLo := (countLo + l) % Full;
      countHi := (countHi + count / 0x2000_0000) % Full;
    }
  }

  /** The counters at the end of a message of n bytes. */
  lemma FinalCount(lo: nat, hi: nat, n: nat)
    requires lo < Full && hi < Full && hi * Full + lo == 8 * n % (Full * Full)
    ensures lo / 8 % 64 == n % 64 && lo == 8 * n % 0x1_0000_0000 && hi == 8 * n / 0x1_0000_0000 % 0x1_0000_0000
  {
    var q := 8 * n / (Full * Full);
    assert 8 * n == q * (Full * Full) + (hi * Full + lo);
    DivMod(8 * n, Full, q * Full + hi, lo);
    DivMod(q * Full + hi, Full, q, hi);
    LowBits(lo, n, q * Full + hi);
  }

  lemma LowBits(lo: nat, n: nat, q: nat)
    requires 8 * n == q * Full + lo
    ensures lo / 8 % 64 == n % 64
  {
    assert n == q * 0x2000_0000 + lo / 8;
    var r := lo / 8 % 64;
    DivMod(n, 64, q * 0x80_0000 + lo / 8 / 64, r);
  }

  lemma TailLength(message: seq<Byte>)
    ensures |Tail(message)| == |message| % 64
  {
  }

  method PutByte(a: array<Byte>, at: nat, b: Byte, ghost s: seq<Byte>)
    requires at < a.Length && |s| == at && a[..at] == s
    modifies a
    ensures a[..at + 1] == s + [b]
  {
    a[at] := b;
  }

  /** memset with zero, from at up to end. */
  method ClearFrom(a: array<Byte>, at: nat, end: nat, ghost s: seq<Byte>)
    requires at <= end <= a.Length && |s| == at && a[..at] == s
    modifies a
    ensures a[..end] == s + Zeros(end - at) && (end == a.Length ==> a[..] == s + Zeros(end - at))
  {
    CopyTo(a, at, Zeros(end - at));
  }

  lemma LastBlock(d: seq<Byte>, r: seq<Byte>, r1: seq<Byte>, r2: seq<Byte>, front: seq<Byte>, hi: nat, lo: nat)
    requires |d| == 64 && |front| == 56 && d[..56] == front && r == Reversed(d)
    requires r1 == r[..56] + Stored(hi) + r[60..] && r2 == r1[..60] + Stored(lo) + r1[64..]
    ensures r2 == Reversed(front + (BigEndian(hi, 4) + BigEndian(lo, 4)))
  {
    var block := front + (BigEndian(hi, 4) + BigEndian(lo, 4));
    StoredBackwards(hi);
    StoredBackwards(lo);
    hide BigEndian;
    forall j: nat | j < 64 ensures r2[j] == Reversed(block)[j] {
      LastByte(j);
    }
  }

  lemma LastByte(j: nat)
    requires j < 64
    ensures if j < 56 then Mirror(j) < 56 else if j < 60 then Mirror(j) == 115 - j else Mirror(j) == 123 - j
  {
    MirrorAt(j / 4, j % 4);
  }

  lemma NothingLeft()
    ensures Whole([]) == [] && Tail([]) == []
  {
  }

  lemma WholeAndTail(s: seq<Byte>, at: nat)
    requires at == |Whole(s)|
    ensures at <= |s| && s[at..] == Tail(s) && |Tail(s)| < 64 && (|s| < 64 ==> |Tail(s)| == |s|)
  {
  }

  lemma LastOfBuffer(s: seq<Byte>, at: nat)
    requires at == |Whole(s)|
    ensures |s| >= 64 && Tail(s) == [] ==> at == |s| && s[at - 64..at] == s[|s| - 64..]
  {
  }

  lemma Copied(a: array<Byte>, d: seq<Byte>, s: seq<Byte>)
    requires a.Length == |d| && |s| <= |d| && a[..] == d[..0] + s + d[|s|..]
    ensures a[..|s|] == s && a[|s|..] == d[|s|..]
    ensures s == [] ==> a[..] == d
  {
    assert a[..|s|] == a[..][..|s|] && a[|s|..] == a[..][|s|..];
  }

  lemma AbsorbNothing(h: Vars, modified: bool)
    ensures Absorb(h, [], modified) == h
  {
  }

  lemma WholeLength(n: nat, k: nat)
    requires 64 * k <= n < 64 * k + 64
    ensures n - n % 64 == 64 * k
  {
    DivMod(n, 64, k, n - 64 * k);
  }

  lemma BitCount(m: nat, n: nat)
    ensures (8 * m % (Full * Full) + 8 * n) % (Full * Full) == 8 * (m + n) % (Full * Full)
  {
  }

  lemma Continues(message: seq<Byte>, s: seq<Byte>, h: Vars, modified: bool)
    requires h == Absorb(Initial, Whole(message), modified) && (|message| % 64 == 0 || s == [])
    ensures Absorb(Initial, Whole(message + s), modified) == Absorb(h, Whole(s), modified)
    ensures Tail(message + s) == if s == [] then Tail(message) else Tail(s)
  {
    hide Absorb;
    if s == [] {
      assert message + s == message && Whole(s) == [];
      AbsorbNothing(h, modified);
    } else {
      WholeTail(message, s);
      AbsorbConcat(Initial, message, Whole(s), modified);
    }
  }

  lemma RoundsNone(h: Vars, m: seq<Word>, modified: bool)
    requires |m| == 16
    ensures Rounds(0, h, m, modified) == h
  {
  }

  const BlockSize: nat := 8192

  /** sha_stream: fread fills its buffer until the end of the file. */
  method ShaStream(info: ShaInfo, file: seq<Byte>, modified: bool)
    requires info.digest.Length == 5 && info.data.Length == 64
    modifies info, info.digest, info.data
    ensures info.Value() == Digest(file, modified)
  {
    hide *;
    info.ShaInit(modified);
    var at := 0;
    Start(file);
    while at < |file|
      invariant at <= |file| && (at % 64 == 0 || at == |file|) && info.Holds(file[..at], modified)
    {
      var i := if |file| - at < BlockSize then |file| - at else BlockSize;
      NextChunk(file, at, i);
      info.HoldsIs(file[..at], modified);
      info.ShaUpdate(file[at..at + i], modified, file[..at]);
      at := at + i;
    }
    info.ShaFinal(modified, file);
  }

  lemma Start(file: seq<Byte>)
    ensures file[..0] == [] && file[..|file|] == file && BlockSize == 8192
  {
  }

  lemma NextChunk(file: seq<Byte>, at: nat, i: nat)
    requires at < |file| && at % 64 == 0 && i == if |file| - at < BlockSize then |file| - at else BlockSize
    ensures 0 < i && at + i <= |file| && |file[at..at + i]| == i <= 8192 && |file[..at]| == at
    ensures (at + i) % 64 == 0 || at + i == |file|
    ensures file[..at + i] == file[..at] + file[at..at + i]
  {
    if i == BlockSize {
      DivMod(at + 8192, 64, at / 64 + 128, 0);
    }
  }

  // ------------------------------------------------------------ updates that do not begin a block

  /** A byte that the buffer should hold and does not. */
  lemma WrongByte(info: ShaInfo, message: seq<Byte>, j: nat, modified: bool)
    requires info.data.Length == 64 && j < |Tail(message)| && info.data[j] != Tail(message)[j]
    ensures !info.Holds(message, modified)
  {
    hide *;
    info.HoldsIs(message, modified);
    info.SizedIs();
    assert info.data[..j + 1][j] == info.data[j];
    assert |Tail(message)| <= 64 && info.data[..|Tail(message)|] == Tail(message) ==> info.data[..|Tail(message)|][j] == Tail(message)[j];
    TailLength(message);
  }

  /** Zeros but for one byte. */
  function OneAt(n: nat, w: nat): (s: seq<Byte>)
    requires w < n
    ensures |s| == n && forall i :: 0 <= i < n ==> s[i] == if i == w then 1 else 0
  {
    seq(n, i requires 0 <= i < n => if i == w then 1 else 0)
  }

  /** Where the byte of the second part is put that betrays the update, and where it is seen. */
  function Traitor(n: nat, k: nat): nat
    requires k > 0
  {
    if k % 64 != 0 then k - k % 64 else k - 64 + Mirror(Seen(n, k))
  }

  function Seen(n: nat, k: nat): nat {
    if k % 64 == 0 && n % 64 == 61 then 1 else 0
  }

  /** The place where it is seen belongs to what is left of the message, and another byte belongs there. */
  lemma TraitorPlace(n: nat, k: nat)
    requires n % 64 != 0 && k > 0 && (n + k) % 64 != 0
    ensures Traitor(n, k) < k && Seen(n, k) < (n + k) % 64 <= n + k
    ensures n + Traitor(n, k) != n + k - (n + k) % 64 + Seen(n, k)
  {
    var q, r := k / 64, k % 64;
    if r == 0 {
      DivMod(n + k, 64, n / 64 + q, n % 64);
      MirrorAt(0, Seen(n, k));
    } else {
      SumNotLast(n, k);
    }
  }

  lemma SumNotLast(n: nat, k: nat)
    requires n % 64 != 0
    ensures (n + k) % 64 != k % 64
  {
    var c, r := n % 64, k % 64;
    if c + r < 64 {
      DivMod(n + k, 64, n / 64 + k / 64, c + r);
    } else {
      DivMod(n + k, 64, n / 64 + k / 64 + 1, c + r - 64);
    }
  }

  lemma TailAt(s: seq<Byte>, j: nat)
    requires j < |s| % 64
    ensures |Tail(s)| == |s| % 64 && Tail(s)[j] == s[|s| - |s| % 64 + j]
  {
  }

  /** What the buffer holds after the second part. */
  lemma SeenInBuffer(info: ShaInfo, n: nat, k: nat, s: seq<Byte>)
    requires n % 64 != 0 && k > 0 && (n + k) % 64 != 0 && Traitor(n, k) < k && s == OneAt(k, Traitor(n, k))
    requires info.data.Length == 64 && |Tail(s)| <= 64 && info.data[..|Tail(s)|] == Tail(s)
    requires |s| >= 64 && Tail(s) == [] ==> info.data[..] == Reversed(s[|s| - 64..])
    ensures info.data[Seen(n, k)] == 1
  {
    if k % 64 != 0 {
      TailAt(s, 0);
      assert info.data[..|Tail(s)|][0] == info.data[0];
    } else {
      TailLength(s);
      var block, j := s[|s| - 64..], Seen(n, k);
      MirrorAt(0, j);
      assert Reversed(block)[j] == block[Mirror(j)];
      assert info.data[..][j] == info.data[j];
    }
  }

  /**
    For all lengths such that the second part does not begin a block and the whole does not end one, there are
    contents for which the state after the two updates is not that of the whole message.
  */
  method UnalignedLoses(n: nat, k: nat, modified: bool) returns (info: ShaInfo, message: seq<Byte>, buffer: seq<Byte>)
    requires n % 64 != 0 && k > 0 && (n + k) % 64 != 0 && n < 0x8000_0000 && k < 0x8000_0000
    ensures |message| == n && |buffer| == k && info.Sized() && !info.Holds(message + buffer, modified)
  {
    hide *;
    TraitorPlace(n, k);
    message, buffer := Zeros(n), OneAt(k, Traitor(n, k));
    info := new ShaInfo();
    info.ShaInit(modified);
    info.HoldsIs([], modified);
    ZerosThenOne(n, k, message, buffer);
    info.ShaUpdate(message, modified, []);
    info.ShaUpdate(buffer, modified, message);
    info.SizedIs();
    TailLength(buffer);
    SeenInBuffer(info, n, k, buffer);
    WrongByte(info, message + buffer, Seen(n, k), modified);
  }

  lemma ZerosThenOne(n: nat, k: nat, message: seq<Byte>, buffer: seq<Byte>)
    requires n % 64 != 0 && k > 0 && (n + k) % 64 != 0 && Traitor(n, k) < k && message == Zeros(n) && buffer == OneAt(k, Traitor(n, k))
    ensures |message| == n && |buffer| == k
    ensures Seen(n, k) < |Tail(message + buffer)| && Tail(message + buffer)[Seen(n, k)] == 0
  {
    TraitorPlace(n, k);
    TailAt(message + buffer, Seen(n, k));
  }

  /** So two bytes, one at a time: the second one overwrites the first. */
  method SecondUpdateOverwrites(modified: bool) returns (info: ShaInfo)
    ensures info.Sized() && info.Count() == 16 && info.data[0] == 2 && !info.Holds([1, 2], modified)
  {
    hide *;
    OneByte();
    info := new ShaInfo();
    info.ShaInit(modified);
    info.HoldsIs([], modified);
    info.ShaUpdate([1], modified, []);
    info.ShaUpdate([2], modified, [1]);
    info.SizedIs();
    assert info.data[..1][0] == 2;
    WrongByte(info, [1, 2], 0, modified);
  }

  lemma OneByte()
    ensures Tail([1]) == [1] && Tail([2]) == [2] && Tail([1, 2]) == [1, 2] && Full == 0x1_0000_0000
  {
    hide Tail;
    ShortTail([1]);
    ShortTail([2]);
    ShortTail([1, 2]);
  }

  lemma ShortTail(s: seq<Byte>)
    requires |s| < 64
    ensures Tail(s) == s
  {
  }
}
