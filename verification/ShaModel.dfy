/**
  The secure hash of FIPS 180-4 as a function of the message: sections 5.1.1 (padding), 5.3.1 (initial value) and
  6.1.2 (the hash of a block). Without the rotation in the message schedule it is the standard's first version.
*/
module ShaModel {
  import opened Bits

  type Byte = x: int | 0 <= x < 256
  type Word = bv32

  /** Working variables and hash values. */
  datatype Vars = Vars(a: Word, b: Word, c: Word, d: Word, e: Word)

  function Big(b0: Byte, b1: Byte, b2: Byte, b3: Byte): (w: nat)
    ensures w < 0x1_0000_0000
  {
    0x100_0000 * b0 + 0x1_0000 * b1 + 0x100 * b2 + b3
  }

  function ToWord(n: nat): Word
    requires n < 0x1_0000_0000
  {
    n as bv32
  }

  /** The sixteen words of a block, most significant byte first. */
  function Words(block: seq<Byte>): (w: seq<Word>)
    requires |block| == 64
    ensures |w| == 16
  {
    seq(16, i requires 0 <= i < 16 => ToWord(Big(block[4 * i], block[4 * i + 1], block[4 * i + 2], block[4 * i + 3])))
  }

  /** The message schedule. */
  function Schedule(m: seq<Word>, t: nat, modified: bool): Word
    requires |m| == 16
  {
    if t < 16 then m[t]
    else Mixed(Schedule(m, t - 3, modified), Schedule(m, t - 8, modified), Schedule(m, t - 14, modified), Schedule(m, t - 16, modified), modified)
  }

  function Mixed(a: Word, b: Word, c: Word, d: Word, modified: bool): Word {
    if modified then RotL(a ^ b ^ c ^ d, 1) else a ^ b ^ c ^ d
  }

  function Ch(x: Word, y: Word, z: Word): Word {
    (x & y) ^ (!x & z)
  }

  function Parity(x: Word, y: Word, z: Word): Word {
    x ^ y ^ z
  }

  function Maj(x: Word, y: Word, z: Word): Word {
    (x & y) ^ (x & z) ^ (y & z)
  }

  function F(t: nat, x: Word, y: Word, z: Word): Word {
    if t < 20 then Ch(x, y, z) else if t < 40 then Parity(x, y, z) else if t < 60 then Maj(x, y, z) else Parity(x, y, z)
  }

  function K(t: nat): Word {
    if t < 20 then 0x5a827999 else if t < 40 then 0x6ed9eba1 else if t < 60 then 0x8f1bbcdc else 0xca62c1d6
  }

  function RotL(x: Word, n: nat): Word
    requires n <= 32
  {
    x.RotateLeft(n)
  }

  /** Modulo 2^32; the order of the sum is the program's. */
  function Sum(rotated: Word, f: Word, e: Word, w: Word, k: Word): Word {
    rotated + f + e + w + k
  }

  function Round(t: nat, v: Vars, w: Word): Vars {
    Vars(Sum(RotL(v.a, 5), F(t, v.b, v.c, v.d), v.e, w, K(t)), v.a, RotL(v.b, 30), v.c, v.d)
  }

  function Rounds(t: nat, v: Vars, m: seq<Word>, modified: bool): Vars
    requires |m| == 16
  {
    if t == 0 then v else Round(t - 1, Rounds(t - 1, v, m, modified), Schedule(m, t - 1, modified))
  }

  /**
    Five variables are the memory of one: b is what a was one round ago, and c, d and e are what a was two, three and
    four rounds ago, turned by 30 bits.
  */
  lemma RoundHistory(t: nat, h: Vars, m: seq<Word>, modified: bool)
    requires |m| == 16 && t >= 4
    ensures var r, a1, a2, a3, a4 := Rounds(t, h, m, modified), Rounds(t - 1, h, m, modified).a, Rounds(t - 2, h, m, modified).a,
        Rounds(t - 3, h, m, modified).a, Rounds(t - 4, h, m, modified).a;
      r.b == a1 && r.c == RotL(a2, 30) && r.d == RotL(a3, 30) && r.e == RotL(a4, 30)
    ensures var r := Rounds(t, h, m, modified);
      Rounds(t + 1, h, m, modified).a == Sum(RotL(r.a, 5), F(t, r.b, r.c, r.d), r.e, Schedule(m, t, modified), K(t))
  {
    hide *;
    RoundParts(t, h, m, modified);
    RoundParts(t - 1, h, m, modified);
    RoundParts(t - 2, h, m, modified);
    RoundParts(t - 3, h, m, modified);
    RoundParts(t - 4, h, m, modified);
  }

  lemma RoundParts(t: nat, h: Vars, m: seq<Word>, modified: bool)
    requires |m| == 16
    ensures var v, r := Rounds(t, h, m, modified), Rounds(t + 1, h, m, modified);
      r.b == v.a && r.c == RotL(v.b, 30) && r.d == v.c && r.e == v.d
    ensures var v, r := Rounds(t, h, m, modified), Rounds(t + 1, h, m, modified);
      r.a == Sum(RotL(v.a, 5), F(t, v.b, v.c, v.d), v.e, Schedule(m, t, modified), K(t))
  {
    hide RotL, F, K, Schedule, Sum;
  }

  /** From the seventeenth on a word of the schedule combines four earlier ones. */
  lemma ScheduleHistory(t: nat, m: seq<Word>, modified: bool)
    requires |m| == 16 && t >= 16
    ensures var x := Schedule(m, t - 3, modified) ^ Schedule(m, t - 8, modified) ^ Schedule(m, t - 14, modified) ^ Schedule(m, t - 16, modified);
      Schedule(m, t, modified) == if modified then RotL(x, 1) else x
  {
    hide RotL;
  }

  /** Each bit of f is that of y where x has a one, and that of z where it has none. */
  predicate Chooses(f: Word, x: Word, y: Word, z: Word) {
    f & x == y & x && f & !x == z & !x
  }

  /** Each bit of f agrees with x or with y. */
  predicate Agrees(f: Word, x: Word, y: Word) {
    (f ^ x) & (f ^ y) == 0
  }

  /** Each bit of f agrees with one at least of any two of the three. */
  predicate IsMajority(f: Word, x: Word, y: Word, z: Word) {
    Agrees(f, x, y) && Agrees(f, x, z) && Agrees(f, y, z)
  }

  predicate IsParity(f: Word, x: Word, y: Word, z: Word) {
    f ^ x == y ^ z
  }

  /** Twenty rounds choose, twenty take the parity, twenty the majority, twenty the parity again. */
  lemma RoundFunctions(t: nat, x: Word, y: Word, z: Word)
    ensures t < 20 ==> Chooses(F(t, x, y, z), x, y, z)
    ensures 40 <= t < 60 ==> IsMajority(F(t, x, y, z), x, y, z)
    ensures 20 <= t < 40 || 60 <= t ==> IsParity(F(t, x, y, z), x, y, z)
  {
    hide *;
    WhichF(t, x, y, z);
    ChooseBits(x, y, z);
    MajorityBits(x, y, z);
    ParityBits(x, y, z);
  }

  lemma WhichF(t: nat, x: Word, y: Word, z: Word)
    ensures F(t, x, y, z) == if t < 20 then Ch(x, y, z) else if 40 <= t < 60 then Maj(x, y, z) else Parity(x, y, z)
  {
    hide Ch, Maj, Parity;
  }

  lemma ChooseBits(x: Word, y: Word, z: Word)
    ensures Chooses(Ch(x, y, z), x, y, z)
  {
  }

  lemma MajorityBits(x: Word, y: Word, z: Word)
    ensures IsMajority(Maj(x, y, z), x, y, z)
  {
    hide Agrees, Maj;
    MajorityFirst(x, y, z);
    MajoritySecond(x, y, z);
    MajorityThird(x, y, z);
  }

  lemma MajorityFirst(x: Word, y: Word, z: Word)
    ensures Agrees(Maj(x, y, z), x, y)
  {
  }

  lemma MajoritySecond(x: Word, y: Word, z: Word)
    ensures Agrees(Maj(x, y, z), x, z)
  {
  }

  lemma MajorityThird(x: Word, y: Word, z: Word)
    ensures Agrees(Maj(x, y, z), y, z)
  {
  }

  lemma ParityBits(x: Word, y: Word, z: Word)
    ensures IsParity(Parity(x, y, z), x, y, z)
  {
  }

  /** The constants are the square roots of 2, 3, 5 and 10, in units of 2^-30. */
  lemma RoundConstants(t: nat)
    requires t < 80
    ensures var k, n := K(t) as int, [2, 3, 5, 10][t / 20];
      k * k <= n * 0x1000_0000_0000_0000 < (k + 1) * (k + 1)
  {
  }

  function Plus(x: Word, y: Word): Word {
    x + y
  }

  function Add(u: Vars, v: Vars): Vars {
    Vars(Plus(u.a, v.a), Plus(u.b, v.b), Plus(u.c, v.c), Plus(u.d, v.d), Plus(u.e, v.e))
  }

  /** Section 6.1.2: the next hash value. */
  function Compress(h: Vars, m: seq<Word>, modified: bool): Vars
    requires |m| == 16
  {
    Add(h, Rounds(80, h, m, modified))
  }

  /** After eighty rounds each variable is added to its own hash word. */
  lemma CompressSums(h: Vars, m: seq<Word>, modified: bool)
    requires |m| == 16
    ensures var r, v := Compress(h, m, modified), Rounds(80, h, m, modified);
      && r.a == Plus(h.a, v.a) && r.b == Plus(h.b, v.b) && r.c == Plus(h.c, v.c) && r.d == Plus(h.d, v.d) && r.e == Plus(h.e, v.e)
  {
    hide Rounds, Plus;
  }

  const Initial := Vars(0x67452301, 0xefcdab89, 0x98badcfe, 0x10325476, 0xc3d2e1f0)

  /** The hash value after whole blocks. */
  function Absorb(h: Vars, s: seq<Byte>, modified: bool): Vars
    requires |s| % 64 == 0
    decreases |s|
  {
    if s == [] then h else Absorb(Compress(h, Words(s[..64]), modified), s[64..], modified)
  }

  function Zeros(n: nat): seq<Byte> {
    seq(n, _ => 0)
  }

  /** The n least significant bytes of a number, most significant first. */
  function BigEndian(x: nat, n: nat): (r: seq<Byte>)
    ensures |r| == n
  {
    if n == 0 then [] else BigEndian(x / 256, n - 1) + [x % 256]
  }

  lemma PaddedLength(length: nat)
    ensures (length + (9 + (55 - length % 64) % 64)) % 64 == 0
  {
    var q, c := length / 64, length % 64;
    if c <= 55 {
      DivMod(length + 64 - c, 64, q + 1, 0);
    } else {
      DivMod(length + 128 - c, 64, q + 2, 0);
    }
  }

  /** Section 5.1.1: a one bit, the fewest zero bits that leave 64 bits of a block, and the length in bits. */
  function Padding(length: nat): (r: seq<Byte>)
    ensures (length + |r|) % 64 == 0 && |r| == 9 + (55 - length % 64) % 64
  {
    PaddedLength(length);
    [0x80] + Zeros((55 - length % 64) % 64) + BigEndian(8 * length, 8)
  }

  /** The message digest. */
  function Digest(message: seq<Byte>, modified: bool): Vars {
    Absorb(Initial, message + Padding(|message|), modified)
  }

  lemma {:induction false} AbsorbConcat(h: Vars, s: seq<Byte>, t: seq<Byte>, modified: bool)
    requires |s| % 64 == 0 && |t| % 64 == 0
    ensures Absorb(h, s + t, modified) == Absorb(Absorb(h, s, modified), t, modified)
    decreases |s|
  {
    hide Compress, Words;
    if s == [] {
      assert s + t == t;
    } else {
      assert (s + t)[..64] == s[..64] && (s + t)[64..] == s[64..] + t;
      AbsorbConcat(Compress(h, Words(s[..64]), modified), s[64..], t, modified);
    }
  }

  lemma AbsorbBlock(h: Vars, s: seq<Byte>, modified: bool)
    requires |s| == 64
    ensures Absorb(h, s, modified) == Compress(h, Words(s), modified)
  {
    hide Compress, Words;
    assert s[..64] == s && s[64..] == [];
  }

  /** Whole blocks of a message, and what is left over. */
  function Whole(s: seq<Byte>): (r: seq<Byte>)
    ensures |r| % 64 == 0
  {
    s[..|s| - |s| % 64]
  }

  function Tail(s: seq<Byte>): (r: seq<Byte>)
    ensures |r| == |s| % 64
  {
    s[|s| - |s| % 64..]
  }

  function Pow256(k: nat): (r: nat)
    ensures r > 0
  {
    if k == 0 then 1 else 256 * Pow256(k - 1)
  }

  function Upper(x: nat, m: nat): nat
    requires m > 0
  {
    x / m
  }

  /** Dividing by 256 and then by m. */
  lemma DivideTwice(x: nat, m: nat)
    requires m > 0
    ensures x / (256 * m) == x / 256 / m && x % (256 * m) / 256 == x / 256 % m && x % (256 * m) % 256 == x % 256
  {
    var d, e := x / 256, x % 256;
    var q, r := d / m, d % m;
    assert d == q * m + r;
    assert x == q * (256 * m) + (256 * r + e);
    assert 256 * r + e < 256 * m;
    DivMod(x, 256 * m, q, 256 * r + e);
    DivMod(256 * r + e, 256, r, e);
  }

  lemma {:induction false} BigEndianSplit(x: nat, n: nat, k: nat)
    ensures BigEndian(x, n + k) == BigEndian(Upper(x, Pow256(k)), n) + BigEndian(x, k)
    decreases k
  {
    if k > 0 {
      BigEndianSplit(x / 256, n, k - 1);
      DivideTwice(x, Pow256(k - 1));
      BigEndianStep(x, n + k);
      BigEndianStep(x, k);
      hide BigEndian;
    }
  }

  lemma BigEndianStep(x: nat, n: nat)
    requires n > 0
    ensures BigEndian(x, n) == BigEndian(x / 256, n - 1) + [x % 256]
  {
  }

  lemma {:induction false} BigEndianMod(x: nat, k: nat)
    ensures BigEndian(x % Pow256(k), k) == BigEndian(x, k)
    decreases k
  {
    if k > 0 {
      BigEndianMod(x / 256, k - 1);
      DivideTwice(x, Pow256(k - 1));
      BigEndianStep(x, k);
      BigEndianStep(x % Pow256(k), k);
      hide BigEndian;
    }
  }

  /** The length in bytes is the high word and the low word, each most significant byte first. */
  lemma LengthBytes(x: nat)
    ensures BigEndian(x, 8) == BigEndian(x / 0x1_0000_0000 % 0x1_0000_0000, 4) + BigEndian(x % 0x1_0000_0000, 4)
  {
    hide BigEndian;
    assert Pow256(4) == 0x1_0000_0000;
    BigEndianSplit(x, 4, 4);
    BigEndianMod(x / 0x1_0000_0000, 4);
    BigEndianMod(x, 4);
  }

  /** The tail with its padding is one block or two. */
  lemma LastBlocks(h: Vars, tail: seq<Byte>, n: nat, modified: bool)
    requires |tail| == n % 64
    ensures var c, len := |tail|, BigEndian(8 * n, 8);
      && |tail + Padding(n)| % 64 == 0
      && Absorb(h, tail + Padding(n), modified) ==
        if c + 1 <= 56 then Compress(h, Words(tail + [0x80] + Zeros(55 - c) + len), modified)
        else Compress(Compress(h, Words(tail + [0x80] + Zeros(63 - c)), modified), Words(Zeros(56) + len), modified)
  {
    hide Compress, Words, Absorb, BigEndian;
    var c, len, rest := |tail|, BigEndian(8 * n, 8), tail + Padding(n);
    if c + 1 <= 56 {
      assert rest == tail + [0x80] + Zeros(55 - c) + len;
      AbsorbBlock(h, rest, modified);
    } else {
      var b1, b2 := tail + [0x80] + Zeros(63 - c), Zeros(56) + len;
      assert Zeros(119 - c) == Zeros(63 - c) + Zeros(56);
      assert rest == b1 + b2;
      AbsorbConcat(h, b1, b2, modified);
      AbsorbBlock(h, b1, modified);
      AbsorbBlock(Compress(h, Words(b1), modified), b2, modified);
    }
  }

  /** The digest, from what is left of the message after its whole blocks: one more block or two. */
  lemma DigestByTail(message: seq<Byte>, modified: bool)
    ensures var h, tail, len := Absorb(Initial, Whole(message), modified), Tail(message), BigEndian(8 * |message|, 8);
      var c := |tail|;
      Digest(message, modified) ==
        if c + 1 <= 56 then Compress(h, Words(tail + [0x80] + Zeros(55 - c) + len), modified)
        else Compress(Compress(h, Words(tail + [0x80] + Zeros(63 - c)), modified), Words(Zeros(56) + len), modified)
  {
    hide Compress, Words, Absorb, BigEndian;
    var h, tail := Absorb(Initial, Whole(message), modified), Tail(message);
    var rest := tail + Padding(|message|);
    assert message + Padding(|message|) == Whole(message) + rest;
    AbsorbConcat(Initial, Whole(message), rest, modified);
    LastBlocks(h, tail, |message|, modified);
  }

  /** One more block of a buffer. */
  lemma AbsorbNext(h: Vars, s: seq<Byte>, k: nat, modified: bool)
    requires 64 * k + 64 <= |s|
    ensures Absorb(h, s[..64 * (k + 1)], modified) == Compress(Absorb(h, s[..64 * k], modified), Words(s[64 * k..64 * k + 64]), modified)
  {
    hide Compress, Words, Absorb;
    var a, b := s[..64 * k], s[64 * k..64 * k + 64];
    assert s[..64 * (k + 1)] == a + b;
    AbsorbConcat(h, a, b, modified);
    AbsorbBlock(Absorb(h, a, modified), b, modified);
  }

  /** More of a message that so far ends with a block. */
  lemma WholeTail(message: seq<Byte>, s: seq<Byte>)
    requires |message| % 64 == 0
    ensures Whole(message) == message && Whole(message + s) == message + Whole(s) && Tail(message + s) == Tail(s) && |message + s| % 64 == |s| % 64
  {
    var m := |message| / 64;
    DivMod(|message| + |s|, 64, m + |s| / 64, |s| % 64);
  }
}
