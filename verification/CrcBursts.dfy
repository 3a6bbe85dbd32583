/**
  What the checksum of wolfbench/Benchmarks/CRC32/crc_32.c is for: a message in which up to four bytes in a row
  have been changed never has the checksum of the original.
*/
module CrcBursts {
  import opened Crc32

  // ------------------------------------------------------------ the register can be run backwards

  lemma ShiftBitsBack(x: bv32, y: bv32)
    requires ShiftBits(x) == ShiftBits(y)
    ensures x == y
  {
  }

  lemma ShiftBack(a: Reg, b: Reg)
    requires Shift(a) == Shift(b)
    ensures a == b
  {
    hide ShiftBits;
    ShiftBitsBack(a.bits, b.bits);
  }

  lemma {:induction false} ShiftsBack(a: Reg, b: Reg, n: nat)
    requires Shifts(a, n) == Shifts(b, n)
    ensures a == b
  {
    hide Shift;
    if n > 0 {
      ShiftBack(Shifts(a, n - 1), Shifts(b, n - 1));
      ShiftsBack(a, b, n - 1);
    }
  }

  lemma Shift8Back(a: Reg, b: Reg)
    requires Shift8(a) == Shift8(b)
    ensures a == b
  {
    hide *;
    EightShifts(a);
    EightShifts(b);
    ShiftsBack(a, b, 8);
  }

  // ------------------------------------------------------------ differences that fit in a few bytes

  /** The register has ones in its k lowest bytes only. */
  predicate Fits(a: Reg, k: nat) {
    FitsBits(a.bits, k)
  }

  predicate FitsBits(b: bv32, k: nat) {
    if k == 0 then InNone(b) else if k == 1 then InOne(b) else if k == 2 then InTwo(b) else if k == 3 then InThree(b) else true
  }

  predicate InNone(b: bv32) {
    b == 0
  }

  predicate InOne(b: bv32) {
    b & 0xffff_ff00 == 0
  }

  predicate InTwo(b: bv32) {
    b & 0xffff_0000 == 0
  }

  predicate InThree(b: bv32) {
    b & 0xff00_0000 == 0
  }

  function UpBits(v: bv32): bv32 {
    v << 8
  }

  function Up(v: Reg): Reg {
    Reg(UpBits(v.bits))
  }

  // With a zero at the end, a shift feeds nothing back.

  lemma Down8(v: bv32)
    requires InThree(v)
    ensures Shift(Reg(UpBits(v))) == Reg(v << 7)
  {
  }

  lemma Down7(v: bv32)
    requires InThree(v)
    ensures Shift(Reg(v << 7)) == Reg(v << 6)
  {
  }

  lemma Down6(v: bv32)
    requires InThree(v)
    ensures Shift(Reg(v << 6)) == Reg(v << 5)
  {
  }

  lemma Down5(v: bv32)
    requires InThree(v)
    ensures Shift(Reg(v << 5)) == Reg(v << 4)
  {
  }

  lemma Down4(v: bv32)
    requires InThree(v)
    ensures Shift(Reg(v << 4)) == Reg(v << 3)
  {
  }

  lemma Down3(v: bv32)
    requires InThree(v)
    ensures Shift(Reg(v << 3)) == Reg(v << 2)
  {
  }

  lemma Down2(v: bv32)
    requires InThree(v)
    ensures Shift(Reg(v << 2)) == Reg(v << 1)
  {
  }

  lemma Down1(v: bv32)
    requires InThree(v)
    ensures Shift(Reg(v << 1)) == Reg(v)
  {
  }

  lemma Eight(r8: Reg, r7: Reg, r6: Reg, r5: Reg, r4: Reg, r3: Reg, r2: Reg, r1: Reg, r0: Reg)
    requires Shift(r8) == r7 && Shift(r7) == r6 && Shift(r6) == r5 && Shift(r5) == r4
    requires Shift(r4) == r3 && Shift(r3) == r2 && Shift(r2) == r1 && Shift(r1) == r0
    ensures Shift8(r8) == r0
  {
    hide Shift;
  }

  lemma UpBitsAndBack(v: bv32)
    requires InThree(v)
    ensures Shift8(Reg(UpBits(v))) == Reg(v)
  {
    hide *;
    Down8(v);
    Down7(v);
    Down6(v);
    Down5(v);
    Down4(v);
    Down3(v);
    Down2(v);
    Down1(v);
    Eight(Reg(UpBits(v)), Reg(v << 7), Reg(v << 6), Reg(v << 5), Reg(v << 4), Reg(v << 3), Reg(v << 2), Reg(v << 1), Reg(v));
  }

  lemma UpOf(b: bv32)
    ensures Up(Reg(b)) == Reg(UpBits(b))
  {
    hide UpBits;
  }

  lemma FitsOf(b: bv32)
    requires Fits(Reg(b), 3)
    ensures InThree(b)
  {
    hide InThree;
  }

  lemma UpAndBackOf(b: bv32)
    requires Fits(Reg(b), 3)
    ensures Shift8(Up(Reg(b))) == Reg(b)
  {
    hide *;
    UpOf(b);
    FitsOf(b);
    UpBitsAndBack(b);
  }

  /** Eight shifts bring back what has been moved up by a byte. */
  lemma UpAndBack(v: Reg)
    requires Fits(v, 3)
    ensures Shift8(Up(v)) == v
  {
    hide *;
    UpAndBackOf(v.bits);
  }

  lemma UpNone(x: bv32)
    requires InNone(x)
    ensures InOne(UpBits(x)) && InThree(x)
  {
  }

  lemma UpOne(x: bv32)
    requires InOne(x)
    ensures InTwo(UpBits(x)) && InThree(x)
  {
  }

  lemma UpTwo(x: bv32)
    requires InTwo(x)
    ensures InThree(UpBits(x)) && InThree(x)
  {
  }

  lemma UpFitsOf(x: bv32, k: nat)
    requires k <= 3 && FitsBits(x, k)
    ensures FitsBits(UpBits(x), k + 1) && FitsBits(x, 3)
  {
    hide InNone, InOne, InTwo, InThree, UpBits;
    if k == 0 {
      UpNone(x);
    } else if k == 1 {
      UpOne(x);
    } else if k == 2 {
      UpTwo(x);
    }
  }

  lemma UpFits(v: Reg, k: nat)
    requires k <= 3 && Fits(v, k)
    ensures Fits(Up(v), k + 1) && Fits(v, 3)
  {
    hide FitsBits, Up, UpBits;
    UpOf(v.bits);
    UpFitsOf(v.bits, k);
  }

  lemma ByteFits(x: bv8, k: nat)
    requires k > 0
    ensures Fits(Byte(x), k)
  {
  }

  lemma XorOne(x: bv32, y: bv32)
    requires InOne(x) && InOne(y)
    ensures InOne(x ^ y)
  {
  }

  lemma XorTwo(x: bv32, y: bv32)
    requires InTwo(x) && InTwo(y)
    ensures InTwo(x ^ y)
  {
  }

  lemma XorThree(x: bv32, y: bv32)
    requires InThree(x) && InThree(y)
    ensures InThree(x ^ y)
  {
  }

  lemma XorNone(x: bv32, y: bv32)
    requires InNone(x) && InNone(y)
    ensures InNone(x ^ y)
  {
  }

  lemma XorFitsOf(x: bv32, y: bv32, k: nat)
    requires FitsBits(x, k) && FitsBits(y, k)
    ensures FitsBits(x ^ y, k)
  {
    hide InNone, InOne, InTwo, InThree;
    if k == 0 {
      XorNone(x, y);
    } else if k == 1 {
      XorOne(x, y);
    } else if k == 2 {
      XorTwo(x, y);
    } else if k == 3 {
      XorThree(x, y);
    }
  }

  lemma XorFits(a: Reg, b: Reg, k: nat)
    requires Fits(a, k) && Fits(b, k)
    ensures Fits(Xor(a, b), k)
  {
    hide FitsBits, Xor;
    XorOf(a.bits, b.bits);
    XorFitsOf(a.bits, b.bits, k);
  }

  lemma XorNothing(a: Reg, b: Reg)
    ensures Xor(a, b) == Reg(0) <==> a == b
    ensures Fits(Reg(0), 0)
  {
  }

  /** Nothing is both a byte and moved up by a byte. */
  lemma ByteAndUp(a: Reg, v: Reg)
    requires Fits(a, 1) && Fits(v, 3) && a == Up(v)
    ensures a == Reg(0) && v == Reg(0)
  {
  }

  lemma SameByte(x: bv8, y: bv8)
    requires Byte(x) == Byte(y)
    ensures x == y
  {
  }

  lemma XorMoved(a: Reg, b: Reg, c: Reg)
    requires Xor(a, b) == c
    ensures a == Xor(b, c)
  {
  }

  // ------------------------------------------------------------ one byte, and up to four

  /** If the registers after a byte differ in few bytes, this is how they and the bytes differed before. */
  lemma BeforeByte(r: Reg, s: Reg, x: bv8, y: bv8)
    requires Fits(Xor(TakeBits(r, Byte(x), 8), TakeBits(s, Byte(y), 8)), 3)
    ensures Xor(Xor(r, s), Xor(Byte(x), Byte(y))) == Up(Xor(TakeBits(r, Byte(x), 8), TakeBits(s, Byte(y), 8)))
  {
    hide *;
    var v := Xor(TakeBits(r, Byte(x), 8), TakeBits(s, Byte(y), 8));
    ByteShifts(r, x);
    ByteShifts(s, y);
    Shift8Linear(Xor(r, Byte(x)), Xor(s, Byte(y)));
    UpAndBack(v);
    Shift8Back(Xor(Xor(r, Byte(x)), Xor(s, Byte(y))), Up(v));
    XorRegroup(r, Byte(x), s, Byte(y));
  }

  /** If k bytes, at most four, make two registers equal, they differed in k bytes only. */
  lemma {:induction false} BeforeBurst(r: Reg, s: Reg, x: seq<bv8>, y: seq<bv8>)
    requires |x| == |y| <= 4 && BitCrc(r, x) == BitCrc(s, y)
    ensures Fits(Xor(r, s), |x|)
    decreases |x|
  {
    hide TakeBits, Xor, Byte, Fits, Up;
    if x == [] {
      XorNothing(r, s);
    } else {
      var r', s' := TakeBits(r, Byte(x[0]), 8), TakeBits(s, Byte(y[0]), 8);
      var v := Xor(r', s');
      BeforeBurst(r', s', x[1..], y[1..]);
      UpFits(v, |x| - 1);
      BeforeByte(r, s, x[0], y[0]);
      ByteFits(x[0], |x|);
      ByteFits(y[0], |x|);
      XorFits(Byte(x[0]), Byte(y[0]), |x|);
      XorMoved(Xor(r, s), Xor(Byte(x[0]), Byte(y[0])), Up(v));
      XorFits(Xor(Byte(x[0]), Byte(y[0])), Up(v), |x|);
    }
  }

  /** From one register, different bytes, at most four, lead to different registers. */
  lemma {:induction false} BurstShows(r: Reg, x: seq<bv8>, y: seq<bv8>)
    requires |x| == |y| <= 4 && BitCrc(r, x) == BitCrc(r, y)
    ensures x == y
    decreases |x|
  {
    hide TakeBits, Xor, Byte, Fits, Up;
    if x != [] {
      var r', s' := TakeBits(r, Byte(x[0]), 8), TakeBits(r, Byte(y[0]), 8);
      var v := Xor(r', s');
      BeforeBurst(r', s', x[1..], y[1..]);
      UpFits(v, |x| - 1);
      BeforeByte(r, r, x[0], y[0]);
      OnlyBytes(r, x[0], y[0], v);
      BurstShows(r', x[1..], y[1..]);
      assert x == [x[0]] + x[1..] && y == [y[0]] + y[1..];
    }
  }

  lemma OnlyBytes(r: Reg, x: bv8, y: bv8, v: Reg)
    requires Xor(Xor(r, r), Xor(Byte(x), Byte(y))) == Up(v) && Fits(v, 3)
    ensures x == y && v == Reg(0)
  {
    hide *;
    XorNothing(r, r);
    XorZeroLeft(Xor(Byte(x), Byte(y)));
    ByteFits(x, 1);
    ByteFits(y, 1);
    XorFits(Byte(x), Byte(y), 1);
    ByteAndUp(Xor(Byte(x), Byte(y)), v);
    XorNothing(Byte(x), Byte(y));
    SameByte(x, y);
  }

  lemma XorZeroLeft(a: Reg)
    ensures Xor(Reg(0), a) == a
  {
  }

  // ------------------------------------------------------------ in a message

  lemma {:induction false} Onwards(r: Reg, a: seq<bv8>, b: seq<bv8>)
    ensures BitCrc(r, a + b) == BitCrc(BitCrc(r, a), b)
    decreases |a|
  {
    hide TakeBits, Byte;
    if a == [] {
      assert a + b == b;
    } else {
      assert (a + b)[1..] == a[1..] + b;
      Onwards(TakeBits(r, Byte(a[0]), 8), a[1..], b);
    }
  }

  lemma {:induction false} SameEnd(r: Reg, s: Reg, c: seq<bv8>)
    requires BitCrc(r, c) == BitCrc(s, c)
    ensures r == s
    decreases |c|
  {
    hide TakeBits, Byte, Shift8, Xor;
    if c != [] {
      SameEnd(TakeBits(r, Byte(c[0]), 8), TakeBits(s, Byte(c[0]), 8), c[1..]);
      ByteShifts(r, c[0]);
      ByteShifts(s, c[0]);
      Shift8Back(Xor(r, Byte(c[0])), Xor(s, Byte(c[0])));
      XorCancel(r, s, Byte(c[0]));
    }
  }

  lemma XorCancel(a: Reg, b: Reg, c: Reg)
    requires Xor(a, c) == Xor(b, c)
    ensures a == b
  {
  }

  lemma SameBits(a: Reg, b: Reg)
    requires Inverse(a) == Inverse(b)
    ensures a == b
  {
  }

  lemma SameRegister(m: seq<bv8>, n: seq<bv8>)
    requires Crc(m) == Crc(n)
    ensures BitCrc(Ones(), m) == BitCrc(Ones(), n)
  {
    hide BitCrc, Inverse;
    SameBits(BitCrc(Ones(), m), BitCrc(Ones(), n));
  }

  function Ones(): Reg {
    Reg(0xffff_ffff)
  }

  /** Wherever up to four bytes in a row are changed, and whatever surrounds them, the checksum changes. */
  lemma BurstDetected(a: seq<bv8>, x: seq<bv8>, y: seq<bv8>, c: seq<bv8>)
    requires |x| == |y| <= 4 && x != y
    ensures Crc(a + x + c) != Crc(a + y + c)
  {
    hide *;
    if Crc(a + x + c) == Crc(a + y + c) {
      var r := Ones();
      SameRegister(a + x + c, a + y + c);
      Onwards(r, a + x, c);
      Onwards(r, a + y, c);
      SameEnd(BitCrc(r, a + x), BitCrc(r, a + y), c);
      Onwards(r, a, x);
      Onwards(r, a, y);
      BurstShows(BitCrc(r, a), x, y);
    }
  }
}
