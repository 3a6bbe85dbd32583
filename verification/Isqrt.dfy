/**
  The bit-pair square root usqrt of wolfbench/Benchmarks/basicmath/isqrt.c, on 64-bit longs of
  which it looks at the low 32 bits.
*/
module Isqrt {
  const BITSPERLONG: nat := 32
  const WORD: nat := 0x1_0000_0000
  const LONG: nat := 0x1_0000_0000_0000_0000

  function Pow4(n: nat): (p: nat)
    ensures p > 0
  {
    if n == 0 then 1 else 4 * Pow4(n - 1)
  }

  /** The two bits that TOP2BITS selects: bits 31 and 30. */
  function Top2Bits(x: nat): nat {
    x % WORD / 0x4000_0000
  }

  lemma SameLow(m: nat, k: nat)
    ensures (m + k * 0x1_0000_0000) % 0x1_0000_0000 == m % 0x1_0000_0000
  {
  }

  /** The low word after a shift by two, as the low word alone determines it. */
  lemma LowShift(x: nat)
    ensures (x * 4 % LONG) % WORD == x % WORD % 0x4000_0000 * 4
  {
    var m, q := x * 4 % 0x1_0000_0000_0000_0000, x * 4 / 0x1_0000_0000_0000_0000;
    SameLow(m, q * 0x1_0000_0000);
    var low, h := x % 0x1_0000_0000, x / 0x1_0000_0000;
    SameLow(low * 4, h * 4);
    var l, t := low % 0x4000_0000, low / 0x4000_0000;
    SameLow(l * 4, t);
  }

  /** Shifting two bits out at the top of the low word appends them to the prefix read so far. */
  lemma ShiftPair(x: nat, x0: nat, i: nat, prefix: nat)
    requires x % WORD == x0 * Pow4(i) - prefix * WORD
    ensures (x * 4 % LONG) % WORD == x0 * Pow4(i + 1) - (4 * prefix + Top2Bits(x)) * WORD
    ensures Top2Bits(x) < 4
  {
    LowShift(x);
    var low, y := x % WORD, x0 * Pow4(i);
    assert x0 * Pow4(i + 1) == 4 * y by { assert x0 * (4 * Pow4(i)) == 4 * (x0 * Pow4(i)); }
    assert low == low / 0x4000_0000 * 0x4000_0000 + low % 0x4000_0000;
  }

  /** One digit: the root and the remainder of the longer prefix. */
  lemma Digit(a: nat, r: nat, t: nat, prefix: nat)
    requires r == prefix - a * a && r <= 2 * a && t < 4
    ensures var r', a' := 4 * r + t, 2 * a; var e := 4 * a + 1;
      if r' >= e then r' - e == 4 * prefix + t - (a' + 1) * (a' + 1) && r' - e <= 2 * (a' + 1)
      else r' == 4 * prefix + t - a' * a' && r' <= 2 * a'
  {
    assert (2 * a) * (2 * a) == 4 * (a * a);
    assert (2 * a + 1) * (2 * a + 1) == 4 * (a * a) + 4 * a + 1;
  }

  lemma Pow4Sixteen()
    ensures Pow4(16) == WORD && Pow4(32) == LONG
  {
    assert Pow4(4) == 256;
    assert Pow4(8) == 65536 by { assert Pow4(6) == 4096; }
    assert Pow4(12) == 16777216 by { assert Pow4(10) == 1048576; }
    assert Pow4(16) == WORD by { assert Pow4(14) == 268435456; }
    assert Pow4(20) == WORD * 256 by { assert Pow4(18) == WORD * 16; }
    assert Pow4(24) == WORD * 65536 by { assert Pow4(22) == WORD * 4096; }
    assert Pow4(28) == WORD * 16777216 by { assert Pow4(26) == WORD * 1048576; }
    assert Pow4(32) == LONG by { assert Pow4(30) == WORD * 268435456; }
  }

  lemma {:induction false} Pow4Monotone(i: nat, j: nat)
    requires i <= j
    ensures Pow4(i) <= Pow4(j)
    decreases j
  {
    if i < j {
      Pow4Monotone(i, j - 1);
    }
  }

  lemma Scale(a: nat, b: nat, c: nat)
    requires a <= b
    ensures a * c <= b * c
  {
  }

  lemma BelowWord(a: nat)
    requires a * a < LONG
    ensures a < WORD
  {
    Scale(if a < WORD then 0 else WORD, a, WORD);
    Scale(if a < WORD then 0 else WORD, a, a);
  }

  /** Roots of prefixes stay below 32 bits, and remainders and trial products far below 64. */
  lemma Small(a: nat, prefix: nat, low: int, x: nat, i: nat)
    requires i <= 32 && x < WORD && 0 <= low == x * Pow4(i) - prefix * WORD && a * a <= prefix
    ensures a < WORD
  {
    var p := Pow4(i);
    Pow4Sixteen();
    Pow4Monotone(i, 32);
    hide Pow4;
    Scale(x, 0xffff_ffff, p);
    assert prefix * 0x1_0000_0000 <= 0xffff_ffff * p;
    assert prefix < p;
    BelowWord(a);
  }

  lemma AllRead(x: nat, prefix: nat, low: nat)
    requires low == x * LONG - prefix * WORD && low < WORD
    ensures prefix == x * WORD
  {
    var d := x * 0x1_0000_0000 - prefix;
    assert low == d * 0x1_0000_0000;
  }

  /** Where the loop stands after i digits: y is the low word, prefix the bits of y read so far. */
  ghost predicate Inv(y: nat, i: nat, x: nat, prefix: nat, a: nat, r: nat) {
    i <= 32 && y < WORD && x % WORD == y * Pow4(i) - prefix * WORD && r == prefix - a * a && r <= 2 * a && a < WORD
  }

  lemma Start(x0: nat)
    ensures Inv(x0 % WORD, 0, x0, 0, 0, 0)
  {
  }

  /** What one turn computes, before the comparison with the trial product. */
  lemma Turn(y: nat, i: nat, x: nat, prefix: nat, a: nat, r: nat, r': nat, a': nat)
    requires Inv(y, i, x, prefix, a, r) && i < 32 && r' == 4 * r + Top2Bits(x) && a' == 2 * a
    ensures 4 * a + 1 < LONG && r' < LONG
    ensures var p := 4 * prefix + Top2Bits(x); var x' := x * 4 % LONG; var e := 4 * a + 1;
      if r' >= e then Inv(y, i + 1, x', p, a' + 1, r' - e) else Inv(y, i + 1, x', p, a', r')
  {
    ShiftPair(x, y, i, prefix);
    Digit(a, r, Top2Bits(x), prefix);
    var p, x', e := 4 * prefix + Top2Bits(x), x * 4 % LONG, 4 * a + 1;
    hide Pow4, Top2Bits;
    Small(if r' >= e then a' + 1 else a', p, x' % WORD, y, i + 1);
  }

  lemma End(y: nat, x: nat, prefix: nat, a: nat, r: nat)
    requires Inv(y, 32, x, prefix, a, r)
    ensures a * a <= y * WORD < (a + 1) * (a + 1) && a < WORD && a % WORD == a && a / WORD == 0
  {
    Pow4Sixteen();
    AllRead(y, prefix, x % WORD);
    assert (a + 1) * (a + 1) == a * a + 2 * a + 1;
  }

  lemma Fits(y: nat, i: nat, x: nat, prefix: nat, a: nat, r: nat)
    requires Inv(y, i, x, prefix, a, r)
    ensures r * 4 % LONG == r * 4 && a * 2 % LONG == a * 2 && (a * 2) * 2 % LONG == 4 * a
  {
  }

  /**
    The root of the low word with 16 bits after the binary point; no intermediate value is cut off.
    A 64-bit root copied over the result leaves the second field of the structure zero.
  */
  method Usqrt(x0: nat) returns (sqrt: nat, frac: nat)
    requires x0 < LONG
    ensures var y := x0 % WORD; sqrt * sqrt <= y * WORD < (sqrt + 1) * (sqrt + 1)
    ensures sqrt < WORD && frac == 0
  {
    hide Inv, Pow4, Top2Bits;
    var x: nat, a: nat, r: nat, e: nat := x0, 0, 0, 0;
    ghost var prefix: nat, y: nat := 0, x0 % WORD;
    Start(x0);
    var i := 0;
    while i < BITSPERLONG
      invariant 0 <= i <= BITSPERLONG && Inv(y, i, x, prefix, a, r)
    {
      Fits(y, i, x, prefix, a, r);
      Turn(y, i, x, prefix, a, r, 4 * r + Top2Bits(x), 2 * a);
      prefix := 4 * prefix + Top2Bits(x);
      r := r * 4 % LONG + Top2Bits(x);
      x := x * 4 % LONG;
      a := a * 2 % LONG;
      e := a * 2 % LONG + 1;
      if r >= e {
        r := r - e;
        a := a + 1;
      }
      i := i + 1;
    }
    End(y, x, prefix, a, r);
    sqrt, frac := a % WORD, a / WORD;
  }
}
