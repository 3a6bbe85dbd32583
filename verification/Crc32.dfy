/**
  The table-driven CRC of wolfbench/Benchmarks/CRC32/crc_32.c against the register that takes one
  bit at a time (section 8 of RFC 1952).
*/
module Crc32 {
  const POLYNOMIAL: bv32 := 0xedb88320

  /** The 32-bit register. */
  datatype Reg = Reg(bits: bv32)

  function Xor(a: Reg, b: Reg): Reg {
    Reg(a.bits ^ b.bits)
  }

  function ShiftBits(r: bv32): bv32 {
    (r >> 1) ^ if r & 1 == 1 then POLYNOMIAL else 0
  }

  /** One shift of the register. */
  function Shift(r: Reg): Reg {
    Reg(ShiftBits(r.bits))
  }

  function Shift8(r: Reg): Reg {
    Shift(Shift(Shift(Shift(Shift(Shift(Shift(Shift(r))))))))
  }

  // crc_32_tab, sixteen entries at a time

  function Entries0(j: bv8): bv32 {
    match j
    case 0 => 0x00000000
    case 1 => 0x77073096
    case 2 => 0xee0e612c
    case 3 => 0x990951ba
    case 4 => 0x076dc419
    case 5 => 0x706af48f
    case 6 => 0xe963a535
    case 7 => 0x9e6495a3
    case 8 => 0x0edb8832
    case 9 => 0x79dcb8a4
    case 10 => 0xe0d5e91e
    case 11 => 0x97d2d988
    case 12 => 0x09b64c2b
    case 13 => 0x7eb17cbd
    case 14 => 0xe7b82d07
    case _ => 0x90bf1d91
  }

  function Entries1(j: bv8): bv32 {
    match j
    case 0 => 0x1db71064
    case 1 => 0x6ab020f2
    case 2 => 0xf3b97148
    case 3 => 0x84be41de
    case 4 => 0x1adad47d
    case 5 => 0x6ddde4eb
    case 6 => 0xf4d4b551
    case 7 => 0x83d385c7
    case 8 => 0x136c9856
    case 9 => 0x646ba8c0
    case 10 => 0xfd62f97a
    case 11 => 0x8a65c9ec
    case 12 => 0x14015c4f
    case 13 => 0x63066cd9
    case 14 => 0xfa0f3d63
    case _ => 0x8d080df5
  }

  function Entries2(j: bv8): bv32 {
    match j
    case 0 => 0x3b6e20c8
    case 1 => 0x4c69105e
    case 2 => 0xd56041e4
    case 3 => 0xa2677172
    case 4 => 0x3c03e4d1
    case 5 => 0x4b04d447
    case 6 => 0xd20d85fd
    case 7 => 0xa50ab56b
    case 8 => 0x35b5a8fa
    case 9 => 0x42b2986c
    case 10 => 0xdbbbc9d6
    case 11 => 0xacbcf940
    case 12 => 0x32d86ce3
    case 13 => 0x45df5c75
    case 14 => 0xdcd60dcf
    case _ => 0xabd13d59
  }

  function Entries3(j: bv8): bv32 {
    match j
    case 0 => 0x26d930ac
    case 1 => 0x51de003a
    case 2 => 0xc8d75180
    case 3 => 0xbfd06116
    case 4 => 0x21b4f4b5
    case 5 => 0x56b3c423
    case 6 => 0xcfba9599
    case 7 => 0xb8bda50f
    case 8 => 0x2802b89e
    case 9 => 0x5f058808
    case 10 => 0xc60cd9b2
    case 11 => 0xb10be924
    case 12 => 0x2f6f7c87
    case 13 => 0x58684c11
    case 14 => 0xc1611dab
    case _ => 0xb6662d3d
  }

  function Entries4(j: bv8): bv32 {
    match j
    case 0 => 0x76dc4190
    case 1 => 0x01db7106
    case 2 => 0x98d220bc
    case 3 => 0xefd5102a
    case 4 => 0x71b18589
    case 5 => 0x06b6b51f
    case 6 => 0x9fbfe4a5
    case 7 => 0xe8b8d433
    case 8 => 0x7807c9a2
    case 9 => 0x0f00f934
    case 10 => 0x9609a88e
    case 11 => 0xe10e9818
    case 12 => 0x7f6a0dbb
    case 13 => 0x086d3d2d
    case 14 => 0x91646c97
    case _ => 0xe6635c01
  }

  function Entries5(j: bv8): bv32 {
    match j
    case 0 => 0x6b6b51f4
    case 1 => 0x1c6c6162
    case 2 => 0x856530d8
    case 3 => 0xf262004e
    case 4 => 0x6c0695ed
    case 5 => 0x1b01a57b
    case 6 => 0x8208f4c1
    case 7 => 0xf50fc457
    case 8 => 0x65b0d9c6
    case 9 => 0x12b7e950
    case 10 => 0x8bbeb8ea
    case 11 => 0xfcb9887c
    case 12 => 0x62dd1ddf
    case 13 => 0x15da2d49
    case 14 => 0x8cd37cf3
    case _ => 0xfbd44c65
  }

  function Entries6(j: bv8): bv32 {
    match j
    case 0 => 0x4db26158
    case 1 => 0x3ab551ce
    case 2 => 0xa3bc0074
    case 3 => 0xd4bb30e2
    case 4 => 0x4adfa541
    case 5 => 0x3dd895d7
    case 6 => 0xa4d1c46d
    case 7 => 0xd3d6f4fb
    case 8 => 0x4369e96a
    case 9 => 0x346ed9fc
    case 10 => 0xad678846
    case 11 => 0xda60b8d0
    case 12 => 0x44042d73
    case 13 => 0x33031de5
    case 14 => 0xaa0a4c5f
    case _ => 0xdd0d7cc9
  }

  function Entries7(j: bv8): bv32 {
    match j
    case 0 => 0x5005713c
    case 1 => 0x270241aa
    case 2 => 0xbe0b1010
    case 3 => 0xc90c2086
    case 4 => 0x5768b525
    case 5 => 0x206f85b3
    case 6 => 0xb966d409
    case 7 => 0xce61e49f
    case 8 => 0x5edef90e
    case 9 => 0x29d9c998
    case 10 => 0xb0d09822
    case 11 => 0xc7d7a8b4
    case 12 => 0x59b33d17
    case 13 => 0x2eb40d81
    case 14 => 0xb7bd5c3b
    case _ => 0xc0ba6cad
  }

  function Entries8(j: bv8): bv32 {
    match j
    case 0 => 0xedb88320
    case 1 => 0x9abfb3b6
    case 2 => 0x03b6e20c
    case 3 => 0x74b1d29a
    case 4 => 0xead54739
    case 5 => 0x9dd277af
    case 6 => 0x04db2615
    case 7 => 0x73dc1683
    case 8 => 0xe3630b12
    case 9 => 0x94643b84
    case 10 => 0x0d6d6a3e
    case 11 => 0x7a6a5aa8
    case 12 => 0xe40ecf0b
    case 13 => 0x9309ff9d
    case 14 => 0x0a00ae27
    case _ => 0x7d079eb1
  }

  function Entries9(j: bv8): bv32 {
    match j
    case 0 => 0xf00f9344
    case 1 => 0x8708a3d2
    case 2 => 0x1e01f268
    case 3 => 0x6906c2fe
    case 4 => 0xf762575d
    case 5 => 0x806567cb
    case 6 => 0x196c3671
    case 7 => 0x6e6b06e7
    case 8 => 0xfed41b76
    case 9 => 0x89d32be0
    case 10 => 0x10da7a5a
    case 11 => 0x67dd4acc
    case 12 => 0xf9b9df6f
    case 13 => 0x8ebeeff9
    case 14 => 0x17b7be43
    case _ => 0x60b08ed5
  }

  function Entries10(j: bv8): bv32 {
    match j
    case 0 => 0xd6d6a3e8
    case 1 => 0xa1d1937e
    case 2 => 0x38d8c2c4
    case 3 => 0x4fdff252
    case 4 => 0xd1bb67f1
    case 5 => 0xa6bc5767
    case 6 => 0x3fb506dd
    case 7 => 0x48b2364b
    case 8 => 0xd80d2bda
    case 9 => 0xaf0a1b4c
    case 10 => 0x36034af6
    case 11 => 0x41047a60
    case 12 => 0xdf60efc3
    case 13 => 0xa867df55
    case 14 => 0x316e8eef
    case _ => 0x4669be79
  }

  function Entries11(j: bv8): bv32 {
    match j
    case 0 => 0xcb61b38c
    case 1 => 0xbc66831a
    case 2 => 0x256fd2a0
    case 3 => 0x5268e236
    case 4 => 0xcc0c7795
    case 5 => 0xbb0b4703
    case 6 => 0x220216b9
    case 7 => 0x5505262f
    case 8 => 0xc5ba3bbe
    case 9 => 0xb2bd0b28
    case 10 => 0x2bb45a92
    case 11 => 0x5cb36a04
    case 12 => 0xc2d7ffa7
    case 13 => 0xb5d0cf31
    case 14 => 0x2cd99e8b
    case _ => 0x5bdeae1d
  }

  function Entries12(j: bv8): bv32 {
    match j
    case 0 => 0x9b64c2b0
    case 1 => 0xec63f226
    case 2 => 0x756aa39c
    case 3 => 0x026d930a
    case 4 => 0x9c0906a9
    case 5 => 0xeb0e363f
    case 6 => 0x72076785
    case 7 => 0x05005713
    case 8 => 0x95bf4a82
    case 9 => 0xe2b87a14
    case 10 => 0x7bb12bae
    case 11 => 0x0cb61b38
    case 12 => 0x92d28e9b
    case 13 => 0xe5d5be0d
    case 14 => 0x7cdcefb7
    case _ => 0x0bdbdf21
  }

  function Entries13(j: bv8): bv32 {
    match j
    case 0 => 0x86d3d2d4
    case 1 => 0xf1d4e242
    case 2 => 0x68ddb3f8
    case 3 => 0x1fda836e
    case 4 => 0x81be16cd
    case 5 => 0xf6b9265b
    case 6 => 0x6fb077e1
    case 7 => 0x18b74777
    case 8 => 0x88085ae6
    case 9 => 0xff0f6a70
    case 10 => 0x66063bca
    case 11 => 0x11010b5c
    case 12 => 0x8f659eff
    case 13 => 0xf862ae69
    case 14 => 0x616bffd3
    case _ => 0x166ccf45
  }

  function Entries14(j: bv8): bv32 {
    match j
    case 0 => 0xa00ae278
    case 1 => 0xd70dd2ee
    case 2 => 0x4e048354
    case 3 => 0x3903b3c2
    case 4 => 0xa7672661
    case 5 => 0xd06016f7
    case 6 => 0x4969474d
    case 7 => 0x3e6e77db
    case 8 => 0xaed16a4a
    case 9 => 0xd9d65adc
    case 10 => 0x40df0b66
    case 11 => 0x37d83bf0
    case 12 => 0xa9bcae53
    case 13 => 0xdebb9ec5
    case 14 => 0x47b2cf7f
    case _ => 0x30b5ffe9
  }

  function Entries15(j: bv8): bv32 {
    match j
    case 0 => 0xbdbdf21c
    case 1 => 0xcabac28a
    case 2 => 0x53b39330
    case 3 => 0x24b4a3a6
    case 4 => 0xbad03605
    case 5 => 0xcdd70693
    case 6 => 0x54de5729
    case 7 => 0x23d967bf
    case 8 => 0xb3667a2e
    case 9 => 0xc4614ab8
    case 10 => 0x5d681b02
    case 11 => 0x2a6f2b94
    case 12 => 0xb40bbe37
    case 13 => 0xc30c8ea1
    case 14 => 0x5a05df1b
    case _ => 0x2d02ef8d
  }

  function Table(i: bv8): bv32 {
    match i >> 4
    case 0 => Entries0(i & 15)
    case 1 => Entries1(i & 15)
    case 2 => Entries2(i & 15)
    case 3 => Entries3(i & 15)
    case 4 => Entries4(i & 15)
    case 5 => Entries5(i & 15)
    case 6 => Entries6(i & 15)
    case 7 => Entries7(i & 15)
    case 8 => Entries8(i & 15)
    case 9 => Entries9(i & 15)
    case 10 => Entries10(i & 15)
    case 11 => Entries11(i & 15)
    case 12 => Entries12(i & 15)
    case 13 => Entries13(i & 15)
    case 14 => Entries14(i & 15)
    case _ => Entries15(i & 15)
  }

  lemma Sixteenth0(i: bv8)
    requires i >> 4 == 0
    ensures Reg(Entries0(i & 15)) == Shift8(Reg(i as bv32))
  {
  }

  lemma Sixteenth1(i: bv8)
    requires i >> 4 == 1
    ensures Reg(Entries1(i & 15)) == Shift8(Reg(i as bv32))
  {
  }

  lemma Sixteenth2(i: bv8)
    requires i >> 4 == 2
    ensures Reg(Entries2(i & 15)) == Shift8(Reg(i as bv32))
  {
  }

  lemma Sixteenth3(i: bv8)
    requires i >> 4 == 3
    ensures Reg(Entries3(i & 15)) == Shift8(Reg(i as bv32))
  {
  }

  lemma Sixteenth4(i: bv8)
    requires i >> 4 == 4
    ensures Reg(Entries4(i & 15)) == Shift8(Reg(i as bv32))
  {
  }

  lemma Sixteenth5(i: bv8)
    requires i >> 4 == 5
    ensures Reg(Entries5(i & 15)) == Shift8(Reg(i as bv32))
  {
  }

  lemma Sixteenth6(i: bv8)
    requires i >> 4 == 6
    ensures Reg(Entries6(i & 15)) == Shift8(Reg(i as bv32))
  {
  }

  lemma Sixteenth7(i: bv8)
    requires i >> 4 == 7
    ensures Reg(Entries7(i & 15)) == Shift8(Reg(i as bv32))
  {
  }

  lemma Sixteenth8(i: bv8)
    requires i >> 4 == 8
    ensures Reg(Entries8(i & 15)) == Shift8(Reg(i as bv32))
  {
  }

  lemma Sixteenth9(i: bv8)
    requires i >> 4 == 9
    ensures Reg(Entries9(i & 15)) == Shift8(Reg(i as bv32))
  {
  }

  lemma Sixteenth10(i: bv8)
    requires i >> 4 == 10
    ensures Reg(Entries10(i & 15)) == Shift8(Reg(i as bv32))
  {
  }

  lemma Sixteenth11(i: bv8)
    requires i >> 4 == 11
    ensures Reg(Entries11(i & 15)) == Shift8(Reg(i as bv32))
  {
  }

  lemma Sixteenth12(i: bv8)
    requires i >> 4 == 12
    ensures Reg(Entries12(i & 15)) == Shift8(Reg(i as bv32))
  {
  }

  lemma Sixteenth13(i: bv8)
    requires i >> 4 == 13
    ensures Reg(Entries13(i & 15)) == Shift8(Reg(i as bv32))
  {
  }

  lemma Sixteenth14(i: bv8)
    requires i >> 4 == 14
    ensures Reg(Entries14(i & 15)) == Shift8(Reg(i as bv32))
  {
  }

  lemma Sixteenth15(i: bv8)
    requires i >> 4 == 15
    ensures Reg(Entries15(i & 15)) == Shift8(Reg(i as bv32))
  {
  }

  lemma Sixteenths(i: bv8)
    ensures i >> 4 == 0 || i >> 4 == 1 || i >> 4 == 2 || i >> 4 == 3 || i >> 4 == 4 || i >> 4 == 5 || i >> 4 == 6 || i >> 4 == 7 || i >> 4 == 8 || i >> 4 == 9 || i >> 4 == 10 || i >> 4 == 11 || i >> 4 == 12 || i >> 4 == 13 || i >> 4 == 14 || i >> 4 == 15
  {
  }

  /** Every entry is eight shifts of its index. */
  lemma TableIsShifts(i: bv8)
    ensures Reg(Table(i)) == Shift8(Reg(i as bv32))
  {
    hide Shift8, Entries0, Entries1, Entries2, Entries3, Entries4, Entries5, Entries6, Entries7, Entries8, Entries9, Entries10, Entries11, Entries12, Entries13, Entries14, Entries15;
    Sixteenths(i);
    if i >> 4 == 0 {
      Sixteenth0(i);
    } else if i >> 4 == 1 {
      Sixteenth1(i);
    } else if i >> 4 == 2 {
      Sixteenth2(i);
    } else if i >> 4 == 3 {
      Sixteenth3(i);
    } else if i >> 4 == 4 {
      Sixteenth4(i);
    } else if i >> 4 == 5 {
      Sixteenth5(i);
    } else if i >> 4 == 6 {
      Sixteenth6(i);
    } else if i >> 4 == 7 {
      Sixteenth7(i);
    } else if i >> 4 == 8 {
      Sixteenth8(i);
    } else if i >> 4 == 9 {
      Sixteenth9(i);
    } else if i >> 4 == 10 {
      Sixteenth10(i);
    } else if i >> 4 == 11 {
      Sixteenth11(i);
    } else if i >> 4 == 12 {
      Sixteenth12(i);
    } else if i >> 4 == 13 {
      Sixteenth13(i);
    } else if i >> 4 == 14 {
      Sixteenth14(i);
    } else if i >> 4 == 15 {
      Sixteenth15(i);
    }
  }

  // ---------------------------------------------------------------- linearity

  lemma XorRegroup(a: Reg, b: Reg, c: Reg, d: Reg)
    ensures Xor(Xor(a, b), Xor(c, d)) == Xor(Xor(a, c), Xor(b, d))
  {
  }

  lemma XorBits(a: bv32, b: bv32)
    ensures (a ^ b) & 1 == (a & 1) ^ (b & 1) && (a ^ b) >> 1 == (a >> 1) ^ (b >> 1)
    ensures a & 1 == 0 || a & 1 == 1
  {
  }

  lemma XorFour(a: bv32, b: bv32, c: bv32, d: bv32)
    ensures (a ^ b) ^ (c ^ d) == (a ^ c) ^ (b ^ d)
  {
  }

  lemma ShiftBitsLinear(x: bv32, y: bv32)
    ensures ShiftBits(x ^ y) == ShiftBits(x) ^ ShiftBits(y)
  {
    XorBits(x, y);
    XorBits(y, x);
    var p, q := if x & 1 == 1 then POLYNOMIAL else 0, if y & 1 == 1 then POLYNOMIAL else 0;
    assert (if (x ^ y) & 1 == 1 then POLYNOMIAL else 0) == p ^ q;
    XorFour(x >> 1, y >> 1, p, q);
  }

  lemma ShiftOf(x: bv32)
    ensures Shift(Reg(x)) == Reg(ShiftBits(x))
  {
  }

  lemma XorOf(x: bv32, y: bv32)
    ensures Xor(Reg(x), Reg(y)) == Reg(x ^ y)
  {
  }

  lemma ShiftLinearOf(x: bv32, y: bv32)
    ensures Shift(Xor(Reg(x), Reg(y))) == Xor(Shift(Reg(x)), Shift(Reg(y)))
  {
    hide Shift, Xor, ShiftBits;
    ShiftOf(x);
    ShiftOf(y);
    XorOf(x, y);
    ShiftOf(x ^ y);
    ShiftBitsLinear(x, y);
    XorOf(ShiftBits(x), ShiftBits(y));
  }

  /** Shifting is linear: the feedback of a sum is the sum of the feedbacks. */
  lemma ShiftLinear(a: Reg, b: Reg)
    ensures Shift(Xor(a, b)) == Xor(Shift(a), Shift(b))
  {
    hide Shift, Xor;
    ShiftLinearOf(a.bits, b.bits);
  }

  /** n shifts. */
  function Shifts(r: Reg, n: nat): Reg {
    if n == 0 then r else Shift(Shifts(r, n - 1))
  }

  lemma {:induction false} ShiftsLinear(a: Reg, b: Reg, n: nat)
    ensures Shifts(Xor(a, b), n) == Xor(Shifts(a, n), Shifts(b, n))
  {
    hide Shift, Xor;
    if n > 0 {
      ShiftsLinear(a, b, n - 1);
      ShiftLinear(Shifts(a, n - 1), Shifts(b, n - 1));
    }
  }

  lemma EightShifts(r: Reg)
    ensures Shifts(r, 8) == Shift8(r)
  {
    hide Shift;
    assert Shifts(r, 1) == Shift(r);
    assert Shifts(r, 3) == Shift(Shift(Shifts(r, 1)));
    assert Shifts(r, 5) == Shift(Shift(Shifts(r, 3)));
    assert Shifts(r, 7) == Shift(Shift(Shifts(r, 5)));
  }

  lemma Shift8Linear(a: Reg, b: Reg)
    ensures Shift8(Xor(a, b)) == Xor(Shift8(a), Shift8(b))
  {
    hide Shift, Shift8, Shifts, Xor;
    EightShifts(a);
    EightShifts(b);
    EightShifts(Xor(a, b));
    ShiftsLinear(a, b, 8);
  }

  // ------------------------------------------------------------ bit by bit

  function ShiftWith(r: bv32, bit: bool): bv32 {
    (r >> 1) ^ if (r & 1 == 1) != bit then POLYNOMIAL else 0
  }

  /** The register takes one bit of the message: it is compared with the bit shifted out. */
  function TakeBit(r: Reg, bit: bool): Reg {
    Reg(ShiftWith(r.bits, bit))
  }

  /** The register takes n bits of the byte, least significant first. */
  function TakeBits(r: Reg, byte: Reg, n: nat): Reg
    decreases n
  {
    if n == 0 then r else TakeBits(TakeBit(r, FirstBit(byte)), Drop(byte), n - 1)
  }

  predicate FirstBit(byte: Reg) {
    byte.bits & 1 == 1
  }

  /** The byte without its lowest bit. */
  function Drop(byte: Reg): Reg {
    Reg(byte.bits >> 1)
  }

  function Drops(byte: Reg, n: nat): Reg
    decreases n
  {
    if n == 0 then byte else Drops(Drop(byte), n - 1)
  }

  /** A byte of the message. */
  function Byte(b: bv8): Reg {
    Reg(b as bv32)
  }

  /** The register after a message. */
  function BitCrc(r: Reg, msg: seq<bv8>): Reg
    decreases |msg|
  {
    if msg == [] then r else BitCrc(TakeBits(r, Byte(msg[0]), 8), msg[1..])
  }

  lemma ShiftWithBit(r: bv32, byte: bv32)
    ensures ShiftWith(r, byte & 1 == 1) ^ (byte >> 1) == ShiftBits(r ^ byte)
  {
    XorBits(r, byte);
    XorBits(byte, r);
    var p := if (r ^ byte) & 1 == 1 then POLYNOMIAL else 0;
    assert p == if (r & 1 == 1) != (byte & 1 == 1) then POLYNOMIAL else 0;
    XorSwap(r >> 1, p, byte >> 1);
  }

  lemma TakeBitOf(r: bv32, bit: bool)
    ensures TakeBit(Reg(r), bit) == Reg(ShiftWith(r, bit))
  {
  }

  lemma OneBitOf(r: bv32, byte: bv32, bit: bool)
    requires ShiftWith(r, bit) ^ (byte >> 1) == ShiftBits(r ^ byte)
    ensures Xor(TakeBit(Reg(r), bit), Reg(byte >> 1)) == Shift(Xor(Reg(r), Reg(byte)))
  {
    hide Shift, ShiftBits, ShiftWith, Xor, TakeBit;
    TakeBitOf(r, bit);
    XorOf(ShiftWith(r, bit), byte >> 1);
    XorOf(r, byte);
    ShiftOf(r ^ byte);
  }

  lemma OneBitBits(r: Reg, byte: Reg)
    ensures ShiftWith(r.bits, FirstBit(byte)) ^ (byte.bits >> 1) == ShiftBits(r.bits ^ byte.bits)
  {
    hide ShiftWith, ShiftBits;
    ShiftWithBit(r.bits, byte.bits);
  }

  lemma OneBit(r: Reg, byte: Reg)
    ensures Xor(TakeBit(r, FirstBit(byte)), Drop(byte)) == Shift(Xor(r, byte))
  {
    hide Shift, Xor, TakeBit, ShiftWith, ShiftBits, FirstBit;
    OneBitBits(r, byte);
    OneBitOf(r.bits, byte.bits, FirstBit(byte));
  }

  lemma XorSwap(a: bv32, b: bv32, c: bv32)
    ensures (a ^ b) ^ c == (a ^ c) ^ b
  {
  }

  lemma {:induction false} ShiftFirst(r: Reg, n: nat)
    ensures Shifts(Shift(r), n) == Shifts(r, n + 1)
  {
    hide Shift;
    if n > 0 {
      ShiftFirst(r, n - 1);
    }
  }

  /** Taking bits one at a time is combining the byte first and shifting then. */
  lemma {:induction false} BitsThenShifts(r: Reg, byte: Reg, n: nat)
    ensures Xor(TakeBits(r, byte, n), Drops(byte, n)) == Shifts(Xor(r, byte), n)
    decreases n
  {
    hide Shift, TakeBit, Drop, Xor, FirstBit;
    if n > 0 {
      BitsThenShifts(TakeBit(r, FirstBit(byte)), Drop(byte), n - 1);
      OneBit(r, byte);
      ShiftFirst(Xor(r, byte), n - 1);
    }
  }

  lemma DropTwo(byte: Reg, n: nat)
    requires n >= 2
    ensures Drops(byte, n) == Drops(Drop(Drop(byte)), n - 2)
  {
    hide Drop;
  }

  lemma NothingLeft(byte: bv8)
    ensures Drops(Byte(byte), 8) == Reg(0)
  {
    var b := Byte(byte);
    var b2 := Drop(Drop(b));
    var b4 := Drop(Drop(b2));
    var b6 := Drop(Drop(b4));
    DropTwo(b, 8);
    DropTwo(b2, 6);
    DropTwo(b4, 4);
    DropTwo(b6, 2);
    assert Drops(Drop(Drop(b6)), 0) == Drop(Drop(b6));
    hide Drops;
  }

  lemma XorZero(r: Reg)
    ensures Xor(r, Reg(0)) == r
  {
  }

  lemma ByteShifts(r: Reg, byte: bv8)
    ensures TakeBits(r, Byte(byte), 8) == Shift8(Xor(r, Byte(byte)))
  {
    hide Shift, Shift8, Shifts, TakeBits, Drops, Xor, Byte;
    BitsThenShifts(r, Byte(byte), 8);
    NothingLeft(byte);
    EightShifts(Xor(r, Byte(byte)));
    XorZero(TakeBits(r, Byte(byte), 8));
  }

  // ------------------------------------------------------------- the program

  /** The macro UPDC32. */
  function Update(byte: bv8, crc: bv32): bv32 {
    Table(((crc ^ (byte as bv32)) & 0xff) as bv8) ^ (crc >> 8)
  }

  /** The low byte of the register and the rest. */
  function Low(r: Reg): Reg {
    Reg(r.bits & 0xff)
  }

  function High(r: Reg): Reg {
    Reg(r.bits & 0xffff_ff00)
  }

  /** A register with nothing in its low byte is only moved down by eight shifts. */
  lemma HighMoves(r: Reg)
    ensures Shift8(High(r)) == Reg(r.bits >> 8)
  {
  }

  lemma Split(r: Reg)
    ensures r == Xor(Low(r), High(r)) && Low(r) == Byte((r.bits & 0xff) as bv8)
  {
  }

  /** The table's index, and what is moved down. */
  function LowByte(r: Reg): bv8 {
    (r.bits & 0xff) as bv8
  }

  function Down(r: Reg): Reg {
    Reg(r.bits >> 8)
  }

  function TableReg(i: bv8): Reg {
    Reg(Table(i))
  }

  lemma Splits(r: Reg)
    ensures r == Xor(Low(r), High(r)) && Low(r) == Byte(LowByte(r)) && Shift8(High(r)) == Down(r)
  {
    Split(r);
    HighMoves(r);
    hide Shift8, Xor;
  }

  /** Eight shifts, by the table for the low byte. */
  lemma ByTable(r: Reg)
    ensures Shift8(r) == Xor(TableReg(LowByte(r)), Down(r))
  {
    Splits(r);
    TableRegIsShifts(LowByte(r));
    hide *;
    Shift8Linear(Low(r), High(r));
  }

  lemma TableRegIsShifts(i: bv8)
    ensures TableReg(i) == Shift8(Byte(i))
  {
    TableIsShifts(i);
    hide Shift8, Table;
  }

  /** The register combined with the byte: its index and the rest are those of the program. */
  lemma Combined(crc: bv32, byte: bv8)
    ensures LowByte(Xor(Reg(crc), Byte(byte))) == ((crc ^ (byte as bv32)) & 0xff) as bv8
    ensures Down(Xor(Reg(crc), Byte(byte))) == Reg(crc >> 8)
  {
  }

  lemma UpdateIs(byte: bv8, crc: bv32)
    ensures Reg(Update(byte, crc)) == Xor(TableReg(((crc ^ (byte as bv32)) & 0xff) as bv8), Reg(crc >> 8))
  {
    hide Table;
  }

  /** One table step is eight bit steps. */
  lemma UpdateIsBits(byte: bv8, crc: bv32)
    ensures Reg(Update(byte, crc)) == TakeBits(Reg(crc), Byte(byte), 8)
  {
    hide *;
    ByTable(Xor(Reg(crc), Byte(byte)));
    ByteShifts(Reg(crc), byte);
    Combined(crc, byte);
    UpdateIs(byte, crc);
  }

  function Inverse(r: Reg): bv32 {
    !r.bits
  }

  function Crc(msg: seq<bv8>): bv32 {
    Inverse(BitCrc(Reg(0xffff_ffff), msg))
  }

  lemma {:induction false} BitCrcLast(r: Reg, msg: seq<bv8>, byte: bv8)
    ensures BitCrc(r, msg + [byte]) == TakeBits(BitCrc(r, msg), Byte(byte), 8)
    decreases |msg|
  {
    hide TakeBits, Byte;
    if msg == [] {
      assert (msg + [byte])[1..] == [] && (msg + [byte])[0] == byte;
      assert BitCrc(TakeBits(r, Byte(byte), 8), []) == TakeBits(r, Byte(byte), 8);
    } else {
      assert (msg + [byte])[1..] == msg[1..] + [byte];
      BitCrcLast(TakeBits(r, Byte(msg[0]), 8), msg[1..], byte);
    }
  }

  lemma Inverted(r: bv32)
    ensures !(r as bv64) == 0xffff_ffff_0000_0000 | ((!r) as bv64)
  {
  }

  /**
    crc32buf. The register is a long of 64 bits, of which the inversion at the end sets the upper
    half; the lower half is the CRC of the message.
  */
  method Crc32Buf(buf: array<bv8>, len: nat) returns (crc: bv64)
    requires len <= buf.Length
    ensures crc == 0xffff_ffff_0000_0000 | (Crc(buf[..len]) as bv64)
  {
    hide TakeBits, Byte, Update, BitCrc;
    var oldcrc32: bv32 := 0xffff_ffff;
    NoBytes(buf[..0]);
    var i := 0;
    while i < len
      invariant 0 <= i <= len && Reg(oldcrc32) == BitCrc(Reg(0xffff_ffff), buf[..i])
    {
      BitCrcLast(Reg(0xffff_ffff), buf[..i], buf[i]);
      UpdateIsBits(buf[i], oldcrc32);
      assert buf[..i + 1] == buf[..i] + [buf[i]];
      oldcrc32 := Update(buf[i], oldcrc32);
      i := i + 1;
    }
    crc := !(oldcrc32 as bv64);
    Inverted(oldcrc32);
  }

  lemma NoBytes(msg: seq<bv8>)
    requires msg == []
    ensures BitCrc(Reg(0xffff_ffff), msg) == Reg(0xffff_ffff)
  {
  }

  // -------------------------------------------------------- messages combine

  function XorAll(a: seq<bv8>, b: seq<bv8>): (r: seq<bv8>)
    requires |a| == |b|
    ensures |r| == |a|
  {
    seq(|a|, i requires 0 <= i < |a| => a[i] ^ b[i])
  }

  function Xor3(r: Reg, s: Reg, t: Reg): Reg {
    Xor(Xor(r, s), t)
  }

  lemma ByteXor(x: bv8, y: bv8)
    ensures Byte(x ^ y) == Xor(Byte(x), Byte(y))
  {
  }

  lemma XorBytes(x: bv8, y: bv8, z: bv8, r: Reg, s: Reg, t: Reg)
    ensures Xor(Xor3(r, s, t), Byte((x ^ y) ^ z)) == Xor3(Xor(r, Byte(x)), Xor(s, Byte(y)), Xor(t, Byte(z)))
  {
    hide Xor, Byte;
    ByteXor(x, y);
    ByteXor(x ^ y, z);
    XorRegroup(Xor(r, s), t, Xor(Byte(x), Byte(y)), Byte(z));
    XorRegroup(r, s, Byte(x), Byte(y));
  }

  lemma ByteLinear(r: Reg, s: Reg, t: Reg, x: bv8, y: bv8, z: bv8)
    ensures TakeBits(Xor3(r, s, t), Byte((x ^ y) ^ z), 8)
      == Xor3(TakeBits(r, Byte(x), 8), TakeBits(s, Byte(y), 8), TakeBits(t, Byte(z), 8))
  {
    hide Shift8, TakeBits, Xor, Byte;
    ByteShifts(r, x);
    ByteShifts(s, y);
    ByteShifts(t, z);
    ByteShifts(Xor3(r, s, t), (x ^ y) ^ z);
    XorBytes(x, y, z, r, s, t);
    Shift8Linear(Xor(Xor(r, Byte(x)), Xor(s, Byte(y))), Xor(t, Byte(z)));
    Shift8Linear(Xor(r, Byte(x)), Xor(s, Byte(y)));
  }

  /** Registers combine as the messages do. */
  lemma {:induction false} BitCrcLinear(r: Reg, s: Reg, t: Reg, a: seq<bv8>, b: seq<bv8>, c: seq<bv8>)
    requires |a| == |b| == |c|
    ensures BitCrc(Xor3(r, s, t), XorAll(XorAll(a, b), c)) == Xor3(BitCrc(r, a), BitCrc(s, b), BitCrc(t, c))
    decreases |a|
  {
    hide TakeBits, Xor3, Byte;
    if a != [] {
      var m := XorAll(XorAll(a, b), c);
      assert m[0] == (a[0] ^ b[0]) ^ c[0] && m[1..] == XorAll(XorAll(a[1..], b[1..]), c[1..]);
      ByteLinear(r, s, t, a[0], b[0], c[0]);
      BitCrcLinear(TakeBits(r, Byte(a[0]), 8), TakeBits(s, Byte(b[0]), 8), TakeBits(t, Byte(c[0]), 8), a[1..], b[1..], c[1..]);
    }
  }

  lemma Inversions(p: Reg, q: Reg, u: Reg)
    ensures ((!p.bits) ^ (!q.bits)) ^ (!u.bits) == !Xor3(p, q, u).bits
    ensures Xor3(Reg(0xffff_ffff), Reg(0xffff_ffff), Reg(0xffff_ffff)) == Reg(0xffff_ffff)
  {
  }

  /** For messages of one length: the CRC of three combined is the three CRCs combined. */
  lemma CrcLinear(a: seq<bv8>, b: seq<bv8>, c: seq<bv8>)
    requires |a| == |b| == |c|
    ensures Crc(XorAll(XorAll(a, b), c)) == (Crc(a) ^ Crc(b)) ^ Crc(c)
  {
    hide Xor3, BitCrc, XorAll;
    var r := Reg(0xffff_ffff);
    BitCrcLinear(r, r, r, a, b, c);
    Inversions(BitCrc(r, a), BitCrc(r, b), BitCrc(r, c));
  }
}
