/**
 CRC32C (util/crc32c.h, util/crc32c.cc; section 12.1 of RFC 3720): the portable loop,
 which walks over a buffer in strides of 16 bytes with four partial results, against the
 bitwise definition.
 */
module Crc32c {

  const CRC32_XOR: bv32 := 0xffffffff
  const MASK_DELTA: bv32 := 0xa282ead8

  // ----- the definition, bit by bit -----

  // One bit of the division by the polynomial, both in reflected order.
  function Bit(l: bv32): bv32 {
    (l >> 1) ^ (if l & 1 == 1 then 0x82f63b78 else 0)
  }

  // The state after a zero byte.
  function ZeroByte(l: bv32): bv32 {
    Bit(Bit(Bit(Bit(Bit(Bit(Bit(Bit(l))))))))
  }

  function Zeros(n: nat, l: bv32): bv32 {
    if n == 0 then l else Zeros(n - 1, ZeroByte(l))
  }

  function Mixed(l: bv32, b: bv8): bv32 {
    l ^ (b as bv32)
  }

  function Step(l: bv32, b: bv8): bv32 {
    ZeroByte(Mixed(l, b))
  }

  // The state after all of `data`.
  function Bytewise(l: bv32, data: seq<bv8>): bv32 {
    if data == [] then l else Step(Bytewise(l, data[..|data| - 1]), data[|data| - 1])
  }

  // Before and after, all bits are inverted.
  function Flip(l: bv32): bv32 {
    l ^ CRC32_XOR
  }

  // The checksum of a string whose first part has the checksum `crc`.
  function Crc(crc: bv32, data: seq<bv8>): bv32 {
    Flip(Bytewise(Flip(crc), data))
  }

  // ----- every step is linear -----

  lemma {:induction false} XorShift(a: bv32, b: bv32)
    ensures (a ^ b) >> 1 == (a >> 1) ^ (b >> 1)
  {
  }

  lemma {:induction false} XorLow(a: bv32, b: bv32)
    ensures (a ^ b) & 1 == (a & 1) ^ (b & 1)
    ensures a & 1 == 0 || a & 1 == 1
  {
  }

  lemma {:induction false} XorLaws(p: bv32, q: bv32, k: bv32)
    ensures p ^ q ^ k == (p ^ k) ^ q && p ^ q ^ k == p ^ (q ^ k) && (p ^ k) ^ (q ^ k) == p ^ q && p ^ 0 == p
  {
  }

  lemma {:induction false} BitIsLinear(a: bv32, b: bv32)
    ensures Bit(a ^ b) == Bit(a) ^ Bit(b)
  {
    XorShift(a, b);
    XorLow(a, b);
    XorLow(b, a);
    XorLaws(a >> 1, b >> 1, 0x82f63b78);
  }

  function Xor(a: bv32, b: bv32): bv32 {
    a ^ b
  }

  predicate IsXor(x: bv32, a: bv32, b: bv32) {
    x == Xor(a, b)
  }

  lemma {:induction false} BitOfXor(x: bv32, a: bv32, b: bv32)
    requires IsXor(x, a, b)
    ensures IsXor(Bit(x), Bit(a), Bit(b))
  {
    BitIsLinear(a, b);
  }

  lemma {:induction false} ZeroByteOfXor(x: bv32, a: bv32, b: bv32)
    requires IsXor(x, a, b)
    ensures IsXor(ZeroByte(x), ZeroByte(a), ZeroByte(b))
  {
    hide Bit, IsXor;
    BitOfXor(x, a, b);
    var x1, a1, b1 := Bit(x), Bit(a), Bit(b);
    BitOfXor(x1, a1, b1);
    var x2, a2, b2 := Bit(x1), Bit(a1), Bit(b1);
    BitOfXor(x2, a2, b2);
    var x3, a3, b3 := Bit(x2), Bit(a2), Bit(b2);
    BitOfXor(x3, a3, b3);
    var x4, a4, b4 := Bit(x3), Bit(a3), Bit(b3);
    BitOfXor(x4, a4, b4);
    var x5, a5, b5 := Bit(x4), Bit(a4), Bit(b4);
    BitOfXor(x5, a5, b5);
    var x6, a6, b6 := Bit(x5), Bit(a5), Bit(b5);
    BitOfXor(x6, a6, b6);
    var x7, a7, b7 := Bit(x6), Bit(a6), Bit(b6);
    BitOfXor(x7, a7, b7);
  }

  /** Zero bytes act linearly on the state. */
  lemma {:induction false} ZerosOfXor(n: nat, x: bv32, a: bv32, b: bv32)
    requires IsXor(x, a, b)
    ensures IsXor(Zeros(n, x), Zeros(n, a), Zeros(n, b))
  {
    hide ZeroByte, IsXor;
    if n > 0 {
      ZeroByteOfXor(x, a, b);
      ZerosOfXor(n - 1, ZeroByte(x), ZeroByte(a), ZeroByte(b));
    }
  }

  lemma {:induction false} ZerosOfNothing(n: nat)
    ensures Zeros(n, 0) == 0
  {
    if n > 0 {
      assert Bit(0) == 0;
      ZerosOfNothing(n - 1);
    }
  }

  lemma {:induction false} ZerosAdd(m: nat, n: nat, l: bv32)
    ensures Zeros(m + n, l) == Zeros(m, Zeros(n, l))
  {
    hide ZeroByte;
    if n > 0 {
      ZerosAdd(m, n - 1, ZeroByte(l));
    }
  }

  lemma {:induction false} BitCommutes(n: nat, l: bv32)
    ensures Zeros(n, Bit(l)) == Bit(Zeros(n, l))
  {
    if n > 0 {
      hide Bit;
      BitCommutes(n - 1, ZeroByte(l));
    }
  }

  lemma {:induction false} BytewiseAppends(l: bv32, a: seq<bv8>, b: seq<bv8>)
    ensures Bytewise(l, a + b) == Bytewise(Bytewise(l, a), b)
  {
    if b == [] {
      assert a + b == a;
    } else {
      var n := |b| - 1;
      assert (a + b)[..|a + b| - 1] == a + b[..n];
      BytewiseAppends(l, a, b[..n]);
    }
  }

  // ----- the tables -----

  // kByteExtensionTable and kStrideExtensionTable0 to 3, for indices below 256.
  datatype Tables = Tables(byteTable: bv32 -> bv32, stride0: bv32 -> bv32, stride1: bv32 -> bv32, stride2: bv32 -> bv32, stride3: bv32 -> bv32)

  ghost predicate XorLinear(t: bv32 -> bv32) {
    forall a, b :: a < 256 && b < 256 ==> IsXor(t(Xor(a, b)), t(a), t(b))
  }

  // The entries at the powers of two.
  ghost predicate OneBits(t: bv32 -> bv32, e0: bv32, e1: bv32, e2: bv32, e3: bv32, e4: bv32, e5: bv32, e6: bv32, e7: bv32) {
    && t(0x01) == e0 && t(0x02) == e1 && t(0x04) == e2 && t(0x08) == e3
    && t(0x10) == e4 && t(0x20) == e5 && t(0x40) == e6 && t(0x80) == e7
  }

  // The tables of the source: linear, with these entries at the powers of two.
  ghost predicate SourceTables(t: Tables) {
    && XorLinear(t.byteTable) && XorLinear(t.stride0) && XorLinear(t.stride1) && XorLinear(t.stride2) && XorLinear(t.stride3)
    && OneBits(t.byteTable, 0xf26b8303, 0xe13b70f7, 0xc79a971f, 0x8ad958cf, 0x105ec76f, 0x20bd8ede, 0x417b1dbc, 0x82f63b78)
    && OneBits(t.stride0, 0x30d23865, 0x61a470ca, 0xc348e194, 0x837db5d9, 0x03171d43, 0x062e3a86, 0x0c5c750c, 0x18b8ea18)
    && OneBits(t.stride1, 0x54075546, 0xa80eaa8c, 0x55f123e9, 0xabe247d2, 0x5228f955, 0xa451f2aa, 0x4d4f93a5, 0x9a9f274a)
    && OneBits(t.stride2, 0x678efd01, 0xcf1dfa02, 0x9bd782f5, 0x3243731b, 0x6486e636, 0xc90dcc6c, 0x97f7ee29, 0x2a03aaa3)
    && OneBits(t.stride3, 0xf20c0dfe, 0xe1f46d0d, 0xc604aceb, 0x89e52f27, 0x162628bf, 0x2c4c517e, 0x5898a2fc, 0xb13145f8)
  }

  lemma {:induction false} AdvanceOne(n: nat, l: bv32, l': bv32)
    requires ZeroByte(l) == l'
    ensures Zeros(n + 1, l) == Zeros(n, l')
  {
    hide ZeroByte;
  }

  // Sixteen zero bytes behind the highest bit.
  lemma {:induction false} TopBit()
    ensures Zeros(16, 0x80000000) == 0x18b8ea18
  {
    hide Zeros;
    AdvanceOne(15, 0x80000000, 0x00800000);
    AdvanceOne(14, 0x00800000, 0x00008000);
    AdvanceOne(13, 0x00008000, 0x00000080);
    AdvanceOne(12, 0x00000080, 0x82f63b78);
    AdvanceOne(11, 0x82f63b78, 0xfbc3faf9);
    AdvanceOne(10, 0xfbc3faf9, 0x8b277743);
    AdvanceOne(9, 0x8b277743, 0x52a0c93f);
    AdvanceOne(8, 0x52a0c93f, 0x6ea2d55c);
    AdvanceOne(7, 0x6ea2d55c, 0x1c08b7d6);
    AdvanceOne(6, 0x1c08b7d6, 0xf56e0ef4);
    AdvanceOne(5, 0xf56e0ef4, 0x34019664);
    AdvanceOne(4, 0x34019664, 0xa66805eb);
    AdvanceOne(3, 0xa66805eb, 0x7a1f6b24);
    AdvanceOne(2, 0x7a1f6b24, 0xe75d06aa);
    AdvanceOne(1, 0xe75d06aa, 0xc94ec098);
    AdvanceOne(0, 0xc94ec098, 0x18b8ea18);
    NoZeros(0x18b8ea18);
  }

  lemma {:induction false} NoZeros(l: bv32)
    ensures Zeros(0, l) == l
  {
  }

  // The bit below a bit is one step further.
  lemma {:induction false} LowerBit(high: bv32, low: bv32, z: bv32, z': bv32)
    requires Zeros(16, high) == z && Bit(high) == low && Bit(z) == z'
    ensures Zeros(16, low) == z'
  {
    hide Bit, Zeros;
    BitCommutes(16, high);
  }

  lemma {:induction false} SwathBits0()
    ensures Zeros(16, 0x01000000) == 0x30d23865
    ensures Zeros(16, 0x02000000) == 0x61a470ca
    ensures Zeros(16, 0x04000000) == 0xc348e194
    ensures Zeros(16, 0x08000000) == 0x837db5d9
    ensures Zeros(16, 0x10000000) == 0x03171d43
    ensures Zeros(16, 0x20000000) == 0x062e3a86
    ensures Zeros(16, 0x40000000) == 0x0c5c750c
    ensures Zeros(16, 0x80000000) == 0x18b8ea18
  {
    hide Zeros;
    TopBit();
    LowerBit(0x80000000, 0x40000000, 0x18b8ea18, 0x0c5c750c);
    LowerBit(0x40000000, 0x20000000, 0x0c5c750c, 0x062e3a86);
    LowerBit(0x20000000, 0x10000000, 0x062e3a86, 0x03171d43);
    LowerBit(0x10000000, 0x08000000, 0x03171d43, 0x837db5d9);
    LowerBit(0x08000000, 0x04000000, 0x837db5d9, 0xc348e194);
    LowerBit(0x04000000, 0x02000000, 0xc348e194, 0x61a470ca);
    LowerBit(0x02000000, 0x01000000, 0x61a470ca, 0x30d23865);
  }

  lemma {:induction false} SwathBits1()
    ensures Zeros(16, 0x00010000) == 0x54075546
    ensures Zeros(16, 0x00020000) == 0xa80eaa8c
    ensures Zeros(16, 0x00040000) == 0x55f123e9
    ensures Zeros(16, 0x00080000) == 0xabe247d2
    ensures Zeros(16, 0x00100000) == 0x5228f955
    ensures Zeros(16, 0x00200000) == 0xa451f2aa
    ensures Zeros(16, 0x00400000) == 0x4d4f93a5
    ensures Zeros(16, 0x00800000) == 0x9a9f274a
  {
    hide Zeros;
    SwathBits0();
    LowerBit(0x01000000, 0x00800000, 0x30d23865, 0x9a9f274a);
    LowerBit(0x00800000, 0x00400000, 0x9a9f274a, 0x4d4f93a5);
    LowerBit(0x00400000, 0x00200000, 0x4d4f93a5, 0xa451f2aa);
    LowerBit(0x00200000, 0x00100000, 0xa451f2aa, 0x5228f955);
    LowerBit(0x00100000, 0x00080000, 0x5228f955, 0xabe247d2);
    LowerBit(0x00080000, 0x00040000, 0xabe247d2, 0x55f123e9);
    LowerBit(0x00040000, 0x00020000, 0x55f123e9, 0xa80eaa8c);
    LowerBit(0x00020000, 0x00010000, 0xa80eaa8c, 0x54075546);
  }

  lemma {:induction false} SwathBits2()
    ensures Zeros(16, 0x00000100) == 0x678efd01
    ensures Zeros(16, 0x00000200) == 0xcf1dfa02
    ensures Zeros(16, 0x00000400) == 0x9bd782f5
    ensures Zeros(16, 0x00000800) == 0x3243731b
    ensures Zeros(16, 0x00001000) == 0x6486e636
    ensures Zeros(16, 0x00002000) == 0xc90dcc6c
    ensures Zeros(16, 0x00004000) == 0x97f7ee29
    ensures Zeros(16, 0x00008000) == 0x2a03aaa3
  {
    hide Zeros;
    SwathBits1();
    LowerBit(0x00010000, 0x00008000, 0x54075546, 0x2a03aaa3);
    LowerBit(0x00008000, 0x00004000, 0x2a03aaa3, 0x97f7ee29);
    LowerBit(0x00004000, 0x00002000, 0x97f7ee29, 0xc90dcc6c);
    LowerBit(0x00002000, 0x00001000, 0xc90dcc6c, 0x6486e636);
    LowerBit(0x00001000, 0x00000800, 0x6486e636, 0x3243731b);
    LowerBit(0x00000800, 0x00000400, 0x3243731b, 0x9bd782f5);
    LowerBit(0x00000400, 0x00000200, 0x9bd782f5, 0xcf1dfa02);
    LowerBit(0x00000200, 0x00000100, 0xcf1dfa02, 0x678efd01);
  }

  lemma {:induction false} SwathBits3()
    ensures Zeros(16, 0x00000001) == 0xf20c0dfe
    ensures Zeros(16, 0x00000002) == 0xe1f46d0d
    ensures Zeros(16, 0x00000004) == 0xc604aceb
    ensures Zeros(16, 0x00000008) == 0x89e52f27
    ensures Zeros(16, 0x00000010) == 0x162628bf
    ensures Zeros(16, 0x00000020) == 0x2c4c517e
    ensures Zeros(16, 0x00000040) == 0x5898a2fc
    ensures Zeros(16, 0x00000080) == 0xb13145f8
  {
    hide Zeros;
    SwathBits2();
    LowerBit(0x00000100, 0x00000080, 0x678efd01, 0xb13145f8);
    LowerBit(0x00000080, 0x00000040, 0xb13145f8, 0x5898a2fc);
    LowerBit(0x00000040, 0x00000020, 0x5898a2fc, 0x2c4c517e);
    LowerBit(0x00000020, 0x00000010, 0x2c4c517e, 0x162628bf);
    LowerBit(0x00000010, 0x00000008, 0x162628bf, 0x89e52f27);
    LowerBit(0x00000008, 0x00000004, 0x89e52f27, 0xc604aceb);
    LowerBit(0x00000004, 0x00000002, 0xc604aceb, 0xe1f46d0d);
    LowerBit(0x00000002, 0x00000001, 0xe1f46d0d, 0xf20c0dfe);
  }

  // ----- what the tables compute -----

  function At(k: nat, x: bv32): bv32 {
    if k == 0 then x else if k == 1 then Left8(x) else if k == 2 then Left16(x) else Left24(x)
  }

  function Left8(x: bv32): bv32 {
    x << 8
  }

  function Left16(x: bv32): bv32 {
    x << 16
  }

  function Left24(x: bv32): bv32 {
    x << 24
  }

  // The entry is what `n` zero bytes make of the index, put at byte `k` of the state.
  ghost predicate Agrees(t: bv32 -> bv32, n: nat, k: nat, x: bv32) {
    x < 256 && t(x) == Zeros(n, At(k, x))
  }

  lemma {:induction false} Left8OfXor(x: bv32, y: bv32)
    ensures Left8(Xor(x, y)) == Xor(Left8(x), Left8(y))
  {
  }

  lemma {:induction false} Left16OfXor(x: bv32, y: bv32)
    ensures Left16(Xor(x, y)) == Xor(Left16(x), Left16(y))
  {
  }

  lemma {:induction false} Left24OfXor(x: bv32, y: bv32)
    ensures Left24(Xor(x, y)) == Xor(Left24(x), Left24(y))
  {
  }

  lemma {:induction false} AtOfXor(k: nat, z: bv32, x: bv32, y: bv32)
    requires IsXor(z, x, y)
    ensures IsXor(At(k, z), At(k, x), At(k, y))
  {
    hide Xor, Left8, Left16, Left24;
    Left8OfXor(x, y);
    Left16OfXor(x, y);
    Left24OfXor(x, y);
  }

  lemma {:induction false} SmallXor(z: bv32, x: bv32, y: bv32)
    requires IsXor(z, x, y) && x < 256 && y < 256
    ensures z < 256
  {
  }

  lemma {:induction false} LinearAt(t: bv32 -> bv32, z: bv32, x: bv32, y: bv32)
    requires XorLinear(t) && x < 256 && y < 256 && IsXor(z, x, y)
    ensures IsXor(t(z), t(x), t(y))
  {
    hide Xor;
  }

  lemma {:induction false} SameXor(x: bv32, y: bv32, a: bv32, b: bv32)
    requires IsXor(x, a, b) && IsXor(y, a, b)
    ensures x == y
  {
  }

  lemma {:induction false} AgreesOnXor(t: bv32 -> bv32, n: nat, k: nat, x: bv32, y: bv32, z: bv32)
    requires XorLinear(t) && Agrees(t, n, k, x) && Agrees(t, n, k, y) && IsXor(z, x, y)
    ensures Agrees(t, n, k, z)
  {
    hide IsXor, Zeros, At, XorLinear;
    SmallXor(z, x, y);
    LinearAt(t, z, x, y);
    AtOfXor(k, z, x, y);
    ZerosOfXor(n, At(k, z), At(k, x), At(k, y));
    SameXor(t(z), Zeros(n, At(k, z)), t(x), t(y));
  }

  lemma {:induction false} AgreesOnNothing(t: bv32 -> bv32, n: nat, k: nat)
    requires XorLinear(t)
    ensures Agrees(t, n, k, 0)
  {
    LinearAt(t, 0, 0, 0);
    ZerosOfNothing(n);
  }

  // An index is the exclusive or of its bits.
  lemma {:induction false} BitsOf(c: bv32)
    requires c < 256
    ensures IsXor(c & 0x03, c & 0x01, c & 0x02) && IsXor(c & 0x07, c & 0x03, c & 0x04) && IsXor(c & 0x0f, c & 0x07, c & 0x08)
    ensures IsXor(c & 0x1f, c & 0x0f, c & 0x10) && IsXor(c & 0x3f, c & 0x1f, c & 0x20) && IsXor(c & 0x7f, c & 0x3f, c & 0x40)
    ensures IsXor(c, c & 0x7f, c & 0x80)
  {
  }

  lemma {:induction false} OneBitOrNone(c: bv32)
    ensures (c & 0x01 == 0 || c & 0x01 == 0x01) && (c & 0x02 == 0 || c & 0x02 == 0x02)
    ensures (c & 0x04 == 0 || c & 0x04 == 0x04) && (c & 0x08 == 0 || c & 0x08 == 0x08)
    ensures (c & 0x10 == 0 || c & 0x10 == 0x10) && (c & 0x20 == 0 || c & 0x20 == 0x20)
    ensures (c & 0x40 == 0 || c & 0x40 == 0x40) && (c & 0x80 == 0 || c & 0x80 == 0x80)
  {
  }

  ghost predicate AgreesOnBits(t: bv32 -> bv32, n: nat, k: nat) {
    && Agrees(t, n, k, 0x01) && Agrees(t, n, k, 0x02) && Agrees(t, n, k, 0x04) && Agrees(t, n, k, 0x08)
    && Agrees(t, n, k, 0x10) && Agrees(t, n, k, 0x20) && Agrees(t, n, k, 0x40) && Agrees(t, n, k, 0x80)
  }

  /** A linear table that is right at the powers of two is right everywhere. */
  lemma {:induction false} LinearTableIsRight(t: bv32 -> bv32, n: nat, k: nat, c: bv32)
    requires XorLinear(t) && AgreesOnBits(t, n, k) && c < 256
    ensures t(c) == Zeros(n, At(k, c))
  {
    AgreesOnNothing(t, n, k);
    BitsOf(c);
    AgreesFacts(t, n, k, c);
    hide XorLinear, Agrees, AgreesOnBits, Zeros, At, IsXor;
    Assemble(t, n, k, c & 0x01, c & 0x02, c & 0x03, c & 0x04, c & 0x07);
    Assemble(t, n, k, c & 0x07, c & 0x08, c & 0x0f, c & 0x10, c & 0x1f);
    Assemble(t, n, k, c & 0x1f, c & 0x20, c & 0x3f, c & 0x40, c & 0x7f);
    AgreesOnXor(t, n, k, c & 0x7f, c & 0x80, c);
    AgreesMeans(t, n, k, c);
  }

  lemma {:induction false} Assemble(t: bv32 -> bv32, n: nat, k: nat, a: bv32, b: bv32, ab: bv32, c: bv32, abc: bv32)
    requires XorLinear(t) && Agrees(t, n, k, a) && Agrees(t, n, k, b) && Agrees(t, n, k, c)
    requires IsXor(ab, a, b) && IsXor(abc, ab, c)
    ensures Agrees(t, n, k, abc)
  {
    hide XorLinear, Agrees, IsXor;
    AgreesOnXor(t, n, k, a, b, ab);
    AgreesOnXor(t, n, k, ab, c, abc);
  }

  lemma {:induction false} AgreesMeans(t: bv32 -> bv32, n: nat, k: nat, c: bv32)
    requires Agrees(t, n, k, c)
    ensures t(c) == Zeros(n, At(k, c))
  {
  }

  lemma {:induction false} AgreesFacts(t: bv32 -> bv32, n: nat, k: nat, c: bv32)
    requires AgreesOnBits(t, n, k) && Agrees(t, n, k, 0)
    ensures Agrees(t, n, k, c & 0x01) && Agrees(t, n, k, c & 0x02) && Agrees(t, n, k, c & 0x04) && Agrees(t, n, k, c & 0x08)
    ensures Agrees(t, n, k, c & 0x10) && Agrees(t, n, k, c & 0x20) && Agrees(t, n, k, c & 0x40) && Agrees(t, n, k, c & 0x80)
  {
    OneBitOrNone(c);
    hide Agrees;
  }

  lemma {:induction false} ByteEntries()
    ensures Zeros(1, 0x01) == 0xf26b8303
    ensures Zeros(1, 0x02) == 0xe13b70f7
    ensures Zeros(1, 0x04) == 0xc79a971f
    ensures Zeros(1, 0x08) == 0x8ad958cf
    ensures Zeros(1, 0x10) == 0x105ec76f
    ensures Zeros(1, 0x20) == 0x20bd8ede
    ensures Zeros(1, 0x40) == 0x417b1dbc
    ensures Zeros(1, 0x80) == 0x82f63b78
  {
    AdvanceOne(0, 0x01, 0xf26b8303);
    AdvanceOne(0, 0x02, 0xe13b70f7);
    AdvanceOne(0, 0x04, 0xc79a971f);
    AdvanceOne(0, 0x08, 0x8ad958cf);
    AdvanceOne(0, 0x10, 0x105ec76f);
    AdvanceOne(0, 0x20, 0x20bd8ede);
    AdvanceOne(0, 0x40, 0x417b1dbc);
    AdvanceOne(0, 0x80, 0x82f63b78);
  }

  lemma {:induction false} ByteBits(t: Tables)
    requires SourceTables(t)
    ensures AgreesOnBits(t.byteTable, 1, 0)
  {
    hide XorLinear;
    ByteEntries();
    hide Zeros;
  }

  lemma {:induction false} StrideBits(t: Tables)
    requires SourceTables(t)
    ensures AgreesOnBits(t.stride0, 16, 3) && AgreesOnBits(t.stride1, 16, 2)
    ensures AgreesOnBits(t.stride2, 16, 1) && AgreesOnBits(t.stride3, 16, 0)
  {
    hide XorLinear, Zeros;
    SwathBits0();
    SwathBits1();
    SwathBits2();
    SwathBits3();
  }

  // Such tables exist: they are what the bitwise definition computes.
  function ComputedTables(): Tables {
    Tables(c => Zeros(1, c), c => Zeros(16, At(3, c)), c => Zeros(16, At(2, c)), c => Zeros(16, At(1, c)), c => Zeros(16, At(0, c)))
  }

  lemma {:induction false} ComputedIsLinear(t: bv32 -> bv32, n: nat, k: nat)
    requires forall c :: t(c) == Zeros(n, At(k, c))
    ensures XorLinear(t)
  {
    hide Zeros, At, Xor, IsXor;
    forall a: bv32, b: bv32 | a < 256 && b < 256
      ensures IsXor(t(Xor(a, b)), t(a), t(b))
    {
      ComputedAt(n, k, a, b);
    }
  }

  lemma {:induction false} ComputedAt(n: nat, k: nat, a: bv32, b: bv32)
    ensures IsXor(Zeros(n, At(k, Xor(a, b))), Zeros(n, At(k, a)), Zeros(n, At(k, b)))
  {
    hide Zeros, At, Xor;
    AtOfXor(k, Xor(a, b), a, b);
    ZerosOfXor(n, At(k, Xor(a, b)), At(k, a), At(k, b));
  }

  lemma {:induction false} ComputedIsSource()
    ensures SourceTables(ComputedTables())
  {
    hide XorLinear, Zeros;
    var t := ComputedTables();
    ComputedIsLinear(t.byteTable, 1, 0);
    ComputedIsLinear(t.stride0, 16, 3);
    ComputedIsLinear(t.stride1, 16, 2);
    ComputedIsLinear(t.stride2, 16, 1);
    ComputedIsLinear(t.stride3, 16, 0);
    ByteEntries();
    SwathBits0();
    SwathBits1();
    SwathBits2();
    SwathBits3();
  }

  // ----- one byte -----

  function Low(l: bv32): bv32 {
    l & 0xff
  }

  function High(l: bv32): bv32 {
    l & 0xffffff00
  }

  function Down(l: bv32): bv32 {
    l >> 8
  }

  function Half(l: bv32): bv32 {
    l >> 1
  }

  predicate Even(l: bv32) {
    l & 1 == 0
  }

  function TableIndex(l: bv32, b: bv8): bv32 {
    Low(l) ^ (b as bv32)
  }

  // STEP1.
  function TableStep(t: Tables, l: bv32, b: bv8): bv32 {
    t.byteTable(TableIndex(l, b)) ^ Down(l)
  }

  lemma {:induction false} EvenBit(l: bv32)
    requires Even(l)
    ensures Bit(l) == Half(l)
  {
  }

  lemma {:induction false} HighShifts(x: bv32)
    ensures var y := High(x);
      && Even(y) && Even(Half(y)) && Even(Half(Half(y))) && Even(Half(Half(Half(y))))
      && Even(Half(Half(Half(Half(y))))) && Even(Half(Half(Half(Half(Half(y)))))) && Even(Half(Half(Half(Half(Half(Half(y)))))))
      && Even(Half(Half(Half(Half(Half(Half(Half(y))))))))
      && Half(Half(Half(Half(Half(Half(Half(Half(y)))))))) == Down(x)
  {
  }

  // Three upper bytes only move down.
  lemma {:induction false} HighBytes(x: bv32)
    ensures ZeroByte(High(x)) == Down(x)
  {
    HighShifts(x);
    hide Bit, Half, Even, High, Down;
    var y := High(x);
    EvenBit(y);
    var y1 := Half(y);
    EvenBit(y1);
    var y2 := Half(y1);
    EvenBit(y2);
    var y3 := Half(y2);
    EvenBit(y3);
    var y4 := Half(y3);
    EvenBit(y4);
    var y5 := Half(y4);
    EvenBit(y5);
    var y6 := Half(y5);
    EvenBit(y6);
    EvenBit(Half(y6));
  }

  lemma {:induction false} StepParts(l: bv32, b: bv8)
    ensures IsXor(Mixed(l, b), TableIndex(l, b), High(Mixed(l, b)))
    ensures TableIndex(l, b) < 256 && Down(Mixed(l, b)) == Down(l)
  {
  }

  /** The byte table advances the state by one byte. */
  lemma {:induction false} TableStepIsStep(t: Tables, l: bv32, b: bv8)
    requires SourceTables(t)
    ensures TableStep(t, l, b) == Step(l, b)
  {
    StepParts(l, b);
    TableStepXor(t, l, b);
    hide SourceTables, ZeroByte, IsXor, High, Down, Mixed, TableIndex, TableStep;
    var x := Mixed(l, b);
    TableOnParts(t, x, TableIndex(l, b), High(x));
    HighBytes(x);
    SameXor(TableStep(t, l, b), ZeroByte(x), t.byteTable(TableIndex(l, b)), Down(l));
  }

  lemma {:induction false} TableStepXor(t: Tables, l: bv32, b: bv8)
    ensures IsXor(TableStep(t, l, b), t.byteTable(TableIndex(l, b)), Down(l))
  {
    hide TableIndex, Down;
  }

  lemma {:induction false} TableOnParts(t: Tables, x: bv32, low: bv32, high: bv32)
    requires SourceTables(t) && low < 256 && IsXor(x, low, high)
    ensures IsXor(ZeroByte(x), t.byteTable(low), ZeroByte(high))
  {
    hide SourceTables, ZeroByte, IsXor, AgreesOnBits, XorLinear;
    ByteBits(t);
    LinearTable(t);
    LinearTableIsRight(t.byteTable, 1, 0, low);
    OneZero(low);
    ZeroByteOfXor(x, low, high);
  }

  lemma {:induction false} LinearTable(t: Tables)
    requires SourceTables(t)
    ensures XorLinear(t.byteTable) && XorLinear(t.stride0) && XorLinear(t.stride1) && XorLinear(t.stride2) && XorLinear(t.stride3)
  {
    hide XorLinear, OneBits;
  }

  lemma {:induction false} OneZero(l: bv32)
    ensures Zeros(1, At(0, l)) == ZeroByte(l)
  {
    hide ZeroByte;
    NoZeros(ZeroByte(l));
  }

  // ----- words of four bytes -----

  lemma {:induction false} XorIs(a: bv32, b: bv32)
    ensures IsXor(Xor(a, b), a, b)
    ensures Xor(0, b) == b && Xor(a, 0) == a && Xor(a, b) == Xor(b, a)
  {
  }

  // ReadUint32LE.
  function Word(b0: bv8, b1: bv8, b2: bv8, b3: bv8): bv32 {
    (b0 as bv32) | ((b1 as bv32) << 8) | ((b2 as bv32) << 16) | ((b3 as bv32) << 24)
  }

  lemma {:induction false} WordParts(l: bv32, b0: bv8, b1: bv8, b2: bv8, b3: bv8)
    ensures IsXor(Xor(l, Word(b0, b1, b2, b3)), Mixed(l, b0), High(Word(b0, b1, b2, b3)))
    ensures Down(Word(b0, b1, b2, b3)) == Word(b1, b2, b3, 0)
    ensures Xor(l, Word(0, 0, 0, 0)) == l
  {
  }

  // One byte of a word that has been mixed into the state.
  lemma {:induction false} WordByte(l: bv32, b0: bv8, b1: bv8, b2: bv8, b3: bv8)
    ensures ZeroByte(Xor(l, Word(b0, b1, b2, b3))) == Xor(Step(l, b0), Word(b1, b2, b3, 0))
  {
    WordParts(l, b0, b1, b2, b3);
    hide ZeroByte, IsXor, High, Down, Mixed, Word, Xor;
    var w := Word(b0, b1, b2, b3);
    HighBytes(w);
    ZeroByteOfXor(Xor(l, w), Mixed(l, b0), High(w));
    XorIs(Step(l, b0), Word(b1, b2, b3, 0));
    SameXor(ZeroByte(Xor(l, w)), Xor(Step(l, b0), Word(b1, b2, b3, 0)), Step(l, b0), Word(b1, b2, b3, 0));
  }

  // The state after a word.
  function WordStep(l: bv32, w: bv32): bv32 {
    Zeros(4, Xor(l, w))
  }

  lemma {:induction false} FourZeros(l: bv32)
    ensures Zeros(4, l) == ZeroByte(ZeroByte(ZeroByte(ZeroByte(l))))
  {
    hide ZeroByte;
    AdvanceOne(3, l, ZeroByte(l));
    AdvanceOne(2, ZeroByte(l), ZeroByte(ZeroByte(l)));
    AdvanceOne(1, ZeroByte(ZeroByte(l)), ZeroByte(ZeroByte(ZeroByte(l))));
    NoZeros(ZeroByte(ZeroByte(ZeroByte(ZeroByte(l)))));
  }

  lemma {:induction false} WordIsFourBytes(l: bv32, b0: bv8, b1: bv8, b2: bv8, b3: bv8)
    ensures WordStep(l, Word(b0, b1, b2, b3)) == Step(Step(Step(Step(l, b0), b1), b2), b3)
  {
    hide ZeroByte, Zeros, Word, Xor, Step;
    FourZeros(Xor(l, Word(b0, b1, b2, b3)));
    WordByte(l, b0, b1, b2, b3);
    var l1 := Step(l, b0);
    WordByte(l1, b1, b2, b3, 0);
    var l2 := Step(l1, b1);
    WordByte(l2, b2, b3, 0, 0);
    var l3 := Step(l2, b2);
    WordByte(l3, b3, 0, 0, 0);
    WordParts(Step(l3, b3), 0, 0, 0, 0);
  }

  function WordAt(data: seq<bv8>, p: nat): bv32
    requires p + 4 <= |data|
  {
    Word(data[p], data[p + 1], data[p + 2], data[p + 3])
  }

  lemma {:induction false} OneMoreByte(l: bv32, data: seq<bv8>, p: nat)
    requires p < |data|
    ensures Bytewise(l, data[..p + 1]) == Step(Bytewise(l, data[..p]), data[p])
  {
    hide Step;
    assert data[..p + 1][..p] == data[..p];
  }

  lemma {:induction false} OneMoreWord(l: bv32, data: seq<bv8>, p: nat)
    requires p + 4 <= |data|
    ensures Bytewise(l, data[..p + 4]) == WordStep(Bytewise(l, data[..p]), WordAt(data, p))
  {
    hide Step, Bytewise, WordStep, Word;
    OneMoreByte(l, data, p);
    OneMoreByte(l, data, p + 1);
    OneMoreByte(l, data, p + 2);
    OneMoreByte(l, data, p + 3);
    WordIsFourBytes(Bytewise(l, data[..p]), data[p], data[p + 1], data[p + 2], data[p + 3]);
  }

  // ----- strides -----

  function Byte0(c: bv32): bv32 {
    c & 0xff
  }

  function Byte1(c: bv32): bv32 {
    (c >> 8) & 0xff
  }

  function Byte2(c: bv32): bv32 {
    (c >> 16) & 0xff
  }

  function Byte3(c: bv32): bv32 {
    c >> 24
  }

  function XorAll(w: bv32, a: bv32, b: bv32, c: bv32, d: bv32): bv32 {
    Xor(Xor(Xor(Xor(w, a), b), c), d)
  }

  // STEP4: a partial result 16 bytes on, with the next word of its stride.
  function Stride(t: Tables, c: bv32, w: bv32): bv32 {
    XorAll(w, t.stride3(Byte0(c)), t.stride2(Byte1(c)), t.stride1(Byte2(c)), t.stride0(Byte3(c)))
  }

  function Lower2(c: bv32): bv32 {
    c & 0xffff
  }

  function Lower3(c: bv32): bv32 {
    c & 0xffffff
  }

  lemma {:induction false} SmallBytes(c: bv32)
    ensures Byte0(c) < 256 && Byte1(c) < 256 && Byte2(c) < 256 && Byte3(c) < 256
  {
  }

  lemma {:induction false} LowerTwo(c: bv32)
    ensures IsXor(Lower2(c), At(0, Byte0(c)), At(1, Byte1(c)))
  {
  }

  lemma {:induction false} LowerThree(c: bv32)
    ensures IsXor(Lower3(c), Lower2(c), At(2, Byte2(c)))
  {
  }

  lemma {:induction false} AllFour(c: bv32)
    ensures IsXor(c, Lower3(c), At(3, Byte3(c)))
  {
  }

  lemma {:induction false} XorChain(w: bv32, a: bv32, b: bv32, c: bv32, d: bv32, ab: bv32, abc: bv32, all: bv32)
    requires IsXor(ab, a, b) && IsXor(abc, ab, c) && IsXor(all, abc, d)
    ensures XorAll(w, a, b, c, d) == Xor(w, all)
  {
    hide Xor;
    XorOrder(w, a, b);
    XorOrder(w, ab, c);
    XorOrder(w, abc, d);
  }

  lemma {:induction false} XorOrder(a: bv32, b: bv32, c: bv32)
    ensures Xor(Xor(a, b), c) == Xor(Xor(a, c), b) && Xor(Xor(a, b), c) == Xor(a, Xor(b, c)) == Xor(a, Xor(c, b))
  {
  }

  /** Together the four stride tables advance a partial result by 16 zero bytes. */
  lemma {:induction false} StrideAdvances(t: Tables, c: bv32, w: bv32)
    requires SourceTables(t)
    ensures Stride(t, c, w) == Xor(w, Zeros(16, c))
  {
    SmallBytes(c);
    LowerTwo(c);
    LowerThree(c);
    AllFour(c);
    hide SourceTables, XorLinear, AgreesOnBits, Zeros, At, IsXor, Byte0, Byte1, Byte2, Byte3, Lower2, Lower3, Xor, Stride;
    LinearTable(t);
    StrideBits(t);
    LinearTableIsRight(t.stride3, 16, 0, Byte0(c));
    LinearTableIsRight(t.stride2, 16, 1, Byte1(c));
    LinearTableIsRight(t.stride1, 16, 2, Byte2(c));
    LinearTableIsRight(t.stride0, 16, 3, Byte3(c));
    ZerosOfXor(16, Lower2(c), At(0, Byte0(c)), At(1, Byte1(c)));
    ZerosOfXor(16, Lower3(c), Lower2(c), At(2, Byte2(c)));
    ZerosOfXor(16, c, Lower3(c), At(3, Byte3(c)));
    StrideXor(t, c, w, Zeros(16, Lower2(c)), Zeros(16, Lower3(c)), Zeros(16, c));
  }

  lemma {:induction false} StrideXor(t: Tables, c: bv32, w: bv32, lower2: bv32, lower3: bv32, all: bv32)
    requires IsXor(lower2, t.stride3(Byte0(c)), t.stride2(Byte1(c)))
    requires IsXor(lower3, lower2, t.stride1(Byte2(c))) && IsXor(all, lower3, t.stride0(Byte3(c)))
    ensures Stride(t, c, w) == Xor(w, all)
  {
    hide Byte0, Byte1, Byte2, Byte3, Xor, XorAll, IsXor;
    XorChain(w, t.stride3(Byte0(c)), t.stride2(Byte1(c)), t.stride1(Byte2(c)), t.stride0(Byte3(c)), lower2, lower3, all);
  }

  // The state that four partial results stand for.
  function Mix(c0: bv32, c1: bv32, c2: bv32, c3: bv32): bv32 {
    WordStep(WordStep(WordStep(WordStep(0, c0), c1), c2), c3)
  }

  lemma {:induction false} WordStepOfXor(l: bv32, a: bv32, b: bv32, w: bv32)
    requires IsXor(l, a, b)
    ensures IsXor(WordStep(l, w), WordStep(a, w), Zeros(4, b))
  {
    Regroup(l, a, b, w);
    hide IsXor, Xor, Zeros;
    ZerosOfXor(4, Xor(l, w), Xor(a, w), b);
  }

  lemma {:induction false} Regroup(l: bv32, a: bv32, b: bv32, w: bv32)
    requires IsXor(l, a, b)
    ensures IsXor(Xor(l, w), Xor(a, w), b)
    ensures Xor(l, w) == Xor(a, Xor(w, b))
  {
    hide Xor;
    XorOrder(a, b, w);
  }

  lemma {:induction false} SixteenZeros(l: bv32)
    ensures Zeros(16, l) == Zeros(4, Zeros(4, Zeros(4, Zeros(4, l))))
  {
    hide Zeros;
    ZerosAdd(12, 4, l);
    ZerosAdd(8, 4, Zeros(4, l));
    ZerosAdd(4, 4, Zeros(4, Zeros(4, l)));
  }

  /** The oldest partial result, advanced by its stride, takes the next word. */
  lemma {:induction false} Rotate(t: Tables, c0: bv32, c1: bv32, c2: bv32, c3: bv32, w: bv32)
    requires SourceTables(t)
    ensures Mix(c1, c2, c3, Stride(t, c0, w)) == WordStep(Mix(c0, c1, c2, c3), w)
  {
    StrideAdvances(t, c0, w);
    hide SourceTables, Zeros, IsXor, Xor, Stride, WordStep;
    var s1, r1 := WordStep(0, c0), WordStep(0, c1);
    FirstWord(c0);
    XorIs(0, s1);
    WordStepOfXor(s1, 0, s1, c1);
    WordStepOfXor(WordStep(s1, c1), r1, Zeros(4, s1), c2);
    WordStepOfXor(WordStep(WordStep(s1, c1), c2), WordStep(r1, c2), Zeros(4, Zeros(4, s1)), c3);
    SixteenZeros(c0);
    var r3 := WordStep(WordStep(r1, c2), c3);
    Regroup(Mix(c0, c1, c2, c3), r3, Zeros(16, c0), w);
    WordStepMeans(Mix(c0, c1, c2, c3), w, r3, Xor(w, Zeros(16, c0)));
  }

  lemma {:induction false} WordStepMeans(l: bv32, w: bv32, l': bv32, w': bv32)
    requires Xor(l, w) == Xor(l', w')
    ensures WordStep(l, w) == WordStep(l', w')
  {
    hide Xor, Zeros;
  }

  lemma {:induction false} FirstWord(c: bv32)
    ensures WordStep(0, c) == Zeros(4, c)
  {
    XorIs(0, c);
    hide Xor, Zeros;
  }

  // The first swath mixes the state into its first word.
  lemma {:induction false} FirstSwath(l: bv32, w: bv32)
    ensures WordStep(0, Xor(w, l)) == WordStep(l, w)
  {
    XorIs(0, Xor(w, l));
    XorIs(w, l);
    hide Xor;
    WordStepMeans(0, Xor(w, l), l, w);
  }

  // ----- the loop -----

  // STEP4W.
  method CombineWord(t: Tables, l: bv32, c: bv32) returns (w: bv32)
    requires SourceTables(t)
    ensures w == WordStep(l, c)
  {
    hide SourceTables, ZeroByte, Zeros, Xor, Low, Down;
    w := Xor(c, l);
    XorIs(c, l);
    ghost var start := w;
    NoZeros(start);
    for i := 0 to 4
      invariant w == Zeros(i, start)
    {
      TableZero(t, w);
      ghost var before := w;
      w := Xor(Down(w), t.byteTable(Low(w)));
      ZerosAdd(1, i, start);
      OneZero(before);
      AtZero(before);
    }
  }

  lemma {:induction false} AtZero(l: bv32)
    ensures At(0, l) == l
  {
  }

  lemma {:induction false} NoByte(l: bv32)
    ensures Mixed(l, 0) == l && TableIndex(l, 0) == Low(l)
  {
  }

  lemma {:induction false} TableZero(t: Tables, w: bv32)
    requires SourceTables(t)
    ensures Xor(Down(w), t.byteTable(Low(w))) == ZeroByte(w)
  {
    NoByte(w);
    TableStepXor(t, w, 0);
    hide SourceTables, ZeroByte, Low, Down, Mixed, TableIndex, TableStep, IsXor, Xor;
    TableStepIsStep(t, w, 0);
    XorIs(t.byteTable(Low(w)), Down(w));
    SameXor(TableStep(t, w, 0), Xor(t.byteTable(Low(w)), Down(w)), t.byteTable(Low(w)), Down(w));
  }

  /**
   Extend.  `address` is the address of the buffer: bytes are processed singly up to the
   first one at a multiple of four.
   */
  method Extend(t: Tables, crc: bv32, data: seq<bv8>, address: nat) returns (r: bv32)
    requires SourceTables(t)
    ensures r == Crc(crc, data)
  {
    hide SourceTables, Step, TableStep, Bytewise, Stride, WordStep, WordAt, Xor, Mix, Flip;
    var p := 0;
    var e := |data|;
    var l := Flip(crc);
    ghost var start := l;
    NoBytes(start, data);
    var x := (4 - address % 4) % 4;
    if x <= e {
      while p != x
        invariant p <= x && l == Bytewise(start, data[..p])
        decreases x - p
      {
        TableStepIsStep(t, l, data[p]);
        OneMoreByte(start, data, p);
        l := TableStep(t, l, data[p]);
        p := p + 1;
      }
    }
    if e - p >= 16 {
      var crc0 := Xor(WordAt(data, p), l);
      var crc1 := WordAt(data, p + 4);
      var crc2 := WordAt(data, p + 8);
      var crc3 := WordAt(data, p + 12);
      SwathBegins(start, data, p, l);
      p := p + 16;
      while e - p >= 16
        invariant p <= e && Bytewise(start, data[..p]) == Mix(crc0, crc1, crc2, crc3)
      {
        var w0, w1, w2, w3 := WordAt(data, p), WordAt(data, p + 4), WordAt(data, p + 8), WordAt(data, p + 12);
        SwathOn(t, start, data, p, crc0, crc1, crc2, crc3);
        crc0 := Stride(t, crc0, w0);
        crc1 := Stride(t, crc1, w1);
        crc2 := Stride(t, crc2, w2);
        crc3 := Stride(t, crc3, w3);
        p := p + 16;
      }
      while e - p >= 4
        invariant p <= e && Bytewise(start, data[..p]) == Mix(crc0, crc1, crc2, crc3)
      {
        OneMoreWord(start, data, p);
        Rotate(t, crc0, crc1, crc2, crc3, WordAt(data, p));
        var tmp := Stride(t, crc0, WordAt(data, p));
        crc0 := crc1;
        crc1 := crc2;
        crc2 := crc3;
        crc3 := tmp;
        p := p + 4;
      }
      l := 0;
      l := CombineWord(t, l, crc0);
      l := CombineWord(t, l, crc1);
      l := CombineWord(t, l, crc2);
      l := CombineWord(t, l, crc3);
      MixMeans(crc0, crc1, crc2, crc3);
    }
    while p != e
      invariant p <= e && l == Bytewise(start, data[..p])
      decreases e - p
    {
      TableStepIsStep(t, l, data[p]);
      OneMoreByte(start, data, p);
      l := TableStep(t, l, data[p]);
      p := p + 1;
    }
    assert data[..e] == data;
    r := Flip(l);
  }

  lemma {:induction false} NoBytes(l: bv32, data: seq<bv8>)
    ensures Bytewise(l, data[..0]) == l
  {
  }

  lemma {:induction false} MixMeans(c0: bv32, c1: bv32, c2: bv32, c3: bv32)
    ensures Mix(c0, c1, c2, c3) == WordStep(WordStep(WordStep(WordStep(0, c0), c1), c2), c3)
  {
    hide WordStep;
  }

  lemma {:induction false} SwathBegins(start: bv32, data: seq<bv8>, p: nat, l: bv32)
    requires p + 16 <= |data| && l == Bytewise(start, data[..p])
    ensures Bytewise(start, data[..p + 16])
         == Mix(Xor(WordAt(data, p), l), WordAt(data, p + 4), WordAt(data, p + 8), WordAt(data, p + 12))
  {
    hide Bytewise, WordStep, Word, Xor;
    OneMoreWord(start, data, p);
    OneMoreWord(start, data, p + 4);
    OneMoreWord(start, data, p + 8);
    OneMoreWord(start, data, p + 12);
    FirstSwath(l, WordAt(data, p));
  }

  // STEP16.
  lemma {:induction false} SwathOn(t: Tables, start: bv32, data: seq<bv8>, p: nat, c0: bv32, c1: bv32, c2: bv32, c3: bv32)
    requires SourceTables(t) && p + 16 <= |data| && Bytewise(start, data[..p]) == Mix(c0, c1, c2, c3)
    ensures Bytewise(start, data[..p + 16])
         == Mix(Stride(t, c0, WordAt(data, p)), Stride(t, c1, WordAt(data, p + 4)),
                Stride(t, c2, WordAt(data, p + 8)), Stride(t, c3, WordAt(data, p + 12)))
  {
    hide SourceTables, Bytewise, WordStep, Word, Stride, Mix;
    var w0, w1, w2, w3 := WordAt(data, p), WordAt(data, p + 4), WordAt(data, p + 8), WordAt(data, p + 12);
    OneMoreWord(start, data, p);
    OneMoreWord(start, data, p + 4);
    OneMoreWord(start, data, p + 8);
    OneMoreWord(start, data, p + 12);
    Rotate(t, c0, c1, c2, c3, w0);
    Rotate(t, c1, c2, c3, Stride(t, c0, w0), w1);
    Rotate(t, c2, c3, Stride(t, c0, w0), Stride(t, c1, w1), w2);
    Rotate(t, c3, Stride(t, c0, w0), Stride(t, c1, w1), Stride(t, c2, w2), w3);
  }

  /** Checksums extend: the checksum of a whole is that of its end, continued from its start. */
  lemma {:induction false} ExtendConcatenates(crc: bv32, a: seq<bv8>, b: seq<bv8>)
    ensures Crc(Crc(crc, a), b) == Crc(crc, a + b)
  {
    hide Bytewise, Flip;
    BytewiseAppends(Flip(crc), a, b);
    FlipTwice(Bytewise(Flip(crc), a));
  }

  lemma {:induction false} FlipTwice(l: bv32)
    ensures Flip(Flip(l)) == l
  {
  }

  // ----- masking -----

  function RotateRight15(c: bv32): bv32 {
    (c >> 15) | (c << 17)
  }

  function RotateRight17(c: bv32): bv32 {
    (c >> 17) | (c << 15)
  }

  function PlusDelta(c: bv32): bv32 {
    c + MASK_DELTA
  }

  function MinusDelta(c: bv32): bv32 {
    c - MASK_DELTA
  }

  function Mask(crc: bv32): bv32 {
    PlusDelta(RotateRight15(crc))
  }

  function Unmask(masked: bv32): bv32 {
    RotateRight17(MinusDelta(masked))
  }

  lemma {:induction false} RotationsCancel(c: bv32)
    ensures RotateRight17(RotateRight15(c)) == c && RotateRight15(RotateRight17(c)) == c
  {
  }

  lemma {:induction false} DeltaCancels(c: bv32)
    ensures MinusDelta(PlusDelta(c)) == c && PlusDelta(MinusDelta(c)) == c
  {
  }

  /** Masking loses nothing, in either direction. */
  lemma {:induction false} MaskRoundTrip(c: bv32)
    ensures Unmask(Mask(c)) == c && Mask(Unmask(c)) == c
  {
    hide RotateRight15, RotateRight17, PlusDelta, MinusDelta;
    RotationsCancel(c);
    DeltaCancels(RotateRight15(c));
    RotationsCancel(MinusDelta(c));
    DeltaCancels(c);
  }
}
