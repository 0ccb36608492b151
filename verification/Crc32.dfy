/** The branch-free CRC of components/asic/bzm_bridge_update.c against the polynomial-division
    definition of the CRC-32 in section 3.2.9 of IEEE 802.3. */
module Crc32 {
  import opened Bytes

  // ----- The definition by long division -----

  /** Polynomials over GF(2): coefficients from the highest power down. */
  type Bits = seq<bool>

  /** The powers of the generator below its leading x^32. */
  const GENERATOR_POWERS: set<int> := {26, 23, 22, 16, 12, 11, 10, 8, 7, 5, 4, 2, 1, 0}

  function Generator(): (g: Bits)
    ensures |g| == 32
  {
    seq(32, i => 31 - i in GENERATOR_POWERS)
  }

  function Zeros(n: nat): (z: Bits)
    ensures |z| == n
  {
    seq(n, _ => false)
  }

  function Ones(n: nat): (z: Bits)
    ensures |z| == n
  {
    seq(n, _ => true)
  }

  function Xor(a: Bits, b: Bits): (c: Bits)
    requires |a| == |b|
    ensures |c| == |a|
  {
    seq(|a|, i requires 0 <= i < |a| => a[i] != b[i])
  }

  /** Schoolbook long division by the generator. */
  function Remainder(p: Bits): (r: Bits)
    requires |p| >= 32
    ensures |r| == 32
    decreases |p|
  {
    if |p| == 32 then p
    else if p[0] then Remainder(Xor(p[1..33], Generator()) + p[33..])
    else Remainder(p[1..])
  }

  function Mask(i: nat): bv32 {
    if i == 0 then 1 else Mask(i - 1) << 1
  }

  predicate Meets(x: bv32, m: bv32) {
    x & m != 0
  }

  predicate Bit(x: bv32, i: nat) {
    Meets(x, Mask(i))
  }

  /** The n low bits of a word in transmission order, least significant first. */
  function LowBits(n: nat, x: bv32): (m: Bits)
    ensures |m| == n
  {
    seq(n, i requires 0 <= i < n => Bit(x, i))
  }

  function BitsOf(bytes: seq<byte>): (m: Bits)
    ensures |m| == 8 * |bytes|
  {
    if bytes == [] then [] else LowBits(8, bytes[0] as bv32) + BitsOf(bytes[1..])
  }

  /** The frame check sequence: complement the first 32 bits of M(x) * x^32, divide, complement
      the remainder. */
  function FrameCheckSequence(bytes: seq<byte>): Bits {
    var m := BitsOf(bytes) + Zeros(32);
    Xor(Ones(32), Remainder(Xor(Ones(32), m[..32]) + m[32..]))
  }

  // ----- The shift register of the source -----

  const POLYNOMIAL: bv32 := 0xedb8_8320

  /** One bit: shift towards the low end, subtract the generator when a one left. */
  function Shift(c: bv32): bv32 {
    if c & 1 == 1 then (c >> 1) ^ POLYNOMIAL else c >> 1
  }

  function Shifts(n: nat, c: bv32): bv32 {
    if n == 0 then c else Shifts(n - 1, Shift(c))
  }

  function Absorb(c: bv32, b: byte): bv32 {
    Shifts(8, c ^ (b as bv32))
  }

  function Register(c: bv32, bytes: seq<byte>): bv32
    decreases |bytes|
  {
    if bytes == [] then c else Register(Absorb(c, bytes[0]), bytes[1..])
  }

  function Crc(bytes: seq<byte>): bv32 {
    !Register(0xffff_ffff, bytes)
  }

  /** The source's inner step: the polynomial is selected with a mask instead of a branch. */
  function MaskedShift(c: bv32): bv32 {
    (c >> 1) ^ (0xedb8_8320 & (0 - (c & 1)))
  }

  lemma MaskedShiftIsShift(c: bv32)
    ensures MaskedShift(c) == Shift(c)
  {
    if c & 1 == 1 {
      assert 0 - (c & 1) == 0xffff_ffff;
      assert 0xedb8_8320 & (0xffff_ffff as bv32) == 0xedb8_8320;
    } else {
      assert c & 1 == 0;
    }
  }

  method FeedByte(crc: bv32, b: byte) returns (next: bv32)
    ensures next == Absorb(crc, b)
  {
    hide MaskedShift, Shift;
    next := crc ^ (b as bv32);
    for bit := 0 to 8
      invariant Shifts(8 - bit, next) == Absorb(crc, b)
    {
      MaskedShiftIsShift(next);
      next := MaskedShift(next);
    }
  }

  /** The source's double loop; the inner one is FeedByte. */
  method ManifestCrc32(bytes: seq<byte>) returns (result: bv32)
    ensures result == Crc(bytes)
  {
    hide Absorb;
    var crc: bv32 := 0xffff_ffff;
    for index := 0 to |bytes|
      invariant Register(crc, bytes[index..]) == Register(0xffff_ffff, bytes)
    {
      assert bytes[index..][1..] == bytes[index + 1..];
      crc := FeedByte(crc, bytes[index]);
    }
    result := !crc;
  }

  // ----- The register as a polynomial -----

  /** The register's low bit is its highest power. */
  function Coefficients(c: bv32): (r: Bits)
    ensures |r| == 32
  {
    LowBits(32, c)
  }

  function ShiftBits(r: Bits): (s: Bits)
    requires |r| == 32
    ensures |s| == 32
  {
    if r[0] then Xor(r[1..] + [false], Generator()) else r[1..] + [false]
  }

  function ShiftsBits(n: nat, r: Bits): (s: Bits)
    requires |r| == 32
    ensures |s| == 32
  {
    if n == 0 then r else ShiftsBits(n - 1, ShiftBits(r))
  }

  lemma MaskValues()
    ensures Mask(0) == 0x1 && Mask(1) == 0x2 && Mask(2) == 0x4 && Mask(3) == 0x8
    ensures Mask(4) == 0x10 && Mask(5) == 0x20 && Mask(6) == 0x40 && Mask(7) == 0x80
    ensures Mask(8) == 0x100 && Mask(9) == 0x200 && Mask(10) == 0x400 && Mask(11) == 0x800
    ensures Mask(12) == 0x1000 && Mask(13) == 0x2000 && Mask(14) == 0x4000 && Mask(15) == 0x8000
    ensures Mask(16) == 0x10000 && Mask(17) == 0x20000 && Mask(18) == 0x40000 && Mask(19) == 0x80000
    ensures Mask(20) == 0x100000 && Mask(21) == 0x200000 && Mask(22) == 0x400000 && Mask(23) == 0x800000
    ensures Mask(24) == 0x1000000 && Mask(25) == 0x2000000 && Mask(26) == 0x4000000 && Mask(27) == 0x8000000
    ensures Mask(28) == 0x10000000 && Mask(29) == 0x20000000 && Mask(30) == 0x40000000 && Mask(31) == 0x80000000
  {
    assert Mask(0) == 0x1; assert Mask(1) == 0x2; assert Mask(2) == 0x4;
    assert Mask(3) == 0x8; assert Mask(4) == 0x10; assert Mask(5) == 0x20;
    assert Mask(6) == 0x40; assert Mask(7) == 0x80; assert Mask(8) == 0x100;
    assert Mask(9) == 0x200; assert Mask(10) == 0x400; assert Mask(11) == 0x800;
    assert Mask(12) == 0x1000; assert Mask(13) == 0x2000; assert Mask(14) == 0x4000;
    assert Mask(15) == 0x8000; assert Mask(16) == 0x10000; assert Mask(17) == 0x20000;
    assert Mask(18) == 0x40000; assert Mask(19) == 0x80000; assert Mask(20) == 0x100000;
    assert Mask(21) == 0x200000; assert Mask(22) == 0x400000; assert Mask(23) == 0x800000;
    assert Mask(24) == 0x1000000; assert Mask(25) == 0x2000000; assert Mask(26) == 0x4000000;
    assert Mask(27) == 0x8000000; assert Mask(28) == 0x10000000; assert Mask(29) == 0x20000000;
    assert Mask(30) == 0x40000000; assert Mask(31) == 0x80000000;
  }

  lemma {:induction false} MaskIsOneBit(i: nat)
    ensures Mask(i) & (Mask(i) - 1) == 0
  {
    if i > 0 {
      MaskIsOneBit(i - 1);
      DoubleIsOneBit(Mask(i - 1));
    }
  }

  lemma DoubleIsOneBit(m: bv32)
    requires m & (m - 1) == 0
    ensures (m << 1) & ((m << 1) - 1) == 0
  {
  }

  lemma {:induction false} MaskIsNonzero(i: nat)
    requires i < 32
    ensures Mask(i) != 0
    decreases 31 - i
  {
    if i == 31 {
      MaskValues();
    } else {
      MaskIsNonzero(i + 1);
    }
  }

  /** Below the last index a mask can still be shifted up. */
  lemma MaskBelowTop(i: nat)
    requires i < 31
    ensures Mask(i) & 0x8000_0000 == 0
  {
    MaskIsOneBit(i);
    MaskIsNonzero(i + 1);
    DoubleOfTop(Mask(i));
  }

  lemma DoubleOfTop(m: bv32)
    requires m & (m - 1) == 0 && m << 1 != 0
    ensures m & 0x8000_0000 == 0
  {
  }

  lemma PolynomialIsGenerator()
    ensures Coefficients(POLYNOMIAL) == Generator()
  {
    MaskValues();
    hide Mask;
    forall i: nat | i < 32
      ensures Bit(POLYNOMIAL, i) <==> 31 - i in GENERATOR_POWERS
    {
    }
  }

  lemma MaskDoubles(i: nat)
    ensures Mask(i + 1) == Mask(i) << 1
  {
  }

  lemma HalfMask(c: bv32, m: bv32, double: bv32)
    requires m & 0x8000_0000 == 0 && double == m << 1
    ensures Meets(c >> 1, m) <==> Meets(c, double)
  {
    assert ((c >> 1) & m) << 1 == c & (m << 1);
  }

  lemma HalfBit(c: bv32, i: nat)
    requires i < 31
    ensures Bit(c >> 1, i) <==> Bit(c, i + 1)
  {
    hide Mask, Meets;
    MaskDoubles(i);
    MaskBelowTop(i);
    HalfMask(c, Mask(i), Mask(i + 1));
  }

  lemma HalfTop(c: bv32)
    ensures !Bit(c >> 1, 31)
  {
    MaskValues();
    assert (c >> 1) & 0x8000_0000 == 0;
  }

  lemma CoefficientsHalf(c: bv32)
    ensures Coefficients(c >> 1) == Coefficients(c)[1..] + [false]
  {
    hide Bit;
    forall i: nat | i < 32
      ensures Coefficients(c >> 1)[i] == (Coefficients(c)[1..] + [false])[i]
    {
      if i < 31 {
        HalfBit(c, i);
      } else {
        HalfTop(c);
      }
    }
  }

  lemma OneBit(x: bv32, m: bv32)
    requires m & (m - 1) == 0
    ensures x & m == 0 || x & m == m
  {
  }

  lemma XorMask(a: bv32, b: bv32, m: bv32)
    requires m & (m - 1) == 0
    ensures Meets(a ^ b, m) <==> Meets(a, m) != Meets(b, m)
  {
    assert (a ^ b) & m == (a & m) ^ (b & m);
    OneBit(a, m);
    OneBit(b, m);
  }

  lemma XorBit(a: bv32, b: bv32, i: nat)
    ensures Bit(a ^ b, i) <==> Bit(a, i) != Bit(b, i)
  {
    hide Mask, Meets;
    MaskIsOneBit(i);
    XorMask(a, b, Mask(i));
  }

  lemma CoefficientsXor(a: bv32, b: bv32)
    ensures Coefficients(a ^ b) == Xor(Coefficients(a), Coefficients(b))
  {
    hide Bit;
    forall i: nat | i < 32
      ensures Coefficients(a ^ b)[i] == Xor(Coefficients(a), Coefficients(b))[i]
    {
      XorBit(a, b, i);
    }
  }

  lemma LowBit(c: bv32)
    ensures Coefficients(c)[0] <==> c & 1 == 1
  {
    assert c & 1 == 0 || c & 1 == 1;
  }

  lemma CoefficientsShift(c: bv32)
    ensures Coefficients(Shift(c)) == ShiftBits(Coefficients(c))
  {
    LowBit(c);
    CoefficientsHalf(c);
    CoefficientsXor(c >> 1, POLYNOMIAL);
    PolynomialIsGenerator();
    hide Coefficients;
  }

  lemma {:induction false} CoefficientsShifts(n: nat, c: bv32)
    ensures Coefficients(Shifts(n, c)) == ShiftsBits(n, Coefficients(c))
  {
    if n > 0 {
      CoefficientsShift(c);
      hide Shift, Coefficients;
      CoefficientsShifts(n - 1, Shift(c));
    }
  }

  lemma CoefficientsOfByte(b: byte)
    ensures Coefficients(b as bv32) == LowBits(8, b as bv32) + Zeros(24)
  {
    MaskValues();
    hide Mask;
    var x := b as bv32;
    assert x & 0xff == x;
    forall i: nat | 8 <= i < 32
      ensures !Bit(x, i)
    {
      assert Mask(i) & 0xff == 0;
      Disjoint(x, Mask(i));
    }
  }

  lemma Disjoint(x: bv32, m: bv32)
    requires x & 0xff == x && m & 0xff == 0
    ensures x & m == 0
  {
  }

  lemma CoefficientsOfOnes()
    ensures Coefficients(0xffff_ffff) == Ones(32)
  {
    hide Mask;
    forall i: nat | i < 32
      ensures Coefficients(0xffff_ffff)[i]
    {
      MaskIsNonzero(i);
      assert (0xffff_ffff as bv32) & Mask(i) == Mask(i);
    }
  }

  // ----- Feeding bits -----

  function FeedBit(r: Bits, b: bool): (s: Bits)
    requires |r| == 32
    ensures |s| == 32
  {
    ShiftBits([r[0] != b] + r[1..])
  }

  function FeedBits(r: Bits, bits: Bits): (s: Bits)
    requires |r| == 32
    ensures |s| == 32
    decreases |bits|
  {
    if bits == [] then r else FeedBits(FeedBit(r, bits[0]), bits[1..])
  }

  lemma {:induction false} FeedBitsAppend(r: Bits, a: Bits, b: Bits)
    requires |r| == 32
    ensures FeedBits(r, a + b) == FeedBits(FeedBits(r, a), b)
    decreases |a|
  {
    if a == [] {
      assert a + b == b;
    } else {
      assert (a + b)[1..] == a[1..] + b;
      FeedBitsAppend(FeedBit(r, a[0]), a[1..], b);
    }
  }

  /** Up to 32 bits may be xored into the register at once and then shifted through. */
  lemma {:induction false} FeedAtOnce(r: Bits, bits: Bits)
    requires |r| == 32 && |bits| <= 32
    ensures FeedBits(r, bits) == ShiftsBits(|bits|, Xor(r, bits + Zeros(32 - |bits|)))
    decreases |bits|
  {
    var padded := bits + Zeros(32 - |bits|);
    if bits == [] {
      assert Xor(r, padded) == r;
    } else {
      FeedOneOfMany(r, padded);
      FeedAtOnce(FeedBit(r, bits[0]), bits[1..]);
      assert bits[1..] + Zeros(33 - |bits|) == padded[1..] + [false];
    }
  }

  lemma FeedOneOfMany(r: Bits, m: Bits)
    requires |r| == |m| == 32
    ensures ShiftBits(Xor(r, m)) == Xor(FeedBit(r, m[0]), m[1..] + [false])
  {
    assert ([r[0] != m[0]] + r[1..])[1..] == r[1..];
    assert Xor(r, m)[1..] + [false] == Xor(r[1..] + [false], m[1..] + [false]);
  }

  lemma ByteFeedsBits(c: bv32, b: byte)
    ensures Coefficients(Absorb(c, b)) == FeedBits(Coefficients(c), LowBits(8, b as bv32))
  {
    hide Coefficients, Shifts, LowBits, ShiftsBits;
    CoefficientsXor(c, b as bv32);
    CoefficientsOfByte(b);
    CoefficientsShifts(8, c ^ (b as bv32));
    FeedAtOnce(Coefficients(c), LowBits(8, b as bv32));
  }

  lemma {:induction false} RegisterFeedsBits(c: bv32, bytes: seq<byte>)
    ensures Coefficients(Register(c, bytes)) == FeedBits(Coefficients(c), BitsOf(bytes))
    decreases |bytes|
  {
    hide Absorb, Coefficients, LowBits;
    if bytes != [] {
      ByteFeedsBits(c, bytes[0]);
      RegisterFeedsBits(Absorb(c, bytes[0]), bytes[1..]);
      FeedBitsAppend(Coefficients(c), LowBits(8, bytes[0] as bv32), BitsOf(bytes[1..]));
    }
  }

  // ----- The register is the remainder of the division -----

  /** Sliding the 32-coefficient window one bit along the dividend is one register step. */
  lemma DivisionStep(r: Bits, m: Bits)
    requires |r| == 32 && |m| >= 33
    ensures Remainder(Xor(r, m[..32]) + m[32..]) == Remainder(Xor(FeedBit(r, m[0]), m[1..33]) + m[33..])
  {
    var p := Xor(r, m[..32]) + m[32..];
    var shifted := r[1..] + [false];
    assert p[1..33] == Xor(shifted, m[1..33]);
    assert p[33..] == m[33..];
    assert ([r[0] != m[0]] + r[1..])[1..] == r[1..];
    if p[0] {
      assert Xor(p[1..33], Generator()) == Xor(FeedBit(r, m[0]), m[1..33]);
    } else {
      assert p[1..] == Xor(FeedBit(r, m[0]), m[1..33]) + m[33..];
    }
  }

  lemma TailOfAppend(bits: Bits, more: Bits)
    requires bits != []
    ensures (bits + more)[1..] == bits[1..] + more
  {
  }

  lemma {:induction false} RegisterIsRemainder(r: Bits, bits: Bits)
    requires |r| == 32
    ensures var m := bits + Zeros(32);
            Remainder(Xor(r, m[..32]) + m[32..]) == FeedBits(r, bits)
    decreases |bits|
  {
    var m := bits + Zeros(32);
    if bits == [] {
      assert Xor(r, m[..32]) + m[32..] == r;
    } else {
      DivisionStep(r, m);
      RegisterIsRemainder(FeedBit(r, bits[0]), bits[1..]);
      TailOfAppend(bits, Zeros(32));
      assert m[1..][..32] == m[1..33];
      assert m[1..][32..] == m[33..];
    }
  }

  /** The source's loop computes the frame check sequence of the standard, for every input. */
  lemma CrcIsFrameCheckSequence(bytes: seq<byte>)
    ensures Coefficients(Crc(bytes)) == FrameCheckSequence(bytes)
  {
    hide Coefficients, Register;
    var r := Register(0xffff_ffff, bytes);
    CoefficientsOfOnes();
    RegisterFeedsBits(0xffff_ffff, bytes);
    RegisterIsRemainder(Ones(32), BitsOf(bytes));
    CoefficientsXor(0xffff_ffff, r);
    assert !r == (0xffff_ffff as bv32) ^ r;
  }

  // ----- What the check detects -----

  /** One step loses nothing: the last coefficient tells what was shifted out. */
  lemma ShiftIsInjective(a: Bits, b: Bits)
    requires |a| == |b| == 32 && ShiftBits(a) == ShiftBits(b)
    ensures a == b
  {
    assert ShiftBits(a)[31] == a[0] && ShiftBits(b)[31] == b[0];
    forall i | 0 < i < 32
      ensures a[i] == b[i]
    {
      assert ShiftBits(a)[i - 1] == (if a[0] then a[i] != Generator()[i - 1] else a[i]);
      assert ShiftBits(b)[i - 1] == (if b[0] then b[i] != Generator()[i - 1] else b[i]);
    }
  }

  lemma {:induction false} ShiftsIsInjective(n: nat, a: Bits, b: Bits)
    requires |a| == |b| == 32 && ShiftsBits(n, a) == ShiftsBits(n, b)
    ensures a == b
  {
    hide ShiftBits;
    if n > 0 {
      ShiftsIsInjective(n - 1, ShiftBits(a), ShiftBits(b));
      ShiftIsInjective(a, b);
    }
  }

  /** After different register values no common continuation can bring the registers together. */
  lemma {:induction false} FeedIsInjective(a: Bits, b: Bits, bits: Bits)
    requires |a| == |b| == 32 && FeedBits(a, bits) == FeedBits(b, bits)
    ensures a == b
    decreases |bits|
  {
    if bits != [] {
      FeedIsInjective(FeedBit(a, bits[0]), FeedBit(b, bits[0]), bits[1..]);
      var a', b' := [a[0] != bits[0]] + a[1..], [b[0] != bits[0]] + b[1..];
      ShiftIsInjective(a', b');
      assert a'[0] == b'[0];
      assert a == [a[0]] + a'[1..] && b == [b[0]] + b'[1..];
    }
  }

  lemma XorIsInjective(r: Bits, x: Bits, y: Bits)
    requires |r| == |x| == |y| && Xor(r, x) == Xor(r, y)
    ensures x == y
  {
    forall i | 0 <= i < |x|
      ensures x[i] == y[i]
    {
      assert Xor(r, x)[i] == (r[i] != x[i]) && Xor(r, y)[i] == (r[i] != y[i]);
    }
  }

  lemma {:induction false} BitsOfAppend(a: seq<byte>, b: seq<byte>)
    ensures BitsOf(a + b) == BitsOf(a) + BitsOf(b)
    decreases |a|
  {
    hide LowBits;
    if a == [] {
      assert a + b == b;
    } else {
      assert (a + b)[1..] == a[1..] + b;
      BitsOfAppend(a[1..], b);
      assert BitsOf(a + b) == LowBits(8, a[0] as bv32) + (BitsOf(a[1..]) + BitsOf(b));
    }
  }

  lemma {:induction false} BitsOfIsInjective(a: seq<byte>, b: seq<byte>)
    requires |a| == |b| && BitsOf(a) == BitsOf(b)
    ensures a == b
    decreases |a|
  {
    if a != [] {
      hide LowBits;
      assert LowBits(8, a[0] as bv32) == BitsOf(a)[..8] && LowBits(8, b[0] as bv32) == BitsOf(b)[..8];
      assert BitsOf(a[1..]) == BitsOf(a)[8..] && BitsOf(b[1..]) == BitsOf(b)[8..];
      BitsOfIsInjective(a[1..], b[1..]);
      ByteIsItsBits(a[0], b[0]);
    }
  }

  lemma ByteIsItsBits(a: byte, b: byte)
    requires LowBits(8, a as bv32) == LowBits(8, b as bv32)
    ensures a == b
  {
    var x, y := a as bv32, b as bv32;
    MaskValues();
    hide Mask, Meets;
    assert forall i: nat :: i < 8 ==> LowBits(8, x)[i] == LowBits(8, y)[i] && Bit(x, i) == Bit(y, i);
    assert Bit(x, 0) == Bit(y, 0) && Bit(x, 1) == Bit(y, 1) && Bit(x, 2) == Bit(y, 2) && Bit(x, 3) == Bit(y, 3);
    assert Bit(x, 4) == Bit(y, 4) && Bit(x, 5) == Bit(y, 5) && Bit(x, 6) == Bit(y, 6) && Bit(x, 7) == Bit(y, 7);
    SameByte(a, b);
  }

  lemma SameByte(a: byte, b: byte)
    requires var x, y := a as bv32, b as bv32;
             && Meets(x, 0x1) == Meets(y, 0x1) && Meets(x, 0x2) == Meets(y, 0x2)
             && Meets(x, 0x4) == Meets(y, 0x4) && Meets(x, 0x8) == Meets(y, 0x8)
             && Meets(x, 0x10) == Meets(y, 0x10) && Meets(x, 0x20) == Meets(y, 0x20)
             && Meets(x, 0x40) == Meets(y, 0x40) && Meets(x, 0x80) == Meets(y, 0x80)
    ensures a == b
  {
  }

  /** Any two inputs of one length that differ only inside a window of at most four consecutive
      bytes have different check values. */
  lemma BurstIsDetected(before: seq<byte>, x: seq<byte>, y: seq<byte>, after: seq<byte>)
    requires |x| == |y| <= 4 && x != y
    ensures Crc(before + x + after) != Crc(before + y + after)
  {
    hide Register, FeedBits, BitsOf, Coefficients;
    if Crc(before + x + after) == Crc(before + y + after) {
      CheckTracksFeed(before, x, after);
      CheckTracksFeed(before, y, after);
      var r := FeedBits(Coefficients(0xffff_ffff), BitsOf(before));
      FeedIsInjective(FeedBits(r, BitsOf(x)), FeedBits(r, BitsOf(y)), BitsOf(after));
      WindowIsInjective(r, BitsOf(x), BitsOf(y));
      BitsOfIsInjective(x, y);
    }
  }

  lemma CheckTracksFeed(before: seq<byte>, x: seq<byte>, after: seq<byte>)
    ensures Coefficients(!Crc(before + x + after))
         == FeedBits(FeedBits(FeedBits(Coefficients(0xffff_ffff), BitsOf(before)), BitsOf(x)), BitsOf(after))
  {
    hide Register, FeedBits, BitsOf, Coefficients;
    var r := Coefficients(0xffff_ffff);
    RegisterFeedsBits(0xffff_ffff, before + x + after);
    BitsOfAppend(before + x, after);
    BitsOfAppend(before, x);
    FeedBitsAppend(r, BitsOf(before) + BitsOf(x), BitsOf(after));
    FeedBitsAppend(r, BitsOf(before), BitsOf(x));
    var c := Register(0xffff_ffff, before + x + after);
    assert !!c == c;
  }

  lemma WindowIsInjective(r: Bits, x: Bits, y: Bits)
    requires |r| == 32 && |x| == |y| <= 32 && FeedBits(r, x) == FeedBits(r, y)
    ensures x == y
  {
    FeedAtOnce(r, x);
    FeedAtOnce(r, y);
    var padding := Zeros(32 - |x|);
    ShiftsIsInjective(|x|, Xor(r, x + padding), Xor(r, y + padding));
    XorIsInjective(r, x + padding, y + padding);
    assert x == (x + padding)[..|x|] && y == (y + padding)[..|x|];
  }
}
