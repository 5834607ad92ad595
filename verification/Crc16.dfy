// The reflected CRC-16 (MCRF4XX) that guards a v3 tag's SRAM window. The code
// works on integers; the proofs read a register as a vector of sixteen bits.

module Crc16 {
  import opened Bits

  const INITIAL: nat := 0xFFFF
  const POLYNOMIAL: nat := 0x8408

  type reg = x: nat | x < 0x1_0000

  function Xor16(a: nat, b: nat): reg {
    Pow2Of16();
    Xor(a, b, 16)
  }

  lemma Pow2Of16()
    ensures Pow2(8) == 0x100 && Pow2(15) == 0x8000 && Pow2(16) == 0x1_0000
  {
    assert Pow2(7) == 0x80 && Pow2(8) == 0x100;
    Pow2Add(8, 8);
    Pow2Add(7, 8);
  }

  /** One round of the inner loop. */
  function Shift(crc: reg): reg {
    if crc % 2 == 1 then Xor16(crc / 2, POLYNOMIAL) else crc / 2
  }

  function Shifts(crc: reg, n: nat): reg
    decreases n
  {
    if n == 0 then crc else Shifts(Shift(crc), n - 1)
  }

  function ByteStep(crc: reg, b: byte): reg {
    Shifts(Xor16(crc, b), 8)
  }

  function CrcFrom(crc: reg, data: seq<byte>): reg
    decreases |data|
  {
    if data == [] then crc else CrcFrom(ByteStep(crc, data[0]), data[1..])
  }

  function Crc(data: seq<byte>): reg {
    CrcFrom(INITIAL, data)
  }

  lemma {:induction false} CrcFromConcat(crc: reg, a: seq<byte>, b: seq<byte>)
    ensures CrcFrom(crc, a + b) == CrcFrom(CrcFrom(crc, a), b)
    decreases |a|
  {
    if a == [] {
      assert a + b == b;
    } else {
      assert (a + b)[1..] == a[1..] + b;
      CrcFromConcat(ByteStep(crc, a[0]), a[1..], b);
    }
  }

  lemma {:induction false} ShiftsLast(crc: reg, n: nat)
    ensures Shifts(crc, n + 1) == Shift(Shifts(crc, n))
    decreases n
  {
    if n != 0 {
      ShiftsLast(Shift(crc), n - 1);
    }
  }

  method Compute(data: seq<byte>) returns (crc: reg)
    ensures crc == Crc(data)
  {
    crc := INITIAL;
    for i := 0 to |data|
      invariant crc == CrcFrom(INITIAL, data[..i])
    {
      ghost var before := crc;
      crc := Xor16(crc, data[i]);
      for k := 0 to 8
        invariant crc == Shifts(Xor16(before, data[i]), k)
      {
        ShiftsLast(Xor16(before, data[i]), k);
        crc := if crc % 2 == 1 then Xor16(crc / 2, POLYNOMIAL) else crc / 2;
      }
      CrcFromConcat(INITIAL, data[..i], [data[i]]);
      assert CrcFrom(before, [data[i]]) == CrcFrom(crc, []);
      assert data[..i + 1] == data[..i] + [data[i]];
    }
    assert data[..|data|] == data;
  }

  // ---- The register as a vector of bits -------------------------------------------

  type vec = r: seq<bool> | |r| == 16
    witness [false, false, false, false, false, false, false, false,
             false, false, false, false, false, false, false, false]

  const ZERO: vec :=
    [false, false, false, false, false, false, false, false, false, false, false, false, false, false, false, false]

  function Vec(crc: nat): vec {
    FromNat(crc, 16)
  }

  lemma VecInjective(a: reg, b: reg)
    requires Vec(a) == Vec(b)
    ensures a == b
  {
    Pow2Of16();
    FromNatInjective(a, b, 16);
  }

  lemma VecXor(a: nat, b: nat)
    ensures Vec(Xor16(a, b)) == XorBits(Vec(a), Vec(b))
  {
    XorIsBitwise(a, b, 16);
  }

  lemma PolynomialTop()
    ensures Vec(POLYNOMIAL)[15]
  {
    Pow2Of16();
    TopBitSet(POLYNOMIAL);
  }

  lemma TopBitSet(n: nat)
    requires Pow2(15) == 0x8000 && 0x8000 <= n < 0x1_0000
    ensures Vec(n)[15]
  {
    FromNatBit(n, 16, 15);
    assert n / 0x8000 == 1;
  }

  /** Shift down; when a one falls out, add the feedback taps. */
  function ShiftWith(r: vec, taps: vec): vec {
    seq(16, i requires 0 <= i < 16 => (i < 15 && r[i + 1]) != (r[0] && taps[i]))
  }

  function VecShift(r: vec): vec {
    ShiftWith(r, Vec(POLYNOMIAL))
  }

  function ShiftsWith(r: vec, taps: vec, n: nat): vec
    decreases n
  {
    if n == 0 then r else ShiftsWith(ShiftWith(r, taps), taps, n - 1)
  }

  function VecShifts(r: vec, n: nat): vec {
    ShiftsWith(r, Vec(POLYNOMIAL), n)
  }

  lemma ShiftWithXor(r: vec, taps: vec, half: vec)
    requires r[1..] + [false] == half
    ensures ShiftWith(r, taps) == if r[0] then XorBits(half, taps) else half
  {
    assert forall i :: 0 <= i < 16 ==> half[i] == (i < 15 && r[i + 1]);
  }

  lemma ShiftIsVecShift(crc: reg)
    ensures Vec(Shift(crc)) == VecShift(Vec(crc))
  {
    Pow2Of16();
    FromNatPad(crc / 2, 15, 1);
    assert Vec(crc) == [crc % 2 == 1] + FromNat(crc / 2, 15);
    assert Vec(crc)[1..] + [false] == Vec(crc / 2);
    VecXor(crc / 2, POLYNOMIAL);
    ShiftWithXor(Vec(crc), Vec(POLYNOMIAL), Vec(crc / 2));
  }

  lemma {:induction false} ShiftsAreVecShifts(crc: reg, n: nat)
    ensures Vec(Shifts(crc, n)) == VecShifts(Vec(crc), n)
    decreases n
  {
    if n != 0 {
      ShiftIsVecShift(crc);
      ShiftsAreVecShifts(Shift(crc), n - 1);
    }
  }

  // ---- A linear, invertible machine ----------------------------------------------

  lemma ShiftWithLinear(a: vec, b: vec, taps: vec)
    ensures ShiftWith(XorBits(a, b), taps) == XorBits(ShiftWith(a, taps), ShiftWith(b, taps))
  {
  }

  lemma {:induction false} ShiftsWithLinear(a: vec, b: vec, taps: vec, n: nat)
    ensures ShiftsWith(XorBits(a, b), taps, n) == XorBits(ShiftsWith(a, taps, n), ShiftsWith(b, taps, n))
    decreases n
  {
    if n != 0 {
      ShiftWithLinear(a, b, taps);
      ShiftsWithLinear(ShiftWith(a, taps), ShiftWith(b, taps), taps, n - 1);
    }
  }

  /** With a tap at the top, the top bit after a shift is the bit that fell out. */
  function UnshiftWith(r: vec, taps: vec): vec {
    seq(16, i requires 0 <= i < 16 => if i == 0 then r[15] else r[i - 1] != (r[15] && taps[i - 1]))
  }

  function VecUnshift(r: vec): vec {
    UnshiftWith(r, Vec(POLYNOMIAL))
  }

  lemma ShiftWithBijective(r: vec, taps: vec)
    requires taps[15]
    ensures UnshiftWith(ShiftWith(r, taps), taps) == r && ShiftWith(UnshiftWith(r, taps), taps) == r
  {
    var s, u := ShiftWith(r, taps), UnshiftWith(r, taps);
    assert s[15] == r[0] && u[0] == r[15];
    assert UnshiftWith(s, taps) == r;
    assert ShiftWith(u, taps) == r;
  }

  lemma VecShiftBijective(r: vec)
    ensures VecUnshift(VecShift(r)) == r && VecShift(VecUnshift(r)) == r
  {
    PolynomialTop();
    ShiftWithBijective(r, Vec(POLYNOMIAL));
  }

  lemma ShiftInjective(a: reg, b: reg)
    requires Shift(a) == Shift(b)
    ensures a == b
  {
    ShiftIsVecShift(a);
    ShiftIsVecShift(b);
    VecShiftBijective(Vec(a));
    VecShiftBijective(Vec(b));
    VecInjective(a, b);
  }

  lemma ShiftOnto(a: reg) returns (p: reg)
    ensures Shift(p) == a
  {
    var u := VecUnshift(Vec(a));
    Pow2Of16();
    ToNatBound(u);
    FromToNat(u);
    p := ToNat(u);
    ShiftIsVecShift(p);
    VecShiftBijective(Vec(a));
    VecInjective(Shift(p), a);
  }

  /** One shift permutes the 65536 register states. */
  lemma ShiftPermutes(a: reg, b: reg)
    ensures Shift(a) == Shift(b) <==> a == b
    ensures exists p: reg :: Shift(p) == a
  {
    if Shift(a) == Shift(b) {
      ShiftInjective(a, b);
    }
    var p := ShiftOnto(a);
  }

  lemma {:induction false} ShiftsWithInjective(a: vec, b: vec, taps: vec, n: nat)
    requires taps[15] && ShiftsWith(a, taps, n) == ShiftsWith(b, taps, n)
    ensures a == b
    decreases n
  {
    if n != 0 {
      ShiftsWithInjective(ShiftWith(a, taps), ShiftWith(b, taps), taps, n - 1);
      ShiftWithBijective(a, taps);
      ShiftWithBijective(b, taps);
    }
  }

  lemma VecShiftsInjective(a: vec, b: vec, n: nat)
    requires VecShifts(a, n) == VecShifts(b, n)
    ensures a == b
  {
    PolynomialTop();
    ShiftsWithInjective(a, b, Vec(POLYNOMIAL), n);
  }

  // ---- Linearity over messages ------------------------------------------------------

  function XorMessages(a: seq<byte>, b: seq<byte>): (r: seq<byte>)
    requires |a| == |b|
    ensures |r| == |a|
  {
    seq(|a|, i requires 0 <= i < |a| => XorByte(a[i], b[i]))
  }

  /** A byte, as the register sees it when it is xor-ed in. */
  lemma VecByte(b: byte)
    ensures Vec(b) == FromNat(b, 8) + seq(8, _ => false)
  {
    Pow2Of16();
    FromNatPad(b, 8, 8);
  }

  lemma VecByteXor(a: byte, b: byte)
    ensures Vec(XorByte(a, b)) == XorBits(Vec(a), Vec(b))
  {
    Pow2Of16();
    VecByte(a);
    VecByte(b);
    VecByte(Xor(a, b, 8));
    XorIsBitwise(a, b, 8);
  }

  lemma XorRegroup(a: vec, b: vec, c: vec, d: vec)
    ensures XorBits(XorBits(a, b), XorBits(c, d)) == XorBits(XorBits(a, c), XorBits(b, d))
  {
  }

  lemma ByteStepLinear(c: reg, d: reg, a: byte, b: byte)
    ensures Vec(ByteStep(Xor16(c, d), XorByte(a, b))) == XorBits(Vec(ByteStep(c, a)), Vec(ByteStep(d, b)))
  {
    Pow2Of16();
    var e := XorByte(a, b);
    ShiftsAreVecShifts(Xor16(Xor16(c, d), e), 8);
    ShiftsAreVecShifts(Xor16(c, a), 8);
    ShiftsAreVecShifts(Xor16(d, b), 8);
    VecXor(Xor16(c, d), e);
    VecXor(c, d);
    VecByteXor(a, b);
    VecXor(c, a);
    VecXor(d, b);
    XorRegroup(Vec(c), Vec(d), Vec(a), Vec(b));
    ShiftsWithLinear(Vec(Xor16(c, a)), Vec(Xor16(d, b)), Vec(POLYNOMIAL), 8);
  }

  lemma ByteStepXor(c: reg, d: reg, a: byte, b: byte)
    ensures ByteStep(Xor16(c, d), XorByte(a, b)) == Xor16(ByteStep(c, a), ByteStep(d, b))
  {
    ByteStepLinear(c, d, a, b);
    var x, y, z := ByteStep(c, a), ByteStep(d, b), ByteStep(Xor16(c, d), XorByte(a, b));
    VecXor(x, y);
    VecInjective(z, Xor16(x, y));
  }

  lemma XorMessagesTail(a: seq<byte>, b: seq<byte>)
    requires |a| == |b| > 0
    ensures XorMessages(a, b)[0] == XorByte(a[0], b[0])
    ensures XorMessages(a, b)[1..] == XorMessages(a[1..], b[1..])
  {
  }

  lemma {:induction false} CrcFromLinear(c: reg, d: reg, a: seq<byte>, b: seq<byte>)
    requires |a| == |b|
    ensures CrcFrom(Xor16(c, d), XorMessages(a, b)) == Xor16(CrcFrom(c, a), CrcFrom(d, b))
    decreases |a|
  {
    if a != [] {
      ByteStepXor(c, d, a[0], b[0]);
      XorMessagesTail(a, b);
      CrcFromLinear(ByteStep(c, a[0]), ByteStep(d, b[0]), a[1..], b[1..]);
    }
  }

  lemma XorThrice(c: reg)
    ensures Xor16(Xor16(c, c), c) == c
  {
    VecXor(c, c);
    VecXor(Xor16(c, c), c);
    assert XorBits(XorBits(Vec(c), Vec(c)), Vec(c)) == Vec(c);
    VecInjective(Xor16(Xor16(c, c), c), c);
  }

  /** The CRC is affine: the xor of three messages has the xor of their CRCs. */
  lemma CrcAffine(a: seq<byte>, b: seq<byte>, c: seq<byte>)
    requires |a| == |b| == |c|
    ensures Crc(XorMessages(XorMessages(a, b), c)) == Xor16(Xor16(Crc(a), Crc(b)), Crc(c))
  {
    CrcFromLinear(INITIAL, INITIAL, a, b);
    CrcFromLinear(Xor16(INITIAL, INITIAL), INITIAL, XorMessages(a, b), c);
    XorThrice(INITIAL);
  }

  // ---- Bit-serial processing ----------------------------------------------------------

  /** Feed one bit into the lowest place, then shift. */
  function BitStep(r: vec, bit: bool): vec {
    VecShift(Feed(r, bit))
  }

  function Feed(r: vec, bit: bool): vec {
    r[0 := r[0] != bit]
  }

  function Serial(r: vec, bits: seq<bool>): vec
    decreases |bits|
  {
    if bits == [] then r else Serial(BitStep(r, bits[0]), bits[1..])
  }

  lemma {:induction false} SerialConcat(r: vec, a: seq<bool>, b: seq<bool>)
    ensures Serial(r, a + b) == Serial(Serial(r, a), b)
    decreases |a|
  {
    if a == [] {
      assert a + b == b;
    } else {
      assert (a + b)[1..] == a[1..] + b;
      SerialConcat(BitStep(r, a[0]), a[1..], b);
    }
  }

  /** Up to sixteen bits placed in the register at once. */
  function Load(bits: seq<bool>): vec
    requires |bits| <= 16
  {
    bits + seq(16 - |bits|, _ => false)
  }

  /** Feeding bits one at a time equals loading up to sixteen of them at once. */
  lemma {:induction false} SerialIsLoaded(r: vec, bits: seq<bool>)
    requires |bits| <= 16
    ensures Serial(r, bits) == VecShifts(XorBits(r, Load(bits)), |bits|)
    decreases |bits|
  {
    if bits == [] {
      assert XorBits(r, Load(bits)) == r;
    } else {
      SerialIsLoaded(BitStep(r, bits[0]), bits[1..]);
      LoadedShift(r, bits);
    }
  }

  lemma LoadedShift(r: vec, bits: seq<bool>)
    requires 0 < |bits| <= 16
    ensures VecShift(XorBits(r, Load(bits))) == XorBits(BitStep(r, bits[0]), Load(bits[1..]))
  {
    LoadedShiftWith(r, bits, Vec(POLYNOMIAL));
  }

  lemma LoadedShiftWith(r: vec, bits: seq<bool>, taps: vec)
    requires 0 < |bits| <= 16
    ensures ShiftWith(XorBits(r, Load(bits)), taps) == XorBits(ShiftWith(Feed(r, bits[0]), taps), Load(bits[1..]))
  {
    assert forall i :: 0 <= i < 15 ==> Load(bits)[i + 1] == Load(bits[1..])[i];
  }

  lemma ByteStepIsSerial(crc: reg, b: byte)
    ensures Vec(ByteStep(crc, b)) == Serial(Vec(crc), ByteBits(b))
  {
    ShiftsAreVecShifts(Xor16(crc, b), 8);
    VecXor(crc, b);
    VecByte(b);
    SerialIsLoaded(Vec(crc), ByteBits(b));
  }

  /** Byte-at-a-time processing is bit-serial processing, least significant bit first. */
  lemma {:induction false} BytesAreSerial(crc: reg, data: seq<byte>)
    ensures Vec(CrcFrom(crc, data)) == Serial(Vec(crc), AllBits(data))
    decreases |data|
  {
    if data != [] {
      ByteStepIsSerial(crc, data[0]);
      AllBitsCons(data);
      SerialConcat(Vec(crc), ByteBits(data[0]), AllBits(data[1..]));
      BytesAreSerial(ByteStep(crc, data[0]), data[1..]);
    } else {
      assert AllBits(data) == [];
    }
  }

  // ---- The remainder, stated from the polynomial alone -----------------------------------

  /** Division by x^16 + x^12 + x^5 + 1, one message bit at a time: place `i` holds the coefficient of
      x^(15 - i). Multiplying by x moves every place down by one, and the x^16 that falls out of place 0,
      together with the message bit, comes back as x^12 + x^5 + 1, that is in places 3, 10 and 15. */
  function DivideStep(r: vec, bit: bool): vec {
    seq(16, i requires 0 <= i < 16 => (i < 15 && r[i + 1]) != ((r[0] != bit) && i in {3, 10, 15}))
  }

  function Remainder(r: vec, bits: seq<bool>): vec
    decreases |bits|
  {
    if bits == [] then r else Remainder(DivideStep(r, bits[0]), bits[1..])
  }

  /** A one and then `zeros` zeros below the bits of `n`. */
  lemma {:induction false} AppendBits(n: nat, width: nat, zeros: nat) returns (m: nat)
    ensures m == (2 * n + 1) * Pow2(zeros)
    ensures FromNat(m, width + 1 + zeros) == Zeros(zeros) + [true] + FromNat(n, width)
    decreases zeros
  {
    if zeros == 0 {
      m := 2 * n + 1;
      assert Zeros(0) == [];
    } else {
      var h := AppendBits(n, width, zeros - 1);
      m := 2 * h;
      TwiceOf(2 * n + 1, Pow2(zeros - 1));
      assert FromNat(m, width + 1 + zeros) == [false] + FromNat(h, width + zeros);
      assert Zeros(zeros) == [false] + Zeros(zeros - 1);
    }
  }

  lemma TwiceOf(a: int, b: int)
    ensures 2 * (a * b) == a * (2 * b)
  {
  }

  /** From the low end: three zeros, a one, six zeros, a one, four zeros, a one. */
  lemma PolynomialBits()
    ensures Vec(POLYNOMIAL) == Zeros(3) + [true] + (Zeros(6) + [true] + (Zeros(4) + [true]))
  {
    var a := AppendBits(0, 0, 4);
    var b := AppendBits(a, 5, 6);
    var c := AppendBits(b, 12, 3);
    assert Pow2(3) == 8 && Pow2(4) == 16 && Pow2(6) == 64;
    assert a == 16 && b == 0x21 * 64 && c == 0x1081 * 8;
    assert Zeros(4) + [true] + [] == Zeros(4) + [true];
  }

  /** The feedback goes to places 3, 10 and 15. */
  lemma TapPlaces(i: nat)
    requires i < 16
    ensures Vec(POLYNOMIAL)[i] == (i in {3, 10, 15})
  {
    PolynomialBits();
  }

  lemma {:induction false} OnesOf(width: nat)
    ensures FromNat(Pow2(width) - 1, width) == Ones(width)
  {
    if width != 0 {
      var n := Pow2(width) - 1;
      OnesOf(width - 1);
      assert n % 2 == 1 && n / 2 == Pow2(width - 1) - 1;
      assert FromNat(n, width) == [true] + FromNat(n / 2, width - 1);
      assert Ones(width) == [true] + Ones(width - 1);
    }
  }

  lemma StartsWithOnes()
    ensures Vec(INITIAL) == Ones(16)
  {
    Pow2Of16();
    OnesOf(16);
  }

  lemma BitStepDivides(r: vec, bit: bool)
    ensures BitStep(r, bit) == DivideStep(r, bit)
  {
    forall i | 0 <= i < 16 ensures BitStep(r, bit)[i] == DivideStep(r, bit)[i] {
      TapPlaces(i);
    }
  }

  lemma {:induction false} SerialDivides(r: vec, bits: seq<bool>)
    ensures Serial(r, bits) == Remainder(r, bits)
    decreases |bits|
  {
    if bits != [] {
      BitStepDivides(r, bits[0]);
      SerialDivides(BitStep(r, bits[0]), bits[1..]);
    }
  }

  /** The CRC of a message is the remainder of its bits, started from sixteen ones. */
  lemma CrcIsRemainder(data: seq<byte>)
    ensures Vec(Crc(data)) == Remainder(Ones(16), AllBits(data))
  {
    StartsWithOnes();
    BytesAreSerial(INITIAL, data);
    SerialDivides(Vec(INITIAL), AllBits(data));
  }

  // ---- Burst errors ----------------------------------------------------------------------

  lemma {:induction false} SerialInjective(a: vec, b: vec, bits: seq<bool>)
    requires Serial(a, bits) == Serial(b, bits)
    ensures a == b
    decreases |bits|
  {
    if bits != [] {
      SerialInjective(BitStep(a, bits[0]), BitStep(b, bits[0]), bits[1..]);
      VecShiftBijective(Feed(a, bits[0]));
      VecShiftBijective(Feed(b, bits[0]));
      FeedInjective(a, b, bits[0]);
    }
  }

  lemma FeedInjective(a: vec, b: vec, bit: bool)
    requires Feed(a, bit) == Feed(b, bit)
    ensures a == b
  {
    assert Feed(Feed(a, bit), bit) == a && Feed(Feed(b, bit), bit) == b;
  }

  /** A window of at most sixteen bits is determined by the register it produces. */
  lemma WindowInjective(r: vec, a: seq<bool>, b: seq<bool>)
    requires |a| == |b| <= 16 && Serial(r, a) == Serial(r, b)
    ensures a == b
  {
    SerialIsLoaded(r, a);
    SerialIsLoaded(r, b);
    VecShiftsInjective(XorBits(r, Load(a)), XorBits(r, Load(b)), |a|);
    forall i | 0 <= i < |a| ensures a[i] == b[i] {
      assert XorBits(r, Load(a))[i] == XorBits(r, Load(b))[i];
    }
  }

  /** The strings agree outside sixteen consecutive bits. */
  predicate AgreeOutside(a: seq<bool>, b: seq<bool>, start: nat) {
    |a| == |b| && forall i :: 0 <= i < |a| && !(start <= i < start + 16) ==> a[i] == b[i]
  }

  lemma SerialBurst(r: vec, a: seq<bool>, b: seq<bool>, start: nat)
    requires AgreeOutside(a, b, start) && Serial(r, a) == Serial(r, b)
    ensures a == b
  {
    var lo := if start <= |a| then start else |a|;
    var hi := if start + 16 <= |a| then start + 16 else |a|;
    assert a[..lo] == b[..lo] && a[hi..] == b[hi..];
    BurstBetween(r, a, b, lo, hi);
    Thirds(a, lo, hi);
    Thirds(b, lo, hi);
  }

  lemma Thirds(a: seq<bool>, lo: nat, hi: nat)
    requires lo <= hi <= |a|
    ensures a == a[..lo] + a[lo..hi] + a[hi..]
  {
  }

  lemma BurstBetween(r: vec, a: seq<bool>, b: seq<bool>, lo: nat, hi: nat)
    requires |a| == |b| && lo <= hi <= |a| && hi - lo <= 16
    requires a[..lo] == b[..lo] && a[hi..] == b[hi..] && Serial(r, a) == Serial(r, b)
    ensures a[lo..hi] == b[lo..hi]
  {
    SerialThirds(r, a, lo, hi);
    SerialThirds(r, b, lo, hi);
    var c := Serial(r, a[..lo]);
    SerialInjective(Serial(c, a[lo..hi]), Serial(c, b[lo..hi]), a[hi..]);
    WindowInjective(c, a[lo..hi], b[lo..hi]);
  }

  lemma SerialThirds(r: vec, a: seq<bool>, lo: nat, hi: nat)
    requires lo <= hi <= |a|
    ensures Serial(r, a) == Serial(Serial(Serial(r, a[..lo]), a[lo..hi]), a[hi..])
  {
    assert a == a[..lo] + a[lo..];
    assert a[lo..] == a[lo..hi] + a[hi..];
    SerialConcat(r, a[..lo], a[lo..]);
    SerialConcat(Serial(r, a[..lo]), a[lo..hi], a[hi..]);
  }

  /** Every error burst of at most sixteen bits changes the CRC, whatever the message length. */
  lemma BurstDetected(a: seq<byte>, b: seq<byte>, start: nat)
    requires |a| == |b| && AgreeOutside(AllBits(a), AllBits(b), start)
    ensures Crc(a) == Crc(b) <==> a == b
  {
    if Crc(a) == Crc(b) {
      BytesAreSerial(INITIAL, a);
      BytesAreSerial(INITIAL, b);
      SerialBurst(Vec(INITIAL), AllBits(a), AllBits(b), start);
      AllBitsInjective(a, b);
    }
  }

  // ---- Odd errors --------------------------------------------------------------------------

  /** An odd number of ones. */
  function Odd(bits: seq<bool>): bool
    decreases |bits|
  {
    bits != [] && bits[0] != Odd(bits[1..])
  }

  lemma {:induction false} OddConcat(a: seq<bool>, b: seq<bool>)
    ensures Odd(a + b) == (Odd(a) != Odd(b))
    decreases |a|
  {
    if a == [] {
      assert a + b == b;
    } else {
      assert (a + b)[1..] == a[1..] + b;
      OddConcat(a[1..], b);
    }
  }

  lemma {:induction false} OddXor(a: seq<bool>, b: seq<bool>)
    requires |a| == |b|
    ensures Odd(XorBits(a, b)) == (Odd(a) != Odd(b))
    decreases |a|
  {
    if a != [] {
      assert XorBits(a, b)[1..] == XorBits(a[1..], b[1..]);
      OddXor(a[1..], b[1..]);
    }
  }

  lemma {:induction false} EvenZeros(n: nat)
    ensures !Odd(Zeros(n))
  {
    if n != 0 {
      assert Zeros(n)[1..] == Zeros(n - 1);
      EvenZeros(n - 1);
    }
  }

  /** The polynomial has three feedback taps. */
  lemma ThreeTaps()
    ensures Odd(Vec(POLYNOMIAL))
  {
    PolynomialBits();
    EvenZeros(3);
    EvenZeros(6);
    EvenZeros(4);
    var a := Zeros(4) + [true];
    var b := Zeros(6) + [true] + a;
    assert Odd([true]) by { assert [true][1..] == []; }
    OddConcat(Zeros(4), [true]);
    OddConcat(Zeros(6), [true]);
    OddConcat(Zeros(6) + [true], a);
    OddConcat(Zeros(3), [true]);
    OddConcat(Zeros(3) + [true], b);
  }

  lemma ShiftWithParity(r: vec, taps: vec)
    requires Odd(taps)
    ensures Odd(ShiftWith(r, taps)) == Odd(r)
  {
    var half: vec := r[1..] + [false];
    ShiftWithXor(r, taps, half);
    OddConcat(r[1..], [false]);
    OddXor(half, taps);
  }

  lemma FeedParity(r: vec, bit: bool)
    ensures Odd(Feed(r, bit)) == (Odd(r) != bit)
  {
    assert Feed(r, bit)[1..] == r[1..];
  }

  /** Shifting keeps the parity of the register, so it accumulates the parity of the message. */
  lemma {:induction false} SerialParity(r: vec, bits: seq<bool>)
    ensures Odd(Serial(r, bits)) == (Odd(r) != Odd(bits))
    decreases |bits|
  {
    if bits != [] {
      ThreeTaps();
      FeedParity(r, bits[0]);
      ShiftWithParity(Feed(r, bits[0]), Vec(POLYNOMIAL));
      SerialParity(BitStep(r, bits[0]), bits[1..]);
    }
  }

  /** How many bits differ. */
  function Flips(a: seq<bool>, b: seq<bool>): nat
    requires |a| == |b|
    decreases |a|
  {
    if a == [] then 0 else (if a[0] != b[0] then 1 else 0) + Flips(a[1..], b[1..])
  }

  lemma {:induction false} FlipsParity(a: seq<bool>, b: seq<bool>)
    requires |a| == |b|
    ensures Flips(a, b) % 2 == 1 <==> Odd(a) != Odd(b)
    decreases |a|
  {
    if a != [] {
      FlipsParity(a[1..], b[1..]);
    }
  }

  /** Any odd number of flipped bits, anywhere in a message of any length, changes the CRC. */
  lemma OddErrorsDetected(a: seq<byte>, b: seq<byte>)
    requires |a| == |b| && Flips(AllBits(a), AllBits(b)) % 2 == 1
    ensures Crc(a) != Crc(b)
  {
    FlipsParity(AllBits(a), AllBits(b));
    BytesAreSerial(INITIAL, a);
    BytesAreSerial(INITIAL, b);
    SerialParity(Vec(INITIAL), AllBits(a));
    SerialParity(Vec(INITIAL), AllBits(b));
  }

  // ---- The appended CRC --------------------------------------------------------------------

  function Low(crc: reg): byte { crc % 0x100 }
  function High(crc: reg): byte { crc / 0x100 }

  /** Feeding a register its own low sixteen bits empties it. */
  lemma {:induction false} SelfFeed(r: vec, bits: seq<bool>)
    requires |bits| <= 16 && r == Load(bits)
    ensures Serial(r, bits) == ZERO
    decreases |bits|
  {
    SerialIsLoaded(r, bits);
    assert XorBits(r, Load(bits)) == ZERO;
    ZeroStays(|bits|);
  }

  lemma ZeroStays(n: nat)
    ensures VecShifts(ZERO, n) == ZERO
  {
    ShiftsOfZero(ZERO, Vec(POLYNOMIAL), n);
  }

  lemma ShiftOfZero(zero: vec, taps: vec)
    requires forall i :: 0 <= i < 16 ==> !zero[i]
    ensures ShiftWith(zero, taps) == zero
  {
  }

  lemma {:induction false} ShiftsOfZero(zero: vec, taps: vec, n: nat)
    requires forall i :: 0 <= i < 16 ==> !zero[i]
    ensures ShiftsWith(zero, taps, n) == zero
    decreases n
  {
    if n != 0 {
      ShiftOfZero(zero, taps);
      ShiftsOfZero(zero, taps, n - 1);
    }
  }

  lemma TwoBytes(x: byte, y: byte)
    ensures AllBits([x, y]) == ByteBits(x) + ByteBits(y)
  {
    AllBitsCons([x, y]);
    AllBitsCons([y]);
    assert [x, y][1..] == [y] && [y][1..] == [] && AllBits([]) == [];
  }

  lemma SplitRegister(crc: reg)
    ensures Vec(crc) == ByteBits(Low(crc)) + ByteBits(High(crc))
  {
    Pow2Of16();
    JoinBytes(Low(crc), High(crc));
  }

  lemma JoinBytes(l: byte, h: byte)
    requires Pow2(8) == 0x100
    ensures Vec(l + 0x100 * h) == ByteBits(l) + ByteBits(h)
  {
    ToNatConcat(ByteBits(l), ByteBits(h));
    ByteRoundTrip(l);
    ByteRoundTrip(h);
    FromToNat(ByteBits(l) + ByteBits(h));
  }

  /** A register fed two bytes empties exactly when they are its own, low byte first. */
  lemma OwnBytes(c: reg, x: byte, y: byte)
    ensures Serial(Vec(c), ByteBits(x) + ByteBits(y)) == ZERO <==> x == Low(c) && y == High(c)
  {
    SplitRegister(c);
    SelfFeed(Vec(c), Vec(c));
    if Serial(Vec(c), ByteBits(x) + ByteBits(y)) == ZERO {
      WindowInjective(Vec(c), ByteBits(x) + ByteBits(y), Vec(c));
      SameHalves(ByteBits(x), ByteBits(y), ByteBits(Low(c)), ByteBits(High(c)));
      ByteRoundTrip(x);
      ByteRoundTrip(y);
      ByteRoundTrip(Low(c));
      ByteRoundTrip(High(c));
    }
  }

  lemma SameHalves(a: seq<bool>, b: seq<bool>, c: seq<bool>, d: seq<bool>)
    requires |a| == |c| && a + b == c + d
    ensures a == c && b == d
  {
    assert a == (a + b)[..|a|] && b == (a + b)[|a|..];
    assert c == (c + d)[..|c|] && d == (c + d)[|c|..];
  }

  lemma ZeroVec(c: reg)
    ensures Vec(c) == ZERO <==> c == 0
  {
    Pow2Of16();
    FromNatPad(0, 0, 16);
    assert Vec(0) == ZERO;
    if Vec(c) == ZERO {
      VecInjective(c, 0);
    }
  }

  /** Two appended bytes clear the register exactly when they are the CRC, low byte first. */
  lemma ResidueZero(data: seq<byte>, x: byte, y: byte)
    ensures Crc(data + [x, y]) == 0 <==> x == Low(Crc(data)) && y == High(Crc(data))
  {
    var c := Crc(data);
    CrcFromConcat(INITIAL, data, [x, y]);
    BytesAreSerial(c, [x, y]);
    TwoBytes(x, y);
    OwnBytes(c, x, y);
    ZeroVec(Crc(data + [x, y]));
  }

  lemma ZeroShifts(c: reg, n: nat)
    ensures Shifts(c, n) == 0 <==> c == 0
    decreases n
  {
    if n != 0 {
      Pow2Of16();
      assert Shift(0) == 0;
      if Shift(c) == 0 {
        ShiftInjective(c, 0);
      }
      ZeroShifts(Shift(c), n - 1);
    }
  }

  /** Zero bytes never empty a register that is not empty. */
  lemma {:induction false} ZerosKeepNonzero(c: reg, data: seq<byte>)
    requires forall i :: 0 <= i < |data| ==> data[i] == 0
    ensures CrcFrom(c, data) == 0 <==> c == 0
    decreases |data|
  {
    if data != [] {
      XorZero(c);
      ZeroShifts(c, 8);
      ZerosKeepNonzero(ByteStep(c, 0), data[1..]);
    }
  }

  lemma XorZero(c: reg)
    ensures Xor16(c, 0) == c
  {
    VecXor(c, 0);
    ZeroVec(0);
    assert XorBits(Vec(c), ZERO) == Vec(c);
    VecInjective(Xor16(c, 0), c);
  }

  /** The CRC of a run of zero bytes, however long, is not zero. */
  lemma ZeroMessage(n: nat)
    ensures Crc(seq(n, i => 0)) != 0
  {
    ZerosKeepNonzero(INITIAL, seq(n, i => 0));
  }

  /** Appended high byte first, as the tag stores it, the register clears only by coincidence. */
  lemma BigEndianResidue(data: seq<byte>)
    ensures Crc(data + [High(Crc(data)), Low(Crc(data))]) == 0 <==> High(Crc(data)) == Low(Crc(data))
  {
    ResidueZero(data, High(Crc(data)), Low(Crc(data)));
  }
}
