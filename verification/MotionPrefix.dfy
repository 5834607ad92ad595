// The orientation prefix of a length-0x28 PDU: a modular slice of the
// 26/25/24-bit carrier, and its unwrapping against a recent carrier.

module MotionPrefix {
  import opened Bits
  import opened MotionPacket

  type Lane = x: nat | x < 3

  function CarrierBits(lane: Lane): nat {
    26 - lane
  }

  predicate IsCarrier(raw: nat, lane: Lane) {
    raw < Pow2(CarrierBits(lane))
  }

  /** Lane 2 has one extra bit of resolution and is centred half a window away. */
  function Centred(raw: int, lane: Lane): int {
    if lane == 0 then raw - 0x200_0000
    else if lane == 1 then raw - 0x100_0000
    else 2 * (raw - 0x80_0000) + 0x100_0000
  }

  function Width(lane: Lane, highRate: bool): (w: nat)
    ensures w > 0
  {
    var wide := if lane == 0 then 24 else if lane == 1 then 23 else 25;
    if highRate then wide else wide - 2
  }

  function Shift(highRate: bool): nat {
    if highRate then 0 else 2
  }

  /** One prefix lane: drop the low bits by a floor, then wrap into the slot. */
  function PrefixLane(raw: nat, lane: Lane, highRate: bool): int {
    SignExtend(Centred(raw, lane) / Pow2(Shift(highRate)), Width(lane, highRate))
  }

  /** C's `/`: truncation toward zero. */
  function CDiv(a: int, b: nat): int
    requires b > 0
  {
    if a >= 0 then a / b else -(-a / b)
  }

  /** C's `%`: the remainder of the truncating division, signed like `a`. */
  function CMod(a: int, b: nat): int
    requires b > 0
  {
    a - b * CDiv(a, b)
  }

  lemma CDivFloor(a: int, b: nat)
    requires b > 0
    ensures CDiv(a, b) == if a < 0 && CMod(a, b) != 0 then a / b + 1 else a / b
    ensures CMod(a, b) != 0 <==> a % b != 0
  {
    if a < 0 {
      var q, r := -a / b, -a % b;
      assert -a == q * b + r;
      assert a == (-q) * b - r;
      if r == 0 {
        DivModUnique(a, b, -q, 0);
      } else {
        assert (-q) * b - b == (-q - 1) * b;
        DivModUnique(a, b, -q - 1, b - r);
      }
    }
  }

  function FloorShift(value: int, bits: nat): (q: int)
    ensures q == value / Pow2(bits)
  {
    CDivFloor(value, Pow2(bits));
    var divisor := Pow2(bits);
    var quotient := CDiv(value, divisor);
    if CMod(value, divisor) != 0 && value < 0 then quotient - 1 else quotient
  }

  /** A 32-bit signed expression: the value modulo 2^32, as two's complement reads it. */
  function Int32(value: int): (r: int)
    ensures FitsSigned(r, 32)
  {
    SignExtend(value, 32)
  }

  function Plus(x: int, y: int): int {
    Int32(x + y)
  }

  function Twice(x: int): int {
    Int32(2 * x)
  }

  /** The centring arithmetic as C evaluates it, wrapping at 32 bits. */
  function CentredWord(word: uint32, lane: Lane): int {
    if lane == 0 then Plus(Int32(word), -0x200_0000)
    else if lane == 1 then Plus(Int32(word), -0x100_0000)
    else Plus(Twice(Plus(Int32(word), -0x80_0000)), 0x100_0000)
  }

  /** Any three words are accepted: wrapping at 32 bits cannot reach the bits that a slot keeps. */
  method Prefix(carrier: seq<uint32>, out: array<int>, highRate: bool)
    requires |carrier| == 3 && out.Length == 3
    modifies out
    ensures forall lane: Lane :: out[lane] == PrefixLane(carrier[lane], lane, highRate)
  {
    var lane := 0;
    while lane < 3
      invariant 0 <= lane <= 3
      invariant forall j: Lane :: j < lane ==> out[j] == PrefixLane(carrier[j], j, highRate)
    {
      var centred := CentredWord(carrier[lane], lane);
      out[lane] := SignExtend(FloorShift(centred, Shift(highRate)), Width(lane, highRate));
      ghost var k := WordIsCentred(carrier[lane], lane);
      WrapKeepsLane(Centred(carrier[lane], lane), centred, k, Shift(highRate), Width(lane, highRate));
      lane := lane + 1;
    }
  }

  lemma Int32Step(value: int) returns (k: int)
    ensures Int32(value) == value + k * 0x1_0000_0000
  {
    k := SignExtendStep(value, 32);
    WordPowers();
  }

  lemma WrappedSum(x: int, y: int, j: int, c: int) returns (k: int)
    requires x == y + j * 0x1_0000_0000
    ensures Plus(x, c) == y + c + k * 0x1_0000_0000
  {
    var l := Int32Step(x + c);
    k := j + l;
  }

  lemma WrappedDouble(x: int, y: int, j: int) returns (k: int)
    requires x == y + j * 0x1_0000_0000
    ensures Twice(x) == 2 * y + k * 0x1_0000_0000
  {
    var l := Int32Step(2 * x);
    k := 2 * j + l;
  }

  lemma WordIsCentred(word: uint32, lane: Lane) returns (k: int)
    ensures CentredWord(word, lane) == Centred(word, lane) + k * 0x1_0000_0000
  {
    k := Int32Step(word);
    if lane == 0 {
      k := WrappedSum(Int32(word), word, k, -0x200_0000);
    } else if lane == 1 {
      k := WrappedSum(Int32(word), word, k, -0x100_0000);
    } else {
      k := LastLaneWraps(word, Int32(word), k);
    }
  }

  lemma LastLaneWraps(word: int, x: int, j: int) returns (k: int)
    requires x == word + j * 0x1_0000_0000
    ensures Plus(Twice(Plus(x, -0x80_0000)), 0x100_0000) == 2 * (word - 0x80_0000) + 0x100_0000 + k * 0x1_0000_0000
  {
    var a, b := Plus(x, -0x80_0000), Twice(Plus(x, -0x80_0000));
    k := WrappedSum(x, word, j, -0x80_0000);
    k := WrappedDouble(a, word - 0x80_0000, k);
    k := WrappedSum(b, 2 * (word - 0x80_0000), k, 0x100_0000);
  }

  /** Numbers that agree modulo 2^32 have the same slice, as no slice reaches above bit 25. */
  lemma WrapKeepsLane(c: int, w: int, k: int, shift: nat, width: nat)
    requires w == c + k * 0x1_0000_0000 && width > 0 && shift + width <= 32
    ensures SignExtend(w / Pow2(shift), width) == SignExtend(c / Pow2(shift), width)
  {
    var p, q, r := Pow2(shift), Pow2(width), Pow2(32 - shift - width);
    WordPowers();
    Pow2Add(shift, width);
    Pow2Add(shift + width, 32 - shift - width);
    assert p * q * r == 0x1_0000_0000;
    ShiftedWrap(c, w, k, p, q, r);
    ExtendShifted(c / p, k * r, width);
  }

  lemma ShiftedWrap(c: int, w: int, k: int, p: int, q: int, r: int)
    requires p > 0 && w == c + k * (p * q * r)
    ensures w / p == c / p + k * r * q
  {
    var d, m := c / p, c % p;
    assert c == d * p + m;
    calc {
      w;
      d * p + m + k * (p * q * r);
      d * p + k * r * q * p + m;
      (d + k * r * q) * p + m;
    }
    DivModUnique(w, p, d + k * r * q, m);
  }

  // ---- The slice ---------------------------------------------------------------

  lemma ExtendShifted(v: int, m: int, width: nat)
    requires width > 0
    ensures SignExtend(v + m * Pow2(width), width) == SignExtend(v, width)
  {
    ModShift(v, m, Pow2(width));
  }

  lemma ExtendDoubled(v: int, width: nat)
    requires width > 0
    ensures SignExtend(2 * v, width + 1) == 2 * SignExtend(v, width)
  {
    var p := Pow2(width);
    var k := SignExtendStep(v, width);
    assert Pow2(width + 1) == 2 * p;
    assert k * (2 * p) == 2 * (k * p);
    SignExtendOf(2 * v, width + 1, 2 * SignExtend(v, width), k);
  }

  /** At high rate each lane is the sign-extended low end of the carrier itself. */
  lemma WideLane(raw: nat, lane: Lane)
    requires IsCarrier(raw, lane)
    ensures PrefixLane(raw, lane, true)
      == if lane == 0 then SignExtend(raw, 24) else if lane == 1 then SignExtend(raw, 23) else 2 * SignExtend(raw, 24)
  {
    BytePowers();
    WordPowers();
    var c := Centred(raw, lane);
    assert c / Pow2(Shift(true)) == c;
    if lane == 2 {
      ExtendDoubled(raw, 24);
    } else {
      ExtendShifted(raw, -2, Width(lane, true));
    }
  }

  lemma WrapThenFloor(c: int, w: nat)
    requires w > 2
    ensures SignExtend(c / 4, w - 2) == SignExtend(c, w) / 4
  {
    var p := Pow2(w - 2);
    assert Pow2(w - 1) == 2 * p && Pow2(w) == 4 * p;
    var k := SignExtendStep(c, w);
    var s := SignExtend(c, w);
    var q, r := c / 4, c % 4;
    assert k * (4 * p) == 4 * (k * p);
    assert s == 4 * (q + k * p) + r;
    SignExtendOf(q, w - 2, q + k * p, k);
  }

  /** The narrow prefix is the floor of a quarter of the wide one, and fits its slot. */
  lemma NarrowIsFloor(raw: nat, lane: Lane)
    requires IsCarrier(raw, lane)
    ensures PrefixLane(raw, lane, false) == PrefixLane(raw, lane, true) / 4
    ensures lane == 2 ==> PrefixLane(raw, lane, false) == SignExtend(raw, 24) / 2
    ensures FitsSigned(PrefixLane(raw, lane, false), Width(lane, false))
  {
    assert Pow2(0) == 1 && Pow2(2) == 4;
    var c := Centred(raw, lane);
    assert c / Pow2(0) == c;
    WrapThenFloor(c, Width(lane, true));
    WideLane(raw, lane);
  }

  /** The prefix always fits the slot its layout reserves for it. */
  lemma PrefixFitsSlot(x: nat, y: nat, z: nat)
    ensures FitsSigned(PrefixLane(x, 0, false), CATCHUP.carrier.0.width)
    ensures FitsSigned(PrefixLane(y, 1, false), CATCHUP.carrier.1.width)
    ensures FitsSigned(PrefixLane(z, 2, false), CATCHUP.carrier.2.width)
    ensures FitsSigned(PrefixLane(x, 0, true), HIGH_RATE.carrier.0.width)
    ensures FitsSigned(PrefixLane(y, 1, true), HIGH_RATE.carrier.1.width)
    ensures FitsSigned(PrefixLane(z, 2, true), HIGH_RATE.carrier.2.width)
  {
  }

  /** A truncating shift would corrupt a lane exactly when it drops bits from a negative value. */
  lemma TruncationDiverges(raw: nat, lane: Lane)
    requires IsCarrier(raw, lane)
    ensures SignExtend(CDiv(Centred(raw, lane), 4), Width(lane, false)) != PrefixLane(raw, lane, false)
      <==> raw < Pow2(CarrierBits(lane) - 1) && raw % 4 != 0 && lane != 2
  {
    CentredSign(raw, lane);
    var c, w := Centred(raw, lane), Width(lane, false);
    CDivFloor(c, 4);
    ExtendSeparates(c / 4, w);
  }

  lemma CentredSign(raw: nat, lane: Lane)
    requires IsCarrier(raw, lane)
    ensures Centred(raw, lane) < 0 && Centred(raw, lane) % 4 != 0
      <==> raw < Pow2(CarrierBits(lane) - 1) && raw % 4 != 0 && lane != 2
    ensures Centred(raw, lane) / Pow2(Shift(false)) == Centred(raw, lane) / 4
  {
    BytePowers();
    WordPowers();
    SignAndRest(raw, if lane == 0 then 0x200_0000 else 0x100_0000);
  }

  lemma SignAndRest(raw: int, centre: int)
    requires centre % 4 == 0
    ensures raw - centre < 0 <==> raw < centre
    ensures (raw - centre) % 4 == raw % 4
  {
  }

  /** Neighbouring numbers never extend to the same value. */
  lemma ExtendSeparates(a: int, w: nat)
    requires w > 0
    ensures SignExtend(a, w) != SignExtend(a + 1, w)
  {
    var j := SignExtendStep(a, w);
    var k := SignExtendStep(a + 1, w);
    Distribute(j, k, Pow2(w));
    NoUnitMultiple(j - k, Pow2(w));
  }

  lemma NoUnitMultiple(k: int, d: int)
    requires d >= 2
    ensures k * d != 1
  {
    MulAtLeast(k, d);
  }

  // ---- Unwrapping ----------------------------------------------------------------

  /** Python's `round(n / d)`: to nearest, ties to even (the quotient is exact in a double). */
  function RoundHalfEven(n: int, d: nat): int
    requires d > 0
  {
    var q, r := n / d, n % d;
    if 2 * r < d then q else if 2 * r > d then q + 1 else if q % 2 == 0 then q else q + 1
  }

  /** A doubled distance below one window, or exactly one window with an even index. */
  predicate Nearest(distance: int, window: int, index: int) {
    -window < distance < window || ((distance == window || distance == -window) && index % 2 == 0)
  }

  lemma RoundNearest(n: int, d: nat, k: int)
    requires d > 0
    ensures RoundHalfEven(n, d) == k <==> Nearest(2 * (n - k * d), d, k)
  {
    var q, r := n / d, n % d;
    assert n == q * d + r;
    Distribute(q, k, d);
    MulAtLeast(q - k, d);
    if k != q && k != q + 1 {
      MulAtLeast(q - k - 1, d);
      MulAtLeast(q - k + 1, d);
      Distribute(q - k, 1, d);
      Distribute(q - k, -1, d);
    }
  }

  /** The value nearest `base` among those congruent to the slot content. */
  function Unwrap(wire: int, base: int, width: nat, shift: nat): int {
    var span := Pow2(width + shift);
    var target := wire * Pow2(shift);
    target + RoundHalfEven(base - target, span) * span
  }

  function DecodeLane(wire: int, reference: nat, lane: Lane, highRate: bool): int {
    Uncentred(Unwrap(wire, Centred(reference, lane), Width(lane, highRate), Shift(highRate)), lane)
  }

  function Uncentred(out: int, lane: Lane): int {
    if lane == 0 then out + 0x200_0000
    else if lane == 1 then out + 0x100_0000
    else (out - 0x100_0000) / 2 + 0x80_0000
  }

  lemma UncentredInverts(out: int, lane: Lane, h: int, r: int)
    requires lane == 2 ==> out == 2 * h
    ensures Uncentred(out, lane) == r <==> out == Centred(r, lane)
  {
  }

  /** What survives the dropped bits. */
  function Kept(c: int, shift: nat): int {
    c / Pow2(shift) * Pow2(shift)
  }

  /** How many windows sign extension moved the kept value by. */
  function Windows(c: int, width: nat, shift: nat): int
    requires width > 0
  {
    (SignExtend(c / Pow2(shift), width) - c / Pow2(shift)) / Pow2(width)
  }

  /** Within half a window of the reference; on the boundary the tie goes to even windows. */
  predicate Recoverable(c: int, base: int, width: nat, shift: nat)
    requires width > 0
  {
    Nearest(2 * (base - Kept(c, shift)), Pow2(width + shift), Windows(c, width, shift))
  }

  /** The result is the one number congruent to the slot content with no other one nearer to `base`; of two
      equally near ones it is the even number of windows away. */
  lemma UnwrapMeaning(wire: int, base: int, width: nat, shift: nat, k: int)
    ensures var v := wire * Pow2(shift) + k * Pow2(width + shift);
      Unwrap(wire, base, width, shift) == v <==> Nearest(2 * (base - v), Pow2(width + shift), k)
  {
    var span, target := Pow2(width + shift), wire * Pow2(shift);
    RoundNearest(base - target, span, k);
    SameMultiple(RoundHalfEven(base - target, span), k, span);
  }

  /** Rounding the offset to whole windows undoes a displacement by `j` windows exactly when nothing is nearer. */
  lemma UnwrapDisplaced(kept: int, j: int, base: int, span: nat)
    requires span > 0
    ensures var target := kept + j * span;
      target + RoundHalfEven(base - target, span) * span == kept <==> Nearest(2 * (base - kept), span, j)
  {
    var target := kept + j * span;
    RoundNearest(base - target, span, -j);
    assert (-j) * span == -(j * span);
    SameMultiple(RoundHalfEven(base - target, span), -j, span);
  }

  lemma SameMultiple(a: int, b: int, d: int)
    requires d > 0
    ensures a * d == b * d <==> a == b
  {
    Distribute(a, b, d);
    if a * d == b * d {
      SmallMultiple(a - b, d);
    }
  }

  lemma UnwrapSlice(c: int, base: int, width: nat, shift: nat)
    requires width > 0
    ensures Unwrap(SignExtend(c / Pow2(shift), width), base, width, shift) == Kept(c, shift)
      <==> Recoverable(c, base, width, shift)
  {
    var p, s, q := Pow2(width), Pow2(shift), c / Pow2(shift);
    Pow2Add(width, shift);
    var j := SignExtendStep(q, width);
    DivModUnique(SignExtend(q, width) - q, p, j, 0);
    Displaced(q, j, p, s);
    UnwrapDisplaced(Kept(c, shift), j, base, Pow2(width + shift));
  }

  lemma Displaced(q: int, j: int, p: int, s: int)
    ensures (q + j * p) * s == q * s + j * (p * s)
  {
    assert j * p * s == j * (p * s);
  }

  lemma KeptLiteral(raw: nat, lane: Lane, highRate: bool)
    requires IsCarrier(raw, lane)
    ensures var lost := if highRate then 0 else if lane == 2 then raw % 2 else raw % 4;
      Kept(Centred(raw, lane), Shift(highRate)) == Centred(raw - lost, lane)
  {
    assert Pow2(0) == 1 && Pow2(2) == 4;
    var c := Centred(raw, lane);
    assert Kept(c, 0) == c / 1 * 1;
    assert Kept(c, 2) == c / 4 * 4;
  }

  /** The decoder recovers the carrier, up to the dropped bits, exactly when the reference is close enough. */
  lemma DecodeEncode(raw: nat, reference: nat, lane: Lane, highRate: bool)
    requires IsCarrier(raw, lane) && IsCarrier(reference, lane)
    ensures var lost := if highRate then 0 else if lane == 2 then raw % 2 else raw % 4;
      DecodeLane(PrefixLane(raw, lane, highRate), reference, lane, highRate) == raw - lost
      <==> Recoverable(Centred(raw, lane), Centred(reference, lane), Width(lane, highRate), Shift(highRate))
  {
    UnwrapSlice(Centred(raw, lane), Centred(reference, lane), Width(lane, highRate), Shift(highRate));
    KeptLiteral(raw, lane, highRate);
    var h := 0;
    if lane == 2 {
      h := UnwrapEven(raw, reference, highRate);
    }
    var out := Unwrap(PrefixLane(raw, lane, highRate), Centred(reference, lane),
                      Width(lane, highRate), Shift(highRate));
    UncentredInverts(out, lane, h, raw - if highRate then 0 else if lane == 2 then raw % 2 else raw % 4);
  }

  lemma UnwrapEven(raw: nat, reference: nat, highRate: bool) returns (h: int)
    requires IsCarrier(raw, 2)
    ensures Unwrap(PrefixLane(raw, 2, highRate), Centred(reference, 2), Width(2, highRate), Shift(highRate)) == 2 * h
  {
    var wire, base := PrefixLane(raw, 2, highRate), Centred(reference, 2);
    if highRate {
      WideLane(raw, 2);
      assert wire * Pow2(0) == wire;
      h := UnwrapHalf(wire, base, Width(2, true), 0, SignExtend(raw, 24));
    } else {
      assert Pow2(2) == 2 * Pow2(1) && wire * (2 * Pow2(1)) == 2 * (wire * Pow2(1));
      h := UnwrapHalf(wire, base, Width(2, false), 2, wire * Pow2(1));
    }
  }

  lemma UnwrapHalf(wire: int, base: int, width: nat, shift: nat, half: int) returns (h: int)
    requires width > 0 && wire * Pow2(shift) == 2 * half
    ensures Unwrap(wire, base, width, shift) == 2 * h
  {
    var span := Pow2(width + shift - 1);
    var k := RoundHalfEven(base - 2 * half, 2 * span);
    assert k * (2 * span) == 2 * (k * span);
    h := half + k * span;
  }

  /** With the carrier itself as reference, a high-rate prefix is lossless. */
  lemma SelfReferenceLossless(raw: nat, lane: Lane)
    requires IsCarrier(raw, lane)
    ensures DecodeLane(PrefixLane(raw, lane, true), raw, lane, true) == raw
  {
    BytePowers();
    WordPowers();
    DecodeEncode(raw, raw, lane, true);
  }
}
