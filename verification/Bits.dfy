// Bit strings, least significant bit first: the representation behind the
// little-endian, LSB-first packing that the motion PDUs use.

module Bits {

  type byte = x: int | 0 <= x < 256

  function Pow2(n: nat): (p: nat)
    ensures p >= 1
  {
    if n == 0 then 1 else 2 * Pow2(n - 1)
  }

  /** The number a bit string denotes; index 0 has weight one. */
  function ToNat(bits: seq<bool>): nat
  {
    if bits == [] then 0 else (if bits[0] then 1 else 0) + 2 * ToNat(bits[1..])
  }

  /** The low `width` bits of `value`. */
  function FromNat(value: nat, width: nat): (bits: seq<bool>)
    ensures |bits| == width
  {
    if width == 0 then [] else [value % 2 == 1] + FromNat(value / 2, width - 1)
  }

  function Zeros(n: nat): seq<bool> {
    seq(n, _ => false)
  }

  function Ones(n: nat): seq<bool> {
    seq(n, _ => true)
  }

  /** `value & (1u << i)` as a truth value. */
  predicate NatBit(value: nat, i: nat) {
    value / Pow2(i) % 2 == 1
  }

  lemma Doubled(a: int, b: int)
    ensures 2 * (a * b) == (2 * a) * b
  {
  }

  lemma {:induction false} Pow2Add(m: nat, n: nat)
    ensures Pow2(m + n) == Pow2(m) * Pow2(n)
  {
    if m == 0 {
    } else {
      Pow2Add(m - 1, n);
      assert Pow2(m + n) == 2 * Pow2(m - 1 + n);
      Doubled(Pow2(m - 1), Pow2(n));
    }
  }

  lemma BytePowers()
    ensures Pow2(0) == 1 && Pow2(1) == 2 && Pow2(2) == 4 && Pow2(8) == 0x100
    ensures Pow2(12) == 0x1000 && Pow2(13) == 0x2000 && Pow2(14) == 0x4000 && Pow2(15) == 0x8000 && Pow2(16) == 0x1_0000
  {
    assert Pow2(4) == 0x10 && Pow2(8) == 0x100;
    Pow2Add(4, 8);
    Pow2Add(8, 8);
  }

  lemma WordPowers()
    ensures Pow2(20) == 0x10_0000 && Pow2(21) == 0x20_0000 && Pow2(22) == 0x40_0000 && Pow2(23) == 0x80_0000
    ensures Pow2(24) == 0x100_0000 && Pow2(25) == 0x200_0000 && Pow2(26) == 0x400_0000 && Pow2(32) == 0x1_0000_0000
  {
    BytePowers();
    Pow2Add(12, 8);
    Pow2Add(16, 16);
  }

  lemma {:induction false} ToNatBound(bits: seq<bool>)
    ensures ToNat(bits) < Pow2(|bits|)
  {
    if bits != [] {
      ToNatBound(bits[1..]);
    }
  }

  lemma {:induction false} FromToNat(bits: seq<bool>)
    ensures FromNat(ToNat(bits), |bits|) == bits
  {
    if bits != [] {
      FromToNat(bits[1..]);
      var n := ToNat(bits);
      assert n / 2 == ToNat(bits[1..]);
      assert n % 2 == if bits[0] then 1 else 0;
      assert bits == [bits[0]] + bits[1..];
    }
  }

  lemma Distribute(a: int, b: int, d: int)
    ensures (a - b) * d == a * d - b * d
  {
  }

  lemma MulAtLeast(k: int, d: int)
    requires d > 0
    ensures k >= 1 ==> k * d >= d
    ensures k <= -1 ==> k * d <= -d
  {
    assert k >= 1 ==> (k - 1) * d >= 0;
    assert k <= -1 ==> (k + 1) * d <= 0;
  }

  /** The only multiple of `d` strictly between `-d` and `d` is zero. */
  lemma SmallMultiple(k: int, d: int)
    requires d > 0 && -d < k * d < d
    ensures k == 0
  {
    MulAtLeast(k, d);
  }

  /** Quotient and remainder are determined by any decomposition in range. */
  lemma DivModUnique(n: int, d: int, q: int, r: int)
    requires d > 0 && n == q * d + r && 0 <= r < d
    ensures n / d == q && n % d == r
  {
    var q', r' := n / d, n % d;
    assert n == q' * d + r';
    assert (q - q') * d == q * d - q' * d == r' - r;
    SmallMultiple(q - q', d);
  }

  lemma DivModOf(n: int, d: int, q: int, r: int)
    requires d > 0 && n == r + d * q && 0 <= r < d
    ensures n / d == q && n % d == r
  {
    DivModUnique(n, d, q, r);
  }

  /** A number already in range is its own residue. */
  lemma ModSmall(n: nat, d: nat)
    requires n < d
    ensures n % d == n
  {
    DivModUnique(n, d, 0, n);
  }

  /** Masking twice is masking once. */
  lemma ModMod(n: int, d: nat)
    requires d > 0
    ensures n % d % d == n % d
  {
    ModSmall(n % d, d);
  }

  lemma ModShift(a: int, k: int, d: nat)
    requires d > 0
    ensures (a + k * d) % d == a % d
  {
    var q, r := a / d, a % d;
    assert a == q * d + r;
    assert (q + k) * d == q * d + k * d;
    DivModUnique(a + k * d, d, q + k, r);
  }

  lemma HalvedDivMod(value: nat, p: nat)
    requires p > 0
    ensures value / (2 * p) == value / 2 / p
    ensures value % (2 * p) == value % 2 + 2 * (value / 2 % p)
  {
    var h, l := value / 2, value % 2;
    var q, r := h / p, h % p;
    assert h == p * q + r;
    assert q * (2 * p) == 2 * (p * q);
    DivModUnique(value, 2 * p, q, l + 2 * r);
  }

  lemma {:induction false} ToFromNat(value: nat, width: nat)
    ensures ToNat(FromNat(value, width)) == value % Pow2(width)
  {
    if width != 0 {
      ToFromNat(value / 2, width - 1);
      HalvedDivMod(value, Pow2(width - 1));
      assert FromNat(value, width)[1..] == FromNat(value / 2, width - 1);
    }
  }

  lemma {:induction false} FromNatBit(value: nat, width: nat, i: nat)
    requires i < width
    ensures FromNat(value, width)[i] == NatBit(value, i)
  {
    if i != 0 {
      FromNatBit(value / 2, width - 1, i - 1);
      HalvedDivMod(value, Pow2(i - 1));
    }
  }

  lemma {:induction false} ToNatConcat(a: seq<bool>, b: seq<bool>)
    ensures ToNat(a + b) == ToNat(a) + Pow2(|a|) * ToNat(b)
  {
    if a == [] {
      assert a + b == b;
    } else {
      ToNatConcat(a[1..], b);
      assert (a + b)[1..] == a[1..] + b;
      assert 2 * (Pow2(|a| - 1) * ToNat(b)) == Pow2(|a|) * ToNat(b);
    }
  }

  /** Shifting right and masking the number reads a slice of the string. */
  lemma ToNatSlice(bits: seq<bool>, offset: nat, width: nat)
    requires offset + width <= |bits|
    ensures ToNat(bits) / Pow2(offset) % Pow2(width) == ToNat(bits[offset..offset + width])
  {
    var low, mid, high := bits[..offset], bits[offset..offset + width], bits[offset + width..];
    assert bits == low + (mid + high);
    ToNatConcat(low, mid + high);
    ToNatConcat(mid, high);
    ToNatBound(low);
    ToNatBound(mid);
    MiddleNumber(ToNat(bits), Pow2(offset), Pow2(width), ToNat(low), ToNat(mid), ToNat(high), ToNat(mid + high));
  }

  lemma MiddleNumber(n: int, p: int, q: int, low: int, mid: int, high: int, upper: int)
    requires p > 0 && q > 0 && n == low + p * upper && upper == mid + q * high && 0 <= low < p && 0 <= mid < q
    ensures n / p % q == mid
  {
    DivModOf(n, p, upper, low);
    DivModOf(upper, q, high, mid);
  }

  lemma ToNatInjective(a: seq<bool>, b: seq<bool>)
    requires |a| == |b| && ToNat(a) == ToNat(b)
    ensures a == b
  {
    FromToNat(a);
    FromToNat(b);
  }

  // ---- Bytes --------------------------------------------------------------

  function ByteBits(b: byte): (bits: seq<bool>)
    ensures |bits| == 8
  {
    FromNat(b, 8)
  }

  function ByteOf(bits: seq<bool>): byte
    requires |bits| == 8
  {
    ToNatBound(bits);
    assert Pow2(8) == 256;
    ToNat(bits)
  }

  /** `b | (1u << k)` */
  function OrBit(b: byte, k: nat): byte
    requires k < 8
  {
    ByteOf(ByteBits(b)[k := true])
  }

  /** `b & ~(1u << k)` */
  function ClearBit(b: byte, k: nat): byte
    requires k < 8
  {
    ByteOf(ByteBits(b)[k := false])
  }

  lemma SmallRoundTrip(value: nat, width: nat)
    requires value < Pow2(width)
    ensures ToNat(FromNat(value, width)) == value
  {
    ToFromNat(value, width);
    ModSmall(value, Pow2(width));
  }

  lemma ByteRoundTrip(b: byte)
    ensures ByteOf(ByteBits(b)) == b
  {
    assert Pow2(8) == 256;
    SmallRoundTrip(b, 8);
  }

  /** All bits of a byte string; bit `k` is bit `k & 7` of byte `k >> 3`. */
  function AllBits(bytes: seq<byte>): (bits: seq<bool>)
    ensures |bits| == 8 * |bytes|
  {
    seq(8 * |bytes|, k requires 0 <= k < 8 * |bytes| => ByteBits(bytes[k / 8])[k % 8])
  }

  /** Python's `data[lo:hi]` for non-negative bounds. */
  function Slice(data: seq<byte>, lo: nat, hi: nat): seq<byte>
    requires lo <= hi
  {
    if hi <= |data| then data[lo..hi] else if lo <= |data| then data[lo..] else []
  }

  /** `int.from_bytes(bytes, "little")` */
  function LittleEndian(bytes: seq<byte>): nat
  {
    if bytes == [] then 0 else bytes[0] + 256 * LittleEndian(bytes[1..])
  }

  lemma AllBitsCons(bytes: seq<byte>)
    requires bytes != []
    ensures AllBits(bytes) == ByteBits(bytes[0]) + AllBits(bytes[1..])
  {
    var l, r := AllBits(bytes), ByteBits(bytes[0]) + AllBits(bytes[1..]);
    forall k | 0 <= k < |l| ensures l[k] == r[k] {
      if k >= 8 {
        assert (k - 8) / 8 == k / 8 - 1 && (k - 8) % 8 == k % 8;
      }
    }
  }

  lemma {:induction false} LittleEndianIsToNat(bytes: seq<byte>)
    ensures LittleEndian(bytes) == ToNat(AllBits(bytes))
  {
    if bytes != [] {
      LittleEndianIsToNat(bytes[1..]);
      AllBitsCons(bytes);
      ToNatConcat(ByteBits(bytes[0]), AllBits(bytes[1..]));
      ByteRoundTrip(bytes[0]);
      assert Pow2(8) == 256;
    }
  }

  lemma {:induction false} AllBitsInjective(a: seq<byte>, b: seq<byte>)
    requires |a| == |b| && AllBits(a) == AllBits(b)
    ensures a == b
  {
    if a != [] {
      AllBitsCons(a);
      AllBitsCons(b);
      assert ByteBits(a[0]) == AllBits(a)[..8] == AllBits(b)[..8] == ByteBits(b[0]);
      assert AllBits(a[1..]) == AllBits(a)[8..] == AllBits(b)[8..] == AllBits(b[1..]);
      ByteRoundTrip(a[0]);
      ByteRoundTrip(b[0]);
      AllBitsInjective(a[1..], b[1..]);
    }
  }

  /** Concatenated bytes have concatenated bits. */
  lemma AllBitsJoin(c: seq<byte>, tail: seq<byte>)
    ensures AllBits(c + tail) == AllBits(c) + AllBits(tail)
  {
    var w, joined := AllBits(c + tail), AllBits(c) + AllBits(tail);
    forall k | 0 <= k < |w| ensures w[k] == joined[k] {
      if k < 8 * |c| {
        assert (c + tail)[k / 8] == c[k / 8];
      } else {
        var j := k - 8 * |c|;
        assert k / 8 == |c| + j / 8 && k % 8 == j % 8;
        assert (c + tail)[k / 8] == tail[j / 8];
      }
    }
  }

  lemma LittleEndianConcat(c: seq<byte>, tail: seq<byte>)
    ensures LittleEndian(c + tail) == LittleEndian(c) + Pow2(8 * |c|) * LittleEndian(tail)
  {
    LittleEndianIsToNat(c);
    LittleEndianIsToNat(tail);
    LittleEndianIsToNat(c + tail);
    AllBitsJoin(c, tail);
    ToNatConcat(AllBits(c), AllBits(tail));
  }

  /** Writing one bit of one byte writes one bit of the whole string. */
  lemma SetOneBit(bytes: seq<byte>, j: nat, k: nat, on: bool)
    requires j < |bytes| && k < 8
    ensures AllBits(bytes[j := ByteOf(ByteBits(bytes[j])[k := on])]) == AllBits(bytes)[8 * j + k := on]
  {
    var nb := ByteBits(bytes[j])[k := on];
    FromToNat(nb);
    var l, r := AllBits(bytes[j := ByteOf(nb)]), AllBits(bytes)[8 * j + k := on];
    forall i | 0 <= i < |l| ensures l[i] == r[i] {
      assert i == 8 * (i / 8) + i % 8;
      if i / 8 == j {
        assert l[i] == nb[i % 8];
      }
    }
  }

  /** The byte string a bit string spells out. */
  function BytesOf(bits: seq<bool>): (bytes: seq<byte>)
    requires |bits| % 8 == 0
    ensures |bytes| == |bits| / 8
  {
    seq(|bits| / 8, j requires 0 <= j < |bits| / 8 => ByteOf(bits[8 * j..8 * j + 8]))
  }

  lemma AllBitsOfBytesOf(bits: seq<bool>)
    requires |bits| % 8 == 0
    ensures AllBits(BytesOf(bits)) == bits
  {
    var l := AllBits(BytesOf(bits));
    forall k | 0 <= k < |bits| ensures l[k] == bits[k] {
      var j := k / 8;
      FromToNat(bits[8 * j..8 * j + 8]);
      assert k == 8 * j + k % 8;
    }
  }

  // ---- Two's complement -----------------------------------------------------

  predicate FitsSigned(value: int, width: nat)
    requires width > 0
  {
    var limit: int := Pow2(width - 1);
    -limit <= value < limit
  }

  /** Reads the low `width` bits of `value` as a two's-complement number. */
  function SignExtend(value: int, width: nat): (r: int)
    requires width > 0
    ensures FitsSigned(r, width)
  {
    var m := value % Pow2(width);
    if m >= Pow2(width - 1) then m - Pow2(width) else m
  }

  /** Sign extension only ever moves by whole multiples of the field size. */
  lemma SignExtendStep(value: int, width: nat) returns (k: int)
    requires width > 0
    ensures SignExtend(value, width) == value + k * Pow2(width)
  {
    var p := Pow2(width);
    var m, q := value % p, value / p;
    assert value == q * p + m;
    if m >= Pow2(width - 1) {
      k := -q - 1;
      assert k * p == -(q * p) - p;
    } else {
      k := -q;
      assert k * p == -(q * p);
    }
  }

  /** The remainder of an in-range number, wrapped up when negative. */
  lemma WrappedMod(value: int, p: int, r: int, k: int)
    requires p > 0 && -p <= r < p && r == value + k * p
    ensures value % p == if r >= 0 then r else r + p
  {
    assert (-k) * p == -(k * p) && (-k - 1) * p == -(k * p) - p;
    if r >= 0 {
      DivModUnique(value, p, -k, r);
    } else {
      DivModUnique(value, p, -k - 1, r + p);
    }
  }

  /** Sign extension is the one in-range number congruent to its argument. */
  lemma SignExtendOf(value: int, width: nat, r: int, k: int)
    requires width > 0 && FitsSigned(r, width) && r == value + k * Pow2(width)
    ensures SignExtend(value, width) == r
  {
    WrappedMod(value, Pow2(width), r, k);
  }

  /** Masking first, then sign extending, loses nothing. */
  lemma SignExtendOfResidue(value: int, width: nat)
    requires width > 0
    ensures SignExtend(value % Pow2(width), width) == SignExtend(value, width)
  {
    ModMod(value, Pow2(width));
  }

  // ---- Exclusive or -----------------------------------------------------------

  function XorBits(a: seq<bool>, b: seq<bool>): (r: seq<bool>)
    requires |a| == |b|
    ensures |r| == |a|
  {
    seq(|a|, i requires 0 <= i < |a| => a[i] != b[i])
  }

  /** `a ^ b` on numbers of at most `width` bits. */
  function Xor(a: nat, b: nat, width: nat): (r: nat)
    ensures r < Pow2(width)
  {
    ToNatBound(XorBits(FromNat(a, width), FromNat(b, width)));
    ToNat(XorBits(FromNat(a, width), FromNat(b, width)))
  }

  function XorByte(a: byte, b: byte): byte {
    assert Pow2(8) == 0x100;
    Xor(a, b, 8)
  }

  lemma XorIsBitwise(a: nat, b: nat, width: nat)
    ensures FromNat(Xor(a, b, width), width) == XorBits(FromNat(a, width), FromNat(b, width))
  {
    FromToNat(XorBits(FromNat(a, width), FromNat(b, width)));
  }

  lemma FromNatInjective(a: nat, b: nat, width: nat)
    requires a < Pow2(width) && b < Pow2(width)
    requires FromNat(a, width) == FromNat(b, width)
    ensures a == b
  {
    ToFromNat(a, width);
    ToFromNat(b, width);
    ModSmall(a, Pow2(width));
    ModSmall(b, Pow2(width));
  }

  /** A small number has zeros above its width. */
  lemma {:induction false} FromNatPad(value: nat, width: nat, extra: nat)
    requires value < Pow2(width)
    ensures FromNat(value, width + extra) == FromNat(value, width) + seq(extra, _ => false)
    decreases width + extra
  {
    if width != 0 {
      FromNatPad(value / 2, width - 1, extra);
    } else if extra != 0 {
      FromNatPad(0, 0, extra - 1);
      assert seq(extra, _ => false) == [false] + seq(extra - 1, _ => false);
    } else {
      assert FromNat(value, 0) == [] == [] + seq(0, _ => false);
    }
  }
}
