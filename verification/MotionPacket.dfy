// The 40-byte (length-0x28) Switch 2 motion PDU: three layouts over one
// 288-bit payload, the specification of its packers, and its decoder.

module MotionPacket {
  import opened Bits
  import opened BitLayout

  type uint8 = x: int | 0 <= x < 0x100
  type uint16 = x: int | 0 <= x < 0x1_0000
  type uint32 = x: int | 0 <= x < 0x1_0000_0000
  type int32 = x: int | -0x8000_0000 <= x < 0x8000_0000

  const PDU_BYTES := 40
  const HEADER_BYTES := 4
  const PAYLOAD_BYTES := 36
  const PAYLOAD_BITS := 288
  const CATCHUP_MIN_ELAPSED := 15
  const HIGH_RATE_MAX_ELAPSED := 10

  datatype Vec3 = Vec3(x: int32, y: int32, z: int32)

  datatype Motion = Motion(
    tick: uint16, elapsed: uint16, status: uint8, mode: uint8,
    carrier: Vec3, accel: seq<Vec3>, gyro: seq<Vec3>, tail: uint16)

  datatype Slot = Slot(offset: nat, width: nat)

  /** Where a layout puts each field; a sample slot holds three components of its width. */
  datatype Layout = Layout(carrier: (Slot, Slot, Slot), accel: seq<Slot>, gyro: seq<Slot>, tail: Slot)

  const CATCHUP := Layout(
    (Slot(2, 22), Slot(24, 21), Slot(45, 23)),
    [Slot(68, 14), Slot(158, 13), Slot(245, 14)], [Slot(110, 16), Slot(197, 16)], Slot(287, 1))

  const HIGH_RATE := Layout(
    (Slot(2, 24), Slot(26, 23), Slot(49, 25)),
    [Slot(74, 22), Slot(206, 22)], [Slot(140, 22)], Slot(272, 16))

  const NORMAL := Layout(
    (Slot(2, 22), Slot(24, 21), Slot(45, 23)),
    [Slot(68, 14), Slot(149, 13), Slot(230, 14)], [Slot(110, 13), Slot(188, 14)], Slot(272, 16))

  /** The packet's own elapsed count selects its layout. */
  function LayoutFor(elapsed: nat): Layout {
    if elapsed >= CATCHUP_MIN_ELAPSED then CATCHUP
    else if elapsed <= HIGH_RATE_MAX_ELAPSED then HIGH_RATE
    else NORMAL
  }

  // ---- Layout geometry ------------------------------------------------------

  function End(s: Slot): nat {
    s.offset + 3 * s.width
  }

  /** Acceleration and gyro samples alternate on the wire, end to end. */
  predicate Chained(accel: seq<Slot>, gyro: seq<Slot>, at: nat, end: nat) {
    && accel != [] && accel[0].offset == at && 0 < accel[0].width <= 32
    && if gyro == [] then |accel| == 1 && End(accel[0]) == end
       else gyro[0].offset == End(accel[0]) && 0 < gyro[0].width <= 32
            && Chained(accel[1..], gyro[1..], End(gyro[0]), end)
  }

  /** Two mode bits, three carrier lanes, the samples and the tail fill the payload. */
  predicate Gapless(l: Layout) {
    var (a, b, c) := l.carrier;
    && a.offset == 2 && b.offset == a.offset + a.width && c.offset == b.offset + b.width
    && 0 < a.width <= 32 && 0 < b.width <= 32 && 0 < c.width <= 32
    && Chained(l.accel, l.gyro, c.offset + c.width, l.tail.offset)
    && l.tail.offset + l.tail.width == PAYLOAD_BITS
    && l.tail.width <= 16
  }

  lemma {:induction false} ChainedCounts(accel: seq<Slot>, gyro: seq<Slot>, at: nat, end: nat)
    requires Chained(accel, gyro, at, end)
    ensures |accel| == |gyro| + 1
    ensures forall s :: s in accel || s in gyro ==> 0 < s.width <= 32
  {
    if gyro != [] {
      ChainedCounts(accel[1..], gyro[1..], End(gyro[0]), end);
      assert forall s :: s in accel ==> s == accel[0] || s in accel[1..];
      assert forall s :: s in gyro ==> s == gyro[0] || s in gyro[1..];
    }
  }

  /** Every layout the decoder knows tiles all 288 payload bits. */
  lemma LayoutsGapless(elapsed: nat)
    ensures Gapless(LayoutFor(elapsed))
    ensures Gapless(CATCHUP) && Gapless(HIGH_RATE) && Gapless(NORMAL)
  {
    forall l | l == CATCHUP || l == NORMAL ensures Gapless(l) {
      assert Chained(l.accel[1..][1..], l.gyro[1..][1..], End(l.gyro[1]), l.tail.offset);
      assert Chained(l.accel[1..], l.gyro[1..], End(l.gyro[0]), l.tail.offset);
    }
    assert Chained(HIGH_RATE.accel[1..], HIGH_RATE.gyro[1..], End(HIGH_RATE.gyro[0]), HIGH_RATE.tail.offset);
  }

  // ---- Packing --------------------------------------------------------------

  predicate VecFits(v: Vec3, width: nat)
    requires width > 0
  {
    FitsSigned(v.x, width) && FitsSigned(v.y, width) && FitsSigned(v.z, width)
  }

  predicate SamplesFit(samples: seq<Vec3>, slots: seq<Slot>)
    requires forall s :: s in slots ==> s.width > 0
  {
    |samples| == |slots| && forall i :: 0 <= i < |slots| ==> VecFits(samples[i], slots[i].width)
  }

  /** Every field fits its slot. */
  predicate InRange(l: Layout, m: Motion)
    requires Gapless(l)
  {
    ChainedCounts(l.accel, l.gyro, l.carrier.2.offset + l.carrier.2.width, l.tail.offset);
    && m.tick <= 0xFFF && m.elapsed <= 0xFFF && m.mode <= 3 && m.tail < Pow2(l.tail.width)
    && FitsSigned(m.carrier.x, l.carrier.0.width)
    && FitsSigned(m.carrier.y, l.carrier.1.width)
    && FitsSigned(m.carrier.z, l.carrier.2.width)
    && SamplesFit(m.accel, l.accel) && SamplesFit(m.gyro, l.gyro)
  }

  function At(s: Slot, value: int): Write {
    Write(s.offset, s.width, value)
  }

  function CarrierWrites(l: Layout, v: Vec3): seq<Write> {
    [At(l.carrier.0, v.x), At(l.carrier.1, v.y), At(l.carrier.2, v.z)]
  }

  function VectorWrites(s: Slot, v: Vec3): seq<Write> {
    [Write(s.offset, s.width, v.x), Write(s.offset + s.width, s.width, v.y),
     Write(s.offset + 2 * s.width, s.width, v.z)]
  }

  function SampleWrites(slots: seq<Slot>, samples: seq<Vec3>): seq<Write>
    requires |slots| == |samples|
  {
    if slots == [] then []
    else SampleWrites(slots[..|slots| - 1], samples[..|slots| - 1])
         + VectorWrites(slots[|slots| - 1], samples[|slots| - 1])
  }

  /** The stores in the order the packer issues them. */
  function Writes(l: Layout, m: Motion): seq<Write>
    requires |m.accel| == |l.accel| && |m.gyro| == |l.gyro|
  {
    [Write(0, 2, m.mode)] + CarrierWrites(l, m.carrier)
    + SampleWrites(l.accel, m.accel) + SampleWrites(l.gyro, m.gyro) + [At(l.tail, m.tail)]
  }

  function Header(m: Motion): seq<byte> {
    [m.tick % 0x100,
     m.tick / 0x100 % 0x10 + m.elapsed % 0x10 * 0x10,
     m.elapsed / 0x10 % 0x100,
     m.status]
  }

  function Payload(l: Layout, m: Motion): (bits: seq<bool>)
    requires |m.accel| == |l.accel| && |m.gyro| == |l.gyro|
    ensures |bits| == PAYLOAD_BITS
  {
    PutAll(Zeros(PAYLOAD_BITS), Writes(l, m))
  }

  function Pdu(l: Layout, m: Motion): (pdu: seq<byte>)
    requires |m.accel| == |l.accel| && |m.gyro| == |l.gyro|
    ensures |pdu| == PDU_BYTES
  {
    Header(m) + BytesOf(Payload(l, m))
  }

  /** The status byte goes out verbatim: no status, zero included, stands for a standard one. */
  lemma StatusVerbatim(l: Layout, m: Motion, standard: uint8)
    requires |m.accel| == |l.accel| && |m.gyro| == |l.gyro| && standard != 0
    ensures Pdu(l, m)[3] == (if m.status == 0 then standard else m.status) <==> m.status != 0
  {
  }

  // ---- The same stores, in wire order ---------------------------------------

  function Interleaved(accel: seq<Slot>, a: seq<Vec3>, gyro: seq<Slot>, g: seq<Vec3>): seq<Write>
    requires |accel| == |a| == |gyro| + 1 == |g| + 1
  {
    if gyro == [] then VectorWrites(accel[0], a[0])
    else VectorWrites(accel[0], a[0]) + VectorWrites(gyro[0], g[0])
         + Interleaved(accel[1..], a[1..], gyro[1..], g[1..])
  }

  function WireOrder(l: Layout, m: Motion): seq<Write>
    requires |m.accel| == |l.accel| == |l.gyro| + 1 == |m.gyro| + 1
  {
    [Write(0, 2, m.mode)] + CarrierWrites(l, m.carrier)
    + Interleaved(l.accel, m.accel, l.gyro, m.gyro) + [At(l.tail, m.tail)]
  }

  lemma {:induction false} SampleMember(slots: seq<Slot>, samples: seq<Vec3>, w: Write)
    requires |slots| == |samples|
    ensures w in SampleWrites(slots, samples)
      <==> exists i :: 0 <= i < |slots| && w in VectorWrites(slots[i], samples[i])
  {
    if slots != [] {
      SampleMember(slots[..|slots| - 1], samples[..|slots| - 1], w);
    }
  }

  lemma {:induction false} InterleavedMember(accel: seq<Slot>, a: seq<Vec3>, gyro: seq<Slot>, g: seq<Vec3>, w: Write)
    requires |accel| == |a| == |gyro| + 1 == |g| + 1
    ensures w in Interleaved(accel, a, gyro, g)
      <==> ((exists i :: 0 <= i < |accel| && w in VectorWrites(accel[i], a[i]))
            || (exists i :: 0 <= i < |gyro| && w in VectorWrites(gyro[i], g[i])))
  {
    if gyro != [] {
      InterleavedMember(accel[1..], a[1..], gyro[1..], g[1..], w);
      if i :| 0 <= i < |accel| && w in VectorWrites(accel[i], a[i]) {
        if i > 0 {
          assert accel[1..][i - 1] == accel[i] && a[1..][i - 1] == a[i];
        }
      }
      if i :| 0 <= i < |gyro| && w in VectorWrites(gyro[i], g[i]) {
        if i > 0 {
          assert gyro[1..][i - 1] == gyro[i] && g[1..][i - 1] == g[i];
        }
      }
    }
  }

  lemma SameStores(l: Layout, m: Motion, w: Write)
    requires |m.accel| == |l.accel| == |l.gyro| + 1 == |m.gyro| + 1
    ensures w in Writes(l, m) <==> w in WireOrder(l, m)
  {
    SampleMember(l.accel, m.accel, w);
    SampleMember(l.gyro, m.gyro, w);
    InterleavedMember(l.accel, m.accel, l.gyro, m.gyro, w);
  }

  lemma TilesVector(s: Slot, v: Vec3)
    ensures Tiles(VectorWrites(s, v), s.offset, End(s))
  {
    var ws := VectorWrites(s, v);
    assert ws[1..][1..] == [ws[2]];
    assert Tiles(ws[1..][1..][1..], End(s), End(s));
  }

  lemma {:induction false} TilesInterleaved(accel: seq<Slot>, a: seq<Vec3>, gyro: seq<Slot>, g: seq<Vec3>,
    at: nat, end: nat)
    requires |accel| == |a| == |gyro| + 1 == |g| + 1
    requires Chained(accel, gyro, at, end)
    ensures Tiles(Interleaved(accel, a, gyro, g), at, end)
  {
    TilesVector(accel[0], a[0]);
    if gyro != [] {
      TilesVector(gyro[0], g[0]);
      TilesInterleaved(accel[1..], a[1..], gyro[1..], g[1..], End(gyro[0]), end);
      var first, second := VectorWrites(accel[0], a[0]), VectorWrites(gyro[0], g[0]);
      TilesConcat(first, second, at, End(accel[0]), End(gyro[0]));
      TilesConcat(first + second, Interleaved(accel[1..], a[1..], gyro[1..], g[1..]), at, End(gyro[0]), end);
    }
  }

  lemma TilesPayload(l: Layout, m: Motion)
    requires Gapless(l) && |m.accel| == |l.accel| && |m.gyro| == |l.gyro|
    ensures |l.accel| == |l.gyro| + 1
    ensures Tiles(WireOrder(l, m), 0, PAYLOAD_BITS)
    ensures Payload(l, m) == Concat(WireOrder(l, m))
  {
    var mid := l.carrier.2.offset + l.carrier.2.width;
    ChainedCounts(l.accel, l.gyro, mid, l.tail.offset);
    var mode, lanes := [Write(0, 2, m.mode)], CarrierWrites(l, m.carrier);
    var samples, tail := Interleaved(l.accel, m.accel, l.gyro, m.gyro), [At(l.tail, m.tail)];
    assert lanes[1..][1..] == [lanes[2]];
    assert Tiles(lanes[1..][1..][1..], mid, mid);
    assert Tiles(mode[1..], 2, 2) && Tiles(tail[1..], PAYLOAD_BITS, PAYLOAD_BITS);
    TilesConcat(mode, lanes, 0, 2, mid);
    TilesInterleaved(l.accel, m.accel, l.gyro, m.gyro, mid, l.tail.offset);
    TilesConcat(mode + lanes, samples, 0, mid, l.tail.offset);
    TilesConcat(mode + lanes + samples, tail, 0, l.tail.offset, PAYLOAD_BITS);
    forall w ensures w in Writes(l, m) <==> w in WireOrder(l, m) {
      SameStores(l, m, w);
    }
    PackedTiles(Writes(l, m), WireOrder(l, m), PAYLOAD_BITS);
  }

  // ---- Decoding -------------------------------------------------------------

  function ReadVector(payload: seq<byte>, s: Slot): (v: Vec3)
    requires 0 < s.width <= 32
    ensures VecFits(v, s.width)
  {
    WidthBound(s.width);
    Vec3(SignedBits(payload, s.offset, s.width),
         SignedBits(payload, s.offset + s.width, s.width),
         SignedBits(payload, s.offset + 2 * s.width, s.width))
  }

  function ReadLane(payload: seq<byte>, s: Slot): (v: int32)
    requires 0 < s.width <= 32
    ensures FitsSigned(v, s.width)
  {
    WidthBound(s.width);
    SignedBits(payload, s.offset, s.width)
  }

  lemma WidthBound(width: nat)
    requires width <= 32
    ensures width > 0 ==> Pow2(width - 1) <= 0x8000_0000
    ensures width <= 16 ==> Pow2(width) <= 0x1_0000
  {
    Pow2Monotone(width, 32);
    assert Pow2(8) == 0x100;
    Pow2Add(8, 8);
    Pow2Add(16, 16);
    if width > 0 {
      Pow2Monotone(width - 1, 31);
      assert Pow2(32) == 2 * Pow2(31);
    }
    if width <= 16 {
      Pow2Monotone(width, 16);
    }
  }

  lemma {:induction false} Pow2Monotone(m: nat, n: nat)
    requires m <= n
    ensures Pow2(m) <= Pow2(n)
    decreases n - m
  {
    if m < n {
      Pow2Monotone(m + 1, n);
    }
  }

  /** Twelve bits: byte 0 and the low nibble of byte 1. */
  function TickOf(pdu: seq<byte>): (t: uint16)
    requires |pdu| == PDU_BYTES
    ensures t <= 0xFFF
  {
    var low: int, high: int := pdu[0], pdu[1] % 0x10;
    low + high * 0x100
  }

  /** Twelve bits: the high nibble of byte 1 and byte 2. */
  function ElapsedOf(pdu: seq<byte>): (t: uint16)
    requires |pdu| == PDU_BYTES
    ensures t <= 0xFFF
  {
    var low: int, high: int := pdu[1] / 0x10, pdu[2];
    low + high * 0x10
  }

  function Unpack(l: Layout, pdu: seq<byte>): Motion
    requires Gapless(l) && |pdu| == PDU_BYTES
  {
    var payload := pdu[HEADER_BYTES..];
    ChainedCounts(l.accel, l.gyro, l.carrier.2.offset + l.carrier.2.width, l.tail.offset);
    WidthBound(l.tail.width);
    assert Pow2(2) == 4;
    Motion(
      TickOf(pdu), ElapsedOf(pdu), pdu[3], UnsignedBits(payload, 0, 2),
      Vec3(ReadLane(payload, l.carrier.0), ReadLane(payload, l.carrier.1), ReadLane(payload, l.carrier.2)),
      seq(|l.accel|, i requires 0 <= i < |l.accel| => ReadVector(payload, l.accel[i])),
      seq(|l.gyro|, i requires 0 <= i < |l.gyro| => ReadVector(payload, l.gyro[i])),
      UnsignedBits(payload, l.tail.offset, l.tail.width))
  }

  datatype Decoded =
    | BadLength
    | UnknownMode(tick: uint16, elapsed: uint16, status: uint8, mode: uint8)
    | Sample(layout: Layout, fields: Motion)

  function Decode(pdu: seq<byte>): Decoded {
    if |pdu| != PDU_BYTES then BadLength
    else
      var elapsed := ElapsedOf(pdu);
      LayoutsGapless(elapsed);
      var m := Unpack(LayoutFor(elapsed), pdu);
      if m.mode != 3 then UnknownMode(m.tick, m.elapsed, m.status, m.mode)
      else Sample(LayoutFor(elapsed), m)
  }

  // ---- The bijection ----------------------------------------------------------

  lemma HeaderRoundTrip(m: Motion, pdu: seq<byte>)
    requires |pdu| == PDU_BYTES && pdu[..HEADER_BYTES] == Header(m)
    requires m.tick <= 0xFFF && m.elapsed <= 0xFFF
    ensures TickOf(pdu) == m.tick && ElapsedOf(pdu) == m.elapsed && pdu[3] == m.status
  {
    assert forall i :: 0 <= i < HEADER_BYTES ==> pdu[i] == pdu[..HEADER_BYTES][i];
    FromNibbles(m.tick, m.elapsed, pdu[0], pdu[1], pdu[2]);
  }

  lemma FromNibbles(tick: int, elapsed: int, a: int, b: int, c: int)
    requires 0 <= tick <= 0xFFF && 0 <= elapsed <= 0xFFF
    requires a == tick % 0x100 && b == tick / 0x100 % 0x10 + elapsed % 0x10 * 0x10 && c == elapsed / 0x10 % 0x100
    ensures a + b % 0x10 * 0x100 == tick && b / 0x10 + c * 0x10 == elapsed
  {
    DivModUnique(b, 0x10, elapsed % 0x10, tick / 0x100);
  }

  lemma HeaderOfRead(pdu: seq<byte>, m: Motion)
    requires |pdu| == PDU_BYTES
    requires m.tick == TickOf(pdu) && m.elapsed == ElapsedOf(pdu) && m.status == pdu[3]
    ensures Header(m) == pdu[..HEADER_BYTES]
  {
    Nibbles(pdu[0], pdu[1] % 0x10, pdu[1] / 0x10, pdu[2], m.tick, m.elapsed);
  }

  lemma Nibbles(a: int, low: int, high: int, c: int, tick: int, elapsed: int)
    requires 0 <= a < 0x100 && 0 <= low < 0x10 && 0 <= high < 0x10 && 0 <= c < 0x100
    requires tick == a + low * 0x100 && elapsed == high + c * 0x10
    ensures tick % 0x100 == a && tick / 0x100 % 0x10 == low && elapsed % 0x10 == high && elapsed / 0x10 % 0x100 == c
  {
    DivModUnique(tick, 0x100, low, a);
    DivModUnique(elapsed, 0x10, c, high);
  }

  lemma ReadsBack(l: Layout, m: Motion, w: Write)
    requires Gapless(l) && |m.accel| == |l.accel| && |m.gyro| == |l.gyro|
    requires w in Writes(l, m)
    ensures var payload := BytesOf(Payload(l, m));
      && UnsignedBits(payload, w.offset, w.width) == w.Residue()
      && (w.width > 0 && FitsSigned(w.value, w.width)
          ==> SignedBits(payload, w.offset, w.width) == w.value)
  {
    TilesPayload(l, m);
    SameStores(l, m, w);
    AllBitsOfBytesOf(Payload(l, m));
    ReadsField(BytesOf(Payload(l, m)), WireOrder(l, m), w);
  }

  lemma SampleStores(slots: seq<Slot>, samples: seq<Vec3>, i: nat)
    requires i < |slots| == |samples|
    ensures forall w :: w in VectorWrites(slots[i], samples[i]) ==> w in SampleWrites(slots, samples)
  {
    forall w | w in VectorWrites(slots[i], samples[i]) ensures w in SampleWrites(slots, samples) {
      SampleMember(slots, samples, w);
    }
  }

  lemma VectorReadsBack(l: Layout, m: Motion, s: Slot, v: Vec3)
    requires Gapless(l) && |m.accel| == |l.accel| && |m.gyro| == |l.gyro|
    requires 0 < s.width <= 32 && VecFits(v, s.width)
    requires forall w :: w in VectorWrites(s, v) ==> w in Writes(l, m)
    ensures ReadVector(BytesOf(Payload(l, m)), s) == v
  {
    var ws := VectorWrites(s, v);
    ReadsBack(l, m, ws[0]);
    ReadsBack(l, m, ws[1]);
    ReadsBack(l, m, ws[2]);
  }

  lemma CarrierReadsBack(l: Layout, m: Motion)
    requires Gapless(l) && InRange(l, m)
    ensures Unpack(l, Pdu(l, m)).carrier == m.carrier
  {
    assert Pdu(l, m)[HEADER_BYTES..] == BytesOf(Payload(l, m));
    var lanes := CarrierWrites(l, m.carrier);
    ReadsBack(l, m, lanes[0]);
    ReadsBack(l, m, lanes[1]);
    ReadsBack(l, m, lanes[2]);
  }

  lemma ScalarsReadBack(l: Layout, m: Motion)
    requires Gapless(l) && InRange(l, m)
    ensures var u := Unpack(l, Pdu(l, m));
      u.tick == m.tick && u.elapsed == m.elapsed && u.status == m.status && u.mode == m.mode && u.tail == m.tail
  {
    assert Pdu(l, m)[HEADER_BYTES..] == BytesOf(Payload(l, m));
    HeaderRoundTrip(m, Pdu(l, m));
    ReadsBack(l, m, Write(0, 2, m.mode));
    ReadsBack(l, m, At(l.tail, m.tail));
    assert Pow2(2) == 4;
    ModSmall(m.mode, 4);
    ModSmall(m.tail, Pow2(l.tail.width));
  }

  lemma SamplesReadBack(l: Layout, m: Motion)
    requires Gapless(l) && InRange(l, m)
    ensures Unpack(l, Pdu(l, m)).accel == m.accel && Unpack(l, Pdu(l, m)).gyro == m.gyro
  {
    var u := Unpack(l, Pdu(l, m));
    assert Pdu(l, m)[HEADER_BYTES..] == BytesOf(Payload(l, m));
    ChainedCounts(l.accel, l.gyro, l.carrier.2.offset + l.carrier.2.width, l.tail.offset);
    forall i | 0 <= i < |l.accel| ensures u.accel[i] == m.accel[i] {
      SampleStores(l.accel, m.accel, i);
      VectorReadsBack(l, m, l.accel[i], m.accel[i]);
    }
    forall i | 0 <= i < |l.gyro| ensures u.gyro[i] == m.gyro[i] {
      SampleStores(l.gyro, m.gyro, i);
      VectorReadsBack(l, m, l.gyro[i], m.gyro[i]);
    }
  }

  /** Decoding a packed tuple of in-range fields returns every field, sign included. */
  lemma UnpackPack(l: Layout, m: Motion)
    requires Gapless(l) && InRange(l, m)
    ensures Unpack(l, Pdu(l, m)) == m
  {
    ScalarsReadBack(l, m);
    CarrierReadsBack(l, m);
    SamplesReadBack(l, m);
  }

  lemma LaneStoreOfRead(payload: seq<byte>, offset: nat, width: nat, w: Write)
    requires 0 < width && w == Write(offset, width, SignedBits(payload, offset, width))
    ensures w.Residue() == UnsignedBits(payload, offset, width)
  {
    SignedReadResidue(payload, offset, width);
  }

  lemma VectorStoreOfRead(payload: seq<byte>, s: Slot, w: Write)
    requires 0 < s.width <= 32 && w in VectorWrites(s, ReadVector(payload, s))
    ensures w.Residue() == UnsignedBits(payload, w.offset, w.width)
  {
    LaneStoreOfRead(payload, w.offset, w.width, w);
  }

  /** What an unpacked field stores is what its slot held. */
  lemma StoreOfRead(l: Layout, pdu: seq<byte>, w: Write)
    requires Gapless(l) && |pdu| == PDU_BYTES
    requires var m := Unpack(l, pdu); |m.accel| == |l.accel| && |m.gyro| == |l.gyro| && w in Writes(l, m)
    ensures w.Residue() == UnsignedBits(pdu[HEADER_BYTES..], w.offset, w.width)
  {
    var m, payload := Unpack(l, pdu), pdu[HEADER_BYTES..];
    ChainedCounts(l.accel, l.gyro, l.carrier.2.offset + l.carrier.2.width, l.tail.offset);
    if w == Write(0, 2, m.mode) {
      ModMod(LittleEndian(payload) / Pow2(0), Pow2(2));
    } else if w == At(l.tail, m.tail) {
      ModMod(LittleEndian(payload) / Pow2(w.offset), Pow2(w.width));
    } else if w in CarrierWrites(l, m.carrier) {
      LaneStoreOfRead(payload, w.offset, w.width, w);
    } else if w in SampleWrites(l.accel, m.accel) {
      SampleMember(l.accel, m.accel, w);
      var i :| 0 <= i < |l.accel| && w in VectorWrites(l.accel[i], m.accel[i]);
      VectorStoreOfRead(payload, l.accel[i], w);
    } else {
      SampleMember(l.gyro, m.gyro, w);
      var i :| 0 <= i < |l.gyro| && w in VectorWrites(l.gyro[i], m.gyro[i]);
      VectorStoreOfRead(payload, l.gyro[i], w);
    }
  }

  lemma UnpackInRange(l: Layout, pdu: seq<byte>)
    requires Gapless(l) && |pdu| == PDU_BYTES
    ensures InRange(l, Unpack(l, pdu))
  {
    assert Pow2(2) == 4;
    ChainedCounts(l.accel, l.gyro, l.carrier.2.offset + l.carrier.2.width, l.tail.offset);
  }

  lemma PayloadOfRead(l: Layout, pdu: seq<byte>)
    requires Gapless(l) && |pdu| == PDU_BYTES
    ensures var m := Unpack(l, pdu);
      && |m.accel| == |l.accel| && |m.gyro| == |l.gyro|
      && Payload(l, m) == AllBits(pdu[HEADER_BYTES..])
  {
    var m := Unpack(l, pdu);
    TilesPayload(l, m);
    OrderOfRead(l, pdu, m, WireOrder(l, m), AllBits(pdu[HEADER_BYTES..]));
  }

  lemma OrderOfRead(l: Layout, pdu: seq<byte>, m: Motion, order: seq<Write>, bits: seq<bool>)
    requires Gapless(l) && |pdu| == PDU_BYTES && m == Unpack(l, pdu) && bits == AllBits(pdu[HEADER_BYTES..])
    requires |m.accel| == |l.accel| == |l.gyro| + 1 == |m.gyro| + 1
    requires order == WireOrder(l, m) && Tiles(order, 0, PAYLOAD_BITS)
    ensures Concat(order) == bits
  {
    TilesRange(order, 0, PAYLOAD_BITS);
    forall w | w in order ensures w.Residue() == ToNat(bits[w.offset..w.offset + w.width]) {
      SliceOfRead(l, pdu, m, w);
    }
    ConcatOfSlices(order, bits, 0);
    assert bits[0..] == bits;
  }

  lemma SliceOfRead(l: Layout, pdu: seq<byte>, m: Motion, w: Write)
    requires Gapless(l) && |pdu| == PDU_BYTES && w.offset + w.width <= PAYLOAD_BITS && m == Unpack(l, pdu)
    requires |m.accel| == |l.accel| == |l.gyro| + 1 == |m.gyro| + 1 && w in WireOrder(l, m)
    ensures w.Residue() == ToNat(AllBits(pdu[HEADER_BYTES..])[w.offset..w.offset + w.width])
  {
    SameStores(l, m, w);
    StoreOfRead(l, pdu, w);
    var payload := pdu[HEADER_BYTES..];
    UnsignedReadSlice(payload, w.offset, w.width);
  }

  /** Every 40-byte packet is the packing of the in-range fields read from it. */
  lemma PackUnpack(l: Layout, pdu: seq<byte>)
    requires Gapless(l) && |pdu| == PDU_BYTES
    ensures InRange(l, Unpack(l, pdu)) && Pdu(l, Unpack(l, pdu)) == pdu
  {
    var m, payload := Unpack(l, pdu), pdu[HEADER_BYTES..];
    UnpackInRange(l, pdu);
    PayloadOfRead(l, pdu);
    AllBitsOfBytesOf(Payload(l, m));
    AllBitsInjective(BytesOf(Payload(l, m)), payload);
    HeaderOfRead(pdu, m);
    assert pdu == pdu[..HEADER_BYTES] + payload;
  }

  /** The decoder inverts the packer exactly on mode-3 packets; any other mode is classified, not decoded. */
  lemma DecodeInvertsPack(m: Motion)
    requires Gapless(LayoutFor(m.elapsed)) && InRange(LayoutFor(m.elapsed), m)
    ensures Decode(Pdu(LayoutFor(m.elapsed), m))
         == if m.mode == 3 then Sample(LayoutFor(m.elapsed), m)
            else UnknownMode(m.tick, m.elapsed, m.status, m.mode)
  {
    UnpackPack(LayoutFor(m.elapsed), m);
    HeaderRoundTrip(m, Pdu(LayoutFor(m.elapsed), m));
  }

  /** Re-encoding what was decoded restores every genuine packet, byte for byte. */
  lemma PackInvertsDecode(pdu: seq<byte>)
    requires Decode(pdu).Sample?
    ensures var d := Decode(pdu);
      && d.fields.mode == 3 && d.layout == LayoutFor(d.fields.elapsed)
      && Gapless(d.layout) && InRange(d.layout, d.fields)
      && Pdu(d.layout, d.fields) == pdu
  {
    var d := Decode(pdu);
    LayoutsGapless(d.fields.elapsed);
    PackUnpack(d.layout, pdu);
  }

  /** A payload bit depends on the one field that owns it and on nothing else. */
  lemma OwnerDecides(l: Layout, m: Motion, w: Write, k: nat)
    requires Gapless(l) && |m.accel| == |l.accel| && |m.gyro| == |l.gyro|
    requires w in Writes(l, m) && w.Owns(k)
    ensures k < PAYLOAD_BITS && Payload(l, m)[k] == NatBit(w.Residue(), k - w.offset)
  {
    TilesPayload(l, m);
    SameStores(l, m, w);
    ConcatBit(WireOrder(l, m), PAYLOAD_BITS, w, k);
  }

  /** The payload, read as one little-endian number, is the sum of its shifted fields. */
  lemma PayloadValue(l: Layout, m: Motion)
    requires Gapless(l) && |m.accel| == |l.accel| && |m.gyro| == |l.gyro|
    ensures |l.accel| == |l.gyro| + 1
    ensures LittleEndian(BytesOf(Payload(l, m))) == WeightedSum(WireOrder(l, m))
  {
    TilesPayload(l, m);
    TiledValue(WireOrder(l, m), Payload(l, m));
  }

  lemma TiledValue(order: seq<Write>, bits: seq<bool>)
    requires Tiles(order, 0, |bits|) && bits == Concat(order) && |bits| % 8 == 0
    ensures LittleEndian(BytesOf(bits)) == WeightedSum(order)
  {
    BytesValue(bits);
    ConcatValue(order, 0, |bits|);
    TimesOne(ToNat(Concat(order)), Pow2(0));
  }

  lemma BytesValue(bits: seq<bool>)
    requires |bits| % 8 == 0
    ensures LittleEndian(BytesOf(bits)) == ToNat(bits)
  {
    AllBitsOfBytesOf(bits);
    LittleEndianIsToNat(BytesOf(bits));
  }

  lemma TimesOne(n: int, one: int)
    requires one == 1
    ensures n * one == n
  {
  }

  /** The whole packet, read as one little-endian number: header fields below, payload fields above. */
  lemma PduValue(l: Layout, m: Motion)
    requires Gapless(l) && InRange(l, m)
    ensures |l.accel| == |l.gyro| + 1
    ensures LittleEndian(Pdu(l, m))
      == m.tick + Pow2(12) * m.elapsed + Pow2(24) * m.status + Pow2(32) * WeightedSum(WireOrder(l, m))
  {
    PayloadValue(l, m);
    HeaderValue(m);
    LittleEndianConcat(Header(m), BytesOf(Payload(l, m)));
  }

  lemma HeaderValue(m: Motion)
    requires m.tick <= 0xFFF && m.elapsed <= 0xFFF
    ensures LittleEndian(Header(m)) == m.tick + Pow2(12) * m.elapsed + Pow2(24) * m.status
  {
    BytePowers();
    WordPowers();
    FourBytes(Header(m));
    SplitTwelve(m.tick, m.elapsed);
  }

  lemma FourBytes(h: seq<byte>)
    requires |h| == 4
    ensures LittleEndian(h) == h[0] + 0x100 * h[1] as int + 0x1_0000 * h[2] as int + 0x100_0000 * h[3] as int
  {
    var h1, h2, h3, h4 := h[1..], h[2..], h[3..], h[4..];
    assert h1[1..] == h2 && h2[1..] == h3 && h3[1..] == h4 == [];
    assert LittleEndian(h3) == h[3] + 0x100 * LittleEndian(h4);
    assert LittleEndian(h2) == h[2] + 0x100 * LittleEndian(h3);
    assert LittleEndian(h1) == h[1] + 0x100 * LittleEndian(h2);
    assert LittleEndian(h) == h[0] + 0x100 * LittleEndian(h1);
  }

  /** The two twelve-bit header fields, byte by byte. */
  lemma SplitTwelve(tick: int, elapsed: int)
    requires 0 <= tick <= 0xFFF && 0 <= elapsed <= 0xFFF
    ensures tick % 0x100 + 0x100 * (tick / 0x100 % 0x10 + elapsed % 0x10 * 0x10) + 0x1_0000 * (elapsed / 0x10 % 0x100)
      == tick + 0x1000 * elapsed
  {
  }
}
