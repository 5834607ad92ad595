// The firmware's in-place motion packers, against the specification in
// MotionPacket: two whole-packet builders and the carrier patcher.

module MotionPacker {
  import opened Bits
  import opened BitLayout
  import opened MotionPacket


  lemma PutSameResidue(bits: seq<bool>, a: Write, b: Write)
    requires a.offset == b.offset && a.width == b.width && a.Residue() == b.Residue()
    ensures Put(bits, a) == Put(bits, b) && Replace(bits, a) == Replace(bits, b)
  {
  }

  lemma NatBitOfResidue(value: nat, width: nat, i: nat)
    requires i < width
    ensures NatBit(value % Pow2(width), i) == NatBit(value, i)
  {
    ToFromNat(value, width);
    ToFromNat(value % Pow2(width), width);
    ModMod(value, Pow2(width));
    ToNatInjective(FromNat(value, width), FromNat(value % Pow2(width), width));
    FromNatBit(value, width, i);
    FromNatBit(value % Pow2(width), width, i);
  }

  /** `(uint32_t)value & ((1u << width) - 1u)`: conversion to unsigned, then the mask. */
  function Masked(value: int32, width: nat): uint32
    requires width <= 32
  {
    MaskBound(value, width);
    value % 0x1_0000_0000 % Pow2(width)
  }

  lemma MaskBound(value: int, width: nat)
    requires width <= 32
    ensures value % 0x1_0000_0000 % Pow2(width) < 0x1_0000_0000
    ensures value % 0x1_0000_0000 % Pow2(width) == value % Pow2(width)
  {
    Pow2Add(width, 32 - width);
    Pow2Monotone(width, 32);
    WordPowers();
    MaskAgain(value, Pow2(32 - width), Pow2(width));
  }

  /** Storing the masked bits of a signed value stores the value. */
  lemma MaskedStores(bits: seq<bool>, w: Write, value: int32)
    requires w.width <= 32 && w.value == value
    ensures Put(bits, Write(w.offset, w.width, Masked(value, w.width))) == Put(bits, w)
    ensures Replace(bits, Write(w.offset, w.width, Masked(value, w.width))) == Replace(bits, w)
  {
    MaskBound(value, w.width);
    ModMod(value, Pow2(w.width));
    PutSameResidue(bits, Write(w.offset, w.width, Masked(value, w.width)), w);
  }

  lemma MaskAgain(value: int, e: nat, d: nat)
    requires d > 0 && d * e == 0x1_0000_0000
    ensures value % 0x1_0000_0000 % d == value % d
    ensures 0 <= value % 0x1_0000_0000 % d < d
  {
    var q, r := value / 0x1_0000_0000, value % 0x1_0000_0000;
    assert value == r + q * 0x1_0000_0000;
    assert q * (d * e) == q * e * d;
    ModShift(r, q * e, d);
  }

  /** Sets or clears bit `k` of byte `j` with the usual mask idiom. */
  method StoreBit(bytes: array<byte>, j: nat, k: nat, on: bool)
    requires j < bytes.Length && k < 8
    modifies bytes
    ensures AllBits(bytes[..]) == old(AllBits(bytes[..]))[8 * j + k := on]
  {
    ghost var before := bytes[..];
    SetOneBit(before, j, k, on);
    bytes[j] := if on then OrBit(bytes[j], k) else ClearBit(bytes[j], k);
    assert bytes[..] == before[j := bytes[j]];
  }

  /** The first `n` bits of a field have been OR-ed in. */
  ghost function PutLow(bits: seq<bool>, start: nat, n: nat, value: nat): seq<bool> {
    seq(|bits|, k requires 0 <= k < |bits| => bits[k] || (start <= k < start + n && NatBit(value, k - start)))
  }

  ghost function ReplaceLow(bits: seq<bool>, start: nat, n: nat, value: nat): seq<bool> {
    seq(|bits|, k requires 0 <= k < |bits| => if start <= k < start + n then NatBit(value, k - start) else bits[k])
  }

  lemma ReplaceNext(bits: seq<bool>, start: nat, n: nat, value: nat)
    requires start + n < |bits|
    ensures ReplaceLow(bits, start, n, value)[start + n := NatBit(value, n)] == ReplaceLow(bits, start, n + 1, value)
  {
    var l, r := ReplaceLow(bits, start, n, value)[start + n := NatBit(value, n)], ReplaceLow(bits, start, n + 1, value);
    forall k | 0 <= k < |bits| ensures l[k] == r[k] {
      assert k == start + n ==> k - start == n;
    }
  }

  lemma LowIsWhole(bits: seq<bool>, start: nat, n: nat, value: nat)
    ensures PutLow(bits, start, n, value) == Put(bits, Write(start, n, value))
    ensures ReplaceLow(bits, start, n, value) == Replace(bits, Write(start, n, value))
  {
    forall k: int | start <= k < start + n && 0 <= k < |bits|
      ensures Write(start, n, value).Sets(k) == NatBit(value, k - start)
    {
      NatBitOfResidue(value, n, k - start);
    }
  }

  method PayloadPut(payload: array<byte>, offset: nat, width: nat, value: uint32)
    requires offset + width <= 8 * payload.Length
    modifies payload
    ensures AllBits(payload[..]) == Put(old(AllBits(payload[..])), Write(offset, width, value))
  {
    ghost var before := AllBits(payload[..]);
    assert before == PutLow(before, offset, 0, value);
    for i := 0 to width
      invariant AllBits(payload[..]) == PutLow(before, offset, i, value)
    {
      if value / Pow2(i) % 2 == 1 {
        var bit := offset + i;
        assert bit == 8 * (bit / 8) + bit % 8;
        StoreBit(payload, bit / 8, bit % 8, true);
      }
      assert AllBits(payload[..]) == PutLow(before, offset, i + 1, value);
    }
    LowIsWhole(before, offset, width, value);
  }

  /** Overwrites a field of the payload that starts `base` bytes into `pdu`. */
  method PayloadReplace(pdu: array<byte>, base: nat, offset: nat, width: nat, value: uint32)
    requires 8 * base + offset + width <= 8 * pdu.Length
    modifies pdu
    ensures AllBits(pdu[..]) == Replace(old(AllBits(pdu[..])), Write(8 * base + offset, width, value))
  {
    ghost var before := AllBits(pdu[..]);
    ghost var start := 8 * base + offset;
    assert before == ReplaceLow(before, start, 0, value);
    for i := 0 to width
      invariant AllBits(pdu[..]) == ReplaceLow(before, start, i, value)
    {
      var bit := offset + i;
      assert start + i == 8 * (base + bit / 8) + bit % 8;
      StoreBit(pdu, base + bit / 8, bit % 8, value / Pow2(i) % 2 == 1);
      ReplaceNext(before, start, i, value);
    }
    LowIsWhole(before, start, width, value);
  }

  lemma AxisPlace(s: Slot, v: Vec3, axis: nat)
    requires axis < 3
    ensures VectorWrites(s, v)[axis] == Write(s.offset + axis * s.width, s.width, [v.x, v.y, v.z][axis])
    ensures s.offset + axis * s.width + s.width <= End(s)
  {
  }

  lemma AxisStored(bits: seq<bool>, now: seq<bool>, s: Slot, v: Vec3, axis: nat, value: int32)
    requires axis < 3 && 0 < s.width <= 32 && value == [v.x, v.y, v.z][axis]
    requires now == PutAll(bits, VectorWrites(s, v)[..axis])
    ensures Put(now, Write(s.offset + axis * s.width, s.width, Masked(value, s.width)))
      == PutAll(bits, VectorWrites(s, v)[..axis + 1])
  {
    var ws := VectorWrites(s, v);
    AxisPlace(s, v, axis);
    MaskedStores(now, ws[axis], value);
    PutAllOne(bits, ws[..axis], ws[axis]);
    assert ws[..axis + 1] == ws[..axis] + [ws[axis]];
  }

  /** Stores three signed components, or nothing if one of them does not fit. */
  method PayloadPutVector(payload: array<byte>, s: Slot, v: Vec3) returns (ok: bool)
    requires 0 < s.width <= 32 && End(s) <= 8 * payload.Length
    modifies payload
    ensures ok == VecFits(v, s.width)
    ensures AllBits(payload[..])
         == if ok then PutAll(old(AllBits(payload[..])), VectorWrites(s, v)) else old(AllBits(payload[..]))
  {
    if !VecFits(v, s.width) {
      return false;
    }
    ghost var bits := AllBits(payload[..]);
    var components := [v.x, v.y, v.z];
    for axis := 0 to 3
      invariant AllBits(payload[..]) == PutAll(bits, VectorWrites(s, v)[..axis])
    {
      ghost var now := AllBits(payload[..]);
      AxisPlace(s, v, axis);
      PayloadPut(payload, s.offset + axis * s.width, s.width, Masked(components[axis], s.width));
      AxisStored(bits, now, s, v, axis, components[axis]);
    }
    assert VectorWrites(s, v)[..3] == VectorWrites(s, v);
    return true;
  }

  /** Stores every sample in its slot. */
  method PutSamples(payload: array<byte>, slots: seq<Slot>, samples: seq<Vec3>) returns (ok: bool)
    requires |slots| == |samples|
    requires forall s :: s in slots ==> 0 < s.width <= 32 && End(s) <= 8 * payload.Length
    requires SamplesFit(samples, slots)
    modifies payload
    ensures ok
    ensures AllBits(payload[..]) == PutAll(old(AllBits(payload[..])), SampleWrites(slots, samples))
  {
    ghost var bits := AllBits(payload[..]);
    for i := 0 to |slots|
      invariant AllBits(payload[..]) == PutAll(bits, SampleWrites(slots[..i], samples[..i]))
    {
      ok := PayloadPutVector(payload, slots[i], samples[i]);
      if !ok { return; }
      assert slots[..i + 1][..i] == slots[..i] && samples[..i + 1][..i] == samples[..i];
      PutAllConcat(bits, SampleWrites(slots[..i], samples[..i]), VectorWrites(slots[i], samples[i]));
    }
    assert slots[..|slots|] == slots && samples[..|samples|] == samples;
    return true;
  }

  method CheckSamples(slots: seq<Slot>, samples: seq<Vec3>) returns (ok: bool)
    requires |slots| == |samples|
    requires forall s :: s in slots ==> s.width > 0
    ensures ok == SamplesFit(samples, slots)
  {
    for i := 0 to |slots|
      invariant SamplesFit(samples[..i], slots[..i])
    {
      if !VecFits(samples[i], slots[i].width) {
        return false;
      }
    }
    assert slots[..|slots|] == slots && samples[..|samples|] == samples;
    return true;
  }

  lemma {:induction false} ChainedEnds(accel: seq<Slot>, gyro: seq<Slot>, at: nat, end: nat)
    requires Chained(accel, gyro, at, end)
    ensures forall s :: s in accel || s in gyro ==> End(s) <= end
    ensures at <= end
  {
    if gyro != [] {
      ChainedEnds(accel[1..], gyro[1..], End(gyro[0]), end);
      assert forall s :: s in accel ==> s == accel[0] || s in accel[1..];
      assert forall s :: s in gyro ==> s == gyro[0] || s in gyro[1..];
    }
  }

  method PutLane(payload: array<byte>, s: Slot, value: int32)
    requires s.width <= 32 && s.offset + s.width <= 8 * payload.Length
    modifies payload
    ensures AllBits(payload[..]) == Put(old(AllBits(payload[..])), At(s, value))
  {
    ghost var bits := AllBits(payload[..]);
    PayloadPut(payload, s.offset, s.width, Masked(value, s.width));
    MaskedStores(bits, At(s, value), value);
  }

  /** Packs validated fields into a fresh scratch payload. */
  method BuildPayload(l: Layout, m: Motion) returns (payload: array<byte>)
    requires Gapless(l) && InRange(l, m)
    ensures fresh(payload) && payload.Length == PAYLOAD_BYTES
    ensures |m.accel| == |l.accel| && |m.gyro| == |l.gyro|
    ensures payload[..] == BytesOf(Payload(l, m))
  {
    ghost var mid := l.carrier.2.offset + l.carrier.2.width;
    ChainedCounts(l.accel, l.gyro, mid, l.tail.offset);
    ChainedEnds(l.accel, l.gyro, mid, l.tail.offset);
    payload := new byte[PAYLOAD_BYTES](_ => 0);
    ghost var zeros := Zeros(PAYLOAD_BITS);
    ZeroBytes(payload[..]);
    PayloadPut(payload, 0, 2, m.mode);
    PutLane(payload, l.carrier.0, m.carrier.x);
    PutLane(payload, l.carrier.1, m.carrier.y);
    PutLane(payload, l.carrier.2, m.carrier.z);
    ghost var lanes := [Write(0, 2, m.mode)] + CarrierWrites(l, m.carrier);
    PutFour(zeros, Write(0, 2, m.mode), CarrierWrites(l, m.carrier));
    assert AllBits(payload[..]) == PutAll(zeros, lanes);
    var ok := PutSamples(payload, l.accel, m.accel);
    PutAllConcat(zeros, lanes, SampleWrites(l.accel, m.accel));
    ok := PutSamples(payload, l.gyro, m.gyro);
    PutAllConcat(zeros, lanes + SampleWrites(l.accel, m.accel), SampleWrites(l.gyro, m.gyro));
    PayloadPut(payload, l.tail.offset, l.tail.width, m.tail);
    PutAllOne(zeros, lanes + SampleWrites(l.accel, m.accel) + SampleWrites(l.gyro, m.gyro), At(l.tail, m.tail));
    AllBitsOfBytesOf(Payload(l, m));
    AllBitsInjective(payload[..], BytesOf(Payload(l, m)));
  }

  lemma PutFour(bits: seq<bool>, w: Write, ws: seq<Write>)
    requires |ws| == 3
    ensures PutAll(bits, [w] + ws) == Put(Put(Put(Put(bits, w), ws[0]), ws[1]), ws[2])
  {
    PutAllConcat(bits, [w], ws);
    PutAllOne(bits, [], w);
    assert [] + [w] == [w];
    var b := Put(bits, w);
    assert ws == [] + [ws[0]] + [ws[1]] + [ws[2]];
    PutAllOne(b, [], ws[0]);
    PutAllOne(b, [] + [ws[0]], ws[1]);
    PutAllOne(b, [] + [ws[0]] + [ws[1]], ws[2]);
  }

  lemma ZeroBytes(bytes: seq<byte>)
    requires forall i :: 0 <= i < |bytes| ==> bytes[i] == 0
    ensures AllBits(bytes) == Zeros(8 * |bytes|)
  {
    forall k | 0 <= k < 8 * |bytes| ensures !AllBits(bytes)[k] {
      ZeroByte(k % 8);
    }
  }

  /** The part the two builders share once their own guards have passed. */
  method BuildPdu(l: Layout, pdu: array<byte>, m: Motion) returns (ok: bool)
    requires Gapless(l) && pdu.Length == PDU_BYTES
    requires |m.accel| == |l.accel| && |m.gyro| == |l.gyro|
    requires m.tick <= 0xFFF && m.elapsed <= 0xFFF && m.mode <= 3 && m.tail < Pow2(l.tail.width)
    modifies pdu
    ensures ok == InRange(l, m)
    ensures pdu[..] == if ok then Pdu(l, m) else old(pdu[..])
  {
    ChainedCounts(l.accel, l.gyro, l.carrier.2.offset + l.carrier.2.width, l.tail.offset);
    if !FitsSigned(m.carrier.x, l.carrier.0.width) || !FitsSigned(m.carrier.y, l.carrier.1.width)
       || !FitsSigned(m.carrier.z, l.carrier.2.width) {
      return false;
    }
    ok := CheckSamples(l.accel, m.accel);
    if !ok { return; }
    ok := CheckSamples(l.gyro, m.gyro);
    if !ok { return; }
    var payload := BuildPayload(l, m);
    CopyOut(pdu, m, payload);
    return true;
  }

  method CopyOut(pdu: array<byte>, m: Motion, payload: array<byte>)
    requires pdu.Length == PDU_BYTES && payload.Length == PAYLOAD_BYTES && pdu != payload
    modifies pdu
    ensures pdu[..] == Header(m) + old(payload[..])
  {
    pdu[0] := m.tick % 0x100;
    pdu[1] := m.tick / 0x100 % 0x10 + m.elapsed % 0x10 * 0x10;
    pdu[2] := m.elapsed / 0x10 % 0x100;
    pdu[3] := m.status;
    for i := 0 to PAYLOAD_BYTES
      invariant pdu[..HEADER_BYTES] == Header(m)
      invariant forall j :: 0 <= j < i ==> pdu[HEADER_BYTES + j] == payload[j]
      invariant payload[..] == old(payload[..])
    {
      pdu[HEADER_BYTES + i] := payload[i];
    }
  }

  lemma ZeroByte(k: nat)
    requires k < 8
    ensures !ByteBits(0)[k]
  {
    FromNatBit(0, 8, k);
    ModSmall(0, Pow2(k));
  }

  /** Builds a catch-up packet, or refuses and leaves the buffer alone. */
  method BuildCatchup(pdu: array?<byte>, m: Motion) returns (ok: bool)
    requires pdu != null ==> pdu.Length == PDU_BYTES
    requires |m.accel| == 3 && |m.gyro| == 2
    modifies pdu
    ensures Gapless(CATCHUP)
    ensures ok <==> pdu != null && m.elapsed >= 15 && InRange(CATCHUP, m)
    ensures pdu != null ==> pdu[..] == if ok then Pdu(CATCHUP, m) else old(pdu[..])
  {
    LayoutsGapless(0);
    assert Pow2(1) == 2;
    if pdu == null { return false; }
    if m.tick > 0xFFF { return false; }
    if m.elapsed > 0xFFF { return false; }
    if m.elapsed < CATCHUP_MIN_ELAPSED { return false; }
    if m.mode > 3 { return false; }
    if m.tail > 1 { return false; }
    ok := BuildPdu(CATCHUP, pdu, m);
  }

  /** Builds a high-rate packet, or refuses and leaves the buffer alone. */
  method BuildHighRate(pdu: array?<byte>, m: Motion) returns (ok: bool)
    requires pdu != null ==> pdu.Length == PDU_BYTES
    requires |m.accel| == 2 && |m.gyro| == 1
    modifies pdu
    ensures Gapless(HIGH_RATE)
    ensures ok <==> pdu != null && m.elapsed <= 10 && InRange(HIGH_RATE, m)
    ensures pdu != null ==> pdu[..] == if ok then Pdu(HIGH_RATE, m) else old(pdu[..])
  {
    LayoutsGapless(0);
    assert Pow2(16) == 0x1_0000 by {
      assert Pow2(8) == 0x100;
      Pow2Add(8, 8);
    }
    if pdu == null { return false; }
    if m.tick > 0xFFF { return false; }
    if m.elapsed > HIGH_RATE_MAX_ELAPSED { return false; }
    if m.mode > 3 { return false; }
    ok := BuildPdu(HIGH_RATE, pdu, m);
  }

  // ---- Patching the carrier in place ------------------------------------------

  predicate CarrierFits(l: Layout, v: Vec3)
    requires Gapless(l)
  {
    && FitsSigned(v.x, l.carrier.0.width) && FitsSigned(v.y, l.carrier.1.width)
    && FitsSigned(v.z, l.carrier.2.width)
  }

  function Shifted(w: Write): Write {
    Write(8 * HEADER_BYTES + w.offset, w.width, w.value)
  }

  lemma PayloadBits(l: Layout, m: Motion, k: nat)
    requires |m.accel| == |l.accel| && |m.gyro| == |l.gyro|
    requires 8 * HEADER_BYTES <= k < 8 * PDU_BYTES
    ensures AllBits(Pdu(l, m))[k] == Payload(l, m)[k - 8 * HEADER_BYTES]
  {
    LaterBits(Header(m), Payload(l, m), Pdu(l, m), k);
  }

  lemma LaterBits(head: seq<byte>, bits: seq<bool>, pdu: seq<byte>, k: nat)
    requires |bits| % 8 == 0 && pdu == head + BytesOf(bits) && 8 * |head| <= k < 8 * |pdu|
    ensures AllBits(pdu)[k] == bits[k - 8 * |head|]
  {
    AllBitsOfBytesOf(bits);
    AllBitsJoin(head, BytesOf(bits));
    assert AllBits(pdu) == AllBits(head) + bits;
  }

  ghost function Patched(l: Layout, bits: seq<bool>, v: Vec3): (r: seq<bool>)
    ensures |r| == |bits|
  {
    var ws := CarrierWrites(l, v);
    Replace(Replace(Replace(bits, Shifted(ws[0])), Shifted(ws[1])), Shifted(ws[2]))
  }

  /** A header bit is kept; a payload bit comes from the lane that owns it, if one does. */
  lemma PatchedAt(l: Layout, bits: seq<bool>, v: Vec3, k: nat)
    requires k < |bits|
    ensures k < 8 * HEADER_BYTES ==> Patched(l, bits, v)[k] == bits[k]
    ensures k >= 8 * HEADER_BYTES ==>
      var ws, j := CarrierWrites(l, v), k - 8 * HEADER_BYTES;
      Patched(l, bits, v)[k]
      == if ws[2].Owns(j) then ws[2].Sets(j) else if ws[1].Owns(j) then ws[1].Sets(j)
         else if ws[0].Owns(j) then ws[0].Sets(j) else bits[k]
  {
    var ws := CarrierWrites(l, v);
    ReplacedAt(bits, ws[0], k);
    ReplacedAt(Replace(bits, Shifted(ws[0])), ws[1], k);
    ReplacedAt(Replace(Replace(bits, Shifted(ws[0])), Shifted(ws[1])), ws[2], k);
  }

  lemma ReplacedAt(bits: seq<bool>, w: Write, k: nat)
    requires k < |bits|
    ensures Replace(bits, Shifted(w))[k]
      == if w.Owns(k - 8 * HEADER_BYTES) then w.Sets(k - 8 * HEADER_BYTES) else bits[k]
  {
  }

  lemma PatchedIsRepacked(l: Layout, m: Motion, v: Vec3, k: nat)
    requires Gapless(l) && InRange(l, m) && CarrierFits(l, v) && k < 8 * PDU_BYTES
    requires |m.accel| == |l.accel| && |m.gyro| == |l.gyro|
    ensures Patched(l, AllBits(Pdu(l, m)), v)[k] == AllBits(Pdu(l, m.(carrier := v)))[k]
  {
    var m' := m.(carrier := v);
    PatchedAt(l, AllBits(Pdu(l, m)), v, k);
    if k < 8 * HEADER_BYTES {
      HeaderKept(l, m, m', k);
    } else {
      PatchedBit(l, m, v, k - 8 * HEADER_BYTES);
      PayloadBits(l, m, k);
      PayloadBits(l, m', k);
    }
  }

  lemma HeaderKept(l: Layout, m: Motion, m': Motion, k: nat)
    requires |m.accel| == |m'.accel| == |l.accel| && |m.gyro| == |m'.gyro| == |l.gyro|
    requires m.tick == m'.tick && m.elapsed == m'.elapsed && m.status == m'.status && k < 8 * HEADER_BYTES
    ensures AllBits(Pdu(l, m))[k] == AllBits(Pdu(l, m'))[k]
  {
    assert Pdu(l, m)[k / 8] == Header(m)[k / 8] == Pdu(l, m')[k / 8];
  }

  /** Overwriting the three lanes turns a packet into the packing of the patched fields. */
  lemma PatchedCarrier(l: Layout, before: seq<byte>, v: Vec3, after: seq<byte>)
    requires Gapless(l) && |before| == |after| == PDU_BYTES && CarrierFits(l, v)
    requires AllBits(after) == Patched(l, AllBits(before), v)
    ensures InRange(l, Unpack(l, before).(carrier := v))
    ensures after == Pdu(l, Unpack(l, before).(carrier := v))
  {
    var m := Unpack(l, before);
    PackUnpack(l, before);
    var target := Pdu(l, m.(carrier := v));
    forall k | 0 <= k < 8 * PDU_BYTES ensures AllBits(after)[k] == AllBits(target)[k] {
      PatchedIsRepacked(l, m, v, k);
    }
    AllBitsInjective(after, target);
  }

  /** Bit by bit: a lane's bits come from the new lane, all others are kept. */
  lemma PatchedBit(l: Layout, m: Motion, v: Vec3, k: nat)
    requires Gapless(l) && |m.accel| == |l.accel| && |m.gyro| == |l.gyro| && k < PAYLOAD_BITS
    ensures var ws := CarrierWrites(l, v);
      Payload(l, m.(carrier := v))[k]
      == if ws[2].Owns(k) then ws[2].Sets(k) else if ws[1].Owns(k) then ws[1].Sets(k)
         else if ws[0].Owns(k) then ws[0].Sets(k) else Payload(l, m)[k]
  {
    var m', ws := m.(carrier := v), CarrierWrites(l, v);
    if ws[2].Owns(k) {
      OwnerDecides(l, m', ws[2], k);
    } else if ws[1].Owns(k) {
      OwnerDecides(l, m', ws[1], k);
    } else if ws[0].Owns(k) {
      OwnerDecides(l, m', ws[0], k);
    } else {
      TilesPayload(l, m);
      var i := TilesPartition(WireOrder(l, m), 0, PAYLOAD_BITS, k);
      var w := WireOrder(l, m)[i];
      SameStores(l, m, w);
      assert w !in CarrierWrites(l, m.carrier);
      assert w in Writes(l, m');
      OwnerDecides(l, m, w, k);
      OwnerDecides(l, m', w, k);
    }
  }

  lemma LowTwoBits(pdu: seq<byte>)
    requires |pdu| == PDU_BYTES
    ensures UnsignedBits(pdu[HEADER_BYTES..], 0, 2) == pdu[4] % 4
  {
    var payload := pdu[HEADER_BYTES..];
    var rest := LittleEndian(payload[1..]);
    assert LittleEndian(payload) == payload[0] + 256 * rest;
    assert Pow2(0) == 1 && Pow2(2) == 4;
  }

  /** What a decoded packet becomes when its carrier is replaced. */
  function WithCarrier(d: Decoded, v: Vec3): Decoded
    requires d.Sample?
  {
    d.(fields := d.fields.(carrier := v))
  }

  predicate Patchable(d: Decoded, v: Vec3) {
    d.Sample? && Gapless(d.layout) && CarrierFits(d.layout, v)
  }

  lemma PatchedDecodes(before: seq<byte>, v: Vec3, after: seq<byte>)
    requires |before| == |after| == PDU_BYTES && Patchable(Decode(before), v)
    requires AllBits(after) == Patched(Decode(before).layout, AllBits(before), v)
    ensures Decode(after) == WithCarrier(Decode(before), v)
  {
    var d := Decode(before);
    PatchedCarrier(d.layout, before, v, after);
    DecodeInvertsPack(d.fields.(carrier := v));
  }

  /** Replaces only the orientation prefix of a mode-3 packet of any layout. */
  method SetCarrier(pdu: array?<byte>, v: Vec3) returns (ok: bool)
    requires pdu != null ==> pdu.Length == PDU_BYTES
    modifies pdu
    ensures ok <==> pdu != null && Patchable(old(Decode(pdu[..])), v)
    ensures ok ==> Decode(pdu[..]) == WithCarrier(old(Decode(pdu[..])), v)
    ensures pdu != null && !ok ==> pdu[..] == old(pdu[..])
  {
    if pdu == null { return false; }
    ghost var before := pdu[..];
    LowTwoBits(before);
    LayoutsGapless(ElapsedOf(before));
    if pdu[4] % 4 != 3 { return false; }
    var highRate := ElapsedOf(pdu[..]) <= HIGH_RATE_MAX_ELAPSED;
    var lanes := if highRate then HIGH_RATE.carrier else CATCHUP.carrier;
    assert lanes == LayoutFor(ElapsedOf(before)).carrier == Decode(before).layout.carrier;
    if !FitsSigned(v.x, lanes.0.width) || !FitsSigned(v.y, lanes.1.width) || !FitsSigned(v.z, lanes.2.width) {
      return false;
    }
    ReplaceLane(pdu, lanes.0, v.x);
    ReplaceLane(pdu, lanes.1, v.y);
    ReplaceLane(pdu, lanes.2, v.z);
    PatchedDecodes(before, v, pdu[..]);
    return true;
  }

  method ReplaceLane(pdu: array<byte>, s: Slot, value: int32)
    requires pdu.Length == PDU_BYTES && s.width <= 32 && s.offset + s.width <= PAYLOAD_BITS
    modifies pdu
    ensures AllBits(pdu[..]) == Replace(old(AllBits(pdu[..])), Shifted(At(s, value)))
  {
    ghost var bits := AllBits(pdu[..]);
    PayloadReplace(pdu, HEADER_BYTES, s.offset, s.width, Masked(value, s.width));
    MaskedStores(bits, Shifted(At(s, value)), value);
  }
}
