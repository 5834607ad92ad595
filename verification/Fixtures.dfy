// Two rows of the fixture tables, read back by the model: evidence that the
// layout tables say what the captured packets and the edge cases say.

module Fixtures {
  import opened Bits
  import opened BitLayout
  import opened MotionPacket

  const EDGE_HEADER: seq<byte> := [0x00, 0xF0, 0x00, 0x0F]
  const EDGE_PAYLOAD: seq<byte> :=
    [0x03, 0x00, 0x80, 0x00, 0x00, 0x10] + (
    [0x00, 0x00, 0x08, 0x00, 0xFE, 0x7F] + (
    [0x00, 0xC0, 0xFF, 0x1F, 0x00, 0xC0] + (
    [0xFF, 0x3F, 0x00, 0xFC, 0x7F, 0x00] + (
    [0xE0, 0xFF, 0x0F, 0x00, 0xE0, 0xFF] + (
    [0x1F, 0x00, 0xFC, 0xFF, 0x00, 0x00])))))
  const EDGE_ROW := EDGE_HEADER + EDGE_PAYLOAD

  const EDGE_FIELDS := Motion(
    0, 15, 0x0F, 3, Vec3(-2097152, -1048576, -4194304),
    [Vec3(-8192, 8191, 0), Vec3(-4096, 4095, 0), Vec3(-8192, 8191, 0)], [Vec3(32767, 0, -1), Vec3(32767, 0, -1)], 0)

  const CAPTURED_HEADER: seq<byte> := [0x27, 0x73, 0x00, 0x0D]
  const CAPTURED_PAYLOAD: seq<byte> :=
    [0x4F, 0x15, 0xFC, 0x87, 0x43, 0x0B] + (
    [0x6E, 0x47, 0x31, 0xB4, 0x51, 0x01] + (
    [0x3F, 0x37, 0xCF, 0x30, 0x6D, 0xD1] + (
    [0xAA, 0xFF, 0xFF, 0xEC, 0xFB, 0xCF] + (
    [0xA6, 0xBF, 0x7D, 0x14, 0xF0, 0x4F] + (
    [0xF3, 0x54, 0xB9, 0x16, 0x80, 0x01])))))
  const CAPTURED_ROW := CAPTURED_HEADER + CAPTURED_PAYLOAD

  const CAPTURED_FIELDS := Motion(
    807, 7, 0x0D, 3, Vec3(-64173, 184545, 1614775),
    [Vec3(21613, 997183, 373955), Vec3(20982, 996607, 372309)], [Vec3(-1363, -66753, -22833)], 384)

  /** The payload number without its low `offset` bits. */
  predicate Rest(payload: seq<byte>, offset: nat, rest: nat) {
    LittleEndian(payload) / Pow2(offset) == rest
  }

  /** Dropping one field: what is left is where the next one starts. */
  lemma Drop(payload: seq<byte>, offset: nat, width: nat, rest: nat, u: nat, next: nat)
    requires Rest(payload, offset, rest) && rest == u + next * Pow2(width) && u < Pow2(width)
    ensures Rest(payload, offset + width, next)
  {
    DivModUnique(rest, Pow2(width), next, u);
    NestedDiv(LittleEndian(payload), Pow2(offset), Pow2(width));
    Pow2Add(offset, width);
  }

  lemma UnsignedFrom(payload: seq<byte>, offset: nat, width: nat, rest: nat, u: nat, next: nat)
    requires Rest(payload, offset, rest) && rest == u + next * Pow2(width) && u < Pow2(width)
    ensures UnsignedBits(payload, offset, width) == u
  {
    DivModUnique(rest, Pow2(width), next, u);
  }

  /** The residue of a signed field. */
  function Wire(v: int, width: nat): int {
    if v < 0 then v + Pow2(width) else v
  }

  lemma LaneFrom(payload: seq<byte>, offset: nat, width: nat, rest: nat, v: int, next: nat)
    requires width > 0 && FitsSigned(v, width) && Rest(payload, offset, rest) && rest == Wire(v,
      width) + next * Pow2(width)
    ensures SignedBits(payload, offset, width) == v
  {
    UnsignedFrom(payload, offset, width, rest, Wire(v, width), next);
    SignExtendOf(Wire(v, width), width, v, if v < 0 then -1 else 0);
  }

  lemma WireRange(v: int, width: nat)
    requires width > 0 && FitsSigned(v, width)
    ensures 0 <= Wire(v, width) < Pow2(width)
  {
  }

  /** Three components in a row. */
  lemma VectorFrom(payload: seq<byte>, s: Slot, v: Vec3, x: nat, y: nat, z: nat, next: nat)
    requires 0 < s.width <= 32 && VecFits(v, s.width) && Rest(payload, s.offset, x)
    requires x == Wire(v.x, s.width) + y * Pow2(s.width) && y == Wire(v.y, s.width) + z * Pow2(s.width)
    requires z == Wire(v.z, s.width) + next * Pow2(s.width)
    ensures VectorHolds(payload, s, v)
  {
    var w := s.width;
    WireRange(v.x, w);
    WireRange(v.y, w);
    LaneFrom(payload, s.offset, w, x, v.x, y);
    Drop(payload, s.offset, w, x, Wire(v.x, w), y);
    LaneFrom(payload, s.offset + w, w, y, v.y, z);
    Drop(payload, s.offset + w, w, y, Wire(v.y, w), z);
    assert s.offset + w + w == s.offset + 2 * w;
    LaneFrom(payload, s.offset + 2 * w, w, z, v.z, next);
    ReadThree(payload, s, v);
  }

  lemma ReadThree(payload: seq<byte>, s: Slot, v: Vec3)
    requires 0 < s.width <= 32
    requires SignedBits(payload, s.offset, s.width) == v.x && SignedBits(payload, s.offset + s.width, s.width) == v.y
    requires SignedBits(payload, s.offset + 2 * s.width, s.width) == v.z
    ensures VectorHolds(payload, s, v)
  {
  }

  lemma NestedDiv(n: nat, a: nat, b: nat)
    requires a > 0 && b > 0
    ensures a * b > 0 && n / a / b == n / (a * b)
  {
    var q, r := n / a, n % a;
    var t, s := q / b, q % b;
    assert n == q * a + r && q == t * b + s;
    Recombine(n, a, b, q, r, t, s);
  }

  lemma Recombine(n: nat, a: nat, b: nat, q: nat, r: nat, t: nat, s: nat)
    requires 0 <= r < a && 0 <= s < b && n == q * a + r && q == t * b + s
    ensures a * b > 0 && n / (a * b) == t
  {
    Distribute(b, s, a);
    MulAtLeast(b - s, a);
    calc {
      (t * b + s) * a;
      t * b * a + s * a;
      t * (a * b) + s * a;
    }
    DivModUnique(n, a * b, t, s * a + r);
  }

  lemma Chunk(c: seq<byte>, n: nat)
    requires |c| == 6
    requires n == c[0] + 0x100 * c[1] as int + 0x1_0000 * c[2] as int + 0x100_0000 * c[3] as int
      + 0x1_0000_0000 * c[4] as int + 0x100_0000_0000 * c[5] as int
    ensures LittleEndian(c) == n
  {
    var c1, c2, c3, c4, c5, c6 := c[1..], c[2..], c[3..], c[4..], c[5..], c[6..];
    assert c1[1..] == c2 && c2[1..] == c3 && c3[1..] == c4 && c4[1..] == c5 && c5[1..] == c6 == [];
    assert LittleEndian(c5) == c[5] + 0x100 * LittleEndian(c6);
    assert LittleEndian(c4) == c[4] + 0x100 * LittleEndian(c5);
    assert LittleEndian(c3) == c[3] + 0x100 * LittleEndian(c4);
    assert LittleEndian(c2) == c[2] + 0x100 * LittleEndian(c3);
    assert LittleEndian(c1) == c[1] + 0x100 * LittleEndian(c2);
    assert LittleEndian(c) == c[0] + 0x100 * LittleEndian(c1);
  }

  lemma Pow48()
    ensures Pow2(48) == 0x1_0000_0000_0000
  {
    WordPowers();
    Pow2Add(24, 24);
  }

  /** Six more bytes at the low end. */
  lemma Prepend(c: seq<byte>, tail: seq<byte>, low: nat, high: nat, n: nat)
    requires |c| == 6 && LittleEndian(c) == low && LittleEndian(tail) == high && n == low + 0x1_0000_0000_0000 * high
    ensures LittleEndian(c + tail) == n
  {
    LittleEndianConcat(c, tail);
    Pow48();
  }

  predicate VectorHolds(payload: seq<byte>, s: Slot, v: Vec3) {
    0 < s.width <= 32 && ReadVector(payload, s) == v
  }

  predicate Vectors(payload: seq<byte>, slots: seq<Slot>, vs: seq<Vec3>) {
    |vs| == |slots| && forall i :: 0 <= i < |slots| ==> VectorHolds(payload, slots[i], vs[i])
  }

  predicate LaneHolds(payload: seq<byte>, s: Slot, v: int) {
    0 < s.width <= 32 && SignedBits(payload, s.offset, s.width) == v
  }

  predicate Lanes(l: Layout, payload: seq<byte>, m: Motion) {
    && UnsignedBits(payload, 0, 2) == m.mode && UnsignedBits(payload, l.tail.offset, l.tail.width) == m.tail
    && LaneHolds(payload, l.carrier.0, m.carrier.x) && LaneHolds(payload, l.carrier.1, m.carrier.y)
    && LaneHolds(payload, l.carrier.2, m.carrier.z)
  }

  lemma UnpackHolds(l: Layout, pdu: seq<byte>, m: Motion)
    requires Gapless(l) && |pdu| == PDU_BYTES && Lanes(l, pdu[HEADER_BYTES..], m)
    requires Vectors(pdu[HEADER_BYTES..], l.accel, m.accel) && Vectors(pdu[HEADER_BYTES..], l.gyro, m.gyro)
    requires TickOf(pdu) == m.tick && ElapsedOf(pdu) == m.elapsed && pdu[3] == m.status
    ensures Unpack(l, pdu) == m
  {
    var u := Unpack(l, pdu);
    assert u.accel == m.accel && u.gyro == m.gyro;
  }

  /** What is left of the payload number where each field starts. */
  lemma EdgeRests(payload: seq<byte>)
    requires LittleEndian(payload) == 0xFFFC001FFFE0000FFFE0007FFC003FFFC0001FFFC0007FFE00080000100000800003
    ensures Rest(payload, 0, 0xFFFC001FFFE0000FFFE0007FFC003FFFC0001FFFC0007FFE00080000100000800003)
    ensures Rest(payload, 2, 0x3FFF0007FFF80003FFF8001FFF000FFFF00007FFF0001FFF80020000040000200000)
    ensures Rest(payload, 24, 0xFFFC001FFFE0000FFFE0007FFC003FFFC0001FFFC0007FFE00080000100000)
    ensures Rest(payload, 45, 0x7FFE000FFFF00007FFF0003FFE001FFFE0000FFFE0003FFF000400000)
    ensures Rest(payload, 68, 0xFFFC001FFFE0000FFFE0007FFC003FFFC0001FFFC0007FFE000)
    ensures Rest(payload, 110, 0x3FFF0007FFF80003FFF8001FFF000FFFF00007FFF)
    ensures Rest(payload, 158, 0x3FFF0007FFF80003FFF8001FFF000)
    ensures Rest(payload, 197, 0x7FFE000FFFF00007FFF)
    ensures Rest(payload, 245, 0x7FFE000)
    ensures Rest(payload, 287, 0x0)
  {
    EdgeLowRests(payload);
    EdgeMiddleRests(payload);
    EdgeHighRests(payload);
  }

  lemma EdgeLowRests(payload: seq<byte>)
    requires LittleEndian(payload) == 0xFFFC001FFFE0000FFFE0007FFC003FFFC0001FFFC0007FFE00080000100000800003
    ensures Rest(payload, 0, 0xFFFC001FFFE0000FFFE0007FFC003FFFC0001FFFC0007FFE00080000100000800003)
    ensures Rest(payload, 2, 0x3FFF0007FFF80003FFF8001FFF000FFFF00007FFF0001FFF80020000040000200000)
    ensures Rest(payload, 24, 0xFFFC001FFFE0000FFFE0007FFC003FFFC0001FFFC0007FFE00080000100000)
    ensures Rest(payload, 45, 0x7FFE000FFFF00007FFF0003FFE001FFFE0000FFFE0003FFF000400000)
    ensures Rest(payload, 68, 0xFFFC001FFFE0000FFFE0007FFC003FFFC0001FFFC0007FFE000)
  {
    BytePowers();
    WordPowers();
    Drop(payload, 0, 2, 0xFFFC001FFFE0000FFFE0007FFC003FFFC0001FFFC0007FFE00080000100000800003, 3,
      0x3FFF0007FFF80003FFF8001FFF000FFFF00007FFF0001FFF80020000040000200000);
    Drop(payload, 2, 22, 0x3FFF0007FFF80003FFF8001FFF000FFFF00007FFF0001FFF80020000040000200000, 2097152,
      0xFFFC001FFFE0000FFFE0007FFC003FFFC0001FFFC0007FFE00080000100000);
    Drop(payload, 24, 21, 0xFFFC001FFFE0000FFFE0007FFC003FFFC0001FFFC0007FFE00080000100000, 1048576,
      0x7FFE000FFFF00007FFF0003FFE001FFFE0000FFFE0003FFF000400000);
    Drop(payload, 45, 23, 0x7FFE000FFFF00007FFF0003FFE001FFFE0000FFFE0003FFF000400000, 4194304,
      0xFFFC001FFFE0000FFFE0007FFC003FFFC0001FFFC0007FFE000);
  }

  lemma EdgeMiddleRests(payload: seq<byte>)
    requires Rest(payload, 68, 0xFFFC001FFFE0000FFFE0007FFC003FFFC0001FFFC0007FFE000)
    ensures Rest(payload, 110, 0x3FFF0007FFF80003FFF8001FFF000FFFF00007FFF)
    ensures Rest(payload, 158, 0x3FFF0007FFF80003FFF8001FFF000)
  {
    BytePowers();
    WordPowers();
    Drop(payload, 68, 14, 0xFFFC001FFFE0000FFFE0007FFC003FFFC0001FFFC0007FFE000, 8192,
      0x3FFF0007FFF80003FFF8001FFF000FFFF00007FFF0001FFF);
    Drop(payload, 82, 14, 0x3FFF0007FFF80003FFF8001FFF000FFFF00007FFF0001FFF, 8191,
      0xFFFC001FFFE0000FFFE0007FFC003FFFC0001FFFC000);
    Drop(payload, 96, 14, 0xFFFC001FFFE0000FFFE0007FFC003FFFC0001FFFC000, 0,
      0x3FFF0007FFF80003FFF8001FFF000FFFF00007FFF);
    Drop(payload, 110, 16, 0x3FFF0007FFF80003FFF8001FFF000FFFF00007FFF, 32767,
      0x3FFF0007FFF80003FFF8001FFF000FFFF0000);
    Drop(payload, 126, 16, 0x3FFF0007FFF80003FFF8001FFF000FFFF0000, 0, 0x3FFF0007FFF80003FFF8001FFF000FFFF);
    Drop(payload, 142, 16, 0x3FFF0007FFF80003FFF8001FFF000FFFF, 65535, 0x3FFF0007FFF80003FFF8001FFF000);
  }

  lemma EdgeHighRests(payload: seq<byte>)
    requires Rest(payload, 158, 0x3FFF0007FFF80003FFF8001FFF000)
    ensures Rest(payload, 197, 0x7FFE000FFFF00007FFF)
    ensures Rest(payload, 245, 0x7FFE000)
    ensures Rest(payload, 287, 0x0)
  {
    BytePowers();
    WordPowers();
    Drop(payload, 158, 13, 0x3FFF0007FFF80003FFF8001FFF000, 4096, 0x1FFF8003FFFC0001FFFC000FFF);
    Drop(payload, 171, 13, 0x1FFF8003FFFC0001FFFC000FFF, 4095, 0xFFFC001FFFE0000FFFE000);
    Drop(payload, 184, 13, 0xFFFC001FFFE0000FFFE000, 0, 0x7FFE000FFFF00007FFF);
    Drop(payload, 197, 16, 0x7FFE000FFFF00007FFF, 32767, 0x7FFE000FFFF0000);
    Drop(payload, 213, 16, 0x7FFE000FFFF0000, 0, 0x7FFE000FFFF);
    Drop(payload, 229, 16, 0x7FFE000FFFF, 65535, 0x7FFE000);
    Drop(payload, 245, 14, 0x7FFE000, 8192, 0x1FFF);
    Drop(payload, 259, 14, 0x1FFF, 8191, 0x0);
    Drop(payload, 273, 14, 0x0, 0, 0x0);
  }

  lemma EdgeAccel(payload: seq<byte>)
    requires LittleEndian(payload) == 0xFFFC001FFFE0000FFFE0007FFC003FFFC0001FFFC0007FFE00080000100000800003
    ensures Vectors(payload, CATCHUP.accel, EDGE_FIELDS.accel)
  {
    EdgeRests(payload);
    EdgeAccel0(payload);
    EdgeAccel1(payload);
    EdgeAccel2(payload);
  }

  lemma EdgeAccel0(payload: seq<byte>)
    requires Rest(payload, 68, 0xFFFC001FFFE0000FFFE0007FFC003FFFC0001FFFC0007FFE000)
    ensures VectorHolds(payload, Slot(68, 14), Vec3(-8192, 8191, 0))
  {
    BytePowers();
    WordPowers();
    VectorFrom(payload, Slot(68, 14), Vec3(-8192, 8191, 0), 0xFFFC001FFFE0000FFFE0007FFC003FFFC0001FFFC0007FFE000,
      0x3FFF0007FFF80003FFF8001FFF000FFFF00007FFF0001FFF, 0xFFFC001FFFE0000FFFE0007FFC003FFFC0001FFFC000,
      0x3FFF0007FFF80003FFF8001FFF000FFFF00007FFF);
  }

  lemma EdgeAccel1(payload: seq<byte>)
    requires Rest(payload, 158, 0x3FFF0007FFF80003FFF8001FFF000)
    ensures VectorHolds(payload, Slot(158, 13), Vec3(-4096, 4095, 0))
  {
    BytePowers();
    WordPowers();
    VectorFrom(payload, Slot(158, 13), Vec3(-4096, 4095, 0), 0x3FFF0007FFF80003FFF8001FFF000,
      0x1FFF8003FFFC0001FFFC000FFF, 0xFFFC001FFFE0000FFFE000, 0x7FFE000FFFF00007FFF);
  }

  lemma EdgeAccel2(payload: seq<byte>)
    requires Rest(payload, 245, 0x7FFE000)
    ensures VectorHolds(payload, Slot(245, 14), Vec3(-8192, 8191, 0))
  {
    BytePowers();
    WordPowers();
    VectorFrom(payload, Slot(245, 14), Vec3(-8192, 8191, 0), 0x7FFE000, 0x1FFF, 0x0, 0x0);
  }

  lemma EdgeGyro(payload: seq<byte>)
    requires LittleEndian(payload) == 0xFFFC001FFFE0000FFFE0007FFC003FFFC0001FFFC0007FFE00080000100000800003
    ensures Vectors(payload, CATCHUP.gyro, EDGE_FIELDS.gyro)
  {
    EdgeRests(payload);
    EdgeGyro0(payload);
    EdgeGyro1(payload);
  }

  lemma EdgeGyro0(payload: seq<byte>)
    requires Rest(payload, 110, 0x3FFF0007FFF80003FFF8001FFF000FFFF00007FFF)
    ensures VectorHolds(payload, Slot(110, 16), Vec3(32767, 0, -1))
  {
    BytePowers();
    WordPowers();
    VectorFrom(payload, Slot(110, 16), Vec3(32767, 0, -1), 0x3FFF0007FFF80003FFF8001FFF000FFFF00007FFF,
      0x3FFF0007FFF80003FFF8001FFF000FFFF0000, 0x3FFF0007FFF80003FFF8001FFF000FFFF,
      0x3FFF0007FFF80003FFF8001FFF000);
  }

  lemma EdgeGyro1(payload: seq<byte>)
    requires Rest(payload, 197, 0x7FFE000FFFF00007FFF)
    ensures VectorHolds(payload, Slot(197, 16), Vec3(32767, 0, -1))
  {
    BytePowers();
    WordPowers();
    VectorFrom(payload, Slot(197, 16), Vec3(32767, 0, -1), 0x7FFE000FFFF00007FFF, 0x7FFE000FFFF0000, 0x7FFE000FFFF,
      0x7FFE000);
  }

  lemma EdgeLanes(payload: seq<byte>)
    requires LittleEndian(payload) == 0xFFFC001FFFE0000FFFE0007FFC003FFFC0001FFFC0007FFE00080000100000800003
    ensures Lanes(CATCHUP, payload, EDGE_FIELDS)
  {
    EdgeRests(payload);
    BytePowers();
    WordPowers();
    UnsignedFrom(payload, 0, 2, 0xFFFC001FFFE0000FFFE0007FFC003FFFC0001FFFC0007FFE00080000100000800003, 3,
      0x3FFF0007FFF80003FFF8001FFF000FFFF00007FFF0001FFF80020000040000200000);
    LaneFrom(payload, 2, 22, 0x3FFF0007FFF80003FFF8001FFF000FFFF00007FFF0001FFF80020000040000200000, -2097152,
      0xFFFC001FFFE0000FFFE0007FFC003FFFC0001FFFC0007FFE00080000100000);
    LaneFrom(payload, 24, 21, 0xFFFC001FFFE0000FFFE0007FFC003FFFC0001FFFC0007FFE00080000100000, -1048576,
      0x7FFE000FFFF00007FFF0003FFE001FFFE0000FFFE0003FFF000400000);
    LaneFrom(payload, 45, 23, 0x7FFE000FFFF00007FFF0003FFE001FFFE0000FFFE0003FFF000400000, -4194304,
      0xFFFC001FFFE0000FFFE0007FFC003FFFC0001FFFC0007FFE000);
    UnsignedFrom(payload, 287, 1, 0x0, 0, 0x0);
  }

  lemma EdgeTail(c3: seq<byte>, c4: seq<byte>, c5: seq<byte>)
    requires c3 == [0xFF, 0x3F, 0x00, 0xFC, 0x7F, 0x00] && c4 == [0xE0, 0xFF, 0x0F, 0x00, 0xE0, 0xFF]
    requires c5 == [0x1F, 0x00, 0xFC, 0xFF, 0x00, 0x00]
    ensures LittleEndian(c3 + (c4 + c5)) == 0xFFFC001FFFE0000FFFE0007FFC003FFF
  {
    Chunk(c3, 0x7FFC003FFF);
    Chunk(c4, 0xFFE0000FFFE0);
    Chunk(c5, 0xFFFC001F);
    Prepend(c4, c5, 0xFFE0000FFFE0, 0xFFFC001F, 0xFFFC001FFFE0000FFFE0);
    Prepend(c3, c4 + c5, 0x7FFC003FFF, 0xFFFC001FFFE0000FFFE0, 0xFFFC001FFFE0000FFFE0007FFC003FFF);
  }

  lemma EdgeNumber()
    ensures LittleEndian(EDGE_PAYLOAD) == 0xFFFC001FFFE0000FFFE0007FFC003FFFC0001FFFC0007FFE00080000100000800003
  {
    var c0: seq<byte> := [0x03, 0x00, 0x80, 0x00, 0x00, 0x10];
    var c1: seq<byte> := [0x00, 0x00, 0x08, 0x00, 0xFE, 0x7F];
    var c2: seq<byte> := [0x00, 0xC0, 0xFF, 0x1F, 0x00, 0xC0];
    var c3: seq<byte> := [0xFF, 0x3F, 0x00, 0xFC, 0x7F, 0x00];
    var c4: seq<byte> := [0xE0, 0xFF, 0x0F, 0x00, 0xE0, 0xFF];
    var c5: seq<byte> := [0x1F, 0x00, 0xFC, 0xFF, 0x00, 0x00];
    EdgeTail(c3, c4, c5);
    Chunk(c0, 0x100000800003);
    Chunk(c1, 0x7FFE00080000);
    Chunk(c2, 0xC0001FFFC000);
    Prepend(c2, c3 + (c4 + c5), 0xC0001FFFC000, 0xFFFC001FFFE0000FFFE0007FFC003FFF,
      0xFFFC001FFFE0000FFFE0007FFC003FFFC0001FFFC000);
    Prepend(c1, c2 + (c3 + (c4 + c5)), 0x7FFE00080000, 0xFFFC001FFFE0000FFFE0007FFC003FFFC0001FFFC000,
      0xFFFC001FFFE0000FFFE0007FFC003FFFC0001FFFC0007FFE00080000);
    Prepend(c0, c1 + (c2 + (c3 + (c4 + c5))), 0x100000800003,
      0xFFFC001FFFE0000FFFE0007FFC003FFFC0001FFFC0007FFE00080000,
      0xFFFC001FFFE0000FFFE0007FFC003FFFC0001FFFC0007FFE00080000100000800003);
  }

  /** What is left of the payload number where each field starts. */
  lemma CapturedRests(payload: seq<byte>)
    requires LittleEndian(payload) == 0x18016B954F34FF0147DBFA6CFFBECFFFFAAD16D30CF373F0151B431476E0B4387FC154F
    ensures Rest(payload, 0, 0x18016B954F34FF0147DBFA6CFFBECFFFFAAD16D30CF373F0151B431476E0B4387FC154F)
    ensures Rest(payload, 2, 0x6005AE553CD3FC051F6FE9B3FEFB3FFFEAB45B4C33CDCFC0546D0C51DB82D0E1FF0553)
    ensures Rest(payload, 26, 0x6005AE553CD3FC051F6FE9B3FEFB3FFFEAB45B4C33CDCFC0546D0C51DB82D0E1)
    ensures Rest(payload, 49, 0xC00B5CAA79A7F80A3EDFD367FDF67FFFD568B698679B9F80A8DA18A3B7)
    ensures Rest(payload, 74, 0x6005AE553CD3FC051F6FE9B3FEFB3FFFEAB45B4C33CDCFC0546D)
    ensures Rest(payload, 140, 0x18016B954F34FF0147DBFA6CFFBECFFFFAAD)
    ensures Rest(payload, 206, 0x6005AE553CD3FC051F6)
    ensures Rest(payload, 272, 0x180)
  {
    CapturedLowRests(payload);
    CapturedHighRests(payload);
  }

  lemma CapturedLowRests(payload: seq<byte>)
    requires LittleEndian(payload) == 0x18016B954F34FF0147DBFA6CFFBECFFFFAAD16D30CF373F0151B431476E0B4387FC154F
    ensures Rest(payload, 0, 0x18016B954F34FF0147DBFA6CFFBECFFFFAAD16D30CF373F0151B431476E0B4387FC154F)
    ensures Rest(payload, 2, 0x6005AE553CD3FC051F6FE9B3FEFB3FFFEAB45B4C33CDCFC0546D0C51DB82D0E1FF0553)
    ensures Rest(payload, 26, 0x6005AE553CD3FC051F6FE9B3FEFB3FFFEAB45B4C33CDCFC0546D0C51DB82D0E1)
    ensures Rest(payload, 49, 0xC00B5CAA79A7F80A3EDFD367FDF67FFFD568B698679B9F80A8DA18A3B7)
    ensures Rest(payload, 74, 0x6005AE553CD3FC051F6FE9B3FEFB3FFFEAB45B4C33CDCFC0546D)
    ensures Rest(payload, 140, 0x18016B954F34FF0147DBFA6CFFBECFFFFAAD)
  {
    BytePowers();
    WordPowers();
    Drop(payload, 0, 2, 0x18016B954F34FF0147DBFA6CFFBECFFFFAAD16D30CF373F0151B431476E0B4387FC154F, 3,
      0x6005AE553CD3FC051F6FE9B3FEFB3FFFEAB45B4C33CDCFC0546D0C51DB82D0E1FF0553);
    Drop(payload, 2, 24, 0x6005AE553CD3FC051F6FE9B3FEFB3FFFEAB45B4C33CDCFC0546D0C51DB82D0E1FF0553, 16713043,
      0x6005AE553CD3FC051F6FE9B3FEFB3FFFEAB45B4C33CDCFC0546D0C51DB82D0E1);
    Drop(payload, 26, 23, 0x6005AE553CD3FC051F6FE9B3FEFB3FFFEAB45B4C33CDCFC0546D0C51DB82D0E1, 184545,
      0xC00B5CAA79A7F80A3EDFD367FDF67FFFD568B698679B9F80A8DA18A3B7);
    Drop(payload, 49, 25, 0xC00B5CAA79A7F80A3EDFD367FDF67FFFD568B698679B9F80A8DA18A3B7, 1614775,
      0x6005AE553CD3FC051F6FE9B3FEFB3FFFEAB45B4C33CDCFC0546D);
    Drop(payload, 74, 22, 0x6005AE553CD3FC051F6FE9B3FEFB3FFFEAB45B4C33CDCFC0546D, 21613,
      0x18016B954F34FF0147DBFA6CFFBECFFFFAAD16D30CF373F);
    Drop(payload, 96, 22, 0x18016B954F34FF0147DBFA6CFFBECFFFFAAD16D30CF373F, 997183,
      0x6005AE553CD3FC051F6FE9B3FEFB3FFFEAB45B4C3);
    Drop(payload, 118, 22, 0x6005AE553CD3FC051F6FE9B3FEFB3FFFEAB45B4C3, 373955,
      0x18016B954F34FF0147DBFA6CFFBECFFFFAAD);
  }

  lemma CapturedHighRests(payload: seq<byte>)
    requires Rest(payload, 140, 0x18016B954F34FF0147DBFA6CFFBECFFFFAAD)
    ensures Rest(payload, 206, 0x6005AE553CD3FC051F6)
    ensures Rest(payload, 272, 0x180)
  {
    BytePowers();
    WordPowers();
    Drop(payload, 140, 22, 0x18016B954F34FF0147DBFA6CFFBECFFFFAAD, 4192941, 0x6005AE553CD3FC051F6FE9B3FEFB3F);
    Drop(payload, 162, 22, 0x6005AE553CD3FC051F6FE9B3FEFB3F, 4127551, 0x18016B954F34FF0147DBFA6CF);
    Drop(payload, 184, 22, 0x18016B954F34FF0147DBFA6CF, 4171471, 0x6005AE553CD3FC051F6);
    Drop(payload, 206, 22, 0x6005AE553CD3FC051F6, 20982, 0x18016B954F34FF);
    Drop(payload, 228, 22, 0x18016B954F34FF, 996607, 0x6005AE55);
    Drop(payload, 250, 22, 0x6005AE55, 372309, 0x180);
  }

  lemma CapturedAccel(payload: seq<byte>)
    requires LittleEndian(payload) == 0x18016B954F34FF0147DBFA6CFFBECFFFFAAD16D30CF373F0151B431476E0B4387FC154F
    ensures Vectors(payload, HIGH_RATE.accel, CAPTURED_FIELDS.accel)
  {
    CapturedRests(payload);
    BytePowers();
    WordPowers();
    VectorFrom(payload, Slot(74, 22), Vec3(21613, 997183, 373955),
      0x6005AE553CD3FC051F6FE9B3FEFB3FFFEAB45B4C33CDCFC0546D, 0x18016B954F34FF0147DBFA6CFFBECFFFFAAD16D30CF373F,
      0x6005AE553CD3FC051F6FE9B3FEFB3FFFEAB45B4C3, 0x18016B954F34FF0147DBFA6CFFBECFFFFAAD);
    VectorFrom(payload, Slot(206, 22), Vec3(20982, 996607, 372309), 0x6005AE553CD3FC051F6, 0x18016B954F34FF,
      0x6005AE55, 0x180);
  }

  lemma CapturedGyro(payload: seq<byte>)
    requires LittleEndian(payload) == 0x18016B954F34FF0147DBFA6CFFBECFFFFAAD16D30CF373F0151B431476E0B4387FC154F
    ensures Vectors(payload, HIGH_RATE.gyro, CAPTURED_FIELDS.gyro)
  {
    CapturedRests(payload);
    BytePowers();
    WordPowers();
    VectorFrom(payload, Slot(140, 22), Vec3(-1363, -66753, -22833), 0x18016B954F34FF0147DBFA6CFFBECFFFFAAD,
      0x6005AE553CD3FC051F6FE9B3FEFB3F, 0x18016B954F34FF0147DBFA6CF, 0x6005AE553CD3FC051F6);
  }

  lemma CapturedLanes(payload: seq<byte>)
    requires LittleEndian(payload) == 0x18016B954F34FF0147DBFA6CFFBECFFFFAAD16D30CF373F0151B431476E0B4387FC154F
    ensures Lanes(HIGH_RATE, payload, CAPTURED_FIELDS)
  {
    CapturedRests(payload);
    BytePowers();
    WordPowers();
    UnsignedFrom(payload, 0, 2, 0x18016B954F34FF0147DBFA6CFFBECFFFFAAD16D30CF373F0151B431476E0B4387FC154F, 3,
      0x6005AE553CD3FC051F6FE9B3FEFB3FFFEAB45B4C33CDCFC0546D0C51DB82D0E1FF0553);
    LaneFrom(payload, 2, 24, 0x6005AE553CD3FC051F6FE9B3FEFB3FFFEAB45B4C33CDCFC0546D0C51DB82D0E1FF0553, -64173,
      0x6005AE553CD3FC051F6FE9B3FEFB3FFFEAB45B4C33CDCFC0546D0C51DB82D0E1);
    LaneFrom(payload, 26, 23, 0x6005AE553CD3FC051F6FE9B3FEFB3FFFEAB45B4C33CDCFC0546D0C51DB82D0E1, 184545,
      0xC00B5CAA79A7F80A3EDFD367FDF67FFFD568B698679B9F80A8DA18A3B7);
    LaneFrom(payload, 49, 25, 0xC00B5CAA79A7F80A3EDFD367FDF67FFFD568B698679B9F80A8DA18A3B7, 1614775,
      0x6005AE553CD3FC051F6FE9B3FEFB3FFFEAB45B4C33CDCFC0546D);
    UnsignedFrom(payload, 272, 16, 0x180, 384, 0x0);
  }

  lemma CapturedTail(c3: seq<byte>, c4: seq<byte>, c5: seq<byte>)
    requires c3 == [0xAA, 0xFF, 0xFF, 0xEC, 0xFB, 0xCF] && c4 == [0xA6, 0xBF, 0x7D, 0x14, 0xF0, 0x4F]
    requires c5 == [0xF3, 0x54, 0xB9, 0x16, 0x80, 0x01]
    ensures LittleEndian(c3 + (c4 + c5)) == 0x18016B954F34FF0147DBFA6CFFBECFFFFAA
  {
    Chunk(c3, 0xCFFBECFFFFAA);
    Chunk(c4, 0x4FF0147DBFA6);
    Chunk(c5, 0x18016B954F3);
    Prepend(c4, c5, 0x4FF0147DBFA6, 0x18016B954F3, 0x18016B954F34FF0147DBFA6);
    Prepend(c3, c4 + c5, 0xCFFBECFFFFAA, 0x18016B954F34FF0147DBFA6, 0x18016B954F34FF0147DBFA6CFFBECFFFFAA);
  }

  lemma CapturedNumber()
    ensures LittleEndian(CAPTURED_PAYLOAD) == 0x18016B954F34FF0147DBFA6CFFBECFFFFAAD16D30CF373F0151B431476E0B4387FC154F
  {
    var c0: seq<byte> := [0x4F, 0x15, 0xFC, 0x87, 0x43, 0x0B];
    var c1: seq<byte> := [0x6E, 0x47, 0x31, 0xB4, 0x51, 0x01];
    var c2: seq<byte> := [0x3F, 0x37, 0xCF, 0x30, 0x6D, 0xD1];
    var c3: seq<byte> := [0xAA, 0xFF, 0xFF, 0xEC, 0xFB, 0xCF];
    var c4: seq<byte> := [0xA6, 0xBF, 0x7D, 0x14, 0xF0, 0x4F];
    var c5: seq<byte> := [0xF3, 0x54, 0xB9, 0x16, 0x80, 0x01];
    CapturedTail(c3, c4, c5);
    Chunk(c0, 0xB4387FC154F);
    Chunk(c1, 0x151B431476E);
    Chunk(c2, 0xD16D30CF373F);
    Prepend(c2, c3 + (c4 + c5), 0xD16D30CF373F, 0x18016B954F34FF0147DBFA6CFFBECFFFFAA,
      0x18016B954F34FF0147DBFA6CFFBECFFFFAAD16D30CF373F);
    Prepend(c1, c2 + (c3 + (c4 + c5)), 0x151B431476E, 0x18016B954F34FF0147DBFA6CFFBECFFFFAAD16D30CF373F,
      0x18016B954F34FF0147DBFA6CFFBECFFFFAAD16D30CF373F0151B431476E);
    Prepend(c0, c1 + (c2 + (c3 + (c4 + c5))), 0xB4387FC154F,
      0x18016B954F34FF0147DBFA6CFFBECFFFFAAD16D30CF373F0151B431476E,
      0x18016B954F34FF0147DBFA6CFFBECFFFFAAD16D30CF373F0151B431476E0B4387FC154F);
  }

  lemma EdgeHeader()
    ensures |EDGE_ROW| == PDU_BYTES
    ensures var m := EDGE_FIELDS;
      TickOf(EDGE_ROW) == m.tick && ElapsedOf(EDGE_ROW) == m.elapsed && EDGE_ROW[3] == m.status
  {
  }

  lemma EdgeUnpacked()
    ensures Gapless(CATCHUP) && |EDGE_ROW| == PDU_BYTES && Unpack(CATCHUP, EDGE_ROW) == EDGE_FIELDS
  {
    LayoutsGapless(15);
    EdgeNumber();
    EdgeLanes(EDGE_PAYLOAD);
    EdgeAccel(EDGE_PAYLOAD);
    EdgeGyro(EDGE_PAYLOAD);
    EdgeHeader();
    assert EDGE_ROW[HEADER_BYTES..] == EDGE_PAYLOAD;
    UnpackHolds(CATCHUP, EDGE_ROW, EDGE_FIELDS);
  }

  lemma CapturedHeader()
    ensures |CAPTURED_ROW| == PDU_BYTES
    ensures var m := CAPTURED_FIELDS;
      TickOf(CAPTURED_ROW) == m.tick && ElapsedOf(CAPTURED_ROW) == m.elapsed && CAPTURED_ROW[3] == m.status
  {
  }

  lemma CapturedUnpacked()
    ensures Gapless(HIGH_RATE) && |CAPTURED_ROW| == PDU_BYTES && Unpack(HIGH_RATE, CAPTURED_ROW) == CAPTURED_FIELDS
  {
    LayoutsGapless(7);
    CapturedNumber();
    CapturedLanes(CAPTURED_PAYLOAD);
    CapturedAccel(CAPTURED_PAYLOAD);
    CapturedGyro(CAPTURED_PAYLOAD);
    CapturedHeader();
    assert CAPTURED_ROW[HEADER_BYTES..] == CAPTURED_PAYLOAD;
    UnpackHolds(HIGH_RATE, CAPTURED_ROW, CAPTURED_FIELDS);
  }

  /** The first edge case of the catch-up table decodes to its fields and is rebuilt from them. */
  lemma EdgeRow()
    ensures Decode(EDGE_ROW) == Sample(CATCHUP, EDGE_FIELDS)
    ensures |EDGE_FIELDS.accel| == |CATCHUP.accel| && |EDGE_FIELDS.gyro| == |CATCHUP.gyro|
    ensures Pdu(CATCHUP, EDGE_FIELDS) == EDGE_ROW
  {
    EdgeUnpacked();
    PackUnpack(CATCHUP, EDGE_ROW);
  }

  /** The first captured packet of the high-rate table decodes to its fields and is rebuilt from them. */
  lemma CapturedRow()
    ensures Decode(CAPTURED_ROW) == Sample(HIGH_RATE, CAPTURED_FIELDS)
    ensures |CAPTURED_FIELDS.accel| == |HIGH_RATE.accel| && |CAPTURED_FIELDS.gyro| == |HIGH_RATE.gyro|
    ensures Pdu(HIGH_RATE, CAPTURED_FIELDS) == CAPTURED_ROW
  {
    CapturedUnpacked();
    PackUnpack(HIGH_RATE, CAPTURED_ROW);
  }
}
