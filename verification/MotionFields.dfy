// Where the decoder finds every field, by literal position: three cadences, one packet.

module MotionFields {
  import opened Bits
  import opened BitLayout
  import opened MotionPacket
  import opened MotionPacker

  /** Three consecutive signed fields of `width` bits from payload bit `offset` on. */
  predicate Holds(payload: seq<byte>, offset: nat, width: nat, v: Vec3)
    requires width > 0
  {
    && v.x == SignedBits(payload, offset, width) && v.y == SignedBits(payload, offset + width, width)
    && v.z == SignedBits(payload, offset + 2 * width, width)
  }

  /** Three signed lanes of their own positions and widths. */
  predicate Lanes(payload: seq<byte>, x: (nat, nat), y: (nat, nat), z: (nat, nat), v: Vec3)
    requires x.1 > 0 && y.1 > 0 && z.1 > 0
  {
    && v.x == SignedBits(payload, x.0, x.1) && v.y == SignedBits(payload, y.0, y.1)
    && v.z == SignedBits(payload, z.0, z.1)
  }

  /** The elapsed count of a packet: the high nibble of byte 1 below byte 2. */
  function Elapsed(pdu: seq<byte>): int
    requires |pdu| == 40
  {
    pdu[1] / 16 + 16 * pdu[2] as int
  }

  predicate IsMotion(pdu: seq<byte>) {
    |pdu| == 40 && pdu[4] % 4 == 3
  }

  /** Which packets are decoded, and the fields that all of them share. */
  lemma HeaderReads(pdu: seq<byte>)
    ensures Decode(pdu).BadLength? <==> |pdu| != 40
    ensures Decode(pdu).Sample? <==> IsMotion(pdu)
    ensures Decode(pdu).Sample? ==>
      var f := Decode(pdu).fields;
      && f.tick == pdu[0] + 256 * (pdu[1] % 16) as int && f.elapsed == Elapsed(pdu) && f.status == pdu[3] && f.mode == 3
    ensures Decode(pdu).UnknownMode? ==>
      var d := Decode(pdu);
      && d.tick == pdu[0] + 256 * (pdu[1] % 16) as int && d.elapsed == Elapsed(pdu) && d.status == pdu[3]
      && d.mode == pdu[4] % 4
  {
    if |pdu| == 40 {
      LowTwoBits(pdu);
      LayoutsGapless(ElapsedOf(pdu));
    }
  }

  predicate SlotHolds(payload: seq<byte>, s: Slot, v: Vec3) {
    s.width > 0 && Holds(payload, s.offset, s.width, v)
  }

  /** Every field of `m` is read from its own slot of the layout. */
  predicate ReadFrom(l: Layout, payload: seq<byte>, m: Motion) {
    var (a, b, c) := l.carrier;
    && a.width > 0 && b.width > 0 && c.width > 0
    && Lanes(payload, (a.offset, a.width), (b.offset, b.width), (c.offset, c.width), m.carrier)
    && |m.accel| == |l.accel| && |m.gyro| == |l.gyro|
    && (forall i :: 0 <= i < |l.accel| ==> SlotHolds(payload, l.accel[i], m.accel[i]))
    && (forall i :: 0 <= i < |l.gyro| ==> SlotHolds(payload, l.gyro[i], m.gyro[i]))
    && m.tail == UnsignedBits(payload, l.tail.offset, l.tail.width)
  }

  lemma VectorHolds(payload: seq<byte>, s: Slot)
    requires 0 < s.width <= 32
    ensures SlotHolds(payload, s, ReadVector(payload, s))
  {
  }

  lemma UnpackReads(l: Layout, pdu: seq<byte>)
    requires Gapless(l) && |pdu| == 40
    ensures ReadFrom(l, pdu[4..], Unpack(l, pdu))
  {
    ChainedCounts(l.accel, l.gyro, l.carrier.2.offset + l.carrier.2.width, l.tail.offset);
    forall i | 0 <= i < |l.accel| ensures SlotHolds(pdu[4..], l.accel[i], Unpack(l, pdu).accel[i]) {
      VectorHolds(pdu[4..], l.accel[i]);
    }
    forall i | 0 <= i < |l.gyro| ensures SlotHolds(pdu[4..], l.gyro[i], Unpack(l, pdu).gyro[i]) {
      VectorHolds(pdu[4..], l.gyro[i]);
    }
  }

  /** The fields of a motion packet are the ones read from its layout's slots. */
  lemma DecodeReads(pdu: seq<byte>, l: Layout)
    requires IsMotion(pdu) && l == LayoutFor(Elapsed(pdu))
    ensures Decode(pdu).Sample? && ReadFrom(l, pdu[4..], Decode(pdu).fields)
  {
    HeaderReads(pdu);
    LayoutsGapless(Elapsed(pdu));
    UnpackReads(l, pdu);
  }

  /** Vector `i` is read from the `i`-th offset and width. */
  predicate Vectors(payload: seq<byte>, places: seq<(nat, nat)>, vs: seq<Vec3>) {
    && |vs| == |places|
    && forall i :: 0 <= i < |places| ==> SlotHolds(payload, Slot(places[i].0, places[i].1), vs[i])
  }

  /** Three acceleration samples, two gyro samples, one tail bit. */
  predicate CatchupFields(p: seq<byte>, f: Motion) {
    && Lanes(p, (2, 22), (24, 21), (45, 23), f.carrier)
    && Vectors(p, [(68, 14), (158, 13), (245, 14)], f.accel) && Vectors(p, [(110, 16), (197, 16)], f.gyro)
    && f.tail == UnsignedBits(p, 287, 1)
  }

  /** The same samples in other widths, sixteen tail bits. */
  predicate NormalFields(p: seq<byte>, f: Motion) {
    && Lanes(p, (2, 22), (24, 21), (45, 23), f.carrier)
    && Vectors(p, [(68, 14), (149, 13), (230, 14)], f.accel) && Vectors(p, [(110, 13), (188, 14)], f.gyro)
    && f.tail == UnsignedBits(p, 272, 16)
  }

  /** Two acceleration samples around one gyro sample, all of 22 bits. */
  predicate HighRateFields(p: seq<byte>, f: Motion) {
    && Lanes(p, (2, 24), (26, 23), (49, 25), f.carrier)
    && Vectors(p, [(74, 22), (206, 22)], f.accel) && Vectors(p, [(140, 22)], f.gyro)
    && f.tail == UnsignedBits(p, 272, 16)
  }

  lemma CatchupSlots(p: seq<byte>, f: Motion)
    requires ReadFrom(CATCHUP, p, f)
    ensures CatchupFields(p, f)
  {
  }

  lemma NormalSlots(p: seq<byte>, f: Motion)
    requires ReadFrom(NORMAL, p, f)
    ensures NormalFields(p, f)
  {
  }

  lemma HighRateSlots(p: seq<byte>, f: Motion)
    requires ReadFrom(HIGH_RATE, p, f)
    ensures HighRateFields(p, f)
  {
  }

  /** Every field of every motion packet, by cadence: fifteen ticks and more, eleven to fourteen, ten and fewer. */
  lemma FieldsRead(pdu: seq<byte>)
    requires IsMotion(pdu)
    ensures Decode(pdu).Sample?
    ensures Elapsed(pdu) >= 15 ==> CatchupFields(pdu[4..], Decode(pdu).fields)
    ensures 11 <= Elapsed(pdu) <= 14 ==> NormalFields(pdu[4..], Decode(pdu).fields)
    ensures Elapsed(pdu) <= 10 ==> HighRateFields(pdu[4..], Decode(pdu).fields)
  {
    DecodeReads(pdu, LayoutFor(Elapsed(pdu)));
    if Elapsed(pdu) >= 15 {
      CatchupSlots(pdu[4..], Decode(pdu).fields);
    } else if Elapsed(pdu) >= 11 {
      NormalSlots(pdu[4..], Decode(pdu).fields);
    } else {
      HighRateSlots(pdu[4..], Decode(pdu).fields);
    }
  }
}
