// The bit-layout theory shared by every motion PDU: a packet is a zeroed
// payload into which each field is OR-ed at its own bit offset.

module BitLayout {
  import opened Bits

  /** One store: the low `width` bits of `value` at bit `offset`. */
  datatype Write = Write(offset: nat, width: nat, value: int) {
    /** The bits that reach the wire: two's-complement wrap to the width. */
    function Residue(): (r: nat)
      ensures r < Pow2(width)
    {
      value % Pow2(width)
    }

    predicate Owns(k: int) {
      offset <= k < offset + width
    }

    predicate Sets(k: int) {
      Owns(k) && NatBit(Residue(), k - offset)
    }
  }

  /** The effect of OR-ing one field into a bit string. */
  function Put(bits: seq<bool>, w: Write): (r: seq<bool>)
    ensures |r| == |bits|
  {
    seq(|bits|, k requires 0 <= k < |bits| => bits[k] || w.Sets(k))
  }

  /** The effect of overwriting one field of a bit string. */
  function Replace(bits: seq<bool>, w: Write): (r: seq<bool>)
    ensures |r| == |bits|
  {
    seq(|bits|, k requires 0 <= k < |bits| => if w.Owns(k) then w.Sets(k) else bits[k])
  }

  function PutAll(bits: seq<bool>, ws: seq<Write>): (r: seq<bool>)
    ensures |r| == |bits|
    decreases |ws|
  {
    if ws == [] then bits else PutAll(Put(bits, ws[0]), ws[1..])
  }

  lemma {:induction false} PutAllConcat(bits: seq<bool>, a: seq<Write>, b: seq<Write>)
    ensures PutAll(bits, a + b) == PutAll(PutAll(bits, a), b)
    decreases |a|
  {
    if a == [] {
      assert a + b == b;
    } else {
      assert (a + b)[1..] == a[1..] + b;
      PutAllConcat(Put(bits, a[0]), a[1..], b);
    }
  }

  lemma PutAllOne(bits: seq<bool>, a: seq<Write>, w: Write)
    ensures PutAll(bits, a + [w]) == Put(PutAll(bits, a), w)
  {
    PutAllConcat(bits, a, [w]);
    assert [w][1..] == [];
  }

  lemma {:induction false} PutAllBit(bits: seq<bool>, ws: seq<Write>, k: nat)
    requires k < |bits|
    ensures PutAll(bits, ws)[k] <==> bits[k] || exists w :: w in ws && w.Sets(k)
    decreases |ws|
  {
    if ws != [] {
      PutAllBit(Put(bits, ws[0]), ws[1..], k);
      assert forall w :: w in ws <==> w == ws[0] || w in ws[1..];
    }
  }

  /** Only the set of stores matters: neither their order nor repetition does. */
  lemma OrderIrrelevant(bits: seq<bool>, a: seq<Write>, b: seq<Write>)
    requires forall w :: w in a <==> w in b
    ensures PutAll(bits, a) == PutAll(bits, b)
  {
    forall k | 0 <= k < |bits| ensures PutAll(bits, a)[k] == PutAll(bits, b)[k] {
      PutAllBit(bits, a, k);
      PutAllBit(bits, b, k);
    }
  }

  // ---- Layouts without gap or overlap --------------------------------------

  /** The stores lie end to end, from bit `at` up to bit `end`. */
  predicate Tiles(ws: seq<Write>, at: nat, end: nat) {
    if ws == [] then at == end
    else ws[0].offset == at && Tiles(ws[1..], at + ws[0].width, end)
  }

  lemma {:induction false} TilesConcat(a: seq<Write>, b: seq<Write>, at: nat, mid: nat, end: nat)
    requires Tiles(a, at, mid) && Tiles(b, mid, end)
    ensures Tiles(a + b, at, end)
  {
    if a == [] {
      assert a + b == b;
    } else {
      assert (a + b)[1..] == a[1..] + b;
      TilesConcat(a[1..], b, at + a[0].width, mid, end);
    }
  }

  lemma {:induction false} TilesRange(ws: seq<Write>, at: nat, end: nat)
    requires Tiles(ws, at, end)
    ensures at <= end
    ensures forall w :: w in ws ==> at <= w.offset && w.offset + w.width <= end
  {
    if ws != [] {
      TilesRange(ws[1..], at + ws[0].width, end);
      assert forall w :: w in ws <==> w == ws[0] || w in ws[1..];
    }
  }

  /** No gap and no overlap: every bit in range is owned by exactly one store. */
  lemma {:induction false} TilesPartition(ws: seq<Write>, at: nat, end: nat, k: nat) returns (i: nat)
    requires Tiles(ws, at, end) && at <= k < end
    ensures i < |ws| && ws[i].Owns(k)
    ensures forall j :: 0 <= j < |ws| && ws[j].Owns(k) ==> j == i
  {
    assert ws != [];
    TilesRange(ws[1..], at + ws[0].width, end);
    if ws[0].Owns(k) {
      i := 0;
      assert forall j :: 0 < j < |ws| ==> ws[j] == ws[1..][j - 1] && ws[j] in ws[1..];
    } else {
      i := TilesPartition(ws[1..], at + ws[0].width, end, k);
      i := i + 1;
      assert forall j :: 0 < j < |ws| ==> ws[j] == ws[1..][j - 1];
    }
  }

  /** The fields written one after the other. */
  function Concat(ws: seq<Write>): seq<bool> {
    if ws == [] then [] else FromNat(ws[0].Residue(), ws[0].width) + Concat(ws[1..])
  }

  lemma {:induction false} ConcatLength(ws: seq<Write>, at: nat, end: nat)
    requires Tiles(ws, at, end)
    ensures |Concat(ws)| == end - at
  {
    if ws != [] {
      ConcatLength(ws[1..], at + ws[0].width, end);
    }
  }

  /** OR-ing a gapless layout into zeros lays its fields end to end. */
  lemma {:induction false} PutAllIsConcat(prefix: seq<bool>, ws: seq<Write>, end: nat)
    requires Tiles(ws, |prefix|, end)
    ensures |Concat(ws)| == end - |prefix|
    ensures PutAll(prefix + Zeros(|Concat(ws)|), ws) == prefix + Concat(ws)
    decreases |ws|
  {
    ConcatLength(ws, |prefix|, end);
    if ws == [] {
      assert prefix + Zeros(0) == prefix == prefix + Concat(ws);
    } else {
      var w := ws[0];
      var field := FromNat(w.Residue(), w.width);
      PutAllIsConcat(prefix + field, ws[1..], end);
      var start := prefix + Zeros(|Concat(ws)|);
      var next := prefix + field + Zeros(|Concat(ws[1..])|);
      forall k | 0 <= k < |start| ensures Put(start, w)[k] == next[k] {
        if w.Owns(k) {
          FromNatBit(w.Residue(), w.width, k - w.offset);
        }
      }
      assert Put(start, w) == next;
      assert prefix + field + Concat(ws[1..]) == prefix + Concat(ws);
    }
  }

  /** A gapless layout, written in any order, reads back field by field. */
  lemma PackedTiles(ws: seq<Write>, order: seq<Write>, end: nat)
    requires Tiles(order, 0, end)
    requires forall w :: w in ws <==> w in order
    ensures PutAll(Zeros(end), ws) == Concat(order)
  {
    OrderIrrelevant(Zeros(end), ws, order);
    PutAllIsConcat([], order, end);
    assert [] + Zeros(end) == Zeros(end);
    assert [] + Concat(order) == Concat(order);
  }

  lemma SkipHead(head: seq<bool>, rest: seq<bool>, i: nat, n: nat)
    requires i + n <= |rest|
    ensures (head + rest)[|head| + i..|head| + i + n] == rest[i..i + n]
  {
  }

  lemma {:induction false} ConcatSlice(ws: seq<Write>, at: nat, end: nat, w: Write)
    requires Tiles(ws, at, end) && w in ws
    ensures at <= w.offset && w.offset + w.width <= end && |Concat(ws)| == end - at
    ensures Concat(ws)[w.offset - at..w.offset - at + w.width] == FromNat(w.Residue(), w.width)
  {
    ConcatLength(ws, at, end);
    TilesRange(ws, at, end);
    var head := FromNat(ws[0].Residue(), ws[0].width);
    if w == ws[0] {
    } else {
      var at' := at + ws[0].width;
      var rest := Concat(ws[1..]);
      ConcatSlice(ws[1..], at', end, w);
      SkipHead(head, rest, w.offset - at', w.width);
    }
  }

  lemma ConcatBit(ws: seq<Write>, end: nat, w: Write, k: nat)
    requires Tiles(ws, 0, end) && w in ws && w.Owns(k)
    ensures k < end == |Concat(ws)| && Concat(ws)[k] == NatBit(w.Residue(), k - w.offset)
  {
    ConcatSlice(ws, 0, end, w);
    SliceBit(Concat(ws), w.offset, w.width, w.Residue(), k);
  }

  lemma SliceBit(bits: seq<bool>, offset: nat, width: nat, n: nat, k: nat)
    requires offset <= k < offset + width <= |bits| && bits[offset..offset + width] == FromNat(n, width)
    ensures bits[k] == NatBit(n, k - offset)
  {
    FromNatBit(n, width, k - offset);
    assert bits[offset..offset + width][k - offset] == bits[k];
  }

  /** If every field of a gapless layout agrees with `bits`, so does the whole. */
  lemma {:induction false} ConcatOfSlices(ws: seq<Write>, bits: seq<bool>, at: nat)
    requires Tiles(ws, at, |bits|)
    requires forall w :: w in ws ==> w.offset + w.width <= |bits|
    requires forall w :: w in ws ==> w.Residue() == ToNat(bits[w.offset..w.offset + w.width])
    ensures at <= |bits| && Concat(ws) == bits[at..]
  {
    if ws != [] {
      var w := ws[0];
      ConcatOfSlices(ws[1..], bits, at + w.width);
      FromToNat(bits[w.offset..w.offset + w.width]);
      assert bits[at..] == bits[at..at + w.width] + bits[at + w.width..];
    }
  }

  // ---- The packet as one number ---------------------------------------------

  /** Sum of every field's residue times its weight. */
  function WeightedSum(ws: seq<Write>): nat {
    if ws == [] then 0 else ws[0].Residue() * Pow2(ws[0].offset) + WeightedSum(ws[1..])
  }

  /** A gapless layout is worth the sum of its shifted fields. */
  lemma {:induction false} ConcatValue(ws: seq<Write>, at: nat, end: nat)
    requires Tiles(ws, at, end)
    ensures ToNat(Concat(ws)) * Pow2(at) == WeightedSum(ws)
  {
    if ws != [] {
      var w := ws[0];
      ConcatValue(ws[1..], at + w.width, end);
      var tail := ToNat(Concat(ws[1..]));
      ToNatConcat(FromNat(w.Residue(), w.width), Concat(ws[1..]));
      ToFromNat(w.Residue(), w.width);
      ModMod(w.value, Pow2(w.width));
      Pow2Add(at, w.width);
      ShiftSum(w.Residue(), Pow2(w.width), tail, Pow2(at));
    }
  }

  lemma ShiftSum(r: int, p: int, t: int, q: int)
    ensures (r + p * t) * q == r * q + t * (q * p)
  {
    assert p * t * q == t * (q * p);
  }

  // ---- Reading --------------------------------------------------------------

  /** `(int.from_bytes(data, "little") >> offset) & ((1 << width) - 1)` */
  function UnsignedBits(data: seq<byte>, offset: nat, width: nat): nat {
    LittleEndian(data) / Pow2(offset) % Pow2(width)
  }

  function SignedBits(data: seq<byte>, offset: nat, width: nat): int
    requires width > 0
  {
    SignExtend(UnsignedBits(data, offset, width), width)
  }

  lemma ReadsUnsigned(data: seq<byte>, order: seq<Write>, w: Write)
    requires Tiles(order, 0, 8 * |data|) && w in order && AllBits(data) == Concat(order)
    ensures UnsignedBits(data, w.offset, w.width) == w.Residue()
  {
    ConcatSlice(order, 0, 8 * |data|, w);
    ReadsSlice(data, w.offset, w.width, w.Residue());
  }

  lemma ReadsSlice(data: seq<byte>, offset: nat, width: nat, n: nat)
    requires offset + width <= 8 * |data| && n < Pow2(width)
    requires AllBits(data)[offset..offset + width] == FromNat(n, width)
    ensures UnsignedBits(data, offset, width) == n
  {
    UnsignedReadSlice(data, offset, width);
    SmallRoundTrip(n, width);
  }

  /** The decoder's shift-and-mask reads exactly the stored field. */
  lemma ReadsField(data: seq<byte>, order: seq<Write>, w: Write)
    requires Tiles(order, 0, 8 * |data|) && w in order && AllBits(data) == Concat(order)
    ensures UnsignedBits(data, w.offset, w.width) == w.Residue()
    ensures w.width > 0 && FitsSigned(w.value, w.width)
      ==> SignedBits(data, w.offset, w.width) == w.value
  {
    ReadsUnsigned(data, order, w);
    if w.width > 0 && FitsSigned(w.value, w.width) {
      SignExtendOfResidue(w.value, w.width);
      SignExtendOf(w.value, w.width, w.value, 0);
    }
  }

  /** A field read signed and written back restores the bits it was read from. */
  lemma SignedReadResidue(data: seq<byte>, offset: nat, width: nat)
    requires width > 0
    ensures SignedBits(data, offset, width) % Pow2(width) == UnsignedBits(data, offset, width)
  {
    var p, u := Pow2(width), UnsignedBits(data, offset, width);
    DivModUnique(u, p, 0, u);
    if u >= Pow2(width - 1) {
      DivModUnique(u - p, p, -1, u);
    }
  }

  lemma UnsignedReadSlice(data: seq<byte>, offset: nat, width: nat)
    requires offset + width <= 8 * |data|
    ensures UnsignedBits(data, offset, width) == ToNat(AllBits(data)[offset..offset + width])
  {
    LittleEndianIsToNat(data);
    ToNatSlice(AllBits(data), offset, width);
  }
}
