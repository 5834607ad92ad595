// Where in a dump the classifier looks, by absolute position and value.

module AmiiboPositions {
  import opened Bits
  import opened Options
  import opened AmiiboImage
  import Crc16

  /** The four bytes of sector-1 page `p` are A5 00 gg 00 with a nonzero generation. */
  predicate MarkerAt(data: seq<byte>, p: int) {
    && 0 <= p < 256 && 0x400 + 4 * p + 4 <= |data|
    && data[0x400 + 4 * p] == 0xA5 && data[0x401 + 4 * p] == 0 && data[0x402 + 4 * p] != 0 && data[0x403 + 4 * p] == 0
  }

  /** Some byte of `data[lo..hi]` is nonzero. */
  ghost predicate AnyWritten(data: seq<byte>, lo: nat, hi: nat) {
    exists i :: lo <= i < hi && i < |data| && data[i] != 0
  }

  lemma MarkerMeaning(data: seq<byte>, p: nat)
    ensures IsMarker(data, p) <==> MarkerAt(data, p)
    ensures Describes(data, Capability(p, 0xFF)) <==> MarkerAt(data, p) && data[0x402 + 4 * p] == 0xFF
  {
  }

  lemma WindowMeaning(data: seq<byte>)
    ensures (exists p :: WindowLive(data, p)) <==> AnyWritten(data, 0x248, 0x388)
  {
    forall p ensures WindowLive(data, p) <==> 0x248 <= p < 0x388 && p < |data| && data[p] != 0 {
    }
    if AnyWritten(data, 0x248, 0x388) {
      var i :| 0x248 <= i < 0x388 && i < |data| && data[i] != 0;
      assert WindowLive(data, i);
    }
  }

  ghost predicate AnyMarker(data: seq<byte>) {
    exists p :: MarkerAt(data, p)
  }

  lemma NoMarkerMeaning(data: seq<byte>)
    ensures NoMarker(data) <==> !AnyMarker(data)
  {
    forall p: nat ensures IsMarker(data, p) <==> MarkerAt(data, p) {
      MarkerMeaning(data, p);
    }
    if AnyMarker(data) {
      var p :| MarkerAt(data, p);
      assert IsMarker(data, p);
    }
  }

  /** The identity, the header bytes and the record limit of a v3 dump. */
  lemma V3Positions(data: seq<byte>, p: nat)
    requires |data| == 2048
    ensures var f := FieldsOf(data);
      && f.format == V3 && !f.skipped && f.uid == data[0..7] && f.amiiboId == data[0x54..0x5C]
      && f.v3 == Some(FactsOf(data))
    ensures HeaderOk(data) <==> data[0] == 0x04 && data[7] == 0x00 && data[8] == 0x44
    ensures RecordPastEnd(data, p) <==> OnlyMarker(data, p) && 0x400 + 4 * (p + 1) + 0x60 > 2048
    ensures FactsOf(data).storedCrc == 0x100 * data[0x3FE] as int + data[0x3FF]
    ensures FactsOf(data).expectedCrc == Crc16.Crc(data[0x3C0..0x3FE])
  {
    assert Sram(data)[..SRAM_DATA_SIZE] == data[0x3C0..0x3FE];
  }

  /** A record starts at `p`: a nonzero window byte with nothing in the four before it. */
  predicate RecordAt(data: seq<byte>, p: int) {
    && 0x248 <= p < 0x388 && p < |data| && data[p] != 0
    && forall q :: p - 4 <= q < p && 0x248 <= q ==> data[q] == 0
  }

  /** The reported markers, in page order, and the reported record pages. */
  lemma FactsMeaning(data: seq<byte>, c: Capability, page: int)
    requires |data| == 2048
    ensures c in FactsOf(data).capability <==> MarkerAt(data, c.page) && c.generation == data[0x402 + 4 * c.page]
    ensures var ms := FactsOf(data).capability; forall i, j :: 0 <= i < j < |ms| ==> ms[i].page < ms[j].page
    ensures page in FactsOf(data).recordPages <==> exists p :: RecordAt(data, p) && p / 4 == page
  {
    FactsAre(data, FactsOf(data));
    MarkersListed(data, Markers(data, 256), c);
    PagesListed(data, RecordPages(data), page);
  }

  lemma FactsAre(data: seq<byte>, v: V3Facts)
    requires |data| == 2048 && v == FactsOf(data)
    ensures v.capability == Markers(data, 256) && v.recordPages == RecordPages(data) && v.allocation == Allocate(data)
  {
  }

  lemma MarkersListed(data: seq<byte>, ms: seq<Capability>, c: Capability)
    requires ms == Markers(data, 256)
    ensures c in ms <==> MarkerAt(data, c.page) && c.generation == data[0x402 + 4 * c.page]
    ensures forall i, j :: 0 <= i < j < |ms| ==> ms[i].page < ms[j].page
  {
    MarkersExact(data, 256);
    MarkerMeaning(data, c.page);
    if c in ms {
      var i :| 0 <= i < |ms| && ms[i] == c;
      assert Describes(data, ms[i]);
    } else if MarkerAt(data, c.page) {
      assert Lists(ms, c.page);
      var i :| 0 <= i < |ms| && ms[i].page == c.page;
      assert Describes(data, ms[i]) && ms[i] in ms;
    }
  }

  lemma PagesListed(data: seq<byte>, pages: seq<int>, page: int)
    requires pages == RecordPages(data)
    ensures page in pages <==> exists p :: RecordAt(data, p) && p / 4 == page
  {
    RecordPageMeaning(data, page);
    forall p ensures StartsRecord(data, p) <==> RecordAt(data, p) {
      RecordStart(data, p);
    }
  }

  lemma RecordStart(data: seq<byte>, p: int)
    ensures StartsRecord(data, p) <==> RecordAt(data, p)
  {
    if WindowLive(data, p) {
      forall q | p - 4 <= q < p && 0x248 <= q ensures WindowLive(data, q) <==> data[q] != 0 {
      }
    }
  }

  /** One marker alone, at page `p`. */
  predicate LoneMarkerAt(data: seq<byte>, p: int) {
    MarkerAt(data, p) && forall q :: 0 <= q < 256 && q != p ==> !MarkerAt(data, q)
  }

  lemma LoneMarker(data: seq<byte>, p: nat)
    ensures OnlyMarker(data, p) <==> LoneMarkerAt(data, p)
  {
    forall q: nat ensures IsMarker(data, q) <==> MarkerAt(data, q) {
      MarkerMeaning(data, q);
    }
  }

  /** What a lone marker allocates, and the two complaints about a v3 dump with their causes. */
  lemma LoneMarkerMeaning(data: seq<byte>, p: nat, g: byte)
    requires |data| == 2048
    ensures FactsOf(data).allocation == Located(p, p + 1, g) <==> LoneMarkerAt(data, p) && g == data[0x402 + 4 * p]
    ensures BadHeader in IssuesOf(data) <==> !(data[0] == 0x04 && data[7] == 0x00 && data[8] == 0x44)
    ensures RecordOverrun(p + 1) in IssuesOf(data) <==> LoneMarkerAt(data, p) && p + 1 > 256 - 24
  {
    FactsAre(data, FactsOf(data));
    LoneAllocation(data, p, Allocate(data), g);
    IssuesAre(data, Allocate(data), IssuesOf(data), p);
  }

  lemma LoneAllocation(data: seq<byte>, p: nat, a: Allocation, g: byte)
    requires a == Allocate(data)
    ensures a.Located? && a.capabilityPage == p <==> LoneMarkerAt(data, p)
    ensures a.Located? ==> a.dataPage == a.capabilityPage + 1
    ensures a == Located(p, p + 1, g) <==> LoneMarkerAt(data, p) && g == data[0x402 + 4 * p]
  {
    AllocationMeaning(data);
    LoneMarker(data, p);
  }

  lemma IssuesAre(data: seq<byte>, a: Allocation, issues: seq<Issue>, p: nat)
    requires |data| == 2048 && a == Allocate(data) && issues == IssuesOf(data)
    requires a.Located? ==> a.dataPage == a.capabilityPage + 1
    ensures BadHeader in issues <==> !(data[0] == 0x04 && data[7] == 0x00 && data[8] == 0x44)
    ensures RecordOverrun(p + 1) in issues <==> a.Located? && a.capabilityPage == p && p + 1 > 256 - 24
  {
  }

  /** A plain or extended NTAG215: its UID skips the first check byte. */
  lemma Ntag215Positions(data: seq<byte>)
    requires |data| == 540 || |data| == 572
    ensures var f := FieldsOf(data);
      && f.format == (if |data| == 540 then Ntag215 else Ntag215Extended) && !f.skipped
      && f.uid == data[0..3] + data[4..8] && f.amiiboId == data[0x54..0x5C]
  {
  }

  /** What the body flag, the extended state and the reuse note say about the bytes. */
  lemma StateMeaning(data: seq<byte>)
    requires |data| == 2048
    ensures var v := FactsOf(data);
      && (v.bodyWritten <==> AnyWritten(data, 0x14, 0x248))
      && (v.extended == Written <==> AnyMarker(data) || AnyWritten(data, 0x248, 0x388))
      && (v.extended == BodyWritten
          <==> !AnyMarker(data) && !AnyWritten(data, 0x248, 0x388) && AnyWritten(data, 0x14, 0x248))
      && (v.extended == NothingWritten <==> !AnyMarker(data) && !AnyWritten(data, 0x14, 0x388))
      && (v.reuseNote <==> !AnyMarker(data) && AnyWritten(data, 0x248, 0x388))
  {
    MarkerCount(data);
    NoMarkerMeaning(data);
    RecordsMeaning(data);
    WindowMeaning(data);
    AllocationMeaning(data);
    SplitWritten(data);
  }

  lemma SplitWritten(data: seq<byte>)
    ensures AnyWritten(data, 0x14, 0x388) <==> AnyWritten(data, 0x14, 0x248) || AnyWritten(data, 0x248, 0x388)
  {
    if AnyWritten(data, 0x14, 0x388) {
      var i :| 0x14 <= i < 0x388 && i < |data| && data[i] != 0;
      assert i < 0x248 || 0x248 <= i;
    }
  }

  // ---- The check bytes, bit by bit -------------------------------------------------------

  function BitOf(b: byte, i: nat): bool
    requires i < 8
  {
    ByteBits(b)[i]
  }

  /** A check byte makes every column of its group add up to the column of the seed. */
  lemma CheckColumns(seed: byte, a: byte, b: byte, c: byte, check: byte)
    ensures Checks(seed, a, b, c, check)
      <==> forall i :: 0 <= i < 8 ==>
             BitOf(check, i) == (((BitOf(seed, i) != BitOf(a, i)) != BitOf(b, i)) != BitOf(c, i))
  {
    var x, y := XorByte(seed, a), XorByte(XorByte(seed, a), b);
    forall i | 0 <= i < 8
      ensures BitOf(XorByte(y, c), i) == (((BitOf(seed, i) != BitOf(a, i)) != BitOf(b, i)) != BitOf(c, i))
    {
      ColumnOf(seed, a, i);
      ColumnOf(x, b, i);
      ColumnOf(y, c, i);
    }
    SameColumns(check, XorByte(y, c));
  }

  lemma ColumnOf(a: byte, b: byte, i: nat)
    requires i < 8
    ensures BitOf(XorByte(a, b), i) == (BitOf(a, i) != BitOf(b, i))
  {
    XorIsBitwise(a, b, 8);
  }

  lemma SameColumns(a: byte, b: byte)
    ensures a == b <==> forall i :: 0 <= i < 8 ==> BitOf(a, i) == BitOf(b, i)
  {
    if forall i :: 0 <= i < 8 ==> BitOf(a, i) == BitOf(b, i) {
      forall i | 0 <= i < 8 ensures ByteBits(a)[i] == ByteBits(b)[i] {
        assert BitOf(a, i) == BitOf(b, i);
      }
      assert ByteBits(a) == ByteBits(b);
      ByteBitsInjective(a, b);
    }
  }

  /** The cascade byte 0x88 has ones in places 3 and 7. */
  lemma CascadeBits(i: nat)
    requires i < 8
    ensures BitOf(0x88, i) == (i == 3 || i == 7)
  {
    EightyEight(0x88, ByteBits(0x88));
  }

  lemma EightyEight(n: nat, bits: seq<bool>)
    requires n == 0x88 && bits == FromNat(n, 8)
    ensures bits == [false, false, false, true, false, false, false, true]
  {
    var n1, n2, n3, n4 := n / 2, n / 4, n / 8, n / 16;
    var n5, n6, n7 := n / 32, n / 64, n / 128;
    assert bits == [false] + FromNat(n1, 7);
    assert FromNat(n1, 7) == [false] + FromNat(n2, 6);
    assert FromNat(n2, 6) == [false] + FromNat(n3, 5);
    assert FromNat(n3, 5) == [true] + FromNat(n4, 4);
    assert FromNat(n4, 4) == [false] + FromNat(n5, 3);
    assert FromNat(n5, 3) == [false] + FromNat(n6, 2);
    assert FromNat(n6, 2) == [false] + FromNat(n7, 1);
    assert FromNat(n7, 1) == [true] + FromNat(0, 0);
  }

  /** An NTAG215 is unflagged exactly when, in every bit column, bytes 0 to 3 have odd parity in places 3
      and 7 only, and bytes 4 to 8 have even parity. */
  lemma InterleaveMeaning(data: seq<byte>)
    requires |data| == 540 || |data| == 572
    ensures IssuesOf(data) == []
      <==> forall i :: 0 <= i < 8 ==>
             && (((BitOf(data[0], i) != BitOf(data[1], i)) != BitOf(data[2], i)) != BitOf(data[3], i))
                == (i == 3 || i == 7)
             && (((BitOf(data[4], i) != BitOf(data[5], i)) != BitOf(data[6], i)) != BitOf(data[7], i))
                == BitOf(data[8], i)
  {
    InterleaveGroups(data);
    CheckColumns(0x88, data[0], data[1], data[2], data[3]);
    CheckColumns(data[4], data[5], data[6], data[7], data[8]);
    forall i | 0 <= i < 8 ensures BitOf(0x88, i) == (i == 3 || i == 7) {
      CascadeBits(i);
    }
  }
}
