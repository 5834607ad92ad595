// Structural classification of one amiibo dump.

module AmiiboImage {
  import opened Bits
  import opened Options
  import Crc16
  import Runs = NonzeroRuns

  const V3_SIZE := 2048
  const SRAM_OFFSET := 0x3C0
  const SRAM_SIZE := 64
  const SRAM_DATA_SIZE := 62
  const SECTOR1_OFFSET := 0x400
  const WRITE_END := 0x248
  const RECORD_FIRST_PAGE := 0x92
  const RECORD_LAST_PAGE := 0xE1
  const SECTOR1_RECORD_SIZE := 0x60
  const IDENTITY_OFFSET := 0x54
  const IDENTITY_SIZE := 8

  const WINDOW_START := RECORD_FIRST_PAGE * 4
  const WINDOW_END := (RECORD_LAST_PAGE + 1) * 4

  datatype Format = Ntag215 | Ntag215Extended | V3 | Unsupported
  datatype Issue = BadInterleave | BadHeader | RecordOverrun(dataPage: nat)
  datatype Capability = Capability(page: nat, generation: byte)
  datatype Allocation =
    | Ambiguous
    | Indeterminate
    | Located(capabilityPage: nat, dataPage: nat, generation: byte)
    | Unwritten
  datatype Extended = Written | BodyWritten | NothingWritten

  datatype V3Facts = V3Facts(
    storedCrc: nat, expectedCrc: nat, crcValid: bool,
    capability: seq<Capability>, recordPages: seq<int>, bodyWritten: bool,
    allocation: Allocation, reuseNote: bool, extended: Extended)

  datatype Fields = Fields(
    format: Format, uid: seq<byte>, amiiboId: seq<byte>, skipped: bool, v3: Option<V3Facts>,
    bodyGroup: Option<nat>, sramGroup: Option<nat>, identityGroup: Option<nat>)

  // ---- Capability markers ---------------------------------------------------------

  function MarkerOffset(page: nat): nat {
    SECTOR1_OFFSET + page * 4
  }

  /** The page holds a chip-managed `A5 00 gg 00` marker with a nonzero generation. */
  predicate IsMarker(data: seq<byte>, page: nat) {
    var o := MarkerOffset(page);
    page < 256 && o + 4 <= |data|
    && data[o] == 0xA5 && data[o + 1] == 0 && data[o + 2] != 0 && data[o + 3] == 0
  }

  function Markers(data: seq<byte>, n: nat): seq<Capability>
    requires n <= 256
  {
    if n == 0 then []
    else Markers(data, n - 1)
         + if IsMarker(data, n - 1) then [Capability(n - 1, data[MarkerOffset(n - 1) + 2])] else []
  }

  method CapabilityPages(data: seq<byte>) returns (found: seq<Capability>)
    ensures found == Markers(data, 256)
  {
    found := [];
    for page := 0 to 256
      invariant found == Markers(data, page)
    {
      var offset := SECTOR1_OFFSET + page * 4;
      if offset + 4 <= |data| {
        var marker := data[offset..offset + 4];
        if marker[0] == 0xA5 && marker[1] == 0 && marker[2] != 0 && marker[3] == 0 {
          found := found + [Capability(page, marker[2])];
        }
      }
    }
  }

  predicate Describes(data: seq<byte>, c: Capability) {
    IsMarker(data, c.page) && c.generation == data[MarkerOffset(c.page) + 2]
  }

  ghost predicate Lists(ms: seq<Capability>, page: nat) {
    exists i :: 0 <= i < |ms| && ms[i].page == page
  }

  /** The list holds exactly the marked pages, each once, in page order. */
  lemma {:induction false} MarkersExact(data: seq<byte>, n: nat)
    requires n <= 256
    ensures forall i :: 0 <= i < |Markers(data, n)| ==>
      Markers(data, n)[i].page < n && Describes(data, Markers(data, n)[i])
    ensures forall i, j :: 0 <= i < j < |Markers(data, n)| ==> Markers(data, n)[i].page < Markers(data, n)[j].page
    ensures forall p: nat :: p < n && IsMarker(data, p) ==> Lists(Markers(data, n), p)
  {
    if n != 0 {
      MarkersExact(data, n - 1);
      var before, ms := Markers(data, n - 1), Markers(data, n);
      forall p: nat | p < n && IsMarker(data, p) ensures Lists(ms, p) {
        if p == n - 1 {
          assert ms[|ms| - 1].page == p;
        } else {
          assert Lists(before, p);
          var i :| 0 <= i < |before| && before[i].page == p;
          assert ms[i].page == p;
        }
      }
    }
  }

  predicate OnlyMarker(data: seq<byte>, page: nat) {
    IsMarker(data, page) && forall q: nat :: q < 256 && IsMarker(data, q) ==> q == page
  }

  ghost predicate TwoMarkers(data: seq<byte>) {
    exists p: nat, q: nat :: p < q < 256 && IsMarker(data, p) && IsMarker(data, q)
  }

  ghost predicate NoMarker(data: seq<byte>) {
    forall p: nat :: p < 256 ==> !IsMarker(data, p)
  }

  /** `ms` lists the marked pages, each once, in page order. */
  ghost predicate ListsAll(data: seq<byte>, ms: seq<Capability>) {
    && (forall i :: 0 <= i < |ms| ==> ms[i].page < 256 && IsMarker(data, ms[i].page))
    && (forall i, j :: 0 <= i < j < |ms| ==> ms[i].page < ms[j].page)
    && forall p: nat :: p < 256 && IsMarker(data, p) ==> Lists(ms, p)
  }

  lemma MarkersListAll(data: seq<byte>)
    ensures ListsAll(data, Markers(data, 256))
  {
    MarkersExact(data, 256);
    var ms := Markers(data, 256);
    forall i | 0 <= i < |ms| ensures ms[i].page < 256 && IsMarker(data, ms[i].page) {
      assert Describes(data, ms[i]);
    }
  }

  lemma NoneListed(data: seq<byte>, ms: seq<Capability>)
    requires ListsAll(data, ms)
    ensures |ms| == 0 <==> NoMarker(data)
  {
    assert |ms| > 0 ==> IsMarker(data, ms[0].page);
  }

  lemma SeveralListed(data: seq<byte>, ms: seq<Capability>)
    requires ListsAll(data, ms)
    ensures |ms| > 1 <==> TwoMarkers(data)
  {
    assert |ms| > 1 ==> ms[0].page < ms[1].page;
    if TwoMarkers(data) {
      var p: nat, q: nat :| p < q < 256 && IsMarker(data, p) && IsMarker(data, q);
      assert Lists(ms, p) && Lists(ms, q);
    }
  }

  lemma OneListed(data: seq<byte>, ms: seq<Capability>, p: nat)
    requires ListsAll(data, ms)
    ensures OnlyMarker(data, p) <==> |ms| == 1 && ms[0].page == p
  {
    if OnlyMarker(data, p) {
      assert Lists(ms, p);
      var first, last := ms[0].page, ms[|ms| - 1].page;
      assert first == p == last;
    }
    if |ms| == 1 && ms[0].page == p {
      forall q: nat | q < 256 && IsMarker(data, q) ensures q == p {
        assert Lists(ms, q);
      }
    }
  }

  /** No entry, one entry or several: no marked page, a lone one, or at least two. */
  lemma MarkerCount(data: seq<byte>)
    ensures |Markers(data, 256)| == 0 <==> NoMarker(data)
    ensures |Markers(data, 256)| > 1 <==> TwoMarkers(data)
    ensures forall p: nat :: OnlyMarker(data, p) <==> |Markers(data, 256)| == 1 && Markers(data, 256)[0].page == p
  {
    var ms := Markers(data, 256);
    MarkersListAll(data);
    NoneListed(data, ms);
    SeveralListed(data, ms);
    forall p: nat ensures OnlyMarker(data, p) <==> |ms| == 1 && ms[0].page == p {
      OneListed(data, ms, p);
    }
  }

  // ---- Sector-0 records --------------------------------------------------------------

  function WindowRuns(data: seq<byte>): seq<Runs.Run> {
    Runs.RunsOf(Slice(data, WINDOW_START, WINDOW_END), WINDOW_START, 3)
  }

  function RecordPages(data: seq<byte>): seq<int> {
    var runs := WindowRuns(data);
    seq(|runs|, i requires 0 <= i < |runs| => runs[i].start / 4)
  }

  method ComputeRecordPages(data: seq<byte>) returns (pages: seq<int>)
    ensures pages == RecordPages(data)
  {
    var runs := Runs.Compute(Slice(data, WINDOW_START, WINDOW_END), WINDOW_START, 3);
    pages := seq(|runs|, i requires 0 <= i < |runs| => runs[i].start / 4);
  }

  /** A nonzero byte of the proven-writable window. */
  predicate WindowLive(data: seq<byte>, p: int) {
    WINDOW_START <= p < WINDOW_END && p < |data| && data[p] != 0
  }

  lemma WindowIsLive(data: seq<byte>, p: int)
    ensures Runs.Live(Slice(data, WINDOW_START, WINDOW_END), WINDOW_START, p) <==> WindowLive(data, p)
  {
  }

  /** Reported pages strictly increase and stay inside the window. */
  lemma RecordPagesOrdered(data: seq<byte>)
    ensures var pages := RecordPages(data);
      && (forall i :: 0 <= i < |pages| ==> 0x92 <= pages[i] <= 0xE1)
      && (forall i, j :: 0 <= i < j < |pages| ==> pages[i] < pages[j])
  {
    var slice, runs := Slice(data, WINDOW_START, WINDOW_END), WindowRuns(data);
    Runs.RunsAreCanonical(slice, WINDOW_START, 3);
    forall i, j | 0 <= i < j < |runs| ensures runs[i].start / 4 < runs[j].start / 4 {
      assert runs[j].start > runs[i].end + 3 + 1;
    }
    forall i | 0 <= i < |runs| ensures RECORD_FIRST_PAGE <= runs[i].start / 4 <= RECORD_LAST_PAGE {
      assert Runs.Tight(slice, WINDOW_START, runs[i]);
      WindowIsLive(data, runs[i].start);
    }
  }

  /** Every nonzero byte of the window belongs to exactly one record. */
  lemma OneRecordPerByte(data: seq<byte>, p: int) returns (i: nat)
    requires WindowLive(data, p)
    ensures i < |WindowRuns(data)| && WindowRuns(data)[i].Has(p)
    ensures forall j :: 0 <= j < |WindowRuns(data)| && WindowRuns(data)[j].Has(p) ==> j == i
  {
    var slice, runs := Slice(data, WINDOW_START, WINDOW_END), WindowRuns(data);
    Runs.RunsAreCanonical(slice, WINDOW_START, 3);
    WindowIsLive(data, p);
    i := Runs.CoveredBy(runs, p);
    forall j | 0 <= j < |runs| && runs[j].Has(p) ensures j == i {
      if j != i {
        assert false;
      }
    }
  }

  /** Any four consecutive bytes inside a record include a nonzero one, so no all-zero page is spanned. */
  lemma NoZeroPageInside(data: seq<byte>, i: nat, page: int)
    requires i < |WindowRuns(data)|
    requires WindowRuns(data)[i].start <= 4 * page && 4 * page + 3 <= WindowRuns(data)[i].end
    ensures exists p :: 4 * page <= p < 4 * page + 4 && WindowLive(data, p)
  {
    var slice, r := Slice(data, WINDOW_START, WINDOW_END), WindowRuns(data)[i];
    Runs.RunsAreCanonical(slice, WINDOW_START, 3);
    assert Runs.Dense(slice, WINDOW_START, 3, r);
    assert Runs.LiveWindow(slice, WINDOW_START, 4 * page, 3);
    var p :| 4 * page <= p <= 4 * page + 3 && Runs.Live(slice, WINDOW_START, p);
    WindowIsLive(data, p);
  }

  /** A page is reported exactly when a nonzero byte in it follows four bytes without one. */
  lemma RecordPageMeaning(data: seq<byte>, page: int)
    ensures page in RecordPages(data)
      <==> exists p :: StartsRecord(data, p) && p / 4 == page
  {
    var slice, runs := Slice(data, WINDOW_START, WINDOW_END), WindowRuns(data);
    var pages := RecordPages(data);
    if page in pages {
      var i :| 0 <= i < |pages| && pages[i] == page;
      Runs.RunStarts(slice, WINDOW_START, 3, runs[i].start);
      assert runs[i] in runs;
      StartMeaning(data, runs[i].start);
    }
    if p :| StartsRecord(data, p) && p / 4 == page {
      Runs.RunStarts(slice, WINDOW_START, 3, p);
      StartMeaning(data, p);
      var r :| r in runs && r.start == p;
      var i :| 0 <= i < |runs| && runs[i] == r;
      assert pages[i] == page;
    }
  }

  predicate StartsRecord(data: seq<byte>, p: int) {
    WindowLive(data, p) && forall q :: p - 4 <= q < p ==> !WindowLive(data, q)
  }

  lemma StartMeaning(data: seq<byte>, p: int)
    ensures var slice := Slice(data, WINDOW_START, WINDOW_END);
      StartsRecord(data, p)
      <==> Runs.Live(slice, WINDOW_START, p) && !Runs.LiveWindow(slice, WINDOW_START, p - 4, 3)
  {
    var slice := Slice(data, WINDOW_START, WINDOW_END);
    WindowIsLive(data, p);
    forall q ensures Runs.Live(slice, WINDOW_START, q) <==> WindowLive(data, q) {
      WindowIsLive(data, q);
    }
  }

  // ---- Classification ---------------------------------------------------------------

  predicate HeaderOk(data: seq<byte>)
    requires |data| == V3_SIZE
  {
    data[0] == 0x04 && data[7] == 0x00 && data[8] == 0x44
  }

  predicate InterleaveOk(data: seq<byte>)
    requires |data| >= 9
  {
    && data[3] == XorByte(XorByte(XorByte(0x88, data[0]), data[1]), data[2])
    && data[8] == XorByte(XorByte(XorByte(data[4], data[5]), data[6]), data[7])
  }

  function Sram(data: seq<byte>): seq<byte>
    requires |data| == V3_SIZE
  {
    data[SRAM_OFFSET..SRAM_OFFSET + SRAM_SIZE]
  }

  predicate BodyWrittenTo(data: seq<byte>)
    requires |data| == V3_SIZE
  {
    exists i :: 0x14 <= i < WRITE_END && data[i] != 0
  }

  function AllocationOf(capability: seq<Capability>, records: seq<int>): Allocation {
    if |capability| > 1 then Ambiguous
    else if capability == [] && records != [] then Indeterminate
    else if capability != [] then
      Located(capability[0].page, capability[0].page + 1, capability[0].generation)
    else Unwritten
  }

  predicate Overruns(a: Allocation) {
    a.Located? && a.dataPage + SECTOR1_RECORD_SIZE / 4 - 1 > 0xFF
  }

  function Allocate(data: seq<byte>): Allocation {
    AllocationOf(Markers(data, 256), RecordPages(data))
  }

  function ExtendedOf(capability: seq<Capability>, records: seq<int>, bodyWritten: bool): Extended {
    if capability != [] || records != [] then Written
    else if bodyWritten then BodyWritten else NothingWritten
  }

  function FactsOf(data: seq<byte>): V3Facts
    requires |data| == V3_SIZE
  {
    var sram := Sram(data);
    var high: int := sram[SRAM_DATA_SIZE];
    var stored, expected := high * 0x100 + sram[SRAM_DATA_SIZE + 1], Crc16.Crc(sram[..SRAM_DATA_SIZE]);
    V3Facts(stored, expected, stored == expected, Markers(data, 256), RecordPages(data), BodyWrittenTo(data),
            Allocate(data), Allocate(data).Indeterminate?,
            ExtendedOf(Markers(data, 256), RecordPages(data), BodyWrittenTo(data)))
  }

  function FieldsOf(data: seq<byte>): Fields {
    if |data| == 540 || |data| == 572 then
      Fields(if |data| == 540 then Ntag215 else Ntag215Extended,
             [data[0], data[1], data[2], data[4], data[5], data[6], data[7]],
             data[IDENTITY_OFFSET..IDENTITY_OFFSET + IDENTITY_SIZE], false, None, None, None, None)
    else if |data| == V3_SIZE then
      Fields(V3, data[..7], data[IDENTITY_OFFSET..IDENTITY_OFFSET + IDENTITY_SIZE], false,
             Some(FactsOf(data)), None, None, None)
    else Fields(Unsupported, [], [], true, None, None, None, None)
  }

  function IssuesOf(data: seq<byte>): seq<Issue> {
    if |data| == 540 || |data| == 572 then
      if InterleaveOk(data) then [] else [BadInterleave]
    else if |data| == V3_SIZE then
      var a := Allocate(data);
      (if HeaderOk(data) then [] else [BadHeader]) + if Overruns(a) then [RecordOverrun(a.dataPage)] else []
    else []
  }

  /** Where the console's record sits; a lone marker may also raise an issue. */
  method Locate(capability: seq<Capability>, records: seq<int>)
    returns (allocation: Allocation, note: bool, issues: seq<Issue>)
    ensures allocation == AllocationOf(capability, records)
    ensures note == allocation.Indeterminate?
    ensures issues == if Overruns(allocation) then [RecordOverrun(allocation.dataPage)] else []
  {
    note, issues := false, [];
    if |capability| > 1 {
      allocation := Ambiguous;
    } else if capability == [] && records != [] {
      allocation, note := Indeterminate, true;
    } else if capability != [] {
      var page := capability[0].page;
      allocation := Located(page, page + 1, capability[0].generation);
      if page + 1 + SECTOR1_RECORD_SIZE / 4 - 1 > 0xFF {
        issues := [RecordOverrun(page + 1)];
      }
    } else {
      allocation := Unwritten;
    }
  }

  lemma V3Issues(data: seq<byte>, header: seq<Issue>)
    requires |data| == V3_SIZE && header == if HeaderOk(data) then [] else [BadHeader]
    ensures IssuesOf(data)
      == header + if Overruns(Allocate(data)) then [RecordOverrun(Allocate(data).dataPage)] else []
  {
  }

  class Image {
    const data: seq<byte>
    var issues: seq<Issue>
    var fields: Fields

    constructor (data: seq<byte>)
      ensures this.data == data && issues == [] && fields == Fields(Unsupported, [], [], false, None, None, None, None)
    {
      this.data := data;
      issues := [];
      fields := Fields(Unsupported, [], [], false, None, None, None, None);
    }

    method ClassifyNtag215()
      requires |data| == 540 || |data| == 572
      requires issues == []
      modifies this
      ensures issues == IssuesOf(data) && fields == FieldsOf(data)
    {
      var bcc0 := XorByte(XorByte(XorByte(0x88, data[0]), data[1]), data[2]);
      var bcc1 := XorByte(XorByte(XorByte(data[4], data[5]), data[6]), data[7]);
      if data[3] != bcc0 || data[8] != bcc1 {
        issues := issues + [BadInterleave];
      }
      var uid := [data[0], data[1], data[2], data[4], data[5], data[6], data[7]];
      fields := Fields(if |data| == 540 then Ntag215 else Ntag215Extended, uid,
                       data[IDENTITY_OFFSET..IDENTITY_OFFSET + IDENTITY_SIZE], false, None, None, None, None);
    }

    method ClassifyV3()
      requires |data| == V3_SIZE
      requires issues == []
      modifies this
      ensures issues == IssuesOf(data) && fields == FieldsOf(data)
    {
      if data[0] != 0x04 || data[7] != 0x00 || data[8] != 0x44 {
        issues := issues + [BadHeader];
      }
      V3Issues(data, issues);
      var capability := CapabilityPages(data);
      var records := ComputeRecordPages(data);
      var allocation, note, overrun := Locate(capability, records);
      issues := issues + overrun;
      fields := ReadFields(data, capability, records, allocation, note);
    }
  }

  method ReadFields(data: seq<byte>, capability: seq<Capability>, records: seq<int>, allocation: Allocation, note: bool)
    returns (fields: Fields)
    requires |data| == V3_SIZE && capability == Markers(data, 256) && records == RecordPages(data)
    requires allocation == Allocate(data) && note == allocation.Indeterminate?
    ensures fields == FieldsOf(data)
  {
    var facts := ReadFacts(data, capability, records, allocation, note);
    fields := Fields(V3, data[..7], data[IDENTITY_OFFSET..IDENTITY_OFFSET + IDENTITY_SIZE], false,
                     Some(facts), None, None, None);
  }

  method ReadFacts(data: seq<byte>, capability: seq<Capability>, records: seq<int>, allocation: Allocation, note: bool)
    returns (facts: V3Facts)
    requires |data| == V3_SIZE && capability == Markers(data, 256) && records == RecordPages(data)
    requires allocation == Allocate(data) && note == allocation.Indeterminate?
    ensures facts == FactsOf(data)
  {
    var sram := data[SRAM_OFFSET..SRAM_OFFSET + SRAM_SIZE];
    var high: int := sram[SRAM_DATA_SIZE];
    var storedCrc := high * 0x100 + sram[SRAM_DATA_SIZE + 1];
    var expectedCrc := Crc16.Compute(sram[..SRAM_DATA_SIZE]);
    var bodyWritten := BodyWrittenTo(data);
    var extended := if capability != [] || records != [] then Written
                    else if bodyWritten then BodyWritten else NothingWritten;
    facts := V3Facts(storedCrc, expectedCrc, storedCrc == expectedCrc, capability, records, bodyWritten,
                     allocation, note, extended);
  }

  /** Dispatch on the file size; anything that is no amiibo dump is skipped, not failed. */
  method LoadImage(data: seq<byte>) returns (image: Image)
    ensures fresh(image) && image.data == data
    ensures image.issues == IssuesOf(data) && image.fields == FieldsOf(data)
  {
    image := new Image(data);
    if |data| == 540 || |data| == 572 {
      image.ClassifyNtag215();
    } else if |data| == V3_SIZE {
      image.ClassifyV3();
    } else {
      image.fields := image.fields.(format := Unsupported, skipped := true);
    }
  }

  // ---- What the check bytes of an NTAG215 buy ------------------------------------------

  lemma XorDecides(a: byte, b: byte, c: byte)
    ensures XorByte(a, c) == XorByte(b, c) <==> a == b
    ensures XorByte(c, a) == XorByte(c, b) <==> a == b
  {
    if XorByte(a, c) == XorByte(b, c) {
      XorIsBitwise(a, c, 8);
      XorIsBitwise(b, c, 8);
      XorBitsCancel(ByteBits(a), ByteBits(b), ByteBits(c));
      ByteBitsInjective(a, b);
    }
    if XorByte(c, a) == XorByte(c, b) {
      XorIsBitwise(c, a, 8);
      XorIsBitwise(c, b, 8);
      XorBitsCancel(ByteBits(a), ByteBits(b), ByteBits(c));
      ByteBitsInjective(a, b);
    }
  }

  lemma ByteBitsInjective(a: byte, b: byte)
    requires ByteBits(a) == ByteBits(b)
    ensures a == b
  {
    ByteRoundTrip(a);
    ByteRoundTrip(b);
  }

  lemma XorBitsCancel(a: seq<bool>, b: seq<bool>, c: seq<bool>)
    requires |a| == |b| == |c| && (XorBits(a, c) == XorBits(b, c) || XorBits(c, a) == XorBits(c, b))
    ensures a == b
  {
    forall i | 0 <= i < |a| ensures a[i] == b[i] {
      var x, y, z, w := XorBits(a, c)[i], XorBits(b, c)[i], XorBits(c, a)[i], XorBits(c, b)[i];
      assert x == y || z == w;
    }
  }

  /** A check byte over a seed and three bytes. */
  predicate Checks(seed: byte, a: byte, b: byte, c: byte, check: byte) {
    check == XorByte(XorByte(XorByte(seed, a), b), c)
  }

  /** Of two groups that differ in at most one byte, both check only if they are the same. */
  lemma ChecksDecide(s: byte, a: byte, b: byte, c: byte, x: byte, s': byte, a': byte, b': byte, c': byte, x': byte)
    requires Checks(s, a, b, c, x)
    requires
      || (a == a' && b == b' && c == c' && x == x') || (s == s' && b == b' && c == c' && x == x')
      || (s == s' && a == a' && c == c' && x == x') || (s == s' && a == a' && b == b' && x == x')
      || (s == s' && a == a' && b == b' && c == c')
    ensures Checks(s', a', b', c', x') <==> s == s' && a == a' && b == b' && c == c' && x == x'
  {
    XorDecides(s, s', a);
    XorDecides(a, a', s);
    XorDecides(XorByte(s, a), XorByte(s', a'), b);
    XorDecides(b, b', XorByte(s, a));
    XorDecides(XorByte(XorByte(s, a), b), XorByte(XorByte(s', a'), b'), c);
    XorDecides(c, c', XorByte(XorByte(s, a), b));
  }

  lemma InterleaveGroups(data: seq<byte>)
    requires |data| >= 9
    ensures InterleaveOk(data)
      <==> Checks(0x88, data[0], data[1], data[2], data[3]) && Checks(data[4], data[5], data[6], data[7], data[8])
  {
  }

  /** Damage to one of the nine interleaved bytes is always reported. */
  lemma OneByteDamageFlagged(good: seq<byte>, bad: seq<byte>, k: nat)
    requires |good| == |bad| && |good| in {540, 572} && IssuesOf(good) == []
    requires k < 9 && forall i :: 0 <= i < 9 && i != k ==> bad[i] == good[i]
    ensures IssuesOf(bad) == [] <==> bad[k] == good[k]
  {
    InterleaveGroups(good);
    InterleaveGroups(bad);
    ChecksDecide(0x88, good[0], good[1], good[2], good[3], 0x88, bad[0], bad[1], bad[2], bad[3]);
    ChecksDecide(good[4], good[5], good[6], good[7], good[8], bad[4], bad[5], bad[6], bad[7], bad[8]);
  }

  predicate SameUidBytes(a: seq<byte>, b: seq<byte>)
    requires |a| >= 9 && |b| >= 9
  {
    && a[0] == b[0] && a[1] == b[1] && a[2] == b[2]
    && a[4] == b[4] && a[5] == b[5] && a[6] == b[6] && a[7] == b[7]
  }

  lemma UidBytes(a: seq<byte>, b: seq<byte>)
    requires |a| in {540, 572} && |b| in {540, 572}
    ensures FieldsOf(a).uid == FieldsOf(b).uid <==> SameUidBytes(a, b)
  {
    var x, y := FieldsOf(a).uid, FieldsOf(b).uid;
    assert x == y ==> x[0] == y[0] && x[1] == y[1] && x[2] == y[2];
    assert x == y ==> x[3] == y[3] && x[4] == y[4] && x[5] == y[5] && x[6] == y[6];
  }

  /** The check bytes follow from the bytes they check. */
  lemma SameCheck(s: byte, a: byte, b: byte, c: byte, x: byte, x': byte)
    requires Checks(s, a, b, c, x) && Checks(s, a, b, c, x')
    ensures x == x'
  {
  }

  lemma SameInterleave(a: seq<byte>, b: seq<byte>)
    requires |a| >= 9 && |b| >= 9 && InterleaveOk(a) && InterleaveOk(b)
    ensures SameUidBytes(a, b) <==> a[..9] == b[..9]
  {
    InterleaveGroups(a);
    InterleaveGroups(b);
    if SameUidBytes(a, b) {
      SameCheck(0x88, a[0], a[1], a[2], a[3], b[3]);
      SameCheck(a[4], a[5], a[6], a[7], a[8], b[8]);
    }
    NineBytes(a, b);
  }

  lemma NineBytes(a: seq<byte>, b: seq<byte>)
    requires |a| >= 9 && |b| >= 9
    ensures a[..9] == b[..9] <==> SameUidBytes(a, b) && a[3] == b[3] && a[8] == b[8]
  {
    var x, y := a[..9], b[..9];
    assert x == y ==> x[0] == y[0] && x[1] == y[1] && x[2] == y[2] && x[3] == y[3] && x[4] == y[4];
    assert x == y ==> x[5] == y[5] && x[6] == y[6] && x[7] == y[7] && x[8] == y[8];
  }

  /** The seven UID bytes fix all nine: two unflagged dumps share a UID exactly when they start alike. */
  lemma UidFixesInterleave(a: seq<byte>, b: seq<byte>)
    requires |a| in {540, 572} && |b| in {540, 572} && IssuesOf(a) == [] && IssuesOf(b) == []
    ensures FieldsOf(a).uid == FieldsOf(b).uid <==> a[..9] == b[..9]
  {
    UidBytes(a, b);
    SameInterleave(a, b);
  }

  // ---- What the classification means -------------------------------------------------

  /** The 96-byte record behind a lone marker would run past the end of the dump. */
  predicate RecordPastEnd(data: seq<byte>, page: nat) {
    OnlyMarker(data, page) && MarkerOffset(page + 1) + SECTOR1_RECORD_SIZE > V3_SIZE
  }

  /** A v3 dump is safe exactly with a good header and no lone marker whose record overruns. */
  lemma V3SafeMeaning(data: seq<byte>)
    requires |data| == V3_SIZE
    ensures IssuesOf(data) == [] <==> HeaderOk(data) && forall p: nat :: p < 256 ==> !RecordPastEnd(data, p)
  {
    MarkerCount(data);
    MarkersExact(data, 256);
    var ms := Markers(data, 256);
    if |ms| == 1 {
      assert OnlyMarker(data, ms[0].page) && ms[0].page < 256;
      assert Overruns(Allocate(data)) <==> RecordPastEnd(data, ms[0].page);
    } else {
      assert !Overruns(Allocate(data));
    }
  }

  lemma RecordsMeaning(data: seq<byte>)
    ensures RecordPages(data) != [] <==> exists p :: WindowLive(data, p)
  {
    assert |RecordPages(data)| == |WindowRuns(data)|;
    if RecordPages(data) != [] {
      var slice, runs := Slice(data, WINDOW_START, WINDOW_END), WindowRuns(data);
      Runs.RunsAreCanonical(slice, WINDOW_START, 3);
      assert Runs.Tight(slice, WINDOW_START, runs[0]);
      WindowIsLive(data, runs[0].start);
      assert WindowLive(data, runs[0].start);
    }
    if live :| WindowLive(data, live) {
      var i := OneRecordPerByte(data, live);
      assert RecordPages(data) != [];
    }
  }

  /** The four allocation verdicts, each by the bytes that cause it; exactly one always holds. */
  lemma AllocationMeaning(data: seq<byte>)
    ensures Allocate(data).Ambiguous? <==> TwoMarkers(data)
    ensures forall p: nat :: Allocate(data).Located? && Allocate(data).capabilityPage == p <==> OnlyMarker(data, p)
    ensures Allocate(data).Located? ==> Allocate(data).dataPage == Allocate(data).capabilityPage + 1
    ensures Allocate(data).Located? ==>
      Describes(data, Capability(Allocate(data).capabilityPage, Allocate(data).generation))
    ensures Allocate(data).Indeterminate? <==> NoMarker(data) && exists p :: WindowLive(data, p)
    ensures Allocate(data).Unwritten? <==> NoMarker(data) && forall p :: !WindowLive(data, p)
  {
    MarkersExact(data, 256);
    MarkerCount(data);
    RecordsMeaning(data);
    AllocationCases(Markers(data, 256), RecordPages(data));
  }

  lemma AllocationCases(ms: seq<Capability>, records: seq<int>)
    ensures var a := AllocationOf(ms, records);
      && (a.Ambiguous? <==> |ms| > 1) && (a.Located? <==> |ms| == 1)
      && (a.Located? ==> a == Located(ms[0].page, ms[0].page + 1, ms[0].generation))
      && (a.Indeterminate? <==> |ms| == 0 && records != []) && (a.Unwritten? <==> |ms| == 0 && records == [])
  {
  }

  /** The stored SRAM CRC is valid exactly when it is the remainder of the 62 bytes before it, and exactly
      when, byte-swapped and appended to them, it empties the register. */
  lemma SramCrcMeaning(data: seq<byte>)
    requires |data| == V3_SIZE
    ensures FactsOf(data).crcValid
      <==> Crc16.Remainder(Ones(16), AllBits(data[0x3C0..0x3FE])) == ByteBits(data[0x3FF]) + ByteBits(data[0x3FE])
    ensures FactsOf(data).crcValid <==> Crc16.Crc(data[0x3C0..0x3FE] + [data[0x3FF], data[0x3FE]]) == 0
  {
    var covered := Sram(data)[..SRAM_DATA_SIZE];
    assert covered == data[0x3C0..0x3FE];
    assert Sram(data)[62] == data[0x3FE] && Sram(data)[63] == data[0x3FF];
    Crc16.ResidueZero(covered, data[0x3FF], data[0x3FE]);
    StoredMatches(data[0x3FE], data[0x3FF], Crc16.Crc(covered));
    Crc16.CrcIsRemainder(covered);
    Crc16.SplitRegister(Crc16.Crc(covered));
    SameBytes(data[0x3FF], data[0x3FE], Crc16.Low(Crc16.Crc(covered)), Crc16.High(Crc16.Crc(covered)));
  }

  lemma SameBytes(a: byte, b: byte, c: byte, d: byte)
    ensures ByteBits(a) + ByteBits(b) == ByteBits(c) + ByteBits(d) <==> a == c && b == d
  {
    if ByteBits(a) + ByteBits(b) == ByteBits(c) + ByteBits(d) {
      Crc16.SameHalves(ByteBits(a), ByteBits(b), ByteBits(c), ByteBits(d));
      ByteBitsInjective(a, c);
      ByteBitsInjective(b, d);
    }
  }

  /** An SRAM window that was never written does not pass. */
  lemma EmptySramInvalid(data: seq<byte>)
    requires |data| == V3_SIZE && forall i :: 0x3C0 <= i < 0x400 ==> data[i] == 0
    ensures !FactsOf(data).crcValid
  {
    var covered := Sram(data)[..SRAM_DATA_SIZE];
    Crc16.ZeroMessage(62);
    assert covered == seq(62, i => 0);
    assert Sram(data)[62] == 0 && Sram(data)[63] == 0;
  }

  lemma StoredMatches(high: byte, low: byte, crc: Crc16.reg)
    ensures high as int * 0x100 + low == crc <==> low == Crc16.Low(crc) && high == Crc16.High(crc)
  {
  }

  /** Damage confined to sixteen consecutive bits of the SRAM data never goes unnoticed. */
  lemma SramBurstDetected(good: seq<byte>, bad: seq<byte>, start: nat)
    requires |good| == |bad| == V3_SIZE && FactsOf(good).crcValid
    requires Sram(good)[SRAM_DATA_SIZE..] == Sram(bad)[SRAM_DATA_SIZE..]
    requires Crc16.AgreeOutside(AllBits(Sram(good)[..SRAM_DATA_SIZE]), AllBits(Sram(bad)[..SRAM_DATA_SIZE]), start)
    ensures FactsOf(bad).crcValid <==> Sram(bad) == Sram(good)
  {
    var g, b := Sram(good), Sram(bad);
    assert g[SRAM_DATA_SIZE..][0] == b[SRAM_DATA_SIZE..][0] && g[SRAM_DATA_SIZE..][1] == b[SRAM_DATA_SIZE..][1];
    Crc16.BurstDetected(g[..SRAM_DATA_SIZE], b[..SRAM_DATA_SIZE], start);
    assert g == g[..SRAM_DATA_SIZE] + g[SRAM_DATA_SIZE..] && b == b[..SRAM_DATA_SIZE] + b[SRAM_DATA_SIZE..];
  }
}
