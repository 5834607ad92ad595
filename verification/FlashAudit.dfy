// The flash-region audit for a capture sink, and the check that the one-shot
// install-reset marker is present exactly once and safely placed.

module FlashAudit {
  import opened Bits
  import opened Options

  const SECTOR_SIZE := 4096
  const PERSISTENT_SECTORS := 6
  const FLASH_PAGE_SIZE := 256
  const PERSISTENT_SIZE := 6 * 4096

  // ---- Auditing the regions ----------------------------------------------------------------

  function AlignUp(value: int, alignment: int): int
    requires alignment > 0
  {
    (value + alignment - 1) / alignment * alignment
  }

  datatype AuditError = NotPositive | CaptureUnaligned | NoGuard

  datatype Audit =
    | Refused(error: AuditError)
    | Report(fits: bool, programEnd: int, guardSize: int, captureStart: int, captureEnd: int, persistentStart: int,
             freeBefore: int)

  function AuditOf(image: int, flash: int, capture: int, guard: int): Audit {
    if image <= 0 || flash <= 0 || capture <= 0 then Refused(NotPositive)
    else if capture % SECTOR_SIZE != 0 then Refused(CaptureUnaligned)
    else if guard < 1 then Refused(NoGuard)
    else
      var persistentStart := flash - PERSISTENT_SECTORS * SECTOR_SIZE;
      var captureStart := persistentStart - capture;
      var programEnd := AlignUp(image, SECTOR_SIZE);
      var required := programEnd + guard * SECTOR_SIZE;
      Report(captureStart >= required, programEnd, guard * SECTOR_SIZE, captureStart, persistentStart, persistentStart,
             if captureStart - programEnd >= 0 then captureStart - programEnd else 0)
  }

  predicate Multiple(value: int, unit: int)
    requires unit > 0
  {
    value % unit == 0
  }

  /** Rounding up yields the least multiple that is not below the value. */
  lemma AlignUpLeast(value: int, alignment: int, m: int)
    requires alignment > 0
    ensures Multiple(AlignUp(value, alignment), alignment)
    ensures value <= AlignUp(value, alignment) < value + alignment
    ensures Multiple(m, alignment) && m >= value ==> m >= AlignUp(value, alignment)
  {
    var q, r := (value + alignment - 1) / alignment, (value + alignment - 1) % alignment;
    assert value + alignment - 1 == q * alignment + r;
    DivModUnique(q * alignment, alignment, q, 0);
    if Multiple(m, alignment) && m >= value {
      LeastMultiple(m / alignment, q, alignment, m);
    }
  }

  lemma LeastMultiple(k: int, q: int, d: int, m: int)
    requires d > 0 && m == k * d && m > (q - 1) * d
    ensures m >= q * d
  {
    MulAtLeast(k - q + 1, d);
    Distribute(k, q - 1, d);
    Distribute(q, 1, d);
  }

  /** The sectors a value occupies. */
  function Sectors(value: int): int {
    AlignUp(value, SECTOR_SIZE) / SECTOR_SIZE
  }

  /** Each refusal by its cause: sizes first, then alignment, then the guard; otherwise a report is made. */
  lemma AuditErrors(image: int, flash: int, capture: int, guard: int)
    ensures var a, sizes := AuditOf(image, flash, capture, guard), image > 0 && flash > 0 && capture > 0;
      && (a == Refused(NotPositive) <==> !sizes)
      && (a == Refused(CaptureUnaligned) <==> sizes && !exists sectors :: capture == sectors * SECTOR_SIZE)
      && (a == Refused(NoGuard) <==> sizes && guard <= 0 && exists sectors :: capture == sectors * SECTOR_SIZE)
      && (a.Report? <==> sizes && guard > 0 && exists sectors :: capture == sectors * SECTOR_SIZE)
  {
    if Multiple(capture, SECTOR_SIZE) {
      assert capture == capture / SECTOR_SIZE * SECTOR_SIZE;
    }
    if sectors :| capture == sectors * SECTOR_SIZE {
      DivModUnique(capture, SECTOR_SIZE, sectors, 0);
    }
  }

  /** It fits exactly when the sectors of program, guard, capture and persistence fit in whole flash sectors. */
  lemma FitsMeansSectorsFit(image: int, flash: int, capture: int, guard: int)
    requires AuditOf(image, flash, capture, guard).Report?
    ensures AuditOf(image, flash, capture, guard).fits
      <==> Sectors(image) + guard + capture / SECTOR_SIZE + PERSISTENT_SECTORS <= flash / SECTOR_SIZE
  {
    AlignUpLeast(image, SECTOR_SIZE, 0);
  }

  /** A region is the bytes from `start` up to, not including, `end`. */
  datatype Region = Region(start: int, end: int) {
    predicate Before(other: Region) {
      start < end <= other.start
    }

    predicate Holds(x: int) {
      start <= x < end
    }
  }

  function Program(image: int): Region {
    Region(0, AlignUp(image, SECTOR_SIZE))
  }

  /** The guard closes right below the capture area. */
  function Guard(a: Audit): Region
    requires a.Report?
  {
    Region(a.captureStart - a.guardSize, a.captureStart)
  }

  function Capture(a: Audit): Region
    requires a.Report?
  {
    Region(a.captureStart, a.captureEnd)
  }

  function Persistent(a: Audit, flash: int): Region
    requires a.Report?
  {
    Region(a.persistentStart, flash)
  }

  ghost predicate Disjoint(a: Region, b: Region) {
    forall x :: !(a.Holds(x) && b.Holds(x))
  }

  /** An audit that fits leaves the four regions non-empty, in order, disjoint and inside the flash. */
  lemma FitsLayout(image: int, flash: int, capture: int, guard: int)
    requires var a := AuditOf(image, flash, capture, guard); a.Report? && a.fits
    ensures var a := AuditOf(image, flash, capture, guard);
      var (p, g, c, s) := (Program(image), Guard(a), Capture(a), Persistent(a, flash));
      && 0 < image <= p.end && p.Before(g) && g.Before(c) && c.Before(s) && s.start < s.end == flash
      && c.end - c.start == capture && g.end - g.start == guard * SECTOR_SIZE && a.freeBefore >= a.guardSize
      && Disjoint(p, g) && Disjoint(p, c) && Disjoint(p, s) && Disjoint(g, c) && Disjoint(g, s) && Disjoint(c, s)
  {
    AlignUpLeast(image, SECTOR_SIZE, 0);
  }

  /** Every number of a report, and that it fits exactly when the free bytes hold the guard. */
  lemma ReportMeaning(image: int, flash: int, capture: int, guard: int)
    requires AuditOf(image, flash, capture, guard).Report?
    ensures var a := AuditOf(image, flash, capture, guard);
      && image <= a.programEnd < image + 4096 && (exists sectors :: a.programEnd == sectors * 4096)
      && a.guardSize == 4096 * guard && a.persistentStart == flash - 24576
      && a.captureEnd == flash - 24576 && a.captureEnd - a.captureStart == capture
      && (a.fits <==> a.freeBefore >= a.guardSize)
      && a.freeBefore == |BytesIn(Region(a.programEnd, a.captureStart))|
  {
    AlignUpLeast(image, SECTOR_SIZE, 0);
    var end := AlignUp(image, SECTOR_SIZE);
    assert end == end / SECTOR_SIZE * 4096;
    BytesBetween(end, AuditOf(image, flash, capture, guard).captureStart);
  }

  ghost function BytesIn(r: Region): set<int> {
    set x | r.start <= x < r.end && r.Holds(x)
  }

  lemma {:induction false} BytesBetween(lo: int, hi: int)
    ensures |BytesIn(Region(lo, hi))| == if lo < hi then hi - lo else 0
    decreases hi - lo
  {
    if lo < hi {
      BytesBetween(lo, hi - 1);
      assert BytesIn(Region(lo, hi)) == BytesIn(Region(lo, hi - 1)) + {hi - 1};
    } else {
      assert BytesIn(Region(lo, hi)) == {};
    }
  }

  /** Every boundary is sector-aligned exactly when the flash is a whole number of sectors. */
  lemma AlignedIffFlashIs(image: int, flash: int, capture: int, guard: int)
    requires AuditOf(image, flash, capture, guard).Report?
    ensures var a := AuditOf(image, flash, capture, guard);
      && Multiple(a.programEnd, SECTOR_SIZE)
      && (Multiple(a.captureStart, SECTOR_SIZE) <==> Multiple(flash, SECTOR_SIZE))
      && (Multiple(a.persistentStart, SECTOR_SIZE) <==> Multiple(flash, SECTOR_SIZE))
      && (Multiple(a.captureStart - a.guardSize, SECTOR_SIZE) <==> Multiple(flash, SECTOR_SIZE))
  {
    AlignUpLeast(image, SECTOR_SIZE, 0);
  }

  /** A smaller image, capture area or guard, or a larger flash, never stops a fit. */
  lemma FitsMonotone(image: int, flash: int, capture: int, guard: int,
    image': int, flash': int, capture': int, guard': int)
    requires var a := AuditOf(image, flash, capture, guard); a.Report? && a.fits
    requires 0 < image' <= image && flash <= flash' && 0 < capture' <= capture && 1 <= guard' <= guard
    requires Multiple(capture', SECTOR_SIZE)
    ensures var a := AuditOf(image', flash', capture', guard'); a.Report? && a.fits
  {
    AlignUpLeast(image, SECTOR_SIZE, 0);
    AlignUpLeast(image', SECTOR_SIZE, AlignUp(image, SECTOR_SIZE));
  }

  // ---- Finding the marker ------------------------------------------------------------------

  const MARKER: seq<byte> := [80, 83, 50, 45, 73, 78, 83, 84, 65, 76, 76, 45, 82, 69, 83, 69, 84, 45, 49]

  /** The marker is this text. */
  lemma MarkerText()
    ensures var text := "PS2-INSTALL-RESET-1";
      |MARKER| == |text| && forall i :: 0 <= i < |text| ==> MARKER[i] == text[i] as int
  {
  }

  predicate OccursAt(data: seq<byte>, marker: seq<byte>, p: int) {
    0 <= p && p + |marker| <= |data| && data[p..p + |marker|] == marker
  }

  /** The first occurrence at or after `from`. */
  method Find(data: seq<byte>, marker: seq<byte>, from: nat) returns (offset: int)
    requires marker != []
    ensures offset >= 0 ==> offset >= from && OccursAt(data, marker, offset)
    ensures forall p :: from <= p && OccursAt(data, marker, p) ==> 0 <= offset <= p
    ensures offset >= -1
  {
    offset := from;
    while offset + |marker| <= |data|
      invariant offset >= from
      invariant forall p :: from <= p < offset ==> !OccursAt(data, marker, p)
    {
      if data[offset..offset + |marker|] == marker {
        return;
      }
      offset := offset + 1;
    }
    return -1;
  }

  /** Every occurrence below `bound`, once each, in ascending order. */
  ghost predicate AllBelow(data: seq<byte>, marker: seq<byte>, bound: int, positions: seq<int>) {
    && (forall i, j :: 0 <= i < j < |positions| ==> positions[i] < positions[j])
    && (forall p :: p in positions <==> OccursAt(data, marker, p) && p < bound)
  }

  ghost predicate AllOccurrences(data: seq<byte>, marker: seq<byte>, positions: seq<int>) {
    AllBelow(data, marker, |data|, positions)
  }

  method FindAll(data: seq<byte>, marker: seq<byte>) returns (positions: seq<int>)
    requires marker != []
    ensures AllOccurrences(data, marker, positions)
  {
    positions := [];
    var offset := Find(data, marker, 0);
    while offset >= 0
      invariant offset >= 0 ==> OccursAt(data, marker, offset)
      invariant AllBelow(data, marker, if offset >= 0 then offset else |data|, positions)
      decreases if offset >= 0 then |data| - offset else -1
    {
      OneMore(data, marker, offset, positions);
      positions := positions + [offset];
      offset := Find(data, marker, offset + 1);
    }
  }

  lemma OneMore(data: seq<byte>, marker: seq<byte>, offset: int, positions: seq<int>)
    requires AllBelow(data, marker, offset, positions) && OccursAt(data, marker, offset)
    ensures AllBelow(data, marker, offset + 1, positions + [offset])
  {
    var longer := positions + [offset];
    forall i | 0 <= i < |positions| ensures positions[i] < offset {
      assert positions[i] in positions;
    }
    forall p ensures p in longer <==> OccursAt(data, marker, p) && p < offset + 1 {
      assert p in longer <==> p in positions || p == offset;
    }
  }

  lemma TailMembers(xs: seq<int>, p: int)
    requires xs != [] && forall i, j :: 0 <= i < j < |xs| ==> xs[i] < xs[j]
    ensures p in xs[1..] <==> p in xs && p != xs[0]
  {
    assert xs == [xs[0]] + xs[1..];
    if p in xs[1..] {
      var i :| 0 <= i < |xs| - 1 && xs[1..][i] == p;
      assert xs[0] < xs[i + 1];
    }
  }

  /** There is only one such list. */
  lemma {:induction false} AscendingUnique(xs: seq<int>, ys: seq<int>)
    requires forall i, j :: 0 <= i < j < |xs| ==> xs[i] < xs[j]
    requires forall i, j :: 0 <= i < j < |ys| ==> ys[i] < ys[j]
    requires forall p :: p in xs <==> p in ys
    ensures xs == ys
    decreases |xs|
  {
    EmptyTogether(xs, ys);
    if xs != [] {
      SameFirst(xs, ys);
      forall p ensures p in xs[1..] <==> p in ys[1..] {
        TailMembers(xs, p);
        TailMembers(ys, p);
      }
      AscendingUnique(xs[1..], ys[1..]);
      assert xs == [xs[0]] + xs[1..] && ys == [ys[0]] + ys[1..];
    }
  }

  /** So the promise fixes what the search returns. */
  lemma OccurrencesUnique(data: seq<byte>, marker: seq<byte>, xs: seq<int>, ys: seq<int>)
    requires AllOccurrences(data, marker, xs) && AllOccurrences(data, marker, ys)
    ensures xs == ys
  {
    forall p ensures p in xs <==> p in ys {
      assert p in xs <==> OccursAt(data, marker, p) && p < |data|;
    }
    AscendingUnique(xs, ys);
  }

  lemma EmptyTogether(xs: seq<int>, ys: seq<int>)
    requires forall p :: p in xs <==> p in ys
    ensures xs == [] <==> ys == []
  {
    if xs != [] {
      var x := xs[0];
      assert x in xs;
      assert x in ys;
    }
    if ys != [] {
      var y := ys[0];
      assert y in ys;
      assert y in xs;
    }
  }

  lemma SameFirst(xs: seq<int>, ys: seq<int>)
    requires forall i, j :: 0 <= i < j < |xs| ==> xs[i] < xs[j]
    requires forall i, j :: 0 <= i < j < |ys| ==> ys[i] < ys[j]
    requires xs != [] && ys != [] && forall p :: p in xs <==> p in ys
    ensures xs[0] == ys[0]
  {
    var x, y := xs[0], ys[0];
    assert x in xs && y in ys;
    assert x in ys && y in xs;
    var i :| 0 <= i < |ys| && ys[i] == x;
    var j :| 0 <= j < |xs| && xs[j] == y;
    assert y <= ys[i] && x <= xs[j];
  }

  // ---- Placing the marker ------------------------------------------------------------------

  datatype Placement =
    | WrongCount(found: nat)
    | NotPageAligned(offset: int)
    | OverlapsPersistence(start: int)
    | Accepted(offset: int)

  method VerifyMarker(data: seq<byte>, flash: int) returns (placement: Placement)
    ensures exists positions :: AllOccurrences(data, MARKER, positions) && placement == PlacementOf(positions, flash)
  {
    var positions := FindAll(data, MARKER);
    placement := Judge(positions, flash);
  }

  /** The checks, in the order they are reported. */
  method Judge(positions: seq<int>, flash: int) returns (placement: Placement)
    ensures placement == PlacementOf(positions, flash)
  {
    if |positions| != 1 {
      return WrongCount(|positions|);
    }
    var offset := positions[0];
    var persistentStart := flash - PERSISTENT_SIZE;
    if offset % FLASH_PAGE_SIZE != 0 {
      return NotPageAligned(offset);
    }
    if offset + FLASH_PAGE_SIZE > persistentStart {
      return OverlapsPersistence(persistentStart);
    }
    return Accepted(offset);
  }

  function PlacementOf(positions: seq<int>, flash: int): Placement {
    if |positions| != 1 then WrongCount(|positions|)
    else if !Multiple(positions[0], FLASH_PAGE_SIZE) then NotPageAligned(positions[0])
    else if positions[0] + FLASH_PAGE_SIZE > flash - PERSISTENT_SIZE then OverlapsPersistence(flash - PERSISTENT_SIZE)
    else Accepted(positions[0])
  }

  ghost predicate OnlyAt(data: seq<byte>, p: int) {
    forall x :: OccursAt(data, MARKER, x) <==> x == p
  }

  /** Each outcome, by the occurrences in the image that cause it. */
  lemma PlacementMeaning(data: seq<byte>, flash: int, positions: seq<int>, p: int)
    requires AllOccurrences(data, MARKER, positions)
    ensures PlacementOf(positions, flash) == Accepted(p)
      <==> OnlyAt(data, p) && Multiple(p, 256) && p + 256 <= flash - 24576
    ensures PlacementOf(positions, flash) == NotPageAligned(p) <==> OnlyAt(data, p) && !Multiple(p, 256)
    ensures PlacementOf(positions, flash) == OverlapsPersistence(flash - 24576)
      <==> exists q :: OnlyAt(data, q) && Multiple(q, 256) && q + 256 > flash - 24576
    ensures forall n :: PlacementOf(positions, flash) == WrongCount(n) <==> n == |Occurrences(data)| && n != 1
    ensures PlacementOf(positions, flash).WrongCount? <==> !exists q :: OnlyAt(data, q)
  {
    OneOccurrence(data, positions, p);
    CountOccurrences(data, positions);
    if |positions| == 1 {
      OneOccurrence(data, positions, positions[0]);
      assert OnlyAt(data, positions[0]);
    }
    forall q | OnlyAt(data, q) ensures positions == [q] {
      OneOccurrence(data, positions, q);
    }
  }

  /** Where the marker occurs. */
  ghost function Occurrences(data: seq<byte>): set<int> {
    set p | 0 <= p < |data| && OccursAt(data, MARKER, p)
  }

  lemma CountOccurrences(data: seq<byte>, positions: seq<int>)
    requires AllOccurrences(data, MARKER, positions)
    ensures |positions| == |Occurrences(data)|
  {
    AscendingSize(positions);
    forall p ensures p in Occurrences(data) <==> p in positions {
      assert p in positions <==> OccursAt(data, MARKER, p) && p < |data|;
    }
    assert Occurrences(data) == set p | p in positions;
  }

  lemma {:induction false} AscendingSize(xs: seq<int>)
    requires forall i, j :: 0 <= i < j < |xs| ==> xs[i] < xs[j]
    ensures |set x | x in xs| == |xs|
    decreases |xs|
  {
    if xs != [] {
      var n := |xs| - 1;
      AscendingSize(xs[..n]);
      assert xs == xs[..n] + [xs[n]];
      assert (set x | x in xs) == (set x | x in xs[..n]) + {xs[n]};
      assert xs[n] !in xs[..n];
    }
  }

  lemma OneOccurrence(data: seq<byte>, positions: seq<int>, p: int)
    requires AllOccurrences(data, MARKER, positions)
    ensures OnlyAt(data, p) <==> positions == [p]
  {
    if OnlyAt(data, p) {
      assert OccursAt(data, MARKER, p) && |MARKER| > 0;
      assert p in positions;
      forall i | 0 <= i < |positions| ensures positions[i] == p {
        assert positions[i] in positions;
        assert OccursAt(data, MARKER, positions[i]);
      }
      var first, last := positions[0], positions[|positions| - 1];
      assert first == last == p;
      assert positions == [p];
    }
    if positions == [p] {
      forall x ensures OccursAt(data, MARKER, x) <==> x == p {
        assert x in positions <==> x == p;
      }
    }
  }

  /** The whole flash page of an accepted marker lies in the sector-rounded program area. */
  lemma PageInsideProgram(data: seq<byte>, p: int)
    requires OccursAt(data, MARKER, p) && Multiple(p, FLASH_PAGE_SIZE)
    ensures 0 <= p && p + FLASH_PAGE_SIZE <= Program(|data|).end
  {
    AlignUpLeast(|data|, SECTOR_SIZE, 0);
  }

  /** When the audit of the same image fits, the marker's page also clears guard, capture area and persistence. */
  lemma AuditPlacesMarker(data: seq<byte>, flash: int, capture: int, guard: int, positions: seq<int>)
    requires var a := AuditOf(|data|, flash, capture, guard); a.Report? && a.fits
    requires AllOccurrences(data, MARKER, positions)
    ensures !PlacementOf(positions, flash).OverlapsPersistence?
    ensures PlacementOf(positions, flash).Accepted? ==>
      var a := AuditOf(|data|, flash, capture, guard);
      var page := Region(positions[0], positions[0] + FLASH_PAGE_SIZE);
      page.Before(Guard(a)) && Disjoint(page, Capture(a)) && Disjoint(page, Persistent(a, flash))
  {
    FitsLayout(|data|, flash, capture, guard);
    if |positions| == 1 && Multiple(positions[0], FLASH_PAGE_SIZE) {
      assert positions[0] in positions;
      PageInsideProgram(data, positions[0]);
    }
  }
}
