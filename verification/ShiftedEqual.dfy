// The shifted-duplicate search over two capture streams: at which byte shift do the
// rows of one stream most often coincide with the rows of the other?

module ShiftedEqual {
  import opened Bits
  import opened Options

  type Row = seq<byte>

  /** The winning shift, if any row matched at all, and its match fraction. */
  datatype Best = Best(shift: Option<int>, fraction: real)

  // ---- One row pair at one shift -----------------------------------------------------------

  /** `row[:stop]`; a negative stop counts from the end. */
  function UpTo(row: Row, stop: int): Row {
    if stop > |row| then row
    else if stop >= 0 then row[..stop]
    else if |row| + stop >= 0 then row[..|row| + stop]
    else []
  }

  /** `row[start:]` for a start that is not negative. */
  function From(row: Row, start: nat): Row {
    if start <= |row| then row[start..] else []
  }

  function LeftPart(a: Row, shift: int): Row {
    if shift >= 0 then From(a, shift) else UpTo(a, |a| + shift)
  }

  function RightPart(a: Row, b: Row, shift: int): Row {
    if shift > 0 then UpTo(b, |a| - shift) else From(b, -shift)
  }

  function Overlap(a: Row, b: Row, shift: int): nat {
    var av, bv := LeftPart(a, shift), RightPart(a, b, shift);
    if |av| <= |bv| then |av| else |bv|
  }

  /** The two rows still overlap at this shift. */
  predicate Counts(a: Row, b: Row, shift: int) {
    Overlap(a, b, shift) > 0
  }

  predicate Matches(a: Row, b: Row, shift: int) {
    var n := Overlap(a, b, shift);
    n > 0 && LeftPart(a, shift)[..n] == RightPart(a, b, shift)[..n]
  }

  // ---- The fraction of rows that match -----------------------------------------------------

  function Overlapping(xs: seq<Row>, ys: seq<Row>, shift: int, count: nat): (flags: seq<bool>)
    requires count <= |xs| && count <= |ys|
    ensures |flags| == count
    ensures forall i :: 0 <= i < count ==> flags[i] == Counts(xs[i], ys[i], shift)
  {
    seq(count, i requires 0 <= i < count => Counts(xs[i], ys[i], shift))
  }

  function Agreeing(xs: seq<Row>, ys: seq<Row>, shift: int, count: nat): (flags: seq<bool>)
    requires count <= |xs| && count <= |ys|
    ensures |flags| == count
    ensures forall i :: 0 <= i < count ==> flags[i] == Matches(xs[i], ys[i], shift)
  {
    seq(count, i requires 0 <= i < count => Matches(xs[i], ys[i], shift))
  }

  function Trues(flags: seq<bool>): (n: nat)
    ensures n <= |flags|
  {
    if flags == [] then 0 else Trues(flags[..|flags| - 1]) + if flags[|flags| - 1] then 1 else 0
  }

  function Checked(xs: seq<Row>, ys: seq<Row>, shift: int, count: nat): nat
    requires count <= |xs| && count <= |ys|
  {
    Trues(Overlapping(xs, ys, shift, count))
  }

  function Matched(xs: seq<Row>, ys: seq<Row>, shift: int, count: nat): nat
    requires count <= |xs| && count <= |ys|
  {
    Trues(Agreeing(xs, ys, shift, count))
  }

  lemma {:induction false} SomeTrue(flags: seq<bool>)
    ensures Trues(flags) > 0 <==> true in flags
  {
    if flags != [] {
      SomeTrue(flags[..|flags| - 1]);
      assert flags == flags[..|flags| - 1] + [flags[|flags| - 1]];
    }
  }

  /** Of two flag lists, one implying the other, the counts agree exactly when the lists do. */
  lemma {:induction false} ImpliedTrues(a: seq<bool>, b: seq<bool>)
    requires |a| == |b| && forall i :: 0 <= i < |a| ==> a[i] ==> b[i]
    ensures Trues(a) <= Trues(b)
    ensures Trues(a) == Trues(b) <==> a == b
  {
    if a != [] {
      var a', b' := a[..|a| - 1], b[..|b| - 1];
      ImpliedTrues(a', b');
      assert a == a' + [a[|a| - 1]] && b == b' + [b[|b| - 1]];
    }
  }

  lemma MatchedAtMostChecked(xs: seq<Row>, ys: seq<Row>, shift: int, count: nat)
    requires count <= |xs| && count <= |ys|
    ensures Matched(xs, ys, shift, count) <= Checked(xs, ys, shift, count)
  {
    ImpliedTrues(Agreeing(xs, ys, shift, count), Overlapping(xs, ys, shift, count));
  }

  function Ratio(matches: nat, checked: nat): real {
    if checked != 0 then matches as real / checked as real else 0.0
  }

  function Fraction(xs: seq<Row>, ys: seq<Row>, shift: int, count: nat): real
    requires count <= |xs| && count <= |ys|
  {
    Ratio(Matched(xs, ys, shift, count), Checked(xs, ys, shift, count))
  }

  function Min(a: nat, b: nat): nat {
    if a <= b then a else b
  }

  function IntMin(a: int, b: int): int {
    if a <= b then a else b
  }

  /** How many row pairs the loop visits; a negative sample visits none. */
  function Rows(xs: seq<Row>, ys: seq<Row>, sample: int): (n: nat)
    ensures n <= |xs| && n <= |ys|
  {
    var n := IntMin(IntMin(|xs|, sample), IntMin(|ys|, sample));
    if n >= 0 then n else 0
  }

  /** The loop visits exactly the pairs that both streams and the sample hold. */
  lemma RowsVisited(xs: seq<Row>, ys: seq<Row>, sample: int, i: nat)
    ensures i < Rows(xs, ys, sample) <==> i < |xs| && i < |ys| && i < sample
  {
  }

  // ---- The search --------------------------------------------------------------------------

  /** `best` is the greatest value over `lo..hi`, with the smallest argument that attains it. */
  ghost predicate Peak(f: int -> real, lo: int, hi: int, best: Best) {
    && (forall s :: lo <= s < hi ==> f(s) <= best.fraction)
    && match best.shift
       case None => best.fraction == 0.0
       case Some(shift) =>
         && lo <= shift < hi && f(shift) == best.fraction > 0.0
         && forall s :: lo <= s < shift ==> f(s) < best.fraction
  }

  /** The match fraction as a function of the shift. */
  ghost function Profile(xs: seq<Row>, ys: seq<Row>, count: nat): int -> real
    requires count <= |xs| && count <= |ys|
  {
    s => Fraction(xs, ys, s, count)
  }

  ghost predicate IsBest(xs: seq<Row>, ys: seq<Row>, count: nat, lo: int, hi: int, best: Best)
    requires count <= |xs| && count <= |ys|
  {
    Peak(Profile(xs, ys, count), lo, hi, best)
  }

  /** The two slices compared for one row pair. */
  method Slices(a: Row, b: Row, shift: int) returns (av: Row, bv: Row)
    ensures av == LeftPart(a, shift) && bv == RightPart(a, b, shift)
  {
    if shift >= 0 {
      av := From(a, shift);
      bv := if shift != 0 then UpTo(b, |a| - shift) else b;
    } else {
      av, bv := UpTo(a, |a| + shift), From(b, -shift);
    }
  }

  lemma NextFlag(xs: seq<Row>, ys: seq<Row>, shift: int, i: nat)
    requires i < |xs| && i < |ys|
    ensures Checked(xs, ys, shift, i + 1) == Checked(xs, ys, shift, i) + if Counts(xs[i], ys[i], shift) then 1 else 0
    ensures Matched(xs, ys, shift, i + 1) == Matched(xs, ys, shift, i) + if Matches(xs[i], ys[i], shift) then 1 else 0
  {
    assert Overlapping(xs, ys, shift, i + 1)[..i] == Overlapping(xs, ys, shift, i);
    assert Agreeing(xs, ys, shift, i + 1)[..i] == Agreeing(xs, ys, shift, i);
  }

  /** The inner loop: how many row pairs overlap at this shift, and how many of those agree. */
  method Count(xs: seq<Row>, ys: seq<Row>, shift: int, count: nat) returns (matches: nat, checked: nat)
    requires count <= |xs| && count <= |ys|
    ensures matches == Matched(xs, ys, shift, count) && checked == Checked(xs, ys, shift, count)
  {
    matches, checked := 0, 0;
    for i := 0 to count
      invariant checked == Checked(xs, ys, shift, i)
      invariant matches == Matched(xs, ys, shift, i)
    {
      NextFlag(xs, ys, shift, i);
      var av, bv := Slices(xs[i], ys[i], shift);
      var n := Min(|av|, |bv|);
      if n <= 0 { continue; }
      checked := checked + 1;
      if av[..n] == bv[..n] {
        matches := matches + 1;
      }
    }
  }

  method Search(xs: seq<Row>, ys: seq<Row>, maxShift: int, sample: int) returns (found: Option<Best>)
    ensures found.None? <==> sample == 0 || (sample > 0 && (xs == [] || ys == []))
    ensures found.Some? ==> IsBest(xs, ys, Rows(xs, ys, sample), -maxShift, maxShift + 1, found.value)
    ensures found.Some? ==> BestByCount(xs, ys, Rows(xs, ys, sample), maxShift, found.value)
  {
    var na, nb := IntMin(|xs|, sample), IntMin(|ys|, sample);
    if na == 0 || nb == 0 {
      return None;
    }
    var count: nat := if IntMin(na, nb) >= 0 then IntMin(na, nb) else 0;
    var best := Best(None, 0.0);
    ghost var f := Profile(xs, ys, count);
    var shift := -maxShift;
    while shift < maxShift + 1
      invariant shift == -maxShift || -maxShift <= shift <= maxShift + 1
      invariant Peak(f, -maxShift, shift, best)
    {
      var matches, checked := Count(xs, ys, shift, count);
      var frac := Ratio(matches, checked);
      FractionRange(xs, ys, shift, count);
      Extend(f, -maxShift, shift, best, frac);
      if frac > best.fraction {
        best := Best(Some(shift), frac);
      }
      shift := shift + 1;
    }
    EmptyOrWhole(f, maxShift, shift, best);
    BestCounts(xs, ys, count, maxShift, best);
    return Some(best);
  }

  /** A negative window holds no shift at all. */
  lemma EmptyOrWhole(f: int -> real, m: int, shift: int, best: Best)
    requires shift >= m + 1 && (shift == -m || shift <= m + 1) && Peak(f, -m, shift, best)
    ensures Peak(f, -m, m + 1, best)
  {
  }

  lemma Extend(f: int -> real, lo: int, hi: int, best: Best, frac: real)
    requires Peak(f, lo, hi, best) && lo <= hi && frac == f(hi) >= 0.0
    ensures Peak(f, lo, hi + 1, if frac > best.fraction then Best(Some(hi), frac) else best)
  {
  }

  // ---- What the answer means ---------------------------------------------------------------

  lemma RatioRange(m: nat, c: nat)
    requires m <= c
    ensures 0.0 <= Ratio(m, c) <= 1.0
    ensures Ratio(m, c) == 0.0 <==> m == 0
    ensures Ratio(m, c) == 1.0 <==> m == c > 0
  {
    if c != 0 {
      var r, d := m as real / c as real, c as real;
      assert r * d == m as real;
      assert r > 1.0 ==> r * d > d;
      assert r < 0.0 ==> r * d < 0.0;
    }
  }

  lemma FractionRange(xs: seq<Row>, ys: seq<Row>, shift: int, count: nat)
    requires count <= |xs| && count <= |ys|
    ensures 0.0 <= Fraction(xs, ys, shift, count) <= 1.0
  {
    MatchedAtMostChecked(xs, ys, shift, count);
    RatioRange(Matched(xs, ys, shift, count), Checked(xs, ys, shift, count));
  }

  ghost predicate AnyMatch(xs: seq<Row>, ys: seq<Row>, shift: int, count: nat)
    requires count <= |xs| && count <= |ys|
  {
    exists i :: 0 <= i < count && Matches(xs[i], ys[i], shift)
  }

  /** Every row pair that overlaps at this shift matches there. */
  predicate AllMatch(xs: seq<Row>, ys: seq<Row>, shift: int, count: nat)
    requires count <= |xs| && count <= |ys|
  {
    forall i :: 0 <= i < count && Counts(xs[i], ys[i], shift) ==> Matches(xs[i], ys[i], shift)
  }

  lemma CountsMeaning(xs: seq<Row>, ys: seq<Row>, shift: int, count: nat)
    requires count <= |xs| && count <= |ys|
    ensures Matched(xs, ys, shift, count) > 0 <==> AnyMatch(xs, ys, shift, count)
    ensures Matched(xs, ys, shift, count) == Checked(xs, ys, shift, count) <==> AllMatch(xs, ys, shift, count)
  {
    var agreeing, overlapping := Agreeing(xs, ys, shift, count), Overlapping(xs, ys, shift, count);
    SomeTrue(agreeing);
    ImpliedTrues(agreeing, overlapping);
    assert AllMatch(xs, ys, shift, count) <==> agreeing == overlapping by {
      assert forall i :: 0 <= i < count ==> agreeing[i] ==> overlapping[i];
    }
  }

  /** Fraction 0: nothing matches. Fraction 1: something matches and nothing that overlaps differs. */
  lemma FractionMeaning(xs: seq<Row>, ys: seq<Row>, shift: int, count: nat)
    requires count <= |xs| && count <= |ys|
    ensures Fraction(xs, ys, shift, count) == 0.0 <==> !AnyMatch(xs, ys, shift, count)
    ensures Fraction(xs, ys, shift, count) == 1.0 <==> AnyMatch(xs, ys, shift, count) && AllMatch(xs, ys, shift, count)
  {
    CountsMeaning(xs, ys, shift, count);
    MatchedAtMostChecked(xs, ys, shift, count);
    RatioRange(Matched(xs, ys, shift, count), Checked(xs, ys, shift, count));
  }

  // ---- The fraction by counting -----------------------------------------------------------

  /** The row pairs that overlap at this shift. */
  function OverlapRows(xs: seq<Row>, ys: seq<Row>, shift: int, count: nat): set<nat>
    requires count <= |xs| && count <= |ys|
  {
    set i: nat | i < count && Counts(xs[i], ys[i], shift)
  }

  /** The row pairs that match at this shift. */
  function MatchRows(xs: seq<Row>, ys: seq<Row>, shift: int, count: nat): set<nat>
    requires count <= |xs| && count <= |ys|
  {
    set i: nat | i < count && Matches(xs[i], ys[i], shift)
  }

  function TruePlaces(flags: seq<bool>): set<nat> {
    set i: nat | i < |flags| && flags[i]
  }

  lemma {:induction false} TruesArePlaces(flags: seq<bool>)
    ensures Trues(flags) == |TruePlaces(flags)|
    decreases |flags|
  {
    if flags != [] {
      var n := |flags| - 1;
      TruesArePlaces(flags[..n]);
      assert TruePlaces(flags) == TruePlaces(flags[..n]) + if flags[n] then {n} else {};
    }
  }

  lemma CountsAreSizes(xs: seq<Row>, ys: seq<Row>, shift: int, count: nat)
    requires count <= |xs| && count <= |ys|
    ensures Checked(xs, ys, shift, count) == |OverlapRows(xs, ys, shift, count)|
    ensures Matched(xs, ys, shift, count) == |MatchRows(xs, ys, shift, count)|
  {
    var overlapping, agreeing := Overlapping(xs, ys, shift, count), Agreeing(xs, ys, shift, count);
    TruesArePlaces(overlapping);
    TruesArePlaces(agreeing);
    assert TruePlaces(overlapping) == OverlapRows(xs, ys, shift, count);
    assert TruePlaces(agreeing) == MatchRows(xs, ys, shift, count);
  }

  /** `f` of `c` rows are `m` rows; no more; fewer. */
  predicate IsShare(f: real, c: nat, m: nat) {
    f * c as real == m as real
  }

  predicate ShareAtMost(f: real, c: nat, m: nat) {
    m as real <= f * c as real
  }

  predicate ShareBelow(f: real, c: nat, m: nat) {
    c > 0 ==> (m as real) < f * c as real
  }

  /** The fraction is the matching rows' share of the overlapping rows; without overlap it is zero. */
  lemma FractionCounts(xs: seq<Row>, ys: seq<Row>, shift: int, count: nat)
    requires count <= |xs| && count <= |ys|
    ensures var c, m := |OverlapRows(xs, ys, shift, count)|, |MatchRows(xs, ys, shift, count)|;
      IsShare(Fraction(xs, ys, shift, count), c, m)
    ensures OverlapRows(xs, ys, shift, count) == {} ==> Fraction(xs, ys, shift, count) == 0.0
    ensures |MatchRows(xs, ys, shift, count)| <= |OverlapRows(xs, ys, shift, count)|
  {
    CountsAreSizes(xs, ys, shift, count);
    MatchedAtMostChecked(xs, ys, shift, count);
    RatioIsShare(|MatchRows(xs, ys, shift, count)|, |OverlapRows(xs, ys, shift, count)|);
  }

  lemma RatioIsShare(m: nat, c: nat)
    requires m <= c
    ensures IsShare(Ratio(m, c), c, m)
    ensures c == 0 ==> Ratio(m, c) == 0.0
  {
  }

  /** The reported fraction and shift, by counting rows: no shift of the window matches a larger share, the
      reported one matches exactly this share, and every smaller one a smaller share. */
  ghost predicate BestByCount(xs: seq<Row>, ys: seq<Row>, count: nat, m: int, best: Best)
    requires count <= |xs| && count <= |ys|
  {
    && (forall s :: -m <= s <= m ==>
          ShareAtMost(best.fraction, |OverlapRows(xs, ys, s, count)|, |MatchRows(xs, ys, s, count)|))
    && (best.shift == None ==>
          best.fraction == 0.0 && forall s :: -m <= s <= m ==> |MatchRows(xs, ys, s, count)| == 0)
    && (best.shift.Some? ==>
          var t := best.shift.value;
          && -m <= t <= m && best.fraction > 0.0 && |OverlapRows(xs, ys, t, count)| > 0
          && IsShare(best.fraction, |OverlapRows(xs, ys, t, count)|, |MatchRows(xs, ys, t, count)|)
          && forall s :: -m <= s < t ==>
               ShareBelow(best.fraction, |OverlapRows(xs, ys, s, count)|, |MatchRows(xs, ys, s, count)|))
  }

  lemma CompareShares(v: real, f: real, c: nat, m: nat)
    requires IsShare(v, c, m) && (c == 0 ==> v == 0.0)
    ensures v <= f ==> ShareAtMost(f, c, m)
    ensures v < f ==> ShareBelow(f, c, m)
    ensures v == f > 0.0 ==> c > 0
    ensures v == 0.0 ==> m == 0
  {
    var d := c as real;
    assert (f - v) * d == f * d - m as real;
    assert v < f && c > 0 ==> (f - v) * d > 0.0;
    assert v <= f ==> (f - v) * d >= 0.0;
    assert v == 0.0 ==> v * d == 0.0;
  }

  lemma ShareOf(xs: seq<Row>, ys: seq<Row>, count: nat, s: int, f: real)
    requires count <= |xs| && count <= |ys|
    ensures var (v, c, m) :=
        (Fraction(xs, ys, s, count), |OverlapRows(xs, ys, s, count)|, |MatchRows(xs, ys, s, count)|);
      && (v <= f ==> ShareAtMost(f, c, m)) && (v < f ==> ShareBelow(f, c, m))
      && (v == f > 0.0 ==> c > 0 && IsShare(f, c, m)) && (v == 0.0 ==> m == 0)
  {
    FractionCounts(xs, ys, s, count);
    CompareShares(Fraction(xs, ys, s, count), f, |OverlapRows(xs, ys, s, count)|, |MatchRows(xs, ys, s, count)|);
  }

  lemma BestCounts(xs: seq<Row>, ys: seq<Row>, count: nat, m: int, best: Best)
    requires count <= |xs| && count <= |ys| && IsBest(xs, ys, count, -m, m + 1, best)
    ensures BestByCount(xs, ys, count, m, best)
  {
    var f := Profile(xs, ys, count);
    forall s | -m <= s <= m
      ensures ShareAtMost(best.fraction, |OverlapRows(xs, ys, s, count)|, |MatchRows(xs, ys, s, count)|)
      ensures best.shift == None ==> |MatchRows(xs, ys, s, count)| == 0
    {
      assert f(s) <= best.fraction;
      FractionRange(xs, ys, s, count);
      ShareOf(xs, ys, count, s, best.fraction);
    }
    if best.shift.Some? {
      ShareOf(xs, ys, count, best.shift.value, best.fraction);
      forall s | -m <= s < best.shift.value
        ensures ShareBelow(best.fraction, |OverlapRows(xs, ys, s, count)|, |MatchRows(xs, ys, s, count)|)
      {
        assert f(s) < best.fraction;
        ShareOf(xs, ys, count, s, best.fraction);
      }
    }
  }

  /** The search has one right answer. */
  lemma BestUnique(f: int -> real, lo: int, hi: int, p: Best, q: Best)
    requires Peak(f, lo, hi, p) && Peak(f, lo, hi, q)
    ensures p == q
  {
    assert p.shift.Some? ==> p.fraction <= q.fraction;
    assert q.shift.Some? ==> q.fraction <= p.fraction;
    assert p.shift.Some? && q.shift.Some? ==> p.shift.value == q.shift.value;
  }

  /** No shift is reported exactly when no sampled row matches at any shift in the window. */
  lemma NothingFound(xs: seq<Row>, ys: seq<Row>, count: nat, lo: int, hi: int, best: Best)
    requires count <= |xs| && count <= |ys| && IsBest(xs, ys, count, lo, hi, best)
    ensures best == Best(None, 0.0) <==> forall s :: lo <= s < hi ==> !AnyMatch(xs, ys, s, count)
  {
    var f := Profile(xs, ys, count);
    forall s | lo <= s < hi
      ensures f(s) == 0.0 <==> !AnyMatch(xs, ys, s, count)
      ensures f(s) >= 0.0
    {
      FractionMeaning(xs, ys, s, count);
      FractionRange(xs, ys, s, count);
    }
    if best.shift.Some? {
      assert AnyMatch(xs, ys, best.shift.value, count);
    }
  }

  // ---- What a match means, byte by byte ----------------------------------------------------

  /** How long the two slices overlap, from the lengths of the rows alone. */
  function Span(la: nat, lb: nat, shift: int): nat {
    if shift >= 0 then (if shift >= la then 0 else Min(la - shift, lb))
    else if -shift >= lb then 0
    else if -shift <= la then Min(la + shift, lb + shift)
    else if -shift < 2 * la then Min(2 * la + shift, lb + shift)
    else 0
  }

  function Positive(n: int): nat {
    if n >= 0 then n else 0
  }

  lemma OverlapIsSpan(a: Row, b: Row, shift: int)
    ensures Overlap(a, b, shift) == Span(|a|, |b|, shift)
  {
  }

  /** `n` bytes of `a` from `p` on equal as many of `b` from `q` on, and there are some. */
  predicate Agrees(a: Row, b: Row, p: nat, q: nat, n: nat) {
    n > 0 && p + n <= |a| && q + n <= |b| && a[p..p + n] == b[q..q + n]
  }

  lemma LeftFront(a: Row, shift: int, n: nat)
    requires 0 < n <= |LeftPart(a, shift)|
    ensures Positive(shift) + n <= |a| && LeftPart(a, shift)[..n] == a[Positive(shift)..Positive(shift) + n]
  {
  }

  lemma RightFront(a: Row, b: Row, shift: int, n: nat)
    requires 0 < n <= |RightPart(a, b, shift)|
    ensures Positive(-shift) + n <= |b| && RightPart(a, b, shift)[..n] == b[Positive(-shift)..Positive(-shift) + n]
  {
  }

  /** At any shift a match is equality of the overlapping bytes. */
  lemma MatchMeaning(a: Row, b: Row, shift: int)
    ensures Matches(a, b, shift) <==> Agrees(a, b, Positive(shift), Positive(-shift), Span(|a|, |b|, shift))
  {
    OverlapIsSpan(a, b, shift);
    var n := Overlap(a, b, shift);
    if n > 0 {
      LeftFront(a, shift, n);
      RightFront(a, b, shift, n);
    }
  }

  /** Shifted right past its end a row vanishes; before that every byte that is left is compared. */
  lemma ForwardMatch(a: Row, b: Row, shift: int)
    requires shift >= 0
    ensures Overlap(a, b, shift) == if shift >= |a| then 0 else Min(|a| - shift, |b|)
    ensures Matches(a, b, shift)
      <==> Counts(a, b, shift)
           && forall j :: shift <= j < shift + Overlap(a, b, shift) ==> a[j] == b[j - shift]
  {
    MatchBytes(a, b, shift, shift, 0);
  }

  /** The same, byte by byte. */
  lemma MatchBytes(a: Row, b: Row, shift: int, p: nat, q: nat)
    requires p == Positive(shift) && q == Positive(-shift)
    ensures Overlap(a, b, shift) == Span(|a|, |b|, shift)
    ensures Matches(a, b, shift)
      <==> Counts(a, b, shift) && forall j :: p <= j < p + Span(|a|, |b|, shift) ==> a[j] == b[j - p + q]
  {
    OverlapIsSpan(a, b, shift);
    MatchMeaning(a, b, shift);
    SpanFits(|a|, |b|, shift);
    SliceBytes(a, b, p, q, Span(|a|, |b|, shift));
  }

  lemma SliceBytes(a: Row, b: Row, p: nat, q: nat, n: nat)
    ensures Agrees(a, b, p, q, n)
      <==> n > 0 && p + n <= |a| && q + n <= |b| && forall j :: p <= j < p + n ==> a[j] == b[j - p + q]
  {
    if p + n <= |a| && q + n <= |b| {
      var x, y := a[p..p + n], b[q..q + n];
      assert forall j :: p <= j < p + n ==> x[j - p] == a[j] && y[j - p] == b[j - p + q];
      assert forall j :: 0 <= j < n ==> x[j] == a[p + j];
    }
  }

  lemma BackwardMatch(a: Row, b: Row, shift: int)
    requires shift < 0 <= |a| + shift
    ensures Overlap(a, b, shift) == if |b| + shift < 0 then 0 else Min(|a| + shift, |b| + shift)
    ensures Matches(a, b, shift)
      <==> Counts(a, b, shift) && forall j :: 0 <= j < Overlap(a, b, shift) ==> a[j] == b[j - shift]
  {
    MatchBytes(a, b, shift, 0, -shift);
  }

  /** Shifted left past its own length, a row is still compared exactly when its negative stop leaves some
      of it, and then that front of it is compared. */
  lemma ShortRowWraps(a: Row, b: Row, shift: int)
    requires |a| < -shift
    ensures Counts(a, b, shift) <==> -shift < 2 * |a| && -shift < |b|
    ensures Counts(a, b, shift) ==>
      LeftPart(a, shift) == a[..2 * |a| + shift] && RightPart(a, b, shift) == b[-shift..]
    ensures Matches(a, b, shift)
      <==> Counts(a, b, shift)
           && forall j :: 0 <= j < Min(2 * |a| + shift, |b| + shift) ==> a[j] == b[j - shift]
  {
    MatchBytes(a, b, shift, 0, -shift);
  }

  // ---- Swapping the streams ----------------------------------------------------------------

  /** For a shift to the right: the row is shifted away, the other row is empty, or it is long enough. */
  predicate MirrorsForward(la: nat, lb: nat, shift: int) {
    shift >= la || lb == 0 || la <= if shift <= lb then lb else 2 * lb
  }

  /** The lengths for which shifting one row forward is shifting the other back. */
  predicate Mirrors(la: nat, lb: nat, shift: int) {
    if shift < 0 then MirrorsForward(lb, la, -shift) else shift == 0 || MirrorsForward(la, lb, shift)
  }

  lemma SpanMirrors(la: nat, lb: nat, shift: int)
    ensures Span(lb, la, -shift) == Span(la, lb, shift) <==> Mirrors(la, lb, shift)
  {
  }

  ghost predicate AlwaysMirrors(la: nat, lb: nat, shift: int) {
    forall a: Row, b: Row :: |a| == la && |b| == lb ==> (Matches(b, a, -shift) <==> Matches(a, b, shift))
  }

  /** Rows whose fronts of `n` and of `n'` bytes agree for one of the two only. */
  lemma FrontsDiffer(la: nat, lb: nat, p: nat, q: nat, n: nat, n': nat) returns (a: Row, b: Row)
    requires n != n' && Fits(la, lb, p, q, n) && Fits(la, lb, p, q, n')
    ensures |a| == la && |b| == lb && Agrees(a, b, p, q, n) != Agrees(a, b, p, q, n')
  {
    var k := Min(n, n');
    a := seq(la, _ => 0);
    b := seq(lb, j => if k > 0 && j == k + q then 1 else 0);
    OnlyFront(a, b, p, q, n, k);
    OnlyFront(a, b, p, q, n', k);
  }

  predicate Fits(la: nat, lb: nat, p: nat, q: nat, n: nat) {
    n > 0 ==> p + n <= la && q + n <= lb
  }

  lemma SpanFits(la: nat, lb: nat, shift: int)
    ensures Fits(la, lb, Positive(shift), Positive(-shift), Span(la, lb, shift))
  {
  }

  /** Two rows of the given lengths that match one way round only. */
  lemma MirrorBroken(la: nat, lb: nat, shift: int) returns (a: Row, b: Row)
    requires !Mirrors(la, lb, shift)
    ensures |a| == la && |b| == lb && Matches(b, a, -shift) != Matches(a, b, shift)
  {
    SpanMirrors(la, lb, shift);
    SpanFits(la, lb, shift);
    SpanFits(lb, la, -shift);
    var p, q := Positive(shift), Positive(-shift);
    a, b := FrontsDiffer(la, lb, p, q, Span(la, lb, shift), Span(lb, la, -shift));
    BothWays(a, b, shift, p, q, Span(la, lb, shift), Span(lb, la, -shift));
  }

  /** Both searches compare the same pairs of bytes, each as many as its own overlap. */
  lemma BothWays(a: Row, b: Row, shift: int, p: nat, q: nat, n: nat, n': nat)
    requires p == Positive(shift) && q == Positive(-shift)
    requires n == Span(|a|, |b|, shift) && n' == Span(|b|, |a|, -shift)
    ensures Matches(a, b, shift) <==> Agrees(a, b, p, q, n)
    ensures Matches(b, a, -shift) <==> Agrees(a, b, p, q, n')
  {
    MatchMeaning(a, b, shift);
    MatchMeaning(b, a, -shift);
    AgreesSymmetric(b, a, q, p, n');
  }

  lemma AgreesSymmetric(a: Row, b: Row, p: nat, q: nat, n: nat)
    ensures Agrees(a, b, p, q, n) <==> Agrees(b, a, q, p, n)
  {
  }

  /** Rows that first differ after `k` overlapping bytes agree on exactly the non-empty fronts up to `k`. */
  lemma OnlyFront(a: Row, b: Row, p: nat, q: nat, n: nat, k: nat)
    requires Fits(|a|, |b|, p, q, n)
    requires forall j :: 0 <= j < |a| ==> a[j] == 0
    requires forall j :: 0 <= j < |b| ==> b[j] == if k > 0 && j == k + q then 1 else 0
    ensures Agrees(a, b, p, q, n) <==> n > 0 && (k == 0 || n <= k)
  {
    SliceBytes(a, b, p, q, n);
    assert k > 0 && k < n ==> a[k + p] != b[k + q];
  }

  /** Whatever the rows hold, the mirror holds exactly for these lengths. */
  lemma MirrorExact(la: nat, lb: nat, shift: int)
    ensures AlwaysMirrors(la, lb, shift) <==> Mirrors(la, lb, shift)
  {
    if Mirrors(la, lb, shift) {
      forall a: Row, b: Row | |a| == la && |b| == lb ensures Matches(b, a, -shift) <==> Matches(a, b, shift) {
        MirrorRow(a, b, shift);
      }
    } else {
      var a, b := MirrorBroken(la, lb, shift);
    }
  }

  lemma MirrorRow(a: Row, b: Row, shift: int)
    requires Mirrors(|a|, |b|, shift)
    ensures Overlap(b, a, -shift) == Overlap(a, b, shift)
    ensures Matches(b, a, -shift) <==> Matches(a, b, shift)
  {
    SpanMirrors(|a|, |b|, shift);
    OverlapIsSpan(a, b, shift);
    OverlapIsSpan(b, a, -shift);
    BothWays(a, b, shift, Positive(shift), Positive(-shift), Span(|a|, |b|, shift), Span(|b|, |a|, -shift));
  }

  /** Every sampled pair has lengths that mirror at this shift. */
  predicate RowsMirror(xs: seq<Row>, ys: seq<Row>, shift: int, count: nat)
    requires count <= |xs| && count <= |ys|
  {
    forall i :: 0 <= i < count ==> Mirrors(|xs[i]|, |ys[i]|, shift)
  }

  lemma MirrorCounts(xs: seq<Row>, ys: seq<Row>, shift: int, count: nat)
    requires count <= |xs| && count <= |ys| && RowsMirror(xs, ys, shift, count)
    ensures Checked(ys, xs, -shift, count) == Checked(xs, ys, shift, count)
    ensures Matched(ys, xs, -shift, count) == Matched(xs, ys, shift, count)
  {
    forall i | 0 <= i < count
      ensures Counts(ys[i], xs[i], -shift) == Counts(xs[i], ys[i], shift)
      ensures Matches(ys[i], xs[i], -shift) == Matches(xs[i], ys[i], shift)
    {
      MirrorRow(xs[i], ys[i], shift);
    }
    assert Overlapping(ys, xs, -shift, count) == Overlapping(xs, ys, shift, count);
    assert Agreeing(ys, xs, -shift, count) == Agreeing(xs, ys, shift, count);
  }

  /** Swapping the streams mirrors this shift's fraction. */
  lemma MirrorFraction(xs: seq<Row>, ys: seq<Row>, shift: int, count: nat)
    requires count <= |xs| && count <= |ys| && RowsMirror(xs, ys, shift, count)
    ensures Fraction(ys, xs, -shift, count) == Fraction(xs, ys, shift, count)
  {
    MirrorCounts(xs, ys, shift, count);
  }

  /** The rows of both streams have these lengths. */
  predicate Sized(xs: seq<Row>, ys: seq<Row>, las: seq<nat>, lbs: seq<nat>) {
    && |xs| == |ys| == |las| == |lbs|
    && forall i :: 0 <= i < |xs| ==> |xs[i]| == las[i] && |ys[i]| == lbs[i]
  }

  ghost predicate FractionsMirror(las: seq<nat>, lbs: seq<nat>, shift: int)
    requires |las| == |lbs|
  {
    forall xs: seq<Row>, ys: seq<Row> :: Sized(xs, ys, las, lbs) ==>
      Fraction(ys, xs, -shift, |las|) == Fraction(xs, ys, shift, |las|)
  }

  /** Streams of the given lengths in which only row `bad` can match, and only one way round. */
  lemma FractionBroken(las: seq<nat>, lbs: seq<nat>, shift: int, bad: nat) returns (xs: seq<Row>, ys: seq<Row>)
    requires bad < |las| == |lbs| && !Mirrors(las[bad], lbs[bad], shift)
    ensures Sized(xs, ys, las, lbs)
    ensures Fraction(ys, xs, -shift, |las|) != Fraction(xs, ys, shift, |las|)
  {
    var n := |las|;
    var a, b := MirrorBroken(las[bad], lbs[bad], shift);
    xs := seq(n, i requires 0 <= i < n => if i == bad then a else seq(las[i], _ => 0));
    ys := seq(n, i requires 0 <= i < n => if i == bad then b else seq(lbs[i], _ => 1));
    forall i | 0 <= i < n && i != bad
      ensures !Matches(xs[i], ys[i], shift) && !Matches(ys[i], xs[i], -shift)
    {
      NeverMatches(xs[i], ys[i], shift);
    }
    OnlyRow(xs, ys, shift, bad);
    OnlyRow(ys, xs, -shift, bad);
  }

  /** When no other row can match, the fraction is zero exactly if this one does not. */
  lemma OnlyRow(xs: seq<Row>, ys: seq<Row>, shift: int, bad: nat)
    requires bad < |xs| == |ys|
    requires forall i :: 0 <= i < |xs| && i != bad ==> !Matches(xs[i], ys[i], shift)
    ensures Fraction(xs, ys, shift, |xs|) == 0.0 <==> !Matches(xs[bad], ys[bad], shift)
  {
    FractionMeaning(xs, ys, shift, |xs|);
  }

  lemma NeverMatches(a: Row, b: Row, shift: int)
    requires forall i, j :: 0 <= i < |a| && 0 <= j < |b| ==> a[i] != b[j]
    ensures !Matches(a, b, shift) && !Matches(b, a, -shift)
  {
    var p, q := Positive(shift), Positive(-shift);
    BothWays(a, b, shift, p, q, Span(|a|, |b|, shift), Span(|b|, |a|, -shift));
    NeverAgrees(a, b, p, q, Span(|a|, |b|, shift));
    NeverAgrees(a, b, p, q, Span(|b|, |a|, -shift));
  }

  lemma NeverAgrees(a: Row, b: Row, p: nat, q: nat, n: nat)
    requires forall i, j :: 0 <= i < |a| && 0 <= j < |b| ==> a[i] != b[j]
    ensures !Agrees(a, b, p, q, n)
  {
    if n > 0 && p + n <= |a| && q + n <= |b| {
      assert a[p..p + n][0] == a[p] && b[q..q + n][0] == b[q];
    }
  }

  /** Whatever the streams hold, their fractions mirror exactly when every pair's lengths do. */
  lemma MirrorFractionExact(las: seq<nat>, lbs: seq<nat>, shift: int)
    requires |las| == |lbs|
    ensures FractionsMirror(las, lbs, shift) <==> forall i :: 0 <= i < |las| ==> Mirrors(las[i], lbs[i], shift)
  {
    if bad :| 0 <= bad < |las| && !Mirrors(las[bad], lbs[bad], shift) {
      var xs, ys := FractionBroken(las, lbs, shift, bad);
    } else {
      forall xs: seq<Row>, ys: seq<Row> | Sized(xs, ys, las, lbs)
        ensures Fraction(ys, xs, -shift, |las|) == Fraction(xs, ys, shift, |las|)
      {
        assert forall i :: 0 <= i < |las| ==> Mirrors(las[i], lbs[i], shift);
        MirrorFraction(xs, ys, shift, |las|);
      }
    }
  }

  /** Equal lengths, or nothing to compare. */
  predicate Symmetric(la: nat, lb: nat) {
    la == lb || la == 0 || lb == 0
  }

  /** Lengths mirror throughout a window exactly when they are equal or one is zero. */
  lemma WindowMirrors(la: nat, lb: nat, m: int)
    requires m >= 1
    ensures (forall s :: -m <= s <= m ==> Mirrors(la, lb, s)) <==> Symmetric(la, lb)
  {
    assert Mirrors(la, lb, 1) && Mirrors(la, lb, -1) <==> Symmetric(la, lb);
  }

  /** `g` is `f` read backwards. */
  ghost predicate Backwards(f: int -> real, g: int -> real) {
    forall s :: g(-s) == f(s)
  }

  /** `q` finds what `p` found, at the mirror of the largest argument that attains it. */
  ghost predicate MirroredBest(f: int -> real, m: int, p: Best, q: Best) {
    && p.fraction == q.fraction && (p.shift.Some? <==> q.shift.Some?)
    && (q.shift.Some? ==>
          f(-q.shift.value) == p.fraction && forall s :: -q.shift.value < s <= m ==> f(s) < p.fraction)
  }

  lemma MirrorPeak(f: int -> real, g: int -> real, m: int, p: Best, q: Best)
    requires Backwards(f, g) && Peak(f, -m, m + 1, p) && Peak(g, -m, m + 1, q)
    ensures MirroredBest(f, m, p, q)
  {
    if p.shift.Some? {
      assert g(-p.shift.value) <= q.fraction;
    }
    if q.shift.Some? {
      assert g(-(-q.shift.value)) == f(-q.shift.value) <= p.fraction;
      forall s | -q.shift.value < s <= m ensures f(s) < p.fraction {
        assert g(-s) < q.fraction;
      }
    }
  }

  /** Equal lengths, or an empty row, in every sampled pair. */
  predicate SymmetricRows(xs: seq<Row>, ys: seq<Row>, count: nat)
    requires count <= |xs| && count <= |ys|
  {
    forall i :: 0 <= i < count ==> Symmetric(|xs[i]|, |ys[i]|)
  }

  lemma SymmetricRowsMirror(xs: seq<Row>, ys: seq<Row>, shift: int, count: nat)
    requires count <= |xs| && count <= |ys| && SymmetricRows(xs, ys, count)
    ensures RowsMirror(xs, ys, shift, count)
  {
    forall i | 0 <= i < count ensures Mirrors(|xs[i]|, |ys[i]|, shift) {
      assert Symmetric(|xs[i]|, |ys[i]|);
    }
  }

  lemma MirroredAt(xs: seq<Row>, ys: seq<Row>, count: nat, f: int -> real, g: int -> real, s: int)
    requires count <= |xs| && count <= |ys| && SymmetricRows(xs, ys, count)
    requires f == Profile(xs, ys, count) && g == Profile(ys, xs, count)
    ensures g(-s) == f(s)
  {
    SymmetricRowsMirror(xs, ys, s, count);
    MirrorFraction(xs, ys, s, count);
  }

  lemma ProfilesMirror(xs: seq<Row>, ys: seq<Row>, count: nat, f: int -> real, g: int -> real)
    requires count <= |xs| && count <= |ys| && SymmetricRows(xs, ys, count)
    requires f == Profile(xs, ys, count) && g == Profile(ys, xs, count)
    ensures Backwards(f, g)
  {
    forall s ensures g(-s) == f(s) {
      MirroredAt(xs, ys, count, f, g, s);
    }
  }

  /** Swapping the streams reports the same fraction, at the mirror of the largest winning shift. */
  lemma MirrorBest(xs: seq<Row>, ys: seq<Row>, count: nat, m: int, p: Best, q: Best)
    requires count <= |xs| && count <= |ys| && SymmetricRows(xs, ys, count)
    requires IsBest(xs, ys, count, -m, m + 1, p) && IsBest(ys, xs, count, -m, m + 1, q)
    ensures MirroredBest(Profile(xs, ys, count), m, p, q)
  {
    ProfilesMirror(xs, ys, count, Profile(xs, ys, count), Profile(ys, xs, count));
    MirrorPeak(Profile(xs, ys, count), Profile(ys, xs, count), m, p, q);
  }

  /** An instance of lengths that do not mirror: the overlap is cut differently. */
  lemma MirrorNeedsEqualLengths()
    ensures var a: Row, b: Row := [1, 2], [0, 1, 9];
      Matches(a, b, -1) && !Matches(b, a, 1) && !Mirrors(|a|, |b|, -1)
  {
    var a: Row, b: Row := [1, 2], [0, 1, 9];
    BackwardMatch(a, b, -1);
    ForwardMatch(b, a, 1);
    assert b[1 + 1] != a[1];
  }
}
