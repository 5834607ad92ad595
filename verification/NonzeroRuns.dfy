// Coalescing the nonzero bytes of a dump into ranges, absorbing short zero gaps.

module NonzeroRuns {
  import opened Bits

  datatype Run = Run(start: int, end: int) {
    predicate Has(p: int) {
      start <= p <= end
    }
  }

  /** The loop's effect on its accumulator for one byte at `position`. */
  function Absorb(runs: seq<Run>, position: int, gap: int): seq<Run> {
    if runs != [] && position - runs[|runs| - 1].end <= gap + 1
    then runs[|runs| - 1 := Run(runs[|runs| - 1].start, position)]
    else runs + [Run(position, position)]
  }

  function RunsOf(data: seq<byte>, base: int, gap: int): seq<Run>
    decreases |data|
  {
    if data == [] then []
    else
      var last := |data| - 1;
      var before := RunsOf(data[..last], base, gap);
      if data[last] == 0 then before else Absorb(before, base + last, gap)
  }

  /** The absolute position `p` lies in the dump and holds a nonzero byte. */
  predicate Live(data: seq<byte>, base: int, p: int) {
    base <= p < base + |data| && data[p - base] != 0
  }

  /** A run starts and ends on nonzero bytes. */
  predicate Tight(data: seq<byte>, base: int, r: Run) {
    r.start <= r.end && Live(data, base, r.start) && Live(data, base, r.end)
  }

  /** Every `gap + 1` consecutive bytes of a run include a nonzero one. */
  ghost predicate Dense(data: seq<byte>, base: int, gap: nat, r: Run) {
    forall p :: r.start <= p && p + gap <= r.end ==> LiveWindow(data, base, p, gap)
  }

  /** One of the `gap + 1` bytes from `p` on is nonzero. */
  ghost predicate LiveWindow(data: seq<byte>, base: int, p: int, gap: nat) {
    exists q :: p <= q <= p + gap && Live(data, base, q)
  }

  /** Neighbouring runs are more than `gap` zero bytes apart. */
  ghost predicate Separated(gap: nat, runs: seq<Run>) {
    forall i, j :: 0 <= i < j < |runs| ==> runs[j].start > runs[i].end + gap + 1
  }

  ghost predicate Covered(runs: seq<Run>, p: int) {
    exists i :: 0 <= i < |runs| && runs[i].Has(p)
  }

  /** What the tool promises of its ranges, from position `from` on. */
  ghost predicate CanonicalFrom(data: seq<byte>, base: int, gap: nat, from: int, runs: seq<Run>) {
    && (forall i :: 0 <= i < |runs| ==> Tight(data, base, runs[i]) && runs[i].start >= from)
    && (forall i :: 0 <= i < |runs| ==> Dense(data, base, gap, runs[i]))
    && Separated(gap, runs)
    && forall p {:trigger Covered(runs, p)} :: p >= from && Live(data, base, p) ==> Covered(runs, p)
  }

  ghost predicate Canonical(data: seq<byte>, base: int, gap: nat, runs: seq<Run>) {
    CanonicalFrom(data, base, gap, base, runs)
  }

  /** Every nonzero byte is a run of its own, in order. */
  ghost predicate EachAlone(data: seq<byte>, base: int, runs: seq<Run>) {
    && (forall i :: 0 <= i < |runs| ==> runs[i].start == runs[i].end && Live(data, base, runs[i].start))
    && (forall i, j :: 0 <= i < j < |runs| ==> runs[i].start < runs[j].start)
    && forall p :: Live(data, base, p) ==> Run(p, p) in runs
  }

  method Compute(data: seq<byte>, base: int, gap: int) returns (runs: seq<Run>)
    ensures runs == RunsOf(data, base, gap)
    ensures gap >= 0 ==> Canonical(data, base, gap, runs)
    ensures gap < 0 ==> EachAlone(data, base, runs)
  {
    runs := [];
    for index := 0 to |data|
      invariant runs == RunsOf(data[..index], base, gap)
    {
      assert data[..index + 1][..index] == data[..index];
      if data[index] == 0 {
        continue;
      }
      var position := base + index;
      if runs != [] && position - runs[|runs| - 1].end <= gap + 1 {
        runs := runs[|runs| - 1 := Run(runs[|runs| - 1].start, position)];
      } else {
        runs := runs + [Run(position, position)];
      }
    }
    assert data[..|data|] == data;
    if gap >= 0 {
      RunsAreCanonical(data, base, gap);
    } else {
      NegativeGapSplits(data, base, gap);
    }
  }

  // ---- Negative gaps ---------------------------------------------------------------

  /** A negative gap never joins two bytes, not even neighbours. */
  lemma {:induction false} NegativeGapSplits(data: seq<byte>, base: int, gap: int)
    requires gap < 0
    ensures EachAlone(data, base, RunsOf(data, base, gap))
    decreases |data|
  {
    if data != [] {
      var init, b := data[..|data| - 1], data[|data| - 1];
      var before := RunsOf(init, base, gap);
      assert data == init + [b];
      NegativeGapSplits(init, base, gap);
      RunsOfAppend(init, base, gap, b);
      if b == 0 {
        KeptAlone(init, base, b, before);
      } else {
        NeverAbsorbs(init, base, gap, before);
        AddedAlone(init, base, b, before, Run(base + |init|, base + |init|));
      }
    }
  }

  lemma NeverAbsorbs(data: seq<byte>, base: int, gap: int, runs: seq<Run>)
    requires gap < 0 && EachAlone(data, base, runs)
    ensures Absorb(runs, base + |data|, gap) == runs + [Run(base + |data|, base + |data|)]
  {
    if runs != [] {
      assert Live(data, base, runs[|runs| - 1].start);
    }
  }

  lemma KeptAlone(data: seq<byte>, base: int, b: byte, runs: seq<Run>)
    requires EachAlone(data, base, runs) && b == 0
    ensures EachAlone(data + [b], base, runs)
  {
    forall p ensures Live(data + [b], base, p) <==> Live(data, base, p) {
      LiveAppend(data, base, b, p);
    }
  }

  lemma AddedAlone(data: seq<byte>, base: int, b: byte, runs: seq<Run>, one: Run)
    requires EachAlone(data, base, runs) && b != 0 && one == Run(base + |data|, base + |data|)
    ensures EachAlone(data + [b], base, runs + [one])
  {
    var out := runs + [one];
    forall i | 0 <= i < |out| ensures out[i].start == out[i].end && Live(data + [b], base, out[i].start) {
      LiveAppend(data, base, b, out[i].start);
    }
    forall p | Live(data + [b], base, p) ensures Run(p, p) in out {
      LiveAppend(data, base, b, p);
    }
  }

  // ---- Existence -------------------------------------------------------------------

  lemma LiveAppend(data: seq<byte>, base: int, b: byte, p: int)
    ensures Live(data + [b], base, p) <==> Live(data, base, p) || (p == base + |data| && b != 0)
  {
  }

  lemma WindowAppend(data: seq<byte>, base: int, b: byte, p: int, gap: nat)
    requires LiveWindow(data, base, p, gap)
    ensures LiveWindow(data + [b], base, p, gap)
  {
    var q :| p <= q <= p + gap && Live(data, base, q);
    LiveAppend(data, base, b, q);
  }

  lemma RunAppend(data: seq<byte>, base: int, gap: nat, b: byte, r: Run)
    requires Tight(data, base, r) && Dense(data, base, gap, r)
    ensures Tight(data + [b], base, r) && Dense(data + [b], base, gap, r)
  {
    LiveAppend(data, base, b, r.start);
    LiveAppend(data, base, b, r.end);
    forall p | r.start <= p && p + gap <= r.end ensures LiveWindow(data + [b], base, p, gap) {
      WindowAppend(data, base, b, p, gap);
    }
  }

  /** A run may grow to a nonzero byte that is at most `gap` zeros away. */
  lemma Grow(data: seq<byte>, base: int, gap: nat, r: Run, position: int)
    requires Tight(data, base, r) && Dense(data, base, gap, r) && Live(data, base, position)
    requires r.end < position <= r.end + gap + 1
    ensures Tight(data, base, Run(r.start, position)) && Dense(data, base, gap, Run(r.start, position))
  {
    forall p | r.start <= p && p + gap <= position ensures LiveWindow(data, base, p, gap) {
      if p + gap <= r.end {
      } else if p <= r.end {
        assert p <= r.end <= p + gap && Live(data, base, r.end);
      } else {
        assert p <= position <= p + gap && Live(data, base, position);
      }
    }
  }

  lemma AbsorbRuns(data: seq<byte>, base: int, gap: nat, b: byte, runs: seq<Run>, i: nat)
    requires Canonical(data, base, gap, runs) && b != 0
    requires i < |Absorb(runs, base + |data|, gap)|
    ensures var r := Absorb(runs, base + |data|, gap)[i];
      Tight(data + [b], base, r) && Dense(data + [b], base, gap, r) && r.start >= base
  {
    var d, position := data + [b], base + |data|;
    var r := Absorb(runs, position, gap)[i];
    LiveAppend(data, base, b, position);
    AbsorbAt(runs, position, gap, i, r);
    if i == |runs| {
      Alone(d, base, gap, position);
    } else {
      RunAppend(data, base, gap, b, runs[i]);
      if r != runs[i] {
        assert Live(data, base, runs[i].end);
        Grow(d, base, gap, runs[i], position);
      }
    }
  }

  /** Each run stays, grows to the position when it is the last and near, or is the position alone. */
  lemma AbsorbAt(runs: seq<Run>, position: int, gap: int, i: nat, r: Run)
    requires i < |Absorb(runs, position, gap)| && r == Absorb(runs, position, gap)[i]
    ensures i <= |runs| && (i == |runs| ==> r == Run(position, position))
    ensures i < |runs| && r != runs[i] ==>
      i == |runs| - 1 && position - runs[i].end <= gap + 1 && r == Run(runs[i].start, position)
  {
  }

  lemma Alone(data: seq<byte>, base: int, gap: nat, p: int)
    requires Live(data, base, p)
    ensures Tight(data, base, Run(p, p)) && Dense(data, base, gap, Run(p, p))
  {
    assert gap == 0 ==> LiveWindow(data, base, p, gap);
  }

  lemma AbsorbCovers(data: seq<byte>, base: int, gap: nat, b: byte, runs: seq<Run>, p: int)
    requires Canonical(data, base, gap, runs) && b != 0
    requires Live(data + [b], base, p)
    ensures Covered(Absorb(runs, base + |data|, gap), p)
  {
    var out := Absorb(runs, base + |data|, gap);
    if p == base + |data| {
      assert out[|out| - 1].Has(p);
    } else {
      LiveAppend(data, base, b, p);
      var i := CoveredBy(runs, p);
      assert out[i].Has(p);
    }
  }

  lemma AbsorbSeparates(data: seq<byte>, base: int, gap: nat, runs: seq<Run>)
    requires Canonical(data, base, gap, runs)
    ensures Separated(gap, Absorb(runs, base + |data|, gap))
  {
    var out, last := Absorb(runs, base + |data|, gap), |runs| - 1;
    forall i, j | 0 <= i < j < |out| ensures out[j].start > out[i].end + gap + 1 {
      if j == |runs| {
        if i < last {
          assert runs[last].start > runs[i].end + gap + 1;
        }
      }
    }
  }

  lemma AbsorbCanonical(data: seq<byte>, base: int, gap: nat, b: byte, runs: seq<Run>)
    requires Canonical(data, base, gap, runs) && b != 0
    ensures Canonical(data + [b], base, gap, Absorb(runs, base + |data|, gap))
  {
    var out := Absorb(runs, base + |data|, gap);
    forall i | 0 <= i < |out|
      ensures Tight(data + [b], base, out[i]) && Dense(data + [b], base, gap, out[i]) && out[i].start >= base
    {
      AbsorbRuns(data, base, gap, b, runs, i);
    }
    AbsorbSeparates(data, base, gap, runs);
    forall p {:trigger Covered(out, p)} | p >= base && Live(data + [b], base, p) ensures Covered(out, p) {
      AbsorbCovers(data, base, gap, b, runs, p);
    }
  }

  lemma SkipCanonical(data: seq<byte>, base: int, gap: nat, runs: seq<Run>)
    requires Canonical(data, base, gap, runs)
    ensures Canonical(data + [0], base, gap, runs)
  {
    forall i | 0 <= i < |runs|
      ensures Tight(data + [0], base, runs[i]) && Dense(data + [0], base, gap, runs[i])
    {
      RunAppend(data, base, gap, 0, runs[i]);
    }
    forall p | p >= base && Live(data + [0], base, p) ensures Covered(runs, p) {
      LiveAppend(data, base, 0, p);
    }
  }

  lemma StepCanonical(data: seq<byte>, base: int, gap: nat, b: byte, runs: seq<Run>)
    requires Canonical(data, base, gap, runs)
    ensures Canonical(data + [b], base, gap, if b == 0 then runs else Absorb(runs, base + |data|, gap))
  {
    if b == 0 {
      SkipCanonical(data, base, gap, runs);
    } else {
      AbsorbCanonical(data, base, gap, b, runs);
    }
  }

  lemma RunsOfAppend(data: seq<byte>, base: int, gap: int, b: byte)
    ensures RunsOf(data + [b], base, gap)
      == var before := RunsOf(data, base, gap); if b == 0 then before else Absorb(before, base + |data|, gap)
  {
    assert (data + [b])[..|data|] == data;
  }

  lemma ExtendCanonical(data: seq<byte>, base: int, gap: nat, b: byte, whole: seq<byte>)
    requires whole == data + [b] && Canonical(data, base, gap, RunsOf(data, base, gap))
    ensures Canonical(whole, base, gap, RunsOf(whole, base, gap))
  {
    RunsOfAppend(data, base, gap, b);
    StepCanonical(data, base, gap, b, RunsOf(data, base, gap));
  }

  lemma {:induction false} PrefixCanonical(data: seq<byte>, base: int, gap: nat, n: nat)
    requires n <= |data|
    ensures Canonical(data[..n], base, gap, RunsOf(data[..n], base, gap))
  {
    if n != 0 {
      PrefixCanonical(data, base, gap, n - 1);
      assert data[..n] == data[..n - 1] + [data[n - 1]];
      ExtendCanonical(data[..n - 1], base, gap, data[n - 1], data[..n]);
    }
  }

  /** The ranges the loop builds keep the promise. */
  lemma RunsAreCanonical(data: seq<byte>, base: int, gap: nat)
    ensures Canonical(data, base, gap, RunsOf(data, base, gap))
  {
    PrefixCanonical(data, base, gap, |data|);
    assert data[..|data|] == data;
  }

  // ---- Uniqueness --------------------------------------------------------------------

  lemma CoveredBy(runs: seq<Run>, p: int) returns (i: nat)
    requires Covered(runs, p)
    ensures i < |runs| && runs[i].Has(p)
  {
    i :| 0 <= i < |runs| && runs[i].Has(p);
  }

  /** A dense run that reaches past `p` has a live byte among the next `gap + 1`. */
  lemma NextLive(data: seq<byte>, base: int, gap: nat, r: Run, p: int) returns (q: int)
    requires Tight(data, base, r) && Dense(data, base, gap, r)
    requires r.start <= p < r.end
    ensures p < q <= p + gap + 1 && q <= r.end && Live(data, base, q)
  {
    if p + 1 + gap <= r.end {
      assert LiveWindow(data, base, p + 1, gap);
      q :| p + 1 <= q <= p + 1 + gap && Live(data, base, q);
    } else {
      q := r.end;
    }
  }

  /** Runs may not end inside a run of another canonical list whose gap is no larger. */
  lemma EndsNotInside(data: seq<byte>, base: int, gap: nat, from: int, runs: seq<Run>, i: nat, small: nat, r: Run)
    requires CanonicalFrom(data, base, gap, from, runs) && i < |runs| && small <= gap
    requires Tight(data, base, r) && Dense(data, base, small, r)
    requires r.start <= runs[i].end
    ensures r.end <= runs[i].end
  {
    if runs[i].end < r.end {
      var q := NextLive(data, base, small, r, runs[i].end);
      var j := CoveredBy(runs, q);
      assert false;
    }
  }

  lemma FirstRunAgrees(data: seq<byte>, base: int, gap: nat, from: int, a: seq<Run>, b: seq<Run>)
    requires CanonicalFrom(data, base, gap, from, a) && CanonicalFrom(data, base, gap, from, b)
    requires a != []
    ensures b != [] && a[0].start >= b[0].start
  {
    var i := CoveredBy(b, a[0].start);
    if i > 0 {
      assert b[i].start > b[0].end;
    }
  }

  lemma TailCanonical(data: seq<byte>, base: int, gap: nat, from: int, a: seq<Run>)
    requires CanonicalFrom(data, base, gap, from, a) && a != []
    ensures CanonicalFrom(data, base, gap, a[0].end + 1, a[1..])
  {
    var t := a[1..];
    forall i | 0 <= i < |t| ensures t[i] == a[i + 1] && Tight(data, base, t[i]) && Dense(data, base, gap, t[i]) {
    }
    assert Separated(gap, t);
    forall p | p >= a[0].end + 1 && Live(data, base, p) ensures Covered(t, p) {
      TailCovers(a, p);
    }
  }

  lemma TailCovers(a: seq<Run>, p: int)
    requires a != [] && Covered(a, p) && p > a[0].end
    ensures Covered(a[1..], p)
  {
    var i := CoveredBy(a, p);
    assert a[1..][i - 1].Has(p);
  }

  /** The promise has one solution: any two lists that keep it are equal. */
  lemma {:induction false} CanonicalUnique(data: seq<byte>, base: int, gap: nat, from: int, a: seq<Run>, b: seq<Run>)
    requires CanonicalFrom(data, base, gap, from, a) && CanonicalFrom(data, base, gap, from, b)
    ensures a == b
    decreases |a|
  {
    if a == [] {
      if b != [] {
        FirstRunAgrees(data, base, gap, from, b, a);
      }
    } else {
      FirstRunAgrees(data, base, gap, from, a, b);
      FirstRunAgrees(data, base, gap, from, b, a);
      EndsNotInside(data, base, gap, from, a, 0, gap, b[0]);
      EndsNotInside(data, base, gap, from, b, 0, gap, a[0]);
      TailCanonical(data, base, gap, from, a);
      TailCanonical(data, base, gap, from, b);
      CanonicalUnique(data, base, gap, a[0].end + 1, a[1..], b[1..]);
      assert a == [a[0]] + a[1..] && b == [b[0]] + b[1..];
    }
  }

  /** The reported ranges are the only list with the promised properties. */
  lemma RunsUnique(data: seq<byte>, base: int, gap: nat, runs: seq<Run>)
    ensures Canonical(data, base, gap, runs) <==> runs == RunsOf(data, base, gap)
  {
    RunsAreCanonical(data, base, gap);
    if Canonical(data, base, gap, runs) {
      CanonicalUnique(data, base, gap, base, runs, RunsOf(data, base, gap));
    }
  }

  // ---- Consequences --------------------------------------------------------------------

  /** Enlarging the gap only merges: every fine run lies inside one coarse run. */
  lemma LargerGapMerges(data: seq<byte>, base: int, small: nat, large: nat, i: nat) returns (j: nat)
    requires small <= large && i < |RunsOf(data, base, small)|
    ensures var fine, coarse := RunsOf(data, base, small), RunsOf(data, base, large);
      j < |coarse| && coarse[j].start <= fine[i].start && fine[i].end <= coarse[j].end
  {
    RunsAreCanonical(data, base, small);
    RunsAreCanonical(data, base, large);
    var fine, coarse := RunsOf(data, base, small), RunsOf(data, base, large);
    j := CoveredBy(coarse, fine[i].start);
    EndsNotInside(data, base, large, base, coarse, j, small, fine[i]);
  }

  /** Conversely a coarse run begins where some fine run begins, and ends where some fine run ends. */
  lemma CoarseEndpoints(data: seq<byte>, base: int, small: nat, large: nat, j: nat) returns (i: nat, k: nat)
    requires small <= large && j < |RunsOf(data, base, large)|
    ensures var fine, coarse := RunsOf(data, base, small), RunsOf(data, base, large);
      i < |fine| && k < |fine| && fine[i].start == coarse[j].start && fine[k].end == coarse[j].end
  {
    RunsAreCanonical(data, base, small);
    RunsAreCanonical(data, base, large);
    var fine, coarse := RunsOf(data, base, small), RunsOf(data, base, large);
    i := CoveredBy(fine, coarse[j].start);
    k := CoveredBy(fine, coarse[j].end);
    var i' := LargerGapMerges(data, base, small, large, i);
    var k' := LargerGapMerges(data, base, small, large, k);
    assert i' == j && k' == j;
  }

  /** A position opens a run exactly when it is live and the `gap + 1` bytes before it are not. */
  lemma RunStarts(data: seq<byte>, base: int, gap: nat, p: int)
    ensures (exists r :: r in RunsOf(data, base, gap) && r.start == p)
      <==> Live(data, base, p) && !LiveWindow(data, base, p - gap - 1, gap)
  {
    RunsAreCanonical(data, base, gap);
    var runs := RunsOf(data, base, gap);
    if r :| r in runs && r.start == p {
      var i :| 0 <= i < |runs| && runs[i] == r;
      if LiveWindow(data, base, p - gap - 1, gap) {
        var q :| p - gap - 1 <= q <= p - 1 && Live(data, base, q);
        var j := CoveredBy(runs, q);
        assert false;
      }
    }
    if Live(data, base, p) && !LiveWindow(data, base, p - gap - 1, gap) {
      var i := CoveredBy(runs, p);
      if runs[i].start < p {
        assert false;
      }
      assert runs[i] in runs;
    }
  }
}
