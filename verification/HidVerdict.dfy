// The shape verdict drawn from the declared fields: keyboard, pointer or both.

module HidVerdict {
  import opened Bits
  import opened Options
  import opened HidParser
  import opened HidTheorems

  const PAGE_DESKTOP := 0x01
  const PAGE_KEYBOARD := 0x07
  const PAGE_BUTTON := 0x09
  const PAGE_CONSUMER := 0x0C

  datatype Verdict = Verdict(
    arrayUsages: nat, bitmapBits: nat, modifierByte: bool, relativeAxes: nat, buttons: nat, consumerFields: nat)
  {
    predicate LooksLikeKeyboard() {
      arrayUsages >= 4 && modifierByte
    }

    predicate LooksLikePointer() {
      relativeAxes >= 2
    }
  }

  const NOTHING := Verdict(0, 0, false, 0, 0, 0)

  predicate IsModifierByte(f: Field) {
    !f.isConstant && f.usagePage == PAGE_KEYBOARD && !f.isArray && f.usageMin == Some(0xE0) && f.usageMax == Some(0xE7)
  }

  predicate IsKeyArray(f: Field) {
    !f.isConstant && f.usagePage == PAGE_KEYBOARD && f.isArray
  }

  /** How many of the usages are X or Y. */
  function AxisUsages(usages: seq<nat>): nat {
    if usages == [] then 0
    else AxisUsages(usages[..|usages| - 1]) + if usages[|usages| - 1] in {0x30, 0x31} then 1 else 0
  }

  /** What one field says on its own. */
  function Evidence(f: Field): Verdict {
    if f.isConstant then NOTHING
    else if f.usagePage == PAGE_KEYBOARD then
      if f.isArray then NOTHING.(arrayUsages := f.count)
      else NOTHING.(bitmapBits := f.Bits(), modifierByte := IsModifierByte(f))
    else if f.usagePage == PAGE_DESKTOP && f.isRelative then NOTHING.(relativeAxes := AxisUsages(f.usages))
    else if f.usagePage == PAGE_BUTTON then NOTHING.(buttons := f.count)
    else if f.usagePage == PAGE_CONSUMER then NOTHING.(consumerFields := 1)
    else NOTHING
  }

  function Max(a: nat, b: nat): nat {
    if a >= b then a else b
  }

  function Merge(a: Verdict, b: Verdict): Verdict {
    Verdict(Max(a.arrayUsages, b.arrayUsages), a.bitmapBits + b.bitmapBits, a.modifierByte || b.modifierByte,
            a.relativeAxes + b.relativeAxes, a.buttons + b.buttons, a.consumerFields + b.consumerFields)
  }

  function VerdictOf(fields: seq<Field>): Verdict {
    if fields == [] then NOTHING
    else Merge(VerdictOf(fields[..|fields| - 1]), Evidence(fields[|fields| - 1]))
  }

  method CountAxes(usages: seq<nat>) returns (n: nat)
    ensures n == AxisUsages(usages)
  {
    n := 0;
    for i := 0 to |usages|
      invariant n == AxisUsages(usages[..i])
    {
      assert usages[..i + 1][..i] == usages[..i];
      if usages[i] == 0x30 || usages[i] == 0x31 {
        n := n + 1;
      }
    }
    assert usages[..|usages|] == usages;
  }

  method Judge(fields: seq<Field>) returns (v: Verdict)
    ensures v == VerdictOf(fields)
  {
    v := NOTHING;
    for i := 0 to |fields|
      invariant v == VerdictOf(fields[..i])
    {
      assert fields[..i + 1][..i] == fields[..i];
      v := Weigh(v, fields[i]);
    }
    assert fields[..|fields|] == fields;
  }

  /** The loop body: one field's effect on the six accumulators. */
  method Weigh(v: Verdict, entry: Field) returns (v': Verdict)
    ensures v' == Merge(v, Evidence(entry))
  {
    v' := v;
    if entry.isConstant {
      return;
    }
    if entry.usagePage == PAGE_KEYBOARD {
      if entry.isArray {
        v' := v.(arrayUsages := if v.arrayUsages >= entry.count then v.arrayUsages else entry.count);
      } else {
        v' := v.(bitmapBits := v.bitmapBits + entry.Bits());
        if entry.usageMin == Some(0xE0) && entry.usageMax == Some(0xE7) {
          v' := v'.(modifierByte := true);
        }
      }
    } else if entry.usagePage == PAGE_DESKTOP && entry.isRelative {
      var axes := CountAxes(entry.usages);
      v' := v.(relativeAxes := v.relativeAxes + axes);
    } else if entry.usagePage == PAGE_BUTTON {
      v' := v.(buttons := v.buttons + entry.count);
    } else if entry.usagePage == PAGE_CONSUMER {
      v' := v.(consumerFields := v.consumerFields + 1);
    }
  }

  // ---- What the verdict depends on -----------------------------------------------------

  lemma MergeAssociative(a: Verdict, b: Verdict, c: Verdict)
    ensures Merge(Merge(a, b), c) == Merge(a, Merge(b, c))
  {
  }

  lemma MergeNothing(v: Verdict)
    ensures Merge(v, NOTHING) == v && Merge(NOTHING, v) == v
  {
  }

  lemma VerdictLast(fields: seq<Field>, f: Field)
    ensures VerdictOf(fields + [f]) == Merge(VerdictOf(fields), Evidence(f))
  {
    assert (fields + [f])[..|fields|] == fields;
  }

  lemma {:induction false} VerdictConcat(a: seq<Field>, b: seq<Field>)
    ensures VerdictOf(a + b) == Merge(VerdictOf(a), VerdictOf(b))
    decreases |b|
  {
    if b == [] {
      assert a + b == a;
      MergeNothing(VerdictOf(a));
    } else {
      var b', f := b[..|b| - 1], b[|b| - 1];
      assert b == b' + [f];
      VerdictConcat(a, b');
      ConcatOneMore(a, b', f, VerdictOf(a), VerdictOf(b'), Evidence(f));
    }
  }

  lemma MergeLast(w: Verdict, x: Verdict, y: Verdict, e: Verdict, we: Verdict, ye: Verdict)
    requires w == Merge(x, y) && we == Merge(w, e) && ye == Merge(y, e)
    ensures we == Merge(x, ye)
  {
    MergeAssociative(x, y, e);
  }

  lemma ConcatOneMore(a: seq<Field>, b: seq<Field>, f: Field, x: Verdict, y: Verdict, e: Verdict)
    requires x == VerdictOf(a) && y == VerdictOf(b) && e == Evidence(f)
    requires VerdictOf(a + b) == Merge(x, y)
    ensures VerdictOf(a + (b + [f])) == Merge(x, VerdictOf(b + [f]))
  {
    var whole := (a + b) + [f];
    assert a + (b + [f]) == whole;
    VerdictLast(a + b, f);
    VerdictLast(b, f);
    MergeLast(VerdictOf(a + b), x, y, e, VerdictOf(whole), VerdictOf(b + [f]));
  }

  lemma MergeSwap(a: Verdict, e: Verdict, c: Verdict)
    ensures Merge(Merge(a, e), c) == Merge(e, Merge(a, c)) && Merge(NOTHING, a) == a
  {
  }

  function Without(fields: seq<Field>, i: nat): seq<Field>
    requires i < |fields|
  {
    fields[..i] + fields[i + 1..]
  }

  lemma SplitAt(fields: seq<Field>, i: nat)
    requires i < |fields|
    ensures fields[..i] + [fields[i]] + fields[i + 1..] == fields
  {
  }

  /** Any one field's evidence can be merged last. */
  lemma PullOut(fields: seq<Field>, i: nat)
    requires i < |fields|
    ensures VerdictOf(fields) == Merge(Evidence(fields[i]), VerdictOf(Without(fields, i)))
  {
    SplitAt(fields, i);
    PullMiddle(fields[..i], fields[i], fields[i + 1..]);
  }

  lemma PullMiddle(l: seq<Field>, f: Field, r: seq<Field>)
    ensures VerdictOf(l + [f] + r) == Merge(Evidence(f), VerdictOf(l + r))
  {
    calc {
      VerdictOf(l + [f] + r);
      { VerdictConcat(l + [f], r); }
      Merge(VerdictOf(l + [f]), VerdictOf(r));
      { VerdictLast(l, f); }
      Merge(Merge(VerdictOf(l), Evidence(f)), VerdictOf(r));
      { MergeSwap(VerdictOf(l), Evidence(f), VerdictOf(r)); }
      Merge(Evidence(f), Merge(VerdictOf(l), VerdictOf(r)));
      { VerdictConcat(l, r); }
      Merge(Evidence(f), VerdictOf(l + r));
    }
  }

  lemma WithoutOne(fields: seq<Field>, i: nat)
    requires i < |fields|
    ensures multiset(Without(fields, i)) == multiset(fields) - multiset{fields[i]}
  {
    assert fields == fields[..i] + [fields[i]] + fields[i + 1..];
  }

  /** Only which fields are declared matters, not their order. */
  lemma {:induction false} OrderIrrelevant(a: seq<Field>, b: seq<Field>)
    requires multiset(a) == multiset(b)
    ensures VerdictOf(a) == VerdictOf(b)
    decreases |a|
  {
    if a == [] {
      assert |multiset(b)| == 0;
    } else {
      assert a[0] in multiset(b);
      var i :| 0 <= i < |b| && b[i] == a[0];
      PullOut(a, 0);
      PullOut(b, i);
      WithoutOne(a, 0);
      WithoutOne(b, i);
      OrderIrrelevant(Without(a, 0), Without(b, i));
    }
  }

  ghost predicate HasKeyArray(fields: seq<Field>, n: nat) {
    exists f :: f in fields && IsKeyArray(f) && f.count >= n
  }

  ghost predicate HasModifierByte(fields: seq<Field>) {
    exists f :: f in fields && IsModifierByte(f)
  }

  lemma {:induction false} VerdictMeaning(fields: seq<Field>, n: nat)
    requires n > 0
    ensures VerdictOf(fields).arrayUsages >= n <==> HasKeyArray(fields, n)
    ensures VerdictOf(fields).modifierByte <==> HasModifierByte(fields)
    decreases |fields|
  {
    if fields != [] {
      var before, last := fields[..|fields| - 1], fields[|fields| - 1];
      VerdictMeaning(before, n);
      assert fields == before + [last];
      HasLast(before, last, n);
      VerdictLast(before, last);
    }
  }

  lemma HasLast(before: seq<Field>, last: Field, n: nat)
    ensures HasKeyArray(before + [last], n) <==> HasKeyArray(before, n) || (IsKeyArray(last) && last.count >= n)
    ensures HasModifierByte(before + [last]) <==> HasModifierByte(before) || IsModifierByte(last)
  {
    var fields := before + [last];
    assert forall f :: f in fields <==> f in before || f == last;
    if HasKeyArray(before, n) {
      var f :| f in before && IsKeyArray(f) && f.count >= n;
      assert f in fields;
    }
    if HasModifierByte(before) {
      var f :| f in before && IsModifierByte(f);
      assert f in fields;
    }
  }

  /** A keyboard declares a live key array of four or more usages and a modifier byte, anywhere. */
  lemma KeyboardMeaning(fields: seq<Field>)
    ensures VerdictOf(fields).LooksLikeKeyboard()
      <==> && (exists f :: f in fields && !f.isConstant && f.usagePage == 0x07 && f.isArray && f.count >= 4)
           && (exists f :: f in fields && !f.isConstant && f.usagePage == 0x07 && !f.isArray
                           && f.usageMin == Some(0xE0) && f.usageMax == Some(0xE7))
  {
    VerdictMeaning(fields, 4);
    forall f ensures IsKeyArray(f) <==> !f.isConstant && f.usagePage == 0x07 && f.isArray {
    }
    forall f
      ensures IsModifierByte(f)
        <==> !f.isConstant && f.usagePage == 0x07 && !f.isArray && f.usageMin == Some(0xE0) && f.usageMax == Some(0xE7)
    {
    }
  }

  // ---- The other counters --------------------------------------------------------------

  function SumOver(fields: seq<Field>, weight: Field -> nat): nat {
    if fields == [] then 0 else weight(fields[0]) + SumOver(fields[1..], weight)
  }

  lemma {:induction false} SumOverLast(fields: seq<Field>, f: Field, weight: Field -> nat)
    ensures SumOver(fields + [f], weight) == SumOver(fields, weight) + weight(f)
    decreases |fields|
  {
    if fields == [] {
      assert (fields + [f])[1..] == [];
    } else {
      assert (fields + [f])[1..] == fields[1..] + [f];
      SumOverLast(fields[1..], f, weight);
    }
  }

  function LiveButtons(f: Field): nat {
    if !f.isConstant && f.usagePage == 0x09 then f.count else 0
  }

  function LiveKeyBits(f: Field): nat {
    if !f.isConstant && f.usagePage == 0x07 && !f.isArray then f.count * f.size else 0
  }

  function LiveConsumer(f: Field): nat {
    if !f.isConstant && f.usagePage == 0x0C then 1 else 0
  }

  lemma EvidenceCounters(f: Field)
    ensures Evidence(f).buttons == LiveButtons(f) && Evidence(f).bitmapBits == LiveKeyBits(f)
    ensures Evidence(f).consumerFields == LiveConsumer(f)
  {
  }

  /** Buttons, key bits and consumer fields are totals over the live fields of their pages. */
  lemma {:induction false} CountersMeaning(fields: seq<Field>)
    ensures VerdictOf(fields).buttons == SumOver(fields, LiveButtons)
    ensures VerdictOf(fields).bitmapBits == SumOver(fields, LiveKeyBits)
    ensures VerdictOf(fields).consumerFields == SumOver(fields, LiveConsumer)
    decreases |fields|
  {
    if fields != [] {
      var before, last := fields[..|fields| - 1], fields[|fields| - 1];
      assert fields == before + [last];
      CountersMeaning(before);
      VerdictLast(before, last);
      EvidenceCounters(last);
      SumOverLast(before, last, LiveButtons);
      SumOverLast(before, last, LiveKeyBits);
      SumOverLast(before, last, LiveConsumer);
    }
  }

  // ---- Pointers ------------------------------------------------------------------------

  predicate IsAxisField(f: Field) {
    !f.isConstant && f.usagePage == PAGE_DESKTOP && f.isRelative
  }

  /** The X and Y usages among a list, by position. */
  function AxisSlots(usages: seq<nat>): set<nat> {
    set j | 0 <= j < |usages| && usages[j] in {0x30, 0x31}
  }

  function SlotsOf(f: Field): set<nat> {
    if IsAxisField(f) then AxisSlots(f.usages) else {}
  }

  /** All axis usages of all fields, by field and position. */
  function Axes(fields: seq<Field>): set<(nat, nat)> {
    if fields == [] then {}
    else Axes(fields[..|fields| - 1]) + Tagged(|fields| - 1, SlotsOf(fields[|fields| - 1]))
  }

  function Tagged(n: nat, slots: set<nat>): set<(nat, nat)> {
    set j | j in slots :: (n, j)
  }

  lemma {:induction false} TaggedSize(n: nat, slots: set<nat>)
    ensures |Tagged(n, slots)| == |slots|
  {
    if slots != {} {
      var j :| j in slots;
      TaggedSize(n, slots - {j});
      assert Tagged(n, slots) == Tagged(n, slots - {j}) + {(n, j)};
    }
  }

  lemma {:induction false} SlotCount(usages: seq<nat>)
    ensures |AxisSlots(usages)| == AxisUsages(usages)
    decreases |usages|
  {
    if usages != [] {
      var n := |usages| - 1;
      SlotCount(usages[..n]);
      assert AxisSlots(usages) == AxisSlots(usages[..n]) + if usages[n] in {0x30, 0x31} then {n} else {};
    }
  }

  lemma {:induction false} AxesMember(fields: seq<Field>, i: nat, j: nat)
    ensures (i, j) in Axes(fields) <==> i < |fields| && j in SlotsOf(fields[i])
    decreases |fields|
  {
    if fields != [] {
      AxesMember(fields[..|fields| - 1], i, j);
    }
  }

  lemma EvidenceAxes(f: Field)
    ensures Evidence(f).relativeAxes == |SlotsOf(f)|
  {
    SlotCount(f.usages);
  }

  lemma AxesLast(before: seq<Field>, last: Field)
    ensures |Axes(before + [last])| == |Axes(before)| + |SlotsOf(last)|
  {
    var n := |before|;
    assert (before + [last])[..n] == before;
    TaggedSize(n, SlotsOf(last));
    forall j: nat ensures (n, j) !in Axes(before) {
      AxesMember(before, n, j);
    }
    assert Axes(before) !! Tagged(n, SlotsOf(last));
  }

  /** The accumulator counts exactly the X and Y usages of live relative desktop fields. */
  lemma {:induction false} AxesCounted(fields: seq<Field>)
    ensures VerdictOf(fields).relativeAxes == |Axes(fields)|
    decreases |fields|
  {
    if fields != [] {
      var before, last := fields[..|fields| - 1], fields[|fields| - 1];
      assert fields == before + [last];
      AxesCounted(before);
      EvidenceAxes(last);
      AxesLast(before, last);
      VerdictLast(before, last);
    }
  }

  lemma TwoMembers<T>(s: set<T>)
    ensures |s| >= 2 <==> exists x, y :: x in s && y in s && x != y
  {
    if |s| >= 2 {
      var x :| x in s;
      assert |s - {x}| >= 1;
      var y :| y in s - {x};
    }
    if x, y :| x in s && y in s && x != y {
      assert {x, y} <= s;
      assert |s - {x, y}| == |s| - 2;
    }
  }

  predicate AxisAt(fields: seq<Field>, i: nat, j: nat) {
    && i < |fields| && !fields[i].isConstant && fields[i].usagePage == 0x01 && fields[i].isRelative
    && j < |fields[i].usages| && fields[i].usages[j] in {0x30, 0x31}
  }

  /** A pointer declares two X or Y usages in live relative desktop fields, in one field or in two. */
  lemma PointerMeaning(fields: seq<Field>)
    ensures VerdictOf(fields).LooksLikePointer()
      <==> exists i: nat, j: nat, i': nat, j': nat ::
        AxisAt(fields, i, j) && AxisAt(fields, i', j') && (i, j) != (i', j')
  {
    AxesCounted(fields);
    TwoMembers(Axes(fields));
    forall i: nat, j: nat ensures (i, j) in Axes(fields) <==> AxisAt(fields, i, j) {
      AxesMember(fields, i, j);
    }
    if x, y :| x in Axes(fields) && y in Axes(fields) && x != y {
      assert AxisAt(fields, x.0, x.1) && AxisAt(fields, y.0, y.1);
    }
  }

  /** More fields can only add evidence. */
  lemma VerdictMonotone(a: seq<Field>, b: seq<Field>)
    requires a <= b
    ensures VerdictOf(a).LooksLikeKeyboard() ==> VerdictOf(b).LooksLikeKeyboard()
    ensures VerdictOf(a).LooksLikePointer() ==> VerdictOf(b).LooksLikePointer()
  {
    assert b == a + b[|a|..];
    VerdictConcat(a, b[|a|..]);
  }

  /** Truncating a captured descriptor may hide a keyboard or a pointer but never invents one. */
  lemma TruncationNeverInvents(d: seq<byte>, n: nat)
    requires n <= |d|
    ensures var cut, full := VerdictOf(ParseOf(d[..n]).fields), VerdictOf(ParseOf(d).fields);
      && (cut.LooksLikeKeyboard() ==> full.LooksLikeKeyboard())
      && (cut.LooksLikePointer() ==> full.LooksLikePointer())
  {
    TruncatedParse(d, n);
    VerdictMonotone(ParseOf(d[..n]).fields, ParseOf(d).fields);
  }
}
