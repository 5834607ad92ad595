// What the interpreter guarantees over whole descriptors.

module HidTheorems {
  import opened Bits
  import opened Options
  import opened HidParser

  // ---- Truncation and extension ----------------------------------------------------------

  lemma ReadTruncated(d: seq<byte>, n: nat, i: nat)
    requires i < n <= |d|
    ensures ReadAt(d[..n], i) == ReadAt(d, i) || ReadAt(d[..n], i) == Stop
  {
    var size := PayloadSize(d[i]);
    if d[i] != LONG_ITEM && i + 1 + size <= n {
      assert d[..n][i + 1..i + 1 + size] == d[i + 1..i + 1 + size];
    }
  }

  lemma {:induction false} ItemsTruncated(d: seq<byte>, n: nat, i: nat)
    requires n <= |d|
    ensures ItemsFrom(d[..n], i) <= ItemsFrom(d, i)
    decreases |d| - i
  {
    if i < n {
      ReadTruncated(d, n, i);
      var r := ReadAt(d[..n], i);
      if !r.Stop? {
        ItemsTruncated(d, n, r.next);
      }
    }
  }

  /** `b` continues `a`: old collections are frozen, only the last one may have grown. */
  ghost predicate Extends(a: State, b: State) {
    && a.fields <= b.fields
    && |a.collections| <= |b.collections|
    && (forall i :: 0 <= i < |a.collections| ==> Grown(a.collections[i], b.collections[i]))
    && (forall i :: 0 <= i < |a.collections| - 1 ==> a.collections[i] == b.collections[i])
  }

  predicate Grown(a: TopLevel, b: TopLevel) {
    a.usagePage == b.usagePage && a.usage == b.usage && a.fields <= b.fields
  }

  lemma {:induction false} RunExtends(s: State, items: seq<Item>)
    ensures Extends(s, Run(s, items))
    decreases |items|
  {
    if items != [] {
      var t := Step(s, items[0]);
      assert Extends(s, t);
      RunExtends(t, items[1..]);
    }
  }

  /** Cutting a descriptor anywhere yields a prefix of everything the full one yields. */
  lemma TruncatedParse(d: seq<byte>, n: nat)
    requires n <= |d|
    ensures Extends(ParseOf(d[..n]), ParseOf(d))
  {
    ItemsTruncated(d, n, 0);
    var cut, full := Items(d[..n]), Items(d);
    assert full == cut + full[|cut|..];
    RunConcat(INITIAL, cut, full[|cut|..]);
    RunExtends(Run(INITIAL, cut), full[|cut|..]);
  }

  /** The byte after the last item that the walk consumed whole. */
  function WalkEnd(d: seq<byte>, i: nat): nat
    decreases |d| - i
  {
    if i >= |d| then i
    else match ReadAt(d, i)
      case Stop => i
      case Skip(next) => WalkEnd(d, next)
      case Emit(_, next) => WalkEnd(d, next)
  }

  predicate OnBoundary(d: seq<byte>) {
    WalkEnd(d, 0) == |d|
  }

  /** What is read at `i`, moved `lead` bytes further on. */
  function Moved(r: Next, lead: nat): Next {
    match r
    case Stop => Stop
    case Skip(next) => Skip(lead + next)
    case Emit(item, next) => Emit(item, lead + next)
  }

  lemma ReadShift(w: seq<byte>, e: seq<byte>, lead: nat, i: nat)
    requires i < |e| && |w| == lead + |e| && w[lead..] == e
    ensures ReadAt(w, lead + i) == Moved(ReadAt(e, i), lead)
  {
    assert forall j :: 0 <= j < |e| ==> w[lead + j] == w[lead..][j];
    var size := PayloadSize(e[i]);
    if e[i] == LONG_ITEM {
      assert i + 1 < |e| ==> w[lead + (i + 1)] == e[i + 1];
    } else if i + 1 + size <= |e| {
      assert w[lead + i + 1..lead + i + 1 + size] == e[i + 1..i + 1 + size];
    }
  }

  lemma SameItems(w: seq<byte>, k: nat, s: Next, e: seq<byte>, i: nat, r: Next, lead: nat)
    requires i < |e| && r == ReadAt(e, i) && k < |w| && s == ReadAt(w, k) && s == Moved(r, lead)
    requires !r.Stop? ==> ItemsFrom(w, s.next) == ItemsFrom(e, r.next)
    ensures ItemsFrom(w, k) == ItemsFrom(e, i)
  {
    ItemsUnfold(e, i, r);
    ItemsUnfold(w, k, s);
  }

  lemma {:induction false} ItemsShift(w: seq<byte>, e: seq<byte>, lead: nat, i: nat)
    requires |w| == lead + |e| && w[lead..] == e
    ensures ItemsFrom(w, lead + i) == ItemsFrom(e, i)
    decreases |e| - i
  {
    if i < |e| {
      var r := ReadAt(e, i);
      ReadShift(w, e, lead, i);
      if !r.Stop? {
        ItemsShift(w, e, lead, r.next);
      }
      SameItems(w, lead + i, Moved(r, lead), e, i, r, lead);
    }
  }

  lemma {:induction false} ItemsAppend(d: seq<byte>, e: seq<byte>, i: nat)
    requires WalkEnd(d, i) == |d|
    ensures ItemsFrom(d + e, i) == ItemsFrom(d, i) + ItemsFrom(e, 0)
    decreases |d| - i
  {
    if i < |d| {
      assert (d + e)[..|d|] == d;
      ReadTruncated(d + e, |d|, i);
      var r := ReadAt(d, i);
      ItemsAppend(d, e, r.next);
      ItemsUnfold(d, i, r);
      ItemsUnfold(d + e, i, r);
    } else {
      ItemsShift(d + e, e, |d|, 0);
    }
  }

  /** Bytes appended at an item boundary are parsed as if the interpreter had simply gone on. */
  lemma AppendedParse(d: seq<byte>, e: seq<byte>)
    requires OnBoundary(d)
    ensures ParseOf(d + e) == Run(ParseOf(d), Items(e))
  {
    ItemsAppend(d, e, 0);
    RunConcat(INITIAL, Items(d), Items(e));
  }

  /** A long item is skipped whole, whatever its tag and its data. */
  lemma LongItemSkipped(tag: byte, data: seq<byte>, rest: seq<byte>)
    requires |data| < 256
    ensures Items([0xFE, |data|, tag] + data + rest) == Items(rest)
  {
    var d := [0xFE, |data|, tag] + data;
    assert ReadAt(d, 0) == Skip(|d|);
    assert ItemsFrom(d, |d|) == [] && WalkEnd(d, |d|) == |d|;
    ItemsAppend(d, rest, 0);
    assert [] + Items(rest) == Items(rest);
  }

  /** A short item's payload is 0, 1, 2 or 4 bytes, by the low two bits of its prefix. */
  lemma ShortItemRead(prefix: byte, payload: seq<byte>, rest: seq<byte>)
    requires prefix != 0xFE && |payload| == [0, 1, 2, 4][prefix % 4]
    ensures Items([prefix] + payload + rest) == [ItemOf(prefix, payload)] + Items(rest)
  {
    var d := [prefix] + payload;
    assert d[1..1 + |payload|] == payload;
    assert ReadAt(d, 0) == Emit(ItemOf(prefix, payload), |d|);
    assert ItemsFrom(d, |d|) == [] && WalkEnd(d, |d|) == |d|;
    ItemsAppend(d, rest, 0);
  }

  /** Which prefix bytes are which items, whatever the payload's size. */
  lemma PrefixMeaning(prefix: byte, payload: seq<byte>, tag: nat)
    requires tag < 16
    ensures var item, base := ItemOf(prefix, payload), prefix as int - prefix as int % 4;
      && (IsInput(item) <==> base == 0x80)
      && (IsCollection(item) <==> base == 0xA0)
      && (IsEndCollection(item) <==> base == 0xC0)
      && (item.kind == TYPE_MAIN && item.tag == tag <==> base == 0x10 * tag)
      && (item.kind == TYPE_GLOBAL && item.tag == tag <==> base == 0x10 * tag + 4)
      && (item.kind == TYPE_LOCAL && item.tag == tag <==> base == 0x10 * tag + 8)
  {
    PrefixDigits(prefix, prefix / 16, prefix / 4 % 4);
  }

  lemma PrefixDigits(prefix: int, high: int, middle: int)
    requires 0 <= prefix < 256 && high == prefix / 16 && middle == prefix / 4 % 4
    ensures prefix - prefix % 4 == 16 * high + 4 * middle && 0 <= middle < 4
  {
  }

  /** A short item cut off inside its payload, or a long item without its length byte, ends the parse. */
  lemma CutItemStops(prefix: byte, payload: seq<byte>)
    requires prefix != 0xFE && |payload| < [0, 1, 2, 4][prefix % 4]
    ensures Items([prefix] + payload) == [] && Items([0xFE]) == []
  {
    assert ReadAt([prefix] + payload, 0) == Stop && ReadAt([0xFE], 0) == Stop;
  }

  // ---- Report geometry -----------------------------------------------------------------------

  /** Bits of the given report declared by the first `k` fields. */
  function ReportBits(fields: seq<Field>, id: nat, k: nat): nat
    requires k <= |fields|
  {
    if k == 0 then 0
    else ReportBits(fields, id, k - 1) + if fields[k - 1].reportId == id then fields[k - 1].Bits() else 0
  }

  /** Where a field starts inside its own report. */
  function BitOffset(fields: seq<Field>, k: nat): nat
    requires k < |fields|
  {
    ReportBits(fields, fields[k].reportId, k)
  }

  lemma {:induction false} ReportBitsPrefix(a: seq<Field>, b: seq<Field>, id: nat, k: nat)
    requires a <= b && k <= |a|
    ensures ReportBits(a, id, k) == ReportBits(b, id, k)
    ensures ReportBits(b, id, k) <= ReportBits(b, id, |b|)
    decreases |b| - k, k
  {
    if k < |b| {
      ReportBitsGrow(b, id, k, |b|);
    }
    ReportBitsSame(a, b, id, k);
  }

  lemma {:induction false} ReportBitsSame(a: seq<Field>, b: seq<Field>, id: nat, k: nat)
    requires a <= b && k <= |a|
    ensures ReportBits(a, id, k) == ReportBits(b, id, k)
  {
    if k != 0 {
      ReportBitsSame(a, b, id, k - 1);
    }
  }

  lemma {:induction false} ReportBitsGrow(b: seq<Field>, id: nat, k: nat, n: nat)
    requires k <= n <= |b|
    ensures ReportBits(b, id, k) <= ReportBits(b, id, n)
  {
    if k < n {
      ReportBitsGrow(b, id, k, n - 1);
    }
  }

  /** Whatever is appended, wherever the descriptor was cut, declared fields keep their bit offsets
      and new ones start at or after the old end of their report. */
  lemma AppendKeepsLayout(d: seq<byte>, e: seq<byte>, k: nat, id: nat)
    ensures ParseOf(d).fields <= ParseOf(d + e).fields
    ensures k < |ParseOf(d).fields| ==> BitOffset(ParseOf(d + e).fields, k) == BitOffset(ParseOf(d).fields, k)
    ensures var a, b := ParseOf(d).fields, ParseOf(d + e).fields;
      ReportBits(a, id, |a|) <= ReportBits(b, id, |b|)
    ensures var a, b := ParseOf(d).fields, ParseOf(d + e).fields;
      |a| <= k < |b| ==> BitOffset(b, k) >= ReportBits(a, b[k].reportId, |a|)
  {
    assert (d + e)[..|d|] == d;
    TruncatedParse(d + e, |d|);
    var a, b := ParseOf(d).fields, ParseOf(d + e).fields;
    ReportBitsPrefix(a, b, id, |a|);
    if k < |a| {
      ReportBitsSame(a, b, a[k].reportId, k);
    } else if k < |b| {
      ReportBitsSame(a, b, b[k].reportId, |a|);
      ReportBitsGrow(b, b[k].reportId, |a|, k);
    }
  }

  // ---- What a field carries ---------------------------------------------------------------------

  /** Looking back from the end: the latest item of the given type and tag. */
  function Latest(items: seq<Item>, kind: nat, tag: nat): Option<Item> {
    if items == [] then None
    else if items[|items| - 1].kind == kind && items[|items| - 1].tag == tag then Some(items[|items| - 1])
    else Latest(items[..|items| - 1], kind, tag)
  }

  /** The items after the last Main item of any kind. */
  function SinceMain(items: seq<Item>): seq<Item> {
    if items == [] || items[|items| - 1].kind == TYPE_MAIN then []
    else SinceMain(items[..|items| - 1]) + [items[|items| - 1]]
  }

  function UsageValues(items: seq<Item>): seq<nat> {
    if items == [] then []
    else
      var last := items[|items| - 1];
      UsageValues(items[..|items| - 1]) + if last.kind == TYPE_LOCAL && last.tag == 0 then [last.value] else []
  }

  function LatestValue(items: seq<Item>, kind: nat, tag: nat): Option<nat> {
    match Latest(items, kind, tag) case None => None case Some(i) => Some(i.value)
  }

  function ValueOr0(items: seq<Item>, tag: nat): nat {
    match Latest(items, TYPE_GLOBAL, tag) case None => 0 case Some(i) => i.value
  }

  function SignedOr0(items: seq<Item>, tag: nat): int {
    match Latest(items, TYPE_GLOBAL, tag) case None => 0 case Some(i) => i.signed
  }

  /** The field an Input item declares, by looking back over the items before it. */
  function Declared(before: seq<Item>, input: Item): Field {
    var locals := SinceMain(before);
    Field(ValueOr0(before, 0x8), ValueOr0(before, 0x0),
          UsageValues(locals), LatestValue(locals, TYPE_LOCAL, 0x1), LatestValue(locals, TYPE_LOCAL, 0x2),
          ValueOr0(before, 0x9), ValueOr0(before, 0x7),
          input.value / 2 % 2 == 0, input.value % 2 == 1,
          SignedOr0(before, 0x1), SignedOr0(before, 0x2), input.value / 4 % 2 == 1)
  }

  function DeclaredFields(items: seq<Item>): seq<Field> {
    if items == [] then []
    else
      var before, last := items[..|items| - 1], items[|items| - 1];
      DeclaredFields(before) + if IsInput(last) then [Declared(before, last)] else []
  }

  lemma LatestAppend(items: seq<Item>, item: Item, kind: nat, tag: nat)
    ensures Latest(items + [item], kind, tag)
      == if item.kind == kind && item.tag == tag then Some(item) else Latest(items, kind, tag)
  {
    assert (items + [item])[..|items|] == items;
  }

  lemma SinceMainAppend(items: seq<Item>, item: Item)
    ensures SinceMain(items + [item]) == if item.kind == TYPE_MAIN then [] else SinceMain(items) + [item]
  {
    assert (items + [item])[..|items|] == items;
  }

  lemma UsageValuesAppend(items: seq<Item>, item: Item)
    ensures UsageValues(items + [item])
      == UsageValues(items) + if item.kind == TYPE_LOCAL && item.tag == 0 then [item.value] else []
  {
    assert (items + [item])[..|items|] == items;
  }

  function GlobalsOf(items: seq<Item>): Globals {
    Globals(ValueOr0(items, 0x0), SignedOr0(items, 0x1), SignedOr0(items, 0x2),
            ValueOr0(items, 0x7), ValueOr0(items, 0x8), ValueOr0(items, 0x9))
  }

  function LocalsOf(items: seq<Item>): Locals {
    var locals := SinceMain(items);
    Locals(UsageValues(locals), LatestValue(locals, TYPE_LOCAL, 0x1), LatestValue(locals, TYPE_LOCAL, 0x2))
  }

  lemma GlobalsAppend(items: seq<Item>, item: Item)
    ensures GlobalsOf(items + [item]) == GlobalStep(GlobalsOf(items), item)
  {
    LatestAppend(items, item, TYPE_GLOBAL, 0x0);
    LatestAppend(items, item, TYPE_GLOBAL, 0x1);
    LatestAppend(items, item, TYPE_GLOBAL, 0x2);
    LatestAppend(items, item, TYPE_GLOBAL, 0x7);
    LatestAppend(items, item, TYPE_GLOBAL, 0x8);
    LatestAppend(items, item, TYPE_GLOBAL, 0x9);
  }

  lemma LocalsAppend(items: seq<Item>, item: Item)
    ensures LocalsOf(items + [item]) == LocalStep(LocalsOf(items), item)
  {
    SinceMainAppend(items, item);
    LatestAppend(SinceMain(items), item, TYPE_LOCAL, 0x1);
    LatestAppend(SinceMain(items), item, TYPE_LOCAL, 0x2);
    UsageValuesAppend(SinceMain(items), item);
  }

  /** Every field carries exactly the usages since the previous Main item and the latest globals before it. */
  lemma {:induction false} FieldsAreDeclared(items: seq<Item>)
    ensures Run(INITIAL, items).fields == DeclaredFields(items)
    ensures Run(INITIAL, items).globals == GlobalsOf(items) && Run(INITIAL, items).locals == LocalsOf(items)
    decreases |items|
  {
    if items != [] {
      var before, last := items[..|items| - 1], items[|items| - 1];
      assert items == before + [last];
      FieldsAreDeclared(before);
      RunOne(INITIAL, before, last);
      GlobalsAppend(before, last);
      LocalsAppend(before, last);
    }
  }

  lemma {:induction false} SinceMainCut(p: seq<Item>, m: Item, q: seq<Item>)
    requires m.kind == TYPE_MAIN
    ensures SinceMain(p + [m] + q) == SinceMain(q)
    decreases |q|
  {
    var w := p + [m] + q;
    if q == [] {
      assert w[|w| - 1] == m;
    } else {
      var q' := q[..|q| - 1];
      assert w[..|w| - 1] == p + [m] + q' && w[|w| - 1] == q[|q| - 1];
      SinceMainCut(p, m, q');
    }
  }

  /** No usage leaks across a Main item: what precedes it cannot influence the locals that follow. */
  lemma NoLeakAcrossMain(p: seq<Item>, p': seq<Item>, m: Item, m': Item, q: seq<Item>)
    requires m.kind == m'.kind == TYPE_MAIN
    ensures Run(INITIAL, p + [m] + q).locals == Run(INITIAL, p' + [m'] + q).locals
  {
    FieldsAreDeclared(p + [m] + q);
    FieldsAreDeclared(p' + [m'] + q);
    SinceMainCut(p, m, q);
    SinceMainCut(p', m', q);
  }

  /** Items the tool does not understand. */
  predicate Ignored(item: Item) {
    || item.kind == 3
    || (item.kind == TYPE_GLOBAL && item.tag !in {0x0, 0x1, 0x2, 0x7, 0x8, 0x9})
    || (item.kind == TYPE_LOCAL && item.tag !in {0x0, 0x1, 0x2})
  }

  function WithoutIgnored(items: seq<Item>): seq<Item>
    decreases |items|
  {
    if items == [] then []
    else (if Ignored(items[0]) then [] else [items[0]]) + WithoutIgnored(items[1..])
  }

  /** Skipping an unknown item is the same as its never having been there. */
  lemma {:induction false} IgnoredItemsIrrelevant(s: State, items: seq<Item>)
    ensures Run(s, items) == Run(s, WithoutIgnored(items))
    decreases |items|
  {
    if items != [] {
      var rest := WithoutIgnored(items[1..]);
      IgnoredItemsIrrelevant(Step(s, items[0]), items[1..]);
      if Ignored(items[0]) {
        assert Step(s, items[0]) == s;
        assert WithoutIgnored(items) == [] + rest == rest;
      } else {
        assert ([items[0]] + rest)[1..] == rest;
      }
    }
  }

  // ---- Collections ---------------------------------------------------------------------------------

  function Flatten(cs: seq<TopLevel>): seq<Field> {
    if cs == [] then [] else Flatten(cs[..|cs| - 1]) + cs[|cs| - 1].fields
  }

  /** The items before the first Collection item. */
  function Preamble(items: seq<Item>): (p: seq<Item>)
    ensures |p| <= |items|
    decreases |items|
  {
    if items == [] || IsCollection(items[0]) then [] else [items[0]] + Preamble(items[1..])
  }

  lemma {:induction false} PreambleAppend(items: seq<Item>, item: Item)
    ensures Preamble(items + [item])
      == if Preamble(items) == items && !IsCollection(item) then items + [item] else Preamble(items)
    decreases |items|
  {
    if items != [] {
      assert (items + [item])[1..] == items[1..] + [item];
      PreambleAppend(items[1..], item);
      assert Preamble(items) == items ==> Preamble(items[1..]) == items[1..];
    } else {
      assert [item][1..] == [];
    }
  }

  lemma FlattenAppend(cs: seq<TopLevel>, c: TopLevel)
    ensures Flatten(cs + [c]) == Flatten(cs) + c.fields
  {
    assert (cs + [c])[..|cs|] == cs;
  }

  lemma FlattenAdd(cs: seq<TopLevel>, f: Field)
    requires cs != []
    ensures Flatten(AddToLast(cs, f)) == Flatten(cs) + [f]
  {
    var init, last := cs[..|cs| - 1], cs[|cs| - 1];
    assert AddToLast(cs, f)[..|cs| - 1] == init;
  }

  /** The flat list is the inputs seen before any collection, then each collection's own list in order. */
  lemma {:induction false} FieldsPartition(items: seq<Item>)
    ensures var s := Run(INITIAL, items);
      && s.fields == DeclaredFields(Preamble(items)) + Flatten(s.collections)
      && (s.collections == [] <==> Preamble(items) == items)
      && (s.collections == [] ==> s.depth == 0)
    decreases |items|
  {
    if items != [] {
      var before, last := items[..|items| - 1], items[|items| - 1];
      var s := Run(INITIAL, before);
      assert items == before + [last];
      FieldsPartition(before);
      RunOne(INITIAL, before, last);
      PreambleAppend(before, last);
      FieldsAreDeclared(items);
      FlattenStep(s, last);
      if s.collections != [] {
        var a, b := DeclaredFields(Preamble(before)), Flatten(s.collections);
        assert (a + b) + NewField(s, last) == a + (b + NewField(s, last));
      }
    }
  }

  function NewField(s: State, item: Item): seq<Field> {
    if IsInput(item) then [MakeField(s.globals, s.locals, item)] else []
  }

  lemma FlattenStep(s: State, item: Item)
    ensures Step(s, item).fields == s.fields + NewField(s, item)
    ensures Step(s, item).collections == [] <==> s.collections == [] && !(IsCollection(item) && s.depth == 0)
    ensures Flatten(Step(s, item).collections)
      == Flatten(s.collections) + if s.collections == [] then [] else NewField(s, item)
  {
    if IsCollection(item) && s.depth == 0 {
      var usage := if s.locals.usages != [] then s.locals.usages[0] else 0;
      FlattenAppend(s.collections, TopLevel(s.globals.usagePage, usage, []));
    } else if IsInput(item) && s.collections != [] {
      FlattenAdd(s.collections, MakeField(s.globals, s.locals, item));
    }
  }

  // ---- Depth -------------------------------------------------------------------------------------------

  function Change(item: Item): int {
    if IsCollection(item) then 1 else if IsEndCollection(item) then -1 else 0
  }

  /** Collections opened minus collections closed. */
  function Net(items: seq<Item>): int {
    if items == [] then 0
    else
      var last := items[|items| - 1];
      Net(items[..|items| - 1]) + Change(last)
  }

  lemma NetAppend(items: seq<Item>, item: Item)
    ensures Net(items + [item]) == Net(items) + Change(item)
  {
    assert (items + [item])[..|items|] == items;
  }

  ghost predicate Reaches(items: seq<Item>, depth: int) {
    exists j :: 0 <= j <= |items| && Net(items[j..]) == depth
  }

  /** The clamped depth is the greatest net opening of any suffix. */
  lemma {:induction false} DepthIsGreatestSuffix(items: seq<Item>)
    ensures forall j :: 0 <= j <= |items| ==> Net(items[j..]) <= Run(INITIAL, items).depth
    ensures Reaches(items, Run(INITIAL, items).depth)
    decreases |items|
  {
    if items == [] {
      assert items[0..] == [];
    } else {
      var before, last := items[..|items| - 1], items[|items| - 1];
      assert items == before + [last];
      DepthIsGreatestSuffix(before);
      DepthAfter(before, last);
      var depth := Run(INITIAL, items).depth;
      assert items[|items|..] == [];
      forall j | 0 <= j <= |items| ensures Net(items[j..]) <= depth {
        if j < |items| {
          NetOfSuffix(before, last, j);
        }
      }
      var j :| 0 <= j <= |before| && Net(before[j..]) == Run(INITIAL, before).depth;
      NetOfSuffix(before, last, j);
      if Net(items[j..]) != depth {
        assert Net(items[|items|..]) == depth;
      }
    }
  }

  lemma NetOfSuffix(before: seq<Item>, last: Item, j: nat)
    requires j <= |before|
    ensures Net((before + [last])[j..]) == Net(before[j..]) + Change(last)
  {
    assert (before + [last])[j..] == before[j..] + [last];
    NetAppend(before[j..], last);
  }

  lemma DepthAfter(before: seq<Item>, last: Item)
    ensures var was, now := Run(INITIAL, before).depth, Run(INITIAL, before + [last]).depth;
      now == if was + Change(last) < 0 then 0 else was + Change(last)
  {
    RunOne(INITIAL, before, last);
  }

  /** Collection items met with nothing open. */
  function TopLevelOpens(items: seq<Item>): nat {
    if items == [] then 0
    else
      var before, last := items[..|items| - 1], items[|items| - 1];
      TopLevelOpens(before) + if IsCollection(last) && Run(INITIAL, before).depth == 0 then 1 else 0
  }

  /** There is exactly one collection per Collection item met at depth zero. */
  lemma {:induction false} OneCollectionPerTopLevelOpen(items: seq<Item>)
    ensures |Run(INITIAL, items).collections| == TopLevelOpens(items)
    decreases |items|
  {
    if items != [] {
      var before, last := items[..|items| - 1], items[|items| - 1];
      assert items == before + [last];
      OneCollectionPerTopLevelOpen(before);
      RunOne(INITIAL, before, last);
    }
  }

  // ---- Collection headers --------------------------------------------------------------------------------

  /** Page and usage of the collections opened at depth zero, looking back over the items before each. */
  function DeclaredHeads(items: seq<Item>): seq<(nat, nat)> {
    if items == [] then []
    else
      var before, last := items[..|items| - 1], items[|items| - 1];
      var usages := UsageValues(SinceMain(before));
      DeclaredHeads(before)
      + if IsCollection(last) && Run(INITIAL, before).depth == 0
        then [(ValueOr0(before, 0x0), if usages != [] then usages[0] else 0)] else []
  }

  function Heads(cs: seq<TopLevel>): seq<(nat, nat)> {
    seq(|cs|, i requires 0 <= i < |cs| => (cs[i].usagePage, cs[i].usage))
  }

  /** Every collection carries the page in force and the first usage since the previous Main item. */
  lemma {:induction false} HeadsAreDeclared(items: seq<Item>)
    ensures Heads(Run(INITIAL, items).collections) == DeclaredHeads(items)
    decreases |items|
  {
    if items != [] {
      var before, last := items[..|items| - 1], items[|items| - 1];
      assert items == before + [last];
      HeadsAreDeclared(before);
      FieldsAreDeclared(before);
      RunOne(INITIAL, before, last);
      HeadStep(Run(INITIAL, before), last);
    }
  }

  lemma HeadStep(s: State, item: Item)
    ensures Heads(Step(s, item).collections) == Heads(s.collections)
      + if IsCollection(item) && s.depth == 0
        then [(s.globals.usagePage, if s.locals.usages != [] then s.locals.usages[0] else 0)] else []
  {
  }
}
