// The tolerant HID report-descriptor interpreter: a byte-level item splitter
// and the state machine the items drive (HID 1.11, sections 6.2.2.2-6.2.2.8).

module HidParser {
  import opened Bits
  import opened Options

  const TYPE_MAIN := 0
  const TYPE_GLOBAL := 1
  const TYPE_LOCAL := 2
  const LONG_ITEM := 0xFE

  /** A short item: type, tag and its little-endian payload, unsigned and signed. */
  datatype Item = Item(kind: nat, tag: nat, value: nat, signed: int)

  datatype Field = Field(
    reportId: nat, usagePage: nat, usages: seq<nat>, usageMin: Option<nat>, usageMax: Option<nat>,
    count: nat, size: nat, isArray: bool, isConstant: bool, logicalMin: int, logicalMax: int, isRelative: bool)
  {
    function Bits(): nat {
      count * size
    }
  }

  // ---- Splitting bytes into items -----------------------------------------------------

  datatype Next = Stop | Skip(next: nat) | Emit(item: Item, next: nat)

  function PayloadSize(prefix: byte): nat {
    if prefix % 4 == 3 then 4 else prefix % 4
  }

  function ItemOf(prefix: byte, payload: seq<byte>): Item {
    var value := LittleEndian(payload);
    Item(prefix / 4 % 4, prefix / 16, value,
         if payload != [] && value >= Pow2(8 * |payload| - 1) then value - Pow2(8 * |payload|) else value)
  }

  /** The signed value is the one number of the payload's size that is congruent to its unsigned value. */
  lemma SignedMeaning(prefix: byte, payload: seq<byte>, v: int)
    ensures payload == [] ==> ItemOf(prefix, payload).signed == 0
    ensures payload != [] ==>
      (ItemOf(prefix, payload).signed == v
       <==> FitsSigned(v, 8 * |payload|) && exists k :: v == LittleEndian(payload) + k * Pow2(8 * |payload|))
  {
    if payload != [] {
      var n, w := LittleEndian(payload), 8 * |payload|;
      LittleEndianBound(payload);
      SignedOfSmall(n, w);
      var j := SignExtendStep(n, w);
      if k :| FitsSigned(v, w) && v == n + k * Pow2(w) {
        SignExtendOf(n, w, v, k);
      }
    }
  }

  lemma LittleEndianBound(bytes: seq<byte>)
    ensures LittleEndian(bytes) < Pow2(8 * |bytes|)
  {
    LittleEndianIsToNat(bytes);
    ToNatBound(AllBits(bytes));
  }

  lemma SignedOfSmall(n: nat, width: nat)
    requires width > 0 && n < Pow2(width)
    ensures (if n >= Pow2(width - 1) then n - Pow2(width) else n) == SignExtend(n, width)
  {
    ModSmall(n, Pow2(width));
  }

  /** The unsigned value is the payload, byte by byte; kind and tag are the prefix's bits 2-3 and 4-7. */
  lemma ItemMeaning(prefix: byte, payload: seq<byte>)
    requires |payload| <= 4
    ensures ItemOf(prefix, payload).value == Digit(payload, 0) + 0x100 * Digit(payload, 1)
      + 0x1_0000 * Digit(payload, 2) + 0x100_0000 * Digit(payload, 3)
    ensures var item := ItemOf(prefix, payload);
      item.kind < 4 && 16 * item.tag + 4 * item.kind <= prefix < 16 * item.tag + 4 * item.kind + 4
  {
    FourDigits(payload);
    PrefixBits(prefix, prefix / 4);
  }

  lemma FourDigits(payload: seq<byte>)
    requires |payload| <= 4
    ensures LittleEndian(payload) == Digit(payload, 0) + 0x100 * Digit(payload, 1)
      + 0x1_0000 * Digit(payload, 2) + 0x100_0000 * Digit(payload, 3)
  {
    UpToFour(payload, 0);
    UpToFour(payload, 1);
    UpToFour(payload, 2);
    UpToFour(payload, 3);
    assert From(payload, 0) == payload;
    assert From(payload, 4) == [];
  }

  lemma PrefixBits(prefix: int, quarter: int)
    requires 0 <= prefix && quarter == prefix / 4
    ensures 0 <= quarter % 4 < 4 && 4 * quarter == 16 * (prefix / 16) + 4 * (quarter % 4) <= prefix < 4 * quarter + 4
  {
    assert prefix / 16 == quarter / 4;
  }

  function Digit(payload: seq<byte>, i: nat): int {
    if i < |payload| then payload[i] else 0
  }

  function From(payload: seq<byte>, i: nat): seq<byte> {
    if i < |payload| then payload[i..] else []
  }

  lemma UpToFour(payload: seq<byte>, i: nat)
    ensures LittleEndian(From(payload, i)) == Digit(payload, i) + 0x100 * LittleEndian(From(payload, i + 1))
  {
    if i < |payload| {
      assert payload[i..][1..] == payload[i + 1..];
      assert From(payload, i + 1) == payload[i + 1..];
    }
  }

  /** What the item starting at `i` is, and where the next one starts. */
  function ReadAt(d: seq<byte>, i: nat): (r: Next)
    requires i < |d|
    ensures !r.Stop? ==> r.next > i
  {
    if d[i] == LONG_ITEM then
      if i + 1 >= |d| then Stop else Skip(i + 3 + d[i + 1])
    else
      var size := PayloadSize(d[i]);
      if i + 1 + size > |d| then Stop
      else Emit(ItemOf(d[i], d[i + 1..i + 1 + size]), i + 1 + size)
  }

  function ItemsFrom(d: seq<byte>, i: nat): seq<Item>
    decreases |d| - i
  {
    if i >= |d| then []
    else match ReadAt(d, i)
      case Stop => []
      case Skip(next) => ItemsFrom(d, next)
      case Emit(item, next) => [item] + ItemsFrom(d, next)
  }

  lemma ItemsUnfold(d: seq<byte>, i: nat, r: Next)
    requires i < |d| && r == ReadAt(d, i)
    ensures r.Stop? ==> ItemsFrom(d, i) == []
    ensures r.Skip? ==> ItemsFrom(d, i) == ItemsFrom(d, r.next)
    ensures r.Emit? ==> ItemsFrom(d, i) == [r.item] + ItemsFrom(d, r.next)
  {
  }

  function Items(d: seq<byte>): seq<Item> {
    ItemsFrom(d, 0)
  }

  // ---- The state machine ---------------------------------------------------------------

  datatype Globals = Globals(
    usagePage: nat, logicalMin: int, logicalMax: int, reportSize: nat, reportId: nat, reportCount: nat)
  datatype Locals = Locals(usages: seq<nat>, usageMin: Option<nat>, usageMax: Option<nat>)
  datatype TopLevel = TopLevel(usagePage: nat, usage: nat, fields: seq<Field>)
  datatype State = State(
    globals: Globals, locals: Locals, depth: nat, fields: seq<Field>, collections: seq<TopLevel>)

  const NO_LOCALS := Locals([], None, None)
  const INITIAL := State(Globals(0, 0, 0, 0, 0, 0), NO_LOCALS, 0, [], [])

  predicate IsCollection(item: Item) { item.kind == TYPE_MAIN && item.tag == 0xA }
  predicate IsEndCollection(item: Item) { item.kind == TYPE_MAIN && item.tag == 0xC }
  predicate IsInput(item: Item) { item.kind == TYPE_MAIN && item.tag == 0x8 }

  function GlobalStep(g: Globals, item: Item): Globals {
    if item.kind != TYPE_GLOBAL then g
    else if item.tag == 0x0 then g.(usagePage := item.value)
    else if item.tag == 0x1 then g.(logicalMin := item.signed)
    else if item.tag == 0x2 then g.(logicalMax := item.signed)
    else if item.tag == 0x7 then g.(reportSize := item.value)
    else if item.tag == 0x8 then g.(reportId := item.value)
    else if item.tag == 0x9 then g.(reportCount := item.value)
    else g
  }

  function LocalStep(l: Locals, item: Item): Locals {
    if item.kind == TYPE_MAIN then NO_LOCALS
    else if item.kind != TYPE_LOCAL then l
    else if item.tag == 0x0 then l.(usages := l.usages + [item.value])
    else if item.tag == 0x1 then l.(usageMin := Some(item.value))
    else if item.tag == 0x2 then l.(usageMax := Some(item.value))
    else l
  }

  function DepthStep(depth: nat, item: Item): nat {
    if IsCollection(item) then depth + 1
    else if IsEndCollection(item) && depth > 0 then depth - 1
    else depth
  }

  function MakeField(g: Globals, l: Locals, item: Item): Field {
    Field(g.reportId, g.usagePage, l.usages, l.usageMin, l.usageMax, g.reportCount, g.reportSize,
          item.value / 2 % 2 == 0, item.value % 2 == 1, g.logicalMin, g.logicalMax, item.value / 4 % 2 == 1)
  }

  /** The field joins the most recent top-level collection, if there is one. */
  function AddToLast(cs: seq<TopLevel>, f: Field): seq<TopLevel> {
    if cs == [] then cs
    else cs[|cs| - 1 := cs[|cs| - 1].(fields := cs[|cs| - 1].fields + [f])]
  }

  function CollectionsStep(s: State, item: Item): seq<TopLevel> {
    if IsCollection(item) && s.depth == 0 then
      s.collections + [TopLevel(s.globals.usagePage, if s.locals.usages != [] then s.locals.usages[0] else 0, [])]
    else if IsInput(item) then AddToLast(s.collections, MakeField(s.globals, s.locals, item))
    else s.collections
  }

  function Step(s: State, item: Item): State {
    State(GlobalStep(s.globals, item), LocalStep(s.locals, item), DepthStep(s.depth, item),
          s.fields + if IsInput(item) then [MakeField(s.globals, s.locals, item)] else [],
          CollectionsStep(s, item))
  }

  function Run(s: State, items: seq<Item>): State
    decreases |items|
  {
    if items == [] then s else Run(Step(s, items[0]), items[1..])
  }

  /** Split into items, then fold. */
  function ParseOf(d: seq<byte>): State {
    Run(INITIAL, Items(d))
  }

  lemma {:induction false} RunConcat(s: State, a: seq<Item>, b: seq<Item>)
    ensures Run(s, a + b) == Run(Run(s, a), b)
    decreases |a|
  {
    if a == [] {
      assert a + b == b;
    } else {
      assert (a + b)[1..] == a[1..] + b;
      RunConcat(Step(s, a[0]), a[1..], b);
    }
  }

  lemma RunOne(s: State, a: seq<Item>, item: Item)
    ensures Run(s, a + [item]) == Step(Run(s, a), item)
  {
    RunConcat(s, a, [item]);
    assert [item][1..] == [];
  }

  // ---- The one-pass interpreter ----------------------------------------------------------

  class Collection {
    const usagePage: nat
    const usage: nat
    var fields: seq<Field>

    constructor (usagePage: nat, usage: nat)
      ensures this.usagePage == usagePage && this.usage == usage && fields == []
    {
      this.usagePage := usagePage;
      this.usage := usage;
      fields := [];
    }

    function Value(): TopLevel
      reads this
    {
      TopLevel(usagePage, usage, fields)
    }
  }

  function Values(cs: seq<Collection>): (vs: seq<TopLevel>)
    reads cs
    ensures |vs| == |cs|
  {
    seq(|cs|, i requires 0 <= i < |cs| reads cs => cs[i].Value())
  }

  ghost predicate Distinct(cs: seq<Collection>) {
    forall i, j :: 0 <= i < j < |cs| ==> cs[i] != cs[j]
  }

  /** `current.fields.append(entry)`: visible through the list that aliases `current`. */
  method AppendField(current: Collection?, ghost cs: seq<Collection>, entry: Field)
    requires Distinct(cs) && (current == null <==> cs == []) && (current != null ==> current == cs[|cs| - 1])
    modifies current
    ensures Values(cs) == AddToLast(old(Values(cs)), entry)
  {
    if current != null {
      current.fields := current.fields + [entry];
    }
  }

  ghost predicate Aliased(collections: seq<Collection>, current: Collection?) {
    && Distinct(collections)
    && (current == null <==> collections == [])
    && (current != null ==> current == collections[|collections| - 1])
  }

  /** One item's effect on the interpreter's variables. */
  method Apply(item: Item, g: Globals, l: Locals, depth: nat, fields: seq<Field>,
               collections: seq<Collection>, current: Collection?)
    returns (g': Globals, l': Locals, depth': nat, fields': seq<Field>,
             collections': seq<Collection>, current': Collection?)
    requires Aliased(collections, current)
    modifies current
    ensures State(g', l', depth', fields', Values(collections'))
         == Step(State(g, l, depth, fields, old(Values(collections))), item)
    ensures Aliased(collections', current') && (current' == current || fresh(current'))
    ensures forall c :: c in collections' ==> c in collections || fresh(c)
  {
    g', l', depth', fields', collections', current' := g, l, depth, fields, collections, current;
    if item.kind == TYPE_GLOBAL {
      g' := GlobalItem(g, item);
    } else if item.kind == TYPE_LOCAL {
      l' := LocalItem(l, item);
    } else if item.kind == TYPE_MAIN {
      if item.tag == 0xA {
        if depth == 0 {
          var usage := if l.usages != [] then l.usages[0] else 0;
          current' := new Collection(g.usagePage, usage);
          collections' := collections + [current'];
        }
        depth' := depth + 1;
      } else if item.tag == 0xC {
        depth' := if depth >= 1 then depth - 1 else 0;
      } else if item.tag == 0x8 {
        var entry := Field(g.reportId, g.usagePage, l.usages, l.usageMin, l.usageMax, g.reportCount, g.reportSize,
                           item.value / 2 % 2 == 0, item.value % 2 == 1, g.logicalMin, g.logicalMax,
                           item.value / 4 % 2 == 1);
        fields' := fields + [entry];
        AppendField(current, collections, entry);
      }
      l' := NO_LOCALS;
    }
  }

  lemma OneMoreSeen(d: seq<byte>, start: nat, seen: seq<Item>, item: Item, next: nat)
    requires start < |d| && ReadAt(d, start) == Emit(item, next)
    ensures (seen + [item]) + ItemsFrom(d, next) == seen + ItemsFrom(d, start)
    ensures Run(INITIAL, seen + [item]) == Step(Run(INITIAL, seen), item)
  {
    RunOne(INITIAL, seen, item);
    ItemsUnfold(d, start, Emit(item, next));
    Regroup(seen, item, ItemsFrom(d, next), ItemsFrom(d, start));
  }

  lemma Regroup(seen: seq<Item>, item: Item, rest: seq<Item>, whole: seq<Item>)
    requires whole == [item] + rest
    ensures (seen + [item]) + rest == seen + whole
  {
  }

  method Parse(d: seq<byte>) returns (fields: seq<Field>, collections: seq<Collection>)
    ensures fields == ParseOf(d).fields
    ensures Values(collections) == ParseOf(d).collections
    ensures Distinct(collections) && forall c :: c in collections ==> fresh(c)
  {
    fields, collections := [], [];
    var current: Collection? := null;
    var g, l := INITIAL.globals, NO_LOCALS;
    var depth: nat := 0;
    ghost var seen: seq<Item> := [];
    var i := 0;
    while i < |d|
      invariant seen + ItemsFrom(d, i) == Items(d)
      invariant Run(INITIAL, seen) == State(g, l, depth, fields, Values(collections))
      invariant Aliased(collections, current) && forall c :: c in collections ==> fresh(c)
      invariant current != null ==> fresh(current)
      decreases |d| - i
    {
      var r := ReadItem(d, i);
      if r.Stop? {
        break;
      }
      ghost var start := i;
      i := r.next;
      if r.Emit? {
        var item := r.item;
        OneMoreSeen(d, start, seen, item, i);
        seen := seen + [item];
        g, l, depth, fields, collections, current := Apply(item, g, l, depth, fields, collections, current);
      }
    }
    assert seen == Items(d);
  }

  /** Reads one item; a truncated one stops the walk, a long one is skipped whole. */
  method ReadItem(d: seq<byte>, start: nat) returns (r: Next)
    requires start < |d|
    ensures r == ReadAt(d, start)
  {
    var i := start;
    var prefix := d[i];
    i := i + 1;
    if prefix == LONG_ITEM {
      if i >= |d| {
        return Stop;
      }
      var size := d[i];
      i := i + 2 + size;
      return Skip(i);
    }
    var size: nat := prefix % 4;
    if size == 3 {
      size := 4;
    }
    var kind, tag := prefix / 4 % 4, prefix / 16;
    if i + size > |d| {
      return Stop;
    }
    var value := LittleEndian(d[i..i + size]);
    var signed: int := value;
    if size > 0 && value >= Pow2(8 * size - 1) {
      signed := value - Pow2(8 * size);
    }
    i := i + size;
    return Emit(Item(kind, tag, value, signed), i);
  }

  method GlobalItem(g: Globals, item: Item) returns (g': Globals)
    requires item.kind == TYPE_GLOBAL
    ensures g' == GlobalStep(g, item)
  {
    g' := g;
    if item.tag == 0x0 {
      g' := g.(usagePage := item.value);
    } else if item.tag == 0x1 {
      g' := g.(logicalMin := item.signed);
    } else if item.tag == 0x2 {
      g' := g.(logicalMax := item.signed);
    } else if item.tag == 0x7 {
      g' := g.(reportSize := item.value);
    } else if item.tag == 0x8 {
      g' := g.(reportId := item.value);
    } else if item.tag == 0x9 {
      g' := g.(reportCount := item.value);
    }
  }

  method LocalItem(l: Locals, item: Item) returns (l': Locals)
    requires item.kind == TYPE_LOCAL
    ensures l' == LocalStep(l, item)
  {
    l' := l;
    if item.tag == 0x0 {
      l' := l.(usages := l.usages + [item.value]);
    } else if item.tag == 0x1 {
      l' := l.(usageMin := Some(item.value));
    } else if item.tag == 0x2 {
      l' := l.(usageMax := Some(item.value));
    }
  }
}
