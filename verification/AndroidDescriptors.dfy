// The Android bridge's descriptors, run through the interpreter.

module AndroidDescriptors {
  import opened Bits
  import opened Options
  import opened HidParser
  import opened HidTheorems

  /** One short item as the descriptor tables spell it: prefix byte, then payload. */
  datatype Short = Short(prefix: byte, payload: seq<byte>) {
    predicate WellFormed() {
      prefix != LONG_ITEM && |payload| == PayloadSize(prefix)
    }

    function Bytes(): seq<byte> {
      [prefix] + payload
    }
  }

  function Encode(table: seq<Short>): seq<byte>
    decreases |table|
  {
    if table == [] then [] else table[0].Bytes() + Encode(table[1..])
  }

  function Meaning(table: seq<Short>): seq<Item>
    decreases |table|
  {
    if table == [] then [] else [ItemOf(table[0].prefix, table[0].payload)] + Meaning(table[1..])
  }

  lemma OneItem(s: Short)
    requires s.WellFormed()
    ensures Items(s.Bytes()) == [ItemOf(s.prefix, s.payload)] && OnBoundary(s.Bytes())
  {
    var d := s.Bytes();
    assert d[1..1 + |s.payload|] == s.payload;
    assert ReadAt(d, 0) == Emit(ItemOf(s.prefix, s.payload), |d|);
    assert ItemsFrom(d, |d|) == [] && WalkEnd(d, |d|) == |d|;
  }

  /** Splitting inverts encoding: a table of short items is read back item by item. */
  lemma {:induction false} ItemsOfEncoding(table: seq<Short>)
    requires forall s :: s in table ==> s.WellFormed()
    ensures Items(Encode(table)) == Meaning(table)
    decreases |table|
  {
    if table != [] {
      OneItem(table[0]);
      ItemsAppend(table[0].Bytes(), Encode(table[1..]), 0);
      ItemsOfEncoding(table[1..]);
    }
  }

  lemma LittleEndianLiteral(q: seq<byte>)
    ensures |q| == 0 ==> LittleEndian(q) == 0
    ensures |q| == 1 ==> LittleEndian(q) == q[0]
    ensures |q| == 2 ==> LittleEndian(q) == q[0] + 0x100 * q[1] as int
    ensures |q| == 4 ==>
      LittleEndian(q) == q[0] + 0x100 * q[1] as int + 0x1_0000 * q[2] as int + 0x100_0000 * q[3] as int
  {
    if |q| >= 1 {
      assert LittleEndian(q) == q[0] + 0x100 * LittleEndian(q[1..]);
    }
    if |q| >= 2 {
      assert q[1..][1..] == q[2..];
      assert LittleEndian(q[1..]) == q[1] + 0x100 * LittleEndian(q[2..]);
    }
    if |q| == 4 {
      assert q[2..][1..] == q[3..] && q[3..][1..] == [];
      assert LittleEndian(q[2..]) == q[2] + 0x100 * LittleEndian(q[3..]);
      assert LittleEndian(q[3..]) == q[3] + 0x100 * LittleEndian([]);
    }
  }

  lemma {:induction false} MeaningConcat(a: seq<Short>, b: seq<Short>)
    ensures Meaning(a + b) == Meaning(a) + Meaning(b)
    decreases |a|
  {
    if a == [] {
      assert a + b == b;
    } else {
      assert (a + b)[1..] == a[1..] + b;
      MeaningConcat(a[1..], b);
    }
  }

  lemma {:induction false} EncodeConcat(a: seq<Short>, b: seq<Short>)
    ensures Encode(a + b) == Encode(a) + Encode(b)
    decreases |a|
  {
    if a == [] {
      assert a + b == b;
    } else {
      assert (a + b)[1..] == a[1..] + b;
      EncodeConcat(a[1..], b);
    }
  }

  // ---- Sections: everything up to one Main item ---------------------------------------------

  /** One section of a descriptor table, part by part in table order; empty parts are absent. */
  datatype Section = Section(
    page: seq<byte>, before: seq<Short>, usages: seq<byte>, range: seq<byte>,
    logicalMin: seq<byte>, logicalMax: seq<byte>, after: seq<Short>, size: byte, count: byte, main: byte, flags: byte)

  /** The prefix of a short item with the given tag-and-type bits and payload. */
  function Tagged(base: byte, payload: seq<byte>): Short
    requires base % 4 == 0 && base <= 0xF0 && |payload| in {1, 2, 4}
  {
    Short(base + if |payload| == 4 then 3 else |payload|, payload)
  }

  function Maybe(base: byte, payload: seq<byte>): seq<Short>
    requires base % 4 == 0 && base <= 0xF0 && |payload| in {0, 1, 2, 4}
  {
    if payload == [] then [] else [Tagged(base, payload)]
  }

  function UsageTable(usages: seq<byte>): seq<Short> {
    if usages == [] then [] else UsageTable(usages[..|usages| - 1]) + [Short(0x09, [usages[|usages| - 1]])]
  }

  predicate Quiet(table: seq<Short>) {
    forall s :: s in table ==> s.WellFormed() && Ignored(ItemOf(s.prefix, s.payload))
  }

  predicate Wf(sec: Section) {
    && |sec.page| in {0, 1, 2} && |sec.range| in {0, 2}
    && |sec.logicalMin| in {0, 1, 2, 4} && |sec.logicalMax| in {0, 1, 2, 4}
    && Quiet(sec.before) && Quiet(sec.after) && sec.main % 4 == 1 && sec.main / 4 % 4 == TYPE_MAIN
  }

  function RangeTable(range: seq<byte>): seq<Short>
    requires |range| in {0, 2}
  {
    if range == [] then [] else [Short(0x19, [range[0]]), Short(0x29, [range[1]])]
  }

  function ShapeTable(sec: Section): seq<Short> {
    [Short(0x75, [sec.size]), Short(0x95, [sec.count]), Short(sec.main, [sec.flags])]
  }

  function Table(sec: Section): seq<Short>
    requires Wf(sec)
  {
    Maybe(0x04, sec.page) + sec.before + UsageTable(sec.usages) + RangeTable(sec.range)
    + Maybe(0x14, sec.logicalMin) + Maybe(0x24, sec.logicalMax) + sec.after + ShapeTable(sec)
  }

  // ---- What each part does ---------------------------------------------------------------------

  /** The payload in two's complement. */
  function SignedValue(payload: seq<byte>): int
    requires |payload| > 0
  {
    SignExtend(LittleEndian(payload), 8 * |payload|)
  }

  lemma MeaningOne(s: Short)
    ensures Meaning([s]) == [ItemOf(s.prefix, s.payload)]
  {
    assert [s][1..] == [];
  }

  lemma RunShort(s: State, t: Short)
    ensures Run(s, Meaning([t])) == Step(s, ItemOf(t.prefix, t.payload))
  {
    MeaningOne(t);
    RunOne(s, [], ItemOf(t.prefix, t.payload));
    assert [] + Meaning([t]) == Meaning([t]);
  }

  lemma ItemSigned(prefix: byte, payload: seq<byte>)
    requires payload != []
    ensures ItemOf(prefix, payload).signed == SignedValue(payload)
  {
    LittleEndianBound(payload);
    SignedOfSmall(LittleEndian(payload), 8 * |payload|);
  }

  lemma TaggedPrefix(base: byte, size: byte)
    requires base % 16 == 4 && base <= 0xF0 && 1 <= size <= 3
    ensures (base + size) / 4 % 4 == TYPE_GLOBAL && (base + size) / 16 == base / 16
  {
  }

  lemma TaggedItem(base: byte, payload: seq<byte>)
    requires base % 16 == 4 && base <= 0xF0 && |payload| in {1, 2, 4}
    ensures var t := Tagged(base, payload);
      var item := ItemOf(t.prefix, t.payload);
      && item.kind == TYPE_GLOBAL && item.tag == base / 16 && item.value == LittleEndian(payload)
      && item.signed == SignedValue(payload)
  {
    TaggedPrefix(base, if |payload| == 4 then 3 else |payload|);
    ItemSigned(Tagged(base, payload).prefix, payload);
  }

  lemma ByteItem(prefix: byte, v: byte)
    ensures var item := ItemOf(prefix, [v]); item.kind == prefix / 4 % 4 && item.tag == prefix / 16 && item.value == v
  {
    LittleEndianLiteral([v]);
  }

  lemma RunTables(s: State, a: seq<Short>, b: seq<Short>)
    ensures Run(s, Meaning(a + b)) == Run(Run(s, Meaning(a)), Meaning(b))
  {
    MeaningConcat(a, b);
    RunConcat(s, Meaning(a), Meaning(b));
  }

  lemma {:induction false} RunQuiet(s: State, table: seq<Short>)
    requires Quiet(table)
    ensures Run(s, Meaning(table)) == s
    decreases |table|
  {
    if table != [] {
      assert table == [table[0]] + table[1..];
      RunTables(s, [table[0]], table[1..]);
      RunShort(s, table[0]);
      assert Step(s, ItemOf(table[0].prefix, table[0].payload)) == s;
      RunQuiet(s, table[1..]);
    }
  }

  lemma {:induction false} RunUsages(s: State, usages: seq<byte>)
    ensures Run(s, Meaning(UsageTable(usages))) == s.(locals := s.locals.(usages := s.locals.usages + Nats(usages)))
    decreases |usages|
  {
    if usages != [] {
      var init, u := usages[..|usages| - 1], usages[|usages| - 1];
      RunTables(s, UsageTable(init), [Short(0x09, [u])]);
      RunUsages(s, init);
      RunShort(Run(s, Meaning(UsageTable(init))), Short(0x09, [u]));
      LittleEndianLiteral([u]);
      assert s.locals.usages + Nats(usages) == s.locals.usages + Nats(init) + [u];
    }
  }

  function Nats(bytes: seq<byte>): seq<nat> {
    seq(|bytes|, i requires 0 <= i < |bytes| => bytes[i] as nat)
  }

  lemma RunPage(s: State, page: seq<byte>)
    requires |page| in {0, 1, 2}
    ensures Run(s, Meaning(Maybe(0x04, page)))
      == if page == [] then s else s.(globals := s.globals.(usagePage := LittleEndian(page)))
  {
    if page != [] {
      RunShort(s, Tagged(0x04, page));
      TaggedItem(0x04, page);
    }
  }

  lemma RunLogicalMin(s: State, lo: seq<byte>)
    requires |lo| in {0, 1, 2, 4}
    ensures Run(s, Meaning(Maybe(0x14, lo)))
      == if lo == [] then s else s.(globals := s.globals.(logicalMin := SignedValue(lo)))
  {
    if lo != [] {
      RunShort(s, Tagged(0x14, lo));
      TaggedItem(0x14, lo);
    }
  }

  lemma RunLogicalMax(s: State, hi: seq<byte>)
    requires |hi| in {0, 1, 2, 4}
    ensures Run(s, Meaning(Maybe(0x24, hi)))
      == if hi == [] then s else s.(globals := s.globals.(logicalMax := SignedValue(hi)))
  {
    if hi != [] {
      RunShort(s, Tagged(0x24, hi));
      TaggedItem(0x24, hi);
    }
  }

  lemma Chain(s: State, a: seq<Short>, b: seq<Short>, mid: State, end: State)
    requires Run(s, Meaning(a)) == mid && Run(mid, Meaning(b)) == end
    ensures Run(s, Meaning(a + b)) == end
  {
    RunTables(s, a, b);
  }

  /** One item with a one-byte payload, and the state it leaves. */
  lemma RunByte(s: State, prefix: byte, v: byte, s': State)
    requires Step(s, ItemOf(prefix, [v])) == s'
    ensures Run(s, Meaning([Short(prefix, [v])])) == s'
  {
    RunShort(s, Short(prefix, [v]));
  }

  lemma RunUsageMin(s: State, v: byte)
    ensures Run(s, Meaning([Short(0x19, [v])])) == s.(locals := s.locals.(usageMin := Some(v)))
  {
    ByteItem(0x19, v);
    RunByte(s, 0x19, v, s.(locals := s.locals.(usageMin := Some(v))));
  }

  lemma RunUsageMax(s: State, v: byte)
    ensures Run(s, Meaning([Short(0x29, [v])])) == s.(locals := s.locals.(usageMax := Some(v)))
  {
    ByteItem(0x29, v);
    RunByte(s, 0x29, v, s.(locals := s.locals.(usageMax := Some(v))));
  }

  lemma RunSize(s: State, v: byte)
    ensures Run(s, Meaning([Short(0x75, [v])])) == s.(globals := s.globals.(reportSize := v))
  {
    ByteItem(0x75, v);
    RunByte(s, 0x75, v, s.(globals := s.globals.(reportSize := v)));
  }

  lemma RunCount(s: State, v: byte)
    ensures Run(s, Meaning([Short(0x95, [v])])) == s.(globals := s.globals.(reportCount := v))
  {
    ByteItem(0x95, v);
    RunByte(s, 0x95, v, s.(globals := s.globals.(reportCount := v)));
  }

  lemma RunRange(s: State, range: seq<byte>)
    requires |range| in {0, 2}
    ensures Run(s, Meaning(RangeTable(range)))
      == if range == [] then s
         else s.(locals := s.locals.(usageMin := Some(range[0]), usageMax := Some(range[1])))
  {
    if range != [] {
      var mid := s.(locals := s.locals.(usageMin := Some(range[0])));
      RunUsageMin(s, range[0]);
      RunUsageMax(mid, range[1]);
      Chain(s, [Short(0x19, [range[0]])], [Short(0x29, [range[1]])], mid,
        mid.(locals := mid.locals.(usageMax := Some(range[1]))));
      assert RangeTable(range) == [Short(0x19, [range[0]])] + [Short(0x29, [range[1]])];
    }
  }

  lemma RunShape(s: State, sec: Section)
    requires sec.main % 4 == 1 && sec.main / 4 % 4 == TYPE_MAIN
    ensures Run(s, Meaning(ShapeTable(sec)))
      == Step(s.(globals := s.globals.(reportSize := sec.size, reportCount := sec.count)),
              ItemOf(sec.main, [sec.flags]))
  {
    var a, b, c := Short(0x75, [sec.size]), Short(0x95, [sec.count]), Short(sec.main, [sec.flags]);
    var sa := s.(globals := s.globals.(reportSize := sec.size));
    var sb := sa.(globals := sa.globals.(reportCount := sec.count));
    var sc := Step(sb, ItemOf(sec.main, [sec.flags]));
    RunSize(s, sec.size);
    RunCount(sa, sec.count);
    Chain(s, [a], [b], sa, sb);
    RunByte(sb, sec.main, sec.flags, sc);
    Chain(s, [a] + [b], [c], sb, sc);
    assert ShapeTable(sec) == [a] + [b] + [c];
  }

  // ---- What a section does ------------------------------------------------------------------------

  function SectionGlobals(g: Globals, sec: Section): Globals {
    g.(usagePage := if sec.page == [] then g.usagePage else LittleEndian(sec.page),
       logicalMin := if sec.logicalMin == [] then g.logicalMin else SignedValue(sec.logicalMin),
       logicalMax := if sec.logicalMax == [] then g.logicalMax else SignedValue(sec.logicalMax),
       reportSize := sec.size, reportCount := sec.count)
  }

  function SectionLocals(sec: Section): Locals
    requires |sec.range| in {0, 2}
  {
    if sec.range == [] then Locals(Nats(sec.usages), None, None)
    else Locals(Nats(sec.usages), Some(sec.range[0]), Some(sec.range[1]))
  }

  function PageSet(g: Globals, sec: Section): Globals {
    g.(usagePage := if sec.page == [] then g.usagePage else LittleEndian(sec.page))
  }

  lemma SectionLocalsRun(s: State, sec: Section, s': State)
    requires Wf(sec) && s.locals == NO_LOCALS
    requires s' == s.(globals := PageSet(s.globals, sec), locals := SectionLocals(sec))
    ensures Run(s, Meaning(Maybe(0x04, sec.page) + sec.before + UsageTable(sec.usages) + RangeTable(sec.range))) == s'
  {
    var t1 := Maybe(0x04, sec.page);
    var s1 := s'.(locals := NO_LOCALS);
    var s2 := s1.(locals := Locals(Nats(sec.usages), None, None));
    RunPage(s, sec.page);
    assert Run(s, Meaning(t1)) == s1;
    RunQuiet(s1, sec.before);
    Chain(s, t1, sec.before, s1, s1);
    RunUsages(s1, sec.usages);
    assert [] + Nats(sec.usages) == Nats(sec.usages);
    Chain(s, t1 + sec.before, UsageTable(sec.usages), s1, s2);
    RunRange(s2, sec.range);
    Chain(s, t1 + sec.before + UsageTable(sec.usages), RangeTable(sec.range), s2, s');
  }

  /** A whole section: its globals stick, its locals serve the one Main item that ends it. */
  lemma SectionRun(s: State, sec: Section)
    requires Wf(sec) && s.locals == NO_LOCALS
    ensures Run(s, Meaning(Table(sec)))
      == Step(s.(globals := SectionGlobals(s.globals, sec), locals := SectionLocals(sec)),
              ItemOf(sec.main, [sec.flags]))
  {
    var t4 := Maybe(0x04, sec.page) + sec.before + UsageTable(sec.usages) + RangeTable(sec.range);
    var s4 := s.(globals := PageSet(s.globals, sec), locals := SectionLocals(sec));
    SectionLocalsRun(s, sec, s4);
    var s5 := if sec.logicalMin == [] then s4
              else s4.(globals := s4.globals.(logicalMin := SignedValue(sec.logicalMin)));
    var s6 := if sec.logicalMax == [] then s5
              else s5.(globals := s5.globals.(logicalMax := SignedValue(sec.logicalMax)));
    RunLogicalMin(s4, sec.logicalMin);
    Chain(s, t4, Maybe(0x14, sec.logicalMin), s4, s5);
    RunLogicalMax(s5, sec.logicalMax);
    Chain(s, t4 + Maybe(0x14, sec.logicalMin), Maybe(0x24, sec.logicalMax), s5, s6);
    RunQuiet(s6, sec.after);
    var t6 := t4 + Maybe(0x14, sec.logicalMin) + Maybe(0x24, sec.logicalMax);
    Chain(s, t6, sec.after, s6, s6);
    RunShape(s6, sec);
    Chain(s, t6 + sec.after, ShapeTable(sec), s6,
          Step(s.(globals := SectionGlobals(s.globals, sec), locals := SectionLocals(sec)),
               ItemOf(sec.main, [sec.flags])));
  }

  // ---- Whole tables -------------------------------------------------------------------------------

  /** State between sections: no pending locals, everything in the one open collection. */
  function Inside(g: Globals, fields: seq<Field>): State {
    State(g, NO_LOCALS, 1, fields, [TopLevel(0x01, 0x05, fields)])
  }

  function SectionField(g: Globals, sec: Section): Field
    requires |sec.range| in {0, 2}
  {
    MakeField(SectionGlobals(g, sec), SectionLocals(sec), ItemOf(sec.main, [sec.flags]))
  }

  predicate Inputs(secs: seq<Section>) {
    forall i :: 0 <= i < |secs| ==> Wf(secs[i]) && secs[i].main == 0x81
  }

  function Tables(secs: seq<Section>): seq<Short>
    requires Inputs(secs)
  {
    if secs == [] then [] else Tables(secs[..|secs| - 1]) + Table(secs[|secs| - 1])
  }

  function GlobalsAfter(g: Globals, secs: seq<Section>): Globals {
    if secs == [] then g else SectionGlobals(GlobalsAfter(g, secs[..|secs| - 1]), secs[|secs| - 1])
  }

  function FieldsAfter(g: Globals, secs: seq<Section>): (fields: seq<Field>)
    requires Inputs(secs)
    ensures |fields| == |secs|
  {
    if secs == [] then []
    else FieldsAfter(g, secs[..|secs| - 1]) + [SectionField(GlobalsAfter(g, secs[..|secs| - 1]), secs[|secs| - 1])]
  }

  lemma InputStep(g: Globals, fields: seq<Field>, sec: Section)
    requires Wf(sec) && sec.main == 0x81
    ensures Step(Inside(g, fields).(globals := SectionGlobals(g, sec), locals := SectionLocals(sec)),
                 ItemOf(sec.main, [sec.flags]))
      == Inside(SectionGlobals(g, sec), fields + [SectionField(g, sec)])
  {
    ByteItem(0x81, sec.flags);
  }

  lemma {:induction false} SectionsRun(g: Globals, secs: seq<Section>)
    requires Inputs(secs)
    ensures Run(Inside(g, []), Meaning(Tables(secs))) == Inside(GlobalsAfter(g, secs), FieldsAfter(g, secs))
    decreases |secs|
  {
    if secs != [] {
      var init, last := secs[..|secs| - 1], secs[|secs| - 1];
      SectionsRun(g, init);
      var mid := Inside(GlobalsAfter(g, init), FieldsAfter(g, init));
      SectionRun(mid, last);
      InputStep(GlobalsAfter(g, init), FieldsAfter(g, init), last);
      Chain(Inside(g, []), Tables(init), Table(last), mid, Inside(GlobalsAfter(g, secs), FieldsAfter(g, secs)));
    }
  }

  /** What the sections say about the report, independent of anything inherited. */
  lemma {:induction false} SectionGeometry(g: Globals, secs: seq<Section>, j: nat)
    requires Inputs(secs) && j < |secs|
    ensures GlobalsAfter(g, secs).reportId == g.reportId
    ensures var f := FieldsAfter(g, secs)[j];
      && f.reportId == g.reportId && f.size == secs[j].size && f.count == secs[j].count
      && f.usages == Nats(secs[j].usages)
    decreases |secs|
  {
    var init := secs[..|secs| - 1];
    if j < |init| {
      SectionGeometry(g, init, j);
    } else if init != [] {
      SectionGeometry(g, init, 0);
    }
  }

  /** What a field takes from its own section: its page and limits where given, its ranges and its flags. */
  predicate TakenFrom(f: Field, sec: Section) {
    && (sec.page != [] ==> f.usagePage == LittleEndian(sec.page))
    && (sec.logicalMin != [] ==> f.logicalMin == SignedValue(sec.logicalMin))
    && (sec.logicalMax != [] ==> f.logicalMax == SignedValue(sec.logicalMax))
    && (|sec.range| == 2 ==> f.usageMin == Some(sec.range[0]) && f.usageMax == Some(sec.range[1]))
    && (sec.range == [] ==> f.usageMin == None && f.usageMax == None)
    && f.isConstant == (sec.flags % 2 == 1) && f.isArray == (sec.flags / 2 % 2 == 0)
    && f.isRelative == (sec.flags / 4 % 2 == 1)
  }

  lemma SectionTaken(g: Globals, sec: Section)
    requires Wf(sec)
    ensures TakenFrom(SectionField(g, sec), sec)
  {
    ByteItem(sec.main, sec.flags);
  }

  lemma {:induction false} FieldTaken(g: Globals, secs: seq<Section>, j: nat)
    requires Inputs(secs) && j < |secs|
    ensures TakenFrom(FieldsAfter(g, secs)[j], secs[j])
    decreases |secs|
  {
    var init := secs[..|secs| - 1];
    if j < |init| {
      FieldTaken(g, init, j);
    } else {
      SectionTaken(GlobalsAfter(g, init), secs[j]);
    }
  }

  const OPENING: seq<Short> := [Short(0x05, [0x01]), Short(0x09, [0x05]), Short(0xA1, [0x01]), Short(0x85, [0x01])]
  const AFTER_OPENING := Globals(0x01, 0, 0, 0, 1, 0)
  const CLOSING: seq<Short> := [Short(0xC0, [])]

  lemma OpenPage(s: State)
    requires s == INITIAL
    ensures Run(s, Meaning([Short(0x05, [0x01])])) == s.(globals := Globals(1, 0, 0, 0, 0, 0))
  {
    ByteItem(0x05, 1);
    RunByte(s, 0x05, 1, s.(globals := Globals(1, 0, 0, 0, 0, 0)));
  }

  lemma OpenUsage(s: State)
    requires s.locals == NO_LOCALS
    ensures Run(s, Meaning([Short(0x09, [0x05])])) == s.(locals := Locals([5], None, None))
  {
    ByteItem(0x09, 5);
    RunByte(s, 0x09, 5, s.(locals := Locals([5], None, None)));
  }

  lemma OpenCollection(g: Globals, s: State)
    requires s == State(g, Locals([5], None, None), 0, [], [])
    ensures Run(s, Meaning([Short(0xA1, [0x01])])) == State(g, NO_LOCALS, 1, [], [TopLevel(g.usagePage, 5, [])])
  {
    ByteItem(0xA1, 1);
    RunByte(s, 0xA1, 1, State(g, NO_LOCALS, 1, [], [TopLevel(g.usagePage, 5, [])]));
  }

  lemma OpenReport(s: State)
    requires s.locals == NO_LOCALS
    ensures Run(s, Meaning([Short(0x85, [0x01])])) == s.(globals := s.globals.(reportId := 1))
  {
    ByteItem(0x85, 1);
    RunByte(s, 0x85, 1, s.(globals := s.globals.(reportId := 1)));
  }

  lemma Opening()
    ensures Run(INITIAL, Meaning(OPENING)) == Inside(AFTER_OPENING, [])
  {
    var a, b, c, d := Short(0x05, [0x01]), Short(0x09, [0x05]), Short(0xA1, [0x01]), Short(0x85, [0x01]);
    var g := Globals(1, 0, 0, 0, 0, 0);
    var sa, sb := State(g, NO_LOCALS, 0, [], []), State(g, Locals([5], None, None), 0, [], []);
    var sc := State(g, NO_LOCALS, 1, [], [TopLevel(1, 5, [])]);
    OpenPage(INITIAL);
    OpenUsage(sa);
    OpenCollection(g, sb);
    OpenReport(sc);
    Chain(INITIAL, [a], [b], sa, sb);
    Chain(INITIAL, [a] + [b], [c], sb, sc);
    Chain(INITIAL, [a] + [b] + [c], [d], sc, Inside(AFTER_OPENING, []));
    assert OPENING == [a] + [b] + [c] + [d];
  }

  lemma {:induction false} NoInputNoField(s: State, items: seq<Item>)
    requires forall i :: 0 <= i < |items| ==> !IsInput(items[i])
    ensures Run(s, items).fields == s.fields
    decreases |items|
  {
    if items != [] {
      assert !IsInput(items[0]);
      NoInputNoField(Step(s, items[0]), items[1..]);
    }
  }

  lemma InputPrefix(p: byte)
    ensures p / 4 % 4 == TYPE_MAIN && p / 16 == 8 <==> p / 4 == 0x81 / 4
  {
  }

  lemma {:induction false} NoInputTable(table: seq<Short>)
    requires forall s :: s in table ==> s.prefix / 4 != 0x81 / 4
    ensures forall i :: 0 <= i < |Meaning(table)| ==> !IsInput(Meaning(table)[i])
    decreases |table|
  {
    if table != [] {
      NoInputTable(table[1..]);
      InputPrefix(table[0].prefix);
    }
  }

  // ---- The contract's tables ----------------------------------------------------------------------

  const STICKS := Section([], [], [0x30, 0x31, 0x32, 0x35, 0x33, 0x34], [], [0x00], [0xFF, 0x00], [], 8, 6, 0x81, 0x02)
  const HAT := Section([0x01], [], [0x39], [], [0x00], [0x07],
    [Short(0x35, [0x00]), Short(0x46, [0x3B, 0x01]), Short(0x65, [0x14])], 4, 1, 0x81, 0x42)
  const MOTION := Section([0x00, 0xFF], [Short(0x65, [0x00])], [0x20, 0x21, 0x22, 0x23, 0x24, 0x25], [],
    [0x00, 0x80], [0xFF, 0x7F], [], 16, 6, 0x81, 0x02)
  const BATTERY := Section([], [], [0x30, 0x31], [], [0x00], [0xFF, 0x00], [], 8, 2, 0x81, 0x02)
  const TIMESTAMP := Section([], [], [0x32], [], [0x00], [0xFF, 0xFF, 0x00, 0x00], [], 16, 1, 0x81, 0x02)

  /** Rumble and LEDs: an output report, which declares no input field. */
  const OUTPUT: seq<Short> := [
    Short(0x85, [0x02]), Short(0x09, [0x40]), Short(0x09, [0x41]), Short(0x09, [0x42]), Short(0x09, [0x43]),
    Short(0x15, [0x00]), Short(0x26, [0xFF, 0x00]), Short(0x75, [0x08]), Short(0x95, [0x04]), Short(0x91, [0x02])]

  function Buttons(n: byte): Section {
    Section([0x09], [], [], [0x01, n], [0x00], [0x01], [], 1, n, 0x81, 0x02)
  }

  function Padding(size: byte, count: byte): Section {
    Section([], [], [], [], [], [], [], size, count, 0x81, 0x03)
  }

  const V1_INPUTS: seq<Section> := [STICKS, Buttons(14), Padding(1, 2), HAT, Padding(4, 1)]
  const V2_INPUTS: seq<Section> :=
    [STICKS, Buttons(17), Padding(1, 7), HAT, Padding(4, 1), MOTION, BATTERY, TIMESTAMP]

  lemma QuietOne(s: Short)
    requires s.WellFormed() && s.prefix in {0x35, 0x46, 0x65}
    ensures Ignored(ItemOf(s.prefix, s.payload))
  {
  }

  lemma QuietTables()
    ensures Quiet(HAT.after) && Quiet(MOTION.before)
  {
    QuietOne(Short(0x35, [0x00]));
    QuietOne(Short(0x46, [0x3B, 0x01]));
    QuietOne(Short(0x65, [0x14]));
    QuietOne(Short(0x65, [0x00]));
  }

  lemma SectionsWf()
    ensures Wf(STICKS) && Wf(HAT) && Wf(MOTION) && Wf(BATTERY) && Wf(TIMESTAMP)
  {
    QuietTables();
  }

  lemma PlainWf(n: byte, size: byte, count: byte)
    ensures Wf(Buttons(n)) && Wf(Padding(size, count))
  {
  }

  lemma TablesWellFormed()
    ensures Inputs(V1_INPUTS) && Inputs(V2_INPUTS)
  {
    SectionsWf();
    PlainWf(14, 1, 2);
    PlainWf(17, 1, 7);
    PlainWf(14, 4, 1);
  }

  function Descriptor(inputs: seq<Section>, rest: seq<Short>): seq<byte>
    requires Inputs(inputs)
  {
    Encode(OPENING + Tables(inputs) + rest)
  }

  predicate AllWellFormed(table: seq<Short>) {
    forall s :: s in table ==> s.WellFormed()
  }

  lemma {:induction false} UsagesWellFormed(usages: seq<byte>)
    ensures AllWellFormed(UsageTable(usages))
    decreases |usages|
  {
    if usages != [] {
      UsagesWellFormed(usages[..|usages| - 1]);
    }
  }

  lemma SectionWellFormed(sec: Section)
    requires Wf(sec)
    ensures AllWellFormed(Table(sec))
  {
    UsagesWellFormed(sec.usages);
    assert AllWellFormed(Maybe(0x04, sec.page)) && AllWellFormed(Maybe(0x14, sec.logicalMin));
    assert AllWellFormed(Maybe(0x24, sec.logicalMax)) && AllWellFormed(RangeTable(sec.range));
    assert AllWellFormed(ShapeTable(sec));
  }

  lemma {:induction false} SectionsWellFormed(secs: seq<Section>)
    requires Inputs(secs)
    ensures AllWellFormed(Tables(secs))
    decreases |secs|
  {
    if secs != [] {
      SectionsWellFormed(secs[..|secs| - 1]);
      SectionWellFormed(secs[|secs| - 1]);
    }
  }

  /** The bytes of a table, parsed, declare one field per input section. */
  lemma DescriptorFields(inputs: seq<Section>, rest: seq<Short>)
    requires Inputs(inputs) && AllWellFormed(rest)
    requires forall s :: s in rest ==> s.prefix / 4 != 0x81 / 4
    ensures ParseOf(Descriptor(inputs, rest)).fields == FieldsAfter(AFTER_OPENING, inputs)
  {
    AllShortsWellFormed(inputs, rest);
    ItemsOfEncoding(OPENING + Tables(inputs) + rest);
    FrontRun(inputs);
    RunTables(INITIAL, OPENING + Tables(inputs), rest);
    NoInputTable(rest);
    NoInputNoField(Inside(GlobalsAfter(AFTER_OPENING, inputs), FieldsAfter(AFTER_OPENING, inputs)), Meaning(rest));
  }

  lemma AllShortsWellFormed(inputs: seq<Section>, rest: seq<Short>)
    requires Inputs(inputs) && AllWellFormed(rest)
    ensures AllWellFormed(OPENING + Tables(inputs) + rest)
  {
    SectionsWellFormed(inputs);
    OpeningWellFormed();
    WellFormedConcat(OPENING, Tables(inputs));
    WellFormedConcat(OPENING + Tables(inputs), rest);
  }

  lemma OpeningWellFormed()
    ensures AllWellFormed(OPENING)
  {
  }

  lemma WellFormedConcat(a: seq<Short>, b: seq<Short>)
    requires AllWellFormed(a) && AllWellFormed(b)
    ensures AllWellFormed(a + b)
  {
  }

  lemma FrontRun(inputs: seq<Section>)
    requires Inputs(inputs)
    ensures Run(INITIAL, Meaning(OPENING + Tables(inputs)))
      == Inside(GlobalsAfter(AFTER_OPENING, inputs), FieldsAfter(AFTER_OPENING, inputs))
  {
    Opening();
    SectionsRun(AFTER_OPENING, inputs);
    Chain(INITIAL, OPENING, Tables(inputs), Inside(AFTER_OPENING, []),
      Inside(GlobalsAfter(AFTER_OPENING, inputs), FieldsAfter(AFTER_OPENING, inputs)));
  }

  /** Items after the inputs that declare no further input field. */
  predicate NoMoreInputs(rest: seq<Short>) {
    AllWellFormed(rest) && forall s :: s in rest ==> s.prefix / 4 != 0x81 / 4
  }

  lemma OneMore(s: Short, rest: seq<Short>)
    requires s.WellFormed() && s.prefix / 4 != 0x81 / 4 && NoMoreInputs(rest)
    ensures NoMoreInputs([s] + rest)
  {
  }

  lemma LedTail() returns (t: seq<Short>)
    ensures NoMoreInputs(t) && t == OUTPUT[5..]
  {
    t := [];
    OneMore(Short(0x91, [0x02]), t);
    t := [Short(0x91, [0x02])] + t;
    OneMore(Short(0x95, [0x04]), t);
    t := [Short(0x95, [0x04])] + t;
    OneMore(Short(0x75, [0x08]), t);
    t := [Short(0x75, [0x08])] + t;
    OneMore(Short(0x26, [0xFF, 0x00]), t);
    t := [Short(0x26, [0xFF, 0x00])] + t;
    OneMore(Short(0x15, [0x00]), t);
    t := [Short(0x15, [0x00])] + t;
  }

  lemma OutputTail(led: seq<Short>) returns (t: seq<Short>)
    requires NoMoreInputs(led)
    ensures NoMoreInputs(t) && t == OUTPUT[..5] + led
  {
    t := led;
    OneMore(Short(0x09, [0x43]), t);
    t := [Short(0x09, [0x43])] + t;
    OneMore(Short(0x09, [0x42]), t);
    t := [Short(0x09, [0x42])] + t;
    OneMore(Short(0x09, [0x41]), t);
    t := [Short(0x09, [0x41])] + t;
    OneMore(Short(0x09, [0x40]), t);
    t := [Short(0x09, [0x40])] + t;
    OneMore(Short(0x85, [0x02]), t);
    t := [Short(0x85, [0x02])] + t;
  }

  lemma JoinTails(a: seq<Short>, b: seq<Short>)
    requires NoMoreInputs(a) && NoMoreInputs(b)
    ensures NoMoreInputs(a + b)
  {
  }

  /** The v1 table ends with `CLOSING`, the v2 table with `OUTPUT + CLOSING`. */
  lemma TailsDeclareNoInput()
    ensures NoMoreInputs(CLOSING) && NoMoreInputs(OUTPUT + CLOSING)
  {
    OneMore(Short(0xC0, []), []);
    assert CLOSING == [Short(0xC0, [])] + [];
    var led := LedTail();
    var output := OutputTail(led);
    assert output == OUTPUT;
    JoinTails(OUTPUT, CLOSING);
  }

  function V1(rest: seq<Short>): seq<byte> {
    TablesWellFormed();
    Descriptor(V1_INPUTS, rest)
  }

  function V2(rest: seq<Short>): seq<byte> {
    TablesWellFormed();
    Descriptor(V2_INPUTS, rest)
  }

  // ---- The layout they induce -----------------------------------------------------------------------

  /** Where the `j`-th element of a field starts inside its report. */
  function ElementOffset(fields: seq<Field>, k: nat, j: nat): nat
    requires k < |fields|
  {
    BitOffset(fields, k) + j * fields[k].size
  }

  function SectionSize(sec: Section): nat {
    sec.count as nat * sec.size as nat
  }

  function TotalBits(secs: seq<Section>, k: nat): nat
    requires k <= |secs|
  {
    if k == 0 then 0 else TotalBits(secs, k - 1) + SectionSize(secs[k - 1])
  }

  lemma SameBits(f: Field, sec: Section)
    requires f.count == sec.count && f.size == sec.size
    ensures f.Bits() == SectionSize(sec)
  {
  }

  lemma ReportStep(fields: seq<Field>, id: nat, k: nat, bits: nat)
    requires 0 < k <= |fields| && fields[k - 1].reportId == id && fields[k - 1].Bits() == bits
    ensures ReportBits(fields, id, k) == ReportBits(fields, id, k - 1) + bits
  {
  }

  lemma {:induction false} SectionBits(g: Globals, secs: seq<Section>, k: nat)
    requires Inputs(secs) && k <= |secs|
    ensures ReportBits(FieldsAfter(g, secs), g.reportId, k) == TotalBits(secs, k)
  {
    if k != 0 {
      SectionBits(g, secs, k - 1);
      SectionGeometry(g, secs, k - 1);
      SameBits(FieldsAfter(g, secs)[k - 1], secs[k - 1]);
      ReportStep(FieldsAfter(g, secs), g.reportId, k, SectionSize(secs[k - 1]));
    }
  }

  /** The parsed fields follow the sections one by one: size, usages and position. */
  lemma DescriptorGeometry(inputs: seq<Section>, rest: seq<Short>, k: nat)
    requires Inputs(inputs) && NoMoreInputs(rest) && k <= |inputs|
    ensures var f := ParseOf(Descriptor(inputs, rest)).fields;
      && |f| == |inputs| && ReportBits(f, 1, k) == TotalBits(inputs, k)
      && (k < |f| ==>
            && BitOffset(f, k) == TotalBits(inputs, k)
            && f[k].size == inputs[k].size && f[k].usages == Nats(inputs[k].usages))
  {
    DescriptorFields(inputs, rest);
    SectionBits(AFTER_OPENING, inputs, k);
    if k < |inputs| {
      SectionGeometry(AFTER_OPENING, inputs, k);
    }
  }

  lemma TotalStep(secs: seq<Section>, k: nat, total: nat, bits: nat)
    requires k < |secs| && TotalBits(secs, k) == total && SectionSize(secs[k]) == bits
    ensures TotalBits(secs, k + 1) == total + bits
  {
  }

  /** Where each field of the two tables starts, and where the report ends. */
  lemma Totals()
    ensures TotalBits(V1_INPUTS, 0) == 0 && TotalBits(V1_INPUTS, 1) == 48 && TotalBits(V1_INPUTS, 2) == 62
    ensures TotalBits(V1_INPUTS, 3) == 64 && TotalBits(V1_INPUTS, 4) == 68 && TotalBits(V1_INPUTS, 5) == 72
    ensures TotalBits(V2_INPUTS, 0) == 0 && TotalBits(V2_INPUTS, 1) == 48 && TotalBits(V2_INPUTS, 2) == 65
    ensures TotalBits(V2_INPUTS, 3) == 72 && TotalBits(V2_INPUTS, 4) == 76 && TotalBits(V2_INPUTS, 5) == 80
    ensures TotalBits(V2_INPUTS, 6) == 176 && TotalBits(V2_INPUTS, 7) == 192 && TotalBits(V2_INPUTS, 8) == 208
  {
    TotalStep(V1_INPUTS, 0, 0, 48);
    TotalStep(V1_INPUTS, 1, 48, 14);
    TotalStep(V1_INPUTS, 2, 62, 2);
    TotalStep(V1_INPUTS, 3, 64, 4);
    TotalStep(V1_INPUTS, 4, 68, 4);
    TotalStep(V2_INPUTS, 0, 0, 48);
    TotalStep(V2_INPUTS, 1, 48, 17);
    TotalStep(V2_INPUTS, 2, 65, 7);
    TotalStep(V2_INPUTS, 3, 72, 4);
    TotalStep(V2_INPUTS, 4, 76, 4);
    TotalStep(V2_INPUTS, 5, 80, 96);
    TotalStep(V2_INPUTS, 6, 176, 16);
    TotalStep(V2_INPUTS, 7, 192, 16);
  }

  /** The v1 inputs fill 9 bytes, whatever follows them. */
  lemma V1Geometry(rest: seq<Short>)
    requires NoMoreInputs(rest)
    ensures var f := ParseOf(V1(rest)).fields;
      |f| == 5 && ReportBits(f, 1, 5) == 8 * 9 && f[3].usages == [0x39] && BitOffset(f, 3) == 64
  {
    TablesWellFormed();
    Totals();
    DescriptorGeometry(V1_INPUTS, rest, 3);
    DescriptorGeometry(V1_INPUTS, rest, 5);
  }

  /** The v2 inputs fill 26 bytes, and every extension lies at its declared wire offset. */
  lemma V2Geometry(rest: seq<Short>)
    requires NoMoreInputs(rest)
    ensures var f := ParseOf(V2(rest)).fields;
      && |f| == 8 && ReportBits(f, 1, 8) == 8 * 26
      && f[5].usages == [0x20, 0x21, 0x22, 0x23, 0x24, 0x25]
      && ElementOffset(f, 5, 0) == 8 * (11 - 1) && ElementOffset(f, 5, 3) == 8 * (17 - 1)
      && f[6].usages == [0x30, 0x31]
      && ElementOffset(f, 6, 0) == 8 * (23 - 1) && ElementOffset(f, 6, 1) == 8 * (24 - 1)
      && f[7].usages == [0x32] && ElementOffset(f, 7, 0) == 8 * (25 - 1)
      && f[3].usages == [0x39] && BitOffset(f, 3) == 72
  {
    TablesWellFormed();
    Totals();
    DescriptorGeometry(V2_INPUTS, rest, 3);
    DescriptorGeometry(V2_INPUTS, rest, 5);
    DescriptorGeometry(V2_INPUTS, rest, 6);
    DescriptorGeometry(V2_INPUTS, rest, 7);
    DescriptorGeometry(V2_INPUTS, rest, 8);
  }

  /** Of the five v1 fields, v2 keeps the position of the sticks and the buttons and moves all later ones. */
  lemma PositionKept(rest1: seq<Short>, rest2: seq<Short>, k: nat)
    requires NoMoreInputs(rest1) && NoMoreInputs(rest2) && k < 5
    ensures var a, b := ParseOf(V1(rest1)).fields, ParseOf(V2(rest2)).fields;
      |a| == 5 && |b| == 8 && (BitOffset(b, k) == BitOffset(a, k) <==> k <= 1)
  {
    TablesWellFormed();
    StartsKept(k);
    StartsAt(V1_INPUTS, rest1, k);
    StartsAt(V2_INPUTS, rest2, k);
  }

  lemma StartsKept(k: nat)
    requires k < 5
    ensures TotalBits(V1_INPUTS, k) == TotalBits(V2_INPUTS, k) <==> k <= 1
  {
    Totals();
  }

  lemma StartsAt(inputs: seq<Section>, rest: seq<Short>, k: nat)
    requires Inputs(inputs) && NoMoreInputs(rest) && k < |inputs|
    ensures var f := ParseOf(Descriptor(inputs, rest)).fields;
      |f| == |inputs| && BitOffset(f, k) == TotalBits(inputs, k)
  {
    DescriptorGeometry(inputs, rest, k);
  }

  // ---- The two descriptors -----------------------------------------------------------------

  function V1Descriptor(): seq<byte> {
    V1(CLOSING)
  }

  function V2Descriptor(): seq<byte> {
    V2(OUTPUT + CLOSING)
  }

  /** The v1 report is 9 bytes. */
  lemma V1Layout()
    ensures var f := ParseOf(V1Descriptor()).fields;
      |f| == 5 && ReportBits(f, 1, 5) == 8 * 9 && f[3].usages == [0x39] && BitOffset(f, 3) == 64
  {
    TailsDeclareNoInput();
    V1Geometry(CLOSING);
  }

  /** The v2 report is 26 bytes, and every extension lies at its declared wire offset. */
  lemma V2Layout()
    ensures var f := ParseOf(V2Descriptor()).fields;
      && |f| == 8 && ReportBits(f, 1, 8) == 8 * 26
      && f[5].usages == [0x20, 0x21, 0x22, 0x23, 0x24, 0x25]
      && ElementOffset(f, 5, 0) == 8 * (11 - 1) && ElementOffset(f, 5, 3) == 8 * (17 - 1)
      && f[6].usages == [0x30, 0x31]
      && ElementOffset(f, 6, 0) == 8 * (23 - 1) && ElementOffset(f, 6, 1) == 8 * (24 - 1)
      && f[7].usages == [0x32] && ElementOffset(f, 7, 0) == 8 * (25 - 1)
      && f[3].usages == [0x39] && BitOffset(f, 3) == 72
      && f[5].logicalMin == -32768 && f[5].logicalMax == 32767
  {
    V2Fields();
    TailsDeclareNoInput();
    V2Geometry(OUTPUT + CLOSING);
  }

  lemma DescriptorTaken(inputs: seq<Section>, rest: seq<Short>, k: nat)
    requires Inputs(inputs) && NoMoreInputs(rest) && k < |inputs|
    ensures var f := ParseOf(Descriptor(inputs, rest)).fields; |f| == |inputs| && TakenFrom(f[k], inputs[k])
  {
    DescriptorFields(inputs, rest);
    FieldTaken(AFTER_OPENING, inputs, k);
  }

  lemma WordValue(p: seq<byte>, n: nat)
    requires |p| == 2 && n == p[0] + 0x100 * p[1] as int
    ensures LittleEndian(p) == n && SignedValue(p) == if n < 0x8000 then n else n - 0x1_0000
  {
    BytePowers();
    LittleEndianLiteral(p);
    SignedOfSmall(n, 16);
  }

  /** What the v2 fields mean: 17 buttons, a constant pad, and six signed words on the vendor page. */
  lemma V2Fields()
    ensures var f := ParseOf(V2Descriptor()).fields;
      && |f| == 8
      && f[1].usagePage == 9 && f[1].usageMin == Some(1) && f[1].usageMax == Some(17)
      && !f[1].isConstant && !f[1].isArray && !f[1].isRelative && f[2].isConstant
      && f[5].usagePage == 0xFF00 && f[5].logicalMin == -32768 && f[5].logicalMax == 32767
      && !f[5].isConstant && !f[5].isArray && !f[5].isRelative
  {
    TablesWellFormed();
    TailsDeclareNoInput();
    var f := ParseOf(V2Descriptor()).fields;
    DescriptorTaken(V2_INPUTS, OUTPUT + CLOSING, 1);
    ButtonField(f[1], V2_INPUTS[1]);
    DescriptorTaken(V2_INPUTS, OUTPUT + CLOSING, 2);
    PadField(f[2], V2_INPUTS[2]);
    DescriptorTaken(V2_INPUTS, OUTPUT + CLOSING, 5);
    MotionField(f[5], V2_INPUTS[5]);
  }

  lemma ButtonField(f: Field, sec: Section)
    requires TakenFrom(f, sec) && sec == V2_INPUTS[1]
    ensures f.usagePage == 9 && f.usageMin == Some(1) && f.usageMax == Some(17)
    ensures !f.isConstant && !f.isArray && !f.isRelative
  {
    LittleEndianLiteral(sec.page);
  }

  lemma PadField(f: Field, sec: Section)
    requires TakenFrom(f, sec) && sec == V2_INPUTS[2]
    ensures f.isConstant
  {
  }

  lemma MotionField(f: Field, sec: Section)
    requires TakenFrom(f, sec) && sec == V2_INPUTS[5]
    ensures f.usagePage == 0xFF00 && f.logicalMin == -32768 && f.logicalMax == 32767
    ensures !f.isConstant && !f.isArray && !f.isRelative
  {
    WordValue(sec.page, 0xFF00);
    WordValue(sec.logicalMin, 0x8000);
    WordValue(sec.logicalMax, 0x7FFF);
  }

  /** Which v1 positions survive in v2: the sticks and the buttons stay, both pads and the hat move. */
  lemma V1PositionsKept(k: nat)
    requires k < 5
    ensures var a, b := ParseOf(V1Descriptor()).fields, ParseOf(V2Descriptor()).fields;
      |a| == 5 && |b| == 8 && (BitOffset(b, k) == BitOffset(a, k) <==> k <= 1)
  {
    TailsDeclareNoInput();
    PositionKept(CLOSING, OUTPUT + CLOSING, k);
  }

  /** The hat is the one control among the moved fields: it starts a byte later. */
  lemma HatMoved()
    ensures var a, b := ParseOf(V1Descriptor()).fields, ParseOf(V2Descriptor()).fields;
      |a| == 5 && |b| == 8 && a[3].usages == b[3].usages && BitOffset(b, 3) == BitOffset(a, 3) + 8
  {
    V1Layout();
    V2Layout();
  }

  /** Which v1 items survive in v2: a v1 section is encoded by the same bytes exactly when it is not
      the buttons or the pad after them. */
  lemma V1ItemsKept(k: nat)
    requires k < 5
    ensures Wf(V1_INPUTS[k]) && Wf(V2_INPUTS[k])
    ensures Table(V1_INPUTS[k]) == Table(V2_INPUTS[k]) <==> k != 1 && k != 2
  {
    TablesWellFormed();
    V1SectionsKept(k);
    CountInTable(V1_INPUTS[k]);
    CountInTable(V2_INPUTS[k]);
  }

  lemma V1SectionsKept(k: nat)
    requires k < 5
    ensures k != 1 && k != 2 ==> V1_INPUTS[k] == V2_INPUTS[k]
    ensures k == 1 || k == 2 ==> V1_INPUTS[k].count != V2_INPUTS[k].count
  {
  }

  lemma CountInTable(sec: Section)
    requires Wf(sec)
    ensures |Table(sec)| >= 3 && Table(sec)[|Table(sec)| - 2] == Short(0x95, [sec.count])
  {
  }
}
