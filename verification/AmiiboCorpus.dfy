// Equivalence groups and summary counts over a corpus of dumps.

module AmiiboCorpus {
  import opened Bits
  import opened Options
  import opened AmiiboImage

  /** A dump's identity on one axis; hashing is idealised as injective. */
  type Key = seq<byte>

  // ---- Dense numbering --------------------------------------------------------------

  /** The distinct keys in the order they first appear; `None` entries take no part. */
  function Distinct(keys: seq<Option<Key>>): (order: seq<Key>)
    decreases |keys|
  {
    if keys == [] then []
    else
      var before, k := Distinct(keys[..|keys| - 1]), keys[|keys| - 1];
      if k == None || k.value in before then before else before + [k.value]
  }

  predicate NoRepeats<T(==)>(s: seq<T>) {
    forall i, j :: 0 <= i < j < |s| ==> s[i] != s[j]
  }

  function IndexOf(order: seq<Key>, k: Key): (i: nat)
    requires k in order
    ensures i < |order| && order[i] == k
  {
    if order[0] == k then 0 else 1 + IndexOf(order[1..], k)
  }

  lemma {:induction false} DistinctFacts(keys: seq<Option<Key>>)
    ensures NoRepeats(Distinct(keys))
    ensures forall k :: k in Distinct(keys) <==> Some(k) in keys
    decreases |keys|
  {
    if keys != [] {
      var init, last := keys[..|keys| - 1], keys[|keys| - 1];
      DistinctFacts(init);
      assert keys == init + [last];
    }
  }

  lemma DistinctAppend(keys: seq<Option<Key>>, k: Option<Key>)
    ensures Distinct(keys + [k])
      == if k == None || k.value in Distinct(keys) then Distinct(keys) else Distinct(keys) + [k.value]
  {
    assert (keys + [k])[..|keys|] == keys;
  }

  lemma {:induction false} DistinctPrefix(keys: seq<Option<Key>>, n: nat)
    requires n <= |keys|
    ensures Distinct(keys[..n]) <= Distinct(keys)
    decreases |keys|
  {
    if n < |keys| {
      DistinctPrefix(keys[..|keys| - 1], n);
      assert keys[..|keys| - 1][..n] == keys[..n];
    } else {
      assert keys[..n] == keys;
    }
  }

  lemma IndexUnique(order: seq<Key>, k: Key, i: nat)
    requires NoRepeats(order) && i < |order| && order[i] == k
    ensures k in order && IndexOf(order, k) == i
  {
  }

  function GroupId(keys: seq<Option<Key>>, i: nat): Option<nat>
    requires i < |keys|
  {
    if keys[i] == None then None
    else
      DistinctFacts(keys);
      Some(IndexOf(Distinct(keys), keys[i].value))
  }

  /** Ids agree exactly when keys do. */
  lemma IdsReflectKeys(keys: seq<Option<Key>>, i: nat, j: nat)
    requires i < |keys| && j < |keys|
    ensures GroupId(keys, i) == GroupId(keys, j) <==> keys[i] == keys[j]
  {
    DistinctFacts(keys);
  }

  ghost predicate Uses(keys: seq<Option<Key>>, id: nat) {
    exists i :: 0 <= i < |keys| && GroupId(keys, i) == Some(id)
  }

  /** The ids in use are exactly 0, 1, ..., one for each distinct key. */
  lemma IdsDense(keys: seq<Option<Key>>, id: nat)
    ensures Uses(keys, id) <==> id < |Distinct(keys)|
  {
    DistinctFacts(keys);
    if id < |Distinct(keys)| {
      var k := Distinct(keys)[id];
      var i :| 0 <= i < |keys| && keys[i] == Some(k);
      IndexUnique(Distinct(keys), k, id);
      assert GroupId(keys, i) == Some(id);
    }
  }

  /** A new id is always the smallest one not used by an earlier entry. */
  lemma FirstAppearanceOrder(keys: seq<Option<Key>>, i: nat)
    requires i < |keys| && keys[i].Some? && keys[i] !in keys[..i]
    ensures GroupId(keys, i) == Some(|Distinct(keys[..i])|)
  {
    DistinctFacts(keys);
    DistinctFacts(keys[..i]);
    assert keys[..i + 1][..i] == keys[..i];
    assert keys[..i + 1] == keys[..i] + [keys[i]];
    DistinctAppend(keys[..i], keys[i]);
    DistinctPrefix(keys, i + 1);
    IndexUnique(Distinct(keys), keys[i].value, |Distinct(keys[..i])|);
  }

  // ---- Grouping a corpus ---------------------------------------------------------------

  /** What a manifest reads of one image. */
  datatype Entry = Entry(data: seq<byte>, issues: seq<Issue>, fields: Fields)

  function EntryOf(image: Image): Entry
    reads image
  {
    Entry(image.data, image.issues, image.fields)
  }

  function Snapshot(images: seq<Image>): (es: seq<Entry>)
    reads images
    ensures |es| == |images|
  {
    seq(|images|, i requires 0 <= i < |images| reads images => EntryOf(images[i]))
  }

  /** Python's `data[lo:]`. */
  function From(data: seq<byte>, lo: nat): seq<byte> {
    if lo <= |data| then data[lo..] else []
  }

  function BodyKey(e: Entry): Option<Key> {
    if e.fields.format == V3
    then Some(Slice(e.data, 0, SRAM_OFFSET) + From(e.data, SRAM_OFFSET + SRAM_SIZE))
    else None
  }

  function SramKey(e: Entry): Option<Key> {
    if e.fields.format == V3 then Some(Slice(e.data, SRAM_OFFSET, SRAM_OFFSET + SRAM_SIZE)) else None
  }

  /** An empty amiibo id is falsy and joins no group. */
  function IdentityKey(e: Entry): Option<Key> {
    if e.fields.amiiboId != [] then Some(e.fields.amiiboId) else None
  }

  function Keys(es: seq<Entry>, key: Entry -> Option<Key>): (ks: seq<Option<Key>>)
    ensures |ks| == |es|
  {
    seq(|es|, i requires 0 <= i < |es| => key(es[i]))
  }

  function Pick(id: Option<nat>, before: Option<nat>): Option<nat> {
    if id.Some? then id else before
  }

  function Regrouped(es: seq<Entry>, i: nat): Fields
    requires i < |es|
  {
    var f := es[i].fields;
    f.(bodyGroup := Pick(GroupId(Keys(es, BodyKey), i), f.bodyGroup),
       sramGroup := Pick(GroupId(Keys(es, SramKey), i), f.sramGroup),
       identityGroup := Pick(GroupId(Keys(es, IdentityKey), i), f.identityGroup))
  }

  function Grouped(es: seq<Entry>): (out: seq<Entry>)
    ensures |out| == |es|
  {
    seq(|es|, i requires 0 <= i < |es| => es[i].(fields := Regrouped(es, i)))
  }

  // ---- The dictionary the loop fills -----------------------------------------------------

  /** The dictionary numbers the keys of `order` by position. */
  ghost predicate Numbers(ids: map<Key, nat>, order: seq<Key>) {
    && |ids| == |order|
    && (forall k :: k in ids <==> k in order)
    && forall k :: k in ids ==> ids[k] < |order| && order[ids[k]] == k
  }

  lemma NumbersAppend(ids: map<Key, nat>, order: seq<Key>, key: Key)
    requires Numbers(ids, order) && key !in order
    ensures Numbers(ids[key := |ids|], order + [key])
  {
    var out, order' := ids[key := |ids|], order + [key];
    assert out.Keys == ids.Keys + {key};
    forall k ensures k in out <==> k in order' {
    }
    forall k | k in out ensures out[k] < |order'| && order'[out[k]] == k {
      if k != key {
        assert order[ids[k]] == k;
      }
    }
  }

  /** `ids.setdefault(key, len(ids))` */
  method SetDefault(ids: map<Key, nat>, key: Key, ghost order: seq<Key>) returns (out: map<Key, nat>, id: nat)
    requires Numbers(ids, order) && NoRepeats(order)
    ensures var order' := if key in order then order else order + [key];
      Numbers(out, order') && NoRepeats(order') && key in order' && id == IndexOf(order', key)
  {
    if key in ids {
      out, id := ids, ids[key];
      IndexUnique(order, key, id);
    } else {
      NumbersAppend(ids, order, key);
      out, id := ids[key := |ids|], |ids|;
      assert (order + [key])[id] == key;
      IndexUnique(order + [key], key, id);
    }
  }

  lemma PrefixIndex(keys: seq<Option<Key>>, i: nat)
    requires i < |keys| && keys[i].Some?
    ensures var order := Distinct(keys[..i + 1]);
      keys[i].value in order && Some(IndexOf(order, keys[i].value)) == GroupId(keys, i)
  {
    DistinctFacts(keys[..i + 1]);
    DistinctFacts(keys);
    assert keys[..i + 1][i] == keys[i];
    DistinctPrefix(keys, i + 1);
    var order := Distinct(keys[..i + 1]);
    IndexUnique(Distinct(keys), keys[i].value, IndexOf(order, keys[i].value));
  }

  lemma SameKeySameId(es: seq<Entry>, i: nat, j: nat)
    requires i < |es| && j < |es| && es[i] == es[j]
    ensures Regrouped(es, i) == Regrouped(es, j)
  {
    IdsReflectKeys(Keys(es, BodyKey), i, j);
    IdsReflectKeys(Keys(es, SramKey), i, j);
    IdsReflectKeys(Keys(es, IdentityKey), i, j);
  }

  /** One dictionary step of the loop, for one axis. */
  method Assign(ids: map<Key, nat>, key: Option<Key>, ghost keys: seq<Option<Key>>, ghost n: nat)
    returns (out: map<Key, nat>, id: Option<nat>)
    requires n < |keys| && keys[n] == key
    requires Numbers(ids, Distinct(keys[..n]))
    ensures Numbers(out, Distinct(keys[..n + 1]))
    ensures id == GroupId(keys, n)
  {
    DistinctFacts(keys[..n]);
    assert keys[..n + 1] == keys[..n] + [key];
    DistinctAppend(keys[..n], key);
    out, id := ids, None;
    if key.Some? {
      var i;
      out, i := SetDefault(ids, key.value, Distinct(keys[..n]));
      id := Some(i);
      PrefixIndex(keys, n);
    }
  }

  /** An image met again is numbered again, to the same effect. */
  lemma Renumber(es: seq<Entry>, n: nat, f: Fields)
    requires n < |es| && (f == es[n].fields || f == Regrouped(es, n))
    ensures var e := es[n].(fields := f);
      BodyKey(e) == BodyKey(es[n]) && SramKey(e) == SramKey(es[n]) && IdentityKey(e) == IdentityKey(es[n])
    ensures f.(bodyGroup := Pick(GroupId(Keys(es, BodyKey), n), f.bodyGroup),
               sramGroup := Pick(GroupId(Keys(es, SramKey), n), f.sramGroup),
               identityGroup := Pick(GroupId(Keys(es, IdentityKey), n), f.identityGroup)) == Regrouped(es, n)
  {
  }

  ghost predicate Progress(images: seq<Image>, es: seq<Entry>, n: nat)
    requires |es| == |images| && n <= |images|
    reads images
  {
    forall i :: 0 <= i < |images| ==>
      images[i].data == es[i].data && images[i].issues == es[i].issues
      && images[i].fields == if images[i] in images[..n] then Regrouped(es, i) else es[i].fields
  }

  ghost predicate OneEntryPerObject(images: seq<Image>, es: seq<Entry>)
    requires |es| == |images|
  {
    forall i, j :: 0 <= i < |images| && 0 <= j < |images| && images[i] == images[j] ==> es[i] == es[j]
  }

  /** The three dictionary steps for entry `n`, and the fields that result. */
  method Renumbered(body: map<Key, nat>, sram: map<Key, nat>, identity: map<Key, nat>,
                    e: Entry, ghost es: seq<Entry>, ghost n: nat)
    returns (body': map<Key, nat>, sram': map<Key, nat>, identity': map<Key, nat>, fields: Fields)
    requires n < |es| && e == es[n].(fields := e.fields)
    requires e.fields == es[n].fields || e.fields == Regrouped(es, n)
    requires Numbers(body, Distinct(Keys(es, BodyKey)[..n]))
    requires Numbers(sram, Distinct(Keys(es, SramKey)[..n]))
    requires Numbers(identity, Distinct(Keys(es, IdentityKey)[..n]))
    ensures Numbers(body', Distinct(Keys(es, BodyKey)[..n + 1]))
    ensures Numbers(sram', Distinct(Keys(es, SramKey)[..n + 1]))
    ensures Numbers(identity', Distinct(Keys(es, IdentityKey)[..n + 1]))
    ensures fields == Regrouped(es, n)
  {
    Renumber(es, n, e.fields);
    var bodyId, sramId, identityId;
    body', bodyId := Assign(body, BodyKey(e), Keys(es, BodyKey), n);
    sram', sramId := Assign(sram, SramKey(e), Keys(es, SramKey), n);
    identity', identityId := Assign(identity, IdentityKey(e), Keys(es, IdentityKey), n);
    fields := e.fields.(
      bodyGroup := Pick(bodyId, e.fields.bodyGroup),
      sramGroup := Pick(sramId, e.fields.sramGroup),
      identityGroup := Pick(identityId, e.fields.identityGroup));
  }

  method Store(images: seq<Image>, n: nat, fields: Fields, ghost es: seq<Entry>)
    requires n < |images| == |es| && OneEntryPerObject(images, es)
    requires Progress(images, es, n) && fields == Regrouped(es, n)
    modifies images
    ensures Progress(images, es, n + 1)
  {
    images[n].fields := fields;
    forall i | 0 <= i < |images|
      ensures images[i].fields == if images[i] in images[..n + 1] then Regrouped(es, i) else es[i].fields
    {
      assert images[..n + 1] == images[..n] + [images[n]];
      if images[i] == images[n] {
        SameKeySameId(es, i, n);
      }
    }
  }

  /** Numbers all three axes in one pass; the same object may occur more than once. */
  method GroupImages(images: seq<Image>)
    modifies images
    ensures Snapshot(images) == Grouped(old(Snapshot(images)))
  {
    ghost var es := Snapshot(images);
    var body: map<Key, nat>, sram: map<Key, nat>, identity: map<Key, nat> := map[], map[], map[];
    for n := 0 to |images|
      invariant Numbers(body, Distinct(Keys(es, BodyKey)[..n]))
      invariant Numbers(sram, Distinct(Keys(es, SramKey)[..n]))
      invariant Numbers(identity, Distinct(Keys(es, IdentityKey)[..n]))
      invariant Progress(images, es, n)
    {
      var fields;
      body, sram, identity, fields := Renumbered(body, sram, identity, EntryOf(images[n]), es, n);
      Store(images, n, fields, es);
    }
    assert images[..|images|] == images;
    assert Snapshot(images) == Grouped(es);
  }

  // ---- Summary counts --------------------------------------------------------------------

  function Count(es: seq<Entry>, p: Entry -> bool): (n: nat)
    ensures n <= |es|
  {
    if es == [] then 0 else Count(es[..|es| - 1], p) + if p(es[|es| - 1]) then 1 else 0
  }

  predicate IsSkipped(e: Entry) { e.fields.skipped }
  predicate IsRuntimeSafe(e: Entry) { e.issues == [] && !e.fields.skipped }
  predicate IsUnsafe(e: Entry) { e.issues != [] }

  function HasFormat(f: Format): Entry -> bool {
    (e: Entry) => e.fields.format == f
  }

  datatype Summary = Summary(
    images: nat, skipped: nat, runtimeSafe: nat, unsafe: nat, formats: map<Format, nat>,
    bodyGroups: nat, sramGroups: nat, identityGroups: nat)

  function Ids(es: seq<Entry>, id: Entry -> Option<nat>): set<nat> {
    set i | 0 <= i < |es| && id(es[i]).Some? :: id(es[i]).value
  }

  function Total(formats: map<Format, nat>): nat {
    (if Ntag215 in formats then formats[Ntag215] else 0)
    + (if Ntag215Extended in formats then formats[Ntag215Extended] else 0)
    + (if V3 in formats then formats[V3] else 0)
    + (if Unsupported in formats then formats[Unsupported] else 0)
  }

  method Summarize(es: seq<Entry>) returns (s: Summary)
    ensures s.images == |es|
    ensures s.skipped == Count(es, IsSkipped) && s.runtimeSafe == Count(es, IsRuntimeSafe)
    ensures s.unsafe == Count(es, IsUnsafe)
    ensures Tallies(s.formats, es)
    ensures s.bodyGroups == |Ids(es, (e: Entry) => e.fields.bodyGroup)|
    ensures s.sramGroups == |Ids(es, (e: Entry) => e.fields.sramGroup)|
    ensures s.identityGroups == |Ids(es, (e: Entry) => e.fields.identityGroup)|
  {
    var formats := CountFormats(es);
    s := Summary(|es|, Count(es, IsSkipped), Count(es, IsRuntimeSafe), Count(es, IsUnsafe), formats,
      |Ids(es, (e: Entry) => e.fields.bodyGroup)|, |Ids(es, (e: Entry) => e.fields.sramGroup)|,
      |Ids(es, (e: Entry) => e.fields.identityGroup)|);
  }

  ghost predicate Occurs(es: seq<Entry>, f: Format) {
    exists i :: 0 <= i < |es| && es[i].fields.format == f
  }

  /** The tally lists exactly the formats that occur, each with its count. */
  ghost predicate Tallies(formats: map<Format, nat>, es: seq<Entry>) {
    && (forall f :: f in formats <==> Occurs(es, f))
    && (forall f :: f in formats ==> formats[f] == CountOf(es, f))
    && Total(formats) == |es|
  }

  function CountOf(es: seq<Entry>, f: Format): nat {
    Count(es, HasFormat(f))
  }

  function Tick(formats: map<Format, nat>, f: Format): map<Format, nat> {
    formats[f := (if f in formats then formats[f] else 0) + 1]
  }

  method CountFormats(es: seq<Entry>) returns (formats: map<Format, nat>)
    ensures Tallies(formats, es)
  {
    formats := map[];
    for n := 0 to |es|
      invariant Tallies(formats, es[..n])
    {
      TallyStep(formats, es[..n], es[n]);
      assert es[..n + 1] == es[..n] + [es[n]];
      formats := Tick(formats, es[n].fields.format);
    }
    assert es[..|es|] == es;
  }

  lemma OccursStep(es: seq<Entry>, e: Entry, g: Format)
    ensures Occurs(es + [e], g) <==> Occurs(es, g) || g == e.fields.format
  {
    assert (es + [e])[|es|] == e;
    if Occurs(es, g) {
      var i :| 0 <= i < |es| && es[i].fields.format == g;
      assert (es + [e])[i].fields.format == g;
    }
    if Occurs(es + [e], g) {
      var i :| 0 <= i < |es| + 1 && (es + [e])[i].fields.format == g;
      assert i < |es| ==> es[i].fields.format == g;
    }
  }

  lemma CountStep(es: seq<Entry>, e: Entry, g: Format)
    ensures CountOf(es + [e], g) == CountOf(es, g) + if g == e.fields.format then 1 else 0
    ensures !Occurs(es, g) ==> CountOf(es, g) == 0
  {
    assert (es + [e])[..|es|] == es;
    if !Occurs(es, g) {
      AbsentCount(es, g);
    }
  }

  lemma TickTotal(formats: map<Format, nat>, f: Format)
    ensures Total(Tick(formats, f)) == Total(formats) + 1
  {
    match f
    case Ntag215 =>
    case Ntag215Extended =>
    case V3 =>
    case Unsupported =>
  }

  lemma TallyStep(formats: map<Format, nat>, es: seq<Entry>, e: Entry)
    requires Tallies(formats, es)
    ensures Tallies(Tick(formats, e.fields.format), es + [e])
  {
    var out := Tick(formats, e.fields.format);
    TickTotal(formats, e.fields.format);
    forall g: Format
      ensures g in out <==> Occurs(es + [e], g)
      ensures g in out ==> out[g] == CountOf(es + [e], g)
    {
      OccursStep(es, e, g);
      CountStep(es, e, g);
    }
  }

  lemma {:induction false} AbsentCount(es: seq<Entry>, f: Format)
    requires forall i :: 0 <= i < |es| ==> es[i].fields.format != f
    ensures Count(es, HasFormat(f)) == 0
    decreases |es|
  {
    if es != [] {
      AbsentCount(es[..|es| - 1], f);
    }
  }

  /** The entry of a dump that was loaded and perhaps grouped. */
  predicate Loaded(e: Entry) {
    && e.issues == IssuesOf(e.data)
    && FieldsOf(e.data) == e.fields.(bodyGroup := None, sramGroup := None, identityGroup := None)
  }

  /** Skipped, runtime-safe and unsafe dumps partition every corpus. */
  lemma {:induction false} CountsPartition(es: seq<Entry>)
    requires forall i :: 0 <= i < |es| ==> Loaded(es[i])
    ensures Count(es, IsSkipped) + Count(es, IsRuntimeSafe) + Count(es, IsUnsafe) == |es|
    decreases |es|
  {
    if es != [] {
      CountsPartition(es[..|es| - 1]);
      var e := es[|es| - 1];
      assert Loaded(e);
      assert e.fields.skipped ==> e.issues == [];
    }
  }

  /** Freshly loaded dumps, before any grouping. */
  predicate Fresh(e: Entry) {
    e.issues == IssuesOf(e.data) && e.fields == FieldsOf(e.data)
  }

  lemma {:induction false} Range(s: set<nat>, n: nat)
    requires forall x: nat :: x in s <==> x < n
    ensures |s| == n
  {
    if n == 0 {
      assert s == {};
    } else {
      Range(s - {n - 1}, n - 1);
    }
  }

  lemma AxisCount(es: seq<Entry>, keys: seq<Option<Key>>, id: Entry -> Option<nat>)
    requires |keys| == |es| && forall i :: 0 <= i < |es| ==> id(es[i]) == GroupId(keys, i)
    ensures |Ids(es, id)| == |Distinct(keys)|
  {
    forall x: nat ensures x in Ids(es, id) <==> x < |Distinct(keys)| {
      IdsDense(keys, x);
      if Uses(keys, x) {
        var i :| 0 <= i < |keys| && GroupId(keys, i) == Some(x);
        assert id(es[i]) == Some(x);
      }
      if x in Ids(es, id) {
        var i :| 0 <= i < |es| && id(es[i]).Some? && id(es[i]).value == x;
        assert GroupId(keys, i) == Some(x);
      }
    }
    Range(Ids(es, id), |Distinct(keys)|);
  }

  /** After grouping, the manifest's group counts are the numbers of distinct keys. */
  lemma GroupCounts(es: seq<Entry>)
    requires forall i :: 0 <= i < |es| ==> Fresh(es[i])
    ensures |Ids(Grouped(es), (e: Entry) => e.fields.bodyGroup)| == |Distinct(Keys(es, BodyKey))|
    ensures |Ids(Grouped(es), (e: Entry) => e.fields.sramGroup)| == |Distinct(Keys(es, SramKey))|
    ensures |Ids(Grouped(es), (e: Entry) => e.fields.identityGroup)| == |Distinct(Keys(es, IdentityKey))|
  {
    AxisCount(Grouped(es), Keys(es, BodyKey), (e: Entry) => e.fields.bodyGroup);
    AxisCount(Grouped(es), Keys(es, SramKey), (e: Entry) => e.fields.sramGroup);
    AxisCount(Grouped(es), Keys(es, IdentityKey), (e: Entry) => e.fields.identityGroup);
  }

  /** Two v3 dumps share both their body and their SRAM group exactly when they are identical. */
  lemma SharedGroupsMeanIdentical(es: seq<Entry>, i: nat, j: nat)
    requires i < |es| && j < |es| && forall k :: 0 <= k < |es| ==> Fresh(es[k])
    requires |es[i].data| == V3_SIZE && |es[j].data| == V3_SIZE
    ensures var out := Grouped(es);
      (out[i].fields.bodyGroup == out[j].fields.bodyGroup && out[i].fields.sramGroup == out[j].fields.sramGroup)
      <==> es[i].data == es[j].data
  {
    assert Fresh(es[i]) && Fresh(es[j]);
    IdsReflectKeys(Keys(es, BodyKey), i, j);
    IdsReflectKeys(Keys(es, SramKey), i, j);
    if BodyKey(es[i]) == BodyKey(es[j]) && SramKey(es[i]) == SramKey(es[j]) {
      Parts(es[i].data, es[j].data);
    }
  }

  lemma Parts(a: seq<byte>, b: seq<byte>)
    requires |a| == |b| == V3_SIZE
    requires a[..SRAM_OFFSET] + a[SRAM_OFFSET + SRAM_SIZE..] == b[..SRAM_OFFSET] + b[SRAM_OFFSET + SRAM_SIZE..]
    requires a[SRAM_OFFSET..SRAM_OFFSET + SRAM_SIZE] == b[SRAM_OFFSET..SRAM_OFFSET + SRAM_SIZE]
    ensures a == b
  {
    var x, y := a[..SRAM_OFFSET] + a[SRAM_OFFSET + SRAM_SIZE..], b[..SRAM_OFFSET] + b[SRAM_OFFSET + SRAM_SIZE..];
    assert x[..SRAM_OFFSET] == a[..SRAM_OFFSET] && x[SRAM_OFFSET..] == a[SRAM_OFFSET + SRAM_SIZE..];
    assert y[..SRAM_OFFSET] == b[..SRAM_OFFSET] && y[SRAM_OFFSET..] == b[SRAM_OFFSET + SRAM_SIZE..];
    assert a == a[..SRAM_OFFSET] + a[SRAM_OFFSET..SRAM_OFFSET + SRAM_SIZE] + a[SRAM_OFFSET + SRAM_SIZE..];
    assert b == b[..SRAM_OFFSET] + b[SRAM_OFFSET..SRAM_OFFSET + SRAM_SIZE] + b[SRAM_OFFSET + SRAM_SIZE..];
  }

  /** Grouping neither hides nor invents an issue, so the partition of a loaded corpus survives it. */
  lemma GroupingKeepsLoaded(es: seq<Entry>, i: nat)
    requires i < |es| && Fresh(es[i])
    ensures Loaded(Grouped(es)[i])
  {
  }
}
