// The tool end to end: load every file, number the groups, count the corpus.

module AmiiboSurvey {
  import opened Bits
  import opened Options
  import opened AmiiboImage
  import opened AmiiboCorpus

  type File = seq<byte>

  // ---- What the summary should say about the files -------------------------------------

  predicate Recognised(f: File) {
    |f| in {540, 572, 2048}
  }

  predicate Sound(f: File) {
    Recognised(f) && IssuesOf(f) == []
  }

  predicate Faulty(f: File) {
    IssuesOf(f) != []
  }

  function FormatOf(f: File): Format {
    if |f| == 540 then Ntag215 else if |f| == 572 then Ntag215Extended else if |f| == 2048 then V3 else Unsupported
  }

  /** The positions of the files with a property. */
  function Where(files: seq<File>, p: File -> bool): set<nat> {
    set i: nat | i < |files| && p(files[i])
  }

  /** Everything outside the SRAM window of each v3 file. */
  function Bodies(files: seq<File>): set<seq<byte>> {
    set i | 0 <= i < |files| && |files[i]| == 2048 :: files[i][..0x3C0] + files[i][0x400..]
  }

  function Windows(files: seq<File>): set<seq<byte>> {
    set i | 0 <= i < |files| && |files[i]| == 2048 :: files[i][0x3C0..0x400]
  }

  function Identities(files: seq<File>): set<seq<byte>> {
    set i | 0 <= i < |files| && Recognised(files[i]) :: files[i][0x54..0x5C]
  }

  // ---- From counts over entries to counts over files -----------------------------------

  /** The entries of the files just loaded. */
  predicate LoadedFrom(files: seq<File>, es: seq<Entry>) {
    |es| == |files| && forall i :: 0 <= i < |es| ==> es[i].data == files[i] && Fresh(es[i])
  }

  lemma {:induction false} CountIsWhere(files: seq<File>, out: seq<Entry>, p: File -> bool, q: Entry -> bool)
    requires |out| == |files| && forall i :: 0 <= i < |out| ==> q(out[i]) == p(files[i])
    ensures Count(out, q) == |Where(files, p)|
    decreases |files|
  {
    if files == [] {
      assert Where(files, p) == {};
    } else {
      var n := |files| - 1;
      CountIsWhere(files[..n], out[..n], p, q);
      assert Where(files, p) == Where(files[..n], p) + if p(files[n]) then {n} else {};
    }
  }

  lemma {:induction false} NoRepeatsSize<T>(s: seq<T>)
    requires NoRepeats(s)
    ensures |set x | x in s| == |s|
    decreases |s|
  {
    if s != [] {
      var n := |s| - 1;
      NoRepeatsSize(s[..n]);
      assert s == s[..n] + [s[n]];
      assert (set x | x in s) == (set x | x in s[..n]) + {s[n]};
    }
  }

  /** As many distinct keys as there are different keys. */
  lemma DistinctSize(keys: seq<Option<Key>>, values: set<Key>)
    requires forall k :: k in values <==> Some(k) in keys
    ensures |Distinct(keys)| == |values|
  {
    DistinctFacts(keys);
    NoRepeatsSize(Distinct(keys));
    assert values == set k | k in Distinct(keys);
  }

  lemma BodyKeyOf(e: Entry)
    requires Fresh(e)
    ensures BodyKey(e)
      == if |e.data| == 2048 then Some(e.data[..0x3C0] + e.data[0x400..]) else None
    ensures SramKey(e) == if |e.data| == 2048 then Some(e.data[0x3C0..0x400]) else None
    ensures IdentityKey(e)
      == if Recognised(e.data) then Some(e.data[0x54..0x5C]) else None
  {
  }

  lemma BodyCount(files: seq<File>, es: seq<Entry>)
    requires LoadedFrom(files, es)
    ensures |Distinct(Keys(es, BodyKey))| == |Bodies(files)|
  {
    var keys := Keys(es, BodyKey);
    forall k ensures k in Bodies(files) <==> Some(k) in keys {
      if k in Bodies(files) {
        var i :| 0 <= i < |files| && |files[i]| == 2048
          && k == files[i][..0x3C0] + files[i][0x400..];
        BodyKeyOf(es[i]);
        assert keys[i] == Some(k);
      }
      if Some(k) in keys {
        var i :| 0 <= i < |keys| && keys[i] == Some(k);
        BodyKeyOf(es[i]);
      }
    }
    DistinctSize(keys, Bodies(files));
  }

  lemma WindowCount(files: seq<File>, es: seq<Entry>)
    requires LoadedFrom(files, es)
    ensures |Distinct(Keys(es, SramKey))| == |Windows(files)|
  {
    var keys := Keys(es, SramKey);
    forall k ensures k in Windows(files) <==> Some(k) in keys {
      if k in Windows(files) {
        var i :| 0 <= i < |files| && |files[i]| == 2048 && k == files[i][0x3C0..0x400];
        BodyKeyOf(es[i]);
        assert keys[i] == Some(k);
      }
      if Some(k) in keys {
        var i :| 0 <= i < |keys| && keys[i] == Some(k);
        BodyKeyOf(es[i]);
      }
    }
    DistinctSize(keys, Windows(files));
  }

  lemma IdentityCount(files: seq<File>, es: seq<Entry>)
    requires LoadedFrom(files, es)
    ensures |Distinct(Keys(es, IdentityKey))| == |Identities(files)|
  {
    var keys := Keys(es, IdentityKey);
    forall k ensures k in Identities(files) <==> Some(k) in keys {
      if k in Identities(files) {
        var i :| 0 <= i < |files| && Recognised(files[i])
          && k == files[i][0x54..0x5C];
        BodyKeyOf(es[i]);
        assert keys[i] == Some(k);
      }
      if Some(k) in keys {
        var i :| 0 <= i < |keys| && keys[i] == Some(k);
        BodyKeyOf(es[i]);
      }
    }
    DistinctSize(keys, Identities(files));
  }

  /** Grouping changes nothing that the counts look at. */
  lemma VerdictsOf(e: Entry, f: Format)
    requires Loaded(e)
    ensures IsSkipped(e) == !Recognised(e.data) && IsRuntimeSafe(e) == Sound(e.data) && IsUnsafe(e) == Faulty(e.data)
    ensures HasFormat(f)(e) == (FormatOf(e.data) == f)
  {
  }

  lemma CountsOfFiles(files: seq<File>, es: seq<Entry>)
    requires LoadedFrom(files, es)
    ensures Count(Grouped(es), IsSkipped) == |Where(files, f => !Recognised(f))|
    ensures Count(Grouped(es), IsRuntimeSafe) == |Where(files, Sound)|
    ensures Count(Grouped(es), IsUnsafe) == |Where(files, Faulty)|
    ensures Count(Grouped(es), IsSkipped) + Count(Grouped(es), IsRuntimeSafe) + Count(Grouped(es), IsUnsafe) == |files|
  {
    var out := Grouped(es);
    forall i | 0 <= i < |out| ensures Loaded(out[i]) && out[i].data == files[i] {
      GroupingKeepsLoaded(es, i);
    }
    forall i | 0 <= i < |out|
      ensures IsSkipped(out[i]) == !Recognised(files[i])
      ensures IsRuntimeSafe(out[i]) == Sound(files[i]) && IsUnsafe(out[i]) == Faulty(files[i])
    {
      VerdictsOf(out[i], V3);
    }
    CountIsWhere(files, out, f => !Recognised(f), IsSkipped);
    CountIsWhere(files, out, Sound, IsRuntimeSafe);
    CountIsWhere(files, out, Faulty, IsUnsafe);
    CountsPartition(out);
  }

  lemma FormatCount(files: seq<File>, es: seq<Entry>, format: Format)
    requires LoadedFrom(files, es)
    ensures CountOf(Grouped(es), format) == |Where(files, f => FormatOf(f) == format)|
  {
    var out := Grouped(es);
    forall i | 0 <= i < |out| ensures HasFormat(format)(out[i]) == (FormatOf(files[i]) == format) {
      GroupingKeepsLoaded(es, i);
      VerdictsOf(out[i], format);
    }
    CountIsWhere(files, out, f => FormatOf(f) == format, HasFormat(format));
  }

  // ---- The tool -------------------------------------------------------------------------

  method LoadAll(files: seq<File>) returns (images: seq<Image>)
    ensures (forall i :: 0 <= i < |images| ==> fresh(images[i])) && LoadedFrom(files, Snapshot(images))
  {
    images := [];
    ghost var es: seq<Entry> := [];
    for n := 0 to |files|
      invariant |images| == |es| == n && forall i :: 0 <= i < n ==> fresh(images[i])
      invariant forall i :: 0 <= i < n ==> es[i].data == files[i] && Fresh(es[i])
      invariant forall i :: 0 <= i < n ==> EntryOf(images[i]) == es[i]
    {
      var image := LoadImage(files[n]);
      FreshEntry(files[n], EntryOf(image));
      images, es := images + [image], es + [EntryOf(image)];
    }
    assert Snapshot(images) == es;
  }

  lemma FreshEntry(file: File, e: Entry)
    requires e.data == file && e.issues == IssuesOf(file) && e.fields == FieldsOf(file)
    ensures Fresh(e)
  {
  }

  /** Over any files: three verdicts that add up, a full format tally, and one group per distinct key. */
  method Survey(files: seq<File>) returns (s: Summary)
    ensures s.images == |files| && s.skipped + s.runtimeSafe + s.unsafe == |files|
    ensures s.skipped == |Where(files, f => !Recognised(f))|
    ensures s.runtimeSafe == |Where(files, Sound)| && s.unsafe == |Where(files, Faulty)|
    ensures forall k :: k in s.formats ==> s.formats[k] == |Where(files, f => FormatOf(f) == k)|
    ensures Total(s.formats) == |files|
    ensures s.bodyGroups == |Bodies(files)| && s.sramGroups == |Windows(files)|
    ensures s.identityGroups == |Identities(files)|
  {
    var images := LoadAll(files);
    ghost var es := Snapshot(images);
    GroupImages(images);
    s := Summarize(Snapshot(images));
    CountsOfFiles(files, es);
    GroupCounts(es);
    BodyCount(files, es);
    WindowCount(files, es);
    IdentityCount(files, es);
    forall k | k in s.formats ensures s.formats[k] == |Where(files, f => FormatOf(f) == k)| {
      FormatCount(files, es, k);
    }
  }
}
