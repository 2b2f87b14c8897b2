/**
 tools/package/onos_stage.py: nested loops write an archive, skipping every destination that is
 already in a module-level set of written names.
 */
module OnosStage {
  import opened Options

  type Bytes = seq<int>

  datatype Entry = Entry(dest: string, content: Bytes)

  /** A member of a zip, or the app description found in an oar: its xml and the name in it. */
  datatype Member = Member(filename: string, content: Bytes)
  datatype App = App(xml: Bytes, name: string)

  /** An input file: its name, its own bytes, its members, and its app description if there is one. */
  datatype InputFile = InputFile(name: string, content: Bytes, members: seq<Member>, app: Option<App>)

  const KARAF_SYSTEM := "apache-karaf-4.2.9/system/"

  predicate OccursAt(s: string, sub: string, i: nat) { i + |sub| <= |s| && s[i..i + |sub|] == sub }

  /** Python's `sub in s`. */
  predicate Contains(s: string, sub: string) {
    exists i | 0 <= i <= |s| :: OccursAt(s, sub, i)
  }

  /** `s[3:]` */
  function DropThree(s: string): (r: string)
    ensures if |s| < 3 then r == "" else s == s[..3] + r
  {
    if |s| <= 3 then "" else s[3..]
  }

  function Base(version: string): string { "onos-" + version + "/" }

  function ZipDest(base: string, filename: string): string {
    if !Contains(filename, base) then base + KARAF_SYSTEM + filename else filename
  }

  function OarDest(base: string, app: App): string { base + "apps/" + app.name + "/" + app.name + ".oar" }

  function AppXmlDest(base: string, app: App): string { base + "apps/" + app.name + "/app.xml" }

  function ArtifactDest(base: string, filename: string): string { base + KARAF_SYSTEM + DropThree(filename) }

  function FeaturesDest(base: string, version: string): string {
    base + KARAF_SYSTEM + "org/onosproject/onos-features/" + version + "/" + "onos-features-" + version + "-features.xml"
  }

  function DriversDest(base: string): string { base + "apps/org.onosproject.drivers/active" }

  function VersionDest(base: string): string { base + "VERSION" }

  // --- What the loops want to write, in order ---

  function ZipCandidates(base: string, members: seq<Member>): seq<Entry> {
    seq(|members|, i requires 0 <= i < |members| => Entry(ZipDest(base, members[i].filename), members[i].content))
  }

  function ArtifactCandidates(base: string, members: seq<Member>): seq<Entry> {
    if members == [] then []
    else ArtifactCandidates(base, members[..|members| - 1]) + ArtifactCandidate(base, members[|members| - 1])
  }

  function ArtifactCandidate(base: string, m: Member): seq<Entry> {
    if Contains(m.filename, "m2") then [Entry(ArtifactDest(base, m.filename), m.content)] else []
  }

  predicate IsZip(f: InputFile) { Contains(f.name, ".zip") }
  predicate IsOar(f: InputFile) { !IsZip(f) && Contains(f.name, ".oar") }
  predicate IsFeatures(f: InputFile) { !IsZip(f) && !Contains(f.name, ".oar") && Contains(f.name, "features.xml") }

  /** An oar without an app description raises an exception before anything of it is written. */
  predicate Raises(f: InputFile) { IsOar(f) && f.app.None? }

  function OarCandidates(base: string, f: InputFile, app: App): seq<Entry> {
    [Entry(OarDest(base, app), f.content), Entry(AppXmlDest(base, app), app.xml)] + ArtifactCandidates(base, f.members)
  }

  function FileCandidates(version: string, f: InputFile): seq<Entry> {
    var base := Base(version);
    if IsZip(f) then ZipCandidates(base, f.members)
    else if IsOar(f) then
      if f.app.None? then []
      else OarCandidates(base, f, f.app.value)
    else if IsFeatures(f) then [Entry(FeaturesDest(base, version), f.content)]
    else []
  }

  function FinalCandidates(version: string, runtimeVersion: Bytes): seq<Entry> {
    [Entry(DriversDest(Base(version)), []), Entry(VersionDest(Base(version)), runtimeVersion)]
  }

  /** The candidates of the files, up to one that raises. */
  function FilesCandidates(version: string, files: seq<InputFile>): seq<Entry> {
    if files == [] || Raises(files[0]) then []
    else FileCandidates(version, files[0]) + FilesCandidates(version, files[1..])
  }

  ghost predicate AnyRaises(files: seq<InputFile>) { exists f :: f in files && Raises(f) }

  ghost function Candidates(version: string, runtimeVersion: Bytes, files: seq<InputFile>): seq<Entry> {
    FilesCandidates(version, files) + if AnyRaises(files) then [] else FinalCandidates(version, runtimeVersion)
  }

  // --- The left-biased merge ---

  function Dests(entries: seq<Entry>): set<string> { set e | e in entries :: e.dest }

  /** Keep an entry if its destination is not in `written` and no entry before it has it. */
  function Merge(written: set<string>, entries: seq<Entry>): seq<Entry> {
    if entries == [] then []
    else
      var before := Merge(written, entries[..|entries| - 1]);
      var e := entries[|entries| - 1];
      if e.dest in written + Dests(entries[..|entries| - 1]) then before else before + [e]
  }

  lemma DestsConcat(a: seq<Entry>, b: seq<Entry>)
    ensures Dests(a + b) == Dests(a) + Dests(b)
  {
    forall e | e in a ensures e.dest in Dests(a + b) { assert e in a + b; }
    forall e | e in b ensures e.dest in Dests(a + b) { assert e in a + b; }
  }

  lemma Assoc(a: seq<Entry>, b: seq<Entry>, c: seq<Entry>)
    ensures a + (b + c) == a + b + c
  {
  }

  lemma MergeOneMore(written: set<string>, x: seq<Entry>, e: Entry)
    ensures Merge(written, x + [e]) == Merge(written, x) + if e.dest in written + Dests(x) then [] else [e]
  {
    assert (x + [e])[..|x|] == x;
  }

  lemma {:induction false} MergeConcat(written: set<string>, a: seq<Entry>, b: seq<Entry>)
    ensures Merge(written, a + b) == Merge(written, a) + Merge(written + Dests(a), b)
  {
    if b == [] {
      assert a + b == a;
    } else {
      var b', e := b[..|b| - 1], b[|b| - 1];
      assert b == b' + [e];
      MergeConcat(written, a, b');
      DestsConcat(a, b');
      Assoc(a, b', [e]);
      MergeOneMore(written, a + b', e);
      MergeOneMore(written + Dests(a), b', e);
      Assoc(Merge(written, a), Merge(written + Dests(a), b'), if e.dest in written + Dests(a) + Dests(b') then [] else [e]);
    }
  }

  // --- The archive and the module state ---

  /** From one state of (`written_files`, archive) to another, exactly the merge of `candidates` was written. */
  ghost predicate Staged(w0: set<string>, a0: seq<Entry>, candidates: seq<Entry>, w1: set<string>, a1: seq<Entry>) {
    a1 == a0 + Merge(w0, candidates) && w1 == w0 + Dests(candidates)
  }

  lemma Nothing(w: set<string>, a: seq<Entry>)
    ensures Staged(w, a, [], w, a)
  {
  }

  lemma Single(w: set<string>, a: seq<Entry>, e: Entry)
    ensures if e.dest in w then Staged(w, a, [e], w, a) else Staged(w, a, [e], w + {e.dest}, a + [e])
  {
    assert [e][..0] == [];
    assert Dests([e]) == {e.dest};
  }

  lemma Compose(w0: set<string>, a0: seq<Entry>, x: seq<Entry>, w1: set<string>, a1: seq<Entry>,
                y: seq<Entry>, w2: set<string>, a2: seq<Entry>)
    requires Staged(w0, a0, x, w1, a1) && Staged(w1, a1, y, w2, a2)
    ensures Staged(w0, a0, x + y, w2, a2)
  {
    MergeConcat(w0, x, y);
    DestsConcat(x, y);
    Assoc(a0, Merge(w0, x), Merge(w1, y));
  }

  class Stage {
    /** `written_files`; it outlives a call. */
    var written: set<string>
    /** The archive open for writing. */
    var archive: seq<Entry>

    constructor ()
      ensures written == {} && archive == []
    {
      written, archive := {}, [];
    }

    /** `addFile` and `addBytes` write the same entry. */
    method Add(dest: string, content: Bytes)
      modifies this
      ensures Staged(old(written), old(archive), [Entry(dest, content)], written, archive)
      ensures dest in old(written) ==> written == old(written) && archive == old(archive)
      ensures dest !in old(written) ==> written == old(written) + {dest} && archive == old(archive) + [Entry(dest, content)]
    {
      Single(written, archive, Entry(dest, content));
      if dest !in written {
        archive := archive + [Entry(dest, content)];
        written := written + {dest};
      }
    }

    method AddZip(base: string, members: seq<Member>)
      modifies this
      ensures Staged(old(written), old(archive), ZipCandidates(base, members), written, archive)
    {
      ghost var zip := ZipCandidates(base, members);
      Nothing(written, archive);
      for i := 0 to |members|
        invariant Staged(old(written), old(archive), zip[..i], written, archive)
      {
        ghost var w1, a1 := written, archive;
        var dest := members[i].filename;
        if !Contains(dest, base) {
          dest := base + KARAF_SYSTEM + members[i].filename;
        }
        Add(dest, members[i].content);
        Compose(old(written), old(archive), zip[..i], w1, a1, [zip[i]], written, archive);
        assert zip[..i] + [zip[i]] == zip[..i + 1];
      }
      assert zip[..|members|] == zip;
    }

    /** One member of an oar; `addFile` already adds the name that is added again. */
    method AddArtifact(base: string, f: Member)
      modifies this
      ensures Staged(old(written), old(archive), ArtifactCandidate(base, f), written, archive)
    {
      Nothing(written, archive);
      if Contains(f.filename, "m2") {
        var dest := ArtifactDest(base, f.filename);
        Single(written, archive, Entry(dest, f.content));
        if dest !in written {
          Add(dest, f.content);
          written := written + {dest};
          assert written == old(written) + {dest};
        }
      }
    }

    method AddArtifacts(base: string, members: seq<Member>)
      modifies this
      ensures Staged(old(written), old(archive), ArtifactCandidates(base, members), written, archive)
    {
      Nothing(written, archive);
      for i := 0 to |members|
        invariant Staged(old(written), old(archive), ArtifactCandidates(base, members[..i]), written, archive)
      {
        ghost var w1, a1 := written, archive;
        AddArtifact(base, members[i]);
        Compose(old(written), old(archive), ArtifactCandidates(base, members[..i]), w1, a1,
                ArtifactCandidate(base, members[i]), written, archive);
        assert members[..i + 1][..i] == members[..i];
      }
      assert members[..|members|] == members;
    }

    method AddOar(base: string, file: InputFile, app: App)
      modifies this
      ensures Staged(old(written), old(archive), OarCandidates(base, file, app), written, archive)
    {
      ghost var first, second := Entry(OarDest(base, app), file.content), Entry(AppXmlDest(base, app), app.xml);
      Add(OarDest(base, app), file.content);
      ghost var w1, a1 := written, archive;
      Add(AppXmlDest(base, app), app.xml);
      Compose(old(written), old(archive), [first], w1, a1, [second], written, archive);
      ghost var w2, a2 := written, archive;
      AddArtifacts(base, file.members);
      Compose(old(written), old(archive), [first] + [second], w2, a2, ArtifactCandidates(base, file.members), written, archive);
      assert [first] + [second] == [first, second];
    }

    method AddInput(version: string, file: InputFile) returns (raised: bool)
      modifies this
      ensures raised == Raises(file)
      ensures Staged(old(written), old(archive), FileCandidates(version, file), written, archive)
      ensures archive == old(archive) + Merge(old(written), FileCandidates(version, file))
    {
      Nothing(written, archive);
      raised := false;
      if Contains(file.name, ".zip") {
        AddZip(Base(version), file.members);
      } else if Contains(file.name, ".oar") {
        if file.app.None? { return true; }
        AddOar(Base(version), file, file.app.value);
      } else if Contains(file.name, "features.xml") {
        Add(FeaturesDest(Base(version), version), file.content);
      }
    }

    method AddFinal(version: string, runtimeVersion: Bytes)
      modifies this
      ensures Staged(old(written), old(archive), FinalCandidates(version, runtimeVersion), written, archive)
    {
      ghost var first, second := Entry(DriversDest(Base(version)), []), Entry(VersionDest(Base(version)), runtimeVersion);
      Add(DriversDest(Base(version)), []);
      ghost var w1, a1 := written, archive;
      Add(VersionDest(Base(version)), runtimeVersion);
      Compose(old(written), old(archive), [first], w1, a1, [second], written, archive);
      assert [first] + [second] == [first, second];
    }

    /**
     `stageOnos`: a new archive, whose entries are the merge of the candidates into what the module
     has ever written before, also when an input raises.
     */
    method StageOnos(version: string, runtimeVersion: Bytes, files: seq<InputFile>) returns (raised: bool)
      modifies this
      ensures raised <==> AnyRaises(files)
      ensures archive == Merge(old(written), Candidates(version, runtimeVersion, files))
      ensures written == old(written) + set e | e in Candidates(version, runtimeVersion, files) :: e.dest
    {
      archive := [];
      Nothing(written, archive);
      for i := 0 to |files|
        invariant !AnyRaises(files[..i])
        invariant Staged(old(written), [], FilesCandidates(version, files[..i]), written, archive)
      {
        ghost var w1, a1 := written, archive;
        PrefixCandidates(version, files, i);
        raised := AddInput(version, files[i]);
        Compose(old(written), [], FilesCandidates(version, files[..i]), w1, a1, FileCandidates(version, files[i]), written, archive);
        if raised {
          assert files[i] in files;
          assert FilesCandidates(version, files) + [] == FilesCandidates(version, files);
          return;
        }
        assert forall f | f in files[..i + 1] :: f in files[..i] || f == files[i];
      }
      raised := false;
      assert files[..|files|] == files;
      ghost var w1, a1 := written, archive;
      AddFinal(version, runtimeVersion);
      Compose(old(written), [], FilesCandidates(version, files), w1, a1, FinalCandidates(version, runtimeVersion), written, archive);
    }
  }

  lemma {:induction false} FilesConcat(version: string, a: seq<InputFile>, b: seq<InputFile>)
    requires !AnyRaises(a)
    ensures FilesCandidates(version, a + b) == FilesCandidates(version, a) + FilesCandidates(version, b)
  {
    if a == [] {
      assert a + b == b;
    } else {
      assert a[0] in a && forall f | f in a[1..] :: f in a;
      assert (a + b)[1..] == a[1..] + b;
      FilesConcat(version, a[1..], b);
      Assoc(FileCandidates(version, a[0]), FilesCandidates(version, a[1..]), FilesCandidates(version, b));
    }
  }

  /** Files before one that raises contribute all their candidates, and none after it does. */
  lemma PrefixCandidates(version: string, files: seq<InputFile>, i: nat)
    requires i < |files| && !AnyRaises(files[..i])
    ensures Raises(files[i]) ==>
      FilesCandidates(version, files) == FilesCandidates(version, files[..i]) + FileCandidates(version, files[i])
    ensures !Raises(files[i]) ==>
      FilesCandidates(version, files[..i + 1]) == FilesCandidates(version, files[..i]) + FileCandidates(version, files[i])
  {
    if Raises(files[i]) {
      RaisingFile(version, files[..i], files[i..]);
      assert files == files[..i] + files[i..];
    } else {
      OneMoreFile(version, files[..i], files[i]);
      assert files[..i + 1] == files[..i] + [files[i]];
    }
  }

  lemma RaisingFile(version: string, a: seq<InputFile>, rest: seq<InputFile>)
    requires !AnyRaises(a) && rest != [] && Raises(rest[0])
    ensures FilesCandidates(version, a + rest) == FilesCandidates(version, a) + FileCandidates(version, rest[0])
  {
    FilesConcat(version, a, rest);
  }

  lemma OneMoreFile(version: string, a: seq<InputFile>, f: InputFile)
    requires !AnyRaises(a) && !Raises(f)
    ensures FilesCandidates(version, a + [f]) == FilesCandidates(version, a) + FileCandidates(version, f)
  {
    FilesConcat(version, a, [f]);
    OneFile(version, f);
  }

  lemma OneFile(version: string, f: InputFile)
    requires !Raises(f)
    ensures FilesCandidates(version, [f]) == FileCandidates(version, f)
  {
    assert [f][1..] == [];
  }

  // --- What the merge is ---

  /** Entry `i` is the first with its destination, and that was not written before. */
  predicate Kept(written: set<string>, entries: seq<Entry>, i: nat)
    requires i < |entries|
  {
    entries[i].dest !in written && forall j | 0 <= j < i :: entries[j].dest != entries[i].dest
  }

  /** The positions of the kept entries, in order. */
  function KeptPositions(written: set<string>, entries: seq<Entry>, n: nat): seq<nat>
    requires n <= |entries|
  {
    if n == 0 then []
    else KeptPositions(written, entries, n - 1) + if Kept(written, entries, n - 1) then [n - 1] else []
  }

  lemma {:induction false} PositionsExact(written: set<string>, entries: seq<Entry>, n: nat)
    requires n <= |entries|
    ensures var ps := KeptPositions(written, entries, n);
      && (forall k | 0 <= k < |ps| :: ps[k] < n && Kept(written, entries, ps[k]))
      && (forall k, l | 0 <= k < l < |ps| :: ps[k] < ps[l])
      && (forall i | 0 <= i < n && Kept(written, entries, i) :: i in ps)
  {
    if n > 0 { PositionsExact(written, entries, n - 1); }
  }

  /** `merged` is what stands at these positions. */
  predicate Picks(merged: seq<Entry>, entries: seq<Entry>, ps: seq<nat>) {
    |merged| == |ps| && forall k | 0 <= k < |ps| :: ps[k] < |entries| && merged[k] == entries[ps[k]]
  }

  lemma {:induction false} MergeAtPositions(written: set<string>, entries: seq<Entry>, n: nat)
    requires n <= |entries|
    ensures Picks(Merge(written, entries[..n]), entries, KeptPositions(written, entries, n))
  {
    if n > 0 {
      var i := n - 1;
      MergeAtPositions(written, entries, i);
      MergeAtOne(written, entries, i);
      PickOneMore(Merge(written, entries[..i]), entries, KeptPositions(written, entries, i), i);
      assert KeptPositions(written, entries, n)
          == KeptPositions(written, entries, i) + if Kept(written, entries, i) then [i] else [];
    }
  }

  lemma MergeAtOne(written: set<string>, entries: seq<Entry>, n: nat)
    requires n < |entries|
    ensures Merge(written, entries[..n + 1]) == Merge(written, entries[..n]) + if Kept(written, entries, n) then [entries[n]] else []
  {
    assert entries[..n + 1] == entries[..n] + [entries[n]];
    MergeOneMore(written, entries[..n], entries[n]);
    LastKept(written, entries, n);
  }

  lemma PickOneMore(merged: seq<Entry>, entries: seq<Entry>, ps: seq<nat>, i: nat)
    requires Picks(merged, entries, ps) && i < |entries|
    ensures Picks(merged + [entries[i]], entries, ps + [i])
  {
  }

  /** The merge is the subsequence of the kept entries: each exactly once, in order of first occurrence. */
  lemma MergeIsKept(written: set<string>, entries: seq<Entry>)
    ensures var ps := KeptPositions(written, entries, |entries|); var merged := Merge(written, entries);
      && |merged| == |ps|
      && (forall k | 0 <= k < |ps| :: ps[k] < |entries| && Kept(written, entries, ps[k]) && merged[k] == entries[ps[k]])
      && (forall k, l | 0 <= k < l < |ps| :: ps[k] < ps[l])
      && (forall i | 0 <= i < |entries| && Kept(written, entries, i) :: i in ps)
  {
    PositionsExact(written, entries, |entries|);
    MergeAtPositions(written, entries, |entries|);
    assert entries[..|entries|] == entries;
  }

  lemma LastKept(written: set<string>, entries: seq<Entry>, n: nat)
    requires n < |entries|
    ensures Kept(written, entries, n) <==> entries[n].dest !in written + Dests(entries[..n])
  {
    forall j | 0 <= j < n ensures entries[j].dest in Dests(entries[..n]) { assert entries[j] in entries[..n]; }
  }

  /** No destination is in the archive twice, and none that was written before. */
  lemma MergeDistinct(written: set<string>, entries: seq<Entry>)
    ensures forall k, l | 0 <= k < l < |Merge(written, entries)| :: Merge(written, entries)[k].dest != Merge(written, entries)[l].dest
    ensures Dests(Merge(written, entries)) == Dests(entries) - written
  {
    MergeIsKept(written, entries);
    var ps := KeptPositions(written, entries, |entries|);
    var merged := Merge(written, entries);
    forall k, l | 0 <= k < l < |merged| ensures merged[k].dest != merged[l].dest {
      assert Kept(written, entries, ps[l]) && ps[k] < ps[l];
    }
    forall e | e in merged ensures e.dest in Dests(entries) - written {
      var k :| 0 <= k < |merged| && merged[k] == e;
      assert Kept(written, entries, ps[k]) && entries[ps[k]] in entries;
    }
    forall e | e in entries && e.dest !in written ensures e.dest in Dests(merged) {
      var i := First(entries, e.dest);
      assert Kept(written, entries, i) && i in ps;
      var k :| 0 <= k < |ps| && ps[k] == i;
      assert merged[k] in merged;
    }
  }

  lemma First(entries: seq<Entry>, dest: string) returns (i: nat)
    requires dest in Dests(entries)
    ensures i < |entries| && entries[i].dest == dest && forall j | 0 <= j < i :: entries[j].dest != dest
  {
    i := 0;
    while entries[i].dest != dest
      invariant i < |entries| && forall j | 0 <= j < i :: entries[j].dest != dest
      decreases |entries| - i
    {
      var e :| e in entries && e.dest == dest;
      i := i + 1;
    }
  }

  /** `written_files` outlives a call: staging the same inputs again writes an empty archive. */
  lemma StagingAgainWritesNothing(written: set<string>, entries: seq<Entry>)
    ensures Merge(written + Dests(entries), entries) == []
  {
    MergeDistinct(written + Dests(entries), entries);
    var again := Merge(written + Dests(entries), entries);
    assert again == [] || again[0].dest in Dests(again);
  }

  // --- The contents by name ---

  /** The content an archive, or a list of candidates, gives a name: that of the first entry. */
  function Lookup(entries: seq<Entry>, dest: string): Option<Bytes> {
    if entries == [] then None
    else if entries[0].dest == dest then Some(entries[0].content)
    else Lookup(entries[1..], dest)
  }

  lemma {:induction false} LookupConcat(a: seq<Entry>, b: seq<Entry>, dest: string)
    ensures Lookup(a + b, dest) == if Lookup(a, dest).Some? then Lookup(a, dest) else Lookup(b, dest)
  {
    if a == [] {
      assert a + b == b;
    } else {
      LookupConcat(a[1..], b, dest);
      assert (a + b)[1..] == a[1..] + b;
    }
  }

  lemma {:induction false} LookupSome(entries: seq<Entry>, dest: string)
    ensures Lookup(entries, dest).Some? <==> dest in Dests(entries)
  {
    if entries != [] {
      LookupSome(entries[1..], dest);
      assert entries == [entries[0]] + entries[1..];
      DestsConcat([entries[0]], entries[1..]);
    }
  }

  /** Merging changes no content: a name keeps that of its first candidate. */
  lemma {:induction false} LookupMerge(written: set<string>, entries: seq<Entry>, dest: string)
    ensures Lookup(Merge(written, entries), dest) == if dest in written then None else Lookup(entries, dest)
  {
    if entries != [] {
      var before, last := entries[..|entries| - 1], [entries[|entries| - 1]];
      LookupMerge(written, before, dest);
      assert entries == before + last;
      LookupConcat(before, last, dest);
      LookupSome(before, dest);
      LookupConcat(Merge(written, before), last, dest);
    }
  }

  // --- The order of the inputs ---

  function FileLookup(version: string, f: InputFile, dest: string): Option<Bytes> {
    Lookup(FileCandidates(version, f), dest)
  }

  /** No two inputs give this destination different contents. */
  ghost predicate CompatibleAt(version: string, files: seq<InputFile>, dest: string) {
    forall f, g | f in files && g in files && FileLookup(version, f, dest).Some? && FileLookup(version, g, dest).Some? ::
      FileLookup(version, f, dest) == FileLookup(version, g, dest)
  }

  /** No input gives this destination a content. */
  ghost predicate SilentAt(version: string, files: seq<InputFile>, dest: string) {
    forall f | f in files :: FileLookup(version, f, dest).None?
  }

  /**
   What decides whether order matters, about the destinations not written before: with an input that
   raises, whether the others would stage any; otherwise, whether they agree on contents.
   */
  ghost predicate OrderFree(written: set<string>, version: string, files: seq<InputFile>) {
    forall dest | dest !in written ::
      if AnyRaises(files) then SilentAt(version, files, dest) else CompatibleAt(version, files, dest)
  }

  /** What the archive of a call gives a name, from a history of `written_files`. */
  ghost function Staging(written: set<string>, version: string, runtimeVersion: Bytes, files: seq<InputFile>, dest: string): Option<Bytes> {
    Lookup(Merge(written, Candidates(version, runtimeVersion, files)), dest)
  }

  ghost predicate SameArchiveMap(written: set<string>, version: string, runtimeVersion: Bytes, files: seq<InputFile>, others: seq<InputFile>) {
    forall dest :: Staging(written, version, runtimeVersion, files, dest) == Staging(written, version, runtimeVersion, others, dest)
  }

  /** The name has a content in the files exactly when one of them gives it one, and then the first does. */
  lemma {:induction false} LookupFiles(version: string, files: seq<InputFile>, dest: string)
    requires !AnyRaises(files)
    ensures Lookup(FilesCandidates(version, files), dest).None? <==> SilentAt(version, files, dest)
    ensures CompatibleAt(version, files, dest) ==>
      forall f | f in files && FileLookup(version, f, dest).Some? :: Lookup(FilesCandidates(version, files), dest) == FileLookup(version, f, dest)
  {
    if files != [] {
      assert files[0] in files;
      assert forall f | f in files[1..] :: f in files;
      assert forall f | f in files :: f == files[0] || f in files[1..];
      LookupFiles(version, files[1..], dest);
      LookupConcat(FileCandidates(version, files[0]), FilesCandidates(version, files[1..]), dest);
    }
  }

  /** Files that are silent stay so up to one that raises. */
  lemma {:induction false} SilentFiles(version: string, files: seq<InputFile>, dest: string)
    requires SilentAt(version, files, dest)
    ensures Lookup(FilesCandidates(version, files), dest).None?
  {
    if files != [] && !Raises(files[0]) {
      assert files[0] in files;
      assert forall f | f in files[1..] :: f in files;
      SilentFiles(version, files[1..], dest);
      LookupConcat(FileCandidates(version, files[0]), FilesCandidates(version, files[1..]), dest);
    }
  }

  lemma StagingLookup(written: set<string>, version: string, runtimeVersion: Bytes, files: seq<InputFile>, dest: string)
    ensures Staging(written, version, runtimeVersion, files, dest)
         == if dest in written then None
            else if Lookup(FilesCandidates(version, files), dest).Some? then Lookup(FilesCandidates(version, files), dest)
            else if AnyRaises(files) then None
            else Lookup(FinalCandidates(version, runtimeVersion), dest)
  {
    LookupMerge(written, Candidates(version, runtimeVersion, files), dest);
    LookupConcat(FilesCandidates(version, files), if AnyRaises(files) then [] else FinalCandidates(version, runtimeVersion), dest);
  }

  lemma SameFilesSameMap(written: set<string>, version: string, runtimeVersion: Bytes, files: seq<InputFile>, others: seq<InputFile>)
    requires OrderFree(written, version, files) && forall f :: f in files <==> f in others
    ensures SameArchiveMap(written, version, runtimeVersion, files, others)
  {
    assert AnyRaises(files) <==> AnyRaises(others);
    forall dest
      ensures Staging(written, version, runtimeVersion, files, dest) == Staging(written, version, runtimeVersion, others, dest)
    {
      StagingLookup(written, version, runtimeVersion, files, dest);
      StagingLookup(written, version, runtimeVersion, others, dest);
      if dest !in written {
        if AnyRaises(files) {
          SilentFiles(version, files, dest);
          SilentFiles(version, others, dest);
        } else {
          LookupFiles(version, files, dest);
          LookupFiles(version, others, dest);
        }
      }
    }
  }

  function ToFront(files: seq<InputFile>, i: nat): seq<InputFile>
    requires i < |files|
  {
    [files[i]] + files[..i] + files[i + 1..]
  }

  lemma ToFrontPermutes(files: seq<InputFile>, i: nat)
    requires i < |files|
    ensures multiset(ToFront(files, i)) == multiset(files)
    ensures AnyRaises(ToFront(files, i)) <==> AnyRaises(files)
  {
    assert files == files[..i] + [files[i]] + files[i + 1..];
    SameMembers(ToFront(files, i), files);
  }

  lemma SameMembers(files: seq<InputFile>, others: seq<InputFile>)
    requires multiset(files) == multiset(others)
    ensures forall f :: f in files <==> f in others
  {
    assert forall f :: f in files <==> f in multiset(files);
    assert forall f :: f in others <==> f in multiset(others);
  }

  /** The file that comes first decides: its own contents are staged, and nothing is if it raises. */
  lemma FrontWins(written: set<string>, version: string, runtimeVersion: Bytes, files: seq<InputFile>, i: nat, dest: string)
    requires i < |files| && dest !in written
    ensures FileLookup(version, files[i], dest).Some? ==>
      Staging(written, version, runtimeVersion, ToFront(files, i), dest) == FileLookup(version, files[i], dest)
    ensures Raises(files[i]) ==> Staging(written, version, runtimeVersion, ToFront(files, i), dest) == None
  {
    var front := ToFront(files, i);
    assert front[0] == files[i] && front[0] in front;
    StagingLookup(written, version, runtimeVersion, front, dest);
    LookupConcat(FileCandidates(version, front[0]), FilesCandidates(version, front[1..]), dest);
  }

  /**
   From any history and for any inputs, raising ones among them: what a call stages under each name is
   the same for every permutation of the inputs exactly when they are order-free.
   */
  lemma OrderIrrelevantExactly(written: set<string>, version: string, runtimeVersion: Bytes, files: seq<InputFile>)
    ensures (forall others | multiset(others) == multiset(files) :: SameArchiveMap(written, version, runtimeVersion, files, others))
       <==> OrderFree(written, version, files)
  {
    if OrderFree(written, version, files) {
      forall others | multiset(others) == multiset(files) ensures SameArchiveMap(written, version, runtimeVersion, files, others) {
        SameMembers(files, others);
        SameFilesSameMap(written, version, runtimeVersion, files, others);
      }
    }
    if forall others | multiset(others) == multiset(files) :: SameArchiveMap(written, version, runtimeVersion, files, others) {
      forall dest, i: nat, j: nat | dest !in written && i < |files| && j < |files|
        ensures FileLookup(version, files[i], dest).Some? && FileLookup(version, files[j], dest).Some? ==>
          FileLookup(version, files[i], dest) == FileLookup(version, files[j], dest)
        ensures Raises(files[j]) ==> FileLookup(version, files[i], dest).None?
      {
        FrontsAgree(written, version, runtimeVersion, files, i, j, dest);
      }
      FrontsSuffice(written, version, files);
    }
  }

  lemma FrontsAgree(written: set<string>, version: string, runtimeVersion: Bytes, files: seq<InputFile>, i: nat, j: nat, dest: string)
    requires forall others | multiset(others) == multiset(files) :: SameArchiveMap(written, version, runtimeVersion, files, others)
    requires i < |files| && j < |files| && dest !in written
    ensures FileLookup(version, files[i], dest).Some? && FileLookup(version, files[j], dest).Some? ==>
      FileLookup(version, files[i], dest) == FileLookup(version, files[j], dest)
    ensures Raises(files[j]) ==> FileLookup(version, files[i], dest).None?
  {
    ToFrontPermutes(files, i);
    ToFrontPermutes(files, j);
    FrontWins(written, version, runtimeVersion, files, i, dest);
    FrontWins(written, version, runtimeVersion, files, j, dest);
    assert SameArchiveMap(written, version, runtimeVersion, files, ToFront(files, i));
    assert SameArchiveMap(written, version, runtimeVersion, files, ToFront(files, j));
  }

  lemma FrontsSuffice(written: set<string>, version: string, files: seq<InputFile>)
    requires forall dest, i: nat, j: nat | dest !in written && i < |files| && j < |files| ::
      && (FileLookup(version, files[i], dest).Some? && FileLookup(version, files[j], dest).Some? ==>
            FileLookup(version, files[i], dest) == FileLookup(version, files[j], dest))
      && (Raises(files[j]) ==> FileLookup(version, files[i], dest).None?)
    ensures OrderFree(written, version, files)
  {
    forall dest | dest !in written
      ensures if AnyRaises(files) then SilentAt(version, files, dest) else CompatibleAt(version, files, dest)
    {
      if AnyRaises(files) {
        var r :| r in files && Raises(r);
        var j :| 0 <= j < |files| && files[j] == r;
        forall f | f in files ensures FileLookup(version, f, dest).None? {
          var i :| 0 <= i < |files| && files[i] == f;
        }
      } else {
        forall f, g | f in files && g in files && FileLookup(version, f, dest).Some? && FileLookup(version, g, dest).Some?
          ensures FileLookup(version, f, dest) == FileLookup(version, g, dest)
        {
          var i :| 0 <= i < |files| && files[i] == f;
          var j :| 0 <= j < |files| && files[j] == g;
        }
      }
    }
  }

  // --- At inputs ---

  function OneMemberZip(name: string, content: Bytes): InputFile {
    InputFile(name, [], [Member("x", content)], None)
  }

  lemma OneMemberLookup(version: string, name: string, content: Bytes)
    requires Contains(name, ".zip")
    ensures FileLookup(version, OneMemberZip(name, content), ZipDest(Base(version), "x")) == Some(content)
  {
    assert ZipCandidates(Base(version), [Member("x", content)]) == [Entry(ZipDest(Base(version), "x"), content)];
  }

  /** Two zips with one member of the same name: swapping them swaps what is staged under it. */
  lemma SwapChangesTheMap(version: string, runtimeVersion: Bytes)
    ensures var f, g := OneMemberZip("a.zip", [1]), OneMemberZip("b.zip", [2]); var dest := ZipDest(Base(version), "x");
      && Staging({}, version, runtimeVersion, [f, g], dest) == Some([1])
      && Staging({}, version, runtimeVersion, [g, f], dest) == Some([2])
  {
    var f, g, dest := OneMemberZip("a.zip", [1]), OneMemberZip("b.zip", [2]), ZipDest(Base(version), "x");
    assert OccursAt(f.name, ".zip", 1) && OccursAt(g.name, ".zip", 1);
    OneMemberLookup(version, f.name, [1]);
    OneMemberLookup(version, g.name, [2]);
    FrontWins({}, version, runtimeVersion, [f, g], 0, dest);
    FrontWins({}, version, runtimeVersion, [f, g], 1, dest);
    assert ToFront([f, g], 0) == [f, g] && ToFront([f, g], 1) == [g, f];
  }

  /** A zip before an oar without app description is staged; after it, it is not. */
  lemma RaisingInputHidesLaterOnes(version: string, runtimeVersion: Bytes, oar: InputFile)
    requires Raises(oar)
    ensures var f := OneMemberZip("a.zip", [1]); var dest := ZipDest(Base(version), "x");
      && Staging({}, version, runtimeVersion, [f, oar], dest) == Some([1])
      && Staging({}, version, runtimeVersion, [oar, f], dest) == None
  {
    var f, dest := OneMemberZip("a.zip", [1]), ZipDest(Base(version), "x");
    assert OccursAt(f.name, ".zip", 1);
    OneMemberLookup(version, f.name, [1]);
    FrontWins({}, version, runtimeVersion, [f, oar], 0, dest);
    FrontWins({}, version, runtimeVersion, [f, oar], 1, dest);
    assert ToFront([f, oar], 0) == [f, oar] && ToFront([f, oar], 1) == [oar, f];
  }

  // --- Where staged names lie ---

  lemma PrefixContains(base: string, rest: string)
    ensures Contains(base + rest, base)
  {
    assert OccursAt(base + rest, base, 0);
  }

  ghost predicate AllContain(entries: seq<Entry>, base: string) {
    forall e | e in entries :: Contains(e.dest, base)
  }

  lemma {:induction false} ArtifactsContainBase(base: string, members: seq<Member>)
    ensures AllContain(ArtifactCandidates(base, members), base)
  {
    if members != [] {
      ArtifactsContainBase(base, members[..|members| - 1]);
      var m := members[|members| - 1];
      PrefixContains(base, KARAF_SYSTEM + DropThree(m.filename));
      assert ArtifactDest(base, m.filename) == base + (KARAF_SYSTEM + DropThree(m.filename));
    }
  }

  lemma ZipContainsBase(base: string, members: seq<Member>)
    ensures AllContain(ZipCandidates(base, members), base)
  {
    forall i | 0 <= i < |members| ensures Contains(ZipDest(base, members[i].filename), base) {
      PrefixContains(base, KARAF_SYSTEM + members[i].filename);
      assert base + KARAF_SYSTEM + members[i].filename == base + (KARAF_SYSTEM + members[i].filename);
    }
  }

  lemma OarContainsBase(base: string, f: InputFile, app: App)
    ensures AllContain(OarCandidates(base, f, app), base)
  {
    ArtifactsContainBase(base, f.members);
    AppContainsBase(base, app);
    forall e | e in OarCandidates(base, f, app) ensures Contains(e.dest, base) {
      assert e.dest == OarDest(base, app) || e.dest == AppXmlDest(base, app) || e in ArtifactCandidates(base, f.members);
    }
  }

  lemma AppContainsBase(base: string, app: App)
    ensures Contains(OarDest(base, app), base) && Contains(AppXmlDest(base, app), base)
  {
    var oar, xml := "apps/" + app.name + "/" + app.name + ".oar", "apps/" + app.name + "/app.xml";
    PrefixContains(base, oar);
    PrefixContains(base, xml);
    assert OarDest(base, app) == base + oar;
    assert AppXmlDest(base, app) == base + xml;
  }

  lemma FeaturesContainBase(version: string)
    ensures Contains(FeaturesDest(Base(version), version), Base(version))
  {
    var base, dest := Base(version), FeaturesDest(Base(version), version);
    PrefixContains(base, dest[|base|..]);
    assert dest == base + dest[|base|..];
  }

  lemma FileContainsBase(version: string, f: InputFile)
    ensures AllContain(FileCandidates(version, f), Base(version))
  {
    if IsZip(f) {
      ZipContainsBase(Base(version), f.members);
    } else if IsOar(f) && f.app.Some? {
      OarContainsBase(Base(version), f, f.app.value);
    } else if IsFeatures(f) {
      FeaturesContainBase(version);
    }
  }

  lemma {:induction false} FilesContainBase(version: string, files: seq<InputFile>)
    ensures AllContain(FilesCandidates(version, files), Base(version))
  {
    if files != [] && !Raises(files[0]) {
      FileContainsBase(version, files[0]);
      FilesContainBase(version, files[1..]);
    }
  }

  /** Every staged name contains the base directory of the version, whatever the inputs and the history. */
  lemma StagedNamesContainBase(written: set<string>, version: string, runtimeVersion: Bytes, files: seq<InputFile>)
    ensures AllContain(Merge(written, Candidates(version, runtimeVersion, files)), Base(version))
  {
    FilesContainBase(version, files);
    PrefixContains(Base(version), "apps/org.onosproject.drivers/active");
    PrefixContains(Base(version), "VERSION");
    MergedContain(written, Candidates(version, runtimeVersion, files), Base(version));
  }

  lemma MergedContain(written: set<string>, entries: seq<Entry>, base: string)
    requires AllContain(entries, base)
    ensures AllContain(Merge(written, entries), base)
  {
    MergeIsKept(written, entries);
    var merged := Merge(written, entries);
    forall e | e in merged ensures Contains(e.dest, base) {
      var k :| 0 <= k < |merged| && merged[k] == e;
      assert e in entries;
    }
  }

  // --- What the inputs stage, name by name ---

  /** `sub in s`: the string is made of something, `sub`, and something. */
  lemma ContainsExactly(s: string, sub: string)
    ensures Contains(s, sub) <==> exists before, after :: s == before + sub + after
  {
    if Contains(s, sub) {
      var i :| 0 <= i <= |s| && OccursAt(s, sub, i);
      assert s == s[..i] + sub + s[i + |sub|..];
    }
    if exists before, after :: s == before + sub + after {
      var before, after :| s == before + sub + after;
      assert OccursAt(s, sub, |before|);
    }
  }

  /** A zip stages each member in order: under its own name if that contains the base directory, else below `system`. */
  lemma ZipStages(version: string, f: InputFile)
    requires Contains(f.name, ".zip")
    ensures var cs := FileCandidates(version, f);
      && |cs| == |f.members|
      && forall i | 0 <= i < |cs| ::
           var m := f.members[i];
           && cs[i].content == m.content
           && (Contains(m.filename, "onos-" + version + "/") ==> cs[i].dest == m.filename)
           && (!Contains(m.filename, "onos-" + version + "/") ==>
                 cs[i].dest == "onos-" + version + "/" + "apache-karaf-4.2.9/system/" + m.filename)
  {
  }

  /**
   An oar with an app description stages itself, the description, and then each member with "m2" in
   its name, in order, under what follows the first three characters of the name.
   */
  lemma OarStages(version: string, f: InputFile) returns (ps: seq<nat>)
    requires !Contains(f.name, ".zip") && Contains(f.name, ".oar") && f.app.Some?
    ensures var cs := FileCandidates(version, f); var app := f.app.value;
      && |cs| == 2 + |ps|
      && cs[0] == Entry("onos-" + version + "/" + "apps/" + app.name + "/" + app.name + ".oar", f.content)
      && cs[1] == Entry("onos-" + version + "/" + "apps/" + app.name + "/app.xml", app.xml)
      && forall k | 0 <= k < |ps| ::
           && ps[k] < |f.members|
           && cs[2 + k].content == f.members[ps[k]].content
           && cs[2 + k].dest == "onos-" + version + "/" + "apache-karaf-4.2.9/system/" + DropThree(f.members[ps[k]].filename)
    ensures forall k, l | 0 <= k < l < |ps| :: ps[k] < ps[l]
    ensures forall i | 0 <= i < |f.members| :: i in ps <==> Contains(f.members[i].filename, "m2")
  {
    ps := ArtifactPositions(version, f.members);
  }

  /** These entries are the members at these positions, under what follows the third character of their names. */
  predicate ArtifactsAt(version: string, members: seq<Member>, cs: seq<Entry>, ps: seq<nat>) {
    && |cs| == |ps|
    && forall k | 0 <= k < |ps| ::
         && ps[k] < |members|
         && cs[k] == Entry("onos-" + version + "/" + "apache-karaf-4.2.9/system/" + DropThree(members[ps[k]].filename), members[ps[k]].content)
  }

  lemma {:induction false} ArtifactPositions(version: string, members: seq<Member>) returns (ps: seq<nat>)
    ensures ArtifactsAt(version, members, ArtifactCandidates(Base(version), members), ps)
    ensures forall k, l | 0 <= k < l < |ps| :: ps[k] < ps[l]
    ensures forall i | 0 <= i < |members| :: i in ps <==> Contains(members[i].filename, "m2")
  {
    if members == [] {
      ps := [];
    } else {
      var n := |members| - 1;
      var before := ArtifactPositions(version, members[..n]);
      OneArtifact(version, members[n]);
      ArtifactsMore(version, members, ArtifactCandidates(Base(version), members[..n]), before);
      ps := if Contains(members[n].filename, "m2") then before + [n] else before;
    }
  }

  lemma ArtifactsMore(version: string, members: seq<Member>, cs: seq<Entry>, ps: seq<nat>)
    requires members != [] && ArtifactsAt(version, members[..|members| - 1], cs, ps)
    ensures ArtifactsAt(version, members, cs, ps)
    ensures var m := members[|members| - 1];
      ArtifactsAt(version, members,
                  cs + [Entry("onos-" + version + "/" + "apache-karaf-4.2.9/system/" + DropThree(m.filename), m.content)],
                  ps + [|members| - 1])
  {
  }

  lemma OneArtifact(version: string, m: Member)
    ensures ArtifactCandidate(Base(version), m)
         == if Contains(m.filename, "m2")
            then [Entry("onos-" + version + "/" + "apache-karaf-4.2.9/system/" + DropThree(m.filename), m.content)] else []
  {
  }

  /** A features file stages itself; any other file, and an oar without description, stage nothing. */
  lemma OthersStage(version: string, f: InputFile)
    requires !Contains(f.name, ".zip")
    ensures !Contains(f.name, ".oar") && Contains(f.name, "features.xml") ==>
      FileCandidates(version, f) == [Entry("onos-" + version + "/" + "apache-karaf-4.2.9/system/" + "org/onosproject/onos-features/"
                                           + version + "/" + "onos-features-" + version + "-features.xml", f.content)]
    ensures !Contains(f.name, ".oar") && !Contains(f.name, "features.xml") ==> FileCandidates(version, f) == []
    ensures Contains(f.name, ".oar") && f.app.None? ==> FileCandidates(version, f) == []
  {
  }

  /** Exactly an oar, not also named like a zip, that lacks its description raises. */
  lemma RaisesExactly(f: InputFile)
    ensures Raises(f) <==> !Contains(f.name, ".zip") && Contains(f.name, ".oar") && f.app.None?
  {
  }

  /** A call goes through its inputs in order, stops at one that raises, and ends with the drivers and the version. */
  lemma CallStages(version: string, runtimeVersion: Bytes, files: seq<InputFile>)
    ensures files == [] ==>
      Candidates(version, runtimeVersion, files) == [Entry("onos-" + version + "/" + "apps/org.onosproject.drivers/active", []),
                                                     Entry("onos-" + version + "/" + "VERSION", runtimeVersion)]
    ensures files != [] && Raises(files[0]) ==> Candidates(version, runtimeVersion, files) == []
    ensures files != [] && !Raises(files[0]) ==>
      Candidates(version, runtimeVersion, files) == FileCandidates(version, files[0]) + Candidates(version, runtimeVersion, files[1..])
  {
    if files != [] && !Raises(files[0]) {
      assert AnyRaises(files) <==> AnyRaises(files[1..]) by {
        assert forall f | f in files :: f == files[0] || f in files[1..];
      }
      Assoc(FileCandidates(version, files[0]), FilesCandidates(version, files[1..]),
            if AnyRaises(files) then [] else FinalCandidates(version, runtimeVersion));
    } else if files != [] {
      assert files[0] in files;
    }
  }
}
