/**
 What `merge_fragments` accepts, stated on the set of fragments, and what it
 then releases: neither depends on the order the fragments were read in.
 */
module FragmentAgreement {
  import opened Sequences
  import Text
  import opened RecencyMap
  import opened FragmentModel

  // ----- reference: the fragments as a set -----

  function Elements(fragments: seq<Descriptor>): set<Descriptor> {
    set i | 0 <= i < |fragments| :: fragments[i]
  }

  ghost predicate Offers(fragments: set<Descriptor>, id: string, e: Entry<Artifact>) {
    exists d :: d in fragments && d.id == id && e in d.artifacts
  }

  function Targets(fragments: set<Descriptor>, id: string): set<string> {
    set d, e | d in fragments && d.id == id && e in d.artifacts :: e.key
  }

  predicate SameName(x: Entry<Artifact>, y: Entry<Artifact>) {
    x.value.archiveName == y.value.archiveName
  }

  /** Exactly one of the files has this name. */
  ghost predicate OnlyAt(files: seq<File>, name: string, i: nat) {
    i < |files| && files[i].name == name && forall j :: 0 <= j < |files| && j != i ==> files[j].name != name
  }

  /** An HTTPS artifact whose archive is found once, with the size and the digest it states. */
  ghost predicate GenuineArchive(files: seq<File>, a: Artifact) {
    && a.scheme == "https" && Text.EndsWith(a.archiveName, ".tar.gz")
    && exists i: nat :: OnlyAt(files, a.archiveName, i) && a.size == Some(files[i].size) && a.sha256 == Some(files[i].sha256)
  }

  /** One Extension's fragments are well formed, of one version, and give no target two artifacts. */
  ghost predicate Coherent(fragments: set<Descriptor>, id: string) {
    && (forall d :: d in fragments && d.id == id ==> d.schemaVersion == 1)
    && (forall c, d :: c in fragments && d in fragments && c.id == d.id == id ==> c.version == d.version)
    && (forall x, y :: Offers(fragments, id, x) && Offers(fragments, id, y) && x.key == y.key ==> x == y)
  }

  /** They cover the three families with three targets, and name genuine archives, each once. */
  ghost predicate AcceptableFor(fragments: set<Descriptor>, files: seq<File>, id: string) {
    && Coherent(fragments, id)
    && |Targets(fragments, id)| == 3 && Families(Targets(fragments, id)) == FAMILIES
    && (forall x :: Offers(fragments, id, x) ==> GenuineArchive(files, x.value))
    && (forall x, y :: Offers(fragments, id, x) && Offers(fragments, id, y) && SameName(x, y) ==> x == y)
  }

  ghost predicate NamesApart(fragments: set<Descriptor>) {
    forall p, q, x, y :: Offers(fragments, p, x) && Offers(fragments, q, y) && SameName(x, y) ==> p == q
  }

  ghost predicate NamesArchive(fragments: set<Descriptor>, name: string) {
    exists id, e :: Offers(fragments, id, e) && e.value.archiveName == name
  }

  /** Every channel archive found is named by a fragment. */
  ghost predicate Covered(fragments: set<Descriptor>, files: seq<File>) {
    forall f :: f in files && IsChannelArchive(f.name) ==> NamesArchive(fragments, f.name)
  }

  ghost predicate EachAcceptable(fragments: set<Descriptor>, files: seq<File>) {
    forall id :: id in CHANNELS ==> AcceptableFor(fragments, files, id)
  }

  function IdsOf(fragments: set<Descriptor>): set<string> {
    set d | d in fragments :: d.id
  }

  ghost predicate Acceptable(fragments: set<Descriptor>, files: seq<File>) {
    && IdsOf(fragments) == CHANNELS
    && EachAcceptable(fragments, files)
    && NamesApart(fragments)
    && Covered(fragments, files)
  }

  // ----- collecting the artifacts of one Extension -----

  function Flat(group: seq<Descriptor>): Artifacts {
    if group == [] then [] else group[0].artifacts + Flat(group[1..])
  }

  lemma {:induction false} FlatMembers(group: seq<Descriptor>, e: Entry<Artifact>)
    ensures e in Flat(group) <==> exists d :: d in group && e in d.artifacts
  {
    if group != [] {
      FlatMembers(group[1..], e);
      assert group == [group[0]] + group[1..];
    }
  }

  ghost predicate Agree(p: Artifacts, q: Artifacts) {
    forall x, y :: x in p && y in q && x.key == y.key ==> x == y
  }

  lemma DistinctFind(artifacts: Artifacts, e: Entry<Artifact>)
    requires Distinct(artifacts)
    ensures e in artifacts <==> Find(artifacts, e.key) == Some(e.value)
  {
    FindMeans(artifacts, e.key);
    if e in artifacts {
      InKeys(artifacts, e);
    }
  }

  /** Absorbing succeeds exactly when no target is given two artifacts, and keeps every entry once. */
  lemma {:induction false} AbsorbIff(artifacts: Artifacts, entries: Artifacts)
    requires Distinct(artifacts)
    ensures Absorb(artifacts, entries).Ok? <==> Agree(artifacts, entries) && Agree(entries, entries)
    ensures Absorb(artifacts, entries).Ok? ==> Distinct(Absorb(artifacts, entries).value)
    ensures Absorb(artifacts, entries).Ok? ==>
      forall e :: e in Absorb(artifacts, entries).value <==> e in artifacts || e in entries
    decreases |entries|
  {
    if entries != [] {
      var e, rest := entries[0], entries[1..];
      assert entries == [e] + rest;
      DistinctFind(artifacts, e);
      FindMeans(artifacts, e.key);
      if Find(artifacts, e.key).Some? {
        AbsorbIff(artifacts, rest);
        if e in artifacts {
          forall x | x in artifacts && x.key == e.key ensures x == e { DistinctFind(artifacts, x); }
        }
      } else {
        forall x | x in artifacts ensures x.key != e.key { InKeys(artifacts, x); }
        AbsorbIff(artifacts + [e], rest);
      }
    }
  }

  lemma {:induction false} AbsorbConcat(artifacts: Artifacts, p: Artifacts, q: Artifacts)
    ensures Absorb(artifacts, p + q) ==
            if Absorb(artifacts, p).Failed? then Absorb(artifacts, p) else Absorb(Absorb(artifacts, p).value, q)
    decreases |p|
  {
    if p == [] {
      assert p + q == q;
    } else {
      assert (p + q)[0] == p[0] && (p + q)[1..] == p[1..] + q;
      AbsorbConcat(if Find(artifacts, p[0].key).Some? then artifacts else artifacts + [p[0]], p[1..], q);
    }
  }

  ghost predicate Uniform(id: string, version: string, group: seq<Descriptor>) {
    forall d :: d in group ==> d.schemaVersion == 1 && d.id == id && d.version == version
  }

  lemma {:induction false} CollectIsAbsorb(id: string, version: string, group: seq<Descriptor>, artifacts: Artifacts)
    ensures Collect(id, version, group, artifacts).Ok? <==>
            Uniform(id, version, group) && Absorb(artifacts, Flat(group)).Ok?
    ensures Collect(id, version, group, artifacts).Ok? ==>
            Collect(id, version, group, artifacts) == Absorb(artifacts, Flat(group))
    decreases |group|
  {
    if group != [] {
      AbsorbConcat(artifacts, group[0].artifacts, Flat(group[1..]));
      assert group == [group[0]] + group[1..];
      var absorbed := Absorb(artifacts, group[0].artifacts);
      if absorbed.Ok? {
        CollectIsAbsorb(id, version, group[1..], absorbed.value);
      }
    }
  }

  // ----- referencing the archives of one Extension -----

  lemma {:induction false} NamedNone(files: seq<File>, name: string)
    ensures Named(files, name) == [] <==> forall i :: 0 <= i < |files| ==> files[i].name != name
  {
    if files != [] {
      NamedNone(files[1..], name);
      if files[0].name != name {
        forall i | 0 < i < |files| ensures files[i] == files[1..][i - 1] {}
      }
    }
  }

  /** Searching by name finds one file exactly when there is one. */
  lemma {:induction false} NamedOne(files: seq<File>, name: string)
    ensures |Named(files, name)| == 1 <==> exists i: nat :: OnlyAt(files, name, i)
    ensures forall i: nat :: OnlyAt(files, name, i) ==> Named(files, name) == [files[i]]
  {
    if files != [] {
      var rest := files[1..];
      NamedOne(rest, name);
      NamedNone(rest, name);
      if files[0].name == name {
        if Named(rest, name) == [] {
          forall j | 0 < j < |files| ensures files[j].name != name { assert files[j] == rest[j - 1]; }
          assert OnlyAt(files, name, 0);
        }
        forall i: nat | OnlyAt(files, name, i) ensures i == 0 && Named(rest, name) == [] {
          forall j | 0 <= j < |rest| ensures rest[j].name != name { assert rest[j] == files[j + 1]; }
        }
      } else {
        forall i: nat | OnlyAt(files, name, i) ensures i > 0 && OnlyAt(rest, name, i - 1) && files[i] == rest[i - 1] {
          forall j | 0 <= j < |rest| && j != i - 1 ensures rest[j].name != name { assert rest[j] == files[j + 1]; }
        }
        forall i: nat | OnlyAt(rest, name, i) ensures OnlyAt(files, name, i + 1) {
          forall j | 0 <= j < |files| && j != i + 1 ensures files[j].name != name {
            if j > 0 { assert files[j] == rest[j - 1]; }
          }
        }
      }
    }
  }

  lemma InspectIff(files: seq<File>, a: Artifact)
    ensures Inspect(files, a).Ok? <==> GenuineArchive(files, a)
  {
    NamedOne(files, a.archiveName);
  }

  function Names(entries: Artifacts): set<string> {
    set e | e in entries :: e.value.archiveName
  }

  /** Every referenced name is mapped to the one file that has it. */
  ghost predicate Resolved(files: seq<File>, referenced: map<string, File>) {
    forall name :: name in referenced ==> Named(files, name) == [referenced[name]]
  }

  ghost predicate NamesDiffer(entries: Artifacts) {
    forall i, j :: 0 <= i < j < |entries| ==> entries[i].value.archiveName != entries[j].value.archiveName
  }

  ghost predicate Genuine(files: seq<File>, entries: Artifacts) {
    forall e :: e in entries ==> GenuineArchive(files, e.value)
  }

  /** Genuine archives under names that are new and pairwise different. */
  ghost predicate Referable(files: seq<File>, entries: Artifacts, taken: set<string>) {
    Genuine(files, entries) && NamesDiffer(entries) && Names(entries) !! taken
  }

  lemma NamesFirst(entries: Artifacts)
    requires entries != []
    ensures Names(entries) == {entries[0].value.archiveName} + Names(entries[1..])
  {
    assert entries == [entries[0]] + entries[1..];
  }

  lemma FirstNameDiffers(entries: Artifacts)
    requires entries != []
    ensures NamesDiffer(entries) <==> NamesDiffer(entries[1..]) && entries[0].value.archiveName !in Names(entries[1..])
  {
    var rest := entries[1..];
    assert entries == [entries[0]] + rest;
    forall e | NamesDiffer(entries) && e in rest ensures e.value.archiveName != entries[0].value.archiveName {
      var j :| 0 <= j < |rest| && rest[j] == e;
      assert entries[j + 1] == e;
    }
    forall j | 0 <= j < |rest| ensures rest[j] in rest && rest[j] == entries[j + 1] {}
  }

  lemma ReferableFirst(files: seq<File>, entries: Artifacts, taken: set<string>)
    requires entries != []
    ensures var name := entries[0].value.archiveName;
            Referable(files, entries, taken) <==>
            GenuineArchive(files, entries[0].value) && name !in taken && Referable(files, entries[1..], taken + {name})
  {
    FirstNameDiffers(entries);
    NamesFirst(entries);
    assert entries == [entries[0]] + entries[1..];
    assert Genuine(files, entries) <==> GenuineArchive(files, entries[0].value) && Genuine(files, entries[1..]);
  }

  /** Referencing succeeds exactly on referable entries. */
  lemma {:induction false} ReferenceIff(files: seq<File>, entries: Artifacts, referenced: map<string, File>)
    ensures Reference(files, entries, referenced).Ok? <==> Referable(files, entries, referenced.Keys)
    decreases |entries|
  {
    if entries != [] {
      ReferableFirst(files, entries, referenced.Keys);
      InspectIff(files, entries[0].value);
      var name, archive := entries[0].value.archiveName, Inspect(files, entries[0].value);
      if archive.Ok? && name !in referenced {
        var next := referenced[name := archive.value];
        assert next.Keys == referenced.Keys + {name};
        ReferenceIff(files, entries[1..], next);
      }
    }
  }

  lemma ResolvedNext(files: seq<File>, referenced: map<string, File>, a: Artifact)
    requires Resolved(files, referenced) && Inspect(files, a).Ok?
    ensures Resolved(files, referenced[a.archiveName := Inspect(files, a).value])
  {
    var candidates := Named(files, a.archiveName);
    assert candidates == [candidates[0]];
  }

  lemma {:induction false} ReferenceResolved(files: seq<File>, entries: Artifacts, referenced: map<string, File>)
    requires Resolved(files, referenced) && Reference(files, entries, referenced).Ok?
    ensures Resolved(files, Reference(files, entries, referenced).value)
    decreases |entries|
  {
    if entries != [] {
      var a := entries[0].value;
      ResolvedNext(files, referenced, a);
      ReferenceResolved(files, entries[1..], referenced[a.archiveName := Inspect(files, a).value]);
    }
  }

  lemma {:induction false} ReferenceSize(files: seq<File>, entries: Artifacts, referenced: map<string, File>)
    requires Reference(files, entries, referenced).Ok?
    ensures |Reference(files, entries, referenced).value| == |referenced| + |entries|
    decreases |entries|
  {
    if entries != [] {
      var a := entries[0].value;
      ReferenceSize(files, entries[1..], referenced[a.archiveName := Inspect(files, a).value]);
    }
  }

  lemma {:induction false} ReferenceKeys(files: seq<File>, entries: Artifacts, referenced: map<string, File>)
    requires Reference(files, entries, referenced).Ok?
    ensures Reference(files, entries, referenced).value.Keys == referenced.Keys + Names(entries)
    decreases |entries|
  {
    if entries != [] {
      var a := entries[0].value;
      var next := referenced[a.archiveName := Inspect(files, a).value];
      assert next.Keys == referenced.Keys + {a.archiveName};
      NamesFirst(entries);
      ReferenceKeys(files, entries[1..], next);
    }
  }
}
