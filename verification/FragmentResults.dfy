/** The main results about `merge_fragments`. */
module FragmentResults {
  import opened RecencyMap
  import opened FragmentModel
  import opened FragmentAgreement
  import opened FragmentMerge
  import opened FragmentFold

  const NOTHING := Merged(map[], map[])

  /** The archive-count check after the loop can never fail. */
  lemma CountNeverDiffers(outputEmpty: bool, fragments: seq<Descriptor>, files: seq<File>)
    ensures Merge(outputEmpty, fragments, files) != Failed(CountDiffers)
  {
    IdsAreTheIds(fragments);
    GroupsNonempty(fragments);
    if ChannelsOnly(fragments) && MergeGroups(files, fragments, Ids(fragments), NOTHING).Ok? {
      MergeGroupsCount(files, fragments, Ids(fragments), NOTHING);
      ThreeIds(fragments);
    }
  }

  lemma {:induction false} NamedHas(files: seq<File>, f: File)
    requires f in files
    ensures f in Named(files, f.name)
  {
    if files[0] != f {
      assert files == [files[0]] + files[1..];
      NamedHas(files[1..], f);
    }
  }

  lemma ListedIff(fragments: seq<Descriptor>, name: string)
    ensures var all := Elements(fragments);
            (exists i :: 0 <= i < |Ids(fragments)| && name in NamesFor(all, Ids(fragments)[i])) <==> NamesArchive(all, name)
  {
    var ids, all := Ids(fragments), Elements(fragments);
    if i :| 0 <= i < |ids| && name in NamesFor(all, ids[i]) {
      InNamesFor(all, ids[i], name);
    }
    if id, e :| Offers(all, id, e) && e.value.archiveName == name {
      InNamesFor(all, id, name);
      IdIsListed(fragments, id);
    }
  }

  /** A referenced name is one the fragments give, and the file under it is the only one so named. */
  lemma ReferencedIff(fragments: seq<Descriptor>, files: seq<File>, name: string)
    requires AllGrouped(fragments, Ids(fragments)) && MergeGroups(files, fragments, Ids(fragments), NOTHING).Ok?
    ensures var r := MergeGroups(files, fragments, Ids(fragments), NOTHING).value.referenced;
            && (name in r <==> NamesArchive(Elements(fragments), name))
            && (name in r ==> Named(files, name) == [r[name]])
  {
    MergeGroupsNames(files, fragments, Ids(fragments), NOTHING, name);
    MergeGroupsCount(files, fragments, Ids(fragments), NOTHING);
    ListedIff(fragments, name);
  }

  /** A channel archive is left over exactly when no fragment names it. */
  lemma StrayIff(fragments: seq<Descriptor>, files: seq<File>, f: File)
    requires AllGrouped(fragments, Ids(fragments)) && MergeGroups(files, fragments, Ids(fragments), NOTHING).Ok?
    requires f in files
    ensures Stray(f, MergeGroups(files, fragments, Ids(fragments), NOTHING).value.referenced) <==>
            IsChannelArchive(f.name) && !NamesArchive(Elements(fragments), f.name)
  {
    var r := MergeGroups(files, fragments, Ids(fragments), NOTHING).value.referenced;
    ReferencedIff(fragments, files, f.name);
    NamedHas(files, f);
    forall name | name in r ensures r[name].name == name {
      ReferencedIff(fragments, files, name);
      assert Named(files, name)[0] == r[name];
    }
  }

  lemma AllListedAcceptable(fragments: seq<Descriptor>, files: seq<File>)
    requires ChannelsOnly(fragments)
    ensures var all := Elements(fragments);
            AllAcceptable(all, files, Ids(fragments), NOTHING.referenced.Keys) <==> EachAcceptable(all, files) && NamesApart(all)
  {
    var ids, all := Ids(fragments), Elements(fragments);
    IdsDistinct(fragments);
    forall id: string ensures id in ids <==> id in IdsOf(all) {
      IdIsListed(fragments, id);
    }
    assert NOTHING.referenced.Keys == {};
    AllAcceptableIff(all, files, ids, {});
    ApartIff(all, ids);
  }

  lemma NoStrayIff(fragments: seq<Descriptor>, files: seq<File>)
    requires AllGrouped(fragments, Ids(fragments)) && MergeGroups(files, fragments, Ids(fragments), NOTHING).Ok?
    ensures var r := MergeGroups(files, fragments, Ids(fragments), NOTHING).value.referenced;
            (exists i :: 0 <= i < |files| && Stray(files[i], r)) <==> !Covered(Elements(fragments), files)
  {
    var r := MergeGroups(files, fragments, Ids(fragments), NOTHING).value.referenced;
    forall f | f in files
      ensures Stray(f, r) <==> IsChannelArchive(f.name) && !NamesArchive(Elements(fragments), f.name)
    {
      StrayIff(fragments, files, f);
    }
  }

  lemma LoopIff(fragments: seq<Descriptor>, files: seq<File>)
    requires ChannelsOnly(fragments) && AllGrouped(fragments, Ids(fragments))
    ensures var all := Elements(fragments);
            MergeGroups(files, fragments, Ids(fragments), NOTHING).Ok? <==> EachAcceptable(all, files) && NamesApart(all)
  {
    MergeGroupsIff(files, fragments, Ids(fragments), NOTHING);
    AllListedAcceptable(fragments, files);
  }

  lemma MergeChecks(fragments: seq<Descriptor>, files: seq<File>)
    requires AllGrouped(fragments, Ids(fragments))
    ensures Merge(true, fragments, files).Ok? <==>
            && ChannelsOnly(fragments)
            && MergeGroups(files, fragments, Ids(fragments), NOTHING).Ok?
            && Covered(Elements(fragments), files)
    ensures Merge(true, fragments, files).Ok? ==>
            Merge(true, fragments, files) == MergeGroups(files, fragments, Ids(fragments), NOTHING)
  {
    IdsAreTheIds(fragments);
    CountNeverDiffers(true, fragments, files);
    if MergeGroups(files, fragments, Ids(fragments), NOTHING).Ok? {
      NoStrayIff(fragments, files);
    }
  }

  /** The merge succeeds exactly when the set of fragments is acceptable; their order plays no part. */
  lemma MergeIff(fragments: seq<Descriptor>, files: seq<File>)
    ensures Merge(true, fragments, files).Ok? <==> Acceptable(Elements(fragments), files)
  {
    GroupsNonempty(fragments);
    MergeChecks(fragments, files);
    if ChannelsOnly(fragments) {
      LoopIff(fragments, files);
    }
  }

  // ----- what is released -----

  /** On success there is one descriptor per Channel Extension, and it says what its fragments say. */
  lemma MergedDescribes(fragments: seq<Descriptor>, files: seq<File>, id: string)
    requires Merge(true, fragments, files).Ok?
    ensures var r := Merge(true, fragments, files).value.descriptors;
            (id in r <==> id in CHANNELS) && (id in r ==> Describes(Elements(fragments), id, r[id]))
  {
    GroupsNonempty(fragments);
    MergeChecks(fragments, files);
    MergeGroupsDescribe(files, fragments, Ids(fragments), NOTHING, id);
    IdIsListed(fragments, id);
  }

  /** On success the referenced archives are exactly the named ones, each the only file so named. */
  lemma MergedReferences(fragments: seq<Descriptor>, files: seq<File>, name: string)
    requires Merge(true, fragments, files).Ok?
    ensures var r := Merge(true, fragments, files).value.referenced;
            && (name in r <==> NamesArchive(Elements(fragments), name))
            && (name in r ==> Named(files, name) == [r[name]])
  {
    GroupsNonempty(fragments);
    MergeChecks(fragments, files);
    ReferencedIff(fragments, files, name);
  }

  lemma DescribedOnce(fragments: set<Descriptor>, id: string, p: Release, q: Release)
    requires id in IdsOf(fragments) && Describes(fragments, id, p) && Describes(fragments, id, q)
    ensures p == q
  {
    forall t | t in p.artifacts ensures t in q.artifacts && q.artifacts[t] == p.artifacts[t] {
      assert Offers(fragments, id, Entry(t, p.artifacts[t]));
    }
    forall t | t in q.artifacts ensures t in p.artifacts {
      assert Offers(fragments, id, Entry(t, q.artifacts[t]));
    }
    assert p.artifacts == q.artifacts;
  }

  /** Reading the same fragments in another order succeeds or fails alike, and releases the same. */
  lemma OrderIrrelevant(p: seq<Descriptor>, q: seq<Descriptor>, files: seq<File>)
    requires Elements(p) == Elements(q)
    ensures Merge(true, p, files).Ok? <==> Merge(true, q, files).Ok?
    ensures Merge(true, p, files).Ok? ==> Merge(true, p, files) == Merge(true, q, files)
  {
    MergeIff(p, files);
    MergeIff(q, files);
    if Merge(true, p, files).Ok? {
      SameDescriptors(p, q, files);
      SameReferences(p, q, files);
    }
  }

  lemma SameDescriptors(p: seq<Descriptor>, q: seq<Descriptor>, files: seq<File>)
    requires Elements(p) == Elements(q) && Merge(true, p, files).Ok? && Merge(true, q, files).Ok?
    ensures Merge(true, p, files).value.descriptors == Merge(true, q, files).value.descriptors
  {
    var r, s := Merge(true, p, files).value.descriptors, Merge(true, q, files).value.descriptors;
    forall id: string ensures (id in r <==> id in s) && (id in r ==> r[id] == s[id]) {
      MergedDescribes(p, files, id);
      MergedDescribes(q, files, id);
      if id in r {
        MergeIff(p, files);
        DescribedOnce(Elements(p), id, r[id], s[id]);
      }
    }
    assert r == s;
  }

  lemma SameReferences(p: seq<Descriptor>, q: seq<Descriptor>, files: seq<File>)
    requires Elements(p) == Elements(q) && Merge(true, p, files).Ok? && Merge(true, q, files).Ok?
    ensures Merge(true, p, files).value.referenced == Merge(true, q, files).value.referenced
  {
    var r, s := Merge(true, p, files).value.referenced, Merge(true, q, files).value.referenced;
    forall name: string ensures (name in r <==> name in s) && (name in r ==> r[name] == s[name]) {
      MergedReferences(p, files, name);
      MergedReferences(q, files, name);
    }
    assert r == s;
  }

  /** Three elements with three images are mapped one to one. */
  lemma ImagesDiffer(targets: set<string>, s: string, t: string)
    requires |targets| == 3 && |Families(targets)| == 3 && s in targets && t in targets && s != t
    ensures TargetFamily(s) != TargetFamily(t)
  {
    var others := targets - {s};
    assert |others| == 2;
    FamiliesShrink(others);
    assert Families(targets) == Families(others) + {TargetFamily(s)};
  }

  lemma {:induction false} FamiliesShrink(targets: set<string>)
    ensures |Families(targets)| <= |targets|
    decreases |targets|
  {
    if targets != {} {
      var t :| t in targets;
      FamiliesShrink(targets - {t});
      assert Families(targets) == Families(targets - {t}) + {TargetFamily(t)};
    }
  }

  lemma DescribedTargets(fragments: set<Descriptor>, id: string, r: Release)
    requires Describes(fragments, id, r)
    ensures r.artifacts.Keys == Targets(fragments, id)
  {
    forall t | t in r.artifacts ensures t in Targets(fragments, id) {
      assert Offers(fragments, id, Entry(t, r.artifacts[t]));
    }
    forall t | t in Targets(fragments, id) ensures t in r.artifacts {
      var d, e :| d in fragments && d.id == id && e in d.artifacts && e.key == t;
      assert Offers(fragments, id, Entry(t, e.value));
    }
  }

  lemma OneToOne(targets: set<string>)
    requires |targets| == 3 && Families(targets) == FAMILIES
    ensures forall s, t :: s in targets && t in targets && TargetFamily(s) == TargetFamily(t) ==> s == t
  {
    forall s, t | s in targets && t in targets && s != t ensures TargetFamily(s) != TargetFamily(t) {
      ImagesDiffer(targets, s, t);
    }
  }

  lemma CoversFamilies(fragments: set<Descriptor>, files: seq<File>, id: string, r: Release)
    requires AcceptableFor(fragments, files, id) && Describes(fragments, id, r)
    ensures |r.artifacts| == 3 && Families(r.artifacts.Keys) == FAMILIES
  {
    DescribedTargets(fragments, id, r);
    assert |r.artifacts| == |r.artifacts.Keys|;
  }

  /** On success every Extension has three targets, one for each family. */
  lemma FamiliesOneToOne(fragments: seq<Descriptor>, files: seq<File>, id: string)
    requires Merge(true, fragments, files).Ok?
    requires id in Merge(true, fragments, files).value.descriptors
    ensures var targets := Merge(true, fragments, files).value.descriptors[id].artifacts.Keys;
            && |targets| == 3 && Families(targets) == FAMILIES
            && forall s, t :: s in targets && t in targets && TargetFamily(s) == TargetFamily(t) ==> s == t
  {
    var r := Merge(true, fragments, files).value.descriptors[id];
    assert AcceptableFor(Elements(fragments), files, id) && Describes(Elements(fragments), id, r) by {
      MergeIff(fragments, files);
      MergedDescribes(fragments, files, id);
    }
    CoversFamilies(Elements(fragments), files, id, r);
    OneToOne(r.artifacts.Keys);
  }

  lemma DescribedNamesDiffer(fragments: set<Descriptor>, files: seq<File>, p: string, q: string, x: Entry<Artifact>, y: Entry<Artifact>)
    requires Acceptable(fragments, files) && p in CHANNELS && Offers(fragments, p, x) && Offers(fragments, q, y)
    requires p != q || x.key != y.key
    ensures !SameName(x, y)
  {
    assert AcceptableFor(fragments, files, p);
    assert SameName(x, y) ==> p == q;
  }

  /** On success no two artifacts of the release name the same archive. */
  lemma ReleasedNamesDiffer(fragments: seq<Descriptor>, files: seq<File>, p: string, s: string, q: string, t: string)
    requires Merge(true, fragments, files).Ok?
    requires var r := Merge(true, fragments, files).value.descriptors;
             p in r && q in r && s in r[p].artifacts && t in r[q].artifacts && (p != q || s != t)
    ensures var r := Merge(true, fragments, files).value.descriptors;
            r[p].artifacts[s].archiveName != r[q].artifacts[t].archiveName
  {
    var r := Merge(true, fragments, files).value.descriptors;
    var x, y := Entry(s, r[p].artifacts[s]), Entry(t, r[q].artifacts[t]);
    assert Offers(Elements(fragments), p, x) && Offers(Elements(fragments), q, y) && p in CHANNELS by {
      MergedDescribes(fragments, files, p);
      MergedDescribes(fragments, files, q);
    }
    MergeIff(fragments, files);
    DescribedNamesDiffer(Elements(fragments), files, p, q, x, y);
  }
}
