/** From one Extension's fragments to the whole merge. */
module FragmentMerge {
  import opened RecencyMap
  import opened FragmentModel
  import opened FragmentAgreement

  // ----- one Extension -----

  lemma OffersFlat(fragments: seq<Descriptor>, id: string, e: Entry<Artifact>)
    ensures Offers(Elements(fragments), id, e) <==> e in Flat(GroupOf(fragments, id))
  {
    var group := GroupOf(fragments, id);
    FlatMembers(group, e);
    if Offers(Elements(fragments), id, e) {
      var d :| d in Elements(fragments) && d.id == id && e in d.artifacts;
      GroupMembers(fragments, id, d);
    }
    if d :| d in group && e in d.artifacts {
      GroupMembers(fragments, id, d);
    }
  }

  lemma UniformIff(fragments: seq<Descriptor>, id: string)
    requires GroupOf(fragments, id) != []
    ensures var all := Elements(fragments);
            Uniform(id, GroupOf(fragments, id)[0].version, GroupOf(fragments, id)) <==>
            && (forall d :: d in all && d.id == id ==> d.schemaVersion == 1)
            && (forall c, d :: c in all && d in all && c.id == d.id == id ==> c.version == d.version)
  {
    var group := GroupOf(fragments, id);
    forall d: Descriptor ensures d in group <==> d in Elements(fragments) && d.id == id {
      GroupMembers(fragments, id, d);
    }
    assert group[0] in group;
  }

  ghost function Collected(fragments: seq<Descriptor>, id: string): Outcome<Artifacts>
    requires GroupOf(fragments, id) != []
  {
    Collect(id, GroupOf(fragments, id)[0].version, GroupOf(fragments, id), [])
  }

  /** Collecting succeeds exactly on coherent fragments and yields what they offer, each target once. */
  lemma CollectedIff(fragments: seq<Descriptor>, id: string)
    requires GroupOf(fragments, id) != []
    ensures Collected(fragments, id).Ok? <==> Coherent(Elements(fragments), id)
    ensures Collected(fragments, id).Ok? ==> Distinct(Collected(fragments, id).value)
    ensures Collected(fragments, id).Ok? ==>
      forall e :: e in Collected(fragments, id).value <==> Offers(Elements(fragments), id, e)
  {
    var group := GroupOf(fragments, id);
    CollectIsAbsorb(id, group[0].version, group, []);
    AbsorbIff([], Flat(group));
    UniformIff(fragments, id);
    forall e: Entry<Artifact> ensures Offers(Elements(fragments), id, e) <==> e in Flat(group) {
      OffersFlat(fragments, id, e);
    }
  }

  lemma TargetsAreKeys(fragments: set<Descriptor>, id: string, artifacts: Artifacts)
    requires forall e :: e in artifacts <==> Offers(fragments, id, e)
    ensures Targets(fragments, id) == Keys(artifacts)
  {
    forall t | t in Targets(fragments, id) ensures t in Keys(artifacts) {
      var d, e :| d in fragments && d.id == id && e in d.artifacts && e.key == t;
      assert Offers(fragments, id, e);
      InKeys(artifacts, e);
    }
    forall t | t in Keys(artifacts) ensures t in Targets(fragments, id) {
      var i :| 0 <= i < |artifacts| && artifacts[i].key == t;
      assert artifacts[i] in artifacts;
    }
  }

  lemma NamesDifferIff(artifacts: Artifacts)
    requires Distinct(artifacts)
    ensures NamesDiffer(artifacts) <==> forall x, y :: x in artifacts && y in artifacts && SameName(x, y) ==> x == y
  {
    if forall x, y :: x in artifacts && y in artifacts && SameName(x, y) ==> x == y {
      forall i, j | 0 <= i < j < |artifacts| ensures !SameName(artifacts[i], artifacts[j]) {
        assert artifacts[i] in artifacts && artifacts[j] in artifacts;
      }
    }
  }

  function NamesFor(fragments: set<Descriptor>, id: string): set<string> {
    set d, e | d in fragments && d.id == id && e in d.artifacts :: e.value.archiveName
  }

  lemma NamesForIsNames(fragments: set<Descriptor>, id: string, artifacts: Artifacts)
    requires forall e :: e in artifacts <==> Offers(fragments, id, e)
    ensures NamesFor(fragments, id) == Names(artifacts)
  {
    forall n | n in NamesFor(fragments, id) ensures n in Names(artifacts) {
      var d, e :| d in fragments && d.id == id && e in d.artifacts && e.value.archiveName == n;
      assert Offers(fragments, id, e);
    }
  }

  /** One group merges exactly when it is acceptable and its names are new. */
  lemma MergeGroupIff(files: seq<File>, fragments: seq<Descriptor>, id: string, m: Merged)
    requires GroupOf(fragments, id) != []
    ensures MergeGroup(files, id, GroupOf(fragments, id), m).Ok? <==>
            AcceptableFor(Elements(fragments), files, id) && NamesFor(Elements(fragments), id) !! m.referenced.Keys
  {
    CollectedIff(fragments, id);
    if Collected(fragments, id).Ok? {
      var artifacts := Collected(fragments, id).value;
      DistinctSize(artifacts);
      TargetsAreKeys(Elements(fragments), id, artifacts);
      NamesForIsNames(Elements(fragments), id, artifacts);
      NamesDifferIff(artifacts);
      ReferenceIff(files, artifacts, m.referenced);
    }
  }

  /** What a merged descriptor says, in terms of the fragments it came from. */
  ghost predicate Describes(fragments: set<Descriptor>, id: string, r: Release) {
    && r.id == id
    && (forall d :: d in fragments && d.id == id ==> d.version == r.version)
    && forall t, a :: Offers(fragments, id, Entry(t, a)) <==> t in r.artifacts && r.artifacts[t] == a
  }

  lemma AsMapHolds(artifacts: Artifacts, t: string, a: Artifact)
    requires Distinct(artifacts)
    ensures Entry(t, a) in artifacts <==> t in AsMap(artifacts) && AsMap(artifacts)[t] == a
  {
    DistinctFind(artifacts, Entry(t, a));
    FindMeans(artifacts, t);
  }

  lemma MergeGroupDescribes(files: seq<File>, fragments: seq<Descriptor>, id: string, m: Merged)
    requires GroupOf(fragments, id) != [] && MergeGroup(files, id, GroupOf(fragments, id), m).Ok?
    ensures var next := MergeGroup(files, id, GroupOf(fragments, id), m).value;
            && next.descriptors.Keys == m.descriptors.Keys + {id}
            && Describes(Elements(fragments), id, next.descriptors[id])
            && forall other :: other in m.descriptors && other != id ==> next.descriptors[other] == m.descriptors[other]
  {
    CollectedIff(fragments, id);
    var group, artifacts := GroupOf(fragments, id), Collected(fragments, id).value;
    GroupMembers(fragments, id, group[0]);
    forall t, a ensures Offers(Elements(fragments), id, Entry(t, a)) <==> t in AsMap(artifacts) && AsMap(artifacts)[t] == a {
      AsMapHolds(artifacts, t, a);
    }
  }

  lemma MergeGroupKeys(files: seq<File>, fragments: seq<Descriptor>, id: string, m: Merged)
    requires GroupOf(fragments, id) != [] && MergeGroup(files, id, GroupOf(fragments, id), m).Ok?
    ensures var next := MergeGroup(files, id, GroupOf(fragments, id), m).value;
            next.referenced.Keys == m.referenced.Keys + NamesFor(Elements(fragments), id)
  {
    CollectedIff(fragments, id);
    var artifacts := Collected(fragments, id).value;
    NamesForIsNames(Elements(fragments), id, artifacts);
    ReferenceKeys(files, artifacts, m.referenced);
  }

  lemma MergeGroupCount(files: seq<File>, fragments: seq<Descriptor>, id: string, m: Merged)
    requires GroupOf(fragments, id) != [] && MergeGroup(files, id, GroupOf(fragments, id), m).Ok?
    requires Resolved(files, m.referenced)
    ensures var next := MergeGroup(files, id, GroupOf(fragments, id), m).value;
            Resolved(files, next.referenced) && |next.referenced| == |m.referenced| + 3
  {
    var artifacts := Collected(fragments, id).value;
    ReferenceSize(files, artifacts, m.referenced);
    ReferenceResolved(files, artifacts, m.referenced);
  }
}
