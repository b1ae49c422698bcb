/** The loop over the Extensions: what it accepts, and what it has merged when it ends. */
module FragmentFold {
  import opened RecencyMap
  import opened FragmentModel
  import opened FragmentAgreement
  import opened FragmentMerge

  ghost predicate AllGrouped(fragments: seq<Descriptor>, ids: seq<string>) {
    forall i :: 0 <= i < |ids| ==> GroupOf(fragments, ids[i]) != []
  }

  /** Each listed Extension is acceptable and its archive names are not used by an earlier one. */
  ghost predicate AllAcceptable(fragments: set<Descriptor>, files: seq<File>, ids: seq<string>, taken: set<string>)
    decreases |ids|
  {
    ids == [] ||
    (&& AcceptableFor(fragments, files, ids[0]) && NamesFor(fragments, ids[0]) !! taken
     && AllAcceptable(fragments, files, ids[1..], taken + NamesFor(fragments, ids[0])))
  }

  lemma {:induction false} MergeGroupsIff(files: seq<File>, fragments: seq<Descriptor>, ids: seq<string>, m: Merged)
    requires AllGrouped(fragments, ids)
    ensures MergeGroups(files, fragments, ids, m).Ok? <==>
            AllAcceptable(Elements(fragments), files, ids, m.referenced.Keys)
    decreases |ids|
  {
    if ids != [] {
      MergeGroupIff(files, fragments, ids[0], m);
      var next := MergeGroup(files, ids[0], GroupOf(fragments, ids[0]), m);
      if next.Ok? {
        MergeGroupKeys(files, fragments, ids[0], m);
        MergeGroupsIff(files, fragments, ids[1..], next.value);
      }
    }
  }

  /** Every group adds three archives, and only files found under their own names are referenced. */
  lemma {:induction false} MergeGroupsCount(files: seq<File>, fragments: seq<Descriptor>, ids: seq<string>, m: Merged)
    requires AllGrouped(fragments, ids) && Resolved(files, m.referenced)
    requires MergeGroups(files, fragments, ids, m).Ok?
    ensures var r := MergeGroups(files, fragments, ids, m).value.referenced;
            Resolved(files, r) && |r| == |m.referenced| + 3 * |ids|
    decreases |ids|
  {
    if ids != [] {
      MergeGroupCount(files, fragments, ids[0], m);
      MergeGroupsCount(files, fragments, ids[1..], MergeGroup(files, ids[0], GroupOf(fragments, ids[0]), m).value);
    }
  }

  lemma {:induction false} MergeGroupsNames(files: seq<File>, fragments: seq<Descriptor>, ids: seq<string>, m: Merged, name: string)
    requires AllGrouped(fragments, ids) && MergeGroups(files, fragments, ids, m).Ok?
    ensures name in MergeGroups(files, fragments, ids, m).value.referenced <==>
            name in m.referenced || exists i :: 0 <= i < |ids| && name in NamesFor(Elements(fragments), ids[i])
    decreases |ids|
  {
    if ids != [] {
      MergeGroupKeys(files, fragments, ids[0], m);
      var next := MergeGroup(files, ids[0], GroupOf(fragments, ids[0]), m).value;
      MergeGroupsNames(files, fragments, ids[1..], next, name);
      if i :| 0 <= i < |ids| && name in NamesFor(Elements(fragments), ids[i]) {
        if i > 0 { assert ids[1..][i - 1] == ids[i]; }
      }
      if i :| 0 <= i < |ids[1..]| && name in NamesFor(Elements(fragments), ids[1..][i]) {
        assert ids[i + 1] == ids[1..][i];
      }
    }
  }

  /** Each merged descriptor says what its own fragments say. */
  lemma {:induction false} MergeGroupsDescribe(files: seq<File>, fragments: seq<Descriptor>, ids: seq<string>, m: Merged, id: string)
    requires AllGrouped(fragments, ids) && MergeGroups(files, fragments, ids, m).Ok?
    requires id in m.descriptors ==> Describes(Elements(fragments), id, m.descriptors[id])
    ensures var r := MergeGroups(files, fragments, ids, m).value.descriptors;
            && (id in r <==> id in m.descriptors || id in ids)
            && (id in r ==> Describes(Elements(fragments), id, r[id]))
    decreases |ids|
  {
    if ids != [] {
      MergeGroupDescribes(files, fragments, ids[0], m);
      MergeGroupsDescribe(files, fragments, ids[1..], MergeGroup(files, ids[0], GroupOf(fragments, ids[0]), m).value, id);
    }
  }

  // ----- the whole merge -----

  lemma IdIsListed(fragments: seq<Descriptor>, id: string)
    ensures id in Ids(fragments) <==> id in IdsOf(Elements(fragments))
  {
    IdMembers(fragments, id);
    if id in Ids(fragments) {
      GroupMembers(fragments, id, GroupOf(fragments, id)[0]);
    }
    if d :| d in Elements(fragments) && d.id == id {
      GroupMembers(fragments, id, d);
    }
  }

  lemma IdsAreTheIds(fragments: seq<Descriptor>)
    ensures (set i | 0 <= i < |Ids(fragments)| :: Ids(fragments)[i]) == IdsOf(Elements(fragments))
    ensures (set id | id in Ids(fragments)) == IdsOf(Elements(fragments))
  {
    var ids := Ids(fragments);
    assert (set i | 0 <= i < |ids| :: ids[i]) == (set id | id in ids);
    forall id: string ensures id in ids <==> id in IdsOf(Elements(fragments)) {
      IdIsListed(fragments, id);
    }
  }

  ghost predicate ChannelsOnly(fragments: seq<Descriptor>) {
    IdsOf(Elements(fragments)) == CHANNELS
  }

  lemma ThreeIds(fragments: seq<Descriptor>)
    requires ChannelsOnly(fragments)
    ensures |Ids(fragments)| == |CHANNELS|
  {
    IdsAreTheIds(fragments);
    IdsDistinct(fragments);
    DistinctElements(Ids(fragments));
  }

  lemma {:induction false} DistinctElements(s: seq<string>)
    requires forall i, j :: 0 <= i < j < |s| ==> s[i] != s[j]
    ensures |set id | id in s| == |s|
  {
    if s != [] {
      var front, last := s[..|s| - 1], s[|s| - 1];
      assert s == front + [last];
      DistinctElements(front);
      assert (set id | id in s) == (set id | id in front) + {last};
    }
  }

  // ----- what is accepted -----

  lemma InNamesFor(fragments: set<Descriptor>, id: string, name: string)
    ensures name in NamesFor(fragments, id) <==> exists e :: Offers(fragments, id, e) && e.value.archiveName == name
  {
    if name in NamesFor(fragments, id) {
      var d, e :| d in fragments && d.id == id && e in d.artifacts && e.value.archiveName == name;
      assert Offers(fragments, id, e);
    }
  }

  ghost predicate NamesForApart(fragments: set<Descriptor>, ids: seq<string>, taken: set<string>) {
    && (forall i :: 0 <= i < |ids| ==> NamesFor(fragments, ids[i]) !! taken)
    && forall i, j :: 0 <= i < j < |ids| ==> NamesFor(fragments, ids[i]) !! NamesFor(fragments, ids[j])
  }

  lemma NamesForApartFirst(fragments: set<Descriptor>, ids: seq<string>, taken: set<string>)
    requires ids != []
    ensures NamesForApart(fragments, ids, taken) <==>
            && NamesFor(fragments, ids[0]) !! taken
            && NamesForApart(fragments, ids[1..], taken + NamesFor(fragments, ids[0]))
  {
    var rest, more := ids[1..], taken + NamesFor(fragments, ids[0]);
    if NamesForApart(fragments, ids, taken) {
      forall i | 0 <= i < |rest| ensures NamesFor(fragments, rest[i]) !! more {
        assert rest[i] == ids[i + 1] && NamesFor(fragments, ids[0]) !! NamesFor(fragments, ids[i + 1]);
      }
      forall i, j | 0 <= i < j < |rest| ensures NamesFor(fragments, rest[i]) !! NamesFor(fragments, rest[j]) {
        assert rest[i] == ids[i + 1] && rest[j] == ids[j + 1];
      }
    }
    if NamesFor(fragments, ids[0]) !! taken && NamesForApart(fragments, rest, more) {
      forall i | 0 < i < |ids|
        ensures NamesFor(fragments, ids[i]) !! taken && NamesFor(fragments, ids[0]) !! NamesFor(fragments, ids[i])
      {
        assert ids[i] == rest[i - 1] && NamesFor(fragments, rest[i - 1]) !! more;
      }
      forall i, j | 0 < i < j < |ids| ensures NamesFor(fragments, ids[i]) !! NamesFor(fragments, ids[j]) {
        assert ids[i] == rest[i - 1] && ids[j] == rest[j - 1];
      }
    }
  }

  lemma {:induction false} AllAcceptableIff(fragments: set<Descriptor>, files: seq<File>, ids: seq<string>, taken: set<string>)
    ensures AllAcceptable(fragments, files, ids, taken) <==>
            (forall id :: id in ids ==> AcceptableFor(fragments, files, id)) && NamesForApart(fragments, ids, taken)
    decreases |ids|
  {
    if ids != [] {
      NamesForApartFirst(fragments, ids, taken);
      AllAcceptableIff(fragments, files, ids[1..], taken + NamesFor(fragments, ids[0]));
      assert ids == [ids[0]] + ids[1..];
    }
  }

  lemma ApartIff(fragments: set<Descriptor>, ids: seq<string>)
    requires forall i, j :: 0 <= i < j < |ids| ==> ids[i] != ids[j]
    requires forall id :: id in ids <==> id in IdsOf(fragments)
    ensures NamesForApart(fragments, ids, {}) <==> NamesApart(fragments)
  {
    if NamesApart(fragments) {
      forall i, j | 0 <= i < j < |ids| ensures NamesFor(fragments, ids[i]) !! NamesFor(fragments, ids[j]) {
        ApartPair(fragments, ids[i], ids[j]);
      }
    }
    if NamesForApart(fragments, ids, {}) {
      forall p, q, x, y | Offers(fragments, p, x) && Offers(fragments, q, y) && SameName(x, y) ensures p == q {
        assert p in ids && q in ids;
        var i :| 0 <= i < |ids| && ids[i] == p;
        var j :| 0 <= j < |ids| && ids[j] == q;
        InNamesFor(fragments, p, x.value.archiveName);
        InNamesFor(fragments, q, x.value.archiveName);
      }
    }
  }

  lemma ApartPair(fragments: set<Descriptor>, p: string, q: string)
    requires NamesApart(fragments) && p != q
    ensures NamesFor(fragments, p) !! NamesFor(fragments, q)
  {
    forall name | name in NamesFor(fragments, p) ensures name !in NamesFor(fragments, q) {
      InNamesFor(fragments, p, name);
      InNamesFor(fragments, q, name);
      var x :| Offers(fragments, p, x) && x.value.archiveName == name;
      forall y | Offers(fragments, q, y) ensures y.value.archiveName != name {
        assert SameName(x, y) ==> p == q;
      }
    }
  }
}
