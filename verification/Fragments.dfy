/** `merge_fragments` as the loops over dictionaries that it is. */
module Fragments {
  import opened Sequences
  import Text
  import opened RecencyMap
  import opened FragmentModel
  import opened FragmentAgreement
  import opened FragmentResults

  method GroupFragments(fragments: seq<Descriptor>) returns (ids: seq<string>, grouped: map<string, seq<Descriptor>>)
    ensures ids == Ids(fragments) && grouped.Keys == (set id | id in ids)
    ensures forall id :: id in grouped ==> grouped[id] == GroupOf(fragments, id)
  {
    ids, grouped := [], map[];
    for n := 0 to |fragments|
      invariant ids == Ids(fragments[..n]) && grouped.Keys == (set id | id in ids)
      invariant forall id :: id in grouped ==> grouped[id] == GroupOf(fragments[..n], id)
    {
      var value := fragments[n];
      assert fragments[..n + 1][..n] == fragments[..n];
      if value.id !in grouped {
        IdMembers(fragments[..n], value.id);
        ids := ids + [value.id];
        grouped := grouped[value.id := []];
      }
      grouped := grouped[value.id := grouped[value.id] + [value]];
    }
    assert fragments[..|fragments|] == fragments;
  }

  method AbsorbEntries(artifacts: Artifacts, entries: Artifacts) returns (r: Outcome<Artifacts>)
    ensures r == Absorb(artifacts, entries)
  {
    var merged := artifacts;
    for n := 0 to |entries|
      invariant Absorb(artifacts, entries) == Absorb(merged, entries[n..])
    {
      var known := Find(merged, entries[n].key);
      assert entries[n..][1..] == entries[n + 1..];
      if known.Some? && known.value != entries[n].value {
        return Failed(Conflicting);
      }
      if known.None? {
        merged := merged + [entries[n]];
      }
    }
    return Ok(merged);
  }

  method CollectArtifacts(id: string, group: seq<Descriptor>) returns (r: Outcome<Artifacts>)
    requires group != []
    ensures r == Collect(id, group[0].version, group, [])
  {
    var version := group[0].version;
    var artifacts: Artifacts := [];
    for n := 0 to |group|
      invariant Collect(id, version, group, []) == Collect(id, version, group[n..], artifacts)
    {
      var descriptor := group[n];
      assert group[n..][1..] == group[n + 1..];
      if descriptor.schemaVersion != 1 || descriptor.id != id {
        return Failed(InvalidFragment);
      }
      if descriptor.version != version {
        return Failed(MixedVersions);
      }
      var absorbed := AbsorbEntries(artifacts, descriptor.artifacts);
      if absorbed.Failed? {
        return absorbed;
      }
      artifacts := absorbed.value;
    }
    return Ok(artifacts);
  }

  method ReferenceArchives(files: seq<File>, artifacts: Artifacts, referenced: map<string, File>)
    returns (r: Outcome<map<string, File>>)
    ensures r == Reference(files, artifacts, referenced)
  {
    var archives := referenced;
    for n := 0 to |artifacts|
      invariant Reference(files, artifacts, referenced) == Reference(files, artifacts[n..], archives)
    {
      var artifact := artifacts[n].value;
      assert artifacts[n..][1..] == artifacts[n + 1..];
      if artifact.scheme != "https" || !Text.EndsWith(artifact.archiveName, ARCHIVE_SUFFIX) {
        return Failed(InvalidUrl);
      }
      var candidates := Named(files, artifact.archiveName);
      if |candidates| != 1 {
        return Failed(NotOneArchive);
      }
      var archive := candidates[0];
      if artifact.size != Some(archive.size) {
        return Failed(SizeMismatch);
      }
      if artifact.sha256 != Some(archive.sha256) {
        return Failed(DigestMismatch);
      }
      if artifact.archiveName in archives {
        return Failed(NameReused);
      }
      archives := archives[artifact.archiveName := archive];
    }
    return Ok(archives);
  }

  method MergeExtension(files: seq<File>, id: string, group: seq<Descriptor>, m: Merged) returns (r: Outcome<Merged>)
    requires group != []
    ensures r == MergeGroup(files, id, group, m)
  {
    var collected := CollectArtifacts(id, group);
    if collected.Failed? {
      return Failed(collected.reason);
    }
    if |collected.value| != 3 || Families(Keys(collected.value)) != FAMILIES {
      return Failed(FamiliesDiffer);
    }
    var referenced := ReferenceArchives(files, collected.value, m.referenced);
    if referenced.Failed? {
      return Failed(referenced.reason);
    }
    var release := Release(id, group[0].version, AsMap(collected.value));
    return Ok(Merged(m.descriptors[id := release], referenced.value));
  }

  method MergeExtensions(files: seq<File>, fragments: seq<Descriptor>, ids: seq<string>, grouped: map<string, seq<Descriptor>>)
    returns (r: Outcome<Merged>)
    requires forall i :: 0 <= i < |ids| ==>
      ids[i] in grouped && grouped[ids[i]] == GroupOf(fragments, ids[i]) && grouped[ids[i]] != []
    ensures r == MergeGroups(files, fragments, ids, NOTHING)
  {
    var merged := NOTHING;
    for n := 0 to |ids|
      invariant MergeGroups(files, fragments, ids, NOTHING) == MergeGroups(files, fragments, ids[n..], merged)
    {
      assert ids[n..][1..] == ids[n + 1..];
      var next := MergeExtension(files, ids[n], grouped[ids[n]], merged);
      if next.Failed? {
        return next;
      }
      merged := next.value;
    }
    return Ok(merged);
  }

  /** Succeeds exactly on an empty output directory and an acceptable set of fragments. */
  method MergeFragments(outputEmpty: bool, fragments: seq<Descriptor>, files: seq<File>) returns (r: Outcome<Merged>)
    ensures r == Merge(outputEmpty, fragments, files)
    ensures r.Ok? <==> outputEmpty && Acceptable(Elements(fragments), files)
  {
    GroupsNonempty(fragments);
    MergeIff(fragments, files);
    if !outputEmpty {
      return Failed(OutputNotEmpty);
    }
    var ids, grouped := GroupFragments(fragments);
    if (set i | 0 <= i < |ids| :: ids[i]) != CHANNELS {
      return Failed(IdsDiffer);
    }
    var merged := MergeExtensions(files, fragments, ids, grouped);
    if merged.Failed? {
      return merged;
    }
    if |merged.value.referenced| != |CHANNELS| * 3 {
      return Failed(CountDiffers);
    }
    if exists i :: 0 <= i < |files| && Stray(files[i], merged.value.referenced) {
      return Failed(Unreferenced);
    }
    return merged;
  }
}
