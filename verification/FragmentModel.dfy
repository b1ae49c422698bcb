/**
 Merging the per-target release descriptor fragments of the Channel Extensions
 (`merge_fragments`): the merge as the code runs it, in fragment order.
 */
module FragmentModel {
  import opened Sequences
  import Text
  import opened RecencyMap

  const CHANNELS := {"psychevo.channel.wechat", "psychevo.channel.telegram", "psychevo.channel.feishu-lark"}
  const FAMILIES := {"linux", "macos", "windows"}
  const ARCHIVE_PREFIX := "psychevo.channel."
  const ARCHIVE_SUFFIX := ".tar.gz"

  /** An artifact object; `scheme` and `archiveName` are read off its URL, `rest` is everything else in it. */
  datatype Artifact = Artifact(
    scheme: string, archiveName: string, size: Option<nat>, sha256: Option<string>, rest: string)

  /** A dictionary from target to artifact, in insertion order. */
  type Artifacts = seq<Entry<Artifact>>

  datatype Descriptor = Descriptor(schemaVersion: int, id: string, version: string, artifacts: Artifacts)

  /** A file below the source directory with what `stat` and `sha256` say of it. */
  datatype File = File(directory: string, name: string, size: nat, sha256: string) {
    function Path(): (string, string) { (directory, name) }
  }

  datatype Release = Release(id: string, version: string, artifacts: map<string, Artifact>)

  datatype Reason =
    | OutputNotEmpty | IdsDiffer | InvalidFragment | MixedVersions | Conflicting | FamiliesDiffer
    | InvalidUrl | NotOneArchive | SizeMismatch | DigestMismatch | NameReused | CountDiffers | Unreferenced

  predicate AboutOneExtension(reason: Reason) {
    !reason.OutputNotEmpty? && !reason.IdsDiffer? && !reason.CountDiffers? && !reason.Unreferenced?
  }

  datatype Outcome<+T> = Ok(value: T) | Failed(reason: Reason)

  /** `merged_descriptors` and `referenced_archives`. */
  datatype Merged = Merged(descriptors: map<string, Release>, referenced: map<string, File>)

  predicate Contains(s: string, part: string) {
    part <= s || (s != "" && Contains(s[1..], part))
  }

  function TargetFamily(target: string): string {
    if Contains(target, "-linux-") then "linux"
    else if Text.EndsWith(target, "-apple-darwin") then "macos"
    else if Contains(target, "-windows-") then "windows"
    else "unknown:" + target
  }

  ghost predicate Occurs(s: string, part: string, i: nat) {
    i + |part| <= |s| && s[i..i + |part|] == part
  }

  lemma OccursShifts(s: string, part: string, i: nat)
    requires s != ""
    ensures Occurs(s[1..], part, i) <==> Occurs(s, part, i + 1)
  {
    if i + 1 + |part| <= |s| { assert s[i + 1..i + 1 + |part|] == s[1..][i..i + |part|]; }
  }

  lemma {:induction false} ContainsIff(s: string, part: string)
    ensures Contains(s, part) <==> exists i :: Occurs(s, part, i)
  {
    if part <= s {
      assert Occurs(s, part, 0);
    } else if s != "" {
      ContainsIff(s[1..], part);
      assert !Occurs(s, part, 0);
      if i: nat :| Occurs(s[1..], part, i) {
        OccursShifts(s, part, i);
      }
      if i: nat :| Occurs(s, part, i) {
        OccursShifts(s, part, i - 1);
      }
    }
  }

  /** The family of a target triple: where its system part stands, Linux before macOS before Windows. */
  lemma TargetFamilyMeans(target: string)
    ensures var linux, windows := (exists i :: Occurs(target, "-linux-", i)), (exists i :: Occurs(target, "-windows-", i));
            var macos := Text.EndsWith(target, "-apple-darwin");
            && (TargetFamily(target) == "linux" <==> linux)
            && (TargetFamily(target) == "macos" <==> macos && !linux)
            && (TargetFamily(target) == "windows" <==> windows && !linux && !macos)
            && (TargetFamily(target) in FAMILIES <==> linux || macos || windows)
  {
    ContainsIff(target, "-linux-");
    ContainsIff(target, "-windows-");
    assert ("unknown:" + target)[0] == 'u';
    assert "linux"[0] == 'l' && "macos"[0] == 'm' && "windows"[0] == 'w';
  }

  function Families(targets: set<string>): set<string> {
    set t | t in targets :: TargetFamily(t)
  }

  // ----- grouping -----

  /** The keys of `grouped`, in the order they were first seen. */
  function Ids(fragments: seq<Descriptor>): seq<string> {
    if fragments == [] then []
    else
      var ids, last := Ids(fragments[..|fragments| - 1]), fragments[|fragments| - 1];
      if last.id in ids then ids else ids + [last.id]
  }

  /** `grouped[id]`. */
  function GroupOf(fragments: seq<Descriptor>, id: string): seq<Descriptor> {
    if fragments == [] then []
    else
      var last := fragments[|fragments| - 1];
      GroupOf(fragments[..|fragments| - 1], id) + if last.id == id then [last] else []
  }

  // ----- one Extension -----

  function Absorb(artifacts: Artifacts, entries: Artifacts): (r: Outcome<Artifacts>)
    ensures r.Failed? ==> AboutOneExtension(r.reason)
    decreases |entries|
  {
    if entries == [] then Ok(artifacts)
    else
      var known := Find(artifacts, entries[0].key);
      if known.Some? && known.value != entries[0].value then Failed(Conflicting)
      else Absorb(if known.Some? then artifacts else artifacts + [entries[0]], entries[1..])
  }

  function Collect(id: string, version: string, group: seq<Descriptor>, artifacts: Artifacts): (r: Outcome<Artifacts>)
    ensures r.Failed? ==> AboutOneExtension(r.reason)
    decreases |group|
  {
    if group == [] then Ok(artifacts)
    else if group[0].schemaVersion != 1 || group[0].id != id then Failed(InvalidFragment)
    else if group[0].version != version then Failed(MixedVersions)
    else
      var absorbed := Absorb(artifacts, group[0].artifacts);
      if absorbed.Failed? then absorbed else Collect(id, version, group[1..], absorbed.value)
  }

  /** `list(source.rglob(name))`. */
  function Named(files: seq<File>, name: string): (r: seq<File>)
    ensures forall i :: 0 <= i < |r| ==> r[i] in files && r[i].name == name
  {
    if files == [] then []
    else (if files[0].name == name then [files[0]] else []) + Named(files[1..], name)
  }

  function Inspect(files: seq<File>, a: Artifact): (r: Outcome<File>)
    ensures r.Failed? ==> AboutOneExtension(r.reason)
  {
    var candidates := Named(files, a.archiveName);
    if a.scheme != "https" || !Text.EndsWith(a.archiveName, ARCHIVE_SUFFIX) then Failed(InvalidUrl)
    else if |candidates| != 1 then Failed(NotOneArchive)
    else if a.size != Some(candidates[0].size) then Failed(SizeMismatch)
    else if a.sha256 != Some(candidates[0].sha256) then Failed(DigestMismatch)
    else Ok(candidates[0])
  }

  function Reference(files: seq<File>, entries: Artifacts, referenced: map<string, File>): (r: Outcome<map<string, File>>)
    ensures r.Failed? ==> AboutOneExtension(r.reason)
    decreases |entries|
  {
    if entries == [] then Ok(referenced)
    else
      var name, archive := entries[0].value.archiveName, Inspect(files, entries[0].value);
      if archive.Failed? then Failed(archive.reason)
      else if name in referenced then Failed(NameReused)
      else Reference(files, entries[1..], referenced[name := archive.value])
  }

  function AsMap(artifacts: Artifacts): map<string, Artifact> {
    map t | t in Keys(artifacts) :: FindMeans(artifacts, t); Find(artifacts, t).value
  }

  function MergeGroup(files: seq<File>, id: string, group: seq<Descriptor>, m: Merged): (r: Outcome<Merged>)
    requires group != []
    ensures r.Failed? ==> AboutOneExtension(r.reason)
  {
    var version := group[0].version;
    var collected := Collect(id, version, group, []);
    if collected.Failed? then Failed(collected.reason)
    else if |collected.value| != 3 || Families(Keys(collected.value)) != FAMILIES then Failed(FamiliesDiffer)
    else
      var referenced := Reference(files, collected.value, m.referenced);
      if referenced.Failed? then Failed(referenced.reason)
      else Ok(Merged(m.descriptors[id := Release(id, version, AsMap(collected.value))], referenced.value))
  }

  // ----- the whole merge -----

  predicate IsChannelArchive(name: string) {
    |ARCHIVE_PREFIX| + |ARCHIVE_SUFFIX| <= |name| && ARCHIVE_PREFIX <= name && Text.EndsWith(name, ARCHIVE_SUFFIX)
  }

  /** The glob `psychevo.channel.*.tar.gz`. */
  ghost predicate GlobMatches(name: string, middle: string) {
    name == "psychevo.channel." + middle + ".tar.gz"
  }

  lemma IsChannelArchiveIff(name: string)
    ensures IsChannelArchive(name) <==> exists middle :: GlobMatches(name, middle)
  {
    if IsChannelArchive(name) {
      var middle := name[|ARCHIVE_PREFIX|..|name| - |ARCHIVE_SUFFIX|];
      assert name == name[..|ARCHIVE_PREFIX|] + middle + name[|name| - |ARCHIVE_SUFFIX|..];
      assert GlobMatches(name, middle);
    }
    forall middle | GlobMatches(name, middle) ensures IsChannelArchive(name) {
      assert name[|name| - |ARCHIVE_SUFFIX|..] == ".tar.gz";
    }
  }

  function MergeGroups(files: seq<File>, fragments: seq<Descriptor>, ids: seq<string>, m: Merged): (r: Outcome<Merged>)
    requires forall i :: 0 <= i < |ids| ==> GroupOf(fragments, ids[i]) != []
    ensures r.Failed? ==> AboutOneExtension(r.reason)
    decreases |ids|
  {
    if ids == [] then Ok(m)
    else
      var next := MergeGroup(files, ids[0], GroupOf(fragments, ids[0]), m);
      if next.Failed? then next else MergeGroups(files, fragments, ids[1..], next.value)
  }

  predicate Stray(f: File, referenced: map<string, File>) {
    IsChannelArchive(f.name) && f.Path() !in (set name | name in referenced :: referenced[name].Path())
  }

  function Merge(outputEmpty: bool, fragments: seq<Descriptor>, files: seq<File>): Outcome<Merged> {
    GroupsNonempty(fragments);
    if !outputEmpty then Failed(OutputNotEmpty)
    else if (set i | 0 <= i < |Ids(fragments)| :: Ids(fragments)[i]) != CHANNELS then Failed(IdsDiffer)
    else
      var merged := MergeGroups(files, fragments, Ids(fragments), Merged(map[], map[]));
      if merged.Failed? then merged
      else if |merged.value.referenced| != |CHANNELS| * 3 then Failed(CountDiffers)
      else if exists i :: 0 <= i < |files| && Stray(files[i], merged.value.referenced) then Failed(Unreferenced)
      else merged
  }

  lemma {:induction false} GroupMembers(fragments: seq<Descriptor>, id: string, d: Descriptor)
    ensures d in GroupOf(fragments, id) <==> d in fragments && d.id == id
  {
    if fragments != [] {
      var front, last := fragments[..|fragments| - 1], fragments[|fragments| - 1];
      assert fragments == front + [last];
      GroupMembers(front, id, d);
    }
  }

  lemma {:induction false} IdMembers(fragments: seq<Descriptor>, id: string)
    ensures id in Ids(fragments) <==> GroupOf(fragments, id) != []
  {
    if fragments != [] {
      IdMembers(fragments[..|fragments| - 1], id);
    }
  }

  lemma GroupsNonempty(fragments: seq<Descriptor>)
    ensures forall i :: 0 <= i < |Ids(fragments)| ==> GroupOf(fragments, Ids(fragments)[i]) != []
  {
    forall i | 0 <= i < |Ids(fragments)| ensures GroupOf(fragments, Ids(fragments)[i]) != [] {
      IdMembers(fragments, Ids(fragments)[i]);
    }
  }

  lemma {:induction false} IdsDistinct(fragments: seq<Descriptor>)
    ensures forall i, j :: 0 <= i < j < |Ids(fragments)| ==> Ids(fragments)[i] != Ids(fragments)[j]
  {
    if fragments != [] {
      IdsDistinct(fragments[..|fragments| - 1]);
    }
  }
}
