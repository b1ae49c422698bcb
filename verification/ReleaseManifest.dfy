/**
 The release asset manifest: the list the Vite plugin writes for a built tree,
 and the strict check the wheel backend makes of it before packaging. SHA-256 is
 any function from contents to text.
 */
module ReleaseManifest {
  import opened Text
  import StringOrder

  type Bytes = seq<bv8>
  type Digest = Bytes -> string

  /** A file, or a symbolic link to a file, by its POSIX path below the root. */
  datatype Node = Regular(content: Bytes) | Symlink(content: Bytes)

  type Tree = map<string, Node>

  const MANIFEST := "psychevo-release-assets.json"
  const MAP_SUFFIX := ".map"
  const DUPLICATE_MIN_BYTES := 64 * 1024

  /** The last component of a path. */
  function Name(path: string): string {
    var slash := Find(path, '/');
    if slash == |path| then path else Name(path[slash + 1..])
  }

  /** A path as a directory walk yields it. */
  ghost predicate PathOk(path: string) {
    forall i :: 0 <= i < |Split(path, '/')| ==> Split(path, '/')[i] !in ["", ".", ".."]
  }

  ghost predicate TreeOk(tree: Tree) {
    forall p :: p in tree ==> PathOk(p)
  }

  // ----- the producer -----

  datatype Asset = Asset(path: string, sha256: string, size: nat)

  predicate Shipped(tree: Tree, p: string) {
    p in tree && tree[p].Regular? && p != MANIFEST && !EndsWith(p, MAP_SUFFIX)
  }

  function ShippedPaths(tree: Tree): seq<string> {
    StringOrder.Listing(set p | p in tree && Shipped(tree, p))
  }

  function AssetAt(sha: Digest, tree: Tree, p: string): Asset
    requires p in tree
  {
    Asset(p, sha(tree[p].content), |tree[p].content|)
  }

  /** The manifest as a sequential pass over the sorted paths would write it. */
  function Produce(sha: Digest, tree: Tree): (assets: seq<Asset>)
    ensures |assets| == |ShippedPaths(tree)|
    ensures forall i :: 0 <= i < |assets| ==> ShippedPaths(tree)[i] in tree && assets[i] == AssetAt(sha, tree, ShippedPaths(tree)[i])
  {
    var paths := ShippedPaths(tree);
    assert forall i :: 0 <= i < |paths| ==> paths[i] in paths;
    seq(|paths|, i requires 0 <= i < |paths| => AssetAt(sha, tree, paths[i]))
  }

  // ----- the consumer -----

  /** One element of the manifest's `files` list after JSON decoding. */
  datatype Entry = NotAnObject | Malformed | Listed(path: string, sha256: string, size: int)

  datatype Document = Missing | Unreadable | WrongSchema | Files(entries: seq<Entry>)

  datatype Reason =
    | ManifestMissing
    | ManifestUnreadable
    | ManifestSchema
    | EntryNotObject
    | EntryMalformed
    | UnsafePath(path: string)
    | AssetMissing(path: string)
    | AssetMismatch(path: string)
    | DuplicatePayload(first: string, second: string)
    | TreeMismatch

  datatype Result<+T> = Accepted(value: T) | Rejected(reason: Reason)

  /** What the loop has gathered: the selected paths in order, and the large payloads seen. */
  datatype Gathered = Gathered(selected: seq<string>, digests: map<(string, nat), string>)

  predicate Unsafe(path: string, selected: seq<string>) {
    || path == ""
    || path[0] == '/' || path[0] == '\\'
    || ".." in Split(path, '/')
    || '\\' in path
    || path in selected
    || EndsWith(path, MAP_SUFFIX)
  }

  function WithoutDots(parts: seq<string>): seq<string> {
    if parts == [] then []
    else (if parts[0] == "" || parts[0] == "." then [] else [parts[0]]) + WithoutDots(parts[1..])
  }

  /** The tree path that joining the components of `path` to the root reaches. */
  function Normalized(path: string): string {
    Join(WithoutDots(Split(path, '/')), "/")
  }

  function CheckEntry(sha: Digest, tree: Tree, g: Gathered, e: Entry): Result<Gathered> {
    if e.NotAnObject? then Rejected(EntryNotObject)
    else if e.Malformed? then Rejected(EntryMalformed)
    else if Unsafe(e.path, g.selected) then Rejected(UnsafePath(e.path))
    else
      var source := Normalized(e.path);
      if source !in tree || tree[source].Symlink? then Rejected(AssetMissing(e.path))
      else
        var content := tree[source].content;
        if |content| != e.size || sha(content) != e.sha256 then Rejected(AssetMismatch(e.path))
        else
          var key := (sha(content), |content|);
          if |content| >= DUPLICATE_MIN_BYTES && key in g.digests then Rejected(DuplicatePayload(g.digests[key], e.path))
          else
            Accepted(Gathered(g.selected + [e.path],
                              if |content| >= DUPLICATE_MIN_BYTES then g.digests[key := e.path] else g.digests))
  }

  function CheckEntries(sha: Digest, tree: Tree, g: Gathered, entries: seq<Entry>): Result<Gathered>
    decreases |entries|
  {
    if entries == [] then Accepted(g)
    else
      var next := CheckEntry(sha, tree, g, entries[0]);
      if next.Rejected? then next else CheckEntries(sha, tree, next.value, entries[1..])
  }

  /** What the backend finds below the root: files and links to files, by name. */
  predicate Found(tree: Tree, p: string) {
    p in tree && Name(p) != MANIFEST && !EndsWith(Name(p), MAP_SUFFIX)
  }

  function FoundPaths(tree: Tree): set<string> {
    set p | p in tree && Found(tree, p)
  }

  function Elements(s: seq<string>): set<string> {
    set x | x in s
  }

  /** `_release_assets`: the sorted selection, or why the release is refused. */
  function Consume(sha: Digest, tree: Tree, document: Document): Result<seq<string>> {
    match document
    case Missing => Rejected(ManifestMissing)
    case Unreadable => Rejected(ManifestUnreadable)
    case WrongSchema => Rejected(ManifestSchema)
    case Files(entries) =>
      var g := CheckEntries(sha, tree, Gathered([], map[]), entries);
      if g.Rejected? then Rejected(g.reason)
      else if FoundPaths(tree) != Elements(g.value.selected) then Rejected(TreeMismatch)
      else Accepted(StringOrder.Listing(Elements(g.value.selected)))
  }

  method SelectReleaseAssets(sha: Digest, tree: Tree, document: Document) returns (r: Result<seq<string>>)
    ensures r == Consume(sha, tree, document)
  {
    match document {
      case Missing => return Rejected(ManifestMissing);
      case Unreadable => return Rejected(ManifestUnreadable);
      case WrongSchema => return Rejected(ManifestSchema);
      case Files(entries) =>
        var selected: seq<string> := [];
        var digests: map<(string, nat), string> := map[];
        for i := 0 to |entries|
          invariant CheckEntries(sha, tree, Gathered(selected, digests), entries[i..])
            == CheckEntries(sha, tree, Gathered([], map[]), entries)
        {
          var entry := entries[i];
          assert entries[i..][0] == entry && entries[i..][1..] == entries[i + 1..];
          if entry.NotAnObject? {
            return Rejected(EntryNotObject);
          }
          if entry.Malformed? {
            return Rejected(EntryMalformed);
          }
          var Listed(path, expectedDigest, expectedSize) := entry;
          if Unsafe(path, selected) {
            return Rejected(UnsafePath(path));
          }
          var source := Normalized(path);
          if source !in tree || tree[source].Symlink? {
            return Rejected(AssetMissing(path));
          }
          var actualSize, actualDigest := |tree[source].content|, sha(tree[source].content);
          if actualSize != expectedSize || actualDigest != expectedDigest {
            return Rejected(AssetMismatch(path));
          }
          var duplicateKey := (actualDigest, actualSize);
          if actualSize >= DUPLICATE_MIN_BYTES {
            if duplicateKey in digests {
              return Rejected(DuplicatePayload(digests[duplicateKey], path));
            }
            digests := digests[duplicateKey := path];
          }
          selected := selected + [path];
        }
        var seen := Elements(selected);
        if FoundPaths(tree) != seen {
          return Rejected(TreeMismatch);
        }
        return Accepted(StringOrder.Listing(seen));
    }
  }
}
