/** The manifest's producer and consumer agree on a file tree, and exactly when they do not. */
module ReleaseAgreement {
  import opened Text
  import opened ReleaseManifest
  import StringOrder

  // ----- what the entry loop accepts -----

  /** An entry that, on its own, names a file of the tree safely and describes it. */
  ghost predicate EntryFits(sha: Digest, tree: Tree, e: Entry) {
    && e.Listed? && !Unsafe(e.path, [])
    && Normalized(e.path) in tree && tree[Normalized(e.path)].Regular?
    && e.size == |tree[Normalized(e.path)].content| && e.sha256 == sha(tree[Normalized(e.path)].content)
  }

  ghost predicate Large(e: Entry) {
    e.Listed? && e.size >= DUPLICATE_MIN_BYTES
  }

  ghost predicate SamePayload(d: Entry, e: Entry) {
    Large(d) && Large(e) && d.size == e.size && d.sha256 == e.sha256
  }

  /** Neither the same path nor the same large payload. */
  ghost predicate Differ(d: Entry, e: Entry)
    requires d.Listed? && e.Listed?
  {
    d.path != e.path && !SamePayload(d, e)
  }

  ghost predicate NewTo(g: Gathered, e: Entry)
    requires e.Listed?
  {
    e.path !in g.selected && (Large(e) ==> (e.sha256, e.size as nat) !in g.digests)
  }

  ghost predicate Acceptable(sha: Digest, tree: Tree, g: Gathered, entries: seq<Entry>) {
    && (forall i :: 0 <= i < |entries| ==> EntryFits(sha, tree, entries[i]) && NewTo(g, entries[i]))
    && (forall i, j :: 0 <= i < j < |entries| ==> Differ(entries[i], entries[j]))
  }

  function Paths(entries: seq<Entry>): (r: seq<string>)
    requires forall i :: 0 <= i < |entries| ==> entries[i].Listed?
    ensures |r| == |entries| && forall i :: 0 <= i < |r| ==> r[i] == entries[i].path
  {
    seq(|entries|, i requires 0 <= i < |entries| => entries[i].path)
  }

  lemma CheckEntryIff(sha: Digest, tree: Tree, g: Gathered, e: Entry)
    ensures CheckEntry(sha, tree, g, e).Accepted? <==> EntryFits(sha, tree, e) && NewTo(g, e)
    ensures CheckEntry(sha, tree, g, e).Accepted? ==>
      var next := CheckEntry(sha, tree, g, e).value;
      next.selected == g.selected + [e.path]
      && next.digests == if Large(e) then g.digests[(e.sha256, e.size as nat) := e.path] else g.digests
  {
  }

  /** Nothing later clashes with what is gathered once `e` is added. */
  lemma NewToNext(sha: Digest, tree: Tree, g: Gathered, e: Entry, later: Entry)
    requires CheckEntry(sha, tree, g, e).Accepted? && later.Listed? && (Large(later) ==> later.size >= 0)
    ensures NewTo(CheckEntry(sha, tree, g, e).value, later) <==> NewTo(g, later) && Differ(e, later)
  {
    CheckEntryIff(sha, tree, g, e);
  }

  lemma AcceptableFirst(sha: Digest, tree: Tree, g: Gathered, entries: seq<Entry>)
    requires entries != [] && CheckEntry(sha, tree, g, entries[0]).Accepted?
    ensures Acceptable(sha, tree, g, entries) <==>
            Acceptable(sha, tree, CheckEntry(sha, tree, g, entries[0]).value, entries[1..])
  {
    var first, rest := entries[0], entries[1..];
    var next := CheckEntry(sha, tree, g, first).value;
    CheckEntryIff(sha, tree, g, first);
    forall i | 0 <= i < |rest| && rest[i].Listed?
      ensures NewTo(next, rest[i]) <==> NewTo(g, rest[i]) && Differ(first, rest[i])
    {
      NewToNext(sha, tree, g, first, rest[i]);
    }
    if Acceptable(sha, tree, g, entries) {
      forall i | 0 <= i < |rest| ensures EntryFits(sha, tree, rest[i]) && NewTo(next, rest[i]) {
        assert rest[i] == entries[i + 1];
      }
    }
    if Acceptable(sha, tree, next, rest) {
      forall i | 0 <= i < |entries| ensures EntryFits(sha, tree, entries[i]) && NewTo(g, entries[i]) {
        if i > 0 { assert entries[i] == rest[i - 1]; }
      }
      forall i, j | 0 <= i < j < |entries| ensures Differ(entries[i], entries[j]) {
        assert entries[j] == rest[j - 1];
        if i > 0 { assert entries[i] == rest[i - 1]; }
      }
    }
  }

  lemma AcceptableNeedsFirst(sha: Digest, tree: Tree, g: Gathered, entries: seq<Entry>)
    requires entries != [] && Acceptable(sha, tree, g, entries)
    ensures CheckEntry(sha, tree, g, entries[0]).Accepted?
  {
    CheckEntryIff(sha, tree, g, entries[0]);
  }

  /** The loop accepts exactly the lists of fitting entries without repetition. */
  lemma {:induction false} CheckEntriesIff(sha: Digest, tree: Tree, g: Gathered, entries: seq<Entry>)
    ensures CheckEntries(sha, tree, g, entries).Accepted? <==> Acceptable(sha, tree, g, entries)
    decreases |entries|
  {
    if entries == [] {
    } else if CheckEntry(sha, tree, g, entries[0]).Accepted? {
      AcceptableFirst(sha, tree, g, entries);
      CheckEntriesIff(sha, tree, CheckEntry(sha, tree, g, entries[0]).value, entries[1..]);
    } else if Acceptable(sha, tree, g, entries) {
      AcceptableNeedsFirst(sha, tree, g, entries);
    }
  }

  lemma PathsFirst(before: seq<string>, entries: seq<Entry>)
    requires entries != [] && forall i :: 0 <= i < |entries| ==> entries[i].Listed?
    ensures (before + [entries[0].path]) + Paths(entries[1..]) == before + Paths(entries)
  {
    assert Paths(entries) == [entries[0].path] + Paths(entries[1..]);
  }

  /** An accepted list selects its paths in order. */
  lemma {:induction false} CheckEntriesSelects(sha: Digest, tree: Tree, g: Gathered, entries: seq<Entry>)
    requires CheckEntries(sha, tree, g, entries).Accepted?
    requires forall i :: 0 <= i < |entries| ==> entries[i].Listed?
    ensures CheckEntries(sha, tree, g, entries).value.selected == g.selected + Paths(entries)
    decreases |entries|
  {
    if entries != [] {
      var next := CheckEntry(sha, tree, g, entries[0]).value;
      assert next.selected == g.selected + [entries[0].path] by { CheckEntryIff(sha, tree, g, entries[0]); }
      CheckEntriesSelects(sha, tree, next, entries[1..]);
      PathsFirst(g.selected, entries);
    }
  }

  // ----- names and paths -----

  lemma SuffixAfterSlash(path: string, slash: nat)
    requires slash < |path| && path[slash] == '/'
    ensures EndsWith(path[slash + 1..], MAP_SUFFIX) <==> EndsWith(path, MAP_SUFFIX)
  {
    var rest, start := path[slash + 1..], |path| - 4;
    if slash < start {
      assert path[start..] == rest[|rest| - 4..];
    } else if 0 <= start {
      assert path[start..][slash - start] == '/';
      assert MAP_SUFFIX[slash - start] != '/';
    }
  }

  lemma {:induction false} NameKeepsSuffix(path: string)
    ensures EndsWith(Name(path), MAP_SUFFIX) <==> EndsWith(path, MAP_SUFFIX)
    decreases |path|
  {
    var slash := Find(path, '/');
    if slash < |path| {
      SuffixAfterSlash(path, slash);
      NameKeepsSuffix(path[slash + 1..]);
      assert Name(path) == Name(path[slash + 1..]);
    }
  }

  /** A name is what follows the last slash, or the whole path where there is none. */
  ghost predicate NameIs(path: string, name: string) {
    '/' !in name && (path == name || EndsWith(path, "/" + name))
  }

  /** The last component of the path starts at `k`. */
  ghost predicate NameStarts(path: string, k: nat) {
    k <= |path| && '/' !in path[k..] && (k > 0 ==> path[k - 1] == '/')
  }

  lemma {:induction false} NameStart(path: string) returns (k: nat)
    ensures NameStarts(path, k) && Name(path) == path[k..]
    decreases |path|
  {
    var slash := Find(path, '/');
    if slash == |path| {
      k := 0;
      assert path[0..] == path;
    } else {
      var j := NameStart(path[slash + 1..]);
      k := slash + 1 + j;
      assert path[slash + 1..][j..] == path[k..];
      assert j > 0 ==> path[k - 1] == path[slash + 1..][j - 1];
    }
  }

  lemma SlashAfter(path: string, j: nat, k: nat)
    requires NameStarts(path, k) && j <= |path|
    ensures j < k ==> '/' in path[j..]
  {
    var rest := path[j..];
    assert j < k ==> rest[k - 1 - j] == path[k - 1];
  }

  lemma StartUnique(path: string, j: nat, k: nat)
    requires NameStarts(path, j) && NameStarts(path, k)
    ensures j == k
  {
    SlashAfter(path, j, k);
    SlashAfter(path, k, j);
  }

  lemma StartOf(path: string, name: string)
    ensures NameIs(path, name) <==> |name| <= |path| && NameStarts(path, |path| - |name|) && path[|path| - |name|..] == name
  {
    if |name| < |path| {
      var k := |path| - |name|;
      assert path[k - 1..] == [path[k - 1]] + path[k..];
      assert ("/" + name)[0] == '/' && ("/" + name)[1..] == name;
    }
  }

  lemma NameMeans(path: string, name: string)
    ensures Name(path) == name <==> NameIs(path, name)
  {
    var k := NameStart(path);
    StartOf(path, name);
    if NameIs(path, name) { StartUnique(path, k, |path| - |name|); }
  }

  /** A file below some directory of the tree that is named like the manifest. */
  predicate Nested(path: string) {
    EndsWith(path, "/" + MANIFEST)
  }

  lemma NamedManifestIff(path: string)
    ensures Name(path) == MANIFEST <==> path == MANIFEST || Nested(path)
  {
    NameMeans(path, MANIFEST);
    assert '/' !in MANIFEST;
  }

  /** What the backend counts as found, by whole paths. */
  lemma FoundMeans(tree: Tree, p: string)
    ensures Found(tree, p) <==> p in tree && p != MANIFEST && !Nested(p) && !EndsWith(p, MAP_SUFFIX)
  {
    NamedManifestIff(p);
    NameKeepsSuffix(p);
  }

  lemma {:induction false} WithoutDotsFixed(parts: seq<string>)
    requires forall i :: 0 <= i < |parts| ==> parts[i] != "" && parts[i] != "."
    ensures WithoutDots(parts) == parts
  {
    if parts != [] { WithoutDotsFixed(parts[1..]); }
  }

  lemma PathOkNormal(path: string)
    requires PathOk(path)
    ensures Normalized(path) == path
    ensures path != "" && path[0] != '/' && ".." !in Split(path, '/')
  {
    var parts := Split(path, '/');
    forall i | 0 <= i < |parts| ensures parts[i] != "" && parts[i] != "." && parts[i] != ".." {
      assert parts[i] !in ["", ".", ".."];
    }
    WithoutDotsFixed(parts);
    JoinSplit(path, '/');
    assert "/" == ['/'];
    assert parts[0] != "" && parts[0] == path[..Find(path, '/')];
  }

  // ----- any accepted manifest -----

  /** The entry that describes file `p` of the tree. */
  function EntryOf(sha: Digest, tree: Tree, p: string): Entry
    requires p in tree
  {
    Listed(p, sha(tree[p].content), |tree[p].content|)
  }

  lemma AcceptedShape(sha: Digest, tree: Tree, entries: seq<Entry>)
    requires Consume(sha, tree, Files(entries)).Accepted?
    ensures Acceptable(sha, tree, Gathered([], map[]), entries)
    ensures Elements(Paths(entries)) == FoundPaths(tree)
    ensures Consume(sha, tree, Files(entries)).value == StringOrder.Listing(FoundPaths(tree))
  {
    CheckEntriesIff(sha, tree, Gathered([], map[]), entries);
    CheckEntriesSelects(sha, tree, Gathered([], map[]), entries);
    assert [] + Paths(entries) == Paths(entries);
  }

  /**
   Whatever the manifest, once accepted the selection is the sorted list of
   exactly the files found in the tree; each is a regular file, listed by one
   entry with its size and digest, and no two large ones share both.
   */
  lemma AcceptedSelectsTheTree(sha: Digest, tree: Tree, entries: seq<Entry>)
    requires TreeOk(tree) && Consume(sha, tree, Files(entries)).Accepted?
    ensures Consume(sha, tree, Files(entries)).value == StringOrder.Listing(FoundPaths(tree))
    ensures forall p :: p in FoundPaths(tree) ==>
      tree[p].Regular? && exists i :: 0 <= i < |entries| && entries[i] == EntryOf(sha, tree, p)
    ensures forall i :: 0 <= i < |entries| ==> entries[i].Listed? && entries[i].path in FoundPaths(tree)
    ensures forall i, j :: 0 <= i < j < |entries| ==> entries[i].path != entries[j].path && !SamePayload(entries[i], entries[j])
  {
    AcceptedShape(sha, tree, entries);
    var paths := Paths(entries);
    forall p | p in FoundPaths(tree)
      ensures tree[p].Regular? && exists i :: 0 <= i < |entries| && entries[i] == EntryOf(sha, tree, p)
    {
      assert p in Elements(paths);
      var i :| 0 <= i < |paths| && paths[i] == p;
      PathOkNormal(p);
      assert EntryFits(sha, tree, entries[i]);
    }
    forall i | 0 <= i < |entries| ensures entries[i].path in FoundPaths(tree) {
      assert paths[i] in Elements(paths);
    }
  }

  // ----- the producer's own manifest -----

  function ToEntries(assets: seq<Asset>): (r: seq<Entry>)
    ensures |r| == |assets| && forall i :: 0 <= i < |r| ==> r[i] == Listed(assets[i].path, assets[i].sha256, assets[i].size)
  {
    seq(|assets|, i requires 0 <= i < |assets| => Listed(assets[i].path, assets[i].sha256, assets[i].size))
  }

  ghost predicate NoFoundLinks(tree: Tree) {
    forall p :: p in tree && tree[p].Symlink? ==> p == MANIFEST || Nested(p) || EndsWith(p, MAP_SUFFIX)
  }

  ghost predicate NoNestedManifest(tree: Tree) {
    forall p :: p in tree && tree[p].Regular? ==> !Nested(p)
  }

  ghost predicate NoBackslashes(tree: Tree) {
    forall p :: Shipped(tree, p) ==> '\\' !in p
  }

  /** Two shipped files of at least 64 KiB with the same size and digest. */
  ghost predicate Twins(sha: Digest, tree: Tree, p: string, q: string) {
    && Shipped(tree, p) && Shipped(tree, q) && p != q
    && DUPLICATE_MIN_BYTES <= |tree[p].content| == |tree[q].content|
    && sha(tree[p].content) == sha(tree[q].content)
  }

  ghost predicate NoTwins(sha: Digest, tree: Tree) {
    forall p, q :: !Twins(sha, tree, p, q)
  }

  /** The trees both sides read alike. */
  ghost predicate Releasable(sha: Digest, tree: Tree) {
    NoFoundLinks(tree) && NoNestedManifest(tree) && NoBackslashes(tree) && NoTwins(sha, tree)
  }

  ghost function ProducedEntries(sha: Digest, tree: Tree): (r: seq<Entry>)
    ensures |r| == |ShippedPaths(tree)|
    ensures forall i :: 0 <= i < |r| ==> Shipped(tree, ShippedPaths(tree)[i]) && r[i] == EntryOf(sha, tree, ShippedPaths(tree)[i])
  {
    var paths := ShippedPaths(tree);
    assert forall i :: 0 <= i < |paths| ==> paths[i] in paths;
    ToEntries(Produce(sha, tree))
  }

  lemma PositionOf(tree: Tree, p: string) returns (i: nat)
    requires Shipped(tree, p)
    ensures i < |ShippedPaths(tree)| && ShippedPaths(tree)[i] == p
  {
    assert p in ShippedPaths(tree);
    i :| 0 <= i < |ShippedPaths(tree)| && ShippedPaths(tree)[i] == p;
  }

  lemma ManifestSuffix()
    ensures !EndsWith(MANIFEST, MAP_SUFFIX) && !Nested(MANIFEST)
  {
    assert MANIFEST[|MANIFEST| - 4..][0] == 'j';
  }

  lemma NestedSuffix(p: string)
    requires Nested(p)
    ensures !EndsWith(p, MAP_SUFFIX)
  {
    ManifestSuffix();
    assert p[|p| - 4..] == MANIFEST[|MANIFEST| - 4..];
  }

  lemma FoundShippedAt(tree: Tree, p: string)
    requires p in tree
    ensures (Found(tree, p) <==> Shipped(tree, p)) <==>
            if tree[p].Regular? then !Nested(p) else p == MANIFEST || Nested(p) || EndsWith(p, MAP_SUFFIX)
  {
    FoundMeans(tree, p);
    ManifestSuffix();
    if Nested(p) { NestedSuffix(p); }
  }

  /** The consumer finds what the producer ships exactly when no link and no nested manifest is in the way. */
  lemma FoundIsShipped(tree: Tree)
    ensures FoundPaths(tree) == Elements(ShippedPaths(tree)) <==> NoFoundLinks(tree) && NoNestedManifest(tree)
  {
    var shipped := set p | p in tree && Shipped(tree, p);
    assert Elements(ShippedPaths(tree)) == shipped;
    forall p | p in tree
      ensures (p in FoundPaths(tree) <==> p in shipped) <==>
              if tree[p].Regular? then !Nested(p) else p == MANIFEST || Nested(p) || EndsWith(p, MAP_SUFFIX)
    {
      FoundShippedAt(tree, p);
    }
  }

  lemma ProducedFits(sha: Digest, tree: Tree, i: nat)
    requires TreeOk(tree) && i < |ShippedPaths(tree)|
    ensures EntryFits(sha, tree, ProducedEntries(sha, tree)[i]) <==> '\\' !in ShippedPaths(tree)[i]
  {
    assert ProducedEntries(sha, tree)[i] == EntryOf(sha, tree, ShippedPaths(tree)[i]);
    PathOkNormal(ShippedPaths(tree)[i]);
  }

  lemma ProducedDiffer(sha: Digest, tree: Tree, i: nat, j: nat)
    requires i < j < |ShippedPaths(tree)|
    ensures Differ(ProducedEntries(sha, tree)[i], ProducedEntries(sha, tree)[j]) <==>
            !Twins(sha, tree, ShippedPaths(tree)[i], ShippedPaths(tree)[j])
  {
    var d, e := ProducedEntries(sha, tree)[i], ProducedEntries(sha, tree)[j];
    assert d == EntryOf(sha, tree, ShippedPaths(tree)[i]) && e == EntryOf(sha, tree, ShippedPaths(tree)[j]);
    StringOrder.ListingSorted(set p | p in tree && Shipped(tree, p));
  }

  lemma ProducedNoTwins(sha: Digest, tree: Tree, i: nat, j: nat)
    requires Acceptable(sha, tree, Gathered([], map[]), ProducedEntries(sha, tree)) && i < j < |ShippedPaths(tree)|
    ensures !Twins(sha, tree, ShippedPaths(tree)[i], ShippedPaths(tree)[j])
  {
    ProducedDiffer(sha, tree, i, j);
  }

  lemma NoTwinAmong(sha: Digest, tree: Tree, p: string, q: string)
    requires Acceptable(sha, tree, Gathered([], map[]), ProducedEntries(sha, tree))
    requires Shipped(tree, p) && Shipped(tree, q) && p != q
    ensures !Twins(sha, tree, p, q)
  {
    var i := PositionOf(tree, p);
    var j := PositionOf(tree, q);
    if i < j { ProducedNoTwins(sha, tree, i, j); } else { ProducedNoTwins(sha, tree, j, i); }
  }

  lemma AcceptableIsReleasable(sha: Digest, tree: Tree)
    requires TreeOk(tree) && Acceptable(sha, tree, Gathered([], map[]), ProducedEntries(sha, tree))
    ensures NoBackslashes(tree) && NoTwins(sha, tree)
  {
    forall p | Shipped(tree, p) ensures '\\' !in p {
      var i := PositionOf(tree, p);
      ProducedFits(sha, tree, i);
    }
    forall p, q ensures !Twins(sha, tree, p, q) {
      if Shipped(tree, p) && Shipped(tree, q) && p != q { NoTwinAmong(sha, tree, p, q); }
    }
  }

  lemma ReleasableIsAcceptable(sha: Digest, tree: Tree)
    requires TreeOk(tree) && NoBackslashes(tree) && NoTwins(sha, tree)
    ensures Acceptable(sha, tree, Gathered([], map[]), ProducedEntries(sha, tree))
  {
    var entries := ProducedEntries(sha, tree);
    forall i | 0 <= i < |entries| ensures EntryFits(sha, tree, entries[i]) && NewTo(Gathered([], map[]), entries[i]) {
      ProducedFits(sha, tree, i);
    }
    forall i, j | 0 <= i < j < |entries| ensures Differ(entries[i], entries[j]) {
      ProducedDiffer(sha, tree, i, j);
    }
  }

  lemma ConsumeIff(sha: Digest, tree: Tree, entries: seq<Entry>)
    ensures Consume(sha, tree, Files(entries)).Accepted? <==>
            Acceptable(sha, tree, Gathered([], map[]), entries) && FoundPaths(tree) == Elements(Paths(entries))
  {
    CheckEntriesIff(sha, tree, Gathered([], map[]), entries);
    if CheckEntries(sha, tree, Gathered([], map[]), entries).Accepted? {
      CheckEntriesSelects(sha, tree, Gathered([], map[]), entries);
      assert [] + Paths(entries) == Paths(entries);
    }
  }

  /** An entry that describes the regular file under its very path. */
  ghost predicate Describes(sha: Digest, tree: Tree, e: Entry) {
    && e.Listed? && e.path in tree && tree[e.path].Regular? && '\\' !in e.path
    && e.size == |tree[e.path].content| && e.sha256 == sha(tree[e.path].content)
  }

  lemma FitsIsDescribes(sha: Digest, tree: Tree, e: Entry)
    requires TreeOk(tree) && e.Listed? && Found(tree, e.path)
    ensures EntryFits(sha, tree, e) <==> Describes(sha, tree, e)
  {
    PathOkNormal(e.path);
    FoundMeans(tree, e.path);
  }

  ghost predicate ListedIn(entries: seq<Entry>, p: string) {
    exists i :: 0 <= i < |entries| && entries[i].Listed? && entries[i].path == p
  }

  /** Each entry describes a file, and the files described are all but the manifests and the source maps. */
  ghost predicate DescribesTree(sha: Digest, tree: Tree, entries: seq<Entry>) {
    && (forall i :: 0 <= i < |entries| ==> Describes(sha, tree, entries[i]))
    && (forall i, j :: 0 <= i < j < |entries| ==> Differ(entries[i], entries[j]))
    && (forall p :: ListedIn(entries, p) <==> p in tree && p != MANIFEST && !Nested(p) && !EndsWith(p, MAP_SUFFIX))
  }

  lemma ListedAreElements(entries: seq<Entry>, p: string)
    requires forall i :: 0 <= i < |entries| ==> entries[i].Listed?
    ensures p in Elements(Paths(entries)) <==> ListedIn(entries, p)
  {
    var paths := Paths(entries);
    if p in Elements(paths) {
      var i :| 0 <= i < |paths| && paths[i] == p;
    }
    if i :| 0 <= i < |entries| && entries[i].path == p {
      assert paths[i] in Elements(paths);
    }
  }

  lemma AcceptedDescribes(sha: Digest, tree: Tree, entries: seq<Entry>)
    requires TreeOk(tree) && Consume(sha, tree, Files(entries)).Accepted?
    ensures DescribesTree(sha, tree, entries)
  {
    ConsumeIff(sha, tree, entries);
    AcceptedSelectsTheTree(sha, tree, entries);
    forall i | 0 <= i < |entries| ensures Describes(sha, tree, entries[i]) {
      FitsIsDescribes(sha, tree, entries[i]);
    }
    forall p ensures ListedIn(entries, p) <==> p in tree && p != MANIFEST && !Nested(p) && !EndsWith(p, MAP_SUFFIX) {
      ListedAreElements(entries, p);
      FoundMeans(tree, p);
    }
  }

  lemma DescribedAccepted(sha: Digest, tree: Tree, entries: seq<Entry>)
    requires TreeOk(tree) && DescribesTree(sha, tree, entries)
    ensures Consume(sha, tree, Files(entries)).Accepted?
  {
    forall p ensures p in Elements(Paths(entries)) <==> p in FoundPaths(tree) {
      ListedAreElements(entries, p);
      FoundMeans(tree, p);
    }
    forall i | 0 <= i < |entries| ensures EntryFits(sha, tree, entries[i]) && NewTo(Gathered([], map[]), entries[i]) {
      assert ListedIn(entries, entries[i].path);
      FoundMeans(tree, entries[i].path);
      FitsIsDescribes(sha, tree, entries[i]);
    }
    ConsumeIff(sha, tree, entries);
  }

  /**
   The backend accepts a list, from wherever it comes, exactly when it describes the
   tree: every file but manifests and source maps, once, regular, with its size and
   digest, no backslash in its path, and no large payload twice.
   */
  lemma AcceptedIff(sha: Digest, tree: Tree, entries: seq<Entry>)
    requires TreeOk(tree)
    ensures Consume(sha, tree, Files(entries)).Accepted? <==> DescribesTree(sha, tree, entries)
  {
    if Consume(sha, tree, Files(entries)).Accepted? { AcceptedDescribes(sha, tree, entries); }
    if DescribesTree(sha, tree, entries) { DescribedAccepted(sha, tree, entries); }
  }

  /** The consumer accepts the producer's manifest of a tree exactly when the tree is releasable. */
  lemma ProducedAcceptedIff(sha: Digest, tree: Tree)
    requires TreeOk(tree)
    ensures Consume(sha, tree, Files(ProducedEntries(sha, tree))).Accepted? <==> Releasable(sha, tree)
  {
    var entries := ProducedEntries(sha, tree);
    ConsumeIff(sha, tree, entries);
    assert Paths(entries) == ShippedPaths(tree);
    FoundIsShipped(tree);
    if Acceptable(sha, tree, Gathered([], map[]), entries) {
      AcceptableIsReleasable(sha, tree);
    }
    if NoBackslashes(tree) && NoTwins(sha, tree) {
      ReleasableIsAcceptable(sha, tree);
    }
  }

  /** A regular file below a directory that is named like the manifest makes the backend refuse the plugin's manifest. */
  lemma NestedManifestRefused(sha: Digest, tree: Tree, p: string)
    requires TreeOk(tree) && p in tree && tree[p].Regular? && Nested(p)
    ensures Consume(sha, tree, Files(ProducedEntries(sha, tree))).Rejected?
  {
    ProducedAcceptedIff(sha, tree);
  }

  // ----- why a list is refused -----

  /** A path that is empty or absolute, climbs, holds a backslash, repeats an earlier one or is a source map. */
  ghost predicate Improper(path: string, earlier: seq<string>) {
    || path == "" || "/" <= path || '\\' in path || HasComponent(path, "..")
    || path in earlier || EndsWith(path, MAP_SUFFIX)
  }

  lemma UnsafeMeans(path: string, earlier: seq<string>)
    ensures Unsafe(path, earlier) <==> Improper(path, earlier)
  {
    ComponentIff(path, "..");
  }

  lemma {:induction false} CheckEntriesConcat(sha: Digest, tree: Tree, g: Gathered, a: seq<Entry>, b: seq<Entry>)
    requires CheckEntries(sha, tree, g, a).Accepted?
    ensures CheckEntries(sha, tree, g, a + b) == CheckEntries(sha, tree, CheckEntries(sha, tree, g, a).value, b)
    decreases |a|
  {
    if a == [] {
      assert a + b == b;
    } else {
      assert (a + b)[0] == a[0] && (a + b)[1..] == a[1..] + b;
      CheckEntriesConcat(sha, tree, CheckEntry(sha, tree, g, a[0]).value, a[1..], b);
    }
  }

  /** Entry `i` is the first that does not fit or clashes with an earlier one. */
  ghost predicate FirstFault(sha: Digest, tree: Tree, entries: seq<Entry>, i: nat) {
    && i < |entries| && Acceptable(sha, tree, Gathered([], map[]), entries[..i])
    && !Acceptable(sha, tree, Gathered([], map[]), entries[..i + 1])
  }

  lemma CheckedUpTo(sha: Digest, tree: Tree, entries: seq<Entry>, i: nat) returns (at: Gathered)
    requires i <= |entries| && Acceptable(sha, tree, Gathered([], map[]), entries[..i])
    ensures CheckEntries(sha, tree, Gathered([], map[]), entries[..i]) == Accepted(at) && at.selected == Paths(entries[..i])
    ensures CheckEntries(sha, tree, Gathered([], map[]), entries) == CheckEntries(sha, tree, at, entries[i..])
  {
    var start, front := Gathered([], map[]), entries[..i];
    CheckEntriesIff(sha, tree, start, front);
    CheckEntriesSelects(sha, tree, start, front);
    assert [] + Paths(front) == Paths(front);
    assert entries == front + entries[i..];
    CheckEntriesConcat(sha, tree, start, front, entries[i..]);
    at := CheckEntries(sha, tree, start, front).value;
  }

  /** The first fault decides how the list is refused. */
  lemma FaultDecides(sha: Digest, tree: Tree, entries: seq<Entry>, i: nat) returns (at: Gathered)
    requires FirstFault(sha, tree, entries, i)
    ensures at.selected == Paths(entries[..i]) && CheckEntry(sha, tree, at, entries[i]).Rejected?
    ensures Consume(sha, tree, Files(entries)) == Rejected(CheckEntry(sha, tree, at, entries[i]).reason)
  {
    var upTo := entries[..i + 1];
    assert upTo[..i] == entries[..i] && upTo[i..] == [entries[i]];
    at := CheckedUpTo(sha, tree, entries, i);
    var same := CheckedUpTo(sha, tree, upTo, i);
    CheckEntriesIff(sha, tree, Gathered([], map[]), upTo);
    assert entries[i..][0] == entries[i];
  }

  /** It is reported as an unsafe path exactly when its path is improper there. */
  lemma UnsafeReported(sha: Digest, tree: Tree, entries: seq<Entry>, i: nat)
    requires FirstFault(sha, tree, entries, i) && entries[i].Listed?
    ensures Consume(sha, tree, Files(entries)) == Rejected(UnsafePath(entries[i].path)) <==>
            Improper(entries[i].path, Paths(entries[..i]))
  {
    var at := FaultDecides(sha, tree, entries, i);
    UnsafeMeans(entries[i].path, Paths(entries[..i]));
  }
}
