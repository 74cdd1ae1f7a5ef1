/**
 Sealing a release bundle and verifying a seal: the two undo and check each other.  Hashing,
 the generated topology and Unicode normalization are parameters.
 */
module SealedBundle {
  import opened BundleFiles
  import opened EvidenceFiles
  import opened JsonText
  import opened ManifestText
  import opened Sorting
  import opened Utf16
  import opened Utf8
  import opened Wrappers

  // Places

  const EVIDENCE: Name :=
    [DOT, 0x70, 0x72, 0x65, 0x76, 0x69, 0x65, 0x77, MINUS, 0x65, 0x76, 0x69, 0x64, 0x65, 0x6E, 0x63, 0x65]
  const MANIFEST_NAME: Name :=
    [0x62, 0x75, 0x6E, 0x64, 0x6C, 0x65, MINUS, 0x6D, 0x61, 0x6E, 0x69, 0x66, 0x65, 0x73, 0x74, DOT, 0x6A, 0x73, 0x6F,
      0x6E]
  const SERVER: Name := [0x73, 0x65, 0x72, 0x76, 0x65, 0x72]
  const WRANGLER: Name := [0x77, 0x72, 0x61, 0x6E, 0x67, 0x6C, 0x65, 0x72, DOT, 0x6A, 0x73, 0x6F, 0x6E]

  const MANIFEST_PATH: Path := [EVIDENCE, MANIFEST_NAME]
  const TOPOLOGY_PATH: Path := [DIST, SERVER, WRANGLER]
  const MAX_JSON_BYTES := 64 * 1024

  lemma PlacesApart()
    ensures EVIDENCE != DIST && EVIDENCE != DRIZZLE && DIST != DRIZZLE
    ensures PlainName(EVIDENCE) && PlainName(MANIFEST_NAME) && PlainName(DIST) && PlainName(DRIZZLE)
    ensures !Bundled(MANIFEST_PATH) && Bundled(TOPOLOGY_PATH)
  {
    assert EVIDENCE[0] == DOT && DIST[0] == DRIZZLE[0] == 0x64 && DIST[1] != DRIZZLE[1];
  }

  /** A small JSON file: regular, with a permitted mode, and not over 64 KiB. */
  function JsonFile(t: Tree, p: Path): Option<Bytes> {
    if p in t.files && (t.files[p].mode == MODE_PLAIN || t.files[p].mode == MODE_EXECUTABLE)
       && |t.files[p].contents| <= MAX_JSON_BYTES
    then Some(t.files[p].contents) else None
  }

  /** `loadTopology` */
  function TopologyOf(codec: Codec, t: Tree): Option<Json> {
    var config := JsonFile(t, TOPOLOGY_PATH);
    if config.None? then None else codec.topology(config.value)
  }

  // Sealing

  /** `validLimits` */
  predicate ValidLimits(limits: Limits) {
    1 <= limits.maxFiles <= MAX_SAFE && 1 <= limits.maxFileBytes <= MAX_SAFE && 1 <= limits.maxTotalBytes <= MAX_SAFE
  }

  /** The directories a path lies in. */
  function Ancestors(p: Path): set<Path> {
    set k | 0 <= k < |p| :: p[..k]
  }

  /** `writeExclusive`: make the directories the path needs, then the file. */
  function Write(t: Tree, p: Path, f: DiskFile): Tree {
    t.(files := t.files[p := f], dirs := t.dirs + Ancestors(p))
  }

  const EMPTY_TREE := Tree(map[], {[]}, {})

  function Written(loaded: seq<LoadedFile>): Tree {
    if loaded == [] then EMPTY_TREE
    else
      var f := loaded[|loaded| - 1];
      Write(Written(loaded[..|loaded| - 1]), f.path, DiskFile(f.contents, f.mode))
  }

  /** The sealed tree: the collected files, and the manifest beside them. */
  function Sealed(loaded: seq<LoadedFile>, m: BundleManifest): Tree {
    Write(Written(loaded), MANIFEST_PATH, DiskFile(EncodeManifest(m), MODE_PLAIN))
  }

  /** What sealing produces: the manifest, and the output tree. */
  datatype Seal = Seal(manifest: BundleManifest, output: Tree)

  /** What can be sealed at all. */
  ghost predicate Sealable(codec: Codec, limits: Limits, source: Tree, identity: Identity) {
    && ValidIdentity(codec, identity) && ValidLimits(limits)
    && Collectable(codec.nfc, limits, source) && TopologyOf(codec, source).Some?
  }

  /** The seal this source gets from this collection of its files. */
  ghost predicate IsSeal(codec: Codec, limits: Limits, source: Tree, identity: Identity, loaded: seq<LoadedFile>,
      seal: Seal) {
    && Sealable(codec, limits, source, identity)
    && IsCollection(codec.nfc, limits, source, loaded)
    && seal.manifest == ManifestWithDigest(codec,
        Unsigned(identity, TopologyOf(codec, source).value, Projection(codec, loaded)))
    && seal.output == Sealed(loaded, seal.manifest)
  }

  datatype Sealing = Made(seal: Seal) | Refused | WriteFailed

  /** Which of the effects on the output fail: making it, each write in turn, and removing it again. */
  datatype Weather = Weather(fails: nat -> bool, removalFails: bool)

  /** All effects up to this one succeed. */
  ghost predicate Calm(weather: Weather, n: nat) {
    forall k: nat :: k < n ==> !weather.fails(k)
  }

  /** The output's directory, the collected files and the manifest. */
  ghost function Effects(source: Tree): nat {
    |BundledPaths(source)| + 2
  }

  /** A collection lists every bundled file once. */
  lemma CollectionSize(nfc: NormalForm, limits: Limits, source: Tree, loaded: seq<LoadedFile>)
    requires IsCollection(nfc, limits, source, loaded)
    ensures |loaded| == |BundledPaths(source)|
  {
    forall i, j | 0 <= i < j < |loaded| ensures loaded[i].path != loaded[j].path {
      BeforeAsymmetric(LoadedPath(loaded[i]), LoadedPath(loaded[j]));
    }
    DistinctPaths(loaded);
    forall p ensures p in Paths(loaded) <==> p in BundledPaths(source) {
      if p in BundledPaths(source) {
        var f := LoadedFile(p, source.files[p].contents, source.files[p].mode);
        assert f in loaded;
        var i :| 0 <= i < |loaded| && loaded[i] == f;
        assert loaded[i].path == p;
      }
      if p in Paths(loaded) {
        var i :| 0 <= i < |loaded| && loaded[i].path == p;
        assert loaded[i] in loaded;
      }
    }
    assert Paths(loaded) == BundledPaths(source);
  }

  ghost function Paths(loaded: seq<LoadedFile>): set<Path> {
    set i | 0 <= i < |loaded| :: loaded[i].path
  }

  lemma {:induction false} DistinctPaths(loaded: seq<LoadedFile>)
    requires forall i, j :: 0 <= i < j < |loaded| ==> loaded[i].path != loaded[j].path
    ensures |Paths(loaded)| == |loaded|
  {
    if loaded != [] {
      var n := |loaded| - 1;
      DistinctPaths(loaded[..n]);
      assert Paths(loaded) == Paths(loaded[..n]) + {loaded[n].path} by {
        assert forall i :: 0 <= i < n ==> loaded[..n][i] == loaded[i];
      }
      assert loaded[n].path !in Paths(loaded[..n]);
    }
  }

  /** The loop over the collected files, up to the first write that fails. */
  method WriteAll(loaded: seq<LoadedFile>, weather: Weather) returns (output: Tree, ok: bool)
    ensures ok <==> forall k: nat :: 1 <= k <= |loaded| ==> !weather.fails(k)
    ensures ok ==> output == Written(loaded)
  {
    output := EMPTY_TREE;
    var n := 0;
    while n < |loaded|
      invariant n <= |loaded| && output == Written(loaded[..n])
      invariant forall k: nat :: 1 <= k <= n ==> !weather.fails(k)
    {
      if weather.fails(n + 1) {
        return output, false;
      }
      assert loaded[..n + 1][..n] == loaded[..n];
      output := Write(output, loaded[n].path, DiskFile(loaded[n].contents, loaded[n].mode));
      n := n + 1;
    }
    assert loaded[..n] == loaded;
    return output, true;
  }

  lemma SealFound(codec: Codec, limits: Limits, source: Tree, identity: Identity, loaded: seq<LoadedFile>, seal: Seal)
    requires Sealable(codec, limits, source, identity) && IsCollection(codec.nfc, limits, source, loaded)
    requires seal.manifest == ManifestWithDigest(codec,
      Unsigned(identity, TopologyOf(codec, source).value, Projection(codec, loaded)))
    requires seal.output == Write(Written(loaded), MANIFEST_PATH, DiskFile(EncodeManifest(seal.manifest), MODE_PLAIN))
    ensures exists files :: IsSeal(codec, limits, source, identity, files, seal)
  {
    assert IsSeal(codec, limits, source, identity, loaded, seal);
  }

  /** The effects on the output, and what then stands there. */
  method WriteSeal(loaded: seq<LoadedFile>, manifest: BundleManifest, weather: Weather)
    returns (output: Option<Tree>, ok: bool)
    ensures ok <==> Calm(weather, |loaded| + 2)
    ensures ok ==> output == Some(Sealed(loaded, manifest))
    ensures !ok && !weather.removalFails ==> output == None
  {
    if weather.fails(0) {
      return None, false;
    }
    var written, all := WriteAll(loaded, weather);
    if !all || weather.fails(|loaded| + 1) {
      assert !Calm(weather, |loaded| + 2);
      return if weather.removalFails then Some(written) else None, false;
    }
    return Some(Write(written, MANIFEST_PATH, DiskFile(EncodeManifest(manifest), MODE_PLAIN))), true;
  }

  /**
   `createSealedBundle`, into an output that is not there.  `output` is what stands there afterwards:
   the seal, or nothing, unless removing a half-written one failed as well.
   */
  method CreateSealedBundle(codec: Codec, limits: Limits, source: Tree, identity: Identity, weather: Weather)
    returns (r: Sealing, output: Option<Tree>)
    requires ValidTree(source)
    ensures r.Refused? <==> !Sealable(codec, limits, source, identity)
    ensures r.Made? <==> Sealable(codec, limits, source, identity) && Calm(weather, Effects(source))
    ensures r.Made? ==> exists loaded :: IsSeal(codec, limits, source, identity, loaded, r.seal)
    ensures r.Made? ==> output == Some(r.seal.output)
    ensures r.Refused? || (r.WriteFailed? && !weather.removalFails) ==> output == None
  {
    var topology := TopologyOf(codec, source);
    if !ValidIdentity(codec, identity) || !ValidLimits(limits) || topology.None? {
      return Refused, None;
    }
    var collected := CollectBundleFiles(source, codec.nfc, limits);
    if collected.None? {
      return Refused, None;
    }
    CollectionSize(codec.nfc, limits, source, collected.value);
    var manifest := ManifestWithDigest(codec, Unsigned(identity, topology.value, Projection(codec, collected.value)));
    var ok;
    output, ok := WriteSeal(collected.value, manifest, weather);
    if !ok {
      return WriteFailed, output;
    }
    SealFound(codec, limits, source, identity, collected.value, Seal(manifest, output.value));
    return Made(Seal(manifest, output.value)), output;
  }

  // Verifying

  predicate Present(t: Tree, p: Path) {
    p in t.files || p in t.dirs || p in t.special
  }

  /** `assertSealedRoot`: the three directories and nothing else. */
  ghost predicate SealedRoot(t: Tree) {
    && (forall n :: Present(t, [n]) <==> n == EVIDENCE || n == DIST || n == DRIZZLE)
    && [EVIDENCE] in t.dirs && [DIST] in t.dirs && [DRIZZLE] in t.dirs
  }

  /** The manifest's directory holds the manifest and nothing else. */
  ghost predicate OnlyManifest(t: Tree) {
    MANIFEST_PATH in t.files && forall n :: Present(t, [EVIDENCE, n]) <==> n == MANIFEST_NAME
  }

  ghost predicate Inventoried(codec: Codec, limits: Limits, t: Tree, files: seq<BundleFile>) {
    exists loaded :: IsCollection(codec.nfc, limits, t, loaded) && Projection(codec, loaded) == files
  }

  /** The tree is exactly what this manifest describes, under this identity. */
  ghost predicate Accepts(codec: Codec, limits: Limits, t: Tree, expected: Identity, m: BundleManifest) {
    && ValidIdentity(codec, expected) && ValidLimits(limits)
    && SealedRoot(t) && OnlyManifest(t)
    && JsonFile(t, MANIFEST_PATH).Some? && Parse(codec, JsonFile(t, MANIFEST_PATH).value) == Some(m)
    && m.unsigned.identity == expected
    && TopologyOf(codec, t) == Some(m.unsigned.topology)
    && Collectable(codec.nfc, limits, t) && Inventoried(codec, limits, t, m.unsigned.files)
    && m.bundleSha256 == Digest(codec, m.unsigned)
  }

  lemma SortedListing(names: seq<Name>, expected: seq<Name>)
    requires Ascending(Before, names) && Ascending(Before, expected)
    ensures names == expected <==> forall n :: n in names <==> n in expected
  {
    BeforeIsStrict();
    if forall n :: n in names <==> n in expected {
      AscendingUnique(Before, names, expected);
    }
  }

  method CheckRoot(t: Tree) returns (ok: bool)
    requires ValidTree(t)
    ensures ok <==> SealedRoot(t)
  {
    var names := ListNames(t, []);
    RootListing(t, names);
    ok := names == [EVIDENCE, DIST, DRIZZLE] && [EVIDENCE] in t.dirs && [DIST] in t.dirs && [DRIZZLE] in t.dirs;
  }

  lemma RootListing(t: Tree, names: seq<Name>)
    requires Ascending(Before, names)
    requires forall n :: n in names <==> [] + [n] in t.files || [] + [n] in t.dirs || [] + [n] in t.special
    ensures names == [EVIDENCE, DIST, DRIZZLE] <==>
      forall n :: Present(t, [n]) <==> n == EVIDENCE || n == DIST || n == DRIZZLE
  {
    var expected := [EVIDENCE, DIST, DRIZZLE];
    forall n ensures n in names <==> Present(t, [n]) {
      assert [] + [n] == [n];
    }
    forall n ensures n in expected <==> n == EVIDENCE || n == DIST || n == DRIZZLE {
      assert expected[0] == EVIDENCE && expected[1] == DIST && expected[2] == DRIZZLE;
    }
    RootNamesAscend();
    SortedListing(names, expected);
  }

  lemma RootNamesAscend()
    ensures Ascending(Before, [EVIDENCE, DIST, DRIZZLE])
  {
    assert EVIDENCE[0] < DIST[0] && DIST[0] == DRIZZLE[0] && DIST[1..][0] < DRIZZLE[1..][0];
  }

  method CheckManifestDirectory(t: Tree) returns (ok: bool)
    requires ValidTree(t)
    ensures ok <==> OnlyManifest(t)
  {
    var names := ListNames(t, [EVIDENCE]);
    SortedListing(names, [MANIFEST_NAME]);
    forall n ensures n in names <==> Present(t, [EVIDENCE, n]) {
      assert [EVIDENCE] + [n] == [EVIDENCE, n];
    }
    ok := names == [MANIFEST_NAME] && MANIFEST_PATH in t.files;
  }

  /** `verifySealedBundle`; nothing stands for an error. */
  method VerifySealedBundle(codec: Codec, limits: Limits, t: Tree,
      expected: Identity) returns (r: Option<BundleManifest>)
    requires ValidTree(t)
    ensures r.Some? ==> Accepts(codec, limits, t, expected, r.value)
    ensures r.None? ==> forall m :: !Accepts(codec, limits, t, expected, m)
  {
    if !ValidIdentity(codec, expected) {
      return None;
    }
    var rooted := CheckRoot(t);
    if !rooted {
      return None;
    }
    var alone := CheckManifestDirectory(t);
    if !alone {
      return None;
    }
    var text := JsonFile(t, MANIFEST_PATH);
    if text.None? {
      return None;
    }
    var parsed := Parse(codec, text.value);
    if parsed.None? || parsed.value.unsigned.identity != expected {
      return None;
    }
    if !ValidLimits(limits) {
      return None;
    }
    var sound := CheckContents(codec, limits, t, parsed.value);
    return if sound then parsed else None;
  }

  method CheckContents(codec: Codec, limits: Limits, t: Tree, m: BundleManifest) returns (ok: bool)
    requires ValidTree(t)
    ensures ok <==>
      && TopologyOf(codec, t) == Some(m.unsigned.topology)
      && Collectable(codec.nfc, limits, t) && Inventoried(codec, limits, t, m.unsigned.files)
      && m.bundleSha256 == Digest(codec, m.unsigned)
  {
    var topology := TopologyOf(codec, t);
    if topology.None? {
      return false;
    }
    var loaded := CollectBundleFiles(t, codec.nfc, limits);
    if loaded.None? {
      return false;
    }
    var files := Projection(codec, loaded.value);
    InventoryIs(codec, limits, t, loaded.value, m.unsigned.files);
    SameInventoryText(files, m.unsigned.files);
    if Print(FilesJson(files)) != Print(FilesJson(m.unsigned.files)) {
      return false;
    }
    PrintInjective(topology.value, m.unsigned.topology);
    if Print(topology.value) != Print(m.unsigned.topology) {
      return false;
    }
    var rebuilt := ManifestWithDigest(codec, Unsigned(m.unsigned.identity, topology.value, files));
    return rebuilt.bundleSha256 == m.bundleSha256;
  }

  lemma InventoryIs(codec: Codec, limits: Limits, t: Tree, loaded: seq<LoadedFile>, files: seq<BundleFile>)
    requires IsCollection(codec.nfc, limits, t, loaded)
    ensures Inventoried(codec, limits, t, files) <==> Projection(codec, loaded) == files
  {
    if Inventoried(codec, limits, t, files) {
      var other: seq<LoadedFile> :| IsCollection(codec.nfc, limits, t, other) && Projection(codec, other) == files;
      CollectionUnique(codec.nfc, limits, t, t, loaded, other);
    }
  }

  // Acceptance means the tree is the inventory

  lemma AcceptedPlaces(t: Tree, p: Path)
    requires ValidTree(t) && SealedRoot(t) && OnlyManifest(t) && p in t.files
    ensures p == MANIFEST_PATH || Bundled(p)
  {
    assert p[..1] == [p[0]];
    assert Present(t, [p[0]]) by {
      if |p| > 1 {
        TreeAncestor(t, p, 1);
      } else {
        assert p == [p[0]];
      }
    }
    assert |p| == 1 ==> p == [p[0]];
    if p[0] == EVIDENCE {
      UnderEvidence(t, p);
    }
  }

  lemma UnderEvidence(t: Tree, p: Path)
    requires ValidTree(t) && [EVIDENCE] in t.dirs && OnlyManifest(t) && p in t.files && |p| > 1 && p[0] == EVIDENCE
    ensures p == MANIFEST_PATH
  {
    assert p[..2] == [EVIDENCE, p[1]];
    assert [EVIDENCE, p[1]] !in t.dirs by {
      if [EVIDENCE, p[1]] in t.dirs {
        assert Present(t, [EVIDENCE, p[1]]);
      }
    }
    assert |p| == 2 ==> p == p[..2] && Present(t, p[..2]);
    if |p| > 2 {
      TreeAncestor(t, p, 2);
    }
  }

  function AsLoaded(t: Tree, p: Path): LoadedFile
    requires p in t.files
  {
    LoadedFile(p, t.files[p].contents, t.files[p].mode)
  }

  lemma CollectionDescribes(codec: Codec, limits: Limits, t: Tree, loaded: seq<LoadedFile>)
    requires IsCollection(codec.nfc, limits, t, loaded)
    ensures forall p :: p in BundledPaths(t) ==> Described(codec, AsLoaded(t, p)) in Projection(codec, loaded)
    ensures forall e :: e in Projection(codec, loaded) ==>
      exists p :: p in BundledPaths(t) && e == Described(codec, AsLoaded(t, p))
  {
    var files := Projection(codec, loaded);
    forall p | p in BundledPaths(t) ensures Described(codec, AsLoaded(t, p)) in files {
      var i :| 0 <= i < |loaded| && loaded[i] == AsLoaded(t, p);
      assert files[i] == Described(codec, AsLoaded(t, p));
    }
    forall e | e in files ensures exists p :: p in BundledPaths(t) && e == Described(codec, AsLoaded(t, p)) {
      var i :| 0 <= i < |files| && files[i] == e;
      assert loaded[i] in loaded && loaded[i] == AsLoaded(t, loaded[i].path);
    }
  }

  /** Every file of an accepted tree is the manifest or is listed, as it is; every entry is a file of the tree. */
  lemma AcceptedIsInventory(codec: Codec, limits: Limits, t: Tree, expected: Identity, m: BundleManifest)
    requires ValidTree(t) && Accepts(codec, limits, t, expected, m)
    ensures forall p :: p in t.files && p != MANIFEST_PATH ==>
      Bundled(p) && Described(codec, AsLoaded(t, p)) in m.unsigned.files
    ensures forall e: BundleFile :: e in m.unsigned.files ==>
      exists p :: p in BundledPaths(t) && e == Described(codec, AsLoaded(t, p))
    ensures forall p :: p in t.special ==> !Bundled(p)
  {
    var loaded: seq<LoadedFile> :| IsCollection(codec.nfc, limits, t, loaded) &&
      Projection(codec, loaded) == m.unsigned.files;
    CollectionDescribes(codec, limits, t, loaded);
    forall p | p in t.files && p != MANIFEST_PATH ensures Bundled(p) {
      AcceptedPlaces(t, p);
    }
  }

  lemma DescribedInjective(codec: Codec, a: LoadedFile, b: LoadedFile)
    requires Lawful(codec) && PlainPath(a.path) && PlainPath(b.path) && Described(codec, a) == Described(codec, b)
    ensures a == b
  {
    PathTextInjective(a.path, b.path);
  }

  lemma FileInBoth(codec: Codec, limits: Limits, a: Tree, b: Tree, x: seq<LoadedFile>, y: seq<LoadedFile>, p: Path)
    requires Lawful(codec) && ValidTree(a) && ValidTree(b)
    requires IsCollection(codec.nfc, limits, a, x) && IsCollection(codec.nfc, limits, b, y)
    requires Projection(codec, x) == Projection(codec, y) && p in BundledPaths(a)
    ensures p in BundledPaths(b) && b.files[p] == a.files[p]
  {
    var f := LoadedFile(p, a.files[p].contents, a.files[p].mode);
    assert f in x;
    var i :| 0 <= i < |x| && x[i] == f;
    var g := y[i];
    assert g in y;
    assert Projection(codec, x)[i] == Projection(codec, y)[i];
    TreePathPlain(a, p);
    TreePathPlain(b, g.path);
    DescribedInjective(codec, f, g);
  }

  lemma SameInventorySameFiles(codec: Codec, limits: Limits, a: Tree, b: Tree, files: seq<BundleFile>)
    requires Lawful(codec) && ValidTree(a) && ValidTree(b)
    requires Inventoried(codec, limits, a, files) && Inventoried(codec, limits, b, files)
    ensures BundledPaths(a) == BundledPaths(b) && forall p :: p in BundledPaths(a) ==> a.files[p] == b.files[p]
  {
    var x: seq<LoadedFile> :| IsCollection(codec.nfc, limits, a, x) && Projection(codec, x) == files;
    var y: seq<LoadedFile> :| IsCollection(codec.nfc, limits, b, y) && Projection(codec, y) == files;
    forall p | p in BundledPaths(a) ensures p in BundledPaths(b) && b.files[p] == a.files[p] {
      FileInBoth(codec, limits, a, b, x, y, p);
    }
    forall p | p in BundledPaths(b) ensures p in BundledPaths(a) {
      FileInBoth(codec, limits, b, a, y, x, p);
    }
  }

  /** Two accepted trees with one digest have the same identity, topology and inventory, and bundle the same bytes. */
  lemma SameDigestSameBundle(codec: Codec, limits: Limits, a: Tree, b: Tree, ea: Identity, eb: Identity,
      ma: BundleManifest, mb: BundleManifest)
    requires Lawful(codec) && ValidTree(a) && ValidTree(b)
    requires Accepts(codec, limits, a, ea, ma) && Accepts(codec, limits, b, eb, mb)
    requires ma.bundleSha256 == mb.bundleSha256
    ensures ea == eb && ma == mb
    ensures BundledPaths(a) == BundledPaths(b) && forall p :: p in BundledPaths(a) ==> a.files[p] == b.files[p]
  {
    DigestInjective(codec, ma.unsigned, mb.unsigned);
    SameInventorySameFiles(codec, limits, a, b, ma.unsigned.files);
  }

  // A fresh seal

  lemma {:induction false} WrittenFiles(loaded: seq<LoadedFile>)
    ensures Written(loaded).special == {} && [] in Written(loaded).dirs
    ensures Written(loaded).files.Keys == PathsOf(loaded)
    ensures forall d :: d in Written(loaded).dirs <==>
      d == [] || exists p :: p in PathsOf(loaded) && |d| < |p| && Below(d, p)
  {
    if loaded != [] {
      var init, f := loaded[..|loaded| - 1], loaded[|loaded| - 1];
      WrittenFiles(init);
      AncestorsAre(f.path);
    }
  }

  lemma AncestorsAre(p: Path)
    ensures forall d :: d in Ancestors(p) <==> |d| < |p| && Below(d, p)
  {
    forall d | |d| < |p| && Below(d, p) ensures d in Ancestors(p) {
      assert d == p[..|d|];
    }
  }

  lemma {:induction false} WrittenContents(loaded: seq<LoadedFile>, f: LoadedFile)
    requires f in loaded && forall i, j :: 0 <= i < j < |loaded| ==> loaded[i].path != loaded[j].path
    ensures f.path in Written(loaded).files && Written(loaded).files[f.path] == DiskFile(f.contents, f.mode)
  {
    var init, last := loaded[..|loaded| - 1], loaded[|loaded| - 1];
    assert loaded == init + [last];
    if f != last {
      WrittenContents(init, f);
      var i :| 0 <= i < |init| && init[i] == f;
      assert loaded[i].path != loaded[|loaded| - 1].path;
    }
  }

  lemma CollectionPaths(codec: Codec, limits: Limits, t: Tree, loaded: seq<LoadedFile>)
    requires IsCollection(codec.nfc, limits, t, loaded)
    ensures PathsOf(loaded) == BundledPaths(t)
    ensures forall i, j :: 0 <= i < j < |loaded| ==> loaded[i].path != loaded[j].path
  {
    forall p ensures p in PathsOf(loaded) <==> p in BundledPaths(t) {
      PathsAreOf(loaded, p);
    }
    BeforeIsStrict();
    forall i, j | 0 <= i < j < |loaded| ensures loaded[i].path != loaded[j].path {
      assert LoadedBefore(loaded[i], loaded[j]);
    }
  }

  ghost predicate SealedPath(source: Tree, p: Path) {
    p in BundledPaths(source) || p == MANIFEST_PATH
  }

  /** Some sealed file lies below. */
  ghost predicate AboveFile(source: Tree, d: Path) {
    exists p :: SealedPath(source, p) && |d| < |p| && Below(d, p)
  }

  /** The sealed tree: the bundled files as they were, the manifest, and the directories they lie in. */
  ghost predicate SealOf(source: Tree, u: Tree, text: Bytes) {
    && u.special == {}
    && (forall p :: p in u.files <==> SealedPath(source, p))
    && (forall p :: p in BundledPaths(source) ==> p in u.files && u.files[p] == source.files[p])
    && MANIFEST_PATH in u.files && u.files[MANIFEST_PATH] == DiskFile(text, MODE_PLAIN)
    && (forall d :: d in u.dirs <==> d == [] || AboveFile(source, d))
  }

  lemma SealedDirs(codec: Codec, source: Tree, loaded: seq<LoadedFile>, m: BundleManifest, d: Path)
    requires PathsOf(loaded) == BundledPaths(source)
    ensures d in Sealed(loaded, m).dirs <==> d == [] || AboveFile(source, d)
  {
    WrittenFiles(loaded);
    AncestorsAre(MANIFEST_PATH);
    if d in Ancestors(MANIFEST_PATH) {
      assert SealedPath(source, MANIFEST_PATH);
    }
    if d in Written(loaded).dirs && d != [] {
      var p :| p in PathsOf(loaded) && |d| < |p| && Below(d, p);
      assert SealedPath(source, p);
    }
    if AboveFile(source, d) {
      var p :| SealedPath(source, p) && |d| < |p| && Below(d, p);
      assert p in PathsOf(loaded) || p == MANIFEST_PATH;
    }
  }

  lemma SealedIsSealOf(codec: Codec, limits: Limits, source: Tree, loaded: seq<LoadedFile>, m: BundleManifest)
    requires IsCollection(codec.nfc, limits, source, loaded)
    ensures SealOf(source, Sealed(loaded, m), EncodeManifest(m))
  {
    var u := Sealed(loaded, m);
    CollectionPaths(codec, limits, source, loaded);
    WrittenFiles(loaded);
    PlacesApart();
    forall p | p in BundledPaths(source) ensures p in u.files && u.files[p] == source.files[p] {
      WrittenContents(loaded, AsLoaded(source, p));
    }
    forall d ensures d in u.dirs <==> d == [] || AboveFile(source, d) {
      SealedDirs(codec, source, loaded, m, d);
    }
  }

  lemma BundledAncestor(source: Tree, p: Path, d: Path)
    requires ValidTree(source) && p in BundledPaths(source) && |d| < |p| && Below(d, p)
    ensures d in source.dirs && d !in source.files
  {
    TreeAncestor(source, p, |d|);
  }

  lemma SealedFileIsNoDir(source: Tree, u: Tree, text: Bytes, p: Path)
    requires ValidTree(source) && SealOf(source, u, text) && SealedPath(source, p)
    ensures p != [] && p !in u.dirs
  {
    PlacesApart();
    forall q | SealedPath(source, q) && |p| < |q| ensures !Below(p, q) {
      if Below(p, q) {
        assert q[0] == p[0];
        if q != MANIFEST_PATH {
          BundledAncestor(source, q, p);
        }
      }
    }
  }

  lemma SealedPathPlain(source: Tree, p: Path)
    requires ValidTree(source) && SealedPath(source, p)
    ensures p != [] && PlainPath(p)
  {
    PlacesApart();
    if p != MANIFEST_PATH {
      TreePathPlain(source, p);
    }
  }

  /** A sealed file, or a directory above one, lies in a directory and has a plain name. */
  lemma SealedLies(source: Tree, u: Tree, text: Bytes, d: Path, p: Path)
    requires ValidTree(source) && SealOf(source, u, text) && SealedPath(source, p) && d != [] && Below(d, p)
    ensures Parent(d) in u.dirs && PlainName(d[|d| - 1])
  {
    SealedPathPlain(source, p);
    assert Below(Parent(d), p) by {
      assert p[..|d|][..|d| - 1] == p[..|d| - 1];
    }
    assert AboveFile(source, Parent(d));
    assert d[|d| - 1] == p[|d| - 1] && p[|d| - 1] in p;
  }

  lemma SealedValid(source: Tree, u: Tree, text: Bytes)
    requires ValidTree(source) && SealOf(source, u, text)
    ensures ValidTree(u) && BundledPaths(u) == BundledPaths(source)
  {
    PlacesApart();
    forall p | p in u.files ensures p != [] && p !in u.dirs && Parent(p) in u.dirs && PlainName(p[|p| - 1]) {
      SealedFileIsNoDir(source, u, text, p);
      SealedLies(source, u, text, p, p);
    }
    forall d | d in u.dirs && d != [] ensures Parent(d) in u.dirs && PlainName(d[|d| - 1]) {
      SealedDirLies(source, u, text, d);
    }
  }

  lemma SealedDirLies(source: Tree, u: Tree, text: Bytes, d: Path)
    requires ValidTree(source) && SealOf(source, u, text) && d in u.dirs && d != []
    ensures Parent(d) in u.dirs && PlainName(d[|d| - 1])
  {
    assert AboveFile(source, d);
    var p :| SealedPath(source, p) && |d| < |p| && Below(d, p);
    SealedLies(source, u, text, d, p);
  }

  /** Some file lies in the migrations directory. */
  ghost predicate HasMigrations(source: Tree) {
    exists p :: p in BundledPaths(source) && p[0] == DRIZZLE
  }

  lemma SingleName(p: Path)
    requires p != []
    ensures p[..1] == [p[0]] && (|p| == 1 ==> p == [p[0]])
  {
  }

  lemma SealedMigrations(source: Tree, u: Tree, text: Bytes)
    requires ValidTree(source) && SealOf(source, u, text) && [DRIZZLE] in source.dirs
    ensures [DRIZZLE] in u.dirs <==> HasMigrations(source)
  {
    PlacesApart();
    if HasMigrations(source) {
      var p :| p in BundledPaths(source) && p[0] == DRIZZLE;
      SingleName(p);
      assert SealedPath(source, p) && Below([DRIZZLE], p);
    }
    if AboveFile(source, [DRIZZLE]) {
      var p :| SealedPath(source, p) && 1 < |p| && Below([DRIZZLE], p);
      assert p[..1][0] == p[0];
    }
  }

  lemma SealedRoots(source: Tree, u: Tree, text: Bytes)
    requires SealOf(source, u, text) && TOPOLOGY_PATH in source.files
    ensures [DIST] in u.dirs && [EVIDENCE] in u.dirs
  {
    PlacesApart();
    assert SealedPath(source, TOPOLOGY_PATH) && Below([DIST], TOPOLOGY_PATH);
    assert SealedPath(source, MANIFEST_PATH) && Below([EVIDENCE], MANIFEST_PATH);
    assert AboveFile(source, [DIST]) && AboveFile(source, [EVIDENCE]);
  }

  lemma SealedRootName(source: Tree, u: Tree, text: Bytes, n: Name)
    requires SealOf(source, u, text) && Present(u, [n])
    ensures n == EVIDENCE || n == DIST || n == DRIZZLE
  {
    if [n] in u.dirs {
      var p :| SealedPath(source, p) && 1 < |p| && Below([n], p);
      assert p[..1][0] == p[0];
    }
  }

  lemma SealedRootIff(source: Tree, u: Tree, text: Bytes)
    requires ValidTree(source) && SealOf(source, u, text) && [DRIZZLE] in source.dirs && TOPOLOGY_PATH in source.files
    ensures SealedRoot(u) <==> HasMigrations(source)
  {
    SealedMigrations(source, u, text);
    SealedRoots(source, u, text);
    forall n | Present(u, [n]) ensures n == EVIDENCE || n == DIST || n == DRIZZLE {
      SealedRootName(source, u, text, n);
    }
  }

  lemma SealedManifestName(source: Tree, u: Tree, text: Bytes, n: Name)
    requires SealOf(source, u, text) && Present(u, [EVIDENCE, n])
    ensures n == MANIFEST_NAME
  {
    PlacesApart();
    assert !AboveFile(source, [EVIDENCE, n]) by {
      forall p | SealedPath(source, p) && 2 < |p| ensures !Below([EVIDENCE, n], p) {
        assert p[..2][0] == p[0];
      }
    }
  }

  lemma SealedOnlyManifest(source: Tree, u: Tree, text: Bytes)
    requires SealOf(source, u, text)
    ensures OnlyManifest(u)
  {
    forall n | Present(u, [EVIDENCE, n]) ensures n == MANIFEST_NAME {
      SealedManifestName(source, u, text, n);
    }
  }

  lemma SealedCollects(codec: Codec, limits: Limits, source: Tree, u: Tree, text: Bytes)
    requires ValidTree(source) && SealOf(source, u, text) && BundledPaths(u) == BundledPaths(source)
    requires Collectable(codec.nfc, limits, source) && [DIST] in u.dirs && [DRIZZLE] in u.dirs
    ensures Collectable(codec.nfc, limits, u)
  {
    TotalSame(source.files, u.files, BundledPaths(source));
  }

  lemma SealedCollection(codec: Codec, limits: Limits, source: Tree, u: Tree, text: Bytes, loaded: seq<LoadedFile>)
    requires SealOf(source, u, text) && BundledPaths(u) == BundledPaths(source)
    requires IsCollection(codec.nfc, limits, source, loaded)
    ensures IsCollection(codec.nfc, limits, u, loaded)
  {
  }

  lemma SealedTopology(codec: Codec, source: Tree, u: Tree, text: Bytes)
    requires SealOf(source, u, text) && TOPOLOGY_PATH in source.files
    ensures TopologyOf(codec, u) == TopologyOf(codec, source)
  {
    PlacesApart();
    assert TOPOLOGY_PATH in BundledPaths(source);
  }

  /** What verification looks at, of a fresh seal. */
  lemma FreshSealParts(codec: Codec, limits: Limits, source: Tree, identity: Identity, loaded: seq<LoadedFile>,
      seal: Seal)
    requires ValidTree(source) && IsSeal(codec, limits, source, identity, loaded, seal)
    ensures var u := seal.output;
      && ValidTree(u) && OnlyManifest(u)
      && u.files[MANIFEST_PATH] == DiskFile(EncodeManifest(seal.manifest), MODE_PLAIN)
      && (SealedRoot(u) <==> HasMigrations(source))
      && TopologyOf(codec, u) == Some(seal.manifest.unsigned.topology)
      && (HasMigrations(source) ==> Collectable(codec.nfc, limits, u) && IsCollection(codec.nfc, limits, u, loaded))
  {
    var u, text := seal.output, EncodeManifest(seal.manifest);
    SealedIsSealOf(codec, limits, source, loaded, seal.manifest);
    SealedValid(source, u, text);
    SealedOnlyManifest(source, u, text);
    SealedRootIff(source, u, text);
    SealedTopology(codec, source, u, text);
    if HasMigrations(source) {
      SealedCollects(codec, limits, source, u, text);
      SealedCollection(codec, limits, source, u, text, loaded);
    }
  }

  lemma AcceptedFrom(codec: Codec, limits: Limits, u: Tree, expected: Identity, m: BundleManifest,
      loaded: seq<LoadedFile>)
    requires ValidIdentity(codec, expected) && ValidLimits(limits)
    requires SealedRoot(u) && OnlyManifest(u) && u.files[MANIFEST_PATH].mode == MODE_PLAIN
    requires |u.files[MANIFEST_PATH].contents| <= MAX_JSON_BYTES
    requires Parse(codec, u.files[MANIFEST_PATH].contents) == Some(m)
    requires m.unsigned.identity == expected && m.bundleSha256 == Digest(codec, m.unsigned)
    requires TopologyOf(codec, u) == Some(m.unsigned.topology) && Collectable(codec.nfc, limits, u)
    requires IsCollection(codec.nfc, limits, u, loaded) && Projection(codec, loaded) == m.unsigned.files
    ensures Accepts(codec, limits, u, expected, m)
  {
    assert Inventoried(codec, limits, u, m.unsigned.files);
    assert JsonFile(u, MANIFEST_PATH) == Some(u.files[MANIFEST_PATH].contents);
  }

  lemma FreshAccepted(codec: Codec, limits: Limits, source: Tree, identity: Identity, loaded: seq<LoadedFile>,
      seal: Seal)
    requires Parse(codec, EncodeManifest(seal.manifest)) == Some(seal.manifest) && ValidTree(source)
    requires IsSeal(codec, limits, source, identity, loaded, seal)
    requires |EncodeManifest(seal.manifest)| <= MAX_JSON_BYTES && HasMigrations(source)
    ensures Accepts(codec, limits, seal.output, identity, seal.manifest)
  {
    FreshSealParts(codec, limits, source, identity, loaded, seal);
    AcceptedFrom(codec, limits, seal.output, identity, seal.manifest, loaded);
  }

  lemma FreshRefused(codec: Codec, limits: Limits, source: Tree, identity: Identity, loaded: seq<LoadedFile>,
      seal: Seal, m: BundleManifest)
    requires Parse(codec, EncodeManifest(seal.manifest)) == Some(seal.manifest)
    requires ValidTree(source) && IsSeal(codec, limits, source, identity, loaded, seal)
    requires Accepts(codec, limits, seal.output, identity, m)
    ensures |EncodeManifest(seal.manifest)| <= MAX_JSON_BYTES && HasMigrations(source) && m == seal.manifest
  {
    FreshSealParts(codec, limits, source, identity, loaded, seal);
  }

  lemma SealReadable(codec: Codec, limits: Limits, source: Tree, identity: Identity, loaded: seq<LoadedFile>,
      seal: Seal)
    requires Lawful(codec) && IsSeal(codec, limits, source, identity, loaded, seal)
    ensures Readable(codec, seal.manifest)
  {
    var files := Projection(codec, loaded);
    forall f | f in files ensures ReadableFile(codec, f) {
      var i :| 0 <= i < |files| && files[i] == f;
      assert loaded[i] in loaded && loaded[i].path in BundledPaths(source);
      assert FileFits(codec.nfc, limits, loaded[i].path, source.files[loaded[i].path]);
    }
    assert codec.isHash(Digest(codec, seal.manifest.unsigned));
  }

  /** A fresh seal verifies exactly when its manifest is at most 64 KiB and the migrations directory holds a file. */
  lemma FreshSealVerifiesIff(codec: Codec, limits: Limits, source: Tree, identity: Identity,
      loaded: seq<LoadedFile>, seal: Seal, m: BundleManifest)
    requires Lawful(codec) && ValidTree(source) && IsSeal(codec, limits, source, identity, loaded, seal)
    ensures Accepts(codec, limits, seal.output, identity, m) <==>
      m == seal.manifest && |EncodeManifest(seal.manifest)| <= MAX_JSON_BYTES && HasMigrations(source)
  {
    SealReadable(codec, limits, source, identity, loaded, seal);
    ParseEncoded(codec, seal.manifest);
    if Accepts(codec, limits, seal.output, identity, m) {
      FreshRefused(codec, limits, source, identity, loaded, seal, m);
    } else if |EncodeManifest(seal.manifest)| <= MAX_JSON_BYTES && HasMigrations(source) {
      FreshAccepted(codec, limits, source, identity, loaded, seal);
    }
  }

  // A seal that does not verify

  /** A build with this configuration whose `drizzle` directory is there and empty. */
  function NoMigrations(text: Bytes): Tree {
    Tree(map[TOPOLOGY_PATH := DiskFile(text, MODE_PLAIN)], {[], [DIST], [DIST, SERVER], [DRIZZLE]}, {})
  }

  /** A configuration whose topology is read, within limits that admit it. */
  ghost predicate Admits(codec: Codec, limits: Limits, text: Bytes) {
    && codec.topology(text).Some? && codec.nfc(PathText(TOPOLOGY_PATH))
    && ValidLimits(limits) && |text| <= MAX_JSON_BYTES
    && |text| <= limits.maxFileBytes && |text| <= limits.maxTotalBytes
  }

  lemma NoMigrationsPaths()
    ensures TOPOLOGY_PATH[0] == DIST && |TOPOLOGY_PATH| == 3 && TOPOLOGY_PATH[2] == WRANGLER
    ensures Parent(TOPOLOGY_PATH) == [DIST, SERVER] && Parent([DIST, SERVER]) == [DIST]
    ensures Parent([DIST]) == [] && Parent([DRIZZLE]) == []
    ensures PlainName(SERVER) && PlainName(WRANGLER) && DIST != DRIZZLE
  {
    PlacesApart();
    assert TOPOLOGY_PATH[..2] == [DIST, SERVER] && [DIST, SERVER][..1] == [DIST];
  }

  /** The directories of that build. */
  lemma NoMigrationsDirs(text: Bytes, d: Path)
    requires d in NoMigrations(text).dirs
    ensures d != TOPOLOGY_PATH && (d != [] ==> Parent(d) in NoMigrations(text).dirs && PlainName(d[|d| - 1]))
  {
    PlacesApart();
    NoMigrationsPaths();
    assert |d| < 3;
  }

  lemma NoMigrationsTree(text: Bytes)
    ensures ValidTree(NoMigrations(text)) && BundledPaths(NoMigrations(text)) == {TOPOLOGY_PATH}
    ensures !HasMigrations(NoMigrations(text))
  {
    NoMigrationsPaths();
    var t := NoMigrations(text);
    forall d | d in t.dirs ensures d != TOPOLOGY_PATH && (d != [] ==> Parent(d) in t.dirs && PlainName(d[|d| - 1])) {
      NoMigrationsDirs(text, d);
    }
    assert t.files.Keys == {TOPOLOGY_PATH};
    assert Parent(TOPOLOGY_PATH) in t.dirs;
    assert Bundled(TOPOLOGY_PATH);
  }

  lemma NoMigrationsFits(codec: Codec, limits: Limits, text: Bytes)
    requires Admits(codec, limits, text)
    ensures FileFits(codec.nfc, limits, TOPOLOGY_PATH, DiskFile(text, MODE_PLAIN))
  {
    assert TOPOLOGY_PATH[|TOPOLOGY_PATH| - 1] == WRANGLER;
    assert FoldText(WRANGLER)[0] == 0x77;
    assert ENV[0] == DOT && DEV_VARS[0] == DOT && NPMRC[0] == DOT && NETRC[0] == DOT;
    assert (ENV + [DOT])[0] == DOT && (DEV_VARS + [DOT])[0] == DOT;
  }

  lemma NoMigrationsTotal(text: Bytes)
    ensures TOPOLOGY_PATH in NoMigrations(text).files
    ensures Total(NoMigrations(text).files, {TOPOLOGY_PATH}) == |text|
  {
    TotalWith(NoMigrations(text).files, {TOPOLOGY_PATH}, TOPOLOGY_PATH);
    assert {TOPOLOGY_PATH} - {TOPOLOGY_PATH} == {};
  }

  lemma NoMigrationsSealable(codec: Codec, limits: Limits, identity: Identity, text: Bytes)
    requires Admits(codec, limits, text) && ValidIdentity(codec, identity)
    ensures Sealable(codec, limits, NoMigrations(text), identity)
  {
    NoMigrationsTree(text);
    NoMigrationsFits(codec, limits, text);
    NoMigrationsTotal(text);
    assert JsonFile(NoMigrations(text), TOPOLOGY_PATH) == Some(text);
  }

  lemma NoMigrationsCollection(nfc: NormalForm, limits: Limits, text: Bytes)
    ensures IsCollection(nfc, limits, NoMigrations(text), [LoadedFile(TOPOLOGY_PATH, text, MODE_PLAIN)])
  {
    NoMigrationsTree(text);
    var f := LoadedFile(TOPOLOGY_PATH, text, MODE_PLAIN);
    assert [f][0] == f;
    assert forall e :: e in [f] ==> e == f;
    assert NoMigrations(text).files[TOPOLOGY_PATH] == DiskFile(text, MODE_PLAIN);
    assert forall p :: p in BundledPaths(NoMigrations(text)) ==> p == TOPOLOGY_PATH;
  }

  /**
   Whatever the configuration, the limits that admit it and the identity: sealing the build
   succeeds, and every verification of the seal under the same identity and limits refuses it.
   */
  lemma EmptyMigrationsRefused(codec: Codec, limits: Limits, identity: Identity, text: Bytes)
    returns (loaded: seq<LoadedFile>, seal: Seal)
    requires Lawful(codec) && Admits(codec, limits, text) && ValidIdentity(codec, identity)
    ensures ValidTree(NoMigrations(text)) && IsSeal(codec, limits, NoMigrations(text), identity, loaded, seal)
    ensures forall m :: !Accepts(codec, limits, seal.output, identity, m)
  {
    NoMigrationsTree(text);
    NoMigrationsSealable(codec, limits, identity, text);
    var t := NoMigrations(text);
    loaded := [LoadedFile(TOPOLOGY_PATH, text, MODE_PLAIN)];
    NoMigrationsCollection(codec.nfc, limits, text);
    var unsigned := Unsigned(identity, TopologyOf(codec, t).value, Projection(codec, loaded));
    var manifest := ManifestWithDigest(codec, unsigned);
    seal := Seal(manifest, Sealed(loaded, manifest));
    forall m ensures !Accepts(codec, limits, seal.output, identity, m) {
      FreshSealVerifiesIff(codec, limits, t, identity, loaded, seal, m);
    }
  }

  // Such a build, with a lawful codec that reads JSON

  /** A file's contents as text: hashing that only copies. */
  function ByteText(b: Bytes): (t: Text)
    ensures |t| == |b| && forall i :: 0 <= i < |b| ==> t[i] == b[i] as int
  {
    seq(|b|, i requires 0 <= i < |b| => b[i] as int)
  }

  lemma ByteTextInjective(a: Bytes, b: Bytes)
    requires ByteText(a) == ByteText(b)
    ensures a == b
  {
    forall i | 0 <= i < |a| ensures a[i] == b[i] {
      assert ByteText(a)[i] == ByteText(b)[i];
    }
  }

  /** The topology of a configuration is the JSON object it holds. */
  function ObjectIn(text: Bytes): Option<Json> {
    var j := FileValue(text);
    if j.Some? && j.value.JsonObject? then j else None
  }

  function CopyingCodec(): Codec {
    Codec((t: Text) => t, (b: Bytes) => ByteText(b), (t: Text) => true, (b: Bytes) => None,
      (b: Bytes) => ObjectIn(b), (j: Json) => j.JsonObject?, (t: Text) => true)
  }

  lemma CopyingLawful()
    ensures Lawful(CopyingCodec())
  {
    forall a: Bytes, b: Bytes | CopyingCodec().fileHash(a) == CopyingCodec().fileHash(b) ensures a == b {
      ByteTextInjective(a, b);
    }
  }

  const EMPTY_OBJECT: Json := JsonObject(map[])
  const SMALL_LIMITS: Limits := Limits(1, 3, 3)
  const SAMPLE_IDENTITY: Identity := Identity(Base, seq(40, i => 0x30), [])

  lemma EmptyObjectFile()
    ensures |FileBytes(EMPTY_OBJECT)| == 3
  {
    var t: Text := [OPEN_BRACE, CLOSE_BRACE, LF];
    assert SortedTexts(EMPTY_OBJECT.members.Keys) == [];
    assert Print(EMPTY_OBJECT) + [LF] == t;
    assert t[1..] == [CLOSE_BRACE, LF] && [CLOSE_BRACE, LF][1..] == [LF] && [LF][1..] == [];
    assert Encode([LF]) == [LF] && Encode([CLOSE_BRACE, LF]) == [CLOSE_BRACE, LF];
    assert Encode(t) == [OPEN_BRACE] + Encode([CLOSE_BRACE, LF]);
  }

  /** One input of the kind, down to its bytes. */
  lemma EmptyMigrationsInput() returns (loaded: seq<LoadedFile>, seal: Seal)
    ensures Lawful(CopyingCodec()) && ValidTree(NoMigrations(FileBytes(EMPTY_OBJECT)))
    ensures IsSeal(CopyingCodec(), SMALL_LIMITS, NoMigrations(FileBytes(EMPTY_OBJECT)), SAMPLE_IDENTITY, loaded, seal)
    ensures forall m :: !Accepts(CopyingCodec(), SMALL_LIMITS, seal.output, SAMPLE_IDENTITY, m)
  {
    CopyingLawful();
    EmptyObjectFile();
    ReadFile(EMPTY_OBJECT);
    loaded, seal := EmptyMigrationsRefused(CopyingCodec(), SMALL_LIMITS, SAMPLE_IDENTITY, FileBytes(EMPTY_OBJECT));
  }
}
