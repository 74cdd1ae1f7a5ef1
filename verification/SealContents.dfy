/**
 What a sealed bundle holds, written out: which files, where its manifest lies, and what that
 manifest says of them.
 */
module SealContents {
  import opened BundleFiles
  import opened Decimal
  import opened EvidenceFiles
  import EvidenceManifest
  import opened JsonText
  import opened ManifestText
  import opened SealedBundle
  import opened Sorting
  import opened Utf16
  import opened Utf8
  import opened Wrappers

  // The manifest

  function RoleWord(role: Role): Text {
    match role
    case Base => Chars("base")
    case Candidate => Chars("candidate")
    case Release => Chars("release")
  }

  ghost predicate IsNumber(j: Json, n: nat) {
    j.JsonNumber? && j.token == Digits(n)
  }

  /** The object has this member. */
  ghost predicate HasMember(j: Json, key: Text, value: Json) {
    j.JsonObject? && key in j.members && j.members[key] == value
  }

  ghost predicate HasNumber(j: Json, key: Text, n: nat) {
    j.JsonObject? && key in j.members && IsNumber(j.members[key], n)
  }

  /** What a manifest says of one file. */
  ghost predicate IsEntry(codec: Codec, j: Json, p: Path, f: DiskFile) {
    && j.JsonObject? && j.members.Keys == {Chars("path"), Chars("bytes"), Chars("mode"), Chars("sha256")}
    && HasMember(j, Chars("path"), JsonString(PathText(p)))
    && HasNumber(j, Chars("bytes"), |f.contents|)
    && HasNumber(j, Chars("mode"), f.mode)
    && HasMember(j, Chars("sha256"), JsonString(codec.fileHash(f.contents)))
  }

  /** The part of a build that is bundled. */
  ghost predicate InBundle(p: Path) {
    p != [] && (p[0] == Chars("dist") || p[0] == Chars("drizzle"))
  }

  /** The bundled paths, in ascending order of their texts. */
  ghost predicate ListsPaths(paths: seq<Path>, t: Tree) {
    && (forall p :: p in paths <==> p in t.files && InBundle(p))
    && (forall i, j :: 0 <= i < j < |paths| ==> Before(PathText(paths[i]), PathText(paths[j])))
  }

  ghost predicate IsInventory(codec: Codec, j: Json, t: Tree, paths: seq<Path>) {
    && ListsPaths(paths, t) && j.JsonArray? && |j.items| == |paths|
    && forall i :: 0 <= i < |paths| ==> paths[i] in t.files && IsEntry(codec, j.items[i], paths[i], t.files[paths[i]])
  }

  /** All of a manifest but its digest. */
  ghost predicate IsUnsigned(codec: Codec, j: Json, t: Tree, identity: Identity, topology: Json) {
    && j.JsonObject?
    && j.members.Keys == {Chars("schemaVersion"), Chars("role"), Chars("sourceSha"), Chars("profileSha256"),
                          Chars("topology"), Chars("files")}
    && HasNumber(j, Chars("schemaVersion"), 1)
    && HasMember(j, Chars("role"), JsonString(RoleWord(identity.role)))
    && HasMember(j, Chars("sourceSha"), JsonString(identity.sourceSha))
    && HasMember(j, Chars("profileSha256"), JsonString(identity.profileSha256))
    && HasMember(j, Chars("topology"), topology)
    && exists paths :: IsInventory(codec, j.members[Chars("files")], t, paths)
  }

  /** The manifest of these files under this identity, with the hash of all the rest of it. */
  ghost predicate IsManifest(codec: Codec, j: Json, t: Tree, identity: Identity, topology: Json) {
    exists rest :: IsUnsigned(codec, rest, t, identity, topology) && j == WithDigest(codec, rest)
  }

  ghost function WithDigest(codec: Codec, rest: Json): Json
    requires rest.JsonObject?
  {
    JsonObject(rest.members[Chars("bundleSha256") := JsonString(codec.textHash(Print(rest)))])
  }

  const MANIFEST_PLACE: Path := [Chars(".preview-evidence"), Chars("bundle-manifest.json")]

  /** The output: the bundled files as they are, the manifest as canonical JSON with a newline, and nothing else. */
  ghost predicate ShowsSeal(codec: Codec, source: Tree, identity: Identity, output: Tree) {
    && (forall p :: p in output.files <==> p == MANIFEST_PLACE || (p in source.files && InBundle(p)))
    && (forall p :: p in source.files && InBundle(p) ==> p in output.files && output.files[p] == source.files[p])
    && MANIFEST_PLACE in output.files && ManifestWritten(codec, source, identity, output.files[MANIFEST_PLACE])
  }

  /** The manifest's file: canonical JSON and a newline, in UTF-8, and octal 644 for its mode. */
  ghost predicate ManifestWritten(codec: Codec, source: Tree, identity: Identity, f: DiskFile) {
    exists topology, j :: TopologyIn(codec, source, topology) && IsManifest(codec, j, source, identity, topology)
      && f == DiskFile(Encode(Print(j) + Chars("\n")), 0x1A4)
  }

  /** The topology that the generated configuration yields. */
  ghost predicate TopologyIn(codec: Codec, t: Tree, topology: Json) {
    var p := [Chars("dist"), Chars("server"), Chars("wrangler.json")];
    p in t.files && codec.topology(t.files[p].contents) == Some(topology)
  }

  // They are what is written

  lemma PlacesSpelled()
    ensures DIST == Chars("dist") && DRIZZLE == Chars("drizzle")
    ensures SERVER == Chars("server") && WRANGLER == Chars("wrangler.json")
    ensures EVIDENCE == Chars(".preview-evidence") && MANIFEST_NAME == Chars("bundle-manifest.json")
  {
  }

  lemma KeysSpelled()
    ensures KEY_SCHEMA == Chars("schemaVersion") && KEY_ROLE == Chars("role") && KEY_SOURCE == Chars("sourceSha")
    ensures KEY_PROFILE == Chars("profileSha256") && KEY_TOPOLOGY == Chars("topology") && KEY_FILES == Chars("files")
    ensures KEY_PATH == Chars("path") && KEY_BYTES == Chars("bytes") && KEY_MODE == Chars("mode")
    ensures KEY_SHA == Chars("sha256") && KEY_BUNDLE == Chars("bundleSha256")
  {
  }

  lemma RoleSpelled(role: Role)
    ensures RoleText(role) == RoleWord(role)
  {
    assert RoleText(Base) == Chars("base") && RoleText(Candidate) == Chars("candidate");
    assert RoleText(Release) == Chars("release");
  }

  lemma EntrySpelled(codec: Codec, t: Tree, p: Path)
    requires p in t.files
    ensures IsEntry(codec, FileJson(Described(codec, AsLoaded(t, p))), p, t.files[p])
  {
    KeysSpelled();
    FileMembers(Described(codec, AsLoaded(t, p)));
  }

  function PathsIn(loaded: seq<LoadedFile>): (r: seq<Path>)
    ensures |r| == |loaded| && forall i :: 0 <= i < |r| ==> r[i] == loaded[i].path
  {
    seq(|loaded|, i requires 0 <= i < |loaded| => loaded[i].path)
  }

  lemma CollectionLists(nfc: NormalForm, limits: Limits, t: Tree, loaded: seq<LoadedFile>)
    requires IsCollection(nfc, limits, t, loaded)
    ensures ListsPaths(PathsIn(loaded), t)
  {
    PlacesSpelled();
    var paths := PathsIn(loaded);
    forall i, j | 0 <= i < j < |paths| ensures Before(PathText(paths[i]), PathText(paths[j])) {
      assert LoadedBefore(loaded[i], loaded[j]);
    }
    forall p ensures p in paths <==> p in t.files && InBundle(p) {
      if p in paths {
        var i :| 0 <= i < |paths| && paths[i] == p;
        assert loaded[i] in loaded;
      }
      if p in t.files && InBundle(p) {
        assert p in BundledPaths(t);
        var i :| 0 <= i < |loaded| && loaded[i] == LoadedFile(p, t.files[p].contents, t.files[p].mode);
        assert paths[i] == p;
      }
    }
  }

  lemma InventorySpelled(codec: Codec, limits: Limits, t: Tree, loaded: seq<LoadedFile>)
    requires IsCollection(codec.nfc, limits, t, loaded)
    ensures IsInventory(codec, FilesJson(Projection(codec, loaded)), t, PathsIn(loaded))
  {
    CollectionLists(codec.nfc, limits, t, loaded);
    var paths, j := PathsIn(loaded), FilesJson(Projection(codec, loaded));
    forall i | 0 <= i < |paths| ensures paths[i] in t.files && IsEntry(codec, j.items[i], paths[i], t.files[paths[i]]) {
      assert loaded[i] in loaded && loaded[i] == AsLoaded(t, paths[i]);
      EntrySpelled(codec, t, paths[i]);
    }
  }

  lemma UnsignedSpelled(codec: Codec, limits: Limits, t: Tree, loaded: seq<LoadedFile>, identity: Identity,
      topology: Json)
    requires IsCollection(codec.nfc, limits, t, loaded)
    ensures IsUnsigned(codec, UnsignedJson(Unsigned(identity, topology, Projection(codec, loaded))), t, identity,
      topology)
  {
    KeysSpelled();
    var u := Unsigned(identity, topology, Projection(codec, loaded));
    UnsignedMembers(u);
    RoleSpelled(identity.role);
    InventorySpelled(codec, limits, t, loaded);
  }

  lemma ManifestSpelled(codec: Codec, limits: Limits, t: Tree, loaded: seq<LoadedFile>, identity: Identity,
      topology: Json)
    requires IsCollection(codec.nfc, limits, t, loaded)
    ensures var m := ManifestWithDigest(codec, Unsigned(identity, topology, Projection(codec, loaded)));
      IsManifest(codec, ManifestJson(m), t, identity, topology)
  {
    KeysSpelled();
    UnsignedSpelled(codec, limits, t, loaded, identity, topology);
    var rest := UnsignedJson(Unsigned(identity, topology, Projection(codec, loaded)));
    assert IsUnsigned(codec, rest, t, identity, topology);
  }

  lemma FileSpelled(j: Json)
    ensures FileBytes(j) == Encode(Print(j) + Chars("\n"))
  {
    assert Chars("\n") == [LF];
  }

  /** A seal shows exactly the bundled files of its source and a manifest that says what they are. */
  lemma SealShown(codec: Codec, limits: Limits, source: Tree, identity: Identity, loaded: seq<LoadedFile>, seal: Seal)
    requires IsSeal(codec, limits, source, identity, loaded, seal)
    ensures ShowsSeal(codec, source, identity, seal.output)
  {
    PlacesSpelled();
    var topology := TopologyOf(codec, source).value;
    SealedIsSealOf(codec, limits, source, loaded, seal.manifest);
    ManifestSpelled(codec, limits, source, loaded, identity, topology);
    FileSpelled(ManifestJson(seal.manifest));
    assert TopologyIn(codec, source, topology);
    assert ManifestWritten(codec, source, identity, seal.output.files[MANIFEST_PLACE]);
    assert forall p :: p in BundledPaths(source) <==> p in source.files && InBundle(p);
  }

  // Reading a manifest back

  lemma NumberIs(j: Json, n: nat)
    requires NumberOf(j) == Some(n)
    ensures j == NumberJson(n)
  {
    DigitsOfValue(j.token);
  }

  lemma FileIs(codec: Codec, j: Json, f: BundleFile)
    requires FileOf(codec, j) == Some(f)
    ensures j == FileJson(f)
  {
    KeysDistinct();
    assert KEY_PATH in j.members.Keys && KEY_BYTES in j.members.Keys && KEY_MODE in j.members.Keys
      && KEY_SHA in j.members.Keys;
    NumberIs(j.members[KEY_BYTES], f.bytes);
    NumberIs(j.members[KEY_MODE], f.mode);
    assert j.members == FileJson(f).members;
  }

  lemma FilesAre(codec: Codec, j: Json, files: seq<BundleFile>)
    requires FilesOf(codec, j) == Some(files)
    ensures j == FilesJson(files)
  {
    forall i | 0 <= i < |j.items| ensures j.items[i] == FileJson(files[i]) {
      FileIs(codec, j.items[i], files[i]);
    }
    assert j.items == FilesJson(files).items;
  }

  lemma RoleIs(j: Json, role: Role)
    requires RoleOf(j) == Some(role)
    ensures j == JsonString(RoleText(role))
  {
  }

  /** What is read as a manifest is that manifest's JSON and no other. */
  lemma ManifestIs(codec: Codec, j: Json, m: BundleManifest)
    requires ManifestOf(codec, j) == Some(m)
    ensures j == ManifestJson(m)
  {
    var o := j.members;
    assert KEY_SCHEMA in o.Keys && KEY_ROLE in o.Keys && KEY_SOURCE in o.Keys && KEY_PROFILE in o.Keys
      && KEY_TOPOLOGY in o.Keys && KEY_FILES in o.Keys && KEY_BUNDLE in o.Keys;
    RoleIs(o[KEY_ROLE], m.unsigned.identity.role);
    FilesAre(codec, o[KEY_FILES], m.unsigned.files);
    SameMembers(o, m);
  }

  lemma SameMembers(o: map<Text, Json>, m: BundleManifest)
    requires o.Keys == MANIFEST_KEYS
    requires o[KEY_SCHEMA] == NumberJson(1) && o[KEY_ROLE] == JsonString(RoleText(m.unsigned.identity.role))
    requires o[KEY_SOURCE] == JsonString(m.unsigned.identity.sourceSha)
    requires o[KEY_PROFILE] == JsonString(m.unsigned.identity.profileSha256)
    requires o[KEY_TOPOLOGY] == m.unsigned.topology && o[KEY_FILES] == FilesJson(m.unsigned.files)
    requires o[KEY_BUNDLE] == JsonString(m.bundleSha256)
    ensures JsonObject(o) == ManifestJson(m)
  {
    KeysSpelled();
    UnsignedMembers(m.unsigned);
    assert o == ManifestJson(m).members;
  }

  // What can be sealed and what verifies

  ghost predicate ShaSpelled(t: Text) {
    |t| == 40 && forall c :: c in t ==> c in Chars("0123456789abcdef")
  }

  /** A name that may hold secrets, in any case. */
  ghost predicate SecretSpelled(n: Name) {
    var name := FoldText(n);
    || name == Chars(".env") || name == Chars(".dev.vars") || name == Chars(".npmrc") || name == Chars(".netrc")
    || Chars(".env.") <= name || Chars(".dev.vars.") <= name
  }

  /** Owner may write, everybody may read, and perhaps execute: octal 644 or 755. */
  predicate PermittedMode(mode: nat) {
    mode == 6 * 64 + 4 * 8 + 4 || mode == 7 * 64 + 5 * 8 + 5
  }

  ghost function InBundlePaths(t: Tree): set<Path> {
    set p | p in t.files && InBundle(p)
  }

  /** Both directories, nothing special in them, and every file of them named, permitted and sized as it may be. */
  ghost predicate Collects(nfc: NormalForm, limits: Limits, t: Tree) {
    && [Chars("dist")] in t.dirs && [Chars("drizzle")] in t.dirs
    && (forall p :: p in t.special ==> !InBundle(p))
    && (forall p :: p in t.files && InBundle(p) ==>
          && nfc(PathText(p)) && !SecretSpelled(p[|p| - 1]) && PermittedMode(t.files[p].mode)
          && |t.files[p].contents| <= limits.maxFileBytes)
    && |InBundlePaths(t)| <= limits.maxFiles && Total(t.files, InBundlePaths(t)) <= limits.maxTotalBytes
  }

  ghost predicate IdentityFits(codec: Codec, limits: Limits, identity: Identity) {
    && ShaSpelled(identity.sourceSha) && codec.isHash(identity.profileSha256)
    && 0 < limits.maxFiles < 0x20_0000_0000_0000 && 0 < limits.maxFileBytes < 0x20_0000_0000_0000
    && 0 < limits.maxTotalBytes < 0x20_0000_0000_0000
  }

  /** A file that is read as JSON: of a permitted mode and at most 64 KiB. */
  ghost predicate SmallFile(t: Tree, p: Path) {
    p in t.files && PermittedMode(t.files[p].mode) && |t.files[p].contents| <= 65536
  }

  const CONFIG_PLACE: Path := [Chars("dist"), Chars("server"), Chars("wrangler.json")]

  lemma ShaIs(t: Text)
    ensures EvidenceManifest.IsSha(t) <==> ShaSpelled(t)
  {
    assert Chars("0123456789abcdef") ==
      [0x30, 0x31, 0x32, 0x33, 0x34, 0x35, 0x36, 0x37, 0x38, 0x39, 0x61, 0x62, 0x63, 0x64, 0x65, 0x66];
  }

  lemma SecretIs(n: Name)
    ensures SecretName(n) <==> SecretSpelled(n)
  {
    assert ENV == Chars(".env") && DEV_VARS == Chars(".dev.vars");
    assert NPMRC == Chars(".npmrc") && NETRC == Chars(".netrc");
    assert ENV + [DOT] == Chars(".env.") && DEV_VARS + [DOT] == Chars(".dev.vars.");
  }

  lemma BundledIs(p: Path)
    ensures Bundled(p) <==> InBundle(p)
  {
    PlacesSpelled();
  }

  lemma FitsIs(nfc: NormalForm, limits: Limits, p: Path, f: DiskFile)
    requires p != []
    ensures FileFits(nfc, limits, p, f) <==>
      && nfc(PathText(p)) && !SecretSpelled(p[|p| - 1]) && PermittedMode(f.mode)
      && |f.contents| <= limits.maxFileBytes
  {
    SecretIs(p[|p| - 1]);
  }

  lemma SamePaths(t: Tree)
    ensures BundledPaths(t) == InBundlePaths(t)
    ensures (forall p :: p in t.special ==> !Bundled(p)) <==> forall p :: p in t.special ==> !InBundle(p)
  {
    forall p ensures Bundled(p) <==> InBundle(p) {
      BundledIs(p);
    }
  }

  lemma CollectableIs(nfc: NormalForm, limits: Limits, t: Tree)
    ensures Collectable(nfc, limits, t) <==> Collects(nfc, limits, t)
  {
    PlacesSpelled();
    SamePaths(t);
    FilesFit(nfc, limits, t);
  }

  lemma FilesFit(nfc: NormalForm, limits: Limits, t: Tree)
    ensures (forall p :: p in BundledPaths(t) ==> FileFits(nfc, limits, p, t.files[p])) <==>
      forall p :: p in t.files && InBundle(p) ==>
        && nfc(PathText(p)) && !SecretSpelled(p[|p| - 1]) && PermittedMode(t.files[p].mode)
        && |t.files[p].contents| <= limits.maxFileBytes
  {
    SamePaths(t);
    forall p | p in t.files && InBundle(p)
      ensures FileFits(nfc, limits, p, t.files[p]) <==>
        && nfc(PathText(p)) && !SecretSpelled(p[|p| - 1]) && PermittedMode(t.files[p].mode)
        && |t.files[p].contents| <= limits.maxFileBytes
    {
      FitsIs(nfc, limits, p, t.files[p]);
    }
  }

  lemma SmallFileIs(t: Tree, p: Path)
    ensures JsonFile(t, p).Some? <==> SmallFile(t, p)
    ensures SmallFile(t, p) ==> JsonFile(t, p) == Some(t.files[p].contents)
  {
  }

  lemma IdentityIs(codec: Codec, limits: Limits, identity: Identity)
    ensures ValidIdentity(codec, identity) && ValidLimits(limits) <==> IdentityFits(codec, limits, identity)
  {
    ShaIs(identity.sourceSha);
  }

  lemma RootIs(t: Tree)
    ensures SealedRoot(t) && OnlyManifest(t) <==> RootShows(t) && MANIFEST_PLACE in t.files
  {
    PlacesSpelled();
  }

  lemma TopologyIs(codec: Codec, t: Tree, topology: Json)
    ensures TopologyOf(codec, t) == Some(topology) <==> SmallFile(t, CONFIG_PLACE) && TopologyIn(codec, t, topology)
  {
    PlacesSpelled();
    SmallFileIs(t, TOPOLOGY_PATH);
  }

  /** A build can be sealed exactly when identity and limits are in order, it collects, and its topology is read. */
  lemma SealableIff(codec: Codec, limits: Limits, source: Tree, identity: Identity)
    ensures Sealable(codec, limits, source, identity) <==>
      && IdentityFits(codec, limits, identity) && Collects(codec.nfc, limits, source)
      && SmallFile(source, CONFIG_PLACE) && exists topology :: TopologyIn(codec, source, topology)
  {
    IdentityIs(codec, limits, identity);
    CollectableIs(codec.nfc, limits, source);
    if TopologyOf(codec, source).Some? {
      TopologyIs(codec, source, TopologyOf(codec, source).value);
    }
    if topology :| TopologyIn(codec, source, topology) {
      TopologyIs(codec, source, topology);
    }
  }

  /** The three directories and nothing else, and the manifest alone in its own. */
  ghost predicate RootShows(t: Tree) {
    && (forall n :: Present(t, [n]) <==> n == Chars(".preview-evidence") || n == Chars("dist") || n == Chars("drizzle"))
    && [Chars(".preview-evidence")] in t.dirs && [Chars("dist")] in t.dirs && [Chars("drizzle")] in t.dirs
    && (forall n :: Present(t, [Chars(".preview-evidence"), n]) <==> n == Chars("bundle-manifest.json"))
  }

  /** The file is read as the manifest that sealing this tree would write. */
  ghost predicate ManifestFits(codec: Codec, t: Tree, identity: Identity)
    requires MANIFEST_PLACE in t.files
  {
    exists j, topology :: ReadAs(codec, t, j) && TopologyIn(codec, t, topology)
      && IsManifest(codec, j, t, identity, topology)
  }

  ghost predicate ReadAs(codec: Codec, t: Tree, j: Json)
    requires MANIFEST_PLACE in t.files
  {
    ParseJson(codec, t.files[MANIFEST_PLACE].contents) == Some(j)
  }

  ghost predicate Verifies(codec: Codec, limits: Limits, t: Tree, identity: Identity) {
    && IdentityFits(codec, limits, identity) && RootShows(t) && Collects(codec.nfc, limits, t)
    && SmallFile(t, MANIFEST_PLACE) && SmallFile(t, CONFIG_PLACE) && ManifestFits(codec, t, identity)
  }

  lemma AcceptedManifest(codec: Codec, limits: Limits, t: Tree, expected: Identity, m: BundleManifest)
    requires Accepts(codec, limits, t, expected, m)
    ensures MANIFEST_PLACE in t.files && ManifestFits(codec, t, expected)
  {
    PlacesSpelled();
    var j := ParseJson(codec, t.files[MANIFEST_PLACE].contents).value;
    ManifestIs(codec, j, m);
    var loaded :| IsCollection(codec.nfc, limits, t, loaded) && Projection(codec, loaded) == m.unsigned.files;
    ManifestSpelled(codec, limits, t, loaded, expected, m.unsigned.topology);
    assert m == ManifestWithDigest(codec, Unsigned(expected, m.unsigned.topology, Projection(codec, loaded)));
    assert TopologyIn(codec, t, m.unsigned.topology) && ReadAs(codec, t, j);
  }

  lemma AcceptedVerifies(codec: Codec, limits: Limits, t: Tree, expected: Identity, m: BundleManifest)
    requires Accepts(codec, limits, t, expected, m)
    ensures Verifies(codec, limits, t, expected)
  {
    IdentityIs(codec, limits, expected);
    CollectableIs(codec.nfc, limits, t);
    RootIs(t);
    PlacesSpelled();
    SmallFileIs(t, MANIFEST_PLACE);
    TopologyIs(codec, t, m.unsigned.topology);
    AcceptedManifest(codec, limits, t, expected, m);
  }

  // And conversely

  lemma EntryIs(codec: Codec, j: Json, t: Tree, p: Path)
    requires p in t.files && IsEntry(codec, j, p, t.files[p])
    ensures j == FileJson(Described(codec, AsLoaded(t, p)))
  {
    KeysSpelled();
    FileMembers(Described(codec, AsLoaded(t, p)));
    assert j.members == FileJson(Described(codec, AsLoaded(t, p))).members;
  }

  function LoadedAt(t: Tree, paths: seq<Path>): (r: seq<LoadedFile>)
    requires forall p :: p in paths ==> p in t.files
    ensures |r| == |paths| && forall i :: 0 <= i < |r| ==> r[i] == AsLoaded(t, paths[i])
  {
    seq(|paths|, i requires 0 <= i < |paths| => AsLoaded(t, paths[i]))
  }

  lemma ListedCollection(nfc: NormalForm, limits: Limits, t: Tree, paths: seq<Path>)
    requires ListsPaths(paths, t)
    ensures IsCollection(nfc, limits, t, LoadedAt(t, paths))
  {
    PlacesSpelled();
    var loaded := LoadedAt(t, paths);
    forall i, j | 0 <= i < j < |loaded| ensures LoadedBefore(loaded[i], loaded[j]) {
      assert Before(PathText(paths[i]), PathText(paths[j]));
    }
    forall f | f in loaded ensures f.path in BundledPaths(t) && t.files[f.path] == DiskFile(f.contents, f.mode) {
      var i :| 0 <= i < |loaded| && loaded[i] == f;
      assert paths[i] in paths;
    }
    forall p | p in BundledPaths(t) ensures AsLoaded(t, p) in loaded {
      assert p in paths;
      var i :| 0 <= i < |paths| && paths[i] == p;
      assert loaded[i] == AsLoaded(t, p);
    }
  }

  lemma InventoryJson(codec: Codec, j: Json, t: Tree, paths: seq<Path>)
    requires IsInventory(codec, j, t, paths)
    ensures forall p :: p in paths ==> p in t.files
    ensures j == FilesJson(Projection(codec, LoadedAt(t, paths)))
  {
    assert forall p :: p in paths ==> p in t.files;
    var loaded := LoadedAt(t, paths);
    forall i | 0 <= i < |paths| ensures j.items[i] == FileJson(Described(codec, loaded[i])) {
      EntryIs(codec, j.items[i], t, paths[i]);
    }
    assert j.items == FilesJson(Projection(codec, loaded)).items;
  }

  lemma UnsignedIs(codec: Codec, j: Json, t: Tree, identity: Identity, topology: Json) returns (paths: seq<Path>)
    requires IsUnsigned(codec, j, t, identity, topology)
    ensures ListsPaths(paths, t) && (forall p :: p in paths ==> p in t.files)
    ensures j == UnsignedJson(Unsigned(identity, topology, Projection(codec, LoadedAt(t, paths))))
  {
    KeysSpelled();
    paths :| IsInventory(codec, j.members[Chars("files")], t, paths);
    InventoryJson(codec, j.members[KEY_FILES], t, paths);
    var u := Unsigned(identity, topology, Projection(codec, LoadedAt(t, paths)));
    RoleSpelled(identity.role);
    UnsignedMembers(u);
    SameUnsigned(j.members, u);
  }

  lemma SameUnsigned(o: map<Text, Json>, u: Unsigned)
    requires o.Keys == {KEY_SCHEMA, KEY_ROLE, KEY_SOURCE, KEY_PROFILE, KEY_TOPOLOGY, KEY_FILES}
    requires o[KEY_SCHEMA] == NumberJson(1) && o[KEY_ROLE] == JsonString(RoleText(u.identity.role))
    requires o[KEY_SOURCE] == JsonString(u.identity.sourceSha)
    requires o[KEY_PROFILE] == JsonString(u.identity.profileSha256)
    requires o[KEY_TOPOLOGY] == u.topology && o[KEY_FILES] == FilesJson(u.files)
    ensures JsonObject(o) == UnsignedJson(u)
  {
    KeysSpelled();
    UnsignedMembers(u);
    assert o == UnsignedJson(u).members;
  }

  lemma ManifestFound(codec: Codec, limits: Limits, t: Tree, expected: Identity, j: Json, topology: Json)
    returns (m: BundleManifest)
    requires IsManifest(codec, j, t, expected, topology)
    ensures j == ManifestJson(m) && m.unsigned.identity == expected && m.unsigned.topology == topology
    ensures Inventoried(codec, limits, t, m.unsigned.files) && m.bundleSha256 == Digest(codec, m.unsigned)
  {
    var rest :| IsUnsigned(codec, rest, t, expected, topology) && j == WithDigest(codec, rest);
    var u := RestFound(codec, limits, t, expected, rest, topology);
    m := ManifestWithDigest(codec, u);
    DigestAdded(codec, rest, u);
  }

  lemma RestFound(codec: Codec, limits: Limits, t: Tree, expected: Identity, rest: Json, topology: Json)
    returns (u: Unsigned)
    requires IsUnsigned(codec, rest, t, expected, topology)
    ensures rest == UnsignedJson(u) && u.identity == expected && u.topology == topology
    ensures Inventoried(codec, limits, t, u.files)
  {
    var paths := UnsignedIs(codec, rest, t, expected, topology);
    ListedCollection(codec.nfc, limits, t, paths);
    u := Unsigned(expected, topology, Projection(codec, LoadedAt(t, paths)));
  }

  lemma DigestAdded(codec: Codec, rest: Json, u: Unsigned)
    requires rest == UnsignedJson(u)
    ensures WithDigest(codec, rest) == ManifestJson(ManifestWithDigest(codec, u))
  {
    KeysSpelled();
  }

  lemma InventoryReadable(codec: Codec, limits: Limits, t: Tree, files: seq<BundleFile>)
    requires Lawful(codec) && ValidLimits(limits) && Collectable(codec.nfc, limits, t)
    requires Inventoried(codec, limits, t, files)
    ensures forall f :: f in files ==> ReadableFile(codec, f)
  {
    var loaded :| IsCollection(codec.nfc, limits, t, loaded) && Projection(codec, loaded) == files;
    CollectionDescribes(codec, limits, t, loaded);
    forall f | f in files ensures ReadableFile(codec, f) {
      var p :| p in BundledPaths(t) && f == Described(codec, AsLoaded(t, p));
      assert FileFits(codec.nfc, limits, p, t.files[p]);
    }
  }

  lemma TopologyLawful(codec: Codec, t: Tree, topology: Json)
    requires Lawful(codec) && TopologyIn(codec, t, topology)
    ensures codec.isTopology(topology)
  {
  }

  lemma DigestLawful(codec: Codec, u: Unsigned)
    requires Lawful(codec)
    ensures codec.isHash(Digest(codec, u))
  {
  }

  lemma VerifiesAccepted(codec: Codec, limits: Limits, t: Tree, expected: Identity) returns (m: BundleManifest)
    requires Lawful(codec) && Verifies(codec, limits, t, expected)
    ensures Accepts(codec, limits, t, expected, m)
  {
    IdentityIs(codec, limits, expected);
    CollectableIs(codec.nfc, limits, t);
    RootIs(t);
    PlacesSpelled();
    SmallFileIs(t, MANIFEST_PLACE);
    var j, topology :| ReadAs(codec, t, j) && TopologyIn(codec, t, topology)
      && IsManifest(codec, j, t, expected, topology);
    m := ManifestFound(codec, limits, t, expected, j, topology);
    InventoryReadable(codec, limits, t, m.unsigned.files);
    TopologyIs(codec, t, topology);
    TopologyLawful(codec, t, topology);
    DigestLawful(codec, m.unsigned);
    ManifestRead(codec, m);
  }

  /** Verification accepts a tree exactly when it verifies, and then with one manifest only. */
  lemma AcceptedIff(codec: Codec, limits: Limits, t: Tree, expected: Identity)
    requires Lawful(codec)
    ensures (exists m :: Accepts(codec, limits, t, expected, m)) <==> Verifies(codec, limits, t, expected)
  {
    if m :| Accepts(codec, limits, t, expected, m) {
      AcceptedVerifies(codec, limits, t, expected, m);
    }
    if Verifies(codec, limits, t, expected) {
      var m := VerifiesAccepted(codec, limits, t, expected);
    }
  }
}
