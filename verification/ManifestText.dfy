/**
 The manifest of a release bundle: the JSON that is hashed, the file it is written to, and what
 is read back from that file.  Hashing and the generated topology are parameters.
 */
module ManifestText {
  import opened BundleFiles
  import opened Decimal
  import opened EvidenceFiles
  import EvidenceManifest
  import opened JsonText
  import opened Utf16
  import opened Utf8
  import opened Wrappers

  datatype Role = Base | Candidate | Release

  datatype Identity = Identity(role: Role, sourceSha: Text, profileSha256: Text)

  /** The manifest before its digest is added. */
  datatype Unsigned = Unsigned(identity: Identity, topology: Json, files: seq<BundleFile>)

  datatype BundleManifest = BundleManifest(unsigned: Unsigned, bundleSha256: Text)

  // The text that is hashed

  const KEY_SCHEMA: Text := [0x73, 0x63, 0x68, 0x65, 0x6D, 0x61, 0x56, 0x65, 0x72, 0x73, 0x69, 0x6F, 0x6E]
  const KEY_ROLE: Text := [0x72, 0x6F, 0x6C, 0x65]
  const KEY_SOURCE: Text := [0x73, 0x6F, 0x75, 0x72, 0x63, 0x65, 0x53, 0x68, 0x61]
  const KEY_PROFILE: Text := [0x70, 0x72, 0x6F, 0x66, 0x69, 0x6C, 0x65, 0x53, 0x68, 0x61, 0x32, 0x35, 0x36]
  const KEY_TOPOLOGY: Text := [0x74, 0x6F, 0x70, 0x6F, 0x6C, 0x6F, 0x67, 0x79]
  const KEY_FILES: Text := [0x66, 0x69, 0x6C, 0x65, 0x73]
  const KEY_PATH: Text := [0x70, 0x61, 0x74, 0x68]
  const KEY_BYTES: Text := [0x62, 0x79, 0x74, 0x65, 0x73]
  const KEY_MODE: Text := [0x6D, 0x6F, 0x64, 0x65]
  const KEY_SHA: Text := [0x73, 0x68, 0x61, 0x32, 0x35, 0x36]
  const KEY_BUNDLE: Text := [0x62, 0x75, 0x6E, 0x64, 0x6C, 0x65, 0x53, 0x68, 0x61, 0x32, 0x35, 0x36]

  function RoleText(role: Role): Text {
    match role
    case Base => [0x62, 0x61, 0x73, 0x65]
    case Candidate => [0x63, 0x61, 0x6E, 0x64, 0x69, 0x64, 0x61, 0x74, 0x65]
    case Release => [0x72, 0x65, 0x6C, 0x65, 0x61, 0x73, 0x65]
  }

  function NumberJson(n: nat): Json {
    assert IsNumberToken(Digits(n)) by {
      assert Digits(n)[0] in Digits(n);
    }
    JsonNumber(Digits(n))
  }

  function FileJson(f: BundleFile): Json {
    JsonObject(map[
      KEY_PATH := JsonString(f.path), KEY_BYTES := NumberJson(f.bytes), KEY_MODE := NumberJson(f.mode),
      KEY_SHA := JsonString(f.sha256)])
  }

  function FilesJson(files: seq<BundleFile>): Json {
    JsonArray(seq(|files|, i requires 0 <= i < |files| => FileJson(files[i])))
  }

  function UnsignedJson(u: Unsigned): Json {
    JsonObject(map[
      KEY_SCHEMA := NumberJson(1), KEY_ROLE := JsonString(RoleText(u.identity.role)),
      KEY_SOURCE := JsonString(u.identity.sourceSha), KEY_PROFILE := JsonString(u.identity.profileSha256),
      KEY_TOPOLOGY := u.topology, KEY_FILES := FilesJson(u.files)])
  }

  lemma KeysDistinct()
    ensures KEY_PATH != KEY_BYTES && KEY_PATH != KEY_MODE && KEY_PATH != KEY_SHA
    ensures KEY_BYTES != KEY_MODE && KEY_BYTES != KEY_SHA && KEY_MODE != KEY_SHA
    ensures KEY_ROLE != KEY_SOURCE && KEY_ROLE != KEY_PROFILE && KEY_ROLE != KEY_TOPOLOGY && KEY_ROLE != KEY_FILES
    ensures KEY_SOURCE != KEY_PROFILE && KEY_SOURCE != KEY_TOPOLOGY && KEY_SOURCE != KEY_FILES
    ensures KEY_PROFILE != KEY_TOPOLOGY && KEY_PROFILE != KEY_FILES && KEY_TOPOLOGY != KEY_FILES
  {
    assert KEY_PATH[0] != KEY_BYTES[0] && KEY_PATH[0] != KEY_MODE[0] && KEY_PATH[0] != KEY_SHA[0];
    assert KEY_BYTES[0] != KEY_MODE[0] && KEY_BYTES[0] != KEY_SHA[0] && KEY_MODE[0] != KEY_SHA[0];
    assert KEY_ROLE[0] != KEY_SOURCE[0] && KEY_ROLE[0] != KEY_PROFILE[0] && KEY_ROLE[0] != KEY_TOPOLOGY[0];
    assert KEY_ROLE[0] != KEY_FILES[0] && KEY_SOURCE[0] != KEY_PROFILE[0] && KEY_SOURCE[0] != KEY_TOPOLOGY[0];
    assert KEY_SOURCE[0] != KEY_FILES[0] && KEY_PROFILE[0] != KEY_TOPOLOGY[0] && KEY_PROFILE[0] != KEY_FILES[0];
  }

  lemma NumberInjective(a: nat, b: nat)
    requires NumberJson(a) == NumberJson(b)
    ensures a == b
  {
    DigitsInjective(a, b);
  }

  lemma FileMembers(f: BundleFile)
    ensures FileJson(f).members[KEY_PATH] == JsonString(f.path) && FileJson(f).members[KEY_BYTES] == NumberJson(f.bytes)
    ensures FileJson(f).members[KEY_MODE] == NumberJson(f.mode) && FileJson(f).members[KEY_SHA] == JsonString(f.sha256)
  {
    KeysDistinct();
  }

  lemma FileInjective(a: BundleFile, b: BundleFile)
    requires FileJson(a) == FileJson(b)
    ensures a == b
  {
    FileMembers(a);
    FileMembers(b);
    NumberInjective(a.bytes, b.bytes);
    NumberInjective(a.mode, b.mode);
  }

  lemma FilesInjective(a: seq<BundleFile>, b: seq<BundleFile>)
    requires FilesJson(a) == FilesJson(b)
    ensures a == b
  {
    assert |a| == |FilesJson(a).items| && |b| == |FilesJson(b).items|;
    forall i | 0 <= i < |a| ensures a[i] == b[i] {
      assert FilesJson(a).items[i] == FileJson(a[i]) && FilesJson(b).items[i] == FileJson(b[i]);
      FileInjective(a[i], b[i]);
    }
  }

  lemma RoleInjective(a: Role, b: Role)
    requires RoleText(a) == RoleText(b)
    ensures a == b
  {
    assert RoleText(Base)[0] != RoleText(Candidate)[0] && RoleText(Base)[0] != RoleText(Release)[0];
    assert RoleText(Candidate)[0] != RoleText(Release)[0];
  }

  lemma UnsignedMembers(u: Unsigned)
    ensures var o := UnsignedJson(u).members;
      && KEY_ROLE in o && KEY_SOURCE in o && KEY_PROFILE in o && KEY_TOPOLOGY in o && KEY_FILES in o
      && o[KEY_ROLE] == JsonString(RoleText(u.identity.role)) && o[KEY_SOURCE] == JsonString(u.identity.sourceSha)
      && o[KEY_PROFILE] == JsonString(u.identity.profileSha256) && o[KEY_TOPOLOGY] == u.topology
      && o[KEY_FILES] == FilesJson(u.files)
  {
    KeysDistinct();
  }

  /** The hashed text leaves nothing of the manifest out. */
  lemma UnsignedInjective(a: Unsigned, b: Unsigned)
    requires UnsignedJson(a) == UnsignedJson(b)
    ensures a == b
  {
    UnsignedMembers(a);
    UnsignedMembers(b);
    RoleInjective(a.identity.role, b.identity.role);
    FilesInjective(a.files, b.files);
  }

  // The outside world

  /**
   SHA-256 of texts and of files, what its digests look like, and the topology that a generated
   configuration yields.  `otherJson` is `JSON.parse` of bytes that are not a canonical file.
   */
  datatype Codec = Codec(
    textHash: Text -> Text, fileHash: Bytes -> Text, isHash: Text -> bool, otherJson: Bytes -> Option<Json>,
    topology: Bytes -> Option<Json>, isTopology: Json -> bool, nfc: NormalForm)

  /** Hashes do not collide and look like hashes, and a topology that was read is one. */
  ghost predicate Lawful(codec: Codec) {
    && (forall a, b :: codec.textHash(a) == codec.textHash(b) ==> a == b)
    && (forall a, b :: codec.fileHash(a) == codec.fileHash(b) ==> a == b)
    && (forall a :: codec.isHash(codec.textHash(a)))
    && (forall a :: codec.isHash(codec.fileHash(a)))
    && (forall text :: codec.topology(text).Some? ==> codec.isTopology(codec.topology(text).value))
  }

  function Digest(codec: Codec, u: Unsigned): Text {
    codec.textHash(Print(UnsignedJson(u)))
  }

  /** `manifestWithDigest` */
  function ManifestWithDigest(codec: Codec, u: Unsigned): BundleManifest {
    BundleManifest(u, Digest(codec, u))
  }

  /** Equal digests mean equal role, SHA, profile, topology and files. */
  lemma DigestInjective(codec: Codec, a: Unsigned, b: Unsigned)
    requires Lawful(codec)
    ensures Digest(codec, a) == Digest(codec, b) <==> a == b
  {
    if Digest(codec, a) == Digest(codec, b) {
      PrintInjective(UnsignedJson(a), UnsignedJson(b));
      UnsignedInjective(a, b);
    }
  }

  // The manifest as a file

  const MAX_SAFE := 0x1F_FFFF_FFFF_FFFF
  const MANIFEST_KEYS: set<Text> := {KEY_SCHEMA, KEY_ROLE, KEY_SOURCE, KEY_PROFILE, KEY_TOPOLOGY, KEY_FILES, KEY_BUNDLE}
  const FILE_KEYS: set<Text> := {KEY_PATH, KEY_BYTES, KEY_MODE, KEY_SHA}

  /** `validateIdentity` */
  predicate ValidIdentity(codec: Codec, identity: Identity) {
    EvidenceManifest.IsSha(identity.sourceSha) && codec.isHash(identity.profileSha256)
  }

  predicate ReadableFile(codec: Codec, f: BundleFile) {
    f.bytes <= MAX_SAFE && (f.mode == MODE_PLAIN || f.mode == MODE_EXECUTABLE) && codec.isHash(f.sha256)
  }

  /** The manifests that `parseBundleManifest` can yield. */
  predicate Readable(codec: Codec, m: BundleManifest) {
    && ValidIdentity(codec, m.unsigned.identity) && codec.isHash(m.bundleSha256)
    && codec.isTopology(m.unsigned.topology)
    && forall f :: f in m.unsigned.files ==> ReadableFile(codec, f)
  }

  function ManifestJson(m: BundleManifest): Json {
    JsonObject(UnsignedJson(m.unsigned).members[KEY_BUNDLE := JsonString(m.bundleSha256)])
  }

  /** The canonical JSON of the manifest and a newline, in UTF-8. */
  function EncodeManifest(m: BundleManifest): Bytes {
    FileBytes(ManifestJson(m))
  }

  /** A natural number without leading zeros. */
  function NumberOf(j: Json): Option<nat> {
    if j.JsonNumber? && (forall c :: c in j.token ==> IsDigit(c)) && (|j.token| == 1 || j.token[0] != 0x30)
    then Some(ValueOf(j.token)) else None
  }

  function RoleOf(j: Json): Option<Role> {
    if j == JsonString(RoleText(Base)) then Some(Base)
    else if j == JsonString(RoleText(Candidate)) then Some(Candidate)
    else if j == JsonString(RoleText(Release)) then Some(Release)
    else None
  }

  function FileOf(codec: Codec, j: Json): (r: Option<BundleFile>)
    ensures r.Some? ==> ReadableFile(codec, r.value)
  {
    if !j.JsonObject? || j.members.Keys != FILE_KEYS then None
    else
      assert KEY_PATH in j.members.Keys && KEY_BYTES in j.members.Keys && KEY_MODE in j.members.Keys &&
        KEY_SHA in j.members.Keys;
      var path, bytes := j.members[KEY_PATH], NumberOf(j.members[KEY_BYTES]);
      var mode, sha := NumberOf(j.members[KEY_MODE]), j.members[KEY_SHA];
      if path.JsonString? && bytes.Some? && mode.Some? && sha.JsonString?
         && ReadableFile(codec, BundleFile(path.text, bytes.value, mode.value, sha.text))
      then Some(BundleFile(path.text, bytes.value, mode.value, sha.text)) else None
  }

  function FilesOf(codec: Codec, j: Json): (r: Option<seq<BundleFile>>)
    ensures r.Some? ==> forall f :: f in r.value ==> ReadableFile(codec, f)
  {
    if !j.JsonArray? || exists i :: 0 <= i < |j.items| && FileOf(codec, j.items[i]).None? then None
    else Some(seq(|j.items|, i requires 0 <= i < |j.items| => FileOf(codec, j.items[i]).value))
  }

  /** `parseBundleManifest` */
  function ManifestOf(codec: Codec, j: Json): (r: Option<BundleManifest>)
    ensures r.Some? ==> Readable(codec, r.value)
  {
    if !j.JsonObject? || j.members.Keys != MANIFEST_KEYS then None
    else
      var o := j.members;
      assert KEY_SCHEMA in o.Keys && KEY_ROLE in o.Keys && KEY_SOURCE in o.Keys && KEY_PROFILE in o.Keys
        && KEY_TOPOLOGY in o.Keys && KEY_FILES in o.Keys && KEY_BUNDLE in o.Keys;
      var role, files := RoleOf(o[KEY_ROLE]), FilesOf(codec, o[KEY_FILES]);
      if o[KEY_SCHEMA] != NumberJson(1) || role.None? || files.None? then None
      else if !o[KEY_SOURCE].JsonString? || !o[KEY_PROFILE].JsonString? || !o[KEY_BUNDLE].JsonString? then None
      else
        var identity := Identity(role.value, o[KEY_SOURCE].text, o[KEY_PROFILE].text);
        var m := BundleManifest(Unsigned(identity, o[KEY_TOPOLOGY], files.value), o[KEY_BUNDLE].text);
        if ValidIdentity(codec, identity) && codec.isHash(m.bundleSha256) && codec.isTopology(o[KEY_TOPOLOGY])
        then Some(m) else None
  }

  /** `JSON.parse`: canonical files are read as `JsonText` reads them. */
  function ParseJson(codec: Codec, text: Bytes): Option<Json> {
    if FileValue(text).Some? then FileValue(text) else codec.otherJson(text)
  }

  function Parse(codec: Codec, text: Bytes): Option<BundleManifest> {
    var j := ParseJson(codec, text);
    if j.None? then None else ManifestOf(codec, j.value)
  }

  lemma NumberRead(n: nat)
    ensures NumberOf(NumberJson(n)) == Some(n)
  {
    ValueOfDigits(n);
    if n == 0 {
      assert Digits(n) == [0x30];
    }
  }

  lemma RoleRead(role: Role)
    ensures RoleOf(JsonString(RoleText(role))) == Some(role)
  {
    if RoleText(role) == RoleText(Base) {
      RoleInjective(role, Base);
    } else if RoleText(role) == RoleText(Candidate) {
      RoleInjective(role, Candidate);
    }
  }

  lemma FileRead(codec: Codec, f: BundleFile)
    requires ReadableFile(codec, f)
    ensures FileOf(codec, FileJson(f)) == Some(f)
  {
    FileMembers(f);
    NumberRead(f.bytes);
    NumberRead(f.mode);
    assert FileJson(f).members.Keys == FILE_KEYS;
  }

  lemma FilesRead(codec: Codec, files: seq<BundleFile>)
    requires forall f :: f in files ==> ReadableFile(codec, f)
    ensures FilesOf(codec, FilesJson(files)) == Some(files)
  {
    forall i | 0 <= i < |files| ensures FileOf(codec, FilesJson(files).items[i]) == Some(files[i]) {
      assert files[i] in files;
      FileRead(codec, files[i]);
    }
    var read := FilesOf(codec, FilesJson(files));
    assert |FilesJson(files).items| == |files| && read.Some?;
    assert read.value == files;
  }

  lemma BundleKeyApart()
    ensures KEY_BUNDLE != KEY_SCHEMA && KEY_BUNDLE != KEY_ROLE && KEY_BUNDLE != KEY_SOURCE && KEY_BUNDLE != KEY_PROFILE
    ensures KEY_BUNDLE != KEY_TOPOLOGY && KEY_BUNDLE != KEY_FILES
    ensures KEY_SCHEMA != KEY_ROLE && KEY_SCHEMA != KEY_SOURCE && KEY_SCHEMA != KEY_PROFILE
    ensures KEY_SCHEMA != KEY_TOPOLOGY && KEY_SCHEMA != KEY_FILES
  {
    assert KEY_BUNDLE[0] != KEY_SCHEMA[0] && KEY_BUNDLE[0] != KEY_ROLE[0] && KEY_BUNDLE[0] != KEY_SOURCE[0];
    assert KEY_BUNDLE[0] != KEY_PROFILE[0] && KEY_BUNDLE[0] != KEY_TOPOLOGY[0] && KEY_BUNDLE[0] != KEY_FILES[0];
    assert KEY_SCHEMA[0] != KEY_ROLE[0] && KEY_SCHEMA[1] != KEY_SOURCE[1] && KEY_SCHEMA[0] != KEY_PROFILE[0];
    assert KEY_SCHEMA[0] != KEY_TOPOLOGY[0] && KEY_SCHEMA[0] != KEY_FILES[0];
  }

  lemma ManifestMembers(m: BundleManifest)
    ensures var o := ManifestJson(m).members;
      && o.Keys == MANIFEST_KEYS
      && o[KEY_SCHEMA] == NumberJson(1) && o[KEY_BUNDLE] == JsonString(m.bundleSha256)
      && o[KEY_ROLE] == UnsignedJson(m.unsigned).members[KEY_ROLE]
      && o[KEY_SOURCE] == UnsignedJson(m.unsigned).members[KEY_SOURCE]
      && o[KEY_PROFILE] == UnsignedJson(m.unsigned).members[KEY_PROFILE]
      && o[KEY_TOPOLOGY] == UnsignedJson(m.unsigned).members[KEY_TOPOLOGY]
      && o[KEY_FILES] == UnsignedJson(m.unsigned).members[KEY_FILES]
  {
    BundleKeyApart();
    UnsignedMembers(m.unsigned);
    assert UnsignedJson(m.unsigned).members.Keys == MANIFEST_KEYS - {KEY_BUNDLE};
  }

  /** A manifest is read back from its JSON. */
  lemma ManifestRead(codec: Codec, m: BundleManifest)
    requires Readable(codec, m)
    ensures ManifestOf(codec, ManifestJson(m)) == Some(m)
  {
    ManifestMembers(m);
    UnsignedMembers(m.unsigned);
    RoleRead(m.unsigned.identity.role);
    FilesRead(codec, m.unsigned.files);
  }

  /** The manifest written is the manifest read. */
  lemma ParseEncoded(codec: Codec, m: BundleManifest)
    requires Readable(codec, m)
    ensures Parse(codec, EncodeManifest(m)) == Some(m)
  {
    ReadFile(ManifestJson(m));
    ManifestRead(codec, m);
  }

  // Inventories

  function Described(codec: Codec, f: LoadedFile): BundleFile {
    BundleFile(PathText(f.path), |f.contents|, f.mode, codec.fileHash(f.contents))
  }

  function Projection(codec: Codec, loaded: seq<LoadedFile>): (r: seq<BundleFile>)
    ensures |r| == |loaded| && forall i :: 0 <= i < |loaded| ==> r[i] == Described(codec, loaded[i])
  {
    seq(|loaded|, i requires 0 <= i < |loaded| => Described(codec, loaded[i]))
  }

  /** Comparing canonical texts compares the inventories. */
  lemma SameInventoryText(a: seq<BundleFile>, b: seq<BundleFile>)
    ensures Print(FilesJson(a)) == Print(FilesJson(b)) <==> a == b
  {
    PrintInjective(FilesJson(a), FilesJson(b));
    if FilesJson(a) == FilesJson(b) {
      FilesInjective(a, b);
    }
  }
}
