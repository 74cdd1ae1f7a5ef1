/**
 Capture manifests, what makes a directory a complete capture, and the plans that publish
 one role of a capture each. Encoding, hashing and PNG decoding are parameters.
 */
module EvidenceManifest {
  import opened Decimal
  import opened EvidenceFiles
  import JsonText
  import opened Utf16
  import Utf8
  import opened Wrappers

  datatype Role = Base | Candidate | Release

  datatype Kind = PullRequestKind | ReleaseKind

  datatype Size = Size(width: nat, height: nat)

  datatype Capture = Capture(role: Role, sourceSha: Text, filename: Name, bytes: nat, size: Size, sha256: Text,
      status: int, details: Text)

  datatype Run = Run(id: nat, url: Text, attempt: nat)

  datatype Manifest = Manifest(
    kind: Kind, issue: nat, subject: Text, sources: map<Role, Text>, capturedAt: Text, run: Run, tools: Text,
    captures: seq<Capture>)

  const MANIFEST: Name := [0x6D, 0x61, 0x6E, 0x69, 0x66, 0x65, 0x73, 0x74, DOT, 0x6A, 0x73, 0x6F, 0x6E]

  const MAX_MANIFEST_BYTES := 256 * 1024
  const MAX_PNG_BYTES := 8 * 1024 * 1024
  const MAX_TOTAL_BYTES := 40 * 1024 * 1024
  const PNG_SIGNATURE: Bytes := [137, 80, 78, 71, 13, 10, 26, 10]

  /**
   How a manifest becomes bytes and bytes a manifest, which manifests the field validators let
   through, SHA-256 and the PNG decoder.
   */
  datatype Codec = Codec(
    encode: Manifest -> Bytes, decode: Bytes -> Option<Manifest>, fields: Manifest -> bool, digest: Bytes -> Text,
    image: Bytes -> Option<Size>)

  /** Well-formed manifests are read back, what is read is well-formed, and a role's share of it stays so. */
  ghost predicate Lawful(codec: Codec) {
    && (forall m :: codec.fields(m) ==> codec.decode(codec.encode(m)) == Some(m) && codec.encode(m) != [])
    && (forall text :: codec.decode(text).Some? ==> codec.fields(codec.decode(text).value))
    && (forall m: Manifest, role :: role in m.sources && codec.fields(m) ==> codec.fields(RoleManifest(m, role)))
  }

  /**
   A manifest's layout as a JSON object, the field validators that read it back, and `JSON.parse`
   of bytes that are not a canonical file.
   */
  datatype Layout = Layout(
    json: Manifest -> JsonText.Json, record: JsonText.Json -> Option<Manifest>,
    otherJson: Bytes -> Option<JsonText.Json>,
    fields: Manifest -> bool)

  /** The field validators return what they let through, and a role's share of it passes them as well. */
  ghost predicate Faithful(layout: Layout) {
    && (forall m :: layout.fields(m) ==> layout.record(layout.json(m)) == Some(m))
    && (forall j :: layout.record(j).Some? ==> layout.fields(layout.record(j).value))
    && (forall m: Manifest, role :: role in m.sources && layout.fields(m) ==> layout.fields(RoleManifest(m, role)))
  }

  /** Canonical files are read as `JsonText` reads them. */
  function ReadRecord(layout: Layout, text: Bytes): Option<Manifest> {
    var j := if Utf8.FileValue(text).Some? then Utf8.FileValue(text) else layout.otherJson(text);
    if j.None? then None else layout.record(j.value)
  }

  /** Manifests as canonical JSON and a newline, in UTF-8. */
  function FileCodec(layout: Layout, digest: Bytes -> Text, image: Bytes -> Option<Size>): Codec {
    Codec((m: Manifest) => Utf8.FileBytes(layout.json(m)), (text: Bytes) => ReadRecord(layout, text), layout.fields,
      digest, image)
  }

  /** Reading back what was written needs nothing from the layout but that its validators agree with it. */
  lemma FileCodecLawful(layout: Layout, digest: Bytes -> Text, image: Bytes -> Option<Size>)
    requires Faithful(layout)
    ensures Lawful(FileCodec(layout, digest, image))
  {
    var codec := FileCodec(layout, digest, image);
    forall m | codec.fields(m) ensures codec.decode(codec.encode(m)) == Some(m) && codec.encode(m) != [] {
      Utf8.ReadFile(layout.json(m));
      Utf8.FileNotEmpty(layout.json(m));
    }
  }

  // Manifests

  predicate IsSha(t: Text) {
    |t| == 40 && forall c :: c in t ==> IsDigit(c) || 0x61 <= c <= 0x66
  }

  predicate SourcesFit(kind: Kind, sources: map<Role, Text>) {
    && sources.Keys != {}
    && (forall r :: r in sources ==> IsSha(sources[r]))
    && (match kind
        case PullRequestKind => Release !in sources
        case ReleaseKind => sources.Keys == {Release})
  }

  predicate DistinctNames(captures: seq<Capture>) {
    forall i, j :: 0 <= i < j < |captures| ==> captures[i].filename != captures[j].filename
  }

  predicate CaptureFits(c: Capture, sources: map<Role, Text>) {
    && c.filename != MANIFEST
    && 1 <= c.bytes <= MAX_PNG_BYTES
    && c.role in sources
    && c.sourceSha == sources[c.role]
  }

  predicate RoleCovered(captures: seq<Capture>, role: Role) {
    exists c :: c in captures && c.role == role
  }

  predicate ValidManifest(m: Manifest) {
    && SourcesFit(m.kind, m.sources)
    && 1 <= |m.captures| <= 8
    && DistinctNames(m.captures)
    && (forall c :: c in m.captures ==> CaptureFits(c, m.sources))
    && (forall r :: r in m.sources ==> RoleCovered(m.captures, r))
  }

  /** The file names a capture directory must hold, no more and no fewer. */
  function Names(m: Manifest): set<Name> {
    PngNames(m) + {MANIFEST}
  }

  function PngNames(m: Manifest): set<Name> {
    set c | c in m.captures :: c.filename
  }

  /** `stableCaptureProjection`: a rerun may differ in its time and attempt alone. */
  function Stable(m: Manifest): Manifest {
    m.(capturedAt := [], run := m.run.(attempt := 0))
  }

  /** Two manifests are the same evidence exactly when they differ in their time and attempt alone. */
  lemma StableIff(m: Manifest, again: Manifest)
    ensures Stable(m) == Stable(again) <==>
      again == m.(capturedAt := again.capturedAt, run := m.run.(attempt := again.run.attempt))
  {
    var like := m.(capturedAt := again.capturedAt, run := m.run.(attempt := again.run.attempt));
    assert Stable(like) == Stable(m);
    if Stable(m) == Stable(again) {
      assert Stable(again).(capturedAt := again.capturedAt, run := again.run) == again;
      assert Stable(m).(capturedAt := again.capturedAt) == like.(run := Stable(m).run);
      assert Stable(m).run == Stable(again).run && m.run.(attempt := again.run.attempt) == again.run by {
        assert Stable(m).run.(attempt := again.run.attempt) == Stable(again).run.(attempt := again.run.attempt);
      }
    }
  }

  // Complete directories

  predicate PngMatches(codec: Codec, png: Bytes, c: Capture) {
    && 1 <= |png| <= MAX_PNG_BYTES
    && |png| == c.bytes
    && codec.digest(png) == c.sha256
    && |png| >= 24
    && png[..8] == PNG_SIGNATURE
    && codec.image(png) == Some(c.size)
  }

  function TotalBytes(captures: seq<Capture>): nat {
    if captures == [] then 0 else TotalBytes(captures[..|captures| - 1]) + captures[|captures| - 1].bytes
  }

  /** Every listed image is there and is what its capture says. */
  predicate ImagesIn(codec: Codec, contents: map<Name, Bytes>, captures: seq<Capture>) {
    forall c :: c in captures ==> c.filename in contents && PngMatches(codec, contents[c.filename], c)
  }

  /** These are exactly the files the manifest lists, and all of them are what it says. */
  predicate Complete(codec: Codec, contents: map<Name, Bytes>, m: Manifest) {
    && MANIFEST in contents
    && 1 <= |contents[MANIFEST]| <= MAX_MANIFEST_BYTES
    && codec.decode(contents[MANIFEST]) == Some(m)
    && ValidManifest(m)
    && contents[MANIFEST] == codec.encode(m)
    && contents.Keys == Names(m)
    && ImagesIn(codec, contents, m.captures)
    && TotalBytes(m.captures) <= MAX_TOTAL_BYTES
  }

  /** The sources a kind of request has. */
  ghost predicate SourcesOf(kind: Kind, sources: map<Role, Text>) {
    match kind
    case PullRequestKind => sources.Keys <= {Base, Candidate} && sources != map[]
    case ReleaseKind => sources.Keys == {Release}
  }

  /** A PNG within 8 MiB that is as long as its capture says, hashes to what it says and has the size it says. */
  ghost predicate IsImageOf(codec: Codec, png: Bytes, c: Capture) {
    && |png| == c.bytes && 24 <= |png| <= 8_388_608
    && codec.digest(png) == c.sha256 && codec.image(png) == Some(c.size)
    && png[0] == 137 && png[1] == 80 && png[2] == 78 && png[3] == 71
    && png[4] == 13 && png[5] == 10 && png[6] == 26 && png[7] == 10
  }

  /** A capture belongs to a role and is taken from that role's source. */
  ghost predicate TakenFrom(c: Capture, sources: map<Role, Text>) {
    c.role in sources && c.sourceSha == sources[c.role] && c.filename != Chars("manifest.json")
  }

  ghost predicate LowerHex(t: Text) {
    forall c :: c in t ==> '0' as int <= c <= '9' as int || 'a' as int <= c <= 'f' as int
  }

  /** A manifest of one to eight captures, each from its role's source, at least one a role. */
  ghost predicate DescribesCaptures(m: Manifest) {
    && SourcesOf(m.kind, m.sources)
    && (forall role :: role in m.sources ==> |m.sources[role]| == 40 && LowerHex(m.sources[role]))
    && 1 <= |m.captures| <= 8
    && (forall i, j :: 0 <= i < j < |m.captures| ==> m.captures[i].filename != m.captures[j].filename)
    && (forall c :: c in m.captures ==> TakenFrom(c, m.sources) && 1 <= c.bytes <= 8_388_608)
    && (forall role :: role in m.sources ==> exists c :: c in m.captures && c.role == role)
  }

  /** The directory's own manifest is this one in canonical form, within 256 KiB. */
  ghost predicate HoldsManifest(codec: Codec, contents: map<Name, Bytes>, m: Manifest) {
    && Chars("manifest.json") in contents && contents[Chars("manifest.json")] == codec.encode(m)
    && codec.decode(codec.encode(m)) == Some(m) && 1 <= |codec.encode(m)| <= 262_144
  }

  /** Every image is there and as described, nothing else is, and together they keep within 40 MiB. */
  ghost predicate HoldsImages(codec: Codec, contents: map<Name, Bytes>, m: Manifest) {
    && (forall c :: c in m.captures ==> c.filename in contents && IsImageOf(codec, contents[c.filename], c))
    && (forall n :: n in contents ==> n == Chars("manifest.json") || exists c :: c in m.captures && c.filename == n)
    && TotalBytes(m.captures) <= 41_943_040
  }

  lemma ImageIs(codec: Codec, png: Bytes, c: Capture)
    ensures PngMatches(codec, png, c) && 1 <= c.bytes <= MAX_PNG_BYTES <==> IsImageOf(codec, png, c)
  {
    if |png| >= 24 {
      assert png[..8] == [png[0], png[1], png[2], png[3], png[4], png[5], png[6], png[7]];
      assert forall i :: 0 <= i < 8 ==> png[..8][i] == png[i];
    }
  }

  lemma ManifestParts(m: Manifest)
    ensures ValidManifest(m) <==> DescribesCaptures(m)
  {
    assert MANIFEST == Chars("manifest.json");
    SourcesAre(m.kind, m.sources);
    assert forall c :: CaptureFits(c, m.sources) <==> TakenFrom(c, m.sources) && 1 <= c.bytes <= MAX_PNG_BYTES;
  }

  lemma SourcesAre(kind: Kind, sources: map<Role, Text>)
    ensures SourcesFit(kind, sources) <==>
      SourcesOf(kind, sources) && forall role :: role in sources ==> |sources[role]| == 40 && LowerHex(sources[role])
  {
    if Release !in sources {
      forall role | role in sources ensures role in {Base, Candidate} {
        assert role != Release;
      }
    }
    assert sources == map[] <==> sources.Keys == {};
  }

  lemma NamesAre(m: Manifest, n: Name)
    ensures n in Names(m) <==> n == Chars("manifest.json") || exists c :: c in m.captures && c.filename == n
  {
    assert MANIFEST == Chars("manifest.json");
  }

  lemma AllNames(contents: map<Name, Bytes>, m: Manifest)
    ensures contents.Keys == Names(m) <==>
      && Chars("manifest.json") in contents && (forall c :: c in m.captures ==> c.filename in contents)
      && forall n :: n in contents ==> n == Chars("manifest.json") || exists c :: c in m.captures && c.filename == n
  {
    forall n ensures n in Names(m) <==> n == Chars("manifest.json") || exists c :: c in m.captures && c.filename == n {
      NamesAre(m, n);
    }
    assert contents.Keys == Names(m) <==> forall n :: n in contents <==> n in Names(m);
  }

  lemma AllImages(codec: Codec, contents: map<Name, Bytes>, m: Manifest)
    requires forall c :: c in m.captures ==> 1 <= c.bytes <= MAX_PNG_BYTES
    ensures ImagesIn(codec, contents, m.captures) <==>
      forall c :: c in m.captures ==> c.filename in contents && IsImageOf(codec, contents[c.filename], c)
  {
    forall c | c in m.captures && c.filename in contents
      ensures PngMatches(codec, contents[c.filename], c) <==> IsImageOf(codec, contents[c.filename], c)
    {
      ImageIs(codec, contents[c.filename], c);
    }
  }

  /** The files of a complete capture, given that its manifest is valid. */
  ghost predicate FilesComplete(codec: Codec, contents: map<Name, Bytes>, m: Manifest) {
    contents.Keys == Names(m) && ImagesIn(codec, contents, m.captures) && TotalBytes(m.captures) <= MAX_TOTAL_BYTES
  }

  lemma FilesCompleteIff(codec: Codec, contents: map<Name, Bytes>, m: Manifest)
    requires forall c :: c in m.captures ==> 1 <= c.bytes <= MAX_PNG_BYTES
    ensures FilesComplete(codec, contents, m) <==>
      Chars("manifest.json") in contents && HoldsImages(codec, contents, m)
  {
    AllImages(codec, contents, m);
    AllNames(contents, m);
  }

  lemma CompleteParts(codec: Codec, contents: map<Name, Bytes>, m: Manifest)
    ensures Complete(codec, contents, m) <==>
      ValidManifest(m) && HoldsManifest(codec, contents, m) && FilesComplete(codec, contents, m)
  {
    assert MANIFEST == Chars("manifest.json");
  }

  lemma ValidBytes(m: Manifest)
    requires ValidManifest(m)
    ensures forall c :: c in m.captures ==> 1 <= c.bytes <= MAX_PNG_BYTES
  {
    assert forall c :: c in m.captures ==> CaptureFits(c, m.sources);
  }

  /** A capture is complete exactly when it holds a fitting manifest and the images that describes. */
  lemma CompleteIff(codec: Codec, contents: map<Name, Bytes>, m: Manifest)
    ensures Complete(codec, contents, m) <==>
      DescribesCaptures(m) && HoldsManifest(codec, contents, m) && HoldsImages(codec, contents, m)
  {
    CompleteParts(codec, contents, m);
    ManifestParts(m);
    if ValidManifest(m) {
      ValidBytes(m);
      FilesCompleteIff(codec, contents, m);
    }
  }

  /** The directory's manifest is this one, valid and in canonical form. */
  predicate ManifestAt(codec: Codec, files: Files, o: Path, m: Manifest) {
    && o + [MANIFEST] in files
    && var text := files[o + [MANIFEST]];
    && 1 <= |text| <= MAX_MANIFEST_BYTES
    && codec.decode(text) == Some(m)
    && ValidManifest(m)
    && text == codec.encode(m)
  }

  predicate ImageAt(codec: Codec, files: Files, o: Path, c: Capture) {
    o + [c.filename] in files && PngMatches(codec, files[o + [c.filename]], c)
  }

  /** Every listed image is a file in the directory and is what the manifest says it is. */
  predicate ImagesAt(codec: Codec, files: Files, o: Path, m: Manifest) {
    && (forall c :: c in m.captures ==> ImageAt(codec, files, o, c))
    && TotalBytes(m.captures) <= MAX_TOTAL_BYTES
  }

  ghost predicate InventoryAt(files: Files, dirs: set<Path>, o: Path, m: Manifest) {
    forall n :: o + [n] in files || o + [n] in dirs <==> n in Names(m)
  }

  /** The directory holds exactly what the manifest inside it lists. */
  ghost predicate CompleteDirectory(codec: Codec, files: Files, dirs: set<Path>, o: Path, m: Manifest) {
    o in dirs && ManifestAt(codec, files, o, m) && InventoryAt(files, dirs, o, m) && ImagesAt(codec, files, o, m)
  }

  lemma HeldNames(files: Files, dirs: set<Path>, o: Path, contents: map<Name, Bytes>)
    requires WellFormed(files, dirs) && Holds(files, dirs, o, contents)
    ensures forall n :: o + [n] in files || o + [n] in dirs <==> n in contents
  {
    forall n ensures o + [n] in files || o + [n] in dirs <==> n in contents {
      assert Below(o, o + [n]) && (o + [n])[|o|] == n;
    }
  }

  lemma HoldsComplete(codec: Codec, files: Files, dirs: set<Path>, o: Path, contents: map<Name, Bytes>, m: Manifest)
    requires WellFormed(files, dirs) && Holds(files, dirs, o, contents) && Complete(codec, contents, m)
    ensures CompleteDirectory(codec, files, dirs, o, m)
  {
    HeldNames(files, dirs, o, contents);
    forall c | c in m.captures ensures o + [c.filename] in files && PngMatches(codec, files[o + [c.filename]], c) {
      assert c.filename in contents;
    }
  }

  lemma CompleteHolds(codec: Codec, files: Files, dirs: set<Path>, o: Path, contents: map<Name, Bytes>, m: Manifest)
    requires WellFormed(files, dirs) && Holds(files, dirs, o, contents) && CompleteDirectory(codec, files, dirs, o, m)
    ensures Complete(codec, contents, m)
  {
    HeldNames(files, dirs, o, contents);
    SameNames(contents, m);
    forall c | c in m.captures ensures c.filename in contents && PngMatches(codec, contents[c.filename], c) {
      assert c.filename in PngNames(m);
      assert files[o + [c.filename]] == contents[c.filename];
    }
    assert files[o + [MANIFEST]] == contents[MANIFEST];
  }

  lemma SameNames(contents: map<Name, Bytes>, m: Manifest)
    requires forall n :: n in contents <==> n in Names(m)
    ensures contents.Keys == Names(m)
  {
  }

  // Roles

  function RoleCaptures(captures: seq<Capture>, role: Role): (r: seq<Capture>)
    ensures forall c :: c in r <==> c in captures && c.role == role
    ensures |r| <= |captures|
  {
    if captures == [] then [] else
    var last := captures[|captures| - 1];
    assert captures == captures[..|captures| - 1] + [last];
    RoleCaptures(captures[..|captures| - 1], role) + (if last.role == role then [last] else [])
  }

  /** The manifest of one role alone: the other sources become null. */
  function RoleManifest(m: Manifest, role: Role): Manifest
    requires role in m.sources
  {
    m.(sources := map[role := m.sources[role]], captures := RoleCaptures(m.captures, role))
  }

  lemma {:induction false} RoleCapturesDistinct(captures: seq<Capture>, role: Role)
    requires DistinctNames(captures)
    ensures DistinctNames(RoleCaptures(captures, role))
  {
    if captures != [] {
      var init := captures[..|captures| - 1];
      RoleCapturesDistinct(init, role);
      var kept := RoleCaptures(init, role);
      forall i | 0 <= i < |kept| ensures kept[i].filename != captures[|captures| - 1].filename {
        assert kept[i] in init;
      }
    }
  }

  lemma TotalPush(captures: seq<Capture>, c: Capture)
    ensures TotalBytes(captures + [c]) == TotalBytes(captures) + c.bytes
  {
    assert (captures + [c])[..|captures|] == captures;
  }

  lemma {:induction false} RoleTotal(captures: seq<Capture>, role: Role)
    ensures TotalBytes(RoleCaptures(captures, role)) <= TotalBytes(captures)
  {
    if captures != [] {
      var init, last := captures[..|captures| - 1], captures[|captures| - 1];
      RoleTotal(init, role);
      TotalPush(RoleCaptures(init, role), last);
      assert RoleCaptures(init, role) + [] == RoleCaptures(init, role);
    }
  }

  lemma RoleSources(m: Manifest, role: Role)
    requires ValidManifest(m) && role in m.sources
    ensures SourcesFit(m.kind, map[role := m.sources[role]])
  {
    assert role in (map[role := m.sources[role]]).Keys;
  }

  lemma RoleFits(m: Manifest, role: Role)
    requires ValidManifest(m) && role in m.sources
    ensures forall c :: c in RoleCaptures(m.captures, role) ==> CaptureFits(c, map[role := m.sources[role]])
  {
    forall c | c in RoleCaptures(m.captures, role) ensures CaptureFits(c, map[role := m.sources[role]]) {
      assert CaptureFits(c, m.sources);
    }
  }

  /** Each role of a valid capture has a valid manifest of its own. */
  lemma RoleManifestValid(m: Manifest, role: Role)
    requires ValidManifest(m) && role in m.sources
    ensures ValidManifest(RoleManifest(m, role))
  {
    RoleSources(m, role);
    RoleFits(m, role);
    RoleCapturesDistinct(m.captures, role);
    assert RoleCovered(m.captures, role);
    var c :| c in m.captures && c.role == role;
    assert c in RoleCaptures(m.captures, role);
    assert RoleCovered(RoleCaptures(m.captures, role), role);
  }

  // Plans

  /** One role's share of a capture and the directory it belongs in. */
  datatype Plan = Plan(parent: Path, sha: Name, manifest: Manifest, pngs: map<Name, Bytes>)

  function Destination(plan: Plan): Path {
    plan.parent + [plan.sha]
  }

  const BASELINE: Name := [0x62, 0x61, 0x73, 0x65, 0x6C, 0x69, 0x6E, 0x65]
  const CANDIDATES: Name := [0x63, 0x61, 0x6E, 0x64, 0x69, 0x64, 0x61, 0x74, 0x65, 0x73]
  const RELEASES: Name := [0x72, 0x65, 0x6C, 0x65, 0x61, 0x73, 0x65, 0x73]
  const ISSUE_PREFIX: Name := [0x69, 0x73, 0x73, 0x75, 0x65, MINUS]

  function Group(role: Role): Name {
    match role
    case Base => BASELINE
    case Candidate => CANDIDATES
    case Release => RELEASES
  }

  /** What the destination holds once the plan is published. */
  function PlanContents(codec: Codec, plan: Plan): map<Name, Bytes> {
    plan.pngs[MANIFEST := codec.encode(plan.manifest)]
  }

  function RolePlan(m: Manifest, contents: map<Name, Bytes>, role: Role): Plan
    requires role in m.sources && forall c :: c in m.captures ==> c.filename in contents
  {
    var own := RoleManifest(m, role);
    Plan(
      [ISSUE_PREFIX + Digits(m.issue), Group(role)],
      m.sources[role],
      own,
      map n | n in PngNames(own) :: contents[n])
  }

  predicate ValidPlan(plan: Plan) {
    && |plan.parent| == DEPTH - 1
    && IsSha(plan.sha)
    && ValidManifest(plan.manifest)
    && plan.pngs.Keys == PngNames(plan.manifest)
  }

  /** The plan's directory, once written, will be accepted as the capture it was planned from. */
  predicate Loadable(codec: Codec, plan: Plan) {
    Complete(codec, PlanContents(codec, plan), plan.manifest)
  }

  lemma RolePlanValid(codec: Codec, m: Manifest, contents: map<Name, Bytes>, role: Role)
    requires Complete(codec, contents, m) && role in m.sources
    ensures ValidPlan(RolePlan(m, contents, role))
  {
    RoleManifestValid(m, role);
    assert IsSha(m.sources[role]);
  }

  lemma PlanLoadable(codec: Codec, plan: Plan)
    requires Lawful(codec) && codec.fields(plan.manifest)
    requires ValidManifest(plan.manifest) && plan.pngs.Keys == PngNames(plan.manifest)
    requires |codec.encode(plan.manifest)| <= MAX_MANIFEST_BYTES
    requires TotalBytes(plan.manifest.captures) <= MAX_TOTAL_BYTES
    requires ImagesIn(codec, PlanContents(codec, plan), plan.manifest.captures)
    ensures Loadable(codec, plan)
  {
    PlanNames(codec, plan);
    assert codec.decode(codec.encode(plan.manifest)) == Some(plan.manifest) && codec.encode(plan.manifest) != [];
  }

  lemma RolePlanParts(codec: Codec, m: Manifest, contents: map<Name, Bytes>, role: Role)
    requires ValidManifest(m) && ImagesIn(codec, contents, m.captures) && role in m.sources
    ensures var plan := RolePlan(m, contents, role);
      && ValidManifest(plan.manifest)
      && plan.pngs.Keys == PngNames(plan.manifest)
      && ImagesIn(codec, PlanContents(codec, plan), plan.manifest.captures)
      && TotalBytes(plan.manifest.captures) <= TotalBytes(m.captures)
  {
    RoleManifestValid(m, role);
    RoleTotal(m.captures, role);
    RolePlanImages(codec, m, contents, role);
    RolePlanShape(codec, m, contents, role);
  }

  lemma RolePlanShape(codec: Codec, m: Manifest, contents: map<Name, Bytes>, role: Role)
    requires ImagesIn(codec, contents, m.captures) && role in m.sources
    ensures var plan := RolePlan(m, contents, role);
      plan.manifest == RoleManifest(m, role) && plan.manifest.captures == RoleCaptures(m.captures, role)
      && plan.pngs.Keys == PngNames(plan.manifest)
  {
  }

  lemma RolePlanImages(codec: Codec, m: Manifest, contents: map<Name, Bytes>, role: Role)
    requires ValidManifest(m) && ImagesIn(codec, contents, m.captures) && role in m.sources
    ensures var plan := RolePlan(m, contents, role); ImagesIn(codec, PlanContents(codec, plan), plan.manifest.captures)
  {
    RolePngsMatch(codec, m, contents, role);
  }

  /** What was read passes the field validators, and so does a role's share of it. */
  lemma ShareFields(codec: Codec, m: Manifest, text: Bytes, role: Role)
    requires Lawful(codec) && codec.decode(text) == Some(m) && role in m.sources
    ensures codec.fields(m) && codec.fields(RoleManifest(m, role))
  {
  }

  /** A share of a complete capture is complete, provided its manifest is not too long. */
  lemma RolePlanLoadable(codec: Codec, m: Manifest, contents: map<Name, Bytes>, role: Role)
    requires Lawful(codec) && Complete(codec, contents, m) && role in m.sources
    requires |codec.encode(RoleManifest(m, role))| <= MAX_MANIFEST_BYTES
    ensures Loadable(codec, RolePlan(m, contents, role))
  {
    RolePlanParts(codec, m, contents, role);
    ShareFields(codec, m, contents[MANIFEST], role);
    PlanLoadable(codec, RolePlan(m, contents, role));
  }

  lemma PlanNames(codec: Codec, plan: Plan)
    requires plan.pngs.Keys == PngNames(plan.manifest)
    ensures PlanContents(codec, plan).Keys == Names(plan.manifest)
  {
  }

  lemma RolePngsMatch(codec: Codec, m: Manifest, contents: map<Name, Bytes>, role: Role)
    requires (forall c :: c in m.captures ==>
      CaptureFits(c, m.sources)) && ImagesIn(codec, contents, m.captures) && role in m.sources
    ensures var plan := RolePlan(m, contents, role); ImagesIn(codec, PlanContents(codec, plan), plan.manifest.captures)
  {
    var plan := RolePlan(m, contents, role);
    forall c | c in plan.manifest.captures
      ensures c.filename in PlanContents(codec, plan) && PngMatches(codec, PlanContents(codec, plan)[c.filename], c)
    {
      assert PngMatches(codec, contents[c.filename], c) && CaptureFits(c, m.sources);
      assert c.filename in PngNames(plan.manifest);
      assert PlanContents(codec, plan)[c.filename] == contents[c.filename];
    }
  }

  // Accepting an existing destination

  /** The plan's images are in its destination, byte for byte. */
  ghost predicate PngsThere(files: Files, plan: Plan) {
    forall n :: n in plan.pngs ==> Destination(plan) + [n] in files && files[Destination(plan) + [n]] == plan.pngs[n]
  }

  /** The destination is a complete capture that a rerun of this plan may leave as it is. */
  ghost predicate Matches(codec: Codec, files: Files, dirs: set<Path>, plan: Plan) {
    && PngsThere(files, plan)
    && exists m :: CompleteDirectory(codec, files, dirs, Destination(plan), m) && Stable(m) == Stable(plan.manifest)
  }

  /** Nothing incomplete is ever accepted: every planned file is there, whole, and nothing else is. */
  lemma MatchIsWhole(codec: Codec, files: Files, dirs: set<Path>, plan: Plan)
    requires WellFormed(files, dirs) && Matches(codec, files, dirs, plan) && ValidPlan(plan)
    ensures PngsThere(files, plan) && Destination(plan) + [MANIFEST] in files
    ensures forall p :: p in files && Below(Destination(plan), p) ==>
      |p| == DEPTH + 1 && (p[DEPTH] in plan.pngs || p[DEPTH] == MANIFEST)
  {
    var o := Destination(plan);
    var m :| CompleteDirectory(codec, files, dirs, o, m) && Stable(m) == Stable(plan.manifest);
    assert m.captures == Stable(plan.manifest).captures == plan.manifest.captures;
    forall p | p in files && Below(o, p)
      ensures |p| == DEPTH + 1 && (p[DEPTH] in plan.pngs || p[DEPTH] == MANIFEST)
    {
      ChildIsNamed(codec, files, dirs, o, m, p);
    }
  }

  lemma ChildIsNamed(codec: Codec, files: Files, dirs: set<Path>, o: Path, m: Manifest, p: Path)
    requires WellFormed(files, dirs) && CompleteDirectory(codec, files, dirs, o, m)
    requires p in files && Below(o, p)
    ensures |p| == |o| + 1 && p[|o|] in Names(m)
  {
    assert p != o;
    var child := p[..|o| + 1];
    assert child == o + [p[|o|]];
    if |p| > |o| + 1 {
      assert Parent(p)[..|o| + 1] == child;
      assert child in dirs ==> child in files;
      AncestorExists(files, dirs, Parent(p), |o| + 1);
    } else {
      assert p == child;
    }
  }

  /** A plan that differs from the published one in capture time and attempt alone finds it published. */
  lemma RerunMatches(codec: Codec, files: Files, dirs: set<Path>, plan: Plan, again: Plan)
    requires Matches(codec, files, dirs, plan)
    requires Destination(again) == Destination(plan) && again.pngs == plan.pngs
    requires Stable(again.manifest) == Stable(plan.manifest)
    ensures Matches(codec, files, dirs, again)
  {
    var m :| CompleteDirectory(codec, files, dirs, Destination(plan), m) && Stable(m) == Stable(plan.manifest);
    assert CompleteDirectory(codec, files, dirs, Destination(again), m) && Stable(m) == Stable(again.manifest);
  }

  /** A directory written as planned is one the plan matches. */
  lemma PublishedMatches(codec: Codec, files: Files, dirs: set<Path>, plan: Plan)
    requires WellFormed(files, dirs) && ValidPlan(plan) && Loadable(codec, plan)
    requires Holds(files, dirs, Destination(plan), PlanContents(codec, plan))
    ensures Matches(codec, files, dirs, plan)
  {
    var whole := PlanContents(codec, plan);
    HoldsComplete(codec, files, dirs, Destination(plan), whole, plan.manifest);
    assert MANIFEST !in PngNames(plan.manifest) by {
      assert forall c :: c in plan.manifest.captures ==> CaptureFits(c, plan.manifest.sources);
    }
    forall n | n in plan.pngs
      ensures Destination(plan) + [n] in files && files[Destination(plan) + [n]] == plan.pngs[n]
    {
      assert n in whole && whole[n] == plan.pngs[n];
    }
  }
}
