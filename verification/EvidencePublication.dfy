/**
 `publishEvidenceToCheckout`: each role of a capture is verified where it is already
 published, or staged, installed and verified again, and everything is rolled back when
 anything fails. One publisher per checkout; the checkout is the only thing changed.
 */
module EvidencePublication {
  import opened Decimal
  import opened EvidenceFiles
  import opened EvidenceManifest
  import opened Sorting
  import opened Utf16
  import opened Wrappers

  // Reading a directory back

  datatype Loaded = Loaded(manifest: Manifest, files: map<Name, Bytes>)

  function NameList(m: Manifest): (r: seq<Name>)
    ensures |r| == |m.captures| + 1
    ensures r[0] == MANIFEST && forall i :: 0 <= i < |m.captures| ==> r[i + 1] == m.captures[i].filename
  {
    [MANIFEST] + seq(|m.captures|, i requires 0 <= i < |m.captures| => m.captures[i].filename)
  }

  /** The sorted directory listing equals the sorted list of names iff it has the same names. */
  lemma ListingMatches(names: seq<Name>, m: Manifest)
    requires ValidManifest(m) && Ascending(Before, names)
    ensures names == Sort(Before, NameList(m)) <==> (forall n :: n in names <==> n in Names(m))
  {
    NameListMembers(m);
    NameListComparable(m);
    BeforeIsStrict();
    SortAscending(Before, NameList(m));
    forall n ensures n in Sort(Before, NameList(m)) <==> n in Names(m) {
      SameElements(Sort(Before, NameList(m)), NameList(m), n);
    }
    if forall n :: n in names <==> n in Names(m) {
      AscendingUnique(Before, names, Sort(Before, NameList(m)));
    }
  }

  lemma NameListMembers(m: Manifest)
    ensures forall n :: n in NameList(m) <==> n in Names(m)
  {
    forall n | n in Names(m) ensures n in NameList(m) {
      if n != MANIFEST {
        var c :| c in m.captures && c.filename == n;
        var i :| 0 <= i < |m.captures| && m.captures[i] == c;
        assert NameList(m)[i + 1] == n;
      }
    }
    forall n | n in NameList(m) ensures n in Names(m) {
      var i :| 0 <= i < |NameList(m)| && NameList(m)[i] == n;
      if i > 0 {
        assert m.captures[i - 1] in m.captures;
      }
    }
  }

  lemma NameListDistinct(m: Manifest, i: nat, j: nat)
    requires DistinctNames(m.captures) && (forall c :: c in m.captures ==> c.filename != MANIFEST)
    requires i < j < |NameList(m)|
    ensures NameList(m)[i] != NameList(m)[j]
  {
    assert m.captures[j - 1] in m.captures;
    assert NameList(m)[j] == m.captures[j - 1].filename;
    if i > 0 {
      assert NameList(m)[i] == m.captures[i - 1].filename;
    }
  }

  lemma NamesAreNotTheManifest(m: Manifest)
    requires ValidManifest(m)
    ensures forall c :: c in m.captures ==> c.filename != MANIFEST
  {
    assert forall c :: c in m.captures ==> CaptureFits(c, m.sources);
  }

  lemma NameListComparable(m: Manifest)
    requires ValidManifest(m)
    ensures Comparable(Before, NameList(m))
  {
    NamesAreNotTheManifest(m);
    forall i, j | 0 <= i < j < |NameList(m)|
      ensures Before(NameList(m)[i], NameList(m)[j]) || Before(NameList(m)[j], NameList(m)[i])
    {
      NameListDistinct(m, i, j);
      BeforeTotal(NameList(m)[i], NameList(m)[j]);
    }
  }

  lemma {:induction false} TotalGrows(captures: seq<Capture>, i: nat)
    requires i <= |captures|
    ensures TotalBytes(captures[..i]) <= TotalBytes(captures)
    decreases |captures| - i
  {
    if i < |captures| {
      TotalGrows(captures, i + 1);
      TotalStep(captures, i);
    } else {
      assert captures[..i] == captures;
    }
  }

  lemma TotalStep(captures: seq<Capture>, i: nat)
    requires i < |captures|
    ensures TotalBytes(captures[..i + 1]) == TotalBytes(captures[..i]) + captures[i].bytes
  {
    assert captures[..i + 1] == captures[..i] + [captures[i]];
    TotalPush(captures[..i], captures[i]);
  }

  /** The images named by the first captures, as read from the directory. */
  ghost predicate ReadSoFar(codec: Codec, files: Files, o: Path, m: Manifest, i: nat, got: map<Name, Bytes>)
    requires i <= |m.captures|
  {
    && (forall j :: 0 <= j < i ==> m.captures[j].filename in got && ImageAt(codec, files, o, m.captures[j]))
    && (forall n :: n in got ==> n in PngNames(m) && o + [n] in files && got[n] == files[o + [n]])
  }

  lemma ReadOneMore(codec: Codec, files: Files, o: Path, m: Manifest, i: nat, got: map<Name, Bytes>, png: Bytes)
    requires i < |m.captures| && ReadSoFar(codec, files, o, m, i, got)
    requires ImageAt(codec, files, o, m.captures[i]) && files[o + [m.captures[i].filename]] == png
    ensures ReadSoFar(codec, files, o, m, i + 1, got[m.captures[i].filename := png])
  {
    assert m.captures[i] in m.captures;
  }

  /** Exactly the manifest's images, as they are in the directory. */
  ghost predicate ImagesRead(files: Files, o: Path, m: Manifest, got: map<Name, Bytes>) {
    && (forall n :: n in got <==> n in PngNames(m))
    && (forall n :: n in got ==> o + [n] in files && got[n] == files[o + [n]])
  }

  lemma ReadAll(codec: Codec, files: Files, o: Path, m: Manifest, got: map<Name, Bytes>)
    requires ReadSoFar(codec, files, o, m, |m.captures|, got)
    ensures ImagesRead(files, o, m, got)
    ensures forall c :: c in m.captures ==> ImageAt(codec, files, o, c)
  {
    forall n | n in PngNames(m) ensures n in got {
      var c :| c in m.captures && c.filename == n;
      var j :| 0 <= j < |m.captures| && m.captures[j] == c;
    }
  }

  method LoadManifest(c: Checkout, codec: Codec, o: Path) returns (r: Option<Manifest>)
    requires c.Valid()
    modifies c`dead, c`fault
    ensures c.Valid() && (old(c.fault) ==> c.fault)
    ensures r.Some? ==> ManifestAt(codec, c.files, o, r.value)
    ensures r.None? && !c.fault ==> forall m :: !ManifestAt(codec, c.files, o, m)
  {
    var text := c.ReadRegular(o + [MANIFEST], MAX_MANIFEST_BYTES);
    if text.None? {
      return None;
    }
    var decoded := codec.decode(text.value);
    if decoded.None? || !ValidManifest(decoded.value) || text.value != codec.encode(decoded.value) {
      return None;
    }
    return decoded;
  }

  /** One image, if it is what the manifest says. */
  method LoadImage(c: Checkout, codec: Codec, o: Path, capture: Capture, total: nat) returns (r: Option<Bytes>)
    requires c.Valid()
    modifies c`dead, c`fault
    ensures c.Valid() && (old(c.fault) ==> c.fault)
    ensures r.Some? ==> ImageAt(codec, c.files, o, capture) && r.value == c.files[o + [capture.filename]]
    ensures r.Some? ==> total + capture.bytes <= MAX_TOTAL_BYTES
    ensures r.None? && !c.fault ==> !ImageAt(codec, c.files, o, capture) || total + capture.bytes > MAX_TOTAL_BYTES
  {
    var png := c.ReadRegular(o + [capture.filename], MAX_PNG_BYTES);
    if png.None? {
      return None;
    }
    if total + |png.value| > MAX_TOTAL_BYTES || !PngMatches(codec, png.value, capture) {
      return None;
    }
    return png;
  }

  lemma NotAllImages(codec: Codec, files: Files, o: Path, m: Manifest, i: nat)
    requires i < |m.captures|
    requires !ImageAt(codec, files, o, m.captures[i]) ||
      TotalBytes(m.captures[..i]) + m.captures[i].bytes > MAX_TOTAL_BYTES
    ensures !ImagesAt(codec, files, o, m)
  {
    TotalStep(m.captures, i);
    TotalGrows(m.captures, i + 1);
    assert m.captures[i] in m.captures;
  }

  method LoadImages(c: Checkout, codec: Codec, o: Path, m: Manifest) returns (r: Option<map<Name, Bytes>>)
    requires c.Valid()
    modifies c`dead, c`fault
    ensures c.Valid() && (old(c.fault) ==> c.fault)
    ensures r.Some? ==> ImagesAt(codec, c.files, o, m)
    ensures r.Some? ==> ImagesRead(c.files, o, m, r.value)
    ensures r.None? && !c.fault ==> !ImagesAt(codec, c.files, o, m)
  {
    var files := map[];
    var total := 0;
    var i := 0;
    while i < |m.captures|
      invariant i <= |m.captures| && c.Valid() && (old(c.fault) ==> c.fault)
      invariant ReadSoFar(codec, c.files, o, m, i, files)
      invariant total == TotalBytes(m.captures[..i]) <= MAX_TOTAL_BYTES
    {
      var capture := m.captures[i];
      TotalStep(m.captures, i);
      var png := LoadImage(c, codec, o, capture, total);
      if png.None? {
        if !c.fault {
          NotAllImages(codec, c.files, o, m, i);
        }
        return None;
      }
      total := total + |png.value|;
      ReadOneMore(codec, c.files, o, m, i, files, png.value);
      files := files[capture.filename := png.value];
      i := i + 1;
    }
    assert m.captures[..i] == m.captures;
    ReadAll(codec, c.files, o, m, files);
    return Some(files);
  }

  /** Whether the directory's listing is the manifest's. */
  method CheckInventory(c: Checkout, o: Path, m: Manifest) returns (ok: bool)
    requires c.Valid() && ValidManifest(m) && o in c.dirs
    modifies c`dead, c`fault
    ensures c.Valid() && (old(c.fault) ==> c.fault)
    ensures ok ==> InventoryAt(c.files, c.dirs, o, m)
    ensures !ok && !c.fault ==> !InventoryAt(c.files, c.dirs, o, m)
  {
    var names := c.ReadDirectory(o);
    if names.None? {
      return false;
    }
    ListingMatches(names.value, m);
    return names.value == Sort(Before, NameList(m));
  }

  /** `loadCapture`: the directory's manifest and images, if it is complete. */
  method LoadCapture(c: Checkout, codec: Codec, o: Path) returns (r: Option<Loaded>)
    requires c.Valid()
    modifies c`dead, c`fault
    ensures c.Valid() && (old(c.fault) ==> c.fault)
    ensures r.Some? ==> CompleteDirectory(codec, c.files, c.dirs, o, r.value.manifest)
    ensures r.Some? ==> ImagesRead(c.files, o, r.value.manifest, r.value.files)
    ensures r.None? && !c.fault ==> forall m :: !CompleteDirectory(codec, c.files, c.dirs, o, m)
  {
    if o !in c.dirs {
      return None;
    }
    var m := LoadManifest(c, codec, o);
    if m.None? {
      return None;
    }
    OneManifestAt(codec, c.files, o, m.value);
    var listed := CheckInventory(c, o, m.value);
    if !listed {
      return None;
    }
    var images := LoadImages(c, codec, o, m.value);
    if images.None? {
      return None;
    }
    return Some(Loaded(m.value, images.value));
  }

  lemma OneManifestAt(codec: Codec, files: Files, o: Path, m: Manifest)
    requires ManifestAt(codec, files, o, m)
    ensures forall other :: ManifestAt(codec, files, o, other) ==> other == m
  {
  }

  // Destinations

  datatype Destiny = New | Existing | Blocked

  /** No file sits where a directory of the path should be. */
  predicate Unblocked(files: Files, o: Path) {
    forall k :: 0 <= k <= |o| ==> o[..k] !in files
  }

  lemma DirectoryUnblocked(files: Files, dirs: set<Path>, o: Path)
    requires WellFormed(files, dirs) && o in dirs
    ensures Unblocked(files, o)
  {
    forall k | 0 <= k <= |o| ensures o[..k] !in files {
      AncestorExists(files, dirs, o, k);
    }
  }

  lemma MissingUnblocks(files: Files, dirs: set<Path>, o: Path, k: nat)
    requires WellFormed(files, dirs) && k <= |o| && o[..k] !in dirs && o[..k] !in files
    requires forall j :: 0 <= j <= k ==> o[..j] !in files
    ensures Unblocked(files, o) && o !in dirs
  {
    NothingBelow(files, dirs, o[..k]);
    forall j | 0 <= j <= |o| ensures o[..j] !in files {
      if k < j {
        assert o[..j][..k] == o[..k];
        assert Below(o[..k], o[..j]);
      }
    }
    assert Below(o[..k], o);
  }

  /** `classifyDestination`: walk the path until something is missing. */
  method ClassifyDestination(c: Checkout, o: Path) returns (r: Destiny)
    requires c.Valid()
    modifies c`dead, c`fault
    ensures c.Valid() && (old(c.fault) ==> c.fault)
    ensures r.New? ==> o !in c.dirs && Unblocked(c.files, o)
    ensures r.Existing? ==> o in c.dirs
    ensures r.Blocked? && !c.fault ==> !Unblocked(c.files, o)
  {
    var k := 0;
    while k < |o|
      invariant k <= |o| && c.Valid() && (old(c.fault) ==> c.fault)
      invariant o[..k] in c.dirs
      invariant forall j :: 0 <= j <= k ==> o[..j] !in c.files
    {
      k := k + 1;
      var trouble := c.Trouble();
      if trouble || o[..k] in c.files {
        return Blocked;
      }
      if o[..k] !in c.dirs {
        MissingUnblocks(c.files, c.dirs, o, k);
        return New;
      }
    }
    assert o[..k] == o;
    return Existing;
  }

  /** `ensureSafeDirectory`: make the missing directories of a path. */
  method EnsureSafeDirectory(c: Checkout, o: Path) returns (r: Effect)
    requires c.Valid() && |o| < DEPTH
    modifies c`dirs, c`dead, c`fault
    ensures c.Valid() && (old(c.fault) ==> c.fault)
    ensures DirsSameOutside(old(c.dirs), c.dirs, {})
    ensures r.Done? ==> o in c.dirs
    ensures !c.fault && Unblocked(c.files, o) ==> r.Done?
  {
    var k := 0;
    while k < |o|
      invariant k <= |o| && c.Valid() && (old(c.fault) ==> c.fault)
      invariant DirsSameOutside(old(c.dirs), c.dirs, {}) && o[..k] in c.dirs
    {
      k := k + 1;
      assert Parent(o[..k]) == o[..k - 1];
      var made := c.MakeDirectory(o[..k]);
      if made.Failed? {
        return Failed;
      }
      var trouble := c.Trouble();
      if trouble || o[..k] !in c.dirs {
        return Failed;
      }
    }
    assert o[..k] == o;
    return Done;
  }

  predicate SameImage(files: map<Name, Bytes>, plan: Plan, n: Name) {
    n in files && n in plan.pngs && files[n] == plan.pngs[n]
  }

  /** Compares the plan's images with the ones found, in the manifest's order. */
  method SameImages(files: map<Name, Bytes>, plan: Plan) returns (same: bool)
    requires plan.pngs.Keys == PngNames(plan.manifest)
    ensures same <==> forall n :: n in plan.pngs ==> SameImage(files, plan, n)
  {
    var captures := plan.manifest.captures;
    var i := 0;
    while i < |captures|
      invariant i <= |captures|
      invariant forall j :: 0 <= j < i ==> SameImage(files, plan, captures[j].filename)
    {
      if !SameImage(files, plan, captures[i].filename) {
        assert captures[i] in captures && captures[i].filename in plan.pngs;
        return false;
      }
      i := i + 1;
    }
    forall n | n in plan.pngs ensures SameImage(files, plan, n) {
      var capture :| capture in captures && capture.filename == n;
      var j :| 0 <= j < i && captures[j] == capture;
    }
    return true;
  }

  /** `verifyExistingPlan`: the destination must be a complete capture with these images. */
  method VerifyExistingPlan(c: Checkout, codec: Codec, plan: Plan) returns (ok: bool)
    requires c.Valid() && ValidPlan(plan)
    modifies c`dead, c`fault
    ensures c.Valid() && (old(c.fault) ==> c.fault)
    ensures ok ==> Matches(codec, c.files, c.dirs, plan)
    ensures !ok && !c.fault ==> !Matches(codec, c.files, c.dirs, plan)
  {
    var existing := LoadCapture(c, codec, Destination(plan));
    if existing.None? {
      return false;
    }
    OneManifest(codec, c.files, c.dirs, Destination(plan), existing.value.manifest);
    if Stable(existing.value.manifest) != Stable(plan.manifest) {
      return false;
    }
    ok := SameImages(existing.value.files, plan);
    LoadedImages(existing.value, plan, c.files);
  }

  lemma LoadedImages(loaded: Loaded, plan: Plan, files: Files)
    requires ValidPlan(plan) && Stable(loaded.manifest) == Stable(plan.manifest)
    requires ImagesRead(files, Destination(plan), loaded.manifest, loaded.files)
    ensures (forall n :: n in plan.pngs ==> SameImage(loaded.files, plan, n)) <==> PngsThere(files, plan)
  {
    assert Stable(loaded.manifest).captures == Stable(plan.manifest).captures;
    assert PngNames(loaded.manifest) == PngNames(plan.manifest);
    assert forall n :: n in plan.pngs <==> n in loaded.files;
  }

  lemma OneManifest(codec: Codec, files: Files, dirs: set<Path>, o: Path, m: Manifest)
    requires CompleteDirectory(codec, files, dirs, o, m)
    ensures forall other :: CompleteDirectory(codec, files, dirs, o, other) ==> other == m
  {
  }

  // Staging

  lemma HoldsWrite(files: Files, dirs: set<Path>, o: Path, got: map<Name, Bytes>, n: Name, bytes: Bytes)
    requires Holds(files, dirs, o, got) && n !in got
    ensures Holds(files[o + [n] := bytes], dirs, o, got[n := bytes])
  {
    var after := files[o + [n] := bytes];
    forall k | k in got[n := bytes] ensures o + [k] in after && after[o + [k]] == got[n := bytes][k] {
      assert (o + [k])[|o|] == k && (o + [n])[|o|] == n;
    }
  }

  lemma WriteStaysInside(files: Files, o: Path, n: Name, bytes: Bytes)
    requires |o| == DEPTH
    ensures SameOutside(files, files[o + [n] := bytes], {o})
  {
    assert Under({o}, o + [n]);
  }

  lemma ChildFree(files: Files, dirs: set<Path>, o: Path, got: map<Name, Bytes>, n: Name)
    requires Holds(files, dirs, o, got) && n !in got
    ensures o + [n] !in files && o + [n] !in dirs && Parent(o + [n]) == o
  {
    assert Below(o, o + [n]) && (o + [n])[|o|] == n;
  }

  method WriteChild(c: Checkout, o: Path, n: Name, bytes: Bytes, ghost got: map<Name, Bytes>) returns (r: Effect)
    requires c.Valid() && |o| == DEPTH && Holds(c.files, c.dirs, o, got) && n !in got
    modifies c`files, c`dead, c`fault
    ensures c.Valid() && (old(c.fault) ==> c.fault)
    ensures SameOutside(old(c.files), c.files, {o})
    ensures r.Done? ==> Holds(c.files, c.dirs, o, got[n := bytes])
    ensures !c.fault ==> r.Done?
  {
    ChildFree(c.files, c.dirs, o, got, n);
    HoldsWrite(c.files, c.dirs, o, got, n, bytes);
    ghost var before := c.files;
    r := c.WriteExclusive(o + [n], bytes);
    if c.files != before {
      WriteStaysInside(before, o, n, c.files[o + [n]]);
    }
  }

  /** The plan's first images. */
  ghost predicate FirstPngs(plan: Plan, i: nat, got: map<Name, Bytes>)
    requires i <= |plan.manifest.captures|
  {
    && (forall j :: 0 <= j < i ==> plan.manifest.captures[j].filename in got)
    && (forall j :: i <= j < |plan.manifest.captures| ==> plan.manifest.captures[j].filename !in got)
    && (forall n :: n in got ==> n in plan.pngs && got[n] == plan.pngs[n])
  }

  lemma FirstPngsNext(plan: Plan, i: nat, got: map<Name, Bytes>)
    requires DistinctNames(plan.manifest.captures) && plan.pngs.Keys == PngNames(plan.manifest)
    requires i < |plan.manifest.captures| && FirstPngs(plan, i, got)
    ensures var n := plan.manifest.captures[i].filename;
      n in plan.pngs && n !in got && FirstPngs(plan, i + 1, got[n := plan.pngs[n]])
  {
    assert plan.manifest.captures[i] in plan.manifest.captures;
    assert plan.manifest.captures[i].filename in PngNames(plan.manifest);
  }

  lemma AllPngs(plan: Plan, got: map<Name, Bytes>)
    requires plan.pngs.Keys == PngNames(plan.manifest) && FirstPngs(plan, |plan.manifest.captures|, got)
    ensures got == plan.pngs
  {
    forall n | n in plan.pngs ensures n in got {
      var c :| c in plan.manifest.captures && c.filename == n;
      var j :| 0 <= j < |plan.manifest.captures| && plan.manifest.captures[j] == c;
    }
  }

  method WriteStaging(c: Checkout, codec: Codec, plan: Plan, o: Path) returns (r: Effect)
    requires c.Valid() && ValidPlan(plan) && |o| == DEPTH && Holds(c.files, c.dirs, o, map[])
    modifies c`files, c`dead, c`fault
    ensures c.Valid() && (old(c.fault) ==> c.fault)
    ensures SameOutside(old(c.files), c.files, {o})
    ensures r.Done? ==> Holds(c.files, c.dirs, o, PlanContents(codec, plan))
    ensures !c.fault ==> r.Done?
  {
    ghost var got: map<Name, Bytes> := map[];
    var i := 0;
    while i < |plan.manifest.captures|
      invariant i <= |plan.manifest.captures| && c.Valid() && (old(c.fault) ==> c.fault)
      invariant SameOutside(old(c.files), c.files, {o})
      invariant FirstPngs(plan, i, got) && Holds(c.files, c.dirs, o, got)
    {
      var filename := plan.manifest.captures[i].filename;
      FirstPngsNext(plan, i, got);
      ghost var before := c.files;
      r := WriteChild(c, o, filename, plan.pngs[filename], got);
      SameOutsideChains(old(c.files), before, c.files, {o}, {o});
      if !r.Done? {
        return;
      }
      got := got[filename := plan.pngs[filename]];
      i := i + 1;
    }
    AllPngs(plan, got);
    NamesAreNotTheManifest(plan.manifest);
    ghost var before := c.files;
    r := WriteChild(c, o, MANIFEST, codec.encode(plan.manifest), got);
    SameOutsideChains(old(c.files), before, c.files, {o}, {o});
  }

  predicate Free(files: Files, dirs: set<Path>, o: Path) {
    o !in files && o !in dirs
  }

  lemma FreeIsBare(files: Files, dirs: set<Path>, o: Path)
    requires WellFormed(files, dirs) && Free(files, dirs, o)
    ensures NothingUnder(files, o)
    ensures Holds(files, dirs + {o}, o, map[])
  {
    NothingBelow(files, dirs, o);
    assert Below(o, o);
  }

  /** With nothing left in the trees that were free before, every file is what it was. */
  lemma Restored(before: Files, after: Files, roots: set<Path>)
    requires SameOutside(before, after, roots)
    requires forall o :: o in roots ==> |o| == DEPTH && NothingUnder(before, o) && NothingUnder(after, o)
    ensures after == before
  {
    forall p | p in before || p in after ensures !Under(roots, p) {
      if Under(roots, p) {
        assert Below(p[..DEPTH], p);
      }
    }
  }

  lemma NewDirectoryOutside(dirs: set<Path>, o: Path)
    requires |o| == DEPTH
    ensures DirsSameOutside(dirs, dirs + {o}, {o})
  {
    assert o[..DEPTH] == o;
  }

  lemma ReadBack(codec: Codec, files: Files, dirs: set<Path>, o: Path, plan: Plan)
    requires WellFormed(files, dirs) && Holds(files, dirs, o, PlanContents(codec, plan))
    ensures Loadable(codec, plan) <==> CompleteDirectory(codec, files, dirs, o, plan.manifest)
  {
    if Loadable(codec, plan) {
      HoldsComplete(codec, files, dirs, o, PlanContents(codec, plan), plan.manifest);
    }
    if CompleteDirectory(codec, files, dirs, o, plan.manifest) {
      CompleteHolds(codec, files, dirs, o, PlanContents(codec, plan), plan.manifest);
    }
  }

  /** Writes the plan into a directory just made and reads it back. */
  method FillStaging(c: Checkout, codec: Codec, plan: Plan, o: Path) returns (ok: bool)
    requires c.Valid() && ValidPlan(plan) && |o| == DEPTH && Holds(c.files, c.dirs, o, map[])
    modifies c`files, c`dead, c`fault
    ensures c.Valid() && (old(c.fault) ==> c.fault)
    ensures SameOutside(old(c.files), c.files, {o})
    ensures ok ==> Holds(c.files, c.dirs, o, PlanContents(codec, plan)) && Loadable(codec, plan)
    ensures !c.fault && Loadable(codec, plan) ==> ok
  {
    var written := WriteStaging(c, codec, plan, o);
    if !written.Done? {
      return false;
    }
    ReadBack(codec, c.files, c.dirs, o, plan);
    var staged := LoadCapture(c, codec, o);
    if staged.None? {
      return false;
    }
    OneManifest(codec, c.files, c.dirs, o, staged.value.manifest);
    return staged.value.manifest == plan.manifest;
  }

  /** The parent directories and a staging directory of the plan's own, still empty. */
  method PrepareStaging(c: Checkout, parent: Path, staging: Path) returns (r: Effect)
    requires c.Valid() && |staging| == DEPTH && Parent(staging) == parent
    modifies c`dirs, c`dead, c`fault
    ensures c.Valid() && (old(c.fault) ==> c.fault)
    ensures DirsSameOutside(old(c.dirs), c.dirs, {staging})
    ensures r.Done? ==> Free(c.files, old(c.dirs), staging) && Holds(c.files, c.dirs, staging, map[])
    ensures !c.fault && Unblocked(c.files, parent) && Free(c.files, old(c.dirs), staging) ==> r.Done?
  {
    ghost var dirs0 := c.dirs;
    r := EnsureSafeDirectory(c, parent);
    ghost var dirs1 := c.dirs;
    assert staging in dirs1 <==> staging in dirs0 by {
      assert !Under({}, staging);
    }
    if r.Done? {
      if Free(c.files, dirs1, staging) {
        FreeIsBare(c.files, dirs1, staging);
      }
      r := c.MakeDirectory(staging);
      NewDirectoryOutside(dirs1, staging);
      DirsSameOutsideChains(dirs0, dirs1, c.dirs, {}, {staging});
      assert {} + {staging} == {staging};
    }
  }

  /** `stagePlan`: the whole plan in a directory of its own beside the destination, or nothing. */
  method StagePlan(c: Checkout, codec: Codec, plan: Plan, staging: Path, ghost able: bool) returns (r: Effect)
    requires c.Valid() && ValidPlan(plan) && |staging| == DEPTH && Parent(staging) == plan.parent
    requires able ==> Unblocked(c.files, plan.parent) && Free(c.files, c.dirs, staging) && Loadable(codec, plan)
    modifies c
    ensures c.Valid() && (old(c.fault) ==> c.fault) && (old(c.removalFailed) ==> c.removalFailed)
    ensures SameOutside(old(c.files), c.files, {staging}) && DirsSameOutside(old(c.dirs), c.dirs, {staging})
    ensures !Free(old(c.files), old(c.dirs), staging) ==> c.files == old(c.files) && !r.Done?
    ensures r.Done? ==> Holds(c.files, c.dirs, staging, PlanContents(codec, plan)) && Loadable(codec, plan)
    ensures !r.Done? && !c.removalFailed ==> c.files == old(c.files)
    ensures !c.fault && able ==> r.Done?
    ensures c.steady && staging !in c.stuck ==> c.removalFailed == old(c.removalFailed)
    ensures c.calm && !old(c.removalFailed) && able ==> r.Done? && !c.removalFailed
  {
    ghost var files0, dirs0, unremoved := c.files, c.dirs, c.removalFailed;
    r := PrepareStaging(c, plan.parent, staging);
    assert c.removalFailed == unremoved;
    if !r.Done? {
      return;
    }
    FreeIsBare(files0, dirs0, staging);
    r := FillOrAbandon(c, codec, plan, staging, files0, dirs0);
  }

  /** Fills the staging directory, or removes it again. */
  method FillOrAbandon(c: Checkout, codec: Codec, plan: Plan, staging: Path, ghost files0: Files,
      ghost dirs0: set<Path>)
    returns (r: Effect)
    requires c.Valid() && ValidPlan(plan) && |staging| == DEPTH && Holds(c.files, c.dirs, staging, map[])
    requires NothingUnder(files0, staging)
    requires SameOutside(files0, c.files, {staging}) && DirsSameOutside(dirs0, c.dirs, {staging})
    modifies c
    ensures c.Valid() && (old(c.fault) ==> c.fault) && (old(c.removalFailed) ==> c.removalFailed)
    ensures SameOutside(files0, c.files, {staging}) && DirsSameOutside(dirs0, c.dirs, {staging})
    ensures r.Done? ==> Holds(c.files, c.dirs, staging, PlanContents(codec, plan)) && Loadable(codec, plan)
    ensures !r.Done? && !c.removalFailed ==> c.files == files0
    ensures !c.fault && Loadable(codec, plan) ==> r.Done?
    ensures c.steady && staging !in c.stuck ==> c.removalFailed == old(c.removalFailed)
    ensures c.calm && !old(c.removalFailed) && Loadable(codec, plan) ==> r.Done? && !c.removalFailed
  {
    ghost var files1, unremoved := c.files, c.removalFailed;
    var ok := FillStaging(c, codec, plan, staging);
    assert c.removalFailed == unremoved;
    SameOutsideChains(files0, files1, c.files, {staging}, {staging});
    assert {staging} + {staging} == {staging};
    if ok {
      return Done;
    }
    AbandonStaging(c, staging, files0, dirs0);
    return Failed;
  }

  /** The handler of a failed staging: its directory goes again. */
  method AbandonStaging(c: Checkout, staging: Path, ghost files0: Files, ghost dirs0: set<Path>)
    requires c.Valid() && |staging| == DEPTH && NothingUnder(files0, staging)
    requires SameOutside(files0, c.files, {staging}) && DirsSameOutside(dirs0, c.dirs, {staging})
    modifies c
    ensures c.Valid() && (old(c.fault) ==> c.fault) && (old(c.removalFailed) ==> c.removalFailed)
    ensures SameOutside(files0, c.files, {staging}) && DirsSameOutside(dirs0, c.dirs, {staging})
    ensures !c.removalFailed ==> c.files == files0
    ensures c.steady && staging !in c.stuck ==> c.removalFailed == old(c.removalFailed)
  {
    ghost var files1, dirs1 := c.files, c.dirs;
    var removed := c.RemoveTree(staging);
    SameOutsideChains(files0, files1, c.files, {staging}, {staging});
    DirsSameOutsideChains(dirs0, dirs1, c.dirs, {staging}, {staging});
    assert {staging} + {staging} == {staging};
    if removed.Done? {
      Restored(files0, c.files, {staging});
    }
  }

  // Installing

  /** One file moves from the staging directory to the destination. */
  lemma HoldsMove(files: Files, dirs: set<Path>, from: Path, to: Path, left: map<Name, Bytes>,
      moved: map<Name, Bytes>, n: Name)
    requires |from| == |to| == DEPTH && from != to
    requires Holds(files, dirs, from, left) && Holds(files, dirs, to, moved) && n in left && n !in moved
    ensures from + [n] in files && from + [n] != to + [n]
    ensures var after := (files - {from + [n]})[to + [n] := files[from + [n]]];
      Holds(after, dirs, from, left - {n}) && Holds(after, dirs, to, moved[n := left[n]])
  {
    var after := (files - {from + [n]})[to + [n] := files[from + [n]]];
    assert (from + [n])[..DEPTH] == from && (to + [n])[..DEPTH] == to;
    forall k | k in left - {n} ensures from + [k] in after && after[from + [k]] == left[k] {
      assert (from + [k])[DEPTH] == k && (from + [n])[DEPTH] == n && (from + [k])[..DEPTH] == from;
    }
    forall k | k in moved[n := left[n]] ensures to + [k] in after && after[to + [k]] == moved[n := left[n]][k] {
      assert (to + [k])[DEPTH] == k && (to + [n])[DEPTH] == n && (to + [k])[..DEPTH] == to;
    }
    forall p | p in after && Below(from, p) ensures |p| == DEPTH + 1 && p[DEPTH] in left - {n} {
      assert p != to + [n];
      assert p == from + [p[DEPTH]];
    }
  }

  lemma MoveStaysInside(files: Files, from: Path, to: Path, n: Name)
    requires |from| == |to| == DEPTH && from + [n] in files
    ensures SameOutside(files, (files - {from + [n]})[to + [n] := files[from + [n]]], {from, to})
  {
    assert (from + [n])[..DEPTH] == from && (to + [n])[..DEPTH] == to;
  }

  lemma MovePossible(files: Files, dirs: set<Path>, to: Path, moved: map<Name, Bytes>, n: Name)
    requires Holds(files, dirs, to, moved)
    ensures to + [n] !in dirs && Parent(to + [n]) == to && to in dirs
  {
    assert Below(to, to + [n]);
  }

  method MoveChild(c: Checkout, from: Path, to: Path, n: Name, ghost left: map<Name, Bytes>,
      ghost moved: map<Name, Bytes>)
    returns (r: Effect)
    requires c.Valid() && |from| == |to| == DEPTH && from != to
    requires Holds(c.files, c.dirs, from, left) && Holds(c.files, c.dirs, to, moved) && n in left && n !in moved
    modifies c`files, c`dead, c`fault
    ensures c.Valid() && (old(c.fault) ==> c.fault)
    ensures SameOutside(old(c.files), c.files, {from, to})
    ensures r.Done? ==> Holds(c.files, c.dirs, from, left - {n}) && Holds(c.files, c.dirs, to, moved[n := left[n]])
    ensures !c.fault ==> r.Done?
  {
    HoldsMove(c.files, c.dirs, from, to, left, moved, n);
    MoveStaysInside(c.files, from, to, n);
    MovePossible(c.files, c.dirs, to, moved, n);
    r := c.Rename(from + [n], to + [n]);
  }

  /** The first names have moved, the others are left. */
  ghost predicate Divided(contents: map<Name, Bytes>, names: seq<Name>, k: nat, left: map<Name, Bytes>,
      moved: map<Name, Bytes>)
    requires k <= |names|
  {
    && (forall j :: 0 <= j < k ==> names[j] in moved)
    && (forall j :: k <= j < |names| ==> names[j] in left && names[j] !in moved)
    && (forall n :: n in moved ==> n in contents && moved[n] == contents[n])
    && (forall n :: n in left ==> n in contents && left[n] == contents[n])
  }

  lemma DividedNext(contents: map<Name, Bytes>, names: seq<Name>, k: nat, left: map<Name, Bytes>,
      moved: map<Name, Bytes>)
    requires k < |names| && (forall j :: k < j < |names| ==> names[j] != names[k])
    requires Divided(contents, names, k, left, moved)
    ensures Divided(contents, names, k + 1, left - {names[k]}, moved[names[k] := left[names[k]]])
  {
  }

  lemma AscendingDistinct(names: seq<Name>)
    requires Ascending(Before, names)
    ensures forall i, j :: 0 <= i < j < |names| ==> names[j] != names[i]
  {
    BeforeIsStrict();
  }

  lemma AllMoved(contents: map<Name, Bytes>, names: seq<Name>, left: map<Name, Bytes>, moved: map<Name, Bytes>)
    requires Divided(contents, names, |names|, left, moved) && forall n :: n in contents ==> n in names
    ensures moved == contents
  {
    forall n | n in contents ensures n in moved {
      var j :| 0 <= j < |names| && names[j] == n;
    }
  }

  method MoveNames(c: Checkout, from: Path, to: Path, names: seq<Name>, ghost contents: map<Name, Bytes>)
    returns (r: Effect, ghost left: map<Name, Bytes>, ghost moved: map<Name, Bytes>)
    requires c.Valid() && |from| == |to| == DEPTH && from != to
    requires forall i, j :: 0 <= i < j < |names| ==> names[j] != names[i]
    requires Divided(contents, names, 0, contents, map[])
    requires Holds(c.files, c.dirs, from, contents) && Holds(c.files, c.dirs, to, map[])
    modifies c`files, c`dead, c`fault
    ensures c.Valid() && (old(c.fault) ==> c.fault)
    ensures SameOutside(old(c.files), c.files, {from, to})
    ensures r.Done? ==> Holds(c.files, c.dirs, to, moved) && Divided(contents, names, |names|, left, moved)
    ensures !c.fault ==> r.Done?
  {
    left, moved := contents, map[];
    ghost var roots := {from, to};
    var k := 0;
    while k < |names|
      invariant k <= |names| && c.Valid() && (old(c.fault) ==> c.fault)
      invariant SameOutside(old(c.files), c.files, roots)
      invariant Divided(contents, names, k, left, moved)
      invariant Holds(c.files, c.dirs, from, left) && Holds(c.files, c.dirs, to, moved)
    {
      DividedNext(contents, names, k, left, moved);
      ghost var before := c.files;
      r := MoveChild(c, from, to, names[k], left, moved);
      SameOutsideChains(old(c.files), before, c.files, roots, roots);
      assert roots + roots == roots;
      if !r.Done? {
        return;
      }
      moved := moved[names[k] := left[names[k]]];
      left := left - {names[k]};
      k := k + 1;
    }
    r := Done;
  }

  method MoveFiles(c: Checkout, from: Path, to: Path, ghost contents: map<Name, Bytes>) returns (r: Effect)
    requires c.Valid() && |from| == |to| == DEPTH && from != to
    requires Holds(c.files, c.dirs, from, contents) && Holds(c.files, c.dirs, to, map[])
    modifies c`files, c`dead, c`fault
    ensures c.Valid() && (old(c.fault) ==> c.fault)
    ensures SameOutside(old(c.files), c.files, {from, to})
    ensures r.Done? ==> Holds(c.files, c.dirs, to, contents)
    ensures !c.fault ==> r.Done?
  {
    HeldNames(c.files, c.dirs, from, contents);
    var listing := c.ReadDirectory(from);
    if listing.None? {
      return Failed;
    }
    AscendingDistinct(listing.value);
    ghost var left, moved;
    r, left, moved := MoveNames(c, from, to, listing.value, contents);
    if r.Done? {
      AllMoved(contents, listing.value, left, moved);
    }
  }

  /** Moves everything over and removes the emptied staging directory. */
  method FillDestination(c: Checkout, staging: Path, to: Path, ghost contents: map<Name, Bytes>) returns (ok: bool)
    requires c.Valid() && |staging| == |to| == DEPTH && staging != to
    requires Holds(c.files, c.dirs, staging, contents) && Holds(c.files, c.dirs, to, map[])
    modifies c
    ensures c.Valid() && (old(c.fault) ==> c.fault) && (old(c.removalFailed) ==> c.removalFailed)
    ensures SameOutside(old(c.files), c.files, {to, staging}) && DirsSameOutside(old(c.dirs), c.dirs, {to, staging})
    ensures ok ==> Holds(c.files, c.dirs, to, contents) && NothingUnder(c.files, staging)
    ensures !c.fault ==> ok
    ensures ok ==> staging !in c.stuck && c.removalFailed == old(c.removalFailed)
    ensures c.steady && staging !in c.stuck ==> c.removalFailed == old(c.removalFailed)
    ensures c.calm && !old(c.removalFailed) && staging !in c.stuck ==> ok
  {
    var moved := MoveFiles(c, staging, to, contents);
    if !moved.Done? {
      return false;
    }
    ghost var files1, dirs1 := c.files, c.dirs;
    var removed := c.RemoveTree(staging);
    SameOutsideChains(old(c.files), files1, c.files, {staging, to}, {staging});
    assert {staging, to} + {staging} == {to, staging};
    HoldsStays(files1, dirs1, c.files, c.dirs, {staging}, to, contents);
    return removed.Done?;
  }

  /** `installStagedPlan`: a destination nobody made before, filled from staging, or removed again. */
  method InstallStagedPlan(c: Checkout, plan: Plan, staging: Path, ghost contents: map<Name, Bytes>) returns (r: Effect)
    requires c.Valid() && |plan.parent| == DEPTH - 1 && |staging| == DEPTH
    requires Parent(staging) == plan.parent && staging != Destination(plan)
    requires Holds(c.files, c.dirs, staging, contents)
    modifies c
    ensures c.Valid() && (old(c.fault) ==> c.fault) && (old(c.removalFailed) ==> c.removalFailed)
    ensures var roots := {Destination(plan), staging};
      SameOutside(old(c.files), c.files, roots) && DirsSameOutside(old(c.dirs), c.dirs, roots)
    ensures !Free(old(c.files), old(c.dirs), Destination(plan)) ==> c.files == old(c.files) && !r.Done?
    ensures r.Done? ==> Holds(c.files, c.dirs, Destination(plan), contents) && NothingUnder(c.files, staging)
    ensures !r.Done? && !c.removalFailed && Free(old(c.files), old(c.dirs), Destination(plan)) ==>
      NothingUnder(c.files, Destination(plan))
    ensures !c.fault && Free(old(c.files), old(c.dirs), Destination(plan)) ==> r.Done?
    ensures r.Done? ==> staging !in c.stuck && c.removalFailed == old(c.removalFailed)
    ensures c.steady && Destination(plan) !in c.stuck && staging !in c.stuck ==> c.removalFailed == old(c.removalFailed)
    ensures c.calm && !old(c.removalFailed) && Free(old(c.files), old(c.dirs), Destination(plan)) ==>
      (r.Done? <==> staging !in c.stuck)
    ensures c.steady && !r.Done? && Destination(plan) !in c.stuck ==>
      (Free(old(c.files), old(c.dirs), Destination(plan)) ==> NothingUnder(c.files, Destination(plan)))
  {
    var to := Destination(plan);
    ghost var files0, dirs0 := c.files, c.dirs;
    var made := c.MakeDirectory(to);
    NewDirectoryOutside(dirs0, to);
    if Free(files0, dirs0, to) {
      FreeIsBare(files0, dirs0, to);
    }
    if !made.Done? {
      return Failed;
    }
    HoldsStays(files0, dirs0, c.files, c.dirs, {to}, staging, contents);
    ghost var dirs1 := c.dirs;
    var ok := FillDestination(c, staging, to, contents);
    DirsSameOutsideChains(dirs0, dirs1, c.dirs, {to}, {to, staging});
    assert {to} + {to, staging} == {to, staging};
    if ok {
      return Done;
    }
    UndoInstall(c, to, staging, files0, dirs0);
    return Failed;
  }

  method UndoInstall(c: Checkout, to: Path, staging: Path, ghost files0: Files, ghost dirs0: set<Path>)
    requires c.Valid() && |to| == |staging| == DEPTH && to != staging
    requires SameOutside(files0, c.files, {to, staging}) && DirsSameOutside(dirs0, c.dirs, {to, staging})
    modifies c
    ensures c.Valid() && (old(c.fault) ==> c.fault) && (old(c.removalFailed) ==> c.removalFailed)
    ensures SameOutside(files0, c.files, {to, staging}) && DirsSameOutside(dirs0, c.dirs, {to, staging})
    ensures !c.removalFailed ==> NothingUnder(c.files, to)
    ensures c.steady && to !in c.stuck && staging !in c.stuck ==> c.removalFailed == old(c.removalFailed)
    ensures c.steady && to !in c.stuck ==> NothingUnder(c.files, to)
  {
    ghost var files1, dirs1 := c.files, c.dirs;
    var removed := c.RemoveTree(to);
    SameOutsideChains(files0, files1, c.files, {to, staging}, {to});
    DirsSameOutsideChains(dirs0, dirs1, c.dirs, {to, staging}, {to});
    assert {to, staging} + {to} == {to, staging};
    if removed.Done? {
      ghost var files2, dirs2 := c.files, c.dirs;
      var swept := c.RemoveTree(staging);
      SameOutsideChains(files0, files2, c.files, {to, staging}, {staging});
      DirsSameOutsideChains(dirs0, dirs2, c.dirs, {to, staging}, {staging});
      assert {to, staging} + {staging} == {to, staging};
      NothingStays(files2, c.files, {staging}, to);
    }
  }

  // Several roles at once

  const STAGING_PREFIX: Name :=
    [DOT, 0x70, 0x72, 0x65, 0x76, 0x69, 0x65, 0x77, MINUS, 0x65, 0x76, 0x69, 0x64, 0x65, 0x6E, 0x63, 0x65, MINUS]
  const STAGING_SUFFIX: Name := [DOT, 0x74, 0x6D, 0x70]

  function Staging(plan: Plan, uuid: Name): Path {
    plan.parent + [STAGING_PREFIX + uuid + STAGING_SUFFIX]
  }

  /** Valid plans for different roles, each with its random name. */
  predicate ValidPlans(plans: seq<Plan>, uuids: seq<Name>) {
    && |uuids| == |plans|
    && (forall i :: 0 <= i < |plans| ==> ValidPlan(plans[i]))
    && (forall i, j :: 0 <= i < j < |plans| ==> plans[i].parent != plans[j].parent)
  }

  /** Two roles' directories are in different parents, and no staging name is a SHA. */
  lemma RootsApart(plans: seq<Plan>, uuids: seq<Name>, i: nat, j: nat)
    requires ValidPlans(plans, uuids) && i < |plans| && j < |plans|
    ensures Destination(plans[i]) != Staging(plans[j], uuids[j])
    ensures i != j ==> Destination(plans[i]) != Destination(plans[j])
    ensures i != j ==> Staging(plans[i], uuids[i]) != Staging(plans[j], uuids[j])
    ensures |Destination(plans[i])| == |Staging(plans[i], uuids[i])| == DEPTH
    ensures Parent(Destination(plans[i])) == Parent(Staging(plans[i], uuids[i])) == plans[i].parent
  {
    var a, b := plans[i], plans[j];
    assert ValidPlan(a) && ValidPlan(b);
    assert Parent(Destination(a)) == a.parent && Parent(Staging(a, uuids[i])) == a.parent;
    assert Parent(Destination(b)) == b.parent && Parent(Staging(b, uuids[j])) == b.parent;
    assert a.sha[0] in a.sha && Destination(a)[DEPTH - 1][0] != DOT;
    assert Staging(b, uuids[j])[DEPTH - 1][0] == DOT;
  }

  /** The staging directories of the first new plans. */
  function StagingRoots(plans: seq<Plan>, dirs: set<Path>, uuids: seq<Name>, i: nat): set<Path>
    requires i <= |plans| == |uuids|
  {
    set j | 0 <= j < i && Destination(plans[j]) !in dirs :: Staging(plans[j], uuids[j])
  }

  /** The destinations of the first new plans. */
  function InstallRoots(plans: seq<Plan>, dirs: set<Path>, i: nat): set<Path>
    requires i <= |plans|
  {
    set j | 0 <= j < i && Destination(plans[j]) !in dirs :: Destination(plans[j])
  }

  lemma RootsNext(plans: seq<Plan>, dirs: set<Path>, uuids: seq<Name>, i: nat)
    requires i < |plans| == |uuids|
    ensures Destination(plans[i]) in dirs ==>
      StagingRoots(plans, dirs, uuids, i + 1) == StagingRoots(plans, dirs, uuids, i) &&
      InstallRoots(plans, dirs, i + 1) == InstallRoots(plans, dirs, i)
    ensures Destination(plans[i]) !in dirs ==>
      StagingRoots(plans, dirs, uuids, i + 1) == StagingRoots(plans, dirs, uuids, i) + {Staging(plans[i], uuids[i])} &&
      InstallRoots(plans, dirs, i + 1) == InstallRoots(plans, dirs, i) + {Destination(plans[i])}
  {
  }

  /** The next role's directories are none of the earlier ones. */
  lemma RootsNew(plans: seq<Plan>, dirs: set<Path>, uuids: seq<Name>, i: nat, k: nat)
    requires ValidPlans(plans, uuids) && i <= |plans| && k < |plans|
    ensures Destination(plans[k]) !in StagingRoots(plans, dirs, uuids, i)
    ensures Staging(plans[k], uuids[k]) !in InstallRoots(plans, dirs, i)
    ensures i <= k ==> Staging(plans[k], uuids[k]) !in StagingRoots(plans, dirs, uuids, i)
    ensures i <= k ==> Destination(plans[k]) !in InstallRoots(plans, dirs, i)
  {
    forall j | 0 <= j < |plans|
      ensures Destination(plans[k]) != Staging(plans[j], uuids[j])
      ensures Destination(plans[j]) != Staging(plans[k], uuids[k])
      ensures j != k ==> Staging(plans[k], uuids[k]) != Staging(plans[j], uuids[j])
      ensures j != k ==> Destination(plans[k]) != Destination(plans[j])
    {
      RootsApart(plans, uuids, k, j);
      RootsApart(plans, uuids, j, k);
    }
  }

  lemma FreeStays(files: Files, dirs: set<Path>, after: Files, dirsAfter: set<Path>, roots: set<Path>, o: Path)
    requires |o| == DEPTH && o !in roots && SameOutside(files, after, roots) && DirsSameOutside(dirs, dirsAfter, roots)
    ensures Free(files, dirs, o) <==> Free(after, dirsAfter, o)
  {
    assert o[..DEPTH] == o && !Under(roots, o);
  }

  lemma UnblockedStays(files: Files, after: Files, roots: set<Path>, o: Path)
    requires |o| < DEPTH && SameOutside(files, after, roots)
    ensures Unblocked(files, o) <==> Unblocked(after, o)
  {
    forall k | 0 <= k <= |o| ensures o[..k] in files <==> o[..k] in after {
      assert !Under(roots, o[..k]);
    }
  }

  lemma WiderOutside(a: Files, b: Files, r: set<Path>, s: set<Path>)
    requires SameOutside(a, b, r) && r <= s
    ensures SameOutside(a, b, s)
  {
    forall p | !Under(s, p) ensures !Under(r, p) { }
  }

  /** The destinies found, as the directory tells them. */
  predicate Classified(destinies: seq<Destiny>, plans: seq<Plan>, files: Files, dirs: set<Path>) {
    && |destinies| == |plans|
    && (forall i :: 0 <= i < |plans| ==> (destinies[i].New? <==> Destination(plans[i]) !in dirs))
    && (forall i :: 0 <= i < |plans| ==> Unblocked(files, Destination(plans[i])))
  }

  method ClassifyPlans(c: Checkout, plans: seq<Plan>) returns (r: Option<seq<Destiny>>)
    requires c.Valid()
    modifies c`dead, c`fault
    ensures c.Valid() && (old(c.fault) ==> c.fault)
    ensures r.Some? ==> Classified(r.value, plans, c.files, c.dirs) && Blocked !in r.value
    ensures r.None? && !c.fault ==> exists i :: 0 <= i < |plans| && !Unblocked(c.files, Destination(plans[i]))
  {
    var destinies: seq<Destiny> := [];
    while |destinies| < |plans|
      invariant |destinies| <= |plans| && c.Valid() && (old(c.fault) ==> c.fault)
      invariant Classified(destinies, plans[..|destinies|], c.files, c.dirs) && Blocked !in destinies
    {
      var plan := plans[|destinies|];
      var destiny := ClassifyDestination(c, Destination(plan));
      if destiny.Blocked? {
        return None;
      }
      if destiny.Existing? {
        DirectoryUnblocked(c.files, c.dirs, Destination(plan));
      }
      destinies := destinies + [destiny];
    }
    assert plans[..|destinies|] == plans;
    return Some(destinies);
  }

  /** The first plans of this destiny match what is there. */
  ghost predicate MatchUpTo(codec: Codec, files: Files, dirs: set<Path>, plans: seq<Plan>, destinies: seq<Destiny>,
      wanted: Destiny, i: nat)
    requires i <= |plans| == |destinies|
  {
    forall j :: 0 <= j < i && destinies[j] == wanted ==> Matches(codec, files, dirs, plans[j])
  }

  lemma MatchNext(codec: Codec, files: Files, dirs: set<Path>, plans: seq<Plan>, destinies: seq<Destiny>,
      wanted: Destiny, i: nat)
    requires i < |plans| == |destinies| && MatchUpTo(codec, files, dirs, plans, destinies, wanted, i)
    requires destinies[i] == wanted ==> Matches(codec, files, dirs, plans[i])
    ensures MatchUpTo(codec, files, dirs, plans, destinies, wanted, i + 1)
  {
  }

  lemma MismatchAt(codec: Codec, files: Files, dirs: set<Path>, plans: seq<Plan>, destinies: seq<Destiny>,
      wanted: Destiny, i: nat)
    requires i < |plans| == |destinies| && destinies[i] == wanted && !Matches(codec, files, dirs, plans[i])
    ensures !MatchUpTo(codec, files, dirs, plans, destinies, wanted, |plans|)
  {
  }

  /** Verifies every plan of this destiny, stopping at the first that does not match. */
  method VerifyPlans(c: Checkout, codec: Codec, plans: seq<Plan>, destinies: seq<Destiny>,
      wanted: Destiny) returns (ok: bool)
    requires c.Valid() && |destinies| == |plans| && forall i :: 0 <= i < |plans| ==> ValidPlan(plans[i])
    modifies c`dead, c`fault
    ensures c.Valid() && (old(c.fault) ==> c.fault)
    ensures ok ==> MatchUpTo(codec, c.files, c.dirs, plans, destinies, wanted, |plans|)
    ensures !ok && !c.fault ==> !MatchUpTo(codec, c.files, c.dirs, plans, destinies, wanted, |plans|)
  {
    var i := 0;
    while i < |plans|
      invariant i <= |plans| && c.Valid() && (old(c.fault) ==> c.fault)
      invariant MatchUpTo(codec, c.files, c.dirs, plans, destinies, wanted, i)
    {
      if destinies[i] == wanted {
        ok := VerifyExistingPlan(c, codec, plans[i]);
        if !ok {
          if !c.fault {
            MismatchAt(codec, c.files, c.dirs, plans, destinies, wanted, i);
          }
          return;
        }
      }
      MatchNext(codec, c.files, c.dirs, plans, destinies, wanted, i);
      i := i + 1;
    }
    ok := true;
  }

  /** Since the start only these trees, free then, have changed. */
  ghost predicate Tracked(files0: Files, dirs0: set<Path>, files: Files, dirs: set<Path>, roots: set<Path>) {
    && SameOutside(files0, files, roots)
    && DirsSameOutside(dirs0, dirs, roots)
    && (forall o :: o in roots ==> |o| == DEPTH && Free(files0, dirs0, o))
  }

  lemma TrackedNext(files0: Files, dirs0: set<Path>, files1: Files, dirs1: set<Path>, files: Files, dirs: set<Path>,
      roots: set<Path>, more: set<Path>)
    requires Tracked(files0, dirs0, files1, dirs1, roots)
    requires SameOutside(files1, files, more) && DirsSameOutside(dirs1, dirs, more)
    requires forall o :: o in more ==> |o| == DEPTH && Free(files0, dirs0, o)
    ensures Tracked(files0, dirs0, files, dirs, roots + more)
  {
    SameOutsideChains(files0, files1, files, roots, more);
    DirsSameOutsideChains(dirs0, dirs1, dirs, roots, more);
  }

  /** One plan stands complete in its staging directory. */
  ghost predicate IsStaged(codec: Codec, plan: Plan, uuid: Name, files: Files, dirs: set<Path>) {
    Loadable(codec, plan) && Holds(files, dirs, Staging(plan, uuid), PlanContents(codec, plan))
  }

  /** The first new plans stand complete in their staging directories. */
  ghost predicate StagedUpTo(codec: Codec, plans: seq<Plan>, uuids: seq<Name>, dirs0: set<Path>, files: Files,
      dirs: set<Path>, i: nat)
    requires i <= |plans| == |uuids|
  {
    forall j :: 0 <= j < i && Destination(plans[j]) !in dirs0 ==> IsStaged(codec, plans[j], uuids[j], files, dirs)
  }

  lemma StagedStays(codec: Codec, plan: Plan, uuid: Name, files: Files, dirs: set<Path>, after: Files,
      dirsAfter: set<Path>, roots: set<Path>)
    requires |Staging(plan, uuid)| == DEPTH && Staging(plan, uuid) !in roots
    requires SameOutside(files, after, roots) && DirsSameOutside(dirs, dirsAfter, roots)
    requires IsStaged(codec, plan, uuid, files, dirs)
    ensures IsStaged(codec, plan, uuid, after, dirsAfter)
  {
    HoldsStays(files, dirs, after, dirsAfter, roots, Staging(plan, uuid), PlanContents(codec, plan));
  }

  /** The first plans' staging directories are deep enough and in none of these trees. */
  ghost predicate StagingsOutside(plans: seq<Plan>, uuids: seq<Name>, i: nat, roots: set<Path>)
    requires i <= |plans| == |uuids|
  {
    forall j :: 0 <= j < i ==> |Staging(plans[j], uuids[j])| == DEPTH && Staging(plans[j], uuids[j]) !in roots
  }

  lemma StagingsApart(plans: seq<Plan>, uuids: seq<Name>, k: nat)
    requires ValidPlans(plans, uuids) && k < |plans|
    ensures StagingsOutside(plans, uuids, k, {Staging(plans[k], uuids[k])})
  {
    forall j | 0 <= j < k
      ensures |Staging(plans[j], uuids[j])| == DEPTH && Staging(plans[j], uuids[j]) != Staging(plans[k], uuids[k])
    {
      RootsApart(plans, uuids, j, k);
    }
  }

  lemma StagedUpToStays(codec: Codec, plans: seq<Plan>, uuids: seq<Name>, dirs0: set<Path>, files: Files,
      dirs: set<Path>, after: Files, dirsAfter: set<Path>, roots: set<Path>, i: nat)
    requires i <= |plans| == |uuids| && StagingsOutside(plans, uuids, i, roots)
    requires StagedUpTo(codec, plans, uuids, dirs0, files, dirs, i)
    requires SameOutside(files, after, roots) && DirsSameOutside(dirs, dirsAfter, roots)
    ensures StagedUpTo(codec, plans, uuids, dirs0, after, dirsAfter, i)
  {
    forall j | 0 <= j < i && Destination(plans[j]) !in dirs0
      ensures IsStaged(codec, plans[j], uuids[j], after, dirsAfter)
    {
      StagedStays(codec, plans[j], uuids[j], files, dirs, after, dirsAfter, roots);
    }
  }

  /** This role can be staged: nothing is in the way and its share will be accepted. */
  predicate CanStage(codec: Codec, plan: Plan, uuid: Name, files: Files, dirs: set<Path>) {
    Loadable(codec, plan) && Unblocked(files, plan.parent) && Free(files, dirs, Staging(plan, uuid))
  }

  /** Every new role among the first can be staged. */
  predicate CanStageUpTo(codec: Codec, plans: seq<Plan>, uuids: seq<Name>, files: Files, dirs: set<Path>, i: nat)
    requires i <= |plans| == |uuids|
  {
    i > 0 ==>
      && CanStageUpTo(codec, plans, uuids, files, dirs, i - 1)
      && (Destination(plans[i - 1]) !in dirs ==> CanStage(codec, plans[i - 1], uuids[i - 1], files, dirs))
  }

  lemma {:induction false} CanStageEach(codec: Codec, plans: seq<Plan>, uuids: seq<Name>, files: Files,
      dirs: set<Path>, i: nat, k: nat)
    requires k < i <= |plans| == |uuids| && CanStageUpTo(codec, plans, uuids, files, dirs, i)
    requires Destination(plans[k]) !in dirs
    ensures CanStage(codec, plans[k], uuids[k], files, dirs)
  {
    if k < i - 1 {
      CanStageEach(codec, plans, uuids, files, dirs, i - 1, k);
    }
  }

  /** Stages one more role on top of what is tracked. */
  method StageNext(c: Checkout, codec: Codec, plan: Plan, uuid: Name, ghost files0: Files, ghost dirs0: set<Path>,
      ghost roots: set<Path>)
    returns (r: Effect, ghost now: set<Path>)
    requires c.Valid() && ValidPlan(plan)
    requires Tracked(files0, dirs0, c.files, c.dirs, roots) && Staging(plan, uuid) !in roots
    modifies c
    ensures c.Valid() && (old(c.fault) ==> c.fault) && (old(c.removalFailed) ==> c.removalFailed)
    ensures SameOutside(files0, c.files, now) && roots <= now
    ensures forall o :: o in now ==> |o| == DEPTH && Free(files0, dirs0, o)
    ensures r.Done? ==> now == roots + {Staging(plan, uuid)} && Tracked(files0, dirs0, c.files, c.dirs, now)
    ensures r.Done? ==> IsStaged(codec, plan, uuid, c.files, c.dirs)
    ensures SameOutside(old(c.files), c.files, {Staging(plan, uuid)})
    ensures DirsSameOutside(old(c.dirs), c.dirs, {Staging(plan, uuid)})
    ensures !r.Done? && !c.removalFailed ==> now == roots
    ensures !c.fault && CanStage(codec, plan, uuid, files0, dirs0) ==> r.Done?
    ensures c.steady && Staging(plan, uuid) !in c.stuck ==> c.removalFailed == old(c.removalFailed)
    ensures c.calm && !old(c.removalFailed) && CanStage(codec, plan, uuid, files0, dirs0) ==>
      r.Done? && !c.removalFailed
  {
    var staging := Staging(plan, uuid);
    assert |staging| == DEPTH && Parent(staging) == plan.parent;
    ghost var files1, dirs1 := c.files, c.dirs;
    StillPossible(codec, plan, uuid, files0, dirs0, files1, dirs1, roots);
    r := StagePlan(c, codec, plan, staging, CanStage(codec, plan, uuid, files0, dirs0));
    now := NowTracked(files0, dirs0, roots, staging, r.Done? || c.removalFailed);
    NowFree(files0, dirs0, files1, dirs1, c.files, c.dirs, roots, staging, r.Done?, c.removalFailed);
  }

  /** What was tracked does not stand in the way of the next role. */
  lemma StillPossible(codec: Codec, plan: Plan, uuid: Name, files0: Files, dirs0: set<Path>, files: Files,
      dirs: set<Path>, roots: set<Path>)
    requires ValidPlan(plan) && Tracked(files0, dirs0, files, dirs, roots) && Staging(plan, uuid) !in roots
    ensures Free(files0, dirs0, Staging(plan, uuid)) <==> Free(files, dirs, Staging(plan, uuid))
    ensures CanStage(codec, plan, uuid, files0, dirs0) ==>
      Unblocked(files, plan.parent) && Free(files, dirs, Staging(plan, uuid)) && Loadable(codec, plan)
  {
    assert |Staging(plan, uuid)| == DEPTH;
    FreeStays(files0, dirs0, files, dirs, roots, Staging(plan, uuid));
    UnblockedStays(files0, files, roots, plan.parent);
  }

  /** The trees to keep track of once staging was tried. */
  ghost function NowTracked(files0: Files, dirs0: set<Path>, roots: set<Path>, staging: Path, left: bool): set<Path> {
    if Free(files0, dirs0, staging) && left then roots + {staging} else roots
  }

  lemma NowFree(files0: Files, dirs0: set<Path>, files1: Files, dirs1: set<Path>, files: Files, dirs: set<Path>,
      roots: set<Path>, staging: Path, done: bool, failed: bool)
    requires Tracked(files0, dirs0, files1, dirs1, roots) && |staging| == DEPTH
    requires SameOutside(files1, files, {staging}) && DirsSameOutside(dirs1, dirs, {staging})
    requires !Free(files0, dirs0, staging) ==> files == files1 && !done
    requires !done && !failed ==> files == files1
    ensures var now := NowTracked(files0, dirs0, roots, staging, done || failed);
      && SameOutside(files0, files, now) && roots <= now
      && (forall o :: o in now ==> |o| == DEPTH && Free(files0, dirs0, o))
      && (done ==> now == roots + {staging} && Tracked(files0, dirs0, files, dirs, now))
  {
    if Free(files0, dirs0, staging) {
      TrackedNext(files0, dirs0, files1, dirs1, files, dirs, roots, {staging});
    }
  }

  /** Staging has reached plan `i`: exactly its trees have appeared since the start. */
  ghost predicate StagingReached(codec: Codec, plans: seq<Plan>, uuids: seq<Name>, files0: Files, dirs0: set<Path>,
      files: Files, dirs: set<Path>, roots: set<Path>, i: nat)
    requires i <= |plans| == |uuids|
  {
    && roots == StagingRoots(plans, dirs0, uuids, i)
    && Tracked(files0, dirs0, files, dirs, roots)
    && StagedUpTo(codec, plans, uuids, dirs0, files, dirs, i)
  }

  /** After a failure: what may have changed, and that nothing but the staged trees is left. */
  ghost predicate StagingFailed(files0: Files, dirs0: set<Path>, files: Files, staged: set<Path>, roots: set<Path>,
      swept: bool) {
    && SameOutside(files0, files, roots)
    && (forall o :: o in roots ==> |o| == DEPTH && Free(files0, dirs0, o))
    && staged <= roots
    && (swept ==> staged == roots)
  }

  lemma StagingAdvances(codec: Codec, plans: seq<Plan>, uuids: seq<Name>, files0: Files, dirs0: set<Path>,
      files1: Files, dirs1: set<Path>, files: Files, dirs: set<Path>, before: set<Path>, i: nat)
    requires ValidPlans(plans, uuids) && i < |plans| && Destination(plans[i]) !in dirs0
    requires StagingReached(codec, plans, uuids, files0, dirs0, files1, dirs1, before, i)
    requires Tracked(files0, dirs0, files, dirs, before + {Staging(plans[i], uuids[i])})
    requires SameOutside(files1, files, {Staging(plans[i], uuids[i])})
    requires DirsSameOutside(dirs1, dirs, {Staging(plans[i], uuids[i])})
    requires IsStaged(codec, plans[i], uuids[i], files, dirs)
    ensures StagingReached(codec, plans, uuids, files0, dirs0, files, dirs, before + {Staging(plans[i], uuids[i])},
      i + 1)
  {
    StagingsApart(plans, uuids, i);
    StagedUpToStays(codec, plans, uuids, dirs0, files1, dirs1, files, dirs, {Staging(plans[i], uuids[i])}, i);
    RootsNext(plans, dirs0, uuids, i);
  }

  /** Of the first new plans, neither staging directory nor destination is stuck. */
  ghost predicate Loose(plans: seq<Plan>, uuids: seq<Name>, dirs0: set<Path>, stuck: set<Path>, i: nat)
    requires i <= |plans| == |uuids|
  {
    i > 0 ==>
      && Loose(plans, uuids, dirs0, stuck, i - 1)
      && (Destination(plans[i - 1]) !in dirs0 ==>
            Staging(plans[i - 1], uuids[i - 1]) !in stuck && Destination(plans[i - 1]) !in stuck)
  }

  lemma {:induction false} LooseEach(plans: seq<Plan>, uuids: seq<Name>, dirs0: set<Path>, stuck: set<Path>, i: nat,
      k: nat)
    requires k < i <= |plans| == |uuids| && Loose(plans, uuids, dirs0, stuck, i) && Destination(plans[k]) !in dirs0
    ensures Staging(plans[k], uuids[k]) !in stuck && Destination(plans[k]) !in stuck
  {
    if k < i - 1 {
      LooseEach(plans, uuids, dirs0, stuck, i - 1, k);
    }
  }

  /** The trees of the run are not stuck exactly when those of no new plan are. */
  lemma {:induction false} LooseIff(plans: seq<Plan>, uuids: seq<Name>, dirs0: set<Path>, stuck: set<Path>, i: nat)
    requires i <= |plans| == |uuids|
    ensures Loose(plans, uuids, dirs0, stuck, i) <==>
      stuck !! StagingRoots(plans, dirs0, uuids, i) && stuck !! InstallRoots(plans, dirs0, i)
  {
    if i > 0 {
      LooseIff(plans, uuids, dirs0, stuck, i - 1);
      RootsNext(plans, dirs0, uuids, i - 1);
    }
  }

  lemma LooseTrees(plans: seq<Plan>, uuids: seq<Name>, dirs0: set<Path>, stuck: set<Path>)
    requires |plans| == |uuids|
    ensures Loose(plans, uuids, dirs0, stuck, |plans|) <==> stuck !! AllRoots(plans, dirs0, uuids)
  {
    LooseIff(plans, uuids, dirs0, stuck, |plans|);
  }

  /** Trees of the run, then, can all be removed. */
  lemma LooseSome(plans: seq<Plan>, uuids: seq<Name>, dirs0: set<Path>, stuck: set<Path>, trees: set<Path>)
    requires |plans| == |uuids| && trees <= AllRoots(plans, dirs0, uuids)
    requires Loose(plans, uuids, dirs0, stuck, |plans|)
    ensures trees * stuck == {}
  {
    LooseTrees(plans, uuids, dirs0, stuck);
  }

  /** The staging directories so far are among the trees of the run. */
  lemma StagingsAmongAll(plans: seq<Plan>, dirs: set<Path>, uuids: seq<Name>, i: nat)
    requires i <= |plans| == |uuids|
    ensures StagingRoots(plans, dirs, uuids, i) <= AllRoots(plans, dirs, uuids)
  {
  }

  /** What the whole promises, this role can rely on. */
  lemma StageEach(codec: Codec, plans: seq<Plan>, uuids: seq<Name>, files0: Files, dirs0: set<Path>, stuck: set<Path>,
      able: bool, i: nat)
    requires i < |plans| == |uuids|
    requires able ==> CanStageUpTo(codec, plans, uuids, files0, dirs0, |plans|)
    ensures StagingRoots(plans, dirs0, uuids, i) <= AllRoots(plans, dirs0, uuids)
    ensures able && Destination(plans[i]) !in dirs0 ==> CanStage(codec, plans[i], uuids[i], files0, dirs0)
    ensures Loose(plans, uuids, dirs0, stuck, |plans|) && Destination(plans[i]) !in dirs0 ==>
      Staging(plans[i], uuids[i]) !in stuck
  {
    StagingsAmongAll(plans, dirs0, uuids, i);
    if able && Destination(plans[i]) !in dirs0 {
      CanStageEach(codec, plans, uuids, files0, dirs0, |plans|, i);
    }
    if Loose(plans, uuids, dirs0, stuck, |plans|) && Destination(plans[i]) !in dirs0 {
      LooseEach(plans, uuids, dirs0, stuck, |plans|, i);
    }
  }

  /** One turn of the staging loop. */
  method StageAt(c: Checkout, codec: Codec, plans: seq<Plan>, destinies: seq<Destiny>, uuids: seq<Name>, i: nat,
      before: set<Path>, ghost files0: Files, ghost dirs0: set<Path>, ghost able: bool)
    returns (ok: bool, staged: set<Path>, ghost roots: set<Path>)
    requires c.Valid() && ValidPlans(plans, uuids) && i < |plans| == |destinies|
    requires destinies[i].New? <==> Destination(plans[i]) !in dirs0
    requires StagingReached(codec, plans, uuids, files0, dirs0, c.files, c.dirs, before, i)
    requires able && destinies[i].New? ==> CanStage(codec, plans[i], uuids[i], files0, dirs0)
    modifies c
    ensures c.Valid() && (old(c.fault) ==> c.fault) && (old(c.removalFailed) ==> c.removalFailed)
    ensures ok ==> StagingReached(codec, plans, uuids, files0, dirs0, c.files, c.dirs, staged, i + 1)
    ensures !ok ==> StagingFailed(files0, dirs0, c.files, staged, roots, !c.removalFailed)
    ensures !c.fault && able ==> ok
    ensures !ok ==> destinies[i].New? && staged == before
    ensures ok ==> staged == before + if destinies[i].New? then {Staging(plans[i], uuids[i])} else {}
    ensures c.steady && (destinies[i].New? ==> Staging(plans[i], uuids[i]) !in c.stuck) ==>
      c.removalFailed == old(c.removalFailed)
    ensures c.calm && !old(c.removalFailed) && able ==> ok && !c.removalFailed
  {
    staged, roots := before, {};
    if !destinies[i].New? {
      RootsNext(plans, dirs0, uuids, i);
      return true, staged, roots;
    }
    RootsNew(plans, dirs0, uuids, i, i);
    RootsNext(plans, dirs0, uuids, i);
    ghost var files1, dirs1 := c.files, c.dirs;
    var done;
    done, roots := StageNext(c, codec, plans[i], uuids[i], files0, dirs0, before);
    ok := done.Done?;
    if ok {
      staged := before + {Staging(plans[i], uuids[i])};
      StagingAdvances(codec, plans, uuids, files0, dirs0, files1, dirs1, c.files, c.dirs, before, i);
    }
  }

  /** The same, with what the whole promises. */
  method StageTurn(c: Checkout, codec: Codec, plans: seq<Plan>, destinies: seq<Destiny>, uuids: seq<Name>, i: nat,
      before: set<Path>, ghost files0: Files, ghost dirs0: set<Path>, ghost able: bool)
    returns (ok: bool, staged: set<Path>, ghost roots: set<Path>)
    requires c.Valid() && ValidPlans(plans, uuids) && i < |plans| == |destinies|
    requires destinies[i].New? <==> Destination(plans[i]) !in dirs0
    requires StagingReached(codec, plans, uuids, files0, dirs0, c.files, c.dirs, before, i)
    requires able ==> CanStageUpTo(codec, plans, uuids, files0, dirs0, |plans|)
    modifies c
    ensures c.Valid() && (old(c.fault) ==> c.fault) && (old(c.removalFailed) ==> c.removalFailed)
    ensures ok ==> StagingReached(codec, plans, uuids, files0, dirs0, c.files, c.dirs, staged, i + 1)
    ensures !ok ==> StagingFailed(files0, dirs0, c.files, staged, roots, !c.removalFailed)
    ensures !ok ==> staged <= AllRoots(plans, dirs0, uuids)
    ensures !c.fault && able ==> ok
    ensures c.steady && Loose(plans, uuids, dirs0, c.stuck, |plans|) ==> c.removalFailed == old(c.removalFailed)
    ensures c.calm && !old(c.removalFailed) && able ==> ok && !c.removalFailed
  {
    StageEach(codec, plans, uuids, files0, dirs0, c.stuck, able, i);
    ok, staged, roots := StageAt(c, codec, plans, destinies, uuids, i, before, files0, dirs0, able);
  }

  lemma StagingStarts(codec: Codec, plans: seq<Plan>, uuids: seq<Name>, files: Files, dirs: set<Path>)
    requires |plans| == |uuids|
    ensures StagingReached(codec, plans, uuids, files, dirs, files, dirs, {}, 0)
  {
  }

  method StagePlans(c: Checkout, codec: Codec, plans: seq<Plan>, destinies: seq<Destiny>, uuids: seq<Name>,
      ghost able: bool)
    returns (ok: bool, staged: set<Path>, ghost roots: set<Path>)
    requires c.Valid() && ValidPlans(plans, uuids) && |destinies| == |plans|
    requires forall i :: 0 <= i < |plans| ==> (destinies[i].New? <==> Destination(plans[i]) !in c.dirs)
    requires able ==> CanStageUpTo(codec, plans, uuids, c.files, c.dirs, |plans|)
    modifies c
    ensures c.Valid() && (old(c.fault) ==> c.fault) && (old(c.removalFailed) ==> c.removalFailed)
    ensures ok ==> StagingReached(codec, plans, uuids, old(c.files), old(c.dirs), c.files, c.dirs, staged, |plans|)
    ensures !ok ==> StagingFailed(old(c.files), old(c.dirs), c.files, staged, roots, !c.removalFailed)
    ensures !ok ==> staged <= AllRoots(plans, old(c.dirs), uuids)
    ensures !c.fault && able ==> ok
    ensures c.steady && Loose(plans, uuids, old(c.dirs), c.stuck, |plans|) ==> c.removalFailed == old(c.removalFailed)
    ensures c.calm && !old(c.removalFailed) && able ==> ok && !c.removalFailed
  {
    ghost var files0, dirs0 := c.files, c.dirs;
    StagingStarts(codec, plans, uuids, files0, dirs0);
    staged, roots := {}, {};
    ok := true;
    var i := 0;
    while i < |plans|
      invariant i <= |plans| && c.Valid() && (old(c.fault) ==> c.fault) && (old(c.removalFailed) ==> c.removalFailed)
      invariant ok && StagingReached(codec, plans, uuids, files0, dirs0, c.files, c.dirs, staged, i)
      invariant c.steady && Loose(plans, uuids, dirs0, c.stuck, |plans|) ==> c.removalFailed == old(c.removalFailed)
      invariant c.calm && !old(c.removalFailed) && able ==> !c.removalFailed
    {
      ok, staged, roots := StageTurn(c, codec, plans, destinies, uuids, i, staged, files0, dirs0, able);
      if !ok {
        return;
      }
      i := i + 1;
    }
  }

  /** How far one plan has come in the installing loop. */
  ghost predicate InstallState(codec: Codec, plan: Plan, uuid: Name, files: Files, dirs: set<Path>,
      staged: set<Path>, installed: set<Path>, done: bool) {
    if done then
      && Holds(files, dirs, Destination(plan), PlanContents(codec, plan))
      && NothingUnder(files, Staging(plan, uuid))
      && Destination(plan) in installed
    else
      && Holds(files, dirs, Staging(plan, uuid), PlanContents(codec, plan))
      && Staging(plan, uuid) in staged
      && Free(files, dirs, Destination(plan))
  }

  lemma InstallStateStays(codec: Codec, plan: Plan, uuid: Name, files: Files, dirs: set<Path>, after: Files,
      dirsAfter: set<Path>, roots: set<Path>, staged: set<Path>, installed: set<Path>, stagedAfter: set<Path>,
      installedAfter: set<Path>, done: bool)
    requires |plan.parent| == DEPTH - 1
    requires SameOutside(files, after, roots) && DirsSameOutside(dirs, dirsAfter, roots)
    requires Destination(plan) !in roots && Staging(plan, uuid) !in roots
    requires installed <= installedAfter && (Staging(plan, uuid) in staged ==> Staging(plan, uuid) in stagedAfter)
    requires InstallState(codec, plan, uuid, files, dirs, staged, installed, done)
    ensures InstallState(codec, plan, uuid, after, dirsAfter, stagedAfter, installedAfter, done)
  {
    if done {
      HoldsStays(files, dirs, after, dirsAfter, roots, Destination(plan), PlanContents(codec, plan));
      NothingStays(files, after, roots, Staging(plan, uuid));
    } else {
      HoldsStays(files, dirs, after, dirsAfter, roots, Staging(plan, uuid), PlanContents(codec, plan));
      FreeStays(files, dirs, after, dirsAfter, roots, Destination(plan));
    }
  }

  /** Installing has reached plan `i`; `dirs0` are the directories before anything was made. */
  ghost predicate InstallReached(codec: Codec, plans: seq<Plan>, uuids: seq<Name>, dirs0: set<Path>, files: Files,
      dirs: set<Path>, staged: set<Path>, installed: set<Path>, i: nat)
    requires |plans| == |uuids|
  {
    forall j :: 0 <= j < |plans| && Destination(plans[j]) !in dirs0 ==>
      InstallState(codec, plans[j], uuids[j], files, dirs, staged, installed, j < i)
  }

  /** All the trees this run may make. */
  function AllRoots(plans: seq<Plan>, dirs: set<Path>, uuids: seq<Name>): set<Path>
    requires |plans| == |uuids|
  {
    StagingRoots(plans, dirs, uuids, |plans|) + InstallRoots(plans, dirs, |plans|)
  }

  ghost predicate InstallChanges(plans: seq<Plan>, uuids: seq<Name>, dirs0: set<Path>, files1: Files, dirs1: set<Path>,
      files: Files, dirs: set<Path>, staged: set<Path>, installed: set<Path>)
    requires |plans| == |uuids|
  {
    && SameOutside(files1, files, AllRoots(plans, dirs0, uuids))
    && DirsSameOutside(dirs1, dirs, AllRoots(plans, dirs0, uuids))
    && staged <= StagingRoots(plans, dirs0, uuids, |plans|)
    && installed <= InstallRoots(plans, dirs0, |plans|)
  }

  /** What one plan may have left behind is in the lists rollback goes through. */
  ghost predicate Accounted(plan: Plan, uuid: Name, files: Files, staged: set<Path>, installed: set<Path>) {
    && (Staging(plan, uuid) in staged || NothingUnder(files, Staging(plan, uuid)))
    && (Destination(plan) in installed || NothingUnder(files, Destination(plan)))
  }

  ghost predicate AllAccounted(plans: seq<Plan>, uuids: seq<Name>, dirs0: set<Path>, files: Files,
      staged: set<Path>, installed: set<Path>)
    requires |plans| == |uuids|
  {
    forall j :: 0 <= j < |plans| && Destination(plans[j]) !in dirs0 ==>
      Accounted(plans[j], uuids[j], files, staged, installed)
  }

  lemma StateAccounted(codec: Codec, plan: Plan, uuid: Name, files: Files, dirs: set<Path>, staged: set<Path>,
      installed: set<Path>, done: bool)
    requires WellFormed(files, dirs) && InstallState(codec, plan, uuid, files, dirs, staged, installed, done)
    ensures Accounted(plan, uuid, files, staged, installed)
  {
    if !done {
      FreeIsBare(files, dirs, Destination(plan));
    }
  }

  lemma ReachedAccounted(codec: Codec, plans: seq<Plan>, uuids: seq<Name>, dirs0: set<Path>, files: Files,
      dirs: set<Path>, staged: set<Path>, installed: set<Path>, i: nat)
    requires |plans| == |uuids| && WellFormed(files, dirs)
    requires InstallReached(codec, plans, uuids, dirs0, files, dirs, staged, installed, i)
    ensures AllAccounted(plans, uuids, dirs0, files, staged, installed)
  {
    forall j | 0 <= j < |plans| && Destination(plans[j]) !in dirs0
      ensures Accounted(plans[j], uuids[j], files, staged, installed)
    {
      StateAccounted(codec, plans[j], uuids[j], files, dirs, staged, installed, j < i);
    }
  }

  /** Two plans' directories are four. */
  lemma OthersApart(plans: seq<Plan>, uuids: seq<Name>, i: nat, j: nat)
    requires ValidPlans(plans, uuids) && i < |plans| && j < |plans| && i != j
    ensures var roots := {Destination(plans[i]), Staging(plans[i], uuids[i])};
      Destination(plans[j]) !in roots && Staging(plans[j], uuids[j]) !in roots
    ensures |plans[j].parent| == DEPTH - 1
  {
    RootsApart(plans, uuids, i, j);
    RootsApart(plans, uuids, j, i);
  }

  lemma InstallAdvances(codec: Codec, plans: seq<Plan>, uuids: seq<Name>, dirs0: set<Path>, files: Files,
      dirs: set<Path>, after: Files, dirsAfter: set<Path>, staged: set<Path>, installed: set<Path>, i: nat)
    requires ValidPlans(plans, uuids) && i < |plans|
    requires InstallReached(codec, plans, uuids, dirs0, files, dirs, staged, installed, i)
    requires SameOutside(files, after, {Destination(plans[i]), Staging(plans[i], uuids[i])})
    requires DirsSameOutside(dirs, dirsAfter, {Destination(plans[i]), Staging(plans[i], uuids[i])})
    requires Holds(after, dirsAfter, Destination(plans[i]), PlanContents(codec, plans[i]))
    requires NothingUnder(after, Staging(plans[i], uuids[i]))
    ensures InstallReached(codec, plans, uuids, dirs0, after, dirsAfter, staged - {Staging(plans[i], uuids[i])},
      installed + {Destination(plans[i])}, i + 1)
  {
    var stagedAfter, installedAfter := staged - {Staging(plans[i], uuids[i])}, installed + {Destination(plans[i])};
    forall j | 0 <= j < |plans| && Destination(plans[j]) !in dirs0
      ensures InstallState(codec, plans[j], uuids[j], after, dirsAfter, stagedAfter, installedAfter, j < i + 1)
    {
      if j != i {
        OthersApart(plans, uuids, i, j);
        InstallStateStays(codec, plans[j], uuids[j], files, dirs, after, dirsAfter,
          {Destination(plans[i]), Staging(plans[i], uuids[i])}, staged, installed, stagedAfter, installedAfter, j < i);
      }
    }
  }

  lemma InstallStopped(codec: Codec, plans: seq<Plan>, uuids: seq<Name>, dirs0: set<Path>, files: Files,
      dirs: set<Path>, after: Files, staged: set<Path>, installed: set<Path>, i: nat)
    requires ValidPlans(plans, uuids) && i < |plans| && Destination(plans[i]) !in dirs0 && WellFormed(files, dirs)
    requires InstallReached(codec, plans, uuids, dirs0, files, dirs, staged, installed, i)
    requires SameOutside(files, after, {Destination(plans[i]), Staging(plans[i], uuids[i])})
    requires NothingUnder(after, Destination(plans[i]))
    ensures AllAccounted(plans, uuids, dirs0, after, staged, installed)
  {
    ReachedAccounted(codec, plans, uuids, dirs0, files, dirs, staged, installed, i);
    forall j | 0 <= j < |plans| && Destination(plans[j]) !in dirs0
      ensures Accounted(plans[j], uuids[j], after, staged, installed)
    {
      if j != i {
        OthersApart(plans, uuids, i, j);
        assert Accounted(plans[j], uuids[j], files, staged, installed);
        NothingStays(files, after, {Destination(plans[i]), Staging(plans[i], uuids[i])}, Staging(plans[j], uuids[j]));
        NothingStays(files, after, {Destination(plans[i]), Staging(plans[i], uuids[i])}, Destination(plans[j]));
      } else {
        assert InstallState(codec, plans[i], uuids[i], files, dirs, staged, installed, false);
      }
    }
  }

  lemma ChangesGrow(plans: seq<Plan>, uuids: seq<Name>, dirs0: set<Path>, files1: Files, dirs1: set<Path>,
      files2: Files, dirs2: set<Path>, files: Files, dirs: set<Path>, staged: set<Path>, installed: set<Path>, i: nat)
    requires |plans| == |uuids| && i < |plans| && Destination(plans[i]) !in dirs0
    requires InstallChanges(plans, uuids, dirs0, files1, dirs1, files2, dirs2, staged, installed)
    requires SameOutside(files2, files, {Destination(plans[i]), Staging(plans[i], uuids[i])})
    requires DirsSameOutside(dirs2, dirs, {Destination(plans[i]), Staging(plans[i], uuids[i])})
    ensures InstallChanges(plans, uuids, dirs0, files1, dirs1, files, dirs, staged, installed)
    ensures InstallChanges(plans, uuids, dirs0, files1, dirs1, files, dirs, staged - {Staging(plans[i], uuids[i])},
      installed + {Destination(plans[i])})
  {
    var all, two := AllRoots(plans, dirs0, uuids), {Destination(plans[i]), Staging(plans[i], uuids[i])};
    assert Destination(plans[i]) in all && Staging(plans[i], uuids[i]) in all;
    assert all + two == all;
    SameOutsideChains(files1, files2, files, all, two);
    DirsSameOutsideChains(dirs1, dirs2, dirs, all, two);
  }

  /** The destinations of the first new plans stand whole. */
  ghost predicate PlacedBefore(codec: Codec, plans: seq<Plan>, dirs0: set<Path>, files: Files, dirs: set<Path>, k: nat)
    requires k <= |plans|
  {
    k > 0 ==>
      && PlacedBefore(codec, plans, dirs0, files, dirs, k - 1)
      && (Destination(plans[k - 1]) !in dirs0 ==>
            Holds(files, dirs, Destination(plans[k - 1]), PlanContents(codec, plans[k - 1])))
  }

  lemma {:induction false} PlacedEach(codec: Codec, plans: seq<Plan>, dirs0: set<Path>, files: Files, dirs: set<Path>,
      k: nat, j: nat)
    requires j < k <= |plans| && PlacedBefore(codec, plans, dirs0, files, dirs, k) && Destination(plans[j]) !in dirs0
    ensures Holds(files, dirs, Destination(plans[j]), PlanContents(codec, plans[j]))
  {
    if j < k - 1 {
      PlacedEach(codec, plans, dirs0, files, dirs, k - 1, j);
    }
  }

  /** What one plan does to its own trees leaves the earlier destinations whole. */
  lemma {:induction false} PlacedStays(codec: Codec, plans: seq<Plan>, uuids: seq<Name>, dirs0: set<Path>, files: Files,
      dirs: set<Path>, after: Files, dirsAfter: set<Path>, staged: set<Path>, installed: set<Path>, i: nat, k: nat)
    requires ValidPlans(plans, uuids) && k <= i < |plans|
    requires InstallReached(codec, plans, uuids, dirs0, files, dirs, staged, installed, i)
    requires SameOutside(files, after, {Destination(plans[i]), Staging(plans[i], uuids[i])})
    requires DirsSameOutside(dirs, dirsAfter, {Destination(plans[i]), Staging(plans[i], uuids[i])})
    ensures PlacedBefore(codec, plans, dirs0, after, dirsAfter, k)
  {
    if k > 0 {
      var j := k - 1;
      PlacedStays(codec, plans, uuids, dirs0, files, dirs, after, dirsAfter, staged, installed, i, j);
      if Destination(plans[j]) !in dirs0 {
        assert InstallState(codec, plans[j], uuids[j], files, dirs, staged, installed, true);
        OthersApart(plans, uuids, i, j);
        RootsApart(plans, uuids, j, j);
        HoldsStays(files, dirs, after, dirsAfter, {Destination(plans[i]), Staging(plans[i], uuids[i])},
          Destination(plans[j]), PlanContents(codec, plans[j]));
      }
    }
  }

  /** Each of the first new plans has a staging directory that may be removed. */
  ghost predicate NoneStuck(plans: seq<Plan>, uuids: seq<Name>, dirs0: set<Path>, stuck: set<Path>, i: nat)
    requires i <= |plans| == |uuids|
  {
    i > 0 ==>
      && NoneStuck(plans, uuids, dirs0, stuck, i - 1)
      && (Destination(plans[i - 1]) !in dirs0 ==> Staging(plans[i - 1], uuids[i - 1]) !in stuck)
  }

  lemma {:induction false} NoneStuckEach(plans: seq<Plan>, uuids: seq<Name>, dirs0: set<Path>, stuck: set<Path>,
      i: nat, k: nat)
    requires k < i <= |plans| == |uuids| && NoneStuck(plans, uuids, dirs0, stuck, i)
    requires Destination(plans[k]) !in dirs0
    ensures Staging(plans[k], uuids[k]) !in stuck
  {
    if k < i - 1 {
      NoneStuckEach(plans, uuids, dirs0, stuck, i - 1, k);
    }
  }

  /** The first new plan whose staging directory may not be removed. */
  ghost predicate FirstStuck(plans: seq<Plan>, uuids: seq<Name>, dirs0: set<Path>, stuck: set<Path>, k: nat)
    requires |plans| == |uuids|
  {
    && k < |plans| && Destination(plans[k]) !in dirs0 && Staging(plans[k], uuids[k]) in stuck
    && NoneStuck(plans, uuids, dirs0, stuck, k)
  }

  /** The roles before this one are published whole, and of this one nothing is. */
  ghost predicate HalfDone(codec: Codec, plans: seq<Plan>, dirs0: set<Path>, files: Files, dirs: set<Path>,
      stuck: set<Path>, k: nat)
    requires k < |plans|
  {
    && PlacedBefore(codec, plans, dirs0, files, dirs, k)
    && (Destination(plans[k]) !in stuck ==> NothingUnder(files, Destination(plans[k])))
  }

  /** Half of the publication stands, up to the first plan whose staging directory is stuck. */
  ghost predicate Halved(codec: Codec, plans: seq<Plan>, uuids: seq<Name>, dirs0: set<Path>, files: Files,
      dirs: set<Path>, stuck: set<Path>, i: nat)
    requires i <= |plans| == |uuids|
  {
    i > 0 ==>
      && Halved(codec, plans, uuids, dirs0, files, dirs, stuck, i - 1)
      && (FirstStuck(plans, uuids, dirs0, stuck, i - 1) ==> HalfDone(codec, plans, dirs0, files, dirs, stuck, i - 1))
  }

  lemma {:induction false} HalvedAt(codec: Codec, plans: seq<Plan>, uuids: seq<Name>, dirs0: set<Path>, files: Files,
      dirs: set<Path>, stuck: set<Path>, i: nat, k: nat)
    requires k < i <= |plans| == |uuids| && Halved(codec, plans, uuids, dirs0, files, dirs, stuck, i)
    requires FirstStuck(plans, uuids, dirs0, stuck, k)
    ensures HalfDone(codec, plans, dirs0, files, dirs, stuck, k)
  {
    if k < i - 1 {
      HalvedAt(codec, plans, uuids, dirs0, files, dirs, stuck, i - 1, k);
    }
  }

  /** No staging directory is stuck, so there is no half to speak of. */
  lemma {:induction false} NothingHalved(codec: Codec, plans: seq<Plan>, uuids: seq<Name>, dirs0: set<Path>,
      files: Files, dirs: set<Path>, stuck: set<Path>, i: nat)
    requires i <= |plans| == |uuids| && NoneStuck(plans, uuids, dirs0, stuck, i)
    ensures Halved(codec, plans, uuids, dirs0, files, dirs, stuck, i)
  {
    if i > 0 {
      NothingHalved(codec, plans, uuids, dirs0, files, dirs, stuck, i - 1);
    }
  }

  /** There is only one first. */
  lemma OneFirstStuck(plans: seq<Plan>, uuids: seq<Name>, dirs0: set<Path>, stuck: set<Path>, k: nat, l: nat)
    requires |plans| == |uuids|
    requires FirstStuck(plans, uuids, dirs0, stuck, k) && FirstStuck(plans, uuids, dirs0, stuck, l)
    ensures k <= l
  {
    if l < k {
      NoneStuckEach(plans, uuids, dirs0, stuck, k, l);
    }
  }

  /** Removing staging directories touches no destination. */
  lemma {:induction false} PlacedOutside(codec: Codec, plans: seq<Plan>, uuids: seq<Name>, dirs0: set<Path>,
      files: Files, dirs: set<Path>, after: Files, dirsAfter: set<Path>, staged: set<Path>, k: nat)
    requires ValidPlans(plans, uuids) && k <= |plans| && PlacedBefore(codec, plans, dirs0, files, dirs, k)
    requires staged <= StagingRoots(plans, dirs0, uuids, |plans|)
    requires SameOutside(files, after, staged) && DirsSameOutside(dirs, dirsAfter, staged)
    ensures PlacedBefore(codec, plans, dirs0, after, dirsAfter, k)
  {
    if k > 0 {
      PlacedOutside(codec, plans, uuids, dirs0, files, dirs, after, dirsAfter, staged, k - 1);
      if Destination(plans[k - 1]) !in dirs0 {
        RootsNew(plans, dirs0, uuids, |plans|, k - 1);
        RootsApart(plans, uuids, k - 1, k - 1);
        HoldsStays(files, dirs, after, dirsAfter, staged, Destination(plans[k - 1]), PlanContents(codec, plans[k - 1]));
      }
    }
  }

  lemma HalfStays(codec: Codec, plans: seq<Plan>, uuids: seq<Name>, dirs0: set<Path>, files: Files, dirs: set<Path>,
      after: Files, dirsAfter: set<Path>, stuck: set<Path>, staged: set<Path>, k: nat)
    requires ValidPlans(plans, uuids) && k < |plans| && HalfDone(codec, plans, dirs0, files, dirs, stuck, k)
    requires staged <= StagingRoots(plans, dirs0, uuids, |plans|)
    requires SameOutside(files, after, staged) && DirsSameOutside(dirs, dirsAfter, staged)
    ensures HalfDone(codec, plans, dirs0, after, dirsAfter, stuck, k)
  {
    PlacedOutside(codec, plans, uuids, dirs0, files, dirs, after, dirsAfter, staged, k);
    RootsNew(plans, dirs0, uuids, |plans|, k);
    RootsApart(plans, uuids, k, k);
    NothingStays(files, after, staged, Destination(plans[k]));
  }

  lemma {:induction false} OnlyHalf(codec: Codec, plans: seq<Plan>, uuids: seq<Name>, dirs0: set<Path>, files: Files,
      dirs: set<Path>, stuck: set<Path>, at: nat, i: nat)
    requires i <= |plans| == |uuids| && FirstStuck(plans, uuids, dirs0, stuck, at)
    requires HalfDone(codec, plans, dirs0, files, dirs, stuck, at)
    ensures Halved(codec, plans, uuids, dirs0, files, dirs, stuck, i)
  {
    if i > 0 {
      OnlyHalf(codec, plans, uuids, dirs0, files, dirs, stuck, at, i - 1);
      if FirstStuck(plans, uuids, dirs0, stuck, i - 1) {
        OneFirstStuck(plans, uuids, dirs0, stuck, i - 1, at);
        OneFirstStuck(plans, uuids, dirs0, stuck, at, i - 1);
      }
    }
  }

  /** Where installing stopped for a stuck directory, and what stands there. */
  ghost predicate LeftAt(codec: Codec, plans: seq<Plan>, uuids: seq<Name>, dirs0: set<Path>, files: Files,
      dirs: set<Path>, stuck: set<Path>, staged: set<Path>, at: nat)
    requires |plans| == |uuids|
  {
    && FirstStuck(plans, uuids, dirs0, stuck, at) && Staging(plans[at], uuids[at]) in staged
    && HalfDone(codec, plans, dirs0, files, dirs, stuck, at)
  }

  /** Installs one new plan. */
  method InstallAt(c: Checkout, ghost codec: Codec, plans: seq<Plan>, uuids: seq<Name>, i: nat, staged0: set<Path>,
      installed0: set<Path>, ghost dirs0: set<Path>, ghost files1: Files, ghost dirs1: set<Path>)
    returns (ok: bool, staged: set<Path>, installed: set<Path>)
    requires c.Valid() && ValidPlans(plans, uuids) && i < |plans| && Destination(plans[i]) !in dirs0
    requires InstallReached(codec, plans, uuids, dirs0, c.files, c.dirs, staged0, installed0, i)
    requires InstallChanges(plans, uuids, dirs0, files1, dirs1, c.files, c.dirs, staged0, installed0)
    requires NoneStuck(plans, uuids, dirs0, c.stuck, i)
    modifies c
    ensures c.Valid() && (old(c.fault) ==> c.fault) && (old(c.removalFailed) ==> c.removalFailed)
    ensures InstallChanges(plans, uuids, dirs0, files1, dirs1, c.files, c.dirs, staged, installed)
    ensures ok ==> InstallReached(codec, plans, uuids, dirs0, c.files, c.dirs, staged, installed, i + 1)
    ensures !ok && !c.removalFailed ==> AllAccounted(plans, uuids, dirs0, c.files, staged, installed)
    ensures !c.fault ==> ok
    ensures ok ==> NoneStuck(plans, uuids, dirs0, c.stuck, i + 1) && c.removalFailed == old(c.removalFailed)
    ensures c.steady && Destination(plans[i]) !in c.stuck && Staging(plans[i], uuids[i]) !in c.stuck ==>
      c.removalFailed == old(c.removalFailed)
    ensures c.calm && !old(c.removalFailed) && !ok ==>
      LeftAt(codec, plans, uuids, dirs0, c.files, c.dirs, c.stuck, staged, i)
  {
    RootsApart(plans, uuids, i, i);
    ghost var files2, dirs2 := c.files, c.dirs;
    assert InstallState(codec, plans[i], uuids[i], files2, dirs2, staged0, installed0, false);
    var done := InstallStagedPlan(c, plans[i], Staging(plans[i], uuids[i]), PlanContents(codec, plans[i]));
    ChangesGrow(plans, uuids, dirs0, files1, dirs1, files2, dirs2, c.files, c.dirs, staged0, installed0, i);
    staged, installed := staged0, installed0;
    ok := done.Done?;
    if ok {
      InstallAdvances(codec, plans, uuids, dirs0, files2, dirs2, c.files, c.dirs, staged, installed, i);
      staged := staged - {Staging(plans[i], uuids[i])};
      installed := installed + {Destination(plans[i])};
      return;
    }
    PlacedStays(codec, plans, uuids, dirs0, files2, dirs2, c.files, c.dirs, staged, installed, i, i);
    if !c.removalFailed {
      InstallStopped(codec, plans, uuids, dirs0, files2, dirs2, c.files, staged, installed, i);
    }
  }

  lemma InstallSkips(codec: Codec, plans: seq<Plan>, uuids: seq<Name>, dirs0: set<Path>, files: Files, dirs: set<Path>,
      staged: set<Path>, installed: set<Path>, i: nat)
    requires i < |plans| == |uuids| && Destination(plans[i]) in dirs0
    requires InstallReached(codec, plans, uuids, dirs0, files, dirs, staged, installed, i)
    ensures InstallReached(codec, plans, uuids, dirs0, files, dirs, staged, installed, i + 1)
  {
    forall j | 0 <= j < |plans| && Destination(plans[j]) !in dirs0
      ensures InstallState(codec, plans[j], uuids[j], files, dirs, staged, installed, j < i + 1)
    {
      assert (j < i + 1) == (j < i);
    }
  }

  /** One turn of the installing loop: a plan that is there already is passed over. */
  method InstallTurn(c: Checkout, ghost codec: Codec, plans: seq<Plan>, destinies: seq<Destiny>, uuids: seq<Name>,
      i: nat, staged0: set<Path>, installed0: set<Path>, ghost dirs0: set<Path>, ghost files1: Files,
      ghost dirs1: set<Path>)
    returns (ok: bool, staged: set<Path>, installed: set<Path>)
    requires c.Valid() && ValidPlans(plans, uuids) && i < |plans| == |destinies|
    requires destinies[i].New? <==> Destination(plans[i]) !in dirs0
    requires InstallReached(codec, plans, uuids, dirs0, c.files, c.dirs, staged0, installed0, i)
    requires InstallChanges(plans, uuids, dirs0, files1, dirs1, c.files, c.dirs, staged0, installed0)
    requires NoneStuck(plans, uuids, dirs0, c.stuck, i)
    modifies c
    ensures c.Valid() && (old(c.fault) ==> c.fault) && (old(c.removalFailed) ==> c.removalFailed)
    ensures InstallChanges(plans, uuids, dirs0, files1, dirs1, c.files, c.dirs, staged, installed)
    ensures ok ==> InstallReached(codec, plans, uuids, dirs0, c.files, c.dirs, staged, installed, i + 1)
    ensures !ok && !c.removalFailed ==> AllAccounted(plans, uuids, dirs0, c.files, staged, installed)
    ensures !c.fault ==> ok
    ensures ok ==> NoneStuck(plans, uuids, dirs0, c.stuck, i + 1) && c.removalFailed == old(c.removalFailed)
    ensures c.steady && Loose(plans, uuids, dirs0, c.stuck, |plans|) ==> c.removalFailed == old(c.removalFailed)
    ensures c.calm && !old(c.removalFailed) && !ok ==>
      LeftAt(codec, plans, uuids, dirs0, c.files, c.dirs, c.stuck, staged, i)
  {
    if destinies[i].New? {
      if Loose(plans, uuids, dirs0, c.stuck, |plans|) {
        LooseEach(plans, uuids, dirs0, c.stuck, |plans|, i);
      }
      ok, staged, installed := InstallAt(c, codec, plans, uuids, i, staged0, installed0, dirs0, files1, dirs1);
    } else {
      ok, staged, installed := true, staged0, installed0;
      InstallSkips(codec, plans, uuids, dirs0, c.files, c.dirs, staged, installed, i);
    }
  }

  /** Installs every staged plan; what is staged and not installed yet stays on the list. */
  method InstallPlans(c: Checkout, ghost codec: Codec, plans: seq<Plan>, destinies: seq<Destiny>, uuids: seq<Name>,
      staged0: set<Path>, ghost dirs0: set<Path>)
    returns (ok: bool, staged: set<Path>, installed: set<Path>, ghost at: nat)
    requires c.Valid() && ValidPlans(plans, uuids) && |destinies| == |plans|
    requires forall i :: 0 <= i < |plans| ==> (destinies[i].New? <==> Destination(plans[i]) !in dirs0)
    requires InstallReached(codec, plans, uuids, dirs0, c.files, c.dirs, staged0, {}, 0)
    requires InstallChanges(plans, uuids, dirs0, c.files, c.dirs, c.files, c.dirs, staged0, {})
    modifies c
    ensures c.Valid() && (old(c.fault) ==> c.fault) && (old(c.removalFailed) ==> c.removalFailed)
    ensures InstallChanges(plans, uuids, dirs0, old(c.files), old(c.dirs), c.files, c.dirs, staged, installed)
    ensures ok ==> InstallReached(codec, plans, uuids, dirs0, c.files, c.dirs, staged, installed, |plans|)
    ensures !ok && !c.removalFailed ==> AllAccounted(plans, uuids, dirs0, c.files, staged, installed)
    ensures !c.fault ==> ok
    ensures ok ==> NoneStuck(plans, uuids, dirs0, c.stuck, |plans|) && c.removalFailed == old(c.removalFailed)
    ensures c.steady && Loose(plans, uuids, dirs0, c.stuck, |plans|) ==> c.removalFailed == old(c.removalFailed)
    ensures c.calm && !old(c.removalFailed) && !ok ==>
      LeftAt(codec, plans, uuids, dirs0, c.files, c.dirs, c.stuck, staged, at)
  {
    ghost var files1, dirs1 := c.files, c.dirs;
    ok, staged, installed, at := true, staged0, {}, 0;
    var i := 0;
    while i < |plans|
      invariant i <= |plans| && c.Valid() && (old(c.fault) ==> c.fault) && (old(c.removalFailed) ==> c.removalFailed)
      invariant ok && InstallReached(codec, plans, uuids, dirs0, c.files, c.dirs, staged, installed, i)
      invariant InstallChanges(plans, uuids, dirs0, files1, dirs1, c.files, c.dirs, staged, installed)
      invariant NoneStuck(plans, uuids, dirs0, c.stuck, i) && c.removalFailed == old(c.removalFailed)
    {
      at := i;
      ok, staged, installed :=
        InstallTurn(c, codec, plans, destinies, uuids, i, staged, installed, dirs0, files1, dirs1);
      if !ok {
        return;
      }
      i := i + 1;
    }
  }

  /** The handler: remove what is staged, then what is installed, until a removal fails. */
  method RollBack(c: Checkout, staged: set<Path>, installed: set<Path>)
    requires c.Valid() && forall o :: o in staged + installed ==> |o| == DEPTH
    modifies c
    ensures c.Valid() && (old(c.fault) ==> c.fault) && (old(c.removalFailed) ==> c.removalFailed)
    ensures SameOutside(old(c.files), c.files, staged + installed)
    ensures !c.removalFailed ==> forall o :: o in staged + installed ==> NothingUnder(c.files, o)
    ensures StuckStay(old(c.files), c.files, (staged + installed) * c.stuck)
    ensures (staged + installed) * c.stuck != {} ==> c.removalFailed
    ensures c.steady && (staged + installed) * c.stuck == {} ==> c.removalFailed == old(c.removalFailed)
    ensures staged * c.stuck != {} ==>
      SameOutside(old(c.files), c.files, staged) && DirsSameOutside(old(c.dirs), c.dirs, staged)
  {
    ghost var files0 := c.files;
    var ok := RemoveAll(c, staged);
    if !ok {
      StuckOutside(files0, c.files, staged, installed * c.stuck - staged);
    }
    if ok {
      ghost var files1 := c.files;
      StuckOutside(files0, files1, staged, installed * c.stuck - staged);
      ok := RemoveAll(c, installed);
      SameOutsideChains(old(c.files), files1, c.files, staged, installed);
      forall o | o in staged && o !in installed && !c.removalFailed ensures NothingUnder(c.files, o) {
        NothingStays(files1, c.files, installed, o);
      }
    } else {
      WiderOutside(old(c.files), c.files, staged, staged + installed);
    }
  }

  /** Nothing below these trees has changed. */
  ghost predicate StuckStay(before: Files, after: Files, trees: set<Path>) {
    forall o, p :: o in trees && Below(o, p) ==>
      (p in before <==> p in after) && (p in before ==> after[p] == before[p])
  }

  lemma StuckOutside(before: Files, after: Files, changed: set<Path>, trees: set<Path>)
    requires SameOutside(before, after, changed) && changed !! trees
    requires (forall o :: o in changed ==> |o| == DEPTH) && (forall o :: o in trees ==> |o| == DEPTH)
    ensures StuckStay(before, after, trees)
  {
    forall o, p | o in trees && Below(o, p) ensures !Under(changed, p) {
    }
  }

  method RemoveAll(c: Checkout, trees: set<Path>) returns (ok: bool)
    requires c.Valid() && forall o :: o in trees ==> |o| == DEPTH
    modifies c
    ensures c.Valid() && (old(c.fault) ==> c.fault) && (old(c.removalFailed) ==> c.removalFailed)
    ensures SameOutside(old(c.files), c.files, trees) && DirsSameOutside(old(c.dirs), c.dirs, trees)
    ensures ok ==> forall o :: o in trees ==> NothingUnder(c.files, o)
    ensures !ok ==> c.removalFailed
    ensures StuckStay(old(c.files), c.files, trees * c.stuck)
    ensures trees * c.stuck != {} ==> !ok
    ensures ok ==> c.removalFailed == old(c.removalFailed)
    ensures c.steady && trees * c.stuck == {} ==> ok
  {
    var rest := trees;
    while rest != {}
      invariant rest <= trees && c.Valid() && (old(c.fault) ==> c.fault) && (old(c.removalFailed) ==> c.removalFailed)
      invariant SameOutside(old(c.files), c.files, trees) && DirsSameOutside(old(c.dirs), c.dirs, trees)
      invariant forall o :: o in trees - rest ==> NothingUnder(c.files, o)
      invariant trees * c.stuck <= rest && StuckStay(old(c.files), c.files, trees * c.stuck)
      invariant c.removalFailed == old(c.removalFailed)
      decreases |rest|
    {
      var o :| o in rest;
      ghost var files1, dirs1 := c.files, c.dirs;
      var removed := c.RemoveTree(o);
      SameOutsideChains(old(c.files), files1, c.files, trees, {o});
      DirsSameOutsideChains(old(c.dirs), dirs1, c.dirs, trees, {o});
      assert trees + {o} == trees;
      StuckOutside(files1, c.files, {o}, trees * c.stuck - {o});
      if !removed.Done? {
        return false;
      }
      forall other | other in trees - rest ensures NothingUnder(c.files, other) {
        if other != o {
          NothingStays(files1, c.files, {o}, other);
        }
      }
      rest := rest - {o};
    }
    return true;
  }

  // The publication

  /** Every file there was is still there, byte for byte. */
  ghost predicate Kept(before: Files, after: Files) {
    forall p :: p in before ==> p in after && after[p] == before[p]
  }

  ghost predicate FreeRoots(files: Files, dirs: set<Path>, roots: set<Path>) {
    forall o :: o in roots ==> |o| == DEPTH && Free(files, dirs, o)
  }

  lemma KeptOutside(files0: Files, dirs0: set<Path>, files: Files, roots: set<Path>)
    requires WellFormed(files0, dirs0) && SameOutside(files0, files, roots) && FreeRoots(files0, dirs0, roots)
    ensures Kept(files0, files)
    ensures (forall o :: o in roots ==> NothingUnder(files, o)) ==> files == files0
  {
    forall o | o in roots ensures NothingUnder(files0, o) {
      FreeIsBare(files0, dirs0, o);
    }
    forall p | p in files0 ensures !Under(roots, p) {
      if Under(roots, p) {
        assert Below(p[..DEPTH], p);
      }
    }
    if forall o :: o in roots ==> NothingUnder(files, o) {
      Restored(files0, files, roots);
    }
  }

  /** A new plan's destination is free when nothing is in its way. */
  lemma AllRootsFree(plans: seq<Plan>, uuids: seq<Name>, files: Files, dirs: set<Path>)
    requires ValidPlans(plans, uuids)
    requires forall j :: 0 <= j < |plans| ==> Unblocked(files, Destination(plans[j]))
    requires FreeRoots(files, dirs, StagingRoots(plans, dirs, uuids, |plans|))
    ensures FreeRoots(files, dirs, AllRoots(plans, dirs, uuids))
  {
    forall j | 0 <= j < |plans| && Destination(plans[j]) !in dirs
      ensures |Destination(plans[j])| == DEPTH && Free(files, dirs, Destination(plans[j]))
    {
      RootsApart(plans, uuids, j, j);
      assert Destination(plans[j])[..DEPTH] == Destination(plans[j]);
    }
  }

  lemma SweptRoot(files1: Files, files: Files, swept: set<Path>, o: Path)
    requires |o| == DEPTH && SameOutside(files1, files, swept)
    requires (o in swept ==> NothingUnder(files, o)) && (o in swept || NothingUnder(files1, o))
    ensures NothingUnder(files, o)
  {
    if o !in swept {
      NothingStays(files1, files, swept, o);
    }
  }

  lemma SweptRoots(plans: seq<Plan>, uuids: seq<Name>, dirs0: set<Path>, files1: Files, files: Files,
      staged: set<Path>, installed: set<Path>)
    requires ValidPlans(plans, uuids) && AllAccounted(plans, uuids, dirs0, files1, staged, installed)
    requires SameOutside(files1, files, staged + installed)
    requires forall o :: o in staged + installed ==> NothingUnder(files, o)
    ensures forall o :: o in AllRoots(plans, dirs0, uuids) ==> NothingUnder(files, o)
  {
    forall j | 0 <= j < |plans| && Destination(plans[j]) !in dirs0
      ensures NothingUnder(files, Destination(plans[j])) && NothingUnder(files, Staging(plans[j], uuids[j]))
    {
      RootsApart(plans, uuids, j, j);
      assert Accounted(plans[j], uuids[j], files1, staged, installed);
      SweptRoot(files1, files, staged + installed, Destination(plans[j]));
      SweptRoot(files1, files, staged + installed, Staging(plans[j], uuids[j]));
    }
  }

  /** After staging failed and what was staged is removed. */
  lemma StagingUndone(files0: Files, dirs0: set<Path>, files1: Files, files: Files, staged: set<Path>,
      roots: set<Path>, swept: bool)
    requires WellFormed(files0, dirs0) && StagingFailed(files0, dirs0, files1, staged, roots, swept)
    requires SameOutside(files1, files, staged) && (swept ==> forall o :: o in staged ==> NothingUnder(files, o))
    ensures Kept(files0, files) && (swept ==> files == files0)
  {
    SameOutsideChains(files0, files1, files, roots, staged);
    assert roots + staged == roots;
    KeptOutside(files0, dirs0, files, roots);
  }

  lemma OneIsReady(codec: Codec, plan: Plan, uuid: Name, files0: Files, dirs0: set<Path>, files: Files,
      dirs: set<Path>, staged: set<Path>)
    requires |Destination(plan)| == DEPTH && Unblocked(files0, Destination(plan)) && Destination(plan) !in dirs0
    requires SameOutside(files0, files, staged) && DirsSameOutside(dirs0, dirs, staged) && Destination(plan) !in staged
    requires Holds(files, dirs, Staging(plan, uuid), PlanContents(codec, plan)) && Staging(plan, uuid) in staged
    ensures InstallState(codec, plan, uuid, files, dirs, staged, {}, false)
  {
    NotAFile(files0, Destination(plan));
    FreeStays(files0, dirs0, files, dirs, staged, Destination(plan));
  }

  lemma NotAFile(files: Files, o: Path)
    requires Unblocked(files, o)
    ensures o !in files
  {
    assert o[..|o|] == o;
  }

  /** Staging done is where installing starts. */
  lemma StagedIsReady(codec: Codec, plans: seq<Plan>, uuids: seq<Name>, files0: Files, dirs0: set<Path>,
      files: Files, dirs: set<Path>, staged: set<Path>)
    requires ValidPlans(plans, uuids)
    requires forall j :: 0 <= j < |plans| ==> Unblocked(files0, Destination(plans[j]))
    requires StagingReached(codec, plans, uuids, files0, dirs0, files, dirs, staged, |plans|)
    ensures InstallReached(codec, plans, uuids, dirs0, files, dirs, staged, {}, 0)
    ensures InstallChanges(plans, uuids, dirs0, files, dirs, files, dirs, staged, {})
  {
    forall j | 0 <= j < |plans| && Destination(plans[j]) !in dirs0
      ensures InstallState(codec, plans[j], uuids[j], files, dirs, staged, {}, false)
    {
      RootsApart(plans, uuids, j, j);
      RootsNew(plans, dirs0, uuids, |plans|, j);
      assert IsStaged(codec, plans[j], uuids[j], files, dirs);
      OneIsReady(codec, plans[j], uuids[j], files0, dirs0, files, dirs, staged);
    }
  }

  /** Staging and then installing changed these trees, all of them free at the start. */
  ghost predicate Reached(plans: seq<Plan>, uuids: seq<Name>, files0: Files, dirs0: set<Path>, files: Files,
      dirs: set<Path>)
    requires |plans| == |uuids|
  {
    && FreeRoots(files0, dirs0, AllRoots(plans, dirs0, uuids))
    && SameOutside(files0, files, AllRoots(plans, dirs0, uuids))
    && DirsSameOutside(dirs0, dirs, AllRoots(plans, dirs0, uuids))
  }

  lemma InstallTracked(codec: Codec, plans: seq<Plan>, uuids: seq<Name>, files0: Files, dirs0: set<Path>,
      filesS: Files, dirsS: set<Path>, files: Files, dirs: set<Path>, all: set<Path>, staged: set<Path>,
      installed: set<Path>)
    requires ValidPlans(plans, uuids)
    requires forall j :: 0 <= j < |plans| ==> Unblocked(files0, Destination(plans[j]))
    requires StagingReached(codec, plans, uuids, files0, dirs0, filesS, dirsS, all, |plans|)
    requires InstallChanges(plans, uuids, dirs0, filesS, dirsS, files, dirs, staged, installed)
    ensures Reached(plans, uuids, files0, dirs0, files, dirs)
  {
    var trees := AllRoots(plans, dirs0, uuids);
    AllRootsFree(plans, uuids, files0, dirs0);
    SameOutsideChains(files0, filesS, files, all, trees);
    DirsSameOutsideChains(dirs0, dirsS, dirs, all, trees);
    assert all + trees == trees;
  }

  /** After installing failed and what was staged or installed is removed. */
  lemma InstallUndone(plans: seq<Plan>, uuids: seq<Name>, files0: Files, dirs0: set<Path>, files1: Files,
      dirs1: set<Path>, files: Files, staged: set<Path>, installed: set<Path>, swept: bool)
    requires WellFormed(files0, dirs0)
    requires ValidPlans(plans, uuids) && Reached(plans, uuids, files0, dirs0, files1, dirs1)
    requires staged + installed <= AllRoots(plans, dirs0, uuids) && SameOutside(files1, files, staged + installed)
    requires swept ==> AllAccounted(plans, uuids, dirs0, files1, staged, installed)
    requires swept ==> forall o :: o in staged + installed ==> NothingUnder(files, o)
    ensures Kept(files0, files) && (swept ==> files == files0)
  {
    var trees := AllRoots(plans, dirs0, uuids);
    SameOutsideChains(files0, files1, files, trees, staged + installed);
    assert trees + (staged + installed) == trees;
    if swept {
      SweptRoots(plans, uuids, dirs0, files1, files, staged, installed);
    }
    KeptOutside(files0, dirs0, files, trees);
  }

  /** A new plan's whole directory stands at its destination, and its staging directory is gone. */
  ghost predicate IsInstalled(codec: Codec, plan: Plan, uuid: Name, files: Files, dirs: set<Path>) {
    && Loadable(codec, plan)
    && Holds(files, dirs, Destination(plan), PlanContents(codec, plan))
    && NothingUnder(files, Staging(plan, uuid))
  }

  ghost predicate AllInstalled(codec: Codec, plans: seq<Plan>, uuids: seq<Name>, dirs0: set<Path>, files: Files,
      dirs: set<Path>)
    requires |plans| == |uuids|
  {
    forall j :: 0 <= j < |plans| && Destination(plans[j]) !in dirs0 ==>
      IsInstalled(codec, plans[j], uuids[j], files, dirs)
  }

  lemma InstallDone(codec: Codec, plans: seq<Plan>, uuids: seq<Name>, files0: Files, dirs0: set<Path>, filesS: Files,
      dirsS: set<Path>, files: Files, dirs: set<Path>, all: set<Path>, staged: set<Path>, installed: set<Path>)
    requires |plans| == |uuids|
    requires StagingReached(codec, plans, uuids, files0, dirs0, filesS, dirsS, all, |plans|)
    requires InstallReached(codec, plans, uuids, dirs0, files, dirs, staged, installed, |plans|)
    ensures AllInstalled(codec, plans, uuids, dirs0, files, dirs)
  {
    forall j | 0 <= j < |plans| && Destination(plans[j]) !in dirs0
      ensures IsInstalled(codec, plans[j], uuids[j], files, dirs)
    {
      assert IsStaged(codec, plans[j], uuids[j], filesS, dirsS);
      assert InstallState(codec, plans[j], uuids[j], files, dirs, staged, installed, true);
    }
  }

  lemma InstalledMatch(codec: Codec, plans: seq<Plan>, destinies: seq<Destiny>, uuids: seq<Name>, dirs0: set<Path>,
      files: Files, dirs: set<Path>)
    requires WellFormed(files, dirs) && ValidPlans(plans, uuids) && |destinies| == |plans|
    requires forall j :: 0 <= j < |plans| ==> (destinies[j].New? <==> Destination(plans[j]) !in dirs0)
    requires AllInstalled(codec, plans, uuids, dirs0, files, dirs)
    ensures MatchUpTo(codec, files, dirs, plans, destinies, New, |plans|)
  {
    forall j | 0 <= j < |plans| && destinies[j] == New
      ensures Matches(codec, files, dirs, plans[j])
    {
      assert IsInstalled(codec, plans[j], uuids[j], files, dirs);
      PublishedMatches(codec, files, dirs, plans[j]);
    }
  }

  /** Everything installed: each new plan is in place, whole, and what is in place is accounted for. */
  lemma AllDone(codec: Codec, plans: seq<Plan>, destinies: seq<Destiny>, uuids: seq<Name>, files0: Files,
      dirs0: set<Path>, filesS: Files, dirsS: set<Path>, files: Files, dirs: set<Path>, all: set<Path>,
      staged: set<Path>, installed: set<Path>)
    requires WellFormed(files, dirs) && ValidPlans(plans, uuids) && |destinies| == |plans|
    requires forall j :: 0 <= j < |plans| ==> (destinies[j].New? <==> Destination(plans[j]) !in dirs0)
    requires StagingReached(codec, plans, uuids, files0, dirs0, filesS, dirsS, all, |plans|)
    requires InstallReached(codec, plans, uuids, dirs0, files, dirs, staged, installed, |plans|)
    ensures AllInstalled(codec, plans, uuids, dirs0, files, dirs)
    ensures AllAccounted(plans, uuids, dirs0, files, staged, installed)
    ensures MatchUpTo(codec, files, dirs, plans, destinies, New, |plans|)
  {
    InstallDone(codec, plans, uuids, files0, dirs0, filesS, dirsS, files, dirs, all, staged, installed);
    ReachedAccounted(codec, plans, uuids, dirs0, files, dirs, staged, installed, |plans|);
    InstalledMatch(codec, plans, destinies, uuids, dirs0, files, dirs);
  }

  /** Installs what is staged; on failure the two lists account for everything left behind. */
  method InstallStaged(c: Checkout, ghost codec: Codec, plans: seq<Plan>, destinies: seq<Destiny>, uuids: seq<Name>,
      all: set<Path>, ghost files0: Files, ghost dirs0: set<Path>)
    returns (ok: bool, staged: set<Path>, installed: set<Path>, ghost at: nat)
    requires c.Valid() && ValidPlans(plans, uuids) && Classified(destinies, plans, files0, dirs0)
    requires StagingReached(codec, plans, uuids, files0, dirs0, c.files, c.dirs, all, |plans|)
    modifies c
    ensures c.Valid() && (old(c.fault) ==> c.fault) && (old(c.removalFailed) ==> c.removalFailed)
    ensures Reached(plans, uuids, files0, dirs0, c.files, c.dirs)
    ensures staged <= StagingRoots(plans, dirs0, uuids, |plans|) && installed <= InstallRoots(plans, dirs0, |plans|)
    ensures ok ==> InstallReached(codec, plans, uuids, dirs0, c.files, c.dirs, staged, installed, |plans|)
    ensures !ok && !c.removalFailed ==> AllAccounted(plans, uuids, dirs0, c.files, staged, installed)
    ensures !c.fault ==> ok
    ensures ok ==> NoneStuck(plans, uuids, dirs0, c.stuck, |plans|) && c.removalFailed == old(c.removalFailed)
    ensures c.steady && Loose(plans, uuids, dirs0, c.stuck, |plans|) ==> c.removalFailed == old(c.removalFailed)
    ensures c.calm && !old(c.removalFailed) && !ok ==>
      LeftAt(codec, plans, uuids, dirs0, c.files, c.dirs, c.stuck, staged, at)
  {
    ghost var filesS, dirsS := c.files, c.dirs;
    StagedIsReady(codec, plans, uuids, files0, dirs0, filesS, dirsS, all);
    ok, staged, installed, at := InstallPlans(c, codec, plans, destinies, uuids, all, dirs0);
    InstallTracked(codec, plans, uuids, files0, dirs0, filesS, dirsS, c.files, c.dirs, all, staged, installed);
  }

  /** Takes back what a failed run has left; `quiet` says that only a stuck directory stopped it. */
  method UndoRun(c: Checkout, ghost codec: Codec, ghost plans: seq<Plan>, ghost uuids: seq<Name>, staged: set<Path>,
      installed: set<Path>, ghost files0: Files, ghost dirs0: set<Path>, ghost files1: Files, ghost dirs1: set<Path>,
      ghost quiet: bool, ghost at: nat)
    requires c.Valid() && WellFormed(files0, dirs0) && ValidPlans(plans, uuids)
    requires c.files == files1 && c.dirs == dirs1 && Reached(plans, uuids, files0, dirs0, files1, dirs1)
    requires staged <= StagingRoots(plans, dirs0, uuids, |plans|) && installed <= InstallRoots(plans, dirs0, |plans|)
    requires !c.removalFailed ==> AllAccounted(plans, uuids, dirs0, files1, staged, installed)
    requires quiet ==> LeftAt(codec, plans, uuids, dirs0, files1, dirs1, c.stuck, staged, at)
    modifies c
    ensures c.Valid() && (old(c.fault) ==> c.fault) && (old(c.removalFailed) ==> c.removalFailed)
    ensures Kept(files0, c.files) && (!c.removalFailed ==> c.files == files0)
    ensures c.steady && Loose(plans, uuids, dirs0, c.stuck, |plans|) ==> c.removalFailed == old(c.removalFailed)
    ensures quiet ==>
      && !NoneStuck(plans, uuids, dirs0, c.stuck, |plans|)
      && Halved(codec, plans, uuids, dirs0, c.files, c.dirs, c.stuck, |plans|)
  {
    if Loose(plans, uuids, dirs0, c.stuck, |plans|) {
      LooseSome(plans, uuids, dirs0, c.stuck, staged + installed);
    }
    RollBack(c, staged, installed);
    InstallUndone(plans, uuids, files0, dirs0, files1, dirs1, c.files, staged, installed, !c.removalFailed);
    if quiet {
      HalfLeft(codec, plans, uuids, dirs0, files1, dirs1, c.files, c.dirs, c.stuck, staged, at);
    }
  }

  /** Verifies what was installed, or undoes the run. */
  method ConfirmOrUndo(c: Checkout, codec: Codec, plans: seq<Plan>, destinies: seq<Destiny>, uuids: seq<Name>,
      staged: set<Path>, installed: set<Path>, ghost files0: Files, ghost dirs0: set<Path>, ghost files1: Files,
      ghost dirs1: set<Path>)
    returns (ok: bool)
    requires c.Valid() && WellFormed(files0, dirs0) && ValidPlans(plans, uuids) && |destinies| == |plans|
    requires c.files == files1 && c.dirs == dirs1 && Reached(plans, uuids, files0, dirs0, files1, dirs1)
    requires staged <= StagingRoots(plans, dirs0, uuids, |plans|) && installed <= InstallRoots(plans, dirs0, |plans|)
    requires AllAccounted(plans, uuids, dirs0, files1, staged, installed)
    requires MatchUpTo(codec, files1, dirs1, plans, destinies, New, |plans|)
    modifies c
    ensures c.Valid() && (old(c.fault) ==> c.fault) && (old(c.removalFailed) ==> c.removalFailed)
    ensures ok ==> c.files == files1 && c.dirs == dirs1
    ensures !ok ==> Kept(files0, c.files) && (!c.removalFailed ==> c.files == files0)
    ensures !c.fault || (c.calm && !old(c.removalFailed)) ==> ok
    ensures c.steady && Loose(plans, uuids, dirs0, c.stuck, |plans|) ==> c.removalFailed == old(c.removalFailed)
  {
    ok := VerifyPlans(c, codec, plans, destinies, New);
    if !ok {
      UndoRun(c, codec, plans, uuids, staged, installed, files0, dirs0, files1, dirs1, false, 0);
    }
  }

  /** Installs and verifies what is staged, or undoes everything this run has done. */
  method InstallOrUndo(c: Checkout, codec: Codec, plans: seq<Plan>, destinies: seq<Destiny>, uuids: seq<Name>,
      all: set<Path>, ghost files0: Files, ghost dirs0: set<Path>)
    returns (ok: bool)
    requires c.Valid() && WellFormed(files0, dirs0)
    requires ValidPlans(plans, uuids) && Classified(destinies, plans, files0, dirs0)
    requires StagingReached(codec, plans, uuids, files0, dirs0, c.files, c.dirs, all, |plans|)
    modifies c
    ensures c.Valid() && (old(c.fault) ==> c.fault) && (old(c.removalFailed) ==> c.removalFailed)
    ensures Kept(files0, c.files)
    ensures !ok && !c.removalFailed ==> c.files == files0
    ensures ok ==> Reached(plans, uuids, files0, dirs0, c.files, c.dirs)
    ensures ok ==> AllInstalled(codec, plans, uuids, dirs0, c.files, c.dirs)
    ensures !c.fault ==> ok
    ensures ok ==> NoneStuck(plans, uuids, dirs0, c.stuck, |plans|)
    ensures c.steady && Loose(plans, uuids, dirs0, c.stuck, |plans|) ==> c.removalFailed == old(c.removalFailed)
    ensures c.calm && !old(c.removalFailed) ==>
      && (ok <==> NoneStuck(plans, uuids, dirs0, c.stuck, |plans|))
      && Halved(codec, plans, uuids, dirs0, c.files, c.dirs, c.stuck, |plans|)
  {
    var staged, installed;
    ghost var at;
    ghost var filesS, dirsS, quiet := c.files, c.dirs, c.calm && !c.removalFailed;
    ok, staged, installed, at := InstallStaged(c, codec, plans, destinies, uuids, all, files0, dirs0);
    ghost var files1, dirs1 := c.files, c.dirs;
    if !ok {
      UndoRun(c, codec, plans, uuids, staged, installed, files0, dirs0, files1, dirs1, quiet, at);
      return;
    }
    AllDone(codec, plans, destinies, uuids, files0, dirs0, filesS, dirsS, files1, dirs1, all, staged, installed);
    KeptOutside(files0, dirs0, files1, AllRoots(plans, dirs0, uuids));
    NothingHalved(codec, plans, uuids, dirs0, files1, dirs1, c.stuck, |plans|);
    ok := ConfirmOrUndo(c, codec, plans, destinies, uuids, staged, installed, files0, dirs0, files1, dirs1);
  }

  /** The handler removes staging directories up to the stuck one, so the destinations stay. */
  lemma HalfLeft(codec: Codec, plans: seq<Plan>, uuids: seq<Name>, dirs0: set<Path>, files: Files, dirs: set<Path>,
      after: Files, dirsAfter: set<Path>, stuck: set<Path>, staged: set<Path>, at: nat)
    requires ValidPlans(plans, uuids) && LeftAt(codec, plans, uuids, dirs0, files, dirs, stuck, staged, at)
    requires staged <= StagingRoots(plans, dirs0, uuids, |plans|)
    requires staged * stuck != {} ==> SameOutside(files, after, staged) && DirsSameOutside(dirs, dirsAfter, staged)
    ensures !NoneStuck(plans, uuids, dirs0, stuck, |plans|)
    ensures Halved(codec, plans, uuids, dirs0, after, dirsAfter, stuck, |plans|)
  {
    assert Staging(plans[at], uuids[at]) in staged * stuck;
    if NoneStuck(plans, uuids, dirs0, stuck, |plans|) {
      NoneStuckEach(plans, uuids, dirs0, stuck, |plans|, at);
    }
    HalfStays(codec, plans, uuids, dirs0, files, dirs, after, dirsAfter, stuck, staged, at);
    OnlyHalf(codec, plans, uuids, dirs0, after, dirsAfter, stuck, at, |plans|);
  }

  /** The paths of these roles whose destination was, or was not, there at the start. */
  function RolePaths(plans: seq<Plan>, dirs: set<Path>, existing: bool): set<Path> {
    set j, n | 0 <= j < |plans| && (Destination(plans[j]) in dirs) == existing && n in Names(plans[j].manifest) ::
      Destination(plans[j]) + [n]
  }

  function PathsOf(plans: seq<Plan>, destinies: seq<Destiny>, wanted: Destiny): set<Path>
    requires |destinies| == |plans|
  {
    set j, n | 0 <= j < |plans| && destinies[j] == wanted && n in Names(plans[j].manifest) ::
      Destination(plans[j]) + [n]
  }

  lemma PathsAgree(plans: seq<Plan>, destinies: seq<Destiny>, files: Files, dirs: set<Path>)
    requires Classified(destinies, plans, files, dirs) && Blocked !in destinies
    ensures PathsOf(plans, destinies, New) == RolePaths(plans, dirs, false)
    ensures PathsOf(plans, destinies, Existing) == RolePaths(plans, dirs, true)
  {
    forall j | 0 <= j < |plans| ensures destinies[j] == if Destination(plans[j]) in dirs then Existing else New {
      assert destinies[j] in destinies;
    }
  }

  /** This role's publication can only succeed: what is there matches, or it can be staged. */
  ghost predicate PlanPublishable(codec: Codec, plan: Plan, uuid: Name, files: Files, dirs: set<Path>) {
    && Unblocked(files, Destination(plan))
    && (if Destination(plan) in dirs then Matches(codec, files, dirs, plan)
        else CanStage(codec, plan, uuid, files, dirs))
  }

  ghost predicate Publishable(codec: Codec, plans: seq<Plan>, uuids: seq<Name>, files: Files, dirs: set<Path>)
    requires |plans| == |uuids|
  {
    forall j :: 0 <= j < |plans| ==> PlanPublishable(codec, plans[j], uuids[j], files, dirs)
  }

  lemma {:induction false} PublishableStages(codec: Codec, plans: seq<Plan>, uuids: seq<Name>, files: Files,
      dirs: set<Path>, i: nat)
    requires i <= |plans| == |uuids| && Publishable(codec, plans, uuids, files, dirs)
    ensures CanStageUpTo(codec, plans, uuids, files, dirs, i)
  {
    if i > 0 {
      PublishableStages(codec, plans, uuids, files, dirs, i - 1);
      assert PlanPublishable(codec, plans[i - 1], uuids[i - 1], files, dirs);
    }
  }

  lemma PublishableMatches(codec: Codec, plans: seq<Plan>, destinies: seq<Destiny>, uuids: seq<Name>, files: Files,
      dirs: set<Path>)
    requires |plans| == |uuids|
    requires Publishable(codec, plans, uuids, files, dirs) && Classified(destinies, plans, files, dirs)
    ensures forall j :: 0 <= j < |plans| && destinies[j] == Existing ==> Matches(codec, files, dirs, plans[j])
  {
    forall j | 0 <= j < |plans| && destinies[j] == Existing ensures Matches(codec, files, dirs, plans[j]) {
      assert PlanPublishable(codec, plans[j], uuids[j], files, dirs);
    }
  }

  /** Success needed all of it. */
  lemma PublishedWasPublishable(codec: Codec, plans: seq<Plan>, destinies: seq<Destiny>, uuids: seq<Name>,
      files0: Files, dirs0: set<Path>, files: Files, dirs: set<Path>)
    requires ValidPlans(plans, uuids) && Classified(destinies, plans, files0, dirs0) && Blocked !in destinies
    requires MatchUpTo(codec, files0, dirs0, plans, destinies, Existing, |plans|)
    requires Reached(plans, uuids, files0, dirs0, files, dirs) && AllInstalled(codec, plans, uuids, dirs0, files, dirs)
    ensures Publishable(codec, plans, uuids, files0, dirs0)
  {
    forall j | 0 <= j < |plans| ensures PlanPublishable(codec, plans[j], uuids[j], files0, dirs0) {
      assert destinies[j] in destinies;
      if Destination(plans[j]) !in dirs0 {
        assert IsInstalled(codec, plans[j], uuids[j], files, dirs);
        assert Staging(plans[j], uuids[j]) in AllRoots(plans, dirs0, uuids);
        RootsApart(plans, uuids, j, j);
        ParentUnblocked(files0, Destination(plans[j]));
      }
    }
  }

  lemma ParentUnblocked(files: Files, o: Path)
    requires o != [] && Unblocked(files, o)
    ensures Unblocked(files, Parent(o))
  {
    forall k | 0 <= k <= |o| - 1 ensures Parent(o)[..k] !in files {
      assert Parent(o)[..k] == o[..k];
    }
  }

  lemma MatchesStays(codec: Codec, plan: Plan, files: Files, dirs: set<Path>, after: Files, dirsAfter: set<Path>,
      roots: set<Path>)
    requires |Destination(plan)| == DEPTH && Destination(plan) !in roots
    requires SameOutside(files, after, roots) && DirsSameOutside(dirs, dirsAfter, roots)
    requires Matches(codec, files, dirs, plan)
    ensures Matches(codec, after, dirsAfter, plan)
  {
    var o := Destination(plan);
    var m :| CompleteDirectory(codec, files, dirs, o, m) && Stable(m) == Stable(plan.manifest);
    ChildrenStay(files, dirs, after, dirsAfter, roots, o);
    assert CompleteDirectory(codec, after, dirsAfter, o, m);
  }

  lemma ChildrenStay(files: Files, dirs: set<Path>, after: Files, dirsAfter: set<Path>, roots: set<Path>, o: Path)
    requires |o| == DEPTH && o !in roots
    requires SameOutside(files, after, roots) && DirsSameOutside(dirs, dirsAfter, roots)
    ensures o in dirs <==> o in dirsAfter
    ensures forall n :: o + [n] in files <==> o + [n] in after
    ensures forall n :: o + [n] in files ==> files[o + [n]] == after[o + [n]]
    ensures forall n :: o + [n] in dirs <==> o + [n] in dirsAfter
  {
    assert o[..DEPTH] == o;
    forall n ensures !Under(roots, o + [n]) {
      assert (o + [n])[..DEPTH] == o;
    }
  }

  lemma AllMatch(codec: Codec, plans: seq<Plan>, destinies: seq<Destiny>, uuids: seq<Name>, files0: Files,
      dirs0: set<Path>, files: Files, dirs: set<Path>)
    requires ValidPlans(plans, uuids) && Classified(destinies, plans, files0, dirs0)
    requires Blocked !in destinies && WellFormed(files, dirs)
    requires MatchUpTo(codec, files0, dirs0, plans, destinies, Existing, |plans|)
    requires Reached(plans, uuids, files0, dirs0, files, dirs) && AllInstalled(codec, plans, uuids, dirs0, files, dirs)
    ensures forall j :: 0 <= j < |plans| ==> Matches(codec, files, dirs, plans[j])
  {
    InstalledMatch(codec, plans, destinies, uuids, dirs0, files, dirs);
    forall j | 0 <= j < |plans| ensures Matches(codec, files, dirs, plans[j]) {
      assert destinies[j] in destinies;
      if Destination(plans[j]) in dirs0 {
        ExistingApart(plans, uuids, dirs0, j);
        MatchesStays(codec, plans[j], files0, dirs0, files, dirs, AllRoots(plans, dirs0, uuids));
      }
    }
  }

  lemma ExistingApart(plans: seq<Plan>, uuids: seq<Name>, dirs: set<Path>, j: nat)
    requires ValidPlans(plans, uuids) && j < |plans| && Destination(plans[j]) in dirs
    ensures Destination(plans[j]) !in AllRoots(plans, dirs, uuids) && |Destination(plans[j])| == DEPTH
  {
    RootsNew(plans, dirs, uuids, |plans|, j);
    RootsApart(plans, uuids, j, j);
  }

  lemma PlanNamesAre(codec: Codec, plan: Plan)
    requires ValidPlan(plan)
    ensures PlanContents(codec, plan).Keys == Names(plan.manifest)
  {
    PlanNames(codec, plan);
  }

  lemma PathAdded(codec: Codec, plans: seq<Plan>, uuids: seq<Name>, files0: Files, dirs0: set<Path>, files: Files,
      dirs: set<Path>, j: nat, n: Name)
    requires WellFormed(files0, dirs0) && ValidPlans(plans, uuids) && j < |plans| && Destination(plans[j]) !in dirs0
    requires Reached(plans, uuids, files0, dirs0, files, dirs) && AllInstalled(codec, plans, uuids, dirs0, files, dirs)
    requires n in Names(plans[j].manifest)
    ensures Destination(plans[j]) + [n] in files && Destination(plans[j]) + [n] !in files0
  {
    var o := Destination(plans[j]);
    assert IsInstalled(codec, plans[j], uuids[j], files, dirs);
    PlanNamesAre(codec, plans[j]);
    assert o in AllRoots(plans, dirs0, uuids);
    FreeIsBare(files0, dirs0, o);
    assert Below(o, o + [n]);
  }

  lemma HeldPath(codec: Codec, plan: Plan, files: Files, dirs: set<Path>, p: Path)
    requires ValidPlan(plan) && Holds(files, dirs, Destination(plan), PlanContents(codec, plan))
    requires p in files && Below(Destination(plan), p)
    ensures |p| == DEPTH + 1 && p[DEPTH] in Names(plan.manifest) && p == Destination(plan) + [p[DEPTH]]
  {
    PlanNamesAre(codec, plan);
    assert p == Destination(plan) + [p[DEPTH]];
  }

  lemma NewPathPlanned(codec: Codec, plans: seq<Plan>, uuids: seq<Name>, dirs0: set<Path>, files: Files,
      dirs: set<Path>, p: Path)
    requires ValidPlans(plans, uuids) && p in files && Under(AllRoots(plans, dirs0, uuids), p)
    requires AllInstalled(codec, plans, uuids, dirs0, files, dirs)
    ensures p in RolePaths(plans, dirs0, false)
  {
    var o := p[..DEPTH];
    assert forall j :: 0 <= j < |plans| && Destination(plans[j]) !in dirs0 ==>
      !Below(Staging(plans[j], uuids[j]), p)
    by {
      forall j | 0 <= j < |plans| && Destination(plans[j]) !in dirs0 ensures !Below(Staging(plans[j], uuids[j]), p) {
        assert IsInstalled(codec, plans[j], uuids[j], files, dirs);
      }
    }
    assert Below(o, p);
    assert o in InstallRoots(plans, dirs0, |plans|);
    var j :| 0 <= j < |plans| && Destination(plans[j]) !in dirs0 && o == Destination(plans[j]);
    assert IsInstalled(codec, plans[j], uuids[j], files, dirs);
    HeldPath(codec, plans[j], files, dirs, p);
    RolePathIs(plans, dirs0, j, p[DEPTH]);
  }

  lemma RolePathIs(plans: seq<Plan>, dirs: set<Path>, j: nat, n: Name)
    requires j < |plans| && n in Names(plans[j].manifest)
    ensures Destination(plans[j]) + [n] in RolePaths(plans, dirs, Destination(plans[j]) in dirs)
  {
  }

  lemma AddedAreNew(codec: Codec, plans: seq<Plan>, uuids: seq<Name>, files0: Files, dirs0: set<Path>, files: Files,
      dirs: set<Path>)
    requires WellFormed(files0, dirs0) && ValidPlans(plans, uuids)
    requires Reached(plans, uuids, files0, dirs0, files, dirs) && AllInstalled(codec, plans, uuids, dirs0, files, dirs)
    ensures forall p :: p in RolePaths(plans, dirs0, false) ==> p in files && p !in files0
  {
    forall j, n | 0 <= j < |plans| && Destination(plans[j]) !in dirs0 && n in Names(plans[j].manifest)
      ensures Destination(plans[j]) + [n] in files && Destination(plans[j]) + [n] !in files0
    {
      PathAdded(codec, plans, uuids, files0, dirs0, files, dirs, j, n);
    }
  }

  lemma NewAreAdded(codec: Codec, plans: seq<Plan>, uuids: seq<Name>, files0: Files, dirs0: set<Path>, files: Files,
      dirs: set<Path>)
    requires ValidPlans(plans, uuids)
    requires Reached(plans, uuids, files0, dirs0, files, dirs) && AllInstalled(codec, plans, uuids, dirs0, files, dirs)
    ensures forall p :: p in files && p !in files0 ==> p in RolePaths(plans, dirs0, false)
  {
    forall p | p in files && p !in files0 ensures p in RolePaths(plans, dirs0, false) {
      assert Under(AllRoots(plans, dirs0, uuids), p);
      NewPathPlanned(codec, plans, uuids, dirs0, files, dirs, p);
    }
  }

  lemma KeysSplit(before: Files, after: Files, added: set<Path>)
    requires Kept(before, after)
    requires forall p :: p in added ==> p in after && p !in before
    requires forall p :: p in after && p !in before ==> p in added
    ensures after.Keys == before.Keys + added && before.Keys !! added
  {
  }

  /** The file map is the old one and exactly the added paths. */
  lemma AddedExactly(codec: Codec, plans: seq<Plan>, uuids: seq<Name>, files0: Files, dirs0: set<Path>,
      files: Files, dirs: set<Path>)
    requires WellFormed(files0, dirs0) && ValidPlans(plans, uuids)
    requires Reached(plans, uuids, files0, dirs0, files, dirs) && AllInstalled(codec, plans, uuids, dirs0, files, dirs)
    ensures files.Keys == files0.Keys + RolePaths(plans, dirs0, false)
    ensures files0.Keys !! RolePaths(plans, dirs0, false)
  {
    AddedAreNew(codec, plans, uuids, files0, dirs0, files, dirs);
    NewAreAdded(codec, plans, uuids, files0, dirs0, files, dirs);
    KeptOutside(files0, dirs0, files, AllRoots(plans, dirs0, uuids));
    KeysSplit(files0, files, RolePaths(plans, dirs0, false));
  }

  datatype Outcome = Published(added: set<Path>, existing: set<Path>) | Threw

  /** What a successful run leaves: every role complete, the old files, and exactly the added paths. */
  ghost predicate Success(codec: Codec, plans: seq<Plan>, files0: Files, dirs0: set<Path>, files: Files,
      dirs: set<Path>) {
    && (forall j :: 0 <= j < |plans| ==> Matches(codec, files, dirs, plans[j]))
    && (forall j :: 0 <= j < |plans| && Destination(plans[j]) !in dirs0 ==>
      Holds(files, dirs, Destination(plans[j]), PlanContents(codec, plans[j])))
    && files.Keys == files0.Keys + RolePaths(plans, dirs0, false)
    && files0.Keys !! RolePaths(plans, dirs0, false)
  }

  lemma Succeeded(codec: Codec, plans: seq<Plan>, destinies: seq<Destiny>, uuids: seq<Name>, files0: Files,
      dirs0: set<Path>, files: Files, dirs: set<Path>)
    requires ValidPlans(plans, uuids) && Classified(destinies, plans, files0, dirs0) && Blocked !in destinies
    requires WellFormed(files0, dirs0) && WellFormed(files, dirs)
    requires MatchUpTo(codec, files0, dirs0, plans, destinies, Existing, |plans|)
    requires Reached(plans, uuids, files0, dirs0, files, dirs) && AllInstalled(codec, plans, uuids, dirs0, files, dirs)
    ensures Success(codec, plans, files0, dirs0, files, dirs) && Publishable(codec, plans, uuids, files0, dirs0)
  {
    AllMatch(codec, plans, destinies, uuids, files0, dirs0, files, dirs);
    AddedExactly(codec, plans, uuids, files0, dirs0, files, dirs);
    PublishedWasPublishable(codec, plans, destinies, uuids, files0, dirs0, files, dirs);
    forall j | 0 <= j < |plans| && Destination(plans[j]) !in dirs0
      ensures Holds(files, dirs, Destination(plans[j]), PlanContents(codec, plans[j]))
    {
      assert IsInstalled(codec, plans[j], uuids[j], files, dirs);
    }
  }

  /** Stages what is new, or removes again what was staged. */
  method StageOrUndo(c: Checkout, codec: Codec, plans: seq<Plan>, destinies: seq<Destiny>, uuids: seq<Name>,
      ghost able: bool)
    returns (ok: bool, staged: set<Path>)
    requires c.Valid() && ValidPlans(plans, uuids) && |destinies| == |plans|
    requires forall i :: 0 <= i < |plans| ==> (destinies[i].New? <==> Destination(plans[i]) !in c.dirs)
    requires able ==> CanStageUpTo(codec, plans, uuids, c.files, c.dirs, |plans|)
    modifies c
    ensures c.Valid() && (old(c.fault) ==> c.fault) && (old(c.removalFailed) ==> c.removalFailed)
    ensures ok ==> StagingReached(codec, plans, uuids, old(c.files), old(c.dirs), c.files, c.dirs, staged, |plans|)
    ensures !ok ==> Kept(old(c.files), c.files) && (!c.removalFailed ==> c.files == old(c.files))
    ensures !c.fault && able ==> ok
    ensures c.steady && Loose(plans, uuids, old(c.dirs), c.stuck, |plans|) ==> c.removalFailed == old(c.removalFailed)
    ensures c.calm && !old(c.removalFailed) && able ==> ok && !c.removalFailed
  {
    ghost var files0, dirs0 := c.files, c.dirs;
    ghost var roots;
    ok, staged, roots := StagePlans(c, codec, plans, destinies, uuids, able);
    if !ok {
      ghost var files1 := c.files;
      if Loose(plans, uuids, dirs0, c.stuck, |plans|) {
        LooseSome(plans, uuids, dirs0, c.stuck, staged);
      }
      assert staged + {} == staged;
      RollBack(c, staged, {});
      StagingUndone(files0, dirs0, files1, c.files, staged, roots, !c.removalFailed);
    }
  }

  /** Looks at every destination and verifies those that are there. */
  method Examine(c: Checkout, codec: Codec, plans: seq<Plan>, ghost uuids: seq<Name>, ghost able: bool)
    returns (r: Option<seq<Destiny>>)
    requires c.Valid() && ValidPlans(plans, uuids)
    requires able ==> Publishable(codec, plans, uuids, c.files, c.dirs)
    modifies c`dead, c`fault
    ensures c.Valid() && (old(c.fault) ==> c.fault)
    ensures r.Some? ==> Classified(r.value, plans, c.files, c.dirs) && Blocked !in r.value
    ensures r.Some? ==> MatchUpTo(codec, c.files, c.dirs, plans, r.value, Existing, |plans|)
    ensures able && (!c.fault || (c.calm && !c.removalFailed)) ==> r.Some?
  {
    r := ClassifyPlans(c, plans);
    if r.Some? {
      if able {
        PublishableMatches(codec, plans, r.value, uuids, c.files, c.dirs);
      }
      var ok := VerifyPlans(c, codec, plans, r.value, Existing);
      if !ok {
        r := None;
      }
    } else if able {
      forall i | 0 <= i < |plans| ensures Unblocked(c.files, Destination(plans[i])) {
        assert PlanPublishable(codec, plans[i], uuids[i], c.files, c.dirs);
      }
    }
  }

  /** Stages, installs and verifies, or undoes what was done. */
  method CarryOut(c: Checkout, codec: Codec, plans: seq<Plan>, destinies: seq<Destiny>, uuids: seq<Name>,
      ghost able: bool)
    returns (ok: bool)
    requires c.Valid() && ValidPlans(plans, uuids) && Classified(destinies, plans, c.files, c.dirs)
    requires able ==> CanStageUpTo(codec, plans, uuids, c.files, c.dirs, |plans|)
    modifies c
    ensures c.Valid() && (old(c.fault) ==> c.fault) && (old(c.removalFailed) ==> c.removalFailed)
    ensures Kept(old(c.files), c.files)
    ensures !ok && !c.removalFailed ==> c.files == old(c.files)
    ensures ok ==> Reached(plans, uuids, old(c.files), old(c.dirs), c.files, c.dirs)
    ensures ok ==> AllInstalled(codec, plans, uuids, old(c.dirs), c.files, c.dirs)
    ensures !c.fault && able ==> ok
    ensures ok ==> NoneStuck(plans, uuids, old(c.dirs), c.stuck, |plans|)
    ensures c.steady && Loose(plans, uuids, old(c.dirs), c.stuck, |plans|) ==> c.removalFailed == old(c.removalFailed)
    ensures c.calm && !old(c.removalFailed) && able ==>
      && (ok <==> NoneStuck(plans, uuids, old(c.dirs), c.stuck, |plans|))
      && Halved(codec, plans, uuids, old(c.dirs), c.files, c.dirs, c.stuck, |plans|)
  {
    ghost var files0, dirs0 := c.files, c.dirs;
    var staged;
    ok, staged := StageOrUndo(c, codec, plans, destinies, uuids, able);
    if ok {
      ok := InstallOrUndo(c, codec, plans, destinies, uuids, staged, files0, dirs0);
    }
  }

  /** All roles or none: verify what exists, stage what is new, install it, verify it. */
  method PublishPlans(c: Checkout, codec: Codec, plans: seq<Plan>, uuids: seq<Name>) returns (r: Outcome)
    requires c.Valid() && ValidPlans(plans, uuids)
    modifies c
    ensures c.Valid() && (old(c.fault) ==> c.fault)
    ensures Kept(old(c.files), c.files)
    ensures r.Threw? && !c.removalFailed ==> c.files == old(c.files)
    ensures r.Published? ==> Success(codec, plans, old(c.files), old(c.dirs), c.files, c.dirs)
    ensures r.Published? ==> r == Published(RolePaths(plans, old(c.dirs), false), RolePaths(plans, old(c.dirs), true))
    ensures r.Published? ==> Publishable(codec, plans, uuids, old(c.files), old(c.dirs))
    ensures !c.fault && Publishable(codec, plans, uuids, old(c.files), old(c.dirs)) ==> r.Published?
    ensures r.Published? ==> NoneStuck(plans, uuids, old(c.dirs), c.stuck, |plans|)
    ensures c.steady && c.stuck !! AllRoots(plans, old(c.dirs), uuids) ==> c.removalFailed == old(c.removalFailed)
    ensures c.calm && !old(c.removalFailed) && Publishable(codec, plans, uuids, old(c.files), old(c.dirs)) ==>
      && (r.Published? <==> NoneStuck(plans, uuids, old(c.dirs), c.stuck, |plans|))
      && Halved(codec, plans, uuids, old(c.dirs), c.files, c.dirs, c.stuck, |plans|)
  {
    ghost var files0, dirs0 := c.files, c.dirs;
    ghost var able := Publishable(codec, plans, uuids, files0, dirs0);
    LooseTrees(plans, uuids, dirs0, c.stuck);
    var classified := Examine(c, codec, plans, uuids, able);
    if classified.None? {
      return Threw;
    }
    var destinies := classified.value;
    if able {
      PublishableStages(codec, plans, uuids, files0, dirs0, |plans|);
    }
    var added, existing := PathsOf(plans, destinies, New), PathsOf(plans, destinies, Existing);
    PathsAgree(plans, destinies, files0, dirs0);
    var ok := CarryOut(c, codec, plans, destinies, uuids, able);
    if !ok {
      return Threw;
    }
    Succeeded(codec, plans, destinies, uuids, files0, dirs0, c.files, c.dirs);
    return Published(added, existing);
  }

  /**
   Two new roles, nothing wrong but that the second one's emptied staging directory may not be
   removed: the call throws with the whole of the first role published and nothing of the second.
   */
  method HalfPublished(c: Checkout, codec: Codec, plans: seq<Plan>, uuids: seq<Name>) returns (r: Outcome)
    requires c.Valid() && c.calm && !c.removalFailed
    requires ValidPlans(plans, uuids) && |plans| == 2 && Publishable(codec, plans, uuids, c.files, c.dirs)
    requires Destination(plans[0]) !in c.dirs && Destination(plans[1]) !in c.dirs
    requires c.stuck == {Staging(plans[1], uuids[1])}
    modifies c
    ensures r.Threw?
    ensures Holds(c.files, c.dirs, Destination(plans[0]), PlanContents(codec, plans[0]))
    ensures NothingUnder(c.files, Destination(plans[1]))
  {
    ghost var dirs0 := c.dirs;
    SecondStuck(plans, uuids, dirs0, c.stuck);
    r := PublishPlans(c, codec, plans, uuids);
    HalfStands(codec, plans, uuids, dirs0, c.files, c.dirs, c.stuck);
  }

  lemma SecondStuck(plans: seq<Plan>, uuids: seq<Name>, dirs0: set<Path>, stuck: set<Path>)
    requires ValidPlans(plans, uuids) && |plans| == 2 && Destination(plans[1]) !in dirs0
    requires stuck == {Staging(plans[1], uuids[1])}
    ensures FirstStuck(plans, uuids, dirs0, stuck, 1) && !NoneStuck(plans, uuids, dirs0, stuck, 2)
    ensures Destination(plans[1]) !in stuck
  {
    RootsApart(plans, uuids, 0, 1);
    RootsApart(plans, uuids, 1, 1);
    assert NoneStuck(plans, uuids, dirs0, stuck, 0);
  }

  lemma HalfStands(codec: Codec, plans: seq<Plan>, uuids: seq<Name>, dirs0: set<Path>, files: Files, dirs: set<Path>,
      stuck: set<Path>)
    requires |plans| == |uuids| == 2 && Halved(codec, plans, uuids, dirs0, files, dirs, stuck, 2)
    requires FirstStuck(plans, uuids, dirs0, stuck, 1) && Destination(plans[0]) !in dirs0
    requires Destination(plans[1]) !in stuck
    ensures Holds(files, dirs, Destination(plans[0]), PlanContents(codec, plans[0]))
    ensures NothingUnder(files, Destination(plans[1]))
  {
    HalvedAt(codec, plans, uuids, dirs0, files, dirs, stuck, 2, 1);
    PlacedEach(codec, plans, dirs0, files, dirs, 1, 0);
  }

  // From a capture to its plans

  /** The context a workflow seals; the statuses expected of the base and of what replaces it come from the request. */
  datatype Context = Context(
    kind: Kind, issue: nat, subject: Text, runId: nat, runUrl: Text, sources: map<Role, Text>, baseStatus: int,
    candidateStatus: int)

  function ActiveRoles(kind: Kind): seq<Role> {
    match kind
    case PullRequestKind => [Base, Candidate]
    case ReleaseKind => [Release]
  }

  /** A pull request has both SHAs, a release its own. */
  predicate ValidContext(context: Context) {
    forall role :: role in context.sources <==> role in ActiveRoles(context.kind)
  }

  /** `assertManifestMatchesContext` */
  predicate MatchesContext(m: Manifest, context: Context) {
    && m.kind == context.kind && m.issue == context.issue && m.subject == context.subject
    && m.run.id == context.runId && m.run.url == context.runUrl && m.sources == context.sources
    && forall c :: c in m.captures ==> c.status == if c.role.Base? then context.baseStatus else context.candidateStatus
  }

  /** The capture is complete, is the one the caller holds, and belongs to the sealed context. */
  predicate Admissible(codec: Codec, source: map<Name, Bytes>, claimed: Manifest, context: Context) {
    Complete(codec, source, claimed) && ValidContext(context) && MatchesContext(claimed, context)
  }

  /** A capture is admitted exactly when it is complete and repeats what the context says of the request. */
  lemma AdmissibleIff(codec: Codec, source: map<Name, Bytes>, claimed: Manifest, context: Context)
    ensures Admissible(codec, source, claimed, context) <==>
      && Complete(codec, source, claimed)
      && context.sources.Keys == (if context.kind == PullRequestKind then {Base, Candidate} else {Release})
      && claimed.kind == context.kind && claimed.issue == context.issue && claimed.subject == context.subject
      && claimed.run.id == context.runId && claimed.run.url == context.runUrl && claimed.sources == context.sources
      && (forall c :: c in claimed.captures ==>
            c.status == if c.role == Base then context.baseStatus else context.candidateStatus)
  {
    ContextRoles(context);
  }

  lemma ContextRoles(context: Context)
    ensures ValidContext(context) <==>
      context.sources.Keys == if context.kind == PullRequestKind then {Base, Candidate} else {Release}
  {
    forall role ensures role in ActiveRoles(context.kind) <==>
      role in if context.kind == PullRequestKind then {Base, Candidate} else {Release}
    {
      assert ActiveRoles(PullRequestKind)[0] == Base && ActiveRoles(PullRequestKind)[1] == Candidate;
      assert ActiveRoles(ReleaseKind)[0] == Release;
    }
  }

  /** The plans of the first roles. */
  function PlansOf(m: Manifest, source: map<Name, Bytes>, roles: seq<Role>): (plans: seq<Plan>)
    requires forall c :: c in m.captures ==> c.filename in source
    requires forall role :: role in roles ==> role in m.sources
    ensures |plans| == |roles|
    ensures forall i :: 0 <= i < |roles| ==> plans[i] == RolePlan(m, source, roles[i])
  {
    seq(|roles|, i requires 0 <= i < |roles| => RolePlan(m, source, roles[i]))
  }

  lemma RolesDistinct(kind: Kind)
    ensures forall i, j :: 0 <= i < j < |ActiveRoles(kind)| ==> ActiveRoles(kind)[i] != ActiveRoles(kind)[j]
  {
  }

  lemma AdmissiblePlans(codec: Codec, source: map<Name, Bytes>, m: Manifest, context: Context, uuids: seq<Name>)
    requires Admissible(codec, source, m, context) && |uuids| == |ActiveRoles(context.kind)|
    ensures ValidPlans(PlansOf(m, source, ActiveRoles(context.kind)), uuids)
  {
    RolesDistinct(context.kind);
    PlansValid(codec, source, m, ActiveRoles(context.kind), uuids);
  }

  lemma PlansValid(codec: Codec, source: map<Name, Bytes>, m: Manifest, roles: seq<Role>, uuids: seq<Name>)
    requires Complete(codec, source, m) && (forall role :: role in roles ==> role in m.sources)
    requires |roles| == |uuids| && forall i, j :: 0 <= i < j < |roles| ==> roles[i] != roles[j]
    ensures ValidPlans(PlansOf(m, source, roles), uuids)
  {
    var plans := PlansOf(m, source, roles);
    forall i | 0 <= i < |plans| ensures ValidPlan(plans[i]) {
      assert roles[i] in roles;
      RolePlanValid(codec, m, source, roles[i]);
    }
    forall i, j | 0 <= i < j < |plans| ensures plans[i].parent != plans[j].parent {
      GroupsDiffer(roles[i], roles[j]);
      assert plans[i].parent[1] == Group(roles[i]) && plans[j].parent[1] == Group(roles[j]);
    }
  }

  lemma GroupsDiffer(a: Role, b: Role)
    requires a != b
    ensures Group(a) != Group(b)
  {
    assert BASELINE[0] != CANDIDATES[0] && BASELINE[0] != RELEASES[0] && CANDIDATES[0] != RELEASES[0];
  }

  method MakePlans(m: Manifest, source: map<Name, Bytes>, roles: seq<Role>) returns (plans: seq<Plan>)
    requires forall c :: c in m.captures ==> c.filename in source
    requires forall role :: role in roles ==> role in m.sources
    ensures plans == PlansOf(m, source, roles)
  {
    plans := [];
    while |plans| < |roles|
      invariant |plans| <= |roles|
      invariant forall i :: 0 <= i < |plans| ==> plans[i] == RolePlan(m, source, roles[i])
    {
      plans := plans + [RolePlan(m, source, roles[|plans|])];
    }
  }

  ghost predicate CanPublish(codec: Codec, source: map<Name, Bytes>, m: Manifest, context: Context,
      uuids: seq<Name>, files: Files, dirs: set<Path>)
    requires |uuids| == |ActiveRoles(context.kind)|
  {
    && Admissible(codec, source, m, context)
    && Publishable(codec, PlansOf(m, source, ActiveRoles(context.kind)), uuids, files, dirs)
  }

  /** None of the trees the run may make is stuck. */
  ghost predicate RunLoose(codec: Codec, source: map<Name, Bytes>, m: Manifest, context: Context, uuids: seq<Name>,
      dirs: set<Path>, stuck: set<Path>)
    requires |uuids| == |ActiveRoles(context.kind)|
  {
    Admissible(codec, source, m, context) ==>
      stuck !! AllRoots(PlansOf(m, source, ActiveRoles(context.kind)), dirs, uuids)
  }

  // What success means in the checkout's own terms

  function GroupDirectory(role: Role): Name {
    match role
    case Base => Chars("baseline")
    case Candidate => Chars("candidates")
    case Release => Chars("releases")
  }

  /** Where the evidence of a role is kept: by issue, group and source SHA. */
  function RoleDirectory(issue: nat, role: Role, sha: Name): Path {
    [Chars("issue-") + Digits(issue), GroupDirectory(role), sha]
  }

  /** Some of the captures, in the order they had. */
  ghost predicate InOrder(part: seq<Capture>, whole: seq<Capture>) {
    exists at: seq<nat> :: Picks(at, part, whole)
  }

  ghost predicate Picks(at: seq<nat>, part: seq<Capture>, whole: seq<Capture>) {
    && |at| == |part|
    && (forall i :: 0 <= i < |at| ==> at[i] < |whole| && part[i] == whole[at[i]])
    && forall i, j :: 0 <= i < j < |at| ==> at[i] < at[j]
  }

  /** The same capture reduced to one role: its own source, and its own images in their order. */
  ghost predicate IsShare(share: Manifest, m: Manifest, role: Role) {
    && role in m.sources && share.sources == map[role := m.sources[role]]
    && share.kind == m.kind && share.issue == m.issue && share.subject == m.subject && share.tools == m.tools
    && share.run.id == m.run.id && share.run.url == m.run.url
    && (forall c :: c in share.captures <==> c in m.captures && c.role == role)
    && InOrder(share.captures, m.captures)
  }

  ghost predicate FileIs(files: Files, p: Path, contents: Bytes) {
    p in files && files[p] == contents
  }

  /** The role's directory holds a manifest of its share; one just published is of this very run. */
  ghost predicate ShareInPlace(codec: Codec, m: Manifest, role: Role, current: bool, files: Files)
    requires role in m.sources
  {
    exists share :: IsShare(share, m, role) && codec.decode(codec.encode(share)) == Some(share)
      && FileIs(files, RoleDirectory(m.issue, role, m.sources[role]) + [Chars("manifest.json")], codec.encode(share))
      && (current ==> share.capturedAt == m.capturedAt && share.run == m.run)
  }

  /** A path that the evidence of a capture takes up: that of an image, or of a role's manifest. */
  ghost predicate EvidencePath(m: Manifest, p: Path) {
    ImagePath(m, p) || ManifestPath(m, p)
  }

  ghost predicate ImagePath(m: Manifest, p: Path) {
    exists c :: c in m.captures && p == RoleDirectory(m.issue, c.role, c.sourceSha) + [c.filename]
  }

  ghost predicate ManifestPath(m: Manifest, p: Path) {
    exists role :: role in m.sources && p == RoleDirectory(m.issue, role, m.sources[role]) + [Chars("manifest.json")]
  }

  /** Every image is where it belongs, byte for byte, with a manifest of its role beside it and nothing else. */
  ghost predicate EvidenceInPlace(codec: Codec, m: Manifest, source: map<Name, Bytes>, dirs0: set<Path>, files: Files) {
    && (forall c :: c in m.captures ==>
          && c.filename in source
          && FileIs(files, RoleDirectory(m.issue, c.role, c.sourceSha) + [c.filename], source[c.filename]))
    && (forall role :: role in m.sources ==>
          ShareInPlace(codec, m, role, RoleDirectory(m.issue, role, m.sources[role]) !in dirs0, files))
    && (forall role, p :: role in m.sources && p in files && Below(RoleDirectory(m.issue, role, m.sources[role]), p) ==>
          EvidencePath(m, p))
  }

  lemma NamesSpelled()
    ensures ISSUE_PREFIX == Chars("issue-") && MANIFEST == Chars("manifest.json")
    ensures BASELINE == Chars("baseline") && CANDIDATES == Chars("candidates") && RELEASES == Chars("releases")
  {
  }

  lemma PlanDirectory(m: Manifest, source: map<Name, Bytes>, role: Role)
    requires role in m.sources && forall c :: c in m.captures ==> c.filename in source
    ensures Destination(RolePlan(m, source, role)) == RoleDirectory(m.issue, role, m.sources[role])
  {
    NamesSpelled();
  }

  lemma {:induction false} RolePicks(captures: seq<Capture>, role: Role) returns (at: seq<nat>)
    ensures Picks(at, RoleCaptures(captures, role), captures)
  {
    if captures == [] {
      at := [];
    } else {
      at := RolePicks(captures[..|captures| - 1], role);
      if captures[|captures| - 1].role == role {
        at := at + [|captures| - 1];
      }
    }
  }

  lemma StableShare(m: Manifest, role: Role, share: Manifest)
    requires role in m.sources && Stable(share) == Stable(RoleManifest(m, role))
    ensures IsShare(share, m, role)
  {
    var own := RoleManifest(m, role);
    assert share.captures == Stable(share).captures == own.captures && share.sources == Stable(share).sources;
    assert share.kind == Stable(share).kind && share.issue == Stable(share).issue;
    assert share.subject == Stable(share).subject && share.tools == Stable(share).tools;
    assert share.run.id == Stable(share).run.id && share.run.url == Stable(share).run.url;
    var at := RolePicks(m.captures, role);
  }

  /** A matched plan, read in terms of paths and texts. */
  lemma MatchShows(codec: Codec, m: Manifest, source: map<Name, Bytes>, role: Role, files: Files, dirs: set<Path>)
    requires Complete(codec, source, m) && role in m.sources
    requires Matches(codec, files, dirs, RolePlan(m, source, role))
    ensures ShareInPlace(codec, m, role, false, files)
    ensures forall c :: c in m.captures && c.role == role ==>
      FileIs(files, RoleDirectory(m.issue, role, m.sources[role]) + [c.filename], source[c.filename])
  {
    var plan := RolePlan(m, source, role);
    PlanDirectory(m, source, role);
    NamesSpelled();
    var share :| CompleteDirectory(codec, files, dirs, Destination(plan), share)
      && Stable(share) == Stable(plan.manifest);
    StableShare(m, role, share);
    assert codec.encode(share) == files[Destination(plan) + [MANIFEST]];
    forall c | c in m.captures && c.role == role
      ensures FileIs(files, Destination(plan) + [c.filename], source[c.filename])
    {
      assert c in RoleCaptures(m.captures, role) && c.filename in PngNames(plan.manifest);
      assert c.filename in plan.pngs && plan.pngs[c.filename] == source[c.filename];
    }
  }

  /** What was just published carries the time and attempt of this run. */
  lemma FreshShare(codec: Codec, m: Manifest, source: map<Name, Bytes>, role: Role, files: Files, dirs: set<Path>)
    requires Complete(codec, source, m) && role in m.sources && Loadable(codec, RolePlan(m, source, role))
    requires Holds(files, dirs, Destination(RolePlan(m, source, role)), PlanContents(codec, RolePlan(m, source, role)))
    ensures ShareInPlace(codec, m, role, true, files)
  {
    var plan := RolePlan(m, source, role);
    PlanDirectory(m, source, role);
    NamesSpelled();
    StableShare(m, role, plan.manifest);
    assert MANIFEST in PlanContents(codec, plan);
    assert FileIs(files, Destination(plan) + [MANIFEST], codec.encode(plan.manifest));
  }

  lemma PlanPaths(m: Manifest, source: map<Name, Bytes>, role: Role, n: Name)
    requires ValidManifest(m) && role in m.sources && forall c :: c in m.captures ==> c.filename in source
    requires n in Names(RoleManifest(m, role))
    ensures EvidencePath(m, Destination(RolePlan(m, source, role)) + [n])
  {
    PlanDirectory(m, source, role);
    NamesSpelled();
    if n == MANIFEST {
      assert ManifestPath(m, RoleDirectory(m.issue, role, m.sources[role]) + [Chars("manifest.json")]);
    } else {
      var c :| c in RoleCaptures(m.captures, role) && c.filename == n;
      assert CaptureFits(c, m.sources);
      assert ImagePath(m, RoleDirectory(m.issue, c.role, c.sourceSha) + [c.filename]);
    }
  }

  lemma PathPlanned(m: Manifest, source: map<Name, Bytes>, p: Path) returns (role: Role, n: Name)
    requires ValidManifest(m) && (forall c :: c in m.captures ==> c.filename in source) && EvidencePath(m, p)
    ensures role in m.sources && n in Names(RoleManifest(m, role))
    ensures p == Destination(RolePlan(m, source, role)) + [n]
  {
    NamesSpelled();
    if ImagePath(m, p) {
      var c :| c in m.captures && p == RoleDirectory(m.issue, c.role, c.sourceSha) + [c.filename];
      assert CaptureFits(c, m.sources) && c in RoleCaptures(m.captures, c.role);
      role, n := c.role, c.filename;
      assert n in PngNames(RoleManifest(m, role));
    } else {
      role :| role in m.sources && p == RoleDirectory(m.issue, role, m.sources[role]) + [Chars("manifest.json")];
      n := MANIFEST;
    }
    PlanDirectory(m, source, role);
  }

  lemma MatchedFile(codec: Codec, plan: Plan, files: Files, dirs: set<Path>, n: Name)
    requires ValidPlan(plan) && Matches(codec, files, dirs, plan) && n in Names(plan.manifest)
    ensures Destination(plan) + [n] in files
  {
    var m :| CompleteDirectory(codec, files, dirs, Destination(plan), m) && Stable(m) == Stable(plan.manifest);
  }

  /** The reported paths are exactly those of the evidence, the existing ones were there, the added ones not. */
  ghost predicate PathsReported(m: Manifest, files0: Files, files: Files, added: set<Path>, existing: set<Path>) {
    && (forall p :: p in added || p in existing <==> EvidencePath(m, p))
    && existing <= files0.Keys && added !! files0.Keys && files.Keys == files0.Keys + added
  }

  /** One role's part of it. */
  ghost predicate RoleShown(codec: Codec, m: Manifest, source: map<Name, Bytes>, role: Role, dirs0: set<Path>,
      files: Files)
    requires role in m.sources && forall c :: c in m.captures ==> c.filename in source
  {
    var o := RoleDirectory(m.issue, role, m.sources[role]);
    && (forall c :: c in m.captures && c.role == role ==> FileIs(files, o + [c.filename], source[c.filename]))
    && ShareInPlace(codec, m, role, o !in dirs0, files)
    && (forall p :: p in files && Below(o, p) ==> EvidencePath(m, p))
  }

  lemma NothingElseThere(codec: Codec, m: Manifest, source: map<Name, Bytes>, role: Role, files: Files,
      dirs: set<Path>)
    requires Complete(codec, source, m) && role in m.sources && WellFormed(files, dirs)
    requires Matches(codec, files, dirs, RolePlan(m, source, role))
    ensures forall p :: p in files && Below(RoleDirectory(m.issue, role, m.sources[role]), p) ==> EvidencePath(m, p)
  {
    var plan := RolePlan(m, source, role);
    PlanDirectory(m, source, role);
    RolePlanValid(codec, m, source, role);
    forall p | p in files && Below(Destination(plan), p) ensures EvidencePath(m, p) {
      var n := ChildOfMatch(codec, plan, files, dirs, p);
      PlanPaths(m, source, role, n);
    }
  }

  lemma ChildOfMatch(codec: Codec, plan: Plan, files: Files, dirs: set<Path>, p: Path) returns (n: Name)
    requires WellFormed(files, dirs) && Matches(codec, files, dirs, plan)
    requires p in files && Below(Destination(plan), p)
    ensures n in Names(plan.manifest) && p == Destination(plan) + [n]
  {
    var o := Destination(plan);
    var m :| CompleteDirectory(codec, files, dirs, o, m) && Stable(m) == Stable(plan.manifest);
    ChildIsNamed(codec, files, dirs, o, m, p);
    n := p[|o|];
    assert Stable(m).captures == m.captures;
    assert Stable(plan.manifest).captures == plan.manifest.captures;
    assert p == p[..|o|] + [n];
  }

  /** What success says of one plan. */
  ghost predicate PlanSucceeded(codec: Codec, plan: Plan, dirs0: set<Path>, files: Files, dirs: set<Path>) {
    && Matches(codec, files, dirs, plan)
    && (Destination(plan) !in dirs0 ==>
          Loadable(codec, plan) && Holds(files, dirs, Destination(plan), PlanContents(codec, plan)))
  }

  lemma RoleInPlace(codec: Codec, m: Manifest, source: map<Name, Bytes>, role: Role, dirs0: set<Path>, files: Files,
      dirs: set<Path>)
    requires Complete(codec, source, m) && role in m.sources && WellFormed(files, dirs)
    requires PlanSucceeded(codec, RolePlan(m, source, role), dirs0, files, dirs)
    ensures RoleShown(codec, m, source, role, dirs0, files)
  {
    PlanDirectory(m, source, role);
    MatchShows(codec, m, source, role, files, dirs);
    NothingElseThere(codec, m, source, role, files, dirs);
    if RoleDirectory(m.issue, role, m.sources[role]) !in dirs0 {
      FreshShare(codec, m, source, role, files, dirs);
    }
  }

  lemma PlanSucceeds(codec: Codec, plans: seq<Plan>, uuids: seq<Name>, files0: Files, dirs0: set<Path>, files: Files,
      dirs: set<Path>, j: nat)
    requires j < |plans| == |uuids| && Publishable(codec, plans, uuids, files0, dirs0)
    requires Success(codec, plans, files0, dirs0, files, dirs)
    ensures PlanSucceeded(codec, plans[j], dirs0, files, dirs)
  {
    assert PlanPublishable(codec, plans[j], uuids[j], files0, dirs0);
  }

  lemma ShownInPlace(codec: Codec, m: Manifest, source: map<Name, Bytes>, dirs0: set<Path>, files: Files)
    requires ValidManifest(m) && forall c :: c in m.captures ==> c.filename in source
    requires forall role :: role in m.sources ==> RoleShown(codec, m, source, role, dirs0, files)
    ensures EvidenceInPlace(codec, m, source, dirs0, files)
  {
    forall c | c in m.captures
      ensures FileIs(files, RoleDirectory(m.issue, c.role, c.sourceSha) + [c.filename], source[c.filename])
    {
      assert CaptureFits(c, m.sources);
      assert RoleShown(codec, m, source, c.role, dirs0, files);
    }
  }

  lemma SuccessInPlace(codec: Codec, m: Manifest, source: map<Name, Bytes>, roles: seq<Role>, files0: Files,
      dirs0: set<Path>, files: Files, dirs: set<Path>, uuids: seq<Name>)
    requires Complete(codec, source, m) && WellFormed(files, dirs) && |uuids| == |roles|
    requires forall role :: role in roles <==> role in m.sources
    requires Publishable(codec, PlansOf(m, source, roles), uuids, files0, dirs0)
    requires Success(codec, PlansOf(m, source, roles), files0, dirs0, files, dirs)
    ensures EvidenceInPlace(codec, m, source, dirs0, files)
  {
    forall role | role in m.sources ensures RoleShown(codec, m, source, role, dirs0, files) {
      var j :| 0 <= j < |roles| && roles[j] == role;
      PlanSucceeds(codec, PlansOf(m, source, roles), uuids, files0, dirs0, files, dirs, j);
      RoleInPlace(codec, m, source, role, dirs0, files, dirs);
    }
    ShownInPlace(codec, m, source, dirs0, files);
  }

  lemma PathsAmong(m: Manifest, source: map<Name, Bytes>, roles: seq<Role>, dirs0: set<Path>, existing: bool)
    requires ValidManifest(m) && (forall c :: c in m.captures ==> c.filename in source)
    requires forall role :: role in roles ==> role in m.sources
    ensures forall p :: p in RolePaths(PlansOf(m, source, roles), dirs0, existing) ==> EvidencePath(m, p)
  {
    var plans := PlansOf(m, source, roles);
    forall p | p in RolePaths(plans, dirs0, existing) ensures EvidencePath(m, p) {
      var j, n :| 0 <= j < |plans| && n in Names(plans[j].manifest) && p == Destination(plans[j]) + [n];
      assert roles[j] in roles;
      PlanPaths(m, source, roles[j], n);
    }
  }

  lemma PathsAll(m: Manifest, source: map<Name, Bytes>, roles: seq<Role>, dirs0: set<Path>, p: Path)
    requires ValidManifest(m) && (forall c :: c in m.captures ==> c.filename in source)
    requires (forall role :: role in roles <==> role in m.sources) && EvidencePath(m, p)
    ensures var plans := PlansOf(m, source, roles);
      p in RolePaths(plans, dirs0, false) || p in RolePaths(plans, dirs0, true)
  {
    var plans := PlansOf(m, source, roles);
    var role, n := PathPlanned(m, source, p);
    var j :| 0 <= j < |roles| && roles[j] == role;
    RolePathIs(plans, dirs0, j, n);
  }

  lemma ExistingThere(codec: Codec, plans: seq<Plan>, uuids: seq<Name>, files0: Files, dirs0: set<Path>)
    requires |plans| == |uuids| && Publishable(codec, plans, uuids, files0, dirs0)
    requires forall j :: 0 <= j < |plans| ==> ValidPlan(plans[j])
    ensures RolePaths(plans, dirs0, true) <= files0.Keys
  {
    forall p | p in RolePaths(plans, dirs0, true) ensures p in files0 {
      var j, n :| 0 <= j < |plans| && Destination(plans[j]) in dirs0 && n in Names(plans[j].manifest)
        && p == Destination(plans[j]) + [n];
      assert PlanPublishable(codec, plans[j], uuids[j], files0, dirs0);
      MatchedFile(codec, plans[j], files0, dirs0, n);
    }
  }

  lemma SuccessReported(codec: Codec, m: Manifest, source: map<Name, Bytes>, roles: seq<Role>, files0: Files,
      dirs0: set<Path>, files: Files, dirs: set<Path>, uuids: seq<Name>)
    requires Complete(codec, source, m) && |uuids| == |roles|
    requires forall role :: role in roles <==> role in m.sources
    requires ValidPlans(PlansOf(m, source, roles), uuids)
    requires Publishable(codec, PlansOf(m, source, roles), uuids, files0, dirs0)
    requires Success(codec, PlansOf(m, source, roles), files0, dirs0, files, dirs)
    ensures var plans := PlansOf(m, source, roles);
      PathsReported(m, files0, files, RolePaths(plans, dirs0, false), RolePaths(plans, dirs0, true))
  {
    PathsAmong(m, source, roles, dirs0, false);
    PathsAmong(m, source, roles, dirs0, true);
    forall p | EvidencePath(m, p)
      ensures var plans := PlansOf(m, source, roles);
        p in RolePaths(plans, dirs0, false) || p in RolePaths(plans, dirs0, true)
    {
      PathsAll(m, source, roles, dirs0, p);
    }
    ExistingThere(codec, PlansOf(m, source, roles), uuids, files0, dirs0);
  }

  /** `publishEvidenceToCheckout`, with the capture root's files given. */
  method PublishEvidenceToCheckout(c: Checkout, codec: Codec, claimed: Manifest, source: map<Name, Bytes>,
      context: Context, uuids: seq<Name>)
    returns (r: Outcome)
    requires c.Valid() && |uuids| == |ActiveRoles(context.kind)|
    modifies c
    ensures c.Valid() && (old(c.fault) ==> c.fault)
    ensures Kept(old(c.files), c.files)
    ensures r.Threw? && !c.removalFailed ==> c.files == old(c.files)
    ensures r.Published? ==> CanPublish(codec, source, claimed, context, uuids, old(c.files), old(c.dirs))
    ensures r.Published? ==> var plans := PlansOf(claimed, source, ActiveRoles(context.kind));
      && Success(codec, plans, old(c.files), old(c.dirs), c.files, c.dirs)
      && r == Published(RolePaths(plans, old(c.dirs), false), RolePaths(plans, old(c.dirs), true))
    ensures r.Published? ==>
      && EvidenceInPlace(codec, claimed, source, old(c.dirs), c.files)
      && PathsReported(claimed, old(c.files), c.files, r.added, r.existing)
      && claimed.kind == context.kind && claimed.issue == context.issue && claimed.sources == context.sources
      && forall x :: x in claimed.captures ==>
          && codec.digest(source[x.filename]) == x.sha256
          && x.status == if x.role == Base then context.baseStatus else context.candidateStatus
    ensures !c.fault && CanPublish(codec, source, claimed, context, uuids, old(c.files), old(c.dirs)) ==> r.Published?
    ensures c.steady && !old(c.removalFailed) && r.Threw? ==>
      (RunLoose(codec, source, claimed, context, uuids, old(c.dirs), c.stuck) ==>
        !c.removalFailed && c.files == old(c.files))
    ensures var able := CanPublish(codec, source, claimed, context, uuids, old(c.files), old(c.dirs));
      c.calm && !old(c.removalFailed) && able ==>
      var plans := PlansOf(claimed, source, ActiveRoles(context.kind));
      && (r.Published? <==> NoneStuck(plans, uuids, old(c.dirs), c.stuck, |plans|))
      && Halved(codec, plans, uuids, old(c.dirs), c.files, c.dirs, c.stuck, |plans|)
  {
    if !Admissible(codec, source, claimed, context) {
      return Threw;
    }
    var roles := ActiveRoles(context.kind);
    var plans := MakePlans(claimed, source, roles);
    AdmissiblePlans(codec, source, claimed, context, uuids);
    ghost var files0, dirs0 := c.files, c.dirs;
    r := PublishPlans(c, codec, plans, uuids);
    if r.Published? {
      SuccessInPlace(codec, claimed, source, roles, files0, dirs0, c.files, c.dirs, uuids);
      SuccessReported(codec, claimed, source, roles, files0, dirs0, c.files, c.dirs, uuids);
    }
  }

  // Running it again

  /** The same directories and images, and manifests that differ in time and attempt alone. */
  predicate SameEvidence(plan: Plan, again: Plan) {
    Destination(again) == Destination(plan) && again.pngs == plan.pngs &&
      Stable(again.manifest) == Stable(plan.manifest)
  }

  lemma RoleManifestStable(m: Manifest, again: Manifest, role: Role)
    requires Stable(m) == Stable(again) && role in m.sources
    ensures role in again.sources && Stable(RoleManifest(m, role)) == Stable(RoleManifest(again, role))
    ensures m.captures == again.captures && m.issue == again.issue && m.kind == again.kind && m.sources == again.sources
  {
    assert Stable(m).captures == m.captures && Stable(again).captures == again.captures;
    assert Stable(m).sources == m.sources && Stable(again).sources == again.sources;
    assert Stable(m).issue == m.issue && Stable(again).issue == again.issue;
    assert Stable(m).kind == m.kind && Stable(again).kind == again.kind;
    assert Stable(m).subject == m.subject && Stable(again).subject == again.subject;
    assert Stable(m).tools == m.tools && Stable(again).tools == again.tools;
    assert Stable(m).run == m.run.(attempt := 0) && Stable(again).run == again.run.(attempt := 0);
  }

  /** A capture taken again, with equal images, plans the same evidence. */
  lemma RetakenPlans(m: Manifest, source: map<Name, Bytes>, again: Manifest, source2: map<Name, Bytes>, role: Role)
    requires Stable(m) == Stable(again) && role in m.sources && role in again.sources
    requires forall c :: c in m.captures ==> c.filename in source
    requires forall c :: c in again.captures ==> c.filename in source2
    requires forall c :: c in m.captures && c.filename in source2 ==> source2[c.filename] == source[c.filename]
    ensures SameEvidence(RolePlan(m, source, role), RolePlan(again, source2, role))
  {
    RoleManifestStable(m, again, role);
    var a, b := RolePlan(m, source, role), RolePlan(again, source2, role);
    assert PngNames(a.manifest) == PngNames(b.manifest);
    forall n | n in a.pngs ensures n in b.pngs && a.pngs[n] == b.pngs[n] {
      var c :| c in a.manifest.captures && c.filename == n;
    }
  }

  lemma EvidenceFound(codec: Codec, plan: Plan, again: Plan, uuid: Name, files: Files, dirs: set<Path>)
    requires WellFormed(files, dirs) && Matches(codec, files, dirs, plan) && SameEvidence(plan, again)
    ensures Destination(again) in dirs && PlanPublishable(codec, again, uuid, files, dirs)
  {
    RerunMatches(codec, files, dirs, plan, again);
    DirectoryUnblocked(files, dirs, Destination(again));
  }

  /** After a success the same evidence can always be published again, and nothing is then added. */
  lemma RerunAddsNothing(codec: Codec, plans: seq<Plan>, again: seq<Plan>, uuids: seq<Name>, files0: Files,
      dirs0: set<Path>, files: Files, dirs: set<Path>)
    requires WellFormed(files, dirs) && Success(codec, plans, files0, dirs0, files, dirs)
    requires |again| == |plans| == |uuids| && forall j :: 0 <= j < |plans| ==> SameEvidence(plans[j], again[j])
    ensures Publishable(codec, again, uuids, files, dirs)
    ensures RolePaths(again, dirs, false) == {}
  {
    forall j | 0 <= j < |plans|
      ensures Destination(again[j]) in dirs && PlanPublishable(codec, again[j], uuids[j], files, dirs)
    {
      EvidenceFound(codec, plans[j], again[j], uuids[j], files, dirs);
    }
  }

  /** A success that adds nothing changes nothing. */
  lemma NothingAddedNothingChanged(codec: Codec, plans: seq<Plan>, files: Files, dirs: set<Path>, after: Files,
      dirsAfter: set<Path>)
    requires Success(codec, plans, files, dirs, after, dirsAfter) && Kept(files, after)
    requires RolePaths(plans, dirs, false) == {}
    ensures after == files
  {
    assert after.Keys == files.Keys;
  }

  /** The plan's directory is there, but one of its files is missing or one of its images differs. */
  ghost predicate Incomplete(plan: Plan, files: Files, dirs: set<Path>) {
    && Destination(plan) in dirs
    && exists n :: n in Names(plan.manifest) && Damaged(plan, files, n)
  }

  ghost predicate Damaged(plan: Plan, files: Files, n: Name) {
    || Destination(plan) + [n] !in files
    || (n in plan.pngs && files[Destination(plan) + [n]] != plan.pngs[n])
  }

  /** An incomplete destination stops the publication. */
  lemma IncompleteIsRefused(codec: Codec, plans: seq<Plan>, uuids: seq<Name>, files: Files, dirs: set<Path>, j: nat)
    requires ValidPlans(plans, uuids) && WellFormed(files, dirs) && j < |plans| && Incomplete(plans[j], files, dirs)
    ensures !Publishable(codec, plans, uuids, files, dirs)
  {
    var n :| n in Names(plans[j].manifest) && Damaged(plans[j], files, n);
    assert n == MANIFEST || n in plans[j].pngs;
    if Matches(codec, files, dirs, plans[j]) {
      MatchIsWhole(codec, files, dirs, plans[j]);
    }
    assert !PlanPublishable(codec, plans[j], uuids[j], files, dirs);
  }

  /** One call of `publishEvidenceToCheckout`. */
  datatype Request = Request(manifest: Manifest, source: map<Name, Bytes>, context: Context, uuids: seq<Name>)

  ghost predicate WellPosed(q: Request) {
    |q.uuids| == |ActiveRoles(q.context.kind)|
  }

  ghost predicate Planned(codec: Codec, q: Request) {
    WellPosed(q) && Admissible(codec, q.source, q.manifest, q.context)
  }

  ghost function PlansFor(codec: Codec, q: Request): seq<Plan>
    requires Planned(codec, q)
  {
    PlansOf(q.manifest, q.source, ActiveRoles(q.context.kind))
  }

  /** One of the call's destinations is incomplete. */
  ghost predicate FindsIncomplete(codec: Codec, q: Request, files: Files, dirs: set<Path>) {
    Planned(codec, q) && exists j :: 0 <= j < |PlansFor(codec, q)| && Incomplete(PlansFor(codec, q)[j], files, dirs)
  }

  lemma IncompleteStops(codec: Codec, q: Request, files: Files, dirs: set<Path>)
    requires WellFormed(files, dirs) && FindsIncomplete(codec, q, files, dirs)
    ensures !CanPublish(codec, q.source, q.manifest, q.context, q.uuids, files, dirs)
  {
    AdmissiblePlans(codec, q.source, q.manifest, q.context, q.uuids);
    var j :| 0 <= j < |PlansFor(codec, q)| && Incomplete(PlansFor(codec, q)[j], files, dirs);
    IncompleteIsRefused(codec, PlansFor(codec, q), q.uuids, files, dirs, j);
  }

  /** The second call publishes the evidence of the first over again. */
  ghost predicate Retakes(codec: Codec, first: Request, second: Request) {
    && Planned(codec, first) && Planned(codec, second) && |PlansFor(codec, first)| == |PlansFor(codec, second)|
    && forall j :: 0 <= j < |PlansFor(codec, first)| ==>
        SameEvidence(PlansFor(codec, first)[j], PlansFor(codec, second)[j])
  }

  lemma RetakenCanPublish(codec: Codec, first: Request, second: Request, files0: Files, dirs0: set<Path>, files: Files,
      dirs: set<Path>)
    requires WellFormed(files, dirs) && Retakes(codec, first, second)
    requires Success(codec, PlansFor(codec, first), files0, dirs0, files, dirs)
    ensures CanPublish(codec, second.source, second.manifest, second.context, second.uuids, files, dirs)
    ensures RolePaths(PlansFor(codec, second), dirs, false) == {}
  {
    RerunAddsNothing(codec, PlansFor(codec, first), PlansFor(codec, second), second.uuids, files0, dirs0, files, dirs);
  }

  /**
   Two runs, the first of which may die at any effect.  Files from before are never touched by
   either; the second accepts no destination that the first left incomplete, but throws; and
   after a first run that succeeded it adds and changes nothing.
   */
  method PublishTwice(c: Checkout, codec: Codec, first: Request, second: Request)
    returns (r1: Outcome, r2: Outcome, ghost between: Files, ghost betweenDirs: set<Path>)
    requires c.Valid() && WellPosed(first) && WellPosed(second)
    modifies c
    ensures c.Valid() && Kept(old(c.files), between) && Kept(between, c.files)
    ensures FindsIncomplete(codec, second, between, betweenDirs) ==>
      r2.Threw? && (!c.removalFailed ==> c.files == between)
    ensures r2.Published? ==>
      Planned(codec, second) && Success(codec, PlansFor(codec, second), between, betweenDirs, c.files, c.dirs)
    ensures r1.Published? && Retakes(codec, first, second) && !c.fault ==> r2.Published? && r2.added == {}
    ensures r1.Published? && Retakes(codec, first, second) && r2.Published? ==> c.files == between
  {
    ghost var files0, dirs0 := c.files, c.dirs;
    r1 := PublishEvidenceToCheckout(c, codec, first.manifest, first.source, first.context, first.uuids);
    c.Restart();
    between, betweenDirs := c.files, c.dirs;
    r2 := PublishEvidenceToCheckout(c, codec, second.manifest, second.source, second.context, second.uuids);
    if FindsIncomplete(codec, second, between, betweenDirs) {
      IncompleteStops(codec, second, between, betweenDirs);
    }
    if r1.Published? && Retakes(codec, first, second) {
      RetakenCanPublish(codec, first, second, files0, dirs0, between, betweenDirs);
      if r2.Published? {
        NothingAddedNothingChanged(codec, PlansFor(codec, second), between, betweenDirs, c.files, c.dirs);
      }
    }
  }
}
