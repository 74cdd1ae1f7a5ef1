/**
 What one run of the HTTP gate does, in terms of the captured contracts and the rows: which
 requests it sends, what it reports, and which rows it promotes.
 */
module HttpPromotion {
  import opened HttpParity
  import opened Sorting
  import opened Utf16
  import opened Wrappers

  // Rows and contracts by name

  /** The key of a kind and a path. */
  function Named(kind: Text, path: Text): Text {
    kind + Chars(":") + path
  }

  function NameOf(row: MatrixRow): Text {
    Named(row.kind, row.path)
  }

  /** The last row of a key. */
  ghost predicate LastNamed(matrix: seq<MatrixRow>, k: Text, row: MatrixRow) {
    exists i :: 0 <= i < |matrix| && LastAt(matrix, k, i) && matrix[i] == row
  }

  ghost predicate LastAt(matrix: seq<MatrixRow>, k: Text, i: nat)
    requires i < |matrix|
  {
    NameOf(matrix[i]) == k && forall j :: i < j < |matrix| ==> NameOf(matrix[j]) != k
  }

  /** The bindings of the runtime that a server contract is replayed against. */
  ghost predicate RunsUnder(access: AccessRule, c: Recorded, matrix: seq<MatrixRow>, b: Bindings)
    requires c.parsed.Some?
  {
    var identity, k := c.parsed.value.identity, Named(c.parsed.value.kind, c.parsed.value.path);
    if identity == Chars("anonymous") || identity == Chars("unconfigured") then b == map[]
    else
      && (identity == Chars("allowed") || identity == Chars("denied"))
      && (forall row :: LastNamed(matrix, k, row) && row.privateArea.Some? ==>
            access.binding(row.privateArea.value).Some?
            && b == map[access.binding(row.privateArea.value).value := access.address])
      && ((forall row :: LastNamed(matrix, k, row) ==> row.privateArea.None?) ==> b == map[])
  }

  /** The run replays this contract against a runtime with these bindings. */
  ghost predicate Sends(w: World, scope: Scope, contracts: seq<Recorded>, matrix: seq<MatrixRow>, b: Bindings,
      c: Recorded) {
    && c in contracts && c.parsed.Some?
    && var kind, k := c.parsed.value.kind, Named(c.parsed.value.kind, c.parsed.value.path);
    match scope
    case Public => b == map[] && exists row :: LastNamed(matrix, k, row) && w.isPublic(row.kind, row.path)
    case Server => kind == Chars("api") && RunsUnder(w.access, c, matrix, b)
    case _ => b == map[] && (kind == Chars("gone") || kind == Chars("redirect"))
  }

  /** The run fetches the asset of this row. */
  ghost predicate Fetches(w: World, scope: Scope, matrix: seq<MatrixRow>, row: MatrixRow) {
    scope.Public? && row in matrix && row.kind == Chars("asset") && w.isPublic(row.kind, row.path)
  }

  // What differs

  function SemanticsPart(s: Option<Semantics>, part: BodyPart): Option<Text> {
    if s.None? then None
    else match part
      case Canonical => s.value.canonical
      case Robots => s.value.robots
      case NormalizedText => s.value.normalizedText
      case _ => None
  }

  /** A part of two captured bodies differs; the hash is looked at in exact comparisons alone. */
  ghost predicate PartApart(e: CapturedBody, a: CapturedBody, part: BodyPart) {
    match part
    case Comparison => e.exact != a.exact
    case Sha => e.exact && e.sha256 != a.sha256
    case BodyText => e.text != a.text
    case JsonShape => e.jsonShape != a.jsonShape
    case _ => SemanticsPart(e.semantics, part) != SemanticsPart(a.semantics, part)
  }

  ghost predicate Apart(e: HttpContract, a: HttpContract, f: Field) {
    match f
    case RouteKeyField => e.routeKey != a.routeKey
    case StatusField => e.status != a.status
    case HeaderField(name) =>
      (name in e.headers) != (name in a.headers) || (name in e.headers && e.headers[name] != a.headers[name])
    case CaptureField => e.body.Suppressed? != a.body.Suppressed?
    case BodyField(part) => e.body.Captured? && a.body.Captured? && PartApart(e.body.contents, a.body.contents, part)
    case AssetField(_) => false
  }

  ghost predicate AssetApart(row: MatrixRow, expected: Asset, actual: AssetAnswer, part: AssetPart) {
    match part
    case AssetStatus => actual.status != row.expectedStatus
    case AssetBytes => actual.bytes != expected.bytes
    case AssetSha => actual.sha256 != expected.sha256
    case AssetMediaType => actual.mediaType != Some(expected.mediaType)
  }

  /** A field in which the answer to a replayed contract differs from the capture. */
  ghost predicate ContractDiffers(w: World, scope: Scope, contracts: seq<Recorded>, matrix: seq<MatrixRow>, d: HttpDiff)
  {
    exists b, c :: Sends(w, scope, contracts, matrix, b, c)
      && d.routeKey == c.contract.routeKey && Apart(c.contract, w.answers(b, c.contract), d.field)
  }

  /** A property in which a fetched asset differs from the manifest. */
  ghost predicate FetchDiffers(w: World, scope: Scope, matrix: seq<MatrixRow>, manifest: seq<Asset>, d: HttpDiff) {
    exists row, asset :: Fetches(w, scope, matrix, row) && asset in manifest && asset.path == row.sourceFile
      && d.routeKey == NameOf(row) && d.field.AssetField?
      && AssetApart(row, asset, w.fetch(row.path), d.field.asset)
  }

  /** Some replayed contract has this key. */
  ghost predicate Replayed(w: World, scope: Scope, contracts: seq<Recorded>, matrix: seq<MatrixRow>, k: Text) {
    exists b, c :: Sends(w, scope, contracts, matrix, b, c) && k == Named(c.parsed.value.kind, c.parsed.value.path)
  }

  /** Some replayed contract or fetched asset speaks for this key. */
  ghost predicate SpokenFor(w: World, scope: Scope, contracts: seq<Recorded>, matrix: seq<MatrixRow>, k: Text) {
    || Replayed(w, scope, contracts, matrix, k)
    || (exists row :: Fetches(w, scope, matrix, row) && NameOf(row) == k)
  }

  /** The rows a scope may promote. */
  ghost predicate MayPromote(w: World, scope: Scope, row: MatrixRow) {
    match scope
    case Foundation => row.kind == Chars("gone") || row.kind == Chars("redirect")
    case Routing => false
    case Public => w.isPublic(row.kind, row.path)
    case Server => row.kind == Chars("api")
  }

  // These are the requests, fields and rows of the gate

  lemma KindsSpelled()
    ensures API == Chars("api") && ASSET == Chars("asset") && GONE == Chars("gone") && REDIRECT == Chars("redirect")
    ensures PAGE == Chars("page") && PRIVATE_PAGE == Chars("private-page") && VERIFIED == Chars("verified")
    ensures ANONYMOUS == Chars("anonymous") && UNCONFIGURED == Chars("unconfigured")
    ensures ALLOWED == Chars("allowed") && DENIED == Chars("denied") && PUBLIC_PREFIX == Chars("public/")
    ensures [COLON] == Chars(":") && [SLASH] == Chars("/")
  {
  }

  lemma NamesAre(kind: Text, path: Text)
    ensures RouteMatrixKey(kind, path) == Named(kind, path)
  {
    KindsSpelled();
  }

  lemma {:induction false} LastIs(matrix: seq<MatrixRow>, k: Text, row: MatrixRow)
    ensures LastRow(matrix, k) == Some(row) <==> LastNamed(matrix, k, row)
  {
    if matrix != [] {
      var init, last := matrix[..|matrix| - 1], matrix[|matrix| - 1];
      assert matrix == init + [last];
      NamesAre(last.kind, last.path);
      LastIs(init, k, row);
      if NameOf(last) == k {
        assert LastAt(matrix, k, |init|);
      } else {
        LastOfInit(init, last, k, row);
      }
    }
  }

  lemma LastOfInit(init: seq<MatrixRow>, last: MatrixRow, k: Text, row: MatrixRow)
    requires NameOf(last) != k
    ensures LastNamed(init + [last], k, row) <==> LastNamed(init, k, row)
  {
    var matrix := init + [last];
    if i :| 0 <= i < |init| && LastAt(init, k, i) && init[i] == row {
      assert LastAt(matrix, k, i) && matrix[i] == row;
    }
    if i :| 0 <= i < |matrix| && LastAt(matrix, k, i) && matrix[i] == row {
      assert i < |init|;
      forall j | i < j < |init| ensures NameOf(init[j]) != k {
        assert matrix[j] == init[j];
      }
      assert LastAt(init, k, i) && init[i] == row;
    }
  }

  lemma AnyLast(matrix: seq<MatrixRow>, k: Text)
    ensures LastRow(matrix, k).Some? ==> LastNamed(matrix, k, LastRow(matrix, k).value)
    ensures LastRow(matrix, k).None? ==> forall row :: !LastNamed(matrix, k, row)
    ensures forall row :: LastNamed(matrix, k, row) ==> LastRow(matrix, k) == Some(row)
  {
    forall row ensures LastRow(matrix, k) == Some(row) <==> LastNamed(matrix, k, row) {
      LastIs(matrix, k, row);
    }
  }

  lemma BindingsAre(access: AccessRule, c: Recorded, matrix: seq<MatrixRow>, b: Bindings)
    requires c.parsed.Some?
    ensures BindingsFor(access, c, matrix) == Some(b) <==> RunsUnder(access, c, matrix, b)
  {
    KindsSpelled();
    NamesAre(c.parsed.value.kind, c.parsed.value.path);
    AnyLast(matrix, KeyOf(c));
  }

  lemma PartsApart(e: CapturedBody, a: CapturedBody, part: BodyPart)
    ensures PartDiffers(e, a, part) <==> PartApart(e, a, part)
  {
  }

  lemma FieldsApart(e: HttpContract, a: HttpContract, f: Field)
    ensures Differs(e, a, f) <==> Apart(e, a, f)
  {
    if f.BodyField? && e.body.Captured? && a.body.Captured? {
      PartsApart(e.body.contents, a.body.contents, f.part);
    }
  }

  /** The request is one the run makes. */
  ghost predicate Makes(w: World, scope: Scope, contracts: seq<Recorded>, matrix: seq<MatrixRow>, q: Request)
    requires SelectedFor(w, scope, contracts, matrix)
  {
    match scope
    case Public => q.bindings == map[] && q.contract in SelectPublic(w.isPublic, contracts, matrix).value
    case Server => q in OwnRequests(w.access, SelectServer(contracts, matrix).value, matrix)
    case _ => q.bindings == map[] && q.contract in SelectFoundation(contracts).value
  }

  ghost predicate SelectedFor(w: World, scope: Scope, contracts: seq<Recorded>, matrix: seq<MatrixRow>) {
    match scope
    case Public => SelectPublic(w.isPublic, contracts, matrix).Some?
    case Server =>
      SelectServer(contracts, matrix).Some? && Bindable(w.access, SelectServer(contracts, matrix).value, matrix)
    case _ => SelectFoundation(contracts).Some?
  }

  lemma FoundationSends(w: World, scope: Scope, contracts: seq<Recorded>, matrix: seq<MatrixRow>, q: Request)
    requires scope.Foundation? || scope.Routing?
    requires SelectedFor(w, scope, contracts, matrix)
    ensures Makes(w, scope, contracts, matrix, q) <==> Sends(w, scope, contracts, matrix, q.bindings, q.contract)
  {
    KindsSpelled();
  }

  lemma PublicSends(w: World, contracts: seq<Recorded>, matrix: seq<MatrixRow>, q: Request)
    requires SelectedFor(w, Public, contracts, matrix)
    ensures Makes(w, Public, contracts, matrix, q) <==> Sends(w, Public, contracts, matrix, q.bindings, q.contract)
  {
    var c := q.contract;
    if c in contracts {
      NamesAre(c.parsed.value.kind, c.parsed.value.path);
      AnyLast(matrix, KeyOf(c));
    }
  }

  lemma ServerSends(w: World, contracts: seq<Recorded>, matrix: seq<MatrixRow>, q: Request)
    requires SelectedFor(w, Server, contracts, matrix)
    ensures Makes(w, Server, contracts, matrix, q) <==> Sends(w, Server, contracts, matrix, q.bindings, q.contract)
  {
    KindsSpelled();
    var selected := SelectServer(contracts, matrix).value;
    if q in OwnRequests(w.access, selected, matrix) {
      OwnRequestOf(w.access, selected, matrix, q);
      BindingsAre(w.access, q.contract, matrix, q.bindings);
    }
    if Sends(w, Server, contracts, matrix, q.bindings, q.contract) {
      assert q.contract in selected;
      OwnRequestMade(w.access, selected, matrix, q.contract);
      BindingsAre(w.access, q.contract, matrix, q.bindings);
    }
  }

  lemma RunSends(w: World, scope: Scope, contracts: seq<Recorded>, matrix: seq<MatrixRow>, q: Request)
    requires SelectedFor(w, scope, contracts, matrix)
    ensures Makes(w, scope, contracts, matrix, q) <==> Sends(w, scope, contracts, matrix, q.bindings, q.contract)
  {
    match scope
    case Public => PublicSends(w, contracts, matrix, q);
    case Server => ServerSends(w, contracts, matrix, q);
    case _ => FoundationSends(w, scope, contracts, matrix, q);
  }

  lemma FieldReported(answers: Answers, q: Request, d: HttpDiff)
    ensures d in RequestDiffs(answers, q) <==>
      && d.routeKey == q.contract.contract.routeKey
      && Apart(q.contract.contract, answers(q.bindings, q.contract.contract), d.field)
  {
    DiffsAreDifferences(q.contract.contract, answers(q.bindings, q.contract.contract), d);
    FieldsApart(q.contract.contract, answers(q.bindings, q.contract.contract), d.field);
  }

  lemma OneGroup(contracts: seq<Recorded>, q: Request)
    ensures q in GroupRequests(Group(map[], contracts)) <==> q.bindings == map[] && q.contract in contracts
  {
    if q.bindings == map[] && q.contract in contracts {
      var i :| 0 <= i < |contracts| && contracts[i] == q.contract;
      assert GroupRequests(Group(map[], contracts))[i] == q;
    }
  }

  /** The requests of the run as a list. */
  ghost function RequestList(w: World, scope: Scope, contracts: seq<Recorded>, matrix: seq<MatrixRow>): seq<Request>
    requires SelectedFor(w, scope, contracts, matrix)
  {
    match scope
    case Public => GroupRequests(Group(map[], SelectPublic(w.isPublic, contracts, matrix).value))
    case Server => OwnRequests(w.access, SelectServer(contracts, matrix).value, matrix)
    case _ => GroupRequests(Group(map[], SelectFoundation(contracts).value))
  }

  lemma ListSends(w: World, scope: Scope, contracts: seq<Recorded>, matrix: seq<MatrixRow>, q: Request)
    requires SelectedFor(w, scope, contracts, matrix)
    ensures q in RequestList(w, scope, contracts, matrix) <==>
      Sends(w, scope, contracts, matrix, q.bindings, q.contract)
  {
    RunSends(w, scope, contracts, matrix, q);
    match scope
    case Public => OneGroup(SelectPublic(w.isPublic, contracts, matrix).value, q);
    case Server =>
    case _ => OneGroup(SelectFoundation(contracts).value, q);
  }

  lemma ReportedIff(w: World, scope: Scope, contracts: seq<Recorded>, matrix: seq<MatrixRow>, d: HttpDiff)
    requires SelectedFor(w, scope, contracts, matrix)
    ensures Reported(w.answers, RequestList(w, scope, contracts, matrix), d) <==>
      ContractDiffers(w, scope, contracts, matrix, d)
  {
    var requests := RequestList(w, scope, contracts, matrix);
    if Reported(w.answers, requests, d) {
      var q :| q in requests && d in RequestDiffs(w.answers, q);
      ListSends(w, scope, contracts, matrix, q);
      FieldReported(w.answers, q, d);
    }
    if ContractDiffers(w, scope, contracts, matrix, d) {
      var b, c :| Sends(w, scope, contracts, matrix, b, c)
        && d.routeKey == c.contract.routeKey && Apart(c.contract, w.answers(b, c.contract), d.field);
      ListSends(w, scope, contracts, matrix, Request(b, c));
      FieldReported(w.answers, Request(b, c), d);
    }
  }

  lemma FetchedRows(w: World, matrix: seq<MatrixRow>, row: MatrixRow)
    ensures row in AssetRows(w.isPublic, matrix) <==> Fetches(w, Public, matrix, row)
  {
    KindsSpelled();
  }

  lemma OnePath(manifest: seq<Asset>, path: Text, asset: Asset)
    requires forall i, j :: 0 <= i < j < |manifest| ==> manifest[i].path != manifest[j].path
    ensures FindAsset(manifest, path) == Some(asset) <==> asset in manifest && asset.path == path
  {
    if asset in manifest && asset.path == path {
      var other := FindAsset(manifest, path).value;
      var i :| 0 <= i < |manifest| && manifest[i] == asset;
      var j :| 0 <= j < |manifest| && manifest[j] == other;
      assert i == j;
    }
  }

  lemma AssetsApart(row: MatrixRow, expected: Asset, actual: AssetAnswer, part: AssetPart)
    ensures AssetDiffers(row, expected, actual, part) <==> AssetApart(row, expected, actual, part)
  {
  }

  lemma FetchReported(w: World, matrix: seq<MatrixRow>, manifest: seq<Asset>, d: HttpDiff)
    requires forall i, j :: 0 <= i < j < |manifest| ==> manifest[i].path != manifest[j].path
    ensures AssetReported(w.fetch, AssetRows(w.isPublic, matrix), manifest, d) <==>
      FetchDiffers(w, Public, matrix, manifest, d)
  {
    if AssetReported(w.fetch, AssetRows(w.isPublic, matrix), manifest, d) {
      var row :| row in AssetRows(w.isPublic, matrix) && d in RowDiffs(w.fetch, row, manifest);
      var asset := FindAsset(manifest, row.sourceFile).value;
      FetchedRows(w, matrix, row);
      NamesAre(row.kind, row.path);
      AssetsApart(row, asset, w.fetch(row.path), d.field.asset);
    }
    if FetchDiffers(w, Public, matrix, manifest, d) {
      var row, asset :| Fetches(w, Public, matrix, row) && asset in manifest && asset.path == row.sourceFile
        && d.routeKey == NameOf(row) && d.field.AssetField?
        && AssetApart(row, asset, w.fetch(row.path), d.field.asset);
      FetchedRows(w, matrix, row);
      NamesAre(row.kind, row.path);
      OnePath(manifest, row.sourceFile, asset);
      AssetsApart(row, asset, w.fetch(row.path), d.field.asset);
      assert d in RowDiffs(w.fetch, row, manifest);
    }
  }

  /** The run finds exactly the differences of its replayed contracts and fetched assets. */
  lemma FindsIff(w: World, scope: Scope, contracts: seq<Recorded>, matrix: seq<MatrixRow>, manifest: seq<Asset>,
      d: HttpDiff)
    requires Runnable(w, scope, contracts, matrix, manifest)
    ensures Finds(w, scope, contracts, matrix, manifest, d) <==>
      ContractDiffers(w, scope, contracts, matrix, d) || FetchDiffers(w, scope, matrix, manifest, d)
  {
    ReportedIff(w, scope, contracts, matrix, d);
    if scope.Public? {
      FetchReported(w, matrix, manifest, d);
    }
  }

  // Which rows are spoken for

  lemma CoveredBy(answers: Answers, contracts: seq<Recorded>, k: Text)
    requires AllParsed(contracts)
    ensures Covered(ChecksOf(answers, map[], contracts), k) <==> exists c :: c in contracts && KeyOf(c) == k
  {
    var checks := ChecksOf(answers, map[], contracts);
    if c :| c in contracts && KeyOf(c) == k {
      var i :| 0 <= i < |contracts| && contracts[i] == c;
      assert checks[i].key == k;
    }
    if i :| 0 <= i < |checks| && checks[i].key == k {
      assert contracts[i] in contracts;
    }
  }

  lemma CoveredByAsset(w: World, matrix: seq<MatrixRow>, manifest: seq<Asset>, k: Text)
    ensures Covered(AssetChecks(w.fetch, AssetRows(w.isPublic, matrix), manifest), k) <==>
      exists row :: Fetches(w, Public, matrix, row) && NameOf(row) == k
  {
    var rows := AssetRows(w.isPublic, matrix);
    var checks := AssetChecks(w.fetch, rows, manifest);
    if row :| Fetches(w, Public, matrix, row) && NameOf(row) == k {
      FetchedRows(w, matrix, row);
      NamesAre(row.kind, row.path);
      var i :| 0 <= i < |rows| && rows[i] == row;
      assert checks[i].key == k;
    }
    if i :| 0 <= i < |checks| && checks[i].key == k {
      assert rows[i] in rows;
      FetchedRows(w, matrix, rows[i]);
      NamesAre(rows[i].kind, rows[i].path);
    }
  }

  lemma RequestedIff(w: World, scope: Scope, contracts: seq<Recorded>, matrix: seq<MatrixRow>, k: Text)
    requires SelectedFor(w, scope, contracts, matrix)
    ensures Requested(RequestList(w, scope, contracts, matrix), k) <==> Replayed(w, scope, contracts, matrix, k)
  {
    var requests := RequestList(w, scope, contracts, matrix);
    if Requested(requests, k) {
      var q :| q in requests && q.contract.parsed.Some? && KeyOf(q.contract) == k;
      ListSends(w, scope, contracts, matrix, q);
      NamesAre(q.contract.parsed.value.kind, q.contract.parsed.value.path);
    }
    if Replayed(w, scope, contracts, matrix, k) {
      var b, c :| Sends(w, scope, contracts, matrix, b, c) && k == Named(c.parsed.value.kind, c.parsed.value.path);
      ListSends(w, scope, contracts, matrix, Request(b, c));
      NamesAre(c.parsed.value.kind, c.parsed.value.path);
      assert Request(b, c).contract.parsed.Some?;
    }
  }

  lemma RequestedCovered(answers: Answers, contracts: seq<Recorded>, k: Text)
    requires AllParsed(contracts)
    ensures Requested(GroupRequests(Group(map[], contracts)), k) <==> Covered(ChecksOf(answers, map[], contracts), k)
  {
    CoveredBy(answers, contracts, k);
    if c :| c in contracts && KeyOf(c) == k {
      OneGroup(contracts, Request(map[], c));
      assert Request(map[], c).contract.parsed.Some?;
    }
    if Requested(GroupRequests(Group(map[], contracts)), k) {
      var q :| q in GroupRequests(Group(map[], contracts)) && q.contract.parsed.Some? && KeyOf(q.contract) == k;
      OneGroup(contracts, q);
    }
  }

  /** A key is checked exactly when a replayed contract or a fetched asset speaks for it. */
  lemma CheckedIff(w: World, scope: Scope, contracts: seq<Recorded>, matrix: seq<MatrixRow>, manifest: seq<Asset>,
      k: Text)
    requires Runnable(w, scope, contracts, matrix, manifest)
    ensures Checked(w, scope, contracts, matrix, manifest, k) <==> SpokenFor(w, scope, contracts, matrix, k)
  {
    RequestedIff(w, scope, contracts, matrix, k);
    match scope
    case Public =>
      RequestedCovered(w.answers, SelectPublic(w.isPublic, contracts, matrix).value, k);
      CoveredByAsset(w, matrix, manifest, k);
    case Server =>
    case _ => RequestedCovered(w.answers, SelectFoundation(contracts).value, k);
  }

  // What can be run

  ghost predicate KnownWord(kind: Text) {
    || kind == Chars("api") || kind == Chars("asset") || kind == Chars("gone") || kind == Chars("page")
    || kind == Chars("private-page") || kind == Chars("redirect")
  }

  ghost predicate RowNamed(matrix: seq<MatrixRow>, k: Text) {
    exists row :: row in matrix && NameOf(row) == k
  }

  /** An API contract of the baseline is one of this key. */
  ghost predicate ApiNamed(contracts: seq<Recorded>, k: Text) {
    exists c :: c in contracts && c.parsed.Some? && c.parsed.value.kind == Chars("api")
      && Named(c.parsed.value.kind, c.parsed.value.path) == k
  }

  /** An asset row of the matrix is below the public directory, expects 200 and is listed by the manifest. */
  ghost predicate AssetRowSound(manifest: seq<Asset>, row: MatrixRow) {
    && row.expectedStatus == 200 && (exists asset :: asset in manifest && asset.path == row.sourceFile)
    && exists rest :: row.sourceFile == Chars("public/") + rest && row.path == Chars("/") + rest
  }

  /** Matrix and manifest list the same assets, each once. */
  ghost predicate AssetsMatch(w: World, matrix: seq<MatrixRow>, manifest: seq<Asset>) {
    && (forall i, j :: 0 <= i < j < |manifest| ==> manifest[i].path != manifest[j].path)
    && (forall row :: Fetches(w, Public, matrix, row) ==> AssetRowSound(manifest, row))
    && (forall i, j :: 0 <= i < j < |matrix| ==> BothFetched(w, matrix, i, j) ==>
          matrix[i].sourceFile != matrix[j].sourceFile && NameOf(matrix[i]) != NameOf(matrix[j]))
    && (forall a :: a in manifest ==> exists row :: Fetches(w, Public, matrix, row) && row.sourceFile == a.path)
  }

  ghost predicate BothFetched(w: World, matrix: seq<MatrixRow>, i: nat, j: nat)
    requires i < |matrix| && j < |matrix|
  {
    Fetches(w, Public, matrix, matrix[i]) && Fetches(w, Public, matrix, matrix[j])
  }

  /** Everything the scope has to check is there to be checked. */
  ghost predicate CanRun(w: World, scope: Scope, contracts: seq<Recorded>, matrix: seq<MatrixRow>,
      manifest: seq<Asset>) {
    && (forall c :: c in contracts ==> c.parsed.Some?)
    && match scope
       case Public =>
         && (forall c :: c in contracts ==>
               || RowNamed(matrix, Named(c.parsed.value.kind, c.parsed.value.path))
               || c.parsed.value.kind == Chars("api") || c.parsed.value.kind == Chars("private-page"))
         && AssetsMatch(w, matrix, manifest)
       case Server =>
         && (forall row :: row in matrix ==> KnownWord(row.kind))
         && (forall i, j :: 0 <= i < j < |matrix| ==> NameOf(matrix[i]) != NameOf(matrix[j]))
         && (forall c :: c in contracts ==> KnownWord(c.parsed.value.kind))
         && (forall c :: c in contracts && c.parsed.value.kind == Chars("api") ==>
               && RowNamed(matrix, Named(c.parsed.value.kind, c.parsed.value.path))
               && exists b :: RunsUnder(w.access, c, matrix, b))
         && (forall row :: row in matrix && row.kind == Chars("api") ==> ApiNamed(contracts, NameOf(row)))
       case _ => true
  }

  lemma NamedRow(matrix: seq<MatrixRow>, k: Text)
    ensures LastRow(matrix, k).Some? <==> RowNamed(matrix, k)
  {
    forall row | row in matrix ensures RowKey(row) == NameOf(row) {
      NamesAre(row.kind, row.path);
    }
  }

  ghost predicate Pairs<T(!new)>(s: seq<T>, apart: (T, T) -> bool) {
    forall i, j :: 0 <= i < j < |s| ==> apart(s[i], s[j])
  }

  ghost predicate KeptPairs<T(!new)>(keep: T -> bool, s: seq<T>, apart: (T, T) -> bool) {
    forall i, j :: 0 <= i < j < |s| && keep(s[i]) && keep(s[j]) ==> apart(s[i], s[j])
  }

  ghost predicate Against<T(!new)>(first: T, s: seq<T>, apart: (T, T) -> bool) {
    forall x :: x in s ==> apart(first, x)
  }

  ghost predicate KeptAgainst<T(!new)>(keep: T -> bool, first: T, s: seq<T>, apart: (T, T) -> bool) {
    forall x :: x in s && keep(x) ==> apart(first, x)
  }

  lemma AgainstKept<T(!new)>(keep: T -> bool, first: T, s: seq<T>, apart: (T, T) -> bool)
    ensures Against(first, Filter(keep, s), apart) <==> KeptAgainst(keep, first, s, apart)
  {
  }

  lemma FilterStep<T(!new)>(keep: T -> bool, s: seq<T>)
    requires s != []
    ensures Filter(keep, s) == (if keep(s[0]) then [s[0]] else []) + Filter(keep, s[1..])
  {
  }

  lemma PairsWith<T(!new)>(first: T, s: seq<T>, apart: (T, T) -> bool)
    ensures Pairs([first] + s, apart) <==> Pairs(s, apart) && Against(first, s, apart)
  {
    var t := [first] + s;
    assert t[0] == first && forall i :: 1 <= i < |t| ==> t[i] == s[i - 1];
    if Pairs(t, apart) {
      forall i, j | 0 <= i < j < |s| ensures apart(s[i], s[j]) {
        assert apart(t[i + 1], t[j + 1]);
      }
      forall x | x in s ensures apart(first, x) {
        var j :| 0 <= j < |s| && s[j] == x;
        assert apart(t[0], t[j + 1]);
      }
    }
  }

  lemma KeptPairsWith<T(!new)>(keep: T -> bool, first: T, s: seq<T>, apart: (T, T) -> bool)
    ensures KeptPairs(keep, [first] + s, apart) <==>
      KeptPairs(keep, s, apart) && (keep(first) ==> KeptAgainst(keep, first, s, apart))
  {
    var t := [first] + s;
    assert t[0] == first && forall i :: 1 <= i < |t| ==> t[i] == s[i - 1];
    if KeptPairs(keep, t, apart) {
      forall i, j | 0 <= i < j < |s| && keep(s[i]) && keep(s[j]) ensures apart(s[i], s[j]) {
        assert apart(t[i + 1], t[j + 1]);
      }
      forall x | x in s && keep(x) && keep(first) ensures apart(first, x) {
        var j :| 0 <= j < |s| && s[j] == x;
        assert apart(t[0], t[j + 1]);
      }
    }
  }

  lemma {:induction false} FilterPairs<T(!new)>(keep: T -> bool, s: seq<T>, apart: (T, T) -> bool)
    ensures Pairs(Filter(keep, s), apart) <==> KeptPairs(keep, s, apart)
  {
    if s == [] {
      assert Filter(keep, s) == [];
    } else {
      var first, rest := s[0], s[1..];
      FilterPairs(keep, rest, apart);
      FilterStep(keep, s);
      assert s == [first] + rest;
      KeptPairsWith(keep, first, rest, apart);
      AgainstKept(keep, first, rest, apart);
      PairsWith(first, Filter(keep, rest), apart);
      assert [] + Filter(keep, rest) == Filter(keep, rest);
    }
  }

  lemma SoundRow(manifest: seq<Asset>, row: MatrixRow)
    ensures AssetRowFits(row, manifest) <==> AssetRowSound(manifest, row)
  {
    KindsSpelled();
    if AssetRowFits(row, manifest) {
      var rest := row.sourceFile[|PUBLIC_PREFIX|..];
      assert row.sourceFile == Chars("public/") + rest && row.path == Chars("/") + rest;
    }
    if rest :| row.sourceFile == Chars("public/") + rest && row.path == Chars("/") + rest {
      assert row.sourceFile[|PUBLIC_PREFIX|..] == rest;
    }
  }

  lemma RowPairs(w: World, matrix: seq<MatrixRow>)
    ensures var rows := AssetRows(w.isPublic, matrix);
      (forall i, j :: 0 <= i < j < |rows| ==>
         rows[i].sourceFile != rows[j].sourceFile && RowKey(rows[i]) != RowKey(rows[j])) <==>
      forall i, j :: 0 <= i < j < |matrix| ==> BothFetched(w, matrix, i, j) ==>
        matrix[i].sourceFile != matrix[j].sourceFile && NameOf(matrix[i]) != NameOf(matrix[j])
  {
    KindsSpelled();
    var keep := (row: MatrixRow) => row.kind == ASSET && IsPublic(w.isPublic, row);
    var apart := (a: MatrixRow, b: MatrixRow) => a.sourceFile != b.sourceFile && RowKey(a) != RowKey(b);
    FilterPairs(keep, matrix, apart);
    assert AssetRows(w.isPublic, matrix) == Filter(keep, matrix);
    forall row: MatrixRow ensures RowKey(row) == NameOf(row) {
      NamesAre(row.kind, row.path);
    }
    forall i | 0 <= i < |matrix| ensures keep(matrix[i]) <==> Fetches(w, Public, matrix, matrix[i]) {
      assert matrix[i] in matrix;
    }
  }

  lemma AssetsMatchIff(w: World, matrix: seq<MatrixRow>, manifest: seq<Asset>)
    ensures AssetsAcceptable(AssetRows(w.isPublic, matrix), manifest) <==> AssetsMatch(w, matrix, manifest)
  {
    RowPairs(w, matrix);
    forall row ensures row in AssetRows(w.isPublic, matrix) <==> Fetches(w, Public, matrix, row) {
      FetchedRows(w, matrix, row);
    }
    forall row ensures AssetRowFits(row, manifest) <==> AssetRowSound(manifest, row) {
      SoundRow(manifest, row);
    }
  }

  lemma PublicIff(w: World, contracts: seq<Recorded>, matrix: seq<MatrixRow>, manifest: seq<Asset>)
    ensures Runnable(w, Public, contracts, matrix, manifest) <==> CanRun(w, Public, contracts, matrix, manifest)
  {
    KindsSpelled();
    AssetsMatchIff(w, matrix, manifest);
    forall c | c in contracts && c.parsed.Some?
      ensures PublicKnown(c, matrix) <==>
        || RowNamed(matrix, Named(c.parsed.value.kind, c.parsed.value.path))
        || c.parsed.value.kind == Chars("api") || c.parsed.value.kind == Chars("private-page")
    {
      NamesAre(c.parsed.value.kind, c.parsed.value.path);
      NamedRow(matrix, KeyOf(c));
    }
  }

  lemma ApiContracts(contracts: seq<Recorded>, row: MatrixRow)
    requires AllParsed(contracts)
    ensures (exists c :: c in contracts && IsApi(c) && KeyOf(c) == RowKey(row)) <==> ApiNamed(contracts, NameOf(row))
  {
    KindsSpelled();
    NamesAre(row.kind, row.path);
    forall c | c in contracts ensures KeyOf(c) == Named(c.parsed.value.kind, c.parsed.value.path) {
      NamesAre(c.parsed.value.kind, c.parsed.value.path);
    }
  }

  lemma BoundIff(access: AccessRule, c: Recorded, matrix: seq<MatrixRow>)
    requires c.parsed.Some?
    ensures Bound(access, c, matrix) <==> exists b :: RunsUnder(access, c, matrix, b)
  {
    if Bound(access, c, matrix) {
      BindingsAre(access, c, matrix, BindingsFor(access, c, matrix).value);
    }
    if b :| RunsUnder(access, c, matrix, b) {
      BindingsAre(access, c, matrix, b);
    }
  }

  lemma BindableIff(access: AccessRule, contracts: seq<Recorded>, matrix: seq<MatrixRow>)
    requires SelectServer(contracts, matrix).Some?
    ensures Bindable(access, SelectServer(contracts, matrix).value, matrix) <==>
      forall c :: c in contracts && IsApi(c) ==> exists b :: RunsUnder(access, c, matrix, b)
  {
    var selected := SelectServer(contracts, matrix).value;
    forall c | c in selected ensures Bound(access, c, matrix) <==> exists b :: RunsUnder(access, c, matrix, b) {
      BoundIff(access, c, matrix);
    }
    assert forall c :: c in selected <==> c in contracts && IsApi(c);
    if Bindable(access, selected, matrix) {
      forall c | c in contracts && IsApi(c) ensures exists b :: RunsUnder(access, c, matrix, b) {
        assert c in selected;
        var i :| 0 <= i < |selected| && selected[i] == c;
        assert Bound(access, selected[i], matrix);
      }
    }
    if forall c :: c in contracts && IsApi(c) ==> exists b :: RunsUnder(access, c, matrix, b) {
      forall i | 0 <= i < |selected| ensures Bound(access, selected[i], matrix) {
        assert selected[i] in selected;
      }
    }
  }

  lemma ServerAcceptableIff(contracts: seq<Recorded>, matrix: seq<MatrixRow>)
    ensures ServerAcceptable(contracts, matrix) <==>
      && (forall c :: c in contracts ==> c.parsed.Some?)
      && (forall row :: row in matrix ==> KnownWord(row.kind))
      && (forall i, j :: 0 <= i < j < |matrix| ==> NameOf(matrix[i]) != NameOf(matrix[j]))
      && (forall c :: c in contracts ==> KnownWord(c.parsed.value.kind))
      && (forall c :: c in contracts && c.parsed.value.kind == Chars("api") ==>
            RowNamed(matrix, Named(c.parsed.value.kind, c.parsed.value.path)))
      && (forall row :: row in matrix && row.kind == Chars("api") ==> ApiNamed(contracts, NameOf(row)))
  {
    KindsSpelled();
    forall row: MatrixRow ensures RowKey(row) == NameOf(row) {
      NamesAre(row.kind, row.path);
    }
    if AllParsed(contracts) {
      forall c | c in contracts
        ensures LastRow(matrix, KeyOf(c)).Some? <==>
          RowNamed(matrix, Named(c.parsed.value.kind, c.parsed.value.path))
      {
        NamesAre(c.parsed.value.kind, c.parsed.value.path);
        NamedRow(matrix, KeyOf(c));
      }
      forall row: MatrixRow
        ensures (exists c :: c in contracts && IsApi(c) && KeyOf(c) == RowKey(row)) <==>
          ApiNamed(contracts, NameOf(row))
      {
        ApiContracts(contracts, row);
      }
    }
  }

  lemma ServerIff(w: World, contracts: seq<Recorded>, matrix: seq<MatrixRow>, manifest: seq<Asset>)
    ensures Runnable(w, Server, contracts, matrix, manifest) <==> CanRun(w, Server, contracts, matrix, manifest)
  {
    KindsSpelled();
    ServerAcceptableIff(contracts, matrix);
    if SelectServer(contracts, matrix).Some? {
      BindableIff(w.access, contracts, matrix);
    }
  }

  /** The run refuses exactly what it has no way to check. */
  lemma RunnableIff(w: World, scope: Scope, contracts: seq<Recorded>, matrix: seq<MatrixRow>, manifest: seq<Asset>)
    ensures Runnable(w, scope, contracts, matrix, manifest) <==> CanRun(w, scope, contracts, matrix, manifest)
  {
    match scope
    case Public => PublicIff(w, contracts, matrix, manifest);
    case Server => ServerIff(w, contracts, matrix, manifest);
    case _ =>
  }

  /** What is promoted: a row the scope may promote that something spoke for. */
  ghost predicate Promotes(w: World, scope: Scope, contracts: seq<Recorded>, matrix: seq<MatrixRow>, row: MatrixRow) {
    MayPromote(w, scope, row) && SpokenFor(w, scope, contracts, matrix, NameOf(row))
  }

  lemma PromotesIff(w: World, scope: Scope, contracts: seq<Recorded>, matrix: seq<MatrixRow>, manifest: seq<Asset>,
      row: MatrixRow)
    requires Runnable(w, scope, contracts, matrix, manifest)
    ensures InScope(scope, w.isPublic, row) && Checked(w, scope, contracts, matrix, manifest, RowKey(row)) <==>
      Promotes(w, scope, contracts, matrix, row)
  {
    KindsSpelled();
    NamesAre(row.kind, row.path);
    CheckedIff(w, scope, contracts, matrix, manifest, RowKey(row));
  }

  /** `runHttpParity`: the differences it reports, unless it throws, and the matrix it writes, if it writes one. */
  method RunHttpParity(w: World, scope: Scope, contracts: seq<Recorded>, matrix: seq<MatrixRow>, manifest: seq<Asset>)
    returns (written: Option<seq<MatrixRow>>, report: Option<seq<HttpDiff>>)
    ensures report.Some? <==> CanRun(w, scope, contracts, matrix, manifest)
    ensures report.Some? ==> forall d :: d in report.value <==>
      ContractDiffers(w, scope, contracts, matrix, d) || FetchDiffers(w, scope, matrix, manifest, d)
    ensures written.Some? <==> !scope.Routing? && report == Some([])
    ensures written.Some? ==>
      && |written.value| == |matrix|
      && forall i :: 0 <= i < |matrix| ==>
           written.value[i] ==
             if Promotes(w, scope, contracts, matrix, matrix[i]) then matrix[i].(status := Chars("verified"))
             else matrix[i]
    ensures report.Some? <==> Runnable(w, scope, contracts, matrix, manifest)
    ensures written.Some? ==> AllAgreed(w, scope, contracts, matrix, manifest)
  {
    RunnableIff(w, scope, contracts, matrix, manifest);
    var parity := RunScope(w, scope, contracts, matrix, manifest);
    if parity.None? {
      return None, None;
    }
    var updated := ApplyResults(scope, w.isPublic, matrix, parity.value.verified);
    written := if scope != Routing && parity.value.diffs == [] then Some(updated) else None;
    report := Some(parity.value.diffs);
    KindsSpelled();
    forall d ensures d in parity.value.diffs <==>
      ContractDiffers(w, scope, contracts, matrix, d) || FetchDiffers(w, scope, matrix, manifest, d)
    {
      FindsIff(w, scope, contracts, matrix, manifest, d);
    }
    forall i | 0 <= i < |matrix|
      ensures Promotes(w, scope, contracts, matrix, matrix[i]) <==>
        InScope(scope, w.isPublic, matrix[i]) && Checked(w, scope, contracts, matrix, manifest, RowKey(matrix[i]))
    {
      PromotesIff(w, scope, contracts, matrix, manifest, matrix[i]);
    }
  }
}
