/**
 The HTTP parity gate: captured contracts are replayed against the built worker, and rows of
 the route matrix are promoted only when everything the run checked agreed.  Parsing of route
 keys and the rule for public routes are parameters, and so are the worker's answers.
 */
module HttpParity {
  import opened Sorting
  import opened Utf16
  import opened Wrappers

  const API: Text := [0x61, 0x70, 0x69]
  const ASSET: Text := [0x61, 0x73, 0x73, 0x65, 0x74]
  const GONE: Text := [0x67, 0x6F, 0x6E, 0x65]
  const PAGE: Text := [0x70, 0x61, 0x67, 0x65]
  const PRIVATE_PAGE: Text := [0x70, 0x72, 0x69, 0x76, 0x61, 0x74, 0x65, MINUS, 0x70, 0x61, 0x67, 0x65]
  const REDIRECT: Text := [0x72, 0x65, 0x64, 0x69, 0x72, 0x65, 0x63, 0x74]
  const VERIFIED: Text := [0x76, 0x65, 0x72, 0x69, 0x66, 0x69, 0x65, 0x64]

  predicate FoundationKind(kind: Text) {
    kind == GONE || kind == REDIRECT
  }

  predicate KnownKind(kind: Text) {
    kind == API || kind == ASSET || kind == GONE || kind == PAGE || kind == PRIVATE_PAGE || kind == REDIRECT
  }

  // Contracts

  datatype Semantics = Semantics(canonical: Option<Text>, robots: Option<Text>, normalizedText: Option<Text>)

  datatype CapturedBody = CapturedBody(
    exact: bool, sha256: Text, htmlPath: Option<Text>, semantics: Option<Semantics>, text: Option<Text>,
    jsonShape: Option<Text>)

  /** A private page shown to someone allowed in has its body suppressed. */
  datatype Body = Suppressed | Captured(contents: CapturedBody)

  datatype HttpContract = HttpContract(routeKey: Text, status: int, headers: map<Text, Text>, body: Body)

  datatype BodyPart = Comparison | Sha | Canonical | Robots | NormalizedText | BodyText | JsonShape

  datatype AssetPart = AssetStatus | AssetBytes | AssetSha | AssetMediaType

  datatype Field =
    | RouteKeyField | StatusField | HeaderField(name: Text) | CaptureField
    | BodyField(part: BodyPart) | AssetField(asset: AssetPart)

  datatype HttpDiff = HttpDiff(routeKey: Text, field: Field)

  function Header(headers: map<Text, Text>, name: Text): Option<Text> {
    if name in headers then Some(headers[name]) else None
  }

  /** `htmlSemantics?.field ?? null`: no semantics read as semantics with nothing in them. */
  function Found(semantics: Option<Semantics>): Semantics {
    if semantics.Some? then semantics.value else Semantics(None, None, None)
  }

  /** Hashes count only in exact comparisons; the path of the stored HTML never does. */
  predicate PartDiffers(e: CapturedBody, a: CapturedBody, part: BodyPart) {
    match part
    case Comparison => e.exact != a.exact
    case Sha => e.exact && e.sha256 != a.sha256
    case Canonical => Found(e.semantics).canonical != Found(a.semantics).canonical
    case Robots => Found(e.semantics).robots != Found(a.semantics).robots
    case NormalizedText => Found(e.semantics).normalizedText != Found(a.semantics).normalizedText
    case BodyText => e.text != a.text
    case JsonShape => e.jsonShape != a.jsonShape
  }

  /** A body part differs only when both bodies were captured. */
  predicate Differs(e: HttpContract, a: HttpContract, f: Field) {
    match f
    case RouteKeyField => e.routeKey != a.routeKey
    case StatusField => e.status != a.status
    case HeaderField(name) => Header(e.headers, name) != Header(a.headers, name)
    case CaptureField => e.body.Captured? != a.body.Captured?
    case BodyField(part) => e.body.Captured? && a.body.Captured? && PartDiffers(e.body.contents, a.body.contents, part)
    case AssetField(_) => false
  }

  function DiffsOver(e: HttpContract, a: HttpContract, fields: seq<Field>): seq<HttpDiff> {
    if fields == [] then []
    else
      DiffsOver(e, a, fields[..|fields| - 1])
      + if Differs(e, a, fields[|fields| - 1]) then [HttpDiff(e.routeKey, fields[|fields| - 1])] else []
  }

  function HeaderFields(names: seq<Text>): (r: seq<Field>)
    ensures |r| == |names| && forall i :: 0 <= i < |names| ==> r[i] == HeaderField(names[i])
  {
    seq(|names|, i requires 0 <= i < |names| => HeaderField(names[i]))
  }

  /** The order in which fields are compared; body parts are not even looked at unless both bodies were captured. */
  function Compared(e: HttpContract, a: HttpContract): seq<Field> {
    [RouteKeyField, StatusField] + HeaderFields(SortedTexts(e.headers.Keys + a.headers.Keys)) + [CaptureField]
    + if e.body.Captured? && a.body.Captured? then BODY_FIELDS else []
  }

  const BODY_FIELDS: seq<Field> :=
    [BodyField(Comparison), BodyField(Sha), BodyField(Canonical), BodyField(Robots), BodyField(NormalizedText),
     BodyField(BodyText), BodyField(JsonShape)]

  lemma EveryPartListed(part: BodyPart)
    ensures BodyField(part) in BODY_FIELDS
  {
    match part
    case Comparison => assert BODY_FIELDS[0] == BodyField(part);
    case Sha => assert BODY_FIELDS[1] == BodyField(part);
    case Canonical => assert BODY_FIELDS[2] == BodyField(part);
    case Robots => assert BODY_FIELDS[3] == BodyField(part);
    case NormalizedText => assert BODY_FIELDS[4] == BodyField(part);
    case BodyText => assert BODY_FIELDS[5] == BodyField(part);
    case JsonShape => assert BODY_FIELDS[6] == BodyField(part);
  }

  lemma HeaderListed(e: HttpContract, a: HttpContract, name: Text)
    requires Differs(e, a, HeaderField(name))
    ensures HeaderField(name) in HeaderFields(SortedTexts(e.headers.Keys + a.headers.Keys))
  {
    var names := SortedTexts(e.headers.Keys + a.headers.Keys);
    assert name in names;
    var i :| 0 <= i < |names| && names[i] == name;
    assert HeaderFields(names)[i] == HeaderField(name);
  }

  /** `compareHttpContract` */
  function CompareHttpContract(e: HttpContract, a: HttpContract): seq<HttpDiff> {
    DiffsOver(e, a, Compared(e, a))
  }

  predicate BodiesAgree(e: CapturedBody, a: CapturedBody) {
    && e.exact == a.exact
    && (e.exact ==> e.sha256 == a.sha256)
    && Found(e.semantics) == Found(a.semantics)
    && e.text == a.text
    && e.jsonShape == a.jsonShape
  }

  /** The worker's answer is what was captured, as far as the gate looks. */
  predicate Agrees(e: HttpContract, a: HttpContract) {
    && e.routeKey == a.routeKey && e.status == a.status && e.headers == a.headers
    && e.body.Captured? == a.body.Captured?
    && (e.body.Captured? ==> BodiesAgree(e.body.contents, a.body.contents))
  }

  lemma {:induction false} DiffsOverList(e: HttpContract, a: HttpContract, fields: seq<Field>, d: HttpDiff)
    ensures d in DiffsOver(e, a, fields) <==> d.routeKey == e.routeKey && d.field in fields && Differs(e, a, d.field)
  {
    if fields != [] {
      var init, last := fields[..|fields| - 1], fields[|fields| - 1];
      assert fields == init + [last];
      DiffsOverList(e, a, init, d);
    }
  }

  lemma DifferenceCompared(e: HttpContract, a: HttpContract, f: Field)
    requires Differs(e, a, f)
    ensures f in Compared(e, a)
  {
    match f
    case HeaderField(name) => HeaderListed(e, a, name);
    case BodyField(part) => EveryPartListed(part);
    case CaptureField =>
    case StatusField =>
    case RouteKeyField =>
    case AssetField(_) =>
  }

  /** The comparison lists exactly the fields that differ. */
  lemma DiffsAreDifferences(e: HttpContract, a: HttpContract, d: HttpDiff)
    ensures d in CompareHttpContract(e, a) <==> d.routeKey == e.routeKey && Differs(e, a, d.field)
  {
    DiffsOverList(e, a, Compared(e, a), d);
    if Differs(e, a, d.field) {
      DifferenceCompared(e, a, d.field);
    }
  }

  lemma SameHeaders(e: map<Text, Text>, a: map<Text, Text>)
    requires forall name :: Header(e, name) == Header(a, name)
    ensures e == a
  {
    forall name ensures name in e <==> name in a {
      assert Header(e, name) == Header(a, name);
    }
    forall name | name in e ensures e[name] == a[name] {
      assert Header(e, name) == Header(a, name);
    }
  }

  lemma SameBodies(e: CapturedBody, a: CapturedBody)
    ensures BodiesAgree(e, a) <==> forall part :: !PartDiffers(e, a, part)
  {
    if forall part :: !PartDiffers(e, a, part) {
      assert !PartDiffers(e, a, Comparison) && !PartDiffers(e, a, Sha) && !PartDiffers(e, a, Canonical);
      assert !PartDiffers(e, a, Robots) && !PartDiffers(e, a, NormalizedText);
      assert !PartDiffers(e, a, BodyText) && !PartDiffers(e, a, JsonShape);
    }
  }

  lemma AgreesIff(e: HttpContract, a: HttpContract)
    ensures Agrees(e, a) <==> forall f :: !Differs(e, a, f)
  {
    if forall f :: !Differs(e, a, f) {
      assert !Differs(e, a, RouteKeyField) && !Differs(e, a, StatusField) && !Differs(e, a, CaptureField);
      forall name ensures Header(e.headers, name) == Header(a.headers, name) {
        assert !Differs(e, a, HeaderField(name));
      }
      SameHeaders(e.headers, a.headers);
      if e.body.Captured? {
        forall part ensures !PartDiffers(e.body.contents, a.body.contents, part) {
          assert !Differs(e, a, BodyField(part));
        }
        SameBodies(e.body.contents, a.body.contents);
      }
    } else if e.body.Captured? && a.body.Captured? {
      SameBodies(e.body.contents, a.body.contents);
    }
  }

  /** Nothing is listed exactly when the contracts agree. */
  lemma NoDiffsIff(e: HttpContract, a: HttpContract)
    ensures CompareHttpContract(e, a) == [] <==> Agrees(e, a)
  {
    AgreesIff(e, a);
    if CompareHttpContract(e, a) == [] {
      forall f ensures !Differs(e, a, f) {
        DiffsAreDifferences(e, a, HttpDiff(e.routeKey, f));
      }
    } else {
      var d := CompareHttpContract(e, a)[0];
      assert d in CompareHttpContract(e, a);
      DiffsAreDifferences(e, a, d);
    }
  }

  // Checks and the keys they verify

  /** One comparison of a run: the row it speaks for, and whether it agreed. */
  datatype Check = Check(key: Text, passed: bool)

  ghost predicate Covered(checks: seq<Check>, k: Text) {
    exists i :: 0 <= i < |checks| && checks[i].key == k
  }

  ghost predicate Fails(checks: seq<Check>, k: Text) {
    exists i :: 0 <= i < |checks| && checks[i].key == k && !checks[i].passed
  }

  /** At least one check speaks for the row and every one that does agreed. */
  ghost predicate Proven(checks: seq<Check>, k: Text) {
    Covered(checks, k) && !Fails(checks, k)
  }

  lemma OneMoreCheck(checks: seq<Check>, n: nat)
    requires n < |checks|
    ensures forall k :: Covered(checks[..n + 1], k) <==> Covered(checks[..n], k) || k == checks[n].key
    ensures forall k :: Fails(checks[..n + 1], k) <==>
      Fails(checks[..n], k) || (k == checks[n].key && !checks[n].passed)
  {
    CoveredConcat(checks[..n], [checks[n]]);
    assert checks[..n + 1] == checks[..n] + [checks[n]];
    assert [checks[n]][0] == checks[n];
  }

  lemma CoveredConcat(a: seq<Check>, b: seq<Check>)
    ensures forall k :: Covered(a + b, k) <==> Covered(a, k) || Covered(b, k)
    ensures forall k :: Fails(a + b, k) <==> Fails(a, k) || Fails(b, k)
  {
    forall i | 0 <= i < |a| ensures (a + b)[i] == a[i] { }
    forall i | 0 <= i < |b| ensures (a + b)[|a| + i] == b[i] { }
    forall k ensures Covered(a + b, k) <==> Covered(a, k) || Covered(b, k) {
      if Covered(b, k) {
        var i :| 0 <= i < |b| && b[i].key == k;
        assert (a + b)[|a| + i].key == k;
      }
    }
    forall k ensures Fails(a + b, k) <==> Fails(a, k) || Fails(b, k) {
      if Fails(b, k) {
        var i :| 0 <= i < |b| && b[i].key == k && !b[i].passed;
        assert (a + b)[|a| + i].key == k;
      }
    }
  }

  // The baseline and the matrix

  /** A route key taken apart. */
  datatype Parsed = Parsed(kind: Text, path: Text, identity: Text)

  /** A captured contract; its route key may not parse. */
  datatype Recorded = Recorded(contract: HttpContract, parsed: Option<Parsed>)

  datatype MatrixRow = MatrixRow(
    kind: Text, path: Text, privateArea: Option<Text>, sourceFile: Text, expectedStatus: int, status: Text, rest: Text)

  function RouteMatrixKey(kind: Text, path: Text): Text {
    kind + [COLON] + path
  }

  function RowKey(row: MatrixRow): Text {
    RouteMatrixKey(row.kind, row.path)
  }

  function KeyOf(c: Recorded): Text
    requires c.parsed.Some?
  {
    RouteMatrixKey(c.parsed.value.kind, c.parsed.value.path)
  }

  predicate AllParsed(contracts: seq<Recorded>) {
    forall c :: c in contracts ==> c.parsed.Some?
  }

  /** `new Map(matrix.map(...)).get(key)`: the last row of that key. */
  function LastRow(matrix: seq<MatrixRow>, key: Text): (r: Option<MatrixRow>)
    ensures r.Some? ==> r.value in matrix && RowKey(r.value) == key
    ensures r.None? ==> forall row :: row in matrix ==> RowKey(row) != key
  {
    if matrix == [] then None else
    var init, last := matrix[..|matrix| - 1], matrix[|matrix| - 1];
    assert matrix == init + [last];
    if RowKey(last) == key then Some(last) else LastRow(init, key)
  }

  function Filter<T(!new)>(keep: T -> bool, s: seq<T>): (r: seq<T>)
    ensures forall e :: e in r <==> e in s && keep(e)
  {
    if s == [] then [] else
    assert s == [s[0]] + s[1..];
    (if keep(s[0]) then [s[0]] else []) + Filter(keep, s[1..])
  }

  // What a scope runs

  datatype Scope = Foundation | Routing | Public | Server

  /** `isPhase2PublicRoute`, which looks at a row's kind and path. */
  type PublicRule = (Text, Text) -> bool

  predicate IsPublic(isPublic: PublicRule, row: MatrixRow) {
    isPublic(row.kind, row.path)
  }

  function SelectFoundation(contracts: seq<Recorded>): (r: Option<seq<Recorded>>)
    ensures r.Some? ==> AllParsed(r.value)
  {
    if !AllParsed(contracts) then None
    else Some(Filter((c: Recorded) => c.parsed.Some? && FoundationKind(c.parsed.value.kind), contracts))
  }

  /** A public contract must be in the matrix; only private kinds may be missing from it. */
  predicate PublicKnown(c: Recorded, matrix: seq<MatrixRow>)
    requires c.parsed.Some?
  {
    LastRow(matrix, KeyOf(c)).Some? || c.parsed.value.kind == API || c.parsed.value.kind == PRIVATE_PAGE
  }

  predicate PublicSelected(isPublic: PublicRule, c: Recorded, matrix: seq<MatrixRow>) {
    c.parsed.Some? && LastRow(matrix, KeyOf(c)).Some? && IsPublic(isPublic, LastRow(matrix, KeyOf(c)).value)
  }

  function SelectPublic(isPublic: PublicRule, contracts: seq<Recorded>,
      matrix: seq<MatrixRow>): (r: Option<seq<Recorded>>)
    ensures r.Some? ==> AllParsed(r.value)
  {
    if !AllParsed(contracts) || exists c :: c in contracts && !PublicKnown(c, matrix) then None
    else Some(Filter((c: Recorded) => PublicSelected(isPublic, c, matrix), contracts))
  }

  predicate IsApi(c: Recorded) {
    c.parsed.Some? && c.parsed.value.kind == API
  }

  /** Every kind is known, no row is there twice, and API rows and API contracts cover each other. */
  predicate ServerAcceptable(contracts: seq<Recorded>, matrix: seq<MatrixRow>) {
    && (forall row :: row in matrix ==> KnownKind(row.kind))
    && (forall i, j :: 0 <= i < j < |matrix| ==> RowKey(matrix[i]) != RowKey(matrix[j]))
    && AllParsed(contracts)
    && (forall c :: c in contracts ==> KnownKind(c.parsed.value.kind))
    && (forall c :: c in contracts && IsApi(c) ==> LastRow(matrix, KeyOf(c)).Some?)
    && (forall row :: row in matrix && row.kind == API ==>
          exists c :: c in contracts && IsApi(c) && KeyOf(c) == RowKey(row))
  }

  function SelectServer(contracts: seq<Recorded>, matrix: seq<MatrixRow>): (r: Option<seq<Recorded>>)
    ensures r.Some? ==> AllParsed(r.value)
  {
    if ServerAcceptable(contracts, matrix) then Some(Filter(IsApi, contracts)) else None
  }

  // One runtime

  type Bindings = map<Text, Text>

  /** The contract captured from the worker's answer, under these bindings, to this contract's request. */
  type Answers = (Bindings, HttpContract) -> HttpContract

  function CheckOf(answers: Answers, bindings: Bindings, c: Recorded): Check
    requires c.parsed.Some?
  {
    Check(KeyOf(c), Agrees(c.contract, answers(bindings, c.contract)))
  }

  function ChecksOf(answers: Answers, bindings: Bindings, contracts: seq<Recorded>): (r: seq<Check>)
    requires AllParsed(contracts)
    ensures |r| == |contracts|
  {
    seq(|contracts|, i requires 0 <= i < |contracts| => CheckOf(answers, bindings, contracts[i]))
  }

  ghost predicate AllPassed(checks: seq<Check>) {
    forall i :: 0 <= i < |checks| ==> checks[i].passed
  }

  lemma OneMorePassed(checks: seq<Check>, n: nat)
    requires n < |checks|
    ensures AllPassed(checks[..n + 1]) <==> AllPassed(checks[..n]) && checks[n].passed
  {
    assert checks[..n + 1] == checks[..n] + [checks[n]];
  }

  /** What a run reports: the keys it takes for proven, and every difference in the order found. */
  datatype Parity = Parity(verified: set<Text>, diffs: seq<HttpDiff>)

  // Several runtimes

  const ANONYMOUS: Text := [0x61, 0x6E, 0x6F, 0x6E, 0x79, 0x6D, 0x6F, 0x75, 0x73]
  const UNCONFIGURED: Text := [0x75, 0x6E, 0x63, 0x6F, 0x6E, 0x66, 0x69, 0x67, 0x75, 0x72, 0x65, 0x64]
  const ALLOWED: Text := [0x61, 0x6C, 0x6C, 0x6F, 0x77, 0x65, 0x64]
  const DENIED: Text := [0x64, 0x65, 0x6E, 0x69, 0x65, 0x64]

  /** `accessBindingForArea`, and the address that is let in. */
  datatype AccessRule = AccessRule(binding: Text -> Option<Text>, address: Text)

  function BindingsFor(access: AccessRule, c: Recorded, matrix: seq<MatrixRow>): Option<Bindings>
    requires c.parsed.Some?
  {
    var identity := c.parsed.value.identity;
    if identity == ANONYMOUS || identity == UNCONFIGURED then Some(map[])
    else if identity != ALLOWED && identity != DENIED then None
    else
      var row := LastRow(matrix, KeyOf(c));
      if row.None? || row.value.privateArea.None? then Some(map[])
      else
        var name := access.binding(row.value.privateArea.value);
        if name.None? then None else Some(map[name.value := access.address])
  }

  datatype Group = Group(bindings: Bindings, contracts: seq<Recorded>)

  /** One request: a contract under the bindings of the runtime it is sent to. */
  datatype Request = Request(bindings: Bindings, contract: Recorded)

  function GroupRequests(g: Group): (r: seq<Request>)
    ensures |r| == |g.contracts|
  {
    seq(|g.contracts|, i requires 0 <= i < |g.contracts| => Request(g.bindings, g.contracts[i]))
  }

  function Requests(groups: seq<Group>): seq<Request> {
    if groups == [] then [] else Requests(groups[..|groups| - 1]) + GroupRequests(groups[|groups| - 1])
  }

  /** Each contract under its own bindings. */
  function OwnRequests(access: AccessRule, contracts: seq<Recorded>, matrix: seq<MatrixRow>): seq<Request>
    requires AllParsed(contracts)
  {
    if contracts == [] then [] else
    var c := contracts[|contracts| - 1];
    assert contracts == contracts[..|contracts| - 1] + [c];
    var own := BindingsFor(access, c, matrix);
    OwnRequests(access, contracts[..|contracts| - 1], matrix) + if own.Some? then [Request(own.value, c)] else []
  }

  // What requests report

  ghost function RequestDiffs(answers: Answers, q: Request): seq<HttpDiff> {
    CompareHttpContract(q.contract.contract, answers(q.bindings, q.contract.contract))
  }

  ghost function Diffs(answers: Answers, requests: seq<Request>): seq<HttpDiff> {
    if requests == [] then [] else
    Diffs(answers, requests[..|requests| - 1]) + RequestDiffs(answers, requests[|requests| - 1])
  }

  lemma DiffsNext(answers: Answers, requests: seq<Request>, n: nat)
    requires n < |requests|
    ensures Diffs(answers, requests[..n + 1]) == Diffs(answers, requests[..n]) + RequestDiffs(answers, requests[n])
  {
    assert requests[..n + 1][..n] == requests[..n];
  }

  lemma Regroup<T>(a: seq<T>, b: seq<T>, c: seq<T>)
    ensures (a + b) + c == a + (b + c)
  {
  }

  lemma DiffsPush(answers: Answers, requests: seq<Request>, q: Request)
    ensures Diffs(answers, requests + [q]) == Diffs(answers, requests) + RequestDiffs(answers, q)
  {
    assert (requests + [q])[..|requests|] == requests;
  }

  lemma {:induction false} DiffsConcat(answers: Answers, a: seq<Request>, b: seq<Request>)
    ensures Diffs(answers, a + b) == Diffs(answers, a) + Diffs(answers, b)
  {
    if b == [] {
      assert a + b == a;
      assert Diffs(answers, b) == [];
    } else {
      var init, last := b[..|b| - 1], b[|b| - 1];
      assert b == init + [last] && a + b == (a + init) + [last];
      DiffsConcat(answers, a, init);
      DiffsPush(answers, a + init, last);
      DiffsPush(answers, init, last);
      Regroup(Diffs(answers, a), Diffs(answers, init), RequestDiffs(answers, last));
    }
  }

  /** Some request finds this difference. */
  ghost predicate Reported(answers: Answers, requests: seq<Request>, d: HttpDiff) {
    exists q :: q in requests && d in RequestDiffs(answers, q)
  }

  /** A report lists what its requests find and nothing else. */
  lemma {:induction false} DiffsReported(answers: Answers, requests: seq<Request>, d: HttpDiff)
    ensures d in Diffs(answers, requests) <==> Reported(answers, requests, d)
  {
    if requests != [] {
      var init, last := requests[..|requests| - 1], requests[|requests| - 1];
      assert requests == init + [last];
      DiffsReported(answers, init, d);
    }
  }

  ghost function CheckedKeys(checks: seq<Check>): set<Text> {
    set i | 0 <= i < |checks| :: checks[i].key
  }

  ghost function FailedKeys(checks: seq<Check>): set<Text> {
    set i | 0 <= i < |checks| && !checks[i].passed :: checks[i].key
  }

  lemma OneMoreKey(checks: seq<Check>, n: nat)
    requires n < |checks|
    ensures CheckedKeys(checks[..n + 1]) == CheckedKeys(checks[..n]) + {checks[n].key}
    ensures FailedKeys(checks[..n + 1]) == FailedKeys(checks[..n]) + if checks[n].passed then {} else {checks[n].key}
  {
    assert checks[..n + 1] == checks[..n] + [checks[n]];
    assert checks[..n + 1][n] == checks[n];
    forall i | 0 <= i < n ensures checks[..n + 1][i] == checks[..n][i] { }
  }

  lemma ProvenKeys(checks: seq<Check>)
    ensures forall k :: k in CheckedKeys(checks) - FailedKeys(checks) <==> Proven(checks, k)
  {
  }

  /** Sends one contract and compares the answer. */
  method CheckContract(answers: Answers, bindings: Bindings, c: Recorded) returns (found: seq<HttpDiff>)
    requires c.parsed.Some?
    ensures found == RequestDiffs(answers, Request(bindings, c))
    ensures found == [] <==> CheckOf(answers, bindings, c).passed
  {
    found := CompareHttpContract(c.contract, answers(bindings, c.contract));
    NoDiffsIff(c.contract, answers(bindings, c.contract));
  }

  /** What a run has recorded: the keys seen, those that failed, and the differences. */
  datatype Tally = Tally(keys: set<Text>, failed: set<Text>, diffs: seq<HttpDiff>)

  ghost function TallyOf(answers: Answers, bindings: Bindings, contracts: seq<Recorded>, n: nat): Tally
    requires AllParsed(contracts) && n <= |contracts|
  {
    var checks := ChecksOf(answers, bindings, contracts)[..n];
    Tally(CheckedKeys(checks), FailedKeys(checks), Diffs(answers, GroupRequests(Group(bindings, contracts))[..n]))
  }

  lemma TallyNext(answers: Answers, bindings: Bindings, contracts: seq<Recorded>, n: nat)
    requires AllParsed(contracts) && n < |contracts| && contracts[n].parsed.Some?
    ensures var t := TallyOf(answers, bindings, contracts, n);
      var found := RequestDiffs(answers, Request(bindings, contracts[n]));
      TallyOf(answers, bindings, contracts, n + 1) ==
        var failed := if found != [] then t.failed + {KeyOf(contracts[n])} else t.failed;
        Tally(t.keys + {KeyOf(contracts[n])}, failed, t.diffs + found)
  {
    OneMoreKey(ChecksOf(answers, bindings, contracts), n);
    DiffsNext(answers, GroupRequests(Group(bindings, contracts)), n);
    NoDiffsIff(contracts[n].contract, answers(bindings, contracts[n].contract));
  }

  lemma {:induction false} TallyClean(answers: Answers, bindings: Bindings, contracts: seq<Recorded>, n: nat)
    requires AllParsed(contracts) && n <= |contracts|
    ensures TallyOf(answers, bindings, contracts, n).diffs == [] <==>
      AllPassed(ChecksOf(answers, bindings, contracts)[..n])
  {
    if n > 0 {
      assert contracts[n - 1] in contracts;
      TallyClean(answers, bindings, contracts, n - 1);
      TallyNext(answers, bindings, contracts, n - 1);
      OneMorePassed(ChecksOf(answers, bindings, contracts), n - 1);
      NoDiffsIff(contracts[n - 1].contract, answers(bindings, contracts[n - 1].contract));
    }
  }

  lemma WholeTally(answers: Answers, bindings: Bindings, contracts: seq<Recorded>)
    requires AllParsed(contracts)
    ensures var t := TallyOf(answers, bindings, contracts, |contracts|);
      && (forall k :: k in t.keys - t.failed <==> Proven(ChecksOf(answers, bindings, contracts), k))
      && t.diffs == Diffs(answers, GroupRequests(Group(bindings, contracts)))
      && (t.diffs == [] <==> AllPassed(ChecksOf(answers, bindings, contracts)))
  {
    var checks, requests := ChecksOf(answers, bindings, contracts), GroupRequests(Group(bindings, contracts));
    assert checks[..|contracts|] == checks && requests[..|contracts|] == requests;
    ProvenKeys(checks);
    TallyClean(answers, bindings, contracts, |contracts|);
  }

  /** `runContractParity` */
  method RunContractParity(answers: Answers, bindings: Bindings, contracts: seq<Recorded>) returns (r: Parity)
    requires AllParsed(contracts)
    ensures forall k :: k in r.verified <==> Proven(ChecksOf(answers, bindings, contracts), k)
    ensures r.diffs == Diffs(answers, GroupRequests(Group(bindings, contracts)))
    ensures r.diffs == [] <==> AllPassed(ChecksOf(answers, bindings, contracts))
  {
    var failed: set<Text> := {};
    var keys: set<Text> := {};
    var diffs: seq<HttpDiff> := [];
    var n := 0;
    while n < |contracts|
      invariant n <= |contracts|
      invariant Tally(keys, failed, diffs) == TallyOf(answers, bindings, contracts, n)
    {
      assert contracts[n] in contracts;
      TallyNext(answers, bindings, contracts, n);
      var found := CheckContract(answers, bindings, contracts[n]);
      diffs := diffs + found;
      if found != [] {
        failed := failed + {KeyOf(contracts[n])};
      }
      keys := keys + {KeyOf(contracts[n])};
      n := n + 1;
    }
    WholeTally(answers, bindings, contracts);
    return Parity(keys - failed, diffs);
  }

  lemma AllReported(answers: Answers, requests: seq<Request>)
    ensures forall d :: d in Diffs(answers, requests) <==> Reported(answers, requests, d)
  {
    forall d ensures d in Diffs(answers, requests) <==> Reported(answers, requests, d) {
      DiffsReported(answers, requests, d);
    }
  }

  // Grouping

  ghost predicate Bound(access: AccessRule, c: Recorded, matrix: seq<MatrixRow>) {
    c.parsed.Some? && BindingsFor(access, c, matrix).Some?
  }

  ghost predicate Bindable(access: AccessRule, contracts: seq<Recorded>, matrix: seq<MatrixRow>) {
    forall i :: 0 <= i < |contracts| ==> Bound(access, contracts[i], matrix)
  }

  function AddTo(groups: seq<Group>, bindings: Bindings, c: Recorded): seq<Group> {
    if groups == [] then [Group(bindings, [c])]
    else if groups[|groups| - 1].bindings == bindings then
      groups[..|groups| - 1] + [Group(bindings, groups[|groups| - 1].contracts + [c])]
    else AddTo(groups[..|groups| - 1], bindings, c) + [groups[|groups| - 1]]
  }

  lemma {:induction false} RequestsPush(groups: seq<Group>, g: Group)
    ensures Requests(groups + [g]) == Requests(groups) + GroupRequests(g)
  {
    assert (groups + [g])[..|groups|] == groups;
  }

  /** Adding a contract to its group adds one request and disturbs no other. */
  lemma {:induction false} AddToRequests(groups: seq<Group>, bindings: Bindings, c: Recorded)
    ensures multiset(Requests(AddTo(groups, bindings, c))) ==
      multiset(Requests(groups)) + multiset{Request(bindings, c)}
  {
    if groups == [] {
      RequestsPush([], Group(bindings, [c]));
      assert [] + [Group(bindings, [c])] == [Group(bindings, [c])];
      assert GroupRequests(Group(bindings, [c])) == [Request(bindings, c)];
    } else {
      var init, last := groups[..|groups| - 1], groups[|groups| - 1];
      assert groups == init + [last];
      RequestsPush(init, last);
      if last.bindings == bindings {
        var more := Group(bindings, last.contracts + [c]);
        RequestsPush(init, more);
        assert GroupRequests(more) == GroupRequests(last) + [Request(bindings, c)];
      } else {
        AddToRequests(init, bindings, c);
        RequestsPush(AddTo(init, bindings, c), last);
      }
    }
  }

  ghost predicate GroupsParsed(groups: seq<Group>) {
    forall g :: g in groups ==> AllParsed(g.contracts)
  }

  lemma {:induction false} AddToParsed(groups: seq<Group>, bindings: Bindings, c: Recorded)
    requires GroupsParsed(groups) && c.parsed.Some?
    ensures GroupsParsed(AddTo(groups, bindings, c))
  {
    if groups != [] {
      var init, last := groups[..|groups| - 1], groups[|groups| - 1];
      assert groups == init + [last] && last in groups;
      AddToParsed(init, bindings, c);
      ParsedPush(last.contracts, c);
      assert AddTo(groups, bindings, c) ==
        if last.bindings == bindings then init + [Group(bindings, last.contracts + [c])]
        else AddTo(init, bindings, c) + [last];
    }
  }

  lemma ParsedPush(contracts: seq<Recorded>, c: Recorded)
    requires AllParsed(contracts) && c.parsed.Some?
    ensures AllParsed(contracts + [c])
  {
  }

  /** One runtime for each set of bindings. */
  ghost predicate OneGroupEach(groups: seq<Group>) {
    forall i, j :: 0 <= i < j < |groups| ==> groups[i].bindings != groups[j].bindings
  }

  lemma {:induction false} AddToKeepsOneEach(groups: seq<Group>, bindings: Bindings, c: Recorded)
    requires OneGroupEach(groups)
    ensures OneGroupEach(AddTo(groups, bindings, c))
    ensures forall g :: g in AddTo(groups, bindings, c) ==>
      g.bindings == bindings || exists h :: h in groups && h.bindings == g.bindings
  {
    if groups != [] {
      var init, last := groups[..|groups| - 1], groups[|groups| - 1];
      assert groups == init + [last];
      AddToKeepsOneEach(init, bindings, c);
      if last.bindings != bindings {
        forall g | g in AddTo(init, bindings, c) ensures g.bindings != last.bindings {
          if g.bindings != bindings {
            var h :| h in init && h.bindings == g.bindings;
            var i :| 0 <= i < |init| && init[i] == h;
            assert groups[i].bindings != groups[|groups| - 1].bindings;
          }
        }
        NewGroup(AddTo(init, bindings, c), last);
      }
    }
  }

  lemma NewGroup(groups: seq<Group>, g: Group)
    requires OneGroupEach(groups) && forall h :: h in groups ==> h.bindings != g.bindings
    ensures OneGroupEach(groups + [g])
  {
  }

  /** The first contracts are grouped: their requests, in some order, and no others, in one group for each bindings. */
  ghost predicate Grouped(groups: seq<Group>, access: AccessRule, contracts: seq<Recorded>, matrix: seq<MatrixRow>,
      n: nat)
    requires n <= |contracts| && AllParsed(contracts)
  {
    GroupsParsed(groups) && OneGroupEach(groups) &&
      multiset(Requests(groups)) == multiset(OwnRequests(access, contracts[..n], matrix))
  }

  lemma OwnRequestsNext(access: AccessRule, contracts: seq<Recorded>, matrix: seq<MatrixRow>, n: nat, own: Bindings)
    requires AllParsed(contracts) && n < |contracts| && BindingsFor(access, contracts[n], matrix) == Some(own)
    ensures OwnRequests(access, contracts[..n + 1], matrix) ==
      OwnRequests(access, contracts[..n], matrix) + [Request(own, contracts[n])]
  {
    assert contracts[..n + 1][..n] == contracts[..n];
  }

  lemma GroupedNext(groups: seq<Group>, access: AccessRule, contracts: seq<Recorded>, matrix: seq<MatrixRow>,
      n: nat, own: Bindings)
    requires AllParsed(contracts) && n < |contracts| && BindingsFor(access, contracts[n], matrix) == Some(own)
    requires Grouped(groups, access, contracts, matrix, n)
    ensures Grouped(AddTo(groups, own, contracts[n]), access, contracts, matrix, n + 1)
  {
    assert contracts[n] in contracts;
    AddToRequests(groups, own, contracts[n]);
    AddToParsed(groups, own, contracts[n]);
    AddToKeepsOneEach(groups, own, contracts[n]);
    OwnRequestsNext(access, contracts, matrix, n, own);
  }

  lemma BindableNext(access: AccessRule, contracts: seq<Recorded>, matrix: seq<MatrixRow>, n: nat)
    requires AllParsed(contracts) && n < |contracts|
    ensures contracts[n].parsed.Some?
    ensures BindingsFor(access, contracts[n], matrix).None? ==> !Bindable(access, contracts, matrix)
    ensures Bindable(access, contracts[..n + 1], matrix) <==>
      Bindable(access, contracts[..n], matrix) && BindingsFor(access, contracts[n], matrix).Some?
  {
    assert contracts[n] in contracts;
    assert contracts[..n + 1] == contracts[..n] + [contracts[n]];
    if BindingsFor(access, contracts[n], matrix).None? {
      assert !Bound(access, contracts[n], matrix);
    }
  }

  lemma GroupedStart(access: AccessRule, contracts: seq<Recorded>, matrix: seq<MatrixRow>)
    requires AllParsed(contracts)
    ensures Grouped([], access, contracts, matrix, 0)
  {
  }

  /** Sorts the contracts into one group per set of bindings, in order of first use. */
  method GroupContracts(access: AccessRule, contracts: seq<Recorded>,
      matrix: seq<MatrixRow>) returns (r: Option<seq<Group>>)
    requires AllParsed(contracts)
    ensures r.Some? <==> Bindable(access, contracts, matrix)
    ensures r.Some? ==> Grouped(r.value, access, contracts, matrix, |contracts|)
  {
    var groups: seq<Group> := [];
    var n := 0;
    GroupedStart(access, contracts, matrix);
    while n < |contracts|
      invariant n <= |contracts|
      invariant Bindable(access, contracts[..n], matrix)
      invariant Grouped(groups, access, contracts, matrix, n)
    {
      BindableNext(access, contracts, matrix, n);
      var own := BindingsFor(access, contracts[n], matrix);
      if own.None? {
        return None;
      }
      GroupedNext(groups, access, contracts, matrix, n, own.value);
      groups := AddTo(groups, own.value, contracts[n]);
      n := n + 1;
    }
    assert contracts[..n] == contracts;
    return Some(groups);
  }

  function RequestCheck(answers: Answers, q: Request): Check
    requires q.contract.parsed.Some?
  {
    CheckOf(answers, q.bindings, q.contract)
  }

  ghost predicate RequestsPass(answers: Answers, requests: seq<Request>) {
    forall q :: q in requests && q.contract.parsed.Some? ==> RequestCheck(answers, q).passed
  }

  /** The request's contract is one of the row. */
  predicate Speaks(q: Request, k: Text) {
    q.contract.parsed.Some? && KeyOf(q.contract) == k
  }

  ghost predicate Passes(answers: Answers, q: Request) {
    q.contract.parsed.Some? ==> RequestCheck(answers, q).passed
  }

  /** Some request speaks for the row. */
  ghost predicate Requested(requests: seq<Request>, k: Text) {
    exists q :: q in requests && q.contract.parsed.Some? && KeyOf(q.contract) == k
  }

  /** Every request that speaks for the row passes. */
  ghost predicate AllPass(answers: Answers, requests: seq<Request>, k: Text) {
    forall q :: q in requests && Speaks(q, k) ==> Passes(answers, q)
  }

  lemma GroupFails(answers: Answers, g: Group)
    requires AllParsed(g.contracts)
    ensures forall k :: Fails(ChecksOf(answers, g.bindings, g.contracts), k) <==> !AllPass(answers, GroupRequests(g), k)
  {
    var checks, requests := ChecksOf(answers, g.bindings, g.contracts), GroupRequests(g);
    forall i | 0 <= i < |requests|
      ensures requests[i].contract.parsed.Some?
      ensures requests[i] in requests && checks[i] == RequestCheck(answers, requests[i])
    {
      assert g.contracts[i] in g.contracts;
    }
    forall k ensures Fails(checks, k) <==> !AllPass(answers, requests, k) {
      if Fails(checks, k) {
        var i :| 0 <= i < |checks| && checks[i].key == k && !checks[i].passed;
        assert requests[i] in requests && Speaks(requests[i], k) && !Passes(answers, requests[i]);
      }
      if !AllPass(answers, requests, k) {
        var q :| q in requests && Speaks(q, k) && !Passes(answers, q);
        var i :| 0 <= i < |requests| && requests[i] == q;
        assert checks[i].key == k && !checks[i].passed;
      }
    }
  }

  lemma GroupPasses(answers: Answers, g: Group)
    requires AllParsed(g.contracts)
    ensures AllPassed(ChecksOf(answers, g.bindings, g.contracts)) <==> RequestsPass(answers, GroupRequests(g))
    ensures forall k :: Covered(ChecksOf(answers, g.bindings, g.contracts), k) <==> Requested(GroupRequests(g), k)
    ensures forall k :: Fails(ChecksOf(answers, g.bindings, g.contracts), k) <==> !AllPass(answers, GroupRequests(g), k)
  {
    var checks, requests := ChecksOf(answers, g.bindings, g.contracts), GroupRequests(g);
    GroupFails(answers, g);
    forall i | 0 <= i < |requests|
      ensures requests[i].contract.parsed.Some?
      ensures requests[i] in requests && checks[i] == RequestCheck(answers, requests[i])
    {
      assert g.contracts[i] in g.contracts;
    }
    forall k ensures Covered(checks, k) <==> Requested(requests, k) {
      if Requested(requests, k) {
        var q :| q in requests && q.contract.parsed.Some? && KeyOf(q.contract) == k;
        var i :| 0 <= i < |requests| && requests[i] == q;
        assert checks[i].key == k;
      }
      if Covered(checks, k) {
        var i :| 0 <= i < |checks| && checks[i].key == k;
        assert KeyOf(requests[i].contract) == k;
      }
    }
  }

  /** A report that claims only what its requests, all together, show. */
  ghost predicate ReportOf(answers: Answers, requests: seq<Request>, r: Parity) {
    && r.diffs == Diffs(answers, requests)
    && (r.diffs == [] <==> RequestsPass(answers, requests))
    && (r.diffs == [] ==> forall k :: k in r.verified <==> Requested(requests, k))
  }

  lemma PassConcat(answers: Answers, a: seq<Request>, b: seq<Request>)
    ensures RequestsPass(answers, a + b) <==> RequestsPass(answers, a) && RequestsPass(answers, b)
    ensures forall k :: Requested(a + b, k) <==> Requested(a, k) || Requested(b, k)
  {
    forall q ensures q in a + b <==> q in a || q in b { }
    if RequestsPass(answers, a + b) {
      forall q | q in a && q.contract.parsed.Some? ensures RequestCheck(answers, q).passed {
        assert q in a + b;
      }
      forall q | q in b && q.contract.parsed.Some? ensures RequestCheck(answers, q).passed {
        assert q in a + b;
      }
    }
  }

  /** The first groups' verified keys: those that all requests of one of the groups prove. */
  ghost predicate United(answers: Answers, groups: seq<Group>, n: nat, verified: set<Text>)
    requires n <= |groups|
  {
    forall k :: k in verified <==> ProvenBefore(answers, groups, n, k)
  }

  ghost predicate ProvenBy(answers: Answers, requests: seq<Request>, k: Text) {
    Requested(requests, k) && AllPass(answers, requests, k)
  }

  ghost predicate ProvenBefore(answers: Answers, groups: seq<Group>, n: nat, k: Text)
    requires n <= |groups|
  {
    exists i :: 0 <= i < n && ProvenBy(answers, GroupRequests(groups[i]), k)
  }

  lemma UnitedNext(answers: Answers, groups: seq<Group>, n: nat, verified: set<Text>, more: set<Text>)
    requires n < |groups| && United(answers, groups, n, verified)
    requires forall k :: k in more <==> ProvenBy(answers, GroupRequests(groups[n]), k)
    ensures United(answers, groups, n + 1, verified + more)
  {
    forall k ensures ProvenBefore(answers, groups, n + 1, k) <==>
      ProvenBefore(answers, groups, n, k) || ProvenBy(answers, GroupRequests(groups[n]), k) { }
  }

  lemma GroupRun(answers: Answers, groups: seq<Group>, n: nat, r: Parity, parity: Parity)
    requires n < |groups| && ReportOf(answers, Requests(groups[..n]), r)
    requires ReportOf(answers, GroupRequests(groups[n]), parity)
    ensures ReportOf(answers, Requests(groups[..n + 1]), Parity(r.verified + parity.verified, r.diffs + parity.diffs))
  {
    var g := groups[n];
    assert groups[..n + 1] == groups[..n] + [g];
    RequestsPush(groups[..n], g);
    UnitedReports(answers, Requests(groups[..n]), GroupRequests(g), r, parity);
  }

  /** Two reports make a report of both lists of requests. */
  lemma UnitedReports(answers: Answers, a: seq<Request>, b: seq<Request>, r: Parity, parity: Parity)
    requires ReportOf(answers, a, r) && ReportOf(answers, b, parity)
    ensures ReportOf(answers, a + b, Parity(r.verified + parity.verified, r.diffs + parity.diffs))
  {
    PassConcat(answers, a, b);
    DiffsConcat(answers, a, b);
  }

  /** One group's report, in terms of its requests. */
  method RunGroup(answers: Answers, g: Group) returns (r: Parity)
    requires AllParsed(g.contracts)
    ensures ReportOf(answers, GroupRequests(g), r)
    ensures forall k :: k in r.verified <==> ProvenBy(answers, GroupRequests(g), k)
  {
    GroupPasses(answers, g);
    CleanProves(ChecksOf(answers, g.bindings, g.contracts));
    r := RunContractParity(answers, g.bindings, g.contracts);
  }

  /** Runs every group in a runtime of its own; the reports are united, which only a clean run justifies. */
  method RunGroups(answers: Answers, groups: seq<Group>) returns (r: Parity)
    requires GroupsParsed(groups)
    ensures ReportOf(answers, Requests(groups), r)
    ensures United(answers, groups, |groups|, r.verified)
  {
    r := Parity({}, []);
    var n := 0;
    while n < |groups|
      invariant n <= |groups|
      invariant ReportOf(answers, Requests(groups[..n]), r) && United(answers, groups, n, r.verified)
    {
      assert groups[n] in groups;
      var parity := RunGroup(answers, groups[n]);
      GroupRun(answers, groups, n, r, parity);
      UnitedNext(answers, groups, n, r.verified, parity.verified);
      r := Parity(r.verified + parity.verified, r.diffs + parity.diffs);
      n := n + 1;
    }
    assert groups[..n] == groups;
  }

  lemma CleanProves(checks: seq<Check>)
    ensures AllPassed(checks) ==> forall k :: Proven(checks, k) <==> Covered(checks, k)
  {
  }

  lemma SameRequests(answers: Answers, a: seq<Request>, b: seq<Request>)
    requires multiset(a) == multiset(b)
    ensures RequestsPass(answers, a) <==> RequestsPass(answers, b)
    ensures forall k :: Requested(a, k) <==> Requested(b, k)
    ensures forall d :: Reported(answers, a, d) <==> Reported(answers, b, d)
  {
    forall q ensures q in a <==> q in b {
      SameElements(a, b, q);
    }
  }

  /** Under one set of bindings some request speaks for the row and all that do pass: what one runtime takes for
      proof. */
  ghost predicate ProvenUnder(answers: Answers, requests: seq<Request>, bindings: Bindings, k: Text) {
    && (exists q :: q in requests && q.bindings == bindings && Speaks(q, k))
    && forall q :: q in requests && q.bindings == bindings && Speaks(q, k) ==> Passes(answers, q)
  }

  /** The keys a server run reports: the union of what its runtimes take for proven. */
  ghost predicate UnitedKey(answers: Answers, requests: seq<Request>, k: Text) {
    exists bindings :: ProvenUnder(answers, requests, bindings, k)
  }

  lemma {:induction false} RequestsOf(groups: seq<Group>, q: Request)
    ensures q in Requests(groups) <==> exists i :: 0 <= i < |groups| && q in GroupRequests(groups[i])
  {
    if groups != [] {
      var init, last := groups[..|groups| - 1], groups[|groups| - 1];
      RequestsOf(init, q);
      assert forall i :: 0 <= i < |init| ==> init[i] == groups[i];
    }
  }

  /** A group holds exactly the requests with its bindings. */
  lemma RequestsUnder(groups: seq<Group>, i: nat, q: Request)
    requires OneGroupEach(groups) && i < |groups|
    ensures q in GroupRequests(groups[i]) <==> q in Requests(groups) && q.bindings == groups[i].bindings
  {
    RequestsOf(groups, q);
    if q in Requests(groups) && q.bindings == groups[i].bindings {
      var j :| 0 <= j < |groups| && q in GroupRequests(groups[j]);
      assert groups[j].bindings == q.bindings;
    }
  }

  lemma GroupProves(answers: Answers, groups: seq<Group>, i: nat, k: Text)
    requires OneGroupEach(groups) && i < |groups|
    ensures ProvenBy(answers, GroupRequests(groups[i]), k) <==>
      ProvenUnder(answers, Requests(groups), groups[i].bindings, k)
  {
    forall q ensures q in GroupRequests(groups[i]) <==> q in Requests(groups) && q.bindings == groups[i].bindings {
      RequestsUnder(groups, i, q);
    }
    if Requested(GroupRequests(groups[i]), k) {
      var q :| q in GroupRequests(groups[i]) && q.contract.parsed.Some? && KeyOf(q.contract) == k;
      assert Speaks(q, k);
    }
  }

  /** What the groups prove one by one is what the requests prove under one set of bindings each. */
  lemma UnitedKeys(answers: Answers, groups: seq<Group>, k: Text)
    requires OneGroupEach(groups)
    ensures ProvenBefore(answers, groups, |groups|, k) <==> UnitedKey(answers, Requests(groups), k)
  {
    if ProvenBefore(answers, groups, |groups|, k) {
      var i :| 0 <= i < |groups| && ProvenBy(answers, GroupRequests(groups[i]), k);
      GroupProves(answers, groups, i, k);
    }
    if UnitedKey(answers, Requests(groups), k) {
      var bindings :| ProvenUnder(answers, Requests(groups), bindings, k);
      var q :| q in Requests(groups) && q.bindings == bindings && Speaks(q, k);
      RequestsOf(groups, q);
      var i :| 0 <= i < |groups| && q in GroupRequests(groups[i]);
      GroupProves(answers, groups, i, k);
    }
  }

  lemma SameUnited(answers: Answers, a: seq<Request>, b: seq<Request>, k: Text)
    requires multiset(a) == multiset(b)
    ensures UnitedKey(answers, a, k) <==> UnitedKey(answers, b, k)
  {
    forall q ensures q in a <==> q in b {
      SameElements(a, b, q);
    }
    forall bindings ensures ProvenUnder(answers, a, bindings, k) <==> ProvenUnder(answers, b, bindings, k) { }
  }

  /** `runServerParity`: every API contract once, under its own bindings; nothing stands for an error. */
  method RunServerParity(answers: Answers, access: AccessRule, contracts: seq<Recorded>, matrix: seq<MatrixRow>)
    returns (r: Option<Parity>)
    ensures r.Some? <==>
      SelectServer(contracts, matrix).Some? && Bindable(access, SelectServer(contracts, matrix).value, matrix)
    ensures r.Some? ==>
      var own := OwnRequests(access, SelectServer(contracts, matrix).value, matrix);
      && (forall d :: d in r.value.diffs <==> Reported(answers, own, d))
      && (forall k :: k in r.value.verified <==> UnitedKey(answers, own, k))
      && (r.value.diffs == [] <==> RequestsPass(answers, own))
      && (r.value.diffs == [] ==> forall k :: k in r.value.verified <==> Requested(own, k))
  {
    var selected := SelectServer(contracts, matrix);
    if selected.None? {
      return None;
    }
    var groups := GroupContracts(access, selected.value, matrix);
    if groups.None? {
      return None;
    }
    assert selected.value[..|selected.value|] == selected.value;
    SameRequests(answers, Requests(groups.value), OwnRequests(access, selected.value, matrix));
    var parity := RunGroups(answers, groups.value);
    AllReported(answers, Requests(groups.value));
    forall k ensures k in parity.verified <==> UnitedKey(answers, OwnRequests(access, selected.value, matrix), k) {
      UnitedKeys(answers, groups.value, k);
      SameUnited(answers, Requests(groups.value), OwnRequests(access, selected.value, matrix), k);
    }
    return Some(parity);
  }

  // When the union of the runtimes' keys can be trusted

  /** No row's contracts are spread over runtimes with different bindings. */
  ghost predicate OneBindingEach(access: AccessRule, contracts: seq<Recorded>, matrix: seq<MatrixRow>)
    requires AllParsed(contracts)
  {
    forall c, d :: c in contracts && d in contracts && KeyOf(c) == KeyOf(d) ==>
      BindingsFor(access, c, matrix) == BindingsFor(access, d, matrix)
  }

  /** Whatever the worker answers, every key the run reports has all its own requests passing. */
  ghost predicate UnionSound(requests: seq<Request>) {
    forall answers: Answers, k :: UnitedKey(answers, requests, k) ==> AllPass(answers, requests, k)
  }

  lemma {:induction false} OwnRequestMade(access: AccessRule, contracts: seq<Recorded>, matrix: seq<MatrixRow>,
      c: Recorded)
    requires AllParsed(contracts) && Bindable(access, contracts, matrix) && c in contracts
    ensures BindingsFor(access, c, matrix).Some?
    ensures Request(BindingsFor(access, c, matrix).value, c) in OwnRequests(access, contracts, matrix)
  {
    var init, last := contracts[..|contracts| - 1], contracts[|contracts| - 1];
    assert contracts == init + [last];
    assert Bound(access, contracts[|contracts| - 1], matrix);
    if c != last {
      forall i | 0 <= i < |init| ensures Bound(access, init[i], matrix) {
        assert init[i] == contracts[i];
      }
      OwnRequestMade(access, init, matrix, c);
    }
  }

  lemma {:induction false} OwnRequestOf(access: AccessRule, contracts: seq<Recorded>, matrix: seq<MatrixRow>,
      q: Request)
    requires AllParsed(contracts) && q in OwnRequests(access, contracts, matrix)
    ensures q.contract in contracts && BindingsFor(access, q.contract, matrix) == Some(q.bindings)
  {
    var init, last := contracts[..|contracts| - 1], contracts[|contracts| - 1];
    assert contracts == init + [last];
    if q !in OwnRequests(access, init, matrix) {
      assert q.contract == last;
    } else {
      OwnRequestOf(access, init, matrix, q);
    }
  }

  /** A worker that answers as captured under these bindings and with another status under any others. */
  function OnlyUnder(bindings: Bindings): Answers {
    (b: Bindings, x: HttpContract) => if b == bindings then x else x.(status := x.status + 1)
  }

  lemma OnlyUnderPasses(bindings: Bindings, q: Request)
    requires q.contract.parsed.Some?
    ensures Passes(OnlyUnder(bindings), q) <==> q.bindings == bindings
  {
  }

  lemma SpreadRefutes(access: AccessRule, contracts: seq<Recorded>, matrix: seq<MatrixRow>, c: Recorded, d: Recorded)
    requires AllParsed(contracts) && Bindable(access, contracts, matrix) && c in contracts && d in contracts
    requires KeyOf(c) == KeyOf(d) && BindingsFor(access, c, matrix) != BindingsFor(access, d, matrix)
    ensures BindingsFor(access, c, matrix).Some?
    ensures var own := OwnRequests(access, contracts, matrix);
      var answers := OnlyUnder(BindingsFor(access, c, matrix).value);
      UnitedKey(answers, own, KeyOf(c)) && !AllPass(answers, own, KeyOf(c))
  {
    OwnRequestMade(access, contracts, matrix, c);
    OwnRequestMade(access, contracts, matrix, d);
    var own, k := OwnRequests(access, contracts, matrix), KeyOf(c);
    var bindings := BindingsFor(access, c, matrix).value;
    var p, q := Request(bindings, c), Request(BindingsFor(access, d, matrix).value, d);
    assert p in own && Speaks(p, k) && q in own && Speaks(q, k);
    OnlyUnderPasses(bindings, q);
    assert !Passes(OnlyUnder(bindings), q);
    forall r | r in own && r.bindings == bindings && Speaks(r, k) ensures Passes(OnlyUnder(bindings), r) {
      OnlyUnderPasses(bindings, r);
    }
    assert ProvenUnder(OnlyUnder(bindings), own, bindings, k);
  }

  /**
   The union of what the runtimes report can be trusted, whatever the worker answers, exactly
   when every row's contracts share their bindings: something a caller can look up before the run.
   */
  lemma UnionSoundIff(access: AccessRule, contracts: seq<Recorded>, matrix: seq<MatrixRow>)
    requires AllParsed(contracts) && Bindable(access, contracts, matrix)
    ensures UnionSound(OwnRequests(access, contracts, matrix)) <==> OneBindingEach(access, contracts, matrix)
  {
    var own := OwnRequests(access, contracts, matrix);
    if OneBindingEach(access, contracts, matrix) {
      forall answers: Answers, k | UnitedKey(answers, own, k) ensures AllPass(answers, own, k) {
        SharedBindingsProve(access, contracts, matrix, answers, k);
      }
    } else {
      var c, d :| c in contracts && d in contracts && KeyOf(c) == KeyOf(d)
        && BindingsFor(access, c, matrix) != BindingsFor(access, d, matrix);
      SpreadRefutes(access, contracts, matrix, c, d);
    }
  }

  lemma SharedBindingsProve(access: AccessRule, contracts: seq<Recorded>, matrix: seq<MatrixRow>, answers: Answers,
      k: Text)
    requires AllParsed(contracts) && OneBindingEach(access, contracts, matrix)
    requires UnitedKey(answers, OwnRequests(access, contracts, matrix), k)
    ensures AllPass(answers, OwnRequests(access, contracts, matrix), k)
  {
    var own := OwnRequests(access, contracts, matrix);
    var bindings :| ProvenUnder(answers, own, bindings, k);
    var p :| p in own && p.bindings == bindings && Speaks(p, k);
    OwnRequestOf(access, contracts, matrix, p);
    forall q | q in own && Speaks(q, k) ensures Passes(answers, q) {
      OwnRequestOf(access, contracts, matrix, q);
      assert q.bindings == bindings;
    }
  }

  /** A contract without headers and body, captured for this identity. */
  function Sample(path: Text, identity: Text): Recorded {
    Recorded(HttpContract(identity, 200, map[], Suppressed), Some(Parsed(API, path, identity)))
  }

  /**
   A private API row captured for an anonymous and for an admitted visitor: a worker that serves
   the one and fails the other is reported to have the row verified.
   */
  lemma UnionOverclaims(access: AccessRule, area: Text, path: Text)
    requires access.binding(area).Some?
    ensures var contracts := [Sample(path, ANONYMOUS), Sample(path, ALLOWED)];
      var matrix := [MatrixRow(API, path, Some(area), [], 200, [], [])];
      && SelectServer(contracts, matrix) == Some(contracts)
      && Bindable(access, contracts, matrix)
      && var own := OwnRequests(access, contracts, matrix);
         var k := RouteMatrixKey(API, path);
         UnitedKey(OnlyUnder(map[]), own, k) && !AllPass(OnlyUnder(map[]), own, k)
  {
    var c, d := Sample(path, ANONYMOUS), Sample(path, ALLOWED);
    var contracts := [c, d];
    var row := MatrixRow(API, path, Some(area), [], 200, [], []);
    var matrix := [row];
    var k := RouteMatrixKey(API, path);
    SampleBindings(access, area, path);
    assert LastRow(matrix, k) == Some(row);
    assert contracts[0] == c && contracts[1] == d && c in contracts;
    assert forall x :: x in contracts ==> x == c || x == d;
    assert forall r :: r in matrix ==> r == row;
    assert IsApi(c) && KeyOf(c) == RowKey(row);
    assert ServerAcceptable(contracts, matrix);
    KeepsBoth(IsApi, c, d);
    assert forall i :: 0 <= i < |contracts| ==> Bound(access, contracts[i], matrix);
    SpreadRefutes(access, contracts, matrix, c, d);
  }

  lemma KeepsBoth<T(!new)>(keep: T -> bool, c: T, d: T)
    requires keep(c) && keep(d)
    ensures Filter(keep, [c, d]) == [c, d]
  {
    assert [c, d][0] == c && [c, d][1..] == [d];
    assert [d][0] == d && [d][1..] == [];
    assert Filter(keep, [d]) == [d] + Filter(keep, []);
    assert Filter(keep, [c, d]) == [c] + Filter(keep, [d]);
  }

  lemma SampleBindings(access: AccessRule, area: Text, path: Text)
    requires access.binding(area).Some?
    ensures var matrix := [MatrixRow(API, path, Some(area), [], 200, [], [])];
      && BindingsFor(access, Sample(path, ANONYMOUS), matrix) == Some(map[])
      && BindingsFor(access, Sample(path, ALLOWED), matrix) == Some(map[access.binding(area).value := access.address])
      && BindingsFor(access, Sample(path, ALLOWED), matrix) != Some(map[])
  {
    var row := MatrixRow(API, path, Some(area), [], 200, [], []);
    assert ALLOWED[1] == 0x6C && ANONYMOUS[1] == 0x6E && UNCONFIGURED[0] != ALLOWED[0];
    assert LastRow([row], KeyOf(Sample(path, ALLOWED))) == Some(row);
    assert access.binding(area).value in map[access.binding(area).value := access.address];
  }

  // Public assets

  datatype Asset = Asset(path: Text, sha256: Text, bytes: int, mediaType: Text)

  datatype AssetAnswer = AssetAnswer(status: int, sha256: Text, bytes: int, mediaType: Option<Text>)

  const PUBLIC_PREFIX: Text := [0x70, 0x75, 0x62, 0x6C, 0x69, 0x63, SLASH]

  function FindAsset(manifest: seq<Asset>, path: Text): (r: Option<Asset>)
    ensures r.Some? ==> r.value in manifest && r.value.path == path
    ensures r.None? ==> forall a :: a in manifest ==> a.path != path
  {
    if manifest == [] then None
    else
      assert manifest == [manifest[0]] + manifest[1..];
      if manifest[0].path == path then Some(manifest[0]) else FindAsset(manifest[1..], path)
  }

  predicate AssetRowFits(row: MatrixRow, manifest: seq<Asset>) {
    && row.expectedStatus == 200
    && PUBLIC_PREFIX <= row.sourceFile
    && FindAsset(manifest, row.sourceFile).Some?
    && row.path == [SLASH] + row.sourceFile[|PUBLIC_PREFIX|..]
  }

  /** The manifest and the matrix list the same assets, each once. */
  predicate AssetsAcceptable(rows: seq<MatrixRow>, manifest: seq<Asset>) {
    && (forall i, j :: 0 <= i < j < |manifest| ==> manifest[i].path != manifest[j].path)
    && (forall row :: row in rows ==> AssetRowFits(row, manifest))
    && (forall i, j :: 0 <= i < j < |rows| ==>
          rows[i].sourceFile != rows[j].sourceFile && RowKey(rows[i]) != RowKey(rows[j]))
    && (forall a :: a in manifest ==> exists row :: row in rows && row.sourceFile == a.path)
  }

  predicate AssetAgrees(row: MatrixRow, expected: Asset, actual: AssetAnswer) {
    && actual.status == row.expectedStatus
    && actual.bytes == expected.bytes
    && actual.sha256 == expected.sha256
    && actual.mediaType == Some(expected.mediaType)
  }

  predicate AssetDiffers(row: MatrixRow, expected: Asset, actual: AssetAnswer, part: AssetPart) {
    match part
    case AssetStatus => actual.status != row.expectedStatus
    case AssetBytes => actual.bytes != expected.bytes
    case AssetSha => actual.sha256 != expected.sha256
    case AssetMediaType => actual.mediaType != Some(expected.mediaType)
  }

  /** The differences of one asset, in the order compared. */
  function AssetDiffs(row: MatrixRow, expected: Asset, actual: AssetAnswer): (r: seq<HttpDiff>)
    ensures forall d :: d in r <==>
      d.routeKey == RowKey(row) && d.field.AssetField? && AssetDiffers(row, expected, actual, d.field.asset)
    ensures r == [] <==> AssetAgrees(row, expected, actual)
  {
    var diff := (part: AssetPart) =>
      if AssetDiffers(row, expected, actual, part) then [HttpDiff(RowKey(row), AssetField(part))] else [];
    diff(AssetStatus) + diff(AssetBytes) + diff(AssetSha) + diff(AssetMediaType)
  }

  /** Some asset row finds this difference. */
  ghost predicate AssetReported(fetch: Text -> AssetAnswer, rows: seq<MatrixRow>, manifest: seq<Asset>, d: HttpDiff) {
    exists row :: row in rows && d in RowDiffs(fetch, row, manifest)
  }

  function RowDiffs(fetch: Text -> AssetAnswer, row: MatrixRow, manifest: seq<Asset>): seq<HttpDiff> {
    var expected := FindAsset(manifest, row.sourceFile);
    if expected.Some? then AssetDiffs(row, expected.value, fetch(row.path)) else []
  }

  ghost function AllRowDiffs(fetch: Text -> AssetAnswer, rows: seq<MatrixRow>, manifest: seq<Asset>): seq<HttpDiff> {
    if rows == [] then [] else
    AllRowDiffs(fetch, rows[..|rows| - 1], manifest) + RowDiffs(fetch, rows[|rows| - 1], manifest)
  }

  lemma ReportedNext(fetch: Text -> AssetAnswer, init: seq<MatrixRow>, last: MatrixRow, manifest: seq<Asset>,
      d: HttpDiff)
    ensures AssetReported(fetch, init + [last], manifest, d) <==>
      AssetReported(fetch, init, manifest, d) || d in RowDiffs(fetch, last, manifest)
  {
  }

  lemma {:induction false} RowsReported(fetch: Text -> AssetAnswer, rows: seq<MatrixRow>, manifest: seq<Asset>,
      d: HttpDiff)
    ensures d in AllRowDiffs(fetch, rows, manifest) <==> AssetReported(fetch, rows, manifest, d)
  {
    if rows != [] {
      var init, last := rows[..|rows| - 1], rows[|rows| - 1];
      assert rows == init + [last];
      RowsReported(fetch, init, manifest, d);
      ReportedNext(fetch, init, last, manifest, d);
      InEither(AllRowDiffs(fetch, init, manifest), RowDiffs(fetch, last, manifest), d);
    } else {
      assert AllRowDiffs(fetch, rows, manifest) == [];
    }
  }

  lemma InEither<T>(a: seq<T>, b: seq<T>, x: T)
    ensures x in a + b <==> x in a || x in b
  {
  }

  /** The first assets' report. */
  ghost predicate AssetsRun(fetch: Text -> AssetAnswer, rows: seq<MatrixRow>, manifest: seq<Asset>, n: nat, r: Parity)
    requires n <= |rows|
  {
    var checks := AssetChecks(fetch, rows, manifest)[..n];
    && r.diffs == AllRowDiffs(fetch, rows[..n], manifest)
    && (r.diffs == [] <==> AllPassed(checks))
    && (r.diffs == [] ==> forall k :: k in r.verified <==> Covered(checks, k))
  }

  lemma AssetRun(fetch: Text -> AssetAnswer, rows: seq<MatrixRow>, manifest: seq<Asset>, n: nat, r: Parity,
      after: Parity)
    requires n < |rows| && FindAsset(manifest, rows[n].sourceFile).Some? && AssetsRun(fetch, rows, manifest, n, r)
    requires var found := RowDiffs(fetch, rows[n], manifest);
      after.diffs == r.diffs + found && after.verified == r.verified + if found == [] then {RowKey(rows[n])} else {}
    ensures AssetsRun(fetch, rows, manifest, n + 1, after)
  {
    OneMoreCheck(AssetChecks(fetch, rows, manifest), n);
    OneMorePassed(AssetChecks(fetch, rows, manifest), n);
    assert rows[..n + 1][..n] == rows[..n];
    assert RowDiffs(fetch, rows[n], manifest) == [] <==> AssetCheck(fetch, rows[n], manifest).passed;
  }

  function AssetRows(isPublic: PublicRule, matrix: seq<MatrixRow>): seq<MatrixRow> {
    Filter((row: MatrixRow) => row.kind == ASSET && IsPublic(isPublic, row), matrix)
  }

  function AssetCheck(fetch: Text -> AssetAnswer, row: MatrixRow, manifest: seq<Asset>): Check {
    var expected := FindAsset(manifest, row.sourceFile);
    Check(RowKey(row), expected.Some? && AssetAgrees(row, expected.value, fetch(row.path)))
  }

  function AssetChecks(fetch: Text -> AssetAnswer, rows: seq<MatrixRow>, manifest: seq<Asset>): (r: seq<Check>)
    ensures |r| == |rows|
  {
    seq(|rows|, i requires 0 <= i < |rows| => AssetCheck(fetch, rows[i], manifest))
  }

  lemma AssetsReported(fetch: Text -> AssetAnswer, rows: seq<MatrixRow>, manifest: seq<Asset>, r: Parity)
    requires AssetsRun(fetch, rows, manifest, |rows|, r)
    ensures forall d :: d in r.diffs <==> AssetReported(fetch, rows, manifest, d)
    ensures r.diffs == [] <==> AllPassed(AssetChecks(fetch, rows, manifest))
    ensures r.diffs == [] ==> forall k :: k in r.verified <==> Covered(AssetChecks(fetch, rows, manifest), k)
  {
    assert rows[..|rows|] == rows;
    assert AssetChecks(fetch, rows, manifest)[..|rows|] == AssetChecks(fetch, rows, manifest);
    forall d ensures d in r.diffs <==> AssetReported(fetch, rows, manifest, d) {
      RowsReported(fetch, rows, manifest, d);
    }
  }

  lemma NoAssetsRun(fetch: Text -> AssetAnswer, rows: seq<MatrixRow>, manifest: seq<Asset>)
    ensures AssetsRun(fetch, rows, manifest, 0, Parity({}, []))
  {
  }

  method CheckAsset(fetch: Text -> AssetAnswer, row: MatrixRow, manifest: seq<Asset>) returns (found: seq<HttpDiff>)
    requires FindAsset(manifest, row.sourceFile).Some?
    ensures found == RowDiffs(fetch, row, manifest)
  {
    return AssetDiffs(row, FindAsset(manifest, row.sourceFile).value, fetch(row.path));
  }

  /** Fetches every asset and compares it. */
  method RunAssets(fetch: Text -> AssetAnswer, rows: seq<MatrixRow>, manifest: seq<Asset>) returns (r: Parity)
    requires forall row :: row in rows ==> FindAsset(manifest, row.sourceFile).Some?
    ensures AssetsRun(fetch, rows, manifest, |rows|, r)
  {
    r := Parity({}, []);
    var n := 0;
    NoAssetsRun(fetch, rows, manifest);
    while n < |rows|
      invariant n <= |rows| && AssetsRun(fetch, rows, manifest, n, r)
    {
      assert rows[n] in rows;
      var found := CheckAsset(fetch, rows[n], manifest);
      var after := Parity(r.verified + if found == [] then {RowKey(rows[n])} else {}, r.diffs + found);
      AssetRun(fetch, rows, manifest, n, r, after);
      r := after;
      n := n + 1;
    }
  }

  /** `runPublicAssetParity`; nothing stands for an error. */
  method RunPublicAssetParity(fetch: Text -> AssetAnswer, isPublic: PublicRule, matrix: seq<MatrixRow>,
      manifest: seq<Asset>)
    returns (r: Option<Parity>)
    ensures r.Some? <==> AssetsAcceptable(AssetRows(isPublic, matrix), manifest)
    ensures r.Some? ==>
      var checks := AssetChecks(fetch, AssetRows(isPublic, matrix), manifest);
      && (forall d :: d in r.value.diffs <==> AssetReported(fetch, AssetRows(isPublic, matrix), manifest, d))
      && (r.value.diffs == [] <==> AllPassed(checks))
      && (r.value.diffs == [] ==> forall k :: k in r.value.verified <==> Covered(checks, k))
  {
    var rows := AssetRows(isPublic, matrix);
    if !AssetsAcceptable(rows, manifest) {
      return None;
    }
    var run := RunAssets(fetch, rows, manifest);
    AssetsReported(fetch, rows, manifest, run);
    return Some(run);
  }

  // Promotion

  predicate InScope(scope: Scope, isPublic: PublicRule, row: MatrixRow) {
    match scope
    case Foundation => FoundationKind(row.kind)
    case Routing => false
    case Public => IsPublic(isPublic, row)
    case Server => row.kind == API
  }

  /** `applyFoundationMatrixResults`, `applyPublicMatrixResults` and `applyServerMatrixResults` */
  function ApplyResults(scope: Scope, isPublic: PublicRule, matrix: seq<MatrixRow>,
      verified: set<Text>): (r: seq<MatrixRow>)
    ensures |r| == |matrix|
  {
    seq(|matrix|, i requires 0 <= i < |matrix| =>
      if InScope(scope, isPublic, matrix[i]) && RowKey(matrix[i]) in verified then matrix[i].(status := VERIFIED)
      else matrix[i])
  }

  /** The outside world of one run. */
  datatype World = World(answers: Answers, fetch: Text -> AssetAnswer, access: AccessRule, isPublic: PublicRule)

  /** Everything the scope has to check can be checked. */
  ghost predicate Runnable(w: World, scope: Scope, contracts: seq<Recorded>, matrix: seq<MatrixRow>,
      manifest: seq<Asset>) {
    match scope
    case Public =>
      SelectPublic(w.isPublic, contracts, matrix).Some? && AssetsAcceptable(AssetRows(w.isPublic, matrix), manifest)
    case Server =>
      SelectServer(contracts, matrix).Some? && Bindable(w.access, SelectServer(contracts, matrix).value, matrix)
    case _ => SelectFoundation(contracts).Some?
  }

  /** Every check of the run agreed. */
  ghost predicate AllAgreed(w: World, scope: Scope, contracts: seq<Recorded>, matrix: seq<MatrixRow>,
      manifest: seq<Asset>)
    requires Runnable(w, scope, contracts, matrix, manifest)
  {
    match scope
    case Public =>
      && AllPassed(ChecksOf(w.answers, map[], SelectPublic(w.isPublic, contracts, matrix).value))
      && AllPassed(AssetChecks(w.fetch, AssetRows(w.isPublic, matrix), manifest))
    case Server => RequestsPass(w.answers, OwnRequests(w.access, SelectServer(contracts, matrix).value, matrix))
    case _ => AllPassed(ChecksOf(w.answers, map[], SelectFoundation(contracts).value))
  }

  /** At least one check of the run speaks for the row. */
  ghost predicate Checked(w: World, scope: Scope, contracts: seq<Recorded>, matrix: seq<MatrixRow>,
      manifest: seq<Asset>, k: Text)
    requires Runnable(w, scope, contracts, matrix, manifest)
  {
    match scope
    case Public =>
      || Covered(ChecksOf(w.answers, map[], SelectPublic(w.isPublic, contracts, matrix).value), k)
      || Covered(AssetChecks(w.fetch, AssetRows(w.isPublic, matrix), manifest), k)
    case Server => Requested(OwnRequests(w.access, SelectServer(contracts, matrix).value, matrix), k)
    case _ => Covered(ChecksOf(w.answers, map[], SelectFoundation(contracts).value), k)
  }

  /** Some check of the run finds this difference. */
  ghost predicate Finds(w: World, scope: Scope, contracts: seq<Recorded>, matrix: seq<MatrixRow>,
      manifest: seq<Asset>, d: HttpDiff)
    requires Runnable(w, scope, contracts, matrix, manifest)
  {
    match scope
    case Public =>
      || Reported(w.answers, GroupRequests(Group(map[], SelectPublic(w.isPublic, contracts, matrix).value)), d)
      || AssetReported(w.fetch, AssetRows(w.isPublic, matrix), manifest, d)
    case Server => Reported(w.answers, OwnRequests(w.access, SelectServer(contracts, matrix).value, matrix), d)
    case _ => Reported(w.answers, GroupRequests(Group(map[], SelectFoundation(contracts).value)), d)
  }

  method RunFoundationParity(w: World, contracts: seq<Recorded>) returns (r: Option<Parity>)
    ensures r.Some? <==> SelectFoundation(contracts).Some?
    ensures r.Some? ==>
      var checks := ChecksOf(w.answers, map[], SelectFoundation(contracts).value);
      && (forall d :: d in r.value.diffs <==>
            Reported(w.answers, GroupRequests(Group(map[], SelectFoundation(contracts).value)), d))
      && (r.value.diffs == [] <==> AllPassed(checks))
      && (r.value.diffs == [] ==> forall k :: k in r.value.verified <==> Covered(checks, k))
  {
    var selected := SelectFoundation(contracts);
    if selected.None? {
      return None;
    }
    var parity := RunContractParity(w.answers, map[], selected.value);
    CleanProves(ChecksOf(w.answers, map[], selected.value));
    AllReported(w.answers, GroupRequests(Group(map[], selected.value)));
    return Some(parity);
  }

  method RunPublicParity(w: World, contracts: seq<Recorded>, matrix: seq<MatrixRow>,
      manifest: seq<Asset>) returns (r: Option<Parity>)
    ensures r.Some? <==> Runnable(w, Public, contracts, matrix, manifest)
    ensures r.Some? ==>
      && (forall d :: d in r.value.diffs <==> Finds(w, Public, contracts, matrix, manifest, d))
      && (r.value.diffs == [] <==> AllAgreed(w, Public, contracts, matrix, manifest))
      && (r.value.diffs == [] ==>
            forall k :: k in r.value.verified <==> Checked(w, Public, contracts, matrix, manifest, k))
  {
    var selected := SelectPublic(w.isPublic, contracts, matrix);
    if selected.None? {
      return None;
    }
    var parity := RunContractParity(w.answers, map[], selected.value);
    CleanProves(ChecksOf(w.answers, map[], selected.value));
    AllReported(w.answers, GroupRequests(Group(map[], selected.value)));
    var assets := RunPublicAssetParity(w.fetch, w.isPublic, matrix, manifest);
    if assets.None? {
      return None;
    }
    return Some(Parity(parity.verified + assets.value.verified, parity.diffs + assets.value.diffs));
  }

  method RunScope(w: World, scope: Scope, contracts: seq<Recorded>, matrix: seq<MatrixRow>,
      manifest: seq<Asset>) returns (r: Option<Parity>)
    ensures r.Some? <==> Runnable(w, scope, contracts, matrix, manifest)
    ensures r.Some? ==>
      && (forall d :: d in r.value.diffs <==> Finds(w, scope, contracts, matrix, manifest, d))
      && (r.value.diffs == [] <==> AllAgreed(w, scope, contracts, matrix, manifest))
      && (r.value.diffs == [] ==>
            forall k :: k in r.value.verified <==> Checked(w, scope, contracts, matrix, manifest, k))
  {
    match scope
    case Public => r := RunPublicParity(w, contracts, matrix, manifest);
    case Server => r := RunServerParity(w.answers, w.access, contracts, matrix);
    case Foundation => r := RunFoundationParity(w, contracts);
    case Routing => r := RunFoundationParity(w, contracts);
  }

  // What a promotion rests on

  predicate NotColon(c: CodeUnit) {
    c != COLON
  }

  lemma AroundColon(a: Text, p: Text)
    ensures RouteMatrixKey(a, p)[..|a|] == a && RouteMatrixKey(a, p)[|a| + 1..] == p
  {
  }

  /** Keys of kinds without a colon, as all known kinds are, tell kind and path apart. */
  lemma KeysTellKinds(a: Text, p: Text, b: Text, q: Text)
    requires COLON !in a && COLON !in b && RouteMatrixKey(a, p) == RouteMatrixKey(b, q)
    ensures a == b && p == q
  {
    var t := RouteMatrixKey(a, p);
    SpanExact(NotColon, a, [COLON] + p);
    SpanExact(NotColon, b, [COLON] + q);
    assert t == a + ([COLON] + p) && t == b + ([COLON] + q);
    AroundColon(a, p);
    AroundColon(b, q);
  }

  /** A foundation promotion rests on every contract in the baseline that names the row. */
  lemma FoundationPromotion(w: World, contracts: seq<Recorded>, matrix: seq<MatrixRow>, manifest: seq<Asset>,
      row: MatrixRow, c: Recorded)
    requires Runnable(w, Foundation, contracts, matrix, manifest)
    requires AllAgreed(w, Foundation, contracts, matrix, manifest)
    requires InScope(Foundation, w.isPublic, row) && c in contracts && c.parsed.Some? && COLON !in c.parsed.value.kind
    requires KeyOf(c) == RowKey(row)
    ensures Agrees(c.contract, w.answers(map[], c.contract))
  {
    KeysTellKinds(c.parsed.value.kind, c.parsed.value.path, row.kind, row.path);
    var selected := SelectFoundation(contracts).value;
    assert c in selected;
    var i :| 0 <= i < |selected| && selected[i] == c;
    assert ChecksOf(w.answers, map[], selected)[i].passed;
  }

  /** Contracts with the same route key are taken apart alike. */
  ghost predicate ParsedAlike(contracts: seq<Recorded>) {
    forall c, d :: c in contracts && d in contracts && c.contract.routeKey == d.contract.routeKey ==>
      c.parsed == d.parsed
  }

  lemma SelectedIff(isPublic: PublicRule, contracts: seq<Recorded>, matrix: seq<MatrixRow>, c: Recorded)
    requires SelectPublic(isPublic, contracts, matrix).Some? && c in contracts && c.parsed.Some?
    requires LastRow(matrix, KeyOf(c)).Some?
    ensures c in SelectPublic(isPublic, contracts, matrix).value <==>
      IsPublic(isPublic, LastRow(matrix, KeyOf(c)).value)
  {
  }

  /** A public promotion rests on every contract that names the row, if the last row of the key is public, and on the
      asset itself. */
  lemma PublicPromotion(w: World, contracts: seq<Recorded>, matrix: seq<MatrixRow>, manifest: seq<Asset>,
      row: MatrixRow)
    requires Runnable(w, Public, contracts, matrix, manifest) && AllAgreed(w, Public, contracts, matrix, manifest)
    requires row in matrix && InScope(Public, w.isPublic, row)
    ensures LastRow(matrix, RowKey(row)).Some?
    ensures IsPublic(w.isPublic, LastRow(matrix, RowKey(row)).value) ==>
      forall c :: c in contracts && c.parsed.Some? && KeyOf(c) == RowKey(row) ==>
        Agrees(c.contract, w.answers(map[], c.contract))
    ensures row.kind == ASSET ==>
      FindAsset(manifest, row.sourceFile).Some?
      && AssetAgrees(row, FindAsset(manifest, row.sourceFile).value, w.fetch(row.path))
  {
    if IsPublic(w.isPublic, LastRow(matrix, RowKey(row)).value) {
      var selected := SelectPublic(w.isPublic, contracts, matrix).value;
      forall c | c in contracts && c.parsed.Some? && KeyOf(c) == RowKey(row)
        ensures Agrees(c.contract, w.answers(map[], c.contract))
      {
        SelectedIff(w.isPublic, contracts, matrix, c);
        var i :| 0 <= i < |selected| && selected[i] == c;
        assert ChecksOf(w.answers, map[], selected)[i].passed;
      }
    }
    if row.kind == ASSET {
      var rows := AssetRows(w.isPublic, matrix);
      assert row in rows;
      var i :| 0 <= i < |rows| && rows[i] == row;
      assert AssetChecks(w.fetch, rows, manifest)[i].passed;
    }
  }

  /** Rows whose kinds hold no colon, as all known kinds, share a key only with rows as public as themselves. */
  lemma PlainKindsDecide(isPublic: PublicRule, matrix: seq<MatrixRow>, row: MatrixRow)
    requires row in matrix && forall r :: r in matrix ==> COLON !in r.kind
    ensures LastRow(matrix, RowKey(row)).Some?
    ensures IsPublic(isPublic, LastRow(matrix, RowKey(row)).value) == IsPublic(isPublic, row)
  {
    var last := LastRow(matrix, RowKey(row)).value;
    KeysTellKinds(last.kind, last.path, row.kind, row.path);
  }

  /** The run agrees throughout and some check of it speaks for the row. */
  ghost predicate Promoted(w: World, answers: Answers, fetch: Text -> AssetAnswer, contracts: seq<Recorded>,
      matrix: seq<MatrixRow>, manifest: seq<Asset>, row: MatrixRow)
    requires Runnable(w, Public, contracts, matrix, manifest)
  {
    var v := w.(answers := answers, fetch := fetch);
    && AllAgreed(v, Public, contracts, matrix, manifest)
    && Checked(v, Public, contracts, matrix, manifest, RowKey(row))
  }

  /** Whatever the worker answers, to contracts and to assets, a promotion of this row means that this contract
      agreed. */
  ghost predicate RestsOn(w: World, contracts: seq<Recorded>, matrix: seq<MatrixRow>, manifest: seq<Asset>,
      row: MatrixRow, c: Recorded)
    requires Runnable(w, Public, contracts, matrix, manifest)
  {
    forall answers: Answers, fetch: Text -> AssetAnswer ::
      Promoted(w, answers, fetch, contracts, matrix, manifest, row) ==>
        Agrees(c.contract, answers(map[], c.contract))
  }

  /** Some asset row that is checked has this key. */
  ghost predicate AssetShares(isPublic: PublicRule, matrix: seq<MatrixRow>, k: Text) {
    exists r :: r in AssetRows(isPublic, matrix) && RowKey(r) == k
  }

  /** A worker that answers as captured except to one request. */
  function AllBut(c: HttpContract): Answers {
    (b: Bindings, x: HttpContract) => if x == c then x.(status := x.status + 1) else x
  }

  /** A worker that serves every asset as the manifest lists it. */
  function Echo(manifest: seq<Asset>): Text -> AssetAnswer {
    (path: Text) =>
      var asset := FindAsset(manifest, PUBLIC_PREFIX + if path == [] then [] else path[1..]);
      if asset.None? then AssetAnswer(404, [], 0, None)
      else AssetAnswer(200, asset.value.sha256, asset.value.bytes, Some(asset.value.mediaType))
  }

  lemma EchoAgrees(row: MatrixRow, manifest: seq<Asset>)
    requires AssetRowFits(row, manifest)
    ensures AssetAgrees(row, FindAsset(manifest, row.sourceFile).value, Echo(manifest)(row.path))
  {
    assert row.path[1..] == row.sourceFile[|PUBLIC_PREFIX|..];
    assert PUBLIC_PREFIX + row.sourceFile[|PUBLIC_PREFIX|..] == row.sourceFile;
  }

  lemma EchoPasses(rows: seq<MatrixRow>, manifest: seq<Asset>)
    requires AssetsAcceptable(rows, manifest)
    ensures AllPassed(AssetChecks(Echo(manifest), rows, manifest))
    ensures forall r :: r in rows ==> Covered(AssetChecks(Echo(manifest), rows, manifest), RowKey(r))
  {
    var checks := AssetChecks(Echo(manifest), rows, manifest);
    forall i | 0 <= i < |rows| ensures checks[i].passed {
      assert rows[i] in rows;
      EchoAgrees(rows[i], manifest);
    }
    forall r | r in rows ensures Covered(checks, RowKey(r)) {
      var i :| 0 <= i < |rows| && rows[i] == r;
      assert checks[i].key == RowKey(r);
    }
  }

  /** The contract fails, and the row is promoted by an asset that shares its key. */
  lemma HiddenPromoted(w: World, contracts: seq<Recorded>, matrix: seq<MatrixRow>, manifest: seq<Asset>,
      row: MatrixRow, c: Recorded)
    requires Runnable(w, Public, contracts, matrix, manifest) && ParsedAlike(contracts)
    requires c in contracts && c.parsed.Some? && KeyOf(c) == RowKey(row) && LastRow(matrix, RowKey(row)).Some?
    requires !IsPublic(w.isPublic, LastRow(matrix, RowKey(row)).value)
    requires AssetShares(w.isPublic, matrix, RowKey(row))
    ensures Promoted(w, AllBut(c.contract), Echo(manifest), contracts, matrix, manifest, row)
    ensures !Agrees(c.contract, AllBut(c.contract)(map[], c.contract))
  {
    var selected := SelectPublic(w.isPublic, contracts, matrix).value;
    forall i | 0 <= i < |selected| ensures ChecksOf(AllBut(c.contract), map[], selected)[i].passed {
      var d := selected[i];
      assert d in selected && d in contracts;
      assert PublicSelected(w.isPublic, d, matrix);
      assert d.contract != c.contract;
    }
    EchoPasses(AssetRows(w.isPublic, matrix), manifest);
  }

  /** A row whose contracts are not run is promoted by an asset only. */
  lemma UnselectedOnlyByAsset(w: World, contracts: seq<Recorded>, matrix: seq<MatrixRow>, manifest: seq<Asset>,
      row: MatrixRow, answers: Answers, fetch: Text -> AssetAnswer)
    requires Runnable(w, Public, contracts, matrix, manifest)
    requires LastRow(matrix, RowKey(row)).Some? && !IsPublic(w.isPublic, LastRow(matrix, RowKey(row)).value)
    requires Promoted(w, answers, fetch, contracts, matrix, manifest, row)
    ensures AssetShares(w.isPublic, matrix, RowKey(row))
  {
    var selected := SelectPublic(w.isPublic, contracts, matrix).value;
    var checks := ChecksOf(answers, map[], selected);
    forall i | 0 <= i < |checks| ensures checks[i].key != RowKey(row) {
      assert selected[i] in selected;
      assert PublicSelected(w.isPublic, selected[i], matrix);
    }
    var rows := AssetRows(w.isPublic, matrix);
    assert Covered(AssetChecks(fetch, rows, manifest), RowKey(row));
    var i :| 0 <= i < |rows| && AssetChecks(fetch, rows, manifest)[i].key == RowKey(row);
    assert rows[i] in rows && RowKey(rows[i]) == RowKey(row);
  }

  /**
   A row's promotion rests on a contract that names it exactly when the last row of the key is
   public, or no asset row that is checked shares the key: otherwise the contract is never run.
   Both can be looked up in the matrix before the run.
   */
  lemma PublicPromotionIff(w: World, contracts: seq<Recorded>, matrix: seq<MatrixRow>, manifest: seq<Asset>,
      row: MatrixRow, c: Recorded)
    requires Runnable(w, Public, contracts, matrix, manifest) && ParsedAlike(contracts)
    requires row in matrix && InScope(Public, w.isPublic, row)
    requires c in contracts && c.parsed.Some? && KeyOf(c) == RowKey(row)
    ensures LastRow(matrix, RowKey(row)).Some?
    ensures RestsOn(w, contracts, matrix, manifest, row, c) <==>
      IsPublic(w.isPublic, LastRow(matrix, RowKey(row)).value) || !AssetShares(w.isPublic, matrix, RowKey(row))
  {
    if IsPublic(w.isPublic, LastRow(matrix, RowKey(row)).value) {
      var selected := SelectPublic(w.isPublic, contracts, matrix).value;
      SelectedIff(w.isPublic, contracts, matrix, c);
      var i :| 0 <= i < |selected| && selected[i] == c;
      forall answers: Answers, fetch: Text -> AssetAnswer
        | Promoted(w, answers, fetch, contracts, matrix, manifest, row)
        ensures Agrees(c.contract, answers(map[], c.contract))
      {
        assert ChecksOf(answers, map[], selected)[i].passed;
      }
    } else if AssetShares(w.isPublic, matrix, RowKey(row)) {
      HiddenPromoted(w, contracts, matrix, manifest, row, c);
    } else {
      forall answers: Answers, fetch: Text -> AssetAnswer
        ensures !Promoted(w, answers, fetch, contracts, matrix, manifest, row)
      {
        if Promoted(w, answers, fetch, contracts, matrix, manifest, row) {
          UnselectedOnlyByAsset(w, contracts, matrix, manifest, row, answers, fetch);
          assert false;
        }
      }
    }
  }

  // A row promoted without its contract, under the rule the program has: an asset whose path ends
  // in a deferred one, and after it a row that splits the same key before that path

  /** `isPhase2PublicRoute`: everything but APIs, private pages and the deferred path. */
  ghost predicate IsClosure(isPublic: PublicRule, deferred: Text) {
    forall kind, path :: isPublic(kind, path) <==> kind != API && kind != PRIVATE_PAGE && path != deferred
  }

  const LETTER_X: Text := [0x78]
  const REST_OF_KEY: Text :=
    [BAR, 0x47, 0x45, 0x54, BAR, 0x61, 0x6E, 0x6F, 0x6E, 0x79, 0x6D, 0x6F, 0x75, 0x73, BAR, 0x64]
  const BAR: CodeUnit := 0x7C

  /** The file `x:` and the deferred path, below the public directory. */
  function HiddenFile(deferred: Text): Text {
    PUBLIC_PREFIX + (LETTER_X + [COLON] + deferred)
  }

  function HiddenRow(deferred: Text): MatrixRow {
    MatrixRow(ASSET, [SLASH] + (LETTER_X + [COLON] + deferred), None, HiddenFile(deferred), 200, [], [])
  }

  function HidingRow(deferred: Text): MatrixRow {
    MatrixRow(ASSET + [COLON, SLASH] + LETTER_X, deferred, None, [], 200, [], [])
  }

  /** The contract captured for the asset: kind, path, `GET`, `anonymous` and a variant. */
  function HiddenContract(deferred: Text): Recorded {
    var row := HiddenRow(deferred);
    Recorded(HttpContract(RowKey(row) + REST_OF_KEY, 200, map[], Suppressed),
      Some(Parsed(row.kind, row.path, ANONYMOUS)))
  }

  lemma SameHiddenKey(deferred: Text)
    ensures RowKey(HidingRow(deferred)) == RowKey(HiddenRow(deferred))
    ensures HidingRow(deferred).kind != ASSET && HiddenRow(deferred).path != deferred
    ensures HiddenRow(deferred).path == [SLASH] + HiddenFile(deferred)[|PUBLIC_PREFIX|..]
  {
    assert RowKey(HiddenRow(deferred)) == ASSET + [COLON, SLASH] + LETTER_X + [COLON] + deferred;
    assert RowKey(HidingRow(deferred)) == ASSET + [COLON, SLASH] + LETTER_X + [COLON] + deferred;
    assert |HidingRow(deferred).kind| == |ASSET| + 3 && |HiddenRow(deferred).path| == |deferred| + 3;
  }

  lemma KeepsFirst<T(!new)>(keep: T -> bool, c: T, d: T)
    requires keep(c) && !keep(d)
    ensures Filter(keep, [c, d]) == [c]
  {
    assert [c, d][0] == c && [c, d][1..] == [d];
    assert [d][0] == d && [d][1..] == [];
    assert Filter(keep, [d]) == [] + Filter(keep, []);
    assert Filter(keep, [c, d]) == [c] + Filter(keep, [d]);
  }

  lemma KindsApart()
    ensures ASSET != API && ASSET != PRIVATE_PAGE
  {
    assert ASSET[1] != API[1] && ASSET[0] != PRIVATE_PAGE[0];
  }

  lemma HiddenAssetRows(isPublic: PublicRule, deferred: Text)
    requires IsClosure(isPublic, deferred)
    ensures AssetRows(isPublic, [HiddenRow(deferred), HidingRow(deferred)]) == [HiddenRow(deferred)]
    ensures IsPublic(isPublic, HiddenRow(deferred)) && !IsPublic(isPublic, HidingRow(deferred))
  {
    SameHiddenKey(deferred);
    KindsApart();
    KeepsFirst((row: MatrixRow) => row.kind == ASSET && IsPublic(isPublic, row),
      HiddenRow(deferred), HidingRow(deferred));
  }

  lemma HiddenAssetFits(deferred: Text, asset: Asset)
    requires asset.path == HiddenFile(deferred)
    ensures AssetsAcceptable([HiddenRow(deferred)], [asset])
  {
    SameHiddenKey(deferred);
    var row := HiddenRow(deferred);
    assert [asset][0] == asset && [row][0] == row;
    assert FindAsset([asset], row.sourceFile) == Some(asset);
    assert forall r :: r in [row] ==> r == row;
    assert row in [row] && row.sourceFile == asset.path;
  }

  lemma LastHides(deferred: Text)
    ensures LastRow([HiddenRow(deferred), HidingRow(deferred)], RowKey(HiddenRow(deferred))) ==
      Some(HidingRow(deferred))
  {
    SameHiddenKey(deferred);
    var matrix := [HiddenRow(deferred), HidingRow(deferred)];
    assert matrix[|matrix| - 1] == HidingRow(deferred);
  }

  lemma HiddenRunnable(w: World, deferred: Text, asset: Asset)
    requires IsClosure(w.isPublic, deferred) && asset.path == HiddenFile(deferred)
    ensures Runnable(w, Public, [HiddenContract(deferred)], [HiddenRow(deferred), HidingRow(deferred)], [asset])
  {
    var c, matrix := HiddenContract(deferred), [HiddenRow(deferred), HidingRow(deferred)];
    HiddenAssetRows(w.isPublic, deferred);
    HiddenAssetFits(deferred, asset);
    LastHides(deferred);
    assert forall d :: d in [c] ==> d == c;
    assert KeyOf(c) == RowKey(HiddenRow(deferred));
    assert PublicKnown(c, matrix);
  }

  /**
   Whatever path the rule defers: a public row is promoted although the contract that names it
   failed, because another row of its key, which is not public, hides it.
   */
  lemma HiddenRowPromoted(w: World, deferred: Text, asset: Asset)
    requires IsClosure(w.isPublic, deferred) && asset.path == HiddenFile(deferred)
    ensures var row, c := HiddenRow(deferred), HiddenContract(deferred);
      var matrix := [row, HidingRow(deferred)];
      && Runnable(w, Public, [c], matrix, [asset])
      && InScope(Public, w.isPublic, row) && KeyOf(c) == RowKey(row)
      && c.contract.routeKey == RowKey(row) + Chars("|GET|anonymous|d")
      && Promoted(w, AllBut(c.contract), Echo([asset]), [c], matrix, [asset], row)
      && !Agrees(c.contract, AllBut(c.contract)(map[], c.contract))
  {
    var row, c := HiddenRow(deferred), HiddenContract(deferred);
    var matrix := [row, HidingRow(deferred)];
    assert REST_OF_KEY == Chars("|GET|anonymous|d");
    HiddenRunnable(w, deferred, asset);
    HiddenAssetRows(w.isPublic, deferred);
    LastHides(deferred);
    assert [c][0] == c && forall d :: d in [c] ==> d == c;
    assert [row][0] == row && row in AssetRows(w.isPublic, matrix);
    HiddenPromoted(w, [c], matrix, [asset], row, c);
  }

  /** A server promotion rests on every API contract that names the row, whatever its identity, under its own
      bindings. */
  lemma ServerPromotion(w: World, contracts: seq<Recorded>, matrix: seq<MatrixRow>, manifest: seq<Asset>,
      row: MatrixRow, c: Recorded)
    requires Runnable(w, Server, contracts, matrix, manifest) && AllAgreed(w, Server, contracts, matrix, manifest)
    requires InScope(Server, w.isPublic, row) && c in contracts && c.parsed.Some? && COLON !in c.parsed.value.kind
    requires KeyOf(c) == RowKey(row)
    ensures BindingsFor(w.access, c, matrix).Some?
    ensures Agrees(c.contract, w.answers(BindingsFor(w.access, c, matrix).value, c.contract))
  {
    KeysTellKinds(c.parsed.value.kind, c.parsed.value.path, row.kind, row.path);
    var selected := SelectServer(contracts, matrix).value;
    assert c in selected;
    OwnRequestMade(w.access, selected, matrix, c);
    var q := Request(BindingsFor(w.access, c, matrix).value, c);
    assert q in OwnRequests(w.access, selected, matrix);
    assert RequestCheck(w.answers, q).passed;
  }
}
