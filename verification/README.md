# A model of the parity and preview-evidence machinery

This project models the parts of the repository on which its claims of parity and of preserved
evidence rest, and proves what those parts promise. `dafny verify dfyconfig.toml` checks all of it.

| module | what it models |
|---|---|
| `Utf16`, `Sorting`, `Decimal`, `Wrappers` | strings as sequences of UTF-16 code units with the operator `<`, `Array.prototype.sort`, decimal numerals, `Option` and `Result` |
| `JsonText` | the normal form of JSON text: a printer, and a reader that inverts it with anything following |
| `CanonicalJson`, `ObjectGraph` | the canonical serializer as it walks a mutable object graph, and what it accepts, refuses and prints |
| `EnvironmentLease` | the process-wide environment lease as a machine of callbacks, timers and settlements, its liveness over endless runs, and the object whose methods are those callbacks |
| `VisualResource` | acquiring, using and cleaning up one resource against deadlines, by the call and by the handler it leaves behind |
| `VisualCsv`, `HtmlEntities` | the quoted CSV record reader; escaping HTML and decoding entities |
| `HtmlScanner`, `HtmlTags`, `HtmlNormalForm`, `HtmlNormalizer` | documents as pieces (verbatim code units and build-timestamp values), why rewriting those values changes no other piece, and the cursor loops that do it |
| `HtmlDocuments` | which values of which attributes those are, in documents written out |
| `ImageDifference`, `GeometryDifference` | pixel counts over row-major buffers, and keyed geometry |
| `ArtifactStore` | any number of writers racing on a content-addressed directory, and the writing function run among them |
| `EvidenceFiles`, `EvidenceManifest`, `EvidencePublication` | a checkout whose every effect may fail or be the last one before a crash; complete captures; the publication run |
| `Utf8`, `BundleFiles`, `ManifestText`, `SealedBundle` | UTF-8; collecting a release bundle, its manifest and the file it is written to, sealing and verifying |
| `SealContents` | what a seal holds and which trees verify, written out |
| `HttpParity`, `HttpPromotion`, `RouteMatrix` | the HTTP gate that promotes rows of the route matrix, and the refresh of that matrix |

How the parts are told apart: a **piece of program that changes state** is a class with the source's
fields or a method with the source's loop, tied to a specification function; the **specification
functions** carry the lemmas. Concurrent parts are machines whose steps are the uninterrupted
pieces of the program (one callback, one file-system effect), and properties quantify over every
feasible sequence of steps.

A specification function is shared by the program it specifies and the laws about it. So that
neither can be wrong with the other, what each operation yields is also stated in terms that use
none of these functions: plain data for the serializer, literal tags and timestamps for the
normalizer, source boxes for the comparison, literal paths and JSON members for what is published
or sealed, steps taken for the concurrent machines, contracts and rows for the gate. `Chars` spells
such literals.

What is taken as given, each where it is used: hash functions do not collide and random names are
distinct; `JSON.parse` reads a canonical file as the reader of `JsonText` does (that this reader
inverts the printer, and UTF-8 decoding the encoding, is proved: `JsonText.ReadPrinted`,
`Utf8.DecodeEncoded`); the evidence field validators return the manifests they let through;
assigning a string to an environment variable does not throw, and an operation leaves the keys of
its own lease alone; one run publishes to a checkout at a time; which trees of a checkout cannot be
removed does not change during a run; rounding of coordinates is an arbitrary function; and the
worker's answer is a function of the bindings it was started with and of the contract being replayed.

## Where the code does less than one might expect

Each of these is a property that fails, kept as the code has it, with an input that shows it and
the exact condition under which it holds.

- A fresh seal does not always verify: empty directories are not recreated, so a source whose
  `drizzle` holds no file seals but is refused, and the 64 KiB limit on the manifest is checked on
  reading alone (`SealedBundle.FreshSealVerifiesIff`; inputs, for every configuration file whose
  topology can be read, are in `SealedBundle.EmptyMigrationsRefused`, and one of them, spelled out, in
  `SealedBundle.EmptyMigrationsInput`).
- The union of the keys that several runtimes report can hold a key that one of them refutes. It
  can be trusted, whatever the worker answers, exactly when all contracts of a row share their
  bindings (`HttpParity.UnionSoundIff`; an input is `HttpParity.UnionOverclaims`). Promotion is
  sound because nothing is written unless there is no difference at all (`HttpPromotion.RunHttpParity`).
- A public row can be promoted without its contracts: they are not run when the last row of the
  same key is not public, and an asset can promote the row all the same. Whatever the worker answers
  to contracts and to assets, a promotion rests on a contract exactly when that last row is public
  or no checked asset row has the same key (`HttpParity.PublicPromotionIff`). An input under the
  program's own rule of what is public (src/lib/site/public-route-closure.ts:52-58) is
  `HttpParity.HiddenRowPromoted`: an asset whose path ends in a colon and the deferred path, and
  after it a row of that path whose kind holds the rest. Kinds without a colon, as all known kinds
  are, do not let it happen (`HttpParity.PlainKindsDecide`).
- A clean-up that rejects with `undefined` goes unnoticed (`VisualResource.ReturnsIff`; a run is
  `VisualResource.FailedCleanupUnnoticed`).
- Route keys joined by NUL tell a route from all others exactly when neither its kind nor its path
  holds a NUL (`RouteMatrix.KeySharedIff`; two routes are in `RouteMatrix.RouteKeyCollides`).
- A failed publication does not always restore the old files. It does when the process lives on and
  every tree of the run that is there can be removed, whatever else fails
  (`EvidencePublication.PublishEvidenceToCheckout`). Where trees that cannot be removed are the only
  trouble, a publication that is otherwise possible succeeds exactly when no new role's staging
  directory is one of them; else it throws, and of the roles before the first such directory
  everything stays published. `EvidencePublication.HalfPublished` is two new roles of which one
  is left published. The old files are there in any case.
- The entity decoder looks names up in an ordinary object. A name outside its table is left alone
  exactly when it is not `constructor`, in any case (`HtmlEntities.UnlistedKeptIff`;
  `HtmlEntities.ConstructorWitness`). Escaping writes no such entity, so decoding escaped text is
  exact all the same (`HtmlEntities.DecodeEscaped`).

## Model

| member | source | states |
|---|---|---|
| JsonText.ReadPrintedString | src/ingest/canonical-json.ts:108-116 | a quoted string is read back and what follows it is left over, for any code units: short and hexadecimal escapes, lone and paired surrogates (section 7 of RFC 8259) |
| JsonText.ReadPrinted | src/ingest/canonical-json.ts:69-131 | a reader inverts the printer on every finite JSON value, with any delimited text following |
| JsonText.PrintInjective | src/ingest/canonical-json.ts:69-131 | two JSON values print the same text exactly when they are equal, objects being maps without order |
| JsonText.PrintSelfDelimiting | src/ingest/canonical-json.ts:108-131 | no printed value can be taken for another with more text after it: equal texts mean equal values and equal remainders |
| JsonText.ScalarsSpelled | src/ingest/canonical-json.ts:108-119 | `null`, `true` and `false` print as those words, a number as its token, a string between quotes |
| JsonText.EscapesSpelled | src/ingest/canonical-json.ts:113-116 | the seven short escapes, `\u` and four digits for other control characters and lone surrogates, and no escape for anything else |
| JsonText.ItemsSpelled | src/ingest/canonical-json.ts:77 | items stand in their order, separated by commas, between brackets |
| JsonText.MembersSpelled | src/ingest/canonical-json.ts:99-105 | members stand in the order of their keys, each a quoted key, a colon and its value, separated by commas, between braces |
| JsonText.PairsSpelled | src/ingest/canonical-json.ts:113-116 | two code units that are a surrogate pair stay as they are, any other two are written one by one |
| JsonText.EmptySpelled | src/ingest/canonical-json.ts:77-105 | an empty array is `[]` and an empty object `{}` |
| CanonicalJson.ArrayIndexOfDigits | src/ingest/canonical-json.ts:19-30 | the decimal numeral of every index below 2^32-1, and so every key the loop over items asks for, is recognized as that index |
| CanonicalJson.SortedMembersAscend | src/ingest/canonical-json.ts:99-101 | sorting an object's members by `<` on their keys puts them in strictly ascending code-unit order (section 3.2.3 of RFC 8785), whatever order they were defined in |
| CanonicalJson.PrintAssembledObject | src/ingest/canonical-json.ts:99-105 | the joined member texts of a sorted object are the normal form of the object they make |
| CanonicalJson.Serializer.SerializeCanonical | src/ingest/canonical-json.ts:108-146 | over any graph, cyclic or not, it terminates, yields the normal form of a JSON value that the value holds as plain data, or the first refusal met below the current ancestors, and leaves the ancestors as they were on return and on throw |
| CanonicalJson.Serializer.SerializeArray | src/ingest/canonical-json.ts:32-78 | the same for an array: keys in their own order, `length`, non-index, hidden and accessor properties, holes, then the items in index order |
| CanonicalJson.Serializer.SerializeObject | src/ingest/canonical-json.ts:80-106 | the same for an object: prototype, symbol, accessor and hidden properties refused before any member is serialized |
| CanonicalJson.Serializer.SortedMembers | src/ingest/canonical-json.ts:86-101 | the members in sorted order, or the refusal of the first offending own property |
| CanonicalJson.Serializer.SerializeMembers | src/ingest/canonical-json.ts:99-105 | members are serialized in sorted order, each text is the normal form of its value, and the first failing one is the error |
| CanonicalJson.CanonicalText | src/ingest/canonical-json.ts:148-150 | the whole call: for every JSON value `j` that the value holds as plain data the text is the print of `j`, and a text is returned for no other value |
| CanonicalJson.UnfoldsIff | src/ingest/canonical-json.ts:32-146 | a value is serialized as a JSON value exactly when it holds it as plain data: scalars are themselves, an array has its items under the numerals of their indices and no other property, an object has exactly the members as visible data properties |
| CanonicalJson.ExampleStands | src/ingest/canonical-json.ts:80-106 | an object with the properties `b` and `a`, in this order, and what it holds |
| ObjectGraph.SuccessSound | src/ingest/canonical-json.ts:133-145 | what is serialized reaches no unsupported node and no cycle |
| ObjectGraph.FailureSound | src/ingest/canonical-json.ts:133-145 | a failure means an unsupported node is reachable, or it is the cycle error and a cycle is reachable |
| ObjectGraph.AcceptedIff | src/ingest/canonical-json.ts:108-145 | a value is serialized exactly when every reachable node is supported and none lies on a cycle; shared acyclic nodes are accepted |
| ObjectGraph.RefusalHasCause | src/ingest/canonical-json.ts:3-146 | every refusal names something that is there: along own properties one comes from the value to a number that is not finite, a value of that type, a symbol key, an accessor, a hidden property, an array property that is no index, a gap, an object that is not plain, or back to an object one is in |
| ObjectGraph.CycleErrorIff | src/ingest/canonical-json.ts:133-145 | over supported nodes the cycle error is thrown exactly when a reachable node lies on a cycle, and no other error can be |
| ObjectGraph.OrderBlind | src/ingest/canonical-json.ts:99-105 | reordering the own properties of any objects of the graph changes neither the text nor whether there is one |
| ObjectGraph.TextIdentifiesTree | src/ingest/canonical-json.ts:108-146 | two graphs print the same text exactly when their tree unfoldings are equal, whatever is shared in them |
| EnvironmentLease.StartsInArrivalOrder | scripts/parity-visual.ts:2197-2224 | in every state that keeps the invariant a call is out of the queue only if every earlier call has released |
| EnvironmentLease.OneHolderInArrivalOrder | scripts/parity-visual.ts:2197-2224 | after every interleaving, from no calls at all: a call gets its turn only after every earlier call has released, and at most one call holds the lease |
| EnvironmentLease.StepInv | scripts/parity-visual.ts:2197-2252 | every callback, timer, settlement and outside write keeps the invariant: tails resolve in order and only after their calls release, and a holder's bindings are what the environment shows |
| EnvironmentLease.EnvironmentIsOverlay | scripts/parity-visual.ts:2226-2230 | while a call holds the lease the environment is the original one overlaid with that call's bindings alone |
| EnvironmentLease.StepMovesBaseline | scripts/parity-visual.ts:2231-2252 | no step of the protocol changes what the environment will be restored to; only writes to keys outside the lease do |
| EnvironmentLease.LeaseSafety | scripts/parity-visual.ts:2220-2252 | after any run: when nobody holds the lease every key is as it was, present or absent, up to outside writes; while one call holds it, exactly its bindings lie on top |
| EnvironmentLease.WaitingTimeoutNeverRuns | scripts/parity-visual.ts:2210-2224 | a call that times out while it waits never starts its operation and never touches the environment, however long the run goes on |
| EnvironmentLease.SettlesOnce | scripts/parity-visual.ts:2204-2252 | once a caller's promise has an outcome no later step changes it |
| EnvironmentLease.CallerGetsAnswer | scripts/parity-visual.ts:2204-2252 | after every run a caller has been told what the first of its timer firing and its operation ending says: the time-out, or that operation's value or error, and nothing before either |
| EnvironmentLease.HolderKeepsLease | scripts/parity-visual.ts:2210-2252 | timeout or not, a running call keeps the lease and every later call stays queued until its operation settles |
| EnvironmentLease.RunBounded | scripts/parity-visual.ts:2197-2252 | in any run, with calls arriving and other code writing at will, the steps that serve call `i` are bounded by the work ahead of it at the start, at most 4i+3: later arrivals never delay it |
| EnvironmentLease.CallDue | scripts/parity-visual.ts:2220-2252 | while a call is not over, some callback or settlement that serves it is due: only an operation that does not settle can hold it up |
| EnvironmentLease.EveryCallEnds | scripts/parity-visual.ts:2204-2252 | in any run whatever, once no due callback and no unsettled operation of the call or of an earlier one is left, the call is over: it released, its caller has an answer, and it ran or timed out |
| EnvironmentLease.EveryCallEventuallyEnds | scripts/parity-visual.ts:2197-2252 | liveness: in every endless run in which due callbacks run and started operations settle some day, every call ends some day, however many keep arriving |
| EnvironmentLease.VisualRunner.EnterCall | scripts/parity-visual.ts:2183-2220 | refuses a key outside the permitted set, naming the least such key, or else a non-positive timeout, and changes nothing then; otherwise enqueues the sorted bindings behind the tail |
| EnvironmentLease.VisualRunner.ExpireCall | scripts/parity-visual.ts:2210-2218 | the timer rejects a caller that is still pending and leaves the lease where it is: phase and start of the call are unchanged, and no other call is touched |
| EnvironmentLease.VisualRunner.ApplyEntries | scripts/parity-visual.ts:2225-2230 | the loop writes every binding and has recorded the value each key had before, absence included |
| EnvironmentLease.VisualRunner.RestoreEntries | scripts/parity-visual.ts:2231-2236 | the loop gives every recorded key its value back or deletes it, and touches no other key |
| EnvironmentLease.VisualRunner.BeginCall | scripts/parity-visual.ts:2220-2238 | the callback of the previous tail: a call already timed out releases without touching the environment; another starts with each of its bindings in force and no other key changed, having recorded what each key was; no other call changes |
| EnvironmentLease.VisualRunner.SettleCall | scripts/parity-visual.ts:2238-2252 | a caller still waiting gets the operation's value or error, one that timed out keeps its rejection; every recorded key is as it was and no other key changes; the call releases, its timer is disarmed, and no other call changes |
| EnvironmentLease.VisualRunner.ResolveTailOf | scripts/parity-visual.ts:2197-2202 | when a tail resolves, every call up to it has released and the next one, still queued, may begin |
| VisualResource.CleanupAtMostOnce | scripts/parity-visual.ts:431-504 | the call and the late handler, each with a position and a count of its own, together clean up at most once in every interleaving, only a resource that was produced; the call only after its use ended, the handler only when nothing was used |
| VisualResource.CleanupExactlyOnce | scripts/parity-visual.ts:440-457 | every run is finite, and when nothing more can happen the two have cleaned up a resource ever produced, late or not, exactly once between them, and the caller has an answer |
| VisualResource.OneSideCleans | scripts/parity-visual.ts:440-457 | the race keeps the two apart: the call cleans up only what was delivered, the handler only after the deadline was missed |
| VisualResource.UseFailureWins | scripts/parity-visual.ts:477-503 | when the use failed, its failure is what is thrown, whatever clean-up did; at most its cause was extended |
| VisualResource.MissedStaysMissed | scripts/parity-visual.ts:431-458 | after a missed deadline the caller's error never changes and the late resource is never used |
| VisualResource.AnswerOfRun | scripts/parity-visual.ts:431-504 | in every run that is over the caller was told the refusal or the deadline if one of them came before the resource, and else the result, the failure of the use with a clean-up failure as its cause, or the clean-up failure |
| VisualResource.ReturnsIff | scripts/parity-visual.ts:477-504 | the call returns exactly when the use succeeded and clean-up succeeded or rejected with `undefined` |
| VisualResource.FailedCleanupUnnoticed | scripts/parity-visual.ts:486-503 | a run in which clean-up rejects with `undefined` and the call returns |
| VisualResource.Answer | scripts/parity-visual.ts:477-504 | with its flags: returns exactly when the use succeeded and clean-up did or rejected with `undefined`; a failed use is what is thrown, a clean-up failure becoming its cause or joining the one it has; otherwise the clean-up failure |
| VisualResource.RunBounded | scripts/parity-visual.ts:431-504 | each step uses up some of a bounded amount of work |
| VisualCsv.ReadsExactlyPrinted | scripts/parity-visual.ts:1012-1044 | a line is accepted with these fields exactly when it is their fully quoted print (rules 5 to 7 of section 2 of RFC 4180), so accepted lines and field lists correspond one to one |
| VisualCsv.ParseField | scripts/parity-visual.ts:1015-1036 | the inner loop reads one quoted field, doubled quotes included, and leaves the cursor just after its closing quote, or finds that it never closes |
| VisualCsv.ParseFields | scripts/parity-visual.ts:1012-1044 | the cursor loop reads the whole record, commas between fields and none at the end |
| VisualCsv.ParseRecord | scripts/parity-visual.ts:1012-1044 | a returned list prints to the line; a refused line is the print of no list |
| HtmlEntities.EscapesInOnePass | scripts/parity-visual.ts:2394-2401 | five replacements one after the other equal one pass over the characters: none of them touches what an earlier one wrote |
| HtmlEntities.EscapedIsInert | scripts/parity-visual.ts:2394-2401 | escaped text holds no `<`, `>` or quote of either kind |
| HtmlEntities.DecodeEscaped | scripts/capture-http-baseline.ts:627-660 | decoding escaped text gives the text back, for every text |
| HtmlEntities.EscapeInjective | scripts/parity-visual.ts:2394-2401 | different texts escape differently |
| HtmlEntities.EscapesSpelled | scripts/parity-visual.ts:2394-2401 | the five characters and their references; every other one stays |
| HtmlEntities.DecimalDecoded | scripts/capture-http-baseline.ts:636-657 | a decimal reference, leading zeros or not, is the UTF-16 text of its code point, and stays as it is beyond the last one |
| HtmlEntities.HexDecoded | scripts/capture-http-baseline.ts:636-657 | so is a hexadecimal one, its `x` and digits in either case |
| HtmlEntities.NameDecoded | scripts/capture-http-baseline.ts:627-657 | each of the six names, in any case, is its character |
| HtmlEntities.PlainKept | scripts/capture-http-baseline.ts:636-660 | text without an ampersand is left as it is |
| HtmlEntities.UnlistedKeptIff | scripts/capture-http-baseline.ts:636-660 | a reference to a name that is not in the table, whatever follows it, is kept verbatim exactly when the name is not `constructor` in some case |
| HtmlEntities.ConstructorWitness | scripts/capture-http-baseline.ts:627-660 | `&constructor;` decodes to `function Object() { [native code] }` |
| HtmlTags.NextChunkStable | scripts/capture-http-baseline.ts:463-530 | in a tag, exchanging a matched value for another build value, and the rest for any admissible rest, leaves the next chunk the same chunk with the new value |
| HtmlTags.AttributesStable | scripts/capture-http-baseline.ts:458-533 | any exchange of build values in an attribute list is read back as exactly those pieces |
| HtmlTags.StartTagStable | scripts/capture-http-baseline.ts:432-456 | such an exchange leaves the start tag a start tag of the same name that ends where the new text ends, whatever follows it |
| HtmlNormalForm.DocumentWhole | scripts/capture-http-baseline.ts:570-610 | the pieces of a document, put together, are the document: nothing is dropped, added or moved |
| HtmlNormalForm.DocumentStable | scripts/capture-http-baseline.ts:552-610 | exchanging build values anywhere in a document gives a document with exactly the same other pieces, inside or outside raw text |
| HtmlNormalForm.NormalFormPieces | scripts/capture-http-baseline.ts:458-533 | the normal form has the same pieces with every matched timestamp replaced by the marker; comments, raw text and all else are verbatim |
| HtmlNormalForm.NormalFormIdempotent | scripts/capture-http-baseline.ts:570-610 | normalizing twice is normalizing once |
| HtmlNormalForm.SameNormalFormIff | scripts/capture-http-baseline.ts:570-610 | two documents have the same normal form exactly when they differ in the timestamps or markers that are build values, and in nothing else |
| HtmlNormalForm.TimestampsForgotten | scripts/capture-http-baseline.ts:458-533 | putting other timestamps into a document does not change its normal form |
| HtmlDocuments.StampIs | scripts/capture-http-baseline.ts:49-50 | what counts as a timestamp: four, two and two digits with hyphens, a `T`, two, two and two digits with colons, perhaps a point and one to nine digits, and `Z`, `±hhmm` or `±hh:mm` |
| HtmlDocuments.TagNormal | scripts/capture-http-baseline.ts:432-533 | behind any text and before anything, a tag with one attribute, quoted either way or not: a `data-build` in any case with a timestamp has `__TIMESTAMP__` in its place, any other value and any other attribute stay, and so does the rest of the tag |
| HtmlDocuments.CommentNormal | scripts/capture-http-baseline.ts:583-589 | whatever stands in a comment stays as it is |
| HtmlDocuments.RawElementNormal | scripts/capture-http-baseline.ts:575-582 | whatever stands in a `script`, `style`, `textarea` or `title`, their names in any case, stays as it is, and so do their tags |
| HtmlDocuments.CharactersSpelled | scripts/capture-http-baseline.ts:397-426 | which characters are white space, which may be in a tag's name and which in an attribute's |
| HtmlNormalizer.ReadHtmlStartTag | scripts/capture-http-baseline.ts:432-456 | the cursor loop with its quote state finds the first unquoted `>` and the folded name, or that there is none |
| HtmlNormalizer.NormalizeDataBuildInStartTag | scripts/capture-http-baseline.ts:458-533 | the cursor loop over a tag yields its pieces with matched timestamps replaced |
| HtmlNormalizer.MatchesAsciiCaseInsensitiveAt | scripts/capture-http-baseline.ts:535-550 | the loop decides a match under ASCII folding at an offset, without ever reading past the end |
| HtmlNormalizer.RawTextClosingTagStart | scripts/capture-http-baseline.ts:552-568 | the search finds the first closing tag of the raw-text element at or after the cursor, or that there is none |
| HtmlNormalizer.CommentEnd | scripts/capture-http-baseline.ts:583-589 | a comment ends just after the first terminator behind its opening, no earlier one being there, or with the document when there is none |
| HtmlNormalizer.CopyRawText | scripts/capture-http-baseline.ts:575-582 | raw text is copied verbatim up to its closing tag or the end, possibly without advancing |
| HtmlNormalizer.NormalizeDataBuildAttributes | scripts/capture-http-baseline.ts:570-610 | the document loop terminates and yields the normal form of every document |
| ImageDifference.IndexInRange | scripts/lib/visual-contract.ts:326-344 | every position inside a decoded image has its pixel inside the buffer |
| ImageDifference.RawDifferenceIsPixel | scripts/lib/visual-contract.ts:351-365 | comparing four bytes at the two offsets of a shared position stays in bounds and decides whether the two pixels differ |
| ImageDifference.AddSharedDifferences | scripts/lib/visual-contract.ts:410-425 | the nested loops add the number of shared positions whose pixels differ |
| ImageDifference.CountDimensionMismatchDifferences | scripts/lib/visual-contract.ts:399-427 | for any two sizes the count is the number of positions in exactly one image or shared and different, and the other count is that of all positions |
| ImageDifference.MarkRawRgbaDifferences | scripts/lib/visual-contract.ts:382-397 | for equal sizes the count is the same number of positions, and the buffer is painted and nowhere else changed |
| ImageDifference.PaintedAt | scripts/lib/visual-contract.ts:382-397 | exactly the pixels that differ are opaque red in the painted buffer; every other pixel is as it was |
| ImageDifference.MismatchParts | scripts/lib/visual-contract.ts:403-409 | inclusion and exclusion: both counts as sums of areas and of shared differences |
| ImageDifference.MismatchesSymmetric | scripts/lib/visual-contract.ts:399-427 | exchanging the images changes neither the mismatches nor the union |
| ImageDifference.MismatchBounds | scripts/lib/visual-contract.ts:399-427 | mismatches never exceed the union and are there whenever the sizes differ |
| ImageDifference.NoMismatchIff | scripts/lib/visual-contract.ts:382-427 | there is no mismatch exactly when the images are identical |
| GeometryDifference.GeometryKeyInjective | scripts/lib/visual-contract.ts:255-257 | the joined key determines selector and index, even for selectors that hold NULs |
| GeometryDifference.ListsUnique | scripts/lib/visual-contract.ts:278-324 | a duplicate-free list of exactly the differences, ordered by selector, index and field, is the only one |
| GeometryDifference.EmptyIff | scripts/lib/visual-contract.ts:278-324 | there is no difference exactly when the rounded keyed boxes are equal |
| GeometryDifference.SwapSides | scripts/lib/visual-contract.ts:278-324 | exchanging the sides exchanges expected and actual in every entry and nothing else |
| GeometryDifference.NormalizedGeometryMap | scripts/lib/visual-contract.ts:263-276 | succeeds exactly when every box has a selector, an index and four finite numbers and no two share selector and index; the map then holds exactly these boxes, every coordinate rounded, and otherwise the error is that of the first box that breaks the rule |
| GeometryDifference.UnionKeys | scripts/lib/visual-contract.ts:284-292 | every key of either side, once |
| GeometryDifference.CompareGeometry | scripts/lib/visual-contract.ts:278-324 | lists exactly the selectors and indices that one side lacks and the coordinates whose roundings differ, with what either side has, ordered and without duplicates; a bad box of the reference side is reported first |
| GeometryDifference.CompareVisuals | scripts/lib/visual-contract.ts:429-505 | the verdict is `matched` exactly when the images are identical, no selector is missing, both sides have the same selectors and indices and equal roundings of x, y, width and height; the counts are those of mismatches and union whether sizes agree or not |
| ArtifactStore.StepKeeps | scripts/prepare-cloudflare-config.ts:564-631 | every effect, failure or death of any writer keeps the invariant and leaves every finished file as it is |
| ArtifactStore.RunKeeps | scripts/prepare-cloudflare-config.ts:564-631 | so does every interleaving of any number of writers |
| ArtifactStore.FinalPathIsWhole | scripts/prepare-cloudflare-config.ts:574-611 | at no moment does a final path show anything but the complete contents its name is the hash of, and once there they stay |
| ArtifactStore.ReturnMeansPublished | scripts/prepare-cloudflare-config.ts:590-631 | a writer that returned has its own contents under the final path and no temporary left, and none ever reports foreign contents |
| ArtifactStore.ThrowsItsFailures | scripts/prepare-cloudflare-config.ts:590-631 | a writer that is over returned if no effect of its own failed, and otherwise threw exactly the failures of its own effects in their order |
| ArtifactStore.StepWorks | scripts/prepare-cloudflare-config.ts:574-654 | each step uses up work of its writer, so every run is finite |
| ArtifactStore.AllWritersSucceed | scripts/prepare-cloudflare-config.ts:574-631 | without failures every writer returns, even when all of them write the same contents and race on the link |
| ArtifactStore.ArtifactDirectory.WriteSanitizedArtifact | scripts/prepare-cloudflare-config.ts:564-631 | run among any number of other writers, with any effect failing: a normal return means the final path shows exactly these contents and the temporary is gone; no file under a final name is ever touched; nothing thrown blames the contents of a file |
| ArtifactStore.ArtifactDirectory.WriteTemporary | scripts/prepare-cloudflare-config.ts:636-651 | opens exclusively and writes piece by piece while others run; finished files are untouched, and a failure is one of the device |
| ArtifactStore.ArtifactDirectory.Publish | scripts/prepare-cloudflare-config.ts:596-608 | links, or compares with what the winner of the race left: without a failure the final path shows these contents |
| ArtifactStore.ArtifactDirectory.CleanUp | scripts/prepare-cloudflare-config.ts:612-631 | removes the temporary whatever happened; the first error is thrown first, a failed removal joins it |
| ArtifactStore.ArtifactDirectory.ReadExisting | scripts/prepare-cloudflare-config.ts:579-585 | finds nothing or the writer's own contents, never others |
| ArtifactStore.ArtifactDirectory.LinkTemporary | scripts/prepare-cloudflare-config.ts:597-602 | linking replaces nothing: no name moves, and whether it succeeds or finds the name taken the final path then shows the whole contents its name is the hash of |
| ArtifactStore.ArtifactDirectory.RemoveTemporary | scripts/prepare-cloudflare-config.ts:613-617 | the temporary is gone, no other name moved, and a writer that returns has published its contents |
| EvidenceFiles.Checkout.MakeDirectory | scripts/preview-evidence/evidence.ts:896-914 | makes exactly that directory or changes nothing, and succeeds only if nothing had that name |
| EvidenceFiles.Checkout.WriteExclusive | scripts/preview-evidence/evidence.ts:916-931 | creates that one file, perhaps torn by a failure, and never touches an existing one |
| EvidenceFiles.Checkout.RemoveTree | scripts/preview-evidence/evidence.ts:963-979 | touches nothing outside the tree, whether it completes, stops half-way or the process dies |
| EvidenceFiles.Checkout.ReadDirectory | scripts/preview-evidence/evidence.ts:650-655 | all names in the directory, sorted |
| EvidenceFiles.Checkout.ReadRegular | scripts/preview-evidence/evidence.ts:592-623 | the whole contents of a non-empty file within the limit, or a refusal |
| EvidenceManifest.RoleManifestValid | scripts/preview-evidence/evidence.ts:788-802 | each role's share of a valid capture manifest is itself valid |
| EvidenceManifest.FileCodecLawful | scripts/preview-evidence/evidence.ts:635-649 | reading back a manifest written as canonical JSON needs nothing but that the field validators return what they let through |
| EvidenceManifest.CompleteIff | scripts/preview-evidence/evidence.ts:625-693 | what a complete capture is, in full: sources and SHAs of its kind, one to eight distinctly named images from their roles' sources, each as long, hashed and sized as described, at least one a role, a canonical manifest, nothing else, and the limits on all sizes |
| EvidenceManifest.RolePlanLoadable | scripts/preview-evidence/evidence.ts:788-802 | each role's share of a complete capture will load again as a complete capture, if its manifest keeps within the limit |
| EvidenceManifest.MatchIsWhole | scripts/preview-evidence/evidence.ts:867-894 | a destination accepted for a plan holds every image of it byte for byte, the manifest, and nothing else |
| EvidenceManifest.RerunMatches | scripts/preview-evidence/capture.ts:1049-1066 | what was accepted for one plan is accepted for a later one with equal images and a manifest equal up to `capturedAt` and `run.attempt` |
| EvidenceManifest.StableIff | scripts/preview-evidence/capture.ts:1049-1066 | two manifests are the same evidence exactly when they differ in `capturedAt` and `run.attempt` alone |
| EvidenceManifest.PublishedMatches | scripts/preview-evidence/evidence.ts:867-894 | what publishing puts there is what verifying accepts |
| EvidencePublication.LoadCapture | scripts/preview-evidence/evidence.ts:625-693 | succeeds only on a directory that is exactly the complete capture its canonical manifest describes and, without faults, on every such directory |
| EvidencePublication.ClassifyDestination | scripts/preview-evidence/evidence.ts:832-850 | tells a new destination from an existing one and refuses a path that runs through a file |
| EvidencePublication.EnsureSafeDirectory | scripts/preview-evidence/evidence.ts:896-914 | makes the missing parents, never fails on those already there, and changes no file |
| EvidencePublication.VerifyExistingPlan | scripts/preview-evidence/evidence.ts:867-894 | accepts exactly the destinations that match the plan, and changes nothing |
| EvidencePublication.StagePlan | scripts/preview-evidence/evidence.ts:933-961 | stages the whole plan and reads it back, in a directory that was not there; on failure the directory goes again and, once its removal completes, as it does when that directory is not stuck and the process lives, the files are as before; nothing outside it changes |
| EvidencePublication.InstallStagedPlan | scripts/preview-evidence/evidence.ts:963-979 | moves the staged files into a destination nobody had made; on failure, once its removals complete, nothing is left there; a destination already there is left alone; where only stuck trees give trouble it succeeds exactly when the staging directory is not stuck |
| EvidencePublication.RollBack | scripts/preview-evidence/evidence.ts:1394-1402 | touches nothing outside the staged and installed trees of this run and, when its removals complete, leaves nothing in them; while the process lives they complete when no tree is stuck; a stuck tree stays as it is, and a stuck staging directory keeps every installed destination in place |
| EvidencePublication.PublishPlans | scripts/preview-evidence/evidence.ts:1344-1402 | all roles or none: success means the old files plus exactly the added paths, a throw whose removals completed leaves the old files, every old file stays in any case, and without faults it succeeds exactly when every role matches or can be staged; removals complete when no tree of the run is stuck and the process lives; where only stuck trees give trouble it succeeds exactly when no new role's staging directory is stuck, and else the roles before the first stuck one stay published and of that one nothing stands, unless its destination is stuck too |
| EvidencePublication.HalfPublished | scripts/preview-evidence/evidence.ts:1385-1402 | two new roles, nothing wrong but that the second one's staging directory cannot be removed: the call throws with the first role published whole and nothing of the second |
| EvidencePublication.PublishEvidenceToCheckout | scripts/preview-evidence/evidence.ts:1293-1405 | from the caller's capture to the checkout: in every outcome, crashes included, every earlier file is there byte for byte; a throw whose removals completed leaves exactly the old files; success means every image of the capture is byte for byte in `issue-<n>/baseline`, `candidates` or `releases` by its role, in the directory of its SHA, beside a `manifest.json` of exactly that role's share and nothing else, and the reported paths are exactly these, added if they were not there and existing if they were; without faults it succeeds whenever the capture, the context and the checkout permit; whatever fails, a throw leaves exactly the old files if the process lives and no tree of the run is stuck; where only stuck trees give trouble, success and what stays published are as for `PublishPlans` |
| EvidencePublication.AdmissibleIff | scripts/preview-evidence/evidence.ts:757-787 | a capture is admitted exactly when it is complete and repeats the request's kind, issue, subject, run and sources, with the expected status in every image |
| EvidencePublication.RetakenPlans | scripts/preview-evidence/capture.ts:1049-1066 | retaking a capture with equal images and a manifest equal up to time and attempt plans the same evidence |
| EvidencePublication.RerunAddsNothing | scripts/preview-evidence/evidence.ts:1344-1356 | after a success, publishing the same evidence again is possible and has no path to add |
| EvidencePublication.NothingAddedNothingChanged | scripts/preview-evidence/evidence.ts:1349-1404 | a success with no path to add leaves the file map as it was |
| EvidencePublication.IncompleteIsRefused | scripts/preview-evidence/evidence.ts:1344-1347 | a destination that lacks a file of the plan or holds another image makes the publication impossible |
| EvidencePublication.PublishTwice | scripts/preview-evidence/evidence.ts:1293-1405 | two runs, the first of which may die at any effect: no file from before is touched by either; the second throws, and leaves the files alone, if the first left one of its destinations incomplete; after a success the same evidence is accepted again and nothing is added or changed |
| BundleFiles.PathTextInjective | scripts/preview-evidence/bundle.ts:235-247 | different paths have different portable texts |
| BundleFiles.Collector.LoadFile | scripts/preview-evidence/bundle.ts:291-311 | takes one file in, or its refusal shows that the tree as a whole cannot be collected |
| BundleFiles.Collector.Visit | scripts/preview-evidence/bundle.ts:282-313 | an entry adds exactly the files at or below it; anything special refuses the bundle |
| BundleFiles.Collector.Walk | scripts/preview-evidence/bundle.ts:270-313 | a directory adds exactly the files below it, each once |
| BundleFiles.WholeCollection | scripts/preview-evidence/bundle.ts:262-322 | a walk that took everything in within its limits proves the tree collectable, and its sorted result is the collection |
| BundleFiles.CollectionUnique | scripts/preview-evidence/bundle.ts:318-321 | the collection depends on the bundled files alone, not on the order of the walk |
| BundleFiles.CollectBundleFiles | scripts/preview-evidence/bundle.ts:262-322 | succeeds exactly when both directories hold only regular files that fit and stay within the three limits, and then returns all of them sorted by portable path |
| ManifestText.UnsignedInjective | scripts/preview-evidence/bundle.ts:578-593 | the hashed document determines role, SHA, profile, topology and file list |
| ManifestText.DigestInjective | scripts/preview-evidence/bundle.ts:595-599 | equal bundle digests mean equal role, SHA, profile, topology and files |
| ManifestText.ParseEncoded | scripts/preview-evidence/bundle.ts:692-764 | the manifest that is written, as canonical JSON in UTF-8, is the manifest that is read, for every manifest the reader can yield |
| Utf8.DecodeEncoded | scripts/preview-evidence/bundle.ts:353-366 | text without lone surrogates is read back from its UTF-8 |
| Utf8.LoneReplaced | scripts/preview-evidence/bundle.ts:680-684 | a lone surrogate is written as U+FFFD |
| Utf8.PrintedWellFormed | src/ingest/canonical-json.ts:108-116 | printed JSON holds no lone surrogate, whatever its strings hold |
| Utf8.ReadFile | scripts/preview-evidence/bundle.ts:353-366 | every JSON value is read back from its canonical file |
| ManifestText.SameInventoryText | scripts/preview-evidence/bundle.ts:814-816 | comparing canonical texts of two inventories compares the inventories |
| SealedBundle.CreateSealedBundle | scripts/preview-evidence/bundle.ts:636-690 | refuses exactly an invalid identity, invalid limits, a topology that cannot be read or a tree that cannot be collected; otherwise a seal is made exactly when no effect on the output fails, and holds exactly the collected files with the manifest of that identity beside them; of a seal not made nothing is left unless its removal fails too |
| SealedBundle.CheckRoot | scripts/preview-evidence/bundle.ts:336-351 | decides whether the root holds the three directories and nothing else |
| SealContents.SealableIff | scripts/preview-evidence/bundle.ts:262-322 | a build can be sealed exactly when its SHA, profile hash and limits are in order, `dist` and `drizzle` hold only regular files of permitted names, modes, sizes and number, and `dist/server/wrangler.json` yields a topology |
| SealContents.SealShown | scripts/preview-evidence/bundle.ts:578-690 | a seal holds the files of `dist` and `drizzle` unchanged, `.preview-evidence/bundle-manifest.json` and nothing else; that file is canonical JSON with a newline, its members the schema version, role, SHA, profile, topology, the entries of the files in path order with path, bytes, mode and hash, and the hash of all the rest |
| SealedBundle.VerifySealedBundle | scripts/preview-evidence/bundle.ts:766-832 | accepts with this manifest exactly when root, manifest, identity, topology, inventory and digest all fit the tree |
| SealContents.AcceptedIff | scripts/preview-evidence/bundle.ts:692-832 | a tree is accepted exactly when identity, limits, root and files are in order and its manifest file is read as the very JSON that sealing this tree under this identity would write |
| SealedBundle.AcceptedIsInventory | scripts/preview-evidence/bundle.ts:809-819 | every file of an accepted tree but the manifest is listed with its size, mode and hash, every entry is such a file, and nothing special is bundled |
| SealedBundle.SameDigestSameBundle | scripts/preview-evidence/bundle.ts:820-832 | two accepted trees with equal digests have equal identities, manifests and bundled files, byte for byte |
| SealedBundle.FreshSealVerifiesIff | scripts/preview-evidence/bundle.ts:636-832 | a fresh seal verifies under the same identity and limits, and as its own manifest, exactly when that manifest is at most 64 KiB and `drizzle` holds a file |
| SealedBundle.EmptyMigrationsRefused | scripts/preview-evidence/bundle.ts:315-317 | for every lawful codec, identity and configuration file whose topology it reads: a build with an empty `drizzle` directory is sealed, and no verification under the same identity and limits accepts the seal |
| SealedBundle.EmptyMigrationsInput | scripts/preview-evidence/bundle.ts:315-317 | such a build, with a lawful codec that reads JSON objects and the configuration file `{}` |
| HttpParity.DiffsAreDifferences | scripts/parity-http.ts:158-278 | the comparison lists exactly the fields that differ; body fields count only when both bodies were captured, hashes only in exact comparisons |
| HttpParity.NoDiffsIff | scripts/parity-http.ts:225-278 | nothing is listed exactly when the contracts agree |
| HttpParity.RunContractParity | scripts/parity-http.ts:664-701 | a key is reported verified exactly when some contract speaks for it and none that does differs; every difference is reported in request order, and none exactly when all agree |
| HttpParity.UnionOverclaims | scripts/parity-http.ts:615-662 | an API row of a private area with an anonymous and an admitted contract, accepted for a server run: a worker that serves one and fails the other has the row reported as verified |
| HttpParity.UnionSoundIff | scripts/parity-http.ts:615-662 | for all accepted contracts and matrices: whatever the worker answers, every reported key has all its own requests passing, exactly when no two contracts of a key have different bindings |
| HttpParity.AddToRequests | scripts/parity-http.ts:634-643 | adding a contract to its group adds exactly one request, under that contract's own bindings |
| HttpParity.GroupContracts | scripts/parity-http.ts:591-643 | succeeds exactly when every contract's bindings are known, and then holds each contract once under its own bindings, in one group per set of bindings |
| HttpParity.RunGroups | scripts/parity-http.ts:645-661 | the united report lists all groups' differences in order; its keys are those that all requests of some group prove and, when there is no difference, exactly the keys some request speaks for |
| HttpParity.RunServerParity | scripts/parity-http.ts:615-662 | runs every API contract exactly once under its own bindings, refusing unknown kinds, duplicated rows and contracts and rows that do not cover each other; in every case the keys reported are those that all requests under some one set of bindings prove, and the differences those that some request finds |
| HttpParity.RunPublicAssetParity | scripts/parity-http.ts:742-839 | refuses unless manifest and matrix list the same assets once each, then reports exactly the differing properties and, when there is none, claims exactly the checked rows |
| HttpPromotion.RunHttpParity | scripts/parity-http.ts:1183-1261 | it reports exactly the fields in which answers to replayed contracts and properties in which fetched assets differ; the matrix is written exactly when there is no difference in a scope other than routing; then exactly the rows of the scope's kinds that some replayed contract or fetched asset speaks for become `verified` and nothing else changes |
| HttpPromotion.RunnableIff | scripts/parity-http.ts:276-376 | which contracts, matrices and manifests each scope refuses, in terms of their kinds, keys, identities and files |
| HttpPromotion.RunSends | scripts/parity-http.ts:276-613 | which contracts each scope replays and under which bindings, by kind, by the last row of the key and by identity |
| HttpParity.KeysTellKinds | scripts/parity-http.ts:380-384 | keys of kinds without a colon tell kind and path apart |
| HttpParity.FoundationPromotion | scripts/parity-http.ts:386-397 | a foundation promotion rests on the agreement of every contract that names the row |
| HttpParity.PublicPromotion | scripts/parity-http.ts:399-411 | a public promotion rests on the agreement of every contract that names the row when the last row of its key is public, and for an asset on the asset itself |
| HttpParity.PublicPromotionIff | scripts/parity-http.ts:360-411 | whatever the worker answers to contracts and to assets, the promotion of a public row means that a given contract naming it agreed, exactly when the last row of the key is public or no checked asset row has that key |
| HttpParity.HiddenRowPromoted | scripts/parity-http.ts:360-411 | under the program's public-route rule, whatever path it defers: an accepted run that promotes a public asset row whose contract fails, because a later row of the same key and the deferred path hides it |
| HttpParity.PlainKindsDecide | scripts/parity-http.ts:365-376 | when no kind holds a colon the last row of a row's key is as public as the row |
| HttpParity.ServerPromotion | scripts/parity-http.ts:413-424 | a server promotion rests on the agreement of every API contract that names the row, under that contract's own bindings |
| RouteMatrix.RouteKeyCollides | scripts/lib/route-inventory.ts:125-127 | with a NUL in a kind two different routes share a key |
| RouteMatrix.KeySharedIff | scripts/lib/route-inventory.ts:125-127 | a route's key is shared by a route of another kind or path exactly when its own kind or path holds a NUL |
| RouteMatrix.RouteTable.AddRoute | scripts/lib/route-inventory.ts:381-387 | the first offer of a key stays and keeps its place |
| RouteMatrix.CollectRoutes | scripts/lib/route-inventory.ts:381-387 | the routes offered, each key once, with its first offer, in order of first offer |
| RouteMatrix.OffersKept | scripts/lib/route-inventory.ts:381-387 | what is kept of the routes offered is the first one of every key, in the order of those first offers, and nothing else |
| RouteMatrix.KeysKept | scripts/lib/route-inventory.ts:381-387 | the keys kept are exactly the keys offered |
| RouteMatrix.BuildRouteMatrix | scripts/lib/route-inventory.ts:681-706 | refuses exactly an old matrix with a duplicated key and otherwise yields the sorted refresh: a row of every route as the manifest has it, with what was recorded under its key or else pending, and every old row without a route |
| RouteMatrix.JoinedMembers | scripts/lib/route-inventory.ts:696-705 | the rows are the manifest's routes joined with what was recorded, and the old rows of keys the manifest lacks |
| RouteMatrix.RowsExactly | scripts/lib/route-inventory.ts:696-705 | the same in terms of kinds, paths and recorded fields alone: which rows there are, and no others |
| RouteMatrix.RouteCarried | scripts/lib/route-inventory.ts:699 | for every route of the manifest there is a row that carries it as it is now |
| RouteMatrix.RefreshKeys | scripts/lib/route-inventory.ts:695-705 | the keys are exactly those of the manifest and of the old matrix |
| RouteMatrix.StatusKept | scripts/lib/route-inventory.ts:696-700 | every recorded status, and everything else recorded beside it, is kept; only new keys are `pending` |
| RouteMatrix.RefreshAscends | scripts/lib/route-inventory.ts:114-123 | the result is in strictly ascending order, so its order is the only one |
| RouteMatrix.KindsThenPaths | scripts/lib/route-inventory.ts:114-123 | rows stand by kind first, then by path |
| RouteMatrix.RefreshIsFixedPoint | scripts/capture-source-manifest.ts:51-56 | refreshing the refreshed matrix with the same manifest returns it unchanged, so the check after a write succeeds |
| Sorting.SortAscending | scripts/lib/route-inventory.ts:705 | sorting by a strict order elements that never compare equal puts them in strictly ascending order |
| Sorting.AscendingUnique | scripts/lib/route-inventory.ts:705 | a strictly ascending arrangement is determined by its elements |

## Left out

- The branch of `withVisualSourceEnvironment` for a synchronous throw while bindings are applied (scripts/parity-visual.ts:2253-2258): assigning string values is taken not to throw.
- Numbers in canonical JSON are tokens of the characters numbers print with; how a floating-point value becomes its token, and that `-0` prints as `0`, is not modelled.
- `Proxy` objects, exotic arrays and getters that run code: an object is the list of its own properties. An array's `length` is always present and a valid length, as the language guarantees.
- Promise mechanics below the level of callbacks: a step is one callback, and microtasks may interleave in any order the modelled dependencies permit.
- VisualResource.UseFailureWins: identifies an error that gained a cause with the error it was, because the source changes that object in place.
- `toLowerCase` outside ASCII: only ASCII letters are folded. The one other character whose lower case is a single ASCII letter is KELVIN SIGN (`k`), and no name compared against holds a `k`.
- The regular expressions of `normalizeHtml` for asset hashes, module identifiers and deployment versions, and HTML semantics extraction.
- GeometryDifference.CompareVisuals: rounding is an arbitrary function, ratios and percentages are left out, the anti-aliased overlay drawn before the marking is the buffer's arbitrary initial contents, and the order of missing selectors is not stated.
- PNG encoding and decoding, `pixelmatch`, SHA-256, JSON parsing into records, URL and YAML parsing.
- Symbolic and hard links, permissions, umask, and a file changing between `lstat`, `open` and `read`; a read is one effect.
- EvidencePublication.PublishEvidenceToCheckout: added and existing paths are sets, not sorted lists; the publication's URLs, commit message and their validation are left out; the capture is given as its files; role manifests over the size limit count as not publishable.
- EvidencePublication.LoadCapture: the field-by-field validators, canonical file names, viewports and preview identities are the parameter `fields` of the codec; role, SHA, size, count, name and inventory rules are modelled.
- EvidenceFiles.Checkout.WriteExclusive: a failed write may leave any contents in the new file, which is more than a file system would do.
- ArtifactStore.FinalPathIsWhole: assumes distinct random names and an injective hash; the check that the path stays inside the directory and the symlink checks on the directory are left out.
- SealedBundle.CreateSealedBundle: how much of a half-written output stays when its removal fails is not stated; the deployment profile and the generated topology's field rules are one parameter that reads the configuration file; the requested target is part of that parameter; modes are written as asked; the output directory is taken to be absent and outside the source.
- HttpPromotion.RunHttpParity: building the worker, reading the files and route-key parsing are parameters; a request that cannot be built or answered, which ends the run, is left out; the public-route rule is an uninterpreted predicate of kind and path; the reported differences carry their field but not the two values; groups are compared by their bindings, of which the source compares a JSON text.
- RouteMatrix.BuildRouteMatrix: the order of a row's properties, the JSON text of the matrix and the check of each row's shape are left out.
- RouteMatrix.CollectRoutes: which routes are offered, from the TypeScript sources and WordPress inventories, is left out.
- Building, serving, browsers, GitHub, configuration sanitizing, process handling, the HTTP capture plan, command lines and reports.
