/**
 `compareGeometry`: the keyed difference of two lists of element boxes, and the verdict of
 `compareVisuals`.  Coordinates are rounded by a function that is a parameter here.
 */
module GeometryDifference {
  import opened Wrappers
  import opened Utf16
  import opened Sorting
  import opened Decimal
  import opened ImageDifference

  datatype Coordinate = Finite(value: real) | NotFinite

  datatype SourceBox = SourceBox(selector: Text, index: int, x: Coordinate, y: Coordinate, width: Coordinate,
      height: Coordinate)

  datatype Box = Box(selector: Text, index: nat, x: real, y: real, width: real, height: real)

  datatype Field = Presence | X | Y | Width | Height

  datatype FieldValue = Present(present: bool) | At(coordinate: real)

  datatype Diff = Diff(selector: Text, index: nat, field: Field, expected: FieldValue, actual: FieldValue)

  datatype GeometryError = InvalidBox | InfiniteGeometry | DuplicateBox(selector: Text, index: nat)

  // Keys

  const NUL: CodeUnit := 0

  function GeometryKey(selector: Text, index: nat): Text {
    selector + [NUL] + Digits(index)
  }

  lemma DigitAt(selector: Text, index: nat, at: nat)
    requires |selector| < at < |GeometryKey(selector, index)|
    ensures GeometryKey(selector, index)[at] != NUL
  {
    var digits := Digits(index);
    assert GeometryKey(selector, index)[at] == digits[at - |selector| - 1];
    assert digits[at - |selector| - 1] in digits;
  }

  /** No two selector and index pairs share a key, even if a selector holds NUL itself. */
  lemma GeometryKeyInjective(s: Text, i: nat, t: Text, j: nat)
    requires GeometryKey(s, i) == GeometryKey(t, j)
    ensures s == t && i == j
  {
    var k := GeometryKey(s, i);
    assert k[|s|] == NUL && k[|t|] == NUL;
    if |s| < |t| {
      DigitAt(s, i, |t|);
    } else if |t| < |s| {
      DigitAt(t, j, |s|);
    } else {
      assert k[..|s|] == s && GeometryKey(t, j)[..|t|] == t;
      assert k[|s| + 1..] == Digits(i) && GeometryKey(t, j)[|t| + 1..] == Digits(j);
      DigitsInjective(i, j);
    }
  }

  function KeyOf(box: Box): Text {
    GeometryKey(box.selector, box.index)
  }

  // Normalizing

  type Rounding = real -> real

  function NormalizedBox(round: Rounding, source: SourceBox): Result<Box, GeometryError> {
    if source.selector == [] || source.index < 0 then Failure(InvalidBox)
    else if source.x.NotFinite? || source.y.NotFinite? || source.width.NotFinite? || source.height.NotFinite?
      then Failure(InfiniteGeometry)
    else Success(Box(source.selector, source.index, round(source.x.value), round(source.y.value),
                     round(source.width.value), round(source.height.value)))
  }

  type Geometry = map<Text, Box>

  /** Boxes one after another into the map; the first bad or repeated one is refused. */
  function GeometryOf(round: Rounding, boxes: seq<SourceBox>): Result<Geometry, GeometryError> {
    if boxes == [] then Success(map[])
    else
      match GeometryOf(round, boxes[..|boxes| - 1])
      case Failure(e) => Failure(e)
      case Success(geometry) =>
        match NormalizedBox(round, boxes[|boxes| - 1])
        case Failure(e) => Failure(e)
        case Success(box) =>
          if KeyOf(box) in geometry then Failure(DuplicateBox(box.selector, box.index))
          else Success(geometry[KeyOf(box) := box])
  }

  /** The box can be filed: it is valid, and no earlier box has its key. */
  ghost predicate Fits(round: Rounding, boxes: seq<SourceBox>, i: nat)
    requires i < |boxes|
  {
    && NormalizedBox(round, boxes[i]).Success?
    && forall j :: 0 <= j < i && NormalizedBox(round, boxes[j]).Success? ==>
         KeyOf(NormalizedBox(round, boxes[j]).value) != KeyOf(NormalizedBox(round, boxes[i]).value)
  }

  /** What is wrong with a box that cannot be filed. */
  ghost function ErrorOf(round: Rounding, box: SourceBox): GeometryError {
    match NormalizedBox(round, box)
    case Failure(e) => e
    case Success(b) => DuplicateBox(b.selector, b.index)
  }

  /** The map holds the rounded boxes under their keys, and nothing else. */
  ghost predicate Files(round: Rounding, boxes: seq<SourceBox>, geometry: Geometry) {
    && (forall i :: 0 <= i < |boxes| ==>
          && NormalizedBox(round, boxes[i]).Success?
          && KeyOf(NormalizedBox(round, boxes[i]).value) in geometry
          && geometry[KeyOf(NormalizedBox(round, boxes[i]).value)] == NormalizedBox(round, boxes[i]).value)
    && (forall k :: k in geometry ==> FiledUnder(round, boxes, k))
  }

  ghost predicate FiledUnder(round: Rounding, boxes: seq<SourceBox>, k: Text) {
    exists i :: 0 <= i < |boxes| && NormalizedBox(round, boxes[i]).Success? &&
      KeyOf(NormalizedBox(round, boxes[i]).value) == k
  }

  lemma FilesNext(round: Rounding, init: seq<SourceBox>, last: SourceBox, geometry: Geometry)
    requires Files(round, init, geometry) && NormalizedBox(round, last).Success?
    ensures var box := NormalizedBox(round, last).value;
      && (KeyOf(box) in geometry <==> !Fits(round, init + [last], |init|))
      && (KeyOf(box) !in geometry ==> Files(round, init + [last], geometry[KeyOf(box) := box]))
  {
    var box, boxes := NormalizedBox(round, last).value, init + [last];
    assert boxes[|init|] == last;
    assert forall i :: 0 <= i < |init| ==> boxes[i] == init[i];
    if KeyOf(box) in geometry {
      assert FiledUnder(round, init, KeyOf(box));
    } else {
      forall k | k in geometry[KeyOf(box) := box] ensures FiledUnder(round, boxes, k) {
        if k != KeyOf(box) {
          assert FiledUnder(round, init, k);
          var i :| 0 <= i < |init| && NormalizedBox(round, init[i]).Success? &&
            KeyOf(NormalizedBox(round, init[i]).value) == k;
          assert boxes[i] == init[i];
        }
      }
    }
  }

  ghost predicate AllFit(round: Rounding, boxes: seq<SourceBox>) {
    forall i :: 0 <= i < |boxes| ==> Fits(round, boxes, i)
  }

  ghost predicate FirstMisfit(round: Rounding, boxes: seq<SourceBox>, n: nat) {
    n < |boxes| && !Fits(round, boxes, n) && forall i :: 0 <= i < n ==> Fits(round, boxes, i)
  }

  lemma FitsNext(round: Rounding, init: seq<SourceBox>, last: SourceBox)
    ensures AllFit(round, init + [last]) <==> AllFit(round, init) && Fits(round, init + [last], |init|)
    ensures AllFit(round, init) && !AllFit(round, init + [last]) ==> FirstMisfit(round, init + [last], |init|)
    ensures forall n: nat :: FirstMisfit(round, init, n) ==> FirstMisfit(round, init + [last], n)
  {
    var boxes := init + [last];
    forall i | 0 <= i < |init| ensures Fits(round, init, i) <==> Fits(round, boxes, i) {
      assert forall j :: 0 <= j <= i ==> boxes[j] == init[j];
    }
  }

  /** The error of the first box that does not fit. */
  ghost predicate Reports(round: Rounding, boxes: seq<SourceBox>, e: GeometryError) {
    exists n: nat :: FirstMisfit(round, boxes, n) && e == ErrorOf(round, boxes[n])
  }

  /** What the boxes amount to. */
  ghost predicate Summed(round: Rounding, boxes: seq<SourceBox>, r: Result<Geometry, GeometryError>) {
    && (r.Success? <==> AllFit(round, boxes))
    && (r.Success? ==> Files(round, boxes, r.value))
    && (r.Failure? ==> Reports(round, boxes, r.error))
  }

  lemma FailureStays(round: Rounding, init: seq<SourceBox>, last: SourceBox, e: GeometryError)
    requires Summed(round, init, Failure(e))
    ensures Summed(round, init + [last], Failure(e))
  {
    FitsNext(round, init, last);
    var n: nat :| FirstMisfit(round, init, n) && e == ErrorOf(round, init[n]);
    assert FirstMisfit(round, init + [last], n) && (init + [last])[n] == init[n];
  }

  lemma BadBoxReported(round: Rounding, init: seq<SourceBox>, last: SourceBox, geometry: Geometry)
    requires Summed(round, init, Success(geometry)) && !Fits(round, init + [last], |init|)
    ensures Summed(round, init + [last], Failure(ErrorOf(round, last)))
  {
    FitsNext(round, init, last);
    assert FirstMisfit(round, init + [last], |init|) && (init + [last])[|init|] == last;
  }

  lemma GoodBoxFiled(round: Rounding, init: seq<SourceBox>, last: SourceBox, geometry: Geometry)
    requires Summed(round, init, Success(geometry)) && NormalizedBox(round, last).Success?
    ensures var box := NormalizedBox(round, last).value;
      && (KeyOf(box) in geometry ==> !Fits(round, init + [last], |init|))
      && (KeyOf(box) !in geometry ==> Summed(round, init + [last], Success(geometry[KeyOf(box) := box])))
  {
    FitsNext(round, init, last);
    FilesNext(round, init, last, geometry);
  }

  /**
   The boxes make a map exactly when every one of them is valid and no two share a key; the map
   then holds exactly the rounded boxes, and otherwise the first box that does not fit is reported.
   */
  lemma {:induction false} GeometryOfIff(round: Rounding, boxes: seq<SourceBox>)
    ensures Summed(round, boxes, GeometryOf(round, boxes))
  {
    if boxes != [] {
      var init, last := boxes[..|boxes| - 1], boxes[|boxes| - 1];
      assert boxes == init + [last];
      GeometryOfIff(round, init);
      match GeometryOf(round, init)
      case Failure(e) => FailureStays(round, init, last, e);
      case Success(geometry) =>
        if NormalizedBox(round, last).Success? {
          GoodBoxFiled(round, init, last, geometry);
        }
        if !Fits(round, init + [last], |init|) {
          BadBoxReported(round, init, last, geometry);
        }
    }
  }

  /** Every box is filed under its own key. */
  ghost predicate Keyed(geometry: Geometry) {
    forall k :: k in geometry ==> KeyOf(geometry[k]) == k
  }

  lemma {:induction false} GeometryKeyed(round: Rounding, boxes: seq<SourceBox>)
    requires GeometryOf(round, boxes).Success?
    ensures Keyed(GeometryOf(round, boxes).value)
  {
    if boxes != [] {
      GeometryKeyed(round, boxes[..|boxes| - 1]);
    }
  }

  // What counts as a difference

  function Coordinates(box: Box, field: Field): real
    requires !field.Presence?
  {
    match field
    case X => box.x
    case Y => box.y
    case Width => box.width
    case Height => box.height
  }

  predicate IsDifference(reference: Geometry, candidate: Geometry, d: Diff) {
    var k := GeometryKey(d.selector, d.index);
    if d.field.Presence? then
      (k in reference) != (k in candidate) && d.expected == Present(k in reference) &&
        d.actual == Present(k in candidate)
    else
      && k in reference && k in candidate
      && d.expected == At(Coordinates(reference[k], d.field)) && d.actual == At(Coordinates(candidate[k], d.field))
      && d.expected != d.actual
  }

  function Rank(field: Field): nat {
    match field
    case Presence => 0
    case X => 1
    case Y => 2
    case Width => 3
    case Height => 4
  }

  predicate PlaceBefore(s: Text, i: nat, t: Text, j: nat) {
    Before(s, t) || (s == t && i < j)
  }

  predicate DiffBefore(a: Diff, b: Diff) {
    || PlaceBefore(a.selector, a.index, b.selector, b.index)
    || (a.selector == b.selector && a.index == b.index && Rank(a.field) < Rank(b.field))
  }

  /** The differences of two geometries: all of them, nothing else, in order of selector, index and field. */
  ghost predicate Lists(reference: Geometry, candidate: Geometry, diffs: seq<Diff>) {
    && Ascending(DiffBefore, diffs)
    && forall d :: d in diffs <==> IsDifference(reference, candidate, d)
  }

  lemma {:induction false} PlaceBeforeStrict()
    ensures forall s, i :: !PlaceBefore(s, i, s, i)
    ensures forall s, i, t, j, u, k :: PlaceBefore(s, i, t, j) && PlaceBefore(t, j, u, k) ==> PlaceBefore(s, i, u, k)
  {
    BeforeIsStrict();
  }

  lemma {:induction false} DiffBeforeIsStrict()
    ensures StrictOrder(DiffBefore)
  {
    PlaceBeforeStrict();
    forall a, b, c | DiffBefore(a, b) && DiffBefore(b, c) ensures DiffBefore(a, c) {
    }
  }

  /** There is only one such list. */
  lemma ListsUnique(reference: Geometry, candidate: Geometry, a: seq<Diff>, b: seq<Diff>)
    requires Lists(reference, candidate, a) && Lists(reference, candidate, b)
    ensures a == b
  {
    DiffBeforeIsStrict();
    AscendingUnique(DiffBefore, a, b);
  }

  /** Nothing is listed exactly when the rounded boxes agree. */
  lemma EmptyIff(reference: Geometry, candidate: Geometry, diffs: seq<Diff>)
    requires Keyed(reference) && Keyed(candidate) && Lists(reference, candidate, diffs)
    ensures diffs == [] <==> reference == candidate
  {
    if diffs == [] {
      forall k | k in reference || k in candidate
        ensures k in reference && k in candidate && reference[k] == candidate[k]
      {
        var box := if k in reference then reference[k] else candidate[k];
        assert KeyOf(box) == k;
        var d := Diff(box.selector, box.index, Presence, Present(k in reference), Present(k in candidate));
        assert d !in diffs && !IsDifference(reference, candidate, d);
        SameBox(reference, candidate, k, diffs);
      }
    } else {
      assert diffs[0] in diffs;
    }
  }

  lemma SameBox(reference: Geometry, candidate: Geometry, k: Text, diffs: seq<Diff>)
    requires Keyed(reference) && Keyed(candidate) && Lists(reference, candidate, diffs) && diffs == []
    requires k in reference && k in candidate
    ensures reference[k] == candidate[k]
  {
    var a, b := reference[k], candidate[k];
    GeometryKeyInjective(a.selector, a.index, b.selector, b.index);
    forall f: Field | !f.Presence? ensures Coordinates(a, f) == Coordinates(b, f) {
      var d := Diff(a.selector, a.index, f, At(Coordinates(a, f)), At(Coordinates(b, f)));
      assert d !in diffs && !IsDifference(reference, candidate, d);
    }
    assert Coordinates(a, X) == Coordinates(b, X) && Coordinates(a, Y) == Coordinates(b, Y);
    assert Coordinates(a, Width) == Coordinates(b, Width) && Coordinates(a, Height) == Coordinates(b, Height);
  }

  function Swapped(d: Diff): Diff {
    d.(expected := d.actual, actual := d.expected)
  }

  function SwappedAll(diffs: seq<Diff>): (r: seq<Diff>)
    ensures |r| == |diffs| && forall i :: 0 <= i < |diffs| ==> r[i] == Swapped(diffs[i])
  {
    seq(|diffs|, i requires 0 <= i < |diffs| => Swapped(diffs[i]))
  }

  /** Exchanging the two sides exchanges expected and actual, and nothing else. */
  lemma SwapSides(reference: Geometry, candidate: Geometry, forth: seq<Diff>, back: seq<Diff>)
    requires Lists(reference, candidate, forth) && Lists(candidate, reference, back)
    ensures back == SwappedAll(forth)
  {
    var swapped := SwappedAll(forth);
    forall d ensures d in swapped <==> IsDifference(candidate, reference, d) {
      assert IsDifference(candidate, reference, d) <==> IsDifference(reference, candidate, Swapped(d));
      if d in swapped {
        var i :| 0 <= i < |swapped| && swapped[i] == d;
        assert forth[i] in forth && Swapped(d) == forth[i];
      }
      if Swapped(d) in forth {
        var i :| 0 <= i < |forth| && forth[i] == Swapped(d);
        assert swapped[i] == d;
      }
    }
    assert Ascending(DiffBefore, swapped) by {
      forall i, j | 0 <= i < j < |swapped| ensures DiffBefore(swapped[i], swapped[j]) {
        assert DiffBefore(forth[i], forth[j]);
      }
    }
    ListsUnique(candidate, reference, back, swapped);
  }

  // The program

  method NormalizedGeometryMap(round: Rounding, boxes: seq<SourceBox>) returns (r: Result<Geometry, GeometryError>,
      keys: seq<Text>)
    ensures r == GeometryOf(round, boxes) && Summed(round, boxes, r)
    ensures r.Success? ==>
      (forall k :: k in keys <==> k in r.value) && forall i, j :: 0 <= i < j < |keys| ==> keys[i] != keys[j]
    ensures r.Success? <==> Acceptable(boxes)
    ensures r.Success? ==> RoundedAll(round, boxes, r.value)
    ensures r.Failure? ==> exists n: nat :: FirstBad(boxes, n, r.error)
  {
    MapMeans(round, boxes);
    r, keys := FileBoxes(round, boxes);
  }

  /** The loop that files the boxes, one after another. */
  method FileBoxes(round: Rounding, boxes: seq<SourceBox>) returns (r: Result<Geometry, GeometryError>,
      keys: seq<Text>)
    ensures r == GeometryOf(round, boxes)
    ensures r.Success? ==>
      (forall k :: k in keys <==> k in r.value) && forall i, j :: 0 <= i < j < |keys| ==> keys[i] != keys[j]
  {
    var geometry: Geometry := map[];
    keys := [];
    var n := 0;
    while n < |boxes|
      invariant 0 <= n <= |boxes|
      invariant GeometryOf(round, boxes[..n]) == Success(geometry)
      invariant (forall k :: k in keys <==> k in geometry) && forall i, j :: 0 <= i < j < |keys| ==> keys[i] != keys[j]
    {
      assert boxes[..n + 1][..n] == boxes[..n];
      var box := NormalizedBox(round, boxes[n]);
      if box.Failure? {
        FirstErrorStays(round, boxes, n + 1);
        return Failure(box.error), keys;
      }
      var key := KeyOf(box.value);
      if key in geometry {
        FirstErrorStays(round, boxes, n + 1);
        return Failure(DuplicateBox(box.value.selector, box.value.index)), keys;
      }
      geometry := geometry[key := box.value];
      keys := keys + [key];
      n := n + 1;
    }
    assert boxes[..n] == boxes;
    return Success(geometry), keys;
  }

  lemma {:induction false} FirstErrorStays(round: Rounding, boxes: seq<SourceBox>, n: nat)
    requires n <= |boxes| && GeometryOf(round, boxes[..n]).Failure?
    ensures GeometryOf(round, boxes) == GeometryOf(round, boxes[..n])
    decreases |boxes|
  {
    if n < |boxes| {
      var init := boxes[..|boxes| - 1];
      assert init[..n] == boxes[..n];
      FirstErrorStays(round, init, n);
    } else {
      assert boxes[..n] == boxes;
    }
  }

  /** `reference.get(key) ?? candidate.get(key)`; the default is never reached. */
  function Either(reference: Geometry, candidate: Geometry, k: Text): Box {
    if k in reference then reference[k] else if k in candidate then candidate[k] else Box([], 0, 0.0, 0.0, 0.0, 0.0)
  }

  predicate KeyBefore(reference: Geometry, candidate: Geometry, k: Text, l: Text) {
    var a, b := Either(reference, candidate, k), Either(reference, candidate, l);
    PlaceBefore(a.selector, a.index, b.selector, b.index)
  }

  function FieldDiff(expected: Box, actual: Box, field: Field): seq<Diff>
    requires !field.Presence?
  {
    if Coordinates(expected, field) != Coordinates(actual, field) then
      [Diff(expected.selector, expected.index, field, At(Coordinates(expected, field)), At(Coordinates(actual, field)))]
    else []
  }

  /** The differences under one key, fields in their fixed order. */
  function KeyDiffs(reference: Geometry, candidate: Geometry, k: Text): seq<Diff> {
    if k in reference && k in candidate then
      FieldDiff(reference[k], candidate[k], X) + FieldDiff(reference[k], candidate[k], Y)
      + FieldDiff(reference[k], candidate[k], Width) + FieldDiff(reference[k], candidate[k], Height)
    else
      var box := Either(reference, candidate, k);
      [Diff(box.selector, box.index, Presence, Present(k in reference), Present(k in candidate))]
  }

  function DiffsOf(reference: Geometry, candidate: Geometry, keys: seq<Text>): seq<Diff> {
    if keys == [] then []
    else DiffsOf(reference, candidate, keys[..|keys| - 1]) + KeyDiffs(reference, candidate, keys[|keys| - 1])
  }

  lemma FieldDiffsAscend(expected: Box, actual: Box)
    ensures Ascending(DiffBefore, FieldDiff(expected, actual, X) + FieldDiff(expected, actual, Y)
                                  + FieldDiff(expected, actual, Width) + FieldDiff(expected, actual, Height))
  {
    var x, y := FieldDiff(expected, actual, X), FieldDiff(expected, actual, Y);
    var w, h := FieldDiff(expected, actual, Width), FieldDiff(expected, actual, Height);
    AscendingConcat(x, y);
    AscendingConcat(x + y, w);
    AscendingConcat(x + y + w, h);
  }

  lemma KeyDiffsPlace(reference: Geometry, candidate: Geometry, k: Text)
    requires Keyed(reference) && Keyed(candidate) && (k in reference || k in candidate)
    ensures forall d :: d in KeyDiffs(reference, candidate, k) ==>
      d.selector == Either(reference, candidate, k).selector && d.index == Either(reference, candidate, k).index
    ensures Ascending(DiffBefore, KeyDiffs(reference, candidate, k))
  {
    if k in reference && k in candidate {
      FieldDiffsAscend(reference[k], candidate[k]);
    }
  }

  lemma KeyDiffsContents(reference: Geometry, candidate: Geometry, k: Text, d: Diff)
    requires Keyed(reference) && Keyed(candidate) && (k in reference || k in candidate)
    ensures d in KeyDiffs(reference, candidate, k) <==>
      GeometryKey(d.selector, d.index) == k && IsDifference(reference, candidate, d)
  {
    var box := Either(reference, candidate, k);
    if GeometryKey(d.selector, d.index) == k {
      GeometryKeyInjective(d.selector, d.index, box.selector, box.index);
    }
    if k in reference && k in candidate {
      GeometryKeyInjective(reference[k].selector, reference[k].index, candidate[k].selector, candidate[k].index);
    }
  }

  ghost predicate KeysAscend(reference: Geometry, candidate: Geometry, keys: seq<Text>) {
    forall i, j :: 0 <= i < j < |keys| ==> KeyBefore(reference, candidate, keys[i], keys[j])
  }

  /** Differences under an earlier key come before those under a later one. */
  lemma EarlierKeyBefore(reference: Geometry, candidate: Geometry, earlier: Text, later: Text, d: Diff, e: Diff)
    requires Keyed(reference) && Keyed(candidate) && (earlier in reference || earlier in candidate)
    requires KeyBefore(reference, candidate, earlier, later) && GeometryKey(d.selector, d.index) == earlier
    requires e.selector == Either(reference, candidate, later).selector
    requires e.index == Either(reference, candidate, later).index
    ensures DiffBefore(d, e)
  {
    var box := Either(reference, candidate, earlier);
    GeometryKeyInjective(d.selector, d.index, box.selector, box.index);
  }

  lemma {:induction false} DiffsOfLists(reference: Geometry, candidate: Geometry, keys: seq<Text>)
    requires Keyed(reference) && Keyed(candidate)
    requires KeysAscend(reference, candidate, keys) && forall k :: k in keys ==> k in reference || k in candidate
    ensures forall d :: d in DiffsOf(reference, candidate, keys) <==>
      GeometryKey(d.selector, d.index) in keys && IsDifference(reference, candidate, d)
    ensures Ascending(DiffBefore, DiffsOf(reference, candidate, keys))
  {
    if keys != [] {
      var init, last := keys[..|keys| - 1], keys[|keys| - 1];
      assert keys == init + [last];
      DiffsOfLists(reference, candidate, init);
      KeyDiffsPlace(reference, candidate, last);
      forall d ensures d in KeyDiffs(reference, candidate, last) <==>
          GeometryKey(d.selector, d.index) == last && IsDifference(reference, candidate, d) {
        KeyDiffsContents(reference, candidate, last, d);
      }
      forall d, e | d in DiffsOf(reference, candidate, init) && e in KeyDiffs(reference, candidate, last)
        ensures DiffBefore(d, e)
      {
        var i :| 0 <= i < |init| && init[i] == GeometryKey(d.selector, d.index);
        assert KeyBefore(reference, candidate, keys[i], keys[|keys| - 1]);
        EarlierKeyBefore(reference, candidate, keys[i], last, d, e);
      }
      AscendingConcat(DiffsOf(reference, candidate, init), KeyDiffs(reference, candidate, last));
    }
  }

  lemma AscendingConcat(a: seq<Diff>, b: seq<Diff>)
    requires Ascending(DiffBefore, a) && Ascending(DiffBefore, b)
    requires forall d, e :: d in a && e in b ==> DiffBefore(d, e)
    ensures Ascending(DiffBefore, a + b)
  {
    forall i, j | 0 <= i < j < |a + b| ensures DiffBefore((a + b)[i], (a + b)[j]) {
      if i < |a| && j >= |a| {
        assert a[i] in a && b[j - |a|] in b;
      }
    }
  }

  /** The keys of both maps, each once: those of the reference first. */
  method UnionKeys(reference: seq<Text>, candidate: seq<Text>, referenceMap: Geometry) returns (keys: seq<Text>)
    requires forall k :: k in reference <==> k in referenceMap
    requires forall i, j :: 0 <= i < j < |reference| ==> reference[i] != reference[j]
    requires forall i, j :: 0 <= i < j < |candidate| ==> candidate[i] != candidate[j]
    ensures forall k :: k in keys <==> k in reference || k in candidate
    ensures forall i, j :: 0 <= i < j < |keys| ==> keys[i] != keys[j]
  {
    keys := reference;
    var n := 0;
    while n < |candidate|
      invariant 0 <= n <= |candidate|
      invariant forall k :: k in keys <==> k in reference || k in candidate[..n]
      invariant forall i, j :: 0 <= i < j < |keys| ==> keys[i] != keys[j]
    {
      assert candidate[..n + 1] == candidate[..n] + [candidate[n]];
      if candidate[n] !in referenceMap {
        assert candidate[n] !in candidate[..n];
        keys := keys + [candidate[n]];
      }
      n := n + 1;
    }
    assert candidate[..n] == candidate;
  }

  lemma {:induction false} SortedKeysAscend(reference: Geometry, candidate: Geometry, keys: seq<Text>)
    requires Keyed(reference) && Keyed(candidate)
    requires forall k :: k in keys ==> k in reference || k in candidate
    requires forall i, j :: 0 <= i < j < |keys| ==> keys[i] != keys[j]
    ensures var before := (k, l) => KeyBefore(reference, candidate, k, l);
      KeysAscend(reference, candidate, Sort(before, keys)) && forall k :: k in Sort(before, keys) <==> k in keys
  {
    var before := (k, l) => KeyBefore(reference, candidate, k, l);
    PlaceBeforeStrict();
    forall i, j | 0 <= i < j < |keys| ensures before(keys[i], keys[j]) || before(keys[j], keys[i]) {
      var a, b := Either(reference, candidate, keys[i]), Either(reference, candidate, keys[j]);
      assert keys[i] in keys && keys[j] in keys;
      assert KeyOf(a) == keys[i] && KeyOf(b) == keys[j];
      BeforeTotal(a.selector, b.selector);
    }
    SortAscending(before, keys);
    forall k ensures k in Sort(before, keys) <==> k in keys {
      SameElements(Sort(before, keys), keys, k);
    }
  }

  // The same in terms of the boxes as they came

  predicate WellMeasured(box: SourceBox) {
    && box.selector != [] && box.index >= 0
    && box.x.Finite? && box.y.Finite? && box.width.Finite? && box.height.Finite?
  }

  /** The same element: selector and index agree. */
  predicate SamePlace(a: SourceBox, b: SourceBox) {
    a.selector == b.selector && a.index == b.index
  }

  /** Every box is measured, and no element has two. */
  ghost predicate Acceptable(boxes: seq<SourceBox>) {
    && (forall i :: 0 <= i < |boxes| ==> WellMeasured(boxes[i]))
    && (forall i, j :: 0 <= i < j < |boxes| ==> !SamePlace(boxes[i], boxes[j]))
  }

  ghost predicate Has(boxes: seq<SourceBox>, selector: Text, index: nat) {
    exists i :: 0 <= i < |boxes| && boxes[i].selector == selector && boxes[i].index == index
  }

  function Measured(round: Rounding, box: SourceBox, field: Field): real
    requires WellMeasured(box) && !field.Presence?
  {
    match field
    case X => round(box.x.value)
    case Y => round(box.y.value)
    case Width => round(box.width.value)
    case Height => round(box.height.value)
  }

  /** One element measured on both sides, and the two roundings of this field differ. */
  ghost predicate MeasuredApart(round: Rounding, a: SourceBox, b: SourceBox, d: Diff)
    requires WellMeasured(a) && WellMeasured(b) && !d.field.Presence?
  {
    && a.selector == d.selector == b.selector && a.index == d.index == b.index
    && d.expected == At(Measured(round, a, d.field)) && d.actual == At(Measured(round, b, d.field))
    && Measured(round, a, d.field) != Measured(round, b, d.field)
  }

  /** An element on one side alone, or a field whose rounded values differ, with what either side has. */
  ghost predicate BoxesDiffer(round: Rounding, a: seq<SourceBox>, b: seq<SourceBox>, d: Diff)
    requires Acceptable(a) && Acceptable(b)
  {
    if d.field.Presence? then
      && Has(a, d.selector, d.index) != Has(b, d.selector, d.index)
      && d.expected == Present(Has(a, d.selector, d.index)) && d.actual == Present(Has(b, d.selector, d.index))
    else
      exists i, j :: 0 <= i < |a| && 0 <= j < |b| && MeasuredApart(round, a[i], b[j], d)
  }

  /** The same elements on both sides, at the same rounded places and of the same rounded sizes. */
  ghost predicate SameBoxes(round: Rounding, a: seq<SourceBox>, b: seq<SourceBox>)
    requires Acceptable(a) && Acceptable(b)
  {
    && (forall i :: 0 <= i < |a| ==> Has(b, a[i].selector, a[i].index))
    && (forall j :: 0 <= j < |b| ==> Has(a, b[j].selector, b[j].index))
    && (forall i, j :: 0 <= i < |a| && 0 <= j < |b| && SamePlace(a[i], b[j]) ==>
          && round(a[i].x.value) == round(b[j].x.value) && round(a[i].y.value) == round(b[j].y.value)
          && round(a[i].width.value) == round(b[j].width.value)
          && round(a[i].height.value) == round(b[j].height.value))
  }

  /** The first box that is not measured or repeats an element, and what is wrong with it. */
  ghost predicate FirstBad(boxes: seq<SourceBox>, n: nat, e: GeometryError) {
    && n < |boxes| && Acceptable(boxes[..n]) && !Acceptable(boxes[..n + 1])
    && var box := boxes[n];
    && (box.selector == [] || box.index < 0 ==> e == InvalidBox)
    && (box.selector != [] && box.index >= 0 ==>
          e == if WellMeasured(box) then DuplicateBox(box.selector, box.index) else InfiniteGeometry)
  }

  lemma FitsIff(round: Rounding, boxes: seq<SourceBox>, i: nat)
    requires i < |boxes|
    ensures NormalizedBox(round, boxes[i]).Success? <==> WellMeasured(boxes[i])
    ensures WellMeasured(boxes[i]) ==>
      KeyOf(NormalizedBox(round, boxes[i]).value) == GeometryKey(boxes[i].selector, boxes[i].index)
    ensures Fits(round, boxes, i) <==>
      WellMeasured(boxes[i]) && forall j :: 0 <= j < i && WellMeasured(boxes[j]) ==> !SamePlace(boxes[j], boxes[i])
  {
    forall j | 0 <= j < i && WellMeasured(boxes[j]) && WellMeasured(boxes[i])
      ensures KeyOf(NormalizedBox(round, boxes[j]).value) == KeyOf(NormalizedBox(round, boxes[i]).value) <==>
        SamePlace(boxes[j], boxes[i])
    {
      if KeyOf(NormalizedBox(round, boxes[j]).value) == KeyOf(NormalizedBox(round, boxes[i]).value) {
        GeometryKeyInjective(boxes[j].selector, boxes[j].index, boxes[i].selector, boxes[i].index);
      }
    }
  }

  lemma AllFitIff(round: Rounding, boxes: seq<SourceBox>)
    ensures AllFit(round, boxes) <==> Acceptable(boxes)
  {
    forall i | 0 <= i < |boxes|
      ensures Fits(round, boxes, i) <==>
        WellMeasured(boxes[i]) && forall j :: 0 <= j < i && WellMeasured(boxes[j]) ==> !SamePlace(boxes[j], boxes[i])
    {
      FitsIff(round, boxes, i);
    }
  }

  lemma MisfitIsBad(round: Rounding, boxes: seq<SourceBox>, n: nat)
    requires FirstMisfit(round, boxes, n)
    ensures FirstBad(boxes, n, ErrorOf(round, boxes[n]))
  {
    FitsPrefix(round, boxes, n);
    AllFitIff(round, boxes[..n]);
    AllFitIff(round, boxes[..n + 1]);
    FitsIff(round, boxes, n);
  }

  lemma FitsPrefix(round: Rounding, boxes: seq<SourceBox>, n: nat)
    requires FirstMisfit(round, boxes, n)
    ensures AllFit(round, boxes[..n]) && !AllFit(round, boxes[..n + 1])
  {
    forall i | 0 <= i <= n ensures Fits(round, boxes[..n + 1], i) <==> Fits(round, boxes, i) {
      assert forall j :: 0 <= j <= i ==> boxes[..n + 1][j] == boxes[j];
    }
    forall i | 0 <= i < n ensures Fits(round, boxes[..n], i) {
      assert Fits(round, boxes, i) && forall j :: 0 <= j <= i ==> boxes[..n][j] == boxes[j];
    }
  }

  /** The boxes make a map exactly when they are acceptable; else the first bad one is the error. */
  lemma GeometryAccepted(round: Rounding, boxes: seq<SourceBox>)
    ensures GeometryOf(round, boxes).Success? <==> Acceptable(boxes)
    ensures GeometryOf(round, boxes).Failure? ==> exists n: nat :: FirstBad(boxes, n, GeometryOf(round, boxes).error)
  {
    GeometryOfIff(round, boxes);
    AllFitIff(round, boxes);
    if GeometryOf(round, boxes).Failure? {
      var n: nat :| FirstMisfit(round, boxes, n) && GeometryOf(round, boxes).error == ErrorOf(round, boxes[n]);
      MisfitIsBad(round, boxes, n);
    }
  }

  lemma FiledIff(round: Rounding, boxes: seq<SourceBox>, selector: Text, index: nat)
    requires Acceptable(boxes) && GeometryOf(round, boxes).Success?
    ensures GeometryKey(selector, index) in GeometryOf(round, boxes).value <==> Has(boxes, selector, index)
  {
    var k := GeometryKey(selector, index);
    GeometryOfIff(round, boxes);
    if k in GeometryOf(round, boxes).value {
      assert FiledUnder(round, boxes, k);
      var i :| 0 <= i < |boxes| && NormalizedBox(round, boxes[i]).Success?
        && KeyOf(NormalizedBox(round, boxes[i]).value) == k;
      GeometryKeyInjective(boxes[i].selector, boxes[i].index, selector, index);
    }
  }

  lemma RoundedBox(round: Rounding, box: SourceBox, f: Field)
    requires WellMeasured(box) && !f.Presence?
    ensures NormalizedBox(round, box).Success?
    ensures KeyOf(NormalizedBox(round, box).value) == GeometryKey(box.selector, box.index)
    ensures Coordinates(NormalizedBox(round, box).value, f) == Measured(round, box, f)
  {
  }

  lemma FiledBox(round: Rounding, boxes: seq<SourceBox>, i: nat, f: Field)
    requires Acceptable(boxes) && GeometryOf(round, boxes).Success? && i < |boxes| && !f.Presence?
    ensures GeometryKey(boxes[i].selector, boxes[i].index) in GeometryOf(round, boxes).value
    ensures Coordinates(GeometryOf(round, boxes).value[GeometryKey(boxes[i].selector, boxes[i].index)], f) ==
      Measured(round, boxes[i], f)
  {
    GeometryOfIff(round, boxes);
    RoundedBox(round, boxes[i], f);
    var k := KeyOf(NormalizedBox(round, boxes[i]).value);
    assert GeometryOf(round, boxes).value[k] == NormalizedBox(round, boxes[i]).value;
  }

  function PlaceKey(box: SourceBox): Text
    requires box.index >= 0
  {
    GeometryKey(box.selector, box.index)
  }

  /** The map holds this box under its selector and index, every coordinate rounded. */
  ghost predicate Rounded(round: Rounding, box: SourceBox, geometry: Geometry)
    requires WellMeasured(box)
  {
    && PlaceKey(box) in geometry
    && geometry[PlaceKey(box)] == Box(box.selector, box.index, round(box.x.value), round(box.y.value),
         round(box.width.value), round(box.height.value))
  }

  /** The map holds these boxes, every coordinate rounded, and nothing else. */
  ghost predicate RoundedAll(round: Rounding, boxes: seq<SourceBox>, geometry: Geometry)
    requires Acceptable(boxes)
  {
    && (forall i :: 0 <= i < |boxes| ==> Rounded(round, boxes[i], geometry))
    && (forall k :: k in geometry ==> exists i :: 0 <= i < |boxes| && PlaceKey(boxes[i]) == k)
  }

  lemma MapMeans(round: Rounding, boxes: seq<SourceBox>)
    ensures Summed(round, boxes, GeometryOf(round, boxes))
    ensures GeometryOf(round, boxes).Success? <==> Acceptable(boxes)
    ensures GeometryOf(round, boxes).Success? ==> RoundedAll(round, boxes, GeometryOf(round, boxes).value)
    ensures GeometryOf(round, boxes).Failure? ==> exists n: nat :: FirstBad(boxes, n, GeometryOf(round, boxes).error)
  {
    GeometryOfIff(round, boxes);
    GeometryAccepted(round, boxes);
    if Acceptable(boxes) {
      BoxesRounded(round, boxes, GeometryOf(round, boxes).value);
    }
  }

  lemma FiledRounded(round: Rounding, boxes: seq<SourceBox>, geometry: Geometry, i: nat)
    requires Files(round, boxes, geometry) && i < |boxes| && WellMeasured(boxes[i])
    ensures Rounded(round, boxes[i], geometry)
  {
    RoundedBox(round, boxes[i], X);
  }

  lemma FiledFrom(round: Rounding, boxes: seq<SourceBox>, geometry: Geometry, k: Text)
    requires Acceptable(boxes) && Files(round, boxes, geometry) && k in geometry
    ensures exists i :: 0 <= i < |boxes| && PlaceKey(boxes[i]) == k
  {
    assert FiledUnder(round, boxes, k);
    var i :| 0 <= i < |boxes| && NormalizedBox(round, boxes[i]).Success?
      && KeyOf(NormalizedBox(round, boxes[i]).value) == k;
    assert PlaceKey(boxes[i]) == k;
  }

  lemma BoxesRounded(round: Rounding, boxes: seq<SourceBox>, geometry: Geometry)
    requires Acceptable(boxes) && Files(round, boxes, geometry)
    ensures RoundedAll(round, boxes, geometry)
  {
    forall i | 0 <= i < |boxes| ensures Rounded(round, boxes[i], geometry) {
      FiledRounded(round, boxes, geometry, i);
    }
    forall k | k in geometry ensures exists i :: 0 <= i < |boxes| && PlaceKey(boxes[i]) == k {
      FiledFrom(round, boxes, geometry, k);
    }
  }

  /** A difference of the maps is a difference of the boxes. */
  lemma DifferenceIff(round: Rounding, a: seq<SourceBox>, b: seq<SourceBox>, d: Diff)
    requires Acceptable(a) && Acceptable(b) && GeometryOf(round, a).Success? && GeometryOf(round, b).Success?
    ensures IsDifference(GeometryOf(round, a).value, GeometryOf(round, b).value, d) <==> BoxesDiffer(round, a, b, d)
  {
    FiledIff(round, a, d.selector, d.index);
    FiledIff(round, b, d.selector, d.index);
    if !d.field.Presence? {
      forall i, j | 0 <= i < |a| && 0 <= j < |b| && a[i].selector == d.selector == b[j].selector
          && a[i].index == d.index == b[j].index
        ensures IsDifference(GeometryOf(round, a).value, GeometryOf(round, b).value, d) <==>
          MeasuredApart(round, a[i], b[j], d)
      {
        FiledBox(round, a, i, d.field);
        FiledBox(round, b, j, d.field);
      }
    }
  }

  lemma ListedDifferences(round: Rounding, a: seq<SourceBox>, b: seq<SourceBox>, diffs: seq<Diff>)
    requires Acceptable(a) && Acceptable(b) && GeometryOf(round, a).Success? && GeometryOf(round, b).Success?
    requires Lists(GeometryOf(round, a).value, GeometryOf(round, b).value, diffs)
    ensures forall d :: d in diffs <==> BoxesDiffer(round, a, b, d)
  {
    forall d ensures d in diffs <==> BoxesDiffer(round, a, b, d) {
      DifferenceIff(round, a, b, d);
    }
  }

  /** No difference of the boxes is left exactly when they are the same once rounded. */
  lemma SameBoxesIff(round: Rounding, a: seq<SourceBox>, b: seq<SourceBox>, diffs: seq<Diff>)
    requires Acceptable(a) && Acceptable(b) && forall d :: d in diffs <==> BoxesDiffer(round, a, b, d)
    ensures diffs == [] <==> SameBoxes(round, a, b)
  {
    if diffs == [] {
      NoneLeftSame(round, a, b);
    } else {
      var d := diffs[0];
      assert BoxesDiffer(round, a, b, d);
      if SameBoxes(round, a, b) {
        SameLeavesNone(round, a, b, d);
      }
    }
  }

  lemma SameLeavesNone(round: Rounding, a: seq<SourceBox>, b: seq<SourceBox>, d: Diff)
    requires Acceptable(a) && Acceptable(b) && SameBoxes(round, a, b)
    ensures !BoxesDiffer(round, a, b, d)
  {
    if !d.field.Presence? {
      forall i, j | 0 <= i < |a| && 0 <= j < |b| ensures !MeasuredApart(round, a[i], b[j], d) {
        assert WellMeasured(a[i]) && WellMeasured(b[j]);
      }
    }
  }

  lemma NoneLeftSame(round: Rounding, a: seq<SourceBox>, b: seq<SourceBox>)
    requires Acceptable(a) && Acceptable(b) && forall d :: !BoxesDiffer(round, a, b, d)
    ensures SameBoxes(round, a, b)
  {
    forall i | 0 <= i < |a| ensures Has(b, a[i].selector, a[i].index) {
      var d := Diff(a[i].selector, a[i].index, Presence, Present(true), Present(false));
      assert !BoxesDiffer(round, a, b, d);
    }
    forall j | 0 <= j < |b| ensures Has(a, b[j].selector, b[j].index) {
      var d := Diff(b[j].selector, b[j].index, Presence, Present(false), Present(true));
      assert !BoxesDiffer(round, a, b, d);
    }
    forall i, j | 0 <= i < |a| && 0 <= j < |b| && SamePlace(a[i], b[j])
      ensures round(a[i].x.value) == round(b[j].x.value) && round(a[i].y.value) == round(b[j].y.value)
      ensures round(a[i].width.value) == round(b[j].width.value) && round(a[i].height.value) == round(b[j].height.value)
    {
      FieldLeftSame(round, a, b, i, j, X);
      FieldLeftSame(round, a, b, i, j, Y);
      FieldLeftSame(round, a, b, i, j, Width);
      FieldLeftSame(round, a, b, i, j, Height);
    }
  }

  lemma FieldLeftSame(round: Rounding, a: seq<SourceBox>, b: seq<SourceBox>, i: nat, j: nat, f: Field)
    requires Acceptable(a) && Acceptable(b) && forall d :: !BoxesDiffer(round, a, b, d)
    requires i < |a| && j < |b| && SamePlace(a[i], b[j]) && !f.Presence?
    ensures Measured(round, a[i], f) == Measured(round, b[j], f)
  {
    var d := Diff(a[i].selector, a[i].index, f, At(Measured(round, a[i], f)), At(Measured(round, b[j], f)));
    assert !BoxesDiffer(round, a, b, d);
    assert !MeasuredApart(round, a[i], b[j], d);
  }

  /** The difference of two lists of boxes, or the first error in either. */
  method CompareGeometry(round: Rounding, referenceBoxes: seq<SourceBox>, candidateBoxes: seq<SourceBox>)
    returns (r: Result<seq<Diff>, GeometryError>)
    ensures GeometryOf(round, referenceBoxes).Failure? ==> r == Failure(GeometryOf(round, referenceBoxes).error)
    ensures GeometryOf(round, referenceBoxes).Success? && GeometryOf(round, candidateBoxes).Failure? ==>
      r == Failure(GeometryOf(round, candidateBoxes).error)
    ensures GeometryOf(round, referenceBoxes).Success? && GeometryOf(round, candidateBoxes).Success? ==>
      r.Success? && Lists(GeometryOf(round, referenceBoxes).value, GeometryOf(round, candidateBoxes).value, r.value)
    ensures r.Success? <==> Acceptable(referenceBoxes) && Acceptable(candidateBoxes)
    ensures r.Success? ==> forall d :: d in r.value <==> BoxesDiffer(round, referenceBoxes, candidateBoxes, d)
    ensures r.Failure? ==> var bad := if Acceptable(referenceBoxes) then candidateBoxes else referenceBoxes;
      exists n: nat :: FirstBad(bad, n, r.error)
  {
    GeometryAccepted(round, referenceBoxes);
    GeometryAccepted(round, candidateBoxes);
    var referenceResult, referenceKeys := NormalizedGeometryMap(round, referenceBoxes);
    if referenceResult.Failure? {
      return Failure(referenceResult.error);
    }
    var candidateResult, candidateKeys := NormalizedGeometryMap(round, candidateBoxes);
    if candidateResult.Failure? {
      return Failure(candidateResult.error);
    }
    var reference, candidate := referenceResult.value, candidateResult.value;
    GeometryKeyed(round, referenceBoxes);
    GeometryKeyed(round, candidateBoxes);
    var union := UnionKeys(referenceKeys, candidateKeys, reference);
    SortedKeysAscend(reference, candidate, union);
    var keys := Sort((k, l) => KeyBefore(reference, candidate, k, l), union);
    DiffsOfAllKeys(reference, candidate, keys);
    var diffs := CollectDiffs(reference, candidate, keys);
    ListedDifferences(round, referenceBoxes, candidateBoxes, diffs);
    return Success(diffs);
  }

  /** The loop over the sorted keys. */
  method CollectDiffs(reference: Geometry, candidate: Geometry, keys: seq<Text>) returns (diffs: seq<Diff>)
    ensures diffs == DiffsOf(reference, candidate, keys)
  {
    diffs := [];
    var n := 0;
    while n < |keys|
      invariant 0 <= n <= |keys|
      invariant diffs == DiffsOf(reference, candidate, keys[..n])
    {
      assert keys[..n + 1][..n] == keys[..n];
      diffs := diffs + KeyDiffs(reference, candidate, keys[n]);
      n := n + 1;
    }
    assert keys[..n] == keys;
  }

  lemma DiffsOfAllKeys(reference: Geometry, candidate: Geometry, keys: seq<Text>)
    requires Keyed(reference) && Keyed(candidate) && KeysAscend(reference, candidate, keys)
    requires forall k :: k in keys <==> k in reference || k in candidate
    ensures Lists(reference, candidate, DiffsOf(reference, candidate, keys))
  {
    DiffsOfLists(reference, candidate, keys);
  }

  // The verdict

  datatype Selectors = Valid(sorted: seq<Text>) | Invalid

  /** Missing selectors: no empty name, no name twice, sorted. */
  function NormalizedSelectors(selectors: seq<Text>): Selectors {
    if (exists i :: 0 <= i < |selectors| && selectors[i] == [])
       || (exists i, j :: 0 <= i < j < |selectors| && selectors[i] == selectors[j]) then Invalid
    else Valid(Sort(Before, selectors))
  }

  /** No name is empty and none occurs twice. */
  ghost predicate NamesOnce(names: seq<Text>) {
    && (forall i :: 0 <= i < |names| ==> names[i] != [])
    && (forall i, j :: 0 <= i < j < |names| ==> names[i] != names[j])
  }

  /** What `compareVisuals` reports besides the artifacts it writes. */
  datatype Comparison = Comparison(
    differentPixels: nat, pixelCount: nat, geometryDiffs: seq<Diff>,
    missingReference: seq<Text>, missingCandidate: seq<Text>, sameDimensions: bool, matched: bool)

  method CompareVisuals(
    reference: Image, candidate: Image, diff: array<Byte>, round: Rounding,
    referenceBoxes: seq<SourceBox>, candidateBoxes: seq<SourceBox>,
    missingReference: seq<Text>, missingCandidate: seq<Text>)
    returns (r: Option<Comparison>)
    requires ValidImage(reference) && ValidImage(candidate) && diff.Length == |reference.data|
    modifies diff
    ensures r.Some? <==>
      && GeometryOf(round, referenceBoxes).Success? && GeometryOf(round, candidateBoxes).Success?
      && NormalizedSelectors(missingReference).Valid? && NormalizedSelectors(missingCandidate).Valid?
    ensures r.Some? ==>
      && r.value.differentPixels == |Mismatches(reference, candidate)|
      && r.value.pixelCount == |Union(reference, candidate)|
      && Lists(GeometryOf(round, referenceBoxes).value, GeometryOf(round, candidateBoxes).value, r.value.geometryDiffs)
    ensures r.Some? ==>
      (r.value.matched <==>
        && reference == candidate
        && GeometryOf(round, referenceBoxes) == GeometryOf(round, candidateBoxes)
        && missingReference == [] && missingCandidate == [])
    ensures r.Some? <==>
      && Acceptable(referenceBoxes) && Acceptable(candidateBoxes)
      && NamesOnce(missingReference) && NamesOnce(missingCandidate)
    ensures r.Some? ==>
      && (forall d :: d in r.value.geometryDiffs <==> BoxesDiffer(round, referenceBoxes, candidateBoxes, d))
      && (r.value.matched <==>
            && reference == candidate && SameBoxes(round, referenceBoxes, candidateBoxes)
            && missingReference == [] && missingCandidate == [])
    ensures r.Some? ==>
      && multiset(r.value.missingReference) == multiset(missingReference)
      && multiset(r.value.missingCandidate) == multiset(missingCandidate)
      && (r.value.sameDimensions <==> reference.width == candidate.width && reference.height == candidate.height)
  {
    var geometryDiffs := CompareGeometry(round, referenceBoxes, candidateBoxes);
    if geometryDiffs.Failure? {
      return None;
    }
    var absentReference, absentCandidate := NormalizedSelectors(missingReference),
        NormalizedSelectors(missingCandidate);
    if absentReference.Invalid? || absentCandidate.Invalid? {
      return None;
    }
    var sameDimensions := reference.width == candidate.width && reference.height == candidate.height;
    var pixelCount := reference.width * reference.height;
    var differentPixels;
    if sameDimensions {
      differentPixels := MarkRawRgbaDifferences(reference, candidate, diff);
      GridSize(reference.width, reference.height);
      assert Union(reference, candidate) == Grid(reference.width, reference.height);
    } else {
      differentPixels, pixelCount := CountDimensionMismatchDifferences(reference, candidate);
    }
    var matched := !(differentPixels > 0 || |geometryDiffs.value| > 0 || |absentReference.sorted| > 0
                     || |absentCandidate.sorted| > 0 || !sameDimensions);
    NoMismatchIff(reference, candidate);
    GeometryKeyed(round, referenceBoxes);
    GeometryKeyed(round, candidateBoxes);
    EmptyIff(GeometryOf(round, referenceBoxes).value, GeometryOf(round, candidateBoxes).value, geometryDiffs.value);
    SameBoxesIff(round, referenceBoxes, candidateBoxes, geometryDiffs.value);
    return Some(Comparison(differentPixels, pixelCount, geometryDiffs.value, absentReference.sorted,
      absentCandidate.sorted, sameDimensions, matched));
  }
}
