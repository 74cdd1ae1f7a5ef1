/**
 The exact pixel counts of the visual contract: inclusion and exclusion over row-major
 buffers of any two sizes, against the set of positions that really differ.
 */
module ImageDifference {

  type Byte = b: int | 0 <= b < 256

  /** A decoded PNG: four bytes a pixel, row after row. */
  datatype Image = Image(width: nat, height: nat, data: seq<Byte>)

  /** What `decodePng` guarantees. */
  predicate ValidImage(image: Image) {
    image.width > 0 && image.height > 0 && |image.data| == image.width * image.height * 4
  }

  datatype Position = Position(x: int, y: int)

  predicate Inside(image: Image, p: Position) {
    0 <= p.x < image.width && 0 <= p.y < image.height
  }

  function Index(image: Image, p: Position): int {
    p.y * image.width + p.x
  }

  lemma MulStep(q: int, h: int, w: nat)
    requires q < h
    ensures q * w + w <= h * w
  {
    assert (h - q - 1) * w >= 0;
  }

  lemma IndexInRange(image: Image, p: Position)
    requires Inside(image, p)
    ensures 0 <= Index(image, p) < image.width * image.height
  {
    MulStep(p.y, image.height, image.width);
    assert p.y * image.width >= 0;
  }

  /** The four bytes at a position. */
  function Pixel(image: Image, p: Position): (r: seq<Byte>)
    requires ValidImage(image) && Inside(image, p)
    ensures |r| == 4
  {
    IndexInRange(image, p);
    image.data[Index(image, p) * 4..Index(image, p) * 4 + 4]
  }

  /** `rawRgbaDifference` on two buffers. */
  predicate RawDifference(a: seq<Byte>, aOffset: nat, b: seq<Byte>, bOffset: nat)
    requires aOffset + 4 <= |a| && bOffset + 4 <= |b|
  {
    || a[aOffset] != b[bOffset]
    || a[aOffset + 1] != b[bOffset + 1]
    || a[aOffset + 2] != b[bOffset + 2]
    || a[aOffset + 3] != b[bOffset + 3]
  }

  /** A position that one image lacks, or where the two images show different pixels. */
  predicate Mismatched(a: Image, b: Image, p: Position)
    requires ValidImage(a) && ValidImage(b)
  {
    if Inside(a, p) && Inside(b, p) then Pixel(a, p) != Pixel(b, p) else Inside(a, p) || Inside(b, p)
  }

  function Min(a: nat, b: nat): nat {
    if a < b then a else b
  }

  ghost function Grid(width: nat, height: nat): set<Position> {
    set x, y | 0 <= x < width && 0 <= y < height :: Position(x, y)
  }

  /** The positions of either image. */
  ghost function Union(a: Image, b: Image): set<Position> {
    Grid(a.width, a.height) + Grid(b.width, b.height)
  }

  ghost function Mismatches(a: Image, b: Image): set<Position>
    requires ValidImage(a) && ValidImage(b)
  {
    set p | p in Union(a, b) && Mismatched(a, b, p)
  }

  // Cardinalities

  ghost function Row(width: nat, y: int): set<Position> {
    set x | 0 <= x < width :: Position(x, y)
  }

  lemma {:induction false} RowSize(width: nat, y: int)
    ensures |Row(width, y)| == width
  {
    if width > 0 {
      RowSize(width - 1, y);
      assert Row(width, y) == Row(width - 1, y) + {Position(width - 1, y)};
    }
  }

  lemma {:induction false} GridSize(width: nat, height: nat)
    ensures |Grid(width, height)| == width * height
  {
    if height > 0 {
      GridSize(width, height - 1);
      RowSize(width, height - 1);
      GridGrows(width, height);
      DisjointSize(Grid(width, height - 1), Row(width, height - 1));
      MulNext(width, height);
    }
  }

  lemma GridGrows(width: nat, height: nat)
    requires height > 0
    ensures Grid(width, height) == Grid(width, height - 1) + Row(width, height - 1)
    ensures Grid(width, height - 1) !! Row(width, height - 1)
  {
  }

  lemma MulNext(width: nat, height: nat)
    requires height > 0
    ensures width * height == width * (height - 1) + width
  {
  }

  lemma DisjointSize(s: set<Position>, t: set<Position>)
    requires s !! t
    ensures |s + t| == |s| + |t|
  {
  }

  lemma OverlapIsGrid(a: Image, b: Image)
    ensures Grid(a.width, a.height) * Grid(b.width, b.height) == Grid(Min(a.width, b.width), Min(a.height, b.height))
  {
  }

  lemma UnionSize(s: set<Position>, t: set<Position>)
    ensures |s + t| == |s| + |t| - |s * t|
    ensures |(s + t) - (s * t)| == |s| + |t| - 2 * |s * t|
  {
    assert (s + t) == ((s + t) - (s * t)) + (s * t);
  }

  /** The shared positions before row `y`, column `x`, whose pixels differ. */
  ghost function SharedBefore(a: Image, b: Image, y: int, x: int): set<Position>
    requires ValidImage(a) && ValidImage(b)
  {
    set p | p in Grid(Min(a.width, b.width), Min(a.height, b.height))
      && (p.y < y || (p.y == y && p.x < x)) && Mismatched(a, b, p)
  }

  /** Moving one column on takes in one position. */
  lemma RowOrderNext(y: nat, x: nat, p: Position)
    ensures (p.y < y || (p.y == y && p.x < x + 1)) <==> (p.y < y || (p.y == y && p.x < x)) || p == Position(x, y)
  {
  }

  lemma SharedNext(a: Image, b: Image, y: nat, x: nat)
    requires ValidImage(a) && ValidImage(b)
    requires y < Min(a.height, b.height) && x < Min(a.width, b.width)
    ensures |SharedBefore(a, b, y, x + 1)|
         == |SharedBefore(a, b, y, x)| + if Mismatched(a, b, Position(x, y)) then 1 else 0
  {
    var now, next := SharedBefore(a, b, y, x), SharedBefore(a, b, y, x + 1);
    var p := Position(x, y);
    assert p in Grid(Min(a.width, b.width), Min(a.height, b.height)) && p !in now;
    forall q ensures q in next <==> q in now || (q == p && Mismatched(a, b, p)) {
      RowOrderNext(y, x, q);
    }
    OneMore(now, next, p, Mismatched(a, b, p));
  }

  lemma OneMore(now: set<Position>, next: set<Position>, p: Position, more: bool)
    requires p !in now && forall q :: q in next <==> q in now || (q == p && more)
    ensures |next| == |now| + if more then 1 else 0
  {
    assert next == if more then now + {p} else now;
  }

  lemma RowEnd(a: Image, b: Image, y: int)
    requires ValidImage(a) && ValidImage(b)
    ensures SharedBefore(a, b, y, Min(a.width, b.width)) == SharedBefore(a, b, y + 1, 0)
  {
  }

  /** A mismatch is a position of one image only, or a shared position with different pixels. */
  lemma MismatchSets(a: Image, b: Image)
    requires ValidImage(a) && ValidImage(b)
    ensures var s, t, shared := Grid(a.width, a.height), Grid(b.width, b.height), SharedBefore(a, b, Min(a.height,
        b.height), 0);
      Mismatches(a, b) == ((s + t) - (s * t)) + shared && ((s + t) - (s * t)) !! shared
  {
    var s, t, shared := Grid(a.width, a.height), Grid(b.width, b.height), SharedBefore(a, b, Min(a.height,
        b.height), 0);
    OverlapIsGrid(a, b);
    forall p ensures p in Mismatches(a, b) <==> p in (s + t) - (s * t) || p in shared {
      assert p in s <==> Inside(a, p);
      assert p in t <==> Inside(b, p);
    }
  }

  lemma MismatchParts(a: Image, b: Image)
    requires ValidImage(a) && ValidImage(b)
    ensures |Mismatches(a, b)| == a.width * a.height + b.width * b.height
      - 2 * (Min(a.width, b.width) * Min(a.height, b.height)) + |SharedBefore(a, b, Min(a.height, b.height), 0)|
    ensures |Union(a, b)| == a.width * a.height + b.width * b.height - Min(a.width, b.width) * Min(a.height, b.height)
  {
    var s, t := Grid(a.width, a.height), Grid(b.width, b.height);
    GridSize(a.width, a.height);
    GridSize(b.width, b.height);
    GridSize(Min(a.width, b.width), Min(a.height, b.height));
    OverlapIsGrid(a, b);
    UnionSize(s, t);
    MismatchSets(a, b);
    DisjointSize((s + t) - (s * t), SharedBefore(a, b, Min(a.height, b.height), 0));
  }

  lemma RawDifferenceIsPixel(a: Image, b: Image, p: Position)
    requires ValidImage(a) && ValidImage(b) && Inside(a, p) && Inside(b, p)
    ensures 0 <= Index(a, p) * 4 && Index(a, p) * 4 + 4 <= |a.data|
    ensures 0 <= Index(b, p) * 4 && Index(b, p) * 4 + 4 <= |b.data|
    ensures RawDifference(a.data, Index(a, p) * 4, b.data, Index(b, p) * 4) <==> Mismatched(a, b, p)
  {
    IndexInRange(a, p);
    IndexInRange(b, p);
    var i, j := Index(a, p) * 4, Index(b, p) * 4;
    var u, v := Pixel(a, p), Pixel(b, p);
    assert forall k :: 0 <= k < 4 ==> u[k] == a.data[i + k] && v[k] == b.data[j + k];
    if !RawDifference(a.data, i, b.data, j) {
      assert u[0] == v[0] && u[1] == v[1] && u[2] == v[2] && u[3] == v[3];
      assert u == v;
    } else {
      assert u[0] != v[0] || u[1] != v[1] || u[2] != v[2] || u[3] != v[3];
    }
  }

  // The program

  /** `rawRgbaDifference` at a shared position, with the two buffers' own offsets. */
  method DiffersAt(a: Image, b: Image, x: nat, y: nat) returns (r: bool)
    requires ValidImage(a) && ValidImage(b) && Inside(a, Position(x, y)) && Inside(b, Position(x, y))
    ensures r == Mismatched(a, b, Position(x, y))
  {
    RawDifferenceIsPixel(a, b, Position(x, y));
    var aOffset := (y * a.width + x) * 4;
    var bOffset := (y * b.width + x) * 4;
    r := RawDifference(a.data, aOffset, b.data, bOffset);
  }

  /** The two nested loops over the overlap. */
  method AddSharedDifferences(a: Image, b: Image, start: int) returns (different: int)
    requires ValidImage(a) && ValidImage(b)
    ensures different == start + |SharedBefore(a, b, Min(a.height, b.height), 0)|
  {
    var overlapWidth := Min(a.width, b.width);
    var overlapHeight := Min(a.height, b.height);
    different := start;
    assert SharedBefore(a, b, 0, 0) == {};
    var y := 0;
    while y < overlapHeight
      invariant 0 <= y <= overlapHeight
      invariant different == start + |SharedBefore(a, b, y, 0)|
    {
      var x := 0;
      while x < overlapWidth
        invariant 0 <= x <= overlapWidth
        invariant different == start + |SharedBefore(a, b, y, x)|
      {
        SharedNext(a, b, y, x);
        var differs := DiffersAt(a, b, x, y);
        if differs {
          different := different + 1;
        }
        x := x + 1;
      }
      RowEnd(a, b, y);
      y := y + 1;
    }
  }

  method CountDimensionMismatchDifferences(a: Image, b: Image) returns (differentPixels: nat, unionPixelCount: nat)
    requires ValidImage(a) && ValidImage(b)
    ensures differentPixels == |Mismatches(a, b)|
    ensures unionPixelCount == |Union(a, b)|
  {
    var overlapPixels := Min(a.width, b.width) * Min(a.height, b.height);
    var aPixels := a.width * a.height;
    var bPixels := b.width * b.height;
    MismatchParts(a, b);
    unionPixelCount := aPixels + bPixels - overlapPixels;
    differentPixels := AddSharedDifferences(a, b, aPixels + bPixels - overlapPixels * 2);
  }

  /** The positions of the first `n` pixels, in row order, that differ. */
  ghost function Leading(a: Image, b: Image, n: int): set<Position>
    requires ValidImage(a) && ValidImage(b)
  {
    set p | p in Grid(a.width, a.height) && Index(a, p) < n && Mismatched(a, b, p)
  }

  /** The position of the pixel at an index. */
  function PositionOf(image: Image, n: nat): Position
    requires image.width > 0
  {
    Position(n % image.width, n / image.width)
  }

  lemma PositionOfIndex(image: Image, n: nat)
    requires ValidImage(image) && n < image.width * image.height
    ensures Inside(image, PositionOf(image, n)) && Index(image, PositionOf(image, n)) == n
  {
    var q := n / image.width;
    assert n == q * image.width + n % image.width;
    assert q < image.height by {
      assert (q - image.height) * image.width == q * image.width - image.height * image.width;
    }
  }

  lemma IndexInjective(image: Image, p: Position, q: Position)
    requires Inside(image, p) && Inside(image, q) && Index(image, p) == Index(image, q)
    ensures p == q
  {
    if p.y < q.y {
      MulStep(p.y, q.y, image.width);
    } else if q.y < p.y {
      MulStep(q.y, p.y, image.width);
    }
  }

  lemma LeadingNext(a: Image, b: Image, n: nat)
    requires ValidImage(a) && ValidImage(b) && n < a.width * a.height
    ensures |Leading(a, b, n + 1)| == |Leading(a, b, n)| + if Mismatched(a, b, PositionOf(a, n)) then 1 else 0
  {
    PositionOfIndex(a, n);
    var p := PositionOf(a, n);
    assert p in Grid(a.width, a.height) && p !in Leading(a, b, n);
    forall q | q in Grid(a.width, a.height) && Index(a, q) == n ensures q == p {
      IndexInjective(a, p, q);
    }
    OneMore(Leading(a, b, n), Leading(a, b, n + 1), p, Mismatched(a, b, p));
  }

  const RED: seq<Byte> := [255, 0, 0, 255]

  /** The buffer `before` with those of the first `n` pixels in red that differ between the images. */
  function Painted(a: Image, b: Image, before: seq<Byte>, n: nat): (r: seq<Byte>)
    requires |a.data| == |b.data| == |before| && n * 4 <= |before|
    ensures |r| == |before|
  {
    if n == 0 then before
    else
      var k := (n - 1) * 4;
      var done := Painted(a, b, before, n - 1);
      if RawDifference(a.data, k, b.data, k) then done[..k] + RED + done[k + 4..] else done
  }

  lemma RedSlices(done: seq<Byte>, at: nat, k: nat)
    requires at * 4 + 4 <= |done| && k * 4 + 4 <= |done|
    ensures var r := done[..at * 4] + RED + done[at * 4 + 4..];
      r[k * 4..k * 4 + 4] == if k == at then RED else done[k * 4..k * 4 + 4]
  {
    var r := done[..at * 4] + RED + done[at * 4 + 4..];
    if k < at {
      assert r[k * 4..k * 4 + 4] == done[k * 4..k * 4 + 4];
    } else if k == at {
      assert r[k * 4..k * 4 + 4] == RED;
    } else {
      assert forall i :: k * 4 <= i < k * 4 + 4 ==> r[i] == done[i];
    }
  }

  /** A pixel of the painted buffer is red exactly where the images differ, else as it was. */
  lemma {:induction false} PaintedAt(a: Image, b: Image, before: seq<Byte>, n: nat, k: nat)
    requires |a.data| == |b.data| == |before| && n * 4 <= |before| && k * 4 + 4 <= |before|
    ensures Painted(a, b, before, n)[k * 4..k * 4 + 4] ==
      if k < n && RawDifference(a.data, k * 4, b.data, k * 4) then RED else before[k * 4..k * 4 + 4]
  {
    if n > 0 {
      PaintedAt(a, b, before, n - 1, k);
      RedSlices(Painted(a, b, before, n - 1), n - 1, k);
    }
  }

  method PaintPixel(diff: array<Byte>, offset: nat)
    requires offset + 4 <= diff.Length
    modifies diff
    ensures diff[..] == old(diff[..offset]) + RED + old(diff[offset + 4..])
  {
    diff[offset] := 255;
    diff[offset + 1] := 0;
    diff[offset + 2] := 0;
    diff[offset + 3] := 255;
  }

  /** How many of the first `n` four-byte pixels of two buffers differ. */
  ghost function DifferentUpTo(a: seq<Byte>, b: seq<Byte>, n: nat): nat
    requires n * 4 <= |a| && n * 4 <= |b|
  {
    if n == 0 then 0
    else DifferentUpTo(a, b, n - 1) + if RawDifference(a, (n - 1) * 4, b, (n - 1) * 4) then 1 else 0
  }

  lemma {:induction false} DifferentIsLeading(a: Image, b: Image, n: nat, total: nat)
    requires ValidImage(a) && ValidImage(b) && a.width == b.width && a.height == b.height
    requires n <= total == a.width * a.height && |a.data| == |b.data| == total * 4
    ensures DifferentUpTo(a.data, b.data, n) == |Leading(a, b, n)|
  {
    if n == 0 {
      NoneLeading(a, b);
    } else {
      DifferentIsLeading(a, b, n - 1, total);
      DifferentNext(a, b, n - 1, total);
    }
  }

  lemma DifferentNext(a: Image, b: Image, n: nat, total: nat)
    requires ValidImage(a) && ValidImage(b) && a.width == b.width && a.height == b.height
    requires n < total == a.width * a.height && |a.data| == |b.data| == total * 4
    requires DifferentUpTo(a.data, b.data, n) == |Leading(a, b, n)|
    ensures DifferentUpTo(a.data, b.data, n + 1) == |Leading(a, b, n + 1)|
  {
    LeadingNext(a, b, n);
    RawDifferenceAt(a, b, n, total);
  }

  /** The four bytes at an index are the pixel at its position, in both images. */
  lemma RawDifferenceAt(a: Image, b: Image, n: nat, total: nat)
    requires ValidImage(a) && ValidImage(b) && a.width == b.width && a.height == b.height
    requires n < total == a.width * a.height && |a.data| == |b.data| == total * 4
    ensures RawDifference(a.data, n * 4, b.data, n * 4) <==> Mismatched(a, b, PositionOf(a, n))
  {
    PositionOfIndex(a, n);
    RawDifferenceIsPixel(a, b, PositionOf(a, n));
  }

  /** One step of the loop: compare a pixel, and paint it if it differs. */
  method MarkPixel(a: Image, b: Image, diff: array<Byte>, offset: nat, ghost n: nat, ghost before: seq<Byte>)
    returns (differs: bool)
    requires diff.Length == |a.data| == |b.data| == |before| && offset == n * 4 && offset + 4 <= |before|
    requires diff[..] == Painted(a, b, before, n)
    modifies diff
    ensures differs == RawDifference(a.data, offset, b.data, offset)
    ensures diff[..] == Painted(a, b, before, n + 1)
  {
    differs := RawDifference(a.data, offset, b.data, offset);
    if differs {
      PaintPixel(diff, offset);
    }
  }

  /** The loop over the two buffers, four bytes at a time. */
  method MarkPixels(a: Image, b: Image, diff: array<Byte>, ghost total: nat) returns (differentPixels: nat)
    requires diff.Length == |a.data| == |b.data| == total * 4
    modifies diff
    ensures differentPixels == DifferentUpTo(a.data, b.data, total)
    ensures diff[..] == Painted(a, b, old(diff[..]), total)
  {
    differentPixels := 0;
    ghost var before := diff[..];
    ghost var n := 0;
    var offset := 0;
    while offset < |a.data|
      invariant n <= total && offset == n * 4
      invariant differentPixels == DifferentUpTo(a.data, b.data, n)
      invariant diff[..] == Painted(a, b, before, n)
    {
      var differs := MarkPixel(a, b, diff, offset, n, before);
      if differs {
        differentPixels := differentPixels + 1;
      }
      n := n + 1;
      offset := offset + 4;
    }
  }

  /** Counts the differing pixels of two images of one size and paints them red in `diff`. */
  method MarkRawRgbaDifferences(a: Image, b: Image, diff: array<Byte>) returns (differentPixels: nat)
    requires ValidImage(a) && ValidImage(b) && a.width == b.width && a.height == b.height
    requires diff.Length == |a.data|
    modifies diff
    ensures differentPixels == |Mismatches(a, b)|
    ensures diff[..] == Painted(a, b, old(diff[..]), a.width * a.height)
  {
    ghost var total := a.width * a.height;
    DifferentIsLeading(a, b, total, total);
    AllLeading(a, b);
    differentPixels := MarkPixels(a, b, diff, total);
  }

  lemma NoneLeading(a: Image, b: Image)
    requires ValidImage(a) && ValidImage(b)
    ensures Leading(a, b, 0) == {}
  {
    forall p | p in Grid(a.width, a.height) ensures Index(a, p) >= 0 { IndexInRange(a, p); }
  }

  lemma AllLeading(a: Image, b: Image)
    requires ValidImage(a) && ValidImage(b) && a.width == b.width && a.height == b.height
    ensures Leading(a, b, a.width * a.height) == Mismatches(a, b)
  {
    forall p | p in Grid(a.width, a.height) ensures Index(a, p) < a.width * a.height {
      IndexInRange(a, p);
    }
  }

  // What the counts mean

  /** The count does not depend on which image comes first. */
  lemma MismatchesSymmetric(a: Image, b: Image)
    requires ValidImage(a) && ValidImage(b)
    ensures Mismatches(a, b) == Mismatches(b, a) && Union(a, b) == Union(b, a)
  {
  }

  lemma SubsetSize(s: set<Position>, t: set<Position>)
    requires s <= t
    ensures |s| <= |t|
  {
    assert t == s + (t - s);
  }

  /** The count never exceeds the union, and is positive when the sizes differ. */
  lemma MismatchBounds(a: Image, b: Image)
    requires ValidImage(a) && ValidImage(b)
    ensures |Mismatches(a, b)| <= |Union(a, b)|
    ensures (a.width != b.width || a.height != b.height) ==> |Mismatches(a, b)| > 0
  {
    SubsetSize(Mismatches(a, b), Union(a, b));
    if a.width != b.width || a.height != b.height {
      var p :=
        if a.width < b.width then Position(a.width, 0)
        else if b.width < a.width then Position(b.width, 0)
        else if a.height < b.height then Position(0, a.height)
        else Position(0, b.height);
      assert p in Mismatches(a, b);
    }
  }

  /** No mismatch means the two images are one and the same. */
  lemma NoMismatchIff(a: Image, b: Image)
    requires ValidImage(a) && ValidImage(b)
    ensures |Mismatches(a, b)| == 0 <==> a == b
  {
    MismatchBounds(a, b);
    if |Mismatches(a, b)| == 0 {
      forall i | 0 <= i < |a.data| ensures a.data[i] == b.data[i] {
        var n := i / 4;
        PositionOfIndex(a, n);
        var p := PositionOf(a, n);
        assert p in Union(a, b);
        assert p !in Mismatches(a, b);
        assert Pixel(a, p)[i - n * 4] == Pixel(b, p)[i - n * 4];
      }
      assert a.data == b.data;
    }
  }
}
