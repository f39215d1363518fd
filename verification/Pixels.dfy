/** What the overlap score of two boxes measures: shared pixels over covered pixels. */
module Pixels {
  import opened Boxes
  import opened Reals

  // ----------------------------------------------------------- Real extents

  /** From `lo` to `hi` lies within the pixels from `min` to `max`, the last one included whole. */
  predicate Within(lo: real, hi: real, min: real, max: real) {
    min <= lo <= hi <= max + 1.0
  }

  /** `length` is the length of the largest interval within both extents, and 0 without any. */
  ghost predicate LargestCommon(aMin: real, aMax: real, bMin: real, bMax: real, length: real) {
    && (forall lo: real, hi: real :: Within(lo, hi, aMin, aMax) && Within(lo, hi, bMin, bMax) ==> hi - lo <= length)
    && (length == 0.0
        || exists lo: real, hi: real :: Within(lo, hi, aMin, aMax) && Within(lo, hi, bMin, bMax) && hi - lo == length)
    && length >= 0.0
  }

  lemma LargestIs(aMin: real, aMax: real, bMin: real, bMax: real)
    ensures LargestCommon(aMin, aMax, bMin, bMax, Max(0.0, Min(aMax, bMax) - Max(aMin, bMin) + 1.0))
  {
    var lo, hi := Max(aMin, bMin), Min(aMax, bMax) + 1.0;
    if hi > lo {
      assert Within(lo, hi, aMin, aMax) && Within(lo, hi, bMin, bMax);
    }
  }

  /** For all boxes, inverted ones included, each overlap is the largest common interval. */
  lemma OverlapsAreLargest(a: Box, b: Box)
    ensures LargestCommon(a.xMin, a.xMax, b.xMin, b.xMax, OverlapX(a, b))
    ensures LargestCommon(a.yMin, a.yMax, b.yMin, b.yMax, OverlapY(a, b))
  {
    LargestIs(a.xMin, a.xMax, b.xMin, b.xMax);
    LargestIs(a.yMin, a.yMax, b.yMin, b.yMax);
  }

  // ------------------------------------------------------------ Pixel sets

  /** The corners of a box on the pixel grid. */
  datatype Corners = Corners(xMax: int, xMin: int, yMax: int, yMin: int)

  function BoxOf(c: Corners): Box {
    Box(c.xMax as real, c.xMin as real, c.yMax as real, c.yMin as real)
  }

  /** The pixels of a box, the corners included. */
  ghost function PixelsOf(c: Corners): set<(int, int)> {
    set x: int, y: int | c.xMin <= x <= c.xMax && c.yMin <= y <= c.yMax :: (x, y)
  }

  ghost function Column(x: int, lo: int, hi: int): set<(int, int)> {
    set y | lo <= y <= hi :: (x, y)
  }

  /** How many whole numbers lie from `lo` to `hi`. */
  function Count(lo: int, hi: int): nat { if lo <= hi then hi - lo + 1 else 0 }

  lemma {:induction false} ColumnSize(x: int, lo: int, hi: int)
    ensures |Column(x, lo, hi)| == Count(lo, hi)
    decreases hi - lo
  {
    if lo > hi {
      assert Column(x, lo, hi) == {};
    } else {
      ColumnSize(x, lo, hi - 1);
      assert Column(x, lo, hi) == Column(x, lo, hi - 1) + {(x, hi)};
    }
  }

  lemma {:induction false} PixelCount(c: Corners)
    ensures |PixelsOf(c)| == Count(c.xMin, c.xMax) * Count(c.yMin, c.yMax)
    decreases c.xMax - c.xMin
  {
    if c.xMin > c.xMax {
      assert PixelsOf(c) == {};
    } else {
      var narrower := c.(xMax := c.xMax - 1);
      var last := Column(c.xMax, c.yMin, c.yMax);
      PixelCount(narrower);
      ColumnSize(c.xMax, c.yMin, c.yMax);
      assert PixelsOf(c) == PixelsOf(narrower) + last;
      assert PixelsOf(narrower) !! last;
      OneMoreColumn(Count(narrower.xMin, narrower.xMax), Count(c.yMin, c.yMax));
    }
  }

  lemma OneMoreColumn(columns: nat, rows: nat)
    ensures (columns + 1) * rows == columns * rows + rows
  {
  }

  /** The corners of what two boxes share. */
  function Shared(a: Corners, b: Corners): Corners {
    Corners(if a.xMax < b.xMax then a.xMax else b.xMax, if a.xMin < b.xMin then b.xMin else a.xMin,
            if a.yMax < b.yMax then a.yMax else b.yMax, if a.yMin < b.yMin then b.yMin else a.yMin)
  }

  lemma SharedPixels(a: Corners, b: Corners)
    ensures PixelsOf(a) * PixelsOf(b) == PixelsOf(Shared(a, b))
  {
  }

  lemma UnionSize(a: set<(int, int)>, b: set<(int, int)>)
    ensures |a + b| == |a| + |b| - |a * b|
  {
  }

  lemma OverlapCounts(a: Corners, b: Corners)
    ensures OverlapX(BoxOf(a), BoxOf(b)) == Count(Shared(a, b).xMin, Shared(a, b).xMax) as real
    ensures OverlapY(BoxOf(a), BoxOf(b)) == Count(Shared(a, b).yMin, Shared(a, b).yMax) as real
  {
  }

  lemma ProductOfCounts(m: nat, n: nat)
    ensures (m * n) as real == m as real * n as real
  {
  }

  lemma ProductOf(x: real, y: real, m: nat, n: nat)
    requires x == m as real && y == n as real
    ensures x * y == (m * n) as real
  {
    ProductOfCounts(m, n);
  }

  lemma IntersectionCount(p: Box, q: Box, m: nat, n: nat)
    requires OverlapX(p, q) == m as real && OverlapY(p, q) == n as real
    ensures Intersection(p, q) == (m * n) as real
  {
    ProductOf(OverlapX(p, q), OverlapY(p, q), m, n);
  }

  lemma SharedCount(a: Corners, b: Corners)
    ensures Intersection(BoxOf(a), BoxOf(b)) == |PixelsOf(a) * PixelsOf(b)| as real
  {
    var c, p, q := Shared(a, b), BoxOf(a), BoxOf(b);
    OverlapCounts(a, b);
    IntersectionCount(p, q, Count(c.xMin, c.xMax), Count(c.yMin, c.yMax));
    SharedPixelCount(a, b);
  }

  lemma SharedPixelCount(a: Corners, b: Corners)
    ensures |PixelsOf(a) * PixelsOf(b)| == Count(Shared(a, b).xMin, Shared(a, b).xMax) * Count(Shared(a, b).yMin, Shared(a, b).yMax)
  {
    SharedPixels(a, b);
    PixelCount(Shared(a, b));
  }

  lemma AreaCount(c: Corners)
    requires c.xMin <= c.xMax && c.yMin <= c.yMax
    ensures Area(BoxOf(c)) == |PixelsOf(c)| as real > 0.0
  {
    PixelCount(c);
    assert Width(BoxOf(c)) == Count(c.xMin, c.xMax) as real && Height(BoxOf(c)) == Count(c.yMin, c.yMax) as real;
    ProductOfCounts(Count(c.xMin, c.xMax), Count(c.yMin, c.yMax));
    ProductStrict(0.0, 0.0, Width(BoxOf(c)), Height(BoxOf(c)));
  }

  lemma NoPixels(c: Corners)
    requires c.xMin > c.xMax || c.yMin > c.yMax
    ensures PixelsOf(c) == {}
  {
  }

  /** For boxes on the pixel grid the score is the number of pixels in both boxes over the number
      of pixels in either, and 0 when either box is empty. */
  lemma IouCountsPixels(a: Corners, b: Corners)
    ensures PixelsOf(a) == {} || PixelsOf(b) == {} ==> Iou(BoxOf(a), BoxOf(b)) == 0.0
    ensures PixelsOf(a) != {} && PixelsOf(b) != {} ==> |PixelsOf(a) + PixelsOf(b)| > 0
    ensures PixelsOf(a) != {} && PixelsOf(b) != {} ==>
      Iou(BoxOf(a), BoxOf(b)) == |PixelsOf(a) * PixelsOf(b)| as real / |PixelsOf(a) + PixelsOf(b)| as real
  {
    if a.xMin <= a.xMax && a.yMin <= a.yMax && b.xMin <= b.xMax && b.yMin <= b.yMax {
      ProperScore(a, b);
    } else {
      if !(a.xMin <= a.xMax && a.yMin <= a.yMax) { NoPixels(a); } else { NoPixels(b); }
      SharedCount(a, b);
      NothingShared(Area(BoxOf(a)), Area(BoxOf(b)));
    }
  }

  lemma ProperScore(a: Corners, b: Corners)
    requires a.xMin <= a.xMax && a.yMin <= a.yMax && b.xMin <= b.xMax && b.yMin <= b.yMax
    ensures PixelsOf(a) != {} && PixelsOf(b) != {} && |PixelsOf(a) + PixelsOf(b)| > 0
    ensures Iou(BoxOf(a), BoxOf(b)) == |PixelsOf(a) * PixelsOf(b)| as real / |PixelsOf(a) + PixelsOf(b)| as real
  {
    assert (a.xMin, a.yMin) in PixelsOf(a) && (b.xMin, b.yMin) in PixelsOf(b);
    assert (a.xMin, a.yMin) in PixelsOf(a) + PixelsOf(b);
    AreaCount(a);
    AreaCount(b);
    SharedCount(a, b);
    UnionSize(PixelsOf(a), PixelsOf(b));
    ShareOfCounts(|PixelsOf(a) * PixelsOf(b)|, |PixelsOf(a)|, |PixelsOf(b)|, |PixelsOf(a) + PixelsOf(b)|);
  }

  lemma ShareOfCounts(common: nat, a: nat, b: nat, union: nat)
    requires union == a + b - common && union > 0
    ensures Share(common as real, a as real, b as real) == common as real / union as real
  {
    assert union as real == a as real + b as real - common as real;
  }
}
