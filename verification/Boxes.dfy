/** Axis-aligned boxes and their intersection over union. */
module Boxes {
  import opened Reals

  datatype Box = Box(xMax: real, xMin: real, yMax: real, yMin: real)

  // One pixel is added to every side length.
  const BOUNDARY: real := 1.0

  function Width(b: Box): real { b.xMax - b.xMin + BOUNDARY }

  function Height(b: Box): real { b.yMax - b.yMin + BOUNDARY }

  function Area(b: Box): real { Width(b) * Height(b) }

  function OverlapX(a: Box, b: Box): real {
    Max(0.0, Min(a.xMax, b.xMax) - Max(a.xMin, b.xMin) + BOUNDARY)
  }

  function OverlapY(a: Box, b: Box): real {
    Max(0.0, Min(a.yMax, b.yMax) - Max(a.yMin, b.yMin) + BOUNDARY)
  }

  function Intersection(a: Box, b: Box): real { OverlapX(a, b) * OverlapY(a, b) }

  /** The overlap score of two areas with `common` between them. */
  function Share(common: real, a: real, b: real): real {
    var union := a + b - common;
    if union > 0.0 then common / union else 0.0
  }

  function Iou(a: Box, b: Box): real {
    Share(Intersection(a, b), Area(a), Area(b))
  }

  predicate Proper(b: Box) { Width(b) > 0.0 && Height(b) > 0.0 }

  lemma ShareSymmetric(common: real, a: real, b: real)
    ensures Share(common, a, b) == Share(common, b, a)
  {
    assert a + b - common == b + a - common;
  }

  lemma IouSymmetric(a: Box, b: Box)
    ensures Iou(a, b) == Iou(b, a)
  {
    assert OverlapX(a, b) == OverlapX(b, a);
    assert OverlapY(a, b) == OverlapY(b, a);
    ShareSymmetric(Intersection(a, b), Area(a), Area(b));
  }

  lemma DegenerateOverlap(a: Box, b: Box)
    requires !Proper(a) || !Proper(b)
    ensures Intersection(a, b) == 0.0
  {
    assert OverlapX(a, b) == 0.0 || OverlapY(a, b) == 0.0;
  }

  lemma ProperOverlap(a: Box, b: Box)
    requires Proper(a) && Proper(b)
    ensures 0.0 <= Intersection(a, b) <= Area(a)
    ensures Intersection(a, b) <= Area(b)
  {
    ProductMonotone(OverlapX(a, b), OverlapY(a, b), Width(a), Height(a));
    ProductMonotone(OverlapX(a, b), OverlapY(a, b), Width(b), Height(b));
  }

  lemma FullOverlap(a: Box, b: Box)
    requires Proper(a) && Proper(b) && Intersection(a, b) == Area(a)
    ensures OverlapX(a, b) >= Width(a) && OverlapY(a, b) >= Height(a)
  {
    if OverlapX(a, b) < Width(a) || OverlapY(a, b) < Height(a) {
      ProductStrict(OverlapX(a, b), OverlapY(a, b), Width(a), Height(a));
    }
  }

  lemma MutualOverlap(a: Box, b: Box)
    requires Proper(a) && Proper(b) && Intersection(a, b) == Area(a) && Intersection(a, b) == Area(b)
    ensures a == b
  {
    FullOverlap(a, b);
    FullOverlap(b, a);
  }

  lemma ShareRange(common: real, a: real, b: real)
    requires 0.0 <= common <= a && common <= b
    ensures 0.0 <= Share(common, a, b) <= 1.0
    ensures Share(common, a, b) == 1.0 <==> common == a && common == b && 0.0 < a
  {
    var union := a + b - common;
    if union > 0.0 { QuotientRange(common, union); }
  }

  lemma NothingShared(a: real, b: real)
    ensures Share(0.0, a, b) == 0.0
  {
    if a + b > 0.0 { QuotientRange(0.0, a + b); }
  }

  /** Every pair of boxes, degenerate ones included, scores within [0, 1]. */
  lemma IouRange(a: Box, b: Box)
    ensures 0.0 <= Iou(a, b) <= 1.0
  {
    if Proper(a) && Proper(b) {
      ProperOverlap(a, b);
      ShareRange(Intersection(a, b), Area(a), Area(b));
    } else {
      DegenerateOverlap(a, b);
      NothingShared(Area(a), Area(b));
    }
  }

  /** A full score means one and the same box, with positive extended sides. */
  lemma IouOneExactly(a: Box, b: Box)
    ensures Iou(a, b) == 1.0 <==> a == b && Proper(a)
  {
    if Proper(a) && Proper(b) {
      ProperOverlap(a, b);
      ProductStrict(0.0, 0.0, Width(a), Height(a));
      ShareRange(Intersection(a, b), Area(a), Area(b));
      if Intersection(a, b) == Area(a) && Intersection(a, b) == Area(b) {
        MutualOverlap(a, b);
      }
      if a == b {
        assert Intersection(a, b) == Area(a);
      }
    } else {
      DegenerateOverlap(a, b);
      NothingShared(Area(a), Area(b));
    }
  }
}
