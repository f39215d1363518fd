/** Padding an image to a square before inference, and taking the padding out of the predicted
    boxes afterwards. Resizing is a linear map of continuous coordinates. */
module Letterbox {
  import opened Reals

  datatype Size = Size(w: nat, h: nat)

  /** A box by its centre and extent, in pixels. */
  datatype Region = Region(cx: real, cy: real, w: real, h: real)

  datatype Bounds = Bounds(xMax: real, xMin: real, yMax: real, yMin: real)

  datatype Padding = Padding(top: nat, bottom: nat, left: nat, right: nat)

  predicate NonEmpty(s: Size) { s.w > 0 && s.h > 0 }

  function LongSide(s: Size): nat { if s.w < s.h then s.h else s.w }

  // ---------------------------------------------------------------- Reader

  function PaddingOf(image: Size): Padding {
    var side := LongSide(image);
    Padding((side - image.h) / 2, (side - image.h + 1) / 2, (side - image.w) / 2, (side - image.w + 1) / 2)
  }

  /** The padded image is square, and the two borders of a dimension differ by at most one pixel. */
  lemma PaddedIsSquare(image: Size)
    ensures var p := PaddingOf(image);
      && p.left + image.w + p.right == p.top + image.h + p.bottom == LongSide(image)
      && 0 <= p.right - p.left <= 1 && 0 <= p.bottom - p.top <= 1
  {
  }

  function Scaled(r: Region, sx: real, sy: real): Region {
    Region(r.cx * sx, r.cy * sy, r.w * sx, r.h * sy)
  }

  function Offset(r: Region, dx: real, dy: real): Region {
    r.(cx := r.cx + dx, cy := r.cy + dy)
  }

  /** An affine map of both axes. */
  datatype Fit = Fit(scaleX: real, scaleY: real, padX: real, padY: real)

  /** Pad, in image pixels, then resize. */
  function ReaderFit(image: Size, model: Size): Fit
    requires NonEmpty(image)
  {
    var (p, side) := (PaddingOf(image), LongSide(image) as real);
    Fit(model.w as real / side, model.h as real / side, p.left as real, p.top as real)
  }

  /** Where a region of the image lies in the model's input after pad and resize. */
  function PadResized(r: Region, f: Fit): Region {
    Scaled(Offset(r, f.padX, f.padY), f.scaleX, f.scaleY)
  }

  /** The same for a plain resize. */
  function Resized(r: Region, image: Size, model: Size): Region
    requires NonEmpty(image)
  {
    Scaled(r, model.w as real / image.w as real, model.h as real / image.h as real)
  }

  /** The reader lays the padded square over the whole of the model's input. */
  lemma SquareFillsModel(image: Size, model: Size)
    requires NonEmpty(image)
    ensures var (p, side) := (PaddingOf(image), LongSide(image) as real);
      var square := Region(side / 2.0 - p.left as real, side / 2.0 - p.top as real, side, side);
      PadResized(square, ReaderFit(image, model)) ==
        Region(model.w as real / 2.0, model.h as real / 2.0, model.w as real, model.h as real)
  {
    HalfAndWhole(LongSide(image) as real, model.w as real);
    HalfAndWhole(LongSide(image) as real, model.h as real);
  }

  /** A plain resize lays the image over the whole of the model's input. */
  lemma ImageFillsModel(image: Size, model: Size)
    requires NonEmpty(image)
    ensures Resized(Region(image.w as real / 2.0, image.h as real / 2.0, image.w as real, image.h as real), image, model) ==
      Region(model.w as real / 2.0, model.h as real / 2.0, model.w as real, model.h as real)
  {
    HalfAndWhole(image.w as real, model.w as real);
    HalfAndWhole(image.h as real, model.h as real);
  }

  lemma HalfAndWhole(a: real, m: real)
    requires a > 0.0
    ensures a * (m / a) == m && (a / 2.0) * (m / a) == m / 2.0
  {
    var f := m / a;
    assert f * a == m;
    assert (a / 2.0) * f == (a * f) / 2.0;
  }

  // --------------------------------------------------------------- Inverse

  function BoundsOf(r: Region): Bounds {
    Bounds(r.cx + r.w / 2.0, r.cx - r.w / 2.0, r.cy + r.h / 2.0, r.cy - r.h / 2.0)
  }

  /** The bounds enclose the region: its extent between them, its centre halfway. */
  lemma BoundsEnclose(r: Region)
    ensures var b := BoundsOf(r);
      && b.xMax - b.xMin == r.w && b.yMax - b.yMin == r.h
      && b.xMin + b.xMax == 2.0 * r.cx && b.yMin + b.yMax == 2.0 * r.cy
  {
  }

  function InverseScale(image: Size, model: Size): (scale: real)
    requires NonEmpty(image) && NonEmpty(model)
    ensures scale > 0.0
  {
    Min(model.w as real / image.w as real, model.h as real / image.h as real)
  }

  function Centred(image: Size, model: Size, scale: real): Fit {
    Fit(scale, scale, (model.w as real - image.w as real * scale) / 2.0, (model.h as real - image.h as real * scale) / 2.0)
  }

  /** The scale and the padding, in model pixels, that the postprocessing works out for itself. */
  function InverseFit(image: Size, model: Size): (f: Fit)
    requires NonEmpty(image) && NonEmpty(model)
    ensures f.scaleX == f.scaleY > 0.0
  {
    Centred(image, model, InverseScale(image, model))
  }

  /** Takes the padding out again, then the scale. */
  function Unpadded(r: Region, f: Fit): Region
    requires f.scaleX != 0.0 && f.scaleY != 0.0
  {
    Region((r.cx - f.padX) / f.scaleX, (r.cy - f.padY) / f.scaleY, r.w / f.scaleX, r.h / f.scaleY)
  }

  /** YOLOv8: the head already gives model pixels. */
  function BoundsV8(r: Region, image: Size, model: Size, padded: bool): Bounds
    requires NonEmpty(image) && NonEmpty(model)
  {
    if padded then BoundsOf(Unpadded(r, InverseFit(image, model)))
    else BoundsOf(Scaled(r, image.w as real / model.w as real, image.h as real / model.h as real))
  }

  /** What the YOLOv3 head says about a box: its cell, the offsets within the cell after the
      activation, and the exponentiated extents relative to an anchor. */
  datatype Cell = Cell(x: nat, y: nat, grid: nat, offsetX: real, offsetY: real,
                       expW: real, expH: real, anchorW: real, anchorH: real)

  /** The box relative to the model's input. */
  function Relative(c: Cell, model: Size): Region
    requires c.grid > 0 && NonEmpty(model)
  {
    Region((c.offsetX + c.x as real) / c.grid as real, (c.offsetY + c.y as real) / c.grid as real,
           c.expW * c.anchorW / model.w as real, c.expH * c.anchorH / model.h as real)
  }

  function BoundsV3(c: Cell, image: Size, model: Size, padded: bool): Bounds
    requires c.grid > 0 && NonEmpty(image) && NonEmpty(model)
  {
    var r := Relative(c, model);
    if padded then
      BoundsOf(Unpadded(Scaled(r, model.w as real, model.h as real), InverseFit(image, model)))
    else
      var (ox, oy) := (image.w as real, image.h as real);
      Bounds(ox * (r.cx + r.w / 2.0), ox * (r.cx - r.w / 2.0), oy * (r.cy + r.h / 2.0), oy * (r.cy - r.h / 2.0))
  }

  // --------------------------------------------------------------- Results

  /** How far the centre moves: half a pixel towards the origin where the padding is odd. */
  function Shift(side: nat, extent: nat): real
    requires extent <= side
  {
    if (side - extent) % 2 == 0 then 0.0 else -0.5
  }

  lemma HalvedPadding(side: nat, extent: nat)
    requires extent <= side
    ensures ((side - extent) / 2) as real - (side as real - extent as real) / 2.0 == Shift(side, extent)
  {
    var d := side - extent;
    assert d == 2 * (d / 2) + d % 2;
    assert d as real == side as real - extent as real;
  }

  lemma DivideOut(q: real, s: real)
    requires s != 0.0
    ensures (q * s) / s == q
  {
  }

  lemma CentreBack(c: real, pad: real, taken: real, d: real, s: real)
    requires s != 0.0 && pad * s - taken == d * s
    ensures ((c + pad) * s - taken) / s == c + d
  {
    assert (c + d) * s == (c + pad) * s - taken;
    DivideOut(c + d, s);
  }

  lemma QuotientTimes(a: real, b: real)
    requires b != 0.0
    ensures a == b * (a / b)
  {
  }

  lemma MinOfQuotients(m: real, a: real, b: real)
    requires m > 0.0 && a > 0.0 && b > 0.0
    ensures Min(m / a, m / b) == m / (if a < b then b else a)
  {
    if a < b {
      DivideLarger(m, a, b);
    } else if b < a {
      DivideLarger(m, b, a);
    }
  }

  /** A square model is scaled by the long side of the image in both directions. */
  lemma SquareScale(image: Size, m: nat)
    requires NonEmpty(image) && m > 0
    ensures InverseScale(image, Size(m, m)) == m as real / LongSide(image) as real
    ensures m as real == LongSide(image) as real * InverseScale(image, Size(m, m))
  {
    MinOfQuotients(m as real, image.w as real, image.h as real);
    QuotientTimes(m as real, LongSide(image) as real);
  }

  lemma PaddingTaken(side: nat, extent: nat, m: real, s: real)
    requires extent <= side && m == side as real * s
    ensures ((side - extent) / 2) as real * s - (m - extent as real * s) / 2.0 == Shift(side, extent) * s
  {
    HalvedPadding(side, extent);
    var pad, d := ((side - extent) / 2) as real, Shift(side, extent);
    var half := (side as real - extent as real) / 2.0;
    assert half * s == (m - extent as real * s) / 2.0;
    assert (pad - half) * s == pad * s - half * s;
  }

  /** `g` takes out what `f` put in, but for the given moves. */
  predicate Undoes(f: Fit, g: Fit, dx: real, dy: real) {
    && f.scaleX == g.scaleX != 0.0 && f.scaleY == g.scaleY != 0.0
    && f.padX * g.scaleX - g.padX == dx * g.scaleX && f.padY * g.scaleY - g.padY == dy * g.scaleY
  }

  lemma CentredUndoes(image: Size, m: nat, s: real)
    requires s != 0.0 && m as real == LongSide(image) as real * s
    ensures var (p, side) := (PaddingOf(image), LongSide(image));
      Undoes(Fit(s, s, p.left as real, p.top as real), Centred(image, Size(m, m), s),
             Shift(side, image.w), Shift(side, image.h))
  {
    PaddingTaken(LongSide(image), image.w, m as real, s);
    PaddingTaken(LongSide(image), image.h, m as real, s);
  }

  /** For a square model the postprocessing takes the reader's scale, and its padding but for the
      odd half pixel. */
  lemma FitsAgree(image: Size, m: nat)
    requires NonEmpty(image) && m > 0
    ensures var (model, side) := (Size(m, m), LongSide(image));
      Undoes(ReaderFit(image, model), InverseFit(image, model), Shift(side, image.w), Shift(side, image.h))
  {
    SquareScale(image, m);
    CentredUndoes(image, m, InverseScale(image, Size(m, m)));
  }

  lemma UndoMoves(r: Region, f: Fit, g: Fit, dx: real, dy: real)
    requires Undoes(f, g, dx, dy)
    ensures Unpadded(PadResized(r, f), g) == Offset(r, dx, dy)
  {
    CentreBack(r.cx, f.padX, g.padX, dx, g.scaleX);
    CentreBack(r.cy, f.padY, g.padY, dy, g.scaleY);
    DivideOut(r.w, g.scaleX);
    DivideOut(r.h, g.scaleY);
  }

  /** With a square model input the extents come back exactly, and the centre up to the half
      pixel that the reader's halved padding drops. */
  lemma SquareRecovered(r: Region, image: Size, m: nat)
    requires NonEmpty(image) && m > 0
    ensures var (model, side) := (Size(m, m), LongSide(image));
      Unpadded(PadResized(r, ReaderFit(image, model)), InverseFit(image, model)) ==
        Offset(r, Shift(side, image.w), Shift(side, image.h))
  {
    FitsAgree(image, m);
    UndoMoves(r, ReaderFit(image, Size(m, m)), InverseFit(image, Size(m, m)),
              Shift(LongSide(image), image.w), Shift(LongSide(image), image.h));
  }

  lemma ExtentsFix(r: Region, f: Fit, g: Fit)
    requires r.w != 0.0 && r.h != 0.0 && g.scaleX != 0.0 && g.scaleY != 0.0
    ensures var back := Unpadded(PadResized(r, f), g);
      back.w == r.w && back.h == r.h <==> f.scaleX == g.scaleX && f.scaleY == g.scaleY
  {
    SameFactor(r.w, f.scaleX, g.scaleX);
    SameFactor(r.h, f.scaleY, g.scaleY);
  }

  /** Exactly the square model inputs give the extents back. */
  lemma ExtentsRecoveredExactly(r: Region, image: Size, model: Size)
    requires NonEmpty(image) && NonEmpty(model) && r.w != 0.0 && r.h != 0.0
    ensures var back := Unpadded(PadResized(r, ReaderFit(image, model)), InverseFit(image, model));
      back.w == r.w && back.h == r.h <==> model.w == model.h
  {
    ExtentsFix(r, ReaderFit(image, model), InverseFit(image, model));
    if model.w == model.h {
      FitsAgree(image, model.w);
    } else {
      DifferentRatio(model.w, model.h, LongSide(image) as real);
    }
  }

  lemma DifferentRatio(a: nat, b: nat, d: real)
    requires d != 0.0 && a != b
    ensures a as real / d != b as real / d
  {
    var x, y := a as real / d, b as real / d;
    assert x * d == a as real && y * d == b as real;
  }

  lemma SameFactor(x: real, f: real, s: real)
    requires x != 0.0 && s != 0.0
    ensures (x * f) / s == x <==> f == s
  {
    if (x * f) / s == x {
      assert x * f == x * s;
      assert x * (f - s) == 0.0;
    }
    DivideOut(x, s);
  }

  function Moved(b: Bounds, dx: real, dy: real): Bounds {
    Bounds(b.xMax + dx, b.xMin + dx, b.yMax + dy, b.yMin + dy)
  }

  /** YOLOv8, padded: the box comes back moved by at most half a pixel, unmoved exactly when the
      padding is even. */
  lemma PaddedV8(r: Region, image: Size, m: nat)
    requires NonEmpty(image) && m > 0
    ensures var model, side := Size(m, m), LongSide(image);
      var back := BoundsV8(PadResized(r, ReaderFit(image, model)), image, model, true);
      && back == Moved(BoundsOf(r), Shift(side, image.w), Shift(side, image.h))
      && -0.5 <= Shift(side, image.w) <= 0.0 && -0.5 <= Shift(side, image.h) <= 0.0
      && (back == BoundsOf(r) <==> (side - image.w) % 2 == 0 && (side - image.h) % 2 == 0)
  {
    SquareRecovered(r, image, m);
  }

  /** YOLOv8, resized: the box comes back exactly, for every model size. */
  lemma ResizedV8(r: Region, image: Size, model: Size)
    requires NonEmpty(image) && NonEmpty(model)
    ensures BoundsV8(Resized(r, image, model), image, model, false) == BoundsOf(r)
  {
    ThereAndBack(r.cx, image.w as real, model.w as real);
    ThereAndBack(r.w, image.w as real, model.w as real);
    ThereAndBack(r.cy, image.h as real, model.h as real);
    ThereAndBack(r.h, image.h as real, model.h as real);
  }

  lemma ThereAndBack(x: real, a: real, b: real)
    requires a > 0.0 && b > 0.0
    ensures (x * (b / a)) * (a / b) == x
  {
    assert (b / a) * (a / b) == 1.0 by {
      var f := b / a;
      assert f * a == b;
      DivideOut(a / b, f);
      assert f * (a / b) == (f * a) / b;
    }
    assert (x * (b / a)) * (a / b) == x * ((b / a) * (a / b));
  }

  /** The YOLOv3 head describes the region `r` of the model's input. */
  predicate Describes(c: Cell, model: Size, r: Region) {
    && c.grid > 0
    && (c.offsetX + c.x as real) * model.w as real == r.cx * c.grid as real
    && (c.offsetY + c.y as real) * model.h as real == r.cy * c.grid as real
    && c.expW * c.anchorW == r.w && c.expH * c.anchorH == r.h
  }

  lemma SameRatio(a: real, b: real, c: real, d: real)
    requires b > 0.0 && d > 0.0 && a * d == c * b
    ensures a / b == c / d
  {
    DivideOut(a, d);
    assert (a / b) * b == a;
    DivideOut(c / d, b);
    assert (c / d) * b * d == c * b;
  }

  lemma RatioTimes(o: real, x: real, m: real)
    requires m > 0.0
    ensures x * (o / m) == o * (x / m)
    ensures (x / m) * m == x
  {
    var f, g := o / m, x / m;
    assert f * m == o && g * m == x;
    assert (x * f) * m == (o * g) * m;
    DivideOut(x * f, m);
    DivideOut(o * g, m);
  }

  lemma RelativeOf(c: Cell, r: Region, model: Size)
    requires NonEmpty(model) && Describes(c, model, r)
    ensures Relative(c, model) == Region(r.cx / model.w as real, r.cy / model.h as real,
                                         r.w / model.w as real, r.h / model.h as real)
  {
    SameRatio(c.offsetX + c.x as real, c.grid as real, r.cx, model.w as real);
    SameRatio(c.offsetY + c.y as real, c.grid as real, r.cy, model.h as real);
  }

  lemma ScaledBack(r: Region, rel: Region, mw: real, mh: real)
    requires mw > 0.0 && mh > 0.0 && rel == Region(r.cx / mw, r.cy / mh, r.w / mw, r.h / mh)
    ensures Scaled(rel, mw, mh) == r
  {
    RatioTimes(0.0, r.cx, mw);
    RatioTimes(0.0, r.w, mw);
    RatioTimes(0.0, r.cy, mh);
    RatioTimes(0.0, r.h, mh);
  }

  lemma AxisAgrees(o: real, centre: real, extent: real, m: real)
    requires m > 0.0
    ensures o * (centre / m + (extent / m) / 2.0) == centre * (o / m) + (extent * (o / m)) / 2.0
    ensures o * (centre / m - (extent / m) / 2.0) == centre * (o / m) - (extent * (o / m)) / 2.0
  {
    RatioTimes(o, centre, m);
    RatioTimes(o, extent, m);
    var f, g := centre / m, extent / m;
    assert o * (f + g / 2.0) == o * f + (o * g) / 2.0;
    assert o * (f - g / 2.0) == o * f - (o * g) / 2.0;
  }

  lemma HeadsAgreePadded(c: Cell, r: Region, image: Size, model: Size)
    requires NonEmpty(image) && NonEmpty(model) && Describes(c, model, r)
    ensures BoundsV3(c, image, model, true) == BoundsV8(r, image, model, true)
  {
    RelativeOf(c, r, model);
    ScaledBack(r, Relative(c, model), model.w as real, model.h as real);
  }

  lemma HeadsAgreeResized(c: Cell, r: Region, image: Size, model: Size)
    requires NonEmpty(image) && NonEmpty(model) && Describes(c, model, r)
    ensures BoundsV3(c, image, model, false) == BoundsV8(r, image, model, false)
  {
    RelativeOf(c, r, model);
    AxisAgrees(image.w as real, r.cx, r.w, model.w as real);
    AxisAgrees(image.h as real, r.cy, r.h, model.h as real);
  }

  /** Both heads undo the preprocessing alike: whatever region of the model's input a YOLOv3 cell
      describes, its bounds are those the YOLOv8 path gives that region. */
  lemma HeadsAgree(c: Cell, r: Region, image: Size, model: Size, padded: bool)
    requires NonEmpty(image) && NonEmpty(model) && Describes(c, model, r)
    ensures BoundsV3(c, image, model, padded) == BoundsV8(r, image, model, padded)
  {
    if padded {
      HeadsAgreePadded(c, r, image, model);
    } else {
      HeadsAgreeResized(c, r, image, model);
    }
  }

  /** YOLOv3, padded: as for YOLOv8, the box moves by the odd half pixels only. */
  lemma PaddedV3(c: Cell, r: Region, image: Size, m: nat)
    requires NonEmpty(image) && m > 0 && Describes(c, Size(m, m), PadResized(r, ReaderFit(image, Size(m, m))))
    ensures BoundsV3(c, image, Size(m, m), true) ==
      Moved(BoundsOf(r), Shift(LongSide(image), image.w), Shift(LongSide(image), image.h))
  {
    HeadsAgree(c, PadResized(r, ReaderFit(image, Size(m, m))), image, Size(m, m), true);
    PaddedV8(r, image, m);
  }

  /** YOLOv3, resized: the box comes back exactly. */
  lemma ResizedV3(c: Cell, r: Region, image: Size, model: Size)
    requires NonEmpty(image) && NonEmpty(model) && Describes(c, model, Resized(r, image, model))
    ensures BoundsV3(c, image, model, false) == BoundsOf(r)
  {
    HeadsAgree(c, Resized(r, image, model), image, model, false);
    ResizedV8(r, image, model);
  }
}
