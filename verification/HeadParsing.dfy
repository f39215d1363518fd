/** Turning the flat output of the detection heads into one record per predicted box. */
module HeadParsing {
  import opened Arithmetic
  import opened Lists

  /** The grids of the heads, the boxes per grid cell, and the values per box. */
  datatype Heads = Heads(grids: seq<nat>, anchors: nat, values: nat)

  function Cells(g: nat): nat { g * g }

  /** A grid with `per` items for each cell. */
  function Block(g: nat, per: nat): (n: nat)
    ensures n == Cells(g) * per
  {
    MulMonotone(0, Cells(g), per);
    Cells(g) * per
  }

  /** The boxes of the first `k` grids. */
  function BoxOffset(h: Heads, k: nat): nat
    requires k <= |h.grids|
  {
    if k == 0 then 0 else BoxOffset(h, k - 1) + Block(h.grids[k - 1], h.anchors)
  }

  /** The flat values of the first `k` grids, with `channels` planes for each grid. */
  function DataOffset(h: Heads, channels: nat, k: nat): nat
    requires k <= |h.grids|
  {
    if k == 0 then 0 else DataOffset(h, channels, k - 1) + Block(h.grids[k - 1], channels)
  }

  function TotalBoxes(h: Heads): nat { BoxOffset(h, |h.grids|) }

  lemma {:induction false} OffsetsGrow(h: Heads, channels: nat, j: nat, k: nat)
    requires j <= k <= |h.grids|
    ensures BoxOffset(h, j) <= BoxOffset(h, k)
    ensures DataOffset(h, channels, j) <= DataOffset(h, channels, k)
  {
    if j < k { OffsetsGrow(h, channels, j, k - 1); }
  }

  /** With as many planes as anchors times values, each box owns as many flat elements as it has values. */
  lemma {:induction false} OffsetsMatch(h: Heads, k: nat)
    requires k <= |h.grids|
    ensures DataOffset(h, h.anchors * h.values, k) == BoxOffset(h, k) * h.values
  {
    if k > 0 {
      OffsetsMatch(h, k - 1);
      BlocksMatch(Cells(h.grids[k - 1]), h.anchors, h.values, BoxOffset(h, k - 1));
    }
  }

  lemma BlocksMatch(n: nat, anchors: nat, values: nat, before: nat)
    ensures before * values + n * (anchors * values) == (before + n * anchors) * values
  {
    assert n * (anchors * values) == (n * anchors) * values;
  }

  // ------------------------------------------------- Which flat element is which

  /** A box by grid, anchor and cell. */
  datatype Place = Place(grid: nat, anchor: nat, cell: nat)

  predicate IsPlace(h: Heads, p: Place) {
    p.grid < |h.grids| && p.anchor < h.anchors && p.cell < Cells(h.grids[p.grid])
  }

  function BoxIndex(h: Heads, p: Place): nat
    requires IsPlace(h, p)
  {
    BoxBase(h, p.grid, p.anchor) + p.cell
  }

  /** The first box of an anchor. */
  function BoxBase(h: Heads, k: nat, a: nat): nat
    requires k < |h.grids|
  {
    BoxOffset(h, k) + a * Cells(h.grids[k])
  }

  /** The first element of the plane of a value of an anchor. */
  function PlaneBase(h: Heads, k: nat, a: nat, v: nat): nat
    requires k < |h.grids|
  {
    DataOffset(h, h.anchors * h.values, k) + (a * h.values + v) * Cells(h.grids[k])
  }

  /** The flat position of value `v` of a box: planes by anchor and value, cells within a plane. */
  function FlatIndex(h: Heads, p: Place, v: nat): nat
    requires IsPlace(h, p)
  {
    PlaneBase(h, p.grid, p.anchor, v) + p.cell
  }

  /** The grid that holds flat position or box `x`, when `sizes` are counted by `per` for each cell. */
  function GridOf(h: Heads, per: nat, x: nat, k: nat): (g: nat)
    requires k <= |h.grids| && x < DataOffset(h, per, k)
    ensures g < k && DataOffset(h, per, g) <= x < DataOffset(h, per, g + 1)
  {
    if x >= DataOffset(h, per, k - 1) then k - 1 else GridOf(h, per, x, k - 1)
  }

  lemma GridOfUnique(h: Heads, per: nat, x: nat, g: nat)
    requires g < |h.grids| && DataOffset(h, per, g) <= x < DataOffset(h, per, g + 1)
    requires x < DataOffset(h, per, |h.grids|)
    ensures GridOf(h, per, x, |h.grids|) == g
  {
    var g' := GridOf(h, per, x, |h.grids|);
    if g < g' { OffsetsGrow(h, per, g + 1, g'); }
    if g' < g { OffsetsGrow(h, per, g' + 1, g); }
  }

  lemma {:induction false} BoxOffsetIsDataOffset(h: Heads, k: nat)
    requires k <= |h.grids|
    ensures BoxOffset(h, k) == DataOffset(h, h.anchors, k)
  {
    if k > 0 { BoxOffsetIsDataOffset(h, k - 1); }
  }

  function Split3(x: nat, n: nat, a: nat, v: nat): (r: (nat, nat, nat))
    requires x < n * (a * v)
    ensures r.0 < a && r.1 < v && r.2 < n && (r.0 * v + r.1) * n + r.2 == x
  {
    var (q, cell) := Split2(x, n, a * v);
    assert q < v * a;
    var (high, low) := Split2(q, v, a);
    (high, low, cell)
  }

  lemma Split3Unique(n: nat, a: nat, v: nat, high: nat, low: nat, cell: nat)
    requires high < a && low < v && cell < n
    ensures (high * v + low) * n + cell < n * (a * v)
    ensures Split3((high * v + low) * n + cell, n, a, v) == (high, low, cell)
  {
    DigitsBelow(high, low, a, v);
    DigitsBelow(high * v + low, cell, a * v, n);
  }

  /** The grid of box or step number `b`. */
  function GridOfBox(h: Heads, b: nat): (k: nat)
    requires b < TotalBoxes(h)
    ensures k < |h.grids| && BoxOffset(h, k) <= b < BoxOffset(h, k + 1)
  {
    BoxOffsetIsDataOffset(h, |h.grids|);
    var k := GridOf(h, h.anchors, b, |h.grids|);
    BoxOffsetIsDataOffset(h, k);
    BoxOffsetIsDataOffset(h, k + 1);
    k
  }

  lemma GridOfBoxUnique(h: Heads, b: nat, k: nat)
    requires k < |h.grids| && BoxOffset(h, k) <= b < BoxOffset(h, k + 1)
    ensures b < TotalBoxes(h) && GridOfBox(h, b) == k
  {
    OffsetsGrow(h, h.anchors, k + 1, |h.grids|);
    BoxOffsetIsDataOffset(h, k);
    BoxOffsetIsDataOffset(h, k + 1);
    BoxOffsetIsDataOffset(h, |h.grids|);
    GridOfUnique(h, h.anchors, b, k);
  }

  /** The place of box number `b`. */
  function PlaceOfBox(h: Heads, b: nat): (p: Place)
    requires b < TotalBoxes(h)
    ensures IsPlace(h, p) && BoxIndex(h, p) == b
  {
    var k := GridOfBox(h, b);
    var (anchor, cell) := Split2(b - BoxOffset(h, k), Cells(h.grids[k]), h.anchors);
    Place(k, anchor, cell)
  }

  lemma BoxInRange(h: Heads, p: Place)
    requires IsPlace(h, p)
    ensures BoxOffset(h, p.grid) <= BoxIndex(h, p) < BoxOffset(h, p.grid + 1) <= TotalBoxes(h)
  {
    DigitsBelow(p.anchor, p.cell, h.anchors, Cells(h.grids[p.grid]));
    OffsetsGrow(h, 0, p.grid + 1, |h.grids|);
  }

  /** Places and box numbers correspond one to one. */
  lemma PlaceOfBoxInverts(h: Heads, p: Place)
    requires IsPlace(h, p)
    ensures BoxIndex(h, p) < TotalBoxes(h) && PlaceOfBox(h, BoxIndex(h, p)) == p
  {
    BoxInRange(h, p);
    GridOfBoxUnique(h, BoxIndex(h, p), p.grid);
    DigitsBelow(p.anchor, p.cell, h.anchors, Cells(h.grids[p.grid]));
  }

  lemma FlatInRange(h: Heads, p: Place, v: nat)
    requires IsPlace(h, p) && v < h.values
    ensures var c := h.anchors * h.values;
            DataOffset(h, c, p.grid) <= FlatIndex(h, p, v) < DataOffset(h, c, p.grid + 1) <= TotalBoxes(h) * h.values
  {
    DigitsBelow(p.anchor, v, h.anchors, h.values);
    DigitsBelow(p.anchor * h.values + v, p.cell, h.anchors * h.values, Cells(h.grids[p.grid]));
    OffsetsGrow(h, h.anchors * h.values, p.grid + 1, |h.grids|);
    OffsetsMatch(h, |h.grids|);
  }

  /** The box and value a flat position belongs to. */
  function OwnerOf(h: Heads, x: nat): (Place, nat)
    requires x < DataOffset(h, h.anchors * h.values, |h.grids|)
  {
    var k := GridOf(h, h.anchors * h.values, x, |h.grids|);
    var (anchor, value, cell) := Split3(x - DataOffset(h, h.anchors * h.values, k), Cells(h.grids[k]), h.anchors, h.values);
    (Place(k, anchor, cell), value)
  }

  /** Every flat element is a value of some box. */
  lemma OwnerOfCorrect(h: Heads, x: nat)
    requires x < TotalBoxes(h) * h.values
    ensures x < DataOffset(h, h.anchors * h.values, |h.grids|)
    ensures var r := OwnerOf(h, x);
            IsPlace(h, r.0) && r.1 < h.values && FlatIndex(h, r.0, r.1) == x
  {
    OffsetsMatch(h, |h.grids|);
  }

  /** ... and of one only: reading by box and value is a bijection. */
  lemma OwnerOfInverts(h: Heads, p: Place, v: nat)
    requires IsPlace(h, p) && v < h.values
    ensures FlatIndex(h, p, v) < DataOffset(h, h.anchors * h.values, |h.grids|) == TotalBoxes(h) * h.values
    ensures OwnerOf(h, FlatIndex(h, p, v)) == (p, v)
  {
    FlatInRange(h, p, v);
    OffsetsMatch(h, |h.grids|);
    GridOfUnique(h, h.anchors * h.values, FlatIndex(h, p, v), p.grid);
    Split3Unique(Cells(h.grids[p.grid]), h.anchors, h.values, p.anchor, v, p.cell);
  }

  // --------------------------------------------------------------- The parser

  /** Appends one plane of values: cell by cell, one value for each box of an anchor. */
  method AppendPlane(raw: array<seq<real>>, boxBase: nat, data: seq<real>, dataBase: nat, grid: nat)
    requires boxBase + Cells(grid) <= raw.Length && dataBase + Cells(grid) <= |data|
    modifies raw
    ensures forall i :: 0 <= i < raw.Length ==>
              raw[i] == if boxBase <= i < boxBase + Cells(grid) then old(raw[i]) + [data[dataBase + i - boxBase]] else old(raw[i])
  {
    for row := 0 to grid
      invariant row * grid <= Cells(grid)
      invariant forall i :: 0 <= i < raw.Length ==>
                  raw[i] == if boxBase <= i < boxBase + row * grid then old(raw[i]) + [data[dataBase + i - boxBase]] else old(raw[i])
    {
      RowEnds(row, grid);
      for col := 0 to grid
        invariant forall i :: 0 <= i < raw.Length ==>
                    raw[i] == if boxBase <= i < boxBase + row * grid + col then old(raw[i]) + [data[dataBase + i - boxBase]]
                              else old(raw[i])
      {
        raw[boxBase + row * grid + col] := raw[boxBase + row * grid + col] + [data[dataBase + row * grid + col]];
      }
    }
  }

  lemma RowEnds(row: nat, grid: nat)
    requires row < grid
    ensures (row + 1) * grid == row * grid + grid <= Cells(grid)
  {
    MulMonotone(row + 1, grid, grid);
  }

  /** The first `count` values of a box. */
  function ValuesOf(h: Heads, data: seq<real>, p: Place, count: nat): (r: seq<real>)
    requires IsPlace(h, p) && count <= h.values && |data| == TotalBoxes(h) * h.values
    ensures |r| == count
  {
    seq(count, v requires 0 <= v < count => FlatInRange(h, p, v); data[FlatIndex(h, p, v)])
  }

  /** How many values box `b` has received when the loops stand at grid `k`, anchor `a`, value `v`. */
  function Received(h: Heads, k: nat, a: nat, v: nat, b: nat): (n: nat)
    requires b < TotalBoxes(h) && v <= h.values
    ensures n <= h.values
  {
    var p := PlaceOfBox(h, b);
    if p.grid < k || (p.grid == k && p.anchor < a) then h.values
    else if p.grid == k && p.anchor == a then v
    else 0
  }

  ghost predicate Filled(h: Heads, data: seq<real>, raw: seq<seq<real>>, k: nat, a: nat, v: nat)
    requires |data| == TotalBoxes(h) * h.values && |raw| == TotalBoxes(h) && v <= h.values
  {
    forall b :: 0 <= b < |raw| ==> raw[b] == ValuesOf(h, data, PlaceOfBox(h, b), Received(h, k, a, v, b))
  }

  /** One more plane. */
  lemma PlaneAppended(h: Heads, data: seq<real>, before: seq<seq<real>>, after: seq<seq<real>>, k: nat, a: nat, v: nat)
    requires |data| == TotalBoxes(h) * h.values && |before| == |after| == TotalBoxes(h)
    requires k < |h.grids| && a < h.anchors && v < h.values
    requires Filled(h, data, before, k, a, v)
    requires PlaneBase(h, k, a, v) + Cells(h.grids[k]) <= |data|
    requires forall i :: 0 <= i < |after| ==>
               after[i] == if BoxBase(h, k, a) <= i < BoxBase(h, k, a) + Cells(h.grids[k])
                           then before[i] + [data[PlaneBase(h, k, a, v) + i - BoxBase(h, k, a)]] else before[i]
    ensures Filled(h, data, after, k, a, v + 1)
  {
    forall b | 0 <= b < |after|
      ensures after[b] == ValuesOf(h, data, PlaceOfBox(h, b), Received(h, k, a, v + 1, b))
    {
      BoxGrows(h, data, before[b], k, a, v, b);
    }
  }

  /** What the plane means for one box: its next value if it belongs to the plane's anchor, nothing otherwise. */
  lemma BoxGrows(h: Heads, data: seq<real>, old_b: seq<real>, k: nat, a: nat, v: nat, b: nat)
    requires |data| == TotalBoxes(h) * h.values && b < TotalBoxes(h)
    requires k < |h.grids| && a < h.anchors && v < h.values
    requires PlaneBase(h, k, a, v) + Cells(h.grids[k]) <= |data|
    requires old_b == ValuesOf(h, data, PlaceOfBox(h, b), Received(h, k, a, v, b))
    ensures ValuesOf(h, data, PlaceOfBox(h, b), Received(h, k, a, v + 1, b))
         == if BoxBase(h, k, a) <= b < BoxBase(h, k, a) + Cells(h.grids[k])
            then old_b + [data[PlaneBase(h, k, a, v) + b - BoxBase(h, k, a)]] else old_b
  {
    var p := PlaceOfBox(h, b);
    if BoxBase(h, k, a) <= b < BoxBase(h, k, a) + Cells(h.grids[k]) {
      PlaceOfBoxInverts(h, Place(k, a, b - BoxBase(h, k, a)));
      FlatInRange(h, p, v);
      assert ValuesOf(h, data, p, v + 1) == ValuesOf(h, data, p, v) + [data[FlatIndex(h, p, v)]];
    }
  }

  /** Where the planes of an anchor lie. */
  lemma PlaneInRange(h: Heads, k: nat, a: nat, v: nat)
    requires k < |h.grids| && a < h.anchors && v < h.values
    ensures BoxBase(h, k, a) + Cells(h.grids[k]) <= TotalBoxes(h)
    ensures PlaneBase(h, k, a, v) + Cells(h.grids[k]) <= TotalBoxes(h) * h.values
  {
    var n := Cells(h.grids[k]);
    DigitsBelow(a, v, h.anchors, h.values);
    LastBlock(a, h.anchors, n);
    LastBlock(a * h.values + v, h.anchors * h.values, n);
    OffsetsGrow(h, h.anchors * h.values, k + 1, |h.grids|);
    OffsetsMatch(h, |h.grids|);
  }

  /** All planes of one grid. */
  method ParseGrid(h: Heads, data: seq<real>, raw: array<seq<real>>, k: nat, dataOffset: nat, boxOffset: nat)
    requires |data| == TotalBoxes(h) * h.values && raw.Length == TotalBoxes(h) && k < |h.grids|
    requires dataOffset == DataOffset(h, h.anchors * h.values, k) && boxOffset == BoxOffset(h, k)
    requires Filled(h, data, raw[..], k, 0, 0)
    modifies raw
    ensures Filled(h, data, raw[..], k + 1, 0, 0)
  {
    var grid := h.grids[k];
    for anchor := 0 to h.anchors
      invariant Filled(h, data, raw[..], k, anchor, 0)
    {
      for value := 0 to h.values
        invariant Filled(h, data, raw[..], k, anchor, value)
      {
        PlaneInRange(h, k, anchor, value);
        ghost var before := raw[..];
        AppendPlane(raw, boxOffset + anchor * Cells(grid), data, dataOffset + (anchor * h.values + value) * Cells(grid), grid);
        PlaneAppended(h, data, before, raw[..], k, anchor, value);
      }
      NextAnchor(h, data, raw[..], k, anchor);
    }
    NextGrid(h, data, raw[..], k);
  }

  lemma NextAnchor(h: Heads, data: seq<real>, raw: seq<seq<real>>, k: nat, a: nat)
    requires |data| == TotalBoxes(h) * h.values && |raw| == TotalBoxes(h)
    requires Filled(h, data, raw, k, a, h.values)
    ensures Filled(h, data, raw, k, a + 1, 0)
  {
    forall b | 0 <= b < |raw| ensures Received(h, k, a + 1, 0, b) == Received(h, k, a, h.values, b) {}
  }

  lemma NextGrid(h: Heads, data: seq<real>, raw: seq<seq<real>>, k: nat)
    requires |data| == TotalBoxes(h) * h.values && |raw| == TotalBoxes(h) && k < |h.grids|
    requires Filled(h, data, raw, k, h.anchors, 0)
    ensures Filled(h, data, raw, k + 1, 0, 0)
  {
    forall b | 0 <= b < |raw| ensures Received(h, k + 1, 0, 0, b) == Received(h, k, h.anchors, 0, b) {
      assert PlaceOfBox(h, b).anchor < h.anchors;
    }
  }

  /** The parser for heads with one block of planes for each grid. Every box ends up with
      exactly its own values, in value order. */
  method ParseHeads(h: Heads, channels: nat, data: seq<real>) returns (raw: array<seq<real>>)
    requires channels == h.anchors * h.values
    requires |data| == TotalBoxes(h) * h.values
    ensures fresh(raw) && raw.Length == TotalBoxes(h)
    ensures forall b :: 0 <= b < raw.Length ==> raw[b] == ValuesOf(h, data, PlaceOfBox(h, b), h.values)
  {
    raw := new seq<real>[TotalBoxes(h)](_ => []);
    var dataOffset, boxOffset := 0, 0;
    for k := 0 to |h.grids|
      invariant dataOffset == DataOffset(h, channels, k) && boxOffset == BoxOffset(h, k)
      invariant Filled(h, data, raw[..], k, 0, 0)
    {
      ParseGrid(h, data, raw, k, dataOffset, boxOffset);
      dataOffset := dataOffset + Cells(h.grids[k]) * channels;
      boxOffset := boxOffset + Cells(h.grids[k]) * h.anchors;
    }
    forall b | 0 <= b < raw.Length ensures raw[b] == ValuesOf(h, data, PlaceOfBox(h, b), h.values) {
      assert Received(h, |h.grids|, 0, 0, b) == h.values;
      assert raw[..][b] == raw[b];
    }
  }

  // --------------------------------------------------------- The filter loop

  /** Column by column, then row by row, then anchor by anchor within one grid. */
  function Within(g: nat, anchors: nat, col: nat, row: nat, anchor: nat): (n: nat)
    ensures n == (col * g + row) * anchors + anchor
  {
    MulMonotone(0, col, g);
    MulMonotone(0, col * g + row, anchors);
    (col * g + row) * anchors + anchor
  }

  function DigitsWithin(g: nat, anchors: nat, x: nat): (d: (nat, nat, nat))
    requires x < Block(g, anchors)
    ensures d.0 < g && d.1 < g && d.2 < anchors && Within(g, anchors, d.0, d.1, d.2) == x
  {
    Split3(x, anchors, g, g)
  }

  lemma WithinBlock(g: nat, anchors: nat, col: nat, row: nat, anchor: nat)
    requires col < g && row < g && anchor < anchors
    ensures Within(g, anchors, col, row, anchor) < Block(g, anchors)
    ensures DigitsWithin(g, anchors, Within(g, anchors, col, row, anchor)) == (col, row, anchor)
  {
    Split3Unique(anchors, g, g, col, row, anchor);
  }

  /** The step for a column, row and anchor of a grid. */
  function StepNumber(h: Heads, k: nat, col: nat, row: nat, anchor: nat): (j: nat)
    requires k < |h.grids|
  {
    BoxOffset(h, k) + Within(h.grids[k], h.anchors, col, row, anchor)
  }

  lemma StepCarries(h: Heads, k: nat, col: nat, row: nat)
    requires k < |h.grids|
    ensures StepNumber(h, k, col, row, h.anchors) == StepNumber(h, k, col, row + 1, 0)
    ensures StepNumber(h, k, col, h.grids[k], 0) == StepNumber(h, k, col + 1, 0, 0)
  {
    TimesNext(col * h.grids[k] + row, h.anchors);
    TimesNext(col, h.grids[k]);
  }

  lemma StepEnds(h: Heads, k: nat)
    requires k < |h.grids|
    ensures StepNumber(h, k, 0, 0, 0) == BoxOffset(h, k)
    ensures StepNumber(h, k, h.grids[k], 0, 0) == BoxOffset(h, k + 1)
  {
  }

  /** The step at which the filter loop, going column by column, then row, then anchor, reaches a box. */
  function StepOf(h: Heads, p: Place): nat
    requires IsPlace(h, p)
  {
    var g := h.grids[p.grid];
    var (row, col) := Split2(p.cell, g, g);
    StepNumber(h, p.grid, col, row, p.anchor)
  }

  /** Column, row and anchor of step `j` within its grid. */
  function DigitsAtStep(h: Heads, j: nat): (d: (nat, nat, nat))
    requires j < TotalBoxes(h)
    ensures var k := GridOfBox(h, j);
      d.0 < h.grids[k] && d.1 < h.grids[k] && d.2 < h.anchors && StepNumber(h, k, d.0, d.1, d.2) == j
  {
    var k := GridOfBox(h, j);
    DigitsWithin(h.grids[k], h.anchors, j - BoxOffset(h, k))
  }

  function PlaceOfDigits(h: Heads, k: nat, col: nat, row: nat, anchor: nat): (p: Place)
    requires k < |h.grids| && col < h.grids[k] && row < h.grids[k] && anchor < h.anchors
    ensures IsPlace(h, p) && p == Place(k, anchor, row * h.grids[k] + col)
  {
    DigitsBelow(row, col, h.grids[k], h.grids[k]);
    Place(k, anchor, row * h.grids[k] + col)
  }

  function PlaceAtStep(h: Heads, j: nat): (p: Place)
    requires j < TotalBoxes(h)
    ensures IsPlace(h, p)
  {
    var d := DigitsAtStep(h, j);
    PlaceOfDigits(h, GridOfBox(h, j), d.0, d.1, d.2)
  }

  lemma StepInRange(h: Heads, k: nat, col: nat, row: nat, anchor: nat)
    requires k < |h.grids| && col < h.grids[k] && row < h.grids[k] && anchor < h.anchors
    ensures var j := StepNumber(h, k, col, row, anchor);
            && j < BoxOffset(h, k + 1) <= TotalBoxes(h)
            && PlaceAtStep(h, j) == PlaceOfDigits(h, k, col, row, anchor)
  {
    WithinBlock(h.grids[k], h.anchors, col, row, anchor);
    OffsetsGrow(h, h.anchors, k + 1, |h.grids|);
    GridOfBoxUnique(h, StepNumber(h, k, col, row, anchor), k);
  }

  /** Steps and places determine each other. */
  lemma StepsInvert(h: Heads, p: Place)
    requires IsPlace(h, p)
    ensures StepOf(h, p) < TotalBoxes(h) && PlaceAtStep(h, StepOf(h, p)) == p
  {
    var g := h.grids[p.grid];
    var (row, col) := Split2(p.cell, g, g);
    StepInRange(h, p.grid, col, row, p.anchor);
  }

  lemma StepOfDigits(h: Heads, k: nat, col: nat, row: nat, anchor: nat)
    requires k < |h.grids| && col < h.grids[k] && row < h.grids[k] && anchor < h.anchors
    ensures StepOf(h, PlaceOfDigits(h, k, col, row, anchor)) == StepNumber(h, k, col, row, anchor)
  {
    DigitsBelow(row, col, h.grids[k], h.grids[k]);
  }

  lemma StepOfPlace(h: Heads, j: nat)
    requires j < TotalBoxes(h)
    ensures StepOf(h, PlaceAtStep(h, j)) == j
  {
    var d := DigitsAtStep(h, j);
    StepOfDigits(h, GridOfBox(h, j), d.0, d.1, d.2);
  }

  /** The boxes in the order the filter loop looks at them. */
  method VisitBoxes(h: Heads) returns (visited: seq<nat>)
    ensures |visited| == TotalBoxes(h)
    ensures forall j :: 0 <= j < |visited| ==> visited[j] == BoxIndex(h, PlaceAtStep(h, j))
  {
    visited := [];
    var offset := 0;
    for k := 0 to |h.grids|
      invariant offset == BoxOffset(h, k) == |visited| <= TotalBoxes(h)
      invariant forall j :: 0 <= j < |visited| ==> visited[j] == BoxIndex(h, PlaceAtStep(h, j))
    {
      OffsetsGrow(h, 0, k + 1, |h.grids|);
      visited := VisitGrid(h, k, offset, visited);
      offset := offset + Cells(h.grids[k]) * h.anchors;
    }
  }

  /** What the loop computes for a column, row and anchor is the box of that step. */
  lemma StepVisits(h: Heads, k: nat, x: nat, y: nat, n: nat)
    requires k < |h.grids| && x < h.grids[k] && y < h.grids[k] && n < h.anchors
    ensures var (g, j) := (h.grids[k], StepNumber(h, k, x, y, n));
      && StepNumber(h, k, x, y, n + 1) == j + 1 <= TotalBoxes(h)
      && BoxOffset(h, k) + n * Cells(g) + (y * g + x) == BoxIndex(h, PlaceAtStep(h, j))
  {
    StepInRange(h, k, x, y, n);
  }

  /** The boxes of one cell, anchor by anchor. */
  method VisitCell(h: Heads, k: nat, offset: nat, x: nat, y: nat, before: seq<nat>) returns (visited: seq<nat>)
    requires k < |h.grids| && offset == BoxOffset(h, k) && x < h.grids[k] && y < h.grids[k]
    requires |before| == StepNumber(h, k, x, y, 0) <= TotalBoxes(h)
    requires forall j :: 0 <= j < |before| ==> before[j] == BoxIndex(h, PlaceAtStep(h, j))
    ensures |visited| == StepNumber(h, k, x, y + 1, 0) <= TotalBoxes(h)
    ensures forall j :: 0 <= j < |visited| ==> visited[j] == BoxIndex(h, PlaceAtStep(h, j))
  {
    visited := before;
    var grid := h.grids[k];
    for n := 0 to h.anchors
      invariant |visited| == StepNumber(h, k, x, y, n) <= TotalBoxes(h)
      invariant forall j :: 0 <= j < |visited| ==> visited[j] == BoxIndex(h, PlaceAtStep(h, j))
    {
      StepVisits(h, k, x, y, n);
      visited := visited + [offset + n * Cells(grid) + (y * grid + x)];
    }
    StepCarries(h, k, x, y);
  }

  method VisitGrid(h: Heads, k: nat, offset: nat, before: seq<nat>) returns (visited: seq<nat>)
    requires k < |h.grids| && offset == BoxOffset(h, k) == |before| <= BoxOffset(h, k + 1) <= TotalBoxes(h)
    requires forall j :: 0 <= j < |before| ==> before[j] == BoxIndex(h, PlaceAtStep(h, j))
    ensures |visited| == BoxOffset(h, k + 1)
    ensures forall j :: 0 <= j < |visited| ==> visited[j] == BoxIndex(h, PlaceAtStep(h, j))
  {
    visited := before;
    StepEnds(h, k);
    for x := 0 to h.grids[k]
      invariant |visited| == StepNumber(h, k, x, 0, 0) <= TotalBoxes(h)
      invariant forall j :: 0 <= j < |visited| ==> visited[j] == BoxIndex(h, PlaceAtStep(h, j))
    {
      for y := 0 to h.grids[k]
        invariant |visited| == StepNumber(h, k, x, y, 0) <= TotalBoxes(h)
        invariant forall j :: 0 <= j < |visited| ==> visited[j] == BoxIndex(h, PlaceAtStep(h, j))
      {
        visited := VisitCell(h, k, offset, x, y, visited);
      }
      StepCarries(h, k, x, 0);
    }
  }

  /** The filter loop looks at every box exactly once. */
  lemma EveryBoxVisitedOnce(h: Heads, visited: seq<nat>)
    requires |visited| == TotalBoxes(h)
    requires forall j :: 0 <= j < |visited| ==> visited[j] == BoxIndex(h, PlaceAtStep(h, j))
    ensures IsPermutation(visited, TotalBoxes(h))
  {
    forall j | 0 <= j < |visited| ensures visited[j] < TotalBoxes(h) && PlaceOfBox(h, visited[j]) == PlaceAtStep(h, j) {
      PlaceOfBoxInverts(h, PlaceAtStep(h, j));
    }
    forall j, k | 0 <= j < k < |visited| ensures visited[j] != visited[k] {
      StepOfPlace(h, j);
      StepOfPlace(h, k);
    }
    forall b: nat | b < TotalBoxes(h) ensures b in visited {
      var p := PlaceOfBox(h, b);
      StepsInvert(h, p);
      assert visited[StepOf(h, p)] == b;
    }
  }

  // ---------------------------------------------------------- Planar layout

  /** The parser for one planar block: value `v` of box `b` lies at `b + total * v`. */
  method ParsePlanar(total: nat, values: nat, data: seq<real>) returns (raw: seq<seq<real>>)
    requires |data| == total * values
    ensures |raw| == total
    ensures forall b :: 0 <= b < total ==> |raw[b]| == values
    ensures forall b, v :: 0 <= b < total && 0 <= v < values ==> PlanarInRange(total, values, b, v) && raw[b][v] == data[b + total * v]
  {
    raw := [];
    for box := 0 to total
      invariant |raw| == box
      invariant forall b :: 0 <= b < box ==> |raw[b]| == values
      invariant forall b, v :: 0 <= b < box && 0 <= v < values ==> PlanarInRange(total, values, b, v) && raw[b][v] == data[b + total * v]
    {
      var record: seq<real> := [];
      for idx := 0 to values
        invariant |record| == idx
        invariant forall v :: 0 <= v < idx ==> PlanarInRange(total, values, box, v) && record[v] == data[box + total * v]
      {
        PlanarBounds(total, values, box, idx);
        record := record + [data[box + total * idx]];
      }
      raw := raw + [record];
    }
  }

  ghost predicate PlanarInRange(total: nat, values: nat, b: nat, v: nat) {
    b + total * v < total * values
  }

  lemma PlanarBounds(total: nat, values: nat, b: nat, v: nat)
    requires b < total && v < values
    ensures PlanarInRange(total, values, b, v)
  {
    DigitsBelow(v, b, values, total);
  }

  /** Each element of the planar block is read once: position and (box, value) determine each other. */
  lemma PlanarBijective(total: nat, values: nat, x: nat, b: nat, v: nat)
    requires x < total * values
    ensures total > 0 && x % total < total && x / total < values
    ensures x == x % total + total * (x / total)
    ensures b < total && v < values && x == b + total * v ==> b == x % total && v == x / total
  {
    assert total > 0;
    DivBelow(x, values, total);
    if b < total && v < values && x == b + total * v { DivModUnique(x, total, v, b); }
  }
}
