/** The flat layout of the detection heads in plain numbers. */
module HeadLaws {
  import opened Arithmetic
  import opened HeadParsing

  /** Running totals over the grids, with `per` items for each cell. */
  ghost predicate Totals(grids: seq<nat>, per: nat, starts: seq<nat>) {
    && |starts| == |grids| + 1 && starts[0] == 0
    && forall k {:trigger grids[k]} :: 0 <= k < |grids| ==> starts[k + 1] == starts[k] + grids[k] * grids[k] * per
  }

  lemma {:induction false} BoxTotals(h: Heads, starts: seq<nat>, k: nat)
    requires Totals(h.grids, h.anchors, starts) && k <= |h.grids|
    ensures BoxOffset(h, k) == starts[k]
  {
    if k > 0 {
      BoxTotals(h, starts, k - 1);
    }
  }

  lemma {:induction false} DataTotals(h: Heads, channels: nat, planes: seq<nat>, k: nat)
    requires Totals(h.grids, channels, planes) && k <= |h.grids|
    ensures DataOffset(h, channels, k) == planes[k]
  {
    if k > 0 {
      DataTotals(h, channels, planes, k - 1);
    }
  }

  /** The records that the parser leaves behind. */
  ghost predicate Parsed(h: Heads, data: seq<real>, raw: seq<seq<real>>) {
    && |data| == TotalBoxes(h) * h.values && |raw| == TotalBoxes(h)
    && forall b :: 0 <= b < |raw| ==> raw[b] == ValuesOf(h, data, PlaceOfBox(h, b), h.values)
  }

  /** Row and column within a plane of `g` by `g` cells, `block` planes in. */
  predicate Stands(x: nat, start: nat, block: nat, g: nat, row: nat, col: nat) {
    x == start + block * (g * g) + (row * g + col)
  }

  /** The box of a grid, anchor, row and column has `values` values, and value `v` is the element
      of plane `anchor * values + v` at that row and column. */
  lemma ElementPosition(h: Heads, data: seq<real>, raw: seq<seq<real>>, starts: seq<nat>, planes: seq<nat>,
                        k: nat, anchor: nat, row: nat, col: nat, v: nat, b: nat, x: nat)
    requires Parsed(h, data, raw)
    requires Totals(h.grids, h.anchors, starts) && Totals(h.grids, h.anchors * h.values, planes)
    requires k < |h.grids| && anchor < h.anchors && row < h.grids[k] && col < h.grids[k] && v < h.values
    requires Stands(b, starts[k], anchor, h.grids[k], row, col)
    requires Stands(x, planes[k], anchor * h.values + v, h.grids[k], row, col)
    ensures b < |raw| == starts[|h.grids|] && x < |data| == planes[|h.grids|]
    ensures |raw[b]| == h.values && raw[b][v] == data[x]
  {
    var g := h.grids[k];
    DigitsBelow(row, col, g, g);
    var p := Place(k, anchor, row * g + col);
    BoxTotals(h, starts, k);
    BoxTotals(h, starts, |h.grids|);
    DataTotals(h, h.anchors * h.values, planes, k);
    DataTotals(h, h.anchors * h.values, planes, |h.grids|);
    OffsetsMatch(h, |h.grids|);
    PlaceOfBoxInverts(h, p);
    FlatInRange(h, p, v);
    assert raw[BoxIndex(h, p)] == ValuesOf(h, data, p, h.values);
  }

  /** The filter loop goes through a grid column by column, then row by row, then anchor by anchor. */
  lemma VisitPosition(h: Heads, visited: seq<nat>, starts: seq<nat>,
                      k: nat, col: nat, row: nat, anchor: nat, j: nat, b: nat)
    requires |visited| == TotalBoxes(h)
    requires forall i :: 0 <= i < |visited| ==> visited[i] == BoxIndex(h, PlaceAtStep(h, i))
    requires Totals(h.grids, h.anchors, starts)
    requires k < |h.grids| && col < h.grids[k] && row < h.grids[k] && anchor < h.anchors
    requires j == starts[k] + (col * h.grids[k] + row) * h.anchors + anchor
    requires Stands(b, starts[k], anchor, h.grids[k], row, col)
    ensures j < |visited| && visited[j] == b
  {
    BoxTotals(h, starts, k);
    StepInRange(h, k, col, row, anchor);
  }
}
