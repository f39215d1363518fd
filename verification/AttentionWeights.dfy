/** The attention weights on their way from a checkpoint to the hardware layers: reshapes,
    transposes and stacking, all on row-major data. */
module AttentionWeights {
  import opened Arithmetic
  import opened KvCache
  import opened Reals

  // -------------------------------------------------------- Array operations

  /** Axes (0, 2, 1) of a tensor of shape (d0, d1, d2). A reshape leaves the data as it is. */
  function Transpose021(data: seq<real>, d0: nat, d1: nat, d2: nat): (r: seq<real>)
    requires |data| == (d0 * d1) * d2
    ensures |r| == (d0 * d2) * d1
  {
    seq((d0 * d2) * d1, k requires 0 <= k < (d0 * d2) * d1 =>
      var (a, b, c) := Unflat3(d0, d2, d1, k);
      Flat3Below(d0, d1, d2, a, c, b);
      data[Flat3(d1, d2, a, c, b)])
  }

  /** The position of element (a, b, c, d) of a tensor of shape (?, db, dc, dd). */
  function Flat4(db: nat, dc: nat, dd: nat, a: nat, b: nat, c: nat, d: nat): nat {
    Flat3(db, dc, a, b, c) * dd + d
  }

  lemma Flat4Below(da: nat, db: nat, dc: nat, dd: nat, a: nat, b: nat, c: nat, d: nat)
    requires a < da && b < db && c < dc && d < dd
    ensures Flat4(db, dc, dd, a, b, c, d) < ((da * db) * dc) * dd
    ensures dd > 0
    ensures Flat4(db, dc, dd, a, b, c, d) / dd == Flat3(db, dc, a, b, c)
    ensures Flat4(db, dc, dd, a, b, c, d) % dd == d
  {
    Flat3Below(da, db, dc, a, b, c);
    DigitsBelow(Flat3(db, dc, a, b, c), d, (da * db) * dc, dd);
  }

  /** Axes (0, 2, 1, 3) of a tensor of shape (d0, d1, d2, d3). */
  function Transpose0213(data: seq<real>, d0: nat, d1: nat, d2: nat, d3: nat): (r: seq<real>)
    requires |data| == ((d0 * d1) * d2) * d3
    ensures |r| == ((d0 * d2) * d1) * d3
  {
    seq(((d0 * d2) * d1) * d3, k requires 0 <= k < ((d0 * d2) * d1) * d3 =>
      var (outer, d) := Split2(k, d3, (d0 * d2) * d1);
      var (a, b, c) := Unflat3(d0, d2, d1, outer);
      Flat4Below(d0, d1, d2, d3, a, c, b, d);
      data[Flat4(d1, d2, d3, a, c, b, d)])
  }

  /** Concatenation along the first axis. */
  function Concatenate(parts: seq<seq<real>>): seq<real> {
    if parts == [] then [] else Concatenate(parts[..|parts| - 1]) + parts[|parts| - 1]
  }

  lemma {:induction false} ConcatenateAt(parts: seq<seq<real>>, n: nat, l: nat, i: nat)
    requires forall j :: 0 <= j < |parts| ==> |parts[j]| == n
    requires l < |parts| && i < n
    ensures |Concatenate(parts)| == |parts| * n
    ensures l * n + i < |parts| * n && Concatenate(parts)[l * n + i] == parts[l][i]
  {
    ConcatenateLength(parts, n);
    var m := |parts| - 1;
    ConcatenateLength(parts[..m], n);
    DigitsBelow(l, i, |parts|, n);
    if l < m {
      ConcatenateAt(parts[..m], n, l, i);
    }
  }

  lemma {:induction false} ConcatenateLength(parts: seq<seq<real>>, n: nat)
    requires forall j :: 0 <= j < |parts| ==> |parts[j]| == n
    ensures |Concatenate(parts)| == |parts| * n
  {
    if parts != [] {
      var m := |parts| - 1;
      ConcatenateLength(parts[..m], n);
      assert (m + 1) * n == m * n + n;
    }
  }

  // ------------------------------------------------------------- Extraction

  /** Heads and the size of one head; together they make the hidden size. */
  datatype Model = Model(heads: nat, headSize: nat)

  function Hidden(m: Model): nat { m.heads * m.headSize }

  /** The size of one layer's weights. */
  function LayerSize(m: Model): (n: nat)
    ensures n == Hidden(m) * Hidden(m)
  {
    MulMonotone(0, Hidden(m), Hidden(m));
    Hidden(m) * Hidden(m)
  }

  /** A square projection matrix, row by row. */
  predicate IsMatrix(m: Model, w: seq<real>) {
    |w| == LayerSize(m)
  }

  function At(m: Model, w: seq<real>, row: nat, col: nat): real
    requires IsMatrix(m, w) && row < Hidden(m) && col < Hidden(m)
  {
    DigitsBelow(row, col, Hidden(m), Hidden(m));
    w[row * Hidden(m) + col]
  }

  /** A query, key or value projection split by head, each head's block transposed. */
  function SplitHeads(m: Model, w: seq<real>): (r: seq<real>)
    requires IsMatrix(m, w)
    ensures |r| == (m.heads * Hidden(m)) * m.headSize
  {
    Transpose021(w, m.heads, m.headSize, Hidden(m))
  }

  lemma SplitHeadsAt(m: Model, w: seq<real>, h: nat, c: nat, s: nat)
    requires IsMatrix(m, w) && h < m.heads && c < Hidden(m) && s < m.headSize
    ensures Flat3(Hidden(m), m.headSize, h, c, s) < |SplitHeads(m, w)|
    ensures h * m.headSize + s < Hidden(m)
    ensures SplitHeads(m, w)[Flat3(Hidden(m), m.headSize, h, c, s)] == At(m, w, h * m.headSize + s, c)
  {
    Flat3Below(m.heads, Hidden(m), m.headSize, h, c, s);
    DigitsBelow(h, s, m.heads, m.headSize);
  }

  /** What the extraction collects for one projection: one block for each layer. */
  method ExtractProjection(m: Model, layers: seq<seq<real>>) returns (list: seq<seq<real>>)
    requires forall l :: 0 <= l < |layers| ==> IsMatrix(m, layers[l])
    ensures |list| == |layers|
    ensures forall l :: 0 <= l < |list| ==> list[l] == SplitHeads(m, layers[l])
  {
    list := [];
    for l := 0 to |layers|
      invariant |list| == l
      invariant forall j :: 0 <= j < l ==> list[j] == SplitHeads(m, layers[j])
    {
      list := list + [Transpose021(layers[l], m.heads, m.headSize, Hidden(m))];
    }
  }

  /** The restructuring before the hardware layer: heads moved behind the input axis, so that
      every layer is one matrix again. */
  function Restructure(m: Model, layers: nat, stacked: seq<real>): (r: seq<real>)
    requires |stacked| == ((layers * m.heads) * Hidden(m)) * m.headSize
    ensures |r| == ((layers * Hidden(m)) * m.heads) * m.headSize
  {
    Transpose0213(stacked, layers, m.heads, Hidden(m), m.headSize)
  }

  lemma StackedSize(m: Model, layers: nat)
    ensures layers * ((m.heads * Hidden(m)) * m.headSize) == ((layers * m.heads) * Hidden(m)) * m.headSize
    ensures ((layers * Hidden(m)) * m.heads) * m.headSize == layers * (Hidden(m) * Hidden(m))
  {
    var d := Hidden(m);
    assert layers * ((m.heads * d) * m.headSize) == (layers * (m.heads * d)) * m.headSize;
    assert layers * (m.heads * d) == (layers * m.heads) * d;
    assert ((layers * d) * m.heads) * m.headSize == (layers * d) * (m.heads * m.headSize);
    assert (layers * d) * d == layers * (d * d);
  }

  /** Flattened over layer, input column, head and position, the element is the one at layer,
      input column and output row `head * size + position`. */
  lemma RegroupRow(d: nat, heads: nat, size: nat, l: nat, c: nat, h: nat, s: nat)
    requires d == heads * size
    ensures Flat4(d, heads, size, l, c, h, s) == Flat3(d, d, l, c, h * size + s)
  {
    assert ((l * d + c) * heads + h) * size == (l * d + c) * (heads * size) + h * size;
  }

  lemma RegroupStack(d: nat, heads: nat, size: nat, l: nat, h: nat, c: nat, s: nat)
    ensures Flat4(heads, d, size, l, h, c, s) == l * ((heads * d) * size) + Flat3(d, size, h, c, s)
  {
    assert ((l * heads + h) * d + c) * size == (l * heads * d + (h * d + c)) * size;
    assert (l * heads * d) * size == l * ((heads * d) * size) by {
      assert (l * heads) * d == l * (heads * d);
      assert (l * (heads * d)) * size == l * ((heads * d) * size);
    }
    assert (l * heads * d + (h * d + c)) * size == (l * heads * d) * size + (h * d + c) * size;
  }

  /** Extracting, stacking and restructuring a query, key or value projection gives, for every
      layer, exactly the transpose of the original matrix. */
  lemma RestructuredIsTranspose(m: Model, layers: seq<seq<real>>, list: seq<seq<real>>, l: nat, row: nat, col: nat)
    requires forall j :: 0 <= j < |layers| ==> IsMatrix(m, layers[j])
    requires |list| == |layers| && forall j :: 0 <= j < |list| ==> list[j] == SplitHeads(m, layers[j])
    requires l < |layers| && row < Hidden(m) && col < Hidden(m)
    ensures |Concatenate(list)| == ((|layers| * m.heads) * Hidden(m)) * m.headSize
    ensures var out := Restructure(m, |layers|, Concatenate(list));
            var k := Flat3(Hidden(m), Hidden(m), l, col, row);
            k < |out| && out[k] == At(m, layers[l], row, col)
  {
    StackLength(m, layers, list);
    var (h, s) := Split2(row, m.headSize, m.heads);
    RestructuredAt(m, layers, list, l, h, s, col);
  }

  lemma StackLength(m: Model, layers: seq<seq<real>>, list: seq<seq<real>>)
    requires forall j :: 0 <= j < |layers| ==> IsMatrix(m, layers[j])
    requires |list| == |layers| && forall j :: 0 <= j < |list| ==> list[j] == SplitHeads(m, layers[j])
    ensures |Concatenate(list)| == ((|layers| * m.heads) * Hidden(m)) * m.headSize
  {
    StackedSize(m, |layers|);
    ConcatenateLength(list, (m.heads * Hidden(m)) * m.headSize);
  }

  lemma RestructuredAt(m: Model, layers: seq<seq<real>>, list: seq<seq<real>>, l: nat, h: nat, s: nat, c: nat)
    requires forall j :: 0 <= j < |layers| ==> IsMatrix(m, layers[j])
    requires |list| == |layers| && forall j :: 0 <= j < |list| ==> list[j] == SplitHeads(m, layers[j])
    requires |Concatenate(list)| == ((|layers| * m.heads) * Hidden(m)) * m.headSize
    requires l < |layers| && h < m.heads && s < m.headSize && c < Hidden(m)
    ensures h * m.headSize + s < Hidden(m)
    ensures var out := Restructure(m, |layers|, Concatenate(list));
            var k := Flat3(Hidden(m), Hidden(m), l, c, h * m.headSize + s);
            && k < |out|
            && out[k] == At(m, layers[l], h * m.headSize + s, c)
  {
    StackedAt(m, layers, list, l, h, c, s);
    RegroupRow(Hidden(m), m.heads, m.headSize, l, c, h, s);
    RestructureAt(m, |layers|, Concatenate(list), l, c, h, s);
  }

  /** After stacking, the element at layer, head, input column and position. */
  lemma StackedAt(m: Model, layers: seq<seq<real>>, list: seq<seq<real>>, l: nat, h: nat, c: nat, s: nat)
    requires forall j :: 0 <= j < |layers| ==> IsMatrix(m, layers[j])
    requires |list| == |layers| && forall j :: 0 <= j < |list| ==> list[j] == SplitHeads(m, layers[j])
    requires l < |layers| && h < m.heads && c < Hidden(m) && s < m.headSize
    ensures var k := Flat4(m.heads, Hidden(m), m.headSize, l, h, c, s);
            && h * m.headSize + s < Hidden(m)
            && k < |Concatenate(list)| && Concatenate(list)[k] == At(m, layers[l], h * m.headSize + s, c)
  {
    SplitHeadsAt(m, layers[l], h, c, s);
    ConcatenateAt(list, (m.heads * Hidden(m)) * m.headSize, l, Flat3(Hidden(m), m.headSize, h, c, s));
    RegroupStack(Hidden(m), m.heads, m.headSize, l, h, c, s);
  }

  lemma RestructureAt(m: Model, layers: nat, stacked: seq<real>, l: nat, c: nat, h: nat, s: nat)
    requires |stacked| == ((layers * m.heads) * Hidden(m)) * m.headSize
    requires l < layers && c < Hidden(m) && h < m.heads && s < m.headSize
    ensures Flat4(m.heads, Hidden(m), m.headSize, l, h, c, s) < |stacked|
    ensures var k := Flat4(Hidden(m), m.heads, m.headSize, l, c, h, s);
            && k < |Restructure(m, layers, stacked)|
            && Restructure(m, layers, stacked)[k] == stacked[Flat4(m.heads, Hidden(m), m.headSize, l, h, c, s)]
  {
    Flat4Below(layers, Hidden(m), m.heads, m.headSize, l, c, h, s);
    Flat4Below(layers, m.heads, Hidden(m), m.headSize, l, h, c, s);
    Flat3Below(layers, Hidden(m), m.heads, l, c, h);
  }

  // --------------------------------------------------------- Output projection

  /** The first position of a head within the concatenated heads. */
  function HeadStart(m: Model, h: nat): (n: nat)
    ensures n == h * m.headSize
  {
    MulMonotone(0, h, m.headSize);
    h * m.headSize
  }

  /** The first block of a layer within the stack. */
  function FirstBlock(m: Model, l: nat): (n: nat)
    ensures n == l * m.heads
  {
    MulMonotone(0, l, m.heads);
    l * m.heads
  }

  /** The size of the stacked weights. */
  function StackSize(m: Model, layers: nat): (n: nat)
    ensures n == layers * LayerSize(m)
  {
    MulMonotone(0, layers, LayerSize(m));
    layers * LayerSize(m)
  }

  /** The output projection, transposed and then cut into one block of rows for each head. */
  function SplitOutput(m: Model, w: seq<real>): (r: seq<real>)
    requires IsMatrix(m, w)
    ensures |r| == LayerSize(m)
  {
    seq(LayerSize(m), k requires 0 <= k < LayerSize(m) =>
      var (row, col) := Split2(k, Hidden(m), Hidden(m));
      At(m, w, col, row))
  }

  /** The sum of `f` over 0 to n-1. */
  function Sum(n: nat, f: nat -> real): real {
    if n == 0 then 0.0 else Sum(n - 1, f) + f(n - 1)
  }

  ghost predicate Agree(n: nat, f: nat -> real, g: nat -> real) {
    forall k: nat :: k < n ==> f(k) == g(k)
  }

  lemma {:induction false} SumAgrees(n: nat, f: nat -> real, g: nat -> real)
    requires Agree(n, f, g)
    ensures Sum(n, f) == Sum(n, g)
  {
    if n > 0 { SumAgrees(n - 1, f, g); }
  }

  /** `g` is `f` from `start` on. */
  ghost predicate Shifted(start: nat, n: nat, f: nat -> real, g: nat -> real) {
    forall k: nat :: k < n ==> g(k) == f(start + k)
  }

  lemma {:induction false} SumAppends(start: nat, n: nat, f: nat -> real, g: nat -> real)
    requires Shifted(start, n, f, g)
    ensures Sum(start + n, f) == Sum(start, f) + Sum(n, g)
  {
    if n > 0 { SumAppends(start, n - 1, f, g); }
  }

  /** Cutting a sum into `n` parts of equal size. */
  lemma {:induction false} SumOfParts(n: nat, size: nat, f: nat -> real, parts: nat -> real)
    requires forall h: nat :: h < n ==> Sum(h * size + size, f) == Sum(h * size, f) + parts(h)
    ensures 0 <= n * size && Sum(n * size, f) == Sum(n, parts)
  {
    if n > 0 {
      SumOfParts(n - 1, size, f, parts);
      TimesNext(n - 1, size);
    }
  }

  /** One head's packet times its block of the output weights: entry `c` of the product. */
  function HeadProduct(m: Model, x: seq<real>, o: seq<real>, h: nat, c: nat): real
    requires |x| == m.headSize && |o| == LayerSize(m) && h < m.heads && c < Hidden(m)
  {
    Sum(m.headSize, HeadTerm(m, x, o, h, c))
  }

  function HeadTerm(m: Model, x: seq<real>, o: seq<real>, h: nat, c: nat): nat -> real
    requires |x| == m.headSize && |o| == LayerSize(m) && h < m.heads && c < Hidden(m)
  {
    (s: nat) => if s < m.headSize then x[s] * OutputAt(m, o, h, s, c) else 0.0
  }

  function OutputAt(m: Model, o: seq<real>, h: nat, s: nat, c: nat): real
    requires |o| == LayerSize(m) && h < m.heads && s < m.headSize && c < Hidden(m)
  {
    DigitsBelow(h, s, m.heads, m.headSize);
    DigitsBelow(HeadStart(m, h) + s, c, Hidden(m), Hidden(m));
    o[Flat3(m.headSize, Hidden(m), h, s, c)]
  }

  /** The packets of all heads, one after the other. */
  function Concatenated(m: Model, xs: seq<seq<real>>, k: nat): real
    requires |xs| == m.heads && forall h :: 0 <= h < m.heads ==> |xs[h]| == m.headSize
    requires k < Hidden(m)
  {
    var (h, s) := Split2(k, m.headSize, m.heads);
    xs[h][s]
  }

  /** Entry `c` of the concatenated heads times the transposed output projection. */
  function FullProduct(m: Model, xs: seq<seq<real>>, w: seq<real>, c: nat): real
    requires |xs| == m.heads && forall h :: 0 <= h < m.heads ==> |xs[h]| == m.headSize
    requires IsMatrix(m, w) && c < Hidden(m)
  {
    Sum(Hidden(m), FullTerm(m, xs, w, c))
  }

  function FullTerm(m: Model, xs: seq<seq<real>>, w: seq<real>, c: nat): nat -> real
    requires |xs| == m.heads && forall h :: 0 <= h < m.heads ==> |xs[h]| == m.headSize
    requires IsMatrix(m, w) && c < Hidden(m)
  {
    (k: nat) => if k < Hidden(m) then Concatenated(m, xs, k) * At(m, w, c, k) else 0.0
  }

  lemma OutputBlock(m: Model, w: seq<real>, h: nat, s: nat, c: nat)
    requires IsMatrix(m, w) && h < m.heads && s < m.headSize && c < Hidden(m)
    ensures HeadStart(m, h) + s < Hidden(m)
    ensures OutputAt(m, SplitOutput(m, w), h, s, c) == At(m, w, c, HeadStart(m, h) + s)
  {
    DigitsBelow(h, s, m.heads, m.headSize);
    DigitsBelow(HeadStart(m, h) + s, c, Hidden(m), Hidden(m));
  }

  /** The products of the heads' packets with the blocks of one layer, entry `c`. */
  function HeadProducts(m: Model, xs: seq<seq<real>>, o: seq<real>, c: nat): nat -> real
    requires |xs| == m.heads && forall h :: 0 <= h < m.heads ==> |xs[h]| == m.headSize
    requires |o| == LayerSize(m) && c < Hidden(m)
  {
    (h: nat) => if h < m.heads then HeadProduct(m, xs[h], o, h, c) else 0.0
  }

  lemma TermsMatch(m: Model, xs: seq<seq<real>>, w: seq<real>, c: nat, h: nat, s: nat)
    requires |xs| == m.heads && forall h :: 0 <= h < m.heads ==> |xs[h]| == m.headSize
    requires IsMatrix(m, w) && c < Hidden(m) && h < m.heads && s < m.headSize
    ensures HeadTerm(m, xs[h], SplitOutput(m, w), h, c)(s) == FullTerm(m, xs, w, c)(HeadStart(m, h) + s)
  {
    OutputBlock(m, w, h, s, c);
    DigitsBelow(h, s, m.heads, m.headSize);
    var k := HeadStart(m, h) + s;
    assert Concatenated(m, xs, k) == xs[h][s];
  }

  lemma TermsShift(m: Model, xs: seq<seq<real>>, w: seq<real>, c: nat, h: nat)
    requires |xs| == m.heads && forall h :: 0 <= h < m.heads ==> |xs[h]| == m.headSize
    requires IsMatrix(m, w) && c < Hidden(m) && h < m.heads
    ensures Shifted(HeadStart(m, h), m.headSize, FullTerm(m, xs, w, c), HeadTerm(m, xs[h], SplitOutput(m, w), h, c))
  {
    var start := HeadStart(m, h);
    var f, g := FullTerm(m, xs, w, c), HeadTerm(m, xs[h], SplitOutput(m, w), h, c);
    forall s: nat | s < m.headSize ensures g(s) == f(start + s) {
      TermsMatch(m, xs, w, c, h, s);
    }
  }

  lemma HeadStep(m: Model, xs: seq<seq<real>>, w: seq<real>, c: nat, h: nat)
    requires |xs| == m.heads && forall h :: 0 <= h < m.heads ==> |xs[h]| == m.headSize
    requires IsMatrix(m, w) && c < Hidden(m) && h < m.heads
    ensures Sum(HeadStart(m, h) + m.headSize, FullTerm(m, xs, w, c))
         == Sum(HeadStart(m, h), FullTerm(m, xs, w, c)) + HeadProducts(m, xs, SplitOutput(m, w), c)(h)
  {
    TermsShift(m, xs, w, c, h);
    SumAppends(HeadStart(m, h), m.headSize, FullTerm(m, xs, w, c), HeadTerm(m, xs[h], SplitOutput(m, w), h, c));
  }

  /** One layer: the per-head products with its reshaped output weights add up to the concatenated
      heads times its transposed output projection. */
  lemma LayerProjectionCorrect(m: Model, xs: seq<seq<real>>, w: seq<real>, c: nat)
    requires |xs| == m.heads && forall h :: 0 <= h < m.heads ==> |xs[h]| == m.headSize
    requires IsMatrix(m, w) && c < Hidden(m)
    ensures Sum(m.heads, HeadProducts(m, xs, SplitOutput(m, w), c)) == FullProduct(m, xs, w, c)
  {
    var f, parts := FullTerm(m, xs, w, c), HeadProducts(m, xs, SplitOutput(m, w), c);
    forall h: nat | h < m.heads
      ensures Sum(HeadStart(m, h) + m.headSize, f) == Sum(HeadStart(m, h), f) + parts(h)
    {
      HeadStep(m, xs, w, c, h);
    }
    SumOfParts(m.heads, m.headSize, f, parts);
  }

  // ------------------------------------------------ The blocks of all layers

  /** What the extraction collects for the output projection: one block for each layer. */
  method ExtractOutput(m: Model, layers: seq<seq<real>>) returns (list: seq<seq<real>>)
    requires forall l :: 0 <= l < |layers| ==> IsMatrix(m, layers[l])
    ensures |list| == |layers| && forall l :: 0 <= l < |list| ==> list[l] == SplitOutput(m, layers[l])
  {
    list := [];
    for l := 0 to |layers|
      invariant |list| == l
      invariant forall j :: 0 <= j < l ==> list[j] == SplitOutput(m, layers[j])
    {
      list := list + [SplitOutput(m, layers[l])];
    }
  }

  /** Block number `layer * heads + head` of the stack is the head's block of the layer. */
  lemma BlockIndex(m: Model, layers: nat, l: nat, h: nat, s: nat, c: nat)
    requires l < layers && h < m.heads && s < m.headSize && c < Hidden(m)
    ensures var inner := Flat3(m.headSize, Hidden(m), h, s, c);
      && inner < LayerSize(m)
      && Flat3(m.headSize, Hidden(m), FirstBlock(m, l) + h, s, c) == StackSize(m, l) + inner
      && StackSize(m, l) + inner < StackSize(m, layers)
  {
    DigitsBelow(h, s, m.heads, m.headSize);
    DigitsBelow(HeadStart(m, h) + s, c, Hidden(m), Hidden(m));
    DigitsBelow(l, Flat3(m.headSize, Hidden(m), h, s, c), layers, LayerSize(m));
    Regroup(l, m.heads, h, m.headSize, s, Hidden(m), c);
  }

  lemma Regroup(l: nat, heads: nat, h: nat, size: nat, s: nat, d: nat, c: nat)
    requires d == heads * size
    ensures ((l * heads + h) * size + s) * d + c == l * (d * d) + ((h * size + s) * d + c)
  {
    assert (l * heads + h) * size == l * d + h * size;
    assert (l * d + (h * size + s)) * d == l * (d * d) + (h * size + s) * d;
  }

  /** The weight of block `block` at row `s` and column `c`. */
  function StackedOutputAt(m: Model, layers: nat, stacked: seq<real>, block: nat, s: nat, c: nat): real
    requires |stacked| == StackSize(m, layers) && block < FirstBlock(m, layers) && s < m.headSize && c < Hidden(m)
  {
    var (l, h) := Split2(block, m.heads, layers);
    BlockIndex(m, layers, l, h, s, c);
    stacked[Flat3(m.headSize, Hidden(m), block, s, c)]
  }

  function BlockTerm(m: Model, layers: nat, x: seq<real>, stacked: seq<real>, block: nat, c: nat): nat -> real
    requires |x| == m.headSize && |stacked| == StackSize(m, layers) && block < FirstBlock(m, layers) && c < Hidden(m)
  {
    (s: nat) => if s < m.headSize then x[s] * StackedOutputAt(m, layers, stacked, block, s, c) else 0.0
  }

  /** One packet times one block of the stack: entry `c` of the product. */
  function BlockProduct(m: Model, layers: nat, x: seq<real>, stacked: seq<real>, block: nat, c: nat): real
    requires |x| == m.headSize && |stacked| == StackSize(m, layers) && block < FirstBlock(m, layers) && c < Hidden(m)
  {
    Sum(m.headSize, BlockTerm(m, layers, x, stacked, block, c))
  }

  /** The products of the packets, block by block from `start` on. */
  function BlockProducts(m: Model, layers: nat, xs: seq<seq<real>>, stacked: seq<real>, start: nat, c: nat): nat -> real
    requires |xs| == m.heads && forall h :: 0 <= h < m.heads ==> |xs[h]| == m.headSize
    requires |stacked| == StackSize(m, layers) && start + m.heads <= FirstBlock(m, layers) && c < Hidden(m)
  {
    (h: nat) => if h < m.heads then BlockProduct(m, layers, xs[h], stacked, start + h, c) else 0.0
  }

  /** The multiplication takes the next block for every packet and starts over after the last one;
      the accumulator adds the products of as many packets as there are heads. */
  method Accumulate(m: Model, layers: nat, xs: seq<seq<real>>, stacked: seq<real>, start: nat, c: nat)
    returns (total: real, next: nat)
    requires |xs| == m.heads && forall h :: 0 <= h < m.heads ==> |xs[h]| == m.headSize
    requires |stacked| == StackSize(m, layers) && start + m.heads <= FirstBlock(m, layers) && c < Hidden(m)
    ensures total == Sum(m.heads, BlockProducts(m, layers, xs, stacked, start, c))
    ensures next == if start + m.heads == FirstBlock(m, layers) then 0 else start + m.heads
  {
    ghost var products := BlockProducts(m, layers, xs, stacked, start, c);
    total, next := 0.0, start;
    for h := 0 to m.heads
      invariant total == Sum(h, products)
      invariant next == if h > 0 && start + h == FirstBlock(m, layers) then 0 else start + h
    {
      total := total + BlockProduct(m, layers, xs[h], stacked, next, c);
      next := if next + 1 == FirstBlock(m, layers) then 0 else next + 1;
    }
  }

  /** The block the run has arrived at for a token and layer, when every packet so far took one. */
  lemma BlockForLayer(layers: nat, heads: nat, t: nat, l: nat, h: nat)
    requires l < layers && h < heads
    ensures layers * heads > 0 && ((t * layers + l) * heads + h) % (layers * heads) == l * heads + h
  {
    DigitsBelow(l, h, layers, heads);
    assert (t * layers + l) * heads == t * (layers * heads) + l * heads;
    DivModUnique((t * layers + l) * heads + h, layers * heads, t, l * heads + h);
  }

  lemma StackedOutputIs(m: Model, layers: nat, stacked: seq<real>, l: nat, h: nat, s: nat, c: nat)
    requires |stacked| == StackSize(m, layers)
    requires l < layers && h < m.heads && s < m.headSize && c < Hidden(m)
    ensures FirstBlock(m, l) + h < FirstBlock(m, layers)
    ensures var k := StackSize(m, l) + Flat3(m.headSize, Hidden(m), h, s, c);
      && k < |stacked| && StackedOutputAt(m, layers, stacked, FirstBlock(m, l) + h, s, c) == stacked[k]
  {
    DigitsBelow(l, h, layers, m.heads);
    BlockIndex(m, layers, l, h, s, c);
  }

  /** Stacking keeps the blocks: a block of the stack is the one of its layer and head. */
  lemma BlockKept(m: Model, weights: seq<seq<real>>, list: seq<seq<real>>, l: nat, h: nat, s: nat, c: nat)
    requires Stacked(m, weights, list)
    requires l < |weights| && h < m.heads && s < m.headSize && c < Hidden(m)
    ensures |Concatenate(list)| == StackSize(m, |weights|) && FirstBlock(m, l) + h < FirstBlock(m, |weights|)
    ensures StackedOutputAt(m, |weights|, Concatenate(list), FirstBlock(m, l) + h, s, c)
         == OutputAt(m, SplitOutput(m, weights[l]), h, s, c)
  {
    ConcatenateLength(list, LayerSize(m));
    StackedOutputIs(m, |weights|, Concatenate(list), l, h, s, c);
    BlockIndex(m, |weights|, l, h, s, c);
    ConcatenateAt(list, LayerSize(m), l, Flat3(m.headSize, Hidden(m), h, s, c));
  }

  ghost predicate Stacked(m: Model, weights: seq<seq<real>>, list: seq<seq<real>>) {
    && (forall j :: 0 <= j < |weights| ==> IsMatrix(m, weights[j]))
    && |list| == |weights| && forall j :: 0 <= j < |list| ==> list[j] == SplitOutput(m, weights[j])
  }

  lemma StackSizes(m: Model, weights: seq<seq<real>>, list: seq<seq<real>>, l: nat)
    requires Stacked(m, weights, list) && l < |weights|
    ensures |Concatenate(list)| == StackSize(m, |weights|) && FirstBlock(m, l) + m.heads <= FirstBlock(m, |weights|)
  {
    ConcatenateLength(list, LayerSize(m));
    LastBlock(l, |weights|, m.heads);
  }

  lemma BlockTermIs(m: Model, layers: nat, stacked: seq<real>, x: seq<real>, block: nat,
                    o: seq<real>, h: nat, c: nat, s: nat)
    requires |stacked| == StackSize(m, layers) && block < FirstBlock(m, layers) && |x| == m.headSize
    requires |o| == LayerSize(m) && h < m.heads && c < Hidden(m) && s < m.headSize
    requires StackedOutputAt(m, layers, stacked, block, s, c) == OutputAt(m, o, h, s, c)
    ensures BlockTerm(m, layers, x, stacked, block, c)(s) == HeadTerm(m, x, o, h, c)(s)
  {
  }

  lemma BlockTermsAgree(m: Model, weights: seq<seq<real>>, list: seq<seq<real>>, x: seq<real>, l: nat, h: nat, c: nat)
    requires Stacked(m, weights, list) && |x| == m.headSize && l < |weights| && h < m.heads && c < Hidden(m)
    ensures |Concatenate(list)| == StackSize(m, |weights|) && FirstBlock(m, l) + h < FirstBlock(m, |weights|)
    ensures Agree(m.headSize, BlockTerm(m, |weights|, x, Concatenate(list), FirstBlock(m, l) + h, c),
                  HeadTerm(m, x, SplitOutput(m, weights[l]), h, c))
  {
    StackSizes(m, weights, list, l);
    var stacked, o, block := Concatenate(list), SplitOutput(m, weights[l]), FirstBlock(m, l) + h;
    var f, g := BlockTerm(m, |weights|, x, stacked, block, c), HeadTerm(m, x, o, h, c);
    forall s: nat | s < m.headSize ensures f(s) == g(s) {
      BlockKept(m, weights, list, l, h, s, c);
      BlockTermIs(m, |weights|, stacked, x, block, o, h, c, s);
    }
  }

  lemma BlockProductIs(m: Model, weights: seq<seq<real>>, list: seq<seq<real>>, x: seq<real>, l: nat, h: nat, c: nat)
    requires Stacked(m, weights, list) && |x| == m.headSize && l < |weights| && h < m.heads && c < Hidden(m)
    ensures |Concatenate(list)| == StackSize(m, |weights|) && FirstBlock(m, l) + h < FirstBlock(m, |weights|)
    ensures BlockProduct(m, |weights|, x, Concatenate(list), FirstBlock(m, l) + h, c)
         == HeadProduct(m, x, SplitOutput(m, weights[l]), h, c)
  {
    BlockTermsAgree(m, weights, list, x, l, h, c);
    SumAgrees(m.headSize, BlockTerm(m, |weights|, x, Concatenate(list), FirstBlock(m, l) + h, c),
              HeadTerm(m, x, SplitOutput(m, weights[l]), h, c));
  }

  lemma ProductIs(m: Model, layers: nat, xs: seq<seq<real>>, stacked: seq<real>, start: nat, o: seq<real>, c: nat, h: nat)
    requires |xs| == m.heads && forall h :: 0 <= h < m.heads ==> |xs[h]| == m.headSize
    requires |stacked| == StackSize(m, layers) && start + m.heads <= FirstBlock(m, layers)
    requires |o| == LayerSize(m) && c < Hidden(m) && h < m.heads
    requires BlockProduct(m, layers, xs[h], stacked, start + h, c) == HeadProduct(m, xs[h], o, h, c)
    ensures BlockProducts(m, layers, xs, stacked, start, c)(h) == HeadProducts(m, xs, o, c)(h)
  {
  }

  lemma ProductsAgree(m: Model, xs: seq<seq<real>>, weights: seq<seq<real>>, list: seq<seq<real>>, l: nat, c: nat)
    requires |xs| == m.heads && forall h :: 0 <= h < m.heads ==> |xs[h]| == m.headSize
    requires Stacked(m, weights, list) && l < |weights| && c < Hidden(m)
    ensures |Concatenate(list)| == StackSize(m, |weights|) && FirstBlock(m, l) + m.heads <= FirstBlock(m, |weights|)
    ensures Agree(m.heads, BlockProducts(m, |weights|, xs, Concatenate(list), FirstBlock(m, l), c),
                  HeadProducts(m, xs, SplitOutput(m, weights[l]), c))
  {
    StackSizes(m, weights, list, l);
    var stacked, o, start := Concatenate(list), SplitOutput(m, weights[l]), FirstBlock(m, l);
    var f, g := BlockProducts(m, |weights|, xs, stacked, start, c), HeadProducts(m, xs, o, c);
    forall h: nat | h < m.heads ensures f(h) == g(h) {
      BlockProductIs(m, weights, list, xs[h], l, h, c);
      ProductIs(m, |weights|, xs, stacked, start, o, c, h);
    }
  }

  /** Extracting and stacking the output projections of all layers: for every layer, the products
      of its packets with the blocks they meet add up to the concatenated heads times the
      transposed output projection of that layer. */
  lemma OutputProjectionCorrect(m: Model, xs: seq<seq<real>>, weights: seq<seq<real>>, list: seq<seq<real>>, l: nat, c: nat)
    requires |xs| == m.heads && forall h :: 0 <= h < m.heads ==> |xs[h]| == m.headSize
    requires Stacked(m, weights, list) && l < |weights| && c < Hidden(m)
    ensures |Concatenate(list)| == StackSize(m, |weights|) && FirstBlock(m, l) + m.heads <= FirstBlock(m, |weights|)
    ensures Sum(m.heads, BlockProducts(m, |weights|, xs, Concatenate(list), FirstBlock(m, l), c))
         == FullProduct(m, xs, weights[l], c)
  {
    ProductsAgree(m, xs, weights, list, l, c);
    SumAgrees(m.heads, BlockProducts(m, |weights|, xs, Concatenate(list), FirstBlock(m, l), c),
              HeadProducts(m, xs, SplitOutput(m, weights[l]), c));
    LayerProjectionCorrect(m, xs, weights[l], c);
  }

  // --------------------------------------------------------- In plain numbers

  /** Element (layer, column, row) of the restructured stack is element (row, column) of the layer's
      own matrix; everything is laid out row by row. */
  lemma TransposeInNumbers(m: Model, layers: seq<seq<real>>, list: seq<seq<real>>, l: nat, row: nat, col: nat, k: nat, i: nat)
    requires forall j :: 0 <= j < |layers| ==> IsMatrix(m, layers[j])
    requires |list| == |layers| && forall j :: 0 <= j < |list| ==> list[j] == SplitHeads(m, layers[j])
    requires l < |layers| && row < m.heads * m.headSize && col < m.heads * m.headSize
    requires k == (l * (m.heads * m.headSize) + col) * (m.heads * m.headSize) + row
    requires i == row * (m.heads * m.headSize) + col
    ensures |Concatenate(list)| == ((|layers| * m.heads) * Hidden(m)) * m.headSize
    ensures var out := Restructure(m, |layers|, Concatenate(list));
            k < |out| && i < |layers[l]| && out[k] == layers[l][i]
  {
    RestructuredIsTranspose(m, layers, list, l, row, col);
    DigitsBelow(row, col, Hidden(m), Hidden(m));
  }

  /** Element (layer, head, position, row) of the stacked output weights is element (row, position
      of the head) of the layer's own matrix. */
  lemma OutputInNumbers(m: Model, weights: seq<seq<real>>, list: seq<seq<real>>, l: nat, h: nat, s: nat, c: nat, k: nat, i: nat)
    requires Stacked(m, weights, list)
    requires l < |weights| && h < m.heads && s < m.headSize && c < m.heads * m.headSize
    requires k == ((l * m.heads + h) * m.headSize + s) * (m.heads * m.headSize) + c
    requires i == c * (m.heads * m.headSize) + (h * m.headSize + s)
    ensures k < |Concatenate(list)| && i < |weights[l]| && Concatenate(list)[k] == weights[l][i]
  {
    BlockKept(m, weights, list, l, h, s, c);
    StackedOutputIs(m, |weights|, Concatenate(list), l, h, s, c);
    BlockIndex(m, |weights|, l, h, s, c);
    OutputBlock(m, weights[l], h, s, c);
    DigitsBelow(c, HeadStart(m, h) + s, Hidden(m), Hidden(m));
  }

  lemma {:induction false} SumRuns(n: nat, f: nat -> real) returns (terms: seq<real>, sums: seq<real>)
    ensures |terms| == n && RunningSums(terms, sums) && sums[n] == Sum(n, f)
    ensures forall k :: 0 <= k < n ==> terms[k] == f(k)
  {
    terms, sums := [], [0.0];
    if n > 0 {
      terms, sums := SumRuns(n - 1, f);
      terms, sums := terms + [f(n - 1)], sums + [Sum(n, f)];
    }
  }

  /** The term of head `h` and position `s`: its value times the matrix element it meets in row `c`. */
  ghost predicate IsTerm(m: Model, xs: seq<seq<real>>, w: seq<real>, c: nat, terms: seq<real>, h: nat, s: nat) {
    var k := h * m.headSize + s;
    var i := c * (m.heads * m.headSize) + k;
    0 <= k < |terms| && 0 <= i < |w| && h < |xs| && s < |xs[h]| && terms[k] == xs[h][s] * w[i]
  }

  lemma TermInNumbers(m: Model, xs: seq<seq<real>>, w: seq<real>, c: nat, terms: seq<real>, h: nat, s: nat)
    requires |xs| == m.heads && forall h :: 0 <= h < m.heads ==> |xs[h]| == m.headSize
    requires IsMatrix(m, w) && c < Hidden(m) && h < m.heads && s < m.headSize
    requires |terms| == Hidden(m) && forall k :: 0 <= k < Hidden(m) ==> terms[k] == FullTerm(m, xs, w, c)(k)
    ensures IsTerm(m, xs, w, c, terms, h, s)
  {
    DigitsBelow(h, s, m.heads, m.headSize);
    var k := h * m.headSize + s;
    DigitsBelow(c, k, Hidden(m), Hidden(m));
    assert Concatenated(m, xs, k) == xs[h][s];
  }

  /** Entry `c` of the product adds up, head by head and position by position, the packets times row
      `c` of the matrix. */
  lemma {:induction false} ProductInNumbers(m: Model, xs: seq<seq<real>>, w: seq<real>, c: nat)
    returns (terms: seq<real>, sums: seq<real>)
    requires |xs| == m.heads && forall h :: 0 <= h < m.heads ==> |xs[h]| == m.headSize
    requires IsMatrix(m, w) && c < Hidden(m)
    ensures |terms| == m.heads * m.headSize && RunningSums(terms, sums) && sums[|terms|] == FullProduct(m, xs, w, c)
    ensures forall h: nat, s: nat :: h < m.heads && s < m.headSize ==> IsTerm(m, xs, w, c, terms, h, s)
  {
    terms, sums := SumRuns(Hidden(m), FullTerm(m, xs, w, c));
    forall h: nat, s: nat | h < m.heads && s < m.headSize ensures IsTerm(m, xs, w, c, terms, h, s) {
      TermInNumbers(m, xs, w, c, terms, h, s);
    }
  }
}
