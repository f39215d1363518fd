/** The key/value cache: index tables over a flat memory, against the history they stand for. */
module KvCache {
  import opened Arithmetic

  // ------------------------------------------------------------ Row-major order

  /** The position of element (a, b, c) of a tensor of shape (?, db, dc) in row-major order. */
  function Flat3(db: nat, dc: nat, a: nat, b: nat, c: nat): nat {
    (a * db + b) * dc + c
  }

  /** The three indices of the element at flat position `k`. */
  function Unflat3(da: nat, db: nat, dc: nat, k: nat): (r: (nat, nat, nat))
    requires k < (da * db) * dc
    ensures r.0 < da && r.1 < db && r.2 < dc && Flat3(db, dc, r.0, r.1, r.2) == k
  {
    assert k < dc * (da * db);
    var (q, c) := Split2(k, dc, da * db);
    assert q < db * da;
    var (a, b) := Split2(q, db, da);
    (a, b, c)
  }

  lemma Flat3Below(da: nat, db: nat, dc: nat, a: nat, b: nat, c: nat)
    requires a < da && b < db && c < dc
    ensures Flat3(db, dc, a, b, c) < (da * db) * dc
    ensures Unflat3(da, db, dc, Flat3(db, dc, a, b, c)) == (a, b, c)
  {
    DigitsBelow(a, b, da, db);
    DigitsBelow(a * db + b, c, da * db, dc);
  }

  // ----------------------------------------------------------------- The tables

  /** Sequence length, layers and attention heads. */
  datatype Shape = Shape(tokens: nat, layers: nat, heads: nat)

  predicate NonEmpty(s: Shape) {
    s.tokens > 0 && s.layers > 0 && s.heads > 0
  }

  /** The packets of one layer: one for each head and token. */
  function BlockSize(s: Shape): (n: nat) {
    MulMonotone(0, s.heads, s.tokens);
    s.heads * s.tokens
  }

  /** Where a block holds a head's packet for a token. */
  function InBlock(s: Shape, h: nat, p: nat): (k: nat)
    requires h < s.heads && p < s.tokens
    ensures k < BlockSize(s)
  {
    DigitsBelow(h, p, s.heads, s.tokens);
    h * s.tokens + p
  }

  function Depth(s: Shape): (n: nat)
    ensures NonEmpty(s) ==> n > 0
  {
    if NonEmpty(s) then
      DigitsBelow(0, 0, s.tokens, s.layers);
      MulMonotone(1, s.tokens * s.layers, s.heads);
      (s.tokens * s.layers) * s.heads
    else (s.tokens * s.layers) * s.heads
  }

  lemma DepthReorders(s: Shape)
    ensures (s.layers * s.heads) * s.tokens == Depth(s)
    ensures s.layers * BlockSize(s) == Depth(s)
  {
    assert (s.tokens * s.layers) * s.heads == (s.layers * s.heads) * s.tokens;
  }

  /** The input table: 0, 1, 2, ... shaped (layers, heads, tokens), axes moved to
      (tokens, layers, heads), flattened again. */
  function InputRom(s: Shape, k: nat): (r: nat)
    requires k < Depth(s)
    ensures r < Depth(s)
  {
    var (t, l, h) := Unflat3(s.tokens, s.layers, s.heads, k);
    Flat3Below(s.layers, s.heads, s.tokens, l, h, t);
    DepthReorders(s);
    Flat3(s.heads, s.tokens, l, h, t)
  }

  /** The output table counts straight through. */
  function OutputRom(s: Shape, k: nat): nat
    requires k < Depth(s)
  {
    k
  }

  /** The table undone: the step of a run that writes memory cell `m`. */
  function WriterOf(s: Shape, m: nat): (k: nat)
    requires m < Depth(s)
    ensures k < Depth(s)
  {
    DepthReorders(s);
    var (l, h, t) := Unflat3(s.layers, s.heads, s.tokens, m);
    Flat3Below(s.tokens, s.layers, s.heads, t, l, h);
    Flat3(s.layers, s.heads, t, l, h)
  }

  /** Over a whole run every memory cell is written exactly once: the input table is a permutation. */
  lemma InputRomPermutes(s: Shape, x: nat)
    requires x < Depth(s)
    ensures InputRom(s, WriterOf(s, x)) == x
    ensures WriterOf(s, InputRom(s, x)) == x
  {
    DepthReorders(s);
    var (l, h, t) := Unflat3(s.layers, s.heads, s.tokens, x);
    Flat3Below(s.tokens, s.layers, s.heads, t, l, h);
    var (t', l', h') := Unflat3(s.tokens, s.layers, s.heads, x);
    Flat3Below(s.layers, s.heads, s.tokens, l', h', t');
  }

  /** The cell of a layer, head and token. */
  function CellOf(s: Shape, t: nat, l: nat, h: nat): (m: nat)
    requires t < s.tokens && l < s.layers && h < s.heads
    ensures m < Depth(s)
  {
    Flat3Below(s.layers, s.heads, s.tokens, l, h, t);
    DepthReorders(s);
    Flat3(s.heads, s.tokens, l, h, t)
  }

  lemma CellsDistinct(s: Shape, t: nat, l: nat, h: nat, t': nat, l': nat, h': nat)
    requires t < s.tokens && l < s.layers && h < s.heads && t' < s.tokens && l' < s.layers && h' < s.heads
    requires CellOf(s, t, l, h) == CellOf(s, t', l', h')
    ensures t == t' && l == l' && h == h'
  {
    Flat3Below(s.layers, s.heads, s.tokens, l, h, t);
    Flat3Below(s.layers, s.heads, s.tokens, l', h', t');
  }

  // ------------------------------------------------------------- The memory

  /** The loop iteration of a token and layer. */
  function Iteration(s: Shape, t: nat, l: nat): (n: nat)
    requires t < s.tokens && l < s.layers
    ensures n < s.tokens * s.layers
    ensures n / s.layers == t && n % s.layers == l
  {
    DigitsBelow(t, l, s.tokens, s.layers);
    t * s.layers + l
  }

  lemma TokenAndLayer(s: Shape, n: nat)
    requires n < s.tokens * s.layers
    ensures s.layers > 0 && n / s.layers < s.tokens && n % s.layers < s.layers
    ensures Iteration(s, n / s.layers, n % s.layers) == n
  {
    assert s.layers > 0;
    DivBelow(n, s.tokens, s.layers);
    assert n == s.layers * (n / s.layers) + n % s.layers;
  }

  /** In iteration `n` the table position is `n` times the packets of an iteration. */
  lemma WritePosition(s: Shape, t: nat, l: nat, h: nat)
    requires t < s.tokens && l < s.layers && h < s.heads
    ensures Iteration(s, t, l) * s.heads + h < Depth(s)
    ensures InputRom(s, Iteration(s, t, l) * s.heads + h) == CellOf(s, t, l, h)
  {
    Flat3Below(s.tokens, s.layers, s.heads, t, l, h);
  }

  /** The read position wraps to the start of the layer's block for every token. */
  lemma ReadPosition(s: Shape, t: nat, l: nat)
    requires t < s.tokens && l < s.layers && NonEmpty(s)
    ensures (Iteration(s, t, l) * BlockSize(s)) % Depth(s) == l * BlockSize(s)
    ensures l * BlockSize(s) + BlockSize(s) <= Depth(s)
  {
    DepthReorders(s);
    MulMonotone(1, s.heads, s.tokens);
    WrapsToRow(t, s.layers, l, BlockSize(s));
  }

  lemma WrapsToRow(t: nat, rows: nat, l: nat, b: nat)
    requires l < rows && b > 0
    ensures rows * b > 0 && ((t * rows + l) * b) % (rows * b) == l * b
    ensures l * b + b <= rows * b
  {
    LastBlock(l, rows, b);
    MulMonotone(0, l, b);
    assert (t * rows + l) * b == t * (rows * b) + l * b;
    DivModUnique((t * rows + l) * b, rows * b, t, l * b);
  }

  lemma BlockCell(s: Shape, t: nat, l: nat, h: nat)
    requires t < s.tokens && l < s.layers && h < s.heads
    ensures CellOf(s, t, l, h) == l * BlockSize(s) + InBlock(s, h, t)
  {
    assert (l * s.heads + h) * s.tokens == l * (s.heads * s.tokens) + h * s.tokens;
  }

  /** A table position: it starts over at the end. */
  function Wrapped(x: nat, d: nat): (r: nat)
    requires x <= d && d > 0
    ensures r == x % d < d
    ensures r == if x == d then 0 else x
  {
    DivModUnique(x, d, if x == d then 1 else 0, if x == d then 0 else x);
    x % d
  }

  /** One cache memory. In each iteration it stores one packet for each head at the next input
      positions, then emits one packet for each head and token at the next output positions; both
      tables start over when they are used up. */
  class CacheMemory<V(0)> {
    const shape: Shape
    var cells: array<V>
    var inPos: nat
    var outPos: nat

    ghost predicate Valid()
      reads this
    {
      NonEmpty(shape) && cells.Length == Depth(shape) && inPos < Depth(shape) && outPos < Depth(shape)
    }

    constructor (shape: Shape)
      requires NonEmpty(shape)
      ensures Valid() && fresh(cells) && this.shape == shape && inPos == 0 && outPos == 0
    {
      this.shape := shape;
      cells := new V[Depth(shape)];
      inPos, outPos := 0, 0;
    }

    method Store(packets: seq<V>)
      requires Valid() && |packets| == shape.heads
      requires inPos + shape.heads <= Depth(shape)
      modifies this`inPos, cells
      ensures Valid() && inPos == (old(inPos) + shape.heads) % Depth(shape)
      ensures forall m :: 0 <= m < cells.Length ==>
                var j := WriterOf(shape, m) - old(inPos);
                cells[m] == if 0 <= j < shape.heads then packets[j] else old(cells[m])
    {
      var first := inPos;
      for j := 0 to shape.heads
        invariant Valid() && inPos == Wrapped(first + j, Depth(shape))
        invariant forall m :: 0 <= m < cells.Length ==>
                    var i := WriterOf(shape, m) - first;
                    cells[m] == if 0 <= i < j then packets[i] else old(cells[m])
      {
        forall m: nat | m < Depth(shape) ensures InputRom(shape, first + j) == m <==> WriterOf(shape, m) == first + j {
          InputRomPermutes(shape, m);
          InputRomPermutes(shape, first + j);
        }
        cells[InputRom(shape, inPos)] := packets[j];
        inPos := Wrapped(inPos + 1, Depth(shape));
      }
    }

    method Emit() returns (block: seq<V>)
      requires Valid() && outPos + BlockSize(shape) <= Depth(shape)
      modifies this`outPos
      ensures Valid() && outPos == (old(outPos) + BlockSize(shape)) % Depth(shape)
      ensures block == cells[old(outPos)..old(outPos) + BlockSize(shape)]
    {
      var first, count := outPos, BlockSize(shape);
      block := [];
      for j := 0 to count
        invariant Valid() && outPos == Wrapped(first + j, Depth(shape))
        invariant block == cells[first..first + j]
      {
        block := block + [cells[OutputRom(shape, outPos)]];
        outPos := Wrapped(outPos + 1, Depth(shape));
      }
    }
  }

  // ------------------------------------------------------------------ A run

  /** Packets in, one sequence for each iteration: what each layer produced for each head. */
  ghost predicate IsRun<V>(s: Shape, inputs: seq<seq<V>>) {
    |inputs| == s.tokens * s.layers && forall n :: 0 <= n < |inputs| ==> |inputs[n]| == s.heads
  }

  /** The memory holds, for the first `n` iterations, exactly what was produced in them. */
  ghost predicate Remembers<V>(s: Shape, cells: seq<V>, inputs: seq<seq<V>>, n: nat)
    requires |cells| == Depth(s) && IsRun(s, inputs)
  {
    forall t: nat, l: nat, h: nat ::
      t < s.tokens && l < s.layers && h < s.heads && Iteration(s, t, l) < n ==>
        cells[CellOf(s, t, l, h)] == inputs[Iteration(s, t, l)][h]
  }

  /** The block read at token `t` of layer `l`: for every head and every token up to `t`, what
      the layer produced then. */
  ghost predicate BlockIsHistory<V>(s: Shape, inputs: seq<seq<V>>, block: seq<V>, t: nat, l: nat)
    requires IsRun(s, inputs) && t < s.tokens && l < s.layers
  {
    && |block| == BlockSize(s)
    && forall h: nat, p: nat :: h < s.heads && p <= t ==>
         block[InBlock(s, h, p)] == inputs[Iteration(s, p, l)][h]
  }

  /** In plain numbers: packet `h * tokens + p` of the block is what head `h` of the layer produced
      in the iteration of token `p`. */
  lemma HistoryInNumbers<V>(s: Shape, inputs: seq<seq<V>>, block: seq<V>, t: nat, l: nat, h: nat, p: nat, k: nat, n: nat)
    requires IsRun(s, inputs) && t < s.tokens && l < s.layers && BlockIsHistory(s, inputs, block, t, l)
    requires h < s.heads && p <= t && k == h * s.tokens + p && n == p * s.layers + l
    ensures k < |block| && n < |inputs| && h < |inputs[n]| && block[k] == inputs[n][h]
  {
    assert k == InBlock(s, h, p) && n == Iteration(s, p, l);
  }

  /** In plain numbers: the packet of head `h` in the iteration of token `t` and layer `l` goes to
      cell `(l * heads + h) * tokens + t`. */
  lemma TableInNumbers(s: Shape, t: nat, l: nat, h: nat, k: nat)
    requires t < s.tokens && l < s.layers && h < s.heads && k == (t * s.layers + l) * s.heads + h
    ensures k < Depth(s) == s.tokens * s.layers * s.heads && InputRom(s, k) == (l * s.heads + h) * s.tokens + t
  {
    Flat3Below(s.tokens, s.layers, s.heads, t, l, h);
  }

  /** The step of the run that writes a cell. */
  lemma WriterOfCell(s: Shape, t: nat, l: nat, h: nat)
    requires t < s.tokens && l < s.layers && h < s.heads
    ensures WriterOf(s, CellOf(s, t, l, h)) == Iteration(s, t, l) * s.heads + h
  {
    WritePosition(s, t, l, h);
    InputRomPermutes(s, Iteration(s, t, l) * s.heads + h);
  }

  lemma EarlierStep(i: nat, n: nat, h: nat, heads: nat)
    requires i <= n && h < heads
    ensures i < n ==> i * heads + h < n * heads
  {
    if i < n {
      MulMonotone(i + 1, n, heads);
      assert (i + 1) * heads == i * heads + heads;
    }
  }

  lemma StoreRemembers<V>(s: Shape, before: seq<V>, after: seq<V>, inputs: seq<seq<V>>, n: nat)
    requires IsRun(s, inputs) && n < |inputs| && |before| == |after| == Depth(s)
    requires Remembers(s, before, inputs, n)
    requires forall m :: 0 <= m < |after| ==>
               var j := WriterOf(s, m) - n * s.heads;
               after[m] == if 0 <= j < s.heads then inputs[n][j] else before[m]
    ensures Remembers(s, after, inputs, n + 1)
  {
    forall t: nat, l: nat, h: nat | t < s.tokens && l < s.layers && h < s.heads && Iteration(s, t, l) < n + 1
      ensures after[CellOf(s, t, l, h)] == inputs[Iteration(s, t, l)][h]
    {
      WriterOfCell(s, t, l, h);
      EarlierStep(Iteration(s, t, l), n, h, s.heads);
    }
  }

  lemma EmitCell(s: Shape, t: nat, l: nat, h: nat, p: nat)
    requires t < s.tokens && l < s.layers && h < s.heads && p <= t
    ensures Iteration(s, p, l) <= Iteration(s, t, l)
    ensures CellOf(s, p, l, h) == l * BlockSize(s) + InBlock(s, h, p)
  {
    BlockCell(s, p, l, h);
    MulMonotone(p, t, s.layers);
  }

  lemma EmitOne<V>(s: Shape, cells: seq<V>, inputs: seq<seq<V>>, t: nat, l: nat, h: nat, p: nat)
    requires NonEmpty(s) && IsRun(s, inputs) && |cells| == Depth(s)
    requires t < s.tokens && l < s.layers && h < s.heads && p <= t
    requires Remembers(s, cells, inputs, Iteration(s, t, l) + 1)
    ensures CellOf(s, p, l, h) == l * BlockSize(s) + InBlock(s, h, p)
    ensures cells[CellOf(s, p, l, h)] == inputs[Iteration(s, p, l)][h]
  {
    EmitCell(s, t, l, h, p);
  }

  lemma EmitIsHistory<V>(s: Shape, cells: seq<V>, inputs: seq<seq<V>>, t: nat, l: nat, first: nat)
    requires NonEmpty(s) && IsRun(s, inputs) && |cells| == Depth(s) && t < s.tokens && l < s.layers
    requires Remembers(s, cells, inputs, Iteration(s, t, l) + 1)
    requires first == l * BlockSize(s) && first + BlockSize(s) <= Depth(s)
    ensures BlockIsHistory(s, inputs, cells[first..first + BlockSize(s)], t, l)
  {
    var block := cells[first..first + BlockSize(s)];
    forall h: nat, p: nat | h < s.heads && p <= t
      ensures block[InBlock(s, h, p)] == inputs[Iteration(s, p, l)][h]
    {
      EmitOne(s, cells, inputs, t, l, h, p);
      assert block[InBlock(s, h, p)] == cells[first + InBlock(s, h, p)];
    }
  }

  /** The table positions at the start of an iteration, and after the last one. */
  lemma Positions(s: Shape, n: nat)
    requires NonEmpty(s) && n < s.tokens * s.layers
    ensures n * s.heads + s.heads <= Depth(s)
    ensures (n * s.heads + s.heads) % Depth(s) == if n + 1 == s.tokens * s.layers then 0 else (n + 1) * s.heads
  {
    MulMonotone(n + 1, s.tokens * s.layers, s.heads);
    assert (n + 1) * s.heads == n * s.heads + s.heads;
    if n + 1 == s.tokens * s.layers {
      DivModUnique(Depth(s), Depth(s), 1, 0);
    } else {
      MulMonotone(n + 2, s.tokens * s.layers, s.heads);
      assert (n + 2) * s.heads == (n + 1) * s.heads + s.heads;
      DivModUnique((n + 1) * s.heads, Depth(s), 0, (n + 1) * s.heads);
    }
  }

  lemma ReadAdvances(s: Shape, n: nat)
    requires NonEmpty(s)
    ensures ((n * BlockSize(s)) % Depth(s) + BlockSize(s)) % Depth(s) == ((n + 1) * BlockSize(s)) % Depth(s)
  {
    var b, d := BlockSize(s), Depth(s);
    var q, r := (n * b) / d, (n * b) % d;
    assert n * b == d * q + r;
    assert (n + 1) * b == n * b + b;
    var q', r' := (r + b) / d, (r + b) % d;
    assert r + b == d * q' + r';
    assert (n + 1) * b == (q + q') * d + r';
    DivModUnique((n + 1) * b, d, q + q', r');
  }

  lemma RunEnds(s: Shape)
    requires NonEmpty(s)
    ensures ((s.tokens * s.layers) * BlockSize(s)) % Depth(s) == 0
  {
    DepthReorders(s);
    var b := BlockSize(s);
    assert (s.tokens * s.layers) * b == s.tokens * (s.layers * b);
    DivModUnique((s.tokens * s.layers) * b, Depth(s), s.tokens, 0);
  }

  /** A whole run: tokens outermost, layers within. Every block agrees with the history, and both
      tables stand at their start again for the next run. */
  method RunCache<V(0)>(cache: CacheMemory<V>, inputs: seq<seq<V>>) returns (blocks: seq<seq<V>>)
    requires cache.Valid() && cache.inPos == 0 && cache.outPos == 0
    requires IsRun(cache.shape, inputs)
    modifies cache, cache.cells
    ensures cache.Valid() && cache.cells == old(cache.cells) && cache.inPos == 0 && cache.outPos == 0
    ensures Remembers(cache.shape, cache.cells[..], inputs, |inputs|)
    ensures |blocks| == |inputs|
    ensures forall t: nat, l: nat :: t < cache.shape.tokens && l < cache.shape.layers ==>
              BlockIsHistory(cache.shape, inputs, blocks[Iteration(cache.shape, t, l)], t, l)
  {
    var s := cache.shape;
    blocks := [];
    DivModUnique(0, Depth(s), 0, 0);
    for n := 0 to |inputs|
      invariant cache.Valid() && cache.shape == s && cache.cells == old(cache.cells)
      invariant cache.inPos == if n == |inputs| then 0 else n * s.heads
      invariant cache.outPos == (n * BlockSize(s)) % Depth(s)
      invariant Remembers(s, cache.cells[..], inputs, n)
      invariant |blocks| == n
      invariant forall t: nat, l: nat :: t < s.tokens && l < s.layers && Iteration(s, t, l) < n ==>
                  BlockIsHistory(s, inputs, blocks[Iteration(s, t, l)], t, l)
    {
      ghost var t, l := n / s.layers, n % s.layers;
      TokenAndLayer(s, n);
      Positions(s, n);
      ReadPosition(s, t, l);
      ReadAdvances(s, n);
      ghost var before := cache.cells[..];
      cache.Store(inputs[n]);
      StoreRemembers(s, before, cache.cells[..], inputs, n);
      var block := cache.Emit();
      EmitIsHistory(s, cache.cells[..], inputs, t, l, l * BlockSize(s));
      blocks := blocks + [block];
    }
    RunEnds(s);
  }
}
