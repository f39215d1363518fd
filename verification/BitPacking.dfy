/** Packing narrow elements into 64-bit words, beat by beat, and reading them back. */
module BitPacking {
  import opened Arithmetic

  // -------------------------------------------------------------------- Words

  /** A 64-bit word as its bits, least significant first. */
  type Word = w: seq<bool> | |w| == 64 witness seq(64, _ => false)

  function And(a: Word, b: Word): Word { seq(64, i requires 0 <= i < 64 => a[i] && b[i]) }

  function Or(a: Word, b: Word): Word { seq(64, i requires 0 <= i < 64 => a[i] || b[i]) }

  function Not(a: Word): Word { seq(64, i requires 0 <= i < 64 => !a[i]) }

  /** `a << k`, the bits beyond the word lost. */
  function ShiftLeft(a: Word, k: nat): Word { seq(64, i requires 0 <= i < 64 => k <= i && a[i - k]) }

  /** `a >> k` on an unsigned word. */
  function ShiftRight(a: Word, k: nat): Word { seq(64, i requires 0 <= i < 64 => i + k < 64 && a[i + k]) }

  /** `(1 << n) - 1`. */
  function LowMask(n: nat): Word { seq(64, i requires 0 <= i < 64 => i < n) }

  // ------------------------------------------------------- Words as numbers

  function Pow2(n: nat): nat { if n == 0 then 1 else 2 * Pow2(n - 1) }

  /** The number the bits stand for. */
  function Value(bits: seq<bool>): nat {
    if bits == [] then 0 else (if bits[0] then 1 else 0) + 2 * Value(bits[1..])
  }

  lemma {:induction false} ValueBound(bits: seq<bool>)
    ensures Value(bits) < Pow2(|bits|)
  {
    if bits != [] { ValueBound(bits[1..]); }
  }

  lemma {:induction false} Pow2Add(m: nat, n: nat)
    ensures Pow2(m + n) == Pow2(m) * Pow2(n)
    ensures Pow2(m) > 0
  {
    if m > 0 {
      Pow2Add(m - 1, n);
      assert Pow2(m) * Pow2(n) == 2 * (Pow2(m - 1) * Pow2(n));
    }
  }

  lemma DoubledStep(bit: nat, low: nat, p: nat, q: nat, v: nat)
    requires p == 2 * q
    ensures bit + 2 * (low + q * v) == (bit + 2 * low) + p * v
  {
    assert p * v == 2 * (q * v);
  }

  lemma {:induction false} ValueAppend(low: seq<bool>, high: seq<bool>)
    ensures Value(low + high) == Value(low) + Pow2(|low|) * Value(high)
  {
    if low == [] {
      assert low + high == high;
    } else {
      ValueAppend(low[1..], high);
      assert (low + high)[1..] == low[1..] + high;
      DoubledStep(if low[0] then 1 else 0, Value(low[1..]), Pow2(|low|), Pow2(|low| - 1), Value(high));
    }
  }

  lemma {:induction false} ValueZeros(n: nat)
    ensures Value(seq(n, _ => false)) == 0
  {
    if n > 0 {
      ValueZeros(n - 1);
      assert seq(n, _ => false)[1..] == seq(n - 1, _ => false);
    }
  }

  lemma {:induction false} ValueOnes(n: nat)
    ensures Value(seq(n, _ => true)) == Pow2(n) - 1
  {
    if n > 0 {
      ValueOnes(n - 1);
      assert seq(n, _ => true)[1..] == seq(n - 1, _ => true);
    }
  }

  lemma ZerosAbove(low: seq<bool>, n: nat)
    ensures Value(low + seq(n, _ => false)) == Value(low)
  {
    ValueZeros(n);
    ValueAppend(low, seq(n, _ => false));
  }

  /** The mask is the number `2^n - 1`. */
  lemma LowMaskValue(n: nat)
    requires n <= 64
    ensures Value(LowMask(n)) == Pow2(n) - 1
  {
    var ones := seq(n, _ => true);
    assert LowMask(n) == ones + seq(64 - n, _ => false);
    ValueOnes(n);
    ZerosAbove(ones, 64 - n);
  }

  lemma ShiftOutHigh(low: nat, high: nat, kept: nat, shifted: nat, all: nat)
    requires kept * shifted == all
    ensures (low + kept * high) * shifted == high * all + shifted * low
  {
    assert (kept * high) * shifted == high * (kept * shifted);
  }

  /** Shifting left multiplies, modulo the word size. */
  lemma ShiftLeftValue(a: Word, k: nat)
    requires k < 64
    ensures Pow2(64) > 0 && Value(ShiftLeft(a, k)) == (Value(a) * Pow2(k)) % Pow2(64)
  {
    var low, high, zeros := a[..64 - k], a[64 - k..], seq(k, _ => false);
    assert a == low + high;
    assert ShiftLeft(a, k) == zeros + low;
    ValueAppend(low, high);
    ValueZeros(k);
    ValueAppend(zeros, low);
    Pow2Add(64 - k, k);
    ValueBound(ShiftLeft(a, k));
    ShiftOutHigh(Value(low), Value(high), Pow2(64 - k), Pow2(k), Pow2(64));
    DivModUnique(Value(a) * Pow2(k), Pow2(64), Value(high), Pow2(k) * Value(low));
  }

  lemma TopBitsValue(a: Word, k: nat)
    requires k < 64
    ensures Value(ShiftRight(a, k)) == Value(a[k..])
  {
    assert ShiftRight(a, k) == a[k..] + seq(k, _ => false);
    ZerosAbove(a[k..], k);
  }

  lemma DivideOut(low: nat, d: nat, high: nat)
    requires low < d
    ensures (low + d * high) / d == high
  {
    DivModUnique(low + d * high, d, high, low);
  }

  lemma SplitValue(low: seq<bool>, high: seq<bool>)
    ensures Pow2(|low|) > 0 && Value(high) == Value(low + high) / Pow2(|low|)
  {
    ValueAppend(low, high);
    ValueBound(low);
    DivideOut(Value(low), Pow2(|low|), Value(high));
  }

  /** Shifting right divides. */
  lemma ShiftRightValue(a: Word, k: nat)
    requires k < 64
    ensures Pow2(k) > 0 && Value(ShiftRight(a, k)) == Value(a) / Pow2(k)
  {
    TopBitsValue(a, k);
    SplitValue(a[..k], a[k..]);
    assert a == a[..k] + a[k..];
  }

  // ------------------------------------------------------------------- Layout

  /** `busBits` bits travel in one beat; a packet is `subVectors` groups of `lanes` elements. */
  datatype Layout = Layout(busBits: nat, width: nat, lanes: nat, subVectors: nat)

  /** At least one whole group fits into a beat, and a beat is a whole number of words. */
  predicate Supported(l: Layout) {
    && 1 <= l.width <= 63
    && 1 <= l.lanes
    && l.width * l.lanes <= l.busBits
    && l.busBits % 64 == 0
  }

  function PerBus(l: Layout): (n: nat)
    requires Supported(l)
    ensures n >= 1 && l.width * l.lanes * n <= l.busBits
  {
    MulMonotone(1, l.lanes, l.width);
    var n := l.busBits / (l.width * l.lanes);
    assert l.busBits == (l.width * l.lanes) * n + l.busBits % (l.width * l.lanes);
    n
  }

  function Elements(l: Layout): nat { l.subVectors * l.lanes }

  /** How many elements share one beat. */
  function PerBeat(l: Layout): (n: nat)
    requires Supported(l)
    ensures n >= 1
  {
    MulMonotone(1, PerBus(l), l.lanes);
    l.lanes * PerBus(l)
  }

  function Pad(l: Layout): nat
    requires Supported(l)
  {
    l.busBits - l.width * l.lanes * PerBus(l)
  }

  /** The padding bits of so many whole beats. */
  function Padding(l: Layout, beats: nat): (bits: nat)
    requires Supported(l)
  {
    if beats == 0 then 0 else Padding(l, beats - 1) + Pad(l)
  }

  lemma {:induction false} PaddingIs(l: Layout, beats: nat)
    requires Supported(l)
    ensures Padding(l, beats) == Pad(l) * beats
  {
    if beats > 0 {
      PaddingIs(l, beats - 1);
      TimesNext(beats - 1, Pad(l));
    }
  }

  /** The beat an element travels in. */
  function Beat(l: Layout, i: nat): (q: nat)
    requires Supported(l)
    ensures q == i / l.lanes / PerBus(l)
  {
    SplitTwice(i, l.lanes, PerBus(l));
    i / PerBeat(l)
  }

  /** The first bit of element `i` within its packet. */
  function BitPos(l: Layout, i: nat): nat
    requires Supported(l)
  {
    MulMonotone(0, i, l.width);
    l.width * i + Padding(l, Beat(l, i))
  }

  function Beats(l: Layout): nat
    requires Supported(l)
  {
    CeilDiv(l.subVectors, PerBus(l))
  }

  function WordsPerPacket(l: Layout): nat
    requires Supported(l)
  {
    Beats(l) * (l.busBits / 64)
  }

  lemma WholeBeats(width: nat, e: nat, q: nat, r: nat, pad: nat)
    ensures width * (e * q + r) + pad * q == q * (width * e + pad) + r * width
  {
    assert width * (e * q + r) == q * (width * e) + r * width;
    assert q * (width * e + pad) == q * (width * e) + pad * q;
  }

  lemma MulAssociates(a: nat, b: nat, c: nat)
    ensures a * (b * c) == a * b * c
  {
  }

  lemma BeatWidth(l: Layout)
    requires Supported(l)
    ensures l.width * PerBeat(l) + Pad(l) == l.busBits
  {
    MulAssociates(l.width, l.lanes, PerBus(l));
  }

  /** Element `i` of group `s` travels in beat `s / PerBus`, directly behind its predecessor in the beat. */
  lemma BeatOf(l: Layout, i: nat)
    requires Supported(l)
    ensures i / PerBeat(l) == (i / l.lanes) / PerBus(l)
    ensures i % PerBeat(l) == ((i / l.lanes) % PerBus(l)) * l.lanes + i % l.lanes
    ensures BitPos(l, i) == (i / PerBeat(l)) * l.busBits + (i % PerBeat(l)) * l.width
    ensures (i % PerBeat(l)) * l.width + l.width <= l.busBits
  {
    SplitTwice(i, l.lanes, PerBus(l));
    var q, r, e := i / PerBeat(l), i % PerBeat(l), PerBeat(l);
    assert i == e * q + r;
    BeatWidth(l);
    PaddingIs(l, q);
    WholeBeats(l.width, e, q, r, Pad(l));
    LastBlock(r, e, l.width);
  }

  /** No element straddles two beats. */
  lemma NoStraddle(l: Layout, i: nat)
    requires Supported(l)
    ensures l.busBits > 0
    ensures BitPos(l, i) / l.busBits == (i / l.lanes) / PerBus(l)
    ensures (BitPos(l, i) + l.width - 1) / l.busBits == (i / l.lanes) / PerBus(l)
  {
    BeatOf(l, i);
    StaysInBlock(i / PerBeat(l), l.busBits, (i % PerBeat(l)) * l.width, l.width);
  }

  lemma StaysInBlock(q: nat, size: nat, at: nat, width: nat)
    requires 1 <= width && at + width <= size
    ensures (q * size + at) / size == q && (q * size + at + width - 1) / size == q
  {
    DivModUnique(q * size + at, size, q, at);
    DivModUnique(q * size + at + width - 1, size, q, at + width - 1);
  }

  lemma LinearApart(w: nat, pad: nat, i: nat, j: nat, p: nat, q: nat)
    requires i < j && p <= q
    ensures w * i + pad * p + w <= w * j + pad * q
  {
    MulMonotone(i + 1, j, w);
    MulMonotone(p, q, pad);
    assert (i + 1) * w == w * i + w;
  }

  /** Fields follow each other without overlap. */
  lemma FieldsApart(l: Layout, i: nat, j: nat)
    requires Supported(l) && i < j
    ensures BitPos(l, i) + l.width <= BitPos(l, j)
  {
    DivMonotone(i, j, PerBeat(l));
    PaddingIs(l, Beat(l, i));
    PaddingIs(l, Beat(l, j));
    LinearApart(l.width, Pad(l), i, j, Beat(l, i), Beat(l, j));
  }

  lemma RegroupBeats(beats: nat, perBus: nat, lanes: nat, subVectors: nat)
    requires subVectors <= beats * perBus
    ensures subVectors * lanes <= beats * (lanes * perBus)
  {
    MulMonotone(subVectors, beats * perBus, lanes);
    assert (beats * perBus) * lanes == beats * (lanes * perBus);
  }

  lemma BeatInPacket(l: Layout, i: nat)
    requires Supported(l) && i < Elements(l)
    ensures i / PerBeat(l) < Beats(l)
  {
    CeilDivCovers(l.subVectors, PerBus(l));
    RegroupBeats(Beats(l), PerBus(l), l.lanes, l.subVectors);
    DivBelow(i, Beats(l), PerBeat(l));
  }

  lemma PacketBits(l: Layout)
    requires Supported(l)
    ensures Beats(l) * l.busBits == 64 * WordsPerPacket(l)
  {
    var w := l.busBits / 64;
    assert l.busBits == 64 * w;
    assert Beats(l) * (64 * w) == 64 * (Beats(l) * w);
  }

  lemma EndsInBlock(q: nat, blocks: nat, size: nat, at: nat, width: nat)
    requires q < blocks && at + width <= size
    ensures q * size + at + width <= blocks * size
  {
    MulMonotone(q + 1, blocks, size);
    assert (q + 1) * size == q * size + size;
  }

  /** Every field of a packet ends within the packet's words. */
  lemma FieldInPacket(l: Layout, i: nat)
    requires Supported(l) && i < Elements(l)
    ensures BitPos(l, i) + l.width <= 64 * WordsPerPacket(l)
  {
    BeatOf(l, i);
    BeatInPacket(l, i);
    PacketBits(l);
    EndsInBlock(i / PerBeat(l), Beats(l), l.busBits, (i % PerBeat(l)) * l.width, l.width);
  }

  // --------------------------------------------------------------- One element

  /** Bit `p` of a run of words. */
  function BitAt(mem: seq<Word>, p: nat): bool
    requires p < 64 * |mem|
  {
    mem[p / 64][p % 64]
  }

  predicate Clean(v: Word, width: nat) {
    forall b :: width <= b < 64 ==> !v[b]
  }

  /** Writes one element at a bit offset, spilling into the next word when it does not fit. */
  method PutElement(packed: array<Word>, wordIndex: nat, bitOffset: nat, width: nat, value: Word)
    requires bitOffset < 64 && 1 <= width <= 63 && Clean(value, width)
    requires wordIndex < packed.Length && (bitOffset + width > 64 ==> wordIndex + 1 < packed.Length)
    modifies packed
    ensures forall j, b :: 0 <= j < packed.Length && 0 <= b < 64 ==>
              packed[j][b] == var k := 64 * (j - wordIndex) + b - bitOffset;
                              if 0 <= k < width then value[k] else old(packed[j][b])
  {
    var busMask := ShiftLeft(LowMask(width), bitOffset);
    packed[wordIndex] := And(packed[wordIndex], Not(busMask));
    packed[wordIndex] := Or(packed[wordIndex], ShiftLeft(value, bitOffset));
    if bitOffset + width > 64 {
      var spilloverBits := bitOffset + width - 64;
      var spilloverMask := LowMask(spilloverBits);
      packed[wordIndex + 1] := And(packed[wordIndex + 1], Not(spilloverMask));
      packed[wordIndex + 1] := Or(packed[wordIndex + 1], ShiftRight(value, width - spilloverBits));
    }
  }

  /** Reads one element back; the bits above the width are clear. */
  method GetElement(packed: seq<Word>, wordIndex: nat, bitOffset: nat, width: nat) returns (value: Word)
    requires bitOffset < 64 && 1 <= width <= 63
    requires wordIndex < |packed| && (bitOffset + width > 64 ==> wordIndex + 1 < |packed|)
    ensures Clean(value, width)
    ensures forall k :: 0 <= k < width ==> value[k] == BitAt(packed, 64 * wordIndex + bitOffset + k)
  {
    var busMask := ShiftLeft(LowMask(width), bitOffset);
    value := ShiftRight(And(packed[wordIndex], busMask), bitOffset);
    if bitOffset + width > 64 {
      var spilloverBits := bitOffset + width - 64;
      var spilloverMask := LowMask(spilloverBits);
      value := Or(value, ShiftLeft(And(packed[wordIndex + 1], spilloverMask), width - spilloverBits));
    }
  }

  // --------------------------------------------------------------- One packet

  /** A group boundary that is also a beat boundary, other than the start of the packet. */
  predicate AtBusBoundary(lanes: nat, perBus: nat, i: nat)
    requires lanes > 0 && perBus > 0
  {
    var lane, subVector := i % lanes, i / lanes + 1;
    subVector % perBus == 1 && lane == 0 && subVector != 1
  }

  /** How many beats the loop has padded before it looks at element `i`. */
  function BeatsPadded(lanes: nat, perBus: nat, i: nat): nat
    requires lanes > 0 && perBus > 0
  {
    if perBus == 1 then i / lanes
    else if i == 0 then 0
    else (i - 1) / lanes / perBus
  }

  /** The padding the loop has counted before it looks at element `i`. */
  function SkipBefore(l: Layout, i: nat): nat
    requires Supported(l)
  {
    Padding(l, BeatsPadded(l.lanes, PerBus(l), i))
  }

  lemma LastLane(i: nat, n: nat)
    requires n > 0
    ensures i % n == n - 1 <==> (i + 1) % n == 0
  {
    var q, r := i / n, i % n;
    assert i == n * q + r;
    if r == n - 1 {
      DivModUnique(i + 1, n, q + 1, 0);
    } else {
      DivModUnique(i + 1, n, q, r + 1);
    }
  }

  lemma NextResidue(s: nat, n: nat)
    requires n > 1
    ensures (s + 1) % n == 1 <==> s % n == 0
  {
    var q, r := s / n, s % n;
    assert s == n * q + r;
    if r + 1 < n {
      DivModUnique(s + 1, n, q, r + 1);
    } else {
      DivModUnique(s + 1, n, q + 1, 0);
    }
  }

  lemma QuotientBefore(i: nat, n: nat)
    requires n > 0 && i > 0
    ensures i / n == (i - 1) / n + if i % n == 0 then 1 else 0
  {
    DivStep(i - 1, n);
  }

  lemma Vanishes(i: nat, n: nat)
    requires n > 0 && i % n == 0 && i > 0
    ensures i / n > 0
  {
    assert i == n * (i / n);
  }

  /** At a bus boundary, and only there, the loop is one beat behind. */
  lemma BoundaryCatchesUp(lanes: nat, perBus: nat, i: nat)
    requires lanes > 0 && perBus > 1
    ensures BeatsPadded(lanes, perBus, i) + (if AtBusBoundary(lanes, perBus, i) then 1 else 0) == i / lanes / perBus
  {
    if i == 0 {
      DivModUnique(0, lanes, 0, 0);
      DivModUnique(0, perBus, 0, 0);
    } else {
      QuotientBefore(i, lanes);
      if i % lanes == 0 {
        Vanishes(i, lanes);
        QuotientBefore(i / lanes, perBus);
        NextResidue(i / lanes, perBus);
      }
    }
  }

  /** The loop's running count of padded beats is the one of the closed form. */
  lemma BeatsTracked(lanes: nat, perBus: nat, i: nat)
    requires lanes > 0 && perBus > 0
    ensures BeatsPadded(lanes, perBus, i) + (if AtBusBoundary(lanes, perBus, i) then 1 else 0) == i / lanes / perBus
    ensures i / lanes / perBus + (if i % lanes == lanes - 1 && perBus == 1 then 1 else 0) == BeatsPadded(lanes, perBus, i + 1)
  {
    if perBus == 1 {
      DivStep(i, lanes);
      LastLane(i, lanes);
    } else {
      BoundaryCatchesUp(lanes, perBus, i);
    }
  }

  /** The loop's running count of padding bits is the one of the closed form. */
  lemma SkipTracksBeats(l: Layout, i: nat)
    requires Supported(l)
    ensures SkipBefore(l, i) + (if AtBusBoundary(l.lanes, PerBus(l), i) then Pad(l) else 0) == Padding(l, Beat(l, i))
    ensures Padding(l, Beat(l, i)) + (if i % l.lanes == l.lanes - 1 && PerBus(l) == 1 then Pad(l) else 0)
         == SkipBefore(l, i + 1)
  {
    BeatsTracked(l.lanes, PerBus(l), i);
  }

  /** The packet at word `base` of `mem` holds exactly the elements of `input`. */
  ghost predicate Holds(l: Layout, mem: seq<Word>, base: nat, input: seq<Word>, n: nat)
    requires Supported(l) && n <= |input| <= Elements(l) && base + WordsPerPacket(l) <= |mem|
  {
    forall i, k :: 0 <= i < n && 0 <= k < l.width ==> FieldBit(l, mem, base, i, k) == input[i][k]
  }

  /** Bit `k` of element `i` of the packet at word `base`. */
  ghost predicate FieldBit(l: Layout, mem: seq<Word>, base: nat, i: nat, k: nat)
    requires Supported(l) && i < Elements(l) && k < l.width && base + WordsPerPacket(l) <= |mem|
  {
    FieldInPacket(l, i);
    BitAt(mem, 64 * base + BitPos(l, i) + k)
  }

  /** Bit `p` of the memory belongs to one of the first `n` elements of the packet at `base`. */
  ghost predicate Owned(l: Layout, base: nat, n: nat, p: int)
    requires Supported(l)
  {
    exists i :: 0 <= i < n && 0 <= p - 64 * base - BitPos(l, i) < l.width
  }

  /** Exactly `n` whole groups fit into a beat. */
  predicate Fits(l: Layout, n: nat) {
    l.width * l.lanes * n <= l.busBits < l.width * l.lanes * (n + 1)
  }

  /** Bit `k` of lane `j` of group `s`, with `n` groups to a beat: whole beats, whole groups of the
      beat begun, whole elements of the group begun. */
  ghost predicate PlacedAt(l: Layout, mem: seq<Word>, base: nat, input: seq<Word>, n: nat, s: nat, j: nat, k: nat)
    requires n > 0 && k < 64
  {
    var p := 64 * base + (s / n) * l.busBits + (s % n) * (l.width * l.lanes) + j * l.width + k;
    0 <= p < 64 * |mem| && s * l.lanes + j < |input| && BitAt(mem, p) == input[s * l.lanes + j][k]
  }

  /** Where the elements of the packet at word `base` stand, bit by bit. */
  ghost predicate Laid(l: Layout, mem: seq<Word>, base: nat, input: seq<Word>)
    requires Supported(l)
  {
    forall n: nat, s: nat, j: nat, k: nat :: Fits(l, n) && n > 0 && s < l.subVectors && j < l.lanes && k < l.width ==>
      PlacedAt(l, mem, base, input, n, s, j, k)
  }

  /** As many groups travel in a beat as fit. */
  lemma PerBusFits(l: Layout)
    requires Supported(l)
    ensures Fits(l, PerBus(l))
  {
    MulMonotone(1, l.lanes, l.width);
    var size, n := l.width * l.lanes, PerBus(l);
    assert l.busBits == size * n + l.busBits % size;
    TimesNext(n, size);
  }

  lemma FitsOnce(l: Layout, n: nat)
    requires Supported(l) && Fits(l, n)
    ensures n == PerBus(l)
  {
    var size, m := l.width * l.lanes, PerBus(l);
    PerBusFits(l);
    if n < m { MulMonotone(n + 1, m, size); }
    if m < n { MulMonotone(m + 1, n, size); }
  }

  lemma PlaceInBeat(width: nat, lanes: nat, g: nat, j: nat)
    ensures (g * lanes + j) * width == g * (width * lanes) + j * width
  {
    assert (g * lanes) * width == g * (width * lanes);
  }

  lemma HeldIsPlaced(l: Layout, mem: seq<Word>, base: nat, input: seq<Word>, n: nat, s: nat, j: nat, k: nat)
    requires Supported(l) && |input| == Elements(l) && base + WordsPerPacket(l) <= |mem|
    requires Holds(l, mem, base, input, |input|)
    requires Fits(l, n) && n > 0 && s < l.subVectors && j < l.lanes && k < l.width
    ensures PlacedAt(l, mem, base, input, n, s, j, k)
  {
    var i := s * l.lanes + j;
    FitsOnce(l, n);
    DigitsBelow(s, j, l.subVectors, l.lanes);
    FieldPosition(l, n, s, j);
    FieldInPacket(l, i);
    assert FieldBit(l, mem, base, i, k) == input[i][k];
  }

  lemma FieldPosition(l: Layout, n: nat, s: nat, j: nat)
    requires Supported(l) && n == PerBus(l) && j < l.lanes
    ensures s * l.lanes + j >= 0
    ensures BitPos(l, s * l.lanes + j) == (s / n) * l.busBits + (s % n) * (l.width * l.lanes) + j * l.width
  {
    DigitsBelow(s, j, s + 1, l.lanes);
    BeatOf(l, s * l.lanes + j);
    PlaceInBeat(l.width, l.lanes, s % n, j);
  }

  lemma HeldIsLaid(l: Layout, mem: seq<Word>, base: nat, input: seq<Word>)
    requires Supported(l) && |input| == Elements(l) && base + WordsPerPacket(l) <= |mem|
    requires Holds(l, mem, base, input, |input|)
    ensures Laid(l, mem, base, input)
  {
    forall n: nat, s: nat, j: nat, k: nat | Fits(l, n) && n > 0 && s < l.subVectors && j < l.lanes && k < l.width
      ensures PlacedAt(l, mem, base, input, n, s, j, k)
    {
      HeldIsPlaced(l, mem, base, input, n, s, j, k);
    }
  }

  /** A packet takes the fewest whole beats that hold its groups. */
  lemma PacketIsWholeBeats(l: Layout, n: nat) returns (beats: nat)
    requires Supported(l) && Fits(l, n)
    ensures 64 * WordsPerPacket(l) == beats * l.busBits
    ensures l.subVectors <= beats * n && (beats > 0 ==> (beats - 1) * n < l.subVectors)
  {
    FitsOnce(l, n);
    beats := Beats(l);
    PacketBits(l);
    CeilDivCovers(l.subVectors, n);
    if beats > 0 { TimesNext(beats - 1, n); }
  }

  /** Writes one packet. Bits outside the fields, padding included, keep their old value. */
  method PackData(l: Layout, input: seq<Word>, packed: array<Word>, base: nat)
    requires Supported(l) && |input| == Elements(l)
    requires forall i :: 0 <= i < |input| ==> Clean(input[i], l.width)
    requires base + WordsPerPacket(l) <= packed.Length
    modifies packed
    ensures Holds(l, packed[..], base, input, |input|) && Laid(l, packed[..], base, input)
    ensures forall p :: 0 <= p < 64 * packed.Length && !Owned(l, base, |input|, p) ==>
              BitAt(packed[..], p) == old(BitAt(packed[..], p))
  {
    var subVectorsPerBus := PerBus(l);
    var skipBits := 0;
    assert SkipBefore(l, 0) == 0;
    for i := 0 to |input|
      invariant skipBits == SkipBefore(l, i)
      invariant Holds(l, packed[..], base, input, i)
      invariant forall p :: 0 <= p < 64 * packed.Length && !Owned(l, base, i, p) ==>
                  BitAt(packed[..], p) == old(BitAt(packed[..], p))
    {
      var lane, subVector := i % l.lanes, i / l.lanes + 1;
      SkipTracksBeats(l, i);
      if subVector % subVectorsPerBus == 1 && lane == 0 && subVector != 1 {
        skipBits := skipBits + (l.busBits - l.width * l.lanes * subVectorsPerBus);
      }
      var bitOffset := (l.width * i + skipBits) % 64;
      var wordIndex := (l.width * i + skipBits) / 64;
      FieldInPacket(l, i);
      ghost var before := packed[..];
      PutElement(packed, base + wordIndex, bitOffset, l.width, input[i]);
      OneMoreField(l, before, packed[..], base, input, i);
      if lane == l.lanes - 1 && subVectorsPerBus == 1 {
        skipBits := skipBits + (l.busBits - l.width * l.lanes * subVectorsPerBus);
      }
    }
    HeldIsLaid(l, packed[..], base, input);
  }

  /** Writing field `i` completes it and leaves the earlier ones and everything unowned alone. */
  lemma OneMoreField(l: Layout, before: seq<Word>, after: seq<Word>, base: nat, input: seq<Word>, i: nat)
    requires Supported(l) && i < |input| == Elements(l)
    requires |before| == |after| && base + WordsPerPacket(l) <= |before|
    requires Holds(l, before, base, input, i)
    requires forall j, b :: 0 <= j < |before| && 0 <= b < 64 ==>
               after[j][b] == var k := 64 * (j - base) + b - BitPos(l, i);
                              if 0 <= k < l.width then input[i][k] else before[j][b]
    ensures Holds(l, after, base, input, i + 1)
    ensures forall p :: 0 <= p < 64 * |before| && !Owned(l, base, i + 1, p) ==>
              !Owned(l, base, i, p) && BitAt(after, p) == BitAt(before, p)
  {
    forall j, k | 0 <= j < i + 1 && 0 <= k < l.width
      ensures FieldBit(l, after, base, j, k) == input[j][k]
    {
      FieldInPacket(l, j);
      if j < i {
        FieldsApart(l, j, i);
        assert FieldBit(l, before, base, j, k) == input[j][k];
      }
    }
    forall p | 0 <= p < 64 * |before| && !Owned(l, base, i + 1, p)
      ensures !Owned(l, base, i, p) && BitAt(after, p) == BitAt(before, p)
    {
      assert !(0 <= p - 64 * base - BitPos(l, i) < l.width);
    }
  }

  /** Reads one packet back: the same walk, reading instead of writing. */
  method UnpackData(l: Layout, packed: seq<Word>, base: nat) returns (output: seq<Word>)
    requires Supported(l) && base + WordsPerPacket(l) <= |packed|
    ensures |output| == Elements(l)
    ensures forall i :: 0 <= i < |output| ==> Clean(output[i], l.width)
    ensures Holds(l, packed, base, output, |output|)
  {
    var subVectorsPerBus := PerBus(l);
    var skipBits := 0;
    output := [];
    assert SkipBefore(l, 0) == 0;
    for i := 0 to Elements(l)
      invariant |output| == i && skipBits == SkipBefore(l, i)
      invariant forall j :: 0 <= j < i ==> Clean(output[j], l.width)
      invariant Holds(l, packed, base, output, i)
    {
      var lane, subVector := i % l.lanes, i / l.lanes + 1;
      SkipTracksBeats(l, i);
      if subVector % subVectorsPerBus == 1 && lane == 0 && subVector != 1 {
        skipBits := skipBits + (l.busBits - l.width * l.lanes * subVectorsPerBus);
      }
      var bitOffset := (l.width * i + skipBits) % 64;
      var wordIndex := (l.width * i + skipBits) / 64;
      FieldInPacket(l, i);
      var value := GetElement(packed, base + wordIndex, bitOffset, l.width);
      ghost var before := output;
      output := output + [value];
      forall j, k | 0 <= j < i + 1 && 0 <= k < l.width
        ensures FieldBit(l, packed, base, j, k) == output[j][k]
      {
        if j < i { assert FieldBit(l, packed, base, j, k) == before[j][k]; }
      }
      if lane == l.lanes - 1 && subVectorsPerBus == 1 {
        skipBits := skipBits + (l.busBits - l.width * l.lanes * subVectorsPerBus);
      }
    }
  }

  // -------------------------------------------------------------- Many packets

  /** Clean elements are determined by the bits of their fields. */
  lemma HoldsUniquely(l: Layout, mem: seq<Word>, base: nat, a: seq<Word>, b: seq<Word>)
    requires Supported(l) && |a| == |b| == Elements(l) && base + WordsPerPacket(l) <= |mem|
    requires Holds(l, mem, base, a, |a|) && Holds(l, mem, base, b, |b|)
    requires forall i :: 0 <= i < |a| ==> Clean(a[i], l.width) && Clean(b[i], l.width)
    ensures a == b
  {
    forall i | 0 <= i < |a| ensures a[i] == b[i] {
      forall k | 0 <= k < 64 ensures a[i][k] == b[i][k] {
        if k < l.width {
          assert FieldBit(l, mem, base, i, k) == a[i][k];
        }
      }
    }
  }

  lemma OwnedInside(l: Layout, base: nat, n: nat, p: int)
    requires Supported(l) && n <= Elements(l) && Owned(l, base, n, p)
    ensures 64 * base <= p < 64 * (base + WordsPerPacket(l))
  {
    var i :| 0 <= i < n && 0 <= p - 64 * base - BitPos(l, i) < l.width;
    FieldInPacket(l, i);
  }

  /** Writing one packet does not disturb a packet that lies elsewhere. */
  lemma OtherPacketKept(l: Layout, before: seq<Word>, after: seq<Word>, base: nat, other: nat, input: seq<Word>)
    requires Supported(l) && |before| == |after| && |input| == Elements(l)
    requires base + WordsPerPacket(l) <= other || other + WordsPerPacket(l) <= base
    requires base + WordsPerPacket(l) <= |before| && other + WordsPerPacket(l) <= |before|
    requires forall p :: 0 <= p < 64 * |before| && !Owned(l, base, Elements(l), p) ==> BitAt(after, p) == BitAt(before, p)
    requires Holds(l, before, other, input, |input|)
    ensures Holds(l, after, other, input, |input|)
  {
    forall i, k | 0 <= i < |input| && 0 <= k < l.width
      ensures FieldBit(l, after, other, i, k) == input[i][k]
    {
      FieldInPacket(l, i);
      var p := 64 * other + BitPos(l, i) + k;
      if Owned(l, base, Elements(l), p) { OwnedInside(l, base, Elements(l), p); }
      assert FieldBit(l, before, other, i, k) == input[i][k];
    }
  }

  /** The first word of packet `p`. */
  function PacketBase(l: Layout, p: nat): nat
    requires Supported(l)
  {
    p * WordsPerPacket(l)
  }

  /** The first element of packet `p`. */
  function FirstElement(l: Layout, p: nat): nat {
    p * Elements(l)
  }

  function PacketOf(l: Layout, data: seq<Word>, packets: nat, p: nat): (r: seq<Word>)
    requires |data| == packets * Elements(l) && p < packets
    ensures |r| == Elements(l)
  {
    MulMonotone(p + 1, packets, Elements(l));
    TimesNext(p, Elements(l));
    data[FirstElement(l, p)..FirstElement(l, p + 1)]
  }

  ghost predicate PacketHeld(l: Layout, mem: seq<Word>, input: seq<Word>, packets: nat, p: nat)
    requires Supported(l) && |input| == packets * Elements(l) && |mem| == PacketBase(l, packets) && p < packets
  {
    LastBlock(p, packets, WordsPerPacket(l));
    Holds(l, mem, PacketBase(l, p), PacketOf(l, input, packets, p), Elements(l))
  }

  /** Packet `p` stands behind the words of the packets before it. */
  ghost predicate PacketLaid(l: Layout, mem: seq<Word>, input: seq<Word>, packets: nat, p: nat)
    requires Supported(l) && |input| == packets * Elements(l) && p < packets
  {
    Laid(l, mem, p * WordsPerPacket(l), PacketOf(l, input, packets, p))
  }

  lemma PacketHeldIsLaid(l: Layout, mem: seq<Word>, input: seq<Word>, packets: nat, p: nat)
    requires Supported(l) && |input| == packets * Elements(l) && |mem| == PacketBase(l, packets) && p < packets
    requires PacketHeld(l, mem, input, packets, p)
    ensures PacketLaid(l, mem, input, packets, p)
  {
    LastBlock(p, packets, WordsPerPacket(l));
    HeldIsLaid(l, mem, PacketBase(l, p), PacketOf(l, input, packets, p));
  }

  lemma OneMorePacket(l: Layout, before: seq<Word>, after: seq<Word>, input: seq<Word>, packets: nat, p: nat)
    requires Supported(l) && |input| == packets * Elements(l) && p < packets
    requires |before| == |after| == PacketBase(l, packets)
    requires forall q :: 0 <= q < p ==> PacketHeld(l, before, input, packets, q)
    requires forall b :: 0 <= b < 64 * |before| && !Owned(l, PacketBase(l, p), Elements(l), b) ==>
               BitAt(after, b) == BitAt(before, b)
    requires PacketHeld(l, after, input, packets, p)
    ensures forall q :: 0 <= q < p + 1 ==> PacketHeld(l, after, input, packets, q)
  {
    var w := WordsPerPacket(l);
    forall q | 0 <= q < p ensures PacketHeld(l, after, input, packets, q) {
      LastBlock(q, p, w);
      LastBlock(p, packets, w);
      LastBlock(q, packets, w);
      assert PacketHeld(l, before, input, packets, q);
      OtherPacketKept(l, before, after, PacketBase(l, p), PacketBase(l, q), PacketOf(l, input, packets, q));
    }
  }

  lemma PacketClean(l: Layout, input: seq<Word>, packets: nat, p: nat)
    requires Supported(l) && |input| == packets * Elements(l) && p < packets
    requires forall i :: 0 <= i < |input| ==> Clean(input[i], l.width)
    ensures forall i :: 0 <= i < Elements(l) ==> Clean(PacketOf(l, input, packets, p)[i], l.width)
  {
    LastBlock(p, packets, Elements(l));
    TimesNext(p, Elements(l));
  }

  /** Packs every packet of an inference input behind its predecessor. */
  method PackPackets(l: Layout, input: seq<Word>, packets: nat) returns (packed: array<Word>)
    requires Supported(l) && |input| == packets * Elements(l)
    requires forall i :: 0 <= i < |input| ==> Clean(input[i], l.width)
    ensures fresh(packed) && packed.Length == PacketBase(l, packets)
    ensures forall p :: 0 <= p < packets ==> PacketHeld(l, packed[..], input, packets, p)
    ensures forall p :: 0 <= p < packets ==> PacketLaid(l, packed[..], input, packets, p)
  {
    packed := new Word[PacketBase(l, packets)];
    for p := 0 to packets
      invariant packed.Length == PacketBase(l, packets)
      invariant forall q :: 0 <= q < p ==> PacketHeld(l, packed[..], input, packets, q)
    {
      LastBlock(p, packets, WordsPerPacket(l));
      PacketClean(l, input, packets, p);
      ghost var before := packed[..];
      PackData(l, PacketOf(l, input, packets, p), packed, PacketBase(l, p));
      OneMorePacket(l, before, packed[..], input, packets, p);
    }
    forall p | 0 <= p < packets ensures PacketLaid(l, packed[..], input, packets, p) {
      assert PacketHeld(l, packed[..], input, packets, p);
      PacketHeldIsLaid(l, packed[..], input, packets, p);
    }
  }

  /** A packet that reads back clean reads back as the packet that was written. */
  lemma ReadBack(l: Layout, mem: seq<Word>, input: seq<Word>, packets: nat, p: nat, output: seq<Word>)
    requires Supported(l) && |input| == packets * Elements(l) && p < packets && |mem| == PacketBase(l, packets)
    requires forall i :: 0 <= i < |input| ==> Clean(input[i], l.width)
    requires |output| == Elements(l) && forall i :: 0 <= i < |output| ==> Clean(output[i], l.width)
    requires PacketBase(l, p) + WordsPerPacket(l) <= |mem|
    requires Holds(l, mem, PacketBase(l, p), output, |output|)
    requires PacketHeld(l, mem, input, packets, p)
    ensures FirstElement(l, p) <= FirstElement(l, p + 1) <= |input|
    ensures input[..FirstElement(l, p)] + output == input[..FirstElement(l, p + 1)]
  {
    PacketClean(l, input, packets, p);
    LastBlock(p, packets, Elements(l));
    TimesNext(p, Elements(l));
    HoldsUniquely(l, mem, PacketBase(l, p), output, PacketOf(l, input, packets, p));
  }

  /** Reads every packet back. */
  method ReadPackets(l: Layout, words: seq<Word>, ghost input: seq<Word>, packets: nat) returns (validated: seq<Word>)
    requires Supported(l) && |input| == packets * Elements(l) && |words| == PacketBase(l, packets)
    requires forall i :: 0 <= i < |input| ==> Clean(input[i], l.width)
    requires forall p :: 0 <= p < packets ==> PacketHeld(l, words, input, packets, p)
    ensures validated == input
  {
    validated := [];
    for p := 0 to packets
      invariant FirstElement(l, p) <= |input| && validated == input[..FirstElement(l, p)]
    {
      LastBlock(p, packets, WordsPerPacket(l));
      var output := UnpackData(l, words, PacketBase(l, p));
      assert PacketHeld(l, words, input, packets, p);
      ReadBack(l, words, input, packets, p, output);
      validated := validated + output;
    }
    assert input[..|input|] == input;
  }

  /** Reading back what was packed yields the input, for any number of packets: the
      mismatch the caller checks for after packing never occurs on clean data. */
  method PackAndValidate(l: Layout, input: seq<Word>, packets: nat) returns (packed: array<Word>, validated: seq<Word>)
    requires Supported(l) && |input| == packets * Elements(l)
    requires forall i :: 0 <= i < |input| ==> Clean(input[i], l.width)
    ensures packed.Length == PacketBase(l, packets)
    ensures forall p :: 0 <= p < packets ==> PacketLaid(l, packed[..], input, packets, p)
    ensures validated == input
  {
    packed := PackPackets(l, input, packets);
    validated := ReadPackets(l, packed[..], input, packets);
  }
}
