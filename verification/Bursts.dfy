/** Counting the requests of a transfer and cutting it into bursts. */
module Bursts {
  import opened Arithmetic

  // ------------------------------------------------------------ Powers of two

  predicate IsPowerOfTwo(n: nat) {
    n == 1 || (n > 1 && n % 2 == 0 && IsPowerOfTwo(n / 2))
  }

  /** The bitwise conjunction of two unsigned numbers. */
  function BitAnd(a: nat, b: nat): nat {
    if a == 0 || b == 0 then 0 else (a % 2) * (b % 2) + 2 * BitAnd(a / 2, b / 2)
  }

  lemma BitSquare(b: nat)
    requires b < 2
    ensures b * b == b
  {
    if b > 0 { assert b == 1; }
  }

  lemma {:induction false} BitAndSelf(a: nat)
    ensures BitAnd(a, a) == a
  {
    if a > 0 {
      BitAndSelf(a / 2);
      BitSquare(a % 2);
    }
  }

  /** `n & (n - 1)` is zero exactly for the powers of two. */
  lemma {:induction false} BitTrick(n: nat)
    requires n > 0
    ensures BitAnd(n, n - 1) == 0 <==> IsPowerOfTwo(n)
  {
    if n > 1 {
      if n % 2 == 0 {
        BitTrick(n / 2);
        assert (n - 1) / 2 == n / 2 - 1;
      } else {
        assert (n - 1) / 2 == n / 2;
        BitAndSelf(n / 2);
      }
    }
  }

  /** Of two powers of two the smaller divides the larger. */
  lemma {:induction false} PowersDivide(a: nat, b: nat)
    requires IsPowerOfTwo(a) && IsPowerOfTwo(b) && a <= b
    ensures b % a == 0
    decreases b
  {
    if a == 1 || b == 1 {
      DivModUnique(b, 1, b, 0);
    } else {
      PowersDivide(a / 2, b / 2);
      var q := (b / 2) / (a / 2);
      assert b / 2 == (a / 2) * q;
      assert b == q * a;
      DivModUnique(b, a, q, 0);
    }
  }

  const WORD32: nat := 0x1_0000_0000

  lemma PowersBySixteen(n: nat)
    requires IsPowerOfTwo(n)
    ensures IsPowerOfTwo(16 * n)
  {
    assert 2 * n / 2 == n && 4 * n / 2 == 2 * n && 8 * n / 2 == 4 * n && 16 * n / 2 == 8 * n;
    assert IsPowerOfTwo(2 * n) && IsPowerOfTwo(4 * n) && IsPowerOfTwo(8 * n);
  }

  lemma Word32IsPower()
    ensures IsPowerOfTwo(4096) && IsPowerOfTwo(WORD32)
  {
    PowersBySixteen(1);
    PowersBySixteen(0x10);
    PowersBySixteen(0x100);
    PowersBySixteen(0x1000);
    PowersBySixteen(0x1_0000);
    PowersBySixteen(0x10_0000);
    PowersBySixteen(0x100_0000);
    PowersBySixteen(0x1000_0000);
  }

  // ----------------------------------------------------------------- Geometry

  /** The transfer unit and the largest burst, both in bytes; a burst is at most 256 units. */
  datatype Geometry = Geometry(bus: nat, maxBurst: nat)

  predicate Supported(g: Geometry) {
    && IsPowerOfTwo(g.bus) && IsPowerOfTwo(g.maxBurst)
    && 0 < g.bus <= g.maxBurst <= 256 * g.bus
    && g.maxBurst < WORD32
  }

  function Requests(g: Geometry, dataSize: nat): nat
    requires g.maxBurst > 0
  {
    CeilDiv(dataSize, g.maxBurst)
  }

  function BurstOffset(g: Geometry, i: nat): nat { i * g.maxBurst }

  function BurstSize(g: Geometry, dataSize: nat, i: nat): int {
    var rest := dataSize - BurstOffset(g, i);
    if rest > g.maxBurst then g.maxBurst else rest
  }

  method CountRequests(g: Geometry, dataSize: nat) returns (total: int)
    ensures total == if dataSize == 0 || g.maxBurst == 0 || g.bus == 0 || !IsPowerOfTwo(g.maxBurst) || dataSize % g.bus != 0
                     then -1 else Requests(g, dataSize)
  {
    if dataSize == 0 || g.maxBurst == 0 || g.bus == 0 {
      return -1;
    }
    BitTrick(g.maxBurst);
    if BitAnd(g.maxBurst, g.maxBurst - 1) != 0 {
      return -1;
    }
    if dataSize % g.bus != 0 {
      return -1;
    }
    total := 0;
    var remaining := dataSize;
    while remaining > 0
      invariant 0 <= remaining <= dataSize && total >= 0
      invariant remaining > 0 ==> total * g.maxBurst + remaining == dataSize
      invariant remaining == 0 ==> total == Requests(g, dataSize)
    {
      if remaining > g.maxBurst {
        remaining := remaining - g.maxBurst;
        assert (total + 1) * g.maxBurst == total * g.maxBurst + g.maxBurst;
        total := total + 1;
      } else {
        LastRequest(g.maxBurst, total, remaining);
        remaining := 0;
        total := total + 1;
      }
    }
  }

  lemma LastRequest(size: nat, n: nat, rest: nat)
    requires 0 < rest <= size
    ensures CeilDiv(n * size + rest, size) == n + 1
  {
    assert n * size + rest + size - 1 == (n + 1) * size + (rest - 1);
    DivModUnique(n * size + rest + size - 1, size, n + 1, rest - 1);
  }

  /** Burst `n` starts before the end exactly when `n` is one of the requests. */
  lemma RequestBelow(size: nat, n: nat, data: nat)
    requires size > 0
    ensures n * size < data <==> n < CeilDiv(data, size)
  {
    CeilDivCovers(data, size);
    var c := CeilDiv(data, size);
    if n < c {
      MulMonotone(n + 1, c, size);
      assert (n + 1) * size == n * size + size;
    } else {
      MulMonotone(c, n, size);
    }
  }

  /** Whatever is left is a whole number of transfer units, and so is the next burst. */
  lemma UnitsLeft(g: Geometry, remaining: nat)
    requires Supported(g) && remaining % g.bus == 0
    ensures (remaining % WORD32) % g.bus == 0 && g.maxBurst % g.bus == 0
  {
    Word32IsPower();
    PowersDivide(g.bus, g.maxBurst);
    PowersDivide(g.bus, WORD32);
    var k := WORD32 / g.bus;
    assert WORD32 == g.bus * k;
    assert remaining == WORD32 * (remaining / WORD32) + remaining % WORD32;
    assert remaining == g.bus * (remaining / g.bus);
    var q := remaining / g.bus - k * (remaining / WORD32);
    assert g.bus * k * (remaining / WORD32) == g.bus * (k * (remaining / WORD32));
    assert remaining % WORD32 == q * g.bus;
    DivModUnique(remaining % WORD32, g.bus, q, 0);
  }

  lemma UnitsSubtract(a: nat, b: nat, d: nat)
    requires d > 0 && a % d == 0 && b % d == 0 && b <= a
    ensures (a - b) % d == 0
  {
    assert a == d * (a / d) && b == d * (b / d);
    assert a - b == (a / d - b / d) * d;
    DivModUnique(a - b, d, a / d - b / d, 0);
  }

  lemma TransferCount(g: Geometry, size: nat)
    requires Supported(g) && size % g.bus == 0 && 0 < size <= g.maxBurst
    ensures 1 <= size / g.bus <= 256 && (size / g.bus) * g.bus == size
  {
    var n := size / g.bus;
    assert size == g.bus * n;
    if n > 256 { MulMonotone(257, n, g.bus); }
  }

  /** The planner's counters after `count` rounds. A data size of 2^32 or more never gets
      below the 32-bit range, because each round takes at most the low 32 bits away. */
  ghost predicate Progress(g: Geometry, dataSize: nat, count: nat, offset: nat, remaining: nat)
    requires Supported(g)
  {
    && offset + remaining == dataSize && remaining % g.bus == 0
    && (dataSize >= WORD32 ==> remaining >= WORD32)
    && (remaining > 0 ==> count < Requests(g, dataSize))
    && (offset == BurstOffset(g, count) || remaining % WORD32 == 0)
    && (remaining == 0 ==> count == Requests(g, dataSize))
    && (remaining >= WORD32 ==> count * g.maxBurst < offset + g.maxBurst)
  }

  function NextBurst(g: Geometry, remaining: nat): nat {
    if remaining % WORD32 > g.maxBurst then g.maxBurst else remaining % WORD32
  }

  lemma ProgressBegins(g: Geometry, dataSize: nat)
    requires Supported(g) && dataSize % g.bus == 0
    ensures Progress(g, dataSize, 0, 0, dataSize)
  {
    RequestBelow(g.maxBurst, 0, dataSize);
  }

  lemma NextBurstUnits(g: Geometry, remaining: nat)
    requires Supported(g) && remaining > 0 && remaining % g.bus == 0
    ensures NextBurst(g, remaining) <= remaining && NextBurst(g, remaining) % g.bus == 0
    ensures NextBurst(g, remaining) == 0 <==> remaining % WORD32 == 0
    ensures if NextBurst(g, remaining) == 0 then NextBurst(g, remaining) / g.bus == 0
            else 1 <= NextBurst(g, remaining) / g.bus <= 256
    ensures (remaining - NextBurst(g, remaining)) % g.bus == 0
  {
    UnitsLeft(g, remaining);
    if NextBurst(g, remaining) > 0 { TransferCount(g, NextBurst(g, remaining)); }
    UnitsSubtract(remaining, NextBurst(g, remaining), g.bus);
  }

  /** Taking the next burst off leaves whole multiples of 2^32 in place. */
  lemma HighPartStays(remaining: nat, burst: nat)
    requires burst <= remaining % WORD32
    ensures remaining >= WORD32 ==> remaining - burst >= WORD32
    ensures (remaining - burst) % WORD32 == remaining % WORD32 - burst
  {
    var q := remaining / WORD32;
    assert remaining == WORD32 * q + remaining % WORD32;
    DivModUnique(remaining - burst, WORD32, q, remaining % WORD32 - burst);
  }

  lemma ProgressSteps(g: Geometry, dataSize: nat, count: nat, offset: nat, remaining: nat)
    requires Supported(g) && Progress(g, dataSize, count, offset, remaining) && remaining > 0
    ensures NextBurst(g, remaining) == 0 ==> dataSize >= WORD32
    ensures dataSize < WORD32 ==> offset == BurstOffset(g, count) && NextBurst(g, remaining) == BurstSize(g, dataSize, count)
    ensures var burst := NextBurst(g, remaining);
            0 < burst <= remaining ==> Progress(g, dataSize, count + 1, offset + burst, remaining - burst)
  {
    var burst := NextBurst(g, remaining);
    NextBurstUnits(g, remaining);
    HighPartStays(remaining, burst);
    if burst > 0 {
      assert offset == count * g.maxBurst;
      assert (count + 1) * g.maxBurst == offset + g.maxBurst;
      RequestBelow(g.maxBurst, count + 1, dataSize);
      if remaining == burst { LastRequest(g.maxBurst, count, burst); }
    }
  }

  /** The planner: fills the three arrays, or reports -1. The burst size is a 32-bit number,
      so the part of the remaining size above 32 bits is lost in each round. */
  method PlanBursts(g: Geometry, dataSize: nat, sizes: array<nat>, offsets: array<nat>, lens: array<nat>, expected: int)
    returns (count: int)
    requires Supported(g)
    requires sizes != offsets && offsets != lens && sizes != lens
    requires expected > 0 ==>
               && sizes.Length == offsets.Length == lens.Length == expected
               && Requests(g, dataSize) <= expected
    modifies sizes, offsets, lens
    ensures count == if 0 < expected == Requests(g, dataSize) && dataSize % g.bus == 0 && dataSize < WORD32
                     then expected else -1
    ensures count > 0 ==> Planned(g, dataSize, count, sizes[..], offsets[..], lens[..])
  {
    if expected <= 0 {
      return -1;
    }
    if dataSize % g.bus != 0 {
      return -1;
    }
    count := 0;
    var remaining, currentOffset := dataSize, 0;
    ProgressBegins(g, dataSize);
    while remaining > 0
      invariant 0 <= remaining && 0 <= count && 0 <= currentOffset
      invariant Progress(g, dataSize, count, currentOffset, remaining)
      invariant dataSize < WORD32 ==> count <= expected && Planned(g, dataSize, count, sizes[..], offsets[..], lens[..])
    {
      ProgressSteps(g, dataSize, count, currentOffset, remaining);
      NextBurstUnits(g, remaining);
      var burstSize := remaining % WORD32;
      if burstSize > g.maxBurst {
        burstSize := g.maxBurst;
      }
      sizes[count] := burstSize;
      offsets[count] := currentOffset;
      var numTransfers := burstSize / g.bus;
      if numTransfers == 0 || numTransfers > 256 {
        return -1;
      }
      lens[count] := numTransfers - 1;
      currentOffset := currentOffset + burstSize;
      remaining := remaining - burstSize;
      count := count + 1;
    }
    if count != expected {
      return -1;
    }
  }

  /** The three arrays describe the first `n` bursts: where each starts, its bytes, and its length code. */
  ghost predicate Planned(g: Geometry, dataSize: nat, n: nat, sizes: seq<nat>, offsets: seq<nat>, lens: seq<nat>)
    requires g.bus > 0
  {
    && n <= |sizes| && n <= |offsets| && n <= |lens|
    && forall i :: 0 <= i < n ==>
         && sizes[i] == BurstSize(g, dataSize, i)
         && offsets[i] == BurstOffset(g, i)
         && lens[i] == BurstSize(g, dataSize, i) / g.bus - 1
  }

  // ---------------------------------------------------------- What a plan means

  /** Consecutive bursts meet, the first starts at 0 and the last ends at the data size. */
  lemma BurstsTile(g: Geometry, dataSize: nat, i: nat)
    requires Supported(g) && i < Requests(g, dataSize)
    ensures 0 < BurstSize(g, dataSize, i) <= g.maxBurst
    ensures BurstOffset(g, 0) == 0
    ensures BurstOffset(g, i) + BurstSize(g, dataSize, i)
         == if i + 1 < Requests(g, dataSize) then BurstOffset(g, i + 1) else dataSize
  {
    RequestBelow(g.maxBurst, i, dataSize);
    RequestBelow(g.maxBurst, i + 1, dataSize);
    assert (i + 1) * g.maxBurst == i * g.maxBurst + g.maxBurst;
  }

  /** Every byte of the transfer belongs to exactly one burst. */
  lemma ByteInOneBurst(g: Geometry, dataSize: nat, b: nat, i: nat)
    requires Supported(g) && b < dataSize
    ensures b / g.maxBurst < Requests(g, dataSize)
    ensures i < Requests(g, dataSize) ==>
              (BurstOffset(g, i) <= b < BurstOffset(g, i) + BurstSize(g, dataSize, i) <==> i == b / g.maxBurst)
  {
    OnlyBlock(b, g.maxBurst, b / g.maxBurst);
    RequestBelow(g.maxBurst, b / g.maxBurst, dataSize);
    OnlyBlock(b, g.maxBurst, i);
  }

  lemma OnlyBlock(b: nat, size: nat, i: nat)
    requires size > 0
    ensures i * size <= b < i * size + size <==> i == b / size
  {
    var q := b / size;
    assert b == size * q + b % size;
    if i < q {
      LastBlock(i, q, size);
    } else if q < i {
      LastBlock(q, i, size);
    }
  }

  /** The length code fits into 8 bits and gives the size back. */
  lemma BurstLengthCode(g: Geometry, dataSize: nat, i: nat)
    requires Supported(g) && dataSize % g.bus == 0 && i < Requests(g, dataSize)
    ensures var len := BurstSize(g, dataSize, i) / g.bus - 1;
            0 <= len < 256 && (len + 1) * g.bus == BurstSize(g, dataSize, i)
  {
    BurstsTile(g, dataSize, i);
    PowersDivide(g.bus, g.maxBurst);
    OffsetUnits(g, i);
    UnitsSubtract(dataSize, BurstOffset(g, i), g.bus);
    TransferCount(g, BurstSize(g, dataSize, i));
  }

  lemma OffsetUnits(g: Geometry, i: nat)
    requires Supported(g)
    ensures BurstOffset(g, i) % g.bus == 0
  {
    PowersDivide(g.bus, g.maxBurst);
    var k := g.maxBurst / g.bus;
    assert g.maxBurst == g.bus * k;
    assert i * (g.bus * k) == (i * k) * g.bus;
    DivModUnique(BurstOffset(g, i), g.bus, i * k, 0);
  }

  /** A power-of-two block of at most 4 KB lies within one 4 KB page. */
  lemma SameBlockSamePage(size: nat, a: nat, b: nat)
    requires IsPowerOfTwo(size) && 0 < size <= 4096 && a / size == b / size
    ensures a / 4096 == b / 4096
  {
    Word32IsPower();
    PowersDivide(size, 4096);
    SameCoarser(a, b, size, 4096);
  }

  lemma SameCoarser(a: nat, b: nat, fine: nat, coarse: nat)
    requires fine > 0 && coarse > 0 && coarse % fine == 0 && a / fine == b / fine
    ensures a / coarse == b / coarse
  {
    var k := coarse / fine;
    assert coarse == fine * k;
    SplitTwice(a, fine, k);
    SplitTwice(b, fine, k);
  }

  lemma OneBlock(size: nat, base: nat, i: nat, length: nat)
    requires size > 0 && base % size == 0 && 0 < length <= size
    ensures (base + i * size) / size == (base + i * size + length - 1) / size
  {
    var q := base / size;
    assert base == size * q;
    assert base + i * size == (q + i) * size;
    DivModUnique(base + i * size, size, q + i, 0);
    DivModUnique(base + i * size + length - 1, size, q + i, length - 1);
  }

  /** From an aligned base no burst leaves its aligned block, nor its 4 KB page when bursts are that small. */
  lemma BurstStaysInBlock(g: Geometry, base: nat, dataSize: nat, i: nat)
    requires Supported(g) && base % g.maxBurst == 0 && i < Requests(g, dataSize)
    ensures var first, last := base + BurstOffset(g, i), base + BurstOffset(g, i) + BurstSize(g, dataSize, i) - 1;
            && first / g.maxBurst == last / g.maxBurst
            && (g.maxBurst <= 4096 ==> first / 4096 == last / 4096)
  {
    BurstsTile(g, dataSize, i);
    var size := BurstSize(g, dataSize, i);
    OneBlock(g.maxBurst, base, i, size);
    if g.maxBurst <= 4096 {
      SameBlockSamePage(g.maxBurst, base + BurstOffset(g, i), base + BurstOffset(g, i) + size - 1);
    }
  }

  /** Counting, allocating and planning together: the two functions agree and the transfer is
      planned exactly when the data is non-empty, aligned and below 2^32 bytes. */
  method CountAndPlan(g: Geometry, dataSize: nat)
    returns (bursts: int, sizes: array<nat>, offsets: array<nat>, lens: array<nat>)
    requires Supported(g)
    ensures fresh(sizes) && fresh(offsets) && fresh(lens)
    ensures bursts == if 0 < dataSize < WORD32 && dataSize % g.bus == 0 then Requests(g, dataSize) else -1
    ensures bursts > 0 ==> Planned(g, dataSize, bursts, sizes[..], offsets[..], lens[..])
  {
    var expected := CountRequests(g, dataSize);
    var length := if expected > 0 then expected else 0;
    sizes, offsets, lens := new nat[length], new nat[length], new nat[length];
    if dataSize > 0 { RequestBelow(g.maxBurst, 0, dataSize); }
    bursts := PlanBursts(g, dataSize, sizes, offsets, lens, expected);
    if bursts != expected {
      return -1, sizes, offsets, lens;
    }
  }
}
