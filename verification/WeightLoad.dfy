/** Loading weights into device memory through the register interface. */
module WeightLoad {
  import opened Arithmetic
  import opened Bursts

  type Byte = x: nat | x < 256

  datatype Cell = Untouched | Holding(value: Byte)

  type Memory = map<(nat, nat), Byte>

  function Lookup(mem: Memory, bank: nat, addr: nat): Cell {
    if (bank, addr) in mem then Holding(mem[(bank, addr)]) else Untouched
  }

  /** What the device finds at a host address; unmapped addresses read as zero. */
  function HostByte(host: map<nat, Byte>, a: nat): Byte {
    if a in host then host[a] else 0
  }

  /** The `n` cells of a bank from `addr` on. */
  ghost function Range(bank: nat, addr: nat, n: nat): set<(nat, nat)> {
    set a | addr <= a < addr + n :: (bank, a)
  }

  /** `data` stands in `bank` from `start` on. */
  ghost predicate Holds(mem: Memory, bank: nat, start: nat, data: seq<Byte>) {
    forall a: nat :: start <= a < start + |data| ==> Lookup(mem, bank, a) == Holding(data[a - start])
  }

  /** Only the `n` cells of `bank` from `start` on may differ. */
  ghost predicate SameOutside(before: Memory, after: Memory, bank: nat, start: nat, n: nat) {
    forall b: nat, a: nat :: b != bank || !(start <= a < start + n) ==> Lookup(after, b, a) == Lookup(before, b, a)
  }

  /** `data` stored at `start` in `bank`, `over` further cells overwritten, all else as before. */
  ghost predicate Stored(before: Memory, touchedBefore: set<(nat, nat)>, after: Memory, touchedAfter: set<(nat, nat)>,
                         bank: nat, start: nat, data: seq<Byte>, over: nat)
  {
    && touchedAfter == touchedBefore + Range(bank, start, |data| + over)
    && Holds(after, bank, start, data)
    && SameOutside(before, after, bank, start, |data| + over)
  }

  /** The `n` bytes the device finds from host address `src` on. */
  function HostBytes(host: map<nat, Byte>, src: nat, n: nat): (r: seq<Byte>)
    ensures |r| == n
  {
    seq<Byte>(n, k requires 0 <= k < n => HostByte(host, src + k))
  }

  /** A host buffer at `pa` holds `data`. */
  ghost predicate Pinned(host: map<nat, Byte>, pa: nat, data: seq<Byte>) {
    forall k :: 0 <= k < |data| ==> HostByte(host, pa + k) == data[k]
  }

  lemma StoreOne(before: Memory, mem: Memory, bank: nat, start: nat, data: seq<Byte>, v: Byte)
    requires Holds(mem, bank, start, data) && SameOutside(before, mem, bank, start, |data|)
    ensures var mem' := mem[(bank, start + |data|) := v];
      Holds(mem', bank, start, data + [v]) && SameOutside(before, mem', bank, start, |data| + 1)
  {
    var mem' := mem[(bank, start + |data|) := v];
    forall a: nat | start <= a < start + |data| + 1 ensures Lookup(mem', bank, a) == Holding((data + [v])[a - start]) {
      if a < start + |data| { assert Lookup(mem', bank, a) == Lookup(mem, bank, a); }
    }
  }

  lemma PinOne(host: map<nat, Byte>, pa: nat, data: seq<Byte>, k: nat)
    requires k < |data| && Pinned(host, pa, data[..k])
    ensures Pinned(host[pa + k := data[k]], pa, data[..k + 1])
  {
    var host' := host[pa + k := data[k]];
    forall j | 0 <= j <= k ensures HostByte(host', pa + j) == data[j] {
      if j < k { assert HostByte(host', pa + j) == HostByte(host, pa + j) && data[..k][j] == data[j]; }
    }
  }

  /** The bytes the device copies for a length code. */
  function CodeBytes(bus: nat, code: nat): (n: nat)
    ensures n == (code + 1) * bus
  {
    MulMonotone(0, code + 1, bus);
    (code + 1) * bus
  }

  /** The device side of the register interface. Writing the source address starts one read of
      `burstLen + 1` transfer units into the latched destination; the low part of the destination,
      below one transfer unit, selects the bank. Whether the driver's n-th call to map the registers
      or to pin a buffer succeeds is given beforehand. */
  class Device {
    const bus: nat
    const maps: nat -> bool
    const pins: nat -> bool
    var mapCalls: nat
    var pinCalls: nat
    var burstLen: nat
    var dest: nat
    var pending: nat
    var host: map<nat, Byte>
    var ddr: Memory
    ghost var touched: set<(nat, nat)>

    ghost predicate Valid()
      reads this
    {
      bus > 0 && pending <= 251
    }

    /** The driver gets registers and buffer for the `i`-th piece, counted from the calls made so far. */
    predicate Works(sim: bool, mapCalls: nat, pinCalls: nat, i: nat) {
      (sim || maps(mapCalls + i)) && pins(pinCalls + i)
    }

    constructor (bus: nat, maps: nat -> bool, pins: nat -> bool)
      requires bus > 0
      ensures Valid() && this.bus == bus && this.maps == maps && this.pins == pins
      ensures mapCalls == 0 && pinCalls == 0
      ensures burstLen == 0 && pending == 0 && ddr == map[] && touched == {}
    {
      this.bus, this.maps, this.pins := bus, maps, pins;
      mapCalls, pinCalls := 0, 0;
      burstLen, dest, pending := 0, 0, 0;
      host, ddr, touched := map[], map[], {};
    }

    method SetReadBurstLen(v: nat)
      requires Valid()
      modifies this`burstLen
      ensures Valid() && burstLen == v
    {
      burstLen := v;
    }

    method SetDestAddress(v: nat)
      requires Valid()
      modifies this`dest
      ensures Valid() && dest == v
    {
      dest := v;
    }

    method SetSrcAddress(src: nat)
      requires Valid() && pending <= 250
      modifies this`ddr, this`touched, this`pending
      ensures Valid()
      ensures Stored(old(ddr), old(touched), ddr, touched, dest % bus, dest - dest % bus,
                     HostBytes(host, src, CodeBytes(bus, burstLen)), 0)
    {
      var n, bank, base := CodeBytes(bus, burstLen), dest % bus, dest - dest % bus;
      var before := ddr;
      for k := 0 to n
        invariant unchanged(this`touched) && unchanged(this`pending)
        invariant Holds(ddr, bank, base, HostBytes(host, src, k)) && SameOutside(before, ddr, bank, base, k)
      {
        StoreOne(before, ddr, bank, base, HostBytes(host, src, k), HostByte(host, src + k));
        assert HostBytes(host, src, k + 1) == HostBytes(host, src, k) + [HostByte(host, src + k)];
        ddr := ddr[(bank, base + k) := HostByte(host, src + k)];
      }
      touched := touched + Range(bank, base, n);
      pending := pending + 1;
    }

    /** Polls until at most 250 reads are pending; reads complete in the meantime. */
    method AwaitReadSlot()
      requires Valid()
      modifies this`pending
      ensures Valid() && pending <= 250
    {
      var completed: nat :| completed <= pending && pending - completed <= 250;
      pending := pending - completed;
    }

    /** Maps the registers into the address space, which may fail. */
    method MapRegisters() returns (ok: bool)
      modifies this`mapCalls
      ensures ok == maps(old(mapCalls)) && mapCalls == old(mapCalls) + 1
    {
      ok := maps(mapCalls);
      mapCalls := mapCalls + 1;
    }

    /** Pins a host buffer holding `data`; where it lies is the driver's choice, and it may fail. */
    method PinBuffer(data: seq<Byte>) returns (ok: bool, pa: nat)
      requires Valid()
      modifies this`host, this`pinCalls
      ensures Valid()
      ensures ok == pins(old(pinCalls)) && pinCalls == old(pinCalls) + 1
      ensures ok ==> Pinned(host, pa, data)
    {
      pa :| pa >= 0;
      ok := pins(pinCalls);
      pinCalls := pinCalls + 1;
      if ok {
        for k := 0 to |data|
          invariant Pinned(host, pa, data[..k]) && pinCalls == old(pinCalls) + 1
        {
          PinOne(host, pa, data, k);
          host := host[pa + k := data[k]];
        }
        assert data[..|data|] == data;
      }
    }
  }

  // ------------------------------------------------------------ Specification

  /** The transfer geometry and the largest piece loaded in one go. */
  datatype Setup = Setup(g: Geometry, maxHost: nat)

  /** The host buffer is filled by whole 64-bit words, so a transfer unit is at least one. */
  ghost predicate Usable(s: Setup) {
    && Bursts.Supported(s.g) && 8 <= s.g.bus
    && 0 < s.maxHost < WORD32 && s.maxHost % s.g.maxBurst == 0
  }

  /** The largest multiple of `d` up to `n`. */
  function WholePart(n: nat, d: nat): (r: nat)
    requires d > 0
    ensures r <= n
  {
    assert n == d * (n / d) + n % d;
    MulMonotone(0, n / d, d);
    n - n % d
  }

  /** A piece that is not a whole number of transfer units is not loaded at all. */
  ghost function LoadedBytes(s: Setup, size: nat): (n: nat)
    requires Usable(s)
    ensures n <= size
  {
    if size % s.g.bus == 0 then size else WholePart(size, s.maxHost)
  }

  /** The length code of the last burst of one piece. */
  ghost function LastCode(g: Geometry, n: nat): int
    requires Bursts.Supported(g) && n > 0
  {
    RequestBelow(g.maxBurst, 0, n);
    BurstSize(g, n, Requests(g, n) - 1) / g.bus - 1
  }

  /** Every burst of a piece of `n` bytes has length code 0, so the register is never written. */
  ghost predicate OneBeatOnly(g: Geometry, n: nat) {
    g.maxBurst == g.bus || n == g.bus
  }

  /** The length register after one piece. */
  ghost function PieceRegister(s: Setup, n: nat, register: nat): int
    requires Usable(s)
  {
    if n == 0 || n % s.g.bus != 0 || OneBeatOnly(s.g, n) then register else LastCode(s.g, n)
  }

  /** What is stored of a piece that fits the host buffer. */
  ghost function Loadable(s: Setup, piece: seq<Byte>): seq<Byte>
    requires Usable(s)
  {
    if |piece| % s.g.bus == 0 then piece else []
  }

  /** How many bytes behind one piece the device writes as well. */
  ghost function PieceOvershoot(s: Setup, n: nat, register: nat): nat
    requires Usable(s)
  {
    if n == 0 || n % s.g.bus != 0 || !OneBeatOnly(s.g, n) then 0 else register * s.g.bus
  }

  lemma HoldsMore(m1: Memory, m2: Memory, bank: nat, start: nat, data: seq<Byte>, more: seq<Byte>, n: nat)
    requires Holds(m1, bank, start, data) && Holds(m2, bank, start + |data|, more)
    requires SameOutside(m1, m2, bank, start + |data|, n)
    ensures Holds(m2, bank, start, data + more)
  {
    forall a: nat | start <= a < start + |data| + |more|
      ensures Lookup(m2, bank, a) == Holding((data + more)[a - start])
    {
      if a < start + |data| { assert Lookup(m2, bank, a) == Lookup(m1, bank, a); }
    }
  }

  lemma OutsideBoth(m0: Memory, m1: Memory, m2: Memory, bank: nat, start: nat, n: nat, at: nat, k: nat)
    requires SameOutside(m0, m1, bank, start, n) && SameOutside(m1, m2, bank, at, k)
    requires start <= at && start + n <= at + k
    ensures SameOutside(m0, m2, bank, start, at + k - start)
  {
    forall b: nat, a: nat | b != bank || !(start <= a < at + k) ensures Lookup(m2, b, a) == Lookup(m0, b, a) {
      assert Lookup(m2, b, a) == Lookup(m1, b, a);
    }
  }

  lemma RangesJoin(bank: nat, start: nat, n: nat, at: nat, k: nat)
    requires start <= at <= start + n <= at + k
    ensures Range(bank, start, n) + Range(bank, at, k) == Range(bank, start, at + k - start)
  {
    forall a | start <= a < at + k ensures (bank, a) in Range(bank, start, n) + Range(bank, at, k) {
      if a >= start + n { assert (bank, a) in Range(bank, at, k); }
    }
  }

  /** A longer copy at the end of what is stored covers the cells overwritten so far. */
  lemma StoreMore(m0: Memory, t0: set<(nat, nat)>, m1: Memory, t1: set<(nat, nat)>, m2: Memory, t2: set<(nat, nat)>,
                  bank: nat, start: nat, data: seq<Byte>, over: nat, more: seq<Byte>, over': nat)
    requires Stored(m0, t0, m1, t1, bank, start, data, over)
    requires Stored(m1, t1, m2, t2, bank, start + |data|, more, over')
    requires over <= |more| + over'
    ensures Stored(m0, t0, m2, t2, bank, start, data + more, over')
  {
    HoldsMore(m1, m2, bank, start, data, more, |more| + over');
    OutsideBoth(m0, m1, m2, bank, start, |data| + over, start + |data|, |more| + over');
    RangesJoin(bank, start, |data| + over, start + |data|, |more| + over');
    assert |data + more| + over' == |data| + |more| + over';
  }

  /** Of a copy only the first bytes may be of interest; the others count as overwritten. */
  lemma StoredCut(m1: Memory, t1: set<(nat, nat)>, m2: Memory, t2: set<(nat, nat)>,
                  bank: nat, start: nat, bytes: seq<Byte>, data: seq<Byte>)
    requires Stored(m1, t1, m2, t2, bank, start, bytes, 0)
    requires |data| <= |bytes| && bytes[..|data|] == data
    ensures Stored(m1, t1, m2, t2, bank, start, data, |bytes| - |data|)
  {
    forall a: nat | start <= a < start + |data| ensures Lookup(m2, bank, a) == Holding(data[a - start]) {
      assert bytes[..|data|][a - start] == bytes[a - start];
    }
  }

  // --------------------------------------------------------------- One piece

  lemma LowPart(base: nat, bank: nat, bus: nat)
    requires bank < bus && base % bus == 0
    ensures (base + bank) % bus == bank && (base + bank) - (base + bank) % bus == base
  {
    assert base == bus * (base / bus);
    DivModUnique(base + bank, bus, base / bus, bank);
  }

  lemma BankDecodes(g: Geometry, start: nat, i: nat, bank: nat)
    requires Bursts.Supported(g) && start % g.bus == 0 && bank < g.bus
    ensures var d := start + BurstOffset(g, i) + bank;
            d % g.bus == bank && d - d % g.bus == start + BurstOffset(g, i)
  {
    OffsetUnits(g, i);
    SumUnits(start, BurstOffset(g, i), g.bus);
    LowPart(start + BurstOffset(g, i), bank, g.bus);
  }

  /** The code the driver believes to be in the register before burst `i`. */
  ghost function BelievedCode(g: Geometry, n: nat, i: nat): int
    requires Bursts.Supported(g)
  {
    if i == 0 then 0 else BurstSize(g, n, i - 1) / g.bus - 1
  }

  /** The code the device really has there: the old one until the driver sees a code other than 0. */
  ghost function RealCode(g: Geometry, n: nat, i: nat, register: nat): int
    requires Bursts.Supported(g)
  {
    if i == 0 || OneBeatOnly(g, n) then register else BurstSize(g, n, i - 1) / g.bus - 1
  }

  /** What the driver believes agrees with the device as soon as a code other than 0 was seen. */
  lemma CodesAgree(g: Geometry, n: nat, i: nat, register: nat)
    requires Bursts.Supported(g) && n % g.bus == 0 && i < Requests(g, n)
    ensures var code := BurstSize(g, n, i) / g.bus - 1;
            && 0 <= code
            && (OneBeatOnly(g, n) ==> code == 0 && BelievedCode(g, n, i) == 0)
            && (!OneBeatOnly(g, n) && i == 0 ==> code != 0)
  {
    BurstLengthCode(g, n, i);
    BurstsTile(g, n, i);
    if i > 0 {
      BurstLengthCode(g, n, i - 1);
      BurstsTile(g, n, i - 1);
      RequestBelow(g.maxBurst, i, n);
    }
    var size := BurstSize(g, n, i);
    assert (size / g.bus) * g.bus == size;
    if g.maxBurst == g.bus {
      OneUnit(g.bus, size);
      if i > 0 { OneUnit(g.bus, BurstSize(g, n, i - 1)); }
    } else if n == g.bus {
      if i > 0 { MulMonotone(1, i, g.maxBurst); }
      OneUnit(g.bus, size);
    } else if i == 0 {
      if size / g.bus == 1 { PowersDivide(g.bus, g.maxBurst); }
    }
  }

  lemma OneUnit(bus: nat, size: nat)
    requires 0 < size <= bus && (size / bus) * bus == size
    ensures size == bus && size / bus == 1
  {
    if size < bus { DivModUnique(size, bus, 0, size); }
    DivModUnique(bus, bus, 1, 0);
  }

  /** How much of a piece is stored before burst `i`. */
  ghost function StoredBefore(g: Geometry, n: nat, i: nat): (k: nat)
    requires Bursts.Supported(g) && i <= Requests(g, n)
    ensures k <= n
  {
    RequestBelow(g.maxBurst, i, n);
    if i < Requests(g, n) then BurstOffset(g, i) else n
  }

  ghost function OvershootBefore(g: Geometry, n: nat, i: nat, register: nat): nat
    requires Bursts.Supported(g)
  {
    if i > 0 && OneBeatOnly(g, n) then register * g.bus else 0
  }

  lemma CopyLength(bus: nat, code: nat, size: nat, register: nat, oneBeat: bool)
    requires bus > 0 && (size / bus) * bus == size && size / bus >= 1
    requires oneBeat ==> size / bus == 1 && code == register
    requires !oneBeat ==> code == size / bus - 1
    ensures (code + 1) * bus == size + if oneBeat then register * bus else 0
  {
    assert (code + 1) * bus == code * bus + bus;
  }

  /** One burst in numbers: it continues where the last one ended, and covers its overshoot. */
  lemma BurstNumbers(g: Geometry, n: nat, i: nat, register: nat)
    requires Bursts.Supported(g) && n % g.bus == 0 && i < Requests(g, n)
    ensures 0 <= RealCode(g, n, i + 1, register)
    ensures StoredBefore(g, n, i) == BurstOffset(g, i)
    ensures 0 < BurstSize(g, n, i) && StoredBefore(g, n, i + 1) == BurstOffset(g, i) + BurstSize(g, n, i)
    ensures (RealCode(g, n, i + 1, register) + 1) * g.bus == BurstSize(g, n, i) + OvershootBefore(g, n, i + 1, register)
    ensures OvershootBefore(g, n, i, register) <= OvershootBefore(g, n, i + 1, register)
  {
    BurstsTile(g, n, i);
    BurstLengthCode(g, n, i);
    CodesAgree(g, n, i, register);
    CopyLength(g.bus, RealCode(g, n, i + 1, register), BurstSize(g, n, i), register, OneBeatOnly(g, n));
  }

  /** A copy from the pinned piece: `size` bytes of it, then `over` cells of whatever follows. */
  lemma CopyStores(piece: seq<Byte>, off: nat, size: nat, before: nat, over: nat,
                   m0: Memory, t0: set<(nat, nat)>, m1: Memory, t1: set<(nat, nat)>, m2: Memory, t2: set<(nat, nat)>,
                   host: map<nat, Byte>, pa: nat, bank: nat, start: nat)
    requires off + size <= |piece| && before <= size + over && Pinned(host, pa, piece)
    requires Stored(m0, t0, m1, t1, bank, start, piece[..off], before)
    requires Stored(m1, t1, m2, t2, bank, start + off, HostBytes(host, pa + off, size + over), 0)
    ensures Stored(m0, t0, m2, t2, bank, start, piece[..off + size], over)
  {
    var more := piece[off..off + size];
    PinnedBytes(host, pa, piece, off, size, over);
    StoredCut(m1, t1, m2, t2, bank, start + off, HostBytes(host, pa + off, size + over), more);
    StoreMore(m0, t0, m1, t1, m2, t2, bank, start, piece[..off], before, more, over);
    assert piece[..off] + more == piece[..off + size];
  }

  lemma PinnedBytes(host: map<nat, Byte>, pa: nat, piece: seq<Byte>, off: nat, size: nat, over: nat)
    requires off + size <= |piece| && Pinned(host, pa, piece)
    ensures HostBytes(host, pa + off, size + over)[..size] == piece[off..off + size]
  {
    var bytes := HostBytes(host, pa + off, size + over);
    forall k | 0 <= k < size ensures bytes[k] == piece[off + k] {
      assert HostByte(host, pa + (off + k)) == piece[off + k];
    }
  }

  /** Everything the loop over the bursts knows before burst `i`. */
  ghost predicate PieceState(g: Geometry, piece: seq<Byte>, i: nat, register: nat,
                             m0: Memory, t0: set<(nat, nat)>, m: Memory, t: set<(nat, nat)>,
                             bank: nat, start: nat, burstLen: nat, readLen: nat)
    requires Bursts.Supported(g) && i <= Requests(g, |piece|)
  {
    && readLen == BelievedCode(g, |piece|, i)
    && burstLen == RealCode(g, |piece|, i, register)
    && Stored(m0, t0, m, t, bank, start, piece[..StoredBefore(g, |piece|, i)], OvershootBefore(g, |piece|, i, register))
  }

  lemma PieceBegins(g: Geometry, piece: seq<Byte>, register: nat, m: Memory, t: set<(nat, nat)>, bank: nat, start: nat)
    requires Bursts.Supported(g) && |piece| > 0
    ensures PieceState(g, piece, 0, register, m, t, m, t, bank, start, register, 0)
  {
    RequestBelow(g.maxBurst, 0, |piece|);
    assert Range(bank, start, 0) == {};
  }

  /** After burst `i` was issued with the register the driver has set up. */
  lemma PieceAdvances(g: Geometry, piece: seq<Byte>, i: nat, register: nat,
                      m0: Memory, t0: set<(nat, nat)>, m1: Memory, t1: set<(nat, nat)>, m2: Memory, t2: set<(nat, nat)>,
                      host: map<nat, Byte>, pa: nat, bank: nat, start: nat, burstLen: nat, readLen: nat, code: nat)
    requires Bursts.Supported(g) && |piece| % g.bus == 0 && i < Requests(g, |piece|)
    requires PieceState(g, piece, i, register, m0, t0, m1, t1, bank, start, burstLen, readLen)
    requires code == BurstSize(g, |piece|, i) / g.bus - 1
    requires Pinned(host, pa, piece)
    requires Stored(m1, t1, m2, t2, bank, start + BurstOffset(g, i),
                    HostBytes(host, pa + BurstOffset(g, i), CodeBytes(g.bus, if code != readLen then code else burstLen)), 0)
    ensures PieceState(g, piece, i + 1, register, m0, t0, m2, t2, bank, start, if code != readLen then code else burstLen, code)
  {
    BurstNumbers(g, |piece|, i, register);
    CodesAgree(g, |piece|, i, register);
    CopyStores(piece, BurstOffset(g, i), BurstSize(g, |piece|, i),
               OvershootBefore(g, |piece|, i, register), OvershootBefore(g, |piece|, i + 1, register),
               m0, t0, m1, t1, m2, t2, host, pa, bank, start);
  }

  lemma PieceEnds(s: Setup, piece: seq<Byte>, register: nat, m0: Memory, t0: set<(nat, nat)>, m: Memory, t: set<(nat, nat)>,
                  bank: nat, start: nat, burstLen: nat, readLen: nat)
    requires Usable(s) && |piece| > 0 && |piece| % s.g.bus == 0
    requires PieceState(s.g, piece, Requests(s.g, |piece|), register, m0, t0, m, t, bank, start, burstLen, readLen)
    ensures burstLen == PieceRegister(s, |piece|, register)
    ensures Stored(m0, t0, m, t, bank, start, Loadable(s, piece), PieceOvershoot(s, |piece|, register))
  {
    RequestBelow(s.g.maxBurst, 0, |piece|);
    assert piece[..|piece|] == piece;
  }

  lemma NothingPlanned(s: Setup, piece: seq<Byte>, register: nat, m: Memory, t: set<(nat, nat)>, bank: nat, start: nat)
    requires Usable(s) && (|piece| == 0 || |piece| % s.g.bus != 0)
    ensures PieceRegister(s, |piece|, register) == register
    ensures Stored(m, t, m, t, bank, start, Loadable(s, piece), PieceOvershoot(s, |piece|, register))
  {
    assert Range(bank, start, 0) == {};
  }

  /** One round of the loop: wait for a slot, set the length if it changed, write destination and source. */
  method IssueBurst(device: Device, g: Geometry, ghost weights: seq<Byte>, i: nat, pa: nat, start: nat, bank: nat,
                    offset: nat, len: nat, currentReadLen: nat, ghost register: nat, ghost m0: Memory, ghost t0: set<(nat, nat)>)
    returns (readLen: nat)
    requires device.Valid() && Bursts.Supported(g) && device.bus == g.bus
    requires start % g.bus == 0 && bank < g.bus && |weights| % g.bus == 0 && i < Requests(g, |weights|)
    requires offset == BurstOffset(g, i) && len == BurstSize(g, |weights|, i) / g.bus - 1
    requires Pinned(device.host, pa, weights)
    requires PieceState(g, weights, i, register, m0, t0, device.ddr, device.touched, bank, start, device.burstLen, currentReadLen)
    modifies device`pending, device`burstLen, device`dest, device`ddr, device`touched
    ensures device.Valid()
    ensures PieceState(g, weights, i + 1, register, m0, t0, device.ddr, device.touched, bank, start, device.burstLen, readLen)
  {
    device.AwaitReadSlot();
    readLen := currentReadLen;
    if len != readLen {
      device.SetReadBurstLen(len);
      readLen := len;
    }
    BankDecodes(g, start, i, bank);
    device.SetDestAddress(start + offset + bank);
    device.SetSrcAddress(pa + offset);
    PieceAdvances(g, weights, i, register, m0, t0, old(device.ddr), old(device.touched), device.ddr, device.touched,
                  device.host, pa, bank, start, old(device.burstLen), currentReadLen, len);
  }

  /** The bursts of one pinned piece, one after the other. */
  method WriteBursts(device: Device, s: Setup, ghost weights: seq<Byte>, numBursts: nat,
                     ghost sizes: seq<nat>, offsets: seq<nat>, lens: seq<nat>, pa: nat, start: nat, bank: nat)
    requires device.Valid() && Usable(s) && device.bus == s.g.bus && start % s.g.bus == 0 && bank < s.g.bus
    requires |weights| > 0 && |weights| % s.g.bus == 0 && numBursts == Requests(s.g, |weights|)
    requires Planned(s.g, |weights|, numBursts, sizes, offsets, lens)
    requires Pinned(device.host, pa, weights)
    modifies device`pending, device`burstLen, device`dest, device`ddr, device`touched
    ensures device.Valid() && device.burstLen == PieceRegister(s, |weights|, old(device.burstLen))
    ensures Stored(old(device.ddr), old(device.touched), device.ddr, device.touched, bank, start,
                   Loadable(s, weights), PieceOvershoot(s, |weights|, old(device.burstLen)))
  {
    ghost var register, m0, t0 := device.burstLen, device.ddr, device.touched;
    var currentReadLen := 0;
    PieceBegins(s.g, weights, register, m0, t0, bank, start);
    for i := 0 to numBursts
      invariant device.Valid()
      invariant PieceState(s.g, weights, i, register, m0, t0, device.ddr, device.touched, bank, start, device.burstLen, currentReadLen)
    {
      currentReadLen := IssueBurst(device, s.g, weights, i, pa, start, bank, offsets[i], lens[i], currentReadLen, register, m0, t0);
    }
    PieceEnds(s, weights, register, m0, t0, device.ddr, device.touched, bank, start, device.burstLen, currentReadLen);
  }

  /** One piece that fits the host buffer. Without registers or
      buffer it gives up before anything is written. */
  method LoadPiece(device: Device, s: Setup, sim: bool, weights: seq<Byte>, start: nat, bank: nat) returns (rc: int)
    requires device.Valid() && Usable(s) && device.bus == s.g.bus && |weights| <= s.maxHost
    requires start % s.g.bus == 0 && bank < s.g.bus
    modifies device
    ensures device.Valid() && (rc == 0 || rc == -1)
    ensures rc == 0 <==> (sim || device.maps(old(device.mapCalls))) && device.pins(old(device.pinCalls))
    ensures device.mapCalls == old(device.mapCalls) + if sim then 0 else 1
    ensures device.pinCalls == old(device.pinCalls) + if sim || device.maps(old(device.mapCalls)) then 1 else 0
    ensures rc == 0 ==>
      && device.burstLen == PieceRegister(s, |weights|, old(device.burstLen))
      && Stored(old(device.ddr), old(device.touched), device.ddr, device.touched, bank, start,
                Loadable(s, weights), PieceOvershoot(s, |weights|, old(device.burstLen)))
    ensures rc != 0 ==>
      device.burstLen == old(device.burstLen) && device.ddr == old(device.ddr) && device.touched == old(device.touched)
  {
    ghost var register := device.burstLen;
    if !sim {
      var mapped := device.MapRegisters();
      if !mapped { return -1; }
    }
    var numBursts, sizes, offsets, lens := CountAndPlan(s.g, |weights|);
    var gotBuffer, pa := device.PinBuffer(weights);
    if !gotBuffer { return -1; }
    rc := 0;
    if numBursts > 0 {
      WriteBursts(device, s, weights, numBursts, sizes[..], offsets[..], lens[..], pa, start, bank);
    } else {
      NothingPlanned(s, weights, register, device.ddr, device.touched, bank, start);
    }
  }

  // -------------------------------------------------------------- Many pieces

  /** The length register after a load of any size: piece by piece. */
  ghost function FinalRegister(s: Setup, size: nat, register: nat): (r: int)
    requires Usable(s)
    ensures r >= 0
    decreases size
  {
    PieceRegisterNat(s, if size <= s.maxHost then size else s.maxHost, register);
    if size <= s.maxHost then PieceRegister(s, size, register)
    else FinalRegister(s, size - s.maxHost, PieceRegister(s, s.maxHost, register))
  }

  lemma PieceRegisterNat(s: Setup, n: nat, register: nat)
    requires Usable(s)
    ensures PieceRegister(s, n, register) >= 0
  {
    if n > 0 && n % s.g.bus == 0 {
      RequestBelow(s.g.maxBurst, 0, n);
      BurstLengthCode(s.g, n, Requests(s.g, n) - 1);
    }
  }

  /** The cells overwritten behind the transfer. A piece that is loaded covers what the piece
      before it overwrote; one that is not leaves it. */
  ghost function Overshoot(s: Setup, size: nat, register: nat, so_far: nat): nat
    requires Usable(s)
    decreases size
  {
    PieceRegisterNat(s, if size <= s.maxHost then size else s.maxHost, register);
    if size <= s.maxHost then
      if size > 0 && size % s.g.bus == 0 then PieceOvershoot(s, size, register) else so_far
    else Overshoot(s, size - s.maxHost, PieceRegister(s, s.maxHost, register), PieceOvershoot(s, s.maxHost, register))
  }

  lemma WholePieces(s: Setup)
    requires Usable(s)
    ensures s.maxHost % s.g.bus == 0 && s.g.maxBurst <= s.maxHost
    ensures OneBeatOnly(s.g, s.maxHost) <==> s.g.maxBurst == s.g.bus
  {
    PowersDivide(s.g.bus, s.g.maxBurst);
    DividesThrough(s.g.bus, s.g.maxBurst, s.maxHost);
    MultipleAtLeast(s.g.maxBurst, s.maxHost);
  }

  lemma MultipleAtLeast(d: nat, n: nat)
    requires d > 0 && n > 0 && n % d == 0
    ensures d <= n
  {
    if n < d { DivModUnique(n, d, 0, n); }
  }

  /** A remainder is loaded or not regardless of the whole pieces before it. */
  lemma LoadedSplits(s: Setup, size: nat)
    requires Usable(s) && size > s.maxHost
    ensures LoadedBytes(s, size) == s.maxHost + LoadedBytes(s, size - s.maxHost)
  {
    WholePieces(s);
    SumUnits(s.maxHost, size - s.maxHost, s.g.bus);
    DivModUnique(s.maxHost, s.maxHost, 1, 0);
    SumUnits(s.maxHost, size - s.maxHost, s.maxHost);
  }

  /** The overshoot pending between two pieces: none, or one that lasts because no burst is longer than a beat. */
  ghost predicate Lasting(s: Setup, register: nat, over: nat)
    requires Usable(s)
  {
    over == 0 || (s.g.maxBurst == s.g.bus && over == register * s.g.bus)
  }

  lemma LastingKept(s: Setup, register: nat)
    requires Usable(s)
    ensures PieceRegister(s, s.maxHost, register) >= 0
    ensures Lasting(s, PieceRegister(s, s.maxHost, register), PieceOvershoot(s, s.maxHost, register))
  {
    WholePieces(s);
    PieceRegisterNat(s, s.maxHost, register);
  }

  /** The numbers of the loop over the pieces after `done` bytes, seen from the whole transfer. */
  ghost predicate LoadCounts(s: Setup, size: nat, done: nat, register: nat, burstLen: nat, over: nat)
    requires Usable(s)
  {
    && done < size && done % s.maxHost == 0
    && Lasting(s, burstLen, over)
    && FinalRegister(s, size, register) == FinalRegister(s, size - done, burstLen)
    && Overshoot(s, size, register, 0) == Overshoot(s, size - done, burstLen, over)
    && LoadedBytes(s, size) == done + LoadedBytes(s, size - done)
  }

  /** The loop over the pieces after `done` bytes. */
  ghost predicate LoadState(s: Setup, weights: seq<Byte>, done: nat, register: nat, m0: Memory, t0: set<(nat, nat)>,
                            m: Memory, t: set<(nat, nat)>, bank: nat, start: nat, burstLen: nat, over: nat)
    requires Usable(s)
  {
    && LoadCounts(s, |weights|, done, register, burstLen, over)
    && Stored(m0, t0, m, t, bank, start, weights[..done], over)
  }

  /** What one whole piece leaves behind. */
  lemma WholePieceNumbers(s: Setup, burstLen: nat)
    requires Usable(s)
    ensures LoadedBytes(s, s.maxHost) == s.maxHost
    ensures FinalRegister(s, s.maxHost, burstLen) == PieceRegister(s, s.maxHost, burstLen)
    ensures Overshoot(s, s.maxHost, burstLen, 0) == PieceOvershoot(s, s.maxHost, burstLen)
    ensures Lasting(s, FinalRegister(s, s.maxHost, burstLen), Overshoot(s, s.maxHost, burstLen, 0))
  {
    WholePieces(s);
    LastingKept(s, burstLen);
  }

  lemma CountsAdvance(s: Setup, size: nat, done: nat, register: nat, burstLen: nat, over: nat)
    requires Usable(s) && LoadCounts(s, size, done, register, burstLen, over) && done + s.maxHost < size
    ensures LoadCounts(s, size, done + s.maxHost, register,
                       FinalRegister(s, s.maxHost, burstLen), Overshoot(s, s.maxHost, burstLen, 0))
    ensures Covers(s.maxHost, over, s.maxHost, Overshoot(s, s.maxHost, burstLen, 0))
  {
    WholePieceNumbers(s, burstLen);
    WholePieces(s);
    PendingCovered(s, s.maxHost, burstLen, over);
    LoadedSplits(s, size - done);
    SumUnits(done, s.maxHost, s.maxHost);
    DivModUnique(s.maxHost, s.maxHost, 1, 0);
  }

  /** A piece that is loaded covers a pending overshoot; one that is not leaves it. */
  lemma PendingCovered(s: Setup, n: nat, burstLen: nat, over: nat)
    requires Usable(s) && 0 < n <= s.maxHost && Lasting(s, burstLen, over)
    ensures n % s.g.bus == 0 ==>
      LoadedBytes(s, n) == n && Overshoot(s, n, burstLen, over) == Overshoot(s, n, burstLen, 0)
      && over <= n + Overshoot(s, n, burstLen, 0)
    ensures n % s.g.bus != 0 ==>
      LoadedBytes(s, n) == 0 && Overshoot(s, n, burstLen, over) == over && Overshoot(s, n, burstLen, 0) == 0
  {
    if n % s.g.bus != 0 { RemainderNotLoaded(s, n); }
  }

  /** A piece of `n` bytes is loaded in full and reaches past the `over` cells overwritten so far. */
  predicate Covers(n: nat, over: nat, loaded: nat, behind: nat) {
    loaded == n && over <= loaded + behind
  }

  lemma CountsEnd(s: Setup, size: nat, done: nat, register: nat, burstLen: nat, over: nat)
    requires Usable(s) && LoadCounts(s, size, done, register, burstLen, over) && size <= done + s.maxHost
    ensures var n, behind := LoadedBytes(s, size - done), Overshoot(s, size - done, burstLen, 0);
      && (Covers(size - done, over, n, behind) || (n == 0 && behind == 0))
      && LoadedBytes(s, size) == done + n
      && Overshoot(s, size, register, 0) == if Covers(size - done, over, n, behind) then behind else over
  {
    PendingCovered(s, size - done, burstLen, over);
  }

  lemma StoreNothing(m0: Memory, t0: set<(nat, nat)>, m1: Memory, t1: set<(nat, nat)>, m2: Memory, t2: set<(nat, nat)>,
                     bank: nat, start: nat, data: seq<Byte>, over: nat, at: nat)
    requires Stored(m0, t0, m1, t1, bank, start, data, over) && Stored(m1, t1, m2, t2, bank, at, [], 0)
    ensures Stored(m0, t0, m2, t2, bank, start, data, over)
  {
    assert Range(bank, at, 0) == {};
    forall b: nat, a: nat ensures Lookup(m2, b, a) == Lookup(m1, b, a) {}
  }

  lemma RemainderNotLoaded(s: Setup, n: nat)
    requires Usable(s) && 0 < n <= s.maxHost && n % s.g.bus != 0
    ensures LoadedBytes(s, n) == 0
  {
    WholePieces(s);
    assert n != s.maxHost;
    ModSmall(n, s.maxHost);
  }

  lemma LoadBegins(s: Setup, weights: seq<Byte>, register: nat, m: Memory, t: set<(nat, nat)>, bank: nat, start: nat)
    requires Usable(s) && |weights| > 0
    ensures LoadState(s, weights, 0, register, m, t, m, t, bank, start, register, 0)
  {
    assert Range(bank, start, 0) == {};
    DivModUnique(0, s.maxHost, 0, 0);
  }

  lemma PieceAligned(s: Setup, start: nat, done: nat)
    requires Usable(s) && start % s.g.bus == 0 && done % s.maxHost == 0
    ensures (start + done) % s.g.bus == 0
  {
    WholePieces(s);
    DividesThrough(s.g.bus, s.maxHost, done);
    SumUnits(start, done, s.g.bus);
  }

  /** For a single piece the two descriptions of the load agree. */
  lemma PieceLoaded(s: Setup, piece: seq<Byte>, burstLen: nat, register: nat, m0: Memory, t0: set<(nat, nat)>,
                    m: Memory, t: set<(nat, nat)>, bank: nat, start: nat)
    requires Usable(s) && |piece| <= s.maxHost
    requires Stored(m0, t0, m, t, bank, start, Loadable(s, piece), PieceOvershoot(s, |piece|, register))
    ensures Stored(m0, t0, m, t, bank, start, piece[..LoadedBytes(s, |piece|)], Overshoot(s, |piece|, register, 0))
  {
    WholePieces(s);
    if |piece| % s.g.bus == 0 {
      assert piece[..|piece|] == piece;
    } else {
      DivModUnique(|piece|, s.maxHost, 0, |piece|);
    }
  }

  /** The loop over the pieces at `offset`: under way, or finished. */
  ghost predicate Loading(s: Setup, weights: seq<Byte>, offset: nat, register: nat, m0: Memory, t0: set<(nat, nat)>,
                          m: Memory, t: set<(nat, nat)>, bank: nat, start: nat, burstLen: nat, over: nat)
    requires Usable(s)
  {
    if offset < |weights| then LoadState(s, weights, offset, register, m0, t0, m, t, bank, start, burstLen, over)
    else
      && burstLen == FinalRegister(s, |weights|, register)
      && Stored(m0, t0, m, t, bank, start, weights[..LoadedBytes(s, |weights|)], Overshoot(s, |weights|, register, 0))
  }

  function PieceSize(s: Setup, rest: nat): nat {
    if rest < s.maxHost then rest else s.maxHost
  }

  /** A piece behind what is stored so far: `loaded` of its bytes, then `behind` further cells. */
  lemma JoinPiece(m0: Memory, t0: set<(nat, nat)>, m1: Memory, t1: set<(nat, nat)>, m2: Memory, t2: set<(nat, nat)>,
                  bank: nat, start: nat, weights: seq<Byte>, offset: nat, over: nat, piece: seq<Byte>, loaded: nat, behind: nat)
    requires offset + |piece| <= |weights| && piece == weights[offset..offset + |piece|]
    requires Covers(|piece|, over, loaded, behind) || (loaded == 0 && behind == 0)
    requires Stored(m0, t0, m1, t1, bank, start, weights[..offset], over)
    requires Stored(m1, t1, m2, t2, bank, start + offset, piece[..loaded], behind)
    ensures Stored(m0, t0, m2, t2, bank, start, weights[..offset + loaded],
                   if Covers(|piece|, over, loaded, behind) then behind else over)
  {
    if Covers(|piece|, over, loaded, behind) {
      assert weights[..offset] + piece[..loaded] == weights[..offset + loaded];
      StoreMore(m0, t0, m1, t1, m2, t2, bank, start, weights[..offset], over, piece[..loaded], behind);
    } else {
      assert piece[..loaded] == [];
      StoreNothing(m0, t0, m1, t1, m2, t2, bank, start, weights[..offset], over, start + offset);
    }
  }

  lemma RoundAdvances(s: Setup, weights: seq<Byte>, offset: nat, register: nat, m0: Memory, t0: set<(nat, nat)>,
                      m1: Memory, t1: set<(nat, nat)>, m2: Memory, t2: set<(nat, nat)>,
                      bank: nat, start: nat, burstLen: nat, over: nat, piece: seq<Byte>)
    requires Usable(s) && LoadState(s, weights, offset, register, m0, t0, m1, t1, bank, start, burstLen, over)
    requires offset + s.maxHost < |weights| && piece == weights[offset..offset + s.maxHost]
    requires Stored(m1, t1, m2, t2, bank, start + offset, piece[..s.maxHost], Overshoot(s, s.maxHost, burstLen, 0))
    ensures LoadState(s, weights, offset + s.maxHost, register, m0, t0, m2, t2, bank, start,
                      FinalRegister(s, s.maxHost, burstLen), Overshoot(s, s.maxHost, burstLen, 0))
  {
    CountsAdvance(s, |weights|, offset, register, burstLen, over);
    JoinPiece(m0, t0, m1, t1, m2, t2, bank, start, weights, offset, over, piece, s.maxHost, Overshoot(s, s.maxHost, burstLen, 0));
  }

  lemma RoundEnds(s: Setup, weights: seq<Byte>, offset: nat, register: nat, m0: Memory, t0: set<(nat, nat)>,
                  m1: Memory, t1: set<(nat, nat)>, m2: Memory, t2: set<(nat, nat)>,
                  bank: nat, start: nat, burstLen: nat, over: nat, piece: seq<Byte>, loaded: nat, behind: nat)
    requires Usable(s) && LoadState(s, weights, offset, register, m0, t0, m1, t1, bank, start, burstLen, over)
    requires |weights| <= offset + s.maxHost && piece == weights[offset..]
    requires loaded == LoadedBytes(s, |weights| - offset) && behind == Overshoot(s, |weights| - offset, burstLen, 0)
    requires Stored(m1, t1, m2, t2, bank, start + offset, piece[..loaded], behind)
    ensures Stored(m0, t0, m2, t2, bank, start, weights[..LoadedBytes(s, |weights|)], Overshoot(s, |weights|, register, 0))
  {
    CountsEnd(s, |weights|, offset, register, burstLen, over);
    JoinPiece(m0, t0, m1, t1, m2, t2, bank, start, weights, offset, over, piece, loaded, behind);
  }

  lemma LoadRound(s: Setup, weights: seq<Byte>, offset: nat, register: nat, m0: Memory, t0: set<(nat, nat)>,
                  m1: Memory, t1: set<(nat, nat)>, m2: Memory, t2: set<(nat, nat)>,
                  bank: nat, start: nat, burstLen: nat, over: nat, piece: seq<Byte>)
    requires Usable(s) && offset < |weights|
    requires Loading(s, weights, offset, register, m0, t0, m1, t1, bank, start, burstLen, over)
    requires piece == weights[offset..offset + PieceSize(s, |weights| - offset)]
    requires Stored(m1, t1, m2, t2, bank, start + offset, piece[..LoadedBytes(s, |piece|)], Overshoot(s, |piece|, burstLen, 0))
    ensures Loading(s, weights, offset + s.maxHost, register, m0, t0, m2, t2, bank, start,
                    FinalRegister(s, |piece|, burstLen), Overshoot(s, |piece|, burstLen, 0))
  {
    if offset + s.maxHost < |weights| {
      WholePieceNumbers(s, burstLen);
      RoundAdvances(s, weights, offset, register, m0, t0, m1, t1, m2, t2, bank, start, burstLen, over, piece);
    } else {
      assert piece == weights[offset..] && |piece| == |weights| - offset;
      RoundEnds(s, weights, offset, register, m0, t0, m1, t1, m2, t2, bank, start, burstLen, over,
                piece, LoadedBytes(s, |piece|), Overshoot(s, |piece|, burstLen, 0));
    }
  }

  /** A load that gave up between two pieces: the first `done` bytes are stored, and at most an
      overshoot of the register lies behind them. */
  ghost predicate GaveUp(s: Setup, weights: seq<Byte>, done: nat, over: nat, m0: Memory, t0: set<(nat, nat)>,
                         m: Memory, t: set<(nat, nat)>, bank: nat, start: nat, burstLen: nat)
    requires Usable(s)
  {
    && done <= |weights| && done % s.maxHost == 0
    && Lasting(s, burstLen, over)
    && Stored(m0, t0, m, t, bank, start, weights[..done], over)
  }

  lemma GivesUpAtOnce(s: Setup, weights: seq<Byte>, m: Memory, t: set<(nat, nat)>, bank: nat, start: nat, burstLen: nat)
    requires Usable(s)
    ensures GaveUp(s, weights, 0, 0, m, t, m, t, bank, start, burstLen)
  {
    assert Range(bank, start, 0) == {};
    DivModUnique(0, s.maxHost, 0, 0);
  }

  /** Where the `i`-th piece starts: behind `i` full ones. */
  function PieceStart(s: Setup, i: nat): nat {
    if i == 0 then 0 else PieceStart(s, i - 1) + s.maxHost
  }

  lemma {:induction false} LaterPieceBehind(s: Setup, n: nat, i: nat)
    requires n <= i
    ensures PieceStart(s, n) <= PieceStart(s, i)
  {
    if n < i { LaterPieceBehind(s, n, i - 1); }
  }

  lemma {:induction false} PieceStartIs(s: Setup, i: nat)
    ensures PieceStart(s, i) == i * s.maxHost
  {
    if i > 0 {
      PieceStartIs(s, i - 1);
      TimesNext(i - 1, s.maxHost);
    }
  }

  /** The pieces of a load of `size` bytes; an empty load has one, of no bytes. */
  predicate IsPiece(s: Setup, size: nat, i: nat) {
    i == 0 || PieceStart(s, i) < size
  }

  lemma {:induction false} NoMorePieces(s: Setup, size: nat, n: nat, i: nat)
    requires 0 < n && size <= PieceStart(s, n) && IsPiece(s, size, i)
    ensures i < n
  {
    if i >= n { LaterPieceBehind(s, n, i); }
  }

  /** Every piece gets registers and buffer. */
  ghost predicate AllWork(device: Device, s: Setup, size: nat, sim: bool, mapCalls: nat, pinCalls: nat) {
    forall i: nat :: IsPiece(s, size, i) ==> device.Works(sim, mapCalls, pinCalls, i)
  }

  /** The first `n` pieces did. */
  ghost predicate WorkedSoFar(device: Device, sim: bool, mapCalls: nat, pinCalls: nat, n: nat) {
    forall i: nat :: i < n ==> device.Works(sim, mapCalls, pinCalls, i)
  }

  /** They did, and nothing else was asked of the driver. */
  ghost predicate CallsMade(device: Device, sim: bool, mapCalls: nat, pinCalls: nat, n: nat)
    reads device
  {
    && device.mapCalls == mapCalls + (if sim then 0 else n) && device.pinCalls == pinCalls + n
    && WorkedSoFar(device, sim, mapCalls, pinCalls, n)
  }

  lemma NextCall(device: Device, sim: bool, mapCalls: nat, pinCalls: nat, n: nat, map': nat, pin': nat)
    requires map' == mapCalls + (if sim then 0 else n) && pin' == pinCalls + n
    ensures device.Works(sim, mapCalls, pinCalls, n) == device.Works(sim, map', pin', 0)
  {
  }

  lemma {:induction false} OneFailed(device: Device, s: Setup, size: nat, sim: bool, mapCalls: nat, pinCalls: nat, i: nat)
    requires IsPiece(s, size, i) && !device.Works(sim, mapCalls, pinCalls, i)
    ensures !AllWork(device, s, size, sim, mapCalls, pinCalls)
  {
  }

  lemma {:induction false} AllWorked(device: Device, s: Setup, size: nat, sim: bool, mapCalls: nat, pinCalls: nat, n: nat)
    requires 0 < n && size <= PieceStart(s, n) && WorkedSoFar(device, sim, mapCalls, pinCalls, n)
    ensures AllWork(device, s, size, sim, mapCalls, pinCalls)
  {
    forall i: nat | IsPiece(s, size, i) ensures device.Works(sim, mapCalls, pinCalls, i) {
      NoMorePieces(s, size, n, i);
    }
  }

  /** The whole load. Transfers larger than the host buffer are cut into pieces and loaded one
      by one through a recursive call, until one fails. The result code is 0 even when nothing
      was planned. */
  method LoadWeights(device: Device, s: Setup, sim: bool, weights: seq<Byte>, start: nat, bank: nat)
    returns (rc: int, ghost loaded: nat, ghost over: nat)
    requires device.Valid() && Usable(s) && device.bus == s.g.bus
    requires start % s.g.bus == 0 && bank < s.g.bus
    modifies device
    ensures device.Valid() && (rc == 0 || rc == if |weights| > s.maxHost then 1 else -1)
    ensures rc == 0 <==> AllWork(device, s, |weights|, sim, old(device.mapCalls), old(device.pinCalls))
    ensures WorkedSoFar(device, sim, old(device.mapCalls), old(device.pinCalls), loaded)
    ensures rc == 0 ==> CallsMade(device, sim, old(device.mapCalls), old(device.pinCalls), loaded)
    ensures |weights| <= s.maxHost ==>
      && loaded == (if rc == 0 then 1 else 0)
      && (rc == 0 <==> device.Works(sim, old(device.mapCalls), old(device.pinCalls), 0))
    ensures rc == 0 ==>
      && device.burstLen == FinalRegister(s, |weights|, old(device.burstLen))
      && Stored(old(device.ddr), old(device.touched), device.ddr, device.touched, bank, start,
                weights[..LoadedBytes(s, |weights|)], Overshoot(s, |weights|, old(device.burstLen), 0))
    ensures rc != 0 ==>
      && IsPiece(s, |weights|, loaded)
      && !device.Works(sim, old(device.mapCalls), old(device.pinCalls), loaded)
      && GaveUp(s, weights, PieceStart(s, loaded), over, old(device.ddr), old(device.touched), device.ddr, device.touched,
                bank, start, device.burstLen)
    ensures rc != 0 && |weights| <= s.maxHost ==>
      device.burstLen == old(device.burstLen) && device.ddr == old(device.ddr) && device.touched == old(device.touched)
    decreases |weights|, 1
  {
    ghost var register, m0, t0 := device.burstLen, device.ddr, device.touched;
    ghost var maps0, pins0 := device.mapCalls, device.pinCalls;
    loaded, over := 0, 0;
    if |weights| > s.maxHost {
      var offset: nat := 0;
      LoadBegins(s, weights, register, m0, t0, bank, start);
      while offset < |weights|
        invariant device.Valid() && offset == PieceStart(s, loaded)
        invariant CallsMade(device, sim, maps0, pins0, loaded)
        invariant Loading(s, weights, offset, register, m0, t0, device.ddr, device.touched, bank, start, device.burstLen, over)
      {
        rc, over := LoadNext(device, s, sim, weights, offset, start, bank, register, m0, t0, over, maps0, pins0, loaded);
        if rc != 0 {
          OneFailed(device, s, |weights|, sim, maps0, pins0, loaded);
          return 1, loaded, over;
        }
        offset, loaded := offset + s.maxHost, loaded + 1;
      }
      AllWorked(device, s, |weights|, sim, maps0, pins0, loaded);
      return 0, loaded, over;
    }
    rc := LoadPiece(device, s, sim, weights, start, bank);
    GivesUpAtOnce(s, weights, m0, t0, bank, start, register);
    if rc == 0 {
      loaded := 1;
      AllWorked(device, s, |weights|, sim, maps0, pins0, 1);
      PieceLoaded(s, weights, device.burstLen, register, m0, t0, device.ddr, device.touched, bank, start);
    } else {
      OneFailed(device, s, |weights|, sim, maps0, pins0, 0);
    }
  }

  /** One round of the loop: the piece at `offset`. */
  method LoadNext(device: Device, s: Setup, sim: bool, weights: seq<Byte>, offset: nat, start: nat, bank: nat,
                  ghost register: nat, ghost m0: Memory, ghost t0: set<(nat, nat)>, ghost over: nat,
                  ghost maps0: nat, ghost pins0: nat, ghost loaded: nat)
    returns (rc: int, ghost behind: nat)
    requires device.Valid() && Usable(s) && device.bus == s.g.bus
    requires start % s.g.bus == 0 && bank < s.g.bus && s.maxHost < |weights| && offset < |weights|
    requires CallsMade(device, sim, maps0, pins0, loaded)
    requires Loading(s, weights, offset, register, m0, t0, device.ddr, device.touched, bank, start, device.burstLen, over)
    modifies device
    ensures device.Valid()
    ensures rc == 0 <==> device.Works(sim, maps0, pins0, loaded)
    ensures rc == 0 ==>
      && CallsMade(device, sim, maps0, pins0, loaded + 1)
      && Loading(s, weights, offset + s.maxHost, register, m0, t0, device.ddr, device.touched, bank, start, device.burstLen, behind)
    ensures rc != 0 ==>
      GaveUp(s, weights, offset, behind, m0, t0, device.ddr, device.touched, bank, start, device.burstLen)
    decreases |weights|, 0
  {
    ghost var m1, t1, burstLen := device.ddr, device.touched, device.burstLen;
    PieceAligned(s, start, offset);
    var piece := weights[offset..offset + PieceSize(s, |weights| - offset)];
    ghost var n, o;
    NextCall(device, sim, maps0, pins0, loaded, device.mapCalls, device.pinCalls);
    rc, n, o := LoadWeights(device, s, sim, piece, start + offset, bank);
    behind := over;
    if rc == 0 {
      LoadRound(s, weights, offset, register, m0, t0, m1, t1, device.ddr, device.touched, bank, start, burstLen, over, piece);
      behind := Overshoot(s, |piece|, burstLen, 0);
    }
  }

  // ------------------------------------------------------ When a load is exact

  /** The weights arrive in full and nothing behind them is overwritten. */
  ghost predicate LoadsExactly(s: Setup, size: nat, register: nat)
    requires Usable(s)
  {
    LoadedBytes(s, size) == size && Overshoot(s, size, register, 0) == 0
  }

  /** The check a caller can make beforehand. A transfer whose last piece is a single transfer
      unit keeps the length register of the piece before it, or the one it found. */
  ghost predicate NoStaleBurst(s: Setup, size: nat, register: nat)
    requires Usable(s)
  {
    if s.g.maxBurst == s.g.bus || size == s.g.bus then register == 0
    else !(size > s.maxHost && size % s.maxHost == s.g.bus)
  }

  lemma FullPieceCode(s: Setup)
    requires Usable(s) && s.g.maxBurst > s.g.bus
    ensures LastCode(s.g, s.maxHost) > 0 && LastCode(s.g, s.maxHost) * s.g.bus == s.g.maxBurst - s.g.bus
  {
    var size := s.g.maxBurst;
    WholePieces(s);
    RequestBelow(size, 0, s.maxHost);
    LastIsFull(s.maxHost, size);
    BurstLengthCode(s.g, s.maxHost, Requests(s.g, s.maxHost) - 1);
    TimesNext(LastCode(s.g, s.maxHost), s.g.bus);
  }

  /** The last of the requests for a whole number of largest bursts is a largest one. */
  lemma LastIsFull(n: nat, size: nat)
    requires size > 0 && n > 0 && n % size == 0
    ensures (CeilDiv(n, size) - 1) * size == n - size
  {
    var k := n / size;
    assert n == size * k;
    assert n + size - 1 == k * size + (size - 1);
    DivModUnique(n + size - 1, size, k, size - 1);
  }

  lemma NonEmptyProduct(register: nat, bus: nat)
    requires bus > 0
    ensures register * bus == 0 <==> register == 0
  {
    if register > 0 { MulMonotone(1, register, bus); }
  }

  /** How much is overwritten behind the weights: a single transfer unit at the end is copied with
      the length of the burst before it, or with the one that the register held at the start. */
  ghost function Behind(s: Setup, size: nat, register: nat): int
    requires Usable(s)
  {
    if s.g.maxBurst == s.g.bus || size == s.g.bus then register * s.g.bus
    else if size > s.maxHost && size % s.maxHost == s.g.bus then s.g.maxBurst - s.g.bus
    else 0
  }

  /** Peeling whole pieces off the front changes nothing about the last piece. */
  lemma {:induction false} OvershootOfLoaded(s: Setup, size: nat, register: nat, so_far: nat)
    requires Usable(s) && size > 0 && size % s.g.bus == 0
    ensures Overshoot(s, size, register, so_far) == Behind(s, size, register)
    decreases size
  {
    WholePieces(s);
    if size > s.maxHost {
      PieceRegisterNat(s, s.maxHost, register);
      var next, rest := PieceRegister(s, s.maxHost, register), size - s.maxHost;
      SumUnits(s.maxHost, rest, s.g.bus);
      DivModUnique(s.maxHost, s.maxHost, 1, 0);
      SumUnits(s.maxHost, rest, s.maxHost);
      OvershootOfLoaded(s, rest, next, PieceOvershoot(s, s.maxHost, register));
      if s.g.maxBurst > s.g.bus { BehindPeeled(s, size, rest, register, next); }
    }
  }

  lemma BehindPeeled(s: Setup, size: nat, rest: nat, register: nat, next: nat)
    requires Usable(s) && s.g.maxBurst > s.g.bus && size == s.maxHost + rest && 0 < rest && s.g.bus < size
    requires next == LastCode(s.g, s.maxHost) && size % s.maxHost == rest % s.maxHost
    ensures Behind(s, rest, next) == Behind(s, size, register)
  {
    WholePieces(s);
    FullPieceCode(s);
    if rest < s.maxHost { DivModUnique(rest, s.maxHost, 0, rest); }
    if rest == s.maxHost { DivModUnique(rest, s.maxHost, 1, 0); }
  }

  /** A load is exact if and only if the size is a whole number of transfer units and no piece
      starts with a one-beat burst under a stale length register. */
  lemma ExactlyWhenNoStaleBurst(s: Setup, size: nat, register: nat)
    requires Usable(s) && size > 0
    ensures LoadsExactly(s, size, register) <==> size % s.g.bus == 0 && NoStaleBurst(s, size, register)
  {
    if size % s.g.bus == 0 {
      OvershootOfLoaded(s, size, register, 0);
      NonEmptyProduct(register, s.g.bus);
    } else {
      Unaligned(s, size);
    }
  }

  lemma Unaligned(s: Setup, size: nat)
    requires Usable(s) && size % s.g.bus != 0
    ensures LoadedBytes(s, size) < size
  {
    if size % s.maxHost == 0 {
      PieceAligned(s, 0, size);
    }
  }

  /** With the repository's own constants, one unit more than a full piece overwrites 4032 cells
      behind the weights. */
  lemma OneUnitTooMany(register: nat)
    ensures var s := Setup(Geometry(64, 4096), 0x20_0000);
            && Usable(s) && !LoadsExactly(s, 0x20_0000 + 64, register)
            && Overshoot(s, 0x20_0000 + 64, register, 0) == 4032
  {
    var s := Setup(Geometry(64, 4096), 0x20_0000);
    Word32IsPower();
    assert IsPowerOfTwo(64) by { PowersBySixteen(4); }
    ExactlyWhenNoStaleBurst(s, 0x20_0000 + 64, register);
    OvershootOfLoaded(s, 0x20_0000 + 64, register, 0);
  }
}
