/** What a DMA transfer does to RAM. */
module DmaLaws {
  import opened Arith
  import opened Words
  import opened Memory
  import opened MemoryLaws
  import opened Dma

  function Bytes(n: nat, wide: bool): nat {
    if wide then 4 * n else 2 * n
  }

  /** `n` bytes from `addr` on map to consecutive canonical RAM addresses.  The upper part of a VRAM
      mirror repeats the first 32 KB only as far as the mirror goes. */
  predicate Linear(addr: int, n: nat) {
    && 0 <= addr < 0x0800_0000 && Span(MapAddress(addr), n)
    && (VRAM_START <= addr < OAM_START && addr % 0x2_0000 >= VRAM_SIZE ==> addr % 0x2_0000 + n <= 0x2_0000)
  }

  /** Stepping inside a mirror of `size` bytes, all of them below `end`. */
  lemma StepInMirror(addr: nat, k: nat, size: nat, mirrors: nat)
    requires size > 0 && addr < size * mirrors && addr % size + k < size
    ensures (addr + k) % size == addr % size + k && addr + k < size * mirrors
  {
    MirrorStep(addr, k, size);
    var q := addr / size;
    assert addr == size * q + addr % size;
    assert q < mirrors by {
      if q >= mirrors { ProductMonotone(size, mirrors, q); }
    }
    ProductMonotone(size, q + 1, mirrors);
    assert size * (q + 1) == size * q + size;
  }

  lemma StepEwram(addr: word, k: nat)
    requires EWRAM_START <= addr < IWRAM_START && addr % EWRAM_SIZE + k < EWRAM_SIZE
    ensures addr + k < IWRAM_START && MapAddress(addr + k) == MapAddress(addr) + k
  {
    StepInMirror(addr, k, EWRAM_SIZE, IWRAM_START / EWRAM_SIZE);
  }

  lemma StepIwram(addr: word, k: nat)
    requires IWRAM_START <= addr < IO_START && addr % IWRAM_SIZE + k < IWRAM_SIZE
    ensures addr + k < IO_START && MapAddress(addr + k) == MapAddress(addr) + k
  {
    StepInMirror(addr, k, IWRAM_SIZE, IO_START / IWRAM_SIZE);
  }

  lemma StepPalette(addr: word, k: nat)
    requires PALETTE_START <= addr < VRAM_START && addr % PALETTE_SIZE + k < PALETTE_SIZE
    ensures addr + k < VRAM_START && MapAddress(addr + k) == MapAddress(addr) + k
  {
    StepInMirror(addr, k, PALETTE_SIZE, VRAM_START / PALETTE_SIZE);
  }

  lemma StepVram(addr: word, k: nat)
    requires VRAM_START <= addr < OAM_START && addr % 0x2_0000 + k < 0x2_0000
    requires addr % 0x2_0000 < VRAM_SIZE ==> addr % 0x2_0000 + k < VRAM_SIZE
    ensures addr + k < OAM_START && MapAddress(addr + k) == MapAddress(addr) + k
    ensures (addr + k) % 0x2_0000 == addr % 0x2_0000 + k
  {
    StepInMirror(addr, k, 0x2_0000, OAM_START / 0x2_0000);
  }

  lemma StepOam(addr: word, k: nat)
    requires OAM_START <= addr < ROM_START && addr % OAM_SIZE + k < OAM_SIZE
    ensures addr + k < ROM_START && MapAddress(addr + k) == MapAddress(addr) + k
  {
    StepInMirror(addr, k, OAM_SIZE, ROM_START / OAM_SIZE);
  }

  /** A linear range stays inside the mirror it starts in. */
  lemma LinearBounds(addr: word, n: nat)
    requires Linear(addr, n)
    ensures addr < IWRAM_START ==> EWRAM_START <= addr && addr % EWRAM_SIZE + n <= EWRAM_SIZE
    ensures IWRAM_START <= addr < IO_START ==> addr % IWRAM_SIZE + n <= IWRAM_SIZE
    ensures IO_START <= addr < VRAM_START ==> PALETTE_START <= addr && addr % PALETTE_SIZE + n <= PALETTE_SIZE
    ensures VRAM_START <= addr < OAM_START ==>
              addr % 0x2_0000 + n <= 0x2_0000 && (addr % 0x2_0000 < VRAM_SIZE ==> addr % 0x2_0000 + n <= VRAM_SIZE)
    ensures OAM_START <= addr ==> addr < ROM_START && addr % OAM_SIZE + n <= OAM_SIZE
  {
  }

  /** Consecutive addresses of a linear range map to consecutive canonical ones. */
  lemma LinearStep(addr: int, n: nat, k: nat)
    requires Linear(addr, n) && k < n
    ensures 0x0200_0000 <= addr && addr + k < 0x0800_0000
    ensures MapAddress(addr + k) == MapAddress(addr) + k
  {
    LinearBounds(addr, n);
    hide MapAddress, Linear;
    if addr < IWRAM_START {
      StepEwram(addr, k);
    } else if addr < IO_START {
      StepIwram(addr, k);
    } else if addr < VRAM_START {
      StepPalette(addr, k);
    } else if addr < OAM_START {
      StepVram(addr, k);
    } else {
      StepOam(addr, k);
    }
  }

  /** The rest of a linear range. */
  lemma LinearRest(addr: int, n: nat, k: nat)
    requires Linear(addr, n) && k < n
    ensures Linear(addr + k, n - k)
  {
    LinearStep(addr, n, k);
    SpanInside(MapAddress(addr), n, MapAddress(addr) + k, n - k);
    LinearBounds(addr, n);
    hide MapAddress, Span;
    if VRAM_START <= addr < OAM_START {
      StepVram(addr, k);
    } else if VRAM_START <= addr + k < OAM_START {
      StepPalette(addr, k);
    }
  }

  // ----- units -----

  function UnitAt(m: MemState, c: int, wide: bool): word
    requires Span(c, Bytes(1, wide))
  {
    if wide then WordAt(m, c) else HalfAt(m, c)
  }

  function PokeUnit(m: MemState, c: int, v: word, wide: bool): MemState
    requires Span(c, Bytes(1, wide))
    requires wide || v < 0x1_0000
  {
    if wide then Poke4(m, c, v) else Poke2(m, c, v)
  }

  lemma HalfRange(m: MemState, c: int, wide: bool)
    requires Span(c, Bytes(1, wide))
    ensures wide || UnitAt(m, c, wide) < 0x1_0000
  {
  }

  lemma UnitStored(m: MemState, c: int, v: word, d: int, wide: bool)
    requires Span(c, Bytes(1, wide)) && Span(d, Bytes(1, wide)) && (wide || v < 0x1_0000)
    ensures d == c ==> UnitAt(PokeUnit(m, c, v, wide), d, wide) == v
    ensures d + Bytes(1, wide) <= c || c + Bytes(1, wide) <= d ==>
              UnitAt(PokeUnit(m, c, v, wide), d, wide) == UnitAt(m, d, wide)
    ensures OnlyChanged(m, PokeUnit(m, c, v, wide), c, Bytes(1, wide))
  {
    hide Poke4, Poke2, WordAt, HalfAt, OnlyChanged, Span;
    if wide {
      WordStored(m, c, v, d);
    } else {
      HalfStored(m, c, v, d);
    }
  }

  /** Either half of the latch holds the halfword fetched. */
  lemma LatchHalf(h: half, dst: int)
    ensures HalfOf(Twice(h), dst) == h
  {
  }

  /** In RAM a unit is read at the canonical source and stored at the canonical destination. */
  lemma MoveUnitRam(m: MemState, latch: word, src: word, dst: word, wide: bool)
    requires src >= 0x0200_0000
    requires Span(MapAddress(src), Bytes(1, wide)) && Span(MapAddress(dst), Bytes(1, wide))
    ensures var v := UnitAt(m, MapAddress(src), wide);
            && (wide || v < 0x1_0000)
            && MoveUnit(m, latch, src, dst, wide).m == PokeUnit(m, MapAddress(dst), v, wide)
  {
    hide MapAddress, Span, Read32, Read16, AfterRead32, AfterRead16, Write32, Write16, Poke4, Poke2, WordAt, HalfAt,
        HalfOf, Twice;
    HalfRange(m, MapAddress(src), wide);
    if wide {
      Read32Ram(m, src);
      Write32Ram(m, dst, WordAt(m, MapAddress(src)));
    } else {
      Read16Ram(m, src);
      LatchHalf(HalfAt(m, MapAddress(src)), dst);
      Write16Ram(m, dst, HalfAt(m, MapAddress(src)));
    }
  }

  // ----- a forward copy between canonical ranges -----

  predicate Ranges(c: int, d: int, wide: bool, n: nat) {
    n > 0 && Span(c, Bytes(n, wide)) && Span(d, Bytes(n, wide))
  }

  predicate UnitOk(c: int, wide: bool) {
    Span(c, Bytes(1, wide))
  }

  lemma RangeUnit(c: int, d: int, wide: bool, n: nat, i: nat)
    requires i < n && Ranges(c, d, wide, n)
    ensures UnitOk(c + Bytes(i, wide), wide) && UnitOk(d + Bytes(i, wide), wide)
  {
    SpanInside(c, Bytes(n, wide), c + Bytes(i, wide), Bytes(1, wide));
    SpanInside(d, Bytes(n, wide), d + Bytes(i, wide), Bytes(1, wide));
  }

  lemma RangeRest(c: int, d: int, wide: bool, n: nat)
    requires Ranges(c, d, wide, n)
    ensures n > 0 && UnitOk(c, wide) && UnitOk(d, wide)
    ensures n > 1 ==> Ranges(c + Bytes(1, wide), d + Bytes(1, wide), wide, n - 1)
  {
    RangeUnit(c, d, wide, n, 0);
    if n > 1 {
      SpanInside(c, Bytes(n, wide), c + Bytes(1, wide), Bytes(n - 1, wide));
      SpanInside(d, Bytes(n, wide), d + Bytes(1, wide), Bytes(n - 1, wide));
    }
  }

  function CopyUnit(m: MemState, c: int, d: int, wide: bool): MemState
    requires UnitOk(c, wide) && UnitOk(d, wide)
  {
    HalfRange(m, c, wide);
    PokeUnit(m, d, UnitAt(m, c, wide), wide)
  }

  function CopyUnits(m: MemState, c: int, d: int, wide: bool, n: nat): MemState
    requires Ranges(c, d, wide, n)
    decreases n
  {
    RangeRest(c, d, wide, n);
    var w := CopyUnit(m, c, d, wide);
    if n == 1 then w else CopyUnits(w, c + Bytes(1, wide), d + Bytes(1, wide), wide, n - 1)
  }

  lemma CopyUnfold(m: MemState, c: int, d: int, wide: bool, n: nat)
    requires Ranges(c, d, wide, n)
    ensures n > 0 && UnitOk(c, wide) && UnitOk(d, wide)
    ensures n == 1 ==> CopyUnits(m, c, d, wide, n) == CopyUnit(m, c, d, wide)
    ensures n > 1 ==>
              && Ranges(c + Bytes(1, wide), d + Bytes(1, wide), wide, n - 1)
              && CopyUnits(m, c, d, wide, n)
                 == CopyUnits(CopyUnit(m, c, d, wide), c + Bytes(1, wide), d + Bytes(1, wide), wide, n - 1)
  {
    hide CopyUnit, Ranges, UnitOk;
    RangeRest(c, d, wide, n);
  }

  /** One unit copied: what it becomes, and what stays. */
  lemma UnitCopied(m: MemState, c: int, d: int, e: int, wide: bool)
    requires UnitOk(c, wide) && UnitOk(d, wide) && UnitOk(e, wide)
    ensures var w := CopyUnit(m, c, d, wide);
            && UnitAt(w, d, wide) == UnitAt(m, c, wide)
            && (e + Bytes(1, wide) <= d || d + Bytes(1, wide) <= e ==> UnitAt(w, e, wide) == UnitAt(m, e, wide))
            && OnlyChanged(m, w, d, Bytes(1, wide))
  {
    HalfRange(m, c, wide);
    hide PokeUnit, UnitAt, OnlyChanged, Span;
    UnitStored(m, d, UnitAt(m, c, wide), d, wide);
    UnitStored(m, d, UnitAt(m, c, wide), e, wide);
  }

  lemma MoveUnitCopies(m: MemState, latch: word, src: word, dst: word, wide: bool)
    requires src >= 0x0200_0000
    requires UnitOk(MapAddress(src), wide) && UnitOk(MapAddress(dst), wide)
    ensures MoveUnit(m, latch, src, dst, wide).m == CopyUnit(m, MapAddress(src), MapAddress(dst), wide)
  {
    hide MoveUnit, MapAddress, PokeUnit, UnitAt, Span;
    MoveUnitRam(m, latch, src, dst, wide);
  }

  lemma LinearRanges(src: int, dst: int, wide: bool, n: nat)
    requires n > 0 && Linear(src, Bytes(n, wide)) && Linear(dst, Bytes(n, wide))
    ensures Ranges(MapAddress(src), MapAddress(dst), wide, n)
    ensures 0x0200_0000 <= src < TWO_32 && 0 <= dst < TWO_32
    ensures n > 1 ==>
              var u := Bytes(1, wide);
              && Linear(src + u, Bytes(n - 1, wide)) && Linear(dst + u, Bytes(n - 1, wide))
              && MapAddress(src + u) == MapAddress(src) + u && MapAddress(dst + u) == MapAddress(dst) + u
  {
    var u := Bytes(1, wide);
    LinearStep(src, Bytes(n, wide), 0);
    LinearStep(dst, Bytes(n, wide), 0);
    if n > 1 {
      LinearRest(src, Bytes(n, wide), u);
      LinearRest(dst, Bytes(n, wide), u);
      LinearStep(src, Bytes(n, wide), u);
      LinearStep(dst, Bytes(n, wide), u);
    }
    hide MapAddress, Span;
  }

  /** The transfer loop, between linear ranges, is the forward copy. */
  lemma {:induction false} MoveUnitsRam(m: MemState, latch: word, src: int, dst: int, wide: bool, n: nat)
    requires n > 0 && Linear(src, Bytes(n, wide)) && Linear(dst, Bytes(n, wide))
    ensures Ranges(MapAddress(src), MapAddress(dst), wide, n)
    ensures MoveUnits(m, latch, src, dst, Bytes(1, wide), Bytes(1, wide), wide, n).m
            == CopyUnits(m, MapAddress(src), MapAddress(dst), wide, n)
    decreases n
  {
    hide MoveUnit, CopyUnit, CopyUnits, MapAddress, Linear, Ranges, UnitOk;
    LinearRanges(src, dst, wide, n);
    CopyUnfold(m, MapAddress(src), MapAddress(dst), wide, n);
    MoveUnitCopies(m, latch, src, dst, wide);
    if n > 1 {
      var one := MoveUnit(m, latch, src, dst, wide);
      MoveUnitsRam(one.m, one.latch, src + Bytes(1, wide), dst + Bytes(1, wide), wide, n - 1);
    }
  }

  lemma OnlyChangedThen(m: MemState, v: MemState, w: MemState, c: int, n: nat, d: int, k: nat, l: nat)
    requires OnlyChanged(m, v, c, n) && OnlyChanged(v, w, d, k) && c <= d && d + k <= c + l && n <= l
    ensures OnlyChanged(m, w, c, l)
  {
    hide Cell, IsRam, SameDevices;
    SameDevicesThen(m, v, w);
  }

  lemma SameDevicesThen(m: MemState, v: MemState, w: MemState)
    ensures SameDevices(m, v) && SameDevices(v, w) ==> SameDevices(m, w)
  {
  }

  lemma {:induction false} CopyChangesOnly(m: MemState, c: int, d: int, wide: bool, n: nat)
    requires Ranges(c, d, wide, n)
    ensures OnlyChanged(m, CopyUnits(m, c, d, wide, n), d, Bytes(n, wide))
    decreases n
  {
    hide CopyUnit, CopyUnits, OnlyChanged, Ranges, UnitOk, UnitAt;
    CopyUnfold(m, c, d, wide, n);
    UnitCopied(m, c, d, d, wide);
    if n > 1 {
      var w := CopyUnit(m, c, d, wide);
      CopyChangesOnly(w, c + Bytes(1, wide), d + Bytes(1, wide), wide, n - 1);
      OnlyChangedThen(m, w, CopyUnits(m, c, d, wide, n), d, Bytes(1, wide), d + Bytes(1, wide), Bytes(n - 1, wide),
          Bytes(n, wide));
    }
  }

  lemma UnitUntouched(m: MemState, w: MemState, c: int, n: nat, d: int, wide: bool)
    requires OnlyChanged(m, w, c, n) && UnitOk(d, wide)
    requires d + Bytes(1, wide) <= c || c + n <= d
    ensures UnitAt(w, d, wide) == UnitAt(m, d, wide)
  {
    SpanCell(d, if wide then 4 else 2, 0);
    SpanCell(d, if wide then 4 else 2, 1);
    if wide {
      SpanCell(d, 4, 2);
      SpanCell(d, 4, 3);
    }
    hide Cell, IsRam, Span;
  }

  /** The first unit of a copy is there at the end: later units land beyond it. */
  lemma FirstUnitStays(m: MemState, c: int, d: int, wide: bool, n: nat)
    requires Ranges(c, d, wide, n)
    ensures UnitOk(c, wide) && UnitOk(d, wide)
    ensures UnitAt(CopyUnits(m, c, d, wide, n), d, wide) == UnitAt(m, c, wide)
  {
    hide CopyUnit, CopyUnits, OnlyChanged, Ranges, UnitOk, UnitAt;
    CopyUnfold(m, c, d, wide, n);
    UnitCopied(m, c, d, d, wide);
    if n > 1 {
      var w, c1, d1 := CopyUnit(m, c, d, wide), c + Bytes(1, wide), d + Bytes(1, wide);
      CopyChangesOnly(w, c1, d1, wide, n - 1);
      UnitUntouched(w, CopyUnits(w, c1, d1, wide, n - 1), d1, Bytes(n - 1, wide), d, wide);
    }
  }

  /** Unit `i` of the range at `c`. */
  function Unit(m: MemState, c: int, wide: bool, i: nat): word {
    if UnitOk(c + Bytes(i, wide), wide) then UnitAt(m, c + Bytes(i, wide), wide) else 0
  }

  /** The `n` units at `d` are those that were at `c`. */
  ghost predicate Copied(m: MemState, w: MemState, c: int, d: int, wide: bool, n: nat) {
    forall i :: 0 <= i < n ==> Unit(w, d, wide, i) == Unit(m, c, wide, i)
  }

  /** The `n` units at `d` repeat the first `k` that were at `c`. */
  ghost predicate Repeated(m: MemState, w: MemState, c: int, d: int, wide: bool, n: nat, k: nat)
    requires k > 0
  {
    forall i :: 0 <= i < n ==> Unit(w, d, wide, i) == Unit(m, c, wide, i % k)
  }

  lemma UnitShift(m: MemState, c: int, wide: bool, i: nat)
    ensures Unit(m, c + Bytes(1, wide), wide, i) == Unit(m, c, wide, i + 1)
  {
    hide UnitOk, UnitAt;
    assert c + Bytes(1, wide) + Bytes(i, wide) == c + Bytes(i + 1, wide);
  }

  lemma UnitZero(m: MemState, c: int, wide: bool)
    requires UnitOk(c, wide)
    ensures Unit(m, c, wide, 0) == UnitAt(m, c, wide)
  {
    hide UnitOk, UnitAt;
  }

  /** Copying one unit leaves units clear of the destination alone. */
  lemma UnitKept(m: MemState, c: int, d: int, e: int, wide: bool, i: nat)
    requires UnitOk(c, wide) && UnitOk(d, wide)
    requires e + Bytes(i + 1, wide) <= d || d + Bytes(1, wide) <= e + Bytes(i, wide)
    ensures Unit(CopyUnit(m, c, d, wide), e, wide, i) == Unit(m, e, wide, i)
  {
    hide UnitOk, UnitAt, CopyUnit;
    if UnitOk(e + Bytes(i, wide), wide) {
      UnitCopied(m, c, d, e + Bytes(i, wide), wide);
    }
  }

  /** Where the destination does not start inside the source, every unit arrives as it was. */
  lemma {:induction false} CopyExact(m: MemState, c: int, d: int, wide: bool, n: nat, i: nat)
    requires i < n && Ranges(c, d, wide, n)
    requires d <= c || c + Bytes(n, wide) <= d
    ensures Unit(CopyUnits(m, c, d, wide, n), d, wide, i) == Unit(m, c, wide, i)
    decreases n
  {
    hide CopyUnit, CopyUnits, OnlyChanged, Ranges, UnitOk, UnitAt, Unit;
    CopyUnfold(m, c, d, wide, n);
    if i == 0 {
      FirstUnitStays(m, c, d, wide, n);
      UnitZero(m, c, wide);
      UnitZero(CopyUnits(m, c, d, wide, n), d, wide);
    } else {
      var w := CopyUnit(m, c, d, wide);
      UnitKept(m, c, d, c, wide, i);
      UnitShift(w, c, wide, i - 1);
      UnitShift(CopyUnits(m, c, d, wide, n), d, wide, i - 1);
      CopyExact(w, c + Bytes(1, wide), d + Bytes(1, wide), wide, n - 1, i - 1);
    }
  }

  lemma ModNext(i: nat, k: nat)
    requires k > 0
    ensures i % k < k && i % k <= i
    ensures (i + 1) % k == if i % k == k - 1 then 0 else i % k + 1
  {
    var q := i / k;
    assert i == k * q + i % k;
    if i % k == k - 1 {
      assert k * (q + 1) == k * q + k;
      DivUnique(i + 1, k, q + 1, 0);
    } else {
      DivUnique(i + 1, k, q, i % k + 1);
    }
    ProductMonotone(k, 0, q);
  }

  /** Where the destination starts `k` units into the source, the first `k` units repeat. */
  lemma {:induction false} CopyPeriodic(m: MemState, c: int, d: int, wide: bool, n: nat, k: nat, i: nat)
    requires i < n && 0 < k && d == c + Bytes(k, wide) && Ranges(c, d, wide, n)
    ensures Unit(CopyUnits(m, c, d, wide, n), d, wide, i) == Unit(m, c, wide, i % k)
    decreases n
  {
    hide CopyUnit, CopyUnits, OnlyChanged, Ranges, UnitOk, UnitAt, Unit;
    CopyUnfold(m, c, d, wide, n);
    UnitZero(m, c, wide);
    if i == 0 {
      FirstUnitStays(m, c, d, wide, n);
      UnitZero(CopyUnits(m, c, d, wide, n), d, wide);
    } else {
      var w := CopyUnit(m, c, d, wide);
      ModNext(i - 1, k);
      var r := (i - 1) % k;
      UnitCopied(m, c, d, d, wide);
      UnitZero(w, d, wide);
      UnitOffset(w, c, wide, k);
      if r + 1 < k {
        UnitKept(m, c, d, c, wide, r + 1);
      }
      UnitShift(w, c, wide, r);
      UnitShift(CopyUnits(m, c, d, wide, n), d, wide, i - 1);
      CopyPeriodic(w, c + Bytes(1, wide), d + Bytes(1, wide), wide, n - 1, k, i - 1);
    }
  }

  lemma UnitOffset(m: MemState, c: int, wide: bool, k: nat)
    ensures Unit(m, c, wide, k) == Unit(m, c + Bytes(k, wide), wide, 0)
  {
    hide UnitOk, UnitAt;
  }

  // ----- one-shot transfers -----

  /** Neither repeating nor counting down: both addresses step up by the unit. */
  predicate OneShotForward(ch: Channel) {
    !ch.Repeat() && ch.SrcControl() in {0, 3} && ch.DstControl() in {0, 3}
  }

  /** The canonical source and destination of a transfer between RAM ranges. */
  predicate InRam(ch: Channel) {
    Linear(ch.src, Bytes(ch.Units(), ch.Wide())) && Linear(ch.dst, Bytes(ch.Units(), ch.Wide()))
  }

  lemma StoreControlKeepsRam(id: nat, control: half, m: MemState, d: int)
    requires id < 4 && IsRam(d)
    ensures Cell(StoreControl(id, control, m), d) == Cell(m, d)
  {
  }

  lemma StoredControl(id: nat, control: half, m: MemState, j: nat)
    requires id < 4 && j < 4
    ensures ControlReg(StoreControl(id, control, m).io, j) == if j == id then control else ControlReg(m.io, j)
  {
    SplitPack2(control);
  }

  lemma SameCellsSameUnit(m: MemState, w: MemState, c: int, wide: bool, i: nat)
    requires forall d :: IsRam(d) ==> Cell(w, d) == Cell(m, d)
    ensures Unit(w, c, wide, i) == Unit(m, c, wide, i)
  {
    var e := c + Bytes(i, wide);
    if UnitOk(e, wide) {
      SpanCell(e, if wide then 4 else 2, 0);
      SpanCell(e, if wide then 4 else 2, 1);
      if wide {
        SpanCell(e, 4, 2);
        SpanCell(e, 4, 3);
      }
      hide Cell, IsRam, Span;
    }
  }

  /** A one-shot transfer in RAM is the forward copy, after which its control is written back. */
  lemma OneShotIsCopy(ch: Channel, m: MemState, ifReg: nat)
    requires ch.id < 4 && !ch.busy && OneShotForward(ch) && InRam(ch)
    ensures Ranges(MapAddress(ch.src), MapAddress(ch.dst), ch.Wide(), ch.Units())
    ensures DoTransfer(ch, m, ifReg).m
            == StoreControl(ch.id, Disarmed(ch.control),
                            CopyUnits(m, MapAddress(ch.src), MapAddress(ch.dst), ch.Wide(), ch.Units()))
    ensures !DoTransfer(ch, m, ifReg).ch.enabled && DoTransfer(ch, m, ifReg).ch.control == Disarmed(ch.control)
  {
    hide MoveUnits, StoreControl, Disarmed, Linear, MapAddress, Ranges, CopyUnits;
    MoveUnitsRam(m, ch.latch, ch.src, ch.dst, ch.Wide(), ch.Units());
  }

  /** What a one-shot transfer leaves in RAM and in the channel: units that land before or clear of
      the source arrive unchanged, units that land `k` units into it repeat the first `k`, and
      nothing else in RAM changes. */
  lemma OneShotCopies(ch: Channel, m: MemState, ifReg: nat)
    requires ch.id < 4 && !ch.busy && OneShotForward(ch) && InRam(ch)
    ensures var n, wide, c, d, w := ch.Units(), ch.Wide(), MapAddress(ch.src), MapAddress(ch.dst),
                DoTransfer(ch, m, ifReg).m;
            && Ranges(c, d, wide, n)
            && (d <= c || c + Bytes(n, wide) <= d ==> Copied(m, w, c, d, wide, n))
            && (forall k: nat {:trigger Bytes(k, wide)} ::
                  k > 0 && d == c + Bytes(k, wide) ==> Repeated(m, w, c, d, wide, n, k))
            && (forall e :: IsRam(e) && !(d <= e < d + Bytes(n, wide)) ==> Cell(w, e) == Cell(m, e))
  {
    var n, wide, c, d, w := ch.Units(), ch.Wide(), MapAddress(ch.src), MapAddress(ch.dst), DoTransfer(ch, m, ifReg).m;
    hide *;
    OneShotIsCopy(ch, m, ifReg);
    RamOfCopy(ch.id, Disarmed(ch.control), m, c, d, wide, n);
  }

  lemma RamOfCopy(id: nat, control: half, m: MemState, c: int, d: int, wide: bool, n: nat)
    requires id < 4 && Ranges(c, d, wide, n)
    ensures var w := StoreControl(id, control, CopyUnits(m, c, d, wide, n));
            && (d <= c || c + Bytes(n, wide) <= d ==> Copied(m, w, c, d, wide, n))
            && (forall k: nat {:trigger Bytes(k, wide)} ::
                  k > 0 && d == c + Bytes(k, wide) ==> Repeated(m, w, c, d, wide, n, k))
            && (forall e :: IsRam(e) && !(d <= e < d + Bytes(n, wide)) ==> Cell(w, e) == Cell(m, e))
  {
    hide StoreControl, CopyUnits, Ranges, Cell, IsRam, Unit, SameDevices;
    var v := CopyUnits(m, c, d, wide, n);
    var w := StoreControl(id, control, v);
    CopyChangesOnly(m, c, d, wide, n);
    forall e | IsRam(e) ensures Cell(w, e) == Cell(v, e) {
      StoreControlKeepsRam(id, control, v, e);
    }
    forall i | 0 <= i < n
      ensures d <= c || c + Bytes(n, wide) <= d ==> Unit(w, d, wide, i) == Unit(m, c, wide, i)
    {
      SameCellsSameUnit(v, w, d, wide, i);
      if d <= c || c + Bytes(n, wide) <= d {
        CopyExact(m, c, d, wide, n, i);
      }
    }
    forall k: nat, i | k > 0 && d == c + Bytes(k, wide) && 0 <= i < n
      ensures Unit(w, d, wide, i) == Unit(m, c, wide, i % k)
    {
      SameCellsSameUnit(v, w, d, wide, i);
      CopyPeriodic(m, c, d, wide, n, k, i);
    }
  }

  /** The channel is off afterwards, in its fields and in its IO bytes; the other channels' bytes
      and every other device are as they were. */
  lemma OneShotDisarms(ch: Channel, m: MemState, ifReg: nat)
    requires ch.id < 4 && !ch.busy && OneShotForward(ch) && InRam(ch)
    ensures var t := DoTransfer(ch, m, ifReg);
            && !t.ch.enabled && ControlReg(t.m.io, ch.id) == t.ch.control == Disarmed(ch.control) < DMA_ENABLE
            && (forall j :: 0 <= j < 4 && j != ch.id ==> ControlReg(t.m.io, j) == ControlReg(m.io, j))
            && t.m.affine == m.affine && t.m.rom == m.rom
  {
    DisarmedKeepsIrq(ch.control);
    OneShotIsCopy(ch, m, ifReg);
    hide DoTransfer, MapAddress, InRam, OneShotForward, Disarmed, CopyUnits, ControlReg, Cell, IsRam;
    var w := CopyUnits(m, MapAddress(ch.src), MapAddress(ch.dst), ch.Wide(), ch.Units());
    CopyChangesOnly(m, MapAddress(ch.src), MapAddress(ch.dst), ch.Wide(), ch.Units());
    forall j | 0 <= j < 4
      ensures ControlReg(StoreControl(ch.id, Disarmed(ch.control), w).io, j)
              == if j == ch.id then Disarmed(ch.control) else ControlReg(m.io, j)
    {
      StoredControl(ch.id, Disarmed(ch.control), w, j);
    }
  }

  /** Where the destination starts inside the source the copy is exact just when the source already
      repeats with that period. */
  lemma AheadCopyExactIff(m: MemState, c: int, d: int, wide: bool, n: nat, k: nat)
    requires 0 < k < n && d == c + Bytes(k, wide) && Ranges(c, d, wide, n)
    ensures Copied(m, CopyUnits(m, c, d, wide, n), c, d, wide, n)
            <==> forall i :: 0 <= i < n ==> Unit(m, c, wide, i) == Unit(m, c, wide, i % k)
  {
    hide CopyUnits, Unit, Ranges;
    forall i | 0 <= i < n ensures Unit(CopyUnits(m, c, d, wide, n), d, wide, i) == Unit(m, c, wide, i % k) {
      CopyPeriodic(m, c, d, wide, n, k, i);
    }
  }

  // ----- triggers with a single armed channel -----

  predicate Quiet(m: MemState, i: nat)
    requires i < 4
  {
    ControlReg(m.io, i) < DMA_ENABLE
  }

  lemma QuietTrigger(s: DmaState, i: nat, timing: nat)
    requires ChannelsOk(s.channels) && i < 4 && Quiet(s.m, i)
    ensures var t := Trigger(s, i, timing);
            t.m == s.m && t.ifReg == s.ifReg && forall j :: 0 <= j < 4 && j != i ==> t.channels[j] == s.channels[j]
  {
    hide DoTransfer, ControlReg, SrcReg, DstReg, CountReg;
  }

  lemma {:induction false} QuietFire(s: DmaState, i: nat, timing: nat)
    requires ChannelsOk(s.channels) && i <= 4 && forall j :: i <= j < 4 ==> Quiet(s.m, j)
    ensures var t := FireFrom(s, i, timing);
            t.m == s.m && t.ifReg == s.ifReg && forall j :: 0 <= j < i ==> t.channels[j] == s.channels[j]
    decreases 4 - i
  {
    hide Trigger, Quiet;
    if i < 4 {
      QuietTrigger(s, i, timing);
      QuietFire(Trigger(s, i, timing), i + 1, timing);
    }
  }

  /** With every other channel off, a trigger runs channel `c` and nothing else. */
  lemma {:induction false} LoneFire(s: DmaState, i: nat, c: nat, timing: nat)
    requires ChannelsOk(s.channels) && i <= c < 4
    requires forall j :: i <= j < 4 && j != c ==> Quiet(s.m, j)
    requires var ch := Refresh(s.channels[c], s.m.io);
             && ch.enabled && ch.Timing() == timing
             && forall j :: c < j < 4 ==> Quiet(DoTransfer(ch, s.m, s.ifReg).m, j)
    ensures var ch := Refresh(s.channels[c], s.m.io);
            var u, t := DoTransfer(ch, s.m, s.ifReg), FireFrom(s, i, timing);
            t.m == u.m && t.ifReg == u.ifReg && t.channels[c] == u.ch
    decreases c - i
  {
    hide DoTransfer, Quiet, Refresh;
    if i < c {
      QuietTrigger(s, i, timing);
      hide Trigger;
      LoneFire(Trigger(s, i, timing), i + 1, c, timing);
    } else {
      var t := Trigger(s, c, timing);
      hide Trigger;
      QuietFire(t, c + 1, timing);
    }
  }

  /** A sequence of triggers. */
  function FireAll(s: DmaState, timings: seq<nat>): (t: DmaState)
    requires ChannelsOk(s.channels)
    ensures ChannelsOk(t.channels)
    decreases |timings|
  {
    if timings == [] then s else FireAll(Fire(s, timings[0]), timings[1..])
  }

  lemma {:induction false} QuietForever(s: DmaState, timings: seq<nat>)
    requires ChannelsOk(s.channels) && forall j :: 0 <= j < 4 ==> Quiet(s.m, j)
    ensures FireAll(s, timings).m == s.m && FireAll(s, timings).ifReg == s.ifReg
    decreases |timings|
  {
    hide Quiet, FireFrom;
    if timings != [] {
      QuietFire(s, 0, timings[0]);
      QuietForever(Fire(s, timings[0]), timings[1..]);
    }
  }

  /** A one-shot channel runs once: whatever triggers follow, memory stays as its transfer left it. */
  lemma OneShotRunsOnce(s: DmaState, c: nat, timing: nat, later: seq<nat>)
    requires ChannelsOk(s.channels) && c < 4
    requires forall j :: 0 <= j < 4 && j != c ==> Quiet(s.m, j)
    requires var ch := Refresh(s.channels[c], s.m.io);
             ch.enabled && ch.Timing() == timing && OneShotForward(ch) && InRam(ch)
    ensures var ch := Refresh(s.channels[c], s.m.io);
            FireAll(s, [timing] + later).m == DoTransfer(ch, s.m, s.ifReg).m
  {
    hide DoTransfer, Refresh, FireFrom, OneShotForward, InRam, ControlReg;
    var ch := Refresh(s.channels[c], s.m.io);
    OneShotDisarms(ch, s.m, s.ifReg);
    var u := DoTransfer(ch, s.m, s.ifReg).m;
    forall j | 0 <= j < 4 ensures Quiet(u, j) {
      assert ControlReg(u.io, j) == if j == c then Disarmed(ch.control) else ControlReg(s.m.io, j);
      assert j != c ==> Quiet(s.m, j);
      DisarmedKeepsIrq(ch.control);
    }
    LoneFire(s, 0, c, timing);
    assert Fire(s, timing).m == u;
    assert ([timing] + later)[1..] == later;
    QuietForever(Fire(s, timing), later);
  }
}
