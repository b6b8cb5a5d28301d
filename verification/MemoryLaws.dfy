/** The memory refines a map from canonical addresses to bytes. */
module MemoryLaws {
  import opened Arith
  import opened Words
  import opened Memory

  // ----- the map -----

  /** The 16 MB block an address lies in: the region, for addresses below the cartridge. */
  function Region(addr: word): nat {
    addr / 0x100_0000
  }

  lemma MapIdempotent(addr: word)
    ensures MapAddress(MapAddress(addr)) == MapAddress(addr)
  {
    hide MapAddress;
    MapShape(addr);
    MapFixed(MapAddress(addr));
  }

  /** Mapped addresses lie in the memory of their region. */
  predicate InMemory(addr: word) {
    addr < BIOS_SIZE || IsIo(addr) || IsRam(addr) || addr >= ROM_START
  }

  lemma MapShape(addr: word)
    ensures InMemory(MapAddress(addr))
  {
  }

  lemma MapFixed(addr: word)
    requires InMemory(addr)
    ensures MapAddress(addr) == addr
  {
    if IsRam(addr) || IsIo(addr) {
      MapFixedHigh(addr);
    }
  }

  lemma MapFixedHigh(addr: word)
    requires IsRam(addr) || IsIo(addr)
    ensures MapAddress(addr) == addr
  {
    if addr < IWRAM_START {
      DivUnique(addr, EWRAM_SIZE, EWRAM_START / EWRAM_SIZE, addr - EWRAM_START);
    } else if addr < IO_START {
      DivUnique(addr, IWRAM_SIZE, IWRAM_START / IWRAM_SIZE, addr - IWRAM_START);
    } else if addr < PALETTE_START {
      DivUnique(addr, IO_SIZE, IO_START / IO_SIZE, addr - IO_START);
    } else if addr < VRAM_START {
      DivUnique(addr, PALETTE_SIZE, PALETTE_START / PALETTE_SIZE, addr - PALETTE_START);
    } else if addr < OAM_START {
      DivUnique(addr, 0x2_0000, VRAM_START / 0x2_0000, addr - VRAM_START);
    } else {
      DivUnique(addr, OAM_SIZE, OAM_START / OAM_SIZE, addr - OAM_START);
    }
  }

  /** Mapping leaves every address in its region, except the second half of the BIOS pages. */
  lemma MapKeepsRegion(addr: word)
    ensures Region(MapAddress(addr)) == Region(addr) <==> !(0x0100_0000 <= addr <= 0x01FF_FFFF)
  {
  }

  // ----- RAM as a byte map -----

  predicate IsRam(c: int) {
    || EWRAM_START <= c < EWRAM_START + EWRAM_SIZE
    || IWRAM_START <= c < IWRAM_START + IWRAM_SIZE
    || PALETTE_START <= c < PALETTE_START + PALETTE_SIZE
    || VRAM_START <= c < VRAM_START + VRAM_SIZE
    || OAM_START <= c < OAM_START + OAM_SIZE
  }

  /** The byte at a canonical RAM address. */
  function Cell(m: MemState, c: int): byte
    requires IsRam(c)
  {
    if c < IWRAM_START then m.ewram[c - EWRAM_START]
    else if c < IO_START then m.iwram[c - IWRAM_START]
    else if c < VRAM_START then m.palette[c - PALETTE_START]
    else if c < OAM_START then m.vram[c - VRAM_START]
    else m.oam[c - OAM_START]
  }

  /** Storing one byte at a canonical RAM address. */
  function Poke(m: MemState, c: int, v: byte): MemState
    requires IsRam(c)
  {
    var w := m.(openBus := v);
    if c < IWRAM_START then w.(ewram := m.ewram[c - EWRAM_START := v])
    else if c < IO_START then w.(iwram := m.iwram[c - IWRAM_START := v])
    else if c < VRAM_START then w.(palette := m.palette[c - PALETTE_START := v])
    else if c < OAM_START then w.(vram := m.vram[c - VRAM_START := v])
    else w.(oam := m.oam[c - OAM_START := v])
  }

  /** Everything but RAM and the open bus is the same. */
  predicate SameDevices(m: MemState, w: MemState) {
    && w.bios == m.bios && w.io == m.io && w.sram == m.sram && w.rom == m.rom && w.romMirror == m.romMirror
    && w.affine == m.affine
  }

  lemma CellPoke(m: MemState, c: int, v: byte, d: int)
    requires IsRam(c) && IsRam(d)
    ensures Cell(Poke(m, c, v), d) == if d == c then v else Cell(m, d)
    ensures SameDevices(m, Poke(m, c, v))
  {
  }

  lemma WriteIsPoke(m: MemState, c: word, v: byte, fromMultibyte: bool)
    requires IsRam(c)
    ensures Write8(m, c, v, fromMultibyte) == Poke(m, c, v)
  {
    MapFixed(c);
    hide MapAddress;
  }

  lemma ReadIsCell(m: MemState, c: word)
    requires IsRam(c)
    ensures Read8(m, c) == Cell(m, c)
  {
    MapFixed(c);
    hide MapAddress;
  }

  /** A byte store through a mirror of the palette, VRAM or OAM is lost: `write_u8` maps only the
      other regions. */
  lemma ByteStoreLost(m: MemState, addr: word, v: byte)
    requires IsRam(MapAddress(addr))
    ensures PALETTE_START <= addr && MapAddress(addr) != addr <==> !IsRam(addr) && addr >= PALETTE_START
    ensures Write8(m, addr, v, false) == if PALETTE_START <= addr && MapAddress(addr) != addr then m
                                         else Poke(m, MapAddress(addr), v)
  {
  }

  // ----- halfwords and words in RAM -----

  /** `n` bytes of one RAM region from `c` on. */
  predicate Span(c: int, n: nat) {
    && n > 0
    && (|| (EWRAM_START <= c && c + n <= EWRAM_START + EWRAM_SIZE)
        || (IWRAM_START <= c && c + n <= IWRAM_START + IWRAM_SIZE)
        || (PALETTE_START <= c && c + n <= PALETTE_START + PALETTE_SIZE)
        || (VRAM_START <= c && c + n <= VRAM_START + VRAM_SIZE)
        || (OAM_START <= c && c + n <= OAM_START + OAM_SIZE))
  }

  lemma SpanCell(c: int, n: nat, k: nat)
    requires Span(c, n) && k < n
    ensures IsRam(c + k) && 0 <= c + k < 0x0800_0000
  {
  }

  lemma SpanInside(c: int, n: nat, d: int, k: nat)
    requires Span(c, n) && c <= d && k > 0 && d + k <= c + n
    ensures Span(d, k)
  {
  }

  function Poke2(m: MemState, c: int, v: half): MemState
    requires Span(c, 2)
  {
    Poke(Poke(m, c, ByteOf(v, 0)), c + 1, ByteOf(v, 1))
  }

  function Poke4(m: MemState, c: int, v: word): MemState
    requires Span(c, 4)
  {
    SpanCell(c, 4, 1);
    SpanCell(c, 4, 2);
    Poke(Poke(Poke(Poke(m, c, ByteOf(v, 0)), c + 1, ByteOf(v, 1)), c + 2, ByteOf(v, 2)), c + 3, ByteOf(v, 3))
  }

  function HalfAt(m: MemState, c: int): half
    requires Span(c, 2)
  {
    Pack2(Cell(m, c), Cell(m, c + 1))
  }

  function WordAt(m: MemState, c: int): word
    requires Span(c, 4)
  {
    SpanCell(c, 4, 1);
    SpanCell(c, 4, 2);
    Pack4(Cell(m, c), Cell(m, c + 1), Cell(m, c + 2), Cell(m, c + 3))
  }

  /** Every byte outside [c, c + n) and every device is as before. */
  ghost predicate OnlyChanged(m: MemState, w: MemState, c: int, n: nat) {
    SameDevices(m, w) && forall d :: IsRam(d) && !(c <= d < c + n) ==> Cell(w, d) == Cell(m, d)
  }

  /** A halfword store in RAM is two byte stores at the canonical address. */
  lemma Write16Ram(m: MemState, addr: word, v: half)
    requires Span(MapAddress(addr), 2)
    ensures Write16(m, addr, v) == Poke2(m, MapAddress(addr), v)
  {
    hide Write8, MapAddress, HalWrite, Poke;
    var c := MapAddress(addr);
    SpanCell(c, 2, 1);
    WriteIsPoke(m, c, ByteOf(v, 0), true);
    WriteIsPoke(Poke(m, c, ByteOf(v, 0)), c + 1, ByteOf(v, 1), true);
  }

  /** A word store in RAM is four byte stores at the canonical address. */
  lemma Write32Ram(m: MemState, addr: word, v: word)
    requires Span(MapAddress(addr), 4)
    ensures Write32(m, addr, v) == Poke4(m, MapAddress(addr), v)
  {
    hide Write8, MapAddress, HalWrite, Poke;
    var c := MapAddress(addr);
    SpanCell(c, 4, 1);
    SpanCell(c, 4, 2);
    SpanCell(c, 4, 3);
    var m1 := Poke(m, c, ByteOf(v, 0));
    var m2 := Poke(m1, c + 1, ByteOf(v, 1));
    var m3 := Poke(m2, c + 2, ByteOf(v, 2));
    WriteIsPoke(m, c, ByteOf(v, 0), true);
    WriteIsPoke(m1, c + 1, ByteOf(v, 1), true);
    WriteIsPoke(m2, c + 2, ByteOf(v, 2), true);
    WriteIsPoke(m3, c + 3, ByteOf(v, 3), true);
  }

  lemma BufferCell(m: MemState, c: word, n: nat, k: nat)
    requires Span(c, n) && k < n
    ensures BufferFor(m, c).Slice? && !IsIo(c) && IsRam(c + k)
    ensures var s := BufferFor(m, c); s.start + n <= |s.buffer| && s.buffer[s.start + k] == Cell(m, c + k)
  {
    MapFixed(c);
    hide MapAddress;
  }

  /** Loads in RAM read the bytes at the canonical address and disturb nothing. */
  lemma Read32Ram(m: MemState, addr: word)
    requires Span(MapAddress(addr), 4)
    ensures Read32(m, addr) == WordAt(m, MapAddress(addr))
    ensures AfterRead32(m, addr) == m
  {
    hide Read8, MapAddress, BufferFor, Cell;
    var c := MapAddress(addr);
    SpanCell(c, 4, 0);
    BufferCell(m, c, 4, 0);
    BufferCell(m, c, 4, 1);
    BufferCell(m, c, 4, 2);
    BufferCell(m, c, 4, 3);
  }

  lemma Read16Ram(m: MemState, addr: word)
    requires Span(MapAddress(addr), 2)
    ensures Read16(m, addr) == HalfAt(m, MapAddress(addr))
    ensures AfterRead16(m, addr) == m
  {
    var c := MapAddress(addr);
    SpanCell(c, 2, 0);
    MapIdempotent(addr);
    BufferOfMapped(m, addr);
    hide Read8, MapAddress, BufferFor, Cell;
    BufferCell(m, c, 2, 0);
    BufferCell(m, c, 2, 1);
  }

  lemma BufferOfMapped(m: MemState, addr: word)
    ensures BufferFor(m, addr) == BufferFor(m, MapAddress(addr))
  {
    MapIdempotent(addr);
    hide MapAddress;
  }

  // ----- storing and loading -----

  lemma Poke4Cells(m: MemState, c: int, v: word, d: int)
    requires Span(c, 4) && IsRam(d)
    ensures Cell(Poke4(m, c, v), d) == if c <= d < c + 4 then ByteOf(v, d - c) else Cell(m, d)
    ensures SameDevices(m, Poke4(m, c, v))
  {
    hide Poke, Cell, ByteOf;
    SpanCell(c, 4, 1);
    SpanCell(c, 4, 2);
    var m1 := Poke(m, c, ByteOf(v, 0));
    var m2 := Poke(m1, c + 1, ByteOf(v, 1));
    var m3 := Poke(m2, c + 2, ByteOf(v, 2));
    CellPoke(m, c, ByteOf(v, 0), d);
    CellPoke(m1, c + 1, ByteOf(v, 1), d);
    CellPoke(m2, c + 2, ByteOf(v, 2), d);
    CellPoke(m3, c + 3, ByteOf(v, 3), d);
  }

  lemma Poke2Cells(m: MemState, c: int, v: half, d: int)
    requires Span(c, 2) && IsRam(d)
    ensures Cell(Poke2(m, c, v), d) == if c <= d < c + 2 then ByteOf(v, d - c) else Cell(m, d)
    ensures SameDevices(m, Poke2(m, c, v))
  {
    hide Poke, Cell, ByteOf;
    CellPoke(m, c, ByteOf(v, 0), d);
    CellPoke(Poke(m, c, ByteOf(v, 0)), c + 1, ByteOf(v, 1), d);
  }

  /** A stored word is loaded back, and words clear of it are untouched. */
  lemma WordStored(m: MemState, c: int, v: word, d: int)
    requires Span(c, 4) && Span(d, 4)
    ensures d == c ==> WordAt(Poke4(m, c, v), d) == v
    ensures d + 4 <= c || c + 4 <= d ==> WordAt(Poke4(m, c, v), d) == WordAt(m, d)
    ensures OnlyChanged(m, Poke4(m, c, v), c, 4)
  {
    hide Poke4, Cell, ByteOf;
    var w := Poke4(m, c, v);
    forall e | IsRam(e)
      ensures Cell(w, e) == if c <= e < c + 4 then ByteOf(v, e - c) else Cell(m, e)
    {
      Poke4Cells(m, c, v, e);
    }
    Poke4Cells(m, c, v, c);
    SpanCell(d, 4, 1);
    SpanCell(d, 4, 2);
    SpanCell(d, 4, 3);
    SplitPack4(v);
  }

  lemma HalfStored(m: MemState, c: int, v: half, d: int)
    requires Span(c, 2) && Span(d, 2)
    ensures d == c ==> HalfAt(Poke2(m, c, v), d) == v
    ensures d + 2 <= c || c + 2 <= d ==> HalfAt(Poke2(m, c, v), d) == HalfAt(m, d)
    ensures OnlyChanged(m, Poke2(m, c, v), c, 2)
  {
    hide Poke2, Cell, ByteOf;
    var w := Poke2(m, c, v);
    forall e | IsRam(e)
      ensures Cell(w, e) == if c <= e < c + 2 then ByteOf(v, e - c) else Cell(m, e)
    {
      Poke2Cells(m, c, v, e);
    }
    Poke2Cells(m, c, v, c);
    SpanCell(d, 2, 1);
    SplitPack2(v);
  }

  // ----- the last store wins -----

  datatype Store = Halfword(addr: word, half: half) | Fullword(addr: word, full: word) {
    function Size(): nat {
      if Halfword? then 2 else 4
    }
    /** Aligned, and in EWRAM, IWRAM, the palette, VRAM or OAM, mirrors included. */
    predicate AlignedRam() {
      (if Halfword? then addr % 2 == 0 else addr % 4 == 0) && IsRam(MapAddress(addr))
    }
    function Base(): word {
      MapAddress(addr)
    }
    predicate Covers(c: int) {
      Base() <= c < Base() + Size()
    }
    function Stored(c: int): byte
      requires Covers(c)
    {
      ByteOf(if Halfword? then half else full, c - Base())
    }
    function Apply(m: MemState): MemState {
      if Halfword? then Write16(m, addr, half) else Write32(m, addr, full)
    }
  }

  type Stores = h: seq<Store> | forall i :: 0 <= i < |h| ==> h[i].AlignedRam()

  function RunStores(m: MemState, h: Stores): MemState {
    if h == [] then m else h[|h| - 1].Apply(RunStores(m, h[..|h| - 1]))
  }

  /** The byte the history leaves at a canonical address: that of the last store to cover it. */
  function LastStored(m: MemState, h: Stores, c: int): byte
    requires IsRam(c)
  {
    if h == [] then Cell(m, c)
    else if h[|h| - 1].Covers(c) then h[|h| - 1].Stored(c)
    else LastStored(m, h[..|h| - 1], c)
  }

  /** Mapping moves an address by a multiple of the smallest memory's size. */
  lemma MapShift(addr: word) returns (j: int)
    ensures MapAddress(addr) == addr - 0x400 * j
  {
    if addr <= 0x01FF_FFFF {
      j := addr / BIOS_SIZE * 0x10;
    } else if addr <= 0x02FF_FFFF {
      j := addr / EWRAM_SIZE * 0x100 - EWRAM_START / 0x400;
    } else if addr <= 0x03FF_FFFF {
      j := addr / IWRAM_SIZE * 0x20 - IWRAM_START / 0x400;
    } else if addr <= 0x04FF_FFFF {
      j := addr / IO_SIZE - IO_START / 0x400;
    } else if addr <= 0x05FF_FFFF {
      j := addr / PALETTE_SIZE - PALETTE_START / 0x400;
    } else if addr <= 0x06FF_FFFF {
      j := addr / 0x2_0000 * 0x80 - VRAM_START / 0x400 + if addr % 0x2_0000 >= VRAM_SIZE then VRAM_SIZE / 0x400 else 0;
    } else if addr <= 0x07FF_FFFF {
      j := addr / OAM_SIZE - OAM_START / 0x400;
    } else {
      j := 0;
    }
  }

  /** An aligned access does not run off the end of its mirror. */
  lemma AlignedSpan(s: Store)
    requires s.AlignedRam()
    ensures Span(s.Base(), s.Size())
  {
    var j := MapShift(s.addr);
    hide MapAddress;
    var c := s.Base();
    if s.Halfword? {
      var h := s.addr / 2;
      assert c == 2 * (h - 0x200 * j);
      EvenSpan(c, h - 0x200 * j);
    } else {
      var w := s.addr / 4;
      assert c == 4 * (w - 0x100 * j);
      QuadSpan(c, w - 0x100 * j);
    }
  }

  lemma EvenSpan(c: int, h: int)
    requires IsRam(c) && c == 2 * h
    ensures Span(c, 2)
  {
  }

  lemma QuadSpan(c: int, w: int)
    requires IsRam(c) && c == 4 * w
    ensures Span(c, 4)
  {
  }

  lemma StoreCell(m: MemState, s: Store, c: int)
    requires s.AlignedRam() && IsRam(c)
    ensures Cell(s.Apply(m), c) == if s.Covers(c) then s.Stored(c) else Cell(m, c)
    ensures SameDevices(m, s.Apply(m))
  {
    AlignedSpan(s);
    hide MapAddress, Cell, Write16, Write32, Poke2, Poke4, SameDevices, ByteOf, Span, IsRam;
    if s.Halfword? {
      Write16Ram(m, s.addr, s.half);
      Poke2Cells(m, s.Base(), s.half, c);
    } else {
      Write32Ram(m, s.addr, s.full);
      Poke4Cells(m, s.Base(), s.full, c);
    }
  }

  /** After any sequence of aligned stores, mirrors included, every byte of RAM is the one last
      stored at its canonical address. */
  lemma {:induction false} LastStoreWins(m: MemState, h: Stores, c: int)
    requires IsRam(c)
    ensures Cell(RunStores(m, h), c) == LastStored(m, h, c)
    ensures SameDevices(m, RunStores(m, h))
  {
    hide MapAddress, Cell, Write16, Write32, IsRam, Store.AlignedRam, Store.Covers, Store.Stored, Store.Apply;
    if h != [] {
      LastStoreWins(m, h[..|h| - 1], c);
      StoreCell(RunStores(m, h[..|h| - 1]), h[|h| - 1], c);
    }
  }

  /** So an aligned word load, through any mirror, reads the bytes last stored there. */
  lemma WordLoadsReadLastStores(m: MemState, h: Stores, addr: word)
    requires addr % 4 == 0 && IsRam(MapAddress(addr))
    ensures var c := MapAddress(addr);
            && IsRam(c + 1) && IsRam(c + 2) && IsRam(c + 3)
            && Read32(RunStores(m, h), addr)
               == Pack4(LastStored(m, h, c), LastStored(m, h, c + 1), LastStored(m, h, c + 2), LastStored(m, h, c + 3))
  {
    hide *;
    var c: int := MapAddress(addr);
    var w := RunStores(m, h);
    WordSpan(addr);
    Read32Ram(w, addr);
    LastStoreWins(m, h, c);
    LastStoreWins(m, h, c + 1);
    LastStoreWins(m, h, c + 2);
    LastStoreWins(m, h, c + 3);
    WordOfCells(w, c);
  }

  lemma WordSpan(addr: word)
    requires addr % 4 == 0 && IsRam(MapAddress(addr))
    ensures var c := MapAddress(addr); Span(c, 4) && IsRam(c + 1) && IsRam(c + 2) && IsRam(c + 3)
  {
    AlignedSpan(Fullword(addr, 0));
    hide MapAddress;
    SpanCell(MapAddress(addr), 4, 1);
    SpanCell(MapAddress(addr), 4, 2);
    SpanCell(MapAddress(addr), 4, 3);
  }

  lemma WordOfCells(m: MemState, c: int)
    requires Span(c, 4)
    ensures IsRam(c) && IsRam(c + 1) && IsRam(c + 2) && IsRam(c + 3)
    ensures WordAt(m, c) == Pack4(Cell(m, c), Cell(m, c + 1), Cell(m, c + 2), Cell(m, c + 3))
  {
    SpanCell(c, 4, 1);
    SpanCell(c, 4, 2);
  }

  lemma HalfLoadsReadLastStores(m: MemState, h: Stores, addr: word)
    requires addr % 2 == 0 && IsRam(MapAddress(addr))
    ensures var c := MapAddress(addr);
            IsRam(c + 1) && Read16(RunStores(m, h), addr) == Pack2(LastStored(m, h, c), LastStored(m, h, c + 1))
  {
    AlignedSpan(Halfword(addr, 0));
    var c, w := MapAddress(addr), RunStores(m, h);
    SpanCell(c, 2, 1);
    Read16Ram(w, addr);
    hide MapAddress, Cell, Read16, RunStores, LastStored, IsRam, Span, Pack2, Store.AlignedRam;
    LastStoreWins(m, h, c);
    LastStoreWins(m, h, c + 1);
  }

  lemma ByteLoadsReadLastStores(m: MemState, h: Stores, addr: word)
    requires IsRam(MapAddress(addr))
    ensures Read8(RunStores(m, h), addr) == LastStored(m, h, MapAddress(addr))
  {
    Read8Mapped(RunStores(m, h), addr);
    ReadIsCell(RunStores(m, h), MapAddress(addr));
    hide MapAddress, Cell, Read8, RunStores, LastStored, IsRam, Store.AlignedRam;
    LastStoreWins(m, h, MapAddress(addr));
  }

  lemma Read8Mapped(m: MemState, addr: word)
    ensures Read8(m, addr) == Read8(m, MapAddress(addr))
  {
    MapIdempotent(addr);
    hide MapAddress;
  }

  // ----- the slice path of `read_u32` -----

  /** One read, and the bus it leaves for the next. */
  lemma FourReadsFrom(m: MemState, a: word, b0: byte, b1: byte, b2: byte, b3: byte)
    requires Read8(m, a) == b0 && Read8(m.(openBus := b0), Next(a, 1)) == b1
    requires Read8(m.(openBus := b1), Next(a, 2)) == b2 && Read8(m.(openBus := b2), Next(a, 3)) == b3
    ensures FourReads(m, a) == Pack4(b0, b1, b2, b3)
  {
    hide Read8, Next;
  }

  lemma FourReadsRam(m: MemState, c: word)
    requires Span(c, 4)
    ensures FourReads(m, c) == WordAt(m, c)
  {
    hide Read8, Cell, IsRam, Pack4, FourReads;
    SpanCell(c, 4, 0);
    SpanCell(c, 4, 1);
    SpanCell(c, 4, 2);
    SpanCell(c, 4, 3);
    var b0, b1, b2, b3 := Cell(m, c), Cell(m, c + 1), Cell(m, c + 2), Cell(m, c + 3);
    RamByte(m, c, m.openBus);
    RamByte(m, c + 1, b0);
    RamByte(m, c + 2, b1);
    RamByte(m, c + 3, b2);
    FourReadsFrom(m, c, b0, b1, b2, b3);
  }

  lemma RamByte(m: MemState, c: word, bus: byte)
    requires IsRam(c)
    ensures Read8(m.(openBus := bus), c) == Cell(m, c)
  {
    ReadIsCell(m.(openBus := bus), c);
    hide Read8;
  }

  /** In RAM the slice is the four bytes. */
  lemma SliceIsFourReadsRam(m: MemState, addr: word)
    requires Span(MapAddress(addr), 4)
    ensures Sliced(m, MapAddress(addr)) && Read32(m, addr) == FourReads(m, MapAddress(addr))
  {
    var c := MapAddress(addr);
    BufferCell(m, c, 4, 0);
    Read32Ram(m, addr);
    FourReadsRam(m, c);
    hide MapAddress, BufferFor, Read32, FourReads, WordAt, IsRam, Span;
  }

  /** `a` reads from the ROM image, with three more bytes of the image after it. */
  predicate RomSliced(m: MemState, a: word) {
    ROM_START <= a <= ROM_LAST && (a - ROM_START) % m.romMirror + 4 <= |m.rom|
  }

  lemma MirrorStep(i: nat, k: nat, p: nat)
    requires p > 0 && i % p + k < p
    ensures (i + k) % p == i % p + k
  {
    DivUnique(i + k, p, i / p, i % p + k);
  }

  lemma RomByte(m: MemState, a: word, k: nat)
    requires RomSliced(m, a) && k < 4
    ensures Read8(m, a + k) == if a + k <= ROM_LAST then m.rom[(a - ROM_START) % m.romMirror + k] else m.openBus
  {
    MirrorStep(a - ROM_START, k, m.romMirror);
    MapFixed(a + k);
    hide MapAddress, IsRam;
    var i := a - ROM_START;
    assert Locate(a + k) == if a + k <= ROM_LAST then Rom(i + k) else Beyond;
    hide Locate, RomSliced;
    assert a + k > ROM_LAST ==> Read8(m, a + k) == m.openBus;
  }

  lemma RomBuffer(m: MemState, a: word)
    requires RomSliced(m, a)
    ensures MapAddress(a) == a && !IsIo(a)
    ensures BufferFor(m, a) == Slice(m.rom, (a - ROM_START) % m.romMirror)
  {
    MapFixed(a);
    hide MapAddress, IsRam;
    assert Locate(a) == Rom(a - ROM_START);
    hide Locate;
  }

  lemma RomByteAfter(m: MemState, a: word, k: nat, bus: byte)
    requires RomSliced(m, a) && k < 4
    ensures Read8(m.(openBus := bus), Next(a, k)) == if a + k <= ROM_LAST then m.rom[(a - ROM_START) % m.romMirror + k] else bus
  {
    RomByte(m.(openBus := bus), a, k);
    hide Read8;
  }

  /** The byte the k-th of four reads gives: past the last ROM address, the last one in the image. */
  function RomRead(m: MemState, a: word, k: nat): byte
    requires RomSliced(m, a) && k < 4
  {
    RomAt(m, a, if a + k <= ROM_LAST then k else ROM_LAST - a)
  }

  lemma FourReadsRom(m: MemState, a: word)
    requires RomSliced(m, a)
    ensures FourReads(m, a) == Pack4(RomRead(m, a, 0), RomRead(m, a, 1), RomRead(m, a, 2), RomRead(m, a, 3))
  {
    RomByteAfter(m, a, 0, m.openBus);
    RomByteAfter(m, a, 1, RomRead(m, a, 0));
    RomByteAfter(m, a, 2, RomRead(m, a, 1));
    RomByteAfter(m, a, 3, RomRead(m, a, 2));
    hide Read8, Pack4, FourReads;
    FourReadsFrom(m, a, RomRead(m, a, 0), RomRead(m, a, 1), RomRead(m, a, 2), RomRead(m, a, 3));
  }

  lemma Pack4Injective(a0: byte, a1: byte, a2: byte, a3: byte, b0: byte, b1: byte, b2: byte, b3: byte)
    ensures Pack4(a0, a1, a2, a3) == Pack4(b0, b1, b2, b3) <==> a0 == b0 && a1 == b1 && a2 == b2 && a3 == b3
  {
    FirstDigit(a0, a1 + 0x100 * a2 + 0x1_0000 * a3, b0, b1 + 0x100 * b2 + 0x1_0000 * b3);
    FirstDigit(a1, a2 + 0x100 * a3, b1, b2 + 0x100 * b3);
    FirstDigit(a2, a3, b2, b3);
  }

  lemma FirstDigit(a: byte, x: nat, b: byte, y: nat)
    ensures a + 0x100 * x == b + 0x100 * y <==> a == b && x == y
  {
  }

  /** Byte `k` of the word at `a` in the image. */
  function RomAt(m: MemState, a: word, k: nat): byte
    requires RomSliced(m, a) && k < 4
  {
    m.rom[(a - ROM_START) % m.romMirror + k]
  }

  lemma RomSlice(m: MemState, a: word)
    requires RomSliced(m, a)
    ensures Read32(m, a) == Pack4(RomAt(m, a, 0), RomAt(m, a, 1), RomAt(m, a, 2), RomAt(m, a, 3))
  {
    RomBuffer(m, a);
    hide Read8, BufferFor, AfterRead8, Pack4, MapAddress, IsIo;
  }

  /** In the ROM image the two paths agree just when the bytes of the word past the last ROM address, if
      any, equal the last byte before: a read there finds the open bus as the read before it left it. */
  predicate RomAgrees(m: MemState, a: word)
    requires RomSliced(m, a)
  {
    forall k: nat :: k < 4 && a + k > ROM_LAST ==> RomAt(m, a, k) == RomAt(m, a, ROM_LAST - a)
  }

  lemma RomAgreesByByte(m: MemState, a: word)
    requires RomSliced(m, a)
    ensures RomAgrees(m, a)
            <==> && RomAt(m, a, 0) == RomRead(m, a, 0) && RomAt(m, a, 1) == RomRead(m, a, 1)
                 && RomAt(m, a, 2) == RomRead(m, a, 2) && RomAt(m, a, 3) == RomRead(m, a, 3)
  {
    hide RomAt;
    if !RomAgrees(m, a) {
      var k: nat :| k < 4 && a + k > ROM_LAST && RomAt(m, a, k) != RomAt(m, a, ROM_LAST - a);
      assert k == 0 || k == 1 || k == 2 || k == 3;
    }
  }

  lemma SliceIsFourReadsRomIff(m: MemState, a: word)
    requires RomSliced(m, a)
    ensures Read32(m, a) == FourReads(m, a) <==> RomAgrees(m, a)
  {
    RomSlice(m, a);
    FourReadsRom(m, a);
    RomAgreesByByte(m, a);
    hide Read32, FourReads, Pack4, RomAgrees, RomAt, RomRead, RomSliced;
    Pack4Injective(RomAt(m, a, 0), RomAt(m, a, 1), RomAt(m, a, 2), RomAt(m, a, 3),
                   RomRead(m, a, 0), RomRead(m, a, 1), RomRead(m, a, 2), RomRead(m, a, 3));
  }

  // ----- the same behind the image, in SRAM -----

  /** `a` reads from SRAM, with three more bytes of it after it. */
  predicate SramSliced(m: MemState, a: word) {
    SRAM_START <= a && a + 4 <= SRAM_START + SRAM_SIZE && (a - ROM_START) % m.romMirror >= |m.rom|
  }

  /** A byte of the SRAM area: of a mirror of the image where there is one. */
  function SramRead(m: MemState, a: word): byte
    requires SRAM_START <= a < SRAM_START + SRAM_SIZE
  {
    var j := (a - ROM_START) % m.romMirror;
    if j < |m.rom| then m.rom[j] else m.sram[a - SRAM_START]
  }

  lemma SramByte(m: MemState, a: word, bus: byte)
    requires SRAM_START <= a < SRAM_START + SRAM_SIZE
    ensures Read8(m.(openBus := bus), a) == SramRead(m, a)
  {
    MapFixed(a);
    hide MapAddress, IsRam;
    assert Locate(a) == Rom(a - ROM_START);
    hide Locate;
  }

  lemma FourReadsSram(m: MemState, a: word)
    requires SramSliced(m, a)
    ensures FourReads(m, a) == Pack4(SramRead(m, a), SramRead(m, a + 1), SramRead(m, a + 2), SramRead(m, a + 3))
  {
    hide Read8, Pack4, FourReads, SramRead;
    SramByte(m, a, m.openBus);
    SramByte(m, a + 1, SramRead(m, a));
    SramByte(m, a + 2, SramRead(m, a + 1));
    SramByte(m, a + 3, SramRead(m, a + 2));
    FourReadsFrom(m, a, SramRead(m, a), SramRead(m, a + 1), SramRead(m, a + 2), SramRead(m, a + 3));
  }

  lemma SramSlice(m: MemState, a: word)
    requires SramSliced(m, a)
    ensures Read32(m, a) == Pack4(SramAt(m, a), SramAt(m, a + 1), SramAt(m, a + 2), SramAt(m, a + 3))
  {
    MapFixed(a);
    hide MapAddress, IsRam, Read8, Pack4;
    assert Locate(a) == Rom(a - ROM_START);
    hide Locate;
    assert BufferFor(m, a) == Slice(m.sram, a - SRAM_START);
    hide BufferFor;
  }

  /** In SRAM the slice does not see where the next mirror of the image begins. */
  predicate SramAgrees(m: MemState, a: word)
    requires SramSliced(m, a)
  {
    forall d: word :: a <= d < a + 4 ==> SramRead(m, d) == SramAt(m, d)
  }

  function SramAt(m: MemState, a: word): byte
    requires SRAM_START <= a < SRAM_START + SRAM_SIZE
  {
    m.sram[a - SRAM_START]
  }

  lemma SramAgreesByByte(m: MemState, a: word)
    requires SramSliced(m, a)
    ensures SramAgrees(m, a)
            <==> && SramAt(m, a) == SramRead(m, a) && SramAt(m, a + 1) == SramRead(m, a + 1)
                 && SramAt(m, a + 2) == SramRead(m, a + 2) && SramAt(m, a + 3) == SramRead(m, a + 3)
  {
    hide SramAt, SramRead;
    if !SramAgrees(m, a) {
      var d: word :| a <= d < a + 4 && SramRead(m, d) != SramAt(m, d);
      assert d == a || d == a + 1 || d == a + 2 || d == a + 3;
    }
  }

  lemma SliceIsFourReadsSramIff(m: MemState, a: word)
    requires SramSliced(m, a)
    ensures Read32(m, a) == FourReads(m, a) <==> SramAgrees(m, a)
  {
    hide Read32, FourReads, Pack4, SramRead, SramAt, SramAgrees;
    SramSlice(m, a);
    FourReadsSram(m, a);
    SramAgreesByByte(m, a);
    Pack4Injective(SramAt(m, a), SramAt(m, a + 1), SramAt(m, a + 2), SramAt(m, a + 3),
                   SramRead(m, a), SramRead(m, a + 1), SramRead(m, a + 2), SramRead(m, a + 3));
  }

  // ----- and everywhere -----

  /** These are all the slices there are. */
  lemma SlicedWhere(m: MemState, a: word)
    requires InMemory(a)
    ensures Sliced(m, a) <==> Span(a, 4) || RomSliced(m, a) || SramSliced(m, a)
  {
    MapFixed(a);
    hide MapAddress;
  }

  predicate PathsAgree(m: MemState, a: word) {
    if RomSliced(m, a) then RomAgrees(m, a) else SramSliced(m, a) ==> SramAgrees(m, a)
  }

  /** At every address a word read is four successive byte reads exactly under that condition. */
  lemma WordIsFourReadsIff(m: MemState, addr: word)
    ensures Read32(m, addr) == FourReads(m, MapAddress(addr)) <==> PathsAgree(m, MapAddress(addr))
  {
    var a := MapAddress(addr);
    MapIdempotent(addr);
    MapShape(addr);
    SlicedWhere(m, a);
    Read32Mapped(m, addr);
    if Span(a, 4) {
      SliceIsFourReadsRam(m, addr);
      RamApart(m, a);
    } else if RomSliced(m, a) {
      SliceIsFourReadsRomIff(m, a);
    } else if SramSliced(m, a) {
      SliceIsFourReadsSramIff(m, a);
    } else {
      Unsliced(m, a);
    }
    hide *;
  }

  lemma RamApart(m: MemState, a: word)
    requires Span(a, 4)
    ensures PathsAgree(m, a)
  {
  }

  lemma Read32Mapped(m: MemState, addr: word)
    ensures Read32(m, addr) == Read32(m, MapAddress(addr))
  {
    MapIdempotent(addr);
    hide MapAddress, FourReads, BufferFor, IsIo;
  }

  lemma Unsliced(m: MemState, a: word)
    requires MapAddress(a) == a && !Sliced(m, a)
    ensures Read32(m, a) == FourReads(m, a)
  {
    hide MapAddress, FourReads, Sliced;
  }

  /** A byte of the image right behind its first 16 MB, at most three on, differs from the last one
      before. */
  predicate SeamShows(m: MemState) {
    exists k :: 0x100_0000 <= k < 0x100_0003 && k < |m.rom| && m.rom[k] != m.rom[0xFF_FFFF]
  }

  /** With the mirror that `load_rom_data` chooses, some word of the image is read differently by the
      two paths exactly when the image is larger than 16 MB and its seam shows: one at 0x0EFFFFFD,
      0x0EFFFFFE or 0x0EFFFFFF then is. */
  lemma PathsDifferIff(m: MemState)
    requires IsMirrorSize(|m.rom|, m.romMirror)
    ensures (exists a: word :: RomSliced(m, a) && Read32(m, a) != FourReads(m, a)) <==> SeamShows(m)
  {
    hide Read32, FourReads, RomAgrees, SeamShows;
    forall a: word | RomSliced(m, a)
      ensures Read32(m, a) != FourReads(m, a) ==> SeamShows(m)
    {
      SliceIsFourReadsRomIff(m, a);
      if !RomAgrees(m, a) {
        DisagreesAtSeam(m, a);
      }
    }
    if SeamShows(m) {
      var a := SeamWord(m);
      SliceIsFourReadsRomIff(m, a);
    }
  }

  lemma DisagreesAtSeam(m: MemState, a: word)
    requires IsMirrorSize(|m.rom|, m.romMirror) && RomSliced(m, a) && !RomAgrees(m, a)
    ensures SeamShows(m)
  {
    var e: nat := ROM_LAST - a;
    Beyond16(m, a);
    var i := (a - ROM_START) % m.romMirror;
    var k: nat :| k < 4 && a + k > ROM_LAST && RomAt(m, a, k) != RomAt(m, a, e);
    assert i + e == 0xFF_FFFF && m.rom[i + k] != m.rom[0xFF_FFFF];
  }

  lemma SeamWord(m: MemState) returns (a: word)
    requires IsMirrorSize(|m.rom|, m.romMirror) && SeamShows(m)
    ensures RomSliced(m, a) && !RomAgrees(m, a)
  {
    var k :| 0x100_0000 <= k < 0x100_0003 && k < |m.rom| && m.rom[k] != m.rom[0xFF_FFFF];
    var p: nat :| m.romMirror == Pow2(p);
    MirrorExponent(m, p);
    hide Pow2;
    var i := k - 3;
    a := ROM_START + 0x600_0000 + i;
    DivUnique(0x600_0000 + i, ROM_MAX_SIZE, 3, i);
    assert a + 3 > ROM_LAST && RomAt(m, a, 3) != RomAt(m, a, ROM_LAST - a);
  }

  /** A sliced word that reaches past the last ROM address starts at the seam. */
  lemma Beyond16(m: MemState, a: word)
    requires IsMirrorSize(|m.rom|, m.romMirror) && RomSliced(m, a)
    ensures a + 3 > ROM_LAST ==> |m.rom| > 0x100_0000 && (a - ROM_START) % m.romMirror == 0xFF_FFFF - (ROM_LAST - a)
  {
    var p: nat :| m.romMirror == Pow2(p);
    MirrorExponent(m, p);
    hide Pow2;
    if a + 3 > ROM_LAST {
      if |m.rom| <= 0x100_0000 {
        SmallMirror(m, a, p);
      } else {
        var e: nat := ROM_LAST - a;
        DivUnique(a - ROM_START, ROM_MAX_SIZE, 3, 0xFF_FFFF - e);
      }
    }
  }

  /** And for an image of more than 16 KB that is all: at no other address do the paths differ. */
  lemma PathsDifferOnlyThere(m: MemState, addr: word)
    requires IsMirrorSize(|m.rom|, m.romMirror) && SRAM_SIZE <= m.romMirror
    ensures Read32(m, addr) != FourReads(m, MapAddress(addr)) ==> RomSliced(m, MapAddress(addr))
  {
    WordIsFourReadsIff(m, addr);
    var a := MapAddress(addr);
    hide MapAddress, Read32, FourReads, IsMirrorSize;
    if SramSliced(m, a) {
      SramWhole(m, a);
    }
  }

  /** For a smaller one they may: three bytes, mirrored every four, show through between bytes of SRAM. */
  lemma TinyImageDiffers()
    ensures var m, a := Initial([1, 1, 1], 4), SRAM_START + 3;
            IsMirrorSize(3, 4) && SramSliced(m, a) && Read32(m, a) != FourReads(m, a)
  {
    var m, a := Initial([1, 1, 1], 4), SRAM_START + 3;
    assert Pow2(2) == 4;
    assert SramSliced(m, a) && SramRead(m, a + 1) == 1 && SramAt(m, a + 1) == 0;
    hide Read32, FourReads, SramRead, SramAt;
    SliceIsFourReadsSramIff(m, a);
  }

  lemma SramWhole(m: MemState, a: word)
    requires IsMirrorSize(|m.rom|, m.romMirror) && SRAM_SIZE <= m.romMirror && SramSliced(m, a)
    ensures SramAgrees(m, a)
  {
    var p: nat :| m.romMirror == Pow2(p);
    MirrorExponent(m, p);
    Pow2Large();
    WholeMirrors(0x600_0000, 3, 25, p);
    hide Pow2;
    InFirstMirror(a - SRAM_START, m.romMirror);
    forall d: word | a <= d < a + 4
      ensures SramRead(m, d) == SramAt(m, d)
    {
      InFirstMirror(d - SRAM_START, m.romMirror);
    }
  }

  lemma InFirstMirror(s: nat, p: nat)
    requires s < p && 0x600_0000 % p == 0
    ensures (0x600_0000 + s) % p == s
  {
    DivUnique(0x600_0000 + s, p, 0x600_0000 / p, s);
  }

  /** The mirror of an image is the smallest power of two that holds it; an image of such a size is its own. */
  lemma MirrorIsLeast(size: nat, ms: nat, j: nat)
    requires IsMirrorSize(size, ms)
    ensures size <= ms && (Pow2(j) >= size ==> ms <= Pow2(j)) && (size == Pow2(j) ==> ms == size)
  {
    var k: nat :| ms == Pow2(k);
    if k > j {
      Pow2Monotone(j, k - 1);
    } else {
      Pow2Monotone(k, j);
    }
  }

  lemma MirrorExponent(m: MemState, k: nat)
    requires IsMirrorSize(|m.rom|, m.romMirror) && m.romMirror == Pow2(k)
    ensures if |m.rom| > 0x100_0000 then m.romMirror == ROM_MAX_SIZE else k <= 24
  {
    Pow2Large();
    hide Pow2;
    if k > 25 {
      Pow2Monotone(26, k);
    } else if k < 25 {
      Pow2Monotone(k, 24);
    }
  }

  lemma Pow2Large()
    ensures Pow2(24) == 0x100_0000 && Pow2(25) == 0x200_0000 && Pow2(26) == 0x400_0000
  {
    assert Pow2(8) == 0x100;
    assert Pow2(16) == 0x1_0000;
  }

  /** A mirror of at most 16 MB ends where the cartridge area does. */
  lemma SmallMirror(m: MemState, a: word, k: nat)
    requires RomSliced(m, a) && m.romMirror == Pow2(k) && k <= 24 && |m.rom| <= m.romMirror
    ensures a + 3 <= ROM_LAST
  {
    Pow2Large();
    hide Pow2;
    WholeMirrors(0x700_0000, 7, 24, k);
    NotAcross(a - ROM_START, m.romMirror);
  }

  lemma WholeMirrors(x: nat, c: nat, top: nat, k: nat)
    requires k <= top && x == Pow2(top) * c
    ensures x % Pow2(k) == 0
  {
    var q := MirrorCount(x, c, top, k);
    hide Pow2;
    DivUnique(x, Pow2(k), q, 0);
  }

  lemma {:induction false} MirrorCount(x: nat, c: nat, top: nat, k: nat) returns (q: nat)
    requires k <= top && x == Pow2(top) * c
    ensures x == Pow2(k) * q
    decreases top - k
  {
    if k == top {
      q := c;
    } else {
      var q' := MirrorCount(x, c, top, k + 1);
      q := 2 * q';
      Doubled(Pow2(k), q');
    }
  }

  lemma Doubled(p: nat, q: nat)
    ensures (2 * p) * q == p * (2 * q)
  {
  }

  /** Three bytes further on is still before a multiple of the period. */
  lemma NotAcross(i: nat, p: nat)
    requires p > 0 && 0x700_0000 % p == 0 && i % p + 4 <= p && i < 0x700_0000
    ensures i + 3 < 0x700_0000
  {
    if i + 3 >= 0x700_0000 {
      MirrorStep(i, 0x700_0000 - i, p);
    }
  }
}
