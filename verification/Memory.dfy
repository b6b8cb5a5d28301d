/** The byte-addressed memory of the emulated machine: regions, mirrors and the three access widths. */
module Memory {
  import opened Words

  const BIOS_SIZE := 0x4000
  const EWRAM_START := 0x0200_0000
  const EWRAM_SIZE := 0x4_0000
  const IWRAM_START := 0x0300_0000
  const IWRAM_SIZE := 0x8000
  const IO_START := 0x0400_0000
  const IO_SIZE := 0x400
  const PALETTE_START := 0x0500_0000
  const PALETTE_SIZE := 0x400
  const VRAM_START := 0x0600_0000
  const VRAM_SIZE := 0x1_8000
  const OAM_START := 0x0700_0000
  const OAM_SIZE := 0x400
  const ROM_START := 0x0800_0000
  const ROM_LAST := 0x0EFF_FFFF
  const ROM_MAX_SIZE := 0x200_0000
  const SRAM_START := 0x0E00_0000
  const SRAM_SIZE := 0x8000
  const AFFINE_START := 0x0400_0020
  const AFFINE_LAST := 0x0400_002E

  /** The contents of the machine's memories, the affine parameters kept beside the IO bytes, and
      the last byte seen on the bus. */
  datatype Mem = Mem(
    bios: seq<byte>, ewram: seq<byte>, iwram: seq<byte>, io: seq<byte>, palette: seq<byte>,
    vram: seq<byte>, oam: seq<byte>, sram: seq<byte>, rom: seq<byte>, romMirror: nat,
    affine: seq<byte>, openBus: byte)
  {
    predicate Valid() {
      && |bios| == BIOS_SIZE && |ewram| == EWRAM_SIZE && |iwram| == IWRAM_SIZE && |io| == IO_SIZE
      && |palette| == PALETTE_SIZE && |vram| == VRAM_SIZE && |oam| == OAM_SIZE && |sram| == SRAM_SIZE
      && |rom| <= ROM_MAX_SIZE && |rom| <= romMirror && 0 < romMirror
      && |affine| == 16
    }
  }

  function Zeros(n: nat): (s: seq<byte>)
    ensures |s| == n
  {
    seq(n, _ => 0)
  }

  type MemState = m: Mem | m.Valid()
    witness Mem(Zeros(BIOS_SIZE), Zeros(EWRAM_SIZE), Zeros(IWRAM_SIZE), Zeros(IO_SIZE), Zeros(PALETTE_SIZE),
                Zeros(VRAM_SIZE), Zeros(OAM_SIZE), Zeros(SRAM_SIZE), [], ROM_MAX_SIZE, Zeros(16), 0)

  /** The smallest power of two that the image fits in: the period of its mirrors. */
  ghost predicate IsMirrorSize(size: nat, ms: nat) {
    size <= ms && (ms == 1 || ms / 2 < size) && exists k: nat :: ms == Pow2(k)
  }

  /** The loop of `load_rom_data`. */
  method MirrorSize(size: nat) returns (ms: nat)
    ensures IsMirrorSize(size, ms)
  {
    ms := 1;
    ghost var k: nat := 0;
    while ms < size
      invariant ms == Pow2(k) && (ms == 1 || ms / 2 < size)
      decreases size - ms
    {
      ms, k := ms * 2, k + 1;
    }
  }

  /** A byte of IWRAM at power-on: the first word of the image, then zeros. */
  function StartByte(rom: seq<byte>, i: nat): byte {
    if i < 4 <= |rom| then rom[i] else 0
  }

  /** The memory at power-on, with a cartridge loaded: its first word is copied to IWRAM. */
  function Initial(rom: seq<byte>, romMirror: nat): MemState
    requires |rom| <= ROM_MAX_SIZE && |rom| <= romMirror && 0 < romMirror
  {
    Mem(Zeros(BIOS_SIZE)[0 := 0xEA], Zeros(EWRAM_SIZE), seq(IWRAM_SIZE, i requires 0 <= i => StartByte(rom, i)),
        Zeros(IO_SIZE)[0 := 0x80], Zeros(PALETTE_SIZE), Zeros(VRAM_SIZE), Zeros(OAM_SIZE), Zeros(SRAM_SIZE), rom, romMirror,
        Zeros(16)[1 := 0x01][7 := 0x01], 0)
  }

  // ----- the memory map -----

  function MapAddress(addr: word): word {
    if addr <= 0x01FF_FFFF then addr % BIOS_SIZE
    else if addr <= 0x02FF_FFFF then addr % EWRAM_SIZE + EWRAM_START
    else if addr <= 0x03FF_FFFF then addr % IWRAM_SIZE + IWRAM_START
    else if addr <= 0x04FF_FFFF then addr % IO_SIZE + IO_START
    else if addr <= 0x05FF_FFFF then addr % PALETTE_SIZE + PALETTE_START
    else if addr <= 0x06FF_FFFF then
      var offset := addr % 0x2_0000;
      (if offset >= VRAM_SIZE then offset - VRAM_SIZE else offset) + VRAM_START
    else if addr <= 0x07FF_FFFF then addr % OAM_SIZE + OAM_START
    else addr
  }

  /** Where an address, already mapped, lies. */
  datatype Location =
    | Bios(i: nat) | Ewram(i: nat) | Iwram(i: nat) | Io(i: nat) | Palette(i: nat)
    | Vram(i: nat) | Oam(i: nat) | Rom(i: nat) | Beyond

  function Locate(addr: word): (l: Location)
    ensures match l
            case Bios(i) => i < BIOS_SIZE
            case Ewram(i) => i < EWRAM_SIZE
            case Iwram(i) => i < IWRAM_SIZE
            case Io(i) => i < IO_SIZE
            case Palette(i) => i < PALETTE_SIZE
            case Vram(i) => i < VRAM_SIZE
            case Oam(i) => i < OAM_SIZE
            case _ => true
  {
    if addr < BIOS_SIZE then Bios(addr)
    else if EWRAM_START <= addr < EWRAM_START + EWRAM_SIZE then Ewram(addr - EWRAM_START)
    else if IWRAM_START <= addr < IWRAM_START + IWRAM_SIZE then Iwram(addr - IWRAM_START)
    else if IO_START <= addr < IO_START + IO_SIZE then Io(addr - IO_START)
    else if PALETTE_START <= addr < PALETTE_START + PALETTE_SIZE then Palette(addr - PALETTE_START)
    else if VRAM_START <= addr < VRAM_START + VRAM_SIZE then Vram(addr - VRAM_START)
    else if OAM_START <= addr < OAM_START + OAM_SIZE then Oam(addr - OAM_START)
    else if ROM_START <= addr <= ROM_LAST then Rom(addr - ROM_START)
    else Beyond
  }

  predicate IsIo(addr: word) {
    IO_START <= addr < IO_START + IO_SIZE
  }

  // ----- reading -----

  /** A byte of the IO area when no device is attached. */
  function ReadIo(m: MemState, i: nat): byte
    requires i < IO_SIZE
  {
    if 0x20 <= i <= 0x2E then m.affine[i - 0x20]
    else if 0x60 <= i <= 0x8F then 0
    else m.io[i]
  }

  /** The value `read_u8` returns; the open bus then holds that value. */
  function Read8(m: MemState, addr: word): byte {
    var a := MapAddress(addr);
    match Locate(a)
    case Bios(i) => m.bios[i]
    case Ewram(i) => m.ewram[i]
    case Iwram(i) => m.iwram[i]
    case Io(i) => ReadIo(m, i)
    case Palette(i) => m.palette[i]
    case Vram(i) => m.vram[i]
    case Oam(i) => m.oam[i]
    case Rom(i) =>
      if i % m.romMirror < |m.rom| then m.rom[i % m.romMirror]
      else if SRAM_START <= a < SRAM_START + SRAM_SIZE then m.sram[a - SRAM_START]
      else m.openBus
    case Beyond => m.openBus
  }

  function AfterRead8(m: MemState, addr: word): MemState {
    m.(openBus := Read8(m, addr))
  }

  datatype Slice = NoBuffer | Slice(buffer: seq<byte>, start: nat)

  /** `_buffer_for_addr` */
  function BufferFor(m: MemState, addr: word): (s: Slice)
    ensures s.Slice? ==> s.start < |s.buffer|
  {
    var a := MapAddress(addr);
    match Locate(a)
    case Bios(_) => NoBuffer
    case Ewram(i) => Slice(m.ewram, i)
    case Iwram(i) => Slice(m.iwram, i)
    case Io(i) => Slice(m.io, i)
    case Palette(i) => Slice(m.palette, i)
    case Vram(i) => Slice(m.vram, i)
    case Oam(i) => Slice(m.oam, i)
    case Rom(i) =>
      if i % m.romMirror < |m.rom| then Slice(m.rom, i % m.romMirror)
      else if SRAM_START <= a < SRAM_START + SRAM_SIZE then Slice(m.sram, a - SRAM_START)
      else NoBuffer
    case Beyond => NoBuffer
  }

  /** Without a buffer the source slices the ROM image at an index that is out of its range whichever
      region the address lies in, and the empty slice reads as zero. */
  function Read16(m: MemState, addr: word): half {
    var a := MapAddress(addr);
    if IsIo(a) then Pack2(Read8(m, a), Read8(AfterRead8(m, a), a + 1))
    else
      match BufferFor(m, addr)
      case NoBuffer => 0
      case Slice(b, i) => Pack2(b[i], if i + 1 < |b| then b[i + 1] else 0)
  }

  function AfterRead16(m: MemState, addr: word): MemState {
    var a := MapAddress(addr);
    if IsIo(a) then AfterRead8(AfterRead8(m, a), a + 1) else m
  }

  /** A word lies wholly inside one buffer and is read as a slice of it. */
  predicate Sliced(m: MemState, a: word) {
    !IsIo(a) && BufferFor(m, a).Slice? && BufferFor(m, a).start + 4 <= |BufferFor(m, a).buffer|
  }

  /** Four calls of `read_u8`, each finding on the open bus what the one before it left there. */
  function FourReads(m: MemState, a: word): word {
    var m1 := AfterRead8(m, a);
    var m2 := AfterRead8(m1, Next(a, 1));
    var m3 := AfterRead8(m2, Next(a, 2));
    Pack4(m1.openBus, m2.openBus, m3.openBus, Read8(m3, Next(a, 3)))
  }

  function Read32(m: MemState, addr: word): word {
    var a := MapAddress(addr);
    if Sliced(m, a) then
      var s := BufferFor(m, a);
      Pack4(s.buffer[s.start], s.buffer[s.start + 1], s.buffer[s.start + 2], s.buffer[s.start + 3])
    else FourReads(m, a)
  }

  function AfterRead32(m: MemState, addr: word): MemState {
    var a := MapAddress(addr);
    if Sliced(m, a) then m
    else AfterRead8(AfterRead8(AfterRead8(AfterRead8(m, a), Next(a, 1)), Next(a, 2)), Next(a, 3))
  }

  // ----- writing -----

  /** The part of `_dispatch_hal_write` that lands in the memory object itself. */
  function HalWrite(m: MemState, addr: word, value: half): MemState {
    if AFFINE_START <= addr <= AFFINE_LAST then
      var p := (addr - AFFINE_START) / 2;
      m.(affine := m.affine[2 * p := value % 0x100][2 * p + 1 := value / 0x100])
    else if 0x0400_0048 <= addr <= 0x0400_004F then m.(io := m.io[addr - IO_START := value % 0x100])
    else m
  }

  function Write8(m: MemState, addr: word, value: byte, fromMultibyte: bool): MemState {
    var a := if IO_START <= addr <= 0x07FF_FFFF then addr else MapAddress(addr);
    match Locate(a)
    case Ewram(i) => m.(ewram := m.ewram[i := value], openBus := value)
    case Iwram(i) => m.(iwram := m.iwram[i := value], openBus := value)
    case Io(i) =>
      var w := m.(io := m.io[i := value], openBus := value);
      if !fromMultibyte && i <= 0x5F then
        HalWrite(w, a - a % 2, Pack2(w.io[i - i % 2], w.io[i - i % 2 + 1]))
      else w
    case Palette(i) => m.(palette := m.palette[i := value], openBus := value)
    case Vram(i) => m.(vram := m.vram[i := value], openBus := value)
    case Oam(i) => m.(oam := m.oam[i := value], openBus := value)
    case _ => m
  }

  function Write16(m: MemState, addr: word, value: half): MemState {
    var a := MapAddress(addr);
    if AFFINE_START <= a <= AFFINE_LAST && a % 2 == 0 then HalWrite(m, a, value)
    else
      var w := Write8(Write8(m, a, ByteOf(value, 0), true), Next(a, 1), ByteOf(value, 1), true);
      if IsIo(a) then HalWrite(w, a, value) else w
  }

  function Write32(m: MemState, addr: word, value: word): MemState {
    var a := MapAddress(addr);
    var w := Write8(Write8(m, a, ByteOf(value, 0), true), Next(a, 1), ByteOf(value, 1), true);
    if IsIo(a) then HalWrite(w, a, value % 0x1_0000)
    else Write8(Write8(w, Next(a, 2), ByteOf(value, 2), true), Next(a, 3), ByteOf(value, 3), true)
  }

  // ----- the memory object -----

  ghost predicate NoAlias(buffers: seq<array<byte>>) {
    forall i, j :: 0 <= i < j < |buffers| ==> buffers[i] != buffers[j]
  }

  lemma AllApart(a: array<byte>, b: array<byte>, c: array<byte>, d: array<byte>, e: array<byte>, f: array<byte>, g: array<byte>)
    requires a != b && a != c && a != d && a != e && a != f && a != g && b != c && b != d && b != e && b != f && b != g
    requires c != d && c != e && c != f && c != g && d != e && d != f && d != g && e != f && e != g && f != g
    ensures NoAlias([a, b, c, d, e, f, g])
  {
  }

  class Memory {
    const bios: seq<byte>
    const ewram: array<byte>
    const iwram: array<byte>
    const io: array<byte>
    const palette: array<byte>
    const vram: array<byte>
    const oam: array<byte>
    /** No store reaches it: the ROM branch of `write_u8` covers its addresses. */
    const sram: seq<byte>
    const rom: seq<byte>
    const romMirror: nat
    const affineParams: array<byte>
    var openBus: byte

    ghost const Arrays: set<array<byte>> := {ewram, iwram, io, palette, vram, oam, affineParams}

    ghost predicate Valid() {
      && |bios| == BIOS_SIZE && ewram.Length == EWRAM_SIZE && iwram.Length == IWRAM_SIZE && io.Length == IO_SIZE
      && palette.Length == PALETTE_SIZE && vram.Length == VRAM_SIZE && oam.Length == OAM_SIZE
      && |sram| == SRAM_SIZE && |rom| <= ROM_MAX_SIZE && |rom| <= romMirror && 0 < romMirror
      && affineParams.Length == 16
      && NoAlias([ewram, iwram, io, palette, vram, oam, affineParams])
    }

    /** `__init__` and `load_rom_data`: all memories zero but DISPCNT, the first BIOS byte, the identity
        matrix among the affine parameters, and the start of IWRAM. */
    constructor (rom: seq<byte>)
      requires |rom| <= ROM_MAX_SIZE
      ensures Valid() && forall a :: a in Arrays ==> fresh(a)
      ensures IsMirrorSize(|rom|, romMirror) && State() == Initial(rom, romMirror)
    {
      hide IsMirrorSize, StartByte, NoAlias;
      var ms := MirrorSize(|rom|);
      bios := Zeros(BIOS_SIZE)[0 := 0xEA];
      sram := Zeros(SRAM_SIZE);
      ewram := new byte[EWRAM_SIZE](_ => 0);
      iwram := new byte[IWRAM_SIZE](i requires 0 <= i => StartByte(rom, i));
      io := new byte[IO_SIZE](i => if i == 0 then 0x80 else 0);
      palette := new byte[PALETTE_SIZE](_ => 0);
      vram := new byte[VRAM_SIZE](_ => 0);
      oam := new byte[OAM_SIZE](_ => 0);
      affineParams := new byte[16](i => if i == 1 || i == 7 then 1 else 0);
      this.rom, romMirror, openBus := rom, ms, 0;
      new;
      AllApart(ewram, iwram, io, palette, vram, oam, affineParams);
      assert ewram[..] == Zeros(EWRAM_SIZE) && palette[..] == Zeros(PALETTE_SIZE) && vram[..] == Zeros(VRAM_SIZE);
      assert oam[..] == Zeros(OAM_SIZE) && io[..] == Zeros(IO_SIZE)[0 := 0x80];
      assert affineParams[..] == Zeros(16)[1 := 0x01][7 := 0x01];
    }

    /** The buffers are seven different arrays. */
    lemma Distinct()
      requires Valid()
      ensures ewram != iwram && ewram != io && ewram != palette && ewram != vram && ewram != oam && ewram != affineParams
      ensures iwram != io && iwram != palette && iwram != vram && iwram != oam && iwram != affineParams
      ensures io != palette && io != vram && io != oam && io != affineParams
      ensures palette != vram && palette != oam && palette != affineParams
      ensures vram != oam && vram != affineParams && oam != affineParams
    {
      var b := [ewram, iwram, io, palette, vram, oam, affineParams];
      assert b[0] != b[1] && b[0] != b[2] && b[0] != b[3] && b[0] != b[4] && b[0] != b[5] && b[0] != b[6];
      assert b[1] != b[2] && b[1] != b[3] && b[1] != b[4] && b[1] != b[5] && b[1] != b[6];
      assert b[2] != b[3] && b[2] != b[4] && b[2] != b[5] && b[2] != b[6];
      assert b[3] != b[4] && b[3] != b[5] && b[3] != b[6];
      assert b[4] != b[5] && b[4] != b[6] && b[5] != b[6];
    }

    ghost function State(): MemState
      requires Valid()
      reads this, ewram, iwram, io, palette, vram, oam, affineParams
    {
      Mem(bios, ewram[..], iwram[..], io[..], palette[..], vram[..], oam[..], sram, rom, romMirror,
          affineParams[..], openBus)
    }

    method ReadU8(addr: word) returns (v: byte)
      requires Valid()
      modifies this
      ensures v == Read8(old(State()), addr)
      ensures State() == AfterRead8(old(State()), addr)
    {
      var a := MapAddress(addr);
      if a < BIOS_SIZE {
        v := bios[a];
      } else if EWRAM_START <= a < EWRAM_START + EWRAM_SIZE {
        v := ewram[a - EWRAM_START];
      } else if IWRAM_START <= a < IWRAM_START + IWRAM_SIZE {
        v := iwram[a - IWRAM_START];
      } else if IO_START <= a < IO_START + IO_SIZE {
        var offset := a - IO_START;
        if 0x20 <= offset <= 0x2E {
          v := affineParams[offset - 0x20];
        } else if 0x60 <= offset <= 0x8F {
          v := 0;
        } else {
          v := io[offset];
        }
      } else if PALETTE_START <= a < PALETTE_START + PALETTE_SIZE {
        v := palette[a - PALETTE_START];
      } else if VRAM_START <= a < VRAM_START + VRAM_SIZE {
        v := vram[a - VRAM_START];
      } else if OAM_START <= a < OAM_START + OAM_SIZE {
        v := oam[a - OAM_START];
      } else if ROM_START <= a <= ROM_LAST && (a - ROM_START) % romMirror < |rom| {
        v := rom[(a - ROM_START) % romMirror];
      } else if SRAM_START <= a < SRAM_START + SRAM_SIZE {
        v := sram[a - SRAM_START];
      } else {
        v := openBus;
      }
      openBus := v;
    }

    /** The buffer an address lies in, as its contents and an index. */
    method BufferForAddr(addr: word) returns (s: Slice)
      requires Valid()
      ensures s == BufferFor(State(), addr)
    {
      var a := MapAddress(addr);
      s := NoBuffer;
      if ROM_START <= a <= ROM_LAST && (a - ROM_START) % romMirror < |rom| {
        s := Slice(rom, (a - ROM_START) % romMirror);
      } else if EWRAM_START <= a < EWRAM_START + EWRAM_SIZE {
        s := Slice(ewram[..], a - EWRAM_START);
      } else if IWRAM_START <= a < IWRAM_START + IWRAM_SIZE {
        s := Slice(iwram[..], a - IWRAM_START);
      } else if IO_START <= a < IO_START + IO_SIZE {
        s := Slice(io[..], a - IO_START);
      } else if PALETTE_START <= a < PALETTE_START + PALETTE_SIZE {
        s := Slice(palette[..], a - PALETTE_START);
      } else if VRAM_START <= a < VRAM_START + VRAM_SIZE {
        s := Slice(vram[..], a - VRAM_START);
      } else if OAM_START <= a < OAM_START + OAM_SIZE {
        s := Slice(oam[..], a - OAM_START);
      } else if SRAM_START <= a < SRAM_START + SRAM_SIZE {
        s := Slice(sram, a - SRAM_START);
      }
    }

    method ReadU16(addr: word) returns (v: half)
      requires Valid()
      modifies this
      ensures v == Read16(old(State()), addr)
      ensures State() == AfterRead16(old(State()), addr)
    {
      hide Read8, BufferFor;
      var mapped := MapAddress(addr);
      if IO_START <= mapped < IO_START + IO_SIZE {
        var lo := ReadU8(mapped);
        var hi := ReadU8(mapped + 1);
        v := Pack2(lo, hi);
      } else {
        var s := BufferForAddr(addr);
        if s.Slice? {
          v := Pack2(s.buffer[s.start], if s.start + 1 < |s.buffer| then s.buffer[s.start + 1] else 0);
        } else {
          v := 0;
        }
      }
    }

    method ReadU32(addr: word) returns (v: word)
      requires Valid()
      modifies this
      ensures v == Read32(old(State()), addr)
      ensures State() == AfterRead32(old(State()), addr)
    {
      hide Read8, BufferFor;
      var mapped := MapAddress(addr);
      if !(IO_START <= mapped < IO_START + IO_SIZE) {
        var s := BufferForAddr(mapped);
        if s.Slice? && s.start + 4 <= |s.buffer| {
          return Pack4(s.buffer[s.start], s.buffer[s.start + 1], s.buffer[s.start + 2], s.buffer[s.start + 3]);
        }
      }
      var b0 := ReadU8(mapped);
      var b1 := ReadU8(Next(mapped, 1));
      var b2 := ReadU8(Next(mapped, 2));
      var b3 := ReadU8(Next(mapped, 3));
      v := Pack4(b0, b1, b2, b3);
    }

    method HalWriteInPlace(addr: word, value: half)
      requires Valid()
      modifies this, io, affineParams
      ensures State() == HalWrite(old(State()), addr, value)
    {
      Distinct();
      if 0x0400_0048 <= addr <= 0x0400_004F {
        io[addr - IO_START] := value % 0x100;
      }
      if AFFINE_START <= addr <= AFFINE_LAST {
        var p := (addr - AFFINE_START) / 2;
        affineParams[2 * p] := value % 0x100;
        affineParams[2 * p + 1] := value / 0x100;
      }
    }

    method WriteU8(addr: word, value: byte, fromMultibyte: bool)
      requires Valid()
      modifies this, Arrays
      ensures State() == Write8(old(State()), addr, value, fromMultibyte)
    {
      Distinct();
      var a := addr;
      if !(0x0400_0000 <= a <= 0x07FF_FFFF) {
        a := MapAddress(a);
      }
      if a < BIOS_SIZE {
        return;
      }
      if EWRAM_START <= a < EWRAM_START + EWRAM_SIZE {
        ewram[a - EWRAM_START] := value;
      } else if IWRAM_START <= a < IWRAM_START + IWRAM_SIZE {
        iwram[a - IWRAM_START] := value;
      } else if IO_START <= a < IO_START + IO_SIZE {
        WriteIo(a, value, fromMultibyte);
        return;
      } else if PALETTE_START <= a < PALETTE_START + PALETTE_SIZE {
        palette[a - PALETTE_START] := value;
      } else if VRAM_START <= a < VRAM_START + VRAM_SIZE {
        vram[a - VRAM_START] := value;
      } else if OAM_START <= a < OAM_START + OAM_SIZE {
        oam[a - OAM_START] := value;
      } else {
        return;
      }
      openBus := value;
    }

    /** The IO branch of `write_u8`. */
    method WriteIo(a: word, value: byte, fromMultibyte: bool)
      requires Valid() && IsIo(a)
      modifies this, io, affineParams
      ensures State() == Write8(old(State()), a, value, fromMultibyte)
    {
      hide HalWrite;
      Distinct();
      var offset := a - IO_START;
      io[offset] := value;
      openBus := value;
      if !fromMultibyte && a <= 0x0400_005F {
        var base := offset - offset % 2;
        var merged := Pack2(io[base], io[base + 1]);
        HalWriteInPlace(a - a % 2, merged);
      }
    }

    method WriteU16(addr: word, value: half)
      requires Valid()
      modifies this, Arrays
      ensures State() == Write16(old(State()), addr, value)
    {
      hide Write8, HalWrite;
      var mapped := MapAddress(addr);
      if AFFINE_START <= mapped <= AFFINE_LAST && mapped % 2 == 0 {
        HalWriteInPlace(mapped, value);
        return;
      }
      WriteU8(mapped, ByteOf(value, 0), true);
      WriteU8(Next(mapped, 1), ByteOf(value, 1), true);
      if IO_START <= mapped < IO_START + IO_SIZE {
        HalWriteInPlace(mapped, value);
      }
    }

    method WriteU32(addr: word, value: word)
      requires Valid()
      modifies this, Arrays
      ensures State() == Write32(old(State()), addr, value)
    {
      hide Write8, HalWrite;
      var mapped := MapAddress(addr);
      if IO_START <= mapped < IO_START + IO_SIZE {
        WriteU8(mapped, ByteOf(value, 0), true);
        WriteU8(Next(mapped, 1), ByteOf(value, 1), true);
        HalWriteInPlace(mapped, value % 0x1_0000);
        return;
      }
      WriteU8(mapped, ByteOf(value, 0), true);
      WriteU8(Next(mapped, 1), ByteOf(value, 1), true);
      WriteU8(Next(mapped, 2), ByteOf(value, 2), true);
      WriteU8(Next(mapped, 3), ByteOf(value, 3), true);
    }
  }
}
