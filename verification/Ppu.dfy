/** The scanline clock: snapshots of the BG2 affine matrix, the DMA triggers, and the status bytes. */
module Ppu {
  import opened Words
  import opened Wrappers
  import opened Interrupts
  import opened Memory
  import opened Dma

  const SCREEN_WIDTH := 240
  const SCREEN_HEIGHT := 160
  const SCANLINES := 228


  /** The BG2 matrix and reference point: 8.8 and 20.8 fixed point, and the wrap-around flag. */
  datatype Affine = Affine(dx: int, dmx: int, dy: int, dmy: int, refx: int, refy: int, overflow: bool)

  /** The 16-bit two's complement number in two bytes. */
  function Signed16(lo: byte, hi: byte): int {
    var v := Pack2(lo, hi);
    if v >= 0x8000 then v - 0x1_0000 else v
  }

  /** The 28-bit two's complement number in four bytes; the top four bits are dropped. */
  function Signed28(b0: byte, b1: byte, b2: byte, b3: byte): int {
    var v := Pack4(b0, b1, b2, b3) % 0x1000_0000;
    if v >= 0x800_0000 then v - 0x1000_0000 else v
  }

  /** `_read_affine_bg2_params` */
  function ReadAffine(ap: seq<byte>, overflow: bool): Affine
    requires |ap| == 16
  {
    Affine(Signed16(ap[0], ap[1]), Signed16(ap[2], ap[3]), Signed16(ap[4], ap[5]), Signed16(ap[6], ap[7]),
           Signed28(ap[8], ap[9], ap[10], ap[11]), Signed28(ap[12], ap[13], ap[14], ap[15]), overflow)
  }

  datatype Video = Video(vcount: nat, vblank: bool, snapshots: seq<Option<Affine>>, overflow: bool, dma: DmaState) {
    predicate Valid() {
      vcount < SCANLINES && |snapshots| == SCREEN_HEIGHT && ChannelsOk(dma.channels)
    }
  }

  /** DISPSTAT at the start of line `vcount`: VBlank in bit 0, HBlank in bit 1, and in bit 2 whether
      the line is the one in the high byte. */
  function Dispstat(d: half, vcount: nat): half {
    var vblank := if vcount >= SCREEN_HEIGHT then 1 else 0;
    var match_ := if vcount == d / 0x100 then 4 else 0;
    d - d % 8 + match_ + 2 + vblank
  }

  lemma DispstatJoined(d: half, vcount: nat, high: nat)
    requires high == d / 8
    ensures Dispstat(d, vcount)
            == 8 * high + (if vcount == high / 0x20 then 4 else 0) + 2 + (if vcount >= SCREEN_HEIGHT then 1 else 0)
  {
    assert d == 8 * high + d % 8;
    assert d / 0x100 == high / 0x20;
  }

  /** The status bytes of the new line. */
  function StoreStatus(m: MemState, vcount: nat): MemState
    requires vcount < SCANLINES
  {
    var d := Dispstat(Pack2(m.io[4], m.io[5]), vcount);
    m.(io := m.io[6 := vcount][7 := 0][4 := d % 0x100][5 := d / 0x100])
  }

  /** The interrupts of the new line. */
  function RaiseLine(flags: nat, d: half, vcount: nat): nat {
    var f1 := if vcount == SCREEN_HEIGHT && d / 8 % 2 == 1 then Raise(flags, IRQ_VBLANK) else flags;
    var f2 := if d / 0x10 % 2 == 1 then Raise(f1, IRQ_HBLANK) else f1;
    if d / 4 % 2 == 1 && d / 0x20 % 2 == 1 then Raise(f2, IRQ_VCOUNTER) else f2
  }

  function NoSnapshots(): (s: seq<Option<Affine>>)
    ensures |s| == SCREEN_HEIGHT
  {
    seq(SCREEN_HEIGHT, _ => None)
  }

  /** The matrix is latched before the HBlank transfer of the same line. */
  function Latch(s: Video): (t: Video)
    requires s.Valid()
    ensures t.Valid()
  {
    var snaps := if s.vcount == 0 then NoSnapshots() else s.snapshots;
    if s.vcount < SCREEN_HEIGHT then
      s.(snapshots := snaps[s.vcount := Some(ReadAffine(s.dma.m.affine, s.overflow))])
    else s
  }

  function HBlank(s: Video): (t: Video)
    requires s.Valid()
    ensures t.Valid() && t.vcount == s.vcount
  {
    if s.vcount < SCREEN_HEIGHT then s.(dma := Fire(s.dma, HBLANK)) else s
  }

  function Advance(s: Video): (t: Video)
    requires s.Valid()
    ensures t.Valid()
  {
    var vcount := (s.vcount + 1) % SCANLINES;
    s.(vcount := vcount, vblank := vcount >= SCREEN_HEIGHT, dma := s.dma.(m := StoreStatus(s.dma.m, vcount)))
  }

  /** VBlank transfers run on every line of the vertical blank. */
  function VBlank(s: Video): (t: Video)
    requires s.Valid()
    ensures t.Valid()
  {
    if s.vblank then s.(dma := Fire(s.dma, VBLANK)) else s
  }

  function Step(s: Video): (t: Video)
    requires s.Valid()
    ensures t.Valid()
  {
    var a := Advance(HBlank(Latch(s)));
    var d := Pack2(a.dma.m.io[4], a.dma.m.io[5]);
    var v := VBlank(a);
    v.(dma := v.dma.(ifReg := RaiseLine(v.dma.ifReg, d, v.vcount)))
  }

  class PPU {
    const memory: Memory
    const dma: DMA
    var vcount: nat
    var vblank: bool
    var snapshots: seq<Option<Affine>>
    var bg2Affine: bool

    ghost predicate Valid()
      reads this, dma.channels
    {
      && dma.Valid() && dma.mem == memory
      && vcount < SCANLINES && |snapshots| == SCREEN_HEIGHT
    }

    ghost function State(): (s: Video)
      requires Valid()
      reads this, dma.channels, dma.interrupts, memory, memory.Arrays
      ensures s.Valid()
    {
      Video(vcount, vblank, snapshots, bg2Affine, dma.State())
    }

    constructor (memory: Memory, dma: DMA)
      requires dma.Valid() && dma.mem == memory
      ensures Valid() && this.memory == memory && this.dma == dma
      ensures vcount == 0 && !vblank && snapshots == NoSnapshots()
    {
      this.memory, this.dma := memory, dma;
      vcount, vblank, snapshots, bg2Affine := 0, false, NoSnapshots(), false;
    }

    method ReadAffineBg2Params() returns (a: Affine)
      requires Valid()
      ensures a == ReadAffine(dma.State().m.affine, bg2Affine)
      ensures a == ReadAffine(memory.State().affine, bg2Affine)
    {
      hide ReadAffine;
      a := ReadAffine(memory.affineParams[..], bg2Affine);
    }

    /** Bits 0 to 2 of DISPSTAT are set or cleared, the bits above them kept. */
    static method UpdateDispstat(d: half, vcount: nat) returns (dispstat: half)
      ensures dispstat == Dispstat(d, vcount)
    {
      hide Dispstat;
      var high := d / 8;
      var lyc := high / 0x20;
      var vblankBit := if vcount >= SCREEN_HEIGHT then 1 else 0;
      var matchBit := if vcount == lyc then 4 else 0;
      dispstat := 8 * high + matchBit + 2 + vblankBit;
      DispstatJoined(d, vcount, high);
    }

    /** Stores VCOUNT and DISPSTAT of the new line and returns the latter. */
    method StoreStatusBytes() returns (dispstat: half)
      requires Valid()
      modifies memory.io
      ensures Valid()
      ensures dma.State() == old(dma.State()).(m := StoreStatus(old(dma.State()).m, vcount))
      ensures dispstat == Pack2(dma.State().m.io[4], dma.State().m.io[5])
    {
      hide Dispstat;
      memory.Distinct();
      var io := memory.io;
      io[6] := vcount;
      io[7] := 0;
      dispstat := UpdateDispstat(Pack2(io[4], io[5]), vcount);
      io[4] := dispstat % 0x100;
      io[5] := dispstat / 0x100;
      SplitPack2(dispstat);
    }

    method RaiseInterrupts(dispstat: half)
      requires Valid()
      modifies dma.interrupts
      ensures Valid()
      ensures dma.State() == old(dma.State()).(ifReg := RaiseLine(old(dma.State()).ifReg, dispstat, vcount))
    {
      hide Raise;
      if vcount == SCREEN_HEIGHT && dispstat / 8 % 2 == 1 {
        dma.interrupts.Fire(IRQ_VBLANK);
      }
      if dispstat / 0x10 % 2 == 1 {
        dma.interrupts.Fire(IRQ_HBLANK);
      }
      if dispstat / 4 % 2 == 1 && dispstat / 0x20 % 2 == 1 {
        dma.interrupts.Fire(IRQ_VCOUNTER);
      }
    }

    method LatchLine()
      requires Valid()
      modifies this`snapshots
      ensures Valid()
      ensures State() == Latch(old(State()))
    {
      hide ReadAffine, DMA.State, DMA.Valid;
      if vcount == 0 {
        snapshots := NoSnapshots();
      }
      if vcount < SCREEN_HEIGHT {
        var params := ReadAffineBg2Params();
        snapshots := snapshots[vcount := Some(params)];
      }
    }

    method AdvanceLine() returns (dispstat: half)
      requires Valid()
      modifies this`vcount, this`vblank, memory.io
      ensures Valid()
      ensures State() == Advance(old(State()))
      ensures dispstat == Pack2(State().dma.m.io[4], State().dma.m.io[5])
    {
      hide StoreStatus, DMA.State, DMA.Valid;
      vcount := (vcount + 1) % SCANLINES;
      vblank := vcount >= SCREEN_HEIGHT;
      dispstat := StoreStatusBytes();
    }

    method StepScanline()
      requires Valid()
      modifies this, dma.channels, dma.interrupts, memory, memory.Arrays
      ensures Valid()
      ensures State() == Step(old(State()))
    {
      hide Latch, Advance, Fire, RaiseLine, DMA.State, DMA.Valid;
      LatchLine();
      if vcount < SCREEN_HEIGHT {
        dma.FireAll(HBLANK);
      }
      var dispstat := AdvanceLine();
      if vblank {
        dma.FireAll(VBLANK);
      }
      RaiseInterrupts(dispstat);
    }
  }
}
