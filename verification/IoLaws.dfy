/** The memory map in numbers, and what the IO area gives back. */
module IoLaws {
  import opened Arith
  import opened Words
  import opened Memory
  import opened MemoryLaws
  import opened Dma
  import opened Ppu

  // ----- the map in numbers -----

  /** Each region repeats every so many bytes; VRAM repeats every 128 KB, and there its first 32 KB once
      more behind its 96. */
  lemma MapMeans(k: nat, i: nat)
    ensures i < 0x4000 && 0x4000 * k + i < 0x0200_0000 ==> MapAddress(0x4000 * k + i) == i
    ensures i < 0x4_0000 && k < 0x40 ==> MapAddress(0x0200_0000 + 0x4_0000 * k + i) == 0x0200_0000 + i
    ensures i < 0x8000 && k < 0x200 ==> MapAddress(0x0300_0000 + 0x8000 * k + i) == 0x0300_0000 + i
    ensures i < 0x400 && k < 0x4000 ==> MapAddress(0x0400_0000 + 0x400 * k + i) == 0x0400_0000 + i
    ensures i < 0x400 && k < 0x4000 ==> MapAddress(0x0500_0000 + 0x400 * k + i) == 0x0500_0000 + i
    ensures i < 0x1_8000 && k < 0x80 ==> MapAddress(0x0600_0000 + 0x2_0000 * k + i) == 0x0600_0000 + i
    ensures i < 0x8000 && k < 0x80 ==> MapAddress(0x0600_0000 + 0x2_0000 * k + 0x1_8000 + i) == 0x0600_0000 + i
    ensures i < 0x400 && k < 0x4000 ==> MapAddress(0x0700_0000 + 0x400 * k + i) == 0x0700_0000 + i
    ensures 0x0800_0000 + i < TWO_32 ==> MapAddress(0x0800_0000 + i) == 0x0800_0000 + i
  {
    MapLow(k, i);
    MapVram(k, i);
    MapSmall(k, i);
    hide MapAddress;
  }

  lemma MapLow(k: nat, i: nat)
    ensures i < 0x4000 && 0x4000 * k + i < 0x0200_0000 ==> MapAddress(0x4000 * k + i) == i
    ensures i < 0x4_0000 && k < 0x40 ==> MapAddress(0x0200_0000 + 0x4_0000 * k + i) == 0x0200_0000 + i
    ensures i < 0x8000 && k < 0x200 ==> MapAddress(0x0300_0000 + 0x8000 * k + i) == 0x0300_0000 + i
    ensures 0x0800_0000 + i < TWO_32 ==> MapAddress(0x0800_0000 + i) == 0x0800_0000 + i
  {
    Offset(0x4000, k, i);
    Offset(0x4_0000, 0x80 + k, i);
    Offset(0x8000, 0x600 + k, i);
  }

  lemma MapSmall(k: nat, i: nat)
    ensures i < 0x400 && k < 0x4000 ==> MapAddress(0x0400_0000 + 0x400 * k + i) == 0x0400_0000 + i
    ensures i < 0x400 && k < 0x4000 ==> MapAddress(0x0500_0000 + 0x400 * k + i) == 0x0500_0000 + i
    ensures i < 0x400 && k < 0x4000 ==> MapAddress(0x0700_0000 + 0x400 * k + i) == 0x0700_0000 + i
  {
    Offset(0x400, 0x1_0000 + k, i);
    Offset(0x400, 0x1_4000 + k, i);
    Offset(0x400, 0x1_C000 + k, i);
  }

  lemma MapVram(k: nat, i: nat)
    ensures i < 0x1_8000 && k < 0x80 ==> MapAddress(0x0600_0000 + 0x2_0000 * k + i) == 0x0600_0000 + i
    ensures i < 0x8000 && k < 0x80 ==> MapAddress(0x0600_0000 + 0x2_0000 * k + 0x1_8000 + i) == 0x0600_0000 + i
  {
    Offset(0x2_0000, 0x300 + k, i);
    Offset(0x2_0000, 0x300 + k, 0x1_8000 + i);
  }

  lemma Offset(size: nat, k: nat, i: nat)
    requires size > 0
    ensures i < size ==> (size * k + i) % size == i
  {
    if i < size {
      DivUnique(size * k + i, size, k, i);
    }
  }

  // ----- the IO area -----

  const IO := 0x0400_0000

  /** A halfword store to the IO area, outside the affine registers. */
  lemma IoStored(m: MemState, i: nat, v: half)
    requires i < 0x400 && i % 2 == 0 && !(0x20 <= i < 0x30)
    ensures var t := Write16(m, IO + i, v);
            && t == m.(io := t.io, openBus := t.openBus) && t.io[i] == v % 0x100
            && (t.io[i + 1] == v / 0x100)
            && forall j :: 0 <= j < 0x400 && j != i && j != i + 1 ==> t.io[j] == m.io[j]
  {
    MapFixed(IO + i);
    hide MapAddress;
  }

  lemma IoByte(m: MemState, i: nat)
    requires i < 0x400
    ensures Read8(m, IO + i) == if 0x20 <= i <= 0x2E then m.affine[i - 0x20] else if 0x60 <= i <= 0x8F then 0 else m.io[i]
  {
    MapFixed(IO + i);
    hide MapAddress;
  }

  lemma IoHalf(m: MemState, i: nat)
    requires i < 0x400 && i % 2 == 0
    ensures var b := Read8(m, IO + i);
            Read16(m, IO + i) == Pack2(b, Read8(m.(openBus := b), IO + i + 1))
  {
    MapFixed(IO + i);
    hide MapAddress, Read8;
  }

  /** A halfword is read back as it was stored, except from the sound registers, which read as zero. */
  lemma IoReadsBack(m: MemState, i: nat, v: half)
    requires i < 0x400 && i % 2 == 0 && !(0x20 <= i < 0x30)
    ensures Read16(Write16(m, IO + i, v), IO + i) == if 0x60 <= i < 0x90 then 0 else v
  {
    hide Read8, Read16, Write16;
    var t := Write16(m, IO + i, v);
    IoStored(m, i, v);
    IoHalf(t, i);
    IoByte(t, i);
    IoByte(t.(openBus := Read8(t, IO + i)), i + 1);
  }

  /** The affine registers are read back too, but for the high byte of the last, which is not read from
      where it was stored. */
  lemma AffineReadsBackIff(m: MemState, p: nat, v: half)
    requires p < 8
    ensures var a := IO + 0x20 + 2 * p;
            Read16(Write16(m, a, v), a) == v <==> p < 7 || m.io[0x2F] == v / 0x100
  {
    hide Read8, Read16, Write16;
    var i := 0x20 + 2 * p;
    var t := Write16(m, IO + i, v);
    AffineStored(m, p, v);
    IoHalf(t, i);
    IoByte(t, i);
    IoByte(t.(openBus := Read8(t, IO + i)), i + 1);
  }

  lemma AffineStored(m: MemState, p: nat, v: half)
    requires p < 8
    ensures Write16(m, IO + 0x20 + 2 * p, v) == m.(affine := m.affine[2 * p := v % 0x100][2 * p + 1 := v / 0x100])
  {
    var a := IO + 0x20 + 2 * p;
    MapFixed(a);
    hide MapAddress, Write8;
    assert a % 2 == 0 && (a - AFFINE_START) / 2 == p;
    assert Write16(m, a, v) == HalWrite(m, a, v);
  }

  /** A byte store to an affine register sets its own byte of the parameters, and the other byte of the pair
      to what the IO bytes hold, so that the other is kept exactly when the two agreed. */
  lemma AffineByteStoreIff(m: MemState, i: nat, v: byte)
    requires i < 16
    ensures var t, other := Write8(m, IO + 0x20 + i, v, false), Partner(i);
            && t.affine[i] == v
            && (t.affine[other] == m.affine[other] <==> m.io[0x20 + other] == m.affine[other])
            && (forall j :: 0 <= j < 16 && j != i && j != other ==> t.affine[j] == m.affine[j])
  {
    hide Write8, Pack2, HalWrite;
    var e := i - i % 2;
    var w := m.(io := m.io[0x20 + i := v], openBus := v);
    ByteForwarded(m, i, v);
    PairForwarded(w, e, w.io[0x20 + e], w.io[0x20 + e + 1]);
  }

  lemma PairForwarded(w: MemState, e: nat, lo: byte, hi: byte)
    requires e < 16 && e % 2 == 0
    ensures HalWrite(w, IO + 0x20 + e, Pack2(lo, hi)) == w.(affine := w.affine[e := lo][e + 1 := hi])
  {
    PairMeans(lo, hi);
    hide Pack2;
    var a: int := IO + 0x20 + e;
    assert (a - AFFINE_START) / 2 == e / 2 && 2 * (e / 2) == e;
  }

  /** The other byte of a halfword. */
  function Partner(i: nat): (k: nat)
    requires i < 16
    ensures k < 16
  {
    if i % 2 == 0 then i + 1 else i - 1
  }

  lemma ByteForwarded(m: MemState, i: nat, v: byte)
    requires i < 16
    ensures var e, w := i - i % 2, m.(io := m.io[0x20 + i := v], openBus := v);
            Write8(m, IO + 0x20 + i, v, false) == HalWrite(w, IO + 0x20 + e, Pack2(w.io[0x20 + e], w.io[0x20 + e + 1]))
  {
    hide HalWrite, Pack2;
    assert Locate(IO + 0x20 + i) == Io(0x20 + i);
    var a := IO + 0x20 + i;
    assert a - a % 2 == IO + 0x20 + (i - i % 2);
  }

  lemma PairMeans(lo: byte, hi: byte)
    ensures Pack2(lo, hi) % 0x100 == lo && Pack2(lo, hi) / 0x100 == hi
  {
  }

  // ----- the DMA registers -----

  /** Halfwords stored one after the other. */
  function StoreHalves(m: MemState, i: nat, vs: seq<half>): MemState
    requires i + 2 * |vs| <= 0x400
    decreases |vs|
  {
    if vs == [] then m else StoreHalves(Write16(m, IO + i, vs[0]), i + 2, vs[1..])
  }

  /** Byte `k` of a row of halfwords. */
  function ByteIn(vs: seq<half>, k: nat): byte
    requires k < 2 * |vs|
  {
    if k == 0 then vs[0] % 0x100 else if k == 1 then vs[0] / 0x100 else ByteIn(vs[1..], k - 2)
  }

  lemma {:induction false} BytesOf(vs: seq<half>, k: nat)
    requires k < |vs|
    ensures ByteIn(vs, 2 * k) == vs[k] % 0x100 && ByteIn(vs, 2 * k + 1) == vs[k] / 0x100
    decreases k
  {
    if k > 0 { BytesOf(vs[1..], k - 1); }
  }

  lemma {:induction false} HalvesStored(m: MemState, i: nat, vs: seq<half>, j: nat)
    requires i + 2 * |vs| <= 0x400 && i % 2 == 0 && i >= 0x30 && j < 0x400
    ensures StoreHalves(m, i, vs).io[j] == if i <= j < i + 2 * |vs| then ByteIn(vs, j - i) else m.io[j]
    decreases |vs|
  {
    if vs != [] {
      hide Write16;
      IoStored(m, i, vs[0]);
      HalvesStored(Write16(m, IO + i, vs[0]), i + 2, vs[1..], j);
    }
  }

  /** What is stored in the six halfwords of channel `id`, from 0x040000B0 + 12 * id on, is what the channel
      latches when that switches it on: source, destination, count and control. */
  lemma ChannelLatches(m: MemState, ch: Channel, src: word, dst: word, count: half, control: half)
    requires ch.id < 4 && !ch.enabled && control >= 0x8000
    ensures var t := StoreHalves(m, 0xB0 + 12 * ch.id,
                       [src % 0x1_0000, src / 0x1_0000, dst % 0x1_0000, dst / 0x1_0000, count, control]);
            var x := Refresh(ch, t.io);
            && x.src == x.origSrc == src && x.dst == x.origDst == dst && x.count == x.origCount == count
            && x.control == control && x.enabled && x.id == ch.id
  {
    hide StoreHalves, Pack2, SrcReg, DstReg, CountReg, ControlReg;
    var b := 0xB0 + 12 * ch.id;
    var vs := [src % 0x1_0000, src / 0x1_0000, dst % 0x1_0000, dst / 0x1_0000, count, control];
    PairStored(m, b, vs, 0);
    PairStored(m, b, vs, 1);
    PairStored(m, b, vs, 2);
    PairStored(m, b, vs, 3);
    PairStored(m, b, vs, 4);
    PairStored(m, b, vs, 5);
    RegistersAre(StoreHalves(m, b, vs).io, ch.id, vs[0], vs[1], vs[2], vs[3], vs[4], vs[5]);
  }

  lemma PairStored(m: MemState, b: nat, vs: seq<half>, k: nat)
    requires b + 2 * |vs| <= 0x400 && b % 2 == 0 && b >= 0x30 && k < |vs|
    ensures var t := StoreHalves(m, b, vs); Pack2(t.io[b + 2 * k], t.io[b + 2 * k + 1]) == vs[k]
  {
    hide StoreHalves, ByteIn;
    HalvesStored(m, b, vs, b + 2 * k);
    HalvesStored(m, b, vs, b + 2 * k + 1);
    BytesOf(vs, k);
    SplitPack2(vs[k]);
  }

  lemma RegistersAre(io: seq<byte>, id: nat, s0: half, s1: half, d0: half, d1: half, count: half, control: half)
    requires id < 4 && |io| == IO_SIZE
    requires var b := 0xB0 + 12 * id;
             && Pack2(io[b], io[b + 1]) == s0 && Pack2(io[b + 2], io[b + 3]) == s1
             && Pack2(io[b + 4], io[b + 5]) == d0 && Pack2(io[b + 6], io[b + 7]) == d1
             && Pack2(io[b + 8], io[b + 9]) == count && Pack2(io[b + 10], io[b + 11]) == control
    ensures SrcReg(io, id) == s0 + 0x1_0000 * s1 && DstReg(io, id) == d0 + 0x1_0000 * d1
    ensures CountReg(io, id) == count && ControlReg(io, id) == control
  {
  }

  // ----- halfwords elsewhere -----

  /** In the image a halfword is two successive byte reads if both bytes are in it. */
  lemma HalfInRom(m: MemState, a: word)
    requires ROM_START <= a < ROM_LAST && (a - ROM_START) % m.romMirror + 1 < |m.rom|
    ensures Read16(m, a) == Pack2(Read8(m, a), Read8(AfterRead8(m, a), a + 1))
  {
    var i := a - ROM_START;
    MapFixed(a);
    MapFixed(a + 1);
    MirrorStep(i, 1, m.romMirror);
    hide MapAddress, IsRam;
    assert Locate(a) == Rom(i) && Locate(a + 1) == Rom(i + 1);
    hide Locate;
  }

  /** Halfwords of the BIOS, and of no memory at all, read as zero, whatever their bytes. */
  lemma HalfOfNothing(m: MemState, a: word)
    requires a < 0x4000 || a > ROM_LAST
    ensures Read16(m, a) == 0
  {
    MapFixed(a);
    hide MapAddress;
  }

  // ----- the cartridge -----

  /** From 0x08000000 to 0x0EFFFFFF: the image and its mirrors; where there is none, 32 KB of SRAM from
      0x0E000000 on; and the open bus elsewhere, as behind. */
  lemma CartridgeByte(m: MemState, i: nat)
    requires i < 0xF800_0000
    ensures Read8(m, 0x0800_0000 + i)
            == if i < 0x0700_0000 && i % m.romMirror < |m.rom| then m.rom[i % m.romMirror]
               else if 0x0600_0000 <= i < 0x0600_8000 then m.sram[i - 0x0600_0000]
               else m.openBus
  {
    MapFixed(0x0800_0000 + i);
    hide MapAddress;
  }

  // ----- power-on -----

  /** The identity matrix. */
  lemma PowerOnMatrix(rom: seq<byte>, romMirror: nat)
    requires |rom| <= ROM_MAX_SIZE && |rom| <= romMirror && 0 < romMirror
    ensures ReadAffine(Initial(rom, romMirror).affine, false) == Affine(0x100, 0, 0, 0x100, 0, 0, false)
  {
    var ap := Initial(rom, romMirror).affine;
    assert forall k :: 0 <= k < 16 ==> ap[k] == if k == 1 || k == 7 then 1 else 0;
    hide Initial;
    IdentityOf(ap);
  }

  lemma IdentityOf(ap: seq<byte>)
    requires |ap| == 16 && forall k :: 0 <= k < 16 ==> ap[k] == if k == 1 || k == 7 then 1 else 0
    ensures ReadAffine(ap, false) == Affine(0x100, 0, 0, 0x100, 0, 0, false)
  {
    hide Signed16, Signed28;
    SmallSigned();
    assert ap[0] == 0 && ap[1] == 1 && ap[2] == 0 && ap[3] == 0 && ap[4] == 0 && ap[5] == 0 && ap[6] == 0 && ap[7] == 1;
    assert ap[8] == 0 && ap[9] == 0 && ap[10] == 0 && ap[11] == 0 && ap[12] == 0 && ap[13] == 0 && ap[14] == 0 && ap[15] == 0;
  }

  lemma SmallSigned()
    ensures Signed16(0, 1) == 0x100 && Signed16(0, 0) == 0 && Signed28(0, 0, 0, 0) == 0
  {
    var v: int := Pack4(0, 0, 0, 0);
    assert v == 0;
    hide Pack4;
    assert v % 0x1000_0000 == 0;
  }

  /** DISPCNT 0x0080, one byte of BIOS, the first word of the image at the start of IWRAM if it has one, and
      zeros. */
  lemma PowerOn(rom: seq<byte>, romMirror: nat, i: nat)
    requires |rom| <= ROM_MAX_SIZE && |rom| <= romMirror && 0 < romMirror
    ensures var m := Initial(rom, romMirror);
            && (i < IO_SIZE ==> m.io[i] == if i == 0 then 0x80 else 0)
            && (i < BIOS_SIZE ==> m.bios[i] == if i == 0 then 0xEA else 0)
            && (i < IWRAM_SIZE ==> m.iwram[i] == if i < 4 && |rom| >= 4 then rom[i] else 0)
            && (i < EWRAM_SIZE ==> m.ewram[i] == 0) && (i < VRAM_SIZE ==> m.vram[i] == 0)
            && m.rom == rom && m.openBus == 0
  {
  }
}
