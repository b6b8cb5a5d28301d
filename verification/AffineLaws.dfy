/** The BG2 matrix and reference point: what is stored in the registers, and what the renderer reads. */
module AffineLaws {
  import opened Words
  import opened Memory
  import opened MemoryLaws
  import opened Ppu

  /** `x` is the 16-bit register read as a signed number. */
  predicate IsSigned16(x: int, raw: half) {
    -0x8000 <= x < 0x8000 && (x - raw) % 0x1_0000 == 0
  }

  /** `x` is the low 28 bits of the register read as a signed number. */
  predicate IsSigned28(x: int, raw: word) {
    -0x800_0000 <= x < 0x800_0000 && (x - raw) % 0x1000_0000 == 0
  }

  function HalfOf(ap: seq<byte>, p: nat): half
    requires |ap| == 16 && p < 8
  {
    Pack2(ap[2 * p], ap[2 * p + 1])
  }

  /** Two halfwords make a reference point. */
  function PointOf(ap: seq<byte>, p: nat): word
    requires |ap| == 16 && p < 7
  {
    HalfOf(ap, p) + 0x1_0000 * HalfOf(ap, p + 1)
  }

  /** Each of the six numbers is in its signed range and congruent to its register. */
  lemma AffineSignExtended(ap: seq<byte>, overflow: bool)
    requires |ap| == 16
    ensures var a := ReadAffine(ap, overflow);
            && IsSigned16(a.dx, HalfOf(ap, 0)) && IsSigned16(a.dmx, HalfOf(ap, 1))
            && IsSigned16(a.dy, HalfOf(ap, 2)) && IsSigned16(a.dmy, HalfOf(ap, 3))
            && IsSigned28(a.refx, PointOf(ap, 4)) && IsSigned28(a.refy, PointOf(ap, 6))
            && a.overflow == overflow
  {
    PointIsPack4(ap, 4);
    PointIsPack4(ap, 6);
    Signed28Means(ap[8], ap[9], ap[10], ap[11]);
    Signed28Means(ap[12], ap[13], ap[14], ap[15]);
    SignExtend16(ap[0], ap[1]);
    SignExtend16(ap[2], ap[3]);
    SignExtend16(ap[4], ap[5]);
    SignExtend16(ap[6], ap[7]);
    hide Signed16, Signed28, IsSigned16, IsSigned28, PointOf, Pack2, Pack4;
  }

  lemma Signed28Means(b0: byte, b1: byte, b2: byte, b3: byte)
    ensures IsSigned28(Signed28(b0, b1, b2, b3), Pack4(b0, b1, b2, b3))
  {
    SignExtend28(Pack4(b0, b1, b2, b3));
    hide Pack4, IsSigned28;
  }

  lemma SignExtend28(v: word)
    ensures IsSigned28(if v % 0x1000_0000 >= 0x800_0000 then v % 0x1000_0000 - 0x1000_0000 else v % 0x1000_0000, v)
  {
    var low, high := v % 0x1000_0000, v / 0x1000_0000;
    assert low - v == 0x1000_0000 * (-high);
    assert low - 0x1000_0000 - v == 0x1000_0000 * (-high - 1);
  }

  lemma SignExtend16(b0: byte, b1: byte)
    ensures IsSigned16(Signed16(b0, b1), Pack2(b0, b1))
  {
  }

  lemma PointIsPack4(ap: seq<byte>, p: nat)
    requires |ap| == 16 && p < 7
    ensures PointOf(ap, p) == Pack4(ap[2 * p], ap[2 * p + 1], ap[2 * p + 2], ap[2 * p + 3])
  {
  }

  /** A halfword store sets one register and nothing else. */
  lemma HalfwordStored(m: MemState, p: nat, v: half)
    requires p < 8
    ensures var t := Write16(m, AFFINE_START + 2 * p, v);
            && HalfOf(t.affine, p) == v && (forall q :: 0 <= q < 8 && q != p ==> HalfOf(t.affine, q) == HalfOf(m.affine, q))
            && t == m.(affine := t.affine)
  {
    var a := AFFINE_START + 2 * p;
    MapFixed(a);
    hide MapAddress, Write8;
    assert a % 2 == 0 && (a - AFFINE_START) / 2 == p;
    assert Write16(m, a, v) == HalWrite(m, a, v);
    SplitPack2(v);
  }

  /** The reference point's coordinates, x and y, start at halfwords 4 and 6. */
  predicate IsPoint(p: nat) {
    p == 4 || p == 6
  }

  function Coordinate(a: Affine, p: nat): int
    requires IsPoint(p)
  {
    if p == 4 then a.refx else a.refy
  }

  /** So a coordinate stored as two halfwords is read back, its top four bits dropped. */
  lemma HalvesStored(m: MemState, p: nat, v: word, overflow: bool)
    requires IsPoint(p)
    ensures var a := AFFINE_START + 2 * p;
            var t := Write16(Write16(m, a, v % 0x1_0000), a + 2, v / 0x1_0000);
            IsSigned28(Coordinate(ReadAffine(t.affine, overflow), p), v)
  {
    hide Write16, HalfOf, ReadAffine, IsSigned28;
    var a := AFFINE_START + 2 * p;
    var t := Write16(m, a, v % 0x1_0000);
    HalfwordStored(m, p, v % 0x1_0000);
    HalfwordStored(t, p + 1, v / 0x1_0000);
    AffineSignExtended(Write16(t, a + 2, v / 0x1_0000).affine, overflow);
  }

  lemma LowerHalfStored(m: MemState, p: nat, v: word)
    requires IsPoint(p)
    ensures var t := Write32(m, AFFINE_START + 2 * p, v);
            && HalfOf(t.affine, p) == v % 0x1_0000 && HalfOf(t.affine, p + 1) == HalfOf(m.affine, p + 1)
  {
    MapFixed(AFFINE_START + 2 * p);
    hide MapAddress;
  }

  /** Stored as a word it is read back exactly when the register already held the upper half that
      counts: a word store moves the lower half only. */
  lemma WordStoredRightIff(m: MemState, p: nat, v: word, overflow: bool)
    requires IsPoint(p)
    ensures IsSigned28(Coordinate(ReadAffine(Write32(m, AFFINE_START + 2 * p, v).affine, overflow), p), v)
            <==> HalfOf(m.affine, p + 1) % 0x1000 == v / 0x1_0000 % 0x1000
  {
    hide Write32, HalfOf, ReadAffine, IsSigned16, IsSigned28, PointOf;
    var ap := Write32(m, AFFINE_START + 2 * p, v).affine;
    LowerHalfStored(m, p, v);
    AffineSignExtended(ap, overflow);
    PointHalves(ap, p);
    SameLow28(Coordinate(ReadAffine(ap, overflow), p), PointOf(ap, p), v);
  }

  lemma PointHalves(ap: seq<byte>, p: nat)
    requires |ap| == 16 && p < 7
    ensures PointOf(ap, p) % 0x1_0000 == HalfOf(ap, p) && PointOf(ap, p) / 0x1_0000 == HalfOf(ap, p + 1)
  {
    hide HalfOf;
  }

  lemma SameLow28(x: int, raw: word, v: word)
    requires IsSigned28(x, raw) && raw % 0x1_0000 == v % 0x1_0000
    ensures IsSigned28(x, v) <==> raw / 0x1_0000 % 0x1000 == v / 0x1_0000 % 0x1000
  {
  }
}
