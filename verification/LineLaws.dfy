/** The status bytes and the interrupts of a new scanline, bit by bit. */
module LineLaws {
  import opened Words
  import opened Arith
  import opened Interrupts
  import opened Memory
  import opened Dma
  import opened DmaLaws
  import opened Ppu
  import opened VBlankLaws

  /** DISPSTAT: bit 0 during the vertical blank, bit 1 always, bit 2 on the line in the high byte, and the
      bits above as they were. */
  lemma DispstatBits(d: half, vcount: nat)
    requires vcount < 228
    ensures var w := Dispstat(d, vcount);
            && (w % 2 == 1 <==> vcount >= 160) && w / 2 % 2 == 1 && (w / 4 % 2 == 1 <==> vcount == d / 0x100)
            && w / 8 == d / 8
  {
    var low := (if vcount == d / 0x100 then 4 else 0) + 2 + if vcount >= 160 then 1 else 0;
    var w := Dispstat(d, vcount);
    assert w == 8 * (d / 8) + low;
    DivUnique(w, 8, d / 8, low);
    DivUnique(w, 4, 2 * (d / 8) + low / 4, low % 4);
    DivUnique(w, 2, 4 * (d / 8) + low / 2, low % 2);
    DivUnique(2 * (d / 8) + low / 4, 2, d / 8, low / 4);
    DivUnique(4 * (d / 8) + low / 2, 2, 2 * (d / 8) + low / 4, low / 2 % 2);
  }

  /** The four bytes at 0x04000004: DISPSTAT, VCOUNT and a zero; no other byte changes. */
  lemma StatusBytes(m: MemState, vcount: nat)
    requires vcount < 228
    ensures var w, d := StoreStatus(m, vcount), Pack2(m.io[4], m.io[5]);
            && w == m.(io := w.io) && Pack2(w.io[4], w.io[5]) == Dispstat(d, vcount)
            && w.io[6] == vcount && w.io[7] == 0
            && forall k :: 0 <= k < IO_SIZE && !(4 <= k < 8) ==> w.io[k] == m.io[k]
  {
    hide Dispstat;
  }

  /** A new line requests VBlank on entry to line 160, if bit 3 of DISPSTAT asks for it; HBlank, if bit 4
      does; and VCount, if bit 5 does and the line matches. */
  predicate LineRequested(flags: nat, after: nat, d: half, vcount: nat, k: nat) {
    Bit(after, k) <==>
      || Bit(flags, k)
      || (k == 0 && vcount == 160 && d / 8 % 2 == 1)
      || (k == 1 && d / 0x10 % 2 == 1)
      || (k == 2 && d / 4 % 2 == 1 && d / 0x20 % 2 == 1)
  }

  lemma LineRequests(flags: nat, d: half, vcount: nat, k: nat)
    ensures LineRequested(flags, RaiseLine(flags, d, vcount), d, vcount, k)
  {
    hide Bit, Raise;
    var f1 := if vcount == 160 && d / 8 % 2 == 1 then Raise(flags, 0) else flags;
    var f2 := if d / 0x10 % 2 == 1 then Raise(f1, 1) else f1;
    RaiseBit(flags, 0, k);
    RaiseBit(f1, 1, k);
    RaiseBit(f2, 2, k);
  }

  /** A whole call, with every channel off: the status bytes are those of the line entered, and so are the
      interrupts requested. */
  lemma CallStatus(s: Video, k: nat)
    requires s.Valid() && AllOff(s.dma.m)
    ensures var t, line := Step(s), (s.vcount + 1) % 228;
            var d := Dispstat(Pack2(s.dma.m.io[4], s.dma.m.io[5]), line);
            && t.dma.m.io[6] == line && t.dma.m.io[7] == 0 && Pack2(t.dma.m.io[4], t.dma.m.io[5]) == d
            && LineRequested(s.dma.ifReg, t.dma.ifReg, d, line, k)
  {
    hide Dispstat, RaiseLine, Latch, HBlank, VBlank, StoreStatus, AllOff, LineRequested;
    var h := HBlank(Latch(s));
    LatchOff(s);
    HBlankOff(Latch(s));
    AdvanceOff(h);
    var a := Advance(h);
    VBlankOff(a);
    StatusBytes(s.dma.m, (s.vcount + 1) % 228);
    SameFlags(s);
    LineRequests(VBlank(a).dma.ifReg, Pack2(a.dma.m.io[4], a.dma.m.io[5]), a.vcount, k);
  }

  lemma SameFlags(s: Video)
    requires s.Valid() && AllOff(s.dma.m)
    ensures Latch(s).Valid() && HBlank(Latch(s)).Valid()
    ensures VBlank(Advance(HBlank(Latch(s)))).dma.ifReg == s.dma.ifReg
  {
    LatchOff(s);
    HBlankOff(Latch(s));
    AdvanceOff(HBlank(Latch(s)));
    hide FireFrom, Quiet, StoreStatus, ReadAffine;
    QuietFire(s.dma, 0, HBLANK);
    var a := Advance(HBlank(Latch(s)));
    QuietFire(a.dma, 0, VBLANK);
  }
}
