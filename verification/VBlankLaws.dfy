/** A VBlank channel under the scanline clock: when it runs, and what it has moved by then. */
module VBlankLaws {
  import opened Arith
  import opened Words
  import opened Memory
  import opened MemoryLaws
  import opened Dma
  import opened DmaLaws
  import opened StrideLaws
  import opened Ppu
  import P = PpuLaws

  // ----- the lines entered -----

  /** How many of `n` calls from line `v` on enter a line of the vertical blank, 160 to 227. */
  function Entries(v: nat, n: nat): nat {
    if n == 0 then 0 else Entries(v, n - 1) + if (v + n) % 228 >= 160 then 1 else 0
  }

  lemma {:induction false} EntriesAdd(v: nat, n: nat, k: nat)
    ensures Entries(v, n + k) == Entries(v, n) + Entries((v + n) % 228, k)
    decreases k
  {
    if k > 0 {
      EntriesAdd(v, n, k - 1);
      DivModCarry(v + n, k, 228);
      assert v + (n + k) == v + n + k;
    }
  }

  /** From a visible line on there is none before line 160 is entered. */
  lemma {:induction false} NoneBefore160(v: nat, n: nat)
    requires v < 160
    ensures n <= 228 - v ==> Entries(v, n) == if v + n < 160 then 0 else if v + n < 228 then v + n - 159 else 68
    ensures Entries(v, n) == 0 <==> v + n < 160
  {
    if n > 0 {
      NoneBefore160(v, n - 1);
    }
  }

  /** Any 228 calls enter all 68 of them. */
  lemma {:induction false} SixtyEight(v: nat)
    requires v < 228
    ensures Entries(v, 228) == 68
    decreases v
  {
    hide Entries;
    if v == 0 {
      NoneBefore160(0, 228);
    } else {
      SixtyEight(v - 1);
      EntriesAdd(v - 1, 1, 228);
      EntriesAdd(v - 1, 228, 1);
    }
  }

  // ----- armed for the vertical blank -----

  /** Channel `c`, as the next trigger finds it, is `ch`: on, with VBlank timing; the others are off. */
  predicate Armed(s: Video, c: nat, ch: Channel) {
    && s.Valid() && c < 4 && Refresh(s.dma.channels[c], s.dma.m.io) == ch && ch.id == c
    && ch.enabled && ch.control >= 0x8000 && ch.control / 0x1000 % 4 == 1
    && ControlReg(s.dma.m.io, c) == ch.control
    && forall j :: 0 <= j < 4 && j != c ==> Quiet(s.dma.m, j)
  }

  predicate AllOff(m: MemState) {
    forall j :: 0 <= j < 4 ==> Quiet(m, j)
  }

  /** No byte of RAM differs. */
  ghost predicate SameRam(m: MemState, w: MemState) {
    forall d :: IsRam(d) ==> Cell(w, d) == Cell(m, d)
  }

  lemma RefreshAgain(ch: Channel, io: seq<byte>)
    requires ch.id < 4 && |io| == IO_SIZE && Refresh(ch, io).enabled
    ensures Refresh(Refresh(ch, io), io) == Refresh(ch, io)
  {
    hide ControlReg, SrcReg, DstReg, CountReg;
  }

  lemma {:induction false} OtherTiming(s: DmaState, i: nat, c: nat, timing: nat)
    requires ChannelsOk(s.channels) && i <= 4 && c < 4
    requires forall j :: 0 <= j < 4 && j != c ==> Quiet(s.m, j)
    requires Refresh(s.channels[c], s.m.io).Timing() != timing
    ensures var t := FireFrom(s, i, timing);
            && t.m == s.m && t.ifReg == s.ifReg
            && t.channels[c] == if i <= c then Refresh(s.channels[c], s.m.io) else s.channels[c]
    decreases 4 - i
  {
    if i < 4 {
      if i == c {
        OtherTrigger(s, c, timing);
        hide Trigger, Refresh;
        AfterTurn(Trigger(s, c, timing), i + 1, c, timing);
      } else {
        QuietTrigger(s, i, timing);
        hide Trigger, Refresh;
        OtherTiming(Trigger(s, i, timing), i + 1, c, timing);
      }
    }
  }

  lemma OtherTrigger(s: DmaState, c: nat, timing: nat)
    requires ChannelsOk(s.channels) && c < 4 && Refresh(s.channels[c], s.m.io).Timing() != timing
    ensures var t := Trigger(s, c, timing);
            t.m == s.m && t.ifReg == s.ifReg && t.channels[c] == Refresh(s.channels[c], s.m.io)
  {
    hide DoTransfer, Refresh;
  }

  /** The channels after the one looked at. */
  lemma AfterTurn(s: DmaState, i: nat, c: nat, timing: nat)
    requires ChannelsOk(s.channels) && c < i <= 4 && forall j :: 0 <= j < 4 && j != c ==> Quiet(s.m, j)
    ensures var t := FireFrom(s, i, timing); t.m == s.m && t.ifReg == s.ifReg && t.channels[c] == s.channels[c]
  {
    hide FireFrom, Quiet;
    QuietFire(s, i, timing);
  }

  /** The status bytes lie below the DMA registers. */
  lemma StatusApart(m: MemState, vcount: nat, ch: Channel)
    requires vcount < SCANLINES && ch.id < 4
    ensures var w := StoreStatus(m, vcount);
            && Refresh(ch, w.io) == Refresh(ch, m.io) && SameRam(m, w)
            && forall j :: 0 <= j < 4 ==> ControlReg(w.io, j) == ControlReg(m.io, j)
  {
    hide Dispstat;
    var w := StoreStatus(m, vcount);
    forall k | 8 <= k < IO_SIZE
      ensures w.io[k] == m.io[k]
    {
    }
  }

  // ----- the parts of a call -----

  lemma LatchArmed(s: Video, c: nat, ch: Channel)
    requires Armed(s, c, ch)
    ensures Armed(Latch(s), c, ch) && Latch(s).vcount == s.vcount && Latch(s).dma == s.dma
  {
    hide Refresh, ControlReg, Quiet, ReadAffine;
  }

  /** The HBlank trigger only brings the channel up to date. */
  lemma HBlankArmed(s: Video, c: nat, ch: Channel)
    requires Armed(s, c, ch)
    ensures Armed(HBlank(s), c, ch) && HBlank(s).vcount == s.vcount && HBlank(s).dma.m == s.dma.m
    ensures HBlank(s).dma.ifReg == s.dma.ifReg
  {
    if s.vcount < SCREEN_HEIGHT {
      OtherTiming(s.dma, 0, c, HBLANK);
      hide FireFrom, Quiet, Channel.Timing, ControlReg;
      RefreshAgain(s.dma.channels[c], s.dma.m.io);
      hide Refresh;
    }
  }

  lemma AdvanceArmed(s: Video, c: nat, ch: Channel)
    requires Armed(s, c, ch)
    ensures var t := Advance(s);
            && Armed(t, c, ch) && t.vcount == (s.vcount + 1) % 228 && (t.vblank <==> t.vcount >= 160)
            && SameRam(s.dma.m, t.dma.m)
  {
    hide Refresh, ControlReg, StoreStatus, SameRam;
    var t := Advance(s);
    StatusApart(s.dma.m, t.vcount, s.dma.channels[c]);
    forall j | 0 <= j < 4 && j != c
      ensures Quiet(t.dma.m, j)
    {
      assert Quiet(s.dma.m, j);
    }
  }

  /** The state before the VBlank trigger, and the one after the call. */
  lemma CallUnfold(s: Video)
    requires s.Valid()
    ensures var v := VBlank(Advance(HBlank(Latch(s))));
            Step(s).dma.m == v.dma.m && Step(s).dma.channels == v.dma.channels && Step(s).vcount == v.vcount
  {
    hide Latch, HBlank, Advance, VBlank, RaiseLine;
  }

  lemma BeforeTrigger(s: Video, c: nat, ch: Channel)
    requires Armed(s, c, ch)
    ensures var a := Advance(HBlank(Latch(s)));
            && Armed(a, c, ch) && a.vcount == (s.vcount + 1) % 228 && (a.vblank <==> a.vcount >= 160)
            && SameRam(s.dma.m, a.dma.m)
  {
    hide Latch, HBlank, Advance, Armed, SameRam;
    assert s.Valid() by { ArmedValid(s, c, ch); }
    LatchArmed(s, c, ch);
    HBlankArmed(Latch(s), c, ch);
    AdvanceArmed(HBlank(Latch(s)), c, ch);
  }

  lemma ArmedValid(s: Video, c: nat, ch: Channel)
    requires Armed(s, c, ch)
    ensures s.Valid() && c < 4 && ch.id == c && !ch.busy && ch.control / 0x1000 % 4 == 1
  {
    hide ControlReg, SrcReg, DstReg, CountReg, Quiet;
  }

  /** A call that enters any other line leaves RAM and the channel alone. */
  lemma IdleCall(s: Video, c: nat, ch: Channel)
    requires Armed(s, c, ch) && (s.vcount + 1) % 228 < 160
    ensures Armed(Step(s), c, ch) && Step(s).vcount == (s.vcount + 1) % 228 && SameRam(s.dma.m, Step(s).dma.m)
  {
    hide Latch, HBlank, Advance, Step, Fire, SameRam;
    ArmedValid(s, c, ch);
    BeforeTrigger(s, c, ch);
    CallUnfold(s);
    var a := Advance(HBlank(Latch(s)));
    assert VBlank(a) == a;
    hide Refresh, ControlReg, Quiet;
  }

  /** A call that enters a line of the vertical blank runs the channel once. */
  lemma TransferCall(s: Video, c: nat, ch: Channel)
    requires Armed(s, c, ch) && (s.vcount + 1) % 228 >= 160 && Clear(ch)
    ensures var t := Step(s);
            && t.Valid() && c < 4 && t.vcount == (s.vcount + 1) % 228
            && Delivered(ch, s.dma.m, t.dma.m) && Settles(ch, t.dma.channels[c])
            && forall j :: 0 <= j < 4 && j != c ==> Quiet(t.dma.m, j)
    ensures ControlReg(Step(s).dma.m.io, c) == if Repeats(ch.control) then ch.control else ch.control % 0x8000
  {
    hide Latch, HBlank, Advance, Step, Fire, SameRam, Clear, Delivered, Settles, Refresh, ControlReg, Armed;
    ArmedValid(s, c, ch);
    BeforeTrigger(s, c, ch);
    CallUnfold(s);
    var a := Advance(HBlank(Latch(s)));
    Triggered(a, c, ch);
    DeliveredFrom(ch, s.dma.m, a.dma.m, Fire(a.dma, VBLANK).m);
  }

  lemma Triggered(a: Video, c: nat, ch: Channel)
    requires Armed(a, c, ch) && Clear(ch)
    ensures var t := Fire(a.dma, VBLANK);
            && Delivered(ch, a.dma.m, t.m) && Settles(ch, t.channels[c])
            && (forall j :: 0 <= j < 4 && j != c ==> Quiet(t.m, j))
            && ControlReg(t.m.io, c) == if Repeats(ch.control) then ch.control else ch.control % 0x8000
  {
    hide DoTransfer, FireFrom, Clear, Delivered, Settles, Refresh, ControlReg;
    ArmedValid(a, c, ch);
    TransferLaw(ch, a.dma.m, a.dma.ifReg);
    var u := DoTransfer(ch, a.dma.m, a.dma.ifReg);
    forall j | 0 <= j < 4
      ensures ControlReg(u.m.io, j)
              == if j == c && !Repeats(ch.control) then ch.control % 0x8000 else ControlReg(a.dma.m.io, j)
    {
      assert ControlStored(ch, a.dma.m, u.m, j);
    }
    forall j | 0 <= j < 4 && j != c
      ensures Quiet(u.m, j)
    {
      assert Quiet(a.dma.m, j);
    }
    LoneFire(a.dma, 0, c, VBLANK);
  }

  /** Units delivered from memories with the same RAM. */
  lemma DeliveredFrom(ch: Channel, m: MemState, a: MemState, w: MemState)
    requires Clear(ch) && SameRam(m, a) && Delivered(ch, a, w)
    ensures Delivered(ch, m, w)
  {
    hide Clear, At, Cell, IsRam, MapAddress, DstLow, DstExtent, Amount, DstStride, SrcStride;
    DstInRange(ch);
    forall i: nat | i < Amount(ch) && (DstStride(ch.control) != 0 || i == Amount(ch) - 1)
      ensures UnitDelivered(ch, m, w, i)
    {
      assert UnitDelivered(ch, a, w, i);
      SameAt(ch, m, a, ch.src + i * SrcStride(ch.control));
    }
  }

  // ----- one-shot channels -----

  /** With every channel off a call leaves RAM and the channels' control bytes alone. */
  lemma OffCall(s: Video)
    requires s.Valid() && AllOff(s.dma.m)
    ensures Step(s).Valid() && AllOff(Step(s).dma.m) && SameRam(s.dma.m, Step(s).dma.m)
    ensures Step(s).vcount == (s.vcount + 1) % 228
  {
    hide Latch, HBlank, Advance, VBlank, Step, SameRam, AllOff, Video.Valid;
    CallUnfold(s);
    LatchOff(s);
    var h := HBlank(Latch(s));
    HBlankOff(Latch(s));
    AdvanceOff(h);
    VBlankOff(Advance(h));
  }

  lemma LatchOff(s: Video)
    requires s.Valid()
    ensures Latch(s).Valid() && Latch(s).dma == s.dma && Latch(s).vcount == s.vcount
  {
    hide ReadAffine;
  }

  lemma HBlankOff(s: Video)
    requires s.Valid() && AllOff(s.dma.m)
    ensures HBlank(s).Valid() && HBlank(s).dma.m == s.dma.m && HBlank(s).vcount == s.vcount
  {
    hide FireFrom, Quiet;
    if s.vcount < SCREEN_HEIGHT {
      QuietFire(s.dma, 0, HBLANK);
    }
  }

  lemma VBlankOff(s: Video)
    requires s.Valid() && AllOff(s.dma.m)
    ensures VBlank(s).Valid() && VBlank(s).dma.m == s.dma.m && VBlank(s).vcount == s.vcount
  {
    hide FireFrom, Quiet;
    if s.vblank {
      QuietFire(s.dma, 0, VBLANK);
    }
  }

  lemma AdvanceOff(s: Video)
    requires s.Valid() && AllOff(s.dma.m)
    ensures var t := Advance(s);
            t.Valid() && AllOff(t.dma.m) && SameRam(s.dma.m, t.dma.m) && t.vcount == (s.vcount + 1) % 228
  {
    hide ControlReg, StoreStatus, SameRam, Refresh;
    var t := Advance(s);
    StatusApart(s.dma.m, t.vcount, s.dma.channels[0]);
    forall j | 0 <= j < 4
      ensures Quiet(t.dma.m, j)
    {
      assert Quiet(s.dma.m, j);
    }
  }

  lemma SameRamThen(m: MemState, v: MemState, w: MemState)
    requires SameRam(m, v) && SameRam(v, w)
    ensures SameRam(m, w)
  {
    hide Cell, IsRam;
  }

  lemma RunNext(s: Video, n: nat)
    requires s.Valid()
    ensures P.Run(s, 0) == s && P.Run(s, n + 1) == Step(P.Run(s, n))
  {
    hide Step;
  }

  /** A one-shot channel runs on the first call that enters a line of the vertical blank, and never again:
      until then RAM and the channel are as they were; from then on RAM holds what the one transfer
      delivered, and the channel is off. */
  lemma {:induction false} OneShotRun(s: Video, c: nat, ch: Channel, n: nat)
    requires Armed(s, c, ch) && !Repeats(ch.control) && Clear(ch)
    ensures s.Valid() && P.Run(s, n).vcount == (s.vcount + n) % 228
    ensures Entries(s.vcount, n) == 0 ==> Armed(P.Run(s, n), c, ch) && SameRam(s.dma.m, P.Run(s, n).dma.m)
    ensures Entries(s.vcount, n) > 0 ==>
              P.Run(s, n).Valid() && AllOff(P.Run(s, n).dma.m) && Delivered(ch, s.dma.m, P.Run(s, n).dma.m)
  {
    hide Armed, Clear, Delivered, Settles, SameRam, AllOff, Step, P.Run;
    ArmedValid(s, c, ch);
    RunNext(s, if n > 0 then n - 1 else 0);
    if n == 0 {
      SameRamSelf(s.dma.m);
      SmallLine(s);
    } else {
      OneShotRun(s, c, ch, n - 1);
      var t := P.Run(s, n - 1);
      NextLine(s.vcount, n - 1);
      if Entries(s.vcount, n - 1) > 0 {
        OffCall(t);
        DeliveredStays(ch, s.dma.m, t.dma.m, Step(t).dma.m);
      } else if (t.vcount + 1) % 228 >= 160 {
        TransferCall(t, c, ch);
        DeliveredFrom(ch, s.dma.m, t.dma.m, Step(t).dma.m);
        OffAfter(t, c, ch);
      } else {
        IdleCall(t, c, ch);
        SameRamThen(s.dma.m, t.dma.m, Step(t).dma.m);
      }
    }
  }

  lemma SmallLine(s: Video)
    requires s.Valid()
    ensures s.vcount % 228 == s.vcount
  {
  }

  lemma SameRamSelf(m: MemState)
    ensures SameRam(m, m)
  {
  }

  lemma NextLine(v: nat, n: nat)
    ensures (v + (n + 1)) % 228 == ((v + n) % 228 + 1) % 228
  {
    DivModCarry(v + n, 1, 228);
  }

  lemma DeliveredStays(ch: Channel, m: MemState, v: MemState, w: MemState)
    requires Clear(ch) && Delivered(ch, m, v) && SameRam(v, w)
    ensures Delivered(ch, m, w)
  {
    hide Clear, At, Cell, IsRam, MapAddress, DstLow, DstExtent, Amount, DstStride, SrcStride;
    DstInRange(ch);
    forall i: nat | i < Amount(ch) && (DstStride(ch.control) != 0 || i == Amount(ch) - 1)
      ensures UnitDelivered(ch, m, w, i)
    {
      assert UnitDelivered(ch, m, v, i);
      SameAt(ch, v, w, ch.dst + i * DstStride(ch.control));
    }
  }

  lemma OffAfter(s: Video, c: nat, ch: Channel)
    requires Armed(s, c, ch) && (s.vcount + 1) % 228 >= 160 && Clear(ch) && !Repeats(ch.control)
    ensures AllOff(Step(s).dma.m)
  {
    hide Armed, Clear, Delivered, Settles, Step, ControlReg;
    ArmedValid(s, c, ch);
    TransferCall(s, c, ch);
    forall j | 0 <= j < 4
      ensures Quiet(Step(s).dma.m, j)
    {
    }
  }

  // ----- repeating channels -----

  /** The count fetched when the channel was switched on is the one it will get back. */
  predicate Latched(ch: Channel) {
    ch.origCount == 0 || ch.origCount == ch.count
  }

  /** The channel after `k` transfers: each address moved by that many times its strides, or reloaded. */
  function After(ch: Channel, k: nat): Channel {
    var n, control := Amount(ch), ch.control;
    ch.(src := if control / 0x80 % 4 == 3 then ch.src else ch.src + k * (n * SrcStride(control)),
        dst := if control / 0x20 % 4 == 3 then ch.dst else ch.dst + k * (n * DstStride(control)))
  }

  /** The same control, addresses and amount. */
  predicate Like(x: Channel, ch: Channel) {
    x.src == ch.src && x.dst == ch.dst && x.control == ch.control && Amount(x) == Amount(ch)
  }

  lemma LikeDelivers(x: Channel, ch: Channel, m: MemState, w: MemState)
    requires Like(x, ch)
    ensures Clear(x) <==> Clear(ch)
    ensures Clear(x) ==> (Delivered(x, m, w) <==> Delivered(ch, m, w))
  {
    LikeExtents(x, ch);
    hide Cell, IsRam, MapAddress, Amount, SrcStride, DstStride, SrcLow, DstLow, SrcExtent, DstExtent, Linear;
    if Clear(x) {
      DstInRange(x);
      forall i: nat
        ensures UnitDelivered(x, m, w, i) <==> UnitDelivered(ch, m, w, i)
      {
        hide UnitOk, UnitAt;
      }
    }
  }

  lemma LikeExtents(x: Channel, ch: Channel)
    requires Like(x, ch)
    ensures SrcLow(x) == SrcLow(ch) && DstLow(x) == DstLow(ch) && SrcExtent(x) == SrcExtent(ch) && DstExtent(x) == DstExtent(ch)
  {
    hide Amount, SrcStride, DstStride, LowEnd, Extent;
  }

  /** All transfers of `n` calls are between clear ranges. */
  ghost predicate AllClear(s: Video, ch: Channel, n: nat) {
    forall k: nat :: k < Entries(s.vcount, n) ==> Clear(After(ch, k))
  }

  lemma {:induction false} EntriesGrow(v: nat, n: nat)
    ensures Entries(v, n) <= Entries(v, n + 1)
  {
  }

  lemma AfterNext(ch: Channel, x: Channel, y: Channel, k: nat)
    requires Latched(x) && Like(x, After(ch, k)) && Repeats(ch.control) && Settles(x, y)
    ensures Latched(y) && Like(y, After(ch, k + 1))
  {
    var n, s, t := Amount(ch), SrcStride(ch.control), DstStride(ch.control);
    OneMore(k, n * s);
    OneMore(k, n * t);
    hide SrcStride, DstStride;
  }

  lemma OneMore(k: nat, d: int)
    ensures (k + 1) * d == k * d + d
  {
  }

  lemma SettledArmed(s: Video, c: nat, ch: Channel)
    requires Armed(s, c, ch) && (s.vcount + 1) % 228 >= 160 && Clear(ch) && Repeats(ch.control)
    ensures Step(s).Valid() && Armed(Step(s), c, Step(s).dma.channels[c])
  {
    hide Armed, Clear, Delivered, Step, ControlReg;
    ArmedValid(s, c, ch);
    ArmedOn(s, c, ch);
    TransferCall(s, c, ch);
    var x := Step(s).dma.channels[c];
    StillOn(x, Step(s).dma.m.io);
    ArmedAgain(Step(s), c, x);
  }

  lemma ArmedOn(s: Video, c: nat, ch: Channel)
    requires Armed(s, c, ch)
    ensures ch.enabled && ch.control >= 0x8000
  {
    hide ControlReg, Refresh, Quiet;
  }

  lemma StillOn(x: Channel, io: seq<byte>)
    requires x.id < 4 && |io| == IO_SIZE && x.enabled && x.control >= 0x8000 && ControlReg(io, x.id) == x.control
    ensures Refresh(x, io) == x
  {
    hide ControlReg, SrcReg, DstReg, CountReg;
  }

  lemma ArmedAgain(s: Video, c: nat, x: Channel)
    requires s.Valid() && c < 4 && x == s.dma.channels[c] && Refresh(x, s.dma.m.io) == x && x.id == c
    requires x.enabled && x.control >= 0x8000 && x.control / 0x1000 % 4 == 1 && ControlReg(s.dma.m.io, c) == x.control
    requires forall j :: 0 <= j < 4 && j != c ==> Quiet(s.dma.m, j)
    ensures Armed(s, c, x)
  {
    hide ControlReg, Refresh, Quiet;
  }

  /** A repeating channel has run once for each line of the vertical blank entered, and nothing else moves
      its addresses. */
  lemma {:induction false} RepeatingRun(s: Video, c: nat, ch: Channel, n: nat) returns (x: Channel)
    requires Armed(s, c, ch) && Repeats(ch.control) && Latched(ch) && AllClear(s, ch, n)
    ensures s.Valid() && P.Run(s, n).vcount == (s.vcount + n) % 228
    ensures Armed(P.Run(s, n), c, x) && Latched(x) && Like(x, After(ch, Entries(s.vcount, n)))
  {
    hide Armed, Clear, Delivered, Settles, SameRam, Step, P.Run, After, Like, Latched, Repeats;
    ArmedValid(s, c, ch);
    RunNext(s, if n > 0 then n - 1 else 0);
    if n == 0 {
      SmallLine(s);
      AfterNone(ch);
      x := ch;
    } else {
      EntriesGrow(s.vcount, n - 1);
      x := RepeatingRun(s, c, ch, n - 1);
      var t, k := P.Run(s, n - 1), Entries(s.vcount, n - 1);
      NextLine(s.vcount, n - 1);
      SameControl(x, ch, k);
      if (t.vcount + 1) % 228 >= 160 {
        LikeDelivers(x, After(ch, k), t.dma.m, t.dma.m);
        TransferCall(t, c, x);
        SettledArmed(t, c, x);
        var y := Step(t).dma.channels[c];
        AfterNext(ch, x, y, k);
        x := y;
      } else {
        IdleCall(t, c, x);
      }
    }
  }

  lemma AfterNone(ch: Channel)
    ensures Like(ch, After(ch, 0))
  {
    hide SrcStride, DstStride, Amount;
  }

  lemma SameControl(x: Channel, ch: Channel, k: nat)
    requires Like(x, After(ch, k))
    ensures Repeats(x.control) <==> Repeats(ch.control)
  {
    hide SrcStride, DstStride, Amount;
  }

  /** And on each call: one that enters a line of the vertical blank delivers the next transfer, from and to
      where the addresses have got; any other leaves RAM alone. */
  lemma RepeatingCall(s: Video, c: nat, ch: Channel, n: nat)
    requires Armed(s, c, ch) && Repeats(ch.control) && Latched(ch) && AllClear(s, ch, n + 1)
    ensures s.Valid()
    ensures if (s.vcount + n + 1) % 228 >= 160 then
              var k := Entries(s.vcount, n);
              Clear(After(ch, k)) && Delivered(After(ch, k), P.Run(s, n).dma.m, P.Run(s, n + 1).dma.m)
            else SameRam(P.Run(s, n).dma.m, P.Run(s, n + 1).dma.m)
  {
    hide Armed, Clear, Delivered, Settles, SameRam, Step, P.Run, After, Like, Latched, Repeats;
    ArmedValid(s, c, ch);
    EntriesGrow(s.vcount, n);
    var x := RepeatingRun(s, c, ch, n);
    RunNext(s, n);
    NextLine(s.vcount, n);
    var t, k := P.Run(s, n), Entries(s.vcount, n);
    if (s.vcount + n + 1) % 228 >= 160 {
      assert Entries(s.vcount, n + 1) == k + 1;
      LikeDelivers(x, After(ch, k), t.dma.m, Step(t).dma.m);
      TransferCall(t, c, x);
    } else {
      IdleCall(t, c, x);
    }
  }

  /** In any 228 consecutive calls a channel that does not reload runs 68 times: its source has moved by 68
      times its amount. */
  lemma TurnOfVBlank(s: Video, c: nat, ch: Channel, n: nat)
    requires Armed(s, c, ch) && Repeats(ch.control) && Latched(ch) && AllClear(s, ch, n + 228)
    ensures Entries(s.vcount, n + 228) == Entries(s.vcount, n) + 68
    ensures var d := 68 * (Amount(ch) * SrcStride(ch.control));
            ch.control / 0x80 % 4 != 3 ==> After(ch, Entries(s.vcount, n + 228)).src == After(ch, Entries(s.vcount, n)).src + d
  {
    hide Armed, Clear, Repeats, Latched, Entries, Amount, SrcStride, DstStride;
    EntriesAdd(s.vcount, n, 228);
    SixtyEight((s.vcount + n) % 228);
    Distribute(Entries(s.vcount, n), Amount(ch) * SrcStride(ch.control));
  }

  lemma Distribute(k: nat, d: int)
    ensures (k + 68) * d == k * d + 68 * d
  {
  }
}
