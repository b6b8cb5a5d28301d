/** DMA transfers in every direction: where each unit goes, and where the addresses end up. */
module StrideLaws {
  import opened Words
  import opened Interrupts
  import opened Memory
  import opened MemoryLaws
  import opened Dma
  import opened DmaLaws

  // ----- the control word -----

  predicate IsWide(control: half) { control / 0x400 % 2 == 1 }
  predicate Repeats(control: half) { control / 0x200 % 2 == 1 }

  function UnitSize(control: half): nat {
    if IsWide(control) then 4 else 2
  }

  /** From one unit to the next: up, down, nowhere, or up. */
  function Stride(control: half, field: nat): int {
    match field
    case 0 => UnitSize(control)
    case 1 => 0 - UnitSize(control)
    case 2 => 0
    case _ => UnitSize(control)
  }

  /** By bits 7 and 8 for the source, 5 and 6 for the destination. */
  function SrcStride(control: half): int { Stride(control, control / 0x80 % 4) }
  function DstStride(control: half): int { Stride(control, control / 0x20 % 4) }

  /** A count of zero stands for the most there can be. */
  function Amount(ch: Channel): (n: nat)
    ensures n > 0
  {
    if ch.count > 0 then ch.count else if IsWide(ch.control) then 0x1_0000 else 0x4000
  }

  // ----- a lane of units -----

  /** `n` units from `addr` on, `s` apart, each in RAM inside the canonical interval from `lo` to `hi`; `c`
      is the canonical address of the first. */
  predicate Lane(addr: int, c: int, s: int, wide: bool, n: nat, lo: int, hi: int)
    decreases n
  {
    n == 0
    || (0x0200_0000 <= addr < 0x0800_0000 && MapAddress(addr) == c && UnitOk(c, wide) && lo <= c && c + Bytes(1, wide) <= hi
        && Lane(addr + s, c + s, s, wide, n - 1, lo, hi))
  }

  lemma {:induction false} LaneUp(addr: int, wide: bool, n: nat, lo: int, hi: int)
    requires n > 0 ==> Linear(addr, Bytes(n, wide)) && lo <= MapAddress(addr) && MapAddress(addr) + Bytes(n, wide) <= hi
    ensures n > 0 ==> Lane(addr, MapAddress(addr), Bytes(1, wide), wide, n, lo, hi)
    decreases n
  {
    if n > 0 {
      hide Linear, MapAddress;
      var u := Bytes(1, wide);
      FirstOfLinear(addr, wide, n);
      if n > 1 {
        LinearStep(addr, Bytes(n, wide), u);
        LinearRest(addr, Bytes(n, wide), u);
        LaneUp(addr + u, wide, n - 1, lo, hi);
      }
    }
  }

  lemma FirstOfLinear(addr: int, wide: bool, n: nat)
    requires n > 0 && Linear(addr, Bytes(n, wide))
    ensures 0x0200_0000 <= addr < 0x0800_0000 && UnitOk(MapAddress(addr), wide)
  {
    LinearStep(addr, Bytes(n, wide), 0);
    SpanInside(MapAddress(addr), Bytes(n, wide), MapAddress(addr), Bytes(1, wide));
  }

  /** Downwards, from the top of the range that starts at `low`. */
  lemma {:induction false} LaneDown(low: int, wide: bool, n: nat, lo: int, hi: int)
    requires n > 0 && Linear(low, Bytes(n, wide)) && lo <= MapAddress(low) && MapAddress(low) + Bytes(n, wide) <= hi
    ensures var top := low + Bytes(n - 1, wide);
            0 <= top < TWO_32 && MapAddress(top) == MapAddress(low) + Bytes(n - 1, wide)
            && Lane(top, MapAddress(top), 0 - Bytes(1, wide), wide, n, lo, hi)
    decreases n
  {
    hide Linear, MapAddress;
    var u, top := Bytes(1, wide), low + Bytes(n - 1, wide);
    LinearStep(low, Bytes(n, wide), 0);
    LinearStep(low, Bytes(n, wide), Bytes(n - 1, wide));
    LinearUnit(low, wide, n, n - 1);
    if n > 1 {
      LinearLess(low, Bytes(n, wide), Bytes(n - 1, wide));
      LaneDown(low, wide, n - 1, lo, hi);
    }
  }

  lemma LinearLess(addr: int, n: nat, k: nat)
    requires Linear(addr, n) && 0 < k <= n
    ensures Linear(addr, k)
  {
    SpanInside(MapAddress(addr), n, MapAddress(addr), k);
  }

  lemma LinearUnit(addr: int, wide: bool, n: nat, i: nat)
    requires i < n && Linear(addr, Bytes(n, wide))
    ensures UnitOk(MapAddress(addr) + Bytes(i, wide), wide)
  {
    SpanInside(MapAddress(addr), Bytes(n, wide), MapAddress(addr) + Bytes(i, wide), Bytes(1, wide));
  }

  lemma {:induction false} LaneFixed(addr: int, wide: bool, n: nat, lo: int, hi: int)
    requires Linear(addr, Bytes(1, wide)) && lo <= MapAddress(addr) && MapAddress(addr) + Bytes(1, wide) <= hi
    ensures Lane(addr, MapAddress(addr), 0, wide, n, lo, hi)
    decreases n
  {
    if n > 0 {
      hide Linear, MapAddress;
      FirstOfLinear(addr, wide, 1);
      LaneFixed(addr, wide, n - 1, lo, hi);
    }
  }

  /** All units of a rising lane after the first lie above it, and below it in a falling one. */
  lemma {:induction false} LaneNarrow(addr: int, c: int, s: int, wide: bool, n: nat, lo: int, hi: int, lo': int, hi': int)
    requires Lane(addr, c, s, wide, n, lo, hi)
    requires if s > 0 then s == Bytes(1, wide) && lo' <= c && hi' == hi
             else s == 0 - Bytes(1, wide) && c + Bytes(1, wide) <= hi' && lo' == lo
    ensures Lane(addr, c, s, wide, n, lo', hi')
    decreases n
  {
    hide MapAddress, UnitOk;
    if n > 0 {
      if s > 0 {
        LaneNarrow(addr + s, c + s, s, wide, n - 1, lo, hi, lo', hi');
      } else {
        LaneNarrow(addr + s, c + s, s, wide, n - 1, lo, hi, lo', hi');
      }
    }
  }

  lemma {:induction false} LaneUnit(addr: int, c: int, s: int, wide: bool, n: nat, lo: int, hi: int, i: nat)
    requires Lane(addr, c, s, wide, n, lo, hi) && i < n
    ensures UnitOk(c + i * s, wide) && lo <= c + i * s && c + i * s + Bytes(1, wide) <= hi
    ensures 0x0200_0000 <= addr + i * s < 0x0800_0000 && MapAddress(addr + i * s) == c + i * s
    decreases i
  {
    hide MapAddress, UnitOk;
    if i > 0 {
      LaneUnit(addr + s, c + s, s, wide, n - 1, lo, hi, i - 1);
      NextMultiple(i, s);
    }
  }

  lemma NextMultiple(i: nat, s: int)
    requires i > 0
    ensures s + (i - 1) * s == i * s
  {
  }

  // ----- moving along two lanes -----

  lemma Widened(m: MemState, w: MemState, c: int, n: nat, lo: int, k: nat)
    requires OnlyChanged(m, w, c, n) && lo <= c && c + n <= lo + k
    ensures OnlyChanged(m, w, lo, k)
  {
    hide Cell, IsRam, SameDevices;
  }

  lemma ChangedTwice(m: MemState, v: MemState, w: MemState, c: int, n: nat)
    requires OnlyChanged(m, v, c, n) && OnlyChanged(v, w, c, n)
    ensures OnlyChanged(m, w, c, n)
  {
    hide Cell, IsRam, SameDevices;
    SameDevicesThen(m, v, w);
  }

  lemma Unchanged(m: MemState, c: int, n: nat)
    ensures OnlyChanged(m, m, c, n)
  {
  }

  lemma MoveUnfold(m: MemState, latch: word, src: int, dst: int, s: int, t: int, wide: bool, n: nat)
    requires n > 0
    ensures var u := MoveUnit(m, latch, src, dst, wide);
            MoveUnits(m, latch, src, dst, s, t, wide, n) == MoveUnits(u.m, u.latch, src + s, dst + t, s, t, wide, n - 1)
  {
    hide MoveUnit;
  }

  /** Moving changes nothing outside the destination's interval. */
  lemma {:induction false} MoveStaysInside(m: MemState, latch: word, src: int, dst: int, s: int, t: int, wide: bool, n: nat,
      c: int, d: int, slo: int, shi: int, dlo: int, dhi: int)
    requires Lane(src, c, s, wide, n, slo, shi) && Lane(dst, d, t, wide, n, dlo, dhi) && dlo <= dhi
    ensures OnlyChanged(m, MoveUnits(m, latch, src, dst, s, t, wide, n).m, dlo, dhi - dlo)
    decreases n
  {
    hide MoveUnit, OnlyChanged, UnitOk, CopyUnit, MapAddress, UnitAt;
    if n == 0 {
      Unchanged(m, dlo, dhi - dlo);
    } else {
      MoveUnfold(m, latch, src, dst, s, t, wide, n);
      hide MoveUnits;
      MoveUnitCopies(m, latch, src, dst, wide);
      UnitCopied(m, c, d, d, wide);
      var u := MoveUnit(m, latch, src, dst, wide);
      Widened(m, u.m, d, Bytes(1, wide), dlo, dhi - dlo);
      MoveStaysInside(u.m, u.latch, src + s, dst + t, s, t, wide, n - 1, c + s, d + t, slo, shi, dlo, dhi);
      ChangedTwice(m, u.m, MoveUnits(u.m, u.latch, src + s, dst + t, s, t, wide, n - 1).m, dlo, dhi - dlo);
    }
  }

  /** Clear of each other. */
  predicate Disjoint(slo: int, shi: int, dlo: int, dhi: int) {
    slo <= shi && dlo <= dhi && (shi <= dlo || dhi <= slo)
  }

  /** Unit `i` arrives where the destination has got to by then, and stays if the destination moves on. */
  lemma {:induction false} UnitArrives(m: MemState, latch: word, src: int, dst: int, s: int, t: int, wide: bool, n: nat,
      c: int, d: int, slo: int, shi: int, dlo: int, dhi: int, i: nat)
    requires Lane(src, c, s, wide, n, slo, shi) && Lane(dst, d, t, wide, n, dlo, dhi) && Disjoint(slo, shi, dlo, dhi)
    requires i < n && (t == Bytes(1, wide) || t == 0 - Bytes(1, wide) || (t == 0 && i == n - 1))
    ensures UnitOk(d + i * t, wide) && UnitOk(c + i * s, wide)
    ensures UnitAt(MoveUnits(m, latch, src, dst, s, t, wide, n).m, d + i * t, wide) == UnitAt(m, c + i * s, wide)
    decreases n
  {
    hide MoveUnit, OnlyChanged, UnitOk, CopyUnit, MapAddress, UnitAt;
    LaneUnit(src, c, s, wide, n, slo, shi, i);
    LaneUnit(dst, d, t, wide, n, dlo, dhi, i);
    MoveUnfold(m, latch, src, dst, s, t, wide, n);
    hide MoveUnits;
    MoveUnitCopies(m, latch, src, dst, wide);
    var u := MoveUnit(m, latch, src, dst, wide);
    UnitCopied(m, c, d, d, wide);
    if i == 0 {
      FirstStays(u.m, u.latch, src + s, dst + t, s, t, wide, n, c, d, slo, shi, dlo, dhi);
    } else {
      NextMultiple(i, s);
      NextMultiple(i, t);
      UnitArrives(u.m, u.latch, src + s, dst + t, s, t, wide, n - 1, c + s, d + t, slo, shi, dlo, dhi, i - 1);
      UnitCopied(m, c, d, c + i * s, wide);
    }
  }

  /** The units that follow the first leave it alone. */
  lemma FirstStays(m: MemState, latch: word, src: int, dst: int, s: int, t: int, wide: bool, n: nat,
      c: int, d: int, slo: int, shi: int, dlo: int, dhi: int)
    requires n > 0 && UnitOk(d, wide) && Lane(src, c + s, s, wide, n - 1, slo, shi) && Lane(dst, d + t, t, wide, n - 1, dlo, dhi)
    requires t == Bytes(1, wide) || t == 0 - Bytes(1, wide) || n == 1
    requires dlo <= d && d + Bytes(1, wide) <= dhi
    ensures UnitAt(MoveUnits(m, latch, src, dst, s, t, wide, n - 1).m, d, wide) == UnitAt(m, d, wide)
  {
    hide MoveUnit, OnlyChanged, UnitOk, MapAddress, UnitAt, Lane;
    if n > 1 {
      hide MoveUnits;
      var lo', hi' := if t > 0 then d + t else dlo, if t > 0 then dhi else d;
      if t > 0 {
        LaneNarrow(dst, d + t, t, wide, n - 1, dlo, dhi, lo', hi');
      } else {
        LaneNarrow(dst, d + t, t, wide, n - 1, dlo, dhi, lo', hi');
      }
      LaneNotEmpty(dst, d + t, t, wide, n - 1, lo', hi');
      MoveStaysInside(m, latch, src, dst, s, t, wide, n - 1, c + s, d + t, slo, shi, lo', hi');
      UnitUntouched(m, MoveUnits(m, latch, src, dst, s, t, wide, n - 1).m, lo', hi' - lo', d, wide);
    }
  }

  lemma LaneNotEmpty(addr: int, c: int, s: int, wide: bool, n: nat, lo: int, hi: int)
    requires n > 0 && Lane(addr, c, s, wide, n, lo, hi)
    ensures lo <= hi
  {
    hide MapAddress, UnitOk;
  }

  // ----- whole transfers -----

  /** The lowest address of `n` units that start at `addr`, `s` apart, and the bytes they take. */
  function LowEnd(addr: int, s: int, n: nat): int
    requires n > 0
  {
    if s < 0 then addr + (n - 1) * s else addr
  }

  function Extent(control: half, s: int, n: nat): nat {
    if s == 0 then UnitSize(control) else n * UnitSize(control)
  }

  function SrcLow(ch: Channel): int { LowEnd(ch.src, SrcStride(ch.control), Amount(ch)) }
  function DstLow(ch: Channel): int { LowEnd(ch.dst, DstStride(ch.control), Amount(ch)) }
  function SrcExtent(ch: Channel): nat { Extent(ch.control, SrcStride(ch.control), Amount(ch)) }
  function DstExtent(ch: Channel): nat { Extent(ch.control, DstStride(ch.control), Amount(ch)) }

  /** Source and destination lie in RAM, clear of each other. */
  predicate Clear(ch: Channel) {
    && Linear(SrcLow(ch), SrcExtent(ch)) && Linear(DstLow(ch), DstExtent(ch))
    && (MapAddress(SrcLow(ch)) + SrcExtent(ch) <= MapAddress(DstLow(ch))
        || MapAddress(DstLow(ch)) + DstExtent(ch) <= MapAddress(SrcLow(ch)))
  }

  /** The unit of the channel's width at an address. */
  function At(ch: Channel, m: MemState, addr: int): word {
    var c := MapAddress(Low32(addr));
    if UnitOk(c, IsWide(ch.control)) then UnitAt(m, c, IsWide(ch.control)) else 0
  }

  /** Each unit at the destination is the source's of the same number, or, where the destination stays put,
      the last; no other RAM byte has changed. */
  ghost predicate Delivered(ch: Channel, m: MemState, w: MemState)
    requires Clear(ch)
  {
    && (forall i: nat :: i < Amount(ch) && (DstStride(ch.control) != 0 || i == Amount(ch) - 1) ==> UnitDelivered(ch, m, w, i))
    && forall e :: IsRam(e) && !(MapAddress(DstLow(ch)) <= e < MapAddress(DstLow(ch)) + DstExtent(ch)) ==>
         Cell(w, e) == Cell(m, e)
  }

  predicate UnitDelivered(ch: Channel, m: MemState, w: MemState, i: nat) {
    At(ch, w, ch.dst + i * DstStride(ch.control)) == At(ch, m, ch.src + i * SrcStride(ch.control))
  }

  /** Each address has moved by so many strides, except where a repeating channel reloads it; a repeating
      channel gets its count back, and one that does not repeat is off. */
  predicate Settles(ch: Channel, x: Channel) {
    var n, control := Amount(ch), ch.control;
    && x.src == (if Repeats(control) && control / 0x80 % 4 == 3 then ch.src else ch.src + n * SrcStride(control))
    && x.dst == (if Repeats(control) && control / 0x20 % 4 == 3 then ch.dst else ch.dst + n * DstStride(control))
    && x.id == ch.id && !x.pending && !x.busy && x.origCount == ch.origCount
    && x.origSrc == ch.origSrc && x.origDst == ch.origDst
    && if Repeats(control) then
         x.enabled == ch.enabled && x.control == control && x.count == if ch.origCount > 0 then ch.origCount else n
       else !x.enabled && x.control == control % 0x8000 && x.count == ch.count
  }

  /** The channel is settled, its control bytes are stored if it is off, and its interrupt is requested if
      it asks for that. */
  ghost predicate Finished(ch: Channel, m: MemState, ifReg: nat, t: Transfer)
    requires ch.id < 4
  {
    && Settles(ch, t.ch) && (forall j: nat :: j < 4 ==> ControlStored(ch, m, t.m, j))
    && (forall k: nat :: Requested(ch, ifReg, t.ifReg, k))
  }

  /** The control bytes of channel `j`: those of a channel that is now off are stored. */
  predicate ControlStored(ch: Channel, m: MemState, w: MemState, j: nat)
    requires j < 4
  {
    ControlReg(w.io, j) == if j == ch.id && !Repeats(ch.control) then ch.control % 0x8000 else ControlReg(m.io, j)
  }

  /** Bit 14 asks for the channel's interrupt. */
  predicate Requested(ch: Channel, before: nat, after: nat, k: nat) {
    Bit(after, k) <==> Bit(before, k) || (k == 8 + ch.id && ch.control / 0x4000 % 2 == 1)
  }

  lemma LaneOf(addr: int, control: half, s: int, n: nat)
    requires n > 0 && (s == UnitSize(control) || s == 0 - UnitSize(control) || s == 0)
    requires Linear(LowEnd(addr, s, n), Extent(control, s, n))
    ensures var lo := MapAddress(LowEnd(addr, s, n));
            && 0 <= addr < TWO_32 && 0 <= LowEnd(addr, s, n) < TWO_32
            && Lane(addr, MapAddress(addr), s, IsWide(control), n, lo, lo + Extent(control, s, n))
  {
    hide Linear, MapAddress, Lane;
    var wide, low := IsWide(control), LowEnd(addr, s, n);
    assert UnitSize(control) == Bytes(1, wide) && n * UnitSize(control) == Bytes(n, wide);
    LinearStep(low, Extent(control, s, n), 0);
    if s == 0 {
      LaneFixed(addr, wide, n, MapAddress(low), MapAddress(low) + Extent(control, s, n));
    } else if s > 0 {
      LaneUp(addr, wide, n, MapAddress(low), MapAddress(low) + Extent(control, s, n));
    } else {
      DownBytes(n, wide, s);
      LaneDown(low, wide, n, MapAddress(low), MapAddress(low) + Extent(control, s, n));
    }
  }

  lemma DownBytes(n: nat, wide: bool, s: int)
    requires n > 0 && s == 0 - Bytes(1, wide)
    ensures (n - 1) * s == 0 - Bytes(n - 1, wide)
  {
  }

  lemma StrideKinds(control: half, field: nat)
    ensures var s := Stride(control, field); s == UnitSize(control) || s == 0 - UnitSize(control) || s == 0
  {
  }

  /** The lanes of a transfer, and their intervals. */
  lemma LanesOf(ch: Channel)
    requires Clear(ch)
    ensures 0 <= ch.src < TWO_32 && 0 <= ch.dst < TWO_32 && 0 <= SrcLow(ch) < TWO_32 && 0 <= DstLow(ch) < TWO_32
    ensures var slo, dlo, wide := MapAddress(SrcLow(ch)), MapAddress(DstLow(ch)), IsWide(ch.control);
            && Lane(ch.src, MapAddress(ch.src), SrcStride(ch.control), wide, Amount(ch), slo, slo + SrcExtent(ch))
            && Lane(ch.dst, MapAddress(ch.dst), DstStride(ch.control), wide, Amount(ch), dlo, dlo + DstExtent(ch))
            && Disjoint(slo, slo + SrcExtent(ch), dlo, dlo + DstExtent(ch))
  {
    hide Lane, Linear, MapAddress, LowEnd, Extent, Stride, UnitSize;
    StrideKinds(ch.control, ch.control / 0x80 % 4);
    StrideKinds(ch.control, ch.control / 0x20 % 4);
    LaneOf(ch.src, ch.control, SrcStride(ch.control), Amount(ch));
    LaneOf(ch.dst, ch.control, DstStride(ch.control), Amount(ch));
  }

  /** What the loop of a transfer leaves, before the channel is settled. */
  function Loop(ch: Channel, m: MemState): MemState {
    MoveUnits(m, ch.latch, ch.src, ch.dst, SrcStride(ch.control), DstStride(ch.control), IsWide(ch.control), Amount(ch)).m
  }

  lemma LoopDelivers(ch: Channel, m: MemState, i: nat)
    requires Clear(ch) && i < Amount(ch) && (DstStride(ch.control) != 0 || i == Amount(ch) - 1)
    ensures UnitDelivered(ch, m, Loop(ch, m), i)
  {
    hide Lane, MapAddress, Clear, Stride, UnitSize, Amount, MoveUnits, UnitAt, UnitOk, LowEnd, Extent;
    LanesOf(ch);
    var slo, dlo, wide, n := MapAddress(SrcLow(ch)), MapAddress(DstLow(ch)), IsWide(ch.control), Amount(ch);
    var s, t := SrcStride(ch.control), DstStride(ch.control);
    StrideKinds(ch.control, ch.control / 0x20 % 4);
    SizeIsBytes(ch.control);
    UnitOfLane(ch, m, ch.src, s, n, slo, slo + SrcExtent(ch), i);
    UnitOfLane(ch, Loop(ch, m), ch.dst, t, n, dlo, dlo + DstExtent(ch), i);
    hide At;
    UnitArrives(m, ch.latch, ch.src, ch.dst, s, t, wide, n, MapAddress(ch.src), MapAddress(ch.dst),
                slo, slo + SrcExtent(ch), dlo, dlo + DstExtent(ch), i);
  }

  lemma UnitOfLane(ch: Channel, m: MemState, addr: word, s: int, n: nat, lo: int, hi: int, i: nat)
    requires Lane(addr, MapAddress(addr), s, IsWide(ch.control), n, lo, hi) && i < n
    ensures UnitOk(MapAddress(addr) + i * s, IsWide(ch.control))
    ensures At(ch, m, addr + i * s) == UnitAt(m, MapAddress(addr) + i * s, IsWide(ch.control))
  {
    hide Lane, MapAddress, UnitAt, UnitOk;
    LaneUnit(addr, MapAddress(addr), s, IsWide(ch.control), n, lo, hi, i);
  }

  lemma SizeIsBytes(control: half)
    ensures UnitSize(control) == Bytes(1, IsWide(control))
  {
  }

  lemma LoopStays(ch: Channel, m: MemState)
    requires Clear(ch)
    ensures OnlyChanged(m, Loop(ch, m), MapAddress(DstLow(ch)), DstExtent(ch))
  {
    hide Lane, MapAddress, Clear, Stride, UnitSize, Amount, MoveUnits, OnlyChanged, LowEnd, Extent;
    LanesOf(ch);
    var slo, dlo, wide, n := MapAddress(SrcLow(ch)), MapAddress(DstLow(ch)), IsWide(ch.control), Amount(ch);
    MoveStaysInside(m, ch.latch, ch.src, ch.dst, SrcStride(ch.control), DstStride(ch.control), wide, n,
                    MapAddress(ch.src), MapAddress(ch.dst), slo, slo + SrcExtent(ch), dlo, dlo + DstExtent(ch));
  }

  /** The pieces of `DoTransfer`. */
  lemma TransferUnfold(ch: Channel, m: MemState, ifReg: nat)
    requires ch.id < 4 && !ch.busy
    ensures var t := DoTransfer(ch, m, ifReg);
            && t.m == (if Repeats(ch.control) then Loop(ch, m) else StoreControl(ch.id, ch.control % 0x8000, Loop(ch, m)))
            && t.ifReg == (if ch.control / 0x4000 % 2 == 1 then Raise(ifReg, 8 + ch.id) else ifReg)
            && Settles(ch, t.ch)
  {
    hide MoveUnits, StoreControl, Raise;
  }

  lemma SameAt(ch: Channel, m: MemState, w: MemState, addr: int)
    requires forall d :: IsRam(d) ==> Cell(w, d) == Cell(m, d)
    ensures At(ch, w, addr) == At(ch, m, addr)
  {
    hide MapAddress;
    var c, wide := MapAddress(Low32(addr)), IsWide(ch.control);
    SameCellsSameUnit(m, w, c, wide, 0);
    if UnitOk(c, wide) {
      UnitZero(m, c, wide);
      UnitZero(w, c, wide);
    }
  }

  /** A transfer between clear ranges, in any of the sixteen pairs of directions and both widths. */
  lemma TransferLaw(ch: Channel, m: MemState, ifReg: nat)
    requires ch.id < 4 && !ch.busy && Clear(ch)
    ensures var t := DoTransfer(ch, m, ifReg); Delivered(ch, m, t.m) && Finished(ch, m, ifReg, t)
  {
    hide DoTransfer, Clear, Delivered, Finished;
    TransferDelivers(ch, m, ifReg);
    TransferFinishes(ch, m, ifReg);
  }

  lemma TransferDelivers(ch: Channel, m: MemState, ifReg: nat)
    requires ch.id < 4 && !ch.busy && Clear(ch)
    ensures Delivered(ch, m, DoTransfer(ch, m, ifReg).m)
  {
    hide DoTransfer, Clear, Loop, OnlyChanged, At, StoreControl, SrcStride, DstStride, Amount, Repeats, IsRam, Cell, MapAddress,
         DstLow, DstExtent, Raise;
    var t, v := DoTransfer(ch, m, ifReg), Loop(ch, m);
    TransferUnfold(ch, m, ifReg);
    DstInRange(ch);
    LoopStays(ch, m);
    CellsStay(m, v, MapAddress(DstLow(ch)), DstExtent(ch));
    forall e | IsRam(e)
      ensures Cell(t.m, e) == Cell(v, e)
    {
      StoreControlKeepsRam(ch.id, ch.control % 0x8000, v, e);
    }
    forall i: nat | i < Amount(ch) && (DstStride(ch.control) != 0 || i == Amount(ch) - 1)
      ensures UnitDelivered(ch, m, t.m, i)
    {
      LoopDelivers(ch, m, i);
      SameAt(ch, v, t.m, ch.dst + i * DstStride(ch.control));
    }
  }

  lemma TransferFinishes(ch: Channel, m: MemState, ifReg: nat)
    requires ch.id < 4 && !ch.busy && Clear(ch)
    ensures Finished(ch, m, ifReg, DoTransfer(ch, m, ifReg))
  {
    hide DoTransfer, Clear, Loop, OnlyChanged, StoreControl, SrcStride, DstStride, Amount, Repeats, DstLow, DstExtent,
         ControlReg, Raise, Cell, IsRam, MapAddress, Bit;
    TransferUnfold(ch, m, ifReg);
    DstInRange(ch);
    LoopStays(ch, m);
    CellsStay(m, Loop(ch, m), MapAddress(DstLow(ch)), DstExtent(ch));
    ControlsStay(ch, m);
    var t := DoTransfer(ch, m, ifReg);
    forall j: nat | j < 4
      ensures ControlStored(ch, m, t.m, j)
    {
    }
    forall k: nat
      ensures Requested(ch, ifReg, t.ifReg, k)
    {
      RaiseBit(ifReg, 8 + ch.id, k);
    }
    hide ControlStored, Requested, Settles;
  }

  lemma DstInRange(ch: Channel)
    requires Clear(ch)
    ensures 0 <= DstLow(ch) < TWO_32
  {
    hide Lane, Clear, Disjoint, SrcLow, DstLow;
    LanesOf(ch);
  }

  lemma CellsStay(m: MemState, w: MemState, c: int, n: nat)
    requires OnlyChanged(m, w, c, n)
    ensures w.io == m.io && forall e :: IsRam(e) && !(c <= e < c + n) ==> Cell(w, e) == Cell(m, e)
  {
  }

  lemma ControlsStay(ch: Channel, m: MemState)
    requires ch.id < 4 && Loop(ch, m).io == m.io
    ensures forall j: nat :: j < 4 ==>
              && ControlReg(Loop(ch, m).io, j) == ControlReg(m.io, j)
              && ControlReg(StoreControl(ch.id, ch.control % 0x8000, Loop(ch, m)).io, j)
                 == if j == ch.id then ch.control % 0x8000 else ControlReg(m.io, j)
  {
    hide Loop, ControlReg, StoreControl;
    forall j: nat | j < 4
      ensures ControlReg(StoreControl(ch.id, ch.control % 0x8000, Loop(ch, m)).io, j)
              == if j == ch.id then ch.control % 0x8000 else ControlReg(m.io, j)
    {
      StoredControl(ch.id, ch.control % 0x8000, Loop(ch, m), j);
    }
  }
}
