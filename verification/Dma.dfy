/** The DMA controller: four channels that move units between memory addresses when triggered. */
module Dma {
  import opened Words
  import opened Interrupts
  import opened Memory

  const DMA_ENABLE := 0x8000

  /** A channel's fields; addresses are not masked between units. */
  datatype Channel = Channel(
    id: nat, src: int, dst: int, count: nat, control: half, enabled: bool, busy: bool, pending: bool,
    origSrc: int, origDst: int, origCount: nat, latch: word)
  {
    predicate IrqEnabled() { control / 0x4000 % 2 == 1 }
    function Timing(): nat { control / 0x1000 % 4 }
    predicate Wide() { control / 0x400 % 2 == 1 }
    predicate Repeat() { control / 0x200 % 2 == 1 }
    function SrcControl(): nat { control / 0x80 % 4 }
    function DstControl(): nat { control / 0x20 % 4 }
    function Units(): nat {
      if count == 0 then if Wide() then 0x1_0000 else 0x4000 else count
    }
  }

  const VBLANK := 1
  const HBLANK := 2

  /** `_step_for`: increment, decrement, fixed, and reload, which increments meanwhile. */
  function StepFor(ctrl: nat, wide: bool): int {
    var width := if wide then 4 else 2;
    if ctrl == 1 then -width else if ctrl == 2 then 0 else width
  }

  // A channel's registers in the IO area.

  function SrcReg(io: seq<byte>, id: nat): word
    requires id < 4 && |io| == IO_SIZE
  {
    var b := 0xB0 + 12 * id;
    Pack4(io[b], io[b + 1], io[b + 2], io[b + 3])
  }

  function DstReg(io: seq<byte>, id: nat): word
    requires id < 4 && |io| == IO_SIZE
  {
    var b := 0xB0 + 12 * id;
    Pack4(io[b + 4], io[b + 5], io[b + 6], io[b + 7])
  }

  function CountReg(io: seq<byte>, id: nat): half
    requires id < 4 && |io| == IO_SIZE
  {
    var b := 0xB0 + 12 * id;
    Pack2(io[b + 8], io[b + 9])
  }

  function ControlReg(io: seq<byte>, id: nat): half
    requires id < 4 && |io| == IO_SIZE
  {
    var b := 0xB0 + 12 * id;
    Pack2(io[b + 10], io[b + 11])
  }

  /** `read_from_memory`: the addresses and the count are fetched when the channel becomes enabled
      and whenever it is not. */
  function Refresh(ch: Channel, io: seq<byte>): (c: Channel)
    requires ch.id < 4 && |io| == IO_SIZE
    ensures c.id == ch.id && c.busy == ch.busy && c.latch == ch.latch
  {
    var control := ControlReg(io, ch.id);
    var src, dst, count := SrcReg(io, ch.id), DstReg(io, ch.id), CountReg(io, ch.id);
    var c := ch.(control := control, enabled := control >= DMA_ENABLE);
    if !c.enabled then c.(src := src, dst := dst, count := count)
    else if !ch.enabled then
      c.(src := src, dst := dst, count := count, origSrc := src, origDst := dst, origCount := count)
    else c
  }

  // ----- moving units -----

  datatype Moved = Moved(m: MemState, latch: word)

  /** One unit.  Sources below the RAM area leave the latch as it is; a halfword is latched twice
      over, so either half of the latch can be stored. */
  function MoveUnit(m: MemState, latch: word, src: int, dst: int, wide: bool): Moved {
    if wide then
      var fetch := src >= 0x0200_0000;
      var v := if fetch then Read32(m, Low32(src)) else latch;
      var m1 := if fetch then AfterRead32(m, Low32(src)) else m;
      Moved(Write32(m1, Low32(dst), v), v)
    else
      var fetch := src >= 0x0200_0000;
      var l := if fetch then Twice(Read16(m, Low32(src))) else latch;
      var m1 := if fetch then AfterRead16(m, Low32(src)) else m;
      Moved(Write16(m1, Low32(dst), HalfOf(l, dst)), l)
  }

  function Twice(h: half): word { h + 0x1_0000 * h }

  /** `(latch >> (8 * (dst & 2))) & 0xFFFF` */
  function HalfOf(latch: word, dst: int): half {
    if dst / 2 % 2 == 0 then latch % 0x1_0000 else latch / 0x1_0000
  }

  function MoveUnits(m: MemState, latch: word, src: int, dst: int, srcStep: int, dstStep: int, wide: bool, n: nat): Moved
    decreases n
  {
    if n == 0 then Moved(m, latch)
    else
      var u := MoveUnit(m, latch, src, dst, wide);
      MoveUnits(u.m, u.latch, src + srcStep, dst + dstStep, srcStep, dstStep, wide, n - 1)
  }

  /** `_write_control_to_memory` */
  function StoreControl(id: nat, control: half, m: MemState): MemState
    requires id < 4
  {
    var b := 0xB0 + 12 * id;
    m.(io := m.io[b + 10 := control % 0x100][b + 11 := control / 0x100])
  }

  /** `control & ~DMA_ENABLE` */
  function Disarmed(control: half): half {
    control % DMA_ENABLE
  }

  /** Disarming a channel leaves its interrupt enable alone. */
  lemma DisarmedKeepsIrq(control: half)
    ensures Disarmed(control) / 0x4000 % 2 == control / 0x4000 % 2
    ensures Disarmed(control) < DMA_ENABLE
  {
  }

  datatype Transfer = Transfer(ch: Channel, m: MemState, ifReg: nat)

  /** `_do_transfer` for a channel that is not busy. */
  function DoTransfer(ch: Channel, m: MemState, ifReg: nat): (t: Transfer)
    requires ch.id < 4 && !ch.busy
    ensures t.ch.id == ch.id && !t.ch.busy
  {
    var srcStep, dstStep := StepFor(ch.SrcControl(), ch.Wide()), StepFor(ch.DstControl(), ch.Wide());
    var n := ch.Units();
    var u := MoveUnits(m, ch.latch, ch.src, ch.dst, srcStep, dstStep, ch.Wide(), n);
    var c := Settled(ch.(latch := u.latch), ch.src + n * srcStep, ch.dst + n * dstStep, n);
    Transfer(c,
             if ch.Repeat() then u.m else StoreControl(ch.id, c.control, u.m),
             if ch.IrqEnabled() then Raise(ifReg, IRQ_DMA0 + ch.id) else ifReg)
  }

  /** The channel after its `n` units: a repeating channel is armed again, a reloading one has gone
      back, a one-shot channel is off. */
  function Settled(ch: Channel, srcEnd: int, dstEnd: int, n: nat): Channel {
    var c := ch.(src := if ch.Repeat() && ch.SrcControl() == 3 then ch.src else srcEnd,
                 dst := if ch.Repeat() && ch.DstControl() == 3 then ch.dst else dstEnd,
                 pending := false);
    if ch.Repeat() then c.(count := if ch.origCount != 0 then ch.origCount else n)
    else c.(control := Disarmed(ch.control), enabled := false)
  }

  // ----- triggers -----

  datatype DmaState = DmaState(channels: seq<Channel>, m: MemState, ifReg: nat)

  predicate ChannelsOk(chs: seq<Channel>) {
    |chs| == 4 && forall i :: 0 <= i < 4 ==> chs[i].id == i && !chs[i].busy
  }

  /** One turn of the trigger loops: refresh channel `i`, and run it if the trigger is its own. */
  function Trigger(s: DmaState, i: nat, timing: nat): (t: DmaState)
    requires ChannelsOk(s.channels) && i < 4
    ensures ChannelsOk(t.channels)
  {
    var c := Refresh(s.channels[i], s.m.io);
    if c.enabled && c.Timing() == timing then
      var t := DoTransfer(c, s.m, s.ifReg);
      DmaState(s.channels[i := t.ch], t.m, t.ifReg)
    else s.(channels := s.channels[i := c])
  }

  function FireFrom(s: DmaState, i: nat, timing: nat): (t: DmaState)
    requires ChannelsOk(s.channels) && i <= 4
    ensures ChannelsOk(t.channels)
    decreases 4 - i
  {
    if i == 4 then s else FireFrom(Trigger(s, i, timing), i + 1, timing)
  }

  /** `hblank_fire` and `vblank_fire`. */
  function Fire(s: DmaState, timing: nat): (t: DmaState)
    requires ChannelsOk(s.channels)
    ensures ChannelsOk(t.channels)
  {
    FireFrom(s, 0, timing)
  }

  // ----- the controller -----

  class DMAChannel {
    const channelId: nat
    var srcAddr: int
    var dstAddr: int
    var count: nat
    var control: half
    var enabled: bool
    var busy: bool
    var pending: bool
    var origSrc: int
    var origDst: int
    var origCount: nat
    var latch: word

    constructor (channelId: nat)
      ensures State() == Channel(channelId, 0, 0, 0, 0, false, false, false, 0, 0, 0, 0)
    {
      this.channelId := channelId;
      srcAddr, dstAddr, count, control := 0, 0, 0, 0;
      enabled, busy, pending := false, false, false;
      origSrc, origDst, origCount, latch := 0, 0, 0, 0;
    }

    ghost function State(): Channel
      reads this
    {
      Channel(channelId, srcAddr, dstAddr, count, control, enabled, busy, pending, origSrc, origDst, origCount, latch)
    }

    method ReadFromMemory(mem: Memory)
      requires mem.Valid() && channelId < 4
      modifies this
      ensures State() == Refresh(old(State()), mem.io[..])
    {
      hide SrcReg, DstReg, CountReg, ControlReg;
      var io := mem.io[..];
      var newControl := ControlReg(io, channelId);
      var newEnabled := newControl >= DMA_ENABLE;
      if newEnabled && !enabled {
        srcAddr, dstAddr, count := SrcReg(io, channelId), DstReg(io, channelId), CountReg(io, channelId);
        origSrc, origDst, origCount := srcAddr, dstAddr, count;
      } else if !newEnabled {
        srcAddr, dstAddr, count := SrcReg(io, channelId), DstReg(io, channelId), CountReg(io, channelId);
      }
      control := newControl;
      enabled := newEnabled;
    }

    method WriteControlToMemory(mem: Memory)
      requires mem.Valid() && channelId < 4
      modifies mem.io
      ensures mem.State() == StoreControl(channelId, control, old(mem.State()))
    {
      mem.Distinct();
      var b := 0xB0 + 12 * channelId;
      mem.io[b + 10] := control % 0x100;
      mem.io[b + 11] := control / 0x100;
    }
  }

  class DMA {
    const mem: Memory
    const interrupts: InterruptController
    const channels: seq<DMAChannel>

    ghost predicate Valid()
      reads channels
    {
      && mem.Valid() && |channels| == 4
      && (forall i, j :: 0 <= i < j < 4 ==> channels[i] != channels[j])
      && (forall i :: 0 <= i < 4 ==> channels[i].channelId == i && !channels[i].busy)
    }

    ghost function State(): (s: DmaState)
      requires Valid()
      reads channels, interrupts, mem, mem.Arrays
      ensures ChannelsOk(s.channels)
    {
      DmaState([channels[0].State(), channels[1].State(), channels[2].State(), channels[3].State()],
               mem.State(), interrupts.ifReg)
    }

    constructor (mem: Memory, interrupts: InterruptController)
      requires mem.Valid()
      ensures Valid() && this.mem == mem && this.interrupts == interrupts
      ensures forall i :: 0 <= i < 4 ==>
                fresh(channels[i])
                && channels[i].State() == Channel(i, 0, 0, 0, 0, false, false, false, 0, 0, 0, 0)
    {
      this.mem, this.interrupts := mem, interrupts;
      var a := new DMAChannel(0);
      var b := new DMAChannel(1);
      var c := new DMAChannel(2);
      var d := new DMAChannel(3);
      channels := [a, b, c, d];
    }

    /** The transfer loop, unit by unit. */
    method MoveLoop(ch: DMAChannel, src0: int, dst0: int, srcStep: int, dstStep: int, wide: bool, n: nat)
      returns (src: int, dst: int)
      requires mem.Valid()
      modifies ch`latch, mem, mem.Arrays
      ensures src == src0 + n * srcStep && dst == dst0 + n * dstStep
      ensures Moved(mem.State(), ch.latch)
              == MoveUnits(old(mem.State()), old(ch.latch), src0, dst0, srcStep, dstStep, wide, n)
    {
      hide MoveUnit;
      src, dst := src0, dst0;
      for i := 0 to n
        invariant src == src0 + i * srcStep && dst == dst0 + i * dstStep
        invariant MoveUnits(mem.State(), ch.latch, src, dst, srcStep, dstStep, wide, n - i)
                  == MoveUnits(old(mem.State()), old(ch.latch), src0, dst0, srcStep, dstStep, wide, n)
      {
        MoveOne(ch, src, dst, wide);
        assert (i + 1) * srcStep == i * srcStep + srcStep && (i + 1) * dstStep == i * dstStep + dstStep;
        src := src + srcStep;
        dst := dst + dstStep;
      }
    }

    method MoveOne(ch: DMAChannel, src: int, dst: int, wide: bool)
      requires mem.Valid()
      modifies ch`latch, mem, mem.Arrays
      ensures Moved(mem.State(), ch.latch) == MoveUnit(old(mem.State()), old(ch.latch), src, dst, wide)
    {
      hide Read32, Read16, AfterRead32, AfterRead16, Write32, Write16;
      if wide {
        if src >= 0x0200_0000 {
          var v := mem.ReadU32(Low32(src));
          ch.latch := v;
        }
        mem.WriteU32(Low32(dst), ch.latch);
      } else {
        if src >= 0x0200_0000 {
          var v := mem.ReadU16(Low32(src));
          ch.latch := Twice(v);
        }
        var value := if dst / 2 % 2 == 0 then ch.latch % 0x1_0000 else ch.latch / 0x1_0000;
        mem.WriteU16(Low32(dst), value);
      }
    }

    /** The transfer as the channel describes it. */
    method MoveAll(ch: DMAChannel) returns (src: int, dst: int, n: nat)
      requires mem.Valid()
      modifies ch`latch, mem, mem.Arrays
      ensures var c := old(ch.State());
              var srcStep, dstStep := StepFor(c.SrcControl(), c.Wide()), StepFor(c.DstControl(), c.Wide());
              && n == c.Units() && src == c.src + n * srcStep && dst == c.dst + n * dstStep
              && Moved(mem.State(), ch.latch)
                 == MoveUnits(old(mem.State()), c.latch, c.src, c.dst, srcStep, dstStep, c.Wide(), n)
    {
      hide MoveUnits, StepFor, Memory.State, Memory.Valid;
      var srcCtrl, dstCtrl := ch.control / 0x80 % 4, ch.control / 0x20 % 4;
      var wide := ch.control / 0x400 % 2 == 1;
      n := if ch.count == 0 then if wide then 0x1_0000 else 0x4000 else ch.count;
      src, dst := MoveLoop(ch, ch.srcAddr, ch.dstAddr, StepFor(srcCtrl, wide), StepFor(dstCtrl, wide), wide, n);
    }

    /** `_do_transfer` */
    method Run(ch: DMAChannel)
      requires mem.Valid() && ch.channelId < 4 && !ch.busy
      modifies ch, mem, mem.Arrays, interrupts
      ensures DoTransfer(old(ch.State()), old(mem.State()), old(interrupts.ifReg))
              == Transfer(ch.State(), mem.State(), interrupts.ifReg)
    {
      hide MoveUnits, StoreControl, Disarmed, Raise, Settled, StepFor, Memory.State, Memory.Valid;
      ch.busy := true;
      var src, dst, n := MoveAll(ch);
      var repeating, irq := ch.control / 0x200 % 2 == 1, ch.control / 0x4000 % 2 == 1;
      Settle(ch, src, dst, n);
      if !repeating {
        ch.WriteControlToMemory(mem);
      }
      if irq {
        interrupts.Fire(IRQ_DMA0 + ch.channelId);
      }
    }

    /** The channel's own fields after the loop.  Disarming does not touch the interrupt enable
        (see DisarmedKeepsIrq), so it is read beforehand. */
    method Settle(ch: DMAChannel, src: int, dst: int, n: nat)
      modifies ch
      ensures ch.State() == Settled(old(ch.State()).(busy := false), src, dst, n)
    {
      hide Disarmed;
      var srcCtrl, dstCtrl := ch.control / 0x80 % 4, ch.control / 0x20 % 4;
      var repeating := ch.control / 0x200 % 2 == 1;
      if !(repeating && dstCtrl == 3) {
        ch.dstAddr := dst;
      }
      if !(repeating && srcCtrl == 3) {
        ch.srcAddr := src;
      }
      if repeating {
        ch.count := if ch.origCount != 0 then ch.origCount else n;
      } else {
        ch.control := Disarmed(ch.control);
        ch.enabled := false;
      }
      ch.busy := false;
      ch.pending := false;
    }

    /** `hblank_fire` and `vblank_fire`, which differ in the timing they look for. */
    method FireAll(timing: nat)
      requires Valid()
      modifies channels, mem, mem.Arrays, interrupts
      ensures Valid()
      ensures State() == Fire(old(State()), timing)
    {
      hide DoTransfer, Refresh;
      for i := 0 to 4
        invariant Valid()
        invariant FireFrom(State(), i, timing) == Fire(old(State()), timing)
      {
        ghost var before := State();
        TriggerOne(i, timing);
        assert State() == Trigger(before, i, timing);
      }
    }

    method TriggerOne(i: nat, timing: nat)
      requires Valid() && i < 4
      modifies channels[i], mem, mem.Arrays, interrupts
      ensures Valid()
      ensures State() == Trigger(old(State()), i, timing)
    {
      hide DoTransfer, Refresh;
      var ch := channels[i];
      ch.ReadFromMemory(mem);
      if ch.enabled && !ch.busy && ch.control / 0x1000 % 4 == timing {
        Run(ch);
      }
    }
  }
}
