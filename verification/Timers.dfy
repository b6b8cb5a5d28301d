/** The four timers: prescalers, reload on overflow, and cascading through pending flags. */
module Timers {
  import opened Words
  import opened Interrupts

  class TimerChannel {
    var count: half
    var reload: half
    var control: byte

    constructor ()
      ensures count == 0 && reload == 0 && control == 0
    {
      count, reload, control := 0, 0, 0;
    }
  }

  /** One timer's registers, its prescaler remainder and its overflow flag. */
  datatype Timer = Timer(count: half, reload: half, control: byte, sub: nat, flag: bool) {
    predicate Enabled() { control / 0x80 % 2 == 1 }
    predicate IrqEnable() { control / 0x40 % 2 == 1 }
    predicate Cascade() { control / 0x04 % 2 == 1 }
    function Prescaler(): (p: nat)
      ensures p > 0
    {
      match control % 4 case 0 => 1 case 1 => 64 case 2 => 256 case _ => 1024
    }
    /** Counts up by itself, from the system clock. */
    predicate Free() { Enabled() && !Cascade() }
    /** The distance from the reload value to an overflow. */
    function Period(): (p: nat)
      ensures 1 <= p <= 0x1_0000
    {
      0x1_0000 - reload
    }
  }

  // ----- what one call of `step` does -----

  function Increment(t: Timer, index: nat, carry: bool, cycles: nat): nat {
    if !t.Enabled() then 0
    else if t.Cascade() then if index > 0 && carry then 1 else 0
    else (t.sub + cycles) / t.Prescaler()
  }

  /** The count after `inc` ticks as the code computes it: one overflow is folded, no more. */
  function Folded(count: half, reload: half, inc: nat): half {
    if count + inc > 0xFFFF then (count + inc - 0x1_0000 + reload) % 0x1_0000 else count + inc
  }

  lemma NoTicks(count: half, reload: half)
    ensures Folded(count, reload, 0) == count
  {
  }

  function StepTimer(t: Timer, index: nat, carry: bool, cycles: nat): Timer {
    var inc := Increment(t, index, carry, cycles);
    Timer(Folded(t.count, t.reload, inc), t.reload, t.control,
          if t.Free() then (t.sub + cycles) % t.Prescaler() else t.sub,
          t.count + inc > 0xFFFF)
  }

  lemma StepIgnoresOwnFlag(t: Timer, index: nat, carry: bool, cycles: nat)
    ensures StepTimer(t.(flag := false), index, carry, cycles) == StepTimer(t, index, carry, cycles)
  {
  }

  type Bank = ts: seq<Timer> | |ts| == 4 witness seq(4, _ => Timer(0, 0, 0, 0, false))

  /** All four timers advance at once: a cascade sees the flag left by the previous call. */
  function StepAll(ts: Bank, cycles: nat): Bank {
    seq(4, i requires 0 <= i < 4 => StepTimer(ts[i], i, i > 0 && ts[i - 1].flag, cycles))
  }

  /** The IF register after the first `k` timers of a finished step have reported. */
  function RaiseOverflows(flags: nat, ts: Bank, k: nat): nat
    requires k <= 4
  {
    if k == 0 then flags
    else
      var f := RaiseOverflows(flags, ts, k - 1);
      if ts[k - 1].flag && ts[k - 1].IrqEnable() then Raise(f, IRQ_TIMER0 + (k - 1)) else f
  }

  class Timers {
    const channels: seq<TimerChannel>
    var overflowFlags: seq<bool>
    var cycleSubcount: seq<nat>
    const interrupts: InterruptController?

    ghost predicate Valid()
      reads this
    {
      && |channels| == |overflowFlags| == |cycleSubcount| == 4
      && forall i, j :: 0 <= i < j < 4 ==> channels[i] != channels[j]
    }

    ghost function TimerAt(i: nat): Timer
      requires Valid() && i < 4
      reads this, channels
    {
      Timer(channels[i].count, channels[i].reload, channels[i].control, cycleSubcount[i], overflowFlags[i])
    }

    ghost function State(): (ts: Bank)
      requires Valid()
      reads this, channels
    {
      [TimerAt(0), TimerAt(1), TimerAt(2), TimerAt(3)]
    }

    constructor (interrupts: InterruptController?)
      ensures Valid() && this.interrupts == interrupts
      ensures forall i :: 0 <= i < 4 ==> TimerAt(i) == Timer(0, 0, 0, 0, false)
    {
      var a := new TimerChannel();
      var b := new TimerChannel();
      var c := new TimerChannel();
      var d := new TimerChannel();
      channels := [a, b, c, d];
      overflowFlags := [false, false, false, false];
      cycleSubcount := [0, 0, 0, 0];
      this.interrupts := interrupts;
    }

    /** The ticks timer `i` gets from the cycles, the remainder kept for the next call. */
    method Prescale(i: nat, cycles: nat) returns (increment: nat)
      requires Valid() && i < 4
      modifies this`cycleSubcount
      ensures Valid()
      ensures var t, p := old(TimerAt(i)), old(TimerAt(i)).Prescaler();
              increment == (t.sub + cycles) / p && TimerAt(i) == t.(sub := (t.sub + cycles) % p)
      ensures forall k :: 0 <= k < 4 && k != i ==> TimerAt(k) == old(TimerAt(k))
    {
      var prescaler := [1, 64, 256, 1024][channels[i].control % 4];
      var total := cycleSubcount[i] + cycles;
      increment := total / prescaler;
      cycleSubcount := cycleSubcount[i := total % prescaler];
    }

    /** `increment` ticks of timer `i`, with its overflow. */
    method Advance(i: nat, increment: nat)
      requires Valid() && i < 4 && !overflowFlags[i]
      modifies this`overflowFlags, channels[i], interrupts
      ensures Valid()
      ensures var t := old(TimerAt(i));
              TimerAt(i) == t.(count := Folded(t.count, t.reload, increment), flag := t.count + increment > 0xFFFF)
      ensures forall k :: 0 <= k < 4 && k != i ==> TimerAt(k) == old(TimerAt(k))
      ensures interrupts != null ==>
                interrupts.ifReg == if TimerAt(i).flag && TimerAt(i).IrqEnable()
                                    then Raise(old(interrupts.ifReg), IRQ_TIMER0 + i) else old(interrupts.ifReg)
    {
      hide Raise;
      var channel := channels[i];
      if increment > 0 {
        var newCount := channel.count + increment;
        if newCount > 0xFFFF {
          overflowFlags := overflowFlags[i := true];
          newCount := newCount - 0x1_0000 + channel.reload;
          if channel.control / 0x40 % 2 == 1 && interrupts != null {
            interrupts.Fire(IRQ_TIMER0 + i);
          }
        }
        channel.count := newCount % 0x1_0000;
      }
    }

    /** The body of `step`'s loop: timer `i` advances, seeing the flag its predecessor had. */
    method StepChannel(i: nat, carry: bool, cycles: nat)
      requires Valid() && i < 4 && !overflowFlags[i]
      modifies this, channels[i], interrupts
      ensures Valid()
      ensures TimerAt(i) == StepTimer(old(TimerAt(i)), i, carry, cycles)
      ensures forall k :: 0 <= k < 4 && k != i ==> TimerAt(k) == old(TimerAt(k))
      ensures interrupts != null ==>
                interrupts.ifReg == if TimerAt(i).flag && TimerAt(i).IrqEnable()
                                    then Raise(old(interrupts.ifReg), IRQ_TIMER0 + i) else old(interrupts.ifReg)
    {
      hide Raise, Folded, Timer.Prescaler;
      var channel := channels[i];
      NoTicks(channel.count, channel.reload);
      var increment := 0;
      if channel.control / 0x80 % 2 != 1 {
        return;
      }
      if channel.control / 0x04 % 2 == 1 {
        if i == 0 || !carry {
          return;
        }
        increment := 1;
      } else {
        increment := Prescale(i, cycles);
      }
      Advance(i, increment);
    }

    method Step(cycles: nat)
      requires Valid()
      modifies this, channels, interrupts
      ensures Valid()
      ensures State() == StepAll(old(State()), cycles)
      ensures interrupts != null ==>
                interrupts.ifReg == RaiseOverflows(old(interrupts.ifReg), State(), 4)
    {
      hide StepTimer, Increment, Folded;
      ghost var before: Bank := State();
      ghost var after: Bank := StepAll(before, cycles);
      var cascadeFlags := overflowFlags;
      overflowFlags := [false, false, false, false];
      for i := 0 to 4
        invariant Valid()
        invariant forall k :: 0 <= k < i ==> TimerAt(k) == after[k]
        invariant forall k :: i <= k < 4 ==> TimerAt(k) == before[k].(flag := false)
        invariant interrupts != null ==>
                    interrupts.ifReg == RaiseOverflows(old(interrupts.ifReg), after, i)
      {
        assert TimerAt(i) == before[i].(flag := false);
        StepIgnoresOwnFlag(before[i], i, i > 0 && cascadeFlags[i - 1], cycles);
        StepChannel(i, i > 0 && cascadeFlags[i - 1], cycles);
      }
      assert State() == after;
    }
  }
}
