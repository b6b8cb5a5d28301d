/** What the timers count, over whole runs of `step`. */
module TimerLaws {
  import opened Arith
  import opened Words
  import opened Interrupts
  import opened Timers

  function Run(ts: Bank, cs: seq<nat>): Bank
    decreases |cs|
  {
    if cs == [] then ts else Run(StepAll(ts, cs[0]), cs[1..])
  }

  function Sum(cs: seq<nat>): nat {
    if cs == [] then 0 else cs[0] + Sum(cs[1..])
  }

  /** The ticks timer `i` receives over a run in which it counts freely. */
  function Ticks(ts: Bank, i: nat, cs: seq<nat>): nat
    requires i < 4
    decreases |cs|
  {
    if cs == [] then 0
    else Increment(ts[i], i, false, cs[0]) + Ticks(StepAll(ts, cs[0]), i, cs[1..])
  }

  /** No call of the run ticks timer `i` more than `bound` times. */
  predicate Bounded(ts: Bank, i: nat, cs: seq<nat>, bound: nat)
    requires i < 4
    decreases |cs|
  {
    cs == [] || (Increment(ts[i], i, false, cs[0]) <= bound && Bounded(StepAll(ts, cs[0]), i, cs[1..], bound))
  }

  // ----- the prescaler loses nothing -----

  lemma FreeStep(ts: Bank, i: nat, cycles: nat)
    requires i < 4 && ts[i].Free()
    ensures var t, p := StepAll(ts, cycles)[i], ts[i].Prescaler();
            && t.Free() && t.Prescaler() == p && t.sub == (ts[i].sub + cycles) % p < p
            && Increment(ts[i], i, false, cycles) == (ts[i].sub + cycles) / p
  {
    assert StepAll(ts, cycles)[i] == StepTimer(ts[i], i, i > 0 && ts[i - 1].flag, cycles);
  }

  /** However the cycles of a run are split, a free timer receives floor((sub + cycles) / prescaler)
      ticks and keeps the remainder. */
  lemma {:induction false} PrescalerIsExact(ts: Bank, i: nat, cs: seq<nat>)
    requires i < 4 && ts[i].Free() && ts[i].sub < ts[i].Prescaler()
    ensures Ticks(ts, i, cs) == (ts[i].sub + Sum(cs)) / ts[i].Prescaler()
    ensures Run(ts, cs)[i].sub == (ts[i].sub + Sum(cs)) % ts[i].Prescaler()
    decreases |cs|
  {
    hide StepAll, Increment, Timer.Prescaler, Timer.Free;
    var p := ts[i].Prescaler();
    if cs == [] {
      DivUnique(ts[i].sub, p, 0, ts[i].sub);
    } else {
      FreeStep(ts, i, cs[0]);
      PrescalerIsExact(StepAll(ts, cs[0]), i, cs[1..]);
      assert ts[i].sub + Sum(cs) == ts[i].sub + cs[0] + Sum(cs[1..]);
      hide Sum;
      DivModCarry(ts[i].sub + cs[0], Sum(cs[1..]), p);
    }
  }

  /** In terms of the control byte: with bit 7 set and bit 2 clear a timer ticks once every 1, 64, 256 or
      1024 cycles, by bits 0 and 1. */
  lemma TicksByControl(ts: Bank, i: nat, cs: seq<nat>)
    requires i < 4 && ts[i].control / 0x80 % 2 == 1 && ts[i].control / 4 % 2 == 0
    requires ts[i].sub < [1, 64, 256, 1024][ts[i].control % 4]
    ensures Ticks(ts, i, cs) == (ts[i].sub + Sum(cs)) / [1, 64, 256, 1024][ts[i].control % 4]
  {
    assert ts[i].Prescaler() == [1, 64, 256, 1024][ts[i].control % 4];
    PrescalerIsExact(ts, i, cs);
  }

  /** With bit 7 clear it does not count; with bit 2 set it counts its predecessor's overflows, one a call,
      and timer 0 then does not count. */
  lemma OtherControls(t: Timer, i: nat, carry: bool, cycles: nat)
    ensures t.control / 0x80 % 2 == 0 ==> Increment(t, i, carry, cycles) == 0
    ensures t.control / 0x80 % 2 == 1 && t.control / 4 % 2 == 1 ==>
              Increment(t, i, carry, cycles) == if i > 0 && carry then 1 else 0
  {
  }

  /** A step requests the interrupt of each timer that overflowed and has bit 6 set, timer 0's being bit 3,
      and no other. */
  predicate Requested(flags: nat, after: nat, ts: Bank, k: nat) {
    Bit(after, k) <==> Bit(flags, k) || (3 <= k < 7 && ts[k - 3].flag && ts[k - 3].control / 0x40 % 2 == 1)
  }

  lemma OverflowRequests(flags: nat, ts: Bank, k: nat)
    ensures Requested(flags, RaiseOverflows(flags, ts, 4), ts, k)
  {
    hide Bit, Raise;
    var f1 := RaiseOverflows(flags, ts, 1);
    var f2 := RaiseOverflows(flags, ts, 2);
    var f3 := RaiseOverflows(flags, ts, 3);
    assert RaiseOverflows(flags, ts, 0) == flags;
    RaiseBit(flags, 3, k);
    RaiseBit(f1, 4, k);
    RaiseBit(f2, 5, k);
    RaiseBit(f3, 6, k);
  }

  // ----- one timer with a reload value -----

  /** The count a timer with this reload value should show `ticks` ticks later, overflowing as
      often as it takes. */
  function Wound(count: half, reload: half, ticks: nat): half {
    if count + ticks <= 0xFFFF then count + ticks
    else reload + (count + ticks - 0x1_0000) % (0x1_0000 - reload)
  }

  /** The number of overflows on the way. */
  function Overflows(count: half, reload: half, ticks: nat): nat {
    if count + ticks <= 0xFFFF then 0 else 1 + (count + ticks - 0x1_0000) / (0x1_0000 - reload)
  }

  lemma WoundIsCounted(count: half, reload: half, ticks: nat)
    ensures Wound(count, reload, ticks)
            == count + ticks - Overflows(count, reload, ticks) * (0x1_0000 - reload)
  {
    if count + ticks > 0xFFFF {
      var x, p := count + ticks - 0x1_0000, 0x1_0000 - reload;
      assert x == p * (x / p) + x % p;
      assert (1 + x / p) * p == p + p * (x / p);
    }
  }

  /** Within one period a call folds correctly. */
  lemma FoldedIsWound(count: half, reload: half, inc: nat)
    requires inc <= 0x1_0000 - reload
    ensures Folded(count, reload, inc) == Wound(count, reload, inc)
    ensures count + inc > 0xFFFF <==> Overflows(count, reload, inc) == 1
    ensures Overflows(count, reload, inc) <= 1
  {
    if count + inc > 0xFFFF {
      DivUnique(count + inc - 0x1_0000, 0x1_0000 - reload, 0, count + inc - 0x1_0000);
    }
  }

  /** A call folds exactly just when the timer does not overflow in it, or the reloads it leaves out
      add up to whole turns. */
  lemma FoldedExactIff(count: half, reload: half, inc: nat)
    ensures Folded(count, reload, inc) == Wound(count, reload, inc)
            <==> count + inc <= 0xFFFF || LeftOut(count + inc - 0x1_0000, reload) % 0x1_0000 == 0
  {
    if count + inc > 0xFFFF {
      var x := count + inc - 0x1_0000;
      var q, r := Parts(x, reload);
      hide LeftOut;
      FoldedOnce(count, reload, inc, q, r, LeftOut(x, reload));
    }
  }

  /** One reload for each overflow after the first. */
  function LeftOut(x: nat, reload: half): nat {
    x / (0x1_0000 - reload) * reload
  }

  lemma Parts(x: nat, reload: half) returns (q: nat, r: nat)
    ensures r == x % (0x1_0000 - reload) < 0x1_0000 - reload && x == 0x1_0000 * q - LeftOut(x, reload) + r
  {
    var p := 0x1_0000 - reload;
    q, r := x / p, x % p;
    assert x == p * q + r;
    Turned(q, reload);
  }

  lemma Turned(q: nat, reload: half)
    ensures (0x1_0000 - reload) * q == 0x1_0000 * q - q * reload
  {
  }

  lemma FoldedOnce(count: half, reload: half, inc: nat, q: nat, r: nat, lost: nat)
    requires count + inc > 0xFFFF && count + inc - 0x1_0000 == 0x1_0000 * q - lost + r && r < 0x1_0000 - reload
    ensures Folded(count, reload, inc) == reload + r <==> lost % 0x1_0000 == 0
  {
  }

  /** So it is exact for every increment just when the reload value is zero. */
  lemma FoldedExactIffNoReload(count: half, reload: half)
    ensures (forall inc: nat :: Folded(count, reload, inc) == Wound(count, reload, inc)) <==> reload == 0
  {
    var p := 0x1_0000 - reload;
    var inc := 0x1_0000 - count + p;
    DivUnique(p, p, 1, 0);
    assert Folded(count, reload, inc) == 0;
    assert Wound(count, reload, inc) == reload;
  }

  /** Winding in two stages is winding once. */
  lemma WoundTwice(count: half, reload: half, a: nat, b: nat)
    ensures Wound(Wound(count, reload, a), reload, b) == Wound(count, reload, a + b)
    ensures Overflows(count, reload, a) + Overflows(Wound(count, reload, a), reload, b)
            == Overflows(count, reload, a + b)
  {
    if count + a > 0xFFFF {
      var x, p := count + a - 0x1_0000, 0x1_0000 - reload;
      DivModCarry(x, b, p);
      var y := x % p + b;
      if y >= p {
        DivOfSum(1, y - p, p);
      } else {
        DivUnique(y, p, 0, y);
      }
    }
  }

  /** The overflow flags timer `i` raises over a run. */
  function FlagsRaised(ts: Bank, i: nat, cs: seq<nat>): nat
    requires i < 4
    decreases |cs|
  {
    if cs == [] then 0
    else
      var next := StepAll(ts, cs[0]);
      (if next[i].flag then 1 else 0) + FlagsRaised(next, i, cs[1..])
  }

  /** A free timer's count after a run is a function of the ticks alone: its initial count plus
      the ticks, less one period for each overflow flagged. */
  lemma {:induction false} FreeTimerCounts(ts: Bank, i: nat, cs: seq<nat>)
    requires i < 4 && ts[i].Free() && Bounded(ts, i, cs, ts[i].Period())
    ensures Run(ts, cs)[i].count == Wound(ts[i].count, ts[i].reload, Ticks(ts, i, cs))
    ensures FlagsRaised(ts, i, cs) == Overflows(ts[i].count, ts[i].reload, Ticks(ts, i, cs))
    ensures Run(ts, cs)[i].count
            == ts[i].count + Ticks(ts, i, cs) - FlagsRaised(ts, i, cs) * ts[i].Period()
    decreases |cs|
  {
    var t := ts[i];
    if cs != [] {
      var next := StepAll(ts, cs[0]);
      var inc := Increment(t, i, false, cs[0]);
      FoldedIsWound(t.count, t.reload, inc);
      FreeTimerCounts(next, i, cs[1..]);
      WoundTwice(t.count, t.reload, inc, Ticks(next, i, cs[1..]));
    }
    hide Wound, Overflows;
    WoundIsCounted(t.count, t.reload, Ticks(ts, i, cs));
  }

  /** Two ways of splitting the same number of cycles leave a free timer in the same state. */
  lemma SplittingDoesNotMatter(ts: Bank, i: nat, cs: seq<nat>, ds: seq<nat>)
    requires i < 4 && ts[i].Free() && ts[i].sub < ts[i].Prescaler()
    requires Sum(cs) == Sum(ds)
    requires Bounded(ts, i, cs, ts[i].Period()) && Bounded(ts, i, ds, ts[i].Period())
    ensures Run(ts, cs)[i].count == Run(ts, ds)[i].count
    ensures Run(ts, cs)[i].sub == Run(ts, ds)[i].sub
    ensures FlagsRaised(ts, i, cs) == FlagsRaised(ts, i, ds)
  {
    hide Run, Ticks, FlagsRaised, Bounded, Wound, Overflows;
    PrescalerIsExact(ts, i, cs);
    PrescalerIsExact(ts, i, ds);
    FreeTimerCounts(ts, i, cs);
    FreeTimerCounts(ts, i, ds);
  }

  // ----- the cascade -----

  const TWO_64: int := 0x1_0000_0000_0000_0000

  function FlagValue(t: Timer): nat {
    if t.flag then 1 else 0
  }

  /** Timers 1 to 3 cascade, timer 0 counts freely, and every reload value is zero. */
  predicate Cascaded(ts: Bank) {
    && ts[0].Free()
    && (forall i :: 1 <= i < 4 ==> ts[i].Enabled() && ts[i].Cascade())
    && (forall i :: 0 <= i < 4 ==> ts[i].reload == 0)
  }

  /** By the control bytes. */
  lemma CascadedByControl(ts: Bank)
    requires ts[0].control / 0x80 % 2 == 1 && ts[0].control / 4 % 2 == 0
    requires forall i :: 1 <= i < 4 ==> ts[i].control / 0x80 % 2 == 1 && ts[i].control / 4 % 2 == 1
    requires forall i :: 0 <= i < 4 ==> ts[i].reload == 0
    ensures Cascaded(ts)
  {
  }

  /** Four counts and the carries on their way to the next: one number in base 65536. */
  function Counter(ts: Bank): nat {
    ts[0].count
    + 0x1_0000 * (FlagValue(ts[0]) + ts[1].count)
    + 0x1_0000_0000 * (FlagValue(ts[1]) + ts[2].count)
    + 0x1_0000_0000_0000 * (FlagValue(ts[2]) + ts[3].count)
    + TWO_64 * FlagValue(ts[3])
  }

  lemma CascadeStep(ts: Bank, cycles: nat)
    requires Cascaded(ts)
    ensures var inc := Increment(ts[0], 0, false, cycles);
            var q := (ts[0].count + inc) / 0x1_0000;
            Counter(StepAll(ts, cycles))
            == Counter(ts) + inc - TWO_64 * FlagValue(ts[3]) - 0x1_0000 * (q - if q > 0 then 1 else 0)
  {
    var inc := Increment(ts[0], 0, false, cycles);
    var next := StepAll(ts, cycles);
    var raw := ts[0].count + inc;
    assert next[0].count == raw % 0x1_0000;
    assert FlagValue(next[0]) == if raw / 0x1_0000 > 0 then 1 else 0;
    forall i | 1 <= i < 4
      ensures next[i].count + 0x1_0000 * FlagValue(next[i]) == ts[i].count + FlagValue(ts[i - 1])
    {
      assert next[i] == StepTimer(ts[i], i, ts[i - 1].flag, cycles);
    }
    assert next[1].count + 0x1_0000 * FlagValue(next[1]) == ts[1].count + FlagValue(ts[0]);
    assert next[2].count + 0x1_0000 * FlagValue(next[2]) == ts[2].count + FlagValue(ts[1]);
    assert next[3].count + 0x1_0000 * FlagValue(next[3]) == ts[3].count + FlagValue(ts[2]);
  }

  lemma MultipleIff(f: nat, lost: nat)
    requires lost < TWO_64
    ensures (-TWO_64 * f - lost) % TWO_64 == 0 <==> lost == 0
  {
  }

  /** One call advances the counter by exactly its ticks, modulo 2^64, just when timer 0 does not
      overflow twice inside the call. */
  lemma CascadeStepExactIff(ts: Bank, cycles: nat)
    requires Cascaded(ts) && Increment(ts[0], 0, false, cycles) < TWO_64
    ensures var inc := Increment(ts[0], 0, false, cycles);
            (Counter(StepAll(ts, cycles)) - Counter(ts) - inc) % TWO_64 == 0
            <==> ts[0].count + inc < 0x2_0000
  {
    hide Counter, StepAll, Increment, FlagValue, Cascaded;
    var inc := Increment(ts[0], 0, false, cycles);
    var q := (ts[0].count + inc) / 0x1_0000;
    CascadeStep(ts, cycles);
    var lost := 0x1_0000 * (q - if q > 0 then 1 else 0);
    MultipleIff(FlagValue(ts[3]), lost);
  }

  lemma StepKeepsCascade(ts: Bank, cycles: nat)
    requires Cascaded(ts)
    ensures Cascaded(StepAll(ts, cycles))
  {
    var next := StepAll(ts, cycles);
    assert next[0] == StepTimer(ts[0], 0, false, cycles);
    forall i | 1 <= i < 4
      ensures next[i].control == ts[i].control && next[i].reload == ts[i].reload
    {
      assert next[i] == StepTimer(ts[i], i, ts[i - 1].flag, cycles);
    }
  }

  /** The carries that left timer 3 and were dropped. */
  function Dropped(ts: Bank, cs: seq<nat>): nat
    decreases |cs|
  {
    if cs == [] then 0 else FlagValue(ts[3]) + Dropped(StepAll(ts, cs[0]), cs[1..])
  }

  lemma CascadeAccount(ts: Bank, cycles: nat)
    requires Cascaded(ts) && Increment(ts[0], 0, false, cycles) <= 0x1_0000
    ensures Cascaded(StepAll(ts, cycles))
    ensures Counter(StepAll(ts, cycles)) + TWO_64 * FlagValue(ts[3])
            == Counter(ts) + Increment(ts[0], 0, false, cycles)
  {
    StepKeepsCascade(ts, cycles);
    CascadeStep(ts, cycles);
  }

  /** Over a whole run the cascade is a 64-bit counter of timer 0's ticks, its carries delayed:
      nothing is lost but what leaves timer 3. */
  lemma {:induction false} CascadeCounts(ts: Bank, cs: seq<nat>)
    requires Cascaded(ts) && Bounded(ts, 0, cs, 0x1_0000)
    ensures Counter(Run(ts, cs)) + TWO_64 * Dropped(ts, cs) == Counter(ts) + Ticks(ts, 0, cs)
    decreases |cs|
  {
    if cs != [] {
      CascadeAccount(ts, cs[0]);
      hide Counter, StepAll, Cascaded, Increment;
      CascadeCounts(StepAll(ts, cs[0]), cs[1..]);
    }
  }

  /** The same, modulo 2^64. */
  lemma CascadeIsA64BitCounter(ts: Bank, cs: seq<nat>)
    requires Cascaded(ts) && Bounded(ts, 0, cs, 0x1_0000)
    ensures Counter(Run(ts, cs)) % TWO_64 == (Counter(ts) + Ticks(ts, 0, cs)) % TWO_64
  {
    hide Counter, Run, Ticks, Dropped, Cascaded, Bounded;
    CascadeCounts(ts, cs);
    DivOfSum(Dropped(ts, cs), Counter(Run(ts, cs)), TWO_64);
  }
}
