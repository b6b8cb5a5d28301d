/** Multi-word arithmetic by executed instructions. */
module ChainLaws {
  import opened Words
  import opened Alu
  import opened AluLaws
  import opened Processor

  /** An instruction about to be executed. */
  datatype Step = Step(s: CpuState, instr: word) {
    /** The two operands. */
    function X(isa: Isa): nat {
      if isa.Arm? then Operand(s, DecodeData(instr).rn) else s.regs[instr % 8]
    }
    function Y(isa: Isa): nat {
      if isa.Arm? then Shifter(s, DecodeData(instr)).value else s.regs[instr / 8 % 8]
    }
    function Rd(isa: Isa): (r: nat)
      ensures r < 16
    {
      if isa.Arm? then DecodeData(instr).rd else instr % 8
    }
    function After(isa: Isa): CpuState {
      if isa.Arm? then DataProcessing(s, DecodeData(instr)) else ThumbAluOp(s, instr)
    }
    function Result(isa: Isa): nat {
      After(isa).regs[Rd(isa)]
    }
    /** A flag-setting ADC, or SBC, on words, into a register other than r15. */
    predicate Applies(isa: Isa, subtract: bool) {
      && X(isa) < TWO_32 && Y(isa) < TWO_32 && Rd(isa) < 15
      && (var op := if subtract then 6 else 5;
          if isa.Arm? then DecodeData(instr).op == op && DecodeData(instr).setFlags else instr / 0x40 % 16 == op)
    }
  }

  /** One after the other; what is executed in between leaves the CPSR as it is. */
  predicate Linked(isa: Isa, subtract: bool, steps: seq<Step>) {
    && (forall k :: 0 <= k < |steps| ==> steps[k].Applies(isa, subtract))
    && (forall k :: 0 < k < |steps| ==> steps[k].s.cpsr == steps[k - 1].After(isa).cpsr)
  }

  function Xs(isa: Isa, subtract: bool, steps: seq<Step>): (r: seq<word>)
    requires Linked(isa, subtract, steps)
    ensures |r| == |steps|
  {
    if steps == [] then [] else [steps[0].X(isa)] + Xs(isa, subtract, steps[1..])
  }

  function Ys(isa: Isa, subtract: bool, steps: seq<Step>): (r: seq<word>)
    requires Linked(isa, subtract, steps)
    ensures |r| == |steps|
  {
    if steps == [] then [] else [steps[0].Y(isa)] + Ys(isa, subtract, steps[1..])
  }

  /** What the instructions leave in their destinations. */
  function Results(isa: Isa, subtract: bool, steps: seq<Step>): (r: seq<word>)
    requires Linked(isa, subtract, steps)
    ensures |r| == |steps|
  {
    if steps == [] then []
    else
      StepIsLimb(isa, subtract, steps[0]);
      [steps[0].Result(isa)] + Results(isa, subtract, steps[1..])
  }

  lemma ArmStepIsLimb(subtract: bool, st: Step)
    requires st.Applies(Arm, subtract)
    ensures var o := Limb(Arm, subtract, st.X(Arm), st.Y(Arm), st.s.cpsr);
            && st.Result(Arm) == Low32(o.result)
            && st.After(Arm).cpsr == SetFlags(st.s.cpsr, o.result, o.c, o.v)
  {
    hide AddC, SubC, SetFlags, Operand, Shifter, FlagC, FlagV, DecodeData;
    var f := DecodeData(st.instr);
    var o := ArmAlu(f.op, Operand(st.s, f.rn), Shifter(st.s, f), st.s.cpsr);
    assert o == Limb(Arm, subtract, st.X(Arm), st.Y(Arm), st.s.cpsr);
    assert DataV(f.op, o.v, st.s.cpsr) == o.v;
  }

  lemma ThumbStepIsLimb(subtract: bool, st: Step)
    requires st.Applies(Thumb, subtract)
    ensures var o := Limb(Thumb, subtract, st.X(Thumb), st.Y(Thumb), st.s.cpsr);
            && st.Result(Thumb) == Low32(o.result)
            && st.After(Thumb).cpsr == SetFlags(st.s.cpsr, o.result, o.c, o.v)
  {
    hide AddC, SubC, SetFlags, FlagC, FlagV;
  }

  /** Each instruction is one limb. */
  lemma StepIsLimb(isa: Isa, subtract: bool, st: Step)
    requires st.Applies(isa, subtract)
    ensures var o := Limb(isa, subtract, st.X(isa), st.Y(isa), st.s.cpsr);
            && st.Result(isa) == Low32(o.result)
            && st.After(isa).cpsr == SetFlags(st.s.cpsr, o.result, o.c, o.v)
  {
    hide Step.X, Step.Y, Step.Result, Step.After, Limb, SetFlags, Step.Applies;
    if isa.Arm? {
      ArmStepIsLimb(subtract, st);
    } else {
      ThumbStepIsLimb(subtract, st);
    }
  }

  /** So the instructions run the chain. */
  lemma {:induction false} StepsAreChain(isa: Isa, subtract: bool, steps: seq<Step>)
    requires Linked(isa, subtract, steps) && steps != []
    ensures RunChain(isa, subtract, steps[0].s.cpsr, Xs(isa, subtract, steps), Ys(isa, subtract, steps))
            == Chain(Results(isa, subtract, steps), steps[|steps| - 1].After(isa).cpsr)
    decreases |steps|
  {
    hide Step.X, Step.Y, Step.Result, Step.After, Step.Rd, Limb, SetFlags, RunChain, Step.Applies;
    var xs, ys, cpsr := Xs(isa, subtract, steps), Ys(isa, subtract, steps), steps[0].s.cpsr;
    StepIsLimb(isa, subtract, steps[0]);
    ChainOne(isa, subtract, cpsr, xs, ys);
    if |steps| == 1 {
      ChainEmpty(isa, subtract, steps[0].After(isa).cpsr);
    } else {
      StepsAreChain(isa, subtract, steps[1..]);
    }
  }

  lemma ChainEmpty(isa: Isa, subtract: bool, cpsr: word)
    ensures RunChain(isa, subtract, cpsr, [], []) == Chain([], cpsr)
  {
  }

  /** ADCs, in either instruction set: the destinations and the last carry hold the whole sum. */
  lemma AdcsSum(isa: Isa, steps: seq<Step>)
    requires Linked(isa, false, steps) && steps != []
    ensures var last := steps[|steps| - 1].After(isa);
            Value(Results(isa, false, steps)) + Radix(|steps|) * FlagC(last.cpsr)
            == Value(Xs(isa, false, steps)) + Value(Ys(isa, false, steps)) + FlagC(steps[0].s.cpsr)
  {
    hide Xs, Ys, Results, RunChain, Value, Radix, FlagC, Linked, Step.After;
    StepsAreChain(isa, false, steps);
    AdcChainSums(isa, steps[0].s.cpsr, Xs(isa, false, steps), Ys(isa, false, steps));
  }

  /** SBCs: the whole difference, a clear last carry standing for the borrow. */
  lemma SbcsSubtract(isa: Isa, steps: seq<Step>)
    requires Linked(isa, true, steps) && steps != []
    ensures var last := steps[|steps| - 1].After(isa);
            Value(Results(isa, true, steps)) - Radix(|steps|) * (1 - FlagC(last.cpsr))
            == Value(Xs(isa, true, steps)) - Value(Ys(isa, true, steps)) - (1 - FlagC(steps[0].s.cpsr))
  {
    hide Xs, Ys, Results, RunChain, Value, Radix, FlagC, Linked, Step.After;
    StepsAreChain(isa, true, steps);
    SbcChainSubtracts(isa, steps[0].s.cpsr, Xs(isa, true, steps), Ys(isa, true, steps));
  }

  /** The last V says whether the whole numbers, read as signed, overflow. */
  lemma LastOverflow(isa: Isa, subtract: bool, steps: seq<Step>)
    requires Linked(isa, subtract, steps) && steps != []
    ensures var c, last := FlagC(steps[0].s.cpsr), steps[|steps| - 1].After(isa);
            var x, y := SignedValue(Xs(isa, subtract, steps)), SignedValue(Ys(isa, subtract, steps));
            FlagV(last.cpsr) == 1 <==> Overflows(if subtract then x - y - (1 - c) else x + y + c, |steps|)
  {
    hide Xs, Ys, Results, RunChain, SignedValue, FlagC, FlagV, Overflows, Linked, Step.After;
    StepsAreChain(isa, subtract, steps);
    ChainOverflow(isa, subtract, steps[0].s.cpsr, Xs(isa, subtract, steps), Ys(isa, subtract, steps));
  }
}
