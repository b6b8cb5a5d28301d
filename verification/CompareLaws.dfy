/** What the compare instructions leave for the conditions to test. */
module CompareLaws {
  import opened Bits
  import opened Words
  import opened Alu
  import opened AluLaws
  import opened Processor

  /** All the relational conditions decide their relation, in both evaluators. */
  predicate Decides(w: word, a: word, b: word) {
    && DecidesAt(w, 0x0, a == b) && DecidesAt(w, 0x1, a != b)
    && DecidesAt(w, 0x2, a >= b) && DecidesAt(w, 0x3, a < b)
    && DecidesAt(w, 0x8, a > b) && DecidesAt(w, 0x9, a <= b)
    && DecidesAt(w, 0xA, Signed(a) >= Signed(b)) && DecidesAt(w, 0xB, Signed(a) < Signed(b))
    && DecidesAt(w, 0xC, Signed(a) > Signed(b)) && DecidesAt(w, 0xD, Signed(a) <= Signed(b))
  }

  /** A condition says whether the relation holds, in both evaluators. */
  predicate DecidesAt(w: word, cond: nat, relation: bool) {
    CheckCondition(cond, w) == relation && CheckConditionThumb(cond, w) == relation
  }

  lemma ComparedDecides(cpsr: word, a: word, b: word)
    ensures Decides(Compare(cpsr, a, b), a, b)
  {
    CompareDecides(cpsr, a, b);
    hide Compare, CheckCondition, CheckConditionThumb, Signed;
    var w := Compare(cpsr, a, b);
    forall cond: nat | cond <= 14
      ensures CheckCondition(cond, w) == CheckConditionThumb(cond, w)
    {
      EvaluatorsAgreeIff(cond, w);
    }
  }

  // ----- second operands wider than a word -----

  lemma LowBits(x: nat)
    ensures Bit(Low32(x), 31) == Bit(x, 31)
  {
    BitOfLow(x, 31);
  }

  lemma LowDifference(a: word, b: nat)
    ensures Low32(a - b) == Low32(a - Low32(b))
  {
    var q := b / TWO_32;
    assert b == TWO_32 * q + Low32(b);
    LowShifted(a - Low32(b), q);
  }

  lemma LowShifted(x: int, q: nat)
    requires -TWO_32 < x < TWO_32
    ensures Low32(x - TWO_32 * q) == Low32(x)
  {
  }

  /** Subtracting an operand that was not masked: result and overflow are those of its low word, the
      carry compares with the whole of it. */
  lemma SubCWide(a: word, b: nat)
    ensures var o, low := SubC(a, b, 1), SubC(a, Low32(b), 1);
            o.result == low.result && o.v == low.v && o.c == BitIf(a >= b)
  {
    var r := Low32(a - b);
    LowDifference(a, b);
    LowBits(b);
    Pow2Words();
    var x, y := Xor(a, b), Xor(a, Low32(b));
    AndPow2(And(x, Xor(a, r)), 31);
    AndPow2(And(y, Xor(a, r)), 31);
    AndBit(x, Xor(a, r), 31);
    AndBit(y, Xor(a, r), 31);
    XorBit(a, b, 31);
    XorBit(a, Low32(b), 31);
    hide And, Xor, Bit, Low32, Pow2;
  }

  /** For an operand of any width: equality and the signed order are decided for its low word, the
      unsigned order for the whole of it. */
  predicate DecidesWide(w: word, a: word, b: nat) {
    var low := Low32(b);
    && DecidesAt(w, 0x0, a == low) && DecidesAt(w, 0x1, a != low)
    && DecidesAt(w, 0x2, a >= b) && DecidesAt(w, 0x3, a < b)
    && DecidesAt(w, 0x8, a > b) && DecidesAt(w, 0x9, a <= b)
    && DecidesAt(w, 0xA, Signed(a) >= Signed(low)) && DecidesAt(w, 0xB, Signed(a) < Signed(low))
    && DecidesAt(w, 0xC, Signed(a) > Signed(low)) && DecidesAt(w, 0xD, Signed(a) <= Signed(low))
  }

  lemma WordDecides(w: word, a: word, b: word)
    ensures DecidesWide(w, a, b) <==> Decides(w, a, b)
  {
    hide DecidesAt;
  }

  lemma ComparedDecidesWide(cpsr: word, a: word, b: nat)
    ensures DecidesWide(Compare(cpsr, a, b), a, b)
  {
    if b < TWO_32 {
      ComparedDecides(cpsr, a, b);
      WordDecides(Compare(cpsr, a, b), a, b);
    } else {
      ComparedDecides(cpsr, a, Low32(b));
      SubCWide(a, b);
      var o, low := SubC(a, b, 1), SubC(a, Low32(b), 1);
      var n := o.result / 0x8000_0000 % 2;
      FlagsRead(cpsr, n, BitIf(o.result == 0), o.c, o.v);
      FlagsRead(cpsr, n, BitIf(o.result == 0), low.c, low.v);
      hide SubC, FlagN, FlagZ, FlagC, FlagV, WithFlags, Signed, Low32;
    }
  }

  /** ARM CMP: only the flags and the program counter change, and the conditions then decide how the
      operands compare, also where the shifter leaves the second one wider than a word. */
  lemma ArmCmpDecides(s: CpuState, f: DataFields)
    requires f.op == 0xA && f.setFlags && f.rn < 16 && f.rd < 15
    requires Operand(s, f.rn) < TWO_32
    ensures var t := DataProcessing(s, f);
            && t == SetReg(s.(cpsr := t.cpsr), 15, s.regs[15] + 4)
            && DecidesWide(t.cpsr, Operand(s, f.rn), Shifter(s, f).value)
            && (Shifter(s, f).value < TWO_32 ==> Decides(t.cpsr, Operand(s, f.rn), Shifter(s, f).value))
  {
    var a, b := Operand(s, f.rn), Shifter(s, f).value;
    ComparedDecidesWide(s.cpsr, a, b);
    if b < TWO_32 {
      ComparedDecides(s.cpsr, a, b);
    }
    hide Operand, Shifter, Decides, DecidesWide, SubC, SetFlags;
  }

  /** Thumb CMP on low registers. */
  lemma ThumbCmpDecides(s: CpuState, instr: nat)
    requires instr / 0x40 % 16 == 0xA
    requires s.regs[instr % 8] < TWO_32 && s.regs[instr / 8 % 8] < TWO_32
    ensures var t := ThumbAluOp(s, instr);
            && t == SetReg(s.(cpsr := t.cpsr), 15, s.regs[15] + 2)
            && Decides(t.cpsr, s.regs[instr % 8], s.regs[instr / 8 % 8])
  {
    ComparedDecides(s.cpsr, s.regs[instr % 8], s.regs[instr / 8 % 8]);
    hide Decides, SubC, SetFlags;
  }

  /** Thumb CMP with an immediate. */
  lemma ThumbCmpImmediateDecides(s: CpuState, instr: nat)
    requires instr / 0x800 % 4 == 1 && s.regs[instr / 0x100 % 8] < TWO_32
    ensures var t := ThumbImmediate(s, instr);
            && t == SetReg(s.(cpsr := t.cpsr), 15, s.regs[15] + 2)
            && Decides(t.cpsr, s.regs[instr / 0x100 % 8], instr % 0x100)
  {
    ComparedDecides(s.cpsr, s.regs[instr / 0x100 % 8], instr % 0x100);
    hide Decides, SubC, SetFlags, AddImmediate;
  }

  // ----- the compare of format 5 -----

  lemma HiCompareFlags(cpsr: word, a: word, b: word)
    ensures var w := HiCompare(cpsr, a, b);
            && FlagN(w) == 0 && FlagC(w) == 0 && (FlagZ(w) == 1 <==> a != b)
            && (FlagV(w) == 1 <==> Low32(a - b) >= SIGN_BIT)
  {
    var r := Low32(a - b);
    WrapOnce(a - b);
    FlagsRead(cpsr, 0, BitIf(r != 0), 0, r / 0x8000_0000);
    hide FlagN, FlagZ, FlagC, FlagV, WithFlags, Low32;
  }

  /** After a compare in format 5 each relational condition is right for exactly these operands. */
  predicate HiCompareOutcome(w: word, a: word, b: word) {
    var overflow := OutOfRange(Signed(a) - Signed(b));
    && !DecidesAt(w, 0x0, a == b) && !DecidesAt(w, 0x1, a != b)
    && (DecidesAt(w, 0x2, a >= b) <==> a < b) && (DecidesAt(w, 0x3, a < b) <==> a < b)
    && (DecidesAt(w, 0x8, a > b) <==> a <= b) && (DecidesAt(w, 0x9, a <= b) <==> a <= b)
    && (DecidesAt(w, 0xA, Signed(a) >= Signed(b)) <==> !overflow) && (DecidesAt(w, 0xB, Signed(a) < Signed(b)) <==> !overflow)
    && (DecidesAt(w, 0xC, Signed(a) > Signed(b)) <==> Signed(a) < Signed(b))
    && (DecidesAt(w, 0xD, Signed(a) <= Signed(b)) <==> Signed(a) < Signed(b))
  }

  lemma HiComparedConditions(cpsr: word, a: word, b: word)
    ensures HiCompareOutcome(HiCompare(cpsr, a, b), a, b)
  {
    HiCompareFlags(cpsr, a, b);
    WrapOnce(a - b);
    hide HiCompare, FlagN, FlagZ, FlagC, FlagV, Low32;
  }

  /** The compare on high registers changes flags and PC only.  Equality is never right; unsigned
      conditions are right below, HI and LS on equality too; GE and LT without overflow; GT and LE only
      when the first operand is the smaller. */
  lemma HiCompareRightIff(s: CpuState, instr: nat)
    requires instr / 0x100 % 4 == 1
    requires Operand(s, HighD(instr)) < TWO_32 && Operand(s, HighM(instr)) < TWO_32
    ensures var t := ThumbHi(s, instr);
            && t == SetReg(s.(cpsr := t.cpsr), 15, s.regs[15] + 2)
            && HiCompareOutcome(t.cpsr, Operand(s, HighD(instr)), Operand(s, HighM(instr)))
  {
    HiComparedConditions(s.cpsr, Operand(s, HighD(instr)), Operand(s, HighM(instr)));
    hide HiCompare, HiCompareOutcome, Operand;
  }

  /** The registers of format 5, with their high bits. */
  function HighD(instr: nat): (r: nat)
    ensures r < 16
  {
    instr % 8 + 8 * (instr / 0x80 % 2)
  }

  function HighM(instr: nat): (r: nat)
    ensures r < 16
  {
    instr / 8 % 8 + 8 * (instr / 0x40 % 2)
  }

  // ----- the same, as relations between the states before and after -----

  predicate ArmCmpLaw(s: CpuState, f: DataFields, t: CpuState)
    requires f.rn < 16
  {
    f.op == 0xA && f.setFlags && f.rd < 15 && Operand(s, f.rn) < TWO_32
    ==> t == SetReg(s.(cpsr := t.cpsr), 15, s.regs[15] + 4)
        && DecidesWide(t.cpsr, Operand(s, f.rn), Shifter(s, f).value)
  }

  lemma ArmCmpHolds(s: CpuState, f: DataFields)
    requires f.rn < 16 && f.rd < 16
    ensures ArmCmpLaw(s, f, DataProcessing(s, f))
  {
    hide DataProcessing, Operand, Shifter, DecidesWide, SetReg;
    if f.op == 0xA && f.setFlags && f.rd < 15 && Operand(s, f.rn) < TWO_32 {
      ArmCmpDecides(s, f);
    }
  }

  predicate ThumbCmpLaw(s: CpuState, instr: nat, t: CpuState) {
    instr / 0x40 % 16 == 0xA && s.regs[instr % 8] < TWO_32 && s.regs[instr / 8 % 8] < TWO_32
    ==> t == SetReg(s.(cpsr := t.cpsr), 15, s.regs[15] + 2)
        && Decides(t.cpsr, s.regs[instr % 8], s.regs[instr / 8 % 8])
  }

  lemma ThumbCmpHolds(s: CpuState, instr: nat)
    ensures ThumbCmpLaw(s, instr, ThumbAluOp(s, instr))
  {
    hide ThumbAluOp, Decides, SetReg;
    if instr / 0x40 % 16 == 0xA && s.regs[instr % 8] < TWO_32 && s.regs[instr / 8 % 8] < TWO_32 {
      ThumbCmpDecides(s, instr);
    }
  }

  predicate ThumbCmpImmediateLaw(s: CpuState, instr: nat, t: CpuState) {
    instr / 0x800 % 4 == 1 && s.regs[instr / 0x100 % 8] < TWO_32
    ==> t == SetReg(s.(cpsr := t.cpsr), 15, s.regs[15] + 2)
        && Decides(t.cpsr, s.regs[instr / 0x100 % 8], instr % 0x100)
  }

  lemma ThumbCmpImmediateHolds(s: CpuState, instr: nat)
    ensures ThumbCmpImmediateLaw(s, instr, ThumbImmediate(s, instr))
  {
    hide ThumbImmediate, Decides, SetReg;
    if instr / 0x800 % 4 == 1 && s.regs[instr / 0x100 % 8] < TWO_32 {
      ThumbCmpImmediateDecides(s, instr);
    }
  }

  predicate HiCompareLaw(s: CpuState, instr: nat, t: CpuState) {
    instr / 0x100 % 4 == 1 && Operand(s, HighD(instr)) < TWO_32 && Operand(s, HighM(instr)) < TWO_32
    ==> t == SetReg(s.(cpsr := t.cpsr), 15, s.regs[15] + 2)
        && HiCompareOutcome(t.cpsr, Operand(s, HighD(instr)), Operand(s, HighM(instr)))
  }

  lemma HiCompareHolds(s: CpuState, instr: nat)
    ensures HiCompareLaw(s, instr, ThumbHi(s, instr))
  {
    hide ThumbHi, HiCompareOutcome, SetReg, Operand;
    if instr / 0x100 % 4 == 1 && Operand(s, HighD(instr)) < TWO_32 && Operand(s, HighM(instr)) < TWO_32 {
      HiCompareRightIff(s, instr);
    }
  }

  // ----- the sums of formats 2 and 3 -----

  /** The carry by comparison and the overflow by a complemented mask are those of any other sum. */
  lemma AddImmediateIsAdd(a: word, imm: word)
    ensures AddImmediate(a, imm) == AddC(a, imm, 0)
  {
    var r := Low32(a + imm);
    WrapOnce(a + imm);
    Pow2Words();
    var x := Xor(a, imm);
    AndPow2(And(Not32(Low32(x)), Xor(a, r)), 31);
    AndBit(Not32(Low32(x)), Xor(a, r), 31);
    XorSigns(a, r, imm, r);
    XorBelow(a, imm, 32);
    XorBit(a, imm, 31);
    XorBit(a, r, 31);
    SignBitIsBit31(a);
    SignBitIsBit31(imm);
    SignBitIsBit31(r);
    SignBitIsBit31(x);
    SignBitIsBit31(Not32(x));
    hide And, Xor, Bit, Low32;
  }
}
