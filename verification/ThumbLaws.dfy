/** Thumb instructions in terms of the bits, or the numbers, of their operands. */
module ThumbLaws {
  import opened Arith
  import opened Words
  import opened Bits
  import opened Alu
  import opened AluLaws
  import opened ArmLaws
  import opened CompareLaws
  import opened Processor

  /** Everything but one register, the program counter and the CPSR is as before. */
  predicate Changes(s: CpuState, t: CpuState, rd: nat) {
    && t.spsr == s.spsr && t.mode == s.mode && t.banks == s.banks && t.mem == s.mem && t.regs[15] == s.regs[15] + 2
    && forall j :: 0 <= j < 15 && j != rd ==> t.regs[j] == s.regs[j]
  }

  // ----- format 4: logical operations and shifts -----

  /** All but NEG, CMP, CMN, ADC, SBC and MUL. */
  predicate IsBitwise(op: nat) {
    op in {0x0, 0x1, 0x2, 0x3, 0x4, 0x7, 0x8, 0xC, 0xE, 0xF}
  }

  /** Bit `k` of the result on Rd = `a` and Rs = `b`. */
  predicate BitwiseBit(op: nat, a: word, b: word, k: nat)
    requires IsBitwise(op)
  {
    var n := b % 0x100;
    match op
    case 0x1 => Bit(a, k) != Bit(b, k)
    case 0x2 => k >= n && Bit(a, k - n)
    case 0x3 => k + n < 32 && Bit(a, k + n)
    case 0x4 => Bit(a, if k + n < 32 then k + n else 31)
    case 0x7 => Bit(a, (k + n) % 32)
    case 0xC => Bit(a, k) || Bit(b, k)
    case 0xE => Bit(a, k) && !Bit(b, k)
    case 0xF => !Bit(b, k)
    case _ => Bit(a, k) && Bit(b, k)
  }

  /** The last bit shifted out; a rotation by a multiple of 32 gives the top bit. */
  predicate BitwiseCarry(op: nat, a: word, b: word, c: bool)
    requires IsBitwise(op)
  {
    var n := b % 0x100;
    match op
    case 0x2 => if n == 0 then c else n <= 32 && Bit(a, 32 - n)
    case 0x3 => if n == 0 then c else n <= 32 && Bit(a, n - 1)
    case 0x4 => if n == 0 then c else Bit(a, if n < 32 then n - 1 else 31)
    case 0x7 => Bit(a, (n + 31) % 32)
    case _ => c
  }

  lemma LeftShift(a: word, b: word, cpsr: word, k: nat)
    requires k < 32
    ensures var o := ThumbAlu(0x2, a, b, cpsr);
            && o.result < TWO_32 && (Bit(o.result, k) <==> BitwiseBit(0x2, a, b, k))
            && (o.c == 1 <==> BitwiseCarry(0x2, a, b, Bit(cpsr, 29))) && o.v == FlagV(cpsr)
  {
    FlagBits(cpsr);
    ZeroBits(k);
    LowestBit(a);
    hide Bit, Shr, Shl, Low32, FlagC, FlagV;
    var n := b % 0x100;
    if 0 < n < 32 {
      BitOfLow(Shl(a, n), k);
      BitOfShl(a, n, k);
      DigitOfShr(a, 32 - n);
    }
  }

  lemma RightShift(a: word, b: word, cpsr: word, k: nat)
    requires k < 32
    ensures var o := ThumbAlu(0x3, a, b, cpsr);
            && o.result < TWO_32 && (Bit(o.result, k) <==> BitwiseBit(0x3, a, b, k))
            && (o.c == 1 <==> BitwiseCarry(0x3, a, b, Bit(cpsr, 29))) && o.v == FlagV(cpsr)
  {
    hide Bit, Shr, Low32, Pow2, FlagC, FlagV;
    FlagBits(cpsr);
    ZeroBits(k);
    BitIsDigit(a);
    var n := b % 0x100;
    if 0 < n < 32 {
      ShiftedRight(a, n, k);
      DigitOfShr(a, n - 1);
    }
  }

  lemma ShiftedRight(a: word, n: nat, k: nat)
    ensures Shr(a, n) < TWO_32 && (Bit(Shr(a, n), k) <==> k + n < 32 && Bit(a, k + n))
  {
    hide Bit, Shr, Pow2;
    Pow2Words();
    ShrSmaller(a, n);
    BitOfShr(a, n, k);
    if k + n >= 32 {
      BitAbove(a, 32, n + k);
    }
  }

  lemma ArithmeticShift(a: word, b: word, cpsr: word, k: nat)
    requires k < 32
    ensures var o := ThumbAlu(0x4, a, b, cpsr);
            && o.result < TWO_32 && (Bit(o.result, k) <==> BitwiseBit(0x4, a, b, k))
            && (o.c == 1 <==> BitwiseCarry(0x4, a, b, Bit(cpsr, 29))) && o.v == FlagV(cpsr)
  {
    FlagBits(cpsr);
    ZeroBits(k);
    BitIsDigit(a);
    SignTest(a);
    SignBitIsBit31(a);
    AllOnes(k);
    hide Bit, Shr, And, ThumbAsr, FlagC, FlagV;
    var n := b % 0x100;
    if 0 < n < 32 {
      ThumbAsrBits(a, n, k);
      DigitOfShr(a, n - 1);
    }
  }

  lemma ThumbAsrBits(a: word, n: nat, k: nat)
    requires 0 < n < 32 && k < 32
    ensures ThumbAsr(a, n) < TWO_32 && (Bit(ThumbAsr(a, n), k) <==> Bit(a, if k + n < 32 then k + n else 31))
  {
    Pow2Words();
    SignTest(a);
    SignBitIsBit31(a);
    hide Bit, Shr, Shl, And, Or, Low32, Pow2;
    BitOfShr(a, n, k);
    ShrSmaller(a, n);
    if k + n >= 32 {
      BitAbove(a, 32, n + k);
    }
    if a >= SIGN_BIT {
      var m := Shl(0xFFFF_FFFF, 32 - n);
      OrBit(Shr(a, n), Low32(m), k);
      OrBelow(Shr(a, n), Low32(m), 32);
      BitOfLow(m, k);
      BitOfShl(0xFFFF_FFFF, 32 - n, k);
      if k >= 32 - n {
        AllOnes(k - (32 - n));
      }
    }
  }

  lemma Rotation(a: word, b: word, cpsr: word, k: nat)
    requires k < 32
    ensures var o := ThumbAlu(0x7, a, b, cpsr);
            && o.result < TWO_32 && (Bit(o.result, k) <==> BitwiseBit(0x7, a, b, k))
            && (o.c == 1 <==> BitwiseCarry(0x7, a, b, Bit(cpsr, 29))) && o.v == FlagV(cpsr)
  {
    hide Bit, Shr, Shl, Or, Low32, FlagC, FlagV;
    BitIsDigit(a);
    TurnOf(b, k);
    var n := b % 0x20;
    SmallTurn(k, n);
    if n > 0 {
      BitOfRotation(a, n, k);
      DigitOfShr(a, n - 1);
    }
  }

  lemma SmallTurn(k: nat, n: nat)
    requires k < 32
    ensures n == 0 ==> (k + n) % 32 == k
  {
  }

  lemma TurnOf(b: word, k: nat)
    requires k < 32
    ensures (k + b % 0x100) % 32 == (k + b % 0x20) % 32
    ensures (b % 0x100 + 31) % 32 == if b % 0x20 == 0 then 31 else b % 0x20 - 1
  {
    var q, r := b % 0x100 / 0x20, b % 0x100 % 0x20;
    assert b == 0x100 * (b / 0x100) + 0x20 * q + r;
    DivUnique(b, 0x20, 8 * (b / 0x100) + q, r);
    DivOfSum(q, k + r, 0x20);
    DivOfSum(q, r + 31, 0x20);
  }

  lemma Logic(op: nat, a: word, b: word, cpsr: word, k: nat)
    requires op in {0x0, 0x1, 0x8, 0xC, 0xE, 0xF} && k < 32
    ensures var o := ThumbAlu(op, a, b, cpsr);
            && o.result < TWO_32 && (Bit(o.result, k) <==> BitwiseBit(op, a, b, k))
            && (o.c == 1 <==> BitwiseCarry(op, a, b, Bit(cpsr, 29))) && o.v == FlagV(cpsr)
  {
    FlagBits(cpsr);
    Pow2Words();
    hide Bit, And, Or, Xor, Low32, Not32, FlagC, FlagV, Pow2;
    match op
    case 0x1 =>
      XorBit(a, b, k);
      XorBelow(a, b, 32);
    case 0xC =>
      OrBit(a, b, k);
      OrBelow(a, b, 32);
    case 0xE =>
      LowSmall(b);
      BitOfNot(b, k);
      AndBit(a, Not32(b), k);
      AndBelow(a, Not32(b));
    case 0xF =>
      LowSmall(b);
      BitOfNot(b, k);
    case _ =>
      AndBit(a, b, k);
      AndBelow(a, b);
  }

  /** The result and the carry of every bitwise operation. */
  lemma Bitwise(op: nat, a: word, b: word, cpsr: word, k: nat)
    requires IsBitwise(op) && k < 32
    ensures var o := ThumbAlu(op, a, b, cpsr);
            && o.result < TWO_32 && (Bit(o.result, k) <==> BitwiseBit(op, a, b, k))
            && (o.c == 1 <==> BitwiseCarry(op, a, b, Bit(cpsr, 29))) && o.v == FlagV(cpsr)
  {
    hide ThumbAlu, BitwiseBit, BitwiseCarry, FlagV, Bit;
    match op
    case 0x2 => LeftShift(a, b, cpsr, k);
    case 0x3 => RightShift(a, b, cpsr, k);
    case 0x4 => ArithmeticShift(a, b, cpsr, k);
    case 0x7 => Rotation(a, b, cpsr, k);
    case _ => Logic(op, a, b, cpsr, k);
  }

  // ----- format 4: arithmetic -----

  /** ADC, SBC, NEG, CMP and CMN on numbers. */
  function ExactThumb(op: nat, a: int, b: int, c: nat): int
    requires op in {0x5, 0x6, 0x9, 0xA, 0xB}
  {
    match op
    case 0x5 => a + b + c
    case 0x6 => a - b - (1 - c)
    case 0x9 => 0 - b
    case 0xA => a - b
    case _ => a + b
  }

  lemma ThumbSum(op: nat, a: word, b: word, cpsr: word)
    requires op in {0x5, 0x6, 0x9, 0xA, 0xB}
    ensures var o, c := ThumbAlu(op, a, b, cpsr), FlagC(cpsr);
            var x := ExactThumb(op, a, b, c);
            && o.result == Low32(x) && (o.c == 1 <==> if op == 0x5 || op == 0xB then x >= TWO_32 else x >= 0)
            && (o.v == 1 <==> OutOfRange(ExactThumb(op, Signed(a), Signed(b), c)))
  {
    hide AddC, SubC, FlagC, FlagV, Signed, OutOfRange, And;
    var c := FlagC(cpsr);
    match op {
      case 0x5 => AddCMeans(a, b, c);
      case 0x6 => SubCMeans(a, b, c);
      case 0x9 => Negated(b);
      case 0xA => SubCMeans(a, b, 1);
      case _ => AddCMeans(a, b, 0);
    }
    WrapOnce(ExactThumb(op, a, b, c));
  }

  /** Negation overflows for the least number only. */
  lemma Negated(b: word)
    ensures And(And(b, Low32(0 - b)), SIGN_BIT) != 0 <==> OutOfRange(0 - Signed(b))
  {
    var r := Low32(0 - b);
    Pow2Words();
    AndPow2(And(b, r), 31);
    AndBit(b, r, 31);
    SignBitIsBit31(b);
    SignBitIsBit31(r);
    WrapOnce(0 - b);
    hide And, Bit, Pow2;
  }

  /** A format 4 instruction into Rd, with the result `r`, and N, Z, C and V. */
  predicate AluDone(s: CpuState, instr: nat, t: CpuState, r: word, c: bool, v: bool) {
    var op, rd := instr / 0x40 % 16, instr % 8;
    && Changes(s, t, rd) && t.regs[rd] == (if op == 0x8 || op == 0xA || op == 0xB then s.regs[rd] else r)
    && FlagsAre(s.cpsr, t.cpsr, Bit(r, 31), r == 0, c, v)
  }

  lemma AluUnfold(s: CpuState, instr: nat)
    requires ThumbAlu(instr / 0x40 % 16, s.regs[instr % 8], s.regs[instr / 8 % 8], s.cpsr).result < TWO_32
    ensures var o := ThumbAlu(instr / 0x40 % 16, s.regs[instr % 8], s.regs[instr / 8 % 8], s.cpsr);
            AluDone(s, instr, ThumbAluOp(s, instr), o.result, o.c == 1, o.v == 1)
  {
    hide ThumbAlu, SetFlags, FlagsAre, Bit;
    var o := ThumbAlu(instr / 0x40 % 16, s.regs[instr % 8], s.regs[instr / 8 % 8], s.cpsr);
    LowSmall(o.result);
    SetFlagsMeans(s.cpsr, o.result, o.c, o.v);
  }

  /** AND, EOR, the shifts, TST, ORR, BIC and MVN, bit by bit; V stays. */
  lemma BitwiseLaw(s: CpuState, instr: nat) returns (r: word)
    requires var op := instr / 0x40 % 16; IsBitwise(op)
    requires s.regs[instr % 8] < TWO_32 && s.regs[instr / 8 % 8] < TWO_32
    ensures var op, a, b := instr / 0x40 % 16, s.regs[instr % 8], s.regs[instr / 8 % 8];
            && (forall k: nat :: k < 32 ==> (Bit(r, k) <==> BitwiseBit(op, a, b, k)))
            && AluDone(s, instr, ThumbAluOp(s, instr), r, BitwiseCarry(op, a, b, Bit(s.cpsr, 29)), Bit(s.cpsr, 28))
  {
    hide ThumbAlu, ThumbAluOp, BitwiseBit, BitwiseCarry, FlagV, Bit, AluDone;
    var op, a, b := instr / 0x40 % 16, s.regs[instr % 8], s.regs[instr / 8 % 8];
    Bitwise(op, a, b, s.cpsr, 0);
    r := ThumbAlu(op, a, b, s.cpsr).result;
    forall k: nat | k < 32
      ensures Bit(r, k) <==> BitwiseBit(op, a, b, k)
    {
      Bitwise(op, a, b, s.cpsr, k);
    }
    FlagBits(s.cpsr);
    AluUnfold(s, instr);
  }

  /** ADC, SBC, NEG, CMP and CMN in numbers. */
  lemma SumLaw(s: CpuState, instr: nat)
    requires instr / 0x40 % 16 in {0x5, 0x6, 0x9, 0xA, 0xB}
    requires s.regs[instr % 8] < TWO_32 && s.regs[instr / 8 % 8] < TWO_32
    ensures var op, a, b := instr / 0x40 % 16, s.regs[instr % 8], s.regs[instr / 8 % 8];
            var c := if Bit(s.cpsr, 29) then 1 else 0;
            var x := ExactThumb(op, a, b, c);
            AluDone(s, instr, ThumbAluOp(s, instr), Low32(x), if op == 0x5 || op == 0xB then x >= TWO_32 else x >= 0,
                    OutOfRange(ExactThumb(op, Signed(a), Signed(b), c)))
  {
    hide ThumbAlu, ThumbAluOp, FlagC, Bit, AluDone, ExactThumb, Signed, OutOfRange, Low32;
    var op, a, b := instr / 0x40 % 16, s.regs[instr % 8], s.regs[instr / 8 % 8];
    ThumbSum(op, a, b, s.cpsr);
    FlagBits(s.cpsr);
    AluUnfold(s, instr);
  }

  function Product(a: nat, b: nat): word {
    Low32(a * b)
  }

  /** MUL: the product modulo 2^32; C and V stay. */
  lemma MulLaw(s: CpuState, instr: nat)
    requires instr / 0x40 % 16 == 0xD
    ensures AluDone(s, instr, ThumbAluOp(s, instr), Product(s.regs[instr % 8], s.regs[instr / 8 % 8]), Bit(s.cpsr, 29),
                    Bit(s.cpsr, 28))
  {
    hide FlagC, FlagV, Bit, AluDone, Low32;
    FlagBits(s.cpsr);
    AluUnfold(s, instr);
  }

  // ----- formats 2 and 3 -----

  /** A sum or difference into Rd, with all four flags. */
  predicate SumDone(s: CpuState, t: CpuState, rd: nat, subtract: bool, a: word, b: word)
    requires rd < 8
  {
    var x := if subtract then a - b else a + b;
    var r := Low32(x);
    && Changes(s, t, rd) && t.regs[rd] == r
    && FlagsAre(s.cpsr, t.cpsr, r >= SIGN_BIT, r == 0, if subtract then x >= 0 else x >= TWO_32,
                OutOfRange(if subtract then Signed(a) - Signed(b) else Signed(a) + Signed(b)))
  }

  lemma SumFlagsMean(s: CpuState, t: CpuState, rd: nat, subtract: bool, a: word, b: word)
    requires rd < 8
    requires var o := if subtract then SubC(a, b, 1) else AddImmediate(a, b);
             Changes(s, t, rd) && t.regs[rd] == Low32(o.result) && t.cpsr == SetFlags(s.cpsr, o.result, o.c, o.v)
    ensures SumDone(s, t, rd, subtract, a, b)
  {
    hide SubC, AddC, AddImmediate, SetFlags, FlagsAre, Signed, OutOfRange, Changes, Bit;
    var o := if subtract then SubC(a, b, 1) else AddImmediate(a, b);
    AddImmediateIsAdd(a, b);
    AddCMeans(a, b, 0);
    SubCMeans(a, b, 1);
    WrapOnce(if subtract then a - b else a + b);
    SetFlagsMeans(s.cpsr, o.result, o.c, o.v);
    SignBitIsBit31(o.result);
  }

  /** ADD and SUB with a register or a three-bit immediate. */
  lemma AddSubLaw(s: CpuState, instr: nat)
    requires s.regs[instr / 8 % 8] < TWO_32 && s.regs[instr / 0x40 % 8] < TWO_32
    ensures var b := if instr / 0x400 % 2 == 1 then instr / 0x40 % 8 else s.regs[instr / 0x40 % 8];
            SumDone(s, ThumbAddSub(s, instr), instr % 8, instr / 0x200 % 2 == 1, s.regs[instr / 8 % 8], b)
  {
    hide SubC, AddImmediate, SetFlags, SumDone;
    var b := if instr / 0x400 % 2 == 1 then instr / 0x40 % 8 else s.regs[instr / 0x40 % 8];
    SumFlagsMean(s, ThumbAddSub(s, instr), instr % 8, instr / 0x200 % 2 == 1, s.regs[instr / 8 % 8], b);
  }

  /** MOV, ADD and SUB with an eight-bit immediate. */
  lemma ImmediateLaw(s: CpuState, instr: nat)
    requires s.regs[instr / 0x100 % 8] < TWO_32
    ensures var op, rd, imm, t := instr / 0x800 % 4, instr / 0x100 % 8, instr % 0x100, ThumbImmediate(s, instr);
            && (op >= 2 ==> SumDone(s, t, rd, op == 3, s.regs[rd], imm))
            && (op == 0 ==>
                  && Changes(s, t, rd) && t.regs[rd] == imm
                  && FlagsAre(s.cpsr, t.cpsr, false, imm == 0, Bit(s.cpsr, 29), Bit(s.cpsr, 28)))
  {
    hide SubC, AddImmediate, SetFlags, SumDone, FlagsAre, FlagC, FlagV, Bit;
    var op, rd, imm := instr / 0x800 % 4, instr / 0x100 % 8, instr % 0x100;
    if op >= 2 {
      SumFlagsMean(s, ThumbImmediate(s, instr), rd, op == 3, s.regs[rd], imm);
    } else if op == 0 {
      FlagBits(s.cpsr);
      SetFlagsMeans(s.cpsr, imm, FlagC(s.cpsr), FlagV(s.cpsr));
      SignBitIsBit31(imm);
    }
  }

  // ----- format 5 -----

  /** ADD and MOV on all registers leave the flags alone.  In r15 they do not land where they should: the
      program counter is stepped once more after the result is written. */
  lemma HighLaw(s: CpuState, instr: nat)
    requires instr / 0x100 % 4 == 0 || instr / 0x100 % 4 == 2
    ensures var rd, rm := instr % 8 + 8 * (instr / 0x80 % 2), instr / 8 % 8 + 8 * (instr / 0x40 % 2);
            var t := ThumbHi(s, instr);
            var r := Low32(if instr / 0x100 % 4 == 0 then Operand(s, rd) + Operand(s, rm) else Operand(s, rm));
            if rd < 15 then Changes(s, t, rd) && t.regs[rd] == r && t.cpsr == s.cpsr
            else
              && t.regs[15] == 2 + (if r % 2 == 1 then r - 1 else if s.Thumb() then r else r - r % 4)
              && t.mem == s.mem && t.banks == s.banks && t.mode == s.mode
              && forall j :: 0 <= j < 15 ==> t.regs[j] == s.regs[j]
  {
    hide Operand, SetThumb, Low32, Exchange, HiCompare;
  }

  /** So in Thumb code MOV PC, Rm never goes to the address in Rm, nor to it without its lowest bit. */
  lemma HighJumpIsOff(s: CpuState, instr: nat)
    requires s.Thumb() && instr / 0x80 % 2 == 1 && instr % 8 == 7 && instr / 0x100 % 4 == 2 && instr / 0x40 % 2 == 0
    ensures var r := Low32(s.regs[instr / 8 % 8]); ThumbHi(s, instr).regs[15] == r - r % 2 + 2
  {
    hide SetThumb, Low32, Exchange, HiCompare, ThumbHi, Operand;
    HighLaw(s, instr);
    OperandMeans(s, instr / 8 % 8);
  }

  /** BX goes to the even address and takes the instruction set from bit 0. */
  lemma ExchangeLaw(s: CpuState, instr: nat)
    requires instr / 0x100 % 4 == 3 && instr / 0x80 % 2 == 0
    ensures var x, t := Operand(s, instr / 8 % 8 + 8 * (instr / 0x40 % 2)), ThumbHi(s, instr);
            && t.regs == s.regs[15 := Low32(x - x % 2)] && (Bit(t.cpsr, 5) <==> x % 2 == 1)
            && t.cpsr % 0x20 == s.cpsr % 0x20 && t.cpsr / 0x40 == s.cpsr / 0x40
            && t.mem == s.mem && t.banks == s.banks && t.mode == s.mode && t.spsr == s.spsr
  {
    hide Operand, SetThumb, Low32, HiCompare, WriteReg, Bit;
    var x := Operand(s, instr / 8 % 8 + 8 * (instr / 0x40 % 2));
    SetThumbBits(s.cpsr, x % 2 == 1);
    ThumbBitMeans(SetThumb(s.cpsr, x % 2 == 1));
  }

  lemma SetThumbBits(w: word, thumb: bool)
    ensures var t := SetThumb(w, thumb);
            t % 0x20 == w % 0x20 && t / 0x40 == w / 0x40 && (t / 0x20 % 2 == 1 <==> thumb)
  {
    var high, low, b := w / 0x40, w % 0x20, if thumb then 1 else 0;
    DivUnique(SetThumb(w, thumb), 0x20, 2 * high + b, low);
    DivUnique(SetThumb(w, thumb), 0x40, high, 0x20 * b + low);
  }

  // ----- format 16 -----

  /** A taken branch goes four bytes on and then by twice the signed offset. */
  lemma BranchLaw(s: CpuState, instr: nat)
    ensures var cond, low, t := instr / 0x100 % 16, instr % 0x100, CondBranch(s, instr);
            && t == s.(regs := t.regs) && (forall j :: 0 <= j < 15 ==> t.regs[j] == s.regs[j])
            && t.regs[15] == if cond < 15 && Holds(cond, s.cpsr)
                             then Low32(s.regs[15] + 4 + 2 * low - if low < 0x80 then 0 else 0x200)
                             else s.regs[15] + 2
  {
    ConditionsMean(instr / 0x100 % 16, s.cpsr);
    hide CheckConditionThumb, Holds, Low32;
  }

  // ----- dispatch -----

  /** Which halfwords are which format; the rest is not modelled. */
  lemma Dispatch(s: CpuState, instr: half)
    ensures var o := ExecuteThumb(s, instr);
            && (0x1800 <= instr < 0x2000 ==> o == Done(ThumbAddSub(s, instr)))
            && (0x2000 <= instr < 0x4000 ==> o == Done(ThumbImmediate(s, instr)))
            && (0x4000 <= instr < 0x4400 ==> o == Done(ThumbAluOp(s, instr)))
            && (0x4400 <= instr < 0x4800 ==> o == Done(ThumbHi(s, instr)))
            && (0xB100 <= instr < 0xBE00 ==> o == Done(PushPop(s, instr)))
            && (0xBE00 <= instr < 0xD000 ==> o == Done(LdmStm(s, instr)))
            && (0xD000 <= instr < 0xDF00 ==> o == Done(CondBranch(s, instr)))
            && (o == OtherFormat <==> instr < 0x1800 || 0x4800 <= instr < 0xB100 || 0xDF00 <= instr)
  {
    hide ThumbAddSub, ThumbImmediate, ThumbAluOp, ThumbHi, PushPop, LdmStm, CondBranch;
  }
}
