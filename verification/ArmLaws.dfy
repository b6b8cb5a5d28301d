/** ARM data processing: every operation in terms of the bits, or the numbers, of its operands. */
module ArmLaws {
  import opened Arith
  import opened Words
  import opened Bits
  import opened Alu
  import opened AluLaws
  import opened Processor

  // ----- the flags -----

  /** N, Z, C and V are bits 31 to 28 of the CPSR. */
  predicate FlagsAre(cpsr: word, w: word, n: bool, z: bool, c: bool, v: bool) {
    && (Bit(w, 31) <==> n) && (Bit(w, 30) <==> z) && (Bit(w, 29) <==> c) && (Bit(w, 28) <==> v)
    && w % 0x1000_0000 == cpsr % 0x1000_0000
  }

  lemma FlagBits(w: word)
    ensures (Bit(w, 31) <==> FlagN(w) == 1) && (Bit(w, 30) <==> FlagZ(w) == 1)
    ensures (Bit(w, 29) <==> FlagC(w) == 1) && (Bit(w, 28) <==> FlagV(w) == 1)
  {
    Pow2Words();
    Pow2Step(31);
    Pow2Step(30);
    Pow2Step(29);
    hide Bit, Pow2, Shr;
    BitOfQuotient(w, 31);
    BitOfQuotient(w, 30);
    BitOfQuotient(w, 29);
    BitOfQuotient(w, 28);
  }

  lemma BitOfQuotient(x: nat, n: nat)
    ensures Bit(x, n) <==> x / Pow2(n) % 2 == 1
  {
    hide Bit, Pow2, Shr;
    ShrIsDiv(x, n);
    BitOfShr(x, n, 0);
    LowestBit(Shr(x, n));
  }

  lemma LowestBit(x: nat)
    ensures Bit(x, 0) <==> x % 2 == 1
  {
  }

  lemma SetFlagsMeans(cpsr: word, result: nat, c: bit, v: bit)
    ensures FlagsAre(cpsr, SetFlags(cpsr, result, c, v), Bit(result, 31), result == 0, c == 1, v == 1)
  {
    hide Bit, FlagN, FlagZ, FlagC, FlagV, WithFlags;
    BitIsDigit(result);
    FlagBits(SetFlags(cpsr, result, c, v));
    FlagsRead(cpsr, result / 0x8000_0000 % 2, BitIf(result == 0), c, v);
  }

  // ----- conditions and register reads -----

  /** The condition field by the manual: pairs of a condition and its opposite. */
  predicate Holds(cond: nat, w: word)
    requires cond < 15
  {
    var n, z, c, v := Bit(w, 31), Bit(w, 30), Bit(w, 29), Bit(w, 28);
    var even :=
      match cond / 2
      case 0 => z
      case 1 => c
      case 2 => n
      case 3 => v
      case 4 => c && !z
      case 5 => n == v
      case 6 => !z && n == v
      case _ => true;
    if cond % 2 == 0 then even else !even
  }

  /** Both evaluators follow the manual; "never" is always in ARM code and never in Thumb code. */
  lemma ConditionsMean(cond: nat, w: word)
    requires cond < 16
    ensures CheckCondition(cond, w) <==> cond == 15 || Holds(cond, w)
    ensures CheckConditionThumb(cond, w) <==> cond < 15 && Holds(cond, w)
  {
    FlagBits(w);
    hide Bit, FlagN, FlagZ, FlagC, FlagV;
  }

  /** Reading r15 gives the address two instructions on. */
  lemma OperandMeans(s: CpuState, r: nat)
    requires r < 16
    ensures Operand(s, r) == if r < 15 then s.regs[r] else Low32(s.regs[15] + if Bit(s.cpsr, 5) then 4 else 8)
  {
    ThumbBitMeans(s.cpsr);
  }

  lemma ThumbBitMeans(w: word)
    ensures Bit(w, 5) <==> w / 0x20 % 2 == 1
  {
    assert Pow2(5) == 0x20;
    BitOfQuotient(w, 5);
  }

  // ----- the second operand -----

  predicate Set(b: bit) { b == 1 }

  predicate IsImmediate(instr: word) { instr / 0x200_0000 % 2 == 1 }

  /** The register shifted, and by how much. */
  function Source(s: CpuState, instr: word): nat { Operand(s, instr % 16) }

  function Distance(instr: word): nat { instr / 0x80 % 32 }

  /** Bit `k` of the second operand: an eight-bit immediate rotated to the right by twice the count, or a
      register shifted left, right, arithmetically or around; a distance of zero means 32 for shifts to
      the right, and one place through the carry for a rotation.  An arithmetic shift of a negative
      word fills in bit 31 only. */
  predicate OperandBit(s: CpuState, instr: word, k: nat) {
    var x, n := Source(s, instr), Distance(instr);
    if IsImmediate(instr) then Bit(instr % 0x100, (k + 2 * (instr / 0x100 % 16)) % 32)
    else
      match instr / 0x20 % 4
      case 0 => k >= n && Bit(x, k - n)
      case 1 => n > 0 && k + n < 32 && Bit(x, k + n)
      case 2 => if n == 0 || k == 31 then Bit(x, 31) else k + n < 32 && Bit(x, k + n)
      case _ => if n > 0 then Bit(x, (k + n) % 32) else if k == 31 then Bit(s.cpsr, 29) else Bit(x, k + 1)
  }

  /** The shifter's carry: the last bit to leave the register, the top bit of a rotated immediate, or the
      old carry where nothing is shifted. */
  predicate CarryOut(s: CpuState, instr: word) {
    var x, n := Source(s, instr), Distance(instr);
    if IsImmediate(instr) then
      if instr / 0x100 % 16 == 0 then Bit(s.cpsr, 29) else OperandBit(s, instr, 31)
    else
      match instr / 0x20 % 4
      case 0 => if n == 0 then Bit(s.cpsr, 29) else Bit(x, 32 - n)
      case 3 => Bit(x, if n == 0 then 0 else n - 1)
      case _ => Bit(x, if n == 0 then 31 else n - 1)
  }

  /** The one case in which the code leaves more than 32 bits: an arithmetic shift by two or more of a
      negative word. */
  predicate Wide(s: CpuState, instr: word) {
    !IsImmediate(instr) && instr / 0x20 % 4 == 2 && Distance(instr) >= 2 && Source(s, instr) >= SIGN_BIT
  }

  predicate WordSource(s: CpuState, instr: word) {
    IsImmediate(instr) || Source(s, instr) < TWO_32
  }

  lemma ImmediateBits(imm: byte, rot: nat, carry: bit, k: nat)
    requires rot < 32 && k < 32
    ensures Bit(RotateImmediate(imm, rot, carry).value, k) <==> Bit(imm, (k + rot) % 32)
    ensures RotateImmediate(imm, rot, carry).value < TWO_32
    ensures Set(RotateImmediate(imm, rot, carry).carry)
            <==> if rot == 0 then Set(carry) else Bit(imm, (31 + rot) % 32)
  {
    hide Bit, Or, Shr, Shl, Low32;
    if rot > 0 {
      BitOfRotation(imm, rot, k);
      BitOfRotation(imm, rot, 31);
      BitIsDigit(RotateImmediate(imm, rot, carry).value);
    }
  }

  lemma LeftBits(x: nat, n: nat, carry: bit, k: nat)
    requires n < 32 && k < 32
    ensures n > 0 || x < TWO_32 ==> (Bit(ShiftImmediate(x, 0, n, carry).value, k) <==> k >= n && Bit(x, k - n))
    ensures n > 0 || x < TWO_32 ==> ShiftImmediate(x, 0, n, carry).value < TWO_32
    ensures Set(ShiftImmediate(x, 0, n, carry).carry) <==> if n == 0 then Set(carry) else Bit(x, 32 - n)
  {
    hide Bit, Shr, Shl, Low32;
    if n > 0 {
      BitOfLow(Shl(x, n), k);
      BitOfShl(x, n, k);
      DigitOfShr(x, 32 - n);
    }
  }

  /** `(x >> n) & 1` */
  lemma DigitOfShr(x: nat, n: nat)
    ensures Shr(x, n) % 2 == 1 <==> Bit(x, n)
  {
    BitOfShr(x, n, 0);
  }

  lemma RightBits(x: word, n: nat, carry: bit, k: nat)
    requires n < 32 && k < 32
    ensures Bit(ShiftImmediate(x, 1, n, carry).value, k) <==> n > 0 && k + n < 32 && Bit(x, k + n)
    ensures ShiftImmediate(x, 1, n, carry).value < TWO_32
    ensures Set(ShiftImmediate(x, 1, n, carry).carry) <==> Bit(x, if n == 0 then 31 else n - 1)
  {
    Pow2Words();
    BitIsDigit(x);
    ZeroBits(k);
    hide Bit, Shr, Pow2;
    if n > 0 {
      BitOfShr(x, n, k);
      DigitOfShr(x, n - 1);
      ShrSmaller(x, n);
      if k + n >= 32 {
        BitAbove(x, 32, n + k);
      }
    }
  }

  lemma {:induction false} ShrSmaller(x: nat, n: nat)
    ensures Shr(x, n) <= x
    decreases n
  {
    if n > 0 { ShrSmaller(x / 2, n - 1); }
  }

  lemma ArithmeticBits(x: word, n: nat, carry: bit, k: nat)
    requires n < 32 && k < 32
    ensures Bit(ShiftImmediate(x, 2, n, carry).value, k)
            <==> if n == 0 || k == 31 then Bit(x, 31) else k + n < 32 && Bit(x, k + n)
    ensures ShiftImmediate(x, 2, n, carry).value < TWO_32 <==> n < 2 || x < SIGN_BIT
    ensures Set(ShiftImmediate(x, 2, n, carry).carry) <==> Bit(x, if n == 0 then 31 else n - 1)
  {
    BitIsDigit(x);
    SignTest(x);
    SignBitIsBit31(x);
    hide Bit, Shr, And, ArmAsr;
    if n > 0 {
      DigitOfShr(x, n - 1);
      ArmAsrBits(x, n, k);
    } else if x >= SIGN_BIT {
      AllOnes(k);
    } else {
      ZeroBits(k);
    }
  }

  lemma AllOnes(k: nat)
    requires k < 32
    ensures Bit(0xFFFF_FFFF, k)
  {
    BitOfNot(0, k);
    ZeroBits(k);
  }

  lemma ArmAsrBits(x: word, n: nat, k: nat)
    requires 0 < n < 32 && k < 32
    ensures Bit(ArmAsr(x, n), k) <==> if k == 31 then Bit(x, 31) else k + n < 32 && Bit(x, k + n)
    ensures ArmAsr(x, n) < TWO_32 <==> n < 2 || x < SIGN_BIT
  {
    Pow2Words();
    SignTest(x);
    SignBitIsBit31(x);
    hide Bit, Shr, And, Or, Pow2;
    BitOfShr(x, n, k);
    if k + n >= 32 {
      BitAbove(x, 32, n + k);
    }
    if x >= SIGN_BIT {
      NegativeAsr(x, n, k);
    } else {
      OrZero(Shr(x, n));
      ShrSmaller(x, n);
    }
  }

  lemma NegativeAsr(x: word, n: nat, k: nat)
    requires 0 < n < 32 && k < 32 && x >= SIGN_BIT
    ensures Bit(ArmAsr(x, n), k) <==> Bit(Shr(x, n), k) || k == 31
    ensures ArmAsr(x, n) < TWO_32 <==> n < 2
  {
    Pow2Words();
    SignTest(x);
    hide Bit, Shr, And, Or, Pow2, Shl;
    var ones := Pow2(n) - 1;
    ShrOnes(32, 32 - n);
    ShlSign(ones, 31);
    assert ArmAsr(x, n) == Or(Shr(x, n), Shl(ones, 31));
    OrBit(Shr(x, n), Shl(ones, 31), k);
    BitOfShl(ones, 31, k);
    OnesOdd(n);
    OrAtLeast(Shr(x, n), Shl(ones, 31));
    if n == 1 {
      Pow2Small();
      ShrSmaller(x, n);
      OrBelow(Shr(x, n), Shl(ones, 31), 32);
    } else {
      Pow2Monotone(2, n);
      Pow2Small();
      Pow2Step(2);
    }
  }

  lemma OnesOdd(n: nat)
    requires n > 0
    ensures Pow2(n) > 1 && Bit(Pow2(n) - 1, 0)
  {
    hide Bit;
    var p := Pow2(n - 1);
    DivUnique(2 * p - 1, 2, p - 1, 1);
    LowestBit(2 * p - 1);
  }

  lemma {:induction false} OrAtLeast(a: nat, b: nat)
    ensures Or(a, b) >= b
    decreases a
  {
    if a != 0 && b != 0 {
      OrAtLeast(a / 2, b / 2);
    }
  }

  lemma RotatedBits(x: word, n: nat, carry: bit, k: nat)
    requires n < 32 && k < 32
    ensures Bit(ShiftImmediate(x, 3, n, carry).value, k)
            <==> if n > 0 then Bit(x, (k + n) % 32) else if k == 31 then Set(carry) else Bit(x, k + 1)
    ensures ShiftImmediate(x, 3, n, carry).value < TWO_32
    ensures Set(ShiftImmediate(x, 3, n, carry).carry) <==> Bit(x, if n == 0 then 0 else n - 1)
  {
    if n > 0 {
      DigitOfShr(x, n - 1);
      BitOfRotation(x, n, k);
    } else {
      ThroughCarry(x, carry, k);
    }
    hide Bit, Shr, Shl, Or, Low32;
  }

  lemma ThroughCarry(x: word, carry: bit, k: nat)
    requires k < 32
    ensures Bit(Low32(Or(0x8000_0000 * carry, x / 2)), k) <==> if k == 31 then Set(carry) else Bit(x, k + 1)
  {
    Pow2Words();
    BitOfLow(Or(0x8000_0000 * carry, x / 2), k);
    OrBit(0x8000_0000 * carry, x / 2, k);
    PowBit(31, k);
    ZeroBits(k);
    if k == 31 {
      BitAbove(x, 32, 32);
    }
    assert Bit(x, k + 1) == Bit(x / 2, k);
    hide Bit, Or, Pow2, Low32;
  }

  /** The operand is what its bits say. */
  lemma ShifterBits(s: CpuState, instr: word, k: nat)
    requires WordSource(s, instr) && k < 32
    ensures var o := Shifter(s, DecodeData(instr));
            && (Bit(o.value, k) <==> OperandBit(s, instr, k))
            && (o.value < TWO_32 <==> !Wide(s, instr))
            && (Set(o.carry) <==> CarryOut(s, instr))
  {
    hide Bit, ShiftImmediate, RotateImmediate, Operand, FlagC;
    var c := FlagC(s.cpsr);
    FlagBits(s.cpsr);
    OperandFields(instr);
    if IsImmediate(instr) {
      ImmediateBits(instr % 0x100, instr / 0x100 % 16 * 2, c, k);
    } else {
      var x, n := Source(s, instr), Distance(instr);
      LeftBits(x, n, c, k);
      RightBits(x, n, c, k);
      ArithmeticBits(x, n, c, k);
      RotatedBits(x, n, c, k);
    }
  }

  /** The fields of the low twelve bits are fields of the whole word. */
  lemma OperandFields(instr: word)
    ensures var low := instr % 0x1000;
            && low % 0x100 == instr % 0x100 && low / 0x100 % 16 == instr / 0x100 % 16
            && low % 16 == instr % 16 && low / 0x20 % 4 == instr / 0x20 % 4 && low / 0x80 % 0x20 == instr / 0x80 % 32
  {
    FieldOfLow(instr, 0x100, 16);
    FieldOfLow(instr, 0x80, 32);
    FieldOfLow(instr, 0x20, 0x80);
    FieldOfLow(instr, 16, 0x100);
    SmallField(instr / 0x20, instr % 0x1000 / 0x20);
  }

  lemma SmallField(x: nat, y: nat)
    requires x % 0x80 == y % 0x80
    ensures x % 4 == y % 4
  {
    FourOf(x);
    FourOf(y);
  }

  lemma FourOf(x: nat)
    ensures x % 4 == x % 0x80 % 4
  {
    var a, r := x / 0x80, x % 0x80;
    DivUnique(x, 4, 0x20 * a + r / 4, r % 4);
  }

  lemma FieldOfLow(x: nat, p: nat, q: nat)
    requires p > 0 && q > 0 && p * q == 0x1000
    ensures x % 0x1000 / p % q == x / p % q && x % 0x1000 % p == x % p
  {
    var h, low := x / 0x1000, x % 0x1000;
    var a, r := low / p, low % p;
    assert low == p * a + r;
    Multiple(p, q, h, a);
    DivUnique(x, p, q * h + a, r);
    DivOfSum(h, a, q);
  }

  lemma Multiple(p: nat, q: nat, h: nat, a: nat)
    ensures p * q * h + p * a == p * (q * h + a)
  {
    assert p * q * h == p * (q * h);
  }

  // ----- the logical operations -----

  function OpOf(instr: word): (op: nat)
    ensures op < 16
  {
    instr / 0x20_0000 % 16
  }

  function RnOf(instr: word): (r: nat)
    ensures r < 16
  {
    instr / 0x1_0000 % 16
  }

  function RdOf(instr: word): (r: nat)
    ensures r < 16
  {
    instr / 0x1000 % 16
  }

  predicate SetsFlags(instr: word) { instr / 0x10_0000 % 2 == 1 }

  /** AND, EOR, TST, TEQ, ORR, MOV, BIC and MVN. */
  predicate IsLogic(op: nat) {
    op in {0x0, 0x1, 0x8, 0x9, 0xC, 0xD, 0xE, 0xF}
  }

  predicate LogicBit(op: nat, p: bool, q: bool)
    requires IsLogic(op)
  {
    if op == 0x0 || op == 0x8 then p && q
    else if op == 0x1 || op == 0x9 then p != q
    else if op == 0xC then p || q
    else if op == 0xD then q
    else if op == 0xE then p && !q
    else !q
  }

  lemma LogicBits(op: nat, a: word, operand: Shifted, cpsr: word, k: nat)
    requires IsLogic(op) && k < 32
    ensures var o := ArmAlu(op, a, operand, cpsr);
            && (Bit(Low32(o.result), k) <==> LogicBit(op, Bit(a, k), Bit(operand.value, k)))
            && (Bit(o.result, k) <==> LogicBit(op, Bit(a, k), Bit(operand.value, k)))
            && o.c == operand.carry && o.v == FlagV(cpsr)
  {
    var b := operand.value;
    BitOfLow(ArmAlu(op, a, operand, cpsr).result, k);
    AndBit(a, b, k);
    OrBit(a, b, k);
    XorBit(a, b, k);
    BitOfLow(b, k);
    BitOfNot(Low32(b), k);
    AndBit(a, Not32(Low32(b)), k);
    hide Bit, And, Or, Xor, Low32, Not32, FlagC, FlagV;
  }

  /** A result is zero when its low word is, unless an exclusive or met an operand of more than 32 bits. */
  lemma LogicZero(op: nat, a: word, operand: Shifted, cpsr: word)
    requires IsLogic(op) && (operand.value < TWO_32 || Bit(operand.value, 31))
    ensures var r := ArmAlu(op, a, operand, cpsr).result;
            r == 0 <==> Low32(r) == 0 && !((op == 0x1 || op == 0x9) && operand.value >= TWO_32)
  {
    hide Bit, And, Or, Xor, Pow2, LogicBit, FlagC, FlagV, Not32;
    var b := operand.value;
    Pow2Words();
    LogicBits(op, a, operand, cpsr, 31);
    ZeroBits(31);
    if op == 0x0 || op == 0x8 {
      AndBelow(a, b);
    } else if op == 0xE {
      AndBelow(a, Not32(Low32(b)));
    } else if op == 0x1 || op == 0x9 {
      XorBelow(a, b, 32);
    } else if op == 0xC {
      OrLow(a, b);
    } else if op == 0xD {
      HighNegative(b);
    }
  }

  lemma OrLow(a: word, b: nat)
    requires b < TWO_32 || Bit(b, 31)
    ensures Or(a, b) == 0 <==> Low32(Or(a, b)) == 0
  {
    hide Bit, Or, Pow2;
    Pow2Words();
    ZeroBits(31);
    OrBit(a, b, 31);
    HighNegative(Or(a, b));
    if b < TWO_32 {
      OrBelow(a, b, 32);
    }
  }

  /** With bit 31 set neither a number nor its low word is zero. */
  lemma HighNegative(x: nat)
    ensures Bit(x, 31) ==> x != 0 && Low32(x) != 0
  {
    ZeroBits(31);
    BitOfLow(x, 31);
    hide Bit, Low32;
  }

  /** Everything but one register, the program counter and the CPSR is as before. */
  predicate Only(s: CpuState, t: CpuState, rd: nat) {
    && t.spsr == s.spsr && t.mode == s.mode && t.banks == s.banks && t.mem == s.mem && t.regs[15] == s.regs[15] + 4
    && forall j :: 0 <= j < 15 && j != rd ==> t.regs[j] == s.regs[j]
  }

  lemma DataFieldsOf(instr: word)
    ensures var f := DecodeData(instr);
            f.op == OpOf(instr) && f.rn == RnOf(instr) && f.rd == RdOf(instr) && f.setFlags == SetsFlags(instr)
  {
  }

  /** The state after an operation into a register other than r15. */
  lemma DataUnfold(s: CpuState, instr: word)
    requires RdOf(instr) < 15
    ensures var o := ArmAlu(OpOf(instr), Operand(s, RnOf(instr)), Shifter(s, DecodeData(instr)), s.cpsr);
            var t, test := DataProcessing(s, DecodeData(instr)), 8 <= OpOf(instr) <= 0xB;
            && Only(s, t, RdOf(instr))
            && t.regs[RdOf(instr)] == (if test then s.regs[RdOf(instr)] else Low32(o.result))
            && t.cpsr == if SetsFlags(instr) || test then
                           SetFlags(s.cpsr, o.result, o.c, if IsLogic(OpOf(instr)) then FlagV(s.cpsr) else o.v)
                         else s.cpsr
  {
    DataFieldsOf(instr);
    hide Operand, Shifter, ArmAlu, SetFlags, FlagV, DecodeData, OpOf, RnOf, RdOf, SetsFlags;
  }

  /** Bit `k` of a result. */
  predicate ResultBit(s: CpuState, instr: word, r: word, k: nat)
    requires IsLogic(OpOf(instr))
  {
    Bit(r, k) <==> LogicBit(OpOf(instr), Bit(Operand(s, RnOf(instr)), k), OperandBit(s, instr, k))
  }

  /** Each bit of the result is that operation on the bits of the operands; N and Z are the result's, C is
      the shifter's carry, V stays; TST and TEQ write no register.  Z misses one case: an exclusive or
      with a negative word shifted arithmetically is never zero. */
  predicate LogicDone(s: CpuState, instr: word, t: CpuState, r: word)
    requires IsLogic(OpOf(instr))
  {
    var rd, op := RdOf(instr), OpOf(instr);
    && (forall k: nat :: k < 32 ==> ResultBit(s, instr, r, k))
    && Only(s, t, rd) && t.regs[rd] == (if op == 0x8 || op == 0x9 then s.regs[rd] else r)
    && if SetsFlags(instr) || op == 0x8 || op == 0x9 then
         FlagsAre(s.cpsr, t.cpsr, Bit(r, 31), r == 0 && !((op == 0x1 || op == 0x9) && Wide(s, instr)),
                  CarryOut(s, instr), Bit(s.cpsr, 28))
       else t.cpsr == s.cpsr
  }

  lemma LogicalLaw(s: CpuState, instr: word) returns (r: word)
    requires IsLogic(OpOf(instr)) && RdOf(instr) < 15
    requires WordSource(s, instr) && Operand(s, RnOf(instr)) < TWO_32
    ensures LogicDone(s, instr, DataProcessing(s, DecodeData(instr)), r)
  {
    var op, a, operand := OpOf(instr), Operand(s, RnOf(instr)), Shifter(s, DecodeData(instr));
    var o := ArmAlu(op, a, operand, s.cpsr);
    r := Low32(o.result);
    hide Bit, Operand, Shifter, DecodeData, ArmAlu, SetFlags, FlagsAre, DataProcessing, OpOf, RnOf, RdOf, SetsFlags, Low32,
         OperandBit, CarryOut, Wide, Only, LogicBit, FlagV, WordSource;
    DataUnfold(s, instr);
    forall k: nat | k < 32
      ensures ResultBit(s, instr, r, k)
    {
      ShifterBits(s, instr, k);
      LogicBits(op, a, operand, s.cpsr, k);
    }
    FlagBits(s.cpsr);
    LogicFlags(s, instr, operand);
  }

  lemma LogicFlags(s: CpuState, instr: word, operand: Shifted)
    requires IsLogic(OpOf(instr)) && operand == Shifter(s, DecodeData(instr))
    requires WordSource(s, instr) && Operand(s, RnOf(instr)) < TWO_32
    ensures var op := OpOf(instr);
            var o := ArmAlu(op, Operand(s, RnOf(instr)), operand, s.cpsr);
            FlagsAre(s.cpsr, SetFlags(s.cpsr, o.result, o.c, FlagV(s.cpsr)), Bit(Low32(o.result), 31),
                     Low32(o.result) == 0 && !((op == 0x1 || op == 0x9) && Wide(s, instr)), CarryOut(s, instr),
                     Bit(s.cpsr, 28))
  {
    hide Bit, Operand, Shifter, DecodeData, ArmAlu, SetFlags, OpOf, RnOf, Low32, OperandBit, CarryOut, Wide, FlagV, LogicBit,
         WordSource;
    var op, a := OpOf(instr), Operand(s, RnOf(instr));
    var o := ArmAlu(op, a, operand, s.cpsr);
    ShifterBits(s, instr, 31);
    WideNegative(s, instr);
    LogicBits(op, a, operand, s.cpsr, 31);
    LogicZero(op, a, operand, s.cpsr);
    FlagBits(s.cpsr);
    SetFlagsMeans(s.cpsr, o.result, o.c, FlagV(s.cpsr));
  }

  lemma WideNegative(s: CpuState, instr: word)
    requires WordSource(s, instr)
    ensures Wide(s, instr) ==> OperandBit(s, instr, 31)
  {
    if Wide(s, instr) {
      SignBitIsBit31(Source(s, instr));
    }
    hide Bit, Operand;
  }

  // ----- sums and differences -----

  /** The number an arithmetic operation stands for, before it is cut to 32 bits. */
  function Exact(op: nat, a: int, b: int, c: nat): int
    requires !IsLogic(op) && op < 16
  {
    match op
    case 0x2 => a - b
    case 0x3 => b - a
    case 0x4 => a + b
    case 0x5 => a + b + c
    case 0x6 => a - b - (1 - c)
    case 0x7 => b - a - (1 - c)
    case 0xA => a - b
    case _ => a + b
  }

  predicate IsSum(op: nat) { op in {0x4, 0x5, 0xB} }

  /** SUB, RSB, ADD, ADC, SBC, RSC, CMP and CMN on numbers: the result modulo 2^32, C the carry of a sum
      or the absence of a borrow, V signed overflow; CMP and CMN write no register. */
  predicate ArithmeticDone(s: CpuState, instr: word, t: CpuState, b: word)
    requires !IsLogic(OpOf(instr))
  {
    var rd, op, a, c := RdOf(instr), OpOf(instr), Operand(s, RnOf(instr)), if Bit(s.cpsr, 29) then 1 else 0;
    a < TWO_32 ==>
      var x, r := Exact(op, a, b, c), Low32(Exact(op, a, b, c));
      && Only(s, t, rd) && t.regs[rd] == (if op == 0xA || op == 0xB then s.regs[rd] else r)
      && if SetsFlags(instr) || op == 0xA || op == 0xB then
           FlagsAre(s.cpsr, t.cpsr, r >= SIGN_BIT, r == 0, if IsSum(op) then x >= TWO_32 else x >= 0,
                    OutOfRange(Exact(op, Signed(a), Signed(b), c)))
         else t.cpsr == s.cpsr
  }

  lemma SumMeans(op: nat, a: word, operand: Shifted, cpsr: word)
    requires !IsLogic(op) && op < 16 && operand.value < TWO_32
    ensures var o, c := ArmAlu(op, a, operand, cpsr), FlagC(cpsr);
            var x := Exact(op, a, operand.value, c);
            && o.result == Low32(x) && (o.c == 1 <==> if IsSum(op) then x >= TWO_32 else x >= 0)
            && (o.v == 1 <==> OutOfRange(Exact(op, Signed(a), Signed(operand.value), c)))
  {
    hide AddC, SubC, FlagC, FlagV, Signed, OutOfRange;
    var b, c := operand.value, FlagC(cpsr);
    if IsSum(op) {
      AddCMeans(a, b, if op == 0x5 then c else 0);
    } else if op == 0x3 || op == 0x7 {
      SubCMeans(b, a, if op == 0x7 then c else 1);
    } else {
      SubCMeans(a, b, if op == 0x6 then c else 1);
    }
    WrapOnce(Exact(op, a, b, c));
  }

  lemma ArithmeticLaw(s: CpuState, instr: word) returns (b: word)
    requires !IsLogic(OpOf(instr)) && RdOf(instr) < 15 && WordSource(s, instr) && !Wide(s, instr)
    ensures forall k: nat :: k < 32 ==> (Bit(b, k) <==> OperandBit(s, instr, k))
    ensures ArithmeticDone(s, instr, DataProcessing(s, DecodeData(instr)), b)
  {
    var op, a, operand := OpOf(instr), Operand(s, RnOf(instr)), Shifter(s, DecodeData(instr));
    hide Bit, Operand, Shifter, DecodeData, ArmAlu, SetFlags, FlagsAre, DataProcessing, OpOf, RnOf, RdOf, SetsFlags, Low32,
         OperandBit, CarryOut, Wide, Only, FlagV, FlagC, WordSource, Exact, Signed, OutOfRange;
    ShifterBits(s, instr, 0);
    b := operand.value;
    forall k: nat | k < 32
      ensures Bit(b, k) <==> OperandBit(s, instr, k)
    {
      ShifterBits(s, instr, k);
    }
    if a < TWO_32 {
      DataUnfold(s, instr);
      SumFlags(op, a, operand, s.cpsr);
    }
  }

  lemma SumFlags(op: nat, a: word, operand: Shifted, cpsr: word)
    requires !IsLogic(op) && op < 16 && operand.value < TWO_32
    ensures var o, c, b := ArmAlu(op, a, operand, cpsr), if Bit(cpsr, 29) then 1 else 0, operand.value;
            var x, r := Exact(op, a, b, c), Low32(Exact(op, a, b, c));
            && Low32(o.result) == r
            && FlagsAre(cpsr, SetFlags(cpsr, o.result, o.c, o.v), r >= SIGN_BIT, r == 0,
                        if IsSum(op) then x >= TWO_32 else x >= 0, OutOfRange(Exact(op, Signed(a), Signed(b), c)))
  {
    hide Bit, ArmAlu, SetFlags, FlagsAre, Low32, FlagV, FlagC, Exact, Signed, OutOfRange;
    var o := ArmAlu(op, a, operand, cpsr);
    SumMeans(op, a, operand, cpsr);
    FlagBits(cpsr);
    SetFlagsMeans(cpsr, o.result, o.c, o.v);
    SignBitIsBit31(o.result);
    LowTwice(Exact(op, a, operand.value, FlagC(cpsr)));
  }

  lemma LowTwice(x: int)
    ensures Low32(Low32(x)) == Low32(x)
  {
  }

  // ----- results in r15 -----

  /** An odd number selects Thumb code, an even one is rounded down to the instruction size; with the S
      bit, in a mode that has one, the saved status comes back. */
  predicate PcDone(s: CpuState, restore: bool, r: nat, t: CpuState) {
    && t.regs[15] == (if r % 2 == 1 then r - 1 else if s.Thumb() then r else r - r % 4) && t.mem == s.mem
    && if restore && HasSpsr(s.mode) then t.cpsr == s.spsr[SpsrIndex(s.mode)] && t.mode == t.cpsr % 0x20
       else t.mode == s.mode && t.banks == s.banks && forall j :: 0 <= j < 15 ==> t.regs[j] == s.regs[j]
  }

  /** What goes to r15 is what would go to r0. */
  lemma DataToPc(s: CpuState, instr: word)
    requires RdOf(instr) == 15 && !(8 <= OpOf(instr) <= 0xB)
    ensures PcDone(s, SetsFlags(instr), DataProcessing(s, DecodeData(ToR0(instr))).regs[0],
                   DataProcessing(s, DecodeData(instr)))
  {
    hide PcDone, DataProcessing, DecodeData, ArmAlu, Operand, Shifter, OpOf, RdOf, SetsFlags, RnOf, ToR0;
    SameButRd(instr);
    DataFieldsOf(instr);
    DataFieldsOf(ToR0(instr));
    var f := DecodeData(instr);
    ShifterIgnoresRd(s, f);
    DataUnfold(s, ToR0(instr));
    PcUnfold(s, f);
  }

  lemma ShifterIgnoresRd(s: CpuState, f: DataFields)
    ensures Shifter(s, f.(rd := 0)) == Shifter(s, f)
  {
    hide Operand, ShiftImmediate, RotateImmediate;
  }

  lemma PcUnfold(s: CpuState, f: DataFields)
    requires f.rn < 16 && f.rd == 15 && !(8 <= f.op <= 0xB)
    ensures PcDone(s, f.setFlags, Low32(ArmAlu(f.op, Operand(s, f.rn), Shifter(s, f), s.cpsr).result),
                   DataProcessing(s, f))
  {
    hide Operand, Shifter, ArmAlu, SetFlags, IsMode, BankOf, SpsrIndex, WriteReg, DataV, Low32, Cpu.Thumb;
    var r := ArmAlu(f.op, Operand(s, f.rn), Shifter(s, f), s.cpsr).result;
    RoundPc(s, r);
    LowTwice(r);
  }

  lemma RoundPc(s: CpuState, r: nat)
    ensures var t, v := WriteReg(s, 15, r), Low32(r);
            && t.regs[15] == (if v % 2 == 1 then v - 1 else if s.Thumb() then v else v - v % 4)
            && t.mem == s.mem && t.mode == s.mode && t.banks == s.banks && t.spsr == s.spsr
            && forall j :: 0 <= j < 15 ==> t.regs[j] == s.regs[j]
  {
    hide SetThumb;
  }

  /** The same instruction with r0 as its destination. */
  function ToR0(instr: word): word {
    instr / 0x1_0000 * 0x1_0000 + instr % 0x1000
  }

  lemma SameButRd(instr: word)
    ensures DecodeData(ToR0(instr)) == DecodeData(instr).(rd := 0)
  {
    var high, low := instr / 0x1_0000, instr % 0x1000;
    DivUnique(ToR0(instr), 0x1_0000, high, low);
    DivUnique(ToR0(instr), 0x1000, 0x10 * high, low);
    HighFields(instr);
    HighFields(ToR0(instr));
  }

  lemma HighFields(x: word)
    ensures x / 0x20_0000 == x / 0x1_0000 / 0x20 && x / 0x10_0000 == x / 0x1_0000 / 0x10
    ensures x / 0x200_0000 == x / 0x1_0000 / 0x200
  {
  }
}
