/** What the flags mean: comparisons, and sums and differences of any length. */
module AluLaws {
  import opened Arith
  import opened Words
  import opened Bits
  import opened Alu

  // ----- reading back the flags -----

  lemma FlagsRead(cpsr: word, n: bit, z: bit, c: bit, v: bit)
    ensures var w := WithFlags(cpsr, n, z, c, v);
            && FlagN(w) == n && FlagZ(w) == z && FlagC(w) == c && FlagV(w) == v
            && w % 0x1000_0000 == cpsr % 0x1000_0000
  {
    var low, top := cpsr % 0x1000_0000, v + 2 * c + 4 * z + 8 * n;
    var w := WithFlags(cpsr, n, z, c, v);
    assert w == 0x1000_0000 * top + low;
    DivUnique(w, 0x1000_0000, top, low);
    DivUnique(w, 0x2000_0000, c + 2 * z + 4 * n, 0x1000_0000 * v + low);
    DivUnique(w, 0x4000_0000, z + 2 * n, 0x2000_0000 * c + 0x1000_0000 * v + low);
    DivUnique(w, 0x8000_0000, n, 0x4000_0000 * z + 0x2000_0000 * c + 0x1000_0000 * v + low);
    LowBitOf(v, c + 2 * z + 4 * n);
    LowBitOf(c, z + 2 * n);
    LowBitOf(z, n);
    LowBitOf(n, 0);
  }

  lemma LowBitOf(b: bit, k: nat)
    ensures (b + 2 * k) % 2 == b
  {
  }

  /** The two evaluators agree on codes 0 to 14; only 15, "never", is read differently. */
  lemma EvaluatorsAgreeIff(cond: nat, cpsr: word)
    requires cond < 16
    ensures CheckCondition(cond, cpsr) == CheckConditionThumb(cond, cpsr) <==> cond <= 14
  {
    hide FlagN, FlagZ, FlagC, FlagV;
  }

  /** Codes 2k and 2k + 1 are complements, up to GT and LE. */
  lemma CodesComplement(k: nat, cpsr: word)
    requires k <= 6
    ensures CheckCondition(2 * k + 1, cpsr) <==> !CheckCondition(2 * k, cpsr)
  {
    hide FlagN, FlagZ, FlagC, FlagV;
  }

  // ----- sums and differences, in numbers -----

  /** Is a number out of the range of a signed word? */
  predicate OutOfRange(x: int) {
    !(-0x8000_0000 <= x < 0x8000_0000)
  }

  lemma AddCMeans(a: word, b: word, c: bit)
    ensures var o := AddC(a, b, c);
            && o.result < TWO_32 && o.result + TWO_32 * o.c == a + b + c
            && (o.v == 1 <==> OutOfRange(Signed(a) + Signed(b) + c))
  {
    XorSigns(a, Low32(a + b + c), b, Low32(a + b + c));
    hide And, Xor;
    WrapOnce(a + b + c);
  }

  lemma SubCMeans(a: word, b: word, c: bit)
    ensures var o := SubC(a, b, c);
            && o.result < TWO_32 && o.result - TWO_32 * (1 - o.c) == a - b - (1 - c)
            && (o.v == 1 <==> OutOfRange(Signed(a) - Signed(b) - (1 - c)))
  {
    XorSigns(a, b, a, Low32(a - b - (1 - c)));
    hide And, Xor;
    WrapOnce(a - b - (1 - c));
  }

  lemma WrapOnce(x: int)
    requires -TWO_32 <= x < 2 * TWO_32
    ensures Low32(x) == if x < 0 then x + TWO_32 else if x < TWO_32 then x else x - TWO_32
  {
  }

  // ----- comparisons -----

  /** The CPSR after comparing `a` with `b`. */
  function Compare(cpsr: word, a: nat, b: nat): word {
    var o := SubC(a, b, 1);
    SetFlags(cpsr, o.result, o.c, o.v)
  }

  /** After a comparison the condition codes decide equality, the unsigned order and the signed
      order, exactly. */
  lemma CompareDecides(cpsr: word, a: word, b: word)
    ensures var w := Compare(cpsr, a, b);
            && (CheckCondition(0x0, w) <==> a == b) && (CheckCondition(0x1, w) <==> a != b)
            && (CheckCondition(0x2, w) <==> a >= b) && (CheckCondition(0x3, w) <==> a < b)
            && (CheckCondition(0x8, w) <==> a > b) && (CheckCondition(0x9, w) <==> a <= b)
            && (CheckCondition(0xA, w) <==> Signed(a) >= Signed(b)) && (CheckCondition(0xB, w) <==> Signed(a) < Signed(b))
            && (CheckCondition(0xC, w) <==> Signed(a) > Signed(b)) && (CheckCondition(0xD, w) <==> Signed(a) <= Signed(b))
  {
    SubCMeans(a, b, 1);
    hide SubC, FlagN, FlagZ, FlagC, FlagV, WithFlags;
    var o := SubC(a, b, 1);
    var n := o.result / 0x8000_0000 % 2;
    assert n == BitIf(o.result >= SIGN_BIT);
    FlagsRead(cpsr, n, BitIf(o.result == 0), o.c, o.v);
  }

  // ----- numbers of any length -----

  /** Limbs, the least significant first. */
  function Value(xs: seq<word>): nat {
    if xs == [] then 0 else xs[0] + TWO_32 * Value(xs[1..])
  }

  function Radix(n: nat): (p: nat)
    ensures p > 0
  {
    if n == 0 then 1 else TWO_32 * Radix(n - 1)
  }

  /** The limbs read as a two's complement number. */
  function SignedValue(xs: seq<word>): int
    requires xs != []
  {
    if |xs| == 1 then Signed(xs[0]) else xs[0] + TWO_32 * SignedValue(xs[1..])
  }

  /** Half the range of numbers of `n` limbs. */
  function Half(n: nat): nat
    requires n > 0
  {
    if n == 1 then 0x8000_0000 else TWO_32 * Half(n - 1)
  }

  predicate Overflows(x: int, n: nat)
    requires n > 0
  {
    !(0 - Half(n) <= x < Half(n))
  }

  datatype Isa = Arm | Thumb

  /** Flag-setting ADC (operation 5) or SBC (operation 6) on one limb, in either instruction set. */
  function Limb(isa: Isa, subtract: bool, x: word, y: word, cpsr: word): AluOut {
    var op := if subtract then 6 else 5;
    if isa.Arm? then ArmAlu(op, x, Shifted(y, FlagC(cpsr)), cpsr) else ThumbAlu(op, x, y, cpsr)
  }

  datatype Chain = Chain(limbs: seq<word>, cpsr: word)

  /** One instruction after the other, the carry passing through the CPSR. */
  function RunChain(isa: Isa, subtract: bool, cpsr: word, xs: seq<word>, ys: seq<word>): (r: Chain)
    requires |xs| == |ys|
    ensures |r.limbs| == |xs|
    decreases |xs|
  {
    if xs == [] then Chain([], cpsr)
    else
      var o := Limb(isa, subtract, xs[0], ys[0], cpsr);
      var rest := RunChain(isa, subtract, SetFlags(cpsr, o.result, o.c, o.v), xs[1..], ys[1..]);
      Chain([Low32(o.result)] + rest.limbs, rest.cpsr)
  }

  lemma LimbMeans(isa: Isa, subtract: bool, x: word, y: word, cpsr: word)
    ensures var o, c := Limb(isa, subtract, x, y, cpsr), FlagC(cpsr);
            && Low32(o.result) == o.result
            && FlagC(SetFlags(cpsr, o.result, o.c, o.v)) == o.c && FlagV(SetFlags(cpsr, o.result, o.c, o.v)) == o.v
            && (if subtract then o.result - TWO_32 * (1 - o.c) == x - y - (1 - c)
                else o.result + TWO_32 * o.c == x + y + c)
            && (o.v == 1 <==> OutOfRange(if subtract then Signed(x) - Signed(y) - (1 - c) else Signed(x) + Signed(y) + c))
  {
    var c := FlagC(cpsr);
    AddCMeans(x, y, c);
    SubCMeans(x, y, c);
    hide AddC, SubC, FlagC, FlagV, FlagN, FlagZ, WithFlags, Signed, OutOfRange;
    var o := Limb(isa, subtract, x, y, cpsr);
    FlagsRead(cpsr, o.result / 0x8000_0000 % 2, BitIf(o.result == 0), o.c, o.v);
  }

  lemma ScaledCarry(p: nat, c: bit)
    ensures TWO_32 * (p * c) == (TWO_32 * p) * c
  {
  }

  lemma ChainOne(isa: Isa, subtract: bool, cpsr: word, xs: seq<word>, ys: seq<word>)
    requires |xs| == |ys| && xs != []
    ensures var o := Limb(isa, subtract, xs[0], ys[0], cpsr);
            var rest := RunChain(isa, subtract, SetFlags(cpsr, o.result, o.c, o.v), xs[1..], ys[1..]);
            var r := RunChain(isa, subtract, cpsr, xs, ys);
            && r.limbs[0] == Low32(o.result) && r.limbs[1..] == rest.limbs && r.cpsr == rest.cpsr
  {
    hide Limb, SetFlags;
  }

  /** A chain of ADCs is the sum: its limbs and the final carry make up the whole of it. */
  lemma {:induction false} AdcChainSums(isa: Isa, cpsr: word, xs: seq<word>, ys: seq<word>)
    requires |xs| == |ys|
    ensures var r := RunChain(isa, false, cpsr, xs, ys);
            Value(r.limbs) + Radix(|xs|) * FlagC(r.cpsr) == Value(xs) + Value(ys) + FlagC(cpsr)
    decreases |xs|
  {
    if xs != [] {
      hide Limb, SetFlags, FlagC, RunChain;
      ChainOne(isa, false, cpsr, xs, ys);
      LimbMeans(isa, false, xs[0], ys[0], cpsr);
      var o := Limb(isa, false, xs[0], ys[0], cpsr);
      AdcChainSums(isa, SetFlags(cpsr, o.result, o.c, o.v), xs[1..], ys[1..]);
      ScaledCarry(Radix(|xs| - 1), FlagC(RunChain(isa, false, cpsr, xs, ys).cpsr));
    } else {
      hide FlagC;
    }
  }

  /** A chain of SBCs is the difference: a clear final carry stands for the borrow. */
  lemma {:induction false} SbcChainSubtracts(isa: Isa, cpsr: word, xs: seq<word>, ys: seq<word>)
    requires |xs| == |ys|
    ensures var r := RunChain(isa, true, cpsr, xs, ys);
            Value(r.limbs) - Radix(|xs|) * (1 - FlagC(r.cpsr)) == Value(xs) - Value(ys) - (1 - FlagC(cpsr))
    decreases |xs|
  {
    if xs != [] {
      hide Limb, SetFlags, FlagC, RunChain;
      ChainOne(isa, true, cpsr, xs, ys);
      LimbMeans(isa, true, xs[0], ys[0], cpsr);
      var o := Limb(isa, true, xs[0], ys[0], cpsr);
      SbcChainSubtracts(isa, SetFlags(cpsr, o.result, o.c, o.v), xs[1..], ys[1..]);
      ScaledCarry(Radix(|xs| - 1), 1 - FlagC(RunChain(isa, true, cpsr, xs, ys).cpsr));
    } else {
      hide FlagC;
    }
  }

  lemma HalfIsWhole(x: int, r: int, n: nat)
    requires n > 1 && 0 <= r < TWO_32
    ensures Overflows(r + TWO_32 * x, n) <==> Overflows(x, n - 1)
  {
  }

  lemma ChainNone(isa: Isa, subtract: bool, cpsr: word, xs: seq<word>, ys: seq<word>)
    requires xs == [] && ys == []
    ensures RunChain(isa, subtract, cpsr, xs, ys).cpsr == cpsr
  {
  }

  /** The final V is signed overflow of the whole numbers. */
  lemma {:induction false} ChainOverflow(isa: Isa, subtract: bool, cpsr: word, xs: seq<word>, ys: seq<word>)
    requires |xs| == |ys| && xs != []
    ensures var c := FlagC(cpsr);
            FlagV(RunChain(isa, subtract, cpsr, xs, ys).cpsr) == 1
            <==> Overflows(if subtract then SignedValue(xs) - SignedValue(ys) - (1 - c)
                else SignedValue(xs) + SignedValue(ys) + c, |xs|)
    decreases |xs|
  {
    hide Limb, SetFlags, FlagC, FlagV, Signed, RunChain, OutOfRange;
    ChainOne(isa, subtract, cpsr, xs, ys);
    LimbMeans(isa, subtract, xs[0], ys[0], cpsr);
    var o := Limb(isa, subtract, xs[0], ys[0], cpsr);
    var next := SetFlags(cpsr, o.result, o.c, o.v);
    if |xs| == 1 {
      ChainNone(isa, subtract, next, xs[1..], ys[1..]);
      OneLimbRange(if subtract then Signed(xs[0]) - Signed(ys[0]) - (1 - FlagC(cpsr))
          else Signed(xs[0]) + Signed(ys[0]) + FlagC(cpsr));
    } else {
      ChainOverflow(isa, subtract, next, xs[1..], ys[1..]);
      hide Overflows;
      var x, y := SignedValue(xs[1..]), SignedValue(ys[1..]);
      HalfIsWhole(if subtract then x - y - (1 - o.c) else x + y + o.c, o.result, |xs|);
    }
  }

  lemma OneLimbRange(x: int)
    ensures OutOfRange(x) <==> Overflows(x, 1)
  {
  }

  // ----- arithmetic shifts -----

  /** A number halved `k` times, rounding down. */
  function Halved(v: int, k: nat): int
    decreases k
  {
    if k == 0 then v else Halved(v / 2, k - 1)
  }

  /** The arithmetic shift right: the two's complement value halved, as a word. */
  function TrueAsr(x: word, shift: nat): word {
    Low32(Halved(Signed(x), shift))
  }

  lemma {:induction false} ShrBelow(x: nat, n: nat, k: nat)
    requires x < Pow2(n) && k <= n
    ensures Shr(x, k) < Pow2(n - k)
    decreases k
  {
    if k > 0 { ShrBelow(x / 2, n - 1, k - 1); }
  }

  lemma {:induction false} HalvedIsShr(x: nat, k: nat)
    ensures Halved(x, k) == Shr(x, k)
    decreases k
  {
    if k > 0 { HalvedIsShr(x / 2, k - 1); }
  }

  /** Below zero the halved value is the shifted word less the vacated range. */
  lemma {:induction false} HalvedBelowZero(x: nat, n: nat, k: nat)
    requires k <= n
    ensures Halved(x - Pow2(n), k) == Shr(x, k) - Pow2(n - k)
    decreases k
  {
    if k > 0 {
      assert (x - Pow2(n)) / 2 == x / 2 - Pow2(n - 1);
      HalvedBelowZero(x / 2, n - 1, k - 1);
    }
  }

  lemma {:induction false} ShrOnes(n: nat, k: nat)
    requires k <= n
    ensures Shr(Pow2(n) - 1, k) == Pow2(n - k) - 1
    decreases k
  {
    if k > 0 {
      assert (Pow2(n) - 1) / 2 == Pow2(n - 1) - 1;
      ShrOnes(n - 1, k - 1);
    }
  }

  lemma {:induction false} ShlOnes(n: nat, k: nat)
    ensures Shl(Pow2(n) - 1, k) == Pow2(n + k) - Pow2(k)
    decreases k
  {
    if k > 0 { ShlOnes(n, k - 1); }
  }

  lemma {:induction false} ShlSign(q: nat, k: nat)
    ensures Shl(q, k) == q * Pow2(k)
    decreases k
  {
    if k > 0 {
      ShlSign(q, k - 1);
      assert q * (2 * Pow2(k - 1)) == 2 * (q * Pow2(k - 1));
    }
  }

  lemma {:induction false} WordPow2(k: nat)
    ensures Pow2(32 + k) == TWO_32 * Pow2(k)
  {
    if k == 0 { Pow2Words(); } else { WordPow2(k - 1); }
  }

  /** Or-ing in bits above those of the other operand adds them. */
  lemma {:induction false} OrAbove(a: nat, k: nat, q: nat)
    requires a < Pow2(k)
    ensures Or(a, Shl(q, k)) == a + Shl(q, k)
    decreases k
  {
    if k > 0 && a != 0 && Shl(q, k) != 0 {
      OrAbove(a / 2, k - 1, q);
    }
  }

  lemma SignTest(x: word)
    ensures And(x, SIGN_BIT) != 0 <==> x >= SIGN_BIT
  {
    Pow2Words();
    AndPow2(x, 31);
    SignBitIsBit31(x);
  }

  lemma Pow2Step(k: nat)
    requires k > 0
    ensures Pow2(k) == 2 * Pow2(k - 1)
  {
  }

  lemma TrueAsrParts(x: word, shift: nat)
    requires 0 < shift <= 32
    ensures Shr(x, shift) < Pow2(32 - shift) <= SIGN_BIT
    ensures TrueAsr(x, shift) == if x >= SIGN_BIT then Shr(x, shift) + TWO_32 - Pow2(32 - shift) else Shr(x, shift)
  {
    hide Pow2, Shr, Halved;
    Pow2Words();
    ShrBelow(x, 32, shift);
    Pow2Monotone(32 - shift, 31);
    if x >= SIGN_BIT {
      HalvedBelowZero(x, 32, shift);
    } else {
      HalvedIsShr(x, shift);
    }
  }

  lemma ThumbAsrBelow(x: word, shift: nat)
    requires 0 < shift <= 32
    ensures ThumbAsr(x, shift) == TrueAsr(x, shift)
  {
    hide Pow2, Shr, Shl, Or, And, TrueAsr, Low32;
    var k := 32 - shift;
    TrueAsrParts(x, shift);
    SignTest(x);
    if x >= SIGN_BIT {
      Pow2Words();
      ShlOnes(32, k);
      WordPow2(k);
      ShlOnes(shift, k);
      OrAbove(Shr(x, shift), k, Pow2(shift) - 1);
      WholeTurns(Pow2(k));
    }
  }

  lemma {:induction false} HalvedSign(v: int, k: nat)
    requires -1 <= v <= 0
    ensures Halved(v, k) == v
    decreases k
  {
    if k > 0 { HalvedSign(v, k - 1); }
  }

  lemma {:induction false} HalvedAgain(v: int, j: nat, k: nat)
    ensures Halved(v, j + k) == Halved(Halved(v, j), k)
    decreases j
  {
    if j > 0 { HalvedAgain(v / 2, j - 1, k); }
  }

  /** From 31 places on only the sign is left. */
  lemma OnlySign(x: word, shift: nat)
    requires shift >= 31
    ensures Halved(Signed(x), shift) == if x >= SIGN_BIT then -1 else 0
  {
    hide Pow2, Shr, Halved;
    Pow2Words();
    Pow2Small();
    HalvedAgain(Signed(x), 31, shift - 31);
    if x >= SIGN_BIT {
      HalvedBelowZero(x, 32, 31);
      ShrTop(x);
      HalvedSign(-1, shift - 31);
    } else {
      HalvedIsShr(x, 31);
      ShrBelow(x, 31, 31);
      HalvedSign(0, shift - 31);
    }
  }

  lemma Pow2Small()
    ensures Pow2(0) == 1 && Pow2(1) == 2
  {
  }

  lemma ShrTop(x: word)
    requires x >= SIGN_BIT
    ensures Shr(x, 31) == 1
  {
    hide Pow2, Shr;
    Pow2Words();
    ShrBelow(x, 32, 31);
    Pow2Small();
    SignBitIsBit31(x);
    BitOfShr(x, 31, 0);
  }

  /** The last bit to be shifted out. */
  lemma HalvedParity(x: word, k: nat)
    requires k < 32
    ensures Halved(Signed(x), k) % 2 == Shr(x, k) % 2
  {
    hide Shr, Halved, Pow2;
    if x >= SIGN_BIT {
      Pow2Words();
      HalvedBelowZero(x, 32, k);
      Pow2Step(32 - k);
      SameParity(Shr(x, k), Pow2(31 - k));
    } else {
      HalvedIsShr(x, k);
    }
  }

  lemma SameParity(x: nat, y: nat)
    ensures (x - 2 * y) % 2 == x % 2
  {
  }

  /** Thumb code shifts arithmetically, as it should, by whatever amount is in Rs: the result is the
      two's complement value halved that often, and the carry the last bit shifted out. */
  lemma ThumbAsrRight(a: word, b: nat, cpsr: word)
    ensures var o, shift := ThumbAlu(4, a, b, cpsr), b % 0x100;
            && o.result == TrueAsr(a, shift) && o.v == FlagV(cpsr)
            && o.c == if shift == 0 then FlagC(cpsr) else Halved(Signed(a), shift - 1) % 2
  {
    hide Shr, And, ThumbAsr, FlagC, FlagV, Halved;
    var shift := b % 0x100;
    if shift == 0 {
      NotShifted(a);
    } else if shift < 32 {
      ThumbAsrBelow(a, shift);
      HalvedParity(a, shift - 1);
    } else {
      SignTest(a);
      OnlySign(a, shift);
      OnlySign(a, shift - 1);
    }
  }

  lemma NotShifted(x: word)
    ensures TrueAsr(x, 0) == x
  {
  }

  lemma WholeTurns(p: nat)
    requires 0 < p <= SIGN_BIT
    ensures Low32(TWO_32 * p - p) == TWO_32 - p
  {
    DivUnique(TWO_32 * p - p, TWO_32, p - 1, TWO_32 - p);
  }

  lemma HalfTurns(a: nat, m: nat)
    requires a < SIGN_BIT
    ensures Low32(a + SIGN_BIT * (2 * m + 1)) == a + SIGN_BIT
  {
    DivUnique(a + SIGN_BIT * (2 * m + 1), TWO_32, m, a + SIGN_BIT);
  }

  lemma ArmAsrParts(x: word, shift: nat)
    requires 0 < shift < 32
    ensures Low32(ArmAsr(x, shift)) == if x >= SIGN_BIT then Shr(x, shift) + SIGN_BIT else Shr(x, shift)
  {
    hide Pow2, Shr, Shl, Or, And, TrueAsr, Low32;
    TrueAsrParts(x, shift);
    SignTest(x);
    Pow2Words();
    if x >= SIGN_BIT {
      var ones := Pow2(shift) - 1;
      ShrOnes(32, 32 - shift);
      ShlSign(ones, 31);
      OrAbove(Shr(x, shift), 31, ones);
      Pow2Step(shift);
      HalfTurns(Shr(x, shift), Pow2(shift - 1) - 1);
    } else {
      OrZero(Shr(x, shift));
      LowSmall(Shr(x, shift));
    }
  }

  lemma LowSmall(x: nat)
    requires x < TWO_32
    ensures Low32(x) == x
  {
  }

  lemma OrZero(a: nat)
    ensures Or(a, 0) == a
  {
  }

  lemma ArmAsrBelow(x: word, shift: nat)
    requires 0 < shift < 32
    ensures Low32(ArmAsr(x, shift)) == TrueAsr(x, shift) <==> x < SIGN_BIT || shift == 1
  {
    hide Pow2, Shr, ArmAsr, TrueAsr, Low32;
    TrueAsrParts(x, shift);
    ArmAsrParts(x, shift);
    Pow2Words();
    if shift > 1 {
      Pow2Monotone(32 - shift, 30);
      Pow2Step(31);
    }
  }

  /** ARM code shifts a register arithmetically by an immediate, in which zero stands for 32, just when
      the value is not negative or the distance is one or 32: further bits of the sign are not filled
      in. */
  lemma ArmAsrRightIff(x: word, shift: nat, carry: bit)
    requires shift < 32
    ensures Low32(ShiftImmediate(x, 2, shift, carry).value) == TrueAsr(x, if shift == 0 then 32 else shift)
            <==> x < SIGN_BIT || shift <= 1
  {
    hide And, ArmAsr, Halved, Shr;
    if shift > 0 {
      ArmAsrBelow(x, shift);
    } else {
      SignTest(x);
      OnlySign(x, 32);
    }
  }
}
