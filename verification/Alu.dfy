/** The condition flags, the condition codes, and the arithmetic of both instruction sets. */
module Alu {
  import opened Words

  type bit = x: int | 0 <= x < 2

  function BitIf(b: bool): bit {
    if b then 1 else 0
  }

  // ----- flags in the CPSR -----

  function FlagN(cpsr: word): bit { cpsr / 0x8000_0000 % 2 }
  function FlagZ(cpsr: word): bit { cpsr / 0x4000_0000 % 2 }
  function FlagC(cpsr: word): bit { cpsr / 0x2000_0000 % 2 }
  function FlagV(cpsr: word): bit { cpsr / 0x1000_0000 % 2 }

  /** `(cpsr & 0x0FFFFFFF) | (n << 31) | (z << 30) | (c << 29) | (v << 28)` */
  function WithFlags(cpsr: word, n: bit, z: bit, c: bit, v: bit): word {
    cpsr % 0x1000_0000 + 0x1000_0000 * v + 0x2000_0000 * c + 0x4000_0000 * z + 0x8000_0000 * n
  }

  /** The flags of a result, with the given carry and overflow. */
  function SetFlags(cpsr: word, result: nat, c: bit, v: bit): word {
    WithFlags(cpsr, result / 0x8000_0000 % 2, BitIf(result == 0), c, v)
  }

  // ----- the two condition evaluators -----

  /** `check_condition`, for ARM instructions. */
  function CheckCondition(cond: nat, cpsr: word): bool {
    var n, z, c, v := FlagN(cpsr), FlagZ(cpsr), FlagC(cpsr), FlagV(cpsr);
    if cond == 0xE || cond == 0xF then true
    else if cond == 0x0 then z != 0
    else if cond == 0x1 then z == 0
    else if cond == 0x2 then c != 0
    else if cond == 0x3 then c == 0
    else if cond == 0x4 then n != 0
    else if cond == 0x5 then n == 0
    else if cond == 0x6 then v != 0
    else if cond == 0x7 then v == 0
    else if cond == 0x8 then c != 0 && z == 0
    else if cond == 0x9 then c == 0 || z != 0
    else if cond == 0xA then n == v
    else if cond == 0xB then n != v
    else if cond == 0xC then z == 0 && n == v
    else if cond == 0xD then z != 0 || n != v
    else true
  }

  /** `_check_condition`, for Thumb conditional branches. */
  function CheckConditionThumb(cond: nat, cpsr: word): bool {
    var n, z, c, v := FlagN(cpsr), FlagZ(cpsr), FlagC(cpsr), FlagV(cpsr);
    if cond == 0x0 then z == 1
    else if cond == 0x1 then z == 0
    else if cond == 0x2 then c == 1
    else if cond == 0x3 then c == 0
    else if cond == 0x4 then n == 1
    else if cond == 0x5 then n == 0
    else if cond == 0x6 then v == 1
    else if cond == 0x7 then v == 0
    else if cond == 0x8 then c == 1 && z == 0
    else if cond == 0x9 then c == 0 || z == 1
    else if cond == 0xA then n == v
    else if cond == 0xB then n != v
    else if cond == 0xC then n == v && z == 0
    else if cond == 0xD then n != v || z == 1
    else cond == 0xE
  }

  // ----- sums and differences -----

  datatype AluOut = AluOut(result: nat, c: bit, v: bit)

  /** The carry-in sum: ADD, ADC, CMN. */
  function AddC(a: nat, b: nat, c: bit): AluOut {
    var raw := a + b + c;
    var r := Low32(raw);
    AluOut(r, BitIf(raw > 0xFFFF_FFFF), BitIf(And(And(Xor(a, r), Xor(b, r)), SIGN_BIT) != 0))
  }

  /** The difference with borrow, which is the complement of the carry: SUB, SBC, RSB, RSC, CMP. */
  function SubC(a: nat, b: nat, c: bit): AluOut {
    var r := Low32(a - b - (1 - c));
    AluOut(r, BitIf(a >= b + (1 - c)), BitIf(And(And(Xor(a, b), Xor(a, r)), SIGN_BIT) != 0))
  }

  // ----- the Thumb ALU -----

  /** `exec_thumb_alu`: operation `op` on Rd = `a` and Rs = `b`. */
  function ThumbAlu(op: nat, a: nat, b: nat, cpsr: word): AluOut {
    var c, v := FlagC(cpsr), FlagV(cpsr);
    var shift := b % 0x100;
    if op == 0x0 then AluOut(And(a, b), c, v)
    else if op == 0x1 then AluOut(Xor(a, b), c, v)
    else if op == 0x2 then
      if shift == 0 then AluOut(a, c, v)
      else if shift < 32 then AluOut(Low32(Shl(a, shift)), Shr(a, 32 - shift) % 2, v)
      else if shift == 32 then AluOut(0, a % 2, v)
      else AluOut(0, 0, v)
    else if op == 0x3 then
      if shift == 0 then AluOut(a, c, v)
      else if shift < 32 then AluOut(Shr(a, shift), Shr(a, shift - 1) % 2, v)
      else if shift == 32 then AluOut(0, a / 0x8000_0000 % 2, v)
      else AluOut(0, 0, v)
    else if op == 0x4 then
      if shift == 0 then AluOut(a, c, v)
      else if shift < 32 then AluOut(ThumbAsr(a, shift), Shr(a, shift - 1) % 2, v)
      else AluOut(if And(a, SIGN_BIT) != 0 then 0xFFFF_FFFF else 0, a / 0x8000_0000 % 2, v)
    else if op == 0x5 then AddC(a, b, c)
    else if op == 0x6 then SubC(a, b, c)
    else if op == 0x7 then
      var turn := b % 0x20;
      if turn == 0 then AluOut(a, a / 0x8000_0000 % 2, v)
      else AluOut(Low32(Or(Shr(a, turn), Shl(a, 32 - turn))), Shr(a, turn - 1) % 2, v)
    else if op == 0x8 then AluOut(And(a, b), c, v)
    else if op == 0x9 then
      var r := Low32(0 - b);
      AluOut(r, BitIf(b == 0), BitIf(And(And(b, r), SIGN_BIT) != 0))
    else if op == 0xA then SubC(a, b, 1)
    else if op == 0xB then AddC(a, b, 0)
    else if op == 0xC then AluOut(Or(a, b), c, v)
    else if op == 0xD then AluOut(Low32(a * b), c, v)
    else if op == 0xE then AluOut(And(a, Not32(Low32(b))), c, v)
    else AluOut(Not32(Low32(b)), c, v)
  }

  /** TST, CMP and CMN only set flags. */
  predicate ThumbTest(op: nat) {
    op == 0x8 || op == 0xA || op == 0xB
  }

  /** Arithmetic shift right in Thumb code: the vacated bits are filled from a shifted mask. */
  function ThumbAsr(a: nat, shift: nat): nat
    requires shift <= 32
  {
    if And(a, SIGN_BIT) != 0 then Or(Shr(a, shift), Low32(Shl(0xFFFF_FFFF, 32 - shift)))
    else Shr(a, shift)
  }

  // ----- the ARM shifter and ALU -----

  datatype Shifted = Shifted(value: nat, carry: bit)

  /** Arithmetic shift right by an immediate in ARM code: a set sign bit is multiplied by a mask of
      `shift` ones. */
  function ArmAsr(x: nat, shift: nat): nat
    requires 0 < shift < 32
  {
    Or(Shr(x, shift), if And(x, SIGN_BIT) != 0 then SIGN_BIT * Shr(0xFFFF_FFFF, 32 - shift) else 0)
  }

  /** A register operand shifted by an immediate. */
  function ShiftImmediate(x: nat, kind: nat, shift: nat, carry: bit): Shifted
    requires shift < 32
  {
    if shift > 0 then
      if kind == 0 then Shifted(Low32(Shl(x, shift)), Shr(x, 32 - shift) % 2)
      else if kind == 1 then Shifted(Shr(x, shift), Shr(x, shift - 1) % 2)
      else if kind == 2 then Shifted(ArmAsr(x, shift), Shr(x, shift - 1) % 2)
      else Shifted(Low32(Or(Shr(x, shift), Shl(x, 32 - shift))), Shr(x, shift - 1) % 2)
    else if kind == 1 then Shifted(0, x / 0x8000_0000 % 2)
    else if kind == 2 then Shifted(if And(x, SIGN_BIT) != 0 then 0xFFFF_FFFF else 0, x / 0x8000_0000 % 2)
    else if kind == 3 then Shifted(Low32(Or(0x8000_0000 * carry, x / 2)), x % 2)
    else Shifted(x, carry)
  }

  /** An eight-bit immediate rotated right by twice the four-bit count. */
  function RotateImmediate(imm: nat, rot: nat, carry: bit): Shifted
    requires rot < 32
  {
    if rot == 0 then Shifted(imm, carry)
    else
      var v := Low32(Or(Shr(imm, rot), Shl(imm, 32 - rot)));
      Shifted(v, v / 0x8000_0000 % 2)
  }

  /** The sixteen data-processing operations on Rn = `a` and the shifted operand. */
  function ArmAlu(op: nat, a: nat, operand: Shifted, cpsr: word): AluOut {
    var b, c, v := operand.value, FlagC(cpsr), FlagV(cpsr);
    if op == 0x2 || op == 0xA then SubC(a, b, 1)
    else if op == 0x3 then SubC(b, a, 1)
    else if op == 0x4 || op == 0xB then AddC(a, b, 0)
    else if op == 0x5 then AddC(a, b, c)
    else if op == 0x6 then SubC(a, b, c)
    else if op == 0x7 then SubC(b, a, c)
    else
      AluOut(if op == 0x0 || op == 0x8 then And(a, b)
             else if op == 0x1 || op == 0x9 then Xor(a, b)
             else if op == 0xC then Or(a, b)
             else if op == 0xD then b
             else if op == 0xE then And(a, Not32(Low32(b)))
             else Not32(Low32(b)),
             operand.carry, v)
  }

  /** TST, TEQ, CMP and CMN only set flags. */
  predicate ArmTest(op: nat) {
    0x8 <= op <= 0xB
  }
}
