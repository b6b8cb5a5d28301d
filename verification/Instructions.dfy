/** Decoded instructions, as the disassembler hands them on. */
module Instructions {
  datatype ArmMode = Arm | Thumb

  /** The operands that the analyses inspect; the other addressing modes are lumped together. */
  datatype Operand =
    | Register(r: nat)
    | Immediate(value: nat)
    | RegisterList(base: nat, registers: seq<nat>)
    | OtherOperand

  datatype Instruction = Instruction(
    address: nat, opcode: string, operands: seq<Operand>, mode: ArmMode,
    raw: nat, setsFlags: bool, width: nat, isData: bool)

  /** What a decoder says of an instruction. */
  datatype Decoded = Decoded(opcode: string, operands: seq<Operand>, setsFlags: bool)
}
