/** The Thumb decoder, and as much of the ARM decoder as names its instructions. */
module Decoders {
  import opened Words
  import opened Instructions

  // ----- Thumb -----

  /** The registers below `n` that a list names, lowest first. */
  function ListedBelow(list: nat, n: nat): seq<nat> {
    if n == 0 then [] else ListedBelow(list, n - 1) + if Bit(list, n - 1) then [n - 1] else []
  }

  /** `address + 4 + 2 * offset`, wrapping; the offset has `bits` bits and a sign. */
  function Target(address: word, offset: nat, half: nat): word
    requires offset < 2 * half
  {
    var signed: int := if offset >= half then offset - 2 * half else offset;
    Low32(address + 4 + 2 * signed)
  }

  const SHIFT_NAMES := ["LSL", "LSR", "ASR"]
  const ALU_NAMES := ["AND", "EOR", "LSL", "LSR", "ASR", "ADC", "SBC", "ROR",
                      "TST", "NEG", "CMP", "CMN", "ORR", "MUL", "BIC", "MVN"]
  const REGISTER_OFFSET_NAMES := ["STR", "STRH", "STRB", "LDRSB", "LDR", "LDRH", "LDRB", "LDRSH"]
  const EXTEND_NAMES := ["SXTH", "SXTB", "UXTH", "UXTB"]
  const BRANCH_NAMES := ["BEQ", "BNE", "BCS", "BCC", "BMI", "BPL", "BVS", "BVC",
                         "BHI", "BLS", "BGE", "BLT", "BGT", "BLE", "B"]

  /** Formats 1 to 3. */
  function DecodeLow(hw: half): Decoded
    requires hw < 0x4000
  {
    var rd, imm := hw / 0x100 % 8, hw % 0x100;
    if hw < 0x1800 then
      Decoded(SHIFT_NAMES[hw / 0x800], [Register(hw % 8), Register(hw / 8 % 8), Immediate(hw / 0x40 % 0x20)], true)
    else if hw < 0x2000 then
      var n := hw / 0x40 % 8;
      Decoded(if hw / 0x200 % 2 == 0 then "ADD" else "SUB",
              [Register(hw % 8), Register(hw / 8 % 8), if hw / 0x400 % 2 == 1 then Immediate(n) else Register(n)], true)
    else if hw < 0x2800 then Decoded("MOV", [Register(rd), Immediate(imm)], true)
    else if hw < 0x3000 then Decoded("CMP", [Register(rd), Immediate(imm)], true)
    else Decoded(if hw < 0x3800 then "ADD" else "SUB", [Register(rd), Register(rd), Immediate(imm)], true)
  }

  /** Formats 4 and 5. */
  function DecodeRegisters(hw: half): Decoded
    requires 0x4000 <= hw < 0x4800
  {
    var rd, rs := hw % 8 + 8 * (hw / 0x80 % 2), hw / 8 % 8 + 8 * (hw / 0x40 % 2);
    if hw < 0x4400 then Decoded(ALU_NAMES[hw / 0x40 % 16], [Register(hw % 8), Register(hw / 8 % 8)], true)
    else if hw < 0x4500 then Decoded("ADD", [Register(rd), Register(rd), Register(rs)], false)
    else if hw < 0x4600 then Decoded("CMP", [Register(rd), Register(rs)], true)
    else if hw < 0x4700 then Decoded("MOV", [Register(rd), Register(rs)], false)
    else Decoded("BX", [Register(rs)], false)
  }

  /** Formats 6 to 12: single loads and stores, and addresses. */
  function DecodeSingle(hw: half): Decoded
    requires 0x4800 <= hw < 0xB000
  {
    var low, high, load := Register(hw % 8), Register(hw / 0x100 % 8), hw / 0x800 % 2 == 1;
    if hw < 0x5000 then Decoded("LDR", [high, OtherOperand], false)
    else if hw < 0x6000 then Decoded(REGISTER_OFFSET_NAMES[hw / 0x200 % 8], [low, OtherOperand], false)
    else if hw < 0x7000 then Decoded(if load then "LDR" else "STR", [low, OtherOperand], false)
    else if hw < 0x8000 then Decoded(if load then "LDRB" else "STRB", [low, OtherOperand], false)
    else if hw < 0x9000 then Decoded(if load then "LDRH" else "STRH", [low, OtherOperand], false)
    else if hw < 0xA000 then Decoded(if load then "LDR" else "STR", [high, OtherOperand], false)
    else Decoded("ADD", [high, Register(if load then 13 else 15), Immediate(4 * (hw % 0x100))], false)
  }

  /** The miscellaneous group, with PUSH and POP. */
  function DecodeMisc(hw: half): Decoded
    requires 0xB000 <= hw < 0xC000
  {
    var op, low := hw / 0x100, hw % 0x100;
    if op == 0xB0 then
      Decoded(if low >= 0x80 then "SUB" else "ADD", [Register(13), Register(13), Immediate(4 * (low % 0x80))], false)
    else if op == 0xB2 then Decoded(EXTEND_NAMES[low / 0x40], [Register(hw % 8), Register(hw / 8 % 8)], false)
    else if op in {0xB4, 0xB5, 0xBC, 0xBD} then
      var load := op >= 0xBC;
      Decoded(if load then "LDMIA" else "STMDB",
              [RegisterList(13, ListedBelow(low, 8) + if op % 2 == 0 then [] else [if load then 15 else 14])], false)
    else if op == 0xB6 then
      if low >= 0x80 then
        Decoded("CPS", (if low / 0x20 % 2 == 1 then [Immediate(1)] else [])
                       + (if low / 0x10 % 2 == 1 then [Immediate(2)] else [])
                       + (if low / 8 % 2 == 1 then [Immediate(4)] else [])
                       + (if low % 16 != 0 then [Immediate(low % 16)] else []), false)
      else Decoded("UNKNOWN", [], false)
    else if op == 0xBE then Decoded("BKPT", [Immediate(low)], false)
    else if op == 0xBF then
      Decoded(if low == 0x10 then "YIELD" else if low == 0x30 then "SEV" else if low == 0x40 then "WFE"
              else if low == 0x50 then "WFI" else if low == 0x70 then "DSB" else if low == 0x80 then "DMB"
              else if low == 0x90 then "ISB" else "NOP", [], false)
    else Decoded("NOP", [], false)
  }

  /** Formats 15 to 19: register lists and branches. */
  function DecodeHigh(hw: half, address: word): Decoded
    requires 0xC000 <= hw
  {
    var cond, low := hw / 0x100 % 16, hw % 0x100;
    if hw < 0xD000 then
      Decoded(if hw / 0x800 % 2 == 1 then "LDMIA" else "STMIA", [RegisterList(hw / 0x100 % 8, ListedBelow(low, 8))], false)
    else if hw < 0xE000 then
      if cond == 15 then Decoded("SWI", [Immediate(low)], false)
      else Decoded(BRANCH_NAMES[cond], [Immediate(Target(address, low, 0x80))], false)
    else if hw < 0xF000 then
      if hw / 0x10 == 0xE3F then Decoded("BLX", [Register(hw % 16)], false)
      else Decoded("B", [Immediate(Target(address, hw % 0x800, 0x400))], false)
    else
      var offset := hw % 0x800;
      var signed: int := if offset >= 0x400 then offset - 0x800 else offset;
      if hw < 0xF800 then Decoded("BL_PREFIX", [Immediate(Low32(address + 4 + 0x1000 * signed))], false)
      else Decoded("BL_SUFFIX", [Immediate(2 * offset)], false)
  }

  /** `ThumbDecoder::decode` */
  function DecodeThumb(hw: half, address: word): Decoded {
    if hw < 0x4000 then DecodeLow(hw)
    else if hw < 0x4800 then DecodeRegisters(hw)
    else if hw < 0xB000 then DecodeSingle(hw)
    else if hw < 0xC000 then DecodeMisc(hw)
    else DecodeHigh(hw, address)
  }

  // Which halfwords get which of the three names that the analyses look for.

  predicate IsLoopName(name: string) {
    name == "STMIA" || name == "SUB" || name == "BNE"
  }

  lemma LowNames(hw: half)
    requires hw < 0x4000
    ensures IsLoopName(DecodeLow(hw).opcode) <==> (0x1800 <= hw < 0x2000 && hw / 0x200 % 2 == 1) || 0x3800 <= hw
    ensures IsLoopName(DecodeLow(hw).opcode) ==> DecodeLow(hw).opcode == "SUB"
  {
  }

  lemma RegisterNames(hw: half)
    requires 0x4000 <= hw < 0x4800
    ensures !IsLoopName(DecodeRegisters(hw).opcode)
  {
    assert forall i :: 0 <= i < 16 ==> !IsLoopName(ALU_NAMES[i]);
  }

  lemma SingleNames(hw: half)
    requires 0x4800 <= hw < 0xB000
    ensures !IsLoopName(DecodeSingle(hw).opcode)
  {
    assert forall i :: 0 <= i < 8 ==> !IsLoopName(REGISTER_OFFSET_NAMES[i]);
  }

  lemma MiscNames(hw: half)
    requires 0xB000 <= hw < 0xC000
    ensures IsLoopName(DecodeMisc(hw).opcode) <==> 0xB080 <= hw < 0xB100
    ensures IsLoopName(DecodeMisc(hw).opcode) ==> DecodeMisc(hw).opcode == "SUB"
  {
    hide ListedBelow;
    assert forall i :: 0 <= i < 4 ==> !IsLoopName(EXTEND_NAMES[i]);
  }

  lemma HighNames(hw: half, address: word)
    requires 0xC000 <= hw
    ensures var d := DecodeHigh(hw, address);
            && (IsLoopName(d.opcode) <==> hw < 0xC800 || hw / 0x100 == 0xD1)
            && (d.opcode == "STMIA" <==> hw < 0xC800) && (d.opcode == "BNE" <==> hw / 0x100 == 0xD1)
  {
    hide ListedBelow, Target;
    assert forall i :: 0 <= i < 15 ==> (IsLoopName(BRANCH_NAMES[i]) <==> i == 1) && BRANCH_NAMES[1] == "BNE";
  }

  // ----- ARM -----

  // The names the ARM decoder gives outside block transfers, before any condition suffix.

  const DATA_NAMES := ["AND", "EOR", "SUB", "RSB", "ADD", "ADC", "SBC", "RSC",
                       "TST", "TEQ", "CMP", "CMN", "ORR", "MOV", "BIC", "MVN"]
  const MULTIPLY_NAMES := ["MUL", "MLA", "SMULL", "UMULL", "SMLAL", "UMLAL"]
  const TRANSFER_NAMES := ["LDR", "LDRB", "LDRH", "LDRSB", "LDRSH", "STR", "STRB", "STRH", "SWP", "SWPB"]
  const OTHER_NAMES := ["MRS", "MSR", "SWI", "BX", "BLX", "COPROCESSOR", "UNDEFINED", "UNKNOWN"]
  const LINK_NAMES := ["BLEQ", "BLNE", "BLCS", "BLCC", "BLMI", "BLPL", "BLVS", "BLVC",
                       "BLHI", "BLLS", "BLGE", "BLLT", "BLGT", "BLLE", "BL", "BLAL", "BAL"]

  const ARM_CONDITIONS := ["eq", "ne", "cs", "cc", "mi", "pl", "vs", "vc", "hi", "ls", "ge", "lt", "gt", "le", "", ""]

  predicate IsBlockTransfer(w: word) {
    w / 0x200_0000 % 8 == 4
  }

  /** `decode_block_transfer`: one operand, whatever the list. */
  function DecodeBlockTransfer(w: word): Decoded {
    var pre, up, psr, writeback := w / 0x100_0000 % 2 == 1, w / 0x80_0000 % 2 == 1, w / 0x40_0000 % 2 == 1, w / 0x20_0000 % 2 == 1;
    var rn := w / 0x1_0000 % 16;
    var mode := if rn == 13 then if pre then if up then "EA" else "FD" else if up then "IA" else "DB"
                else if up then "IA" else if pre then "DB" else "DA";
    Decoded((if w / 0x10_0000 % 2 == 1 then "LDM" else "STM") + mode + (if writeback then "!" else "")
            + ARM_CONDITIONS[w / 0x1000_0000],
            [RegisterList(rn, ListedBelow(w % 0x1_0000, 16))], psr)
  }

  /** A name of the list with nothing but lower-case letters behind it. */
  predicate NamedFrom(opcode: string, names: seq<string>) {
    exists i :: 0 <= i < |names| && NamedAs(opcode, names[i])
  }

  predicate NamedAs(opcode: string, base: string) {
    base <= opcode && forall i :: |base| <= i < |opcode| ==> 'a' <= opcode[i] <= 'z'
  }

  /** What `ArmDecoder::decode` can give: a block transfer exactly, anything else by its name. */
  predicate DecodesArm(w: word, d: Decoded) {
    if IsBlockTransfer(w) then d == DecodeBlockTransfer(w)
    else
      || NamedFrom(d.opcode, DATA_NAMES) || NamedFrom(d.opcode, MULTIPLY_NAMES) || NamedFrom(d.opcode, TRANSFER_NAMES)
      || NamedFrom(d.opcode, OTHER_NAMES) || NamedFrom(d.opcode, BRANCH_NAMES) || NamedFrom(d.opcode, LINK_NAMES)
  }

  /** "STMIA" ends in a capital, so it is such a name only as it stands. */
  lemma StoreNamed(names: seq<string>)
    requires forall i :: 0 <= i < |names| ==> names[i] != "STMIA"
    ensures !NamedFrom("STMIA", names)
  {
    assert "STMIA"[4] == 'A';
  }

  /** In ARM state too, an STMIA comes with a single operand. */
  lemma ArmStoreHasOneOperand(w: word, d: Decoded)
    requires DecodesArm(w, d) && d.opcode == "STMIA"
    ensures |d.operands| == 1
  {
    StoreNamed(DATA_NAMES);
    StoreNamed(MULTIPLY_NAMES);
    StoreNamed(TRANSFER_NAMES);
    StoreNamed(OTHER_NAMES);
    StoreNamed(BRANCH_NAMES);
    StoreNamed(LINK_NAMES);
    hide NamedFrom;
  }
}
