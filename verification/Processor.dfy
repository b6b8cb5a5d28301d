/** The ARM7TDMI interpreter: registers, modes and banks, and the instructions of both sets that the
    laws speak about. */
module Processor {
  import opened Arith
  import opened Words
  import opened Alu
  import opened Memory

  // ----- modes and banks -----

  const USER := 0x10
  const FIQ := 0x11
  const IRQ := 0x12
  const SVC := 0x13
  const ABT := 0x17
  const UND := 0x1B
  const SYSTEM := 0x1F

  predicate IsMode(mode: nat) {
    mode in {USER, FIQ, IRQ, SVC, ABT, UND, SYSTEM}
  }

  /** User and System mode share a bank. */
  function BankOf(mode: nat): (b: nat)
    requires IsMode(mode)
    ensures b < 6
  {
    if mode == USER || mode == SYSTEM then 0
    else if mode == FIQ then 1
    else if mode == IRQ then 2
    else if mode == SVC then 3
    else if mode == ABT then 4
    else 5
  }

  predicate HasSpsr(mode: nat) {
    mode in {FIQ, IRQ, SVC, ABT, UND}
  }

  /** The slot of a mode's saved status register. */
  function SpsrIndex(mode: nat): (i: nat)
    requires HasSpsr(mode)
    ensures i < 7
  {
    if mode == SVC then 2 else if mode == ABT then 3 else if mode == UND then 4 else if mode == FIQ then 5 else 6
  }

  /** A bank's registers; all but FIQ's use the first two only. */
  datatype BankRegs = BankRegs(sp: nat, lr: nat, r8: nat, r9: nat, r10: nat, r11: nat, r12: nat)

  /** The processor and its memory.  Registers are not masked everywhere, so they are plain numbers. */
  datatype Cpu = Cpu(regs: seq<nat>, cpsr: word, spsr: seq<word>, mode: nat, banks: seq<BankRegs>, mem: MemState) {
    predicate Valid() {
      |regs| == 16 && |spsr| == 7 && |banks| == 6
    }
    predicate Thumb() {
      cpsr / 0x20 % 2 == 1
    }
  }

  type CpuState = s: Cpu | s.Valid()
    witness Cpu(seq(16, _ => 0), 0, seq(7, _ => 0), SYSTEM, seq(6, _ => BankRegs(0, 0, 0, 0, 0, 0, 0)),
                Mem(Zeros(BIOS_SIZE), Zeros(EWRAM_SIZE), Zeros(IWRAM_SIZE), Zeros(IO_SIZE), Zeros(PALETTE_SIZE),
                    Zeros(VRAM_SIZE), Zeros(OAM_SIZE), Zeros(SRAM_SIZE), [], ROM_MAX_SIZE, Zeros(16), 0))

  /** `cpsr | 0x20` and `cpsr & ~0x20` */
  function SetThumb(cpsr: word, thumb: bool): (w: word)
    ensures w % 0x20 == cpsr % 0x20
  {
    var high, low := cpsr / 0x40, cpsr % 0x20;
    DivUnique(0x20 * (2 * high + if thumb then 1 else 0) + low, 0x20, 2 * high + if thumb then 1 else 0, low);
    0x20 * (2 * high + if thumb then 1 else 0) + low
  }

  /** A bank after its mode's registers are kept in it. */
  function Saved(b: BankRegs, regs: seq<nat>, fiq: bool): BankRegs
    requires |regs| == 16
  {
    var c := b.(sp := regs[13], lr := regs[14]);
    if fiq then c.(r8 := regs[8], r9 := regs[9], r10 := regs[10], r11 := regs[11], r12 := regs[12]) else c
  }

  function SaveBank(s: CpuState): (b: seq<BankRegs>)
    requires IsMode(s.mode)
    ensures |b| == 6
  {
    s.banks[BankOf(s.mode) := Saved(s.banks[BankOf(s.mode)], s.regs, s.mode == FIQ)]
  }

  function LoadBank(regs: seq<nat>, b: BankRegs, mode: nat): (r: seq<nat>)
    requires |regs| == 16
    ensures |r| == 16
  {
    var r := regs[13 := b.sp][14 := b.lr];
    if mode == FIQ then r[8 := b.r8][9 := b.r9][10 := b.r10][11 := b.r11][12 := b.r12] else r
  }

  /** `_switch_mode`: leaving FIQ saves r8 to r12 but brings nothing back. */
  function SwitchMode(s: CpuState, mode: nat): CpuState {
    if mode == s.mode then s
    else
      var banks := if IsMode(s.mode) then SaveBank(s) else s.banks;
      var regs := if IsMode(mode) then LoadBank(s.regs, banks[BankOf(mode)], mode) else s.regs;
      s.(banks := banks, regs := regs, mode := mode)
  }

  /** The return from an exception: the saved status comes back, and its mode with it. */
  function RestoreStatus(s: CpuState): CpuState
    requires HasSpsr(s.mode)
  {
    var saved := s.spsr[SpsrIndex(s.mode)];
    SwitchMode(s, saved % 0x20).(cpsr := saved, mode := saved % 0x20)
  }

  // ----- register access -----

  /** `_operand`: r15 reads ahead of the instruction. */
  function Operand(s: CpuState, reg: nat): nat
    requires reg < 16
  {
    if reg == 15 then Low32(s.regs[15] + if s.Thumb() then 4 else 8) else s.regs[reg]
  }

  /** `write_register`: an odd value in r15 selects Thumb code. */
  function WriteReg(s: CpuState, reg: nat, value: nat): CpuState
    requires reg < 16
  {
    var v := Low32(value);
    if reg < 15 then s.(regs := s.regs[reg := v])
    else if v % 2 == 1 then s.(regs := s.regs[15 := v - 1], cpsr := SetThumb(s.cpsr, true))
    else s.(regs := s.regs[15 := if s.Thumb() then v else v - v % 4])
  }

  function ZeroRegisters(): (r: seq<nat>)
    ensures |r| == 16 && forall i :: 0 <= i < 16 ==> r[i] == 0
  {
    seq(16, _ => 0)
  }

  function ZeroStatus(): (r: seq<word>)
    ensures |r| == 7 && forall i :: 0 <= i < 7 ==> r[i] == 0
  {
    seq(7, _ => 0)
  }

  /** The state the constructor sets up: System mode, with a CPSR that says none. */
  function ResetState(m: MemState): CpuState {
    var bank := BankRegs(0, 0, 0, 0, 0, 0, 0);
    Cpu(ZeroRegisters(), 0, ZeroStatus(), SYSTEM, [bank, bank, bank, bank, bank, bank], m)
  }

  function SetReg(s: CpuState, reg: nat, value: nat): (t: CpuState)
    requires reg < 16
    ensures t.mode == s.mode
  {
    s.(regs := s.regs[reg := value])
  }

  /** BX, and POP with PC: bit 0 of the target selects the instruction set. */
  function Exchange(s: CpuState, target: nat): (t: CpuState)
    ensures t.mode == s.mode
  {
    SetReg(s.(cpsr := SetThumb(s.cpsr, target % 2 == 1)), 15, Low32(target - target % 2))
  }

  // ----- register lists -----

  /** How many of the registers below `n` are listed. */
  function Count(list: nat, n: nat): nat {
    if n == 0 then 0 else Count(list, n - 1) + if Bit(list, n - 1) then 1 else 0
  }

  /** The listed registers from `i` to `stop`, stored upwards from `addr`. */
  function StoreFrom(s: CpuState, list: nat, i: nat, stop: nat, addr: int): CpuState
    requires i <= stop <= 16
    decreases stop - i
  {
    if i == stop then s
    else if Bit(list, i) then
      StoreFrom(s.(mem := Write32(s.mem, Low32(addr), Low32(Operand(s, i)))), list, i + 1, stop, addr + 4)
    else StoreFrom(s, list, i + 1, stop, addr)
  }

  /** The listed registers from `i` to `stop`, loaded upwards from `addr`. */
  function LoadFrom(s: CpuState, list: nat, i: nat, stop: nat, addr: int): CpuState
    requires i <= stop <= 16
    decreases stop - i
  {
    if i == stop then s
    else if Bit(list, i) then
      var v := Read32(s.mem, Low32(addr));
      LoadFrom(WriteReg(s.(mem := AfterRead32(s.mem, Low32(addr))), i, v), list, i + 1, stop, addr + 4)
    else LoadFrom(s, list, i + 1, stop, addr)
  }

  // ----- ARM: block transfers -----

  datatype BlockFields = BlockFields(pre: bool, up: bool, psr: bool, writeback: bool, load: bool, rn: nat, list: nat) {
    function Start(base: int): int {
      var n := Count(list, 16);
      if pre then if up then base + 4 else base - 4 * n
      else if up then base else base - 4 * (n - 1)
    }
    function End(base: int): int {
      if up then base + 4 * Count(list, 16) else base - 4 * Count(list, 16)
    }
  }

  function DecodeBlock(instr: nat): (f: BlockFields)
    ensures f.rn < 16 && f.list < 0x1_0000
  {
    BlockFields(instr / 0x100_0000 % 2 == 1, instr / 0x80_0000 % 2 == 1, instr / 0x40_0000 % 2 == 1,
                instr / 0x20_0000 % 2 == 1, instr / 0x10_0000 % 2 == 1, instr / 0x1_0000 % 16, instr % 0x1_0000)
  }

  function BlockBody(s: CpuState, f: BlockFields): CpuState
    requires f.rn < 16
  {
    var base := Operand(s, f.rn);
    var t := if f.load then LoadFrom(s, f.list, 0, 16, f.Start(base)) else StoreFrom(s, f.list, 0, 16, f.Start(base));
    if f.writeback then SetReg(t, f.rn, Low32(f.End(base))) else t
  }

  /** `exec_block_transfer`; an empty list does nothing at all. */
  function BlockTransfer(s: CpuState, f: BlockFields): CpuState
    requires f.rn < 16
  {
    if f.list == 0 then s
    else
      var t := BlockBody(s, f);
      if !(f.load && Bit(f.list, 15)) then SetReg(t, 15, t.regs[15] + 4)
      else if f.psr && HasSpsr(t.mode) then RestoreStatus(t)
      else t
  }

  // ----- ARM: data processing -----

  datatype DataFields = DataFields(op: nat, setFlags: bool, immediate: bool, rn: nat, rd: nat, low: nat)

  function DecodeData(instr: nat): (f: DataFields)
    ensures f.op < 16 && f.rn < 16 && f.rd < 16 && f.low < 0x1000
  {
    DataFields(instr / 0x20_0000 % 16, instr / 0x10_0000 % 2 == 1, instr / 0x200_0000 % 2 == 1,
               instr / 0x1_0000 % 16, instr / 0x1000 % 16, instr % 0x1000)
  }

  /** The second operand, from the low twelve bits. */
  function Shifter(s: CpuState, f: DataFields): Shifted {
    if f.immediate then RotateImmediate(f.low % 0x100, f.low / 0x100 % 16 * 2, FlagC(s.cpsr))
    else ShiftImmediate(Operand(s, f.low % 16), f.low / 0x20 % 4, f.low / 0x80 % 0x20, FlagC(s.cpsr))
  }

  /** A test operation without the S bit is a status register transfer instead. */
  predicate IsStatusTransfer(f: DataFields) {
    ArmTest(f.op) && !f.setFlags
  }

  /** `exec_data_processing` */
  function DataProcessing(s: CpuState, f: DataFields): CpuState
    requires f.rn < 16 && f.rd < 16
  {
    var o := ArmAlu(f.op, Operand(s, f.rn), Shifter(s, f), s.cpsr);
    var t := if ArmTest(f.op) then s else WriteReg(s, f.rd, o.result);
    var u := if f.setFlags || ArmTest(f.op)
             then t.(cpsr := SetFlags(t.cpsr, o.result, o.c, DataV(f.op, o.v, t.cpsr))) else t;
    if f.rd != 15 then SetReg(u, 15, u.regs[15] + 4)
    else if (f.setFlags || ArmTest(f.op)) && HasSpsr(u.mode) then RestoreStatus(u)
    else u
  }

  /** Logical operations keep the overflow flag. */
  function DataV(op: nat, v: bit, cpsr: word): bit {
    if op in {2, 3, 4, 5, 6, 7, 0xA, 0xB} then v else FlagV(cpsr)
  }

  // ----- ARM: software interrupts -----

  /** `_swi_exception_entry` */
  function SwiEntry(s: CpuState): CpuState {
    var t := s.(spsr := s.spsr[2 := s.cpsr],
                banks := s.banks[BankOf(SVC) := s.banks[BankOf(SVC)].(lr := Low32(s.regs[15] + 4))],
                cpsr := s.cpsr - s.cpsr % 0x20 + SVC);
    SwitchMode(t, SVC)
  }

  /** `exec_swi` for the calls that halt: Halt, IntrWait and VBlankIntrWait. */
  function SwiHalt(s: CpuState): CpuState {
    var t := SwiEntry(s);
    SetReg(t, 15, t.regs[15] + 4)
  }

  // ----- Thumb -----

  /** Format 2: ADD and SUB with a register or a three-bit immediate. */
  function ThumbAddSub(s: CpuState, instr: nat): CpuState {
    var rd, a := instr % 8, s.regs[instr / 8 % 8];
    var b := if instr / 0x400 % 2 == 1 then instr / 0x40 % 8 else s.regs[instr / 0x40 % 8];
    var o := if instr / 0x200 % 2 == 1 then SubC(a, b, 1) else AddImmediate(a, b);
    var t := WriteReg(s, rd, o.result);
    SetReg(t.(cpsr := SetFlags(t.cpsr, o.result, o.c, o.v)), 15, t.regs[15] + 2)
  }

  /** Format 3: MOV, CMP, ADD and SUB with an eight-bit immediate. */
  function ThumbImmediate(s: CpuState, instr: nat): CpuState {
    var op, rd, imm := instr / 0x800 % 4, instr / 0x100 % 8, instr % 0x100;
    var a := s.regs[rd];
    var t :=
      if op == 0 then
        var u := WriteReg(s, rd, imm);
        u.(cpsr := SetFlags(u.cpsr, imm, FlagC(u.cpsr), FlagV(u.cpsr)))
      else if op == 1 then
        var o := SubC(a, imm, 1);
        s.(cpsr := SetFlags(s.cpsr, o.result, o.c, o.v))
      else if op == 2 then
        var o, u := AddImmediate(a, imm), WriteReg(s, rd, AddImmediate(a, imm).result);
        u.(cpsr := SetFlags(u.cpsr, o.result, o.c, o.v))
      else
        var o, u := SubC(a, imm, 1), WriteReg(s, rd, SubC(a, imm, 1).result);
        u.(cpsr := SetFlags(u.cpsr, o.result, o.c, o.v));
    SetReg(t, 15, t.regs[15] + 2)
  }

  /** The sum as formats 2 and 3 compute it: carry by comparison, overflow with a complemented mask. */
  function AddImmediate(a: nat, imm: nat): AluOut {
    var r := Low32(a + imm);
    AluOut(r, BitIf(r < a), BitIf(And(And(Not32(Low32(Xor(a, imm))), Xor(a, r)), SIGN_BIT) != 0))
  }

  /** Format 4: the ALU operations. */
  function ThumbAluOp(s: CpuState, instr: nat): CpuState {
    var op, rs, rd := instr / 0x40 % 16, instr / 8 % 8, instr % 8;
    var o := ThumbAlu(op, s.regs[rd], s.regs[rs], s.cpsr);
    var t := if ThumbTest(op) then s else WriteReg(s, rd, o.result);
    SetReg(t.(cpsr := SetFlags(t.cpsr, o.result, o.c, o.v)), 15, t.regs[15] + 2)
  }

  /** The flags of a format 5 compare: N and C are cleared, Z is set for a difference, and the sign of
      the difference goes to V. */
  function HiCompare(cpsr: word, a: nat, b: nat): word {
    var r := Low32(a - b);
    WithFlags(cpsr, 0, BitIf(r != 0), 0, r / 0x8000_0000)
  }

  /** Format 5: ADD, CMP and MOV on all registers, and BX. */
  function ThumbHi(s: CpuState, instr: nat): CpuState {
    var op, h1, h2 := instr / 0x100 % 4, instr / 0x80 % 2, instr / 0x40 % 2;
    var rm, rdn := instr / 8 % 8 + 8 * h2, instr % 8 + 8 * h1;
    if op == 3 && h1 == 0 then
      Exchange(s, Operand(s, rm))
    else
      var t :=
        if op == 0 then WriteReg(s, rdn, Operand(s, rdn) + Operand(s, rm))
        else if op == 1 then s.(cpsr := HiCompare(s.cpsr, Operand(s, rdn), Operand(s, rm)))
        else if op == 2 then WriteReg(s, rdn, Operand(s, rm))
        else s;
      SetReg(t, 15, t.regs[15] + 2)
  }

  /** Format 14: PUSH. */
  function Push(s: CpuState, list: nat, withLr: bool): CpuState {
    var n := Count(list, 8) + if withLr then 1 else 0;
    var addr := Low32(s.regs[13] - 4 * n);
    var t := StoreFrom(SetReg(s, 13, addr), list, 0, 8, addr);
    var u := if withLr then t.(mem := Write32(t.mem, Low32(addr + 4 * Count(list, 8)), Low32(t.regs[14]))) else t;
    SetReg(u, 15, u.regs[15] + 2)
  }

  /** The last word of a POP with PC selects the instruction set, and ends an exception. */
  function PopPc(s: CpuState, top: nat): CpuState {
    var u := Exchange(s.(mem := AfterRead32(s.mem, Low32(top))), Read32(s.mem, Low32(top)));
    SetReg(if HasSpsr(s.mode) then RestoreStatus(u) else u, 13, top + 4)
  }

  /** Format 14: POP. */
  function Pop(s: CpuState, list: nat, withPc: bool): CpuState {
    var t := LoadFrom(s, list, 0, 8, s.regs[13]);
    var top := s.regs[13] + 4 * Count(list, 8);
    if withPc then PopPc(t, top) else SetReg(SetReg(t, 15, t.regs[15] + 2), 13, top)
  }

  /** `exec_thumb_push_pop`; every other opcode byte that reaches it pushes. */
  function PushPop(s: CpuState, instr: nat): CpuState {
    var op := instr / 0x100 % 0x100;
    if op == 0xBC || op == 0xBD then Pop(s, instr % 0x100, op == 0xBD) else Push(s, instr % 0x100, op == 0xB5)
  }

  /** Format 15: LDM and STM; the base is written back unmasked. */
  function LdmStm(s: CpuState, instr: nat): CpuState {
    var load, rb, list := instr / 0x800 % 2 == 1, instr / 0x100 % 8, instr % 0x100;
    if list == 0 then SetReg(s, 15, s.regs[15] + 2)
    else
      var addr := s.regs[rb];
      var t := if load then LoadFrom(s, list, 0, 8, addr) else StoreFrom(s, list, 0, 8, addr);
      var u := SetReg(t, rb, addr + 4 * Count(list, 8));
      SetReg(u, 15, u.regs[15] + 2)
  }

  /** Format 16: conditional branches. */
  function CondBranch(s: CpuState, instr: nat): CpuState {
    var cond, low := instr / 0x100 % 16, instr % 0x100;
    var offset := 2 * if low >= 0x80 then low - 0x100 else low;
    SetReg(s, 15, if CheckConditionThumb(cond, s.cpsr) then Low32(s.regs[15] + 4 + offset) else s.regs[15] + 2)
  }

  datatype Outcome = Done(s: CpuState) | OtherFormat

  /** `execute_thumb`, for the formats modelled here. */
  function ExecuteThumb(s: CpuState, instr: nat): Outcome {
    var op := instr / 0x100;
    if 0x18 <= op <= 0x1F then Done(ThumbAddSub(s, instr))
    else if 0x20 <= op <= 0x3F then Done(ThumbImmediate(s, instr))
    else if 0x40 <= op <= 0x43 then Done(ThumbAluOp(s, instr))
    else if 0x44 <= op <= 0x47 then Done(ThumbHi(s, instr))
    else if 0xB1 <= op <= 0xBD then Done(PushPop(s, instr))
    else if 0xBE <= op <= 0xCF then Done(LdmStm(s, instr))
    else if 0xD0 <= op <= 0xDE then Done(CondBranch(s, instr))
    else OtherFormat
  }

  /** `step_thumb` */
  function StepThumb(s: CpuState): Outcome {
    var pc := Low32(s.regs[15]);
    ExecuteThumb(s.(mem := AfterRead16(s.mem, pc)), Read16(s.mem, pc))
  }
}
