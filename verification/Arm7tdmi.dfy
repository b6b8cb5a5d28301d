/** The interpreter as the object it is: registers, status words and banks updated in place, with
    every method's effect given by a function of the state before it. */
module Arm7tdmi {
  import opened Words
  import opened Alu
  import opened Memory
  import opened Processor
  import TransferLaws
  import CompareLaws
  import ModeLaws

  /** One mode's own registers; r8 to r12 belong to FIQ's bank only. */
  class Bank {
    var sp: nat
    var lr: nat
    var r8: nat
    var r9: nat
    var r10: nat
    var r11: nat
    var r12: nat

    constructor ()
      ensures State() == BankRegs(0, 0, 0, 0, 0, 0, 0)
    {
      sp, lr, r8, r9, r10, r11, r12 := 0, 0, 0, 0, 0, 0, 0;
    }

    ghost function State(): BankRegs
      reads this
    {
      BankRegs(sp, lr, r8, r9, r10, r11, r12)
    }

    /** Keep a mode's SP and LR, and r8 to r12 as well for FIQ. */
    method Save(registers: seq<nat>, fiq: bool)
      requires |registers| == 16
      modifies this
      ensures State() == Saved(old(State()), registers, fiq)
    {
      sp := registers[13];
      lr := registers[14];
      if fiq {
        r8 := registers[8];
        r9 := registers[9];
        r10 := registers[10];
        r11 := registers[11];
        r12 := registers[12];
      }
    }
  }

  ghost predicate Unshared(banks: seq<Bank>) {
    forall i, j :: 0 <= i < j < |banks| ==> banks[i] != banks[j]
  }

  lemma AllDifferent(a: Bank, b: Bank, c: Bank, d: Bank, e: Bank, f: Bank)
    requires a != b && a != c && a != d && a != e && a != f && b != c && b != d && b != e && b != f
    requires c != d && c != e && c != f && d != e && d != f && e != f
    ensures Unshared([a, b, c, d, e, f])
  {
  }

  class ARM7TDMI {
    const memory: Memory
    var registers: seq<nat>
    var cpsr: word
    var spsr: seq<word>
    var mode: nat
    const banked: map<nat, Bank>

    ghost predicate Valid()
      reads this
    {
      && memory.Valid() && |registers| == 16 && |spsr| == 7
      && banked.Keys == {USER, FIQ, IRQ, SVC, ABT, UND, SYSTEM}
      && banked[USER] == banked[SYSTEM]
      && Unshared(Banks())
    }

    /** The six banks, in the order of BankOf. */
    ghost function Banks(): seq<Bank>
      requires banked.Keys == {USER, FIQ, IRQ, SVC, ABT, UND, SYSTEM}
    {
      [banked[USER], banked[FIQ], banked[IRQ], banked[SVC], banked[ABT], banked[UND]]
    }

    ghost function BankStates(): (b: seq<BankRegs>)
      requires banked.Keys == {USER, FIQ, IRQ, SVC, ABT, UND, SYSTEM}
      reads banked.Values
      ensures |b| == 6 && forall i :: 0 <= i < 6 ==> b[i] == Banks()[i].State()
    {
      [banked[USER].State(), banked[FIQ].State(), banked[IRQ].State(), banked[SVC].State(), banked[ABT].State(),
       banked[UND].State()]
    }

    ghost function State(): CpuState
      requires Valid()
      reads this, banked.Values, memory, memory.Arrays
    {
      Cpu(registers, cpsr, spsr, mode, BankStates(), memory.State())
    }

    constructor (memory: Memory)
      requires memory.Valid()
      ensures Valid() && this.memory == memory && fresh(banked.Values)
      ensures State() == ResetState(memory.State())
    {
      hide Memory.State, Memory.Valid, ZeroRegisters, ZeroStatus;
      this.memory := memory;
      registers, cpsr, spsr, mode := ZeroRegisters(), 0, ZeroStatus(), SYSTEM;
      var user := new Bank();
      var fiq := new Bank();
      var irq := new Bank();
      var svc := new Bank();
      var abt := new Bank();
      var und := new Bank();
      banked := map[USER := user, SYSTEM := user, FIQ := fiq, IRQ := irq, SVC := svc, ABT := abt, UND := und];
      new;
      hide Unshared;
      AllDifferent(user, fiq, irq, svc, abt, und);
      assert Banks() == [user, fiq, irq, svc, abt, und];
    }

    /** The state's plain fields are the object's. */
    lemma Fields()
      requires Valid()
      ensures |registers| == 16 && |spsr| == 7
      ensures var s := State(); s.regs == registers && s.cpsr == cpsr && s.mode == mode && s.spsr == spsr
    {
    }

    lemma BankAt(m: nat)
      requires Valid() && IsMode(m)
      ensures m in banked && banked[m] == Banks()[BankOf(m)] && banked[m] in banked.Values
    {
    }

    // ----- modes -----

    method SaveOutgoing()
      requires Valid() && IsMode(mode)
      modifies banked.Values
      ensures Valid() && State() == old(State()).(banks := SaveBank(old(State())))
    {
      hide Memory.State, Memory.Valid, Saved, HasSpsr;
      BankAt(mode);
      var bank := banked[mode];
      assert forall i :: 0 <= i < 6 && i != BankOf(mode) ==> Banks()[i] != bank;
      bank.Save(registers, mode == FIQ);
      assert BankStates() == SaveBank(old(State()));
    }

    method LoadIncoming(newMode: nat)
      requires Valid() && IsMode(newMode)
      modifies this`registers
      ensures Valid()
      ensures var s := old(State()); State() == s.(regs := LoadBank(s.regs, s.banks[BankOf(newMode)], newMode))
    {
      hide Memory.State, Memory.Valid, Unshared, IsMode, BankOf;
      BankAt(newMode);
      var bank := banked[newMode];
      registers := registers[13 := bank.sp];
      registers := registers[14 := bank.lr];
      if newMode == FIQ {
        registers := registers[8 := bank.r8];
        registers := registers[9 := bank.r9];
        registers := registers[10 := bank.r10];
        registers := registers[11 := bank.r11];
        registers := registers[12 := bank.r12];
      }
    }

    /** `_switch_mode` */
    method SwitchMode(newMode: nat)
      requires Valid()
      modifies this, banked.Values
      ensures Valid() && State() == Processor.SwitchMode(old(State()), newMode)
      ensures IsMode(old(mode)) && IsMode(newMode)
              ==> mode == newMode
                  && ModeLaws.View(State()) == ModeLaws.View(old(State())).Apply(ModeLaws.Switch(newMode))
    {
      hide Memory.State, Memory.Valid, SaveBank, LoadBank, BankStates, Unshared, BankOf;
      hide ModeLaws.View, ModeLaws.Cells.Apply;
      if IsMode(mode) && IsMode(newMode) {
        ModeLaws.SwitchView(State(), newMode);
      }
      if newMode == mode {
        return;
      }
      if mode in banked {
        SaveOutgoing();
      }
      if newMode in banked {
        LoadIncoming(newMode);
      }
      mode := newMode;
    }

    method ExceptionReturn()
      requires Valid() && HasSpsr(mode)
      modifies this, banked.Values
      ensures Valid() && State() == RestoreStatus(old(State()))
    {
      hide Memory.State, Memory.Valid, Processor.SwitchMode;
      var newCpsr := spsr[SpsrIndex(mode)];
      var newMode := newCpsr % 0x20;
      SwitchMode(newMode);
      cpsr := newCpsr;
      mode := newMode;
    }

    // ----- registers -----

    method ReadOperand(reg: nat) returns (v: nat)
      requires Valid() && reg < 16
      ensures v == Operand(State(), reg)
    {
      if reg == 15 {
        return Low32(registers[15] + if cpsr / 0x20 % 2 == 1 then 4 else 8);
      }
      return registers[reg];
    }

    method WriteRegister(reg: nat, value: nat)
      requires Valid() && reg < 16
      modifies this
      ensures Valid() && State() == WriteReg(old(State()), reg, value)
    {
      hide Memory.State, Memory.Valid, SetThumb;
      var v := Low32(value);
      registers := registers[reg := v];
      if reg == 15 {
        if v % 2 == 1 {
          cpsr := SetThumb(cpsr, true);
          registers := registers[15 := v - 1];
        } else {
          registers := registers[15 := if cpsr / 0x20 % 2 == 1 then v else v - v % 4];
        }
      }
    }

    /** `_update_flags_nzcv` */
    method UpdateFlags(result: nat, c: bit, v: bit)
      requires Valid()
      modifies this`cpsr
      ensures Valid()
      ensures var s := old(State()); State() == s.(cpsr := SetFlags(s.cpsr, result, c, v))
    {
      hide Memory.State, Memory.Valid, BankStates, Unshared, ARM7TDMI.Banks, SetFlags;
      cpsr := SetFlags(cpsr, result, c, v);
    }

    method SetCpsr(w: word)
      requires Valid()
      modifies this`cpsr
      ensures Valid() && State() == old(State()).(cpsr := w)
    {
      hide Memory.State, Memory.Valid, BankStates, Unshared, ARM7TDMI.Banks;
      cpsr := w;
    }

    /** A plain store to `registers`, without the rules of write_register. */
    method Set(reg: nat, value: nat)
      requires Valid() && reg < 16
      modifies this`registers
      ensures Valid() && State() == SetReg(old(State()), reg, value)
    {
      hide Memory.State, Memory.Valid, BankStates, Unshared, ARM7TDMI.Banks;
      registers := registers[reg := value];
    }

    method FetchWord(addr: word) returns (v: word)
      requires Valid()
      modifies memory
      ensures Valid() && v == Read32(old(State()).mem, addr)
      ensures State() == old(State()).(mem := AfterRead32(old(State()).mem, addr))
    {
      hide Memory.State, Memory.Valid, BankStates, Unshared, ARM7TDMI.Banks, Read32, AfterRead32;
      v := memory.ReadU32(addr);
    }

    method StoreWord(addr: word, v: word)
      requires Valid()
      modifies memory, memory.Arrays
      ensures Valid() && State() == old(State()).(mem := Write32(old(State()).mem, addr, v))
    {
      hide Memory.State, Memory.Valid, BankStates, Unshared, ARM7TDMI.Banks, Write32;
      memory.WriteU32(addr, v);
    }

    method FetchHalf(addr: word) returns (v: half)
      requires Valid()
      modifies memory
      ensures Valid() && v == Read16(old(State()).mem, addr)
      ensures State() == old(State()).(mem := AfterRead16(old(State()).mem, addr))
    {
      hide Memory.State, Memory.Valid, BankStates, Unshared, ARM7TDMI.Banks, Read16, AfterRead16;
      v := memory.ReadU16(addr);
    }

    method Jump(target: nat)
      requires Valid()
      modifies this
      ensures Valid() && State() == Exchange(old(State()), target)
    {
      hide Memory.State, Memory.Valid, ARM7TDMI.State, ARM7TDMI.Valid, SetThumb, SetReg;
      Fields();
      SetCpsr(SetThumb(cpsr, target % 2 == 1));
      Set(15, Low32(target - target % 2));
    }

    // ----- register lists -----

    /** The load loop: each listed register below `stop`, in order, from the next word. */
    method LoadList(list: nat, stop: nat, addr0: int) returns (addr: int)
      requires Valid() && stop <= 16
      modifies this, memory, memory.Arrays
      ensures Valid() && addr == addr0 + 4 * Count(list, stop)
      ensures State() == LoadFrom(old(State()), list, 0, stop, addr0)
    {
      hide Memory.State, Memory.Valid, ARM7TDMI.State, ARM7TDMI.Valid, Read32, AfterRead32, WriteReg;
      addr := addr0;
      for i := 0 to stop
        invariant Valid() && addr == addr0 + 4 * Count(list, i)
        invariant LoadFrom(State(), list, i, stop, addr) == LoadFrom(old(State()), list, 0, stop, addr0)
      {
        if Bit(list, i) {
          var v := FetchWord(Low32(addr));
          WriteRegister(i, v);
          addr := addr + 4;
        }
      }
    }

    /** The store loop. */
    method StoreList(list: nat, stop: nat, addr0: int) returns (addr: int)
      requires Valid() && stop <= 16
      modifies memory, memory.Arrays
      ensures Valid() && addr == addr0 + 4 * Count(list, stop)
      ensures State() == StoreFrom(old(State()), list, 0, stop, addr0)
    {
      hide Memory.State, Memory.Valid, ARM7TDMI.State, ARM7TDMI.Valid, Write32, Operand;
      addr := addr0;
      for i := 0 to stop
        invariant Valid() && addr == addr0 + 4 * Count(list, i)
        invariant StoreFrom(State(), list, i, stop, addr) == StoreFrom(old(State()), list, 0, stop, addr0)
      {
        if Bit(list, i) {
          var v := ReadOperand(i);
          StoreWord(Low32(addr), Low32(v));
          addr := addr + 4;
        }
      }
    }

    // ----- ARM instructions -----

    /** The transfer itself, and the new base. */
    method MoveBlock(f: BlockFields)
      requires Valid() && f.rn < 16
      modifies this, memory, memory.Arrays
      ensures Valid() && State() == BlockBody(old(State()), f)
    {
      hide Memory.State, Memory.Valid, ARM7TDMI.State, ARM7TDMI.Valid, LoadFrom, StoreFrom, Operand, SetReg;
      var base: int := ReadOperand(f.rn);
      var n: int := Count(f.list, 16);
      var addr: int := if f.pre then if f.up then base + 4 else base - 4 * n
                       else if f.up then base else base - 4 * (n - 1);
      if f.load {
        addr := LoadList(f.list, 16, addr);
      } else {
        addr := StoreList(f.list, 16, addr);
      }
      if f.writeback {
        Set(f.rn, Low32(if f.up then base + n * 4 else base - n * 4));
      }
    }

    /** `exec_block_transfer` */
    method ExecBlockTransfer(instr: word)
      requires Valid()
      modifies this, memory, memory.Arrays, banked.Values
      ensures Valid() && State() == BlockTransfer(old(State()), DecodeBlock(instr))
      ensures TransferLaws.BlockDone(old(State()), instr, State())
    {
      hide TransferLaws.BlockDone, DecodeBlock, Memory.State, Memory.Valid, ARM7TDMI.State, ARM7TDMI.Valid, BlockBody,
           RestoreStatus, SetReg, Bit;
      var f := DecodeBlock(instr);
      TransferLaws.BlockHolds(State(), instr);
      if f.list == 0 {
        return;
      }
      MoveBlock(f);
      Fields();
      if !(f.load && Bit(f.list, 15)) {
        Set(15, registers[15] + 4);
      } else if f.psr && HasSpsr(mode) {
        ExceptionReturn();
      }
    }

    /** `exec_data_processing` */
    method ExecDataProcessing(instr: word)
      requires Valid() && !IsStatusTransfer(DecodeData(instr))
      modifies this, banked.Values
      ensures Valid() && State() == DataProcessing(old(State()), DecodeData(instr))
      ensures CompareLaws.ArmCmpLaw(old(State()), DecodeData(instr), State())
    {
      hide CompareLaws.ArmCmpLaw, DecodeData, Memory.State, Memory.Valid, ARM7TDMI.State, ARM7TDMI.Valid, ArmAlu,
           Shifter, Operand, RestoreStatus, SetFlags, WriteReg, SetReg;
      var f := DecodeData(instr);
      CompareLaws.ArmCmpHolds(State(), DecodeData(instr));
      Fields();
      var operand := Shift(f);
      var a := ReadOperand(f.rn);
      var o := ArmAlu(f.op, a, operand, cpsr);
      if !ArmTest(f.op) {
        WriteRegister(f.rd, o.result);
        Fields();
      }
      var updateFlags := f.setFlags || ArmTest(f.op);
      if updateFlags {
        SetCpsr(SetFlags(cpsr, o.result, o.c, DataV(f.op, o.v, cpsr)));
      }
      Fields();
      if f.rd != 15 {
        Set(15, registers[15] + 4);
      } else if updateFlags && HasSpsr(mode) {
        ExceptionReturn();
      }
    }

    method Shift(f: DataFields) returns (o: Shifted)
      requires Valid()
      ensures o == Shifter(State(), f)
    {
      hide Memory.State, Memory.Valid, RotateImmediate, ShiftImmediate, Operand, BankStates, Unshared, ARM7TDMI.Banks;
      if f.immediate {
        o := RotateImmediate(f.low % 0x100, f.low / 0x100 % 16 * 2, FlagC(cpsr));
      } else {
        var x := ReadOperand(f.low % 16);
        o := ShiftImmediate(x, f.low / 0x20 % 4, f.low / 0x80 % 0x20, FlagC(cpsr));
      }
    }

    /** `_swi_exception_entry` */
    method SwiExceptionEntry()
      requires Valid()
      modifies this, banked.Values
      ensures Valid() && State() == SwiEntry(old(State()))
    {
      hide Memory.State, Memory.Valid, ARM7TDMI.State, ARM7TDMI.Valid, Processor.SwitchMode;
      Fields();
      BankAt(SVC);
      SaveStatus();
      LinkTo(banked[SVC], Low32(registers[15] + 4));
      SetCpsr(cpsr - cpsr % 0x20 + SVC);
      SwitchMode(SVC);
    }

    method SaveStatus()
      requires Valid()
      modifies this`spsr
      ensures Valid() && State() == old(State()).(spsr := old(State()).spsr[2 := old(cpsr)])
    {
      hide Memory.State, Memory.Valid, BankStates, Unshared, ARM7TDMI.Banks;
      spsr := spsr[2 := cpsr];
    }

    method LinkTo(bank: Bank, value: nat)
      requires Valid() && bank == banked[SVC]
      modifies bank
      ensures Valid()
      ensures var s := old(State()); State() == s.(banks := s.banks[BankOf(SVC) := s.banks[BankOf(SVC)].(lr := value)])
    {
      hide Memory.State, Memory.Valid;
      BankAt(SVC);
      assert forall i :: 0 <= i < 6 && i != BankOf(SVC) ==> Banks()[i] != bank;
      bank.lr := value;
      assert BankStates() == old(BankStates())[BankOf(SVC) := old(BankStates())[BankOf(SVC)].(lr := value)];
    }

    /** `exec_swi` for Halt, IntrWait and VBlankIntrWait. */
    method ExecSwiHalt()
      requires Valid()
      modifies this, banked.Values
      ensures Valid() && State() == SwiHalt(old(State()))
      ensures mode == SVC && cpsr / 0x20 == old(cpsr) / 0x20 && spsr[2] == old(cpsr)
      ensures registers[14] == Low32(old(registers)[15] + 4)
              <==> old(mode) != SVC || old(registers)[14] == Low32(old(registers)[15] + 4)
    {
      hide Memory.State, Memory.Valid, ARM7TDMI.State, ARM7TDMI.Valid, SwiEntry, SetReg;
      ModeLaws.SwiKeepsMask(State());
      ModeLaws.SwiLinkIff(State());
      ModeLaws.SwiSaves(State());
      Fields();
      SwiExceptionEntry();
      Fields();
      Set(15, registers[15] + 4);
      Fields();
    }

    // ----- Thumb instructions -----

    method Advance(step: nat)
      requires Valid()
      modifies this`registers
      ensures Valid() && State() == SetReg(old(State()), 15, old(State()).regs[15] + step)
    {
      hide Memory.State, Memory.Valid, ARM7TDMI.State, ARM7TDMI.Valid, SetReg;
      Fields();
      Set(15, registers[15] + step);
    }

    /** `exec_thumb_add_sub` */
    method ExecThumbAddSub(instr: nat)
      requires Valid()
      modifies this
      ensures Valid() && State() == ThumbAddSub(old(State()), instr)
    {
      hide Memory.State, Memory.Valid, ARM7TDMI.State, ARM7TDMI.Valid, SubC, AddImmediate, SetFlags, WriteReg, SetReg;
      Fields();
      var rd, a := instr % 8, registers[instr / 8 % 8];
      var b := if instr / 0x400 % 2 == 1 then instr / 0x40 % 8 else registers[instr / 0x40 % 8];
      var o := if instr / 0x200 % 2 == 1 then SubC(a, b, 1) else AddImmediate(a, b);
      WriteRegister(rd, o.result);
      UpdateFlags(o.result, o.c, o.v);
      Advance(2);
    }

    /** `exec_thumb_imm3` */
    method ExecThumbImm3(instr: nat)
      requires Valid()
      modifies this
      ensures Valid() && State() == ThumbImmediate(old(State()), instr)
      ensures CompareLaws.ThumbCmpImmediateLaw(old(State()), instr, State())
    {
      hide CompareLaws.ThumbCmpImmediateLaw, Memory.State, Memory.Valid, ARM7TDMI.State, ARM7TDMI.Valid, SubC,
           AddImmediate, SetFlags, WriteReg, SetReg;
      CompareLaws.ThumbCmpImmediateHolds(State(), instr);
      Fields();
      var op, rd, imm := instr / 0x800 % 4, instr / 0x100 % 8, instr % 0x100;
      var a := registers[rd];
      if op == 0 {
        WriteRegister(rd, imm);
        Fields();
        UpdateFlags(imm, FlagC(cpsr), FlagV(cpsr));
      } else {
        var o := if op == 2 then AddImmediate(a, imm) else SubC(a, imm, 1);
        if op != 1 {
          WriteRegister(rd, o.result);
        }
        UpdateFlags(o.result, o.c, o.v);
      }
      Advance(2);
    }

    /** `exec_thumb_alu` */
    method ExecThumbAlu(instr: nat)
      requires Valid()
      modifies this
      ensures Valid() && State() == ThumbAluOp(old(State()), instr)
      ensures CompareLaws.ThumbCmpLaw(old(State()), instr, State())
    {
      hide CompareLaws.ThumbCmpLaw, Memory.State, Memory.Valid, ARM7TDMI.State, ARM7TDMI.Valid, ThumbAlu, SetFlags,
           WriteReg, SetReg;
      CompareLaws.ThumbCmpHolds(State(), instr);
      Fields();
      var op, rs, rd := instr / 0x40 % 16, instr / 8 % 8, instr % 8;
      var o := ThumbAlu(op, registers[rd], registers[rs], cpsr);
      if !ThumbTest(op) {
        WriteRegister(rd, o.result);
      }
      UpdateFlags(o.result, o.c, o.v);
      Advance(2);
    }

    /** `exec_thumb_hi` */
    method ExecThumbHi(instr: nat)
      requires Valid()
      modifies this
      ensures Valid() && State() == ThumbHi(old(State()), instr)
      ensures CompareLaws.HiCompareLaw(old(State()), instr, State())
    {
      hide CompareLaws.HiCompareLaw, Memory.State, Memory.Valid, ARM7TDMI.State, ARM7TDMI.Valid, Exchange, WriteReg,
           Operand, HiCompare, SetReg;
      CompareLaws.HiCompareHolds(State(), instr);
      Fields();
      var op, h1, h2 := instr / 0x100 % 4, instr / 0x80 % 2, instr / 0x40 % 2;
      var rm, rdn := instr / 8 % 8 + 8 * h2, instr % 8 + 8 * h1;
      var b := ReadOperand(rm);
      if op == 3 && h1 == 0 {
        Jump(b);
        return;
      }
      var a := ReadOperand(rdn);
      if op == 0 {
        WriteRegister(rdn, a + b);
      } else if op == 1 {
        SetCpsr(HiCompare(cpsr, a, b));
      } else if op == 2 {
        WriteRegister(rdn, b);
      }
      Advance(2);
    }

    /** `exec_thumb_push_pop` */
    method ExecThumbPushPop(instr: nat)
      requires Valid()
      modifies this, memory, memory.Arrays, banked.Values
      ensures Valid() && State() == PushPop(old(State()), instr)
    {
      hide Memory.State, Memory.Valid, ARM7TDMI.State, ARM7TDMI.Valid, Processor.Push, Processor.Pop;
      var op, list := instr / 0x100 % 0x100, instr % 0x100;
      if op == 0xBC || op == 0xBD {
        Pop(list, op == 0xBD);
      } else {
        Push(list, op == 0xB5);
      }
    }

    method Pop(list: nat, withPc: bool)
      requires Valid()
      modifies this, memory, memory.Arrays, banked.Values
      ensures Valid() && State() == Processor.Pop(old(State()), list, withPc)
    {
      hide Memory.State, Memory.Valid, ARM7TDMI.State, ARM7TDMI.Valid, Processor.PopPc, LoadFrom, SetReg;
      Fields();
      var top := LoadList(list, 8, registers[13]);
      if withPc {
        PopPc(top);
      } else {
        Advance(2);
        Set(13, top);
      }
    }

    method PopPc(top: nat)
      requires Valid()
      modifies this, memory, memory.Arrays, banked.Values
      ensures Valid() && State() == Processor.PopPc(old(State()), top)
    {
      hide Memory.State, Memory.Valid, ARM7TDMI.State, ARM7TDMI.Valid, Read32, AfterRead32, Exchange, RestoreStatus,
          SetReg, HasSpsr;
      var v := FetchWord(Low32(top));
      Jump(v);
      Fields();
      if HasSpsr(mode) {
        ExceptionReturn();
      }
      Set(13, top + 4);
    }

    method Push(list: nat, withLr: bool)
      requires Valid()
      modifies this, memory, memory.Arrays
      ensures Valid() && State() == Processor.Push(old(State()), list, withLr)
    {
      hide Memory.State, Memory.Valid, ARM7TDMI.State, ARM7TDMI.Valid, StoreFrom, Write32, SetReg;
      Fields();
      var count := Count(list, 8) + if withLr then 1 else 0;
      var addr: int := Low32(registers[13] - count * 4);
      Set(13, addr);
      addr := StoreList(list, 8, addr);
      if withLr {
        Fields();
        StoreWord(Low32(addr), Low32(registers[14]));
      }
      Advance(2);
    }

    /** `exec_thumb_ldm_stm` */
    method ExecThumbLdmStm(instr: nat)
      requires Valid()
      modifies this, memory, memory.Arrays
      ensures Valid() && State() == LdmStm(old(State()), instr)
      ensures TransferLaws.LowDone(old(State()), instr, State())
    {
      hide TransferLaws.LowDone, Memory.State, Memory.Valid, ARM7TDMI.State, ARM7TDMI.Valid, StoreFrom, LoadFrom, SetReg, Count;
      TransferLaws.LowLaw(State(), instr);
      Fields();
      var rb, list := instr / 0x100 % 8, instr % 0x100;
      if list == 0 {
        Advance(2);
        return;
      }
      var addr: int;
      if instr / 0x800 % 2 == 1 {
        addr := LoadList(list, 8, registers[rb]);
      } else {
        addr := StoreList(list, 8, registers[rb]);
      }
      Set(rb, addr);
      Advance(2);
    }

    /** `exec_thumb_cond_branch` */
    method ExecThumbCondBranch(instr: nat)
      requires Valid()
      modifies this
      ensures Valid() && State() == CondBranch(old(State()), instr)
    {
      hide Memory.State, Memory.Valid, ARM7TDMI.State, ARM7TDMI.Valid, CheckConditionThumb, SetReg;
      Fields();
      var cond, low := instr / 0x100 % 16, instr % 0x100;
      var offset: int := low;
      if low >= 0x80 {
        offset := offset - 0x100;
      }
      offset := offset * 2;
      if CheckConditionThumb(cond, cpsr) {
        Set(15, Low32(registers[15] + 4 + offset));
      } else {
        Advance(2);
      }
    }

    /** `execute_thumb`; the result says whether the format is one of those modelled. */
    method ExecuteThumb(instr: nat) returns (done: bool)
      requires Valid()
      modifies this, memory, memory.Arrays, banked.Values
      ensures Valid()
      ensures Processor.ExecuteThumb(old(State()), instr) == if done then Done(State()) else OtherFormat
    {
      hide Memory.State, Memory.Valid, ARM7TDMI.State, ARM7TDMI.Valid;
      hide ThumbAddSub, ThumbImmediate, ThumbAluOp, ThumbHi, PushPop, LdmStm, CondBranch;
      var op := instr / 0x100;
      done := true;
      if 0x18 <= op <= 0x1F {
        ExecThumbAddSub(instr);
      } else if 0x20 <= op <= 0x3F {
        ExecThumbImm3(instr);
      } else if 0x40 <= op <= 0x43 {
        ExecThumbAlu(instr);
      } else if 0x44 <= op <= 0x47 {
        ExecThumbHi(instr);
      } else if 0xB1 <= op <= 0xBD {
        ExecThumbPushPop(instr);
      } else if 0xBE <= op <= 0xCF {
        ExecThumbLdmStm(instr);
      } else if 0xD0 <= op <= 0xDE {
        ExecThumbCondBranch(instr);
      } else {
        done := false;
      }
    }

    /** `step_thumb` */
    method StepThumb() returns (done: bool)
      requires Valid()
      modifies this, memory, memory.Arrays, banked.Values
      ensures Valid()
      ensures Processor.StepThumb(old(State())) == if done then Done(State()) else OtherFormat
    {
      hide Memory.State, Memory.Valid, ARM7TDMI.State, ARM7TDMI.Valid, Processor.ExecuteThumb, Read16, AfterRead16;
      Fields();
      var instr := FetchHalf(Low32(registers[15]));
      done := ExecuteThumb(instr);
    }
  }
}
