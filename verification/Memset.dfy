/** Recognising the three-instruction loop that fills memory, and the code emitted in its place. */
module Memset {
  import opened Words
  import opened Wrappers
  import opened Instructions
  import opened Decoders
  import opened Alu
  import opened Memory
  import opened P = Processor
  import opened Arm7tdmi
  import Sweep = Disassembler

  /** Base, source and counter registers, and where execution goes on. */
  datatype Loop = Loop(rb: nat, rs: nat, rc: nat, fallThrough: nat)

  /** STMIA with two register operands. */
  predicate IsStore(i: Instruction) {
    i.opcode == "STMIA" && |i.operands| == 2 && i.operands[0].Register? && i.operands[1].Register?
  }

  /** BNE with an immediate target. */
  predicate BranchesTo(i: Instruction, target: nat) {
    i.opcode == "BNE" && |i.operands| > 0 && i.operands[0] == Immediate(target)
  }

  /** A flag-setting SUB into a register with an immediate 4 in the given place. */
  predicate Subtracts4(i: Instruction, place: nat) {
    && i.opcode == "SUB" && i.setsFlags && 1 <= place < |i.operands|
    && i.operands[0].Register? && i.operands[place] == Immediate(4)
  }

  /** `detect_memset_loop_pattern` */
  function Detect(insts: seq<Instruction>): Option<Loop> {
    if |insts| != 3 then None
    else if !IsStore(insts[0]) then None
    else if !Subtracts4(insts[1], 1) then None
    else if !BranchesTo(insts[2], insts[0].address) then None
    else Some(Loop(insts[0].operands[0].r, insts[0].operands[1].r, insts[1].operands[0].r,
                   insts[2].address + insts[2].width))
  }

  /** What it takes, and what it makes of it: base and source from the store, the counter from the SUB, and
      the address behind the branch. */
  lemma DetectMeans(store: Instruction, sub: Instruction, bne: Instruction, l: Loop)
    ensures Detect([store, sub, bne]) == Some(l)
            <==> && store.opcode == "STMIA" && store.operands == [Register(l.rb), Register(l.rs)]
                 && sub.opcode == "SUB" && sub.setsFlags && |sub.operands| >= 2
                 && sub.operands[0] == Register(l.rc) && sub.operands[1] == Immediate(4)
                 && bne.opcode == "BNE" && |bne.operands| >= 1 && bne.operands[0] == Immediate(store.address)
                 && l.fallThrough == bne.address + bne.width
  {
  }

  // ----- the pattern spread over three blocks -----

  type Key = (nat, ArmMode)
  type Blocks = map<Key, seq<Instruction>>

  /** The one instruction of a one-instruction block. */
  function Single(groups: Blocks, key: Key): Option<Instruction> {
    if key in groups && |groups[key]| == 1 then Some(groups[key][0]) else None
  }

  /** Where the immediate of a SUB is looked for: last of two operands, third of more. */
  function PlaceOfImmediate(i: Instruction): nat {
    if |i.operands| == 2 then 1 else 2
  }

  /** The blocks of a loop whose store is the block at `key`, if there is one. */
  function LoopAt(groups: Blocks, key: Key): (r: set<nat>)
    ensures r == {} || key.0 in r
  {
    match Single(groups, key)
    case None => {}
    case Some(store) =>
      if !IsStore(store) then {}
      else
        match Single(groups, (store.address + 2, key.1))
        case None => {}
        case Some(sub) =>
          if !Subtracts4(sub, PlaceOfImmediate(sub)) then {}
          else
            match Single(groups, (sub.address + 2, key.1))
            case None => {}
            case Some(bne) =>
              if !BranchesTo(bne, key.0) then {} else {key.0, store.address + 2, sub.address + 2}
  }

  /** `detect_memset_loop_pattern_across_blocks`: the keys are visited in no particular order. */
  method DetectAcrossBlocks(groups: Blocks) returns (optimized: set<nat>)
    ensures forall a :: a in optimized <==> exists key :: key in groups && a in LoopAt(groups, key)
    ensures AllDecoded(groups) ==> optimized == {}
  {
    hide LoopAt, AllDecoded;
    optimized := {};
    var rest := groups.Keys;
    while rest != {}
      invariant rest <= groups.Keys
      invariant forall a :: a in optimized <==> exists key :: key in groups.Keys - rest && a in LoopAt(groups, key)
      decreases rest
    {
      var key :| key in rest;
      var found := LoopOf(groups, key);
      optimized := optimized + found;
      rest := rest - {key};
    }
    if AllDecoded(groups) {
      DetectsNothingAcross(groups);
    }
  }

  /** One turn of the loop, with its early exits. */
  method LoopOf(groups: Blocks, key: Key) returns (found: set<nat>)
    requires key in groups
    ensures found == LoopAt(groups, key)
  {
    found := {};
    var block := groups[key];
    if |block| != 1 || !IsStore(block[0]) { return; }
    var nextAddr := block[0].address + 2;
    if (nextAddr, key.1) !in groups { return; }
    var next := groups[(nextAddr, key.1)];
    if |next| != 1 || !Subtracts4(next[0], PlaceOfImmediate(next[0])) { return; }
    var next2Addr := next[0].address + 2;
    if (next2Addr, key.1) !in groups { return; }
    var next2 := groups[(next2Addr, key.1)];
    if |next2| != 1 || !BranchesTo(next2[0], key.0) { return; }
    found := {key.0, nextAddr, next2Addr};
  }

  /** On three one-instruction blocks in a row the two recognisers differ just on a flag-setting SUB
      into a register with three or more operands, of which the second or the third is a 4 but not
      both. */
  lemma RecognisersDifferIff(groups: Blocks, store: Instruction, sub: Instruction, bne: Instruction, mode: ArmMode)
    requires Single(groups, (store.address, mode)) == Some(store)
    requires Single(groups, (store.address + 2, mode)) == Some(sub) && Single(groups, (sub.address + 2, mode)) == Some(bne)
    requires IsStore(store) && BranchesTo(bne, store.address)
    ensures (LoopAt(groups, (store.address, mode)) != {}) != Detect([store, sub, bne]).Some?
            <==> && sub.opcode == "SUB" && sub.setsFlags && |sub.operands| >= 3 && sub.operands[0].Register?
                 && (sub.operands[1] == Immediate(4)) != (sub.operands[2] == Immediate(4))
  {
  }

  // ----- what the decoders give -----

  /** A decoded Thumb halfword. */
  function FromThumb(hw: half, address: word): Instruction {
    var d := DecodeThumb(hw, address);
    Instruction(address, d.opcode, d.operands, Thumb, hw, d.setsFlags, 2, false)
  }

  predicate SaysThumb(hw: half, address: word, i: Instruction) {
    DecodeThumb(hw, address) == Decoded(i.opcode, i.operands, i.setsFlags)
  }

  predicate SaysArm(w: word, i: Instruction) {
    DecodesArm(w, Decoded(i.opcode, i.operands, i.setsFlags))
  }

  /** An instruction as some decoder gives it: for a word of ARM code, for a halfword of Thumb code,
      or for a BL pair. */
  ghost predicate DecoderOutput(i: Instruction) {
    match i.mode
    case Arm => exists w :: SaysArm(w, i)
    case Thumb => (exists hw, address :: SaysThumb(hw, address, i)) || i.opcode == "BL"
  }

  ghost predicate AllDecoded(groups: Blocks) {
    forall key, k :: key in groups && 0 <= k < |groups[key]| ==> DecoderOutput(groups[key][k])
  }

  lemma ThumbStoreHasOneOperand(hw: half, address: word)
    ensures DecodeThumb(hw, address).opcode == "STMIA" ==> |DecodeThumb(hw, address).operands| == 1
  {
    hide DecodeLow, DecodeRegisters, DecodeSingle, DecodeMisc, ListedBelow, Target;
    if hw < 0x4000 {
      LowNames(hw);
    } else if hw < 0x4800 {
      RegisterNames(hw);
    } else if hw < 0xB000 {
      SingleNames(hw);
    } else if hw < 0xC000 {
      MiscNames(hw);
    } else {
      HighNames(hw, address);
    }
  }

  /** No decoder gives an STMIA with two operands. */
  lemma NoDecodedStore(i: Instruction)
    requires DecoderOutput(i)
    ensures !IsStore(i)
  {
    hide DecodeThumb, DecodesArm;
    if i.mode.Arm? {
      var w :| SaysArm(w, i);
      if i.opcode == "STMIA" {
        ArmStoreHasOneOperand(w, Decoded(i.opcode, i.operands, i.setsFlags));
      }
    } else if i.opcode != "BL" {
      var hw, address :| SaysThumb(hw, address, i);
      ThumbStoreHasOneOperand(hw, address);
    }
  }

  /** So the first recogniser finds no loop in decoded code, whatever the code. */
  lemma DetectsNothing(insts: seq<Instruction>)
    requires forall k :: 0 <= k < |insts| ==> DecoderOutput(insts[k])
    ensures Detect(insts) == None
  {
    hide DecoderOutput;
    if |insts| == 3 {
      NoDecodedStore(insts[0]);
    }
  }

  /** Nor does the second. */
  lemma DetectsNothingAcross(groups: Blocks)
    requires AllDecoded(groups)
    ensures forall key :: key in groups ==> LoopAt(groups, key) == {}
  {
    hide DecoderOutput, IsStore;
    forall key | key in groups
      ensures LoopAt(groups, key) == {}
    {
      if |groups[key]| == 1 {
        NoDecodedStore(groups[key][0]);
      }
    }
  }

  /** The decoders of a sweep are the program's. */
  ghost predicate OwnDecoders(dis: Sweep.Disassembler) {
    && (forall w, a :: DecodesArm(w, dis.armDecode(w, a)))
    && (forall hw, a: word :: dis.thumbDecode(hw, a) == DecodeThumb(hw, a))
    && (forall hw, next, a :: dis.blPairDecode(hw, next, a).Some? ==> dis.blPairDecode(hw, next, a).value.opcode == "BL")
  }

  /** So what the linear sweep of an image records is decoder output. */
  lemma SweptIsDecoded(dis: Sweep.Disassembler, rom: seq<byte>, inst: Instruction)
    requires OwnDecoders(dis) && inst.address < TWO_32
    requires Sweep.ReadFrom(rom, inst) && dis.Says(rom, inst)
    ensures DecoderOutput(inst)
  {
    hide DecodeThumb, DecodesArm, Sweep.Half, Sweep.Word;
    if inst.mode.Arm? {
      assert SaysArm(inst.raw, inst);
    } else if inst.width == 2 {
      assert SaysThumb(inst.raw, inst.address, inst);
    }
  }

  /** The same of the selective disassembly, which feeds the recognisers. */
  lemma SelectedIsDecoded(dis: Sweep.Disassembler, rom: seq<byte>, modeMap: seq<(word, ArmMode)>, inst: Instruction)
    requires OwnDecoders(dis) && inst in dis.SelectAll(rom, modeMap)
    ensures DecoderOutput(inst)
  {
    hide DecoderOutput, OwnDecoders, Sweep.Disassembler.Selected, Sweep.Disassembler.SelectAll;
    dis.SelectedFrom(rom, modeMap, inst);
    var address: word, mode :| (address, mode) in modeMap && dis.Selected(rom, address, mode) == Some(inst);
    EntryIsDecoded(dis, rom, address, mode);
  }

  lemma EntryIsDecoded(dis: Sweep.Disassembler, rom: seq<byte>, address: word, mode: ArmMode)
    requires OwnDecoders(dis)
    ensures var o := dis.Selected(rom, address, mode); o.Some? ==> DecoderOutput(o.value)
  {
    hide DecodeThumb, DecodesArm, Sweep.Half, Sweep.Word, Low32;
    var o := dis.Selected(rom, address, mode);
    if o.Some? {
      if mode.Arm? {
        assert SaysArm(o.value.raw, o.value);
      } else if o.value.width == 2 {
        assert SaysThumb(o.value.raw, address - address % 2, o.value);
      }
    }
  }

  /** So however its output is then marked and cut into blocks, no loop is found in it. */
  lemma PipelineFindsNothing(dis: Sweep.Disassembler, rom: seq<byte>, modeMap: seq<(word, ArmMode)>,
      marked: seq<Instruction>, groups: Blocks)
    requires OwnDecoders(dis) && Sweep.MarkedUpTo(dis.SelectAll(rom, modeMap), marked, |marked|)
    requires forall key, i :: key in groups && i in groups[key] ==> i in marked
    ensures AllDecoded(groups) && forall key :: key in groups ==> LoopAt(groups, key) == {}
  {
    hide DecoderOutput, LoopAt, Sweep.Disassembler.SelectAll, Sweep.MarkedUpTo, OwnDecoders;
    forall key, k | key in groups && 0 <= k < |groups[key]|
      ensures DecoderOutput(groups[key][k])
    {
      assert groups[key][k] in groups[key];
      MarkedIsDecoded(dis, rom, modeMap, marked, groups[key][k]);
    }
    DetectsNothingAcross(groups);
  }

  lemma MarkedIsDecoded(dis: Sweep.Disassembler, rom: seq<byte>, modeMap: seq<(word, ArmMode)>,
      marked: seq<Instruction>, i: Instruction)
    requires OwnDecoders(dis) && Sweep.MarkedUpTo(dis.SelectAll(rom, modeMap), marked, |marked|) && i in marked
    ensures DecoderOutput(i)
  {
    hide DecoderOutput, OwnDecoders, Sweep.Disassembler.SelectAll, Sweep.Data, Sweep.UnknownFlags;
    var before := dis.SelectAll(rom, modeMap);
    var n :| 0 <= n < |marked| && marked[n] == i;
    SelectedIsDecoded(dis, rom, modeMap, before[n]);
    MarkKeepsDecoded(before[n], i.isData);
  }

  lemma MarkKeepsDecoded(i: Instruction, isData: bool)
    requires DecoderOutput(i)
    ensures DecoderOutput(i.(isData := isData))
  {
    var j := i.(isData := isData);
    hide DecodeThumb, DecodesArm;
    if i.mode.Arm? {
      var w :| SaysArm(w, i);
      assert SaysArm(w, j);
    } else if i.opcode != "BL" {
      var hw, address :| SaysThumb(hw, address, i);
      assert SaysThumb(hw, address, j);
    }
  }

  /** Of decoded SUBs the first recogniser takes none either; the second takes exactly SUB Rc, Rm, #4
      and SUB Rc, #4. */
  lemma DecodedSubIff(hw: half, address: word)
    ensures !Subtracts4(FromThumb(hw, address), 1)
    ensures Subtracts4(FromThumb(hw, address), 2) <==> hw / 0x40 == 0x7C || (hw / 0x800 == 7 && hw % 0x100 == 4)
  {
    if hw < 0x4000 {
      DecodedSubLow(hw, address);
    } else {
      NoSubAbove(hw, address);
    }
    hide DecodeThumb;
  }

  lemma DecodedSubLow(hw: half, address: word)
    requires hw < 0x4000
    ensures !Subtracts4(FromThumb(hw, address), 1)
    ensures Subtracts4(FromThumb(hw, address), 2) <==> hw / 0x40 == 0x7C || (hw / 0x800 == 7 && hw % 0x100 == 4)
  {
    hide DecodeRegisters, DecodeSingle, DecodeMisc, DecodeHigh;
    LowNames(hw);
  }

  /** The other formats have no flag-setting SUB. */
  lemma NoSubAbove(hw: half, address: word)
    requires hw >= 0x4000
    ensures DecodeThumb(hw, address).opcode != "SUB" || !DecodeThumb(hw, address).setsFlags
  {
    hide DecodeLow, DecodeRegisters, DecodeSingle, DecodeMisc, DecodeHigh;
    if hw < 0x4800 {
      RegisterNames(hw);
    } else if hw < 0xB000 {
      SingleNames(hw);
    } else if hw < 0xC000 {
      MiscNames(hw);
      MiscFlags(hw);
    } else {
      HighNames(hw, address);
    }
  }

  lemma MiscFlags(hw: half)
    requires 0xB000 <= hw < 0xC000
    ensures !DecodeMisc(hw).setsFlags
  {
    hide ListedBelow;
  }

  /** Decoded branches it takes exactly as they are: a BNE to the target in its low byte. */
  lemma DecodedBranchIff(hw: half, address: word, target: nat)
    ensures BranchesTo(FromThumb(hw, address), target)
            <==> hw / 0x100 == 0xD1 && target == Target(address, hw % 0x100, 0x80)
  {
    hide DecodeLow, DecodeRegisters, DecodeSingle, DecodeMisc, ListedBelow, Target;
    if hw < 0x4000 {
      LowNames(hw);
    } else if hw < 0x4800 {
      RegisterNames(hw);
    } else if hw < 0xB000 {
      SingleNames(hw);
    } else if hw < 0xC000 {
      MiscNames(hw);
    } else {
      HighNames(hw, address);
    }
  }

  /** So the second recogniser takes a loop that counts down a different register from the one it
      reads: SUB R2, R3, #4. */
  lemma AcceptsOtherCounter()
    ensures var store := Instruction(0, "STMIA", [Register(0), Register(1)], Thumb, 0, false, 2, false);
            var sub := Instruction(2, "SUB", [Register(2), Register(3), Immediate(4)], Thumb, 0, true, 2, false);
            var bne := Instruction(4, "BNE", [Immediate(0)], Thumb, 0, false, 2, false);
            var groups := map[(0, Thumb) := [store], (2, Thumb) := [sub], (4, Thumb) := [bne]];
            LoopAt(groups, (0, Thumb)) == {0, 2, 4} && Detect([store, sub, bne]) == None
  {
    var sub := Instruction(2, "SUB", [Register(2), Register(3), Immediate(4)], Thumb, 0, true, 2, false);
    assert PlaceOfImmediate(sub) == 2 && Subtracts4(sub, 2) && !Subtracts4(sub, 1);
  }

  // ----- the code emitted for a loop -----

  /** `n` words of `v` written from `addr` on. */
  function FillWords(m: MemState, addr: nat, n: nat, v: word): MemState
    decreases n
  {
    if n == 0 then m else FillWords(Write32(m, Low32(addr), v), addr + 4, n - 1, v)
  }

  /** The state after the emitted function: the counter is divided, not counted down. */
  function Emitted(s: CpuState, l: Loop): CpuState
    requires l.rb < 16 && l.rs < 16 && l.rc < 16
  {
    EmittedFor(s, l, Low32(s.regs[l.rc] / 4))
  }

  function EmittedFor(s: CpuState, l: Loop, n: nat): CpuState
    requires l.rb < 16 && l.rs < 16 && l.rc < 16
  {
    var t := s.(mem := FillWords(s.mem, s.regs[l.rb], n, Low32(s.regs[l.rs])), cpsr := WithFlags(s.cpsr, 0, 1, 1, 0));
    SetReg(SetReg(SetReg(t, l.rb, Low32(s.regs[l.rb] + 4 * n)), l.rc, 0), 15, l.fallThrough)
  }

  /** The emitted function itself. */
  method RunEmitted(cpu: ARM7TDMI, l: Loop)
    requires cpu.Valid() && l.rb < 16 && l.rs < 16 && l.rc < 16
    modifies cpu, cpu.memory, cpu.memory.Arrays
    ensures cpu.Valid() && cpu.State() == Emitted(old(cpu.State()), l)
  {
    hide ARM7TDMI.State, ARM7TDMI.Valid, Write32, SetReg, WithFlags;
    cpu.Fields();
    var n: nat, base, v := Low32(cpu.registers[l.rc] / 4), cpu.registers[l.rb], Low32(cpu.registers[l.rs]);
    FillLoop(cpu, base, n, v);
    cpu.Fields();
    cpu.SetCpsr(WithFlags(cpu.cpsr, 0, 1, 1, 0));
    cpu.Set(l.rb, Low32(base + 4 * n));
    cpu.Set(l.rc, 0);
    cpu.Set(15, l.fallThrough);
  }

  method FillLoop(cpu: ARM7TDMI, base: nat, n: nat, v: word)
    requires cpu.Valid()
    modifies cpu.memory, cpu.memory.Arrays
    ensures cpu.Valid()
    ensures var s := old(cpu.State()); cpu.State() == s.(mem := FillWords(s.mem, base, n, v))
  {
    hide ARM7TDMI.State, ARM7TDMI.Valid, Write32;
    for i := 0 to n
      invariant cpu.Valid()
      invariant cpu.State() == old(cpu.State()).(mem := cpu.State().mem)
      invariant FillWords(cpu.State().mem, base + 4 * i, n - i, v) == FillWords(old(cpu.State()).mem, base, n, v)
    {
      cpu.StoreWord(Low32(base + i * 4), v);
    }
  }
}
