/** What the recognised loops do: the exact condition under which the code emitted for one is right,
    a loop that overwrites itself, and an instance. */
module RecogniserLaws {
  import opened Wrappers
  import opened Arith
  import opened Words
  import opened Alu
  import opened AluLaws
  import opened Memory
  import opened MemoryLaws
  import opened Processor
  import opened BlockLaws
  import opened Memset
  import opened MemsetLaws
  import D = Decoders
  import I = Instructions

  // ----- the recogniser that drives code generation -----

  /** The three tests it makes. */
  predicate Matched(store: I.Instruction, sub: I.Instruction, bne: I.Instruction) {
    IsStore(store) && Subtracts4(sub, PlaceOfImmediate(sub)) && BranchesTo(bne, store.address)
  }

  /** Three one-instruction blocks in a row are taken just when the tests succeed. */
  lemma MatchedIff(groups: Blocks, store: I.Instruction, sub: I.Instruction, bne: I.Instruction, mode: I.ArmMode)
    requires InARow(groups, store, sub, bne, mode)
    ensures LoopAt(groups, (store.address, mode)) != {} <==> Matched(store, sub, bne)
  {
  }

  predicate InARow(groups: Blocks, store: I.Instruction, sub: I.Instruction, bne: I.Instruction, mode: I.ArmMode) {
    && Single(groups, (store.address, mode)) == Some(store)
    && Single(groups, (store.address + 2, mode)) == Some(sub) && Single(groups, (sub.address + 2, mode)) == Some(bne)
  }

  /** Three halfwords in a row.  SUB and BNE are as decoded, or SUB has two operands; STMIA has the two
      register operands that the recogniser wants. */
  predicate Encoded(store: I.Instruction, sub: I.Instruction, bne: I.Instruction)
    requires Matched(store, sub, bne)
  {
    && Distinct(LoopOfTriple(store, sub, bne))
    && sub.address == store.address + 2 && bne.address == store.address + 4 && bne.address < TWO_32
    && store.raw == StoreCode(LoopOfTriple(store, sub, bne))
    && bne.raw < 0x1_0000 && bne == FromThumb(bne.raw, bne.address)
    && sub.raw < 0x1_0000
    && (sub == FromThumb(sub.raw, sub.address)
        || (|sub.operands| == 2 && sub.raw == SubCode(LoopOfTriple(store, sub, bne))))
  }

  predicate Written(store: I.Instruction, sub: I.Instruction, bne: I.Instruction) {
    Matched(store, sub, bne) && Encoded(store, sub, bne)
  }

  function LoopOfTriple(store: I.Instruction, sub: I.Instruction, bne: I.Instruction): Loop
    requires Matched(store, sub, bne)
  {
    Loop(store.operands[0].r, store.operands[1].r, sub.operands[0].r, bne.address + bne.width)
  }

  /** SUB reads the register it writes. */
  predicate OwnCounter(sub: I.Instruction) {
    |sub.operands| == 2 || (|sub.operands| > 2 && sub.operands[1] == sub.operands[0])
  }

  /** A start in which the emitted code could be right: the code in place, the counter a nonzero
      multiple of four, and the base in range throughout. */
  predicate Starts(s: CpuState, store: I.Instruction, sub: I.Instruction, bne: I.Instruction)
    requires Written(store, sub, bne)
  {
    var l := LoopOfTriple(store, sub, bne);
    && s.regs[15] == store.address && 0 < s.regs[l.rc] && s.regs[l.rc] % 4 == 0 && s.regs[l.rb] + s.regs[l.rc] < TWO_32
    && Fetch(s.mem, store.address, store.raw) && Fetch(s.mem, sub.address, sub.raw) && Fetch(s.mem, bne.address, bne.raw)
  }

  /** From every such start the loop gets to the state the emitted code leaves. */
  ghost predicate EmittedRight(store: I.Instruction, sub: I.Instruction, bne: I.Instruction)
    requires Written(store, sub, bne)
  {
    var l := LoopOfTriple(store, sub, bne);
    forall s: CpuState :: Starts(s, store, sub, bne) ==> Agree(s, l)
  }

  /** After some number of steps, whichever. */
  ghost predicate Agree(s: CpuState, l: Loop)
    requires Distinct(l)
  {
    exists n: nat :: Steps(s, n) == Done(Emitted(s, l))
  }

  lemma BranchBack(store: I.Instruction, sub: I.Instruction, bne: I.Instruction)
    requires Written(store, sub, bne)
    ensures bne.raw == BNE_CODE && bne.width == 2
  {
    DecodedBranchIff(bne.raw, bne.address, store.address);
    var low := bne.raw % 0x100;
    hide D.DecodeThumb;
    assert D.Target(bne.address, low, 0x80) == store.address;
  }

  /** The SUB, encoded. */
  lemma SubEncoded(store: I.Instruction, sub: I.Instruction, bne: I.Instruction) returns (rm: nat)
    requires Written(store, sub, bne)
    ensures rm < 8
    ensures var rc := LoopOfTriple(store, sub, bne).rc;
            && (OwnCounter(sub) <==> rm == rc)
            && (sub.raw == SubRegisterCode(rc, rm) || (rm == rc && sub.raw == SubCode(LoopOfTriple(store, sub, bne))))
  {
    rm := sub.operands[0].r;
    if |sub.operands| != 2 {
      DecodedSubIff(sub.raw, sub.address);
      if sub.raw / 0x40 == 0x7C {
        SubRegisterOperands(sub.raw, sub.address);
        rm := sub.raw / 8 % 8;
      } else {
        SubImmediateOperands(sub.raw, sub.address);
      }
    }
  }

  lemma SubRegisterOperands(hw: half, address: word)
    requires hw / 0x40 == 0x7C
    ensures FromThumb(hw, address).operands == [I.Register(hw % 8), I.Register(hw / 8 % 8), I.Immediate(4)]
    ensures hw == SubRegisterCode(hw % 8, hw / 8 % 8)
  {
  }

  lemma SubImmediateOperands(hw: half, address: word)
    requires hw / 0x800 == 7 && hw % 0x100 == 4
    ensures FromThumb(hw, address).operands == [I.Register(hw / 0x100 % 8), I.Register(hw / 0x100 % 8), I.Immediate(4)]
    ensures hw == 0x3804 + 0x100 * (hw / 0x100 % 8)
  {
  }

  // ----- a loop that counts down another register -----

  lemma SubFromFields(s: CpuState, rc: nat, rm: nat, like: CpuState)
    requires rc < 8 && rm < 8 && Fields(s, s.regs, s.cpsr, s.mem, like)
    ensures var o := SubC(s.regs[rm], 4, 1);
            Fields(AfterSubFrom(s, rc, rm), s.regs[rc := o.result][15 := s.regs[15] + 2],
                   SetFlags(s.cpsr, o.result, o.c, o.v), s.mem, like)
  {
    hide SubC, SetFlags;
  }

  lemma FlagZOf(cpsr: word, result: nat, c: bit, v: bit)
    ensures FlagZ(SetFlags(cpsr, result, c, v)) == BitIf(result == 0)
  {
    FlagsRead(cpsr, result / 0x8000_0000 % 2, BitIf(result == 0), c, v);
  }

  /** At the top of a loop whose SUB reads another register, and that register not a multiple of four. */
  predicate Astray(s: CpuState, a: nat, l: Loop, rm: nat)
    requires Distinct(l)
  {
    && rm < 8 && rm != l.rc && s.regs[15] == a && ROM_START <= a && a + 6 < TWO_32 && s.regs[rm] % 4 == 1
    && Fetch(s.mem, a, StoreCode(l)) && Fetch(s.mem, a + 2, SubRegisterCode(l.rc, rm)) && Fetch(s.mem, a + 4, BNE_CODE)
  }

  lemma NotFour(r: nat)
    requires r % 4 == 1
    ensures Less4(r) != 0 && (r + 4) % 4 == 1
  {
  }

  /** The store leaves the code and the stray register's remainder as they are. */
  lemma AstrayStore(s: CpuState, a: nat, l: Loop, rm: nat)
    requires Distinct(l) && Astray(s, a, l, rm)
    ensures var t := AfterStore(s, l);
            && StepThumb(s) == Done(t) && Fields(t, t.regs, t.cpsr, t.mem, s) && t.regs[15] == a + 2
            && t.regs[rm] % 4 == 1
            && Fetch(t.mem, a, StoreCode(l)) && Fetch(t.mem, a + 2, SubRegisterCode(l.rc, rm)) && Fetch(t.mem, a + 4, BNE_CODE)
  {
    hide StepThumb, StoreCode, SubRegisterCode, Fetch, AfterStore, Write32;
    var v := Low32(s.regs[l.rs]);
    StoreStep(s, l);
    StoreFields(s, l);
    FetchKept(s.mem, a, StoreCode(l), s.regs[l.rb], v);
    FetchKept(s.mem, a + 2, SubRegisterCode(l.rc, rm), s.regs[l.rb], v);
    FetchKept(s.mem, a + 4, BNE_CODE, s.regs[l.rb], v);
    NotFour(s.regs[rm]);
  }

  /** The subtraction does not give zero. */
  lemma AstraySub(s: CpuState, a: nat, rc: nat, rm: nat, like: CpuState)
    requires rc < 8 && rm < 8 && rm != rc && s.regs[15] == a + 2 && s.regs[rm] % 4 == 1
    requires Fields(s, s.regs, s.cpsr, s.mem, like) && Fetch(s.mem, a + 2, SubRegisterCode(rc, rm))
    ensures var t := AfterSubFrom(s, rc, rm);
            && StepThumb(s) == Done(t) && Fields(t, t.regs, t.cpsr, t.mem, like) && t.regs[15] == a + 4
            && t.mem == s.mem && t.regs[rm] % 4 == 1 && FlagZ(t.cpsr) == 0
  {
    hide StepThumb, SubRegisterCode, Fetch, AfterSubFrom, SetFlags, FlagZ, Less4, SubC;
    var o := SubC(s.regs[rm], 4, 1);
    NotFour(s.regs[rm]);
    SubIsLess4(s.regs[rm]);
    FlagZOf(s.cpsr, o.result, o.c, o.v);
    SubRegisterStep(s, rc, rm);
    SubFromFields(s, rc, rm, like);
  }

  /** A turn goes back to the top. */
  lemma OtherTurn(s: CpuState, a: nat, l: Loop, rm: nat)
    requires Distinct(l) && Astray(s, a, l, rm)
    ensures At(Steps(s, 1), a + 2) && At(Steps(s, 2), a + 4)
    ensures Steps(s, 3).Done? && Astray(Steps(s, 3).s, a, l, rm)
  {
    hide StepThumb, Steps, StoreCode, SubRegisterCode, Fetch, AfterStore, AfterSubFrom, AfterBranch, FlagZ;
    AstrayStore(s, a, l, rm);
    var s1 := AfterStore(s, l);
    AstraySub(s1, a, l.rc, rm, s);
    var s2 := AfterSubFrom(s1, l.rc, rm);
    BranchStep(s2);
    BranchFields(s2, a, s);
    ThreeSteps(s, s1, s2, AfterBranch(s2));
  }

  /** So the loop never ends. */
  lemma {:induction false} NeverOut(s: CpuState, a: nat, l: Loop, rm: nat, n: nat)
    requires Distinct(l) && Astray(s, a, l, rm)
    ensures !At(Steps(s, n), a + 6)
    decreases n
  {
    hide Steps, Fetch, StoreCode, SubRegisterCode;
    OtherTurn(s, a, l, rm);
    if n == 0 {
      NoSteps(s);
    } else if n >= 3 {
      StepsAdd(s, 3, n - 3);
      NeverOut(Steps(s, 3).s, a, l, rm, n - 3);
    }
  }

  lemma ThreeSteps(s: CpuState, s1: CpuState, s2: CpuState, s3: CpuState)
    requires StepThumb(s) == Done(s1) && StepThumb(s1) == Done(s2) && StepThumb(s2) == Done(s3)
    ensures Steps(s, 1) == Done(s1) && Steps(s, 2) == Done(s2) && Steps(s, 3) == Done(s3)
  {
    hide StepThumb, Steps;
    FirstStep(s, s1, 1);
    FirstStep(s, s1, 2);
    FirstStep(s1, s2, 1);
    NoSteps(s1);
    NoSteps(s2);
    FirstStep(s, s1, 3);
    FirstStep(s1, s2, 2);
    FirstStep(s2, s3, 1);
    NoSteps(s3);
  }

  // ----- a cartridge with three given halfwords -----

  /** The image: zeros up to the halfwords. */
  function Image(offset: nat, h0: half, h1: half, h2: half): (rom: seq<byte>)
    ensures |rom| == offset + 6
  {
    Zeros(offset) + [h0 % 0x100, h0 / 0x100, h1 % 0x100, h1 / 0x100, h2 % 0x100, h2 / 0x100]
  }

  lemma ImageFetched(m: MemState, offset: nat, h0: half, h1: half, h2: half)
    requires offset + 6 <= ROM_MAX_SIZE == m.romMirror && m.rom == Image(offset, h0, h1, h2)
    ensures var a := ROM_START + offset; Fetch(m, a, h0) && Fetch(m, a + 2, h1) && Fetch(m, a + 4, h2)
  {
    hide Image, Fetch;
    HalfwordFetched(m, offset, h0);
    HalfwordFetched(m, offset + 2, h1);
    HalfwordFetched(m, offset + 4, h2);
    ImageBytes(offset, h0, h1, h2);
  }

  lemma ImageBytes(offset: nat, h0: half, h1: half, h2: half)
    ensures var r := Image(offset, h0, h1, h2);
            && r[offset] == h0 % 0x100 && r[offset + 1] == h0 / 0x100 && r[offset + 2] == h1 % 0x100
            && r[offset + 3] == h1 / 0x100 && r[offset + 4] == h2 % 0x100 && r[offset + 5] == h2 / 0x100
  {
  }

  lemma HalfwordFetched(m: MemState, i: nat, h: half)
    requires m.romMirror == ROM_MAX_SIZE && i + 1 < |m.rom|
    ensures m.rom[i] == h % 0x100 && m.rom[i + 1] == h / 0x100 ==> Fetch(m, ROM_START + i, h)
  {
    var pc := ROM_START + i;
    MapFixed(pc);
    hide MapAddress, Read8;
    assert Locate(pc) == Rom(i);
    assert i % m.romMirror == i by { DivUnique(i, ROM_MAX_SIZE, 0, i); }
    assert BufferFor(m, pc) == Slice(m.rom, i);
  }

  /** A counter of 4, and in the other registers something that is no multiple of four. */
  function Misled(store: I.Instruction, sub: I.Instruction, bne: I.Instruction): (s: CpuState)
    requires Written(store, sub, bne)
    requires ROM_START <= store.address && store.address + 6 <= ROM_START + ROM_MAX_SIZE
  {
    var l := LoopOfTriple(store, sub, bne);
    ResetState(Initial(Image(store.address - ROM_START, StoreCode(l) % 0x1_0000, sub.raw, bne.raw), ROM_MAX_SIZE))
      .(regs := seq(16, j => if j == 15 then store.address else if j == l.rc then 4 else EWRAM_START + 1))
  }

  lemma StoreCodeSmall(l: Loop)
    requires Distinct(l)
    ensures StoreCode(l) % 0x1_0000 == StoreCode(l)
  {
    SmallPow2(l.rs);
  }

  lemma MisledStarts(store: I.Instruction, sub: I.Instruction, bne: I.Instruction)
    requires Written(store, sub, bne)
    requires ROM_START <= store.address && store.address + 6 <= ROM_START + ROM_MAX_SIZE
    ensures var s, l := Misled(store, sub, bne), LoopOfTriple(store, sub, bne);
            && Starts(s, store, sub, bne) && s.regs[l.rc] == 4 && s.regs[15] == store.address
            && forall j :: 0 <= j < 8 && j != l.rc ==> s.regs[j] == EWRAM_START + 1
  {
    var l := LoopOfTriple(store, sub, bne);
    StoreCodeSmall(l);
    ImageFetched(Misled(store, sub, bne).mem, store.address - ROM_START, StoreCode(l), sub.raw, bne.raw);
    hide Fetch, StoreCode, Image, FromThumb, Matched;
  }

  /** The code emitted for a triple that drives code generation is right from every start exactly when
      SUB reads the register it writes: when it has two operands, or its second is its first. */
  lemma EmittedRightIff(groups: Blocks, store: I.Instruction, sub: I.Instruction, bne: I.Instruction, mode: I.ArmMode)
    requires InARow(groups, store, sub, bne, mode) && LoopAt(groups, (store.address, mode)) != {}
    requires Matched(store, sub, bne) ==> Encoded(store, sub, bne)
    requires ROM_START <= store.address && store.address + 6 <= ROM_START + ROM_MAX_SIZE
    ensures Written(store, sub, bne) && (EmittedRight(store, sub, bne) <==> OwnCounter(sub))
  {
    MatchedIff(groups, store, sub, bne, mode);
    hide Matched, Encoded, Starts, OwnCounter, Agree, Misled, InARow, LoopAt;
    if OwnCounter(sub) {
      forall s: CpuState | Starts(s, store, sub, bne)
        ensures Distinct(LoopOfTriple(store, sub, bne)) && Agree(s, LoopOfTriple(store, sub, bne))
      {
        OwnCounterAgrees(s, store, sub, bne);
      }
    } else {
      MisledDisagrees(store, sub, bne);
    }
  }

  lemma OwnCounterAgrees(s: CpuState, store: I.Instruction, sub: I.Instruction, bne: I.Instruction)
    requires Written(store, sub, bne) && Starts(s, store, sub, bne) && OwnCounter(sub)
    requires ROM_START <= store.address && store.address + 6 < TWO_32
    ensures Distinct(LoopOfTriple(store, sub, bne)) && Agree(s, LoopOfTriple(store, sub, bne))
  {
    var l, a := LoopOfTriple(store, sub, bne), store.address;
    hide Steps, Emitted, Code, FillClear, FromThumb, Matched, OwnCounter;
    InPlace(s, store, sub, bne);
    BranchBack(store, sub, bne);
    RomFillClear(a, s.regs[l.rb], Turns(s.regs[l.rc]));
    LoopIsEmittedIff(s, a, l);
  }

  lemma InPlace(s: CpuState, store: I.Instruction, sub: I.Instruction, bne: I.Instruction)
    requires Written(store, sub, bne) && Starts(s, store, sub, bne) && OwnCounter(sub)
    ensures Code(s.mem, store.address, LoopOfTriple(store, sub, bne))
  {
    hide *;
    BranchBack(store, sub, bne);
    var rm := SubEncoded(store, sub, bne);
    Fetched(s, store, sub, bne);
    CodeOf(s.mem, store.address, LoopOfTriple(store, sub, bne), sub.raw);
  }

  lemma CodeOf(m: MemState, a: nat, l: Loop, sub: nat)
    requires Distinct(l) && Fetch(m, a, StoreCode(l)) && Fetch(m, a + 2, sub) && Fetch(m, a + 4, BNE_CODE)
    ensures sub == SubCode(l) || sub == SubRegisterCode(l.rc, l.rc) ==> Code(m, a, l)
  {
    hide Fetch, StoreCode, SubCode, SubRegisterCode;
  }

  lemma Fetched(s: CpuState, store: I.Instruction, sub: I.Instruction, bne: I.Instruction)
    requires Written(store, sub, bne) && Starts(s, store, sub, bne)
    ensures var a := store.address;
            && Matched(store, sub, bne) && Distinct(LoopOfTriple(store, sub, bne))
            && Fetch(s.mem, a, StoreCode(LoopOfTriple(store, sub, bne))) && Fetch(s.mem, a + 2, sub.raw)
            && Fetch(s.mem, a + 4, bne.raw)
  {
    hide Fetch, StoreCode, SubCode, FromThumb, Matched, LoopOfTriple;
  }

  lemma MisledDisagrees(store: I.Instruction, sub: I.Instruction, bne: I.Instruction)
    requires Written(store, sub, bne) && !OwnCounter(sub)
    requires ROM_START <= store.address && store.address + 6 <= ROM_START + ROM_MAX_SIZE
    ensures Distinct(LoopOfTriple(store, sub, bne))
    ensures var s := Misled(store, sub, bne); Starts(s, store, sub, bne) && !Agree(s, LoopOfTriple(store, sub, bne))
  {
    var rm := MisledAstray(store, sub, bne);
    MisledStarts(store, sub, bne);
    BranchBack(store, sub, bne);
    var l := LoopOfTriple(store, sub, bne);
    assert l.fallThrough == store.address + 6;
    hide *;
    NeverEmitted(Misled(store, sub, bne), store.address, l, rm);
  }

  lemma MisledAstray(store: I.Instruction, sub: I.Instruction, bne: I.Instruction) returns (rm: nat)
    requires Written(store, sub, bne) && !OwnCounter(sub)
    requires ROM_START <= store.address && store.address + 6 <= ROM_START + ROM_MAX_SIZE
    ensures Distinct(LoopOfTriple(store, sub, bne))
    ensures Astray(Misled(store, sub, bne), store.address, LoopOfTriple(store, sub, bne), rm)
  {
    hide Fetch, StoreCode, SubCode, SubRegisterCode, FromThumb, Matched, OwnCounter, Misled, Starts;
    BranchBack(store, sub, bne);
    rm := SubEncoded(store, sub, bne);
    MisledStarts(store, sub, bne);
    Fetched(Misled(store, sub, bne), store, sub, bne);
  }

  lemma NeverEmitted(s: CpuState, a: nat, l: Loop, rm: nat)
    requires Distinct(l) && Astray(s, a, l, rm) && l.fallThrough == a + 6
    ensures !Agree(s, l)
  {
    assert Emitted(s, l).regs[15] == a + 6 by { hide FillWords, WithFlags; }
    hide Steps, Emitted, Astray;
    forall n: nat
      ensures !At(Steps(s, n), a + 6)
    {
      NeverOut(s, a, l, rm, n);
    }
  }

  // ----- a loop that overwrites itself -----

  /** MOV R8, R8, which does nothing. */
  const MOV_R8_R8 := 0x46C0

  lemma MovStep(s: CpuState)
    requires Fetch(s.mem, s.regs[15], MOV_R8_R8)
    ensures StepThumb(s).Done? && StepThumb(s).s.regs[15] == s.regs[15] + 2
  {
    hide Read16, AfterRead16;
    hide ThumbAddSub, ThumbImmediate, ThumbAluOp, PushPop, LdmStm, CondBranch;
    assert ExecuteThumb(s, MOV_R8_R8) == Done(ThumbHi(s, MOV_R8_R8));
  }

  /** In RAM the counter does not decide: with R0 on the loop's own BNE and MOV R8, R8 in R1, the loop
      replaces its branch and is past its end after one turn, whatever is in the counter. */
  lemma LoopEscapes(s: CpuState)
    requires s.regs[15] == IWRAM_START && s.regs[0] == IWRAM_START + 4 && s.regs[1] == MOV_R8_R8
    requires Code(s.mem, IWRAM_START, Loop(0, 1, 2, IWRAM_START + 6))
    ensures At(Steps(s, 3), IWRAM_START + 6)
  {
    hide StepThumb, Steps, StoreCode, SubCode, SubRegisterCode, Fetch, AfterStore, AfterSubFrom, Write32, SetFlags, SubC;
    var l := Loop(0, 1, 2, IWRAM_START + 6);
    var s1 := AfterStore(s, l);
    StoreStep(s, l);
    StoreFields(s, l);
    BranchOverwritten(s.mem);
    SubLeft(s.mem, SubCode(l));
    SubLeft(s.mem, SubRegisterCode(2, 2));
    SubStep(s1, l);
    SubFields(s1, l, s);
    var s2 := AfterSub(s1, l);
    MovStep(s2);
    ThreeSteps(s, s1, s2, StepThumb(s2).s);
  }

  /** The store on the branch changes it and not the halfword before. */
  lemma BranchOverwritten(m: MemState)
    ensures Fetch(Write32(m, Low32(IWRAM_START + 4), MOV_R8_R8), IWRAM_START + 4, MOV_R8_R8)
  {
    var c: int := IWRAM_START + 4;
    MapFixed(IWRAM_START + 4);
    Write32Ram(m, IWRAM_START + 4, MOV_R8_R8);
    var w := Poke4(m, c, MOV_R8_R8);
    hide MapAddress, Read16, AfterRead16, Write32, Poke4, Cell;
    Read16Ram(w, IWRAM_START + 4);
    Poke4Cells(m, c, MOV_R8_R8, c);
    Poke4Cells(m, c, MOV_R8_R8, c + 1);
  }

  lemma SubLeft(m: MemState, instr: nat)
    ensures Fetch(m, IWRAM_START + 2, instr)
            ==> Fetch(Write32(m, Low32(IWRAM_START + 4), MOV_R8_R8), IWRAM_START + 2, instr)
  {
    var c: int := IWRAM_START + 4;
    MapFixed(IWRAM_START + 4);
    MapFixed(IWRAM_START + 2);
    Write32Ram(m, IWRAM_START + 4, MOV_R8_R8);
    hide MapAddress, Read16, AfterRead16, Write32, Poke4;
    RamFetch(m, IWRAM_START + 2, c, MOV_R8_R8);
  }

  // ----- an instance -----

  /** A cartridge that holds just STMIA R0!, {R1}; SUB R2, #4; BNE back, run on `n` words of EWRAM. */
  lemma CartridgeFills(s: CpuState, n: nat, i: nat)
    requires s.mem.rom == Image(0, 0xC002, 0x3A04, 0xD1FC) && s.mem.romMirror == ROM_MAX_SIZE && s.regs[15] == ROM_START
    requires s.regs[0] == EWRAM_START && s.regs[2] == 4 * n && i < n <= 0x1_0000
    ensures var o := Steps(s, 3 * n);
            && At(o, ROM_START + 6) && Word(o.s.mem, EWRAM_START + 4 * i) == Low32(s.regs[1])
            && OnlyChanged(s.mem, o.s.mem, EWRAM_START, 4 * n)
  {
    hide Steps, Fetch, Emitted, Word, OnlyChanged, StoreCode, Image, MapAddress, Room;
    ImageFetched(s.mem, 0, 0xC002, 0x3A04, 0xD1FC);
    var l := Loop(0, 1, 2, ROM_START + 6);
    StoreCodeOne();
    RoomInEwram(n);
    LoopIsFill(s, ROM_START, l, EWRAM_START, n, i);
  }

  lemma StoreCodeOne()
    ensures StoreCode(Loop(0, 1, 2, ROM_START + 6)) == 0xC002
  {
    assert Pow2(1) == 2;
  }

  lemma RoomInEwram(n: nat)
    requires n <= 0x1_0000
    ensures Room(EWRAM_START, EWRAM_START, n)
  {
    MapFixed(EWRAM_START);
  }
}
