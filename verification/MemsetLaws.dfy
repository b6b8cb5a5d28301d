/** What the recognised loop does when the interpreter runs it, against the code emitted for it. */
module MemsetLaws {
  import opened Words
  import opened Alu
  import opened AluLaws
  import opened Memory
  import opened MemoryLaws
  import opened DmaLaws
  import opened P = Processor
  import opened BlockLaws
  import opened Memset

  // ----- running Thumb code -----

  function Iterate(step: CpuState -> Outcome, s: CpuState, n: nat): Outcome
    decreases n
  {
    if n == 0 then Done(s)
    else
      match step(s)
      case Done(t) => Iterate(step, t, n - 1)
      case OtherFormat => OtherFormat
  }

  lemma {:induction false} IterateAdd(step: CpuState -> Outcome, s: CpuState, m: nat, n: nat)
    requires Iterate(step, s, m).Done?
    ensures Iterate(step, s, m + n) == Iterate(step, Iterate(step, s, m).s, n)
    decreases m
  {
    if m > 0 {
      IterateAdd(step, step(s).s, m - 1, n);
    }
  }

  /** `n` steps of the interpreter. */
  function Steps(s: CpuState, n: nat): Outcome {
    Iterate(StepThumb, s, n)
  }

  lemma StepsAdd(s: CpuState, m: nat, n: nat)
    requires Steps(s, m).Done?
    ensures Steps(s, m + n) == Steps(Steps(s, m).s, n)
  {
    hide StepThumb;
    IterateAdd(StepThumb, s, m, n);
  }

  lemma NoSteps(s: CpuState)
    ensures Steps(s, 0) == Done(s)
  {
    hide StepThumb;
  }

  lemma FirstStep(s: CpuState, t: CpuState, n: nat)
    requires n > 0 && StepThumb(s) == Done(t)
    ensures Steps(s, n) == Steps(t, n - 1)
  {
    hide StepThumb;
  }

  /** Does execution ever get to `pc`? */
  ghost predicate Reaches(s: CpuState, pc: nat) {
    exists n: nat :: At(Steps(s, n), pc)
  }

  predicate At(o: Outcome, pc: nat) {
    o.Done? && o.s.regs[15] == pc
  }

  // ----- the loop's encoding -----

  function StoreCode(l: Loop): nat
    requires l.rb < 8 && l.rs < 8
  {
    0xC000 + 0x100 * l.rb + Pow2(l.rs)
  }

  /** SUB Rc, #4 (format 3). */
  function SubCode(l: Loop): nat { 0x3804 + 0x100 * l.rc }

  /** SUB Rc, Rm, #4 (format 2). */
  function SubRegisterCode(rc: nat, rm: nat): nat { 0x1F00 + 8 * rm + rc }

  const BNE_CODE := 0xD1FC

  /** Three different low registers. */
  predicate Distinct(l: Loop) {
    l.rb < 8 && l.rs < 8 && l.rc < 8 && l.rb != l.rs && l.rb != l.rc && l.rs != l.rc
  }

  /** The loop's code at `a`, as the interpreter fetches it, with either encoding of the SUB. */
  predicate Code(m: MemState, a: nat, l: Loop)
    requires Distinct(l)
  {
    && Fetch(m, a, StoreCode(l)) && Fetch(m, a + 4, BNE_CODE)
    && (Fetch(m, a + 2, SubCode(l)) || Fetch(m, a + 2, SubRegisterCode(l.rc, l.rc)))
  }

  /** Fetching is a read of the halfword, with no side effect. */
  predicate Fetch(m: MemState, pc: nat, instr: nat) {
    pc < TWO_32 && Read16(m, pc) == instr && AfterRead16(m, pc) == m
  }

  // ----- a single-register STMIA -----

  lemma {:induction false} StoreOne(s: CpuState, rs: nat, i: nat, addr: int)
    requires i <= 8 && rs < 8
    ensures StoreFrom(s, Pow2(rs), i, 8, addr)
            == if i <= rs then s.(mem := Write32(s.mem, Low32(addr), Low32(s.regs[rs]))) else s
    decreases 8 - i
  {
    if i < 8 {
      hide Write32, Bit, Pow2;
      PowBit(rs, i);
      if i == rs {
        StoreOne(s.(mem := Write32(s.mem, Low32(addr), Low32(s.regs[rs]))), rs, i + 1, addr + 4);
      } else {
        StoreOne(s, rs, i + 1, addr);
      }
    }
  }

  lemma {:induction false} CountOne(rs: nat, n: nat)
    ensures Count(Pow2(rs), n) == if rs < n then 1 else 0
  {
    if n > 0 {
      PowBit(rs, n - 1);
      CountOne(rs, n - 1);
    }
  }

  lemma SmallPow2(k: nat)
    requires k < 8
    ensures 1 <= Pow2(k) < 0x100
  {
    Pow2Monotone(k, 7);
    assert Pow2(4) == 0x10;
  }

  // ----- the three instructions -----

  function AfterStore(s: CpuState, l: Loop): CpuState
    requires Distinct(l)
  {
    var t := s.(mem := Write32(s.mem, Low32(s.regs[l.rb]), Low32(s.regs[l.rs])));
    SetReg(SetReg(t, l.rb, s.regs[l.rb] + 4), 15, s.regs[15] + 2)
  }

  lemma StoreDecoded(l: Loop)
    requires Distinct(l)
    ensures var c := StoreCode(l);
            0xBE <= c / 0x100 <= 0xCF && c / 0x800 % 2 == 0 && c / 0x100 % 8 == l.rb && c % 0x100 == Pow2(l.rs)
  {
    SmallPow2(l.rs);
    assert StoreCode(l) / 0x100 == 0xC0 + l.rb;
  }

  lemma StoreStep(s: CpuState, l: Loop)
    requires Distinct(l) && Fetch(s.mem, s.regs[15], StoreCode(l))
    ensures StepThumb(s) == Done(AfterStore(s, l))
  {
    hide Read16, AfterRead16, Write32, StoreCode, StoreFrom, Count, Pow2;
    StoreDecoded(l);
    SmallPow2(l.rs);
    StoreOne(s, l.rs, 0, s.regs[l.rb]);
    CountOne(l.rs, 8);
    hide ThumbAddSub, ThumbImmediate, ThumbAluOp, ThumbHi, PushPop, CondBranch;
    assert ExecuteThumb(s, StoreCode(l)) == Done(LdmStm(s, StoreCode(l)));
    assert LdmStm(s, StoreCode(l)) == AfterStore(s, l);
  }

  /** Rm - 4 in Rc, with the flags. */
  function AfterSubFrom(s: CpuState, rc: nat, rm: nat): CpuState
    requires rc < 8 && rm < 8
  {
    var o := SubC(s.regs[rm], 4, 1);
    SetReg(SetReg(s.(cpsr := SetFlags(s.cpsr, o.result, o.c, o.v)), rc, o.result), 15, s.regs[15] + 2)
  }

  function AfterSub(s: CpuState, l: Loop): CpuState
    requires Distinct(l)
  {
    AfterSubFrom(s, l.rc, l.rc)
  }

  lemma SubDecoded(l: Loop)
    requires l.rc < 8
    ensures var c := SubCode(l);
            0x20 <= c / 0x100 <= 0x3F && c / 0x800 % 4 == 3 && c / 0x100 % 8 == l.rc && c % 0x100 == 4
  {
    assert SubCode(l) / 0x100 == 0x38 + l.rc;
  }

  lemma SubImmediate(s: CpuState, instr: nat)
    requires instr / 0x800 % 4 == 3
    ensures var rd, o := instr / 0x100 % 8, SubC(s.regs[instr / 0x100 % 8], instr % 0x100, 1);
            ThumbImmediate(s, instr)
            == SetReg(SetReg(s.(cpsr := SetFlags(s.cpsr, o.result, o.c, o.v)), rd, o.result), 15, s.regs[15] + 2)
  {
    var rd, imm := instr / 0x100 % 8, instr % 0x100;
    var a := s.regs[rd];
    assert SubC(a, imm, 1).result == Low32(a - imm);
    hide SubC, AddImmediate, WriteReg, SetFlags;
    WriteLow(s, rd, Low32(a - imm));
  }

  lemma SubImmediateStep(s: CpuState, l: Loop)
    requires Distinct(l) && Fetch(s.mem, s.regs[15], SubCode(l))
    ensures StepThumb(s) == Done(AfterSub(s, l))
  {
    hide Read16, AfterRead16, SubCode, SetFlags, SubC, ThumbAddSub, ThumbImmediate, ThumbAluOp, ThumbHi, PushPop,
         CondBranch, LdmStm;
    SubDecoded(l);
    assert ExecuteThumb(s, SubCode(l)) == Done(ThumbImmediate(s, SubCode(l)));
    SubImmediate(s, SubCode(l));
  }

  lemma SubRegisterDecoded(rc: nat, rm: nat)
    requires rc < 8 && rm < 8
    ensures var c := SubRegisterCode(rc, rm);
            && c / 0x100 == 0x1F && c % 8 == rc && c / 8 % 8 == rm && c / 0x40 % 8 == 4
            && c / 0x200 % 2 == 1 && c / 0x400 % 2 == 1
  {
  }

  lemma SubRegister(s: CpuState, rc: nat, rm: nat)
    requires rc < 8 && rm < 8
    ensures ThumbAddSub(s, SubRegisterCode(rc, rm)) == AfterSubFrom(s, rc, rm)
  {
    SubRegisterDecoded(rc, rm);
    var a := s.regs[rm];
    assert SubC(a, 4, 1).result == Less4(a);
    hide SubC, AddImmediate, WriteReg, SetFlags, SubRegisterCode;
    WriteLow(s, rc, Less4(a));
  }

  /** The subtraction, whatever register it reads. */
  lemma SubRegisterStep(s: CpuState, rc: nat, rm: nat)
    requires rc < 8 && rm < 8 && Fetch(s.mem, s.regs[15], SubRegisterCode(rc, rm))
    ensures StepThumb(s) == Done(AfterSubFrom(s, rc, rm))
  {
    hide Read16, AfterRead16, SubRegisterCode, AfterSubFrom, ThumbAddSub, ThumbImmediate, ThumbAluOp, ThumbHi, PushPop,
         CondBranch, LdmStm;
    SubRegisterDecoded(rc, rm);
    assert ExecuteThumb(s, SubRegisterCode(rc, rm)) == Done(ThumbAddSub(s, SubRegisterCode(rc, rm)));
    SubRegister(s, rc, rm);
  }

  lemma SubStep(s: CpuState, l: Loop)
    requires Distinct(l)
    requires Fetch(s.mem, s.regs[15], SubCode(l)) || Fetch(s.mem, s.regs[15], SubRegisterCode(l.rc, l.rc))
    ensures StepThumb(s) == Done(AfterSub(s, l))
  {
    hide StepThumb, SubCode, SubRegisterCode, AfterSubFrom, Fetch;
    if Fetch(s.mem, s.regs[15], SubCode(l)) {
      SubImmediateStep(s, l);
    } else {
      SubRegisterStep(s, l.rc, l.rc);
    }
  }

  function AfterBranch(s: CpuState): CpuState {
    var back: int := -8;
    SetReg(s, 15, if FlagZ(s.cpsr) == 0 then Low32(s.regs[15] + 4 + back) else s.regs[15] + 2)
  }

  lemma BranchStep(s: CpuState)
    requires Fetch(s.mem, s.regs[15], BNE_CODE)
    ensures StepThumb(s) == Done(AfterBranch(s))
  {
    hide Read16, AfterRead16, FlagZ;
    hide ThumbAddSub, ThumbImmediate, ThumbAluOp, ThumbHi, PushPop, LdmStm;
    assert ExecuteThumb(s, BNE_CODE) == Done(CondBranch(s, BNE_CODE));
  }

  // ----- one turn of the loop -----

  /** At the top of the loop, the code in memory and the counter a word. */
  predicate AtTop(s: CpuState, a: nat, l: Loop)
    requires Distinct(l)
  {
    a + 6 < TWO_32 && s.regs[15] == a && s.regs[l.rc] < TWO_32 && Code(s.mem, a, l)
  }

  /** The turn's effect: one word stored, the base moved up, the counter down. */
  function Turn(s: CpuState, a: nat, l: Loop): CpuState
    requires Distinct(l)
  {
    var o := SubC(s.regs[l.rc], 4, 1);
    var t := s.(mem := Write32(s.mem, Low32(s.regs[l.rb]), Low32(s.regs[l.rs])),
                 cpsr := SetFlags(s.cpsr, o.result, o.c, o.v));
    SetReg(SetReg(SetReg(t, l.rb, s.regs[l.rb] + 4), l.rc, o.result), 15, if o.result == 0 then a + 6 else a)
  }

  lemma LastWrites(r: seq<nat>, i: nat, j: nat, k: nat, x: nat, y: nat, p: nat, q: nat, z: nat)
    requires i < |r| && j < |r| && k < |r| && i != j && i != k && j != k
    ensures r[i := x][k := p][j := y][k := q][k := z] == r[i := x][j := y][k := z]
    ensures r[i := x][k := p][j] == r[j] && r[i := x][k := p][j := y][k] == p
  {
  }

  /** The fields of a state, one by one. */
  predicate Fields(s: CpuState, regs: seq<nat>, cpsr: word, m: MemState, like: CpuState) {
    s.regs == regs && s.cpsr == cpsr && s.mem == m && s.spsr == like.spsr && s.mode == like.mode && s.banks == like.banks
  }

  lemma SameFields(s: CpuState, t: CpuState, regs: seq<nat>, cpsr: word, m: MemState, like: CpuState)
    requires Fields(s, regs, cpsr, m, like) && Fields(t, regs, cpsr, m, like)
    ensures s == t
  {
  }

  lemma StoreFields(s: CpuState, l: Loop)
    requires Distinct(l)
    ensures Fields(AfterStore(s, l), s.regs[l.rb := s.regs[l.rb] + 4][15 := s.regs[15] + 2], s.cpsr,
                   Write32(s.mem, Low32(s.regs[l.rb]), Low32(s.regs[l.rs])), s)
  {
    hide Write32;
  }

  lemma SubFields(s: CpuState, l: Loop, like: CpuState)
    requires Distinct(l) && Fields(s, s.regs, s.cpsr, s.mem, like)
    ensures var o := SubC(s.regs[l.rc], 4, 1);
            Fields(AfterSub(s, l), s.regs[l.rc := o.result][15 := s.regs[15] + 2],
                   SetFlags(s.cpsr, o.result, o.c, o.v), s.mem, like)
  {
    hide SubC, SetFlags;
  }

  lemma BranchFields(s: CpuState, a: nat, like: CpuState)
    requires Fields(s, s.regs, s.cpsr, s.mem, like) && s.regs[15] == a + 4 < TWO_32
    ensures Fields(AfterBranch(s), s.regs[15 := if FlagZ(s.cpsr) == 0 then a else a + 6], s.cpsr, s.mem, like)
  {
    hide FlagZ;
  }

  lemma TurnFields(s: CpuState, a: nat, l: Loop)
    requires Distinct(l)
    ensures var o := SubC(s.regs[l.rc], 4, 1);
            Fields(Turn(s, a, l),
                   s.regs[l.rb := s.regs[l.rb] + 4][l.rc := o.result][15 := if o.result == 0 then a + 6 else a],
                   SetFlags(s.cpsr, o.result, o.c, o.v), Write32(s.mem, Low32(s.regs[l.rb]), Low32(s.regs[l.rs])), s)
  {
    hide Write32, SubC, SetFlags;
  }

  lemma TurnStates(s: CpuState, a: nat, l: Loop)
    requires Distinct(l) && s.regs[15] == a && a + 6 < TWO_32
    ensures AfterBranch(AfterSub(AfterStore(s, l), l)) == Turn(s, a, l)
    ensures AfterStore(s, l).regs[15] == a + 2 && AfterSub(AfterStore(s, l), l).regs[15] == a + 4
    ensures AfterStore(s, l).mem == AfterSub(AfterStore(s, l), l).mem == Turn(s, a, l).mem
            == Write32(s.mem, Low32(s.regs[l.rb]), Low32(s.regs[l.rs]))
  {
    var o := SubC(s.regs[l.rc], 4, 1);
    var cpsr := SetFlags(s.cpsr, o.result, o.c, o.v);
    FlagsRead(s.cpsr, o.result / 0x8000_0000 % 2, BitIf(o.result == 0), o.c, o.v);
    assert FlagZ(cpsr) == BitIf(o.result == 0);
    hide Write32, SubC, SetFlags, FlagZ, AfterStore, AfterSub, AfterBranch, Turn;
    var last: nat := if o.result == 0 then a + 6 else a;
    LastWrites(s.regs, l.rb, l.rc, 15, s.regs[l.rb] + 4, o.result, a + 2, a + 4, last);
    StoreFields(s, l);
    var s1 := AfterStore(s, l);
    SubFields(s1, l, s);
    var s2 := AfterSub(s1, l);
    BranchFields(s2, a, s);
    TurnFields(s, a, l);
    SameFields(AfterBranch(s2), Turn(s, a, l), Turn(s, a, l).regs, cpsr, s1.mem, s);
  }

  lemma OneTurn(s: CpuState, a: nat, l: Loop)
    requires Distinct(l) && AtTop(s, a, l) && Code(Turn(s, a, l).mem, a, l)
    ensures Steps(s, 1).Done? && Steps(s, 1).s.regs[15] == a + 2
    ensures Steps(s, 2).Done? && Steps(s, 2).s.regs[15] == a + 4
    ensures Steps(s, 3) == Done(Turn(s, a, l))
  {
    hide StepThumb, AfterStore, AfterSub, AfterBranch, Turn, StoreCode, SubCode, Fetch;
    TurnStates(s, a, l);
    StoreStep(s, l);
    var s1 := AfterStore(s, l);
    SubStep(s1, l);
    var s2 := AfterSub(s1, l);
    BranchStep(s2);
    FirstStep(s, s1, 1);
    FirstStep(s, s1, 2);
    FirstStep(s, s1, 3);
    FirstStep(s1, s2, 1);
    FirstStep(s1, s2, 2);
    FirstStep(s2, AfterBranch(s2), 1);
  }

  // ----- the code stays as it is -----

  /** A word stored at `addr` does not touch the halfword fetched at `pc`, because that is in the
      cartridge or elsewhere in RAM. */
  predicate Clear(pc: nat, addr: int) {
    && pc < TWO_32
    && (|| ROM_START <= pc
        || (var p, c := MapAddress(pc), MapAddress(Low32(addr)); Span(p, 2) && Span(c, 4) && (p + 2 <= c || c + 4 <= p)))
  }

  predicate CodeClear(a: nat, addr: int) {
    Clear(a, addr) && Clear(a + 2, addr) && Clear(a + 4, addr)
  }

  lemma Write8KeepsRom(m: MemState, addr: word, v: byte)
    ensures var w := Write8(m, addr, v, true); w.rom == m.rom && w.romMirror == m.romMirror && w.sram == m.sram
  {
    hide MapAddress;
  }

  lemma Write32KeepsRom(m: MemState, addr: word, v: word)
    ensures var w := Write32(m, addr, v); w.rom == m.rom && w.romMirror == m.romMirror && w.sram == m.sram
  {
    hide MapAddress, Write8, ByteOf;
    var a := MapAddress(addr);
    var m1 := Write8(m, a, ByteOf(v, 0), true);
    var m2 := Write8(m1, Next(a, 1), ByteOf(v, 1), true);
    var m3 := Write8(m2, Next(a, 2), ByteOf(v, 2), true);
    Write8KeepsRom(m, a, ByteOf(v, 0));
    Write8KeepsRom(m1, Next(a, 1), ByteOf(v, 1));
    Write8KeepsRom(m2, Next(a, 2), ByteOf(v, 2));
    Write8KeepsRom(m3, Next(a, 3), ByteOf(v, 3));
  }

  lemma RomFetch(m: MemState, w: MemState, pc: word)
    requires ROM_START <= pc && w.rom == m.rom && w.romMirror == m.romMirror && w.sram == m.sram
    ensures Read16(w, pc) == Read16(m, pc) && AfterRead16(w, pc) == w
  {
    MapFixed(pc);
    hide MapAddress, Read8;
  }

  lemma RamFetch(m: MemState, pc: word, c: int, v: word)
    requires var p := MapAddress(pc); Span(p, 2) && Span(c, 4) && (p + 2 <= c || c + 4 <= p)
    ensures Read16(Poke4(m, c, v), pc) == Read16(m, pc) && AfterRead16(Poke4(m, c, v), pc) == Poke4(m, c, v)
  {
    hide MapAddress, Read16, AfterRead16, Poke4, WordAt, HalfAt, OnlyChanged, Span;
    Read16Ram(m, pc);
    Read16Ram(Poke4(m, c, v), pc);
    WordStored(m, c, v, c);
    UnitUntouched(m, Poke4(m, c, v), c, 4, MapAddress(pc), false);
  }

  lemma FetchKept(m: MemState, pc: nat, instr: nat, addr: int, v: word)
    requires Fetch(m, pc, instr) && Clear(pc, addr)
    ensures Fetch(Write32(m, Low32(addr), v), pc, instr)
  {
    hide MapAddress, Read16, AfterRead16, Write32, Poke4, Span;
    if ROM_START <= pc {
      Write32KeepsRom(m, Low32(addr), v);
      RomFetch(m, Write32(m, Low32(addr), v), pc);
    } else {
      Write32Ram(m, Low32(addr), v);
      RamFetch(m, pc, MapAddress(Low32(addr)), v);
    }
  }

  lemma CodeKept(m: MemState, a: nat, l: Loop, addr: int, v: word)
    requires Distinct(l) && Code(m, a, l) && CodeClear(a, addr)
    ensures Code(Write32(m, Low32(addr), v), a, l)
  {
    hide Fetch, Clear, Write32;
    FetchKept(m, a, StoreCode(l), addr, v);
    if Fetch(m, a + 2, SubCode(l)) {
      FetchKept(m, a + 2, SubCode(l), addr, v);
    } else {
      FetchKept(m, a + 2, SubRegisterCode(l.rc, l.rc), addr, v);
    }
    FetchKept(m, a + 4, BNE_CODE, addr, v);
  }

  /** `(r - 4) & 0xFFFFFFFF` */
  function Less4(r: nat): word {
    var x: int := r;
    Low32(x - 4)
  }

  /** One turn from the top: the counter drops by four, and unless it reaches zero the loop is at its
      top again. */
  lemma TurnEffect(s: CpuState, a: nat, l: Loop)
    requires Distinct(l) && AtTop(s, a, l) && CodeClear(a, s.regs[l.rb])
    ensures var t, r := Turn(s, a, l), Less4(s.regs[l.rc]);
            && t.regs[l.rc] == r && t.regs[l.rb] == s.regs[l.rb] + 4 && t.regs[l.rs] == s.regs[l.rs]
            && Code(t.mem, a, l) && (if r == 0 then t.regs[15] == a + 6 else AtTop(t, a, l))
  {
    hide CodeClear, Code, Turn, SetFlags, Write32, SubC, Less4;
    CodeKept(s.mem, a, l, s.regs[l.rb], Low32(s.regs[l.rs]));
    TurnFields(s, a, l);
    SubIsLess4(s.regs[l.rc]);
  }

  lemma SubIsLess4(r: nat)
    ensures SubC(r, 4, 1).result == Less4(r)
  {
  }

  lemma TurnSteps(s: CpuState, a: nat, l: Loop)
    requires Distinct(l) && AtTop(s, a, l) && CodeClear(a, s.regs[l.rb])
    ensures At(Steps(s, 1), a + 2) && At(Steps(s, 2), a + 4) && Steps(s, 3) == Done(Turn(s, a, l))
  {
    hide CodeClear, Code, Turn, Steps;
    TurnEffect(s, a, l);
    OneTurn(s, a, l);
  }

  // ----- when the loop ends -----

  lemma RomClear(a: nat, addr: int)
    requires ROM_START <= a && a + 6 < TWO_32
    ensures CodeClear(a, addr)
  {
  }

  /** The stores keep clear of the code. */
  ghost predicate FillClear(a: nat, addr: nat, n: nat) {
    forall i :: 0 <= i < n ==> CodeClear(a, addr + 4 * i)
  }

  lemma FillClearRest(a: nat, addr: nat, n: nat)
    requires n > 0 && FillClear(a, addr, n)
    ensures CodeClear(a, addr) && FillClear(a, addr + 4, n - 1)
  {
    hide CodeClear;
    assert CodeClear(a, addr + 4 * 0);
    forall i | 0 <= i < n - 1
      ensures CodeClear(a, addr + 4 + 4 * i)
    {
      var j := i + 1;
      assert CodeClear(a, addr + 4 * j);
    }
  }

  /** How many turns a counter that is a multiple of four makes. */
  function Turns(r: nat): nat {
    if r == 0 then 0x4000_0000 else r / 4
  }

  lemma RomFillClear(a: nat, addr: nat, n: nat)
    requires ROM_START <= a && a + 6 < TWO_32
    ensures FillClear(a, addr, n)
  {
    hide CodeClear;
    forall i | 0 <= i < n
      ensures CodeClear(a, addr + 4 * i)
    {
      RomClear(a, addr + 4 * i);
    }
  }

  lemma FillClearPrefix(a: nat, addr: nat, n: nat, k: nat)
    requires FillClear(a, addr, n) && k <= n
    ensures FillClear(a, addr, k)
  {
    hide CodeClear;
  }

  /** With 4d in the counter, modulo 2^32, the loop takes d turns. */
  lemma {:induction false} Leaves(s: CpuState, a: nat, l: Loop, d: nat)
    requires Distinct(l) && AtTop(s, a, l) && FillClear(a, s.regs[l.rb], d)
    requires 0 < d <= 0x4000_0000 && s.regs[l.rc] == Low32(4 * d)
    ensures At(Steps(s, 3 * d), a + 6) && Steps(s, 3 * d).s.regs[l.rb] == s.regs[l.rb] + 4 * d
    decreases d
  {
    hide Steps, Turn, Code, CodeClear, FillClear;
    FillClearRest(a, s.regs[l.rb], d);
    TurnEffect(s, a, l);
    TurnSteps(s, a, l);
    var t := Turn(s, a, l);
    CountDown(d);
    if d > 1 {
      Leaves(t, a, l, d - 1);
      StepsAdd(s, 3, 3 * (d - 1));
    }
  }

  lemma CountDown(d: nat)
    requires 0 < d <= 0x4000_0000
    ensures Less4(Low32(4 * d)) == 4 * (d - 1)
  {
  }

  /** A counter that does not run out in `n` turns does not let the loop end in them. */
  lemma {:induction false} NotYet(s: CpuState, a: nat, l: Loop, n: nat, k: nat)
    requires Distinct(l) && AtTop(s, a, l) && FillClear(a, s.regs[l.rb], n) && k <= 3 * n
    requires s.regs[l.rc] % 4 != 0 || Turns(s.regs[l.rc]) > n
    ensures !At(Steps(s, k), a + 6)
    decreases n
  {
    hide Steps, Turn, Code, CodeClear, FillClear;
    if k == 0 {
      NoSteps(s);
    } else {
      FillClearRest(a, s.regs[l.rb], n);
      TurnEffect(s, a, l);
      TurnSteps(s, a, l);
      if k >= 3 {
        OneLess(s.regs[l.rc], n);
        NotYet(Turn(s, a, l), a, l, n - 1, k - 3);
        StepsAdd(s, 3, k - 3);
      }
    }
  }

  lemma OneLess(r: word, n: nat)
    requires n > 0 && (r % 4 != 0 || Turns(r) > n)
    ensures Less4(r) != 0 && (Less4(r) % 4 != 0 || Turns(Less4(r)) > n - 1)
  {
  }

  /** As long as its stores keep clear of its code, wherever that is, the loop gets past its end within
      `n` turns exactly when its counter is a multiple of four that runs out in them; zero counts as
      2^32. */
  lemma EndsWithinIff(s: CpuState, a: nat, l: Loop, n: nat)
    requires Distinct(l) && AtTop(s, a, l) && FillClear(a, s.regs[l.rb], n)
    ensures (exists k: nat :: k <= 3 * n && At(Steps(s, k), a + 6)) <==> s.regs[l.rc] % 4 == 0 && Turns(s.regs[l.rc]) <= n
  {
    hide Steps, Code, FillClear;
    var r := s.regs[l.rc];
    if r % 4 == 0 && Turns(r) <= n {
      FillClearPrefix(a, s.regs[l.rb], n, Turns(r));
      Leaves(s, a, l, Turns(r));
    } else {
      forall k: nat | k <= 3 * n
        ensures !At(Steps(s, k), a + 6)
      {
        NotYet(s, a, l, n, k);
      }
    }
  }

  /** So from the cartridge, which no store changes, the loop gets past its end exactly when the
      counter is a multiple of four. */
  lemma TerminatesIff(s: CpuState, a: nat, l: Loop)
    requires Distinct(l) && AtTop(s, a, l) && ROM_START <= a
    ensures Reaches(s, a + 6) <==> s.regs[l.rc] % 4 == 0
  {
    hide Steps, Code, FillClear;
    var r := s.regs[l.rc];
    if r % 4 == 0 {
      RomFillClear(a, s.regs[l.rb], Turns(r));
      EndsWithinIff(s, a, l, Turns(r));
    } else {
      forall n: nat
        ensures !At(Steps(s, n), a + 6)
      {
        RomFillClear(a, s.regs[l.rb], n);
        NotYet(s, a, l, n, n);
      }
    }
  }

  // ----- the loop against the emitted code -----

  /** The state a loop of `n` turns ends in. */
  function Filled(s: CpuState, a: nat, l: Loop, n: nat): CpuState
    requires Distinct(l)
  {
    var t := s.(mem := FillWords(s.mem, s.regs[l.rb], n, Low32(s.regs[l.rs])), cpsr := WithFlags(s.cpsr, 0, 1, 1, 0));
    SetReg(SetReg(SetReg(t, l.rb, s.regs[l.rb] + 4 * n), l.rc, 0), 15, a + 6)
  }

  lemma FilledFields(s: CpuState, a: nat, l: Loop, n: nat)
    requires Distinct(l)
    ensures Fields(Filled(s, a, l, n), s.regs[l.rb := s.regs[l.rb] + 4 * n][l.rc := 0][15 := a + 6],
                   WithFlags(s.cpsr, 0, 1, 1, 0), FillWords(s.mem, s.regs[l.rb], n, Low32(s.regs[l.rs])), s)
  {
    hide FillWords, WithFlags;
  }

  lemma FlagsOverwritten(cpsr: word, result: nat, c: bit, v: bit)
    ensures WithFlags(SetFlags(cpsr, result, c, v), 0, 1, 1, 0) == WithFlags(cpsr, 0, 1, 1, 0)
  {
    FlagsRead(cpsr, result / 0x8000_0000 % 2, BitIf(result == 0), c, v);
  }

  lemma LastFlags(cpsr: word)
    ensures var o := SubC(4, 4, 1); o.result == 0 && SetFlags(cpsr, o.result, o.c, o.v) == WithFlags(cpsr, 0, 1, 1, 0)
  {
    SubCMeans(4, 4, 1);
    hide SubC;
  }

  lemma FilledOnce(s: CpuState, a: nat, l: Loop)
    requires Distinct(l) && s.regs[l.rc] == 4
    ensures Turn(s, a, l) == Filled(s, a, l, 1)
  {
    TurnFields(s, a, l);
    FilledFields(s, a, l, 1);
    LastFlags(s.cpsr);
    hide Turn, Filled, Write32, SetFlags, SubC, WithFlags;
    assert FillWords(s.mem, s.regs[l.rb], 1, Low32(s.regs[l.rs]))
           == Write32(s.mem, Low32(s.regs[l.rb]), Low32(s.regs[l.rs]));
  }

  lemma Overwritten(r: seq<nat>, i: nat, j: nat, k: nat, x: nat, y: nat, z: nat, x': nat, y': nat, z': nat)
    requires i < |r| && j < |r| && k < |r| && i != j && i != k && j != k
    ensures r[i := x][j := y][k := z][i := x'][j := y'][k := z'] == r[i := x'][j := y'][k := z']
  {
  }

  /** A turn that is not the last, in terms of what the rest of the fill looks at. */
  lemma TurnValues(s: CpuState, a: nat, l: Loop)
    requires Distinct(l) && Less4(s.regs[l.rc]) != 0
    ensures var t, b := Turn(s, a, l), s.regs[l.rb];
            && t.regs == s.regs[l.rb := b + 4][l.rc := Less4(s.regs[l.rc])][15 := a]
            && t.regs[l.rb] == b + 4 && t.regs[l.rs] == s.regs[l.rs]
            && t.mem == Write32(s.mem, Low32(b), Low32(s.regs[l.rs]))
            && WithFlags(t.cpsr, 0, 1, 1, 0) == WithFlags(s.cpsr, 0, 1, 1, 0)
            && t.spsr == s.spsr && t.mode == s.mode && t.banks == s.banks
  {
    var o := SubC(s.regs[l.rc], 4, 1);
    assert o.result == Less4(s.regs[l.rc]);
    TurnFields(s, a, l);
    FlagsOverwritten(s.cpsr, o.result, o.c, o.v);
    hide Turn, Write32, SetFlags, SubC, WithFlags, Less4;
  }

  lemma FilledThen(s: CpuState, a: nat, l: Loop, n: nat)
    requires Distinct(l) && n > 0 && Less4(s.regs[l.rc]) != 0
    ensures Filled(Turn(s, a, l), a, l, n - 1) == Filled(s, a, l, n)
  {
    hide Turn, Filled, Write32, WithFlags, FillWords, Less4;
    var t, b := Turn(s, a, l), s.regs[l.rb];
    TurnValues(s, a, l);
    FilledFields(s, a, l, n);
    FilledFields(t, a, l, n - 1);
    FillUnfold(s.mem, b, n, Low32(s.regs[l.rs]));
    Overwritten(s.regs, l.rb, l.rc, 15, b + 4, Less4(s.regs[l.rc]), a, b + 4 * n, 0, a + 6);
    var f, g := Filled(t, a, l, n - 1), Filled(s, a, l, n);
    assert b + 4 + 4 * (n - 1) == b + 4 * n;
    SameFields(f, g, g.regs, g.cpsr, g.mem, s);
  }

  lemma FillUnfold(m: MemState, addr: nat, n: nat, v: word)
    requires n > 0
    ensures FillWords(m, addr, n, v) == FillWords(Write32(m, Low32(addr), v), addr + 4, n - 1, v)
  {
    hide Write32;
  }

  lemma {:induction false} LoopFills(s: CpuState, a: nat, l: Loop, n: nat)
    requires Distinct(l) && AtTop(s, a, l) && n > 0 && s.regs[l.rc] == 4 * n && FillClear(a, s.regs[l.rb], n)
    ensures Steps(s, 3 * n) == Done(Filled(s, a, l, n))
    decreases n
  {
    hide Steps, Turn, Code, CodeClear, Filled, FillClear;
    FillClearRest(a, s.regs[l.rb], n);
    TurnEffect(s, a, l);
    TurnSteps(s, a, l);
    if n == 1 {
      FilledOnce(s, a, l);
    } else {
      var t := Turn(s, a, l);
      LoopFills(t, a, l, n - 1);
      StepsAdd(s, 3, 3 * (n - 1));
      FilledThen(s, a, l, n);
    }
  }

  lemma EmittedForFields(s: CpuState, l: Loop, n: nat)
    requires Distinct(l)
    ensures Fields(EmittedFor(s, l, n), s.regs[l.rb := Low32(s.regs[l.rb] + 4 * n)][l.rc := 0][15 := l.fallThrough],
                   WithFlags(s.cpsr, 0, 1, 1, 0), FillWords(s.mem, s.regs[l.rb], n, Low32(s.regs[l.rs])), s)
  {
    hide FillWords, WithFlags;
  }

  /** The emitted state, field by field, for a counter of 4n. */
  lemma EmittedFields(s: CpuState, l: Loop, n: nat)
    requires Distinct(l) && s.regs[l.rc] == 4 * n < TWO_32
    ensures Fields(Emitted(s, l), s.regs[l.rb := Low32(s.regs[l.rb] + 4 * n)][l.rc := 0][15 := l.fallThrough],
                   WithFlags(s.cpsr, 0, 1, 1, 0), FillWords(s.mem, s.regs[l.rb], n, Low32(s.regs[l.rs])), s)
  {
    hide FillWords, WithFlags, EmittedFor;
    assert Low32(s.regs[l.rc] / 4) == n;
    EmittedForFields(s, l, n);
  }

  lemma EmittedIsFilledIff(s: CpuState, a: nat, l: Loop, n: nat)
    requires Distinct(l) && s.regs[l.rc] == 4 * n < TWO_32 && l.fallThrough == a + 6
    ensures Emitted(s, l) == Filled(s, a, l, n) <==> s.regs[l.rb] + 4 * n < TWO_32
  {
    EmittedFields(s, l, n);
    FilledFields(s, a, l, n);
    hide Emitted, Filled, FillWords, WithFlags;
    var e, f := Emitted(s, l), Filled(s, a, l, n);
    assert e.regs[l.rb] == Low32(s.regs[l.rb] + 4 * n) && f.regs[l.rb] == s.regs[l.rb] + 4 * n;
    if s.regs[l.rb] + 4 * n < TWO_32 {
      SameFields(e, f, f.regs, f.cpsr, f.mem, s);
    }
  }

  /** The loop and the code emitted for it end in the same state exactly when the counter is not zero
      and the base does not run past the top of the address space: the interpreter does not mask the
      base it writes back, and a counter of zero means 2^30 turns to it and none to the emitted code. */
  lemma LoopIsEmittedIff(s: CpuState, a: nat, l: Loop)
    requires Distinct(l) && AtTop(s, a, l) && l.fallThrough == a + 6
    requires s.regs[l.rb] < TWO_32 && s.regs[l.rc] % 4 == 0 && FillClear(a, s.regs[l.rb], Turns(s.regs[l.rc]))
    ensures var r := s.regs[l.rc];
            Steps(s, 3 * Turns(r)) == Done(Emitted(s, l)) <==> r > 0 && s.regs[l.rb] + r < TWO_32
  {
    var r := s.regs[l.rc];
    hide Steps, Code, Emitted, Filled, CodeClear, FillClear;
    if r == 0 {
      Leaves(s, a, l, Turns(r));
      EmittedFields(s, l, 0);
    } else {
      LoopFills(s, a, l, r / 4);
      EmittedIsFilledIff(s, a, l, r / 4);
    }
  }

  // ----- in RAM -----

  /** A fill of a range in RAM sets each of its words and changes nothing else. */
  lemma {:induction false} FillSets(m: MemState, addr: nat, c: int, n: nat, v: word, i: nat)
    requires i < n && Room(addr, c, n)
    ensures var w := FillWords(m, addr, n, v); Word(w, c + 4 * i) == v && OnlyChanged(m, w, c, 4 * n)
    decreases n
  {
    hide FillWords, Room, Write32, Word, OnlyChanged;
    FillUnfold(m, addr, n, v);
    RoomStep(addr, c, n);
    StoreFirst(m, addr, c, n, v);
    var w := Write32(m, Low32(addr), v);
    var t := FillWords(m, addr, n, v);
    if n == 1 {
      NoFill(w, addr + 4, v);
    } else {
      FillSets(w, addr + 4, c + 4, n - 1, v, if i == 0 then 0 else i - 1);
      OnlyChangedThen(m, w, t, c, 4, c + 4, 4 * (n - 1), 4 * n);
      if i == 0 {
        WordKept(w, t, c + 4, 4 * (n - 1), c);
      }
    }
  }

  lemma NoFill(m: MemState, addr: nat, v: word)
    ensures FillWords(m, addr, 0, v) == m
  {
  }

  /** Code in the cartridge, or in RAM outside the filled range. */
  predicate Apart(a: nat, c: int, n: nat) {
    a + 6 < TWO_32
    && (ROM_START <= a || (Linear(a, 6) && (MapAddress(a) + 6 <= c || c + 4 * n <= MapAddress(a))))
  }

  lemma ApartClear(a: nat, addr: nat, c: int, n: nat)
    requires Apart(a, c, n) && Room(addr, c, n)
    ensures FillClear(a, addr, n)
  {
    hide CodeClear, Room, Linear, MapAddress;
    forall i | 0 <= i < n
      ensures CodeClear(a, addr + 4 * i)
    {
      if ROM_START <= a {
        RomClear(a, addr + 4 * i);
      } else {
        RamClear(a, addr, c, n, i);
      }
    }
  }

  /** One halfword of the code, clear of one word of the range. */
  lemma HalfClear(a: nat, k: nat, addr: nat, c: int)
    requires a + k < TWO_32 && MapAddress(a + k) == MapAddress(a) + k && Span(MapAddress(a) + k, 2)
    requires MapAddress(Low32(addr)) == c && Span(c, 4) && (MapAddress(a) + k + 2 <= c || c + 4 <= MapAddress(a) + k)
    ensures Clear(a + k, addr)
  {
    hide MapAddress, Span;
  }

  lemma HalfOfCode(a: nat, k: nat)
    requires Linear(a, 6) && k < 5
    ensures a + k < TWO_32 && MapAddress(a + k) == MapAddress(a) + k && Span(MapAddress(a) + k, 2)
  {
    LinearSpan(a, 6);
    hide MapAddress, Span, Linear;
    LinearStep(a, 6, k);
    SpanInside(MapAddress(a), 6, MapAddress(a) + k, 2);
  }

  lemma RamClear(a: nat, addr: nat, c: int, n: nat, i: nat)
    requires i < n && Room(addr, c, n) && a + 6 < TWO_32
    requires Linear(a, 6) && (MapAddress(a) + 6 <= c || c + 4 * n <= MapAddress(a))
    ensures CodeClear(a, addr + 4 * i)
  {
    hide Room, MapAddress, Span, Linear, Clear;
    WordOfRoom(addr, c, n, i);
    HalfOfCode(a, 0);
    HalfOfCode(a, 2);
    HalfOfCode(a, 4);
    HalfClear(a, 0, addr + 4 * i, c + 4 * i);
    HalfClear(a, 2, addr + 4 * i, c + 4 * i);
    HalfClear(a, 4, addr + 4 * i, c + 4 * i);
  }

  lemma LinearSpan(a: nat, n: nat)
    requires Linear(a, n)
    ensures Span(MapAddress(a), n)
  {
  }

  /** A loop over a range in RAM, its code elsewhere, fills the range with Rs in Rc / 4 turns and
      changes no other byte; the base is advanced by Rc, the counter is zero and execution goes on
      behind the loop; that is the very state the emitted code leaves. */
  lemma LoopIsFill(s: CpuState, a: nat, l: Loop, c: int, n: nat, i: nat)
    requires Distinct(l) && AtTop(s, a, l) && l.fallThrough == a + 6
    requires s.regs[l.rc] == 4 * n && i < n && Room(s.regs[l.rb], c, n) && Apart(a, c, n)
    ensures var t := Emitted(s, l);
            && Steps(s, 3 * n) == Done(t)
            && Word(t.mem, c + 4 * i) == Low32(s.regs[l.rs]) && OnlyChanged(s.mem, t.mem, c, 4 * n)
            && t.regs == s.regs[l.rb := s.regs[l.rb] + 4 * n][l.rc := 0][15 := a + 6]
  {
    hide Steps, Code, Emitted, FillClear, Word, OnlyChanged, Room, FillWords, WithFlags, MapAddress, Linear;
    ApartClear(a, s.regs[l.rb], c, n);
    RoomLimit(s.regs[l.rb], c, n);
    assert Turns(s.regs[l.rc]) == n;
    LoopIsEmittedIff(s, a, l);
    EmittedFields(s, l, n);
    FillSets(s.mem, s.regs[l.rb], c, n, Low32(s.regs[l.rs]), i);
  }

  lemma RoomLimit(addr: int, c: int, n: nat)
    requires n > 0 && Room(addr, c, n)
    ensures addr + 4 * n <= 0x0800_0000
  {
    LinearStep(addr, 4 * n, 4 * n - 1);
  }
}
