/** Well-nested PUSH and POP. */
module StackLaws {
  import opened Arith
  import opened Words
  import opened Memory
  import opened MemoryLaws
  import opened DmaLaws
  import opened Processor
  import opened BlockLaws
  import ModeLaws

  lemma ThumbBit(cpsr: word, thumb: bool)
    ensures SetThumb(cpsr, thumb) / 0x20 % 2 == 1 <==> thumb
  {
    var high := cpsr / 0x40;
    DivUnique(SetThumb(cpsr, thumb), 0x20, 2 * high + if thumb then 1 else 0, cpsr % 0x20);
  }

  /** `w & 0xFFFFFFFE` */
  function Even(w: word): word {
    w - w % 2
  }

  lemma ExchangeMeans(s: CpuState, target: word)
    ensures var t := Exchange(s, target);
            && (t.Thumb() <==> target % 2 == 1) && t.regs == s.regs[15 := Even(target)]
            && t.mem == s.mem && t.banks == s.banks && t.spsr == s.spsr && t.mode == s.mode
  {
    ThumbBit(s.cpsr, target % 2 == 1);
    hide SetThumb;
  }

  lemma RoomSkip(addr: int, c: int, n: nat, k: nat)
    requires Room(addr, c, n) && k <= n
    ensures Room(addr + 4 * k, c + 4 * k, n - k)
  {
    if 0 < k < n {
      hide MapAddress;
      LinearStep(addr, 4 * n, 4 * k);
      LinearRest(addr, 4 * n, 4 * k);
    }
  }

  /** How many words a PUSH or POP of the list moves. */
  function FrameSize(list: byte, link: bool): nat {
    Count(list, 8) + if link then 1 else 0
  }

  /** The modes without a saved status. */
  predicate Unprivileged(s: CpuState) {
    s.mode == USER || s.mode == SYSTEM
  }

  // ----- PUSH -----

  lemma PushUnfold(s: CpuState, list: byte, link: bool)
    ensures var addr := Low32(s.regs[13] - 4 * FrameSize(list, link));
            var t := StoreFrom(SetReg(s, 13, addr), list, 0, 8, addr);
            var u := if link then t.(mem := Write32(t.mem, Low32(addr + 4 * Count(list, 8)), Low32(t.regs[14]))) else t;
            Push(s, list, link) == SetReg(u, 15, u.regs[15] + 2)
  {
    hide StoreFrom, Count, SetReg, Write32;
  }

  /** PUSH stores the listed registers in order of rank below SP, LR last, and lowers SP to them. */
  lemma PushStores(s: CpuState, list: byte, link: bool, c: int, j: nat)
    requires var n := FrameSize(list, link); s.regs[13] < TWO_32 && 4 * n <= s.regs[13] && Room(s.regs[13] - 4 * n, c, n)
    requires j < 8
    ensures var t := Push(s, list, link);
            && t.regs == s.regs[13 := s.regs[13] - 4 * FrameSize(list, link)][15 := s.regs[15] + 2]
            && t.mode == s.mode && t.cpsr == s.cpsr && t.banks == s.banks && t.spsr == s.spsr
            && OnlyChanged(s.mem, t.mem, c, 4 * FrameSize(list, link))
            && (Bit(list, j) ==> Word(t.mem, c + 4 * Count(list, j)) == Low32(s.regs[j]))
            && (link ==> Word(t.mem, c + 4 * Count(list, 8)) == Low32(s.regs[14]))
  {
    hide StoreFrom, Room, Write32, Word, OnlyChanged, Listed, Bit, Count;
    PushUnfold(s, list, link);
    var k, n := Count(list, 8), FrameSize(list, link);
    var addr := s.regs[13] - 4 * n;
    var s1 := SetReg(s, 13, addr);
    CountFromZero(list, 8);
    CountFromZero(list, j);
    RoomPrefix(addr, c, n, k);
    RoomSkip(addr, c, n, k);
    StoreChangesOnly(s1, list, 0, 8, addr, c);
    var t := StoreFrom(s1, list, 0, 8, addr);
    if Bit(list, j) {
      StorePutsByRank(s1, list, 0, 8, addr, c, j);
      RankBelow8(list, j);
    }
    if link {
      StoreFirst(t.mem, addr + 4 * k, c + 4 * k, 1, Low32(s.regs[14]));
      var w := Write32(t.mem, Low32(addr + 4 * k), Low32(s.regs[14]));
      OnlyChangedThen(s.mem, t.mem, w, c, 4 * k, c + 4 * k, 4, 4 * n);
      if Bit(list, j) {
        WordKept(t.mem, w, c + 4 * k, 4, c + 4 * Count(list, j));
      }
    }
  }

  lemma RankBelow8(list: byte, j: nat)
    requires j < 8 && Bit(list, j)
    ensures Listed(list, 0, j) == Count(list, j) < Count(list, 8)
  {
    ListedSome(list, 0, j, 8);
    CountFromZero(list, j);
    CountFromZero(list, 8);
  }

  // ----- POP -----

  lemma PopPcUnfold(s: CpuState, top: nat)
    requires Unprivileged(s)
    ensures PopPc(s, top) == SetReg(Exchange(s.(mem := AfterRead32(s.mem, Low32(top))), Read32(s.mem, Low32(top))),
        13, top + 4)
  {
    hide Read32, AfterRead32, Exchange, SetReg, RestoreStatus;
  }

  lemma PopPcUser(s: CpuState, top: nat, c: int)
    requires Unprivileged(s) && Room(top, c, 1)
    ensures var t, w := PopPc(s, top), Word(s.mem, c);
            && (t.Thumb() <==> w % 2 == 1) && t.regs == s.regs[15 := Even(w)][13 := top + 4]
            && t.mem == s.mem && t.mode == s.mode
  {
    hide Room, Read32, AfterRead32, Word, Exchange, Cpu.Thumb, PopPc;
    PopPcUnfold(s, top);
    LoadFirst(s.mem, top, c, 1);
    ExchangeMeans(s, Word(s.mem, c));
    SetRegThumb(Exchange(s, Word(s.mem, c)), 13, top + 4);
  }

  /** In a mode with a saved status POP with PC also ends the exception: the instruction set is the
      saved one, so bit 0 of the popped word selects it just when the two agree. */
  lemma PopPcEndsException(s: CpuState, top: nat, c: int)
    requires HasSpsr(s.mode) && Room(top, c, 1)
    ensures var t, w, saved := PopPc(s, top), Word(s.mem, c), s.spsr[SpsrIndex(s.mode)];
            && t.cpsr == saved && t.mode == saved % 0x20 && t.regs[15] == Even(w) && t.regs[13] == top + 4
            && ((t.Thumb() <==> w % 2 == 1) <==> (saved / 0x20 % 2 == w % 2))
  {
    hide Room, Read32, AfterRead32, Word, Exchange;
    LoadFirst(s.mem, top, c, 1);
    var u := Exchange(s, Word(s.mem, c));
    ExchangeMeans(s, Word(s.mem, c));
    ModeLaws.SwitchKeepsGeneral(u, s.spsr[SpsrIndex(s.mode)] % 0x20, 15);
    hide SwitchMode;
  }

  lemma {:induction false} LoadKeepsBanks(s: CpuState, list: nat, i: nat, stop: nat, addr: int)
    requires i <= stop <= 8
    ensures var t := LoadFrom(s, list, i, stop, addr);
            t.regs[13] == s.regs[13] && t.mode == s.mode && t.banks == s.banks && t.spsr == s.spsr
    decreases stop - i
  {
    if i < stop {
      hide Bit, Read32, AfterRead32, WriteReg;
      if Bit(list, i) {
        var u := s.(mem := AfterRead32(s.mem, Low32(addr)));
        WriteLow(u, i, Read32(s.mem, Low32(addr)));
        LoadKeepsBanks(WriteReg(u, i, Read32(s.mem, Low32(addr))), list, i + 1, stop, addr + 4);
      } else {
        LoadKeepsBanks(s, list, i + 1, stop, addr);
      }
    }
  }

  /** The exception's SP is then used up by the wrong mode: the bank of the mode left keeps it as it
      was before the POP, and the mode returned to finds its own SP just when that happened to be where
      the POP ended. */
  lemma PopPcKeepsSpIff(s: CpuState, list: byte)
    requires HasSpsr(s.mode)
    requires var m := s.spsr[SpsrIndex(s.mode)] % 0x20; IsMode(m) && m != s.mode
    ensures var t, m := Pop(s, list, true), s.spsr[SpsrIndex(s.mode)] % 0x20;
            && t.mode == m && t.banks[BankOf(s.mode)].sp == s.regs[13]
            && t.banks[BankOf(m)] == s.banks[BankOf(m)]
            && (t.regs[13] == s.banks[BankOf(m)].sp
                <==> s.regs[13] + 4 * (Count(list, 8) + 1) == s.banks[BankOf(m)].sp)
  {
    hide LoadFrom, Count, Exchange, Read32, AfterRead32;
    LoadKeepsBanks(s, list, 0, 8, s.regs[13]);
    var t := LoadFrom(s, list, 0, 8, s.regs[13]);
    var top := s.regs[13] + 4 * Count(list, 8);
    var w := t.(mem := AfterRead32(t.mem, Low32(top)));
    ExchangeMeans(w, Read32(t.mem, Low32(top)));
    SwitchBanks(Exchange(w, Read32(t.mem, Low32(top))), s.spsr[SpsrIndex(s.mode)] % 0x20);
    hide SwitchMode, IsMode, BankOf, SpsrIndex;
  }

  lemma SwitchBanks(s: CpuState, mode: nat)
    requires HasSpsr(s.mode) && IsMode(mode) && mode != s.mode
    ensures var t := SwitchMode(s, mode);
            t.banks[BankOf(s.mode)].sp == s.regs[13] && t.banks[BankOf(mode)] == s.banks[BankOf(mode)]
  {
  }

  lemma SetRegThumb(s: CpuState, i: nat, v: nat)
    requires i < 16
    ensures SetReg(s, i, v).Thumb() == s.Thumb()
  {
  }

  /** POP loads the listed registers by rank and raises SP past them; with PC, the last word is where
      execution goes on, bit 0 selecting the instruction set. */
  lemma PopLoads(s: CpuState, list: byte, link: bool, c: int, j: nat)
    requires Unprivileged(s) && j < 8 && Room(s.regs[13], c, FrameSize(list, link))
    ensures var t, w := Pop(s, list, link), Word(s.mem, c + 4 * Count(list, 8));
            && t.mem == s.mem && t.mode == s.mode && t.regs[13] == s.regs[13] + 4 * FrameSize(list, link)
            && t.regs[j] == (if Bit(list, j) then Word(s.mem, c + 4 * Count(list, j)) else s.regs[j])
            && (if link then t.regs[15] == Even(w) && (t.Thumb() <==> w % 2 == 1) else t.regs[15] == s.regs[15] + 2)
  {
    hide LoadFrom, Room, Word, Listed, Bit, Count, PopPc, Cpu.Thumb;
    var k, n := Count(list, 8), FrameSize(list, link);
    CountFromZero(list, 8);
    CountFromZero(list, j);
    RoomPrefix(s.regs[13], c, n, k);
    RoomSkip(s.regs[13], c, n, k);
    LoadGetsByRank(s, list, 0, 8, s.regs[13], c, j);
    LoadGetsByRank(s, list, 0, 8, s.regs[13], c, 15);
    if link {
      PopPcUser(LoadFrom(s, list, 0, 8, s.regs[13]), s.regs[13] + 4 * k, c + 4 * k);
    }
  }

  // ----- nesting -----

  /** A run of Thumb code.  Work is any stretch of it that leaves SP where it was, given by the state
      it ends in; a frame pushes some low registers, and perhaps LR, and pops them again at the end,
      LR's word into PC. */
  datatype Code = Work(result: CpuState) | Then(first: Code, second: Code) | Frame(list: byte, link: bool, body: Code)

  function PushInstr(list: byte, link: bool): nat { 0xB400 + (if link then 0x100 else 0) + list }

  function PopInstr(list: byte, link: bool): nat { 0xBC00 + (if link then 0x100 else 0) + list }

  lemma PushPopDecoded(s: CpuState, list: byte, link: bool)
    ensures PushPop(s, PushInstr(list, link)) == Push(s, list, link)
    ensures PushPop(s, PopInstr(list, link)) == Pop(s, list, link)
  {
    hide Push, Pop;
  }

  function Run(s: CpuState, code: Code): CpuState
    decreases code
  {
    match code
    case Work(result) => result
    case Then(a, b) => Run(Run(s, a), b)
    case Frame(list, link, body) => PushPop(Run(PushPop(s, PushInstr(list, link)), body), PopInstr(list, link))
  }

  function Canon(addr: int): word {
    MapAddress(Low32(addr))
  }

  /** Every stretch of work keeps the mode, SP and the `live` words from SP up; every frame fits below
      them in the same region. */
  ghost predicate Nested(s: CpuState, code: Code, live: nat)
    decreases code
  {
    match code
    case Work(r) =>
      Unprivileged(r) && r.regs[13] == s.regs[13] && SameWords(s.mem, r.mem, Canon(s.regs[13]), live)
    case Then(a, b) => Nested(s, a, live) && Nested(Run(s, a), b, live)
    case Frame(list, link, body) =>
      && Fits(s, FrameSize(list, link), live)
      && Nested(PushPop(s, PushInstr(list, link)), body, live + FrameSize(list, link))
  }

  predicate Fits(s: CpuState, n: nat, live: nat) {
    4 * n <= s.regs[13] < TWO_32 && Room(s.regs[13] - 4 * n, Canon(s.regs[13] - 4 * n), n + live)
  }

  /** What a nested run keeps. */
  ghost predicate Kept(s: CpuState, t: CpuState, live: nat) {
    Unprivileged(t) && t.regs[13] == s.regs[13] && SameWords(s.mem, t.mem, Canon(s.regs[13]), live)
  }

  /** The words above a frame, seen from the old SP and from the new. */
  lemma LiveAbove(s: CpuState, n: nat, live: nat)
    requires Fits(s, n, live) && live > 0
    ensures Canon(s.regs[13]) == Canon(s.regs[13] - 4 * n) + 4 * n
  {
    var addr := s.regs[13] - 4 * n;
    hide MapAddress;
    RoomSkip(addr, Canon(addr), n + live, n);
    assert Low32(s.regs[13]) == s.regs[13];
  }

  lemma WordsShift(m: MemState, w: MemState, c: int, n: nat, live: nat)
    requires SameWords(m, w, c, n + live)
    ensures SameWords(m, w, c, n) && SameWords(m, w, c + 4 * n, live)
  {
    hide Word;
    forall k: nat | k < live
      ensures Word(w, c + 4 * n + 4 * k) == Word(m, c + 4 * n + 4 * k)
    {
      var i := n + k;
      assert c + 4 * n + 4 * k == c + 4 * i;
    }
  }

  lemma WordsThen(m: MemState, v: MemState, w: MemState, c: int, n: nat)
    requires SameWords(m, v, c, n) && SameWords(v, w, c, n)
    ensures SameWords(m, w, c, n)
  {
    hide Word;
  }

  lemma WordsAbove(m: MemState, w: MemState, c: int, n: nat, live: nat)
    requires OnlyChanged(m, w, c, 4 * n)
    ensures SameWords(m, w, c + 4 * n, live)
  {
    hide Word, OnlyChanged;
    forall k: nat | k < live
      ensures Word(w, c + 4 * n + 4 * k) == Word(m, c + 4 * n + 4 * k)
    {
      WordKept(m, w, c, 4 * n, c + 4 * n + 4 * k);
    }
  }

  lemma PushFits(s: CpuState, list: byte, link: bool, live: nat)
    requires Fits(s, FrameSize(list, link), live)
    ensures Push(s, list, link).mode == s.mode
  {
    var addr := s.regs[13] - 4 * FrameSize(list, link);
    hide Room, OnlyChanged, Word, Bit, Count, Push, MapAddress;
    RoomPrefix(addr, Canon(addr), FrameSize(list, link) + live, FrameSize(list, link));
    PushStores(s, list, link, Canon(addr), 0);
  }

  /** One frame around a body that keeps the frame's words: SP, the words above and the listed
      registers are as before, and PC, if popped, is the LR pushed. */
  lemma FrameReturns(s: CpuState, list: byte, link: bool, u: CpuState, live: nat, j: nat)
    requires Unprivileged(s) && Fits(s, FrameSize(list, link), live) && j < 8
    requires Kept(Push(s, list, link), u, live + FrameSize(list, link))
    ensures var t, lr := Pop(u, list, link), Low32(s.regs[14]);
            && Kept(s, t, live)
            && t.regs[j] == (if Bit(list, j) then Low32(s.regs[j]) else u.regs[j])
            && (link ==> t.regs[15] == Even(lr) && (t.Thumb() <==> lr % 2 == 1))
  {
    hide Room, Word, OnlyChanged, Bit, Count, SameWords, Push, Pop, MapAddress, Cpu.Thumb;
    var n, k := FrameSize(list, link), Count(list, 8);
    var addr := s.regs[13] - 4 * n;
    var c := Canon(addr);
    RoomPrefix(addr, c, n + live, n);
    PushStores(s, list, link, c, j);
    var t := Push(s, list, link);
    WordsAbove(s.mem, t.mem, c, n, live);
    WordsShift(t.mem, u.mem, c, n, live);
    WordsThen(s.mem, t.mem, u.mem, c + 4 * n, live);
    PopLoads(u, list, link, c, j);
    if Bit(list, j) {
      RankBelow8(list, j);
      SameWordAt(t.mem, u.mem, c, n, Count(list, j));
    }
    if link {
      SameWordAt(t.mem, u.mem, c, n, k);
    }
    if live > 0 {
      LiveAbove(s, n, live);
    } else {
      NoWords(s.mem, u.mem, Canon(s.regs[13]));
    }
  }

  lemma SameWordAt(m: MemState, w: MemState, c: int, n: nat, k: nat)
    requires SameWords(m, w, c, n) && k < n
    ensures Word(w, c + 4 * k) == Word(m, c + 4 * k)
  {
    hide Word;
  }

  lemma NoWords(m: MemState, w: MemState, c: int)
    ensures SameWords(m, w, c, 0)
  {
  }

  /** Any well-nested run restores SP and keeps the words above it. */
  lemma {:induction false} NestingKeeps(s: CpuState, code: Code, live: nat)
    requires Unprivileged(s) && Nested(s, code, live)
    ensures Kept(s, Run(s, code), live)
    decreases code, 0
  {
    hide PushPop, SameWords, MapAddress, Fits;
    match code
    case Work(_) =>
    case Then(a, b) =>
      NestingKeeps(s, a, live);
      NestingKeeps(Run(s, a), b, live);
      WordsThen(s.mem, Run(s, a).mem, Run(s, code).mem, Canon(s.regs[13]), live);
    case Frame(list, link, body) =>
      FrameRestores(s, list, link, body, live, 0);
  }

  /** And a frame restores each register it lists, resuming, if it pops PC, at the LR it pushed. */
  lemma {:induction false} FrameRestores(s: CpuState, list: byte, link: bool, body: Code, live: nat, j: nat)
    requires Unprivileged(s) && Nested(s, Frame(list, link, body), live) && j < 8
    ensures var t, lr := Run(s, Frame(list, link, body)), Low32(s.regs[14]);
            && Kept(s, t, live)
            && (Bit(list, j) ==> t.regs[j] == Low32(s.regs[j]))
            && (link ==> t.regs[15] == Even(lr) && (t.Thumb() <==> lr % 2 == 1))
    decreases body, 1
  {
    hide PushPop, SameWords, MapAddress, Bit, Count, Push, Cpu.Thumb, Pop, Fits;
    PushPopDecoded(s, list, link);
    var t := Push(s, list, link);
    PushFits(s, list, link, live);
    NestingKeeps(t, body, live + FrameSize(list, link));
    PushPopDecoded(Run(t, body), list, link);
    FrameReturns(s, list, link, Run(t, body), live, j);
  }
}
