/** Block transfers by their addresses: where each register of LDM and STM goes to and comes from. */
module TransferLaws {
  import opened Words
  import opened Memory
  import opened MemoryLaws
  import opened DmaLaws
  import opened Processor
  import opened BlockLaws
  import opened ArmLaws

  // ----- ARM -----

  function ListOf(instr: word): nat { instr % 0x1_0000 }

  /** The number of listed registers. */
  function SizeOf(instr: word): nat { Count(ListOf(instr), 16) }

  function BaseOf(s: CpuState, instr: word): nat { Operand(s, RnOf(instr)) }

  /** The address of the word of rank `r`, the registers in ascending order, by bits 24 and 23: decrement
      after, increment after, decrement before, increment before. */
  function AddressOf(s: CpuState, instr: word, r: nat): int {
    var base, n := BaseOf(s, instr), SizeOf(instr);
    match instr / 0x80_0000 % 4
    case 0 => base - 4 * (n - 1) + 4 * r
    case 1 => base + 4 * r
    case 2 => base - 4 * n + 4 * r
    case _ => base + 4 + 4 * r
  }

  /** Where the base goes. */
  function NewBase(s: CpuState, instr: word): word {
    if instr / 0x80_0000 % 2 == 1 then Low32(BaseOf(s, instr) + 4 * SizeOf(instr))
    else Low32(BaseOf(s, instr) - 4 * SizeOf(instr))
  }

  predicate WritesBack(instr: word) { instr / 0x20_0000 % 2 == 1 }
  predicate IsLoad(instr: word) { instr / 0x10_0000 % 2 == 1 }

  /** The words lie in RAM. */
  predicate WordsInRam(s: CpuState, instr: word) {
    ListOf(instr) != 0 && RnOf(instr) < 15 && Linear(AddressOf(s, instr, 0), 4 * SizeOf(instr))
  }

  /** The word for register `j`. */
  function SlotOf(s: CpuState, instr: word, j: nat, m: MemState): word {
    Word(m, MapAddress(Low32(AddressOf(s, instr, Count(ListOf(instr), j)))))
  }

  /** The canonical address of the lowest word. */
  function Lowest(s: CpuState, instr: word): word {
    MapAddress(Low32(AddressOf(s, instr, 0)))
  }

  lemma DecodedFields(s: CpuState, instr: word)
    ensures var f := DecodeBlock(instr);
            && f.list == ListOf(instr) && f.rn == RnOf(instr) && f.load == IsLoad(instr) && f.writeback == WritesBack(instr)
            && f.Start(BaseOf(s, instr)) == AddressOf(s, instr, 0)
            && (f.psr <==> instr / 0x40_0000 % 2 == 1)
            && Low32(f.End(BaseOf(s, instr))) == NewBase(s, instr)
  {
    TwoBits(instr / 0x80_0000);
    assert instr / 0x100_0000 == instr / 0x80_0000 / 2;
    hide Count, Operand;
  }

  lemma TwoBits(x: nat)
    ensures x % 4 == 2 * (x / 2 % 2) + x % 2
  {
  }

  lemma AddressStep(s: CpuState, instr: word, r: nat)
    ensures AddressOf(s, instr, r) == AddressOf(s, instr, 0) + 4 * r
  {
    hide Count, Operand;
  }

  lemma SomeListed(list: nat)
    requires 0 < list < 0x1_0000
    ensures Count(list, 16) > 0
  {
    assert Pow2(8) == 0x100 && Pow2(16) == 0x1_0000 by {
      assert Pow2(4) == 0x10;
      assert Pow2(12) == 0x1000;
    }
    var j := SomeBit(list, 16);
    ListedSome(list, 0, j, 16);
    CountFromZero(list, 16);
  }

  /** The room, and the slot of a listed register in it. */
  lemma RoomOf(s: CpuState, instr: word)
    requires WordsInRam(s, instr)
    ensures Room(AddressOf(s, instr, 0), Lowest(s, instr), SizeOf(instr)) && SizeOf(instr) > 0
    ensures 0 <= AddressOf(s, instr, 0)
  {
    hide Count, Operand, Linear, MapAddress;
    SomeListed(ListOf(instr));
    var a, n := AddressOf(s, instr, 0), SizeOf(instr);
    hide AddressOf, SizeOf;
    LinearStep(a, 4 * n, 0);
  }

  lemma RankInList(list: nat, j: nat, stop: nat)
    requires j < stop <= 16 && Bit(list, j)
    ensures Listed(list, 0, j) == Count(list, j) < Count(list, stop) == Listed(list, 0, stop)
  {
    ListedSome(list, 0, j, stop);
    CountFromZero(list, j);
    CountFromZero(list, stop);
  }

  lemma SlotIsRank(s: CpuState, instr: word, j: nat, m: MemState)
    requires WordsInRam(s, instr) && j < 16 && Bit(ListOf(instr), j)
    ensures SlotOf(s, instr, j, m) == Word(m, Lowest(s, instr) + 4 * Count(ListOf(instr), j))
  {
    hide Count, Operand, Linear, MapAddress, Room, Word, AddressOf, Bit, WordsInRam;
    RoomOf(s, instr);
    RankInList(ListOf(instr), j, 16);
    var r := Count(ListOf(instr), j);
    AddressStep(s, instr, r);
    WordOfRoom(AddressOf(s, instr, 0), Lowest(s, instr), SizeOf(instr), r);
  }

  /** STM: each listed register is in its word, no other byte of RAM has changed, and of the registers
      only the base, if it is written back, and the program counter. */
  ghost predicate StmDone(s: CpuState, instr: word, t: CpuState) {
    && (forall j: nat :: j < 16 && Bit(ListOf(instr), j) ==> SlotOf(s, instr, j, t.mem) == Low32(Operand(s, j)))
    && OnlyChanged(s.mem, t.mem, Lowest(s, instr), 4 * SizeOf(instr))
    && SameButRegs(s, t) && t.regs[15] == s.regs[15] + 4
    && forall j :: 0 <= j < 15 ==> t.regs[j] == if WritesBack(instr) && j == RnOf(instr) then NewBase(s, instr) else s.regs[j]
  }

  predicate SameButRegs(s: CpuState, t: CpuState) {
    t.cpsr == s.cpsr && t.spsr == s.spsr && t.mode == s.mode && t.banks == s.banks
  }

  lemma StmUnfold(s: CpuState, instr: word)
    requires ListOf(instr) != 0 && RnOf(instr) < 15 && !IsLoad(instr)
    ensures var u := StoreFrom(s, ListOf(instr), 0, 16, AddressOf(s, instr, 0));
            var w := if WritesBack(instr) then SetReg(u, RnOf(instr), NewBase(s, instr)) else u;
            BlockTransfer(s, DecodeBlock(instr)) == SetReg(w, 15, w.regs[15] + 4)
  {
    DecodedFields(s, instr);
    hide StoreFrom, LoadFrom, Count, Bit, DecodeBlock, AddressOf, NewBase, ListOf, RnOf, IsLoad, WritesBack;
  }

  lemma StmLaw(s: CpuState, instr: word)
    requires WordsInRam(s, instr) && !IsLoad(instr)
    ensures StmDone(s, instr, BlockTransfer(s, DecodeBlock(instr)))
  {
    hide StoreFrom, Room, BlockTransfer, Word, OnlyChanged, Count, Listed, Bit, AddressOf, NewBase, WordsInRam, Operand,
         DecodeBlock, MapAddress, Lowest, ListOf;
    RoomOf(s, instr);
    var list, start, c := ListOf(instr), AddressOf(s, instr, 0), Lowest(s, instr);
    assert list != 0 && RnOf(instr) < 15 by { InRamList(s, instr); }
    CountFromZero(list, 16);
    StmUnfold(s, instr);
    StoreChangesOnly(s, list, 0, 16, start, c);
    var t := BlockTransfer(s, DecodeBlock(instr));
    forall j: nat | j < 16 && Bit(list, j)
      ensures SlotOf(s, instr, j, t.mem) == Low32(Operand(s, j))
    {
      StorePutsByRank(s, list, 0, 16, start, c, j);
      RankInList(list, j, 16);
      SlotIsRank(s, instr, j, t.mem);
    }
  }

  lemma InRamList(s: CpuState, instr: word)
    requires WordsInRam(s, instr)
    ensures ListOf(instr) != 0 && RnOf(instr) < 15
  {
  }

  // ----- loading, with r15 too -----

  /** The last turn of a load loop that ends in r15. */
  lemma {:induction false} LoadToPc(s: CpuState, list: nat, i: nat, addr: int, c: int)
    requires i <= 15 && Bit(list, 15) && Room(addr, c, Listed(list, i, 16))
    ensures LoadFrom(s, list, i, 16, addr)
            == WriteReg(LoadFrom(s, list, i, 15, addr), 15, Word(s.mem, c + 4 * Listed(list, i, 15)))
    ensures Room(addr, c, Listed(list, i, 15))
    decreases 15 - i
  {
    hide LoadFrom, Room, Bit, Word, Listed, WriteReg, Read32, AfterRead32, SetReg;
    LoadUnfold(s, list, i, 16, addr);
    ListedToPc(list, i);
    RoomPrefix(addr, c, Listed(list, i, 16), Listed(list, i, 15));
    if i == 15 {
      LastLoad(s, list, addr, c);
    } else if Bit(list, i) {
      LoadUnfold(s, list, i, 15, addr);
      LoadStep(s, list, i, 16, addr, c);
      LoadStep(s, list, i, 15, addr, c);
      var u := SetReg(s, i, Word(s.mem, c));
      LoadToPc(u, list, i + 1, addr + 4, c + 4);
      SetRegMem(s, i, Word(s.mem, c));
    } else {
      LoadUnfold(s, list, i, 15, addr);
      LoadToPc(s, list, i + 1, addr, c);
    }
  }

  lemma SetRegMem(s: CpuState, i: nat, v: nat)
    requires i < 16
    ensures SetReg(s, i, v).mem == s.mem
  {
  }

  lemma ListedToPc(list: nat, i: nat)
    requires i <= 15 && Bit(list, 15)
    ensures Listed(list, i, 16) == Listed(list, i, 15) + 1 && (i == 15 ==> Listed(list, i, 15) == 0)
  {
    ListedIsCount(list, i, 16);
    ListedIsCount(list, i, 15);
    hide Bit;
  }

  lemma LastLoad(s: CpuState, list: nat, addr: int, c: int)
    requires Bit(list, 15) && Room(addr, c, Listed(list, 15, 16)) && Listed(list, 15, 16) == 1
    ensures LoadFrom(s, list, 15, 16, addr) == WriteReg(s, 15, Word(s.mem, c)) && LoadFrom(s, list, 15, 15, addr) == s
  {
    LoadFirst(s.mem, addr, c, 1);
    hide Room, Bit, Word, Listed, WriteReg, Read32, AfterRead32;
  }

  /** What LDM leaves in register `j`. */
  function Fetched(s: CpuState, instr: word, j: nat): nat
    requires j < 15
  {
    if WritesBack(instr) && j == RnOf(instr) then NewBase(s, instr)
    else if Bit(ListOf(instr), j) then SlotOf(s, instr, j, s.mem)
    else s.regs[j]
  }

  predicate Restores(s: CpuState, instr: word) {
    instr / 0x40_0000 % 2 == 1 && HasSpsr(s.mode)
  }

  /** Registers 0 to `n` - 1 as LDM leaves them. */
  predicate AllFetched(s: CpuState, instr: word, t: CpuState, n: nat)
    requires n <= 15
  {
    forall j :: 0 <= j < n ==> t.regs[j] == Fetched(s, instr, j)
  }

  /** LDM: memory as before, each listed register from its word, the base written back over what was
      loaded.  The word for r15 is where execution goes on, Thumb code if it is odd, and rounded down;
      with the S bit, in a mode that has one, the saved status comes back. */
  ghost predicate LdmDone(s: CpuState, instr: word, t: CpuState) {
    t.mem == s.mem
    && if !Bit(ListOf(instr), 15) then
         SameButRegs(s, t) && t.regs[15] == s.regs[15] + 4 && AllFetched(s, instr, t, 15)
       else
         var r := SlotOf(s, instr, 15, s.mem);
         && t.regs[15] == (if r % 2 == 1 then r - 1 else if s.Thumb() then r else r - r % 4)
         && if Restores(s, instr) then
              t.cpsr == s.spsr[SpsrIndex(s.mode)] && t.mode == t.cpsr % 0x20 && AllFetched(s, instr, t, 8)
            else t.mode == s.mode && t.banks == s.banks && AllFetched(s, instr, t, 15)
  }

  lemma LdmUnfold(s: CpuState, instr: word)
    requires ListOf(instr) != 0 && RnOf(instr) < 15 && IsLoad(instr)
    ensures var u := LoadFrom(s, ListOf(instr), 0, 16, AddressOf(s, instr, 0));
            var w := if WritesBack(instr) then SetReg(u, RnOf(instr), NewBase(s, instr)) else u;
            BlockTransfer(s, DecodeBlock(instr))
            == if !Bit(ListOf(instr), 15) then SetReg(w, 15, w.regs[15] + 4)
               else if instr / 0x40_0000 % 2 == 1 && HasSpsr(w.mode) then RestoreStatus(w) else w
  {
    DecodedFields(s, instr);
    hide StoreFrom, LoadFrom, Count, Bit, DecodeBlock, AddressOf, NewBase, ListOf, RnOf, IsLoad, WritesBack, RestoreStatus;
  }

  /** The listed registers, each from its word. */
  lemma Loads(s: CpuState, instr: word, stop: nat, j: nat)
    requires WordsInRam(s, instr) && IsLoad(instr) && j < 15
    requires stop == 15 || (stop == 16 && !Bit(ListOf(instr), 15))
    ensures var t := LoadFrom(s, ListOf(instr), 0, stop, AddressOf(s, instr, 0));
            && OnlyRegs(s, t) && t.regs[15] == s.regs[15]
            && t.regs[j] == if Bit(ListOf(instr), j) then SlotOf(s, instr, j, s.mem) else s.regs[j]
  {
    hide LoadFrom, Room, Word, Count, Listed, Bit, AddressOf, WordsInRam, Operand, MapAddress, Lowest, ListOf, SlotOf;
    RoomOf(s, instr);
    var list, start, c := ListOf(instr), AddressOf(s, instr, 0), Lowest(s, instr);
    CountFromZero(list, 16);
    CountFromZero(list, 15);
    CountFromZero(list, j);
    FewerListed(list);
    RoomPrefix(start, c, Count(list, 16), Count(list, stop));
    LoadGetsByRank(s, list, 0, stop, start, c, j);
    LoadGetsByRank(s, list, 0, stop, start, c, 15);
    if Bit(list, j) {
      SlotIsRank(s, instr, j, s.mem);
    }
  }

  lemma FewerListed(list: nat)
    ensures Count(list, 15) <= Count(list, 16)
  {
    hide Bit;
  }

  lemma LdmLaw(s: CpuState, instr: word)
    requires WordsInRam(s, instr) && IsLoad(instr)
    ensures LdmDone(s, instr, BlockTransfer(s, DecodeBlock(instr)))
  {
    hide LoadFrom, BlockTransfer, Count, Bit, AddressOf, NewBase, WordsInRam, Operand, DecodeBlock, ListOf, SlotOf, WritesBack,
         IsLoad, RnOf, RestoreStatus, WriteReg, SpsrIndex, Cpu.Thumb;
    assert ListOf(instr) != 0 && RnOf(instr) < 15 by { InRamList(s, instr); }
    LdmUnfold(s, instr);
    if Bit(ListOf(instr), 15) {
      LdmWithPc(s, instr);
    } else {
      forall j: nat | j < 15
        ensures var t := LoadFrom(s, ListOf(instr), 0, 16, AddressOf(s, instr, 0));
                && OnlyRegs(s, t) && t.regs[15] == s.regs[15]
                && t.regs[j] == if Bit(ListOf(instr), j) then SlotOf(s, instr, j, s.mem) else s.regs[j]
      {
        Loads(s, instr, 16, j);
      }
      Loads(s, instr, 16, 0);
    }
  }

  lemma LdmWithPc(s: CpuState, instr: word)
    requires WordsInRam(s, instr) && IsLoad(instr) && Bit(ListOf(instr), 15)
    ensures LdmDone(s, instr, BlockTransfer(s, DecodeBlock(instr)))
  {
    hide LoadFrom, BlockTransfer, Count, Bit, AddressOf, NewBase, WordsInRam, Operand, DecodeBlock, ListOf, SlotOf, WritesBack,
         IsLoad, RnOf, RestoreStatus, WriteReg, SpsrIndex;
    assert ListOf(instr) != 0 && RnOf(instr) < 15 by { InRamList(s, instr); }
    LdmUnfold(s, instr);
    var u := LoadFrom(s, ListOf(instr), 0, 15, AddressOf(s, instr, 0));
    forall j: nat | j < 15
      ensures OnlyRegs(s, u) && u.regs[15] == s.regs[15]
      ensures u.regs[j] == if Bit(ListOf(instr), j) then SlotOf(s, instr, j, s.mem) else s.regs[j]
    {
      Loads(s, instr, 15, j);
    }
    Loads(s, instr, 15, 0);
    PcLoaded(s, instr);
    var r := SlotOf(s, instr, 15, s.mem);
    RoundPc(u, r);
    var w := WriteReg(u, 15, r);
    var v := if WritesBack(instr) then SetReg(w, RnOf(instr), NewBase(s, instr)) else w;
    if Restores(s, instr) {
      Restored(v);
    }
  }

  lemma PcLoaded(s: CpuState, instr: word)
    requires WordsInRam(s, instr) && IsLoad(instr) && Bit(ListOf(instr), 15)
    ensures var start := AddressOf(s, instr, 0);
            LoadFrom(s, ListOf(instr), 0, 16, start)
            == WriteReg(LoadFrom(s, ListOf(instr), 0, 15, start), 15, SlotOf(s, instr, 15, s.mem))
  {
    hide LoadFrom, Count, Bit, AddressOf, WordsInRam, Operand, ListOf, SlotOf, IsLoad, WriteReg, Word, Room, Listed, MapAddress,
         Lowest;
    RoomOf(s, instr);
    CountFromZero(ListOf(instr), 16);
    CountFromZero(ListOf(instr), 15);
    SlotIsRank(s, instr, 15, s.mem);
    LoadToPc(s, ListOf(instr), 0, AddressOf(s, instr, 0), Lowest(s, instr));
  }

  /** The return from an exception keeps r0 to r7, the program counter and the memory. */
  lemma Restored(s: CpuState)
    requires HasSpsr(s.mode)
    ensures var t := RestoreStatus(s);
            && t.cpsr == s.spsr[SpsrIndex(s.mode)] && t.mode == t.cpsr % 0x20 && t.mem == s.mem
            && t.regs[15] == s.regs[15] && forall j :: 0 <= j < 8 ==> t.regs[j] == s.regs[j]
  {
    hide IsMode, BankOf, SaveBank, SpsrIndex;
  }

  /** An empty list leaves everything as it is, the program counter included: the instruction is executed
      for ever. */
  lemma EmptyListStalls(s: CpuState, instr: word)
    requires ListOf(instr) == 0
    ensures BlockTransfer(s, DecodeBlock(instr)) == s
  {
  }

  /** What a block transfer between RAM and registers does. */
  ghost predicate BlockDone(s: CpuState, instr: word, t: CpuState) {
    && (ListOf(instr) == 0 ==> t == s)
    && (WordsInRam(s, instr) ==> if IsLoad(instr) then LdmDone(s, instr, t) else StmDone(s, instr, t))
  }

  lemma BlockHolds(s: CpuState, instr: word)
    ensures BlockDone(s, instr, BlockTransfer(s, DecodeBlock(instr)))
  {
    hide BlockTransfer, DecodeBlock, WordsInRam, StmDone, LdmDone, IsLoad;
    if ListOf(instr) == 0 {
      EmptyListStalls(s, instr);
    }
    if WordsInRam(s, instr) {
      if IsLoad(instr) {
        LdmLaw(s, instr);
      } else {
        StmLaw(s, instr);
      }
    }
  }

  // ----- Thumb, format 15 -----

  function LowList(instr: nat): nat { instr % 0x100 }
  function LowBase(s: CpuState, instr: nat): nat { s.regs[instr / 0x100 % 8] }
  function LowSize(instr: nat): nat { Count(LowList(instr), 8) }

  predicate LowWordsInRam(s: CpuState, instr: nat) {
    LowList(instr) != 0 && Linear(LowBase(s, instr), 4 * LowSize(instr))
  }

  /** The word for register `j`: four bytes on from the base for each listed register below it. */
  function LowSlot(s: CpuState, instr: nat, j: nat, m: MemState): word {
    Word(m, MapAddress(Low32(LowBase(s, instr) + 4 * Count(LowList(instr), j))))
  }

  lemma LowRoom(s: CpuState, instr: nat)
    requires LowWordsInRam(s, instr)
    ensures Room(LowBase(s, instr), MapAddress(Low32(LowBase(s, instr))), LowSize(instr)) && LowSize(instr) > 0
  {
    assert Pow2(8) == 0x100 by { assert Pow2(4) == 0x10; }
    var list := LowList(instr);
    var j := SomeBit(list, 8);
    ListedSome(list, 0, j, 8);
    CountFromZero(list, 8);
    hide Count, Linear, MapAddress;
    LinearStep(LowBase(s, instr), 4 * LowSize(instr), 0);
  }

  lemma LowSlotIsRank(s: CpuState, instr: nat, j: nat, m: MemState)
    requires LowWordsInRam(s, instr) && j < 8 && Bit(LowList(instr), j)
    ensures LowSlot(s, instr, j, m) == Word(m, MapAddress(Low32(LowBase(s, instr))) + 4 * Count(LowList(instr), j))
  {
    hide Count, MapAddress, Room, Word, Bit, LowWordsInRam, Low32, LowBase, LowList, Listed;
    LowRoom(s, instr);
    RankInList(LowList(instr), j, 8);
    WordOfRoom(LowBase(s, instr), MapAddress(Low32(LowBase(s, instr))), LowSize(instr), Count(LowList(instr), j));
  }

  /** STMIA and LDMIA: upwards from the base by rank; the base moves past the words, unmasked, whether it
      is listed or not; an empty list is stepped over. */
  ghost predicate LowDone(s: CpuState, instr: nat, t: CpuState) {
    var load, rb, list := instr / 0x800 % 2 == 1, instr / 0x100 % 8, LowList(instr);
    && SameButRegs(s, t) && t.regs[15] == s.regs[15] + 2
    && (list == 0 ==> t.mem == s.mem && forall j :: 0 <= j < 15 ==> t.regs[j] == s.regs[j])
    && (LowWordsInRam(s, instr) ==>
          && (if load then t.mem == s.mem
              else
                && OnlyChanged(s.mem, t.mem, MapAddress(Low32(LowBase(s, instr))), 4 * LowSize(instr))
                && forall j: nat :: j < 8 && Bit(list, j) ==> LowSlot(s, instr, j, t.mem) == Low32(s.regs[j]))
          && forall j: nat :: j < 15 ==>
               t.regs[j] == if j == rb then LowBase(s, instr) + 4 * LowSize(instr)
                            else if load && j < 8 && Bit(list, j) then LowSlot(s, instr, j, s.mem)
                            else s.regs[j])
  }

  lemma {:induction false} StoreKeepsRest(s: CpuState, list: nat, i: nat, addr: int)
    requires i <= 8
    ensures var t := StoreFrom(s, list, i, 8, addr); t == s.(mem := t.mem)
    decreases 8 - i
  {
    if i < 8 {
      hide Write32, Operand, Bit;
      if Bit(list, i) {
        StoreKeepsRest(s.(mem := Write32(s.mem, Low32(addr), Low32(Operand(s, i)))), list, i + 1, addr + 4);
      } else {
        StoreKeepsRest(s, list, i + 1, addr);
      }
    }
  }

  lemma {:induction false} LoadKeepsRest(s: CpuState, list: nat, i: nat, addr: int)
    requires i <= 8
    ensures var t := LoadFrom(s, list, i, 8, addr); SameButRegs(s, t) && t.regs[15] == s.regs[15]
    decreases 8 - i
  {
    if i < 8 {
      hide Read32, AfterRead32, WriteReg, Bit;
      if Bit(list, i) {
        var u := s.(mem := AfterRead32(s.mem, Low32(addr)));
        WriteLow(u, i, Read32(s.mem, Low32(addr)));
        LoadKeepsRest(WriteReg(u, i, Read32(s.mem, Low32(addr))), list, i + 1, addr + 4);
      } else {
        LoadKeepsRest(s, list, i + 1, addr);
      }
    }
  }

  lemma LowUnfold(s: CpuState, instr: nat)
    ensures var load, rb, list, base := instr / 0x800 % 2 == 1, instr / 0x100 % 8, LowList(instr), LowBase(s, instr);
            var u := if load then LoadFrom(s, list, 0, 8, base) else StoreFrom(s, list, 0, 8, base);
            var w := if list == 0 then s else SetReg(u, rb, base + 4 * LowSize(instr));
            LdmStm(s, instr) == SetReg(w, 15, w.regs[15] + 2)
  {
    hide StoreFrom, LoadFrom, Count;
  }

  lemma LowLaw(s: CpuState, instr: nat)
    ensures LowDone(s, instr, LdmStm(s, instr))
  {
    hide StoreFrom, LoadFrom, Count, Bit, LowWordsInRam, LdmStm, LowSlot, MapAddress, OnlyChanged;
    LowUnfold(s, instr);
    StoreKeepsRest(s, LowList(instr), 0, LowBase(s, instr));
    LoadKeepsRest(s, LowList(instr), 0, LowBase(s, instr));
    if LowWordsInRam(s, instr) {
      assert LowList(instr) != 0 by { LowListed(s, instr); }
      if instr / 0x800 % 2 == 1 {
        forall j: nat | j < 15
          ensures var t := LoadFrom(s, LowList(instr), 0, 8, LowBase(s, instr));
                  && t.mem == s.mem
                  && t.regs[j] == if j < 8 && Bit(LowList(instr), j) then LowSlot(s, instr, j, s.mem) else s.regs[j]
        {
          LowLoads(s, instr, j);
        }
        LowLoads(s, instr, 0);
      } else {
        LowStores(s, instr);
      }
    }
  }

  lemma LowListed(s: CpuState, instr: nat)
    requires LowWordsInRam(s, instr)
    ensures LowList(instr) != 0
  {
  }

  lemma LowLoads(s: CpuState, instr: nat, j: nat)
    requires LowWordsInRam(s, instr) && j < 15
    ensures var t := LoadFrom(s, LowList(instr), 0, 8, LowBase(s, instr));
            && t.mem == s.mem
            && t.regs[j] == if j < 8 && Bit(LowList(instr), j) then LowSlot(s, instr, j, s.mem) else s.regs[j]
  {
    hide LoadFrom, Count, Bit, LowWordsInRam, LowSlot, MapAddress, Room, Listed, Word;
    LowRoom(s, instr);
    CountFromZero(LowList(instr), 8);
    CountFromZero(LowList(instr), j);
    LoadGetsByRank(s, LowList(instr), 0, 8, LowBase(s, instr), MapAddress(Low32(LowBase(s, instr))), j);
    if j < 8 && Bit(LowList(instr), j) {
      LowSlotIsRank(s, instr, j, s.mem);
    }
  }

  lemma LowStores(s: CpuState, instr: nat)
    requires LowWordsInRam(s, instr)
    ensures var t := StoreFrom(s, LowList(instr), 0, 8, LowBase(s, instr));
            && OnlyChanged(s.mem, t.mem, MapAddress(Low32(LowBase(s, instr))), 4 * LowSize(instr))
            && forall j: nat :: j < 8 && Bit(LowList(instr), j) ==> LowSlot(s, instr, j, t.mem) == Low32(s.regs[j])
  {
    hide StoreFrom, Count, Bit, LowWordsInRam, LowSlot, MapAddress, Room, Listed, Word, OnlyChanged;
    LowRoom(s, instr);
    var list, base, c := LowList(instr), LowBase(s, instr), MapAddress(Low32(LowBase(s, instr)));
    CountFromZero(list, 8);
    StoreChangesOnly(s, list, 0, 8, base, c);
    var t := StoreFrom(s, list, 0, 8, base);
    forall j: nat | j < 8 && Bit(list, j)
      ensures LowSlot(s, instr, j, t.mem) == Low32(s.regs[j])
    {
      StorePutsByRank(s, list, 0, 8, base, c, j);
      RankInList(list, j, 8);
      LowSlotIsRank(s, instr, j, t.mem);
    }
  }
}
