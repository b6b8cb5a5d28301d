/** Storing registers to RAM and loading them back. */
module BlockLaws {
  import opened Arith
  import opened Words
  import opened Memory
  import opened MemoryLaws
  import opened DmaLaws
  import opened Processor

  // ----- words in a linear range -----

  /** `n` words from `addr` on lie in one RAM region; `c` is the canonical address of the first. */
  predicate Room(addr: int, c: int, n: nat) {
    n > 0 ==> Linear(addr, 4 * n) && c == MapAddress(addr)
  }

  lemma RoomStep(addr: int, c: int, n: nat)
    requires n > 0 && Room(addr, c, n)
    ensures 0 <= addr < 0x0800_0000 && Low32(addr) == addr && MapAddress(addr) == c && Span(c, 4)
    ensures Room(addr + 4, c + 4, n - 1)
  {
    hide MapAddress;
    SpanInside(c, 4 * n, c, 4);
    if n > 1 {
      LinearStep(addr, 4 * n, 4);
      LinearRest(addr, 4 * n, 4);
    }
  }

  lemma RoomPrefix(addr: int, c: int, n: nat, k: nat)
    requires Room(addr, c, n) && k <= n
    ensures Room(addr, c, k)
  {
    if k > 0 {
      hide MapAddress;
      SpanInside(MapAddress(addr), 4 * n, MapAddress(addr), 4 * k);
    }
  }

  lemma {:induction false} WordOfRoom(addr: nat, c: int, n: nat, i: nat)
    requires i < n && Room(addr, c, n)
    ensures Low32(addr + 4 * i) == addr + 4 * i && MapAddress(Low32(addr + 4 * i)) == c + 4 * i && Span(c + 4 * i, 4)
    decreases i
  {
    hide Room, MapAddress, Span;
    RoomStep(addr, c, n);
    if i > 0 {
      WordOfRoom(addr + 4, c + 4, n - 1, i - 1);
    }
  }

  /** The word at a canonical address. */
  function Word(m: MemState, c: int): word {
    if Span(c, 4) then WordAt(m, c) else 0
  }

  /** A store of the first word, as the memory sees it. */
  lemma StoreFirst(m: MemState, addr: int, c: int, n: nat, v: word)
    requires n > 0 && Room(addr, c, n)
    ensures var w := Write32(m, Low32(addr), v); OnlyChanged(m, w, c, 4) && Word(w, c) == v
  {
    hide MapAddress, Room, Write32, Poke4, WordAt, Span, OnlyChanged;
    RoomStep(addr, c, n);
    Write32Ram(m, addr, v);
    WordStored(m, c, v, c);
  }

  lemma LoadFirst(m: MemState, addr: int, c: int, n: nat)
    requires n > 0 && Room(addr, c, n)
    ensures Read32(m, Low32(addr)) == Word(m, c) && AfterRead32(m, Low32(addr)) == m
  {
    hide MapAddress, Room, Read32, AfterRead32, WordAt, Span;
    RoomStep(addr, c, n);
    Read32Ram(m, addr);
  }

  /** Words clear of the changed bytes are the same. */
  lemma WordKept(m: MemState, w: MemState, c: int, n: nat, d: int)
    requires OnlyChanged(m, w, c, n) && (d + 4 <= c || c + n <= d)
    ensures Word(w, d) == Word(m, d)
  {
    hide OnlyChanged, WordAt, Span;
    if Span(d, 4) {
      UnitUntouched(m, w, c, n, d, true);
    }
  }

  // ----- lists -----

  /** How many of the registers from `i` to `stop` are listed. */
  function Listed(list: nat, i: nat, stop: nat): nat
    requires i <= stop
    decreases stop - i
  {
    if i == stop then 0 else Listed(list, i + 1, stop) + if Bit(list, i) then 1 else 0
  }

  lemma {:induction false} ListedIsCount(list: nat, i: nat, stop: nat)
    requires i <= stop
    ensures Count(list, i) + Listed(list, i, stop) == Count(list, stop)
    decreases stop - i
  {
    if i < stop {
      ListedIsCount(list, i + 1, stop);
    }
  }

  /** An unlisted stretch is empty; a stretch with a listed register is not. */
  lemma {:induction false} ListedSome(list: nat, i: nat, j: nat, stop: nat)
    requires i <= j < stop && Bit(list, j)
    ensures Listed(list, i, j) < Listed(list, i, stop)
    decreases j - i
  {
    if i < j {
      ListedSome(list, i + 1, j, stop);
    }
  }

  // ----- storing -----

  lemma StoreUnfold(s: CpuState, list: nat, i: nat, stop: nat, addr: int)
    requires i < stop <= 16
    ensures StoreFrom(s, list, i, stop, addr)
            == if Bit(list, i) then
                 StoreFrom(s.(mem := Write32(s.mem, Low32(addr), Low32(Operand(s, i)))), list, i + 1, stop, addr + 4)
               else StoreFrom(s, list, i + 1, stop, addr)
    ensures Listed(list, i, stop) == Listed(list, i + 1, stop) + if Bit(list, i) then 1 else 0
  {
    hide Write32, Operand;
  }

  lemma OperandKept(s: CpuState, m: MemState, i: nat)
    requires i < 16
    ensures Operand(s.(mem := m), i) == Operand(s, i)
  {
  }

  /** A store loop changes the words of its range and nothing else. */
  lemma {:induction false} StoreChangesOnly(s: CpuState, list: nat, i: nat, stop: nat, addr: int, c: int)
    requires i <= stop <= 16 && Room(addr, c, Listed(list, i, stop))
    ensures var t := StoreFrom(s, list, i, stop, addr);
            t == s.(mem := t.mem) && OnlyChanged(s.mem, t.mem, c, 4 * Listed(list, i, stop))
    decreases stop - i
  {
    if i == stop {
    } else {
      hide StoreFrom, Room, Write32, Operand, Bit, OnlyChanged, Listed;
      StoreUnfold(s, list, i, stop, addr);
      var n := Listed(list, i, stop);
      if Bit(list, i) {
        var v := Low32(Operand(s, i));
        var u := s.(mem := Write32(s.mem, Low32(addr), v));
        RoomStep(addr, c, n);
        StoreFirst(s.mem, addr, c, n, v);
        StoreChangesOnly(u, list, i + 1, stop, addr + 4, c + 4);
        OnlyChangedThen(s.mem, u.mem, StoreFrom(s, list, i, stop, addr).mem, c, 4, c + 4, 4 * (n - 1), 4 * n);
      } else {
        StoreChangesOnly(s, list, i + 1, stop, addr, c);
      }
    }
  }

  /** Each listed register goes to the word of its rank: the lowest register to the lowest address. */
  lemma {:induction false} StorePutsByRank(s: CpuState, list: nat, i: nat, stop: nat, addr: int, c: int, j: nat)
    requires i <= j < stop <= 16 && Bit(list, j) && Room(addr, c, Listed(list, i, stop))
    ensures Word(StoreFrom(s, list, i, stop, addr).mem, c + 4 * Listed(list, i, j)) == Low32(Operand(s, j))
    decreases stop - i
  {
    hide StoreFrom, Room, Write32, Operand, Bit, OnlyChanged, Word;
    StoreUnfold(s, list, i, stop, addr);
    var n := Listed(list, i, stop);
    if Bit(list, i) {
      var v := Low32(Operand(s, i));
      var u := s.(mem := Write32(s.mem, Low32(addr), v));
      RoomStep(addr, c, n);
      StoreFirst(s.mem, addr, c, n, v);
      if j == i {
        StoreChangesOnly(u, list, i + 1, stop, addr + 4, c + 4);
        WordKept(u.mem, StoreFrom(s, list, i, stop, addr).mem, c + 4, 4 * (n - 1), c);
      } else {
        OperandKept(s, u.mem, j);
        StorePutsByRank(u, list, i + 1, stop, addr + 4, c + 4, j);
      }
    } else {
      StorePutsByRank(s, list, i + 1, stop, addr, c, j);
    }
  }

  // ----- loading -----

  lemma LoadUnfold(s: CpuState, list: nat, i: nat, stop: nat, addr: int)
    requires i < stop <= 16
    ensures LoadFrom(s, list, i, stop, addr)
            == if Bit(list, i) then
                 LoadFrom(WriteReg(s.(mem := AfterRead32(s.mem, Low32(addr))), i, Read32(s.mem, Low32(addr))),
                          list, i + 1, stop, addr + 4)
               else LoadFrom(s, list, i + 1, stop, addr)
    ensures Listed(list, i, stop) == Listed(list, i + 1, stop) + if Bit(list, i) then 1 else 0
  {
    hide Read32, AfterRead32, WriteReg;
  }

  lemma WriteLow(s: CpuState, i: nat, v: word)
    requires i < 15
    ensures WriteReg(s, i, v) == s.(regs := s.regs[i := v])
  {
  }

  /** One turn of the load loop in RAM. */
  lemma LoadStep(s: CpuState, list: nat, i: nat, stop: nat, addr: int, c: int)
    requires i < stop <= 16 && Bit(list, i) && i < 15 && Room(addr, c, Listed(list, i, stop))
    ensures LoadFrom(s, list, i, stop, addr) == LoadFrom(SetReg(s, i, Word(s.mem, c)), list, i + 1, stop, addr + 4)
    ensures Room(addr + 4, c + 4, Listed(list, i + 1, stop))
  {
    hide LoadFrom, Room, Read32, AfterRead32, WriteReg, Bit, Word, Listed;
    LoadUnfold(s, list, i, stop, addr);
    RoomStep(addr, c, Listed(list, i, stop));
    LoadFirst(s.mem, addr, c, Listed(list, i, stop));
    WriteLow(s, i, Word(s.mem, c));
  }

  /** All but the registers is the same. */
  predicate OnlyRegs(s: CpuState, t: CpuState) {
    t.cpsr == s.cpsr && t.spsr == s.spsr && t.mode == s.mode && t.banks == s.banks && t.mem == s.mem
  }

  lemma SetRegAt(s: CpuState, i: nat, v: nat, j: nat)
    requires i < 16 && j < 16
    ensures OnlyRegs(s, SetReg(s, i, v)) && SetReg(s, i, v).regs[j] == if j == i then v else s.regs[j]
  {
  }

  lemma OnlyRegsThen(s: CpuState, t: CpuState, u: CpuState)
    requires OnlyRegs(s, t) && OnlyRegs(t, u)
    ensures OnlyRegs(s, u) && t.mem == s.mem
  {
  }

  /** What register `j` holds after the registers from `i` to `stop` are loaded: each listed one gets
      the word of its rank. */
  function Loaded(s: CpuState, list: nat, i: nat, stop: nat, c: int, j: nat): nat
    requires j < 16
  {
    if i <= j < stop && Bit(list, j) then Word(s.mem, c + 4 * Listed(list, i, j)) else s.regs[j]
  }

  lemma LoadNone(s: CpuState, list: nat, i: nat, addr: int, c: int, j: nat)
    requires i <= 16 && j < 16
    ensures LoadFrom(s, list, i, i, addr) == s && OnlyRegs(s, s) && Loaded(s, list, i, i, c, j) == s.regs[j]
  {
  }

  lemma LoadedUnfold(s: CpuState, list: nat, i: nat, stop: nat, c: int, j: nat)
    requires i < stop <= 16 && j < 16
    ensures Loaded(s, list, i, stop, c, j)
            == if Bit(list, i) then Loaded(SetReg(s, i, Word(s.mem, c)), list, i + 1, stop, c + 4, j)
               else Loaded(s, list, i + 1, stop, c, j)
  {
    hide Word, Bit;
  }

  /** A load loop without r15 changes registers only, each listed one to the word of its rank. */
  lemma {:induction false} LoadGetsByRank(s: CpuState, list: nat, i: nat, stop: nat, addr: int, c: int, j: nat)
    requires i <= stop <= 16 && j < 16 && (stop <= 15 || !Bit(list, 15)) && Room(addr, c, Listed(list, i, stop))
    ensures var t := LoadFrom(s, list, i, stop, addr); OnlyRegs(s, t) && t.regs[j] == Loaded(s, list, i, stop, c, j)
    decreases stop - i
  {
    hide LoadFrom, Room, Bit, Word, SetReg, OnlyRegs, Loaded, Listed;
    if i == stop {
      LoadNone(s, list, i, addr, c, j);
    } else {
      LoadedUnfold(s, list, i, stop, c, j);
      if Bit(list, i) {
        assert i < 15;
        LoadStep(s, list, i, stop, addr, c);
        var u := SetReg(s, i, Word(s.mem, c));
        SetRegAt(s, i, Word(s.mem, c), j);
        LoadGetsByRank(u, list, i + 1, stop, addr + 4, c + 4, j);
        OnlyRegsThen(s, u, LoadFrom(u, list, i + 1, stop, addr + 4));
      } else {
        hide Read32, AfterRead32, WriteReg;
        LoadUnfold(s, list, i, stop, addr);
        LoadGetsByRank(s, list, i + 1, stop, addr, c, j);
      }
    }
  }

  // ----- block transfers -----

  /** The load that undoes a store: it starts at the other end and goes the other way. */
  function Inverse(f: BlockFields): BlockFields {
    f.(pre := !f.pre, up := !f.up, load := true)
  }

  /** A store with writeback of some general registers, the base not among them. */
  predicate Saves(f: BlockFields) {
    !f.load && f.writeback && f.rn < 15 && !Bit(f.list, 15) && !Bit(f.list, f.rn) && 0 < f.list < 0x1_0000
  }

  lemma {:induction false} SomeBit(x: nat, k: nat) returns (j: nat)
    requires 0 < x < Pow2(k)
    ensures j < k && Bit(x, j)
  {
    if x % 2 == 1 {
      j := 0;
    } else {
      j := SomeBit(x / 2, k - 1);
      j := j + 1;
    }
  }

  lemma SavesSome(f: BlockFields)
    requires Saves(f)
    ensures Count(f.list, 16) == Listed(f.list, 0, 16) > 0
  {
    assert Pow2(8) == 0x100 && Pow2(16) == 0x1_0000 by {
      assert Pow2(4) == 0x10;
      assert Pow2(12) == 0x1000;
    }
    var j := SomeBit(f.list, 16);
    ListedSome(f.list, 0, j, 16);
    ListedIsCount(f.list, 0, 16);
  }

  /** The words lie in RAM, `c` being the canonical address of the first. */
  predicate InRoom(s: CpuState, f: BlockFields, c: int)
    requires f.rn < 15
  {
    Room(f.Start(s.regs[f.rn]), c, Count(f.list, 16))
  }

  /** Where the other end leaves the base, and that the inverse sees the same words from there. */
  lemma Mirrored(f: BlockFields, base: nat, c: int)
    requires Saves(f) && Room(f.Start(base), c, Count(f.list, 16))
    ensures 0 <= f.End(base) < TWO_32 && base < TWO_32
    ensures Inverse(f).Start(f.End(base)) == f.Start(base) && Inverse(f).End(f.End(base)) == base
  {
    SavesSome(f);
    LinearStep(f.Start(base), 4 * Count(f.list, 16), 4 * Count(f.list, 16) - 1);
  }

  /** Everything is as in `s` but the memory, the base and the program counter. */
  predicate Moved(s: CpuState, t: CpuState, rn: nat) {
    && t.cpsr == s.cpsr && t.spsr == s.spsr && t.mode == s.mode && t.banks == s.banks
    && t.regs[15] == s.regs[15] + 4
    && forall j :: 0 <= j < 15 && j != rn ==> t.regs[j] == s.regs[j]
  }

  lemma StoreBlockUnfold(s: CpuState, f: BlockFields)
    requires Saves(f)
    ensures var base := s.regs[f.rn];
            var u := SetReg(StoreFrom(s, f.list, 0, 16, f.Start(base)), f.rn, Low32(f.End(base)));
            BlockTransfer(s, f) == SetReg(u, 15, u.regs[15] + 4)
  {
    hide StoreFrom, Count, Bit, SetReg;
  }

  /** Every addressing mode stores the listed registers in order of rank, in exactly the n words of
      its range, and moves the base past them. */
  lemma StoreBlock(s: CpuState, f: BlockFields, c: int, j: nat)
    requires Saves(f) && InRoom(s, f, c) && j < 15
    ensures var t := BlockTransfer(s, f);
            && Moved(s, t, f.rn) && t.regs[f.rn] == f.End(s.regs[f.rn])
            && OnlyChanged(s.mem, t.mem, c, 4 * Count(f.list, 16))
            && (Bit(f.list, j) ==> Word(t.mem, c + 4 * Count(f.list, j)) == Low32(s.regs[j]))
  {
    hide StoreFrom, Room, BlockTransfer, Word, OnlyChanged, Count, Listed, Bit;
    SavesSome(f);
    var base := s.regs[f.rn];
    var start := f.Start(base);
    StoreBlockUnfold(s, f);
    Mirrored(f, base, c);
    StoreChangesOnly(s, f.list, 0, 16, start, c);
    if Bit(f.list, j) {
      StorePutsByRank(s, f.list, 0, 16, start, c, j);
      CountFromZero(f.list, j);
    }
  }

  lemma CountFromZero(list: nat, j: nat)
    ensures Listed(list, 0, j) == Count(list, j)
  {
    ListedIsCount(list, 0, j);
  }

  lemma LoadBlockUnfold(u: CpuState, f: BlockFields)
    requires Saves(f)
    ensures var base, g := u.regs[f.rn], Inverse(f);
            var t := SetReg(LoadFrom(u, f.list, 0, 16, g.Start(base)), f.rn, Low32(g.End(base)));
            BlockTransfer(u, g) == SetReg(t, 15, t.regs[15] + 4)
  {
    hide LoadFrom, Count, Bit, SetReg;
  }

  /** The `n` words at `c` are the same. */
  ghost predicate SameWords(m: MemState, w: MemState, c: int, n: nat) {
    forall k :: 0 <= k < n ==> Word(w, c + 4 * k) == Word(m, c + 4 * k)
  }

  /** Each store mode is undone by its inverse load, whatever happens in between to other memory and
      to the registers other than the base: the listed registers come back, and so does the base. */
  lemma LoadUndoesStore(s: CpuState, f: BlockFields, c: int, u: CpuState, j: nat)
    requires Saves(f) && InRoom(s, f, c) && j < 15
    requires u.regs[f.rn] == BlockTransfer(s, f).regs[f.rn]
    requires SameWords(BlockTransfer(s, f).mem, u.mem, c, Count(f.list, 16))
    ensures var v := BlockTransfer(u, Inverse(f));
            && v.mem == u.mem && v.cpsr == u.cpsr && v.spsr == u.spsr && v.mode == u.mode && v.banks == u.banks
            && v.regs[15] == u.regs[15] + 4
            && v.regs[j] == if j == f.rn then s.regs[j] else if Bit(f.list, j) then Low32(s.regs[j]) else u.regs[j]
  {
    hide LoadFrom, Room, BlockTransfer, Word, OnlyChanged, Count, Listed, Bit, Moved;
    SavesSome(f);
    var base := s.regs[f.rn];
    StoreBlock(s, f, c, j);
    Mirrored(f, base, c);
    LoadBlockUnfold(u, f);
    LoadGetsByRank(u, f.list, 0, 16, f.Start(base), c, j);
    LoadGetsByRank(u, f.list, 0, 16, f.Start(base), c, 15);
    if Bit(f.list, j) {
      RankBelow(f, j);
    }
  }

  lemma RankBelow(f: BlockFields, j: nat)
    requires j < 16 && Bit(f.list, j)
    ensures Listed(f.list, 0, j) == Count(f.list, j) < Count(f.list, 16)
  {
    ListedSome(f.list, 0, j, 16);
    CountFromZero(f.list, j);
    CountFromZero(f.list, 16);
  }

  lemma StmLdmRegister(s: CpuState, f: BlockFields, c: int, j: nat)
    requires Saves(f) && InRoom(s, f, c) && j < 15 && s.regs[j] < TWO_32
    ensures var t := BlockTransfer(s, f);
            var v := BlockTransfer(t, Inverse(f));
            && v.regs[j] == s.regs[j] && v.regs[15] == s.regs[15] + 8
            && v.mem == t.mem && v.cpsr == s.cpsr && v.spsr == s.spsr && v.mode == s.mode && v.banks == s.banks
            && OnlyChanged(s.mem, t.mem, c, 4 * Count(f.list, 16))
  {
    assert f.rn < 15;
    hide Room, InRoom, BlockTransfer, OnlyChanged, Count, Bit, SameWords, Saves, Inverse;
    var t := BlockTransfer(s, f);
    SameWordsHere(t.mem, c, Count(f.list, 16));
    StoreBlock(s, f, c, j);
    LoadUndoesStore(s, f, c, t, j);
  }

  lemma RegsEqual(x: seq<nat>, r: seq<nat>, pc: nat)
    requires |x| == |r| == 16 && x[15] == pc && forall j :: 0 <= j < 15 ==> x[j] == r[j]
    ensures x == r[15 := pc]
  {
  }

  /** A store and its inverse load, one after the other, leave everything but the stored words and
      the program counter as it was. */
  lemma StmLdmRestores(s: CpuState, f: BlockFields, c: int)
    requires Saves(f) && InRoom(s, f, c)
    requires forall j :: 0 <= j < 15 ==> s.regs[j] < TWO_32
    ensures var t := BlockTransfer(s, f);
            && BlockTransfer(t, Inverse(f)) == s.(mem := t.mem, regs := s.regs[15 := s.regs[15] + 8])
            && OnlyChanged(s.mem, t.mem, c, 4 * Count(f.list, 16))
  {
    assert f.rn < 15;
    hide InRoom, BlockTransfer, OnlyChanged, Count, Saves, Inverse;
    var v := BlockTransfer(BlockTransfer(s, f), Inverse(f));
    forall j: nat | j < 15
      ensures v.regs[j] == s.regs[j]
    {
      StmLdmRegister(s, f, c, j);
    }
    StmLdmRegister(s, f, c, 0);
    RegsEqual(v.regs, s.regs, s.regs[15] + 8);
  }

  lemma SameWordsHere(m: MemState, c: int, n: nat)
    ensures SameWords(m, m, c, n)
  {
  }

  // ----- as instruction words -----

  /** `ldm` is `stm` with the load bit set and both addressing bits (24 and 23) the other way. */
  predicate InverseWord(stm: word, ldm: word) {
    && ldm / 0x200_0000 == stm / 0x200_0000 && ldm / 0x20_0000 % 4 == stm / 0x20_0000 % 4
    && ldm % 0x10_0000 == stm % 0x10_0000
    && stm / 0x10_0000 % 2 == 0 && ldm / 0x10_0000 % 2 == 1
    && ldm / 0x100_0000 % 2 != stm / 0x100_0000 % 2 && ldm / 0x80_0000 % 2 != stm / 0x80_0000 % 2
  }

  lemma InverseDecoded(stm: word, ldm: word)
    requires InverseWord(stm, ldm)
    ensures DecodeBlock(ldm) == Inverse(DecodeBlock(stm))
  {
    SameBits(stm / 0x20_0000, ldm / 0x20_0000);
    SameLow(stm, ldm);
    assert stm / 0x40_0000 == stm / 0x20_0000 / 2 && ldm / 0x40_0000 == ldm / 0x20_0000 / 2;
  }

  lemma SameBits(x: nat, y: nat)
    requires x % 4 == y % 4
    ensures x % 2 == y % 2 && x / 2 % 2 == y / 2 % 2
  {
  }

  lemma SameLow(x: nat, y: nat)
    requires x % 0x10_0000 == y % 0x10_0000
    ensures x % 0x1_0000 == y % 0x1_0000 && x / 0x1_0000 % 16 == y / 0x1_0000 % 16
  {
    LowFields(x);
    LowFields(y);
  }

  lemma LowFields(x: nat)
    ensures var r := x % 0x10_0000; x % 0x1_0000 == r % 0x1_0000 && x / 0x1_0000 % 16 == r / 0x1_0000
  {
    var q, r := x / 0x10_0000, x % 0x10_0000;
    var h, l := r / 0x1_0000, r % 0x1_0000;
    DivUnique(x, 0x1_0000, 16 * q + h, l);
    DivUnique(16 * q + h, 16, q, h);
  }

  /** So STM with writeback, in each of its four modes, is undone by the LDM with the opposite
      addressing bits. */
  lemma WordsRestore(s: CpuState, stm: word, ldm: word, c: int)
    requires InverseWord(stm, ldm) && Saves(DecodeBlock(stm)) && InRoom(s, DecodeBlock(stm), c)
    requires forall j :: 0 <= j < 15 ==> s.regs[j] < TWO_32
    ensures var t := BlockTransfer(s, DecodeBlock(stm));
            && BlockTransfer(t, DecodeBlock(ldm)) == s.(mem := t.mem, regs := s.regs[15 := s.regs[15] + 8])
            && OnlyChanged(s.mem, t.mem, c, 4 * Count(stm % 0x1_0000, 16))
  {
    assert DecodeBlock(stm).list == stm % 0x1_0000;
    hide InRoom, BlockTransfer, OnlyChanged, Count, Saves, Inverse, InverseWord, DecodeBlock;
    InverseDecoded(stm, ldm);
    StmLdmRestores(s, DecodeBlock(stm), c);
  }
}
