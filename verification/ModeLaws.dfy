/** Processor modes: banked registers, and the way into and out of a software interrupt. */
module ModeLaws {
  import opened Arith
  import opened Words
  import opened Alu
  import opened Memory
  import opened Processor

  // ----- the modes by number -----

  /** User, FIQ, IRQ, Supervisor, Abort, Undefined and System; User and System share a bank, no others do;
      all but these two have a saved status of their own. */
  lemma ModeNumbers(m: nat, n: nat)
    ensures IsMode(m) <==> m in {0x10, 0x11, 0x12, 0x13, 0x17, 0x1B, 0x1F}
    ensures IsMode(m) && IsMode(n) ==> (BankOf(m) == BankOf(n) <==> m == n || {m, n} == {0x10, 0x1F})
    ensures HasSpsr(m) <==> IsMode(m) && m != 0x10 && m != 0x1F
    ensures HasSpsr(m) && HasSpsr(n) ==> (SpsrIndex(m) == SpsrIndex(n) <==> m == n)
    ensures SVC == 0x13 && FIQ == 0x11
  {
    assert {m, n} == {0x10, 0x1F} <==> (m == 0x10 && n == 0x1F) || (m == 0x1F && n == 0x10) by {
      if {m, n} == {0x10, 0x1F} {
        assert m in {0x10, 0x1F} && n in {0x10, 0x1F} && 0x10 in {m, n} && 0x1F in {m, n};
      }
    }
  }

  // ----- banks as cells -----

  datatype Cell = Cell(sp: nat, lr: nat)

  /** A bank's stack pointer and link register, which the current mode has in its registers. */
  function Own(s: CpuState, b: nat): Cell
    requires b < 6
  {
    if IsMode(s.mode) && BankOf(s.mode) == b then Cell(s.regs[13], s.regs[14]) else Cell(s.banks[b].sp, s.banks[b].lr)
  }

  datatype Event = Switch(mode: nat) | Write(reg: nat, value: nat) {
    predicate Legal() {
      if Switch? then IsMode(mode) else reg < 15
    }
    function Apply(s: CpuState): CpuState
      requires Legal()
    {
      if Switch? then SwitchMode(s, mode) else WriteReg(s, reg, value)
    }
  }

  type Events = es: seq<Event> | forall i :: 0 <= i < |es| ==> es[i].Legal()

  function Play(s: CpuState, es: Events): CpuState {
    if es == [] then s else es[|es| - 1].Apply(Play(s, es[..|es| - 1]))
  }

  /** Six independent cells, of which the current one is written to. */
  datatype Cells = Cells(current: nat, cells: seq<Cell>) {
    predicate Ok() { |cells| == 6 && current < 6 }
    function Apply(e: Event): (r: Cells)
      requires Ok() && e.Legal()
      ensures r.Ok()
    {
      match e
      case Switch(mode) => Cells(BankOf(mode), cells)
      case Write(reg, v) =>
        if reg == 13 then Cells(current, cells[current := Cell(Low32(v), cells[current].lr)])
        else if reg == 14 then Cells(current, cells[current := Cell(cells[current].sp, Low32(v))])
        else this
    }
  }

  function PlayCells(c: Cells, es: Events): (r: Cells)
    requires c.Ok()
    ensures r.Ok()
  {
    if es == [] then c else PlayCells(c, es[..|es| - 1]).Apply(es[|es| - 1])
  }

  function View(s: CpuState): (c: Cells)
    requires IsMode(s.mode)
    ensures c.Ok() && c.current == BankOf(s.mode)
  {
    Cells(BankOf(s.mode), [Own(s, 0), Own(s, 1), Own(s, 2), Own(s, 3), Own(s, 4), Own(s, 5)])
  }

  lemma SwitchOwn(s: CpuState, mode: nat, b: nat)
    requires IsMode(s.mode) && IsMode(mode) && b < 6
    ensures SwitchMode(s, mode).mode == mode && Own(SwitchMode(s, mode), b) == Own(s, b)
  {
    hide IsMode, BankOf;
    if mode != s.mode {
      var banks := SaveBank(s);
      var regs := LoadBank(s.regs, banks[BankOf(mode)], mode);
      assert regs[13] == banks[BankOf(mode)].sp && regs[14] == banks[BankOf(mode)].lr;
    }
  }

  lemma SwitchView(s: CpuState, mode: nat)
    requires IsMode(s.mode) && IsMode(mode)
    ensures SwitchMode(s, mode).mode == mode && View(SwitchMode(s, mode)) == View(s).Apply(Switch(mode))
  {
    hide Own, SwitchMode, IsMode, BankOf;
    SwitchOwn(s, mode, 0);
    SwitchOwn(s, mode, 1);
    SwitchOwn(s, mode, 2);
    SwitchOwn(s, mode, 3);
    SwitchOwn(s, mode, 4);
    SwitchOwn(s, mode, 5);
  }

  lemma WriteOwn(s: CpuState, reg: nat, v: nat, b: nat)
    requires IsMode(s.mode) && reg < 15 && b < 6
    ensures var t := WriteReg(s, reg, v);
            t.mode == s.mode && Own(t, b) == if b != BankOf(s.mode) then Own(s, b)
                                             else if reg == 13 then Cell(Low32(v), Own(s, b).lr)
                                             else if reg == 14 then Cell(Own(s, b).sp, Low32(v))
                                             else Own(s, b)
  {
    hide IsMode, BankOf;
  }

  lemma WriteView(s: CpuState, reg: nat, v: nat)
    requires IsMode(s.mode) && reg < 15
    ensures var t := WriteReg(s, reg, v); t.mode == s.mode && View(t) == View(s).Apply(Write(reg, v))
  {
    hide Own, WriteReg, IsMode, BankOf;
    WriteOwn(s, reg, v, 0);
    WriteOwn(s, reg, v, 1);
    WriteOwn(s, reg, v, 2);
    WriteOwn(s, reg, v, 3);
    WriteOwn(s, reg, v, 4);
    WriteOwn(s, reg, v, 5);
  }

  /** Over any run of mode switches and register writes, each bank is a cell of its own for SP and LR,
      User and System sharing one. */
  lemma {:induction false} BanksAreCells(s: CpuState, es: Events)
    requires IsMode(s.mode)
    ensures IsMode(Play(s, es).mode) && View(Play(s, es)) == PlayCells(View(s), es)
  {
    if es != [] {
      hide View, SwitchMode, WriteReg, IsMode, BankOf, Cells.Apply;
      var n := |es| - 1;
      var t := Play(s, es[..n]);
      BanksAreCells(s, es[..n]);
      match es[n]
      case Switch(mode) => SwitchView(t, mode);
      case Write(reg, v) => WriteView(t, reg, v);
    }
  }

  // ----- general registers across a switch -----

  /** Entering any mode but FIQ leaves r0 to r12 and the program counter alone, even on the way out of
      FIQ. */
  lemma SwitchKeepsGeneral(s: CpuState, mode: nat, j: nat)
    requires j < 13 || j == 15
    requires mode != FIQ || s.mode == FIQ || j < 8 || j == 15
    ensures SwitchMode(s, mode).regs[j] == s.regs[j]
    ensures var t := SwitchMode(s, mode); t.cpsr == s.cpsr && t.spsr == s.spsr && t.mem == s.mem && t.mode == mode
  {
    hide IsMode, BankOf, SaveBank;
  }

  lemma IntoFiq(s: CpuState)
    requires IsMode(s.mode) && s.mode != FIQ
    ensures var t, b := SwitchMode(s, FIQ), s.banks[BankOf(FIQ)];
            && t.mode == FIQ && t.regs[8] == b.r8 && t.regs[9] == b.r9 && t.regs[10] == b.r10
            && t.regs[11] == b.r11 && t.regs[12] == b.r12
  {
  }

  /** So a visit to FIQ brings back r8 to r12 just when FIQ's own copies held the same values. */
  lemma FiqVisitIff(s: CpuState)
    requires IsMode(s.mode) && s.mode != FIQ
    ensures var t, b := SwitchMode(SwitchMode(s, FIQ), s.mode), s.banks[BankOf(FIQ)];
            (forall j :: 0 <= j < 13 ==> t.regs[j] == s.regs[j])
            <==> [s.regs[8], s.regs[9], s.regs[10], s.regs[11], s.regs[12]] == [b.r8, b.r9, b.r10, b.r11, b.r12]
  {
    var u := SwitchMode(s, FIQ);
    var t := SwitchMode(u, s.mode);
    IntoFiq(s);
    forall j | 0 <= j < 13
      ensures t.regs[j] == u.regs[j] && (j < 8 ==> u.regs[j] == s.regs[j])
    {
      SwitchKeepsGeneral(u, s.mode, j);
      if j < 8 {
        SwitchKeepsGeneral(s, FIQ, j);
      }
    }
    hide SwitchMode, IsMode;
    if forall j :: 0 <= j < 13 ==> t.regs[j] == s.regs[j] {
      assert t.regs[8] == s.regs[8] && t.regs[9] == s.regs[9] && t.regs[10] == s.regs[10] && t.regs[11] == s.regs[11]
             && t.regs[12] == s.regs[12];
    } else {
      var j :| 0 <= j < 13 && t.regs[j] != s.regs[j];
      assert j == 8 || j == 9 || j == 10 || j == 11 || j == 12;
    }
  }

  // ----- software interrupts -----

  /** MOVS PC, LR */
  const MOVS_PC_LR := 0xE1B0_F00E

  lemma MovsDecoded()
    ensures DecodeData(MOVS_PC_LR) == DataFields(0xD, true, false, 0, 15, 14)
  {
  }

  lemma SwiCpsr(cpsr: word)
    ensures (cpsr - cpsr % 0x20 + SVC) / 0x20 == cpsr / 0x20 && (cpsr - cpsr % 0x20 + SVC) % 0x20 == SVC
  {
    DivUnique(cpsr - cpsr % 0x20 + SVC, 0x20, cpsr / 0x20, SVC);
  }

  /** Entry from another mode: the status and the return address are SVC's, the caller's SP and LR are
      in the caller's bank, and the rest is untouched. */
  lemma SwiEnters(s: CpuState, j: nat)
    requires IsMode(s.mode) && s.mode != SVC && j < 13
    ensures var t := SwiHalt(s);
            && t.mode == SVC && t.cpsr % 0x20 == SVC && t.Thumb() == s.Thumb()
            && t.spsr[2] == s.cpsr && t.regs[14] == Low32(s.regs[15] + 4)
            && t.banks[BankOf(s.mode)].sp == s.regs[13] && t.banks[BankOf(s.mode)].lr == s.regs[14]
            && t.regs[j] == s.regs[j] && t.mem == s.mem && t.regs[15] == s.regs[15] + 4
            && (s.mode == FIQ ==> 8 <= j ==> FiqCopy(t.banks[1], j) == s.regs[j])
  {
    SwiCpsr(s.cpsr);
  }

  function FiqCopy(b: BankRegs, j: nat): nat
    requires 8 <= j < 13
  {
    if j == 8 then b.r8 else if j == 9 then b.r9 else if j == 10 then b.r10 else if j == 11 then b.r11 else b.r12
  }

  /** Whatever the state, entry changes the five mode bits of the CPSR and nothing else in it; in
      particular bit 7, which masks interrupts, is not set. */
  lemma SwiKeepsMask(s: CpuState)
    ensures var t := SwiHalt(s);
            && t.cpsr % 0x20 == SVC && t.cpsr / 0x20 == s.cpsr / 0x20
            && (t.cpsr / 0x80 % 2 == 1 <==> s.cpsr / 0x80 % 2 == 1)
  {
    SwiCpsr(s.cpsr);
    hide SwitchMode;
    SwitchKeepsStatus(s.(spsr := s.spsr[2 := s.cpsr], cpsr := s.cpsr - s.cpsr % 0x20 + SVC,
                         banks := s.banks[BankOf(SVC) := s.banks[BankOf(SVC)].(lr := Low32(s.regs[15] + 4))]), SVC);
    assert SwiHalt(s).cpsr / 0x80 == s.cpsr / 0x20 / 4;
  }

  lemma SwitchKeepsStatus(s: CpuState, mode: nat)
    ensures var t := SwitchMode(s, mode);
            t.cpsr == s.cpsr && t.spsr == s.spsr && t.mode == mode && t.mem == s.mem && t.regs[15] == s.regs[15]
  {
    hide SaveBank, IsMode, BankOf;
  }

  /** The return address is in LR after entry just when the mode was not SVC already, or LR held it by
      chance: from SVC it goes to a bank that is not loaded. */
  lemma SwiLinkIff(s: CpuState)
    ensures SwiHalt(s).regs[14] == Low32(s.regs[15] + 4) <==> s.mode != SVC || s.regs[14] == Low32(s.regs[15] + 4)
    ensures s.mode == SVC ==> SwiHalt(s).regs[14] == s.regs[14] && SwiHalt(s).regs[13] == s.regs[13]
  {
    hide SaveBank, Low32;
    if s.mode != SVC && IsMode(s.mode) {
      LoadsOwnLink(s);
    }
  }

  lemma LoadsOwnLink(s: CpuState)
    requires IsMode(s.mode) && s.mode != SVC
    ensures SwiHalt(s).regs[14] == Low32(s.regs[15] + 4)
  {
  }

  lemma MovsUnfold(u: CpuState)
    requires u.mode == SVC
    ensures exists cpsr: word ::
              DataProcessing(u, DecodeData(MOVS_PC_LR)) == RestoreStatus(WriteReg(u, 15, u.regs[14]).(cpsr := cpsr))
  {
    hide RestoreStatus, WriteReg, SetFlags;
    MovsDecoded();
    var f := DecodeData(MOVS_PC_LR);
    var t := WriteReg(u, 15, u.regs[14]);
    var o := ArmAlu(f.op, Operand(u, f.rn), Shifter(u, f), u.cpsr);
    assert o.result == u.regs[14];
    var c := SetFlags(t.cpsr, o.result, o.c, DataV(f.op, o.v, t.cpsr));
    assert t.mode == u.mode by { WriteKeepsMode(u, 15, u.regs[14]); }
    assert DataProcessing(u, f) == RestoreStatus(t.(cpsr := c));
  }

  lemma WriteKeepsMode(s: CpuState, reg: nat, v: nat)
    requires reg < 16
    ensures var t := WriteReg(s, reg, v); t.mode == s.mode && t.banks == s.banks && t.spsr == s.spsr && t.mem == s.mem
    ensures forall j :: 0 <= j < 16 && j != reg ==> WriteReg(s, reg, v).regs[j] == s.regs[j]
  {
  }

  /** Where MOVS PC, LR lands, against the instruction after the SWI. */
  lemma LandsIff(u: CpuState, lr: nat, link: word)
    requires link % 4 == 0 && !u.Thumb()
    ensures WriteReg(u, 15, lr).regs[15] == link <==> link <= Low32(lr) <= link + 2
  {
    hide SetThumb, Cpu.Thumb, Low32;
    RoundedIff(Low32(lr), link);
  }

  /** Bit 0 dropped from an odd number, two bits from an even one. */
  lemma RoundedIff(v: word, link: word)
    requires link % 4 == 0
    ensures (if v % 2 == 1 then v - 1 else v - v % 4) == link <==> link <= v <= link + 2
  {
    var p, q, r := v / 4, link / 4, v % 4;
    assert v == 4 * p + r && link == 4 * q;
    DivUnique(v, 2, 2 * p + r / 2, r % 2);
  }

  lemma LinkAligned(pc: nat)
    requires pc % 4 == 0
    ensures Low32(pc + 4) % 4 == 0
  {
    var q := pc / 4;
    assert pc + 4 == 4 * (q + 1);
  }

  /** MOVS PC, LR in SVC mode, in terms of the saved status and the link. */
  lemma MovsReturns(u: CpuState)
    requires u.mode == SVC && IsMode(u.spsr[2] % 0x20)
    ensures var v, m := DataProcessing(u, DecodeData(MOVS_PC_LR)), u.spsr[2] % 0x20;
            && v.cpsr == u.spsr[2] && v.mode == m && v.mem == u.mem
            && v.regs[15] == WriteReg(u, 15, u.regs[14]).regs[15]
            && (m == SVC ==> forall j :: 0 <= j < 15 ==> v.regs[j] == u.regs[j])
            && (m != SVC ==>
                  && v.regs[13] == u.banks[BankOf(m)].sp && v.regs[14] == u.banks[BankOf(m)].lr
                  && (forall j :: 0 <= j < 13 && (m != FIQ || j < 8) ==> v.regs[j] == u.regs[j])
                  && (m == FIQ ==> forall j :: 8 <= j < 13 ==> v.regs[j] == FiqCopy(u.banks[BankOf(m)], j)))
  {
    hide DataProcessing, IsMode, WriteReg, RestoreStatus;
    MovsUnfold(u);
    WriteKeepsMode(u, 15, u.regs[14]);
    var cpsr: word :| DataProcessing(u, DecodeData(MOVS_PC_LR)) == RestoreStatus(WriteReg(u, 15, u.regs[14]).(cpsr := cpsr));
    BackTo(WriteReg(u, 15, u.regs[14]).(cpsr := cpsr), u.spsr[2]);
  }

  /** The return from SVC to the mode of a saved status. */
  lemma BackTo(u: CpuState, saved: word)
    requires u.mode == SVC && u.spsr[2] == saved && IsMode(saved % 0x20)
    ensures var v, b := RestoreStatus(u), u.banks[BankOf(saved % 0x20)];
            && v.cpsr == saved && v.mode == saved % 0x20 && v.mem == u.mem && v.regs[15] == u.regs[15]
            && (v.mode == SVC ==> v.regs == u.regs)
            && (v.mode != SVC ==>
                  && v.regs[13] == b.sp && v.regs[14] == b.lr
                  && (forall j :: 0 <= j < 13 && (v.mode != FIQ || j < 8) ==> v.regs[j] == u.regs[j])
                  && (v.mode == FIQ ==> forall j :: 8 <= j < 13 ==> v.regs[j] == FiqCopy(b, j)))
  {
    hide IsMode;
  }

  /** Whatever the handler did in between, so long as it is in SVC, in ARM state, with the saved status
      and the link as entry left them, and the caller's bank if that is another: MOVS PC, LR goes back
      to the caller's CPSR, SP and LR.  It lands on the instruction after the SWI just when the caller
      was not in SVC itself, or its LR happened to lead there. */
  lemma SwiReturns(s: CpuState, u: CpuState)
    requires IsMode(s.mode) && s.mode == s.cpsr % 0x20 && s.regs[15] % 4 == 0
    requires u.mode == SVC && !u.Thumb()
    requires u.spsr[2] == SwiHalt(s).spsr[2] && u.regs[14] == SwiHalt(s).regs[14]
    requires s.mode != SVC ==> u.banks[BankOf(s.mode)] == SwiHalt(s).banks[BankOf(s.mode)]
    ensures var v, link := DataProcessing(u, DecodeData(MOVS_PC_LR)), Low32(s.regs[15] + 4);
            && v.cpsr == s.cpsr && v.mode == s.mode && v.mem == u.mem
            && v.regs[13] == (if s.mode == SVC then u.regs[13] else s.regs[13]) && v.regs[14] == s.regs[14]
            && (v.regs[15] == link <==> s.mode != SVC || link <= Low32(s.regs[14]) <= link + 2)
            && (forall j :: 0 <= j < 13 && (s.mode != FIQ || j < 8) ==> v.regs[j] == u.regs[j])
            && (s.mode == FIQ ==> forall j :: 8 <= j < 13 ==> v.regs[j] == s.regs[j])
  {
    hide DataProcessing, IsMode, WriteReg, SwiHalt, Cpu.Thumb, Low32;
    SwiLinkIff(s);
    SwiSaves(s);
    LinkAligned(s.regs[15]);
    LandsIff(u, u.regs[14], Low32(s.regs[15] + 4));
    LowTwice(s.regs[15] + 4);
    MovsReturns(u);
    if s.mode != SVC {
      SwiEnters(s, 0);
      forall j: nat | 8 <= j < 13
        ensures s.mode == FIQ ==> FiqCopy(SwiHalt(s).banks[1], j) == s.regs[j]
      {
        SwiEnters(s, j);
      }
    }
  }

  lemma LowTwice(x: int)
    ensures Low32(Low32(x)) == Low32(x)
  {
  }

  lemma SwiSaves(s: CpuState)
    ensures var t := SwiHalt(s); t.mode == SVC && t.spsr[2] == s.cpsr && t.mem == s.mem
  {
    hide SaveBank, IsMode;
  }

  /** In particular a handler that does nothing restores r0 to r14 and the status from every mode. */
  lemma SwiRoundTrip(s: CpuState, j: nat)
    requires IsMode(s.mode) && s.mode == s.cpsr % 0x20 && !s.Thumb() && s.regs[15] % 4 == 0
    requires j < 15
    ensures var v, link := DataProcessing(SwiHalt(s), DecodeData(MOVS_PC_LR)), Low32(s.regs[15] + 4);
            && v.cpsr == s.cpsr && v.mode == s.mode && v.mem == s.mem && v.regs[j] == s.regs[j]
            && (v.regs[15] == link <==> s.mode != SVC || link <= Low32(s.regs[14]) <= link + 2)
  {
    hide DataProcessing, IsMode, SwiHalt, BankOf, Low32;
    SwiSaves(s);
    SwiKeepsState(s);
    SwiLinkIff(s);
    if s.mode == SVC {
      SwiFromSvc(s);
    } else {
      SwiEnters(s, if j < 13 then j else 0);
    }
    SwiReturns(s, SwiHalt(s));
  }

  lemma SwiKeepsState(s: CpuState)
    ensures SwiHalt(s).Thumb() == s.Thumb()
  {
    SwiKeepsMask(s);
    hide SwiHalt;
  }

  lemma SwiFromSvc(s: CpuState)
    requires s.mode == SVC
    ensures forall j :: 0 <= j < 15 ==> SwiHalt(s).regs[j] == s.regs[j]
  {
    hide SaveBank, IsMode;
  }

  /** From any state the mode comes back just when it agreed with the CPSR. */
  lemma SwiRestoresModeIff(s: CpuState)
    ensures var v := DataProcessing(SwiHalt(s), DecodeData(MOVS_PC_LR));
            v.cpsr == s.cpsr && v.mode == s.cpsr % 0x20 && (v.mode == s.mode <==> s.mode == s.cpsr % 0x20)
  {
    hide DataProcessing, IsMode, WriteReg, SwiHalt, BankOf, SwitchMode;
    SwiSaves(s);
    var u := SwiHalt(s);
    MovsUnfold(u);
    WriteKeepsMode(u, 15, u.regs[14]);
  }

  /** It does not in the state the constructor sets up: System mode, but a CPSR of zero. */
  lemma ResetModeIsLost(m: MemState)
    ensures var s := ResetState(m);
            s.mode == SYSTEM && DataProcessing(SwiHalt(s), DecodeData(MOVS_PC_LR)).mode == 0
  {
    hide DataProcessing, SwiHalt;
    SwiRestoresModeIff(ResetState(m));
  }
}
