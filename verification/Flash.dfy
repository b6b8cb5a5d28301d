/** The FLASH save chip: a command state machine in front of a byte array. */
module Flash {
  import opened Words
  import opened Wrappers

  const FLASH512_SIZE := 512 * 1024
  const FLASH1M_SIZE := 1024 * 1024
  const SECTORS_PER_BANK := 8

  const CMD_ADDR1 := 0x5555
  const CMD_ADDR2 := 0x2AAA
  const CMD_BANK_ADDR := 0xAAA

  const CMD_UNLOCK1 := 0xAA
  const CMD_UNLOCK2 := 0x55
  const CMD_READ_ID := 0x90
  const CMD_WRITE_BYTE := 0xA0
  const CMD_ERASE_SETUP := 0x80
  const CMD_ERASE_SECTOR := 0x30
  const CMD_ERASE_CHIP := 0x10
  const CMD_BANK_SWITCH := 0xB0
  const CMD_ERASE_CONTINUE := 0xD0

  datatype Command = NoCommand | ReadId | WriteByte | EraseSetup | BankSwitch

  datatype Chip = Chip(data: seq<byte>, is1m: bool, bank: nat, state: int,
                       pending: Command, eraseAddress: Option<nat>)
  {
    function SectorSize(): nat {
      if is1m then 64 * 1024 else 32 * 1024
    }

    function Translate(addr: nat): nat {
      var offset := addr % 0x1_0000;
      if offset >= 0x8000 then offset % 0x8000 + 0x8000 * bank else offset
    }
  }

  datatype Write = Write(addr: nat, value: byte)

  // ----- what one write means -----

  predicate InWindow(addr: nat) {
    0x0A00_0000 <= addr <= 0x0A00_FFFF
  }

  predicate At(w: Write, offset: nat, value: byte) {
    w.addr % 0x1_0000 == offset && w.value == value
  }

  /** The effect a write has on the array. */
  datatype Effect = Nothing | Program(offset: nat, value: byte) | EraseSector(base: nat, size: nat) | EraseChip

  function SectorBase(c: Chip, addr: nat): nat {
    var offset := addr % 0x1_0000;
    (if offset >= 0x8000 then SECTORS_PER_BANK * c.SectorSize() else 0)
    + offset % 0x8000 / c.SectorSize() * c.SectorSize()
  }

  predicate ArmedForErase(c: Chip) {
    c.state == 2 && c.pending == EraseSetup
  }

  function ProgramEffect(c: Chip, addr: nat, value: byte): Effect {
    if c.Translate(addr) < |c.data| then Program(c.Translate(addr), value) else Nothing
  }

  function EffectOf(c: Chip, w: Write): Effect {
    if At(w, CMD_ADDR1, CMD_ERASE_CHIP) && ArmedForErase(c) then EraseChip
    else if (At(w, CMD_ADDR2, CMD_ERASE_SECTOR) || At(w, CMD_ADDR2, CMD_ERASE_CONTINUE)) && ArmedForErase(c) then
      if c.eraseAddress.Some? && SectorBase(c, c.eraseAddress.value) + c.SectorSize() <= |c.data|
      then EraseSector(SectorBase(c, c.eraseAddress.value), c.SectorSize()) else Nothing
    else if Accepted(c, w) then Nothing
    else ProgramEffect(c, w.addr, w.value)
  }

  /** The write is a step of the command protocol: it programs nothing. */
  predicate Accepted(c: Chip, w: Write) {
    || At(w, CMD_ADDR1, CMD_UNLOCK1)
    || (At(w, CMD_ADDR1, CMD_READ_ID) && c.state == 2)
    || (At(w, CMD_ADDR1, CMD_ERASE_SETUP) && c.state == 2)
    || (At(w, CMD_ADDR2, CMD_UNLOCK2) && c.state == 1)
    || (At(w, CMD_ADDR2, CMD_WRITE_BYTE) && c.state == 2)
    || At(w, CMD_BANK_ADDR, CMD_BANK_SWITCH)
    || (Windowed(w) && (c.pending == BankSwitch || c.pending == EraseSetup))
  }

  /** A write into the data window that no command address intercepts. */
  predicate Windowed(w: Write) {
    && InWindow(w.addr)
    && w.addr % 0x1_0000 != CMD_ADDR1 && w.addr % 0x1_0000 != CMD_ADDR2
    && !At(w, CMD_BANK_ADDR, CMD_BANK_SWITCH)
  }

  function Affected(data: seq<byte>, e: Effect): (r: seq<byte>)
    ensures |r| == |data|
  {
    match e
    case Nothing => data
    case Program(offset, value) => if offset < |data| then data[offset := value] else data
    case EraseSector(base, size) =>
      seq(|data|, i requires 0 <= i < |data| => if base <= i < base + size then 0xFF else data[i])
    case EraseChip => seq(|data|, _ => 0xFF)
  }

  lemma AffectedNothing(data: seq<byte>)
    ensures Affected(data, Nothing) == data
  {
  }

  /** The registers after a write. */
  function Registers(c: Chip, w: Write): Chip {
    if At(w, CMD_ADDR1, CMD_UNLOCK1) then c.(state := 1)
    else if At(w, CMD_ADDR2, CMD_UNLOCK2) && c.state == 1 then c.(state := 2)
    else if At(w, CMD_ADDR1, CMD_READ_ID) && c.state == 2 then c.(state := 0, pending := ReadId)
    else if At(w, CMD_ADDR1, CMD_ERASE_SETUP) && c.state == 2 then c.(state := 0, pending := EraseSetup)
    else if At(w, CMD_ADDR2, CMD_WRITE_BYTE) && c.state == 2 then c.(state := 0, pending := WriteByte)
    else if (At(w, CMD_ADDR2, CMD_ERASE_SECTOR) || At(w, CMD_ADDR2, CMD_ERASE_CONTINUE)) && ArmedForErase(c) then
      c.(state := 0, pending := NoCommand, eraseAddress := None)
    else if At(w, CMD_BANK_ADDR, CMD_BANK_SWITCH) then c.(state := 0, pending := BankSwitch)
    else if Windowed(w) && c.pending == BankSwitch then c.(bank := w.value % 2, pending := NoCommand)
    else if Windowed(w) && c.pending == WriteByte then c.(pending := NoCommand)
    else if Windowed(w) && c.pending == EraseSetup then c.(eraseAddress := Some(w.addr % 0x1_0000))
    else c.(state := 0, pending := NoCommand)
  }

  /** No command takes the write: it resets the protocol and programs its byte. */
  predicate FallsThrough(c: Chip, w: Write) {
    Registers(c, w) == c.(state := 0, pending := NoCommand)
    && EffectOf(c, w) == ProgramEffect(c, w.addr, w.value)
  }

  function Step(c: Chip, w: Write): Chip {
    Registers(c, w).(data := Affected(c.data, EffectOf(c, w)))
  }

  function Run(c: Chip, h: seq<Write>): Chip {
    if h == [] then c else Step(Run(c, h[..|h| - 1]), h[|h| - 1])
  }

  // ----- the chip itself -----

  class FlashSave {
    const is1m: bool
    const data: array<byte>
    var currentBank: nat
    var commandState: int
    var pendingCommand: Command
    var eraseAddress: Option<nat>
    var dirty: bool

    constructor (is1m: bool)
      ensures fresh(data)
      ensures State() == Chip(seq(if is1m then FLASH1M_SIZE else FLASH512_SIZE, _ => 0), is1m, 0, 0, NoCommand, None)
      ensures !dirty
    {
      this.is1m := is1m;
      data := new byte[if is1m then FLASH1M_SIZE else FLASH512_SIZE](_ => 0);
      currentBank, commandState, pendingCommand, eraseAddress, dirty := 0, 0, NoCommand, None, false;
    }

    ghost function State(): Chip
      reads this, data
    {
      Chip(data[..], is1m, currentBank, commandState, pendingCommand, eraseAddress)
    }

    function TranslateAddress(addr: nat): (offset: nat)
      reads this
    {
      var offset := addr % 0x1_0000;
      if offset >= 0x8000 then offset % 0x8000 + 0x8000 * currentBank else offset
    }

    /** Stores a byte where the array has room for it. */
    method Put(addr: nat, value: byte)
      modifies data, `dirty
      ensures data[..] == Affected(old(data[..]), ProgramEffect(old(State()), addr, value))
      ensures dirty == (old(dirty) || ProgramEffect(old(State()), addr, value) != Nothing)
    {
      var offset := TranslateAddress(addr);
      if offset < data.Length {
        data[offset] := value;
        dirty := true;
      }
    }

    method EraseAll()
      modifies data, `dirty
      ensures data[..] == Affected(old(data[..]), EraseChip)
      ensures dirty
    {
      for i := 0 to data.Length
        invariant forall k :: 0 <= k < i ==> data[k] == 0xFF
      {
        data[i] := 0xFF;
      }
      dirty := true;
    }

    method EraseOneSector(addr: nat)
      modifies data, `dirty
      ensures var base, size := SectorBase(old(State()), addr), old(State()).SectorSize();
              var e := if base + size <= data.Length then EraseSector(base, size) else Nothing;
              data[..] == Affected(old(data[..]), e) && dirty == (old(dirty) || e != Nothing)
    {
      var offset := addr % 0x1_0000;
      var sectorSize := if is1m then 64 * 1024 else 32 * 1024;
      var bank := 0;
      if offset >= 0x8000 {
        bank := 1;
        offset := offset % 0x8000;
      }
      var sector := offset / sectorSize;
      var base := bank * (SECTORS_PER_BANK * sectorSize) + sector * sectorSize;
      assert base == SectorBase(old(State()), addr);
      hide SectorBase;
      if base + sectorSize <= data.Length {
        for i := 0 to sectorSize
          invariant forall k :: 0 <= k < data.Length ==>
                      data[k] == if base <= k < base + i then 0xFF else old(data[k])
        {
          data[base + i] := 0xFF;
        }
        dirty := true;
      }
    }

    /** The branch of `_write_byte` for the first command address. */
    method CommandAtAddr1(addr: nat, value: byte) returns (done: bool)
      requires addr % 0x1_0000 == CMD_ADDR1
      modifies this, data
      ensures done ==> State() == Step(old(State()), Write(addr, value))
      ensures done ==> dirty == (old(dirty) || EffectOf(old(State()), Write(addr, value)) != Nothing)
      ensures !done ==> unchanged(this) && unchanged(data) && FallsThrough(State(), Write(addr, value))
    {
      AffectedNothing(data[..]);
      hide Affected;
      done := true;
      if value == CMD_UNLOCK1 {
        commandState := 1;
        return;
      } else if value == CMD_READ_ID {
        if commandState == 2 {
          pendingCommand, commandState := ReadId, 0;
          return;
        }
      } else if value == CMD_ERASE_SETUP {
        if commandState == 2 {
          pendingCommand, commandState := EraseSetup, 0;
          return;
        }
      } else if value == CMD_ERASE_CHIP {
        if commandState == 2 && pendingCommand == EraseSetup {
          EraseAll();
          pendingCommand, commandState := NoCommand, 0;
          return;
        }
      }
      done := false;
    }

    /** The branch for the second command address. */
    method CommandAtAddr2(addr: nat, value: byte) returns (done: bool)
      requires addr % 0x1_0000 == CMD_ADDR2
      modifies this, data
      ensures done ==> State() == Step(old(State()), Write(addr, value))
      ensures done ==> dirty == (old(dirty) || EffectOf(old(State()), Write(addr, value)) != Nothing)
      ensures !done ==> unchanged(this) && unchanged(data) && FallsThrough(State(), Write(addr, value))
    {
      AffectedNothing(data[..]);
      hide Affected;
      done := true;
      if value == CMD_UNLOCK2 {
        if commandState == 1 {
          commandState := 2;
          return;
        }
      } else if value == CMD_WRITE_BYTE {
        if commandState == 2 {
          pendingCommand, commandState := Command.WriteByte, 0;
          return;
        }
      } else if value == CMD_ERASE_SECTOR || value == CMD_ERASE_CONTINUE {
        if commandState == 2 && pendingCommand == EraseSetup {
          if eraseAddress.Some? {
            EraseOneSector(eraseAddress.value);
          }
          pendingCommand, eraseAddress, commandState := NoCommand, None, 0;
          return;
        }
      }
      done := false;
    }

    /** `_write_byte` */
    method WriteByte(addr: nat, value: byte)
      modifies this, data
      ensures State() == Step(old(State()), Write(addr, value))
      ensures dirty == (old(dirty) || EffectOf(old(State()), Write(addr, value)) != Nothing)
    {
      AffectedNothing(data[..]);
      hide Affected;
      var offset := addr % 0x1_0000;
      if offset == CMD_ADDR1 {
        var done := CommandAtAddr1(addr, value);
        if done { return; }
      } else if offset == CMD_ADDR2 {
        var done := CommandAtAddr2(addr, value);
        if done { return; }
      } else if offset == CMD_BANK_ADDR && value == CMD_BANK_SWITCH {
        pendingCommand, commandState := BankSwitch, 0;
        return;
      } else if 0x0A00_0000 <= addr <= 0x0A00_FFFF {
        if pendingCommand == BankSwitch {
          currentBank := if value % 2 == 1 then 1 else 0;
          pendingCommand := NoCommand;
          return;
        }
        if pendingCommand == Command.WriteByte {
          Put(addr, value);
          pendingCommand := NoCommand;
          return;
        }
        if pendingCommand == EraseSetup {
          eraseAddress := Some(offset);
          return;
        }
      }
      commandState, pendingCommand := 0, NoCommand;
      Put(addr, value);
    }

    /** `write`: the bytes go to consecutive addresses, one command step each. */
    method WriteAll(addr: nat, bytes: seq<byte>)
      modifies this, data
      ensures State() == Run(old(State()), Writes(addr, bytes))
    {
      hide Writes, Run, Step, FlashSave.State;
      RunNothing(State(), addr, bytes);
      for i := 0 to |bytes|
        invariant State() == Run(old(State()), Writes(addr, bytes)[..i])
      {
        RunOneMore(old(State()), addr, bytes, i);
        WriteByte(addr + i, bytes[i]);
      }
      assert Writes(addr, bytes)[..|bytes|] == Writes(addr, bytes);
    }
  }

  lemma RunNothing(c: Chip, addr: nat, bytes: seq<byte>)
    ensures Run(c, Writes(addr, bytes)[..0]) == c
  {
  }

  lemma RunOneMore(c: Chip, addr: nat, bytes: seq<byte>, i: nat)
    requires i < |bytes|
    ensures var h := Writes(addr, bytes); Run(c, h[..i + 1]) == Step(Run(c, h[..i]), Write(addr + i, bytes[i]))
  {
    hide Step;
    var h := Writes(addr, bytes);
    assert h[..i + 1][..i] == h[..i];
  }

  function Writes(addr: nat, bytes: seq<byte>): (h: seq<Write>)
    ensures |h| == |bytes|
  {
    seq(|bytes|, i requires 0 <= i < |bytes| => Write(addr + i, bytes[i]))
  }
}
