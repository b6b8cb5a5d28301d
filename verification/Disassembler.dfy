/** The linear sweep over a ROM image and the marking of data regions in its output. */
module Disassembler {
  import opened Words
  import opened Wrappers
  import opened Instructions

  // ----- data regions -----

  predicate Unknown(opcode: string) {
    "UNKNOWN" <= opcode || opcode == "UNDEFINED"
  }

  function Min(a: int, b: int): int { if a < b then a else b }
  function Max(a: int, b: int): int { if a < b then b else a }

  function UnknownFlags(instructions: seq<Instruction>): (u: seq<bool>)
    ensures |u| == |instructions|
  {
    seq(|instructions|, i requires 0 <= i < |instructions| => Unknown(instructions[i].opcode))
  }

  function Count(u: seq<bool>, lo: nat, hi: nat): nat
    requires lo <= hi <= |u|
    decreases hi - lo
  {
    if lo == hi then 0 else Count(u, lo, hi - 1) + if u[hi - 1] then 1 else 0
  }

  /** More than half of the window [lo, hi) is unknown. */
  predicate Majority(u: seq<bool>, lo: nat, hi: nat)
    requires lo <= hi <= |u|
  {
    2 * Count(u, lo, hi) > hi - lo
  }

  const WINDOW := 16

  /** A region may start at `i`: a majority in [i, i + 16). */
  predicate Trigger(u: seq<bool>, i: nat)
    requires i < |u|
  {
    Majority(u, i, Min(i + WINDOW, |u|))
  }

  /** A region may go on at `j`: a majority in [j - 8, j + 16). */
  predicate Dense(u: seq<bool>, j: nat)
    requires j < |u|
  {
    Majority(u, Max(j - WINDOW / 2, 0), Min(j + WINDOW, |u|))
  }

  /** Position `k` is reached from a trigger at `s` through dense positions only. */
  predicate DataFrom(u: seq<bool>, s: nat, k: nat)
    requires k < |u|
  {
    s <= k && Trigger(u, s) && forall t :: s <= t <= k ==> Dense(u, t)
  }

  predicate Data(u: seq<bool>, k: nat)
    requires k < |u|
  {
    exists s :: 0 <= s <= k && DataFrom(u, s, k)
  }

  function DataCount(u: seq<bool>, n: nat): nat
    requires n <= |u|
  {
    if n == 0 then 0 else DataCount(u, n - 1) + if Data(u, n - 1) then 1 else 0
  }

  /** The sweep enters the region branch at `k`: a trigger that continues no earlier region. */
  predicate RegionFoundAt(u: seq<bool>, k: nat)
    requires k < |u|
  {
    Trigger(u, k) && !(k > 0 && Data(u, k - 1) && Data(u, k))
  }

  function RegionCount(u: seq<bool>, n: nat): nat
    requires n <= |u|
  {
    if n == 0 then 0 else RegionCount(u, n - 1) + if RegionFoundAt(u, n - 1) then 1 else 0
  }

  lemma ScaleOrder(q: real, h: real, l: real)
    requires l > 0.0
    ensures q > h <==> q * l > h * l
  {
    assert (q - h) * l == q * l - h * l;
  }

  /** `unknown as f64 / len as f64 > 0.5`, over the reals. */
  lemma RatioIsMajority(count: nat, len: nat)
    requires len > 0
    ensures count as real / len as real > 0.5 <==> 2 * count > len
  {
    var l := len as real;
    var q := count as real / l;
    assert q * l == count as real;
    ScaleOrder(q, 0.5, l);
  }

  method MostlyUnknown(instructions: array<Instruction>, lo: nat, hi: nat) returns (b: bool)
    requires lo < hi <= instructions.Length
    ensures b == Majority(UnknownFlags(instructions[..]), lo, hi)
  {
    ghost var u := UnknownFlags(instructions[..]);
    var count := 0;
    for i := lo to hi
      invariant count == Count(u, lo, i)
    {
      if Unknown(instructions[i].opcode) {
        count := count + 1;
      }
    }
    RatioIsMajority(count, hi - lo);
    b := count as real / (hi - lo) as real > 0.5;
  }

  datatype Stats = Stats(unknownRegionsFound: nat, dataInstructionsMarked: nat)

  /** Only flags of instructions before `i` have changed, and those exactly in the data regions. */
  ghost predicate MarkedUpTo(before: seq<Instruction>, now: seq<Instruction>, i: nat) {
    && |now| == |before|
    && forall k :: 0 <= k < |before| ==>
         now[k] == before[k].(isData := before[k].isData || (k < i && Data(UnknownFlags(before), k)))
  }

  /** No region that began before `i` runs through `i`. */
  ghost predicate NothingRunsInto(u: seq<bool>, i: nat) {
    i < |u| ==> forall s: nat :: s < i ==> !DataFrom(u, s, i)
  }

  /** A run extends by one position just when that position is dense. */
  lemma OneMore(u: seq<bool>, s: nat, k: nat)
    requires s <= k && k + 1 < |u|
    ensures DataFrom(u, s, k + 1) <==> DataFrom(u, s, k) && Dense(u, k + 1)
  {
  }

  lemma RegionFollows(u: seq<bool>, i: nat, j: nat)
    requires i < |u| && i <= j <= |u| && Trigger(u, i)
    requires forall t :: i <= t < j ==> Dense(u, t)
    requires j == |u| || !Dense(u, j)
    requires NothingRunsInto(u, i)
    ensures forall k :: i <= k < j ==> Data(u, k)
    ensures i == j ==> !Data(u, i)
    ensures NothingRunsInto(u, Max(j, i + 1))
    ensures DataCount(u, Max(j, i + 1)) == DataCount(u, i) + (j - i)
    ensures RegionCount(u, Max(j, i + 1)) == RegionCount(u, i) + 1
  {
    hide Trigger, Dense;
    forall k | i <= k < j ensures Data(u, k) {
      assert DataFrom(u, i, k);
    }
    if i < j && i > 0 {
      var p := i - 1;
      forall s | 0 <= s <= p ensures !DataFrom(u, s, p) {
        OneMore(u, s, p);
      }
    }
    assert RegionFoundAt(u, i);
    RegionCounts(u, i, Max(j, i + 1), j);
  }

  lemma {:induction false} RegionCounts(u: seq<bool>, i: nat, m: nat, j: nat)
    requires i < m <= |u| && i <= j <= |u| && Trigger(u, i)
    requires forall t :: i <= t < j ==> Data(u, t)
    requires i == j ==> !Data(u, i)
    requires RegionFoundAt(u, i)
    requires m <= Max(j, i + 1)
    ensures DataCount(u, m) == DataCount(u, i) + if i == j then 0 else m - i
    ensures RegionCount(u, m) == RegionCount(u, i) + 1
    decreases m
  {
    hide Trigger, Dense, Data;
    if m > i + 1 {
      RegionCounts(u, i, m - 1, j);
    }
  }

  lemma NoRegionAt(u: seq<bool>, i: nat)
    requires i < |u| && !Trigger(u, i) && NothingRunsInto(u, i)
    ensures !Data(u, i) && NothingRunsInto(u, i + 1)
    ensures DataCount(u, i + 1) == DataCount(u, i) && RegionCount(u, i + 1) == RegionCount(u, i)
  {
    var m := i + 1;
    if m < |u| {
      forall s: nat | s < m ensures !DataFrom(u, s, m) {
        OneMore(u, s, i);
      }
    }
  }

  method MarkDataRegions(instructions: array<Instruction>) returns (stats: Stats)
    modifies instructions
    ensures MarkedUpTo(old(instructions[..]), instructions[..], instructions.Length)
    ensures var u := UnknownFlags(old(instructions[..]));
            stats == Stats(RegionCount(u, |u|), DataCount(u, |u|))
  {
    hide Trigger, Dense, Data, NothingRunsInto, MarkedUpTo;
    ghost var before := instructions[..];
    ghost var u := UnknownFlags(before);
    var regions, marked := 0, 0;
    var n := instructions.Length;
    var i := 0;
    NothingRunsIntoStart(u);
    MarkedNothing(before);
    while i < n
      invariant 0 <= i <= n
      invariant MarkedUpTo(before, instructions[..], i)
      invariant marked == DataCount(u, i) && regions == RegionCount(u, i)
      invariant NothingRunsInto(u, i)
    {
      FlagsUnchanged(before, instructions[..], i);
      var trigger := IsTrigger(instructions, i);
      if trigger {
        regions := regions + 1;
        var j := i;
        ghost var now := instructions[..];
        while j < n
          invariant i <= j <= n && instructions[..] == now
          invariant forall t :: i <= t < j ==> Dense(u, t)
        {
          var dense := IsDense(instructions, j);
          if !dense {
            break;
          }
          j := j + 1;
        }
        RegionFollows(u, i, j);
        for k := i to j
          invariant MarkedUpTo(before, instructions[..], k)
          invariant marked == DataCount(u, i) + (k - i)
        {
          MarkedOne(before, instructions[..], k);
          instructions[k] := instructions[k].(isData := true);
          marked := marked + 1;
        }
        if i == j {
          MarkedNone(before, instructions[..], i);
        }
        i := Max(j, i + 1);
      } else {
        NoRegionAt(u, i);
        MarkedNone(before, instructions[..], i);
        i := i + 1;
      }
    }
    stats := Stats(regions, marked);
  }

  lemma MarkedNothing(before: seq<Instruction>)
    ensures MarkedUpTo(before, before, 0)
  {
    hide Data, UnknownFlags;
  }

  lemma MarkedOne(before: seq<Instruction>, now: seq<Instruction>, k: nat)
    requires MarkedUpTo(before, now, k) && k < |now| && Data(UnknownFlags(before), k)
    ensures MarkedUpTo(before, now[k := now[k].(isData := true)], k + 1)
  {
    hide Data, UnknownFlags;
  }

  lemma MarkedNone(before: seq<Instruction>, now: seq<Instruction>, k: nat)
    requires MarkedUpTo(before, now, k) && k < |now| && !Data(UnknownFlags(before), k)
    ensures MarkedUpTo(before, now, k + 1)
  {
    hide Data, UnknownFlags;
  }

  lemma NothingRunsIntoStart(u: seq<bool>)
    ensures NothingRunsInto(u, 0)
  {
  }

  lemma FlagsUnchanged(before: seq<Instruction>, now: seq<Instruction>, i: nat)
    requires MarkedUpTo(before, now, i)
    ensures UnknownFlags(now) == UnknownFlags(before)
  {
  }

  method IsTrigger(instructions: array<Instruction>, i: nat) returns (b: bool)
    requires i < instructions.Length
    ensures b == Trigger(UnknownFlags(instructions[..]), i)
  {
    b := MostlyUnknown(instructions, i, Min(i + WINDOW, instructions.Length));
  }

  method IsDense(instructions: array<Instruction>, j: nat) returns (b: bool)
    requires j < instructions.Length
    ensures b == Dense(UnknownFlags(instructions[..]), j)
  {
    b := MostlyUnknown(instructions, Max(j - WINDOW / 2, 0), Min(j + WINDOW, instructions.Length));
  }

  /** Every marked instruction has an unknown majority around it. */
  lemma MarkedIsDense(u: seq<bool>, k: nat)
    requires k < |u| && Data(u, k)
    ensures 2 * Count(u, Max(k - 8, 0), Min(k + 16, |u|)) > Min(k + 16, |u|) - Max(k - 8, 0)
  {
    var s :| 0 <= s <= k && DataFrom(u, s, k);
    assert Dense(u, k);
  }

  // ----- the linear sweep -----

  const ROM_BASE := 0x0800_0000

  function Half(rom: seq<byte>, offset: nat): half
    requires offset + 2 <= |rom|
  {
    Pack2(rom[offset], rom[offset + 1])
  }

  function Word(rom: seq<byte>, offset: nat): word
    requires offset + 4 <= |rom|
  {
    Pack4(rom[offset], rom[offset + 1], rom[offset + 2], rom[offset + 3])
  }

  /** The instructions lie end to end from `start` to `end`. */
  predicate Tiles(instructions: seq<Instruction>, start: nat, end: nat) {
    if instructions == [] then start == end
    else
      var last := instructions[|instructions| - 1];
      last.width > 0 && last.address + last.width == end
      && Tiles(instructions[..|instructions| - 1], start, last.address)
  }

  /** What an instruction of the sweep records about the bytes it was decoded from. */
  predicate ReadFrom(rom: seq<byte>, inst: Instruction) {
    && inst.address >= ROM_BASE && inst.address - ROM_BASE + inst.width <= |rom|
    && !inst.isData
    && match inst.mode
       case Arm => inst.width == 4 && inst.raw == Word(rom, inst.address - ROM_BASE)
       case Thumb =>
         && (inst.width == 2 || inst.width == 4)
         && inst.raw == Half(rom, inst.address - ROM_BASE)
         // a wide Thumb instruction is a BL pair: its first half is a prefix
         && (inst.width == 4 ==> inst.raw / 0x800 == 0x1E)
  }

  /** The first instruction in Thumb mode ends ARM decoding for good. */
  predicate ThumbIsForGood(instructions: seq<Instruction>) {
    forall i, j :: 0 <= i < j < |instructions| && instructions[i].mode == Thumb ==> instructions[j].mode == Thumb
  }

  /** The sweep has reached `end`, in mode `mode`. */
  predicate Swept(rom: seq<byte>, instructions: seq<Instruction>, end: nat, mode: ArmMode) {
    && Tiles(instructions, ROM_BASE, end)
    && (forall k :: 0 <= k < |instructions| ==> ReadFrom(rom, instructions[k]))
    && ThumbIsForGood(instructions)
    && (mode == Arm ==> forall k :: 0 <= k < |instructions| ==> instructions[k].mode == Arm)
  }

  lemma SweptNothing(rom: seq<byte>, mode: ArmMode)
    ensures Swept(rom, [], ROM_BASE, mode)
  {
  }

  lemma SweptMeans(rom: seq<byte>, instructions: seq<Instruction>, end: nat, mode: ArmMode)
    requires Swept(rom, instructions, end, mode)
    ensures Tiles(instructions, ROM_BASE, end) && ThumbIsForGood(instructions)
    ensures forall k :: 0 <= k < |instructions| ==> ReadFrom(rom, instructions[k])
  {
    hide Tiles, ThumbIsForGood, ReadFrom;
  }

  lemma SweepOne(rom: seq<byte>, instructions: seq<Instruction>, inst: Instruction, mode: ArmMode)
    requires Swept(rom, instructions, inst.address, inst.mode) && ReadFrom(rom, inst)
    requires mode == inst.mode || inst.mode == Arm
    ensures Swept(rom, instructions + [inst], inst.address + inst.width, mode)
  {
    assert (instructions + [inst])[..|instructions|] == instructions;
  }

  /** The decoders are not modelled: any functions of the fetched bits and the address will do. */
  class Disassembler {
    const armDecode: (word, nat) -> Decoded
    const thumbDecode: (half, nat) -> Decoded
    const blPairDecode: (half, half, nat) -> Option<Decoded>
    var currentMode: ArmMode
    var modeSwitches: seq<(nat, ArmMode)>

    constructor (armDecode: (word, nat) -> Decoded, thumbDecode: (half, nat) -> Decoded,
                 blPairDecode: (half, half, nat) -> Option<Decoded>)
      ensures currentMode == Arm && modeSwitches == []
    {
      this.armDecode, this.thumbDecode, this.blPairDecode := armDecode, thumbDecode, blPairDecode;
      currentMode, modeSwitches := Arm, [];
    }

    method SwitchTo(address: nat, newMode: ArmMode)
      modifies this
      ensures currentMode == newMode
      ensures modeSwitches == old(modeSwitches) + if newMode == old(currentMode) then [] else [(address, newMode)]
    {
      if newMode != currentMode {
        modeSwitches := modeSwitches + [(address, newMode)];
        currentMode := newMode;
      }
    }

    /** What the decoders give at an offset of the image: a pair wherever there is one. */
    function ThumbAt(rom: seq<byte>, offset: nat, address: nat): (Decoded, nat)
      requires offset + 2 <= |rom|
    {
      var halfword := Half(rom, offset);
      var pair := if halfword / 0x800 == 0x1E && offset + 4 <= |rom|
                  then blPairDecode(halfword, Half(rom, offset + 2), address) else None;
      if pair.Some? then (pair.value, 4) else (thumbDecode(halfword, address), 2)
    }

    /** An instruction says what its decoder said. */
    predicate Says(rom: seq<byte>, inst: Instruction)
      requires ReadFrom(rom, inst)
    {
      var d := Decoded(inst.opcode, inst.operands, inst.setsFlags);
      match inst.mode
      case Arm => d == armDecode(inst.raw, inst.address)
      case Thumb => ThumbAt(rom, inst.address - ROM_BASE, inst.address) == (d, inst.width)
    }

    /** The Thumb branch of the sweep: one halfword, or a BL pair. */
    method DecodeThumb(rom: seq<byte>, offset: nat, address: nat) returns (d: Decoded, width: nat)
      requires offset + 2 <= |rom|
      ensures width == 2 || (width == 4 && offset + 4 <= |rom| && Half(rom, offset) / 0x800 == 0x1E)
      ensures ThumbAt(rom, offset, address) == (d, width)
    {
      var halfword := Half(rom, offset);
      if halfword / 0x800 == 0x1E {
        if offset + 4 <= |rom| {
          var pair := blPairDecode(halfword, Half(rom, offset + 2), address);
          if pair.Some? {
            return pair.value, 4;
          }
        }
      }
      return thumbDecode(halfword, address), 2;
    }

    /** Does a BX or BLX met in ARM mode lead into Thumb code? */
    function EntersThumb(d: Decoded, address: nat, previous: seq<Instruction>): bool {
      if d.operands == [] || !d.operands[0].Register? then false
      else if d.operands[0].r % 2 == 1 then true
      else if previous == [] then false
      else
        var prev := previous[|previous| - 1];
        && prev.opcode == "ADD" && prev.mode == Arm
        && prev.operands != [] && prev.operands[0] == d.operands[0]
        && exists i :: 0 <= i < |prev.operands| && prev.operands[i].Immediate?
                       && (address + 8 + prev.operands[i].value) % 2 == 1
    }

    method Disassemble(rom: seq<byte>) returns (instructions: seq<Instruction>)
      requires ROM_BASE + |rom| < TWO_32
      modifies this
      ensures exists end: nat :: Tiles(instructions, ROM_BASE, end) && end <= ROM_BASE + |rom| < end + 4
      ensures forall k :: 0 <= k < |instructions| ==> ReadFrom(rom, instructions[k]) && Says(rom, instructions[k])
      ensures ThumbIsForGood(instructions)
    {
      hide Tiles, ThumbIsForGood, Swept, Word, Half, Disassembler.EntersThumb, Disassembler.ThumbAt;
      instructions := [];
      var address := ROM_BASE;
      SweptNothing(rom, currentMode);
      while address < ROM_BASE + (|rom| - address % 4)
        invariant ROM_BASE <= address <= ROM_BASE + |rom| && address % 2 == 0
        invariant Swept(rom, instructions, address, currentMode)
        invariant forall k :: 0 <= k < |instructions| ==> ReadFrom(rom, instructions[k]) && Says(rom, instructions[k])
        decreases ROM_BASE + |rom| - address
      {
        var mode := currentMode;
        var offset := address - ROM_BASE;
        var d: Decoded;
        var width: nat;
        var raw: nat;
        if mode == Arm {
          if offset + 4 > |rom| {
            break;
          }
          var w := Word(rom, offset);
          d, width, raw := armDecode(w, address), 4, w;
        } else {
          if offset + 2 > |rom| {
            break;
          }
          d, width := DecodeThumb(rom, offset, address);
          raw := Half(rom, offset);
        }
        if (d.opcode == "BX" || d.opcode == "BLX") && mode == Arm {
          SwitchTo(address, if EntersThumb(d, address, instructions) then Thumb else Arm);
        }
        var inst := Instruction(address, d.opcode, d.operands, mode, raw, d.setsFlags, width, false);
        SweepOne(rom, instructions, inst, currentMode);
        instructions := instructions + [inst];
        address := address + width;
      }
      SweptMeans(rom, instructions, address, currentMode);
    }

    // ----- selected addresses only -----

    /** The instruction at one entry of the mode map, unless it runs off the image.  The offset wraps,
        so an address below the base is off the image too; the instruction keeps the address as given. */
    function Selected(rom: seq<byte>, address: word, mode: ArmMode): Option<Instruction> {
      var at: word := if mode.Thumb? then address - address % 2 else address;
      var offset := Low32(at - ROM_BASE);
      if offset + (if mode.Arm? then 4 else 2) > |rom| then None
      else if mode.Arm? then
        var raw := Word(rom, offset);
        var d := armDecode(raw, at);
        Some(Instruction(address, d.opcode, d.operands, Arm, raw, d.setsFlags, 4, false))
      else
        var (d, width) := ThumbAt(rom, offset, at);
        Some(Instruction(address, d.opcode, d.operands, Thumb, Half(rom, offset), d.setsFlags, width, false))
    }

    /** The instructions of all entries, in order. */
    function SelectAll(rom: seq<byte>, modeMap: seq<(word, ArmMode)>): seq<Instruction> {
      if modeMap == [] then []
      else
        var n := |modeMap| - 1;
        var last := Selected(rom, modeMap[n].0, modeMap[n].1);
        SelectAll(rom, modeMap[..n]) + if last.Some? then [last.value] else []
    }

    /** `selective_disassemble` */
    method SelectiveDisassemble(rom: seq<byte>, modeMap: seq<(word, ArmMode)>) returns (instructions: seq<Instruction>)
      ensures instructions == SelectAll(rom, modeMap)
    {
      hide Word, Half, Disassembler.ThumbAt;
      instructions := [];
      for k := 0 to |modeMap|
        invariant instructions == SelectAll(rom, modeMap[..k])
      {
        assert modeMap[..k + 1][..k] == modeMap[..k];
        var (address, mode) := modeMap[k];
        var at := if mode == Thumb then address - address % 2 else address;
        var offset := Low32(at - ROM_BASE);
        if offset >= |rom| {
          continue;
        }
        match mode
        case Arm =>
          if offset + 4 > |rom| {
            continue;
          }
          var word := Word(rom, offset);
          var d := armDecode(word, at);
          instructions := instructions + [Instruction(address, d.opcode, d.operands, Arm, word, d.setsFlags, 4, false)];
        case Thumb =>
          if offset + 2 > |rom| {
            continue;
          }
          var d, width := DecodeThumb(rom, offset, at);
          instructions := instructions
                          + [Instruction(address, d.opcode, d.operands, Thumb, Half(rom, offset), d.setsFlags, width, false)];
      }
      assert modeMap[..|modeMap|] == modeMap;
    }

    /** Every instruction comes from an entry. */
    lemma {:induction false} SelectedFrom(rom: seq<byte>, modeMap: seq<(word, ArmMode)>, inst: Instruction)
      requires inst in SelectAll(rom, modeMap)
      ensures exists address, mode :: (address, mode) in modeMap && Selected(rom, address, mode) == Some(inst)
      decreases |modeMap|
    {
      hide Disassembler.Selected;
      var n := |modeMap| - 1;
      var (address, mode) := modeMap[n];
      if Selected(rom, address, mode) == Some(inst) {
        assert (address, mode) in modeMap;
      } else {
        SelectedFrom(rom, modeMap[..n], inst);
      }
    }
  }

  // ----- what tiling means -----

  predicate Covers(inst: Instruction, a: nat) {
    inst.address <= a < inst.address + inst.width
  }

  /** No gaps: every address between the ends lies in some instruction. */
  lemma {:induction false} TilesCover(instructions: seq<Instruction>, start: nat, end: nat, a: nat)
    requires Tiles(instructions, start, end)
    ensures start <= end
    ensures start <= a < end <==> exists k :: 0 <= k < |instructions| && Covers(instructions[k], a)
    decreases |instructions|
  {
    if instructions != [] {
      var n := |instructions| - 1;
      TilesCover(instructions[..n], start, instructions[n].address, a);
      if start <= a < instructions[n].address {
        var k :| 0 <= k < n && Covers(instructions[..n][k], a);
        assert Covers(instructions[k], a);
      } else if start <= a < end {
        assert Covers(instructions[n], a);
      }
      forall k | 0 <= k < |instructions| && Covers(instructions[k], a) ensures start <= a < end {
        if k < n {
          assert Covers(instructions[..n][k], a);
        }
      }
    }
  }

  /** No overlaps: and in only one. */
  lemma {:induction false} TilesOnce(instructions: seq<Instruction>, start: nat, end: nat, a: nat, j: nat, k: nat)
    requires Tiles(instructions, start, end)
    requires j < |instructions| && k < |instructions| && Covers(instructions[j], a) && Covers(instructions[k], a)
    ensures j == k
    decreases |instructions|
  {
    var n := |instructions| - 1;
    TilesCover(instructions[..n], start, instructions[n].address, a);
    if j < n {
      assert Covers(instructions[..n][j], a);
    }
    if k < n {
      assert Covers(instructions[..n][k], a);
    }
    if j < n && k < n {
      TilesOnce(instructions[..n], start, instructions[n].address, a, j, k);
    }
  }
}
