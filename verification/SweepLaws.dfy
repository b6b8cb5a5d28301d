/** What the marking of data regions and the sweep depend on, in plain counts and bytes. */
module SweepLaws {
  import opened Words
  import opened Instructions
  import opened Disassembler

  lemma UnknownMeans(opcode: string)
    ensures Unknown(opcode) <==> opcode == "UNDEFINED" || (|opcode| >= 7 && opcode[..7] == "UNKNOWN")
  {
  }

  // ----- windows -----

  /** The unknown positions from `lo` to `hi`. */
  function UnknownIn(u: seq<bool>, lo: nat, hi: nat): set<nat> {
    set k: nat | lo <= k < hi && k < |u| && u[k]
  }

  lemma {:induction false} CountIsSize(u: seq<bool>, lo: nat, hi: nat)
    requires lo <= hi <= |u|
    ensures Count(u, lo, hi) == |UnknownIn(u, lo, hi)|
    decreases hi - lo
  {
    if lo == hi {
      assert UnknownIn(u, lo, hi) == {};
    } else {
      CountIsSize(u, lo, hi - 1);
      assert UnknownIn(u, lo, hi) == UnknownIn(u, lo, hi - 1) + if u[hi - 1] then {hi - 1} else {};
    }
  }

  /** A region may start where more than half of the next sixteen instructions, or of what is left, are
      unknown. */
  lemma TriggerMeans(u: seq<bool>, i: nat)
    requires i < |u|
    ensures var hi := if i + 16 < |u| then i + 16 else |u|;
            Trigger(u, i) <==> 2 * |UnknownIn(u, i, hi)| > hi - i
  {
    CountIsSize(u, i, if i + 16 < |u| then i + 16 else |u|);
    hide UnknownIn, Count;
  }

  /** And it goes on where more than half from eight before to sixteen on are. */
  lemma DenseMeans(u: seq<bool>, j: nat)
    requires j < |u|
    ensures var lo, hi := if j < 8 then 0 else j - 8, if j + 16 < |u| then j + 16 else |u|;
            Dense(u, j) <==> 2 * |UnknownIn(u, lo, hi)| > hi - lo
  {
    CountIsSize(u, if j < 8 then 0 else j - 8, if j + 16 < |u| then j + 16 else |u|);
    hide UnknownIn, Count;
  }

  // ----- the sweep -----

  /** What is recorded of an instruction's bytes is little-endian. */
  lemma RawBytes(rom: seq<byte>, inst: Instruction)
    requires ReadFrom(rom, inst)
    ensures var i := inst.address - 0x0800_0000;
            && 0 <= i && i + inst.width <= |rom| && inst.width >= 2
            && inst.raw % 0x100 == rom[i] && inst.raw / 0x100 % 0x100 == rom[i + 1]
            && (inst.mode == Arm ==> inst.raw / 0x1_0000 % 0x100 == rom[i + 2] && inst.raw / 0x100_0000 == rom[i + 3])
  {
    var i := inst.address - 0x0800_0000;
    match inst.mode
    case Arm => WordBytes(rom[i], rom[i + 1], rom[i + 2], rom[i + 3]);
    case Thumb => HalfBytes(rom[i], rom[i + 1]);
    hide Pack2, Pack4;
  }

  lemma WordBytes(b0: byte, b1: byte, b2: byte, b3: byte)
    ensures var w := Pack4(b0, b1, b2, b3);
            w % 0x100 == b0 && w / 0x100 % 0x100 == b1 && w / 0x1_0000 % 0x100 == b2 && w / 0x100_0000 == b3
  {
    var w := Pack4(b0, b1, b2, b3);
    assert w / 0x100 == b1 + 0x100 * b2 + 0x1_0000 * b3;
    assert w / 0x1_0000 == b2 + 0x100 * b3;
  }

  lemma HalfBytes(b0: byte, b1: byte)
    ensures var h := Pack2(b0, b1); h % 0x100 == b0 && h / 0x100 % 0x100 == b1
  {
  }

  /** A BX through a register leads into Thumb code if the register's number is odd, or, right after an ADD in
      ARM mode into the same register, if an immediate of the ADD makes an odd sum with the address two
      instructions on. */
  lemma EntersThumbMeans(dis: Disassembler, d: Decoded, address: nat, previous: seq<Instruction>)
    ensures dis.EntersThumb(d, address, previous)
            <==> exists r: nat ::
                   && d.operands != [] && d.operands[0] == Register(r)
                   && (r % 2 == 1
                       || (previous != []
                           && (var prev := previous[|previous| - 1];
                               && prev.opcode == "ADD" && prev.mode == Arm && prev.operands != []
                               && prev.operands[0] == Register(r)
                               && exists i, v :: 0 <= i < |prev.operands| && prev.operands[i] == Immediate(v)
                                                 && (address + 8 + v) % 2 == 1)))
  {
    if d.operands != [] && d.operands[0].Register? {
      assert d.operands[0] == Register(d.operands[0].r);
    }
  }
}
