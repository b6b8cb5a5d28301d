/** What a history of writes can do to a FLASH chip. */
module FlashLaws {
  import opened Words
  import opened Flash

  /** A chip that has seen no command. */
  predicate Idle(c: Chip) {
    c.state == 0 && c.pending == NoCommand
  }

  // ----- the erase sequence, read off a history -----

  predicate IsUnlock1(w: Write) { At(w, 0x5555, 0xAA) }
  predicate IsUnlock2(w: Write) { At(w, 0x2AAA, 0x55) }
  predicate IsSetup(w: Write) { At(w, 0x5555, 0x80) }

  /** A write to the data window, 0x0A000000 to 0x0A00FFFF, at no command address. */
  predicate InData(w: Write) {
    && 0x0A00_0000 <= w.addr <= 0x0A00_FFFF && w.addr % 0x1_0000 != 0x5555 && w.addr % 0x1_0000 != 0x2AAA
    && !(w.addr % 0x1_0000 == 0xAAA && w.value == 0xB0)
  }

  /** Writes that can leave an armed erase armed: data-window writes and the two unlocks. */
  predicate NonResetting(w: Write) {
    InData(w) || IsUnlock1(w) || IsUnlock2(w)
  }

  predicate WindowedBetween(h: seq<Write>, i: int, j: int)
    requires j <= |h|
  {
    forall k :: 0 <= i < k < j ==> InData(h[k])
  }

  /** AA@5555 at `i`, only data-window writes since. */
  predicate HalfUnlocked(h: seq<Write>, i: int) {
    0 <= i < |h| && IsUnlock1(h[i]) && WindowedBetween(h, i, |h|)
  }

  /** AA@5555 at `i`, 55@2AAA at `j`, only data-window writes between and since. */
  predicate Unlocked(h: seq<Write>, i: int, j: int) {
    0 <= i < j < |h| && IsUnlock1(h[i]) && IsUnlock2(h[j]) && WindowedBetween(h, i, j) && WindowedBetween(h, j, |h|)
  }

  /** An unlocked 80@5555 at `k`, only non-resetting writes since. */
  predicate EraseArmed(h: seq<Write>, i: int, j: int, k: int) {
    && 0 <= i < j < k < |h|
    && Unlocked(h[..k], i, j)
    && IsSetup(h[k])
    && forall l :: k < l < |h| ==> NonResetting(h[l])
  }

  /** What the registers remember of the history. */
  datatype Marks = Marks(i: int, j: int, ei: int, ej: int, ek: int)

  predicate Explains(c: Chip, h: seq<Write>, m: Marks) {
    && 0 <= c.state <= 2
    && (c.state == 1 ==> HalfUnlocked(h, m.i))
    && (c.state == 2 ==> Unlocked(h, m.i, m.j))
    && (c.pending == EraseSetup ==> EraseArmed(h, m.ei, m.ej, m.ek) && (c.state != 0 ==> m.ek < m.i))
  }

  lemma ExplainStep(c: Chip, h: seq<Write>, w: Write, m: Marks) returns (m': Marks)
    requires Explains(c, h, m)
    ensures Explains(Step(c, w), h + [w], m')
  {
    hide Affected, EffectOf;
    var h' := h + [w];
    m' := m;
    assert forall k :: 0 <= k <= |h| ==> h'[..k] == h[..k];
    if IsUnlock1(w) {
      m' := m'.(i := |h|);
    } else if IsUnlock2(w) && c.state == 1 {
      m' := m'.(j := |h|);
    } else if IsSetup(w) && c.state == 2 {
      m' := m'.(ei := m.i, ej := m.j, ek := |h|);
      assert h'[..|h|] == h;
    }
  }

  lemma {:induction false} HistoryExplains(c: Chip, h: seq<Write>) returns (m: Marks)
    requires Idle(c)
    ensures Explains(Run(c, h), h, m)
  {
    if h == [] {
      m := Marks(0, 0, 0, 0, 0);
    } else {
      var n := |h| - 1;
      var m0 := HistoryExplains(c, h[..n]);
      m := ExplainStep(Run(c, h[..n]), h[..n], h[n], m0);
      assert h[..n] + [h[n]] == h;
    }
  }

  /** A chip erase happens only at the end of the six-write sequence. */
  lemma ChipEraseNeedsSequence(c: Chip, h: seq<Write>, w: Write)
    requires Idle(c)
    requires EffectOf(Run(c, h), w) == EraseChip
    ensures At(w, 0x5555, 0x10)
    ensures exists i, j, k, l, m ::
              EraseArmed(h, i, j, k) && Unlocked(h, l, m) && k < l
  {
    var e := HistoryExplains(c, h);
    assert EraseArmed(h, e.ei, e.ej, e.ek) && Unlocked(h, e.i, e.j) && e.ek < e.i;
  }

  /** A sector erase needs the same arming, ended by 30@2AAA or D0@2AAA. */
  lemma SectorEraseNeedsSequence(c: Chip, h: seq<Write>, w: Write)
    requires Idle(c)
    requires EffectOf(Run(c, h), w).EraseSector?
    ensures At(w, 0x2AAA, 0x30) || At(w, 0x2AAA, 0xD0)
    ensures exists i, j, k, l, m ::
              EraseArmed(h, i, j, k) && Unlocked(h, l, m) && k < l
  {
    var e := HistoryExplains(c, h);
    assert EraseArmed(h, e.ei, e.ej, e.ek) && Unlocked(h, e.i, e.j) && e.ek < e.i;
  }

  /** The six writes at the command addresses, whatever the address bits above them. */
  predicate IsEraseSequence(h: seq<Write>) {
    && |h| == 6
    && IsUnlock1(h[0]) && IsUnlock2(h[1]) && IsSetup(h[2])
    && IsUnlock1(h[3]) && IsUnlock2(h[4]) && At(h[5], 0x5555, 0x10)
  }

  /** From any state the six writes erase the whole chip and leave it idle. */
  lemma SequenceErases(c: Chip, h: seq<Write>)
    requires IsEraseSequence(h)
    ensures |Run(c, h).data| == |c.data|
    ensures forall o :: 0 <= o < |c.data| ==> Run(c, h).data[o] == 0xFF
    ensures Idle(Run(c, h))
  {
    hide Affected;
    var c1 := Step(c, h[0]);
    var c2 := Step(c1, h[1]);
    var c3 := Step(c2, h[2]);
    var c4 := Step(c3, h[3]);
    var c5 := Step(c4, h[4]);
    assert c5.state == 2 && c5.pending == EraseSetup;
    assert |Affected(c5.data, EraseChip)| == |c.data|;
    RunSix(c, h);
    EraseFills(c5.data);
  }

  lemma EraseFills(data: seq<byte>)
    ensures forall o :: 0 <= o < |data| ==> Affected(data, EraseChip)[o] == 0xFF
  {
  }

  lemma RunSix(c: Chip, h: seq<Write>)
    requires |h| == 6
    ensures Run(c, h) == Step(Step(Step(Step(Step(Step(c, h[0]), h[1]), h[2]), h[3]), h[4]), h[5])
  {
    hide Step;
    assert h[..5][..4] == h[..4] && h[..4][..3] == h[..3] && h[..3][..2] == h[..2] && h[..2][..1] == h[..1];
    assert Run(c, h[..1]) == Step(c, h[0]) by { assert h[..1][..0] == []; }
    assert Run(c, h[..2]) == Step(Run(c, h[..1]), h[1]);
    assert Run(c, h[..3]) == Step(Run(c, h[..2]), h[2]);
    assert Run(c, h[..4]) == Step(Run(c, h[..3]), h[3]);
    assert Run(c, h[..5]) == Step(Run(c, h[..4]), h[4]);
  }

  /** A write that erases nothing changes one byte at most, and then to the value written. */
  lemma AtMostOneByte(c: Chip, w: Write)
    requires !EffectOf(c, w).EraseChip? && !EffectOf(c, w).EraseSector?
    ensures |Step(c, w).data| == |c.data|
    ensures forall o, p | 0 <= o < |c.data| && 0 <= p < |c.data| ::
              Step(c, w).data[o] != c.data[o] && Step(c, w).data[p] != c.data[p] ==> o == p
    ensures forall o :: 0 <= o < |c.data| && Step(c, w).data[o] != c.data[o] ==> Step(c, w).data[o] == w.value
  {
  }

  lemma {:induction false} LengthNeverChanges(c: Chip, h: seq<Write>)
    ensures |Run(c, h).data| == |c.data|
  {
    if h != [] {
      LengthNeverChanges(c, h[..|h| - 1]);
    }
  }

  /** The three-write program command stores its byte, and nothing else, at the translated address. */
  lemma ProgramCommandWrites(c: Chip, h: seq<Write>)
    requires |h| == 4
    requires IsUnlock1(h[0]) && IsUnlock2(h[1]) && At(h[2], 0x2AAA, 0xA0) && InData(h[3])
    requires c.Translate(h[3].addr) < |c.data|
    ensures Run(c, h) == c.(data := c.data[c.Translate(h[3].addr) := h[3].value], state := 0, pending := NoCommand)
  {
    assert h[..3][..2] == h[..2] && h[..2][..1] == h[..1] && h[..1][..0] == [];
    AffectedNothing(c.data);
    var c1 := Step(c, h[0]);
    assert c1 == c.(state := 1);
    var c2 := Step(c1, h[1]);
    assert c2 == c.(state := 2);
    var c3 := Step(c2, h[2]);
    assert c3 == c.(state := 0, pending := Command.WriteByte);
    assert Run(c, h[..1]) == c1;
    assert Run(c, h[..2]) == c2;
    assert Run(c, h[..3]) == c3;
  }

  /** But it is not needed: an idle chip stores the byte of any data-window write at once. */
  lemma PlainWritePrograms(c: Chip, w: Write)
    requires Idle(c) && InData(w) && c.Translate(w.addr) < |c.data|
    ensures Step(c, w) == c.(data := c.data[c.Translate(w.addr) := w.value])
  {
  }

  // ----- addresses -----

  /** The lower half of the window is the first 32 KB of the array; the upper half is the 32 KB that the
      bank selects. */
  lemma TranslateMeans(c: Chip, page: nat, i: nat)
    requires i < 0x8000
    ensures c.Translate(0x1_0000 * page + i) == i
    ensures c.Translate(0x1_0000 * page + 0x8000 + i) == 0x8000 * c.bank + i
  {
    assert (0x1_0000 * page + i) % 0x1_0000 == i;
    assert (0x1_0000 * page + 0x8000 + i) % 0x1_0000 == 0x8000 + i;
  }

  /** So a lower and an upper address are the same byte exactly in bank 0, at the same place. */
  lemma HalvesAliasIff(c: Chip, i: nat, k: nat)
    requires i < 0x8000 && k < 0x8000
    ensures c.Translate(i) == c.Translate(0x8000 + k) <==> c.bank == 0 && i == k
  {
    TranslateMeans(c, 0, i);
    TranslateMeans(c, 0, k);
  }

  /** A bank switch: the command, and the bank's lowest bit in any data-window write. */
  lemma BankSwitches(c: Chip, h: seq<Write>)
    requires |h| == 2 && At(h[0], 0xAAA, 0xB0) && InData(h[1])
    ensures Run(c, h) == c.(bank := h[1].value % 2, state := 0, pending := NoCommand)
  {
    AffectedNothing(c.data);
    assert h[..1][..0] == [];
    assert Run(c, h[..1]) == Step(c, h[0]);
  }

  // ----- sectors -----

  /** The size of a sector: 64 KB on the 1 MB chip, 32 KB on the other. */
  function SizeOfSector(c: Chip): nat {
    if c.is1m then 0x1_0000 else 0x8000
  }

  /** Of the sixteen sectors an erase reaches two: the first, from the lower half of the window, and the
      ninth, from the upper. */
  lemma OnlyTwoSectors(c: Chip, w: Write)
    requires EffectOf(c, w).EraseSector?
    ensures var e := EffectOf(c, w);
            && c.eraseAddress.Some? && e.size == SizeOfSector(c)
            && e.base == (if c.eraseAddress.value % 0x1_0000 < 0x8000 then 0 else 8 * SizeOfSector(c))
            && e.base + e.size <= |c.data|
  {
  }

  predicate IsSectorErase(h: seq<Write>) {
    && |h| == 7
    && IsUnlock1(h[0]) && IsUnlock2(h[1]) && IsSetup(h[2])
    && InData(h[3]) && IsUnlock1(h[4]) && IsUnlock2(h[5])
    && (At(h[6], 0x2AAA, 0x30) || At(h[6], 0x2AAA, 0xD0))
  }

  /** From any state the sector sequence, its address given by a data-window write, fills that sector with
      0xFF, if it is inside the array, and changes nothing else. */
  lemma SequenceErasesSector(c: Chip, h: seq<Write>)
    requires IsSectorErase(h)
    ensures var base, size := if h[3].addr % 0x1_0000 < 0x8000 then 0 else 8 * SizeOfSector(c), SizeOfSector(c);
            var d := Run(c, h).data;
            && |d| == |c.data|
            && forall o :: 0 <= o < |d| ==>
                 d[o] == if base + size <= |c.data| && base <= o < base + size then 0xFF else c.data[o]
    ensures Idle(Run(c, h))
  {
    hide Affected;
    AffectedNothing(c.data);
    RunSeven(c, h);
    var c1 := Step(c, h[0]);
    var c2 := Step(c1, h[1]);
    var c3 := Step(c2, h[2]);
    var c4 := Step(c3, h[3]);
    var c5 := Step(c4, h[4]);
    var c6 := Step(c5, h[5]);
    assert c6 == c.(state := 2, pending := EraseSetup, eraseAddress := c6.eraseAddress);
    assert c6.eraseAddress.Some? && c6.eraseAddress.value == h[3].addr % 0x1_0000;
    SectorErased(c6, h[6]);
  }

  lemma SectorErased(c: Chip, w: Write)
    requires c.state == 2 && c.pending == EraseSetup && c.eraseAddress.Some? && c.eraseAddress.value < 0x1_0000
    requires At(w, 0x2AAA, 0x30) || At(w, 0x2AAA, 0xD0)
    ensures var base, size := if c.eraseAddress.value < 0x8000 then 0 else 8 * SizeOfSector(c), SizeOfSector(c);
            var d := Step(c, w).data;
            && |d| == |c.data|
            && forall o :: 0 <= o < |d| ==>
                 d[o] == if base + size <= |c.data| && base <= o < base + size then 0xFF else c.data[o]
    ensures Idle(Step(c, w))
  {
    hide Affected;
    var base, size := if c.eraseAddress.value < 0x8000 then 0 else 8 * SizeOfSector(c), SizeOfSector(c);
    SectorEffect(c, w);
    AffectedNothing(c.data);
    SectorFills(c.data, base, size);
    hide EffectOf;
  }

  lemma SectorFills(data: seq<byte>, base: nat, size: nat)
    ensures forall o :: 0 <= o < |data| ==>
              Affected(data, EraseSector(base, size))[o] == if base <= o < base + size then 0xFF else data[o]
  {
  }

  lemma SectorEffect(c: Chip, w: Write)
    requires c.state == 2 && c.pending == EraseSetup && c.eraseAddress.Some? && c.eraseAddress.value < 0x1_0000
    requires At(w, 0x2AAA, 0x30) || At(w, 0x2AAA, 0xD0)
    ensures var base, size := if c.eraseAddress.value < 0x8000 then 0 else 8 * SizeOfSector(c), SizeOfSector(c);
            EffectOf(c, w) == if base + size <= |c.data| then EraseSector(base, size) else Nothing
  {
    SectorPlace(c, c.eraseAddress.value);
    hide SectorBase;
  }

  lemma SectorPlace(c: Chip, a: nat)
    requires a < 0x1_0000
    ensures SectorBase(c, a) == if a < 0x8000 then 0 else 8 * SizeOfSector(c)
    ensures c.SectorSize() == SizeOfSector(c)
  {
  }

  lemma RunSeven(c: Chip, h: seq<Write>)
    requires |h| == 7
    ensures Run(c, h) == Step(Step(Step(Step(Step(Step(Step(c, h[0]), h[1]), h[2]), h[3]), h[4]), h[5]), h[6])
  {
    hide Step;
    RunSix(c, h[..6]);
  }
}
