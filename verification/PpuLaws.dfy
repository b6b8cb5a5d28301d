/** An HBlank transfer that feeds the BG2 matrix: what each line's snapshot holds. */
module PpuLaws {
  import opened Arith
  import opened Words
  import opened Wrappers
  import opened Memory
  import opened Dma
  import opened DmaLaws
  import opened Ppu

  function Run(s: Video, n: nat): (t: Video)
    requires s.Valid()
    ensures t.Valid()
  {
    if n == 0 then s else Step(Run(s, n - 1))
  }

  /** Transfers done by `n` calls from line 0 on: one for every visible line passed. */
  function Transfers(n: nat): nat {
    SCREEN_HEIGHT * (n / SCANLINES) + if n % SCANLINES < SCREEN_HEIGHT then n % SCANLINES else SCREEN_HEIGHT
  }

  // ----- the set-up -----

  const BG2PA := 0x0400_0020

  /** A matrix register: PA, PB, PC or PD. */
  predicate IsMatrixRegister(dst: int) {
    dst == BG2PA || dst == BG2PA + 2 || dst == BG2PA + 4 || dst == BG2PA + 6
  }

  /** A channel in the middle of a repeating HBlank stream of single halfwords into a matrix register:
      the source steps up, the destination stays. */
  predicate Streaming(ch: Channel) {
    && ch.enabled && !ch.busy && ch.control >= DMA_ENABLE
    && ch.Timing() == HBLANK && ch.Repeat() && !ch.Wide()
    && ch.SrcControl() == 0 && ch.DstControl() in {2, 3}
    && ch.count == 1 && ch.origCount <= 1
    && IsMatrixRegister(ch.dst)
  }

  /** By the control word: on, HBlank timing, repeating, halfwords, source up, destination fixed or
      reloaded. */
  lemma StreamingByControl(ch: Channel)
    ensures Streaming(ch)
            <==> && ch.enabled && !ch.busy && ch.control >= 0x8000 && ch.control / 0x1000 % 4 == 2
                 && ch.control / 0x200 % 2 == 1 && ch.control / 0x400 % 2 == 0 && ch.control / 0x80 % 4 == 0
                 && 2 <= ch.control / 0x20 % 4 <= 3
                 && ch.count == 1 && ch.origCount <= 1
                 && ch.dst in {0x0400_0020, 0x0400_0022, 0x0400_0024, 0x0400_0026}
  {
  }

  /** Halfword `t` of the table at `src`. */
  function TableEntry(m: MemState, src: int, t: nat): half {
    Read16(m, Low32(src + 2 * t))
  }

  /** The first `n` halfwords of the table can be fetched, and not from the IO area. */
  predicate TableOutsideIo(src: int, n: nat) {
    src >= 0x0200_0000 && forall t :: 0 <= t < n ==> !IsIo(MapAddress(Low32(src + 2 * t)))
  }

  /** A stream in progress: where it reads and writes, the affine parameters and the overflow flag,
      and a memory with the machine's buffers. */
  datatype Stream = Stream(src: int, dst: int, params: seq<byte>, overflow: bool, mem: MemState) {
    predicate Valid() {
      IsMatrixRegister(dst) && |params| == 16
    }
  }

  /** Channel `c` carries the stream and every other channel is off. */
  predicate Streams(s: Video, c: nat, st: Stream) {
    && s.Valid() && c < 4 && st.Valid()
    && Streaming(s.dma.channels[c]) && ControlReg(s.dma.m.io, c) == s.dma.channels[c].control
    && s.dma.channels[c].src == st.src && s.dma.channels[c].dst == st.dst
    && s.dma.m.affine == st.params && s.overflow == st.overflow && SameBuffers(st.mem, s.dma.m)
    && forall j :: 0 <= j < 4 && j != c ==> Quiet(s.dma.m, j)
  }

  lemma StreamsValid(s: Video, c: nat, st: Stream)
    requires Streams(s, c, st)
    ensures s.Valid() && st.Valid() && c < 4
  {
    hide Video.Valid, Stream.Valid, Streaming, ControlReg, Quiet, SameBuffers;
  }

  // ----- what a matrix write changes -----

  /** The affine parameters with one 16-bit register replaced. */
  function WithRegister(ap: seq<byte>, dst: int, v: half): seq<byte>
    requires |ap| == 16 && IsMatrixRegister(dst)
  {
    ap[dst - BG2PA := v % 0x100][dst - BG2PA + 1 := v / 0x100]
  }

  /** The snapshot with one matrix element replaced. */
  function WithElement(a: Affine, dst: int, x: int): Affine
    requires IsMatrixRegister(dst)
  {
    if dst == BG2PA then a.(dx := x)
    else if dst == BG2PA + 2 then a.(dmx := x)
    else if dst == BG2PA + 4 then a.(dy := x)
    else a.(dmy := x)
  }

  function SignedHalf(v: half): int {
    if v >= 0x8000 then v - 0x1_0000 else v
  }

  lemma RegisterIsElement(ap: seq<byte>, dst: int, v: half, overflow: bool)
    requires |ap| == 16 && IsMatrixRegister(dst)
    ensures ReadAffine(WithRegister(ap, dst, v), overflow) == WithElement(ReadAffine(ap, overflow), dst, SignedHalf(v))
  {
    SplitPack2(v);
    hide Signed28;
  }

  lemma RegisterTwice(ap: seq<byte>, dst: int, v: half, w: half)
    requires |ap| == 16 && IsMatrixRegister(dst)
    ensures WithRegister(WithRegister(ap, dst, v), dst, w) == WithRegister(ap, dst, w)
  {
  }

  /** Everything a halfword load outside the IO area can see. */
  predicate SameBuffers(m: MemState, w: MemState) {
    && w.bios == m.bios && w.ewram == m.ewram && w.iwram == m.iwram && w.palette == m.palette
    && w.vram == m.vram && w.oam == m.oam && w.sram == m.sram && w.rom == m.rom && w.romMirror == m.romMirror
  }

  lemma LoadSame(m: MemState, w: MemState, a: word)
    requires SameBuffers(m, w) && !IsIo(MapAddress(a))
    ensures Read16(w, a) == Read16(m, a) && AfterRead16(m, a) == m
  {
    hide MapAddress;
  }

  lemma LowOfMatrix(dst: int)
    requires IsMatrixRegister(dst)
    ensures Low32(dst) == dst
  {
  }

  lemma WriteToMatrix(m: MemState, dst: int, v: half)
    requires IsMatrixRegister(dst)
    ensures Write16(m, dst, v) == m.(affine := WithRegister(m.affine, dst, v))
  {
    assert MapAddress(dst) == dst;
    hide Write8, MapAddress;
  }

  /** One HBlank transfer of a streaming channel. */
  lemma StreamTransfer(ch: Channel, m: MemState, ifReg: nat)
    requires ch.id < 4 && Streaming(ch) && TableOutsideIo(ch.src, 1)
    ensures var t := DoTransfer(ch, m, ifReg);
            && t.m == m.(affine := WithRegister(m.affine, ch.dst, TableEntry(m, ch.src, 0)))
            && Streaming(t.ch) && t.ch.src == ch.src + 2 && t.ch.dst == ch.dst && t.ch.control == ch.control
  {
    hide MoveUnits, MoveUnit, WithRegister, TableEntry, Read16, MapAddress, Disarmed, StoreControl;
    hide Channel.Timing, Channel.SrcControl, Channel.DstControl, Channel.Repeat, Channel.Wide, Channel.IrqEnabled;
    MatrixUnit(m, ch.latch, ch.src, ch.dst);
    OneUnit(m, ch.latch, ch.src, ch.dst, StepFor(ch.SrcControl(), false), StepFor(ch.DstControl(), false));
    SameSettings(ch, ch.(latch := MoveUnit(m, ch.latch, ch.src, ch.dst, false).latch));
    SameSettings(ch, DoTransfer(ch, m, ifReg).ch);
  }

  lemma SameSettings(a: Channel, b: Channel)
    ensures a.control == b.control
            ==> && a.Timing() == b.Timing() && a.SrcControl() == b.SrcControl() && a.DstControl() == b.DstControl()
                && a.Repeat() == b.Repeat() && a.Wide() == b.Wide()
  {
  }

  lemma MatrixUnit(m: MemState, latch: word, src: int, dst: int)
    requires IsMatrixRegister(dst) && TableOutsideIo(src, 1)
    ensures MoveUnit(m, latch, src, dst, false).m == m.(affine := WithRegister(m.affine, dst, TableEntry(m, src, 0)))
  {
    hide Read16, AfterRead16, Write16, MapAddress, WithRegister, HalfOf, Twice, Low32;
    assert src + 2 * 0 == src;
    var v := Read16(m, Low32(src));
    LoadSame(m, m, Low32(src));
    LatchHalf(v, dst);
    WriteToMatrix(m, dst, v);
    LowOfMatrix(dst);
  }

  lemma OneUnit(m: MemState, latch: word, src: int, dst: int, srcStep: int, dstStep: int)
    ensures MoveUnits(m, latch, src, dst, srcStep, dstStep, false, 1) == MoveUnit(m, latch, src, dst, false)
  {
    hide MoveUnit;
  }

  // ----- one line -----

  /** A channel already enabled, with its control in the IO bytes, is not reloaded. */
  lemma RefreshSame(ch: Channel, io: seq<byte>)
    requires ch.id < 4 && |io| == IO_SIZE
    requires ch.enabled && ch.control >= DMA_ENABLE && ControlReg(io, ch.id) == ch.control
    ensures Refresh(ch, io) == ch
  {
  }

  lemma {:induction false} IdleFire(s: DmaState, i: nat, c: nat, timing: nat)
    requires ChannelsOk(s.channels) && i <= 4 && c < 4
    requires forall j :: 0 <= j < 4 && j != c ==> Quiet(s.m, j)
    requires s.channels[c].Timing() != timing && Refresh(s.channels[c], s.m.io) == s.channels[c]
    ensures var t := FireFrom(s, i, timing);
            t.m == s.m && t.ifReg == s.ifReg && t.channels[c] == s.channels[c]
    decreases 4 - i
  {
    if i < 4 {
      if i == c {
        IdleTrigger(s, c, timing);
      } else {
        QuietTrigger(s, i, timing);
      }
      hide Trigger, Quiet, Refresh;
      IdleFire(Trigger(s, i, timing), i + 1, c, timing);
    }
  }

  lemma IdleTrigger(s: DmaState, c: nat, timing: nat)
    requires ChannelsOk(s.channels) && c < 4
    requires s.channels[c].Timing() != timing && Refresh(s.channels[c], s.m.io) == s.channels[c]
    ensures Trigger(s, c, timing).m == s.m && Trigger(s, c, timing).ifReg == s.ifReg
    ensures Trigger(s, c, timing).channels == s.channels
  {
    hide DoTransfer, Refresh;
  }

  /** The stream after one more transfer. */
  function Moved(st: Stream): (t: Stream)
    requires st.Valid()
    ensures t.Valid()
  {
    st.(src := st.src + 2, params := WithRegister(st.params, st.dst, TableEntry(st.mem, st.src, 0)))
  }

  lemma LatchStreams(s: Video, c: nat, st: Stream)
    requires Streams(s, c, st)
    ensures Streams(Latch(s), c, st) && Latch(s).vcount == s.vcount
  {
    hide ReadAffine, Streaming, ControlReg, Quiet, SameBuffers;
  }

  /** The HBlank trigger moves one table entry into the matrix. */
  lemma FireStreams(s: DmaState, c: nat)
    requires ChannelsOk(s.channels) && c < 4 && Streaming(s.channels[c])
    requires ControlReg(s.m.io, c) == s.channels[c].control && TableOutsideIo(s.channels[c].src, 1)
    requires forall j :: 0 <= j < 4 && j != c ==> Quiet(s.m, j)
    ensures var t, ch := Fire(s, HBLANK), s.channels[c];
            && t.m == s.m.(affine := WithRegister(s.m.affine, ch.dst, TableEntry(s.m, ch.src, 0)))
            && Streaming(t.channels[c]) && t.channels[c].src == ch.src + 2
            && t.channels[c].dst == ch.dst && t.channels[c].control == ch.control
  {
    var ch := s.channels[c];
    EnabledTiming(ch);
    RefreshSame(ch, s.m.io);
    hide Refresh, DoTransfer, WithRegister, TableEntry, FireFrom, TableOutsideIo, Streaming, Channel.Timing;
    StreamTransfer(ch, s.m, s.ifReg);
    OthersQuiet(s.m, DoTransfer(ch, s.m, s.ifReg).m, c);
    LoneFire(s, 0, c, HBLANK);
  }

  lemma EnabledTiming(ch: Channel)
    requires Streaming(ch)
    ensures ch.enabled && !ch.busy && ch.Timing() == HBLANK && ch.control >= DMA_ENABLE && IsMatrixRegister(ch.dst)
  {
  }

  lemma OthersQuiet(m: MemState, w: MemState, c: nat)
    requires w.io == m.io && forall j :: 0 <= j < 4 && j != c ==> Quiet(m, j)
    ensures forall j :: 0 <= j < 4 && j != c ==> Quiet(w, j)
  {
    hide ControlReg;
    forall j | 0 <= j < 4 && j != c ensures Quiet(w, j) {
      assert Quiet(m, j);
    }
  }

  lemma HBlankStreams(s: Video, c: nat, st: Stream)
    requires Streams(s, c, st) && s.vcount < SCREEN_HEIGHT && TableOutsideIo(st.src, 1)
    ensures Streams(HBlank(s), c, Moved(st))
    ensures HBlank(s).vcount == s.vcount && HBlank(s).snapshots == s.snapshots
  {
    hide Fire, WithRegister, TableEntry, TableOutsideIo, Streaming, ControlReg, Quiet;
    FireStreams(s.dma, c);
    var m, w := s.dma.m, Fire(s.dma, HBLANK).m;
    assert TableOutsideIo(st.src, 0 + 1);
    TableNext(st.mem, m, st.src, 0);
    assert st.src + 2 * 0 == st.src;
    BuffersChain(st.mem, m, w);
    QuietSame(m, w);
  }

  lemma QuietSame(m: MemState, w: MemState)
    requires w.io == m.io
    ensures forall j :: 0 <= j < 4 ==> Quiet(w, j) == Quiet(m, j)
  {
    hide ControlReg;
    forall j | 0 <= j < 4 ensures Quiet(w, j) == Quiet(m, j) {
      assert ControlReg(w.io, j) == ControlReg(m.io, j);
    }
  }

  lemma StatusKeepsControl(m: MemState, vcount: nat, j: nat)
    requires vcount < SCANLINES && j < 4
    ensures ControlReg(StoreStatus(m, vcount).io, j) == ControlReg(m.io, j)
    ensures StoreStatus(m, vcount).affine == m.affine && SameBuffers(m, StoreStatus(m, vcount))
  {
    hide Dispstat;
  }

  lemma AdvanceStreams(s: Video, c: nat, st: Stream)
    requires Streams(s, c, st)
    ensures Streams(Advance(s), c, st)
    ensures Advance(s).vcount == (s.vcount + 1) % SCANLINES && Advance(s).snapshots == s.snapshots
  {
    hide StoreStatus, ControlReg, Streaming, SameBuffers;
    var m, w := s.dma.m, Advance(s).dma.m;
    assert w == StoreStatus(m, Advance(s).vcount);
    forall j | 0 <= j < 4 ensures ControlReg(w.io, j) == ControlReg(m.io, j) {
      StatusKeepsControl(m, Advance(s).vcount, j);
    }
    forall j | 0 <= j < 4 && j != c ensures Quiet(w, j) {
      assert Quiet(m, j);
    }
    StatusKeepsControl(m, Advance(s).vcount, c);
    BuffersChain(st.mem, m, w);
  }

  lemma VBlankStreams(s: Video, c: nat, st: Stream)
    requires Streams(s, c, st)
    ensures Streams(VBlank(s), c, st) && VBlank(s).vcount == s.vcount && VBlank(s).snapshots == s.snapshots
  {
    var ch := s.dma.channels[c];
    EnabledTiming(ch);
    RefreshSame(ch, s.dma.m.io);
    hide Refresh, FireFrom, Streaming, ControlReg, SameBuffers, Channel.Timing;
    IdleFire(s.dma, 0, c, VBLANK);
    QuietSame(s.dma.m, Fire(s.dma, VBLANK).m);
    hide Quiet;
  }

  lemma FlagsStream(s: Video, c: nat, st: Stream, flags: nat)
    requires Streams(s, c, st)
    ensures Streams(s.(dma := s.dma.(ifReg := flags)), c, st)
  {
    hide Streaming, ControlReg, Quiet, SameBuffers;
  }

  /** The stream after a line has passed. */
  function Passed(st: Stream, vcount: nat): (t: Stream)
    requires st.Valid()
    ensures t.Valid()
  {
    if vcount < SCREEN_HEIGHT then Moved(st) else st
  }

  /** One call of `step_scanline` on a streaming machine. */
  lemma StepStreams(s: Video, c: nat, st: Stream)
    requires Streams(s, c, st) && (s.vcount < SCREEN_HEIGHT ==> TableOutsideIo(st.src, 1))
    ensures Streams(Step(s), c, Passed(st, s.vcount))
    ensures Step(s).vcount == (s.vcount + 1) % SCANLINES && Step(s).snapshots == Latch(s).snapshots
  {
    hide Streams, Latch, HBlank, Advance, VBlank, RaiseLine, TableOutsideIo, Passed;
    StreamsValid(s, c, st);
    LatchStreams(s, c, st);
    LineStreams(Latch(s), c, st);
    var next, l := Passed(st, s.vcount), HBlank(Latch(s));
    AdvanceStreams(l, c, next);
    var a := Advance(l);
    VBlankStreams(a, c, next);
    FlagsStream(VBlank(a), c, next,
                RaiseLine(VBlank(a).dma.ifReg, Pack2(a.dma.m.io[4], a.dma.m.io[5]), VBlank(a).vcount));
  }

  lemma LineStreams(s: Video, c: nat, st: Stream)
    requires Streams(s, c, st) && (s.vcount < SCREEN_HEIGHT ==> TableOutsideIo(st.src, 1))
    ensures Streams(HBlank(s), c, Passed(st, s.vcount))
    ensures HBlank(s).vcount == s.vcount && HBlank(s).snapshots == s.snapshots
  {
    if s.vcount < SCREEN_HEIGHT {
      HBlankStreams(s, c, st);
    }
    hide Streams, Fire, Moved;
  }

  // ----- whole runs -----

  /** The affine parameters after `k` transfers: the last table entry in the register. */
  function ParamsAfter(st: Stream, k: nat): (ap: seq<byte>)
    requires st.Valid()
    ensures |ap| == 16
  {
    if k == 0 then st.params else WithRegister(st.params, st.dst, TableEntry(st.mem, st.src, k - 1))
  }

  /** The matrix after `k` transfers: the initial one, with the last table entry as its element. */
  function MatrixAfter(st: Stream, k: nat): Affine
    requires st.Valid()
  {
    var a := ReadAffine(st.params, st.overflow);
    if k == 0 then a else WithElement(a, st.dst, SignedHalf(TableEntry(st.mem, st.src, k - 1)))
  }

  function StreamAfter(st: Stream, k: nat): (t: Stream)
    requires st.Valid()
    ensures t.Valid()
  {
    st.(src := st.src + 2 * k, params := ParamsAfter(st, k))
  }

  lemma ParamsGiveMatrix(st: Stream, k: nat)
    requires st.Valid()
    ensures ReadAffine(ParamsAfter(st, k), st.overflow) == MatrixAfter(st, k)
  {
    hide ReadAffine, WithElement, SignedHalf, TableEntry, WithRegister;
    if k > 0 {
      RegisterIsElement(st.params, st.dst, TableEntry(st.mem, st.src, k - 1), st.overflow);
    }
  }

  lemma MovedAfter(st: Stream, k: nat)
    requires st.Valid() && TableOutsideIo(st.src, k + 1)
    ensures Moved(StreamAfter(st, k)) == StreamAfter(st, k + 1) && TableOutsideIo(st.src + 2 * k, 1)
  {
    hide TableEntry, WithRegister, TableOutsideIo, SameBuffers;
    SameBuffersSelf(st.mem);
    TableNext(st.mem, st.mem, st.src, k);
    if k > 0 {
      RegisterTwice(st.params, st.dst, TableEntry(st.mem, st.src, k - 1), TableEntry(st.mem, st.src, k));
    }
  }

  lemma SameBuffersSelf(m: MemState)
    ensures SameBuffers(m, m)
  {
  }

  lemma NextTransfer(n: nat)
    ensures Transfers(n + 1) == Transfers(n) + if n % SCANLINES < SCREEN_HEIGHT then 1 else 0
    ensures (n + 1) % SCANLINES == (n % SCANLINES + 1) % SCANLINES
    ensures n % SCANLINES < SCREEN_HEIGHT ==> Transfers(n) == SCREEN_HEIGHT * (n / SCANLINES) + n % SCANLINES
  {
    var q, r := n / SCANLINES, n % SCANLINES;
    if r + 1 < SCANLINES {
      DivUnique(n + 1, SCANLINES, q, r + 1);
      DivUnique(r + 1, SCANLINES, 0, r + 1);
    } else {
      DivUnique(n + 1, SCANLINES, q + 1, 0);
      DivUnique(r + 1, SCANLINES, 1, 0);
    }
  }

  /** Lines 0 to `line` hold the matrices after `first` transfers, `first + 1` transfers, and so on. */
  ghost predicate SnapshotsFrom(st: Stream, first: nat, line: nat, snaps: seq<Option<Affine>>)
    requires st.Valid() && |snaps| == SCREEN_HEIGHT
  {
    forall y :: 0 <= y < SCREEN_HEIGHT && y <= line ==> snaps[y] == Some(MatrixAfter(st, first + y))
  }

  /** The lines latched so far in the frame of the `n`-th call. */
  ghost predicate SnapshotsFollow(st: Stream, n: nat, snaps: seq<Option<Affine>>)
    requires st.Valid() && |snaps| == SCREEN_HEIGHT
  {
    n > 0 ==> SnapshotsFrom(st, SCREEN_HEIGHT * ((n - 1) / SCANLINES), (n - 1) % SCANLINES, snaps)
  }

  lemma LatchFollows(st: Stream, c: nat, n: nat, s: Video)
    requires st.Valid() && Streams(s, c, StreamAfter(st, Transfers(n))) && s.vcount == n % SCANLINES
    requires SnapshotsFollow(st, n, s.snapshots)
    ensures SnapshotsFollow(st, n + 1, Latch(s).snapshots)
  {
    hide Streams, StreamAfter, TableOutsideIo, SnapshotsFollow, SnapshotsFrom, Step, Latch, Transfers, ParamsAfter,
        MatrixAfter, Run, ReadAffine, Passed, Stream.Valid, ChannelsOk;
    StreamsValid(s, c, StreamAfter(st, Transfers(n)));
    LatchedSnapshots(s, c, StreamAfter(st, Transfers(n)));
    StreamAfterFields(st, Transfers(n));
    ParamsGiveMatrix(st, Transfers(n));
    NextTransfer(n);
    var line := n % SCANLINES;
    var snaps := if line == 0 then NoSnapshots() else s.snapshots;
    FollowBefore(st, n, s.snapshots);
    LatchExtends(st, SCREEN_HEIGHT * (n / SCANLINES), line, snaps);
    FollowAfter(st, n, Latch(s).snapshots);
  }

  lemma FollowBefore(st: Stream, n: nat, snaps: seq<Option<Affine>>)
    requires st.Valid() && |snaps| == SCREEN_HEIGHT && SnapshotsFollow(st, n, snaps)
    ensures n % SCANLINES > 0 ==> SnapshotsFrom(st, SCREEN_HEIGHT * (n / SCANLINES), n % SCANLINES - 1, snaps)
  {
    hide SnapshotsFrom;
    if n % SCANLINES > 0 {
      DivUnique(n - 1, SCANLINES, n / SCANLINES, n % SCANLINES - 1);
    }
  }

  lemma FollowAfter(st: Stream, n: nat, snaps: seq<Option<Affine>>)
    requires st.Valid() && |snaps| == SCREEN_HEIGHT
    requires SnapshotsFrom(st, SCREEN_HEIGHT * (n / SCANLINES), n % SCANLINES, snaps)
    ensures SnapshotsFollow(st, n + 1, snaps)
  {
    hide SnapshotsFrom;
  }

  lemma LatchExtends(st: Stream, first: nat, line: nat, snaps: seq<Option<Affine>>)
    requires st.Valid() && |snaps| == SCREEN_HEIGHT
    requires line > 0 ==> SnapshotsFrom(st, first, line - 1, snaps)
    ensures SnapshotsFrom(st, first, line,
              if line < SCREEN_HEIGHT then snaps[line := Some(MatrixAfter(st, first + line))] else snaps)
  {
    hide MatrixAfter;
  }

  lemma LatchedSnapshots(s: Video, c: nat, st: Stream)
    requires Streams(s, c, st)
    ensures var snaps := if s.vcount == 0 then NoSnapshots() else s.snapshots;
            Latch(s).snapshots == if s.vcount < SCREEN_HEIGHT
                                  then snaps[s.vcount := Some(ReadAffine(st.params, st.overflow))] else s.snapshots
  {
    hide ReadAffine, Streaming, ControlReg, Quiet, SameBuffers;
  }

  /** Over any number of frames: the clock, the stream and the snapshots after `n` calls, in terms of
      the table alone. */
  lemma {:induction false} StreamRun(s: Video, c: nat, st: Stream, n: nat)
    requires Streams(s, c, st) && s.vcount == 0 && st.Valid() && TableOutsideIo(st.src, Transfers(n))
    ensures Streams(Run(s, n), c, StreamAfter(st, Transfers(n)))
    ensures Run(s, n).vcount == n % SCANLINES
    ensures SnapshotsFollow(st, n, Run(s, n).snapshots)
  {
    hide Streams, StreamAfter, TableOutsideIo, SnapshotsFollow, SnapshotsFrom, Step, Latch, Transfers, ParamsAfter,
        MatrixAfter, Run, ReadAffine, Passed, Stream.Valid, ChannelsOk;
    StreamsValid(s, c, st);
    RunUnfold(s, n);
    if n == 0 {
      StreamStart(st);
    } else {
      var k := n - 1;
      NextTransfer(k);
      TableShorter(st.src, Transfers(n), Transfers(k));
      StreamRun(s, c, st, k);
      var t := Run(s, k);
      LatchFollows(st, c, k, t);
      PassedAfter(st, k, t.vcount);
      StepStreams(t, c, StreamAfter(st, Transfers(k)));
    }
  }

  lemma RunUnfold(s: Video, n: nat)
    requires s.Valid()
    ensures Run(s, n) == if n == 0 then s else Step(Run(s, n - 1))
  {
    hide Step;
  }

  lemma PassedAfter(st: Stream, n: nat, vcount: nat)
    requires st.Valid() && vcount == n % SCANLINES && TableOutsideIo(st.src, Transfers(n + 1))
    ensures Passed(StreamAfter(st, Transfers(n)), vcount) == StreamAfter(st, Transfers(n + 1))
    ensures vcount < SCREEN_HEIGHT ==> TableOutsideIo(StreamAfter(st, Transfers(n)).src, 1)
  {
    hide StreamAfter, Transfers, Moved, TableOutsideIo;
    NextTransfer(n);
    StreamAfterFields(st, Transfers(n));
    if vcount < SCREEN_HEIGHT {
      MovedAfter(st, Transfers(n));
    }
  }

  lemma StreamStart(st: Stream)
    requires st.Valid()
    ensures Transfers(0) == 0 && StreamAfter(st, 0) == st
    ensures forall snaps: seq<Option<Affine>> :: |snaps| == SCREEN_HEIGHT ==> SnapshotsFollow(st, 0, snaps)
  {
  }

  lemma StreamAfterFields(st: Stream, k: nat)
    requires st.Valid()
    ensures var t := StreamAfter(st, k);
            t.src == st.src + 2 * k && t.dst == st.dst && t.params == ParamsAfter(st, k) && t.overflow == st.overflow
  {
    hide ParamsAfter;
  }

  lemma TableShorter(src: int, n: nat, k: nat)
    requires TableOutsideIo(src, n) && k <= n
    ensures TableOutsideIo(src, k)
  {
    hide MapAddress, IsIo, Low32;
  }

  lemma BuffersChain(m: MemState, v: MemState, w: MemState)
    ensures SameBuffers(m, v) && SameBuffers(v, w) ==> SameBuffers(m, w)
  {
  }

  /** The next entry, fetched from the memory as it then is. */
  lemma TableNext(m: MemState, w: MemState, src: int, k: nat)
    requires TableOutsideIo(src, k + 1) && SameBuffers(m, w)
    ensures TableOutsideIo(src + 2 * k, 1) && TableEntry(w, src + 2 * k, 0) == TableEntry(m, src, k)
  {
    hide Read16, MapAddress, Low32, IsIo, SameBuffers;
    assert src + 2 * k + 2 * 0 == src + 2 * k;
    LoadSame(m, w, Low32(src + 2 * k));
  }

  // ----- what it means on the screen -----

  /** In every frame, each visible line was latched with the entry delivered on the visible line
      before it (on the last line of the frame before, for line 0), and the very first with the
      initial matrix. */
  lemma LineSeesPreviousTransfer(s: Video, c: nat, st: Stream, frame: nat, y: nat)
    requires Streams(s, c, st) && s.vcount == 0 && st.Valid() && y < SCREEN_HEIGHT
    requires TableOutsideIo(st.src, SCREEN_HEIGHT * (frame + 1))
    ensures var a := ReadAffine(st.params, st.overflow);
            Run(s, SCANLINES * (frame + 1)).snapshots[y]
            == Some(if frame == 0 && y == 0 then a
                    else WithElement(a, st.dst, SignedHalf(TableEntry(st.mem, st.src, SCREEN_HEIGHT * frame + y - 1))))
  {
    hide Streams, StreamAfter, TableOutsideIo, SnapshotsFollow, SnapshotsFrom, Step, Latch, Transfers, ParamsAfter,
        MatrixAfter, Run, ReadAffine, Passed, Stream.Valid, ChannelsOk;
    var n := SCANLINES * (frame + 1);
    FrameTransfers(frame);
    StreamsValid(s, c, st);
    StreamRun(s, c, st, n);
    SnapshotOf(st, frame, y, Run(s, n).snapshots);
  }

  lemma FrameTransfers(frame: nat)
    ensures var n := SCANLINES * (frame + 1);
            && Transfers(n) == SCREEN_HEIGHT * (frame + 1)
            && (n - 1) / SCANLINES == frame && (n - 1) % SCANLINES == SCANLINES - 1
  {
    var n := SCANLINES * (frame + 1);
    DivUnique(n, SCANLINES, frame + 1, 0);
    DivUnique(n - 1, SCANLINES, frame, SCANLINES - 1);
  }

  lemma SnapshotOf(st: Stream, frame: nat, y: nat, snaps: seq<Option<Affine>>)
    requires st.Valid() && |snaps| == SCREEN_HEIGHT && y < SCREEN_HEIGHT
    requires SnapshotsFollow(st, SCANLINES * (frame + 1), snaps)
    ensures var a := ReadAffine(st.params, st.overflow);
            snaps[y] == Some(if frame == 0 && y == 0 then a
                             else WithElement(a, st.dst, SignedHalf(TableEntry(st.mem, st.src,
                                 SCREEN_HEIGHT * frame + y - 1))))
  {
    FrameTransfers(frame);
    hide ReadAffine, WithElement, SignedHalf, TableEntry, Transfers;
    assert snaps[y] == Some(MatrixAfter(st, SCREEN_HEIGHT * frame + y));
  }

  /** From any line on, one whole turn of the clock does exactly 160 transfers. */
  lemma TurnTransfers(s: Video, c: nat, st: Stream, n: nat)
    requires Streams(s, c, st) && s.vcount == 0 && st.Valid() && TableOutsideIo(st.src, Transfers(n + SCANLINES))
    ensures |Run(s, n).dma.channels| == |Run(s, n + SCANLINES).dma.channels| == 4 && c < 4
    ensures Run(s, n + SCANLINES).vcount == Run(s, n).vcount
    ensures Run(s, n + SCANLINES).dma.channels[c].src == Run(s, n).dma.channels[c].src + 2 * SCREEN_HEIGHT
  {
    hide Streams, StreamAfter, TableOutsideIo, SnapshotsFollow, SnapshotsFrom, Step, Latch, Transfers, ParamsAfter,
        MatrixAfter, Run, ReadAffine, Passed, Stream.Valid, ChannelsOk;
    OneTurnOn(n);
    StreamsValid(s, c, st);
    TableShorter(st.src, Transfers(n + SCANLINES), Transfers(n));
    StreamRun(s, c, st, n + SCANLINES);
    StreamRun(s, c, st, n);
    StreamSrc(Run(s, n), c, StreamAfter(st, Transfers(n)));
    StreamSrc(Run(s, n + SCANLINES), c, StreamAfter(st, Transfers(n + SCANLINES)));
    StreamAfterFields(st, Transfers(n));
    StreamAfterFields(st, Transfers(n + SCANLINES));
  }

  lemma OneTurnOn(n: nat)
    ensures Transfers(n + SCANLINES) == Transfers(n) + SCREEN_HEIGHT && (n + SCANLINES) % SCANLINES == n % SCANLINES
  {
    DivUnique(n + SCANLINES, SCANLINES, n / SCANLINES + 1, n % SCANLINES);
  }

  lemma StreamSrc(s: Video, c: nat, st: Stream)
    requires Streams(s, c, st)
    ensures s.Valid() && |s.dma.channels| == 4 && c < 4 && s.dma.channels[c].src == st.src
  {
    hide Stream.Valid, Streaming, ControlReg, Quiet, SameBuffers;
  }
}
