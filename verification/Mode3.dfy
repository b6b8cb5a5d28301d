/** Mode 3: a 240x160 bitmap of 15-bit colours seen through the BG2 affine matrix of each line. */
module Mode3 {
  import opened Words
  import opened Bits
  import opened Wrappers
  import opened Memory
  import opened Ppu

  datatype Rgb = Rgb(r: nat, g: nat, b: nat)

  /** `(c << 3) | (c >> 2)` for a five-bit component. */
  function C5to8(c: nat): nat {
    8 * c + c / 4
  }

  function ColorOf(v: half): Rgb {
    Rgb(C5to8(v % 0x20), C5to8(v / 0x20 % 0x20), C5to8(v / 0x400 % 0x20))
  }

  /** Component `c` holds bits `n` to `n + 4` of `v` in its top five bits, and its low three bits repeat
      its top three. */
  predicate Widened(c: nat, v: nat, n: nat) {
    && c < 0x100 && (forall k: nat :: k < 5 ==> TopBit5(c, v, n, k)) && (forall k: nat :: k < 3 ==> Repeats(c, k))
  }

  predicate TopBit5(c: nat, v: nat, n: nat, k: nat) {
    Bit(c, 3 + k) <==> Bit(v, n + k)
  }

  predicate Repeats(c: nat, k: nat) {
    Bit(c, k) <==> Bit(c, 5 + k)
  }

  /** The colour in two bytes: five bits each of red, green and blue, from the low end up. */
  predicate IsColour(c: Rgb, lo: byte, hi: byte) {
    var v := lo + 0x100 * hi;
    Widened(c.r, v, 0) && Widened(c.g, v, 5) && Widened(c.b, v, 10)
  }

  /** A component widened to eight bits. */
  lemma ComponentBits(c: nat, k: nat)
    requires c < 0x20
    ensures C5to8(c) < 0x100
    ensures Bit(C5to8(c), 3 + k) <==> Bit(c, k)
    ensures k < 3 ==> (Bit(C5to8(c), k) <==> Bit(C5to8(c), 5 + k))
  {
    var x := C5to8(c);
    assert Pow2(3) == 8 && Pow2(2) == 4 && x / 8 == c && x % 8 == c / 4;
    ShrIsDiv(x, 3);
    ShrIsDiv(c, 2);
    BitOfShr(x, 3, k);
    BitOfShr(x, 3, 2 + k);
    BitBelow(x, 3, k);
    BitOfShr(c, 2, k);
  }

  lemma FieldBit(v: nat, n: nat, k: nat)
    requires k < 5
    ensures Bit(Shr(v, n) % 0x20, k) <==> Bit(v, n + k)
  {
    assert Pow2(5) == 0x20;
    hide Bit, Pow2;
    BitBelow(Shr(v, n), 5, k);
    BitOfShr(v, n, k);
  }

  lemma ComponentWidened(c: nat, v: nat, n: nat)
    requires c < 0x20 && forall k: nat :: k < 5 ==> (Bit(c, k) <==> Bit(v, n + k))
    ensures Widened(C5to8(c), v, n)
  {
    hide C5to8, Bit;
    ComponentBits(c, 0);
    forall k: nat | k < 5
      ensures TopBit5(C5to8(c), v, n, k)
    {
      ComponentBits(c, k);
    }
    forall k: nat | k < 3
      ensures Repeats(C5to8(c), k)
    {
      ComponentBits(c, k);
    }
  }

  lemma FieldWidened(v: nat, n: nat)
    ensures Widened(C5to8(Shr(v, n) % 0x20), v, n)
  {
    hide C5to8, Bit, Pow2, Widened;
    forall k: nat | k < 5
      ensures Bit(Shr(v, n) % 0x20, k) <==> Bit(v, n + k)
    {
      FieldBit(v, n, k);
    }
    ComponentWidened(Shr(v, n) % 0x20, v, n);
  }

  lemma ColorMeans(lo: byte, hi: byte)
    ensures IsColour(ColorOf(Pack2(lo, hi)), lo, hi)
  {
    var v := lo + 0x100 * hi;
    assert Pow2(0) == 1 && Pow2(5) == 0x20 && Pow2(10) == 0x400;
    hide C5to8, Widened, Shr, Pow2;
    ShrIsDiv(v, 0);
    ShrIsDiv(v, 5);
    ShrIsDiv(v, 10);
    FieldWidened(v, 0);
    FieldWidened(v, 5);
    FieldWidened(v, 10);
  }

  // ----- what the screen shows -----

  /** The first byte of a frame page in VRAM. */
  function PageStart(page: nat): nat {
    if page == 0 then 0 else 0xA000
  }

  const FRAME_BYTES := SCREEN_WIDTH * SCREEN_HEIGHT * 2

  /** The bitmap: as much of a frame as VRAM holds from the page on. */
  function Bitmap(m: MemState, page: nat): seq<byte> {
    var start := PageStart(page);
    m.vram[start..if start + FRAME_BYTES < VRAM_SIZE then start + FRAME_BYTES else VRAM_SIZE]
  }

  function Backdrop(m: MemState): Rgb {
    ColorOf(Pack2(m.palette[0], m.palette[1]))
  }

  /** What a rendering reads besides the bitmap: the snapshots, and the parameters as they now are for
      the lines without one. */
  datatype Scene = Scene(bitmap: seq<byte>, backdrop: Rgb, snapshots: seq<Option<Affine>>, live: Affine) {
    /** A line's own parameters, if it was latched. */
    function Line(y: nat): (a: Affine)
      ensures y < |snapshots| ==> match snapshots[y] case Some(own) => a == own case None => a == live
    {
      if y < |snapshots| && snapshots[y].Some? then snapshots[y].value else live
    }
  }

  /** The reference point moved down to line `y`: line 0's, plus the per-line steps of the lines above. */
  function RefX(s: Scene, y: nat): int {
    if y == 0 then s.Line(0).refx else RefX(s, y - 1) + s.Line(y - 1).dmx
  }

  function RefY(s: Scene, y: nat): int {
    if y == 0 then s.Line(0).refy else RefY(s, y - 1) + s.Line(y - 1).dmy
  }

  /** A bitmap coordinate: the integer part of a 24.8 number. */
  function TexX(s: Scene, px: nat, y: nat): int {
    (RefX(s, y) + px * s.Line(y).dx) / 0x100
  }

  function TexY(s: Scene, px: nat, y: nat): int {
    (RefY(s, y) + px * s.Line(y).dy) / 0x100
  }

  datatype Pixel = Pixel(color: Rgb, layer: nat)

  /** The bitmap pixel at a texture coordinate, or the backdrop where there is none. */
  function Sample(s: Scene, tx: int, ty: int, overflow: bool): Pixel {
    var u := if overflow then tx % SCREEN_WIDTH else tx;
    var v := if overflow then ty % SCREEN_HEIGHT else ty;
    if 0 <= u < SCREEN_WIDTH && 0 <= v < SCREEN_HEIGHT && 2 * (u + v * SCREEN_WIDTH) + 1 < |s.bitmap| then
      var offset := 2 * (u + v * SCREEN_WIDTH);
      Pixel(ColorOf(Pack2(s.bitmap[offset], s.bitmap[offset + 1])), 2)
    else Pixel(s.backdrop, 0)
  }

  /** The pixel on the screen, in closed form. */
  function Shown(s: Scene, px: nat, y: nat): Pixel {
    Sample(s, TexX(s, px, y), TexY(s, px, y), s.Line(y).overflow)
  }

  /** The same along a line, the coordinates growing by one increment a pixel. */
  lemma ShownAlong(s: Scene, px: nat, y: nat, sx: int, sy: int)
    requires sx == RefX(s, y) && sy == RefY(s, y)
    ensures var a := s.Line(y);
            Shown(s, px, y) == Sample(s, (sx + px * a.dx) / 0x100, (sy + px * a.dy) / 0x100, a.overflow)
  {
    hide RefX, RefY, Sample;
  }

  /** What a pixel has to be: the colour of its texel's two bytes in VRAM, `x` and `y` being the texture
      coordinates in units of 1/256, or the colour of the first palette entry where the texel is off
      the frame or behind the end of VRAM. */
  predicate PixelRight(m: MemState, page: nat, overflow: bool, x: int, y: int, p: Pixel) {
    var u := if overflow then x / 0x100 % 240 else x / 0x100;
    var v := if overflow then y / 0x100 % 160 else y / 0x100;
    var i := (if page == 0 then 0 else 0xA000) + 2 * (u + 240 * v);
    if 0 <= u < 240 && 0 <= v < 160 && i + 1 < 0x1_8000 then p.layer == 2 && IsColour(p.color, m.vram[i], m.vram[i + 1])
    else p.layer == 0 && IsColour(p.color, m.palette[0], m.palette[1])
  }

  lemma SampleRight(m: MemState, page: nat, s: Scene, x: int, y: int, overflow: bool)
    requires s.bitmap == Bitmap(m, page) && s.backdrop == Backdrop(m)
    ensures PixelRight(m, page, overflow, x, y, Sample(s, x / 0x100, y / 0x100, overflow))
  {
    hide ColorOf, IsColour;
    ColorMeans(m.palette[0], m.palette[1]);
    var u := if overflow then x / 0x100 % 240 else x / 0x100;
    var v := if overflow then y / 0x100 % 160 else y / 0x100;
    var i := (if page == 0 then 0 else 0xA000) + 2 * (u + 240 * v);
    if 0 <= u < 240 && 0 <= v < 160 && i + 1 < 0x1_8000 {
      ColorMeans(m.vram[i], m.vram[i + 1]);
    }
  }

  lemma ShownRight(m: MemState, page: nat, s: Scene, px: nat, y: nat)
    requires s.bitmap == Bitmap(m, page) && s.backdrop == Backdrop(m)
    ensures var a := s.Line(y);
            PixelRight(m, page, a.overflow, RefX(s, y) + px * a.dx, RefY(s, y) + px * a.dy, Shown(s, px, y))
  {
    hide RefX, RefY, Sample, PixelRight;
    var a := s.Line(y);
    SampleRight(m, page, s, RefX(s, y) + px * a.dx, RefY(s, y) + px * a.dy, a.overflow);
  }

  lemma PageBuffer(m: MemState, page: nat)
    ensures BufferFor(m, if page == 0 then 0x0600_0000 else 0x0600_A000) == Slice(m.vram, PageStart(page))
  {
  }

  // ----- the renderer -----

  class Renderer {
    const ppu: PPU
    const framebuffer: array2<Rgb>
    const layerOrigin: array2<nat>
    var displayFrameSelect: nat

    ghost predicate Valid()
      reads this, ppu, ppu.dma.channels
    {
      && ppu.Valid()
      && framebuffer.Length0 == SCREEN_HEIGHT && framebuffer.Length1 == SCREEN_WIDTH
      && layerOrigin.Length0 == SCREEN_HEIGHT && layerOrigin.Length1 == SCREEN_WIDTH
    }

    ghost function CurrentScene(): Scene
      requires Valid()
      reads this, ppu, ppu.dma.channels, ppu.memory, ppu.memory.Arrays
    {
      var m := ppu.memory.State();
      Scene(Bitmap(m, displayFrameSelect), Backdrop(m), ppu.snapshots, ReadAffine(m.affine, ppu.bg2Affine))
    }

    constructor (ppu: PPU)
      requires ppu.Valid()
      ensures Valid() && this.ppu == ppu && displayFrameSelect == 0
      ensures fresh(framebuffer) && fresh(layerOrigin)
    {
      this.ppu := ppu;
      framebuffer := new Rgb[SCREEN_HEIGHT, SCREEN_WIDTH]((_, _) => Rgb(0, 0, 0));
      layerOrigin := new nat[SCREEN_HEIGHT, SCREEN_WIDTH]((_, _) => 0);
      displayFrameSelect := 0;
    }

    /** Row `y` of the frame is as the scene says. */
    ghost predicate RowShown(s: Scene, y: nat)
      requires Valid() && y < SCREEN_HEIGHT
      reads this, ppu, ppu.dma.channels, framebuffer, layerOrigin
    {
      forall px :: 0 <= px < SCREEN_WIDTH ==> Pixel(framebuffer[y, px], layerOrigin[y, px]) == Shown(s, px, y)
    }

    /** The background pass of `_render_mode3`, windows off. */
    method RenderMode3()
      requires Valid()
      modifies framebuffer, layerOrigin
      ensures Valid() && CurrentScene() == old(CurrentScene())
      ensures forall y :: 0 <= y < SCREEN_HEIGHT ==> RowShown(CurrentScene(), y) && RowRight(y)
    {
      hide Memory.State, Bitmap, Backdrop, ReadAffine, Shown, PPU.Valid, RowShown;
      var scene := ReadScene();
      var sx, sy := scene.Line(0).refx, scene.Line(0).refy;
      for y := 0 to SCREEN_HEIGHT
        invariant Valid() && CurrentScene() == old(CurrentScene())
        invariant sx == RefX(scene, y) && sy == RefY(scene, y)
        invariant forall j :: 0 <= j < y ==> RowShown(scene, j)
      {
        var a := scene.Line(y);
        RenderLine(scene, y, sx, sy);
        sx := sx + a.dmx;
        sy := sy + a.dmy;
      }
      RowsRight();
    }

    /** Row `y` of the frame in terms of VRAM, the palette and the line's parameters. */
    ghost predicate RowRight(y: nat)
      requires Valid() && y < SCREEN_HEIGHT
      reads this, ppu, ppu.dma.channels, ppu.memory, ppu.memory.Arrays, framebuffer, layerOrigin
    {
      var s := CurrentScene();
      var a := s.Line(y);
      forall px :: 0 <= px < SCREEN_WIDTH ==>
        PixelRight(ppu.memory.State(), displayFrameSelect, a.overflow, RefX(s, y) + px * a.dx, RefY(s, y) + px * a.dy,
                   Pixel(framebuffer[y, px], layerOrigin[y, px]))
    }

    lemma RowsRight()
      requires Valid() && forall y :: 0 <= y < SCREEN_HEIGHT ==> RowShown(CurrentScene(), y)
      ensures forall y :: 0 <= y < SCREEN_HEIGHT ==> RowRight(y)
    {
      hide Memory.State, Memory.Valid, Bitmap, Backdrop, ReadAffine, Shown, PixelRight, RefX, RefY;
      var s := CurrentScene();
      forall y, px | 0 <= y < SCREEN_HEIGHT && 0 <= px < SCREEN_WIDTH
        ensures var a := s.Line(y);
                PixelRight(ppu.memory.State(), displayFrameSelect, a.overflow, RefX(s, y) + px * a.dx,
                  RefY(s, y) + px * a.dy, Pixel(framebuffer[y, px], layerOrigin[y, px]))
      {
        assert RowShown(s, y);
        ShownRight(ppu.memory.State(), displayFrameSelect, s, px, y);
      }
    }

    /** The page, the backdrop and the parameters, fetched once for the frame. */
    method ReadScene() returns (scene: Scene)
      requires Valid()
      ensures scene == CurrentScene() == old(CurrentScene())
    {
      var vramBase := if displayFrameSelect == 0 then 0x0600_0000 else 0x0600_A000;
      PageBuffer(ppu.memory.State(), displayFrameSelect);
      hide BufferFor, ReadAffine, ColorOf;
      var s := ppu.memory.BufferForAddr(vramBase);
      var stop := if s.start + FRAME_BYTES < |s.buffer| then s.start + FRAME_BYTES else |s.buffer|;
      var palette := ppu.memory.palette;
      var live := ppu.ReadAffineBg2Params();
      scene := Scene(s.buffer[s.start..stop], ColorOf(Pack2(palette[0], palette[1])), ppu.snapshots, live);
    }

    /** One line, walking the texture coordinates along. */
    method RenderLine(scene: Scene, y: nat, sx: int, sy: int)
      requires Valid() && y < SCREEN_HEIGHT
      requires sx == RefX(scene, y) && sy == RefY(scene, y)
      modifies framebuffer, layerOrigin
      ensures Valid() && RowShown(scene, y)
      ensures forall j :: 0 <= j < SCREEN_HEIGHT && j != y && old(RowShown(scene, j)) ==> RowShown(scene, j)
    {
      hide RefX, RefY, ColorOf, PPU.Valid, Shown, TexX, TexY;
      var a := scene.Line(y);
      var x, yCoord := sx - a.dx, sy - a.dy;
      for px := 0 to SCREEN_WIDTH
        invariant x == sx + px * a.dx - a.dx && yCoord == sy + px * a.dy - a.dy
        invariant forall q :: 0 <= q < px ==>
                    Pixel(framebuffer[y, q], layerOrigin[y, q]) == Shown(scene, q, y)
        invariant forall j, q :: 0 <= j < SCREEN_HEIGHT && 0 <= q < SCREEN_WIDTH && j != y ==>
                    framebuffer[j, q] == old(framebuffer[j, q]) && layerOrigin[j, q] == old(layerOrigin[j, q])
      {
        x := x + a.dx;
        yCoord := yCoord + a.dy;
        assert (px + 1) * a.dx == px * a.dx + a.dx && (px + 1) * a.dy == px * a.dy + a.dy;
        var tx, ty := x / 0x100, yCoord / 0x100;
        ShownAlong(scene, px, y, sx, sy);
        if a.overflow {
          tx := tx % SCREEN_WIDTH;
          ty := ty % SCREEN_HEIGHT;
        } else if tx < 0 || ty < 0 || tx >= SCREEN_WIDTH || ty >= SCREEN_HEIGHT {
          framebuffer[y, px] := scene.backdrop;
          layerOrigin[y, px] := 0;
          continue;
        }
        var offset := (tx + ty * SCREEN_WIDTH) * 2;
        if offset + 1 < |scene.bitmap| {
          framebuffer[y, px] := ColorOf(Pack2(scene.bitmap[offset], scene.bitmap[offset + 1]));
          layerOrigin[y, px] := 2;
        } else {
          framebuffer[y, px] := scene.backdrop;
          layerOrigin[y, px] := 0;
        }
      }
    }
  }

  // ----- what follows from the closed form -----

  /** On page 0 every texel of the frame is there; on page 1 just those before the end of VRAM. */
  lemma TexelPresentIff(m: MemState, page: nat, u: nat, v: nat)
    requires u < SCREEN_WIDTH && v < SCREEN_HEIGHT
    ensures 2 * (u + v * SCREEN_WIDTH) + 1 < |Bitmap(m, page)| <==> page == 0 || u + v * SCREEN_WIDTH < 28672
  {
  }

  predicate Identity(a: Affine) {
    a.dx == 0x100 && a.dmx == 0 && a.dy == 0 && a.dmy == 0x100
  }

  lemma {:induction false} IdentityRefs(s: Scene, y: nat)
    requires forall j :: 0 <= j < SCREEN_HEIGHT ==> Identity(s.Line(j))
    requires s.Line(0).refx == 0 && s.Line(0).refy == 0 && y < SCREEN_HEIGHT
    ensures RefX(s, y) == 0 && RefY(s, y) == 0x100 * y
  {
    if y > 0 {
      IdentityRefs(s, y - 1);
      assert Identity(s.Line(y - 1));
    }
  }

  /** With the identity matrix on every line, page 0 is shown as it is, with or without wrap-around. */
  lemma IdentityShowsBitmap(m: MemState, s: Scene, px: nat, y: nat)
    requires px < SCREEN_WIDTH && y < SCREEN_HEIGHT
    requires s.bitmap == Bitmap(m, 0)
    requires forall j :: 0 <= j < SCREEN_HEIGHT ==> Identity(s.Line(j))
    requires s.Line(0).refx == 0 && s.Line(0).refy == 0
    ensures var i := 2 * (px + y * SCREEN_WIDTH);
            i + 1 < VRAM_SIZE && Shown(s, px, y).layer == 2 && IsColour(Shown(s, px, y).color, m.vram[i], m.vram[i + 1])
  {
    hide ColorOf, IsColour;
    IdentityRefs(s, y);
    assert Identity(s.Line(y));
    assert TexX(s, px, y) == px && TexY(s, px, y) == y;
    TexelPresentIff(m, 0, px, y);
    var i := 2 * (px + y * SCREEN_WIDTH);
    ColorMeans(m.vram[i], m.vram[i + 1]);
  }

  function Total(xs: seq<int>): int {
    if xs == [] then 0 else Total(xs[..|xs| - 1]) + xs[|xs| - 1]
  }

  /** The reference point of a line: that of line 0, moved by the second column of every matrix above. */
  lemma {:induction false} RefsMean(s: Scene, y: nat)
    ensures RefX(s, y) == s.Line(0).refx + Total(seq(y, j requires 0 <= j < y => s.Line(j).dmx))
    ensures RefY(s, y) == s.Line(0).refy + Total(seq(y, j requires 0 <= j < y => s.Line(j).dmy))
  {
    if y > 0 {
      RefsMean(s, y - 1);
      var n := y - 1;
      var xs, ys := seq(y, j requires 0 <= j < y => s.Line(j).dmx), seq(y, j requires 0 <= j < y => s.Line(j).dmy);
      assert xs[..n] == seq(n, j requires 0 <= j < n => s.Line(j).dmx);
      assert ys[..n] == seq(n, j requires 0 <= j < n => s.Line(j).dmy);
    }
  }

  /** With one matrix for the whole frame the texture coordinates are the affine map of the pixel. */
  lemma ConstantMatrix(s: Scene, px: nat, y: nat, a: Affine)
    requires y < SCREEN_HEIGHT && forall j :: 0 <= j < SCREEN_HEIGHT ==> s.Line(j) == a
    ensures TexX(s, px, y) == (a.refx + y * a.dmx + px * a.dx) / 0x100
    ensures TexY(s, px, y) == (a.refy + y * a.dmy + px * a.dy) / 0x100
  {
    ConstantRefs(s, y, a);
  }

  lemma {:induction false} ConstantRefs(s: Scene, y: nat, a: Affine)
    requires y < SCREEN_HEIGHT && forall j :: 0 <= j < SCREEN_HEIGHT ==> s.Line(j) == a
    ensures RefX(s, y) == a.refx + y * a.dmx && RefY(s, y) == a.refy + y * a.dmy
  {
    if y > 0 {
      ConstantRefs(s, y - 1, a);
      assert (y - 1) * a.dmx + a.dmx == y * a.dmx && (y - 1) * a.dmy + a.dmy == y * a.dmy;
    }
  }

  /** Without wrap-around a pixel shows the backdrop just where its texel lies off the bitmap. */
  lemma BackdropIff(m: MemState, page: nat, s: Scene, px: nat, y: nat)
    requires s.bitmap == Bitmap(m, page) && !s.Line(y).overflow
    ensures Shown(s, px, y).layer == 0
            <==> !(0 <= TexX(s, px, y) < SCREEN_WIDTH && 0 <= TexY(s, px, y) < SCREEN_HEIGHT
                   && (page == 0 || TexX(s, px, y) + TexY(s, px, y) * SCREEN_WIDTH < 28672))
    ensures Shown(s, px, y).layer == 0 ==> Shown(s, px, y).color == s.backdrop
    ensures s.backdrop == Backdrop(m) ==> IsColour(s.backdrop, m.palette[0], m.palette[1])
  {
    ColorMeans(m.palette[0], m.palette[1]);
    hide ColorOf, TexX, TexY, Bitmap, IsColour;
    var u, v := TexX(s, px, y), TexY(s, px, y);
    if 0 <= u < SCREEN_WIDTH && 0 <= v < SCREEN_HEIGHT {
      TexelPresentIff(m, page, u, v);
    }
  }

  /** With wrap-around, a whole screen further is the same place. */
  lemma WrapsAround(s: Scene, tx: int, ty: int, i: int, j: int)
    ensures Sample(s, tx + i * SCREEN_WIDTH, ty + j * SCREEN_HEIGHT, true) == Sample(s, tx, ty, true)
  {
    assert (tx + i * SCREEN_WIDTH) % SCREEN_WIDTH == tx % SCREEN_WIDTH;
    assert (ty + j * SCREEN_HEIGHT) % SCREEN_HEIGHT == ty % SCREEN_HEIGHT;
    hide ColorOf;
  }
}
