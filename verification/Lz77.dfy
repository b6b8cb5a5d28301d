/** LZ77 decompression (`BIOS.swi_lz77_uncomp`), from the fetched source bytes to the output. */
module Lz77 {
  import opened Words

  // ----- the format: tokens, what they mean, and how they are written down -----

  /** A literal byte, or a copy of `length + 3` bytes from `distance + 4` bytes back. */
  datatype Token = Literal(b: byte) | Copy(distance: nat, length: nat) {
    predicate Valid() {
      Copy? ==> distance < 0x1000 && length < 0x10
    }
    function Bytes(): seq<byte>
      requires Valid()
    {
      match this
      case Literal(b) => [b]
      case Copy(d, l) => [(0x10 * d + l) % 0x100, (0x10 * d + l) / 0x100]
    }
  }

  type Tokens = ts: seq<Token> | forall i :: 0 <= i < |ts| ==> ts[i].Valid()

  /** The byte `back + 1` places before the end, or zero before the beginning. */
  function ByteBack(out: seq<byte>, back: nat): byte {
    if back + 1 <= |out| then out[|out| - back - 1] else 0
  }

  /** Copying is byte by byte, so a copy may read what it has just written. */
  function CopyBytes(out: seq<byte>, back: nat, n: nat): seq<byte>
    decreases n
  {
    if n == 0 then out else CopyBytes(out + [ByteBack(out, back)], back, n - 1)
  }

  function Apply(out: seq<byte>, t: Token): seq<byte> {
    match t
    case Literal(b) => out + [b]
    case Copy(d, l) => CopyBytes(out, d + 3, l + 3)
  }

  function Expand(out: seq<byte>, ts: seq<Token>): seq<byte>
    decreases |ts|
  {
    if ts == [] then out else Expand(Apply(out, ts[0]), ts[1..])
  }

  /** The flag bits of a group, the first token's at bit `k`. */
  function Flags(g: seq<Token>, k: nat): nat
    requires |g| <= k + 1
  {
    if g == [] then 0
    else (if g[0].Copy? then Pow2(k) else 0) + if |g| == 1 then 0 else Flags(g[1..], k - 1)
  }

  function GroupBytes(g: Tokens): seq<byte> {
    if g == [] then [] else g[0].Bytes() + GroupBytes(g[1..])
  }

  lemma FlagsFit(g: seq<Token>, k: nat)
    requires |g| <= k + 1
    ensures Flags(g, k) < Pow2(k + 1)
  {
    if |g| > 1 { FlagsFit(g[1..], k - 1); }
  }

  function FlagByte(g: seq<Token>): byte
    requires |g| <= 8
  {
    FlagsFit(g, 7);
    assert Pow2(8) == 0x100;
    Flags(g, 7)
  }

  /** Tokens in groups of eight, each behind its flag byte. */
  function Serialize(ts: Tokens): seq<byte>
    decreases |ts|
  {
    if ts == [] then []
    else
      var n := if |ts| < 8 then |ts| else 8;
      [FlagByte(ts[..n])] + GroupBytes(ts[..n]) + Serialize(ts[n..])
  }

  function Header(size: word, padding: (byte, byte, byte)): seq<byte> {
    [0x10, ByteOf(size, 0), ByteOf(size, 1), ByteOf(size, 2), ByteOf(size, 3), padding.0, padding.1, padding.2]
  }

  // ----- the decompressor -----

  datatype Progress = Progress(pos: nat, dst: seq<byte>)

  /** A copy that stops when the output is full. */
  function CopyUpTo(dst: seq<byte>, back: nat, n: nat, size: nat): (r: seq<byte>)
    ensures |dst| <= |r| && (|dst| <= size ==> |r| <= size)
    decreases n
  {
    if n == 0 || |dst| >= size then dst
    else CopyUpTo(dst + [ByteBack(dst, back)], back, n - 1, size)
  }

  /** The bits of one flag byte from the `i`-th on; the next one to be looked at is bit 7. */
  function DecodeGroup(src: seq<byte>, p: Progress, flags: byte, i: nat, size: nat): (r: Progress)
    requires i <= 8 && p.pos <= |src|
    ensures p.pos <= r.pos <= |src|
    ensures |p.dst| <= |r.dst| && (|p.dst| <= size ==> |r.dst| <= size)
    decreases 8 - i
  {
    if i == 8 || |p.dst| >= size then p
    else if flags >= 0x80 then
      if p.pos + 1 >= |src| then p
      else
        var pair := Pack2(src[p.pos], src[p.pos + 1]);
        var dst := CopyUpTo(p.dst, pair / 0x10 + 3, pair % 0x10 + 3, size);
        DecodeGroup(src, Progress(p.pos + 2, dst), Shl8(flags), i + 1, size)
    else
      var q := if p.pos < |src| then Progress(p.pos + 1, p.dst + [src[p.pos]]) else p;
      DecodeGroup(src, q, Shl8(flags), i + 1, size)
  }

  function DecodeFrom(src: seq<byte>, p: Progress, size: nat): (r: seq<byte>)
    requires p.pos <= |src|
    ensures |p.dst| <= |r| && (|p.dst| <= size ==> |r| <= size)
    decreases |src| - p.pos
  {
    if |p.dst| >= size || p.pos >= |src| then p.dst
    else DecodeFrom(src, DecodeGroup(src, Progress(p.pos + 1, p.dst), src[p.pos], 0, size), size)
  }

  predicate HasHeader(src: seq<byte>) {
    |src| >= 8 && src[0] == 0x10
  }

  function DeclaredSize(src: seq<byte>): word
    requires HasHeader(src)
  {
    Pack4(src[1], src[2], src[3], src[4])
  }

  function Output(src: seq<byte>): (r: seq<byte>)
    ensures HasHeader(src) ==> |r| <= DeclaredSize(src)
    ensures !HasHeader(src) ==> r == []
  {
    if HasHeader(src) then DecodeFrom(src, Progress(8, []), DeclaredSize(src)) else []
  }

  /** The loops of `swi_lz77_uncomp`. */
  method Uncompress(src: seq<byte>) returns (dst: seq<byte>)
    ensures dst == Output(src)
  {
    hide DecodeGroup;
    dst := [];
    if |src| < 8 || src[0] != 0x10 {
      return;
    }
    var expandedSize := Pack4(src[1], src[2], src[3], src[4]);
    var srcPos := 8;
    while |dst| < expandedSize && srcPos < |src|
      invariant srcPos <= |src|
      invariant DecodeFrom(src, Progress(srcPos, dst), expandedSize) == Output(src)
      decreases |src| - srcPos
    {
      srcPos, dst := BitLoop(src, srcPos + 1, dst, src[srcPos], expandedSize);
    }
  }

  /** The loop over the bits of one flag byte. */
  method BitLoop(src: seq<byte>, pos0: nat, dst0: seq<byte>, flags0: byte, size: nat) returns (pos: nat, dst: seq<byte>)
    requires pos0 <= |src|
    ensures Progress(pos, dst) == DecodeGroup(src, Progress(pos0, dst0), flags0, 0, size)
  {
    hide DecodeGroup;
    pos, dst := pos0, dst0;
    var flags := flags0;
    var i := 0;
    while i < 8
      invariant i <= 8 && pos <= |src|
      invariant DecodeGroup(src, Progress(pos, dst), flags, i, size)
                == DecodeGroup(src, Progress(pos0, dst0), flags0, 0, size)
    {
      if |dst| >= size {
        break;
      }
      if flags >= 0x80 {
        if pos + 1 >= |src| {
          break;
        }
        var pair := Pack2(src[pos], src[pos + 1]);
        CopyStep(src, pos, dst, flags, i, size, pair / 0x10, pair % 0x10);
        pos := pos + 2;
        dst := CopyLoop(dst, pair / 0x10 + 3, pair % 0x10 + 3, size);
      } else if pos < |src| {
        LiteralStep(src, pos, dst, flags, i, size);
        dst := dst + [src[pos]];
        pos := pos + 1;
      } else {
        SkipStep(src, dst, flags, i, size);
      }
      flags := Shl8(flags);
      i := i + 1;
    }
    GroupStops(src, pos, dst, flags, i, size);
  }

  // The four ways through the loop body, and its exits.

  lemma LiteralStep(src: seq<byte>, pos: nat, dst: seq<byte>, flags: byte, i: nat, size: nat)
    requires i < 8 && pos < |src| && |dst| < size && flags < 0x80
    ensures DecodeGroup(src, Progress(pos, dst), flags, i, size)
            == DecodeGroup(src, Progress(pos + 1, dst + [src[pos]]), Shl8(flags), i + 1, size)
  {
  }

  lemma SkipStep(src: seq<byte>, dst: seq<byte>, flags: byte, i: nat, size: nat)
    requires i < 8 && |dst| < size && flags < 0x80
    ensures DecodeGroup(src, Progress(|src|, dst), flags, i, size)
            == DecodeGroup(src, Progress(|src|, dst), Shl8(flags), i + 1, size)
  {
  }

  lemma CopyStep(src: seq<byte>, pos: nat, dst: seq<byte>, flags: byte, i: nat, size: nat, d: nat, l: nat)
    requires i < 8 && pos + 1 < |src| && |dst| < size && flags >= 0x80
    requires Pack2(src[pos], src[pos + 1]) == 0x10 * d + l && l < 0x10
    ensures DecodeGroup(src, Progress(pos, dst), flags, i, size)
            == DecodeGroup(src, Progress(pos + 2, CopyUpTo(dst, d + 3, l + 3, size)), Shl8(flags), i + 1, size)
  {
    hide CopyUpTo;
  }

  lemma GroupStops(src: seq<byte>, pos: nat, dst: seq<byte>, flags: byte, i: nat, size: nat)
    requires i <= 8 && pos <= |src|
    requires i == 8 || |dst| >= size || (flags >= 0x80 && pos + 1 >= |src|)
    ensures DecodeGroup(src, Progress(pos, dst), flags, i, size) == Progress(pos, dst)
  {
  }

  /** The innermost loop. */
  method CopyLoop(dst0: seq<byte>, back: nat, count: nat, size: nat) returns (dst: seq<byte>)
    ensures dst == CopyUpTo(dst0, back, count, size)
  {
    dst := dst0;
    var j := 0;
    while j < count
      invariant j <= count
      invariant CopyUpTo(dst, back, count - j, size) == CopyUpTo(dst0, back, count, size)
    {
      if |dst| >= size {
        break;
      }
      var idx := |dst| - back - 1;
      if 0 <= idx < |dst| {
        dst := dst + [dst[idx]];
      } else {
        dst := dst + [0];
      }
      j := j + 1;
    }
  }

  // ----- copies -----

  /** `r` is `out` continued so that each further byte repeats the one `back + 1` places before
      it: the last `back + 1` bytes over and over, or zeros where that lies before the beginning. */
  predicate Repeats(out: seq<byte>, back: nat, r: seq<byte>) {
    && |out| <= |r| && r[..|out|] == out
    && forall p :: |out| <= p < |r| ==> r[p] == ByteBack(r[..p], back)
  }

  /** A copy appends its number of bytes, each the byte `back + 1` places before it. */
  lemma {:induction false} CopyRepeats(out: seq<byte>, back: nat, n: nat)
    ensures |CopyBytes(out, back, n)| == |out| + n && Repeats(out, back, CopyBytes(out, back, n))
    decreases n
  {
    if n > 0 {
      var next := out + [ByteBack(out, back)];
      CopyRepeats(next, back, n - 1);
      var r := CopyBytes(next, back, n - 1);
      assert r[..|out|] == r[..|next|][..|out|] == out;
      assert r[|out|] == r[..|next|][|out|];
    }
  }

  function Cut(s: seq<byte>, size: nat): seq<byte> {
    if |s| <= size then s else s[..size]
  }

  /** Cutting as one copies is copying and then cutting. */
  lemma {:induction false} CopyCut(out: seq<byte>, back: nat, n: nat, size: nat)
    ensures CopyUpTo(Cut(out, size), back, n, size) == Cut(CopyBytes(out, back, n), size)
    decreases n
  {
    CopyRepeats(out, back, n);
    if n > 0 && |out| < size {
      CopyCut(out + [ByteBack(out, back)], back, n - 1, size);
    }
  }

  lemma {:induction false} ExpandGrows(out: seq<byte>, ts: seq<Token>)
    ensures |out| <= |Expand(out, ts)| && Expand(out, ts)[..|out|] == out
    decreases |ts|
  {
    if ts != [] {
      var next := Apply(out, ts[0]);
      if ts[0].Copy? {
        CopyRepeats(out, ts[0].distance + 3, ts[0].length + 3);
      }
      ExpandGrows(next, ts[1..]);
      assert Expand(out, ts)[..|out|] == Expand(next, ts[1..])[..|next|][..|out|];
    }
  }

  // ----- decompressing what was serialised -----

  lemma {:induction false} FlagsShift(g: seq<Token>, k: nat)
    requires |g| <= k + 1
    ensures Flags(g, k + 1) == 2 * Flags(g, k)
  {
    if |g| > 1 { FlagsShift(g[1..], k - 1); }
  }

  /** The flag byte of a group, and of the group without its first token. */
  lemma FlagStep(g: seq<Token>)
    requires 0 < |g| <= 8
    ensures FlagByte(g) >= 0x80 <==> g[0].Copy?
    ensures Shl8(FlagByte(g)) == FlagByte(g[1..])
  {
    assert Pow2(7) == 0x80;
    if |g| > 1 {
      FlagsFit(g[1..], 6);
      FlagsShift(g[1..], 6);
    }
  }

  /** A group decodes to its tokens' meaning, unless the output fills up on the way. */
  lemma {:induction false} GroupDecodes(src: seq<byte>, pos: nat, full: seq<byte>, g: Tokens, i: nat, size: nat,
      rest: seq<byte>)
    requires i + |g| <= 8 && pos <= |src| && src[pos..] == GroupBytes(g) + rest
    requires i + |g| == 8 || rest == [] || size <= |Expand(full, g)|
    ensures var r := DecodeGroup(src, Progress(pos, Cut(full, size)), FlagByte(g), i, size);
            && r.dst == Cut(Expand(full, g), size)
            && (|Expand(full, g)| < size ==> r.pos == pos + |GroupBytes(g)|)
    decreases 8 - i
  {
    hide *;
    if |full| >= size || (i == 8 && g == []) {
      GroupFull(src, pos, full, g, i, size);
    } else if g == [] {
      PaddingDecodes(src, full, i, size);
      CutShort(full, size);
      assert rest == [] && src[pos..] == [];
    } else {
      TokenDecodes(src, pos, full, g, i, size, rest);
      GroupTail(src, pos, g, rest);
      FirstToken(full, g);
      CutShort(full, size);
      GroupDecodes(src, pos + |g[0].Bytes()|, Apply(full, g[0]), g[1..], i + 1, size, rest);
    }
  }

  lemma FirstToken(full: seq<byte>, g: Tokens)
    requires g != []
    ensures Expand(full, g) == Expand(Apply(full, g[0]), g[1..])
  {
  }

  /** At the end of the source the spare bits of the last flag byte decode to nothing. */
  lemma {:induction false} PaddingDecodes(src: seq<byte>, full: seq<byte>, i: nat, size: nat)
    requires i <= 8 && |full| < size
    ensures FlagByte([]) == 0 && Expand(full, []) == full && GroupBytes([]) == []
    ensures DecodeGroup(src, Progress(|src|, Cut(full, size)), 0, i, size) == Progress(|src|, full)
    decreases 8 - i
  {
    if i < 8 {
      PaddingDecodes(src, full, i + 1, size);
    }
  }

  lemma GroupFull(src: seq<byte>, pos: nat, full: seq<byte>, g: Tokens, i: nat, size: nat)
    requires i <= 8 && |g| <= 8 && pos <= |src|
    requires |full| >= size || (i == 8 && g == [])
    ensures var r := DecodeGroup(src, Progress(pos, Cut(full, size)), FlagByte(g), i, size);
            && r.dst == Cut(Expand(full, g), size) && r.pos == pos
            && (|Expand(full, g)| < size ==> GroupBytes(g) == [])
  {
    ExpandGrows(full, g);
    hide FlagByte;
  }

  lemma GroupTail(src: seq<byte>, pos: nat, g: Tokens, rest: seq<byte>)
    requires pos <= |src| && g != [] && src[pos..] == GroupBytes(g) + rest
    ensures var b := |g[0].Bytes()|;
            && pos + b <= |src| && src[pos + b..] == GroupBytes(g[1..]) + rest
            && |GroupBytes(g)| == b + |GroupBytes(g[1..])|
            && forall i :: 0 <= i < b ==> src[pos + i] == g[0].Bytes()[i]
  {
    var first, others := g[0].Bytes(), GroupBytes(g[1..]);
    assert GroupBytes(g) == first + others;
    hide *;
    Assoc(first, others, rest);
    DropPrefix(src, pos, first, others + rest);
  }

  lemma TokenDecodes(src: seq<byte>, pos: nat, full: seq<byte>, g: Tokens, i: nat, size: nat, rest: seq<byte>)
    requires i < 8 && 0 < |g| <= 8 && pos <= |src| && src[pos..] == GroupBytes(g) + rest
    requires |full| < size
    ensures pos + |g[0].Bytes()| <= |src|
    ensures DecodeGroup(src, Progress(pos, full), FlagByte(g), i, size)
            == DecodeGroup(src, Progress(pos + |g[0].Bytes()|, Cut(Apply(full, g[0]), size)), FlagByte(g[1..]), i + 1, size)
  {
    FlagStep(g);
    GroupTail(src, pos, g, rest);
    var flags := FlagByte(g);
    match g[0]
    case Literal(b) =>
      hide *;
      LiteralStep(src, pos, full, flags, i, size);
      CutShort(full + [b], size);
      assert g[0].Bytes() == [b] by { TokenBytes(g[0]); }
      assert Apply(full, g[0]) == full + [b] by { TokenBytes(g[0]); }
    case Copy(d, l) =>
      PairOf(d, l);
      CopyCut(full, d + 3, l + 3, size);
      CutShort(full, size);
      assert g[0].Bytes() == [(0x10 * d + l) % 0x100, (0x10 * d + l) / 0x100];
      assert Apply(full, g[0]) == CopyBytes(full, d + 3, l + 3);
      assert src[pos] == g[0].Bytes()[0] && src[pos + 1] == g[0].Bytes()[1];
      hide *;
      CopyStep(src, pos, full, flags, i, size, d, l);
  }

  lemma TokenBytes(t: Token)
    requires t.Literal?
    ensures t.Bytes() == [t.b] && forall out :: Apply(out, t) == out + [t.b]
  {
  }

  lemma CutShort(s: seq<byte>, size: nat)
    requires |s| <= size
    ensures Cut(s, size) == s
  {
  }

  lemma PairOf(d: nat, l: nat)
    requires d < 0x1000 && l < 0x10
    ensures Pack2((0x10 * d + l) % 0x100, (0x10 * d + l) / 0x100) == 0x10 * d + l
    ensures (0x10 * d + l) / 0x10 == d && (0x10 * d + l) % 0x10 == l
  {
  }

  lemma {:induction false} StreamDecodes(src: seq<byte>, pos: nat, full: seq<byte>, ts: Tokens, size: nat, rest: seq<byte>)
    requires pos <= |src| && src[pos..] == Serialize(ts) + rest
    requires rest == [] || size <= |Expand(full, ts)|
    ensures DecodeFrom(src, Progress(pos, Cut(full, size)), size) == Cut(Expand(full, ts), size)
    decreases |ts|, 1
  {
    hide *;
    if |full| >= size {
      ExpandGrows(full, ts);
      CutPrefix(full, Expand(full, ts), size);
      DecodeStops(src, pos, Cut(full, size), size);
    } else if ts == [] {
      StreamEnds(src, pos, full, size, rest);
    } else {
      var n := if |ts| < 8 then |ts| else 8;
      FirstGroup(src, pos, ts, rest);
      CutShort(full, size);
      DecodeOne(src, pos, full, size);
      SplitTokens(full, ts, n);
      GroupThenRest(src, pos, full, ts[..n], ts[n..], size, rest);
    }
  }

  lemma SplitTokens(full: seq<byte>, ts: Tokens, n: nat)
    requires n <= |ts|
    ensures Expand(full, ts) == Expand(Expand(full, ts[..n]), ts[n..])
  {
    assert ts[..n] + ts[n..] == ts;
    ExpandSplit(full, ts[..n], ts[n..]);
  }

  lemma StreamEnds(src: seq<byte>, pos: nat, full: seq<byte>, size: nat, rest: seq<byte>)
    requires pos <= |src| && src[pos..] == Serialize([]) + rest && |full| < size
    requires rest == [] || size <= |Expand(full, [])|
    ensures DecodeFrom(src, Progress(pos, Cut(full, size)), size) == Cut(Expand(full, []), size)
  {
    assert |src[pos..]| == 0;
  }

  lemma {:induction false} GroupThenRest(src: seq<byte>, pos: nat, full: seq<byte>, g: Tokens, tail: Tokens,
      size: nat, rest: seq<byte>)
    requires 0 < |g| <= 8 && pos < |src| && |full| < size
    requires src[pos + 1..] == GroupBytes(g) + (Serialize(tail) + rest)
    requires |g| < 8 ==> tail == []
    requires rest == [] || size <= |Expand(Expand(full, g), tail)|
    ensures DecodeFrom(src, DecodeGroup(src, Progress(pos + 1, full), FlagByte(g), 0, size), size)
            == Cut(Expand(Expand(full, g), tail), size)
    decreases |g| + |tail|, 0
  {
    hide *;
    var after := Serialize(tail) + rest;
    var next := Expand(full, g);
    CutShort(full, size);
    if |g| < 8 { NoTokens(next); }
    GroupDecodes(src, pos + 1, full, g, 0, size, after);
    if |next| < size {
      CutShort(next, size);
      DropPrefix(src, pos + 1, GroupBytes(g), after);
      StreamDecodes(src, pos + 1 + |GroupBytes(g)|, next, tail, size, rest);
    } else {
      ExpandGrows(next, tail);
      CutPrefix(next, Expand(next, tail), size);
      var q := DecodeGroup(src, Progress(pos + 1, full), FlagByte(g), 0, size);
      DecodeStops(src, q.pos, q.dst, size);
    }
  }

  lemma NoTokens(out: seq<byte>)
    ensures Expand(out, []) == out && Serialize([]) == []
  {
  }

  lemma DecodeOne(src: seq<byte>, pos: nat, dst: seq<byte>, size: nat)
    requires pos < |src| && |dst| < size
    ensures DecodeFrom(src, Progress(pos, dst), size)
            == DecodeFrom(src, DecodeGroup(src, Progress(pos + 1, dst), src[pos], 0, size), size)
  {
  }

  lemma DecodeStops(src: seq<byte>, pos: nat, dst: seq<byte>, size: nat)
    requires pos <= |src| && |dst| >= size
    ensures DecodeFrom(src, Progress(pos, dst), size) == dst
  {
  }

  lemma CutPrefix(a: seq<byte>, b: seq<byte>, size: nat)
    requires size <= |a| <= |b| && b[..|a|] == a
    ensures Cut(a, size) == Cut(b, size) && |Cut(a, size)| == size
  {
    assert b[..size] == b[..|a|][..size];
  }

  lemma FirstGroup(src: seq<byte>, pos: nat, ts: Tokens, rest: seq<byte>)
    requires pos <= |src| && ts != [] && src[pos..] == Serialize(ts) + rest
    ensures var n := if |ts| < 8 then |ts| else 8;
            && pos < |src| && src[pos] == FlagByte(ts[..n])
            && src[pos + 1..] == GroupBytes(ts[..n]) + (Serialize(ts[n..]) + rest)
            && (n < 8 ==> Serialize(ts[n..]) == [])
  {
    hide FlagByte, GroupBytes, Serialize;
    var n := if |ts| < 8 then |ts| else 8;
    var flag, g, tail := [FlagByte(ts[..n])], GroupBytes(ts[..n]), Serialize(ts[n..]);
    SerializeUnfold(ts, n);
    Regroup(flag, g, tail, rest);
    DropPrefix(src, pos, flag, g + (tail + rest));
  }

  lemma SerializeUnfold(ts: Tokens, n: nat)
    requires ts != [] && n == if |ts| < 8 then |ts| else 8
    ensures Serialize(ts) == [FlagByte(ts[..n])] + GroupBytes(ts[..n]) + Serialize(ts[n..])
    ensures n < 8 ==> Serialize(ts[n..]) == []
  {
    hide FlagByte, GroupBytes;
  }

  lemma Regroup(a: seq<byte>, b: seq<byte>, c: seq<byte>, d: seq<byte>)
    ensures a + b + c + d == a + (b + (c + d))
  {
    Assoc(a + b, c, d);
    Assoc(a, b, c + d);
  }

  lemma {:induction false} ExpandSplit(out: seq<byte>, a: seq<Token>, b: seq<Token>)
    ensures Expand(out, a + b) == Expand(Expand(out, a), b)
    decreases |a|
  {
    if a == [] {
      assert a + b == b;
    } else {
      assert (a + b)[1..] == a[1..] + b;
      ExpandSplit(Apply(out, a[0]), a[1..], b);
    }
  }

  /** Decompressing a serialised token list gives the meaning of the tokens, cut at the declared
      size; bytes after the stream are harmless once the tokens fill that size. */
  lemma RoundTrip(ts: Tokens, size: word, padding: (byte, byte, byte), rest: seq<byte>)
    requires rest == [] || size <= |Expand([], ts)|
    ensures Output(Header(size, padding) + Serialize(ts) + rest) == Cut(Expand([], ts), size)
  {
    var src := Header(size, padding) + Serialize(ts) + rest;
    SplitPack4(size);
    hide DecodeFrom, Serialize, Expand;
    assert src[8..] == Serialize(ts) + rest;
    assert Cut([], size) == [];
    StreamDecodes(src, 8, [], ts, size, rest);
  }
}
