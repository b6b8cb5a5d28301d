/** `BIOS.swi_lz77_uncomp` as a whole: the decompressed bytes are stored one by one. */
module Bios {
  import opened Words
  import opened Memory
  import opened MemoryLaws
  import opened DmaLaws
  import opened Lz77

  /** The bytes stored from `addr` upwards. */
  function StoreBytes(m: MemState, addr: nat, bytes: seq<byte>): MemState
    decreases |bytes|
  {
    if bytes == [] then m else StoreBytes(Write8(m, Low32(addr), bytes[0], false), addr + 1, bytes[1..])
  }

  /** The source bytes are given: the memory object has no `read_bytes`. */
  method SwiLz77Uncomp(mem: Memory, src: seq<byte>, dstAddr: nat) returns (count: nat)
    requires mem.Valid()
    modifies mem, mem.Arrays
    ensures count == |Output(src)|
    ensures mem.State() == StoreBytes(old(mem.State()), dstAddr, Output(src))
  {
    hide Memory.State, Memory.Valid, Output, Write8;
    var dst := Uncompress(src);
    for i := 0 to |dst|
      invariant StoreBytes(mem.State(), dstAddr + i, dst[i..]) == StoreBytes(old(mem.State()), dstAddr, dst)
    {
      assert dst[i..][1..] == dst[i + 1..];
      mem.WriteU8(Low32(dstAddr + i), dst[i], false);
    }
    count := |dst|;
  }

  /** A destination that byte stores reach: one RAM region, and no mirror of the palette, VRAM or OAM. */
  predicate Reached(addr: nat, n: nat) {
    n > 0 ==> Linear(addr, n) && (addr >= PALETTE_START ==> MapAddress(addr) == addr)
  }

  lemma ReachedStep(m: MemState, addr: nat, n: nat, v: byte)
    requires n > 0 && Reached(addr, n)
    ensures Low32(addr) == addr && IsRam(MapAddress(addr))
    ensures Write8(m, Low32(addr), v, false) == Poke(m, MapAddress(addr), v)
    ensures Reached(addr + 1, n - 1) && (n > 1 ==> MapAddress(addr + 1) == MapAddress(addr) + 1)
  {
    hide Write8, Poke;
    LinearStep(addr, n, 0);
    SpanCell(MapAddress(addr), n, 0);
    ByteStoreLost(m, addr, v);
    if n > 1 {
      hide MapAddress, Linear, IsRam;
      LinearStep(addr, n, 1);
      LinearRest(addr, n, 1);
      LowRegions(addr);
    }
  }

  /** The byte after one of IWRAM or EWRAM that is still in a region is not in the palette. */
  lemma LowRegions(addr: nat)
    requires Linear(addr, 2)
    ensures addr < PALETTE_START ==> addr + 1 < PALETTE_START
  {
    LinearBounds(addr, 2);
    hide MapAddress, Span;
  }

  lemma PokeOnly(m: MemState, c: int, v: byte)
    requires IsRam(c)
    ensures OnlyChanged(m, Poke(m, c, v), c, 1) && Cell(Poke(m, c, v), c) == v
  {
    hide Cell, Poke, IsRam, SameDevices;
    forall d | IsRam(d)
      ensures Cell(Poke(m, c, v), d) == if d == c then v else Cell(m, d)
    {
      CellPoke(m, c, v, d);
    }
    CellPoke(m, c, v, c);
  }

  lemma StoreUnfold(m: MemState, addr: nat, bytes: seq<byte>)
    requires bytes != []
    ensures StoreBytes(m, addr, bytes) == StoreBytes(Write8(m, Low32(addr), bytes[0], false), addr + 1, bytes[1..])
  {
    hide Write8;
  }

  /** Then every byte is where it belongs, and no other byte of RAM has changed. */
  lemma {:induction false} StoredBytes(m: MemState, addr: nat, c: int, bytes: seq<byte>, i: nat)
    requires i < |bytes| && Reached(addr, |bytes|) && c == MapAddress(Low32(addr))
    ensures var w := StoreBytes(m, addr, bytes);
            IsRam(c + i) && Cell(w, c + i) == bytes[i] && OnlyChanged(m, w, c, |bytes|)
    decreases |bytes|
  {
    hide Write8, Poke, Cell, MapAddress, Reached, OnlyChanged, IsRam, StoreBytes;
    var n := |bytes|;
    ReachedStep(m, addr, n, bytes[0]);
    StoreUnfold(m, addr, bytes);
    PokeOnly(m, c, bytes[0]);
    var t := Poke(m, c, bytes[0]);
    var w := StoreBytes(m, addr, bytes);
    if n == 1 {
      assert bytes[1..] == [];
      StoreNothing(t, addr + 1);
    } else {
      ReachedStep(t, addr + 1, n - 1, bytes[1]);
      StoredBytes(t, addr + 1, c + 1, bytes[1..], if i == 0 then 0 else i - 1);
      OnlyChangedThen(m, t, w, c, 1, c + 1, n - 1, n);
      if i == 0 {
        CellKept(t, w, c + 1, n - 1, c);
      }
    }
  }

  lemma StoreNothing(m: MemState, addr: nat)
    ensures StoreBytes(m, addr, []) == m
  {
  }

  lemma CellKept(m: MemState, w: MemState, c: int, n: nat, d: int)
    requires OnlyChanged(m, w, c, n) && IsRam(d) && d < c
    ensures Cell(w, d) == Cell(m, d)
  {
    hide Cell, IsRam;
  }

  /** From compressed bytes to RAM: a serialised token list, decompressed over a range in RAM, leaves
      there the meaning of its tokens, cut at the declared size. */
  lemma Lz77ToRam(m: MemState, ts: Tokens, size: word, padding: (byte, byte, byte), addr: nat, i: nat)
    requires var out := Cut(Expand([], ts), size); i < |out| && Reached(addr, |out|)
    ensures var out, c := Cut(Expand([], ts), size), MapAddress(Low32(addr));
            var w := StoreBytes(m, addr, Output(Header(size, padding) + Serialize(ts)));
            IsRam(c + i) && Cell(w, c + i) == out[i] && OnlyChanged(m, w, c, |out|)
  {
    hide Cell, MapAddress, Reached, OnlyChanged, IsRam, StoreBytes, Output, Serialize, Expand, Cut, Header;
    RoundTrip(ts, size, padding, []);
    assert Header(size, padding) + Serialize(ts) + [] == Header(size, padding) + Serialize(ts);
    StoredBytes(m, addr, MapAddress(Low32(addr)), Cut(Expand([], ts), size), i);
  }
}
