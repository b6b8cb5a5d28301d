/** Machine words.

    The runtime works on Python integers and masks them where the hardware is narrow.  Here a
    word is an integer too; a mask by 2^k - 1 is a remainder and a shift right is a division,
    which for Python's floor operators and a positive divisor is exactly what Dafny's are.
    The bitwise operators that the flag arithmetic needs are defined bit by bit. */
module Words {

  const TWO_32: int := 0x1_0000_0000
  const SIGN_BIT: int := 0x8000_0000

  type byte = x: int | 0 <= x < 0x100
  type half = x: int | 0 <= x < 0x1_0000
  type word = x: int | 0 <= x < 0x1_0000_0000

  /** `x & 0xFFFFFFFF` */
  function Low32(x: int): word {
    if 0 <= x < TWO_32 then x else x % TWO_32
  }

  /** `(a + k) & 0xFFFFFFFF`, for a short step. */
  function Next(a: word, k: nat): word
    requires k <= TWO_32
  {
    if a + k < TWO_32 then a + k else a + k - TWO_32
  }

  /** `(b << 1) & 0xFF` */
  function Shl8(b: byte): byte {
    (b + b) % 0x100
  }

  /** The value of a word read as a two's complement number. */
  function Signed(x: word): int {
    if x < SIGN_BIT then x else x - TWO_32
  }

  function Pack2(b0: byte, b1: byte): half {
    b0 + 0x100 * b1
  }

  function Pack4(b0: byte, b1: byte, b2: byte, b3: byte): word {
    b0 + 0x100 * b1 + 0x1_0000 * b2 + 0x100_0000 * b3
  }

  /** Byte `k` of a word, `(v >> 8*k) & 0xFF`. */
  function ByteOf(v: int, k: nat): byte
    requires k < 4
  {
    if k == 0 then v % 0x100
    else if k == 1 then v / 0x100 % 0x100
    else if k == 2 then v / 0x1_0000 % 0x100
    else v / 0x100_0000 % 0x100
  }

  lemma SplitPack4(v: word)
    ensures Pack4(ByteOf(v, 0), ByteOf(v, 1), ByteOf(v, 2), ByteOf(v, 3)) == v
  {
    var h := v / 0x100;
    assert v / 0x1_0000 == h / 0x100;
    assert v / 0x100_0000 == h / 0x100 / 0x100;
  }

  lemma SplitPack2(v: half)
    ensures Pack2(ByteOf(v, 0), ByteOf(v, 1)) == v
  {
  }

  // ----- bits -----

  function Pow2(k: nat): (p: nat)
    ensures p > 0
  {
    if k == 0 then 1 else 2 * Pow2(k - 1)
  }

  /** `x >> k` */
  function Shr(x: nat, k: nat): nat {
    if k == 0 then x else Shr(x / 2, k - 1)
  }

  /** `x << k` */
  function Shl(x: nat, k: nat): nat {
    if k == 0 then x else 2 * Shl(x, k - 1)
  }

  /** `(x >> k) & 1` */
  predicate Bit(x: nat, k: nat) {
    if k == 0 then x % 2 == 1 else Bit(x / 2, k - 1)
  }

  /** `a & b` */
  function And(a: nat, b: nat): nat {
    if a == 0 || b == 0 then 0
    else 2 * And(a / 2, b / 2) + (if a % 2 == 1 && b % 2 == 1 then 1 else 0)
  }

  /** `a | b` */
  function Or(a: nat, b: nat): nat {
    if a == 0 then b else if b == 0 then a
    else 2 * Or(a / 2, b / 2) + (if a % 2 == 1 || b % 2 == 1 then 1 else 0)
  }

  /** `a ^ b` */
  function Xor(a: nat, b: nat): nat {
    if a == 0 then b else if b == 0 then a
    else 2 * Xor(a / 2, b / 2) + (if a % 2 != b % 2 then 1 else 0)
  }

  /** `~x & 0xFFFFFFFF` */
  function Not32(x: word): word {
    TWO_32 - 1 - x
  }

  lemma ZeroBits(k: nat)
    ensures !Bit(0, k)
  {
    if k > 0 { ZeroBits(k - 1); }
  }

  lemma {:induction false} AndBit(a: nat, b: nat, k: nat)
    ensures Bit(And(a, b), k) <==> Bit(a, k) && Bit(b, k)
  {
    if a == 0 || b == 0 {
      ZeroBits(k);
    } else if k > 0 {
      AndBit(a / 2, b / 2, k - 1);
    }
  }

  lemma {:induction false} XorBit(a: nat, b: nat, k: nat)
    ensures Bit(Xor(a, b), k) <==> (Bit(a, k) != Bit(b, k))
  {
    if a == 0 || b == 0 {
      ZeroBits(k);
    } else if k > 0 {
      XorBit(a / 2, b / 2, k - 1);
    }
  }

  lemma {:induction false} OrBit(a: nat, b: nat, k: nat)
    ensures Bit(Or(a, b), k) <==> Bit(a, k) || Bit(b, k)
  {
    if a == 0 || b == 0 {
      ZeroBits(k);
    } else if k > 0 {
      OrBit(a / 2, b / 2, k - 1);
    }
  }

  lemma {:induction false} PowBit(j: nat, k: nat)
    ensures Bit(Pow2(j), k) <==> j == k
  {
    if j > 0 && k > 0 {
      assert Pow2(j) / 2 == Pow2(j - 1);
      PowBit(j - 1, k - 1);
    } else if k > 0 {
      assert Pow2(j) / 2 == 0;
      ZeroBits(k - 1);
    }
  }

  /** Masking with a single bit tests that bit. */
  lemma {:induction false} AndPow2(x: nat, k: nat)
    ensures And(x, Pow2(k)) == if Bit(x, k) then Pow2(k) else 0
  {
    if x == 0 {
      ZeroBits(k);
    } else if k > 0 {
      AndPow2(x / 2, k - 1);
      assert Pow2(k) / 2 == Pow2(k - 1);
    } else {
      assert And(x, 1) == 2 * And(x / 2, 0) + (if x % 2 == 1 then 1 else 0);
    }
  }

  /** The top bit of a number below 2^(k+1). */
  lemma {:induction false} TopBit(x: nat, k: nat)
    requires x < Pow2(k + 1)
    ensures Bit(x, k) <==> x >= Pow2(k)
  {
    if k > 0 {
      assert x / 2 < Pow2(k);
      TopBit(x / 2, k - 1);
    }
  }

  lemma {:induction false} Pow2Monotone(a: nat, b: nat)
    requires a <= b
    ensures Pow2(a) <= Pow2(b)
    decreases b
  {
    if a < b { Pow2Monotone(a, b - 1); }
  }

  lemma Pow2Words()
    ensures Pow2(31) == SIGN_BIT && Pow2(32) == TWO_32
  {
    assert Pow2(5) == 0x20;
    assert Pow2(10) == 0x400;
    assert Pow2(15) == 0x8000;
    assert Pow2(20) == 0x10_0000;
    assert Pow2(25) == 0x200_0000;
    assert Pow2(30) == 0x4000_0000;
  }

  lemma SignBitIsBit31(x: word)
    ensures Bit(x, 31) <==> x >= SIGN_BIT
  {
    Pow2Words();
    TopBit(x, 31);
  }

  /** The form in which both ALUs compute V: two exclusive-ors, an and, and the sign mask. */
  lemma XorSigns(p: word, q: word, s: word, t: word)
    ensures And(And(Xor(p, q), Xor(s, t)), SIGN_BIT) != 0
            <==> (p >= SIGN_BIT) != (q >= SIGN_BIT) && (s >= SIGN_BIT) != (t >= SIGN_BIT)
  {
    Pow2Words();
    AndPow2(And(Xor(p, q), Xor(s, t)), 31);
    AndBit(Xor(p, q), Xor(s, t), 31);
    XorBit(p, q, 31);
    XorBit(s, t, 31);
    SignBitIsBit31(p);
    SignBitIsBit31(q);
    SignBitIsBit31(s);
    SignBitIsBit31(t);
  }

  // ----- sequences -----

  lemma Assoc<T>(a: seq<T>, b: seq<T>, c: seq<T>)
    ensures a + b + c == a + (b + c)
  {
  }

  /** Reading past a known stretch. */
  lemma DropPrefix<T>(s: seq<T>, pos: nat, a: seq<T>, rest: seq<T>)
    requires pos <= |s| && s[pos..] == a + rest
    ensures pos + |a| <= |s| && s[pos + |a|..] == rest
    ensures forall i :: 0 <= i < |a| ==> s[pos + i] == a[i]
  {
    var t := s[pos..];
    assert |t| == |a| + |rest|;
    assert s[pos + |a|..] == t[|a|..];
    forall i | 0 <= i < |a| ensures s[pos + i] == a[i] {
      assert s[pos + i] == t[i];
    }
  }
}
