/** Bits of shifted, masked and complemented numbers. */
module Bits {
  import opened Arith
  import opened Words

  lemma {:induction false} ShrIsDiv(x: nat, n: nat)
    ensures Shr(x, n) == x / Pow2(n)
    decreases n
  {
    if n > 0 {
      ShrIsDiv(x / 2, n - 1);
      DivTwice(x, Pow2(n - 1));
    }
  }

  lemma DivTwice(x: nat, p: nat)
    requires p > 0
    ensures x / 2 / p == x / (2 * p)
  {
    HalfOfRest(x, p);
  }

  lemma HalfOfRest(x: nat, p: nat)
    requires p > 0
    ensures x % (2 * p) / 2 == x / 2 % p && x % (2 * p) % 2 == x % 2 && x / (2 * p) == x / 2 / p
  {
    var h := x / 2;
    var q, r := h / p, h % p;
    assert h == p * q + r;
    assert 2 * (p * q) == (2 * p) * q;
    DivUnique(x, 2 * p, q, 2 * r + x % 2);
  }

  lemma {:induction false} BitOfShr(x: nat, n: nat, k: nat)
    ensures Bit(Shr(x, n), k) <==> Bit(x, n + k)
    decreases n
  {
    if n > 0 { BitOfShr(x / 2, n - 1, k); }
  }

  lemma {:induction false} BitOfShl(x: nat, n: nat, k: nat)
    ensures Bit(Shl(x, n), k) <==> k >= n && Bit(x, k - n)
    decreases n
  {
    if n > 0 {
      assert Shl(x, n) / 2 == Shl(x, n - 1);
      if k > 0 { BitOfShl(x, n - 1, k - 1); }
    }
  }

  /** A remainder keeps the bits below. */
  lemma {:induction false} BitBelow(x: nat, n: nat, k: nat)
    ensures Bit(x % Pow2(n), k) <==> k < n && Bit(x, k)
    decreases n
  {
    if n == 0 {
      ZeroBits(k);
    } else {
      HalfOfRest(x, Pow2(n - 1));
      if k > 0 {
        BitBelow(x / 2, n - 1, k - 1);
      }
    }
  }

  lemma {:induction false} NoBitAbove(x: nat, n: nat, k: nat)
    requires x < Pow2(n) <= Pow2(k)
    ensures !Bit(x, k)
    decreases k
  {
    if k > 0 {
      if n == 0 { ZeroBits(k); } else { NoBitAbove(x / 2, n - 1, k - 1); }
    }
  }

  lemma BitAbove(x: nat, n: nat, k: nat)
    requires x < Pow2(n) && n <= k
    ensures !Bit(x, k)
  {
    Pow2Monotone(n, k);
    NoBitAbove(x, n, k);
  }

  lemma {:induction false} BitOfComplement(x: nat, n: nat, k: nat)
    requires x < Pow2(n) && k < n
    ensures Bit(Pow2(n) - 1 - x, k) <==> !Bit(x, k)
    decreases n
  {
    if k > 0 {
      assert (Pow2(n) - 1 - x) / 2 == Pow2(n - 1) - 1 - x / 2;
      BitOfComplement(x / 2, n - 1, k - 1);
    }
  }

  /** Numbers of `n` bits are the same when their bits are. */
  lemma {:induction false} SameBits(x: nat, y: nat, n: nat)
    requires x < Pow2(n) && y < Pow2(n) && forall k :: 0 <= k < n ==> Bit(x, k) == Bit(y, k)
    ensures x == y
    decreases n
  {
    if n > 0 {
      assert Bit(x, 0) == Bit(y, 0);
      forall k | 0 <= k < n - 1
        ensures Bit(x / 2, k) == Bit(y / 2, k)
      {
        assert Bit(x, k + 1) == Bit(y, k + 1);
      }
      SameBits(x / 2, y / 2, n - 1);
    }
  }

  lemma LowIsRemainder(x: nat)
    ensures Low32(x) == x % Pow2(32)
  {
    Pow2Words();
  }

  lemma BitOfLow(x: nat, k: nat)
    ensures Bit(Low32(x), k) <==> k < 32 && Bit(x, k)
  {
    LowIsRemainder(x);
    BitBelow(x, 32, k);
  }

  lemma BitOfNot(x: word, k: nat)
    requires k < 32
    ensures Bit(Not32(x), k) <==> !Bit(x, k)
  {
    Pow2Words();
    BitOfComplement(x, 32, k);
  }

  /** Bit 31 of a number of any width. */
  lemma BitIsDigit(x: nat)
    ensures Bit(x, 31) <==> x / 0x8000_0000 % 2 == 1
  {
    Pow2Words();
    hide Shr, Pow2;
    ShrIsDiv(x, 31);
    BitOfShr(x, 31, 0);
  }

  // ----- sizes -----

  lemma {:induction false} AndBelow(a: nat, b: nat)
    ensures And(a, b) <= a && And(a, b) <= b
  {
    if a != 0 && b != 0 {
      AndBelow(a / 2, b / 2);
    }
  }

  lemma {:induction false} OrBelow(a: nat, b: nat, n: nat)
    requires a < Pow2(n) && b < Pow2(n)
    ensures Or(a, b) < Pow2(n)
    decreases n
  {
    if a != 0 && b != 0 {
      OrBelow(a / 2, b / 2, n - 1);
    }
  }

  lemma {:induction false} XorBelow(a: nat, b: nat, n: nat)
    requires a < Pow2(n)
    ensures Xor(a, b) < Pow2(n) <==> b < Pow2(n)
    decreases n
  {
    if a != 0 && b != 0 {
      XorBelow(a / 2, b / 2, n - 1);
    }
  }

  lemma OrIsZero(a: nat, b: nat)
    ensures Or(a, b) == 0 <==> a == 0 && b == 0
    decreases a
  {
    if a != 0 && b != 0 && Or(a, b) == 0 {
      OrIsZero(a / 2, b / 2);
    }
  }

  // ----- rotations -----

  /** The two halves of a rotation to the right by `n` in 32 bits. */
  lemma BitOfRotation(x: word, n: nat, k: nat)
    requires 0 < n < 32 && k < 32
    ensures Bit(Low32(Or(Shr(x, n), Shl(x, 32 - n))), k) <==> Bit(x, (k + n) % 32)
  {
    hide Bit, Or, Shr, Shl, Pow2, Low32;
    BitOfLow(Or(Shr(x, n), Shl(x, 32 - n)), k);
    OrBit(Shr(x, n), Shl(x, 32 - n), k);
    BitOfShr(x, n, k);
    BitOfShl(x, 32 - n, k);
    if k + n >= 32 {
      Pow2Words();
      BitAbove(x, 32, n + k);
    }
  }
}
