/** The two Newton square roots of the runtime: the SWI handler and the stand-alone BIOS one. */
module Sqrt {
  import opened Arith

  ghost predicate IsFloorSqrt(n: nat, r: int) {
    r >= 0 && r * r <= n < (r + 1) * (r + 1)
  }

  /** The inequality of the arithmetic and geometric means, for two integers. */
  lemma MeanSquares(a: int, b: int)
    ensures 4 * (a * b) <= (a + b) * (a + b)
  {
    var d := a - b;
    assert d * d >= 0;
    assert (a + b) * (a + b) == d * d + 4 * (a * b);
  }

  lemma SquareMonotone(a: nat, b: nat)
    requires a <= b
    ensures a * a <= b * b
  {
  }

  /** One Newton step never falls below the root. */
  lemma NewtonStepStaysAbove(n: nat, x: nat)
    requires x > 0
    ensures var y := (x + n / x) / 2; n < (y + 1) * (y + 1)
  {
    var q := n / x;
    var t := (x + q) / 2 + 1;
    assert n < x * (q + 1) by {
      assert n == x * q + n % x;
      assert x * (q + 1) == x * q + x;
    }
    MeanSquares(x, q + 1);
    SquareMonotone(x + (q + 1), 2 * t);
    assert (2 * t) * (2 * t) == 4 * (t * t);
  }

  /** A step that does not descend has reached the root from above. */
  lemma NewtonStops(n: nat, x: nat)
    requires x > 0
    requires (x + n / x) / 2 >= x
    ensures x * x <= n
  {
    ProductMonotone(x, x, n / x);
    assert n == x * (n / x) + n % x;
  }

  /** `BIOS.swi_sqrt` */
  method SwiSqrt(n: int) returns (x: int)
    ensures n <= 0 ==> x == 0
    ensures n > 0 ==> IsFloorSqrt(n, x)
  {
    if n <= 0 {
      return 0;
    }
    x := n;
    var y := (x + 1) / 2;
    assert n / n == 1;
    assert n < (x + 1) * (x + 1) by { assert (x + 1) * (x + 1) == x * x + 2 * x + 1; assert x * x >= 0; }
    while y < x
      invariant x > 0
      invariant y == (x + n / x) / 2
      invariant n < (x + 1) * (x + 1)
      decreases x
    {
      NewtonStepStaysAbove(n, x);
      x := y;
      y := (x + n / x) / 2;
    }
    NewtonStops(n, x);
  }

  /** `bios_sqrt`; the source returns from inside the loop, which is the loop's only exit. */
  method BiosSqrt(value: int) returns (guess: int)
    ensures value <= 0 ==> guess == 0
    ensures value > 0 ==> IsFloorSqrt(value, guess)
  {
    if value <= 0 {
      return 0;
    }
    guess := value;
    assert value < (guess + 1) * (guess + 1) by {
      assert (guess + 1) * (guess + 1) == guess * guess + 2 * guess + 1;
      assert guess * guess >= 0;
    }
    while true
      invariant guess > 0
      invariant value < (guess + 1) * (guess + 1)
      decreases guess
    {
      var nextGuess := (guess + value / guess) / 2;
      if nextGuess >= guess {
        NewtonStops(value, guess);
        return guess;
      }
      NewtonStepStaysAbove(value, guess);
      guess := nextGuess;
    }
  }

  /** The contract of either routine pins its result, so the two agree on every input. */
  lemma FloorSqrtUnique(n: nat, r: int, s: int)
    requires IsFloorSqrt(n, r) && IsFloorSqrt(n, s)
    ensures r == s
  {
    if r < s {
      SquareMonotone(r + 1, s);
    } else if s < r {
      SquareMonotone(s + 1, r);
    }
  }
}
