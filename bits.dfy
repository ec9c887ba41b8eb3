/**
 * Bitwise AND on natural numbers and the two bit tricks the arena relies on:
 * the power-of-two test `(n - 1) & n == 0` and the alignment mask
 * `x & -(a)` that clears the low bits of a 64-bit value.
 */
module Bits {

  /** 2 to the power k. */
  function Pow2(k: nat): (r: nat)
    ensures r >= 1
  {
    if k == 0 then 1 else 2 * Pow2(k - 1)
  }

  lemma {:induction false} Pow2Add(a: nat, b: nat)
    ensures Pow2(a + b) == Pow2(a) * Pow2(b)
    decreases a
  {
    if a > 0 {
      Pow2Add(a - 1, b);
      assert Pow2(a + b) == 2 * Pow2(a - 1 + b);
    }
  }

  /** 2^64, the modulus of 64-bit words. */
  lemma Pow2Of64()
    ensures Pow2(64) == 0x1_0000_0000_0000_0000
  {
    assert Pow2(1) == 2;
    Pow2Add(1, 1);
    assert Pow2(2) == 4;
    Pow2Add(2, 2);
    assert Pow2(4) == 0x10;
    Pow2Add(4, 4);
    assert Pow2(8) == 0x100;
    Pow2Add(8, 8);
    assert Pow2(16) == 0x1_0000;
    Pow2Add(16, 16);
    assert Pow2(32) == 0x1_0000_0000;
    Pow2Add(32, 32);
  }

  /** n is 1, 2, 4, 8, ... */
  predicate IsPowerOfTwo(n: nat)
    decreases n
  {
    n == 1 || (n > 1 && n % 2 == 0 && IsPowerOfTwo(n / 2))
  }

  /** Bitwise AND of two naturals, bit by bit from the least significant one. */
  function BitAnd(x: nat, y: nat): (r: nat)
    ensures r <= x && r <= y
    decreases x
  {
    if x == 0 || y == 0 then 0
    else 2 * BitAnd(x / 2, y / 2) + (if x % 2 == 1 && y % 2 == 1 then 1 else 0)
  }

  lemma {:induction false} BitAndSelf(x: nat)
    ensures BitAnd(x, x) == x
    decreases x
  {
    if x != 0 {
      BitAndSelf(x / 2);
    }
  }

  /** The test used by the arena: `n > 0 && (n - 1) & n == 0` holds exactly for powers of two. */
  lemma {:induction false} PowerOfTwoTest(n: nat)
    ensures n > 0 && BitAnd(n - 1, n) == 0 <==> IsPowerOfTwo(n)
    decreases n
  {
    if n == 1 {
      assert BitAnd(0, 1) == 0;
    } else if n > 1 && n % 2 == 0 {
      assert (n - 1) / 2 == n / 2 - 1;
      assert BitAnd(n - 1, n) == 2 * BitAnd(n / 2 - 1, n / 2);
      PowerOfTwoTest(n / 2);
    } else if n > 1 {
      assert (n - 1) / 2 == n / 2;
      assert BitAnd(n - 1, n) == 2 * BitAnd(n / 2, n / 2);
      BitAndSelf(n / 2);
    }
  }

  /** A mask of w one-bits keeps every w-bit value unchanged. */
  lemma {:induction false} AllOnesMask(x: nat, w: nat)
    requires x < Pow2(w)
    ensures BitAnd(x, Pow2(w) - 1) == x
    decreases w
  {
    if w > 0 && x != 0 {
      assert (Pow2(w) - 1) / 2 == Pow2(w - 1) - 1;
      assert (Pow2(w) - 1) % 2 == 1;
      AllOnesMask(x / 2, w - 1);
    }
  }

  /** d * k is at least d once k is positive. */
  lemma {:induction false} MulAtLeast(d: nat, k: nat)
    requires k >= 1
    ensures d * k >= d
    decreases k
  {
    if k > 1 {
      MulAtLeast(d, k - 1);
      assert d * k == d * (k - 1) + d;
    }
  }

  /** x == d * q + r with 0 <= r < d fixes the quotient and remainder of x by d. */
  lemma {:induction false} ModUnique(x: nat, d: nat, q: nat, r: nat)
    requires d > 0 && r < d && x == d * q + r
    ensures x % d == r && x / d == q
  {
    var q', r' := x / d, x % d;
    assert x == d * q' + r';
    if q' < q {
      assert d * q == d * q' + d * (q - q');
      MulAtLeast(d, q - q');
    } else if q' > q {
      assert d * q' == d * q + d * (q' - q);
      MulAtLeast(d, q' - q);
    }
  }

  /** Clearing x below 2b is clearing x / 2 below b, shifted back up. */
  lemma {:induction false} HalvedRemainder(x: nat, b: nat)
    requires b > 0
    ensures x - x % (2 * b) == 2 * (x / 2 - (x / 2) % b)
  {
    var h := x / 2;
    var q, r := h / b, h % b;
    assert h == b * q + r;
    assert x == 2 * h + x % 2;
    assert x == (2 * b) * q + (2 * r + x % 2);
    ModUnique(x, 2 * b, q, 2 * r + x % 2);
  }

  /**
   * The two's-complement mask of a power of two a, on a w-bit word, clears the
   * bits of x below a: `x & (2^w - a) == x - x % a`.
   */
  lemma {:induction false} NegatedPowerOfTwoMask(x: nat, a: nat, w: nat)
    requires IsPowerOfTwo(a) && a <= Pow2(w) && x < Pow2(w)
    ensures BitAnd(x, Pow2(w) - a) == x - x % a
    decreases a
  {
    if a == 1 {
      AllOnesMask(x, w);
    } else {
      var b := a / 2;
      assert a == 2 * b && IsPowerOfTwo(b);
      assert w > 0;
      var p := Pow2(w - 1);
      assert Pow2(w) == 2 * p;
      if x == 0 {
      } else if a == Pow2(w) {
        ModUnique(x, a, 0, x);
      } else {
        NegatedPowerOfTwoMask(x / 2, b, w - 1);
        MaskStep(x, b, p);
      }
    }
  }

  /** AND with an even number drops the lowest bit of x. */
  lemma {:induction false} BitAndEven(x: nat, m: nat)
    requires x > 0 && m > 0
    ensures BitAnd(x, 2 * m) == 2 * BitAnd(x / 2, m)
  {
    assert (2 * m) / 2 == m;
    assert (2 * m) % 2 == 0;
  }

  /** One bit of the induction: x & (2p - 2b) is twice (x / 2) & (p - b). */
  lemma {:induction false} MaskStep(x: nat, b: nat, p: nat)
    requires 0 < b < p && x > 0
    requires BitAnd(x / 2, p - b) == x / 2 - (x / 2) % b
    ensures BitAnd(x, 2 * p - 2 * b) == x - x % (2 * b)
  {
    BitAndEven(x, p - b);
    HalvedRemainder(x, b);
    assert 2 * p - 2 * b == 2 * (p - b);
  }
}
