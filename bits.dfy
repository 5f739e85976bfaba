/**
 * Unsigned integers seen as bit strings: the `|=` with a single bit and the
 * `(bb >> i) & 1` read-back that both bitboard encoders use.  Python's
 * integers are unbounded and C++ uses uint64_t; the lemmas below show that
 * the values stay under 2^64, so one model serves both.
 */
module Bits {

  function Pow2(n: nat): (p: nat)
    ensures p >= 1
  {
    if n == 0 then 1 else 2 * Pow2(n - 1)
  }

  const TWO_TO_64: nat := 0x1_0000_0000_0000_0000

  /** `x >> n` on a non-negative integer. */
  function ShiftRight(x: nat, n: nat): nat
  {
    if n == 0 then x else ShiftRight(x / 2, n - 1)
  }

  /** `(x >> n) & 1`. */
  function Bit(x: nat, n: nat): (b: nat)
    ensures b == 0 || b == 1
  {
    ShiftRight(x, n) % 2
  }

  /** Bitwise or of two non-negative integers, digit by digit. */
  function BitOr(a: nat, b: nat): nat
    decreases a + b
  {
    if a == 0 then b
    else if b == 0 then a
    else 2 * BitOr(a / 2, b / 2) + (if a % 2 == 1 || b % 2 == 1 then 1 else 0)
  }

  lemma {:induction false} BitOfOr(a: nat, b: nat, n: nat)
    ensures Bit(BitOr(a, b), n) == if Bit(a, n) == 1 || Bit(b, n) == 1 then 1 else 0
    decreases n
  {
    if a == 0 {
      ZeroHasNoBits(n);
    } else if b == 0 {
      ZeroHasNoBits(n);
    } else if n == 0 {
    } else {
      var h := BitOr(a / 2, b / 2);
      assert BitOr(a, b) / 2 == h;
      BitOfOr(a / 2, b / 2, n - 1);
    }
  }

  lemma {:induction false} ZeroHasNoBits(n: nat)
    ensures Bit(0, n) == 0 && ShiftRight(0, n) == 0
  {
    if n > 0 {
      ZeroHasNoBits(n - 1);
    }
  }

  lemma {:induction false} BitOfPow2(s: nat, n: nat)
    ensures Bit(Pow2(s), n) == if n == s then 1 else 0
    decreases n
  {
    if n == 0 {
      if s > 0 {
        assert Pow2(s) % 2 == 0;
      }
    } else if s == 0 {
      assert Pow2(s) / 2 == 0;
      ZeroHasNoBits(n - 1);
    } else {
      assert Pow2(s) / 2 == Pow2(s - 1);
      BitOfPow2(s - 1, n - 1);
    }
  }

  lemma {:induction false} OrBelowPow2(a: nat, b: nat, k: nat)
    requires a < Pow2(k) && b < Pow2(k)
    ensures BitOr(a, b) < Pow2(k)
    decreases k
  {
    if a == 0 || b == 0 {
    } else if k == 0 {
    } else {
      OrBelowPow2(a / 2, b / 2, k - 1);
    }
  }

  lemma {:induction false} Pow2Monotone(m: nat, n: nat)
    requires m <= n
    ensures Pow2(m) <= Pow2(n)
    decreases n
  {
    if m < n {
      Pow2Monotone(m, n - 1);
    }
  }

  lemma Pow2Of64()
    ensures Pow2(64) == TWO_TO_64
  {
    assert Pow2(8) == 256;
    assert Pow2(16) == 65536 by { Pow2Add(8, 8); }
    assert Pow2(32) == 0x1_0000_0000 by { Pow2Add(16, 16); }
    Pow2Add(32, 32);
  }

  lemma {:induction false} Pow2Add(m: nat, n: nat)
    ensures Pow2(m + n) == Pow2(m) * Pow2(n)
    decreases m
  {
    if m > 0 {
      Pow2Add(m - 1, n);
    }
  }

  /**
   * Setting bit `s` (s < 64) of a value below 2^64 keeps it below 2^64, sets
   * bit `s` and leaves every other bit as it was.
   */
  lemma SetBit(x: nat, s: nat)
    requires x < TWO_TO_64 && s < 64
    ensures BitOr(x, Pow2(s)) < TWO_TO_64
    ensures forall n: nat {:trigger Bit(BitOr(x, Pow2(s)), n)} ::
              Bit(BitOr(x, Pow2(s)), n) == if n == s then 1 else Bit(x, n)
  {
    Pow2Of64();
    Pow2Monotone(s + 1, 64);
    assert Pow2(s) < Pow2(s + 1);
    OrBelowPow2(x, Pow2(s), 64);
    forall n: nat ensures Bit(BitOr(x, Pow2(s)), n) == if n == s then 1 else Bit(x, n) {
      BitOfOr(x, Pow2(s), n);
      BitOfPow2(s, n);
    }
  }
}
