/** Bit scans and low-bit masks of an address register. */
module PmpBits {
  import opened Arithmetic

  /** (a >> (i + 1)) is (a >> i) >> 1. */
  lemma ShiftOnce(a: nat, i: nat)
    ensures a / Pow2(i + 1) == a / Pow2(i) / 2
  {
    HalfOfQuotient(a, Pow2(i));
  }

  function TrailingOnes(a: nat): nat {
    if a % 2 == 0 then 0 else 1 + TrailingOnes(a / 2)
  }

  function TrailingZeros(a: nat): nat
    requires a > 0
  {
    if a % 2 == 1 then 0 else 1 + TrailingZeros(a / 2)
  }

  /** Below its lowest clear bit a number is all ones. */
  lemma {:induction false} TrailingOnesSplit(a: nat)
    ensures var t := TrailingOnes(a);
      a == (a / Pow2(t + 1)) * Pow2(t + 1) + Pow2(t) - 1
  {
    if a % 2 == 0 {
      assert Pow2(0) == 1 && Pow2(1) == 2;
    } else {
      TrailingOnesSplit(a / 2);
      var t := TrailingOnes(a / 2);
      Doubled(a / 2, Pow2(t + 1), Pow2(t) - 1);
    }
  }

  /** Splitting 2x + 1 at 2p from a split of x at p. */
  lemma Doubled(x: nat, p: nat, r: nat)
    requires p > 0 && r < p && x == (x / p) * p + r
    ensures 2 * x + 1 == ((2 * x + 1) / (2 * p)) * (2 * p) + 2 * r + 1
  {
    var q := x / p;
    assert 2 * x + 1 == q * (2 * p) + (2 * r + 1) by {
      assert 2 * (q * p) == q * (2 * p);
    }
    DivModUnique(2 * x + 1, q, 2 * r + 1, 2 * p);
  }

  lemma {:induction false} TrailingZerosOfMultiple(k: nat, odd: nat)
    requires odd % 2 == 1
    ensures odd * Pow2(k) > 0 && TrailingZeros(odd * Pow2(k)) == k
  {
    if k == 0 {
      assert odd * Pow2(0) == odd;
    } else {
      TrailingZerosOfMultiple(k - 1, odd);
      assert odd * Pow2(k) == 2 * (odd * Pow2(k - 1));
    }
  }

  /** The bits of `a` from bit n up. */
  function ClearLow(a: nat, n: nat): (r: nat)
    ensures r <= a && a - r < Pow2(n)
  {
    ModAtMost(a, Pow2(n));
    a - a % Pow2(n)
  }

  /** Filling the low bits with ones keeps a number inside a wider power of two. */
  lemma FillBelow(raw: nat, g: nat, w: nat)
    requires g <= w && raw < Pow2(w)
    ensures ClearLow(raw, g) + Pow2(g) - 1 < Pow2(w)
  {
    Pow2Add(w - g, g);
    QuotientBound(raw, Pow2(g), Pow2(w - g));
  }

  lemma QuotientBound(raw: nat, p: nat, k: nat)
    requires p > 0 && raw < k * p
    ensures raw - raw % p + p <= k * p
  {
    var q := raw / p;
    assert raw == q * p + raw % p;
    MulStep(k, q, p);
    MulStep(q, k, p);
  }

  lemma Pow2Is32()
    ensures Pow2(32) == 0x1_0000_0000
  {
    Pow2Add(16, 16);
    Pow2Add(8, 8);
    assert Pow2(8) == 256;
  }

  lemma {:induction false} TrailingOnesOfOnes(n: nat)
    ensures TrailingOnes(Pow2(n) - 1) == n
  {
    if n > 0 {
      TrailingOnesOfOnes(n - 1);
      assert (Pow2(n) - 1) / 2 == Pow2(n - 1) - 1;
    }
  }
}
