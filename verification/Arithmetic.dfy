/** Integer facts the models share: products against quotients, and powers of two. */
module Arithmetic {
  function Pow2(n: nat): (r: nat)
    ensures r > 0
  {
    if n == 0 then 1 else 2 * Pow2(n - 1)
  }

  lemma {:induction false} Pow2Add(a: nat, b: nat)
    ensures Pow2(a + b) == Pow2(a) * Pow2(b)
  {
    if b > 0 {
      Pow2Add(a, b - 1);
      assert Pow2(a + b) == 2 * Pow2(a + (b - 1));
    }
  }

  lemma {:induction false} Pow2Grows(a: nat, b: nat)
    requires Pow2(a) <= Pow2(b)
    ensures a <= b
  {
    if a > 0 && b > 0 {
      Pow2Grows(a - 1, b - 1);
    }
  }

  lemma {:induction false} Pow2Monotone(a: nat, b: nat)
    requires a <= b
    ensures Pow2(a) <= Pow2(b)
  {
    if a < b {
      Pow2Monotone(a, b - 1);
    }
  }

  /** A product by name, where a proof is better off without multiplication. */
  function Times(x: int, y: int): (r: int)
    ensures 0 <= x && 0 <= y ==> 0 <= r
  {
    x * y
  }

  function Quotient(x: nat, n: nat): nat
    requires n > 0
  {
    x / n
  }

  lemma QuotientBounds(x: nat, n: nat)
    requires n > 0
    ensures Quotient(x, n) * n <= x < Quotient(x, n) * n + n
  {
  }

  lemma DivModIdentity(x: nat, n: nat)
    requires n > 0
    ensures x == (x / n) * n + x % n && x % n < n
  {
  }

  lemma DivModUnique(x: nat, q: nat, r: nat, n: nat)
    requires n > 0 && x == q * n + r && r < n
    ensures x / n == q && x % n == r
  {
    MulStep(q, x / n, n);
    MulStep(x / n, q, n);
  }

  lemma MulStep(x: nat, y: nat, n: nat)
    ensures x < y ==> x * n + n <= y * n
  {
    if x < y {
      var rest := y - x - 1;
      assert y * n == (x + 1 + rest) * n == x * n + n + rest * n;
      assert rest * n >= 0;
    }
  }

  lemma HalfOfQuotient(a: nat, p: nat)
    requires p > 0
    ensures a / (2 * p) == a / p / 2
  {
    var q, h := a / p, a / p / 2;
    assert a == q * p + a % p;
    if q == 2 * h {
      assert q * p == h * (2 * p);
      DivModUnique(a, h, a % p, 2 * p);
    } else {
      assert q * p == h * (2 * p) + p by {
        assert q == 2 * h + 1;
      }
      DivModUnique(a, h, p + a % p, 2 * p);
    }
  }

  lemma {:induction false} ModAtMost(a: nat, p: nat)
    requires p > 0
    ensures a % p <= a && a % p < p
  {
    if a < p {
      DivModUnique(a, 0, a, p);
    }
  }

  /** n is 1, 2, 4, 8, ... */
  ghost predicate PowerOfTwo(n: nat) {
    n == 1 || (n > 0 && n % 2 == 0 && PowerOfTwo(n / 2))
  }
}
