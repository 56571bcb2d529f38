/** The FE310 PLL driver's arithmetic: the configuration search and what the three stages of a row make of a
    reference. */
module Pll {
  import opened Arithmetic
  import opened PllTable

  const LONG_MAX: int := 0x7FFF_FFFF
  const NOT_VALID: int := -1

  const PLL_R: bv32 := 0x0000_0007
  const PLL_F: bv32 := 0x0000_03F0
  const PLL_Q: bv32 := 0x0000_0C00
  const PLL_SEL: bv32 := 0x0001_0000
  const PLL_REFSEL: bv32 := 0x0002_0000
  const PLL_BYPASS: bv32 := 0x0004_0000
  const PLL_LOCK: bv32 := 0x8000_0000
  const DIV_DIV: bv32 := 0x0000_003F
  const DIV_1: bv32 := 0x0000_0100

  // ---------- the search ----------

  predicate ValidFor(c: PllConfig, refHz: int) { c.lo <= refHz <= c.hi }

  /** get_pll_config_freq */
  function ConfigFreq(c: PllConfig, refHz: nat): int {
    if !ValidFor(c, refHz) || c.divisor == 0 then NOT_VALID else Times(refHz, c.multiplier) / c.divisor
  }

  function Distance(c: PllConfig, refHz: nat, rate: int): int {
    if ConfigFreq(c, refHz) < rate then rate - ConfigFreq(c, refHz) else ConfigFreq(c, refHz) - rate
  }

  lemma MulLe(x: nat, y: nat, n: nat)
    requires x <= y
    ensures Times(x, n) <= Times(y, n)
  {
    assert (y - x) * n >= 0;
  }

  lemma QuotientInRange(x: nat, d: nat)
    requires 1 <= d <= x
    ensures 1 <= x / d <= x
  {
    assert x == (x / d) * d + x % d;
    MulLe(1, d, x / d);
  }

  lemma FreqInRange(c: PllConfig, refHz: nat)
    requires RowOk(c) && ValidFor(c, refHz)
    ensures 1 <= ConfigFreq(c, refHz) <= Times(refHz, c.multiplier) <= 400_000_000
  {
    MulLe(c.lo, refHz, c.multiplier);
    MulLe(refHz, c.hi, c.multiplier);
    QuotientInRange(Times(refHz, c.multiplier), c.divisor);
  }

  /** A row takes a reference exactly within its bounds, and then promises reference * multiplier / divisor. */
  lemma ConfigFreqIff(c: PllConfig, refHz: nat)
    requires RowOk(c)
    ensures ConfigFreq(c, refHz) == -1 <==> !(c.lo <= refHz <= c.hi)
    ensures var p := ConfigFreq(c, refHz);
      c.lo <= refHz <= c.hi ==> p * c.divisor <= refHz * c.multiplier < p * c.divisor + c.divisor
  {
    if ValidFor(c, refHz) {
      FreqInRange(c, refHz);
      DivModIdentity(Times(refHz, c.multiplier), c.divisor);
    }
  }

  /** No valid row's frequency overflows a 32-bit long. */
  ghost predicate Bounded(table: seq<PllConfig>, refHz: nat) {
    forall j :: 0 <= j < |table| && ValidFor(table[j], refHz) ==> 1 <= ConfigFreq(table[j], refHz) <= 400_000_000
  }

  lemma TableBounded(refHz: nat)
    ensures Bounded(Table(), refHz)
  {
    var t := Table();
    forall j | 0 <= j < |t| && ValidFor(t[j], refHz)
      ensures 1 <= ConfigFreq(t[j], refHz) <= 400_000_000
    {
      assert t[j] in t;
      FreqInRange(t[j], refHz);
    }
  }

  /** A nearest valid row of those from `from` on, the last of the nearest ones; -1 when none is valid. */
  ghost predicate Nearest(table: seq<PllConfig>, index: int, from: nat, refHz: nat, rate: int) {
    if index == -1 then forall j :: from <= j < |table| ==> !ValidFor(table[j], refHz)
    else
      && from <= index < |table| && ValidFor(table[index], refHz)
      && forall j :: from <= j < |table| && ValidFor(table[j], refHz) ==>
           Distance(table[index], refHz, rate) <= Distance(table[j], refHz, rate) &&
           (j > index ==> Distance(table[index], refHz, rate) < Distance(table[j], refHz, rate))
  }

  method FindClosestConfig(table: seq<PllConfig>, refHz: nat, rate: int) returns (closestIndex: int)
    requires 400_000_000 - LONG_MAX < rate <= LONG_MAX && Bounded(table, refHz)
    ensures Nearest(table, closestIndex, 0, refHz, rate)
  {
    closestIndex := -1;
    var closestDiff := LONG_MAX;
    for i := |table| downto 0
      invariant Nearest(table, closestIndex, i, refHz, rate)
      invariant closestDiff == if closestIndex == -1 then LONG_MAX else Distance(table[closestIndex], refHz, rate)
    {
      var configFreq := ConfigFreq(table[i], refHz);
      if configFreq != NOT_VALID {
        var freqDiff := if configFreq - rate < 0 then rate - configFreq else configFreq - rate;
        if freqDiff < closestDiff {
          closestIndex := i;
          closestDiff := freqDiff;
        }
      }
    }
  }

  /** A row is valid exactly for the references from 6 to 48 MHz. */
  lemma SomeRowValidIff(refHz: nat)
    ensures (exists i :: 0 <= i < |Table()| && ValidFor(Table()[i], refHz)) <==> 6_000_000 <= refHz <= 48_000_000
  {
    DoublingRows();
    if i :| 0 <= i < |Table()| && ValidFor(Table()[i], refHz) {
      assert Table()[i] in Table();
    }
    if 6_000_000 <= refHz <= 48_000_000 {
      assert ValidFor(Table()[14], refHz) || ValidFor(Table()[15], refHz) || ValidFor(Table()[16], refHz);
    }
  }

  /** The search fails exactly for references outside 6-48 MHz. */
  lemma NearestFindsRow(index: int, refHz: nat, rate: int)
    requires Nearest(Table(), index, 0, refHz, rate)
    ensures index == -1 <==> !(6_000_000 <= refHz <= 48_000_000)
  {
    SomeRowValidIff(refHz);
  }

  // ---------- what a row makes of a reference ----------

  /** The rate the three stages produce, each division rounding down. */
  function StagedRate(c: PllConfig, refHz: nat): nat {
    Quotient(Quotient(Times(Quotient(refHz, DivR(c)), MulF(c)), DivQ(c)), DivOut(c))
  }

  /** The reference after the first stage and the oscillator stay within their bands. */
  lemma StagesInBand(c: PllConfig, refHz: nat)
    requires RowOk(c) && ValidFor(c, refHz)
    ensures 6_000_000 <= refHz / DivR(c) <= 12_000_000
    ensures 384_000_000 <= Times(refHz / DivR(c), MulF(c)) <= 768_000_000
  {
    QuotientMonotone(c.lo, refHz, DivR(c));
    QuotientMonotone(refHz, c.hi, DivR(c));
    Band(c.lo, c.hi, DivR(c), MulF(c));
    MulLe(c.lo / DivR(c), refHz / DivR(c), MulF(c));
    MulLe(refHz / DivR(c), c.hi / DivR(c), MulF(c));
  }

  lemma QuotientMonotone(x: nat, y: nat, n: nat)
    requires x <= y && n > 0
    ensures x / n <= y / n
  {
    assert x == (x / n) * n + x % n && y == (y / n) * n + y % n;
    if y / n < x / n {
      MulLe(y / n + 1, x / n, n);
    }
  }

  lemma Band(lo: nat, hi: nat, n: nat, m: nat)
    requires n > 0 && 6_000_000 * n <= lo && hi <= 12_000_000 * n && hi * m <= 768_000_000 * n
    ensures 6_000_000 <= lo / n && hi / n <= 12_000_000 && Times(hi / n, m) <= 768_000_000
  {
    DivModIdentity(lo, n);
    DivModIdentity(hi, n);
    MulStep(lo / n, 6_000_000, n);
    MulStep(12_000_000, hi / n, n);
    OscillatorBound(hi / n, hi, n, m);
  }

  lemma OscillatorBound(q: nat, hi: nat, n: nat, m: nat)
    requires n > 0 && q * n <= hi && hi * m <= 768_000_000 * n
    ensures Times(q, m) <= 768_000_000
  {
    MulLe(q * n, hi, m);
    assert (q * n) * m == (q * m) * n;
    Cancel(q * m, 768_000_000, n);
  }

  /** The staged rate is at most the promised one and falls short of it by at most r * multiplier. */
  lemma StagedRateBounds(c: PllConfig, refHz: nat)
    requires RowOk(c) && ValidFor(c, refHz)
    ensures StagedRate(c, refHz) <= ConfigFreq(c, refHz) <= StagedRate(c, refHz) + c.r as nat * c.multiplier
  {
    StagesBounds(refHz, DivR(c), MulF(c), DivQ(c), DivOut(c), c.multiplier, c.divisor);
  }

  lemma StagesBounds(refHz: nat, a: nat, m: nat, q: nat, e: nat, mult: nat, div: nat)
    requires a > 0 && q > 0 && e > 0 && div > 0 && mult * (a * (q * e)) == m * div
    ensures var z, p := Quotient(Quotient(Times(Quotient(refHz, a), m), q), e), Quotient(Times(refHz, mult), div);
      z <= p <= z + (a - 1) * mult
  {
    var x := Quotient(refHz, a);
    var y := Quotient(Times(x, m), q);
    var z, p := Quotient(y, e), Quotient(Times(refHz, mult), div);
    QuotientBounds(refHz, a);
    QuotientBounds(Times(x, m), q);
    QuotientBounds(y, e);
    QuotientBounds(Times(refHz, mult), div);
    NestedQuotient(Times(x, m), q, e, y, z);
    AtMost(refHz, a, m, q * e, mult, div, x, z, p);
    ShortBy(refHz, a, m, q * e, mult, div, x, z, p);
  }

  lemma NestedQuotient(v: nat, q: nat, e: nat, y: nat, z: nat)
    requires y * q <= v < y * q + q && z * e <= y < z * e + e
    ensures z * (q * e) <= v < (z + 1) * (q * e) && q * e > 0
  {
    assert (z * e) * q == z * (q * e);
    MulLe(z * e, y, q);
    MulLe(y + 1, z * e + e, q);
    assert (z * e + e) * q == z * (q * e) + q * e;
  }

  lemma Cancel(u: nat, v: nat, n: nat)
    requires n > 0 && u * n < v * n + n
    ensures u <= v
  {
    if u > v {
      MulLe(v + 1, u, n);
    }
  }

  /** With a reference x and v = x * a + rest: z stages out of x * m against the promise p. */
  lemma AtMost(refHz: nat, a: nat, m: nat, d: nat, mult: nat, div: nat, x: nat, z: nat, p: nat)
    requires a > 0 && d > 0 && div > 0 && mult * (a * d) == m * div
    requires x * a <= refHz && z * d <= x * m && refHz * mult < p * div + div
    ensures z <= p
  {
    calc {
      (z * div) * (a * d);
      ((z * d) * a) * div;
    <= { MulLe(z * d, x * m, a); MulLe((z * d) * a, (x * m) * a, div); }
      ((x * m) * a) * div;
      (x * a) * (m * div);
    <= { MulLe(x * a, refHz, m * div); }
      refHz * (m * div);
      (refHz * mult) * (a * d);
    }
    Cancel(z * div, refHz * mult, a * d);
    Cancel(z, p, div);
  }

  lemma ShortBy(refHz: nat, a: nat, m: nat, d: nat, mult: nat, div: nat, x: nat, z: nat, p: nat)
    requires a > 0 && d > 0 && div > 0 && mult * (a * d) == m * div
    requires refHz < x * a + a && x * m < (z + 1) * d && p * div <= refHz * mult
    ensures p <= z + (a - 1) * mult
  {
    StrictlyShort(x * a, a, m, d, mult, div, x, z);
    ShortOfPromise(refHz, x * a, a, mult, div, z, p);
  }

  lemma ShortOfPromise(refHz: nat, w: nat, a: nat, mult: nat, div: nat, z: nat, p: nat)
    requires a > 0 && div > 0 && refHz < w + a && w * mult < (z + 1) * div && p * div <= refHz * mult
    ensures p <= z + (a - 1) * mult
  {
    WithinStep(refHz, w, a, mult);
    ShortfallBound(p, z, div, (a - 1) * mult);
  }

  lemma WithinStep(refHz: nat, w: nat, a: nat, mult: nat)
    requires a > 0 && refHz < w + a
    ensures refHz * mult <= w * mult + (a - 1) * mult
  {
    MulLe(refHz, w + (a - 1), mult);
    assert (w + (a - 1)) * mult == w * mult + (a - 1) * mult;
  }

  lemma StrictlyShort(w: nat, a: nat, m: nat, d: nat, mult: nat, div: nat, x: nat, z: nat)
    requires a > 0 && d > 0 && div > 0 && mult * (a * d) == m * div
    requires w == x * a && x * m < (z + 1) * d
    ensures w * mult < (z + 1) * div
  {
    Regroup(x, m, a, mult, div, d);
    ScaleStrict(x * m, (z + 1) * d, a, div);
    assert (((z + 1) * d) * a) * div == ((z + 1) * div) * (a * d);
    CancelStrict(w * mult, (z + 1) * div, a * d);
  }

  lemma Regroup(x: nat, m: nat, a: nat, mult: nat, div: nat, d: nat)
    requires mult * (a * d) == m * div
    ensures ((x * a) * mult) * (a * d) == ((x * m) * a) * div
  {
    calc {
      ((x * a) * mult) * (a * d);
      (x * a) * (mult * (a * d));
      (x * a) * (m * div);
      ((x * m) * a) * div;
    }
  }

  lemma CancelStrict(u: nat, v: nat, n: nat)
    requires u * n < v * n
    ensures u < v
  {
    if v <= u {
      MulLe(v, u, n);
    }
  }

  lemma ScaleStrict(u: nat, v: nat, a: nat, b: nat)
    requires u < v && a > 0 && b > 0
    ensures (u * a) * b < (v * a) * b
  {
    MulLe(u + 1, v, a);
    assert (u + 1) * a == u * a + a;
    MulLe(u * a + 1, v * a, b);
    assert (u * a + 1) * b == (u * a) * b + b;
  }

  lemma ShortfallBound(p: nat, z: nat, div: nat, short: nat)
    requires div > 0 && p * div < (z + 1) * div + short
    ensures p <= z + short
  {
    MulLe(1, div, short);
    assert (z + short) * div + div == (z + 1) * div + short * div;
    Cancel(p, z + short, div);
  }
}
