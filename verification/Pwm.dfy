/** The arithmetic of the PWM driver: the prescaler search, the frequency it achieves and duty values. */
module Pwm {
  import opened Arithmetic
  import opened PwmConfig

  const MAX_DUTY: nat := 100
  const UINT_LIMIT: nat := 0x1_0000_0000
  const MAX_EXACT_WIDTH: nat := 25

  /** The count the search computes at a prescale. */
  function Count(clockRate: nat, prescale: nat, freq: nat): nat
    requires freq > 0
  {
    Quotient(Quotient(clockRate, Pow2(prescale)), freq)
  }

  lemma DivDiv(x: nat, a: nat, b: nat)
    requires a > 0 && b > 0
    ensures x / a / b == x / (a * b)
  {
    var q := x / a / b;
    var r := (x / a % b) * a + x % a;
    DivModIdentity(x, a);
    DivModIdentity(x / a, b);
    assert (q * b) * a == q * (a * b);
    MulStep(x / a % b, b, a);
    DivModUnique(x, q, r, a * b);
  }

  /** One more prescale bit halves the count. */
  lemma CountHalves(clockRate: nat, prescale: nat, freq: nat)
    requires freq > 0
    ensures Count(clockRate, prescale + 1, freq) == Count(clockRate, prescale, freq) / 2
  {
    var x := clockRate / Pow2(prescale);
    HalfOfQuotient(clockRate, Pow2(prescale));
    DivDiv(x, 2, freq);
    HalfOfQuotient(x, freq);
  }

  /** Some prescale the register can hold brings the count within the comparator. */
  predicate Solvable(clockRate: nat, freq: nat, maxCount: nat)
    requires freq > 0
  {
    Count(clockRate, MAX_PRESCALE, freq) <= maxCount
  }

  /** The outcome of the search: the least prescale at which the count fits. */
  ghost predicate LeastFit(clockRate: nat, freq: nat, maxCount: nat, prescale: nat)
    requires freq > 0
  {
    && prescale <= MAX_PRESCALE && Count(clockRate, prescale, freq) <= maxCount
    && forall q :: 0 <= q < prescale ==> Count(clockRate, q, freq) > maxCount
  }

  /** The frequency the hardware makes of a count: at least the one asked for and less than one part in
      `count` above it. */
  lemma AchievedFrequency(x: nat, freq: nat, count: nat)
    requires count > 0 && count * freq <= x < count * freq + freq
    ensures freq <= Quotient(x, count) && Quotient(x, count) * count < freq * (count + 1)
  {
    MulStep(Quotient(x, count), freq, count);
    assert freq * (count + 1) == count * freq + freq;
  }

  /** A prescaled count keeps the comparator's top bit. */
  lemma PrescaledCountIsLarge(clockRate: nat, freq: nat, prescale: nat, width: nat)
    requires freq > 0 && width >= 1 && prescale >= 1 && Count(clockRate, prescale - 1, freq) >= Pow2(width)
    ensures Count(clockRate, prescale, freq) >= Pow2(width - 1)
  {
    CountHalves(clockRate, prescale - 1, freq);
    assert Pow2(width) == 2 * Pow2(width - 1);
  }

  /** do { count = ... } while (count > max_count && prescale++ < 15). The count it ends with is zero exactly
      for a frequency above the clock's. */
  method SearchPrescale(clockRate: nat, freq: nat, maxCount: nat) returns (count: nat, prescale: nat)
    requires freq > 0 && maxCount >= 1
    ensures count == 0 <==> clockRate < freq
    ensures Solvable(clockRate, freq, maxCount) <==> count <= maxCount
    ensures Solvable(clockRate, freq, maxCount) ==>
      LeastFit(clockRate, freq, maxCount, prescale) && count == Count(clockRate, prescale, freq)
    ensures !Solvable(clockRate, freq, maxCount) ==>
      prescale == MAX_PRESCALE + 1 && count == Count(clockRate, MAX_PRESCALE, freq)
  {
    prescale := 0;
    FirstCount(clockRate, freq);
    while true
      invariant prescale <= MAX_PRESCALE
      invariant forall q :: 0 <= q < prescale ==> Count(clockRate, q, freq) > maxCount
      invariant Count(clockRate, prescale, freq) == 0 <==> clockRate < freq
      decreases MAX_PRESCALE - prescale
    {
      count := clockRate / Pow2(prescale) / freq;
      if count <= maxCount {
        CountsFall(clockRate, freq, prescale, MAX_PRESCALE);
        return;
      }
      CountHalves(clockRate, prescale, freq);
      prescale := prescale + 1;
      if prescale > MAX_PRESCALE {
        return;
      }
    }
  }

  /** Without prescaling the count is zero exactly for a frequency above the clock's. */
  lemma FirstCount(clockRate: nat, freq: nat)
    requires freq > 0
    ensures Count(clockRate, 0, freq) == 0 <==> clockRate < freq
  {
    assert Pow2(0) == 1;
    DivModIdentity(clockRate, freq);
    if clockRate < freq {
      DivModUnique(clockRate, 0, clockRate, freq);
    }
  }

  lemma {:induction false} CountsFall(clockRate: nat, freq: nat, p: nat, q: nat)
    requires freq > 0 && p <= q
    ensures Count(clockRate, q, freq) <= Count(clockRate, p, freq)
  {
    if p < q {
      CountsFall(clockRate, freq, p, q - 1);
      CountHalves(clockRate, q - 1, freq);
    }
  }

  /** METAL_PWM_GETCMPVAL, in unsigned 32-bit arithmetic. */
  function CompareValue(duty: nat, countVal: nat): nat {
    duty * countVal % UINT_LIMIT / 100
  }

  lemma CompareExact(duty: nat, countVal: nat, product: nat)
    requires duty <= MAX_DUTY && countVal * 100 < UINT_LIMIT && product == duty * countVal
    ensures product <= 100 * countVal && CompareValue(duty, countVal) == product / 100
  {
    MulStep(duty, 100, countVal);
  }

  /** A product that wraps gives less than the duty's share. */
  lemma CompareWraps(duty: nat, countVal: nat, product: nat)
    requires product == duty * countVal
    ensures CompareValue(duty, countVal) == product / 100 <==> product < UINT_LIMIT
    ensures product >= UINT_LIMIT ==> CompareValue(duty, countVal) < product / 100
  {
    if product >= UINT_LIMIT {
      ModAtMost(product - UINT_LIMIT, UINT_LIMIT);
      DropOne(product, UINT_LIMIT);
    } else {
      DivModUnique(product, 0, product, UINT_LIMIT);
    }
  }

  lemma DropOne(x: nat, n: nat)
    requires n > 0 && x >= n
    ensures x % n == (x - n) % n
  {
    DivModIdentity(x - n, n);
    DivModUnique(x, (x - n) / n + 1, (x - n) % n, n);
  }

  /** Every duty up to 100 gets exactly its share of the count exactly when a hundred counts fit 32 bits. */
  lemma DutiesExactIff(countVal: nat)
    ensures (forall d: nat :: d <= MAX_DUTY ==> CompareValue(d, countVal) == Times(d, countVal) / 100)
       <==> countVal * 100 < UINT_LIMIT
  {
    CompareWraps(MAX_DUTY, countVal, MAX_DUTY * countVal);
    assert Times(MAX_DUTY, countVal) == MAX_DUTY * countVal == countVal * 100;
    if countVal * 100 < UINT_LIMIT {
      forall d: nat | d <= MAX_DUTY
        ensures CompareValue(d, countVal) == Times(d, countVal) / 100
      {
        CompareExact(d, countVal, Times(d, countVal));
      }
    }
  }

  /** Duties up to 100 give compare values that grow with the duty and never pass the count. */
  lemma DutyMonotone(d: nat, d': nat, countVal: nat)
    requires d <= d' <= MAX_DUTY && countVal * 100 < UINT_LIMIT
    ensures CompareValue(d, countVal) <= CompareValue(d', countVal) <= countVal
    ensures CompareValue(MAX_DUTY, countVal) == countVal && CompareValue(0, countVal) == 0
  {
    CompareExact(d, countVal, d * countVal);
    CompareExact(d', countVal, d' * countVal);
    MulStep(d, d', countVal);
    HundredthsGrow(d * countVal, d' * countVal, countVal);
    CompareExact(MAX_DUTY, countVal, MAX_DUTY * countVal);
  }

  lemma HundredthsGrow(x: nat, y: nat, countVal: nat)
    requires x <= y <= 100 * countVal
    ensures x / 100 <= y / 100 <= countVal
  {
  }

  lemma DutiesMonotone(countVal: nat)
    requires countVal * 100 < UINT_LIMIT
    ensures forall d, d' :: 0 <= d <= d' <= MAX_DUTY ==>
      CompareValue(d, countVal) <= CompareValue(d', countVal) <= countVal
  {
    forall d, d' | 0 <= d <= d' <= MAX_DUTY
      ensures CompareValue(d, countVal) <= CompareValue(d', countVal) <= countVal
    {
      DutyMonotone(d, d', countVal);
    }
  }

  /** When some prescale fits: the least one, the frequency it achieves and the room it leaves for duties.
      Otherwise the prescale is past its field and the count past the comparator. */
  ghost predicate Programmed(clockRate: nat, f: nat, maxCount: nat, width: nat, prescale: nat, countVal: nat,
                             achieved: nat)
    requires f > 0
  {
    achieved == Count(clockRate, prescale, countVal + 1) &&
    if Solvable(clockRate, f, maxCount) then
      && LeastFit(clockRate, f, maxCount, prescale) && countVal + 1 == Count(clockRate, prescale, f)
      && f <= achieved && achieved * (countVal + 1) < f * (countVal + 2)
      && (prescale >= 1 && width >= 1 ==> countVal + 1 >= Pow2(width - 1))
    else prescale == MAX_PRESCALE + 1 && countVal + 1 == Count(clockRate, MAX_PRESCALE, f) && countVal >= maxCount
  }

  /** What the least fit promises about the frequency and the count. */
  lemma FitFacts(clockRate: nat, f: nat, maxCount: nat, width: nat, prescale: nat)
    requires f > 0 && width >= 1 && maxCount == Pow2(width) - 1 && LeastFit(clockRate, f, maxCount, prescale)
    requires Count(clockRate, prescale, f) >= 1
    ensures var count := Count(clockRate, prescale, f);
      var achieved := Quotient(Quotient(clockRate, Pow2(prescale)), count);
      f <= achieved && achieved * count < f * (count + 1) && (prescale >= 1 ==> count >= Pow2(width - 1))
  {
    AchievedFrequency(Quotient(clockRate, Pow2(prescale)), f, Count(clockRate, prescale, f));
    if prescale >= 1 {
      PrescaledCountIsLarge(clockRate, f, prescale, width);
    }
  }

  /** When no prescale fits, the frequency recorded is zero exactly for a request of 1 Hz. */
  lemma OverflowFreq(clockRate: nat, f: nat)
    requires f > 0 && Count(clockRate, MAX_PRESCALE, f) >= 2
    ensures Quotient(Quotient(clockRate, Pow2(MAX_PRESCALE + 1)), Count(clockRate, MAX_PRESCALE, f)) > 0 <==> f >= 2
  {
    HalfOfQuotient(clockRate, Pow2(MAX_PRESCALE));
    HalfOverCount(Quotient(clockRate, Pow2(MAX_PRESCALE)), f);
  }

  lemma HalfOverCount(x: nat, f: nat)
    requires f > 0 && x / f >= 2
    ensures Quotient(x / 2, x / f) > 0 <==> f >= 2
  {
    var count := x / f;
    DivModIdentity(x, f);
    if f >= 2 {
      MulStep(1, f, count);
      if x / 2 / count == 0 {
        DivModIdentity(x / 2, count);
      }
    } else {
      DivModUnique(x / 2, 0, x / 2, count);
    }
  }

  /** Some prescale fits, or the request is for more than 1 Hz: set_freq then records a frequency above zero. */
  predicate Keeps(clockRate: nat, f: nat, maxCount: nat)
    requires f > 0
  {
    Solvable(clockRate, f, maxCount) || f >= 2
  }

  /** What the search finds is what the registers are programmed with. */
  lemma SearchProgrammed(clockRate: nat, f: nat, maxCount: nat, width: nat, count: nat, scale: nat)
    requires f > 0 && width >= 1 && maxCount == Pow2(width) - 1 && maxCount >= 1 && count >= 1
    requires Solvable(clockRate, f, maxCount) <==> count <= maxCount
    requires if count <= maxCount then LeastFit(clockRate, f, maxCount, scale) && count == Count(clockRate, scale, f)
      else scale == MAX_PRESCALE + 1 && count == Count(clockRate, MAX_PRESCALE, f)
    ensures var achieved := Quotient(Quotient(clockRate, Pow2(scale)), count);
      && Programmed(clockRate, f, maxCount, width, scale, count - 1, achieved)
      && (achieved != 0 <==> Keeps(clockRate, f, maxCount))
  {
    if count <= maxCount {
      FitFacts(clockRate, f, maxCount, width, scale);
    } else {
      OverflowFreq(clockRate, f);
    }
  }

  /** With a comparator of up to 25 bits a hundred counts always fit 32 bits. */
  lemma CountsFitDuties(clockRate: nat, f: nat, maxCount: nat, width: nat, prescale: nat, countVal: nat, achieved: nat)
    requires f > 0 && clockRate < UINT_LIMIT && width <= MAX_EXACT_WIDTH && maxCount == Pow2(width) - 1
    requires Programmed(clockRate, f, maxCount, width, prescale, countVal, achieved)
    ensures countVal * 100 < UINT_LIMIT
  {
    if Solvable(clockRate, f, maxCount) {
      Pow2Monotone(width, MAX_EXACT_WIDTH);
      Pow2Is25();
    } else {
      OverflowCount(clockRate, f);
    }
  }

  lemma Pow2Is25()
    ensures Pow2(MAX_EXACT_WIDTH) == 33_554_432 && Pow2(MAX_PRESCALE) == 32_768
  {
    assert Pow2(5) == 32;
    Pow2Add(5, 5);
    Pow2Add(10, 5);
    Pow2Add(10, 15);
  }

  /** Prescaled 15 times, no 32-bit clock gives a count of more than 17 bits. */
  lemma OverflowCount(clockRate: nat, f: nat)
    requires f > 0 && clockRate < UINT_LIMIT
    ensures Count(clockRate, MAX_PRESCALE, f) < 131_072
  {
    Pow2Is25();
    CountAtMost(Quotient(clockRate, 32_768), f);
  }

  lemma CountAtMost(x: nat, f: nat)
    requires f > 0
    ensures Quotient(x, f) <= x
  {
    MulStep(0, f, Quotient(x, f));
  }

  /** A 10 MHz clock and an 8-bit comparator: no prescale makes 1 Hz. */
  lemma OneHertzOverflows()
    ensures !Solvable(10_000_000, 1, Pow2(8) - 1) && !Keeps(10_000_000, 1, Pow2(8) - 1)
  {
    Pow2Is25();
    DivModUnique(10_000_000, 305, 5_760, 32_768);
    assert Quotient(305, 1) == 305;
    assert Pow2(4) == 16;
    Pow2Add(4, 4);
  }

  /** The frequency the hardware generates. */
  function HardwareFreq(clockRate: nat, cfg: bv32, countVal: nat): nat {
    Count(clockRate, HardwarePrescale(cfg), countVal + 1)
  }

  /** A larger prescale than the one searched for at least halves the frequency. */
  lemma {:induction false} LargerPrescaleHalves(clockRate: nat, p: nat, q: nat, count: nat)
    requires count > 0 && p < q
    ensures 2 * Count(clockRate, q, count) <= Count(clockRate, p, count)
  {
    CountHalves(clockRate, q - 1, count);
    if p < q - 1 {
      LargerPrescaleHalves(clockRate, p, q - 1, count);
    }
  }

  /** The hardware generates the frequency recorded exactly when the configuration takes the prescale found;
      otherwise at most half of it. */
  lemma GeneratesIff(clockRate: nat, f: nat, maxCount: nat, width: nat, prescale: nat, countVal: nat, achieved: nat,
                     cfg: bv32)
    requires f > 0 && Solvable(clockRate, f, maxCount)
    requires Programmed(clockRate, f, maxCount, width, prescale, countVal, achieved)
    ensures var generated := HardwareFreq(clockRate, cfg | Nibble(prescale), countVal);
      (generated == achieved <==> TakesScale(cfg, prescale)) && (generated != achieved ==> 2 * generated <= achieved)
  {
    OredPrescaleIff(cfg, prescale);
    var p := HardwarePrescale(cfg | Nibble(prescale));
    if p != prescale {
      LargerPrescaleHalves(clockRate, prescale, p, countVal + 1);
    }
  }

  lemma SixteenKilohertz()
    ensures Count(4_000_000, 0, 16_000) == 250 && Count(4_000_000, 0, 32_000) == 125 && Pow2(8) - 1 == 255
    ensures CompareValue(50, 249) == 124 && CompareValue(50, 124) == 62
  {
    assert Pow2(0) == 1;
    assert Pow2(4) == 16;
    Pow2Add(4, 4);
  }

  /** Counts and frequencies of 4 kHz at 4 and at 2 MHz. */
  ghost predicate FourKilohertzCounts() {
    && LeastFit(4_000_000, 4_000, 255, 2) && Count(4_000_000, 2, 4_000) == 250 && Count(4_000_000, 2, 250) == 4_000
    && LeastFit(2_000_000, 4_000, 255, 1) && Count(2_000_000, 1, 4_000) == 250 && Count(2_000_000, 1, 250) == 4_000
    && Count(2_000_000, 3, 250) == 1_000
  }

  lemma FourKilohertz()
    ensures FourKilohertzCounts() && Pow2(8) - 1 == 255
  {
    assert Pow2(0) == 1 && Pow2(1) == 2 && Pow2(2) == 4 && Pow2(3) == 8;
    assert Count(4_000_000, 0, 4_000) == 1_000 && Count(4_000_000, 1, 4_000) == 500;
    assert Count(2_000_000, 0, 4_000) == 500;
    assert Pow2(4) == 16;
    Pow2Add(4, 4);
  }

  /** A fit the search could end with is the one it ends with. */
  lemma SolvedBy(clockRate: nat, f: nat, maxCount: nat, fit: nat, prescale: nat)
    requires f > 0 && LeastFit(clockRate, f, maxCount, fit)
    ensures Solvable(clockRate, f, maxCount)
    ensures LeastFit(clockRate, f, maxCount, prescale) ==> prescale == fit
  {
    CountsFall(clockRate, f, fit, MAX_PRESCALE);
  }

  lemma DutyShare(percent: nat, countVal: nat)
    requires percent <= MAX_DUTY
    ensures countVal * 100 < UINT_LIMIT ==>
      CompareValue(percent, countVal) == Times(percent, countVal) / 100 <= countVal
  {
    if countVal * 100 < UINT_LIMIT {
      CompareExact(percent, countVal, Times(percent, countVal));
    }
  }
}
