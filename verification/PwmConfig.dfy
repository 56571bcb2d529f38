/** The PWM's configuration register: the prescale, the phase modes of the channels and the bit that keeps the
    generator running. */
module PwmConfig {
  const MAX_CHANNELS: nat := 16
  const MAX_PRESCALE: nat := 15
  const ENALWAYS: bv32 := 0x1000

  function Nibble(prescale: nat): bv32 { (prescale % 16) as bv32 }

  function Scale(cfg: bv32): bv32 { cfg & 0xF }

  /** The prescale the hardware reads out of its configuration. */
  function HardwarePrescale(cfg: bv32): nat { Scale(cfg) as nat }

  /** The prescale bits already set are among those of `prescale`. */
  predicate TakesScale(cfg: bv32, prescale: nat) { Scale(cfg) & !Nibble(prescale) == 0 }

  lemma NibbleIsLow(prescale: nat)
    ensures Nibble(prescale) <= 15
  {
  }

  lemma NibbleValue(prescale: nat)
    ensures Nibble(prescale) as nat == prescale % 16
  {
  }

  lemma NibblesGrow(q: nat, p: nat)
    requires q <= p < 16
    ensures Nibble(q) <= Nibble(p)
  {
    NibbleValue(q);
    NibbleValue(p);
    ValuesOrder(Nibble(q), Nibble(p));
  }

  lemma ValuesOrder(x: bv32, y: bv32)
    requires x <= 15 && y <= 15
    ensures x <= y <==> (x as nat) <= (y as nat)
  {
  }

  lemma SmallValue(x: bv32)
    requires x <= 15
    ensures (x as nat) < 16
  {
  }

  lemma NibbleOfValue(x: bv32)
    requires x <= 15
    ensures (x as nat) < 16 && Nibble(x as nat) == x
  {
    SmallValue(x);
    assert (x as nat) % 16 == x as nat;
  }

  lemma OredScale(cfg: bv32, n: bv32)
    requires n <= 15
    ensures n <= Scale(cfg | n) <= 15
  {
  }

  lemma OredScaleIff(cfg: bv32, n: bv32)
    requires n <= 15
    ensures Scale(cfg | n) == n <==> Scale(cfg) & !n == 0
  {
  }

  /** The configuration ends with the prescale ored in exactly when no other prescale bit was on. */
  lemma ScaleTakenIff(cfg: bv32, prescale: nat)
    ensures Scale(cfg | Nibble(prescale)) == Nibble(prescale) <==> TakesScale(cfg, prescale)
  {
    NibbleIsLow(prescale);
    OredScaleIff(cfg, Nibble(prescale));
  }

  lemma NothingSetTakes(prescale: nat)
    ensures TakesScale(0, prescale)
  {
  }

  lemma OredAtLeast(cfg: bv32, prescale: nat)
    ensures Nibble(prescale) <= Scale(cfg | Nibble(prescale)) <= 15
  {
    NibbleIsLow(prescale);
    OredScale(cfg, Nibble(prescale));
  }

  lemma ValueOrder(x: bv32, prescale: nat)
    requires prescale <= MAX_PRESCALE && Nibble(prescale) <= x <= 15
    ensures x as nat >= prescale && (x as nat == prescale <==> x == Nibble(prescale))
  {
    NibbleOfValue(x);
    NibbleValue(prescale);
    if (x as nat) < prescale {
      NibblesGrow(x as nat, prescale);
    }
  }

  /** Oring a prescale into the configuration never lowers the prescale, and sets it exactly then. */
  lemma OredPrescaleIff(cfg: bv32, prescale: nat)
    requires prescale <= MAX_PRESCALE
    ensures HardwarePrescale(cfg | Nibble(prescale)) >= prescale
    ensures HardwarePrescale(cfg | Nibble(prescale)) == prescale <==> TakesScale(cfg, prescale)
  {
    OredAtLeast(cfg, prescale);
    ValueOrder(Scale(cfg | Nibble(prescale)), prescale);
    ScaleTakenIff(cfg, prescale);
  }

  lemma OneOredIntoTwo()
    ensures Scale(0 | Nibble(2) | Nibble(1)) == 3 && HardwarePrescale(0 | Nibble(2) | Nibble(1)) == 3
  {
    assert Nibble(2) == 2 && Nibble(1) == 1;
  }

  /** METAL_PWMCFG_CMPCENTER */
  function Center(idx: nat): bv32
    requires idx < MAX_CHANNELS
  {
    1 << (16 + idx)
  }

  function WithPhase(cfg: bv32, idx: nat, phaseCorrect: bool): bv32
    requires idx < MAX_CHANNELS
  {
    if phaseCorrect then cfg | Center(idx) else cfg & !Center(idx)
  }

  predicate Running(cfg: bv32) { cfg & ENALWAYS != 0 }

  predicate PhaseCorrect(cfg: bv32, idx: nat)
    requires idx < MAX_CHANNELS
  {
    cfg & (1 << (16 + idx)) != 0
  }

  lemma SetHere(cfg: bv32, bit: bv32)
    ensures (cfg | bit) & bit == bit
  {
  }

  lemma SetElsewhere(cfg: bv32, bit: bv32, other: bv32)
    requires bit & other == 0
    ensures (cfg | bit) & other == cfg & other
  {
  }

  lemma ClearedHere(cfg: bv32, bit: bv32)
    ensures (cfg & !bit) & bit == 0
  {
  }

  lemma ClearedElsewhere(cfg: bv32, bit: bv32, other: bv32)
    requires bit & other == 0
    ensures (cfg & !bit) & other == cfg & other
  {
  }

  lemma CenterIsABit(idx: nat)
    requires idx < MAX_CHANNELS
    ensures Center(idx) != 0
  {
  }

  lemma CentersDistinct(i: nat, j: nat)
    requires i < MAX_CHANNELS && j < MAX_CHANNELS && i != j
    ensures Center(i) & Center(j) == 0
  {
  }

  lemma OredHere(cfg: bv32, idx: nat)
    requires idx < MAX_CHANNELS
    ensures PhaseCorrect(cfg | Center(idx), idx)
  {
    CenterIsABit(idx);
    SetHere(cfg, Center(idx));
  }

  lemma ClearHere(cfg: bv32, idx: nat)
    requires idx < MAX_CHANNELS
    ensures !PhaseCorrect(cfg & !Center(idx), idx)
  {
    ClearedHere(cfg, Center(idx));
  }

  lemma OredOther(cfg: bv32, idx: nat, j: nat)
    requires idx < MAX_CHANNELS && j < MAX_CHANNELS && j != idx
    ensures PhaseCorrect(cfg | Center(idx), j) == PhaseCorrect(cfg, j)
  {
    CentersDistinct(idx, j);
    SetElsewhere(cfg, Center(idx), Center(j));
  }

  lemma ClearOther(cfg: bv32, idx: nat, j: nat)
    requires idx < MAX_CHANNELS && j < MAX_CHANNELS && j != idx
    ensures PhaseCorrect(cfg & !Center(idx), j) == PhaseCorrect(cfg, j)
  {
    CentersDistinct(idx, j);
    ClearedElsewhere(cfg, Center(idx), Center(j));
  }

  /** The channel is in the mode asked for, every other channel is in the mode it was in, and the lower half of
      the word is as it was. */
  ghost predicate PhaseSetAlone(was: bv32, is': bv32, idx: nat, phaseCorrect: bool)
    requires idx < MAX_CHANNELS
  {
    && is' & 0xFFFF == was & 0xFFFF && Scale(is') == Scale(was)
    && forall j :: 0 <= j < MAX_CHANNELS ==>
         PhaseCorrect(is', j) == if j == idx then phaseCorrect else PhaseCorrect(was, j)
  }

  lemma WithPhaseLow(cfg: bv32, idx: nat, phaseCorrect: bool)
    requires idx < MAX_CHANNELS
    ensures WithPhase(cfg, idx, phaseCorrect) & 0xFFFF == cfg & 0xFFFF
  {
    CenterIsHigh(idx);
    if phaseCorrect {
      SetElsewhere(cfg, Center(idx), 0xFFFF);
    } else {
      ClearedElsewhere(cfg, Center(idx), 0xFFFF);
    }
  }

  lemma WithPhaseScale(cfg: bv32, idx: nat, phaseCorrect: bool)
    requires idx < MAX_CHANNELS
    ensures Scale(WithPhase(cfg, idx, phaseCorrect)) == Scale(cfg)
  {
    CenterIsHigh(idx);
    if phaseCorrect {
      SetKeepsScale(cfg, Center(idx));
    } else {
      ClearKeepsScale(cfg, Center(idx));
    }
  }

  lemma SetKeepsScale(cfg: bv32, bit: bv32)
    requires bit & 0xFFFF == 0
    ensures Scale(cfg | bit) == Scale(cfg)
  {
  }

  lemma ClearKeepsScale(cfg: bv32, bit: bv32)
    requires bit & 0xFFFF == 0
    ensures Scale(cfg & !bit) == Scale(cfg)
  {
  }

  lemma WithPhaseAlone(cfg: bv32, idx: nat, phaseCorrect: bool)
    requires idx < MAX_CHANNELS
    ensures PhaseSetAlone(cfg, WithPhase(cfg, idx, phaseCorrect), idx, phaseCorrect)
  {
    var is' := WithPhase(cfg, idx, phaseCorrect);
    WithPhaseLow(cfg, idx, phaseCorrect);
    WithPhaseScale(cfg, idx, phaseCorrect);
    forall j | 0 <= j < MAX_CHANNELS
      ensures PhaseCorrect(is', j) == if j == idx then phaseCorrect else PhaseCorrect(cfg, j)
    {
      WithPhaseAt(cfg, idx, phaseCorrect, j);
    }
  }

  /** Bit 16 + idx becomes the mode asked for, and the bits of the other channels are as they were. */
  lemma WithPhaseAt(cfg: bv32, idx: nat, phaseCorrect: bool, j: nat)
    requires idx < MAX_CHANNELS && j < MAX_CHANNELS
    ensures var r := WithPhase(cfg, idx, phaseCorrect);
      PhaseCorrect(r, j) == if j == idx then phaseCorrect else PhaseCorrect(cfg, j)
  {
    if phaseCorrect && j == idx {
      OredHere(cfg, idx);
    } else if phaseCorrect {
      OredOther(cfg, idx, j);
    } else if j == idx {
      ClearHere(cfg, idx);
    } else {
      ClearOther(cfg, idx, j);
    }
  }

  /** The two words agree in every bit but the one that keeps the generator running. */
  predicate SameButRunning(cfg: bv32, cfg': bv32) { cfg & !ENALWAYS == cfg' & !ENALWAYS }

  lemma StopsOnly(cfg: bv32)
    ensures !Running(cfg & !ENALWAYS) && SameButRunning(cfg & !ENALWAYS, cfg)
    ensures (cfg & !ENALWAYS) & 0x1000 == 0 && (cfg & !ENALWAYS) & 0xFFFF_EFFF == cfg & 0xFFFF_EFFF
  {
  }

  /** Such words have the same prescale and put the same channels in phase-correct mode. */
  lemma SettingsKept(cfg: bv32, cfg': bv32, idx: nat)
    requires SameButRunning(cfg, cfg') && idx < MAX_CHANNELS
    ensures Scale(cfg) == Scale(cfg') && PhaseCorrect(cfg, idx) == PhaseCorrect(cfg', idx)
  {
    CenterIsHigh(idx);
    HighBitsKept(cfg, cfg', Center(idx));
  }

  lemma SameScaleTaken(cfg: bv32, cfg': bv32, prescale: nat)
    requires SameButRunning(cfg, cfg')
    ensures TakesScale(cfg, prescale) == TakesScale(cfg', prescale)
  {
    HighBitsKept(cfg, cfg', 0);
  }

  lemma ScaleStartsNothing(cfg: bv32, prescale: nat)
    ensures Running(cfg | Nibble(prescale)) == Running(cfg)
  {
    NibbleIsLow(prescale);
    LowBitsStartNothing(cfg, Nibble(prescale));
  }

  lemma LowBitsStartNothing(cfg: bv32, bits: bv32)
    requires bits <= 15
    ensures Running(cfg | bits) == Running(cfg)
  {
  }

  lemma CenterIsHigh(idx: nat)
    requires idx < MAX_CHANNELS
    ensures Center(idx) & 0xFFFF == 0
  {
  }

  lemma HighBitsKept(cfg: bv32, cfg': bv32, bit: bv32)
    requires SameButRunning(cfg, cfg') && bit & 0xFFFF == 0
    ensures cfg & bit == cfg' & bit && Scale(cfg) == Scale(cfg')
  {
  }
}
