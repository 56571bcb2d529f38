/** The PWM driver: its registers and fields, and its use of the clock's callback lists. */
module PwmDriver {
  import opened Arithmetic
  import opened ClockCallbacks
  import opened PwmConfig
  import opened Pwm

  /** The return codes, and a division by zero, which C leaves undefined. */
  datatype Outcome = Ok | Err | DivideByZero

  class Device {
    const clock: Clock
    const preCb: Callback
    const postCb: Callback
    const width: nat
    const cmpCount: nat
    var maxCount: nat
    var countVal: nat
    var freq: nat
    const duty: array<nat>
    var pwmcfg: bv32
    const pwmcmp: array<nat>

    ghost predicate Wired()
      reads this, clock, clock.pre, clock.post
    {
      clock.Valid() && Shaped()
    }

    /** A comparator of 1 to 31 bits: of 32, 1UL << width is undefined. */
    ghost predicate Shaped() {
      && preCb != postCb && duty != pwmcmp
      && duty.Length == pwmcmp.Length == MAX_CHANNELS && cmpCount <= MAX_CHANNELS && 1 <= width <= 31
    }

    ghost predicate Unregistered()
      reads this, clock
    {
      preCb !in clock.pre && preCb !in clock.post && postCb !in clock.pre && postCb !in clock.post
    }

    /** The driver registers its callbacks when freq is zero, so freq must be zero only before it has. */
    ghost predicate Valid()
      reads this, clock, clock.pre, clock.post
    {
      && Wired() && maxCount == Pow2(width) - 1
      && (freq == 0 ==> Unregistered())
      && (freq != 0 ==> preCb in clock.pre && postCb in clock.post)
    }

    /** The clock's rate, a long, as the unsigned int the driver keeps it in. */
    function Rate(): nat
      reads this, clock
    {
      clock.rate % UINT_LIMIT
    }

    constructor (clock: Clock, width: nat, cmpCount: nat)
      requires clock.Valid() && cmpCount <= MAX_CHANNELS && 1 <= width <= 31
      ensures Wired() && Unregistered() && this.clock == clock && this.width == width && this.cmpCount == cmpCount
      ensures fresh(duty) && fresh(pwmcmp) && fresh(preCb) && fresh(postCb)
    {
      this.clock, this.width, this.cmpCount := clock, width, cmpCount;
      preCb := new Callback();
      postCb := new Callback();
      duty := new nat[MAX_CHANNELS];
      pwmcmp := new nat[MAX_CHANNELS];
      maxCount, countVal, freq, pwmcfg := 0, 0, 0, 0;
    }

    /** Enabling makes the device valid exactly when its callbacks are not on the clock yet. */
    method Enable()
      requires Wired()
      modifies this
      ensures Wired() && maxCount == Pow2(width) - 1 && freq == 0 && countVal == 0 && pwmcfg == 0
      ensures Valid() <==> Unregistered()
    {
      maxCount := Pow2(width) - 1;
      freq, countVal, pwmcfg := 0, 0, 0;
    }

    /** The registration guard of set_freq. A callback already on its list then points to itself, and a walk
        of the list does not end. */
    method RegisterOnce()
      requires Wired() && preCb !in clock.post
      modifies clock`preCallback, clock`postCallback, clock`pre, clock`post, clock.pre, clock.post, preCb, postCb
      ensures clock.pre == old(clock.pre) + (if freq == 0 then [preCb] else [])
      ensures clock.post == old(clock.post) + (if freq == 0 then [postCb] else [])
      ensures freq != 0 || old(Unregistered()) ==> Wired()
      ensures freq == 0 && preCb in old(clock.pre) ==> preCb.next == preCb
    {
      if freq == 0 {
        clock.RegisterPre(preCb);
        clock.RegisterPost(postCb);
      }
    }

    /** The search and the registers it sets: the least prescale that fits when one does, otherwise a prescale
        past its field and a count past the comparator. It divides by zero, with nothing set, exactly for a
        frequency of zero or above the clock's. */
    method Program(clockRate: nat, f: nat) returns (ret: Outcome, ghost prescale: nat)
      requires Shaped() && maxCount == Pow2(width) - 1
      modifies this`freq, this`countVal, this`pwmcfg, pwmcmp
      ensures ret == if f == 0 || clockRate < f then DivideByZero else Ok
      ensures ret != Ok ==> Unset(old(freq), old(countVal), old(pwmcfg), old(pwmcmp[..]))
      ensures ret == Ok ==> ProgrammedFor(clockRate, f, prescale, old(pwmcfg), old(pwmcmp[..]))
      ensures ret == Ok ==> (freq != 0 <==> Keeps(clockRate, f, maxCount))
    {
      assert Pow2(width) == 2 * Pow2(width - 1);
      prescale := 0;
      if f == 0 {
        return DivideByZero, 0;
      }
      var count, scale := SearchPrescale(clockRate, f, maxCount);
      if count == 0 {
        return DivideByZero, 0;
      }
      SearchProgrammed(clockRate, f, maxCount, width, count, scale);
      Store(clockRate, count, scale);
      return Ok, scale;
    }

    /** The writes after the search. */
    method Store(clockRate: nat, count: nat, scale: nat)
      requires Shaped() && count > 0
      modifies this`freq, this`countVal, this`pwmcfg, pwmcmp
      ensures freq == Count(clockRate, scale, count) && countVal == count - 1
      ensures pwmcmp[..] == old(pwmcmp[..])[0 := countVal] && pwmcfg == old(pwmcfg) | Nibble(scale)
    {
      freq := Quotient(Quotient(clockRate, Pow2(scale)), count);
      countVal := count - 1;
      pwmcmp[0] := countVal;
      pwmcfg := pwmcfg | Nibble(scale);
    }

    /** The frequency, count and registers are as given. */
    ghost predicate Unset(freq: nat, countVal: nat, cfg: bv32, cmp: seq<nat>)
      reads this, pwmcmp
    {
      this.freq == freq && this.countVal == countVal && pwmcfg == cfg && pwmcmp[..] == cmp
    }

    /** The device runs at what the search makes of `f`; only comparator 0 and the prescale have been written. */
    ghost predicate ProgrammedFor(clockRate: nat, f: nat, prescale: nat, cfg: bv32, cmp: seq<nat>)
      requires f > 0 && |cmp| > 0
      reads this, pwmcmp
    {
      && Programmed(clockRate, f, maxCount, width, prescale, countVal, freq)
      && pwmcmp[..] == cmp[0 := countVal] && pwmcfg == cfg | Nibble(prescale)
    }

    function FreqOutcome(idx: nat, f: nat): Outcome
      reads this, clock
    {
      if idx >= cmpCount then Err else if f == 0 || Rate() < f then DivideByZero else Ok
    }

    /** The callbacks join the clock's lists the first time, on whatever follows. Afterwards the device is valid
        exactly unless the request was for 1 Hz and no prescale fits: then freq is zero again though the
        callbacks are registered; or the first request divides by zero. */
    method SetFreq(idx: nat, f: nat) returns (ret: Outcome, ghost prescale: nat)
      requires Valid()
      modifies this`freq, this`countVal, this`pwmcfg, pwmcmp
      modifies clock`preCallback, clock`postCallback, clock`pre, clock`post, clock.pre, clock.post, preCb, postCb
      ensures ret == FreqOutcome(idx, f)
      ensures ret == if idx >= cmpCount then Err
                     else if f == 0 || clock.rate % 0x1_0000_0000 < f then DivideByZero else Ok
      ensures clock.pre == old(clock.pre) + (if ret != Err && old(freq) == 0 then [preCb] else [])
      ensures clock.post == old(clock.post) + (if ret != Err && old(freq) == 0 then [postCb] else [])
      ensures ret != Ok ==> Unset(old(freq), old(countVal), old(pwmcfg), old(pwmcmp[..]))
      ensures ret == Ok ==> ProgrammedFor(Rate(), f, prescale, old(pwmcfg), old(pwmcmp[..]))
      ensures Wired() && (Valid() <==> StillValid(ret, f, old(freq)))
      ensures ret == Ok ==> GeneratesFreqIff(f, prescale, old(pwmcfg))
    {
      prescale := 0;
      if idx >= cmpCount {
        return Err, 0;
      }
      ghost var before := pwmcfg;
      ret, prescale := RegisterAndProgram(f);
      if ret == Ok {
        ProgrammedGenerates(f, prescale, before);
      }
    }

    /** The frequency the hardware generates. */
    function Generated(): nat
      reads this, clock
    {
      HardwareFreq(Rate(), pwmcfg, countVal)
    }

    /** With a prescale that fits, the hardware generates the frequency recorded exactly when the configuration
        before held no other prescale bit; otherwise it generates at most half of it. */
    ghost predicate GeneratesFreqIff(f: nat, prescale: nat, before: bv32)
      requires f > 0
      reads this, clock
    {
      Solvable(Rate(), f, maxCount) ==>
        (Generated() == freq <==> TakesScale(before, prescale)) && (Generated() != freq ==> 2 * Generated() <= freq)
    }

    lemma ProgrammedGenerates(f: nat, prescale: nat, before: bv32)
      requires f > 0 && Programmed(Rate(), f, maxCount, width, prescale, countVal, freq)
      requires pwmcfg == before | Nibble(prescale)
      ensures GeneratesFreqIff(f, prescale, before)
    {
      if Solvable(Rate(), f, maxCount) {
        GeneratesIff(Rate(), f, maxCount, width, prescale, countVal, freq, before);
      }
    }

    method RegisterAndProgram(f: nat) returns (ret: Outcome, ghost prescale: nat)
      requires Valid()
      modifies this`freq, this`countVal, this`pwmcfg, pwmcmp
      modifies clock`preCallback, clock`postCallback, clock`pre, clock`post, clock.pre, clock.post, preCb, postCb
      ensures ret == if f == 0 || Rate() < f then DivideByZero else Ok
      ensures clock.pre == old(clock.pre) + (if old(freq) == 0 then [preCb] else [])
      ensures clock.post == old(clock.post) + (if old(freq) == 0 then [postCb] else [])
      ensures Wired() && preCb in clock.pre && postCb in clock.post
      ensures ret != Ok ==> Unset(old(freq), old(countVal), old(pwmcfg), old(pwmcmp[..]))
      ensures ret == Ok ==> ProgrammedFor(Rate(), f, prescale, old(pwmcfg), old(pwmcmp[..]))
      ensures ret == Ok ==> (freq != 0 <==> Keeps(Rate(), f, maxCount))
    {
      RegisterOnce();
      ret, prescale := Program(clock.rate % UINT_LIMIT, f);
    }

    ghost predicate StillValid(ret: Outcome, f: nat, before: nat)
      reads this, clock
    {
      match ret
      case Err => true
      case DivideByZero => before != 0
      case Ok => f > 0 && Keeps(Rate(), f, maxCount)
    }

    /** Over any run of set_freq calls after one enable each callback joins its list once, as long as every call
        but the last keeps the device valid; and it is valid at the end exactly if the last one does. */
    method SetFreqs(freqs: seq<nat>)
      requires Valid() && cmpCount > 0
      requires forall k :: 0 <= k < |freqs| ==> 1 <= freqs[k] <= Rate()
      requires forall k :: 0 <= k < |freqs| - 1 ==> Keeps(Rate(), freqs[k], maxCount)
      modifies this`freq, this`countVal, this`pwmcfg, pwmcmp
      modifies clock`preCallback, clock`postCallback, clock`pre, clock`post, clock.pre, clock.post, preCb, postCb
      ensures clock.pre == if old(freq) == 0 && freqs != [] then old(clock.pre) + [preCb] else old(clock.pre)
      ensures clock.post == if old(freq) == 0 && freqs != [] then old(clock.post) + [postCb] else old(clock.post)
      ensures Wired() && (Valid() <==> freqs == [] || Keeps(Rate(), freqs[|freqs| - 1], maxCount))
    {
      if |freqs| > 1 {
        SetFreqInRun(freqs[0]);
        KeepFreqs(freqs[1..|freqs| - 1]);
      }
      if freqs != [] {
        SetFreqInRun(freqs[|freqs| - 1]);
      }
    }

    /** Once the callbacks are registered, calls that keep the device valid leave the lists alone. */
    method KeepFreqs(freqs: seq<nat>)
      requires Valid() && cmpCount > 0 && freq != 0
      requires forall k :: 0 <= k < |freqs| ==> 1 <= freqs[k] <= Rate() && Keeps(Rate(), freqs[k], maxCount)
      modifies this`freq, this`countVal, this`pwmcfg, pwmcmp
      modifies clock`preCallback, clock`postCallback, clock`pre, clock`post, clock.pre, clock.post, preCb, postCb
      ensures Valid() && freq != 0 && clock.pre == old(clock.pre) && clock.post == old(clock.post)
    {
      for k := 0 to |freqs|
        invariant Valid() && freq != 0 && clock.pre == old(clock.pre) && clock.post == old(clock.post)
      {
        SetFreqInRun(freqs[k]);
      }
    }

    /** One call of a run: the lists grow by the callbacks the first time only. */
    method SetFreqInRun(f: nat)
      requires Valid() && cmpCount > 0 && 1 <= f <= Rate()
      modifies this`freq, this`countVal, this`pwmcfg, pwmcmp
      modifies clock`preCallback, clock`postCallback, clock`pre, clock`post, clock.pre, clock.post, preCb, postCb
      ensures Wired() && (Valid() <==> Keeps(Rate(), f, maxCount)) && (Valid() ==> freq != 0)
      ensures clock.pre == old(clock.pre) + (if old(freq) == 0 then [preCb] else [])
      ensures clock.post == old(clock.post) + (if old(freq) == 0 then [postCb] else [])
    {
      ghost var prescale: nat;
      var ret;
      ret, prescale := SetFreq(0, f);
    }

    /** 1 Hz from 10 MHz with an 8-bit comparator: the next call would register the callbacks again, and the
        list it walks on a rate change would never end. */
    method OneHertzTwice()
      requires Wired() && Unregistered() && width == 8 && cmpCount > 0 && Rate() == 10_000_000
      modifies this, pwmcmp
      modifies clock`preCallback, clock`postCallback, clock`pre, clock`post, clock.pre, clock.post, preCb, postCb
      ensures preCb.next == preCb
    {
      Enable();
      OneHertzOverflows();
      SetFreqInRun(1);
      RegisterOnce();
    }

    /** Sets a channel's duty and phase mode; the compare value is the share of the count. */
    method SetDuty(idx: nat, percent: nat, phaseCorrect: bool) returns (ret: Outcome)
      requires Shaped()
      modifies this`pwmcfg, duty, pwmcmp
      ensures ret == if 0 < idx < cmpCount && percent <= MAX_DUTY then Ok else Err
      ensures ret != Ok ==> duty[..] == old(duty[..]) && pwmcmp[..] == old(pwmcmp[..]) && pwmcfg == old(pwmcfg)
      ensures ret == Ok ==> duty[..] == old(duty[..])[idx := percent]
      ensures ret == Ok ==> pwmcmp[..] == old(pwmcmp[..])[idx := CompareValue(percent, countVal)]
      ensures ret == Ok && countVal * 100 < UINT_LIMIT ==> pwmcmp[idx] == Times(percent, countVal) / 100 <= countVal
      ensures ret == Ok ==> pwmcmp[idx] == Times(percent, countVal) % 0x1_0000_0000 / 100
      ensures ret == Ok ==> pwmcfg == WithPhase(old(pwmcfg), idx, phaseCorrect)
      ensures ret == Ok ==> PhaseSetAlone(old(pwmcfg), pwmcfg, idx, phaseCorrect)
    {
      if !(0 < idx < cmpCount && percent <= MAX_DUTY) {
        return Err;
      }
      DutyShare(percent, countVal);
      pwmcmp[idx] := CompareValue(percent, countVal);
      duty[idx] := percent;
      WithPhaseAlone(pwmcfg, idx, phaseCorrect);
      SetPhase(idx, phaseCorrect);
      ret := Ok;
    }

    method SetPhase(idx: nat, phaseCorrect: bool)
      requires idx < MAX_CHANNELS
      modifies this`pwmcfg
      ensures pwmcfg == WithPhase(old(pwmcfg), idx, phaseCorrect)
    {
      if phaseCorrect {
        pwmcfg := pwmcfg | Center(idx);
      } else {
        pwmcfg := pwmcfg & !Center(idx);
      }
    }

    /** The whole chain: after an enable and a frequency the registers hold the prescale and the count found, so
        the hardware generates the frequency recorded whenever a prescale fits; and with a comparator of up to 25
        bits the duty of a channel is its exact share of the count, as it would be for every duty. */
    method Start(f: nat, idx: nat, percent: nat) returns (ghost prescale: nat)
      requires Wired() && Unregistered() && 1 <= f <= Rate() && width <= MAX_EXACT_WIDTH
      requires 0 < idx < cmpCount && percent <= MAX_DUTY
      modifies this, duty, pwmcmp
      modifies clock`preCallback, clock`postCallback, clock`pre, clock`post, clock.pre, clock.post, preCb, postCb
      ensures Programmed(Rate(), f, Pow2(width) - 1, width, prescale, countVal, freq)
      ensures Scale(pwmcfg) == Nibble(prescale) && pwmcmp[0] == countVal
      ensures Solvable(Rate(), f, Pow2(width) - 1) ==> Generated() == freq
      ensures pwmcmp[idx] == Times(percent, countVal) / 100 <= countVal
      ensures forall d, d' :: 0 <= d <= d' <= MAX_DUTY ==>
        CompareValue(d, countVal) <= CompareValue(d', countVal) <= countVal
    {
      Enable();
      prescale := StartFreq(f);
      DutiesMonotone(countVal);
      var ret := SetDuty(idx, percent, false);
    }

    method StartFreq(f: nat) returns (ghost prescale: nat)
      requires Valid() && 1 <= f <= Rate() && width <= MAX_EXACT_WIDTH && cmpCount > 0 && pwmcfg == 0
      modifies this`freq, this`countVal, this`pwmcfg, pwmcmp
      modifies clock`preCallback, clock`postCallback, clock`pre, clock`post, clock.pre, clock.post, preCb, postCb
      ensures Programmed(Rate(), f, Pow2(width) - 1, width, prescale, countVal, freq) && countVal * 100 < UINT_LIMIT
      ensures Scale(pwmcfg) == Nibble(prescale) && pwmcmp[0] == countVal
      ensures Solvable(Rate(), f, Pow2(width) - 1) ==> Generated() == freq
    {
      var ret;
      ret, prescale := SetFreq(0, f);
      CountsFitDuties(Rate(), f, maxCount, width, prescale, countVal, freq);
      NothingSetTakes(prescale);
      ScaleTakenIff(0, prescale);
    }

    /** Every channel with a duty compares against its share of the count. */
    ghost predicate InProportion()
      reads this, duty, pwmcmp
      requires duty.Length == pwmcmp.Length == MAX_CHANNELS && cmpCount <= MAX_CHANNELS
    {
      forall i :: 1 <= i < cmpCount && duty[i] != 0 ==> pwmcmp[i] == CompareValue(duty[i], countVal)
    }

    /** set_freq on a device whose channels are in proportion leaves them so exactly when no channel's share of
        the count changes: it writes comparator 0 only. */
    method SetFreqInProportion(idx: nat, f: nat) returns (ret: Outcome, ghost prescale: nat)
      requires Valid() && InProportion()
      modifies this`freq, this`countVal, this`pwmcfg, pwmcmp
      modifies clock`preCallback, clock`postCallback, clock`pre, clock`post, clock.pre, clock.post, preCb, postCb
      ensures ret == FreqOutcome(idx, f)
      ensures ret == Ok ==> (InProportion() <==> SameShares(old(countVal), countVal))
      ensures ret != Ok ==> InProportion()
    {
      ret, prescale := SetFreq(idx, f);
    }

    /** Every channel's duty has the same share of both counts. */
    ghost predicate SameShares(count: nat, count': nat)
      reads this, duty
      requires duty.Length == MAX_CHANNELS && cmpCount <= MAX_CHANNELS
    {
      forall i :: 1 <= i < cmpCount && duty[i] != 0 ==> CompareValue(duty[i], count) == CompareValue(duty[i], count')
    }

    /** 16 kHz from 4 MHz, half of it on channel 1, then 32 kHz: the channel still compares against 124, where its
        share is now 62. */
    method StaleDuty()
      requires Wired() && Unregistered() && width == 8 && cmpCount > 1 && clock.rate == 4_000_000
      modifies this, duty, pwmcmp, clock, clock.pre, clock.post, preCb, postCb
      ensures duty[1] == 50 && pwmcmp[1] == 124 && CompareValue(duty[1], countVal) == 62 && !InProportion()
    {
      Enable();
      SixteenKilohertz();
      HalfDutyAtSixteen();
      SetFreqToCount(32_000, 125);
    }

    method HalfDutyAtSixteen()
      requires Valid() && cmpCount > 1 && Rate() == 4_000_000 && maxCount == 255
      requires Count(4_000_000, 0, 16_000) == 250 && CompareValue(50, 249) == 124
      modifies this`freq, this`countVal, this`pwmcfg, duty, pwmcmp
      modifies clock`preCallback, clock`postCallback, clock`pre, clock`post, clock.pre, clock.post, preCb, postCb
      ensures Valid() && duty[1] == 50 && pwmcmp[1] == 124
      ensures clock.pre == old(clock.pre) + (if old(freq) == 0 then [preCb] else [])
      ensures clock.post == old(clock.post) + (if old(freq) == 0 then [postCb] else [])
    {
      SetFreqToCount(16_000, 250);
      var ret := SetDuty(1, 50, false);
    }

    /** set_freq for a frequency that needs no prescale. */
    method SetFreqToCount(f: nat, ghost count: nat)
      requires Valid() && cmpCount > 0 && 2 <= f <= Rate() && count == Count(Rate(), 0, f) <= maxCount
      modifies this`freq, this`countVal, this`pwmcfg, pwmcmp
      modifies clock`preCallback, clock`postCallback, clock`pre, clock`post, clock.pre, clock.post, preCb, postCb
      ensures Valid() && countVal == count - 1 && pwmcmp[..] == old(pwmcmp[..])[0 := countVal]
      ensures clock.pre == old(clock.pre) + (if old(freq) == 0 then [preCb] else [])
      ensures clock.post == old(clock.post) + (if old(freq) == 0 then [postCb] else [])
    {
      ghost var prescale: nat;
      var ret;
      ret, prescale := SetFreq(0, f);
      SolvedBy(Rate(), f, maxCount, 0, prescale);
    }

    /** The callback run before a rate change stops the generator and keeps the rest of its configuration. */
    method PreRateChange()
      modifies this`pwmcfg
      ensures !Running(pwmcfg) && SameButRunning(pwmcfg, old(pwmcfg))
      ensures pwmcfg & 0x1000 == 0 && pwmcfg & 0xFFFF_EFFF == old(pwmcfg) & 0xFFFF_EFFF
    {
      StopsOnly(pwmcfg);
      pwmcfg := pwmcfg & !ENALWAYS;
    }

    /** The fields and registers hold what the search makes of `f`, the prescale ored into the configuration as it
        was, with what the hardware then generates; and every channel is in proportion. */
    ghost predicate Retuned(f: nat, prescale: nat, before: bv32)
      requires f > 0 && Shaped()
      reads this, clock, duty, pwmcmp
    {
      && Programmed(Rate(), f, maxCount, width, prescale, countVal, freq)
      && pwmcmp[0] == countVal && InProportion()
      && pwmcfg == before | Nibble(prescale) && GeneratesFreqIff(f, prescale, before)
    }

    /** The callback run after a rate change searches again for the frequency in use and brings every channel
        back into proportion, unless the new rate is below that frequency: then it divides by zero. The prescale
        it finds joins the one in the register, so the hardware generates the frequency recorded only if that one
        has no other bits. It leaves the clock's lists alone, so it may run while they are walked. */
    method PostRateChange() returns (ret: Outcome, ghost prescale: nat)
      requires Valid()
      modifies this`freq, this`countVal, this`pwmcfg, pwmcmp
      modifies clock`preCallback, clock`postCallback, clock`pre, clock`post, clock.pre, clock.post, preCb, postCb
      ensures ret == if old(freq) == 0 then Ok else FreqOutcome(0, old(freq))
      ensures clock.pre == old(clock.pre) && clock.post == old(clock.post) && Wired()
      ensures Valid() <==> old(freq) == 0 || ret != Ok || Keeps(Rate(), old(freq), maxCount)
      ensures old(freq) == 0 || ret != Ok ==> Unset(old(freq), old(countVal), old(pwmcfg), old(pwmcmp[..]))
      ensures old(freq) != 0 && ret == Ok ==> Retuned(old(freq), prescale, old(pwmcfg))
    {
      prescale := 0;
      ret := Ok;
      if freq != 0 {
        ret, prescale := Retune();
      }
    }

    /** metal_clock_set_rate_hz when the device's own callbacks are the only ones on the clock. Unless the driver
        settles below the frequency in use, the fields hold what the search makes of it on the new rate, every
        channel is in proportion and the callbacks are on their lists once; the device is stopped, since nothing
        starts it again; and once started it generates the frequency recorded exactly when the prescale found on
        the new rate has every bit of the old one. */
    method ChangeRate(hz: int) returns (ret: Outcome, ghost prescale: nat)
      requires Valid() && clock.pre == [preCb] && clock.post == [postCb] && cmpCount > 0
      modifies this`freq, this`countVal, this`pwmcfg, pwmcmp, clock, clock.pre, clock.post, preCb, postCb
      ensures ret == Ok <==> old(freq) <= Rate()
      ensures clock.pre == [preCb] && clock.post == [postCb] && !Running(pwmcfg)
      ensures ret == Ok ==> Programmed(Rate(), old(freq), maxCount, width, prescale, countVal, freq) && InProportion()
      ensures ret == Ok ==> GeneratesFreqIff(old(freq), prescale, old(pwmcfg))
    {
      StopAndSetRate(hz);
      ghost var stopped := pwmcfg;
      ret, prescale := RetuneStopped();
      SameScaleTaken(stopped, old(pwmcfg), prescale);
    }

    method StopAndSetRate(hz: int)
      requires Valid()
      modifies this`pwmcfg, clock`rate, clock`log
      ensures Valid() && !Running(pwmcfg) && SameButRunning(pwmcfg, old(pwmcfg))
    {
      PreRateChange();
      var out := clock.DriverSetRate(hz);
    }

    method RetuneStopped() returns (ret: Outcome, ghost prescale: nat)
      requires Valid() && freq != 0 && cmpCount > 0 && !Running(pwmcfg)
      modifies this`freq, this`countVal, this`pwmcfg, pwmcmp
      modifies clock`preCallback, clock`postCallback, clock`pre, clock`post, clock.pre, clock.post, preCb, postCb
      ensures ret == Ok <==> old(freq) <= Rate()
      ensures clock.pre == old(clock.pre) && clock.post == old(clock.post) && !Running(pwmcfg)
      ensures ret == Ok ==> Programmed(Rate(), old(freq), maxCount, width, prescale, countVal, freq) && InProportion()
      ensures ret == Ok ==> GeneratesFreqIff(old(freq), prescale, old(pwmcfg))
    {
      ghost var stopped := pwmcfg;
      ret, prescale := PostRateChange();
      ScaleStartsNothing(stopped, prescale);
    }

    /** 4 kHz from 4 MHz with an 8-bit comparator takes prescale 2; on 2 MHz it takes 1, the register ends with 3,
        and the hardware generates 1 kHz. */
    method StalePrescale() returns (ghost prescale: nat)
      requires Wired() && Unregistered() && width == 8 && cmpCount > 0 && clock.rate == 4_000_000
      modifies this, pwmcmp, clock, clock.pre, clock.post, preCb, postCb
      ensures clock.rate == 2_000_000 && prescale == 1 && Scale(pwmcfg) == 3
      ensures freq == 4_000 && Generated() == 1_000
    {
      Enable();
      FourKilohertz();
      prescale := StaleFirst();
      clock.rate := 2_000_000;
      prescale := StaleSecond();
    }

    method StaleFirst() returns (ghost prescale: nat)
      requires Valid() && width == 8 && cmpCount > 0 && clock.rate == 4_000_000 && pwmcfg == 0 && maxCount == 255
      requires FourKilohertzCounts()
      modifies this`freq, this`countVal, this`pwmcfg, pwmcmp
      modifies clock`preCallback, clock`postCallback, clock`pre, clock`post, clock.pre, clock.post, preCb, postCb
      ensures Valid() && freq == 4_000 && pwmcfg == 0 | Nibble(2)
      ensures clock.pre == old(clock.pre) + (if old(freq) == 0 then [preCb] else [])
      ensures clock.post == old(clock.post) + (if old(freq) == 0 then [postCb] else [])
    {
      var ret;
      ret, prescale := SetFreq(0, 4_000);
      SolvedBy(4_000_000, 4_000, 255, 2, prescale);
    }

    method StaleSecond() returns (ghost prescale: nat)
      requires Valid() && width == 8 && cmpCount > 0 && clock.rate == 2_000_000 && maxCount == 255
      requires FourKilohertzCounts() && freq == 4_000 && pwmcfg == 0 | Nibble(2)
      modifies this`freq, this`countVal, this`pwmcfg, pwmcmp
      modifies clock`preCallback, clock`postCallback, clock`pre, clock`post, clock.pre, clock.post, preCb, postCb
      ensures prescale == 1 && freq == 4_000 && Scale(pwmcfg) == 3 && Generated() == 1_000
    {
      var ret;
      ret, prescale := PostRateChange();
      SolvedBy(2_000_000, 4_000, 255, 1, prescale);
      OneOredIntoTwo();
    }

    /** set_freq for the frequency in use, then the loop over the channels. */
    method Retune() returns (ret: Outcome, ghost prescale: nat)
      requires Valid() && freq != 0
      modifies this`freq, this`countVal, this`pwmcfg, pwmcmp
      modifies clock`preCallback, clock`postCallback, clock`pre, clock`post, clock.pre, clock.post, preCb, postCb
      ensures ret == FreqOutcome(0, old(freq))
      ensures clock.pre == old(clock.pre) && clock.post == old(clock.post)
      ensures Wired() && (Valid() <==> StillValid(ret, old(freq), old(freq)))
      ensures ret != Ok ==> Unset(old(freq), old(countVal), old(pwmcfg), old(pwmcmp[..]))
      ensures ret == Ok ==> Retuned(old(freq), prescale, old(pwmcfg))
    {
      ret, prescale := SetFreq(0, freq);
      if ret == Ok {
        Rescale();
      }
    }

    /** The loop that gives every channel with a duty its share of the new count. */
    method Rescale()
      requires Wired()
      modifies pwmcmp
      ensures Wired() && InProportion() && pwmcmp[0] == old(pwmcmp[0])
    {
      var idx := 1;
      while idx < cmpCount
        invariant 1 <= idx && pwmcmp[0] == old(pwmcmp[0])
        invariant forall i :: 1 <= i < idx && i < cmpCount && duty[i] != 0 ==>
          pwmcmp[i] == CompareValue(duty[i], countVal)
      {
        if duty[idx] != 0 {
          pwmcmp[idx] := CompareValue(duty[idx], countVal);
        }
        idx := idx + 1;
      }
    }
  }
}
