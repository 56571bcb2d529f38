/** Reading the 64-bit machine timer and writing its compare register over a 32-bit bus, while the timer
    runs (riscv_clint0.c and sifive_clic0.c share the code). */
module Timer {

  const WORD: nat := 0x1_0000_0000
  const MAX64: nat := WORD * WORD

  function Hi(t: nat): nat { t / WORD }
  function Lo(t: nat): nat { t % WORD }

  /** Equal high words around a low word read in between leave no room for a carry. */
  lemma HiLoHi(t0: nat, t1: nat, t2: nat)
    requires t0 <= t1 <= t2 && Hi(t0) == Hi(t2)
    ensures Hi(t0) * WORD + Lo(t1) == t1
  {
    assert Hi(t0) <= Hi(t1) <= Hi(t2);
  }

  /** A counter that only moves forward and does not wrap; it may tick any number of times between two
      accesses. `samples` lists its value at each access. */
  class Counter {
    var mtime: nat
    ghost var samples: seq<nat>

    constructor (t: nat)
      requires t < MAX64
      ensures mtime == t && samples == []
    {
      mtime, samples := t, [];
    }

    method Tick()
      requires mtime < MAX64
      modifies this`mtime
      ensures old(mtime) <= mtime < MAX64
    {
      var t: nat :| mtime <= t < MAX64;
      mtime := t;
    }

    method ReadHi() returns (hi: nat)
      requires mtime < MAX64
      modifies this
      ensures old(mtime) <= mtime < MAX64 && samples == old(samples) + [mtime]
      ensures hi == Hi(mtime) < WORD
    {
      Tick();
      samples := samples + [mtime];
      hi := mtime / WORD;
    }

    method ReadLo() returns (lo: nat)
      requires mtime < MAX64
      modifies this
      ensures old(mtime) <= mtime < MAX64 && samples == old(samples) + [mtime]
      ensures lo == Lo(mtime) < WORD
    {
      Tick();
      samples := samples + [mtime];
      lo := mtime % WORD;
    }
  }

  /** The hi/lo/hi loop returns exactly what the counter held at its last low-word read, a value between
      those at call and return; it retries at most once per carry into the high word. */
  method MtimeGet(c: Counter) returns (time: nat)
    requires c.mtime < MAX64
    modifies c
    ensures old(c.mtime) <= time <= c.mtime < MAX64
    ensures |c.samples| >= |old(c.samples)| + 3 && time == c.samples[|c.samples| - 2]
    ensures |c.samples| <= |old(c.samples)| + 3 * (1 + Hi(c.mtime) - Hi(old(c.mtime)))
  {
    var hi := c.ReadHi();
    ghost var t0 := c.mtime;
    var lo := c.ReadLo();
    ghost var t1 := c.mtime;
    var again := c.ReadHi();
    while again != hi
      invariant old(c.mtime) <= t0 <= t1 <= c.mtime < MAX64
      invariant hi == Hi(t0) && lo == Lo(t1) && again == Hi(c.mtime)
      invariant |c.samples| >= |old(c.samples)| + 3 && c.samples[|c.samples| - 2] == t1
      invariant |c.samples| <= |old(c.samples)| + 3 * (1 + Hi(t0) - Hi(old(c.mtime)))
      decreases WORD - hi
    {
      hi := c.ReadHi();
      t0 := c.mtime;
      lo := c.ReadLo();
      t1 := c.mtime;
      again := c.ReadHi();
    }
    HiLoHi(t0, t1, c.mtime);
    time := hi * WORD + lo;
  }

  // ---------- the compare register ----------

  /** The interrupt is pending while the timer is at or past the compare value. */
  predicate Pending(mtime: nat, mtimecmp: nat) { mtime >= mtimecmp }

  /** `values` lists every value the register takes. */
  class Compare {
    var lo: nat
    var hi: nat
    ghost var values: seq<nat>

    function Value(): nat
      reads this
    {
      hi * WORD + lo
    }

    constructor (cmp: nat)
      requires cmp < MAX64
      ensures Value() == cmp && values == [] && lo < WORD && hi < WORD
    {
      lo, hi, values := cmp % WORD, cmp / WORD, [];
    }

    method WriteHi(w: nat)
      modifies this`hi, this`values
      ensures hi == w && values == old(values) + [Value()]
    {
      hi := w;
      values := values + [Value()];
    }

    method WriteLo(w: nat)
      modifies this`lo, this`values
      ensures lo == w && values == old(values) + [Value()]
    {
      lo := w;
      values := values + [Value()];
    }

    /** The three writes: no value on the way is below both the old and the new deadline. */
    method Set(time: nat)
      requires lo < WORD && hi < WORD && time < MAX64
      modifies this
      ensures Value() == time && lo < WORD && hi < WORD
      ensures |values| == |old(values)| + 3 && values[..|old(values)|] == old(values)
      ensures forall k :: |old(values)| <= k < |values| ==> NotEarlier(values[k], old(Value()), time)
    {
      WriteHi(0xFFFF_FFFF);
      WriteLo(time % WORD);
      WriteHi(time / WORD);
    }
  }

  /** A deadline that is justified by the old or the new one. */
  predicate NotEarlier(value: nat, before: nat, after: nat) {
    value >= before || value >= after
  }

  /** No interrupt fires during the update, at any time of the clock, that neither deadline justifies. */
  lemma NoSpuriousInterrupt(value: nat, before: nat, after: nat, mtime: nat)
    requires NotEarlier(value, before, after) && Pending(mtime, value)
    ensures Pending(mtime, before) || Pending(mtime, after)
  {
  }

  /** The order matters: writing the low word first passes through a value below both deadlines exactly when
      the high word rises and the new low word is below the old one. */
  lemma LowWordFirstGlitchesIff(before: nat, after: nat)
    requires before < MAX64 && after < MAX64
    ensures var mid := Hi(before) * WORD + Lo(after);
      !NotEarlier(mid, before, after) <==> Hi(before) < Hi(after) && Lo(after) < Lo(before)
  {
  }
}
