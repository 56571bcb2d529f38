/** What runs of PMP driver calls keep, when a set is read back, and what an accepted NAPOT region covers. */
module PmpTheorems {
  import opened Arithmetic
  import opened PmpBits
  import opened Pmp

  // ---------- locks and frames over runs ----------

  /** A call together with the granularity recorded when it is made. */
  datatype Turn = Turn(call: Call, granularity: nat)

  predicate GoodTurn(hart: Hart, turn: Turn) {
    InRange(hart, turn.call.region) &&
    (turn.call.SetRegion? || turn.call.SetAddress? ==> turn.call.address < XLEN_LIMIT)
  }

  ghost predicate GoodTurns(hart: Hart, turns: seq<Turn>) {
    forall k :: 0 <= k < |turns| ==> GoodTurn(hart, turns[k])
  }

  ghost function Run(hart: Hart, s: Csrs, turns: seq<Turn>): (r: Csrs)
    requires |s.cfg| == |s.addr| == ENTRIES && GoodTurns(hart, turns)
    ensures |r.cfg| == |r.addr| == ENTRIES
    decreases |turns|
  {
    if turns == [] then s
    else
      assert GoodTurn(hart, turns[0]);
      Run(hart, Apply(hart, turns[0].granularity, s, turns[0].call), turns[1..])
  }

  /** Entry r and the range it matches are as they were: its configuration, its address, and for a
      top-of-range entry the address below, which is its base. */
  ghost predicate Untouched(s: Csrs, t: Csrs, r: nat)
    requires |s.cfg| == |s.addr| == |t.cfg| == |t.addr| == ENTRIES && r < ENTRIES
  {
    && t.cfg[r] == s.cfg[r] && t.addr[r] == s.addr[r]
    && (Mode(s.cfg[r]) == TOR && r > 0 ==> t.addr[r - 1] == s.addr[r - 1])
  }

  lemma CallKeepsLocked(hart: Hart, s: Csrs, turn: Turn, r: nat)
    requires |s.cfg| == |s.addr| == ENTRIES && InRange(hart, turn.call.region) && r < ENTRIES && Locked(s.cfg[r])
    ensures Untouched(s, Apply(hart, turn.granularity, s, turn.call), r)
  {
  }

  /** A locked region keeps its configuration and its range in every run of driver calls, whatever
      granularities are recorded along the way. */
  lemma {:induction false} LockedForever(hart: Hart, s: Csrs, turns: seq<Turn>, r: nat)
    requires |s.cfg| == |s.addr| == ENTRIES && GoodTurns(hart, turns) && r < ENTRIES && Locked(s.cfg[r])
    ensures Untouched(s, Run(hart, s, turns), r)
    decreases |turns|
  {
    if turns != [] {
      CallKeepsLocked(hart, s, turns[0], r);
      LockedForever(hart, Apply(hart, turns[0].granularity, s, turns[0].call), turns[1..], r);
    }
  }

  /** `s` is what a run of calls makes of `start`. */
  ghost predicate Reached(hart: Hart, start: Csrs, turns: seq<Turn>, s: Csrs)
    requires |start.cfg| == |start.addr| == ENTRIES
  {
    GoodTurns(hart, turns) && s == Run(hart, start, turns)
  }

  lemma {:induction false} RunAppend(hart: Hart, s: Csrs, turns: seq<Turn>, turn: Turn)
    requires |s.cfg| == |s.addr| == ENTRIES && GoodTurns(hart, turns) && GoodTurn(hart, turn)
    ensures GoodTurns(hart, turns + [turn])
    ensures Run(hart, s, turns + [turn]) == Apply(hart, turn.granularity, Run(hart, s, turns), turn.call)
    decreases |turns|
  {
    if turns == [] {
      assert [] + [turn] == [turn];
    } else {
      assert (turns + [turn])[1..] == turns[1..] + [turn];
      RunAppend(hart, Apply(hart, turns[0].granularity, s, turns[0].call), turns[1..], turn);
    }
  }

  /** A run goes on with one more call. */
  lemma ReachedNext(hart: Hart, start: Csrs, turns: seq<Turn>, s: Csrs, turn: Turn) returns (more: seq<Turn>)
    requires |start.cfg| == |start.addr| == ENTRIES && Reached(hart, start, turns, s) && GoodTurn(hart, turn)
    ensures Reached(hart, start, more, Apply(hart, turn.granularity, s, turn.call))
  {
    more := turns + [turn];
    RunAppend(hart, start, turns, turn);
  }

  lemma ReachedKeepsLocked(hart: Hart, start: Csrs, turns: seq<Turn>, s: Csrs)
    requires |start.cfg| == |start.addr| == ENTRIES && Reached(hart, start, turns, s)
    ensures |s.cfg| == |s.addr| == ENTRIES
    ensures forall r :: 0 <= r < ENTRIES && Locked(start.cfg[r]) ==> Untouched(start, s, r)
  {
    forall r | 0 <= r < ENTRIES && Locked(start.cfg[r])
      ensures Untouched(start, s, r)
    {
      LockedForever(hart, start, turns, r);
    }
  }

  /** Calls on other regions change nothing of region r. */
  lemma {:induction false} OtherRegionsUntouched(hart: Hart, s: Csrs, turns: seq<Turn>, r: nat)
    requires |s.cfg| == |s.addr| == ENTRIES && GoodTurns(hart, turns) && r < ENTRIES
    requires forall k :: 0 <= k < |turns| ==> turns[k].call.region != r
    ensures Run(hart, s, turns).cfg[r] == s.cfg[r] && Run(hart, s, turns).addr[r] == s.addr[r]
    decreases |turns|
  {
    if turns != [] {
      OtherRegionsUntouched(hart, Apply(hart, turns[0].granularity, s, turns[0].call), turns[1..], r);
    }
  }

  // ---------- reading back ----------

  /** The write sticks: an implemented entry, a legal configuration, an address on the grain of its mode, and
      no locked top-of-range entry above. */
  ghost predicate Sticks(hart: Hart, s: Csrs, region: nat, config: bv8, address: nat)
    requires |s.cfg| == ENTRIES
  {
    && region < hart.regions && hart.coerce(config) == config
    && View(hart.grain, Mode(config), address) == address
    && !TorLockedAbove(s.cfg, region)
  }

  predicate HidesGrain(mode: bv8) { mode == OFF || mode == TOR }

  /** On 8-byte grain hardware an entry that is off or top-of-range hides bit 0 of its address; the driver
      then takes the register to hold the even address already. */
  ghost predicate HiddenBit(hart: Hart, s: Csrs, region: nat, config: bv8, address: nat)
    requires |s.cfg| == |s.addr| == ENTRIES && region < ENTRIES
  {
    && hart.grain == 1 && HidesGrain(Mode(s.cfg[region])) && !HidesGrain(Mode(config))
    && s.addr[region] == address + 1 && address % 2 == 0
  }

  /** A successful call is read back unchanged, unless it asks for the address that a hidden bit makes the
      register seem to hold. */
  lemma ReadBackIff(hart: Hart, granularity: nat, s: Csrs, region: nat, config: bv8, address: nat)
    requires Legal(hart, s) && region < ENTRIES && Sticks(hart, s, region, config, address)
    requires SetRc(hart, granularity, s, region, config, address) == 0
    ensures var t := Apply(hart, granularity, s, SetRegion(region, config, address));
      t.cfg[region] == config &&
      (ReadAddr(hart, t, region) == address <==> !HiddenBit(hart, s, region, config, address))
  {
    var old', new' := Mode(s.cfg[region]), Mode(config);
    SameRegister(hart.grain, old', new', s.addr[region], address);
  }

  /** A NAPOT region at address 0 over a register that holds 1, on initialised hardware of grain 1: accepted,
      and read back as address 1. */
  lemma HiddenBitLosesAddress() returns (hart: Hart, s: Csrs, config: bv8)
    ensures Legal(hart, s) && hart.grain == 1 && Mode(config) == NAPOT && Sticks(hart, s, 0, config, 0)
    ensures SetRc(hart, Pow2(hart.grain + 2), s, 0, config, 0) == 0 && HiddenBit(hart, s, 0, config, 0)
    ensures ReadAddr(hart, Apply(hart, Pow2(hart.grain + 2), s, SetRegion(0, config, 0)), 0) == 1
  {
    hart, config := Hart(1, 1, b => b), 0x18;
    var none: bv8 := 0;
    s := Csrs(seq(ENTRIES, _ => none), seq(ENTRIES, _ => 0)[0 := 1]);
    assert Mode(0) == OFF && Mode(0x18) == NAPOT && !Locked(0);
    assert Pow2(1) == 2 && Pow2(3) == 8 && TrailingOnes(0) == 0;
  }

  /** When the register already reads as `address` in the old mode, it reads so in the new mode too, but for
      a hidden bit at grain 1. */
  lemma SameRegister(grain: nat, old': bv8, new': bv8, raw: nat, address: nat)
    requires View(grain, new', address) == address
    ensures View(grain, old', raw) == address ==>
      (View(grain, new', raw) == address <==>
       !(grain == 1 && HidesGrain(old') && !HidesGrain(new') && raw == address + 1 && address % 2 == 0))
  {
    assert Pow2(0) == 1 && Pow2(1) == 2;
    if grain == 0 {
    } else if grain == 1 {
    } else if View(grain, old', raw) == address {
      assert Pow2(grain - 1) == 2 * Pow2(grain - 2) && Pow2(grain) == 2 * Pow2(grain - 1);
      LowBitsOfViews(grain, raw);
      LowBitsOfViews(grain, address);
    }
  }

  /** At grain 2 and up the two kinds of view differ in bit 0. */
  lemma LowBitsOfViews(grain: nat, raw: nat)
    requires grain >= 2
    ensures ClearLow(raw, grain) % 2 == 0
    ensures (ClearLow(raw, grain - 1) + Pow2(grain - 1) - 1) % 2 == 1
  {
    EvenPart(raw, grain);
    EvenPart(raw, grain - 1);
    OddSum(ClearLow(raw, grain - 1), Pow2(grain - 1), Pow2(grain - 2));
  }

  lemma OddSum(x: nat, p: nat, h: nat)
    requires x % 2 == 0 && p == 2 * h && h > 0
    ensures (x + p - 1) % 2 == 1
  {
  }

  lemma EvenPart(raw: nat, n: nat)
    requires n >= 1
    ensures ClearLow(raw, n) % 2 == 0
  {
    var h, q := Pow2(n - 1), raw / Pow2(n);
    assert Pow2(n) == 2 * h;
    assert raw - raw % Pow2(n) == q * (2 * h) == 2 * (q * h);
  }

  // ---------- naturally aligned regions ----------

  function NapotSize(address: nat): nat { Pow2(TrailingOnes(address) + 3) }

  function NapotBase(address: nat): nat {
    4 * ClearLow(address, TrailingOnes(address) + 1)
  }

  /** Byte address y matches: it agrees with the register above the lowest clear bit. */
  predicate NapotMatches(address: nat, y: nat) {
    (y / 4) / Pow2(TrailingOnes(address) + 1) == address / Pow2(TrailingOnes(address) + 1)
  }

  /** The match of the privileged architecture is a naturally aligned interval. */
  lemma NapotIsAlignedInterval(address: nat, y: nat)
    ensures NapotBase(address) % NapotSize(address) == 0
    ensures NapotMatches(address, y) <==> NapotBase(address) <= y < NapotBase(address) + NapotSize(address)
  {
    var t := TrailingOnes(address);
    FourTimes(t + 1);
    AlignedInterval(address, Pow2(t + 1), y);
  }

  lemma FourTimes(n: nat)
    ensures Pow2(n + 2) == 4 * Pow2(n)
  {
    assert Pow2(n + 2) == 2 * Pow2(n + 1);
  }

  lemma AlignedInterval(a: nat, p: nat, y: nat)
    requires p > 0
    ensures (4 * (a - a % p)) % (4 * p) == 0
    ensures (y / 4) / p == a / p <==> 4 * (a - a % p) <= y < 4 * (a - a % p) + 4 * p
  {
    var q := a / p;
    assert a - a % p == q * p;
    assert 4 * (q * p) == q * (4 * p);
    DivModUnique(q * (4 * p), q, 0, 4 * p);
    QuotientInterval(y / 4, q, p);
    InQuarters(y, q * p, p);
  }

  lemma InQuarters(y: nat, b: nat, p: nat)
    ensures b <= y / 4 < b + p <==> 4 * b <= y < 4 * b + 4 * p
  {
  }

  lemma QuotientInterval(x: nat, q: nat, p: nat)
    requires p > 0
    ensures x / p == q <==> q * p <= x < q * p + p
  {
    assert x == (x / p) * p + x % p;
    if q * p <= x < q * p + p {
      DivModUnique(x, q, x - q * p, p);
    }
  }

  /** On initialised hardware an accepted NAPOT region is a whole number of grains, and the register reads
      back as asked. */
  lemma AcceptedNapot(hart: Hart, s: Csrs, region: nat, config: bv8, address: nat)
    requires Legal(hart, s) && region < hart.regions && Mode(config) == NAPOT
    requires SetRc(hart, Pow2(hart.grain + 2), s, region, config, address) == 0
    ensures NapotSize(address) % Pow2(hart.grain + 2) == 0 && NapotBase(address) % Pow2(hart.grain + 2) == 0
    ensures View(hart.grain, NAPOT, address) == address
  {
    var t, g := TrailingOnes(address), hart.grain;
    Pow2Grows(g + 2, t + 3);
    Pow2Add(t + 1 - g, g + 2);
    NapotIsAlignedInterval(address, 0);
    MultipleOfMultiple(NapotBase(address), Pow2(t + 1 - g), Pow2(g + 2));
    NapotReadsBack(address, g);
  }

  lemma NapotReadsBack(address: nat, grain: nat)
    requires grain <= TrailingOnes(address) + 1
    ensures View(grain, NAPOT, address) == address
  {
    if grain >= 2 {
      OnesBelow(address, grain - 1);
    }
  }

  lemma MultipleOfMultiple(x: nat, k: nat, p: nat)
    requires k > 0 && p > 0 && k * p > 0 && x % (k * p) == 0
    ensures x % p == 0 && (k * p) % p == 0
  {
    var q := x / (k * p);
    assert x == q * (k * p) == (q * k) * p;
    DivModUnique(x, q * k, 0, p);
    DivModUnique(k * p, k, 0, p);
  }

  lemma DoubledOnes(x: nat, p: nat)
    requires p > 0 && x % p == p - 1
    ensures (2 * x + 1) % (2 * p) == 2 * p - 1
  {
    DivModIdentity(x, p);
    Doubled(x, p, p - 1);
    DivModUnique(2 * x + 1, (2 * x + 1) / (2 * p), 2 * p - 1, 2 * p);
  }

  /** The bits below the lowest clear bit are ones. */
  lemma {:induction false} OnesBelow(a: nat, n: nat)
    requires n <= TrailingOnes(a)
    ensures a % Pow2(n) == Pow2(n) - 1
  {
    if n > 0 {
      OnesBelow(a / 2, n - 1);
      DoubledOnes(a / 2, Pow2(n - 1));
    }
  }
}
