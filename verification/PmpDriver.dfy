/** The PMP driver's calls on the registers of a hart, its initialisation included. */
module PmpDriver {
  import opened Arithmetic
  import opened ByteLanes
  import opened PmpBits
  import opened Pmp
  import opened PmpTheorems

  /** The hart's PMP registers and the driver's recorded granularity. */
  class Device {
    const hart: Hart
    var csrs: Csrs
    var granularity: nat

    ghost predicate Valid()
      reads this
    {
      Legal(hart, csrs)
    }

    constructor (hart: Hart, csrs: Csrs)
      requires Legal(hart, csrs)
      ensures Valid() && this.hart == hart && this.csrs == csrs && granularity == 0
    {
      this.hart, this.csrs, granularity := hart, csrs, 0;
    }

    method GetRegion(region: nat) returns (rc: int, config: bv8, address: nat)
      requires Valid() && InRange(hart, region)
      ensures rc == if region > hart.regions then 2 else 0
      ensures rc == 0 ==> config == csrs.cfg[region] && address == ReadAddr(hart, csrs, region)
    {
      if region > hart.regions {
        return 2, 0, 0;
      }
      LaneOfEntry(csrs.cfg, region);
      config := Lane(ReadCfgWord(csrs.cfg, region / 4), region % 4);
      address := ReadAddr(hart, csrs, region);
      rc := 0;
    }

    method SetRegion(region: nat, config: bv8, address: nat) returns (rc: int)
      requires Valid() && InRange(hart, region) && address < XLEN_LIMIT
      modifies this`csrs
      ensures Valid() && rc == CallRc(hart, granularity, old(csrs), Call.SetRegion(region, config, address))
      ensures csrs == Apply(hart, granularity, old(csrs), Call.SetRegion(region, config, address))
      ensures rc == 2 <==> region > hart.regions
      ensures rc == -1 <==>
        region <= hart.regions && (config >> 3) & 3 == 3 && TrailingOnes(address) > 28
      ensures rc == 3 <==>
        region <= hart.regions && (((config >> 3) & 3 == 2 && granularity > 4) ||
        ((config >> 3) & 3 == 3 && TrailingOnes(address) <= 28 && granularity > Pow2(TrailingOnes(address) + 3)))
      ensures rc == 4 <==> region <= hart.regions && rc != -1 && rc != 3 && old(csrs.cfg[region]) & 0x80 != 0
      ensures rc in {-1, 0, 2, 3, 4} && (rc != 0 ==> csrs == old(csrs))
      ensures rc == 0 && region >= hart.regions ==> csrs == old(csrs)
      ensures rc == 0 && region < hart.regions ==> csrs.cfg == old(csrs.cfg)[region := hart.coerce(config)]
      ensures rc == 0 ==> AddressWritten(hart, old(csrs), csrs, region, address)
    {
      if region > hart.regions {
        return 2;
      }
      if Mode(config) == NA4 && granularity > 4 {
        return 3;
      }
      if Mode(config) == NAPOT {
        var requested, defined := PmpaddrGranularity(address);
        if !defined {
          return UNDEFINED;
        }
        if granularity > requested {
          return 3;
        }
      }
      var got, oldConfig, oldAddress := GetRegion(region);
      if got != 0 {
        return got;
      }
      if Locked(oldConfig) {
        return 4;
      }
      WriteEntry(region, config, address, oldConfig, oldAddress);
      return 0;
    }

    /** The address first, because locking the entry would lock the address too. */
    method WriteEntry(region: nat, config: bv8, address: nat, oldConfig: bv8, oldAddress: nat)
      requires Valid() && region < ENTRIES && address < XLEN_LIMIT && !Locked(csrs.cfg[region])
      requires oldConfig == csrs.cfg[region] && oldAddress == ReadAddr(hart, csrs, region)
      modifies this`csrs
      ensures Valid() && csrs == AfterSet(hart, old(csrs), region, config, address)
    {
      if oldAddress != address {
        WriteAddr(region, address);
      }
      if oldConfig != config {
        WriteConfig(region, config);
      }
    }

    /** csrc with the mask of the entry's lane, then csrs with the configuration in that lane. */
    method WriteConfig(region: nat, config: bv8)
      requires Valid() && region < ENTRIES && !Locked(csrs.cfg[region])
      modifies this`csrs
      ensures Valid() && csrs.addr == old(csrs.addr)
      ensures csrs.cfg == if region < hart.regions then old(csrs.cfg)[region := hart.coerce(config)] else old(csrs.cfg)
    {
      ghost var s := csrs;
      csrs := csrs.(cfg := CsrClear(hart, csrs.cfg, region / 4, Shl8(0xFF, region % 4)));
      csrs := csrs.(cfg := CsrSet(hart, csrs.cfg, region / 4, Shl8(config as bv32, region % 4)));
      MaskedWritesHitOneEntry(hart, s, region, config);
      LegalAfterWrite(hart, s, region, config);
    }

    /** csrw to one of the address registers. */
    method WriteAddr(i: nat, v: nat)
      requires Valid() && i < ENTRIES && v < XLEN_LIMIT
      modifies this`csrs
      ensures Valid() && csrs.cfg == old(csrs.cfg)
      ensures csrs.addr ==
        if i >= hart.regions || Locked(csrs.cfg[i]) || TorLockedAbove(csrs.cfg, i) then old(csrs.addr)
        else old(csrs.addr)[i := v]
    {
      if i < hart.regions && !Locked(csrs.cfg[i]) && !TorLockedAbove(csrs.cfg, i) {
        csrs := csrs.(addr := csrs.addr[i := v]);
      }
    }

    /** The loop of metal_pmp_init over the regions. */
    method TurnOffAll() returns (ghost turns: seq<Turn>)
      requires Valid()
      modifies this`csrs
      ensures Valid() && forall j :: 0 <= j < hart.regions ==> InitEntry(hart, old(csrs), csrs, j)
      ensures Reached(hart, old(csrs), turns, csrs)
    {
      ghost var before := csrs;
      turns := [];
      for i := 0 to hart.regions
        invariant Valid() && Reached(hart, before, turns, csrs)
        invariant forall j :: 0 <= j < i ==> InitEntry(hart, before, csrs, j)
        invariant forall j :: i <= j < ENTRIES ==> csrs.cfg[j] == before.cfg[j] && csrs.addr[j] == before.addr[j]
      {
        ghost var s := csrs;
        var rc := SetRegion(i, 0, 0);
        InitStep(hart, before, s, csrs, granularity, i);
        turns := ReachedNext(hart, before, turns, s, Turn(Call.SetRegion(i, 0, 0), granularity));
      }
    }

    /** metal_pmp_init. Reading all ones back from pmpaddr0 shows the grain. Unless both scans stay in their
        domain nothing is defined from the scan on. It is a run of driver calls, so locked entries stay. */
    method Init() returns (defined: bool, ghost turns: seq<Turn>)
      requires Valid()
      modifies this
      ensures Valid() && (defined <==> InitDefined(hart, old(csrs)))
      ensures Reached(hart, old(csrs), turns, csrs)
      ensures forall r :: 0 <= r < ENTRIES && Locked(old(csrs.cfg[r])) ==> Untouched(old(csrs), csrs, r)
      ensures defined ==> forall j :: 0 <= j < hart.regions ==> InitEntry(hart, old(csrs), csrs, j)
      ensures defined && Locked(old(csrs.cfg[0])) ==> granularity == old(granularity)
      ensures defined && !Locked(old(csrs.cfg[0])) ==> granularity == DetectedFrom(Probe(hart, old(csrs)))
      ensures defined && !Locked(old(csrs.cfg[0])) && TorLockedAbove(old(csrs.cfg), 0) ==>
        csrs.addr[0] == old(csrs.addr[0])
      ensures defined && !Locked(old(csrs.cfg[0])) && !TorLockedAbove(old(csrs.cfg), 0) && hart.grain <= 31 ==>
        csrs.addr[0] == 0
    {
      ghost var before := csrs;
      turns := TurnOffAll();
      ghost var after, was := csrs, granularity;
      InitKeepsEntryZero(hart, before, after);
      ScanDefinedIff(hart, before, after);
      var rc := SetAddress(0, XLEN_LIMIT - 1);
      turns := ReachedNext(hart, before, turns, after, Turn(Call.SetAddress(0, XLEN_LIMIT - 1), was));
      if rc == UNDEFINED {
        defined := false;
      } else if rc != 0 {
        defined := true;
      } else {
        defined := DetectGranularity(before, after);
        if defined {
          ghost var ones, g := csrs, granularity;
          rc := SetAddress(0, 0);
          InitFinished(hart, before, after, ones, csrs, was, g);
          turns := ReachedNext(hart, before, turns, ones, Turn(Call.SetAddress(0, 0), g));
        }
      }
      ReachedKeepsLocked(hart, before, turns, csrs);
    }

    /** The second half of metal_pmp_init: the scan of what pmpaddr0 reads as. */
    method DetectGranularity(ghost before: Csrs, ghost after: Csrs) returns (defined: bool)
      requires Valid() && Legal(hart, before) && Legal(hart, after)
      requires !Locked(before.cfg[0]) && EntryZeroOff(hart, before, after)
      requires csrs == Apply(hart, granularity, after, Call.SetAddress(0, XLEN_LIMIT - 1))
      modifies this`granularity
      ensures defined <==> ScanDefined(Probe(hart, before))
      ensures defined ==> granularity == DetectedFrom(Probe(hart, before))
    {
      var got, config, address := GetRegion(0);
      ProbeReads(hart, before, after, csrs, granularity);
      var detected;
      detected, defined := DetectedGranularity(address);
      if defined {
        granularity := detected;
      }
    }

    method LockRegion(region: nat) returns (rc: int)
      requires Valid() && InRange(hart, region)
      modifies this`csrs
      ensures Valid() && rc == CallRc(hart, granularity, old(csrs), Lock(region))
      ensures csrs == Apply(hart, granularity, old(csrs), Lock(region)) && (rc != 0 ==> csrs == old(csrs))
      ensures region < hart.regions && old(csrs.cfg[region]) & 0x80 != 0 ==> rc == 0 && csrs == old(csrs)
      ensures rc == 0 && region < hart.regions && old(csrs.cfg[region]) & 0x80 == 0 ==>
        csrs.cfg == old(csrs.cfg)[region := hart.coerce(old(csrs.cfg[region]) | 0x80)]
      ensures csrs.addr == old(csrs.addr)
      ensures rc == 0 && csrs.cfg[region] == old(csrs.cfg[region]) | 0x80 ==>
        ReadAddr(hart, csrs, region) == old(ReadAddr(hart, csrs, region))
    {
      var config, address;
      rc, config, address := GetRegion(region);
      if rc != 0 {
        return;
      }
      ReadsInRange(hart, csrs, region);
      if Locked(config) {
        return 0;
      }
      rc := SetRegion(region, WithLock(config), address);
      LockedInPlace(hart, old(csrs), csrs, region);
    }

    method SetAddress(region: nat, address: nat) returns (rc: int)
      requires Valid() && InRange(hart, region) && address < XLEN_LIMIT
      modifies this`csrs
      ensures Valid() && rc == CallRc(hart, granularity, old(csrs), Call.SetAddress(region, address))
      ensures csrs == Apply(hart, granularity, old(csrs), Call.SetAddress(region, address))
      ensures (rc != 0 ==> csrs == old(csrs)) && csrs.cfg == old(csrs.cfg)
      ensures rc == 0 ==> AddressWritten(hart, old(csrs), csrs, region, address)
    {
      var config, oldAddress;
      rc, config, oldAddress := GetRegion(region);
      if rc != 0 {
        return;
      }
      rc := SetRegion(region, config, address);
    }

    method SetAddressMode(region: nat, mode: bv8) returns (rc: int)
      requires Valid() && InRange(hart, region)
      modifies this`csrs
      ensures Valid() && rc == CallRc(hart, granularity, old(csrs), Call.SetAddressMode(region, mode))
      ensures csrs == Apply(hart, granularity, old(csrs), Call.SetAddressMode(region, mode))
      ensures (rc != 0 ==> csrs == old(csrs)) && csrs.addr == old(csrs.addr)
      ensures rc == 0 && region < hart.regions ==>
        csrs.cfg == old(csrs.cfg)[region := hart.coerce((old(csrs.cfg[region]) & 0xE7) | ((mode & 3) << 3))]
      ensures rc == 0 && csrs.cfg[region] == (old(csrs.cfg[region]) & 0xE7) | ((mode & 3) << 3) ==>
        (csrs.cfg[region] >> 3) & 3 == mode & 3 && csrs.cfg[region] & 0xE7 == old(csrs.cfg[region]) & 0xE7
    {
      var config, address;
      rc, config, address := GetRegion(region);
      if rc != 0 {
        return;
      }
      ReadsInRange(hart, csrs, region);
      rc := SetRegion(region, WithMode(config, mode), address);
      ModeBits(config, mode);
    }

    /** metal_pmp_set_executable, _writeable and _readable, by the mask of the bit they set. */
    method SetPermission(region: nat, mask: bv8, on: bool) returns (rc: int)
      requires Valid() && InRange(hart, region)
      modifies this`csrs
      ensures Valid() && rc == CallRc(hart, granularity, old(csrs), Call.SetPermission(region, mask, on))
      ensures csrs == Apply(hart, granularity, old(csrs), Call.SetPermission(region, mask, on))
      ensures (rc != 0 ==> csrs == old(csrs)) && csrs.addr == old(csrs.addr)
      ensures rc == 0 && on && region < hart.regions ==>
        csrs.cfg == old(csrs.cfg)[region := hart.coerce(old(csrs.cfg[region]) | mask)]
      ensures rc == 0 && !on && region < hart.regions ==>
        csrs.cfg == old(csrs.cfg)[region := hart.coerce(old(csrs.cfg[region]) & !mask)]
    {
      var config, address;
      rc, config, address := GetRegion(region);
      if rc != 0 {
        return;
      }
      ReadsInRange(hart, csrs, region);
      rc := SetRegion(region, WithBit(config, mask, on), address);
    }

    method SetExecutable(region: nat, x: bool) returns (rc: int)
      requires Valid() && InRange(hart, region)
      modifies this`csrs
      ensures Valid() && rc == CallRc(hart, granularity, old(csrs), Call.SetPermission(region, 4, x))
      ensures csrs.addr == old(csrs.addr) && (rc != 0 ==> csrs == old(csrs))
      ensures rc == 0 && x && region < hart.regions ==>
        csrs.cfg == old(csrs.cfg)[region := hart.coerce(old(csrs.cfg[region]) | 4)]
      ensures rc == 0 && !x && region < hart.regions ==>
        csrs.cfg == old(csrs.cfg)[region := hart.coerce(old(csrs.cfg[region]) & 0xFB)]
      ensures rc == 0 && x && csrs.cfg[region] == old(csrs.cfg[region]) | 4 ==>
        PermissionReplaced(old(csrs.cfg[region]), csrs.cfg[region], 4, true)
      ensures rc == 0 && !x && csrs.cfg[region] == old(csrs.cfg[region]) & 0xFB ==>
        PermissionReplaced(old(csrs.cfg[region]), csrs.cfg[region], 4, false)
    {
      rc := SetPermission(region, 4, x);
      if rc == 0 {
        PermissionBits(old(csrs.cfg[region]), 4);
      }
    }

    method SetWriteable(region: nat, w: bool) returns (rc: int)
      requires Valid() && InRange(hart, region)
      modifies this`csrs
      ensures Valid() && rc == CallRc(hart, granularity, old(csrs), Call.SetPermission(region, 2, w))
      ensures csrs.addr == old(csrs.addr) && (rc != 0 ==> csrs == old(csrs))
      ensures rc == 0 && w && region < hart.regions ==>
        csrs.cfg == old(csrs.cfg)[region := hart.coerce(old(csrs.cfg[region]) | 2)]
      ensures rc == 0 && !w && region < hart.regions ==>
        csrs.cfg == old(csrs.cfg)[region := hart.coerce(old(csrs.cfg[region]) & 0xFD)]
      ensures rc == 0 && w && csrs.cfg[region] == old(csrs.cfg[region]) | 2 ==>
        PermissionReplaced(old(csrs.cfg[region]), csrs.cfg[region], 2, true)
      ensures rc == 0 && !w && csrs.cfg[region] == old(csrs.cfg[region]) & 0xFD ==>
        PermissionReplaced(old(csrs.cfg[region]), csrs.cfg[region], 2, false)
    {
      rc := SetPermission(region, 2, w);
      if rc == 0 {
        PermissionBits(old(csrs.cfg[region]), 2);
      }
    }

    method SetReadable(region: nat, r: bool) returns (rc: int)
      requires Valid() && InRange(hart, region)
      modifies this`csrs
      ensures Valid() && rc == CallRc(hart, granularity, old(csrs), Call.SetPermission(region, 1, r))
      ensures csrs.addr == old(csrs.addr) && (rc != 0 ==> csrs == old(csrs))
      ensures rc == 0 && r && region < hart.regions ==>
        csrs.cfg == old(csrs.cfg)[region := hart.coerce(old(csrs.cfg[region]) | 1)]
      ensures rc == 0 && !r && region < hart.regions ==>
        csrs.cfg == old(csrs.cfg)[region := hart.coerce(old(csrs.cfg[region]) & 0xFE)]
      ensures rc == 0 && r && csrs.cfg[region] == old(csrs.cfg[region]) | 1 ==>
        PermissionReplaced(old(csrs.cfg[region]), csrs.cfg[region], 1, true)
      ensures rc == 0 && !r && csrs.cfg[region] == old(csrs.cfg[region]) & 0xFE ==>
        PermissionReplaced(old(csrs.cfg[region]), csrs.cfg[region], 1, false)
    {
      rc := SetPermission(region, 1, r);
      if rc == 0 {
        PermissionBits(old(csrs.cfg[region]), 1);
      }
    }
  }

  /** An implemented entry holds the address, unless it read so already or the entry above locks it. */
  predicate AddressWritten(hart: Hart, before: Csrs, after: Csrs, region: nat, address: nat)
    requires |before.cfg| == |before.addr| == |after.addr| == ENTRIES && region < ENTRIES
  {
    var ignored := region >= hart.regions || ReadAddr(hart, before, region) == address ||
                   TorLockedAbove(before.cfg, region);
    after.addr == if ignored then before.addr else before.addr[region := address]
  }

  lemma LegalAfterWrite(hart: Hart, s: Csrs, region: nat, config: bv8)
    requires Legal(hart, s) && region < ENTRIES
    ensures region < hart.regions ==> Legal(hart, s.(cfg := s.cfg[region := hart.coerce(config)]))
  {
  }

  function DetectedFrom(address: nat): nat {
    if address == 0 then XLEN_LIMIT - 1 else Pow2(TrailingZeros(address) + 2)
  }

  /** The shift by the index found stays inside 32 bits. */
  predicate ScanDefined(address: nat) { address == 0 || TrailingZeros(address) <= 29 }

  /** What pmpaddr0 reads as when all ones have been written to it: what it held if the write is ignored. */
  function Probe(hart: Hart, s: Csrs): nat
    requires |s.cfg| == |s.addr| == ENTRIES
  {
    if hart.regions == 0 then 0
    else ClearLow(if TorLockedAbove(s.cfg, 0) then s.addr[0] else XLEN_LIMIT - 1, hart.grain)
  }

  /** Both scans of initialisation stay in their domain: the one of set_region for a locked entry 0, or the
      one that detects the granularity. */
  predicate InitDefined(hart: Hart, s: Csrs)
    requires |s.cfg| == |s.addr| == ENTRIES
  {
    if Locked(s.cfg[0]) then Mode(s.cfg[0]) != NAPOT else ScanDefined(Probe(hart, s))
  }

  /** Initialisation turns an unlocked entry off and clears its address unless the entry above locks it. */
  ghost predicate InitEntry(hart: Hart, before: Csrs, after: Csrs, j: nat)
    requires |before.cfg| == |before.addr| == |after.cfg| == |after.addr| == ENTRIES && j < ENTRIES
  {
    if Locked(before.cfg[j]) then after.cfg[j] == before.cfg[j] && after.addr[j] == before.addr[j]
    else
      && after.cfg[j] == 0
      && (if TorLockedAbove(before.cfg, j) then after.addr[j] == before.addr[j] else ReadAddr(hart, after, j) == 0)
  }

  lemma InitStep(hart: Hart, before: Csrs, s: Csrs, t: Csrs, granularity: nat, i: nat)
    requires Legal(hart, before) && Legal(hart, s) && i < hart.regions
    requires forall j :: 0 <= j < i ==> InitEntry(hart, before, s, j)
    requires forall j :: i <= j < ENTRIES ==> s.cfg[j] == before.cfg[j] && s.addr[j] == before.addr[j]
    requires t == Apply(hart, granularity, s, Call.SetRegion(i, 0, 0)) && Legal(hart, t)
    ensures forall j :: 0 <= j <= i ==> InitEntry(hart, before, t, j)
    ensures forall j :: i < j < ENTRIES ==> t.cfg[j] == before.cfg[j] && t.addr[j] == before.addr[j]
  {
    assert Mode(0) == OFF && !Locked(0);
    forall j | 0 <= j < i
      ensures InitEntry(hart, before, t, j)
    {
      assert InitEntry(hart, before, s, j);
    }
    if !Locked(s.cfg[i]) {
      ZeroViewStaysZero(hart.grain, Mode(s.cfg[i]), s.addr[i]);
    }
  }

  /** An address that reads zero in one mode reads zero once the entry is off. */
  lemma ZeroViewStaysZero(grain: nat, mode: bv8, raw: nat)
    ensures View(grain, OFF, 0) == 0
    ensures View(grain, mode, raw) == 0 ==> View(grain, OFF, raw) == 0
  {
    ModAtMost(0, Pow2(grain));
    if grain >= 2 {
      assert Pow2(grain - 1) == 2 * Pow2(grain - 2);
    }
  }

  /** All ones written to an entry that is off show the grain as the lowest set bit. */
  lemma AllOnesView(grain: nat)
    requires grain <= 31
    ensures ClearLow(XLEN_LIMIT - 1, grain) > 0 && TrailingZeros(ClearLow(XLEN_LIMIT - 1, grain)) == grain
  {
    Pow2Is32();
    OnesFromGrain(grain, 32 - grain, XLEN_LIMIT);
  }

  /** The granularity detected is the hardware's 2^(grain + 2) exactly when pmpaddr0 takes the ones, up to a
      grain of 31, or when what it held has its lowest visible bit at the grain. */
  lemma GranularityDetectedIff(hart: Hart, s: Csrs)
    requires Legal(hart, s) && hart.regions > 0
    ensures DetectedFrom(Probe(hart, s)) == Pow2(hart.grain + 2) <==>
      if TorLockedAbove(s.cfg, 0) then Probe(hart, s) > 0 && TrailingZeros(Probe(hart, s)) == hart.grain
      else hart.grain <= 31
  {
    var v := Probe(hart, s);
    NotAllOnes(hart.grain + 2);
    if v > 0 && DetectedFrom(v) == Pow2(hart.grain + 2) {
      Pow2Grows(TrailingZeros(v) + 2, hart.grain + 2);
      Pow2Grows(hart.grain + 2, TrailingZeros(v) + 2);
    }
    if !TorLockedAbove(s.cfg, 0) {
      if hart.grain <= 31 {
        AllOnesView(hart.grain);
      } else {
        Pow2Is32();
        ModAtMost(XLEN_LIMIT - 1, XLEN_LIMIT);
        DivModUnique(XLEN_LIMIT - 1, 0, XLEN_LIMIT - 1, XLEN_LIMIT);
      }
    }
  }

  lemma NotAllOnes(n: nat)
    requires n > 0
    ensures Pow2(n) != XLEN_LIMIT - 1
  {
    assert Pow2(n) == 2 * Pow2(n - 1);
  }

  /** A locked top-of-range entry 1 over a pmpaddr0 that holds 2, on hardware of grain 0: 8 is detected where
      the hardware has 4. */
  lemma StaleGranularity() returns (hart: Hart, s: Csrs)
    ensures Legal(hart, s) && hart.grain == 0 && hart.regions == 2
    ensures TorLockedAbove(s.cfg, 0) && InitDefined(hart, s) && !Locked(s.cfg[0])
    ensures DetectedFrom(Probe(hart, s)) == 8 && Pow2(hart.grain + 2) == 4
  {
    TorLockedByte();
    hart, s := StaleState(0x88);
  }

  lemma TorLockedByte()
    ensures Locked(0x88) && Mode(0x88) == TOR
  {
  }

  lemma StaleState(tor: bv8) returns (hart: Hart, s: Csrs)
    requires Locked(tor) && Mode(tor) == TOR
    ensures Legal(hart, s) && hart.grain == 0 && hart.regions == 2
    ensures TorLockedAbove(s.cfg, 0) && InitDefined(hart, s) && !Locked(s.cfg[0])
    ensures DetectedFrom(Probe(hart, s)) == 8 && Pow2(hart.grain + 2) == 4
  {
    hart := PlainHart(2, 0);
    s := Csrs(OneSet(1, tor, 0), OneSet(0, 2, 0));
    NothingSetIsUnlocked();
    LegalPlain(hart, s);
    StaleProbe(hart, s);
  }

  lemma LegalPlain(hart: Hart, s: Csrs)
    requires hart.Valid() && (forall b :: hart.coerce(b) == b) && |s.cfg| == |s.addr| == ENTRIES
    requires forall i :: 0 <= i < ENTRIES ==> s.addr[i] < XLEN_LIMIT
    requires forall i :: hart.regions <= i < ENTRIES ==> s.cfg[i] == 0 && s.addr[i] == 0
    ensures Legal(hart, s)
  {
  }

  lemma NothingSetIsUnlocked()
    ensures !Locked(0) && Mode(0) == OFF
  {
  }

  lemma StaleProbe(hart: Hart, s: Csrs)
    requires |s.cfg| == |s.addr| == ENTRIES && hart.regions > 0 && hart.grain == 0 && s.addr[0] == 2
    requires TorLockedAbove(s.cfg, 0)
    ensures ScanDefined(Probe(hart, s)) && DetectedFrom(Probe(hart, s)) == 8 && Pow2(hart.grain + 2) == 4
  {
    assert Pow2(0) == 1 && Pow2(2) == 4 && Pow2(3) == 8;
    assert Probe(hart, s) == 2;
    assert TrailingZeros(2) == 1 + TrailingZeros(1);
  }

  /** A hart that takes every configuration as written. */
  function PlainHart(regions: nat, grain: nat): (h: Hart)
    requires regions <= ENTRIES && grain <= 32
    ensures h.regions == regions && h.grain == grain && h.Valid() && forall b :: h.coerce(b) == b
  {
    Hart(regions, grain, b => b)
  }

  /** One register per entry, all of them zero but one. */
  function OneSet<T>(at: nat, v: T, zero: T): (r: seq<T>)
    ensures |r| == ENTRIES && forall i :: 0 <= i < ENTRIES ==> r[i] == if i == at then v else zero
  {
    seq(ENTRIES, i => if i == at then v else zero)
  }

  lemma OnesFromGrain(grain: nat, rest: nat, limit: nat)
    requires rest > 0 && limit == Pow2(rest + grain)
    ensures ClearLow(limit - 1, grain) > 0 && TrailingZeros(ClearLow(limit - 1, grain)) == grain
  {
    Pow2Add(rest, grain);
    assert Pow2(rest) == 2 * Pow2(rest - 1);
    BelowMultiple(Pow2(rest), Pow2(grain));
    TrailingZerosOfMultiple(grain, Pow2(rest) - 1);
  }

  lemma BelowMultiple(k: nat, p: nat)
    requires k > 0 && p > 0
    ensures k * p - 1 - (k * p - 1) % p == (k - 1) * p
  {
    assert k * p - 1 == (k - 1) * p + (p - 1);
    DivModUnique(k * p - 1, k - 1, p - 1, p);
  }

  /** What the loop of initialisation leaves of entry 0, when it is unlocked. */
  ghost predicate EntryZeroOff(hart: Hart, before: Csrs, after: Csrs)
    requires |before.cfg| == |before.addr| == |after.cfg| == |after.addr| == ENTRIES
  {
    && after.cfg[0] == 0 && TorLockedAbove(after.cfg, 0) == TorLockedAbove(before.cfg, 0)
    && (TorLockedAbove(before.cfg, 0) || hart.regions == 0 ==> after.addr[0] == before.addr[0])
    && (!TorLockedAbove(before.cfg, 0) ==> ReadAddr(hart, after, 0) == 0)
  }

  lemma InitKeepsEntryZero(hart: Hart, before: Csrs, after: Csrs)
    requires Legal(hart, before) && Legal(hart, after)
    requires forall j :: 0 <= j < hart.regions ==> InitEntry(hart, before, after, j)
    ensures InitEntry(hart, before, after, 0)
    ensures !Locked(before.cfg[0]) ==> EntryZeroOff(hart, before, after)
  {
    assert !Locked(0);
    if hart.regions > 1 {
      assert InitEntry(hart, before, after, 1);
    }
    if hart.regions == 0 {
      ModAtMost(0, Pow2(hart.grain));
      assert Mode(0) == OFF;
    }
  }

  /** The scan that initialisation runs for the all-ones address stays in its domain exactly unless entry 0
      started as a locked NAPOT entry. */
  lemma ScanDefinedIff(hart: Hart, before: Csrs, after: Csrs)
    requires |before.cfg| == |before.addr| == |after.cfg| == |after.addr| == ENTRIES
    requires InitEntry(hart, before, after, 0)
    ensures ShiftDefined(after.cfg[0], XLEN_LIMIT - 1) <==> !(Locked(before.cfg[0]) && Mode(before.cfg[0]) == NAPOT)
  {
    AllOnesHasNoClearBit();
    assert Mode(0) == OFF;
  }

  lemma ProbeReads(hart: Hart, before: Csrs, after: Csrs, s: Csrs, granularity: nat)
    requires Legal(hart, before) && Legal(hart, after) && !Locked(before.cfg[0]) && EntryZeroOff(hart, before, after)
    requires s == Apply(hart, granularity, after, Call.SetAddress(0, XLEN_LIMIT - 1))
    ensures ReadAddr(hart, s, 0) == Probe(hart, before)
  {
  }

  /** Writing all ones and then zero to pmpaddr0 leaves the other entries alone and zero where it can. */
  lemma InitFinished(hart: Hart, before: Csrs, after: Csrs, ones: Csrs, s: Csrs, g: nat, g': nat)
    requires Legal(hart, before) && Legal(hart, after) && !Locked(before.cfg[0]) && EntryZeroOff(hart, before, after)
    requires forall j :: 0 <= j < hart.regions ==> InitEntry(hart, before, after, j)
    requires ones == Apply(hart, g, after, Call.SetAddress(0, XLEN_LIMIT - 1))
    requires s == Apply(hart, g', ones, Call.SetAddress(0, 0))
    ensures forall j :: 0 <= j < hart.regions ==> InitEntry(hart, before, s, j)
    ensures if TorLockedAbove(before.cfg, 0) then s.addr[0] == before.addr[0] else ReadAddr(hart, s, 0) == 0
    ensures !TorLockedAbove(before.cfg, 0) && hart.grain <= 31 ==> s.addr[0] == 0
  {
    assert Mode(0) == OFF && !Locked(0);
    ZeroViewStaysZero(hart.grain, OFF, 0);
    FinalEntryZero(hart, before, after, ones, s, g, g');
    forall j | 0 <= j < hart.regions
      ensures InitEntry(hart, before, s, j)
    {
      assert InitEntry(hart, before, after, j);
    }
  }

  lemma FinalEntryZero(hart: Hart, before: Csrs, after: Csrs, ones: Csrs, s: Csrs, g: nat, g': nat)
    requires Legal(hart, before) && Legal(hart, after) && !Locked(before.cfg[0]) && EntryZeroOff(hart, before, after)
    requires ones == Apply(hart, g, after, Call.SetAddress(0, XLEN_LIMIT - 1))
    requires s == Apply(hart, g', ones, Call.SetAddress(0, 0))
    ensures s.cfg == after.cfg && s.addr == after.addr[0 := s.addr[0]]
    ensures if TorLockedAbove(before.cfg, 0) then s.addr[0] == before.addr[0] else ReadAddr(hart, s, 0) == 0
    ensures !TorLockedAbove(before.cfg, 0) && hart.grain <= 31 ==> s.addr[0] == 0
  {
    assert Mode(0) == OFF && !Locked(0);
    ZeroViewStaysZero(hart.grain, OFF, 0);
    if hart.regions > 0 && !TorLockedAbove(before.cfg, 0) && hart.grain <= 31 {
      AllOnesView(hart.grain);
    }
  }

  lemma ReadsInRange(hart: Hart, s: Csrs, i: nat)
    requires Legal(hart, s) && i < ENTRIES
    ensures ReadAddr(hart, s, i) < XLEN_LIMIT
  {
    Pow2Is32();
    if hart.grain >= 2 {
      FillBelow(s.addr[i], hart.grain - 1, 32);
    }
  }

  lemma AllOnesHasNoClearBit()
    ensures TrailingOnes(XLEN_LIMIT - 1) == 32
  {
    Pow2Is32();
    TrailingOnesOfOnes(32);
  }

  /** set_region is undefined exactly for NAPOT addresses of more than 28 trailing ones, whatever the state: the
      address of all of memory has 29. */
  lemma SetUndefinedIff(hart: Hart, granularity: nat, s: Csrs, region: nat, config: bv8, address: nat)
    requires |s.cfg| == |s.addr| == ENTRIES && region <= hart.regions && region < ENTRIES
    ensures CallRc(hart, granularity, s, Call.SetRegion(region, config, address)) == UNDEFINED <==>
      Mode(config) == NAPOT && TrailingOnes(address) > 28
  {
  }

  /** The scan for the lowest clear bit; the shift by the index found is defined up to index 28. */
  method PmpaddrGranularity(address: nat) returns (r: nat, defined: bool)
    ensures r == Pow2(TrailingOnes(address) + 3) && defined == (TrailingOnes(address) <= 28)
  {
    var index: nat := 0;
    while address / Pow2(index) % 2 == 1
      invariant TrailingOnes(address) == index + TrailingOnes(address / Pow2(index))
      decreases TrailingOnes(address) - index
    {
      ShiftOnce(address, index);
      index := index + 1;
    }
    return Pow2(index + 3), index <= 28;
  }

  /** The scan for the lowest set bit; the shift by the index found is defined up to index 29. */
  method DetectedGranularity(address: nat) returns (r: nat, defined: bool)
    ensures r == DetectedFrom(address) && defined == ScanDefined(address)
    ensures address == 0 ==> r == 0xFFFF_FFFF && defined
    ensures address > 0 ==> r == Pow2(TrailingZeros(address) + 2) && defined == (TrailingZeros(address) <= 29)
  {
    if address == 0 {
      return XLEN_LIMIT - 1, true;
    }
    var index: nat := 0;
    while address / Pow2(index) % 2 == 0
      invariant address / Pow2(index) > 0
      invariant TrailingZeros(address) == index + TrailingZeros(address / Pow2(index))
      decreases TrailingZeros(address) - index
    {
      ShiftOnce(address, index);
      index := index + 1;
    }
    return Pow2(index + 2), index <= 29;
  }
}
