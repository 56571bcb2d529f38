/** The physical memory protection driver (freedom-metal/src/pmp.c) on an RV32 hart, against the register
    rules of section 3.7 of the RISC-V Privileged Architecture (20211203). */
module Pmp {
  import opened Arithmetic
  import opened ByteLanes
  import opened PmpBits

  const ENTRIES: nat := 16
  const OFF: bv8 := 0
  const TOR: bv8 := 1
  const NA4: bv8 := 2
  const NAPOT: bv8 := 3
  const XLEN_LIMIT: nat := 0x1_0000_0000

  // ---------- configuration bytes ----------

  predicate Locked(config: bv8) { config & 0x80 != 0 }
  function Mode(config: bv8): bv8 { (config >> 3) & 3 }
  function WithLock(config: bv8): bv8 { config | 0x80 }
  function WithMode(config: bv8, mode: bv8): bv8 { (config & !0x18) | ((mode & 3) << 3) }
  function WithBit(config: bv8, mask: bv8, on: bool): bv8 { if on then config | mask else config & !mask }

  // ---------- the hart ----------

  /** What an implementation fixes: its entries, its grain, and which configuration a write becomes (WARL). */
  datatype Hart = Hart(regions: nat, grain: nat, coerce: bv8 -> bv8) {
    ghost predicate Valid() {
      regions <= ENTRIES && grain <= 32 && coerce(0) == 0 && forall b :: coerce(coerce(b)) == coerce(b)
    }
  }

  datatype Csrs = Csrs(cfg: seq<bv8>, addr: seq<nat>)

  ghost predicate Legal(hart: Hart, s: Csrs) {
    && hart.Valid() && |s.cfg| == |s.addr| == ENTRIES
    && (forall i :: 0 <= i < ENTRIES ==> hart.coerce(s.cfg[i]) == s.cfg[i] && s.addr[i] < XLEN_LIMIT)
    && (forall i :: hart.regions <= i < ENTRIES ==> s.cfg[i] == 0 && s.addr[i] == 0)
  }

  /** A locked top-of-range entry locks the address of the entry below it too. */
  predicate TorLockedAbove(cfg: seq<bv8>, i: nat) {
    i + 1 < |cfg| && Locked(cfg[i + 1]) && Mode(cfg[i + 1]) == TOR
  }

  /** The address register as it reads: the grain hides low bits. */
  function View(grain: nat, mode: bv8, raw: nat): nat {
    if mode == OFF || mode == TOR then ClearLow(raw, grain)
    else if grain >= 2 then ClearLow(raw, grain - 1) + Pow2(grain - 1) - 1
    else raw
  }

  function ReadAddr(hart: Hart, s: Csrs, i: nat): nat
    requires i < |s.cfg| && i < |s.addr|
  {
    View(hart.grain, Mode(s.cfg[i]), s.addr[i])
  }

  function WriteByte(hart: Hart, cfg: seq<bv8>, i: nat, b: bv8): bv8
    requires i < |cfg|
  {
    if i < hart.regions && !Locked(cfg[i]) then hart.coerce(b) else cfg[i]
  }

  function ReadCfgWord(cfg: seq<bv8>, k: nat): bv32
    requires |cfg| == ENTRIES && k < 4
  {
    Word(cfg[4 * k + 3], cfg[4 * k + 2], cfg[4 * k + 1], cfg[4 * k])
  }

  /** Shifting and masking the packed word finds the entry's own byte. */
  lemma LaneOfEntry(cfg: seq<bv8>, region: nat)
    requires |cfg| == ENTRIES && region < ENTRIES
    ensures Lane(ReadCfgWord(cfg, region / 4), region % 4) == cfg[region]
  {
    LaneOfEntryAt(cfg, region / 4, region % 4);
  }

  lemma LaneOfEntryAt(cfg: seq<bv8>, k: nat, lane: nat)
    requires |cfg| == ENTRIES && k < 4 && lane < 4
    ensures Lane(ReadCfgWord(cfg, k), lane) == cfg[4 * k + lane]
  {
    LaneOfWord(cfg[4 * k + 3], cfg[4 * k + 2], cfg[4 * k + 1], cfg[4 * k], lane);
  }

  /** A write of a whole word: each of its entries is offered its lane. */
  function CsrWrite(hart: Hart, cfg: seq<bv8>, k: nat, w: bv32): (r: seq<bv8>)
    requires |cfg| == ENTRIES && k < 4
    ensures |r| == ENTRIES
  {
    seq(ENTRIES, i requires 0 <= i < ENTRIES =>
      if i / 4 == k then WriteByte(hart, cfg, i, Lane(w, i % 4)) else cfg[i])
  }

  /** csrc and csrs read the word, clear or set the bits of the mask, and write the word back. */
  function CsrClear(hart: Hart, cfg: seq<bv8>, k: nat, mask: bv32): (r: seq<bv8>)
    requires |cfg| == ENTRIES && k < 4
    ensures |r| == ENTRIES
  {
    CsrWrite(hart, cfg, k, ReadCfgWord(cfg, k) & !mask)
  }

  function CsrSet(hart: Hart, cfg: seq<bv8>, k: nat, mask: bv32): (r: seq<bv8>)
    requires |cfg| == ENTRIES && k < 4
    ensures |r| == ENTRIES
  {
    CsrWrite(hart, cfg, k, ReadCfgWord(cfg, k) | mask)
  }

  /** On one entry csrc clears the bits of its own lane of the mask. */
  lemma CsrClearAt(hart: Hart, cfg: seq<bv8>, k: nat, mask: bv32, i: nat)
    requires |cfg| == ENTRIES && k < 4 && i < ENTRIES
    ensures CsrClear(hart, cfg, k, mask)[i] ==
      if i / 4 == k then WriteByte(hart, cfg, i, cfg[i] & !Lane(mask, i % 4)) else cfg[i]
  {
    if i / 4 == k {
      LaneOfEntry(cfg, i);
      LaneOfAndNot(ReadCfgWord(cfg, k), mask, i % 4);
    }
  }

  /** On one entry csrs sets the bits of its own lane of the mask. */
  lemma CsrSetAt(hart: Hart, cfg: seq<bv8>, k: nat, mask: bv32, i: nat)
    requires |cfg| == ENTRIES && k < 4 && i < ENTRIES
    ensures CsrSet(hart, cfg, k, mask)[i] ==
      if i / 4 == k then WriteByte(hart, cfg, i, cfg[i] | Lane(mask, i % 4)) else cfg[i]
  {
    if i / 4 == k {
      LaneOfEntry(cfg, i);
      LaneOfOr(ReadCfgWord(cfg, k), mask, i % 4);
    }
  }

  // ---------- what a driver call is for ----------

  /** No return code: the granularity computation would shift by 32 or more, which C leaves undefined. */
  const UNDEFINED: int := -1

  /** The shift of the granularity computation stays inside 32 bits. */
  predicate ShiftDefined(config: bv8, address: nat) {
    Mode(config) == NAPOT ==> TrailingOnes(address) <= 28
  }

  /** The return code of metal_pmp_set_region. */
  function SetRc(hart: Hart, granularity: nat, s: Csrs, region: nat, config: bv8, address: nat): int
    requires |s.cfg| == ENTRIES && (region < ENTRIES || region > hart.regions)
  {
    if region > hart.regions then 2
    else if Mode(config) == NA4 && granularity > 4 then 3
    else if !ShiftDefined(config, address) then UNDEFINED
    else if Mode(config) == NAPOT && granularity > Pow2(TrailingOnes(address) + 3) then 3
    else if Locked(s.cfg[region]) then 4
    else 0
  }

  /** An accepted call changes one entry: its configuration byte, and its address unless the register
      already reads as asked or is locked by the entry above. */
  function AfterSet(hart: Hart, s: Csrs, region: nat, config: bv8, address: nat): Csrs
    requires |s.cfg| == |s.addr| == ENTRIES && region < ENTRIES
  {
    if region >= hart.regions then s
    else Csrs(s.cfg[region := hart.coerce(config)],
              if ReadAddr(hart, s, region) == address || TorLockedAbove(s.cfg, region) then s.addr
              else s.addr[region := address])
  }

  datatype Call =
    | SetRegion(region: nat, config: bv8, address: nat)
    | Lock(region: nat)
    | SetAddress(region: nat, address: nat)
    | SetAddressMode(region: nat, mode: bv8)
    | SetPermission(region: nat, mask: bv8, on: bool)

  predicate InRange(hart: Hart, region: nat) {
    region < ENTRIES || region > hart.regions
  }

  function ConfigOf(s: Csrs, c: Call): bv8
    requires |s.cfg| == ENTRIES && c.region < ENTRIES
  {
    match c
    case SetRegion(_, config, _) => config
    case Lock(r) => WithLock(s.cfg[r])
    case SetAddress(r, _) => s.cfg[r]
    case SetAddressMode(r, mode) => WithMode(s.cfg[r], mode)
    case SetPermission(r, mask, on) => WithBit(s.cfg[r], mask, on)
  }

  function AddressOf(hart: Hart, s: Csrs, c: Call): nat
    requires |s.cfg| == |s.addr| == ENTRIES && c.region < ENTRIES
  {
    match c
    case SetRegion(_, _, address) => address
    case SetAddress(_, address) => address
    case _ => ReadAddr(hart, s, c.region)
  }

  /** The return code of a call; locking a locked region succeeds without a write. */
  function CallRc(hart: Hart, granularity: nat, s: Csrs, c: Call): int
    requires |s.cfg| == |s.addr| == ENTRIES && InRange(hart, c.region)
  {
    if c.region > hart.regions then 2
    else if c.Lock? && Locked(s.cfg[c.region]) then 0
    else SetRc(hart, granularity, s, c.region, ConfigOf(s, c), AddressOf(hart, s, c))
  }

  function Apply(hart: Hart, granularity: nat, s: Csrs, c: Call): Csrs
    requires |s.cfg| == |s.addr| == ENTRIES && InRange(hart, c.region)
  {
    if c.region > hart.regions then s
    else if SetRc(hart, granularity, s, c.region, ConfigOf(s, c), AddressOf(hart, s, c)) != 0 then s
    else AfterSet(hart, s, c.region, ConfigOf(s, c), AddressOf(hart, s, c))
  }

  // ---------- what a call leaves in the configuration byte ----------

  lemma LockBits(b: bv8)
    ensures (b | 0x80) & 0x80 == 0x80 && (b | 0x80) & 0x7F == b & 0x7F && Mode(b | 0x80) == Mode(b)
  {
  }

  /** Where the lock bit has been taken the other bits are as they were, and the address reads as it did. */
  lemma LockedInPlace(hart: Hart, before: Csrs, after: Csrs, r: nat)
    requires r < |before.cfg| && r < |before.addr| && r < |after.cfg| && r < |after.addr|
    requires after.addr == before.addr
    ensures after.cfg[r] == before.cfg[r] | 0x80 ==>
      after.cfg[r] & 0x80 == 0x80 && after.cfg[r] & 0x7F == before.cfg[r] & 0x7F &&
      ReadAddr(hart, after, r) == ReadAddr(hart, before, r)
  {
    LockBits(before.cfg[r]);
  }

  lemma ModeBits(b: bv8, mode: bv8)
    ensures WithMode(b, mode) == (b & 0xE7) | ((mode & 3) << 3)
    ensures (((b & 0xE7) | ((mode & 3) << 3)) >> 3) & 3 == mode & 3
    ensures ((b & 0xE7) | ((mode & 3) << 3)) & 0xE7 == b & 0xE7
  {
  }

  /** The masked bits are as asked and the other bits are as they were. */
  predicate PermissionReplaced(was: bv8, is': bv8, mask: bv8, on: bool) {
    is' & mask == (if on then mask else 0) && is' & !mask == was & !mask
  }

  lemma PermissionBits(b: bv8, mask: bv8)
    ensures PermissionReplaced(b, b | mask, mask, true) && PermissionReplaced(b, b & !mask, mask, false)
  {
  }

  // ---------- packed words against single entries ----------

  /** csrc then csrs on the packed word update exactly one entry. */
  lemma MaskedWritesHitOneEntry(hart: Hart, s: Csrs, region: nat, config: bv8)
    requires Legal(hart, s) && region < ENTRIES && !Locked(s.cfg[region])
    ensures var k, lane := region / 4, region % 4;
      CsrSet(hart, CsrClear(hart, s.cfg, k, Shl8(0xFF, lane)), k, Shl8(config as bv32, lane)) ==
        if region < hart.regions then s.cfg[region := hart.coerce(config)] else s.cfg
  {
    var cleared := Csrs(s.cfg[region := 0], s.addr);
    ShiftedInLane(0xFF, region % 4);
    ClearOne(hart, s, region, Shl8(0xFF, region % 4));
    LegalWhenCleared(hart, s, region);
    ShiftedInLane(config, region % 4);
    SetOne(hart, cleared, region, Shl8(config as bv32, region % 4), config);
    assert cleared.cfg[region := hart.coerce(config)] == s.cfg[region := hart.coerce(config)];
  }

  lemma LegalWhenCleared(hart: Hart, s: Csrs, region: nat)
    requires Legal(hart, s) && region < ENTRIES
    ensures Legal(hart, Csrs(s.cfg[region := 0], s.addr)) && (region >= hart.regions ==> s.cfg[region := 0] == s.cfg)
  {
  }

  /** The mask holds a byte in one lane and nothing in the others. */
  ghost predicate InLane(mask: bv32, lane: nat, b: bv8) {
    forall j: nat :: j < 4 ==> Lane(mask, j) == (if j == lane then b else 0)
  }

  lemma ShiftedInLane(b: bv8, lane: nat)
    requires lane < 4
    ensures InLane(Shl8(b as bv32, lane), lane, b)
  {
    var mask := Shl8(b as bv32, lane);
    forall j: nat | j < 4
      ensures Lane(mask, j) == if j == lane then b else 0
    {
      LaneOfShifted(b, lane, j);
    }
  }

  lemma ClearOne(hart: Hart, s: Csrs, region: nat, mask: bv32)
    requires Legal(hart, s) && region < ENTRIES && !Locked(s.cfg[region]) && InLane(mask, region % 4, 0xFF)
    ensures CsrClear(hart, s.cfg, region / 4, mask) == s.cfg[region := 0]
  {
    var r := CsrClear(hart, s.cfg, region / 4, mask);
    forall i | 0 <= i < ENTRIES
      ensures r[i] == s.cfg[region := 0][i]
    {
      CsrClearAt(hart, s.cfg, region / 4, mask, i);
      if i / 4 == region / 4 {
        OfferedAndNot(hart, s, i, Lane(mask, i % 4));
      }
    }
  }

  lemma SetOne(hart: Hart, s: Csrs, region: nat, mask: bv32, config: bv8)
    requires Legal(hart, s) && region < ENTRIES && s.cfg[region] == 0 && InLane(mask, region % 4, config)
    ensures CsrSet(hart, s.cfg, region / 4, mask) ==
      if region < hart.regions then s.cfg[region := hart.coerce(config)] else s.cfg
  {
    var r := CsrSet(hart, s.cfg, region / 4, mask);
    forall i | 0 <= i < ENTRIES
      ensures r[i] == if i == region && region < hart.regions then hart.coerce(config) else s.cfg[i]
    {
      CsrSetAt(hart, s.cfg, region / 4, mask, i);
      if i / 4 == region / 4 {
        OfferedOr(hart, s, i, Lane(mask, i % 4));
      }
    }
  }

  /** Clearing no bits of an entry leaves it; clearing all of them empties it unless it is locked. */
  lemma OfferedAndNot(hart: Hart, s: Csrs, i: nat, bits: bv8)
    requires Legal(hart, s) && i < ENTRIES
    ensures bits == 0 ==> WriteByte(hart, s.cfg, i, s.cfg[i] & !bits) == s.cfg[i]
    ensures bits == 0xFF && !Locked(s.cfg[i]) ==> WriteByte(hart, s.cfg, i, s.cfg[i] & !bits) == 0
  {
    MaskIdentities(s.cfg[i]);
  }

  /** Setting no bits of an entry leaves it; setting bits of an empty one offers it those bits. */
  lemma OfferedOr(hart: Hart, s: Csrs, i: nat, bits: bv8)
    requires Legal(hart, s) && i < ENTRIES
    ensures bits == 0 ==> WriteByte(hart, s.cfg, i, s.cfg[i] | bits) == s.cfg[i]
    ensures s.cfg[i] == 0 ==>
      WriteByte(hart, s.cfg, i, s.cfg[i] | bits) == if i < hart.regions then hart.coerce(bits) else 0
  {
    MaskIdentities(s.cfg[i]);
    MaskIdentities(bits);
  }

  lemma MaskIdentities(b: bv8)
    ensures b & !0 == b && b & !0xFF == 0 && b | 0 == b && 0 | b == b && !Locked(0)
  {
  }
}
