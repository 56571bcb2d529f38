/** Interrupt levels and priorities in the CLIC's control bytes (sifive_clic0.c). */
module Clic {
  import opened ByteBits

  const MAX_NLBITS: nat := 8

  /** The mode and level bit counts of CLICCFG, and how many control bits the hardware has. */
  datatype Config = Config(nmbits: nat, nlbits: nat, intbits: nat) {
    predicate Valid() { nmbits <= 2 && nlbits <= 15 && intbits <= MAX_NLBITS }
  }

  /** (uint8_t)(-1) >> k */
  function OnesShr(k: nat): bv8 {
    if k == 0 then 0xFF else if k == 1 then 0x7F else if k == 2 then 0x3F else if k == 3 then 0x1F
    else if k == 4 then 0x0F else if k == 5 then 0x07 else if k == 6 then 0x03 else if k == 7 then 0x01 else 0
  }

  function Shl(b: bv8, k: nat): bv8 {
    if k == 0 then b else if k == 1 then b << 1 else if k == 2 then b << 2 else if k == 3 then b << 3
    else if k == 4 then b << 4 else if k == 5 then b << 5 else if k == 6 then b << 6 else if k == 7 then b << 7 else 0
  }

  function Min(x: nat, y: nat): nat { if x < y then x else y }

  /** The level bits the hardware really has. */
  function EffectiveBits(c: Config): nat {
    if c.intbits >= c.nmbits then Min(c.intbits - c.nmbits, c.nlbits) else 0
  }

  // ---------- one control byte ----------

  /** The bits of `v` under `mask` put into `b`. */
  function Insert(b: bv8, v: bv8, mask: bv8): bv8 { (b & !mask) | (v & mask) }

  /** ~(nlmask | nmmask): the bits below the top `high` and not below the top `low`. */
  function Between(low: nat, high: nat): bv8 { !(OnesShr(low) | !OnesShr(high)) }

  /** What __metal_clic0_interrupt_set_level makes of a control byte. */
  function LevelByte(c: Config, b: bv8, level: bv8): bv8 {
    Insert(b, level, Between(c.nmbits + c.nlbits, c.nmbits))
  }

  /** What __metal_clic0_interrupt_set_priority makes of a control byte. */
  function PriorityByte(c: Config, b: bv8, priority: bv8): bv8 {
    if c.nmbits + c.nlbits > c.intbits then b
    else
      var npbits := c.intbits - (c.nmbits + c.nlbits);
      Insert(b, priority, Between(c.nmbits + c.nlbits + npbits, c.nmbits + c.nlbits))
  }

  /** What __metal_clic0_interrupt_get_level reads from a control byte. */
  function LevelOf(c: Config, b: bv8): bv8
    requires c.Valid()
  {
    var nlbits :=
      if c.nmbits + c.nlbits >= c.intbits then (if c.intbits >= c.nmbits then c.intbits - c.nmbits else 0)
      else Min(c.intbits - c.nmbits, c.nlbits);
    LevelAt(b, nlbits, MAX_NLBITS - (c.nmbits + nlbits))
  }

  /** The level held in `bits` bits, `shift` bits up in the byte; all ones when there are none. */
  function LevelAt(b: bv8, bits: nat, shift: nat): bv8
    requires bits <= MAX_NLBITS
  {
    var mask := Shl(OnesShr(MAX_NLBITS - bits), shift);
    if mask == 0 then 0xFF else
      LowestBit(mask);
      TopField(b, mask, bits) | OnesShr(bits)
  }

  lemma LowestBit(mask: bv8)
    ensures mask & !Shl(mask, 1) == 0 <==> mask == 0
  {
  }

  /** `level` with the unimplemented low bits filled with ones. */
  function Rounded(level: bv8, bits: nat): bv8 { level | OnesShr(bits) }

  /** Dividing a top field down and shifting it back up masks it. */
  lemma FieldDownAndUp(b: bv8)
    ensures ((b & 0x80) / 0x80) << 7 == b & 0x80
    ensures ((b & 0xC0) / 0x40) << 6 == b & 0xC0
    ensures ((b & 0xE0) / 0x20) << 5 == b & 0xE0
    ensures ((b & 0xF0) / 0x10) << 4 == b & 0xF0
    ensures ((b & 0xF8) / 0x08) << 3 == b & 0xF8
    ensures ((b & 0xFC) / 0x04) << 2 == b & 0xFC
    ensures ((b & 0xFE) / 0x02) << 1 == b & 0xFE
    ensures (b & 0xFF) / 0x01 == b
  {
  }

  /** The field computation of get_level, for k implemented bits at the top of the byte. */
  function TopField(b: bv8, mask: bv8, k: nat): bv8
    requires mask & !Shl(mask, 1) != 0 && k <= MAX_NLBITS
  {
    Shl((b & mask) / (mask & !Shl(mask, 1)), MAX_NLBITS - k)
  }

  lemma TopFieldMasks(b: bv8, k: nat)
    requires 1 <= k <= MAX_NLBITS
    ensures var mask := Shl(OnesShr(MAX_NLBITS - k), MAX_NLBITS - k);
      mask == !OnesShr(k) && mask & !Shl(mask, 1) != 0 && TopField(b, mask, k) == b & !OnesShr(k)
  {
    FieldDownAndUp(b);
  }

  // ---------- bit by bit ----------

  lemma OnesShrBit(k: nat, i: nat)
    requires i < 8
    ensures Bit(OnesShr(k), i) <==> i + k < 8
  {
  }

  lemma InsertBit(b: bv8, v: bv8, mask: bv8, i: nat)
    requires i < 8
    ensures Bit(Insert(b, v, mask), i) == if Bit(mask, i) then Bit(v, i) else Bit(b, i)
  {
    NoneOrOne(mask, i);
    if mask & One(i) == 0 {
      InsertOutside(b, v, mask, One(i));
    } else {
      InsertInside(b, v, mask, One(i));
    }
  }

  lemma InsertInside(b: bv8, v: bv8, mask: bv8, m: bv8)
    requires mask & m == m
    ensures Insert(b, v, mask) & m == v & m
  {
  }

  lemma InsertOutside(b: bv8, v: bv8, mask: bv8, m: bv8)
    requires mask & m == 0
    ensures Insert(b, v, mask) & m == b & m
  {
  }

  /** The bits between two counts from the top. */
  lemma MaskBit(low: nat, high: nat, i: nat)
    requires i < 8
    ensures Bit(Between(low, high), i) <==> i + high < 8 <= i + low
  {
    OnesShrBit(low, i);
    OnesShrBit(high, i);
    BetweenBit(OnesShr(low), OnesShr(high), i);
  }

  lemma BetweenBit(x: bv8, y: bv8, i: nat)
    requires i < 8
    ensures Bit(!(x | !y), i) <==> !Bit(x, i) && Bit(y, i)
  {
    NoneOrOne(x, i);
    if x & One(i) == 0 {
      NotIn(x, y, One(i));
    } else {
      In(x, y, One(i));
    }
  }

  lemma NotIn(x: bv8, y: bv8, m: bv8)
    requires x & m == 0
    ensures !(x | !y) & m == y & m
  {
  }

  lemma In(x: bv8, y: bv8, m: bv8)
    requires x & m == m
    ensures !(x | !y) & m == 0
  {
  }

  lemma FieldBit(b: bv8, v: bv8, low: nat, high: nat, i: nat)
    requires i < 8
    ensures Bit(Insert(b, v, Between(low, high)), i) ==
      if i + high < 8 <= i + low then Bit(v, i) else Bit(b, i)
  {
    MaskBit(low, high, i);
    InsertBit(b, v, Between(low, high), i);
  }

  /** Setting a level writes the bits of the level field and no others. */
  lemma LevelByteBit(c: Config, b: bv8, level: bv8, i: nat)
    requires i < 8
    ensures Bit(LevelByte(c, b, level), i) ==
      if i + c.nmbits < 8 && 8 <= i + c.nmbits + c.nlbits then Bit(level, i) else Bit(b, i)
  {
    var low, high := c.nmbits + c.nlbits, c.nmbits;
    var r := Insert(b, level, Between(low, high));
    assert LevelByte(c, b, level) == r;
    assert Bit(r, i) == if i + high < 8 <= i + low then Bit(level, i) else Bit(b, i) by {
      FieldBit(b, level, low, high, i);
    }
  }

  /** Setting a priority writes the bits of the priority field and no others. */
  lemma PriorityByteBit(c: Config, b: bv8, priority: bv8, i: nat)
    requires i < 8
    ensures Bit(PriorityByte(c, b, priority), i) ==
      if c.nmbits + c.nlbits <= c.intbits && i + c.nmbits + c.nlbits < 8 && 8 <= i + c.intbits then Bit(priority, i)
      else Bit(b, i)
  {
    FieldBit(b, priority, c.intbits, c.nmbits + c.nlbits, i);
  }

  /** The bits of `v` in the field, the bits of `b` elsewhere. */
  ghost predicate Written(r: bv8, b: bv8, v: bv8, top: nat, bottom: nat) {
    forall i :: 0 <= i < 8 ==> Bit(r, i) == if i + top < 8 <= i + bottom then Bit(v, i) else Bit(b, i)
  }

  lemma LevelWritten(c: Config, b: bv8, level: bv8, r: bv8)
    requires r == LevelByte(c, b, level)
    ensures Written(r, b, level, c.nmbits, c.nmbits + c.nlbits)
  {
    forall i | 0 <= i < 8
      ensures Bit(r, i) == if i + c.nmbits < 8 <= i + c.nmbits + c.nlbits then Bit(level, i) else Bit(b, i)
    {
      LevelByteBit(c, b, level, i);
    }
  }

  lemma PriorityWritten(c: Config, b: bv8, priority: bv8, r: bv8)
    requires r == PriorityByte(c, b, priority) && c.nmbits + c.nlbits <= c.intbits
    ensures Written(r, b, priority, c.nmbits + c.nlbits, c.intbits)
  {
    forall i | 0 <= i < 8
      ensures Bit(r, i) == if i + (c.nmbits + c.nlbits) < 8 <= i + c.intbits then Bit(priority, i) else Bit(b, i)
    {
      PriorityByteBit(c, b, priority, i);
    }
  }

  /** With no mode bits a level is read as the top bits of its byte. */
  lemma LevelOfMMode(c: Config, b: bv8)
    requires c.Valid() && c.nmbits == 0
    ensures LevelOf(c, b) == Filled(b, EffectiveBits(c))
  {
    LevelAtTop(b, EffectiveBits(c));
  }

  lemma FieldUnderOneModeBit(b: bv8)
    ensures ((b & 0x40) / 0x40) << 7 == (b << 1) & 0x80
    ensures ((b & 0x60) / 0x20) << 6 == (b << 1) & 0xC0
    ensures ((b & 0x70) / 0x10) << 5 == (b << 1) & 0xE0
    ensures ((b & 0x78) / 0x08) << 4 == (b << 1) & 0xF0
    ensures ((b & 0x7C) / 0x04) << 3 == (b << 1) & 0xF8
    ensures ((b & 0x7E) / 0x02) << 2 == (b << 1) & 0xFC
    ensures ((b & 0x7F) / 0x01) << 1 == (b << 1) & 0xFE
  {
  }

  lemma FieldUnderTwoModeBits(b: bv8)
    ensures ((b & 0x20) / 0x20) << 7 == (b << 2) & 0x80
    ensures ((b & 0x30) / 0x10) << 6 == (b << 2) & 0xC0
    ensures ((b & 0x38) / 0x08) << 5 == (b << 2) & 0xE0
    ensures ((b & 0x3C) / 0x04) << 4 == (b << 2) & 0xF0
    ensures ((b & 0x3E) / 0x02) << 3 == (b << 2) & 0xF8
    ensures ((b & 0x3F) / 0x01) << 2 == (b << 2) & 0xFC
  {
  }

  /** The top k bits of `x`, and ones below them. */
  function Filled(x: bv8, k: nat): bv8 { (x & !OnesShr(k)) | OnesShr(k) }

  lemma FieldMasksUnderOne(b: bv8, k: nat)
    requires 1 <= k && 1 + k <= MAX_NLBITS
    ensures var mask := Shl(OnesShr(MAX_NLBITS - k), MAX_NLBITS - (1 + k));
      mask != 0 && mask & !Shl(mask, 1) != 0 && TopField(b, mask, k) == Shl(b, 1) & !OnesShr(k)
  {
    FieldUnderOneModeBit(b);
  }

  lemma FieldMasksUnderTwo(b: bv8, k: nat)
    requires 1 <= k && 2 + k <= MAX_NLBITS
    ensures var mask := Shl(OnesShr(MAX_NLBITS - k), MAX_NLBITS - (2 + k));
      mask != 0 && mask & !Shl(mask, 1) != 0 && TopField(b, mask, k) == Shl(b, 2) & !OnesShr(k)
  {
    FieldUnderTwoModeBits(b);
  }

  lemma LevelUnderOne(b: bv8, k: nat)
    requires 1 <= k && 1 + k <= MAX_NLBITS
    ensures LevelAt(b, k, MAX_NLBITS - (1 + k)) == Filled(Shl(b, 1), k)
  {
    FieldMasksUnderOne(b, k);
  }

  lemma LevelUnderTwo(b: bv8, k: nat)
    requires 1 <= k && 2 + k <= MAX_NLBITS
    ensures LevelAt(b, k, MAX_NLBITS - (2 + k)) == Filled(Shl(b, 2), k)
  {
    FieldMasksUnderTwo(b, k);
  }

  lemma LevelOfAt(c: Config, b: bv8)
    requires c.Valid()
    ensures var k := EffectiveBits(c);
      c.nmbits + k <= MAX_NLBITS + 2 && (k > 0 ==> c.nmbits + k <= MAX_NLBITS) &&
      LevelOf(c, b) == if k > 0 then LevelAt(b, k, MAX_NLBITS - (c.nmbits + k)) else 0xFF
  {
  }

  /** With mode bits the level is read from the bits below them. */
  lemma LevelOfShifted(c: Config, b: bv8)
    requires c.Valid()
    ensures LevelOf(c, b) == Filled(Shl(b, c.nmbits), EffectiveBits(c))
  {
    var k := EffectiveBits(c);
    if k == 0 {
      LevelOfNone(c, b);
    } else {
      LevelOfAt(c, b);
      LevelUnder(b, c.nmbits, k);
    }
  }

  lemma LevelUnder(b: bv8, nmbits: nat, k: nat)
    requires nmbits <= 2 && 1 <= k && nmbits + k <= MAX_NLBITS
    ensures LevelAt(b, k, MAX_NLBITS - (nmbits + k)) == Filled(Shl(b, nmbits), k)
  {
    if nmbits == 0 {
      LevelAtTop(b, k);
    } else if nmbits == 1 {
      LevelUnderOne(b, k);
    } else {
      LevelUnderTwo(b, k);
    }
  }

  lemma LevelOfNone(c: Config, b: bv8)
    requires c.Valid() && EffectiveBits(c) == 0
    ensures LevelOf(c, b) == Filled(Shl(b, c.nmbits), 0)
  {
    LevelOfAt(c, b);
    FilledByNone(Shl(b, c.nmbits));
  }

  lemma FilledByNone(x: bv8)
    ensures Filled(x, 0) == 0xFF
  {
  }

  lemma ShlBit(b: bv8, k: nat, i: nat)
    requires k <= 2 && i < 8
    ensures Bit(Shl(b, k), i) == (i >= k && Bit(b, i - k))
  {
  }

  lemma FilledBit(x: bv8, ones: bv8, i: nat)
    requires i < 8
    ensures Bit((x & !ones) | ones, i) == (Bit(ones, i) || Bit(x, i))
  {
    NoneOrOne(ones, i);
    if ones & One(i) == 0 {
      FilledOutside(x, ones, One(i));
    } else {
      FilledInside(x, ones, One(i));
    }
  }

  lemma FilledInside(x: bv8, ones: bv8, m: bv8)
    requires ones & m == m
    ensures ((x & !ones) | ones) & m == m
  {
  }

  lemma FilledOutside(x: bv8, ones: bv8, m: bv8)
    requires ones & m == 0
    ensures ((x & !ones) | ones) & m == x & m
  {
  }

  lemma ShiftedBit(b: bv8, nmbits: nat, k: nat, i: nat)
    requires nmbits <= 2 && i < 8 && (k == 0 || nmbits + k <= MAX_NLBITS)
    ensures Bit(Filled(Shl(b, nmbits), k), i) == (i + k < 8 || Bit(b, i - nmbits))
  {
    FilledBit(Shl(b, nmbits), OnesShr(k), i);
    OnesShrBit(k, i);
    ShlBit(b, nmbits, i);
  }

  /** The level read has, from the top, the implemented bits of the byte's level field, and ones below them. */
  ghost predicate LevelRead(c: Config, b: bv8, level: bv8)
    requires c.Valid()
  {
    var bits :=
      if c.intbits < c.nmbits then 0
      else if c.intbits < c.nmbits + c.nlbits then c.intbits - c.nmbits
      else c.nlbits;
    forall i :: 0 <= i < 8 ==> Bit(level, i) == (i + bits < 8 || Bit(b, i - c.nmbits))
  }

  lemma LevelOfBits(c: Config, b: bv8)
    requires c.Valid()
    ensures LevelRead(c, b, LevelOf(c, b))
  {
    var k, nmbits := EffectiveBits(c), c.nmbits;
    var r := LevelOf(c, b);
    LevelOfShifted(c, b);
    forall i | 0 <= i < 8
      ensures Bit(r, i) == (i + k < 8 || Bit(b, i - nmbits))
    {
      ShiftedBit(b, nmbits, k, i);
    }
  }

  lemma LevelAtTop(b: bv8, k: nat)
    requires k <= MAX_NLBITS
    ensures LevelAt(b, k, MAX_NLBITS - k) == Filled(b, k)
  {
    if k > 0 {
      TopFieldMasks(b, k);
      NotAllOnes(k);
    }
  }

  lemma NotAllOnes(k: nat)
    requires 1 <= k
    ensures !OnesShr(k) != 0
  {
  }

  /** Wider masks of ones contain narrower ones. */
  lemma OnesNest(j: nat, k: nat)
    requires j <= k
    ensures OnesShr(k) & !OnesShr(j) == 0
  {
  }

  /** Reading a level back after setting it gives the level with the unimplemented bits filled. */
  lemma LevelReadsBack(c: Config, b: bv8, level: bv8)
    requires c.Valid() && c.nmbits == 0
    ensures LevelOf(c, LevelByte(c, b, level)) == Rounded(level, EffectiveBits(c))
  {
    var mask := Between(c.nlbits, 0);
    OnesNest(EffectiveBits(c), c.nlbits);
    assert LevelByte(c, b, level) == Insert(b, level, mask);
    InsertedLevel(b, level, OnesShr(EffectiveBits(c)), OnesShr(c.nlbits), mask);
    LevelOfMMode(c, Insert(b, level, mask));
  }

  lemma InsertedLevel(b: bv8, level: bv8, wide: bv8, narrow: bv8, mask: bv8)
    requires narrow & !wide == 0 && mask == !(narrow | !0xFF)
    ensures (Insert(b, level, mask) & !wide) | wide == level | wide
  {
  }

  /** Setting a priority leaves the level alone. */
  lemma PriorityKeepsLevel(c: Config, b: bv8, priority: bv8)
    requires c.Valid() && c.nmbits == 0
    ensures LevelOf(c, PriorityByte(c, b, priority)) == LevelOf(c, b)
  {
    LevelOfMMode(c, PriorityByte(c, b, priority));
    LevelOfMMode(c, b);
    if c.nlbits <= c.intbits {
      OnesNest(c.nlbits, c.intbits);
      PriorityBits(b, priority, OnesShr(c.nlbits), OnesShr(c.intbits));
    }
  }

  lemma PriorityBits(b: bv8, p: bv8, level: bv8, low: bv8)
    ensures Insert(b, p, !(low | !level)) & !level == b & !level
  {
  }

  /** The rounded level is the least level the hardware can hold that is not below the one asked for. */
  lemma RoundedIsLeast(level: bv8, bits: nat, other: bv8)
    ensures Rounded(level, bits) >= level && Rounded(Rounded(level, bits), bits) == Rounded(level, bits)
    ensures other >= level && Rounded(other, bits) == other ==> other >= Rounded(level, bits)
  {
  }

  /** With mode bits configured, levels read back right exactly when no level bit is implemented. */
  lemma ModeBitsLoseLevels(c: Config)
    requires c.Valid()
    ensures (forall b, level :: LevelOf(c, LevelByte(c, b, level)) == Rounded(level, EffectiveBits(c)))
       <==> c.nmbits == 0 || EffectiveBits(c) == 0
  {
    if c.nmbits == 0 {
      forall b, level
        ensures LevelOf(c, LevelByte(c, b, level)) == Rounded(level, EffectiveBits(c))
      {
        LevelReadsBack(c, b, level);
      }
    } else if EffectiveBits(c) != 0 {
      TopBitIgnored(c);
      assert LevelOf(c, LevelByte(c, 0, 0x80)) != Rounded(0x80, EffectiveBits(c)) ||
             LevelOf(c, LevelByte(c, 0, 0)) != Rounded(0, EffectiveBits(c));
    }
  }

  lemma TopBitIgnored(c: Config)
    requires c.Valid() && c.nmbits > 0 && EffectiveBits(c) > 0
    ensures LevelByte(c, 0, 0x80) == LevelByte(c, 0, 0)
    ensures Rounded(0x80, EffectiveBits(c)) != Rounded(0, EffectiveBits(c))
  {
  }

  // ---------- runs over all interrupts ----------

  datatype Op = SetLevel(id: nat, level: bv8) | SetPriority(id: nat, priority: bv8)

  function Apply(c: Config, ctl: seq<bv8>, op: Op): (r: seq<bv8>)
    requires op.id < |ctl|
    ensures |r| == |ctl|
  {
    match op
    case SetLevel(id, level) => ctl[id := LevelByte(c, ctl[id], level)]
    case SetPriority(id, priority) => ctl[id := PriorityByte(c, ctl[id], priority)]
  }

  ghost predicate InRange(ops: seq<Op>, n: nat) {
    forall k :: 0 <= k < |ops| ==> ops[k].id < n
  }

  ghost function Run(c: Config, ctl: seq<bv8>, ops: seq<Op>): (r: seq<bv8>)
    requires InRange(ops, |ctl|)
    ensures |r| == |ctl|
  {
    if ops == [] then ctl else Apply(c, Run(c, ctl, ops[..|ops| - 1]), ops[|ops| - 1])
  }

  /** The argument of the last set_level of interrupt `id`, or `initial` when there was none. */
  ghost function LastLevelSet(ops: seq<Op>, id: nat, initial: bv8): bv8 {
    if ops == [] then initial
    else if ops[|ops| - 1].SetLevel? && ops[|ops| - 1].id == id then ops[|ops| - 1].level
    else LastLevelSet(ops[..|ops| - 1], id, initial)
  }

  ghost function LastPrioritySet(ops: seq<Op>, id: nat, initial: bv8): bv8 {
    if ops == [] then initial
    else if ops[|ops| - 1].SetPriority? && ops[|ops| - 1].id == id then ops[|ops| - 1].priority
    else LastPrioritySet(ops[..|ops| - 1], id, initial)
  }

  /** After any run the level field of each interrupt is that of its last set_level, the priority field that of
      its last set_priority, and every other bit is as it was: for every configuration. */
  lemma {:induction false} FieldsSurviveRuns(c: Config, ctl: seq<bv8>, ops: seq<Op>, id: nat, i: nat)
    requires InRange(ops, |ctl|) && id < |ctl| && i < 8
    ensures Bit(Run(c, ctl, ops)[id], i) ==
      if i + c.nmbits < 8 <= i + c.nmbits + c.nlbits then Bit(LastLevelSet(ops, id, ctl[id]), i)
      else if i + c.nmbits + c.nlbits < 8 <= i + c.intbits then Bit(LastPrioritySet(ops, id, ctl[id]), i)
      else Bit(ctl[id], i)
  {
    if ops != [] {
      var last, rest := ops[|ops| - 1], ops[..|ops| - 1];
      FieldsSurviveRuns(c, ctl, rest, id, i);
      var b := Run(c, ctl, rest)[id];
      match last
      case SetLevel(_, level) => LevelByteBit(c, b, level, i);
      case SetPriority(_, priority) => PriorityByteBit(c, b, priority, i);
    }
  }

  /** The level interrupt `id` reads as after a run: its last set level, rounded; its first reading if none was set. */
  ghost function LastLevel(c: Config, ops: seq<Op>, id: nat, initial: bv8): bv8 {
    if ops == [] then initial
    else if ops[|ops| - 1].SetLevel? && ops[|ops| - 1].id == id then Rounded(ops[|ops| - 1].level, EffectiveBits(c))
    else LastLevel(c, ops[..|ops| - 1], id, initial)
  }

  lemma {:induction false} LevelsSurviveRuns(c: Config, ctl: seq<bv8>, ops: seq<Op>, id: nat)
    requires c.Valid() && c.nmbits == 0 && InRange(ops, |ctl|) && id < |ctl|
    ensures LevelOf(c, Run(c, ctl, ops)[id]) == LastLevel(c, ops, id, LevelOf(c, ctl[id]))
  {
    if ops != [] {
      var last, rest := ops[|ops| - 1], ops[..|ops| - 1];
      LevelsSurviveRuns(c, ctl, rest, id);
      LevelAfter(c, Run(c, ctl, rest), last, id);
    }
  }

  lemma LevelAfter(c: Config, ctl: seq<bv8>, op: Op, id: nat)
    requires c.Valid() && c.nmbits == 0 && op.id < |ctl| && id < |ctl|
    ensures LevelOf(c, Apply(c, ctl, op)[id]) ==
      if op.SetLevel? && op.id == id then Rounded(op.level, EffectiveBits(c)) else LevelOf(c, ctl[id])
  {
    if op.id == id {
      match op
      case SetLevel(_, level) => LevelReadsBack(c, ctl[id], level);
      case SetPriority(_, priority) => PriorityKeepsLevel(c, ctl[id], priority);
    }
  }

  /** The control bytes of the interrupts, as memory-mapped registers. */
  class Controller {
    const config: Config
    const ctl: array<bv8>

    constructor (config: Config, ctl: array<bv8>)
      requires config.Valid()
      ensures this.config == config && this.ctl == ctl
    {
      this.config, this.ctl := config, ctl;
    }

    /** Replaces the bits of one control byte under a mask. */
    method ReplaceBits(id: nat, v: bv8, mask: bv8)
      requires id < ctl.Length
      modifies ctl
      ensures ctl[..] == old(ctl[..])[id := Insert(old(ctl[id]), v, mask)]
    {
      var val := ctl[id];
      val := val & !mask;
      ctl[id] := val | (v & mask);
    }

    method InterruptSetLevel(id: nat, level: bv8)
      requires id < ctl.Length
      modifies ctl
      ensures ctl[..] == Apply(config, old(ctl[..]), SetLevel(id, level)) == old(ctl[..])[id := ctl[id]]
      ensures var top := config.nmbits;
        forall i :: 0 <= i < 8 ==>
          Bit(ctl[id], i) == Bit(if i + top < 8 <= i + top + config.nlbits then level else old(ctl[id]), i)
      ensures config.Valid() && config.nmbits == 0 ==> LevelOf(config, ctl[id]) == Rounded(level, EffectiveBits(config))
    {
      WriteLevel(id, level);
      LevelWritten(config, old(ctl[id]), level, ctl[id]);
      if config.Valid() && config.nmbits == 0 {
        LevelReadsBack(config, old(ctl[id]), level);
      }
    }

    method WriteLevel(id: nat, level: bv8)
      requires id < ctl.Length
      modifies ctl
      ensures ctl[..] == old(ctl[..])[id := LevelByte(config, old(ctl[id]), level)]
    {
      ReplaceBits(id, level, Between(config.nmbits + config.nlbits, config.nmbits));
    }

    method InterruptSetPriority(id: nat, priority: bv8)
      requires id < ctl.Length
      modifies ctl
      ensures ctl[..] == Apply(config, old(ctl[..]), SetPriority(id, priority)) == old(ctl[..])[id := ctl[id]]
      ensures var top := config.nmbits + config.nlbits;
        forall i :: 0 <= i < 8 ==>
          Bit(ctl[id], i) == Bit(if i + top < 8 <= i + config.intbits then priority else old(ctl[id]), i)
      ensures config.nmbits + config.nlbits > config.intbits ==> ctl[..] == old(ctl[..])
      ensures config.Valid() && config.nmbits == 0 ==> LevelOf(config, ctl[id]) == LevelOf(config, old(ctl[id]))
    {
      if config.nmbits + config.nlbits <= config.intbits {
        WritePriority(id, priority);
        PriorityWritten(config, old(ctl[id]), priority, ctl[id]);
        if config.Valid() && config.nmbits == 0 {
          PriorityKeepsLevel(config, old(ctl[id]), priority);
        }
      }
    }

    method WritePriority(id: nat, priority: bv8)
      requires id < ctl.Length && config.nmbits + config.nlbits <= config.intbits
      modifies ctl
      ensures ctl[..] == old(ctl[..])[id := PriorityByte(config, old(ctl[id]), priority)]
    {
      var npbits := config.intbits - (config.nmbits + config.nlbits);
      ReplaceBits(id, priority, Between(config.nmbits + config.nlbits + npbits, config.nmbits + config.nlbits));
    }

    method InterruptGetLevel(id: nat) returns (level: bv8)
      requires config.Valid() && id < ctl.Length
      ensures level == LevelOf(config, ctl[id])
      ensures LevelRead(config, ctl[id], level)
    {
      LevelOfBits(config, ctl[id]);
      level := LevelOf(config, ctl[id]);
    }
  }
}
