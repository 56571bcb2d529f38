/** The registers of the PLL: what the driver writes for a row and what it reads back. */
module PllDriver {
  import opened Arithmetic
  import opened PllTable
  import opened Pll

  /** __METAL_GET_FIELD: the field under a contiguous mask, by division by its lowest bit. */
  function GetField(reg: bv32, mask: bv32): bv32
    requires mask & !(mask << 1) != 0
  {
    (reg & mask) / (mask & !(mask << 1))
  }

  /** __METAL_SET_FIELD */
  function SetField(reg: bv32, mask: bv32, val: bv32): bv32 {
    (reg & !mask) | ((val * (mask & !(mask << 1))) & mask)
  }

  /** The PLL's two registers. Locking is something the hardware does. */
  class Prci {
    var pllcfg: bv32
    var plloutdiv: bv32

    constructor (cfg: bv32, outdiv: bv32)
      ensures pllcfg == cfg && plloutdiv == outdiv
    {
      pllcfg, plloutdiv := cfg, outdiv;
    }

    /** The polling loop for PLL_LOCK; the lock comes in one step of the hardware. */
    method AwaitLock()
      modifies this`pllcfg
      ensures pllcfg == old(pllcfg) | PLL_LOCK
    {
      pllcfg := pllcfg | PLL_LOCK;
    }

    /** The two accesses that replace the bits under a mask. */
    method ReplaceCfg(mask: bv32, bits: bv32)
      modifies this`pllcfg
      ensures pllcfg == (old(pllcfg) & !mask) | bits
    {
      pllcfg := pllcfg & !mask;
      pllcfg := pllcfg | bits;
    }

    method WriteStages(r: bv32, f: bv32, q: bv32)
      requires r <= 7 && f <= 63 && q <= 3
      modifies this`pllcfg
      ensures StagesHold(pllcfg, old(pllcfg), r, f, q)
    {
      ReplaceCfg(PLL_R, r & PLL_R);
      ReplaceCfg(PLL_F, (f << 4) & PLL_F);
      ReplaceCfg(PLL_Q, (q << 10) & PLL_Q);
      StagesWritten(old(pllcfg), r, f, q);
    }

    method WriteOutputDivider(d: bv32)
      requires Negative(d) || d <= 63
      modifies this`plloutdiv
      ensures OutputHolds(plloutdiv, d)
    {
      if Negative(d) {
        OutputOff(plloutdiv, d);
        plloutdiv := plloutdiv | DIV_1;
        plloutdiv := plloutdiv & !DIV_DIV;
        plloutdiv := plloutdiv | (1 & DIV_DIV);
      } else {
        OutputOn(plloutdiv, d);
        plloutdiv := plloutdiv & !DIV_1;
        plloutdiv := plloutdiv & !DIV_DIV;
        plloutdiv := plloutdiv | (d & DIV_DIV);
      }
    }

    method Configure(c: PllConfig)
      requires Fits(c) && pllcfg & 0x1_0000 == 0
      modifies this
      ensures StagesHold(pllcfg, old(pllcfg), c.r, c.f, c.q) && NotBypassed(pllcfg) && OutputHolds(plloutdiv, c.d)
    {
      WriteStages(c.r, c.f, c.q);
      WriteOutputDivider(c.d);
      LeaveBypass(old(pllcfg), c.r, c.f, c.q);
    }

    method LeaveBypass(ghost before: bv32, ghost r: bv32, ghost f: bv32, ghost q: bv32)
      requires StagesHold(pllcfg, before, r, f, q)
      modifies this`pllcfg
      ensures StagesHold(pllcfg, before, r, f, q) && NotBypassed(pllcfg)
    {
      BypassAndLockKeepFields(pllcfg, before, r, f, q);
      pllcfg := pllcfg & !PLL_BYPASS;
      AwaitLock();
    }

    method Deselect()
      modifies this`pllcfg
      ensures Deselected(pllcfg, old(pllcfg))
    {
      DeselectBits(pllcfg);
      if pllcfg & PLL_SEL != 0 {
        pllcfg := pllcfg & !PLL_SEL;
      }
    }

    method Bypass()
      modifies this`pllcfg
      ensures pllcfg == old(pllcfg) | PLL_BYPASS
    {
      pllcfg := pllcfg | PLL_BYPASS;
    }

    method Select()
      modifies this`pllcfg
      ensures pllcfg == old(pllcfg) | PLL_SEL
    {
      pllcfg := pllcfg | PLL_SEL;
    }

    /** Sets the rate from the selected reference and reads it back. The result is the reference itself when
        the rate is within 75%-125% of it or no row takes it; otherwise it is what the nearest row makes of it. */
    method SetRateHz(pllref: nat, pllsel0: nat, rate: int) returns (out: int, ghost row: int)
      requires InLong(Reference(pllcfg, pllref, pllsel0), rate)
      modifies this
      ensures var refHz := Reference(old(pllcfg), pllref, pllsel0);
        && Reference(pllcfg, pllref, pllsel0) == refHz
        && out == RateHz(pllcfg, plloutdiv, pllref, pllsel0)
        && (row == -1 <==> refHz * 3 / 4 <= rate <= refHz * 5 / 4 || !(6_000_000 <= refHz <= 48_000_000))
        && (row == -1 ==> out == refHz)
        && (row != -1 ==> Nearest(Table(), row, 0, refHz, rate) && out == StagedRate(Table()[row], refHz))
        && (row != -1 ==>
              out <= ConfigFreq(Table()[row], refHz) <= out + Table()[row].r as nat * Table()[row].multiplier)
    {
      ghost var before := pllcfg;
      Deselect();
      DeselectedReference(pllcfg, before);
      ReferenceByMask(before, pllcfg, pllref, pllsel0);
      var refHz := if pllcfg & PLL_REFSEL != 0 then pllref else pllsel0;
      if refHz * 3 / 4 <= rate && refHz * 5 / 4 >= rate {
        row := -1;
        out := RunBypassed(pllref, pllsel0, before);
      } else {
        TableBounded(refHz);
        var index := FindClosestConfig(Table(), refHz, rate);
        NearestFindsRow(index, refHz, rate);
        row := index;
        if index != -1 {
          FieldsFit(Table()[index]);
          StagedRateBounds(Table()[index], refHz);
          out := RunRow(Table()[index], pllref, pllsel0, before);
        } else {
          out := RunBypassed(pllref, pllsel0, before);
        }
      }
    }

    /** __metal_driver_sifive_fe310_g000_pll_get_rate_hz */
    method GetRateHz(pllref: nat, pllsel0: nat) returns (out: int)
      ensures out == RateHz(pllcfg, plloutdiv, pllref, pllsel0)
      ensures pllcfg & 0x1_0000 == 0 ==> out == pllsel0
      ensures pllcfg & 0x1_0000 != 0 && pllcfg & 0x4_0000 != 0 && pllcfg & 0x2_0000 != 0 ==> out == pllref
      ensures pllcfg & 0x1_0000 != 0 && pllcfg & 0x4_0000 != 0 && pllcfg & 0x2_0000 == 0 ==> out == pllsel0
      ensures pllcfg & 0x1_0000 != 0 && pllcfg & 0x4_0000 == 0 && pllcfg & 0xC00 == 0 ==> out == -1
      ensures pllcfg & 0x1_0000 != 0 && pllcfg & 0x4_0000 == 0 && pllcfg & 0xC00 != 0 ==>
        StagesGive(pllcfg, plloutdiv, if pllcfg & 0x2_0000 != 0 then pllref else pllsel0, out)
    {
      RateByMask(pllcfg, plloutdiv, pllref, pllsel0);
      out := RateHz(pllcfg, plloutdiv, pllref, pllsel0);
    }

    method RunBypassed(pllref: nat, pllsel0: nat, ghost before: bv32) returns (out: int)
      requires SameReference(pllcfg, before)
      modifies this
      ensures out == RateHz(pllcfg, plloutdiv, pllref, pllsel0) == Reference(before, pllref, pllsel0)
      ensures Reference(pllcfg, pllref, pllsel0) == Reference(before, pllref, pllsel0)
    {
      SelectBypassed(pllref, pllsel0, before);
      out := GetRateHz(pllref, pllsel0);
    }

    method SelectBypassed(ghost pllref: nat, ghost pllsel0: nat, ghost before: bv32)
      requires SameReference(pllcfg, before)
      modifies this`pllcfg
      ensures RateHz(pllcfg, plloutdiv, pllref, pllsel0) == Reference(before, pllref, pllsel0)
      ensures Reference(pllcfg, pllref, pllsel0) == Reference(before, pllref, pllsel0)
    {
      BypassedRate(pllcfg, plloutdiv, before, pllref, pllsel0);
      Bypass();
      Select();
    }

    method RunRow(c: PllConfig, pllref: nat, pllsel0: nat, ghost before: bv32) returns (out: int)
      requires Fits(c) && Deselected(pllcfg, before)
      modifies this
      ensures out == RateHz(pllcfg, plloutdiv, pllref, pllsel0) == StagedRate(c, Reference(before, pllref, pllsel0))
      ensures Reference(pllcfg, pllref, pllsel0) == Reference(before, pllref, pllsel0)
    {
      SelectRow(c, before);
      RateOfSelectedRow(pllcfg, before, plloutdiv, c, pllref, pllsel0);
      out := GetRateHz(pllref, pllsel0);
    }

    method SelectRow(c: PllConfig, ghost before: bv32)
      requires Fits(c) && Deselected(pllcfg, before)
      modifies this
      ensures RowSelected(pllcfg, before, plloutdiv, c)
    {
      DeselectedReference(pllcfg, before);
      Configure(c);
      SelectKeepsRow(pllcfg, old(pllcfg), before, c.r, c.f, c.q);
      Select();
    }
  }

  /** No long overflows: neither the products of the 75%-125% test, of which the second is formed only when the
      first half holds, nor the difference between a row's frequency and the rate. */
  predicate InLong(refHz: nat, rate: int) {
    && 400_000_000 - LONG_MAX < rate <= LONG_MAX && refHz * 3 <= LONG_MAX
    && (refHz * 3 / 4 <= rate ==> refHz * 5 <= LONG_MAX)
  }

  /** The fields of a row fit the registers. */
  ghost predicate Fits(c: PllConfig) {
    c.r <= 7 && c.f <= 63 && 1 <= c.q <= 3 && (c.d == NO_DIVIDER || c.d <= 63) && (Negative(c.d) || c.d <= 63)
  }

  lemma FieldsFit(c: PllConfig)
    requires c in Table()
    ensures Fits(c)
  {
    assert RowOk(c);
  }

  /** The PLL is not selected, and nothing else of the register has changed. */
  ghost predicate Deselected(x: bv32, before: bv32) {
    x & 0x1_0000 == 0 && x & 0xFFFE_FFFF == before & 0xFFFE_FFFF
  }

  lemma DeselectBits(x: bv32)
    ensures Deselected(x & !PLL_SEL, x) && (x & PLL_SEL == 0 ==> Deselected(x, x))
  {
  }

  lemma DeselectedReference(x: bv32, before: bv32)
    requires Deselected(x, before)
    ensures SameReference(x, before)
  {
    assert (x & 0xFFFE_FFFF) & PLL_REFSEL == x & PLL_REFSEL;
    assert (before & 0xFFFE_FFFF) & PLL_REFSEL == before & PLL_REFSEL;
  }

  lemma ReferenceByMask(x: bv32, y: bv32, pllref: nat, pllsel0: nat)
    requires SameReference(x, y)
    ensures Reference(x, pllref, pllsel0) == Reference(y, pllref, pllsel0)
    ensures Reference(x, pllref, pllsel0) == if y & PLL_REFSEL != 0 then pllref else pllsel0
  {
    RefselField(x);
    RefselField(y);
  }

  lemma RefselField(x: bv32)
    ensures GetField(x, PLL_REFSEL) != 0 <==> x & PLL_REFSEL != 0
  {
  }

  lemma BypassedRate(x: bv32, div: bv32, before: bv32, pllref: nat, pllsel0: nat)
    requires SameReference(x, before)
    ensures Reference((x | PLL_BYPASS) | PLL_SEL, pllref, pllsel0) == Reference(before, pllref, pllsel0)
    ensures RateHz((x | PLL_BYPASS) | PLL_SEL, div, pllref, pllsel0) == Reference(before, pllref, pllsel0)
  {
    var y := (x | PLL_BYPASS) | PLL_SEL;
    BypassBits(x);
    ReferenceByMask(before, y, pllref, pllsel0);
  }

  lemma BypassBits(x: bv32)
    ensures var y := (x | PLL_BYPASS) | PLL_SEL;
      y & PLL_REFSEL == x & PLL_REFSEL && Selected(y) && GetField(y, PLL_BYPASS) != 0
  {
  }

  /** The row is in the registers and the PLL runs from it, on the reference that `before` selects. */
  ghost predicate RowSelected(cfg: bv32, before: bv32, div: bv32, c: PllConfig) {
    StagesHold(cfg, before, c.r, c.f, c.q) && NotBypassed(cfg) && Selected(cfg) && OutputHolds(div, c.d)
  }

  ghost predicate SameReference(x: bv32, y: bv32) { x & PLL_REFSEL == y & PLL_REFSEL }

  lemma RateOfSelectedRow(x: bv32, before: bv32, div: bv32, c: PllConfig, pllref: nat, pllsel0: nat)
    requires Fits(c) && RowSelected(x, before, div, c)
    ensures RateHz(x, div, pllref, pllsel0) == StagedRate(c, Reference(before, pllref, pllsel0))
    ensures Reference(x, pllref, pllsel0) == Reference(before, pllref, pllsel0)
  {
    RateOfRow(x, before, div, c, pllref, pllsel0);
    ReferenceByMask(before, x, pllref, pllsel0);
  }

  lemma SelectKeepsRow(x: bv32, mid: bv32, before: bv32, r: bv32, f: bv32, q: bv32)
    requires StagesHold(x, mid, r, f, q) && NotBypassed(x) && SameReference(mid, before)
    ensures StagesHold(x | PLL_SEL, before, r, f, q) && NotBypassed(x | PLL_SEL) && Selected(x | PLL_SEL)
  {
  }

  /** The three stage fields hold r, f and q; the reference selection is as in `before`. */
  ghost predicate StagesHold(cfg: bv32, before: bv32, r: bv32, f: bv32, q: bv32) {
    cfg & PLL_R == r && cfg & PLL_F == f << 4 && cfg & PLL_Q == q << 10 && SameReference(cfg, before)
  }

  ghost predicate NotBypassed(cfg: bv32) { cfg & PLL_BYPASS == 0 }

  ghost predicate OutputHolds(div: bv32, d: bv32) {
    if Negative(d) then div & DIV_1 == DIV_1 else div & DIV_1 == 0 && div & DIV_DIV == d
  }

  lemma StagesWritten(x: bv32, r: bv32, f: bv32, q: bv32)
    requires r <= 7 && f <= 63 && q <= 3
    ensures StagesHold((((((x & !PLL_R) | (r & PLL_R)) & !PLL_F) | ((f << 4) & PLL_F)) & !PLL_Q) | ((q << 10) & PLL_Q),
                       x, r, f, q)
  {
  }

  lemma BypassAndLockKeepFields(x: bv32, before: bv32, r: bv32, f: bv32, q: bv32)
    requires StagesHold(x, before, r, f, q)
    ensures StagesHold((x & !PLL_BYPASS) | PLL_LOCK, before, r, f, q) && NotBypassed((x & !PLL_BYPASS) | PLL_LOCK)
  {
  }

  lemma OutputOff(x: bv32, d: bv32)
    requires Negative(d)
    ensures OutputHolds(((x | DIV_1) & !DIV_DIV) | (1 & DIV_DIV), d)
  {
  }

  lemma OutputOn(x: bv32, d: bv32)
    requires d <= 63
    ensures OutputHolds(((x & !DIV_1) & !DIV_DIV) | (d & DIV_DIV), d)
  {
  }

  // ---------- reading the rate back ----------

  predicate Selected(cfg: bv32) { GetField(cfg, PLL_SEL) != 0 }

  function Reference(cfg: bv32, pllref: nat, pllsel0: nat): nat {
    if GetField(cfg, PLL_REFSEL) != 0 then pllref else pllsel0
  }

  /** __metal_driver_sifive_fe310_g000_pll_get_rate_hz, from what the registers hold. */
  function RateHz(cfg: bv32, div: bv32, pllref: nat, pllsel0: nat): int {
    if !Selected(cfg) then pllsel0
    else if GetField(cfg, PLL_BYPASS) != 0 then Reference(cfg, pllref, pllsel0)
    else if GetField(cfg, PLL_Q) == 0 then -1
    else
      StageOut(GetField(cfg, PLL_R), GetField(cfg, PLL_F), GetField(cfg, PLL_Q), GetField(div, DIV_1),
               GetField(div, DIV_DIV), Reference(cfg, pllref, pllsel0))
  }

  function StageOut(r: bv32, f: bv32, q: bv32, off: bv32, d: bv32, refHz: nat): nat {
    var pllout := Quotient(Times(Quotient(refHz, r as nat + 1), 2 * (f as nat + 1)), Shift1(q));
    if off != 0 then pllout else Quotient(pllout, 2 * (d as nat + 1))
  }

  /** Division by R + 1, multiplication by 2(F + 1), division by 2, 4 or 8 and, unless it is switched off, by
      twice the output divider plus one, each read from its bits. */
  ghost predicate StagesGive(cfg: bv32, div: bv32, refHz: nat, out: int) {
    var r, f, d := (cfg & 7) as nat, ((cfg >> 4) & 63) as nat, (div & 63) as nat;
    var q := if cfg & 0xC00 == 0x400 then 2 else if cfg & 0xC00 == 0x800 then 4 else 8;
    var pllout := Quotient(Times(Quotient(refHz, r + 1), 2 * (f + 1)), q);
    out == if div & 0x100 != 0 then pllout else Quotient(pllout, 2 * (d + 1))
  }

  lemma MuxFields(cfg: bv32)
    ensures GetField(cfg, PLL_SEL) == 0 <==> cfg & 0x1_0000 == 0
    ensures GetField(cfg, PLL_BYPASS) == 0 <==> cfg & 0x4_0000 == 0
    ensures GetField(cfg, PLL_REFSEL) == 0 <==> cfg & 0x2_0000 == 0
  {
  }

  lemma StageFields(cfg: bv32)
    ensures GetField(cfg, PLL_R) == cfg & 7 && GetField(cfg, PLL_F) == (cfg >> 4) & 63
    ensures GetField(cfg, PLL_Q) == 0 <==> cfg & 0xC00 == 0
    ensures GetField(cfg, PLL_Q) == 1 <==> cfg & 0xC00 == 0x400
    ensures GetField(cfg, PLL_Q) == 2 <==> cfg & 0xC00 == 0x800
  {
  }

  lemma OutputFieldsByMask(div: bv32)
    ensures GetField(div, DIV_1) == 0 <==> div & 0x100 == 0
    ensures GetField(div, DIV_DIV) == div & 63
  {
  }

  /** What the rate reads as, by the bits: the second clock when the PLL is not selected, its reference when it
      is bypassed, -1 for the reserved Q of zero, and otherwise what the stages make of the reference. */
  ghost predicate ReadsRate(cfg: bv32, div: bv32, pllref: nat, pllsel0: nat, out: int) {
    var refHz := if cfg & 0x2_0000 != 0 then pllref else pllsel0;
    if cfg & 0x1_0000 == 0 then out == pllsel0
    else if cfg & 0x4_0000 != 0 then out == refHz
    else if cfg & 0xC00 == 0 then out == -1
    else StagesGive(cfg, div, refHz, out)
  }

  lemma RateByMask(cfg: bv32, div: bv32, pllref: nat, pllsel0: nat)
    ensures ReadsRate(cfg, div, pllref, pllsel0, RateHz(cfg, div, pllref, pllsel0))
  {
    MuxFields(cfg);
    StageFields(cfg);
    OutputFieldsByMask(div);
  }

  /** Once a row is in the registers the rate read back is the row's staged rate. */
  lemma RateOfRow(cfg: bv32, before: bv32, div: bv32, c: PllConfig, pllref: nat, pllsel0: nat)
    requires Fits(c)
    requires StagesHold(cfg, before, c.r, c.f, c.q) && NotBypassed(cfg) && OutputHolds(div, c.d) && Selected(cfg)
    ensures RateHz(cfg, div, pllref, pllsel0) == StagedRate(c, Reference(cfg, pllref, pllsel0))
  {
    FieldValues(cfg, c.r, c.f, c.q);
    BypassField(cfg);
    OutputFields(div, c.d);
    RateOfFields(cfg, div, pllref, pllsel0);
    StagesOfRow(c, GetField(div, DIV_1), GetField(div, DIV_DIV), Reference(cfg, pllref, pllsel0));
  }

  lemma RateOfFields(cfg: bv32, div: bv32, pllref: nat, pllsel0: nat)
    requires Selected(cfg) && GetField(cfg, PLL_BYPASS) == 0 && GetField(cfg, PLL_Q) != 0
    ensures RateHz(cfg, div, pllref, pllsel0) ==
      StageOut(GetField(cfg, PLL_R), GetField(cfg, PLL_F), GetField(cfg, PLL_Q), GetField(div, DIV_1),
               GetField(div, DIV_DIV), Reference(cfg, pllref, pllsel0))
  {
  }

  lemma StagesOfRow(c: PllConfig, off: bv32, d: bv32, refHz: nat)
    requires if Negative(c.d) then off != 0 else off == 0 && d == c.d
    ensures StageOut(c.r, c.f, c.q, off, d, refHz) == StagedRate(c, refHz)
  {
  }

  lemma FieldValues(cfg: bv32, r: bv32, f: bv32, q: bv32)
    requires r <= 7 && f <= 63 && q <= 3
    requires cfg & PLL_R == r && cfg & PLL_F == f << 4 && cfg & PLL_Q == q << 10
    ensures GetField(cfg, PLL_R) == r && GetField(cfg, PLL_F) == f && GetField(cfg, PLL_Q) == q
  {
  }

  lemma BypassField(cfg: bv32)
    ensures NotBypassed(cfg) <==> GetField(cfg, PLL_BYPASS) == 0
  {
  }

  lemma OutputFields(div: bv32, d: bv32)
    requires OutputHolds(div, d) && (d == NO_DIVIDER || d <= 63)
    ensures Negative(d) ==> GetField(div, DIV_1) != 0
    ensures !Negative(d) ==> GetField(div, DIV_1) == 0 && GetField(div, DIV_DIV) == d
  {
  }

  // ---------- the field macros ----------

  /** Setting one field leaves the bits under any disjoint mask alone, whatever the masks. */
  lemma SetKeepsOthers(reg: bv32, mask: bv32, other: bv32, val: bv32)
    requires mask & other == 0
    ensures SetField(reg, mask, val) & other == reg & other
  {
  }

  /** What is read under a mask after setting it no longer depends on the register, whatever the mask. */
  lemma SetForgetsOld(reg: bv32, reg': bv32, mask: bv32, val: bv32)
    ensures SetField(reg, mask, val) & mask == SetField(reg', mask, val) & mask
  {
  }

  /** A value set in a field is read back exactly when it fits the field. */
  lemma GetAfterSetR(reg: bv32, val: bv32)
    ensures GetField(SetField(reg, PLL_R, val), PLL_R) == val <==> val <= 7
  {
  }

  lemma GetAfterSetF(reg: bv32, val: bv32)
    ensures GetField(SetField(reg, PLL_F, val), PLL_F) == val <==> val <= 63
  {
  }

  lemma GetAfterSetQ(reg: bv32, val: bv32)
    ensures GetField(SetField(reg, PLL_Q, val), PLL_Q) == val <==> val <= 3
  {
  }

  lemma GetAfterSetDivider(reg: bv32, val: bv32)
    ensures GetField(SetField(reg, DIV_DIV, val), DIV_DIV) == val <==> val <= 63
  {
  }

  lemma GetAfterSetBypass(reg: bv32, val: bv32)
    ensures GetField(SetField(reg, PLL_BYPASS, val), PLL_BYPASS) == val <==> val <= 1
  {
  }

  lemma GetAfterSetReference(reg: bv32, val: bv32)
    ensures GetField(SetField(reg, PLL_REFSEL, val), PLL_REFSEL) == val <==> val <= 1
  {
  }

  lemma GetAfterSetSelect(reg: bv32, val: bv32)
    ensures GetField(SetField(reg, PLL_SEL, val), PLL_SEL) == val <==> val <= 1
  {
  }
}
