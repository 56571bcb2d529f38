/** The PLL configuration table of the FE310 clock driver and what every row of it promises. */
module PllTable {

  /** One row: it turns a reference between `lo` and `hi` into reference * multiplier / divisor, by dividing
      by r + 1, multiplying by 2(f + 1), and dividing by 2^q and, unless `d` is negative, by 2(d + 1). */
  datatype PllConfig = Row(multiplier: nat, divisor: nat, lo: nat, hi: nat, r: bv32, f: bv32, q: bv32, d: bv32)

  /** -1 as a 32-bit long. */
  const NO_DIVIDER: bv32 := 0xFFFF_FFFF

  predicate Negative(d: bv32) { d & 0x8000_0000 != 0 }

  function DivR(c: PllConfig): (n: nat)
    ensures n > 0
  {
    c.r as nat + 1
  }

  function MulF(c: PllConfig): (n: nat)
    ensures n > 0
  {
    2 * (c.f as nat + 1)
  }

  function DivQ(c: PllConfig): (n: nat)
    ensures n > 0
  {
    Shift1(c.q)
  }

  /** 1 << q, for the two-bit field q. */
  function Shift1(q: bv32): (n: nat)
    ensures n > 0
  {
    if q == 0 then 1 else if q == 1 then 2 else if q == 2 then 4 else 8
  }

  function DivOut(c: PllConfig): (n: nat)
    ensures n > 0
  {
    if Negative(c.d) then 1 else 2 * (c.d as nat + 1)
  }

  /** Fields fit their registers; the three stages make exactly multiplier / divisor; the reference after the
      first stage stays within 6-12 MHz and the oscillator within 384-768 MHz over the whole input range. */
  predicate RowOk(c: PllConfig) {
    && c.r <= 7 && c.f <= 63 && 1 <= c.q <= 3 && (c.d == NO_DIVIDER || c.d <= 63)
    && c.multiplier >= 1 && c.divisor >= 1 && c.lo <= c.hi
    && c.multiplier * (DivR(c) * (DivQ(c) * DivOut(c))) == MulF(c) * c.divisor
    && 6_000_000 * DivR(c) <= c.lo && c.hi <= 12_000_000 * DivR(c) && 6_000_000 <= c.lo && c.hi <= 48_000_000
    && 384_000_000 <= (c.lo / DivR(c)) * MulF(c) && c.hi * MulF(c) <= 768_000_000 * DivR(c)
    && c.divisor <= c.lo * c.multiplier && c.hi * c.multiplier <= 400_000_000
  }

  function Rows0(): (t: seq<PllConfig>)
    ensures |t| == 7 && forall c :: c in t ==> RowOk(c)
  {
    [Row(1, 32, 12000000, 24000000, 1, 31, 3, 63),
     Row(1, 32, 24000000, 48000000, 3, 31, 2, 63),
     Row(1, 16, 6000000, 12000000, 0, 31, 3, 63),
     Row(1, 16, 12000000, 24000000, 1, 31, 2, 63),
     Row(1, 16, 24000000, 48000000, 3, 31, 2, 31),
     Row(1, 8, 6000000, 12000000, 0, 31, 3, 31),
     Row(1, 8, 12000000, 24000000, 1, 31, 2, 31)]
  }

  function Rows1(): (t: seq<PllConfig>)
    ensures |t| == 7 && forall c :: c in t ==> RowOk(c)
  {
    [Row(1, 8, 24000000, 48000000, 3, 31, 2, 15),
     Row(1, 4, 6000000, 12000000, 0, 31, 3, 15),
     Row(1, 4, 12000000, 24000000, 1, 31, 2, 15),
     Row(1, 4, 24000000, 48000000, 3, 31, 2, 7),
     Row(1, 2, 6000000, 12000000, 0, 31, 2, 15),
     Row(1, 2, 12000000, 24000000, 1, 31, 1, 15),
     Row(1, 2, 24000000, 48000000, 3, 31, 1, 7)]
  }

  function Rows2(): (t: seq<PllConfig>)
    ensures |t| == 7 && forall c :: c in t ==> RowOk(c)
  {
    [Row(2, 1, 6000000, 12000000, 0, 31, 1, 7),
     Row(2, 1, 12000000, 24000000, 1, 31, 1, 3),
     Row(2, 1, 24000000, 48000000, 3, 31, 3, NO_DIVIDER),
     Row(4, 1, 6000000, 12000000, 0, 31, 3, 0),
     Row(4, 1, 12000000, 24000000, 1, 31, 3, NO_DIVIDER),
     Row(4, 1, 24000000, 48000000, 3, 31, 2, NO_DIVIDER),
     Row(6, 1, 6000000, 10666666, 0, 35, 1, 2)]
  }

  function Rows3(): (t: seq<PllConfig>)
    ensures |t| == 7 && forall c :: c in t ==> RowOk(c)
  {
    [Row(6, 1, 10666666, 12000000, 0, 23, 3, NO_DIVIDER),
     Row(6, 1, 12000000, 16000000, 1, 47, 3, NO_DIVIDER),
     Row(6, 1, 16000000, 18000000, 1, 23, 2, NO_DIVIDER),
     Row(6, 1, 18000000, 21333333, 2, 35, 2, NO_DIVIDER),
     Row(8, 1, 6000000, 12000000, 0, 31, 3, NO_DIVIDER),
     Row(8, 1, 12000000, 24000000, 1, 31, 2, NO_DIVIDER),
     Row(8, 1, 24000000, 48000000, 3, 31, 1, NO_DIVIDER)]
  }

  function Rows4(): (t: seq<PllConfig>)
    ensures |t| == 7 && forall c :: c in t ==> RowOk(c)
  {
    [Row(10, 1, 6000000, 9600000, 0, 39, 3, NO_DIVIDER),
     Row(10, 1, 9600000, 12000000, 0, 19, 2, NO_DIVIDER),
     Row(10, 1, 12000000, 19200000, 1, 39, 2, NO_DIVIDER),
     Row(10, 1, 19200000, 24000000, 1, 19, 1, NO_DIVIDER),
     Row(10, 1, 24000000, 38400000, 3, 39, 1, NO_DIVIDER),
     Row(12, 1, 6000000, 8000000, 0, 47, 3, NO_DIVIDER),
     Row(12, 1, 8000000, 12000000, 0, 23, 2, NO_DIVIDER)]
  }

  function Rows5(): (t: seq<PllConfig>)
    ensures |t| == 7 && forall c :: c in t ==> RowOk(c)
  {
    [Row(12, 1, 12000000, 16000000, 1, 47, 2, NO_DIVIDER),
     Row(12, 1, 16000000, 24000000, 1, 23, 1, NO_DIVIDER),
     Row(12, 1, 24000000, 30000000, 3, 47, 1, NO_DIVIDER),
     Row(12, 1, 30000000, 32000000, 3, 47, 1, NO_DIVIDER),
     Row(14, 1, 6000000, 6857142, 0, 55, 3, NO_DIVIDER),
     Row(14, 1, 6857143, 12000000, 0, 27, 2, NO_DIVIDER),
     Row(14, 1, 12000000, 13714285, 1, 55, 2, NO_DIVIDER)]
  }

  function Rows6(): (t: seq<PllConfig>)
    ensures |t| == 7 && forall c :: c in t ==> RowOk(c)
  {
    [Row(14, 1, 13714286, 24000000, 1, 27, 1, NO_DIVIDER),
     Row(14, 1, 24000000, 27428571, 3, 55, 1, NO_DIVIDER),
     Row(16, 1, 6000000, 12000000, 0, 31, 2, NO_DIVIDER),
     Row(16, 1, 12000000, 24000000, 1, 31, 1, NO_DIVIDER),
     Row(18, 1, 6000000, 10666666, 0, 35, 2, NO_DIVIDER),
     Row(18, 1, 10666667, 12000000, 0, 17, 1, NO_DIVIDER),
     Row(18, 1, 12000000, 21333333, 1, 35, 1, NO_DIVIDER)]
  }

  function Rows7(): (t: seq<PllConfig>)
    ensures |t| == 7 && forall c :: c in t ==> RowOk(c)
  {
    [Row(20, 1, 6000000, 9600000, 0, 39, 2, NO_DIVIDER),
     Row(20, 1, 9600000, 12000000, 0, 19, 1, NO_DIVIDER),
     Row(20, 1, 12000000, 19200000, 1, 39, 1, NO_DIVIDER),
     Row(22, 1, 6000000, 8727272, 0, 43, 2, NO_DIVIDER),
     Row(22, 1, 8727273, 12000000, 0, 21, 1, NO_DIVIDER),
     Row(22, 1, 12000000, 17454545, 1, 43, 1, NO_DIVIDER),
     Row(24, 1, 6000000, 8000000, 0, 47, 2, NO_DIVIDER)]
  }

  function Rows8(): (t: seq<PllConfig>)
    ensures |t| == 7 && forall c :: c in t ==> RowOk(c)
  {
    [Row(24, 1, 8000000, 12000000, 0, 23, 1, NO_DIVIDER),
     Row(24, 1, 12000000, 16000000, 1, 47, 1, NO_DIVIDER),
     Row(26, 1, 6000000, 7384615, 0, 51, 2, NO_DIVIDER),
     Row(26, 1, 7384616, 12000000, 0, 25, 1, NO_DIVIDER),
     Row(26, 1, 12000000, 14768230, 1, 51, 1, NO_DIVIDER),
     Row(28, 1, 6000000, 6857142, 0, 55, 2, NO_DIVIDER),
     Row(28, 1, 6857143, 12000000, 0, 27, 1, NO_DIVIDER)]
  }

  function Rows9(): (t: seq<PllConfig>)
    ensures |t| == 5 && forall c :: c in t ==> RowOk(c)
  {
    [Row(28, 1, 12000000, 13714285, 1, 55, 1, NO_DIVIDER),
     Row(30, 1, 6000000, 6400000, 0, 59, 2, NO_DIVIDER),
     Row(30, 1, 6400000, 12000000, 0, 29, 1, NO_DIVIDER),
     Row(30, 1, 12000000, 12800000, 1, 59, 1, NO_DIVIDER),
     Row(32, 1, 6000000, 12000000, 0, 31, 1, NO_DIVIDER)]
  }

  function Table(): (t: seq<PllConfig>)
    ensures |t| == 68 && forall c :: c in t ==> RowOk(c)
  {
    Rows0() + Rows1() + Rows2() + Rows3() + Rows4() + Rows5() + Rows6() + Rows7() + Rows8() + Rows9()
  }

  /** Rows 14 to 16 between them take every reference from 6 to 48 MHz. */
  lemma DoublingRows()
    ensures Table()[14].lo == 6_000_000 && Table()[14].hi == Table()[15].lo
    ensures Table()[15].hi == Table()[16].lo && Table()[16].hi == 48_000_000
  {
    assert Table()[14] == Rows2()[0] && Table()[15] == Rows2()[1] && Table()[16] == Rows2()[2];
  }
}
