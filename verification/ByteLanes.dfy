/** The four byte lanes of a 32-bit word. */
module ByteLanes {

  function Shl8(x: bv32, lane: nat): bv32
    requires lane < 4
  {
    if lane == 0 then x else if lane == 1 then x << 8 else if lane == 2 then x << 16 else x << 24
  }

  function Word(b3: bv8, b2: bv8, b1: bv8, b0: bv8): bv32 {
    (b3 as bv32 << 24) | (b2 as bv32 << 16) | (b1 as bv32 << 8) | (b0 as bv32)
  }

  function Shr8(w: bv32, lane: nat): bv32
    requires lane < 4
  {
    if lane == 0 then w else if lane == 1 then w >> 8 else if lane == 2 then w >> 16 else w >> 24
  }

  function LowByte(w: bv32): bv8 { (w & 0xFF) as bv8 }

  function Lane(w: bv32, lane: nat): bv8
    requires lane < 4
  {
    LowByte(Shr8(w, lane))
  }

  lemma LanesOfWord(b3: bv8, b2: bv8, b1: bv8, b0: bv8)
    ensures Lane(Word(b3, b2, b1, b0), 0) == b0 && Lane(Word(b3, b2, b1, b0), 1) == b1
    ensures Lane(Word(b3, b2, b1, b0), 2) == b2 && Lane(Word(b3, b2, b1, b0), 3) == b3
  {
  }

  lemma LaneOfWord(b3: bv8, b2: bv8, b1: bv8, b0: bv8, lane: nat)
    requires lane < 4
    ensures Lane(Word(b3, b2, b1, b0), lane) == [b0, b1, b2, b3][lane]
  {
    LanesOfWord(b3, b2, b1, b0);
  }

  /** Clearing and setting bits of a word acts on each lane alone. */
  lemma LaneOfAndNot(w: bv32, mask: bv32, lane: nat)
    requires lane < 4
    ensures Lane(w & !mask, lane) == Lane(w, lane) & !Lane(mask, lane)
  {
    ShiftedAndNot(w, mask, lane);
    LowAndNot(Shr8(w, lane), Shr8(mask, lane));
  }

  lemma ShiftedAndNot(w: bv32, mask: bv32, lane: nat)
    requires lane < 4
    ensures LowByte(Shr8(w & !mask, lane)) == LowByte(Shr8(w, lane) & !Shr8(mask, lane))
  {
  }

  lemma LowAndNot(x: bv32, y: bv32)
    ensures LowByte(x & !y) == LowByte(x) & !LowByte(y)
  {
  }

  lemma LaneOfOr(w: bv32, mask: bv32, lane: nat)
    requires lane < 4
    ensures Lane(w | mask, lane) == Lane(w, lane) | Lane(mask, lane)
  {
    ShiftedOr(w, mask, lane);
    LowOr(Shr8(w, lane), Shr8(mask, lane));
  }

  lemma ShiftedOr(w: bv32, mask: bv32, lane: nat)
    requires lane < 4
    ensures Shr8(w | mask, lane) == Shr8(w, lane) | Shr8(mask, lane)
  {
    if lane == 1 {
      assert (w | mask) >> 8 == (w >> 8) | (mask >> 8);
    } else if lane == 2 {
      assert (w | mask) >> 16 == (w >> 16) | (mask >> 16);
    } else if lane == 3 {
      assert (w | mask) >> 24 == (w >> 24) | (mask >> 24);
    }
  }

  lemma LowOr(x: bv32, y: bv32)
    ensures LowByte(x | y) == LowByte(x) | LowByte(y)
  {
  }

  lemma LaneOfShifted(c: bv8, lane: nat, j: nat)
    requires lane < 4 && j < 4
    ensures Lane(Shl8(c as bv32, lane), j) == if j == lane then c else 0
  {
  }

  /** Oring a byte into the lowest empty lane. */
  lemma FillLane0(c: bv8)
    ensures Word(0, 0, 0, 0) | Shl8(c as bv32, 0) == Word(0, 0, 0, c)
  {
  }

  lemma FillLane1(b0: bv8, c: bv8)
    ensures Word(0, 0, 0, b0) | Shl8(c as bv32, 1) == Word(0, 0, c, b0)
  {
  }

  lemma FillLane2(b1: bv8, b0: bv8, c: bv8)
    ensures Word(0, 0, b1, b0) | Shl8(c as bv32, 2) == Word(0, c, b1, b0)
  {
  }

  lemma FillLane3(b2: bv8, b1: bv8, b0: bv8, c: bv8)
    ensures Word(0, b2, b1, b0) | Shl8(c as bv32, 3) == Word(c, b2, b1, b0)
  {
  }
}
