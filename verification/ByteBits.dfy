/** The bits of a byte. */
module ByteBits {

  /** The byte with bit i alone. */
  function One(i: nat): bv8
    requires i < 8
  {
    if i == 0 then 0x01 else if i == 1 then 0x02 else if i == 2 then 0x04 else if i == 3 then 0x08
    else if i == 4 then 0x10 else if i == 5 then 0x20 else if i == 6 then 0x40 else 0x80
  }

  predicate Bit(b: bv8, i: nat)
    requires i < 8
  {
    b & One(i) != 0
  }

  lemma NoneOrOne(x: bv8, i: nat)
    requires i < 8
    ensures One(i) != 0 && (x & One(i) == 0 || x & One(i) == One(i))
  {
  }

  lemma NotBit(x: bv8, i: nat)
    requires i < 8
    ensures Bit(!x, i) <==> !Bit(x, i)
  {
  }

  lemma OrBit(x: bv8, y: bv8, r: bv8, i: nat)
    requires i < 8 && r == x | y
    ensures Bit(r, i) <==> Bit(x, i) || Bit(y, i)
  {
  }

  lemma AndBit(x: bv8, y: bv8, r: bv8, i: nat)
    requires i < 8 && r == x & y
    ensures Bit(r, i) <==> Bit(x, i) && Bit(y, i)
  {
  }

  lemma XorBit(x: bv8, y: bv8, r: bv8, i: nat)
    requires i < 8 && r == x ^ y
    ensures Bit(r, i) <==> Bit(x, i) != Bit(y, i)
  {
    XorAt(x, y, One(i));
    NoneOrOne(x, i);
    NoneOrOne(y, i);
  }

  lemma XorAt(x: bv8, y: bv8, m: bv8)
    ensures (x ^ y) & m == (x & m) ^ (y & m)
  {
  }
}
