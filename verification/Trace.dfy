/** The trace driver's character buffer (sifive_trace.c): characters leave as words, and as partial words at
    the end of a line. */
module Trace {
  import opened ByteLanes

  const NEWLINE: bv8 := 10
  const RETURN: bv8 := 13

  /** A write to the stimulus port: its offset in the 4-byte register, by width. */
  datatype Write = Write32(offset: nat, w: bv32) | Write16(offset: nat, h: bv16) | Write8(offset: nat, b: bv8) {
    /** The bytes on the wire, little end first. */
    function Bytes(): seq<bv8> {
      match this
      case Write32(_, w) => [Lane(w, 0), Lane(w, 1), Lane(w, 2), Lane(w, 3)]
      case Write16(_, h) => [(h & 0xFF) as bv8, (h >> 8) as bv8]
      case Write8(_, b) => [b]
    }

    /** The write ends where the register does: the narrower writes go to its top. */
    predicate EndsAtTop() { offset + |Bytes()| == 4 }
  }

  ghost function Emitted(out: seq<Write>): seq<bv8> {
    if out == [] then [] else Emitted(out[..|out| - 1]) + out[|out| - 1].Bytes()
  }

  lemma EmittedOne(out: seq<Write>, w: Write)
    ensures Emitted(out + [w]) == Emitted(out) + w.Bytes()
  {
    assert (out + [w])[..|out|] == out;
  }

  function Half(w: bv32): bv16 { (w & 0xFFFF) as bv16 }
  function Truncated(w: bv32): bv8 { (w & 0xFF) as bv8 }

  function ByteAt(s: seq<bv8>, i: nat): bv8 { if i < |s| then s[i] else 0 }

  /** At most four bytes in a word, the first in the lowest lane. */
  function Packed(s: seq<bv8>): bv32 { Word(ByteAt(s, 3), ByteAt(s, 2), ByteAt(s, 1), ByteAt(s, 0)) }

  lemma PackAt0(s: seq<bv8>, c: bv8)
    requires |s| == 0
    ensures Packed(s) | Shl8(c as bv32, 0) == Packed(s + [c])
  {
    PackedAfter(s, c);
    FillLane0(c);
  }

  lemma PackAt1(s: seq<bv8>, c: bv8)
    requires |s| == 1
    ensures Packed(s) | Shl8(c as bv32, 1) == Packed(s + [c])
  {
    PackedAfter(s, c);
    FillLane1(s[0], c);
  }

  lemma PackAt2(s: seq<bv8>, c: bv8)
    requires |s| == 2
    ensures Packed(s) | Shl8(c as bv32, 2) == Packed(s + [c])
  {
    PackedAfter(s, c);
    FillLane2(s[1], s[0], c);
  }

  lemma PackAt3(s: seq<bv8>, c: bv8)
    requires |s| == 3
    ensures Packed(s) | Shl8(c as bv32, 3) == Packed(s + [c])
  {
    PackedAfter(s, c);
    FillLane3(s[2], s[1], s[0], c);
  }

  lemma PackOneMore(s: seq<bv8>, c: bv8)
    requires |s| < 4
    ensures Packed(s) | Shl8(c as bv32, |s|) == Packed(s + [c])
  {
    if |s| == 0 {
      PackAt0(s, c);
    } else if |s| == 1 {
      PackAt1(s, c);
    } else if |s| == 2 {
      PackAt2(s, c);
    } else {
      PackAt3(s, c);
    }
  }

  lemma PackedAfter(s: seq<bv8>, c: bv8)
    requires |s| < 4
    ensures forall i: nat :: ByteAt(s + [c], i) == if i == |s| then c else ByteAt(s, i)
  {
  }

  lemma BytesOfWord(b3: bv8, b2: bv8, b1: bv8, b0: bv8)
    ensures Write32(0, Word(b3, b2, b1, b0)).Bytes() == [b0, b1, b2, b3]
  {
    LanesOfWord(b3, b2, b1, b0);
  }

  lemma BytesOfHalf(b3: bv8, b2: bv8, b1: bv8, b0: bv8)
    ensures Write16(2, Half(Word(b3, b2, b1, b0))).Bytes() == [b0, b1]
  {
  }

  lemma BytesOfLow(b3: bv8, b2: bv8, b1: bv8, b0: bv8)
    ensures Write8(3, Truncated(Word(b3, b2, b1, b0))).Bytes() == [b0]
  {
  }

  lemma BytesOfThird(b3: bv8, b2: bv8, b1: bv8, b0: bv8)
    ensures Write8(3, Truncated(Word(b3, b2, b1, b0) >> 16)).Bytes() == [b2]
  {
  }

  /** What each width of write carries of the packed bytes. */
  lemma WritesOfPacked(s: seq<bv8>)
    requires |s| <= 4
    ensures |s| == 4 ==> Write32(0, Packed(s)).Bytes() == s
    ensures |s| >= 2 ==> Write16(2, Half(Packed(s))).Bytes() == s[..2]
    ensures |s| >= 1 ==> Write8(3, Truncated(Packed(s))).Bytes() == s[..1]
    ensures |s| >= 3 ==> Write8(3, Truncated(Packed(s) >> 16)).Bytes() == s[2..3]
  {
    BytesOfWord(ByteAt(s, 3), ByteAt(s, 2), ByteAt(s, 1), ByteAt(s, 0));
    BytesOfHalf(ByteAt(s, 3), ByteAt(s, 2), ByteAt(s, 1), ByteAt(s, 0));
    BytesOfLow(ByteAt(s, 3), ByteAt(s, 2), ByteAt(s, 1), ByteAt(s, 0));
    BytesOfThird(ByteAt(s, 3), ByteAt(s, 2), ByteAt(s, 1), ByteAt(s, 0));
  }

  lemma EmitWord(out: seq<Write>, s: seq<bv8>)
    requires |s| == 4
    ensures Emitted(out + [Write32(0, Packed(s))]) == Emitted(out) + s
  {
    WritesOfPacked(s);
    EmittedOne(out, Write32(0, Packed(s)));
  }

  lemma EmitTwo(out: seq<Write>, s: seq<bv8>)
    requires 2 <= |s| <= 4
    ensures Emitted(out + [Write16(2, Half(Packed(s)))]) == Emitted(out) + s[..2]
    ensures |s| == 2 ==> s[..2] == s
  {
    WritesOfPacked(s);
    EmittedOne(out, Write16(2, Half(Packed(s))));
  }

  lemma EmitTop(out: seq<Write>, s: seq<bv8>)
    requires |s| == 3
    ensures Emitted(out + [Write8(3, Truncated(Packed(s) >> 16))]) == Emitted(out) + s[2..3]
  {
    WritesOfPacked(s);
    EmittedOne(out, Write8(3, Truncated(Packed(s) >> 16)));
  }

  lemma Rejoined(before: seq<bv8>, s: seq<bv8>)
    requires |s| == 3
    ensures (before + s[..2]) + s[2..3] == before + s
  {
  }

  lemma EmitThree(out: seq<Write>, s: seq<bv8>)
    requires |s| == 3
    ensures Emitted(out + [Write16(2, Half(Packed(s)))] + [Write8(3, Truncated(Packed(s) >> 16))]) == Emitted(out) + s
  {
    EmitTwo(out, s);
    EmitTop(out + [Write16(2, Half(Packed(s)))], s);
    Rejoined(Emitted(out), s);
  }

  lemma EmitOne(out: seq<Write>, s: seq<bv8>)
    requires |s| == 1
    ensures Emitted(out + [Write8(3, Truncated(Packed(s)))]) == Emitted(out) + s
  {
    WritesOfPacked(s);
    EmittedOne(out, Write8(3, Truncated(Packed(s))));
    assert s == s[..1];
  }

  lemma NextCharacter(sofar: seq<bv8>, text: seq<bv8>, i: nat)
    requires i < |text|
    ensures (sofar + text[..i]) + [text[i]] == sofar + text[..i + 1]
  {
  }

  ghost predicate AllAtTop(out: seq<Write>) {
    forall i :: 0 <= i < |out| ==> out[i].EndsAtTop()
  }

  /** `held` lists the characters not yet written. */
  class Device {
    var buffer: bv32
    var bytesInBuffer: nat
    var out: seq<Write>
    ghost var held: seq<bv8>

    ghost predicate Valid()
      reads this
    {
      |held| == bytesInBuffer < 4 && buffer == Packed(held) && AllAtTop(out)
    }

    constructor ()
      ensures Valid() && out == [] && held == []
    {
      buffer, bytesInBuffer, out, held := 0, 0, [], [];
    }

    method WriteItc32(data: bv32)
      modifies this`out
      ensures out == old(out) + [Write32(0, data)] && (old(AllAtTop(out)) ==> AllAtTop(out))
    {
      out := out + [Write32(0, data)];
    }

    method WriteItc16(data: bv16)
      modifies this`out
      ensures out == old(out) + [Write16(2, data)] && (old(AllAtTop(out)) ==> AllAtTop(out))
    {
      out := out + [Write16(2, data)];
    }

    method WriteItc8(data: bv8)
      modifies this`out
      ensures out == old(out) + [Write8(3, data)] && (old(AllAtTop(out)) ==> AllAtTop(out))
    {
      out := out + [Write8(3, data)];
    }

    method Push(c: bv8)
      requires Valid()
      modifies this`buffer, this`bytesInBuffer, this`held
      ensures bytesInBuffer == |held| <= 4 && held == old(held) + [c] && buffer == Packed(held)
    {
      PackOneMore(held, c);
      buffer := buffer | Shl8(c as bv32, bytesInBuffer);
      bytesInBuffer := bytesInBuffer + 1;
      held := held + [c];
    }

    /** The write of a full buffer. */
    method FlushFull()
      requires |held| == 4 && buffer == Packed(held) && AllAtTop(out)
      modifies this`out
      ensures AllAtTop(out)
      ensures Emitted(out) == old(Emitted(out)) + held
    {
      EmitWord(out, held);
      WriteItc32(buffer);
    }

    /** The partial writes at the end of a line. */
    method FlushPartial()
      requires 1 <= bytesInBuffer == |held| <= 3 && buffer == Packed(held) && AllAtTop(out)
      modifies this`out
      ensures AllAtTop(out)
      ensures Emitted(out) == old(Emitted(out)) + held
    {
      if bytesInBuffer == 3 {
        EmitThree(out, held);
        WriteItc16(Half(buffer));
        WriteItc8(Truncated(buffer >> 16));
      } else if bytesInBuffer == 2 {
        EmitTwo(out, held);
        WriteItc16(Half(buffer));
      } else {
        EmitOne(out, held);
        WriteItc8(Truncated(buffer));
      }
    }

    method Reset()
      requires AllAtTop(out)
      modifies this`buffer, this`bytesInBuffer, this`held
      ensures Valid() && held == []
    {
      buffer, bytesInBuffer, held := 0, 0, [];
    }

    /** What is on the wire followed by what is held is the input so far; nothing is held after a line end. */
    method Putc(c: bv8)
      requires Valid()
      modifies this
      ensures Valid() && Emitted(out) + held == old(Emitted(out) + held) + [c]
      ensures c == 10 || c == 13 ==> held == []
    {
      Push(c);
      if bytesInBuffer >= 4 {
        FlushFull();
        Reset();
      } else if c == NEWLINE || c == RETURN {
        FlushPartial();
        Reset();
      }
    }

    /** Any sequence of characters comes out in order and complete, but for at most three held back. */
    method PutAll(text: seq<bv8>)
      requires Valid()
      modifies this
      ensures Valid() && Emitted(out) + held == old(Emitted(out) + held) + text
      ensures text != [] && (text[|text| - 1] == 10 || text[|text| - 1] == 13) ==>
        Emitted(out) == old(Emitted(out) + held) + text
    {
      for i := 0 to |text|
        invariant Valid() && Emitted(out) + held == old(Emitted(out) + held) + text[..i]
        invariant i > 0 && (text[i - 1] == 10 || text[i - 1] == 13) ==> held == []
      {
        ghost var sofar := old(Emitted(out) + held);
        Putc(text[i]);
        NextCharacter(sofar, text, i);
      }
      assert text[..|text|] == text;
    }
  }
}
