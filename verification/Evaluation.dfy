/** The end-to-end comparison of the device's product with the processor's (src/evaluation.h), and the
    tree reduction of two columns. */
module Evaluation {
  import opened Arithmetic
  import opened ApDevice
  import opened ApHal
  import opened MatMul
  import opened ApKernels
  import opened ApOuterProduct

  ghost function ChecksumOf(s: seq<Byte>): Byte {
    if |s| == 0 then 0 else AddBytes(ChecksumOf(s[..|s| - 1]), s[|s| - 1])
  }

  method Checksum(arr: array<Byte>) returns (sum: Byte)
    ensures sum == ChecksumOf(arr[..])
  {
    sum := 0;
    for i := 0 to arr.Length
      invariant sum == ChecksumOf(arr[..i])
    {
      assert arr[..i + 1][..i] == arr[..i];
      sum := AddBytes(sum, arr[i]);
    }
    assert arr[..] == arr[..arr.Length];
  }

  lemma {:induction false} ChecksumAdds(x: seq<Byte>, y: seq<Byte>, z: seq<Byte>)
    requires |x| == |y| == |z| && forall i :: 0 <= i < |z| ==> z[i] == AddBytes(x[i], y[i])
    ensures ChecksumOf(z) == AddBytes(ChecksumOf(x), ChecksumOf(y))
  {
    if |z| > 0 {
      var n := |z| - 1;
      ChecksumAdds(x[..n], y[..n], z[..n]);
      AddBytesExchange(ChecksumOf(x[..n]), ChecksumOf(y[..n]), x[n], y[n]);
    }
  }

  lemma AddBytesExchange(p: int, q: int, x: int, y: int)
    ensures AddBytes(AddBytes(p, q), AddBytes(x, y)) == AddBytes(AddBytes(p, x), AddBytes(q, y))
  {
    WrapSum(p + q, x + y);
    WrapSum(p + x, q + y);
    assert (p + q) + (x + y) == (p + x) + (q + y);
  }

  /** Arithmetic seeds (op > 3) keep two bits, so that the device multiplies every pair exactly. */
  method FillRandomVectors(v: Vectors, op: nat, seed: int)
    requires v.Valid()
    modifies v.a, v.b, v.c
    ensures forall i :: 0 <= i < COL_SIZE ==> v.c[i] == 0
    ensures op > 3 ==> forall i :: 0 <= i < COL_SIZE ==> v.a[i] < 4 && v.b[i] < 4
    ensures forall i :: 0 <= i < COL_SIZE ==>
      v.a[i] as int == (seed - i * 1234 + i + 4321) % (if op > 3 then 4 else 256) &&
      v.b[i] as int == (seed + i * 4321 + i - 1234) % (if op > 3 then 4 else 256)
  {
    var size := if op > 3 then 4 else 256;
    for i := 0 to COL_SIZE
      invariant forall j :: 0 <= j < i ==> v.c[j] == 0
      invariant forall j :: 0 <= j < i ==>
        v.a[j] as int == (seed - j * 1234 + j + 4321) % size && v.b[j] as int == (seed + j * 4321 + j - 1234) % size
    {
      v.a[i] := (seed - i * 1234 + i + 4321) % size;
      v.b[i] := (seed + i * 4321 + i - 1234) % size;
      v.c[i] := 0;
    }
  }

  method ClearVector(c: array<Byte>)
    modifies c
    ensures forall i :: 0 <= i < c.Length ==> c[i] == 0
  {
    for i := 0 to c.Length
      invariant forall j :: 0 <= j < i ==> c[j] == 0
    {
      c[i] := 0;
    }
  }

  lemma WrapTimes(t: nat, u: nat)
    ensures Wrap(Times(t, Wrap(u))) == Wrap(Times(t, u))
  {
    var q := u / 256;
    TimesAdds(t, Wrap(u), 256 * q);
    assert Times(t, 256 * q) == 256 * Times(t, q);
    WholeWraps(Times(t, Wrap(u)), Times(t, q));
  }

  lemma TimesAdds(t: nat, x: nat, y: nat)
    ensures Times(t, x + y) == Times(t, x) + Times(t, y)
  {
  }

  lemma WholeWraps(x: nat, q: nat)
    ensures Wrap(x + 256 * q) == Wrap(x)
  {
  }

  lemma ScaleStep(t: nat, sum: Byte, x: Byte)
    ensures AddBytes(Wrap(Times(t, sum)), Wrap(Times(t, x))) == Wrap(Times(t, AddBytes(sum, x)))
  {
    WrapSum(Times(t, sum), Times(t, x));
    TimesAdds(t, sum, x);
    WrapTimes(t, sum as int + x);
  }

  /** The checksum of a column taken t times over is t times its checksum. */
  lemma {:induction false} ChecksumScales(x: seq<Byte>, y: seq<Byte>, t: nat)
    requires |x| == |y| && forall i :: 0 <= i < |y| ==> y[i] == Wrap(Times(t, x[i]))
    ensures ChecksumOf(y) == Wrap(Times(t, ChecksumOf(x)))
  {
    if |y| > 0 {
      var n := |y| - 1;
      ChecksumScales(x[..n], y[..n], t);
      ScaleStep(t, ChecksumOf(x[..n]), x[n]);
    } else {
      assert Times(t, 0) == 0;
    }
  }

  /** The checksum the device starts from: column A right and, once a round, the stale operand rows. */
  ghost function Leftover(wide: (Byte, Byte) -> Byte, cam: Cam, size: nat, rounds: nat): Byte {
    Wrap(ChecksumOf(cam.aRight) + Times(rounds, ChecksumOf(Stale(wide, cam, size))))
  }

  /** With clean rows below the product it is the checksum of column A right. */
  lemma CleanLeftover(wide: (Byte, Byte) -> Byte, cam: Cam, size: nat, rounds: nat)
    requires StaleRowsZero(cam, size)
    ensures Leftover(wide, cam, size, rounds) == ChecksumOf(cam.aRight)
  {
    CleanStale(wide, cam, size);
    ChecksumOfZeros(Stale(wide, cam, size));
    assert Times(rounds, 0) == 0;
  }

  /** What the device left sums to what it started from plus the processor's product. */
  lemma DeviceIsLeftoverPlusProduct(col: Column, start: Cam, wide: (Byte, Byte) -> Byte, c: seq<Byte>, a: seq<Byte>,
                                    b: seq<Byte>, k: nat, n: nat, size: nat)
    requires |c| == COL_SIZE && size <= COL_SIZE && (n == 0 ==> size == 0) && IsProduct(c, a, b, k, n, size)
    requires Gained(col, start.aRight, a, b, k, n, size, k, Stale(wide, start, size))
    requires forall r :: size <= r < COL_SIZE ==> c[r] == 0
    ensures ChecksumOf(col) == AddBytes(Leftover(wide, start, size, k), ChecksumOf(c))
  {
    var stale := Stale(wide, start, size);
    var extra := Sum(start.aRight, Scaled(stale, k));
    forall r | 0 <= r < COL_SIZE
      ensures col[r] == AddBytes(extra[r], c[r])
    {
      CellOfGained(col, start.aRight, stale, c, a, b, k, n, size, r);
    }
    ChecksumAdds(extra, c, col);
    LeftoverIsSum(wide, start, size, k);
  }

  lemma LeftoverIsSum(wide: (Byte, Byte) -> Byte, start: Cam, size: nat, k: nat)
    ensures ChecksumOf(Sum(start.aRight, Scaled(Stale(wide, start, size), k))) == Leftover(wide, start, size, k)
  {
    var stale := Stale(wide, start, size);
    SumChecksum(start.aRight, Scaled(stale, k));
    RoundsChecksum(stale, k);
    WrapRight(ChecksumOf(start.aRight), Times(k, ChecksumOf(stale)));
  }

  lemma SumChecksum(x: Column, y: Column)
    ensures ChecksumOf(Sum(x, y)) == AddBytes(ChecksumOf(x), ChecksumOf(y))
  {
    ChecksumAdds(x, y, Sum(x, y));
  }

  lemma RoundsChecksum(stale: Column, k: nat)
    ensures ChecksumOf(Scaled(stale, k)) == Wrap(Times(k, ChecksumOf(stale)))
  {
    ChecksumScales(stale, Scaled(stale, k), k);
  }

  lemma WrapRight(x: int, y: int)
    ensures AddBytes(x, Wrap(y)) == Wrap(x + y)
  {
    WrapSum(y, x);
  }

  /** The two checksums agree exactly when the device started from a zero one. */
  lemma ChecksumsAgreeIff(col: Column, start: Cam, wide: (Byte, Byte) -> Byte, c: seq<Byte>, a: seq<Byte>, b: seq<Byte>,
                          k: nat, n: nat, size: nat)
    requires |c| == COL_SIZE && size <= COL_SIZE && (n == 0 ==> size == 0) && IsProduct(c, a, b, k, n, size)
    requires Gained(col, start.aRight, a, b, k, n, size, k, Stale(wide, start, size))
    requires forall r :: size <= r < COL_SIZE ==> c[r] == 0
    ensures ChecksumOf(col) == ChecksumOf(c) <==> Leftover(wide, start, size, k) == 0
  {
    DeviceIsLeftoverPlusProduct(col, start, wide, c, a, b, k, n, size);
    OnlyZeroKeeps(Leftover(wide, start, size, k), ChecksumOf(c));
  }

  ghost function Scaled(x: Column, t: nat): (r: Column)
    ensures forall i :: 0 <= i < COL_SIZE ==> r[i] == Wrap(Times(t, x[i]))
  {
    seq(COL_SIZE, i requires 0 <= i < COL_SIZE => Wrap(Times(t, x[i])))
  }

  lemma CellOfGained(col: Column, before: Column, stale: Column, c: seq<Byte>, a: seq<Byte>, b: seq<Byte>, k: nat,
                     n: nat, size: nat, r: nat)
    requires |c| == COL_SIZE && size <= COL_SIZE && (n == 0 ==> size == 0) && r < COL_SIZE
    requires Gained(col, before, a, b, k, n, size, k, stale) && IsProduct(c, a, b, k, n, size)
    requires if r < size then stale[r] == 0 else c[r] == 0
    ensures col[r] == AddBytes(AddBytes(before[r], Wrap(Times(k, stale[r]))), c[r])
  {
    if r < size {
      NothingStale(before[r], k);
      CellIsSum(col[r], before[r], c[r], Dot(a, b, k, n, RowIx(r, n), ColIx(r, n), k));
    } else {
      StaleSum(before[r], Times(k, stale[r]));
    }
  }

  lemma NothingStale(before: Byte, k: nat)
    ensures AddBytes(before, Wrap(Times(k, 0))) == before
  {
    assert Times(k, 0) == 0;
  }

  lemma StaleSum(before: Byte, rounds: nat)
    ensures AddBytes(AddBytes(before, Wrap(rounds)), 0) == Wrap(before + rounds)
  {
    WrapSum(rounds, before);
  }

  lemma CellIsSum(cell: Byte, before: Byte, product: Byte, e: int)
    requires cell == Wrap(before + e) && product == Wrap(e)
    ensures cell == AddBytes(before, product)
  {
    WrapSum(e, before);
  }

  /** The evaluation succeeds exactly when the device starts from a zero checksum; with clean rows below the
      product, exactly when column A right does. */
  method MatmulEvaluation(d: Ap, v: Vectors, dimension: nat) returns (r: nat)
    requires v.Valid() && d.Released() && dimension * dimension <= COL_SIZE
    modifies d, v.a, v.b, v.c
    ensures r == if Leftover(d.wide, old(d.cam), dimension * dimension, dimension) == 0 then 1 else 0
    ensures old(StaleRowsZero(d.cam, dimension * dimension)) ==>
      r == if ChecksumOf(old(d.cam.aRight)) == 0 then 1 else 0
    ensures IsProduct(v.c[..], v.a[..], v.b[..], dimension, dimension, dimension * dimension)
    ensures d.Released() && SameBelow(d.cam, old(d.cam), dimension * dimension)
  {
    FillRandomVectors(v, 6, 11);
    FourBitExact(d.wide, v.a[..], v.b[..]);
    r := EvaluateFilled(d, v, dimension);
  }

  /** The evaluation of the vectors as they stand, for any contents the device multiplies exactly. */
  method EvaluateFilled(d: Ap, v: Vectors, dimension: nat) returns (r: nat)
    requires v.Valid() && d.Released() && dimension * dimension <= COL_SIZE && ExactOn(d.wide, v.a[..], v.b[..])
    modifies d, v.c
    ensures r == if Leftover(d.wide, old(d.cam), dimension * dimension, dimension) == 0 then 1 else 0
    ensures old(StaleRowsZero(d.cam, dimension * dimension)) ==>
      r == if ChecksumOf(old(d.cam.aRight)) == 0 then 1 else 0
    ensures IsProduct(v.c[..], v.a[..], v.b[..], dimension, dimension, dimension * dimension)
    ensures d.Released() && SameBelow(d.cam, old(d.cam), dimension * dimension)
  {
    if StaleRowsZero(d.cam, dimension * dimension) {
      CleanLeftover(d.wide, d.cam, dimension * dimension, dimension);
    }
    r := Compare(d, v, dimension, dimension * dimension);
  }

  /** The two products and their checksums; `size` is the number of result cells. */
  method Compare(d: Ap, v: Vectors, dimension: nat, ghost size: nat) returns (r: nat)
    requires v.Valid() && d.Released() && size == dimension * dimension <= COL_SIZE && ExactOn(d.wide, v.a[..], v.b[..])
    modifies d, v.c
    ensures r == if Leftover(d.wide, old(d.cam), size, dimension) == 0 then 1 else 0
    ensures IsProduct(v.c[..], v.a[..], v.b[..], dimension, dimension, size)
    ensures d.Released() && SameBelow(d.cam, old(d.cam), size)
  {
    ghost var start := d.cam;
    assert dimension == 0 ==> size == 0;
    var apResult := DeviceChecksum(d, v, dimension, size);
    var cpuResult := CpuChecksum(v, dimension, size);
    ChecksumsAgreeIff(d.cam.aRight, start, d.wide, v.c[..], v.a[..], v.b[..], dimension, dimension, size);
    r := if apResult == cpuResult then 1 else 0;
  }

  lemma OnlyZeroKeeps(x: Byte, y: Byte)
    ensures AddBytes(x, y) == y <==> x == 0
  {
  }

  /** One stale operand row spoils a comparison from a clean accumulator: a device with 1 in row 1 of both left
      operand columns and zero everywhere else starts a product of dimension 1 from checksum 1. */
  lemma StaleRowSpoils(wide: (Byte, Byte) -> Byte) returns (cam: Cam)
    ensures cam.aRight == ZeroColumn() && Leftover(wide, cam, 1, 1) == 1
  {
    var one: Column := ZeroColumn()[1 := 1];
    cam := ZeroCam().(aLeft := one, bLeft := one);
    var stale := Stale(wide, cam, 1);
    assert stale == one;
    ChecksumOfZeros(ZeroColumn());
    ChecksumOfOne(one, 1);
    assert Times(1, 1) == 1;
  }

  lemma {:induction false} ChecksumOfOne(s: seq<Byte>, at: nat)
    requires at < |s| && s[at] == 1 && forall i :: 0 <= i < |s| && i != at ==> s[i] == 0
    ensures ChecksumOf(s) == 1
  {
    var n := |s| - 1;
    if at < n {
      ChecksumOfOne(s[..n], at);
    } else {
      ChecksumOfZeros(s[..n]);
    }
  }

  method DeviceChecksum(d: Ap, v: Vectors, dimension: nat, ghost size: nat) returns (sum: Byte)
    requires v.Valid() && d.Released() && size == dimension * dimension <= COL_SIZE && ExactOn(d.wide, v.a[..], v.b[..])
    modifies d, v.c
    ensures sum == ChecksumOf(d.cam.aRight) && d.Released() && SameBelow(d.cam, old(d.cam), size)
    ensures Gained(d.cam.aRight, old(d.cam.aRight), v.a[..], v.b[..], dimension, dimension, size, dimension,
                   Stale(d.wide, old(d.cam), size))
  {
    ApMmV4(d, v, dimension, dimension, dimension);
    CopyFromColumn(d, ColA, true, v.c, 0, COL_SIZE);
    assert v.c[..] == d.cam.aRight;
    sum := Checksum(v.c);
  }

  method CpuChecksum(v: Vectors, dimension: nat, ghost size: nat) returns (sum: Byte)
    requires v.Valid() && size == dimension * dimension <= COL_SIZE
    modifies v.c
    ensures IsProduct(v.c[..], v.a[..], v.b[..], dimension, dimension, size)
    ensures sum == ChecksumOf(v.c[..]) && forall r :: size <= r < COL_SIZE ==> v.c[r] == 0
  {
    ClearVector(v.c);
    MatmulCpu(v, dimension, dimension, dimension);
    forall r | size <= r < COL_SIZE
      ensures v.c[r] == 0
    {
      assert v.c[r] == v.c[size..][r - size];
    }
    sum := Checksum(v.c);
  }

  lemma {:induction false} ChecksumOfZeros(s: seq<Byte>)
    requires forall i :: 0 <= i < |s| ==> s[i] == 0
    ensures ChecksumOf(s) == 0
  {
    if |s| > 0 {
      ChecksumOfZeros(s[..|s| - 1]);
    }
  }

  /** main(): after the warm-up the comparison succeeds for every dimension that fits a column. */
  method WarmedUpEvaluation(d: Ap, v: Vectors, dimension: nat) returns (comparison: nat)
    requires v.Valid() && d.busy == 0 && dimension * dimension <= COL_SIZE
    modifies d, v.a, v.b, v.c
    ensures comparison == 1
  {
    WarmupAp(d);
    ChecksumOfZeros(d.cam.aRight);
    comparison := MatmulEvaluation(d, v, dimension);
  }

  // ---------- tree reduction ----------

  /** The sum of the first n cells of both columns. */
  ghost function PairSum(x: seq<Byte>, y: seq<Byte>, n: nat): nat
    requires n <= |x| && n <= |y|
  {
    if n == 0 then 0 else PairSum(x, y, n - 1) + x[n - 1] + y[n - 1]
  }

  method AccumDataManipulation(d: Ap, size: nat)
    requires d.Released() && size <= COL_SIZE
    modifies d`cam
    ensures d.cam.cLeft == old(d.cam.cLeft)
    ensures forall j :: 0 <= j < size / 2 ==>
      d.cam.aLeft[j] == old(d.cam.cLeft[j]) && d.cam.bLeft[j] == old(d.cam.cLeft[size / 2 + j])
  {
    var half := size / 2;
    for i := 0 to half
      invariant d.cam.cLeft == old(d.cam.cLeft)
      invariant forall j :: 0 <= j < i ==>
        d.cam.aLeft[j] == old(d.cam.cLeft[j]) && d.cam.bLeft[j] == old(d.cam.cLeft[half + j])
    {
      d.Store(ColA, false, i, d.cam.cLeft[i]);
      d.Store(ColB, false, i, d.cam.cLeft[half + i]);
    }
  }

  ghost function CellSum(c: seq<Byte>, n: nat): nat
    requires n <= |c|
  {
    if n == 0 then 0 else CellSum(c, n - 1) + c[n - 1]
  }

  /** The pairs made of the lower and the upper half of a column sum to the column. */
  lemma {:induction false} SplitKeepsSum(c: seq<Byte>, x: seq<Byte>, y: seq<Byte>, half: nat, n: nat)
    requires n <= half && half + half <= |c| == |x| == |y|
    requires forall j :: 0 <= j < half ==> x[j] == c[j] && y[j] == c[half + j]
    ensures PairSum(x, y, n) == CellSum(c, n) + CellSum(c, half + n) - CellSum(c, half)
  {
    if n > 0 {
      SplitKeepsSum(c, x, y, half, n - 1);
      assert CellSum(c, half + n) == CellSum(c, half + (n - 1)) + c[half + (n - 1)];
    }
  }

  /** Adding two columns cell by cell keeps their total modulo 256. */
  lemma {:induction false} AddKeepsSum(x: seq<Byte>, y: seq<Byte>, c: seq<Byte>, n: nat)
    requires n <= |x| == |y| == |c| && forall j :: 0 <= j < n ==> c[j] == AddBytes(x[j], y[j])
    ensures Wrap(CellSum(c, n)) == Wrap(PairSum(x, y, n))
  {
    if n > 0 {
      AddKeepsSum(x, y, c, n - 1);
      var u := x[n - 1] as int + y[n - 1];
      assert CellSum(c, n) == CellSum(c, n - 1) + c[n - 1] && PairSum(x, y, n) == PairSum(x, y, n - 1) + u;
      WrapStep(CellSum(c, n - 1), PairSum(x, y, n - 1), c[n - 1], u);
    }
  }

  lemma WrapStep(p: int, q: int, c: int, u: int)
    requires Wrap(p) == Wrap(q) && c == Wrap(u)
    ensures Wrap(p + c) == Wrap(q + u)
  {
    WrapSum(p, c);
    WrapSum(q, c);
    WrapSum(u, q);
  }

  /** One round: add the operand columns, then split the sums into new operands. */
  method TreeRound(d: Ap, size: nat)
    requires d.Released() && size <= COL_SIZE
    modifies d
    ensures d.Released()
    ensures forall j :: 0 <= j < COL_SIZE ==> d.cam.cLeft[j] == AddBytes(old(d.cam.aLeft[j]), old(d.cam.bLeft[j]))
    ensures forall j :: 0 <= j < size / 2 ==>
      d.cam.aLeft[j] == d.cam.cLeft[j] && d.cam.bLeft[j] == d.cam.cLeft[size / 2 + j]
  {
    TriggerComputing(d, Add, HORIZONTAL, LEFT);
    AccumDataManipulation(d, size);
  }

  /** After a round the pairs left, or the one cell left, sum to what the pairs before it did. */
  lemma RoundKeepsSum(x: Column, y: Column, cam: Cam, size: nat)
    requires 1 <= size <= COL_SIZE && PowerOfTwo(size)
    requires forall j :: 0 <= j < COL_SIZE ==> cam.cLeft[j] == AddBytes(x[j], y[j])
    requires forall j :: 0 <= j < size / 2 ==>
      cam.aLeft[j] == cam.cLeft[j] && cam.bLeft[j] == cam.cLeft[size / 2 + j]
    ensures size > 1 ==>
      PowerOfTwo(size / 2) && Wrap(PairSum(cam.aLeft, cam.bLeft, size / 2)) == Wrap(PairSum(x, y, size))
    ensures size == 1 ==> cam.cLeft[0] == Wrap(PairSum(x, y, size))
  {
    AddKeepsSum(x, y, cam.cLeft, size);
    if size > 1 {
      var half := size / 2;
      assert size == half + half;
      SplitKeepsSum(cam.cLeft, cam.aLeft, cam.bLeft, half, half);
    } else {
      assert CellSum(cam.cLeft, 1) == CellSum(cam.cLeft, 0) + cam.cLeft[0];
    }
  }

  /** The loop of accumulate_horizontal, from arbitrary columns. */
  method AccumulateHorizontal(d: Ap, size: nat)
    requires d.Released() && size <= COL_SIZE && PowerOfTwo(size)
    modifies d
    ensures d.cam.cLeft[0] == Wrap(PairSum(old(d.cam.aLeft), old(d.cam.bLeft), size))
  {
    ghost var total := PairSum(d.cam.aLeft, d.cam.bLeft, size);
    var i := size;
    while i > 0
      invariant d.Released() && 0 <= i <= COL_SIZE
      invariant i > 0 ==> PowerOfTwo(i) && Wrap(PairSum(d.cam.aLeft, d.cam.bLeft, i)) == Wrap(total)
      invariant i == 0 ==> d.cam.cLeft[0] == Wrap(total)
    {
      ghost var x, y := d.cam.aLeft, d.cam.bLeft;
      TreeRound(d, i);
      RoundKeepsSum(x, y, d.cam, i);
      i := i / 2;
    }
  }
}
