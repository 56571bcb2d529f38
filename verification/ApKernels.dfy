/** The matrix kernels that offload a product to the Associative Processor (src/ap_tests.h), each proved
    to leave the product of MatMul. */
module ApKernels {
  import opened Arithmetic
  import opened ApDevice
  import opened ApHal
  import opened MatMul

  const MATCH_A_RIGHT_C_LEFT: bv32 := 3

  /** The device multiplies every cell of `a` with every cell of `b` exactly, modulo 256. */
  predicate ExactOn(wide: (Byte, Byte) -> Byte, a: seq<Byte>, b: seq<Byte>) {
    forall x, y :: x in a && y in b ==> Product(wide, x, y) == Wrap(Times(x, y))
  }

  lemma SmallProduct(x: nat, y: nat)
    requires x < 16 && y < 16
    ensures x * y <= 225 && Wrap(Times(x, y)) == x * y
  {
    MulStep(x, 16, y);
  }

  /** Row by row every device agrees with the software reference, but for products of wider operands. */
  lemma DeviceMeetsReference(wide: (Byte, Byte) -> Byte, op: Op, x: Byte, y: Byte)
    requires op == Mult ==> x < 16 && y < 16
    ensures RowOp(wide, op, x, y) == UnitTestSw(op, x, y)
  {
    if op == Mult {
      SmallProduct(x, y);
    }
  }

  /** 4-bit contents are multiplied exactly by every device. */
  lemma FourBitExact(wide: (Byte, Byte) -> Byte, a: seq<Byte>, b: seq<Byte>)
    requires forall i :: 0 <= i < |a| ==> a[i] < 16
    requires forall i :: 0 <= i < |b| ==> b[i] < 16
    ensures ExactOn(wide, a, b)
  {
    forall x, y | x in a && y in b
      ensures Product(wide, x, y) == Wrap(Times(x, y))
    {
      assert x < 16 && y < 16;
      SmallProduct(x, y);
    }
  }

  /** A device whose multiplier wraps at 8 bits, as the reference operation does, is exact on everything. */
  lemma FullWidthExact(wide: (Byte, Byte) -> Byte, a: seq<Byte>, b: seq<Byte>)
    requires forall x: Byte, y: Byte :: wide(x, y) == Wrap(Times(x, y))
    ensures ExactOn(wide, a, b)
  {
    forall x: Byte, y: Byte | x in a && y in b
      ensures Product(wide, x, y) == Wrap(Times(x, y))
    {
      if x < 16 && y < 16 {
        SmallProduct(x, y);
      }
    }
  }

  /** Rows 0..n of an accumulator column hold the first t terms of row i of the product. */
  ghost predicate Accumulates(col: Column, a: seq<Byte>, b: seq<Byte>, k: nat, n: nat, i: nat, t: nat) {
    n <= COL_SIZE && forall j :: 0 <= j < n ==> col[j] == Wrap(Dot(a, b, k, n, i, j, t))
  }

  lemma AccumulatesStep(before: Column, after: Column, a: seq<Byte>, b: seq<Byte>, k: nat, n: nat, i: nat, t: nat,
                        products: Column)
    requires Accumulates(before, a, b, k, n, i, t)
    requires forall j :: 0 <= j < n ==> products[j] == Wrap(Times(At(a, i * k + t), At(b, t * n + j)))
    requires forall j :: 0 <= j < n ==> after[j] == AddBytes(before[j], products[j])
    ensures Accumulates(after, a, b, k, n, i, t + 1)
  {
    forall j | 0 <= j < n
      ensures after[j] == Wrap(Dot(a, b, k, n, i, j, t + 1))
    {
      WrapSum(Dot(a, b, k, n, i, j, t), Times(At(a, i * k + t), At(b, t * n + j)));
    }
  }

  /** The accumulator is clean where the next row of the product will be formed. */
  ghost predicate ZeroRows(col: Column, n: nat) {
    forall j :: 0 <= j < n && j < COL_SIZE ==> col[j] == 0
  }

  // ---------- ap_mm: accumulate in C right ----------

  method MatrixColMm(d: Ap, factor: Byte, bytes: nat)
    requires d.Released() && bytes <= COL_SIZE
    modifies d
    ensures d.Released()
    ensures forall j :: 0 <= j < bytes ==>
      d.cam.cRight[j] == AddBytes(old(d.cam.cRight[j]), Product(d.wide, factor, old(d.cam.bLeft[j])))
    ensures d.cam.bLeft == old(d.cam.bLeft)
  {
    SetValueCamALeft(d, factor);
    TriggerComputing(d, Mult, HORIZONTAL, LEFT);
    CopyCLeftToARight(d, bytes);
    TriggerComputing(d, AddD, HORIZONTAL, RIGHT);
    FlushC0(d);
  }

  /** The body of the loop over j of ap_mm: one factor times one row of `b`. */
  method MmTerm(d: Ap, v: Vectors, ghost k: nat, n: nat, ghost i: nat, ghost j: nat, at: nat, from: nat)
    requires v.Valid() && d.Released() && at == i * k + j && from == j * n
    requires at < COL_SIZE && from + n <= COL_SIZE && ExactOn(d.wide, v.a[..], v.b[..])
    requires Accumulates(d.cam.cRight, v.a[..], v.b[..], k, n, i, j)
    modifies d
    ensures d.Released() && Accumulates(d.cam.cRight, v.a[..], v.b[..], k, n, i, j + 1)
  {
    ghost var before := d.cam.cRight;
    CopyToBLeft(d, v.b, from, n);
    ghost var rowB := d.cam.bLeft;
    MatrixColMm(d, v.a[at], n);
    TermAccumulated(d.wide, before, d.cam.cRight, v.a[..], v.b[..], k, n, i, j, at, from, rowB);
  }

  /** The columns of one row of the product: the loop over j of ap_mm for a fixed i. */
  method MmRow(d: Ap, v: Vectors, k: nat, n: nat, i: nat)
    requires v.Valid() && d.Released() && i * k + k <= COL_SIZE && k * n <= COL_SIZE && n <= COL_SIZE
    requires ExactOn(d.wide, v.a[..], v.b[..]) && Accumulates(d.cam.cRight, v.a[..], v.b[..], k, n, i, 0)
    modifies d
    ensures d.Released() && Accumulates(d.cam.cRight, v.a[..], v.b[..], k, n, i, k)
  {
    for j := 0 to k
      invariant d.Released() && Accumulates(d.cam.cRight, v.a[..], v.b[..], k, n, i, j)
    {
      MulStep(j, k, n);
      MmTerm(d, v, k, n, i, j, i * k + j, j * n);
    }
  }

  ghost function ProductColumn(wide: (Byte, Byte) -> Byte, factor: Byte, col: Column): (r: Column)
    ensures forall j :: 0 <= j < COL_SIZE ==> r[j] == Product(wide, factor, col[j])
  {
    seq(COL_SIZE, j requires 0 <= j < COL_SIZE => Product(wide, factor, col[j]))
  }

  lemma RowProducts(wide: (Byte, Byte) -> Byte, a: seq<Byte>, b: seq<Byte>, at: nat, from: nat, n: nat, rowB: Column,
                    products: Column)
    requires ExactOn(wide, a, b) && at < |a| && from + n <= |b| && n <= COL_SIZE
    requires rowB[..n] == b[from..from + n] && products == ProductColumn(wide, a[at], rowB)
    ensures forall j :: 0 <= j < n ==> products[j] == Wrap(Times(At(a, at), At(b, from + j)))
  {
    forall j | 0 <= j < n
      ensures products[j] == Wrap(Times(At(a, at), At(b, from + j)))
    {
      assert rowB[j] == rowB[..n][j] == b[from + j];
    }
  }

  lemma TermAccumulated(wide: (Byte, Byte) -> Byte, before: Column, after: Column, a: seq<Byte>, b: seq<Byte>, k: nat,
                        n: nat, i: nat, t: nat, at: nat, from: nat, rowB: Column)
    requires at == i * k + t && from == t * n && at < |a| && from + n <= |b| && n <= COL_SIZE && ExactOn(wide, a, b)
    requires Accumulates(before, a, b, k, n, i, t) && rowB[..n] == b[from..from + n]
    requires forall j :: 0 <= j < n ==> after[j] == AddBytes(before[j], Product(wide, a[at], rowB[j]))
    ensures Accumulates(after, a, b, k, n, i, t + 1)
  {
    var products := ProductColumn(wide, a[at], rowB);
    RowProducts(wide, a, b, at, from, n, rowB, products);
    AccumulatesStep(before, after, a, b, k, n, i, t, products);
  }

  /** Writing a finished accumulator row extends the product held by `c` by one row. */
  lemma RowDone(c: seq<Byte>, col: Column, a: seq<Byte>, b: seq<Byte>, k: nat, n: nat, i: nat, base: nat)
    requires base == i * n && base + n <= |c| && n <= COL_SIZE && IsProduct(c, a, b, k, n, base)
    requires c[base..base + n] == col[..n] && Accumulates(col, a, b, k, n, i, k)
    ensures IsProduct(c, a, b, k, n, base + n)
  {
    forall r | base <= r < base + n
      ensures c[r] == Entry(a, b, k, n, r)
    {
      CellAt(r, i, r - base, n);
      assert c[r] == c[base..base + n][r - base] == col[..n][r - base];
    }
  }

  /** One iteration of the outer loop: compute row i, copy it out, flush the accumulator. */
  method MmRound(d: Ap, v: Vectors, k: nat, n: nat, i: nat, base: nat, ghost size: nat)
    requires v.Valid() && d.Released() && i * k + k <= COL_SIZE && k * n <= COL_SIZE
    requires base == i * n && base + n <= size <= COL_SIZE
    requires ExactOn(d.wide, v.a[..], v.b[..]) && ZeroRows(d.cam.cRight, n)
    requires IsProduct(v.c[..], v.a[..], v.b[..], k, n, base)
    modifies d, v.c
    ensures d.Released() && ZeroRows(d.cam.cRight, n)
    ensures IsProduct(v.c[..], v.a[..], v.b[..], k, n, base + n)
    ensures v.c[size..] == old(v.c[size..])
  {
    MmRow(d, v, k, n, i);
    CopyFromColumn(d, ColC, true, v.c, base, n);
    RowDone(v.c[..], d.cam.cRight, v.a[..], v.b[..], k, n, i, base);
    FlushC1(d);
  }

  method ApMm(d: Ap, v: Vectors, m: nat, k: nat, n: nat)
    requires v.Valid() && d.Released() && m * k <= COL_SIZE && k * n <= COL_SIZE && m * n <= COL_SIZE
    requires ExactOn(d.wide, v.a[..], v.b[..]) && ZeroRows(d.cam.cRight, n)
    modifies d, v.c
    ensures IsProduct(v.c[..], v.a[..], v.b[..], k, n, m * n)
    ensures v.c[m * n..] == old(v.c[m * n..])
    ensures d.Released() && ZeroRows(d.cam.cRight, n)
  {
    var base := 0;
    ghost var size := m * n;
    for i := 0 to m
      invariant base == i * n && d.Released() && ZeroRows(d.cam.cRight, n)
      invariant IsProduct(v.c[..], v.a[..], v.b[..], k, n, base)
      invariant v.c[size..] == old(v.c[size..])
    {
      MulStep(i, m, k);
      MulStep(i, m, n);
      MmRound(d, v, k, n, i, base, size);
      base := base + n;
    }
  }

  // ---------- ap_mm_v2: accumulate in A right ----------

  method MatrixColMmWindow(d: Ap, factor: Byte)
    requires d.Released()
    modifies d
    ensures d.Released()
    ensures forall j :: 0 <= j < COL_SIZE ==>
      d.cam.aRight[j] == AddBytes(old(d.cam.aRight[j]), Product(d.wide, factor, old(d.cam.bLeft[j])))
    ensures d.cam.bLeft == old(d.cam.bLeft)
  {
    SetValueCamALeft(d, factor);
    TriggerComputing(d, Mult, HORIZONTAL, LEFT);
    TriggerComputingTargetA(d, AddD, HORIZONTAL, MATCH_A_RIGHT_C_LEFT);
    FlushC0(d);
  }

  /** The body of the loop over j of ap_mm_v2: one factor times one row of `b`. */
  method MmV2Term(d: Ap, v: Vectors, ghost k: nat, n: nat, ghost i: nat, ghost j: nat, at: nat, from: nat)
    requires v.Valid() && d.Released() && at == i * k + j && from == j * n
    requires at < COL_SIZE && from + n <= COL_SIZE && ExactOn(d.wide, v.a[..], v.b[..])
    requires Accumulates(d.cam.aRight, v.a[..], v.b[..], k, n, i, j)
    modifies d
    ensures d.Released() && Accumulates(d.cam.aRight, v.a[..], v.b[..], k, n, i, j + 1)
  {
    ghost var before := d.cam.aRight;
    CopyToBLeft(d, v.b, from, n);
    ghost var rowB := d.cam.bLeft;
    MatrixColMmWindow(d, v.a[at]);
    TermAccumulated(d.wide, before, d.cam.aRight, v.a[..], v.b[..], k, n, i, j, at, from, rowB);
  }

  /** The columns of one row of the product: the loop over j of ap_mm_v2 for a fixed i. */
  method MmV2Row(d: Ap, v: Vectors, k: nat, n: nat, i: nat)
    requires v.Valid() && d.Released() && i * k + k <= COL_SIZE && k * n <= COL_SIZE && n <= COL_SIZE
    requires ExactOn(d.wide, v.a[..], v.b[..]) && Accumulates(d.cam.aRight, v.a[..], v.b[..], k, n, i, 0)
    modifies d
    ensures d.Released() && Accumulates(d.cam.aRight, v.a[..], v.b[..], k, n, i, k)
  {
    for j := 0 to k
      invariant d.Released() && Accumulates(d.cam.aRight, v.a[..], v.b[..], k, n, i, j)
    {
      MulStep(j, k, n);
      MmV2Term(d, v, k, n, i, j, i * k + j, j * n);
    }
  }

  /** One iteration of the outer loop: compute row i, copy it out, flush the accumulator. */
  method MmV2Round(d: Ap, v: Vectors, k: nat, n: nat, i: nat, base: nat, ghost size: nat)
    requires v.Valid() && d.Released() && i * k + k <= COL_SIZE && k * n <= COL_SIZE
    requires base == i * n && base + n <= size <= COL_SIZE
    requires ExactOn(d.wide, v.a[..], v.b[..]) && ZeroRows(d.cam.aRight, n)
    requires IsProduct(v.c[..], v.a[..], v.b[..], k, n, base)
    modifies d, v.c
    ensures d.Released() && ZeroRows(d.cam.aRight, n)
    ensures IsProduct(v.c[..], v.a[..], v.b[..], k, n, base + n)
    ensures v.c[size..] == old(v.c[size..])
  {
    MmV2Row(d, v, k, n, i);
    CopyFromColumn(d, ColA, true, v.c, base, n);
    RowDone(v.c[..], d.cam.aRight, v.a[..], v.b[..], k, n, i, base);
    FlushA1(d);
  }

  method ApMmV2(d: Ap, v: Vectors, m: nat, k: nat, n: nat)
    requires v.Valid() && d.Released() && m * k <= COL_SIZE && k * n <= COL_SIZE && m * n <= COL_SIZE
    requires ExactOn(d.wide, v.a[..], v.b[..]) && ZeroRows(d.cam.aRight, n)
    modifies d, v.c
    ensures IsProduct(v.c[..], v.a[..], v.b[..], k, n, m * n)
    ensures v.c[m * n..] == old(v.c[m * n..])
    ensures d.Released() && ZeroRows(d.cam.aRight, n)
  {
    var base := 0;
    ghost var size := m * n;
    for i := 0 to m
      invariant base == i * n && d.Released() && ZeroRows(d.cam.aRight, n)
      invariant IsProduct(v.c[..], v.a[..], v.b[..], k, n, base)
      invariant v.c[size..] == old(v.c[size..])
    {
      MulStep(i, m, k);
      MulStep(i, m, n);
      MmV2Round(d, v, k, n, i, base, size);
      base := base + n;
    }
  }
}
