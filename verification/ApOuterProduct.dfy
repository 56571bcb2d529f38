/** ap_mm_v4: the whole product in one column, one outer-product term per device round, and when that is
    the product asked for. */
module ApOuterProduct {
  import opened Arithmetic
  import opened ApDevice
  import opened ApHal
  import opened MatMul
  import opened ApKernels

  /** Columns A and B left hold, for every cell r of the result, the two factors of term `t`. */
  ghost predicate HoldsTerm(cam: Cam, a: seq<Byte>, b: seq<Byte>, stride: nat, n: nat, t: nat, size: nat) {
    size <= COL_SIZE && (n == 0 ==> size == 0) && forall r :: 0 <= r < size && n > 0 ==>
      cam.aLeft[r] == At(a, RowIx(r, n) * stride + t) && cam.bLeft[r] == At(b, t * n + ColIx(r, n))
  }

  /** `cam` differs from `before` only in rows `from` to `to` of the two left operand columns. */
  ghost predicate OnlyOperandRows(cam: Cam, before: Cam, from: nat, to: nat) {
    cam == before.(aLeft := cam.aLeft, bLeft := cam.bLeft) &&
    forall r :: 0 <= r < COL_SIZE && !(from <= r < to) ==>
      cam.aLeft[r] == before.aLeft[r] && cam.bLeft[r] == before.bLeft[r]
  }

  /** The inner loop of mm_cols_setup. */
  method FillRow(d: Ap, v: Vectors, n: nat, base: nat, aAt: nat, bAt: nat)
    requires v.Valid() && d.Released() && base + n <= COL_SIZE && bAt + n <= COL_SIZE && (n > 0 ==> aAt < COL_SIZE)
    modifies d`cam
    ensures OnlyOperandRows(d.cam, old(d.cam), base, base + n)
    ensures forall r :: base <= r < base + n ==> d.cam.aLeft[r] == v.a[aAt] && d.cam.bLeft[r] == v.b[bAt + (r - base)]
  {
    for j := 0 to n
      invariant OnlyOperandRows(d.cam, old(d.cam), base, base + j)
      invariant forall r :: base <= r < base + j ==>
        d.cam.aLeft[r] == v.a[aAt] && d.cam.bLeft[r] == v.b[bAt + (r - base)]
    {
      d.Store(ColA, false, base + j, v.a[aAt]);
      d.Store(ColB, false, base + j, v.b[bAt + j]);
    }
  }

  lemma RowHoldsTerm(before: Cam, cam: Cam, a: seq<Byte>, b: seq<Byte>, stride: nat, n: nat, t: nat, i: nat, base: nat)
    requires base == i * n && HoldsTerm(before, a, b, stride, n, t, base) && base + n <= COL_SIZE
    requires OnlyOperandRows(cam, before, base, base + n)
    requires forall r :: base <= r < base + n ==>
      cam.aLeft[r] == At(a, i * stride + t) && cam.bLeft[r] == At(b, t * n + (r - base))
    ensures HoldsTerm(cam, a, b, stride, n, t, base + n)
  {
    forall r | base <= r < base + n
      ensures cam.aLeft[r] == At(a, RowIx(r, n) * stride + t) && cam.bLeft[r] == At(b, t * n + ColIx(r, n))
    {
      CellAt(r, i, r - base, n);
    }
  }

  lemma OperandRowsGrow(before: Cam, mid: Cam, cam: Cam, base: nat, end: nat)
    requires base <= end && OnlyOperandRows(mid, before, 0, base) && OnlyOperandRows(cam, mid, base, end)
    ensures OnlyOperandRows(cam, before, 0, end)
  {
  }

  method MmColsSetup(d: Ap, v: Vectors, m: nat, n: nat, t: nat)
    requires v.Valid() && d.Released() && m * n <= COL_SIZE && (n > 0 ==> m * m <= COL_SIZE) && t < m
    modifies d`cam
    ensures HoldsTerm(d.cam, v.a[..], v.b[..], m, n, t, m * n)
    ensures OnlyOperandRows(d.cam, old(d.cam), 0, m * n)
  {
    var rowB, base := t * n, 0;
    for i := 0 to m
      invariant base == i * n <= m * n && rowB == t * n
      invariant HoldsTerm(d.cam, v.a[..], v.b[..], m, n, t, base)
      invariant OnlyOperandRows(d.cam, old(d.cam), 0, base)
    {
      SetupBounds(i, m, n, t);
      ghost var before := d.cam;
      FillRow(d, v, n, base, i * m + t, rowB);
      RowHoldsTerm(before, d.cam, v.a[..], v.b[..], m, n, t, i, base);
      OperandRowsGrow(old(d.cam), before, d.cam, base, base + n);
      base := base + n;
    }
  }

  lemma SetupBounds(i: nat, m: nat, n: nat, t: nat)
    requires i < m && t < m
    ensures i * n + n <= m * n && t * n + n <= m * n && i * m + t < m * m && (i + 1) * n == i * n + n
  {
    MulStep(i, m, n);
    MulStep(t, m, n);
    MulStep(i, m, m);
  }

  /** The incremental setup: one pass over the cells, the row index advanced on the last column. */
  method MmColsSetup2(d: Ap, v: Vectors, cSize: nat, m: nat, n: nat, k: nat, t: nat)
    requires v.Valid() && d.Released() && cSize == m * n <= COL_SIZE && t * n + n <= COL_SIZE
    requires m > 0 && n > 0 ==> Reach(m, k) + t < COL_SIZE
    modifies d`cam
    ensures HoldsTerm(d.cam, v.a[..], v.b[..], k, n, t, cSize)
    ensures OnlyOperandRows(d.cam, old(d.cam), 0, cSize)
  {
    var aIndex, bBase := t, t * n;
    for i := 0 to cSize
      invariant bBase == t * n && (n > 0 ==> aIndex == RowStart(i, n, k) + t)
      invariant HoldsTerm(d.cam, v.a[..], v.b[..], k, n, t, i)
      invariant OnlyOperandRows(d.cam, old(d.cam), 0, i)
    {
      Setup2Bounds(i, m, n, k, t, bBase);
      var col := i % n;
      ghost var before := d.cam;
      StoreCell(d, v, i, n, k, t, aIndex, bBase + col, bBase);
      OperandRowsGrow(old(d.cam), before, d.cam, i, i + 1);
      if col == n - 1 {
        aIndex := aIndex + k;
      }
    }
  }

  method StoreCell(d: Ap, v: Vectors, i: nat, n: nat, ghost k: nat, ghost t: nat, aAt: nat, bAt: nat, ghost bBase: nat)
    requires v.Valid() && d.Released() && i < COL_SIZE && aAt < COL_SIZE && bAt < COL_SIZE && n > 0
    requires HoldsTerm(d.cam, v.a[..], v.b[..], k, n, t, i)
    requires aAt == RowStart(i, n, k) + t && bAt == bBase + ColIx(i, n) && bBase == t * n
    modifies d`cam
    ensures HoldsTerm(d.cam, v.a[..], v.b[..], k, n, t, i + 1)
    ensures OnlyOperandRows(d.cam, old(d.cam), i, i + 1)
  {
    RowStartIsProduct(i, n, k);
    d.Store(ColA, false, i, v.a[aAt]);
    d.Store(ColB, false, i, v.b[bAt]);
  }

  /** RowIx(i, n) * k, by the steps in which the loop reaches it. */
  ghost function RowStart(i: nat, n: nat, k: nat): nat
    requires n > 0
  {
    if i < n then 0 else RowStart(i - n, n, k) + k
  }

  lemma RowAbove(i: nat, n: nat)
    requires n > 0 && i >= n
    ensures RowIx(i, n) == RowIx(i - n, n) + 1 && ColIx(i, n) == ColIx(i - n, n)
  {
    DivModIdentity(i - n, n);
    CellAt(i, (i - n) / n + 1, (i - n) % n, n);
  }

  lemma {:induction false} RowStartIsProduct(i: nat, n: nat, k: nat)
    requires n > 0
    ensures RowStart(i, n, k) == RowIx(i, n) * k
  {
    if i >= n {
      RowStartIsProduct(i - n, n, k);
      RowAbove(i, n);
      assert RowIx(i, n) * k == RowIx(i - n, n) * k + k;
    } else {
      CellAt(i, 0, i, n);
    }
  }

  /** The cell after the last column starts the next row. */
  lemma {:induction false} NextCell(i: nat, n: nat, k: nat)
    requires n > 0
    ensures RowStart(i + 1, n, k) == if ColIx(i, n) == n - 1 then RowStart(i, n, k) + k else RowStart(i, n, k)
  {
    if i >= n {
      NextCell(i - n, n, k);
      RowAbove(i, n);
    } else {
      CellAt(i, 0, i, n);
    }
  }

  lemma Setup2Bounds(i: nat, m: nat, n: nat, k: nat, t: nat, bBase: nat)
    requires i < m * n && t * n + n <= COL_SIZE && bBase == t * n
    requires m > 0 && n > 0 ==> Reach(m, k) + t < COL_SIZE
    ensures n > 0 && RowStart(i, n, k) + t < COL_SIZE && bBase + ColIx(i, n) < COL_SIZE && ColIx(i, n) == i % n
    ensures RowStart(i + 1, n, k) == if ColIx(i, n) == n - 1 then RowStart(i, n, k) + k else RowStart(i, n, k)
  {
    CellInRange(i, m, n);
    RowStartIsProduct(i, n, k);
    NextCell(i, n, k);
    AtMostReach(RowIx(i, n), m, k);
  }

  /** Where the last of m rows starts in a matrix of the given stride. */
  function Reach(m: nat, stride: nat): nat { if m == 0 then 0 else Times(m - 1, stride) }

  lemma AtMostReach(q: nat, m: nat, stride: nat)
    requires q < m
    ensures q * stride <= Reach(m, stride)
  {
    MulStep(q, m - 1, stride);
  }

  /** `col` is `before` plus the first t terms of the product in its first `size` cells, and below them plus t
      times what the rows left over in the operand columns multiply to. */
  ghost predicate Gained(col: Column, before: Column, a: seq<Byte>, b: seq<Byte>, stride: nat, n: nat, size: nat,
                         t: nat, stale: Column) {
    GainedProduct(col, before, a, b, stride, n, size, t) && GainedStale(col, before, size, t, stale)
  }

  ghost predicate GainedProduct(col: Column, before: Column, a: seq<Byte>, b: seq<Byte>, stride: nat, n: nat, size: nat,
                                t: nat) {
    forall r :: 0 <= r < size && r < COL_SIZE && n > 0 ==>
      col[r] == Wrap(before[r] + Dot(a, b, stride, n, RowIx(r, n), ColIx(r, n), t))
  }

  ghost predicate GainedStale(col: Column, before: Column, size: nat, t: nat, stale: Column) {
    forall r :: size <= r < COL_SIZE ==> col[r] == Wrap(before[r] + Times(t, stale[r]))
  }

  /** What the operand rows below the product multiply to, in every round. */
  ghost function Stale(wide: (Byte, Byte) -> Byte, cam: Cam, size: nat): (s: Column)
    ensures forall r :: 0 <= r < COL_SIZE ==> s[r] == if r < size then 0 else Product(wide, cam.aLeft[r], cam.bLeft[r])
  {
    seq(COL_SIZE, r requires 0 <= r < COL_SIZE => if r < size then 0 else Product(wide, cam.aLeft[r], cam.bLeft[r]))
  }

  /** The operand rows below the product are those of `start`. */
  ghost predicate SameBelow(cam: Cam, start: Cam, size: nat) {
    forall r :: size <= r < COL_SIZE ==> cam.aLeft[r] == start.aLeft[r] && cam.bLeft[r] == start.bLeft[r]
  }

  ghost predicate ZeroFrom(col: Column, size: nat) {
    forall r :: size <= r < COL_SIZE ==> col[r] == 0
  }

  ghost predicate StaleRowsZero(cam: Cam, size: nat) {
    forall r :: size <= r < COL_SIZE ==> cam.aLeft[r] == 0 && cam.bLeft[r] == 0
  }

  /** MULT, accumulate and flush for the term the operand columns hold. */
  method MultiplyAccumulate(d: Ap)
    requires d.Released()
    modifies d
    ensures d.Released()
    ensures forall r :: 0 <= r < COL_SIZE ==>
      d.cam.aRight[r] == AddBytes(old(d.cam.aRight[r]), Product(d.wide, old(d.cam.aLeft[r]), old(d.cam.bLeft[r])))
    ensures d.cam == old(d.cam).(aRight := d.cam.aRight, cLeft := ZeroColumn())
  {
    TriggerComputing(d, Mult, HORIZONTAL, LEFT);
    TriggerComputingTargetA(d, AddD, HORIZONTAL, MATCH_A_RIGHT_C_LEFT);
    FlushC0(d);
  }

  lemma GainedStep(cam: Cam, after: Column, start: Cam, wide: (Byte, Byte) -> Byte, a: seq<Byte>, b: seq<Byte>,
                   stride: nat, n: nat, size: nat, t: nat)
    requires size <= COL_SIZE && (n == 0 ==> size == 0) && ExactOn(wide, a, b)
    requires HoldsTerm(cam, a, b, stride, n, t, size) && SameBelow(cam, start, size)
    requires Gained(cam.aRight, start.aRight, a, b, stride, n, size, t, Stale(wide, start, size))
    requires forall r :: 0 <= r < COL_SIZE ==>
      after[r] == AddBytes(cam.aRight[r], Product(wide, cam.aLeft[r], cam.bLeft[r]))
    requires |a| == |b| == COL_SIZE && forall r :: 0 <= r < size ==> IndicesFit(r, stride, n, t)
    ensures Gained(after, start.aRight, a, b, stride, n, size, t + 1, Stale(wide, start, size))
  {
    ProductRowsStep(cam, after, start.aRight, wide, a, b, stride, n, size, t);
    StaleRowsStep(cam, after, start, wide, size, t);
  }

  lemma ProductRowsStep(cam: Cam, after: Column, before: Column, wide: (Byte, Byte) -> Byte, a: seq<Byte>, b: seq<Byte>,
                        stride: nat, n: nat, size: nat, t: nat)
    requires size <= COL_SIZE && (n == 0 ==> size == 0) && ExactOn(wide, a, b)
    requires HoldsTerm(cam, a, b, stride, n, t, size) && GainedProduct(cam.aRight, before, a, b, stride, n, size, t)
    requires forall r :: 0 <= r < COL_SIZE ==>
      after[r] == AddBytes(cam.aRight[r], Product(wide, cam.aLeft[r], cam.bLeft[r]))
    requires |a| == |b| == COL_SIZE && forall r :: 0 <= r < size ==> IndicesFit(r, stride, n, t)
    ensures GainedProduct(after, before, a, b, stride, n, size, t + 1)
  {
    forall r | 0 <= r < size
      ensures after[r] == Wrap(before[r] + Dot(a, b, stride, n, RowIx(r, n), ColIx(r, n), t + 1))
    {
      assert IndicesFit(r, stride, n, t);
      CellStep(wide, a, b, stride, n, t, RowIx(r, n), ColIx(r, n), cam.aRight[r], before[r]);
    }
  }

  lemma CellStep(wide: (Byte, Byte) -> Byte, a: seq<Byte>, b: seq<Byte>, stride: nat, n: nat, t: nat, i: nat, j: nat,
                 cell: Byte, before: Byte)
    requires ExactOn(wide, a, b) && i * stride + t < |a| && t * n + j < |b|
    requires cell == Wrap(before + Dot(a, b, stride, n, i, j, t))
    ensures AddBytes(cell, Product(wide, At(a, i * stride + t), At(b, t * n + j))) ==
      Wrap(before + Dot(a, b, stride, n, i, j, t + 1))
  {
    var x, y := At(a, i * stride + t), At(b, t * n + j);
    assert x in a && y in b;
    AddTerm(cell, before, Dot(a, b, stride, n, i, j, t), Times(x, y));
  }

  lemma StaleRowsStep(cam: Cam, after: Column, start: Cam, wide: (Byte, Byte) -> Byte, size: nat, t: nat)
    requires SameBelow(cam, start, size) && GainedStale(cam.aRight, start.aRight, size, t, Stale(wide, start, size))
    requires forall r :: 0 <= r < COL_SIZE ==>
      after[r] == AddBytes(cam.aRight[r], Product(wide, cam.aLeft[r], cam.bLeft[r]))
    ensures GainedStale(after, start.aRight, size, t + 1, Stale(wide, start, size))
  {
    forall r | size <= r < COL_SIZE
      ensures after[r] == Wrap(start.aRight[r] + Times(t + 1, Stale(wide, start, size)[r]))
    {
      AddStale(cam.aRight[r], start.aRight[r], t, Stale(wide, start, size)[r]);
    }
  }

  lemma AddStale(cell: Byte, before: Byte, t: nat, stale: Byte)
    requires cell == Wrap(before + Times(t, stale))
    ensures AddBytes(cell, stale) == Wrap(before + Times(t + 1, stale))
  {
    WrapSum(before + Times(t, stale), stale);
    assert Times(t + 1, stale) == Times(t, stale) + stale;
  }

  lemma AddTerm(cell: Byte, before: Byte, dot: nat, term: nat)
    requires cell == Wrap(before + dot)
    ensures AddBytes(cell, Wrap(term)) == Wrap(before + (dot + term))
  {
    WrapSum(before + dot, term);
  }

  lemma TermIndex(q: nat, c: nat, m: nat, stride: nat, n: nat, t: nat)
    requires q < m && c < n && Reach(m, stride) + t < COL_SIZE && t * n + n <= COL_SIZE
    ensures q * stride + t < COL_SIZE && t * n + c < COL_SIZE
  {
    AtMostReach(q, m, stride);
  }

  ghost predicate IndicesFit(r: nat, stride: nat, n: nat, t: nat) {
    n > 0 ==> RowIx(r, n) * stride + t < COL_SIZE && t * n + ColIx(r, n) < COL_SIZE
  }

  lemma TermIndices(m: nat, stride: nat, n: nat, t: nat)
    requires m * n <= COL_SIZE && (m > 0 && n > 0 ==> Reach(m, stride) + t < COL_SIZE) && t * n + n <= COL_SIZE
    ensures forall r :: 0 <= r < m * n ==> IndicesFit(r, stride, n, t)
  {
    forall r | 0 <= r < m * n
      ensures IndicesFit(r, stride, n, t)
    {
      CellInRange(r, m, n);
      TermIndex(RowIx(r, n), ColIx(r, n), m, stride, n, t);
    }
  }

  /** Zero rows below the product multiply to zero. */
  lemma CleanStale(wide: (Byte, Byte) -> Byte, cam: Cam, size: nat)
    ensures StaleRowsZero(cam, size) ==> Stale(wide, cam, size) == ZeroColumn()
  {
  }

  /** From a clean accumulator and clean rows below the product, t terms of it and zeros. */
  lemma CleanStart(col: Column, start: Cam, wide: (Byte, Byte) -> Byte, a: seq<Byte>, b: seq<Byte>, stride: nat, n: nat,
                   size: nat, t: nat)
    requires size <= COL_SIZE && (n == 0 ==> size == 0)
    requires Gained(col, start.aRight, a, b, stride, n, size, t, Stale(wide, start, size))
    ensures start.aRight == ZeroColumn() && StaleRowsZero(start, size) ==>
      (t == stride ==> IsProduct(col, a, b, stride, n, size)) && ZeroFrom(col, size)
  {
    CleanStale(wide, start, size);
  }

  /** One round of the device: set the operands for term i up, multiply, accumulate, flush. */
  method V4Round(d: Ap, v: Vectors, m: nat, n: nat, i: nat, ghost start: Cam, ghost size: nat)
    requires v.Valid() && d.Released() && size == m * n <= COL_SIZE && (n > 0 ==> m * m <= COL_SIZE) && i < m
    requires ExactOn(d.wide, v.a[..], v.b[..]) && SameBelow(d.cam, start, size)
    requires Gained(d.cam.aRight, start.aRight, v.a[..], v.b[..], m, n, size, i, Stale(d.wide, start, size))
    modifies d
    ensures d.Released() && SameBelow(d.cam, start, size)
    ensures Gained(d.cam.aRight, start.aRight, v.a[..], v.b[..], m, n, size, i + 1, Stale(d.wide, start, size))
  {
    MulStep(i, m, n);
    MulStep(m - 1, m, m);
    TermIndices(m, m, n, i);
    MmColsSetup(d, v, m, n, i);
    ghost var cam := d.cam;
    MultiplyAccumulate(d);
    GainedStep(cam, d.cam.aRight, start, d.wide, v.a[..], v.b[..], m, n, size, i);
  }

  /** k_len plays no part: the result is the product of an (m x m) matrix `a` with `b`, on top of
      whatever column A right held. */
  method ApMmV4(d: Ap, v: Vectors, m: nat, k: nat, n: nat)
    requires v.Valid() && d.Released() && m * n <= COL_SIZE && (n > 0 ==> m * m <= COL_SIZE)
    requires ExactOn(d.wide, v.a[..], v.b[..])
    modifies d
    ensures d.Released() && SameBelow(d.cam, old(d.cam), m * n)
    ensures Gained(d.cam.aRight, old(d.cam.aRight), v.a[..], v.b[..], m, n, m * n, m, Stale(d.wide, old(d.cam), m * n))
    ensures old(d.cam.aRight) == ZeroColumn() && old(StaleRowsZero(d.cam, m * n)) ==>
      IsProduct(d.cam.aRight, v.a[..], v.b[..], m, n, m * n) && ZeroFrom(d.cam.aRight, m * n)
  {
    ghost var size := m * n;
    for i := 0 to m
      invariant d.Released() && SameBelow(d.cam, old(d.cam), size)
      invariant Gained(d.cam.aRight, old(d.cam.aRight), v.a[..], v.b[..], m, n, size, i,
                       Stale(d.wide, old(d.cam), size))
    {
      V4Round(d, v, m, n, i, old(d.cam), size);
    }
    CleanStart(d.cam.aRight, old(d.cam), d.wide, v.a[..], v.b[..], m, n, size, m);
  }

  /** One round of the variant with mm_cols_setup_2. */
  method IncrementalRound(d: Ap, v: Vectors, m: nat, k: nat, n: nat, i: nat, cSize: nat, ghost start: Cam)
    requires v.Valid() && d.Released() && cSize == m * n <= COL_SIZE && i * n + n <= COL_SIZE
    requires m > 0 && n > 0 ==> Reach(m, k) + i < COL_SIZE
    requires ExactOn(d.wide, v.a[..], v.b[..]) && SameBelow(d.cam, start, cSize)
    requires Gained(d.cam.aRight, start.aRight, v.a[..], v.b[..], k, n, cSize, i, Stale(d.wide, start, cSize))
    modifies d
    ensures d.Released() && SameBelow(d.cam, start, cSize)
    ensures Gained(d.cam.aRight, start.aRight, v.a[..], v.b[..], k, n, cSize, i + 1, Stale(d.wide, start, cSize))
  {
    TermIndices(m, k, n, i);
    MmColsSetup2(d, v, cSize, m, n, k, i);
    ghost var cam := d.cam;
    MultiplyAccumulate(d);
    GainedStep(cam, d.cam.aRight, start, d.wide, v.a[..], v.b[..], k, n, cSize, i);
  }

  /** The variant with mm_cols_setup_2, which takes k_len as the row stride. */
  method ApMmV4Incremental(d: Ap, v: Vectors, m: nat, k: nat, n: nat)
    requires v.Valid() && d.Released() && m * n <= COL_SIZE && (m > 0 && n > 0 ==> Reach(m, k) + m <= COL_SIZE)
    requires ExactOn(d.wide, v.a[..], v.b[..])
    modifies d
    ensures d.Released() && SameBelow(d.cam, old(d.cam), m * n)
    ensures Gained(d.cam.aRight, old(d.cam.aRight), v.a[..], v.b[..], k, n, m * n, m, Stale(d.wide, old(d.cam), m * n))
    ensures m == k && old(d.cam.aRight) == ZeroColumn() && old(StaleRowsZero(d.cam, m * n)) ==>
      IsProduct(d.cam.aRight, v.a[..], v.b[..], k, n, m * n) && ZeroFrom(d.cam.aRight, m * n)
  {
    var cSize := m * n;
    for i := 0 to m
      invariant d.Released() && SameBelow(d.cam, old(d.cam), cSize)
      invariant Gained(d.cam.aRight, old(d.cam.aRight), v.a[..], v.b[..], k, n, cSize, i,
                       Stale(d.wide, old(d.cam), cSize))
    {
      MulStep(i, m, n);
      IncrementalRound(d, v, m, k, n, i, cSize, old(d.cam));
    }
    CleanStart(d.cam.aRight, old(d.cam), d.wide, v.a[..], v.b[..], k, n, cSize, m);
  }

  // ---------- when ap_mm_v4 computes the product it is asked for ----------

  ghost predicate FourBit(s: seq<Byte>) {
    |s| == COL_SIZE && forall i :: 0 <= i < |s| ==> s[i] < 16
  }

  /** The product ap_mm_v4 forms for (m, k, n) is the product it is asked for. */
  ghost predicate V4Right(a: seq<Byte>, b: seq<Byte>, m: nat, k: nat, n: nat) {
    forall r :: 0 <= r < m * n ==> Entry(a, b, m, n, r) == Entry(a, b, k, n, r)
  }

  lemma V4RightIff(m: nat, k: nat, n: nat)
    requires m * n <= COL_SIZE && m * k <= COL_SIZE && k * n <= COL_SIZE
    ensures (forall a, b :: FourBit(a) && FourBit(b) ==> V4Right(a, b, m, k, n)) <==> (m == k || m == 0 || n == 0)
  {
    if m != k && m != 0 && n != 0 {
      var t := if m < k then m else k;
      SpikeFits(m, k, n, t);
      var zero: seq<Byte> := ZeroColumn();
      var a, b := zero[t := 1], zero[t * n := 1];
      SpikeDot(a, b, m, n, t, m);
      SpikeDot(a, b, k, n, t, k);
      MulStep(0, m, n);
      assert RowIx(0, n) == 0 && ColIx(0, n) == 0;
      assert Entry(a, b, m, n, 0) != Entry(a, b, k, n, 0);
      assert FourBit(a) && FourBit(b) && !V4Right(a, b, m, k, n);
    }
  }

  /** The incremental variant sums m terms where the product has k, so it is right in the same cases. */
  ghost predicate IncrementalRight(a: seq<Byte>, b: seq<Byte>, m: nat, k: nat, n: nat) {
    forall r :: 0 <= r < m * n ==> n > 0 ==> Wrap(Dot(a, b, k, n, RowIx(r, n), ColIx(r, n), m)) == Entry(a, b, k, n, r)
  }

  lemma IncrementalRightIff(m: nat, k: nat, n: nat)
    requires m * n <= COL_SIZE && m * k <= COL_SIZE && k * n <= COL_SIZE
    ensures (forall a, b :: FourBit(a) && FourBit(b) ==> IncrementalRight(a, b, m, k, n))
       <==> (m == k || m == 0 || n == 0)
  {
    if m != k && m != 0 && n != 0 {
      var t := if m < k then m else k;
      SpikeFits(m, k, n, t);
      var zero: seq<Byte> := ZeroColumn();
      var a, b := zero[t := 1], zero[t * n := 1];
      SpikeDot(a, b, k, n, t, m);
      SpikeDot(a, b, k, n, t, k);
      MulStep(0, m, n);
      assert RowIx(0, n) == 0 && ColIx(0, n) == 0;
      assert Wrap(Dot(a, b, k, n, 0, 0, m)) != Entry(a, b, k, n, 0);
      assert FourBit(a) && FourBit(b) && !IncrementalRight(a, b, m, k, n);
    }
  }

  lemma SpikeFits(m: nat, k: nat, n: nat, t: nat)
    requires m * n <= COL_SIZE && m * k <= COL_SIZE && k * n <= COL_SIZE
    requires m != k && m != 0 && n != 0 && t == if m < k then m else k
    ensures t < COL_SIZE && t * n < COL_SIZE
  {
    MulStep(t, if m < k then k else m, n);
    if m < k {
      MulStep(0, m, k);
    } else {
      MulStep(0, n, m);
    }
  }

  /** Row 0 and column 0 of two matrices that are zero but for one shared term. */
  lemma {:induction false} SpikeDot(a: seq<Byte>, b: seq<Byte>, stride: nat, n: nat, t: nat, upTo: nat)
    requires n > 0 && t < COL_SIZE && t * n < COL_SIZE
    requires a == ZeroColumn()[t := 1] && b == ZeroColumn()[t * n := 1]
    ensures Dot(a, b, stride, n, 0, 0, upTo) == if t < upTo then 1 else 0
  {
    if upTo > 0 {
      SpikeDot(a, b, stride, n, t, upTo - 1);
      assert Times(0, At(b, (upTo - 1) * n)) == 0;
    }
  }
}
