/** Matrix products over bytes: what a product is, and the processor's own loops that compute it. */
module MatMul {
  import opened Arithmetic
  import opened ApDevice

  /** The three buffers of r_v_mgmt. */
  class Vectors {
    const a: array<Byte>
    const b: array<Byte>
    const c: array<Byte>

    predicate Valid() {
      a.Length == COL_SIZE && b.Length == COL_SIZE && c.Length == COL_SIZE && a != c && b != c && a != b
    }

    constructor ()
      ensures Valid() && fresh(a) && fresh(b) && fresh(c)
    {
      a, b, c := new Byte[COL_SIZE], new Byte[COL_SIZE], new Byte[COL_SIZE];
    }
  }

  function At(s: seq<Byte>, i: int): Byte {
    if 0 <= i < |s| then s[i] else 0
  }

  /** The first t terms of row i of the row-major matrix `a` (rows `stride` apart) times column j of `b`. */
  ghost function Dot(a: seq<Byte>, b: seq<Byte>, stride: nat, n: nat, i: nat, j: nat, t: nat): nat {
    if t == 0 then 0 else Dot(a, b, stride, n, i, j, t - 1) + Times(At(a, i * stride + (t - 1)), At(b, (t - 1) * n + j))
  }

  /** Cell r of a row-major matrix with n columns is in row RowIx(r, n) and column ColIx(r, n). */
  ghost function RowIx(r: nat, n: nat): nat
    requires n > 0
  {
    r / n
  }

  ghost function ColIx(r: nat, n: nat): nat
    requires n > 0
  {
    r % n
  }

  /** Entry r of the flattened (m x k) times (k x n) product, modulo 256. */
  ghost function Entry(a: seq<Byte>, b: seq<Byte>, k: nat, n: nat, r: nat): Byte {
    if n == 0 then 0 else Wrap(Dot(a, b, k, n, RowIx(r, n), ColIx(r, n), k))
  }

  ghost predicate IsProduct(c: seq<Byte>, a: seq<Byte>, b: seq<Byte>, k: nat, n: nat, size: nat) {
    size <= |c| && forall r :: 0 <= r < size ==> c[r] == Entry(a, b, k, n, r)
  }

  lemma FlatIndex(i: nat, j: nat, m: nat, n: nat)
    requires i < m && j < n
    ensures 0 <= i * n + j < m * n
  {
    MulStep(i, m, n);
  }

  lemma CellAt(r: nat, i: nat, j: nat, n: nat)
    requires j < n && r == i * n + j
    ensures RowIx(r, n) == i && ColIx(r, n) == j
  {
    DivModUnique(r, i, j, n);
  }

  lemma CellInRange(r: nat, m: nat, n: nat)
    requires r < m * n
    ensures n > 0 && RowIx(r, n) < m && ColIx(r, n) < n
  {
    DivModIdentity(r, n);
    MulStep(r / n, m, n);
    MulStep(m, r / n, n);
  }

  lemma WrapLeft(x: int, y: int)
    ensures Wrap(Wrap(x) + y) == Wrap(x + y)
  {
  }

  lemma WrapSum(x: int, y: int)
    ensures Wrap(Wrap(x) + y) == Wrap(x + y) && Wrap(Wrap(x) + Wrap(y)) == Wrap(x + y)
  {
    WrapLeft(x, y);
    WrapLeft(y, Wrap(x));
  }

  /** The innermost loop of the product: one uint8_t sum. */
  method DotCpu(v: Vectors, k: nat, n: nat, i: nat, j: nat) returns (sum: Byte)
    requires v.Valid() && i * k + k <= COL_SIZE && k * n <= COL_SIZE && j < n
    ensures sum == Wrap(Dot(v.a[..], v.b[..], k, n, i, j, k))
  {
    sum := 0;
    for t := 0 to k
      invariant sum == Wrap(Dot(v.a[..], v.b[..], k, n, i, j, t))
    {
      FlatIndex(t, j, k, n);
      WrapSum(Dot(v.a[..], v.b[..], k, n, i, j, t), Times(v.a[i * k + t], v.b[t * n + j]));
      sum := Wrap(sum + Times(v.a[i * k + t], v.b[t * n + j]));
    }
  }

  lemma ProductStep(c: seq<Byte>, a: seq<Byte>, b: seq<Byte>, k: nat, n: nat, i: nat, j: nat, p: nat)
    requires j < n && p == i * n + j && IsProduct(c, a, b, k, n, p)
    requires p < |c| && c[p] == Wrap(Dot(a, b, k, n, i, j, k))
    ensures IsProduct(c, a, b, k, n, p + 1)
  {
    CellAt(p, i, j, n);
  }

  /** One row of the product; `base` is i * n. */
  method RowCpu(v: Vectors, k: nat, n: nat, i: nat, base: nat)
    requires v.Valid() && i * k + k <= COL_SIZE && k * n <= COL_SIZE && base + n <= COL_SIZE && base == i * n
    requires IsProduct(v.c[..], v.a[..], v.b[..], k, n, base)
    modifies v.c
    ensures IsProduct(v.c[..], v.a[..], v.b[..], k, n, base + n)
    ensures v.c[base + n..] == old(v.c[base + n..])
  {
    for j := 0 to n
      invariant IsProduct(v.c[..], v.a[..], v.b[..], k, n, base + j)
      invariant v.c[base + n..] == old(v.c[base + n..])
    {
      var sum := DotCpu(v, k, n, i, j);
      v.c[base + j] := sum;
      ProductStep(v.c[..], v.a[..], v.b[..], k, n, i, j, base + j);
    }
  }

  method MatmulCpu(v: Vectors, m: nat, k: nat, n: nat)
    requires v.Valid() && m * k <= COL_SIZE && k * n <= COL_SIZE && m * n <= COL_SIZE
    modifies v.c
    ensures IsProduct(v.c[..], v.a[..], v.b[..], k, n, m * n)
    ensures v.c[m * n..] == old(v.c[m * n..])
  {
    var base := 0;
    for i := 0 to m
      invariant base == i * n <= m * n && IsProduct(v.c[..], v.a[..], v.b[..], k, n, base)
      invariant v.c[m * n..] == old(v.c[m * n..])
    {
      MulStep(i, m, k);
      MulStep(i, m, n);
      RowCpu(v, k, n, i, base);
      base := base + n;
    }
  }

  lemma DotNext(a: seq<Byte>, b: seq<Byte>, k: nat, n: nat, i: nat, j: nat, t: nat, before: Byte)
    requires i * k + t < |a| && t * n + j < |b|
    ensures Wrap(before + Dot(a, b, k, n, i, j, t + 1)) ==
      Wrap(Wrap(before + Dot(a, b, k, n, i, j, t)) + Times(a[i * k + t], b[t * n + j]))
  {
    WrapSum(before + Dot(a, b, k, n, i, j, t), Times(a[i * k + t], b[t * n + j]));
  }

  /** The innermost loop of the accumulating product, in place on cell p of `c`, p being i * n + j. */
  method AccumulateCell(a: array<Byte>, b: array<Byte>, c: array<Byte>, k: nat, n: nat, i: nat, j: nat, p: nat)
    requires i * k + k <= a.Length && k * n <= b.Length && p < c.Length && j < n && c != a && c != b
    modifies c
    ensures c[..] == old(c[..])[p := Wrap(old(c[p]) + Dot(a[..], b[..], k, n, i, j, k))]
  {
    for t := 0 to k
      invariant c[..] == old(c[..])[p := Wrap(old(c[p]) + Dot(a[..], b[..], k, n, i, j, t))]
    {
      FlatIndex(t, j, k, n);
      DotNext(a[..], b[..], k, n, i, j, t, old(c[p]));
      c[p] := Wrap(c[p] + Times(a[i * k + t], b[t * n + j]));
    }
  }

  /** `c` is `before` with the product added in its first `size` cells. */
  ghost predicate IsAccumulated(c: seq<Byte>, before: seq<Byte>, a: seq<Byte>, b: seq<Byte>, k: nat, n: nat,
                                size: nat) {
    size <= |c| == |before| &&
    (forall r :: 0 <= r < size ==> c[r] == Wrap(before[r] + Entry(a, b, k, n, r))) &&
    (forall r :: size <= r < |c| ==> c[r] == before[r])
  }

  /** Accumulating into a cleared buffer leaves the product itself. */
  lemma AccumulatedFromZero(c: seq<Byte>, before: seq<Byte>, a: seq<Byte>, b: seq<Byte>, k: nat, n: nat, size: nat)
    requires IsAccumulated(c, before, a, b, k, n, size) && forall r :: 0 <= r < |before| ==> before[r] == 0
    ensures IsProduct(c, a, b, k, n, size)
  {
    forall r | 0 <= r < size
      ensures c[r] == Entry(a, b, k, n, r)
    {
      assert c[r] == Wrap(before[r] + Entry(a, b, k, n, r));
    }
  }

  lemma AccumulatedStep(c: seq<Byte>, before: seq<Byte>, a: seq<Byte>, b: seq<Byte>,
                        k: nat, n: nat, i: nat, j: nat, p: nat)
    requires j < n && p == i * n + j && p < |c| && IsAccumulated(c, before, a, b, k, n, p)
    ensures IsAccumulated(c[p := Wrap(c[p] + Dot(a, b, k, n, i, j, k))], before, a, b, k, n, p + 1)
  {
    CellAt(p, i, j, n);
    WrapSum(Dot(a, b, k, n, i, j, k), before[p]);
  }

  method AccumulateRow(a: array<Byte>, b: array<Byte>, c: array<Byte>, k: nat, n: nat, i: nat, base: nat,
                       ghost before: seq<Byte>)
    requires i * k + k <= a.Length && k * n <= b.Length && base + n <= c.Length && c != a && c != b && base == i * n
    requires IsAccumulated(c[..], before, a[..], b[..], k, n, base)
    modifies c
    ensures IsAccumulated(c[..], before, a[..], b[..], k, n, base + n)
  {
    for j := 0 to n
      invariant IsAccumulated(c[..], before, a[..], b[..], k, n, base + j)
    {
      AccumulatedStep(c[..], before, a[..], b[..], k, n, i, j, base + j);
      AccumulateCell(a, b, c, k, n, i, j, base + j);
    }
  }

  method SgemmGolden(a: array<Byte>, b: array<Byte>, c: array<Byte>, m: nat, k: nat, n: nat)
    requires m * k <= a.Length && k * n <= b.Length && m * n <= c.Length && c != a && c != b
    modifies c
    ensures IsAccumulated(c[..], old(c[..]), a[..], b[..], k, n, m * n)
  {
    var base := 0;
    for i := 0 to m
      invariant base == i * n <= m * n && IsAccumulated(c[..], old(c[..]), a[..], b[..], k, n, base)
    {
      MulStep(i, m, k);
      MulStep(i, m, n);
      AccumulateRow(a, b, c, k, n, i, base, old(c[..]));
      base := base + n;
    }
  }
}
