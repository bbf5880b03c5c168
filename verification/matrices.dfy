/**
 * What the two multiplication kernels share: C's 32-bit `int`, square matrices of it, the
 * operand patterns both programs initialise (`A[i][j] = i + j`, `B[i][j] = i * j`), and the
 * row-by-column sum both compute.
 */
module Matrices {

  /** C's `int`. Arithmetic on it is checked: leaving the range is undefined behaviour in C. */
  newtype Int32 = x: int | -0x8000_0000 <= x < 0x8000_0000

  /** A matrix as the list of its rows. */
  type Matrix = seq<seq<Int32>>

  /** The largest dimension either kernel uses (the blocked kernel's `DIM`). */
  const MaxDim: nat := 100

  /** The largest product `(i + k) * (k * j)` of two initialised entries when `i, j, k < MaxDim`. */
  const MaxTerm: nat := 2 * (MaxDim - 1) * ((MaxDim - 1) * (MaxDim - 1))

  predicate Square(m: Matrix, n: nat) {
    |m| == n && forall i :: 0 <= i < n ==> |m[i]| == n
  }

  /** `a[r][0] * b[0][c] + ... + a[r][len-1] * b[len-1][c]`, in unbounded integers. */
  function Dot(a: Matrix, b: Matrix, n: nat, r: nat, c: nat, len: nat): int
    requires Square(a, n) && Square(b, n) && r < n && c < n && len <= n
  {
    if len == 0 then 0 else Dot(a, b, n, r, c, len - 1) + a[r][len - 1] as int * b[len - 1][c] as int
  }

  /** `m[i][j] == i + j` everywhere. */
  predicate IsSumMatrix(m: Matrix, n: nat) {
    Square(m, n) && forall i, j :: 0 <= i < n && 0 <= j < n ==> m[i][j] as int == i + j
  }

  /** `m[i][j] == i * j` everywhere. */
  predicate IsProductMatrix(m: Matrix, n: nat) {
    Square(m, n) && forall i, j :: 0 <= i < n && 0 <= j < n ==> m[i][j] as int == i * j
  }

  predicate IsZero(m: Matrix, n: nat) {
    Square(m, n) && forall i, j :: 0 <= i < n && 0 <= j < n ==> m[i][j] == 0
  }

  /** Cell `(r, c)` of `m` holds the row-by-column sum of `a` and `b`. */
  predicate HoldsDot(m: Matrix, a: Matrix, b: Matrix, n: nat, r: nat, c: nat)
    requires Square(m, n) && Square(a, n) && Square(b, n) && r < n && c < n
  {
    m[r][c] as int == Dot(a, b, n, r, c, n)
  }

  // ---------------------------------------------------------------------------
  // The sum for the initialised operands, and its bounds.
  // ---------------------------------------------------------------------------

  /** `sum (r + k) * (k * c)` over `k < len`: the product of the initialised operands, by formula. */
  function InitDot(r: nat, c: nat, len: nat): int {
    if len == 0 then 0 else InitDot(r, c, len - 1) + (r + (len - 1)) * ((len - 1) * c)
  }

  /** On the initialised operands the kernels' sum is the formula's. */
  lemma {:induction false} DotOfInit(a: Matrix, b: Matrix, n: nat, r: nat, c: nat, len: nat)
    requires IsSumMatrix(a, n) && IsProductMatrix(b, n) && r < n && c < n && len <= n
    ensures Dot(a, b, n, r, c, len) == InitDot(r, c, len)
  {
    if len > 0 {
      DotOfInit(a, b, n, r, c, len - 1);
      assert a[r][len - 1] as int == r + (len - 1) && b[len - 1][c] as int == (len - 1) * c;
    }
  }

  lemma ProductBound(x: nat, y: nat, xMax: nat, yMax: nat)
    requires x <= xMax && y <= yMax
    ensures x * y <= xMax * yMax
  {
    assert x * y <= xMax * y by {
      assert xMax * y == x * y + (xMax - x) * y;
    }
    assert xMax * y <= xMax * yMax by {
      assert xMax * yMax == xMax * y + xMax * (yMax - y);
    }
  }

  /** Every operand entry and every product of two of them fits far inside an `int`. */
  lemma TermBound(r: nat, k: nat, c: nat)
    requires r < MaxDim && k < MaxDim && c < MaxDim
    ensures 0 <= k * c <= (MaxDim - 1) * (MaxDim - 1)
    ensures 0 <= (r + k) * (k * c) <= MaxTerm
  {
    ProductBound(k, c, MaxDim - 1, MaxDim - 1);
    ProductBound(r + k, k * c, 2 * (MaxDim - 1), (MaxDim - 1) * (MaxDim - 1));
  }

  /** Each partial sum grows by at most `MaxTerm` per step. */
  lemma {:induction false} InitDotBound(r: nat, c: nat, len: nat)
    requires r < MaxDim && c < MaxDim && len <= MaxDim
    ensures 0 <= InitDot(r, c, len) <= len * MaxTerm
  {
    if len > 0 {
      InitDotBound(r, c, len - 1);
      TermBound(r, len - 1, c);
    }
  }

  /** Even a full row of maximal products stays below `2^31`, so no partial sum overflows an `int`. */
  lemma SumsFit(r: nat, c: nat, len: nat)
    requires r < MaxDim && c < MaxDim && len <= MaxDim
    ensures 0 <= InitDot(r, c, len) < 0x8000_0000
  {
    InitDotBound(r, c, len);
  }

  /** Larger indices and longer sums never give a smaller partial sum. */
  lemma {:induction false} InitDotMonotone(r: nat, c: nat, len: nat, r': nat, c': nat, len': nat)
    requires r <= r' && c <= c' && len <= len'
    ensures InitDot(r, c, len) <= InitDot(r', c', len')
    decreases len'
  {
    if len' > 0 {
      var k := len' - 1;
      ProductBound(k, c, k, c');
      ProductBound(r + k, k * c, r' + k, k * c');
      if len == len' {
        InitDotMonotone(r, c, len - 1, r', c', len' - 1);
      } else {
        InitDotMonotone(r, c, len, r', c', len' - 1);
        assert (r' + k) * (k * c') >= 0;
      }
    }
  }

  /** `6 * sum (r + k) * k * c == c * (3 * r * len * (len - 1) + (len - 1) * len * (2 * len - 1))`. */
  lemma {:induction false} InitDotClosedForm(r: nat, c: nat, len: nat)
    ensures 6 * InitDot(r, c, len) == c * ClosedForm(r, len)
  {
    if len > 0 {
      var k := len - 1;
      InitDotClosedForm(r, c, k);
      ClosedFormStep(r, k);
      ScaleStep(c, ClosedForm(r, len), ClosedForm(r, k), r, k);
    }
  }

  /** `3 * r * len * (len - 1) + (len - 1) * len * (2 * len - 1)`. */
  function ClosedForm(r: int, len: int): int {
    3 * r * len * (len - 1) + (len - 1) * len * (2 * len - 1)
  }

  lemma ClosedFormStep(r: int, k: int)
    ensures ClosedForm(r, k + 1) == ClosedForm(r, k) + 6 * (r * k + k * k)
  {
    assert 3 * r * (k + 1) * k == 3 * r * k * k + 3 * r * k;
    assert 3 * r * k * (k - 1) == 3 * r * k * k - 3 * r * k;
    assert k * (k + 1) * (2 * k + 1) == 2 * k * k * k + 3 * k * k + k;
    assert (k - 1) * k * (2 * k - 1) == 2 * k * k * k - 3 * k * k + k;
  }

  lemma ScaleStep(c: int, p: int, q: int, r: int, k: int)
    requires p == q + 6 * (r * k + k * k)
    ensures c * p == c * q + 6 * ((r + k) * (k * c))
  {
    assert c * p == c * q + 6 * (c * (r * k + k * k));
    assert c * (r * k + k * k) == (r + k) * (k * c);
  }

  // ---------------------------------------------------------------------------
  // The initialisation loops.
  // ---------------------------------------------------------------------------

  /** The two operand matrices, filled row by row: `a[i][j] = i + j`, `b[i][j] = i * j`. */
  method InitOperands(n: nat) returns (a: Matrix, b: Matrix)
    requires n <= MaxDim
    ensures IsSumMatrix(a, n) && IsProductMatrix(b, n)
  {
    a, b := [], [];
    for i := 0 to n
      invariant |a| == i && |b| == i
      invariant forall p :: 0 <= p < i ==> |a[p]| == n && |b[p]| == n
      invariant forall p, q :: 0 <= p < i && 0 <= q < n ==> a[p][q] as int == p + q && b[p][q] as int == p * q
    {
      var rowA, rowB := [], [];
      for j := 0 to n
        invariant |rowA| == j && |rowB| == j
        invariant forall q :: 0 <= q < j ==> rowA[q] as int == i + q && rowB[q] as int == i * q
      {
        TermBound(0, i, j);
        rowA := rowA + [(i + j) as Int32];
        rowB := rowB + [(i * j) as Int32];
      }
      a, b := a + [rowA], b + [rowB];
    }
  }

  /** `{{0}}`: every cell zero. */
  method ZeroMatrix(n: nat) returns (z: Matrix)
    ensures IsZero(z, n)
  {
    z := [];
    for i := 0 to n
      invariant |z| == i
      invariant forall p :: 0 <= p < i ==> |z[p]| == n && forall q :: 0 <= q < n ==> z[p][q] == 0
    {
      var row := [];
      for j := 0 to n
        invariant |row| == j && forall q :: 0 <= q < j ==> row[q] == 0
      {
        row := row + [0];
      }
      z := z + [row];
    }
  }
}
