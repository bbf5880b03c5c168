/**
 * The straightforward kernel: two `SIZE x SIZE` operands initialised to `i + j` and `i * j`, a
 * zeroed result, and the i-j-k triple loop accumulating `CMult[i][j] += A[i][k] * B[k][j]` in
 * `int`. Every intermediate value is an `Int32`, so each addition and multiplication is proved
 * to stay inside C's `int`.
 */
module SimpleKernel {
  import opened Matrices

  /** `SIZE`. */
  const Size: nat := 64

  /**
   * The innermost loop for one cell: `k` runs over `[0, n)` adding `a[i][k] * b[k][j]` into
   * `c[i][j]`; no other cell is touched.
   */
  method AccumulateCell(a: Matrix, b: Matrix, c: Matrix, n: nat, i: nat, j: nat) returns (c': Matrix)
    requires n <= MaxDim && IsSumMatrix(a, n) && IsProductMatrix(b, n) && Square(c, n)
    requires i < n && j < n && c[i][j] == 0
    ensures Square(c', n)
    ensures c'[i][j] as int == Dot(a, b, n, i, j, n)
    ensures forall r, s :: 0 <= r < n && 0 <= s < n && (r != i || s != j) ==> c'[r][s] == c[r][s]
  {
    c' := c;
    for k := 0 to n
      invariant Square(c', n)
      invariant c'[i][j] as int == Dot(a, b, n, i, j, k)
      invariant forall r, s :: 0 <= r < n && 0 <= s < n && (r != i || s != j) ==> c'[r][s] == c[r][s]
    {
      DotOfInit(a, b, n, i, j, k + 1);
      SumsFit(i, j, k + 1);
      TermBound(i, k, j);
      c' := c'[i := c'[i][j := c'[i][j] + a[i][k] * b[k][j]]];
    }
  }

  /** The `i` and `j` loops over a zeroed result: afterwards every cell holds its row-by-column sum. */
  method MultiplySimple(a: Matrix, b: Matrix, c: Matrix, n: nat) returns (c': Matrix)
    requires n <= MaxDim && IsSumMatrix(a, n) && IsProductMatrix(b, n) && IsZero(c, n)
    ensures Square(c', n)
    ensures forall r, s :: 0 <= r < n && 0 <= s < n ==> HoldsDot(c', a, b, n, r, s)
  {
    c' := c;
    for i := 0 to n
      invariant Square(c', n)
      invariant forall r, s :: 0 <= r < i && 0 <= s < n ==> HoldsDot(c', a, b, n, r, s)
      invariant forall r, s :: i <= r < n && 0 <= s < n ==> c'[r][s] == 0
    {
      for j := 0 to n
        invariant Square(c', n)
        invariant forall r, s :: 0 <= r < i && 0 <= s < n ==> HoldsDot(c', a, b, n, r, s)
        invariant forall s :: 0 <= s < j ==> HoldsDot(c', a, b, n, i, s)
        invariant forall r, s :: i <= r < n && 0 <= s < n && (r != i || s >= j) ==> c'[r][s] == 0
      {
        var before := c';
        c' := AccumulateCell(a, b, c', n, i, j);
        forall r, s | 0 <= r < n && 0 <= s < n && (r < i || (r == i && s < j))
          ensures HoldsDot(c', a, b, n, r, s)
        {
          assert c'[r][s] == before[r][s];
          assert HoldsDot(before, a, b, n, r, s);
        }
      }
    }
  }

  /**
   * The whole program: initialise, multiply. Every cell ends up as the closed-form sum, and the
   * largest, at `(63, 63)`, is 13,378,176.
   */
  method MultiplyProgram() returns (a: Matrix, b: Matrix, c: Matrix)
    ensures IsSumMatrix(a, Size) && IsProductMatrix(b, Size) && Square(c, Size)
    ensures forall r, s :: 0 <= r < Size && 0 <= s < Size ==> c[r][s] as int == InitDot(r, s, Size)
    ensures c[Size - 1][Size - 1] == 13_378_176
  {
    a, b := InitOperands(Size);
    var zero := ZeroMatrix(Size);
    c := MultiplySimple(a, b, zero, Size);
    forall r, s | 0 <= r < Size && 0 <= s < Size
      ensures c[r][s] as int == InitDot(r, s, Size)
    {
      assert HoldsDot(c, a, b, Size, r, s);
      DotOfInit(a, b, Size, r, s, Size);
    }
    InitDotClosedForm(Size - 1, Size - 1, Size);
  }

  /** No partial sum of the program exceeds the final value of the last cell, so none overflows an `int`. */
  lemma PartialSumsBounded(r: nat, s: nat, len: nat)
    requires r < Size && s < Size && len <= Size
    ensures 0 <= InitDot(r, s, len) <= InitDot(Size - 1, Size - 1, Size) == 13_378_176
  {
    InitDotBound(r, s, len);
    InitDotMonotone(r, s, len, Size - 1, Size - 1, Size);
    InitDotClosedForm(Size - 1, Size - 1, Size);
  }
}
