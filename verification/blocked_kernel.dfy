/**
 * The tiled kernel: `DIM x DIM` operands initialised to `i + j` and `i * j`, a zeroed result,
 * and four tile loops around a `double` dot product whose value is cast back to `int`. The tile
 * extents come from `Tiling.Extent`; the model needs the inner loops clamped to `dim`, or `block`
 * dividing `dim`, for every index to stay inside the arrays.
 */
module BlockedKernel {
  import opened Matrices
  import opened Tiling
  import SimpleKernel

  /** `DIM` and `BLOCK_SIZE`. */
  const Dim: nat := 100
  const BlockSize: nat := 40

  /** The initialised operands of size `n`. */
  predicate Operands(src1: Matrix, src2: Matrix, n: nat) {
    n <= MaxDim && IsSumMatrix(src1, n) && IsProductMatrix(src2, n)
  }

  /**
   * The `dot` loop and the cast: the `double` accumulator is modelled as an integer, which it
   * equals because every partial sum it takes is an integer below `2^53`; the cast back to `int`
   * loses nothing because the total is below `2^31`.
   */
  method DotProduct(src1: Matrix, src2: Matrix, n: nat, r: nat, c: nat) returns (v: Int32)
    requires Operands(src1, src2, n) && r < n && c < n
    ensures v as int == Dot(src1, src2, n, r, c, n)
    ensures forall len :: 0 <= len <= n ==> 0 <= Dot(src1, src2, n, r, c, len) < 0x20_0000_0000_0000
  {
    var result: int := 0;
    for dot := 0 to n
      invariant result == Dot(src1, src2, n, r, c, dot)
    {
      result := result + src1[r][dot] as int * src2[dot][c] as int;
    }
    forall len | 0 <= len <= n
      ensures 0 <= Dot(src1, src2, n, r, c, len) < 0x20_0000_0000_0000
    {
      DotOfInit(src1, src2, n, r, c, len);
      SumsFit(r, c, len);
    }
    DotOfInit(src1, src2, n, r, c, n);
    SumsFit(r, c, n);
    v := result as Int32;
  }

  /** The `blockCol` loop for one `blockRow`: fills `tmp[r][clo..chi)` and nothing else. */
  method FillSegment(src1: Matrix, src2: Matrix, tmp: Matrix, n: nat, r: nat, clo: nat, chi: nat)
    returns (tmp': Matrix, visited: seq<Cell>)
    requires Operands(src1, src2, n) && Square(tmp, n) && r < n && clo <= chi <= n
    ensures Square(tmp', n) && visited == Segment(r, clo, chi)
    ensures forall s :: clo <= s < chi ==> HoldsDot(tmp', src1, src2, n, r, s)
    ensures forall p, s :: 0 <= p < n && 0 <= s < n && !(p == r && clo <= s < chi) ==> tmp'[p][s] == tmp[p][s]
  {
    tmp', visited := tmp, [];
    for blockCol := clo to chi
      invariant Square(tmp', n)
      invariant visited + Segment(r, blockCol, chi) == Segment(r, clo, chi)
      invariant forall s :: clo <= s < blockCol ==> HoldsDot(tmp', src1, src2, n, r, s)
      invariant forall p, s :: 0 <= p < n && 0 <= s < n && !(p == r && clo <= s < blockCol) ==> tmp'[p][s] == tmp[p][s]
    {
      var v := DotProduct(src1, src2, n, r, blockCol);
      var before := tmp';
      tmp' := tmp'[r := tmp'[r][blockCol := v]];
      forall s | clo <= s < blockCol
        ensures HoldsDot(tmp', src1, src2, n, r, s)
      {
        assert tmp'[r][s] == before[r][s];
        assert HoldsDot(before, src1, src2, n, r, s);
      }
      assert Segment(r, blockCol, chi) == [Cell(r, blockCol)] + Segment(r, blockCol + 1, chi);
      Reassociate(visited, [Cell(r, blockCol)], Segment(r, blockCol + 1, chi), Segment(r, clo, chi));
      visited := visited + [Cell(r, blockCol)];
    }
  }

  /** The `blockRow` loop over one tile: fills the rectangle `[rlo, rhi) x [clo, chi)` and nothing else. */
  method FillTile(src1: Matrix, src2: Matrix, tmp: Matrix, n: nat, rlo: nat, rhi: nat, clo: nat, chi: nat)
    returns (tmp': Matrix, visited: seq<Cell>)
    requires Operands(src1, src2, n) && Square(tmp, n) && rlo <= rhi <= n && clo <= chi <= n
    ensures Square(tmp', n) && visited == Tile(rlo, rhi, clo, chi)
    ensures forall p, s :: rlo <= p < rhi && clo <= s < chi ==> HoldsDot(tmp', src1, src2, n, p, s)
    ensures forall p, s :: 0 <= p < n && 0 <= s < n && !(rlo <= p < rhi && clo <= s < chi) ==> tmp'[p][s] == tmp[p][s]
  {
    tmp', visited := tmp, [];
    for blockRow := rlo to rhi
      invariant Square(tmp', n)
      invariant visited + Tile(blockRow, rhi, clo, chi) == Tile(rlo, rhi, clo, chi)
      invariant forall p, s :: rlo <= p < blockRow && clo <= s < chi ==> HoldsDot(tmp', src1, src2, n, p, s)
      invariant forall p, s :: 0 <= p < n && 0 <= s < n && !(rlo <= p < blockRow && clo <= s < chi) ==> tmp'[p][s] == tmp[p][s]
    {
      var before := tmp';
      var row;
      tmp', row := FillSegment(src1, src2, tmp', n, blockRow, clo, chi);
      forall p, s | rlo <= p < blockRow && clo <= s < chi
        ensures HoldsDot(tmp', src1, src2, n, p, s)
      {
        assert tmp'[p][s] == before[p][s];
        assert HoldsDot(before, src1, src2, n, p, s);
      }
      assert Tile(blockRow, rhi, clo, chi) == row + Tile(blockRow + 1, rhi, clo, chi);
      Reassociate(visited, row, Tile(blockRow + 1, rhi, clo, chi), Tile(rlo, rhi, clo, chi));
      visited := visited + row;
    }
  }

  /** The `col` loop for one row band `[rlo, rhi)`: fills every column of the band and nothing else. */
  method FillBand(src1: Matrix, src2: Matrix, tmp: Matrix, n: nat, rlo: nat, rhi: nat, block: nat, clamp: bool)
    returns (tmp': Matrix, visited: seq<Cell>)
    requires Operands(src1, src2, n) && Square(tmp, n) && rlo <= rhi <= n
    requires block > 0 && (clamp || n % block == 0)
    ensures Square(tmp', n) && visited == Band(rlo, rhi, 0, n, block, clamp)
    ensures forall p, s :: rlo <= p < rhi && 0 <= s < n ==> HoldsDot(tmp', src1, src2, n, p, s)
    ensures forall p, s :: 0 <= p < n && 0 <= s < n && !(rlo <= p < rhi) ==> tmp'[p][s] == tmp[p][s]
  {
    tmp', visited := tmp, [];
    var col: nat := 0;
    while col < n
      invariant Square(tmp', n) && col % block == 0
      invariant visited + Band(rlo, rhi, col, n, block, clamp) == Band(rlo, rhi, 0, n, block, clamp)
      invariant forall p, s :: rlo <= p < rhi && 0 <= s < n && s < col ==> HoldsDot(tmp', src1, src2, n, p, s)
      invariant forall p, s :: 0 <= p < n && 0 <= s < n && !(rlo <= p < rhi && s < col) ==> tmp'[p][s] == tmp[p][s]
      decreases n - col
    {
      var chi := Extent(col, n, block, clamp);
      ExtentWithin(col, n, block, clamp);
      var before := tmp';
      var tile;
      tmp', tile := FillTile(src1, src2, tmp', n, rlo, rhi, col, chi);
      assert Band(rlo, rhi, col, n, block, clamp) == tile + Band(rlo, rhi, col + block, n, block, clamp);
      Reassociate(visited, tile, Band(rlo, rhi, col + block, n, block, clamp), Band(rlo, rhi, 0, n, block, clamp));
      forall p, s | rlo <= p < rhi && 0 <= s < n && s < col
        ensures HoldsDot(tmp', src1, src2, n, p, s)
      {
        assert tmp'[p][s] == before[p][s];
        assert HoldsDot(before, src1, src2, n, p, s);
      }
      visited := visited + tile;
      ModStep(col, block);
      col := col + block;
    }
  }

  /** The four tile loops: afterwards every cell holds its row-by-column sum, and the loops reached exactly the cells of `Visits`. */
  method TiledMultiply(src1: Matrix, src2: Matrix, tmp: Matrix, n: nat, block: nat, clamp: bool)
    returns (tmp': Matrix, visited: seq<Cell>)
    requires Operands(src1, src2, n) && Square(tmp, n)
    requires block > 0 && (clamp || n % block == 0)
    ensures Square(tmp', n) && visited == Visits(n, block, clamp)
    ensures forall p, s :: 0 <= p < n && 0 <= s < n ==> HoldsDot(tmp', src1, src2, n, p, s)
  {
    tmp', visited := tmp, [];
    var row: nat := 0;
    while row < n
      invariant Square(tmp', n) && row % block == 0
      invariant visited + VisitsFrom(row, n, block, clamp) == VisitsFrom(0, n, block, clamp)
      invariant forall p, s :: 0 <= p < n && p < row && 0 <= s < n ==> HoldsDot(tmp', src1, src2, n, p, s)
      decreases n - row
    {
      var rhi := Extent(row, n, block, clamp);
      ExtentWithin(row, n, block, clamp);
      var before := tmp';
      var band;
      tmp', band := FillBand(src1, src2, tmp', n, row, rhi, block, clamp);
      assert VisitsFrom(row, n, block, clamp) == band + VisitsFrom(row + block, n, block, clamp);
      Reassociate(visited, band, VisitsFrom(row + block, n, block, clamp), VisitsFrom(0, n, block, clamp));
      forall p, s | 0 <= p < n && p < row && 0 <= s < n
        ensures HoldsDot(tmp', src1, src2, n, p, s)
      {
        assert tmp'[p][s] == before[p][s];
        assert HoldsDot(before, src1, src2, n, p, s);
      }
      visited := visited + band;
      ModStep(row, block);
      row := row + block;
    }
  }

  /**
   * Initialise, then multiply with the inner tile loops clamped: every cell ends up as the
   * closed-form sum, and the loops reach each cell exactly once.
   */
  method RunClamped(n: nat, block: nat) returns (src1: Matrix, src2: Matrix, tmp: Matrix, visited: seq<Cell>)
    requires n <= MaxDim && block > 0
    ensures IsSumMatrix(src1, n) && IsProductMatrix(src2, n) && Square(tmp, n)
    ensures forall p, s :: 0 <= p < n && 0 <= s < n ==> tmp[p][s] as int == InitDot(p, s, n)
    ensures forall x :: multiset(visited)[x] == if 0 <= x.row < n && 0 <= x.col < n then 1 else 0
  {
    src1, src2 := InitOperands(n);
    var zero := ZeroMatrix(n);
    tmp, visited := TiledMultiply(src1, src2, zero, n, block, true);
    forall p, s | 0 <= p < n && 0 <= s < n
      ensures tmp[p][s] as int == InitDot(p, s, n)
    {
      assert HoldsDot(tmp, src1, src2, n, p, s);
      DotOfInit(src1, src2, n, p, s, n);
    }
    forall x
      ensures multiset(visited)[x] == if 0 <= x.row < n && 0 <= x.col < n then 1 else 0
    {
      CoversMatrixOnce(n, block, true, x);
    }
  }

  /** The program itself: `DIM == 100`, `BLOCK_SIZE == 40`, with the clamp the inner loops need. */
  method BlockedProgram() returns (src1: Matrix, src2: Matrix, tmp: Matrix, visited: seq<Cell>)
    ensures IsSumMatrix(src1, Dim) && IsProductMatrix(src2, Dim) && Square(tmp, Dim)
    ensures forall p, s :: 0 <= p < Dim && 0 <= s < Dim ==> tmp[p][s] as int == InitDot(p, s, Dim)
    ensures forall x :: multiset(visited)[x] == if 0 <= x.row < Dim && 0 <= x.col < Dim then 1 else 0
  {
    src1, src2, tmp, visited := RunClamped(Dim, BlockSize);
  }

  /** Tiling does not change the result: the tiled and the straightforward kernel agree cell for cell. */
  method TiledMatchesUntiled(n: nat, block: nat, clamp: bool) returns (untiled: Matrix, tiled: Matrix)
    requires n <= MaxDim && block > 0 && (clamp || n % block == 0)
    ensures Square(tiled, n) && tiled == untiled
  {
    var src1, src2 := InitOperands(n);
    var zero := ZeroMatrix(n);
    untiled := SimpleKernel.MultiplySimple(src1, src2, zero, n);
    var visited;
    tiled, visited := TiledMultiply(src1, src2, zero, n, block, clamp);
    forall p | 0 <= p < n
      ensures tiled[p] == untiled[p]
    {
      forall s | 0 <= s < n
        ensures tiled[p][s] == untiled[p][s]
      {
        assert HoldsDot(tiled, src1, src2, n, p, s) && HoldsDot(untiled, src1, src2, n, p, s);
      }
    }
  }
}
