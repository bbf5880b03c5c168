/**
 * The iteration space of the four tile loops of the blocked kernel:
 *
 *   for row from 0 while row < dim, step block
 *     for col from 0 while col < dim, step block
 *       for blockRow from row while blockRow < end(row)
 *         for blockCol from col while blockCol < end(col)
 *
 * where `end(s)` is `s + block` as written, or `min(s + block, dim)` when the inner loops are
 * clamped. The cells are listed in the order the loops reach them.
 */
module Tiling {

  /** A (row, column) position in the result matrix. */
  datatype Cell = Cell(row: int, col: int)

  /** One past the last index of the tile starting at `start`. */
  function Extent(start: int, dim: int, block: int, clamp: bool): int {
    if clamp && dim < start + block then dim else start + block
  }

  /** The first tile start at or above `dim` in `from, from + block, from + 2 * block, ...`. */
  function Reach(from: int, dim: int, block: int): int
    requires block > 0
    decreases dim - from
  {
    if from >= dim then from else Reach(from + block, dim, block)
  }

  /** One past the largest index the tiles starting at `from, from + block, ...` reach on one axis. */
  function AxisEnd(from: int, dim: int, block: int, clamp: bool): int
    requires block > 0
  {
    if from >= dim then from else if clamp then dim else Reach(from, dim, block)
  }

  // ---------------------------------------------------------------------------
  // The visit order.
  // ---------------------------------------------------------------------------

  /** `blockCol` running over `[lo, hi)` for a fixed `blockRow == r`. */
  function Segment(r: int, lo: int, hi: int): seq<Cell>
    decreases hi - lo
  {
    if hi <= lo then [] else [Cell(r, lo)] + Segment(r, lo + 1, hi)
  }

  /** The two inner loops over one tile: rows `[rlo, rhi)`, columns `[clo, chi)`. */
  function Tile(rlo: int, rhi: int, clo: int, chi: int): seq<Cell>
    decreases rhi - rlo
  {
    if rhi <= rlo then [] else Segment(rlo, clo, chi) + Tile(rlo + 1, rhi, clo, chi)
  }

  /** The column-tile loop from `col == from` on, for the row band `[rlo, rhi)`. */
  function Band(rlo: int, rhi: int, from: int, dim: int, block: int, clamp: bool): seq<Cell>
    requires block > 0
    decreases dim - from
  {
    if from >= dim then []
    else Tile(rlo, rhi, from, Extent(from, dim, block, clamp)) + Band(rlo, rhi, from + block, dim, block, clamp)
  }

  /** The row-tile loop from `row == from` on. */
  function VisitsFrom(from: int, dim: int, block: int, clamp: bool): seq<Cell>
    requires block > 0
    decreases dim - from
  {
    if from >= dim then []
    else Band(from, Extent(from, dim, block, clamp), 0, dim, block, clamp) + VisitsFrom(from + block, dim, block, clamp)
  }

  /** Every cell the four tile loops reach, in order. */
  function Visits(dim: int, block: int, clamp: bool): (v: seq<Cell>)
    requires block > 0
    ensures v == [] <==> dim <= 0
    ensures dim > 0 ==> v[0] == Cell(0, 0)
  {
    FirstVisit(dim, block, clamp);
    VisitsFrom(0, dim, block, clamp)
  }

  /** The loops run at all only when `dim > 0`, and then they start at the origin. */
  lemma FirstVisit(dim: int, block: int, clamp: bool)
    requires block > 0
    ensures VisitsFrom(0, dim, block, clamp) == [] <==> dim <= 0
    ensures dim > 0 ==> VisitsFrom(0, dim, block, clamp)[0] == Cell(0, 0)
  {
    if dim > 0 {
      var e := Extent(0, dim, block, clamp);
      assert Segment(0, 0, e) == [Cell(0, 0)] + Segment(0, 1, e);
      assert Tile(0, e, 0, e)[0] == Cell(0, 0);
      assert Band(0, e, 0, dim, block, clamp)[0] == Cell(0, 0);
    }
  }

  /** No cell is listed twice. */
  predicate Distinct(s: seq<Cell>) {
    forall p, q :: 0 <= p < q < |s| ==> s[p] != s[q]
  }

  // ---------------------------------------------------------------------------
  // Generic facts about lists of cells.
  // ---------------------------------------------------------------------------

  /** Moving the middle part of a list of cells from the back onto the front. */
  lemma Reassociate(a: seq<Cell>, b: seq<Cell>, c: seq<Cell>, whole: seq<Cell>)
    requires a + (b + c) == whole
    ensures (a + b) + c == whole
  {
  }

  lemma DistinctConcat(a: seq<Cell>, b: seq<Cell>)
    requires Distinct(a) && Distinct(b)
    requires forall x :: x in a ==> x !in b
    ensures Distinct(a + b)
  {
    var s := a + b;
    forall p, q | 0 <= p < q < |s|
      ensures s[p] != s[q]
    {
      if q < |a| {
        assert s[p] == a[p] && s[q] == a[q];
      } else if p >= |a| {
        assert s[p] == b[p - |a|] && s[q] == b[q - |a|];
      } else {
        assert s[p] == a[p] && s[q] == b[q - |a|];
        assert s[p] in a && s[q] in b;
      }
    }
  }

  /** In a list without repetitions a listed cell occurs exactly once. */
  lemma {:induction false} DistinctCount(s: seq<Cell>, x: Cell)
    requires Distinct(s)
    ensures multiset(s)[x] == if x in s then 1 else 0
  {
    if s != [] {
      var rest := s[1..];
      assert s == [s[0]] + rest;
      assert Distinct(rest) by {
        forall p, q | 0 <= p < q < |rest|
          ensures rest[p] != rest[q]
        {
          assert rest[p] == s[p + 1] && rest[q] == s[q + 1];
        }
      }
      DistinctCount(rest, x);
      assert s[0] !in rest by {
        forall q | 0 <= q < |rest|
          ensures rest[q] != s[0]
        {
          assert rest[q] == s[q + 1];
        }
      }
      assert multiset(s) == multiset{s[0]} + multiset(rest);
    }
  }

  // ---------------------------------------------------------------------------
  // What each loop level covers.
  // ---------------------------------------------------------------------------

  lemma {:induction false} SegmentCovers(r: int, lo: int, hi: int)
    ensures forall x :: x in Segment(r, lo, hi) <==> x.row == r && lo <= x.col < hi
    ensures Distinct(Segment(r, lo, hi))
    decreases hi - lo
  {
    if lo < hi {
      SegmentCovers(r, lo + 1, hi);
      DistinctConcat([Cell(r, lo)], Segment(r, lo + 1, hi));
    }
  }

  lemma {:induction false} TileCovers(rlo: int, rhi: int, clo: int, chi: int)
    ensures forall x :: x in Tile(rlo, rhi, clo, chi) <==> rlo <= x.row < rhi && clo <= x.col < chi
    ensures Distinct(Tile(rlo, rhi, clo, chi))
    decreases rhi - rlo
  {
    if rlo < rhi {
      SegmentCovers(rlo, clo, chi);
      TileCovers(rlo + 1, rhi, clo, chi);
      DistinctConcat(Segment(rlo, clo, chi), Tile(rlo + 1, rhi, clo, chi));
    }
  }

  lemma {:induction false} ReachAtLeast(from: int, dim: int, block: int)
    requires block > 0
    ensures Reach(from, dim, block) >= from
    decreases dim - from
  {
    if from < dim {
      ReachAtLeast(from + block, dim, block);
    }
  }

  /**
   * One step of a tile loop: the tile at `from` ends no later than the next start, and either the
   * loop stops there or the remaining tiles carry the axis on to its end.
   */
  lemma AxisStep(from: int, dim: int, block: int, clamp: bool)
    requires block > 0 && from < dim
    ensures from < Extent(from, dim, block, clamp) <= from + block <= AxisEnd(from + block, dim, block, clamp)
    ensures AxisEnd(from + block, dim, block, clamp) == from + block ==> AxisEnd(from, dim, block, clamp) == Extent(from, dim, block, clamp)
    ensures AxisEnd(from + block, dim, block, clamp) != from + block ==>
              Extent(from, dim, block, clamp) == from + block && AxisEnd(from, dim, block, clamp) == AxisEnd(from + block, dim, block, clamp)
  {
    ReachAtLeast(from + block, dim, block);
  }

  lemma {:induction false} BandCovers(rlo: int, rhi: int, from: int, dim: int, block: int, clamp: bool)
    requires block > 0
    ensures forall x :: x in Band(rlo, rhi, from, dim, block, clamp) <==>
              rlo <= x.row < rhi && from <= x.col < AxisEnd(from, dim, block, clamp)
    ensures Distinct(Band(rlo, rhi, from, dim, block, clamp))
    decreases dim - from
  {
    if from < dim {
      var e := Extent(from, dim, block, clamp);
      AxisStep(from, dim, block, clamp);
      TileCovers(rlo, rhi, from, e);
      BandCovers(rlo, rhi, from + block, dim, block, clamp);
      DistinctConcat(Tile(rlo, rhi, from, e), Band(rlo, rhi, from + block, dim, block, clamp));
    }
  }

  lemma {:induction false} VisitsFromCovers(from: int, dim: int, block: int, clamp: bool)
    requires block > 0
    ensures forall x :: x in VisitsFrom(from, dim, block, clamp) <==>
              from <= x.row < AxisEnd(from, dim, block, clamp) && 0 <= x.col < AxisEnd(0, dim, block, clamp)
    ensures Distinct(VisitsFrom(from, dim, block, clamp))
    decreases dim - from
  {
    if from < dim {
      var e := Extent(from, dim, block, clamp);
      AxisStep(from, dim, block, clamp);
      BandCovers(from, e, 0, dim, block, clamp);
      VisitsFromCovers(from + block, dim, block, clamp);
      DistinctConcat(Band(from, e, 0, dim, block, clamp), VisitsFrom(from + block, dim, block, clamp));
    }
  }

  /** The tile loops reach each cell of the square `[0, AxisEnd)²` exactly once, and nothing else. */
  lemma VisitsExactlyOnce(dim: int, block: int, clamp: bool, x: Cell)
    requires block > 0
    ensures var end := AxisEnd(0, dim, block, clamp);
      multiset(Visits(dim, block, clamp))[x] == if 0 <= x.row < end && 0 <= x.col < end then 1 else 0
  {
    VisitsFromCovers(0, dim, block, clamp);
    DistinctCount(Visits(dim, block, clamp), x);
  }

  // ---------------------------------------------------------------------------
  // Where one axis ends.
  // ---------------------------------------------------------------------------

  /** Euclidean division has one quotient and one remainder. */
  lemma DivModUnique(a: int, b: int, q: int, r: int)
    requires b > 0 && 0 <= r < b && a == b * q + r
    ensures a / b == q && a % b == r
  {
    var q', r' := a / b, a % b;
    assert a == b * q' + r' && 0 <= r' < b;
    if q != q' {
      var d := q - q';
      assert b * d == r' - r by {
        assert b * q == b * q' + b * d;
      }
      if d > 0 {
        AtLeastOnce(b, d);
      } else {
        AtLeastOnce(b, -d);
      }
    }
  }

  lemma AtLeastOnce(b: int, d: int)
    requires b > 0 && d > 0
    ensures b * d >= b
  {
    assert b * d == b * (d - 1) + b;
  }

  lemma ModStep(x: int, b: int)
    requires b > 0
    ensures (x + b) % b == x % b
  {
    DivModUnique(x + b, b, x / b + 1, x % b);
  }

  lemma {:induction false} ReachBounds(from: int, dim: int, block: int)
    requires block > 0
    ensures from < dim ==> dim <= Reach(from, dim, block) < dim + block
    ensures Reach(from, dim, block) % block == from % block
    decreases dim - from
  {
    if from < dim {
      ReachBounds(from + block, dim, block);
      ModStep(from, block);
    }
  }

  /** Clamped, the loops end exactly at `dim`. */
  lemma ClampedEnd(dim: int, block: int)
    requires block > 0 && dim >= 0
    ensures AxisEnd(0, dim, block, true) == dim
  {
  }

  /** As written, the loops end at `dim` exactly when `block` divides `dim`. */
  lemma AsWrittenEnd(dim: int, block: int)
    requires block > 0 && dim >= 0
    ensures AxisEnd(0, dim, block, false) == dim <==> dim % block == 0
    ensures AxisEnd(0, dim, block, false) >= dim
  {
    if dim > 0 {
      ReachBounds(0, dim, block);
      var r := Reach(0, dim, block);
      if dim % block == 0 && r != dim {
        DivModUnique(r, block, dim / block, r - dim);
      }
    }
  }

  /** As written, every cell the loops reach lies inside the matrix exactly when `block` divides `dim`. */
  lemma AsWrittenInBounds(dim: int, block: int)
    requires block > 0 && dim >= 0
    ensures (forall x :: x in Visits(dim, block, false) ==> 0 <= x.row < dim && 0 <= x.col < dim) <==> dim % block == 0
  {
    var end := AxisEnd(0, dim, block, false);
    VisitsFromCovers(0, dim, block, false);
    AsWrittenEnd(dim, block);
    if end != dim {
      assert Cell(end - 1, end - 1) in Visits(dim, block, false);
    }
  }

  /** Clamped, or with `block` dividing `dim`, the loops reach each cell of the matrix exactly once. */
  lemma CoversMatrixOnce(dim: int, block: int, clamp: bool, x: Cell)
    requires block > 0 && dim >= 0
    requires clamp || dim % block == 0
    ensures multiset(Visits(dim, block, clamp))[x] == if 0 <= x.row < dim && 0 <= x.col < dim then 1 else 0
  {
    VisitsExactlyOnce(dim, block, clamp, x);
    if clamp {
      ClampedEnd(dim, block);
    } else {
      AsWrittenEnd(dim, block);
    }
  }

  /**
   * A tile starting inside the matrix ends inside it: always when clamped, and as written when
   * `block` divides both the start and `dim`. Either way it ends at `min(start + block, dim)`.
   */
  lemma ExtentWithin(start: int, dim: int, block: int, clamp: bool)
    requires block > 0 && 0 <= start < dim
    requires clamp || (start % block == 0 && dim % block == 0)
    ensures start < Extent(start, dim, block, clamp) <= dim
    ensures Extent(start, dim, block, clamp) == if start + block <= dim then start + block else dim
  {
    if !clamp {
      var d := dim / block - start / block;
      assert dim - start == block * d by {
        assert dim == block * (dim / block) && start == block * (start / block);
      }
      AtLeastOnce(block, d);
    }
  }

  /** When anything is visited, the far corner of the visited square is. */
  lemma LastCellVisited(dim: int, block: int, clamp: bool)
    requires block > 0 && dim > 0
    ensures Cell(AxisEnd(0, dim, block, clamp) - 1, AxisEnd(0, dim, block, clamp) - 1) in Visits(dim, block, clamp)
  {
    VisitsFromCovers(0, dim, block, clamp);
    if !clamp {
      ReachBounds(0, dim, block);
    }
  }

  /** With `dim == 100` and `block == 40` the unclamped loops run rows and columns up to 119. */
  lemma AsWrittenOverrun(dim: int, block: int)
    requires dim == 100 && block == 40
    ensures AxisEnd(0, dim, block, false) == 120
    ensures Cell(119, 119) in Visits(dim, block, false)
  {
    assert Reach(120, dim, block) == 120;
    assert Reach(80, dim, block) == 120;
    assert Reach(40, dim, block) == 120;
    LastCellVisited(dim, block, false);
  }
}
