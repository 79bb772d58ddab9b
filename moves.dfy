/** The move rule of the puzzle: the axis test of `legal_move` and the
    integer distance of `get_distance`, which `update` applies one after the
    other. */
module Moves {
  import opened Board

  /** `legal_move`: the clicked cell and the blank agree on at least one
      coordinate, that is, they lie on a common row or a common column. */
  function LegalMove(clicked: Coord, blank: Coord): (r: bool)
    ensures clicked == blank ==> r
    ensures Adjacent(clicked, blank) ==> r
  {
    clicked.row == blank.row || clicked.col == blank.col
  }

  function Abs(x: int): nat {
    if x < 0 then -x else x
  }

  /** The integer square root, rounded down. */
  function FloorSqrt(n: nat): (r: nat)
    ensures r * r <= n < (r + 1) * (r + 1)
  {
    if n == 0 then 0
    else
      var r := FloorSqrt(n - 1);
      if (r + 1) * (r + 1) <= n then r + 1 else r
  }

  /** `get_distance`: the Euclidean distance between two coordinates,
      truncated to an integer. */
  function Distance(a: Coord, b: Coord): (r: nat)
    ensures var dr, dc := Abs(a.row - b.row), Abs(a.col - b.col);
      r * r <= dr * dr + dc * dc < (r + 1) * (r + 1)
    ensures a == b ==> r == 0
  {
    var dr, dc := Abs(a.row - b.row), Abs(a.col - b.col);
    FloorSqrt(dr * dr + dc * dc)
  }

  /** Orthogonal adjacency: Manhattan distance exactly 1. */
  predicate Adjacent(a: Coord, b: Coord) {
    Abs(a.row - b.row) + Abs(a.col - b.col) == 1
  }

  /** Squaring is monotone on naturals. */
  lemma SquareMonotone(a: nat, b: nat)
    ensures a <= b ==> a * a <= b * b
  {
    if a <= b {
      assert a * a <= a * b <= b * b;
    }
  }

  /** The floor square root of a perfect square is its root. */
  lemma FloorSqrtOfSquare(d: nat)
    ensures FloorSqrt(d * d) == d
  {
    var r := FloorSqrt(d * d);
    SquareMonotone(r + 1, d);
    SquareMonotone(d + 1, r);
  }

  /** The axis test alone also accepts aligned cells further away, and
      rejects the opposite corners (0, 0) and (3, 3). */
  lemma LegalMoveExamples()
    ensures LegalMove(Coord(0, 0), Coord(0, 3))
    ensures LegalMove(Coord(3, 0), Coord(0, 0))
    ensures !LegalMove(Coord(0, 0), Coord(3, 3))
  {
  }

  /** Two cells on a common row are as far apart as their columns. */
  lemma DistanceAlongRow(a: Coord, b: Coord)
    requires a.row == b.row
    ensures Distance(a, b) == Abs(a.col - b.col)
  {
    var d := Abs(a.col - b.col);
    assert Distance(a, b) == FloorSqrt(0 * 0 + d * d);
    FloorSqrtOfSquare(d);
  }

  /** Two cells on a common column are as far apart as their rows. */
  lemma DistanceAlongColumn(a: Coord, b: Coord)
    requires a.col == b.col
    ensures Distance(a, b) == Abs(a.row - b.row)
  {
    var d := Abs(a.row - b.row);
    assert Distance(a, b) == FloorSqrt(d * d + 0 * 0);
    FloorSqrtOfSquare(d);
  }

  /** For aligned coordinates the distance is the difference along the other
      axis. */
  lemma DistanceAligned(a: Coord, b: Coord)
    requires LegalMove(a, b)
    ensures a.row == b.row ==> Distance(a, b) == Abs(a.col - b.col)
    ensures a.col == b.col ==> Distance(a, b) == Abs(a.row - b.row)
  {
    if a.row == b.row {
      DistanceAlongRow(a, b);
    }
    if a.col == b.col {
      DistanceAlongColumn(a, b);
    }
  }

  /** The distance of (0, 0) and (3, 0) is 3. */
  lemma DistanceExample()
    ensures Distance(Coord(0, 0), Coord(3, 0)) == 3
  {
    DistanceAligned(Coord(0, 0), Coord(3, 0));
  }

  /** The distance alone does not rule out diagonal neighbours: the truncated
      distance of two diagonal neighbours is 1, and only the axis test rejects
      them. */
  lemma DistanceOfDiagonal(a: Coord, b: Coord)
    requires Abs(a.row - b.row) == 1 && Abs(a.col - b.col) == 1
    ensures Distance(a, b) == 1 && !LegalMove(a, b)
  {
    assert Distance(a, b) == FloorSqrt(2);
    SquareMonotone(2, FloorSqrt(2));
  }

  /** The two checks `update` performs, taken together, accept exactly the
      orthogonal neighbours of the blank. */
  lemma MoveRuleIsAdjacency(clicked: Coord, blank: Coord)
    ensures LegalMove(clicked, blank) && Distance(clicked, blank) == 1 <==> Adjacent(clicked, blank)
  {
    if LegalMove(clicked, blank) {
      DistanceAligned(clicked, blank);
    }
    if Adjacent(clicked, blank) {
      assert LegalMove(clicked, blank);
      DistanceAligned(clicked, blank);
    }
  }

  /** Adjacency is symmetric. */
  lemma AdjacentSymmetric(a: Coord, b: Coord)
    ensures Adjacent(a, b) <==> Adjacent(b, a)
  {
  }
}
