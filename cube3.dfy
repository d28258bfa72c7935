/// The 3x3x3 cube: eight corners and twelve edges, turned one move at a time
/// (`norcina-cube3/src/cube.rs`).
module Cube3 {
  import opened Faces
  import opened CubeMoves
  import CubeCorners
  import CubeEdges

  /// `Cube`: the piece in every corner slot and every edge slot.
  datatype Cube = Cube(corners: seq<CubeCorners.Corner>, edges: seq<CubeEdges.Edge>) {
    /// The fixed array lengths of the source.
    predicate Valid() {
      |corners| == 8 && |edges| == 12
    }
  }

  /// `Cube::SOLVED`.
  const SOLVED: Cube := Cube(CubeCorners.SOLVED_CORNERS, CubeEdges.SOLVED_EDGES)

  /// `mov_single`: both kinds of pieces move by the same face turn.
  function MovSingle(cube: Cube, mov: Move): (r: Cube)
    requires cube.Valid()
    ensures r.Valid()
  {
    Cube(CubeCorners.MovePieces(cube.corners, mov), CubeEdges.MovePieces(cube.edges, mov))
  }

  /// The cube after `alg`, applied from its first move on.
  function Apply(cube: Cube, alg: seq<Move>): (r: Cube)
    requires cube.Valid()
    ensures r.Valid()
    decreases |alg|
  {
    if alg == [] then cube else Apply(MovSingle(cube, alg[0]), alg[1..])
  }

  /// `mov`: apply the moves one after another, replacing the cube each time.
  method Mov(cube: Cube, alg: seq<Move>) returns (r: Cube)
    requires cube.Valid()
    ensures r.Valid() && r == Apply(cube, alg)
  {
    r := cube;
    var i := 0;
    while i < |alg|
      invariant 0 <= i <= |alg|
      invariant r.Valid() && Apply(r, alg[i..]) == Apply(cube, alg)
    {
      assert alg[i..][1..] == alg[i + 1..];
      r := MovSingle(r, alg[i]);
      i := i + 1;
    }
  }

  /// `is_solved`.
  predicate IsSolved(cube: Cube) {
    cube == SOLVED
  }

  /// `neighbors`: each move of `Move::iter` with the cube it leads to.
  function Neighbors(cube: Cube): (r: seq<(Move, Cube)>)
    requires cube.Valid()
    ensures |r| == |Iter()|
  {
    seq(|Iter()|, i requires 0 <= i < |Iter()| => (Iter()[i], MovSingle(cube, Iter()[i])))
  }

  /// The solved cube is solved, and has the array lengths of the source.
  lemma SolvedIsSolved()
    ensures SOLVED.Valid() && IsSolved(SOLVED)
  {
  }

  /// Applying no moves leaves the cube as it is, and applying one move is
  /// `mov_single`.
  lemma ApplyShort(cube: Cube, mov: Move)
    requires cube.Valid()
    ensures Apply(cube, []) == cube
    ensures Apply(cube, [mov]) == MovSingle(cube, mov)
  {
    assert [mov][1..] == [];
  }

  /// Applying two algorithms in turn is applying their concatenation.
  lemma {:induction false} ApplyConcat(cube: Cube, a: seq<Move>, b: seq<Move>)
    requires cube.Valid()
    ensures Apply(cube, a + b) == Apply(Apply(cube, a), b)
    decreases |a|
  {
    if a != [] {
      assert (a + b)[0] == a[0];
      assert (a + b)[1..] == a[1..] + b;
      ApplyConcat(MovSingle(cube, a[0]), a[1..], b);
    } else {
      assert a + b == b;
    }
  }

  /// A move and then its inverse leave any cube as it was.
  lemma MoveThenInverse(cube: Cube, mov: Move)
    requires cube.Valid()
    ensures MovSingle(MovSingle(cube, mov), mov.Inverse()) == cube
  {
    CubeCorners.MoveThenInverse(cube.corners, mov);
    CubeEdges.MoveThenInverse(cube.edges, mov);
  }

  /// Two moves that leave the cube as it was, in `mov`'s terms.
  lemma ApplyPair(cube: Cube, m1: Move, m2: Move)
    requires cube.Valid()
    ensures Apply(cube, [m1, m2]) == MovSingle(MovSingle(cube, m1), m2)
  {
    var once := MovSingle(cube, m1);
    assert [m1, m2][0] == m1 && [m1, m2][1..] == [m2];
    assert Apply(cube, [m1, m2]) == Apply(once, [m2]);
    ApplyShort(once, m2);
  }

  /// The same half turn twice leaves any cube as it was.
  lemma DoubleTwice(cube: Cube, face: Face)
    requires cube.Valid()
    ensures Apply(cube, [NewMove(face, Double), NewMove(face, Double)]) == cube
  {
    var m := NewMove(face, Double);
    NewMoveAccessors(face, Double);
    InverseFixesHalfTurns(m);
    ApplyPair(cube, m, m);
    MoveThenInverse(cube, m);
  }

  /// A clockwise and then an anticlockwise turn of the same face leave any
  /// cube as it was.
  lemma SingleThenReverse(cube: Cube, face: Face)
    requires cube.Valid()
    ensures Apply(cube, [NewMove(face, Single), NewMove(face, Reverse)]) == cube
  {
    var m := NewMove(face, Single);
    NewMoveAccessors(face, Single);
    InverseAccessors(m);
    NewMoveAccessors(face, Reverse);
    MoveEncoding(m.Inverse(), NewMove(face, Reverse));
    ApplyPair(cube, m, NewMove(face, Reverse));
    MoveThenInverse(cube, m);
  }

  /// A quarter turn and then the half turn of the same face act as the
  /// opposite quarter turn: `R R2 == R'`.
  lemma QuarterThenHalf(cube: Cube, mov: Move)
    requires cube.Valid() && mov.Amount() != Double
    ensures MovSingle(MovSingle(cube, mov), NewMove(mov.Face(), Double)) == MovSingle(cube, mov.Inverse())
  {
    CubeCorners.QuarterThenHalf(cube.corners, mov);
    CubeEdges.QuarterThenHalf(cube.edges, mov);
  }

  /// `R R2` and `R'` give the same cube.
  lemma RThenR2(cube: Cube)
    requires cube.Valid()
    ensures Apply(cube, [CubeMoves.R, CubeMoves.R2]) == Apply(cube, [CubeMoves.RP])
  {
    RMoves();
    QuarterThenHalf(cube, CubeMoves.R);
    ApplyPair(cube, CubeMoves.R, CubeMoves.R2);
    ApplyShort(cube, CubeMoves.RP);
  }

  /// `R'` is the inverse of `R`, and `R2` the half turn of its face.
  lemma RMoves()
    ensures CubeMoves.R.Amount() == Single
    ensures CubeMoves.R.Inverse() == CubeMoves.RP && NewMove(CubeMoves.R.Face(), Double) == CubeMoves.R2
  {
    MoveNames();
    InverseAccessors(CubeMoves.R);
    MoveEncoding(CubeMoves.R.Inverse(), CubeMoves.RP);
    NewMoveAccessors(CubeMoves.R.Face(), Double);
    MoveEncoding(NewMove(CubeMoves.R.Face(), Double), CubeMoves.R2);
  }

  /// Every move leads to a neighbour, each exactly once.
  lemma NeighborsComplete(cube: Cube, mov: Move)
    requires cube.Valid()
    ensures exists i :: 0 <= i < |Neighbors(cube)| && Neighbors(cube)[i] == (mov, MovSingle(cube, mov))
    ensures forall i, j :: 0 <= i < j < |Neighbors(cube)| ==> Neighbors(cube)[i].0 != Neighbors(cube)[j].0
  {
    AllMovesIter();
    AllMovesComplete(mov);
    AllMovesDistinct();
    var i :| 0 <= i < |ALL_MOVES| && ALL_MOVES[i] == mov;
    assert Neighbors(cube)[i] == (mov, MovSingle(cube, mov));
  }
}
