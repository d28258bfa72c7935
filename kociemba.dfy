/// The subgroup G1 of Kociemba's two-phase algorithm
/// (`norcina-cube3/src/search/kociemba.rs`): cubes whose corners and edges
/// are all oriented and whose Y-normal edges sit in the Y-normal slots, and
/// the ten moves that stay inside it.
module Kociemba {
  import opened Types
  import Faces
  import opened CubeMoves
  import CubeCorners
  import CubeEdges
  import opened Cube3

  /// `G1_MOVES`: U, U2, U', D, D2, D', R2, L2, F2, B2.
  const G1_MOVES: seq<Move> := [U, U2, UP, D, D2, DP, R2, L2, F2, B2]

  /// The moves of G1 are the turns about the Y axis and the half turns.
  predicate KeepsG1(mov: Move) {
    mov.Axis() == Y || mov.Amount() == Double
  }

  /// `is_in_g1`: every corner oriented, every edge oriented, and an edge is
  /// in a Y-normal slot exactly when its home slot is Y-normal.
  predicate IsInG1(cube: Cube)
    requires cube.Valid()
  {
    (forall i :: 0 <= i < 8 ==> cube.corners[i].IsOriented()) &&
    (forall i :: 0 <= i < 12 ==> cube.edges[i].IsOriented()) &&
    (forall i :: 0 <= i < 12 ==>
      ((CubeEdges.EdgePositionFromIndex(i).Normal() == Y) == (cube.edges[i].Position().Normal() == Y)))
  }

  /// `G1_MOVES` holds exactly the moves about the Y axis and the half turns.
  lemma G1MovesExactly(mov: Move)
    ensures mov in G1_MOVES <==> KeepsG1(mov)
  {
    KeepsG1Byte(mov);
    G1Bytes(mov);
  }

  /// On the byte of a move: Y is axis 1 of the low two bits, and the half
  /// turn is amount 2 above the face bits.
  lemma KeepsG1Byte(mov: Move)
    ensures KeepsG1(mov) <==> (mov as int % 8 % 4 == 1 || mov as int / 8 == 2)
  {
    assert mov.Axis().U8() == mov as int % 8 % 4;
    assert mov.Amount() == Double <==> mov as int / 8 == 2;
  }

  /// The bytes of `G1_MOVES` are those whose face is on axis 1 or whose
  /// amount is 2.
  lemma G1Bytes(mov: Move)
    ensures mov in G1_MOVES <==> (mov as int % 8 % 4 == 1 || mov as int / 8 == 2)
  {
    var x := mov as int;
    assert mov in G1_MOVES <==> x in {9, 17, 25, 13, 21, 29, 16, 20, 18, 22};
  }

  /// The solved cube is in G1.
  lemma SolvedInG1()
    ensures SOLVED.Valid() && IsInG1(SOLVED)
  {
    CubeEdges.SolvedEdgesAt();
    CubeCorners.SolvedCornersAt();
  }

  /// Under a G1 move a corner gains no twist.
  lemma CornerPullG1(mov: Move, i: CubeCorners.CornerPosition)
    requires KeepsG1(mov)
    ensures CubeCorners.Pull(mov, i).1 == 0
  {
    if !i.ContainsFace(mov.Face()) {
      CubeCorners.PullOffFace(mov, i);
    } else if mov.Amount() == Double {
      CubeCorners.PullDouble(mov, i);
    } else {
      CubeCorners.PullQuarter(mov, i);
    }
  }

  /// Under a G1 move an edge keeps its orientation bit, and the slot it comes
  /// from is Y-normal exactly when the slot it goes to is.
  lemma EdgePullG1(mov: Move, i: CubeEdges.EdgePosition)
    requires KeepsG1(mov)
    ensures var (j, t) := CubeEdges.Pull(mov, i);
      !t && ((j.Normal() == Y) == (i.Normal() == Y))
  {
    if !i.ContainsFace(mov.Face()) {
      CubeEdges.PullOffFace(mov, i);
    } else if mov.Amount() == Double {
      CubeEdges.PullDouble(mov, i);
    } else {
      CubeEdges.PullQuarter(mov, i);
    }
  }

  /// A G1 move keeps every corner oriented.
  lemma CornersStayOriented(corners: seq<CubeCorners.Corner>, mov: Move, k: nat)
    requires |corners| == 8 && k < 8 && KeepsG1(mov)
    requires forall i :: 0 <= i < 8 ==> corners[i].IsOriented()
    ensures CubeCorners.MovePieces(corners, mov)[k].IsOriented()
  {
    var p := k as CubeCorners.CornerPosition;
    CubeCorners.MovePiecesAt(corners, mov, p);
    CornerPullG1(mov, p);
  }

  /// A G1 move keeps every edge oriented and every Y-normal edge in a
  /// Y-normal slot.
  lemma EdgesStayInG1(edges: seq<CubeEdges.Edge>, mov: Move, k: nat)
    requires |edges| == 12 && k < 12 && KeepsG1(mov)
    requires forall i :: 0 <= i < 12 ==> edges[i].IsOriented()
    requires forall i :: 0 <= i < 12 ==>
      ((CubeEdges.EdgePositionFromIndex(i).Normal() == Y) == (edges[i].Position().Normal() == Y))
    ensures var e := CubeEdges.MovePieces(edges, mov)[k];
      e.IsOriented() &&
      ((CubeEdges.EdgePositionFromIndex(k).Normal() == Y) == (e.Position().Normal() == Y))
  {
    var q := CubeEdges.EdgePositionFromIndex(k);
    CubeEdges.MovePiecesAt(edges, mov, q);
    EdgePullG1(mov, q);
    var j := CubeEdges.Pull(mov, q).0;
    assert CubeEdges.EdgePositionFromIndex(j as nat) == j;
  }

  /// A G1 move keeps a cube in G1.
  lemma MoveKeepsG1(cube: Cube, mov: Move)
    requires cube.Valid() && IsInG1(cube) && mov in G1_MOVES
    ensures IsInG1(MovSingle(cube, mov))
  {
    G1MovesExactly(mov);
    forall k | 0 <= k < 8
      ensures MovSingle(cube, mov).corners[k].IsOriented()
    {
      CornersStayOriented(cube.corners, mov, k);
    }
    forall k | 0 <= k < 12
      ensures var e := MovSingle(cube, mov).edges[k];
        e.IsOriented() &&
        ((CubeEdges.EdgePositionFromIndex(k).Normal() == Y) == (e.Position().Normal() == Y))
    {
      EdgesStayInG1(cube.edges, mov, k);
    }
  }

  /// Any sequence of G1 moves keeps a cube in G1; in particular every
  /// sequence of them applied to the solved cube ends in G1.
  lemma {:induction false} MovesKeepG1(cube: Cube, alg: seq<Move>)
    requires cube.Valid() && IsInG1(cube)
    requires forall i :: 0 <= i < |alg| ==> alg[i] in G1_MOVES
    ensures IsInG1(Apply(cube, alg))
    decreases |alg|
  {
    if alg != [] {
      MoveKeepsG1(cube, alg[0]);
      MovesKeepG1(MovSingle(cube, alg[0]), alg[1..]);
    }
  }
}
