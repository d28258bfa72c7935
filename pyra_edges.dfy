/// Pyraminx edges (`norcina-pyraminx/src/piece/edge.rs`).  An edge is a
/// byte `----oaad`: the direction `d` and axis `aa` of the position it sits
/// in, and the orientation flag `o`.  The six positions are those of a
/// cube's face centres, `d + 2 * aa`.  A piece flips when a turn moves it
/// into a position on the U face.
module PyraEdges {
  import Types
  import opened PyraPieces

  newtype Edge = x: int | 0 <= x < 6 || 8 <= x < 14 {
    function U8(): nat {
      this as nat
    }

    /// `axis_direction`: bit 0.
    function AxisDirection(): Types.Direction {
      Types.FromU8Mod2(U8())
    }

    /// `axis`: bits 1-2; `Axis::from_u8` never sees 3 because the position
    /// is below 6.
    function Axis(): Types.Axis {
      Types.AxisFromU8((U8() / 2) % 4)
    }

    /// `is_oriented`: no bit from 3 up.
    function IsOriented(): (b: bool)
      ensures b <==> U8() < 8
    {
      U8() / 8 == 0
    }

    /// The position alone, orientation cleared.
    function Position(): (p: Edge)
      ensures p.U8() == U8() % 8
    {
      (U8() % 8) as Edge
    }

    /// `data ^ (1 << 3)`: the other orientation.
    function Flipped(): (e: Edge)
      ensures e.Position() == Position() && e.IsOriented() != IsOriented()
    {
      if U8() >= 8 then (U8() - 8) as Edge else (U8() + 8) as Edge
    }

    /// `vertices`: the two vertices the edge lies between.  Both start from
    /// `0b00 ^ d` and `0b11 ^ d`; then the bit of the axis (none for X, bit 0
    /// for Y, bit 1 for Z) is overwritten with `d`.
    function Vertices(): (vs: (Vertex, Vertex)) {
      var d := AxisDirection().U8();
      (Overwrite(d, Axis(), d), Overwrite(3 - d, Axis(), d))
    }

    /// `faces`: the same computation with `d` flipped.
    function Faces(): (fs: (Face, Face)) {
      var d := 1 - AxisDirection().U8();
      (Face(Overwrite(d, Axis(), d)), Face(Overwrite(3 - d, Axis(), d)))
    }

    /// `is_on_orientation_face`: the edge touches U, which is the case for
    /// the negative direction.
    predicate IsOnOrientationFace() {
      AxisDirection() == Types.Negative
    }

    /// `orientation_face`: U when the edge touches it, otherwise the face
    /// `(4 - axis) % 3 + 1`.
    function OrientationFace(): Face {
      if AxisDirection() == Types.Negative then Face(U)
      else Face(VertexFromU8((4 - Axis().U8()) % 3 + 1))
    }

    /// `non_orientation_face`: `3 - axis` when the edge touches U, otherwise
    /// the two axis bits swapped, plus one.
    function NonOrientationFace(): Face {
      if AxisDirection() == Types.Negative then Face(VertexFromU8(3 - Axis().U8()))
      else
        var a := Axis().U8();
        var swapped := (a / 2 + a * 2) % 4;
        Face(VertexFromU8(swapped + 1))
    }
  }

  /// `v & !((1 << axis) >> 1) | ((d << axis) >> 1)` for `v < 4` and `d < 2`:
  /// for X the mask and the new bits are both zero; for Y bit 0 becomes `d`;
  /// for Z bit 1 becomes `d`.
  function Overwrite(v: nat, axis: Types.Axis, d: nat): Vertex
    requires v < 4 && d < 2
  {
    match axis
    case X => v as Vertex
    case Y => (v / 2 * 2 + d) as Vertex
    case Z => (v % 2 + 2 * d) as Vertex
  }

  /// `from_index`: the edge in position `index`, oriented.
  function FromIndex(index: nat): (e: Edge)
    requires index < 6
    ensures e.U8() == index && e.IsOriented()
  {
    index as Edge
  }

  /// `SOLVED`: every position holds its own edge.
  const SOLVED_EDGES: seq<Edge> := [0, 1, 2, 3, 4, 5]

  /// `solved(axis, direction)` as written: the axis is shifted by 2,
  /// although `axis` reads bits 1-2.
  function SolvedAsWritten(axis: Types.Axis, direction: Types.Direction): Edge {
    (direction.U8() + axis.U8() * 4) as Edge
  }

  /// The shift by 2 puts Y where Z belongs and Z on the orientation bit, so
  /// that `solved(Y, Positive)` reads back as a Z edge and `solved(Z,
  /// Positive)` is not even oriented.
  lemma SolvedAsWrittenMisplaces()
    ensures SolvedAsWritten(Types.Y, Types.Positive).Axis() == Types.Z
    ensures !SolvedAsWritten(Types.Z, Types.Positive).IsOriented()
  {
  }

  /// `solved` with the axis shifted by 1, as `axis` reads it back.
  function Solved(axis: Types.Axis, direction: Types.Direction): (e: Edge)
    ensures e.Axis() == axis && e.AxisDirection() == direction && e.IsOriented()
    ensures e == SOLVED_EDGES[direction.U8() + 2 * axis.U8()]
  {
    (direction.U8() + axis.U8() * 2) as Edge
  }

  /// `a ^ b` on two-bit values: a bit of the result is set where the bits
  /// of `a` and `b` differ.
  function Xor2(a: nat, b: nat): (r: nat)
    requires a < 4 && b < 4
    ensures r < 4
  {
    (if a % 2 == b % 2 then 0 else 1) + (if a / 2 == b / 2 then 0 else 2)
  }

  /// `position_from_faces`: the axis on which the two opposite vertices
  /// agree, read off `v1 ^ v2 ^ 0b11`, and the direction opposite to theirs
  /// (`^ 1`).
  function PositionFromFaces(f1: Face, f2: Face): (e: Edge)
    ensures e.IsOriented()
  {
    var shared := Types.AxisFromU8Mod3(Xor2(Xor2(f1.vertex.U8(), f2.vertex.U8()), 3));
    // `direction + (shared_axis << 1)` is the packing `Solved` uses.
    Solved(shared, f1.vertex.DirectionOnAxis(shared).Flip())
  }

  /// The directions of the four vertices on the three axes.
  lemma VertexTable()
    ensures U.DirectionOnAxis(Types.X) == Types.Positive && U.DirectionOnAxis(Types.Y) == Types.Positive && U.DirectionOnAxis(Types.Z) == Types.Positive
    ensures L.DirectionOnAxis(Types.X) == Types.Negative && L.DirectionOnAxis(Types.Y) == Types.Negative && L.DirectionOnAxis(Types.Z) == Types.Positive
    ensures B.DirectionOnAxis(Types.X) == Types.Negative && B.DirectionOnAxis(Types.Y) == Types.Positive && B.DirectionOnAxis(Types.Z) == Types.Negative
    ensures R.DirectionOnAxis(Types.X) == Types.Positive && R.DirectionOnAxis(Types.Y) == Types.Negative && R.DirectionOnAxis(Types.Z) == Types.Negative
  {
  }

  /// The axis and the direction are read off the position.
  lemma PositionFields(e: Edge)
    ensures e.Axis() == e.Position().Axis() && e.AxisDirection() == e.Position().AxisDirection()
  {
    assert (e.U8() / 2) % 4 == (e.Position().U8() / 2) % 4;
  }

  /// Everything about an edge but its orientation is read off its position.
  lemma SameAsPosition(e: Edge)
    ensures e.Axis() == e.Position().Axis() && e.AxisDirection() == e.Position().AxisDirection()
    ensures e.Vertices() == e.Position().Vertices() && e.Faces() == e.Position().Faces()
    ensures e.OrientationFace() == e.Position().OrientationFace()
    ensures e.NonOrientationFace() == e.Position().NonOrientationFace()
    ensures e.IsOnOrientationFace() == e.Position().IsOnOrientationFace()
  {
    PositionFields(e);
  }

  lemma Position0()
    ensures var e: Edge := 0;
      e.Axis() == Types.X && e.AxisDirection() == Types.Positive && e.Vertices() == (U, R) &&
      e.Faces() == (Face(L), Face(B)) && e.OrientationFace() == Face(B) && e.NonOrientationFace() == Face(L)
  {
  }

  lemma Position1()
    ensures var e: Edge := 1;
      e.Axis() == Types.X && e.AxisDirection() == Types.Negative && e.Vertices() == (L, B) &&
      e.Faces() == (Face(U), Face(R)) && e.OrientationFace() == Face(U) && e.NonOrientationFace() == Face(R)
  {
  }

  lemma Position2()
    ensures var e: Edge := 2;
      e.Axis() == Types.Y && e.AxisDirection() == Types.Positive && e.Vertices() == (U, B) &&
      e.Faces() == (Face(L), Face(R)) && e.OrientationFace() == Face(L) && e.NonOrientationFace() == Face(R)
  {
  }

  lemma Position3()
    ensures var e: Edge := 3;
      e.Axis() == Types.Y && e.AxisDirection() == Types.Negative && e.Vertices() == (L, R) &&
      e.Faces() == (Face(U), Face(B)) && e.OrientationFace() == Face(U) && e.NonOrientationFace() == Face(B)
  {
  }

  lemma Position4()
    ensures var e: Edge := 4;
      e.Axis() == Types.Z && e.AxisDirection() == Types.Positive && e.Vertices() == (U, L) &&
      e.Faces() == (Face(R), Face(B)) && e.OrientationFace() == Face(R) && e.NonOrientationFace() == Face(B)
  {
  }

  lemma Position5()
    ensures var e: Edge := 5;
      e.Axis() == Types.Z && e.AxisDirection() == Types.Negative && e.Vertices() == (R, B) &&
      e.Faces() == (Face(U), Face(L)) && e.OrientationFace() == Face(U) && e.NonOrientationFace() == Face(L)
  {
  }

  /// The six positions: their axis and direction, the vertices they lie
  /// between, their faces, and which face is the orientation face.
  lemma PositionTable(e: Edge)
    ensures e.Position() == 0 ==> (e.Axis() == Types.X && e.AxisDirection() == Types.Positive && e.Vertices() == (U, R) &&
      e.Faces() == (Face(L), Face(B)) && e.OrientationFace() == Face(B) && e.NonOrientationFace() == Face(L))
    ensures e.Position() == 1 ==> (e.Axis() == Types.X && e.AxisDirection() == Types.Negative && e.Vertices() == (L, B) &&
      e.Faces() == (Face(U), Face(R)) && e.OrientationFace() == Face(U) && e.NonOrientationFace() == Face(R))
    ensures e.Position() == 2 ==> (e.Axis() == Types.Y && e.AxisDirection() == Types.Positive && e.Vertices() == (U, B) &&
      e.Faces() == (Face(L), Face(R)) && e.OrientationFace() == Face(L) && e.NonOrientationFace() == Face(R))
    ensures e.Position() == 3 ==> (e.Axis() == Types.Y && e.AxisDirection() == Types.Negative && e.Vertices() == (L, R) &&
      e.Faces() == (Face(U), Face(B)) && e.OrientationFace() == Face(U) && e.NonOrientationFace() == Face(B))
    ensures e.Position() == 4 ==> (e.Axis() == Types.Z && e.AxisDirection() == Types.Positive && e.Vertices() == (U, L) &&
      e.Faces() == (Face(R), Face(B)) && e.OrientationFace() == Face(R) && e.NonOrientationFace() == Face(B))
    ensures e.Position() == 5 ==> (e.Axis() == Types.Z && e.AxisDirection() == Types.Negative && e.Vertices() == (R, B) &&
      e.Faces() == (Face(U), Face(L)) && e.OrientationFace() == Face(U) && e.NonOrientationFace() == Face(L))
  {
    SameAsPosition(e);
    var p := e.Position();
    if p == 0 {
      Position0();
    } else if p == 1 {
      Position1();
    } else if p == 2 {
      Position2();
    } else if p == 3 {
      Position3();
    } else if p == 4 {
      Position4();
    } else {
      Position5();
    }
  }

  /// The vertices of an edge are two different vertices, both on the edge's
  /// side of its axis, and no other vertex is.
  lemma VerticesOnTheEdgeSide(e: Edge, v: Vertex)
    ensures var (v1, v2) := e.Vertices();
      v1 != v2 &&
      v1.DirectionOnAxis(e.Axis()) == e.AxisDirection() &&
      v2.DirectionOnAxis(e.Axis()) == e.AxisDirection() &&
      (v.DirectionOnAxis(e.Axis()) == e.AxisDirection() <==> v == v1 || v == v2)
  {
    PositionTable(e);
    VertexTable();
  }

  /// The faces of an edge are named by the other two vertices: the ones on
  /// the opposite side of its axis.
  lemma FacesOppositeTheEdge(e: Edge, v: Vertex)
    ensures var (f1, f2) := e.Faces();
      f1 != f2 &&
      (v.DirectionOnAxis(e.Axis()) == e.AxisDirection().Flip() <==> v == f1.vertex || v == f2.vertex) &&
      (v == f1.vertex || v == f2.vertex <==> v != e.Vertices().0 && v != e.Vertices().1)
  {
    PositionTable(e);
    VertexTable();
  }
  lemma FacesLB(f1: Face, f2: Face)
    requires f1 == Face(L) && f2 == Face(B)
    ensures PositionFromFaces(f1, f2) == 0
  {
    assert Xor2(Xor2(L.U8(), B.U8()), 3) == 0;
    assert Types.AxisFromU8Mod3(0) == Types.X;
    assert L.DirectionOnAxis(Types.X).Flip() == Types.Positive by {
      VertexTable();
    }
    assert Solved(Types.X, Types.Positive) == 0;
  }

  lemma FacesBL(f1: Face, f2: Face)
    requires f1 == Face(B) && f2 == Face(L)
    ensures PositionFromFaces(f1, f2) == 0
  {
    assert Xor2(Xor2(B.U8(), L.U8()), 3) == 0;
    assert Types.AxisFromU8Mod3(0) == Types.X;
    assert B.DirectionOnAxis(Types.X).Flip() == Types.Positive by {
      VertexTable();
    }
    assert Solved(Types.X, Types.Positive) == 0;
  }

  lemma FacesUR(f1: Face, f2: Face)
    requires f1 == Face(U) && f2 == Face(R)
    ensures PositionFromFaces(f1, f2) == 1
  {
    assert Xor2(Xor2(U.U8(), R.U8()), 3) == 0;
    assert Types.AxisFromU8Mod3(0) == Types.X;
    assert U.DirectionOnAxis(Types.X).Flip() == Types.Negative by {
      VertexTable();
    }
    assert Solved(Types.X, Types.Negative) == 1;
  }

  lemma FacesRU(f1: Face, f2: Face)
    requires f1 == Face(R) && f2 == Face(U)
    ensures PositionFromFaces(f1, f2) == 1
  {
    assert Xor2(Xor2(R.U8(), U.U8()), 3) == 0;
    assert Types.AxisFromU8Mod3(0) == Types.X;
    assert R.DirectionOnAxis(Types.X).Flip() == Types.Negative by {
      VertexTable();
    }
    assert Solved(Types.X, Types.Negative) == 1;
  }

  lemma FacesLR(f1: Face, f2: Face)
    requires f1 == Face(L) && f2 == Face(R)
    ensures PositionFromFaces(f1, f2) == 2
  {
    assert Xor2(Xor2(L.U8(), R.U8()), 3) == 1;
    assert Types.AxisFromU8Mod3(1) == Types.Y;
    assert L.DirectionOnAxis(Types.Y).Flip() == Types.Positive by {
      VertexTable();
    }
    assert Solved(Types.Y, Types.Positive) == 2;
  }

  lemma FacesRL(f1: Face, f2: Face)
    requires f1 == Face(R) && f2 == Face(L)
    ensures PositionFromFaces(f1, f2) == 2
  {
    assert Xor2(Xor2(R.U8(), L.U8()), 3) == 1;
    assert Types.AxisFromU8Mod3(1) == Types.Y;
    assert R.DirectionOnAxis(Types.Y).Flip() == Types.Positive by {
      VertexTable();
    }
    assert Solved(Types.Y, Types.Positive) == 2;
  }

  lemma FacesUB(f1: Face, f2: Face)
    requires f1 == Face(U) && f2 == Face(B)
    ensures PositionFromFaces(f1, f2) == 3
  {
    assert Xor2(Xor2(U.U8(), B.U8()), 3) == 1;
    assert Types.AxisFromU8Mod3(1) == Types.Y;
    assert U.DirectionOnAxis(Types.Y).Flip() == Types.Negative by {
      VertexTable();
    }
    assert Solved(Types.Y, Types.Negative) == 3;
  }

  lemma FacesBU(f1: Face, f2: Face)
    requires f1 == Face(B) && f2 == Face(U)
    ensures PositionFromFaces(f1, f2) == 3
  {
    assert Xor2(Xor2(B.U8(), U.U8()), 3) == 1;
    assert Types.AxisFromU8Mod3(1) == Types.Y;
    assert B.DirectionOnAxis(Types.Y).Flip() == Types.Negative by {
      VertexTable();
    }
    assert Solved(Types.Y, Types.Negative) == 3;
  }

  lemma FacesRB(f1: Face, f2: Face)
    requires f1 == Face(R) && f2 == Face(B)
    ensures PositionFromFaces(f1, f2) == 4
  {
    assert Xor2(Xor2(R.U8(), B.U8()), 3) == 2;
    assert Types.AxisFromU8Mod3(2) == Types.Z;
    assert R.DirectionOnAxis(Types.Z).Flip() == Types.Positive by {
      VertexTable();
    }
    assert Solved(Types.Z, Types.Positive) == 4;
  }

  lemma FacesBR(f1: Face, f2: Face)
    requires f1 == Face(B) && f2 == Face(R)
    ensures PositionFromFaces(f1, f2) == 4
  {
    assert Xor2(Xor2(B.U8(), R.U8()), 3) == 2;
    assert Types.AxisFromU8Mod3(2) == Types.Z;
    assert B.DirectionOnAxis(Types.Z).Flip() == Types.Positive by {
      VertexTable();
    }
    assert Solved(Types.Z, Types.Positive) == 4;
  }

  lemma FacesUL(f1: Face, f2: Face)
    requires f1 == Face(U) && f2 == Face(L)
    ensures PositionFromFaces(f1, f2) == 5
  {
    assert Xor2(Xor2(U.U8(), L.U8()), 3) == 2;
    assert Types.AxisFromU8Mod3(2) == Types.Z;
    assert U.DirectionOnAxis(Types.Z).Flip() == Types.Negative by {
      VertexTable();
    }
    assert Solved(Types.Z, Types.Negative) == 5;
  }

  lemma FacesLU(f1: Face, f2: Face)
    requires f1 == Face(L) && f2 == Face(U)
    ensures PositionFromFaces(f1, f2) == 5
  {
    assert Xor2(Xor2(L.U8(), U.U8()), 3) == 2;
    assert Types.AxisFromU8Mod3(2) == Types.Z;
    assert L.DirectionOnAxis(Types.Z).Flip() == Types.Negative by {
      VertexTable();
    }
    assert Solved(Types.Z, Types.Negative) == 5;
  }

  /// The faces of an edge give its position back.
  lemma PositionFromFacesRoundTrip(e: Edge)
    ensures PositionFromFaces(e.Faces().0, e.Faces().1) == e.Position()
  {
    PositionTable(e);
    var (f1, f2) := e.Faces();
    var p := e.Position();
    if p == 0 {
      FacesLB(f1, f2);
    } else if p == 1 {
      FacesUR(f1, f2);
    } else if p == 2 {
      FacesLR(f1, f2);
    } else if p == 3 {
      FacesUB(f1, f2);
    } else if p == 4 {
      FacesRB(f1, f2);
    } else if p == 5 {
      FacesUL(f1, f2);
    }
  }

  /// For two different faces, the two vertices agree on the axis of the
  /// position found (the source's debug assertion), and the faces of that
  /// position are the two faces.
  lemma PositionFromFacesShared(f1: Face, f2: Face)
    requires f1 != f2
    ensures var e := PositionFromFaces(f1, f2);
      f1.vertex.DirectionOnAxis(e.Axis()) == f2.vertex.DirectionOnAxis(e.Axis()) &&
      (e.Faces() == (f1, f2) || e.Faces() == (f2, f1))
  {
    var e := PositionFromFaces(f1, f2);
    VertexTable();
    if f1 == Face(L) && f2 == Face(B) {
      FacesLB(f1, f2);
      Position0();
    } else if f1 == Face(B) && f2 == Face(L) {
      FacesBL(f1, f2);
      Position0();
    } else if f1 == Face(U) && f2 == Face(R) {
      FacesUR(f1, f2);
      Position1();
    } else if f1 == Face(R) && f2 == Face(U) {
      FacesRU(f1, f2);
      Position1();
    } else if f1 == Face(L) && f2 == Face(R) {
      FacesLR(f1, f2);
      Position2();
    } else if f1 == Face(R) && f2 == Face(L) {
      FacesRL(f1, f2);
      Position2();
    } else if f1 == Face(U) && f2 == Face(B) {
      FacesUB(f1, f2);
      Position3();
    } else if f1 == Face(B) && f2 == Face(U) {
      FacesBU(f1, f2);
      Position3();
    } else if f1 == Face(R) && f2 == Face(B) {
      FacesRB(f1, f2);
      Position4();
    } else if f1 == Face(B) && f2 == Face(R) {
      FacesBR(f1, f2);
      Position4();
    } else if f1 == Face(U) && f2 == Face(L) {
      FacesUL(f1, f2);
      Position5();
    } else if f1 == Face(L) && f2 == Face(U) {
      FacesLU(f1, f2);
      Position5();
    }
  }

  /// The orientation face is U exactly for edges touching U; the
  /// orientation and non-orientation faces are the edge's two faces.
  lemma OrientationFaces(e: Edge)
    ensures e.OrientationFace() == Face(U) <==> e.IsOnOrientationFace()
    ensures e.OrientationFace() != e.NonOrientationFace()
    ensures var (f1, f2) := e.Faces();
      (e.OrientationFace() == f1 && e.NonOrientationFace() == f2) ||
      (e.OrientationFace() == f2 && e.NonOrientationFace() == f1)
  {
    PositionTable(e);
  }
}
