/// The first version of the cube pieces and moves (`src/edge.rs`,
/// `src/corner.rs`, `src/mov.rs`).  The bytes have the same layouts as in
/// `norcina-cube-n` (edges `---onnba`, corners `---oozyx`, moves
/// `---aafff`), so the pieces reuse `CubeEdges`, `CubeCorners` and
/// `CubeMoves`; what the first version computes differently is modelled
/// here and compared with the newer code.
module Legacy {
  import opened Types
  import opened Faces
  import opened CubeEdges
  import opened CubeCorners
  import opened CubeMoves

  /// Edge `direction_on_axis` with an explicit branch: `a` on the axis after
  /// the normal, `b` otherwise.  The source asserts the axis is not the
  /// normal.
  function EdgeDirectionOnAxis(p: EdgePosition, axis: Axis): (d: Direction)
    requires axis != p.Normal()
  {
    if p.Normal().Next() == axis then p.A() else p.B()
  }

  /// The branch agrees with the newer bit-shift formula on both non-normal
  /// axes.
  lemma EdgeDirectionOnAxisAgrees(p: EdgePosition, axis: Axis)
    requires axis != p.Normal()
    ensures EdgeDirectionOnAxis(p, axis) == p.DirectionOnAxis(axis)
    ensures axis == p.Normal().Next() ==> EdgeDirectionOnAxis(p, axis) == p.A()
    ensures axis == p.Normal().Prev() ==> EdgeDirectionOnAxis(p, axis) == p.B()
  {
    AxisCycle(p.Normal(), axis);
    SlotFields(p);
  }

  /// `oriented_from_faces`: the oriented edge whose slot has the two faces.
  function OrientedEdgeFromFaces(f1: Face, f2: Face): (e: Edge)
    ensures e.IsOriented() && e.Position() == EdgePositionFromFaces([f1, f2])
  {
    EdgePositionFromFaces([f1, f2]).WithOrientation(Positive)
  }

  /// `faces` then `oriented_from_faces` gives back every oriented edge.
  lemma OrientedEdgeFromFacesRoundTrip(e: Edge)
    requires e.IsOriented()
    ensures OrientedEdgeFromFaces(e.Position().Faces()[0], e.Position().Faces()[1]) == e
  {
    var fs := e.Position().Faces();
    assert [fs[0], fs[1]] == fs;
    CubeEdges.FacesRoundTrip(e.Position());
    EdgeDetermined(OrientedEdgeFromFaces(fs[0], fs[1]), e);
  }

  /// `current`: the piece now in the slot the edge `origin` was solved in,
  /// `edges[data & 0b1111]`.
  function Current(origin: Edge, edges: seq<Edge>): Edge
    requires |edges| == 12
  {
    edges[origin.Position().Index()]
  }

  /// `current` ignores the orientation bit, and on the solved edges it is
  /// the edge of the slot.
  lemma CurrentIgnoresOrientation(origin: Edge, edges: seq<Edge>, toggle: bool)
    requires |edges| == 12
    ensures Current(Toggle(origin, toggle), edges) == Current(origin, edges)
    ensures Current(origin, SOLVED_EDGES).Position() == origin.Position()
  {
  }

  /// Edge `sticker`: the first version reads the faces of the slot
  /// `position`, not of the piece's home slot; the piece only chooses,
  /// by its orientation, which of the two shows.
  function EdgeSticker(edge: Edge, position: EdgePosition, face: Face): Face {
    if edge.IsOriented() == (position.OrientationAxis() == face.Axis()) then
      position.OrientationFace()
    else
      position.OtherFace()
  }

  /// The sticker is a face of the slot, the source's assertion that the two
  /// candidate faces differ always holds, and flipping the piece shows the
  /// other face.  For a piece in its home slot the first version agrees with
  /// the newer `sticker`.
  lemma EdgeStickerOnSlot(edge: Edge, position: EdgePosition, face: Face)
    ensures EdgeSticker(edge, position, face) in position.Faces()
    ensures position.OrientationFace() != position.OtherFace()
    ensures EdgeSticker(Toggle(edge, true), position, face) != EdgeSticker(edge, position, face)
    ensures face.Axis() != position.Normal() && edge.Position() == position ==>
      EdgeSticker(edge, position, face) == CubeEdges.Sticker(edge, position, face)
  {
    OrientationFaces(position);
  }

  /// Corner `faces`: the faces of the corner's coordinates on X, Y and Z.
  function CornerFaces(c: Corner): (fs: seq<Face>)
    ensures fs == c.Position().Faces()
  {
    OnFaceIff(c, NewFace(Axis.X, c.X()));
    [NewFace(Axis.X, c.X()), NewFace(Axis.Y, c.Y()), NewFace(Axis.Z, c.Z())]
  }

  /// `direction_on_axis` reads bit `axis`, which is `x`, `y` or `z`.
  lemma CornerDirectionOnAxis(c: Corner)
    ensures c.DirectionOnAxis(Axis.X) == c.X()
    ensures c.DirectionOnAxis(Axis.Y) == c.Y()
    ensures c.DirectionOnAxis(Axis.Z) == c.Z()
  {
    OnFaceIff(c, NewFace(Axis.X, c.X()));
  }

  /// Corner `oriented_from_faces` and `CornerPosition::from_faces`: the same
  /// sum of `direction << axis`, read as an untwisted piece.
  function OrientedCornerFromFaces(faces: seq<Face>): (c: Corner)
    requires |faces| == 3
    requires faces[0].Axis() != faces[1].Axis() && faces[1].Axis() != faces[2].Axis()
    requires faces[2].Axis() != faces[0].Axis()
    ensures c.IsOriented() && c.Position() == CornerPositionFromFaces(faces)
  {
    CornerPositionFromFaces(faces) as int as Corner
  }

  /// `faces` then `oriented_from_faces` gives back every untwisted corner.
  lemma OrientedCornerFromFacesRoundTrip(c: Corner)
    requires c.IsOriented()
    ensures OrientedCornerFromFaces(CornerFaces(c)) == c
  {
    CubeCorners.FacesRoundTrip(c.Position());
  }

  /// Corner `sticker`: the face on axis `(face.axis + orientation) % 3` of
  /// the slot `position`.
  function CornerSticker(corner: Corner, position: CornerPosition, face: Face): (r: Face)
    ensures position.ContainsFace(r)
    ensures r.Axis().U8() == (face.Axis().U8() + corner.Orientation().U8()) % 3
  {
    var axis := AxisFromU8((face.Axis().U8() + corner.Orientation().U8()) % 3);
    var r := NewFace(axis, Coordinate(position as nat, axis));
    assert position.ContainsFace(r) by {
      FaceEncoding(r, r);
    }
    r
  }

  /// An untwisted corner shows, on each face of its slot, that face.
  lemma CornerStickerUntwisted(corner: Corner, position: CornerPosition, face: Face)
    requires corner.IsOriented() && position.ContainsFace(face)
    ensures CornerSticker(corner, position, face) == face
  {
    var r := CornerSticker(corner, position, face);
    assert r.Axis() == face.Axis();
    FaceEncoding(r, face);
  }

  /// `axis()` is the axis of the move's face; `Move::new` packs the face
  /// and amount as `NewMove` does.
  lemma MoveAxis(face: Face, amount: Amount)
    ensures NewMove(face, amount).Axis() == face.Axis()
  {
    NewMoveAccessors(face, amount);
  }

  /// `amount * direction`: unchanged for Positive, `4 - amount` for
  /// Negative, which swaps Single and Reverse and keeps Double.
  lemma AmountTimesDirection(a: Amount, d: Direction)
    ensures d.Positive? ==> a.Mul(d) == a
    ensures d.Negative? ==> a.Mul(d).U8() == 4 - a.U8()
    ensures a.Mul(Negative) == match a case Single => Reverse case Double => Double case Reverse => Single
  {
  }
}
