// norcina-cube-n/src/piece/edge.rs: the twelve edges of a cube.
//
// An edge slot (EdgePosition) is the byte `a + 2 * b + 4 * normal`: `normal`
// is the axis the edge is parallel to, `a` its direction along
// `normal.Next()` and `b` along `normal.Prev()`.  An Edge (the piece sitting
// in a slot) is the slot it belongs to plus an orientation bit at bit 4.
module CubeEdges {
  import opened Types
  import opened Faces
  import opened CubeMoves
  import opened Bits

  newtype EdgePosition = x: int | 0 <= x < 12 {

    /// Bit 0.
    function A(): Direction {
      FromBool(this as int % 2 != 0)
    }

    /// Bit 1.
    function B(): Direction {
      FromBool((this as int / 2) % 2 != 0)
    }

    /// Bits 2-3; the source panics if they are 3, which no slot has.
    function Normal(): Axis {
      AxisFromU8((this as int / 4) % 4)
    }

    /// The two faces the slot lies on: first along `normal.Next()`, then
    /// along `normal.Prev()`.
    function Faces(): (fs: seq<Face>)
      ensures |fs| == 2
    {
      [NewFace(Normal().Next(), A()), NewFace(Normal().Prev(), B())]
    }

    function Index(): nat {
      this as nat
    }

    /// The edge in this slot of a 12-edge array.
    function Pick(edges: seq<Edge>): Edge
      requires |edges| == 12
    {
      edges[this]
    }

    /// The slot's direction along a non-normal axis: bit `shift` of the
    /// byte, `shift = (3 - normal + axis) % 3 - 1`, which is 0 or 1 for the
    /// two non-normal axes.  The source only debug-asserts that `axis` is not
    /// the normal.
    function DirectionOnAxis(axis: Axis): Direction
      requires axis != Normal()
    {
      var shift := (3 - Normal().U8() + axis.U8()) % 3 - 1;
      FromU8(if shift == 0 then this as int % 2 else (this as int / 2) % 2)
    }

    function FaceOnAxis(axis: Axis): Face
      requires axis != Normal()
    {
      NewFace(axis, DirectionOnAxis(axis))
    }

    /// Z for slots parallel to Y, Y otherwise.
    function OrientationAxis(): Axis {
      if Normal() == Y then Z else Y
    }

    function NonOrientationAxis(): Axis {
      match Normal()
      case X => Z
      case Y => X
      case Z => X
    }

    function OrientationFace(): Face {
      FaceOnAxis(OrientationAxis())
    }

    function OtherFace(): Face {
      FaceOnAxis(NonOrientationAxis())
    }

    function ContainsFace(face: Face): bool {
      face.Axis() != Normal() && face.Direction() == DirectionOnAxis(face.Axis())
    }

    /// Quarter turns needed to bring a piece from this slot to `other`:
    /// two minus the number of faces the slots share.
    function TurnDistance(other: EdgePosition): nat {
      var fs, gs := Faces(), other.Faces();
      var shared1 := fs[0] == gs[0] || fs[0] == gs[1];
      var shared2 := fs[1] == gs[0] || fs[1] == gs[1];
      2 - ((if shared1 then 1 else 0) + (if shared2 then 1 else 0))
    }

    /// The edge that belongs to this slot, with orientation bit `orientation`.
    function WithOrientation(orientation: Direction): (e: Edge)
      ensures e.Position() == this && e.Orientation() == orientation
    {
      (this as int + orientation.U8() * 16) as Edge
    }
  }

  /// `from_faces([f1, f2])`: the normal is the axis perpendicular to both
  /// faces, and the faces' directions go to `a` and `b` by which of them lies
  /// on `normal.Next()`.
  function EdgePositionFromFaces(faces: seq<Face>): EdgePosition
    requires |faces| == 2
  {
    var f1, f2 := faces[0], faces[1];
    var normal := OtherAxis(f1.Axis(), f2.Axis());
    var properlyOrdered := f1.Axis() == normal.Next();
    var a := if properlyOrdered then f1.Direction() else f2.Direction();
    var b := if properlyOrdered then f2.Direction() else f1.Direction();
    (a.U8() + b.U8() * 2 + normal.U8() * 4) as EdgePosition
  }

  /// Panics in the source unless `index < 12`.
  function EdgePositionFromIndex(index: nat): (p: EdgePosition)
    requires index < 12
    ensures p.Index() == index
  {
    index as EdgePosition
  }

  /// `EdgePosition::ALL`: the slots in index order.
  const ALL_EDGE_POSITIONS: seq<EdgePosition> := [0, 1, 2, 3, 4, 5, 6, 7, 8, 9, 10, 11]

  /// A piece: bits 0-3 are its home slot, bit 4 its orientation.
  newtype Edge = x: int | 0 <= x < 32 && x % 16 < 12 {

    function A(): Direction {
      FromBool(this as int % 2 != 0)
    }

    function B(): Direction {
      FromBool((this as int / 2) % 2 != 0)
    }

    function Normal(): Axis {
      AxisFromU8((this as int / 4) % 4)
    }

    /// `Direction::from_u8(data >> 4)`.
    function Orientation(): Direction {
      FromU8(this as int / 16)
    }

    /// Bit 4 clear.
    function IsOriented(): (b: bool)
      ensures b <==> Orientation() == Positive
    {
      (this as int / 16) % 2 == 0
    }

    /// The home slot: the byte with the orientation bit masked off.
    function Position(): EdgePosition {
      (this as int % 16) as EdgePosition
    }
  }

  /// Panics in the source unless `index < 12`; the solved piece of slot
  /// `index` is oriented.
  function SolvedEdge(index: nat): (e: Edge)
    requires index < 12
    ensures e.Position().Index() == index && e.IsOriented()
  {
    index as Edge
  }

  /// `Edge::SOLVED`.
  const SOLVED_EDGES: seq<Edge> := [0, 1, 2, 3, 4, 5, 6, 7, 8, 9, 10, 11]

  /// Every slot of the solved edges holds its own piece, oriented.
  lemma SolvedEdgesAt()
    ensures |SOLVED_EDGES| == 12
    ensures forall i :: 0 <= i < 12 ==> SOLVED_EDGES[i] == SolvedEdge(i)
  {
  }

  /// The face colour shown on `face` by `edge` sitting in `position`: an
  /// oriented edge shows its orientation face on the slot's orientation axis.
  /// The source asserts that `face` is not on the slot's normal.
  function Sticker(edge: Edge, position: EdgePosition, face: Face): Face
    requires face.Axis() != position.Normal()
  {
    if (position.OrientationAxis() == face.Axis()) == edge.IsOriented() then
      edge.Position().OrientationFace()
    else
      edge.Position().OtherFace()
  }

  /// `data ^ (toggle << 4)`.
  function Toggle(edge: Edge, toggle: bool): (r: Edge)
    ensures r.Position() == edge.Position()
    ensures r.IsOriented() == (edge.IsOriented() != toggle)
  {
    if !toggle then edge
    else if edge as int >= 16 then (edge as int - 16) as Edge
    else (edge as int + 16) as Edge
  }

  /// The per-slot closure of `move_pieces`: the slot that slot `i` takes its
  /// edge from under `mov`, and whether the orientation bit is toggled.
  /// Slots off the turned face keep their edge; a half turn takes the edge
  /// whose stored bit along the turned axis's partner differs; a quarter turn
  /// rotates the slot's faces about the turned axis, (p[i], p[j]) ->
  /// (p[j], -p[i]), re-encodes them, and toggles orientation on Z turns.
  function Pull(mov: Move, i: EdgePosition): (EdgePosition, bool) {
    var face := mov.Face();
    var axis := face.Axis();
    var normal := i.Normal();
    if axis != normal.Next() && axis != normal.Prev() then (i, false)
    else
      var dirMov := if axis == normal.Next() then i.A() else i.B();
      var offset := if axis == normal.Next() then 1 else 0;
      if dirMov != face.Direction() then (i, false)
      else if mov.Amount() == Double then
        FlipLowBit(i as nat, offset);
        (FlipBit(i as nat, offset) as EdgePosition, false)
      else
        (EdgePositionFromFaces([TurnedFace(mov, i), face]), axis == Z)
  }

  /// The second face of the slot a quarter turn brings to `i`: with lead axis
  /// `ai` and the other axis `aj`, the slot's coordinate on `aj` moves to `ai`
  /// negated when `ai` is the normal, and its coordinate on `ai` moves to `aj`
  /// otherwise.
  function TurnedFace(mov: Move, i: EdgePosition): Face
    requires mov.Axis() != i.Normal()
  {
    var axis := mov.Axis();
    var ai := LeadAxis(mov);
    var aj := TrailAxis(mov);
    AxisCycle(axis, axis);
    if ai == i.Normal() then NewFace(ai, i.DirectionOnAxis(aj).Flip())
    else NewFace(aj, i.DirectionOnAxis(ai))
  }

  /// `move_pieces`: every slot pulls its new edge through `Pull`.
  function MovePieces(edges: seq<Edge>, mov: Move): (r: seq<Edge>)
    requires |edges| == 12
    ensures |r| == 12
  {
    seq(12, k requires 0 <= k < 12 =>
      var pulled := Pull(mov, k as EdgePosition);
      Toggle(pulled.0.Pick(edges), pulled.1))
  }

  /// Slot `k` of `move_pieces` is the edge `Pull` names, toggled as it says.
  lemma MovePiecesAt(edges: seq<Edge>, mov: Move, k: EdgePosition)
    requires |edges| == 12
    ensures MovePieces(edges, mov)[k] == Toggle(edges[Pull(mov, k).0], Pull(mov, k).1)
  {
  }

  /// A slot is the sum of its three fields.
  lemma SlotFields(p: EdgePosition)
    ensures p as int == p.A().U8() + 2 * p.B().U8() + 4 * p.Normal().U8()
  {
  }

  /// `from_faces` inverts `faces`.
  lemma FacesRoundTrip(p: EdgePosition)
    ensures EdgePositionFromFaces(p.Faces()) == p
  {
    var n := p.Normal();
    AxisCycle(n, n);
    var fs := p.Faces();
    assert fs[0].Axis() == n.Next() && fs[0].Direction() == p.A();
    assert fs[1].Axis() == n.Prev() && fs[1].Direction() == p.B();
    var m := OtherAxis(fs[0].Axis(), fs[1].Axis());
    AxisCycle(n, m);
    assert m == n;
    SlotFields(p);
  }

  /// For perpendicular faces, `from_faces([f1, f2]).faces()` lists the same
  /// two faces, in either order.
  lemma FromFacesRoundTrip(f1: Face, f2: Face)
    requires f1.Axis() != f2.Axis()
    ensures var fs := EdgePositionFromFaces([f1, f2]).Faces(); fs == [f1, f2] || fs == [f2, f1]
  {
    var n := OtherAxis(f1.Axis(), f2.Axis());
    var p := EdgePositionFromFaces([f1, f2]);
    if f1.Axis() == n.Next() {
      assert f2.Axis() == n.Prev() by {
        AxisCycle(n, f2.Axis());
      }
      assert p == (f1.Direction().U8() + 2 * f2.Direction().U8() + 4 * n.U8()) as EdgePosition;
      FromFieldsFaces(f1, f2, n);
    } else {
      assert f1.Axis() == n.Prev() && f2.Axis() == n.Next() by {
        AxisCycle(n, f1.Axis());
        AxisCycle(n, f2.Axis());
      }
      assert p == (f2.Direction().U8() + 2 * f1.Direction().U8() + 4 * n.U8()) as EdgePosition;
      FromFieldsFaces(f2, f1, n);
    }
  }

  /// The slot packed from a face on `n.Next()` and a face on `n.Prev()` has
  /// exactly those two faces.
  lemma FromFieldsFaces(f1: Face, f2: Face, n: Axis)
    requires f1.Axis() == n.Next() && f2.Axis() == n.Prev()
    ensures var p := (f1.Direction().U8() + 2 * f2.Direction().U8() + 4 * n.U8()) as EdgePosition;
      p.Faces() == [f1, f2]
  {
    SlotFromFields(f1.Direction(), f2.Direction(), n);
    FaceEncoding(f1, f2);
    FaceEncoding(f2, f1);
  }

  /// Packing a normal and two directions and reading them back.
  lemma SlotFromFields(a: Direction, b: Direction, n: Axis)
    ensures var p := (a.U8() + 2 * b.U8() + 4 * n.U8()) as EdgePosition;
      p.A() == a && p.B() == b && p.Normal() == n
  {
  }

  /// The stored bits are the directions along the two non-normal axes.
  lemma DirectionOnAxisBits(p: EdgePosition)
    ensures p.DirectionOnAxis(p.Normal().Next()) == p.A()
    ensures p.DirectionOnAxis(p.Normal().Prev()) == p.B()
  {
    var n := p.Normal();
    assert (3 - n.U8() + n.Next().U8()) % 3 - 1 == 0 && (3 - n.U8() + n.Prev().U8()) % 3 - 1 == 1 by {
      match n
      case X =>
      case Y =>
      case Z =>
    }
    SlotBits(p);
  }

  /// A slot contains exactly its two faces.
  lemma ContainsFaceIff(p: EdgePosition, f: Face)
    ensures p.ContainsFace(f) <==> f in p.Faces()
  {
    var n := p.Normal();
    AxisCycle(n, f.Axis());
    DirectionOnAxisBits(p);
    var fs := p.Faces();
    FaceEncoding(f, fs[0]);
    FaceEncoding(f, fs[1]);
  }

  /// The two faces of every slot, written out in slot order: an independent
  /// listing of what `faces` computes from the bit fields.
  function EdgeFaces(i: nat): (Face, Face)
    requires i < 12
  {
    match i
    case 0 => (Face.U, Face.F) case 1 => (Face.D, Face.F) case 2 => (Face.U, Face.B) case 3 => (Face.D, Face.B)
    case 4 => (Face.F, Face.R) case 5 => (Face.B, Face.R) case 6 => (Face.F, Face.L) case 7 => (Face.B, Face.L)
    case 8 => (Face.R, Face.U) case 9 => (Face.L, Face.U) case 10 => (Face.R, Face.D) case _ => (Face.L, Face.D)
  }

  /// `faces()` agrees with the listing for all twelve slots.
  lemma FacesTable(p: EdgePosition)
    ensures p.Faces() == [EdgeFaces(p as nat).0, EdgeFaces(p as nat).1]
  {
    if p == 0 {
      assert p.A() == Positive && p.B() == Positive && p.Normal() == X;
      assert NewFace(Y, Positive) == Face.U && NewFace(Z, Positive) == Face.F;
    } else if p == 1 {
      assert p.A() == Negative && p.B() == Positive && p.Normal() == X;
      assert NewFace(Y, Negative) == Face.D && NewFace(Z, Positive) == Face.F;
    } else if p == 2 {
      assert p.A() == Positive && p.B() == Negative && p.Normal() == X;
      assert NewFace(Y, Positive) == Face.U && NewFace(Z, Negative) == Face.B;
    } else if p == 3 {
      assert p.A() == Negative && p.B() == Negative && p.Normal() == X;
      assert NewFace(Y, Negative) == Face.D && NewFace(Z, Negative) == Face.B;
    } else if p == 4 {
      assert p.A() == Positive && p.B() == Positive && p.Normal() == Y;
      assert NewFace(Z, Positive) == Face.F && NewFace(X, Positive) == Face.R;
    } else if p == 5 {
      assert p.A() == Negative && p.B() == Positive && p.Normal() == Y;
      assert NewFace(Z, Negative) == Face.B && NewFace(X, Positive) == Face.R;
    } else if p == 6 {
      assert p.A() == Positive && p.B() == Negative && p.Normal() == Y;
      assert NewFace(Z, Positive) == Face.F && NewFace(X, Negative) == Face.L;
    } else if p == 7 {
      assert p.A() == Negative && p.B() == Negative && p.Normal() == Y;
      assert NewFace(Z, Negative) == Face.B && NewFace(X, Negative) == Face.L;
    } else if p == 8 {
      assert p.A() == Positive && p.B() == Positive && p.Normal() == Z;
      assert NewFace(X, Positive) == Face.R && NewFace(Y, Positive) == Face.U;
    } else if p == 9 {
      assert p.A() == Negative && p.B() == Positive && p.Normal() == Z;
      assert NewFace(X, Negative) == Face.L && NewFace(Y, Positive) == Face.U;
    } else if p == 10 {
      assert p.A() == Positive && p.B() == Negative && p.Normal() == Z;
      assert NewFace(X, Positive) == Face.R && NewFace(Y, Negative) == Face.D;
    } else if p == 11 {
      assert p.A() == Negative && p.B() == Negative && p.Normal() == Z;
      assert NewFace(X, Negative) == Face.L && NewFace(Y, Negative) == Face.D;
    }
  }

  /// Turn distance read off the listing: two minus the shared faces.
  function TableDistance(i: nat, j: nat): nat
    requires i < 12 && j < 12
  {
    var (f0, f1) := EdgeFaces(i);
    var (g0, g1) := EdgeFaces(j);
    2 - ((if f0 == g0 || f0 == g1 then 1 else 0) + (if f1 == g0 || f1 == g1 then 1 else 0))
  }

  /// How many of the slots `0 .. n - 1` the listing puts at distance `d`
  /// from slot `i`.
  function TableCount(i: nat, d: nat, n: nat): nat
    requires i < 12 && n <= 12
  {
    if n == 0 then 0
    else TableCount(i, d, n - 1) + (if TableDistance(i, n - 1) == d then 1 else 0)
  }

  lemma TableCounts0()
    ensures TableCount(0, 0, 12) == 1 && TableCount(0, 1, 12) == 6
  {
    assert TableCount(0, 0, 2) == 1;
    assert TableCount(0, 0, 4) == 1;
    assert TableCount(0, 0, 6) == 1;
    assert TableCount(0, 0, 8) == 1;
    assert TableCount(0, 0, 10) == 1;
    assert TableCount(0, 1, 2) == 1;
    assert TableCount(0, 1, 4) == 2;
    assert TableCount(0, 1, 6) == 3;
    assert TableCount(0, 1, 8) == 4;
    assert TableCount(0, 1, 10) == 6;
  }

  lemma TableCounts1()
    ensures TableCount(1, 0, 12) == 1 && TableCount(1, 1, 12) == 6
  {
    assert TableCount(1, 0, 2) == 1;
    assert TableCount(1, 0, 4) == 1;
    assert TableCount(1, 0, 6) == 1;
    assert TableCount(1, 0, 8) == 1;
    assert TableCount(1, 0, 10) == 1;
    assert TableCount(1, 1, 2) == 1;
    assert TableCount(1, 1, 4) == 2;
    assert TableCount(1, 1, 6) == 3;
    assert TableCount(1, 1, 8) == 4;
    assert TableCount(1, 1, 10) == 4;
  }

  lemma TableCounts2()
    ensures TableCount(2, 0, 12) == 1 && TableCount(2, 1, 12) == 6
  {
    assert TableCount(2, 0, 2) == 0;
    assert TableCount(2, 0, 4) == 1;
    assert TableCount(2, 0, 6) == 1;
    assert TableCount(2, 0, 8) == 1;
    assert TableCount(2, 0, 10) == 1;
    assert TableCount(2, 1, 2) == 1;
    assert TableCount(2, 1, 4) == 2;
    assert TableCount(2, 1, 6) == 3;
    assert TableCount(2, 1, 8) == 4;
    assert TableCount(2, 1, 10) == 6;
  }

  lemma TableCounts3()
    ensures TableCount(3, 0, 12) == 1 && TableCount(3, 1, 12) == 6
  {
    assert TableCount(3, 0, 2) == 0;
    assert TableCount(3, 0, 4) == 1;
    assert TableCount(3, 0, 6) == 1;
    assert TableCount(3, 0, 8) == 1;
    assert TableCount(3, 0, 10) == 1;
    assert TableCount(3, 1, 2) == 1;
    assert TableCount(3, 1, 4) == 2;
    assert TableCount(3, 1, 6) == 3;
    assert TableCount(3, 1, 8) == 4;
    assert TableCount(3, 1, 10) == 4;
  }

  lemma TableCounts4()
    ensures TableCount(4, 0, 12) == 1 && TableCount(4, 1, 12) == 6
  {
    assert TableCount(4, 0, 2) == 0;
    assert TableCount(4, 0, 4) == 0;
    assert TableCount(4, 0, 6) == 1;
    assert TableCount(4, 0, 8) == 1;
    assert TableCount(4, 0, 10) == 1;
    assert TableCount(4, 1, 2) == 2;
    assert TableCount(4, 1, 4) == 2;
    assert TableCount(4, 1, 6) == 3;
    assert TableCount(4, 1, 8) == 4;
    assert TableCount(4, 1, 10) == 5;
  }

  lemma TableCounts5()
    ensures TableCount(5, 0, 12) == 1 && TableCount(5, 1, 12) == 6
  {
    assert TableCount(5, 0, 2) == 0;
    assert TableCount(5, 0, 4) == 0;
    assert TableCount(5, 0, 6) == 1;
    assert TableCount(5, 0, 8) == 1;
    assert TableCount(5, 0, 10) == 1;
    assert TableCount(5, 1, 2) == 0;
    assert TableCount(5, 1, 4) == 2;
    assert TableCount(5, 1, 6) == 3;
    assert TableCount(5, 1, 8) == 4;
    assert TableCount(5, 1, 10) == 5;
  }

  lemma TableCounts6()
    ensures TableCount(6, 0, 12) == 1 && TableCount(6, 1, 12) == 6
  {
    assert TableCount(6, 0, 2) == 0;
    assert TableCount(6, 0, 4) == 0;
    assert TableCount(6, 0, 6) == 0;
    assert TableCount(6, 0, 8) == 1;
    assert TableCount(6, 0, 10) == 1;
    assert TableCount(6, 1, 2) == 2;
    assert TableCount(6, 1, 4) == 2;
    assert TableCount(6, 1, 6) == 3;
    assert TableCount(6, 1, 8) == 4;
    assert TableCount(6, 1, 10) == 5;
  }

  lemma TableCounts7()
    ensures TableCount(7, 0, 12) == 1 && TableCount(7, 1, 12) == 6
  {
    assert TableCount(7, 0, 2) == 0;
    assert TableCount(7, 0, 4) == 0;
    assert TableCount(7, 0, 6) == 0;
    assert TableCount(7, 0, 8) == 1;
    assert TableCount(7, 0, 10) == 1;
    assert TableCount(7, 1, 2) == 0;
    assert TableCount(7, 1, 4) == 2;
    assert TableCount(7, 1, 6) == 3;
    assert TableCount(7, 1, 8) == 4;
    assert TableCount(7, 1, 10) == 5;
  }

  lemma TableCounts8()
    ensures TableCount(8, 0, 12) == 1 && TableCount(8, 1, 12) == 6
  {
    assert TableCount(8, 0, 2) == 0;
    assert TableCount(8, 0, 4) == 0;
    assert TableCount(8, 0, 6) == 0;
    assert TableCount(8, 0, 8) == 0;
    assert TableCount(8, 0, 10) == 1;
    assert TableCount(8, 1, 2) == 1;
    assert TableCount(8, 1, 4) == 2;
    assert TableCount(8, 1, 6) == 4;
    assert TableCount(8, 1, 8) == 4;
    assert TableCount(8, 1, 10) == 5;
  }

  lemma TableCounts9()
    ensures TableCount(9, 0, 12) == 1 && TableCount(9, 1, 12) == 6
  {
    assert TableCount(9, 0, 2) == 0;
    assert TableCount(9, 0, 4) == 0;
    assert TableCount(9, 0, 6) == 0;
    assert TableCount(9, 0, 8) == 0;
    assert TableCount(9, 0, 10) == 1;
    assert TableCount(9, 1, 2) == 1;
    assert TableCount(9, 1, 4) == 2;
    assert TableCount(9, 1, 6) == 2;
    assert TableCount(9, 1, 8) == 4;
    assert TableCount(9, 1, 10) == 5;
  }

  lemma TableCounts10()
    ensures TableCount(10, 0, 12) == 1 && TableCount(10, 1, 12) == 6
  {
    assert TableCount(10, 0, 2) == 0;
    assert TableCount(10, 0, 4) == 0;
    assert TableCount(10, 0, 6) == 0;
    assert TableCount(10, 0, 8) == 0;
    assert TableCount(10, 0, 10) == 0;
    assert TableCount(10, 1, 2) == 1;
    assert TableCount(10, 1, 4) == 2;
    assert TableCount(10, 1, 6) == 4;
    assert TableCount(10, 1, 8) == 4;
    assert TableCount(10, 1, 10) == 5;
  }

  lemma TableCounts11()
    ensures TableCount(11, 0, 12) == 1 && TableCount(11, 1, 12) == 6
  {
    assert TableCount(11, 0, 2) == 0;
    assert TableCount(11, 0, 4) == 0;
    assert TableCount(11, 0, 6) == 0;
    assert TableCount(11, 0, 8) == 0;
    assert TableCount(11, 0, 10) == 0;
    assert TableCount(11, 1, 2) == 1;
    assert TableCount(11, 1, 4) == 2;
    assert TableCount(11, 1, 6) == 2;
    assert TableCount(11, 1, 8) == 4;
    assert TableCount(11, 1, 10) == 5;
  }

  /// Every slot has one slot at distance 0 and six at distance 1 in the listing.
  lemma TableCounts(i: nat)
    requires i < 12
    ensures TableCount(i, 0, 12) == 1 && TableCount(i, 1, 12) == 6
  {
    if i == 0 { TableCounts0(); }
    else if i == 1 { TableCounts1(); }
    else if i == 2 { TableCounts2(); }
    else if i == 3 { TableCounts3(); }
    else if i == 4 { TableCounts4(); }
    else if i == 5 { TableCounts5(); }
    else if i == 6 { TableCounts6(); }
    else if i == 7 { TableCounts7(); }
    else if i == 8 { TableCounts8(); }
    else if i == 9 { TableCounts9(); }
    else if i == 10 { TableCounts10(); }
    else { TableCounts11(); }
  }

  /// `turn_distance` is the listing's distance.
  lemma TurnDistanceTable(p: EdgePosition, q: EdgePosition)
    ensures p.TurnDistance(q) == TableDistance(p as nat, q as nat)
  {
    FacesTable(p);
    FacesTable(q);
  }

  /// How many of the slots `0 .. n - 1` lie at turn distance `d` from `p`.
  function CountAtDistance(p: EdgePosition, d: nat, n: nat): (c: nat)
    requires n <= 12
    ensures c <= n
  {
    if n == 0 then 0
    else CountAtDistance(p, d, n - 1) + (if p.TurnDistance((n - 1) as EdgePosition) == d then 1 else 0)
  }

  lemma {:induction false} CountMatchesTable(p: EdgePosition, d: nat, n: nat)
    requires n <= 12
    ensures CountAtDistance(p, d, n) == TableCount(p as nat, d, n)
  {
    if n > 0 {
      var q := (n - 1) as EdgePosition;
      CountMatchesTable(p, d, n - 1);
      TurnDistanceTable(p, q);
      assert CountAtDistance(p, d, n) == CountAtDistance(p, d, n - 1) + (if p.TurnDistance(q) == d then 1 else 0);
    }
  }

  /// Every slot is at distance 0, 1 or 2, so the three counts add up.
  lemma {:induction false} CountsAddUp(p: EdgePosition, n: nat)
    requires n <= 12
    ensures CountAtDistance(p, 0, n) + CountAtDistance(p, 1, n) + CountAtDistance(p, 2, n) == n
  {
    if n > 0 {
      CountsAddUp(p, n - 1);
    }
  }

  /// From any slot, one slot is 0 quarter turns away, six are 1 away and
  /// five are 2 away.
  lemma TurnDistanceDistribution(p: EdgePosition)
    ensures CountAtDistance(p, 0, 12) == 1
    ensures CountAtDistance(p, 1, 12) == 6
    ensures CountAtDistance(p, 2, 12) == 5
  {
    TableCounts(p as nat);
    CountMatchesTable(p, 0, 12);
    CountMatchesTable(p, 1, 12);
    CountsAddUp(p, 12);
  }

  /// The accessors read bit 0, bit 1 and bits 2-3.
  lemma SlotBits(p: EdgePosition)
    ensures p.A().U8() == Bit(p as nat, 0) && p.B().U8() == Bit(p as nat, 1)
    ensures p.Normal().U8() == p as int / 4
  {
    assert Pow2(0) == 1 && Pow2(1) == 2;
  }

  /// A slot that does not lie on the turned face keeps its edge.
  lemma PullOffFace(mov: Move, i: EdgePosition)
    requires !i.ContainsFace(mov.Face())
    ensures Pull(mov, i) == (i, false)
  {
    DirectionOnAxisBits(i);
    AxisCycle(i.Normal(), mov.Face().Axis());
  }

  /// A half turn swaps each slot on the face with the one across the face
  /// (the bit along the face's perpendicular axis flipped), orientation kept.
  lemma PullDouble(mov: Move, i: EdgePosition)
    requires i.ContainsFace(mov.Face()) && mov.Amount() == Double
    ensures var (j, t) := Pull(mov, i);
      var g := OtherAxis(mov.Axis(), i.Normal());
      !t && j != i && j.Normal() == i.Normal() && j.ContainsFace(mov.Face()) &&
      j.DirectionOnAxis(g) == i.DirectionOnAxis(g).Flip()
  {
    var f, n := mov.Face(), i.Normal();
    DirectionOnAxisBits(i);
    AxisCycle(n, f.Axis());
    var offset := if f.Axis() == n.Next() then 1 else 0;
    FlipLowBit(i as nat, offset);
    var j := FlipBit(i as nat, offset) as EdgePosition;
    assert Pull(mov, i) == (j, false);
    SlotBits(i);
    SlotBits(j);
    assert j.Normal() == n;
    DirectionOnAxisBits(j);
    AxisCycle(f.Axis(), n);
    if f.Axis() == n.Next() {
      assert j.A() == i.A() && j.B() == i.B().Flip();
    } else {
      assert j.B() == i.B() && j.A() == i.A().Flip();
    }
    assert j.ContainsFace(f);
  }

  /// Half turns are involutions on the slots of the face.
  lemma PullDoubleTwice(mov: Move, i: EdgePosition)
    requires i.ContainsFace(mov.Face()) && mov.Amount() == Double
    ensures Pull(mov, Pull(mov, i).0) == (i, false)
  {
    var r1 := Pull(mov, i);
    PullDouble(mov, i);
    var r2 := Pull(mov, r1.0);
    PullDouble(mov, r1.0);
    var f, n := mov.Face(), i.Normal();
    var g := OtherAxis(f.Axis(), n);
    DirectionRoundTrips(i.DirectionOnAxis(g), 0);
    assert r2.0.DirectionOnAxis(g) == i.DirectionOnAxis(g);
    assert r2.0.DirectionOnAxis(f.Axis()) == i.DirectionOnAxis(f.Axis());
    AxisCycle(n, f.Axis());
    AxisCycle(f.Axis(), n);
    SlotDetermined(r2.0, i);
  }

  /// A slot is determined by its normal and its directions on the two other
  /// axes.
  lemma SlotDetermined(p: EdgePosition, q: EdgePosition)
    requires p.Normal() == q.Normal()
    requires p.DirectionOnAxis(p.Normal().Next()) == q.DirectionOnAxis(q.Normal().Next())
    requires p.DirectionOnAxis(p.Normal().Prev()) == q.DirectionOnAxis(q.Normal().Prev())
    ensures p == q
  {
    DirectionOnAxisBits(p);
    DirectionOnAxisBits(q);
    SlotFields(p);
    SlotFields(q);
  }

  /// A quarter turn sends a slot on the face to another slot on the face,
  /// parallel to the third axis; the slot's coordinate on that third axis
  /// becomes its coordinate on the old normal, negated when the old normal is
  /// the lead axis.  Orientation toggles on Z turns only.
  lemma PullQuarter(mov: Move, i: EdgePosition)
    requires i.ContainsFace(mov.Face()) && mov.Amount() != Double
    ensures var (j, t) := Pull(mov, i);
      var n, g := i.Normal(), OtherAxis(mov.Axis(), i.Normal());
      var s := i.DirectionOnAxis(g);
      t == (mov.Axis() == Z) && j.ContainsFace(mov.Face()) && j.Normal() == g &&
      j.DirectionOnAxis(n) == (if LeadAxis(mov) == n then s.Flip() else s)
  {
    var f, n := mov.Face(), i.Normal();
    DirectionOnAxisBits(i);
    AxisCycle(n, f.Axis());
    var other := TurnedFace(mov, i);
    TurnedFaceAxis(mov, i);
    assert Pull(mov, i) == (EdgePositionFromFaces([other, f]), f.Axis() == Z);
    FromFacesContains(other, f);
  }

  /// The turned face lies on the old normal; its direction is the slot's
  /// coordinate on the third axis, negated when the normal is the lead axis.
  lemma TurnedFaceAxis(mov: Move, i: EdgePosition)
    requires mov.Axis() != i.Normal()
    ensures var n, g := i.Normal(), OtherAxis(mov.Axis(), i.Normal());
      var s := i.DirectionOnAxis(g);
      TurnedFace(mov, i) == NewFace(n, if LeadAxis(mov) == n then s.Flip() else s)
  {
    var a, n := mov.Axis(), i.Normal();
    var g := OtherAxis(a, n);
    AxisCycle(a, n);
    AxisCycle(a, g);
  }

  /// The slot made from two perpendicular faces contains both and is
  /// parallel to the third axis.
  lemma FromFacesContains(f1: Face, f2: Face)
    requires f1.Axis() != f2.Axis()
    ensures var p := EdgePositionFromFaces([f1, f2]);
      p.ContainsFace(f1) && p.ContainsFace(f2) && p.Normal() == OtherAxis(f1.Axis(), f2.Axis())
  {
    var p := EdgePositionFromFaces([f1, f2]);
    FromFacesRoundTrip(f1, f2);
    ContainsFaceIff(p, f1);
    ContainsFaceIff(p, f2);
    AxisCycle(p.Normal(), f1.Axis());
    AxisCycle(p.Normal(), f2.Axis());
  }


  /// An edge is determined by its home slot and its orientation.
  lemma EdgeDetermined(e1: Edge, e2: Edge)
    requires e1.Position() == e2.Position() && e1.IsOriented() == e2.IsOriented()
    ensures e1 == e2
  {
  }

  /// Toggling twice toggles by the exclusive or.
  lemma ToggleTwice(e: Edge, t: bool, u: bool)
    ensures Toggle(Toggle(e, t), u) == Toggle(e, t != u)
  {
    EdgeDetermined(Toggle(Toggle(e, t), u), Toggle(e, t != u));
  }

  /// Where slot `i` takes its edge from when `m1` is applied and then `m2`,
  /// and whether the orientation bit ends up toggled.
  function PullThen(m1: Move, m2: Move, i: EdgePosition): (EdgePosition, bool) {
    var (j, t) := Pull(m2, i);
    var (k, u) := Pull(m1, j);
    (k, t != u)
  }

  /// Two `move_pieces` calls in a row pull each slot's edge through
  /// `PullThen`.
  lemma MovePiecesThen(edges: seq<Edge>, m1: Move, m2: Move)
    requires |edges| == 12
    ensures forall k :: 0 <= k < 12 ==>
      MovePieces(MovePieces(edges, m1), m2)[k] ==
        Toggle(edges[PullThen(m1, m2, k as EdgePosition).0], PullThen(m1, m2, k as EdgePosition).1)
  {
    var once := MovePieces(edges, m1);
    forall k | 0 <= k < 12
      ensures MovePieces(once, m2)[k] ==
        Toggle(edges[PullThen(m1, m2, k as EdgePosition).0], PullThen(m1, m2, k as EdgePosition).1)
    {
      var (j, t) := Pull(m2, k as EdgePosition);
      var (l, u) := Pull(m1, j);
      assert once[j] == Toggle(edges[l], u);
      ToggleTwice(edges[l], u, t);
    }
  }

  /// A move followed by its inverse brings every slot's edge back.
  lemma PullInverse(m: Move, i: EdgePosition)
    ensures PullThen(m, m.Inverse(), i) == (i, false)
  {
    if !i.ContainsFace(m.Face()) {
      PullInverseOffFace(m, i);
    } else if m.Amount() == Double {
      PullInverseDouble(m, i);
    } else {
      PullInverseQuarter(m, i);
    }
  }

  lemma PullInverseOffFace(m: Move, i: EdgePosition)
    requires !i.ContainsFace(m.Face())
    ensures PullThen(m, m.Inverse(), i) == (i, false)
  {
    NewMoveAccessors(m.Face(), m.Amount().Reversed());
    PullOffFace(m.Inverse(), i);
    PullOffFace(m, i);
  }

  lemma PullInverseDouble(m: Move, i: EdgePosition)
    requires i.ContainsFace(m.Face()) && m.Amount() == Double
    ensures PullThen(m, m.Inverse(), i) == (i, false)
  {
    InverseFixesHalfTurns(m);
    PullDoubleTwice(m, i);
  }

  lemma PullInverseQuarter(m: Move, i: EdgePosition)
    requires i.ContainsFace(m.Face()) && m.Amount() != Double
    ensures PullThen(m, m.Inverse(), i) == (i, false)
  {
    var f, n := m.Face(), i.Normal();
    var inv := m.Inverse();
    InverseTurnsBack(m);
    var r1 := Pull(inv, i);
    PullQuarter(inv, i);
    var r2 := Pull(m, r1.0);
    PullQuarter(m, r1.0);
    AxisCycle(f.Axis(), n);
    QuarterBack(f, i, r1.0, r2.0, LeadAxis(inv), LeadAxis(m));
  }

  /// Two quarter turns of the same face in opposite senses bring a slot
  /// back: the facts `PullQuarter` gives about each step pin the result down.
  lemma QuarterBack(f: Face, i: EdgePosition, j: EdgePosition, k: EdgePosition, lead1: Axis, lead2: Axis)
    requires i.ContainsFace(f) && j.ContainsFace(f) && k.ContainsFace(f)
    requires lead1 != f.Axis() && lead2 != f.Axis() && lead1 != lead2
    requires var n, g := i.Normal(), OtherAxis(f.Axis(), i.Normal());
      var s := i.DirectionOnAxis(g);
      j.Normal() == g && j.DirectionOnAxis(n) == (if lead1 == n then s.Flip() else s)
    requires var n, g := j.Normal(), OtherAxis(f.Axis(), j.Normal());
      var s := j.DirectionOnAxis(g);
      k.Normal() == g && k.DirectionOnAxis(n) == (if lead2 == n then s.Flip() else s)
    ensures k == i
  {
    var a, n := f.Axis(), i.Normal();
    var g := OtherAxis(a, n);
    AxisCycle(a, n);
    AxisCycle(a, g);
    AxisCycle(a, lead1);
    AxisCycle(a, lead2);
    assert OtherAxis(a, g) == n;
    var s := i.DirectionOnAxis(g);
    DirectionRoundTrips(s, 0);
    if lead1 == n {
      assert lead2 == g && j.DirectionOnAxis(n) == s.Flip();
    } else {
      assert lead2 == n && j.DirectionOnAxis(n) == s;
    }
    assert k.DirectionOnAxis(g) == s;
    AxisCycle(n, a);
    SlotDetermined(k, i);
  }


  /// A quarter turn followed by the half turn of the same face is the
  /// opposite quarter turn.
  lemma PullQuarterThenHalf(m: Move, i: EdgePosition)
    requires m.Amount() != Double
    ensures PullThen(m, NewMove(m.Face(), Double), i) == Pull(m.Inverse(), i)
  {
    if i.ContainsFace(m.Face()) {
      PullQuarterThenHalfOnFace(m, i);
    } else {
      NewMoveAccessors(m.Face(), Double);
      InverseTurnsBack(m);
      PullOffFace(NewMove(m.Face(), Double), i);
      PullOffFace(m, i);
      PullOffFace(m.Inverse(), i);
    }
  }

  lemma PullQuarterThenHalfOnFace(m: Move, i: EdgePosition)
    requires m.Amount() != Double && i.ContainsFace(m.Face())
    ensures PullThen(m, NewMove(m.Face(), Double), i) == Pull(m.Inverse(), i)
  {
    var f, n := m.Face(), i.Normal();
    var g := OtherAxis(f.Axis(), n);
    var d := NewMove(f, Double);
    var inv := m.Inverse();
    var r1 := Pull(d, i);
    assert r1.0.ContainsFace(f) && !r1.1 && r1.0.Normal() == n && r1.0.DirectionOnAxis(g) == i.DirectionOnAxis(g).Flip() by {
      NewMoveAccessors(f, Double);
      PullDouble(d, i);
    }
    var r2 := Pull(m, r1.0);
    assert r2.0.ContainsFace(f) && r2.1 == (f.Axis() == Z) && r2.0.Normal() == OtherAxis(f.Axis(), n) &&
      r2.0.DirectionOnAxis(n) == (var s := r1.0.DirectionOnAxis(g); if LeadAxis(m) == n then s.Flip() else s) by {
      PullQuarter(m, r1.0);
    }
    var r3 := Pull(inv, i);
    assert r3.0.ContainsFace(f) && r3.1 == (f.Axis() == Z) && r3.0.Normal() == g &&
      r3.0.DirectionOnAxis(n) == (var s := i.DirectionOnAxis(g); if LeadAxis(inv) == n then s.Flip() else s) by {
      InverseTurnsBack(m);
      PullQuarter(inv, i);
    }
    assert LeadAxis(m) != f.Axis() && LeadAxis(inv) != f.Axis() && LeadAxis(m) != LeadAxis(inv) by {
      InverseTurnsBack(m);
      AxisCycle(f.Axis(), n);
    }
    QuarterAfterHalf(f, i, r1.0, r2.0, r3.0, LeadAxis(m), LeadAxis(inv));
  }



  /// The facts `PullDouble` and `PullQuarter` give about a half turn then a
  /// quarter turn, and about the opposite quarter turn, name the same slot.
  lemma QuarterAfterHalf(f: Face, i: EdgePosition, j: EdgePosition, k: EdgePosition, k': EdgePosition, lead1: Axis, lead2: Axis)
    requires i.ContainsFace(f) && j.ContainsFace(f) && k.ContainsFace(f) && k'.ContainsFace(f)
    requires lead1 != f.Axis() && lead2 != f.Axis() && lead1 != lead2
    requires var g := OtherAxis(f.Axis(), i.Normal());
      j.Normal() == i.Normal() && j.DirectionOnAxis(g) == i.DirectionOnAxis(g).Flip()
    requires var n, g := j.Normal(), OtherAxis(f.Axis(), j.Normal());
      var s := j.DirectionOnAxis(g);
      k.Normal() == g && k.DirectionOnAxis(n) == (if lead1 == n then s.Flip() else s)
    requires var n, g := i.Normal(), OtherAxis(f.Axis(), i.Normal());
      var s := i.DirectionOnAxis(g);
      k'.Normal() == g && k'.DirectionOnAxis(n) == (if lead2 == n then s.Flip() else s)
    ensures k == k'
  {
    var a, n := f.Axis(), i.Normal();
    var g := OtherAxis(a, n);
    AxisCycle(a, n);
    AxisCycle(a, g);
    AxisCycle(a, lead1);
    AxisCycle(a, lead2);
    assert k.DirectionOnAxis(n) == k'.DirectionOnAxis(n);
    AxisCycle(g, a);
    SlotDetermined(k, k');
  }

  /// `move_pieces` by a move and then by its inverse gives back the edges.
  lemma MoveThenInverse(edges: seq<Edge>, m: Move)
    requires |edges| == 12
    ensures MovePieces(MovePieces(edges, m), m.Inverse()) == edges
  {
    MovePiecesThen(edges, m, m.Inverse());
    forall k | 0 <= k < 12
      ensures MovePieces(MovePieces(edges, m), m.Inverse())[k] == edges[k]
    {
      PullInverse(m, k as EdgePosition);
    }
  }

  /// A quarter turn and then the half turn of the same face act on the edges
  /// as the opposite quarter turn.
  lemma QuarterThenHalf(edges: seq<Edge>, m: Move)
    requires |edges| == 12 && m.Amount() != Double
    ensures MovePieces(MovePieces(edges, m), NewMove(m.Face(), Double)) == MovePieces(edges, m.Inverse())
  {
    var d := NewMove(m.Face(), Double);
    MovePiecesThen(edges, m, d);
    forall k | 0 <= k < 12
      ensures MovePieces(MovePieces(edges, m), d)[k] == MovePieces(edges, m.Inverse())[k]
    {
      PullQuarterThenHalf(m, k as EdgePosition);
    }
  }

  /// `move_pieces` keeps the edge of every slot off the turned face.
  lemma MovePiecesOffFace(edges: seq<Edge>, mov: Move, i: EdgePosition)
    requires |edges| == 12 && !i.ContainsFace(mov.Face())
    ensures MovePieces(edges, mov)[i] == edges[i]
  {
    PullOffFace(mov, i);
  }

  /// A slot on the turned face receives the edge of another slot on that
  /// face; half turns keep its orientation bit, quarter turns toggle it
  /// exactly on Z-axis faces.
  lemma MovePiecesOnFace(edges: seq<Edge>, mov: Move, i: EdgePosition)
    requires |edges| == 12 && i.ContainsFace(mov.Face())
    ensures var (j, t) := Pull(mov, i);
      j != i && j.ContainsFace(mov.Face()) &&
      t == (mov.Amount() != Double && mov.Axis() == Z) &&
      MovePieces(edges, mov)[i] == Toggle(edges[j], t)
  {
    if mov.Amount() == Double {
      PullDouble(mov, i);
    } else {
      PullQuarter(mov, i);
      AxisCycle(mov.Axis(), i.Normal());
    }
  }

  /// The normal, the orientation axis and the other axis are the three axes.
  lemma OrientationAxes(p: EdgePosition)
    ensures p.OrientationAxis() != p.Normal() && p.NonOrientationAxis() != p.Normal()
    ensures p.OrientationAxis() != p.NonOrientationAxis()
  {
  }

  /// The orientation face and the other face are the slot's two faces.
  lemma OrientationFaces(p: EdgePosition)
    ensures p.OrientationFace() in p.Faces() && p.OtherFace() in p.Faces()
    ensures p.OrientationFace() != p.OtherFace()
  {
    OrientationAxes(p);
    var o, q := p.OrientationFace(), p.OtherFace();
    assert p.ContainsFace(o) && p.ContainsFace(q);
    ContainsFaceIff(p, o);
    ContainsFaceIff(p, q);
  }

  /// A sticker always shows one of the two faces of the piece's home slot,
  /// and flipping the piece shows the other one.
  lemma StickerShowsHomeFace(edge: Edge, position: EdgePosition, face: Face)
    requires face.Axis() != position.Normal()
    ensures Sticker(edge, position, face) in edge.Position().Faces()
    ensures Sticker(Toggle(edge, true), position, face) != Sticker(edge, position, face)
  {
    OrientationFaces(edge.Position());
    assert Toggle(edge, true).Position() == edge.Position();
  }

  /// In the solved state every slot shows its own faces.
  lemma SolvedSticker(p: EdgePosition, face: Face)
    requires p.ContainsFace(face)
    ensures Sticker(p.WithOrientation(Positive), p, face) == face
  {
    OrientationAxes(p);
    var e := p.WithOrientation(Positive);
    assert e.Position() == p && e.IsOriented();
    AxisCycle(p.Normal(), face.Axis());
    AxisCycle(p.OrientationAxis(), p.NonOrientationAxis());
    FaceEncoding(face, face);
  }
}
