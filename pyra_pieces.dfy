/// Vertices and faces of the Pyraminx (`norcina-pyraminx/src/piece/mod.rs`).
/// A vertex is two bits `zy`: bit 0 is its direction on the Y axis, bit 1
/// on the Z axis, and its direction on the X axis is the exclusive or of the
/// two.  A face is named by the vertex opposite to it.
module PyraPieces {
  import Types

  /// `Vertex`: U = 0b00, L = 0b01, B = 0b10, R = 0b11.
  newtype Vertex = x: int | 0 <= x < 4 {

    function U8(): (r: nat)
      ensures r < 4
    {
      this as nat
    }

    /// `x`: `(data ^ (data >> 1)) & 1`, the exclusive or of the two bits.
    function X(): (d: Types.Direction) {
      Types.FromU8Any((U8() % 2 + U8() / 2) % 2)
    }

    /// `y`: bit 0.
    function Y(): (d: Types.Direction) {
      Types.FromU8Mod2(U8())
    }

    /// `z`: `data & 0b10`, nonzero when bit 1 is set.
    function Z(): (d: Types.Direction) {
      Types.FromU8Any(U8() / 2 * 2)
    }

    /// `direction_on_axis`: the three directions are packed as `zyx` by
    /// `(data << 1) ^ (data & 1) ^ (data >> 1)` and the bit of `axis` is
    /// tested with `& (1 << axis)`.
    function DirectionOnAxis(axis: Types.Axis): (d: Types.Direction) {
      var zyx := 2 * U8() + (U8() % 2 + U8() / 2) % 2;
      Types.FromU8Any(MaskAxis(zyx, axis))
    }

    /// `orientation_direction`: the X direction, positive for U and R.
    function OrientationDirection(): (d: Types.Direction)
      ensures d.Positive? <==> this == U || this == R
    {
      X()
    }

    /// `offset`: the vertex `orientation` clockwise turns away from `start`
    /// around this vertex.  The source panics when `start` is this vertex.
    function Offset(start: Vertex, orientation: Types.Orientation3): (r: Vertex)
      requires this != start
    {
      var anchor := U8() as int;
      // `dont_negate ^ (dont_negate - 1)` with `dont_negate = (anchor ^ 1) & 1`:
      // 1 for an even anchor, -1 for an odd one.
      var sign := if anchor % 2 == 0 then 1 else -1;
      var diff := sign * orientation.U8();
      // Rotate so that the anchor is 3, step modulo 3 to skip it, and rotate
      // back.
      var startM3s := (start.U8() + (3 - anchor)) % 4;
      var endM3s := (startM3s + diff) % 3;
      var end := endM3s - (3 - anchor);
      FromI8Mod4(end)
    }

    /// `offset_face`: the same rotation, applied to the vertex naming a face.
    function OffsetFace(face: Face, orientation: Types.Orientation3): (r: Face)
      requires this != face.vertex
      ensures r.vertex == Offset(face.vertex, orientation)
    {
      Face(Offset(face.vertex, orientation))
    }
  }

  const U: Vertex := 0
  const L: Vertex := 1
  const B: Vertex := 2
  const R: Vertex := 3

  /// `Vertex::ALL`.
  const ALL_VERTICES: seq<Vertex> := [U, L, B, R]

  /// `zyx & (1 << axis)`.
  function MaskAxis(zyx: nat, axis: Types.Axis): nat {
    match axis
    case X => zyx % 2
    case Y => (zyx / 2) % 2 * 2
    case Z => (zyx / 4) % 2 * 4
  }

  /// `from_u8`: the source asserts `data < 4`.
  function VertexFromU8(data: nat): (v: Vertex)
    requires data < 4
    ensures v.U8() == data
  {
    data as Vertex
  }

  /// `from_u8_mod4`: keeps the low two bits.
  function VertexFromU8Mod4(data: nat): (v: Vertex)
    ensures v.U8() == data % 4
  {
    (data % 4) as Vertex
  }

  /// `from_i8_mod4`: `rem_euclid(4)`, which is Dafny's `%`.
  function FromI8Mod4(n: int): (v: Vertex)
    ensures v.U8() == n % 4
  {
    (n % 4) as Vertex
  }

  /// A face, named by its opposite vertex.
  datatype Face = Face(vertex: Vertex)

  /// The bit table of `x`: 00 -> 0, 01 -> 1, 10 -> 1, 11 -> 0; and the
  /// packed `direction_on_axis` reads the same three directions as `x`, `y`
  /// and `z`.
  lemma DirectionsOfVertex(v: Vertex)
    ensures v.X().U8() == (if v == L || v == B then 1 else 0)
    ensures v.Y().U8() == v.U8() % 2 && v.Z().U8() == v.U8() / 2
    ensures v.DirectionOnAxis(Types.X) == v.X()
    ensures v.DirectionOnAxis(Types.Y) == v.Y()
    ensures v.DirectionOnAxis(Types.Z) == v.Z()
  {
  }

  /// The three directions name the vertex: the X direction is the exclusive
  /// or of the other two, and two vertices with the same Y and Z directions
  /// are equal.
  lemma VertexDirections(v: Vertex, w: Vertex)
    ensures v.X().U8() == (v.Y().U8() + v.Z().U8()) % 2
    ensures v.Y() == w.Y() && v.Z() == w.Z() ==> v == w
  {
  }

  /// The three vertices around `anchor`, in clockwise order, as documented
  /// on `offset`.
  function Cycle(anchor: Vertex): (c: seq<Vertex>)
    ensures |c| == 3 && anchor !in c && c[0] != c[1] && c[1] != c[2] && c[0] != c[2]
  {
    if anchor == U then [R, L, B]
    else if anchor == R then [L, U, B]
    else if anchor == L then [U, R, B]
    else [R, U, L]
  }

  /// `offset` walks `Cycle(anchor)`: from its `start`-th vertex, `i`
  /// clockwise turns lead to its `(start + i) % 3`-th vertex.
  lemma OffsetFollowsCycle(anchor: Vertex, start: nat, i: Types.Orientation3)
    requires start < 3
    ensures anchor.Offset(Cycle(anchor)[start], i) == Cycle(anchor)[(start + i.U8()) % 3]
  {
    if anchor == U {
      OffsetCycleU(start, i);
    } else if anchor == L {
      OffsetCycleL(start, i);
    } else if anchor == B {
      OffsetCycleB(start, i);
    } else {
      OffsetCycleR(start, i);
    }
  }

  /// Every turn about U from every other vertex, as the cycle table
  /// documented on `offset` lists it.
  lemma OffsetTableU()
    ensures U.Offset(R, 0) == R
    ensures U.Offset(R, 1) == L
    ensures U.Offset(R, 2) == B
    ensures U.Offset(L, 0) == L
    ensures U.Offset(L, 1) == B
    ensures U.Offset(L, 2) == R
    ensures U.Offset(B, 0) == B
    ensures U.Offset(B, 1) == R
    ensures U.Offset(B, 2) == L
  {
    assert U.Offset(R, 0) == R;
    assert U.Offset(R, 1) == L;
    assert U.Offset(R, 2) == B;
    assert U.Offset(L, 0) == L;
    assert U.Offset(L, 1) == B;
    assert U.Offset(L, 2) == R;
    assert U.Offset(B, 0) == B;
    assert U.Offset(B, 1) == R;
    assert U.Offset(B, 2) == L;
  }

  /// `OffsetFollowsCycle` for the anchor U.
  lemma OffsetCycleU(start: nat, i: Types.Orientation3)
    requires start < 3
    ensures U.Offset(Cycle(U)[start], i) == Cycle(U)[(start + i.U8()) % 3]
  {
    OffsetTableU();
    if start == 0 {
      if i == 0 {} else if i == 1 {} else {}
    } else if start == 1 {
      if i == 0 {} else if i == 1 {} else {}
    } else {
      if i == 0 {} else if i == 1 {} else {}
    }
  }

  /// Every turn about R from every other vertex, as the cycle table
  /// documented on `offset` lists it.
  lemma OffsetTableR()
    ensures R.Offset(L, 0) == L
    ensures R.Offset(L, 1) == U
    ensures R.Offset(L, 2) == B
    ensures R.Offset(U, 0) == U
    ensures R.Offset(U, 1) == B
    ensures R.Offset(U, 2) == L
    ensures R.Offset(B, 0) == B
    ensures R.Offset(B, 1) == L
    ensures R.Offset(B, 2) == U
  {
    assert R.Offset(L, 0) == L;
    assert R.Offset(L, 1) == U;
    assert R.Offset(L, 2) == B;
    assert R.Offset(U, 0) == U;
    assert R.Offset(U, 1) == B;
    assert R.Offset(U, 2) == L;
    assert R.Offset(B, 0) == B;
    assert R.Offset(B, 1) == L;
    assert R.Offset(B, 2) == U;
  }

  /// `OffsetFollowsCycle` for the anchor R.
  lemma OffsetCycleR(start: nat, i: Types.Orientation3)
    requires start < 3
    ensures R.Offset(Cycle(R)[start], i) == Cycle(R)[(start + i.U8()) % 3]
  {
    OffsetTableR();
    if start == 0 {
      if i == 0 {} else if i == 1 {} else {}
    } else if start == 1 {
      if i == 0 {} else if i == 1 {} else {}
    } else {
      if i == 0 {} else if i == 1 {} else {}
    }
  }

  /// Every turn about L from every other vertex, as the cycle table
  /// documented on `offset` lists it.
  lemma OffsetTableL()
    ensures L.Offset(U, 0) == U
    ensures L.Offset(U, 1) == R
    ensures L.Offset(U, 2) == B
    ensures L.Offset(R, 0) == R
    ensures L.Offset(R, 1) == B
    ensures L.Offset(R, 2) == U
    ensures L.Offset(B, 0) == B
    ensures L.Offset(B, 1) == U
    ensures L.Offset(B, 2) == R
  {
    assert L.Offset(U, 0) == U;
    assert L.Offset(U, 1) == R;
    assert L.Offset(U, 2) == B;
    assert L.Offset(R, 0) == R;
    assert L.Offset(R, 1) == B;
    assert L.Offset(R, 2) == U;
    assert L.Offset(B, 0) == B;
    assert L.Offset(B, 1) == U;
    assert L.Offset(B, 2) == R;
  }

  /// `OffsetFollowsCycle` for the anchor L.
  lemma OffsetCycleL(start: nat, i: Types.Orientation3)
    requires start < 3
    ensures L.Offset(Cycle(L)[start], i) == Cycle(L)[(start + i.U8()) % 3]
  {
    OffsetTableL();
    if start == 0 {
      if i == 0 {} else if i == 1 {} else {}
    } else if start == 1 {
      if i == 0 {} else if i == 1 {} else {}
    } else {
      if i == 0 {} else if i == 1 {} else {}
    }
  }

  /// Every turn about B from every other vertex, as the cycle table
  /// documented on `offset` lists it.
  lemma OffsetTableB()
    ensures B.Offset(R, 0) == R
    ensures B.Offset(R, 1) == U
    ensures B.Offset(R, 2) == L
    ensures B.Offset(U, 0) == U
    ensures B.Offset(U, 1) == L
    ensures B.Offset(U, 2) == R
    ensures B.Offset(L, 0) == L
    ensures B.Offset(L, 1) == R
    ensures B.Offset(L, 2) == U
  {
    assert B.Offset(R, 0) == R;
    assert B.Offset(R, 1) == U;
    assert B.Offset(R, 2) == L;
    assert B.Offset(U, 0) == U;
    assert B.Offset(U, 1) == L;
    assert B.Offset(U, 2) == R;
    assert B.Offset(L, 0) == L;
    assert B.Offset(L, 1) == R;
    assert B.Offset(L, 2) == U;
  }

  /// `OffsetFollowsCycle` for the anchor B.
  lemma OffsetCycleB(start: nat, i: Types.Orientation3)
    requires start < 3
    ensures B.Offset(Cycle(B)[start], i) == Cycle(B)[(start + i.U8()) % 3]
  {
    OffsetTableB();
    if start == 0 {
      if i == 0 {} else if i == 1 {} else {}
    } else if start == 1 {
      if i == 0 {} else if i == 1 {} else {}
    } else {
      if i == 0 {} else if i == 1 {} else {}
    }
  }

  /// Every vertex other than the anchor is on the anchor's cycle.
  lemma CycleCovers(anchor: Vertex, v: Vertex)
    requires v != anchor
    ensures v in Cycle(anchor)
  {
  }

  /// No turn moves, and every turn stays off the anchor.
  lemma OffsetZeroAndAvoidsAnchor(anchor: Vertex, start: Vertex, o: Types.Orientation3)
    requires anchor != start
    ensures anchor.Offset(start, Types.ZERO) == start
    ensures anchor.Offset(start, o) != anchor
  {
    CycleCovers(anchor, start);
    var c := Cycle(anchor);
    var k :| 0 <= k < 3 && c[k] == start;
    OffsetFollowsCycle(anchor, k, Types.ZERO);
    OffsetFollowsCycle(anchor, k, o);
  }

  /// Turning `v2` about `v1` by `o` lands where turning `v1` about `v2` by
  /// `-o` does, for any two different vertices and a nonzero `o`.
  lemma OffsetSymmetric(v1: Vertex, v2: Vertex, o: Types.Orientation3)
    requires v1 != v2 && o != Types.ZERO
    ensures v1.Offset(v2, o) == v2.Offset(v1, o.Neg())
  {
    var n := o.Neg();
    assert o == 1 ==> n == 2;
    assert o == 2 ==> n == 1;
    OffsetPairs(v1, v2);
  }

  /// One and two turns undo each other across a pair of vertices.
  lemma OffsetPairs(v1: Vertex, v2: Vertex)
    requires v1 != v2
    ensures v1.Offset(v2, 1) == v2.Offset(v1, 2)
    ensures v1.Offset(v2, 2) == v2.Offset(v1, 1)
  {
    OffsetTableU();
    OffsetTableL();
    OffsetTableB();
    OffsetTableR();
    if v1 == U {
      if v2 == L {} else if v2 == B {} else {}
    } else if v1 == L {
      if v2 == U {} else if v2 == B {} else {}
    } else if v1 == B {
      if v2 == U {} else if v2 == L {} else {}
    } else {
      if v2 == U {} else if v2 == L {} else {}
    }
  }
}
