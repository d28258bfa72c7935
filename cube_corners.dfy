// norcina-cube-n/src/piece/corner.rs: the eight corners of a cube.
//
// A corner slot (CornerPosition) is the byte `x + 2 * y + 4 * z` of its
// directions along the three axes (Positive = 0).  A Corner (the piece in a
// slot) is its home slot plus an orientation 0, 1 or 2 in bits 3-4: the
// layout `000oozyx`.
module CubeCorners {
  import opened Types
  import opened Faces
  import opened CubeMoves
  import opened Bits
  import opened Wrappers
  import opened SlotCycles

  /// `Corner::ORIENTATION_AXIS`: twists are counted against the Y axis.
  const ORIENTATION_AXIS: Axis := Axis.Y

  /// `1 << axis`: the weight of an axis's bit in a slot byte.
  function Weight(axis: Axis): nat {
    match axis
    case X => 1
    case Y => 2
    case Z => 4
  }

  /// `(x >> axis) & 1`.
  function BitOn(x: nat, axis: Axis): (r: nat)
    ensures r < 2
  {
    match axis
    case X => x % 2
    case Y => (x / 2) % 2
    case Z => (x / 4) % 2
  }

  /// The fields of `8 * q + 4 * c + 2 * b + a`.
  lemma SlotBits(x: nat, q: nat, a: nat, b: nat, c: nat)
    requires a < 2 && b < 2 && c < 2 && x == 8 * q + 4 * c + 2 * b + a
    ensures x / 8 == q && BitOn(x, Axis.X) == a && BitOn(x, Axis.Y) == b && BitOn(x, Axis.Z) == c
  {
    DivModLiteral(x, 2, 4 * q + 2 * c + b, a);
    DivModLiteral(x / 2, 2, 2 * q + c, b);
    DivModLiteral(x, 4, 2 * q + c, 2 * b + a);
    DivModLiteral(x / 4, 2, q, c);
    DivModLiteral(x, 8, q, 4 * c + 2 * b + a);
  }

  /// A byte is its three low bits plus the bits above them.
  lemma SplitSlot(x: nat)
    ensures x == 8 * (x / 8) + 4 * BitOn(x, Axis.Z) + 2 * BitOn(x, Axis.Y) + BitOn(x, Axis.X)
  {
    var h := x / 2;
    var f := h / 2;
    var e := f / 2;
    assert x == 2 * h + x % 2 && h == 2 * f + h % 2 && f == 2 * e + f % 2;
    SlotBits(x, e, x % 2, h % 2, f % 2);
  }

  /// The direction stored in bit `axis` of a corner byte.
  function Coordinate(data: nat, axis: Axis): Direction {
    FromBool(BitOn(data, axis) != 0)
  }

  newtype CornerPosition = x: int | 0 <= x < 8 {

    /// Bit 0.
    function X(): Direction {
      FromBool(BitOn(this as nat, Axis.X) != 0)
    }

    /// Bit 1.
    function Y(): Direction {
      FromBool(BitOn(this as nat, Axis.Y) != 0)
    }

    /// Bit 2.
    function Z(): Direction {
      FromBool(BitOn(this as nat, Axis.Z) != 0)
    }

    /// The three faces of the slot, on X, Y and Z in that order.
    function Faces(): (fs: seq<Face>)
      ensures |fs| == 3
    {
      [NewFace(Axis.X, X()), NewFace(Axis.Y, Y()), NewFace(Axis.Z, Z())]
    }

    function U8(): nat {
      this as nat
    }

    /// The corner in this slot of an 8-corner array.
    function Pick(corners: seq<Corner>): Corner
      requires |corners| == 8
    {
      corners[this]
    }

    /// `(data >> axis) & 1 == direction`.
    function ContainsFace(face: Face): bool {
      BitOn(this as nat, face.Axis()) == face.Direction().U8()
    }

    /// `(data ^ data >> 1 ^ data >> 2) & 1`: the exclusive or of the three
    /// position bits, written as their sum modulo 2.
    function Parity(): (r: nat)
      ensures r < 2
    {
      (BitOn(this as nat, Axis.X) + BitOn(this as nat, Axis.Y) + BitOn(this as nat, Axis.Z)) % 2
    }

    /// `count_ones((self ^ other) & 0b111).div_ceil(2)`: the number of
    /// coordinates in which the slots differ, halved and rounded up.
    function TurnDistance(other: CornerPosition): nat {
      (DifferingCoordinates(this, other) + 1) / 2
    }

    /// The corner that belongs to this slot, twisted by `orientation`:
    /// `data + (orientation << 3)`.
    function WithOrientation(orientation: Orientation3): (c: Corner)
      ensures c.Position() == this && c.Orientation() == orientation
    {
      (this as int + orientation.U8() * 8) as Corner
    }
  }

  /// How many of the three position bits differ: the population count of
  /// the exclusive or of the low three bits.
  function DifferingCoordinates(p: CornerPosition, q: CornerPosition): (n: nat)
    ensures n <= 3
  {
    (if BitOn(p as nat, Axis.X) != BitOn(q as nat, Axis.X) then 1 else 0) +
    (if BitOn(p as nat, Axis.Y) != BitOn(q as nat, Axis.Y) then 1 else 0) +
    (if BitOn(p as nat, Axis.Z) != BitOn(q as nat, Axis.Z) then 1 else 0)
  }

  /// `direction << axis`: the face's contribution to a slot byte.
  function FaceBit(face: Face): nat {
    if face.Direction().U8() == 0 then 0 else Weight(face.Axis())
  }

  /// `from_faces`: the sum of every face's `direction << axis`.  The source
  /// debug-asserts that the three faces lie on three different axes.
  function CornerPositionFromFaces(faces: seq<Face>): CornerPosition
    requires |faces| == 3
    requires faces[0].Axis() != faces[1].Axis() && faces[1].Axis() != faces[2].Axis()
    requires faces[2].Axis() != faces[0].Axis()
  {
    DistinctAxesWeights(faces[0].Axis(), faces[1].Axis(), faces[2].Axis());
    (FaceBit(faces[0]) + FaceBit(faces[1]) + FaceBit(faces[2])) as CornerPosition
  }

  /// Panics in the source unless `index < 8`.
  function CornerPositionFromIndex(index: nat): (p: CornerPosition)
    requires index < 8
    ensures p.U8() == index
  {
    index as CornerPosition
  }

  /// `CornerPosition::ALL`: the slots in index order.
  const ALL_CORNER_POSITIONS: seq<CornerPosition> := [0, 1, 2, 3, 4, 5, 6, 7]

  /// A piece: bits 0-2 are its home slot, bits 3-4 its orientation, which
  /// is never 3.
  newtype Corner = x: int | 0 <= x < 24 {

    function X(): Direction {
      FromBool(BitOn(this as nat, Axis.X) != 0)
    }

    function Y(): Direction {
      FromBool(BitOn(this as nat, Axis.Y) != 0)
    }

    function Z(): Direction {
      FromBool(BitOn(this as nat, Axis.Z) != 0)
    }

    /// `(data >> 3) & 0b11`: clockwise twists away from having the piece's
    /// Y sticker on the slot's Y axis.
    function Orientation(): Orientation3 {
      Orientation3FromU8((this as int / 8) % 4)
    }

    function IsOriented(): (b: bool)
      ensures b <==> Orientation().IsOriented()
    {
      Orientation().U8() == 0
    }

    /// `data & 0b00111 ^ (orientation << 3)`: the same piece with its
    /// orientation replaced.  The source assigns the result to `self.data`.
    function SetOrientation(orientation: Orientation3): (r: Corner)
      ensures r.Position() == Position() && r.Orientation() == orientation
    {
      (this as int % 8 + orientation.U8() * 8) as Corner
    }

    /// `(data >> axis) & 1`.
    function DirectionOnAxis(axis: Axis): Direction {
      Coordinate(this as nat, axis)
    }

    /// Whether the piece's home slot lies on `face`.
    function OnFace(face: Face): bool {
      DirectionOnAxis(face.Axis()) == face.Direction()
    }

    /// The home slot: the byte with the orientation bits masked off.
    function Position(): CornerPosition {
      (this as int % 8) as CornerPosition
    }
  }

  /// Panics in the source unless `index < 8`; the solved piece of slot
  /// `index` is oriented.
  function SolvedCorner(index: nat): (c: Corner)
    requires index < 8
    ensures c.Position().U8() == index && c.IsOriented()
  {
    index as Corner
  }

  /// `Corner::SOLVED`.
  const SOLVED_CORNERS: seq<Corner> := [0, 1, 2, 3, 4, 5, 6, 7]

  /// Every slot of the solved corners holds its own piece, untwisted.
  lemma SolvedCornersAt()
    ensures |SOLVED_CORNERS| == 8
    ensures forall i :: 0 <= i < 8 ==> SOLVED_CORNERS[i] == SolvedCorner(i)
  {
  }

  /// Three different axes are X, Y and Z in some order, so their bit weights
  /// 1, 2 and 4 add up to 7.
  lemma DistinctAxesWeights(a0: Axis, a1: Axis, a2: Axis)
    requires a0 != a1 && a1 != a2 && a2 != a0
    ensures Weight(a0) + Weight(a1) + Weight(a2) == 7
  {
    assert {a0.U8(), a1.U8(), a2.U8()} == {0, 1, 2};
  }

  /// A slot is the sum of its three bits, which `x`, `y`, `z` read.
  lemma PositionBits(p: CornerPosition)
    ensures p as nat == BitOn(p as nat, Axis.X) + 2 * BitOn(p as nat, Axis.Y) + 4 * BitOn(p as nat, Axis.Z)
    ensures p.X().U8() == BitOn(p as nat, Axis.X) && p.Y().U8() == BitOn(p as nat, Axis.Y) && p.Z().U8() == BitOn(p as nat, Axis.Z)
  {
    SplitSlot(p as nat);
  }

  /// A slot is determined by its three bits.
  lemma PositionDetermined(p: CornerPosition, q: CornerPosition)
    requires BitOn(p as nat, Axis.X) == BitOn(q as nat, Axis.X) && BitOn(p as nat, Axis.Y) == BitOn(q as nat, Axis.Y)
    requires BitOn(p as nat, Axis.Z) == BitOn(q as nat, Axis.Z)
    ensures p == q
  {
    PositionBits(p);
    PositionBits(q);
  }

  /// `x`, `y`, `z` are the directions on the three axes.
  lemma AxisAccessors(p: CornerPosition)
    ensures Coordinate(p as nat, Axis.X) == p.X()
    ensures Coordinate(p as nat, Axis.Y) == p.Y()
    ensures Coordinate(p as nat, Axis.Z) == p.Z()
  {
  }

  /// `faces` lists the slot's coordinate faces, and `from_faces` inverts it.
  lemma FacesRoundTrip(p: CornerPosition)
    ensures CornerPositionFromFaces(p.Faces()) == p
  {
    var fs := p.Faces();
    PositionBits(p);
    assert FaceBit(fs[0]) == BitOn(p as nat, Axis.X);
    assert FaceBit(fs[1]) == 2 * BitOn(p as nat, Axis.Y);
    assert FaceBit(fs[2]) == 4 * BitOn(p as nat, Axis.Z);
  }

  /// For faces on X, Y and Z, `from_faces(faces).faces() == faces`.
  lemma FromFacesRoundTrip(fx: Face, fy: Face, fz: Face)
    requires fx.Axis() == Axis.X && fy.Axis() == Axis.Y && fz.Axis() == Axis.Z
    ensures CornerPositionFromFaces([fx, fy, fz]).Faces() == [fx, fy, fz]
  {
    var p := CornerPositionFromFaces([fx, fy, fz]);
    var a, b, c := fx.Direction().U8(), fy.Direction().U8(), fz.Direction().U8();
    assert p as nat == 4 * c + 2 * b + a;
    SlotBits(p as nat, 0, a, b, c);
    FaceEncoding(fx, fx);
    FaceEncoding(fy, fy);
    FaceEncoding(fz, fz);
  }

  /// For faces on three different axes in any order, `from_faces` gives the
  /// slot that contains all three.
  lemma FromFacesContains(faces: seq<Face>)
    requires |faces| == 3
    requires faces[0].Axis() != faces[1].Axis() && faces[1].Axis() != faces[2].Axis()
    requires faces[2].Axis() != faces[0].Axis()
    ensures var p := CornerPositionFromFaces(faces);
      p.ContainsFace(faces[0]) && p.ContainsFace(faces[1]) && p.ContainsFace(faces[2])
  {
    var p := CornerPositionFromFaces(faces);
    var w := map[faces[0].Axis() := faces[0].Direction().U8(),
                 faces[1].Axis() := faces[1].Direction().U8(),
                 faces[2].Axis() := faces[2].Direction().U8()];
    assert Axis.X in w && Axis.Y in w && Axis.Z in w;
    assert p as nat == 4 * w[Axis.Z] + 2 * w[Axis.Y] + w[Axis.X];
    SlotBits(p as nat, 0, w[Axis.X], w[Axis.Y], w[Axis.Z]);
  }

  /// A slot contains exactly its three faces.
  lemma ContainsFaceIff(p: CornerPosition, f: Face)
    ensures p.ContainsFace(f) <==> f in p.Faces()
  {
    PositionBits(p);
    var fs := p.Faces();
    FaceEncoding(f, fs[0]);
    FaceEncoding(f, fs[1]);
    FaceEncoding(f, fs[2]);
  }

  /// `on_face` holds exactly when the home slot contains the face, and
  /// `direction_on_axis` reads the home slot's coordinates.
  lemma OnFaceIff(c: Corner, f: Face)
    ensures c.OnFace(f) <==> c.Position().ContainsFace(f)
    ensures c.DirectionOnAxis(Axis.X) == c.Position().X()
    ensures c.DirectionOnAxis(Axis.Y) == c.Position().Y()
    ensures c.DirectionOnAxis(Axis.Z) == c.Position().Z()
  {
    SplitSlot(c as nat);
    var p := c.Position();
    SlotBits(c as nat, c as nat / 8, BitOn(c as nat, Axis.X), BitOn(c as nat, Axis.Y), BitOn(c as nat, Axis.Z));
    SlotBits(p as nat, 0, BitOn(c as nat, Axis.X), BitOn(c as nat, Axis.Y), BitOn(c as nat, Axis.Z));
  }

  /// `parity` is the exclusive or of the three coordinates.
  lemma ParityXor(p: CornerPosition)
    ensures p.Parity() == 1 <==> ((p.X() != p.Y()) != p.Z().Negative?)
  {
    PositionBits(p);
  }

  /// A corner byte is its slot bits plus the orientation in bits 3-4.
  lemma CornerFields(c: Corner)
    ensures c as int == c.Position() as int + 8 * c.Orientation().U8()
  {
    assert c as int == 8 * (c as int / 8) + c as int % 8;
  }

  /// `SetOrientation` and `WithOrientation` with the piece's own
  /// orientation give the piece back.
  lemma OrientationRoundTrip(c: Corner)
    ensures c.SetOrientation(c.Orientation()) == c
    ensures c.Position().WithOrientation(c.Orientation()) == c
  {
    CornerDetermined(c.SetOrientation(c.Orientation()), c);
    CornerDetermined(c.Position().WithOrientation(c.Orientation()), c);
  }

  /// Turn distance read off the coordinates: a slot is 0 turns from itself,
  /// 1 from the six slots sharing a face with it and 2 from the opposite
  /// corner.
  lemma TurnDistanceCoordinates(p: CornerPosition, q: CornerPosition)
    ensures p.TurnDistance(q) == 0 <==> p == q
    ensures p.TurnDistance(q) == 2 <==> DifferingCoordinates(p, q) == 3
    ensures p.TurnDistance(q) <= 2
  {
    if DifferingCoordinates(p, q) == 0 {
      PositionDetermined(p, q);
    }
  }

  /// How many of the slots `0 .. n - 1` lie at turn distance `d` from `p`.
  function CountAtDistance(p: CornerPosition, d: nat, n: nat): (c: nat)
    requires n <= 8
    ensures c <= n
  {
    if n == 0 then 0
    else CountAtDistance(p, d, n - 1) + (if p.TurnDistance((n - 1) as CornerPosition) == d then 1 else 0)
  }

  /// The eight terms of `CountAtDistance(p, d, 8)`.
  lemma CountEight(p: CornerPosition, d: nat)
    ensures CountAtDistance(p, d, 8) ==
      (if p.TurnDistance(0) == d then 1 else 0) + (if p.TurnDistance(1) == d then 1 else 0) +
      (if p.TurnDistance(2) == d then 1 else 0) + (if p.TurnDistance(3) == d then 1 else 0) +
      (if p.TurnDistance(4) == d then 1 else 0) + (if p.TurnDistance(5) == d then 1 else 0) +
      (if p.TurnDistance(6) == d then 1 else 0) + (if p.TurnDistance(7) == d then 1 else 0)
  {
    assert CountAtDistance(p, d, 2) == (if p.TurnDistance(0) == d then 1 else 0) + (if p.TurnDistance(1) == d then 1 else 0);
    assert CountAtDistance(p, d, 4) == CountAtDistance(p, d, 2) +
      (if p.TurnDistance(2) == d then 1 else 0) + (if p.TurnDistance(3) == d then 1 else 0);
    assert CountAtDistance(p, d, 6) == CountAtDistance(p, d, 4) +
      (if p.TurnDistance(4) == d then 1 else 0) + (if p.TurnDistance(5) == d then 1 else 0);
  }

  /// The turn distance from `p` to slot `q`, in terms of the bits of both.
  lemma DistanceBits(p: CornerPosition, q: CornerPosition, a: nat, b: nat, c: nat)
    requires q as nat == a + 2 * b + 4 * c && a < 2 && b < 2 && c < 2
    ensures p.TurnDistance(q) ==
      ((if BitOn(p as nat, Axis.X) != a then 1 else 0) + (if BitOn(p as nat, Axis.Y) != b then 1 else 0) +
       (if BitOn(p as nat, Axis.Z) != c then 1 else 0) + 1) / 2
  {
    SlotBits(q as nat, 0, a, b, c);
  }

  /// From any slot, one slot is 0 quarter turns away, six are 1 away and one
  /// (the opposite corner) is 2 away.
  lemma TurnDistanceDistribution(p: CornerPosition)
    ensures CountAtDistance(p, 0, 8) == 1
    ensures CountAtDistance(p, 1, 8) == 6
    ensures CountAtDistance(p, 2, 8) == 1
  {
    DistanceBits(p, 0, 0, 0, 0);
    DistanceBits(p, 1, 1, 0, 0);
    DistanceBits(p, 2, 0, 1, 0);
    DistanceBits(p, 3, 1, 1, 0);
    DistanceBits(p, 4, 0, 0, 1);
    DistanceBits(p, 5, 1, 0, 1);
    DistanceBits(p, 6, 0, 1, 1);
    DistanceBits(p, 7, 1, 1, 1);
    CountEight(p, 0);
    CountEight(p, 1);
    CountEight(p, 2);
  }

  /// `(data + (diff << 3)) % (3 << 3)`: adds `diff` clockwise twists.
  function Twist(corner: Corner, diff: nat): (r: Corner)
    ensures r.Position() == corner.Position()
    ensures r.Orientation().U8() == (corner.Orientation().U8() + diff) % 3
  {
    TwistArithmetic(corner as nat, diff);
    ((corner as int + diff * 8) % 24) as Corner
  }

  /// `(8 * o + p + 8 * d) % 24` keeps `p < 8` and adds `d` to `o` modulo 3.
  lemma TwistArithmetic(c: nat, d: nat)
    requires c < 24
    ensures var r := (c + d * 8) % 24; r % 8 == c % 8 && (r / 8) % 4 == ((c / 8) % 4 + d) % 3
  {
    var p, o := c % 8, c / 8;
    assert c == 8 * o + p && o < 3;
    var s := (o + d) % 3;
    var t := (o + d) / 3;
    assert o + d == 3 * t + s;
    var r := (c + d * 8) % 24;
    DivModLiteral(c + d * 8, 24, t, 8 * s + p);
    DivModLiteral(r, 8, s, p);
  }

  /// Division and remainder by a positive literal are read off any
  /// decomposition `n == m * q + r` with `0 <= r < m`.
  lemma DivModLiteral(n: int, m: int, q: int, r: int)
    requires m == 2 || m == 4 || m == 8 || m == 24
    requires n == m * q + r && 0 <= r < m
    ensures n / m == q && n % m == r
  {
    if m == 2 {
      assert n == 2 * q + r;
    } else if m == 4 {
      assert n == 4 * q + r;
    } else if m == 8 {
      assert n == 8 * q + r;
    } else {
      assert n == 24 * q + r;
    }
  }

  /// Twists add up modulo 3.
  lemma TwistTwice(c: Corner, d: nat, e: nat)
    ensures Twist(Twist(c, d), e) == Twist(c, d + e)
  {
    var o := c.Orientation().U8();
    assert ((o + d) % 3 + e) % 3 == (o + d + e) % 3 by {
      ModThree(o + d, e);
    }
    CornerDetermined(Twist(Twist(c, d), e), Twist(c, d + e));
  }

  /// Twisting by a multiple of 3, in particular by 0, changes nothing.
  lemma TwistFull(c: Corner, d: nat)
    requires d % 3 == 0
    ensures Twist(c, d) == c
  {
    var o := c.Orientation().U8();
    assert (o + d) % 3 == o by {
      ModThree(o, d);
    }
    CornerDetermined(Twist(c, d), c);
  }

  lemma ModThree(x: nat, e: nat)
    ensures (x % 3 + e) % 3 == (x + e) % 3
  {
    var q := x / 3;
    assert x == 3 * q + x % 3;
  }

  /// A piece is determined by its home slot and its orientation.
  lemma CornerDetermined(c1: Corner, c2: Corner)
    requires c1.Position() == c2.Position() && c1.Orientation() == c2.Orientation()
    ensures c1 == c2
  {
  }

  /// `(axis & 1) ^ 1`: 1 for X and Z, 0 for Y; the source asserts it is 0
  /// exactly on the orientation axis.
  function NotOnOrientationAxis(axis: Axis): (r: nat)
    ensures r < 2
    ensures r == 0 <==> axis == ORIENTATION_AXIS
  {
    (axis.U8() % 2 + 1) % 2
  }

  /// The per-slot closure of `move_pieces`: the slot that slot `i` takes its
  /// corner from under `mov`, and how many clockwise twists it gains.  Slots
  /// off the turned face keep their corner; a half turn takes the corner
  /// with both other coordinates flipped (`i ^ (0b111 ^ (1 << axis))`); a
  /// quarter turn rotates the coordinates on the lead and trail axes, which
  /// flips the lead bit when the two bits agree and the trail bit
  /// otherwise, and twists by `(axis & 1 ^ 1) << (parity ^ amount & 1 ^
  /// axis >> 1)`.
  function Pull(mov: Move, i: CornerPosition): (CornerPosition, nat) {
    var face := mov.Face();
    var axis := face.Axis();
    if !i.ContainsFace(face) then (i, 0)
    else if mov.Amount() == Double then (FlipBoth(i, axis.Next(), axis.Prev()), 0)
    else
      var a, b := LeadAxis(mov), TrailAxis(mov);
      var temp := (BitOn(i as nat, a) + BitOn(i as nat, b)) % 2;
      var shift := (i.Parity() + mov.Amount().U8() % 2 + axis.U8() / 2) % 2;
      (FlipOne(i, if temp == 0 then a else b), NotOnOrientationAxis(axis) * Pow2(shift))
  }

  /// `i ^ (1 << axis)`.
  function FlipOne(i: CornerPosition, axis: Axis): CornerPosition {
    FlipOneFields(i, axis);
    (if BitOn(i as nat, axis) == 1 then i as int - Weight(axis) else i as int + Weight(axis)) as CornerPosition
  }

  /// The three bits of `i ^ (1 << axis)`, computed on plain integers.
  lemma FlipOneFields(i: CornerPosition, axis: Axis)
    ensures var j := if BitOn(i as nat, axis) == 1 then i as int - Weight(axis) else i as int + Weight(axis);
      0 <= j < 8 &&
      BitOn(j as nat, Axis.X) == (if axis == Axis.X then 1 - BitOn(i as nat, Axis.X) else BitOn(i as nat, Axis.X)) &&
      BitOn(j as nat, Axis.Y) == (if axis == Axis.Y then 1 - BitOn(i as nat, Axis.Y) else BitOn(i as nat, Axis.Y)) &&
      BitOn(j as nat, Axis.Z) == (if axis == Axis.Z then 1 - BitOn(i as nat, Axis.Z) else BitOn(i as nat, Axis.Z))
  {
    SplitSlot(i as nat);
    var a, b, c := BitOn(i as nat, Axis.X), BitOn(i as nat, Axis.Y), BitOn(i as nat, Axis.Z);
    var j := if BitOn(i as nat, axis) == 1 then i as int - Weight(axis) else i as int + Weight(axis);
    match axis
    case X => SlotBits(j as nat, 0, 1 - a, b, c);
    case Y => SlotBits(j as nat, 0, a, 1 - b, c);
    case Z => SlotBits(j as nat, 0, a, b, 1 - c);
  }

  /// `i ^ (1 << a | 1 << b)` for two different axes.
  function FlipBoth(i: CornerPosition, a: Axis, b: Axis): CornerPosition {
    FlipOne(FlipOne(i, a), b)
  }

  /// `move_pieces`: every slot pulls its new corner through `Pull`.
  function MovePieces(corners: seq<Corner>, mov: Move): (r: seq<Corner>)
    requires |corners| == 8
    ensures |r| == 8
  {
    seq(8, k requires 0 <= k < 8 =>
      var pulled := Pull(mov, k as CornerPosition);
      Twist(pulled.0.Pick(corners), pulled.1))
  }

  /// Slot `k` after `move_pieces` holds the pulled corner, twisted.
  lemma MovePiecesAt(corners: seq<Corner>, mov: Move, k: CornerPosition)
    requires |corners| == 8
    ensures MovePieces(corners, mov)[k] == Twist(corners[Pull(mov, k).0], Pull(mov, k).1)
  {
  }

  /// Flipping one coordinate toggles that bit, keeps the bit of any other
  /// axis, changes the parity and undoes itself.
  lemma FlipOneBits(i: CornerPosition, axis: Axis, other: Axis)
    requires other != axis
    ensures var j := FlipOne(i, axis);
      BitOn(j as nat, axis) == 1 - BitOn(i as nat, axis) &&
      BitOn(j as nat, other) == BitOn(i as nat, other) &&
      j.Parity() != i.Parity() && FlipOne(j, axis) == i
  {
    FlipOneToggles(i, axis, other);
    FlipOneParity(i, axis);
    FlipOneInvolution(i, axis);
  }

  lemma FlipOneToggles(i: CornerPosition, axis: Axis, other: Axis)
    requires other != axis
    ensures BitOn(FlipOne(i, axis) as nat, axis) == 1 - BitOn(i as nat, axis)
    ensures BitOn(FlipOne(i, axis) as nat, other) == BitOn(i as nat, other)
  {
    FlipOneFields(i, axis);
  }

  lemma FlipOneParity(i: CornerPosition, axis: Axis)
    ensures FlipOne(i, axis).Parity() != i.Parity()
  {
    FlipOneFields(i, axis);
  }

  lemma FlipOneInvolution(i: CornerPosition, axis: Axis)
    ensures FlipOne(FlipOne(i, axis), axis) == i
  {
    FlipOneFields(i, axis);
    FlipOneFields(FlipOne(i, axis), axis);
    PositionDetermined(FlipOne(FlipOne(i, axis), axis), i);
  }

  /// Two slots with the same bits on three different axes are equal.
  lemma SameOnAxes(p: CornerPosition, q: CornerPosition, a0: Axis, a1: Axis, a2: Axis)
    requires a0 != a1 && a1 != a2 && a2 != a0
    requires BitOn(p as nat, a0) == BitOn(q as nat, a0)
    requires BitOn(p as nat, a1) == BitOn(q as nat, a1)
    requires BitOn(p as nat, a2) == BitOn(q as nat, a2)
    ensures p == q
  {
    assert {a0.U8(), a1.U8(), a2.U8()} == {0, 1, 2};
    PositionDetermined(p, q);
  }

  /// The twist a quarter turn about `axis` gives the piece arriving in a
  /// slot of parity `parity`: none on the orientation axis, otherwise 2 when
  /// the parity and the Z-ness of the axis agree and 1 when they differ.
  function QuarterTwist(axis: Axis, parity: nat): nat {
    if axis == ORIENTATION_AXIS then 0
    else if (parity + axis.U8() / 2) % 2 == 0 then 2
    else 1
  }

  /// A slot off the turned face keeps its corner, untwisted.
  lemma PullOffFace(mov: Move, i: CornerPosition)
    requires !i.ContainsFace(mov.Face())
    ensures Pull(mov, i) == (i, 0)
  {
  }

  /// A half turn takes the corner of the slot with both other coordinates
  /// flipped, without twisting it; that slot is on the face too, has the
  /// same parity, and the half turn takes this slot's corner back there.
  lemma PullDouble(mov: Move, i: CornerPosition)
    requires i.ContainsFace(mov.Face()) && mov.Amount() == Double
    ensures var (j, d) := Pull(mov, i);
      var axis, a, b := mov.Axis(), mov.Axis().Next(), mov.Axis().Prev();
      d == 0 && j == FlipBoth(i, a, b) &&
      BitOn(j as nat, axis) == BitOn(i as nat, axis) &&
      BitOn(j as nat, a) == 1 - BitOn(i as nat, a) &&
      BitOn(j as nat, b) == 1 - BitOn(i as nat, b) &&
      j.ContainsFace(mov.Face()) && j.Parity() == i.Parity() && Pull(mov, j) == (i, 0)
  {
    var axis, a, b := mov.Axis(), mov.Axis().Next(), mov.Axis().Prev();
    AxisCycle(axis, axis);
    var h := FlipOne(i, a);
    FlipOneBits(i, a, b);
    FlipOneBits(i, a, axis);
    var j := FlipOne(h, b);
    FlipOneBits(h, b, a);
    FlipOneBits(h, b, axis);
    assert Pull(mov, i) == (j, 0);
    var h' := FlipOne(j, a);
    FlipOneBits(j, a, b);
    FlipOneBits(j, a, axis);
    var k := FlipOne(h', b);
    FlipOneBits(h', b, a);
    FlipOneBits(h', b, axis);
    assert Pull(mov, j) == (k, 0);
    SameOnAxes(k, i, axis, a, b);
  }

  /// A quarter turn takes the corner of the slot `j` whose coordinates on
  /// the lead and trail axes `(a, b)` rotate to this slot's as
  /// `(p[a], p[b]) -> (p[b], -p[a])`; `j` is on the face, has the other
  /// parity, and the piece gains `QuarterTwist` twists.
  lemma PullQuarter(mov: Move, i: CornerPosition)
    requires i.ContainsFace(mov.Face()) && mov.Amount() != Double
    ensures var (j, d) := Pull(mov, i);
      var axis, a, b := mov.Axis(), LeadAxis(mov), TrailAxis(mov);
      BitOn(i as nat, a) == BitOn(j as nat, b) &&
      BitOn(i as nat, b) == 1 - BitOn(j as nat, a) &&
      BitOn(j as nat, axis) == BitOn(i as nat, axis) &&
      j.ContainsFace(mov.Face()) && j.Parity() != i.Parity() &&
      d == QuarterTwist(axis, i.Parity())
  {
    var axis, a, b := mov.Axis(), LeadAxis(mov), TrailAxis(mov);
    assert a != b && a != axis && b != axis by {
      AxisCycle(axis, axis);
    }
    var temp := (BitOn(i as nat, a) + BitOn(i as nat, b)) % 2;
    var j := FlipOne(i, if temp == 0 then a else b);
    var d := QuarterTwist(axis, i.Parity());
    assert Pull(mov, i) == (j, d) by {
      QuarterTwistShift(mov, i.Parity());
    }
    QuarterRotation(i, j, a, b, axis);
  }

  /// The twist of `Pull`, `(axis & 1 ^ 1) << (parity ^ amount & 1 ^ axis >> 1)`,
  /// is `QuarterTwist` for quarter turns, whose amounts are odd.
  lemma QuarterTwistShift(mov: Move, parity: nat)
    requires mov.Amount() != Double && parity < 2
    ensures var axis := mov.Axis();
      NotOnOrientationAxis(axis) * Pow2((parity + mov.Amount().U8() % 2 + axis.U8() / 2) % 2) ==
        QuarterTwist(axis, parity)
  {
    assert mov.Amount().U8() % 2 == 1;
    assert Pow2(0) == 1 && Pow2(1) == 2;
  }

  /// Flipping the lead bit when the lead and trail bits agree, and the
  /// trail bit otherwise, is the rotation `(p[a], p[b]) -> (p[b], -p[a])`
  /// read backwards.
  lemma QuarterRotation(i: CornerPosition, j: CornerPosition, a: Axis, b: Axis, axis: Axis)
    requires a != b && a != axis && b != axis
    requires j == FlipOne(i, if (BitOn(i as nat, a) + BitOn(i as nat, b)) % 2 == 0 then a else b)
    ensures BitOn(i as nat, a) == BitOn(j as nat, b)
    ensures BitOn(i as nat, b) == 1 - BitOn(j as nat, a)
    ensures BitOn(j as nat, axis) == BitOn(i as nat, axis)
    ensures j.Parity() != i.Parity()
  {
    if (BitOn(i as nat, a) + BitOn(i as nat, b)) % 2 == 0 {
      FlipOneBits(i, a, b);
      FlipOneBits(i, a, axis);
    } else {
      FlipOneBits(i, b, a);
      FlipOneBits(i, b, axis);
    }
  }

  /// Where slot `i` takes its corner from when `m1` is applied and then
  /// `m2`, and how many twists the corner gains on the way.
  function PullThen(m1: Move, m2: Move, i: CornerPosition): (CornerPosition, nat) {
    var j := Pull(m2, i);
    var k := Pull(m1, j.0);
    (k.0, k.1 + j.1)
  }

  /// Two `move_pieces` calls in a row pull each slot's corner through
  /// `PullThen`.
  lemma MovePiecesThen(corners: seq<Corner>, m1: Move, m2: Move)
    requires |corners| == 8
    ensures forall k :: 0 <= k < 8 ==>
      MovePieces(MovePieces(corners, m1), m2)[k] ==
        Twist(corners[PullThen(m1, m2, k as CornerPosition).0], PullThen(m1, m2, k as CornerPosition).1)
  {
    forall k | 0 <= k < 8
      ensures MovePieces(MovePieces(corners, m1), m2)[k] ==
        Twist(corners[PullThen(m1, m2, k as CornerPosition).0], PullThen(m1, m2, k as CornerPosition).1)
    {
      MovePiecesThenAt(corners, m1, m2, k as CornerPosition);
    }
  }

  lemma MovePiecesThenAt(corners: seq<Corner>, m1: Move, m2: Move, k: CornerPosition)
    requires |corners| == 8
    ensures MovePieces(MovePieces(corners, m1), m2)[k] ==
      Twist(corners[PullThen(m1, m2, k).0], PullThen(m1, m2, k).1)
  {
    var p := Pull(m2, k);
    var q := Pull(m1, p.0);
    MovePiecesTwoSteps(corners, m1, m2, k, p.0, q.0, p.1, q.1);
  }

  lemma MovePiecesTwoSteps(corners: seq<Corner>, m1: Move, m2: Move, k: CornerPosition,
                           j: CornerPosition, l: CornerPosition, d: nat, e: nat)
    requires |corners| == 8
    requires Pull(m2, k) == (j, d) && Pull(m1, j) == (l, e)
    ensures MovePieces(MovePieces(corners, m1), m2)[k] == Twist(corners[l], e + d)
  {
    MovePiecesAt(MovePieces(corners, m1), m2, k);
    MovePiecesAt(corners, m1, j);
    TwistTwice(corners[l], e, d);
  }

  /// One quarter-turn step seen on plain values: `j` is the slot `i` pulls
  /// from with lead axis `a` and trail axis `b`, and `d` its twist.
  predicate QuarterStep(i: CornerPosition, j: CornerPosition, d: nat, axis: Axis, a: Axis, b: Axis) {
    BitOn(i as nat, a) == BitOn(j as nat, b) &&
    BitOn(i as nat, b) == 1 - BitOn(j as nat, a) &&
    BitOn(j as nat, axis) == BitOn(i as nat, axis) &&
    j.Parity() != i.Parity() && d == QuarterTwist(axis, i.Parity())
  }

  lemma PullQuarterStep(mov: Move, i: CornerPosition)
    requires i.ContainsFace(mov.Face()) && mov.Amount() != Double
    ensures QuarterStep(i, Pull(mov, i).0, Pull(mov, i).1, mov.Axis(), LeadAxis(mov), TrailAxis(mov))
    ensures Pull(mov, i).0.ContainsFace(mov.Face())
  {
    PullQuarter(mov, i);
  }

  /// The inverse quarter turn swaps the lead and trail axes.
  lemma InverseLeadTrail(m: Move)
    requires m.Amount() != Double
    ensures var inv := m.Inverse();
      inv.Face() == m.Face() && inv.Axis() == m.Axis() && inv.Amount() != Double &&
      LeadAxis(inv) == TrailAxis(m) && TrailAxis(inv) == LeadAxis(m)
    ensures LeadAxis(m) != TrailAxis(m) && LeadAxis(m) != m.Axis() && TrailAxis(m) != m.Axis()
  {
    InverseTurnsBack(m);
    AxisCycle(m.Axis(), m.Axis());
  }

  /// Turning `(a, b)` one way and then back returns the slot, with twists
  /// adding up to a multiple of 3.
  lemma QuarterStepBack(i: CornerPosition, j: CornerPosition, k: CornerPosition, d1: nat, d2: nat,
                        axis: Axis, a: Axis, b: Axis)
    requires a != b && a != axis && b != axis
    requires QuarterStep(i, j, d1, axis, b, a) && QuarterStep(j, k, d2, axis, a, b)
    ensures k == i && (d1 + d2 == 0 || d1 + d2 == 3)
  {
    SameOnAxes(k, i, axis, a, b);
    QuarterTwistPair(axis, i.Parity(), j.Parity());
  }

  /// Quarter twists of slots of opposite parity cancel out.
  lemma QuarterTwistPair(axis: Axis, p: nat, q: nat)
    requires p < 2 && q < 2 && p != q
    ensures QuarterTwist(axis, p) + QuarterTwist(axis, q) == if axis == ORIENTATION_AXIS then 0 else 3
  {
  }

  /// A half turn and then a quarter turn land where the opposite quarter
  /// turn does, with the same twist.
  lemma HalfThenQuarterStep(i: CornerPosition, h: CornerPosition, k: CornerPosition, k': CornerPosition,
                            d1: nat, d2: nat, axis: Axis, a: Axis, b: Axis)
    requires a != b && a != axis && b != axis
    requires BitOn(h as nat, axis) == BitOn(i as nat, axis)
    requires BitOn(h as nat, a) == 1 - BitOn(i as nat, a)
    requires BitOn(h as nat, b) == 1 - BitOn(i as nat, b)
    requires h.Parity() == i.Parity()
    requires QuarterStep(h, k, d1, axis, a, b) && QuarterStep(i, k', d2, axis, b, a)
    ensures k == k' && d1 == d2
  {
    SameOnAxes(k, k', axis, a, b);
  }

  /// A move followed by its inverse brings every slot's corner back, with
  /// twists adding up to 0 or 3.
  lemma PullInverse(m: Move, i: CornerPosition)
    ensures PullThen(m, m.Inverse(), i).0 == i
    ensures PullThen(m, m.Inverse(), i).1 == 0 || PullThen(m, m.Inverse(), i).1 == 3
  {
    if !i.ContainsFace(m.Face()) {
      PullInverseOffFace(m, i);
    } else if m.Amount() == Double {
      PullInverseDouble(m, i);
    } else {
      PullInverseQuarter(m, i);
    }
  }

  lemma PullInverseOffFace(m: Move, i: CornerPosition)
    requires !i.ContainsFace(m.Face())
    ensures PullThen(m, m.Inverse(), i) == (i, 0)
  {
    InverseAccessors(m);
    PullOffFace(m.Inverse(), i);
    PullOffFace(m, i);
  }

  lemma PullInverseDouble(m: Move, i: CornerPosition)
    requires i.ContainsFace(m.Face()) && m.Amount() == Double
    ensures PullThen(m, m.Inverse(), i) == (i, 0)
  {
    assert m.Inverse() == m by {
      InverseFixesHalfTurns(m);
    }
    var p := Pull(m, i);
    PullDouble(m, i);
    assert Pull(m, p.0) == (i, 0);
  }

  lemma PullInverseQuarter(m: Move, i: CornerPosition)
    requires i.ContainsFace(m.Face()) && m.Amount() != Double
    ensures PullThen(m, m.Inverse(), i).0 == i
    ensures PullThen(m, m.Inverse(), i).1 == 0 || PullThen(m, m.Inverse(), i).1 == 3
  {
    var inv := m.Inverse();
    var axis, a, b := m.Axis(), LeadAxis(m), TrailAxis(m);
    InverseLeadTrail(m);
    var j, d1 := Pull(inv, i).0, Pull(inv, i).1;
    PullQuarterStep(inv, i);
    var k, d2 := Pull(m, j).0, Pull(m, j).1;
    PullQuarterStep(m, j);
    QuarterStepBack(i, j, k, d1, d2, axis, a, b);
  }

  /// A quarter turn followed by the half turn of the same face is the
  /// opposite quarter turn, slot by slot and twist by twist.
  lemma PullQuarterThenHalf(m: Move, i: CornerPosition)
    requires m.Amount() != Double
    ensures PullThen(m, NewMove(m.Face(), Double), i) == Pull(m.Inverse(), i)
  {
    if i.ContainsFace(m.Face()) {
      PullQuarterThenHalfOnFace(m, i);
    } else {
      PullQuarterThenHalfOffFace(m, i);
    }
  }

  lemma PullQuarterThenHalfOffFace(m: Move, i: CornerPosition)
    requires !i.ContainsFace(m.Face())
    ensures PullThen(m, NewMove(m.Face(), Double), i) == (i, 0) == Pull(m.Inverse(), i)
  {
    NewMoveAccessors(m.Face(), Double);
    InverseAccessors(m);
    PullOffFace(NewMove(m.Face(), Double), i);
    PullOffFace(m, i);
    PullOffFace(m.Inverse(), i);
  }

  lemma PullQuarterThenHalfOnFace(m: Move, i: CornerPosition)
    requires m.Amount() != Double && i.ContainsFace(m.Face())
    ensures PullThen(m, NewMove(m.Face(), Double), i) == Pull(m.Inverse(), i)
  {
    var half := NewMove(m.Face(), Double);
    var inv := m.Inverse();
    var axis, a, b := m.Axis(), LeadAxis(m), TrailAxis(m);
    InverseLeadTrail(m);
    assert half.Face() == m.Face() && half.Amount() == Double by {
      NewMoveAccessors(m.Face(), Double);
    }
    var h, d0 := Pull(half, i).0, Pull(half, i).1;
    assert d0 == 0 && BitOn(h as nat, axis) == BitOn(i as nat, axis) &&
      BitOn(h as nat, a) == 1 - BitOn(i as nat, a) &&
      BitOn(h as nat, b) == 1 - BitOn(i as nat, b) &&
      h.ContainsFace(m.Face()) && h.Parity() == i.Parity() by {
      PullDouble(half, i);
      AxisCycle(axis, a);
    }
    var k, d1 := Pull(m, h).0, Pull(m, h).1;
    PullQuarterStep(m, h);
    var k', d2 := Pull(inv, i).0, Pull(inv, i).1;
    PullQuarterStep(inv, i);
    HalfThenQuarterStep(i, h, k, k', d1, d2, axis, a, b);
  }

  /// `move_pieces` by a move and then by its inverse gives back the corners.
  lemma MoveThenInverse(corners: seq<Corner>, m: Move)
    requires |corners| == 8
    ensures MovePieces(MovePieces(corners, m), m.Inverse()) == corners
  {
    forall k | 0 <= k < 8
      ensures MovePieces(MovePieces(corners, m), m.Inverse())[k] == corners[k]
    {
      var p := PullThen(m, m.Inverse(), k as CornerPosition);
      MovePiecesThenAt(corners, m, m.Inverse(), k as CornerPosition);
      PullInverse(m, k as CornerPosition);
      TwistFull(corners[k], p.1);
    }
  }

  /// A quarter turn and then the half turn of the same face act on the
  /// corners as the opposite quarter turn.
  lemma QuarterThenHalf(corners: seq<Corner>, m: Move)
    requires |corners| == 8 && m.Amount() != Double
    ensures MovePieces(MovePieces(corners, m), NewMove(m.Face(), Double)) == MovePieces(corners, m.Inverse())
  {
    var half := NewMove(m.Face(), Double);
    MovePiecesThen(corners, m, half);
    forall k | 0 <= k < 8
      ensures MovePieces(MovePieces(corners, m), half)[k] == MovePieces(corners, m.Inverse())[k]
    {
      PullQuarterThenHalf(m, k as CornerPosition);
    }
  }

  /// `move_pieces` keeps the corner of every slot off the turned face.
  lemma MovePiecesOffFace(corners: seq<Corner>, mov: Move, i: CornerPosition)
    requires |corners| == 8 && !i.ContainsFace(mov.Face())
    ensures MovePieces(corners, mov)[i] == corners[i]
  {
    PullOffFace(mov, i);
    TwistFull(corners[i], 0);
  }

  /// A half turn moves into each slot of the face, untwisted, the corner of
  /// the slot `i ^ (0b111 ^ (1 << axis))`.
  lemma MovePiecesDouble(corners: seq<Corner>, mov: Move, i: CornerPosition)
    requires |corners| == 8 && i.ContainsFace(mov.Face()) && mov.Amount() == Double
    ensures var j := FlipBoth(i, mov.Axis().Next(), mov.Axis().Prev());
      j != i && j.ContainsFace(mov.Face()) && MovePieces(corners, mov)[i] == corners[j]
  {
    PullDouble(mov, i);
    var j := FlipBoth(i, mov.Axis().Next(), mov.Axis().Prev());
    TwistFull(corners[j], 0);
    assert BitOn(j as nat, mov.Axis().Next()) != BitOn(i as nat, mov.Axis().Next());
  }

  /// A quarter turn moves into each slot of the face the corner of another
  /// slot of the face, with the same home slot and an orientation below 3;
  /// turns of the orientation axis (U, D) add no twist, the others add 1 or
  /// 2 by the slot's parity.
  lemma MovePiecesQuarter(corners: seq<Corner>, mov: Move, i: CornerPosition)
    requires |corners| == 8 && i.ContainsFace(mov.Face()) && mov.Amount() != Double
    ensures var (j, d) := Pull(mov, i);
      var moved := MovePieces(corners, mov)[i];
      j != i && j.ContainsFace(mov.Face()) &&
      moved.Position() == corners[j].Position() &&
      moved.Orientation().U8() == (corners[j].Orientation().U8() + d) % 3 &&
      (mov.Axis() == ORIENTATION_AXIS <==> d == 0) && d < 3
  {
    PullQuarter(mov, i);
  }

  /// `(parity ^ (parity - 1)) * x` for a parity bit: `x` negated for an
  /// even slot and kept for an odd one.
  function ParitySigned(parity: nat, x: int): (r: int)
    requires parity < 2
    ensures r == x || r == -x
  {
    if parity == 0 then -x else x
  }

  /// `sticker`: the face of `corner` that shows on `face` when the corner
  /// sits in slot `position`.  The slot's parity says which way a step
  /// along the axes turns; the face's axis becomes an index from the
  /// orientation axis, the corner's twist is taken off it, and the piece's
  /// own parity turns the index back into one of its axes, read in its home
  /// slot's direction.
  function Sticker(corner: Corner, position: CornerPosition, face: Face): Face {
    var axis := AxisFromI8Mod3(StickerIndex(corner.Position().Parity(), position.Parity(),
                                            face.Axis().U8() as int, corner.Orientation().U8() as int));
    NewFace(axis, corner.DirectionOnAxis(axis))
  }

  /// The axis index `sticker` reads before it is taken modulo 3, from the
  /// piece's parity `cp`, the slot's parity `pp`, the face's axis `a` and
  /// the twist `o`.
  function StickerIndex(cp: nat, pp: nat, a: int, o: int): int
    requires cp < 2 && pp < 2
  {
    var faceIndex := ParitySigned(pp, a - ORIENTATION_AXIS.U8() as int);
    var orientedIndex := faceIndex - o;
    ORIENTATION_AXIS.U8() as int + ParitySigned(cp, orientedIndex)
  }

  /// The sticker always shows a face of the piece's home slot.
  lemma StickerShowsHomeFace(corner: Corner, position: CornerPosition, face: Face)
    ensures corner.Position().ContainsFace(Sticker(corner, position, face))
  {
    var f := Sticker(corner, position, face);
    OnFaceIff(corner, f);
  }

  /// A solved piece in its own slot shows each of the slot's faces on that
  /// face.
  lemma SolvedSticker(p: CornerPosition, face: Face)
    requires p.ContainsFace(face)
    ensures Sticker(p.WithOrientation(ZERO), p, face) == face
  {
    SolvedStickerAxis(p, face);
    SolvedStickerDirection(p, face);
    FaceEncoding(face, face);
    FaceEncoding(face, Sticker(p.WithOrientation(ZERO), p, face));
  }

  lemma SolvedStickerAxis(p: CornerPosition, face: Face)
    ensures Sticker(p.WithOrientation(ZERO), p, face).Axis() == face.Axis()
  {
    var c := p.WithOrientation(ZERO);
    SolvedStickerIndex(p.Parity(), face.Axis().U8() as int);
    assert StickerIndex(c.Position().Parity(), p.Parity(), face.Axis().U8() as int, c.Orientation().U8() as int)
      == face.Axis().U8() as int;
  }

  /// Untwisted in its own slot, the two parity flips cancel.
  lemma SolvedStickerIndex(pp: nat, a: int)
    requires pp < 2
    ensures StickerIndex(pp, pp, a, 0) == a
  {
    assert ORIENTATION_AXIS.U8() == 1;
  }

  lemma SolvedStickerDirection(p: CornerPosition, face: Face)
    requires p.ContainsFace(face)
    requires Sticker(p.WithOrientation(ZERO), p, face).Axis() == face.Axis()
    ensures Sticker(p.WithOrientation(ZERO), p, face).Direction() == face.Direction()
  {
    OnFaceIff(p.WithOrientation(ZERO), face);
  }

  /// The three faces of a slot show three different stickers: the axis map
  /// of `sticker` is a shift of the axes by a signed amount, and so one to
  /// one.
  lemma StickerInjective(corner: Corner, position: CornerPosition, f: Face, g: Face)
    requires f.Axis() != g.Axis()
    ensures Sticker(corner, position, f) != Sticker(corner, position, g)
  {
    ShiftedAxesDiffer(corner.Position().Parity(), position.Parity(), f.Axis().U8() as int,
                      g.Axis().U8() as int, corner.Orientation().U8() as int);
  }

  lemma ShiftedAxesDiffer(cp: nat, pp: nat, a: int, b: int, o: int)
    requires cp < 2 && pp < 2 && a != b && 0 <= a < 3 && 0 <= b < 3
    ensures AxisFromI8Mod3(StickerIndex(cp, pp, a, o)) != AxisFromI8Mod3(StickerIndex(cp, pp, b, o))
  {
    assert ORIENTATION_AXIS.U8() == 1;
    SignedShift(cp, pp, a, b, o);
    AxisDifference(1 + ParitySigned(cp, ParitySigned(pp, a - 1) - o), 1 + ParitySigned(cp, ParitySigned(pp, b - 1) - o));
  }

  /// Two sign flips and a shift move two different axis indices apart by
  /// plus or minus their difference.
  lemma SignedShift(cp: nat, pp: nat, a: int, b: int, o: int)
    requires cp < 2 && pp < 2
    ensures var d := ParitySigned(cp, ParitySigned(pp, a - 1) - o) - ParitySigned(cp, ParitySigned(pp, b - 1) - o);
      d == a - b || d == b - a
  {
  }

  /// Two integers less than 3 apart but not equal fall on different axes.
  lemma AxisDifference(x: int, y: int)
    requires x != y && -3 < x - y < 3
    ensures AxisFromI8Mod3(x) != AxisFromI8Mod3(y)
  {
    var q := x / 3;
    var r := y / 3;
    assert x == 3 * q + x % 3 && y == 3 * r + y % 3;
  }

  // ---- count_swaps ----

  /// The home slot of the corner in each slot: the permutation of the
  /// slots that `count_swaps` walks.
  function Homes(corners: seq<Corner>): (perm: seq<nat>)
    requires |corners| == 8
    ensures SlotMap(perm) && forall i :: 0 <= i < 8 ==> perm[i] == corners[i].Position() as nat
  {
    seq(8, i requires 0 <= i < 8 => corners[i].Position() as nat)
  }

  /// Eight corners whose home slots are all different.
  predicate IsPermutation(corners: seq<Corner>) {
    |corners| == 8 && forall i, j :: 0 <= i < j < 8 ==> corners[i].Position() != corners[j].Position()
  }

  /// Corners with different home slots permute the slots.
  lemma HomesInjective(corners: seq<Corner>)
    requires IsPermutation(corners)
    ensures Injective(Homes(corners))
  {
    var perm := Homes(corners);
    forall i, j | 0 <= i < j < 8
      ensures perm[i] != perm[j]
    {
      assert corners[i].Position() != corners[j].Position();
    }
  }

  /// The number of swaps that sorts the corners: a cycle of `n` slots takes
  /// `n - 1` swaps, so this counts the slots that are not the smallest of
  /// their cycle.
  function SwapCount(corners: seq<Corner>): nat
    requires |corners| == 8
  {
    |NonLeaders(Homes(corners), SLOTS)|
  }

  /// `visited.iter().enumerate().find_map(..)`: the first slot from `from`
  /// on not yet visited.
  function FirstUnvisited(visited: seq<bool>, from: nat): (r: Option<nat>)
    requires from <= |visited|
    ensures r.Some? ==> (from <= r.value < |visited| && !visited[r.value] &&
      forall j :: from <= j < r.value ==> visited[j])
    ensures r.None? ==> forall j :: from <= j < |visited| ==> visited[j]
    decreases |visited| - from
  {
    if from == |visited| then None
    else if !visited[from] then Some(from)
    else FirstUnvisited(visited, from + 1)
  }

  /// `count_swaps`: visit the cycles of the permutation one by one from
  /// their smallest slot, counting one swap for every further slot.
  method CountSwaps(corners: seq<Corner>) returns (output: nat)
    requires IsPermutation(corners)
    ensures output == SwapCount(corners)
  {
    ghost var perm := Homes(corners);
    HomesInjective(corners);
    var visited := new bool[8](_ => false);
    output := 0;
    ghost var done: set<nat> := {};
    var next := FirstUnvisited(visited[..], 0);
    while next.Some?
      invariant forall i :: 0 <= i < 8 ==> (visited[i] <==> i in done)
      invariant done <= SLOTS && Closed(perm, done)
      invariant output == |NonLeaders(perm, done)|
      invariant next == FirstUnvisited(visited[..], 0)
      invariant |done| <= 8
      decreases 8 - |done|
    {
      var start := next.value;
      assert Fresh(perm, done, start);
      var steps, path := FollowCycle(corners, visited, start, perm, done);
      CycleClosed(perm, done, start, path);
      ghost var before := done;
      done := done + Elements(path);
      output := output + steps;
      SubsetCard(before + {start}, done);
      SlotsBound(done);
      next := FirstUnvisited(visited[..], 0);
    }
    assert done == SLOTS;
  }

  /// The inner loop of `count_swaps`: follow the corners from `start` back
  /// to `start`, marking every slot on the way and counting the steps.
  method FollowCycle(corners: seq<Corner>, visited: array<bool>, start: nat, ghost perm: seq<nat>, ghost before: set<nat>)
    returns (steps: nat, ghost path: seq<nat>)
    requires |corners| == 8 && visited.Length == 8 && perm == Homes(corners)
    requires Fresh(perm, before, start)
    requires forall i :: 0 <= i < 8 ==> (visited[i] <==> i in before)
    modifies visited
    ensures Walked(perm, before, start, path) && perm[path[|path| - 1]] == start
    ensures forall i :: 0 <= i < 8 ==> (visited[i] <==> i in before + Elements(path))
    ensures steps == |path| - 1
  {
    path := [start];
    WalkStarts(perm, before, start);
    visited[start] := true;
    steps := 0;
    var current := corners[start];
    while current.Position() as nat != start
      invariant forall i :: 0 <= i < 8 ==> (visited[i] <==> i in before + Elements(path))
      invariant Walked(perm, before, start, path)
      invariant current.Position() as nat == perm[path[|path| - 1]]
      invariant steps == |path| - 1
      decreases 8 - |path|
    {
      var p := current.Position() as nat;
      PathStep(perm, before, start, path);
      PathBound(perm, before, start, path + [p]);
      steps := steps + 1;
      visited[p] := true;
      path := path + [p];
      current := corners[p];
    }
  }

  /// The solved corners are a permutation that takes no swaps.
  lemma SolvedNoSwaps()
    ensures IsPermutation(SOLVED_CORNERS) && SwapCount(SOLVED_CORNERS) == 0
  {
    IdentityNoSwaps(Homes(SOLVED_CORNERS));
  }

  /// Exchanging two solved corners takes exactly one swap to undo.
  lemma ExchangeOneSwap(a: nat, b: nat)
    requires a < b < 8
    ensures var corners := SOLVED_CORNERS[a := SolvedCorner(b)][b := SolvedCorner(a)];
      IsPermutation(corners) && SwapCount(corners) == 1
  {
    var corners := SOLVED_CORNERS[a := SolvedCorner(b)][b := SolvedCorner(a)];
    SwapOneSwap(Homes(corners), a, b);
  }


  /// `corners.swap(i, j)`.
  function SwapCorners(corners: seq<Corner>, i: nat, j: nat): (r: seq<Corner>)
    requires |corners| == 8 && i < 8 && j < 8
    ensures |r| == 8 && Homes(r) == Swapped(Homes(corners), i, j)
  {
    var r := corners[i := corners[j]][j := corners[i]];
    assert Homes(r) == Swapped(Homes(corners), i, j);
    r
  }

  /// Corners `i` and `j` lie on one cycle: following home slots from `i`
  /// reaches `j`.
  predicate OnOneCycle(corners: seq<Corner>, i: nat, j: nat)
    requires |corners| == 8 && i < 8
  {
    j in Orbit(Homes(corners), i)
  }

  /// Exchanging two different corners changes `count_swaps` by exactly
  /// one: one less when they lie on one cycle, one more otherwise.
  lemma SwapChangesSwapCount(corners: seq<Corner>, i: nat, j: nat)
    requires IsPermutation(corners) && i < 8 && j < 8 && i != j
    ensures IsPermutation(SwapCorners(corners, i, j))
    ensures SwapCount(SwapCorners(corners, i, j)) ==
      if OnOneCycle(corners, i, j) then SwapCount(corners) - 1 else SwapCount(corners) + 1
  {
    var r := SwapCorners(corners, i, j);
    HomesInjective(corners);
    SwapChangesCount(Homes(corners), i, j);
    forall u, v | 0 <= u < v < 8
      ensures r[u].Position() != r[v].Position()
    {
      assert Homes(r)[u] != Homes(r)[v];
    }
  }

  /// A pair of the quickcheck taken modulo 8 and sorted.
  function SortedPair(pair: (nat, nat)): (r: (nat, nat))
    ensures r.0 <= r.1 < 8
    ensures {r.0, r.1} == {pair.0 % 8, pair.1 % 8}
  {
    var i, j := pair.0 % 8, pair.1 % 8;
    if i <= j then (i, j) else (j, i)
  }

  /// The loop of the quickcheck `swapping_n_corners_makes_fn_count_swaps_return_n`:
  /// each pair is taken modulo 8 and sorted; equal and repeated pairs are
  /// skipped, the others swapped and counted. Returns the corners and the
  /// number of swaps made.
  function SwapPairs(corners: seq<Corner>, swaps: seq<(nat, nat)>, seen: set<(nat, nat)>): (r: (seq<Corner>, nat))
    requires IsPermutation(corners)
    ensures IsPermutation(r.0) && r.1 <= |swaps|
    decreases |swaps|
  {
    if swaps == [] then (corners, 0)
    else
      var pair := SortedPair(swaps[0]);
      if pair.0 == pair.1 || pair in seen then SwapPairs(corners, swaps[1..], seen)
      else
        SwapChangesSwapCount(corners, pair.0, pair.1);
        var rest := SwapPairs(SwapCorners(corners, pair.0, pair.1), swaps[1..], seen + {pair});
        (rest.0, rest.1 + 1)
  }

  /// Two swap counts `a` and `b` that `n` swaps can lead between: they
  /// differ by at most `n`, and by a number with the parity of `n`.
  predicate WithinSwaps(a: nat, b: nat, n: nat) {
    a <= b + n && b <= a + n && (a + b + n) % 2 == 0
  }

  /// Each swap the loop makes changes the count by one, so the count moves
  /// by at most the number of swaps and with its parity.
  lemma {:induction false} SwapPairsCount(corners: seq<Corner>, swaps: seq<(nat, nat)>, seen: set<(nat, nat)>)
    requires IsPermutation(corners)
    ensures var r := SwapPairs(corners, swaps, seen); WithinSwaps(SwapCount(r.0), SwapCount(corners), r.1)
    decreases |swaps|
  {
    var r := SwapPairs(corners, swaps, seen);
    if swaps == [] {
      assert r == (corners, 0);
    } else {
      var pair := SortedPair(swaps[0]);
      if pair.0 == pair.1 || pair in seen {
        assert r == SwapPairs(corners, swaps[1..], seen);
        SwapPairsCount(corners, swaps[1..], seen);
      } else {
        SwapOneMore(corners, swaps, seen, pair);
      }
    }
  }

  /// The step of `SwapPairsCount` for a pair that is swapped.
  lemma {:induction false} SwapOneMore(corners: seq<Corner>, swaps: seq<(nat, nat)>, seen: set<(nat, nat)>, pair: (nat, nat))
    requires IsPermutation(corners) && swaps != [] && pair == SortedPair(swaps[0])
    requires pair.0 != pair.1 && pair !in seen
    ensures var r := SwapPairs(corners, swaps, seen); WithinSwaps(SwapCount(r.0), SwapCount(corners), r.1)
    decreases |swaps|, 0
  {
    var swapped := SwapCorners(corners, pair.0, pair.1);
    assert IsPermutation(swapped) && (SwapCount(swapped) == SwapCount(corners) + 1 || SwapCount(swapped) + 1 == SwapCount(corners)) by {
      SwapChangesSwapCount(corners, pair.0, pair.1);
    }
    var rest := SwapPairs(swapped, swaps[1..], seen + {pair});
    assert SwapPairs(corners, swaps, seen) == (rest.0, rest.1 + 1);
    assert WithinSwaps(SwapCount(rest.0), SwapCount(swapped), rest.1) by {
      SwapPairsCount(swapped, swaps[1..], seen + {pair});
    }
    OneMoreStep(SwapCount(rest.0), SwapCount(swapped), SwapCount(corners), rest.1);
  }

  /// The count arithmetic of one more swap.
  lemma OneMoreStep(last: nat, mid: nat, first: nat, n: nat)
    requires mid == first + 1 || mid + 1 == first
    requires WithinSwaps(last, mid, n)
    ensures WithinSwaps(last, first, n + 1)
  {
  }

  /// The quickcheck: after `n` distinct swaps of the solved corners,
  /// `count_swaps` is at most `n` and has the parity of `n`.
  lemma SwapsBoundCount(swaps: seq<(nat, nat)>)
    ensures IsPermutation(SOLVED_CORNERS)
    ensures var r := SwapPairs(SOLVED_CORNERS, swaps, {});
      SwapCount(r.0) <= r.1 && SwapCount(r.0) % 2 == r.1 % 2
  {
    SolvedNoSwaps();
    SwapsFromZero(SOLVED_CORNERS, swaps);
  }

  /// From corners that need no swap, `n` swaps leave a count of at most `n`
  /// with the parity of `n`.
  lemma SwapsFromZero(corners: seq<Corner>, swaps: seq<(nat, nat)>)
    requires IsPermutation(corners) && SwapCount(corners) == 0
    ensures var r := SwapPairs(corners, swaps, {});
      SwapCount(r.0) <= r.1 && SwapCount(r.0) % 2 == r.1 % 2
  {
    var r := SwapPairs(corners, swaps, {});
    assert WithinSwaps(SwapCount(r.0), 0, r.1) by {
      SwapPairsCount(corners, swaps, {});
    }
    FromZero(SwapCount(r.0), r.1);
  }

  /// The count arithmetic from a count of zero.
  lemma FromZero(a: nat, n: nat)
    requires WithinSwaps(a, 0, n)
    ensures a <= n && a % 2 == n % 2
  {
  }
}
