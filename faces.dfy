// norcina-cube-n/src/face.rs: the six faces of a cube.  A face is an axis
// and a direction packed as `axis + (direction << 2)`, so the byte values
// are 0, 1, 2 (R, U, F) and 4, 5, 6 (L, D, B).
module Faces {
  import opened Types

  datatype Face = R | U | F | L | D | B {

    function U8(): (r: nat)
      ensures r < 7 && r != 3
    {
      match this
      case R => 0
      case U => 1
      case F => 2
      case L => 4
      case D => 5
      case B => 6
    }

    /// The source reads the low two bits of the byte (`u8 & 0b011`).
    function Axis(): (a: Axis)
      ensures a.U8() == U8() % 4
    {
      match this
      case R => X
      case U => Y
      case F => Z
      case L => X
      case D => Y
      case B => Z
    }

    /// The source tests bit 2 of the byte (`u8 & 0b100 != 0`).
    function Direction(): (d: Direction)
      ensures d.U8() == (U8() / 4) % 2
    {
      match this
      case R => Positive
      case U => Positive
      case F => Positive
      case L => Negative
      case D => Negative
      case B => Negative
    }

    /// The source flips bit 2 of the byte (`u8 ^ 0b100`): same axis, other
    /// direction.
    function Opposite(): (r: Face)
      ensures r.U8() == (U8() + 4) % 8
      ensures r.Axis() == Axis() && r.Direction() == Direction().Flip()
    {
      match this
      case R => L
      case U => D
      case F => B
      case L => R
      case D => U
      case B => F
    }

    /// The right-handed "cross product" of two perpendicular faces; the
    /// source panics when the axes coincide.
    function Cross(rhs: Face): (r: Face)
      requires Axis() != rhs.Axis()
      ensures r.Axis() != Axis() && r.Axis() != rhs.Axis()
    {
      var axis := OtherAxis(Axis(), rhs.Axis());
      var direction := FromBool(((Axis().Next() != rhs.Axis()) != Direction().Bool()) != rhs.Direction().Bool());
      NewFace(axis, direction)
    }

    function Char(): char {
      match this
      case R => 'R'
      case U => 'U'
      case F => 'F'
      case L => 'L'
      case D => 'D'
      case B => 'B'
    }
  }

  /// `Face::new`: the face on `axis` in `direction`.
  function NewFace(axis: Axis, direction: Direction): (f: Face)
    ensures f.Axis() == axis && f.Direction() == direction
  {
    FaceFromU8(axis.U8() + direction.U8() * 4)
  }

  /// Panics in the source when `index` is 3 or at least 7.
  function FaceFromU8(index: nat): (f: Face)
    requires index != 3 && index < 7
    ensures f.U8() == index
  {
    match index
    case 0 => R
    case 1 => U
    case 2 => F
    case 4 => L
    case 5 => D
    case 6 => B
  }

  /// `Face::iter`: R, U, F, L, D, B.
  const ALL_FACES: seq<Face> := [R, U, F, L, D, B]

  /// A face is determined by its axis and direction, and its byte by its face.
  lemma FaceEncoding(f: Face, g: Face)
    ensures NewFace(f.Axis(), f.Direction()) == f
    ensures FaceFromU8(f.U8()) == f
    ensures f.U8() == f.Axis().U8() + 4 * f.Direction().U8()
    ensures (f.Axis() == g.Axis() && f.Direction() == g.Direction()) <==> f == g
  {
  }

  /// `ALL_FACES` lists every face once, the positive faces first, each in
  /// axis order.
  lemma AllFaces(f: Face)
    ensures |ALL_FACES| == 6
    ensures f in ALL_FACES
    ensures forall i, j :: 0 <= i < j < 6 ==> ALL_FACES[i] != ALL_FACES[j]
    ensures forall i :: 0 <= i < 6 ==> ALL_FACES[i].Axis().U8() == i % 3 && ALL_FACES[i].Direction().U8() == i / 3
  {
  }

  /// The opposite of the opposite face is the face itself.
  lemma OppositeInvolution(f: Face)
    ensures f.Opposite().Opposite() == f
  {
  }

  /// Right-hand rule: R x U = F, U x F = R, F x R = U.
  lemma CrossRightHanded(a: Face, b: Face)
    requires a.Axis() != b.Axis()
    ensures a.Direction().Positive? && b.Direction().Positive? && b.Axis() == a.Axis().Next() ==>
              a.Cross(b) == NewFace(a.Axis().Prev(), Positive)
  {
    match a
    case R =>
    case U =>
    case F =>
    case L =>
    case D =>
    case B =>
  }

  /// Swapping the operands of a cross product flips the result.
  lemma CrossAntiCommutes(a: Face, b: Face)
    requires a.Axis() != b.Axis()
    ensures b.Cross(a) == a.Cross(b).Opposite()
  {
    match a
    case R =>
      match b {
        case R =>
        case U =>
        case F =>
        case L =>
        case D =>
        case B =>
      }
    case U =>
      match b {
        case R =>
        case U =>
        case F =>
        case L =>
        case D =>
        case B =>
      }
    case F =>
      match b {
        case R =>
        case U =>
        case F =>
        case L =>
        case D =>
        case B =>
      }
    case L =>
      match b {
        case R =>
        case U =>
        case F =>
        case L =>
        case D =>
        case B =>
      }
    case D =>
      match b {
        case R =>
        case U =>
        case F =>
        case L =>
        case D =>
        case B =>
      }
    case B =>
      match b {
        case R =>
        case U =>
        case F =>
        case L =>
        case D =>
        case B =>
      }
  }

  /// Turning either operand into its opposite flips the result.
  lemma CrossOpposite(a: Face, b: Face)
    requires a.Axis() != b.Axis()
    ensures a.Opposite().Cross(b) == a.Cross(b).Opposite()
    ensures a.Cross(b.Opposite()) == a.Cross(b).Opposite()
  {
    match a
    case R =>
    case U =>
    case F =>
    case L =>
    case D =>
    case B =>
  }

  /// Display characters are distinct.
  lemma CharInjective(f: Face, g: Face)
    ensures f.Char() == g.Char() <==> f == g
  {
  }
}
