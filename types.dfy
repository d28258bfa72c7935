// norcina-core/src/types.rs: the small value types every puzzle crate is
// built from.  Each is a byte in Rust; here each is a datatype or a newtype
// together with the byte it stands for (`U8`).
module Types {

  /// A direction along an axis; the discriminant is 0 for Positive and 1 for
  /// Negative, which is also the bit pattern of `false`/`true`.
  datatype Direction = Positive | Negative {

    function U8(): (r: nat)
      ensures r < 2
      ensures r == 0 <==> Positive?
    {
      if Positive? then 0 else 1
    }

    /// Reinterprets the discriminant as a bool (Negative is `true`).
    function Bool(): (b: bool)
      ensures b <==> U8() == 1
    {
      Negative?
    }

    /// `u8 ^ 1`: the other direction.
    function Flip(): (r: Direction)
      ensures r != this
      ensures r.U8() + U8() == 1
    {
      FromU8(1 - U8())
    }
  }

  /// Reinterprets a bool as a direction, so that `FromBool(d.Bool()) == d`.
  function FromBool(value: bool): (d: Direction)
    ensures d.Bool() == value
  {
    if value then Negative else Positive
  }

  /// 0 gives Positive, every other value gives Negative.
  function FromU8Any(value: nat): (d: Direction)
    ensures d.Positive? <==> value == 0
  {
    FromBool(value != 0)
  }

  /// Only the last bit of `value` is used (`value & 1`).
  function FromU8Mod2(value: nat): (d: Direction)
    ensures d.U8() == value % 2
  {
    FromU8(value % 2)
  }

  /// Panics in the source unless `value < 2`.
  function FromU8(value: nat): (d: Direction)
    requires value < 2
    ensures d.U8() == value
  {
    if value == 0 then Positive else Negative
  }

  /// The conversions are mutually inverse (Positive is `false` and 0,
  /// Negative is `true` and 1), and flipping twice is the identity.
  lemma DirectionRoundTrips(d: Direction, value: nat)
    ensures FromBool(d.Bool()) == d && FromU8(d.U8()) == d
    ensures d.Flip().Flip() == d
    ensures FromU8Mod2(value) == FromU8(value % 2)
  {
  }

  /// One of the three axes, with discriminants 0, 1, 2.
  datatype Axis = X | Y | Z {

    function U8(): (r: nat)
      ensures r < 3
    {
      match this
      case X => 0
      case Y => 1
      case Z => 2
    }

    /// X -> Y -> Z -> X; the source computes `(u8 + 1) % 3`.
    function Next(): (r: Axis)
      ensures r.U8() == (U8() + 1) % 3
    {
      match this
      case X => Y
      case Y => Z
      case Z => X
    }

    /// Z -> Y -> X -> Z; the source computes `(u8 + 2) % 3`.
    function Prev(): (r: Axis)
      ensures r.U8() == (U8() + 2) % 3
    {
      match this
      case X => Z
      case Y => X
      case Z => Y
    }
  }

  /// Panics in the source unless `value < 3`.
  function AxisFromU8(value: nat): (a: Axis)
    requires value < 3
    ensures a.U8() == value
  {
    if value == 0 then X else if value == 1 then Y else Z
  }

  function AxisFromU8Mod3(value: nat): (a: Axis)
    ensures a.U8() == value % 3
  {
    AxisFromU8(value % 3)
  }

  /// `value.rem_euclid(3)`; Dafny's `%` is already Euclidean.
  function AxisFromI8Mod3(value: int): (a: Axis)
    ensures a.U8() == value % 3
    ensures value >= 0 ==> a == AxisFromU8Mod3(value)
  {
    AxisFromU8(value % 3)
  }

  /// The axis perpendicular to both `a` and `b`, as `(2a - b) mod 3`.  When
  /// the two axes coincide the result is that same axis.
  function OtherAxis(a: Axis, b: Axis): (r: Axis)
    ensures a != b ==> r != a && r != b
    ensures a == b ==> r == a
  {
    AxisFromI8Mod3(2 * a.U8() - b.U8())
  }

  /// `a`, `a.Next()` and `a.Prev()` are the three axes, and Prev undoes Next.
  lemma AxisCycle(a: Axis, b: Axis)
    ensures a.Next() != a && a.Prev() != a && a.Next() != a.Prev()
    ensures b == a || b == a.Next() || b == a.Prev()
    ensures a.Next().Prev() == a && a.Prev().Next() == a
    ensures a.Next().Next() == a.Prev()
  {
  }

  /// An orientation in one of three states; the byte is 0, 1 or 2.
  newtype Orientation3 = x: int | 0 <= x < 3 {

    function U8(): (r: nat)
      ensures r < 3
    {
      this as nat
    }

    function IsOriented(): (b: bool)
      ensures b <==> this == ZERO
    {
      this == 0
    }

    /// The additive inverse modulo 3, computed with the source's bit trick
    /// `((d | d << 2) >> 1) & 0b11`; the two shifted copies of `d < 4` never
    /// overlap, so `d | d << 2` is `d + 4 * d`.
    function Neg(): (r: Orientation3)
      ensures (U8() + r.U8()) % 3 == 0
    {
      Orientation3FromU8(((U8() + 4 * U8()) / 2) % 4)
    }
  }

  const ZERO: Orientation3 := 0
  const ONE: Orientation3 := 1
  const TWO: Orientation3 := 2

  function Orientation3FromU8Mod3(orientation: nat): (o: Orientation3)
    ensures o.U8() == orientation % 3
  {
    (orientation % 3) as Orientation3
  }

  function Orientation3FromI8Mod3(orientation: int): (o: Orientation3)
    ensures o.U8() == orientation % 3
  {
    (orientation % 3) as Orientation3
  }

  /// Panics in the source unless `orientation < 3`.
  function Orientation3FromU8(orientation: nat): (o: Orientation3)
    requires orientation < 3
    ensures o.U8() == orientation
  {
    orientation as Orientation3
  }

  /// Negation is an involution and only fixes the oriented state.
  lemma NegInvolution(o: Orientation3)
    ensures o.Neg().Neg() == o
    ensures o.Neg() == o <==> o.IsOriented()
  {
  }
}
