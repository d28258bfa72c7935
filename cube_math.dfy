// norcina-cube-n/src/math.rs: the cube crate's own copies of Direction, Axis
// and Face.  They have the same discriminants and bodies as the core types
// (Types, Faces) except for the two members modelled here.
module CubeMath {
  import opened Types

  /// `Direction ^ Direction`: `from_u8(a.u8() ^ b.u8())`; on single bits the
  /// exclusive or is addition modulo 2.
  function DirectionXor(a: Direction, b: Direction): (r: Direction)
    ensures r.Bool() == (a.Bool() != b.Bool())
    ensures b.Positive? ==> r == a
    ensures b.Negative? ==> r == a.Flip()
  {
    FromU8((a.U8() + b.U8()) % 2)
  }

  /// `Axis::other` written as `(2a + 3 - b) % 3` so that the unsigned
  /// arithmetic never underflows; it agrees with the signed core version.
  function OtherAxisUnsigned(a: Axis, b: Axis): Axis {
    AxisFromU8Mod3(2 * a.U8() + 3 - b.U8())
  }

  lemma OtherAxisUnsignedAgrees(a: Axis, b: Axis)
    ensures OtherAxisUnsigned(a, b) == OtherAxis(a, b)
  {
    var u := 2 * a.U8() + 3 - b.U8();
    assert u >= 0 && u - 3 == 2 * a.U8() - b.U8();
    assert u % 3 == (2 * a.U8() - b.U8()) % 3;
  }
}
