/// Centre orientations of the Pyraminx (`norcina-pyraminx/src/piece/center.rs`).
/// The four centres only rotate in place; each orientation (0, 1 or 2
/// clockwise turns from solved) takes two bits of one byte, at bit
/// `2 * vertex`: U in bits 0-1, L in 2-3, B in 4-5 and R in 6-7.
module PyraCenters {
  import Types
  import opened PyraPieces
  import opened PyraMoves

  newtype Centers = x: int | 0 <= x < 256

  /// `SOLVED`: every orientation zero.
  const CENTERS_SOLVED: Centers := 0

  /// `1 << (vertex * 2)`: the weight of the lowest bit of `v`'s field.
  function Unit(v: Vertex): (u: nat)
    ensures u == 1 || u == 4 || u == 16 || u == 64
  {
    if v == U then 1 else if v == L then 4 else if v == B then 16 else 64
  }

  /// `data >> (vertex * 2)`: the byte shifted down to `v`'s field.
  function Shifted(c: Centers, v: Vertex): nat
  {
    var x := c as nat;
    if v == U then x else if v == L then x / 4 else if v == B then x / 16 else x / 64
  }

  /// `(data >> (vertex * 2)) & 0b11`: the two bits of `v`.
  function Field(c: Centers, v: Vertex): (f: nat)
    ensures f < 4
  {
    Shifted(c, v) % 4
  }

  /// The byte built from four two-bit fields.
  function Pack(u: nat, l: nat, b: nat, r: nat): (c: Centers)
    requires u < 4 && l < 4 && b < 4 && r < 4
  {
    (u + 4 * l + 16 * b + 64 * r) as Centers
  }

  /// A byte is its four fields.
  lemma Unpack(c: Centers)
    ensures c == Pack(Field(c, U), Field(c, L), Field(c, B), Field(c, R))
  {
    var x := c as nat;
    BaseFour(x);
    FieldsOfPack(x % 4, x % 16 / 4, x % 64 / 16, x / 64);
  }

  /// The base-4 digits of a byte.
  lemma BaseFour(x: nat)
    requires x < 256
    ensures x == x % 4 + 4 * (x % 16 / 4) + 16 * (x % 64 / 16) + 64 * (x / 64)
    ensures x % 16 / 4 < 4 && x % 64 / 16 < 4 && x / 64 < 4
  {
  }

  /// Division by a field weight, read backwards: `x = q * k + r` with
  /// `r < k`.
  lemma DivMod(x: nat, k: nat, q: nat, r: nat)
    requires (k == 4 || k == 16 || k == 64) && r < k && x == q * k + r
    ensures x / k == q && x % k == r
  {
    if k == 4 {
      assert x == q * 4 + r;
    } else if k == 16 {
      assert x == q * 16 + r;
    } else {
      assert x == q * 64 + r;
    }
  }

  /// Packing then reading a field gives the field back.
  lemma FieldsOfPack(u: nat, l: nat, b: nat, r: nat)
    requires u < 4 && l < 4 && b < 4 && r < 4
    ensures var c := Pack(u, l, b, r);
      Field(c, U) == u && Field(c, L) == l && Field(c, B) == b && Field(c, R) == r
  {
    var x := u + 4 * l + 16 * b + 64 * r;
    DivMod(x, 4, l + 4 * b + 16 * r, u);
    DivMod(l + 4 * b + 16 * r, 4, b + 4 * r, l);
    DivMod(x, 16, b + 4 * r, u + 4 * l);
    DivMod(b + 4 * r, 4, r, b);
    DivMod(x, 64, r, u + 4 * l + 16 * b);
    var c := Pack(u, l, b, r);
    assert c as nat == x;
    assert Field(c, U) == u;
    assert Field(c, L) == l;
    assert Field(c, B) == b;
    assert Field(c, R) == r;
  }

  /// Overwriting one field of a packed byte is packing the other three
  /// fields with the new one.
  lemma ReplaceIsPack(c: Centers, v: Vertex, value: nat)
    requires value < 4
    ensures c as nat - Field(c, v) * Unit(v) + value * Unit(v) ==
      Pack(if v == U then value else Field(c, U), if v == L then value else Field(c, L),
        if v == B then value else Field(c, B), if v == R then value else Field(c, R)) as nat
  {
    Unpack(c);
    var u, l, b, r := Field(c, U), Field(c, L), Field(c, B), Field(c, R);
    if v == U {
      SwapDigit(c as nat, 1, u, value, value + 4 * l + 16 * b + 64 * r);
    } else if v == L {
      SwapDigit(c as nat, 4, l, value, u + 4 * value + 16 * b + 64 * r);
    } else if v == B {
      SwapDigit(c as nat, 16, b, value, u + 4 * l + 16 * value + 64 * r);
    } else {
      SwapDigit(c as nat, 64, r, value, u + 4 * l + 16 * b + 64 * value);
    }
  }

  /// Swapping one base-4 digit of weight `k`: `x` loses `was * k` and gains
  /// `now * k`.
  lemma SwapDigit(x: nat, k: nat, was: nat, now: nat, y: nat)
    requires (k == 1 && y + was == x + now) || (k == 4 && y + 4 * was == x + 4 * now) ||
      (k == 16 && y + 16 * was == x + 16 * now) || (k == 64 && y + 64 * was == x + 64 * now)
    ensures x - was * k + now * k == y
  {
  }

  /// `data & !(0b11 << shift) | (value << shift)`: the field of `v` cleared
  /// and set to `value`, the other fields kept.
  function Replace(c: Centers, v: Vertex, value: nat): (r: Centers)
    requires value < 4
    ensures forall w: Vertex :: Field(r, w) == if w == v then value else Field(c, w)
  {
    ReplaceIsPack(c, v, value);
    var r := (c as nat - Field(c, v) * Unit(v) + value * Unit(v)) as Centers;
    FieldsOfPack(if v == U then value else Field(c, U), if v == L then value else Field(c, L),
      if v == B then value else Field(c, B), if v == R then value else Field(c, R));
    r
  }

  /// Two bytes with the same four fields are equal.
  lemma FieldsDetermine(c: Centers, d: Centers)
    requires Field(c, U) == Field(d, U) && Field(c, L) == Field(d, L)
    requires Field(c, B) == Field(d, B) && Field(c, R) == Field(d, R)
    ensures c == d
  {
    Unpack(c);
    Unpack(d);
  }

  /// Every orientation is 0, 1 or 2.
  predicate Valid(c: Centers) {
    Field(c, U) < 3 && Field(c, L) < 3 && Field(c, B) < 3 && Field(c, R) < 3
  }

  /// `orientation_of`: `Orientation3::from_u8` panics on a field of 3, which
  /// a valid byte does not hold.
  function OrientationOf(c: Centers, v: Vertex): (o: Types.Orientation3)
    requires Field(c, v) < 3
    ensures o.U8() == Field(c, v)
  {
    Types.Orientation3FromU8(Field(c, v))
  }

  /// `amount.u8() + 1`: a clockwise turn adds 1, a counter-clockwise one 2.
  function Delta(m: CoreMove): (d: nat)
    ensures d == 1 <==> m.Amount() == Single
    ensures d == 2 <==> m.Amount() == Reverse
  {
    m.Amount().U8() + 1
  }

  /// `mov` as written: the new orientation is `(data >> shift) + delta`
  /// modulo 3, without masking off the fields above the turned one.
  function MovAsWritten(c: Centers, m: CoreMove): Centers {
    var v := m.Vertex();
    Replace(c, v, (Shifted(c, v) + Delta(m)) % 3)
  }

  /// `mov` with the field masked: the turned centre's orientation advances
  /// by the amount, modulo 3.
  function Mov(c: Centers, m: CoreMove): Centers {
    var v := m.Vertex();
    Replace(c, v, (Field(c, v) + Delta(m)) % 3)
  }

  /// The fields after a turn, one vertex at a time.
  lemma MovField(c: Centers, m: CoreMove, w: Vertex)
    ensures Field(Mov(c, m), w) == if w == m.Vertex() then (Field(c, w) + Delta(m)) % 3 else Field(c, w)
  {
  }

  /// Solved centres: every orientation is 0.
  lemma SolvedFields(w: Vertex)
    ensures Shifted(CENTERS_SOLVED, w) == 0 && Field(CENTERS_SOLVED, w) == 0 && Valid(CENTERS_SOLVED)
  {
    var x := CENTERS_SOLVED as nat;
    assert x == 0;
    assert x / 1 == 0 && x / 4 == 0 && x / 16 == 0 && x / 64 == 0;
  }

  /// The fields after a turn as written, one vertex at a time: even as
  /// written, only the turned field changes and its new value is below 3.
  lemma MovAsWrittenField(c: Centers, m: CoreMove, w: Vertex)
    ensures Field(MovAsWritten(c, m), w) ==
      if w == m.Vertex() then (Shifted(c, w) + Delta(m)) % 3 else Field(c, w)
    ensures Field(MovAsWritten(c, m), m.Vertex()) < 3
  {
  }

  /// From solved, a clockwise turn of B as written gives the byte 16.
  lemma MovAsWrittenFromSolved()
    ensures MovAsWritten(CENTERS_SOLVED, NewCoreMove(B, Single)) as nat == 16
  {
    MovAsWrittenTurnsB(CENTERS_SOLVED, NewCoreMove(B, Single), MovAsWritten(CENTERS_SOLVED, NewCoreMove(B, Single)));
  }

  lemma MovAsWrittenTurnsB(c: Centers, m: CoreMove, d: Centers)
    requires c == CENTERS_SOLVED && m.Vertex() == B && m.Amount() == Single && d == MovAsWritten(c, m)
    ensures d as nat == 16
  {
    SolvedFields(U);
    SolvedFields(L);
    SolvedFields(B);
    SolvedFields(R);
    TurnsBField(c, m, U);
    TurnsBField(c, m, L);
    TurnsBField(c, m, B);
    TurnsBField(c, m, R);
    ByteOfFields(d);
  }

  /// A clockwise turn of B on a byte whose fields read 0.
  lemma TurnsBField(c: Centers, m: CoreMove, w: Vertex)
    requires Shifted(c, B) == 0 && Field(c, w) == 0 && m.Vertex() == B && m.Amount() == Single
    ensures Field(MovAsWritten(c, m), w) == if w == B then 1 else 0
  {
    MovAsWrittenField(c, m, w);
  }

  /// The byte whose only non-zero field is B's, at 1.
  lemma ByteOfFields(d: Centers)
    requires Field(d, U) == 0 && Field(d, L) == 0 && Field(d, B) == 1 && Field(d, R) == 0
    ensures d as nat == 16
  {
    FieldsOfPack(0, 0, 1, 0);
    FieldsDetermine(d, Pack(0, 0, 1, 0));
  }

  /// A clockwise turn of B from solved, then one of U: the U field reads
  /// `16 + 1` modulo 3 and becomes 2, where one clockwise turn gives 1.
  lemma MovAsWrittenLeaks()
    ensures var c := MovAsWritten(CENTERS_SOLVED, NewCoreMove(B, Single));
      Field(MovAsWritten(c, NewCoreMove(U, Single)), U) == 2 &&
      Field(Mov(c, NewCoreMove(U, Single)), U) == 1
  {
    MovAsWrittenFromSolved();
    MovAsWrittenLeaksFrom(MovAsWritten(CENTERS_SOLVED, NewCoreMove(B, Single)), NewCoreMove(U, Single));
  }

  lemma MovAsWrittenLeaksFrom(c: Centers, m: CoreMove)
    requires c as nat == 16 && m.Vertex() == U && m.Amount() == Single
    ensures Field(MovAsWritten(c, m), U) == 2 && Field(Mov(c, m), U) == 1
  {
    assert Field(c, U) == 0;
    MovAsWrittenField(c, m, U);
    MovField(c, m, U);
  }

  /// As written, U then U' after B from solved does not come back: the U
  /// field reads 2 after U, and U' reads the whole byte again and leaves
  /// it at 2 (the byte is 18 where it was 16).
  lemma MovAsWrittenNotUndone()
    ensures var c := MovAsWritten(CENTERS_SOLVED, NewCoreMove(B, Single));
      var d := MovAsWritten(MovAsWritten(c, NewCoreMove(U, Single)), NewCoreMove(U, Reverse));
      Field(d, U) == 2 && Field(c, U) == 0 && d != c
  {
    var c := MovAsWritten(CENTERS_SOLVED, NewCoreMove(B, Single));
    MovAsWrittenFromSolved();
    NotUndoneFrom(c, NewCoreMove(U, Single), NewCoreMove(U, Reverse));
  }

  lemma NotUndoneFrom(c: Centers, m: CoreMove, m': CoreMove)
    requires c as nat == 16 && m.Vertex() == U && m.Amount() == Single
    requires m'.Vertex() == U && m'.Amount() == Reverse
    ensures Field(MovAsWritten(MovAsWritten(c, m), m'), U) == 2 && Field(c, U) == 0
  {
    LeaksTo18(c, m);
    ReverseFrom18(MovAsWritten(c, m), m');
  }

  /// From byte 16, U as written gives byte 18.
  lemma LeaksTo18(c: Centers, m: CoreMove)
    requires c as nat == 16 && m.Vertex() == U && m.Amount() == Single
    ensures MovAsWritten(c, m) as nat == 18 && Field(c, U) == 0
  {
    assert Field(c, U) == 0 && Shifted(c, U) == 16;
    assert (Shifted(c, U) + Delta(m)) % 3 == 2;
  }

  /// From byte 18, U' as written leaves the U field at 2.
  lemma ReverseFrom18(d: Centers, m': CoreMove)
    requires d as nat == 18 && m'.Vertex() == U && m'.Amount() == Reverse
    ensures Field(MovAsWritten(d, m'), U) == 2
  {
    MovAsWrittenField(d, m', U);
    assert Shifted(d, U) == 18;
  }

  /// The field of R is the top one, so nothing leaks into it: for R the
  /// source's `mov` is the intended one.
  lemma MovAsWrittenTopField(c: Centers, m: CoreMove)
    requires m.Vertex() == R
    ensures MovAsWritten(c, m) == Mov(c, m)
  {
    assert c as nat / 64 == Field(c, R);
  }

  /// A turn rotates its own centre by one third clockwise (`Single`) or
  /// counter-clockwise (`Reverse`), leaves the other centres alone, and
  /// keeps every orientation below 3.
  lemma MovRotatesOneCentre(c: Centers, m: CoreMove, w: Vertex)
    requires Valid(c)
    ensures Valid(Mov(c, m))
    ensures w == m.Vertex() ==>
      OrientationOf(Mov(c, m), w).U8() == (OrientationOf(c, w).U8() + (if m.Amount() == Single then 1 else 2)) % 3
    ensures w != m.Vertex() ==> OrientationOf(Mov(c, m), w) == OrientationOf(c, w)
  {
    MovField(c, m, U);
    MovField(c, m, L);
    MovField(c, m, B);
    MovField(c, m, R);
  }

  lemma AddMod3Commutes(f: nat, d1: nat, d2: nat)
    ensures ((f + d1) % 3 + d2) % 3 == ((f + d2) % 3 + d1) % 3
  {
  }

  lemma AddMod3Inverse(f: nat, d1: nat, d2: nat)
    requires f < 3 && d1 + d2 == 3
    ensures ((f + d1) % 3 + d2) % 3 == f
  {
  }

  lemma AddMod3Thrice(f: nat, d: nat)
    requires f < 3
    ensures (((f + d) % 3 + d) % 3 + d) % 3 == f
  {
  }

  lemma CommutesAt(c: Centers, m1: CoreMove, m2: CoreMove, w: Vertex)
    ensures Field(Mov(Mov(c, m1), m2), w) == Field(Mov(Mov(c, m2), m1), w)
  {
    var a, b := Mov(c, m1), Mov(c, m2);
    MovField(c, m1, w);
    MovField(c, m2, w);
    MovField(a, m2, w);
    MovField(b, m1, w);
    if w == m1.Vertex() && w == m2.Vertex() {
      AddMod3Commutes(Field(c, w), Delta(m1), Delta(m2));
    }
  }

  /// Turns commute: centres are only rotated in place.
  lemma MovCommutes(c: Centers, m1: CoreMove, m2: CoreMove)
    ensures Mov(Mov(c, m1), m2) == Mov(Mov(c, m2), m1)
  {
    CommutesAt(c, m1, m2, U);
    CommutesAt(c, m1, m2, L);
    CommutesAt(c, m1, m2, B);
    CommutesAt(c, m1, m2, R);
    FieldsDetermine(Mov(Mov(c, m1), m2), Mov(Mov(c, m2), m1));
  }

  lemma InverseAt(c: Centers, m: CoreMove, w: Vertex)
    requires Field(c, w) < 3
    ensures Field(Mov(Mov(c, m), CoreInverse(m)), w) == Field(c, w)
  {
    var a := Mov(c, m);
    MovField(c, m, w);
    MovField(a, CoreInverse(m), w);
    if w == m.Vertex() {
      var f, d1, d2 := Field(c, w), Delta(m), Delta(CoreInverse(m));
      assert Field(a, w) == (f + d1) % 3;
      AddMod3Inverse(f, d1, d2);
    }
  }

  /// A turn followed by the opposite turn of the same vertex restores valid
  /// centres.
  lemma MovThenInverse(c: Centers, m: CoreMove)
    requires Valid(c)
    ensures Mov(Mov(c, m), CoreInverse(m)) == c
  {
    InverseAt(c, m, U);
    InverseAt(c, m, L);
    InverseAt(c, m, B);
    InverseAt(c, m, R);
    FieldsDetermine(Mov(Mov(c, m), CoreInverse(m)), c);
  }

  lemma ThriceAt(c: Centers, m: CoreMove, w: Vertex)
    requires Field(c, w) < 3
    ensures Field(Mov(Mov(Mov(c, m), m), m), w) == Field(c, w)
  {
    MovField(c, m, w);
    MovField(Mov(c, m), m, w);
    MovField(Mov(Mov(c, m), m), m, w);
    if w == m.Vertex() {
      AddMod3Thrice(Field(c, w), Delta(m));
    }
  }

  /// Three turns of the same vertex the same way restore valid centres.
  lemma MovThrice(c: Centers, m: CoreMove)
    requires Valid(c)
    ensures Mov(Mov(Mov(c, m), m), m) == c
  {
    ThriceAt(c, m, U);
    ThriceAt(c, m, L);
    ThriceAt(c, m, B);
    ThriceAt(c, m, R);
    FieldsDetermine(Mov(Mov(Mov(c, m), m), m), c);
  }
}
