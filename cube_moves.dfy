// norcina-cube-n/src/mov.rs: face turns of a cube.  A move is a byte
// `---aafff`: the face in the low three bits and the amount (1, 2 or 3
// quarter turns) in the next two.
module CubeMoves {
  import opened Types
  import opened Faces

  datatype Amount = Single | Double | Reverse {

    function U8(): (r: nat)
      ensures 1 <= r <= 3
    {
      match this
      case Single => 1
      case Double => 2
      case Reverse => 3
    }

    /// The amount that undoes this one: the quarter turns add up to a
    /// multiple of four.
    function Reversed(): (r: Amount)
      ensures (U8() + r.U8()) % 4 == 0
    {
      match this
      case Single => Reverse
      case Double => Double
      case Reverse => Single
    }

    /// `amount * direction`: a turn seen from the other side of its axis is
    /// `4 - amount` quarter turns.
    function Mul(rhs: Direction): (r: Amount)
      ensures rhs.Positive? ==> r == this
      ensures rhs.Negative? ==> r == Reversed()
    {
      match rhs
      case Positive => this
      case Negative => AmountFromU8(4 - U8())
    }
  }

  /// Reversing twice is the identity, and only the half turn is its own
  /// reverse.
  lemma ReversedInvolution(a: Amount)
    ensures a.Reversed().Reversed() == a
    ensures a.Reversed() == a <==> a == Double
  {
    match a
    case Single =>
    case Double =>
    case Reverse =>
  }

  /// Panics in the source on anything but 1, 2, 3.
  function AmountFromU8(x: nat): (a: Amount)
    requires 1 <= x <= 3
    ensures a.U8() == x
  {
    match x
    case 1 => Single
    case 2 => Double
    case 3 => Reverse
  }

  /// `Amount::iter`.
  const ALL_AMOUNTS: seq<Amount> := [Single, Double, Reverse]

  /// The byte of a move: face bits valid (not 3, not 7) and amount 1..3.
  newtype Move = x: int | 8 <= x < 32 && x % 8 != 3 && x % 8 != 7 witness 8 {

    /// The low three bits (`data & 0b111`).
    function Face(): Face {
      FaceFromU8(this as int % 8)
    }

    /// The bits above the face (`data >> 3`).
    function Amount(): Amount {
      AmountFromU8(this as int / 8)
    }

    function Axis(): Axis {
      Face().Axis()
    }

    /// The `(Single, Positive) | (Reverse, Negative)` arm of the piece
    /// movers: a quarter turn that is clockwise seen from the positive end of
    /// its axis.
    function ClockwiseAboutAxis(): bool {
      (Amount() == Single) == Face().Direction().Positive?
    }

    /// `InvertibleMove::inverse`: same face, reversed amount.
    function Inverse(): Move {
      NewMove(Face(), Amount().Reversed())
    }

    /// `Display`: the face letter, then ' ', '2' or '\''.
    function Display(): (s: string)
      ensures |s| == 2 && s[0] == Face().Char()
    {
      [Face().Char()] + match Amount()
        case Single => " "
        case Double => "2"
        case Reverse => "'"
    }
  }

  /// A quarter turn rotates the coordinates of a piece on the turned face in
  /// the plane of two axes `(a, b)`, sending `(p[a], p[b])` to
  /// `(p[b], -p[a])`.  `LeadAxis` is `a`: the axis after the turned one for
  /// turns clockwise about the axis, the one before it otherwise.
  function LeadAxis(mov: Move): Axis {
    if mov.ClockwiseAboutAxis() then mov.Axis().Next() else mov.Axis().Prev()
  }

  /// The second axis `b` of the rotated pair.
  function TrailAxis(mov: Move): Axis {
    if mov.ClockwiseAboutAxis() then mov.Axis().Prev() else mov.Axis().Next()
  }

  /// `Move::new`: `face + (amount << 3)`.
  function NewMove(face: Face, amount: Amount): Move {
    (face.U8() + amount.U8() * 8) as Move
  }

  /// `Move::iter`: for each face in `ALL_FACES`, each amount in order.
  function Iter(): (ms: seq<Move>)
    ensures |ms| == 18
    ensures forall k :: 0 <= k < 18 ==> ms[k] == NewMove(ALL_FACES[k / 3], ALL_AMOUNTS[k % 3])
  {
    seq(18, k requires 0 <= k < 18 => NewMove(ALL_FACES[k / 3], ALL_AMOUNTS[k % 3]))
  }

  // The named moves of `moves`, written as their bytes; `MoveNames`
  // shows each is `NewMove` of its face and amount.
  const R: Move := 8
  const R2: Move := 16
  const RP: Move := 24
  const U: Move := 9
  const U2: Move := 17
  const UP: Move := 25
  const F: Move := 10
  const F2: Move := 18
  const FP: Move := 26
  const L: Move := 12
  const L2: Move := 20
  const LP: Move := 28
  const D: Move := 13
  const D2: Move := 21
  const DP: Move := 29
  const B: Move := 14
  const B2: Move := 22
  const BP: Move := 30

  /// `Move::ALL`.
  const ALL_MOVES: seq<Move> := [R, R2, RP, U, U2, UP, F, F2, FP, L, L2, LP, D, D2, DP, B, B2, BP]

  /// `new` and the accessors are inverse: a move is its face and amount.
  lemma NewMoveAccessors(face: Face, amount: Amount)
    ensures NewMove(face, amount).Face() == face
    ensures NewMove(face, amount).Amount() == amount
  {
  }

  lemma MoveEncoding(m: Move, n: Move)
    ensures NewMove(m.Face(), m.Amount()) == m
    ensures (m.Face() == n.Face() && m.Amount() == n.Amount()) <==> m == n
  {
    assert m as int == m.Face().U8() + 8 * m.Amount().U8();
    assert n as int == n.Face().U8() + 8 * n.Amount().U8();
    FaceEncoding(m.Face(), n.Face());
  }

  /// Each named move is its face turned by its amount.
  lemma MoveNames()
    ensures R == NewMove(Face.R, Single)
    ensures R2 == NewMove(Face.R, Double)
    ensures RP == NewMove(Face.R, Reverse)
    ensures U == NewMove(Face.U, Single)
    ensures U2 == NewMove(Face.U, Double)
    ensures UP == NewMove(Face.U, Reverse)
    ensures F == NewMove(Face.F, Single)
    ensures F2 == NewMove(Face.F, Double)
    ensures FP == NewMove(Face.F, Reverse)
    ensures L == NewMove(Face.L, Single)
    ensures L2 == NewMove(Face.L, Double)
    ensures LP == NewMove(Face.L, Reverse)
    ensures D == NewMove(Face.D, Single)
    ensures D2 == NewMove(Face.D, Double)
    ensures DP == NewMove(Face.D, Reverse)
    ensures B == NewMove(Face.B, Single)
    ensures B2 == NewMove(Face.B, Double)
    ensures BP == NewMove(Face.B, Reverse)
  {
  }

  lemma AllMovesBytes()
    ensures ALL_MOVES == [8, 16, 24, 9, 17, 25, 10, 18, 26, 12, 20, 28, 13, 21, 29, 14, 22, 30]
  {
  }

  lemma IterBytes()
    ensures Iter() == [8, 16, 24, 9, 17, 25, 10, 18, 26, 12, 20, 28, 13, 21, 29, 14, 22, 30]
  {
  }

  /// `ALL_MOVES` is `Iter()`.
  lemma AllMovesIter()
    ensures ALL_MOVES == Iter()
  {
    AllMovesBytes();
    IterBytes();
  }

  /// Every move is in `ALL_MOVES`.
  lemma AllMovesComplete(m: Move)
    ensures m in ALL_MOVES
  {
    AllMovesBytes();
    var x := m as int;
    assert x in {8, 16, 24, 9, 17, 25, 10, 18, 26, 12, 20, 28, 13, 21, 29, 14, 22, 30};
  }

  /// `ALL_MOVES` lists each move once.
  lemma AllMovesDistinct()
    ensures forall i, j :: 0 <= i < j < 18 ==> ALL_MOVES[i] != ALL_MOVES[j]
  {
    AllMovesBytes();
  }

  /// The inverse of the inverse is the move itself.
  lemma InverseInvolution(m: Move)
    ensures m.Inverse().Inverse() == m
  {
    var i := m.Inverse();
    InverseAccessors(m);
    InverseAccessors(i);
    ReversedInvolution(m.Amount());
    MoveEncoding(i.Inverse(), m);
  }

  /// Only half turns are their own inverse.
  lemma InverseFixesHalfTurns(m: Move)
    ensures m.Amount() == Double ==> m.Inverse() == m
    ensures m.Amount() != Double ==> m.Inverse() != m
  {
    var i := m.Inverse();
    InverseAccessors(m);
    ReversedInvolution(m.Amount());
    MoveEncoding(i, m);
  }

  /// The inverse turns the same face by the reversed amount.
  lemma InverseAccessors(m: Move)
    ensures m.Inverse().Face() == m.Face()
    ensures m.Inverse().Amount() == m.Amount().Reversed()
  {
    NewMoveAccessors(m.Face(), m.Amount().Reversed());
  }

  /// The inverse of a quarter turn turns the other way about the same axis.
  lemma InverseTurnsBack(m: Move)
    requires m.Amount() != Double
    ensures m.Inverse().Face() == m.Face() && m.Inverse().Amount() == m.Amount().Reversed()
    ensures m.Inverse().ClockwiseAboutAxis() == !m.ClockwiseAboutAxis()
  {
    InverseAccessors(m);
    ReversedInvolution(m.Amount());
  }
}
