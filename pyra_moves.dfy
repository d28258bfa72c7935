/// Pyraminx moves (`norcina-pyraminx/src/mov.rs`): a turn of one vertex by a
/// third of a revolution either way, of the whole layer (`CoreMove`) or of
/// the tip only.  `CoreMove` packs `-----avv`, `Move` packs `----tavv`.
module PyraMoves {
  import opened PyraPieces

  /// Clockwise (`Single`, 0) or counter-clockwise (`Reverse`, 1).
  datatype Amount = Single | Reverse {
    function U8(): (r: nat)
      ensures r < 2
      ensures r == 0 <==> Single?
    {
      if Single? then 0 else 1
    }
  }

  /// `from_u8`: the source asserts `data < 2`.
  function AmountFromU8(data: nat): (a: Amount)
    requires data < 2
    ensures a.U8() == data
  {
    if data == 0 then Single else Reverse
  }

  /// `from_u8_mod2`: keeps bit 0.
  function AmountFromU8Mod2(data: nat): (a: Amount)
    ensures a.U8() == data % 2
  {
    AmountFromU8(data % 2)
  }

  /// `CoreMove`: the vertex in bits 0-1, the amount in bit 2.
  newtype CoreMove = x: int | 0 <= x < 8 {
    function U8(): nat {
      this as nat
    }

    /// `vertex`: `from_u8_mod4(data & 0b011)`.
    function Vertex(): Vertex {
      VertexFromU8Mod4(U8() % 4)
    }

    /// `amount`: `from_u8_mod2(data >> 2)`.
    function Amount(): Amount {
      AmountFromU8Mod2(U8() / 4)
    }
  }

  /// `CoreMove::new`.
  function NewCoreMove(vertex: Vertex, amount: Amount): (m: CoreMove)
    ensures m.Vertex() == vertex && m.Amount() == amount
  {
    (vertex.U8() + amount.U8() * 4) as CoreMove
  }

  /// A core move is determined by its vertex and amount.
  lemma CoreMoveFields(m: CoreMove)
    ensures NewCoreMove(m.Vertex(), m.Amount()) == m
  {
    var x := m.U8();
    assert m.Vertex().U8() == x % 4 && m.Amount().U8() == (x / 4) % 2;
    assert x < 8 && x == x % 4 + (x / 4) % 2 * 4;
  }

  /// `CoreMove::ALL`.
  const ALL_CORE_MOVES: seq<CoreMove> := [
    NewCoreMove(R, Single), NewCoreMove(U, Single), NewCoreMove(L, Single), NewCoreMove(B, Single),
    NewCoreMove(R, Reverse), NewCoreMove(U, Reverse), NewCoreMove(L, Reverse), NewCoreMove(B, Reverse)
  ]

  /// `ALL` lists the eight core moves, each once: every vertex with both
  /// amounts.
  lemma AllCoreMoves(m: CoreMove)
    ensures |ALL_CORE_MOVES| == 8 && m in ALL_CORE_MOVES
    ensures forall i, j :: 0 <= i < j < 8 ==> ALL_CORE_MOVES[i] != ALL_CORE_MOVES[j]
  {
    assert ALL_CORE_MOVES == [3, 0, 1, 2, 7, 4, 5, 6];
  }

  /// The move turning back what `m` turns: the same vertex, the other way.
  function CoreInverse(m: CoreMove): (r: CoreMove)
    ensures r.Vertex() == m.Vertex() && r.Amount() != m.Amount()
  {
    NewCoreMove(m.Vertex(), if m.Amount() == Single then Reverse else Single)
  }

  /// `Move`: a core move in bits 0-2 and the tip flag in bit 3.
  newtype Move = x: int | 0 <= x < 16 {
    function U8(): nat {
      this as nat
    }

    /// `is_tip_move`: `data & 0b1000 != 0`.
    function IsTipMove(): bool {
      U8() / 8 == 1
    }

    /// `core`: `data & 0b0111`.
    function Core(): CoreMove {
      (U8() % 8) as CoreMove
    }

    /// `toggle_tip`: `data ^ 0b1000`.
    function ToggleTip(): Move {
      if IsTipMove() then (U8() - 8) as Move else (U8() + 8) as Move
    }

    /// `Display`: the vertex letter, upper case for a core move and lower
    /// case for a tip move, then ' ' for Single or '\'' for Reverse.
    function Display(): (s: string)
      ensures |s| == 2 && s[0] == VertexLetter(Core().Vertex(), IsTipMove())
      ensures s[1] == ' ' <==> Core().Amount() == Single
      ensures s[1] == '\'' <==> Core().Amount() == Reverse
    {
      [VertexLetter(Core().Vertex(), IsTipMove())] + if Core().Amount() == Single then " " else "'"
    }
  }

  /// `Move::new`.
  function NewMove(vertex: Vertex, amount: Amount, tip: bool): (m: Move)
    ensures m.IsTipMove() == tip && m.Core() == NewCoreMove(vertex, amount)
  {
    (vertex.U8() + amount.U8() * 4 + (if tip then 8 else 0)) as Move
  }

  /// A move is determined by its core move and its tip flag.
  lemma MoveFields(m: Move, n: Move)
    ensures m.Core() == n.Core() && m.IsTipMove() == n.IsTipMove() ==> m == n
    ensures NewMove(m.Core().Vertex(), m.Core().Amount(), m.IsTipMove()) == m
  {
  }

  /// The letter of a vertex, lower case for a tip move.
  function VertexLetter(v: Vertex, tip: bool): (c: char)
    ensures c in "ULBRulbr" && ('a' <= c <= 'z' <==> tip)
  {
    var main := if v == U then 'U' else if v == L then 'L' else if v == B then 'B' else 'R';
    if tip then main - 'A' + 'a' else main
  }

  /// The letter gives back the vertex and the tip flag.
  lemma VertexLetterInjective(v: Vertex, tip: bool, w: Vertex, tip': bool)
    ensures VertexLetter(v, tip) == VertexLetter(w, tip') ==> v == w && tip == tip'
  {
  }

  /// Different moves are written differently: the text gives back the
  /// vertex, the amount and the tip flag.
  lemma DisplayInjective(m: Move, n: Move)
    ensures m.Display() == n.Display() ==> m == n
  {
    if m.Display() == n.Display() {
      assert m.Display()[0] == n.Display()[0] && m.Display()[1] == n.Display()[1];
      VertexLetterInjective(m.Core().Vertex(), m.IsTipMove(), n.Core().Vertex(), n.IsTipMove());
      CoreMoveFields(m.Core());
      CoreMoveFields(n.Core());
      MoveFields(m, n);
    }
  }

  /// Toggling the tip flag flips it, keeps the core move, and undoes itself.
  lemma ToggleTipInvolution(m: Move)
    ensures m.ToggleTip().IsTipMove() == !m.IsTipMove()
    ensures m.ToggleTip().Core() == m.Core()
    ensures m.ToggleTip().ToggleTip() == m
  {
  }
}
