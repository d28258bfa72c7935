/// The whole Pyraminx (`norcina-pyraminx/src/lib.rs`): the core (centres and
/// edges) and the tips, turned one move at a time.
module Pyraminx {
  import opened PyraPieces
  import opened PyraMoves
  import PyraEdges
  import PyraEdgeMoves
  import PyraCenters
  import PyraTips

  /// `CorePyraminx`: the puzzle without its tips; `edges` is the array of
  /// six edges, indexed by slot.
  datatype CorePyraminx = CorePyraminx(centers: PyraCenters.Centers, edges: seq<PyraEdges.Edge>)

  /// `CorePyraminx::SOLVED`.
  const CORE_SOLVED: CorePyraminx := CorePyraminx(PyraCenters.CENTERS_SOLVED, PyraEdges.SOLVED_EDGES)

  /// A reachable core: six edges, each position held once, and every centre
  /// orientation below 3.
  predicate CoreValid(p: CorePyraminx) {
    PyraEdgeMoves.EachPositionOnce(p.edges) && PyraCenters.Valid(p.centers)
  }

  /// `CorePyraminx::mov`: the centres and the edges turn independently.
  function CoreMov(p: CorePyraminx, m: CoreMove): (r: CorePyraminx)
    requires |p.edges| == 6
    ensures r.centers == PyraCenters.Mov(p.centers, m)
    ensures r.edges == PyraEdgeMoves.Moved(p.edges, m)
  {
    CorePyraminx(PyraCenters.Mov(p.centers, m), PyraEdgeMoves.Moved(p.edges, m))
  }

  lemma CoreSolvedValid()
    ensures CoreValid(CORE_SOLVED)
  {
    PyraEdgeMoves.SolvedEachPositionOnce();
    PyraCenters.SolvedFields(U);
  }

  /// A turn keeps the core reachable.
  lemma CoreMovKeepsValid(p: CorePyraminx, m: CoreMove)
    requires CoreValid(p)
    ensures CoreValid(CoreMov(p, m))
  {
    PyraEdgeMoves.MovedKeepsEachPositionOnce(p.edges, m);
    PyraCenters.MovRotatesOneCentre(p.centers, m, U);
  }

  /// A core turn followed by the opposite turn restores the core.
  lemma CoreMovThenInverse(p: CorePyraminx, m: CoreMove)
    requires CoreValid(p)
    ensures CoreMov(CoreMov(p, m), CoreInverse(m)) == p
  {
    PyraEdgeMoves.MovedThenInverse(p.edges, m);
    PyraCenters.MovThenInverse(p.centers, m);
  }

  /// Three identical core turns restore the core.
  lemma CoreMovThrice(p: CorePyraminx, m: CoreMove)
    requires CoreValid(p)
    ensures CoreMov(CoreMov(CoreMov(p, m), m), m) == p
  {
    PyraEdgeMoves.MovedThrice(p.edges, m);
    PyraCenters.MovThrice(p.centers, m);
  }

  /// `Pyraminx`: the core and the tips.
  datatype Pyraminx = Pyraminx(core: CorePyraminx, tips: PyraTips.Tips)

  /// `Pyraminx::SOLVED`.
  const SOLVED: Pyraminx := Pyraminx(CORE_SOLVED, PyraTips.TIPS_SOLVED)

  predicate Valid(p: Pyraminx) {
    CoreValid(p.core) && PyraCenters.Valid(p.tips.AsCenters())
  }

  /// `mov_single`: a tip move turns only the tip; a layer move turns the
  /// core and the tip of the same vertex.
  function MovSingle(p: Pyraminx, m: Move): (r: Pyraminx)
    requires |p.core.edges| == 6
    ensures r.tips == p.tips.Mov(m.Core())
    ensures m.IsTipMove() ==> r.core == p.core
    ensures !m.IsTipMove() ==> r.core == CoreMov(p.core, m.Core())
    ensures |r.core.edges| == 6
  {
    if m.IsTipMove() then
      p.(tips := p.tips.Mov(m.Core()))
    else
      Pyraminx(CoreMov(p.core, m.Core()), p.tips.Mov(m.Core()))
  }

  /// The move that undoes `m`: the same vertex and kind, the other way.
  function Inverse(m: Move): (r: Move)
    ensures r.Core() == CoreInverse(m.Core()) && r.IsTipMove() == m.IsTipMove()
  {
    NewMove(m.Core().Vertex(), if m.Core().Amount() == Single then Reverse else Single, m.IsTipMove())
  }

  /// A move keeps the puzzle reachable.
  lemma MovSingleKeepsValid(p: Pyraminx, m: Move)
    requires Valid(p)
    ensures Valid(MovSingle(p, m))
  {
    PyraTips.TipsMovRotatesOneTip(p.tips, m.Core(), U);
    if !m.IsTipMove() {
      CoreMovKeepsValid(p.core, m.Core());
    }
  }

  /// A move followed by its inverse restores the puzzle.
  lemma MovSingleThenInverse(p: Pyraminx, m: Move)
    requires Valid(p)
    ensures MovSingle(MovSingle(p, m), Inverse(m)) == p
  {
    PyraTips.TipsMovThenInverse(p.tips, m.Core());
    if !m.IsTipMove() {
      CoreMovThenInverse(p.core, m.Core());
    }
  }

  /// A move done three times restores the puzzle.
  lemma MovSingleThrice(p: Pyraminx, m: Move)
    requires Valid(p)
    ensures MovSingle(MovSingle(MovSingle(p, m), m), m) == p
  {
    var t := p.tips.centers;
    PyraCenters.MovThrice(t, m.Core());
    if !m.IsTipMove() {
      CoreMovThrice(p.core, m.Core());
    }
  }

  /// `mov_single` as the source composes it: the tips and the core centres
  /// turn by `Centers::mov` as written (see `PyraCenters.MovAsWritten`).
  /// The edges turn as in `MovSingle`, every other centre is kept, and for
  /// a move about R, whose field is the top one, it is `MovSingle`.
  function MovSingleAsWritten(p: Pyraminx, m: Move): (r: Pyraminx)
    requires |p.core.edges| == 6
    ensures |r.core.edges| == 6 && r.core.edges == MovSingle(p, m).core.edges
    ensures forall w: Vertex :: w != m.Core().Vertex() ==>
      PyraCenters.Field(r.tips.centers, w) == PyraCenters.Field(p.tips.centers, w) &&
      PyraCenters.Field(r.core.centers, w) == PyraCenters.Field(p.core.centers, w)
    ensures m.Core().Vertex() == R ==> r == MovSingle(p, m)
  {
    var c := m.Core();
    AsWrittenFields(p.tips.centers, c);
    AsWrittenFields(p.core.centers, c);
    var tips := PyraTips.Tips(PyraCenters.MovAsWritten(p.tips.centers, c));
    if m.IsTipMove() then
      p.(tips := tips)
    else
      Pyraminx(CorePyraminx(PyraCenters.MovAsWritten(p.core.centers, c), PyraEdgeMoves.Moved(p.core.edges, c)), tips)
  }

  /// The centres as written keep every field but the turned one, and for R
  /// agree with the masked turn.
  lemma AsWrittenFields(t: PyraCenters.Centers, c: CoreMove)
    ensures forall w: Vertex :: w != c.Vertex() ==> PyraCenters.Field(PyraCenters.MovAsWritten(t, c), w) == PyraCenters.Field(t, w)
    ensures c.Vertex() == R ==> PyraCenters.MovAsWritten(t, c) == PyraCenters.Mov(t, c)
  {
    forall w: Vertex | w != c.Vertex()
      ensures PyraCenters.Field(PyraCenters.MovAsWritten(t, c), w) == PyraCenters.Field(t, w)
    {
      PyraCenters.MovAsWrittenField(t, c, w);
    }
    if c.Vertex() == R {
      PyraCenters.MovAsWrittenTopField(t, c);
    }
  }

  /// As written, the inverse law of `mov_single` fails: after B from
  /// solved, U then U' leaves the U tip and the U centre at orientation 2
  /// instead of 0.
  lemma AsWrittenNotUndone()
    ensures var p := MovSingleAsWritten(SOLVED, NewMove(B, Single, false));
      var q := MovSingleAsWritten(MovSingleAsWritten(p, NewMove(U, Single, false)), NewMove(U, Reverse, false));
      q != p && PyraCenters.Field(q.tips.centers, U) == 2 && PyraCenters.Field(q.core.centers, U) == 2
  {
    var b := NewMove(B, Single, false);
    var p := MovSingleAsWritten(SOLVED, b);
    LayerAsWritten(SOLVED, b);
    PyraCenters.MovAsWrittenFromSolved();
    UndoFrom16(p, NewMove(U, Single, false), NewMove(U, Reverse, false));
  }

  /// From centres and tips at byte 16, U then U' as written.
  lemma UndoFrom16(p: Pyraminx, u: Move, u': Move)
    requires |p.core.edges| == 6 && p.tips.centers as nat == 16 && p.core.centers as nat == 16
    requires u == NewMove(U, Single, false) && u' == NewMove(U, Reverse, false)
    ensures var q := MovSingleAsWritten(MovSingleAsWritten(p, u), u');
      PyraCenters.Field(q.tips.centers, U) == 2 && PyraCenters.Field(q.core.centers, U) == 2 &&
      PyraCenters.Field(p.tips.centers, U) == 0 && q != p
  {
    var p1 := MovSingleAsWritten(p, u);
    LayerAsWritten(p, u);
    LayerAsWritten(p1, u');
    PyraCenters.NotUndoneFrom(p.tips.centers, u.Core(), u'.Core());
    PyraCenters.NotUndoneFrom(p.core.centers, u.Core(), u'.Core());
  }

  /// A layer move as written turns the tip and the core centre alike.
  lemma LayerAsWritten(p: Pyraminx, m: Move)
    requires |p.core.edges| == 6 && !m.IsTipMove()
    ensures MovSingleAsWritten(p, m).tips.centers == PyraCenters.MovAsWritten(p.tips.centers, m.Core())
    ensures MovSingleAsWritten(p, m).core.centers == PyraCenters.MovAsWritten(p.core.centers, m.Core())
  {
  }

  /// The moves applied in order, from the first to the last.
  function Apply(p: Pyraminx, moves: seq<Move>): (r: Pyraminx)
    requires |p.core.edges| == 6
    ensures |r.core.edges| == 6
    decreases |moves|
  {
    if |moves| == 0 then p else MovSingle(Apply(p, moves[..|moves| - 1]), moves[|moves| - 1])
  }

  /// `mov`: each move in turn, in place of the running state.
  method Mov(p: Pyraminx, moves: seq<Move>) returns (r: Pyraminx)
    requires |p.core.edges| == 6
    ensures r == Apply(p, moves)
  {
    r := p;
    for i := 0 to |moves|
      invariant r == Apply(p, moves[..i])
    {
      assert moves[..i + 1][..i] == moves[..i];
      r := MovSingle(r, moves[i]);
    }
    assert moves[..|moves|] == moves;
  }

  /// Applying two move sequences one after the other is applying their
  /// concatenation.
  lemma {:induction false} ApplyConcat(p: Pyraminx, a: seq<Move>, b: seq<Move>)
    requires |p.core.edges| == 6
    ensures Apply(p, a + b) == Apply(Apply(p, a), b)
    decreases |b|
  {
    if |b| == 0 {
      assert a + b == a;
    } else {
      var b' := b[..|b| - 1];
      assert (a + b)[..|a + b| - 1] == a + b';
      ApplyConcat(p, a, b');
    }
  }

  /// Any sequence of moves keeps the puzzle reachable.
  lemma {:induction false} ApplyKeepsValid(p: Pyraminx, moves: seq<Move>)
    requires Valid(p)
    ensures Valid(Apply(p, moves))
    decreases |moves|
  {
    if |moves| > 0 {
      ApplyKeepsValid(p, moves[..|moves| - 1]);
      MovSingleKeepsValid(Apply(p, moves[..|moves| - 1]), moves[|moves| - 1]);
    }
  }

  /// The inverse of a sequence: the inverses of its moves, last first.
  function Undo(moves: seq<Move>): (r: seq<Move>)
    ensures |r| == |moves|
    ensures forall i :: 0 <= i < |moves| ==> r[i] == Inverse(moves[|moves| - 1 - i])
  {
    seq(|moves|, i requires 0 <= i < |moves| => Inverse(moves[|moves| - 1 - i]))
  }

  /// Any sequence of moves followed by its inverse restores the puzzle.
  lemma {:induction false} ApplyThenUndo(p: Pyraminx, moves: seq<Move>)
    requires Valid(p)
    ensures Apply(Apply(p, moves), Undo(moves)) == p
    decreases |moves|
  {
    if |moves| > 0 {
      var init, last := moves[..|moves| - 1], moves[|moves| - 1];
      var before := Apply(p, init);
      ApplyKeepsValid(p, init);
      assert Undo(moves) == [Inverse(last)] + Undo(init);
      ApplyConcat(Apply(p, moves), [Inverse(last)], Undo(init));
      assert Apply(Apply(p, moves), [Inverse(last)]) == MovSingle(Apply(p, moves), Inverse(last));
      MovSingleThenInverse(before, last);
      ApplyThenUndo(p, init);
    }
  }
}
