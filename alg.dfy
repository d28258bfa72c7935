/// Move sequences of `norcina-core/src/alg.rs`.  An `Alg` owns a vector of
/// moves of any puzzle; reversing it undoes it, given the puzzle's
/// `InvertibleMove::inverse`, which is passed in here as a function.
module Algs {
  import opened CubeMoves
  import Cube3

  /// The moves undoing `ms`: the inverses, last move first.
  function ReversedMoves<M>(ms: seq<M>, inverse: M -> M): (r: seq<M>)
    ensures |r| == |ms|
  {
    if ms == [] then [] else ReversedMoves(ms[1..], inverse) + [inverse(ms[0])]
  }

  /// Entry `i` of the reversed moves is the inverse of entry `n - 1 - i`.
  lemma {:induction false} ReversedAt<M>(ms: seq<M>, inverse: M -> M)
    ensures forall i :: 0 <= i < |ms| ==> ReversedMoves(ms, inverse)[i] == inverse(ms[|ms| - 1 - i])
  {
    if ms != [] {
      ReversedAt(ms[1..], inverse);
    }
  }

  /// Reversing a concatenation reverses the parts and swaps them.
  lemma {:induction false} ReversedJoin<M>(a: seq<M>, b: seq<M>, inverse: M -> M)
    ensures ReversedMoves(a + b, inverse) == ReversedMoves(b, inverse) + ReversedMoves(a, inverse)
  {
    if a == [] {
      assert a + b == b;
    } else {
      assert (a + b)[1..] == a[1..] + b;
      ReversedJoin(a[1..], b, inverse);
    }
  }

  /// Reversing twice gives the moves back when `inverse` is an involution.
  lemma {:induction false} ReversedTwice<M>(ms: seq<M>, inverse: M -> M)
    requires forall m :: inverse(inverse(m)) == m
    ensures ReversedMoves(ReversedMoves(ms, inverse), inverse) == ms
  {
    if ms != [] {
      ReversedJoin(ReversedMoves(ms[1..], inverse), [inverse(ms[0])], inverse);
      ReversedTwice(ms[1..], inverse);
      assert ReversedMoves([inverse(ms[0])], inverse) == [ms[0]];
      assert [ms[0]] + ms[1..] == ms;
    }
  }

  /// The strings of `ss` separated by single spaces: what `Display` writes.
  function Join(ss: seq<string>): (s: string)
  {
    if |ss| == 0 then ""
    else if |ss| == 1 then ss[0]
    else Join(ss[..|ss| - 1]) + " " + ss[|ss| - 1]
  }

  /// The total length of the strings of `ss`.
  function TotalLength(ss: seq<string>): nat {
    if ss == [] then 0 else TotalLength(ss[..|ss| - 1]) + |ss[|ss| - 1]|
  }

  /// One separator between each two neighbours and none elsewhere.
  lemma {:induction false} JoinLength(ss: seq<string>)
    ensures |ss| > 0 ==> |Join(ss)| == TotalLength(ss) + |ss| - 1
    ensures |ss| == 0 ==> Join(ss) == ""
  {
    if |ss| > 1 {
      JoinLength(ss[..|ss| - 1]);
    }
  }

  /// Joining two non-empty lists puts one space between their joins.
  lemma {:induction false} JoinAppend(a: seq<string>, b: seq<string>)
    requires |a| > 0 && |b| > 0
    ensures Join(a + b) == Join(a) + " " + Join(b)
    decreases |b|
  {
    var c := a + b;
    assert c[..|c| - 1] == a + b[..|b| - 1];
    if |b| == 1 {
      assert c[..|c| - 1] == a;
    } else {
      JoinAppend(a, b[..|b| - 1]);
    }
  }

  /// The display strings of the moves, in order.
  function Shown<M>(ms: seq<M>, show: M -> string): (ss: seq<string>)
    ensures |ss| == |ms| && forall i :: 0 <= i < |ms| ==> ss[i] == show(ms[i])
  {
    seq(|ms|, i requires 0 <= i < |ms| => show(ms[i]))
  }

  /// `Alg`: a list of moves, changed in place by `reverse`.
  class Alg<M> {
    var moves: seq<M>

    constructor (moves: seq<M>)
      ensures this.moves == moves
    {
      this.moves := moves;
    }

    /// `reverse`: `Vec::reverse` (swapping from both ends towards the
    /// middle), then every move replaced by its inverse.
    method Reverse(inverse: M -> M)
      modifies this
      ensures moves == ReversedMoves(old(moves), inverse)
    {
      ghost var original := moves;
      var n := |moves|;
      var i := 0;
      while i < n / 2
        invariant 0 <= i <= n / 2 && |moves| == n
        invariant forall k :: 0 <= k < i ==> moves[k] == original[n - 1 - k] && moves[n - 1 - k] == original[k]
        invariant forall k :: i <= k < n - i ==> moves[k] == original[k]
      {
        var tmp := moves[i];
        moves := moves[i := moves[n - 1 - i]][n - 1 - i := tmp];
        i := i + 1;
      }
      var j := 0;
      while j < n
        invariant 0 <= j <= n && |moves| == n
        invariant forall k :: 0 <= k < j ==> moves[k] == inverse(original[n - 1 - k])
        invariant forall k :: j <= k < n ==> moves[k] == original[n - 1 - k]
      {
        moves := moves[j := inverse(moves[j])];
        j := j + 1;
      }
      ReversedAt(original, inverse);
    }

    /// `reversed`: reverse in place and hand the same `Alg` back.
    method Reversed(inverse: M -> M) returns (r: Alg<M>)
      modifies this
      ensures r == this && r.moves == ReversedMoves(old(moves), inverse)
    {
      Reverse(inverse);
      r := this;
    }

    /// `Display`: each move written with `show`, with one space before
    /// every move but the first.
    method Display(show: M -> string) returns (s: string)
      ensures s == Join(Shown(moves, show))
    {
      var ss := Shown(moves, show);
      s := "";
      var i := 0;
      while i < |moves|
        invariant 0 <= i <= |moves|
        invariant s == Join(ss[..i])
      {
        if i > 0 {
          s := s + " ";
        }
        assert ss[..i + 1][..i] == ss[..i];
        s := s + show(moves[i]);
        i := i + 1;
      }
      assert ss[..|moves|] == ss;
    }
  }

  /// The inverse of a cube move, as a function value.
  function CubeInverse(m: Move): (r: Move)
    ensures r.Face() == m.Face() && r.Amount() == m.Amount().Reversed()
  {
    InverseAccessors(m);
    m.Inverse()
  }

  /// For cube moves the inverse is an involution, so reversing a cube
  /// algorithm twice gives it back.
  lemma CubeReversedTwice(ms: seq<Move>)
    ensures ReversedMoves(ReversedMoves(ms, CubeInverse), CubeInverse) == ms
  {
    forall m ensures CubeInverse(CubeInverse(m)) == m {
      InverseInvolution(m);
    }
    ReversedTwice(ms, CubeInverse);
  }

  /// The reversed algorithm undoes the algorithm on any cube.
  lemma {:induction false} CubeReversedUndoes(cube: Cube3.Cube, ms: seq<Move>)
    requires cube.Valid()
    ensures Cube3.Apply(Cube3.Apply(cube, ms), ReversedMoves(ms, CubeInverse)) == cube
    decreases |ms|
  {
    if ms != [] {
      var c1 := Cube3.MovSingle(cube, ms[0]);
      var rest := ReversedMoves(ms[1..], CubeInverse);
      Cube3.ApplyConcat(Cube3.Apply(cube, ms), rest, [CubeInverse(ms[0])]);
      CubeReversedUndoes(c1, ms[1..]);
      Cube3.ApplyShort(c1, CubeInverse(ms[0]));
      Cube3.MoveThenInverse(cube, ms[0]);
    }
  }
}
