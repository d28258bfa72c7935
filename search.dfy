/// Search results and the Manhattan heuristic of
/// `norcina-cube3/src/search/mod.rs`.  A solution is the list of cubes a
/// search passes through; the moves are recovered by trying every move
/// between consecutive cubes.
module Search {
  import opened Wrappers
  import opened Types
  import opened Faces
  import opened CubeMoves
  import CubeCorners
  import CubeEdges
  import opened Cube3

  // ---- Connecting moves ----

  /// `Iterator::find` over a list: the first element of `xs[k..]` that
  /// satisfies `p`.
  function Find<T>(xs: seq<T>, p: T -> bool, k: nat): (r: Option<T>)
    requires k <= |xs|
    ensures r.Some? ==> r.value in xs[k..] && p(r.value)
    decreases |xs| - k
  {
    if k == |xs| then None
    else if p(xs[k]) then Some(xs[k])
    else Find(xs, p, k + 1)
  }

  /// `find` returns nothing exactly when no element satisfies `p`, and
  /// otherwise the first element that does.
  lemma {:induction false} FindFirst<T>(xs: seq<T>, p: T -> bool, k: nat)
    requires k <= |xs|
    ensures Find(xs, p, k).None? <==> forall i :: k <= i < |xs| ==> !p(xs[i])
    ensures Find(xs, p, k).Some? ==>
      exists i :: k <= i < |xs| && xs[i] == Find(xs, p, k).value && forall j :: k <= j < i ==> !p(xs[j])
    decreases |xs| - k
  {
    if k < |xs| && !p(xs[k]) {
      FindFirst(xs, p, k + 1);
    }
  }

  /// Whether `mov` takes `start` to `end`.
  predicate Connects(start: Cube, end: Cube, mov: Move)
    requires start.Valid()
  {
    MovSingle(start, mov) == end
  }

  /// `connect`: the first move in `Move::iter` order that takes `start` to
  /// `end`, if there is one.
  function Connect(start: Cube, end: Cube): (r: Option<Move>)
    requires start.Valid()
    ensures r.Some? ==> MovSingle(start, r.value) == end
  {
    Find(Iter(), m => Connects(start, end, m), 0)
  }

  /// `connect` finds a move exactly when some move connects the cubes, and
  /// then the first one in `Move::iter` order.
  lemma ConnectFirst(start: Cube, end: Cube)
    requires start.Valid()
    ensures Connect(start, end).None? <==> forall m :: MovSingle(start, m) != end
    ensures Connect(start, end).Some? ==>
      exists i :: 0 <= i < 18 && Iter()[i] == Connect(start, end).value
        && forall j :: 0 <= j < i ==> MovSingle(start, Iter()[j]) != end
  {
    var p := m => Connects(start, end, m);
    FindFirst(Iter(), p, 0);
    if Connect(start, end).None? {
      forall m ensures MovSingle(start, m) != end {
        AllMovesIter();
        AllMovesComplete(m);
        var i :| 0 <= i < 18 && Iter()[i] == m;
        assert !p(Iter()[i]);
      }
    }
  }

  // ---- Solutions ----

  /// Every cube of a solution has the array lengths of the source.
  predicate AllValid(states: seq<Cube>) {
    forall i :: 0 <= i < |states| ==> states[i].Valid()
  }

  /// `windows(2)`: each cube paired with the next.
  function Windows(states: seq<Cube>): (ps: seq<(Cube, Cube)>)
    ensures |states| > 0 ==> |ps| == |states| - 1
    ensures |states| == 0 ==> ps == []
    ensures forall i :: 0 <= i < |ps| ==> ps[i] == (states[i], states[i + 1])
  {
    if |states| == 0 then []
    else seq(|states| - 1, i requires 0 <= i < |states| - 1 => (states[i], states[i + 1]))
  }

  /// Joining two solutions that meet at a cube joins their windows.
  lemma JoinedWindows(a: seq<Cube>, b: seq<Cube>)
    requires |a| > 0 && |b| > 0 && a[|a| - 1] == b[0]
    ensures Windows(a + b[1..]) == Windows(a) + Windows(b)
  {
    var c := a + b[1..];
    forall i | 0 <= i < |c| - 1 ensures Windows(c)[i] == (Windows(a) + Windows(b))[i] {
      if i < |a| - 1 {
        assert c[i] == a[i] && c[i + 1] == a[i + 1];
      } else {
        assert c[i] == b[i - |a| + 1] && c[i + 1] == b[i - |a| + 2];
      }
    }
  }

  /// `Iterator::map` over a list, for a function that may have a
  /// precondition.
  function Map<A, B>(f: A --> B, xs: seq<A>): (ys: seq<B>)
    requires forall i :: 0 <= i < |xs| ==> f.requires(xs[i])
    ensures |ys| == |xs| && forall i :: 0 <= i < |xs| ==> ys[i] == f(xs[i])
  {
    seq(|xs|, i requires 0 <= i < |xs| => f(xs[i]))
  }

  /// Mapping a concatenation concatenates the maps.
  lemma MapJoin<A, B>(f: A --> B, v: seq<A>, w: seq<A>)
    requires forall i :: 0 <= i < |v| ==> f.requires(v[i])
    requires forall i :: 0 <= i < |w| ==> f.requires(w[i])
    ensures forall i :: 0 <= i < |v + w| ==> f.requires((v + w)[i])
    ensures Map(f, v + w) == Map(f, v) + Map(f, w)
  {
    var u := v + w;
    forall i | 0 <= i < |u| ensures f.requires(u[i]) {
      if i < |v| { assert u[i] == v[i]; } else { assert u[i] == w[i - |v|]; }
    }
    forall i | 0 <= i < |u| ensures Map(f, u)[i] == (Map(f, v) + Map(f, w))[i] {
      if i < |v| { assert u[i] == v[i]; } else { assert u[i] == w[i - |v|]; }
    }
  }

  /// Whether the first cube of a window has the source's array lengths and
  /// some move takes it to the second, so that `unwrap` does not panic.
  predicate Linkable(w: (Cube, Cube)) {
    w.0.Valid() && Connect(w.0, w.1).Some?
  }

  /// The closure of `moves`: the connecting move of a window, unwrapped.
  function ConnectWindow(w: (Cube, Cube)): (m: Move)
    requires Linkable(w)
    ensures MovSingle(w.0, m) == w.1
  {
    Connect(w.0, w.1).value
  }

  /// Every window of the solution can be unwrapped.
  predicate Linked(ws: seq<(Cube, Cube)>) {
    forall i :: 0 <= i < |ws| ==> Linkable(ws[i])
  }

  /// The connecting moves of all windows.
  function ConnectAll(ws: seq<(Cube, Cube)>): (ms: seq<Move>)
    requires Linked(ws)
    ensures |ms| == |ws|
    ensures forall i :: 0 <= i < |ws| ==> MovSingle(ws[i].0, ms[i]) == ws[i].1
  {
    Map(ConnectWindow, ws)
  }

  /// The connecting moves of joined windows are joined.
  lemma ConnectAllJoin(v: seq<(Cube, Cube)>, w: seq<(Cube, Cube)>)
    requires Linked(v) && Linked(w)
    ensures Linked(v + w) && ConnectAll(v + w) == ConnectAll(v) + ConnectAll(w)
  {
    MapJoin(ConnectWindow, v, w);
  }

  /// `moves`: one move per window of two consecutive cubes.
  function Moves(states: seq<Cube>): (ms: seq<Move>)
    requires Linked(Windows(states))
    ensures |states| > 0 ==> |ms| == |states| - 1
  {
    ConnectAll(Windows(states))
  }

  /// Replaying the recovered moves from the first cube reaches the last.
  lemma MovesReplay(states: seq<Cube>)
    requires Linked(Windows(states)) && |states| > 0 && states[0].Valid()
    ensures Apply(states[0], Moves(states)) == states[|states| - 1]
  {
    var ws, ms := Windows(states), Moves(states);
    forall i | 0 <= i < |ms| ensures states[i].Valid() && MovSingle(states[i], ms[i]) == states[i + 1] {
      var w := ws[i];
      assert w == (states[i], states[i + 1]) && Linkable(w);
      assert MovSingle(w.0, ms[i]) == w.1;
    }
    Replay(states, ms);
  }

  /// A chain of cubes, each one move after the one before, is replayed by
  /// its moves.
  lemma {:induction false} Replay(states: seq<Cube>, ms: seq<Move>)
    requires |states| == |ms| + 1 && states[0].Valid()
    requires forall i :: 0 <= i < |ms| ==> states[i].Valid() && MovSingle(states[i], ms[i]) == states[i + 1]
    ensures Apply(states[0], ms) == states[|states| - 1]
    decreases |ms|
  {
    if ms != [] {
      assert Apply(states[0], ms) == Apply(states[1], ms[1..]);
      Replay(states[1..], ms[1..]);
    }
  }

  /// The moves of two joined solutions are the moves of the first followed
  /// by the moves of the second.
  lemma JoinedMoves(a: seq<Cube>, b: seq<Cube>)
    requires Linked(Windows(a)) && Linked(Windows(b))
    requires |a| > 0 && |b| > 0 && a[|a| - 1] == b[0]
    ensures Linked(Windows(a + b[1..]))
    ensures Moves(a + b[1..]) == Moves(a) + Moves(b)
  {
    JoinedWindows(a, b);
    ConnectAllJoin(Windows(a), Windows(b));
  }

  /// `SearchSolution`: the cubes a search passed through, first to last.
  class SearchSolution {
    var states: seq<Cube>

    constructor (states: seq<Cube>)
      ensures this.states == states
    {
      this.states := states;
    }

    /// `final_state`: the last cube; `unwrap` panics on an empty solution.
    function FinalState(): (c: Cube)
      reads this
      requires |states| > 0
      ensures c in states
    {
      states[|states| - 1]
    }

    /// `concat`: `other` must start where this solution ends
    /// (`assert_eq!`); its cubes after the first are appended in place.
    method Concat(other: SearchSolution)
      requires |states| > 0 && |other.states| > 0
      requires FinalState() == other.states[0]
      modifies this
      ensures states == old(states) + old(other.states)[1..]
      ensures |states| == |old(states)| + |old(other.states)| - 1
      ensures FinalState() == old(other.FinalState())
    {
      states := states + other.states[1..];
    }
  }

  // ---- Manhattan distance ----

  /// The turn distances of the corners in slots `0 .. n - 1` from their
  /// home slots.
  function CornerDistances(corners: seq<CubeCorners.Corner>, n: nat): (d: nat)
    requires n <= |corners| == 8
    ensures d <= 2 * n
  {
    if n == 0 then 0
    else
      var p := (n - 1) as CubeCorners.CornerPosition;
      CubeCorners.TurnDistanceCoordinates(p, corners[n - 1].Position());
      CornerDistances(corners, n - 1) + p.TurnDistance(corners[n - 1].Position())
  }

  /// The turn distances of the edges in slots `0 .. n - 1` from their home
  /// slots.
  function EdgeDistances(edges: seq<CubeEdges.Edge>, n: nat): (d: nat)
    requires n <= |edges| == 12
    ensures d <= 2 * n
  {
    if n == 0 then 0
    else
      var p := (n - 1) as CubeEdges.EdgePosition;
      EdgeDistances(edges, n - 1) + p.TurnDistance(edges[n - 1].Position())
  }

  /// `manhattan_distance`: the corner sum plus the edge sum.  Each term is
  /// at most 2, so the `u8` sums cannot overflow.
  function ManhattanDistance(cube: Cube): (d: nat)
    requires cube.Valid()
    ensures d <= 40
  {
    CornerDistances(cube.corners, 8) + EdgeDistances(cube.edges, 12)
  }

  /// An edge is 0 turns from a slot only in that slot.
  lemma EdgeDistanceZero(p: CubeEdges.EdgePosition, q: CubeEdges.EdgePosition)
    ensures p.TurnDistance(q) == 0 <==> p == q
  {
    var fs, gs := p.Faces(), q.Faces();
    assert fs[0].Axis() == p.Normal().Next() && fs[1].Axis() == p.Normal().Prev();
    assert gs[0].Axis() == q.Normal().Next() && gs[1].Axis() == q.Normal().Prev();
    if p.TurnDistance(q) == 0 {
      assert fs[0] == gs[0] && fs[1] == gs[1];
      assert p.Normal() == q.Normal();
      CubeEdges.SlotFields(p);
      CubeEdges.SlotFields(q);
    }
  }

  /// The corners in slots `0 .. n - 1` are in their home slots.
  predicate CornersHome(corners: seq<CubeCorners.Corner>, n: nat)
    requires n <= |corners|
  {
    forall k :: 0 <= k < n ==> corners[k].Position() as int == k
  }

  /// The edges in slots `0 .. n - 1` are in their home slots.
  predicate EdgesHome(edges: seq<CubeEdges.Edge>, n: nat)
    requires n <= |edges|
  {
    forall k :: 0 <= k < n ==> edges[k].Position() as int == k
  }

  /// The corner sum is 0 exactly when every corner in slots `0 .. n - 1`
  /// is at home.
  lemma {:induction false} CornerDistancesZero(corners: seq<CubeCorners.Corner>, n: nat)
    requires n <= |corners| == 8
    ensures CornerDistances(corners, n) == 0 <==> CornersHome(corners, n)
  {
    if n > 0 {
      CornerDistancesZero(corners, n - 1);
      var p, q := (n - 1) as CubeCorners.CornerPosition, corners[n - 1].Position();
      assert CornerDistances(corners, n) == CornerDistances(corners, n - 1) + p.TurnDistance(q);
      CubeCorners.TurnDistanceCoordinates(p, q);
      assert CornersHome(corners, n) <==> CornersHome(corners, n - 1) && q as int == n - 1;
    }
  }

  /// The edge sum is 0 exactly when every edge in slots `0 .. n - 1` is at
  /// home.
  lemma {:induction false} EdgeDistancesZero(edges: seq<CubeEdges.Edge>, n: nat)
    requires n <= |edges| == 12
    ensures EdgeDistances(edges, n) == 0 <==> EdgesHome(edges, n)
  {
    if n > 0 {
      EdgeDistancesZero(edges, n - 1);
      var p, q := (n - 1) as CubeEdges.EdgePosition, edges[n - 1].Position();
      assert EdgeDistances(edges, n) == EdgeDistances(edges, n - 1) + p.TurnDistance(q);
      EdgeDistanceZero(p, q);
      assert EdgesHome(edges, n) <==> EdgesHome(edges, n - 1) && q as int == n - 1;
    }
  }

  /// The heuristic is 0 exactly when every piece sits in its home slot,
  /// whatever its orientation.
  lemma ManhattanZero(cube: Cube)
    requires cube.Valid()
    ensures ManhattanDistance(cube) == 0 <==> CornersHome(cube.corners, 8) && EdgesHome(cube.edges, 12)
  {
    CornerDistancesZero(cube.corners, 8);
    EdgeDistancesZero(cube.edges, 12);
  }

  /// The solved cube is 0 turns from solved.
  lemma ManhattanSolved()
    ensures SOLVED.Valid() && ManhattanDistance(SOLVED) == 0
  {
    SolvedAtHome(SOLVED);
    ManhattanZero(SOLVED);
  }

  /// Every piece of the solved cube is in its home slot.
  lemma SolvedAtHome(cube: Cube)
    requires cube == SOLVED
    ensures cube.Valid() && CornersHome(cube.corners, 8) && EdgesHome(cube.edges, 12)
  {
    forall k | 0 <= k < 8 ensures cube.corners[k].Position() as int == k {
      assert cube.corners[k] as int == k;
    }
    forall k | 0 <= k < 12 ensures cube.edges[k].Position() as int == k {
      assert cube.edges[k] as int == k;
    }
  }
}
