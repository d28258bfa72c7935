/// The breadth-first fill of one pruning subtable
/// (`Subtable::generate_buffer` of
/// `norcina-cube3/src/search/kociemba/prune_table.rs`).
///
/// The proof works on the ghost graph of a subtable: `g[e][k]` is the rank
/// reached from rank `e` by the `k`-th move.
module PruneFill {
  import opened Types
  import opened CubeMoves
  import Kociemba

  /// A coordinate: ranking a state into `0 .. max`, a state for each rank,
  /// the solved state, and the moves it is explored with (all eighteen in
  /// phase 1, the ten of G1 in phase 2).
  datatype Subtable<!T> = Subtable(
    index: T -> nat,
    fromIndex: nat -> T,
    max: nat,
    initial: T,
    phase1: bool,
    applyMov: (T, Move) -> T)
  {
    function Moves(): seq<Move> {
      if phase1 then ALL_MOVES else Kociemba.G1_MOVES
    }

    /// The rank reached from rank `e` by the `k`-th move.
    function Step(e: nat, k: nat): nat
      requires k < |Moves()|
    {
      index(applyMov(fromIndex(e), Moves()[k]))
    }

    /// What `generate_buffer` needs to index its buffer: the solved state
    /// and every state reached in one move from a rank have a rank below
    /// `max`.
    predicate InRange() {
      index(initial) < max &&
      forall e, k :: 0 <= e < max && 0 <= k < |Moves()| ==> Step(e, k) < max
    }

    /// The graph of ranks and moves.
    ghost function Graph(): (g: seq<seq<nat>>)
      requires InRange()
      ensures GraphOf(this, g)
    {
      seq(max, e requires 0 <= e < max => seq(|Moves()|, k requires 0 <= k < |Moves()| => Step(e, k)))
    }
  }

  /// `g` is the graph of ranks and moves of `t`.
  ghost predicate GraphOf<T>(t: Subtable<T>, g: seq<seq<nat>>)
    requires t.InRange()
  {
    |g| == t.max && IsGraph(g, |t.Moves()|) &&
    forall e, k {:trigger t.Step(e, k)} :: 0 <= e < t.max && 0 <= k < |t.Moves()| ==> g[e][k] == t.Step(e, k)
  }

  /// Every rank has `d` moves, each to a rank of the graph.
  ghost predicate IsGraph(g: seq<seq<nat>>, d: nat) {
    forall e :: 0 <= e < |g| ==> |g[e]| == d && forall k :: 0 <= k < d ==> g[e][k] < |g|
  }

  /// `u8::MAX`, the mark of a rank not reached yet.
  const UNVISITED: nat := 255

  /// How many ranks are not reached yet.
  function Unvisited(buffer: seq<nat>): (c: nat)
    ensures c <= |buffer|
  {
    if buffer == [] then 0
    else Unvisited(buffer[..|buffer| - 1]) + (if buffer[|buffer| - 1] == UNVISITED then 1 else 0)
  }

  /// A path of move numbers, each below `d`.
  predicate IsPath(d: nat, path: seq<nat>) {
    forall j :: 0 <= j < |path| ==> path[j] < d
  }

  /// The rank reached from `e` by the moves numbered in `path`.
  ghost function Walk(g: seq<seq<nat>>, d: nat, e: nat, path: seq<nat>): (r: nat)
    requires IsGraph(g, d) && e < |g| && IsPath(d, path)
    ensures r < |g|
  {
    if path == [] then e else g[Walk(g, d, e, path[..|path| - 1])][path[|path| - 1]]
  }

  /// What `generate_buffer` returns: a level for every rank, 0 for the
  /// solved rank `start` only, at most one level more after any move from a
  /// reached rank, and every other reached rank one move from a rank one
  /// level closer.
  ghost predicate BreadthFirst(g: seq<seq<nat>>, d: nat, start: nat, buffer: seq<nat>)
    requires IsGraph(g, d)
  {
    |buffer| == |g| && start < |g| &&
    buffer[start] == 0 &&
    (forall e :: 0 <= e < |g| ==> buffer[e] <= UNVISITED) &&
    (forall e :: 0 <= e < |g| && buffer[e] == 0 ==> e == start) &&
    (forall e, k :: 0 <= e < |g| && buffer[e] < UNVISITED && 0 <= k < d ==> buffer[g[e][k]] <= buffer[e] + 1) &&
    (forall e :: 0 <= e < |g| && 0 < buffer[e] < UNVISITED ==>
      exists p, k :: 0 <= p < |g| && 0 <= k < d && buffer[p] + 1 == buffer[e] && g[p][k] == e)
  }

  /// From `buffer` to `buffer'` some unreached ranks got the level `depth`
  /// and nothing else changed.
  ghost predicate Lowered(buffer: seq<nat>, buffer': seq<nat>, depth: nat) {
    |buffer'| == |buffer| &&
    forall e :: 0 <= e < |buffer| ==> buffer'[e] == buffer[e] || (buffer[e] == UNVISITED && buffer'[e] == depth < UNVISITED)
  }

  /// Every reached rank other than the solved one was reached by a move from
  /// a rank one level closer: `parent[e]` by move `via[e]`.
  ghost predicate Reached(g: seq<seq<nat>>, d: nat, buffer: seq<nat>, parent: seq<nat>, via: seq<nat>)
    requires IsGraph(g, d) && |buffer| == |g|
  {
    |parent| == |via| == |g| &&
    forall e :: 0 <= e < |g| && 0 < buffer[e] < UNVISITED ==>
      parent[e] < |g| && via[e] < d && buffer[parent[e]] + 1 == buffer[e] && g[parent[e]][via[e]] == e
  }

  /// Every move from a rank of level below `level` leads to a rank at most
  /// one level further.
  ghost predicate ClosedBelow(g: seq<seq<nat>>, d: nat, buffer: seq<nat>, level: nat)
    requires IsGraph(g, d) && |buffer| == |g|
  {
    forall e, k :: 0 <= e < |g| && buffer[e] < level && 0 <= k < d ==> buffer[g[e][k]] <= buffer[e] + 1
  }

  /// Every move from rank `i` leads to a rank at level `depth` or below.
  ghost predicate Expanded(g: seq<seq<nat>>, d: nat, buffer: seq<nat>, i: nat, depth: nat)
    requires IsGraph(g, d) && |buffer| == |g| && i < |g|
  {
    forall k :: 0 <= k < d ==> buffer[g[i][k]] <= depth
  }

  /// `generate_buffer`: mark the solved state's rank 0 and every other rank
  /// unreached, then for depth 1, 2, ... give every unreached rank one move
  /// away from a rank of level `depth - 1` the level `depth`, until a depth
  /// reaches nothing new.  The result is the breadth-first distance from the
  /// solved rank in the graph of ranks and moves (`BufferIsDistance`).
  method GenerateBuffer<T>(t: Subtable<T>) returns (buffer: seq<nat>)
    requires t.InRange()
    ensures BreadthFirst(t.Graph(), |t.Moves()|, t.index(t.initial), buffer)
  {
    ghost var g, d := t.Graph(), |t.Moves()|;
    var start := t.index(t.initial);
    buffer := seq(t.max, e => UNVISITED);
    buffer := buffer[start := 0];
    ghost var parent: seq<nat> := seq(t.max, e => 0);
    ghost var via: seq<nat> := seq(t.max, e => 0);
    var depth: nat := 1;
    while true
      invariant |buffer| == t.max && depth >= 1
      invariant buffer[start] == 0
      invariant forall e :: 0 <= e < t.max && buffer[e] == 0 ==> e == start
      invariant forall e :: 0 <= e < t.max ==> buffer[e] < depth || buffer[e] == UNVISITED
      invariant forall e :: 0 <= e < t.max ==> buffer[e] <= UNVISITED
      invariant ClosedBelow(g, d, buffer, depth - 1)
      invariant Reached(g, d, buffer, parent, via)
      decreases Unvisited(buffer)
    {
      var complete;
      ghost var before := buffer;
      buffer, parent, via, complete := ScanLevel(t, g, buffer, parent, via, depth);
      if complete {
        assert buffer == before;
        Finish(g, d, start, buffer, parent, via, depth);
        break;
      }
      LevelZero(before, buffer, start, depth);
      depth := depth + 1;
    }
  }

  /// A lowering to a positive depth keeps the solved rank the only one at
  /// level 0, and every level within a byte.
  lemma LevelZero(buffer: seq<nat>, buffer': seq<nat>, start: nat, depth: nat)
    requires depth >= 1 && Lowered(buffer, buffer', depth) && start < |buffer| && buffer[start] == 0
    requires forall e :: 0 <= e < |buffer| && buffer[e] == 0 ==> e == start
    requires forall e :: 0 <= e < |buffer| ==> buffer[e] <= UNVISITED
    ensures buffer'[start] == 0
    ensures forall e :: 0 <= e < |buffer'| && buffer'[e] == 0 ==> e == start
    ensures forall e :: 0 <= e < |buffer'| ==> buffer'[e] <= UNVISITED
  {
  }

  /// When a pass at `depth` reaches nothing new, the buffer is complete.
  lemma Finish(g: seq<seq<nat>>, d: nat, start: nat, buffer: seq<nat>, parent: seq<nat>, via: seq<nat>, depth: nat)
    requires IsGraph(g, d) && |buffer| == |g| && start < |g|
    requires buffer[start] == 0
    requires forall e :: 0 <= e < |g| && buffer[e] == 0 ==> e == start
    requires forall e :: 0 <= e < |g| ==> buffer[e] < depth || buffer[e] == UNVISITED
    requires forall e :: 0 <= e < |g| ==> buffer[e] <= UNVISITED
    requires ClosedBelow(g, d, buffer, depth)
    requires Reached(g, d, buffer, parent, via)
    ensures BreadthFirst(g, d, start, buffer)
  {
    forall e, k | 0 <= e < |g| && buffer[e] < UNVISITED && 0 <= k < d
      ensures buffer[g[e][k]] <= buffer[e] + 1
    {
      assert buffer[e] < depth;
    }
    forall e | 0 <= e < |g| && 0 < buffer[e] < UNVISITED
      ensures exists p, k :: 0 <= p < |g| && 0 <= k < d && buffer[p] + 1 == buffer[e] && g[p][k] == e
    {
      assert buffer[parent[e]] + 1 == buffer[e] && g[parent[e]][via[e]] == e;
    }
  }

  /// One pass of `generate_buffer` over all ranks at `depth`: expand every
  /// rank of level `depth - 1`.  `complete` says that nothing changed.
  method ScanLevel<T>(t: Subtable<T>, ghost g: seq<seq<nat>>, buffer: seq<nat>, ghost parent: seq<nat>, ghost via: seq<nat>, depth: nat)
    returns (buffer': seq<nat>, ghost parent': seq<nat>, ghost via': seq<nat>, complete: bool)
    requires t.InRange() && GraphOf(t, g) && |buffer| == t.max && depth >= 1
    requires forall e :: 0 <= e < t.max ==> buffer[e] < depth || buffer[e] == UNVISITED
    requires ClosedBelow(g, |t.Moves()|, buffer, depth - 1)
    requires Reached(g, |t.Moves()|, buffer, parent, via)
    ensures |buffer'| == t.max
    ensures Lowered(buffer, buffer', depth)
    ensures complete ==> buffer' == buffer
    ensures !complete ==> Unvisited(buffer') < Unvisited(buffer)
    ensures ClosedBelow(g, |t.Moves()|, buffer', depth)
    ensures Reached(g, |t.Moves()|, buffer', parent', via')
  {
    ghost var d := |t.Moves()|;
    buffer', parent', via' := buffer, parent, via;
    complete := true;
    var i := 0;
    while i < t.max
      invariant i <= t.max && ScanInv(g, d, buffer, buffer', parent', via', complete, i, depth)
    {
      buffer', parent', via', complete := Visit(t, g, buffer, buffer', parent', via', complete, i, depth);
      i := i + 1;
    }
    ClosedStep(g, d, buffer, buffer', depth);
  }

  /// What holds after the pass at `depth` has visited the ranks below `i`:
  /// `b` lowers `buffer` to `depth`, is `buffer` while `complete`, and every
  /// visited rank of level `depth - 1` is expanded.
  ghost predicate ScanInv(g: seq<seq<nat>>, d: nat, buffer: seq<nat>, b: seq<nat>, parent: seq<nat>, via: seq<nat>,
                          complete: bool, i: nat, depth: nat)
    requires IsGraph(g, d)
  {
    |buffer| == |b| == |g| && i <= |g| && depth >= 1 &&
    (forall e :: 0 <= e < |g| ==> buffer[e] < depth || buffer[e] == UNVISITED) &&
    Lowered(buffer, b, depth) &&
    (complete ==> b == buffer) &&
    (!complete ==> Unvisited(b) < Unvisited(buffer)) &&
    (forall e :: 0 <= e < i && b[e] == depth - 1 ==> Expanded(g, d, b, e, depth)) &&
    Reached(g, d, b, parent, via)
  }

  /// The body of the pass: rank `i`, if of level `depth - 1`, is expanded.
  method Visit<T>(t: Subtable<T>, ghost g: seq<seq<nat>>, ghost buffer: seq<nat>, b: seq<nat>, ghost parent: seq<nat>, ghost via: seq<nat>,
                  complete: bool, i: nat, depth: nat)
    returns (b': seq<nat>, ghost parent': seq<nat>, ghost via': seq<nat>, complete': bool)
    requires t.InRange() && GraphOf(t, g) && i < t.max
    requires ScanInv(g, |t.Moves()|, buffer, b, parent, via, complete, i, depth)
    ensures ScanInv(g, |t.Moves()|, buffer, b', parent', via', complete', i + 1, depth)
  {
    ghost var d := |t.Moves()|;
    b', parent', via', complete' := b, parent, via, complete;
    if b[i] == depth - 1 {
      var changed;
      VisitExpandable(g, d, buffer, b, parent, via, complete, i, depth);
      b', parent', via', changed := Expand(t, g, b, parent, via, i, depth);
      VisitExpanded(g, d, buffer, b, b', parent', via', complete, changed, i, depth);
      if changed {
        complete' := false;
      }
    } else {
      VisitSkipped(g, d, buffer, b, parent, via, complete, i, depth);
    }
  }

  /// What the pass knows at rank `i` is what `Expand` needs.
  lemma VisitExpandable(g: seq<seq<nat>>, d: nat, buffer: seq<nat>, b: seq<nat>, parent: seq<nat>, via: seq<nat>,
                        complete: bool, i: nat, depth: nat)
    requires IsGraph(g, d) && i < |g| && ScanInv(g, d, buffer, b, parent, via, complete, i, depth)
    ensures |b| == |g| && depth >= 1
    ensures forall e :: 0 <= e < |g| ==> b[e] <= depth || b[e] == UNVISITED
    ensures Reached(g, d, b, parent, via)
  {
    LoweredBound(buffer, b, depth);
  }

  /// A rank not of level `depth - 1` is passed over.
  lemma VisitSkipped(g: seq<seq<nat>>, d: nat, buffer: seq<nat>, b: seq<nat>, parent: seq<nat>, via: seq<nat>,
                     complete: bool, i: nat, depth: nat)
    requires IsGraph(g, d) && i < |g| && ScanInv(g, d, buffer, b, parent, via, complete, i, depth) && b[i] != depth - 1
    ensures ScanInv(g, d, buffer, b, parent, via, complete, i + 1, depth)
  {
  }

  /// Expanding rank `i` in the pass carries what holds over to rank `i + 1`.
  lemma VisitExpanded(g: seq<seq<nat>>, d: nat, buffer: seq<nat>, b: seq<nat>, b': seq<nat>, parent': seq<nat>, via': seq<nat>,
                      complete: bool, changed: bool, i: nat, depth: nat)
    requires IsGraph(g, d) && i < |g| && ScanInv(g, d, buffer, b, parent', via', complete, i, depth) && b[i] == depth - 1
    requires |b'| == |g| && Lowered(b, b', depth) && Expanded(g, d, b', i, depth)
    requires !changed ==> b' == b
    requires changed ==> Unvisited(b') < Unvisited(b)
    requires Reached(g, d, b', parent', via')
    ensures ScanInv(g, d, buffer, b', parent', via', complete && !changed, i + 1, depth)
  {
    ExpandKeeps(g, d, buffer, b, b', i, depth);
  }

  /// A lowering to `depth` of a buffer below `depth` stays at most `depth`.
  lemma LoweredBound(buffer: seq<nat>, b: seq<nat>, depth: nat)
    requires Lowered(buffer, b, depth)
    requires forall e :: 0 <= e < |buffer| ==> buffer[e] < depth || buffer[e] == UNVISITED
    ensures forall e :: 0 <= e < |b| ==> b[e] <= depth || b[e] == UNVISITED
  {
  }

  /// Expanding rank `i` keeps the earlier ranks expanded and the change from
  /// the start of the pass a lowering to `depth`.
  lemma ExpandKeeps(g: seq<seq<nat>>, d: nat, buffer: seq<nat>, b: seq<nat>, b': seq<nat>, i: nat, depth: nat)
    requires IsGraph(g, d) && |buffer| == |g| && i < |g| && depth >= 1
    requires Lowered(buffer, b, depth) && Lowered(b, b', depth)
    requires forall e :: 0 <= e < i && b[e] == depth - 1 ==> Expanded(g, d, b, e, depth)
    requires b[i] == depth - 1 && Expanded(g, d, b', i, depth)
    ensures Lowered(buffer, b', depth)
    ensures forall e :: 0 <= e < i + 1 && b'[e] == depth - 1 ==> Expanded(g, d, b', e, depth)
  {
    forall e | 0 <= e < i + 1 && b'[e] == depth - 1
      ensures Expanded(g, d, b', e, depth)
    {
      if e < i {
        assert b[e] == depth - 1;
        forall k | 0 <= k < d
          ensures b'[g[e][k]] <= depth
        {
          assert b[g[e][k]] <= depth;
        }
      }
    }
  }

  /// The moves from one rank `i` of level `depth - 1`: every rank they reach
  /// above level `depth` drops to `depth`, with `i` as its parent.
  method Expand<T>(t: Subtable<T>, ghost g: seq<seq<nat>>, buffer: seq<nat>, ghost parent: seq<nat>, ghost via: seq<nat>, i: nat, depth: nat)
    returns (buffer': seq<nat>, ghost parent': seq<nat>, ghost via': seq<nat>, changed: bool)
    requires t.InRange() && GraphOf(t, g) && |buffer| == t.max && depth >= 1 && i < t.max && buffer[i] == depth - 1
    requires forall e :: 0 <= e < t.max ==> buffer[e] <= depth || buffer[e] == UNVISITED
    requires Reached(g, |t.Moves()|, buffer, parent, via)
    ensures |buffer'| == t.max
    ensures Lowered(buffer, buffer', depth)
    ensures Expanded(g, |t.Moves()|, buffer', i, depth)
    ensures !changed ==> buffer' == buffer
    ensures changed ==> Unvisited(buffer') < Unvisited(buffer)
    ensures Reached(g, |t.Moves()|, buffer', parent', via')
  {
    ghost var d := |t.Moves()|;
    buffer', parent', via' := buffer, parent, via;
    changed := false;
    var moves := t.Moves();
    var state := t.fromIndex(i);
    var k := 0;
    while k < |moves|
      invariant k <= |moves| && ExpandInv(g, d, buffer, buffer', parent', via', changed, i, k, depth)
    {
      var newIndex := t.index(t.applyMov(state, moves[k]));
      assert newIndex == t.Step(i, k) == g[i][k];
      buffer', parent', via', changed := Relax(g, d, buffer, buffer', parent', via', changed, i, k, newIndex, depth);
      k := k + 1;
    }
  }

  /// What holds after `Expand` has tried the first `k` moves from rank `i`:
  /// `b` lowers `buffer` to `depth`, is `buffer` while nothing changed, and
  /// the ranks those moves reach are at level `depth` or below.
  ghost predicate ExpandInv(g: seq<seq<nat>>, d: nat, buffer: seq<nat>, b: seq<nat>, parent: seq<nat>, via: seq<nat>,
                            changed: bool, i: nat, k: nat, depth: nat)
    requires IsGraph(g, d)
  {
    |buffer| == |b| == |g| && i < |g| && k <= d && depth >= 1 &&
    (forall e :: 0 <= e < |g| ==> buffer[e] <= depth || buffer[e] == UNVISITED) &&
    b[i] == depth - 1 &&
    Lowered(buffer, b, depth) &&
    (forall j :: 0 <= j < k ==> b[g[i][j]] <= depth) &&
    (!changed ==> b == buffer) &&
    (changed ==> Unvisited(b) < Unvisited(buffer)) &&
    Reached(g, d, b, parent, via)
  }

  /// The body of `Expand`: rank `n`, reached from rank `i` by move `k`, drops
  /// to level `depth` with `i` as its parent if it was above it.
  method Relax(ghost g: seq<seq<nat>>, ghost d: nat, ghost buffer: seq<nat>, b: seq<nat>, ghost parent: seq<nat>, ghost via: seq<nat>,
               changed: bool, i: nat, k: nat, n: nat, depth: nat)
    returns (b': seq<nat>, ghost parent': seq<nat>, ghost via': seq<nat>, changed': bool)
    requires IsGraph(g, d) && k < d && ExpandInv(g, d, buffer, b, parent, via, changed, i, k, depth) && n == g[i][k]
    ensures ExpandInv(g, d, buffer, b', parent', via', changed', i, k + 1, depth)
  {
    b', parent', via', changed' := b, parent, via, changed;
    if b[n] > depth {
      RelaxStep(g, d, buffer, b, parent, via, changed, i, k, depth);
      b' := b[n := depth];
      parent' := parent[n := i];
      via' := via[n := k];
      changed' := true;
    }
  }

  /// One step of `Expand`: the rank reached from rank `i` by move `k`, if
  /// above level `depth`, drops to `depth` with `i` as its parent.
  lemma RelaxStep(g: seq<seq<nat>>, d: nat, buffer: seq<nat>, b: seq<nat>, parent: seq<nat>, via: seq<nat>,
                  changed: bool, i: nat, k: nat, depth: nat)
    requires IsGraph(g, d) && |buffer| == |b| == |g| && depth >= 1 && i < |g| && k < d
    requires forall e :: 0 <= e < |g| ==> buffer[e] <= depth || buffer[e] == UNVISITED
    requires b[i] == depth - 1 && b[g[i][k]] > depth
    requires Lowered(buffer, b, depth)
    requires forall j :: 0 <= j < k ==> b[g[i][j]] <= depth
    requires !changed ==> b == buffer
    requires changed ==> Unvisited(b) < Unvisited(buffer)
    requires Reached(g, d, b, parent, via)
    ensures var n := g[i][k];
      var b' := b[n := depth];
      b'[i] == depth - 1 &&
      Lowered(buffer, b', depth) &&
      (forall j :: 0 <= j < k + 1 ==> b'[g[i][j]] <= depth) &&
      Unvisited(b') < Unvisited(buffer) &&
      Reached(g, d, b', parent[n := i], via[n := k])
  {
    var n := g[i][k];
    assert b[n] == UNVISITED;
    assert forall x :: 0 <= x < |g| ==> b[x] <= depth || b[x] == UNVISITED;
    UnvisitedSet(b, n, depth);
    ReachedSet(g, d, b, parent, via, n, i, k, depth);
  }

  /// Giving unreached rank `e`, one move `k` from rank `i` of level
  /// `depth - 1`, the level `depth` with `i` as its parent keeps every
  /// reached rank's parent one level closer.
  lemma ReachedSet(g: seq<seq<nat>>, d: nat, buffer: seq<nat>, parent: seq<nat>, via: seq<nat>, e: nat, i: nat, k: nat, depth: nat)
    requires IsGraph(g, d) && |buffer| == |g| && depth >= 1
    requires forall x :: 0 <= x < |g| ==> buffer[x] <= depth || buffer[x] == UNVISITED
    requires Reached(g, d, buffer, parent, via)
    requires i < |g| && buffer[i] == depth - 1 && k < d && g[i][k] == e && buffer[e] > depth
    ensures Reached(g, d, buffer[e := depth], parent[e := i], via[e := k])
  {
    var b, p, v := buffer[e := depth], parent[e := i], via[e := k];
    forall x | 0 <= x < |g| && 0 < b[x] < UNVISITED
      ensures p[x] < |g| && v[x] < d && b[p[x]] + 1 == b[x] && g[p[x]][v[x]] == x
    {
      if x != e {
        assert buffer[parent[x]] + 1 == buffer[x];
      }
    }
  }

  /// Marking an unreached rank reached leaves one fewer unreached.
  lemma {:induction false} UnvisitedSet(buffer: seq<nat>, e: nat, v: nat)
    requires e < |buffer| && buffer[e] == UNVISITED && v != UNVISITED
    ensures Unvisited(buffer[e := v]) + 1 == Unvisited(buffer)
  {
    var n := |buffer| - 1;
    var b' := buffer[e := v];
    assert b'[..n] == if e < n then buffer[..n][e := v] else buffer[..n];
    if e < n {
      UnvisitedSet(buffer[..n], e, v);
    }
  }

  /// After a pass at `depth`, the moves from every rank of a level below
  /// `depth` are accounted for: the lower levels were before, the ranks
  /// only moved down to `depth`, and level `depth - 1` was just expanded.
  lemma ClosedStep(g: seq<seq<nat>>, d: nat, buffer: seq<nat>, buffer': seq<nat>, depth: nat)
    requires IsGraph(g, d) && |buffer| == |g| && depth >= 1
    requires ClosedBelow(g, d, buffer, depth - 1)
    requires Lowered(buffer, buffer', depth)
    requires forall e :: 0 <= e < |g| && buffer'[e] == depth - 1 ==> Expanded(g, d, buffer', e, depth)
    ensures ClosedBelow(g, d, buffer', depth)
  {
    forall e, k | 0 <= e < |g| && buffer'[e] < depth && 0 <= k < d
      ensures buffer'[g[e][k]] <= buffer'[e] + 1
    {
      var n := g[e][k];
      if buffer'[e] < depth - 1 {
        assert buffer[n] <= buffer[e] + 1;
      } else {
        assert Expanded(g, d, buffer', e, depth);
      }
    }
  }

  // ---- The buffer is the distance from the solved rank ----

  /// No path from the solved rank is shorter than the level of its end.
  lemma {:induction false} WalkBound(g: seq<seq<nat>>, d: nat, start: nat, buffer: seq<nat>, path: seq<nat>)
    requires IsGraph(g, d) && BreadthFirst(g, d, start, buffer) && IsPath(d, path)
    ensures buffer[Walk(g, d, start, path)] <= |path|
  {
    if path != [] {
      var front := path[..|path| - 1];
      WalkBound(g, d, start, buffer, front);
      var e := Walk(g, d, start, front);
      if buffer[e] < UNVISITED {
        assert buffer[g[e][path[|path| - 1]]] <= buffer[e] + 1;
      }
    }
  }

  /// Every reached rank is the end of a path from the solved rank as long
  /// as its level.
  lemma {:induction false} PathTo(g: seq<seq<nat>>, d: nat, start: nat, buffer: seq<nat>, e: nat) returns (path: seq<nat>)
    requires IsGraph(g, d) && BreadthFirst(g, d, start, buffer) && e < |g| && buffer[e] < UNVISITED
    ensures IsPath(d, path) && |path| == buffer[e] && Walk(g, d, start, path) == e
    decreases buffer[e]
  {
    if buffer[e] == 0 {
      path := [];
    } else {
      var p, k := Predecessor(g, d, start, buffer, e);
      var front := PathTo(g, d, start, buffer, p);
      path := front + [k];
      assert path[..|path| - 1] == front && path[|path| - 1] == k;
      assert Walk(g, d, start, path) == g[p][k];
    }
  }

  /// A reached rank other than the solved one has a predecessor one level
  /// closer.
  lemma Predecessor(g: seq<seq<nat>>, d: nat, start: nat, buffer: seq<nat>, e: nat) returns (p: nat, k: nat)
    requires IsGraph(g, d) && BreadthFirst(g, d, start, buffer) && e < |g| && 0 < buffer[e] < UNVISITED
    ensures p < |g| && k < d && buffer[p] + 1 == buffer[e] && g[p][k] == e
  {
    p, k :| 0 <= p < |g| && 0 <= k < d && buffer[p] + 1 == buffer[e] && g[p][k] == e;
  }

  /// `generate_buffer` computes distances: a reached rank's level is the
  /// length of the shortest path of moves from the solved rank to it.
  lemma BufferIsDistance(g: seq<seq<nat>>, d: nat, start: nat, buffer: seq<nat>, e: nat)
    requires IsGraph(g, d) && BreadthFirst(g, d, start, buffer) && e < |g| && buffer[e] < UNVISITED
    ensures exists path :: IsPath(d, path) && |path| == buffer[e] && Walk(g, d, start, path) == e
    ensures forall path :: IsPath(d, path) && Walk(g, d, start, path) == e ==> buffer[e] <= |path|
  {
    var p := PathTo(g, d, start, buffer, e);
    forall path | IsPath(d, path) && Walk(g, d, start, path) == e
      ensures buffer[e] <= |path|
    {
      WalkBound(g, d, start, buffer, path);
    }
  }

  // ---- The buffer as a heuristic ----

  /// Move `inv[k]` undoes move `k` from every rank: true of the graph of a
  /// coordinate that follows the cube, since all eighteen moves and the ten
  /// of G1 come with their inverses.
  ghost predicate UndoneBy(g: seq<seq<nat>>, d: nat, inv: seq<nat>)
    requires IsGraph(g, d)
  {
    |inv| == d && (forall k :: 0 <= k < d ==> inv[k] < d) &&
    forall e, k :: 0 <= e < |g| && 0 <= k < d ==> g[g[e][k]][inv[k]] == e
  }

  /// Walking a first move, then the rest.
  lemma {:induction false} WalkCons(g: seq<seq<nat>>, d: nat, e: nat, k: nat, path: seq<nat>)
    requires IsGraph(g, d) && e < |g| && k < d && IsPath(d, path)
    ensures IsPath(d, [k] + path)
    ensures Walk(g, d, e, [k] + path) == Walk(g, d, g[e][k], path)
  {
    var full := [k] + path;
    if path != [] {
      var front := path[..|path| - 1];
      WalkCons(g, d, e, k, front);
      assert full[..|full| - 1] == [k] + front;
    }
  }

  /// When every move can be undone, every walk can be walked back in as many moves.
  lemma {:induction false} ReversePath(g: seq<seq<nat>>, d: nat, inv: seq<nat>, e: nat, path: seq<nat>) returns (rev: seq<nat>)
    requires IsGraph(g, d) && UndoneBy(g, d, inv) && e < |g| && IsPath(d, path)
    ensures IsPath(d, rev) && |rev| == |path| && Walk(g, d, Walk(g, d, e, path), rev) == e
  {
    if path == [] {
      rev := [];
    } else {
      var front, k := path[..|path| - 1], path[|path| - 1];
      var m := Walk(g, d, e, front);
      var back := ReversePath(g, d, inv, e, front);
      var k' := inv[k];
      rev := [k'] + back;
      WalkCons(g, d, g[m][k], k', back);
    }
  }

  /// The buffer never overestimates: from any rank, no path of moves back
  /// to the solved rank is shorter than the rank's level.  This is what
  /// makes the tables admissible heuristics for the search.
  lemma Admissible(g: seq<seq<nat>>, d: nat, inv: seq<nat>, start: nat, buffer: seq<nat>, e: nat, path: seq<nat>)
    requires IsGraph(g, d) && UndoneBy(g, d, inv) && BreadthFirst(g, d, start, buffer)
    requires e < |g| && IsPath(d, path) && Walk(g, d, e, path) == start
    ensures buffer[e] <= |path|
  {
    var rev := ReversePath(g, d, inv, e, path);
    WalkBound(g, d, start, buffer, rev);
  }
}
