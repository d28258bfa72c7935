/// The cycles of a permutation of the eight corner slots, as
/// `count_swaps` walks them.
module SlotCycles {

  /// A map from the eight slots to the eight slots.
  predicate SlotMap(perm: seq<nat>) {
    |perm| == 8 && forall i :: 0 <= i < 8 ==> perm[i] < 8
  }

  /// A one-to-one map of the slots.
  predicate Injective(perm: seq<nat>) {
    SlotMap(perm) && forall i, j :: 0 <= i < j < 8 ==> perm[i] != perm[j]
  }

  /// The slot `k` steps along `perm` from slot `i`.
  function Walk(perm: seq<nat>, i: nat, k: nat): (j: nat)
    requires SlotMap(perm) && i < 8
    ensures j < 8
  {
    if k == 0 then i else perm[Walk(perm, i, k - 1)]
  }

  /// Slot `i` is the smallest slot on its cycle (a cycle has at most 8
  /// slots, so 8 steps see all of it).
  predicate CycleLeader(perm: seq<nat>, i: nat)
    requires SlotMap(perm) && i < 8
  {
    forall k :: 0 <= k < 8 ==> Walk(perm, i, k) >= i
  }

  const SLOTS: set<nat> := {0, 1, 2, 3, 4, 5, 6, 7}

  /// The slots of `done` that do not lead their cycle.
  function NonLeaders(perm: seq<nat>, done: set<nat>): set<nat>
    requires SlotMap(perm) && done <= SLOTS
  {
    set i | i in done && !CycleLeader(perm, i)
  }

  /// A union of whole cycles: closed under the permutation and under its
  /// inverse.
  predicate Closed(perm: seq<nat>, done: set<nat>)
    requires SlotMap(perm) && done <= SLOTS
  {
    (forall x :: x in done ==> perm[x] in done) &&
    (forall y: nat :: y < 8 && perm[y] in done ==> y in done)
  }

  /// The slots of a sequence, as a set.
  function Elements(s: seq<nat>): set<nat> {
    set x | x in s
  }

  predicate Distinct(s: seq<nat>) {
    forall m, n :: 0 <= m < n < |s| ==> s[m] != s[n]
  }

  /// Where a cycle walk starts: a slot outside the closed set `before`
  /// with every smaller slot inside it.
  predicate Fresh(perm: seq<nat>, before: set<nat>, start: nat) {
    Injective(perm) && before <= SLOTS && Closed(perm, before) &&
    start < 8 && start !in before && forall j: nat :: j < start ==> j in before
  }

  /// `path` follows `perm` from `start` through slots outside `before`.
  predicate Chain(perm: seq<nat>, before: set<nat>, start: nat, path: seq<nat>)
    requires SlotMap(perm)
  {
    |path| >= 1 && path[0] == start &&
    (forall m :: 0 <= m < |path| ==> path[m] < 8 && path[m] !in before) &&
    (forall m :: 0 <= m < |path| - 1 ==> path[m + 1] == perm[path[m]])
  }

  /// The state of the inner loop of `count_swaps`: a walk from a fresh
  /// slot through new, pairwise different slots.
  predicate Walked(perm: seq<nat>, before: set<nat>, start: nat, path: seq<nat>) {
    Fresh(perm, before, start) && Chain(perm, before, start, path) && Distinct(path)
  }

  /// The walk starts as the single slot `start`.
  lemma WalkStarts(perm: seq<nat>, before: set<nat>, start: nat)
    requires Fresh(perm, before, start)
    ensures Walked(perm, before, start, [start])
  {
  }

  /// A slot past a chain that is not `start` again is new.
  lemma StepIsNew(perm: seq<nat>, before: set<nat>, start: nat, path: seq<nat>)
    requires Walked(perm, before, start, path)
    requires perm[path[|path| - 1]] != start
    ensures perm[path[|path| - 1]] !in before && perm[path[|path| - 1]] !in path
  {
    var last := |path| - 1;
    forall m | 0 < m < |path|
      ensures path[m] != perm[path[last]]
    {
      assert path[m - 1] != path[last];
    }
  }

  /// One more step keeps the walk going.
  lemma PathStep(perm: seq<nat>, before: set<nat>, start: nat, path: seq<nat>)
    requires Walked(perm, before, start, path)
    requires perm[path[|path| - 1]] != start
    ensures var p := perm[path[|path| - 1]];
      p !in before + Elements(path) && Walked(perm, before, start, path + [p]) &&
      Elements(path + [p]) == Elements(path) + {p}
  {
    StepIsNew(perm, before, start, path);
    var p := perm[path[|path| - 1]];
    assert Chain(perm, before, start, path + [p]);
    assert Elements(path + [p]) == Elements(path) + {p};
  }

  /// Different slots, as many elements as entries.
  lemma {:induction false} DistinctCard(s: seq<nat>)
    requires Distinct(s)
    ensures |Elements(s)| == |s|
  {
    if s != [] {
      var t := s[..|s| - 1];
      assert Distinct(t);
      DistinctCard(t);
      assert Elements(s) == Elements(t) + {s[|s| - 1]};
    }
  }

  /// A subset has at most as many elements.
  lemma {:induction false} SubsetCard(a: set<nat>, b: set<nat>)
    requires a <= b
    ensures |a| <= |b|
    decreases |a|
  {
    if a != {} {
      var x :| x in a;
      SubsetCard(a - {x}, b - {x});
    }
  }

  /// A set of slots has at most eight of them.
  lemma SlotsBound(done: set<nat>)
    requires done <= SLOTS
    ensures |done| <= 8
  {
    SubsetCard(done, SLOTS);
  }

  /// A walk through different slots has at most eight of them.
  lemma PathBound(perm: seq<nat>, before: set<nat>, start: nat, path: seq<nat>)
    requires Walked(perm, before, start, path)
    ensures |path| <= 8
  {
    DistinctCard(path);
    SlotsBound(Elements(path));
  }

  /// Once the walk is back at `start`, the permutation maps the path
  /// into itself.
  lemma CycleForward(perm: seq<nat>, before: set<nat>, start: nat, path: seq<nat>, m: nat)
    requires Walked(perm, before, start, path)
    requires perm[path[|path| - 1]] == start
    requires m < |path|
    ensures perm[path[m]] in path
  {
    if m + 1 < |path| {
      assert perm[path[m]] == path[m + 1];
    }
  }

  /// Once the walk is back at `start`, every slot on the path has its
  /// preimage on the path.
  lemma CycleBackward(perm: seq<nat>, before: set<nat>, start: nat, path: seq<nat>, y: nat, m: nat)
    requires Walked(perm, before, start, path)
    requires perm[path[|path| - 1]] == start
    requires y < 8 && m < |path| && perm[y] == path[m]
    ensures y in path
  {
    var prev := if m == 0 then |path| - 1 else m - 1;
    assert perm[path[prev]] == path[m];
  }

  /// Once the walk is back at `start`, adding the path keeps the set closed.
  lemma CycleKeepsClosed(perm: seq<nat>, before: set<nat>, start: nat, path: seq<nat>)
    requires Walked(perm, before, start, path)
    requires perm[path[|path| - 1]] == start
    ensures before + Elements(path) <= SLOTS && Closed(perm, before + Elements(path))
  {
    var done := before + Elements(path);
    forall x | x in done
      ensures perm[x] in done
    {
      if x !in before {
        var m :| 0 <= m < |path| && path[m] == x;
        CycleForward(perm, before, start, path, m);
      }
    }
    forall y: nat | y < 8 && perm[y] in done
      ensures y in done
    {
      if perm[y] !in before {
        var m :| 0 <= m < |path| && path[m] == perm[y];
        CycleBackward(perm, before, start, path, y, m);
      }
    }
  }

  /// Along the path, `j` steps from `path[m]` reach `path[m + j]`.
  lemma {:induction false} PathWalk(perm: seq<nat>, before: set<nat>, start: nat, path: seq<nat>, m: nat, j: nat)
    requires Walked(perm, before, start, path)
    requires m + j < |path|
    ensures Walk(perm, path[m], j) == path[m + j]
  {
    if j > 0 {
      PathWalk(perm, before, start, path, m, j - 1);
    }
  }

  /// Round a closed path, every walk from `start` stays on the path.
  lemma {:induction false} CycleWalk(perm: seq<nat>, before: set<nat>, start: nat, path: seq<nat>, k: nat)
    requires Walked(perm, before, start, path)
    requires perm[path[|path| - 1]] == start
    ensures Walk(perm, start, k) in path
  {
    if k > 0 {
      CycleWalk(perm, before, start, path, k - 1);
      var i :| 0 <= i < |path| && path[i] == Walk(perm, start, k - 1);
      if i + 1 < |path| {
        assert Walk(perm, start, k) == path[i + 1];
      } else {
        assert Walk(perm, start, k) == path[0];
      }
    }
  }

  /// On a closed path, `start` is the only leader.
  lemma PathLeaders(perm: seq<nat>, before: set<nat>, start: nat, path: seq<nat>, m: nat)
    requires Walked(perm, before, start, path)
    requires perm[path[|path| - 1]] == start
    requires m < |path|
    ensures CycleLeader(perm, path[m]) <==> m == 0
  {
    PathBound(perm, before, start, path);
    if m == 0 {
      forall k | 0 <= k < 8
        ensures Walk(perm, start, k) >= start
      {
        CycleWalk(perm, before, start, path, k);
      }
    } else {
      PathWalk(perm, before, start, path, m, |path| - 1 - m);
      assert Walk(perm, path[m], |path| - m) == start;
    }
  }

  /// Adding a closed path adds every slot on it but `start` to the
  /// non-leaders.
  lemma CycleLeaders(perm: seq<nat>, before: set<nat>, start: nat, path: seq<nat>)
    requires Walked(perm, before, start, path)
    requires perm[path[|path| - 1]] == start
    ensures before + Elements(path) <= SLOTS
    ensures NonLeaders(perm, before + Elements(path)) == NonLeaders(perm, before) + Elements(path[1..])
  {
    forall m | 0 <= m < |path|
      ensures CycleLeader(perm, path[m]) <==> m == 0
    {
      PathLeaders(perm, before, start, path, m);
    }
  }

  /// When the walk is back at `start`, the path is a whole cycle: adding it
  /// keeps the set closed and every slot on it but `start` counts one swap.
  lemma CycleClosed(perm: seq<nat>, before: set<nat>, start: nat, path: seq<nat>)
    requires Walked(perm, before, start, path)
    requires perm[path[|path| - 1]] == start
    ensures before + Elements(path) <= SLOTS && Closed(perm, before + Elements(path))
    ensures |NonLeaders(perm, before + Elements(path))| == |NonLeaders(perm, before)| + |path| - 1
  {
    CycleKeepsClosed(perm, before, start, path);
    CycleLeaders(perm, before, start, path);
    var rest := path[1..];
    assert Distinct(rest);
    DistinctCard(rest);
    assert NonLeaders(perm, before) !! Elements(rest);
  }

  /// A fixed slot stays put however far it walks.
  lemma {:induction false} FixedWalk(perm: seq<nat>, x: nat, k: nat)
    requires SlotMap(perm) && x < 8 && perm[x] == x
    ensures Walk(perm, x, k) == x
  {
    if k > 0 {
      FixedWalk(perm, x, k - 1);
    }
  }

  /// The identity has no swaps to make: every slot leads its own cycle.
  lemma IdentityNoSwaps(perm: seq<nat>)
    requires SlotMap(perm) && forall i :: 0 <= i < 8 ==> perm[i] == i
    ensures |NonLeaders(perm, SLOTS)| == 0
  {
    forall x | x in SLOTS
      ensures CycleLeader(perm, x)
    {
      forall k | 0 <= k < 8
        ensures Walk(perm, x, k) >= x
      {
        FixedWalk(perm, x, k);
      }
    }
    assert NonLeaders(perm, SLOTS) == {};
  }

  /// A walk from either end of a swap stays on the swap.
  lemma {:induction false} SwapWalk(perm: seq<nat>, a: nat, b: nat, x: nat, k: nat)
    requires SlotMap(perm) && a < 8 && b < 8 && perm[a] == b && perm[b] == a
    requires x == a || x == b
    ensures Walk(perm, x, k) == a || Walk(perm, x, k) == b
  {
    if k > 0 {
      SwapWalk(perm, a, b, x, k - 1);
    }
  }

  /// A single swap of two slots takes one swap to undo: only the larger
  /// slot of the pair does not lead its cycle.
  lemma SwapOneSwap(perm: seq<nat>, a: nat, b: nat)
    requires SlotMap(perm) && a < b < 8 && perm[a] == b && perm[b] == a
    requires forall i :: 0 <= i < 8 && i != a && i != b ==> perm[i] == i
    ensures NonLeaders(perm, SLOTS) == {b} && |NonLeaders(perm, SLOTS)| == 1
  {
    forall x | x in SLOTS && x != b
      ensures CycleLeader(perm, x)
    {
      forall k | 0 <= k < 8
        ensures Walk(perm, x, k) >= x
      {
        if x == a {
          SwapWalk(perm, a, b, x, k);
        } else {
          FixedWalk(perm, x, k);
        }
      }
    }
    assert Walk(perm, b, 1) == a;
  }

  // ---- Exchanging two slots ----

  /// The map with the entries at `a` and `b` exchanged (`slice::swap`).
  function Swapped(perm: seq<nat>, a: nat, b: nat): (q: seq<nat>)
    requires SlotMap(perm) && a < 8 && b < 8
    ensures SlotMap(q) && q[a] == perm[b] && q[b] == perm[a]
    ensures forall x :: 0 <= x < 8 && x != a && x != b ==> q[x] == perm[x]
  {
    perm[a := perm[b]][b := perm[a]]
  }

  /// Exchanging two entries keeps a map one-to-one, and exchanging them
  /// again gives the map back.
  lemma SwappedInjective(perm: seq<nat>, a: nat, b: nat)
    requires Injective(perm) && a < 8 && b < 8
    ensures Injective(Swapped(perm, a, b)) && Swapped(Swapped(perm, a, b), a, b) == perm
  {
    var q := Swapped(perm, a, b);
    forall u, v | 0 <= u < v < 8
      ensures q[u] != q[v]
    {
      var u' := if u == a then b else if u == b then a else u;
      var v' := if v == a then b else if v == b then a else v;
      InjectiveAt(perm, u', v');
    }
  }

  /// A one-to-one map sends equal images back to equal slots.
  lemma InjectiveAt(perm: seq<nat>, u: nat, v: nat)
    requires Injective(perm) && u < 8 && v < 8
    ensures perm[u] == perm[v] ==> u == v
  {
    if u > v {
      assert perm[v] != perm[u];
    }
  }

  /// The slots a walk from `x` reaches within eight steps: the cycle of `x`.
  function Orbit(perm: seq<nat>, x: nat): set<nat>
    requires SlotMap(perm) && x < 8
  {
    set k: nat | k < 8 :: Walk(perm, x, k)
  }

  /// The first eight steps of a walk are in the orbit.
  lemma InOrbit(perm: seq<nat>, x: nat, k: nat)
    requires SlotMap(perm) && x < 8 && k < 8
    ensures Walk(perm, x, k) in Orbit(perm, x)
  {
  }

  /// A slot leads its cycle exactly when it is the smallest slot of its orbit.
  lemma LeaderOrbit(perm: seq<nat>, x: nat)
    requires SlotMap(perm) && x < 8
    ensures CycleLeader(perm, x) <==> forall y :: y in Orbit(perm, x) ==> x <= y
  {
    if forall y :: y in Orbit(perm, x) ==> x <= y {
      forall k | 0 <= k < 8
        ensures Walk(perm, x, k) >= x
      {
        assert Walk(perm, x, k) in Orbit(perm, x);
      }
    }
  }

  /// `a` steps then `b` steps is `a + b` steps.
  lemma {:induction false} WalkAdd(perm: seq<nat>, x: nat, a: nat, b: nat)
    requires SlotMap(perm) && x < 8
    ensures Walk(perm, x, a + b) == Walk(perm, Walk(perm, x, a), b)
    decreases b
  {
    if b > 0 {
      WalkAdd(perm, x, a, b - 1);
    }
  }

  /// Two walks from `x` that meet came back to `x` in between.
  lemma {:induction false} WalkCancel(perm: seq<nat>, x: nat, a: nat, b: nat)
    requires Injective(perm) && x < 8 && a <= b && Walk(perm, x, a) == Walk(perm, x, b)
    ensures Walk(perm, x, b - a) == x
    decreases a
  {
    if a > 0 {
      InjectiveAt(perm, Walk(perm, x, a - 1), Walk(perm, x, b - 1));
      WalkCancel(perm, x, a - 1, b - 1);
    }
  }

  /// The first `n` slots of the walk from `x`.
  function WalkSeq(perm: seq<nat>, x: nat, n: nat): (s: seq<nat>)
    requires SlotMap(perm) && x < 8
    ensures |s| == n && forall k :: 0 <= k < n ==> s[k] == Walk(perm, x, k)
  {
    if n == 0 then [] else WalkSeq(perm, x, n - 1) + [Walk(perm, x, n - 1)]
  }

  /// A one-to-one map brings every slot back within eight steps.
  lemma ReturnExists(perm: seq<nat>, x: nat)
    requires Injective(perm) && x < 8
    ensures exists m :: 1 <= m <= 8 && Walk(perm, x, m) == x
  {
    if forall m :: 1 <= m <= 8 ==> Walk(perm, x, m) != x {
      var s := WalkSeq(perm, x, 9);
      forall a, b | 0 <= a < b < 9
        ensures s[a] != s[b]
      {
        if s[a] == s[b] {
          WalkCancel(perm, x, a, b);
        }
      }
      assert Distinct(s);
      DistinctCard(s);
      SlotsBound(Elements(s));
      assert false;
    }
  }

  /// The first step from `k` on, at most 8, at which the walk from `x`
  /// reaches `y`.
  function FirstHit(perm: seq<nat>, x: nat, y: nat, k: nat): (m: nat)
    requires SlotMap(perm) && x < 8 && k <= 8
    ensures k <= m <= 8 && (m == 8 || Walk(perm, x, m) == y)
    ensures forall l :: k <= l < m ==> Walk(perm, x, l) != y
    decreases 8 - k
  {
    if k == 8 || Walk(perm, x, k) == y then k else FirstHit(perm, x, y, k + 1)
  }

  /// The length of the cycle of `x`: the first step back at `x`.
  function Period(perm: seq<nat>, x: nat): (n: nat)
    requires Injective(perm) && x < 8
    ensures 1 <= n <= 8 && Walk(perm, x, n) == x
    ensures forall k :: 1 <= k < n ==> Walk(perm, x, k) != x
  {
    ReturnExists(perm, x);
    FirstHit(perm, x, x, 1)
  }

  /// Within one period the walk visits different slots.
  lemma PeriodDistinct(perm: seq<nat>, x: nat, a: nat, b: nat)
    requires Injective(perm) && x < 8 && a < b < Period(perm, x)
    ensures Walk(perm, x, a) != Walk(perm, x, b)
  {
    if Walk(perm, x, a) == Walk(perm, x, b) {
      WalkCancel(perm, x, a, b);
      assert false;
    }
  }

  /// Every slot the walk from `x` reaches, however far, is in the orbit.
  lemma {:induction false} OrbitAt(perm: seq<nat>, x: nat, k: nat)
    requires Injective(perm) && x < 8
    ensures Walk(perm, x, k) in Orbit(perm, x)
    decreases k
  {
    if k >= 8 {
      var n := Period(perm, x);
      WalkAdd(perm, x, n, k - n);
      OrbitAt(perm, x, k - n);
    }
  }

  /// The orbit is reached within any return time `m`.
  lemma {:induction false} OrbitWithin(perm: seq<nat>, x: nat, m: nat, y: nat)
    requires Injective(perm) && x < 8 && 1 <= m && Walk(perm, x, m) == x
    requires y in Orbit(perm, x)
    ensures exists k :: 0 <= k < m && Walk(perm, x, k) == y
  {
    var k: nat :| k < 8 && Walk(perm, x, k) == y;
    WithinStep(perm, x, m, k);
  }

  lemma {:induction false} WithinStep(perm: seq<nat>, x: nat, m: nat, k: nat)
    requires Injective(perm) && x < 8 && 1 <= m && Walk(perm, x, m) == x
    ensures exists l :: 0 <= l < m && Walk(perm, x, l) == Walk(perm, x, k)
    decreases k
  {
    if k >= m {
      WalkAdd(perm, x, m, k - m);
      WithinStep(perm, x, m, k - m);
    } else {
      assert Walk(perm, x, k) == Walk(perm, x, k);
    }
  }

  /// Reaching is symmetric: a slot on the cycle of `x` has `x` on its cycle.
  lemma ReachBack(perm: seq<nat>, x: nat, y: nat)
    requires Injective(perm) && x < 8 && y in Orbit(perm, x)
    ensures y < 8 && x in Orbit(perm, y)
  {
    var n := Period(perm, x);
    OrbitWithin(perm, x, n, y);
    var a :| 0 <= a < n && Walk(perm, x, a) == y;
    if a == 0 {
      assert Walk(perm, y, 0) in Orbit(perm, y);
    } else {
      WalkAdd(perm, x, a, n - a);
      assert Walk(perm, y, n - a) in Orbit(perm, y);
    }
  }

  /// Two slots on one cycle have the same orbit.
  lemma OrbitSame(perm: seq<nat>, x: nat, y: nat)
    requires Injective(perm) && x < 8 && y in Orbit(perm, x)
    ensures y < 8 && Orbit(perm, y) == Orbit(perm, x)
  {
    ReachBack(perm, x, y);
    OrbitSubset(perm, x, y);
    OrbitSubset(perm, y, x);
  }

  lemma OrbitSubset(perm: seq<nat>, x: nat, y: nat)
    requires Injective(perm) && x < 8 && y < 8 && y in Orbit(perm, x)
    ensures Orbit(perm, y) <= Orbit(perm, x)
  {
    var a: nat :| a < 8 && Walk(perm, x, a) == y;
    forall z | z in Orbit(perm, y)
      ensures z in Orbit(perm, x)
    {
      var b: nat :| b < 8 && Walk(perm, y, b) == z;
      WalkAdd(perm, x, a, b);
      OrbitAt(perm, x, a + b);
    }
  }

  /// A walk from outside the orbit of `i` never enters it.
  lemma OutsideStaysOutside(perm: seq<nat>, i: nat, x: nat, k: nat)
    requires Injective(perm) && i < 8 && x < 8 && x !in Orbit(perm, i)
    ensures Walk(perm, x, k) !in Orbit(perm, i)
  {
    var w := Walk(perm, x, k);
    OrbitAt(perm, x, k);
    if w in Orbit(perm, i) {
      OrbitSame(perm, x, w);
      OrbitSame(perm, i, w);
      assert Walk(perm, x, 0) == x;
      assert false;
    }
  }

  /// A walk that avoids the exchanged slots is the same before and after.
  lemma {:induction false} SwapOutside(perm: seq<nat>, i: nat, j: nat, x: nat, k: nat)
    requires Injective(perm) && i < 8 && j < 8 && j in Orbit(perm, i) && x < 8 && x !in Orbit(perm, i)
    ensures Walk(Swapped(perm, i, j), x, k) == Walk(perm, x, k)
    decreases k
  {
    if k > 0 {
      SwapOutside(perm, i, j, x, k - 1);
      OutsideStaysOutside(perm, i, x, k - 1);
      assert Walk(perm, i, 0) == i;
    }
  }

  /// The steps of the cycle of `i` at which `j` first appears: `0 < p < n`.
  lemma SplitPoint(perm: seq<nat>, i: nat, j: nat)
    requires Injective(perm) && i < 8 && j < 8 && i != j && j in Orbit(perm, i)
    ensures var p := FirstHit(perm, i, j, 1);
      1 <= p < Period(perm, i) && Walk(perm, i, p) == j
  {
    var n := Period(perm, i);
    OrbitWithin(perm, i, n, j);
    var k :| 0 <= k < n && Walk(perm, i, k) == j;
    assert k != 0;
  }

  /// After exchanging, the walk from `j` runs along the old cycle from
  /// `perm[i]` up to `j`.
  lemma {:induction false} SplitFromJ(perm: seq<nat>, i: nat, j: nat, k: nat)
    requires Injective(perm) && i < 8 && j < 8 && i != j && j in Orbit(perm, i)
    requires 1 <= k <= FirstHit(perm, i, j, 1)
    ensures Walk(Swapped(perm, i, j), j, k) == Walk(perm, i, k)
    decreases k
  {
    SplitPoint(perm, i, j);
    if k > 1 {
      SplitFromJ(perm, i, j, k - 1);
    }
  }

  /// After exchanging, the walk from `i` jumps past `j` and runs along the
  /// rest of the old cycle back to `i`.
  lemma {:induction false} SplitFromI(perm: seq<nat>, i: nat, j: nat, k: nat)
    requires Injective(perm) && i < 8 && j < 8 && i != j && j in Orbit(perm, i)
    requires 1 <= k <= Period(perm, i) - FirstHit(perm, i, j, 1)
    ensures Walk(Swapped(perm, i, j), i, k) == Walk(perm, i, FirstHit(perm, i, j, 1) + k)
    decreases k
  {
    var p := FirstHit(perm, i, j, 1);
    SplitPoint(perm, i, j);
    if k > 1 {
      SplitFromI(perm, i, j, k - 1);
      PeriodDistinct(perm, i, p, p + k - 1);
    }
  }

  /// After exchanging, the orbit of `i` is the rest of the old cycle, from
  /// `i` past `j`: it lies on the old cycle and no longer holds `j`.
  lemma SplitOrbitI(perm: seq<nat>, i: nat, j: nat, y: nat)
    requires Injective(perm) && i < 8 && j < 8 && i != j && j in Orbit(perm, i)
    requires y in Orbit(Swapped(perm, i, j), i)
    ensures y in Orbit(perm, i) && y != j
  {
    var q := Swapped(perm, i, j);
    SwappedInjective(perm, i, j);
    var r := SplitReturnI(perm, i, j);
    OrbitWithin(q, i, r, y);
    var k :| 0 <= k < r && Walk(q, i, k) == y;
    if k > 0 {
      SplitStepI(perm, i, j, k);
    } else {
      assert Walk(perm, i, 0) in Orbit(perm, i);
    }
  }

  /// After exchanging, the walk from `i` is back at `i` once it has run
  /// along the old cycle from `j` on.
  lemma SplitReturnI(perm: seq<nat>, i: nat, j: nat) returns (r: nat)
    requires Injective(perm) && i < 8 && j < 8 && i != j && j in Orbit(perm, i)
    ensures 1 <= r == Period(perm, i) - FirstHit(perm, i, j, 1)
    ensures Walk(Swapped(perm, i, j), i, r) == i
  {
    SplitPoint(perm, i, j);
    r := Period(perm, i) - FirstHit(perm, i, j, 1);
    SplitFromI(perm, i, j, r);
  }

  /// Each slot the new walk from `i` reaches before returning is on the old
  /// cycle and is not `j`.
  lemma SplitStepI(perm: seq<nat>, i: nat, j: nat, k: nat)
    requires Injective(perm) && i < 8 && j < 8 && i != j && j in Orbit(perm, i)
    requires 1 <= k < Period(perm, i) - FirstHit(perm, i, j, 1)
    ensures Walk(Swapped(perm, i, j), i, k) in Orbit(perm, i) && Walk(Swapped(perm, i, j), i, k) != j
  {
    var p := FirstHit(perm, i, j, 1);
    SplitPoint(perm, i, j);
    SplitFromI(perm, i, j, k);
    PeriodDistinct(perm, i, p, p + k);
    assert Walk(perm, i, p + k) in Orbit(perm, i);
  }

  /// After exchanging, the orbit of `j` is the part of the old cycle from
  /// `perm[i]` to `j`.
  lemma SplitOrbitJ(perm: seq<nat>, i: nat, j: nat, y: nat)
    requires Injective(perm) && i < 8 && j < 8 && i != j && j in Orbit(perm, i)
    requires y in Orbit(Swapped(perm, i, j), j)
    ensures y in Orbit(perm, i)
  {
    var q := Swapped(perm, i, j);
    SwappedInjective(perm, i, j);
    var p := FirstHit(perm, i, j, 1);
    SplitPoint(perm, i, j);
    SplitFromJ(perm, i, j, p);
    OrbitWithin(q, j, p, y);
    var k :| 0 <= k < p && Walk(q, j, k) == y;
    if k > 0 {
      SplitFromJ(perm, i, j, k);
      assert Walk(perm, i, k) in Orbit(perm, i);
    }
  }

  /// The two new orbits cover the old cycle.
  lemma SplitCovers(perm: seq<nat>, i: nat, j: nat, y: nat)
    requires Injective(perm) && i < 8 && j < 8 && i != j && j in Orbit(perm, i)
    requires y in Orbit(perm, i)
    ensures y in Orbit(Swapped(perm, i, j), i) || y in Orbit(Swapped(perm, i, j), j)
  {
    var n := Period(perm, i);
    OrbitWithin(perm, i, n, y);
    var m :| 0 <= m < n && Walk(perm, i, m) == y;
    SplitCoversAt(perm, i, j, m);
  }

  lemma SplitCoversAt(perm: seq<nat>, i: nat, j: nat, m: nat)
    requires Injective(perm) && i < 8 && j < 8 && i != j && j in Orbit(perm, i)
    requires m < Period(perm, i)
    ensures Walk(perm, i, m) in Orbit(Swapped(perm, i, j), i) || Walk(perm, i, m) in Orbit(Swapped(perm, i, j), j)
  {
    var q := Swapped(perm, i, j);
    if m == 0 {
      assert Walk(q, i, 0) in Orbit(q, i);
    } else if m <= FirstHit(perm, i, j, 1) {
      CoversFromJ(perm, i, j, m);
    } else {
      CoversFromI(perm, i, j, m);
    }
  }

  /// The old cycle up to `j` is on the new cycle of `j`.
  lemma CoversFromJ(perm: seq<nat>, i: nat, j: nat, m: nat)
    requires Injective(perm) && i < 8 && j < 8 && i != j && j in Orbit(perm, i)
    requires 1 <= m <= FirstHit(perm, i, j, 1)
    ensures Walk(perm, i, m) in Orbit(Swapped(perm, i, j), j)
  {
    var q := Swapped(perm, i, j);
    SplitPoint(perm, i, j);
    SplitFromJ(perm, i, j, m);
    assert Walk(q, j, m) in Orbit(q, j);
  }

  /// The old cycle past `j` is on the new cycle of `i`.
  lemma CoversFromI(perm: seq<nat>, i: nat, j: nat, m: nat)
    requires Injective(perm) && i < 8 && j < 8 && i != j && j in Orbit(perm, i)
    requires FirstHit(perm, i, j, 1) < m < Period(perm, i)
    ensures Walk(perm, i, m) in Orbit(Swapped(perm, i, j), i)
  {
    var q := Swapped(perm, i, j);
    var p := FirstHit(perm, i, j, 1);
    var k := m - p;
    SplitPoint(perm, i, j);
    SplitFromI(perm, i, j, k);
    assert p + k == m;
    InOrbit(q, i, k);
  }

  /// The two new orbits share no slot.
  lemma SplitDisjoint(perm: seq<nat>, i: nat, j: nat, y: nat)
    requires Injective(perm) && i < 8 && j < 8 && i != j && j in Orbit(perm, i)
    requires y in Orbit(Swapped(perm, i, j), i)
    ensures y !in Orbit(Swapped(perm, i, j), j)
  {
    var q := Swapped(perm, i, j);
    SwappedInjective(perm, i, j);
    assert Walk(q, j, 0) in Orbit(q, j);
    if y in Orbit(q, j) {
      OrbitSame(q, i, y);
      OrbitSame(q, j, y);
      SplitOrbitI(perm, i, j, j);
      assert false;
    }
  }

  /// A non-empty set of slots has a smallest one.
  lemma {:induction false} SetMin(s: set<nat>) returns (m: nat)
    requires s != {}
    ensures m in s && forall y :: y in s ==> m <= y
    decreases |s|
  {
    var x :| x in s;
    if s == {x} {
      m := x;
    } else {
      var m' := SetMin(s - {x});
      m := if x < m' then x else m';
      forall y | y in s
        ensures m <= y
      {
        if y != x {
          assert y in s - {x};
        }
      }
    }
  }

  /// Off the split cycle, walks and so leaders are unchanged.
  lemma SplitLeaderOutside(perm: seq<nat>, i: nat, j: nat, x: nat)
    requires Injective(perm) && i < 8 && j < 8 && i != j && j in Orbit(perm, i) && x < 8
    requires x !in Orbit(perm, i)
    ensures CycleLeader(Swapped(perm, i, j), x) <==> CycleLeader(perm, x)
  {
    forall k: nat | k < 8
      ensures Walk(Swapped(perm, i, j), x, k) == Walk(perm, x, k)
    {
      SwapOutside(perm, i, j, x, k);
    }
  }

  /// On the split cycle, the old leader is the smaller of the two new
  /// smallest slots `a` and `b`, and the new leaders are `a` and `b`.
  lemma SplitLeaderInside(perm: seq<nat>, i: nat, j: nat, a: nat, b: nat, x: nat)
    requires Injective(perm) && i < 8 && j < 8 && i != j && j in Orbit(perm, i) && x < 8
    requires x in Orbit(perm, i)
    requires var q := Swapped(perm, i, j);
      a in Orbit(q, i) && (forall y :: y in Orbit(q, i) ==> a <= y) &&
      b in Orbit(q, j) && (forall y :: y in Orbit(q, j) ==> b <= y)
    ensures CycleLeader(perm, x) <==> x == (if a < b then a else b)
    ensures CycleLeader(Swapped(perm, i, j), x) <==> x == a || x == b
  {
    var q := Swapped(perm, i, j);
    SwappedInjective(perm, i, j);
    LeaderOrbit(perm, x);
    LeaderOrbit(q, x);
    OrbitSame(perm, i, x);
    SplitOrbitI(perm, i, j, a);
    SplitOrbitJ(perm, i, j, b);
    forall y | y in Orbit(perm, i)
      ensures (if a < b then a else b) <= y
    {
      SplitCovers(perm, i, j, y);
    }
    SplitCovers(perm, i, j, x);
    if x in Orbit(q, i) {
      OrbitSame(q, i, x);
      SplitDisjoint(perm, i, j, x);
      SplitDisjoint(perm, i, j, a);
    } else {
      OrbitSame(q, j, x);
      SplitDisjoint(perm, i, j, a);
    }
  }

  /// Exchanging two slots of one cycle makes one swap fewer.
  lemma SplitCount(perm: seq<nat>, i: nat, j: nat)
    requires Injective(perm) && i < 8 && j < 8 && i != j && j in Orbit(perm, i)
    ensures |NonLeaders(Swapped(perm, i, j), SLOTS)| + 1 == |NonLeaders(perm, SLOTS)|
  {
    var q := Swapped(perm, i, j);
    var z := NewLeader(perm, i, j);
    assert NonLeaders(perm, SLOTS) == NonLeaders(q, SLOTS) + {z};
    assert z !in NonLeaders(q, SLOTS);
  }

  /// The slot that starts to lead when the cycle of `i` and `j` splits:
  /// the larger of the smallest slots of the two new cycles. Every other
  /// slot leads after the exchange exactly when it led before.
  lemma NewLeader(perm: seq<nat>, i: nat, j: nat) returns (z: nat)
    requires Injective(perm) && i < 8 && j < 8 && i != j && j in Orbit(perm, i)
    ensures z < 8 && CycleLeader(Swapped(perm, i, j), z) && !CycleLeader(perm, z)
    ensures forall x :: 0 <= x < 8 && x != z ==> (CycleLeader(Swapped(perm, i, j), x) <==> CycleLeader(perm, x))
  {
    var q := Swapped(perm, i, j);
    assert Walk(q, i, 0) in Orbit(q, i) && Walk(q, j, 0) in Orbit(q, j);
    var a := SetMin(Orbit(q, i));
    var b := SetMin(Orbit(q, j));
    SplitDisjoint(perm, i, j, a);
    SplitOrbitI(perm, i, j, a);
    SplitOrbitJ(perm, i, j, b);
    z := if a < b then b else a;
    SplitLeaderInside(perm, i, j, a, b, z);
    forall x | 0 <= x < 8 && x != z
      ensures CycleLeader(q, x) <==> CycleLeader(perm, x)
    {
      SplitLeaderAt(perm, i, j, a, b, x);
    }
  }

  lemma SplitLeaderAt(perm: seq<nat>, i: nat, j: nat, a: nat, b: nat, x: nat)
    requires Injective(perm) && i < 8 && j < 8 && i != j && j in Orbit(perm, i) && x < 8
    requires var q := Swapped(perm, i, j);
      a in Orbit(q, i) && (forall y :: y in Orbit(q, i) ==> a <= y) &&
      b in Orbit(q, j) && (forall y :: y in Orbit(q, j) ==> b <= y)
    requires x != (if a < b then b else a)
    ensures CycleLeader(Swapped(perm, i, j), x) <==> CycleLeader(perm, x)
  {
    if x in Orbit(perm, i) {
      SplitLeaderInside(perm, i, j, a, b, x);
    } else {
      SplitLeaderOutside(perm, i, j, x);
    }
  }

  /// Exchanging slots of two different cycles joins them: afterwards `j` is
  /// on the cycle of `i`.
  lemma MergeOrbits(perm: seq<nat>, i: nat, j: nat)
    requires Injective(perm) && i < 8 && j < 8 && j !in Orbit(perm, i)
    ensures j in Orbit(Swapped(perm, i, j), i)
  {
    var q := Swapped(perm, i, j);
    SwappedInjective(perm, i, j);
    var n := Period(perm, j);
    MergeWalk(perm, i, j, n);
    OrbitAt(q, i, n);
  }

  lemma {:induction false} MergeWalk(perm: seq<nat>, i: nat, j: nat, k: nat)
    requires Injective(perm) && i < 8 && j < 8 && j !in Orbit(perm, i)
    requires 1 <= k <= Period(perm, j)
    ensures Walk(Swapped(perm, i, j), i, k) == Walk(perm, j, k)
    decreases k
  {
    assert Walk(perm, i, 0) == i;
    if k > 1 {
      MergeWalk(perm, i, j, k - 1);
      OrbitAt(perm, j, k - 1);
      if Walk(perm, j, k - 1) == i {
        ReachBack(perm, j, i);
        assert false;
      }
    }
  }

  /// Exchanging two different slots changes the number of swaps by one:
  /// one fewer when they lie on one cycle (it splits), one more otherwise
  /// (two cycles join).
  lemma SwapChangesCount(perm: seq<nat>, i: nat, j: nat)
    requires Injective(perm) && i < 8 && j < 8 && i != j
    ensures Injective(Swapped(perm, i, j))
    ensures |NonLeaders(Swapped(perm, i, j), SLOTS)| ==
      if j in Orbit(perm, i) then |NonLeaders(perm, SLOTS)| - 1 else |NonLeaders(perm, SLOTS)| + 1
  {
    SwappedInjective(perm, i, j);
    if j in Orbit(perm, i) {
      SplitCount(perm, i, j);
    } else {
      MergeOrbits(perm, i, j);
      SplitCount(Swapped(perm, i, j), i, j);
    }
  }
}
