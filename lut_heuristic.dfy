/// The lookup-table heuristic of `norcina-cube3/src/search/lut_heuristic.rs`:
/// the eight corners are ranked into one number and each half of the twelve
/// edges into another.  Each piece's slot is written as its choice among the
/// slots still free, in the mixed radix n, n - 1, ... with the first piece
/// least significant, and the orientations sit below it in a fixed base.
module LutHeuristic {
  import opened Types
  import opened CoreMath
  import opened Coordinates
  import CubeMath
  import CubeCorners
  import CubeEdges
  import PruneTable

  type Corner = CubeCorners.Corner
  type Edge = CubeEdges.Edge

  // ---- Free slots ----

  predicate Distinct(s: seq<nat>) {
    forall j, k :: 0 <= j < k < |s| ==> s[j] != s[k]
  }

  predicate Below(s: seq<nat>, n: nat) {
    forall k :: 0 <= k < |s| ==> s[k] < n
  }

  /// The slots below `v` that `used` does not hold, in increasing order.
  function Free(used: seq<nat>, v: nat): (fs: seq<nat>)
    ensures |fs| <= v
    ensures forall k :: 0 <= k < |fs| ==> fs[k] < v && fs[k] !in used
  {
    if v == 0 then [] else Free(used, v - 1) + (if v - 1 in used then [] else [v - 1])
  }

  /// The free slots below `v` begin the free slots below any `n >= v`.
  lemma {:induction false} FreePrefix(used: seq<nat>, v: nat, n: nat)
    requires v <= n
    ensures Free(used, v) <= Free(used, n)
    decreases n - v
  {
    if v < n {
      FreePrefix(used, v, n - 1);
      assert Free(used, n - 1) <= Free(used, n);
    }
  }

  /// A free slot `v` is the free slot numbered by how many free slots lie
  /// below it.
  lemma FreeAt(used: seq<nat>, v: nat, n: nat)
    requires v < n && v !in used
    ensures |Free(used, v)| < |Free(used, n)|
    ensures Free(used, n)[|Free(used, v)|] == v
  {
    assert Free(used, v + 1) == Free(used, v) + [v];
    FreePrefix(used, v + 1, n);
  }

  /// Exactly `c` free slots lie below the free slot numbered `c`.
  lemma {:induction false} FreeIndexOf(used: seq<nat>, c: nat, n: nat)
    requires c < |Free(used, n)|
    ensures |Free(used, Free(used, n)[c])| == c
  {
    var f := Free(used, n - 1);
    if c < |f| {
      assert Free(used, n)[c] == f[c];
      FreeIndexOf(used, c, n - 1);
    } else {
      assert Free(used, n)[c] == n - 1;
    }
  }

  /// Taking one more slot `x` frees one slot fewer below `v` when `x` was
  /// free and below `v`.
  lemma {:induction false} FreeSnoc(used: seq<nat>, x: nat, v: nat)
    ensures |Free(used + [x], v)| + (if x < v && x !in used then 1 else 0) == |Free(used, v)|
  {
    if v > 0 {
      FreeSnoc(used, x, v - 1);
      assert (v - 1 in used + [x]) <==> (v - 1 in used || v - 1 == x);
    }
  }

  /// `k` distinct slots below `n` leave `n - k` free.
  lemma {:induction false} FreeCount(used: seq<nat>, n: nat)
    requires Distinct(used) && Below(used, n)
    ensures |Free(used, n)| + |used| == n
  {
    if used != [] {
      var init, x := used[..|used| - 1], used[|used| - 1];
      assert used == init + [x];
      forall j | 0 <= j < |init| ensures init[j] != x {
        assert init[j] == used[j];
      }
      assert x !in init;
      FreeCount(init, n);
      FreeSnoc(init, x, n);
    } else {
      FreeAll(n);
    }
  }

  /// With nothing taken, every slot below `v` is free.
  lemma {:induction false} FreeAll(v: nat)
    ensures |Free([], v)| == v
  {
    if v > 0 {
      FreeAll(v - 1);
    }
  }

  /// When every slot below `v` is taken, none is free.
  lemma {:induction false} FreeNone(used: seq<nat>, v: nat)
    requires forall u :: 0 <= u < v ==> u in used
    ensures Free(used, v) == []
  {
    if v > 0 {
      FreeNone(used, v - 1);
    }
  }

  // ---- Choices among the free slots ----

  /// Digits whose radices are n, n - 1, ...
  predicate InRadix(ds: seq<nat>, n: nat) {
    |ds| <= n && forall k :: 0 <= k < |ds| ==> ds[k] < n - k
  }

  /// The choice each slot of `s` makes: how many slots below it are still
  /// free when it is taken.  The source counts the taken slots below it and
  /// subtracts.
  function FreeDigits(s: seq<nat>): (ds: seq<nat>)
    ensures |ds| == |s|
  {
    seq(|s|, i requires 0 <= i < |s| => |Free(s[..i], s[i])|)
  }

  lemma FreeDigitsSnoc(s: seq<nat>, x: nat)
    ensures FreeDigits(s + [x]) == FreeDigits(s) + [|Free(s, x)|]
  {
    var t := s + [x];
    assert t[..|s|] == s;
    forall i | 0 <= i < |s| ensures FreeDigits(t)[i] == FreeDigits(s)[i] {
      assert t[..i] == s[..i];
    }
  }

  /// Distinct slots below `n` choose within the radices n, n - 1, ...
  lemma FreeDigitsInRadix(s: seq<nat>, n: nat)
    requires Distinct(s) && Below(s, n)
    ensures InRadix(FreeDigits(s), n)
  {
    FreeCount(s, n);
    forall k | 0 <= k < |s| ensures FreeDigits(s)[k] < n - k {
      var p := s[..k];
      assert Distinct(p) && Below(p, n);
      FreeCount(p, n);
      FreeAt(p, s[k], n);
    }
  }

  /// The slots the choice digits `ds` pick: digit `i` takes the `ds[i]`-th
  /// slot still free among 0 .. n - 1.
  function Arrange(ds: seq<nat>, n: nat): (s: seq<nat>)
    requires InRadix(ds, n)
    ensures |s| == |ds| && Distinct(s) && Below(s, n)
  {
    if ds == [] then []
    else
      var init := ds[..|ds| - 1];
      assert InRadix(init, n);
      var s := Arrange(init, n);
      FreeCount(s, n);
      s + [Free(s, n)[ds[|ds| - 1]]]
  }

  /// Arranging one more choice appends the slot it picks among the free.
  lemma ArrangeStep(ds: seq<nat>, i: nat, n: nat)
    requires i < |ds| && InRadix(ds, n)
    ensures InRadix(ds[..i], n) && InRadix(ds[..i + 1], n)
    ensures ds[i] < |Free(Arrange(ds[..i], n), n)|
    ensures Arrange(ds[..i + 1], n) == Arrange(ds[..i], n) + [Free(Arrange(ds[..i], n), n)[ds[i]]]
  {
    assert ds[..i + 1][..i] == ds[..i];
    FreeCount(Arrange(ds[..i], n), n);
  }

  /// Arranging the choices of distinct slots gives back the slots.
  lemma {:induction false} ArrangeFreeDigits(s: seq<nat>, n: nat)
    requires Distinct(s) && Below(s, n)
    ensures InRadix(FreeDigits(s), n)
    ensures Arrange(FreeDigits(s), n) == s
  {
    FreeDigitsInRadix(s, n);
    if s != [] {
      var t, x := s[..|s| - 1], s[|s| - 1];
      assert s == t + [x];
      assert Distinct(t) && Below(t, n);
      FreeDigitsSnoc(t, x);
      ArrangeFreeDigits(t, n);
      var ds := FreeDigits(s);
      assert ds[..|ds| - 1] == FreeDigits(t);
      FreeAt(t, x, n);
    }
  }

  /// The choices of arranged slots are the digits that arranged them.
  lemma {:induction false} FreeDigitsArrange(ds: seq<nat>, n: nat)
    requires InRadix(ds, n)
    ensures FreeDigits(Arrange(ds, n)) == ds
  {
    if ds != [] {
      var init, c := ds[..|ds| - 1], ds[|ds| - 1];
      assert InRadix(init, n);
      var t := Arrange(init, n);
      FreeDigitsArrange(init, n);
      FreeCount(t, n);
      FreeDigitsSnoc(t, Free(t, n)[c]);
      FreeIndexOf(t, c, n);
      assert ds == init + [c];
    }
  }

  // ---- The mixed radix n, n - 1, ..., least significant first ----

  /// The value of `ds` when digit `i` counts in units of
  /// n (n - 1) ... (n - i + 1).
  function FallingValue(ds: seq<nat>, n: nat): nat
    requires |ds| <= n
  {
    if ds == [] then 0 else ds[0] + n * FallingValue(ds[1..], n - 1)
  }

  /// The first `m` digits of `p` in the radices n, n - 1, ...
  function FallingDigits(p: nat, n: nat, m: nat): (ds: seq<nat>)
    requires m <= n
    ensures |ds| == m && InRadix(ds, n)
    decreases m
  {
    if m == 0 then [] else [p % n] + FallingDigits(p / n, n - 1, m - 1)
  }

  /// The digits in front of the first, which count in the radices from
  /// n - 1 down.
  lemma InRadixTail(ds: seq<nat>, n: nat)
    requires ds != [] && InRadix(ds, n)
    ensures InRadix(ds[1..], n - 1)
  {
    forall k | 0 <= k < |ds| - 1 ensures ds[1..][k] < n - 1 - k {
      assert ds[1..][k] == ds[k + 1];
    }
  }

  /// A value with one more digit in front: `d + n v < n f` when `d < n` and
  /// `v < f`.
  lemma LowDigitBelow(d: nat, n: nat, v: nat, f: nat)
    requires d < n && v < f
    ensures d + n * v < n * f
  {
    assert n * (v + 1) <= n * f;
  }

  /// Digits within their radices give a value below n (n - 1) ... (n - m + 1).
  lemma {:induction false} FallingValueBound(ds: seq<nat>, n: nat)
    requires InRadix(ds, n)
    ensures FallingValue(ds, n) < Falling(n, |ds|)
  {
    if ds != [] {
      InRadixTail(ds, n);
      FallingValueBound(ds[1..], n - 1);
      LowDigitBelow(ds[0], n, FallingValue(ds[1..], n - 1), Falling(n - 1, |ds| - 1));
    }
  }

  /// The quotient and the remainder of `d * q + r` by `d`.
  lemma DivUnique(p: int, d: int, q: int, r: int)
    requires d > 0 && 0 <= r < d && p == d * q + r
    ensures p / d == q && p % d == r
  {
    var x := q - p / d;
    assert d * x == p % d - r;
    SignedMultiple(x, d);
  }

  /// Below `n f`, the quotient by `n` is below `f`.
  lemma QuotientBelow(p: nat, n: nat, f: nat)
    requires n > 0 && p < n * f
    ensures p / n < f && p == n * (p / n) + p % n
  {
  }

  /// Dividing twice is dividing by the product.
  lemma DivDiv(p: nat, a: nat, b: nat)
    requires a > 0 && b > 0
    ensures (p / a) / b == p / (a * b) == p / (b * a)
  {
    var q1, r1 := p / a, p % a;
    var q2, r2 := q1 / b, q1 % b;
    Regroup(p, a, b, q1, r1, q2, r2);
    DivUnique(p, a * b, q2, a * r2 + r1);
  }

  /// `p = a q1 + r1` and `q1 = b q2 + r2` with remainders in range give
  /// `p = (a b) q2 + (a r2 + r1)` with the new remainder below `a b`.
  lemma Regroup(p: int, a: int, b: int, q1: int, r1: int, q2: int, r2: int)
    requires a > 0 && b > 0 && 0 <= r1 < a && 0 <= r2 < b
    requires p == a * q1 + r1 && q1 == b * q2 + r2
    ensures p == (a * b) * q2 + (a * r2 + r1) && 0 <= a * r2 + r1 < a * b
  {
    Distribute(a, b * q2, r2);
    CoreMath.Associate(a, b, q2);
    Below1(a, r2, b);
  }

  /// `a (x + y) = a x + a y`.
  lemma Distribute(a: int, x: int, y: int)
    ensures a * (x + y) == a * x + a * y
  {
  }

  /// A digit below `b` scaled by `a`, plus something below `a`, stays
  /// below `a b`.
  lemma Below1(a: int, r: int, b: int)
    requires a > 0 && 0 <= r < b
    ensures a * r <= a * b - a
  {
    Distribute(a, r, b - 1 - r);
    assert a * (b - 1 - r) >= 0;
    Distribute(a, b, -1);
  }

  /// Dividing by `n` and then by the product of the next radices is
  /// dividing by the product of the radices from `n`.
  lemma FallingQuotient(p: nat, n: nat, i: nat)
    requires 0 < i <= n
    ensures Falling(n - 1, i - 1) > 0
    ensures (p / n) / Falling(n - 1, i - 1) == p / Falling(n, i)
  {
    FallingPositive(n - 1, i - 1);
    DivDiv(p, n, Falling(n - 1, i - 1));
  }

  /// Dividing by `b` and then by `b^(i - 1)` is dividing by `b^i`.
  lemma PowQuotient(x: nat, b: nat, i: nat)
    requires b > 0 && i > 0
    ensures Pow(b, i - 1) > 0
    ensures (x / b) / Pow(b, i - 1) == x / Pow(b, i)
  {
    DivDiv(x, b, Pow(b, i - 1));
  }

  /// Reading the digits of a value gives back the digits.
  lemma {:induction false} FallingDigitsOfValue(ds: seq<nat>, n: nat)
    requires InRadix(ds, n)
    ensures FallingDigits(FallingValue(ds, n), n, |ds|) == ds
  {
    if ds != [] {
      InRadixTail(ds, n);
      var v := FallingValue(ds[1..], n - 1);
      DivUnique(FallingValue(ds, n), n, v, ds[0]);
      FallingDigitsOfValue(ds[1..], n - 1);
      assert ds == [ds[0]] + ds[1..];
    }
  }

  /// Below the product of the radices, the digits of a value give back the
  /// value.
  lemma {:induction false} FallingValueOfDigits(p: nat, n: nat, m: nat)
    requires m <= n && p < Falling(n, m)
    ensures FallingValue(FallingDigits(p, n, m), n) == p
    decreases m
  {
    if m > 0 {
      var ds := FallingDigits(p, n, m);
      var q, r := p / n, p % n;
      assert ds[1..] == FallingDigits(q, n - 1, m - 1);
      QuotientBelow(p, n, Falling(n - 1, m - 1));
      FallingValueOfDigits(q, n - 1, m - 1);
    }
  }

  /// Digit `i` is the quotient by the product of the earlier radices,
  /// reduced modulo its own radix: how the source reads it.
  lemma {:induction false} FallingDigitAt(p: nat, n: nat, m: nat, i: nat)
    requires i < m <= n
    ensures Falling(n, i) > 0
    ensures FallingDigits(p, n, m)[i] == (p / Falling(n, i)) % (n - i)
    decreases i
  {
    FallingPositive(n, i);
    if i > 0 {
      var q := p / n;
      FallingDigitAt(q, n - 1, m - 1, i - 1);
      assert FallingDigits(p, n, m)[i] == FallingDigits(q, n - 1, m - 1)[i - 1];
      FallingQuotient(p, n, i);
    }
  }

  /// The product of the radices n, n - 1, ..., n - i + 1 is positive.
  lemma {:induction false} FallingPositive(n: nat, i: nat)
    requires i <= n
    ensures Falling(n, i) > 0
  {
    if i > 0 {
      FallingPositive(n - 1, i - 1);
    }
  }

  /// One more digit at the top, as the source's loop adds it.
  lemma {:induction false} FallingSnoc(ds: seq<nat>, n: nat, i: nat)
    requires i < |ds| <= n
    ensures FallingValue(ds[..i + 1], n) == FallingValue(ds[..i], n) + ds[i] * Falling(n, i)
  {
    if i > 0 {
      FallingSnoc(ds[1..], n - 1, i - 1);
      assert ds[..i + 1][1..] == ds[1..][..i];
      assert ds[..i][1..] == ds[1..][..i - 1];
      var a, b := FallingValue(ds[1..][..i - 1], n - 1), ds[i] * Falling(n - 1, i - 1);
      Distribute(n, a, b);
      Swap(n, ds[i], Falling(n - 1, i - 1));
    }
  }

  /// `n (d f) = d (n f)`.
  lemma Swap(n: int, d: int, f: int)
    ensures n * (d * f) == d * (n * f)
  {
    CoreMath.Associate(n, d, f);
    CoreMath.Associate(d, n, f);
  }

  // ---- A fixed base, least significant first ----

  /// The value of `ds` when digit `i` counts in units of `b^i`.
  function BaseValue(ds: seq<nat>, b: nat): nat {
    if ds == [] then 0 else ds[0] + b * BaseValue(ds[1..], b)
  }

  /// The first `m` digits of `x` in base `b`.
  function BaseDigits(x: nat, b: nat, m: nat): (ds: seq<nat>)
    requires b > 0
    ensures |ds| == m && forall k :: 0 <= k < m ==> ds[k] < b
    decreases m
  {
    if m == 0 then [] else [x % b] + BaseDigits(x / b, b, m - 1)
  }

  /// Digits below `b` give a value below `b^|ds|`.
  lemma {:induction false} BaseValueBound(ds: seq<nat>, b: nat)
    requires forall k :: 0 <= k < |ds| ==> ds[k] < b
    ensures BaseValue(ds, b) < Pow(b, |ds|)
  {
    if ds != [] {
      BaseValueBound(ds[1..], b);
      LowDigitBelow(ds[0], b, BaseValue(ds[1..], b), Pow(b, |ds| - 1));
    }
  }

  /// Reading the digits of a value gives back the digits.
  lemma {:induction false} BaseDigitsOfValue(ds: seq<nat>, b: nat)
    requires b > 0 && forall k :: 0 <= k < |ds| ==> ds[k] < b
    ensures BaseDigits(BaseValue(ds, b), b, |ds|) == ds
  {
    if ds != [] {
      var v := BaseValue(ds[1..], b);
      DivUnique(BaseValue(ds, b), b, v, ds[0]);
      BaseDigitsOfValue(ds[1..], b);
      assert ds == [ds[0]] + ds[1..];
    }
  }

  /// Below `b^m`, the digits of a value give back the value.
  lemma {:induction false} BaseValueOfDigits(x: nat, b: nat, m: nat)
    requires b > 0 && x < Pow(b, m)
    ensures BaseValue(BaseDigits(x, b, m), b) == x
    decreases m
  {
    if m > 0 {
      var ds := BaseDigits(x, b, m);
      var q, r := x / b, x % b;
      assert ds[1..] == BaseDigits(q, b, m - 1);
      QuotientBelow(x, b, Pow(b, m - 1));
      BaseValueOfDigits(q, b, m - 1);
    }
  }

  /// Digit `i` is `x / b^i % b`, how the source reads it.
  lemma {:induction false} BaseDigitAt(x: nat, b: nat, m: nat, i: nat)
    requires b > 0 && i < m
    ensures BaseDigits(x, b, m)[i] == (x / Pow(b, i)) % b
    decreases i
  {
    if i > 0 {
      var q := x / b;
      BaseDigitAt(q, b, m - 1, i - 1);
      assert BaseDigits(x, b, m)[i] == BaseDigits(q, b, m - 1)[i - 1];
      PowQuotient(x, b, i);
    }
  }

  /// One more digit at the top, as the source's sum adds it.
  lemma {:induction false} BaseSnoc(ds: seq<nat>, b: nat, i: nat)
    requires i < |ds|
    ensures BaseValue(ds[..i + 1], b) == BaseValue(ds[..i], b) + Pow(b, i) * ds[i]
  {
    if i > 0 {
      BaseSnoc(ds[1..], b, i - 1);
      assert ds[..i + 1][1..] == ds[1..][..i];
      assert ds[..i][1..] == ds[1..][..i - 1];
      var a, c := BaseValue(ds[1..][..i - 1], b), Pow(b, i - 1) * ds[i];
      assert b * (a + c) == b * a + b * c;
      assert b * c == Pow(b, i) * ds[i];
    }
  }

  // ---- The loops shared by corners and edges ----

  /// `used_slots.iter().take(index).filter(|u| u).count()`.
  method CountChosen(usedSlots: array<bool>, index: nat) returns (count: nat)
    requires index <= usedSlots.Length
    ensures count == CountTrue(usedSlots[..index])
  {
    count := 0;
    var j := 0;
    while j < index
      invariant j <= index
      invariant count == CountTrue(usedSlots[..j])
    {
      assert usedSlots[..j + 1][..j] == usedSlots[..j];
      if usedSlots[j] {
        count := count + 1;
      }
      j := j + 1;
    }
  }

  /// Below `v`, the taken slots and the free slots add up to `v`.
  lemma {:induction false} TakenAndFree(flags: seq<bool>, used: seq<nat>, v: nat)
    requires v <= |flags|
    requires forall j :: 0 <= j < |flags| ==> (flags[j] <==> j in used)
    ensures CountTrue(flags[..v]) + |Free(used, v)| == v
  {
    if v > 0 {
      assert flags[..v][..v - 1] == flags[..v - 1];
      TakenAndFree(flags, used, v - 1);
    }
  }

  /// The permutation half of `index_corners` and of `index_edges`: each
  /// slot's choice among the free slots, in units of the product of the
  /// earlier radices.  The source checks that no slot repeats only in debug
  /// builds; the loop itself accepts any slots.
  method PermutationIndex(slots: seq<nat>, n: nat) returns (out: nat)
    requires |slots| <= n && Below(slots, n)
    ensures out == FallingValue(FreeDigits(slots), n)
  {
    ghost var ds := FreeDigits(slots);
    var usedSlots := new bool[n](j => false);
    var modulo: nat := 1;
    out := 0;
    var i := 0;
    while i < |slots|
      invariant 0 <= i <= |slots|
      invariant modulo == Falling(n, i)
      invariant out == FallingValue(ds[..i], n)
      invariant forall j :: 0 <= j < n ==> (usedSlots[j] <==> j in slots[..i])
    {
      var index := slots[i];
      var chosenBefore := CountChosen(usedSlots, index);
      TakenAndFree(usedSlots[..], slots[..i], index);
      var choice := index - chosenBefore;
      FallingSnoc(ds, n, i);
      out := out + choice * modulo;
      var numberOfChoices := n - i;
      FallingStep(n, i);
      modulo := modulo * numberOfChoices;
      usedSlots[index] := true;
      assert slots[..i + 1] == slots[..i] + [index];
      i := i + 1;
    }
    assert ds[..|slots|] == ds;
  }

  /// The orientation half: digit `i` in units of `b^i`, summed.
  method OrientationIndex(digits: seq<nat>, b: nat) returns (out: nat)
    ensures out == BaseValue(digits, b)
  {
    out := 0;
    var i := 0;
    while i < |digits|
      invariant 0 <= i <= |digits|
      invariant out == BaseValue(digits[..i], b)
    {
      BaseSnoc(digits, b, i);
      out := out + Pow(b, i) * digits[i];
      i := i + 1;
    }
    assert digits[..|digits|] == digits;
  }

  /// The body of the second `map` of `indices_from_permutation_index`: the
  /// `choice`-th slot not yet chosen, which it then marks chosen.  The
  /// source's `unreachable!()` after the loop is unreachable: the caller's
  /// choice is always below the number of free slots.
  method TakeUnchosen(chosenList: array<bool>, ghost used: seq<nat>, choice: nat) returns (slot: nat)
    requires forall j :: 0 <= j < chosenList.Length ==> (chosenList[j] <==> j in used)
    requires choice < |Free(used, chosenList.Length)|
    modifies chosenList
    ensures slot == Free(used, chosenList.Length)[choice]
    ensures forall j :: 0 <= j < chosenList.Length ==> (chosenList[j] <==> j in used + [slot])
  {
    var n := chosenList.Length;
    var unchosenIndex := 0;
    var chosenIndex := 0;
    while chosenIndex < n
      invariant chosenIndex <= n
      invariant unchosenIndex == |Free(used, chosenIndex)| <= choice
      invariant forall j :: 0 <= j < n ==> (chosenList[j] <==> j in used)
    {
      if chosenList[chosenIndex] {
        chosenIndex := chosenIndex + 1;
        continue;
      }
      if unchosenIndex == choice {
        chosenList[chosenIndex] := true;
        FreeAt(used, chosenIndex, n);
        return chosenIndex;
      }
      unchosenIndex := unchosenIndex + 1;
      chosenIndex := chosenIndex + 1;
    }
    assert false;
  }

  /// The running modulus after one more radix.
  lemma NextModulo(modulo: nat, n: nat, i: nat)
    requires i < n && modulo == Falling(n, i)
    ensures modulo * (n - i) == Falling(n, i + 1)
  {
    FallingStep(n, i);
  }

  /// `indices_from_permutation_index::<m, n>`: the `m` slots whose choices
  /// are the digits of `permutationIndex` in the radices n, n - 1, ...
  method IndicesFromPermutationIndex(permutationIndex: nat, m: nat, n: nat) returns (slots: seq<nat>)
    requires m <= n
    ensures slots == Arrange(FallingDigits(permutationIndex, n, m), n)
  {
    ghost var ds := FallingDigits(permutationIndex, n, m);
    var modulo: nat := 1;
    var chosenList := new bool[n](j => false);
    slots := [];
    var i := 0;
    while i < m
      invariant 0 <= i <= m
      invariant modulo == Falling(n, i)
      invariant InRadix(ds[..i], n) && slots == Arrange(ds[..i], n)
      invariant forall j :: 0 <= j < n ==> (chosenList[j] <==> j in slots)
    {
      var numberOfChoices := n - i;
      FallingDigitAt(permutationIndex, n, m, i);
      var choice := (permutationIndex / modulo) % numberOfChoices;
      NextModulo(modulo, n, i);
      modulo := modulo * numberOfChoices;
      ArrangeStep(ds, i, n);
      var slot := TakeUnchosen(chosenList, slots, choice);
      slots := slots + [slot];
      i := i + 1;
    }
    assert ds[..m] == ds;
  }

  // ---- Corners ----

  /// `3u32.pow(7)`, `fac(8)` and their product.
  const CORNER_ORIENTATIONS: nat := 2187
  const CORNER_PERMUTATIONS: nat := 40320
  const CORNER_STATES: nat := 88179840

  lemma CornerConstants()
    ensures CORNER_ORIENTATIONS == Pow(3, 7)
    ensures CORNER_PERMUTATIONS == Fac(8) == Falling(8, 8)
    ensures CORNER_STATES == CORNER_ORIENTATIONS * CORNER_PERMUTATIONS
  {
    FallingFac(8, 8);
  }

  /// The number `index_corners` gives a set of corners: the twists of the
  /// first seven in base 3, plus 3^7 times the permutation index.
  function CornerIndex(corners: seq<Corner>): nat
    requires |corners| == 8
  {
    BaseValue(PruneTable.CornerTwists(corners)[..7], 3)
      + CORNER_ORIENTATIONS * FallingValue(FreeDigits(PruneTable.CornerPositions(corners)), 8)
  }

  /// `index_corners`.
  method IndexCorners(corners: seq<Corner>) returns (index: nat)
    requires |corners| == 8
    ensures index == CornerIndex(corners)
  {
    var permutationIndex := PermutationIndex(PruneTable.CornerPositions(corners), 8);
    var orientationIndex := OrientationIndex(PruneTable.CornerTwists(corners)[..7], 3);
    index := orientationIndex + CORNER_ORIENTATIONS * permutationIndex;
  }

  /// The doc comment's bound: every set of corners in distinct slots gets a
  /// number below 8! 3^7.
  lemma CornerIndexBound(corners: seq<Corner>)
    requires |corners| == 8 && Distinct(PruneTable.CornerPositions(corners))
    ensures CornerIndex(corners) < CORNER_STATES
  {
    CornerConstants();
    var ps := PruneTable.CornerPositions(corners);
    FreeDigitsInRadix(ps, 8);
    FallingValueBound(FreeDigits(ps), 8);
    var ts := PruneTable.CornerTwists(corners)[..7];
    BaseValueBound(ts, 3);
    LowDigitBelow(BaseValue(ts, 3), CORNER_ORIENTATIONS, FallingValue(FreeDigits(ps), 8), CORNER_PERMUTATIONS);
  }

  /// `3 - (sum % 3)`, reduced modulo 3, completes the sum to a multiple of 3.
  lemma CompleteTwist(s: nat)
    ensures (s + (3 - s % 3) % 3) % 3 == 0
  {
  }

  /// A sequence's sum: one more element.
  lemma SumSnoc(ds: seq<nat>, i: nat)
    requires i < |ds|
    ensures Sum(ds[..i + 1]) == Sum(ds[..i]) + ds[i]
  {
    assert ds[..i + 1][..i] == ds[..i];
  }

  /// `corners_from_index`: the slots are decoded from `index / 3^7`, the
  /// first seven twists are the base-3 digits of `index % 3^7`, and the
  /// last twist makes all eight add up to a multiple of 3.
  method CornersFromIndex(index: nat) returns (corners: seq<Corner>)
    ensures |corners| == 8
    ensures PruneTable.CornerPositions(corners) == Arrange(FallingDigits(index / CORNER_ORIENTATIONS, 8, 8), 8)
    ensures PruneTable.CornerTwists(corners)[..7] == BaseDigits(index % CORNER_ORIENTATIONS, 3, 7)
    ensures Sum(PruneTable.CornerTwists(corners)) % 3 == 0
  {
    var permutationIndex := index / CORNER_ORIENTATIONS;
    var orientationIndex := index % CORNER_ORIENTATIONS;
    var slots := IndicesFromPermutationIndex(permutationIndex, 8, 8);
    corners := PlaceCorners(slots, orientationIndex);
  }

  /// The loop of `corners_from_index`, from the decoded slots on: corner `i`
  /// goes into slot `slots[i]` with twist digit `i` of `orientationIndex`,
  /// except the last, whose twist completes the sum to a multiple of 3.
  method PlaceCorners(slots: seq<nat>, orientationIndex: nat) returns (corners: seq<Corner>)
    requires |slots| == 8 && Below(slots, 8)
    ensures |corners| == 8
    ensures PruneTable.CornerPositions(corners) == slots
    ensures PruneTable.CornerTwists(corners)[..7] == BaseDigits(orientationIndex, 3, 7)
    ensures Sum(PruneTable.CornerTwists(corners)) % 3 == 0
  {
    ghost var ds := BaseDigits(orientationIndex, 3, 7);
    corners := CubeCorners.SOLVED_CORNERS;
    var orientationSum: nat := 0;
    var i := 0;
    PlacedNone(corners, slots, ds);
    while i < 8
      invariant 0 <= i <= 8
      invariant Placed(corners, slots, ds, i, orientationSum)
    {
      var orientation;
      if i < 7 {
        TwistDigit(orientationIndex, i);
        orientation := Orientation3FromU8Mod3((orientationIndex / Pow(3, i)) % 3);
      } else {
        orientation := Orientation3FromU8Mod3(3 - orientationSum % 3);
      }
      var corner := CubeCorners.CornerPositionFromIndex(slots[i]).WithOrientation(orientation);
      PlacedStep(corners, slots, ds, i, orientationSum, corner);
      orientationSum := orientationSum + orientation.U8();
      corners := corners[i := corner];
      i := i + 1;
    }
    PlacedAll(corners, slots, ds, orientationSum);
  }

  /// The twist `corners_from_index` reads for corner `i` is digit `i` of
  /// the orientation index in base 3, and already below 3.
  lemma TwistDigit(o: nat, i: nat)
    requires i < 7
    ensures (o / Pow(3, i)) % 3 % 3 == BaseDigits(o, 3, 7)[i]
  {
    BaseDigitAt(o, 3, 7, i);
    var d := (o / Pow(3, i)) % 3;
    assert d < 3;
  }

  /// The loop invariant of `corners_from_index` after `i` steps: the first
  /// `i` corners sit in the decoded slots, those among the first seven carry
  /// the decoded twists, `sum` adds up the first `i` twists, and after the
  /// eighth the sum is a multiple of 3.
  ghost predicate Placed(corners: seq<Corner>, slots: seq<nat>, ds: seq<nat>, i: nat, sum: nat) {
    |corners| == 8 && |slots| == 8 && |ds| == 7 && i <= 8
    && PruneTable.CornerPositions(corners)[..i] == slots[..i]
    && (i <= 7 ==> PruneTable.CornerTwists(corners)[..i] == ds[..i])
    && (i == 8 ==> PruneTable.CornerTwists(corners)[..7] == ds && sum % 3 == 0)
    && sum == Sum(PruneTable.CornerTwists(corners)[..i])
  }

  lemma PlacedNone(corners: seq<Corner>, slots: seq<nat>, ds: seq<nat>)
    requires |corners| == 8 && |slots| == 8 && |ds| == 7
    ensures Placed(corners, slots, ds, 0, 0)
  {
  }

  /// One step of the loop keeps the invariant.
  lemma PlacedStep(corners: seq<Corner>, slots: seq<nat>, ds: seq<nat>, i: nat, sum: nat, c: Corner)
    requires i < 8 && Placed(corners, slots, ds, i, sum)
    requires c.Position().U8() == slots[i]
    requires i < 7 ==> c.Orientation().U8() == ds[i]
    requires i == 7 ==> c.Orientation().U8() == (3 - sum % 3) % 3
    ensures Placed(corners[i := c], slots, ds, i + 1, sum + c.Orientation().U8())
  {
    var ps, ts := PruneTable.CornerPositions(corners), PruneTable.CornerTwists(corners);
    var o := c.Orientation().U8();
    SetCorner(corners, i, c);
    UpdatePrefix(ps, slots, i, slots[i]);
    if i < 7 {
      UpdatePrefix(ts, ds, i, o);
    } else {
      CompleteTwist(sum);
      UpdatePrefix(ts, ds, 7, o);
    }
  }

  /// After the eighth step the invariant gives the decoder's contract.
  lemma PlacedAll(corners: seq<Corner>, slots: seq<nat>, ds: seq<nat>, sum: nat)
    requires Placed(corners, slots, ds, 8, sum)
    ensures PruneTable.CornerPositions(corners) == slots
    ensures PruneTable.CornerTwists(corners)[..7] == ds
    ensures Sum(PruneTable.CornerTwists(corners)) % 3 == 0
  {
    var ps, ts := PruneTable.CornerPositions(corners), PruneTable.CornerTwists(corners);
    assert ps == ps[..8] && slots == slots[..8] && ts[..8] == ts;
  }

  /// Writing the entry a prefix is missing extends the prefix.
  lemma UpdatePrefix(xs: seq<nat>, ys: seq<nat>, i: nat, v: nat)
    requires i < |xs| && i <= |ys| && xs[..i] == ys[..i]
    requires i < |ys| ==> ys[i] == v
    ensures xs[i := v][..i] == ys[..i]
    ensures i < |ys| ==> xs[i := v][..i + 1] == ys[..i + 1]
  {
    assert xs[i := v][..i] == xs[..i];
    if i < |ys| {
      assert ys[..i + 1] == ys[..i] + [v];
      assert xs[i := v][..i + 1] == xs[..i] + [v];
    }
  }

  /// Putting corner `c` into slot `i` changes entry `i` of the slots and
  /// the twists and keeps the sum of the twists before it.
  lemma SetCorner(corners: seq<Corner>, i: nat, c: Corner)
    requires i < |corners|
    ensures PruneTable.CornerPositions(corners[i := c]) == PruneTable.CornerPositions(corners)[i := c.Position().U8()]
    ensures PruneTable.CornerTwists(corners[i := c]) == PruneTable.CornerTwists(corners)[i := c.Orientation().U8()]
    ensures Sum(PruneTable.CornerTwists(corners[i := c])[..i + 1])
      == Sum(PruneTable.CornerTwists(corners)[..i]) + c.Orientation().U8()
  {
    var ts, us := PruneTable.CornerTwists(corners), PruneTable.CornerTwists(corners[i := c]);
    assert us[..i + 1][..i] == ts[..i];
  }

  /// The decoder inverts the numbering (the `all_corner_indices_unique`
  /// test): corners built from any `i < 8! 3^7` get number `i`.
  lemma CornerIndexOfDecoded(i: nat, corners: seq<Corner>)
    requires i < CORNER_STATES && |corners| == 8
    requires PruneTable.CornerPositions(corners) == Arrange(FallingDigits(i / CORNER_ORIENTATIONS, 8, 8), 8)
    requires PruneTable.CornerTwists(corners)[..7] == BaseDigits(i % CORNER_ORIENTATIONS, 3, 7)
    ensures CornerIndex(corners) == i
  {
    CornerConstants();
    var p, o := i / CORNER_ORIENTATIONS, i % CORNER_ORIENTATIONS;
    DivUnique(i, CORNER_ORIENTATIONS, p, o);
    FreeDigitsArrange(FallingDigits(p, 8, 8), 8);
    FallingValueOfDigits(p, 8, 8);
    BaseValueOfDigits(o, 3, 7);
  }

  /// The numbering inverts the decoder on corners in distinct slots: the
  /// number of such corners decodes to their slots and first seven twists.
  lemma DecodedCornerIndex(corners: seq<Corner>)
    requires |corners| == 8 && Distinct(PruneTable.CornerPositions(corners))
    ensures PruneTable.CornerPositions(corners) == Arrange(FallingDigits(CornerIndex(corners) / CORNER_ORIENTATIONS, 8, 8), 8)
    ensures PruneTable.CornerTwists(corners)[..7] == BaseDigits(CornerIndex(corners) % CORNER_ORIENTATIONS, 3, 7)
  {
    CornerConstants();
    var ps, ts := PruneTable.CornerPositions(corners), PruneTable.CornerTwists(corners)[..7];
    ArrangeFreeDigits(ps, 8);
    var p, o := FallingValue(FreeDigits(ps), 8), BaseValue(ts, 3);
    BaseValueBound(ts, 3);
    DivUnique(CornerIndex(corners), CORNER_ORIENTATIONS, p, o);
    FallingDigitsOfValue(FreeDigits(ps), 8);
    BaseDigitsOfValue(ts, 3);
  }

  /// Corners are fixed by their slots, their first seven twists and the
  /// rule that the eight twists add up to a multiple of 3.
  lemma CornersDetermined(c: seq<Corner>, d: seq<Corner>)
    requires |c| == 8 && |d| == 8
    requires PruneTable.CornerPositions(c) == PruneTable.CornerPositions(d)
    requires PruneTable.CornerTwists(c)[..7] == PruneTable.CornerTwists(d)[..7]
    requires Sum(PruneTable.CornerTwists(c)) % 3 == 0 && Sum(PruneTable.CornerTwists(d)) % 3 == 0
    ensures c == d
  {
    var s, t := PruneTable.CornerTwists(c), PruneTable.CornerTwists(d);
    SumSnoc(s, 7);
    SumSnoc(t, 7);
    assert s[..8] == s && t[..8] == t;
    assert s[7] == t[7];
    forall k | 0 <= k < 7 ensures s[k] == t[k] {
      assert s[..7][k] == t[..7][k];
    }
    forall k | 0 <= k < 8 ensures c[k] == d[k] {
      assert PruneTable.CornerPositions(c)[k] == PruneTable.CornerPositions(d)[k];
      assert s[k] == t[k];
      CornerParts(c[k], d[k]);
    }
  }

  /// A corner is its slot and its twist.
  lemma CornerParts(x: Corner, y: Corner)
    requires x.Position().U8() == y.Position().U8()
    requires x.Orientation().U8() == y.Orientation().U8()
    ensures x == y
  {
  }

  /// The `index_from_index_identity` test, corner half: numbering a set of
  /// corners in distinct slots whose twists add up to a multiple of 3 and
  /// decoding the number gives the same corners.
  method CornersRoundTrip(corners: seq<Corner>) returns (back: seq<Corner>)
    requires |corners| == 8 && Distinct(PruneTable.CornerPositions(corners))
    requires Sum(PruneTable.CornerTwists(corners)) % 3 == 0
    ensures back == corners
  {
    var index := IndexCorners(corners);
    back := CornersFromIndex(index);
    DecodedCornerIndex(corners);
    CornersDetermined(back, corners);
  }

  /// The `all_corner_indices_unique` test.
  method CornerIndicesUnique(i: nat) returns (back: nat)
    requires i < CORNER_STATES
    ensures back == i
  {
    var corners := CornersFromIndex(i);
    back := IndexCorners(corners);
    CornerIndexOfDecoded(i, corners);
  }

  // ---- Edges ----

  /// `2u32.pow(6)`.
  const HALF_EDGE_ORIENTATIONS: nat := 64

  /// 64 times 12 11 10 9 8 7: the number of half-edge indices, and the bound
  /// the doc comment of `index_edges` states.
  const HALF_EDGE_STATES: nat := 42577920

  /// The slot each edge belongs to, as `position().index()`.
  function EdgeSlots(edges: seq<Edge>): (ps: seq<nat>)
    ensures |ps| == |edges| && Below(ps, 12)
  {
    seq(|edges|, k requires 0 <= k < |edges| => edges[k].Position().Index())
  }

  /// The number one half of `index_edges` gives six edges: their flips in
  /// base 2, plus 64 times their permutation index among the 12 slots.
  function HalfIndex(half: seq<Edge>): nat
    requires |half| == 6
  {
    BaseValue(PruneTable.EdgeFlips(half), 2)
      + HALF_EDGE_ORIENTATIONS * FallingValue(FreeDigits(EdgeSlots(half)), 12)
  }

  /// The `compute` closure of `index_edges`: edges 0 to 5, or 6 to 11 when
  /// `half` is set.
  method ComputeHalf(edges: seq<Edge>, half: bool) returns (index: nat)
    requires |edges| == 12
    ensures index == HalfIndex(if half then edges[6..] else edges[..6])
  {
    var part := edges[if half then 6 else 0..][..6];
    assert part == if half then edges[6..] else edges[..6];
    var orientationIndex := OrientationIndex(PruneTable.EdgeFlips(part), 2);
    var permutationIndex := PermutationIndex(EdgeSlots(part), 12);
    index := orientationIndex + HALF_EDGE_ORIENTATIONS * permutationIndex;
  }

  /// `index_edges`.
  method IndexEdges(edges: seq<Edge>) returns (a: nat, b: nat)
    requires |edges| == 12
    ensures a == HalfIndex(edges[..6]) && b == HalfIndex(edges[6..])
  {
    a := ComputeHalf(edges, false);
    b := ComputeHalf(edges, true);
  }

  /// The corrected bound: six edges in distinct slots get a number below
  /// 64 (12 11 10 9 8 7), the doc comment's 42 577 920.
  lemma HalfIndexBound(half: seq<Edge>)
    requires |half| == 6 && Distinct(EdgeSlots(half))
    ensures HalfIndex(half) < HALF_EDGE_STATES
  {
    var ps, fs := EdgeSlots(half), PruneTable.EdgeFlips(half);
    FreeDigitsInRadix(ps, 12);
    FallingValueBound(FreeDigits(ps), 12);
    assert Falling(12, 6) == 665280;
    BaseValueBound(fs, 2);
    assert Pow(2, 6) == HALF_EDGE_ORIENTATIONS;
    LowDigitBelow(BaseValue(fs, 2), HALF_EDGE_ORIENTATIONS, FallingValue(FreeDigits(ps), 12), 665280);
  }

  /// The `populate` closure of `edges_from_index`: slots `start` to
  /// `start + 5` get the slots decoded from `permI` and the flips that are
  /// the bits of `orienI`.  The source's branch for the twelfth edge is
  /// never taken, since a half has six.
  method Populate(out: seq<Edge>, permI: nat, orienI: nat, start: nat) returns (result: seq<Edge>)
    requires |out| == 12 && start <= 6
    ensures |result| == 12
    ensures result[..start] == out[..start] && result[start + 6..] == out[start + 6..]
    ensures EdgeSlots(result[start..start + 6]) == Arrange(FallingDigits(permI, 12, 6), 12)
    ensures PruneTable.EdgeFlips(result[start..start + 6]) == BaseDigits(orienI, 2, 6)
  {
    var slots := IndicesFromPermutationIndex(permI, 6, 12);
    result := PlaceEdges(out, slots, orienI, start);
  }

  /// The loop of `populate`: edge `start + i` goes into slot `slots[i]`
  /// with flip bit `i` of `orienI`.
  method PlaceEdges(out: seq<Edge>, slots: seq<nat>, orienI: nat, start: nat) returns (result: seq<Edge>)
    requires |out| == 12 && start <= 6 && |slots| == 6 && Below(slots, 12)
    ensures |result| == 12
    ensures result[..start] == out[..start] && result[start + 6..] == out[start + 6..]
    ensures EdgeSlots(result[start..start + 6]) == slots
    ensures PruneTable.EdgeFlips(result[start..start + 6]) == BaseDigits(orienI, 2, 6)
  {
    ghost var ds := BaseDigits(orienI, 2, 6);
    var finalOrientation := Positive;
    result := out;
    var i := 0;
    while i < 6
      invariant 0 <= i <= 6
      invariant EdgesPlaced(result, out, slots, ds, start, i)
    {
      var orientation;
      if i < 11 {
        FlipDigit(orienI, i);
        orientation := FromBool(orienI / Pow(2, i) % 2 != 0);
      } else {
        orientation := finalOrientation;
      }
      finalOrientation := CubeMath.DirectionXor(finalOrientation, orientation);
      var edge := CubeEdges.EdgePositionFromIndex(slots[i]).WithOrientation(orientation);
      EdgesPlacedStep(result, out, slots, ds, start, i, edge);
      result := result[i + start := edge];
      i := i + 1;
    }
    EdgesPlacedAll(result, out, slots, ds, start);
  }

  /// The flip `populate` reads for edge `i` is bit `i` of the orientation
  /// index.
  lemma FlipDigit(o: nat, i: nat)
    requires i < 6
    ensures FromBool(o / Pow(2, i) % 2 != 0).U8() == BaseDigits(o, 2, 6)[i]
  {
    BaseDigitAt(o, 2, 6, i);
  }

  /// The loop invariant of `populate` after `i` steps: outside the half
  /// nothing changed, and its first `i` edges sit in the decoded slots with
  /// the decoded flips.
  ghost predicate EdgesPlaced(result: seq<Edge>, out: seq<Edge>, slots: seq<nat>, ds: seq<nat>, start: nat, i: nat) {
    |result| == 12 && |out| == 12 && start <= 6 && i <= 6 && |slots| == 6 && |ds| == 6
    && result[..start] == out[..start] && result[start + 6..] == out[start + 6..]
    && (forall k :: 0 <= k < i ==> result[start + k].Position().Index() == slots[k])
    && (forall k :: 0 <= k < i ==> result[start + k].Orientation().U8() == ds[k])
  }

  /// One step of the loop keeps the invariant.
  lemma EdgesPlacedStep(result: seq<Edge>, out: seq<Edge>, slots: seq<nat>, ds: seq<nat>, start: nat, i: nat, e: Edge)
    requires i < 6 && EdgesPlaced(result, out, slots, ds, start, i)
    requires e.Position().Index() == slots[i] && e.Orientation().U8() == ds[i]
    ensures EdgesPlaced(result[i + start := e], out, slots, ds, start, i + 1)
  {
    var r := result[i + start := e];
    assert r[..start] == result[..start];
    assert r[start + 6..] == result[start + 6..];
  }

  /// After the sixth step the invariant gives the contract of `populate`.
  lemma EdgesPlacedAll(result: seq<Edge>, out: seq<Edge>, slots: seq<nat>, ds: seq<nat>, start: nat)
    requires EdgesPlaced(result, out, slots, ds, start, 6)
    ensures EdgeSlots(result[start..start + 6]) == slots
    ensures PruneTable.EdgeFlips(result[start..start + 6]) == ds
  {
    var half := result[start..start + 6];
    assert forall k :: 0 <= k < 6 ==> half[k] == result[start + k];
  }

  /// `edges_from_index`: the first half from `a`, the second from `b`.
  method EdgesFromIndex(a: nat, b: nat) returns (edges: seq<Edge>)
    ensures |edges| == 12
    ensures EdgeSlots(edges[..6]) == Arrange(FallingDigits(a / HALF_EDGE_ORIENTATIONS, 12, 6), 12)
    ensures PruneTable.EdgeFlips(edges[..6]) == BaseDigits(a % HALF_EDGE_ORIENTATIONS, 2, 6)
    ensures EdgeSlots(edges[6..]) == Arrange(FallingDigits(b / HALF_EDGE_ORIENTATIONS, 12, 6), 12)
    ensures PruneTable.EdgeFlips(edges[6..]) == BaseDigits(b % HALF_EDGE_ORIENTATIONS, 2, 6)
  {
    var aPermI := a / HALF_EDGE_ORIENTATIONS;
    var aOrienI := a % HALF_EDGE_ORIENTATIONS;
    var bPermI := b / HALF_EDGE_ORIENTATIONS;
    var bOrienI := b % HALF_EDGE_ORIENTATIONS;
    edges := CubeEdges.SOLVED_EDGES;
    edges := Populate(edges, aPermI, aOrienI, 0);
    ghost var first := edges[..6];
    edges := Populate(edges, bPermI, bOrienI, 6);
    assert edges[..6] == first;
    assert edges[6..12] == edges[6..];
  }

  /// The decoder inverts the numbering (the `all_edges_indices_unique`
  /// test): six edges built from any `x` below the corrected bound get
  /// number `x`.
  lemma HalfIndexOfDecoded(x: nat, half: seq<Edge>)
    requires x < HALF_EDGE_STATES && |half| == 6
    requires EdgeSlots(half) == Arrange(FallingDigits(x / HALF_EDGE_ORIENTATIONS, 12, 6), 12)
    requires PruneTable.EdgeFlips(half) == BaseDigits(x % HALF_EDGE_ORIENTATIONS, 2, 6)
    ensures HalfIndex(half) == x
  {
    var p, o := x / HALF_EDGE_ORIENTATIONS, x % HALF_EDGE_ORIENTATIONS;
    DivUnique(x, HALF_EDGE_ORIENTATIONS, p, o);
    assert Falling(12, 6) == 665280;
    FreeDigitsArrange(FallingDigits(p, 12, 6), 12);
    FallingValueOfDigits(p, 12, 6);
    assert Pow(2, 6) == HALF_EDGE_ORIENTATIONS;
    BaseValueOfDigits(o, 2, 6);
  }

  /// The numbering inverts the decoder on six edges in distinct slots.
  lemma DecodedHalfIndex(half: seq<Edge>)
    requires |half| == 6 && Distinct(EdgeSlots(half))
    ensures EdgeSlots(half) == Arrange(FallingDigits(HalfIndex(half) / HALF_EDGE_ORIENTATIONS, 12, 6), 12)
    ensures PruneTable.EdgeFlips(half) == BaseDigits(HalfIndex(half) % HALF_EDGE_ORIENTATIONS, 2, 6)
  {
    var ps, fs := EdgeSlots(half), PruneTable.EdgeFlips(half);
    ArrangeFreeDigits(ps, 12);
    var p, o := FallingValue(FreeDigits(ps), 12), BaseValue(fs, 2);
    BaseValueBound(fs, 2);
    assert Pow(2, 6) == HALF_EDGE_ORIENTATIONS;
    DivUnique(HalfIndex(half), HALF_EDGE_ORIENTATIONS, p, o);
    FallingDigitsOfValue(FreeDigits(ps), 12);
    BaseDigitsOfValue(fs, 2);
  }

  /// Edges are fixed by their slots and their flips.
  lemma EdgesDetermined(c: seq<Edge>, d: seq<Edge>)
    requires |c| == |d|
    requires EdgeSlots(c) == EdgeSlots(d) && PruneTable.EdgeFlips(c) == PruneTable.EdgeFlips(d)
    ensures c == d
  {
    forall k | 0 <= k < |c| ensures c[k] == d[k] {
      assert EdgeSlots(c)[k] == EdgeSlots(d)[k];
      assert PruneTable.EdgeFlips(c)[k] == PruneTable.EdgeFlips(d)[k];
    }
  }

  /// The `index_from_index_identity` test, edge half: numbering twelve
  /// edges in distinct slots and decoding the pair of numbers gives the
  /// same edges.
  method EdgesRoundTrip(edges: seq<Edge>) returns (back: seq<Edge>)
    requires |edges| == 12 && Distinct(EdgeSlots(edges))
    ensures back == edges
  {
    var a, b := IndexEdges(edges);
    back := EdgesFromIndex(a, b);
    assert EdgeSlots(edges[..6]) == EdgeSlots(edges)[..6];
    assert EdgeSlots(edges[6..]) == EdgeSlots(edges)[6..];
    DecodedHalfIndex(edges[..6]);
    DecodedHalfIndex(edges[6..]);
    EdgesDetermined(back[..6], edges[..6]);
    EdgesDetermined(back[6..], edges[6..]);
    assert back == back[..6] + back[6..] && edges == edges[..6] + edges[6..];
  }

  /// The `all_edges_indices_unique` test, over the corrected range.
  method EdgeIndicesUnique(i: nat, j: nat) returns (a: nat, b: nat)
    requires i < HALF_EDGE_STATES && j < HALF_EDGE_STATES
    ensures a == i && b == j
  {
    var edges := EdgesFromIndex(i, j);
    a, b := IndexEdges(edges);
    HalfIndexOfDecoded(i, edges[..6]);
    HalfIndexOfDecoded(j, edges[6..]);
  }

  // ---- The solved cube, and the half-edge table size as written ----

  /// The `solved_cube_index_is_0` test: the solved corners and the first
  /// half of the solved edges are numbered 0.
  lemma SolvedIndices()
    ensures CornerIndex(CubeCorners.SOLVED_CORNERS) == 0
    ensures HalfIndex(CubeEdges.SOLVED_EDGES[..6]) == 0
  {
    var ps := PruneTable.CornerPositions(CubeCorners.SOLVED_CORNERS);
    var ts := PruneTable.CornerTwists(CubeCorners.SOLVED_CORNERS)[..7];
    IdentityDigits(ps);
    assert forall k :: 0 <= k < 7 ==> ts[k] == 0;
    ZeroValues(FreeDigits(ps), ts);
    var es := EdgeSlots(CubeEdges.SOLVED_EDGES[..6]);
    var fs := PruneTable.EdgeFlips(CubeEdges.SOLVED_EDGES[..6]);
    IdentityDigits(es);
    assert forall k :: 0 <= k < 6 ==> fs[k] == 0;
    ZeroValues(FreeDigits(es), fs);
  }

  /// Slots in their own order choose 0 every time.
  lemma IdentityDigits(s: seq<nat>)
    requires forall k :: 0 <= k < |s| ==> s[k] == k
    ensures forall k :: 0 <= k < |s| ==> FreeDigits(s)[k] == 0
  {
    forall i | 0 <= i < |s| ensures FreeDigits(s)[i] == 0 {
      forall u | 0 <= u < i ensures u in s[..i] {
        assert s[..i][u] == u;
      }
      FreeNone(s[..i], s[i]);
    }
  }

  /// Zero digits have value 0 in any radix.
  lemma {:induction false} ZeroValues(ds: seq<nat>, es: seq<nat>)
    requires forall k :: 0 <= k < |ds| ==> ds[k] == 0
    requires forall k :: 0 <= k < |es| ==> es[k] == 0
    ensures forall n: nat :: |ds| <= n ==> FallingValue(ds, n) == 0
    ensures forall b: nat :: BaseValue(es, b) == 0
  {
    if ds != [] {
      ZeroValues(ds[1..], es);
    }
    if es != [] {
      ZeroValues(ds, es[1..]);
    }
  }

  /// Slots 0 .. 5 are free below `v <= 6` when `used` holds only slots 6
  /// and up.
  lemma {:induction false} FreeLow(used: seq<nat>, v: nat)
    requires v <= 6 && forall k :: 0 <= k < |used| ==> used[k] >= 6
    ensures |Free(used, v)| == v
  {
    if v > 0 {
      FreeLow(used, v - 1);
    }
  }

  /// With slots 6 .. v - 1 taken and only slots from 6 up taken, six slots
  /// are free below `v >= 6`.
  lemma {:induction false} FreeHigh(used: seq<nat>, v: nat)
    requires v >= 6 && forall k :: 0 <= k < |used| ==> used[k] >= 6
    requires forall u :: 6 <= u < v ==> u in used
    ensures |Free(used, v)| == 6
  {
    if v == 6 {
      FreeLow(used, 6);
    } else {
      FreeHigh(used, v - 1);
    }
  }

  /// `HALF_EDGE_PERMUTATIONS` as written: `comb(12, 6)` is 924.
  lemma HalfEdgePermutationsAsWritten(n: nat, m: nat)
    requires n == 12 && m == 6
    ensures Binomial(n, m) == 924
  {
    FallingBinomial(n, m);
    HalfEdgeValues(n, m);
    Times720(Binomial(n, m));
  }

  /// 12 11 10 9 8 7 and 6!.
  lemma HalfEdgeValues(n: nat, m: nat)
    requires n == 12 && m == 6
    ensures Falling(n, m) == 665280 && Fac(m) == 720
  {
  }

  lemma Times720(b: int)
    requires b * 720 == 665280
    ensures b == 924
  {
  }

  /// The table size as written is too small: the second half of the solved
  /// edges already gets number 41 619 840, past
  /// `HALF_EDGE_STATES = comb(12, 6) * 64 = 59 136`, so the quickcheck
  /// `edge_index_is_between_range` fails on the solved cube and `generate`
  /// indexes its edge buffer out of bounds.
  lemma SolvedSecondHalfOutOfRange(n: nat, m: nat)
    requires n == 12 && m == 6
    ensures HalfIndex(CubeEdges.SOLVED_EDGES[6..]) >= Binomial(n, m) * HALF_EDGE_ORIENTATIONS
  {
    SolvedSecondHalfIndex();
    HalfEdgePermutationsAsWritten(n, m);
  }

  /// The number of the second half of the solved edges: each of its six
  /// slots has the six slots 0 .. 5 free below it.
  lemma SolvedSecondHalfIndex()
    ensures HalfIndex(CubeEdges.SOLVED_EDGES[6..]) == 41619840
  {
    var es := EdgeSlots(CubeEdges.SOLVED_EDGES[6..]);
    var fs := PruneTable.EdgeFlips(CubeEdges.SOLVED_EDGES[6..]);
    assert forall k :: 0 <= k < 6 ==> es[k] == k + 6;
    forall i | 0 <= i < 6 ensures FreeDigits(es)[i] == 6 {
      forall u | 6 <= u < es[i] ensures u in es[..i] {
        assert es[..i][u - 6] == u;
      }
      FreeHigh(es[..i], es[i]);
    }
    assert FreeDigits(es) == [6, 6, 6, 6, 6, 6];
    assert forall k :: 0 <= k < 6 ==> fs[k] == 0;
    ZeroValues([], fs);
    SixesValue();
  }

  /// Six digits 6 in the radices 12, 11, ..., 7.
  lemma SixesValue()
    ensures FallingValue([6, 6, 6, 6, 6, 6], 12) == 650310
  {
  }
}
