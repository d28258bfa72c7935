/// The pruning tables of Kociemba's two-phase search
/// (`norcina-cube3/src/search/kociemba/prune_table.rs`): six coordinates,
/// each a pair of loops ranking part of a cube into `0 .. max` and building a
/// cube with a given rank; a breadth-first fill of a table of distances over
/// one coordinate; and the two heuristics that read three tables each.
module PruneTable {
  import opened Types
  import opened CoreMath
  import opened Coordinates
  import opened CubeMoves
  import CubeCorners
  import CubeEdges
  import Cube3
  import Kociemba

  type Corner = CubeCorners.Corner
  type Edge = CubeEdges.Edge

  // ---- Phase 1: corner orientation ----

  /// The orientation of every corner, as `orientation().u8()`.
  function CornerTwists(corners: seq<Corner>): (ds: seq<nat>)
    ensures |ds| == |corners|
    ensures forall k :: 0 <= k < |ds| ==> ds[k] < 3
  {
    seq(|corners|, k requires 0 <= k < |corners| => corners[k].Orientation().U8())
  }

  /// `CORNER_ORIENTATION.index`: the twists of the first seven corners as a
  /// base-3 number, the first corner most significant.  The eighth twist is
  /// left out: on a real cube it follows from the other seven.
  method CornerOrientationIndex(corners: seq<Corner>) returns (index: nat)
    requires |corners| == 8
    ensures index == Horner(CornerTwists(corners)[..7], 3)
    ensures index < Pow(3, 7)
  {
    ghost var ds := CornerTwists(corners)[..7];
    index := 0;
    var i := 0;
    while i < 7
      invariant 0 <= i <= 7
      invariant index == Horner(ds[..i], 3)
    {
      assert ds[..i + 1][..i] == ds[..i];
      index := index * 3;
      index := index + corners[i].Orientation().U8();
      i := i + 1;
    }
    assert ds[..7] == ds;
    HornerBound(ds, 3);
  }

  /// `CORNER_ORIENTATION.from_index`: starting from the solved corners, give
  /// corners 6, 5, ..., 0 the base-3 digits of `index` from the least
  /// significant up, then twist corner 7 so that the eight twists add up to
  /// a multiple of 3.  Digits beyond the seventh are dropped.  The source
  /// passes an `Axis` to `set_orientation`, which takes an `Orientation3`;
  /// the model passes the orientation with the same number.
  method CornerOrientationFromIndex(index: nat) returns (corners: seq<Corner>)
    ensures |corners| == 8
    ensures forall k :: 0 <= k < 8 ==> corners[k].Position() == CubeCorners.SolvedCorner(k).Position()
    ensures Horner(CornerTwists(corners)[..7], 3) == index % Pow(3, 7)
    ensures Sum(CornerTwists(corners)) % 3 == 0
  {
    corners := CubeCorners.SOLVED_CORNERS;
    CubeCorners.SolvedCornersAt();
    var cur := index;
    var sum := 0;
    var k := 0;
    while k < 7
      invariant 0 <= k <= 7 && |corners| == 8
      invariant forall j :: 0 <= j < 8 ==> corners[j].Position() == CubeCorners.SolvedCorner(j).Position()
      invariant index == cur * Pow(3, k) + Horner(CornerTwists(corners)[7 - k..7], 3)
      invariant sum == Sum(CornerTwists(corners)[7 - k..7])
    {
      var slot := 6 - k;
      ghost var rest := CornerTwists(corners)[7 - k..7];
      var d := cur % 3;
      var orientation := Orientation3FromU8(d);
      ghost var before := CornerTwists(corners);
      SetCornerTwist(corners, slot, orientation);
      corners := corners[slot := corners[slot].SetOrientation(orientation)];
      SpliceDigit(before, slot, d);
      HornerCons(d, rest, 3);
      SumCons(d, rest);
      PeelArith(index, cur, Pow(3, k), Horner(rest, 3), cur / 3, 3, d);
      cur := cur / 3;
      sum := sum + d;
      k := k + 1;
    }
    ghost var first := CornerTwists(corners)[..7];
    assert first == CornerTwists(corners)[7 - k..7];
    HornerBound(first, 3);
    RemainderOf(index, cur, Pow(3, 7), Horner(first, 3));
    var last := Orientation3FromI8Mod3(-sum);
    LastTwist(corners, first, last);
    corners := corners[7 := corners[7].SetOrientation(last)];
  }

  /// Re-twisting one corner changes its twist and nothing else.
  lemma SetCornerTwist(corners: seq<Corner>, slot: nat, o: Orientation3)
    requires slot < |corners|
    ensures var after := corners[slot := corners[slot].SetOrientation(o)];
      CornerTwists(after) == CornerTwists(corners)[slot := o.U8()] &&
      forall j :: 0 <= j < |corners| ==> after[j].Position() == corners[j].Position()
  {
  }

  /// Writing digit `d` into `slot` puts it in front of the digits after it.
  lemma SpliceDigit(ds: seq<nat>, slot: nat, d: nat)
    requires slot < 7 <= |ds|
    ensures ds[slot := d][slot..7] == [d] + ds[slot + 1..7]
  {
  }

  /// Twisting corner 7 by minus the sum of the other twists makes the sum a
  /// multiple of 3 and keeps the other twists and every position.
  lemma LastTwist(corners: seq<Corner>, first: seq<nat>, last: Orientation3)
    requires |corners| == 8 && CornerTwists(corners)[..7] == first
    requires last.U8() == (-(Sum(first) as int)) % 3
    ensures var after := corners[7 := corners[7].SetOrientation(last)];
      CornerTwists(after)[..7] == first && Sum(CornerTwists(after)) % 3 == 0 &&
      forall j :: 0 <= j < 8 ==> after[j].Position() == corners[j].Position()
  {
    SetCornerTwist(corners, 7, last);
    var after := corners[7 := corners[7].SetOrientation(last)];
    assert CornerTwists(after) == first + [last.U8()];
    SumSnoc(first, last.U8());
    TwistsCancel(Sum(first), last.U8());
  }

  /// `s + (-s mod 3)` is a multiple of 3.
  lemma TwistsCancel(s: nat, t: nat)
    requires t == (-(s as int)) % 3
    ensures (s + t) % 3 == 0
  {
  }

  /// `test_id` for corner orientation: ranking the corners built for
  /// `i % 3^7` gives `i % 3^7` back.
  method CornerOrientationRoundTrip(i: nat) returns (y: nat)
    ensures y == i % Pow(3, 7)
  {
    var x := i % Pow(3, 7);
    var corners := CornerOrientationFromIndex(x);
    y := CornerOrientationIndex(corners);
  }

  // ---- Phase 1: edge orientation ----

  /// The orientation bit of every edge, as `orientation() as usize`: 1 for a
  /// flipped edge.
  function EdgeFlips(edges: seq<Edge>): (ds: seq<nat>)
    ensures |ds| == |edges|
    ensures forall k :: 0 <= k < |ds| ==> ds[k] < 2
  {
    seq(|edges|, k requires 0 <= k < |edges| => edges[k].Orientation().U8())
  }

  /// `EDGE_ORIENTATION.index`: the orientation bits of the first eleven
  /// edges as a binary number, the first edge most significant.
  method EdgeOrientationIndex(edges: seq<Edge>) returns (output: nat)
    requires |edges| == 12
    ensures output == Horner(EdgeFlips(edges)[..11], 2)
    ensures output < Pow(2, 11)
  {
    ghost var ds := EdgeFlips(edges)[..11];
    output := 0;
    var i := 0;
    while i < 11
      invariant 0 <= i <= 11
      invariant output == Horner(ds[..i], 2)
    {
      assert ds[..i + 1][..i] == ds[..i];
      output := output * 2;
      output := output + edges[i].Orientation().U8();
      i := i + 1;
    }
    assert ds[..11] == ds;
    HornerBound(ds, 2);
  }

  /// The edge in the same slot with orientation bit set exactly when it is
  /// not oriented: what the source's `set_oriented(is_oriented)` evidently
  /// means (`Edge` has no such method).
  function SetOriented(edge: Edge, isOriented: bool): (r: Edge)
    ensures r.Position() == edge.Position() && (r.IsOriented() <==> isOriented)
  {
    edge.Position().WithOrientation(FromBool(!isOriented))
  }

  /// Whether the source orients edge 11: when the number of oriented edges
  /// among the first eleven is even.
  function LastEdgeOrientedAsWritten(first: seq<nat>): bool {
    Sum(OrientedFlags(first)) % 2 == 0
  }

  /// `is_oriented as u8` for every digit.
  function OrientedFlags(flips: seq<nat>): (fs: seq<nat>)
    ensures |fs| == |flips|
  {
    seq(|flips|, k requires 0 <= k < |flips| => if flips[k] == 0 then 1 else 0)
  }

  /// The evident intent: edge 11 is oriented when the number of flipped
  /// edges among the first eleven is even, so that the flips pair up.
  function LastEdgeOriented(first: seq<nat>): bool {
    Sum(first) % 2 == 0
  }

  /// `EDGE_ORIENTATION.from_index`, with edge 11 decided as intended (see
  /// `LastEdgeOriented`): starting from the solved edges, give edges 10, 9,
  /// ..., 0 the binary digits of `index` from the least significant up.
  method EdgeOrientationFromIndex(index: nat) returns (edges: seq<Edge>)
    ensures |edges| == 12
    ensures forall k :: 0 <= k < 12 ==> edges[k].Position() == CubeEdges.SolvedEdge(k).Position()
    ensures Horner(EdgeFlips(edges)[..11], 2) == index % Pow(2, 11)
    ensures Sum(EdgeFlips(edges)) % 2 == 0
  {
    edges := CubeEdges.SOLVED_EDGES;
    CubeEdges.SolvedEdgesAt();
    var cur: nat := index;
    var flipSum := 0;
    var k := 0;
    while k < 11
      invariant 0 <= k <= 11 && |edges| == 12
      invariant forall j :: 0 <= j < 12 ==> edges[j].Position() == CubeEdges.SolvedEdge(j).Position()
      invariant index == cur * Pow(2, k) + Horner(EdgeFlips(edges)[11 - k..11], 2)
      invariant flipSum == Sum(EdgeFlips(edges)[11 - k..11])
    {
      var slot := 10 - k;
      var d := cur % 2;
      var isOriented := d == 0;
      StepKeeps(index, cur, k, edges, flipSum);
      edges := edges[slot := SetOriented(edges[slot], isOriented)];
      cur := cur / 2;
      flipSum := flipSum + d;
      k := k + 1;
    }
    var lastOriented := flipSum % 2 == 0;
    FinishFlips(index, cur, edges, flipSum);
    edges := edges[11 := SetOriented(edges[11], lastOriented)];
  }

  /// The loop invariant of `EdgeOrientationFromIndex` survives one digit.
  lemma StepKeeps(index: nat, cur: nat, k: nat, edges: seq<Edge>, flipSum: nat)
    requires k < 11 && |edges| == 12
    requires forall j :: 0 <= j < 12 ==> edges[j].Position() == CubeEdges.SolvedEdge(j).Position()
    requires index == cur * Pow(2, k) + Horner(EdgeFlips(edges)[11 - k..11], 2)
    requires flipSum == Sum(EdgeFlips(edges)[11 - k..11])
    ensures var after := edges[10 - k := SetOriented(edges[10 - k], cur % 2 == 0)];
      (forall j :: 0 <= j < 12 ==> after[j].Position() == CubeEdges.SolvedEdge(j).Position()) &&
      index == cur / 2 * Pow(2, k + 1) + Horner(EdgeFlips(after)[11 - (k + 1)..11], 2) &&
      flipSum + cur % 2 == Sum(EdgeFlips(after)[11 - (k + 1)..11])
  {
    SetEdgeFlip(edges, 10 - k, cur % 2);
    var after := edges[10 - k := SetOriented(edges[10 - k], cur % 2 == 0)];
    FlipStep(index, cur, k, EdgeFlips(edges), EdgeFlips(after));
  }

  /// After the eleven digits: `cur` holds what is above them, and edge 11
  /// takes the parity of the flips.
  lemma FinishFlips(index: nat, cur: nat, edges: seq<Edge>, flipSum: nat)
    requires |edges| == 12
    requires index == cur * Pow(2, 11) + Horner(EdgeFlips(edges)[11 - 11..11], 2)
    requires flipSum == Sum(EdgeFlips(edges)[11 - 11..11])
    ensures var after := edges[11 := SetOriented(edges[11], flipSum % 2 == 0)];
      Horner(EdgeFlips(after)[..11], 2) == index % Pow(2, 11) && Sum(EdgeFlips(after)) % 2 == 0 &&
      forall j :: 0 <= j < 12 ==> after[j].Position() == edges[j].Position()
  {
    var first := EdgeFlips(edges)[..11];
    assert first == EdgeFlips(edges)[11 - 11..11];
    HornerBound(first, 2);
    RemainderOf(index, cur, Pow(2, 11), Horner(first, 2));
    LastFlip(edges, first);
  }

  /// One step of `EdgeOrientationFromIndex`: the bit `cur % 2` written into
  /// slot `10 - k` is the next digit up.
  lemma FlipStep(index: nat, cur: nat, k: nat, before: seq<nat>, after: seq<nat>)
    requires k < 11 && |before| == 12 && after == before[10 - k := cur % 2]
    requires index == cur * Pow(2, k) + Horner(before[11 - k..11], 2)
    ensures index == cur / 2 * Pow(2, k + 1) + Horner(after[11 - (k + 1)..11], 2)
    ensures Sum(after[11 - (k + 1)..11]) == cur % 2 + Sum(before[11 - k..11])
  {
    var d, rest := cur % 2, before[11 - k..11];
    SpliceFlip(before, 10 - k, d);
    HornerCons(d, rest, 2);
    SumCons(d, rest);
    PeelArith(index, cur, Pow(2, k), Horner(rest, 2), cur / 2, 2, d);
  }

  /// Re-orienting one edge changes its bit and nothing else.
  lemma SetEdgeFlip(edges: seq<Edge>, slot: nat, d: nat)
    requires slot < |edges| && d < 2
    ensures var after := edges[slot := SetOriented(edges[slot], d == 0)];
      EdgeFlips(after) == EdgeFlips(edges)[slot := d] &&
      forall j :: 0 <= j < |edges| ==> after[j].Position() == edges[j].Position()
  {
    var after := edges[slot := SetOriented(edges[slot], d == 0)];
    assert after[slot].Orientation().U8() == d;
  }

  /// Orienting edge 11 as intended makes the number of flips even and keeps
  /// the other bits and every position.
  lemma LastFlip(edges: seq<Edge>, first: seq<nat>)
    requires |edges| == 12 && EdgeFlips(edges)[..11] == first
    ensures var after := edges[11 := SetOriented(edges[11], LastEdgeOriented(first))];
      EdgeFlips(after)[..11] == first && Sum(EdgeFlips(after)) % 2 == 0 &&
      forall j :: 0 <= j < 12 ==> after[j].Position() == edges[j].Position()
  {
    var d := Sum(first) % 2;
    SetEdgeFlip(edges, 11, d);
    var after := edges[11 := SetOriented(edges[11], d == 0)];
    assert EdgeFlips(after) == first + [d];
    SumSnoc(first, d);
  }

  /// Writing bit `d` into `slot` puts it in front of the bits after it.
  lemma SpliceFlip(ds: seq<nat>, slot: nat, d: nat)
    requires slot < 11 <= |ds|
    ensures ds[slot := d][slot..11] == [d] + ds[slot + 1..11]
  {
  }

  lemma SumSnoc(ds: seq<nat>, d: nat)
    ensures Sum(ds + [d]) == Sum(ds) + d
  {
    assert (ds + [d])[..|ds|] == ds;
  }

  /// On digits 0 and 1, the oriented count and the flipped count add up to
  /// the number of digits.
  lemma {:induction false} OrientedComplement(flips: seq<nat>)
    requires forall k :: 0 <= k < |flips| ==> flips[k] < 2
    ensures Sum(OrientedFlags(flips)) + Sum(flips) == |flips|
  {
    if flips != [] {
      var init := flips[..|flips| - 1];
      OrientedComplement(init);
      assert OrientedFlags(flips)[..|flips| - 1] == OrientedFlags(init);
    }
  }

  /// As written, edge 11 is flipped exactly when the first eleven hold an
  /// even number of flips, so every cube `from_index` builds has an odd
  /// number of flipped edges, which no sequence of moves from the solved
  /// cube reaches.
  lemma AsWrittenFlipsOdd(first: seq<nat>)
    requires |first| == 11
    requires forall k :: 0 <= k < 11 ==> first[k] < 2
    ensures (Sum(first) + (if LastEdgeOrientedAsWritten(first) then 0 else 1)) % 2 == 1
  {
    OrientedComplement(first);
  }

  /// For index 0 the source flips edge 11, while the solved cube, whose
  /// index is 0, has no flipped edge; as intended, edge 11 stays oriented.
  lemma AsWrittenIndexZero()
    ensures !LastEdgeOrientedAsWritten(seq(11, k => 0))
    ensures LastEdgeOriented(seq(11, k => 0))
  {
    var zeros: seq<nat> := seq(11, k => 0);
    AsWrittenFlipsOdd(zeros);
    SumZeros(zeros);
  }

  lemma {:induction false} SumZeros(ds: seq<nat>)
    requires forall k :: 0 <= k < |ds| ==> ds[k] == 0
    ensures Sum(ds) == 0
  {
    if ds != [] {
      SumZeros(ds[..|ds| - 1]);
    }
  }

  /// `test_id` for edge orientation.
  method EdgeOrientationRoundTrip(i: nat) returns (y: nat)
    ensures y == i % Pow(2, 11)
  {
    var x := i % Pow(2, 11);
    var edges := EdgeOrientationFromIndex(x);
    y := EdgeOrientationIndex(edges);
  }

  // ---- Phase 1: which slots hold the Y-normal edges ----

  /// `calc_combination`: the same two loops as `choose`, multiplying in
  /// n, n - 1, ..., n - r + 1 and then dividing out r, r - 1, ..., 1.
  method CalcCombination(n: nat, r: nat) returns (output: nat)
    requires r <= n + 1
    ensures output == Binomial(n, r)
  {
    output := Choose(n, r);
  }

  /// Whether the edge in each slot belongs to a Y-normal slot, that is to the
  /// slice between the U and D faces.
  function YFlags(edges: seq<Edge>): (flags: seq<bool>)
    ensures |flags| == |edges|
  {
    seq(|edges|, k requires 0 <= k < |edges| => edges[k].Position().Normal() == Y)
  }

  /// The solved edges of slots 4 to 7 are the Y-normal ones.
  lemma SolvedNormal(k: nat)
    requires k < 12
    ensures |CubeEdges.SOLVED_EDGES| == 12
    ensures (CubeEdges.SOLVED_EDGES[k].Position().Normal() == Y) <==> 4 <= k < 8
  {
    CubeEdges.SolvedEdgesAt();
  }

  /// C(12, 4) is 495, the number of ways to place the four Y-normal edges
  /// and so the size of the subtable.  The arguments are parameters so that
  /// callers do not evaluate the coefficient themselves.
  lemma YSliceSize(n: nat, r: nat)
    requires n == 12 && r == 4
    ensures Binomial(n, r) == 495
  {
    ChooseFactorials(n, r);
    FacValues(n, r, n - r);
    var b := Binomial(n, r);
    assert b * 967680 == 479001600;
  }

  /// 12! and 4! * 8!.
  lemma FacValues(a: nat, b: nat, c: nat)
    requires a == 12 && b == 4 && c == 8
    ensures Fac(a) == 479001600 && Fac(b) * Fac(c) == 967680
  {
    assert Fac(12) == 479001600 && Fac(4) == 24 && Fac(8) == 40320;
  }

  /// Every rank of four flags among twelve fits the subtable.
  lemma YSliceBound(flags: seq<bool>, n: nat, r: nat)
    requires n == 12 && r == 4
    requires |flags| == n && CountTrue(flags) == r
    ensures CnsIndex(flags, r) < 495
  {
    CnsBound(flags, r);
    YSliceSize(n, r);
  }

  /// `IS_ON_Y_SLICE.index`: scanning the slots from 11 down, a slot holding
  /// a Y-normal edge adds C(i, r) with `r` the Y-normal edges not yet seen.
  /// The source debug-asserts that there are exactly four.
  method YSliceIndex(edges: seq<Edge>) returns (index: nat)
    requires |edges| == 12 && CountTrue(YFlags(edges)) == 4
    ensures index == CnsIndex(YFlags(edges), 4)
    ensures index < 495
  {
    ghost var flags := YFlags(edges);
    index := 0;
    var remaining := 4;
    var i := 12;
    assert flags[..12] == flags;
    while i > 0
      invariant 0 <= i <= 12
      invariant remaining == CountTrue(flags[..i])
      invariant index + CnsIndex(flags[..i], remaining) == CnsIndex(flags, 4)
    {
      i := i - 1;
      CnsPrefixStep(flags, i, remaining);
      if edges[i].Position().Normal() == Y {
        var c := CalcCombination(i, remaining);
        index := index + c;
        remaining := remaining - 1;
      }
    }
    assert flags[..0] == [];
    YSliceBound(flags, 12, 4);
  }

  /// Every rank below C(12, 4) is the rank of some choice of four slots
  /// among twelve.
  lemma YSliceChoice(index: nat, n: nat, r: nat) returns (u: seq<bool>)
    requires n == 12 && r == 4 && index < 495
    ensures |u| == n && CountTrue(u) == r && CnsIndex(u, r) == index
  {
    YSliceSize(n, r);
    u := UnrankExists(index, n, r);
  }

  /// One step of `from_index` against the choice `u` it decodes: slot `i` is
  /// chosen exactly when the rank left reaches C(i, r), and what is left is
  /// the rank of the slots below.
  lemma YSliceDecodeStep(u: seq<bool>, i: nat, r: nat, cur: nat)
    requires i < |u| && CountTrue(u[..i + 1]) == r && CnsIndex(u[..i + 1], r) == cur
    ensures r <= i + 1
    ensures u[i] <==> cur >= Binomial(i, r)
    ensures u[i] ==> 0 < r && CountTrue(u[..i]) == r - 1 && CnsIndex(u[..i], r - 1) == cur - Binomial(i, r)
    ensures !u[i] ==> r <= i && CountTrue(u[..i]) == r && CnsIndex(u[..i], r) == cur
  {
    CnsPrefixStep(u, i, r);
    if u[i] {
      assert cur >= Binomial(i, r);
    } else {
      CnsBound(u[..i], r);
    }
  }

  /// `IS_ON_Y_SLICE.from_index`: scanning the slots from 11 down, put a
  /// Y-normal solved edge in slot `i` when the rank left reaches C(i, r),
  /// and a solved edge of the U or D layer otherwise.  The source underflows
  /// `remaining` for ranks of C(12, 4) or more.
  method YSliceFromIndex(index: nat) returns (edges: seq<Edge>)
    requires index < 495
    ensures |edges| == 12 && CountTrue(YFlags(edges)) == 4 && CnsIndex(YFlags(edges), 4) == index
  {
    ghost var u := YSliceChoice(index, 12, 4);
    edges := CubeEdges.SOLVED_EDGES;
    CubeEdges.SolvedEdgesAt();
    var cur: nat := index;
    var remaining: nat := 4;
    var i: nat := 12;
    assert u[..i] == u;
    while i > 0
      invariant 0 <= i <= 12 && |edges| == 12
      invariant remaining <= 4 && i <= remaining + 8
      invariant CountTrue(u[..i]) == remaining && CnsIndex(u[..i], remaining) == cur
      invariant YFlags(edges)[i..] == u[i..]
    {
      i := i - 1;
      YSliceDecodeStep(u, i, remaining, cur);
      var c := CalcCombination(i, remaining);
      var k;
      if cur >= c {
        k := remaining + 3;
        cur := cur - c;
        remaining := remaining - 1;
      } else {
        OffSliceSlot(i, remaining);
        k := (i + 8 - remaining) % 12;
      }
      SolvedNormal(k);
      assert u[i] <==> 4 <= k < 8;
      SetYFlag(edges, i, CubeEdges.SOLVED_EDGES[k], u);
      edges := edges[i := CubeEdges.SOLVED_EDGES[k]];
    }
    assert YFlags(edges)[0..] == YFlags(edges) && u[0..] == u;
  }

  /// The slot `from_index` copies a U or D layer edge from lies outside
  /// slots 4 to 7 while fewer than eight such edges have been placed.
  lemma OffSliceSlot(i: nat, r: nat)
    requires r <= i <= r + 7
    ensures (i + 8 - r) % 12 < 4 || 8 <= (i + 8 - r) % 12
  {
  }

  /// Putting an edge in slot `i` whose flag agrees with `u[i]` extends the
  /// agreement of the flags with `u` from slot `i + 1` on to slot `i` on.
  lemma SetYFlag(edges: seq<Edge>, i: nat, e: Edge, u: seq<bool>)
    requires i < |edges| == |u| && YFlags(edges)[i + 1..] == u[i + 1..]
    requires (e.Position().Normal() == Y) == u[i]
    ensures YFlags(edges[i := e])[i..] == u[i..]
  {
    var a, b := YFlags(edges[i := e]), u;
    assert forall j :: i <= j < |u| ==> a[j] == b[j] by {
      forall j | i <= j < |u|
        ensures a[j] == b[j]
      {
        if j > i {
          assert YFlags(edges)[i + 1..][j - i - 1] == u[i + 1..][j - i - 1];
        }
      }
    }
  }

  /// `test_id` for the Y-normal slots.
  method YSliceRoundTrip(i: nat) returns (y: nat)
    ensures y == i % 495
  {
    var x := i % 495;
    var edges := YSliceFromIndex(x);
    y := YSliceIndex(edges);
  }

  // ---- Phase 2: Lehmer codes of the corner and edge permutations ----

  /// The `index` loops of the three phase 2 coordinates: for each element,
  /// multiply the rank so far by the number of elements from it on, then
  /// add one for each later element below it.
  method LehmerIndex(s: seq<nat>) returns (index: nat)
    ensures index == Rank(s)
    ensures index < Fac(|s|)
  {
    ghost var ds := LehmerDigits(s);
    index := 0;
    var i := 0;
    while i < |s|
      invariant 0 <= i <= |s|
      invariant index == MixedValue(ds[..i], |s|)
    {
      var smaller := CountSmaller(s, i);
      MixedSnoc(ds, i, |s|, smaller);
      index := index * (|s| - i) + smaller;
      i := i + 1;
    }
    assert ds[..i] == ds;
    RankBound(s);
  }

  /// The inner loop of `LehmerIndex`: how many elements after `s[i]` are
  /// smaller than it.
  method CountSmaller(s: seq<nat>, i: nat) returns (count: nat)
    requires i < |s|
    ensures count == Smaller(s[i + 1..], s[i])
  {
    count := 0;
    var j := i + 1;
    while j < |s|
      invariant i + 1 <= j <= |s|
      invariant count == Smaller(s[i + 1..j], s[i])
    {
      SmallerSnoc(s, i + 1, j, s[i]);
      if s[i] > s[j] {
        count := count + 1;
      }
      j := j + 1;
    }
    assert s[i + 1..j] == s[i + 1..];
  }

  /// One more element of a slice: counting below `v` in `s[lo..j + 1]`.
  lemma SmallerSnoc(s: seq<nat>, lo: nat, j: nat, v: nat)
    requires lo <= j < |s|
    ensures Smaller(s[lo..j + 1], v) == Smaller(s[lo..j], v) + (if s[j] < v then 1 else 0)
  {
    assert s[lo..j + 1][..j - lo] == s[lo..j];
  }

  /// The `from_index` loops of the three phase 2 coordinates: peel the
  /// digits of radix 2, 3, ..., n off `index`, the last element's digit
  /// being 0; each digit goes in front and every later value at or above it
  /// moves up by one.  What is left of `index` after the last digit is
  /// dropped.
  method LehmerDecode(index: nat, n: nat) returns (s: seq<nat>)
    requires n >= 1
    ensures |s| == n
    ensures forall k :: 0 <= k < n ==> s[k] < n
    ensures forall j, k :: 0 <= j < k < n ==> s[j] != s[k]
    ensures Rank(s) == index % Fac(n)
  {
    s := seq(n, k => 0);
    var cur: nat := index;
    var i := n - 1;
    ghost var ds: seq<nat> := [0];
    assert s[i..] == Place(ds);
    while i > 0
      invariant 0 <= i < n && |s| == n
      invariant |ds| == n - i && ValidDigits(ds)
      invariant s[i..] == Place(ds)
      invariant index == cur * Fac(|ds|) + MixedValue(ds, |ds|)
    {
      i := i - 1;
      var d := cur % (n - i);
      DecodeDigit(index, cur, ds, n - i);
      cur := cur / (n - i);
      ghost var t := s[i + 1..];
      s := s[i := d];
      s := BumpAfter(s, i);
      PlaceFront(s, i, t, d, ds);
      ds := [d] + ds;
    }
    assert s[0..] == s;
    PlaceDigits(ds);
    PlacePermutation(ds);
    MixedBound(ds, n);
    FallingFac(n, n);
    RemainderOf(index, cur, Fac(n), MixedValue(ds, n));
  }

  /// The inner loop of `LehmerDecode`: every value after `s[i]` that is at
  /// least `s[i]` moves up by one.
  method BumpAfter(s: seq<nat>, i: nat) returns (r: seq<nat>)
    requires i < |s|
    ensures |r| == |s| && r[..i + 1] == s[..i + 1]
    ensures forall k :: i + 1 <= k < |s| ==> r[k] == BumpValue(s[k], s[i])
  {
    r := s;
    var j := i + 1;
    while j < |s|
      invariant i + 1 <= j <= |s| && |r| == |s| && r[..i + 1] == s[..i + 1]
      invariant forall k :: i + 1 <= k < j ==> r[k] == BumpValue(s[k], s[i])
      invariant forall k :: j <= k < |s| ==> r[k] == s[k]
    {
      if r[j] >= r[i] {
        r := r[j := r[j] + 1];
      }
      j := j + 1;
    }
  }

  /// Peeling digit `index % (m + 1)` off the accumulator keeps `index`
  /// equal to the accumulator times the product of the radices plus the
  /// digits so far, and keeps the digits valid.
  lemma DecodeDigit(index: nat, cur: nat, ds: seq<nat>, b: nat)
    requires b == |ds| + 1 && ValidDigits(ds)
    requires index == cur * Fac(|ds|) + MixedValue(ds, |ds|)
    ensures ValidDigits([cur % b] + ds)
    ensures index == (cur / b) * Fac(b) + MixedValue([cur % b] + ds, b)
  {
    var m, d, q := |ds|, cur % b, cur / b;
    ValidCons(d, ds);
    var f, v := Fac(m), MixedValue(ds, m);
    assert Fac(b) == b * f;
    MixedCons(d, ds, m);
    FallingFac(m, m);
    assert MixedValue([d] + ds, b) == d * f + v;
    DivRem(cur, b);
    PeelArith(index, cur, f, v, q, b, d);
  }

  /// Euclidean division.
  lemma DivRem(x: nat, b: nat)
    requires b > 0
    ensures x == (x / b) * b + x % b
  {
  }

  /// A digit below `|ds| + 1` in front of valid digits gives valid digits.
  lemma ValidCons(d: nat, ds: seq<nat>)
    requires d < |ds| + 1 && ValidDigits(ds)
    ensures ValidDigits([d] + ds)
  {
    var ds' := [d] + ds;
    forall k | 0 <= k < |ds'|
      ensures ds'[k] < |ds'| - k
    {
      if k > 0 {
        assert ds'[k] == ds[k - 1];
      }
    }
  }

  /// After the bump loop, slot `i` on holds the arrangement of `[d] + ds`.
  lemma PlaceFront(s: seq<nat>, i: nat, t: seq<nat>, d: nat, ds: seq<nat>)
    requires i < |s| && |t| == |s| - i - 1 && t == Place(ds) && s[i] == d
    requires forall k :: i + 1 <= k < |s| ==> s[k] == BumpValue(t[k - i - 1], d)
    ensures s[i..] == Place([d] + ds)
  {
    assert ([d] + ds)[1..] == ds;
    var p := Place([d] + ds);
    assert p == [d] + Bump(t, d);
    forall k | 0 <= k < |s| - i
      ensures s[i..][k] == p[k]
    {
      if k > 0 {
        assert p[k] == Bump(t, d)[k - 1];
      }
    }
  }

  // ---- Phase 2: corner permutation ----

  /// The slot number each corner belongs to, as `position().u8()`.
  function CornerPositions(corners: seq<Corner>): (ps: seq<nat>)
    ensures |ps| == |corners|
    ensures forall k :: 0 <= k < |ps| ==> ps[k] < 8
  {
    seq(|corners|, k requires 0 <= k < |corners| => corners[k].Position().U8())
  }

  /// `CORNER_POSITION.index`: the rank of the corner permutation.
  method CornerPositionIndex(corners: seq<Corner>) returns (index: nat)
    requires |corners| == 8
    ensures index == Rank(CornerPositions(corners))
    ensures index < Fac(8)
  {
    index := LehmerIndex(CornerPositions(corners));
  }

  /// `CORNER_POSITION.from_index`: the untwisted corners in the
  /// permutation of rank `index % 8!`.
  method CornerPositionFromIndex(index: nat) returns (corners: seq<Corner>)
    ensures |corners| == 8
    ensures forall k :: 0 <= k < 8 ==> corners[k].IsOriented()
    ensures forall j, k :: 0 <= j < k < 8 ==> corners[j].Position() != corners[k].Position()
    ensures Rank(CornerPositions(corners)) == index % Fac(8)
  {
    var ps := LehmerDecode(index, 8);
    corners := seq(8, k requires 0 <= k < 8 => CubeCorners.SolvedCorner(ps[k]));
    assert CornerPositions(corners) == ps;
  }

  /// `test_id` for the corner permutation.
  method CornerPositionRoundTrip(i: nat) returns (y: nat)
    ensures y == i % Fac(8)
  {
    var x := i % Fac(8);
    var corners := CornerPositionFromIndex(x);
    y := CornerPositionIndex(corners);
  }

  // ---- Phase 2: permutation of the U and D layer edges ----

  /// The slot numbers of the edges in slots 0 to 3 and 8 to 11, the slots
  /// of the U and D layers.
  function YSlicePositions(edges: seq<Edge>): (ps: seq<nat>)
    requires |edges| == 12
    ensures |ps| == 8
  {
    seq(8, k requires 0 <= k < 8 =>
      if k < 4 then edges[k].Position().Index() else edges[k + 4].Position().Index())
  }

  /// `Y_SLICE_POSITION.index`: the rank of the edges in the U and D layer
  /// slots, valid for a cube in G1.
  method YSlicePositionIndex(edges: seq<Edge>) returns (index: nat)
    requires |edges| == 12
    ensures index == Rank(YSlicePositions(edges))
    ensures index < Fac(8)
  {
    index := LehmerIndex(YSlicePositions(edges));
  }

  /// `Y_SLICE_POSITION.from_index`: starting from the solved edges, put the
  /// solved edges 0 to 7 into slots 0 to 3 and 8 to 11 in the permutation
  /// of rank `index % 8!`; slots 4 to 7 keep their solved edges.
  method YSlicePositionFromIndex(index: nat) returns (edges: seq<Edge>)
    ensures |edges| == 12
    ensures forall k :: 0 <= k < 12 ==> edges[k].IsOriented()
    ensures forall k :: 4 <= k < 8 ==> edges[k] == CubeEdges.SolvedEdge(k)
    ensures forall k :: 0 <= k < 8 ==> YSlicePositions(edges)[k] < 8
    ensures forall j, k :: 0 <= j < k < 8 ==> YSlicePositions(edges)[j] != YSlicePositions(edges)[k]
    ensures Rank(YSlicePositions(edges)) == index % Fac(8)
  {
    var ps := LehmerDecode(index, 8);
    edges := CubeEdges.SOLVED_EDGES;
    CubeEdges.SolvedEdgesAt();
    edges := PlaceSolved(edges, ps, 0, 4, 0);
    edges := PlaceSolved(edges, ps, 8, 12, 4);
    YSliceLayout(edges, ps);
  }

  /// The `output[i] = Edge::solved(edges[i - offset])` loops of the phase 2
  /// `from_index` functions: slots `lo` to `hi - 1` receive the solved edges
  /// named by `ps`, the other slots are kept.
  method PlaceSolved(edges: seq<Edge>, ps: seq<nat>, lo: nat, hi: nat, offset: nat) returns (r: seq<Edge>)
    requires offset <= lo <= hi <= |edges| && hi - offset <= |ps|
    requires forall k :: lo - offset <= k < hi - offset ==> ps[k] < 12
    ensures |r| == |edges|
    ensures forall k :: lo <= k < hi ==> r[k] == CubeEdges.SolvedEdge(ps[k - offset])
    ensures forall k :: 0 <= k < |edges| && !(lo <= k < hi) ==> r[k] == edges[k]
  {
    r := edges;
    var i := lo;
    while i < hi
      invariant lo <= i <= hi && |r| == |edges|
      invariant forall k :: lo <= k < i ==> r[k] == CubeEdges.SolvedEdge(ps[k - offset])
      invariant forall k :: 0 <= k < |edges| && !(lo <= k < i) ==> r[k] == edges[k]
    {
      r := r[i := CubeEdges.SolvedEdge(ps[i - offset])];
      i := i + 1;
    }
  }

  /// Edges laid out as `YSlicePositionFromIndex` leaves them read back as
  /// `ps`, and are all oriented.
  lemma YSliceLayout(edges: seq<Edge>, ps: seq<nat>)
    requires |edges| == 12 && |ps| == 8 && forall k :: 0 <= k < 8 ==> ps[k] < 8
    requires forall k :: 0 <= k < 4 ==> edges[k] == CubeEdges.SolvedEdge(ps[k])
    requires forall k :: 4 <= k < 8 ==> edges[k] == CubeEdges.SolvedEdge(k)
    requires forall k :: 8 <= k < 12 ==> edges[k] == CubeEdges.SolvedEdge(ps[k - 4])
    ensures YSlicePositions(edges) == ps
    ensures forall k :: 0 <= k < 12 ==> edges[k].IsOriented()
  {
  }

  /// `test_id` for the U and D layer edges.
  method YSlicePositionRoundTrip(i: nat) returns (y: nat)
    ensures y == i % Fac(8)
  {
    var x := i % Fac(8);
    var edges := YSlicePositionFromIndex(x);
    y := YSlicePositionIndex(edges);
  }

  // ---- Phase 2: permutation of the Y-normal edges ----

  /// The slot numbers of the edges in slots 4 to 7, the Y-normal slots.
  function NonYSlicePositions(edges: seq<Edge>): (ps: seq<nat>)
    requires |edges| == 12
    ensures |ps| == 4
  {
    seq(4, k requires 0 <= k < 4 => edges[k + 4].Position().Index())
  }

  /// `NON_Y_SLICE_POSITION.index`: the rank of the edges in the Y-normal
  /// slots, valid for a cube in G1.
  method NonYSlicePositionIndex(edges: seq<Edge>) returns (index: nat)
    requires |edges| == 12
    ensures index == Rank(NonYSlicePositions(edges))
    ensures index < Fac(4)
  {
    index := LehmerIndex(NonYSlicePositions(edges));
  }

  /// `NON_Y_SLICE_POSITION.from_index`: starting from the solved edges, put
  /// the solved edges 0 to 3 into slots 4 to 7 in the permutation of rank
  /// `index % 4!`; the other slots keep their solved edges.
  method NonYSlicePositionFromIndex(index: nat) returns (edges: seq<Edge>)
    ensures |edges| == 12
    ensures forall k :: 0 <= k < 12 ==> edges[k].IsOriented()
    ensures forall k :: 0 <= k < 12 && !(4 <= k < 8) ==> edges[k] == CubeEdges.SolvedEdge(k)
    ensures forall k :: 0 <= k < 4 ==> NonYSlicePositions(edges)[k] < 4
    ensures forall j, k :: 0 <= j < k < 4 ==> NonYSlicePositions(edges)[j] != NonYSlicePositions(edges)[k]
    ensures Rank(NonYSlicePositions(edges)) == index % Fac(4)
  {
    var ps := LehmerDecode(index, 4);
    edges := CubeEdges.SOLVED_EDGES;
    CubeEdges.SolvedEdgesAt();
    edges := PlaceSolved(edges, ps, 4, 8, 4);
    assert NonYSlicePositions(edges) == ps;
  }

  /// `test_id` for the Y-normal edges.
  method NonYSlicePositionRoundTrip(i: nat) returns (y: nat)
    ensures y == i % Fac(4)
  {
    var x := i % Fac(4);
    var edges := NonYSlicePositionFromIndex(x);
    y := NonYSlicePositionIndex(edges);
  }

  // ---- The heuristics ----

  /// `PruneTable`: the six distance tables, one per coordinate.
  datatype Tables = Tables(
    orientCorners: seq<nat>,
    orientEdges: seq<nat>,
    putEdgesToYSlice: seq<nat>,
    permuteCorners: seq<nat>,
    permuteYSliceEdges: seq<nat>,
    permuteNonYSliceEdges: seq<nat>)
  {
    /// Every table as long as its coordinate's `max`.
    predicate Sized() {
      |orientCorners| == Pow(3, 7) && |orientEdges| == Pow(2, 11) && |putEdgesToYSlice| == 495 &&
      |permuteCorners| == Fac(8) && |permuteYSliceEdges| == Fac(8) && |permuteNonYSliceEdges| == Fac(4)
    }
  }

  /// `u8::max`.
  function Max(a: nat, b: nat): (m: nat)
    ensures a <= m && b <= m && (m == a || m == b)
  {
    if a >= b then a else b
  }

  /// `phase1_distance_heuristic`: the largest of the corner orientation,
  /// edge orientation and Y-slice tables at the cube's three ranks.  The
  /// Y-slice rank needs the four Y-normal edges the source debug-asserts.
  method Phase1DistanceHeuristic(tables: Tables, cube: Cube3.Cube) returns (h: nat)
    requires tables.Sized() && cube.Valid() && CountTrue(YFlags(cube.edges)) == 4
    ensures var i, j, k := Horner(CornerTwists(cube.corners)[..7], 3), Horner(EdgeFlips(cube.edges)[..11], 2), CnsIndex(YFlags(cube.edges), 4);
      i < |tables.orientCorners| && j < |tables.orientEdges| && k < |tables.putEdgesToYSlice| &&
      var co, eo, ys := tables.orientCorners[i], tables.orientEdges[j], tables.putEdgesToYSlice[k];
      co <= h && eo <= h && ys <= h && (h == co || h == eo || h == ys)
  {
    var co := CornerOrientationIndex(cube.corners);
    var eo := EdgeOrientationIndex(cube.edges);
    var ys := YSliceIndex(cube.edges);
    h := Max(Max(tables.orientCorners[co], tables.orientEdges[eo]), tables.putEdgesToYSlice[ys]);
  }

  /// `phase2_distance_heuristic`: the largest of the corner permutation and
  /// the two edge permutation tables at the cube's three ranks, for a cube
  /// in G1 as the source debug-asserts.
  method Phase2DistanceHeuristic(tables: Tables, cube: Cube3.Cube) returns (h: nat)
    requires tables.Sized() && cube.Valid() && Kociemba.IsInG1(cube)
    ensures var i, j, k := Rank(CornerPositions(cube.corners)), Rank(YSlicePositions(cube.edges)), Rank(NonYSlicePositions(cube.edges));
      i < |tables.permuteCorners| && j < |tables.permuteYSliceEdges| && k < |tables.permuteNonYSliceEdges| &&
      var pc, pye, pnye := tables.permuteCorners[i], tables.permuteYSliceEdges[j], tables.permuteNonYSliceEdges[k];
      pc <= h && pye <= h && pnye <= h && (h == pc || h == pye || h == pnye)
  {
    var pc := CornerPositionIndex(cube.corners);
    var pye := YSlicePositionIndex(cube.edges);
    var pnye := NonYSlicePositionIndex(cube.edges);
    h := Max(Max(tables.permuteCorners[pc], tables.permuteYSliceEdges[pye]), tables.permuteNonYSliceEdges[pnye]);
  }
}
