/// Turning the edges of the Pyraminx (`move_pieces` and
/// `move_pieces_in_place` in `norcina-pyraminx/src/piece/edge.rs`): a core
/// move cycles the three edges of its vertex's layer and toggles the pieces
/// by the U-face slots of the layer: a `Single` turn toggles each piece by
/// the slot it lands in, a `Reverse` turn by the slot it leaves.
module PyraEdgeMoves {
  import Types
  import opened PyraPieces
  import opened PyraMoves
  import opened PyraEdges

  /// The slots a turn of `vertex` cycles, one per axis: on each axis, the
  /// position on the vertex's side, `direction + (axis << 1)`.
  function Slots(vertex: Vertex): (s: (nat, nat, nat))
    ensures s.0 < 2 && 2 <= s.1 < 4 && 4 <= s.2 < 6
  {
    (vertex.X().U8() + Types.Axis.X.U8() * 2, vertex.Y().U8() + Types.Axis.Y.U8() * 2, vertex.Z().U8() + Types.Axis.Z.U8() * 2)
  }

  /// The slots of each vertex's turn.
  lemma SlotsU()
    ensures Slots(U) == (0, 2, 4)
  {
    DirectionsOfVertex(U);
  }

  lemma SlotsL()
    ensures Slots(L) == (1, 3, 4)
  {
    DirectionsOfVertex(L);
  }

  lemma SlotsB()
    ensures Slots(B) == (1, 2, 5)
  {
    DirectionsOfVertex(B);
  }

  lemma SlotsR()
    ensures Slots(R) == (0, 3, 5)
  {
    DirectionsOfVertex(R);
  }

  /// The slots of a turn are exactly the positions of the turned layer: the
  /// edges lying next to the turned vertex.
  lemma SlotsAreTheLayer(vertex: Vertex, p: nat)
    requires p < 6
    ensures var (a, b, c) := Slots(vertex);
      (p == a || p == b || p == c) <==> vertex == FromIndex(p).Vertices().0 || vertex == FromIndex(p).Vertices().1
  {
    if p == 0 {
      Position0();
    } else if p == 1 {
      Position1();
    } else if p == 2 {
      Position2();
    } else if p == 3 {
      Position3();
    } else if p == 4 {
      Position4();
    } else {
      Position5();
    }
    if vertex == U {
      SlotsU();
    } else if vertex == L {
      SlotsL();
    } else if vertex == B {
      SlotsB();
    } else {
      SlotsR();
    }
  }

  /// `data ^= (from_index(slot).is_on_orientation_face() as u8) << 3`: the
  /// piece toggled by `slot` flips when the slot is on the U face.
  function Toggled(slot: nat, e: Edge): (r: Edge)
    requires slot < 6
    ensures r.Position() == e.Position()
    ensures r.IsOriented() == (e.IsOriented() != FlipsAt(slot))
  {
    if FromIndex(slot).IsOnOrientationFace() then e.Flipped() else e
  }

  /// Toggling the same slot twice changes nothing.
  lemma ToggledTwice(slot: nat, e: Edge)
    requires slot < 6
    ensures Toggled(slot, Toggled(slot, e)) == e
  {
  }

  /// The six edges after turning the layer of slots `a`, `b`, `c`.  A
  /// `Single` turn moves the piece in `b` to `a`, `c` to `b` and `a` to `c`;
  /// a `Reverse` turn moves them the other way round.  A `Single` turn
  /// toggles each piece by the slot it lands in (after the swaps), a
  /// `Reverse` turn by the slot it leaves (before the swaps).
  function Cycled(edges: seq<Edge>, a: nat, b: nat, c: nat, amount: Amount): (r: seq<Edge>)
    requires |edges| == 6 && a < 2 && 2 <= b < 4 && 4 <= c < 6
    ensures |r| == 6
    ensures forall i | 0 <= i < 6 && i != a && i != b && i != c :: r[i] == edges[i]
    ensures amount == Single ==> r[a] == Toggled(a, edges[b]) && r[b] == Toggled(b, edges[c]) && r[c] == Toggled(c, edges[a])
    ensures amount == Reverse ==> r[a] == Toggled(c, edges[c]) && r[b] == Toggled(a, edges[a]) && r[c] == Toggled(b, edges[b])
  {
    if amount == Single then
      edges[a := Toggled(a, edges[b])][b := Toggled(b, edges[c])][c := Toggled(c, edges[a])]
    else
      edges[a := Toggled(c, edges[c])][b := Toggled(a, edges[a])][c := Toggled(b, edges[b])]
  }

  /// The six edges after a core move: its vertex's layer turned.
  function Moved(edges: seq<Edge>, m: CoreMove): (r: seq<Edge>)
    requires |edges| == 6
    ensures |r| == 6
  {
    var (a, b, c) := Slots(m.Vertex());
    Cycled(edges, a, b, c, m.Amount())
  }

  /// `edges.swap(i, j)`.
  method Swap(edges: array<Edge>, i: nat, j: nat)
    requires i < edges.Length && j < edges.Length
    modifies edges
    ensures edges[i] == old(edges[j]) && edges[j] == old(edges[i])
    ensures forall k | 0 <= k < edges.Length && k != i && k != j :: edges[k] == old(edges[k])
  {
    edges[i], edges[j] := edges[j], edges[i];
  }

  /// The three toggles of `move_pieces_in_place`, each on the piece then in
  /// its slot.
  method ToggleSlots(edges: array<Edge>, a: nat, b: nat, c: nat)
    requires edges.Length == 6 && a < 2 && 2 <= b < 4 && 4 <= c < 6
    modifies edges
    ensures edges[a] == Toggled(a, old(edges[a])) && edges[b] == Toggled(b, old(edges[b])) && edges[c] == Toggled(c, old(edges[c]))
    ensures forall k | 0 <= k < 6 && k != a && k != b && k != c :: edges[k] == old(edges[k])
  {
    edges[a] := Toggled(a, edges[a]);
    edges[b] := Toggled(b, edges[b]);
    edges[c] := Toggled(c, edges[c]);
  }

  /// The body of `move_pieces_in_place` once the slots are known: for a
  /// reverse turn, toggle the three slots and then swap `b, c` and `a, b`;
  /// for a single turn, swap `a, b` and `b, c` and then toggle.
  method TurnLayer(edges: array<Edge>, a: nat, b: nat, c: nat, amount: Amount)
    requires edges.Length == 6 && a < 2 && 2 <= b < 4 && 4 <= c < 6
    modifies edges
    ensures edges[..] == Cycled(old(edges[..]), a, b, c, amount)
  {
    ghost var before := edges[..];
    if amount == Reverse {
      ToggleSlots(edges, a, b, c);
    }
    if amount == Single {
      Swap(edges, a, b);
      Swap(edges, b, c);
    } else {
      Swap(edges, b, c);
      Swap(edges, a, b);
    }
    if amount == Single {
      ToggleSlots(edges, a, b, c);
    }
    ghost var after := Cycled(before, a, b, c, amount);
    assert edges[a] == after[a] && edges[b] == after[b] && edges[c] == after[c];
    assert forall i | 0 <= i < 6 :: edges[i] == after[i];
  }

  /// `move_pieces_in_place`: the three slots of the move's vertex, turned.
  method MovePiecesInPlace(edges: array<Edge>, m: CoreMove)
    requires edges.Length == 6
    modifies edges
    ensures edges[..] == Moved(old(edges[..]), m)
  {
    var (a, b, c) := Slots(m.Vertex());
    TurnLayer(edges, a, b, c, m.Amount());
  }

  /// `move_pieces`: the same on a copy.
  method MovePieces(edges: seq<Edge>, m: CoreMove) returns (r: seq<Edge>)
    requires |edges| == 6
    ensures r == Moved(edges, m)
  {
    var copy := new Edge[6];
    copy[0], copy[1], copy[2], copy[3], copy[4], copy[5] := edges[0], edges[1], edges[2], edges[3], edges[4], edges[5];
    assert copy[..] == edges;
    MovePiecesInPlace(copy, m);
    r := copy[..];
  }

  /// A turn leaves the edges outside its layer where they are.
  lemma MovedKeepsOtherSlots(edges: seq<Edge>, m: CoreMove, i: nat)
    requires |edges| == 6 && i < 6
    requires var (a, b, c) := Slots(m.Vertex()); i != a && i != b && i != c
    ensures Moved(edges, m)[i] == edges[i]
  {
  }

  /// Whether the piece toggled by `slot` flips: the slot is on the U face.
  predicate FlipsAt(slot: nat)
    requires slot < 6
  {
    FromIndex(slot).IsOnOrientationFace()
  }

  /// The U-face slots are the odd ones.
  lemma FlipsAtTable()
    ensures !FlipsAt(0) && FlipsAt(1) && !FlipsAt(2) && FlipsAt(3) && !FlipsAt(4) && FlipsAt(5)
  {
    assert FromIndex(0).AxisDirection() == Types.Positive;
    assert FromIndex(1).AxisDirection() == Types.Negative;
    assert FromIndex(2).AxisDirection() == Types.Positive;
    assert FromIndex(3).AxisDirection() == Types.Negative;
    assert FromIndex(4).AxisDirection() == Types.Positive;
    assert FromIndex(5).AxisDirection() == Types.Negative;
  }

  /// An edge is its position and its orientation.
  lemma EdgeParts(e: Edge, f: Edge)
    requires e.Position() == f.Position() && e.IsOriented() == f.IsOriented()
    ensures e == f
  {
  }

  /// Three toggles of which an even number flip change nothing.
  lemma ToggledThrice(x: nat, y: nat, z: nat, e: Edge)
    requires x < 6 && y < 6 && z < 6 && (FlipsAt(x) != FlipsAt(y)) == FlipsAt(z)
    ensures Toggled(x, Toggled(y, Toggled(z, e))) == e
  {
    EdgeParts(Toggled(x, Toggled(y, Toggled(z, e))), e);
  }

  /// Every layer has an even number of U-face slots: none for U, two for
  /// the others.
  lemma SlotsParity(vertex: Vertex)
    ensures var (a, b, c) := Slots(vertex); (FlipsAt(a) != FlipsAt(b)) == FlipsAt(c)
  {
    FlipsAtTable();
    if vertex == U {
      SlotsU();
    } else if vertex == L {
      SlotsL();
    } else if vertex == B {
      SlotsB();
    } else {
      SlotsR();
    }
  }

  /// Whether one of the two positions `i`, `i + 1` on an axis holds a
  /// flipped edge and the other does not.
  function AxisOddFlips(edges: seq<Edge>, i: nat): bool
    requires |edges| == 6 && i < 5
  {
    !edges[i].IsOriented() != !edges[i + 1].IsOriented()
  }

  /// Whether the number of flipped edges is odd.
  function OddFlips(edges: seq<Edge>): bool
    requires |edges| == 6
  {
    (AxisOddFlips(edges, 0) != AxisOddFlips(edges, 2)) != AxisOddFlips(edges, 4)
  }

  /// Two edge lists that differ at most in slot `a` of the axis starting at
  /// `i`: the parity of that axis changes with the orientation in `a`.
  lemma AxisOddFlipsChange(edges: seq<Edge>, r: seq<Edge>, i: nat, a: nat)
    requires |edges| == 6 && |r| == 6 && i < 5 && i <= a <= i + 1
    requires r[2 * i + 1 - a] == edges[2 * i + 1 - a]
    ensures (AxisOddFlips(r, i) != AxisOddFlips(edges, i)) == (r[a].IsOriented() != edges[a].IsOriented())
  {
  }

  /// Two edge lists that differ only in slots `a`, `b`, `c`: the parity of
  /// their flips differs by what those slots hold.
  lemma OddFlipsOutside(edges: seq<Edge>, r: seq<Edge>, a: nat, b: nat, c: nat)
    requires |edges| == 6 && |r| == 6 && a < 2 && 2 <= b < 4 && 4 <= c < 6
    requires forall i | 0 <= i < 6 && i != a && i != b && i != c :: r[i] == edges[i]
    ensures (OddFlips(r) != OddFlips(edges)) ==
      (((r[a].IsOriented() != edges[a].IsOriented()) != (r[b].IsOriented() != edges[b].IsOriented()))
        != (r[c].IsOriented() != edges[c].IsOriented()))
  {
    AxisOddFlipsChange(edges, r, 0, a);
    AxisOddFlipsChange(edges, r, 2, b);
    AxisOddFlipsChange(edges, r, 4, c);
  }

  /// Turning a layer with an even number of U-face slots keeps the parity of
  /// the number of flipped edges.
  lemma CycledKeepsFlipParity(edges: seq<Edge>, a: nat, b: nat, c: nat, amount: Amount)
    requires |edges| == 6 && a < 2 && 2 <= b < 4 && 4 <= c < 6
    requires (FlipsAt(a) != FlipsAt(b)) == FlipsAt(c)
    ensures OddFlips(Cycled(edges, a, b, c, amount)) == OddFlips(edges)
  {
    OddFlipsOutside(edges, Cycled(edges, a, b, c, amount), a, b, c);
  }

  /// No turn changes whether the number of flipped edges is even: each turn
  /// toggles by an even number of U-face slots.
  lemma MovedKeepsFlipParity(edges: seq<Edge>, m: CoreMove)
    requires |edges| == 6
    ensures OddFlips(Moved(edges, m)) == OddFlips(edges)
  {
    var (a, b, c) := Slots(m.Vertex());
    SlotsParity(m.Vertex());
    CycledKeepsFlipParity(edges, a, b, c, m.Amount());
  }

  /// Turning a layer one way and then the other restores the edges.
  lemma CycledThenBack(edges: seq<Edge>, a: nat, b: nat, c: nat, amount: Amount)
    requires |edges| == 6 && a < 2 && 2 <= b < 4 && 4 <= c < 6
    ensures Cycled(Cycled(edges, a, b, c, amount), a, b, c, if amount == Single then Reverse else Single) == edges
  {
    var r := Cycled(Cycled(edges, a, b, c, amount), a, b, c, if amount == Single then Reverse else Single);
    ToggledTwice(a, edges[a]);
    ToggledTwice(b, edges[b]);
    ToggledTwice(c, edges[c]);
    assert forall i | 0 <= i < 6 :: r[i] == edges[i];
  }

  /// A turn followed by the opposite turn of the same vertex restores the
  /// edges.
  lemma MovedThenInverse(edges: seq<Edge>, m: CoreMove)
    requires |edges| == 6
    ensures Moved(Moved(edges, m), CoreInverse(m)) == edges
  {
    var (a, b, c) := Slots(m.Vertex());
    CycledThenBack(edges, a, b, c, m.Amount());
  }

  /// Turning a layer with an even number of U-face slots three times the
  /// same way restores the edges.
  lemma CycledThrice(edges: seq<Edge>, a: nat, b: nat, c: nat, amount: Amount)
    requires |edges| == 6 && a < 2 && 2 <= b < 4 && 4 <= c < 6
    requires (FlipsAt(a) != FlipsAt(b)) == FlipsAt(c)
    ensures Cycled(Cycled(Cycled(edges, a, b, c, amount), a, b, c, amount), a, b, c, amount) == edges
  {
    var r := Cycled(Cycled(Cycled(edges, a, b, c, amount), a, b, c, amount), a, b, c, amount);
    if amount == Single {
      ToggledThrice(a, b, c, edges[a]);
      ToggledThrice(b, c, a, edges[b]);
      ToggledThrice(c, a, b, edges[c]);
    } else {
      ToggledThrice(c, b, a, edges[a]);
      ToggledThrice(a, c, b, edges[b]);
      ToggledThrice(b, a, c, edges[c]);
    }
    assert forall i | 0 <= i < 6 :: r[i] == edges[i];
  }

  /// Three turns of the same layer the same way restore the edges.
  lemma MovedThrice(edges: seq<Edge>, m: CoreMove)
    requires |edges| == 6
    ensures Moved(Moved(Moved(edges, m), m), m) == edges
  {
    var (a, b, c) := Slots(m.Vertex());
    SlotsParity(m.Vertex());
    CycledThrice(edges, a, b, c, m.Amount());
  }

  /// Every position is held by exactly one edge.
  predicate EachPositionOnce(edges: seq<Edge>) {
    |edges| == 6 && forall i, j | 0 <= i < j < 6 :: edges[i].Position() != edges[j].Position()
  }

  /// The solved edges hold each position once.
  lemma SolvedEachPositionOnce()
    ensures EachPositionOnce(SOLVED_EDGES)
  {
  }

  /// A turn only moves pieces between slots: a state holding each position
  /// once still does after any turn.
  lemma MovedKeepsEachPositionOnce(edges: seq<Edge>, m: CoreMove)
    requires EachPositionOnce(edges)
    ensures EachPositionOnce(Moved(edges, m))
  {
    var (a, b, c) := Slots(m.Vertex());
    var r := Moved(edges, m);
    forall i, j | 0 <= i < j < 6
      ensures r[i].Position() != r[j].Position()
    {
      var i' := if i == a then (if m.Amount() == Single then b else c)
        else if i == b then (if m.Amount() == Single then c else a)
        else if i == c then (if m.Amount() == Single then a else b) else i;
      var j' := if j == a then (if m.Amount() == Single then b else c)
        else if j == b then (if m.Amount() == Single then c else a)
        else if j == c then (if m.Amount() == Single then a else b) else j;
      assert r[i].Position() == edges[i'].Position() && r[j].Position() == edges[j'].Position();
      assert i' != j';
    }
  }
}
