# norcina and pesto in Dafny

A model of the core of the norcina twisty-puzzle workspace and of its
pesto speed-cubing timer, with proofs of the laws the code and its tests
rely on.

What is modelled:

- **Axis, direction and face algebra** (`Types`, `CubeMath`, `Faces`):
  the packed `Direction`, `Axis`, `Orientation3` and `Face` values of
  `norcina-core/src/types.rs`, `norcina-cube-n/src/math.rs` and
  `norcina-cube-n/src/face.rs`: `next`/`prev`/`other`, `flip`, `opposite`,
  `cross`, the conversions from bytes and their panics as preconditions.
- **3x3x3 pieces and moves** (`CubeMoves`, `CubeEdges`, `CubeCorners`,
  `SlotCycles`, `Cube3`): the `---aafff` moves, the `---onnba` edges and
  `---oozyx` corners with their face decoding, stickers, turn distances and
  `move_pieces`; `count_swaps` as a loop proved to count the cycles of the
  slot permutation; `Cube::mov` as a loop proved against a fold.
- **Search** (`Kociemba`, `Search`, `PruneTable`, `Coordinates`,
  `CoreMath`, `PruneFill`, `LutHeuristic`): the G1 predicate, search
  solutions and the Manhattan heuristic, `fac` and `choose`, the six
  coordinate `index`/`from_index` pairs of the Kociemba prune tables (base 3,
  base 2, combinatorial number system, Lehmer codes), the in-place
  breadth-first fill of a prune table proved to store distances, and the
  corner and half-edge numbering of the lookup-table heuristic.
- **Pyraminx** (`PyraPieces`, `PyraMoves`, `PyraEdges`, `PyraEdgeMoves`,
  `PyraCenters`, `PyraTips`, `Pyraminx`): vertex bit algebra and the cyclic
  `offset`, move packing, edges turned in place by swaps and toggles, the
  two-bit centre and tip counters, and the puzzle as a fold of moves.
- **Timer app** (`Algs`, `Events`, `PestoSolve`, `PestoEvents`, `Timer`):
  algorithm reversal and display, the WCA event table, penalties and the
  `SS.mmm` / `MM:SS.mmm` duration text, sessions and events, and the
  press/release timer as a class whose methods change its state.
- **First version** (`Legacy`): the edge, corner and move code under `src/`,
  compared with the newer crates.

Packed `u8` values are newtypes over the integers whose constraint is the
set of bytes the source can build; bit operations are written as the
arithmetic they perform on the fields. Source assertions and panics become
preconditions, and `eyre::Result` becomes `Result`. The clock is a
parameter: every timer transition is given the current instant.

## Model

| member | source | states |
|---|---|---|
| `Types.Direction.U8` | norcina-core/src/types.rs:26-28 | the discriminant is 0 for Positive and 1 for Negative |
| `Types.Direction.Bool` | norcina-core/src/types.rs:19-23 | the bool is true exactly for the discriminant 1 (Negative) |
| `Types.Direction.Flip` | norcina-core/src/types.rs:67-69 | `u8 ^ 1`: the result is never the input and the two discriminants add to 1 |
| `Types.FromBool` | norcina-core/src/types.rs:12-16 | the direction whose `bool` is the given value |
| `Types.FromU8Any` | norcina-core/src/types.rs:35-37 | Positive exactly for 0, Negative for every nonzero value |
| `Types.FromU8Mod2` | norcina-core/src/types.rs:42-46 | the direction of the low bit of the value |
| `Types.FromU8` | norcina-core/src/types.rs:61-64 | requires a value below 2 (the source panics otherwise); its discriminant is the value |
| `Types.DirectionRoundTrips` | norcina-core/src/types.rs:12-69 | `from_bool(bool(d)) == d`, `from_u8(u8(d)) == d`, `flip` is an involution, and `from_u8_mod2(v) == from_u8(v & 1)` |
| `Types.Axis.U8` | norcina-core/src/types.rs:82-84 | the axis index is below 3 |
| `Types.Axis.Next` | norcina-core/src/types.rs:115-121 | the next axis has index `(a + 1) % 3` |
| `Types.Axis.Prev` | norcina-core/src/types.rs:124-130 | the previous axis has index `(a + 2) % 3` |
| `Types.AxisFromU8` | norcina-core/src/types.rs:87-91 | requires a value below 3 (the source panics otherwise); the axis index is the value |
| `Types.AxisFromU8Mod3` | norcina-core/src/types.rs:94-97 | the axis index is the value modulo 3 |
| `Types.AxisFromI8Mod3` | norcina-core/src/types.rs:100-104 | the axis index is the Euclidean remainder of the value by 3, negative values included, and agrees with `from_u8_mod3` on non-negative ones |
| `Types.OtherAxis` | norcina-core/src/types.rs:136-141 | for two different axes the result differs from both; for equal axes it is that axis |
| `Types.AxisCycle` | norcina-core/src/types.rs:115-130 | `a`, `next(a)` and `prev(a)` are the three distinct axes, `prev` undoes `next` both ways, and `next` twice is `prev` (so three times is the identity) |
| `Types.Orientation3.U8` | norcina-core/src/types.rs:196-198 | the stored orientation is below 3 |
| `Types.Orientation3.IsOriented` | norcina-core/src/types.rs:200-202 | oriented exactly for orientation 0 |
| `Types.Orientation3.Neg` | norcina-core/src/types.rs:205-210 | the bit trick gives the additive inverse: `x + (-x)` is 0 modulo 3 |
| `Types.Orientation3FromU8Mod3` | norcina-core/src/types.rs:171-176 | the orientation is the value modulo 3, so always below 3 |
| `Types.Orientation3FromI8Mod3` | norcina-core/src/types.rs:179-184 | the orientation is the Euclidean remainder by 3, negative values included |
| `Types.Orientation3FromU8` | norcina-core/src/types.rs:189-193 | requires a value below 3 (the source panics otherwise); the orientation is the value |
| `Types.NegInvolution` | norcina-core/src/types.rs:205-210 | negation is an involution and fixes only orientation 0 (0→0, 1→2, 2→1) |
| `CubeMath.DirectionXor` | norcina-cube-n/src/math.rs:61-67 | `a ^ b` is Negative exactly when the two differ: xor with Positive keeps `a`, xor with Negative flips it |
| `CubeMath.OtherAxisUnsignedAgrees` | norcina-cube-n/src/math.rs:125-131 | the unsigned formula `(2a + 3 - b) % 3` gives the same axis as the core `Axis::other`, so it too differs from two different inputs |
| `Faces.Face.U8` | norcina-cube-n/src/face.rs:22-24 | a face byte is below 7 and never 3 |
| `Faces.Face.Axis` | norcina-cube-n/src/face.rs:44-46 | the axis is bits 0-1 of the byte |
| `Faces.Face.Direction` | norcina-cube-n/src/face.rs:49-51 | the direction is bit 2 of the byte |
| `Faces.Face.Opposite` | norcina-cube-n/src/face.rs:54-56 | `u8 ^ 0b100`: same axis, flipped direction |
| `Faces.Face.Cross` | norcina-cube-n/src/face.rs:66-73 | requires perpendicular faces (the source asserts it); the result lies on the third axis, perpendicular to both |
| `Faces.NewFace` | norcina-cube-n/src/face.rs:26-28 | `Face::new(axis, dir)` reads back `axis` and `dir` |
| `Faces.FaceFromU8` | norcina-cube-n/src/face.rs:30-41 | requires an index other than 3 and below 7 (the source panics otherwise); the face's byte is the index |
| `Faces.FaceEncoding` | norcina-cube-n/src/face.rs:22-51 | `new(axis(f), direction(f)) == f`, `from_u8(u8(f)) == f`, the byte is `axis + 4 * direction`, and axis and direction together determine the face |
| `Faces.AllFaces` | norcina-cube-n/src/face.rs:75-77 | `iter` yields the six faces, each once: R, U, F (positive, in axis order), then L, D, B |
| `Faces.OppositeInvolution` | norcina-cube-n/src/face.rs:54-56 | the opposite of the opposite is the face itself |
| `Faces.CrossRightHanded` | norcina-cube-n/src/face.rs:66-73 | for two positive faces with the second on the next axis, the cross product is the positive face of the remaining axis (R x U = F, U x F = R, F x R = U) |
| `Faces.CrossAntiCommutes` | norcina-cube-n/src/face.rs:66-73 | swapping the operands gives the opposite face |
| `Faces.CrossOpposite` | norcina-cube-n/src/face.rs:66-73 | replacing either operand by its opposite gives the opposite face |
| `Faces.CharInjective` | norcina-cube-n/src/face.rs:79-88 | the display characters of different faces differ |
| `CubeMoves.Amount.U8` | norcina-cube-n/src/mov.rs:15-17 | the amount is stored as 1, 2 or 3 quarter turns |
| `CubeMoves.Amount.Reversed` | norcina-cube-n/src/mov.rs:31-38 | the reverse amount adds up with the amount to a whole turn (0 modulo 4) |
| `CubeMoves.Amount.Mul` | norcina-cube-n/src/mov.rs:45-55 | `amount * Positive == amount`, `amount * Negative` is the reversed amount (4 - amount) |
| `CubeMoves.ReversedInvolution` | norcina-cube-n/src/mov.rs:31-38 | `reverse` is an involution that fixes exactly Double (it swaps Single and Reverse) |
| `CubeMoves.AmountFromU8` | norcina-cube-n/src/mov.rs:20-28 | accepts only 1, 2 and 3 (the source panics otherwise); the amount read back is the value |
| `CubeMoves.Move.Display` | norcina-cube-n/src/mov.rs:105-115 | two characters, the first being the face's letter |
| `CubeMoves.Iter` | norcina-cube-n/src/mov.rs:84-86 | 18 moves: entry `k` is face `k / 3` of `Face::iter` with amount `k % 3` of `Amount::iter` |
| `CubeMoves.NewMoveAccessors` | norcina-cube-n/src/mov.rs:65-77 | `Move::new(face, amount)` reads back `face` and `amount` |
| `CubeMoves.MoveEncoding` | norcina-cube-n/src/mov.rs:59-77 | a move is `new(face(m), amount(m))`, and face and amount together determine it |
| `CubeMoves.MoveNames` | norcina-cube-n/src/mov.rs:125-160 | each named constant R, R2, R' ... B' is `Move::new` of its face and amount |
| `CubeMoves.AllMovesIter` | norcina-cube-n/src/mov.rs:84-93 | the constant `ALL` lists the moves in the order `iter` yields them |
| `CubeMoves.AllMovesComplete` | norcina-cube-n/src/mov.rs:88-93 | every move is in `ALL` |
| `CubeMoves.AllMovesDistinct` | norcina-cube-n/src/mov.rs:88-93 | the 18 entries of `ALL` are pairwise different |
| `CubeMoves.InverseInvolution` | norcina-cube-n/src/mov.rs:118-123 | the inverse of the inverse is the move |
| `CubeMoves.InverseFixesHalfTurns` | norcina-cube-n/src/mov.rs:118-123 | a move is its own inverse exactly when it is a half turn |
| `CubeMoves.InverseAccessors` | norcina-cube-n/src/mov.rs:118-123 | the inverse keeps the face and reverses the amount |
| `CubeMoves.InverseTurnsBack` | norcina-cube-n/src/mov.rs:118-123 | for a quarter turn, the inverse turns the same face the other way about its axis |
| `CubeMoves.AllMovesBytes` | norcina-cube-n/src/mov.rs:59-93 | the bytes of `ALL`: face in bits 0-2, amount in bits 3-4, in R U F L D B order |
| `CubeMoves.IterBytes` | norcina-cube-n/src/mov.rs:84-86 | the bytes `iter` yields, in the same order |
| `CubeEdges.EdgePosition.Faces` | norcina-cube-n/src/piece/edge.rs:137-142 | an edge slot touches two faces |
| `CubeEdges.EdgePosition.WithOrientation` | norcina-cube-n/src/piece/edge.rs:247-251 | the edge built reads back this slot and the given orientation |
| `CubeEdges.EdgePositionFromIndex` | norcina-cube-n/src/piece/edge.rs:152-162 | `from_index` accepts 0..11 and the slot's `index` is the argument |
| `CubeEdges.Edge.IsOriented` | norcina-cube-n/src/piece/edge.rs:62-65 | oriented exactly when the orientation bit reads Positive |
| `CubeEdges.SolvedEdge` | norcina-cube-n/src/piece/edge.rs:56-59 | `solved(i)` sits in slot `i` and is oriented |
| `CubeEdges.SolvedEdgesAt` | norcina-cube-n/src/piece/edge.rs:41-54 | `SOLVED` has 12 entries, entry `i` being `solved(i)` |
| `CubeEdges.Toggle` | norcina-cube-n/src/piece/edge.rs:263-348 | toggling keeps the slot and flips the orientation exactly when asked |
| `CubeEdges.MovePieces` | norcina-cube-n/src/piece/edge.rs:263-348 | `move_pieces` maps 12 edges to 12 edges |
| `CubeEdges.MovePiecesAt` | norcina-cube-n/src/piece/edge.rs:263-348 | slot `k` after the move holds the edge pulled from `Pull(mov, k)`, toggled when that pull flips it |
| `CubeEdges.SlotFields` | norcina-cube-n/src/piece/edge.rs:98-120 | a slot byte is `a + 2*b + 4*normal` |
| `CubeEdges.SlotFromFields` | norcina-cube-n/src/piece/edge.rs:98-120 | the byte built from `a`, `b` and `normal` reads them back |
| `CubeEdges.SlotBits` | norcina-cube-n/src/piece/edge.rs:108-120 | `a` is bit 0, `b` is bit 1 and `normal` is the byte shifted right by 2 |
| `CubeEdges.FacesRoundTrip` | norcina-cube-n/src/piece/edge.rs:122-142 | `from_faces(p.faces()) == p` |
| `CubeEdges.FromFacesRoundTrip` | norcina-cube-n/src/piece/edge.rs:407-418 | for two faces on different axes, `from_faces([f1, f2]).faces()` is `[f1, f2]` or `[f2, f1]` (the quickcheck property) |
| `CubeEdges.FromFieldsFaces` | norcina-cube-n/src/piece/edge.rs:122-142 | the slot with faces on `normal.next()` and `normal.prev()` lists them in that order |
| `CubeEdges.FromFacesContains` | norcina-cube-n/src/piece/edge.rs:122-135 | the slot built from two faces contains both, and its normal is the third axis |
| `CubeEdges.DirectionOnAxisBits` | norcina-cube-n/src/piece/edge.rs:165-174 | on `normal.next()` the slot reads `a`, on `normal.prev()` it reads `b` |
| `CubeEdges.SlotDetermined` | norcina-cube-n/src/piece/edge.rs:98-174 | the normal and the two directions determine the slot |
| `CubeEdges.ContainsFaceIff` | norcina-cube-n/src/piece/edge.rs:207-209 | `contains_face(f)` holds exactly when `f` is one of `faces()` |
| `CubeEdges.TurnDistanceTable` | norcina-cube-n/src/piece/edge.rs:217-225 | `turn_distance` is 2 minus the number of shared faces, tabulated for all 144 pairs |
| `CubeEdges.CountAtDistance` | norcina-cube-n/src/piece/edge.rs:420-428 | the number of slots among the first `n` at distance `d` is at most `n` |
| `CubeEdges.CountMatchesTable` | norcina-cube-n/src/piece/edge.rs:420-428 | the count over `ALL` agrees with the tabulated distances |
| `CubeEdges.CountsAddUp` | norcina-cube-n/src/piece/edge.rs:217-225 | the distance is always 0, 1 or 2: the three bins add up to `n` |
| `CubeEdges.TurnDistanceDistribution` | norcina-cube-n/src/piece/edge.rs:420-428 | from every slot: 1 slot at distance 0, 6 at distance 1, 5 at distance 2 |
| `CubeEdges.PullOffFace` | norcina-cube-n/src/piece/edge.rs:263-348 | a slot off the turned face keeps its edge, unflipped |
| `CubeEdges.PullDouble` | norcina-cube-n/src/piece/edge.rs:263-348 | a half turn pulls from another slot on the face with the same normal, with the third-axis direction flipped, and never flips |
| `CubeEdges.PullDoubleTwice` | norcina-cube-n/src/piece/edge.rs:263-348 | pulling twice through a half turn comes back to the slot |
| `CubeEdges.PullQuarter` | norcina-cube-n/src/piece/edge.rs:263-348 | a quarter turn pulls from the slot on the face whose normal is the third axis; it flips the edge exactly for F and B turns |
| `CubeEdges.TurnedFaceAxis` | norcina-cube-n/src/piece/edge.rs:263-348 | the face the quarter turn brings in is on the slot's normal, its direction flipped when that axis leads the turn |
| `CubeEdges.EdgeDetermined` | norcina-cube-n/src/piece/edge.rs:11-71 | slot and orientation determine the edge byte |
| `CubeEdges.ToggleTwice` | norcina-cube-n/src/piece/edge.rs:263-348 | two toggles compose as one toggle by their exclusive or |
| `CubeEdges.MovePiecesThen` | norcina-cube-n/src/piece/edge.rs:263-348 | two moves in a row pull through both pulls, the flips composed |
| `CubeEdges.PullInverse` | norcina-cube-n/src/piece/edge.rs:263-348 | a move then its inverse pulls every slot from itself, unflipped |
| `CubeEdges.PullInverseOffFace` | norcina-cube-n/src/piece/edge.rs:263-348 | `PullInverse` for slots off the face |
| `CubeEdges.PullInverseDouble` | norcina-cube-n/src/piece/edge.rs:263-348 | `PullInverse` for half turns |
| `CubeEdges.PullInverseQuarter` | norcina-cube-n/src/piece/edge.rs:263-348 | `PullInverse` for quarter turns on the face |
| `CubeEdges.QuarterBack` | norcina-cube-n/src/piece/edge.rs:263-348 | two quarter pulls with opposite leading axes come back to the start |
| `CubeEdges.PullQuarterThenHalf` | norcina-cube-n/src/piece/edge.rs:263-348 | a quarter turn then the half turn of that face pulls as the inverse quarter turn |
| `CubeEdges.PullQuarterThenHalfOnFace` | norcina-cube-n/src/piece/edge.rs:263-348 | `PullQuarterThenHalf` for slots on the face |
| `CubeEdges.QuarterAfterHalf` | norcina-cube-n/src/piece/edge.rs:263-348 | a half pull then a quarter pull lands where the opposite quarter pull does |
| `CubeEdges.MoveThenInverse` | norcina-cube-n/src/piece/edge.rs:263-348 | `move_pieces(move_pieces(e, m), m.inverse()) == e` |
| `CubeEdges.QuarterThenHalf` | norcina-cube-n/src/piece/edge.rs:263-348 | a quarter turn then the half turn of that face equals the inverse quarter turn |
| `CubeEdges.MovePiecesOffFace` | norcina-cube-n/src/piece/edge.rs:263-348 | slots off the turned face keep their edges |
| `CubeEdges.MovePiecesOnFace` | norcina-cube-n/src/piece/edge.rs:263-348 | a slot on the face receives the edge of another slot on the face, toggled exactly for quarter turns of F and B |
| `CubeEdges.OrientationAxes` | norcina-cube-n/src/piece/edge.rs:182-197 | the orientation axis and the other axis are the two axes other than the normal |
| `CubeEdges.OrientationFaces` | norcina-cube-n/src/piece/edge.rs:199-205 | the orientation face and the other face are the slot's two faces |
| `CubeEdges.StickerShowsHomeFace` | norcina-cube-n/src/piece/edge.rs:254-261 | a sticker shows one of the edge's home faces, and flipping the edge changes it |
| `CubeEdges.SolvedSticker` | norcina-cube-n/src/piece/edge.rs:247-261 | an oriented edge in its own slot shows each face's own colour |
| `CubeCorners.CornerPosition.Faces` | norcina-cube-n/src/piece/corner.rs:184-190 | a corner slot touches three faces |
| `CubeCorners.CornerPosition.Parity` | norcina-cube-n/src/piece/corner.rs:215-217 | the parity is a bit |
| `CubeCorners.CornerPosition.WithOrientation` | norcina-cube-n/src/piece/corner.rs:254-258 | the corner built reads back this slot and the given orientation |
| `CubeCorners.DifferingCoordinates` | norcina-cube-n/src/piece/corner.rs:225-236 | at most three of the coordinates differ |
| `CubeCorners.CornerPositionFromIndex` | norcina-cube-n/src/piece/corner.rs:195-204 | `from_index` accepts 0..7 and `u8` reads the argument back |
| `CubeCorners.Corner.IsOriented` | norcina-cube-n/src/piece/corner.rs:68-70 | oriented exactly when the orientation is zero |
| `CubeCorners.Corner.SetOrientation` | norcina-cube-n/src/piece/corner.rs:73-75 | the slot is kept and the orientation becomes the given one |
| `CubeCorners.SolvedCorner` | norcina-cube-n/src/piece/corner.rs:82-85 | `solved(i)` sits in slot `i` and is oriented |
| `CubeCorners.SolvedCornersAt` | norcina-cube-n/src/piece/corner.rs:21-30 | `SOLVED` has 8 entries, entry `i` being `solved(i)` |
| `CubeCorners.PositionBits` | norcina-cube-n/src/piece/corner.rs:148-166 | a slot byte is `x + 2y + 4z`, and `x`, `y`, `z` read those bits |
| `CubeCorners.PositionDetermined` | norcina-cube-n/src/piece/corner.rs:148-166 | two slots with the same three directions are equal |
| `CubeCorners.AxisAccessors` | norcina-cube-n/src/piece/corner.rs:154-166 | reading the coordinate of an axis agrees with `x`, `y` and `z` |
| `CubeCorners.FacesRoundTrip` | norcina-cube-n/src/piece/corner.rs:168-190 | `from_faces(p.faces()) == p` |
| `CubeCorners.FromFacesRoundTrip` | norcina-cube-n/src/piece/corner.rs:409-419 | for faces on X, Y and Z, `from_faces(fs).faces() == fs` (the quickcheck property) |
| `CubeCorners.FromFacesContains` | norcina-cube-n/src/piece/corner.rs:168-182 | for faces on three different axes, the slot built contains all three |
| `CubeCorners.ContainsFaceIff` | norcina-cube-n/src/piece/corner.rs:210-212 | `contains_face(f)` holds exactly when `f` is one of `faces()` |
| `CubeCorners.OnFaceIff` | norcina-cube-n/src/piece/corner.rs:78-102 | a corner is on a face exactly when its slot contains the face, and its directions are its slot's |
| `CubeCorners.ParityXor` | norcina-cube-n/src/piece/corner.rs:215-217 | the parity is the exclusive or of the three direction bits |
| `CubeCorners.CornerFields` | norcina-cube-n/src/piece/corner.rs:11-18 | a corner byte is its slot plus 8 times its orientation |
| `CubeCorners.OrientationRoundTrip` | norcina-cube-n/src/piece/corner.rs:59-75 | setting a corner's own orientation, or rebuilding it from slot and orientation, gives the corner back |
| `CubeCorners.CornerDetermined` | norcina-cube-n/src/piece/corner.rs:11-18 | slot and orientation determine the corner |
| `CubeCorners.TurnDistanceCoordinates` | norcina-cube-n/src/piece/corner.rs:225-236 | the distance is 0 exactly for the same slot, 2 exactly for the opposite slot, and never more |
| `CubeCorners.CountAtDistance` | norcina-cube-n/src/piece/corner.rs:421-429 | the count among the first `n` slots is at most `n` |
| `CubeCorners.CountEight` | norcina-cube-n/src/piece/corner.rs:421-429 | the count over `ALL` is the sum over the eight slots |
| `CubeCorners.DistanceBits` | norcina-cube-n/src/piece/corner.rs:225-236 | the distance is half of one plus the number of differing bits, rounded down |
| `CubeCorners.TurnDistanceDistribution` | norcina-cube-n/src/piece/corner.rs:421-429 | from every slot: 1 slot at distance 0, 6 at distance 1, 1 at distance 2 |
| `CubeCorners.Twist` | norcina-cube-n/src/piece/corner.rs:298-351 | a twist keeps the slot and adds to the orientation modulo 3 |
| `CubeCorners.TwistTwice` | norcina-cube-n/src/piece/corner.rs:298-351 | two twists add up |
| `CubeCorners.TwistFull` | norcina-cube-n/src/piece/corner.rs:298-351 | a twist by a multiple of 3 changes nothing |
| `CubeCorners.NotOnOrientationAxis` | norcina-cube-n/src/piece/corner.rs:298-351 | 0 exactly for the orientation axis Y, else 1 |
| `CubeCorners.MovePieces` | norcina-cube-n/src/piece/corner.rs:298-351 | `move_pieces` maps 8 corners to 8 corners |
| `CubeCorners.MovePiecesAt` | norcina-cube-n/src/piece/corner.rs:298-351 | slot `k` after the move holds the corner pulled from `Pull(mov, k)`, twisted by its amount |
| `CubeCorners.FlipOneToggles` | norcina-cube-n/src/piece/corner.rs:298-351 | flipping one coordinate toggles that bit and keeps the others |
| `CubeCorners.FlipOneParity` | norcina-cube-n/src/piece/corner.rs:298-351 | flipping one coordinate changes the parity |
| `CubeCorners.FlipOneInvolution` | norcina-cube-n/src/piece/corner.rs:298-351 | flipping the same coordinate twice gives the slot back |
| `CubeCorners.PullOffFace` | norcina-cube-n/src/piece/corner.rs:298-351 | a slot off the face keeps its corner, untwisted |
| `CubeCorners.PullDouble` | norcina-cube-n/src/piece/corner.rs:298-351 | a half turn pulls from the slot with both other coordinates flipped, on the face, with the same parity and no twist, and pulls back |
| `CubeCorners.PullQuarter` | norcina-cube-n/src/piece/corner.rs:298-351 | a quarter turn rotates the two other coordinates, stays on the face, changes the parity, and twists by the quarter-twist amount |
| `CubeCorners.QuarterTwistShift` | norcina-cube-n/src/piece/corner.rs:298-351 | the shift expression of the source equals the quarter-twist table: none about Y, 1 or 2 by parity otherwise |
| `CubeCorners.QuarterRotation` | norcina-cube-n/src/piece/corner.rs:298-351 | the rotation of the bits a quarter pull makes, and that it changes the parity |
| `CubeCorners.MovePiecesThen` | norcina-cube-n/src/piece/corner.rs:298-351 | two moves in a row pull through both pulls, the twists added |
| `CubeCorners.MovePiecesThenAt` | norcina-cube-n/src/piece/corner.rs:298-351 | `MovePiecesThen` at one slot |
| `CubeCorners.MovePiecesTwoSteps` | norcina-cube-n/src/piece/corner.rs:298-351 | two known pulls compose into one, twists added |
| `CubeCorners.PullQuarterStep` | norcina-cube-n/src/piece/corner.rs:298-351 | a quarter pull is a quarter step about the move's axis with its leading and trailing axes, and stays on the face |
| `CubeCorners.InverseLeadTrail` | norcina-cube-n/src/piece/corner.rs:298-351 | the inverse quarter turn swaps leading and trailing axes; the three axes differ |
| `CubeCorners.QuarterStepBack` | norcina-cube-n/src/piece/corner.rs:298-351 | two quarter steps in opposite senses come back, with twists adding to 0 or 3 |
| `CubeCorners.QuarterTwistPair` | norcina-cube-n/src/piece/corner.rs:298-351 | the twists of the two parities add to 0 about Y and 3 otherwise |
| `CubeCorners.HalfThenQuarterStep` | norcina-cube-n/src/piece/corner.rs:298-351 | a half step then a quarter step lands where the opposite quarter step does, with the same twist |
| `CubeCorners.PullInverse` | norcina-cube-n/src/piece/corner.rs:298-351 | a move then its inverse pulls every slot from itself, twisting by 0 or 3 |
| `CubeCorners.PullInverseOffFace` | norcina-cube-n/src/piece/corner.rs:298-351 | `PullInverse` off the face, with no twist |
| `CubeCorners.PullInverseDouble` | norcina-cube-n/src/piece/corner.rs:298-351 | `PullInverse` for half turns, with no twist |
| `CubeCorners.PullInverseQuarter` | norcina-cube-n/src/piece/corner.rs:298-351 | `PullInverse` for quarter turns |
| `CubeCorners.PullQuarterThenHalf` | norcina-cube-n/src/piece/corner.rs:298-351 | a quarter turn then that face's half turn pulls as the inverse quarter turn |
| `CubeCorners.PullQuarterThenHalfOffFace` | norcina-cube-n/src/piece/corner.rs:298-351 | `PullQuarterThenHalf` off the face |
| `CubeCorners.PullQuarterThenHalfOnFace` | norcina-cube-n/src/piece/corner.rs:298-351 | `PullQuarterThenHalf` on the face |
| `CubeCorners.MoveThenInverse` | norcina-cube-n/src/piece/corner.rs:298-351 | `move_pieces(move_pieces(c, m), m.inverse()) == c` |
| `CubeCorners.QuarterThenHalf` | norcina-cube-n/src/piece/corner.rs:298-351 | a quarter turn then the half turn of that face equals the inverse quarter turn |
| `CubeCorners.MovePiecesOffFace` | norcina-cube-n/src/piece/corner.rs:298-351 | slots off the face keep their corners |
| `CubeCorners.MovePiecesDouble` | norcina-cube-n/src/piece/corner.rs:298-351 | a half turn brings the corner of the diagonally opposite slot on the face, untwisted |
| `CubeCorners.MovePiecesQuarter` | norcina-cube-n/src/piece/corner.rs:298-351 | a quarter turn brings a corner from another slot on the face, twisted by less than 3, and by 0 exactly for U and D turns |
| `CubeCorners.ParitySigned` | norcina-cube-n/src/piece/corner.rs:261-296 | negation by parity: the value or its negative |
| `CubeCorners.StickerShowsHomeFace` | norcina-cube-n/src/piece/corner.rs:261-296 | a sticker shows one of the corner's home faces |
| `CubeCorners.SolvedSticker` | norcina-cube-n/src/piece/corner.rs:261-296 | an untwisted corner in its own slot shows each face's own colour |
| `CubeCorners.SolvedStickerAxis` | norcina-cube-n/src/piece/corner.rs:261-296 | `SolvedSticker`, the axis half |
| `CubeCorners.SolvedStickerDirection` | norcina-cube-n/src/piece/corner.rs:261-296 | `SolvedSticker`, the direction half |
| `CubeCorners.StickerInjective` | norcina-cube-n/src/piece/corner.rs:261-296 | the three faces of a slot show three different stickers |
| `CubeCorners.Homes` | norcina-cube-n/src/piece/corner.rs:125-143 | the slot map sending each slot to the home slot of its corner |
| `CubeCorners.HomesInjective` | norcina-cube-n/src/piece/corner.rs:125-143 | for a valid cube the home map is one-to-one |
| `CubeCorners.FirstUnvisited` | norcina-cube-n/src/piece/corner.rs:125-143 | the first unvisited slot at or after `from`, or none when all are visited |
| `CubeCorners.CountSwaps` | norcina-cube-n/src/piece/corner.rs:125-143 | `count_swaps` returns the number of swaps that sort the corners: the slots that do not lead their cycle |
| `CubeCorners.FollowCycle` | norcina-cube-n/src/piece/corner.rs:125-143 | the inner loop walks one whole cycle from a fresh slot, marks exactly it visited and counts its length minus one |
| `CubeCorners.SolvedNoSwaps` | norcina-cube-n/src/piece/corner.rs:463-465 | the solved corners need no swaps |
| `CubeCorners.ExchangeOneSwap` | norcina-cube-n/src/piece/corner.rs:431-459 | exchanging two solved corners needs exactly one swap |
| `CubeCorners.SwapCorners` | norcina-cube-n/src/piece/corner.rs:451 | `corners.swap(i, j)`: the home map with the two entries exchanged |
| `CubeCorners.SwapChangesSwapCount` | norcina-cube-n/src/piece/corner.rs:125-143 | exchanging two slots of a valid permutation keeps it one and changes the swap count by exactly one: down when the two slots share a cycle, up otherwise |
| `CubeCorners.SortedPair` | norcina-cube-n/src/piece/corner.rs:436-442 | the pair taken modulo 8 and sorted: the same two slots, smaller first |
| `CubeCorners.SwapPairs` | norcina-cube-n/src/piece/corner.rs:432-453 | the quickcheck loop: pairs reduced modulo 8 and sorted, equal or repeated pairs skipped, the rest swapped and counted; the corners stay a permutation and the count is at most the number of pairs |
| `CubeCorners.SwapPairsCount` | norcina-cube-n/src/piece/corner.rs:431-459 | the swap count after the loop differs from the one before by at most the number of swaps made, with the same parity |
| `CubeCorners.SwapsBoundCount` | norcina-cube-n/src/piece/corner.rs:431-459 | from solved, after k swaps `count_swaps` is at most k and has k's parity |
| `SlotCycles.SwapChangesCount` | norcina-cube-n/src/piece/corner.rs:125-143 | exchanging two entries of a slot permutation splits a cycle (one fewer non-leader) when both lie on it and merges two cycles (one more) otherwise |
| `SlotCycles.Walk` | norcina-cube-n/src/piece/corner.rs:125-143 | walking the slot map stays among the eight slots |
| `SlotCycles.WalkStarts` | norcina-cube-n/src/piece/corner.rs:125-143 | a walk starts at the fresh slot |
| `SlotCycles.StepIsNew` | norcina-cube-n/src/piece/corner.rs:125-143 | until the walk closes, the next slot is unvisited |
| `SlotCycles.PathStep` | norcina-cube-n/src/piece/corner.rs:125-143 | one step of the walk keeps it a simple chain and adds one slot |
| `SlotCycles.DistinctCard` | norcina-cube-n/src/piece/corner.rs:125-143 | a path without repeats has as many slots as steps |
| `SlotCycles.PathBound` | norcina-cube-n/src/piece/corner.rs:125-143 | a walk visits at most 8 slots, so the inner loop ends |
| `SlotCycles.CycleForward` | norcina-cube-n/src/piece/corner.rs:125-143 | a closed walk is closed under the map |
| `SlotCycles.CycleBackward` | norcina-cube-n/src/piece/corner.rs:125-143 | a closed walk is closed under the map's inverse |
| `SlotCycles.CycleKeepsClosed` | norcina-cube-n/src/piece/corner.rs:125-143 | the visited slots stay a union of whole cycles |
| `SlotCycles.PathWalk` | norcina-cube-n/src/piece/corner.rs:125-143 | the path is the map iterated from its start |
| `SlotCycles.CycleWalk` | norcina-cube-n/src/piece/corner.rs:125-143 | every slot the map reaches from the start is on the path |
| `SlotCycles.PathLeaders` | norcina-cube-n/src/piece/corner.rs:125-143 | on a closed walk, only the first slot leads its cycle |
| `SlotCycles.CycleLeaders` | norcina-cube-n/src/piece/corner.rs:125-143 | a closed walk adds all its slots but the first to the non-leaders |
| `SlotCycles.CycleClosed` | norcina-cube-n/src/piece/corner.rs:125-143 | a cycle of length `n` adds `n - 1` swaps |
| `SlotCycles.FixedWalk` | norcina-cube-n/src/piece/corner.rs:463-465 | a fixed slot walks to itself |
| `SlotCycles.IdentityNoSwaps` | norcina-cube-n/src/piece/corner.rs:463-465 | the identity map has no non-leaders |
| `SlotCycles.SwapWalk` | norcina-cube-n/src/piece/corner.rs:431-459 | a two-slot cycle walks between its two slots |
| `SlotCycles.SwapOneSwap` | norcina-cube-n/src/piece/corner.rs:431-459 | a single exchange has exactly one non-leader |
| `Cube3.MovSingle` | norcina-cube3/src/cube.rs:95-100 | a move maps a cube with 8 corners and 12 edges to one |
| `Cube3.Apply` | norcina-cube3/src/cube.rs:102-107 | applying an algorithm keeps the cube well formed |
| `Cube3.Mov` | norcina-cube3/src/cube.rs:102-107 | the loop of `mov` applies the moves one after the other: its result is `Apply(cube, alg)` |
| `Cube3.Neighbors` | norcina-cube3/src/cube.rs:114-116 | one neighbour per move of `Move::iter` |
| `Cube3.SolvedIsSolved` | norcina-cube3/src/cube.rs:109-111 | `SOLVED` is well formed and `is_solved` |
| `Cube3.ApplyShort` | norcina-cube3/src/cube.rs:102-107 | the empty algorithm changes nothing, a one-move algorithm is `mov_single` |
| `Cube3.ApplyConcat` | norcina-cube3/src/cube.rs:102-107 | applying `a + b` is applying `a`, then `b` |
| `Cube3.MoveThenInverse` | norcina-cube3/src/mov/mod.rs:46-48 | `cube.mov_single(m).mov_single(m.inverse()) == cube` for every cube and move |
| `Cube3.ApplyPair` | norcina-cube3/src/cube.rs:102-107 | a two-move algorithm is two single moves |
| `Cube3.DoubleTwice` | norcina-cube3/src/mov/mod.rs:23-26 | a half turn twice is the identity |
| `Cube3.SingleThenReverse` | norcina-cube3/src/mov/mod.rs:28-40 | a quarter turn then its reverse is the identity (R R' among them) |
| `Cube3.QuarterThenHalf` | norcina-cube3/src/mov/mod.rs:42-44 | a quarter turn then the half turn of that face is the reverse quarter turn |
| `Cube3.RThenR2` | norcina-cube3/src/mov/mod.rs:42-44 | `cube.mov(R R2) == cube.mov(R')` |
| `Cube3.RMoves` | norcina-cube-n/src/mov.rs:125-160 | R is a single turn whose inverse is R' and whose half turn is R2 |
| `Cube3.NeighborsComplete` | norcina-cube3/src/cube.rs:114-116 | every move appears among the neighbours with its cube, and each move once |
| `Kociemba.G1MovesExactly` | norcina-cube3/src/search/kociemba.rs:13-16 | `G1_MOVES` holds exactly the U and D turns and the half turns |
| `Kociemba.KeepsG1Byte` | norcina-cube3/src/search/kociemba.rs:13-16 | the filter on move bytes selects the same moves |
| `Kociemba.G1Bytes` | norcina-cube3/src/search/kociemba.rs:13-16 | membership in `G1_MOVES` as the byte test |
| `Kociemba.SolvedInG1` | norcina-cube3/src/search/kociemba.rs:77-79 | the solved cube is in G1 |
| `Kociemba.CornerPullG1` | norcina-cube3/src/search/kociemba.rs:55-66 | a G1 move never twists a corner |
| `Kociemba.EdgePullG1` | norcina-cube3/src/search/kociemba.rs:55-66 | a G1 move never flips an edge and keeps the middle-slice edges in the middle slice |
| `Kociemba.CornersStayOriented` | norcina-cube3/src/search/kociemba.rs:55-66 | a G1 move keeps oriented corners oriented |
| `Kociemba.EdgesStayInG1` | norcina-cube3/src/search/kociemba.rs:55-66 | a G1 move keeps edges oriented and in or out of the middle slice |
| `Kociemba.MoveKeepsG1` | norcina-cube3/src/search/kociemba.rs:82-85 | one G1 move keeps a G1 cube in G1 |
| `Kociemba.MovesKeepG1` | norcina-cube3/src/search/kociemba.rs:82-85 | any sequence of G1 moves keeps a G1 cube in G1 (the quickcheck property) |
| `Search.Find` | norcina-cube3/src/search/mod.rs:20-22 | `Iterator::find`: a found value is in the rest of the sequence and satisfies the predicate |
| `Search.FindFirst` | norcina-cube3/src/search/mod.rs:20-22 | `find` answers none exactly when no element qualifies, and otherwise the first that does |
| `Search.Connect` | norcina-cube3/src/search/mod.rs:20-22 | a move `connect` returns turns `start` into `end` |
| `Search.ConnectFirst` | norcina-cube3/src/search/mod.rs:20-22 | `connect` is none exactly when no move joins the cubes, and otherwise the first such move in `Move::iter` order |
| `Search.Windows` | norcina-cube3/src/search/mod.rs:24-29 | `windows(2)`: one pair fewer than states, pair `i` being states `i` and `i + 1` |
| `Search.JoinedWindows` | norcina-cube3/src/search/mod.rs:41-47 | the windows of joined state lists are the windows of each |
| `Search.Map` | norcina-cube3/src/search/mod.rs:24-29 | `map` applies the function at every index |
| `Search.MapJoin` | norcina-cube3/src/search/mod.rs:24-29 | `map` distributes over concatenation |
| `Search.ConnectWindow` | norcina-cube3/src/search/mod.rs:24-29 | the move for a window (the source unwraps) turns its first cube into its second |
| `Search.ConnectAll` | norcina-cube3/src/search/mod.rs:24-29 | one move per window, each joining its window |
| `Search.ConnectAllJoin` | norcina-cube3/src/search/mod.rs:24-29 | connecting joined windows connects each part |
| `Search.Moves` | norcina-cube3/src/search/mod.rs:24-29 | `moves` has one move fewer than states |
| `Search.MovesReplay` | norcina-cube3/src/search/mod.rs:24-35 | replaying `moves` from the first state reaches the final state |
| `Search.Replay` | norcina-cube3/src/search/mod.rs:24-35 | moves joining consecutive states replay from the first state to the last |
| `Search.JoinedMoves` | norcina-cube3/src/search/mod.rs:41-47 | the moves of concatenated solutions are the concatenated moves |
| `Search.SearchSolution.constructor` | norcina-cube3/src/search/mod.rs:14-16 | the solution holds the given states |
| `Search.SearchSolution.FinalState` | norcina-cube3/src/search/mod.rs:37-39 | the final state is one of the states (the last; the source unwraps) |
| `Search.SearchSolution.Concat` | norcina-cube3/src/search/mod.rs:41-47 | with the final state equal to the other's first, the states become this list plus the other's without its first, and the final state is the other's |
| `Search.CornerDistances` | norcina-cube3/src/search/mod.rs:86-97 | the corner part of the distance is at most 2 per corner |
| `Search.EdgeDistances` | norcina-cube3/src/search/mod.rs:86-97 | the edge part is at most 2 per edge |
| `Search.ManhattanDistance` | norcina-cube3/src/search/mod.rs:86-97 | `manhattan_distance` is at most 40, so it fits the `u8` |
| `Search.EdgeDistanceZero` | norcina-cube-n/src/piece/edge.rs:217-225 | an edge slot is at distance 0 only from itself |
| `Search.CornerDistancesZero` | norcina-cube3/src/search/mod.rs:86-97 | the corner sum is 0 exactly when every corner is in its home slot |
| `Search.EdgeDistancesZero` | norcina-cube3/src/search/mod.rs:86-97 | the edge sum is 0 exactly when every edge is in its home slot |
| `Search.ManhattanZero` | norcina-cube3/src/search/mod.rs:86-97 | the distance is 0 exactly when every piece is home (orientation aside) |
| `Search.ManhattanSolved` | norcina-cube3/src/search/mod.rs:81-97 | the solved cube has distance 0 |
| `Search.SolvedAtHome` | norcina-cube3/src/cube.rs:19-22 | every piece of the solved cube is home |
| `PruneTable.CornerTwists` | norcina-cube3/src/search/kociemba/prune_table.rs:137-145 | one twist digit below 3 per corner |
| `PruneTable.CornerOrientationIndex` | norcina-cube3/src/search/kociemba/prune_table.rs:137-145 | the index is the base-3 number of the first seven twists, below `3^7` |
| `PruneTable.CornerOrientationFromIndex` | norcina-cube3/src/search/kociemba/prune_table.rs:146-158 | solved positions; the first seven twists spell `index mod 3^7` in base 3 and the eighth makes the twist sum a multiple of 3 |
| `PruneTable.SetCornerTwist` | norcina-cube3/src/search/kociemba/prune_table.rs:146-158 | `set_orientation` on one slot changes that twist digit only, and no position |
| `PruneTable.SpliceDigit` | norcina-cube3/src/search/kociemba/prune_table.rs:146-158 | writing a digit at the front of the decoded suffix extends it by that digit |
| `PruneTable.LastTwist` | norcina-cube3/src/search/kociemba/prune_table.rs:146-158 | the eighth twist, chosen from the sum of the first seven, keeps them and cancels their sum |
| `PruneTable.TwistsCancel` | norcina-cube3/src/search/kociemba/prune_table.rs:146-158 | a sum and its negation modulo 3 add to a multiple of 3 |
| `PruneTable.CornerOrientationRoundTrip` | norcina-cube3/src/search/kociemba/prune_table.rs:384-396 | `test_id` for corner orientation: `index(from_index(i)) == i` for every `i < 3^7` |
| `PruneTable.EdgeFlips` | norcina-cube3/src/search/kociemba/prune_table.rs:166-173 | one flip bit per edge |
| `PruneTable.EdgeOrientationIndex` | norcina-cube3/src/search/kociemba/prune_table.rs:166-173 | the index is the binary number of the first eleven flips, below `2^11` |
| `PruneTable.SetOriented` | norcina-cube3/src/search/kociemba/prune_table.rs:174-187 | `set_oriented` keeps the slot and sets the orientation as asked |
| `PruneTable.OrientedFlags` | norcina-cube3/src/search/kociemba/prune_table.rs:174-187 | one `is_oriented` flag per digit |
| `PruneTable.EdgeOrientationFromIndex` | norcina-cube3/src/search/kociemba/prune_table.rs:174-187 | solved positions; the first eleven flips spell `index mod 2^11` and the twelfth makes the flip sum even (the corrected last edge) |
| `PruneTable.StepKeeps` | norcina-cube3/src/search/kociemba/prune_table.rs:177-182 | one loop step keeps the decoding invariant |
| `PruneTable.FinishFlips` | norcina-cube3/src/search/kociemba/prune_table.rs:184 | after the loop, setting edge 11 from the flip sum finishes the decoding |
| `PruneTable.FlipStep` | norcina-cube3/src/search/kociemba/prune_table.rs:177-182 | the arithmetic of one step: the digit taken off `index` joins the decoded suffix |
| `PruneTable.SetEdgeFlip` | norcina-cube3/src/search/kociemba/prune_table.rs:177-182 | `set_oriented` on one slot changes that flip digit only |
| `PruneTable.LastFlip` | norcina-cube3/src/search/kociemba/prune_table.rs:184 | setting edge 11 keeps the first eleven flips and makes the total even |
| `PruneTable.SpliceFlip` | norcina-cube3/src/search/kociemba/prune_table.rs:177-182 | writing a flip at the front of the suffix extends it |
| `PruneTable.SumSnoc` | norcina-cube3/src/search/kociemba/prune_table.rs:181 | the running sum adds the new digit |
| `PruneTable.OrientedComplement` | norcina-cube3/src/search/kociemba/prune_table.rs:181-184 | the oriented count and the flipped count add to the number of edges |
| `PruneTable.AsWrittenFlipsOdd` | norcina-cube3/src/search/kociemba/prune_table.rs:174-187 | as written (counting oriented edges) the twelve flips add up to an odd number for every index |
| `PruneTable.AsWrittenIndexZero` | norcina-cube3/src/search/kociemba/prune_table.rs:174-187 | for index 0 the source flips edge 11, while the intended rule leaves it oriented |
| `PruneTable.SumZeros` | norcina-cube3/src/search/kociemba/prune_table.rs:174-187 | a sum of zeros is zero |
| `PruneTable.EdgeOrientationRoundTrip` | norcina-cube3/src/search/kociemba/prune_table.rs:384-397 | `test_id` for edge orientation holds for every `i < 2^11` |
| `PruneTable.CalcCombination` | norcina-cube3/src/search/kociemba/prune_table.rs:195-208 | `calc_combination(n, r)` is the binomial coefficient "n choose r", also for `r == n + 1` where both loops give 0 |
| `PruneTable.YFlags` | norcina-cube3/src/search/kociemba/prune_table.rs:211-228 | one in-slice flag per edge |
| `PruneTable.SolvedNormal` | norcina-cube3/src/search/kociemba/prune_table.rs:210-253 | the solved edges 4 to 7 are the Y-normal ones |
| `PruneTable.YSliceSize` | norcina-cube3/src/search/kociemba/prune_table.rs:250 | 12 choose 4 is 495, the table size |
| `PruneTable.YSliceBound` | norcina-cube3/src/search/kociemba/prune_table.rs:211-228 | the rank of four flags among twelve is below 495 |
| `PruneTable.YSliceIndex` | norcina-cube3/src/search/kociemba/prune_table.rs:211-228 | the index is the combinatorial-number-system rank of the slice flags, below 495 |
| `PruneTable.YSliceChoice` | norcina-cube3/src/search/kociemba/prune_table.rs:229-248 | every index below 495 is the rank of some choice of four slots among twelve |
| `PruneTable.YSliceDecodeStep` | norcina-cube3/src/search/kociemba/prune_table.rs:237-246 | the decoding test `index >= calc_combination(i, remaining)` reads flag `i` and leaves the rank of the rest |
| `PruneTable.YSliceFromIndex` | norcina-cube3/src/search/kociemba/prune_table.rs:229-248 | the edges built have four in the slice and their rank is `index` |
| `PruneTable.OffSliceSlot` | norcina-cube3/src/search/kociemba/prune_table.rs:243-245 | the off-slice edges are taken from slots 0-3 and 8-11 |
| `PruneTable.SetYFlag` | norcina-cube3/src/search/kociemba/prune_table.rs:229-248 | placing an edge at slot `i` sets flag `i` and keeps the later flags |
| `PruneTable.YSliceRoundTrip` | norcina-cube3/src/search/kociemba/prune_table.rs:384-398 | `test_id` for the Y slice holds for every `i < 495` |
| `PruneTable.LehmerIndex` | norcina-cube3/src/search/kociemba/prune_table.rs:258-270 | the loop computes the Lehmer rank of the permutation, below `n!` |
| `PruneTable.CountSmaller` | norcina-cube3/src/search/kociemba/prune_table.rs:262-266 | the inner loop counts the later entries smaller than entry `i` |
| `PruneTable.SmallerSnoc` | norcina-cube3/src/search/kociemba/prune_table.rs:262-266 | one more entry adds one exactly when it is smaller |
| `PruneTable.LehmerDecode` | norcina-cube3/src/search/kociemba/prune_table.rs:271-285 | the decoding yields `n` distinct values below `n` whose rank is `index mod n!` |
| `PruneTable.BumpAfter` | norcina-cube3/src/search/kociemba/prune_table.rs:277-281 | the inner loop raises the later entries not below entry `i`, and keeps the prefix |
| `PruneTable.DecodeDigit` | norcina-cube3/src/search/kociemba/prune_table.rs:271-285 | peeling the next factorial digit keeps `index` equal to its mixed-radix value |
| `PruneTable.DivRem` | norcina-cube3/src/search/kociemba/prune_table.rs:271-285 | division with remainder |
| `PruneTable.ValidCons` | norcina-cube3/src/search/kociemba/prune_table.rs:271-285 | a digit below its radix extends valid factorial digits |
| `PruneTable.PlaceFront` | norcina-cube3/src/search/kociemba/prune_table.rs:271-285 | the bumped suffix with the digit in front is the decoding of the longer digit list |
| `PruneTable.CornerPositions` | norcina-cube3/src/search/kociemba/prune_table.rs:258-270 | one slot below 8 per corner |
| `PruneTable.CornerPositionIndex` | norcina-cube3/src/search/kociemba/prune_table.rs:258-270 | the index is the Lehmer rank of the corner positions, below `8!` |
| `PruneTable.CornerPositionFromIndex` | norcina-cube3/src/search/kociemba/prune_table.rs:271-285 | eight oriented corners in distinct slots whose rank is `index mod 8!` |
| `PruneTable.CornerPositionRoundTrip` | norcina-cube3/src/search/kociemba/prune_table.rs:384-399 | `test_id` for corner positions holds for every `i < 8!` |
| `PruneTable.YSlicePositions` | norcina-cube3/src/search/kociemba/prune_table.rs:293-308 | the eight U/D-layer slots, renumbered 0..7 |
| `PruneTable.YSlicePositionIndex` | norcina-cube3/src/search/kociemba/prune_table.rs:293-308 | the index is the Lehmer rank of the eight renumbered positions, below `8!` |
| `PruneTable.YSlicePositionFromIndex` | norcina-cube3/src/search/kociemba/prune_table.rs:309-330 | oriented edges, slice edges solved, the eight others distinct with rank `index mod 8!` |
| `PruneTable.PlaceSolved` | norcina-cube3/src/search/kociemba/prune_table.rs:321-327 | the output loops put `solved(ps[k - offset])` in slots `lo..hi` and touch nothing else |
| `PruneTable.YSliceLayout` | norcina-cube3/src/search/kociemba/prune_table.rs:309-330 | the layout written reads back the decoded positions |
| `PruneTable.YSlicePositionRoundTrip` | norcina-cube3/src/search/kociemba/prune_table.rs:384-400 | `test_id` for the U/D-layer edges holds for every `i < 8!` |
| `PruneTable.NonYSlicePositions` | norcina-cube3/src/search/kociemba/prune_table.rs:338-353 | the four slice slots, renumbered 0..3 |
| `PruneTable.NonYSlicePositionIndex` | norcina-cube3/src/search/kociemba/prune_table.rs:338-353 | the index is the Lehmer rank of the four slice positions, below `4!` |
| `PruneTable.NonYSlicePositionFromIndex` | norcina-cube3/src/search/kociemba/prune_table.rs:354-371 | oriented edges, the others solved, the four slice edges distinct with rank `index mod 4!` |
| `PruneTable.NonYSlicePositionRoundTrip` | norcina-cube3/src/search/kociemba/prune_table.rs:384-401 | `test_id` for the slice edges holds for every `i < 4!` |
| `PruneTable.Max` | norcina-cube3/src/search/kociemba/prune_table.rs:58-73 | `max` is an upper bound equal to one argument |
| `PruneTable.Phase1DistanceHeuristic` | norcina-cube3/src/search/kociemba/prune_table.rs:58-64 | the largest of the three phase-1 table entries at the cube's indices |
| `PruneTable.Phase2DistanceHeuristic` | norcina-cube3/src/search/kociemba/prune_table.rs:66-73 | the largest of the three phase-2 table entries at the cube's indices |
| `CoreMath.Fac` | norcina-core/src/math.rs:3-6 | `fac(n)` is at least 1 |
| `CoreMath.Choose` | norcina-core/src/math.rs:8-29 | the two loops of `choose` compute the binomial coefficient, the divisions being exact at every step |
| `CoreMath.FallingStep` | norcina-core/src/math.rs:14-19 | one more factor of the first loop |
| `CoreMath.MulDivExact` | norcina-core/src/math.rs:21-26 | a division of the second loop by a factor of the product is exact |
| `CoreMath.DivideOut` | norcina-core/src/math.rs:21-26 | dividing by `m - i` takes the top factor off `m!` |
| `CoreMath.FallingPascal` | norcina-core/src/math.rs:8-10 | Pascal's rule for falling factorials |
| `CoreMath.FallingBinomial` | norcina-core/src/math.rs:8-10 | the falling factorial is "n choose m" times `m!` |
| `CoreMath.FallingFac` | norcina-core/src/math.rs:3-10 | the falling factorial times `(n - m)!` is `n!` |
| `CoreMath.ChooseFactorials` | norcina-core/src/math.rs:8-10 | `choose(n, m) == n! / (m! (n - m)!)`, as documented |
| `CoreMath.BinomialAbove` | norcina-core/src/math.rs:8-29 | choosing more than `n` gives 0 |
| `CoreMath.ChooseEdges` | norcina-core/src/math.rs:8-29 | "n choose 0" is 1 and "n choose n + 1" is 0 |
| `CoreMath.FallingIsQuotient` | norcina-core/src/math.rs:14-19 | the first loop computes `n! / (n - m)!` |
| `Coordinates.Pow` | norcina-cube3/src/search/kociemba/prune_table.rs:189 | powers of a positive base are positive |
| `Coordinates.HornerBound` | norcina-cube3/src/search/kociemba/prune_table.rs:137-145 | a number of `k` digits below `b` is below `b^k` |
| `Coordinates.HornerCons` | norcina-cube3/src/search/kociemba/prune_table.rs:137-145 | the leading digit is worth `b` to the number of digits after it |
| `Coordinates.RemainderOf` | norcina-cube3/src/search/kociemba/prune_table.rs:146-158 | the remainder of `c m + v` by `m` is `v` for `v < m` |
| `Coordinates.SumCons` | norcina-cube3/src/search/kociemba/prune_table.rs:146-158 | the digit sum of a longer sequence adds the new digit |
| `Coordinates.MixedSnoc` | norcina-cube3/src/search/kociemba/prune_table.rs:258-270 | one step of `index *= n - i; index += d` appends the digit to the mixed-radix value |
| `Coordinates.MixedBound` | norcina-cube3/src/search/kociemba/prune_table.rs:258-270 | mixed-radix digits below their radix give a value below the falling factorial |
| `Coordinates.MixedCons` | norcina-cube3/src/search/kociemba/prune_table.rs:271-285 | the leading mixed-radix digit is worth the falling factorial of the rest |
| `Coordinates.Smaller` | norcina-cube3/src/search/kociemba/prune_table.rs:262-266 | the number of entries smaller than a value is at most the length |
| `Coordinates.LehmerDigits` | norcina-cube3/src/search/kociemba/prune_table.rs:258-270 | Lehmer digit `k` is below `n - k` |
| `Coordinates.Bump` | norcina-cube3/src/search/kociemba/prune_table.rs:277-281 | bumping keeps the length |
| `Coordinates.Place` | norcina-cube3/src/search/kociemba/prune_table.rs:271-285 | the decoded arrangement has one entry per digit |
| `Coordinates.SmallerCons` | norcina-cube3/src/search/kociemba/prune_table.rs:262-266 | counting the smaller entries of a longer sequence |
| `Coordinates.SmallerBumpBelow` | norcina-cube3/src/search/kociemba/prune_table.rs:277-281 | bumping does not change the count below a value not above the bump point |
| `Coordinates.SmallerBumpAbove` | norcina-cube3/src/search/kociemba/prune_table.rs:277-281 | above the bump point the count is the count below the value minus one |
| `Coordinates.SmallerBumpValue` | norcina-cube3/src/search/kociemba/prune_table.rs:277-281 | bumping the value with the sequence keeps the count |
| `Coordinates.PlaceSmaller` | norcina-cube3/src/search/kociemba/prune_table.rs:271-285 | in a decoded arrangement, exactly `d` entries are below `d` |
| `Coordinates.BumpDigits` | norcina-cube3/src/search/kociemba/prune_table.rs:277-281 | bumping keeps the Lehmer digits |
| `Coordinates.PlaceDigits` | norcina-cube3/src/search/kociemba/prune_table.rs:258-285 | ranking a decoded arrangement gives its digits back: `index(from_index(ds)) == ds` on the digit level |
| `Coordinates.PlacePermutation` | norcina-cube3/src/search/kociemba/prune_table.rs:271-285 | a decoded arrangement is a permutation of `0..n` |
| `Coordinates.RankBound` | norcina-cube3/src/search/kociemba/prune_table.rs:258-270 | the Lehmer rank is below `n!` |
| `Coordinates.CountTrue` | norcina-cube3/src/search/kociemba/prune_table.rs:211-228 | the number of set flags is at most the length |
| `Coordinates.CountSplit` | norcina-cube3/src/search/kociemba/prune_table.rs:211-228 | counting a prefix and its suffix counts the whole |
| `Coordinates.CnsUnrank` | norcina-cube3/src/search/kociemba/prune_table.rs:229-248 | an index below "n choose r" decodes to `n` flags, `r` set, with that index |
| `Coordinates.CnsBound` | norcina-cube3/src/search/kociemba/prune_table.rs:211-228 | the rank of `r` set flags among `n` is below "n choose r" |
| `Coordinates.CnsIndexSnoc` | norcina-cube3/src/search/kociemba/prune_table.rs:220-225 | a set top flag adds "i choose remaining" to the index, a clear one adds nothing |
| `Coordinates.CnsPrefixStep` | norcina-cube3/src/search/kociemba/prune_table.rs:220-225 | the rank of a prefix one flag longer, read from its top flag |
| `Coordinates.UnrankTop` | norcina-cube3/src/search/kociemba/prune_table.rs:237-241 | an index at or above "(n-1) choose r" sets the top flag and subtracts that |
| `Coordinates.UnrankBottom` | norcina-cube3/src/search/kociemba/prune_table.rs:242-244 | an index below "(n-1) choose r" leaves the top flag clear |
| `Coordinates.UnrankPrefixStep` | norcina-cube3/src/search/kociemba/prune_table.rs:237-244 | the decoding test reads flag `i` of the unranked flags |
| `Coordinates.UnrankExists` | norcina-cube3/src/search/kociemba/prune_table.rs:229-248 | every index below "n choose r" is the rank of some flags |
| `Coordinates.CnsIndexInjective` | norcina-cube3/src/search/kociemba/prune_table.rs:211-228 | two flag sequences with the same count and rank are equal |
| `Coordinates.CnsUnrankIndex` | norcina-cube3/src/search/kociemba/prune_table.rs:211-248 | unranking the rank of flags gives the flags back |
| `PruneFill.Subtable.Graph` | norcina-cube3/src/search/kociemba/prune_table.rs:77-84 | the move graph of a subtable: node `i`, move `k` leads to `index(apply_mov(from_index(i), moves[k]))` |
| `PruneFill.Unvisited` | norcina-cube3/src/search/kociemba/prune_table.rs:102-128 | the number of entries still at `u8::MAX` is at most the table size |
| `PruneFill.Walk` | norcina-cube3/src/search/kociemba/prune_table.rs:113-116 | following moves through the graph stays inside the table |
| `PruneFill.GenerateBuffer` | norcina-cube3/src/search/kociemba/prune_table.rs:87-131 | the buffer is the breadth-first distance table from `index(initial)`: 0 there only, every finite entry reached by a path of that length and no shorter, and unreachable entries left at `u8::MAX` |
| `PruneFill.LevelZero` | norcina-cube3/src/search/kociemba/prune_table.rs:102-103 | only the start has distance 0, and it keeps it |
| `PruneFill.Finish` | norcina-cube3/src/search/kociemba/prune_table.rs:125-127 | when a pass changes nothing, the buffer is the distance table |
| `PruneFill.ScanLevel` | norcina-cube3/src/search/kociemba/prune_table.rs:105-123 | one pass at `depth` lowers only unvisited entries to `depth`, expands every entry at `depth - 1`, and reports `complete` exactly when nothing changed; otherwise fewer entries remain unvisited |
| `PruneFill.Visit` | norcina-cube3/src/search/kociemba/prune_table.rs:108-123 | one iteration of the scan over `i` keeps the scan invariant |
| `PruneFill.VisitExpandable` | norcina-cube3/src/search/kociemba/prune_table.rs:108-112 | inside the scan the buffer stays within `depth` or unvisited |
| `PruneFill.VisitSkipped` | norcina-cube3/src/search/kociemba/prune_table.rs:109-111 | skipping an entry not at `depth - 1` keeps the invariant |
| `PruneFill.VisitExpanded` | norcina-cube3/src/search/kociemba/prune_table.rs:113-122 | expanding an entry at `depth - 1` keeps the invariant |
| `PruneFill.LoweredBound` | norcina-cube3/src/search/kociemba/prune_table.rs:118-121 | lowering to `depth` keeps every entry within `depth` or unvisited |
| `PruneFill.ExpandKeeps` | norcina-cube3/src/search/kociemba/prune_table.rs:113-122 | expanding entry `i` keeps the entries expanded before it expanded |
| `PruneFill.Expand` | norcina-cube3/src/search/kociemba/prune_table.rs:113-122 | the move loop gives every neighbour of `i` a distance at most `depth`, changing only unvisited ones |
| `PruneFill.Relax` | norcina-cube3/src/search/kociemba/prune_table.rs:115-121 | one move of the loop keeps the expansion invariant |
| `PruneFill.RelaxStep` | norcina-cube3/src/search/kociemba/prune_table.rs:118-121 | setting a neighbour above `depth` to `depth` records the move that reached it |
| `PruneFill.ReachedSet` | norcina-cube3/src/search/kociemba/prune_table.rs:118-121 | the entry just set has a predecessor one level lower |
| `PruneFill.UnvisitedSet` | norcina-cube3/src/search/kociemba/prune_table.rs:118-121 | setting an unvisited entry removes one from the unvisited count |
| `PruneFill.ClosedStep` | norcina-cube3/src/search/kociemba/prune_table.rs:105-123 | after a full pass no edge skips a level up to `depth` |
| `PruneFill.WalkBound` | norcina-cube3/src/search/kociemba/prune_table.rs:87-131 | the distance stored for the end of any path from the start is at most the path's length |
| `PruneFill.PathTo` | norcina-cube3/src/search/kociemba/prune_table.rs:87-131 | every finite entry is reached by a path of exactly its stored length |
| `PruneFill.Predecessor` | norcina-cube3/src/search/kociemba/prune_table.rs:118-121 | every entry above 0 has a neighbour one level lower |
| `PruneFill.BufferIsDistance` | norcina-cube3/src/search/kociemba/prune_table.rs:87-131 | every stored distance is the length of a shortest path from the start |
| `PruneFill.WalkCons` | norcina-cube3/src/search/kociemba/prune_table.rs:113-116 | a path with one more move in front walks from that move's target |
| `PruneFill.ReversePath` | norcina-cube3/src/search/kociemba/prune_table.rs:96-100 | with every move undone by another move of the set, every path can be walked back |
| `PruneFill.Admissible` | norcina-cube3/src/search/kociemba/prune_table.rs:17-26 | with the move set closed under inverses, the stored distance of a state is at most the length of any path from it to the start: an admissible heuristic |
| `LutHeuristic.Free` | norcina-cube3/src/search/lut_heuristic.rs:111-117 | the free slots below `v`, in increasing order, none of them used |
| `LutHeuristic.FreePrefix` | norcina-cube3/src/search/lut_heuristic.rs:111-117 | the free slots below `v` start the free slots below `n` |
| `LutHeuristic.FreeAt` | norcina-cube3/src/search/lut_heuristic.rs:157-170 | a free slot `v` is the free slot numbered by the count of free slots below it |
| `LutHeuristic.FreeIndexOf` | norcina-cube3/src/search/lut_heuristic.rs:157-170 | the `c`-th free slot has `c` free slots below it |
| `LutHeuristic.FreeSnoc` | norcina-cube3/src/search/lut_heuristic.rs:117-122 | marking one more slot used removes it from the free count when it was free and below `v` |
| `LutHeuristic.FreeCount` | norcina-cube3/src/search/lut_heuristic.rs:109-123 | with `k` distinct used slots below `n`, `n - k` are free |
| `LutHeuristic.FreeAll` | norcina-cube3/src/search/lut_heuristic.rs:106 | with nothing used every slot below `v` is free |
| `LutHeuristic.FreeNone` | norcina-cube3/src/search/lut_heuristic.rs:157-172 | with every slot below `v` used, none is free |
| `LutHeuristic.FreeDigits` | norcina-cube3/src/search/lut_heuristic.rs:109-123 | one choice per piece: `index - chosen_before` |
| `LutHeuristic.FreeDigitsSnoc` | norcina-cube3/src/search/lut_heuristic.rs:109-123 | one more piece appends its choice |
| `LutHeuristic.FreeDigitsInRadix` | norcina-cube3/src/search/lut_heuristic.rs:109-123 | the choices of distinct slots are below `n - i` at step `i` |
| `LutHeuristic.Arrange` | norcina-cube3/src/search/lut_heuristic.rs:155-173 | decoded choices give distinct slots below `n` |
| `LutHeuristic.ArrangeStep` | norcina-cube3/src/search/lut_heuristic.rs:156-170 | one decoding step appends the free slot chosen |
| `LutHeuristic.ArrangeFreeDigits` | norcina-cube3/src/search/lut_heuristic.rs:104-174 | decoding the choices of distinct slots gives the slots back |
| `LutHeuristic.FreeDigitsArrange` | norcina-cube3/src/search/lut_heuristic.rs:104-174 | encoding decoded choices gives the choices back |
| `LutHeuristic.FallingDigits` | norcina-cube3/src/search/lut_heuristic.rs:146-152 | the digits `(p / modulo) % (n - i)` are in their radix |
| `LutHeuristic.InRadixTail` | norcina-cube3/src/search/lut_heuristic.rs:146-152 | the digits after the first are in the radix of `n - 1` |
| `LutHeuristic.FallingValueBound` | norcina-cube3/src/search/lut_heuristic.rs:128 | the permutation index is below the falling factorial (for corners, `CORNER_PERMUTATIONS`) |
| `LutHeuristic.FallingQuotient` | norcina-cube3/src/search/lut_heuristic.rs:149-150 | dividing by `modulo` step by step is dividing by the running product |
| `LutHeuristic.PowQuotient` | norcina-cube3/src/search/lut_heuristic.rs:186 | dividing by `3^i` step by step |
| `LutHeuristic.FallingDigitsOfValue` | norcina-cube3/src/search/lut_heuristic.rs:143-174 | decoding the value of digits gives the digits back |
| `LutHeuristic.FallingValueOfDigits` | norcina-cube3/src/search/lut_heuristic.rs:143-174 | the value of the decoded digits of `p` below the falling factorial is `p` |
| `LutHeuristic.FallingDigitAt` | norcina-cube3/src/search/lut_heuristic.rs:149 | digit `i` is `(p / modulo) % (n - i)` with `modulo` the product of the earlier radices |
| `LutHeuristic.FallingPositive` | norcina-cube3/src/search/lut_heuristic.rs:146-150 | `modulo` stays positive |
| `LutHeuristic.FallingSnoc` | norcina-cube3/src/search/lut_heuristic.rs:118-120 | one step of `out += choice * modulo` |
| `LutHeuristic.BaseDigits` | norcina-cube3/src/search/lut_heuristic.rs:186 | the base-`b` digits are below `b` |
| `LutHeuristic.BaseValueBound` | norcina-cube3/src/search/lut_heuristic.rs:137 | the orientation index is below `b^k` |
| `LutHeuristic.BaseDigitsOfValue` | norcina-cube3/src/search/lut_heuristic.rs:130-135 | decoding the orientation index gives the digits back |
| `LutHeuristic.BaseValueOfDigits` | norcina-cube3/src/search/lut_heuristic.rs:130-135 | encoding the decoded digits of `x < b^m` gives `x` |
| `LutHeuristic.BaseDigitAt` | norcina-cube3/src/search/lut_heuristic.rs:186 | digit `i` is `(x / b^i) % b` |
| `LutHeuristic.BaseSnoc` | norcina-cube3/src/search/lut_heuristic.rs:134 | one more digit adds `b^i` times it |
| `LutHeuristic.CountChosen` | norcina-cube3/src/search/lut_heuristic.rs:111-115 | `chosen_before` counts the used slots below `index` |
| `LutHeuristic.TakenAndFree` | norcina-cube3/src/search/lut_heuristic.rs:111-117 | the used and the free slots below `v` add up to `v` |
| `LutHeuristic.PermutationIndex` | norcina-cube3/src/search/lut_heuristic.rs:105-126 | the loop computes the falling-radix value of the choices |
| `LutHeuristic.OrientationIndex` | norcina-cube3/src/search/lut_heuristic.rs:130-135 | the base-`b` value of the digits, least significant first |
| `LutHeuristic.TakeUnchosen` | norcina-cube3/src/search/lut_heuristic.rs:156-170 | the inner loop returns the `choice`-th free slot and marks it chosen |
| `LutHeuristic.NextModulo` | norcina-cube3/src/search/lut_heuristic.rs:150 | `modulo` is the product of the radices so far |
| `LutHeuristic.IndicesFromPermutationIndex` | norcina-cube3/src/search/lut_heuristic.rs:143-174 | the slots yielded are the decoding of the falling-radix digits of the index |
| `LutHeuristic.CornerConstants` | norcina-cube3/src/search/lut_heuristic.rs:99-101 | `3^7`, `8!` and their product |
| `LutHeuristic.IndexCorners` | norcina-cube3/src/search/lut_heuristic.rs:104-141 | `index_corners` computes `orientation_index + CORNER_ORIENTATIONS * permutation_index` |
| `LutHeuristic.CornerIndexBound` | norcina-cube3/src/search/lut_heuristic.rs:128-140 | for corners in distinct slots the index is below `CORNER_STATES` |
| `LutHeuristic.CornersFromIndex` | norcina-cube3/src/search/lut_heuristic.rs:176-197 | the slots decode `index / 3^7`, the first seven twists are the base-3 digits of `index % 3^7`, and the eighth completes the twist sum to a multiple of 3 |
| `LutHeuristic.PlaceCorners` | norcina-cube3/src/search/lut_heuristic.rs:180-194 | the loop places each slot with its twist, the last one completing the sum |
| `LutHeuristic.TwistDigit` | norcina-cube3/src/search/lut_heuristic.rs:186 | the twist taken at step `i` is base-3 digit `i` |
| `LutHeuristic.PlacedNone` | norcina-cube3/src/search/lut_heuristic.rs:180-181 | the placement invariant holds before the loop |
| `LutHeuristic.PlacedStep` | norcina-cube3/src/search/lut_heuristic.rs:185-193 | one placement keeps the invariant |
| `LutHeuristic.PlacedAll` | norcina-cube3/src/search/lut_heuristic.rs:196 | after the loop, slots, first seven twists and twist sum are as promised |
| `LutHeuristic.SetCorner` | norcina-cube3/src/search/lut_heuristic.rs:193 | writing corner `i` changes position `i` and twist `i` only |
| `LutHeuristic.CornerIndexOfDecoded` | norcina-cube3/src/search/lut_heuristic.rs:299-302 | `index_corners(corners_from_index(i)) == i` for every `i < CORNER_STATES` |
| `LutHeuristic.DecodedCornerIndex` | norcina-cube3/src/search/lut_heuristic.rs:104-141 | the index of distinct corners decodes to their slots and first seven twists |
| `LutHeuristic.CornersDetermined` | norcina-cube3/src/search/lut_heuristic.rs:176-197 | slots, first seven twists and a twist sum divisible by 3 determine the corners |
| `LutHeuristic.CornerParts` | norcina-cube3/src/search/lut_heuristic.rs:193 | slot and twist determine a corner |
| `LutHeuristic.CornersRoundTrip` | norcina-cube3/src/search/lut_heuristic.rs:299-302 | `corners_from_index(index_corners(c)) == c` for every valid corner set (the quickcheck property) |
| `LutHeuristic.CornerIndicesUnique` | norcina-cube3/src/search/lut_heuristic.rs:312-316 | every corner index below `CORNER_STATES` is the index of the corners it decodes to, so all indices are distinct |
| `LutHeuristic.EdgeSlots` | norcina-cube3/src/search/lut_heuristic.rs:222 | one slot below 12 per edge |
| `LutHeuristic.ComputeHalf` | norcina-cube3/src/search/lut_heuristic.rs:206-241 | the closure `compute` indexes the first or second six edges |
| `LutHeuristic.IndexEdges` | norcina-cube3/src/search/lut_heuristic.rs:205-244 | `index_edges` is the pair of the two half indices |
| `LutHeuristic.HalfIndexBound` | norcina-cube3/src/search/lut_heuristic.rs:199-201 | a half of distinct edges has an index below 12!/6! times 64, the corrected `HALF_EDGE_STATES` |
| `LutHeuristic.Populate` | norcina-cube3/src/search/lut_heuristic.rs:254-270 | `populate` writes six edges from `start` with the decoded slots and flips, and nothing else |
| `LutHeuristic.PlaceEdges` | norcina-cube3/src/search/lut_heuristic.rs:257-269 | the loop inside `populate` places each slot with its flip |
| `LutHeuristic.FlipDigit` | norcina-cube3/src/search/lut_heuristic.rs:261 | the flip read at step `i` is binary digit `i` |
| `LutHeuristic.EdgesPlacedStep` | norcina-cube3/src/search/lut_heuristic.rs:267-268 | one placement keeps the invariant |
| `LutHeuristic.EdgesPlacedAll` | norcina-cube3/src/search/lut_heuristic.rs:270 | after the loop the six slots and flips are as decoded |
| `LutHeuristic.EdgesFromIndex` | norcina-cube3/src/search/lut_heuristic.rs:246-276 | each half decodes its own index: slots from the quotient by 64, flips from the remainder |
| `LutHeuristic.HalfIndexOfDecoded` | norcina-cube3/src/search/lut_heuristic.rs:299-302 | the half index of a decoded half is the index |
| `LutHeuristic.DecodedHalfIndex` | norcina-cube3/src/search/lut_heuristic.rs:205-244 | the index of six distinct edges decodes to their slots and flips |
| `LutHeuristic.EdgesDetermined` | norcina-cube3/src/search/lut_heuristic.rs:246-276 | slots and flips determine the edges |
| `LutHeuristic.EdgesRoundTrip` | norcina-cube3/src/search/lut_heuristic.rs:299-302 | `edges_from_index(index_edges(e)) == e` for edges in distinct slots |
| `LutHeuristic.EdgeIndicesUnique` | norcina-cube3/src/search/lut_heuristic.rs:319-325 | every pair of half indices below the state count is the index of the edges it decodes to |
| `LutHeuristic.SolvedIndices` | norcina-cube3/src/search/lut_heuristic.rs:306-309 | the solved corners index to 0 and so does the first half of the solved edges |
| `LutHeuristic.IdentityDigits` | norcina-cube3/src/search/lut_heuristic.rs:306-309 | slots in order have all choices 0 |
| `LutHeuristic.ZeroValues` | norcina-cube3/src/search/lut_heuristic.rs:306-309 | zero digits have value 0 |
| `LutHeuristic.FreeLow` | norcina-cube3/src/search/lut_heuristic.rs:306-309 | slots 6-11 used leave every slot below 6 free |
| `LutHeuristic.FreeHigh` | norcina-cube3/src/search/lut_heuristic.rs:306-309 | with 6..v used, six slots below `v` are free |
| `LutHeuristic.HalfEdgePermutationsAsWritten` | norcina-cube3/src/search/lut_heuristic.rs:199 | `comb(12, 6)` is 924 |
| `LutHeuristic.HalfEdgeValues` | norcina-cube3/src/search/lut_heuristic.rs:199-201 | 12!/6! is 665280 and 6! is 720 |
| `LutHeuristic.SolvedSecondHalfOutOfRange` | norcina-cube3/src/search/lut_heuristic.rs:33-38 | the second half of the solved edges indexes to at least `comb(12, 6) * 64`: the table as written is too small |
| `LutHeuristic.SolvedSecondHalfIndex` | norcina-cube3/src/search/lut_heuristic.rs:205-244 | that index is 41619840 |
| `LutHeuristic.SixesValue` | norcina-cube3/src/search/lut_heuristic.rs:217-238 | six choices of 6 have falling-radix value 650310 |
| `PyraPieces.Vertex.U8` | norcina-pyraminx/src/piece/mod.rs:25-27 | a vertex's packed value is one of the four two-bit codes |
| `PyraPieces.Vertex.OrientationDirection` | norcina-pyraminx/src/piece/mod.rs:76-85 | the orientation direction is positive exactly for R and U, negative for L and B |
| `PyraPieces.Vertex.OffsetFace` | norcina-pyraminx/src/piece/mod.rs:146-150 | offsetting a face is offsetting the vertex opposite it, under the same precondition that the anchor differs from it |
| `PyraPieces.VertexFromU8` | norcina-pyraminx/src/piece/mod.rs:30-33 | a code below 4 is read back unchanged; a larger one is refused by the precondition, as the source asserts |
| `PyraPieces.VertexFromU8Mod4` | norcina-pyraminx/src/piece/mod.rs:36-38 | the vertex keeps the two low bits of any byte |
| `PyraPieces.FromI8Mod4` | norcina-pyraminx/src/piece/mod.rs:41-45 | a signed value, negative ones included, maps to its Euclidean residue modulo 4 |
| `PyraPieces.DirectionsOfVertex` | norcina-pyraminx/src/piece/mod.rs:56-75 | y is bit 0, z is bit 1, x is their exclusive or (the test table U0 L1 B1 R0), and direction_on_axis agrees with x, y and z |
| `PyraPieces.VertexDirections` | norcina-pyraminx/src/piece/mod.rs:56-68 | the x direction is determined by y and z, and two vertices agreeing on y and z are equal |
| `PyraPieces.Cycle` | norcina-pyraminx/src/piece/mod.rs:96-104 | the documented cycle of each anchor lists the three other vertices, each once |
| `PyraPieces.OffsetFollowsCycle` | norcina-pyraminx/src/piece/mod.rs:110-140 | offsetting the start by i clockwise turns lands i places further along the anchor's cycle, for every anchor, start and turn |
| `PyraPieces.OffsetTableU` | norcina-pyraminx/src/piece/mod.rs:202-228 | every result of offset around U, as the test's table lists it |
| `PyraPieces.OffsetTableR` | norcina-pyraminx/src/piece/mod.rs:202-228 | every result of offset around R, as the test's table lists it |
| `PyraPieces.OffsetTableL` | norcina-pyraminx/src/piece/mod.rs:202-228 | every result of offset around L, as the test's table lists it |
| `PyraPieces.OffsetTableB` | norcina-pyraminx/src/piece/mod.rs:202-228 | every result of offset around B, as the test's table lists it |
| `PyraPieces.OffsetCycleU` | norcina-pyraminx/src/piece/mod.rs:202-228 | the cycle test holds for anchor U |
| `PyraPieces.OffsetCycleR` | norcina-pyraminx/src/piece/mod.rs:202-228 | the cycle test holds for anchor R |
| `PyraPieces.OffsetCycleL` | norcina-pyraminx/src/piece/mod.rs:202-228 | the cycle test holds for anchor L |
| `PyraPieces.OffsetCycleB` | norcina-pyraminx/src/piece/mod.rs:202-228 | the cycle test holds for anchor B |
| `PyraPieces.CycleCovers` | norcina-pyraminx/src/piece/mod.rs:96-104 | every vertex other than the anchor is on the anchor's cycle |
| `PyraPieces.OffsetZeroAndAvoidsAnchor` | norcina-pyraminx/src/piece/mod.rs:110-140 | a zero offset returns the start, and no offset ever lands on the anchor |
| `PyraPieces.OffsetSymmetric` | norcina-pyraminx/src/piece/mod.rs:231-243 | turning v2 around v1 by o gives the same vertex as turning v1 around v2 by -o, for every distinct pair and nonzero o |
| `PyraPieces.OffsetPairs` | norcina-pyraminx/src/piece/mod.rs:231-243 | the symmetry written out for the two nonzero orientations |
| `PyraMoves.Amount.U8` | norcina-pyraminx/src/mov.rs:7-16 | Single is 0 and Reverse is 1 |
| `PyraMoves.AmountFromU8` | norcina-pyraminx/src/mov.rs:27-31 | 0 and 1 are read back unchanged; the source asserts the value is below 2 |
| `PyraMoves.AmountFromU8Mod2` | norcina-pyraminx/src/mov.rs:33-36 | any byte maps to the amount of its low bit |
| `PyraMoves.NewCoreMove` | norcina-pyraminx/src/mov.rs:47-51 | the vertex and amount accessors read back what new packed |
| `PyraMoves.CoreMoveFields` | norcina-pyraminx/src/mov.rs:41-72 | every core move is the one new builds from its own vertex and amount |
| `PyraMoves.AllCoreMoves` | norcina-pyraminx/src/mov.rs:53-62 | ALL has eight distinct entries and contains every core move |
| `PyraMoves.CoreInverse` | norcina-pyraminx/src/lib.rs:276-282 | the inverse turns the same vertex with the other amount |
| `PyraMoves.NewMove` | norcina-pyraminx/src/mov.rs:92-105 | is_tip_move reads back the tip flag and core reads back the core move of the vertex and amount |
| `PyraMoves.MoveFields` | norcina-pyraminx/src/mov.rs:77-105 | a move is determined by its core move and its tip flag, and new rebuilds it from them |
| `PyraMoves.ToggleTipInvolution` | norcina-pyraminx/src/mov.rs:107-111 | toggle_tip flips the tip flag, keeps the core move and undoes itself |
| `PyraEdges.Edge.IsOriented` | norcina-pyraminx/src/piece/edge.rs:65-67 | an edge is oriented exactly when bit 3 is clear |
| `PyraEdges.Edge.Position` | norcina-pyraminx/src/piece/edge.rs:19-26 | the position is the packed value without the orientation bit |
| `PyraEdges.Edge.Flipped` | norcina-pyraminx/src/piece/edge.rs:218 | flipping bit 3 keeps the position and changes the orientation |
| `PyraEdges.FromIndex` | norcina-pyraminx/src/piece/edge.rs:46-48 | the edge of index i is oriented and its packed value is i |
| `PyraEdges.SolvedAsWrittenMisplaces` | norcina-pyraminx/src/piece/edge.rs:30-34 | solved as written shifts the axis two bits: the +y edge it builds reads back as a z edge, and the +z edge comes out disoriented |
| `PyraEdges.Solved` | norcina-pyraminx/src/piece/edge.rs:30-43 | the solved edge of an axis and direction reads back that axis and direction, is oriented, and is the entry of SOLVED at direction + 2 * axis |
| `PyraEdges.Xor2` | norcina-pyraminx/src/piece/edge.rs:85 | the exclusive or of two two-bit values is a two-bit value |
| `PyraEdges.PositionFromFaces` | norcina-pyraminx/src/piece/edge.rs:69-98 | the edge built from two faces is oriented |
| `PyraEdges.VertexTable` | norcina-pyraminx/src/piece/mod.rs:56-75 | the direction of each vertex on each axis |
| `PyraEdges.PositionFields` | norcina-pyraminx/src/piece/edge.rs:56-63 | axis and direction do not depend on the orientation bit |
| `PyraEdges.SameAsPosition` | norcina-pyraminx/src/piece/edge.rs:102-198 | vertices, faces, orientation face, non-orientation face and is_on_orientation_face depend only on the position |
| `PyraEdges.Position0` | norcina-pyraminx/src/piece/edge.rs:102-198 | edge 0 lies on +x between U and R, its faces are L and B, B being its orientation face |
| `PyraEdges.Position1` | norcina-pyraminx/src/piece/edge.rs:102-198 | edge 1 lies on -x between L and B, its faces are U and R, U being its orientation face |
| `PyraEdges.Position2` | norcina-pyraminx/src/piece/edge.rs:102-198 | edge 2 lies on +y between U and B, its faces are L and R, L being its orientation face |
| `PyraEdges.Position3` | norcina-pyraminx/src/piece/edge.rs:102-198 | edge 3 lies on -y between L and R, its faces are U and B, U being its orientation face |
| `PyraEdges.Position4` | norcina-pyraminx/src/piece/edge.rs:102-198 | edge 4 lies on +z between U and L, its faces are R and B, R being its orientation face |
| `PyraEdges.Position5` | norcina-pyraminx/src/piece/edge.rs:102-198 | edge 5 lies on -z between R and B, its faces are U and L, U being its orientation face |
| `PyraEdges.PositionTable` | norcina-pyraminx/src/piece/edge.rs:102-198 | the same table for every edge, oriented or not, by its position |
| `PyraEdges.VerticesOnTheEdgeSide` | norcina-pyraminx/src/piece/edge.rs:100-122 | an edge's two vertices are distinct and are exactly the vertices lying in the edge's direction on the edge's axis |
| `PyraEdges.FacesOppositeTheEdge` | norcina-pyraminx/src/piece/edge.rs:124-145 | an edge's two faces are distinct, are exactly the vertices on the other side of its axis, and are exactly the vertices that are not its own |
| `PyraEdges.FacesLB` | norcina-pyraminx/src/piece/edge.rs:69-98 | faces L and B give edge 0 |
| `PyraEdges.FacesBL` | norcina-pyraminx/src/piece/edge.rs:69-98 | faces B and L give edge 0 |
| `PyraEdges.FacesUR` | norcina-pyraminx/src/piece/edge.rs:69-98 | faces U and R give edge 1 |
| `PyraEdges.FacesRU` | norcina-pyraminx/src/piece/edge.rs:69-98 | faces R and U give edge 1 |
| `PyraEdges.FacesLR` | norcina-pyraminx/src/piece/edge.rs:69-98 | faces L and R give edge 2 |
| `PyraEdges.FacesRL` | norcina-pyraminx/src/piece/edge.rs:69-98 | faces R and L give edge 2 |
| `PyraEdges.FacesUB` | norcina-pyraminx/src/piece/edge.rs:69-98 | faces U and B give edge 3 |
| `PyraEdges.FacesBU` | norcina-pyraminx/src/piece/edge.rs:69-98 | faces B and U give edge 3 |
| `PyraEdges.FacesRB` | norcina-pyraminx/src/piece/edge.rs:69-98 | faces R and B give edge 4 |
| `PyraEdges.FacesBR` | norcina-pyraminx/src/piece/edge.rs:69-98 | faces B and R give edge 4 |
| `PyraEdges.FacesUL` | norcina-pyraminx/src/piece/edge.rs:69-98 | faces U and L give edge 5 |
| `PyraEdges.FacesLU` | norcina-pyraminx/src/piece/edge.rs:69-98 | faces L and U give edge 5 |
| `PyraEdges.PositionFromFacesRoundTrip` | norcina-pyraminx/src/piece/edge.rs:69-98 | position_from_faces of an edge's own faces gives back its position |
| `PyraEdges.PositionFromFacesShared` | norcina-pyraminx/src/lib.rs:284-287 | for two distinct faces, both vertices agree on the axis of the edge built from them (the debug assertion), and that edge's faces are the two faces in some order |
| `PyraEdges.OrientationFaces` | norcina-pyraminx/src/piece/edge.rs:147-198 | the orientation face is U exactly when the edge is on the orientation face, the two faces differ, and together they are the edge's two faces |
| `PyraEdgeMoves.Slots` | norcina-pyraminx/src/piece/edge.rs:209-213 | the three slots of a turn are one x slot, one y slot and one z slot |
| `PyraEdgeMoves.SlotsU` | norcina-pyraminx/src/piece/edge.rs:209-213 | a U turn moves slots 0, 2 and 4 |
| `PyraEdgeMoves.SlotsL` | norcina-pyraminx/src/piece/edge.rs:209-213 | an L turn moves slots 1, 3 and 4 |
| `PyraEdgeMoves.SlotsB` | norcina-pyraminx/src/piece/edge.rs:209-213 | a B turn moves slots 1, 2 and 5 |
| `PyraEdgeMoves.SlotsR` | norcina-pyraminx/src/piece/edge.rs:209-213 | an R turn moves slots 0, 3 and 5 |
| `PyraEdgeMoves.SlotsAreTheLayer` | norcina-pyraminx/src/piece/edge.rs:209-213 | a slot is moved by a vertex's turn exactly when the vertex is one of that slot's two vertices |
| `PyraEdgeMoves.Toggled` | norcina-pyraminx/src/piece/edge.rs:216-239 | toggling keeps the position and flips the orientation exactly when the slot is on the U face |
| `PyraEdgeMoves.ToggledTwice` | norcina-pyraminx/src/piece/edge.rs:216-221 | toggling the same slot twice changes nothing |
| `PyraEdgeMoves.Cycled` | norcina-pyraminx/src/piece/edge.rs:216-239 | a Single turn carries b to a, c to b and a to c, a Reverse turn the other way, a Single turn toggling each piece by the slot it lands in and a Reverse turn by the slot it leaves, and the other three slots unchanged |
| `PyraEdgeMoves.Swap` | norcina-pyraminx/src/piece/edge.rs:224-230 | swap exchanges two entries and keeps the rest |
| `PyraEdgeMoves.ToggleSlots` | norcina-pyraminx/src/piece/edge.rs:216-239 | the three slots are toggled in place and the rest kept |
| `PyraEdgeMoves.TurnLayer` | norcina-pyraminx/src/piece/edge.rs:216-239 | toggling before the reverse swaps and after the single swaps leaves the array equal to Cycled of its old contents |
| `PyraEdgeMoves.MovePiecesInPlace` | norcina-pyraminx/src/piece/edge.rs:206-240 | the array afterwards is the old edges with the move's layer turned |
| `PyraEdgeMoves.MovePieces` | norcina-pyraminx/src/piece/edge.rs:201-204 | the copy returned is the edges with the move's layer turned |
| `PyraEdgeMoves.MovedKeepsOtherSlots` | norcina-pyraminx/src/piece/edge.rs:206-240 | a turn leaves every slot outside its layer unchanged |
| `PyraEdgeMoves.FlipsAtTable` | norcina-pyraminx/src/piece/edge.rs:196-198 | the U-face slots, which flip the piece they toggle, are 1, 3 and 5 |
| `PyraEdgeMoves.EdgeParts` | norcina-pyraminx/src/piece/edge.rs:19-26 | an edge is determined by its position and its orientation |
| `PyraEdgeMoves.ToggledThrice` | norcina-pyraminx/src/piece/edge.rs:216-239 | toggling by three slots of which an even number flip is the identity |
| `PyraEdgeMoves.SlotsParity` | norcina-pyraminx/src/piece/edge.rs:209-213 | every layer has an even number of U-face slots |
| `PyraEdgeMoves.AxisOddFlipsChange` | norcina-pyraminx/src/piece/edge.rs:216-239 | changing one slot of an axis pair changes that pair's flip parity exactly when it changes that slot's orientation |
| `PyraEdgeMoves.OddFlipsOutside` | norcina-pyraminx/src/piece/edge.rs:216-239 | the total flip parity changes exactly by the orientation changes in the three turned slots |
| `PyraEdgeMoves.CycledKeepsFlipParity` | norcina-pyraminx/src/piece/edge.rs:216-239 | turning a layer with an even number of flipping slots keeps the parity of disoriented edges |
| `PyraEdgeMoves.MovedKeepsFlipParity` | norcina-pyraminx/src/piece/edge.rs:206-240 | every core move keeps the parity of disoriented edges |
| `PyraEdgeMoves.CycledThenBack` | norcina-pyraminx/src/piece/edge.rs:216-239 | a turn followed by the other amount on the same slots restores the edges |
| `PyraEdgeMoves.MovedThenInverse` | norcina-pyraminx/src/lib.rs:276-278 | a move followed by its inverse restores the edges |
| `PyraEdgeMoves.CycledThrice` | norcina-pyraminx/src/piece/edge.rs:216-239 | three turns of one layer restore the edges |
| `PyraEdgeMoves.MovedThrice` | norcina-pyraminx/src/lib.rs:280-282 | three applications of one move restore the edges |
| `PyraEdgeMoves.SolvedEachPositionOnce` | norcina-pyraminx/src/piece/edge.rs:36-43 | SOLVED holds each of the six positions once |
| `PyraEdgeMoves.MovedKeepsEachPositionOnce` | norcina-pyraminx/src/piece/edge.rs:206-240 | a move keeps each position held exactly once |
| `PyraCenters.Unit` | norcina-pyraminx/src/piece/center.rs:24-26 | each vertex's field is a two-bit digit at weight 1, 4, 16 or 64 |
| `PyraCenters.Field` | norcina-pyraminx/src/piece/center.rs:24-26 | the two bits read at a vertex are below 4 |
| `PyraCenters.Unpack` | norcina-pyraminx/src/piece/center.rs:7-10 | the byte is the packing of its four fields |
| `PyraCenters.FieldsOfPack` | norcina-pyraminx/src/piece/center.rs:7-10 | packing four two-bit fields and reading each back gives the fields |
| `PyraCenters.ReplaceIsPack` | norcina-pyraminx/src/piece/center.rs:35-39 | clearing a field and filling in a value is the packing with that one field replaced |
| `PyraCenters.Replace` | norcina-pyraminx/src/piece/center.rs:35-39 | overwriting a vertex's field sets that field to the value and keeps the other three |
| `PyraCenters.FieldsDetermine` | norcina-pyraminx/src/piece/center.rs:7-10 | two values with the same four fields are equal |
| `PyraCenters.OrientationOf` | norcina-pyraminx/src/piece/center.rs:15-26 | the orientation at a vertex is its field, defined where the field is a valid orientation |
| `PyraCenters.Delta` | norcina-pyraminx/src/piece/center.rs:30 | the turn adds 1 for Single and 2 for Reverse |
| `PyraCenters.MovField` | norcina-pyraminx/src/piece/center.rs:29-41 | the corrected mov adds the delta modulo 3 at the turned vertex and keeps the other fields |
| `PyraCenters.SolvedFields` | norcina-pyraminx/src/piece/center.rs:13 | SOLVED has every field 0 and is valid |
| `PyraCenters.MovAsWrittenField` | norcina-pyraminx/src/piece/center.rs:29-41 | mov as written keeps the other fields and puts at the turned vertex the whole shifted byte plus the delta, modulo 3 |
| `PyraCenters.MovAsWrittenFromSolved` | norcina-pyraminx/src/piece/center.rs:29-41 | B from solved gives byte 16, the B field set to 1 |
| `PyraCenters.MovAsWrittenTurnsB` | norcina-pyraminx/src/piece/center.rs:29-41 | the same step with the move given by its fields |
| `PyraCenters.TurnsBField` | norcina-pyraminx/src/piece/center.rs:29-41 | from fields that are zero, B sets only the B field, to 1 |
| `PyraCenters.ByteOfFields` | norcina-pyraminx/src/piece/center.rs:7-10 | fields U=0, L=0, B=1, R=0 make byte 16 |
| `PyraCenters.MovAsWrittenLeaks` | norcina-pyraminx/src/piece/center.rs:31 | after B then U from solved, the unmasked shift makes the U field 2 where the corrected mov gives 1 |
| `PyraCenters.MovAsWrittenLeaksFrom` | norcina-pyraminx/src/piece/center.rs:31 | from byte 16, U as written gives a U field of 2, the corrected mov 1 |
| `PyraCenters.MovAsWrittenNotUndone` | norcina-pyraminx/src/piece/center.rs:29-41 | as written, U then U' after B from solved leaves the U field at 2 and does not restore the centres |
| `PyraCenters.MovAsWrittenTopField` | norcina-pyraminx/src/piece/center.rs:29-41 | for the top field R nothing lies above it and mov as written equals the corrected mov |
| `PyraCenters.MovRotatesOneCentre` | norcina-pyraminx/src/piece/center.rs:15-41 | the corrected mov keeps every orientation valid, turns the moved vertex's orientation by 1 (Single) or 2 (Reverse) and keeps the others |
| `PyraCenters.AddMod3Commutes` | norcina-pyraminx/src/piece/center.rs:31 | two additions modulo 3 commute |
| `PyraCenters.AddMod3Inverse` | norcina-pyraminx/src/piece/center.rs:31 | adding 1 and 2 modulo 3 restores an orientation |
| `PyraCenters.AddMod3Thrice` | norcina-pyraminx/src/piece/center.rs:31 | adding the same delta three times modulo 3 restores an orientation |
| `PyraCenters.CommutesAt` | norcina-pyraminx/src/piece/center.rs:29-41 | at each vertex, two corrected moves in either order give the same field |
| `PyraCenters.MovCommutes` | norcina-pyraminx/src/piece/center.rs:29-41 | corrected moves on centres commute |
| `PyraCenters.InverseAt` | norcina-pyraminx/src/piece/center.rs:29-41 | at each valid vertex a corrected move and its inverse restore the field |
| `PyraCenters.MovThenInverse` | norcina-pyraminx/src/lib.rs:276-278 | on valid centres a corrected move followed by its inverse is the identity |
| `PyraCenters.ThriceAt` | norcina-pyraminx/src/piece/center.rs:29-41 | at each valid vertex three equal corrected moves restore the field |
| `PyraCenters.MovThrice` | norcina-pyraminx/src/lib.rs:280-282 | on valid centres three equal corrected moves are the identity |
| `PyraTips.Tips.OrientationOf` | norcina-pyraminx/src/piece/tip.rs:12-16 | a tip's orientation is the orientation of the centres it wraps |
| `PyraTips.Tips.Mov` | norcina-pyraminx/src/piece/tip.rs:18-27 | moving the tips moves the centres they wrap |
| `PyraTips.TipsSolved` | norcina-pyraminx/src/piece/tip.rs:10 | solved tips wrap solved centres, every tip at orientation 0 |
| `PyraTips.TipsMovThenInverse` | norcina-pyraminx/src/lib.rs:276-278 | on valid tips a move followed by its inverse is the identity |
| `PyraTips.TipsMovRotatesOneTip` | norcina-pyraminx/src/piece/tip.rs:12-22 | a move turns the moved tip by 1 or 2 and keeps the other tips |
| `PyraMoves.Move.Display` | norcina-pyraminx/src/mov.rs:114-136 | two characters: the vertex letter, lower case exactly for a tip move, then ' ' exactly for Single and '\'' exactly for Reverse |
| `PyraMoves.VertexLetter` | norcina-pyraminx/src/mov.rs:122-131 | the letter is one of U, L, B, R, lower case exactly for a tip move |
| `PyraMoves.DisplayInjective` | norcina-pyraminx/src/mov.rs:114-136 | different moves are written differently |
| `Pyraminx.CoreMov` | norcina-pyraminx/src/lib.rs:216-221 | a core move moves the centres and turns the edges' layer |
| `Pyraminx.CoreSolvedValid` | norcina-pyraminx/src/lib.rs:211-214 | the solved core has valid centres and each edge position once |
| `Pyraminx.CoreMovKeepsValid` | norcina-pyraminx/src/lib.rs:216-221 | a core move keeps the core valid |
| `Pyraminx.CoreMovThenInverse` | norcina-pyraminx/src/lib.rs:276-278 | a core move followed by its inverse restores a valid core |
| `Pyraminx.CoreMovThrice` | norcina-pyraminx/src/lib.rs:280-282 | three equal core moves restore a valid core |
| `Pyraminx.MovSingle` | norcina-pyraminx/src/lib.rs:32-44 | every move turns the tips; a tip move keeps the core, and any other move turns the core too |
| `Pyraminx.Inverse` | norcina-pyraminx/src/lib.rs:276-278 | the inverse move turns the same vertex back and keeps the tip flag |
| `Pyraminx.MovSingleKeepsValid` | norcina-pyraminx/src/lib.rs:32-44 | a move keeps a valid puzzle valid |
| `Pyraminx.MovSingleThenInverse` | norcina-pyraminx/src/lib.rs:276-278 | the commented-out property that a move followed by its inverse is the identity, proved for valid puzzles |
| `Pyraminx.MovSingleThrice` | norcina-pyraminx/src/lib.rs:280-282 | the commented-out property that a triple move is the identity, proved for valid puzzles |
| `Pyraminx.Mov` | norcina-pyraminx/src/lib.rs:25-30 | the loop applying each move in turn gives the moves applied in order |
| `Pyraminx.ApplyConcat` | norcina-pyraminx/src/lib.rs:25-30 | applying a + b is applying a and then b |
| `Pyraminx.ApplyKeepsValid` | norcina-pyraminx/src/lib.rs:25-30 | any move sequence keeps a valid puzzle valid |
| `Pyraminx.Undo` | norcina-pyraminx/src/lib.rs:276-278 | the undo sequence is the inverses of the moves in reverse order |
| `Pyraminx.ApplyThenUndo` | norcina-pyraminx/src/lib.rs:276-278 | applying moves and then their undo sequence restores a valid puzzle |
| `Pyraminx.MovSingleAsWritten` | norcina-pyraminx/src/lib.rs:32-44 | `mov_single` over the centre move as written: the edges turn as in the corrected move, the fields of the other vertices are kept, and an R move equals the corrected one |
| `Pyraminx.AsWrittenNotUndone` | norcina-pyraminx/src/lib.rs:276-278 | as written, after B from solved, U then U' leaves the U tip and the U centre at 2, so the puzzle is not restored |
| `Algs.ReversedMoves` | norcina-core/src/alg.rs:15-23 | reversing keeps the number of moves |
| `Algs.ReversedAt` | norcina-core/src/alg.rs:15-23 | move i of the reversed algorithm is the inverse of move n - 1 - i of the original |
| `Algs.ReversedJoin` | norcina-core/src/alg.rs:15-23 | the reverse of a + b is the reverse of b followed by the reverse of a |
| `Algs.ReversedTwice` | norcina-core/src/alg.rs:15-31 | when inverting a move twice gives it back, reversing twice gives back the algorithm |
| `Algs.JoinLength` | norcina-core/src/alg.rs:34-44 | the text of n > 0 moves is their texts plus n - 1 separators; no moves give the empty text |
| `Algs.JoinAppend` | norcina-core/src/alg.rs:34-44 | the text of a + b is the text of a, a space and the text of b |
| `Algs.Shown` | norcina-core/src/alg.rs:36-41 | entry i is the text of move i |
| `Algs.Alg.constructor` | norcina-core/src/alg.rs:10-12 | an algorithm holds the moves it is built from |
| `Algs.Alg.Reverse` | norcina-core/src/alg.rs:15-23 | the reversing loop leaves the moves reversed and each inverted |
| `Algs.Alg.Reversed` | norcina-core/src/alg.rs:25-31 | reversed reverses the algorithm itself and returns it |
| `Algs.Alg.Display` | norcina-core/src/alg.rs:34-44 | the written text is the moves' texts separated by single spaces |
| `Algs.CubeInverse` | norcina-cube-n/src/mov.rs:118-123 | a cube move's inverse turns the same face by the reversed amount |
| `Algs.CubeReversedTwice` | norcina-core/src/alg.rs:15-31 | reversing a cube algorithm twice gives it back |
| `Algs.CubeReversedUndoes` | norcina-core/src/alg.rs:15-23 | applying a cube algorithm and then its reverse restores every well-formed cube |
| `Events.Event.Id` | norcina-core/src/event/mod.rs:102-142 | each event's id is its own place in ALL |
| `Events.Event.Display` | norcina-core/src/event/mod.rs:145-149 | an event is shown by its non-empty short name |
| `Events.Default` | norcina-core/src/event/mod.rs:6-10 | the default event is the 3x3x3 cube, id 1 and string id "333" |
| `Events.IdBijection` | norcina-core/src/event/mod.rs:102-142 | ALL has 17 events, different events have different ids, and the event at place i has id i |
| `Events.StrIdInjective` | norcina-core/src/event/mod.rs:32-52 | different events have different string ids |
| `Events.DisplayInjective` | norcina-core/src/event/mod.rs:145-149 | different events are shown differently |
| `Events.FullNameInjective` | norcina-core/src/event/mod.rs:55-75 | different events have different full names |
| `PestoSolve.Penalty.Index` | pesto-core/src/solve.rs:19-25 | the index of a penalty is 0, 1 or 2 |
| `PestoSolve.PenaltyFromIndex` | pesto-core/src/solve.rs:27-34 | from_index succeeds exactly below 3, with the penalty of that index, and fails otherwise |
| `PestoSolve.PenaltyRoundTrip` | pesto-core/src/solve.rs:19-34 | from_index of a penalty's index is that penalty, and different penalties have different indices |
| `PestoSolve.DigitRoundTrip` | pesto-core/src/solve.rs:80 | a digit written and read back is itself |
| `PestoSolve.Decimal` | pesto-core/src/solve.rs:80-82 | the decimal text of n is digits, non-empty, reads back as n, and has at most as many digits as n's size allows |
| `PestoSolve.Zeros` | pesto-core/src/solve.rs:80 | the padding is k zero digits |
| `PestoSolve.PadLeft` | pesto-core/src/solve.rs:80 | padding to width w makes the text at least w long and no longer than needed |
| `PestoSolve.ZerosValue` | pesto-core/src/solve.rs:80 | leading zeros do not change a number's value |
| `PestoSolve.ZerosOnly` | pesto-core/src/solve.rs:80 | a run of zeros reads as 0 |
| `PestoSolve.Padded` | pesto-core/src/solve.rs:77-91 | a number padded to width w reads back as itself and is w digits when it fits in w |
| `PestoSolve.Fields` | pesto-core/src/solve.rs:77-91 | two texts joined by a separator keep both texts and the separator in place |
| `PestoSolve.SecondsText` | pesto-core/src/solve.rs:77-83 | below a minute the text is two digits of seconds, a dot and three digits of milliseconds, reading back as the seconds and milliseconds |
| `PestoSolve.LongClockText` | pesto-core/src/solve.rs:84-92 | from a minute on, the minutes stand before a colon seven characters from the end, followed by the seconds within the minute and the milliseconds |
| `PestoSolve.SecondsTextInjective` | pesto-core/src/solve.rs:77-83 | different times below a minute give different texts |
| `PestoSolve.LongClockTextInjective` | pesto-core/src/solve.rs:84-92 | different times from a minute on give different texts |
| `PestoSolve.ClockTextLength` | pesto-core/src/solve.rs:76-93 | the text is six characters exactly when the time is below a minute |
| `PestoSolve.ClockTextInjective` | pesto-core/src/solve.rs:76-93 | different whole seconds or milliseconds always give different texts |
| `PestoSolve.MillisSplit` | pesto-core/src/solve.rs:81-90 | the milliseconds are the whole seconds times 1000 plus the milliseconds shown |
| `PestoSolve.DurationTextDetermines` | pesto-core/src/solve.rs:76-93 | two durations with the same text have the same number of whole milliseconds |
| `PestoSolve.NewSolve` | pesto-core/src/solve.rs:48-55 | a new solve keeps its time and scramble and has no penalty |
| `PestoSolve.DurationTextEndsInDigit` | pesto-core/src/solve.rs:76-93 | a duration's text is at least six characters and ends in a digit |
| `PestoSolve.ClockTextEndsInDigit` | pesto-core/src/solve.rs:76-93 | the same for the text of whole seconds and milliseconds |
| `PestoSolve.SuffixShowsPenalty` | pesto-core/src/solve.rs:66-70 | after a text ending in a digit, a digit last means no penalty, " (+2)" last means +2 and " (DNF)" last means DNF, each both ways |
| `PestoSolve.SolveTextPenalty` | pesto-core/src/solve.rs:62-74 | the penalty of a solve can be read back off the end of its text |
| `PestoEvents.Session.Name` | pesto-core/src/event.rs:10-15 | the main session is named "main", a custom session by its own name |
| `PestoEvents.Session.Id` | pesto-core/src/event.rs:17-22 | the main session has id 0, a custom session its own id |
| `PestoEvents.MaybeCustomEvent.ScrambleType` | pesto-core/src/event.rs:39-44 | an official event scrambles as itself, a custom event by its own optional scramble type |
| `PestoEvents.MaybeCustomEvent.ShortName` | pesto-core/src/event.rs:46-51 | an official event's short name, or a custom event's name |
| `PestoEvents.MaybeCustomEvent.Id` | pesto-core/src/event.rs:53-58 | an official event's id is its place in ALL, a custom event's its own id |
| `PestoEvents.DefaultEvent` | pesto-core/src/event.rs:61-65 | the default is the official 3x3x3 cube, id 1, scrambled as a 3x3x3 |
| `PestoEvents.EventSessionList.AllEvents` | pesto-core/src/event.rs:73-82 | the list is the 17 official events in ALL order followed by the custom events in order |
| `PestoEvents.EventSessionList.SessionsOf` | pesto-core/src/event.rs:84-86 | the sessions of an event are the ones stored under its id, which the source indexes unchecked |
| `PestoEvents.OfficialEventsAtTheirIds` | pesto-core/src/event.rs:73-82 | every official event stands in the list at its own id |
| `PestoEvents.ListedIdsInOrder` | pesto-core/src/event.rs:73-82 | the first 17 entries of the list have ids 0 to 16 in order |
| `Timer.Since` | pesto-term/src/timer.rs:46 | duration_since is the difference, saturating at zero for a later earlier instant |
| `Timer.PressReportsOnlyStops` | pesto-term/src/timer.rs:32-67 | a press reports a time exactly when the timer was running, that time is how long it ran, a press never leaves it running, and only a stop moves it to Stopped |
| `Timer.ReleaseOnlyStarts` | pesto-term/src/timer.rs:69-84 | a release changes nothing but a pressed timer, which goes to Idle or Running, and it starts the timer at the release instant |
| `Timer.SolveCycle` | pesto-term/src/timer.rs:32-84 | press, a long enough press released, and a second press report the time from release to second press |
| `Timer.ShortPressCancels` | pesto-term/src/timer.rs:69-75 | a press released too early goes back to Idle |
| `Timer.Timer.constructor` | pesto-term/src/timer.rs:14-29 | a new timer is Idle |
| `Timer.Timer.Press` | pesto-term/src/timer.rs:32-67 | Idle becomes Pressed now; Pressed stays; Running stops with its time, which is returned; Stopped is pressed again only after the minimum stop duration |
| `Timer.Timer.Release` | pesto-term/src/timer.rs:69-84 | Pressed goes back to Idle if held less than the minimum press duration and starts running now otherwise; other states are unchanged |
| `Timer.Timer.IsPressed` | pesto-term/src/timer.rs:86-88 | true exactly in the Pressed state |
| `Timer.Timer.IsRunning` | pesto-term/src/timer.rs:90-92 | true exactly in the Running state |
| `Legacy.EdgeDirectionOnAxisAgrees` | src/edge.rs:91-98 | the explicit branch gives a on the axis after the normal and b on the one before, and agrees with the newer branchless direction_on_axis on every axis but the normal, which the source refuses |
| `Legacy.OrientedEdgeFromFaces` | src/edge.rs:70-82 | the edge built from two faces is oriented and sits in the slot of those faces |
| `Legacy.OrientedEdgeFromFacesRoundTrip` | src/edge.rs:39-82 | oriented_from_faces of an oriented edge's own faces gives back the edge |
| `Legacy.CurrentIgnoresOrientation` | src/edge.rs:84-89 | current ignores the orientation bit, and on the solved edges it is the edge of the origin's slot |
| `Legacy.EdgeStickerOnSlot` | src/edge.rs:131-140 | the sticker is one of the slot's faces, the asserted inequality of the two candidate faces always holds, a flipped piece shows the other face, and for a piece in its home slot the first version agrees with the newer sticker |
| `Legacy.CornerFaces` | src/corner.rs:43-49 | a corner's faces are the faces of its x, y and z directions, the same as the newer faces |
| `Legacy.CornerDirectionOnAxis` | src/corner.rs:14-36 | direction_on_axis on X, Y and Z agrees with x, y and z |
| `Legacy.OrientedCornerFromFaces` | src/corner.rs:51-72 | the corner summed from three faces on different axes is oriented, and CornerPosition::from_faces gives the same slot |
| `Legacy.OrientedCornerFromFacesRoundTrip` | src/corner.rs:43-58 | oriented_from_faces of an oriented corner's own faces gives back the corner |
| `Legacy.CornerSticker` | src/corner.rs:79-82 | the sticker is a face of the slot on the axis turned by the corner's twist |
| `Legacy.CornerStickerUntwisted` | src/corner.rs:79-82 | an untwisted corner shows each face of its slot as itself |
| `Legacy.MoveAxis` | src/mov.rs:47-63 | a move's axis is its face's axis |
| `Legacy.AmountTimesDirection` | src/mov.rs:29-38 | an amount times Positive is itself, times Negative is the reversed amount (4 minus it): Single and Reverse swap, Double stays |

## Left out

- Files, the terminal and storage: the lookup-table `generate`/`read` and their files, `Timer::render`, the pesto database and user interface are not part of this model.
- Rendering: `sticker_at`, `write` and the `Display`/`Debug` impls that only draw a net or a debug string (Pyraminx, vertices, pieces) are left out; the cube and Pyraminx move texts and the algorithm, event and solve texts are modelled.
- The clock: `Instant::now` and `Zoned::now` are replaced by instants passed in; `Solve::end_date` and `start_date` are not modelled.
- Randomness: the quickcheck `Arbitrary` impls are left out; the quickcheck properties are stated as lemmas over all inputs instead.
- `PruneTable::generate` for the six concrete tables is left out: the coordinates are methods with loops, which cannot be passed as function values, so the fill (`PruneFill.GenerateBuffer`) is proved for any table given by its index, move and decoding functions.
- Machine integers: every byte and index the modelled code builds stays in range, so `u8`/`usize` wrap-around never happens and is not modelled.
- `src/math.rs` behaves as the newer `Direction`, `Axis` and `Face` code and is modelled once: its `Direction::from_u8` is `Types.FromU8Any`, and its `Axis::other` formula is the one `CubeMath.OtherAxisUnsignedAgrees` compares with the core one. `src/cube.rs` and `src/main.rs` are not part of this model.
- `prune_table.rs` calls `Edge::set_oriented`, which does not exist; the model uses `PruneTable.SetOriented`, which keeps the slot and sets the orientation bit exactly when the edge is not oriented.
- `prune_table.rs` passes an `Axis` to `Corner::set_orientation`, which takes an `Orientation3`; the model passes the orientation with the same number.
- `lut_heuristic.rs` imports `comb`, which does not exist; the model uses `choose` from `norcina-core/src/math.rs`.
- `lut_heuristic.rs:188` builds the corner orientation through `Axis::from_u8_mod3`; the model takes the orientation with the same number.
- The doc comment of `turn_distance` in `norcina-cube-n/src/piece/edge.rs` says four slots lie two turns away; the code and its test give five, and the model follows the code.
- The `Y_SLICE_POSITION` and `NON_Y_SLICE_POSITION` `from_index` in `prune_table.rs` fill slots with repeated pieces, so their results are not cubes; the index reads only the relative order, so the round trips still hold, and the model keeps the code as written.
- The doc comment of the Pyraminx `Edge` says the L and B moves toggle orientation; the code toggles, on a Single turn, each piece that lands in a U-face slot and, on a Reverse turn, each piece that leaves one; the model follows the code.
- The Pyraminx puzzle is built on the corrected centre move (`PyraCenters.Mov`), while `Tips::mov` (norcina-pyraminx/src/piece/tip.rs:21) and `CorePyraminx::mov` (norcina-pyraminx/src/lib.rs:218) call `Centers::mov` as written (norcina-pyraminx/src/piece/center.rs:31). `Pyraminx.MovSingleAsWritten` models `mov_single` as written, and `Pyraminx.AsWrittenNotUndone` shows that the inverse law fails for it. The members below therefore promise what the corrected puzzle does, not what the code as written does:
- Tips.Mov: moves the tips by the corrected centre move; as written, U after B from solved turns the U tip by 2.
- TipsMovThenInverse: proved for the corrected centre move; as written, U then U' after B does not restore the tips.
- TipsMovRotatesOneTip: proved for the corrected centre move; as written, the moved tip's new orientation also depends on the fields above it.
- CoreMov: moves the core's centres by the corrected centre move.
- CoreMovThenInverse: proved for the corrected centre move; as written, U then U' after B leaves the U centre at 2.
- MovSingle: turns tips and core by the corrected centre move; `MovSingleAsWritten` is the move as written.
- MovSingleThenInverse: the commented-out law holds for the corrected puzzle only; `AsWrittenNotUndone` is the counterexample for the code as written.
- Mov: applies the corrected `MovSingle` at each step, so it differs from the code as written after B then U.
- Apply: applies the corrected `MovSingle` in order.
- ApplyThenUndo: proved for the corrected puzzle; as written, undoing [B, U] from solved leaves the U centre at 2.
- The packing comment of the Pyraminx `Centers` reads `BBLLUURR`; the code shifts by twice the vertex number, so U holds the lowest two bits, and the model follows the code.
- The edge `sticker` of `src/edge.rs` reads the faces of the slot it is given rather than of the piece's home slot; the model keeps this, and `Legacy.EdgeStickerOnSlot` shows that it agrees with the newer `sticker` for a piece in its home slot.
- The search drivers (`search_bfs`, `search_idastar`, the `solve_*` functions of `norcina-cube3/src/search/mod.rs` and `kociemba.rs`) call the external pathfinding crate, which is not part of this model; `SearchSolution::alg` only wraps `moves`, which is modelled.

## Findings

| source | as written | input that shows it | evidently intended | confidence | as-written member | corrected member |
|---|---|---|---|---|---|---|
| norcina-cube3/src/search/kociemba/prune_table.rs:174-187 | edge 11 is made oriented exactly when the first eleven edges hold an even number of *oriented* edges | index 0: all eleven edges are oriented (an odd count), so edge 11 is flipped, while the solved cube has index 0 and no flipped edge | edge 11 oriented exactly when the first eleven hold an even number of flipped edges, so every cube built has even flip parity and `index(from_index(i)) == i` holds with the solved cube at 0 | not executed | `PruneTable.AsWrittenIndexZero` | `PruneTable.EdgeOrientationFromIndex` |
| norcina-cube3/src/search/lut_heuristic.rs:199-201 | `HALF_EDGE_PERMUTATIONS = comb(12, 6)` counts the sets of six slots, 924 | the solved edges: their second half gets number 41 619 840, past `HALF_EDGE_STATES` = 59 136 | the number of ordered placements, 12 11 10 9 8 7 = 665 280, times 64 orientations | not executed | `LutHeuristic.SolvedSecondHalfOutOfRange` | `LutHeuristic.HalfIndexBound` |
| norcina-pyraminx/src/piece/edge.rs:30-34 | `solved` shifts the axis left by 2, though `axis` reads bits 1-2 | `solved(Y, Positive)` reads back as a Z edge, and `solved(Z, Positive)` has the orientation bit set | shift the axis by 1, so that `solved(axis, direction)` is `SOLVED[direction + 2 axis]` | not executed | `PyraEdges.SolvedAsWrittenMisplaces` | `PyraEdges.Solved` |
| norcina-pyraminx/src/piece/center.rs:29-41 | the new orientation is computed from the whole byte shifted right, without masking the fields above | `SOLVED.mov(B).mov(U)`: after B the byte is 16, and U computes (16 + 1) % 3 = 2 instead of 1 | add the delta to the vertex's own two-bit field only, modulo 3 | not executed | `PyraCenters.MovAsWrittenLeaks` | `PyraCenters.MovField` |
| norcina-pyraminx/src/lib.rs:32-44 | `mov_single` turns the tips and the core through `Centers::mov` as written, so the commented-out law that a move followed by its inverse is the identity (lib.rs:276-278) fails | `SOLVED.mov([B, U, U'])`: the U tip and the U centre end at 2, while `SOLVED.mov([B])` has them at 0 | the corrected centre move, under which every move followed by its inverse is the identity | not executed | `Pyraminx.AsWrittenNotUndone` | `Pyraminx.MovSingleThenInverse` |
