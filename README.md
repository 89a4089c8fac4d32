# Sweep-and-prune physics step, in Dafny

This project models the simulation core of a small 2-D rigid-body demo
written in C++ with Qt. That core is the `Physics` class and the
`RigidObject` class.

- **Bodies (`RigidObject`).** A body is a rectangle built from a width and a
  height. It has a position and a linear velocity that are updated in place,
  a mass of 1, and two flags: `pinned` and `collides`.
- **Narrow phase.** `collidesWith` is a bounding-circle test (`collidesQuick`)
  followed by an exact test (`collidesExact`). The exact test is a
  placeholder that always accepts.
- **Broad phase (sweep and prune along X).** `Physics` keeps one persistent
  list of bounding points: a Begin and an End for each body. Each frame:
  - the list is insertion-sorted on the bodies' current bounding boxes;
  - one scan with a counter of open intervals cuts the list into candidate
    groups.
- **Frame step (`renderFrame`).** The frame runs these passes in order:
  - it clears every collision flag;
  - it runs the broad phase;
  - it tests every pair inside each group and flags both bodies of a pair
    that collides;
  - it integrates every unpinned body under gravity with semi-implicit Euler.

The Dafny modules follow the program's structure:

- **`Geometry`:** integer points and rectangles, as `QPoint` and `QRect` hold
  them, real vectors, and the polygon bounding rectangle.
- **`RigidObjects`:** the body.
  - `Body` is a value snapshot of one body's state.
  - `RigidObject` is a class whose setters change its fields in place.
  - The collision test is a pure function on two snapshots.
- **`Sweep`:** the broad phase.
  - The insertion sort works in place on an `array` and is proved to sort,
    to permute and to be stable.
  - The prune scan is a loop over the sorted list. It is proved to yield
    disjoint groups of two or more bodies. Two bodies share a group exactly
    when the open-interval counter stays above zero between their Ends.
- **`PhysicsEngine`:** the class `Physics`.
  - It holds the bodies and the persistent point array.
  - Its methods are proved to perform `FrameStep`: a function on the bodies'
    states that says what one frame does.
  - Lemmas about `FrameStep` state what a frame guarantees. The flag is set
    exactly when the body collides with another member of one of its groups.
    Pinned bodies stay put. Unpinned bodies fall under gravity.

Pointers in the source are modelled as indices into the body sequence. A
`CollisionGroup` (an `unordered_set` of body pointers) becomes a `set<nat>`.

One property a reader might expect of a broad phase does not hold for this
code: "two bodies whose boxes do not overlap are never grouped". The scan
puts in one group every body whose interval lies in one run where the
counter stays positive. Chained or nested intervals therefore share a group
even when two of them do not overlap. The model follows the code.
`Sweep.SameGroup` gives the exact characterisation. `OverlapImpliesSameGroup`
proves completeness. `SeparatedNotSameGroup` proves that bodies separated by
a line that no box crosses are never grouped.

## Model

| member | source | states |
|---|---|---|
| Geometry.HalfTowardZero | RigidObject.cpp:8-9 | C++ `int / 2`: the quotient truncates toward zero, so the remainder is 0 or 1 for non-negative and 0 or -1 for negative dividends |
| Geometry.Round | Physics.cpp:14 | rounding a position coordinate gives an integer within one half of it |
| Geometry.BoundingRect | Physics.cpp:13 | a polygon with vertices has a bounding rectangle with left ≤ right and top ≤ bottom; a polygon without vertices gives the empty rectangle, whose right is left - 1 |
| Geometry.BoundingRectContains | Physics.cpp:13 | every vertex lies inside the bounding rectangle |
| Geometry.BoundingRectTight | Physics.cpp:13 | each of the four edges of the bounding rectangle is touched by some vertex, so no smaller rectangle holds them |
| RigidObjects.RectangleVertices | RigidObject.cpp:7-10 | the (width, height) rectangle has the four vertices (±w/2, ±h/2) with truncating halves, and its bounding box is centred on the body's origin |
| RigidObjects.RectangleRadius | RigidObject.cpp:79-88 | the squared bounding-circle radius of that rectangle is (w/2)² + (h/2)² |
| RigidObjects.BoundingRadiusSquared | RigidObject.cpp:84-88 | the squared radius is never negative |
| RigidObjects.Box | Physics.cpp:13-14 | the box of a body with vertices is ordered (left ≤ right, top ≤ bottom); a body without vertices has an empty box |
| RigidObjects.BoxContainsVertices | Physics.cpp:13-14 | every vertex, moved to the body's rounded position, lies in the body's box |
| RigidObjects.CollidesQuick | RigidObject.cpp:79-97 | the quick test accepts every pair whose squared distance is below the sum of the squared radii, and rejects every pair whose squared distance is at least twice that sum |
| RigidObjects.QuickTestBounds | RigidObject.cpp:89-96 | the comparison with ra + rb + 2√(ra·rb) lies between the comparisons with ra + rb and with 2 (ra + rb) |
| RigidObjects.CollidesExact | RigidObject.cpp:99-101 | the exact test accepts every pair |
| RigidObjects.CollidesWith | RigidObject.cpp:75-77 | collidesWith holds exactly when the quick test holds |
| RigidObjects.RootFormArithmetic | RigidObject.cpp:89-96 | for every non-negative square root s of ra·rb, the square-root-free comparison equals d < ra + rb + 2s |
| RigidObjects.QuickMatchesRootForm | RigidObject.cpp:79-97 | for every non-negative root s of the product of the squared radii, the quick test equals the comparison of the squared distance with r1² + r2² + 2s |
| RigidObjects.QuickMatchesRadiiForm | RigidObject.cpp:79-97 | with radii r1, r2 ≥ 0, the quick test says that the squared distance is below (r1 + r2)², so the bounding circles overlap |
| RigidObjects.CollidesWithSymmetric | RigidObject.cpp:75-97 | collidesWith gives the same answer for both orders of the pair |
| RigidObjects.CoincidentBodiesCollide | RigidObject.cpp:93-96 | two bodies at the same position collide exactly when their radii are not both zero |
| RigidObjects.CoincidentBodiesCollideBothWays | RigidObject.cpp:93-96 | two coincident bodies with some radius collide in both orders |
| RigidObjects.RigidObject.constructor | RigidObject.cpp:7-18 | a new body holds the rectangle's vertices, is at rest at the origin with mass 1, and is neither pinned nor colliding |
| RigidObjects.RigidObject.Move | RigidObject.cpp:28-30 | the delta is added to the position; nothing else changes |
| RigidObjects.RigidObject.SetPosition | RigidObject.cpp:32-34 | the position is replaced; nothing else changes |
| RigidObjects.RigidObject.LinearAccelerate | RigidObject.cpp:40-42 | the delta is added to the velocity; nothing else changes |
| RigidObjects.RigidObject.SetLinearVelocity | RigidObject.cpp:44-46 | the velocity is replaced; nothing else changes |
| RigidObjects.RigidObject.SetPinned | RigidObject.cpp:56-61 | the flag reads back as set; pinning zeroes the velocity; unpinning keeps it; nothing else changes |
| RigidObjects.RigidObject.SetCollides | RigidObject.cpp:67-69 | the flag reads back as set; nothing else changes |
| Sweep.Coordinate | Physics.cpp:10-21 | a point's coordinate is an edge of its body's box along the axis: within [left, right] on X and within [top, bottom] on Y |
| Sweep.InitialPoints | Physics.cpp:46-51 | the initial list has two points per body |
| Sweep.InitialPointsLayout | Physics.cpp:47-50 | body x's Begin is at position 2x and its End at 2x + 1 |
| Sweep.InitialPointsByBody | Physics.cpp:47-50 | any list laid out that way, body by body, is the initial list |
| Sweep.InitialPointsWellFormed | Physics.cpp:46-51 | the initial list holds each body's Begin and End exactly once, with Begin first |
| Sweep.OpenCountIsOpenSetSize | Physics.cpp:78-83 | in a well-formed list with Begin before End, the counter `groupObjects` equals the number of open boxes |
| Sweep.CounterBalanced | Physics.cpp:69-83 | with every Begin before its End, the counter never goes negative and ends at zero |
| Sweep.OpenInsideInterval | Physics.cpp:78-83 | between a body's Begin and its End the counter is at least one |
| Sweep.SwapAdjacent | Physics.cpp:62 | std::swap exchanges the point at j with the one at j - 1 |
| Sweep.SwapKeepsRearranged | Physics.cpp:62 | an adjacent swap keeps the list a rearrangement of the original |
| Sweep.SinkPoint | Physics.cpp:57-64 | the inner loop moves point i down past every neighbour with a larger coordinate, leaving the first i + 1 points sorted and stable |
| Sweep.SortBoundingPoints | Physics.cpp:53-66 | the array ends sorted by coordinate and is a permutation of its old contents; points with equal coordinates keep their old order |
| Sweep.RearrangedSamePoints | Physics.cpp:53-66 | a rearranged list holds exactly the same points |
| Sweep.SortKeepsWellFormed | Physics.cpp:53-66 | sorting keeps each body's two points, once each |
| Sweep.StableSortKeepsBeginBeforeEnd | Physics.cpp:61-62 | on X, the stable sort never moves a body's End in front of its Begin |
| Sweep.WellFormedDistinctEnds | Physics.cpp:80-82 | in a well-formed list no body has two Ends, so each body is inserted at most once |
| Sweep.PruneBoundingPoints | Physics.cpp:68-97 | for a balanced list with distinct Ends, the groups are disjoint and hold two or more bodies each, hold only bodies of the list, and put two bodies together exactly when the counter stays above zero between their Ends |
| Sweep.PairsMatchSameGroup | Physics.cpp:72-91 | groups that match the counter pair by pair are exactly the classes of that relation |
| Sweep.OverlapImpliesSameGroup | Physics.cpp:72-91 | in a list sorted on X, two bodies whose X extents overlap strictly share a group |
| Sweep.SameGroupTransitive | Physics.cpp:80-89 | sharing a group is transitive |
| Sweep.SeparatedNotSameGroup | Physics.cpp:85-91 | if no box crosses a vertical line, a body ending left of it and one beginning at or right of it never share a group |
| PhysicsEngine.GravityForce | Physics.cpp:146-149 | a body's weight points straight down, and is strictly downward for a positive mass |
| PhysicsEngine.Acceleration | Physics.cpp:133 | weight over mass is g = (0, -9.8) |
| PhysicsEngine.Integrate | Physics.cpp:131-141 | a pinned body is unchanged; an unpinned body gains g·dt in velocity, then moves by its new velocity times dt; shape, mass and flags stay |
| PhysicsEngine.FreeFallFromRest | Physics.cpp:131-141 | from rest, one frame gives velocity (0, -9.8·dt) and a drop of 9.8·dt² |
| PhysicsEngine.CollidesWithIgnoresFlags | RigidObject.cpp:75-97 | collidesWith does not depend on the collision flags of the two bodies |
| PhysicsEngine.FrameStep | Physics.cpp:117-144 | a frame keeps the number of bodies, their shapes and their masses |
| PhysicsEngine.FrameIsThreePasses | Physics.cpp:117-141 | clearing the flags, detecting in every group, and integrating make up FrameStep |
| PhysicsEngine.FrameFlag | Physics.cpp:120-129 | after a frame, a body's flag is set exactly when it collides with another member of one of its groups |
| PhysicsEngine.FrameForgetsFlags | Physics.cpp:120-122 | flags are not sticky: two worlds that differ only in flags give the same frame |
| PhysicsEngine.FrameFlagNeedsPartner | Physics.cpp:107-112 | a flagged body has a partner in a shared group that it collides with |
| PhysicsEngine.FrameCoincidentPair | Physics.cpp:127-129 | two members of a group at the same position, with some radius, are both flagged |
| PhysicsEngine.FramePinned | Physics.cpp:131-132 | a pinned body keeps its position and velocity through a frame |
| PhysicsEngine.FrameUnpinned | Physics.cpp:132-140 | an unpinned body's velocity gains g·dt, and its position then moves by the new velocity times dt |
| PhysicsEngine.BoxesOrderedOnX | Physics.cpp:16-19 | on X no body's Begin coordinate lies right of its End |
| PhysicsEngine.YEndNotAfterBegin | Physics.cpp:17-19 | on Y a body's End (top) is never after its Begin (bottom), and is strictly before it for a box taller than one row |
| PhysicsEngine.BoxesIgnoreFlags | Physics.cpp:10-21 | boxes depend only on shapes and positions |
| PhysicsEngine.SortKeepsOrder | Physics.cpp:53-66 | sorting keeps the list well formed, and on X keeps Begin before End |
| PhysicsEngine.PruneFacts | Physics.cpp:68-97 | after the sort on X the prune's conditions hold, so the groups are disjoint, hold two or more bodies each, and pair every two bodies whose X extents overlap |
| PhysicsEngine.SeparatedNotTogether | Physics.cpp:68-97 | with groups that follow the counter of a list sorted on X, two bodies on either side of a vertical line that no box crosses are never in one group, so the frame never tests them against each other |
| PhysicsEngine.DetectedNothing | Physics.cpp:127-129 | detecting no groups changes nothing |
| PhysicsEngine.DetectedAppend | Physics.cpp:127-129 | detecting group by group equals detecting all the groups at once |
| PhysicsEngine.DetectedIdempotent | Physics.cpp:99-115 | detecting the same groups twice changes nothing the second time |
| PhysicsEngine.DetectedPair | Physics.cpp:108-111 | two colliding members of a group are both flagged |
| PhysicsEngine.PassesKeepShapes | Physics.cpp:120-129 | clearing and detecting change only the flags, and clearing leaves every flag false |
| PhysicsEngine.Enumerate | Physics.cpp:100-103 | the set's iteration order visits every member of the group exactly once |
| PhysicsEngine.TestedNone | Physics.cpp:100-103 | before the first pair nothing is flagged |
| PhysicsEngine.RowStart | Physics.cpp:104-105 | the second iterator starts just past the first, so no pair is skipped or repeated |
| PhysicsEngine.RowEnd | Physics.cpp:103-107 | finishing one row of pairs leaves the loops where the next row starts |
| PhysicsEngine.PairTested | Physics.cpp:108-112 | testing the pair at (i, j) flags both bodies exactly when they collide |
| PhysicsEngine.PairStep | Physics.cpp:108-112 | the test on the partly flagged states agrees with the test on the starting states |
| PhysicsEngine.AllTested | Physics.cpp:99-115 | after all pairs, every body is flagged exactly when it collides with another member of the group |
| PhysicsEngine.Physics.constructor | Physics.cpp:31-35 | the physics starts with the given bodies and an empty list of bounding points |
| PhysicsEngine.Physics.SweepBoundingPoints | Physics.cpp:46-51 | the list gains a Begin and an End for each body, in body order, after its old contents |
| PhysicsEngine.Physics.SweepIfEmpty | Physics.cpp:38-40 | an empty list is built from the bodies, and a non-empty one is kept |
| PhysicsEngine.Physics.SortBoundingPoints | Physics.cpp:53-66 | the list is sorted on the current boxes, permuted and stable; on X it stays well formed |
| PhysicsEngine.Physics.SweepAndPrune | Physics.cpp:37-44 | the list ends well formed, Begin before End and sorted on X; the groups are disjoint, hold two or more bodies each, follow the open-interval counter exactly, and hold together every two bodies whose X extents overlap; the bodies are unchanged |
| PhysicsEngine.Physics.ClearCollisionFlags | Physics.cpp:120-122 | every flag is cleared and nothing else changes |
| PhysicsEngine.Physics.DetectCollisions | Physics.cpp:99-115 | a body's flag becomes set when it collides with another group member, set flags stay set, and nothing else changes |
| PhysicsEngine.Physics.TestAllPairs | Physics.cpp:103-114 | the outer loop tests every pair of positions (i, j) with i < j |
| PhysicsEngine.Physics.TestAgainstLater | Physics.cpp:104-113 | the inner loop tests member i against every later member |
| PhysicsEngine.Physics.TestPair | Physics.cpp:108-112 | both bodies of the pair are flagged when they collide |
| PhysicsEngine.Physics.FlagBody | Physics.cpp:110-111 | setCollides(true) sets one body's flag and changes nothing else |
| PhysicsEngine.Physics.DetectGroups | Physics.cpp:127-129 | detection on each group in turn gives the flags of all the groups together |
| PhysicsEngine.Physics.IntegrateBody | Physics.cpp:132-140 | one body is integrated and the others are unchanged |
| PhysicsEngine.Physics.IntegrateBodies | Physics.cpp:131-141 | every body is integrated over the frame time |
| PhysicsEngine.Physics.RenderFrame | Physics.cpp:117-144 | the bodies end as FrameStep says for the frame's groups; the point list stays well formed, with each Begin before its End, and is sorted on X by the boxes the frame started with; the groups are disjoint, hold two or more bodies each, put two bodies together exactly when the open-interval counter of that list stays above zero between their Ends, and hold together every two bodies whose X extents overlap |

## Left out

- The mutex taken by `renderFrame` and the `frameReady` signal are not modelled. A frame is one sequential step.
- Float arithmetic is idealised as real arithmetic. `QVector2D`, `float` and `sqrtf` rounding are not modelled.
- RigidObjects.CollidesQuick: written without the square root. `QuickMatchesRootForm` proves it equal to the source's comparison for every non-negative root.
- Geometry.Round: `QVector2D::toPoint` rounding is taken as floor(x + 0.5). Rounding of negative halves in the Qt version is not modelled.
- The default `RigidObject()` constructor is not modelled. Every body in the model comes from the (width, height) constructor.
- The random colour chosen in the constructor is not modelled. It has no role in the simulation.
- `getMass` is not a separate member. The mass is a constant field fixed at 1 by the constructor, since no member changes it.
- The getters (`getVertices`, `getPosition`, `getLinearVelocity`, `isPinned`, `isCollides`) are read as fields.
- PhysicsEngine.Physics.SweepAndPrune: takes no axis and always sweeps along X, as `renderFrame` does.
  - The sort keeps its axis parameter.
  - On Y the Begin is the bottom and the End the top (see `YEndNotAfterBegin`), so no prune result is claimed for Y.
- Sweep.PruneBoundingPoints: its guarantees hold only for a list whose counter stays balanced and in which no body has two Ends. It accepts any list, as the source does.
- Sweep.PruneBoundingPoints: takes the sorted points as a sequence and returns a fresh group list. `renderFrame` always passes an empty vector for the groups.
- Sweep.SortBoundingPoints: the boxes are computed once per call, on the bodies as they stand. The source recomputes them on every comparison, and the bodies do not change during the sort.
- Sweep.PruneBoundingPoints: two boxes that only touch (one's right edge equals the other's left edge) do not overlap in the strict sense of `OverlapOnX`, so no grouping is promised for them. The sort moves a point only past a strictly larger coordinate, so tied points keep the order of the previous frame, and whether touching boxes share a group depends on that history.
- PhysicsEngine.Enumerate: the hash order of `unordered_set` is not modelled. The enumeration is any order that visits each member once, and every result holds for all such orders.
- PhysicsEngine.Physics.RenderFrame: returns the frame's groups only as a ghost value, for its contract. The source discards them.
- The drawing, the input handling, the window and thread set-up, and the random placement of bodies in `MainWindow` and `Canvas` are not part of this model.
