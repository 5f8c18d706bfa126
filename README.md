# Sweep-line Delaunay triangulation: the combinatorial core

This project models how the sweep-line Delaunay builder maintains its
triangulation. The points are sorted by x. Each new point is joined to the
part of the current convex hull it can see. Every new triangle is then
legalised by edge flips.

The triangulation is stored as a map from an edge key to a `TwoVertices`
apex set. The apex set holds the one or two points that form a triangle with
that edge. The convex hull is a doubly linked front of `ListNode`s, and flips
are driven by an explicit worklist array.

The model covers two versions of the builder:
- the current `DelaunayBuilder` (src/);
- the older single-file `Solver` (main.cpp). Its flips use erase-then-insert
  instead of `Replace`. After building, it walks the hull and reports the
  average degree of the interior points.

Module layout:

- `Outcomes` (outcomes.dfy): the result and status types. An assertion
  failure, a worklist overflow or an exhausted iteration bound stops a run
  and is reported as the reason it stopped.
- `Models` (models.dfy): `Edge`; the value type `Slots` held by a
  `TwoVertices`, with its operations as specification functions; the
  in-place class `TwoVertices`; `ListNode`; and the store `Graph`.
- `Geometry` (geometry.dfy): the geometric predicates as an oracle over
  point indices. Visibility compares the computed cross product against
  `eps` = 1e-9. `CheckDelaunayCondition` short-circuits when outer == inner.
- `Legalize` (legalize.dfy): one step of the flip loop (`FixStep`) and the
  whole worklist loop (`Drain`/`FixRun`) as functions. They are proved to
  preserve the store invariant `GraphInv`: every key is canonical and every
  apex set is non-empty, within range and avoids the key's own endpoints.
  The file also proves the exact effect of the legal branch and the flip
  branch, and the last-in-first-out order of the loop.
- `Sweep` (sweep.dfy): the two hull walks, the splice of the new point into
  the front, the insertion of every point, and `Build`, all as functions,
  with the invariant carried through the whole construction.
- `ConvexHull` (hull.dfy): `BuildConvexHull`, a loop over the store that
  collects the endpoints of the edges with fewer than two apexes.
- `HullFront` (front.dfy): the doubly linked shape of the hull front.
  `FrontOk` in `Sweep` says only that the links of inserted points stay
  among the inserted points. `HullFront` proves more: the hull points, read
  rightwards from the last inserted point, form a cycle linked both ways.
  This holds after every insertion of both builders. Points that have left
  the hull keep their old links and are not on the cycle.
- `Builder` (builder.dfy): the class `DelaunayBuilder`. Its fields are the
  store, the hull front array and the worklist array, all updated in place.
  Each method is proved equal to the matching `Legalize`/`Sweep` function.
- `Legacy` (legacy.dfy): the class `Solver` from main.cpp. It has the
  same construction with erase-then-insert flips, an explicit seed triangle,
  the hull walk, the count of edge ends off the hull, and the final report.

## Model

| member | source | states |
|---|---|---|
| Models.Canonical | src/scanline_triangulation.cpp:104 | The key `Edge{min, max}` has its smaller endpoint first and holds exactly the two given endpoints. |
| Models.CanonicalSymmetric | src/scanline_triangulation.cpp:104 | Both orientations of an edge map to the same key. |
| Models.ReversedKeyDiffers | src/models.hpp:16-18 | Edge equality compares components, so a reversed pair is equal only when both indices coincide. |
| Models.Slots.Size | src/models.hpp:73 | The count is at most 2, is 0 exactly when no member is held, and is 2 exactly when both slots are occupied. |
| Models.Slots.Insert | src/models.hpp:41-45 | An already-held value changes nothing. Otherwise the members gain `v`, the size grows by one and distinctness is kept. Occupied slots keep their values. The precondition is the assertion `Size() < 2`. |
| Models.Slots.Erase | src/models.hpp:46-52 | The members lose `v` and the size drops by one when `v` is held. Nothing changes when `v` is absent. |
| Models.Slots.Replace | src/models.hpp:53-61 | The slot holding `u` gets `v` and the other slot is untouched. When `u` is not held, the result is `Insert(v)`. With distinct members, the members become `Members - {u} + {v}`. |
| Models.Slots.Min | src/models.hpp:66-72 | The result is a member no larger than any member. Requiring a non-empty set is the assertion. |
| Models.Slots.Max | src/models.hpp:62-65 | `std::max` of the two slots is at least every member. It is itself a member when no slot lies below the sentinel. |
| Models.Empty | src/models.hpp:38 | A default-constructed apex set has size 0 and no members. |
| Models.SizeCountsMembers | src/models.hpp:73 | With distinct slots, the size is the number of members. |
| Models.InsertIdempotent | src/models.hpp:41-45 | Inserting the same vertex twice is the same as inserting it once. |
| Models.MinMaxOrdered | src/models.hpp:62-72 | Min is at most Max, and they are equal exactly when one member is held. |
| Models.EraseThenInsertIsReplace | main.cpp:225-232 | When the new apex is not already held, the legacy erase-then-insert succeeds in exactly the cases where `Replace` does, and leaves the same members. |
| Models.TwoVertices.constructor | src/models.hpp:38 | The constructor holds the given slots. |
| Models.TwoVertices.Insert | src/models.hpp:41-45 | The in-place insert leaves the value `Insert(v)` of the old value. |
| Models.TwoVertices.Erase | src/models.hpp:46-52 | The in-place erase leaves `Erase(v)` of the old value. |
| Models.TwoVertices.Replace | src/models.hpp:53-61 | The in-place replace leaves `Replace(u, v)` of the old value, including the fall-through to `Insert`. |
| Models.At | src/scanline_triangulation.cpp:104-105 | `graph_[e]` reads the stored set, or a default-constructed empty set when the key is missing. |
| Legalize.InsertAt | src/scanline_triangulation.cpp:109-112 | `graph_[e].insert(v)` on the store: the entry at `e` gains `v`, or the run stops with `ApexOverflow` when the set is full. A definition; its invariant is `Legalize.InsertAtKeepsInv`. |
| Legalize.SwapAt | src/scanline_triangulation.cpp:117-122 | `graph_[e].replace(u, v)`, or the legacy erase-then-insert of main.cpp:225-232, on the store. A definition; its value is `Legalize.SwapAtValue`. |
| Legalize.LegalStep | src/scanline_triangulation.cpp:106-113 | The legal branch: insert `left` at `{right, outer}`, `right` at `{left, outer}` and `outer` at `{min, max}`, in that order. A definition; its effect is `Legalize.LegalStepEffect`. |
| Legalize.FlipStep | src/scanline_triangulation.cpp:117-124 | The flip branch: four swaps, then the erase of the old diagonal. A definition; its effect is `Legalize.FlipStepEffect`. |
| Legalize.Inner | src/scanline_triangulation.cpp:104-105 | The inner point is `GetMin` of the set at `{min, max}`. An empty set stops the run with `EmptyApex`. A definition; its range is `Legalize.InnerInRange`. |
| Legalize.FixStep | src/scanline_triangulation.cpp:103-128 | One loop body: the legal branch pushes nothing, the flip branch pushes `(left, inner)` then `(inner, right)`. A definition; see `Legalize.FixStepKeepsInv` and `Legalize.FlipPushes`. |
| Legalize.Drain | src/scanline_triangulation.cpp:98-129 | The worklist loop for any loop body: stop with the store when the worklist is empty, otherwise process the top. A definition; see `Legalize.DrainPop`, `Legalize.LastInFirstOut` and `Legalize.DrainKeepsInv`. |
| Legalize.DrainTop | src/scanline_triangulation.cpp:99-101 | Reads the top edge of the worklist and removes it. A definition. |
| Legalize.Process | src/scanline_triangulation.cpp:103-128 | Runs the body on the popped edge and pushes its edges, stopping with `StackOverflow` when they do not fit. A definition. |
| Legalize.Stepper | src/scanline_triangulation.cpp:103-128 | The body of FixTriangulation's loop while `outer` is inserted. A definition. |
| Legalize.FixRun | src/scanline_triangulation.cpp:98-129 | FixTriangulation's loop: `Drain` with `Stepper` and one worklist slot per point. A definition; its invariant is `Legalize.FixRunKeepsInv`. |
| Geometry.CheckDelaunayCondition | src/scanline_triangulation.cpp:140-142 | When outer == inner the quadrilateral is legal whatever the coordinates. A "flip" verdict means the points differ and the geometric test rejected the quadrilateral. |
| Geometry.RightVisible | src/scanline_triangulation.cpp:31 | The rightward walk's loop test: the cross product of the two vectors from `i` is above `-eps`. A definition; its relation to the leftward test is `Geometry.VisibleFromEitherEnd`. |
| Geometry.LeftVisible | src/scanline_triangulation.cpp:47 | The leftward walk's loop test: the cross product is below `eps`. A definition, used by `Sweep.Visible`. |
| Geometry.VisibleFromEitherEnd | src/scanline_triangulation.cpp:31-47 | When the cross product is antisymmetric in its first two points, the leftward test of the edge (next, h) holds exactly when the rightward test of (h, next) does, so both walks accept the same hull edges. |
| Legalize.InsertAtKeepsInv | src/scanline_triangulation.cpp:108-112 | Inserting an in-range apex other than the key's endpoints keeps the store invariant. |
| Legalize.SwapAtKeepsInv | src/scanline_triangulation.cpp:117-122 | Replacing an apex (or the legacy erase-then-insert) keeps the store invariant. |
| Legalize.InnerInRange | src/scanline_triangulation.cpp:103-105 | Under the invariant, the inner point read from the key `{min, max}` is in range and differs from both endpoints. |
| Legalize.LegalStepKeepsInv | src/scanline_triangulation.cpp:106-113 | Registering the triangle (left, right, outer) keeps the invariant. |
| Legalize.FlipStepKeepsInv | src/scanline_triangulation.cpp:117-124 | The four replacements and the erase of the old diagonal keep the invariant. |
| Legalize.FixStepKeepsInv | src/scanline_triangulation.cpp:98-128 | One loop iteration keeps the store invariant. Every pushed edge joins two distinct points inserted before `outer`. |
| Legalize.LegalBranchKeepsInv | src/scanline_triangulation.cpp:106-113 | The legal branch keeps the invariant and pushes nothing. |
| Legalize.FlipBranchKeepsInv | src/scanline_triangulation.cpp:117-128 | The flip branch keeps the invariant and pushes only valid edges. |
| Legalize.WorkInvConcat | src/scanline_triangulation.cpp:98-101 | Popping the top edge and pushing valid edges keeps the worklist valid. |
| Legalize.DrainKeepsInv | src/scanline_triangulation.cpp:96-129 | For any step that keeps the invariants, the whole worklist loop keeps the store invariant. |
| Legalize.FixRunKeepsInv | src/scanline_triangulation.cpp:91-130 | FixTriangulation's loop, started from a valid store and worklist, ends in a valid store. |
| Legalize.LegalStepEffect | src/scanline_triangulation.cpp:106-113 | The legal branch pushes nothing and adds `left` to `{right, outer}`, `right` to `{left, outer}` and `outer` to `{min, max}`. Earlier members stay. Exactly those three keys are added and every other entry is unchanged. |
| Legalize.LegalBranchValue | src/scanline_triangulation.cpp:106-113 | The legal branch's result is the store with the three inserts applied, and none of them trips the assertion. |
| Legalize.FlipKeysDistinct | src/scanline_triangulation.cpp:117-124 | The five keys a flip touches are pairwise distinct and lie below `outer`. |
| Legalize.Swapped | main.cpp:225-232 | In either flip style, the new entry holds `v` and nothing beyond the old members and `v`. When `u` is held, `v` is new and the members are distinct, the members become exactly `Members - {u} + {v}`: `Replace` and erase-then-insert agree. |
| Legalize.SwapAtValue | src/scanline_triangulation.cpp:117-122 | In either flip style, a successful swap at a key writes `Swapped` of the old entry there and leaves every other key alone. |
| Legalize.FlipStepValue | src/scanline_triangulation.cpp:117-124 | In either flip style (`replace` in src/, erase-then-insert in main.cpp:225-238), the flip's result is the four swapped entries with the old diagonal key removed. |
| Legalize.FlipStepEffect | src/scanline_triangulation.cpp:117-124 | In either flip style, after a flip, `{right, outer}` and `{left, outer}` swap their stale apex for `inner`, and `{inner, left}` and `{inner, right}` swap theirs for `outer`. The diagonal `{left, right}` is gone and every other entry is unchanged. |
| Legalize.FlipPushes | src/scanline_triangulation.cpp:117-128 | A flip pushes exactly `(left, inner)` then `(inner, right)`, after the rewritten store. |
| Legalize.DrainFuelMonotone | src/scanline_triangulation.cpp:98 | Once the loop finishes within a bound, any larger bound gives the same result, so the iteration bound does not change outcomes. |
| Legalize.DrainPop | src/scanline_triangulation.cpp:96-129 | A failing step stops the loop with its own failure. A push past the array's length stops it with a stack overflow. |
| Legalize.EmptyWorklistStops | src/scanline_triangulation.cpp:98 | An empty worklist ends the loop with the store unchanged. |
| Legalize.LastInFirstOut | src/scanline_triangulation.cpp:98-101 | The loop processes the last pushed edge first. The pushed edges go on top of the remaining ones. |
| Sweep.WalkEdge | src/scanline_triangulation.cpp:32 | The rightward walk fixes `(hull_pt, next)` and the leftward walk fixes `(next, hull_pt)`. |
| Sweep.Fix | src/scanline_triangulation.cpp:91-97 | FixTriangulation(left, right, outer) starts the worklist with the single edge (left, right). A definition; its invariant is `Sweep.FixerKeepsInv`. |
| Sweep.Fixer | src/scanline_triangulation.cpp:32 | The FixTriangulation call a walk makes while `i` is inserted. A definition. |
| Sweep.Follow | src/scanline_triangulation.cpp:36 | Following front links from an inserted point stays among the inserted points. |
| Sweep.Walk | src/scanline_triangulation.cpp:25-38 | The walk stops at an inserted point whose next hull edge is not visible from `i`. |
| Sweep.WalkKeepsInv | src/scanline_triangulation.cpp:31-38 | When each FixTriangulation keeps the store invariant, a whole walk does too. |
| Sweep.FixerKeepsInv | src/scanline_triangulation.cpp:32 | Each FixTriangulation call made by a walk keeps the store invariant. |
| Sweep.WalkStopsAtFirstHidden | src/scanline_triangulation.cpp:31-38 | The walk's stop is the k-th successor of `i - 1`. Every edge before it is visible, so the stop is the first point with a hidden edge. |
| Sweep.WalkReadsBelow | src/scanline_triangulation.cpp:25-38 | The walk reads only the links of points already inserted. |
| Sweep.AddPoint | src/scanline_triangulation.cpp:22-59 | Inserting point `i` keeps the links of points `0..i` valid and leaves the links of later points untouched. |
| Sweep.AddPointKeepsInv | src/scanline_triangulation.cpp:22-59 | Inserting point `i` keeps the store invariant. |
| Sweep.AddPointSplice | src/scanline_triangulation.cpp:39-58 | The new point's right and left links are the walks' stops, and the stops link back to `i`. The stops' outer links are kept when they differ. No other node changes. |
| Sweep.Insertions | src/scanline_triangulation.cpp:82-84 | Running any link-preserving insertion over points `i..n-1` keeps the front valid over all points. |
| Sweep.InsertOne | src/scanline_triangulation.cpp:83 | One insertion of the loop: its result keeps the front length and makes the links of points `0..i` valid. |
| Sweep.InsertionsUnfold | src/scanline_triangulation.cpp:82-84 | The generic loop inserts `i`, then carries on from `i + 1` or stops with that insertion's failure. |
| Sweep.AddPoints | src/scanline_triangulation.cpp:82-84 | The insertion loop keeps the whole front valid. |
| Sweep.AddPointsStep | src/scanline_triangulation.cpp:82-84 | The loop inserts point `i` and then continues from `i + 1`. A failed insertion stops it. |
| Sweep.InsertOneKeepsInv | src/scanline_triangulation.cpp:83 | One insertion that keeps the invariant at point `i` leaves a store bounded by `i`, and so also by `i + 1`. |
| Sweep.InsertionsKeepInv | src/scanline_triangulation.cpp:82-84 | An insertion that keeps the invariant for each point keeps it over the whole loop: a store bounded by `i` before point `i` ends bounded by the last point. |
| Sweep.AddPointsKeepsInv | src/scanline_triangulation.cpp:82-84 | The insertion loop keeps the store invariant up to the last point. |
| Sweep.Unlinked | src/scanline_triangulation.cpp:66-67 | The resized hull array holds `n` default nodes. |
| Sweep.BuilderConfig | src/scanline_triangulation.cpp:66 | The current builder runs with one worklist slot per point and the `replace` flip. A definition. |
| Sweep.Seed | src/scanline_triangulation.cpp:78-80 | Points 0 and 1 are linked to each other, and the store holds only `{0, 1}` with apex 2. |
| Sweep.Build | src/scanline_triangulation.cpp:61-87 | Fewer than 3 points give an empty store. Otherwise a successful build links all `n` points. |
| Sweep.BuildKeepsInv | src/scanline_triangulation.cpp:61-87 | A finished build satisfies the store invariant over all points. |
| Sweep.TriangleInv | src/scanline_triangulation.cpp:78-84 | The single triangle satisfies the invariant and has exactly the keys `{0,1}`, `{0,2}`, `{1,2}`. |
| Sweep.TriangleEntries | test/test_all.cpp:37-49 | The triangle's three entries each hold one apex: 2, 1 and 0. |
| Sweep.SeedEdgeStep | src/scanline_triangulation.cpp:104-113 | Fixing the seed edge with the third point takes the legal branch and produces the triangle. |
| Sweep.SeedTriangleStep | src/scanline_triangulation.cpp:106-113 | The legal branch on the seed store gives the triangle in either orientation. |
| Sweep.SeedEdgeCloses | src/scanline_triangulation.cpp:91-130 | FixTriangulation on the seed edge with the third point yields exactly the triangle. |
| Sweep.ThreePoints | src/scanline_triangulation.cpp:61-87 | Three non-collinear points build successfully into exactly the triangle. |
| Sweep.SimpleTest | test/test_all.cpp:32-50 | The Simple test holds: the store has 3 keys, and each of `{0,1}`, `{0,2}`, `{1,2}` has Min and Max both equal to 2, 1 and 0 respectively. |
| ConvexHull.BuildConvexHull | src/scanline_triangulation.cpp:166-175 | The result is exactly the set of endpoints of the edges whose apex set is not full. |
| ConvexHull.BoundaryAmongAdd | src/scanline_triangulation.cpp:168-173 | Visiting one more edge adds its endpoints exactly when its apex set is not full. |
| ConvexHull.BoundaryInRange | src/scanline_triangulation.cpp:166-175 | Under the store invariant, every hull point is an inserted point. |
| ConvexHull.TriangleBoundary | src/scanline_triangulation.cpp:166-175 | The hull of the single triangle is {0, 1, 2}. |
| HullFront.RingRight | src/scanline_triangulation.cpp:36 | `j` steps along right links from the `x`-th point of the hull cycle reach the `(x + j)`-th. |
| HullFront.RingLeft | src/scanline_triangulation.cpp:52 | `j` steps along left links from the `x`-th point of the hull cycle reach the `(x - j)`-th. |
| HullFront.NeighbourInRing | src/scanline_triangulation.cpp:36-52 | Both links of a hull point lead to a hull point. |
| HullFront.FollowInRing | src/scanline_triangulation.cpp:36-52 | Any number of steps along the front from a hull point stays on the hull. |
| HullFront.ClosedDistinct | src/scanline_triangulation.cpp:39-58 | Going round the hull cycle meets a point twice only on returning to the start. |
| HullFront.RightStopOnRing | src/scanline_triangulation.cpp:31-38 | The rightward walk from `i - 1` stops before it has gone once round the hull. |
| HullFront.LeftStopOnRing | src/scanline_triangulation.cpp:47-54 | The leftward walk from `i - 1` stops before it has gone once round the hull. |
| HullFront.StepsOnRing | src/scanline_triangulation.cpp:25-54 | A finished walk stops at the `k`-th hull point in its direction, with `k` less than the hull size and every edge passed visible. |
| HullFront.WalksDisjoint | src/scanline_triangulation.cpp:31-54 | Under an antisymmetric cross product the two walks together take fewer steps than the hull has points, so they never meet from opposite sides. |
| HullFront.ArcLink | src/scanline_triangulation.cpp:39-58 | Inside the kept arc of the hull, the links after the splice are the old ones. |
| HullFront.ArcDistinct | src/scanline_triangulation.cpp:39-58 | `i` followed by the kept arc lists distinct points below `i + 1`. |
| HullFront.SpliceArc | src/scanline_triangulation.cpp:55-58 | Splicing `i` between two different stops gives a cycle of `i` and the arc between them. |
| HullFront.SpliceRing | src/scanline_triangulation.cpp:39-58 | Splicing `i` between the stops, equal or not, gives the cycle `[i] + Arc`. |
| HullFront.AddPointKeepsRing | src/scanline_triangulation.cpp:22-59 | After AddPointToTriangulation, the hull front is the cycle of `i` and the hull points from the right stop round to the left stop, linked both ways. |
| HullFront.AddPointKeepsHullRing | src/scanline_triangulation.cpp:22-59 | Inserting `i` keeps the hull front a doubly linked cycle, now through `i`. |
| HullFront.InsertionsKeepRing | src/scanline_triangulation.cpp:82-84 | The generic insertion loop keeps the cycle whenever each insertion does. |
| HullFront.AddPointsKeepHullRing | src/scanline_triangulation.cpp:82-84 | The insertion loop keeps the hull front a doubly linked cycle through the last point. |
| HullFront.SeedRing | src/scanline_triangulation.cpp:78-79 | The seed front is the two-point cycle `1, 0`. |
| HullFront.BuildKeepsHullRing | src/scanline_triangulation.cpp:61-87 | After a finished Build over at least three points, the hull front is a doubly linked cycle through `n - 1`. |
| HullFront.TriangleRing | main.cpp:143-151 | Three distinct points each linked both ways to the next form a cycle. |
| HullFront.LegacySeedRing | main.cpp:143-151 | The legacy seed links form the cycle `2, 0, 1` or `2, 1, 0`, as the orientation test decides. |
| HullFront.ConstructKeepsHullRing | main.cpp:156-173 | After a finished legacy construction, the hull front is a doubly linked cycle through `n - 1`. |
| Builder.DelaunayBuilder.constructor | src/scanline_triangulation.cpp:66-67 | The constructor gives an empty store, an `n`-node hull array of default nodes and an `n`-slot worklist. |
| Builder.DelaunayBuilder.InsertApexAt | src/scanline_triangulation.cpp:108-112 | `graph_[e].Insert(v)` in place. It equals `InsertAt`, and the store is unchanged when the assertion fails. |
| Builder.DelaunayBuilder.ReplaceAt | src/scanline_triangulation.cpp:117-122 | `graph_[e].Replace(u, v)` in place. It equals `SwapAt` with `Replace`. |
| Builder.DelaunayBuilder.Legalise | src/scanline_triangulation.cpp:103-128 | One loop iteration on the store equals `FixStep`. It pushes zero or two edges. |
| Builder.DelaunayBuilder.PushEdges | src/scanline_triangulation.cpp:127-128 | Writing the pushed edges into the worklist array succeeds exactly when they fit. The live prefix then gains them in order. |
| Builder.DelaunayBuilder.PopAndLegalise | src/scanline_triangulation.cpp:98-129 | One pop-process-push round advances the loop function by one iteration, or stops it with the same failure. |
| Builder.DelaunayBuilder.FixTriangulation | src/scanline_triangulation.cpp:91-130 | The worklist loop on the store equals `Fix` on the old store. |
| Builder.DelaunayBuilder.WalkRight | src/scanline_triangulation.cpp:25-38 | The rightward walk on the arrays equals the rightward `Walk`, including the store it leaves. |
| Builder.DelaunayBuilder.WalkLeft | src/scanline_triangulation.cpp:42-54 | The leftward walk equals the leftward `Walk`. |
| Builder.DelaunayBuilder.AddPointToTriangulation | src/scanline_triangulation.cpp:22-59 | The store and front after inserting `i` equal `AddPoint` of the old ones. |
| Builder.DelaunayBuilder.PlantSeed | src/scanline_triangulation.cpp:78-80 | The links and store after the seeding step equal `Sweep.Seed`. |
| Builder.DelaunayBuilder.Build | src/scanline_triangulation.cpp:61-87 | The store and front equal `Sweep.Build`. A finished build satisfies the store invariant. |
| Builder.DelaunayBuilder.Create | src/scanline_triangulation.cpp:15-20 | A new builder is built, its state equals `Sweep.Build`, and on success it satisfies the invariant. |
| Legacy.TwoVertices.constructor | main.cpp:79 | The constructor holds the given slots. |
| Legacy.TwoVertices.Insert | main.cpp:82-86 | The in-place insert equals `Slots.Insert`. |
| Legacy.TwoVertices.Erase | main.cpp:87-93 | The in-place erase equals `Slots.Erase`. |
| Legacy.TwoVertices.GetMax | main.cpp:94-97 | Returns `Slots.Max`, which is at least every member. |
| Legacy.TwoVertices.GetMin | main.cpp:98-104 | Returns `Slots.Min`, a member no larger than any member. |
| Legacy.TwoVertices.Size | main.cpp:105 | Returns the number of occupied slots, at most 2, and 0 exactly when no member is held. |
| Legacy.LegacyConfig | main.cpp:134 | The legacy solver runs with one worklist slot per point and the erase-then-insert flip of main.cpp:225-232. A definition. |
| Legacy.Clockwise | main.cpp:143 | The seed orientation test: the cross product of `p1 - p0` and `p2 - p0` is negative. A definition. |
| Legacy.SeedLinks | main.cpp:143-151 | The seed links form a cycle over 0, 1, 2 in the orientation the cross product picks. Each link is matched by its reverse and the two neighbours differ. |
| Legacy.LegacySeed | main.cpp:143-154 | The seed front is valid over points 0..2. The store holds the three triangle keys and satisfies the invariant. |
| Legacy.Construct | main.cpp:138-173 | Fewer than 3 points leave everything empty. Otherwise a successful construction links all `n` points. |
| Legacy.ConstructKeepsInv | main.cpp:143-173 | A finished legacy construction satisfies the store invariant. |
| Legacy.Circuit | main.cpp:186-189 | Points reached by following right links before returning to 0 are inserted points other than 0. |
| Legacy.HullCycle | main.cpp:183-189 | The hull set contains 0 and only inserted points. |
| Legacy.HullCycleCloses | main.cpp:183-189 | The hull set is what the walk from 0 visits up to the step where the right links first return to 0. |
| Legacy.CircuitCloses | main.cpp:186-189 | The same holds from any starting point of the walk. |
| Legacy.OffEnds | main.cpp:193-198 | An edge contributes 0, 1 or 2 ends off the hull, and 0 exactly when both ends are on it. |
| Legacy.OffHullEnds | main.cpp:191-199 | The number of edge ends off the hull, summed over a key set. A definition; see `Legacy.OffHullEndsRemove`, `Legacy.OffHullEndsBound` and `Legacy.CountOffHull`. |
| Legacy.OffHullEndsRemove | main.cpp:192-199 | The off-hull count of a key set is one key's contribution plus the count of the rest. |
| Legacy.OffHullEndsBound | main.cpp:191 | The count is at most twice the number of edges, so `ans` never goes below zero. |
| Legacy.OffHullEndsAllOnHull | main.cpp:191-199 | When every edge has both ends on the hull, the count is 0. |
| Legacy.CountOffHull | main.cpp:191-199 | `2 * size` minus one per hull end equals the number of edge ends off the hull, and it is at most `2 * size`. |
| Legacy.Tally | main.cpp:201-205 | The report is 0 exactly when every point is on the hull. Otherwise the divisor, the number of interior points, is positive and at most `n`. |
| Legacy.Solution | main.cpp:127-207 | Fewer than three points print 0. |
| Legacy.SeedHull | main.cpp:183-189 | The hull walk round either seed orientation visits exactly 0, 1 and 2. |
| Legacy.ConstructThree | main.cpp:143-173 | With three points the seed is the whole construction. |
| Legacy.ThreePointsNoInterior | main.cpp:183-204 | With three points every point is on the hull, and Solve prints 0. |
| Legacy.Solver.constructor | main.cpp:134 | The constructor gives an empty store, `n` default links and an `n`-slot worklist. |
| Legacy.Solver.InsertApexAt | main.cpp:219-221 | `triangulation[e].insert(v)` in place. It equals `InsertAt`. |
| Legacy.Solver.EraseInsertAt | main.cpp:225-232 | `erase(u)` then `insert(v)` on one entry. It equals `SwapAt` with erase-then-insert. |
| Legacy.Solver.RestructureEdge | main.cpp:217-241 | One iteration of `restructure` equals `FixStep` with the legacy flip style. It pushes zero or two edges. |
| Legacy.Solver.PushEdges | main.cpp:240-241 | The two pushes succeed exactly when they fit in the array. The live prefix then gains them in order. |
| Legacy.Solver.PopAndRestructure | main.cpp:213-242 | One pop-process-push round advances the loop function by one iteration, or stops it with the same failure. |
| Legacy.Solver.Restructure | main.cpp:209-243 | `restructure(left, right, cur)` on the store equals `Fix` with the legacy flip style. |
| Legacy.Solver.WalkRight | main.cpp:157-162 | The rightward loop equals the rightward `Walk`. |
| Legacy.Solver.WalkLeft | main.cpp:163-169 | The leftward loop equals the leftward `Walk`. |
| Legacy.Solver.AddPoint | main.cpp:157-172 | Inserting point `i` equals `Sweep.AddPoint` with the legacy configuration. |
| Legacy.Solver.SeedTriangle | main.cpp:143-154 | The links and store afterwards equal `LegacySeed`. |
| Legacy.Solver.LinkSeed | main.cpp:143-151 | The links of points 0..2 equal `SeedLinks` for the orientation the cross product picks. |
| Legacy.Solver.RegisterSeed | main.cpp:152-154 | The three inserts give exactly the triangle. |
| Legacy.Solver.HullWalk | main.cpp:183-189 | The hull set built in the loop equals `HullCycle`. |
| Legacy.Solver.Triangulate | main.cpp:143-173 | The links and store after the seed and the insertion loop equal `Construct`. |
| Legacy.Solver.Solve | main.cpp:127-207 | The status and report equal `Solution`. |

## Left out

- Coordinates and floating-point arithmetic. The cross product's value is the oracle field `cross`. Only its comparisons with `eps` are modelled.
- The convexity and in-circle tests of `CheckDelaunayCondition` (src/scanline_triangulation.cpp:145-163) and of the legacy `check` (main.cpp:247-268). They are the oracle field `quadLegal`. Only the coordinate-free `outer == inner` short-circuit is concrete.
- Sorting the points by x (src/scanline_triangulation.cpp:69-71, main.cpp:135). The model takes the points as already sorted and names them by index.
- Reading the input and printing. Legacy `Solve` returns a `Report`. The final `ans / (n - hull size)` is kept as the numerator and the divisor, because the double division is floating point.
- `EdgeHash`/`EdgeHasher`: a hash map is modelled as a Dafny `map`, so hashing has no effect on contents.
- Auxilliary.h (timing and drawing helpers): Auxilliary.h is not part of this model.
- Non-termination. The hull walks, the flip loop and the legacy hull walk each carry an iteration bound (`fuel`). Running out reports `OutOfFuel`, which the source has no counterpart for. For the flip loop, `Legalize.DrainFuelMonotone` shows that a larger bound never changes a finished result. The same is not proved for the hull walks, the insertion loop or the legacy hull walk.
- Assertion failures. A failed `assert` in `TwoVertices` (inserting a third apex, or Min of an empty set) and a write past the end of the worklist array are undefined or fatal in the source. The model stops with `ApexOverflow`, `EmptyApex` or `StackOverflow`.
- `graph_[e]` on a missing key inserts a default entry in the source. The model does this only on the paths that then write the key. On an aborting path the extra empty entry is not recorded.
- Builder.DelaunayBuilder.constructor: the arrays are allocated with `n` entries in the constructor, not resized inside `Build`.
- Builder.DelaunayBuilder.Create: returns the builder object itself. `std::unique_ptr` and the moves are not modelled.
- Method names: scanline_triangulation.cpp calls `.insert`, `.replace` and `.GetMin`, while src/models.hpp declares `Insert`, `Replace` and `Min`. The model treats them as the same members.
- Legacy.Solution: states only the n < 3 case in its own contract. The three-point case is `Legacy.ThreePointsNoInterior`, and `Legacy.Solver.Solve` is tied to it in full.
- HullFront.AddPointKeepsRing and the lemmas built on it: they take as a premise that the cross product is antisymmetric in its first two points (`HullFront.Antisymmetric`). The source's `CrossProduct(a - c, b - c)` (src/models.hpp:33, main.cpp:55) has this property exactly under IEEE-754 double evaluation without fused multiply-add contraction or extended-precision intermediates. With contraction (a compiler may fuse `lhs.x * rhs.y - lhs.y * rhs.x` into one fused multiply-add) the two values can differ in the last place, so the premise is an assumption about the build. The oracle does not state it, because the coordinates are not modelled.
- The hull cycle does not settle whether point 0 stays on the hull. So it does not show that the legacy hull walk from 0 (main.cpp:183-189) returns to 0; that walk keeps its iteration bound.
- The declarations in src/*.hpp, src/models.cpp and src/main.cpp (a driver) are not modelled beyond the constants and types used above.
