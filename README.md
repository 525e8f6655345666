# Destructible voxel city: a verified model of the core

CPPMINE is a small voxel sandbox. Its world is a flat list of unit blocks, with streets,
sidewalks, buildings and antennas, and every block can be shot apart. This project models
the three parts of the program that hold its logic, plus the value types and world
operations around them:

- **The occupancy grid.** This is a dense `int[256][128][256]` array of block indices that
  covers world cells x, z in [-64, 192) and y in [0, 128). It comes with the rebuild from the
  block list, face culling for the cube mesher, the player collision scan and single-cell
  removal (module `Grid`).
- **The debris physics step** (module `Physics`). It covers:
  - gravity with a terminal speed;
  - ground contact with bounce or stop;
  - resolution against the first overlapping neighbour block, found through the grid;
  - ground friction;
  - the angular clamp and the sleep rule;
  - lifetime retirement;
  - the compaction of the fragment list.
- **The fracture engine.** It clips a polygon and a convex shape by a plane, including the
  face/cut-flag bookkeeping and the cap polygon. It also covers the centre and volume
  estimates (module `Clipping`), the mesh emitters that decorate shards with cracks and
  rough cut surfaces, the dust and chip particles, and the Voronoi-style shattering of one
  block into shards (module `Fracture`).
- **The support code.** This is the `Vec3` algebra, `clampf`, the identity matrix and the
  records (module `Types`). `Mesh` holds the cube tables and the quad, triangle and fan
  emitters that several source files write out again. `City` holds `genCube` and the
  street and building block lists. `World` holds the global state as one object, with
  `addBlock`, the generators, the grid rebuild, the target search and the destroy sequence.

Modelling choices:

- Floating-point numbers are `real`.
- The square root is a function parameter `sqrt`. Properties that need it assume `IsSqrt(sqrt)`.
- Speed thresholds are compared on squared lengths.
- The generator `rng` is the class `Types.Rng`. It holds an arbitrary fixed stream of draws in
  [0, 1) and counts the draws it has used. A uniform distribution maps one draw into its range.
  The model consumes draws in the source's order, and several contracts state how many draws
  an operation takes.
- The angular sort of the cap polygon is a parameter `order`, which must be a permutation.
- Air drag is a parameter `drag`.
- The ray/box slab test of `findTarget` is a parameter `ray`.
- The global `blockGrid`, null until first allocated, is a nullable `BlockGrid?`.
- Vertex indices are unbounded naturals.

Two behaviours of the code are modelled exactly as written:

- **Rounding.** Positions round to cells by `floor(p + 0.5)`: halves round up, for negative
  coordinates too (ALLOPTIMIZER.cpp:40-42).
- **Order of the fragment list.** The compaction is `erase(remove_if(...))`, which keeps the
  surviving fragments in their original order. The model states that order
  (BLOCK_PHYSICS.cpp:168-171).

## Model

| member | source | states |
|---|---|---|
| Types.Normalized | TYPES.cpp:14 | the zero vector when the length is at most 1e-8; otherwise, for a true square root, a vector of unit length |
| Types.AddThenSubCancels | TYPES.cpp:5-6 | adding then subtracting the same vector gives back the original |
| Types.ScaleByOne | TYPES.cpp:7 | scaling by 1 is the identity |
| Types.DotSymmetric | TYPES.cpp:16 | the dot product is symmetric |
| Types.LengthSqIsSelfDot | TYPES.cpp:13-16 | lengthSq(v) equals dot(v, v) and is never negative |
| Types.CrossIsOrthogonal | TYPES.cpp:15-16 | cross(a, b) is orthogonal to both a and b |
| Types.CrossAntiCommutes | TYPES.cpp:8-15 | cross(a, b) is the negation of cross(b, a) |
| Types.NegCancels | TYPES.cpp:5-8 | a + (-a) is the zero vector, and -a equals 0 - a |
| Types.ScaleScalesLengthSq | TYPES.cpp:7-13 | scaling by s multiplies lengthSq by s * s |
| Types.LengthIsRoot | TYPES.cpp:12-13 | for a true square root, length is non-negative and its square is lengthSq |
| Types.Vec3.Add | TYPES.cpp:5 | `operator+`, with no contract of its own: Types.AddThenSubCancels states that subtracting the same vector undoes it and Types.NegCancels that adding the negation gives zero |
| Types.Vec3.Sub | TYPES.cpp:6 | `operator-`, with no contract of its own: Types.AddThenSubCancels states that it undoes an addition |
| Types.Vec3.Scale | TYPES.cpp:7 | `operator*`, with no contract of its own: Types.ScaleByOne states that 1 is neutral and Types.ScaleScalesLengthSq how lengthSq scales |
| Types.Vec3.Neg | TYPES.cpp:8 | unary `operator-`, with no contract of its own: Types.NegCancels states that it is the additive inverse |
| Types.Dot | TYPES.cpp:16 | `dot`, with no contract of its own: Types.DotSymmetric states its symmetry and Types.LengthSqIsSelfDot its value on equal arguments |
| Types.Cross | TYPES.cpp:15 | `cross`, with no contract of its own: Types.CrossIsOrthogonal and Types.CrossAntiCommutes state its orthogonality and anti-commutativity |
| Types.LengthSq | TYPES.cpp:13 | `lengthSq`, with no contract of its own: Types.LengthSqIsSelfDot states that it is dot(v, v) and never negative |
| Types.Length | TYPES.cpp:12 | `length` over the `sqrt` parameter, with no contract of its own: Types.LengthIsRoot states that it is the non-negative root of lengthSq |
| Types.Clamp | TYPES.cpp:62 | clampf lies in [lo, hi] when lo <= hi, is v for v in range, and is lo below it |
| Types.ClampIsIdempotent | TYPES.cpp:62 | clamping twice equals clamping once |
| Types.Identity | TYPES.cpp:21 | 16 entries: 1 at indices 0, 5, 10 and 15, 0 elsewhere |
| Types.Rng.constructor | TYPES.cpp:70 | the generator starts at the first draw of its stream |
| Types.Rng.Real | BLOCK_FRACTURE.cpp:12-14 | a uniform real draw is lo + (hi − lo)·u, where u is the next value of the stream; it lies in [lo, hi] and uses exactly one draw |
| Types.Rng.Int | BLOCK_FRACTURE.cpp:496-497 | a uniform integer draw is lo + ⌊(hi − lo + 1)·u⌋, where u is the next value of the stream; it lies in [lo, hi] and uses exactly one draw |
| Mesh.CornersWithin | ALLOPTIMIZER.cpp:70-76 | all eight cube corners lie on the cube of half-size h about the centre |
| Mesh.Shade | ALLOPTIMIZER.cpp:86-90 | the face shade lies in [0.4, 1]; it is 1 exactly for an upward normal |
| Mesh.PushQuad | ALLOPTIMIZER.cpp:92-95 | appends exactly the four given vertices and the indices (b, b+1, b+2, b, b+2, b+3), where b is the old vertex count |
| Mesh.QuadIndicesAt | ALLOPTIMIZER.cpp:92-95 | in a run of q quads from base, the six indices of quad t, at 6t..6t+5, are (b, b+1, b+2, b, b+2, b+3) for b = base + 4t |
| Mesh.QuadIndicesAppend | ALLOPTIMIZER.cpp:92-95 | a run of p quads followed by a run of q quads starting 4p vertices later is the run of p + q quads |
| Mesh.QuadIndicesWithin | ALLOPTIMIZER.cpp:92-95 | every index of a run of q quads from base lies in [base, base + 4q) |
| Mesh.PushTriangle | BLOCK_FRACTURE.cpp:273-277 | appends three vertices and the one triangle over them |
| Mesh.AppendFace | ALLOPTIMIZER.cpp:91-95 | appends face f of a cube as four vertices with the table's corners, the face normal and one colour, and the indices (b, b+1, b+2, b, b+2, b+3) over them, where b is the old vertex count |
| Mesh.AppendShadedFace | ALLOPTIMIZER.cpp:85-95 | one more shaded quad after the listed ones: four vertices with face f's corners, normal and colour times its shade, and the indices extended by that quad's (b, b+1, b+2, b, b+2, b+3) |
| Mesh.CubeMesh | BLOCK_FRACTURE.cpp:404-420 | 24 vertices and 36 indices; face f at vertices 4f..4f+3 with the table's corners and its outward normal; the indices are exactly (4f, 4f+1, 4f+2, 4f, 4f+2, 4f+3) for f = 0..5 |
| Mesh.ClampColor | BLOCK_FRACTURE.cpp:398-402 | every channel clamped into [0, 1]; an already valid colour is unchanged |
| Mesh.FanIndices | BLOCK_FRACTURE.cpp:324-328 | 3(n-2) indices for an n-gon with n >= 3 (none otherwise), all in [base, base+n) |
| Mesh.FanTriangles | BLOCK_FRACTURE.cpp:324-328 | triangle t of the fan is (base, base+t+1, base+t+2) |
| Mesh.AppendFan | BLOCK_FRACTURE.cpp:322-328 | appends the face's points translated by -center with one normal and colour, followed by their fan indices |
| Grid.Round | ALLOPTIMIZER.cpp:40-42 | floor(p + 0.5) is the integer within (p - 0.5, p + 0.5] |
| Grid.SlotOf | ALLOPTIMIZER.cpp:11-22 | the offset-and-bounds mapping of set/get is defined exactly on the covered region, lands inside the array, and inverts the element-to-cell map |
| Grid.SlotOfVoxelAt | ALLOPTIMIZER.cpp:17-22 | every array element stands for a covered cell that maps back to it |
| Grid.RemovalSlot | ALLOPTIMIZER.cpp:130-137 | the bounds check written again in removeBlockFromGrid agrees with the one of set/get |
| Grid.GroundLayerOutside | MAIN.cpp:179 | the ground layer at y = -1 lies outside the grid |
| Grid.BlockGrid.constructor | ALLOPTIMIZER.cpp:32 | a fresh array of the grid's dimensions, every element 0 |
| Grid.BlockGrid.Clear | ALLOPTIMIZER.cpp:9 | afterwards every element is -1 and get reads -1 at every coordinate |
| Grid.BlockGrid.Get | ALLOPTIMIZER.cpp:17-22 | the element of a covered cell; -1 outside the covered region, with no access outside the array |
| Grid.BlockGrid.Set | ALLOPTIMIZER.cpp:11-15 | only the cell's own element changes, and nothing changes for an uncovered cell; get at that cell then returns idx |
| Grid.BlockGrid.Occupied | ALLOPTIMIZER.cpp:24-26 | occupied exactly when get >= 0, which happens only inside the covered region |
| Grid.BlockGrid.Rebuild | ALLOPTIMIZER.cpp:35-45 | afterwards every covered cell holds the last active block rounding to it, or -1 |
| Grid.LastAt | ALLOPTIMIZER.cpp:38-44 | the last active block among the first n that rounds to the cell, or -1; no later active block rounds there |
| Grid.ConsistentGet | ALLOPTIMIZER.cpp:35-45 | after a rebuild get returns -1 or an active block rounding to that cell, with no later such block; all elements index the list |
| Grid.RebuildFindsBlock | ALLOPTIMIZER.cpp:35-45 | an active covered block that no later active block shares a cell with is what get returns at its cell |
| Grid.RebuildIsIdempotent | ALLOPTIMIZER.cpp:35-45 | two rebuilds from the same block list give identical arrays |
| Grid.GridOccupied | ALLOPTIMIZER.cpp:47-50 | false without a grid, otherwise occupied |
| Grid.FaceVisible | ALLOPTIMIZER.cpp:52-65 | any face number outside 0..5 counts as visible |
| Grid.FaceVisibleAcrossNormal | ALLOPTIMIZER.cpp:52-82 | face f is visible exactly when the cell one step along its outward table normal is not occupied |
| Grid.VisibleFacesExact | ALLOPTIMIZER.cpp:83-84 | a face below n is listed exactly when it is visible |
| Grid.VisibleFacesIncreasing | ALLOPTIMIZER.cpp:83-84 | the listed faces are strictly increasing, so each visible face is listed once, in face order |
| Grid.GenCubeOptimized | ALLOPTIMIZER.cpp:67-97 | one shaded quad per visible face, in face order, and nothing for a hidden one: the t-th visible face's four vertices, at b = 4t past the old end, carry that face's table corners, outward normal and shaded colour, and its indices are (b, b+1, b+2, b, b+2, b+3); what was there is kept |
| Grid.ShadeIfVisible | ALLOPTIMIZER.cpp:83-95 | one pass of the face loop: the shaded quads, vertices and index pattern alike, grow by face f exactly when it is visible |
| Grid.CollidesPlayerFast | ALLOPTIMIZER.cpp:99-125 | false without a grid; otherwise true exactly when a scanned cell holds an active block the player box overlaps |
| Grid.ScanBoxCoversOverlap | ALLOPTIMIZER.cpp:101-107 | every block position the player overlaps rounds to a cell inside the scanned box |
| Grid.ScanFindsRegisteredBlock | ALLOPTIMIZER.cpp:99-125 | an overlapping active block that get returns at its own cell is found by the scan |
| Grid.RemoveBlockFromGrid | ALLOPTIMIZER.cpp:127-139 | nothing happens without a grid or for idx < 0; otherwise only the block's covered cell becomes -1 |
| Physics.ClampedSpin | BLOCK_PHYSICS.cpp:15-22 | each spin component lies in [-3, 3]; an already bounded spin is unchanged |
| Physics.ClampAngularSpeed | BLOCK_PHYSICS.cpp:15-22 | the component-wise clamp: the result is bounded, and a bounded spin is kept |
| Physics.ApplyGravity | BLOCK_PHYSICS.cpp:24-27 | only y changes: it becomes vel.y - 9.81 dt, but never less than -20; it never rises for dt >= 0 |
| Physics.ApplyGroundFriction | BLOCK_PHYSICS.cpp:41-47 | x and z scale by 1 - min(0.85 dt 15, 1) and do not grow for dt >= 0; y is untouched; spin scales by 0.92 and stays bounded |
| Physics.HandleGroundCollision | BLOCK_PHYSICS.cpp:49-71 | contact exactly at or below ground level. Without contact nothing changes. With contact the fragment is placed on the ground with vel.y >= 0: a fall faster than 0.3 bounces at 0.2 with 30% horizontal loss, halved and rolled spin and a clamp, a slower one stops. Spin stays bounded. The result is the ground response the step predicates use |
| Physics.RollSpin | BLOCK_PHYSICS.cpp:60-64 | the rolling spin, with no contract of its own: Physics.RollSpinRolls states what it adds |
| Physics.RollSpinRolls | BLOCK_PHYSICS.cpp:60-64 | rolling keeps the vertical spin, adds spin perpendicular to the velocity, and adds none at horizontal speed up to 0.1 |
| Physics.Overlaps | BLOCK_PHYSICS.cpp:90-92 | the strict box overlap test, with no contract of its own: Physics.OverlapsIffPenetrating relates it to the penetrations |
| Physics.Penetration | BLOCK_PHYSICS.cpp:94-96 | the overlap depth along one axis, with no contract of its own: Physics.OverlapsIffPenetrating and Physics.ResolutionAxis state its use |
| Physics.OverlapsIffPenetrating | BLOCK_PHYSICS.cpp:90-96 | the boxes overlap exactly when the penetration along every axis is positive |
| Physics.ResolutionAxis | BLOCK_PHYSICS.cpp:94-103 | an axis of least penetration; x only when strictly least, y only when strictly below z, so ties go to y or z |
| Physics.ResolutionSeparates | BLOCK_PHYSICS.cpp:94-116 | after a resolution the fragment box no longer overlaps that block and the spin is bounded |
| Physics.ResolveContact | BLOCK_PHYSICS.cpp:94-116 | pushes the fragment out along the resolution axis on its own side and reflects and damps that velocity component. Only that coordinate and velocity component change (y contacts also lose 30% horizontally). The spin is adjusted and clamped |
| Physics.FindFirstContact | BLOCK_PHYSICS.cpp:76-92 | -1 exactly when no neighbour in the 3x3x3 scan is an overlapping active block; otherwise the index found at the first such neighbour in scan order |
| Physics.HandleBlockCollision | BLOCK_PHYSICS.cpp:73-123 | no change without a grid or contact; hit exactly when some neighbour is an overlapping active block, with half-size 0.3 times the fragment size; only the first one in scan order is resolved; spin stays bounded |
| Physics.UpdateFragmentPhysics | BLOCK_PHYSICS.cpp:125-162 | an inactive fragment is untouched. An active one goes through the stages in source order with its velocity after gravity and drag: integration, ground response, block response, then friction and the sleep rule only if it landed, and rotation by the spin after friction. Only motion, lifetime and activity change. A non-eternal fragment ages by exactly dt and retires at maxLifetime; an eternal one never ages. Below y = -50 it retires. A landed fragment ends at rest or moving or spinning at least at the sleep thresholds. Bounded spin stays bounded |
| Physics.MoveFragment | BLOCK_PHYSICS.cpp:131-154 | the motion stages of one step in source order; landed exactly when the integrated position reaches ground level; a landed fragment ends at rest or at least at a sleep threshold; bounded spin stays bounded |
| Physics.RubAndSettle | BLOCK_PHYSICS.cpp:140-154 | friction only when landed, the rotation advanced by the spin after friction, then the sleep rule only when landed; a landed result is at rest or at least at a threshold |
| Physics.FallFromRest | BLOCK_PHYSICS.cpp:24-26 | a resting fragment on the ground falls at exactly 9.81 dt straight down over a frame of at most 0.05 s, reaches the ground test, and ground level puts it back where it was |
| Physics.BounceFromRest | BLOCK_PHYSICS.cpp:53-65 | landing at 0.4905 downward without spin bounces it up at 0.0981, still without spin |
| Physics.NoSpinFromVerticalBounce | BLOCK_PHYSICS.cpp:59-65 | a straight vertical bounce gives a spinless fragment no spin |
| Physics.StopFromRest | BLOCK_PHYSICS.cpp:53-68 | landing straight down at 0.3 or slower without spin stops it on the ground, with no velocity and no spin |
| Physics.RisingStaysAwake | BLOCK_PHYSICS.cpp:140-154 | rising at 0.0981 without spin, friction and the sleep rule change nothing: 0.0981 exceeds the 0.03 threshold |
| Physics.StillStaysAsleep | BLOCK_PHYSICS.cpp:140-154 | friction and the sleep rule leave a motion at rest unchanged |
| Physics.OpenGroundStep | BLOCK_PHYSICS.cpp:73-154 | without a grid there is no block hit: the step is the ground response, then friction and the sleep rule after a landing |
| Physics.WakeStages | BLOCK_PHYSICS.cpp:128-154 | over 0.05 s a resting fragment on the ground lands, bounces and ends rising at 0.0981 without spin |
| Physics.StillStages | BLOCK_PHYSICS.cpp:128-154 | over at most 0.03 s a resting fragment on the ground lands, stops where it was and stays asleep, its rotation unchanged |
| Physics.RestWakesOnLongFrame | BLOCK_PHYSICS.cpp:125-154 | as written: over a 0.05 s frame, which the main loop lets through, a resting fragment on open ground ends rising at 0.0981, no longer at rest |
| Physics.RestStaysOnShortFrame | BLOCK_PHYSICS.cpp:125-154 | over frames of at most 0.03 s a resting fragment on open ground stays at rest, in place and unrotated |
| Physics.SleepIfSlow | BLOCK_PHYSICS.cpp:151-154 | below both thresholds velocity and spin become exactly zero; otherwise both are kept |
| Physics.Survivors | BLOCK_PHYSICS.cpp:168-171 | the survivors are exactly the active fragments of the list, and no more of them |
| Physics.SurvivorsAppend | BLOCK_PHYSICS.cpp:168-171 | filtering distributes over concatenation, so relative order is kept |
| Physics.SurvivorsOfActive | BLOCK_PHYSICS.cpp:168-171 | a list of active fragments survives unchanged |
| Physics.SurvivorsNoRevival | BLOCK_PHYSICS.cpp:164-172 | a step that activates nothing cannot increase the number of survivors |
| Physics.RemoveInactive | BLOCK_PHYSICS.cpp:168-171 | the compaction yields the active fragments in their original order |
| Physics.UpdateAllFragments | BLOCK_PHYSICS.cpp:164-172 | every fragment is stepped in place, fragment i by the one-fragment step, and the result is exactly the stepped fragments still active, in their original order; every one is active, there are no more than the active ones before, bounded spins stay bounded |
| Clipping.Behind | BLOCK_FRACTURE.cpp:17-19 | `pointBehindPlane`, with no contract of its own: Clipping.BehindOneSide states how the two sides of a plane relate |
| Clipping.BehindOneSide | BLOCK_FRACTURE.cpp:17-19 | a point behind a plane is not behind the reversed plane, and a point behind neither side lies exactly on the plane, and conversely |
| Clipping.LinePlaneIntersect | BLOCK_FRACTURE.cpp:21-29 | a (nearly) parallel segment yields its first end |
| Clipping.IntersectionOnSegment | BLOCK_FRACTURE.cpp:21-29 | the result is a + (b - a) t for some t in [0, 1], so it lies on the segment |
| Clipping.IntersectionOnPlane | BLOCK_FRACTURE.cpp:21-28 | for an edge crossing the plane that is not parallel to it, the point lies exactly on the plane |
| Clipping.IntersectionNearPlane | BLOCK_FRACTURE.cpp:21-29 | for any crossing edge, the point is on the kept side up to the 1e-8 guard |
| Clipping.EdgeOut | BLOCK_FRACTURE.cpp:38-48 | an edge contributes at most two points: its start if kept, nothing when both ends are behind, only its start when both are kept |
| Clipping.EdgeOutKeptSide | BLOCK_FRACTURE.cpp:40-48 | every point an edge contributes is on the kept side up to 1e-8 |
| Clipping.ClipEdges | BLOCK_FRACTURE.cpp:37-49 | k edges contribute at most 2k points |
| Clipping.ClipSpec | BLOCK_FRACTURE.cpp:31-51 | empty for fewer than 3 vertices; at most 2n points |
| Clipping.ClipKeptSide | BLOCK_FRACTURE.cpp:31-51 | the clipped polygon lies on the kept side up to 1e-8 |
| Clipping.ClipPolygonByPlane | BLOCK_FRACTURE.cpp:31-51 | the loop computes the clipped polygon: empty below 3 vertices, at most 2n points |
| Clipping.ClipAllInside | BLOCK_FRACTURE.cpp:37-49 | a polygon with no vertex behind the plane comes back unchanged |
| Clipping.ClipAllBehind | BLOCK_FRACTURE.cpp:34-49 | a polygon with every vertex behind the plane is clipped away |
| Clipping.KeptVertexStartsItsEdge | BLOCK_FRACTURE.cpp:42-43 | the edge of a kept vertex begins with that vertex |
| Clipping.ClipKeepsOrder | BLOCK_FRACTURE.cpp:37-49 | a kept vertex keeps its position in every longer run of edges, so kept vertices keep their order |
| Clipping.ClipKeepsInside | BLOCK_FRACTURE.cpp:37-49 | every kept vertex appears in the clipped polygon, at the position its predecessors determine |
| Clipping.MakeCubeShape | BLOCK_FRACTURE.cpp:58-76 | six faces of four corners each, in the table order, with six flags all false |
| Clipping.CubeFacesOnPlanes | BLOCK_FRACTURE.cpp:58-73 | face f lies in the plane at distance h from the centre along its outward normal |
| Clipping.NearPoints | BLOCK_FRACTURE.cpp:87-89 | at most as many points as the clipped face |
| Clipping.NearPointsAreNear | BLOCK_FRACTURE.cpp:87-89 | every collected point comes from the face and lies within 0.01 of the plane |
| Clipping.CollectNearPoints | BLOCK_FRACTURE.cpp:87-90 | the loop collects exactly the near-plane points, in order |
| Clipping.KeptFaces | BLOCK_FRACTURE.cpp:82-92 | faces and flags stay in step; no more faces than input faces; each has at least 3 vertices |
| Clipping.KeptFacesAreClipped | BLOCK_FRACTURE.cpp:82-92 | every kept face is the clipped version of an input face, with that face's flag |
| Clipping.CandidatesNearPlane | BLOCK_FRACTURE.cpp:82-92 | every cap candidate lies within 0.01 of the plane |
| Clipping.Dedup | BLOCK_FRACTURE.cpp:95-102 | the de-duplicated points are taken from the candidates, and there are no more of them |
| Clipping.DedupSeparatesAndCovers | BLOCK_FRACTURE.cpp:95-102 | kept points are pairwise at squared distance >= 0.0001; every candidate is kept or has a close kept point |
| Clipping.DedupCapPoints | BLOCK_FRACTURE.cpp:95-102 | the nested loop computes exactly the de-duplication |
| Clipping.ClipShapeByPlane | BLOCK_FRACTURE.cpp:78-126 | faces and flags stay in step, each face has at least 3 vertices; the kept faces are clipped in order with their flags; a cap flagged as cut and holding the de-duplicated candidates in some order follows exactly when there are at least 3 of those, and no cap otherwise |
| Clipping.ClipFace | BLOCK_FRACTURE.cpp:83-91 | one step of the face loop advances the kept faces and cap candidates by one face |
| Clipping.CappedIsCut | BLOCK_FRACTURE.cpp:103-122 | with at least 3 unique cap points, a permutation of them appended as a cut face completes a cut of the shape, and has as many points as they do |
| Clipping.CapNearPlane | BLOCK_FRACTURE.cpp:87-121 | every point of the cap face lies within 0.01 of the cutting plane |
| Clipping.Centroid | BLOCK_FRACTURE.cpp:128-135 | the origin for a shape without points, otherwise the average of all face points |
| Clipping.ShapeCenter | BLOCK_FRACTURE.cpp:128-135 | the accumulation loop computes the centroid |
| Clipping.CubeCentroid | BLOCK_FRACTURE.cpp:58-135 | the centroid of a fresh cube shape is its centre |
| Clipping.Tetra | BLOCK_FRACTURE.cpp:146 | each tetrahedron term is non-negative |
| Clipping.FanVolume | BLOCK_FRACTURE.cpp:142-147 | the fan terms of a face sum to a non-negative value |
| Clipping.FacesVolume | BLOCK_FRACTURE.cpp:140-148 | non-negative, and zero when no face has 3 vertices |
| Clipping.ShapeVolume | BLOCK_FRACTURE.cpp:137-150 | the loop computes the volume estimate about the centroid, which is non-negative |
| Fracture.PerturbPoint | BLOCK_FRACTURE.cpp:152-155 | a point within `amount` of p on every axis, using three draws |
| Fracture.RandomPointInCube | BLOCK_FRACTURE.cpp:12-15 | a point in the cube of half-size halfSize, using three draws |
| Fracture.PolygonCenter | BLOCK_FRACTURE.cpp:166-168 | the average of the face's vertices |
| Fracture.PushFlatQuad | BLOCK_FRACTURE.cpp:205-211 | one quad, 4 vertices and 6 indices, with the face normal and a valid colour |
| Fracture.AddMicroCracksToFace | BLOCK_FRACTURE.cpp:157-235 | nothing, and no draw, for a face with fewer than 3 vertices or depth <= 0. Otherwise whole quads with the face normal and valid colours, whose indices name new vertices; at most 32(3 + depth) vertices |
| Fracture.AddCrackLine | BLOCK_FRACTURE.cpp:183-233 | one crack: at most two quads per segment, all with the face normal and valid colours |
| Fracture.AddCutSurfaceDetail | BLOCK_FRACTURE.cpp:237-285 | nothing for a face with fewer than 3 vertices; otherwise 6 vertices and 6 consecutive new indices per edge, with the face normal and valid colours |
| Fracture.Tint | BLOCK_FRACTURE.cpp:262-271 | a jittered shade is a valid colour within j of the clamped, darkened colour, and uses three draws (the same shape is used at lines 398-402 and 454-458) |
| Fracture.PushEdgeWedge | BLOCK_FRACTURE.cpp:273-283 | the two rough triangles of one edge: exactly the vertices a, mid, innerA and mid, b, innerB, all with the face normal, alternating the two rough colours, and their 6 consecutive indices |
| Fracture.ShapeToMesh | BLOCK_FRACTURE.cpp:287-342 | at least one vertex per vertex of a proper face, and at least one triangle when there is a proper face; new indices name new vertices and colours are valid; a shape without a proper face emits nothing and draws nothing |
| Fracture.AddFaceEdgeCracks | BLOCK_FRACTURE.cpp:358-371 | appends the lines of the face's edges in edge order: for each edge, the dark quad around it when its in-face normal has lengthSq at least 0.001, nothing otherwise; the t-th quad drawn gets the indices (b, b+1, b+2, b, b+2, b+3) with b = old end + 4t; at most one quad per edge |
| Fracture.TraceEdge | BLOCK_FRACTURE.cpp:359-371 | one edge: exactly its line is appended (the quad a-e, a+e, b+e, b-e shifted by the offset, with the face normal and the dark colour, when the in-face normal e/0.005 has lengthSq at least 0.001; nothing otherwise), and the indices (b, b+1, b+2, b, b+2, b+3) exactly when a quad was |
| Fracture.LinesUnique | BLOCK_FRACTURE.cpp:358-371 | the lines of a face's edges are determined by the face, centre, normal, offset and colour |
| Fracture.FaceCracksAt | BLOCK_FRACTURE.cpp:358-371 | the quad of a traced edge i sits at 4t..4t+3 of the face's lines, where t counts the traced edges before i |
| Fracture.AllEdgesTraced | BLOCK_FRACTURE.cpp:358-371 | when no edge's in-face normal falls below the threshold, every edge of the face gets its quad |
| Fracture.AddFaceLines | BLOCK_FRACTURE.cpp:348-371 | a cut face with at least 3 vertices gets its edge lines 0.002 above it along its normal; any other face gets nothing |
| Fracture.AddEdgeCracks | BLOCK_FRACTURE.cpp:344-374 | appends, face after face, exactly the edge lines of every proper cut face (nothing for other faces) in the crack colour of 12% of the block colour, each drawn quad with its (b, b+1, b+2, b, b+2, b+3) indices; at most one quad per cut-face edge; no draw |
| Fracture.AllCutEdgesTraced | BLOCK_FRACTURE.cpp:344-374 | when no edge of a proper cut face degenerates, the number of quads equals the number of cut-face edges |
| Fracture.SpawnDustCloud | BLOCK_FRACTURE.cpp:376-429 | 40 fresh, active, unrotated motes: lifetime 0 of 5, the block colour, within 0.45 of the block centre, upward speed in [0, 0.8], 24 vertices and 36 indices inside a small cube; 13 draws each |
| Fracture.DustMote | BLOCK_FRACTURE.cpp:384-427 | one mote: fresh, active and unrotated, lifetime 0 of 5, the block colour, within 0.45 of the block centre, upward speed in [0, 0.8], a small cube mesh; exactly 13 draws |
| Fracture.SpawnMicroParticles | BLOCK_FRACTURE.cpp:431-490 | 25 fresh, active, unrotated chips: lifetime 0 of 8, the block colour, within 0.4 of the block centre, vertical speed in [-0.3, 0.5], 24 vertices and 36 indices; 37 draws each |
| Fracture.MicroChip | BLOCK_FRACTURE.cpp:440-488 | one chip: fresh, active and unrotated, lifetime 0 of 8, the block colour, within 0.4 of the block centre, vertical speed in [-0.3, 0.5], a jittered cube mesh; exactly 37 draws |
| Fracture.JitteredCorners | BLOCK_FRACTURE.cpp:460-467 | eight corners, each within 30% of the half-size of its cube corner; 24 draws |
| Fracture.MakeShard | BLOCK_FRACTURE.cpp:573-592 | a fresh active shard at the piece centre in the block colour, thrown along the given direction with a scatter of at most 0.2 (0.075 vertically), meshed with at least one vertex per face vertex and at least one triangle when the piece has a face of 3 or more vertices |
| Fracture.ShardMotion | BLOCK_FRACTURE.cpp:575-581 | a shard's velocity is the away direction plus a scatter of at most 0.2 across and 0.075 vertically; its spin is at most 0.125 per axis (0.1 for a secondary shard, lines 553-559); six draws |
| Fracture.PieceShards | BLOCK_FRACTURE.cpp:521-592 | at most two shards; none, and no draw, for an empty piece; none for a piece under the volume threshold; exactly one, at the piece's centroid, for a non-empty piece whose volume estimate is at least the threshold and at most 0.01; every shard fresh, active and in the block colour, with at least one triangle when every face has 3 or more vertices |
| Fracture.SplitShards | BLOCK_FRACTURE.cpp:531-570 | the secondary split gives at most two fresh shards in the block colour, each with at least one triangle |
| Fracture.HalvesToShards | BLOCK_FRACTURE.cpp:540-569 | at most one shard per half, first half first; each has a triangle when both halves' faces have 3 or more vertices |
| Fracture.SplitPiece | BLOCK_FRACTURE.cpp:532-538 | the two halves are cuts of the piece on either side of a plane through a point within 0.15 of its centre, and all their faces have at least 3 vertices; six draws |
| Fracture.HalfShard | BLOCK_FRACTURE.cpp:541-568 | none, and no draw, for an empty or too-small half; otherwise exactly one fresh shard, at the half's centroid, with at least one triangle when every face has 3 or more vertices |
| Fracture.CutCell | BLOCK_FRACTURE.cpp:507-519 | a chain of shapes from the block cube: for every seed j other than i in order, the next shape is the previous one cut by the bisecting plane of seeds i and j, facing seed i, through a point within 0.025 of their midpoint; seed i leaves the shape as it is. Only the last shape can be empty, and the chain stops early only then. The cell is the last shape, well-formed, every face with at least 3 vertices |
| Fracture.BisectorStep | BLOCK_FRACTURE.cpp:511-517 | one pass of the inner loop: the next shape is a cut of the piece by the bisecting plane of seeds i and j through a point within 0.025 of their midpoint, and it extends the cell chain |
| Fracture.ChainExtends | BLOCK_FRACTURE.cpp:510-519 | a cell chain extended by a valid step for the next seed is still a cell chain |
| Fracture.ChainSkips | BLOCK_FRACTURE.cpp:511 | at seed i itself the cell chain extends with the shape unchanged |
| Fracture.FractureAndSpawn | BLOCK_FRACTURE.cpp:492-597 | between 65 and 28 + 65 fragments, all in the block colour. The shards come first, then 25 chips living 8 s, then 40 dust motes living 5 s. Every one is fresh and active; chips and dust are cube meshes of 24 vertices and 36 indices, and every fragment has at least one triangle. Mesh colours are valid whenever the block colour is |
| City.GenCube | MAIN.cpp:26-54 | all six faces in order as shaded quads: face f's four vertices, at b = 4f past the old end, carry its corners, outward normal and shaded colour, and its indices are (b, b+1, b+2, b, b+2, b+3); what was there is kept |
| City.StreetRowAreStreet | MAIN.cpp:126-139 | every block of one street row is an active type-1 block at y 0 or 1, sidewalk-coloured when raised |
| City.StreetBlocksAreStreet | MAIN.cpp:125-139 | every block a street adds is such a street block |
| City.StreetRowCovers | MAIN.cpp:126-139 | the blocks of each cell of a row are in that row |
| City.StreetCovers | MAIN.cpp:125-139 | every cell gets its y = 0 block in the curb/sidewalk/yellow-line/asphalt colour, and curb and sidewalk cells a raised sidewalk block |
| City.StreetRowRaised | MAIN.cpp:133-135 | every raised block of a row sits over a curb or sidewalk cell |
| City.StreetRaised | MAIN.cpp:125-139 | every raised block of a street sits over a curb or sidewalk cell of the street |
| City.StreetPosInjective | MAIN.cpp:127-128 | distinct street cells are distinct grid columns |
| City.RaisedExactlyAtEdges | MAIN.cpp:133-138 | a cell has a raised block exactly when abs(w) >= width - 1 |
| City.TruncDiv | MAIN.cpp:169 | C's integer division rounds toward zero: for a ≥ 0 the quotient q is the floor, with 0 ≤ q and q·b ≤ a < q·b + b; for a < 0 it is the ceiling, with q ≤ 0 and q·b − b < a ≤ q·b |
| City.DivIsFloor | MAIN.cpp:169 | for a non-negative dividend the quotient m / b is the floor: 0 ≤ q and q·b ≤ m < q·b + b |
| City.AntennaBlocks | MAIN.cpp:168-172 | six type-3 blocks over (bx + w/2, bz + d/2) at y = h+2 .. h+7, grey with a red tip |
| World.InactiveNotInGrid | ALLOPTIMIZER.cpp:38-43 | after a rebuild no cell resolves to an inactive block |
| World.World.constructor | TYPES.cpp:68-82 | the initial state: no blocks, no fragments, no grid, no target, fragments not eternal, timeout 10 |
| World.World.AddBlock | MAIN.cpp:115-118 | exactly one active block with the given position, colour and type is appended; the others are unchanged |
| World.World.GenerateStreet | MAIN.cpp:120-141 | appends exactly the street's block list, row by row |
| World.World.AddStreetRow | MAIN.cpp:126-139 | appends one row of street cells |
| World.World.AddStreetCell | MAIN.cpp:127-138 | appends the surface block of a street cell, followed by the raised block for a curb or sidewalk cell |
| World.World.GenerateBuilding | MAIN.cpp:143-173 | only appends blocks. Each is an active type-2 shell cell (perimeter or roof, y in [2, h+1]) in a colour allowed for it, with frame on the corners. With an antenna the last six blocks are the antenna |
| World.World.ShellCellColor | MAIN.cpp:152-165 | frame at corners, roof on top, lit or dark windows, trim every third storey, wall colour elsewhere |
| World.World.RebuildGrid | ALLOPTIMIZER.cpp:35-45 | allocates the grid on first use, keeps it afterwards, and leaves it consistent with the block list |
| World.World.UpdateFragments | MAIN.cpp:509 | the fragment list becomes the still-active results of stepping each fragment, in their original order; all are active, and there are no more than the active ones before |
| World.World.FindTarget | MAIN.cpp:221-282 | no target without a grid; a target is always an active block in the list that the ray hits within reach; hasTarget exactly when the index is set |
| World.World.DestroyTarget | MAIN.cpp:562-570 | only an active in-range target is acted on. It becomes inactive, and nothing else in the list changes. The debris is appended (65 to 93 pieces, in the block colour). The rebuilt grid is consistent and no cell resolves to the destroyed block. Otherwise nothing changes: the blocks, the fragments, the grid reference, its cells and the number of draws stay as they were |

## Left out

- Rendering, the graphics device, windows, input, mouse locking, audio and lighting (MAIN.cpp
  plumbing, `rebuild`'s vertex transform, GRAPHICS.cpp, SOUNDMANAGER.cpp): device and
  operating-system calls and trigonometric shading, with no logic the core depends on.
- The F3 and F4 key handlers (MAIN.cpp:555-556) and `cleanupGrid`
  (ALLOPTIMIZER.cpp:141-144): a flag toggle, a list clear and a deallocation.
- `Mat4::perspective`, `lookAt` and the matrix product (TYPES.cpp:22-42): floating-point
  camera maths. Only `Mat4::identity` is modelled.
- Player movement (`physics`, MAIN.cpp:487-507) and `collidesPlayerAABB`
  (MAIN.cpp:284-290). The grid-based `collidesPlayerFast` is modelled.
- `rayBlockIntersect` and the slab arithmetic inside `findTarget` are the `ray` parameter;
  only the cell scan, the reach bound and the active-block guard are modelled.
- `breakBlock` and `genFragShape` (MAIN.cpp:60-113) are never called on the destroy path.
- `generateCity17`'s lot layout (MAIN.cpp:175-208): a fixed sequence of generator calls over
  random lot sizes. The street and building generators it calls are modelled.
- `applyAirDrag` (BLOCK_PHYSICS.cpp:29-39) is the `drag` parameter. It needs a square root
  and a normalisation.
- Floating-point semantics: values are exact reals, epsilons are real thresholds, and no
  IEEE rounding is modelled. The `uint32_t` index arithmetic never wraps in the model.
- `std::mt19937` is abstracted as a stream of values in [0, 1), given to the generator. Each
  draw is tied to its position in that stream through the affine map of its distribution.
  The generator's bits and the library's float conversion are not modelled.
- The atan2 angular sort of the cap polygon (BLOCK_FRACTURE.cpp:104-120) is the `order`
  parameter, of which only being a permutation is used. Its reference directions are
  therefore not modelled.
- Spawned fragments are returned as sequences that the caller appends to the fragment list.
  The source pushes them onto the global vector one by one.
- Types.Normalized: states unit length only for a true square root (`IsSqrt`), because
  the square root is a parameter.
- Grid.FaceVisible: on its own it states only the out-of-range case. The neighbour each face
  tests is stated by Grid.FaceVisibleAcrossNormal.
- Clipping.ShapeVolume: proved non-negative and equal to the fan sum. That it measures the
  volume of a convex shape, or halves under a central cut, is not proved.
- Fracture.ShapeToMesh: bounds the vertex count from below (at least the face vertices) and
  does not state the exact n vertices and 3(n-2) fan indices per face, because the random
  decoration follows in the same buffers. The exact per-face count is Mesh.AppendFan's
  contract.
- Fracture.TraceEdge: the test `lengthSq() >= 0.001` on the in-face normal is taken as given
  (Fracture.Traced). The model does not relate it to the face's geometry (with exact reals
  and a true square root it holds for an edge of positive length in the plane of a face whose
  normal does not degenerate), so Fracture.AllEdgesTraced and Fracture.AllCutEdgesTraced take
  it as a hypothesis.
- Fracture.AddMicroCracksToFace: states whole quads and an upper bound, not the exact number,
  which depends on the draws.
- Fracture.FractureAndSpawn: the piece count drawn in [7, 14] is stated only through the
  bounds on the number of fragments.
- World.World.GenerateBuilding: states that every block added is a correct shell block. It
  does not state that every shell cell receives one.
- World.World.FindTarget: states that a target is an active block hit within reach. It does
  not state that it is the nearest hit, or that the search stops at the first sample with a hit.
- Physics.UpdateFragmentPhysics: a fragment at rest is not proved to stay at rest in
  general. On open ground this holds only for frames of at most about 0.03 s (see Findings).
  A fragment resting on a block is never grounded, so the sleep rule never applies to it.
  Air drag is a parameter, so the rest lemmas take it as the identity.

## Findings

| source | as written | input that shows it | evidently intended | confidence | as-written member | corrected member |
|---|---|---|---|---|---|---|
| BLOCK_PHYSICS.cpp:125-154 | gravity is applied before the ground test every frame, and a fall faster than 0.3 bounces at 0.2 of its speed. With frames of up to 0.05 s (MAIN.cpp:611), a fragment at rest on the ground falls at 0.49 within one frame, bounces up at 0.0981, above the 0.03 sleep threshold, and wakes | a fragment at rest at ground level on open ground, dt = 0.05, air drag taken as the identity, no grid | a fragment at rest on the ground stays at rest; the code has this only for frames of at most 0.03 s | high for the arithmetic, medium for the intent; not executed | Physics.RestWakesOnLongFrame | Physics.RestStaysOnShortFrame |
