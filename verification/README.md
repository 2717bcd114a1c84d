# Smear: a Dafny model of the smear plugin's core

This project models the computational core of a Maya plugin that applies
"smear frames", a stylised motion-blur effect for animated meshes.
Everything is written in Dafny over mathematical reals and integers.

- **Motion analysis** (`smear.cpp`).
  - `FrameRange` finds the object's animated frame range by scanning the anim curves that drive its nine translate/rotate/scale channels.
  - `Smear` computes the mesh centroid relative to the pivot and the centroid's trajectory over the frame range.
  - It then takes finite-difference velocities and broadcasts them into a frame × vertex offset table.
- **The smear deformer** (`smearDeformerNode.cpp`).
  - `SmearDeformer.Deform` bakes the table once and selects the current frame's row.
  - `TemporalSmoothing` smooths each vertex's offset over a window of neighbouring frames, with weights `(1 - (|n|/(N+1))^2)^2`.
  - The deformer blends a past and a future strength, splits the resulting frame shift into whole frames and a fraction, and clamps four control frames.
  - It places the vertex with uniform Catmull–Rom interpolation (`CatmullRom`).
- **The motion-lines node** (`motionLinesNode.cpp`).
  - `MotionLines` models seed-vertex selection over a stream of random draws, the bake-once flag and the frame/vertex-count gating of `compute`.
  - `CubeTopology` models the four constant face tables of its cube meshes.
- **The Python helpers** (`scripts/utils.py`), modelled in `ScriptUtils`:
  - the joint-column dictionary and the sparse-to-dense weight matrix of `get_skin_weights`;
  - `smoothstep`;
  - the small-length guard of `normalize`;
  - the central/one-sided stencil of `compute_joint_velocities`.

The shared modules are `Numeric` (C++ truncation and clamps), `Vectors` (3-vectors) and `Outcomes` (`Option`, `Result`, and a status type standing for `MStatus`).

Maya host calls are replaced by inputs:
- an object is its channel map, its vertex list and its pose;
- a transform is a function from a frame time to a point map;
- a node evaluation takes the bake result and the random draws as parameters;
- each evaluation returns the node's next state as a record.

## Model

| member | source | states |
|---|---|---|
| FrameRange.KeyedCurvesMembership | smear.cpp:30-43 | A curve's keys reach the range computation iff all of these hold: it is an anim curve; its function set attaches; it has at least one key; it is connected to one of the nine channels; that channel's plug lookup and connection query both succeed. |
| FrameRange.ScanIsFoldOfKeyedCurves | smear.cpp:30-48 | The nested loop over channels and connections equals a single min/max fold over the keyed curves in scan order. Every skipped plug, connection or curve leaves the running bounds untouched. |
| FrameRange.FoldBounds | smear.cpp:45-46 | After the fold, the start is at most its starting value and at most every first key, and equals one of them. The end is at least its starting value and every last key, and equals one of them. |
| FrameRange.AsWrittenCharacterised | smear.cpp:18-56 | The scan as written succeeds iff the object is a dependency node, some keyed curve starts below DBL_MAX and some keyed curve ends above DBL_MIN. On success the range runs from the earliest first key to the latest last key. |
| FrameRange.ExtractAsWritten | smear.cpp:18-56 | A node that is not a dependency node fails with that error. A range it reports never has a sentinel, `DBL_MAX` or `DBL_MIN`, as an end. `FrameRange.AsWrittenCharacterised` gives the full success condition and values. |
| FrameRange.AsWrittenOrdered | smear.cpp:45-50 | With time-ordered keys, a range the scan as written reports starts no later than it ends. |
| FrameRange.AsWrittenDependsOnlyOnKeyedCurves | smear.cpp:31-43 | Two objects whose scanned channels carry the same keyed curves get the same answer: missing plugs, failed queries, other nodes and empty curves are ignored. |
| FrameRange.NonPositiveEndIsLost | smear.cpp:20-53 | If every keyed curve ends at frame 0 or earlier, the scan as written reports "no keyframes", although a range exists. |
| FrameRange.OnlyTranslateXKeyed | smear.cpp:26-47 | For a concrete object with only translateX keyed, at frames -10 and 0, the scan sees exactly that one curve. |
| FrameRange.TranslateXEndingAtZeroIsLost | smear.cpp:20-53 | On that object the scan as written fails with "no keyframes", while the corrected range is [-10, 0]. |
| FrameRange.EmptyWhenUnplugged | smear.cpp:31-32 | Channels whose plug lookup fails contribute no curves. |
| FrameRange.ExtractAnimationFrameRange | smear.cpp:18-56 | The corrected range fails with "not a dependency node" first. Otherwise it fails only with "no keyframes", and it succeeds iff some scanned channel carries a keyed curve. |
| FrameRange.RangeCharacterised | smear.cpp:18-56 | The corrected range is found iff the object is a dependency node with at least one keyed curve. It then runs from the earliest first key to the latest last key, and with time-ordered keys the start is at most the end. |
| FrameRange.RangeOrdered | smear.cpp:45-46 | With time-ordered keys a found range never ends before it starts. |
| FrameRange.AsWrittenAgreesAwayFromSentinels | smear.cpp:20-53 | Whenever the true range starts below DBL_MAX and ends above DBL_MIN, the scan as written returns exactly the corrected range. |
| Smear.Centroid | smear.cpp:87-96 | For a non-empty mesh, the centroid scaled by the vertex count is the vertex sum. A mesh without vertices has its centroid at the origin. |
| Smear.CentroidBalances | smear.cpp:87-96 | For a non-empty mesh, the vertices' displacements from a point `c` sum to zero iff `c` is the computed centroid (sum divided by vertex count). |
| Smear.CalculateCentroidOffsetFromPivot | smear.cpp:81-105 | Succeeds iff the object is both a mesh and a transform. It fails with "not a mesh" first, then with "not a transform". A mesh without vertices has its centroid at the origin, so its offset is the negated pivot. |
| Smear.CentroidOffsetRestoresCentroid | smear.cpp:96-103 | Adding the pivot's world translation back to the returned offset gives the point about which the vertices balance. |
| Smear.TrajectoryOver | smear.cpp:115-138 | Given a range, succeeds iff the mesh and the transform are available. A range failure is passed on as "range failed", and otherwise the centroid-offset error. The result has `trunc(end - start + 1) >= 1` frames: the last sampled frame lies inside the range and the next would lie past its end. Frame `i` holds one entry: the centroid offset carried by the transform at time `start + i`. |
| Smear.ComputeCentroidTrajectory | smear.cpp:107-138 | Samples the range the scan as written finds (smear.cpp:112). It succeeds iff that scan, the mesh and the transform all succeed. The path then has `trunc(end - start + 1) >= 1` frames, where the start is the earliest first key and the end the latest last key of the keyed curves. Frame `i` holds one entry: the centroid offset carried by the transform at time `start + i`. |
| Smear.CorrectedCentroidTrajectory | smear.cpp:107-138 | The same path over the corrected range: it succeeds iff the object is a dependency node with a keyed curve and is a mesh and a transform. It has `trunc(end - start + 1) >= 1` frames, and frame `i` holds the centroid offset carried by the transform at time `start + i`. |
| Smear.TrajectoriesAgreeAwayFromSentinels | smear.cpp:20-53 | Whenever the range stays clear of the sentinels, the path as written and the corrected path are equal. |
| Smear.TranslateXEndingAtZeroLosesTrajectory | smear.cpp:21 | A mesh keyed only on translateX from -10 to 0 gets no path from the analysis as written, but an 11-frame path over the corrected range. |
| Smear.CentroidVelocity | smear.cpp:147-159 | Fails iff there are fewer than two positions. Otherwise it returns one vector fewer than there are positions, and vector `i` is position `i + 1` minus position `i`. |
| Smear.VelocityIntegrates | smear.cpp:155-159 | Adding the first `i` velocities to the first position gives position `i`. The velocities are exactly the consecutive differences. |
| Smear.ComputeCentroidVelocity | smear.cpp:140-162 | Once the trajectory exists, the call succeeds iff it has at least two frames, and otherwise fails with "not enough frames". Velocity `i` is position `i + 1` minus position `i` of the trajectory, so there is one vector fewer than frames. |
| Smear.ComputeMotionOffsetsSimple | smear.cpp:164-195 | Succeeds iff the velocities do, and never with "no motion". There is one row per velocity frame. Each row is as wide as the mesh and holds that frame's velocity in every entry. The frame bounds are left untouched. |
| Smear.OffsetTableShape | smear.cpp:115-187 | When the range found by the scan as written spans `n >= 2` whole frames, the offset table is built and has `n - 1` rows. |
| Smear.FrameIndexAroundStart | smearDeformerNode.cpp:146 | Truncation toward zero gives index 0 exactly for frames strictly between `start - 1` and `start + 1`. |
| Smear.FrameIndexOfWholeFrame | motionLinesNode.cpp:390 | Frame `start + k` reads row `k`. |
| CatmullRom.Interpolate | smearDeformerNode.cpp:226-238 | The uniform Catmull–Rom point at `t` between `p1` and `p2`. It carries no contract of its own; the lemmas below state what it promises. |
| CatmullRom.PassesThroughMiddlePoints | smearDeformerNode.cpp:226-238 | The interpolant equals `p1` at `t = 0` and `p2` at `t = 1`. |
| CatmullRom.PartitionOfUnity | smearDeformerNode.cpp:232-235 | The four basis coefficients sum to 1 for every `t`. |
| CatmullRom.FirstMoment | smearDeformerNode.cpp:232-235 | The basis coefficients weighted by 0, 1, 2, 3 sum to `1 + t`. |
| CatmullRom.StillPointStaysPut | smearDeformerNode.cpp:226-238 | Four equal control points interpolate to that point for every `t`. |
| CatmullRom.LinearPrecision | smearDeformerNode.cpp:226-238 | Control points evenly spaced on a line interpolate to `p1 + t (p2 - p1)`. |
| TemporalSmoothing.Weight | smearDeformerNode.cpp:171-172 | Every kernel weight for `abs(n) <= N` lies in (0, 1], and the centre weight is exactly 1. |
| TemporalSmoothing.WeightSymmetric | smearDeformerNode.cpp:171-172 | Frames `n` before and `n` after the centre weigh the same. |
| TemporalSmoothing.WeightFallsOff | smearDeformerNode.cpp:171-172 | Frames farther from the centre never weigh more. |
| TemporalSmoothing.Smoothed | smearDeformerNode.cpp:155-180 | The weighted mean of one vertex's offsets over the window around the current row, falling back to the raw offset when no weight accumulates. It carries no contract of its own; the lemmas below state what it promises. |
| TemporalSmoothing.SmoothingOffIsIdentity | smearDeformerNode.cpp:155-179 | With smoothing disabled (`N = 0`), or a negative window, the smoothed offset is exactly the raw offset. |
| TemporalSmoothing.WindowWeight | smearDeformerNode.cpp:164-176 | The accumulated weight is never negative. It is at least 1 once the loop has passed the centre frame. |
| TemporalSmoothing.FallbackOnlyForNegativeWindow | smearDeformerNode.cpp:164-179 | The total weight is positive iff `N >= 0`, so the "unsmoothed" fallback is taken only for a negative window. |
| TemporalSmoothing.WindowBounded | smearDeformerNode.cpp:164-176 | If every in-table offset of the window lies in `[lo, up]`, the weighted sum lies between `lo` and `up` times the total weight. |
| TemporalSmoothing.SmoothedWithinNeighbours | smearDeformerNode.cpp:160-180 | The smoothed offset lies within any bounds that hold for the window's in-table offsets and the centre offset. |
| TemporalSmoothing.SteadyOffsetUnchanged | smearDeformerNode.cpp:160-180 | An offset that is constant across the window is unchanged by smoothing. |
| TemporalSmoothing.WindowLocal | smearDeformerNode.cpp:164-176 | The window sums read only column `v` of the offset table. |
| TemporalSmoothing.SmoothedDependsOnlyOnColumn | smearDeformerNode.cpp:160-180 | Tables that agree on a vertex's column give that vertex the same smoothed offset. |
| SmearDeformer.DefaultInputs | smearDeformerNode.cpp:58-82 | A fresh node applies elongation with smoothing on, a window of exactly 2 within [0, 5], and past and future strengths of exactly 1.5 within [0, 5]. The frame is the one given. |
| SmearDeformer.BlendStrengthEnds | smearDeformerNode.cpp:198-199 | The blended strength is the past strength at offset -1 and the future strength at +1. |
| SmearDeformer.BlendStrengthBetween | smearDeformerNode.cpp:198-199 | For offsets in [-1, 1] the blended strength lies between the past and future strengths. |
| SmearDeformer.SplitShift | smearDeformerNode.cpp:203-204 | The whole-frame part plus the fraction gives back `beta`, and the fraction lies in [0, 1). |
| SmearDeformer.SplitShiftUnique | smearDeformerNode.cpp:203-204 | Any split of `beta` into whole frames plus a fraction in [0, 1) is the computed one. |
| SmearDeformer.ControlFrames | smearDeformerNode.cpp:206-211 | With at least one trajectory frame, the clamped indices satisfy `0 <= f0 <= f1 <= f2 <= f3 <= numFrames - 1`. Away from the table ends they are `base - 1 .. base + 2`. |
| SmearDeformer.ElongatedPosition | smearDeformerNode.cpp:194-221 | Where one vertex is placed: its smoothed offset, blended strength, frame shift and the interpolation between four clamped trajectory frames. It carries no contract of its own; the lemmas below state what it promises. |
| SmearDeformer.NoShiftRestsOnTrajectory | smearDeformerNode.cpp:201-221 | A vertex whose frame shift is zero is placed on its own trajectory at the current frame. |
| SmearDeformer.StillVertexRestsOnTrajectory | smearDeformerNode.cpp:160-221 | A vertex whose offset is zero across the smoothing window is not displaced. |
| SmearDeformer.ZeroStrengthRestsOnTrajectory | smearDeformerNode.cpp:183-221 | With both strengths at zero no vertex is displaced. |
| SmearDeformer.UniformPathShiftsByBeta | smearDeformerNode.cpp:194-219 | On a trajectory moving uniformly along a line, away from the table ends, the vertex is placed exactly `beta` frames along that line from the current frame. |
| SmearDeformer.ElongatedPositionIsPerVertex | smearDeformerNode.cpp:187-221 | A vertex's new position depends only on its own column of offsets and its own trajectory. |
| SmearDeformer.Deform | smearDeformerNode.cpp:94-224 | With elongation off the call passes and writes nothing. It fails iff it must bake and the bake fails. The baked flag becomes true only with a successful bake, and a baked state never changes. An out-of-range frame index passes with no writes. Otherwise every visited vertex is written once, in order, at its elongated position. The table must have an entry for every vertex only when a row is read, that is, with elongation on and the frame index inside the table. |
| SmearDeformer.UnreadTableNeedsNoShape | smearDeformerNode.cpp:101-104 | A baked table that is not read, because elongation is off or the frame lies outside the table, may have any shape. The call then passes, keeps the state and writes nothing. |
| MotionLines.EffectiveDensity | motionLinesNode.cpp:42-45 | A density outside [0, 1] becomes 0.1. Other densities are kept. |
| MotionLines.SelectSeeds | motionLinesNode.cpp:39-78 | Fails iff the mesh is null or its points are unavailable, and then leaves the seed list empty. Seeds are vertex indices, in strictly increasing order. |
| MotionLines.PickIncreasing | motionLinesNode.cpp:70-75 | Appending indices in loop order yields a strictly increasing list. |
| MotionLines.PickMembership | motionLinesNode.cpp:70-75 | Index `i` is picked iff it is a vertex and its draw is below the density. |
| MotionLines.SeedMembership | motionLinesNode.cpp:39-75 | Vertex `i` is a seed iff it exists and its draw is below the effective density. |
| MotionLines.SeedsGrowWithDensity | motionLinesNode.cpp:70-75 | Density 0 selects no seed. A higher density keeps every seed that a lower one selects. |
| MotionLines.Compute | motionLinesNode.cpp:333-407 | An invalid mesh, a failed host call or zero vertices fail with the state unchanged. Seeds are selected before the bake status is checked. The baked flag is set iff the bake succeeds. Once baked, the call fails iff the current in-range row's length differs from the vertex count. |
| MotionLines.BakedStateIsFinal | motionLinesNode.cpp:379-388 | Once baked, further evaluations never change the node's state. |
| CubeTopology.QuadsWellFormed | motionLinesNode.cpp:240-251 | The quad table has 6 faces of 4 corners (24 indices), all naming one of the 8 points. |
| CubeTopology.ReverseQuadsWellFormed | motionLinesNode.cpp:261-272 | The reversed quad table has 6 faces of 4 corners (24 indices), all in [0, 8). |
| CubeTopology.TrisWellFormed | motionLinesNode.cpp:282-299 | The tri table has 12 faces of 3 corners (36 indices), all in [0, 8). |
| CubeTopology.ReverseTrisWellFormed | motionLinesNode.cpp:309-326 | The reversed tri table has 12 faces of 3 corners (36 indices), all in [0, 8). |
| CubeTopology.ConnectsAt | motionLinesNode.cpp:244-251 | In a table of `size`-corner faces, corner `k` of face `f` sits at position `size * f + k` of the flat index array. |
| CubeTopology.QuadsClosed | motionLinesNode.cpp:245-250 | Every directed edge of the quad cube is used by exactly one corner, and its reverse is used by some corner: the box is closed and consistently wound. |
| CubeTopology.TrisClosed | motionLinesNode.cpp:287-298 | The triangulated cube is closed and consistently wound. |
| CubeTopology.ReversalKeepsClosed | motionLinesNode.cpp:259-331 | Winding every face of a closed, consistently wound table the other way keeps it closed and consistently wound. |
| CubeTopology.ReverseQuadsReversesQuads | motionLinesNode.cpp:245-271 | Each reversed quad keeps the first corner of the forward quad and lists the rest backwards. |
| CubeTopology.ReverseTrisReversesTris | motionLinesNode.cpp:287-325 | Each reversed triangle keeps the first corner of the forward triangle and swaps the other two. |
| CubeTopology.ReversedTablesClosed | motionLinesNode.cpp:259-331 | Both reversed tables are closed and consistently wound. |
| CubeTopology.TrisSplitQuads | motionLinesNode.cpp:245-298 | Triangles `2f` and `2f + 1` split quad `f` = (a, b, c, d) into (a, b, c) and (c, d, a), in quad order. |
| ScriptUtils.ColOfJoint | scripts/utils.py:81 | A name has a column iff it is a joint. Its column is a position holding that name, and no later position holds it: the last occurrence wins. |
| ScriptUtils.DistinctJointsOwnColumns | scripts/utils.py:81 | With distinct joint names, each joint's column is its own position. |
| ScriptUtils.WrittenNonzero | scripts/utils.py:108-117 | After the first `n` influences, a cell is nonzero iff one of them wrote to it. |
| ScriptUtils.WrittenLastWins | scripts/utils.py:108-117 | A written cell holds the weight of the last influence that wrote to it. |
| ScriptUtils.EntryCharacterised | scripts/utils.py:104-119 | `W[v][c]` is nonzero iff some influence of vertex `v`, inside the weight list, has a nonzero weight and names the joint of column `c`. It then holds the last such weight. |
| ScriptUtils.DenseWeights | scripts/utils.py:104-123 | The loop builds a `num_verts × len(joints)` matrix whose every cell is the characterised entry. |
| ScriptUtils.Clip01 | scripts/utils.py:179 | The clipped value lies in [0, 1]. It equals the input inside the interval, 0 below it and 1 above it. |
| ScriptUtils.Smoothstep | scripts/utils.py:178-180 | The output lies in [0, 1]. Inputs at or below 0 give 0; inputs at or above 1 give 1. |
| ScriptUtils.SmoothstepMonotone | scripts/utils.py:178-180 | `smoothstep` never decreases. |
| ScriptUtils.SmoothstepSymmetric | scripts/utils.py:178-180 | `smoothstep(1 - x) = 1 - smoothstep(x)`. |
| ScriptUtils.UnitAfterScaling | scripts/utils.py:173 | Dividing a vector by its length gives a unit vector. |
| ScriptUtils.Normalize | scripts/utils.py:171-173 | A vector of length at most 1e-8 is returned unchanged. A longer one is replaced by a unit vector that, scaled back by the length, gives the input. |
| ScriptUtils.PreviousFrame | scripts/utils.py:132 | `max(frame - 1, min(keys))` is the frame itself at the first key, and `frame - 1` when some key is at or before `frame - 1`. |
| ScriptUtils.JointVelocityAsWritten | scripts/utils.py:125-136 | Fails with "no frames" iff the animation is empty. On success the frame itself exists, or both of its neighbours do. |
| ScriptUtils.CentralDifferenceOnUniformMotion | scripts/utils.py:126-130 | On uniform motion, with both neighbours present, the velocity is the per-frame step divided by `dt`. |
| ScriptUtils.BackwardDifferenceOnUniformMotion | scripts/utils.py:131-135 | On uniform motion at the last key, the velocity is the per-frame step. |
| ScriptUtils.FirstKeyVelocityIsZero | scripts/utils.py:131-135 | As written, the first key always yields zero root and tip velocities. |
| ScriptUtils.CentralWhenBothNeighbours | scripts/utils.py:126-130 | When both neighbouring frames exist, the velocity succeeds iff both hold the joint. It is then the central difference of those two poses over `2 dt`. |
| ScriptUtils.OneSidedIgnoresDt | scripts/utils.py:131-135 | When the two neighbours are not both present, the result does not depend on `dt`. When frame `frame - 1` and the frame itself hold the joint, it is the backward difference between them. |
| ScriptUtils.JointVelocity | scripts/utils.py:125-135 | The corrected stencil fails with "no frames" iff the animation is empty. |
| ScriptUtils.FirstKeyFollowsMotion | scripts/utils.py:131-135 | With the first key handled by a forward difference, uniform motion yields the per-frame step there too. |
| ScriptUtils.StencilsAgreeAwayFromFirstKey | scripts/utils.py:125-135 | The corrected and as-written stencils differ only at a first key whose next frame exists. |

## Left out

- Maya host plumbing:
  - attribute creation in the `initialize` functions, apart from the deformer's defaults and limits recorded by `SmearDeformer.DefaultInputs`;
  - DAG-path resolution;
  - `MFnMesh::create`/`copy` and the output mesh;
  - `MDataBlock` reads;
  - `setVertexColors` and error display.
  Their results are inputs of the model: variants of `AnimatedObject`, `SeedSource`, `MeshInput` and `Geometry`.
- `computeWorldTransformPerFrame` (smear.cpp:58-79) scrubs global time with `setCurrentTime`. Only its result is modelled: a point transformation for each frame time (`Pose.at`). The frame range read there is the one `ComputeCentroidTrajectory` uses.
- The homogeneous `w` of `MPoint` and the 4×4 matrix product are left abstract in the same way.
- Floating point is not modelled. Doubles and the float-typed Catmull–Rom are mathematical reals, so nothing is claimed about rounding, overflow or bit-exact results. `DBL_MAX` and `DBL_MIN` keep their exact values as reals.
- The `srand(12345)`/`rand()` sequence is not modelled. It is a parameter: one draw in [0, 1] per vertex.
- Both nodes call `computeMotionOffsetsSimple` with a signature whose body is not part of this model. They need its result in the per-frame scalar-and-points record shape. So that result is a parameter of `SmearDeformer.Deform` and `MotionLines.Compute`. `Smear.ComputeMotionOffsetsSimple` models the body that is shown.
- `static_cast<int>` of a double outside the `int` range is undefined in C++. `Numeric.Trunc` truncates toward zero without bounds.
- TemporalSmoothing.Window: the deformer reads the window size only within its attribute limits [0, 5]. The model also allows negative windows, which makes the window loop empty.
- `Smear.ComputeCentroidTrajectory` requires time-ordered keys, which the host's anim curves guarantee. Without them the range may be empty and the frame count below one.
- SmearDeformer.Deform requires, only when the evaluation reads a row of the table (elongation on and the frame index inside it, smearDeformerNode.cpp:101-104 and 146-150), that every row be at least as wide as the mesh and that trajectory frames exist whenever offset frames do. Without these the source reads `offsets[f][vertIdx]` or `trajectories[f][vertIdx]` out of bounds, which is undefined in C++. The model also smooths only the visited vertices, while the source smooths every entry of the current row: that is also undefined when a later row is narrower than the current one.
- `Smear.FrameIndex` subtracts the bake's `startFrame` from the current frame in film frames (`MTime::kFilm`, smearDeformerNode.cpp:110 and motionLinesNode.cpp:339). The range scan reads key times in `MTime::uiUnit()` (smear.cpp:45-46). The model treats both as the same unit, which holds only while the scene's time unit is film (24 fps). Under any other unit the row read at a frame differs from the model's.
- `Smear.ComputeCentroidVelocity` never writes its `startFrame`/`endFrame` out-parameters. `Smear.ComputeMotionOffsetsSimple` returns the incoming table's bounds unchanged, which models that.
- ScriptUtils.Normalize takes the vector's length as a parameter, because Dafny's reals have no square root. It compares the length with 1e-8 exactly as the source does.
- ScriptUtils.JointVelocityAsWritten returns the root and tip differences before `normalize` is applied. `ScriptUtils.Normalize` models that last step separately, since it needs each difference's length as a parameter.
- ScriptUtils.JointVelocityAsWritten requires `dt != 0` only on the central branch, where the Python function divides by `2 * dt` and numpy gives non-finite values. The one-sided branch never divides and accepts any `dt`.
- In `get_skin_weights`, the host calls are parameters: the influence list, the sparse weight query and the vertex count. Likewise `np.float32` storage is not modelled, nor the warning and debug printing.
- `scripts/gui.py`, `scripts/vertex_cache_tool.py`, `slerp`, `per_bone_deltas`, the Maya query helpers of `scripts/utils.py`, `smearNode.cpp`, the command files, the control node and plugin registration are not part of this model.
- Header declarations without bodies (`loadCache`, `isMeshArticulated`, `getDagPathsFromInputMesh`, …) are not part of this model.

## Findings

| source | as written | input that shows it | evidently intended | confidence | as-written member | corrected member |
|---|---|---|---|---|---|---|
| smear.cpp:21 | The end frame starts at `DBL_MIN`, the smallest positive double. The test at line 50 treats an end still equal to it as "no keyframes". | An object whose only keyed channel is translateX, with keys at frames -10 and 0: the maximum of `DBL_MIN` and 0 is `DBL_MIN`, so the call fails. | The end should start at `-DBL_MAX` (the lowest double), or success should be decided by whether any keyed curve was seen. Then the range is [-10, 0]. | high, not executed | FrameRange.NonPositiveEndIsLost | FrameRange.RangeCharacterised |
| scripts/utils.py:132 | At the first key, the one-sided branch reads frame `max(frame - 1, min(keys))`, which is `frame` itself, so it differences a frame with itself. | Joint head at (0,0,0) at frame 1 and (1,0,0) at frame 2, with frame 1 the first key: the root velocity is (0,0,0). | The comment "first / last key" suggests a forward difference `next - curr` at the first key, mirroring the backward difference at the last key. That gives (1,0,0). | low, not executed; the clamp may be a deliberate guard against a missing key | ScriptUtils.FirstKeyVelocityIsZero | ScriptUtils.FirstKeyFollowsMotion |

The as-written scan `FrameRange.ExtractAsWritten` and the corrected `FrameRange.ExtractAnimationFrameRange` are both modelled. `FrameRange.TranslateXEndingAtZeroIsLost` exhibits the first input above, and `FrameRange.AsWrittenAgreesAwayFromSentinels` shows that the two agree whenever the range stays clear of the sentinels. The analysis in `Smear` samples the range as written, as the source does. `Smear.CorrectedCentroidTrajectory` samples the corrected range, `Smear.TrajectoriesAgreeAwayFromSentinels` shows that the two paths agree away from the sentinels, and `Smear.TranslateXEndingAtZeroLosesTrajectory` shows the path the first input loses.

`ScriptUtils.JointVelocityAsWritten` and the corrected `ScriptUtils.JointVelocity` are likewise both modelled. `ScriptUtils.StencilsAgreeAwayFromFirstKey` proves they differ only at the first key.
