/** One evaluation of the smear deformer: it bakes the offset table once,
    picks the row of the current frame, smooths each vertex's offset over
    neighbouring frames, turns it into a signed frame shift and moves the
    vertex to its own trajectory sampled that many frames away. */
module SmearDeformer {
  import opened Outcomes
  import opened Vectors
  import opened Numeric
  import opened Smear
  import opened CatmullRom
  import opened TemporalSmoothing

  /** Attribute defaults and limits of the node. */
  const DefaultSmoothWindow: int := 2
  const MinSmoothWindow: int := 0
  const MaxSmoothWindow: int := 5
  const DefaultStrength: real := 1.5
  const MinStrength: real := 0.0
  const MaxStrength: real := 5.0

  /** The attribute values read in one evaluation; the current frame is in film frames. */
  datatype Inputs = Inputs(
    applyElongation: bool,
    currentFrame: real,
    smoothEnabled: bool,
    smoothWindow: int,
    strengthPast: real,
    strengthFuture: real)

  /** The attribute values of a freshly created node at `frame`. */
  function DefaultInputs(frame: real): (i: Inputs)
    ensures i.applyElongation && i.smoothEnabled
    ensures MinSmoothWindow <= i.smoothWindow <= MaxSmoothWindow
    ensures MinStrength <= i.strengthPast <= MaxStrength && MinStrength <= i.strengthFuture <= MaxStrength
    ensures i.smoothWindow == DefaultSmoothWindow
    ensures i.strengthPast == DefaultStrength && i.strengthFuture == DefaultStrength
    ensures i.currentFrame == frame
  {
    Inputs(true, frame, true, DefaultSmoothWindow, DefaultStrength, DefaultStrength)
  }

  /** The node's persistent state: whether the table was baked, and the table. */
  datatype DeformerState = DeformerState(baked: bool, table: MotionOffsetsSimple)

  /** The vertices the geometry iterator visits, all below `vertexCount`. */
  datatype Geometry = Geometry(vertexCount: nat, visit: seq<nat>)

  predicate ValidGeometry(g: Geometry)
  {
    forall i :: 0 <= i < |g.visit| ==> g.visit[i] < g.vertexCount
  }

  /** A table whose offset and trajectory rows all have an entry for every
      vertex of the mesh (wider rows are read only in their first `width`
      entries), with trajectory frames whenever there are offset frames. */
  predicate Shaped(t: MotionOffsetsSimple, width: nat)
  {
    && (forall f :: 0 <= f < |t.motionOffsets| ==> |t.motionOffsets[f]| >= width)
    && (forall f :: 0 <= f < |t.vertexTrajectories| ==> |t.vertexTrajectories[f]| >= width)
    && (|t.motionOffsets| > 0 ==> |t.vertexTrajectories| > 0)
  }

  datatype DeformError = BakeFailed(reason: SmearError)

  datatype Write = Write(vertex: nat, position: Vec3)

  /** Status, next state, and the positions set, in visiting order. */
  datatype DeformStep = DeformStep(status: Outcome<DeformError>, state: DeformerState, writes: seq<Write>)

  // ---------------------------------------------------------------------
  // Per-vertex arithmetic
  // ---------------------------------------------------------------------

  /** Strength blended from past (offset -1) to future (offset +1). */
  function BlendStrength(offset: real, past: real, future: real): real
  {
    var t1 := (offset + 1.0) / 2.0;
    (1.0 - t1) * past + t1 * future
  }

  /** The blend gives the past strength at offset -1 and the future strength at +1. */
  lemma BlendStrengthEnds(past: real, future: real)
    ensures BlendStrength(-1.0, past, future) == past
    ensures BlendStrength(1.0, past, future) == future
  {
  }

  /** For offsets in [-1, 1] the strength lies between the past and future strengths. */
  lemma BlendStrengthBetween(offset: real, past: real, future: real)
    requires -1.0 <= offset <= 1.0
    ensures (if past <= future then past else future) <= BlendStrength(offset, past, future)
    ensures BlendStrength(offset, past, future) <= (if past <= future then future else past)
  {
    LerpBetween((offset + 1.0) / 2.0, past, future);
  }

  lemma LerpBetween(t: real, a: real, b: real)
    requires 0.0 <= t <= 1.0
    ensures (if a <= b then a else b) <= (1.0 - t) * a + t * b <= (if a <= b then b else a)
  {
    var m := (1.0 - t) * a + t * b;
    if a <= b {
      var p := t * (b - a);
      FractionOfSpan(t, b - a, p);
      assert m == a + p;
      assert a <= m <= b;
    } else {
      var p := t * (a - b);
      FractionOfSpan(t, a - b, p);
      assert m == a - p;
      assert b <= m <= a;
    }
  }

  /** A fraction `t` of a non-negative span `d` lies between nothing and all of it. */
  lemma FractionOfSpan(t: real, d: real, p: real)
    requires 0.0 <= t <= 1.0 && 0.0 <= d && p == t * d
    ensures 0.0 <= p <= d
  {
    assert d - p == (1.0 - t) * d;
  }

  /** The whole and fractional parts of a frame shift. */
  datatype Shift = Shift(frames: int, fraction: real)

  /** `frameOffset = static_cast<int>(floor(beta))`, `t = beta - frameOffset`. */
  function SplitShift(beta: real): (s: Shift)
    ensures s.frames as real + s.fraction == beta
    ensures 0.0 <= s.fraction < 1.0
  {
    Shift(beta.Floor, beta - beta.Floor as real)
  }

  /** The split is the only one with a fraction in [0, 1). */
  lemma SplitShiftUnique(beta: real, frames: int, fraction: real)
    requires frames as real + fraction == beta && 0.0 <= fraction < 1.0
    ensures SplitShift(beta) == Shift(frames, fraction)
  {
  }

  /** The four trajectory frames around `base`, clamped into the table. */
  datatype Controls = Controls(f0: int, f1: int, f2: int, f3: int)

  function ControlFrames(base: int, numFrames: int): (c: Controls)
    ensures numFrames > 0 ==>
      0 <= c.f0 <= c.f1 <= c.f2 <= c.f3 < numFrames
    ensures 1 <= base && base + 2 < numFrames ==>
      c == Controls(base - 1, base, base + 1, base + 2)
  {
    var last := numFrames - 1;
    ClampMonotoneFour(last, base);
    Controls(Clamp(0, last, base - 1), Clamp(0, last, base), Clamp(0, last, base + 1), Clamp(0, last, base + 2))
  }

  lemma ClampMonotoneFour(last: int, base: int)
    ensures 0 <= last ==>
      Clamp(0, last, base - 1) <= Clamp(0, last, base) <= Clamp(0, last, base + 1) <= Clamp(0, last, base + 2)
  {
    if 0 <= last {
      ClampMonotone(0, last, base - 1, base);
      ClampMonotone(0, last, base, base + 1);
      ClampMonotone(0, last, base + 1, base + 2);
    }
  }

  /** The frame shift of a vertex whose smoothed offset is `offset`. */
  function Beta(offset: real, past: real, future: real): real
  {
    offset * BlendStrength(offset, past, future)
  }

  /** Where vertex `v` is placed at row `fi` with smoothing half-width `N`. */
  function ElongatedPosition(t: MotionOffsetsSimple, width: nat, fi: nat, N: int, past: real, future: real, v: nat): Vec3
    requires Shaped(t, width) && v < width && fi < |t.motionOffsets|
  {
    var offset := Smoothed(t.motionOffsets, v, fi, N);
    var shift := SplitShift(Beta(offset, past, future));
    var traj := t.vertexTrajectories;
    var c := ControlFrames(fi + shift.frames, |traj|);
    Interpolate(traj[c.f0][v], traj[c.f1][v], traj[c.f2][v], traj[c.f3][v], shift.fraction)
  }

  /** A vertex whose frame shift is zero sits on its own trajectory at the current frame. */
  lemma NoShiftRestsOnTrajectory(t: MotionOffsetsSimple, width: nat, fi: nat, N: int, past: real, future: real, v: nat)
    requires Shaped(t, width) && v < width && fi < |t.motionOffsets|
    requires fi < |t.vertexTrajectories|
    requires Beta(Smoothed(t.motionOffsets, v, fi, N), past, future) == 0.0
    ensures ElongatedPosition(t, width, fi, N, past, future, v) == t.vertexTrajectories[fi][v]
  {
    var traj := t.vertexTrajectories;
    assert SplitShift(0.0) == Shift(0, 0.0);
    var c := ControlFrames(fi, |traj|);
    assert c.f1 == fi;
    PassesThroughMiddlePoints(traj[c.f0][v], traj[c.f1][v], traj[c.f2][v], traj[c.f3][v]);
  }

  /** A vertex whose offset is zero throughout the smoothing window is not displaced. */
  lemma StillVertexRestsOnTrajectory(t: MotionOffsetsSimple, width: nat, fi: nat, N: int, past: real, future: real, v: nat)
    requires Shaped(t, width) && v < width && fi < |t.motionOffsets| && fi < |t.vertexTrajectories|
    requires t.motionOffsets[fi][v] == 0.0
    requires forall f :: 0 <= f < |t.motionOffsets| && InWindow(f, fi, N) ==> t.motionOffsets[f][v] == 0.0
    ensures ElongatedPosition(t, width, fi, N, past, future, v) == t.vertexTrajectories[fi][v]
  {
    SteadyOffsetUnchanged(t.motionOffsets, v, fi, N);
    NoShiftRestsOnTrajectory(t, width, fi, N, past, future, v);
  }

  /** With both strengths at zero no vertex is displaced, whatever its offset. */
  lemma ZeroStrengthRestsOnTrajectory(t: MotionOffsetsSimple, width: nat, fi: nat, N: int, v: nat)
    requires Shaped(t, width) && v < width && fi < |t.motionOffsets| && fi < |t.vertexTrajectories|
    ensures ElongatedPosition(t, width, fi, N, 0.0, 0.0, v) == t.vertexTrajectories[fi][v]
  {
    NoShiftRestsOnTrajectory(t, width, fi, N, 0.0, 0.0, v);
  }

  /** On a trajectory that moves a vertex uniformly along a line, and away
      from the ends of the table, the vertex is placed exactly `beta` frames
      ahead of the current frame along that line (behind it when `beta` is
      negative). */
  lemma UniformPathShiftsByBeta(t: MotionOffsetsSimple, width: nat, fi: nat, N: int, past: real, future: real, v: nat, a: Vec3, d: Vec3)
    requires Shaped(t, width) && v < width && fi < |t.motionOffsets|
    requires forall f :: 0 <= f < |t.vertexTrajectories| ==> t.vertexTrajectories[f][v] == Add(a, Scale(d, f as real))
    requires var beta := Beta(Smoothed(t.motionOffsets, v, fi, N), past, future);
      1 <= fi + beta.Floor && fi + beta.Floor + 2 < |t.vertexTrajectories|
    ensures ElongatedPosition(t, width, fi, N, past, future, v)
            == Add(a, Scale(d, fi as real + Beta(Smoothed(t.motionOffsets, v, fi, N), past, future)))
  {
    var beta := Beta(Smoothed(t.motionOffsets, v, fi, N), past, future);
    var shift := SplitShift(beta);
    var base := fi + shift.frames;
    var traj := t.vertexTrajectories;
    var c := ControlFrames(base, |traj|);
    assert c == Controls(base - 1, base, base + 1, base + 2);
    var k := (base - 1) as real;
    var p0 := Add(a, Scale(d, k));
    assert traj[c.f0][v] == p0;
    LineSteps(a, d, k, 1.0);
    LineSteps(a, d, k, 2.0);
    LineSteps(a, d, k, 3.0);
    assert traj[c.f1][v] == Add(p0, Scale(d, 1.0));
    assert Scale(d, 1.0) == d;
    assert traj[c.f2][v] == Add(p0, Scale(d, 2.0));
    assert traj[c.f3][v] == Add(p0, Scale(d, 3.0));
    LinearPrecision(p0, d, shift.fraction);
    LineSteps(a, d, k, 1.0);
    LineSteps(a, d, k + 1.0, shift.fraction);
    assert k + 1.0 + shift.fraction == fi as real + beta;
  }

  /** Placing a vertex reads only that vertex's column of the table. */
  lemma ElongatedPositionIsPerVertex(t1: MotionOffsetsSimple, t2: MotionOffsetsSimple, width: nat, fi: nat, N: int, past: real, future: real, v: nat)
    requires Shaped(t1, width) && Shaped(t2, width) && v < width && fi < |t1.motionOffsets|
    requires |t1.motionOffsets| == |t2.motionOffsets| && |t1.vertexTrajectories| == |t2.vertexTrajectories|
    requires forall f :: 0 <= f < |t1.motionOffsets| ==> t1.motionOffsets[f][v] == t2.motionOffsets[f][v]
    requires forall f :: 0 <= f < |t1.vertexTrajectories| ==> t1.vertexTrajectories[f][v] == t2.vertexTrajectories[f][v]
    ensures ElongatedPosition(t1, width, fi, N, past, future, v) == ElongatedPosition(t2, width, fi, N, past, future, v)
  {
    SmoothedDependsOnlyOnColumn(t1.motionOffsets, t2.motionOffsets, v, fi, N);
  }

  // ---------------------------------------------------------------------
  // One evaluation
  // ---------------------------------------------------------------------

  /** The smoothing half-width in effect: zero when smoothing is disabled. */
  function EffectiveWindow(inputs: Inputs): int
  {
    if inputs.smoothEnabled then inputs.smoothWindow else 0
  }

  /** The evaluation reads a row of `t`: elongation is on and the current
      frame's index falls inside the table. */
  predicate ReadsRow(inputs: Inputs, t: MotionOffsetsSimple)
  {
    inputs.applyElongation && 0 <= FrameIndex(inputs.currentFrame, t.startFrame) < |t.motionOffsets|
  }

  /** One call of the deformer. `bake` is what computing the offset table
      would return; it is consulted only while the table is not yet baked. */
  function Deform(state: DeformerState, inputs: Inputs, g: Geometry, bake: Result<MotionOffsetsSimple, SmearError>): (r: DeformStep)
    requires ValidGeometry(g)
    requires state.baked && ReadsRow(inputs, state.table) ==> Shaped(state.table, g.vertexCount)
    requires !state.baked && bake.Success? && ReadsRow(inputs, bake.value) ==> Shaped(bake.value, g.vertexCount)
    ensures !inputs.applyElongation ==> r == DeformStep(Pass, state, [])
    ensures r.status.Fail? <==> inputs.applyElongation && !state.baked && bake.Failure?
    ensures r.status.Fail? ==> r.status.error == BakeFailed(bake.error) && r.state == state && r.writes == []
    ensures r.state.baked <==> state.baked || (inputs.applyElongation && bake.Success?)
    ensures state.baked ==> r.state == state
    ensures !state.baked && inputs.applyElongation && bake.Success? ==> r.state == DeformerState(true, bake.value)
    ensures r.writes != [] ==> Shaped(r.state.table, g.vertexCount)
    ensures r.writes != [] ==>
      var fi := FrameIndex(inputs.currentFrame, r.state.table.startFrame);
      0 <= fi < |r.state.table.motionOffsets|
    ensures inputs.applyElongation && r.status.Pass? ==>
      var fi := FrameIndex(inputs.currentFrame, r.state.table.startFrame);
      && (0 <= fi < |r.state.table.motionOffsets| ==> |r.writes| == |g.visit|)
      && (!(0 <= fi < |r.state.table.motionOffsets|) ==> r.writes == [])
    ensures forall i :: 0 <= i < |r.writes| ==> r.writes[i].vertex == g.visit[i]
    ensures forall i :: 0 <= i < |r.writes| ==>
      r.writes[i].position == ElongatedPosition(r.state.table, g.vertexCount,
        FrameIndex(inputs.currentFrame, r.state.table.startFrame), EffectiveWindow(inputs),
        inputs.strengthPast, inputs.strengthFuture, g.visit[i])
  {
    if !inputs.applyElongation then DeformStep(Pass, state, [])
    else if !state.baked && bake.Failure? then DeformStep(Fail(BakeFailed(bake.error)), state, [])
    else
      var st := if state.baked then state else DeformerState(true, bake.value);
      var t := st.table;
      var fi := FrameIndex(inputs.currentFrame, t.startFrame);
      if fi < 0 || fi >= |t.motionOffsets| then DeformStep(Pass, st, [])
      else
        var N := EffectiveWindow(inputs);
        var writes := seq(|g.visit|, i requires 0 <= i < |g.visit| =>
          Write(g.visit[i], ElongatedPosition(t, g.vertexCount, fi, N, inputs.strengthPast, inputs.strengthFuture, g.visit[i])));
        DeformStep(Pass, st, writes)
  }

  /** A baked table the evaluation does not read (elongation off, or the
      frame outside the table) may have any shape, for instance one baked on
      a mesh that has since grown: the call passes and writes nothing. */
  lemma UnreadTableNeedsNoShape(state: DeformerState, inputs: Inputs, g: Geometry, bake: Result<MotionOffsetsSimple, SmearError>)
    requires ValidGeometry(g) && state.baked && !ReadsRow(inputs, state.table)
    ensures Deform(state, inputs, g, bake) == DeformStep(Pass, state, [])
  {
  }
}
