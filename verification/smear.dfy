/** The motion analysis of one animated mesh: its centroid relative to the
    pivot, the centroid's path over the animated frame range, the path's
    per-frame velocity, and the per-vertex offset table built from it. */
module Smear {
  import opened Outcomes
  import opened Vectors
  import opened Numeric
  import opened FrameRange

  /** What the transform node reports: its world translation (the pivot) and,
      for each frame time, its transformation applied to a point. */
  datatype Pose = Pose(pivot: Vec3, at: real -> Vec3 -> Vec3)

  /** An animated object as the analysis reads it: its keyframe channels, its
      vertices' world positions (absent when it is not a mesh) and its
      transform (absent when it is not a transform). */
  datatype AnimatedObject = AnimatedObject(channels: Node, vertices: Option<seq<Vec3>>, pose: Option<Pose>)

  datatype SmearError = RangeFailed(reason: RangeError) | NotAMesh | NotATransform | NotEnoughFrames | NoMotion

  /** The offset table the analysis fills: per-frame rows, one entry per vertex
      (this is the record declared as `MotionOffsetSimple` in the analysis
      code). `startFrame` and `endFrame` are carried through untouched. */
  datatype VelocityTable = VelocityTable(startFrame: real, endFrame: real, rows: seq<seq<Vec3>>)

  /** The cached result the deformer and the motion-lines node consume:
      scalar offsets and vertex positions, indexed [frame][vertex]. */
  datatype MotionOffsetsSimple = MotionOffsetsSimple(
    startFrame: real,
    endFrame: real,
    motionOffsets: seq<seq<real>>,
    vertexTrajectories: seq<seq<Vec3>>)

  // ---------------------------------------------------------------------
  // Centroid
  // ---------------------------------------------------------------------

  /** Mean of the vertices, or the origin for a mesh without vertices:
      `|vs|` copies of the centroid add up to the vertex sum. */
  function Centroid(vs: seq<Vec3>): (c: Vec3)
    ensures |vs| > 0 ==> Scale(c, |vs| as real) == Sum(vs)
    ensures |vs| == 0 ==> c == Zero
  {
    if |vs| > 0 then
      ScaleBack(Sum(vs), |vs| as real);
      Scale(Sum(vs), 1.0 / |vs| as real)
    else Zero
  }

  /** Scaling by `1 / n` and then by `n` gives back the vector. */
  lemma ScaleBack(s: Vec3, n: real)
    requires n > 0.0
    ensures Scale(Scale(s, 1.0 / n), n) == s
  {
    assert n * (1.0 / n) == 1.0;
    assert n * ((1.0 / n) * s.x) == (n * (1.0 / n)) * s.x;
    assert n * ((1.0 / n) * s.y) == (n * (1.0 / n)) * s.y;
    assert n * ((1.0 / n) * s.z) == (n * (1.0 / n)) * s.z;
  }

  /** Each vertex's displacement from `c`. */
  function Deviations(vs: seq<Vec3>, c: Vec3): (r: seq<Vec3>)
    ensures |r| == |vs|
  {
    seq(|vs|, i requires 0 <= i < |vs| => Sub(vs[i], c))
  }

  /** One more displacement from `c` adds one more `c` to take away. */
  lemma DeviationStep(a: Vec3, b: Vec3, c: Vec3, k: real)
    ensures Add(Sub(a, Scale(c, k)), Sub(b, c)) == Sub(Add(a, b), Scale(c, k + 1.0))
  {
    assert (k + 1.0) * c.x == k * c.x + c.x;
    assert (k + 1.0) * c.y == k * c.y + c.y;
    assert (k + 1.0) * c.z == k * c.z + c.z;
  }

  /** The displacements from `c` add up to the vertex sum less `|vs|` copies of `c`. */
  lemma {:induction false} DeviationsSum(vs: seq<Vec3>, c: Vec3)
    ensures Sum(Deviations(vs, c)) == Sub(Sum(vs), Scale(c, |vs| as real))
    decreases |vs|
  {
    if |vs| > 0 {
      var n := |vs| - 1;
      var init := vs[..n];
      DeviationsSum(init, c);
      assert Deviations(vs, c)[..n] == Deviations(init, c);
      assert Sum(Deviations(vs, c)) == Add(Sum(Deviations(init, c)), Sub(vs[n], c));
      assert Sum(vs) == Add(Sum(init), vs[n]);
      DeviationStep(Sum(init), vs[n], c, n as real);
    } else {
      assert Scale(c, 0.0) == Zero;
    }
  }

  /** One coordinate of the balance: `s - n x` vanishes iff `x` is `s / n`. */
  lemma CoordinateBalances(s: real, n: real, x: real)
    requires n > 0.0
    ensures s - n * x == 0.0 <==> x == (1.0 / n) * s
  {
    if s - n * x == 0.0 {
      assert (1.0 / n) * s == (1.0 / n) * (n * x) == ((1.0 / n) * n) * x;
    }
    if x == (1.0 / n) * s {
      assert n * x == (n * (1.0 / n)) * s;
    }
  }

  /** Taking `n` copies of `c` from `s` leaves nothing iff `c` is `s / n`. */
  lemma BalanceIff(s: Vec3, n: real, c: Vec3)
    requires n > 0.0
    ensures Sub(s, Scale(c, n)) == Zero <==> c == Scale(s, 1.0 / n)
  {
    CoordinateBalances(s.x, n, c.x);
    CoordinateBalances(s.y, n, c.y);
    CoordinateBalances(s.z, n, c.z);
  }

  /** The centroid is the one point about which a non-empty mesh balances:
      the vertices' displacements from `c` cancel iff `c` is the centroid. */
  lemma CentroidBalances(vs: seq<Vec3>, c: Vec3)
    requires |vs| > 0
    ensures Sum(Deviations(vs, c)) == Zero <==> c == Centroid(vs)
  {
    DeviationsSum(vs, c);
    BalanceIff(Sum(vs), |vs| as real, c);
  }

  /** The centroid of the mesh relative to the transform's world position. */
  function CalculateCentroidOffsetFromPivot(obj: AnimatedObject): (r: Result<Vec3, SmearError>)
    ensures r.Success? <==> obj.vertices.Some? && obj.pose.Some?
    ensures obj.vertices.None? ==> r == Failure(NotAMesh)
    ensures obj.vertices.Some? && obj.pose.None? ==> r == Failure(NotATransform)
    ensures obj.vertices == Some([]) && obj.pose.Some? ==> r == Success(Sub(Zero, obj.pose.value.pivot))
  {
    match obj.vertices
    case None => Failure(NotAMesh)
    case Some(vs) =>
      var c := Centroid(vs);
      match obj.pose
      case None => Failure(NotATransform)
      case Some(p) => Success(Sub(c, p.pivot))
  }

  /** Adding the pivot back to the offset gives the point the vertices balance about. */
  lemma CentroidOffsetRestoresCentroid(obj: AnimatedObject)
    requires obj.vertices.Some? && obj.pose.Some? && |obj.vertices.value| > 0
    ensures var off := CalculateCentroidOffsetFromPivot(obj).value;
      Sum(Deviations(obj.vertices.value, Add(obj.pose.value.pivot, off))) == Zero
  {
    var c := Centroid(obj.vertices.value);
    assert Add(obj.pose.value.pivot, Sub(c, obj.pose.value.pivot)) == c;
    CentroidBalances(obj.vertices.value, c);
  }

  // ---------------------------------------------------------------------
  // Trajectory and velocity
  // ---------------------------------------------------------------------

  /** `static_cast<int>(endFrame - startFrame + 1)`: whole frames sampled from the start. */
  function FrameCount(r: Range): int
  {
    Trunc(r.endFrame - r.startFrame + 1.0)
  }

  /** Every keyed curve of the object lists its keys in time order. */
  predicate KeysInOrder(obj: AnimatedObject)
  {
    forall c :: c in KeyedCurves(obj.channels, AnimAttrs) ==> TimeOrdered(c)
  }

  /** The centroid's position at each whole frame `startFrame + i` of the
      range `found`: the centroid offset carried by that frame's
      transformation. Each frame's entry is a one-element list, as the
      analysis stores it. The sampled frames lie inside the range and
      reach to within one frame of its end. */
  function TrajectoryOver(obj: AnimatedObject, found: Result<Range, RangeError>): (r: Result<seq<seq<Vec3>>, SmearError>)
    requires found.Success? ==> found.value.startFrame <= found.value.endFrame
    ensures r.Success? <==> found.Success? && obj.vertices.Some? && obj.pose.Some?
    ensures found.Failure? ==> r == Failure(RangeFailed(found.error))
    ensures found.Success? && r.Failure? ==> r.error == CalculateCentroidOffsetFromPivot(obj).error
    ensures r.Success? ==>
      var range := found.value;
      var off := CalculateCentroidOffsetFromPivot(obj).value;
      && |r.value| == FrameCount(range) >= 1
      && range.startFrame + (|r.value| - 1) as real <= range.endFrame < range.startFrame + |r.value| as real
      && forall i :: 0 <= i < |r.value| ==>
           r.value[i] == [obj.pose.value.at(range.startFrame + i as real)(off)]
  {
    match found
    case Failure(e) => Failure(RangeFailed(e))
    case Success(range) =>
      var n := FrameCount(range);
      match CalculateCentroidOffsetFromPivot(obj)
      case Failure(e) => Failure(e)
      case Success(off) =>
        var at := obj.pose.value.at;
        Success(seq(n, i requires 0 <= i < n => [at(range.startFrame + i as real)(off)]))
  }

  /** The trajectory over the range the analysis finds, which is the scan as
      written with its sentinels. */
  function ComputeCentroidTrajectory(obj: AnimatedObject): (r: Result<seq<seq<Vec3>>, SmearError>)
    requires KeysInOrder(obj)
    ensures r.Success? <==> ExtractAsWritten(obj.channels).Success? && obj.vertices.Some? && obj.pose.Some?
    ensures r.Success? ==>
      var range := ExtractAsWritten(obj.channels).value;
      var k := KeyedCurves(obj.channels, AnimAttrs);
      var off := CalculateCentroidOffsetFromPivot(obj).value;
      && |r.value| == FrameCount(range) >= 1
      && (forall i :: 0 <= i < |r.value| ==>
            r.value[i] == [obj.pose.value.at(range.startFrame + i as real)(off)])
      && (exists c :: c in k && range.startFrame == c[0])
      && (forall c :: c in k ==> range.startFrame <= c[0])
      && (exists c :: c in k && range.endFrame == Last(c))
      && (forall c :: c in k ==> Last(c) <= range.endFrame)
  {
    var found := ExtractAsWritten(obj.channels);
    if found.Success? then AsWrittenOrdered(obj.channels); AsWrittenCharacterised(obj.channels);
      TrajectoryOver(obj, found)
    else TrajectoryOver(obj, found)
  }

  /** The trajectory over the intended range, the hull of the keyed curves. */
  function CorrectedCentroidTrajectory(obj: AnimatedObject): (r: Result<seq<seq<Vec3>>, SmearError>)
    requires KeysInOrder(obj)
    ensures r.Success? <==> obj.channels.isDependencyNode && |KeyedCurves(obj.channels, AnimAttrs)| > 0
                            && obj.vertices.Some? && obj.pose.Some?
    ensures r.Success? ==>
      var range := ExtractAnimationFrameRange(obj.channels).value;
      var off := CalculateCentroidOffsetFromPivot(obj).value;
      && |r.value| == FrameCount(range) >= 1
      && forall i :: 0 <= i < |r.value| ==>
           r.value[i] == [obj.pose.value.at(range.startFrame + i as real)(off)]
  {
    var found := ExtractAnimationFrameRange(obj.channels);
    RangeCharacterised(obj.channels);
    if found.Success? then RangeOrdered(obj.channels); TrajectoryOver(obj, found)
    else TrajectoryOver(obj, found)
  }

  /** Away from the sentinels both trajectories are the same path. */
  lemma TrajectoriesAgreeAwayFromSentinels(obj: AnimatedObject)
    requires KeysInOrder(obj)
    requires ExtractAnimationFrameRange(obj.channels).Success?
    requires ExtractAnimationFrameRange(obj.channels).value.startFrame < DblMax
    requires ExtractAnimationFrameRange(obj.channels).value.endFrame > DblMin
    ensures ComputeCentroidTrajectory(obj) == CorrectedCentroidTrajectory(obj)
  {
    AsWrittenAgreesAwayFromSentinels(obj.channels);
  }

  /** A mesh animated only by translateX keyed from -10 to 0 has an
      11-frame path over the intended range, but the analysis as written
      finds no range and so no path at all. */
  lemma TranslateXEndingAtZeroLosesTrajectory(obj: AnimatedObject)
    requires obj.channels == Node(true, map["translateX" := Connected([AnimCurve(true, [-10.0, 0.0])])])
    requires obj.vertices.Some? && obj.pose.Some?
    ensures KeysInOrder(obj)
    ensures ComputeCentroidTrajectory(obj) == Failure(RangeFailed(NoKeyframes))
    ensures CorrectedCentroidTrajectory(obj).Success? && |CorrectedCentroidTrajectory(obj).value| == 11
  {
    OnlyTranslateXKeyed(obj.channels);
    TranslateXEndingAtZeroIsLost(obj.channels);
    RangeLostOnlyByScan(obj);
  }

  lemma RangeLostOnlyByScan(obj: AnimatedObject)
    requires KeyedCurves(obj.channels, AnimAttrs) == [[-10.0, 0.0]]
    requires ExtractAsWritten(obj.channels) == Failure(NoKeyframes)
    requires ExtractAnimationFrameRange(obj.channels) == Success(Range(-10.0, 0.0))
    requires obj.vertices.Some? && obj.pose.Some?
    ensures KeysInOrder(obj)
    ensures ComputeCentroidTrajectory(obj) == Failure(RangeFailed(NoKeyframes))
    ensures CorrectedCentroidTrajectory(obj).Success? && |CorrectedCentroidTrajectory(obj).value| == 11
  {
    SingleCurveInOrder(obj);
    AsWrittenPathLost(obj);
    CorrectedPathOfElevenFrames(obj);
  }

  lemma SingleCurveInOrder(obj: AnimatedObject)
    requires KeyedCurves(obj.channels, AnimAttrs) == [[-10.0, 0.0]]
    ensures KeysInOrder(obj)
  {
    assert TimeOrdered([-10.0, 0.0]);
  }

  lemma AsWrittenPathLost(obj: AnimatedObject)
    requires KeysInOrder(obj)
    requires ExtractAsWritten(obj.channels) == Failure(NoKeyframes)
    ensures ComputeCentroidTrajectory(obj) == Failure(RangeFailed(NoKeyframes))
  {
  }

  lemma CorrectedPathOfElevenFrames(obj: AnimatedObject)
    requires KeysInOrder(obj)
    requires ExtractAnimationFrameRange(obj.channels) == Success(Range(-10.0, 0.0))
    requires obj.vertices.Some? && obj.pose.Some?
    ensures CorrectedCentroidTrajectory(obj).Success? && |CorrectedCentroidTrajectory(obj).value| == 11
  {
    assert FrameCount(Range(-10.0, 0.0)) == 11;
  }

  /** Differences of consecutive centroid positions; fewer than two frames is an error. */
  function CentroidVelocity(positions: seq<seq<Vec3>>): (r: Result<seq<Vec3>, SmearError>)
    requires forall i :: 0 <= i < |positions| ==> |positions[i]| >= 1
    ensures r.Failure? <==> |positions| < 2
    ensures r.Failure? ==> r.error == NotEnoughFrames
    ensures r.Success? ==> |r.value| == |positions| - 1
    ensures r.Success? ==> forall i :: 0 <= i < |r.value| ==> r.value[i] == Sub(positions[i + 1][0], positions[i][0])
  {
    if |positions| < 2 then Failure(NotEnoughFrames)
    else Success(seq(|positions| - 1, i requires 0 <= i < |positions| - 1 =>
                   Sub(positions[i + 1][0], positions[i][0])))
  }

  /** Integrating the velocities from the first position recovers every
      later position: the velocity loses nothing but the starting point. */
  lemma {:induction false} VelocityIntegrates(positions: seq<seq<Vec3>>, i: nat)
    requires forall k :: 0 <= k < |positions| ==> |positions[k]| >= 1
    requires |positions| >= 2 && i < |positions|
    ensures var v := CentroidVelocity(positions).value;
      Add(positions[0][0], Sum(v[..i])) == positions[i][0]
  {
    var v := CentroidVelocity(positions).value;
    if i > 0 {
      VelocityIntegrates(positions, i - 1);
      assert v[..i][..i - 1] == v[..i - 1];
      assert v[i - 1] == Sub(positions[i][0], positions[i - 1][0]);
    }
  }

  /** Velocities of the centroid over the animated frame range. */
  function ComputeCentroidVelocity(obj: AnimatedObject): (r: Result<seq<Vec3>, SmearError>)
    requires KeysInOrder(obj)
    ensures r.Success? ==> ComputeCentroidTrajectory(obj).Success? && |r.value| == |ComputeCentroidTrajectory(obj).value| - 1
    ensures r.Failure? && ComputeCentroidTrajectory(obj).Success? ==> r.error == NotEnoughFrames
    ensures ComputeCentroidTrajectory(obj).Success? ==> (r.Success? <==> |ComputeCentroidTrajectory(obj).value| >= 2)
    ensures r.Success? ==>
      var p := ComputeCentroidTrajectory(obj).value;
      forall i :: 0 <= i < |r.value| ==> r.value[i] == Sub(p[i + 1][0], p[i][0])
  {
    match ComputeCentroidTrajectory(obj)
    case Failure(e) => Failure(e)
    case Success(positions) => CentroidVelocity(positions)
  }

  /** One row per frame, holding that frame's vector once per vertex. */
  function Broadcast(v: seq<Vec3>, n: nat): (rows: seq<seq<Vec3>>)
    ensures |rows| == |v|
    ensures forall f :: 0 <= f < |v| ==> |rows[f]| == n && forall k :: 0 <= k < n ==> rows[f][k] == v[f]
  {
    seq(|v|, f requires 0 <= f < |v| => seq(n, k => v[f]))
  }

  /** The offset table: one row per velocity, each row the frame's centroid
      velocity repeated for every vertex. The frame bounds of `table` are
      left as they were. */
  function ComputeMotionOffsetsSimple(obj: AnimatedObject, table: VelocityTable): (r: Result<VelocityTable, SmearError>)
    requires KeysInOrder(obj)
    ensures r.Success? ==> r.value.startFrame == table.startFrame && r.value.endFrame == table.endFrame
    ensures r.Success? <==> ComputeCentroidVelocity(obj).Success?
    ensures r != Failure(NoMotion)
    ensures r.Success? ==>
      var v := ComputeCentroidVelocity(obj).value;
      && |r.value.rows| == |v| >= 1
      && forall f :: 0 <= f < |v| ==>
           |r.value.rows[f]| == |obj.vertices.value|
           && forall k :: 0 <= k < |r.value.rows[f]| ==> r.value.rows[f][k] == v[f]
  {
    match ComputeCentroidVelocity(obj)
    case Failure(e) => Failure(e)
    case Success(v) =>
      if |v| == 0 then Failure(NoMotion)
      else match obj.vertices
        case None => Failure(NotAMesh)
        case Some(vs) =>
          var n := |vs|;
          Success(table.(rows := Broadcast(v, n)))
  }

  /** Over an animation whose keys span `FrameCount` whole frames, the table
      has one row fewer than frames, and every row is as wide as the mesh. */
  lemma OffsetTableShape(obj: AnimatedObject, table: VelocityTable)
    requires KeysInOrder(obj)
    requires ExtractAsWritten(obj.channels).Success? && obj.vertices.Some? && obj.pose.Some?
    requires FrameCount(ExtractAsWritten(obj.channels).value) >= 2
    ensures ComputeMotionOffsetsSimple(obj, table).Success?
    ensures |ComputeMotionOffsetsSimple(obj, table).value.rows| == FrameCount(ExtractAsWritten(obj.channels).value) - 1
  {
  }

  // ---------------------------------------------------------------------
  // Reading the table at a frame
  // ---------------------------------------------------------------------

  /** The table row both nodes read at a frame: `static_cast<int>(currentFrame - startFrame)`. */
  function FrameIndex(currentFrame: real, startFrame: real): int
  {
    Trunc(currentFrame - startFrame)
  }

  /** Truncation toward zero sends the whole frame just before the start to
      row 0 as well as the start frame itself. */
  lemma FrameIndexAroundStart(currentFrame: real, startFrame: real)
    ensures startFrame - 1.0 < currentFrame < startFrame + 1.0 <==> FrameIndex(currentFrame, startFrame) == 0
  {
  }

  /** Frame `startFrame + k` reads row `k`. */
  lemma FrameIndexOfWholeFrame(startFrame: real, k: nat)
    ensures FrameIndex(startFrame + k as real, startFrame) == k
  {
  }
}
