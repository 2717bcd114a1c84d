/** The motion-lines node: it validates its input mesh, bakes the offset
    table and a random subset of seed vertices once, and checks the current
    frame's row against the mesh. */
module MotionLines {
  import opened Outcomes
  import opened Smear

  /** Fraction of vertices the node asks for as seeds. */
  const LineDensity: real := 0.1

  /** Fraction used instead of a density outside [0, 1]. */
  const FallbackDensity: real := 0.1

  function EffectiveDensity(density: real): (d: real)
    ensures 0.0 <= d <= 1.0
    ensures 0.0 <= density <= 1.0 ==> d == density
    ensures !(0.0 <= density <= 1.0) ==> d == FallbackDensity
  {
    if density < 0.0 || density > 1.0 then FallbackDensity else density
  }

  /** What the selection finds on the node's input mesh attribute. */
  datatype SeedSource = NullMesh | PointsUnavailable | Points(count: nat)

  datatype SeedError = MeshIsNull | NoPoints

  /** `rand() / RAND_MAX` after re-seeding the generator with 12345: one value in
      [0, 1] per vertex, the same sequence on every call. */
  predicate UnitStream(stream: seq<real>)
  {
    forall i :: 0 <= i < |stream| ==> 0.0 <= stream[i] <= 1.0
  }

  /** Indices below `n` whose draw falls under the density, in increasing order. */
  function Pick(stream: seq<real>, density: real, n: nat): (r: seq<nat>)
    requires n <= |stream|
    ensures forall k :: 0 <= k < |r| ==> r[k] < n
    decreases n
  {
    if n == 0 then []
    else Pick(stream, density, n - 1) + (if stream[n - 1] < density then [n - 1] else [])
  }

  predicate StrictlyIncreasing(s: seq<nat>)
  {
    forall i, j :: 0 <= i < j < |s| ==> s[i] < s[j]
  }

  lemma {:induction false} PickIncreasing(stream: seq<real>, density: real, n: nat)
    requires n <= |stream|
    ensures StrictlyIncreasing(Pick(stream, density, n))
    decreases n
  {
    if n > 0 {
      PickIncreasing(stream, density, n - 1);
    }
  }

  /** A vertex is picked iff its draw is below the density. */
  lemma {:induction false} PickMembership(stream: seq<real>, density: real, n: nat, i: nat)
    requires n <= |stream|
    ensures i in Pick(stream, density, n) <==> i < n && stream[i] < density
    decreases n
  {
    if n > 0 {
      PickMembership(stream, density, n - 1, i);
    }
  }

  datatype Selection = Selection(seeds: seq<nat>, status: Outcome<SeedError>)

  /** The seed list is cleared first, so a failed selection leaves it empty. */
  function SelectSeeds(density: real, source: SeedSource, stream: seq<real>): (r: Selection)
    requires source.Points? ==> source.count <= |stream|
    ensures r.status.Fail? <==> !source.Points?
    ensures r.status.Fail? ==> r.seeds == []
    ensures StrictlyIncreasing(r.seeds)
    ensures source.Points? ==> forall k :: 0 <= k < |r.seeds| ==> r.seeds[k] < source.count
  {
    match source
    case NullMesh => Selection([], Fail(MeshIsNull))
    case PointsUnavailable => Selection([], Fail(NoPoints))
    case Points(count) =>
      PickIncreasing(stream, EffectiveDensity(density), count);
      Selection(Pick(stream, EffectiveDensity(density), count), Pass)
  }

  /** Vertex `i` is a seed iff it exists and its draw is below the effective density. */
  lemma SeedMembership(density: real, count: nat, stream: seq<real>, i: nat)
    requires count <= |stream|
    ensures i in SelectSeeds(density, Points(count), stream).seeds
            <==> i < count && stream[i] < EffectiveDensity(density)
  {
    PickMembership(stream, EffectiveDensity(density), count, i);
  }

  /** A density of zero selects nothing; a higher density keeps every seed a
      lower one selects. */
  lemma SeedsGrowWithDensity(d1: real, d2: real, count: nat, stream: seq<real>)
    requires count <= |stream| && UnitStream(stream)
    requires 0.0 <= d1 <= d2 <= 1.0
    ensures d1 == 0.0 ==> SelectSeeds(d1, Points(count), stream).seeds == []
    ensures forall i :: i in SelectSeeds(d1, Points(count), stream).seeds ==> i in SelectSeeds(d2, Points(count), stream).seeds
  {
    forall i | i in SelectSeeds(d1, Points(count), stream).seeds
      ensures i in SelectSeeds(d2, Points(count), stream).seeds
    {
      SeedMembership(d1, count, stream, i);
      SeedMembership(d2, count, stream, i);
    }
    if d1 == 0.0 {
      var s := SelectSeeds(d1, Points(count), stream).seeds;
      if s != [] {
        SeedMembership(d1, count, stream, s[0]);
        assert false;
      }
    }
  }

  // ---------------------------------------------------------------------
  // One evaluation
  // ---------------------------------------------------------------------

  /** The input mesh as the evaluation sees it: not a mesh, a mesh some host
      call (output container, copy, path lookup, function set) failed on,
      or a usable mesh with its vertex count. */
  datatype MeshInput = NotMesh | HostCallFailed | Mesh(numVertices: nat)

  datatype Inputs = Inputs(frame: real, mesh: MeshInput, seedSource: SeedSource, stream: seq<real>)

  datatype LinesState = LinesState(baked: bool, table: MotionOffsetsSimple, seeds: seq<nat>)

  datatype LinesError = InvalidMesh | HostFailure | NoVertices | BakeFailed(reason: SmearError) | CountMismatch

  datatype LinesStep = LinesStep(status: Outcome<LinesError>, state: LinesState)

  /** One call of the node. `bake` is what computing the offset table would
      return; it is consulted only while nothing is baked. */
  function Compute(state: LinesState, inputs: Inputs, bake: Result<MotionOffsetsSimple, SmearError>): (r: LinesStep)
    requires inputs.seedSource.Points? ==> inputs.seedSource.count <= |inputs.stream|
    ensures !inputs.mesh.Mesh? || inputs.mesh.numVertices == 0 ==> r.status.Fail? && r.state == state
    ensures inputs.mesh == NotMesh ==> r.status == Fail(InvalidMesh)
    ensures inputs.mesh == HostCallFailed ==> r.status == Fail(HostFailure)
    ensures inputs.mesh == Mesh(0) ==> r.status == Fail(NoVertices)
    ensures state.baked ==> r.state == state
    ensures inputs.mesh.Mesh? && inputs.mesh.numVertices > 0 && !state.baked ==>
      && r.state.seeds == SelectSeeds(LineDensity, inputs.seedSource, inputs.stream).seeds
      && (r.state.baked <==> bake.Success?)
      && (bake.Failure? ==> r.status == Fail(BakeFailed(bake.error)) && r.state.table == state.table)
      && (bake.Success? ==> r.state.table == bake.value)
    ensures inputs.mesh.Mesh? && inputs.mesh.numVertices > 0 && r.state.baked ==>
      var t := r.state.table;
      var fi := FrameIndex(inputs.frame, t.startFrame);
      && (r.status == Fail(CountMismatch) <==> 0 <= fi < |t.motionOffsets| && |t.motionOffsets[fi]| != inputs.mesh.numVertices)
      && (r.status.Pass? <==> !(0 <= fi < |t.motionOffsets| && |t.motionOffsets[fi]| != inputs.mesh.numVertices))
  {
    match inputs.mesh
    case NotMesh => LinesStep(Fail(InvalidMesh), state)
    case HostCallFailed => LinesStep(Fail(HostFailure), state)
    case Mesh(n) =>
      if n == 0 then LinesStep(Fail(NoVertices), state)
      else if !state.baked && bake.Failure? then
        var seeds := SelectSeeds(LineDensity, inputs.seedSource, inputs.stream).seeds;
        LinesStep(Fail(BakeFailed(bake.error)), state.(seeds := seeds))
      else
        var st := if state.baked then state
                  else LinesState(true, bake.value, SelectSeeds(LineDensity, inputs.seedSource, inputs.stream).seeds);
        var t := st.table;
        var fi := FrameIndex(inputs.frame, t.startFrame);
        if fi < 0 || fi >= |t.motionOffsets| then LinesStep(Pass, st)
        else if |t.motionOffsets[fi]| != n then LinesStep(Fail(CountMismatch), st)
        else LinesStep(Pass, st)
  }

  /** Once baked, the node's state is fixed: evaluating again, at any frame
      and with any bake result, changes nothing. */
  lemma BakedStateIsFinal(state: LinesState, i1: Inputs, i2: Inputs, b1: Result<MotionOffsetsSimple, SmearError>, b2: Result<MotionOffsetsSimple, SmearError>)
    requires i1.seedSource.Points? ==> i1.seedSource.count <= |i1.stream|
    requires i2.seedSource.Points? ==> i2.seedSource.count <= |i2.stream|
    requires Compute(state, i1, b1).state.baked
    ensures Compute(Compute(state, i1, b1).state, i2, b2).state == Compute(state, i1, b1).state
  {
  }
}
