/** The pure helpers of the Python skinning scripts: the joint-column lookup
    and sparse-to-dense conversion of `get_skin_weights`, `smoothstep`, the
    small-length guard of `normalize`, and the finite-difference stencil of
    `compute_joint_velocities`. */
module ScriptUtils {
  import opened Outcomes
  import opened Vectors

  // ---------------------------------------------------------------------
  // Joint columns
  // ---------------------------------------------------------------------

  /** `{j: idx for idx, j in enumerate(joints)}.get(name)`: the dictionary
      keeps the last position a repeated name was seen at. */
  function ColOfJoint(joints: seq<string>, name: string): (r: Option<int>)
    ensures r.Some? <==> name in joints
    ensures r.Some? ==> 0 <= r.value < |joints| && joints[r.value] == name
    ensures r.Some? ==> forall j :: r.value < j < |joints| ==> joints[j] != name
  {
    if |joints| == 0 then None
    else if joints[|joints| - 1] == name then Some(|joints| - 1)
    else
      assert joints == joints[..|joints| - 1] + [joints[|joints| - 1]];
      ColOfJoint(joints[..|joints| - 1], name)
  }

  /** With no repeated joint names, every joint's column is its own position. */
  lemma DistinctJointsOwnColumns(joints: seq<string>, i: int)
    requires forall a, b :: 0 <= a < b < |joints| ==> joints[a] != joints[b]
    requires 0 <= i < |joints|
    ensures ColOfJoint(joints, joints[i]) == Some(i)
  {
  }

  // ---------------------------------------------------------------------
  // Sparse to dense skin weights
  // ---------------------------------------------------------------------

  /** The sparse query lists `|influences|` weights per vertex, vertex by
      vertex. Influence `k` of vertex `v` writes into column `c` when its
      weight is present (the slice stops at the end of the list), nonzero,
      and its influence names a known joint whose column is `c`. */
  predicate Writes(weights: seq<real>, influences: seq<string>, joints: seq<string>, v: int, k: int, c: int)
  {
    && 0 <= v && 0 <= k < |influences|
    && 0 <= v * |influences| + k < |weights|
    && weights[v * |influences| + k] != 0.0
    && ColOfJoint(joints, influences[k]) == Some(c)
  }

  /** Cell `(v, c)` after the influences `0 .. n - 1` of vertex `v` have
      been visited: the last write wins, and an unwritten cell holds 0. */
  function Written(weights: seq<real>, influences: seq<string>, joints: seq<string>, v: int, c: int, n: int): real
    requires 0 <= n <= |influences|
  {
    if n == 0 then 0.0
    else if Writes(weights, influences, joints, v, n - 1, c) then weights[v * |influences| + n - 1]
    else Written(weights, influences, joints, v, c, n - 1)
  }

  /** The final value of cell `(v, c)` of the dense matrix. */
  function Entry(weights: seq<real>, influences: seq<string>, joints: seq<string>, v: int, c: int): real
  {
    Written(weights, influences, joints, v, c, |influences|)
  }

  /** After `n` influences a cell is nonzero exactly when one of them wrote to it. */
  lemma {:induction false} WrittenNonzero(weights: seq<real>, influences: seq<string>, joints: seq<string>, v: int, c: int, n: int)
    requires 0 <= n <= |influences|
    ensures Written(weights, influences, joints, v, c, n) != 0.0
      <==> exists k :: 0 <= k < n && Writes(weights, influences, joints, v, k, c)
  {
    if n > 0 {
      WrittenNonzero(weights, influences, joints, v, c, n - 1);
      if !Writes(weights, influences, joints, v, n - 1, c) {
        forall k | 0 <= k < n && Writes(weights, influences, joints, v, k, c)
          ensures k < n - 1
        {
        }
      }
    }
  }

  /** After `n` influences a written cell holds the weight of the last influence that wrote to it. */
  lemma {:induction false} WrittenLastWins(weights: seq<real>, influences: seq<string>, joints: seq<string>, v: int, c: int, n: int)
    requires 0 <= n <= |influences|
    ensures forall k ::
      (0 <= k < n && Writes(weights, influences, joints, v, k, c)
       && forall j :: k < j < n ==> !Writes(weights, influences, joints, v, j, c))
      ==> Written(weights, influences, joints, v, c, n) == weights[v * |influences| + k]
  {
    if n > 0 {
      WrittenLastWins(weights, influences, joints, v, c, n - 1);
    }
  }

  /** The dense matrix entry is nonzero exactly when some influence of the
      vertex with a nonzero weight names the joint of that column, and it
      then holds the weight of the last such influence. */
  lemma EntryCharacterised(weights: seq<real>, influences: seq<string>, joints: seq<string>, v: int, c: int)
    ensures Entry(weights, influences, joints, v, c) != 0.0
      <==> exists k :: 0 <= k < |influences| && Writes(weights, influences, joints, v, k, c)
    ensures forall k ::
      (0 <= k < |influences| && Writes(weights, influences, joints, v, k, c)
       && forall j :: k < j < |influences| ==> !Writes(weights, influences, joints, v, j, c))
      ==> Entry(weights, influences, joints, v, c) == weights[v * |influences| + k]
  {
    WrittenNonzero(weights, influences, joints, v, c, |influences|);
    WrittenLastWins(weights, influences, joints, v, c, |influences|);
  }

  /** The `numVerts × |joints|` matrix `get_skin_weights` fills from the
      sparse weight list. */
  method DenseWeights(numVerts: nat, weights: seq<real>, influences: seq<string>, joints: seq<string>)
    returns (w: seq<seq<real>>)
    ensures |w| == numVerts
    ensures forall v :: 0 <= v < numVerts ==> |w[v]| == |joints|
    ensures forall v, c :: 0 <= v < numVerts && 0 <= c < |joints| ==>
      w[v][c] == Entry(weights, influences, joints, v, c)
  {
    var zeroRow := seq(|joints|, _ => 0.0);
    w := seq(numVerts, _ => zeroRow);
    var stride := |influences|;
    var v := 0;
    while v < numVerts
      invariant 0 <= v <= numVerts
      invariant |w| == numVerts
      invariant forall u :: 0 <= u < numVerts ==> |w[u]| == |joints|
      invariant forall u, c :: 0 <= u < v && 0 <= c < |joints| ==>
        w[u][c] == Entry(weights, influences, joints, u, c)
      invariant forall u, c :: v <= u < numVerts && 0 <= c < |joints| ==> w[u][c] == 0.0
    {
      var base := v * stride;
      var k := 0;
      while k < stride
        invariant 0 <= k <= stride
        invariant |w| == numVerts
        invariant forall u :: 0 <= u < numVerts ==> |w[u]| == |joints|
        invariant forall u, c :: 0 <= u < v && 0 <= c < |joints| ==>
          w[u][c] == Entry(weights, influences, joints, u, c)
        invariant forall u, c :: v < u < numVerts && 0 <= c < |joints| ==> w[u][c] == 0.0
        invariant forall c :: 0 <= c < |joints| ==> w[v][c] == Written(weights, influences, joints, v, c, k)
      {
        if base + k < |weights| && weights[base + k] != 0.0 {
          var col := ColOfJoint(joints, influences[k]);
          if col.Some? {
            w := w[v := w[v][col.value := weights[base + k]]];
          }
        }
        k := k + 1;
      }
      v := v + 1;
    }
  }

  // ---------------------------------------------------------------------
  // smoothstep
  // ---------------------------------------------------------------------

  /** `np.clip(x, 0.0, 1.0)`. */
  function Clip01(x: real): (r: real)
    ensures 0.0 <= r <= 1.0
    ensures 0.0 <= x <= 1.0 ==> r == x
    ensures x <= 0.0 ==> r == 0.0
    ensures 1.0 <= x ==> r == 1.0
  {
    if x < 0.0 then 0.0 else if x > 1.0 then 1.0 else x
  }

  /** A product of non-negative reals is non-negative. */
  lemma ProductNonNegative(a: real, b: real)
    requires 0.0 <= a && 0.0 <= b
    ensures 0.0 <= a * b
  {
  }

  /** `3 t^2 - 2 t^3` stays in the unit interval on it. */
  lemma CubicBounds(t: real)
    requires 0.0 <= t <= 1.0
    ensures 0.0 <= 3.0 * t * t - 2.0 * t * t * t <= 1.0
  {
    ProductNonNegative(t, t);
    ProductNonNegative(t * t, 3.0 - 2.0 * t);
    assert 3.0 * t * t - 2.0 * t * t * t == (t * t) * (3.0 - 2.0 * t);
    ProductNonNegative(1.0 - t, 1.0 - t);
    ProductNonNegative((1.0 - t) * (1.0 - t), 1.0 + 2.0 * t);
    assert 1.0 - (3.0 * t * t - 2.0 * t * t * t) == ((1.0 - t) * (1.0 - t)) * (1.0 + 2.0 * t);
  }

  /** The Hermite ease of the projection parameter: clipped to [0, 1], then `3x^2 - 2x^3`. */
  function Smoothstep(x: real): (r: real)
    ensures 0.0 <= r <= 1.0
    ensures x <= 0.0 ==> r == 0.0
    ensures 1.0 <= x ==> r == 1.0
  {
    var t := Clip01(x);
    CubicBounds(t);
    3.0 * t * t - 2.0 * t * t * t
  }

  /** `smoothstep` never decreases. */
  lemma SmoothstepMonotone(a: real, b: real)
    requires a <= b
    ensures Smoothstep(a) <= Smoothstep(b)
  {
    var s, t := Clip01(a), Clip01(b);
    assert s <= t;
    var d := 3.0 * (s + t) - 2.0 * (s * s + s * t + t * t);
    assert 3.0 * t * t - 2.0 * t * t * t - (3.0 * s * s - 2.0 * s * s * s) == (t - s) * d;
    ProductNonNegative(s, 1.0 - s);
    ProductNonNegative(t, 1.0 - t);
    ProductNonNegative(s, 1.0 - t);
    ProductNonNegative(t, 1.0 - s);
    assert s * (1.0 - s) == s - s * s && t * (1.0 - t) == t - t * t;
    assert s * (1.0 - t) == s - s * t && t * (1.0 - s) == t - s * t;
    assert s * s <= s && t * t <= t && s * t <= s && s * t <= t;
    assert 2.0 * (s * s + s * t + t * t) <= 3.0 * (s + t);
    ProductNonNegative(t - s, d);
  }

  /** `smoothstep` is point-symmetric about (1/2, 1/2). */
  lemma SmoothstepSymmetric(x: real)
    ensures Smoothstep(1.0 - x) == 1.0 - Smoothstep(x)
  {
    var t := Clip01(x);
    assert Clip01(1.0 - x) == 1.0 - t;
    var u := 1.0 - t;
    assert 3.0 * u * u - 2.0 * u * u * u == 1.0 - (3.0 * t * t - 2.0 * t * t * t);
  }

  // ---------------------------------------------------------------------
  // normalize
  // ---------------------------------------------------------------------

  /** Lengths at or below this are returned unnormalised. */
  const NormThreshold: real := 0.00000001

  /** Scaling by the reciprocal of a vector's length gives a unit vector. */
  lemma UnitAfterScaling(v: Vec3, n: real)
    requires 0.0 < n && n * n == Norm2(v)
    ensures Norm2(Scale(v, 1.0 / n)) == 1.0
  {
    var k := 1.0 / n;
    assert Norm2(Scale(v, k)) == k * k * Norm2(v);
    assert k * k * (n * n) == (k * n) * (k * n);
  }

  /** `v / |v|` unless the length `n` is at most 1e-8, compared here on
      squared lengths. The length itself is a parameter: its square root
      is outside the reals Dafny computes with. */
  function Normalize(v: Vec3, n: real): (r: Vec3)
    requires 0.0 <= n && n * n == Norm2(v)
    ensures Norm2(v) <= NormThreshold * NormThreshold ==> r == v
    ensures NormThreshold * NormThreshold < Norm2(v) ==> Norm2(r) == 1.0 && Scale(r, n) == v
  {
    if n > NormThreshold then
      UnitAfterScaling(v, n);
      assert Scale(Scale(v, 1.0 / n), n) == v by {
        assert n * (1.0 / n) == 1.0;
      }
      Scale(v, 1.0 / n)
    else
      assert n * n <= NormThreshold * NormThreshold by {
        ProductNonNegative(n, NormThreshold - n);
        ProductNonNegative(NormThreshold, NormThreshold - n);
        assert n * (NormThreshold - n) == n * NormThreshold - n * n;
      }
      v
  }

  // ---------------------------------------------------------------------
  // Joint velocities
  // ---------------------------------------------------------------------

  /** A joint's world-space head and tail at one frame. */
  datatype JointPose = JointPose(head: Vec3, tail: Vec3)

  /** `anim_joints`: per frame, per joint name, the joint's pose. */
  type Animation = map<int, map<string, JointPose>>

  /** `min` of an empty key list (`ValueError`) and a missing frame or joint (`KeyError`). */
  datatype LookupError = NoFrames | MissingKey

  /** The root and tip velocity of a joint, before `normalize`. */
  datatype Velocity = Velocity(root: Vec3, tip: Vec3)

  function Lookup(anim: Animation, frame: int, joint: string): (r: Result<JointPose, LookupError>)
    ensures r.Success? <==> frame in anim && joint in anim[frame]
    ensures r.Success? ==> r.value == anim[frame][joint]
    ensures r.Failure? ==> r.error == MissingKey
  {
    if frame in anim && joint in anim[frame] then Success(anim[frame][joint]) else Failure(MissingKey)
  }

  /** `frame` is the smallest key, `min(anim_joints.keys())`. */
  predicate IsFirstKey(anim: Animation, frame: int)
  {
    frame in anim && forall f :: f in anim ==> frame <= f
  }

  /** The frame `max(frame - 1, min(anim_joints.keys()))` of a non-empty
      animation, as far as it matters: `frame - 1` when some key is at or
      before it, and otherwise `frame`, which is then the first key, or is
      missing so that the lookup fails whichever frame is chosen. */
  function PreviousFrame(anim: Animation, frame: int): (p: int)
    ensures IsFirstKey(anim, frame) ==> p == frame
    ensures (exists f :: f in anim && f <= frame - 1) ==> p == frame - 1
  {
    if exists f :: f in anim && f <= frame - 1 then frame - 1 else frame
  }

  /** `(nxt - prev) / (2 dt)` for head and tail. */
  function CentralDifference(prev: JointPose, next: JointPose, dt: real): Velocity
    requires dt != 0.0
  {
    Velocity(Scale(Sub(next.head, prev.head), 1.0 / (2.0 * dt)),
             Scale(Sub(next.tail, prev.tail), 1.0 / (2.0 * dt)))
  }

  /** `curr - prev` for head and tail. */
  function OneSidedDifference(prev: JointPose, curr: JointPose): Velocity
  {
    Velocity(Sub(curr.head, prev.head), Sub(curr.tail, prev.tail))
  }

  /** The stencil of `compute_joint_velocities` as written: a central
      difference when both neighbouring frames exist, otherwise a backward
      difference against frame `max(frame - 1, min(anim_joints.keys()))`.
      At the first key that frame is the current one. */
  function JointVelocityAsWritten(anim: Animation, frame: int, joint: string, dt: real): (r: Result<Velocity, LookupError>)
    requires frame + 1 in anim && frame - 1 in anim ==> dt != 0.0
    ensures anim == map[] ==> r == Failure(NoFrames)
    ensures r == Failure(NoFrames) ==> anim == map[]
    ensures r.Success? ==> frame in anim || (frame - 1 in anim && frame + 1 in anim)
  {
    if frame + 1 in anim && frame - 1 in anim then
      match (Lookup(anim, frame - 1, joint), Lookup(anim, frame + 1, joint))
      case (Success(prev), Success(next)) => Success(CentralDifference(prev, next, dt))
      case (Failure(e), _) => Failure(e)
      case (_, Failure(e)) => Failure(e)
    else if anim == map[] then
      Failure(NoFrames)
    else
      match (Lookup(anim, PreviousFrame(anim, frame), joint), Lookup(anim, frame, joint))
      case (Success(prev), Success(curr)) => Success(OneSidedDifference(prev, curr))
      case (Failure(e), _) => Failure(e)
      case (_, Failure(e)) => Failure(e)
  }

  /** With both neighbouring frames present the central difference is taken,
      and it succeeds exactly when both neighbours hold the joint. */
  lemma CentralWhenBothNeighbours(anim: Animation, frame: int, joint: string, dt: real)
    requires dt != 0.0
    requires frame - 1 in anim && frame + 1 in anim
    ensures JointVelocityAsWritten(anim, frame, joint, dt).Success?
            <==> joint in anim[frame - 1] && joint in anim[frame + 1]
    ensures joint in anim[frame - 1] && joint in anim[frame + 1] ==>
      JointVelocityAsWritten(anim, frame, joint, dt)
        == Success(CentralDifference(anim[frame - 1][joint], anim[frame + 1][joint], dt))
  {
  }

  /** Without both neighbours the backward difference is taken: it does not
      depend on the frame time, and away from the first key it is the step
      from frame `frame - 1` to `frame`. */
  lemma OneSidedIgnoresDt(anim: Animation, frame: int, joint: string, dt1: real, dt2: real)
    requires !(frame - 1 in anim && frame + 1 in anim)
    ensures JointVelocityAsWritten(anim, frame, joint, dt1) == JointVelocityAsWritten(anim, frame, joint, dt2)
    ensures frame - 1 in anim && frame in anim && joint in anim[frame - 1] && joint in anim[frame] ==>
      JointVelocityAsWritten(anim, frame, joint, dt1)
        == Success(OneSidedDifference(anim[frame - 1][joint], anim[frame][joint]))
  {
    if frame - 1 in anim {
      assert PreviousFrame(anim, frame) == frame - 1;
    }
  }

  /** The stencil with the first key handled: there, when the next frame
      exists, a forward difference `next - curr`; everywhere else as written. */
  function JointVelocity(anim: Animation, frame: int, joint: string, dt: real): (r: Result<Velocity, LookupError>)
    requires frame + 1 in anim && frame - 1 in anim ==> dt != 0.0
    ensures anim == map[] ==> r == Failure(NoFrames)
    ensures r == Failure(NoFrames) ==> anim == map[]
  {
    if IsFirstKey(anim, frame) && frame + 1 in anim then
      match (Lookup(anim, frame, joint), Lookup(anim, frame + 1, joint))
      case (Success(curr), Success(next)) => Success(OneSidedDifference(curr, next))
      case (Failure(e), _) => Failure(e)
      case (_, Failure(e)) => Failure(e)
    else
      JointVelocityAsWritten(anim, frame, joint, dt)
  }

  /** The joint moves along straight lines at constant speed: head `a + f d`, tail `b + f e` at frame `f`. */
  ghost predicate UniformMotion(anim: Animation, joint: string, a: Vec3, d: Vec3, b: Vec3, e: Vec3)
  {
    forall f :: f in anim ==>
      joint in anim[f] && anim[f][joint] == JointPose(Add(a, Scale(d, f as real)), Add(b, Scale(e, f as real)))
  }

  /** Two frames `j` apart on a uniform line differ by `j` steps. */
  lemma StepsBetween(a: Vec3, d: Vec3, f: real, j: real)
    ensures Sub(Add(a, Scale(d, f + j)), Add(a, Scale(d, f))) == Scale(d, j)
  {
    assert (f + j) * d.x - f * d.x == j * d.x;
    assert (f + j) * d.y - f * d.y == j * d.y;
    assert (f + j) * d.z - f * d.z == j * d.z;
  }

  /** Halving a two-step difference over `dt` is one step over `dt`. */
  lemma HalfOfTwoSteps(d: Vec3, dt: real)
    requires dt != 0.0
    ensures Scale(Scale(d, 2.0), 1.0 / (2.0 * dt)) == Scale(d, 1.0 / dt)
  {
    assert (1.0 / (2.0 * dt)) * 2.0 == 1.0 / dt;
  }

  /** On uniform motion the central difference is the per-frame step divided by `dt`. */
  lemma CentralDifferenceOnUniformMotion(anim: Animation, frame: int, joint: string, dt: real, a: Vec3, d: Vec3, b: Vec3, e: Vec3)
    requires dt != 0.0 && UniformMotion(anim, joint, a, d, b, e)
    requires frame - 1 in anim && frame + 1 in anim
    ensures JointVelocityAsWritten(anim, frame, joint, dt) == Success(Velocity(Scale(d, 1.0 / dt), Scale(e, 1.0 / dt)))
  {
    var lo := (frame - 1) as real;
    StepsBetween(a, d, lo, 2.0);
    StepsBetween(b, e, lo, 2.0);
    HalfOfTwoSteps(d, dt);
    HalfOfTwoSteps(e, dt);
  }

  /** On uniform motion the backward difference is the per-frame step. */
  lemma BackwardDifferenceOnUniformMotion(anim: Animation, frame: int, joint: string, dt: real, a: Vec3, d: Vec3, b: Vec3, e: Vec3)
    requires UniformMotion(anim, joint, a, d, b, e)
    requires frame in anim && frame - 1 in anim && frame + 1 !in anim
    ensures JointVelocityAsWritten(anim, frame, joint, dt) == Success(Velocity(d, e))
  {
    var lo := (frame - 1) as real;
    StepsBetween(a, d, lo, 1.0);
    StepsBetween(b, e, lo, 1.0);
    assert Scale(d, 1.0) == d && Scale(e, 1.0) == e;
  }

  /** As written, the first key always reports zero velocity, however far
      the joint moves to the next frame. */
  lemma FirstKeyVelocityIsZero(anim: Animation, frame: int, joint: string, dt: real)
    requires IsFirstKey(anim, frame)
    requires joint in anim[frame]
    ensures JointVelocityAsWritten(anim, frame, joint, dt) == Success(Velocity(Zero, Zero))
  {
    assert frame - 1 !in anim;
  }

  /** With the first key handled, uniform motion gets the per-frame step there too. */
  lemma FirstKeyFollowsMotion(anim: Animation, frame: int, joint: string, dt: real, a: Vec3, d: Vec3, b: Vec3, e: Vec3)
    requires UniformMotion(anim, joint, a, d, b, e)
    requires IsFirstKey(anim, frame) && frame + 1 in anim
    ensures JointVelocity(anim, frame, joint, dt) == Success(Velocity(d, e))
  {
    var f := frame as real;
    StepsBetween(a, d, f, 1.0);
    StepsBetween(b, e, f, 1.0);
    assert Scale(d, 1.0) == d && Scale(e, 1.0) == e;
  }

  /** The two stencils differ only at the first key of an animation whose second frame follows it. */
  lemma StencilsAgreeAwayFromFirstKey(anim: Animation, frame: int, joint: string, dt: real)
    requires frame + 1 in anim && frame - 1 in anim ==> dt != 0.0
    requires !IsFirstKey(anim, frame) || frame + 1 !in anim
    ensures JointVelocity(anim, frame, joint, dt) == JointVelocityAsWritten(anim, frame, joint, dt)
  {
  }
}
