/** Uniform Catmull-Rom interpolation between the middle two of four control
    points, as the deformer samples a vertex's trajectory between frames. */
module CatmullRom {
  import opened Vectors

  /** The four basis weights at parameter `t`. */
  datatype Basis = Basis(a0: real, a1: real, a2: real, a3: real)

  function BasisAt(t: real): (b: Basis)
    ensures t == 0.0 ==> b == Basis(0.0, 1.0, 0.0, 0.0)
    ensures t == 1.0 ==> b == Basis(0.0, 0.0, 1.0, 0.0)
  {
    var t2 := t * t;
    var t3 := t2 * t;
    Basis(-0.5 * t3 + t2 - 0.5 * t,
          1.5 * t3 - 2.5 * t2 + 1.0,
          -1.5 * t3 + 2.0 * t2 + 0.5 * t,
          0.5 * t3 - 0.5 * t2)
  }

  /** `p0 * a0 + p1 * a1 + p2 * a2 + p3 * a3`. */
  function Combine(p0: Vec3, p1: Vec3, p2: Vec3, p3: Vec3, b: Basis): Vec3
  {
    Add(Add(Add(Scale(p0, b.a0), Scale(p1, b.a1)), Scale(p2, b.a2)), Scale(p3, b.a3))
  }

  function Interpolate(p0: Vec3, p1: Vec3, p2: Vec3, p3: Vec3, t: real): Vec3
  {
    Combine(p0, p1, p2, p3, BasisAt(t))
  }

  /** The curve passes through `p1` at `t = 0` and through `p2` at `t = 1`. */
  lemma PassesThroughMiddlePoints(p0: Vec3, p1: Vec3, p2: Vec3, p3: Vec3)
    ensures Interpolate(p0, p1, p2, p3, 0.0) == p1
    ensures Interpolate(p0, p1, p2, p3, 1.0) == p2
  {
    BasisAtEnds();
    CombineSelectsSecond(p0, p1, p2, p3);
    CombineSelectsThird(p0, p1, p2, p3);
  }

  lemma BasisAtEnds()
    ensures BasisAt(0.0) == Basis(0.0, 1.0, 0.0, 0.0)
    ensures BasisAt(1.0) == Basis(0.0, 0.0, 1.0, 0.0)
  {
  }

  lemma CombineSelectsSecond(p0: Vec3, p1: Vec3, p2: Vec3, p3: Vec3)
    ensures Combine(p0, p1, p2, p3, Basis(0.0, 1.0, 0.0, 0.0)) == p1
  {
  }

  lemma CombineSelectsThird(p0: Vec3, p1: Vec3, p2: Vec3, p3: Vec3)
    ensures Combine(p0, p1, p2, p3, Basis(0.0, 0.0, 1.0, 0.0)) == p2
  {
    assert Scale(p0, 0.0) == Zero && Scale(p1, 0.0) == Zero && Scale(p3, 0.0) == Zero;
    assert Scale(p2, 1.0) == p2;
  }

  /** The weights sum to one for every `t`: the spline is an affine combination. */
  lemma PartitionOfUnity(t: real)
    ensures var b := BasisAt(t); b.a0 + b.a1 + b.a2 + b.a3 == 1.0
  {
  }

  /** The weights' first moment is `1 + t`: the parameter advances uniformly. */
  lemma FirstMoment(t: real)
    ensures var b := BasisAt(t); b.a1 + 2.0 * b.a2 + 3.0 * b.a3 == 1.0 + t
  {
  }

  /** A trajectory standing still at `p` stays at `p` between frames. */
  lemma StillPointStaysPut(p: Vec3, t: real)
    ensures Interpolate(p, p, p, p, t) == p
  {
    PartitionOfUnity(t);
    CombineAffine(p, BasisAt(t));
  }

  lemma CombineAffine(p: Vec3, b: Basis)
    requires b.a0 + b.a1 + b.a2 + b.a3 == 1.0
    ensures Combine(p, p, p, p, b) == p
  {
    var r := Combine(p, p, p, p, b);
    assert r.x == b.a0 * p.x + b.a1 * p.x + b.a2 * p.x + b.a3 * p.x;
    assert b.a0 * p.x + b.a1 * p.x + b.a2 * p.x + b.a3 * p.x == (b.a0 + b.a1 + b.a2 + b.a3) * p.x;
    assert b.a0 * p.y + b.a1 * p.y + b.a2 * p.y + b.a3 * p.y == (b.a0 + b.a1 + b.a2 + b.a3) * p.y;
    assert b.a0 * p.z + b.a1 * p.z + b.a2 * p.z + b.a3 * p.z == (b.a0 + b.a1 + b.a2 + b.a3) * p.z;
  }

  /** Control points evenly spaced on a line are interpolated linearly: the
      result is `p1 + t * (p2 - p1)`. */
  lemma LinearPrecision(a: Vec3, d: Vec3, t: real)
    ensures Interpolate(a, Add(a, d), Add(a, Scale(d, 2.0)), Add(a, Scale(d, 3.0)), t)
            == Add(Add(a, d), Scale(d, t))
  {
    PartitionOfUnity(t);
    FirstMoment(t);
    CombineLinear(a, d, BasisAt(t), t);
  }

  lemma CombineLinear(a: Vec3, d: Vec3, b: Basis, t: real)
    requires b.a0 + b.a1 + b.a2 + b.a3 == 1.0
    requires b.a1 + 2.0 * b.a2 + 3.0 * b.a3 == 1.0 + t
    ensures Combine(a, Add(a, d), Add(a, Scale(d, 2.0)), Add(a, Scale(d, 3.0)), b) == Add(Add(a, d), Scale(d, t))
  {
    var p1, p2, p3 := Add(a, d), Add(a, Scale(d, 2.0)), Add(a, Scale(d, 3.0));
    Component(a.x, d.x, p1.x, p2.x, p3.x, b, t);
    Component(a.y, d.y, p1.y, p2.y, p3.y, b, t);
    Component(a.z, d.z, p1.z, p2.z, p3.z, b, t);
  }

  lemma Component(a: real, d: real, p1: real, p2: real, p3: real, b: Basis, t: real)
    requires b.a0 + b.a1 + b.a2 + b.a3 == 1.0
    requires b.a1 + 2.0 * b.a2 + 3.0 * b.a3 == 1.0 + t
    requires p1 == a + d && p2 == a + 2.0 * d && p3 == a + 3.0 * d
    ensures b.a0 * a + b.a1 * p1 + b.a2 * p2 + b.a3 * p3 == a + d + t * d
  {
    calc {
      b.a0 * a + b.a1 * p1 + b.a2 * p2 + b.a3 * p3;
      b.a0 * a + b.a1 * (a + d) + b.a2 * (a + 2.0 * d) + b.a3 * (a + 3.0 * d);
      (b.a0 + b.a1 + b.a2 + b.a3) * a + (b.a1 + 2.0 * b.a2 + 3.0 * b.a3) * d;
      a + (1.0 + t) * d;
    }
  }
}
