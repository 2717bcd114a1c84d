/** Three-component vectors and points over the reals (the plugin's `MVector`
    and `MPoint`, without floating-point rounding). */
module Vectors {

  datatype Vec3 = Vec3(x: real, y: real, z: real)

  const Zero: Vec3 := Vec3(0.0, 0.0, 0.0)

  function Add(a: Vec3, b: Vec3): Vec3 { Vec3(a.x + b.x, a.y + b.y, a.z + b.z) }

  function Sub(a: Vec3, b: Vec3): Vec3 { Vec3(a.x - b.x, a.y - b.y, a.z - b.z) }

  function Scale(a: Vec3, k: real): Vec3 { Vec3(k * a.x, k * a.y, k * a.z) }

  function Dot(a: Vec3, b: Vec3): real { a.x * b.x + a.y * b.y + a.z * b.z }

  /** Squared Euclidean length. */
  function Norm2(a: Vec3): real { Dot(a, a) }

  /** Sum in iteration order, as the `sum += position` loops accumulate it. */
  function Sum(s: seq<Vec3>): Vec3
  {
    if |s| == 0 then Zero else Add(Sum(s[..|s| - 1]), s[|s| - 1])
  }

  /** Stepping along a line by `k` then by `j` reaches the point `k + j` along it. */
  lemma LineSteps(a: Vec3, d: Vec3, k: real, j: real)
    ensures Add(Add(a, Scale(d, k)), Scale(d, j)) == Add(a, Scale(d, k + j))
  {
    assert (k + j) * d.x == k * d.x + j * d.x;
    assert (k + j) * d.y == k * d.y + j * d.y;
    assert (k + j) * d.z == k * d.z + j * d.z;
  }
}
