/** Integer conversions and clamps used by the C++ nodes, written out because
    Dafny's integers and reals are unbounded and its casts differ from C++'s. */
module Numeric {

  /** `static_cast<int>` of a double: truncation toward zero. */
  function Trunc(x: real): (r: int)
    ensures 0.0 <= x ==> r as real <= x < r as real + 1.0
    ensures x < 0.0 ==> r as real - 1.0 < x <= r as real
  {
    if x >= 0.0 then x.Floor else -((-x).Floor)
  }

  /** `std::min(a, b)` on ints: returns `a` unless `b < a`. */
  function IntMin(a: int, b: int): int { if b < a then b else a }

  /** `std::max(a, b)` on ints: returns `a` unless `a < b`. */
  function IntMax(a: int, b: int): int { if a < b then b else a }

  /** `std::max(lo, std::min(hi, x))`, the index clamp of the deformer. */
  function Clamp(lo: int, hi: int, x: int): (r: int)
    ensures lo <= hi ==> lo <= r <= hi
    ensures lo <= x <= hi ==> r == x
    ensures x < lo ==> r == lo
    ensures lo <= hi < x ==> r == hi
  {
    IntMax(lo, IntMin(hi, x))
  }

  /** Clamping into a fixed, non-empty interval preserves the order of its argument. */
  lemma ClampMonotone(lo: int, hi: int, x: int, y: int)
    requires lo <= hi && x <= y
    ensures Clamp(lo, hi, x) <= Clamp(lo, hi, y)
  {
  }
}
