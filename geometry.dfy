/**
 * Integer geometry used by movement and the range checks: clamping a
 * coordinate into the map and comparing a Euclidean distance against a
 * radius. The source compares std::hypot(dx, dy) with an integer radius;
 * for integer offsets and a non-negative radius that is the same test as
 * dx*dx + dy*dy <= r*r, which is what is modelled here.
 */
module Geometry {

  function Abs(v: int): nat
  {
    if v < 0 then -v else v
  }

  /**
   * std::max(0, std::min(v, size - 1)): the coordinate moveRandomly keeps
   * after adding its offset.
   */
  function Clamp(v: int, size: int): (r: int)
    ensures size >= 1 ==> 0 <= r < size
    ensures size < 1 ==> r == 0
    ensures 0 <= v < size ==> r == v
  {
    if v < size - 1 then (if v < 0 then 0 else v) else (if size - 1 < 0 then 0 else size - 1)
  }

  /**
   * Clamping towards the map never moves a coordinate further from a point
   * inside the map: the displacement of a clamped move is at most the
   * offset drawn.
   */
  lemma ClampNeverLengthens(p: int, d: int, size: int)
    requires 0 <= p < size
    ensures Abs(Clamp(p + d, size) - p) <= Abs(d)
  {
  }

  /** Squared Euclidean length of the offset (dx, dy). */
  function SquaredLength(dx: int, dy: int): nat
  {
    dx * dx + dy * dy
  }

  /** hypot(dx, dy) <= radius, in exact integer arithmetic. */
  predicate Within(dx: int, dy: int, radius: nat)
  {
    SquaredLength(dx, dy) <= radius * radius
  }

  /** The test does not depend on the direction of the offset. */
  lemma WithinSymmetric(dx: int, dy: int, radius: nat)
    ensures Within(dx, dy, radius) <==> Within(-dx, -dy, radius)
  {
  }

  /** A larger radius accepts every offset a smaller one accepts. */
  lemma WithinMonotone(dx: int, dy: int, small: nat, large: nat)
    requires small <= large
    requires Within(dx, dy, small)
    ensures Within(dx, dy, large)
  {
    assert small * small <= small * large <= large * large by {
      MulLeMonotone(small, small, large);
      MulLeMonotone(large, small, large);
    }
  }

  lemma MulLeMonotone(k: nat, a: nat, b: nat)
    requires a <= b
    ensures k * a <= k * b
  {
  }

  /**
   * C++ integer division of `a` by a positive `b`, which truncates toward
   * zero; Dafny's `/` rounds toward negative infinity for negative `a`.
   */
  function TruncDiv(a: int, b: int): (q: int)
    requires b > 0
    ensures a >= 0 ==> 0 <= a - q * b < b
    ensures a < 0 ==> -b < a - q * b <= 0
  {
    if a >= 0 then a / b else -((-a) / b)
  }
}
