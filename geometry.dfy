/** Planar geometry shared by every entity of the arena: vectors, the clamp that
    keeps the player on the canvas, and the circle hit rule of the collision pass. */
module Geometry {

  /** A point or a velocity on the canvas; y grows downwards, as on a canvas. */
  datatype Vec = Vec(x: real, y: real)

  function Scale(v: Vec, k: real): Vec {
    Vec(v.x * k, v.y * k)
  }

  function NormSq(v: Vec): real {
    v.x * v.x + v.y * v.y
  }

  function Min(a: real, b: real): real {
    if a <= b then a else b
  }

  function Max(a: real, b: real): real {
    if a >= b then a else b
  }

  /** `Math.max(lo, Math.min(hi, v))`: the nearest point of [lo, hi] to v, and lo
      itself when the interval is empty (a canvas narrower than the player). */
  function Clamp(lo: real, hi: real, v: real): (r: real)
    ensures lo <= hi ==> lo <= r <= hi
    ensures lo <= v <= hi ==> r == v
    ensures v < lo ==> r == lo
    ensures lo <= hi < v ==> r == hi
    ensures hi < lo ==> r == lo
  {
    Max(lo, Min(hi, v))
  }

  /** The hit test exactly as written on a distance: `dist - rA - rB < 1`. */
  predicate HitAt(dist: real, ra: real, rb: real) {
    dist - ra - rb < 1.0
  }

  /** The same test on the squared distance, which needs no square root:
      two circles whose centres are (dx, dy) apart count as touching when the
      gap between their rims is below one unit. */
  predicate Overlap(dx: real, dy: real, ra: real, rb: real) {
    dx * dx + dy * dy < (ra + rb + 1.0) * (ra + rb + 1.0)
  }

  /** Whenever the distance is exact (non-negative and squaring to dx²+dy²,
      as `Math.hypot(dx, dy)` is up to rounding), the test on the distance and
      the square-free test agree. */
  lemma HitRule(dist: real, dx: real, dy: real, ra: real, rb: real)
    requires dist >= 0.0 && dist * dist == dx * dx + dy * dy
    requires ra >= 0.0 && rb >= 0.0
    ensures HitAt(dist, ra, rb) <==> Overlap(dx, dy, ra, rb)
  {
    var t := ra + rb + 1.0;
    if dist < t {
      assert dist * dist <= dist * t;
      assert dist * t < t * t;
    } else {
      assert dist * dist >= t * dist;
      assert t * dist >= t * t;
    }
  }
}
