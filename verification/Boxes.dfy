/** Axis-aligned boxes: the overlap and distance formulas of the kernels. Distances are squared,
    which keeps their order and zero. */
module Boxes {

  datatype Vec = Vec(x: real, y: real, z: real)
  datatype Aabb = Aabb(min: Vec, max: Vec)

  function Max(a: real, b: real): real {
    if a < b then b else a
  }

  function Min(a: real, b: real): real {
    if b < a then b else a
  }

  predicate Overlap(a: Aabb, b: Aabb) {
    && a.min.x <= b.max.x && a.max.x >= b.min.x
    && a.min.y <= b.max.y && a.max.y >= b.min.y
    && a.min.z <= b.max.z && a.max.z >= b.min.z
  }

  /** Gap between the intervals [lo1, hi1] and [lo2, hi2] on one axis. */
  function Gap(lo1: real, hi1: real, lo2: real, hi2: real): real {
    Max(0.0, Max(lo1, lo2) - Min(hi1, hi2))
  }

  function Times(x: real, y: real): real {
    x * y
  }

  function Square(x: real): real {
    Times(x, x)
  }

  function SquaredNorm(dx: real, dy: real, dz: real): real {
    Square(dx) + Square(dy) + Square(dz)
  }

  function BoxDistance(a: Aabb, b: Aabb): real {
    SquaredNorm(Gap(a.min.x, a.max.x, b.min.x, b.max.x),
                Gap(a.min.y, a.max.y, b.min.y, b.max.y),
                Gap(a.min.z, a.max.z, b.min.z, b.max.z))
  }

  predicate Valid(a: Aabb) {
    a.min.x <= a.max.x && a.min.y <= a.max.y && a.min.z <= a.max.z
  }

  predicate Inside(p: Vec, a: Aabb) {
    && a.min.x <= p.x <= a.max.x
    && a.min.y <= p.y <= a.max.y
    && a.min.z <= p.z <= a.max.z
  }

  function PointDistance(p: Vec, q: Vec): real {
    SquaredNorm(p.x - q.x, p.y - q.y, p.z - q.z)
  }

  // ----- the formula is the distance of the boxes --------------------------------------------

  lemma TimesPositive(x: real, y: real)
    requires 0.0 < x && 0.0 < y
    ensures 0.0 < Times(x, y)
  {
  }

  lemma TimesZero(x: real, y: real)
    requires x == 0.0 || y == 0.0
    ensures Times(x, y) == 0.0
  {
  }

  lemma TimesNegated(x: real, y: real)
    ensures Times(-x, -y) == Times(x, y)
  {
  }

  lemma TimesOrder(a: real, b: real, c: real)
    requires a <= b && 0.0 <= c
    ensures Times(a, c) <= Times(b, c)
    ensures Times(c, a) <= Times(c, b)
  {
    assert (b - a) * c >= 0.0;
  }

  lemma SquareFacts(x: real)
    ensures Square(x) >= 0.0
    ensures Square(x) == 0.0 <==> x == 0.0
    ensures Square(-x) == Square(x)
  {
    hide Times;
    TimesNegated(x, x);
    if x < 0.0 {
      TimesPositive(-x, -x);
    } else if x > 0.0 {
      TimesPositive(x, x);
    } else {
      TimesZero(x, x);
    }
  }

  lemma SquareBound(g: real, d: real)
    requires 0.0 <= g
    requires g <= d || d <= -g
    ensures Square(g) <= Square(d)
  {
    hide Times;
    var e := if d < 0.0 then -d else d;
    TimesOrder(g, e, g);
    TimesOrder(g, e, e);
    SquareFacts(d);
  }

  lemma AxisLowerBound(lo1: real, hi1: real, lo2: real, hi2: real, p: real, q: real)
    requires lo1 <= p <= hi1 && lo2 <= q <= hi2
    ensures Square(Gap(lo1, hi1, lo2, hi2)) <= Square(p - q)
  {
    hide Square;
    SquareBound(Gap(lo1, hi1, lo2, hi2), p - q);
  }

  /** No two points of the boxes are closer than the formula says. */
  lemma BoxDistanceIsLowerBound(a: Aabb, b: Aabb, p: Vec, q: Vec)
    requires Inside(p, a) && Inside(q, b)
    ensures BoxDistance(a, b) <= PointDistance(p, q)
  {
    hide Gap, Square;
    AxisLowerBound(a.min.x, a.max.x, b.min.x, b.max.x, p.x, q.x);
    AxisLowerBound(a.min.y, a.max.y, b.min.y, b.max.y, p.y, q.y);
    AxisLowerBound(a.min.z, a.max.z, b.min.z, b.max.z, p.z, q.z);
  }

  /** Closest coordinates of two non-empty intervals. */
  function Nearest(lo1: real, hi1: real, lo2: real, hi2: real): (c: (real, real))
    requires lo1 <= hi1 && lo2 <= hi2
    ensures lo1 <= c.0 <= hi1 && lo2 <= c.1 <= hi2
    ensures c.0 - c.1 == Gap(lo1, hi1, lo2, hi2) || c.1 - c.0 == Gap(lo1, hi1, lo2, hi2)
  {
    if hi1 < lo2 then (hi1, lo2)
    else if hi2 < lo1 then (lo1, hi2)
    else (Max(lo1, lo2), Max(lo1, lo2))
  }

  /** And for non-empty boxes some two points are exactly that close: the bound is the distance. */
  lemma BoxDistanceIsAttained(a: Aabb, b: Aabb) returns (p: Vec, q: Vec)
    requires Valid(a) && Valid(b)
    ensures Inside(p, a) && Inside(q, b)
    ensures PointDistance(p, q) == BoxDistance(a, b)
  {
    hide Gap, SquaredNorm, Nearest;
    var x := Nearest(a.min.x, a.max.x, b.min.x, b.max.x);
    var y := Nearest(a.min.y, a.max.y, b.min.y, b.max.y);
    var z := Nearest(a.min.z, a.max.z, b.min.z, b.max.z);
    p, q := Vec(x.0, y.0, z.0), Vec(x.1, y.1, z.1);
    SameNorm(p.x - q.x, p.y - q.y, p.z - q.z,
             Gap(a.min.x, a.max.x, b.min.x, b.max.x),
             Gap(a.min.y, a.max.y, b.min.y, b.max.y),
             Gap(a.min.z, a.max.z, b.min.z, b.max.z));
  }

  lemma SameNorm(dx: real, dy: real, dz: real, gx: real, gy: real, gz: real)
    requires (dx == gx || -dx == gx) && (dy == gy || -dy == gy) && (dz == gz || -dz == gz)
    ensures SquaredNorm(dx, dy, dz) == SquaredNorm(gx, gy, gz)
  {
    hide Square;
    SquareFacts(dx);
    SquareFacts(dy);
    SquareFacts(dz);
  }

  lemma SquaresVanish(x: real, y: real, z: real)
    ensures SquaredNorm(x, y, z) == 0.0 <==> x == 0.0 && y == 0.0 && z == 0.0
  {
    hide Square;
    SquareFacts(x);
    SquareFacts(y);
    SquareFacts(z);
  }

  lemma GapVanishes(lo1: real, hi1: real, lo2: real, hi2: real)
    requires lo1 <= hi1 && lo2 <= hi2
    ensures Gap(lo1, hi1, lo2, hi2) == 0.0 <==> lo1 <= hi2 && hi1 >= lo2
  {
  }

  /** For non-empty boxes the distance is zero exactly when the overlap test holds, and exactly
      when the boxes share a point. */
  lemma ZeroExactlyWhenOverlapping(a: Aabb, b: Aabb)
    requires Valid(a) && Valid(b)
    ensures BoxDistance(a, b) == 0.0 <==> Overlap(a, b)
    ensures Overlap(a, b) <==> exists p :: Inside(p, a) && Inside(p, b)
  {
    hide Gap, SquaredNorm;
    GapVanishes(a.min.x, a.max.x, b.min.x, b.max.x);
    GapVanishes(a.min.y, a.max.y, b.min.y, b.max.y);
    GapVanishes(a.min.z, a.max.z, b.min.z, b.max.z);
    SquaresVanish(Gap(a.min.x, a.max.x, b.min.x, b.max.x),
                  Gap(a.min.y, a.max.y, b.min.y, b.max.y),
                  Gap(a.min.z, a.max.z, b.min.z, b.max.z));
    SharedPoint(a, b);
  }

  lemma SharedPoint(a: Aabb, b: Aabb)
    requires Valid(a) && Valid(b)
    ensures Overlap(a, b) <==> exists p :: Inside(p, a) && Inside(p, b)
  {
    if Overlap(a, b) {
      var p := Vec(Max(a.min.x, b.min.x), Max(a.min.y, b.min.y), Max(a.min.z, b.min.z));
      assert Inside(p, a) && Inside(p, b);
    }
  }
}
