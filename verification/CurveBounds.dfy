/** How far the fitted curve can stray from the waypoints, and how far one waypoint is felt. */
module CurveBounds {
  import opened Tridiagonal
  import opened Trajectories
  import opened SplineTheorems
  import opened CurveTheorems

  /** `bound` dominates every second difference of the waypoints. */
  ghost predicate BendsAtMost(y: seq<real>, bound: real) {
    0.0 <= bound && forall i :: 1 <= i < |y| - 1 ==> Abs(SecondDifference(y, i)) <= bound
  }

  lemma AbsProduct(x: real, y: real)
    ensures Abs(x * y) == Abs(x) * Abs(y)
  {
    if x >= 0.0 {
      if y >= 0.0 { assert x * y >= 0.0; } else { assert x * (-y) >= 0.0; assert x * y == -(x * (-y)); }
    } else {
      if y >= 0.0 {
        assert (-x) * y >= 0.0;
        assert x * y == -((-x) * y);
      } else {
        assert (-x) * (-y) >= 0.0;
        assert x * y == (-x) * (-y);
      }
    }
  }

  lemma AlphaBound(y: seq<real>, h: real, i: nat, bound: real)
    requires 0.0 < h
    requires 1 <= i < |y| - 1
    requires Abs(SecondDifference(y, i)) <= bound
    ensures Abs(Alpha(y, h)[i]) <= 3.0 * bound / h
  {
    hide Alpha, Slope, SecondDifference;
    AlphaIsSlopeDifference(y, h, i);
    SlopeDifference(y, h, i);
    var a := Alpha(y, h)[i];
    assert a * h == 3.0 * SecondDifference(y, i);
    AbsProduct(a, h);
    DivideBound(Abs(a), h, 3.0 * bound);
  }

  lemma DivideBound(x: real, h: real, b: real)
    requires 0.0 < h
    requires x * h <= b
    ensures x <= b / h
  {
    var q := b / h;
    assert q * h == b;
    if x > q { assert (x - q) * h > 0.0; }
  }

  lemma ClearDenominator(h: real, x: real, b: real)
    requires 0.0 < h
    requires 2.0 * h * x <= 3.0 * b / h
    ensures h * h * x <= 1.5 * b
  {
    var q := 3.0 * b / h;
    assert q * h == 3.0 * b;
    assert (q - 2.0 * h * x) * h >= 0.0;
    assert 2.0 * h * x * h == 2.0 * (h * h * x);
  }

  /** Scaled by the squared spacing, the moments are bounded by the waypoints alone. */
  lemma ScaledMomentBound(y: seq<real>, h: real, bound: real)
    requires 2 <= |y| && 0.0 < h
    requires BendsAtMost(y, bound)
    ensures forall i :: 0 <= i < |y| ==> h * h * Abs(Moments(h, Alpha(y, h))[i]) <= 1.5 * bound
  {
    hide Alpha, Moments, SecondDifference, Solves, Abs;
    var alpha := Alpha(y, h);
    var M := Moments(h, alpha);
    forall i | 1 <= i < |alpha|
      ensures Abs(alpha[i]) <= 3.0 * bound / h
    {
      AlphaBound(y, h, i, bound);
    }
    MomentsSolve(h, alpha);
    assert 0.0 <= 3.0 * bound / h;
    MomentBound(h, alpha, M, 3.0 * bound / h);
    forall i | 0 <= i < |y|
      ensures h * h * Abs(M[i]) <= 1.5 * bound
    {
      ClearDenominator(h, Abs(M[i]), bound);
    }
  }

  lemma NonNegativeProduct(x: real, y: real)
    requires 0.0 <= x && 0.0 <= y
    ensures 0.0 <= x * y
  {
  }

  lemma StrictScale(h: real, x: real, y: real)
    requires 0.0 < h
    ensures x < y ==> x * h < y * h
  {
    if x < y { assert (y - x) * h > 0.0; }
  }

  lemma QuarterBound(s: real)
    requires 0.0 <= s <= 1.0
    ensures 0.0 <= s * (1.0 - s) <= 0.25
  {
    NonNegativeProduct(s, 1.0 - s);
    if s >= 0.5 { NonNegativeProduct(s - 0.5, s - 0.5); } else { NonNegativeProduct(0.5 - s, 0.5 - s); }
  }

  lemma WeightedBound(s: real, m0: real, m1: real, b: real)
    requires 0.0 <= s <= 1.0
    requires Abs(m0) <= b && Abs(m1) <= b
    ensures Abs(m0 * (2.0 - s) + m1 * (1.0 + s)) <= 3.0 * b
  {
    NonNegativeProduct(b - m0, 2.0 - s);
    NonNegativeProduct(b + m0, 2.0 - s);
    NonNegativeProduct(b - m1, 1.0 + s);
    NonNegativeProduct(b + m1, 1.0 + s);
  }

  lemma BumpBound(s: real, m0: real, m1: real, b: real)
    requires 0.0 <= s <= 1.0
    requires Abs(m0) <= b && Abs(m1) <= b
    ensures Abs(Bump(s, m0, m1)) <= 0.75 * b
  {
    hide Abs;
    QuarterBound(s);
    WeightedBound(s, m0, m1, b);
    var p, x := s * (1.0 - s), m0 * (2.0 - s) + m1 * (1.0 + s);
    AbsProduct(p, x);
    AbsFacts(x);
    AbsFacts(p);
    ProductBound(p, Abs(x), 0.25, 3.0 * b);
    assert Bump(s, m0, m1) == p * x;
  }

  lemma AbsFacts(x: real)
    ensures Abs(x) >= 0.0
    ensures x >= 0.0 ==> Abs(x) == x
  {
  }

  lemma ProductBound(p: real, x: real, pMax: real, xMax: real)
    requires 0.0 <= p <= pMax
    requires 0.0 <= x <= xMax
    ensures p * x <= pMax * xMax
  {
    assert p * (xMax - x) >= 0.0;
    assert (pMax - p) * xMax >= 0.0;
  }

  lemma SegmentExcursion(t0: real, h: real, y0: real, y1: real, m0: real, m1: real, tau: real, bound: real)
    requires 0.0 < h
    requires 0.0 <= tau <= h
    requires h * h * Abs(m0) <= 1.5 * bound
    requires h * h * Abs(m1) <= 1.5 * bound
    ensures Abs(Cubic(SegmentOf(t0, h, y0, y1, m0, m1), tau) - Chord(y0, y1, tau / h)) <= 3.0 / 16.0 * bound
  {
    hide Bump, Cubic, SegmentOf, Abs;
    var s, q := tau / h, h * h;
    FractionOf(h, tau);
    assert s * h == tau;
    UnitFraction(h, s, tau);
    SegmentForm(t0, h, y0, y1, m0, m1, s);
    var m := if Abs(m0) < Abs(m1) then Abs(m1) else Abs(m0);
    BumpBound(s, m0, m1, m);
    var b := Bump(s, m0, m1);
    AbsProduct(q, b);
    AbsFacts(q);
    AbsFacts(b);
    assert q >= 0.0;
    ProductBound(q, Abs(b), q, 0.75 * m);
    ScaledAbs(q, b, q * Abs(b), 0.75 * 1.5 * bound) by {
      assert q * (0.75 * m) == 0.75 * (q * m);
    }
    var gap := Cubic(SegmentOf(t0, h, y0, y1, m0, m1), tau) - Chord(y0, y1, s);
    assert gap == -(q / 6.0 * b);
  }

  lemma UnitFraction(h: real, s: real, tau: real)
    requires 0.0 < h
    requires s * h == tau
    requires 0.0 <= tau <= h
    ensures 0.0 <= s <= 1.0
  {
    StrictScale(h, s, 0.0);
    StrictScale(h, 1.0, s);
  }

  lemma ScaledAbs(q: real, b: real, qb: real, limit: real)
    requires Abs(q * b) == qb
    requires qb <= limit
    ensures Abs(-(q / 6.0 * b)) <= limit / 6.0
  {
    assert q / 6.0 * b == q * b / 6.0;
  }

  lemma DofExcursion(y: seq<real>, h: real, u: real, bound: real)
    requires 2 <= |y| && 0.0 < h
    requires 0.0 <= u <= Knot(h, |y| - 1)
    requires BendsAtMost(y, bound)
    ensures Abs(CurveAt(FittedDof(y, h), h, u) - ChordAt(y, h, u)) <= 3.0 / 16.0 * bound
  {
    hide PieceOf, Knot, Cubic, SegmentOf, Moments, Alpha, Chord, Abs, BendsAtMost;
    var M := Moments(h, Alpha(y, h));
    var k := PieceOf(h, |y| - 1, u);
    PieceBounds(h, |y| - 1, u);
    NextKnot(h, k);
    ScaledMomentBound(y, h, bound);
    assert FittedDof(y, h)[k] == SegmentOf(Knot(h, k), h, y[k], y[k + 1], M[k], M[k + 1]);
    SegmentExcursion(Knot(h, k), h, y[k], y[k + 1], M[k], M[k + 1], u - Knot(h, k), bound);
  }

  lemma ChordInside(y: seq<real>, h: real, u: real, lo: real, hi: real)
    requires 2 <= |y| && 0.0 < h
    requires 0.0 <= u <= Knot(h, |y| - 1)
    requires forall i :: 0 <= i < |y| ==> lo <= y[i] <= hi
    ensures lo <= ChordAt(y, h, u) <= hi
  {
    hide PieceOf, Knot;
    var k := PieceOf(h, |y| - 1, u);
    PieceBounds(h, |y| - 1, u);
    NextKnot(h, k);
    var tau := u - Knot(h, k);
    FractionOf(h, tau);
    UnitFraction(h, tau / h, tau);
    Convex(y[k], y[k + 1], tau / h, lo, hi);
  }

  lemma Convex(a: real, b: real, s: real, lo: real, hi: real)
    requires 0.0 <= s <= 1.0
    requires lo <= a <= hi && lo <= b <= hi
    ensures lo <= Chord(a, b, s) <= hi
  {
    NonNegativeProduct(1.0 - s, a - lo);
    NonNegativeProduct(s, b - lo);
    NonNegativeProduct(1.0 - s, hi - a);
    NonNegativeProduct(s, hi - b);
  }

  lemma ClampedTime(waypoints: seq<seq<real>>, durationS: real, t: real)
    requires 2 <= |waypoints| && waypoints[0] != [] && Fittable(waypoints, durationS)
    ensures 0.0 <= Clamp(t, durationS) <= Knot(Spacing(durationS, |waypoints| - 1), |waypoints| - 1)
  {
    LastKnot(durationS, |waypoints| - 1);
  }

  /** At every time the curve stays within 3/16 of the largest second difference of the
      straight-line interpolant, whatever the duration. */
  lemma Excursion(waypoints: seq<seq<real>>, durationS: real, t: real, j: nat, bound: real)
    requires 2 <= |waypoints| && waypoints[0] != [] && Fittable(waypoints, durationS)
    requires j < |waypoints[0]|
    requires BendsAtMost(Column(waypoints, j), bound)
    ensures Evaluable(Fitted(waypoints, durationS))
    ensures var h := Spacing(durationS, |waypoints| - 1);
            var u := if t < 0.0 then 0.0 else if durationS < t then durationS else t;
            Abs(Evaluated(Fitted(waypoints, durationS), t)[j] - ChordAt(Column(waypoints, j), h, u)) <= 3.0 / 16.0 * bound
  {
    hide Evaluated, Fitted, CurveAt, ChordAt, BendsAtMost, FittedDof, Abs, Knot;
    var h := Spacing(durationS, |waypoints| - 1);
    EvaluatedDof(waypoints, durationS, t, j);
    ClampedTime(waypoints, durationS, t);
    DofExcursion(Column(waypoints, j), h, Clamp(t, durationS), bound);
  }

  /** Waypoints inside a box shrunk by that margin keep the whole trajectory inside the box. */
  lemma StaysInBox(waypoints: seq<seq<real>>, durationS: real, t: real, j: nat, bound: real, lo: real, hi: real)
    requires 2 <= |waypoints| && waypoints[0] != [] && Fittable(waypoints, durationS)
    requires j < |waypoints[0]|
    requires BendsAtMost(Column(waypoints, j), bound)
    requires forall i :: 0 <= i < |waypoints| ==> lo + 3.0 / 16.0 * bound <= waypoints[i][j] <= hi - 3.0 / 16.0 * bound
    ensures Evaluable(Fitted(waypoints, durationS))
    ensures lo <= Evaluated(Fitted(waypoints, durationS), t)[j] <= hi
  {
    hide Evaluated, Fitted, CurveAt, ChordAt, BendsAtMost, FittedDof, Knot;
    var h := Spacing(durationS, |waypoints| - 1);
    var margin := 3.0 / 16.0 * bound;
    Excursion(waypoints, durationS, t, j, bound);
    ClampedTime(waypoints, durationS, t);
    ChordInside(Column(waypoints, j), h, Clamp(t, durationS), lo + margin, hi - margin);
  }

  // ----- locality -------------------------------------------------------------------------

  lemma AlphaAgrees(y: seq<real>, w: seq<real>, h: real, k: nat, i: nat)
    requires |y| == |w| && 0.0 < h
    requires forall r :: 0 <= r < |y| && r != k ==> y[r] == w[r]
    requires 1 <= i < |y| - 1
    requires i + 1 < k || k + 1 < i
    ensures Alpha(y, h)[i] == Alpha(w, h)[i]
  {
    hide Alpha, AlphaEntry;
    AlphaAt(y, h, i);
    AlphaAt(w, h, i);
  }

  /** Moving one waypoint k changes the moments by a factor of at most 2/7 per knot away
      from its left neighbour. */
  lemma LocalOnTheLeft(y: seq<real>, w: seq<real>, h: real, k: nat, i: nat)
    requires 2 <= |y| == |w| && 0.0 < h
    requires 1 <= k < |y|
    requires forall r :: 0 <= r < |y| && r != k ==> y[r] == w[r]
    requires i <= k - 1
    ensures var M, N := Moments(h, Alpha(y, h)), Moments(h, Alpha(w, h));
            Abs(M[i] - N[i]) <= Power(2.0 / 7.0, k - 1 - i) * Abs(M[k - 1] - N[k - 1])
  {
    hide Moments, Alpha, Solves, Power, Abs;
    var alpha, beta := Alpha(y, h), Alpha(w, h);
    MomentsSolve(h, alpha);
    MomentsSolve(h, beta);
    forall r | 1 <= r < k - 1
      ensures alpha[r] == beta[r]
    {
      AlphaAgrees(y, w, h, k, r);
    }
    LeftLocality(h, alpha, beta, Moments(h, alpha), Moments(h, beta), k - 1, i);
  }

  /** The same on the right, by reversing the waypoints. */
  lemma LocalOnTheRight(y: seq<real>, w: seq<real>, h: real, k: nat, i: nat)
    requires 2 <= |y| == |w| && 0.0 < h
    requires forall r :: 0 <= r < |y| && r != k ==> y[r] == w[r]
    requires k + 1 <= i < |y|
    ensures var M, N := Moments(h, Alpha(y, h)), Moments(h, Alpha(w, h));
            Abs(M[i] - N[i]) <= Power(2.0 / 7.0, i - (k + 1)) * Abs(M[k + 1] - N[k + 1])
  {
    hide Moments, Alpha, Power, Abs;
    var n := |y| - 1;
    ReversedMoments(y, h);
    ReversedMoments(w, h);
    LocalOnTheLeft(Reverse(y), Reverse(w), h, n - k, n - i);
  }
}
