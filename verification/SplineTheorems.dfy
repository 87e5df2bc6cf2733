/** What the fitted curve is. The reference is an independent definition of the natural
    cubic spline (interpolation, continuous velocity and acceleration, free ends). */
module SplineTheorems {
  import opened Tridiagonal
  import opened Trajectories

  function Velocity(seg: Segment, tau: real): real {
    seg.b + 2.0 * seg.c * tau + 3.0 * seg.d * tau * tau
  }

  function Acceleration(seg: Segment, tau: real): real {
    2.0 * seg.c + 6.0 * seg.d * tau
  }

  /** `Velocity` and `Acceleration` are the Taylor coefficients of `Cubic`. */
  lemma TaylorExpansion(seg: Segment, tau: real, e: real)
    ensures Cubic(seg, tau + e)
         == Cubic(seg, tau) + Velocity(seg, tau) * e + Acceleration(seg, tau) / 2.0 * (e * e) + seg.d * (e * e * e)
  {
    var a, b, c, d := seg.a, seg.b, seg.c, seg.d;
    var u := tau + e;
    assert u * u == tau * tau + 2.0 * tau * e + e * e;
    assert u * u * u == (tau * tau + 2.0 * tau * e + e * e) * u;
    assert u * u * u == tau * tau * tau + 3.0 * (tau * tau * e) + 3.0 * (tau * e * e) + e * e * e;
    assert c * (u * u) == c * (tau * tau) + 2.0 * (c * tau * e) + c * (e * e);
    assert d * (u * u * u) == d * (tau * tau * tau) + 3.0 * (d * tau * tau * e) + 3.0 * (d * tau * (e * e)) + d * (e * e * e);
  }

  /** The natural cubic spline through `y` with uniform knot spacing `h`. */
  ghost predicate NaturalSpline(p: seq<Segment>, y: seq<real>, h: real) {
    && 2 <= |y|
    && |p| == |y| - 1
    && (forall i :: 0 <= i < |p| ==> p[i].tStart == Knot(h, i) && p[i].h == h)
    && (forall i :: 0 <= i < |p| ==> Cubic(p[i], 0.0) == y[i] && Cubic(p[i], h) == y[i + 1])
    && (forall i :: 1 <= i < |p| ==> SmoothJoin(p[i - 1], p[i], h))
    && Acceleration(p[0], 0.0) == 0.0
    && Acceleration(p[|p| - 1], h) == 0.0
  }

  predicate SmoothJoin(left: Segment, right: Segment, h: real) {
    && Velocity(left, h) == Velocity(right, 0.0)
    && Acceleration(left, h) == Acceleration(right, 0.0)
  }

  // ----- one segment ----------------------------------------------------------------

  function Bump(s: real, m0: real, m1: real): real {
    s * (1.0 - s) * (m0 * (2.0 - s) + m1 * (1.0 + s))
  }

  /** A segment in the parameter s = tau/h: the chord minus a bump that vanishes at both ends. */
  lemma SegmentForm(t0: real, h: real, y0: real, y1: real, m0: real, m1: real, s: real)
    requires 0.0 < h
    ensures Cubic(SegmentOf(t0, h, y0, y1, m0, m1), s * h) == y0 + (y1 - y0) * s - h * h / 6.0 * Bump(s, m0, m1)
  {
    var tau, g := s * h, 1.0 / h;
    var q := h * h;
    assert g * h == 1.0;
    var b := (y1 - y0) * g - h * (2.0 * m0 + m1) / 6.0;
    assert b * tau == (y1 - y0) * s - q / 6.0 * ((2.0 * m0 + m1) * s) by {
      assert (y1 - y0) * g * tau == (y1 - y0) * s * (g * h);
      assert h * (2.0 * m0 + m1) / 6.0 * tau == q / 6.0 * ((2.0 * m0 + m1) * s);
    }
    assert m0 / 2.0 * tau * tau == q / 6.0 * (3.0 * m0 * s * s);
    var d := (m1 - m0) / (6.0 * h);
    assert d * tau * tau * tau == q / 6.0 * ((m1 - m0) * s * s * s) by {
      DividedBySixth(m1 - m0, h, d);
      assert tau * tau * tau == q * (s * s * s) * h;
      assert d * tau * tau * tau == d * h * (q * (s * s * s));
    }
    BumpExpanded(s, m0, m1);
  }

  lemma DividedBySixth(x: real, h: real, d: real)
    requires 0.0 < h
    requires d == x / (6.0 * h)
    ensures d * h == x / 6.0
  {
    assert d * (6.0 * h) == x;
  }

  lemma BumpExpanded(s: real, m0: real, m1: real)
    ensures Bump(s, m0, m1) == (2.0 * m0 + m1) * s - 3.0 * m0 * s * s - (m1 - m0) * s * s * s
  {
  }

  lemma SegmentEnds(t0: real, h: real, y0: real, y1: real, m0: real, m1: real)
    requires 0.0 < h
    ensures var seg := SegmentOf(t0, h, y0, y1, m0, m1);
            && Cubic(seg, 0.0) == y0 && Cubic(seg, h) == y1
            && Acceleration(seg, 0.0) == m0 && Acceleration(seg, h) == m1
  {
    SegmentForm(t0, h, y0, y1, m0, m1, 1.0);
    DividedBySixth(m1 - m0, h, (m1 - m0) / (6.0 * h));
  }

  lemma SegmentVelocities(t0: real, h: real, y0: real, y1: real, m0: real, m1: real)
    requires 0.0 < h
    ensures var seg := SegmentOf(t0, h, y0, y1, m0, m1);
            && Velocity(seg, 0.0) == (y1 - y0) * (1.0 / h) - h * (2.0 * m0 + m1) / 6.0
            && Velocity(seg, h) == (y1 - y0) * (1.0 / h) + h * (m0 + 2.0 * m1) / 6.0
  {
    var d := (m1 - m0) / (6.0 * h);
    DividedBySixth(m1 - m0, h, d);
    assert 3.0 * d * h * h == (m1 - m0) / 2.0 * h;
  }

  /** Four conditions determine a cubic: its end values and its end accelerations. */
  lemma SegmentDetermined(seg: Segment, h: real)
    requires 0.0 < h
    requires seg.h == h
    ensures seg == SegmentOf(seg.tStart, h, Cubic(seg, 0.0), Cubic(seg, h), Acceleration(seg, 0.0), Acceleration(seg, h))
  {
    var a, b, c, d := seg.a, seg.b, seg.c, seg.d;
    var y0, y1, m0, m1 := Cubic(seg, 0.0), Cubic(seg, h), Acceleration(seg, 0.0), Acceleration(seg, h);
    assert m0 == 2.0 * c && m1 == 2.0 * c + 6.0 * d * h;
    assert (m1 - m0) / (6.0 * h) == d by {
      Cancel(d, 6.0 * h);
      assert d * (6.0 * h) == m1 - m0;
    }
    var chord := b + c * h + d * h * h;
    assert y1 - y0 == chord * h;
    assert (y1 - y0) * (1.0 / h) == chord by {
      Cancel(chord, h);
    }
    assert h * (2.0 * m0 + m1) / 6.0 == c * h + d * h * h;
  }

  lemma Cancel(x: real, k: real)
    requires k > 0.0
    ensures x * k / k == x
    ensures x * k * (1.0 / k) == x
  {
    assert k * (1.0 / k) == 1.0;
    assert x * k * (1.0 / k) == x * (k * (1.0 / k));
  }

  // ----- velocity at the joins --------------------------------------------------------

  function Slope(y: seq<real>, h: real, i: nat): real
    requires 0.0 < h
    requires i + 1 < |y|
  {
    (y[i + 1] - y[i]) * (1.0 / h)
  }

  lemma AlphaIsSlopeDifference(y: seq<real>, h: real, i: nat)
    requires 0.0 < h
    requires 1 <= i < |y| - 1
    ensures Alpha(y, h)[i] == 3.0 * (Slope(y, h, i) - Slope(y, h, i - 1))
  {
    var g, r := 1.0 / h, 3.0 / h;
    assert r == 3.0 * g;
    assert AlphaEntry(h, h, y[i - 1], y[i], y[i + 1]) == r * (y[i + 1] - y[i]) - r * (y[i] - y[i - 1]);
    assert r * (y[i + 1] - y[i]) == 3.0 * ((y[i + 1] - y[i]) * g);
    assert r * (y[i] - y[i - 1]) == 3.0 * ((y[i] - y[i - 1]) * g);
  }

  /** The velocity jump of any spline in moment form. */
  lemma JumpInMomentForm(y: seq<real>, h: real, M: seq<real>, i: nat)
    requires 0.0 < h
    requires |y| == |M|
    requires 1 <= i < |y| - 1
    ensures var p := SegmentsFor(y, h, M);
            Velocity(p[i], 0.0) - Velocity(p[i - 1], h) ==
            Slope(y, h, i) - Slope(y, h, i - 1) - h * Row(M, i) / 6.0
  {
    hide SegmentOf, Velocity;
    SegmentVelocities(Knot(h, i - 1), h, y[i - 1], y[i], M[i - 1], M[i]);
    SegmentVelocities(Knot(h, i), h, y[i], y[i + 1], M[i], M[i + 1]);
    assert SegmentsFor(y, h, M)[i] == SegmentOf(Knot(h, i), h, y[i], y[i + 1], M[i], M[i + 1]);
    assert SegmentsFor(y, h, M)[i - 1] == SegmentOf(Knot(h, i - 1), h, y[i - 1], y[i], M[i - 1], M[i]);
    JumpArithmetic(h, M[i - 1], M[i], M[i + 1]);
  }

  lemma JumpArithmetic(h: real, m0: real, m: real, m1: real)
    ensures h * (2.0 * m + m1) / 6.0 + h * (m0 + 2.0 * m) / 6.0 == h * (m0 + 4.0 * m + m1) / 6.0
  {
  }

  /** The curve the code fits has half the chord's velocity jump at every interior knot. */
  lemma VelocityJump(y: seq<real>, h: real, i: nat)
    requires 0.0 < h
    requires 1 <= i < |y| - 1
    ensures var p := FittedDof(y, h);
            Velocity(p[i], 0.0) - Velocity(p[i - 1], h) == (Slope(y, h, i) - Slope(y, h, i - 1)) / 2.0
  {
    hide Velocity, Moments, Alpha, Row, SegmentsFor;
    var M := Moments(h, Alpha(y, h));
    MomentsSolve(h, Alpha(y, h));
    assert h * Row(M, i) == Alpha(y, h)[i];
    AlphaIsSlopeDifference(y, h, i);
    JumpInMomentForm(y, h, M, i);
  }

  lemma AccelerationJoins(y: seq<real>, h: real, M: seq<real>, i: nat)
    requires 0.0 < h
    requires |y| == |M|
    requires i < |y| - 1
    ensures var p := SegmentsFor(y, h, M);
            && Acceleration(p[i], 0.0) == M[i] && Acceleration(p[i], h) == M[i + 1]
            && Cubic(p[i], 0.0) == y[i] && Cubic(p[i], h) == y[i + 1]
  {
    SegmentEnds(Knot(h, i), h, y[i], y[i + 1], M[i], M[i + 1]);
    assert SegmentsFor(y, h, M)[i] == SegmentOf(Knot(h, i), h, y[i], y[i + 1], M[i], M[i + 1]);
  }

  // ----- the natural spline exists, is unique, and has twice the solved moments ---------

  function Doubled(M: seq<real>): (N: seq<real>)
    ensures |N| == |M|
  {
    seq(|M|, i requires 0 <= i < |M| => 2.0 * M[i])
  }

  function Halved(M: seq<real>): (N: seq<real>)
    ensures |N| == |M|
  {
    seq(|M|, i requires 0 <= i < |M| => M[i] / 2.0)
  }

  function NaturalPieces(y: seq<real>, h: real): (p: seq<Segment>)
    requires 2 <= |y|
    requires 0.0 < h
    ensures |p| == |y| - 1
  {
    SegmentsFor(y, h, Doubled(Moments(h, Alpha(y, h))))
  }

  lemma DoubledRow(h: real, M: seq<real>, i: nat)
    requires 1 <= i < |M| - 1
    ensures Row(Doubled(M), i) == 2.0 * Row(M, i)
    ensures h * Row(Doubled(M), i) == 2.0 * (h * Row(M, i))
  {
    assert h * (2.0 * Row(M, i)) == 2.0 * (h * Row(M, i));
  }

  lemma NaturalJoin(y: seq<real>, h: real, i: nat)
    requires 0.0 < h
    requires 1 <= i < |y| - 1
    ensures var p := NaturalPieces(y, h); SmoothJoin(p[i - 1], p[i], h)
  {
    hide Velocity, Acceleration, Moments, Alpha, Row, SegmentsFor, Doubled, Slope;
    var M := Moments(h, Alpha(y, h));
    MomentsSolve(h, Alpha(y, h));
    assert h * Row(M, i) == Alpha(y, h)[i];
    AlphaIsSlopeDifference(y, h, i);
    DoubledRow(h, M, i);
    JumpInMomentForm(y, h, Doubled(M), i);
    AccelerationJoins(y, h, Doubled(M), i - 1);
    AccelerationJoins(y, h, Doubled(M), i);
  }

  lemma NaturalPiecesAreNatural(y: seq<real>, h: real)
    requires 2 <= |y|
    requires 0.0 < h
    ensures NaturalSpline(NaturalPieces(y, h), y, h)
  {
    hide Velocity, Acceleration, Moments, Alpha, Row, SmoothJoin, Cubic;
    var p, M := NaturalPieces(y, h), Moments(h, Alpha(y, h));
    MomentsSolve(h, Alpha(y, h));
    assert M[0] == 0.0 && M[|y| - 1] == 0.0;
    forall i | 0 <= i < |p|
      ensures Cubic(p[i], 0.0) == y[i] && Cubic(p[i], h) == y[i + 1]
      ensures p[i].tStart == Knot(h, i) && p[i].h == h
      ensures Acceleration(p[i], 0.0) == Doubled(M)[i] && Acceleration(p[i], h) == Doubled(M)[i + 1]
    {
      AccelerationJoins(y, h, Doubled(M), i);
    }
    forall i | 1 <= i < |p|
      ensures SmoothJoin(p[i - 1], p[i], h)
    {
      NaturalJoin(y, h, i);
    }
  }

  /** The moments of a natural spline, read off its pieces. */
  function EndAccelerations(p: seq<Segment>): (N: seq<real>)
    ensures |N| == |p| + 1
  {
    seq(|p| + 1, i requires 0 <= i <= |p| => if i < |p| then Acceleration(p[i], 0.0) else 0.0)
  }

  lemma NaturalInMomentForm(p: seq<Segment>, y: seq<real>, h: real)
    requires 0.0 < h
    requires NaturalSpline(p, y, h)
    ensures p == SegmentsFor(y, h, EndAccelerations(p))
  {
    hide Cubic, Acceleration, SegmentOf, Velocity, Knot, SmoothJoin;
    var N := EndAccelerations(p);
    forall i | 0 <= i < |p|
      ensures p[i] == SegmentsFor(y, h, N)[i]
    {
      NaturalEnds(p, y, h, i);
      SegmentDetermined(p[i], h);
    }
  }

  lemma NaturalEnds(p: seq<Segment>, y: seq<real>, h: real, i: nat)
    requires NaturalSpline(p, y, h)
    requires i < |p|
    ensures p[i].tStart == Knot(h, i) && p[i].h == h
    ensures Cubic(p[i], 0.0) == y[i] && Cubic(p[i], h) == y[i + 1]
    ensures Acceleration(p[i], 0.0) == EndAccelerations(p)[i]
    ensures Acceleration(p[i], h) == EndAccelerations(p)[i + 1]
  {
    hide Cubic, Acceleration, Velocity, Knot;
    if i + 1 < |p| {
      assert SmoothJoin(p[i + 1 - 1], p[i + 1], h);
    }
  }

  lemma HalfSolves(h: real, row: real, alpha: real, half: real)
    requires h * row / 6.0 == alpha / 3.0
    requires half == row / 2.0
    ensures h * half == alpha
  {
  }

  lemma HalvedRow(N: seq<real>, i: nat)
    requires 1 <= i < |N| - 1
    ensures Row(Halved(N), i) == Row(N, i) / 2.0
  {
  }

  lemma HalfAccelerationsSolve(p: seq<Segment>, y: seq<real>, h: real)
    requires 0.0 < h
    requires NaturalSpline(p, y, h)
    ensures Solves(h, Alpha(y, h), Halved(EndAccelerations(p)))
  {
    hide Cubic, Acceleration, SegmentOf, Velocity, Knot, Alpha, Row, SegmentsFor;
    var N := EndAccelerations(p);
    NaturalInMomentForm(p, y, h);
    forall i | 1 <= i < |y| - 1
      ensures h * Row(Halved(N), i) == Alpha(y, h)[i]
    {
      assert SmoothJoin(p[i - 1], p[i], h);
      JumpInMomentForm(y, h, N, i);
      AlphaIsSlopeDifference(y, h, i);
      HalvedRow(N, i);
      HalfSolves(h, Row(N, i), Alpha(y, h)[i], Row(Halved(N), i));
    }
  }

  /** There is exactly one natural cubic spline, with twice the moments the code solves for. */
  lemma NaturalSplineUnique(p: seq<Segment>, y: seq<real>, h: real)
    requires 2 <= |y|
    requires 0.0 < h
    ensures NaturalSpline(p, y, h) <==> p == NaturalPieces(y, h)
  {
    hide Moments, Alpha, NaturalSpline, SegmentsFor, Solves, Acceleration;
    NaturalPiecesAreNatural(y, h);
    if NaturalSpline(p, y, h) {
      var N := EndAccelerations(p);
      HalfAccelerationsSolve(p, y, h);
      UniqueSolution(h, Alpha(y, h), Halved(N));
      NaturalInMomentForm(p, y, h);
      assert |p| == |y| - 1 by {
        SizeOf(p, y, h);
      }
      assert N == Doubled(Halved(N));
    }
  }

  lemma SizeOf(p: seq<Segment>, y: seq<real>, h: real)
    requires NaturalSpline(p, y, h)
    ensures |p| == |y| - 1
  {
  }
}
