/** Whole-curve theorems about `eval(fitCubicSpline(waypoints, T), t)`. */
module CurveTheorems {
  import opened Tridiagonal
  import opened Trajectories
  import opened SplineTheorems

  // ----- which segment -----------------------------------------------------------------

  /** The segment whose half-open time interval holds u; the last one takes its end too. */
  function PieceOf(h: real, n: nat, u: real): (k: nat)
    requires 0.0 < h
    requires 1 <= n
    ensures k < n
  {
    var f := (u / h).Floor;
    if f < 0 then 0 else if f >= n then n - 1 else f
  }

  lemma KnotOrder(h: real, i: int, u: real)
    requires 0.0 < h
    ensures Knot(h, i) <= u <==> i as real <= u / h
  {
    var x, y := i as real, u / h;
    assert y * h == u;
    assert h * x - u == h * (x - y);
    if x <= y { assert h * (y - x) >= 0.0; } else { assert h * (x - y) > 0.0; }
  }

  lemma KnotMonotone(h: real, i: int, j: int)
    requires 0.0 < h
    requires i <= j
    ensures Knot(h, i) <= Knot(h, j)
    ensures i < j ==> Knot(h, i) < Knot(h, j)
  {
    var x, y := i as real, j as real;
    assert h * y - h * x == h * (y - x);
    assert h * (y - x) >= 0.0;
    if i < j { assert h * (y - x) > 0.0; }
  }

  lemma PieceBounds(h: real, n: nat, u: real)
    requires 0.0 < h
    requires 1 <= n
    requires 0.0 <= u <= Knot(h, n)
    ensures var k := PieceOf(h, n, u);
            && Knot(h, k) <= u <= Knot(h, k + 1)
            && (u < Knot(h, k + 1) || k == n - 1)
  {
    hide Knot;
    var k := PieceOf(h, n, u);
    var f := (u / h).Floor;
    ZeroKnot(h);
    KnotOrder(h, 0, u);
    KnotOrder(h, k, u);
    KnotOrder(h, k + 1, u);
    assert f as real <= u / h < (f + 1) as real;
  }

  lemma ZeroKnot(h: real)
    ensures Knot(h, 0) == 0.0
  {
  }

  /** Half-open intervals do not overlap, so the choice is the only one possible. */
  lemma PieceUnique(h: real, n: nat, u: real, k: nat)
    requires 0.0 < h
    requires k < n
    requires Knot(h, k) <= u < Knot(h, k + 1)
    ensures PieceOf(h, n, u) == k
  {
    hide Knot;
    KnotOrder(h, k, u);
    KnotOrder(h, k + 1, u);
    assert k as real <= u / h < (k + 1) as real;
  }

  /** The search loop of `eval` stops at exactly that segment. */
  lemma {:induction false} SearchFinds(segments: seq<Segment>, h: real, u: real, i: nat)
    requires 0.0 < h
    requires segments != []
    requires forall k :: 0 <= k < |segments| ==> segments[k].tStart == Knot(h, k)
    requires 0.0 <= u <= Knot(h, |segments|)
    requires i <= PieceOf(h, |segments|, u)
    ensures SegmentIndex(segments, |segments|, u, i) == PieceOf(h, |segments|, u)
    decreases |segments| - i
  {
    hide Knot, PieceOf;
    var n := |segments|;
    var k := PieceOf(h, n, u);
    PieceBounds(h, n, u);
    if i < k {
      KnotMonotone(h, i + 1, k);
      assert !Holds(segments, n, u, i);
      SearchFinds(segments, h, u, i + 1);
    } else {
      assert Holds(segments, n, u, i);
    }
  }

  // ----- one degree of freedom ---------------------------------------------------------

  function CurveAt(p: seq<Segment>, h: real, u: real): real
    requires 0.0 < h
    requires p != []
  {
    var k := PieceOf(h, |p|, u);
    Cubic(p[k], u - Knot(h, k))
  }

  /** The piecewise-linear interpolant of the same waypoints. */
  function ChordAt(y: seq<real>, h: real, u: real): real
    requires 0.0 < h
    requires 2 <= |y|
  {
    var k := PieceOf(h, |y| - 1, u);
    Chord(y[k], y[k + 1], (u - Knot(h, k)) / h)
  }

  function Chord(y0: real, y1: real, s: real): real {
    y0 + (y1 - y0) * s
  }

  lemma FittedEvaluable(waypoints: seq<seq<real>>, durationS: real)
    requires Fittable(waypoints, durationS)
    ensures Evaluable(Fitted(waypoints, durationS))
  {
  }

  /** Before its start a trajectory is evaluated at its start, after its end at its end; without
      segments every component is zero. */
  lemma EvaluatedOutside(traj: Trajectory, t: real)
    requires Evaluable(traj)
    ensures t <= 0.0 ==> Evaluated(traj, t) == Evaluated(traj, 0.0)
    ensures traj.durationS <= t ==> Evaluated(traj, t) == Evaluated(traj, traj.durationS)
    ensures traj.segments == [] || traj.segments[0] == [] ==>
      forall j :: 0 <= j < traj.numDofs ==> Evaluated(traj, t)[j] == 0.0
  {
    assert t <= 0.0 ==> Clamp(t, traj.durationS) == Clamp(0.0, traj.durationS);
    assert traj.durationS <= t ==> Clamp(t, traj.durationS) == Clamp(traj.durationS, traj.durationS);
  }

  lemma FittedStarts(waypoints: seq<seq<real>>, durationS: real)
    requires 2 <= |waypoints| && waypoints[0] != [] && Fittable(waypoints, durationS)
    ensures var h, traj := Spacing(durationS, |waypoints| - 1), Fitted(waypoints, durationS);
            forall i, c :: 0 <= i < |waypoints| - 1 && 0 <= c < |waypoints[0]| ==> traj.segments[c][i].tStart == Knot(h, i)
  {
    hide Knot, SegmentOf, Moments, Alpha;
    var h := Spacing(durationS, |waypoints| - 1);
    forall i, c | 0 <= i < |waypoints| - 1 && 0 <= c < |waypoints[0]|
      ensures Fitted(waypoints, durationS).segments[c][i].tStart == Knot(h, i)
    {
      PieceStart(Column(waypoints, c), h, i);
    }
  }

  /** Every component of `eval` on a fitted trajectory is the curve of that DOF, at the time itself
      inside the duration and at the nearer end outside. */
  lemma EvaluatedDof(waypoints: seq<seq<real>>, durationS: real, t: real, j: nat)
    requires 2 <= |waypoints| && waypoints[0] != [] && Fittable(waypoints, durationS)
    requires j < |waypoints[0]|
    ensures Evaluable(Fitted(waypoints, durationS))
    ensures var h := Spacing(durationS, |waypoints| - 1);
            var u := if t < 0.0 then 0.0 else if durationS < t then durationS else t;
            Evaluated(Fitted(waypoints, durationS), t)[j] == CurveAt(FittedDof(Column(waypoints, j), h), h, u)
  {
    hide Cubic, Knot, SegmentsFor, Moments, Alpha, PieceOf, SegmentIndex, Spacing, Column;
    var n := |waypoints| - 1;
    var h := Spacing(durationS, n);
    var traj := Fitted(waypoints, durationS);
    FittedEvaluable(waypoints, durationS);
    LastKnot(durationS, n);
    FittedStarts(waypoints, durationS);
    SearchFinds(traj.segments[0], h, Clamp(t, durationS), 0);
  }

  lemma LastKnot(durationS: real, n: nat)
    requires 0.0 < durationS
    requires 1 <= n
    ensures Knot(Spacing(durationS, n), n) == durationS
  {
  }

  lemma PieceStart(y: seq<real>, h: real, k: nat)
    requires 2 <= |y| && 0.0 < h
    requires k < |y| - 1
    ensures FittedDof(y, h)[k].tStart == Knot(h, k)
  {
    hide Knot, Moments, Alpha;
  }

  // ----- mean of the chord and the natural spline ---------------------------------------

  lemma FractionOf(h: real, tau: real)
    requires 0.0 < h
    ensures tau / h * h == tau
  {
  }

  lemma DoubledBump(s: real, m0: real, m1: real)
    ensures Bump(s, 2.0 * m0, 2.0 * m1) == 2.0 * Bump(s, m0, m1)
  {
    var x := m0 * (2.0 - s) + m1 * (1.0 + s);
    assert 2.0 * m0 * (2.0 - s) + 2.0 * m1 * (1.0 + s) == 2.0 * x;
    assert s * (1.0 - s) * (2.0 * x) == 2.0 * (s * (1.0 - s) * x);
  }

  lemma SegmentMean(t0: real, h: real, y0: real, y1: real, m0: real, m1: real, tau: real)
    requires 0.0 < h
    ensures Cubic(SegmentOf(t0, h, y0, y1, m0, m1), tau) ==
            (Chord(y0, y1, tau / h) + Cubic(SegmentOf(t0, h, y0, y1, 2.0 * m0, 2.0 * m1), tau)) / 2.0
  {
    hide Bump, Cubic, SegmentOf;
    var s := tau / h;
    FractionOf(h, tau);
    assert s * h == tau;
    SegmentForm(t0, h, y0, y1, m0, m1, s);
    SegmentForm(t0, h, y0, y1, 2.0 * m0, 2.0 * m1, s);
    DoubledBump(s, m0, m1);
    MeanArithmetic(y0 + (y1 - y0) * s, h * h / 6.0, Bump(s, m0, m1));
  }

  lemma MeanArithmetic(chord: real, q: real, b: real)
    ensures chord - q * b == (chord + (chord - q * (2.0 * b))) / 2.0
  {
  }

  lemma DofMean(y: seq<real>, h: real, u: real, natural: seq<Segment>)
    requires 2 <= |y| && 0.0 < h
    requires NaturalSpline(natural, y, h)
    ensures natural != []
    ensures CurveAt(FittedDof(y, h), h, u) == (ChordAt(y, h, u) + CurveAt(natural, h, u)) / 2.0
  {
    hide PieceOf, Knot, Cubic, SegmentOf, SegmentsFor, Moments, Alpha, NaturalSpline, Chord, NaturalPieces;
    NaturalSplineUnique(natural, y, h);
    var M := Moments(h, Alpha(y, h));
    var k := PieceOf(h, |y| - 1, u);
    MomentPieces(y, h, M, k);
    SegmentMean(Knot(h, k), h, y[k], y[k + 1], M[k], M[k + 1], u - Knot(h, k));
  }

  lemma MomentPieces(y: seq<real>, h: real, M: seq<real>, k: nat)
    requires 2 <= |y| && 0.0 < h
    requires M == Moments(h, Alpha(y, h))
    requires k < |y| - 1
    ensures FittedDof(y, h)[k] == SegmentOf(Knot(h, k), h, y[k], y[k + 1], M[k], M[k + 1])
    ensures NaturalPieces(y, h)[k] == SegmentOf(Knot(h, k), h, y[k], y[k + 1], 2.0 * M[k], 2.0 * M[k + 1])
  {
    hide Knot, SegmentOf, Moments, Alpha;
  }

  /** At every time and for every DOF the evaluated curve is the mean of the straight-line
      interpolant and the natural cubic spline (which `NaturalSplineUnique` makes unique). */
  lemma CurveIsMean(waypoints: seq<seq<real>>, durationS: real, t: real, j: nat, natural: seq<Segment>)
    requires 2 <= |waypoints| && waypoints[0] != [] && Fittable(waypoints, durationS)
    requires j < |waypoints[0]|
    requires NaturalSpline(natural, Column(waypoints, j), Spacing(durationS, |waypoints| - 1))
    ensures Evaluable(Fitted(waypoints, durationS)) && natural != []
    ensures var h := Spacing(durationS, |waypoints| - 1);
            var u := if t < 0.0 then 0.0 else if durationS < t then durationS else t;
            Evaluated(Fitted(waypoints, durationS), t)[j] ==
            (ChordAt(Column(waypoints, j), h, u) + CurveAt(natural, h, u)) / 2.0
  {
    hide Evaluated, Fitted, CurveAt, ChordAt, NaturalSpline, FittedDof;
    var h := Spacing(durationS, |waypoints| - 1);
    EvaluatedDof(waypoints, durationS, t, j);
    DofMean(Column(waypoints, j), h, Clamp(t, durationS), natural);
  }

  // ----- interpolation and continuity -----------------------------------------------------

  lemma NextKnot(h: real, i: int)
    ensures Knot(h, i + 1) == Knot(h, i) + h
  {
    KnotGap(h, i);
  }

  lemma LastPiece(h: real, n: nat)
    requires 0.0 < h
    requires 1 <= n
    ensures PieceOf(h, n, Knot(h, n)) == n - 1
  {
    assert Knot(h, n) / h == n as real by {
      Cancel(n as real, h);
    }
  }

  /** At a knot the two adjacent segments agree, so the curve may be read from either. */
  lemma ClosedPiece(y: seq<real>, h: real, u: real, k: nat)
    requires 2 <= |y| && 0.0 < h
    requires k < |y| - 1
    requires Knot(h, k) <= u <= Knot(h, k + 1)
    ensures CurveAt(FittedDof(y, h), h, u) == Cubic(FittedDof(y, h)[k], u - Knot(h, k))
  {
    hide PieceOf, Knot, Cubic, SegmentsFor, Moments, Alpha, Acceleration;
    var n, M := |y| - 1, Moments(h, Alpha(y, h));
    NextKnot(h, k);
    if u < Knot(h, k + 1) {
      PieceUnique(h, n, u, k);
    } else if k == n - 1 {
      LastPiece(h, n);
    } else {
      NextKnot(h, k + 1);
      PieceUnique(h, n, u, k + 1);
      AccelerationJoins(y, h, M, k);
      AccelerationJoins(y, h, M, k + 1);
    }
  }

  lemma CurveAtKnot(y: seq<real>, h: real, i: nat)
    requires 2 <= |y| && 0.0 < h
    requires i < |y|
    ensures CurveAt(FittedDof(y, h), h, Knot(h, i)) == y[i]
  {
    hide PieceOf, Knot, Cubic, SegmentsFor, Moments, Alpha, Acceleration;
    var M := Moments(h, Alpha(y, h));
    var k := if i < |y| - 1 then i else i - 1;
    NextKnot(h, k);
    ClosedPiece(y, h, Knot(h, i), k);
    AccelerationJoins(y, h, M, k);
  }

  /** `eval` at knot i returns waypoint i, for every DOF. */
  lemma PassesThroughWaypoints(waypoints: seq<seq<real>>, durationS: real, i: nat)
    requires 2 <= |waypoints| && waypoints[0] != [] && Fittable(waypoints, durationS)
    requires i < |waypoints|
    ensures Evaluable(Fitted(waypoints, durationS))
    ensures Evaluated(Fitted(waypoints, durationS), Knot(Spacing(durationS, |waypoints| - 1), i))
         == waypoints[i][..|waypoints[0]|]
  {
    hide Evaluated, Knot, FittedDof, CurveAt;
    var n, dofs := |waypoints| - 1, |waypoints[0]|;
    var h := Spacing(durationS, n);
    var t := Knot(h, i);
    ZeroKnot(h);
    KnotMonotone(h, 0, i);
    KnotMonotone(h, i, n);
    LastKnot(durationS, n);
    FittedEvaluable(waypoints, durationS);
    var q := Evaluated(Fitted(waypoints, durationS), t);
    forall j | 0 <= j < dofs
      ensures q[j] == waypoints[i][j]
    {
      EvaluatedDof(waypoints, durationS, t, j);
      CurveAtKnot(Column(waypoints, j), h, i);
    }
    assert |q| == dofs;
  }

  /** Both sides of an interior knot agree in position and acceleration, and differ in
      velocity by half the change of slope. */
  lemma JoinAtKnot(y: seq<real>, h: real, i: nat)
    requires 0.0 < h
    requires 1 <= i < |y| - 1
    ensures var p := FittedDof(y, h);
            && Cubic(p[i - 1], h) == Cubic(p[i], 0.0) == y[i]
            && Acceleration(p[i - 1], h) == Acceleration(p[i], 0.0)
            && Velocity(p[i], 0.0) - Velocity(p[i - 1], h) == (Slope(y, h, i) - Slope(y, h, i - 1)) / 2.0
            && (SmoothJoin(p[i - 1], p[i], h) <==> SecondDifference(y, i) == 0.0)
  {
    hide Cubic, SegmentsFor, Moments, Alpha, Acceleration, Velocity;
    AccelerationJoins(y, h, Moments(h, Alpha(y, h)), i - 1);
    AccelerationJoins(y, h, Moments(h, Alpha(y, h)), i);
    VelocityJump(y, h, i);
    SlopeDifference(y, h, i);
  }

  function SecondDifference(y: seq<real>, i: nat): real
    requires 1 <= i < |y| - 1
  {
    y[i + 1] - 2.0 * y[i] + y[i - 1]
  }

  lemma SlopeDifference(y: seq<real>, h: real, i: nat)
    requires 0.0 < h
    requires 1 <= i < |y| - 1
    ensures (Slope(y, h, i) - Slope(y, h, i - 1)) * h == SecondDifference(y, i)
    ensures Slope(y, h, i) == Slope(y, h, i - 1) <==> SecondDifference(y, i) == 0.0
  {
    Cancel(y[i + 1] - y[i], h);
    Cancel(y[i] - y[i - 1], h);
    var d := Slope(y, h, i) - Slope(y, h, i - 1);
    assert Slope(y, h, i) * h == y[i + 1] - y[i] by {
      Unscale(y[i + 1] - y[i], h);
    }
    assert Slope(y, h, i - 1) * h == y[i] - y[i - 1] by {
      Unscale(y[i] - y[i - 1], h);
    }
    assert d * h == SecondDifference(y, i);
    if d * h == 0.0 { ScaledRowsAgree(h, d, 0.0); }
  }

  lemma Unscale(x: real, h: real)
    requires 0.0 < h
    ensures x * (1.0 / h) * h == x
  {
    assert x * (1.0 / h) * h == x * ((1.0 / h) * h);
  }

  ghost predicate EquallySpaced(y: seq<real>) {
    forall i :: 1 <= i < |y| - 1 ==> SecondDifference(y, i) == 0.0
  }

  /** The fit is documented as a natural cubic spline. It is one exactly when every waypoint
      is the midpoint of its neighbours; otherwise the velocity jumps at some knot. */
  lemma FitIsNaturalSplineWhen(y: seq<real>, h: real)
    requires 2 <= |y|
    requires 0.0 < h
    ensures NaturalSpline(FittedDof(y, h), y, h) <==> EquallySpaced(y)
  {
    hide Cubic, SegmentsFor, Moments, Alpha, Acceleration, Velocity, SmoothJoin, Slope, SecondDifference;
    var p, M := FittedDof(y, h), Moments(h, Alpha(y, h));
    forall i | 1 <= i < |p|
      ensures SmoothJoin(p[i - 1], p[i], h) <==> SecondDifference(y, i) == 0.0
    {
      JoinAtKnot(y, h, i);
    }
    if EquallySpaced(y) {
      forall i | 0 <= i < |p|
        ensures p[i].tStart == Knot(h, i) && p[i].h == h && Cubic(p[i], 0.0) == y[i] && Cubic(p[i], h) == y[i + 1]
      {
        AccelerationJoins(y, h, M, i);
        PieceShape(y, h, M, i);
      }
      MomentsSolve(h, Alpha(y, h));
      AccelerationJoins(y, h, M, 0);
      AccelerationJoins(y, h, M, |p| - 1);
    }
    if NaturalSpline(p, y, h) {
      forall i | 1 <= i < |y| - 1
        ensures SecondDifference(y, i) == 0.0
      {
        assert SmoothJoin(p[i - 1], p[i], h);
      }
    }
  }

  lemma PieceShape(y: seq<real>, h: real, M: seq<real>, i: nat)
    requires |y| == |M| && 2 <= |y| && 0.0 < h
    requires i < |y| - 1
    ensures SegmentsFor(y, h, M)[i].tStart == Knot(h, i) && SegmentsFor(y, h, M)[i].h == h
  {
    hide Knot;
  }

  /** A concrete tent of waypoints on which the fit is not a natural spline. */
  lemma TentIsNotSmooth()
    ensures !NaturalSpline(FittedDof([0.0, 1.0, 0.0], 1.0), [0.0, 1.0, 0.0], 1.0)
  {
    hide FittedDof, NaturalSpline;
    var y := [0.0, 1.0, 0.0];
    FitIsNaturalSplineWhen(y, 1.0);
    assert SecondDifference(y, 1) == -2.0;
  }

  // ----- time reversal ---------------------------------------------------------------------

  lemma FlippedBump(s: real, m0: real, m1: real)
    ensures Bump(1.0 - s, m1, m0) == Bump(s, m0, m1)
  {
    assert (1.0 - s) * (1.0 - (1.0 - s)) == s * (1.0 - s);
    assert m1 * (2.0 - (1.0 - s)) + m0 * (1.0 + (1.0 - s)) == m0 * (2.0 - s) + m1 * (1.0 + s);
  }

  lemma FlippedSegment(t0: real, t1: real, h: real, y0: real, y1: real, m0: real, m1: real, tau: real)
    requires 0.0 < h
    ensures Cubic(SegmentOf(t1, h, y1, y0, m1, m0), h - tau) == Cubic(SegmentOf(t0, h, y0, y1, m0, m1), tau)
  {
    hide Bump, Cubic, SegmentOf;
    var s := tau / h;
    var r := 1.0 - s;
    FractionOf(h, tau);
    assert s * h == tau;
    assert r * h == h - tau;
    SegmentForm(t0, h, y0, y1, m0, m1, s);
    SegmentForm(t1, h, y1, y0, m1, m0, r);
    FlippedBump(s, m0, m1);
    assert y1 + (y0 - y1) * r == y0 + (y1 - y0) * s;
    assert Cubic(SegmentOf(t1, h, y1, y0, m1, m0), r * h) == Cubic(SegmentOf(t0, h, y0, y1, m0, m1), s * h);
  }

  lemma AlphaAt(y: seq<real>, h: real, i: nat)
    requires 0.0 < h
    requires 1 <= i < |y| - 1
    ensures Alpha(y, h)[i] == AlphaEntry(h, h, y[i - 1], y[i], y[i + 1])
  {
    hide AlphaEntry;
  }

  lemma ReversedAlpha(y: seq<real>, h: real, i: nat)
    requires 0.0 < h
    requires 1 <= i < |y| - 1
    ensures Alpha(Reverse(y), h)[i] == Alpha(y, h)[|y| - 1 - i]
  {
    hide AlphaEntry, Alpha, Reverse;
    var n, r := |y| - 1, Reverse(y);
    AlphaAt(r, h, i);
    AlphaAt(y, h, n - i);
    assert r[i - 1] == y[n - i + 1] && r[i] == y[n - i] && r[i + 1] == y[n - i - 1];
    AlphaSwap(h, y[n - i - 1], y[n - i], y[n - i + 1]);
  }

  lemma AlphaSwap(h: real, a: real, b: real, c: real)
    requires 0.0 < h
    ensures AlphaEntry(h, h, a, b, c) == AlphaEntry(h, h, c, b, a)
  {
    var g := 3.0 / h;
    assert g * (c - b) - g * (b - a) == g * (a - b) - g * (b - c);
  }

  /** Sweeping from the other end gives the same moments in reverse. */
  lemma ReversedMoments(y: seq<real>, h: real)
    requires 2 <= |y| && 0.0 < h
    ensures Moments(h, Alpha(Reverse(y), h)) == Reverse(Moments(h, Alpha(y, h)))
  {
    hide Moments, Solves, Alpha;
    var alpha, beta := Alpha(y, h), Alpha(Reverse(y), h);
    forall i | 1 <= i < |alpha|
      ensures beta[i] == alpha[|alpha| - i]
    {
      ReversedAlpha(y, h, i);
    }
    MomentsSolve(h, alpha);
    ReversedSolution(h, alpha, beta, Moments(h, alpha));
    UniqueSolution(h, beta, Reverse(Moments(h, alpha)));
  }

  lemma ReversedPiece(y: seq<real>, h: real, k: nat, tau: real)
    requires 2 <= |y| && 0.0 < h
    requires k < |y| - 1
    ensures Cubic(FittedDof(Reverse(y), h)[|y| - 2 - k], h - tau) == Cubic(FittedDof(y, h)[k], tau)
  {
    hide Moments, Alpha, Cubic, SegmentOf, Knot;
    var n, M := |y| - 1, Moments(h, Alpha(y, h));
    var r := n - 1 - k;
    ReversedMoments(y, h);
    assert FittedDof(Reverse(y), h)[r] == SegmentOf(Knot(h, r), h, y[k + 1], y[k], M[k + 1], M[k]);
    assert FittedDof(y, h)[k] == SegmentOf(Knot(h, k), h, y[k], y[k + 1], M[k], M[k + 1]);
    FlippedSegment(Knot(h, k), Knot(h, r), h, y[k], y[k + 1], M[k], M[k + 1], tau);
  }

  lemma MirroredKnot(h: real, n: int, k: int)
    ensures Knot(h, n) - Knot(h, k) == Knot(h, n - k)
  {
    assert (n - k) as real == n as real - k as real;
  }

  lemma DofReversal(y: seq<real>, h: real, u: real)
    requires 2 <= |y| && 0.0 < h
    requires 0.0 <= u <= Knot(h, |y| - 1)
    ensures CurveAt(FittedDof(Reverse(y), h), h, Knot(h, |y| - 1) - u) == CurveAt(FittedDof(y, h), h, u)
  {
    hide FittedDof, PieceOf, Knot, Cubic, CurveAt, Reverse;
    var n := |y| - 1;
    var k := PieceOf(h, n, u);
    var r := n - 1 - k;
    PieceBounds(h, n, u);
    MirroredKnot(h, n, k);
    MirroredKnot(h, n, k + 1);
    NextKnot(h, k);
    NextKnot(h, r);
    ClosedPiece(y, h, u, k);
    ClosedPiece(Reverse(y), h, Knot(h, n) - u, r);
    ReversedPiece(y, h, k, u - Knot(h, k));
  }

  ghost predicate Rectangular(waypoints: seq<seq<real>>) {
    forall i :: 0 <= i < |waypoints| ==> |waypoints[i]| == |waypoints[0]|
  }

  /** Driving the waypoints backwards retraces the same path: the fit of the reversed list at
      T - t is the fit of the list at t, although the elimination is not symmetric. */
  lemma TimeReversal(waypoints: seq<seq<real>>, durationS: real, t: real)
    requires 2 <= |waypoints| && waypoints[0] != [] && Rectangular(waypoints)
    requires 0.0 < durationS
    requires 0.0 <= t <= durationS
    ensures Fittable(waypoints, durationS) && Fittable(Reverse(waypoints), durationS)
    ensures Evaluable(Fitted(waypoints, durationS)) && Evaluable(Fitted(Reverse(waypoints), durationS))
    ensures Evaluated(Fitted(Reverse(waypoints), durationS), durationS - t) == Evaluated(Fitted(waypoints, durationS), t)
  {
    hide Evaluated, FittedDof, CurveAt, Knot;
    var back := Reverse(waypoints);
    assert back[0] == waypoints[|waypoints| - 1];
    FittedEvaluable(waypoints, durationS);
    FittedEvaluable(back, durationS);
    var n := |waypoints| - 1;
    var h := Spacing(durationS, n);
    LastKnot(durationS, n);
    var q := Evaluated(Fitted(waypoints, durationS), t);
    var r := Evaluated(Fitted(back, durationS), durationS - t);
    forall j | 0 <= j < |q|
      ensures r[j] == q[j]
    {
      EvaluatedDof(waypoints, durationS, t, j);
      EvaluatedDof(back, durationS, durationS - t, j);
      assert Column(back, j) == Reverse(Column(waypoints, j));
      DofReversal(Column(waypoints, j), h, t);
    }
  }
}
