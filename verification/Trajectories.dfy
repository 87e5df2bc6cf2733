/** `fitCubicSpline` and `Trajectory::eval` over exact reals: the loops, and the functions
    they are proved against. What those functions mean is in SplineTheorems.dfy. */
module Trajectories {
  import opened Tridiagonal

  datatype Segment = Segment(tStart: real, h: real, a: real, b: real, c: real, d: real)

  datatype Trajectory = Trajectory(durationS: real, numDofs: int, numSegments: int, segments: seq<seq<Segment>>)

  const EMPTY_TRAJECTORY := Trajectory(0.0, 0, 0, [])

  // ----- specification of the fit ---------------------------------------------------

  /** Uniform knot spacing for a duration and a number of segments. */
  function Spacing(durationS: real, segments: int): (h: real)
    requires 0.0 < durationS
    requires 1 <= segments
    ensures 0.0 < h
    ensures h * segments as real == durationS
  {
    durationS / segments as real
  }

  /** Time of knot i. */
  function Knot(h: real, i: int): real {
    h * i as real
  }

  function Column(waypoints: seq<seq<real>>, j: nat): (y: seq<real>)
    requires forall i :: 0 <= i < |waypoints| ==> j < |waypoints[i]|
    ensures |y| == |waypoints|
  {
    seq(|waypoints|, i requires 0 <= i < |waypoints| => waypoints[i][j])
  }

  /** Right-hand side of one interior row, from the spacings and values around it. */
  function AlphaEntry(hPrev: real, h: real, yPrev: real, y: real, yNext: real): real
    requires 0.0 < hPrev && 0.0 < h
  {
    3.0 / h * (yNext - y) - 3.0 / hPrev * (y - yPrev)
  }

  function Alpha(y: seq<real>, h: real): (alpha: seq<real>)
    requires 2 <= |y|
    requires 0.0 < h
    ensures |alpha| == |y| - 1
  {
    seq(|y| - 1, i requires 0 <= i < |y| - 1 =>
      if i == 0 then 0.0 else AlphaEntry(h, h, y[i - 1], y[i], y[i + 1]))
  }

  /** One cubic piece from its end values and the solved moments at its ends. */
  function SegmentOf(tStart: real, h: real, y0: real, y1: real, m0: real, m1: real): Segment
    requires 0.0 < h
  {
    Segment(tStart, h, y0, (y1 - y0) * (1.0 / h) - h * (2.0 * m0 + m1) / 6.0, m0 / 2.0, (m1 - m0) / (6.0 * h))
  }

  function SegmentsFor(y: seq<real>, h: real, M: seq<real>): (segments: seq<Segment>)
    requires |y| == |M| && 2 <= |y|
    requires 0.0 < h
    ensures |segments| == |y| - 1
  {
    seq(|y| - 1, i requires 0 <= i < |y| - 1 => SegmentOf(Knot(h, i), h, y[i], y[i + 1], M[i], M[i + 1]))
  }

  /** The spline of one degree of freedom. */
  function FittedDof(y: seq<real>, h: real): (segments: seq<Segment>)
    requires 2 <= |y|
    requires 0.0 < h
    ensures |segments| == |y| - 1
  {
    SegmentsFor(y, h, Moments(h, Alpha(y, h)))
  }

  predicate Degenerate(waypoints: seq<seq<real>>) {
    |waypoints| < 2 || waypoints[0] == []
  }

  /** What the fit reads: a positive duration, and rows at least as long as the first one. */
  predicate Fittable(waypoints: seq<seq<real>>, durationS: real) {
    2 <= |waypoints| && waypoints[0] != [] ==>
      0.0 < durationS && forall i :: 0 <= i < |waypoints| ==> |waypoints[0]| <= |waypoints[i]|
  }

  function Fitted(waypoints: seq<seq<real>>, durationS: real): Trajectory
    requires Fittable(waypoints, durationS)
  {
    if Degenerate(waypoints) then EMPTY_TRAJECTORY
    else
      var h := Spacing(durationS, |waypoints| - 1);
      Trajectory(durationS, |waypoints[0]|, |waypoints| - 1,
                 seq(|waypoints[0]|, j requires 0 <= j < |waypoints[0]| => FittedDof(Column(waypoints, j), h)))
  }

  // ----- the fit ----------------------------------------------------------------------

  function SweepPivot(hPrev: real, h: real, muPrev: real): real {
    2.0 * (hPrev + h) - hPrev * muPrev
  }

  function SweepZ(alpha: real, hPrev: real, zPrev: real, l: real): real
    requires l != 0.0
  {
    (alpha - hPrev * zPrev) / l
  }

  lemma SweepStep(h: real, alpha: seq<real>, i: nat)
    requires 0.0 < h
    requires 1 <= i < |alpha|
    ensures SweepPivot(h, h, Mu(i - 1)) == Pivot(h, i)
    ensures Pivot(h, i) > 0.0
    ensures h / Pivot(h, i) == Mu(i)
    ensures SweepZ(alpha[i], h, Z(h, alpha, i - 1), Pivot(h, i)) == Z(h, alpha, i)
  {
    hide Mu, Pivot;
    PivotOf(h, i);
    var l, mu := Pivot(h, i), Mu(i);
    assert l * mu == h;
    assert h / l == mu;
  }

  /** Forward sweep of the Thomas algorithm. */
  method ForwardSweep(h: array<real>, alpha: array<real>, ghost spacing: real)
    returns (mu: array<real>, z: array<real>)
    requires 0.0 < spacing
    requires 1 <= h.Length == alpha.Length
    requires forall k :: 0 <= k < h.Length ==> h[k] == spacing
    ensures fresh(mu) && fresh(z) && mu != z
    ensures mu.Length == h.Length && z.Length == h.Length + 1
    ensures forall k :: 0 <= k < h.Length ==> mu[k] == Mu(k) && z[k] == Z(spacing, alpha[..], k)
  {
    hide *;
    var nSegments := h.Length;
    ghost var al := alpha[..];
    var l := new real[nSegments + 1](_ => 1.0);
    mu := new real[nSegments](_ => 0.0);
    z := new real[nSegments + 1](_ => 0.0);
    SweepStart(spacing, al);
    var i := 1;
    while i < nSegments
      invariant 1 <= i <= nSegments
      invariant forall k :: 0 <= k < i ==> mu[k] == Mu(k) && z[k] == Z(spacing, al, k)
    {
      SweepStep(spacing, al, i);
      l[i] := SweepPivot(h[i - 1], h[i], mu[i - 1]);
      mu[i] := h[i] / l[i];
      z[i] := SweepZ(alpha[i], h[i - 1], z[i - 1], l[i]);
      i := i + 1;
    }
  }

  /** The Thomas algorithm: forward sweep into `l`, `mu`, `z`, then back substitution into `M`. */
  method SolveTridiagonal(h: array<real>, alpha: array<real>, ghost spacing: real) returns (M: array<real>)
    requires 0.0 < spacing
    requires 1 <= h.Length == alpha.Length
    requires forall k :: 0 <= k < h.Length ==> h[k] == spacing
    ensures fresh(M)
    ensures Solves(spacing, alpha[..], M[..])
  {
    hide *;
    var nSegments := h.Length;
    ghost var al := alpha[..];
    var mu, z := ForwardSweep(h, alpha, spacing);
    M := new real[nSegments + 1](_ => 0.0);
    M[nSegments] := 0.0;
    BackStart(spacing, al);
    var i := nSegments - 1;
    while i >= 0
      invariant -1 <= i < nSegments
      invariant forall k :: 0 <= k < nSegments ==> mu[k] == Mu(k) && z[k] == Z(spacing, al, k)
      invariant forall k :: i < k <= nSegments ==> M[k] == BackSubstitute(spacing, al, k)
    {
      BackRow(spacing, al, i);
      M[i] := z[i] - mu[i] * M[i + 1];
      i := i - 1;
    }
    ReachesMoments(spacing, al, M[..]);
  }

  lemma ReachesMoments(h: real, alpha: seq<real>, M: seq<real>)
    requires 0.0 < h
    requires 1 <= |alpha|
    requires |M| == |alpha| + 1
    requires forall k :: 0 <= k < |M| ==> M[k] == BackSubstitute(h, alpha, k)
    ensures Solves(h, alpha, M)
  {
    hide BackSubstitute, Solves;
    assert M == Moments(h, alpha);
    MomentsSolve(h, alpha);
  }

  lemma SweepStart(h: real, alpha: seq<real>)
    requires 0.0 < h
    requires 1 <= |alpha|
    ensures Mu(0) == 0.0 && Z(h, alpha, 0) == 0.0
  {
  }

  lemma BackStart(h: real, alpha: seq<real>)
    requires 0.0 < h
    requires 1 <= |alpha|
    ensures BackSubstitute(h, alpha, |alpha|) == 0.0
  {
  }

  method RightHandSide(y: array<real>, h: array<real>, ghost spacing: real) returns (alpha: array<real>)
    requires 0.0 < spacing
    requires 2 <= y.Length == h.Length + 1
    requires forall k :: 0 <= k < h.Length ==> h[k] == spacing
    ensures fresh(alpha)
    ensures alpha[..] == Alpha(y[..], spacing)
  {
    hide AlphaEntry;
    var nSegments := h.Length;
    alpha := new real[nSegments](_ => 0.0);
    var i := 1;
    while i < nSegments
      invariant 1 <= i <= nSegments
      invariant forall k :: 0 <= k < i ==> alpha[k] == Alpha(y[..], spacing)[k]
    {
      alpha[i] := AlphaEntry(h[i - 1], h[i], y[i - 1], y[i], y[i + 1]);
      i := i + 1;
    }
  }

  method BuildSegments(y: array<real>, tKnots: array<real>, h: array<real>, M: array<real>, ghost spacing: real)
    returns (segments: seq<Segment>)
    requires 0.0 < spacing
    requires 2 <= y.Length == M.Length == tKnots.Length == h.Length + 1
    requires forall k :: 0 <= k < h.Length ==> h[k] == spacing
    requires forall k :: 0 <= k < tKnots.Length ==> tKnots[k] == Knot(spacing, k)
    ensures segments == SegmentsFor(y[..], spacing, M[..])
  {
    hide SegmentOf, Knot;
    ghost var goal := SegmentsFor(y[..], spacing, M[..]);
    segments := [];
    var i := 0;
    while i < h.Length
      invariant 0 <= i <= h.Length
      invariant segments == goal[..i]
    {
      var seg := SegmentOf(tKnots[i], h[i], y[i], y[i + 1], M[i], M[i + 1]);
      segments := segments + [seg];
      i := i + 1;
    }
  }

  /** The body of the per-DOF loop for one column of waypoint values. */
  method FitDof(y: array<real>, tKnots: array<real>, h: array<real>, ghost spacing: real)
    returns (segments: seq<Segment>)
    requires 0.0 < spacing
    requires 2 <= y.Length == tKnots.Length == h.Length + 1
    requires forall k :: 0 <= k < h.Length ==> h[k] == spacing
    requires forall k :: 0 <= k < tKnots.Length ==> tKnots[k] == Knot(spacing, k)
    ensures segments == FittedDof(y[..], spacing)
  {
    hide Alpha, Moments, SegmentsFor, Solves;
    var alpha := RightHandSide(y, h, spacing);
    var M := SolveTridiagonal(h, alpha, spacing);
    UniqueSolution(spacing, alpha[..], M[..]);
    segments := BuildSegments(y, tKnots, h, M, spacing);
  }

  method FitCubicSpline(waypoints: seq<seq<real>>, durationS: real) returns (traj: Trajectory)
    requires Fittable(waypoints, durationS)
    ensures |waypoints| < 2 || waypoints[0] == [] ==> traj == Trajectory(0.0, 0, 0, [])
    ensures 2 <= |waypoints| && waypoints[0] != [] ==>
      && traj.durationS == durationS && traj.numDofs == |waypoints[0]| && traj.numSegments == |waypoints| - 1
      && |traj.segments| == traj.numDofs
      && forall j :: 0 <= j < traj.numDofs ==> |traj.segments[j]| == traj.numSegments
    ensures traj == Fitted(waypoints, durationS)
  {
    hide FittedDof;
    if |waypoints| < 2 {
      return EMPTY_TRAJECTORY;
    }
    if waypoints[0] == [] {
      return EMPTY_TRAJECTORY;
    }
    var nWp, nDofs := |waypoints|, |waypoints[0]|;
    var nSegments := nWp - 1;
    ghost var spacing := Spacing(durationS, nSegments);

    var tKnots := new real[nWp];
    var i := 0;
    while i < nWp
      invariant 0 <= i <= nWp
      invariant forall k :: 0 <= k < i ==> tKnots[k] == Knot(spacing, k)
    {
      tKnots[i] := (durationS / (nWp - 1) as real) * i as real;
      i := i + 1;
    }
    var h := new real[nSegments];
    i := 0;
    while i < nSegments
      invariant 0 <= i <= nSegments
      invariant forall k :: 0 <= k < nWp ==> tKnots[k] == Knot(spacing, k)
      invariant forall k :: 0 <= k < i ==> h[k] == spacing
    {
      h[i] := tKnots[i + 1] - tKnots[i];
      KnotGap(spacing, i);
      i := i + 1;
    }

    ghost var goal := Fitted(waypoints, durationS).segments;
    var segments := [];
    var j := 0;
    while j < nDofs
      invariant 0 <= j <= nDofs
      invariant forall k :: 0 <= k < nWp ==> tKnots[k] == Knot(spacing, k)
      invariant forall k :: 0 <= k < nSegments ==> h[k] == spacing
      invariant segments == goal[..j]
    {
      var y := new real[nWp];
      i := 0;
      while i < nWp
        invariant 0 <= i <= nWp
        invariant forall k :: 0 <= k < i ==> y[k] == waypoints[k][j]
        invariant forall k :: 0 <= k < nWp ==> tKnots[k] == Knot(spacing, k)
        invariant forall k :: 0 <= k < nSegments ==> h[k] == spacing
      {
        y[i] := waypoints[i][j];
        i := i + 1;
      }
      assert y[..] == Column(waypoints, j);
      var dof := FitDof(y, tKnots, h, spacing);
      assert dof == goal[j];
      segments := segments + [dof];
      j := j + 1;
    }
    traj := Trajectory(durationS, nDofs, nSegments, segments);
  }

  lemma KnotGap(h: real, i: int)
    ensures Knot(h, i + 1) - Knot(h, i) == h
  {
    assert (i + 1) as real == i as real + 1.0;
  }

  // ----- evaluation -----------------------------------------------------------------------

  function Clamp(t: real, durationS: real): real {
    var u := if durationS < t then durationS else t;
    if u < 0.0 then 0.0 else u
  }

  function Cubic(seg: Segment, tau: real): real {
    seg.a + seg.b * tau + seg.c * tau * tau + seg.d * tau * tau * tau
  }

  predicate Holds(segments: seq<Segment>, numSegments: int, t: real, i: int)
    requires 0 <= i < numSegments <= |segments|
  {
    segments[i].tStart <= t && (i == numSegments - 1 || segments[i + 1].tStart > t)
  }

  /** First segment from `i` on that holds `t`, or 0 when there is none. */
  function SegmentIndex(segments: seq<Segment>, numSegments: int, t: real, i: nat): (k: nat)
    requires i <= |segments| && numSegments <= |segments| && segments != []
    ensures k < |segments|
    decreases |segments| - i
  {
    if i >= numSegments then 0
    else if Holds(segments, numSegments, t, i) then i
    else SegmentIndex(segments, numSegments, t, i + 1)
  }

  predicate NoSegments(traj: Trajectory) {
    traj.segments == [] || traj.segments[0] == []
  }

  /** The sizes `eval` relies on when it indexes `segments[j][seg_idx]`. */
  predicate Evaluable(traj: Trajectory) {
    && 0 <= traj.numDofs
    && (!NoSegments(traj) ==>
          && traj.numDofs <= |traj.segments|
          && traj.numSegments <= |traj.segments[0]|
          && forall j :: 0 <= j < |traj.segments| ==> |traj.segments[0]| <= |traj.segments[j]|)
  }

  function Evaluated(traj: Trajectory, t: real): (q: seq<real>)
    requires Evaluable(traj)
    ensures |q| == traj.numDofs
  {
    if NoSegments(traj) then seq(traj.numDofs, _ => 0.0)
    else
      var u := Clamp(t, traj.durationS);
      var k := SegmentIndex(traj.segments[0], traj.numSegments, u, 0);
      seq(traj.numDofs, j requires 0 <= j < traj.numDofs =>
        Cubic(traj.segments[j][k], u - traj.segments[j][k].tStart))
  }

  method Eval(traj: Trajectory, t0: real) returns (result: seq<real>)
    requires Evaluable(traj)
    ensures result == Evaluated(traj, t0)
  {
    hide Cubic;
    var t := if traj.durationS < t0 then traj.durationS else t0;
    if t < 0.0 {
      t := 0.0;
    }
    result := seq(traj.numDofs, _ => 0.0);
    if traj.segments == [] || traj.segments[0] == [] {
      return;
    }
    var segIdx := 0;
    var i := 0;
    ghost var first := SegmentIndex(traj.segments[0], traj.numSegments, t, 0);
    while i < traj.numSegments
      invariant 0 <= i
      invariant i <= traj.numSegments || i == 0
      invariant segIdx == 0
      invariant first == SegmentIndex(traj.segments[0], traj.numSegments, t, i)
    {
      if traj.segments[0][i].tStart <= t &&
         (i == traj.numSegments - 1 || traj.segments[0][i + 1].tStart > t) {
        segIdx := i;
        break;
      }
      i := i + 1;
    }
    assert segIdx == first;
    ghost var goal := Evaluated(traj, t0);
    var j := 0;
    while j < traj.numDofs
      invariant 0 <= j <= traj.numDofs == |result|
      invariant forall k :: 0 <= k < j ==> result[k] == goal[k]
    {
      var seg := traj.segments[j][segIdx];
      var tau := t - seg.tStart;
      result := result[j := Cubic(seg, tau)];
      j := j + 1;
    }
  }
}
