/** The tridiagonal system behind `fitCubicSpline` for uniform knots: interior rows
      h*M[i-1] + 4h*M[i] + h*M[i+1] == alpha[i],   M[0] == M[n-1] == 0.
    Existence is the Thomas recurrence, uniqueness and all bounds are diagonal dominance. */
module Tridiagonal {

  function Abs(x: real): real {
    if x < 0.0 then -x else x
  }

  /** Left-hand side of interior row i, with the common factor h taken out. */
  function Row(M: seq<real>, i: int): real
    requires 1 <= i < |M| - 1
  {
    M[i - 1] + 4.0 * M[i] + M[i + 1]
  }

  /** `M` has one entry per waypoint, `alpha` one per segment (entry 0 is unused). */
  ghost predicate Solves(h: real, alpha: seq<real>, M: seq<real>) {
    && 1 <= |alpha|
    && |M| == |alpha| + 1
    && M[0] == 0.0
    && M[|alpha|] == 0.0
    && forall i :: 1 <= i < |alpha| ==> h * Row(M, i) == alpha[i]
  }

  // ----- pivots ---------------------------------------------------------------

  /** The factor mu[i] of the forward sweep; it does not depend on the data. */
  function Mu(i: nat): (r: real)
    ensures 0.0 <= r <= 2.0 / 7.0
  {
    if i == 0 then 0.0 else 1.0 / (4.0 - Mu(i - 1))
  }

  /** The pivot l[i] of an interior row stays at least 26/7 of the knot spacing. */
  function Pivot(h: real, i: nat): (r: real)
    requires 0.0 < h
    requires 1 <= i
    ensures r >= 26.0 / 7.0 * h
    ensures r * Mu(i) == h
  {
    PivotTimesMu(h, i);
    h * (4.0 - Mu(i - 1))
  }

  lemma PivotTimesMu(h: real, i: nat)
    requires 0.0 < h
    requires 1 <= i
    ensures h * (4.0 - Mu(i - 1)) * Mu(i) == h
    ensures h * (4.0 - Mu(i - 1)) >= 26.0 / 7.0 * h
  {
    var q := 4.0 - Mu(i - 1);
    Reciprocal(q, Mu(i));
    PivotBound(h, q, Mu(i));
  }

  lemma Reciprocal(q: real, r: real)
    requires q >= 26.0 / 7.0
    requires r == 1.0 / q
    ensures q * r == 1.0
  {
  }

  lemma PivotBound(h: real, q: real, r: real)
    requires 0.0 < h
    requires q >= 26.0 / 7.0 && q * r == 1.0
    ensures h * q * r == h
    ensures h * q >= 26.0 / 7.0 * h
  {
    assert h * q * r == h * (q * r);
    assert h * (q - 26.0 / 7.0) >= 0.0;
  }

  // ----- existence ------------------------------------------------------------

  function Z(h: real, alpha: seq<real>, i: nat): real
    requires 0.0 < h
    requires i < |alpha|
  {
    if i == 0 then 0.0
    else (alpha[i] - h * Z(h, alpha, i - 1)) / Pivot(h, i)
  }

  function BackSubstitute(h: real, alpha: seq<real>, i: nat): real
    requires 0.0 < h
    requires i <= |alpha|
    decreases |alpha| - i
  {
    if i == |alpha| then 0.0
    else Z(h, alpha, i) - Mu(i) * BackSubstitute(h, alpha, i + 1)
  }

  function Moments(h: real, alpha: seq<real>): (M: seq<real>)
    requires 0.0 < h
    requires 1 <= |alpha|
    ensures |M| == |alpha| + 1
  {
    seq(|alpha| + 1, i requires 0 <= i <= |alpha| => BackSubstitute(h, alpha, i))
  }

  /** One forward-sweep row together with the two back-substitution rows around it. */
  lemma EliminationStep(h: real, muPrev: real, zPrev: real, l: real, mu: real, z: real, a: real,
                        mPrev: real, m: real, mNext: real)
    requires l == h * (4.0 - muPrev)
    requires l * mu == h
    requires z * l == a - h * zPrev
    requires mPrev == zPrev - muPrev * m
    requires m == z - mu * mNext
    ensures h * (mPrev + 4.0 * m + mNext) == a
  {
    assert h * (mPrev + 4.0 * m + mNext) == h * zPrev + h * (4.0 - muPrev) * m + h * mNext;
    assert l * m == l * z - (l * mu) * mNext;
  }

  lemma Quotient(num: real, l: real, q: real)
    requires l > 0.0
    requires q == num / l
    ensures q * l == num
  {
  }

  lemma ForwardRow(h: real, alpha: seq<real>, i: nat)
    requires 0.0 < h
    requires 1 <= i < |alpha|
    ensures Z(h, alpha, i) * Pivot(h, i) == alpha[i] - h * Z(h, alpha, i - 1)
  {
    hide Mu, Pivot;
    Quotient(alpha[i] - h * Z(h, alpha, i - 1), Pivot(h, i), Z(h, alpha, i));
  }

  lemma BackRow(h: real, alpha: seq<real>, i: nat)
    requires 0.0 < h
    requires i < |alpha|
    ensures BackSubstitute(h, alpha, i) == Z(h, alpha, i) - Mu(i) * BackSubstitute(h, alpha, i + 1)
  {
  }

  lemma MomentRow(h: real, alpha: seq<real>, i: nat)
    requires 0.0 < h
    requires 1 <= i < |alpha|
    ensures h * (BackSubstitute(h, alpha, i - 1) + 4.0 * BackSubstitute(h, alpha, i) + BackSubstitute(h, alpha, i + 1))
         == alpha[i]
  {
    hide *;
    ForwardRow(h, alpha, i);
    BackRow(h, alpha, i - 1);
    BackRow(h, alpha, i);
    PivotOf(h, i);
    EliminationStep(h, Mu(i - 1), Z(h, alpha, i - 1), Pivot(h, i), Mu(i), Z(h, alpha, i), alpha[i],
                    BackSubstitute(h, alpha, i - 1), BackSubstitute(h, alpha, i), BackSubstitute(h, alpha, i + 1));
  }

  lemma PivotOf(h: real, i: nat)
    requires 0.0 < h
    requires 1 <= i
    ensures Pivot(h, i) == h * (4.0 - Mu(i - 1))
  {
  }

  lemma MomentEnds(h: real, alpha: seq<real>)
    requires 0.0 < h
    requires 1 <= |alpha|
    ensures BackSubstitute(h, alpha, 0) == BackSubstitute(h, alpha, |alpha|) == 0.0
  {
  }

  lemma MomentsSolve(h: real, alpha: seq<real>)
    requires 0.0 < h
    requires 1 <= |alpha|
    ensures Solves(h, alpha, Moments(h, alpha))
  {
    hide Mu, Z, BackSubstitute, Pivot;
    var M := Moments(h, alpha);
    MomentEnds(h, alpha);
    forall i | 1 <= i < |alpha|
      ensures h * Row(M, i) == alpha[i]
    {
      MomentRow(h, alpha, i);
      assert M[i - 1] == BackSubstitute(h, alpha, i - 1);
      assert M[i] == BackSubstitute(h, alpha, i);
      assert M[i + 1] == BackSubstitute(h, alpha, i + 1);
    }
  }

  // ----- decay, uniqueness, bound ------------------------------------------------

  /** A sequence that starts at zero and solves the homogeneous rows below `k`
      shrinks by at least 2/7 for every step away from `k`. */
  lemma {:induction false} HomogeneousDecay(D: seq<real>, k: nat, i: nat)
    requires i < k < |D|
    requires D[0] == 0.0
    requires forall r :: 1 <= r < k ==> Row(D, r) == 0.0
    ensures Abs(D[i]) <= 2.0 / 7.0 * Abs(D[i + 1])
  {
    if i > 0 {
      HomogeneousDecay(D, k, i - 1);
      assert Row(D, i) == 0.0;
    }
  }

  lemma {:induction false} VanishesBelow(D: seq<real>, k: nat, i: nat)
    requires i <= k < |D|
    requires D[0] == 0.0 && D[k] == 0.0
    requires forall r :: 1 <= r < k ==> Row(D, r) == 0.0
    ensures D[i] == 0.0
    decreases k - i
  {
    if i < k {
      VanishesBelow(D, k, i + 1);
      HomogeneousDecay(D, k, i);
    }
  }

  function Difference(M: seq<real>, N: seq<real>): (D: seq<real>)
    requires |M| == |N|
    ensures |D| == |M|
  {
    seq(|M|, i requires 0 <= i < |M| => M[i] - N[i])
  }

  lemma ScaledRowsAgree(h: real, x: real, y: real)
    requires 0.0 < h
    requires h * x == h * y
    ensures x == y
  {
    assert h * (x - y) == 0.0;
  }

  lemma DifferenceRow(h: real, alpha: seq<real>, beta: seq<real>, M: seq<real>, N: seq<real>, i: int)
    requires 0.0 < h
    requires Solves(h, alpha, M) && Solves(h, beta, N) && |alpha| == |beta|
    requires 1 <= i < |alpha| && alpha[i] == beta[i]
    ensures Row(Difference(M, N), i) == 0.0
  {
    assert h * Row(M, i) == alpha[i];
    assert h * Row(N, i) == alpha[i];
    ScaledRowsAgree(h, Row(M, i), Row(N, i));
  }

  /** The system has exactly one solution, so any order of elimination finds the same one. */
  lemma UniqueSolution(h: real, alpha: seq<real>, M: seq<real>)
    requires 0.0 < h
    requires 1 <= |alpha|
    ensures Solves(h, alpha, M) <==> M == Moments(h, alpha)
  {
    var N := Moments(h, alpha);
    MomentsSolve(h, alpha);
    if Solves(h, alpha, M) {
      var D := Difference(M, N);
      forall r | 1 <= r < |alpha|
        ensures Row(D, r) == 0.0
      {
        DifferenceRow(h, alpha, alpha, M, N, r);
      }
      forall i | 0 <= i < |M|
        ensures M[i] == N[i]
      {
        VanishesBelow(D, |alpha|, i);
        assert D[i] == M[i] - N[i];
      }
    }
  }

  lemma {:induction false} LargestEntry(M: seq<real>) returns (k: nat)
    requires M != []
    ensures k < |M|
    ensures forall i :: 0 <= i < |M| ==> Abs(M[i]) <= Abs(M[k])
  {
    k := 0;
    var n := 1;
    while n < |M|
      invariant 1 <= n <= |M|
      invariant k < n
      invariant forall i :: 0 <= i < n ==> Abs(M[i]) <= Abs(M[k])
    {
      if Abs(M[n]) > Abs(M[k]) {
        k := n;
      }
      n := n + 1;
    }
  }

  lemma DominantRow(h: real, a: real, x: real, y: real, z: real, bound: real)
    requires 0.0 < h
    requires h * (x + 4.0 * y + z) == a
    requires Abs(x) <= Abs(y) && Abs(z) <= Abs(y)
    requires Abs(a) <= bound
    ensures 2.0 * h * Abs(y) <= bound
  {
    var s := x + 4.0 * y + z;
    assert Abs(s) >= 2.0 * Abs(y);
    assert h * (Abs(s) - 2.0 * Abs(y)) >= 0.0;
    assert Abs(a) == h * Abs(s) by {
      if s < 0.0 { assert h * s <= 0.0; assert h * (-s) == -(h * s); } else { assert h * s >= 0.0; }
    }
  }

  lemma ScaleMonotone(h: real, x: real, y: real, bound: real)
    requires 0.0 < h
    requires x <= y
    requires 2.0 * h * y <= bound
    ensures 2.0 * h * x <= bound
  {
    assert h * (y - x) >= 0.0;
  }

  /** Diagonal dominance: |M| <= max|alpha| / (2h). */
  lemma MomentBound(h: real, alpha: seq<real>, M: seq<real>, bound: real)
    requires 0.0 < h
    requires Solves(h, alpha, M)
    requires 0.0 <= bound
    requires forall i :: 1 <= i < |alpha| ==> Abs(alpha[i]) <= bound
    ensures forall i :: 0 <= i < |M| ==> 2.0 * h * Abs(M[i]) <= bound
  {
    hide Row, Abs;
    var k := LargestEntry(M);
    LargestBound(h, alpha, M, bound, k);
    forall i | 0 <= i < |M|
      ensures 2.0 * h * Abs(M[i]) <= bound
    {
      ScaleMonotone(h, Abs(M[i]), Abs(M[k]), bound);
    }
  }

  lemma LargestBound(h: real, alpha: seq<real>, M: seq<real>, bound: real, k: nat)
    requires 0.0 < h
    requires Solves(h, alpha, M)
    requires 0.0 <= bound
    requires forall i :: 1 <= i < |alpha| ==> Abs(alpha[i]) <= bound
    requires k < |M| && forall i :: 0 <= i < |M| ==> Abs(M[i]) <= Abs(M[k])
    ensures 2.0 * h * Abs(M[k]) <= bound
  {
    if 1 <= k < |alpha| {
      assert h * Row(M, k) == alpha[k];
      DominantRow(h, alpha[k], M[k - 1], M[k], M[k + 1], bound);
    } else {
      assert M[k] == 0.0;
    }
  }

  // ----- reversal -----------------------------------------------------------------

  function Reverse<T>(s: seq<T>): (r: seq<T>)
    ensures |r| == |s|
    ensures forall i :: 0 <= i < |s| ==> r[i] == s[|s| - 1 - i]
  {
    seq(|s|, i requires 0 <= i < |s| => s[|s| - 1 - i])
  }

  /** Row i of the reversed system is row n-i of the original one. */
  lemma ReversedSolution(h: real, alpha: seq<real>, beta: seq<real>, M: seq<real>)
    requires Solves(h, alpha, M)
    requires |beta| == |alpha|
    requires forall i :: 1 <= i < |alpha| ==> beta[i] == alpha[|alpha| - i]
    ensures Solves(h, beta, Reverse(M))
  {
    var n := |alpha|;
    var R := Reverse(M);
    forall i | 1 <= i < n
      ensures h * Row(R, i) == beta[i]
    {
      assert h * Row(M, n - i) == alpha[n - i];
      assert R[i - 1] == M[n - i + 1] && R[i] == M[n - i] && R[i + 1] == M[n - i - 1];
      assert Row(R, i) == Row(M, n - i);
    }
  }

  // ----- locality -------------------------------------------------------------------

  function Power(b: real, n: nat): (r: real)
    requires 0.0 <= b
    ensures 0.0 <= r
  {
    if n == 0 then 1.0 else b * Power(b, n - 1)
  }

  /** Two systems whose right-hand sides agree on the rows below `k` have solutions whose
      difference decays by 2/7 per knot to the left of `k`. */
  lemma {:induction false} LeftLocality(h: real, alpha: seq<real>, beta: seq<real>, M: seq<real>, N: seq<real>, k: nat, i: nat)
    requires 0.0 < h
    requires Solves(h, alpha, M) && Solves(h, beta, N) && |alpha| == |beta|
    requires i <= k <= |alpha|
    requires forall r :: 1 <= r < k ==> alpha[r] == beta[r]
    ensures Abs(M[i] - N[i]) <= Power(2.0 / 7.0, k - i) * Abs(M[k] - N[k])
    decreases k - i
  {
    if i < k {
      LeftLocality(h, alpha, beta, M, N, k, i + 1);
      var D := Difference(M, N);
      forall r | 1 <= r < k
        ensures Row(D, r) == 0.0
      {
        DifferenceRow(h, alpha, beta, M, N, r);
      }
      HomogeneousDecay(D, k, i);
      var p := Power(2.0 / 7.0, k - i - 1);
      assert Power(2.0 / 7.0, k - i) == 2.0 / 7.0 * p;
      assert (2.0 / 7.0 * p) * Abs(D[k]) == 2.0 / 7.0 * (p * Abs(D[k]));
    }
  }
}
