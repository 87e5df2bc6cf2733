/** Flat indices of object pairs: the decode in the self-check kernels, the counter of the host
    loops, and the row-major grid of the cross kernels. */
module PairIndexing {

  /** Integer square root. */
  function Isqrt(n: nat): (r: nat)
    ensures r * r <= n < (r + 1) * (r + 1)
  {
    if n == 0 then 0
    else
      var r := Isqrt(n - 1);
      if (r + 1) * (r + 1) <= n then r + 1 else r
  }

  function Triangle(i: nat): (t: nat) {
    i * (i + 1) / 2
  }

  lemma EvenProduct(a: int, b: int)
    ensures 2 * a * b == 2 * (a * b)
    ensures b * (2 * a) == 2 * (a * b)
  {
  }

  lemma Distribute(m: nat, d: nat, x: int)
    ensures (x + d) * m == x * m + d * m
    ensures d * m >= 0
    ensures d >= 1 ==> d * m >= m
  {
  }

  lemma ScaleOrder(m: nat, x: int, y: int)
    ensures x <= y ==> x * m <= y * m
    ensures x < y ==> x * m <= y * m - m
  {
    if x <= y { Distribute(m, y - x, x); }
  }

  lemma TriangleTwice(i: nat)
    ensures 2 * Triangle(i) == i * (i + 1)
  {
    if i % 2 == 0 {
      EvenProduct(i / 2, i + 1);
      assert i == 2 * (i / 2);
    } else {
      EvenProduct((i + 1) / 2, i);
      assert i + 1 == 2 * ((i + 1) / 2);
    }
  }

  lemma TriangleStep(i: nat)
    ensures Triangle(i + 1) == Triangle(i) + i + 1
  {
    TriangleTwice(i);
    TriangleTwice(i + 1);
    assert (i + 1) * (i + 2) == i * (i + 1) + 2 * (i + 1);
  }

  lemma {:induction false} TriangleMonotone(i: nat, j: nat)
    requires i <= j
    ensures Triangle(i) <= Triangle(j)
    decreases j - i
  {
    if i < j {
      TriangleStep(i);
      TriangleMonotone(i + 1, j);
    }
  }

  datatype Pair = Pair(i: nat, j: nat)

  // ----- self-check kernel ------------------------------------------------------------------

  function KernelRow(k: nat): nat {
    var s := Isqrt(8 * k + 1);
    if s == 0 then 0 else (s - 1) / 2
  }

  function KernelPair(k: nat): (p: Pair) {
    var i := KernelRow(k);
    KernelRowIsLargest(k);
    Pair(i, k - Triangle(i) + i + 1)
  }

  /** The float expression, in integers, finds the largest row whose triangle number is at most k. */
  lemma KernelRowIsLargest(k: nat)
    ensures Triangle(KernelRow(k)) <= k < Triangle(KernelRow(k) + 1)
  {
    hide Triangle, Isqrt;
    var s, i := Isqrt(8 * k + 1), KernelRow(k);
    assert s >= 1;
    assert 2 * i + 1 <= s <= 2 * i + 2;
    SquareOrder(2 * i + 1, s);
    SquareOrder(s + 1, 2 * i + 3);
    OddSquares(i);
    TriangleTwice(i);
    TriangleTwice(i + 1);
  }

  lemma OddSquares(i: nat)
    ensures (2 * i + 1) * (2 * i + 1) == 4 * (i * (i + 1)) + 1
    ensures (2 * i + 3) * (2 * i + 3) == 4 * ((i + 1) * (i + 2)) + 1
  {
  }

  lemma SquareOrder(a: nat, b: nat)
    requires a <= b
    ensures a * a <= b * b
  {
    assert a * a <= a * b;
    assert a * b <= b * b;
  }

  /** Each decoded pair has i < j <= 2i+1, and determines its index. */
  lemma KernelPairShape(k: nat)
    ensures var p := KernelPair(k); p.i < p.j <= 2 * p.i + 1 && k == Triangle(p.i) + p.j - p.i - 1
  {
    KernelRowIsLargest(k);
    TriangleStep(KernelRow(k));
  }

  lemma KernelPairInjective(k: nat, l: nat)
    requires KernelPair(k) == KernelPair(l)
    ensures k == l
  {
    hide KernelPair;
    KernelPairShape(k);
    KernelPairShape(l);
  }

  // ----- host loops ------------------------------------------------------------------------------

  /** Pairs visited before row i, for n objects. */
  function RowStart(n: nat, i: nat): int {
    i * (2 * n - i - 1) / 2
  }

  lemma RowStartTwice(n: nat, i: nat)
    ensures 2 * RowStart(n, i) == i * (2 * n - i - 1)
  {
    if i % 2 == 0 {
      assert i * (2 * n - i - 1) == 2 * (i / 2 * (2 * n - i - 1));
    } else {
      var h := (2 * n - i - 1) / 2;
      assert 2 * n - i - 1 == 2 * h;
      assert i * (2 * n - i - 1) == 2 * (i * h);
    }
  }

  lemma RowStartStep(n: nat, i: nat)
    ensures RowStart(n, i + 1) == RowStart(n, i) + n - i - 1
    ensures RowStart(n, 0) == 0
  {
    RowStartTwice(n, i);
    RowStartTwice(n, i + 1);
    assert (i + 1) * (2 * n - i - 2) == i * (2 * n - i - 1) + 2 * (n - i - 1);
  }

  /** Value of the host's counter when its loops are at (i, j). */
  function HostIndex(n: nat, p: Pair): int {
    RowStart(n, p.i) + p.j - p.i - 1
  }

  predicate ValidPair(n: nat, p: Pair) {
    p.i < p.j < n
  }

  function PairCount(n: nat): nat {
    if n == 0 then 0 else Triangle(n - 1)
  }

  lemma LastRowStart(n: nat)
    ensures n >= 1 ==> RowStart(n, n - 1) == PairCount(n)
  {
    if n >= 1 {
      RowStartTwice(n, n - 1);
      TriangleTwice(n - 1);
      assert (n - 1) * (2 * n - (n - 1) - 1) == (n - 1) * n;
    }
  }

  lemma {:induction false} RowStartMonotone(n: nat, i: nat, j: nat)
    requires i <= j < n
    ensures RowStart(n, i) <= RowStart(n, j)
    decreases j - i
  {
    if i < j {
      RowStartStep(n, i);
      RowStartMonotone(n, i + 1, j);
    }
  }

  lemma HostIndexInRow(n: nat, p: Pair)
    requires ValidPair(n, p)
    ensures RowStart(n, p.i) <= HostIndex(n, p) < RowStart(n, p.i + 1) <= PairCount(n)
    ensures 0 <= RowStart(n, p.i)
  {
    RowStartStep(n, p.i);
    RowStartMonotone(n, 0, p.i);
    RowStartMonotone(n, p.i + 1, n - 1);
    LastRowStart(n);
  }

  /** The host's counter numbers the pairs i < j < n without collisions ... */
  lemma HostIndexInjective(n: nat, p: Pair, q: Pair)
    requires ValidPair(n, p) && ValidPair(n, q)
    requires HostIndex(n, p) == HostIndex(n, q)
    ensures p == q
  {
    hide RowStart, HostIndex, PairCount;
    HostIndexInRow(n, p);
    HostIndexInRow(n, q);
    if p.i < q.i { RowStartMonotone(n, p.i + 1, q.i); }
    if q.i < p.i { RowStartMonotone(n, q.i + 1, p.i); }
    assert p.i == q.i;
    SameRow(n, p, q);
  }

  lemma SameRow(n: nat, p: Pair, q: Pair)
    requires p.i == q.i && HostIndex(n, p) == HostIndex(n, q)
    ensures p.j == q.j
  {
  }

  /** ... and without gaps: every index below n(n-1)/2 belongs to a pair, in row i or later. */
  function HostPair(n: nat, k: nat, i: nat): (p: Pair)
    requires i < n
    requires RowStart(n, i) <= k < PairCount(n)
    ensures ValidPair(n, p) && HostIndex(n, p) == k
    decreases n - i
  {
    RowStartStep(n, i);
    LastRowStart(n);
    if k < RowStart(n, i + 1) then Pair(i, k - RowStart(n, i) + i + 1) else HostPair(n, k, i + 1)
  }

  lemma HostIndexBijective(n: nat, k: nat)
    ensures k < PairCount(n) <==> exists p :: ValidPair(n, p) && HostIndex(n, p) == k
  {
    if k < PairCount(n) {
      RowStartStep(n, 0);
      var p := HostPair(n, k, 0);
    }
    if exists p :: ValidPair(n, p) && HostIndex(n, p) == k {
      var p :| ValidPair(n, p) && HostIndex(n, p) == k;
      HostIndexInRow(n, p);
    }
  }

  // ----- the two disagree ----------------------------------------------------------------------------

  /** The kernel's comment claims one numbering for both sides. The pair the kernel computes at the
      host's index of (i, j) is (i, j) itself only for the very first pair. */
  lemma NumberingsAgreeOnlyAtZero(n: nat, p: Pair)
    requires ValidPair(n, p)
    ensures HostIndex(n, p) >= 0
    ensures KernelPair(HostIndex(n, p)) == p <==> p == Pair(0, 1)
  {
    hide KernelPair;
    HostIndexInRow(n, p);
    var k := HostIndex(n, p);
    KernelPairShape(k);
    TriangleTwice(p.i);
    RowStartTwice(n, p.i);
    if KernelPair(k) == p {
      assert p.i * (p.i + 1) == p.i * (2 * n - p.i - 1);
      if p.i > 0 { CancelFactor(p.i, p.i + 1, 2 * n - p.i - 1); }
    }
    if p == Pair(0, 1) {
      FirstKernelPair();
    }
  }

  lemma CancelFactor(a: nat, x: int, y: int)
    requires a > 0 && a * x == a * y
    ensures x == y
  {
    ScaleOrder(a, x, y);
    ScaleOrder(a, y, x);
    assert x * a == y * a;
  }

  lemma FirstKernelPair()
    ensures KernelPair(0) == Pair(0, 1)
  {
    KernelPairShape(0);
    var p := KernelPair(0);
    KernelRowIsLargest(0);
    if p.i > 0 { TriangleStep(0); TriangleMonotone(1, p.i); }
  }

  /** So the kernel covers exactly the pairs below n, in some order, only for at most two objects. */
  lemma KernelInRangeOnlyUpToTwo(n: nat)
    ensures (forall k: nat :: k < PairCount(n) ==> KernelPair(k).j < n) <==> n <= 2
  {
    hide KernelPair;
    if n <= 2 {
      FirstKernelPair();
      assert Triangle(0) == 0 && Triangle(1) == 1;
    } else {
      KernelPairOf(n - 2, n);
      TriangleStep(n - 2);
      assert Triangle(n - 2) + 1 < PairCount(n) by { assert PairCount(n) == Triangle(n - 1); }
    }
  }

  lemma KernelPairOf(i: nat, j: nat)
    requires i < j <= 2 * i + 1
    ensures KernelPair(Triangle(i) + j - i - 1) == Pair(i, j)
  {
    var k := Triangle(i) + j - i - 1;
    KernelRowIsLargest(k);
    TriangleStep(i);
    var r := KernelRow(k);
    if r < i { TriangleMonotone(r + 1, i); }
    if i < r { TriangleMonotone(i + 1, r); }
  }

  // ----- row-major grid ------------------------------------------------------------------------------

  /** k/m and k%m invert i*m + j. */
  lemma FlatIndex(m: nat, i: nat, j: nat)
    requires j < m
    ensures (i * m + j) / m == i && (i * m + j) % m == j
  {
    var k := i * m + j;
    DivisionFacts(k, m);
    ScaleOrder(m, k / m, i);
    ScaleOrder(m, i, k / m);
  }

  lemma DivisionFacts(k: nat, m: nat)
    requires m > 0
    ensures k == k / m * m + k % m && 0 <= k % m < m && 0 <= k / m
  {
  }

  lemma FlatIndexBound(n: nat, m: nat, i: nat, j: nat)
    requires i < n && j < m
    ensures i * m + j < n * m
  {
    ScaleOrder(m, i, n);
  }

  lemma FlatInverse(n: nat, m: nat, k: nat)
    requires k < n * m
    ensures m > 0 && k / m < n && k % m < m && k / m * m + k % m == k
  {
    DivisionFacts(k, m);
    ScaleOrder(m, n, k / m);
  }
}
