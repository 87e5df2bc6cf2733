/** `CoalGPUCollisionManager`: registered objects, flattened boxes, the kernels, and the host scans
    that call back on candidate pairs and may stop early. */
module Broadphase {
  import opened PairIndexing
  import opened Boxes

  /** A registered object: its identity and its current box. */
  datatype Body = Body(id: nat, aabb: Aabb)

  // ----- flattened boxes ------------------------------------------------------------------------

  function BoxAt(flat: seq<real>, i: nat): Aabb
    requires i * 6 + 6 <= |flat|
  {
    Aabb(Vec(flat[i * 6 + 0], flat[i * 6 + 1], flat[i * 6 + 2]), Vec(flat[i * 6 + 3], flat[i * 6 + 4], flat[i * 6 + 5]))
  }

  ghost predicate Flattened(flat: seq<real>, objs: seq<Body>) {
    |flat| == 6 * |objs| && forall i: nat :: i < |objs| ==> BoxAt(flat, i) == objs[i].aabb
  }

  method ExtractAABBs(objs: seq<Body>) returns (out: array<real>)
    ensures fresh(out)
    ensures Flattened(out[..], objs)
  {
    out := new real[6 * |objs|](_ => 0.0);
    var i := 0;
    while i < |objs|
      invariant 0 <= i <= |objs|
      invariant out.Length == 6 * |objs|
      invariant forall l: nat :: l < i ==> BoxAt(out[..], l) == objs[l].aabb
    {
      var aabb := objs[i].aabb;
      out[i * 6 + 0], out[i * 6 + 1], out[i * 6 + 2] := aabb.min.x, aabb.min.y, aabb.min.z;
      out[i * 6 + 3], out[i * 6 + 4], out[i * 6 + 5] := aabb.max.x, aabb.max.y, aabb.max.z;
      i := i + 1;
    }
  }

  // ----- kernels ----------------------------------------------------------------------------------

  function Flat(m: nat, i: nat, j: nat): nat {
    i * m + j
  }

  /** `cells` holds, for each object i of the first list and j of the second, the value of f. */
  ghost predicate Grid<T(!new)>(cells: seq<T>, f: (Aabb, Aabb) -> T, objs1: seq<Body>, objs2: seq<Body>) {
    && |cells| == |objs1| * |objs2|
    && forall i: nat, j: nat :: i < |objs1| && j < |objs2| ==>
         Flat(|objs2|, i, j) < |cells| && cells[Flat(|objs2|, i, j)] == f(objs1[i].aabb, objs2[j].aabb)
  }

  /** Work item k computes cell (k/m, k%m). */
  ghost predicate ByWorkItem<T(!new)>(cells: seq<T>, f: (Aabb, Aabb) -> T, objs1: seq<Body>, objs2: seq<Body>) {
    && |cells| == |objs1| * |objs2|
    && forall k: nat :: k < |cells| ==>
         CellInRange(|objs1|, |objs2|, k) && cells[k] == f(objs1[k / |objs2|].aabb, objs2[k % |objs2|].aabb)
  }

  predicate CellInRange(n: nat, m: nat, k: nat) {
    m > 0 && k / m < n
  }

  lemma WorkItemsFillGrid<T(!new)>(cells: seq<T>, f: (Aabb, Aabb) -> T, objs1: seq<Body>, objs2: seq<Body>)
    requires ByWorkItem(cells, f, objs1, objs2)
    ensures Grid(cells, f, objs1, objs2)
  {
    forall i: nat, j: nat | i < |objs1| && j < |objs2|
      ensures Flat(|objs2|, i, j) < |cells| && cells[Flat(|objs2|, i, j)] == f(objs1[i].aabb, objs2[j].aabb)
    {
      FlatIndexBound(|objs1|, |objs2|, i, j);
      FlatIndex(|objs2|, i, j);
    }
  }

  lemma CellsInRange(n: nat, m: nat)
    ensures forall k: nat :: k < n * m ==> CellInRange(n, m, k)
  {
    forall k: nat | k < n * m
      ensures CellInRange(n, m, k)
    {
      FlatInverse(n, m, k);
    }
  }

  lemma ItemInRange(n: nat, m: nat, k: nat)
    requires CellInRange(n, m, k)
    ensures m > 0 && k / m < n && 0 <= k / m && 0 <= k % m < m
  {
    DivisionFacts(k, m);
  }

  /** Work item k of a cross kernel reads box k/m of one buffer and box k%m of the other. */
  function CrossItem<T>(f: (Aabb, Aabb) -> T, flat1: seq<real>, flat2: seq<real>, n: nat, m: nat, k: nat): T
    requires CellInRange(n, m, k)
    requires |flat1| == 6 * n && |flat2| == 6 * m
  {
    ItemInRange(n, m, k);
    f(BoxAt(flat1, k / m), BoxAt(flat2, k % m))
  }

  lemma ItemOfBodies<T(!new)>(f: (Aabb, Aabb) -> T, flat1: seq<real>, flat2: seq<real>,
                              objs1: seq<Body>, objs2: seq<Body>, k: nat)
    requires Flattened(flat1, objs1) && Flattened(flat2, objs2)
    requires CellInRange(|objs1|, |objs2|, k)
    ensures |objs2| > 0 && k / |objs2| < |objs1| && 0 <= k % |objs2| < |objs2| && 0 <= k / |objs2|
    ensures |flat1| == 6 * |objs1| && |flat2| == 6 * |objs2|
    ensures CrossItem(f, flat1, flat2, |objs1|, |objs2|, k) == f(objs1[k / |objs2|].aabb, objs2[k % |objs2|].aabb)
  {
    hide BoxAt, CellInRange;
    ItemInRange(|objs1|, |objs2|, k);
    var i, j := k / |objs2|, k % |objs2|;
    assert BoxAt(flat1, i) == objs1[i].aabb && BoxAt(flat2, j) == objs2[j].aabb;
  }

  lemma ItemsFillGrid<T(!new)>(cells: seq<T>, f: (Aabb, Aabb) -> T, flat1: seq<real>, flat2: seq<real>,
                               objs1: seq<Body>, objs2: seq<Body>)
    requires Flattened(flat1, objs1) && Flattened(flat2, objs2)
    requires |cells| == |objs1| * |objs2|
    requires forall k: nat :: k < |cells| ==>
      CellInRange(|objs1|, |objs2|, k) && cells[k] == CrossItem(f, flat1, flat2, |objs1|, |objs2|, k)
    ensures Grid(cells, f, objs1, objs2)
  {
    hide BoxAt, CellInRange, Grid, Flattened, CrossItem;
    forall k: nat | k < |cells|
      ensures CellInRange(|objs1|, |objs2|, k) && |objs2| > 0 && k / |objs2| < |objs1|
      ensures cells[k] == f(objs1[k / |objs2|].aabb, objs2[k % |objs2|].aabb)
    {
      ItemOfBodies(f, flat1, flat2, objs1, objs2, k);
    }
    WorkItemsFillGrid(cells, f, objs1, objs2);
  }

  /** aabbOverlapCross: n*m independent work items. */
  method OverlapCrossKernel(aabbs1: array<real>, aabbs2: array<real>, ghost objs1: seq<Body>, ghost objs2: seq<Body>,
                            n: nat, m: nat) returns (overlaps: array<bool>)
    requires n == |objs1| && m == |objs2|
    requires Flattened(aabbs1[..], objs1) && Flattened(aabbs2[..], objs2)
    ensures fresh(overlaps)
    ensures Grid(overlaps[..], (a, b) => Overlap(a, b), objs1, objs2)
  {
    hide Overlap, Grid, BoxAt, CellInRange, CrossItem;
    var flat1, flat2 := aabbs1[..], aabbs2[..];
    overlaps := new bool[n * m];
    CellsInRange(n, m);
    forall k: nat | k < overlaps.Length {
      overlaps[k] := CrossItem((a, b) => Overlap(a, b), flat1, flat2, n, m, k);
    }
    ItemsFillGrid(overlaps[..], (a, b) => Overlap(a, b), flat1, flat2, objs1, objs2);
  }

  /** aabbDistanceCross. */
  method DistanceCrossKernel(aabbs1: array<real>, aabbs2: array<real>, ghost objs1: seq<Body>, ghost objs2: seq<Body>,
                             n: nat, m: nat) returns (distances: array<real>)
    requires n == |objs1| && m == |objs2|
    requires Flattened(aabbs1[..], objs1) && Flattened(aabbs2[..], objs2)
    ensures fresh(distances)
    ensures Grid(distances[..], (a, b) => BoxDistance(a, b), objs1, objs2)
  {
    hide BoxDistance, Grid, BoxAt, CellInRange, CrossItem;
    var flat1, flat2 := aabbs1[..], aabbs2[..];
    distances := new real[n * m];
    CellsInRange(n, m);
    forall k: nat | k < distances.Length {
      distances[k] := CrossItem((a, b) => BoxDistance(a, b), flat1, flat2, n, m, k);
    }
    ItemsFillGrid(distances[..], (a, b) => BoxDistance(a, b), flat1, flat2, objs1, objs2);
  }

  // ----- reference: brute force in row-major order ---------------------------------------------------

  /** The overlapping pairs among the first k cells of the grid, row by row. */
  ghost function Candidates(objs1: seq<Body>, objs2: seq<Body>, k: nat): (r: seq<Pair>)
    requires k <= |objs1| * |objs2|
    ensures forall p :: p in r ==> p.i < |objs1| && p.j < |objs2| && Overlap(objs1[p.i].aabb, objs2[p.j].aabb)
  {
    if k == 0 then []
    else
      var m := |objs2|;
      FlatInverse(|objs1|, m, k - 1);
      var i, j := (k - 1) / m, (k - 1) % m;
      Candidates(objs1, objs2, k - 1) + if Overlap(objs1[i].aabb, objs2[j].aabb) then [Pair(i, j)] else []
  }

  ghost function AllCandidates(objs1: seq<Body>, objs2: seq<Body>): seq<Pair> {
    Candidates(objs1, objs2, |objs1| * |objs2|)
  }

  lemma {:induction false} CandidatesUpTo(objs1: seq<Body>, objs2: seq<Body>, k: nat)
    requires k <= |objs1| * |objs2|
    ensures forall i: nat, j: nat :: i < |objs1| && j < |objs2| && Flat(|objs2|, i, j) < k ==>
      (Pair(i, j) in Candidates(objs1, objs2, k) <==> Overlap(objs1[i].aabb, objs2[j].aabb))
    ensures forall p :: p in Candidates(objs1, objs2, k) ==> Flat(|objs2|, p.i, p.j) < k
    ensures forall a, b :: 0 <= a < b < |Candidates(objs1, objs2, k)| ==>
      Flat(|objs2|, Candidates(objs1, objs2, k)[a].i, Candidates(objs1, objs2, k)[a].j) <
      Flat(|objs2|, Candidates(objs1, objs2, k)[b].i, Candidates(objs1, objs2, k)[b].j)
  {
    hide Overlap, Flat;
    if k > 0 {
      var m := |objs2|;
      CandidatesUpTo(objs1, objs2, k - 1);
      FlatInverse(|objs1|, m, k - 1);
      FlatOf(m, k - 1);
      forall i: nat, j: nat | i < |objs1| && j < m && Flat(m, i, j) == k - 1
        ensures i == (k - 1) / m && j == (k - 1) % m
      {
        FlatUnique(m, i, j);
      }
    }
  }

  lemma FlatOf(m: nat, k: nat)
    requires m > 0
    ensures Flat(m, k / m, k % m) == k
  {
    DivisionFacts(k, m);
  }

  lemma FlatUnique(m: nat, i: nat, j: nat)
    requires j < m
    ensures Flat(m, i, j) / m == i && Flat(m, i, j) % m == j
  {
    FlatIndex(m, i, j);
  }

  /** Brute force: exactly the overlapping pairs, each once, in row-major order. */
  lemma CandidatesAreTheOverlaps(objs1: seq<Body>, objs2: seq<Body>)
    ensures forall p: Pair :: p in AllCandidates(objs1, objs2) <==>
      p.i < |objs1| && p.j < |objs2| && Overlap(objs1[p.i].aabb, objs2[p.j].aabb)
    ensures forall a, b :: 0 <= a < b < |AllCandidates(objs1, objs2)| ==>
      Flat(|objs2|, AllCandidates(objs1, objs2)[a].i, AllCandidates(objs1, objs2)[a].j) <
      Flat(|objs2|, AllCandidates(objs1, objs2)[b].i, AllCandidates(objs1, objs2)[b].j)
  {
    hide Overlap;
    CandidatesUpTo(objs1, objs2, |objs1| * |objs2|);
    forall p: Pair | p.i < |objs1| && p.j < |objs2|
      ensures Flat(|objs2|, p.i, p.j) < |objs1| * |objs2|
    {
      FlatIndexBound(|objs1|, |objs2|, p.i, p.j);
    }
  }

  // ----- early exit ------------------------------------------------------------------------------------

  /** A callback decides from the calls made so far, the current one last, whether to stop. */
  type Stop = seq<Pair> -> bool

  /** xs up to and including the first call that stops; all of xs when none does. */
  function UpToStop(xs: seq<Pair>, stop: Stop, k: nat): (r: seq<Pair>)
    requires k <= |xs|
    decreases |xs| - k
  {
    if k == |xs| then xs
    else if stop(xs[..k + 1]) then xs[..k + 1]
    else UpToStop(xs, stop, k + 1)
  }

  /** The calls are the first of xs, up to one that stops, and none before it stops; or all of xs. */
  lemma {:induction false} StopsExactly(xs: seq<Pair>, stop: Stop, k: nat)
    requires k <= |xs|
    requires forall l :: 0 < l <= k ==> !stop(xs[..l])
    ensures var calls := UpToStop(xs, stop, k);
            && calls <= xs
            && (forall l :: 0 < l < |calls| ==> !stop(xs[..l]))
            && (calls == xs || (calls != [] && stop(calls)))
    decreases |xs| - k
  {
    if k < |xs| {
      if !stop(xs[..k + 1]) { StopsExactly(xs, stop, k + 1); }
    } else {
      assert xs[..k] == xs;
    }
  }

  ghost predicate NoStopIn(calls: seq<Pair>, stop: Stop) {
    forall l :: 0 < l <= |calls| ==> !stop(calls[..l])
  }

  lemma {:induction false} StopsAt(xs: seq<Pair>, stop: Stop, k: nat, l: nat)
    requires k < l <= |xs|
    requires forall n :: k < n < l ==> !stop(xs[..n])
    requires stop(xs[..l])
    ensures UpToStop(xs, stop, k) == xs[..l]
    decreases l - k
  {
    if k + 1 < l { StopsAt(xs, stop, k + 1, l); }
  }

  lemma {:induction false} NeverStops(xs: seq<Pair>, stop: Stop, k: nat)
    requires k <= |xs|
    requires forall n :: k < n <= |xs| ==> !stop(xs[..n])
    ensures UpToStop(xs, stop, k) == xs
    decreases |xs| - k
  {
    if k < |xs| { NeverStops(xs, stop, k + 1); }
  }

  /** The calls made so far are a prefix of all candidates, and none of them stopped; the next call
      either ends the scan as `UpToStop` says or leaves both facts true. */
  lemma CallStep(all: seq<Pair>, calls: seq<Pair>, next: seq<Pair>, stop: Stop)
    requires next <= all && |next| == |calls| + 1 && calls == next[..|calls|]
    requires NoStopIn(calls, stop)
    ensures stop(next) ==> UpToStop(all, stop, 0) == next
    ensures !stop(next) ==> NoStopIn(next, stop)
  {
    assert forall l :: 0 < l <= |calls| ==> next[..l] == calls[..l] == all[..l];
    assert next[..|next|] == next == all[..|next|];
    if stop(next) { StopsAt(all, stop, 0, |next|); }
  }

  lemma ScanComplete(all: seq<Pair>, stop: Stop)
    requires NoStopIn(all, stop)
    ensures UpToStop(all, stop, 0) == all
  {
    NeverStops(all, stop, 0);
  }

  lemma {:induction false} CandidatesPrefix(objs1: seq<Body>, objs2: seq<Body>, k: nat, l: nat)
    requires k <= l <= |objs1| * |objs2|
    ensures Candidates(objs1, objs2, k) <= Candidates(objs1, objs2, l)
    decreases l - k
  {
    hide Overlap;
    if k < l { CandidatesPrefix(objs1, objs2, k, l - 1); }
  }

  lemma NextCandidate(objs1: seq<Body>, objs2: seq<Body>, i: nat, j: nat)
    requires i < |objs1| && j < |objs2|
    ensures Flat(|objs2|, i, j) + 1 <= |objs1| * |objs2|
    ensures Candidates(objs1, objs2, Flat(|objs2|, i, j) + 1) ==
            Candidates(objs1, objs2, Flat(|objs2|, i, j)) + if Overlap(objs1[i].aabb, objs2[j].aabb) then [Pair(i, j)] else []
    ensures Candidates(objs1, objs2, Flat(|objs2|, i, j) + 1) <= AllCandidates(objs1, objs2)
  {
    hide Overlap;
    FlatIndexBound(|objs1|, |objs2|, i, j);
    FlatIndex(|objs2|, i, j);
    CandidatesPrefix(objs1, objs2, Flat(|objs2|, i, j) + 1, |objs1| * |objs2|);
  }
}
