/** The manager's host code: registration, and the collide and distance scans over kernel output. */
module GpuCollisionManager {
  import opened PairIndexing
  import opened Boxes
  import opened Broadphase

  /** True squared distance of a pair, as the narrow phase would measure it. */
  type Truth = Pair -> real

  /** `minDist` is the least true distance of all pairs, or the initial value when none is below it. */
  ghost predicate IsMinimum(minDist: real, n: nat, m: nat, truth: Truth, initial: real) {
    && minDist <= initial
    && (forall p: Pair :: p.i < n && p.j < m ==> minDist <= truth(p))
    && (minDist == initial || exists p: Pair :: p.i < n && p.j < m && minDist == truth(p))
  }

  /** The boxes contain the bodies: no pair is closer than its boxes. */
  ghost predicate BoxesBound(objs1: seq<Body>, objs2: seq<Body>, truth: Truth) {
    forall p: Pair :: p.i < |objs1| && p.j < |objs2| ==> BoxDistance(objs1[p.i].aabb, objs2[p.j].aabb) <= truth(p)
  }

  /** Minimum over the cells before flat index k. */
  ghost predicate MinimumSoFar(minDist: real, n: nat, m: nat, truth: Truth, initial: real, k: nat) {
    && minDist <= initial
    && (forall p: Pair :: p.i < n && p.j < m && Flat(m, p.i, p.j) < k ==> minDist <= truth(p))
    && (minDist == initial || exists p: Pair :: p.i < n && p.j < m && minDist == truth(p))
  }

  lemma MinimumStep(minDist: real, next: real, n: nat, m: nat, truth: Truth, initial: real, i: nat, j: nat)
    requires i < n && j < m
    requires MinimumSoFar(minDist, n, m, truth, initial, Flat(m, i, j))
    requires next == if truth(Pair(i, j)) < minDist then truth(Pair(i, j)) else minDist
    ensures MinimumSoFar(next, n, m, truth, initial, Flat(m, i, j) + 1)
  {
    hide Flat;
    forall p: Pair | p.i < n && p.j < m && Flat(m, p.i, p.j) == Flat(m, i, j)
      ensures p == Pair(i, j)
    {
      FlatUnique(m, p.i, p.j);
      FlatUnique(m, i, j);
    }
  }

  /** Among the cells before k, every pair the callback did not see has boxes at least minDist apart. */
  ghost predicate SkippedAreFar(minDist: real, calls: seq<Pair>, objs1: seq<Body>, objs2: seq<Body>, k: nat) {
    && (forall p :: p in calls ==> p.i < |objs1| && p.j < |objs2|)
    && forall p: Pair :: p.i < |objs1| && p.j < |objs2| && Flat(|objs2|, p.i, p.j) < k && p !in calls ==>
         minDist <= BoxDistance(objs1[p.i].aabb, objs2[p.j].aabb)
  }

  lemma NothingSkipped(minDist: real, objs1: seq<Body>, objs2: seq<Body>)
    ensures SkippedAreFar(minDist, [], objs1, objs2, 0)
  {
  }

  lemma SkipStep(before: real, minDist: real, made: seq<Pair>, calls: seq<Pair>, objs1: seq<Body>, objs2: seq<Body>, i: nat, j: nat)
    requires i < |objs1| && j < |objs2|
    requires SkippedAreFar(before, made, objs1, objs2, Flat(|objs2|, i, j))
    requires minDist <= before
    requires if BoxDistance(objs1[i].aabb, objs2[j].aabb) < before then calls == made + [Pair(i, j)] else calls == made
    ensures SkippedAreFar(minDist, calls, objs1, objs2, Flat(|objs2|, i, j) + 1)
  {
    hide Flat, BoxDistance;
    forall p: Pair | p.i < |objs1| && p.j < |objs2| && Flat(|objs2|, p.i, p.j) == Flat(|objs2|, i, j)
      ensures p == Pair(i, j)
    {
      FlatUnique(|objs2|, p.i, p.j);
      FlatUnique(|objs2|, i, j);
    }
  }

  /** The minimum after these calls. */
  ghost function Least(initial: real, calls: seq<Pair>, truth: Truth): real {
    if calls == [] then initial
    else
      var before, d := Least(initial, calls[..|calls| - 1], truth), truth(calls[|calls| - 1]);
      if d < before then d else before
  }

  /** Calls in row-major order of an n by m grid, before cell k. */
  ghost predicate RowMajor(calls: seq<Pair>, n: nat, m: nat, k: nat) {
    && (forall p :: p in calls ==> p.i < n && p.j < m && Flat(m, p.i, p.j) < k)
    && forall a, b :: 0 <= a < b < |calls| ==> Flat(m, calls[a].i, calls[a].j) < Flat(m, calls[b].i, calls[b].j)
  }

  /** The pair's boxes are closer than the minimum after the calls before it. */
  ghost predicate CloserThanLeast(calls: seq<Pair>, a: nat, objs1: seq<Body>, objs2: seq<Body>, truth: Truth, initial: real)
    requires a < |calls|
    requires calls[a].i < |objs1| && calls[a].j < |objs2|
  {
    BoxDistance(objs1[calls[a].i].aabb, objs2[calls[a].j].aabb) < Least(initial, calls[..a], truth)
  }

  /** The calls come in row-major order, before cell k, and each is of a pair whose boxes are closer
      than the minimum at that moment. */
  ghost predicate Pruned(minDist: real, calls: seq<Pair>, objs1: seq<Body>, objs2: seq<Body>,
                         truth: Truth, initial: real, k: nat)
  {
    && minDist == Least(initial, calls, truth)
    && RowMajor(calls, |objs1|, |objs2|, k)
    && forall a: nat :: a < |calls| ==>
         calls[a] in calls && CloserThanLeast(calls, a, objs1, objs2, truth, initial)
  }

  lemma NothingPruned(objs1: seq<Body>, objs2: seq<Body>, truth: Truth, initial: real)
    ensures Pruned(initial, [], objs1, objs2, truth, initial, 0)
  {
  }

  lemma PruneStep(before: real, minDist: real, made: seq<Pair>, calls: seq<Pair>, objs1: seq<Body>, objs2: seq<Body>,
                  truth: Truth, initial: real, i: nat, j: nat)
    requires i < |objs1| && j < |objs2|
    requires Pruned(before, made, objs1, objs2, truth, initial, Flat(|objs2|, i, j))
    requires if BoxDistance(objs1[i].aabb, objs2[j].aabb) < before
             then calls == made + [Pair(i, j)] && minDist == if truth(Pair(i, j)) < before then truth(Pair(i, j)) else before
             else calls == made && minDist == before
    ensures Pruned(minDist, calls, objs1, objs2, truth, initial, Flat(|objs2|, i, j) + 1)
  {
    hide BoxDistance, RowMajor, CloserThanLeast, Least;
    RowMajorStep(made, |objs1|, |objs2|, i, j);
    if calls != made {
      RowMajorInGrid(calls, |objs1|, |objs2|, Flat(|objs2|, i, j) + 1);
      LeastStep(initial, made, Pair(i, j), truth);
      forall a: nat | a < |calls|
        ensures calls[a] in calls && CloserThanLeast(calls, a, objs1, objs2, truth, initial)
      {
        OneCloser(before, made, calls, objs1, objs2, truth, initial, i, j, a);
      }
    }
  }

  lemma LeastStep(initial: real, made: seq<Pair>, p: Pair, truth: Truth)
    ensures var before := Least(initial, made, truth);
            Least(initial, made + [p], truth) == if truth(p) < before then truth(p) else before
  {
    assert (made + [p])[..|made|] == made;
  }

  lemma RowMajorInGrid(calls: seq<Pair>, n: nat, m: nat, k: nat)
    requires RowMajor(calls, n, m, k)
    ensures forall a: nat :: a < |calls| ==> calls[a] in calls && calls[a].i < n && calls[a].j < m
  {
    assert forall a: nat :: a < |calls| ==> calls[a] in calls;
  }

  lemma OneCloser(before: real, made: seq<Pair>, calls: seq<Pair>, objs1: seq<Body>, objs2: seq<Body>,
                  truth: Truth, initial: real, i: nat, j: nat, a: nat)
    requires i < |objs1| && j < |objs2| && a < |calls| && calls == made + [Pair(i, j)]
    requires calls[a].i < |objs1| && calls[a].j < |objs2|
    requires before == Least(initial, made, truth) && BoxDistance(objs1[i].aabb, objs2[j].aabb) < before
    requires a < |made| ==> CloserThanLeast(made, a, objs1, objs2, truth, initial)
    ensures CloserThanLeast(calls, a, objs1, objs2, truth, initial)
  {
    hide BoxDistance, Least;
    assert calls[..|made|] == made;
    assert a < |made| ==> calls[..a] == made[..a] && calls[a] == made[a];
  }

  lemma RowMajorStep(made: seq<Pair>, n: nat, m: nat, i: nat, j: nat)
    requires i < n && j < m
    requires RowMajor(made, n, m, Flat(m, i, j))
    ensures RowMajor(made, n, m, Flat(m, i, j) + 1)
    ensures RowMajor(made + [Pair(i, j)], n, m, Flat(m, i, j) + 1)
  {
    hide Flat;
    var calls := made + [Pair(i, j)];
    forall a, b | 0 <= a < b < |calls|
      ensures Flat(m, calls[a].i, calls[a].j) < Flat(m, calls[b].i, calls[b].j)
    {
      assert calls[a] == made[a] && made[a] in made;
    }
  }

  lemma MinimumDone(minDist: real, n: nat, m: nat, truth: Truth, initial: real, k: nat)
    requires MinimumSoFar(minDist, n, m, truth, initial, k)
    requires k >= n * m
    ensures IsMinimum(minDist, n, m, truth, initial)
  {
    forall p: Pair | p.i < n && p.j < m
      ensures Flat(m, p.i, p.j) < k
    {
      FlatIndexBound(n, m, p.i, p.j);
    }
  }

  lemma RowEnd(m: nat, i: nat)
    ensures Flat(m, i, m) == Flat(m, i + 1, 0)
    ensures Flat(m, 0, 0) == 0
  {
  }

  class CoalGPUCollisionManager {
    var objects: seq<Body>

    constructor ()
      ensures objects == []
    {
      objects := [];
    }

    method RegisterObjects(otherObjs: seq<Body>)
      modifies this
      ensures objects == old(objects) + otherObjs
    {
      objects := objects + otherObjs;
    }

    method RegisterObject(obj: Body)
      modifies this
      ensures objects == old(objects) + [obj]
    {
      objects := objects + [obj];
    }

    /** Removes the first registration of the object and keeps the order of the rest. */
    method UnregisterObject(obj: Body)
      modifies this
      ensures obj.id !in Ids(old(objects)) ==> objects == old(objects)
      ensures obj.id in Ids(old(objects)) ==>
        exists k: nat :: k < |old(objects)| && old(objects)[k].id == obj.id && obj.id !in Ids(old(objects)[..k])
                         && objects == old(objects)[..k] + old(objects)[k + 1..]
    {
      var it := 0;
      while it < |objects| && objects[it].id != obj.id
        invariant 0 <= it <= |objects|
        invariant obj.id !in Ids(objects[..it])
      {
        it := it + 1;
      }
      if it < |objects| {
        objects := objects[..it] + objects[it + 1..];
      }
    }

    method Clear()
      modifies this
      ensures objects == []
    {
      objects := [];
    }

    /** Cross-manager collision: the callback sees exactly the overlapping pairs, in row-major
        order, up to and including the first that stops. */
    method CollideCross(otherObjs: seq<Body>, stop: Stop) returns (calls: seq<Pair>)
      ensures calls == UpToStop(AllCandidates(objects, otherObjs), stop, 0)
    {
      hide Overlap, Candidates, Flat, UpToStop;
      var n, m := |objects|, |otherObjs|;
      var aabbs1 := ExtractAABBs(objects);
      var aabbs2 := ExtractAABBs(otherObjs);
      var overlaps := OverlapCrossKernel(aabbs1, aabbs2, objects, otherObjs, n, m);
      ghost var all := AllCandidates(objects, otherObjs);
      calls := [];
      RowEnd(m, 0);
      NoCandidates(objects, otherObjs);
      var i := 0;
      while i < n
        invariant 0 <= i <= n
        invariant Grid(overlaps[..], (a, b) => Overlap(a, b), objects, otherObjs)
        invariant Flat(m, i, 0) <= n * m
        invariant calls == Candidates(objects, otherObjs, Flat(m, i, 0))
        invariant NoStopIn(calls, stop)
      {
        RowEnd(m, i);
        var j := 0;
        while j < m
          invariant 0 <= j <= m
          invariant Grid(overlaps[..], (a, b) => Overlap(a, b), objects, otherObjs)
          invariant Flat(m, i, j) <= n * m
          invariant calls == Candidates(objects, otherObjs, Flat(m, i, j))
          invariant NoStopIn(calls, stop)
        {
          NextCandidate(objects, otherObjs, i, j);
          NextFlat(m, i, j);
          FlatDefinition(m, i, j);
          if overlaps[i * m + j] {
            ghost var before := calls;
            calls := calls + [Pair(i, j)];
            CallStep(all, before, calls, stop);
            if stop(calls) {
              return;
            }
          }
          j := j + 1;
        }
        i := i + 1;
      }
      FlatDefinition(m, n, 0);
      ScanComplete(all, stop);
    }

    /** Collision with another manager. With itself it is the self check, over the flags its kernel wrote. */
    method CollideManager(other: CoalGPUCollisionManager, overlaps: seq<bool>, stop: Stop) returns (calls: seq<Pair>)
      requires FromSelfKernel(overlaps, objects)
      ensures this != other ==> calls == UpToStop(AllCandidates(objects, other.objects), stop, 0)
      ensures this == other ==> calls == UpToStop(SelfCandidates(|objects|, overlaps, |overlaps|), stop, 0)
    {
      if this == other {
        calls := CollideSelf(overlaps, stop);
      } else {
        calls := CollideCross(other.objects, stop);
      }
    }

    /** One query body against the managed objects. */
    method CollideOneVsAll(obj: Body, stop: Stop) returns (calls: seq<Pair>)
      ensures calls == UpToStop(AllCandidates([obj], objects), stop, 0)
    {
      hide Overlap, Candidates, Flat, UpToStop;
      var n := |objects|;
      var aabbs := ExtractAABBs(objects);
      var overlaps := new bool[n];
      forall k: nat | k < n {
        overlaps[k] := Overlap(obj.aabb, BoxAt(aabbs[..], k));
      }
      ghost var all := AllCandidates([obj], objects);
      calls := [];
      RowEnd(n, 0);
      NoCandidates([obj], objects);
      FlatDefinition(n, 1, 0);
      RowEnd(n, 0);
      var i := 0;
      while i < n
        invariant 0 <= i <= n
        invariant forall k: nat :: k < n ==> overlaps[k] == Overlap(obj.aabb, objects[k].aabb)
        invariant Flat(n, 0, i) <= 1 * n
        invariant calls == Candidates([obj], objects, Flat(n, 0, i))
        invariant NoStopIn(calls, stop)
      {
        NextCandidate([obj], objects, 0, i);
        NextFlat(n, 0, i);
        if overlaps[i] {
          ghost var before := calls;
          calls := calls + [Pair(0, i)];
          CallStep(all, before, calls, stop);
          if stop(calls) {
            return;
          }
        }
        i := i + 1;
      }
      ScanComplete(all, stop);
    }

    /** Cross-manager distance with pruning, for a callback that lowers the minimum to the pair's
        true distance and never stops: the result is the brute-force minimum, and every pair that
        was skipped was no closer. */
    method DistanceCross(otherObjs: seq<Body>, truth: Truth, initial: real) returns (minDist: real, calls: seq<Pair>)
      requires BoxesBound(objects, otherObjs, truth)
      ensures IsMinimum(minDist, |objects|, |otherObjs|, truth, initial)
      ensures SkippedAreFar(minDist, calls, objects, otherObjs, |objects| * |otherObjs|)
      ensures Pruned(minDist, calls, objects, otherObjs, truth, initial, |objects| * |otherObjs|)
    {
      hide BoxDistance, Flat, MinimumSoFar, IsMinimum, SkippedAreFar, Pruned;
      var n, m := |objects|, |otherObjs|;
      var aabbs1 := ExtractAABBs(objects);
      var aabbs2 := ExtractAABBs(otherObjs);
      var distances := DistanceCrossKernel(aabbs1, aabbs2, objects, otherObjs, n, m);
      minDist, calls := initial, [];
      RowEnd(m, 0);
      NothingYet(n, m, truth, initial);
      NothingSkipped(initial, objects, otherObjs);
      NothingPruned(objects, otherObjs, truth, initial);
      var i := 0;
      while i < n
        invariant 0 <= i <= n
        invariant Grid(distances[..], (a, b) => BoxDistance(a, b), objects, otherObjs)
        invariant MinimumSoFar(minDist, n, m, truth, initial, Flat(m, i, 0))
        invariant SkippedAreFar(minDist, calls, objects, otherObjs, Flat(m, i, 0))
        invariant Pruned(minDist, calls, objects, otherObjs, truth, initial, Flat(m, i, 0))
      {
        RowEnd(m, i);
        var j := 0;
        while j < m
          invariant 0 <= j <= m
          invariant Grid(distances[..], (a, b) => BoxDistance(a, b), objects, otherObjs)
          invariant MinimumSoFar(minDist, n, m, truth, initial, Flat(m, i, j))
          invariant SkippedAreFar(minDist, calls, objects, otherObjs, Flat(m, i, j))
          invariant Pruned(minDist, calls, objects, otherObjs, truth, initial, Flat(m, i, j))
        {
          FlatDefinition(m, i, j);
          NextFlat(m, i, j);
          var d := distances[i * m + j];
          ghost var before, made := minDist, calls;
          assert d <= truth(Pair(i, j));
          if d < minDist {
            calls := calls + [Pair(i, j)];
            if truth(Pair(i, j)) < minDist {
              minDist := truth(Pair(i, j));
            }
          }
          MinimumStep(before, minDist, n, m, truth, initial, i, j);
          SkipStep(before, minDist, made, calls, objects, otherObjs, i, j);
          PruneStep(before, minDist, made, calls, objects, otherObjs, truth, initial, i, j);
          j := j + 1;
        }
        i := i + 1;
      }
      FlatDefinition(m, n, 0);
      MinimumDone(minDist, n, m, truth, initial, Flat(m, n, 0));
    }

    method DistanceOneVsAll(obj: Body, truth: Truth, initial: real) returns (minDist: real, calls: seq<Pair>)
      requires BoxesBound([obj], objects, truth)
      ensures IsMinimum(minDist, 1, |objects|, truth, initial)
      ensures SkippedAreFar(minDist, calls, [obj], objects, |objects|)
      ensures Pruned(minDist, calls, [obj], objects, truth, initial, |objects|)
    {
      hide BoxDistance, Flat, MinimumSoFar, IsMinimum, SkippedAreFar, Pruned;
      var n := |objects|;
      var aabbs := ExtractAABBs(objects);
      var distances := new real[n];
      forall k: nat | k < n {
        distances[k] := BoxDistance(obj.aabb, BoxAt(aabbs[..], k));
      }
      minDist, calls := initial, [];
      RowEnd(n, 0);
      NothingYet(1, n, truth, initial);
      NothingSkipped(initial, [obj], objects);
      NothingPruned([obj], objects, truth, initial);
      var i := 0;
      while i < n
        invariant 0 <= i <= n
        invariant forall k: nat :: k < n ==> distances[k] == BoxDistance(obj.aabb, objects[k].aabb)
        invariant MinimumSoFar(minDist, 1, n, truth, initial, Flat(n, 0, i))
        invariant SkippedAreFar(minDist, calls, [obj], objects, Flat(n, 0, i))
        invariant Pruned(minDist, calls, [obj], objects, truth, initial, Flat(n, 0, i))
      {
        NextFlat(n, 0, i);
        ghost var before, made := minDist, calls;
        assert BoxDistance([obj][0].aabb, objects[i].aabb) <= truth(Pair(0, i));
        if distances[i] < minDist {
          calls := calls + [Pair(0, i)];
          if truth(Pair(0, i)) < minDist {
            minDist := truth(Pair(0, i));
          }
        }
        MinimumStep(before, minDist, 1, n, truth, initial, 0, i);
        SkipStep(before, minDist, made, calls, [obj], objects, 0, i);
        PruneStep(before, minDist, made, calls, [obj], objects, truth, initial, 0, i);
        i := i + 1;
      }
      FlatDefinition(n, 0, n);
      MinimumDone(minDist, 1, n, truth, initial, Flat(n, 0, n));
    }

    /** The self-check scan: flag k decides whether the pair at the host's counter k is reported. */
    method CollideSelf(overlaps: seq<bool>, stop: Stop) returns (calls: seq<Pair>)
      requires |overlaps| == PairCount(|objects|)
      ensures calls == UpToStop(SelfCandidates(|objects|, overlaps, |overlaps|), stop, 0)
    {
      hide UpToStop, HostIndex, RowStart, PairCount, HostPair;
      var n := |objects|;
      ghost var all := SelfCandidates(n, overlaps, |overlaps|);
      calls := [];
      var k := 0;
      CounterStart(n);
      var i := 0;
      while i < n
        invariant 0 <= i <= n
        invariant k <= |overlaps| && k == RowStart(n, i)
        invariant calls == SelfCandidates(n, overlaps, k)
        invariant NoStopIn(calls, stop)
      {
        var j := i + 1;
        CounterInRow(n, i);
        while j < n
          invariant i < j <= n
          invariant k == RowStart(n, i) + j - i - 1 <= |overlaps|
          invariant calls == SelfCandidates(n, overlaps, k)
          invariant NoStopIn(calls, stop)
        {
          CounterAtPair(n, i, j);
          SelfPrefix(n, overlaps, k + 1, |overlaps|);
          if overlaps[k] {
            ghost var before := calls;
            calls := calls + [Pair(i, j)];
            CallStep(all, before, calls, stop);
            if stop(calls) {
              return;
            }
          }
          j, k := j + 1, k + 1;
        }
        i := i + 1;
      }
      CounterEnd(n);
      ScanComplete(all, stop);
    }

    /** The self-distance scan: cell k is taken for the box distance of the pair at the host's counter k. */
    method DistanceSelf(distances: seq<real>, truth: Truth, initial: real) returns (minDist: real)
      requires |distances| == PairCount(|objects|)
      ensures minDist == SelfMinimum(|objects|, distances, truth, initial, |distances|)
    {
      hide HostIndex, RowStart, PairCount, HostPair;
      var n := |objects|;
      minDist := initial;
      var k := 0;
      CounterStart(n);
      var i := 0;
      while i < n
        invariant 0 <= i <= n
        invariant k <= |distances| && k == RowStart(n, i)
        invariant minDist == SelfMinimum(n, distances, truth, initial, k)
      {
        var j := i + 1;
        CounterInRow(n, i);
        while j < n
          invariant i < j <= n
          invariant k == RowStart(n, i) + j - i - 1 <= |distances|
          invariant minDist == SelfMinimum(n, distances, truth, initial, k)
        {
          CounterAtPair(n, i, j);
          if distances[k] < minDist && truth(Pair(i, j)) < minDist {
            minDist := truth(Pair(i, j));
          }
          j, k := j + 1, k + 1;
        }
        i := i + 1;
      }
      CounterEnd(n);
    }

    /** Distance to another manager; to itself it is the self scan, over the cells its kernel wrote. */
    method DistanceManager(other: CoalGPUCollisionManager, distances: seq<real>, truth: Truth, initial: real)
      returns (minDist: real)
      requires FromSelfDistanceKernel(distances, objects)
      requires this != other ==> BoxesBound(objects, other.objects, truth)
      ensures this != other ==> IsMinimum(minDist, |objects|, |other.objects|, truth, initial)
      ensures this == other ==> minDist == SelfMinimum(|objects|, distances, truth, initial, |distances|)
    {
      if this == other {
        minDist := DistanceSelf(distances, truth, initial);
      } else {
        ghost var calls;
        minDist, calls := DistanceCross(other.objects, truth, initial);
      }
    }
  }

  function Ids(objs: seq<Body>): set<nat> {
    set o | o in objs :: o.id
  }

  lemma NoCandidates(objs1: seq<Body>, objs2: seq<Body>)
    ensures Candidates(objs1, objs2, 0) == []
  {
  }

  lemma NextFlat(m: nat, i: nat, j: nat)
    ensures Flat(m, i, j + 1) == Flat(m, i, j) + 1
  {
  }

  lemma FlatDefinition(m: nat, i: nat, j: nat)
    ensures Flat(m, i, j) == i * m + j
  {
  }

  lemma NothingYet(n: nat, m: nat, truth: Truth, initial: real)
    ensures MinimumSoFar(initial, n, m, truth, initial, 0)
  {
  }

  // ----- self check --------------------------------------------------------------------------------

  /** The pairs reported for the first k flags, by the host's numbering. */
  ghost function SelfCandidates(n: nat, overlaps: seq<bool>, k: nat): (r: seq<Pair>)
    requires k <= |overlaps| == PairCount(n)
    ensures forall p :: p in r ==> ValidPair(n, p) && 0 <= HostIndex(n, p) < k && overlaps[HostIndex(n, p)]
  {
    if k == 0 then []
    else
      RowStartStep(n, 0);
      SelfCandidates(n, overlaps, k - 1) + if overlaps[k - 1] then [HostPair(n, k - 1, 0)] else []
  }

  lemma {:induction false} SelfPrefix(n: nat, overlaps: seq<bool>, k: nat, l: nat)
    requires k <= l <= |overlaps| == PairCount(n)
    ensures SelfCandidates(n, overlaps, k) <= SelfCandidates(n, overlaps, l)
    decreases l - k
  {
    if k < l { SelfPrefix(n, overlaps, k, l - 1); }
  }

  lemma CounterStart(n: nat)
    ensures RowStart(n, 0) == 0
  {
  }

  lemma CounterInRow(n: nat, i: nat)
    requires i < n
    ensures RowStart(n, i + 1) == RowStart(n, i) + n - i - 1
    ensures 0 <= RowStart(n, i) <= PairCount(n)
  {
    RowStartStep(n, i);
    RowStartStep(n, 0);
    RowStartMonotone(n, 0, i);
    RowStartMonotone(n, i, n - 1);
    LastRowStart(n);
  }

  lemma CounterAtPair(n: nat, i: nat, j: nat)
    requires i < j < n
    ensures var k := RowStart(n, i) + j - i - 1;
            && 0 <= k < PairCount(n) && RowStart(n, 0) <= k
            && HostPair(n, k, 0) == Pair(i, j)
  {
    RowStartStep(n, 0);
    HostIndexInRow(n, Pair(i, j));
    HostIndexInjective(n, Pair(i, j), HostPair(n, HostIndex(n, Pair(i, j)), 0));
  }

  lemma CounterEnd(n: nat)
    ensures RowStart(n, n) == PairCount(n)
  {
    if n > 0 {
      RowStartStep(n, n - 1);
      LastRowStart(n);
    }
  }

  /** What the self-check kernel writes: the overlap of the pair it decodes, while that pair exists;
      nothing is known about the other cells. */
  ghost predicate FromSelfKernel(overlaps: seq<bool>, objs: seq<Body>) {
    && |overlaps| == PairCount(|objs|)
    && forall k: nat :: k < |overlaps| && KernelPair(k).j < |objs| ==>
         overlaps[k] == (KernelPair(k).i < |objs| && Overlap(objs[KernelPair(k).i].aabb, objs[KernelPair(k).j].aabb))
  }

  lemma {:induction false} SelfCandidatesUpTo(n: nat, overlaps: seq<bool>, k: nat, p: Pair)
    requires k <= |overlaps| == PairCount(n)
    requires ValidPair(n, p) && HostIndex(n, p) < k
    ensures 0 <= HostIndex(n, p)
    ensures p in SelfCandidates(n, overlaps, k) <==> overlaps[HostIndex(n, p)]
  {
    hide RowStart, HostIndex, PairCount, HostPair;
    HostIndexInRow(n, p);
    RowStartStep(n, 0);
    if HostIndex(n, p) < k - 1 {
      SelfCandidatesUpTo(n, overlaps, k - 1, p);
      if p == HostPair(n, k - 1, 0) {
        assert false;
      }
    } else {
      HostIndexInjective(n, p, HostPair(n, k - 1, 0));
    }
  }

  ghost predicate InHostOrder(n: nat, r: seq<Pair>) {
    forall a, b :: 0 <= a < b < |r| ==> HostIndex(n, r[a]) < HostIndex(n, r[b])
  }

  /** The host's order: pairs are reported by increasing counter, each once. */
  lemma {:induction false} SelfCandidatesInOrder(n: nat, overlaps: seq<bool>, k: nat)
    requires k <= |overlaps| == PairCount(n)
    ensures InHostOrder(n, SelfCandidates(n, overlaps, k))
  {
    hide HostIndex, RowStart;
    if k > 0 {
      SelfCandidatesInOrder(n, overlaps, k - 1);
      RowStartStep(n, 0);
      var r, all, q := SelfCandidates(n, overlaps, k - 1), SelfCandidates(n, overlaps, k), HostPair(n, k - 1, 0);
      assert all == r + if overlaps[k - 1] then [q] else [];
      forall a, b | 0 <= a < b < |all|
        ensures HostIndex(n, all[a]) < HostIndex(n, all[b])
      {
        assert all[a] == r[a] && r[a] in r;
        assert HostIndex(n, r[a]) < k - 1;
        if b < |r| {
          assert all[b] == r[b];
        } else {
          assert all[b] == q && HostIndex(n, q) == k - 1;
        }
      }
    }
  }

  // ----- what the self check reports -------------------------------------------------------------

  /** A valid pair p is reported exactly when the boxes of another pair overlap: the pair the kernel
      decodes from p's counter. It is p itself only for the first pair. */
  lemma SelfCheckReportsAnotherPair(objs: seq<Body>, overlaps: seq<bool>, p: Pair)
    requires ValidPair(|objs|, p) && FromSelfKernel(overlaps, objs)
    ensures HostIndex(|objs|, p) >= 0
    ensures var q := KernelPair(HostIndex(|objs|, p));
            && (q == p <==> p == Pair(0, 1))
            && q.i < q.j
            && (q.j < |objs| ==>
                  (p in SelfCandidates(|objs|, overlaps, |overlaps|) <==> Overlap(objs[q.i].aabb, objs[q.j].aabb)))
  {
    hide KernelPair, Overlap, PairCount, HostIndex;
    HostIndexInRow(|objs|, p);
    NumberingsAgreeOnlyAtZero(|objs|, p);
    KernelPairShape(HostIndex(|objs|, p));
    SelfCandidatesUpTo(|objs|, overlaps, |overlaps|, p);
  }

  /** The scan over these flags reports the overlapping pairs and no others. */
  ghost predicate ScanIsBruteForce(objs: seq<Body>, overlaps: seq<bool>)
    requires |overlaps| == PairCount(|objs|)
  {
    forall p :: ValidPair(|objs|, p) ==>
      (p in SelfCandidates(|objs|, overlaps, |overlaps|) <==> Overlap(objs[p.i].aabb, objs[p.j].aabb))
  }

  function PointBox(x: int): Aabb {
    Aabb(Vec(x as real, 0.0, 0.0), Vec(x as real, 0.0, 0.0))
  }

  lemma PointBoxes(x: int, y: int)
    ensures Overlap(PointBox(x), PointBox(y)) <==> x == y
  {
  }

  /** Point boxes side by side, but those of p at one place. */
  function OnlyPairTouches(n: nat, p: Pair): (objs: seq<Body>)
    ensures |objs| == n
    ensures forall i :: 0 <= i < n ==> objs[i] == Body(i, PointBox(if i == p.j then p.i else i))
  {
    seq(n, i requires 0 <= i < n => Body(i, PointBox(if i == p.j then p.i else i)))
  }

  lemma OnlyPairOverlaps(n: nat, p: Pair, q: Pair)
    requires ValidPair(n, p) && ValidPair(n, q)
    ensures var objs := OnlyPairTouches(n, p);
            Overlap(objs[q.i].aabb, objs[q.j].aabb) <==> q == p
  {
    hide Overlap;
    PointBoxes(if q.i == p.j then p.i else q.i, if q.j == p.j then p.i else q.j);
  }

  /** Any pair but the first can be the only one that overlaps and go unreported. */
  lemma MissedPair(n: nat, p: Pair) returns (overlaps: seq<bool>)
    requires ValidPair(n, p) && p != Pair(0, 1)
    ensures FromSelfKernel(overlaps, OnlyPairTouches(n, p))
    ensures p !in SelfCandidates(n, overlaps, |overlaps|)
  {
    hide KernelPair, Overlap, HostIndex, PairCount;
    var objs := OnlyPairTouches(n, p);
    overlaps := seq(PairCount(n), k requires 0 <= k < PairCount(n) => KernelPair(k) == p);
    forall k: nat | k < |overlaps| && KernelPair(k).j < n
      ensures KernelPair(k).i < n
      ensures overlaps[k] == Overlap(objs[KernelPair(k).i].aabb, objs[KernelPair(k).j].aabb)
    {
      KernelPairShape(k);
      OnlyPairOverlaps(n, p, KernelPair(k));
    }
    HostIndexInRow(n, p);
    NumberingsAgreeOnlyAtZero(n, p);
    SelfCandidatesUpTo(n, overlaps, |overlaps|, p);
  }

  /** Whatever the kernel leaves in cells it cannot decode, the first pair is the only one whose
      report can be relied on. */
  lemma ReliableReports(n: nat, p: Pair)
    requires ValidPair(n, p)
    ensures (forall objs: seq<Body>, overlaps: seq<bool> :: |objs| == n && FromSelfKernel(overlaps, objs) ==>
              (p in SelfCandidates(n, overlaps, |overlaps|) <==> Overlap(objs[p.i].aabb, objs[p.j].aabb)))
       <==> p == Pair(0, 1)
  {
    hide KernelPair, Overlap, HostIndex, PairCount;
    if p == Pair(0, 1) {
      forall objs: seq<Body>, overlaps: seq<bool> | |objs| == n && FromSelfKernel(overlaps, objs)
        ensures p in SelfCandidates(n, overlaps, |overlaps|) <==> Overlap(objs[p.i].aabb, objs[p.j].aabb)
      {
        SelfCheckReportsAnotherPair(objs, overlaps, p);
      }
    } else {
      var overlaps := MissedPair(n, p);
      OnlyPairOverlaps(n, p, p);
    }
  }

  /** The self check is a brute force for every placement of the objects if and only if there are
      at most two of them. */
  lemma SelfCheckIsBruteForceUpToTwo(n: nat)
    ensures (forall objs: seq<Body>, overlaps: seq<bool> :: |objs| == n && FromSelfKernel(overlaps, objs) ==>
              ScanIsBruteForce(objs, overlaps))
       <==> n <= 2
  {
    hide KernelPair, Overlap, HostIndex, PairCount;
    if n <= 2 {
      forall objs: seq<Body>, overlaps: seq<bool> | |objs| == n && FromSelfKernel(overlaps, objs)
        ensures ScanIsBruteForce(objs, overlaps)
      {
        forall p | ValidPair(n, p)
          ensures p in SelfCandidates(n, overlaps, |overlaps|) <==> Overlap(objs[p.i].aabb, objs[p.j].aabb)
        {
          SelfCheckReportsAnotherPair(objs, overlaps, p);
        }
      }
    } else {
      var overlaps := MissedPair(n, Pair(0, 2));
      OnlyPairOverlaps(n, Pair(0, 2), Pair(0, 2));
      assert !ScanIsBruteForce(OnlyPairTouches(n, Pair(0, 2)), overlaps);
    }
  }

  // ----- self distance ---------------------------------------------------------------------------

  /** What the self-distance kernel writes: the box distance of the pair it decodes, while that pair
      exists; nothing is known about the other cells. */
  ghost predicate FromSelfDistanceKernel(distances: seq<real>, objs: seq<Body>) {
    && |distances| == PairCount(|objs|)
    && forall k: nat :: k < |distances| && KernelPair(k).j < |objs| ==>
         KernelPair(k).i < |objs| && distances[k] == BoxDistance(objs[KernelPair(k).i].aabb, objs[KernelPair(k).j].aabb)
  }

  /** The minimum after the first k cells of the host's scan. */
  ghost function SelfMinimum(n: nat, distances: seq<real>, truth: Truth, initial: real, k: nat): real
    requires k <= |distances| == PairCount(n)
  {
    if k == 0 then initial
    else
      RowStartStep(n, 0);
      var before, p := SelfMinimum(n, distances, truth, initial, k - 1), HostPair(n, k - 1, 0);
      if distances[k - 1] < before && truth(p) < before then truth(p) else before
  }

  /** For every pair of objects the result is no more than its true distance or no more than the value
      in its cell, and it is the start value or the true distance of some pair. */
  lemma {:induction false} SelfMinimumFacts(n: nat, distances: seq<real>, truth: Truth, initial: real, k: nat)
    requires k <= |distances| == PairCount(n)
    ensures var m := SelfMinimum(n, distances, truth, initial, k);
            && m <= initial
            && (forall p :: ValidPair(n, p) && 0 <= HostIndex(n, p) < k ==> m <= truth(p) || m <= distances[HostIndex(n, p)])
            && (m == initial || exists p :: ValidPair(n, p) && m == truth(p))
  {
    hide HostIndex, RowStart;
    if k > 0 {
      SelfMinimumFacts(n, distances, truth, initial, k - 1);
      RowStartStep(n, 0);
      var q := HostPair(n, k - 1, 0);
      forall p | ValidPair(n, p) && HostIndex(n, p) == k - 1
        ensures p == q
      {
        HostIndexInjective(n, p, q);
      }
    }
  }

  /** All pairs at once: every pair's counter lies within the cells. */
  lemma SelfMinimumBounds(n: nat, distances: seq<real>, truth: Truth, initial: real, p: Pair)
    requires |distances| == PairCount(n) && ValidPair(n, p)
    ensures 0 <= HostIndex(n, p) < |distances|
    ensures var m := SelfMinimum(n, distances, truth, initial, |distances|);
            m <= truth(p) || m <= distances[HostIndex(n, p)]
  {
    hide HostIndex, PairCount, RowStart, SelfMinimum;
    HostIndexInRow(n, p);
    SelfMinimumFacts(n, distances, truth, initial, |distances|);
  }

  /** The least true distance of two different objects, or the initial value when none is below it. */
  ghost predicate IsSelfMinimum(minDist: real, n: nat, truth: Truth, initial: real) {
    && minDist <= initial
    && (forall p :: ValidPair(n, p) ==> minDist <= truth(p))
    && (minDist == initial || exists p :: ValidPair(n, p) && minDist == truth(p))
  }

  ghost predicate SelfBoxesBound(objs: seq<Body>, truth: Truth) {
    forall p :: ValidPair(|objs|, p) ==> BoxDistance(objs[p.i].aabb, objs[p.j].aabb) <= truth(p)
  }

  lemma AxisGap(a: real, b: real)
    ensures Gap(a, a, b, b) == if a < b then b - a else a - b
  {
  }

  lemma PointsApart(x: int, y: int)
    ensures x == y ==> BoxDistance(PointBox(x), PointBox(y)) == 0.0
    ensures x != y ==> BoxDistance(PointBox(x), PointBox(y)) >= 1.0
  {
    hide Square, Gap;
    AxisGap(x as real, y as real);
    AxisGap(0.0, 0.0);
    SquareFacts(0.0);
    UnitSquare();
    if x != y { SquareBound(1.0, Gap(x as real, x as real, y as real, y as real)); }
  }

  lemma UnitSquare()
    ensures Square(1.0) == 1.0
  {
  }

  lemma OnlyPairIsNear(n: nat, p: Pair, q: Pair)
    requires ValidPair(n, p) && ValidPair(n, q)
    ensures var objs := OnlyPairTouches(n, p);
            var d := BoxDistance(objs[q.i].aabb, objs[q.j].aabb);
            if q == p then d == 0.0 else d >= 1.0
  {
    hide BoxDistance;
    PointsApart(if q.i == p.j then p.i else q.i, if q.j == p.j then p.i else q.j);
  }

  function OnlyPairDistance(n: nat, p: Pair): Truth {
    (q: Pair) =>
      if ValidPair(n, q) then BoxDistance(OnlyPairTouches(n, p)[q.i].aabb, OnlyPairTouches(n, p)[q.j].aabb) else 0.0
  }

  /** Objects 0 and 2 touch, objects 0 and 1 are exactly 1 apart, and the scan never gets below 1:
      the cell it reads for objects 0 and 2 belongs to another pair. */
  lemma {:induction false} MissedMinimum(n: nat, distances: seq<real>, initial: real, k: nat)
    requires n >= 3 && 0 < k <= |distances| == PairCount(n)
    requires distances[0] == OnlyPairDistance(n, Pair(0, 2))(Pair(0, 1)) == 1.0
    requires forall l: nat :: l < |distances| ==> distances[l] >= 1.0
    ensures SelfMinimum(n, distances, OnlyPairDistance(n, Pair(0, 2)), initial, k) == if initial < 1.0 then initial else 1.0
  {
    hide KernelPair, HostIndex, HostPair, BoxDistance, OnlyPairTouches, PairCount, OnlyPairDistance;
    RowStartStep(n, 0);
    if k > 1 {
      MissedMinimum(n, distances, initial, k - 1);
    } else {
      FirstHostPair(n);
      assert SelfMinimum(n, distances, OnlyPairDistance(n, Pair(0, 2)), initial, 0) == initial;
    }
  }

  lemma FirstHostPair(n: nat)
    requires n >= 2
    ensures RowStart(n, 0) == 0 < PairCount(n)
    ensures HostPair(n, 0, 0) == Pair(0, 1)
  {
    hide HostIndex;
    RowStartStep(n, 0);
    HostIndexInRow(n, Pair(0, 1));
  }

  /** The kernel's cells for that placement: it never decodes the pair that touches. */
  lemma TouchingCells(n: nat) returns (distances: seq<real>)
    requires n >= 3
    ensures FromSelfDistanceKernel(distances, OnlyPairTouches(n, Pair(0, 2))) && distances != []
    ensures distances[0] == OnlyPairDistance(n, Pair(0, 2))(Pair(0, 1)) == 1.0
    ensures forall l: nat :: l < |distances| ==> distances[l] >= 1.0
  {
    hide KernelPair, BoxDistance, PairCount;
    var p, truth := Pair(0, 2), OnlyPairDistance(n, Pair(0, 2));
    distances := seq(PairCount(n), k requires 0 <= k < PairCount(n) =>
      if KernelPair(k).j < n then truth(KernelPair(k)) else 1.0);
    forall k: nat | k < |distances| && KernelPair(k).j < n
      ensures ValidPair(n, KernelPair(k))
      ensures distances[k] >= 1.0
    {
      KernelPairShape(k);
      OnlyPairIsNear(n, p, KernelPair(k));
    }
    FirstHostPair(n);
    FirstKernelPair();
    UnitGap();
  }

  lemma UnitGap()
    ensures BoxDistance(PointBox(0), PointBox(1)) == 1.0
  {
    hide Square, Gap;
    AxisGap(0.0, 1.0);
    AxisGap(0.0, 0.0);
    SquareFacts(0.0);
    UnitSquare();
  }

  lemma ScanOfTwo(distances: seq<real>, truth: Truth, initial: real)
    requires |distances| == PairCount(2)
    ensures |distances| == 1
    ensures SelfMinimum(2, distances, truth, initial, 1) ==
            if distances[0] < initial && truth(Pair(0, 1)) < initial then truth(Pair(0, 1)) else initial
  {
    hide HostIndex;
    assert Triangle(1) == 1;
    RowStartStep(2, 0);
    assert HostPair(2, 0, 0) == Pair(0, 1);
    assert SelfMinimum(2, distances, truth, initial, 0) == initial;
  }

  lemma FirstPairScan(objs: seq<Body>, distances: seq<real>, truth: Truth, initial: real)
    requires |objs| <= 2 && FromSelfDistanceKernel(distances, objs) && SelfBoxesBound(objs, truth)
    ensures IsSelfMinimum(SelfMinimum(|objs|, distances, truth, initial, |distances|), |objs|, truth, initial)
  {
    hide KernelPair, BoxDistance, HostPair;
    FirstKernelPair();
    if |objs| == 2 {
      ScanOfTwo(distances, truth, initial);
      assert ValidPair(2, Pair(0, 1));
      assert forall p :: ValidPair(2, p) ==> p == Pair(0, 1);
    } else {
      assert Triangle(0) == 0;
    }
  }

  /** From any positive start value, such as the largest number the source uses, the self-distance
      scan finds the minimum for every placement if and only if there are at most two objects. */
  lemma SelfDistanceRightUpToTwo(n: nat, initial: real)
    requires initial > 0.0
    ensures (forall objs: seq<Body>, distances: seq<real>, truth: Truth ::
              |objs| == n && FromSelfDistanceKernel(distances, objs) && SelfBoxesBound(objs, truth) ==>
                IsSelfMinimum(SelfMinimum(n, distances, truth, initial, |distances|), n, truth, initial))
       <==> n <= 2
  {
    hide KernelPair, BoxDistance, OnlyPairTouches, SelfMinimum, IsSelfMinimum, PairCount;
    if n <= 2 {
      forall objs: seq<Body>, distances: seq<real>, truth: Truth
        | |objs| == n && FromSelfDistanceKernel(distances, objs) && SelfBoxesBound(objs, truth)
        ensures IsSelfMinimum(SelfMinimum(n, distances, truth, initial, |distances|), n, truth, initial)
      {
        FirstPairScan(objs, distances, truth, initial);
      }
    } else {
      var objs, truth := OnlyPairTouches(n, Pair(0, 2)), OnlyPairDistance(n, Pair(0, 2));
      var distances := TouchingCells(n);
      MissedMinimum(n, distances, initial, |distances|);
      NotSelfMinimum(n, if initial < 1.0 then initial else 1.0, initial);
      assert SelfBoxesBound(objs, truth);
      assert !IsSelfMinimum(SelfMinimum(n, distances, truth, initial, |distances|), n, truth, initial);
    }
  }

  lemma NotSelfMinimum(n: nat, minDist: real, initial: real)
    requires n >= 3 && minDist > 0.0
    ensures !IsSelfMinimum(minDist, n, OnlyPairDistance(n, Pair(0, 2)), initial)
  {
    hide BoxDistance;
    OnlyPairIsNear(n, Pair(0, 2), Pair(0, 2));
    assert ValidPair(n, Pair(0, 2));
  }
}
