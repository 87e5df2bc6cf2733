/** What the output callback sees over whole runs of the executor. */
module Playback {
  import opened Options
  import opened Trajectories
  import opened CurveTheorems
  import opened CurveBounds
  import opened RTExecutor

  ghost predicate AllSound(ptrs: seq<SharedTrajectory?>) {
    forall i :: 0 <= i < |ptrs| ==> Sound(ptrs[i])
  }

  /** Reachable player states: the held value is the last sample of the trajectory in hand. */
  ghost predicate PlayerInv(p: Player) {
    && Sound(p.local)
    && (p.timeMs == 0 ==> p.lastQ == [])
    && (p.timeMs > 0 ==>
          && p.local != null
          && Seconds(p.timeMs - 1) <= p.local.value.durationS
          && p.lastQ == Evaluated(p.local.value, Seconds(p.timeMs - 1)))
  }

  lemma TickKeepsInv(p: Player, ptr: SharedTrajectory?)
    requires PlayerInv(p) && Sound(ptr)
    ensures PlayerInv(Tick(p, ptr).0)
    ensures Tick(p, ptr).0.local == ptr
  {
    hide Evaluated;
  }

  lemma {:induction false} RunKeepsInv(p: Player, ptrs: seq<SharedTrajectory?>)
    requires PlayerInv(p) && AllSound(ptrs)
    ensures PlayerInv(RunTicks(p, ptrs))
    ensures ptrs != [] ==> RunTicks(p, ptrs).local == ptrs[|ptrs| - 1]
  {
    hide Tick, PlayerInv;
    if ptrs != [] {
      RunKeepsInv(p, ptrs[..|ptrs| - 1]);
      TickKeepsInv(RunTicks(p, ptrs[..|ptrs| - 1]), ptrs[|ptrs| - 1]);
    }
  }

  // ----- when there is output at all ---------------------------------------------------------

  predicate Audible(ptr: SharedTrajectory?) {
    ptr != null && 1 <= ptr.value.numDofs && 0.0 <= ptr.value.durationS
  }

  /** A tick invokes the callback if and only if the pointer it sees is a trajectory with at least
      one DOF and a non-negative duration. In particular null is silent: nothing is held. */
  lemma OutputExactlyWhenAudible(p: Player, ptrs: seq<SharedTrajectory?>, i: nat)
    requires PlayerInv(p) && AllSound(ptrs)
    requires i < |ptrs|
    ensures OutputAt(p, ptrs, i).Some? <==> Audible(ptrs[i])
  {
    hide Evaluated;
    RunKeepsInv(p, ptrs[..i]);
    TickOutput(RunTicks(p, ptrs[..i]), ptrs[i]);
  }

  lemma TickOutput(p: Player, ptr: SharedTrajectory?)
    requires PlayerInv(p) && Sound(ptr)
    ensures Tick(p, ptr).1.Some? <==> Audible(ptr)
  {
    hide Evaluated, Evaluable;
    if ptr != null && p.local == ptr && p.timeMs > 0 {
      SecondsPositive(p.timeMs - 1);
    }
  }

  lemma SecondsPositive(ms: nat)
    ensures 0.0 <= Seconds(ms)
  {
  }

  // ----- playback in closed form --------------------------------------------------------------------

  /** Whole milliseconds in the duration. */
  function LastSample(durationS: real): int {
    (durationS * 1000.0).Floor
  }

  lemma SampleOrder(durationS: real, ms: int)
    ensures ms as real / 1000.0 <= durationS <==> ms <= LastSample(durationS)
  {
    var f := LastSample(durationS);
    assert f as real <= durationS * 1000.0 < (f + 1) as real;
    if ms <= f { assert ms as real <= f as real; } else { assert (f + 1) as real <= ms as real; }
  }

  /** Output of tick k after pick-up: samples while they fall inside the duration, then the last
      sample forever, one millisecond past its own time. */
  function PlaybackOutput(traj: Trajectory, k: nat): Option<Output>
    requires Evaluable(traj)
  {
    var last := LastSample(traj.durationS);
    if traj.numDofs == 0 || last < 0 then None
    else if k <= last then Some(Output(k, Evaluated(traj, Seconds(k))))
    else Some(Output(last + 1, Evaluated(traj, Seconds(last))))
  }

  /** State before tick k after pick-up. */
  ghost function PlaybackState(ptr: SharedTrajectory, k: nat): Player
    requires Evaluable(ptr.value)
  {
    var last := LastSample(ptr.value.durationS);
    if last < 0 || k == 0 then Player(ptr, 0, [])
    else if k <= last + 1 then Player(ptr, k, Evaluated(ptr.value, Seconds(k - 1)))
    else Player(ptr, last + 1, Evaluated(ptr.value, Seconds(last)))
  }

  lemma PlaybackTick(ptr: SharedTrajectory, k: nat)
    requires Evaluable(ptr.value)
    ensures Tick(PlaybackState(ptr, k), ptr) == (PlaybackState(ptr, k + 1), PlaybackOutput(ptr.value, k))
  {
    hide LastSample;
    var last := LastSample(ptr.value.durationS);
    SampleOrder(ptr.value.durationS, k);
    SampleOrder(ptr.value.durationS, last + 1);
    SampleOrder(ptr.value.durationS, 0);
    SampleOrder(ptr.value.durationS, last);
  }

  /** The pointer seen from tick i to tick i+k is the same trajectory, and tick i picks it up. */
  ghost predicate PicksUp(p: Player, ptrs: seq<SharedTrajectory?>, i: nat, k: nat, ptr: SharedTrajectory)
    requires AllSound(ptrs)
  {
    && i + k < |ptrs|
    && (forall j :: i <= j <= i + k ==> ptrs[j] == ptr)
    && (RunTicks(p, ptrs[..i]).local != ptr || RunTicks(p, ptrs[..i]) == Player(ptr, 0, []))
  }

  lemma {:induction false} StateAfterPickUp(p: Player, ptrs: seq<SharedTrajectory?>, i: nat, k: nat, ptr: SharedTrajectory)
    requires AllSound(ptrs) && Evaluable(ptr.value)
    requires PicksUp(p, ptrs, i, k, ptr)
    ensures Tick(RunTicks(p, ptrs[..i + k]), ptr) == Tick(PlaybackState(ptr, k), ptr)
  {
    hide PlaybackOutput, Evaluated, Playing, LastSample;
    if k > 0 {
      StateAfterPickUp(p, ptrs, i, k - 1, ptr);
      PlaybackTick(ptr, k - 1);
      assert ptrs[..i + k][..i + k - 1] == ptrs[..i + k - 1];
      assert RunTicks(p, ptrs[..i + k]) == Tick(RunTicks(p, ptrs[..i + k - 1]), ptrs[i + k - 1]).0;
    }
  }

  /** In every run, k ticks after a trajectory is picked up the callback gets exactly
      `PlaybackOutput`, for as long as the slot keeps that pointer. */
  lemma PlaybackClosedForm(p: Player, ptrs: seq<SharedTrajectory?>, i: nat, k: nat, ptr: SharedTrajectory)
    requires AllSound(ptrs) && Evaluable(ptr.value)
    requires PicksUp(p, ptrs, i, k, ptr)
    ensures OutputAt(p, ptrs, i + k) == PlaybackOutput(ptr.value, k)
  {
    hide PlaybackOutput, Tick, PlaybackState;
    StateAfterPickUp(p, ptrs, i, k, ptr);
    PlaybackTick(ptr, k);
  }

  // ----- with fitted trajectories ------------------------------------------------------------------------

  /** A fitted trajectory of a whole number of milliseconds starts on the first waypoint and, once
      finished, holds exactly the last one. */
  lemma HoldsTheLastWaypoint(waypoints: seq<seq<real>>, ms: nat, k: nat)
    requires 1 <= ms
    requires 2 <= |waypoints| && waypoints[0] != [] && Fittable(waypoints, Seconds(ms))
    ensures Evaluable(Fitted(waypoints, Seconds(ms)))
    ensures var dofs := |waypoints[0]|;
            && PlaybackOutput(Fitted(waypoints, Seconds(ms)), 0) == Some(Output(0, waypoints[0][..dofs]))
            && (k >= ms ==>
                  PlaybackOutput(Fitted(waypoints, Seconds(ms)), k) ==
                  Some(Output(if k == ms then ms else ms + 1, waypoints[|waypoints| - 1][..dofs])))
  {
    hide Evaluated, LastSample, Knot;
    var n := |waypoints| - 1;
    var h := Spacing(Seconds(ms), n);
    FittedEvaluable(waypoints, Seconds(ms));
    WholeSamples(ms);
    ZeroKnot(h);
    LastKnot(Seconds(ms), n);
    PassesThroughWaypoints(waypoints, Seconds(ms), 0);
    PassesThroughWaypoints(waypoints, Seconds(ms), n);
  }

  lemma WholeSamples(ms: nat)
    ensures LastSample(Seconds(ms)) == ms
    ensures Seconds(0) == 0.0
  {
    assert Seconds(ms) * 1000.0 == ms as real;
  }

  /** Every value the trajectory can produce lies in the box. */
  ghost predicate InsideBox(traj: Trajectory, lo: seq<real>, hi: seq<real>)
    requires Evaluable(traj)
  {
    && traj.numDofs <= |lo| && traj.numDofs <= |hi|
    && forall t, j: nat :: j < traj.numDofs ==> lo[j] <= Evaluated(traj, t)[j] <= hi[j]
  }

  predicate Within(q: seq<real>, lo: seq<real>, hi: seq<real>) {
    |q| <= |lo| && |q| <= |hi| && forall j :: 0 <= j < |q| ==> lo[j] <= q[j] <= hi[j]
  }

  /** Waypoints inside the box shrunk by 3/16 of the largest second difference of each DOF. */
  ghost predicate WaypointsInShrunkBox(waypoints: seq<seq<real>>, bend: seq<real>, lo: seq<real>, hi: seq<real>)
    requires 2 <= |waypoints| && waypoints[0] != []
    requires forall i :: 0 <= i < |waypoints| ==> |waypoints[0]| <= |waypoints[i]|
  {
    var dofs := |waypoints[0]|;
    && dofs <= |bend| && dofs <= |lo| && dofs <= |hi|
    && (forall j :: 0 <= j < dofs ==> BendsAtMost(Column(waypoints, j), bend[j]))
    && (forall i, j :: 0 <= i < |waypoints| && 0 <= j < dofs ==>
          lo[j] + 3.0 / 16.0 * bend[j] <= waypoints[i][j] <= hi[j] - 3.0 / 16.0 * bend[j])
  }

  lemma FittedInsideBox(waypoints: seq<seq<real>>, durationS: real, bend: seq<real>, lo: seq<real>, hi: seq<real>)
    requires 2 <= |waypoints| && waypoints[0] != [] && Fittable(waypoints, durationS)
    requires WaypointsInShrunkBox(waypoints, bend, lo, hi)
    ensures Evaluable(Fitted(waypoints, durationS))
    ensures InsideBox(Fitted(waypoints, durationS), lo, hi)
  {
    hide Evaluated, BendsAtMost;
    FittedEvaluable(waypoints, durationS);
    forall t, j: nat | j < |waypoints[0]|
      ensures lo[j] <= Evaluated(Fitted(waypoints, durationS), t)[j] <= hi[j]
    {
      StaysInBox(waypoints, durationS, t, j, bend[j], lo[j], hi[j]);
    }
  }

  ghost predicate SafePointer(ptr: SharedTrajectory?, lo: seq<real>, hi: seq<real>) {
    ptr != null ==> Evaluable(ptr.value) && InsideBox(ptr.value, lo, hi)
  }

  /** If every trajectory ever handed over stays in the box, every command ever sent does,
      across hand-offs, holds and restarts. */
  lemma CommandsStayInBox(p: Player, ptrs: seq<SharedTrajectory?>, i: nat, lo: seq<real>, hi: seq<real>)
    requires PlayerInv(p) && AllSound(ptrs)
    requires SafePointer(p.local, lo, hi)
    requires forall k :: 0 <= k < |ptrs| ==> SafePointer(ptrs[k], lo, hi)
    requires i < |ptrs| && OutputAt(p, ptrs, i).Some?
    ensures Within(OutputAt(p, ptrs, i).value.q, lo, hi)
  {
    hide Evaluated, Tick, InsideBox;
    RunKeepsInv(p, ptrs[..i]);
    OutputIsSample(RunTicks(p, ptrs[..i]), ptrs[i], lo, hi);
  }

  lemma OutputIsSample(p: Player, ptr: SharedTrajectory?, lo: seq<real>, hi: seq<real>)
    requires PlayerInv(p) && Sound(ptr)
    requires SafePointer(ptr, lo, hi)
    requires Tick(p, ptr).1.Some?
    ensures Within(Tick(p, ptr).1.value.q, lo, hi)
  {
    hide Evaluated;
    TickKeepsInv(p, ptr);
    var q := Tick(p, ptr).0;
    assert q.timeMs > 0 by { assert q.lastQ != []; }
    assert Tick(p, ptr).1.value.q == Evaluated(ptr.value, Seconds(q.timeMs - 1));
    SampleInside(ptr.value, Seconds(q.timeMs - 1), lo, hi);
  }

  lemma SampleInside(traj: Trajectory, t: real, lo: seq<real>, hi: seq<real>)
    requires Evaluable(traj) && InsideBox(traj, lo, hi)
    ensures Within(Evaluated(traj, t), lo, hi)
  {
    hide Evaluated;
    assert |Evaluated(traj, t)| == traj.numDofs;
  }
}
