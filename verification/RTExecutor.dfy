/** `RTExecutor`: hand-off of trajectory pointers and playback at one tick per millisecond.
    Loop time is counted in whole milliseconds; a shared pointer is an object reference. */
module RTExecutor {
  import opened Options
  import opened Trajectories

  /** A trajectory behind a `shared_ptr<const Trajectory>`: two of them are the same only if they
      are the same object, whatever they contain. */
  class SharedTrajectory {
    const value: Trajectory

    constructor (value: Trajectory)
      ensures this.value == value
    {
      this.value := value;
    }
  }

  /** One invocation of the output callback. */
  datatype Output = Output(timeMs: nat, q: seq<real>)

  /** The fields the real-time thread owns. */
  datatype Player = Player(local: SharedTrajectory?, timeMs: nat, lastQ: seq<real>)

  function Seconds(ms: nat): real {
    ms as real / 1000.0
  }

  predicate Sound(ptr: SharedTrajectory?) {
    ptr != null ==> Evaluable(ptr.value)
  }

  predicate Playing(p: Player) {
    p.local != null && Seconds(p.timeMs) <= p.local.value.durationS
  }

  /** One tick that reads `ptr` under the mutex: pick-up, evaluation or hold, time advance. */
  function Tick(p: Player, ptr: SharedTrajectory?): (Player, Option<Output>)
    requires Sound(ptr)
  {
    var p1 := if ptr != p.local then Player(ptr, 0, []) else p;
    var p2 := if Playing(p1) then p1.(lastQ := Evaluated(p1.local.value, Seconds(p1.timeMs))) else p1;
    var out := if p2.lastQ != [] then Some(Output(p2.timeMs, p2.lastQ)) else None;
    (if Playing(p2) then p2.(timeMs := p2.timeMs + 1) else p2, out)
  }

  /** State after ticks that read the pointers in `ptrs`, one each. */
  function RunTicks(p: Player, ptrs: seq<SharedTrajectory?>): Player
    requires forall i :: 0 <= i < |ptrs| ==> Sound(ptrs[i])
  {
    if ptrs == [] then p else Tick(RunTicks(p, ptrs[..|ptrs| - 1]), ptrs[|ptrs| - 1]).0
  }

  function OutputAt(p: Player, ptrs: seq<SharedTrajectory?>, i: nat): Option<Output>
    requires i < |ptrs|
    requires forall i :: 0 <= i < |ptrs| ==> Sound(ptrs[i])
  {
    Tick(RunTicks(p, ptrs[..i]), ptrs[i]).1
  }

  class Executor {
    var activeTraj: SharedTrajectory?
    var localTraj: SharedTrajectory?
    var loopTimeMs: nat
    var lastQ: seq<real>
    var outputs: seq<Output>

    function View(): Player
      reads this
    {
      Player(localTraj, loopTimeMs, lastQ)
    }

    constructor ()
      ensures View() == Player(null, 0, []) && activeTraj == null && outputs == []
    {
      activeTraj, localTraj, loopTimeMs, lastQ, outputs := null, null, 0, [], [];
    }

    method SetTrajectory(traj: SharedTrajectory?)
      modifies this`activeTraj
      ensures activeTraj == traj
    {
      activeTraj := traj;
    }

    /** The state `rtLoop` resets; the last trajectory picked up is kept. */
    method ResetLoop()
      modifies this`loopTimeMs, this`lastQ
      ensures View() == Player(old(localTraj), 0, [])
    {
      loopTimeMs := 0;
      lastQ := [];
    }

    method PerformLoopIteration(nextTickNs: nat) returns (newNextTickNs: nat, wake: TimeSpec)
      requires nextTickNs < UINT64
      requires Sound(activeTraj)
      modifies this`localTraj, this`loopTimeMs, this`lastQ, this`outputs
      ensures View() == Tick(old(View()), activeTraj).0
      ensures outputs == old(outputs) + match Tick(old(View()), activeTraj).1 { case Some(o) => [o] case None => [] }
      ensures Nanoseconds(wake) == nextTickNs && wake.nsec < 1_000_000_000
      ensures newNextTickNs == (nextTickNs + 1_000_000) % UINT64
    {
      var trajPtr := activeTraj;
      if trajPtr != localTraj {
        localTraj := trajPtr;
        loopTimeMs := 0;
        lastQ := [];
      }
      var q: seq<real>;
      if localTraj != null && Seconds(loopTimeMs) <= localTraj.value.durationS {
        q := Eval(localTraj.value, Seconds(loopTimeMs));
        lastQ := q;
      } else if lastQ != [] {
        q := lastQ;
      } else {
        q := [];
      }
      if q != [] {
        outputs := outputs + [Output(loopTimeMs, q)];
      }
      if localTraj != null && Seconds(loopTimeMs) <= localTraj.value.durationS {
        loopTimeMs := loopTimeMs + 1;
      }
      wake := TimeSpec(nextTickNs / 1_000_000_000, nextTickNs % 1_000_000_000);
      newNextTickNs := (nextTickNs + 1_000_000) % UINT64;
    }

    /** `rtLoop` for as many iterations as `schedule` is long: other threads leave schedule[i] in
        the slot before iteration i. Returns the absolute times slept until. */
    method RtLoop(nowNs: nat, schedule: seq<SharedTrajectory?>) returns (wakes: seq<TimeSpec>)
      requires nowNs < UINT64
      requires forall i :: 0 <= i < |schedule| ==> Sound(schedule[i])
      modifies this
      ensures View() == RunTicks(Player(old(localTraj), 0, []), schedule)
      ensures outputs == old(outputs) + AllOutputs(Player(old(localTraj), 0, []), schedule)
      ensures |wakes| == |schedule| && OnSchedule(nowNs, wakes)
    {
      hide Tick;
      var nextTickNs := (nowNs + 1_000_000) % UINT64;
      ghost var start := Player(localTraj, 0, []);
      ghost var before := outputs;
      ResetLoop();
      wakes := [];
      var i := 0;
      while i < |schedule|
        invariant 0 <= i <= |schedule| == |schedule[..i]| + (|schedule| - i)
        invariant View() == RunTicks(start, schedule[..i])
        invariant outputs == before + AllOutputs(start, schedule[..i])
        invariant nextTickNs == (nowNs + (i + 1) * 1_000_000) % UINT64
        invariant |wakes| == i && OnSchedule(nowNs, wakes)
      {
        assert schedule[..i + 1][..i] == schedule[..i];
        SetTrajectory(schedule[i]);
        var wake;
        DeadlineStep(nowNs, i);
        nextTickNs, wake := PerformLoopIteration(nextTickNs);
        wakes := wakes + [wake];
        i := i + 1;
      }
      assert schedule[..i] == schedule;
    }
  }

  const UINT64 := 0x1_0000_0000_0000_0000

  datatype TimeSpec = TimeSpec(sec: nat, nsec: nat)

  function Nanoseconds(t: TimeSpec): nat {
    t.sec * 1_000_000_000 + t.nsec
  }

  /** The k-th absolute wake target of a loop started at nowNs, whatever the iterations cost. */
  ghost predicate OnSchedule(nowNs: nat, wakes: seq<TimeSpec>) {
    forall k :: 0 <= k < |wakes| ==> Nanoseconds(wakes[k]) == (nowNs + (k + 1) * 1_000_000) % UINT64
  }

  lemma DeadlineStep(now: nat, i: nat)
    ensures ((now + (i + 1) * 1_000_000) % UINT64 + 1_000_000) % UINT64 == (now + (i + 2) * 1_000_000) % UINT64
  {
    var x := now + (i + 1) * 1_000_000;
    assert x == x / UINT64 * UINT64 + x % UINT64;
    ModShift(x % UINT64 + 1_000_000, x / UINT64);
  }

  lemma ModShift(y: nat, m: nat)
    ensures (y + m * UINT64) % UINT64 == y % UINT64
  {
  }

  /** All callbacks of a run, in order. */
  function AllOutputs(p: Player, ptrs: seq<SharedTrajectory?>): seq<Output>
    requires forall i :: 0 <= i < |ptrs| ==> Sound(ptrs[i])
  {
    if ptrs == [] then []
    else
      var n := |ptrs| - 1;
      AllOutputs(p, ptrs[..n]) + match Tick(RunTicks(p, ptrs[..n]), ptrs[n]).1 { case Some(o) => [o] case None => [] }
  }
}
