/** Timing of the 1 kHz loop: iteration k works for costs[k], then sleeps until its absolute
    deadline. Sleeps are undisturbed: a sleep returns at its deadline, or at once when it is past. */
module Deadlines {
  import opened RTExecutor

  /** When the last of these iterations wakes up, having started at t0. */
  function WakeTime(t0: nat, period: nat, costs: seq<nat>): nat {
    if costs == [] then t0
    else
      var finish := WakeTime(t0, period, costs[..|costs| - 1]) + costs[|costs| - 1];
      var deadline := t0 + |costs| * period;
      if finish < deadline then deadline else finish
  }

  /** How far behind its deadline the loop is after these iterations. */
  function Lateness(t0: nat, period: nat, costs: seq<nat>): int {
    WakeTime(t0, period, costs) - (t0 + |costs| * period)
  }

  function Max(a: int, b: int): int {
    if a < b then b else a
  }

  lemma NextDeadline(n: nat, period: nat)
    ensures (n + 1) * period == n * period + period
  {
  }

  /** Lateness is carried over and absorbed: late' = max(0, late + cost - period). */
  lemma LatenessStep(t0: nat, period: nat, costs: seq<nat>, cost: nat)
    ensures Lateness(t0, period, []) == 0
    ensures Lateness(t0, period, costs + [cost]) == Max(0, Lateness(t0, period, costs) + cost - period)
  {
    assert (costs + [cost])[..|costs|] == costs;
    NextDeadline(|costs|, period);
  }

  /** Total of (cost - period). */
  function Excess(period: nat, costs: seq<nat>): int {
    if costs == [] then 0 else Excess(period, costs[..|costs| - 1]) + costs[|costs| - 1] - period
  }

  lemma ExcessSnoc(period: nat, costs: seq<nat>, cost: nat)
    ensures Excess(period, costs + [cost]) == Excess(period, costs) + cost - period
  {
    assert (costs + [cost])[..|costs|] == costs;
  }

  /** The iteration from which the current backlog has been building up. */
  lemma {:induction false} LatenessIsSomeSuffix(t0: nat, period: nat, costs: seq<nat>) returns (i: nat)
    ensures i <= |costs|
    ensures Lateness(t0, period, costs) == Excess(period, costs[i..])
  {
    if costs == [] {
      i := 0;
    } else {
      var n := |costs| - 1;
      var init, last := costs[..n], costs[n];
      assert costs == init + [last];
      LatenessStep(t0, period, init, last);
      i := LatenessIsSomeSuffix(t0, period, init);
      if Lateness(t0, period, init) + last - period >= 0 {
        assert costs[i..] == init[i..] + [last];
        ExcessSnoc(period, init[i..], last);
      } else {
        i := |costs|;
      }
    }
  }

  lemma {:induction false} LatenessBoundsSuffix(t0: nat, period: nat, costs: seq<nat>, i: nat)
    requires i <= |costs|
    ensures Excess(period, costs[i..]) <= Lateness(t0, period, costs)
  {
    if i < |costs| {
      var n := |costs| - 1;
      var init, last := costs[..n], costs[n];
      assert costs == init + [last];
      LatenessStep(t0, period, init, last);
      LatenessBoundsSuffix(t0, period, init, i);
      assert costs[i..] == init[i..] + [last];
      ExcessSnoc(period, init[i..], last);
    } else {
      assert costs[i..] == [];
      LatenessNonNegative(t0, period, costs);
    }
  }

  lemma LatenessNonNegative(t0: nat, period: nat, costs: seq<nat>)
    ensures Lateness(t0, period, costs) >= 0
  {
    if costs != [] {
      var n := |costs| - 1;
      assert costs == costs[..n] + [costs[n]];
      LatenessStep(t0, period, costs[..n], costs[n]);
    }
  }

  /** Lateness is the largest suffix sum of (cost - period), the empty suffix included: it does not
      depend on anything before that suffix, so nothing accumulates. */
  lemma LatenessIsLargestSuffix(t0: nat, period: nat, costs: seq<nat>)
    ensures forall i :: 0 <= i <= |costs| ==> Excess(period, costs[i..]) <= Lateness(t0, period, costs)
    ensures exists i :: 0 <= i <= |costs| && Lateness(t0, period, costs) == Excess(period, costs[i..])
  {
    forall i | 0 <= i <= |costs|
      ensures Excess(period, costs[i..]) <= Lateness(t0, period, costs)
    {
      LatenessBoundsSuffix(t0, period, costs, i);
    }
    var i := LatenessIsSomeSuffix(t0, period, costs);
  }

  lemma {:induction false} BacklogOrRecovered(t0: nat, period: nat, past: seq<nat>, more: seq<nat>)
    ensures || (exists k :: 0 <= k <= |more| && Lateness(t0, period, past + more[..k]) == 0)
            || Lateness(t0, period, past + more) == Lateness(t0, period, past) + Excess(period, more)
  {
    if more == [] {
      assert past + more == past;
    } else {
      var n := |more| - 1;
      var init, last := more[..n], more[n];
      assert more == init + [last];
      assert past + more == (past + init) + [last];
      LatenessStep(t0, period, past + init, last);
      BacklogOrRecovered(t0, period, past, init);
      if k :| 0 <= k <= |init| && Lateness(t0, period, past + init[..k]) == 0 {
        assert more[..k] == init[..k];
      } else if Lateness(t0, period, past + more) == 0 {
        assert more[..|more|] == more;
      }
    }
  }

  /** Once the following iterations leave enough slack, some deadline is met again exactly. */
  lemma Recovers(t0: nat, period: nat, past: seq<nat>, more: seq<nat>)
    requires Lateness(t0, period, past) + Excess(period, more) <= 0
    ensures exists k :: 0 <= k <= |more| && Lateness(t0, period, past + more[..k]) == 0
  {
    BacklogOrRecovered(t0, period, past, more);
    LatenessNonNegative(t0, period, past + more);
    assert more[..|more|] == more;
  }

  // ----- the loop's own targets ------------------------------------------------------------------

  /** When a loop started at t0 wakes up from the last of these sleeps. */
  function AfterSleeps(t0: nat, wakes: seq<TimeSpec>, costs: seq<nat>): nat
    requires |wakes| == |costs|
  {
    if costs == [] then t0
    else
      var n := |costs| - 1;
      var finish := AfterSleeps(t0, wakes[..n], costs[..n]) + costs[n];
      if finish < Nanoseconds(wakes[n]) then Nanoseconds(wakes[n]) else finish
  }

  /** The wake targets `RtLoop` returns are these deadlines with a period of one millisecond, until
      the 64-bit counter wraps around. */
  lemma {:induction false} LoopKeepsDeadlines(nowNs: nat, wakes: seq<TimeSpec>, costs: seq<nat>)
    requires OnSchedule(nowNs, wakes) && |wakes| == |costs|
    requires nowNs + |wakes| * 1_000_000 < UINT64
    ensures AfterSleeps(nowNs, wakes, costs) == WakeTime(nowNs, 1_000_000, costs)
  {
    if costs != [] {
      var n := |costs| - 1;
      LoopKeepsDeadlines(nowNs, wakes[..n], costs[..n]);
    }
  }

  lemma LastTarget(nowNs: nat, wakes: seq<TimeSpec>)
    requires OnSchedule(nowNs, wakes) && wakes != []
    requires nowNs + |wakes| * 1_000_000 < UINT64
    ensures Nanoseconds(wakes[|wakes| - 1]) == nowNs + |wakes| * 1_000_000
  {
  }

  /** So the loop is late by the largest suffix excess of its iterations' costs, and no more. */
  lemma LoopLateness(nowNs: nat, wakes: seq<TimeSpec>, costs: seq<nat>)
    requires OnSchedule(nowNs, wakes) && |wakes| == |costs| > 0
    requires nowNs + |wakes| * 1_000_000 < UINT64
    ensures var late := AfterSleeps(nowNs, wakes, costs) - Nanoseconds(wakes[|wakes| - 1]);
            && (forall i :: 0 <= i <= |costs| ==> Excess(1_000_000, costs[i..]) <= late)
            && (exists i :: 0 <= i <= |costs| && late == Excess(1_000_000, costs[i..]))
  {
    hide AfterSleeps, WakeTime, Excess, OnSchedule;
    LoopKeepsDeadlines(nowNs, wakes, costs);
    LastTarget(nowNs, wakes);
    LatenessIsLargestSuffix(nowNs, 1_000_000, costs);
  }
}
