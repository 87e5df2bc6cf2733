# Robotics real-time demo: verified model

A Dafny 4.11 model of four parts of the repository and proofs of what they do. All arithmetic on
positions and times is exact: reals instead of doubles, whole milliseconds instead of an
accumulated 0.001.

* **Trajectories** (`Tridiagonal`, `Trajectories`, `SplineTheorems`, `CurveTheorems`,
  `CurveBounds`). `fitCubicSpline` and `Trajectory::eval` as array loops, and what the evaluated
  curve is. The source solves for half the second derivative of the natural spline and then uses it
  as the whole one; the documentation promises the natural spline. The model keeps the code:
  the curve is the mean of the natural spline and the straight-line interpolant
  (`CurveIsMean`), and it is the natural spline exactly when the waypoints are equally spaced on a
  line (`FitIsNaturalSplineWhen`).
* **UBSan check elimination** (`ConstantRanges`, `EndpointBound`, `Ir`, `Straightening`,
  `Simulation`, `Folding`, `CheckElimination`, `SretNullChecks`, `OverflowPass`,
  `CountingLoop`). A small control-flow-graph IR with runs and call traces, the pass that proves
  checks dead on a straightened clone and folds them in the original, and the theorem that this is
  right (`EliminationPreservesRuns`). It assumes that what the analyses report about operands is true
  on runs of the clone (`ReportsTrue`) and that reported recurrences make no full turn of the register
  (`NoFullTurns`). The code does not test the second. For a check that advances its own operand the
  accepted decision is right exactly when there is none (`AcceptedExactly`), and so is the pass on a
  counting loop (`LoopKeptExactly`), whose reports are true either way.
* **Planner mailbox and executor** (`PlannerProtocol`, `PlannerThread`, `RTExecutor`, `Playback`,
  `Deadlines`). The single-slot request protocol as a step system over all interleavings, and the
  1 kHz playback loop over all hand-off schedules. `setTrajectory(nullptr)` is documented to hold
  the last position; the code goes silent, and so does the model (`OutputExactlyWhenAudible`).
* **Collision broadphase** (`PairIndexing`, `Boxes`, `Broadphase`, `GpuCollisionManager`,
  `CollisionScene`). Index encodings, box predicates, early-exit and pruned scans against brute
  force, and the scene's collision answer. The cross and one-vs-all scans are brute force. The self
  kernels number pairs differently from the host loops that read their result, so the self scans are
  brute force only up to two objects (`SelfCheckIsBruteForceUpToTwo`, `SelfDistanceRightUpToTwo`),
  and a scene in GPU mode, which runs the self check, answers right for every pose only when no two
  links but the first two can be in forbidden contact (`GpuModeRightExactlyWhen`).

`dafny verify dfyconfig.toml` checks the project.

## Assumptions

* Durations of a real fit are positive and every waypoint row is at least as long as the first.
* IR functions are closed, in single-assignment form, and have the shape of UBSan code generation:
  a handler block is entered only from the branches it serves, has no parameters, calls only UBSan
  handlers and defines only temporaries of its own, and either aborts or continues on the edge its
  branch would have taken (`WellFormed`). Runs that read an undefined register are stuck and
  nothing is claimed about them. Results of other calls, memory included, depend on the history of
  visible calls.
* All registers of a function have one width. A value range is a signed interval; the union of the
  start and end ranges of a recurrence is their signed hull. LLVM may return a smaller, wrapped range;
  signed checks do not depend on that as long as the range holds the first and the last value
  (`SignedCheckOnAnyArc`), unsigned ones do (`UnsignedCheckNeedsHull`). The overflow tests on ranges are those
  of LLVM's `ConstantRange`, which is not part of the repository.
* `start` and `stop` of the planner are called from one controlling thread.
* Sleeps are undisturbed in `Deadlines`.
* Distances between boxes are squared, which keeps their order. The callback of the distance scans
  lowers the minimum to the pair's true distance and never stops.
* The kernel's float expression for the row of a pair is taken in exact integers.

## Model

| member | source | states |
|---|---|---|
| `Trajectories.FitCubicSpline` | src/library/trajectory/trajectory.cpp:40-136 | the in-place fit returns the default trajectory exactly for fewer than two or empty waypoints; otherwise it keeps the duration and has one spline per DOF, one segment per gap, with the unique moments of its tridiagonal system |
| `Trajectories.FitDof` | src/library/trajectory/trajectory.cpp:77-133 | one column of waypoints becomes its segments |
| `Trajectories.RightHandSide` | src/library/trajectory/trajectory.cpp:87-91 | alpha holds 3 times the slope differences on interior rows and 0 in row 0 |
| `Trajectories.ForwardSweep` | src/library/trajectory/trajectory.cpp:93-103 | the forward loop divides by pivots that never vanish and leaves the elimination factors in mu and z |
| `Trajectories.SolveTridiagonal` | src/library/trajectory/trajectory.cpp:93-110 | both Thomas loops together leave a solution of every interior row, zero at both ends |
| `Trajectories.BuildSegments` | src/library/trajectory/trajectory.cpp:112-132 | coefficients of every segment from its end values and end moments |
| `Trajectories.Eval` | src/library/trajectory/trajectory.cpp:7-38 | clamping, segment search and cubic evaluation compute one value per DOF, zeros without segments |
| `Tridiagonal.Mu` | src/library/trajectory/trajectory.cpp:99-103 | every elimination factor is in [0, 2/7] |
| `Tridiagonal.Pivot` | src/library/trajectory/trajectory.cpp:99-103 | every interior pivot is at least 26/7 of the knot spacing, and pivot times factor is the spacing |
| `Tridiagonal.EliminationStep` | src/library/trajectory/trajectory.cpp:99-110 | a forward row and the two back-substitution rows around it give back the original row |
| `Tridiagonal.MomentsSolve` | src/library/trajectory/trajectory.cpp:93-110 | the elimination solves h*M[i-1] + 4h*M[i] + h*M[i+1] = alpha[i] for every interior row with zero ends |
| `Tridiagonal.UniqueSolution` | src/library/trajectory/trajectory.cpp:93-110 | a sequence solves the system if and only if it is the computed one |
| `Tridiagonal.MomentBound` | src/library/trajectory/trajectory.cpp:87-110 | 2h|M[i]| is at most the largest |alpha| |
| `Tridiagonal.HomogeneousDecay` | src/library/trajectory/trajectory.cpp:99-110 | a solution of homogeneous rows shrinks by 2/7 per knot away from the data |
| `Tridiagonal.ReversedSolution` | src/library/trajectory/trajectory.cpp:93-110 | the reversed solution solves the reversed system, although elimination runs one way |
| `Tridiagonal.LeftLocality` | src/library/trajectory/trajectory.cpp:88-110 | solutions for right-hand sides that agree below row k differ by (2/7)^(k-i) of their difference at k |
| `SplineTheorems.TaylorExpansion` | src/library/trajectory/trajectory.cpp:32-34 | the velocity and acceleration used below are the derivatives of the evaluated cubic |
| `SplineTheorems.SegmentForm` | src/library/trajectory/trajectory.cpp:120-129 | a segment is its chord minus a bump that vanishes at both ends |
| `SplineTheorems.SegmentEnds` | src/library/trajectory/trajectory.cpp:120-129 | a segment meets both waypoints and has the moments as end accelerations |
| `SplineTheorems.SegmentDetermined` | src/library/trajectory/trajectory.cpp:120-129 | a cubic is determined by its end values and end accelerations |
| `SplineTheorems.VelocityJump` | src/library/trajectory/trajectory.cpp:87-131 | the velocity jump at an interior knot is exactly half the change of slope |
| `SplineTheorems.NaturalSplineUnique` | src/library/trajectory/trajectory.cpp:84-131 | exactly one piecewise cubic satisfies the natural-spline conditions, and its moments are twice those the code solves for |
| `CurveTheorems.SearchFinds` | src/library/trajectory/trajectory.cpp:17-25 | the search loop stops at the one segment whose half-open interval contains the clamped time, the last one at the end |
| `CurveTheorems.PieceUnique` | src/library/trajectory/trajectory.cpp:17-25 | no other segment's interval contains that time |
| `CurveTheorems.EvaluatedDof` | src/library/trajectory/trajectory.cpp:7-38 | component j of eval on a fitted trajectory is the curve of DOF j, at the time itself inside the duration and at the nearer end outside |
| `CurveTheorems.EvaluatedOutside` | src/library/trajectory/trajectory.cpp:7-15 | any trajectory is evaluated at its start before it and at its end after it, and yields zeros without segments |
| `CurveTheorems.CurveIsMean` | src/library/trajectory/trajectory.cpp:87-131 | at every time and DOF the curve is the mean of the straight-line interpolant and the natural cubic spline |
| `CurveTheorems.ClosedPiece` | src/library/trajectory/trajectory.cpp:17-34 | at a knot either adjacent segment gives the same position |
| `CurveTheorems.PassesThroughWaypoints` | src/library/trajectory/trajectory.cpp:63-66 | eval at knot i returns waypoint i for every DOF |
| `CurveTheorems.JoinAtKnot` | src/library/trajectory/trajectory.cpp:115-131 | position and acceleration agree from both sides of an interior knot; velocity agrees if and only if the second difference there is zero |
| `CurveTheorems.FitIsNaturalSplineWhen` | src/library/trajectory/trajectory.cpp:84-131 | the fit is the documented natural cubic spline if and only if all second differences of the waypoints vanish |
| `CurveTheorems.TentIsNotSmooth` | src/library/trajectory/trajectory.cpp:84-131 | for waypoints 0, 1, 0 it is not |
| `CurveTheorems.ReversedMoments` | src/library/trajectory/trajectory.cpp:93-110 | reversing the waypoints reverses the solved moments |
| `CurveTheorems.TimeReversal` | src/library/trajectory/trajectory.cpp:7-136 | fitting reversed waypoints and evaluating at T-t equals fitting the waypoints and evaluating at t, for all t in [0,T] |
| `CurveBounds.ScaledMomentBound` | src/library/trajectory/trajectory.cpp:87-110 | h*h*|M| is at most 3/2 of the largest second difference of the waypoints |
| `CurveBounds.Excursion` | src/library/trajectory/trajectory.cpp:7-136 | the curve leaves the straight-line interpolant by at most 3/16 of the largest second difference, whatever the duration |
| `CurveBounds.StaysInBox` | src/library/trajectory/trajectory.cpp:7-136 | waypoints inside a box shrunk by that margin keep the whole trajectory in the box |
| `CurveBounds.LocalOnTheLeft` | src/library/trajectory/trajectory.cpp:88-110 | changing waypoint k changes the moments left of it by a factor of at most 2/7 per knot |
| `CurveBounds.LocalOnTheRight` | src/library/trajectory/trajectory.cpp:88-110 | and the same on the right |
| `ConstantRanges.ProvedNeverOverflows` | llvm/ubsan_count/UBSanCountPass.cpp:71-94 | ranges the decision accepts contain no pair of values whose operation sets the overflow bit |
| `ConstantRanges.DecisionIsExact` | llvm/ubsan_count/UBSanCountPass.cpp:71-94 | on non-empty ranges it accepts if and only if no pair overflows, for every operation but signed multiplication, which it never accepts |
| `EndpointBound.IteratesBetweenEnds` | llvm/ubsan_count/UBSanCountPass.cpp:315-323 | without a full turn every iterate of the recurrence lies between its two ends in signed order |
| `EndpointBound.ShortStepsEscape` | llvm/ubsan_count/UBSanCountPass.cpp:297-325 | for steps no longer than the arc outside the ends, all iterates lie between the ends if and only if there is no full turn, which the code does not test |
| `EndpointBound.LongStepsMayStayInside` | llvm/ubsan_count/UBSanCountPass.cpp:297-325 | for longer steps that equivalence fails: an 8-bit recurrence with a full turn whose iterates all lie between its ends |
| `EndpointBound.AcceptedExactly` | llvm/ubsan_count/UBSanCountPass.cpp:71-94 | an accepted decision about an addition that advances its own operand is right if and only if the recurrence makes no full turn, for any true reports |
| `EndpointBound.FullTurnEscapes` | llvm/ubsan_count/UBSanCountPass.cpp:279-328 | for every width from 8 on, 32 included, a recurrence from exact reports that the decision accepts and whose third addition overflows |
| `EndpointBound.SignedCheckOnAnyArc` | llvm/ubsan_count/UBSanCountPass.cpp:71-94 | whatever range the union and intersections yield, wrapped ones included, as long as it holds the first and the last value: an accepted signed check never overflows without a full turn |
| `EndpointBound.UnsignedCheckNeedsHull` | llvm/ubsan_count/UBSanCountPass.cpp:317-325 | for unsigned checks that fails: the smallest union of two ends can go the other way and leave out an iterate that overflows |
| `EndpointBound.BoundIsSound` | llvm/ubsan_count/UBSanCountPass.cpp:279-328 | when the reports about an operand are true and its recurrence makes no full turn, the operand lies in the computed bound |
| `EndpointBound.BoundExactly` | llvm/ubsan_count/UBSanCountPass.cpp:279-328 | a value is in the bound if and only if its range, its range under the guards and the ordered ends of its recurrence all allow it, the entry-edge range standing in for a start that is unknown |
| `EndpointBound.RangesSuffice` | llvm/ubsan_count/UBSanCountPass.cpp:290-293 | when no value of the reported ranges overflows the check is removable, whatever else is reported |
| `EndpointBound.CounterRemovable` | llvm/ubsan_count/UBSanCountPass.cpp:295-325 | a counter of any step until any last value is removable if and only if its start, or else its entry edge, is known to lie on the right side and the last addition fits |
| `EndpointBound.EdgeCountdownRemovable` | llvm/ubsan_count/test/test.cpp:37-46 | a countdown whose start is known only on the entry edge is removable if and only if that range is non-negative |
| `EndpointBound.CountdownRemovable` | llvm/ubsan_count/test/test.cpp:14-33 | the check of while(count--) is proved dead from the endpoint rule alone exactly when the start is known to be non-negative |
| `EndpointBound.CountdownNeverOverflows` | llvm/ubsan_count/test/test.cpp:14-19 | from a non-negative start no decrement of that loop overflows |
| `Straightening.StraightenAllClones` | llvm/ubsan_count/UBSanCountPass.cpp:145-194 | straightening changes only the branches of check blocks, drops only blocks, and leaves the function closed |
| `Straightening.EndsStraightened` | llvm/ubsan_count/UBSanCountPass.cpp:155-186 | every surviving block with an overflow check and exactly one handler successor, on either side, jumps to the other successor; every other end is unchanged |
| `Straightening.NoGuardLeft` | llvm/ubsan_count/UBSanCountPass.cpp:155-186 | no check block of the result branches between a handler and something else |
| `Straightening.DroppedAreGuarded` | llvm/ubsan_count/UBSanCountPass.cpp:188-192 | only handlers of straightened branches are deleted |
| `Simulation.HandlersDropped` | llvm/ubsan_count/UBSanCountPass.cpp:188-192 | every handler of an overflow check is deleted from the clone |
| `Straightening.StraighteningIdempotent` | llvm/ubsan_count/UBSanCountPass.cpp:145-194 | straightening a straightened function changes nothing more |
| `Simulation.StepOutside` | llvm/ubsan_count/UBSanCountPass.cpp:155-193 | outside handlers one step of the original is matched by one step of the clone |
| `Simulation.StepInHandler` | llvm/ubsan_count/UBSanCountPass.cpp:155-193 | the original's step through a handler is matched by the clone standing still |
| `Simulation.StraighteningSimulates` | llvm/ubsan_count/UBSanCountPass.cpp:145-194 | every original run is matched by a clone run with equal registers outside handler temporaries until the original aborts |
| `Simulation.CheckOperandsTransfer` | llvm/ubsan_count/UBSanCountPass.cpp:330-361 | whatever an overflow check reads in the original, its twin reads in a reachable state of the clone |
| `Folding.FoldingPreservesRun` | llvm/ubsan_count/UBSanCountPass.cpp:388-395 | replacing registers by false and erasing them preserves every run in which their definitions yield false |
| `Folding.FoldFalseTwice` | llvm/ubsan_count/UBSanCountPass.cpp:388-395 | folding bits one after the other is folding them at once |
| `CheckElimination.RemovableChecksHold` | llvm/ubsan_count/UBSanCountPass.cpp:346-357 | a check proved on the clone never overflows in the original |
| `CheckElimination.RemovableExactly` | llvm/ubsan_count/UBSanCountPass.cpp:346-357 | a check is removable if and only if its twin survives and no two values within its bounds overflow, for every operation but signed multiplication |
| `CheckElimination.SignedProductsStay` | llvm/ubsan_count/UBSanCountPass.cpp:85-89 | a signed multiplication is never removed |
| `CheckElimination.NoBitLeft` | llvm/ubsan_count/UBSanCountPass.cpp:388-395 | after the pass no instruction extracts the overflow bit of a removable check |
| `CheckElimination.FactsMakeBoundsSound` | llvm/ubsan_count/UBSanCountPass.cpp:330-355 | true reports about the clone, without a full turn, make the bounds computed by boundOverflowOperand hold at every check the clone reaches |
| `CheckElimination.EliminationPreservesRuns` | llvm/ubsan_count/UBSanCountPass.cpp:366-399 | from true reports about the clone, without a full turn, folding all removable checks at once preserves blocks, calls, handler calls, result and registers of every run of the original, although the clone has all branches straightened |
| `CountingLoop.LoopKeptExactly` | llvm/ubsan_count/UBSanCountPass.cpp:297-399 | on the IR of a counting loop with any start, step, limit and width the reports are true of the clone; once the decision accepts the check from them, the pass keeps every run if and only if the counter makes no full turn |
| `CountingLoop.FullTurnLosesCall` | llvm/ubsan_count/UBSanCountPass.cpp:297-399 | for every width from 8 on, a loop with true reports whose check the pass removes and one of whose handler calls disappears |
| `CountingLoop.CountdownCheckRemoved` | llvm/ubsan_count/test/test.cpp:14-19 | on the IR of while(count--) the check is removed whenever the start is known to be non-negative, and every run is preserved |
| `CountingLoop.LoopReportsTrue` | llvm/ubsan_count/test/test.cpp:14-33 | the reports of the counter are true on every run of the loop's clone, whether it makes a full turn or not |
| `OverflowPass.IrFunction.StraightenHandlerBranch` | llvm/ubsan_count/UBSanCountPass.cpp:455-485 | one guarded branch becomes a jump and its handler is deleted when nothing else leads to it |
| `OverflowPass.IrFunction.StraightenOverflowBranches` | llvm/ubsan_count/UBSanCountPass.cpp:145-194 | the work-list rewrite of the clone |
| `OverflowPass.CollectRemovableFromClone` | llvm/ubsan_count/UBSanCountPass.cpp:330-361 | the removable checks are those whose twin survives in the clone and is proved there by the bounds computed from its operands' reports; the original is left unchanged |
| `OverflowPass.Optimize` | llvm/ubsan_count/UBSanCountPass.cpp:366-399 | the pass folds exactly the overflow bits of the removable checks and reports whether it changed anything |
| `OverflowPass.StraightenAfterFold` | llvm/ubsan_count/UBSanCountPass.cpp:425-435 | straightening and folding commute, so the pass may interleave them |
| `OverflowPass.OptimizeSretNullChecks` | llvm/ubsan_count/UBSanCountPass.cpp:405-438 | the null-check pass straightens exactly the blocks with a null check and folds exactly their results |
| `SretNullChecks.RunNonNull` | llvm/ubsan_count/UBSanCountPass.cpp:410-412 | a comparison of an sret argument with null is false in every run from a non-null argument |
| `SretNullChecks.NullCheckOperands` | llvm/ubsan_count/UBSanCountPass.cpp:441-453 | a null check compares an sret argument with null, in either operand order |
| `SretNullChecks.NullChecksStraightened` | llvm/ubsan_count/UBSanCountPass.cpp:421-435 | every surviving block with a null check and exactly one handler successor, on either side, jumps to the other, and the null check is gone |
| `SretNullChecks.SretRunsKeptExactly` | llvm/ubsan_count/UBSanCountPass.cpp:405-438 | for any function, whatever its blocks branch on, the pass keeps a run from non-null sret arguments if and only if the run never leaves a straightened block for its handler |
| `SretNullChecks.SharedBranchLosesCall` | llvm/ubsan_count/UBSanCountPass.cpp:421-427 | a block whose null check shares its branch with another check: from a non-null sret argument the call of the other check's handler disappears |
| `SretNullChecks.NullCheckBranch` | llvm/ubsan_count/UBSanCountPass.cpp:421-427 | a branch on a null check takes its handler if and only if the handler is on the false side |
| `SretNullChecks.SretEliminationPreservesRuns` | llvm/ubsan_count/UBSanCountPass.cpp:405-438 | for branches on null checks with the handler on the true side, every run is kept |
| `PlannerProtocol.InvAlways` | src/library/motion_planning/planner.cpp:19-110 | the protocol invariant holds after every interleaving of clients, worker and controller |
| `PlannerProtocol.SubmissionsSplit` | src/library/motion_planning/planner.cpp:36-65 | every submission is exactly one of taken, overwritten or pending, and takes are in submission order |
| `PlannerProtocol.TakesTheNewest` | src/library/motion_planning/planner.cpp:61-64 | each take is the newest submission at that moment and newer than all taken before |
| `PlannerProtocol.NewestIsKept` | src/library/motion_planning/planner.cpp:36-65 | the newest submission is pending or was the last one taken |
| `PlannerProtocol.TakenAreDelivered` | src/library/motion_planning/planner.cpp:57-108 | over every run each request taken is handed to the callback exactly once, in order, unless its planning failed or it is still in hand |
| `PlannerProtocol.FirstCallback` | src/library/motion_planning/planner.cpp:19-108 | a run from the start through a sleeping worker and one request to its callback |
| `PlannerProtocol.NoLostWakeUp` | src/library/motion_planning/planner.cpp:44-55 | a worker asleep on a full slot has a notification still in flight |
| `PlannerProtocol.SleepsThroughStopWhen` | src/library/motion_planning/planner.cpp:26-55 | the worker sleeps through stop if and only if flag store and notification both fell between its predicate test and its sleep |
| `PlannerProtocol.StopCanSleepThrough` | src/library/motion_planning/planner.cpp:26-55 | a run in which that happens and join waits |
| `PlannerProtocol.SleepsUntilWoken` | src/library/motion_planning/planner.cpp:26-55 | then the worker sleeps and join waits through every run without a spurious wake-up or a request's notification |
| `PlannerProtocol.WakesUp` | src/library/motion_planning/planner.cpp:53-55 | a sleeping worker can wake spuriously and is woken by either notification, and by nothing else |
| `PlannerProtocol.StopCompletes` | src/library/motion_planning/planner.cpp:31-59 | over every run after stop, an awake worker makes at most five more steps whatever clients do, and having made those left it is done, join can return, and the planner is idle again |
| `PlannerProtocol.WorkerCanMove` | src/library/motion_planning/planner.cpp:47-65 | until it is done it can move, at once or after the client that holds the mutex |
| `PlannerProtocol.NoCallbackAfterStop` | src/library/motion_planning/planner.cpp:26-34 | once stop has returned no callback follows until the next start |
| `PlannerThread.Planner.StartThread` | src/library/motion_planning/planner.cpp:19-24 | start does nothing when running, else raises the flag and spawns the worker |
| `PlannerThread.Planner.RequestPlan` | src/library/motion_planning/planner.cpp:36-45 | requestPlan leaves its request in the slot whatever was there and wakes the worker |
| `PlannerThread.Planner.TakeRequest` | src/library/motion_planning/planner.cpp:57-65 | the loop's critical section leaves, or empties the slot and returns the newest request submitted |
| `PlannerThread.Planner.PlanAndHandOver` | src/library/motion_planning/planner.cpp:71-108 | the rest of a round: the fitted path is handed over, or nothing when the inverse kinematics or the path search fails |
| `PlannerThread.Planner.Stop` | src/library/motion_planning/planner.cpp:26-30 | stop does nothing when not running, else clears the flag and wakes the worker |
| `RTExecutor.Executor.PerformLoopIteration` | src/library/rt_executor/rt_executor.cpp:88-143 | one iteration is one playback tick, sleeps until the given deadline and advances it by a millisecond modulo 2^64 |
| `RTExecutor.Executor.RtLoop` | src/library/rt_executor/rt_executor.cpp:64-85 | the k-th wake target is start + (k+1) ms for every k, and the callbacks are those of the ticks in order |
| `Playback.OutputExactlyWhenAudible` | src/library/rt_executor/rt_executor.cpp:97-122 | a tick calls back if and only if its pointer is a trajectory with a DOF and a non-negative duration; null is silent, where the header promises a hold |
| `Playback.PlaybackClosedForm` | src/library/rt_executor/rt_executor.cpp:97-128 | k ticks after pick-up the callback gets sample k inside the duration, then the last sample forever |
| `Playback.HoldsTheLastWaypoint` | src/library/rt_executor/rt_executor.cpp:107-122 | a fitted trajectory of whole milliseconds starts on the first waypoint and holds exactly the last one |
| `Playback.FittedInsideBox` | src/library/trajectory/trajectory.cpp:40-136 | a fit of waypoints in the shrunk box never leaves the box |
| `Playback.CommandsStayInBox` | src/library/rt_executor/rt_executor.cpp:87-122 | if every trajectory handed over stays in a box, so does every command, across hand-offs, holds and restarts |
| `Deadlines.LatenessStep` | src/library/rt_executor/rt_executor.cpp:130-142 | with undisturbed sleeps lateness follows max(0, late + cost - period) |
| `Deadlines.LatenessIsLargestSuffix` | src/library/rt_executor/rt_executor.cpp:130-142 | lateness is the largest suffix sum of cost - period, so it does not accumulate |
| `Deadlines.Recovers` | src/library/rt_executor/rt_executor.cpp:130-142 | once later iterations leave enough slack a deadline is met again |
| `Deadlines.LoopLateness` | src/library/rt_executor/rt_executor.cpp:65-85 | on the wake targets the loop really uses, it is late by the largest suffix excess of its iterations, until the 64-bit counter wraps |
| `PairIndexing.KernelRowIsLargest` | src/library/coal_gpu_collision_manager/coal_gpu_collision_manager.cpp:60-63 | the kernel's row is the largest i with i(i+1)/2 <= k |
| `PairIndexing.KernelPairShape` | src/library/coal_gpu_collision_manager/coal_gpu_collision_manager.cpp:60-63 | the decoded pair has i < j <= 2i+1 and determines its index |
| `PairIndexing.KernelPairInjective` | src/library/coal_gpu_collision_manager/coal_gpu_collision_manager.cpp:50-53 | different work items decode to different pairs |
| `PairIndexing.HostIndexInjective` | src/library/coal_gpu_collision_manager/coal_gpu_collision_manager.cpp:350-352 | the host loops' counter numbers pairs without collisions |
| `PairIndexing.HostIndexBijective` | src/library/coal_gpu_collision_manager/coal_gpu_collision_manager.cpp:350-352 | and onto 0..n(n-1)/2-1 |
| `PairIndexing.NumberingsAgreeOnlyAtZero` | src/library/coal_gpu_collision_manager/coal_gpu_collision_manager.cpp:50-53 | the kernel's pair at the host's index is the host's pair only for the first pair, where the comment claims one numbering |
| `PairIndexing.KernelInRangeOnlyUpToTwo` | src/library/coal_gpu_collision_manager/coal_gpu_collision_manager.cpp:50-53 | the kernel decodes only pairs of existing objects if and only if there are at most two |
| `PairIndexing.FlatIndex` | src/library/coal_gpu_collision_manager/coal_gpu_collision_manager.cpp:123-125 | k/m and k%m invert i*m+j |
| `Boxes.BoxDistanceIsLowerBound` | src/library/coal_gpu_collision_manager/coal_gpu_collision_manager.cpp:146-149 | no two points of the boxes are closer than the distance formula |
| `Boxes.BoxDistanceIsAttained` | src/library/coal_gpu_collision_manager/coal_gpu_collision_manager.cpp:146-149 | for non-empty boxes two points are exactly that close |
| `Boxes.ZeroExactlyWhenOverlapping` | src/library/coal_gpu_collision_manager/coal_gpu_collision_manager.cpp:130-132 | for non-empty boxes the distance is zero exactly when the overlap test holds and when they share a point |
| `Broadphase.ExtractAABBs` | src/library/coal_gpu_collision_manager/coal_gpu_collision_manager.cpp:694-704 | the flattened array holds box i at offset 6i |
| `Broadphase.OverlapCrossKernel` | src/library/coal_gpu_collision_manager/coal_gpu_collision_manager.cpp:119-133 | the cross kernel fills the row-major grid of overlap flags |
| `Broadphase.DistanceCrossKernel` | src/library/coal_gpu_collision_manager/coal_gpu_collision_manager.cpp:135-150 | the cross kernel fills the row-major grid of box distances |
| `Broadphase.CandidatesAreTheOverlaps` | src/library/coal_gpu_collision_manager/coal_gpu_collision_manager.cpp:584-593 | the reference list holds exactly the overlapping pairs, each once, in row-major order |
| `Broadphase.StopsExactly` | src/library/coal_gpu_collision_manager/coal_gpu_collision_manager.cpp:584-593 | the calls made are the first of the list, up to one that stops, and none before it stops |
| `GpuCollisionManager.CoalGPUCollisionManager.CollideCross` | src/library/coal_gpu_collision_manager/coal_gpu_collision_manager.cpp:539-594 | the callback sees exactly that list up to and including the first call that stops |
| `GpuCollisionManager.CoalGPUCollisionManager.CollideOneVsAll` | src/library/coal_gpu_collision_manager/coal_gpu_collision_manager.cpp:453-493 | the same for one query object |
| `GpuCollisionManager.CoalGPUCollisionManager.DistanceCross` | src/library/coal_gpu_collision_manager/coal_gpu_collision_manager.cpp:596-654 | the pruned scan ends with the exact minimum over all pairs; the callback is called in row-major order on pairs whose boxes are closer than the minimum so far, and skipped pairs have boxes no closer |
| `GpuCollisionManager.CoalGPUCollisionManager.DistanceOneVsAll` | src/library/coal_gpu_collision_manager/coal_gpu_collision_manager.cpp:495-537 | the same for one query object, skipped pairs included |
| `GpuCollisionManager.CoalGPUCollisionManager.CollideManager` | src/library/coal_gpu_collision_manager/coal_gpu_collision_manager.cpp:539-594 | between two managers the overlapping pairs up to the first stop; with itself the self check |
| `GpuCollisionManager.CoalGPUCollisionManager.DistanceManager` | src/library/coal_gpu_collision_manager/coal_gpu_collision_manager.cpp:596-654 | between two managers the exact minimum; with itself the self-distance scan |
| `GpuCollisionManager.CoalGPUCollisionManager.CollideSelf` | src/library/coal_gpu_collision_manager/coal_gpu_collision_manager.cpp:387-399 | the self-check scan reports pair (i,j) by the flag at the host's counter, up to the first stop |
| `GpuCollisionManager.SelfCandidatesInOrder` | src/library/coal_gpu_collision_manager/coal_gpu_collision_manager.cpp:387-399 | pairs are reported by increasing counter, each once |
| `GpuCollisionManager.SelfCheckReportsAnotherPair` | src/library/coal_gpu_collision_manager/coal_gpu_collision_manager.cpp:92-105 | for every pair, the self check reports it exactly when the boxes of the pair the kernel decodes from its counter overlap, and that is the same pair only for the first |
| `GpuCollisionManager.ReliableReports` | src/library/coal_gpu_collision_manager/coal_gpu_collision_manager.cpp:92-105 | a pair's report is right for every placement and every content of the undecoded cells if and only if it is the first pair |
| `GpuCollisionManager.SelfCheckIsBruteForceUpToTwo` | src/library/coal_gpu_collision_manager/coal_gpu_collision_manager.cpp:387-399 | the self check reports exactly the overlapping pairs for every placement if and only if there are at most two objects |
| `GpuCollisionManager.CoalGPUCollisionManager.DistanceSelf` | src/library/coal_gpu_collision_manager/coal_gpu_collision_manager.cpp:656-673 | the self-distance scan computes its pruned minimum over the host's counter |
| `GpuCollisionManager.SelfMinimumFacts` | src/library/coal_gpu_collision_manager/coal_gpu_collision_manager.cpp:656-673 | the scan's result is the start value or the true distance of some pair, and no pair has both its true distance and its cell below it |
| `GpuCollisionManager.SelfDistanceRightUpToTwo` | src/library/coal_gpu_collision_manager/coal_gpu_collision_manager.cpp:656-673 | from any positive start value that minimum is the true one for every placement if and only if there are at most two objects |
| `GpuCollisionManager.CoalGPUCollisionManager.UnregisterObject` | src/library/coal_gpu_collision_manager/coal_gpu_collision_manager.cpp:264-268 | removes the first registration of the object only and keeps the order |
| `CollisionScene.KeysShared` | src/library/collision_detection/collision_scene.cpp:225-230 | exactly when two pairs of names share a key: they are equal, or one first name continues past the separator as stated |
| `CollisionScene.FirstNameConfused` | src/library/collision_detection/collision_scene.cpp:225-230 | a first name can be confused with a shorter one if and only if it ends with a colon or holds the separator |
| `CollisionScene.SecondNameConfused` | src/library/collision_detection/collision_scene.cpp:225-230 | a second name can be confused with a shorter one if and only if it starts with a colon or holds the separator |
| `CollisionScene.PairKeyInjective` | src/library/collision_detection/collision_scene.cpp:225-230 | names without the separator are recovered from their key, unless one of them ends with a colon and one starts with a colon |
| `CollisionScene.ColonNamesCollide` | src/library/collision_detection/collision_scene.cpp:225-230 | two concrete pairs of names that share a key |
| `CollisionScene.KeyTestExact` | src/library/collision_detection/collision_scene.cpp:48-50 | for any names the string test says adjacent exactly for adjacent links and for those a model pair is misread as |
| `CollisionScene.NarrowPhaseCallback.Collide` | src/library/collision_detection/collision_scene.cpp:42-60 | a report stops the broadphase and sets the flag exactly for known, non-adjacent objects in contact |
| `CollisionScene.Scene.BuildAdjacencyList` | src/library/collision_detection/collision_scene.cpp:225-230 | the set holds both orders of every model pair and nothing else |
| `CollisionScene.Scene.CheckCollisions` | src/library/collision_detection/collision_scene.cpp:247-261 | the answer is free exactly when no report of the broadphase makes the callback stop, for any broadphase |
| `CollisionScene.CheckRightExactlyWhen` | src/library/collision_detection/collision_scene.cpp:247-261 | with a broadphase offering every overlapping pair in any order, free means that no non-adjacent links touch, for every pose, if and only if no non-adjacent links are misread |
| `CollisionScene.MisreadLinks` | src/library/collision_detection/collision_scene.cpp:225-230 | four links and one model pair by which two non-adjacent links are misread |
| `CollisionScene.SeparableNamesClear` | src/library/collision_detection/collision_scene.cpp:225-230 | names whose colons do not meet are never misread |
| `CollisionScene.GpuModeRightExactlyWhen` | src/library/collision_detection/collision_scene.cpp:98-108 | in GPU mode the answer is right for every pose, and every content of the cells the kernel cannot decode, if and only if every two links but the first two are adjacent |

## Left out

- OpenCL buffers, mapping, profiling and device set-up, mesh loading and the narrow phase: foreign calls; contact is an arbitrary symmetric predicate.
- IEEE rounding: doubles, float casts, float square roots and the accumulated 0.001 are exact here.
- Forward and inverse kinematics, URDF parsing and OMPL: planning is a step that succeeds or fails.
- ScalarEvolution, LazyValueInfo and the pass manager: only the ranges they report appear.
- The counting and printing passes, timing statistics, logging, priorities and affinity: input and output only.
- EndpointBound.BoundIsSound: assumes that a reported recurrence makes no full turn of the register, because it is false otherwise and the code tests nothing of the kind (`AcceptedExactly`, `LoopKeptExactly`), and that the union of the ends is their hull (`SignedCheckOnAnyArc`, `UnsignedCheckNeedsHull`).
- Trajectories.FitCubicSpline: takes a positive duration, because at zero the source divides by zero spacings and relies on IEEE infinities, and a negative one leaves no time to evaluate at.
- EndpointBound.ShortStepsEscape: says nothing about steps longer than the arc outside the ends, because the equivalence is false for them (`LongStepsMayStayInside`).
- SretNullChecks.SretEliminationPreservesRuns: covers branches on null checks with the handler on the true side; for all others `SretRunsKeptExactly` states when the pass is right, and `SharedBranchLosesCall` gives one on which it is not.
- PairIndexing.KernelRowIsLargest: takes the kernel's single-precision square root as the exact integer one.
- `updateCollisionTransforms` and `isCollisionFree`'s size test: they only forward to kinematics and to `checkCollisions`.
- Handler blocks that define values used elsewhere or are shared with branches that are not checks.
