/** `Planner`'s methods on its fields. Each body is the source's, run without interference; its
    contract says which atomic actions of PlannerProtocol it performs, and those may be
    interleaved with any others there. Where each thread is, and the history, are ghost state. */
module PlannerThread {
  import opened Options
  import opened PlannerProtocol
  import opened Trajectories

  class Planner {
    var running: bool
    var pendingRequest: Option<Request>
    ghost var pendingNumber: Option<nat>
    ghost var mutex: Owner
    ghost var clients: map<ClientId, ClientPc>
    ghost var worker: WorkerPc
    ghost var controller: ControllerPc
    ghost var submitted: seq<Request>
    ghost var taken: seq<nat>
    ghost var overwritten: set<nat>
    ghost var callbacks: seq<nat>
    ghost var failed: set<nat>
    ghost var storeInWindow: bool
    ghost var notifyInWindow: bool

    ghost function View(): State
      reads this
    {
      State(running, pendingNumber, mutex, clients, worker, controller,
            submitted, taken, overwritten, callbacks, failed, storeInWindow, notifyInWindow)
    }

    /** The slot holds the request that the submission number names. */
    ghost predicate Valid()
      reads this
    {
      match pendingNumber
      case None => pendingRequest.None?
      case Some(n) => n < |submitted| && pendingRequest == Some(submitted[n])
    }

    constructor ()
      ensures Valid() && View() == INITIAL
    {
      running, pendingRequest := false, None;
      pendingNumber, mutex, clients := None, Free, map[];
      worker, controller := Off, Idle;
      submitted, taken, overwritten, callbacks, failed := [], [], {}, [], {};
      storeInWindow, notifyInWindow := false, false;
    }

    method StartThread()
      requires Valid() && controller == Idle
      modifies this
      ensures Valid()
      ensures View() == if old(running) then old(View()) else Run(old(View()), [Start, Spawn])
    {
      RunTwo(View(), Start, Spawn);
      var was := running;
      running := true;
      if was {
        return;
      }
      controller := Spawning;
      worker := LoopTest;
      controller := Idle;
    }

    /** The mailbox always ends up with this request, whatever it held before. */
    method RequestPlan(ghost c: ClientId, req: Request)
      requires Valid() && Client(View(), c) == Outside
      requires mutex == Free
      modifies this
      ensures Valid()
      ensures View() == Run(old(View()), [Call(c, req), Lock(c), Store(c), Unlock(c), NotifyOne(c)])
      ensures pendingRequest == Some(req) && submitted == old(submitted) + [req]
      ensures worker != Sleeping
    {
      hide Run, Next, Effect, Wake;
      ghost var s := View();
      RunFive(s, Call(c, req), Lock(c), Store(c), Unlock(c), NotifyOne(c));
      AcquireLock(c, req);
      StoreSlot(c, req);
      ReleaseAndNotify(c);
    }

    ghost method AcquireLock(c: ClientId, req: Request)
      requires Client(View(), c) == Outside && mutex == Free
      modifies this`clients, this`mutex
      ensures View() == Next(Next(old(View()), Call(c, req)), Lock(c))
      ensures Client(View(), c) == Holding(req)
    {
      Acquired(View(), c, req);
      clients := clients[c := WantLock(req)];
      mutex, clients := ClientOwns(c), clients[c := Holding(req)];
    }

    ghost method ReleaseAndNotify(c: ClientId)
      requires Client(View(), c) == Stored
      modifies this`clients, this`mutex, this`worker
      ensures View() == Next(Next(old(View()), Unlock(c)), NotifyOne(c))
      ensures worker != Sleeping
    {
      Released(View(), c);
      mutex, clients := Free, clients[c := ToNotify];
      clients := clients[c := Outside];
      if worker == Sleeping {
        worker := WantMutex;
      }
    }

    /** The critical section of `requestPlan`. */
    method StoreSlot(ghost c: ClientId, req: Request)
      requires Valid() && Client(View(), c) == Holding(req)
      modifies this`pendingRequest, this`pendingNumber, this`submitted, this`overwritten, this`clients
      ensures Valid()
      ensures View() == Next(old(View()), Store(c))
      ensures pendingRequest == Some(req) && submitted == old(submitted) + [req]
      ensures clients == old(clients)[c := Stored]
    {
      pendingRequest := Some(req);
      if pendingNumber.Some? {
        overwritten := overwritten + {pendingNumber.value};
      }
      pendingNumber := Some(|submitted|);
      submitted := submitted + [req];
      clients := clients[c := Stored];
    }

    /** The critical section of the loop once the predicate holds: leave, or empty the slot. The
        request taken is the newest one submitted. */
    method TakeRequest() returns (request: Option<Request>)
      requires Valid() && Inv(View())
      requires worker == AfterWait
      modifies this
      ensures Valid()
      ensures old(running) ==> submitted != [] && request == Some(submitted[|submitted| - 1]) && pendingRequest.None?
      ensures old(running) ==> View() == Run(old(View()), [WorkerStep, WorkerStep])
      ensures !old(running) ==> request.None? && View() == Run(old(View()), [WorkerStep]) && worker == Done
    {
      hide Inv, Run, Next;
      RunTwo(View(), WorkerStep, WorkerStep);
      OneWorkerStep(View());
      AfterWaiting(View());
      if !running {
        worker, mutex := Done, Free;
        return None;
      }
      request := pendingRequest;
      pendingRequest := None;
      taken := taken + [pendingNumber.value];
      worker := Unlocking(pendingNumber);
      pendingNumber := None;
    }

    /** The rest of a round, with a request out of the slot. Inverse kinematics and the path search
        succeed or fail; on success the fitted path is handed to the callback. */
    method PlanAndHandOver(ikSolved: bool, path: seq<seq<real>>, durationS: real) returns (handed: Option<Trajectory>)
      requires Valid() && worker.Unlocking? && worker.request.Some?
      requires ikSolved && path != [] ==> Fittable(path, durationS)
      modifies this`worker, this`mutex, this`callbacks, this`failed
      ensures Valid()
      ensures !ikSolved || path == [] ==> handed.None? && View() == Run(old(View()), [WorkerStep, PlanFails])
      ensures ikSolved && path != [] ==>
        && handed == Some(Fitted(path, durationS))
        && View() == Run(old(View()), [WorkerStep, WorkerStep, WorkerStep])
    {
      hide Run, Next, Fitted, Fittable;
      ghost var n := worker.request.value;
      HandedOver(View(), n);
      worker, mutex := Planning(n), Free;
      if !ikSolved {
        worker, failed := LoopTest, failed + {n};
        return None;
      }
      if path == [] {
        worker, failed := LoopTest, failed + {n};
        return None;
      }
      var trajectory := FitCubicSpline(path, durationS);
      worker, callbacks := LoopTest, callbacks + [n];
      return Some(trajectory);
    }

    method Stop()
      requires Valid() && controller == Idle
      modifies this
      ensures Valid()
      ensures View() == if old(running) then Run(old(View()), [StopStore, NotifyAll]) else old(View())
      ensures old(running) ==> worker != Sleeping && controller == StopJoin
    {
      hide Run, Next, Effect;
      RunTwo(View(), StopStore, NotifyAll);
      var was := running;
      ClearFlag();
      if !was {
        return;
      }
      NotifyWaiters();
    }

    /** running_.exchange(false): it does not take the mutex. */
    method ClearFlag()
      requires controller == Idle
      modifies this`running, this`controller, this`storeInWindow
      ensures View() == Next(old(View()), StopStore)
      ensures old(running) ==> controller == StopNotify
      ensures !old(running) ==> View() == old(View())
    {
      var was := running;
      running := false;
      if was {
        controller, storeInWindow := StopNotify, storeInWindow || worker == AboutToSleep;
      }
    }

    ghost method NotifyWaiters()
      requires controller == StopNotify
      modifies this`controller, this`notifyInWindow, this`worker
      ensures View() == Next(old(View()), NotifyAll)
      ensures worker != Sleeping && controller == StopJoin
    {
      controller, notifyInWindow := StopJoin, notifyInWindow || worker == AboutToSleep;
      if worker == Sleeping {
        worker := WantMutex;
      }
    }
  }

  lemma HandedOver(s: State, n: nat)
    requires s.worker == Unlocking(Some(n))
    ensures Run(s, [WorkerStep, PlanFails]) == s.(worker := LoopTest, mutex := Free, failed := s.failed + {n})
    ensures Run(s, [WorkerStep, WorkerStep, WorkerStep]) ==
            s.(worker := LoopTest, mutex := Free, callbacks := s.callbacks + [n])
  {
    hide Run, Next;
    RunTwo(s, WorkerStep, PlanFails);
    RunThree(s, [], WorkerStep, WorkerStep, WorkerStep);
    assert [] + [WorkerStep, WorkerStep, WorkerStep] == [WorkerStep, WorkerStep, WorkerStep];
    EmptyRun(s);
    HandsOver(s, n);
    Fails(s, n);
  }

  lemma Fails(s: State, n: nat)
    requires s.worker == Unlocking(Some(n))
    ensures Next(Next(s, WorkerStep), PlanFails) == s.(worker := LoopTest, mutex := Free, failed := s.failed + {n})
  {
    assert Next(s, WorkerStep) == s.(worker := Planning(n), mutex := Free);
  }

  lemma EmptyRun(s: State)
    ensures Run(s, []) == s
  {
  }

  lemma OneWorkerStep(s: State)
    ensures Run(s, [WorkerStep]) == Next(s, WorkerStep)
  {
    RunOne(s, [], WorkerStep);
  }

  /** With the flag up, the slot holds the newest submission; two steps take it out and unlock. */
  lemma AfterWaiting(s: State)
    requires Inv(s) && s.worker == AfterWait
    ensures s.running ==>
      && s.submitted != [] && s.pending == Some(|s.submitted| - 1)
      && Next(Next(s, WorkerStep), WorkerStep) ==
         s.(worker := Unlocking(s.pending), pending := None, taken := s.taken + [s.pending.value])
    ensures !s.running ==> Next(s, WorkerStep) == s.(worker := Done, mutex := Free)
  {
    hide Locking, RequestsWake, StopWindow;
    if s.running {
      assert Next(s, WorkerStep) == s.(worker := Taking);
    }
  }

  lemma Acquired(s: State, c: ClientId, req: Request)
    requires Client(s, c) == Outside && s.mutex == Free
    ensures Next(Next(s, Call(c, req)), Lock(c)) ==
            s.(clients := s.clients[c := WantLock(req)][c := Holding(req)], mutex := ClientOwns(c))
  {
    assert Next(s, Call(c, req)) == s.(clients := s.clients[c := WantLock(req)]);
  }

  lemma Released(s: State, c: ClientId)
    requires Client(s, c) == Stored
    ensures Next(Next(s, Unlock(c)), NotifyOne(c)) ==
            Wake(s.(clients := s.clients[c := ToNotify][c := Outside], mutex := Free))
  {
    assert Next(s, Unlock(c)) == s.(clients := s.clients[c := ToNotify], mutex := Free);
  }
}
