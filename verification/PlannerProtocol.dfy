/** The planning thread and its single-slot mailbox as a step system: any number of clients in
    `requestPlan`, one worker in `planningLoop`, one controller in `start` / `stop`. Each action is
    one atomic step of the source (a lock operation, one access under the lock, one atomic
    exchange, one notification). IK and OMPL succeed or fail at will. */
module PlannerProtocol {
  import opened Options

  type ClientId = nat
  type Request = int

  /** Where a client is inside `requestPlan`. */
  datatype ClientPc = Outside | WantLock(req: Request) | Holding(req: Request) | Stored | ToNotify

  /** Where the worker is inside `planningLoop`; requests are named by their submission number. */
  datatype WorkerPc =
    | Off
    | LoopTest
    | WantMutex
    | TestPredicate
    | AboutToSleep
    | Sleeping
    | AfterWait
    | Taking
    | Unlocking(request: Option<nat>)
    | Planning(n: nat)
    | Callback(n: nat)
    | Done

  datatype ControllerPc = Idle | Spawning | StopNotify | StopJoin

  datatype Owner = Free | WorkerOwns | ClientOwns(c: ClientId)

  datatype State = State(
    running: bool,
    pending: Option<nat>,
    mutex: Owner,
    clients: map<ClientId, ClientPc>,
    worker: WorkerPc,
    controller: ControllerPc,
    // history
    submitted: seq<Request>,
    taken: seq<nat>,
    overwritten: set<nat>,
    callbacks: seq<nat>,
    failed: set<nat>,
    storeInWindow: bool,
    notifyInWindow: bool)

  datatype Action =
    | Call(c: ClientId, req: Request) | Lock(c: ClientId) | Store(c: ClientId) | Unlock(c: ClientId) | NotifyOne(c: ClientId)
    | Start | Spawn | StopStore | NotifyAll | Join
    | WorkerStep | SpuriousWake | PlanFails

  const INITIAL := State(false, None, Free, map[], Off, Idle, [], [], {}, [], {}, false, false)

  function Client(s: State, c: ClientId): ClientPc {
    if c in s.clients then s.clients[c] else Outside
  }

  predicate Predicate(s: State) {
    !s.running || s.pending.Some?
  }

  predicate Enabled(s: State, a: Action) {
    match a
    case Call(c, _) => Client(s, c) == Outside
    case Lock(c) => Client(s, c).WantLock? && s.mutex == Free
    case Store(c) => Client(s, c).Holding?
    case Unlock(c) => Client(s, c) == Stored
    case NotifyOne(c) => Client(s, c) == ToNotify
    case Start => s.controller == Idle
    case Spawn => s.controller == Spawning
    case StopStore => s.controller == Idle
    case NotifyAll => s.controller == StopNotify
    case Join => s.controller == StopJoin && s.worker == Done
    case WorkerStep => !s.worker.Off? && !s.worker.Sleeping? && !s.worker.Done? && (s.worker == WantMutex ==> s.mutex == Free)
    case SpuriousWake => s.worker == Sleeping
    case PlanFails => s.worker.Planning?
  }

  function Wake(s: State): State {
    if s.worker == Sleeping then s.(worker := WantMutex) else s
  }

  function WorkerNext(s: State): State {
    match s.worker
    case LoopTest => s.(worker := if s.running then WantMutex else Done)
    case WantMutex => s.(worker := TestPredicate, mutex := WorkerOwns)
    case TestPredicate =>
      if Predicate(s) then s.(worker := AfterWait)
      else s.(worker := AboutToSleep, storeInWindow := false, notifyInWindow := false)
    case AboutToSleep => s.(worker := Sleeping, mutex := Free)
    case AfterWait => if s.running then s.(worker := Taking) else s.(worker := Done, mutex := Free)
    case Taking =>
      if s.pending.Some?
      then s.(worker := Unlocking(s.pending), pending := None, taken := s.taken + [s.pending.value])
      else s.(worker := Unlocking(None))
    case Unlocking(r) => s.(worker := if r.Some? then Planning(r.value) else LoopTest, mutex := Free)
    case Planning(n) => s.(worker := Callback(n))
    case Callback(n) => s.(worker := LoopTest, callbacks := s.callbacks + [n])
    case _ => s
  }

  /** The effect of an enabled action. */
  function Effect(s: State, a: Action): State {
    match a
    case Call(c, req) => s.(clients := s.clients[c := WantLock(req)])
    case Lock(c) =>
      if Client(s, c).WantLock?
      then s.(clients := s.clients[c := Holding(Client(s, c).req)], mutex := ClientOwns(c))
      else s
    case Store(c) =>
      if Client(s, c).Holding? then
        s.(clients := s.clients[c := Stored],
           pending := Some(|s.submitted|),
           submitted := s.submitted + [Client(s, c).req],
           overwritten := if s.pending.Some? then s.overwritten + {s.pending.value} else s.overwritten)
      else s
    case Unlock(c) => s.(clients := s.clients[c := ToNotify], mutex := Free)
    case NotifyOne(c) => Wake(s.(clients := s.clients[c := Outside]))
    case Start => if s.running then s else s.(running := true, controller := Spawning)
    case Spawn => s.(controller := Idle, worker := LoopTest)
    case StopStore =>
      if s.running
      then s.(running := false, controller := StopNotify, storeInWindow := s.storeInWindow || s.worker == AboutToSleep)
      else s
    case NotifyAll => Wake(s.(controller := StopJoin, notifyInWindow := s.notifyInWindow || s.worker == AboutToSleep))
    case Join => s.(controller := Idle, worker := Off)
    case WorkerStep => WorkerNext(s)
    case SpuriousWake => Wake(s)
    case PlanFails => if s.worker.Planning? then s.(worker := LoopTest, failed := s.failed + {s.worker.n}) else s
  }

  function Next(s: State, a: Action): State {
    if Enabled(s, a) then Effect(s, a) else s
  }

  /** A run is any sequence of actions; actions that are not enabled wait and change nothing. */
  function Run(s: State, actions: seq<Action>): State {
    if actions == [] then s else Next(Run(s, actions[..|actions| - 1]), actions[|actions| - 1])
  }

  // ----- invariant: locking -------------------------------------------------------------------

  predicate WorkerHolds(w: WorkerPc) {
    w.TestPredicate? || w.AboutToSleep? || w.AfterWait? || w.Taking? || w.Unlocking?
  }

  predicate ClientHolds(pc: ClientPc) {
    pc.Holding? || pc.Stored?
  }

  ghost predicate Locking(s: State) {
    && (WorkerHolds(s.worker) <==> s.mutex == WorkerOwns)
    && forall c :: ClientHolds(Client(s, c)) <==> s.mutex == ClientOwns(c)
  }

  // ----- invariant: thread life cycle -----------------------------------------------------------

  predicate LifeCycle(s: State) {
    && (s.controller.StopNotify? || s.controller.StopJoin? ==> !s.running && s.worker != Off)
    && (s.controller == Spawning ==> s.running && s.worker == Off)
    && (s.controller == Idle ==> (s.worker == Off <==> !s.running))
    && (s.worker == Done ==> !s.running)
    && (s.worker == AboutToSleep ==> s.pending.None?)
    && (s.worker == AfterWait ==> Predicate(s))
    && (s.worker == Taking ==> s.pending.Some?)
    && s.worker != Unlocking(None)
  }

  // ----- invariant: the fate of every submission --------------------------------------------------

  predicate Increasing(xs: seq<nat>) {
    forall i, j :: 0 <= i < j < |xs| ==> xs[i] < xs[j]
  }

  ghost predicate Accounted(s: State) {
    && Increasing(s.taken)
    && (s.pending.Some? ==>
          s.pending.value == |s.submitted| - 1 && s.pending.value !in s.taken && s.pending.value !in s.overwritten)
    && (forall n :: n in s.taken ==> n < |s.submitted| && n !in s.overwritten)
    && (forall n :: n in s.overwritten ==> n < |s.submitted|)
    && (forall n :: 0 <= n < |s.submitted| ==> n in s.taken || n in s.overwritten || s.pending == Some(n))
    && (s.submitted != [] ==> s.pending.Some? || (s.taken != [] && s.taken[|s.taken| - 1] == |s.submitted| - 1))
    && (s.submitted == [] ==> s.pending.None?)
    && (forall n :: InHand(s.worker) == Some(n) ==> s.taken != [] && s.taken[|s.taken| - 1] == n)
  }

  /** Requests the worker is done with, in the order it took them. */
  function Settled(s: State): seq<nat> {
    if InHand(s.worker).Some? && s.taken != [] then s.taken[..|s.taken| - 1] else s.taken
  }

  /** xs without the members of `out`, in order. */
  function Without(xs: seq<nat>, out: set<nat>): (r: seq<nat>) {
    if xs == [] then []
    else
      var init, last := Without(xs[..|xs| - 1], out), xs[|xs| - 1];
      if last in out then init else init + [last]
  }

  /** Every request the worker is done with was handed over once, in order, unless planning failed. */
  ghost predicate Delivered(s: State) {
    && s.callbacks == Without(Settled(s), s.failed)
    && forall n :: n in s.failed ==> n in Settled(s)
  }

  function InHand(w: WorkerPc): Option<nat> {
    match w
    case Unlocking(r) => r
    case Planning(n) => Some(n)
    case Callback(n) => Some(n)
    case _ => None
  }

  // ----- invariant: wake-ups ----------------------------------------------------------------------

  predicate NotificationDue(s: State, c: ClientId) {
    Client(s, c).Stored? || Client(s, c).ToNotify?
  }

  /** No lost wake-up: a sleeping worker with a full slot has a notification still in flight. */
  ghost predicate RequestsWake(s: State) {
    s.worker == Sleeping && s.pending.Some? ==> exists c :: NotificationDue(s, c)
  }

  /** The worker has stopped testing the predicate but is not woken by `stop` any more. */
  predicate StopWindow(s: State) {
    && (s.worker.AboutToSleep? || s.worker.Sleeping? ==>
          && (s.notifyInWindow ==> s.storeInWindow && s.controller == StopJoin)
          && (s.storeInWindow ==> !s.running))
    && (s.worker == AboutToSleep ==>
          && (!s.running ==> s.storeInWindow)
          && (s.controller == StopJoin ==> s.notifyInWindow))
    && (s.worker == Sleeping && s.controller == StopJoin ==> s.notifyInWindow)
  }

  ghost predicate Inv(s: State) {
    Locking(s) && LifeCycle(s) && Accounted(s) && Delivered(s) && RequestsWake(s) && StopWindow(s)
  }

  predicate ByClient(a: Action) {
    a.Call? || a.Lock? || a.Store? || a.Unlock? || a.NotifyOne?
  }

  lemma ClientLockingKept(s: State, a: Action)
    requires Locking(s) && Enabled(s, a) && ByClient(a)
    ensures Locking(Effect(s, a))
  {
    var t := Effect(s, a);
    assert ClientHolds(Client(s, a.c)) <==> s.mutex == ClientOwns(a.c);
    forall c
      ensures ClientHolds(Client(t, c)) <==> t.mutex == ClientOwns(c)
    {
      assert ClientHolds(Client(s, c)) <==> s.mutex == ClientOwns(c);
    }
  }

  lemma LockingKept(s: State, a: Action)
    requires Locking(s) && LifeCycle(s) && Enabled(s, a)
    ensures Locking(Effect(s, a))
  {
    if ByClient(a) {
      ClientLockingKept(s, a);
    } else {
      OtherLockingKept(s, a);
    }
  }

  lemma OtherLockingKept(s: State, a: Action)
    requires Locking(s) && LifeCycle(s) && Enabled(s, a) && !ByClient(a)
    ensures Locking(Effect(s, a))
  {
    hide Predicate, Locking;
    LockingFacts(s);
    if a.WorkerStep? {
      WorkerLockingKept(s);
    } else {
      ClientsKeepLocking(s, Effect(s, a));
    }
  }

  lemma LockingFacts(s: State)
    requires Locking(s)
    ensures WorkerHolds(s.worker) <==> s.mutex == WorkerOwns
  {
  }

  lemma WorkerLockingKept(s: State)
    requires Locking(s) && Enabled(s, WorkerStep)
    ensures Locking(WorkerNext(s))
  {
    hide Predicate, Locking;
    LockingFacts(s);
    ClientsKeepLocking(s, WorkerNext(s));
  }

  lemma ClientsKeepLocking(s: State, t: State)
    requires Locking(s)
    requires t.clients == s.clients
    requires t.mutex == s.mutex || (!t.mutex.ClientOwns? && !s.mutex.ClientOwns?)
    requires WorkerHolds(t.worker) <==> t.mutex == WorkerOwns
    ensures Locking(t)
  {
    assert forall c :: Client(t, c) == Client(s, c);
  }

  lemma StoreExcludesWorker(s: State, c: ClientId)
    requires Locking(s)
    requires ClientHolds(Client(s, c))
    ensures s.mutex == ClientOwns(c) && !WorkerHolds(s.worker)
  {
  }

  lemma LifeCycleKept(s: State, a: Action)
    requires Locking(s) && LifeCycle(s) && Enabled(s, a)
    ensures LifeCycle(Effect(s, a))
  {
    hide Locking;
    if a.Store? { StoreExcludesWorker(s, a.c); }
  }

  lemma AccountedKept(s: State, a: Action)
    requires Locking(s) && LifeCycle(s) && Accounted(s) && Enabled(s, a)
    ensures Accounted(Effect(s, a))
  {
    hide Locking, Accounted;
    if a.Store? {
      StoreAccounted(s, a.c);
    } else if a.WorkerStep? {
      WorkerAccounted(s);
    } else {
      SameAccounts(s, Effect(s, a));
    }
  }

  lemma WorkerAccounted(s: State)
    requires LifeCycle(s) && Accounted(s)
    ensures Accounted(WorkerNext(s))
  {
    hide Accounted;
    if s.worker.Taking? {
      TakeAccounted(s);
    } else {
      SameAccounts(s, WorkerNext(s));
    }
  }

  lemma SameAccounts(s: State, t: State)
    requires Accounted(s)
    requires t.submitted == s.submitted && t.pending == s.pending && t.taken == s.taken
    requires t.overwritten == s.overwritten
    requires InHand(t.worker) == InHand(s.worker) || InHand(t.worker).None?
    ensures Accounted(t)
  {
  }

  lemma StoreAccounted(s: State, c: ClientId)
    requires Accounted(s) && Client(s, c).Holding?
    ensures Accounted(Effect(s, Store(c)))
  {
  }

  lemma TakeAccounted(s: State)
    requires Accounted(s) && s.worker == Taking && s.pending.Some?
    ensures Accounted(WorkerNext(s))
  {
    var t, p := WorkerNext(s), s.pending.value;
    assert forall n :: n in t.taken <==> n in s.taken || n == p;
    forall i, j | 0 <= i < j < |t.taken|
      ensures t.taken[i] < t.taken[j]
    {
      if j == |s.taken| { assert s.taken[i] in s.taken; }
    }
    assert Increasing(t.taken);
    assert t.taken[|t.taken| - 1] == p;
  }

  lemma WithoutSnoc(xs: seq<nat>, n: nat, out: set<nat>)
    ensures Without(xs + [n], out) == if n in out then Without(xs, out) else Without(xs, out) + [n]
  {
    assert (xs + [n])[..|xs|] == xs;
  }

  lemma {:induction false} WithoutMore(xs: seq<nat>, out: set<nat>, n: nat)
    requires n !in xs
    ensures Without(xs, out + {n}) == Without(xs, out)
  {
    if xs != [] {
      assert forall x :: x in xs[..|xs| - 1] ==> x in xs;
      WithoutMore(xs[..|xs| - 1], out, n);
    }
  }

  /** The request in hand is the last one taken, and not among the settled ones. */
  lemma HandIsNew(s: State)
    requires Accounted(s) && InHand(s.worker).Some?
    ensures s.taken != [] && s.taken == Settled(s) + [InHand(s.worker).value]
    ensures InHand(s.worker).value !in Settled(s)
  {
    assert InHand(s.worker) == Some(InHand(s.worker).value);
    var n := |s.taken| - 1;
    assert forall i :: 0 <= i < n ==> s.taken[i] < s.taken[n];
  }

  lemma DeliveredKept(s: State, a: Action)
    requires LifeCycle(s) && Accounted(s) && Delivered(s) && Enabled(s, a)
    ensures Delivered(Effect(s, a))
  {
    hide Accounted, Without;
    if InHand(s.worker).Some? { HandIsNew(s); }
    if a.PlanFails? {
      var n := s.worker.n;
      WithoutSnoc(Settled(s), n, s.failed + {n});
      WithoutMore(Settled(s), s.failed, n);
      assert Settled(Effect(s, a)) == Settled(s) + [n];
    } else if a.WorkerStep? {
      StepDelivers(s);
    } else {
      assert Settled(Effect(s, a)) == Settled(s);
    }
  }

  lemma StepDelivers(s: State)
    requires LifeCycle(s) && Delivered(s)
    requires InHand(s.worker).Some? ==>
      s.taken != [] && s.taken == Settled(s) + [InHand(s.worker).value] && InHand(s.worker).value !in Settled(s)
    ensures Delivered(WorkerNext(s))
  {
    hide Without, LifeCycle;
    if s.worker.Callback? {
      WithoutSnoc(Settled(s), s.worker.n, s.failed);
      assert Settled(WorkerNext(s)) == Settled(s) + [s.worker.n];
    } else if s.worker == Taking {
      TakingSettlesNothing(s);
    } else {
      OtherStepsSettleNothing(s);
    }
  }

  lemma TakingSettlesNothing(s: State)
    requires LifeCycle(s) && s.worker == Taking
    ensures var t := WorkerNext(s);
            Settled(t) == Settled(s) && t.callbacks == s.callbacks && t.failed == s.failed
  {
    assert WorkerNext(s).taken[..|s.taken|] == s.taken;
  }

  lemma OtherStepsSettleNothing(s: State)
    requires s.worker != Taking && !s.worker.Callback?
    ensures var t := WorkerNext(s);
            Settled(t) == Settled(s) && t.callbacks == s.callbacks && t.failed == s.failed
  {
    assert InHand(WorkerNext(s).worker) == InHand(s.worker);
  }

  lemma RequestsWakeKept(s: State, a: Action)
    requires Locking(s) && LifeCycle(s) && RequestsWake(s) && Enabled(s, a)
    ensures RequestsWake(Effect(s, a))
  {
    hide Locking, Predicate;
    if a.Store? {
      assert NotificationDue(Effect(s, a), a.c);
    } else if a.WorkerStep? {
      SleepersWereAboutTo(s);
    } else if Effect(s, a).worker == Sleeping && Effect(s, a).pending.Some? {
      DueStaysDue(s, a);
    }
  }

  lemma SleepersWereAboutTo(s: State)
    requires LifeCycle(s) && Enabled(s, WorkerStep)
    ensures WorkerNext(s).worker == Sleeping ==> WorkerNext(s).pending.None?
  {
  }

  lemma DueStaysDue(s: State, a: Action)
    requires RequestsWake(s) && Enabled(s, a) && !a.Store? && !a.WorkerStep?
    requires Effect(s, a).worker == Sleeping && Effect(s, a).pending.Some?
    ensures RequestsWake(Effect(s, a))
  {
    hide Predicate;
    var c :| NotificationDue(s, c);
    assert NotificationDue(Effect(s, a), c);
  }

  lemma StopWindowKept(s: State, a: Action)
    requires LifeCycle(s) && StopWindow(s) && Enabled(s, a)
    ensures StopWindow(Effect(s, a))
  {
  }

  lemma InvKept(s: State, a: Action)
    requires Inv(s)
    ensures Inv(Next(s, a))
  {
    hide Locking, LifeCycle, Accounted, Delivered, RequestsWake, StopWindow, Enabled, Effect;
    if Enabled(s, a) {
      LockingKept(s, a);
      LifeCycleKept(s, a);
      AccountedKept(s, a);
      DeliveredKept(s, a);
      RequestsWakeKept(s, a);
      StopWindowKept(s, a);
    }
  }

  lemma InvInitially()
    ensures Inv(INITIAL)
  {
  }

  /** The invariant holds after every interleaving of any number of clients, worker and controller. */
  lemma {:induction false} InvAlways(actions: seq<Action>)
    ensures Inv(Run(INITIAL, actions))
  {
    hide Inv, Next;
    if actions == [] {
      InvInitially();
    } else {
      InvAlways(actions[..|actions| - 1]);
      InvKept(Run(INITIAL, actions[..|actions| - 1]), actions[|actions| - 1]);
    }
  }

  // ----- what the invariant means ------------------------------------------------------------------

  /** In every run each submission is exactly one of taken, overwritten or pending, and requests
      are taken in submission order. */
  lemma SubmissionsSplit(actions: seq<Action>, n: nat)
    requires n < |Run(INITIAL, actions).submitted|
    ensures var s := Run(INITIAL, actions);
            && Increasing(s.taken)
            && (n in s.taken || n in s.overwritten || s.pending == Some(n))
            && !(n in s.taken && n in s.overwritten)
            && !(n in s.taken && s.pending == Some(n))
            && !(n in s.overwritten && s.pending == Some(n))
  {
    InvAlways(actions);
  }

  /** In every run each request taken is handed to the callback exactly once, in order, or its planning
      failed, or the worker still has it in hand. Without failures the callbacks are the requests
      taken, up to the one in hand. */
  lemma TakenAreDelivered(actions: seq<Action>)
    ensures var s := Run(INITIAL, actions);
            && Increasing(s.taken)
            && s.callbacks == Without(Settled(s), s.failed)
            && (InHand(s.worker).Some? ==> s.taken == Settled(s) + [InHand(s.worker).value])
            && (InHand(s.worker).None? ==> s.taken == Settled(s))
    ensures (forall a :: a in actions ==> !a.PlanFails?) ==> Run(INITIAL, actions).callbacks == Settled(Run(INITIAL, actions))
  {
    hide Run, Locking, LifeCycle, RequestsWake, StopWindow, Without;
    InvAlways(actions);
    var s := Run(INITIAL, actions);
    if InHand(s.worker).Some? { HandIsNew(s); }
    if forall a :: a in actions ==> !a.PlanFails? {
      NothingFails(actions);
      WithoutNone(Settled(s));
    }
  }

  lemma {:induction false} NothingFails(actions: seq<Action>)
    requires forall a :: a in actions ==> !a.PlanFails?
    ensures Run(INITIAL, actions).failed == {}
  {
    if actions != [] {
      assert forall a :: a in actions[..|actions| - 1] ==> a in actions;
      NothingFails(actions[..|actions| - 1]);
    }
  }

  lemma {:induction false} WithoutNone(xs: seq<nat>)
    ensures Without(xs, {}) == xs
  {
    if xs != [] { WithoutNone(xs[..|xs| - 1]); }
  }

  /** A member of xs is kept if and only if it is not left out. */
  lemma {:induction false} WithoutKeeps(xs: seq<nat>, out: set<nat>, n: nat)
    ensures n in Without(xs, out) <==> n in xs && n !in out
  {
    if xs != [] {
      assert xs == xs[..|xs| - 1] + [xs[|xs| - 1]];
      WithoutKeeps(xs[..|xs| - 1], out, n);
    }
  }

  // ----- one request served --------------------------------------------------------------------------

  /** A worker that wants the mutex and finds a request takes it, plans, hands it over and comes back. */
  lemma Serves(s: State, n: nat)
    requires s.worker == WantMutex && s.mutex == Free && s.running && s.pending == Some(n)
    ensures Run(s, [WorkerStep, WorkerStep, WorkerStep, WorkerStep, WorkerStep, WorkerStep, WorkerStep]) ==
            s.(worker := LoopTest, pending := None, taken := s.taken + [n], callbacks := s.callbacks + [n])
  {
    hide Run;
    var w := WorkerStep;
    RunFive(s, w, w, w, w, w);
    RunMore(s, [w, w, w, w, w], w, w);
    assert [w, w, w, w, w] + [w, w] == [w, w, w, w, w, w, w];
    ServedState(s, n);
  }

  lemma ServedState(s: State, n: nat)
    requires s.worker == WantMutex && s.mutex == Free && s.running && s.pending == Some(n)
    ensures var w := WorkerStep;
            Next(Next(Next(Next(Next(Next(Next(s, w), w), w), w), w), w), w) ==
            s.(worker := LoopTest, pending := None, taken := s.taken + [n], callbacks := s.callbacks + [n])
  {
    hide Next;
    FindsRequest(s);
    var a := Next(Next(s, WorkerStep), WorkerStep);
    Takes(a, n);
    HandsOver(Next(Next(a, WorkerStep), WorkerStep), n);
  }

  lemma FindsRequest(s: State)
    requires s.worker == WantMutex && s.mutex == Free && s.pending.Some?
    ensures Next(Next(s, WorkerStep), WorkerStep) == s.(worker := AfterWait, mutex := WorkerOwns)
  {
    assert Next(s, WorkerStep) == s.(worker := TestPredicate, mutex := WorkerOwns);
  }

  lemma Takes(s: State, n: nat)
    requires s.worker == AfterWait && s.running && s.pending == Some(n)
    ensures Next(Next(s, WorkerStep), WorkerStep) ==
            s.(worker := Unlocking(Some(n)), pending := None, taken := s.taken + [n])
  {
    assert Next(s, WorkerStep) == s.(worker := Taking);
  }

  lemma HandsOver(s: State, n: nat)
    requires s.worker == Unlocking(Some(n))
    ensures Next(Next(Next(s, WorkerStep), WorkerStep), WorkerStep) ==
            s.(worker := LoopTest, mutex := Free, callbacks := s.callbacks + [n])
  {
    assert Next(s, WorkerStep) == s.(worker := Planning(n), mutex := Free);
    assert Next(Next(s, WorkerStep), WorkerStep) == s.(worker := Callback(n), mutex := Free);
  }

  lemma RunMore(s: State, actions: seq<Action>, a: Action, b: Action)
    ensures Run(s, actions + [a, b]) == Next(Next(Run(s, actions), a), b)
  {
    hide Next;
    RunOne(s, actions, a);
    RunOne(s, actions + [a], b);
    assert actions + [a] + [b] == actions + [a, b];
  }

  /** A request of a client fills the slot, whatever was in it, and wakes a sleeping worker. */
  lemma Submits(s: State, c: ClientId, req: Request)
    requires Client(s, c) == Outside && s.mutex == Free
    ensures var t := Run(s, [Call(c, req), Lock(c), Store(c), Unlock(c), NotifyOne(c)]);
            && t.mutex == Free && t.running == s.running
            && t.submitted == s.submitted + [req] && t.pending == Some(|s.submitted|)
            && t.taken == s.taken && t.callbacks == s.callbacks
            && t.worker == if s.worker == Sleeping then WantMutex else s.worker
  {
    hide Run;
    RunFive(s, Call(c, req), Lock(c), Store(c), Unlock(c), NotifyOne(c));
    SubmittedState(s, c, req);
  }

  lemma SubmittedState(s: State, c: ClientId, req: Request)
    requires Client(s, c) == Outside && s.mutex == Free
    ensures var t := Next(Next(Next(Next(Next(s, Call(c, req)), Lock(c)), Store(c)), Unlock(c)), NotifyOne(c));
            && t.mutex == Free && t.running == s.running
            && t.submitted == s.submitted + [req] && t.pending == Some(|s.submitted|)
            && t.taken == s.taken && t.callbacks == s.callbacks
            && t.worker == if s.worker == Sleeping then WantMutex else s.worker
  {
    var a := Next(Next(s, Call(c, req)), Lock(c));
    assert a == s.(clients := s.clients[c := WantLock(req)][c := Holding(req)], mutex := ClientOwns(c));
    var b := Next(a, Store(c));
    assert Client(b, c) == Stored && b.mutex == ClientOwns(c);
    assert Client(Next(b, Unlock(c)), c) == ToNotify;
  }

  /** From the start to the first callback: the planner is started, goes to sleep, is woken by a
      request and hands its plan over. */
  lemma FirstCallback(c: ClientId, req: Request) returns (actions: seq<Action>)
    ensures var s := Run(INITIAL, actions);
            s.submitted == [req] && s.taken == [0] && s.callbacks == [0] && s.pending.None? && s.worker == LoopTest
  {
    hide Run, Next;
    var asleep := [Start, Spawn, WorkerStep, WorkerStep, WorkerStep] + [WorkerStep];
    RunFive(INITIAL, Start, Spawn, WorkerStep, WorkerStep, WorkerStep);
    RunOne(INITIAL, [Start, Spawn, WorkerStep, WorkerStep, WorkerStep], WorkerStep);
    FirstSleep();
    FallsAsleep(Run(INITIAL, [Start, Spawn, WorkerStep, WorkerStep, WorkerStep]));
    var request := [Call(c, req), Lock(c), Store(c), Unlock(c), NotifyOne(c)];
    var serve := [WorkerStep, WorkerStep, WorkerStep, WorkerStep, WorkerStep, WorkerStep, WorkerStep];
    Submits(Run(INITIAL, asleep), c, req);
    RunAppend(INITIAL, asleep, request);
    Serves(Run(INITIAL, asleep + request), 0);
    RunAppend(INITIAL, asleep + request, serve);
    actions := asleep + request + serve;
  }

  lemma FallsAsleep(s: State)
    requires s.worker == AboutToSleep
    ensures Next(s, WorkerStep) == s.(worker := Sleeping, mutex := Free)
  {
  }

  lemma {:induction false} RunAppend(s: State, xs: seq<Action>, ys: seq<Action>)
    ensures Run(s, xs + ys) == Run(Run(s, xs), ys)
  {
    hide Next;
    if ys == [] {
      assert xs + ys == xs;
    } else {
      var n := |ys| - 1;
      RunAppend(s, xs, ys[..n]);
      assert ys == ys[..n] + [ys[n]];
      assert xs + ys == (xs + ys[..n]) + [ys[n]];
      RunOne(s, xs + ys[..n], ys[n]);
    }
  }

  /** Whatever the worker takes is the newest submission, and newer than all it took before. */
  lemma TakesTheNewest(actions: seq<Action>)
    requires Run(INITIAL, actions).worker == Taking
    ensures var s, t := Run(INITIAL, actions), Run(INITIAL, actions + [WorkerStep]);
            && s.submitted != []
            && t.taken == s.taken + [|s.submitted| - 1]
            && t.worker == Unlocking(Some(|s.submitted| - 1))
            && t.pending.None?
            && forall n :: n in s.taken ==> n < |s.submitted| - 1
  {
    hide Run, Inv;
    InvAlways(actions);
    RunOne(INITIAL, actions, WorkerStep);
    TakeFacts(Run(INITIAL, actions));
  }

  lemma TakeFacts(s: State)
    requires Inv(s) && s.worker == Taking
    ensures var t := Next(s, WorkerStep);
            && s.submitted != []
            && t.taken == s.taken + [|s.submitted| - 1]
            && t.worker == Unlocking(Some(|s.submitted| - 1))
            && t.pending.None?
            && forall n :: n in s.taken ==> n < |s.submitted| - 1
  {
    hide Locking, RequestsWake, StopWindow;
  }

  /** The newest submission is never dropped: it is pending, or it is the last one taken. */
  lemma NewestIsKept(actions: seq<Action>)
    requires Run(INITIAL, actions).submitted != []
    ensures var s := Run(INITIAL, actions);
            var newest := |s.submitted| - 1;
            s.pending == Some(newest) || (s.taken != [] && s.taken[|s.taken| - 1] == newest)
  {
    hide Run, Locking, RequestsWake;
    InvAlways(actions);
  }

  /** A worker asleep on a full slot has a notification still in flight. */
  lemma NoLostWakeUp(actions: seq<Action>)
    requires Run(INITIAL, actions).worker == Sleeping && Run(INITIAL, actions).pending.Some?
    ensures exists c :: NotificationDue(Run(INITIAL, actions), c)
  {
    InvAlways(actions);
  }

  /** `stop` stores its flag outside the mutex. The worker sleeps through its notification if and
      only if store and notification both fell between the worker's predicate test and its sleep. */
  lemma SleepsThroughStopWhen(actions: seq<Action>)
    requires Run(INITIAL, actions).worker == Sleeping
    ensures var s := Run(INITIAL, actions);
            s.controller == StopJoin <==> s.storeInWindow && s.notifyInWindow
  {
    InvAlways(actions);
  }

  /** Then `stop` waits in `join` until a spurious wake-up or a request's notification: whatever else
      happens, the worker stays asleep and `join` does not return. */
  lemma {:induction false} SleepsUntilWoken(s: State, actions: seq<Action>)
    requires s.worker == Sleeping && s.controller == StopJoin
    requires forall a :: a in actions ==> !a.SpuriousWake? && !a.NotifyOne?
    ensures Run(s, actions).worker == Sleeping && Run(s, actions).controller == StopJoin
    ensures !Enabled(Run(s, actions), Join)
  {
    if actions != [] {
      var init := actions[..|actions| - 1];
      assert forall a :: a in init ==> a in actions;
      SleepsUntilWoken(s, init);
    }
  }

  /** And it can happen. */
  lemma StopCanSleepThrough()
    ensures var s := Run(INITIAL, [Start, Spawn, WorkerStep, WorkerStep, WorkerStep, StopStore, NotifyAll, WorkerStep]);
            && s.worker == Sleeping && s.controller == StopJoin
            && s.storeInWindow && s.notifyInWindow
            && !Enabled(s, WorkerStep) && !Enabled(s, Join) && !Enabled(s, NotifyAll)
  {
    hide Run, Next;
    var s := Run(INITIAL, [Start, Spawn, WorkerStep, WorkerStep, WorkerStep]);
    RunFive(INITIAL, Start, Spawn, WorkerStep, WorkerStep, WorkerStep);
    RunThree(INITIAL, [Start, Spawn, WorkerStep, WorkerStep, WorkerStep], StopStore, NotifyAll, WorkerStep);
    FirstSleep();
    StopInWindow(s);
    assert [Start, Spawn, WorkerStep, WorkerStep, WorkerStep] + [StopStore, NotifyAll, WorkerStep] ==
           [Start, Spawn, WorkerStep, WorkerStep, WorkerStep, StopStore, NotifyAll, WorkerStep];
  }

  lemma FirstSleep()
    ensures Next(Next(Next(Next(Next(INITIAL, Start), Spawn), WorkerStep), WorkerStep), WorkerStep) ==
            INITIAL.(running := true, mutex := WorkerOwns, worker := AboutToSleep)
  {
    var s := Next(Next(INITIAL, Start), Spawn);
    assert s == INITIAL.(running := true, worker := LoopTest);
    assert Next(s, WorkerStep) == s.(worker := WantMutex);
  }

  lemma StopInWindow(s: State)
    requires s.running && s.controller == Idle && s.worker == AboutToSleep
    ensures Next(Next(Next(s, StopStore), NotifyAll), WorkerStep) ==
            s.(running := false, controller := StopJoin, worker := Sleeping, mutex := Free,
               storeInWindow := true, notifyInWindow := true)
  {
    assert Next(s, StopStore) == s.(running := false, controller := StopNotify, storeInWindow := true);
  }

  lemma RunThree(s: State, actions: seq<Action>, a: Action, b: Action, c: Action)
    ensures Run(s, actions + [a, b, c]) == Next(Next(Next(Run(s, actions), a), b), c)
  {
    hide Next;
    RunOne(s, actions, a);
    RunOne(s, actions + [a], b);
    RunOne(s, actions + [a] + [b], c);
    assert actions + [a] + [b] + [c] == actions + [a, b, c];
  }

  lemma RunTwo(s: State, a: Action, b: Action)
    ensures Run(s, [a, b]) == Next(Next(s, a), b)
  {
    RunOne(s, [], a);
    RunOne(s, [a], b);
  }

  lemma RunFive(s: State, a: Action, b: Action, c: Action, d: Action, e: Action)
    ensures Run(s, [a, b, c, d, e]) == Next(Next(Next(Next(Next(s, a), b), c), d), e)
  {
    hide Next;
    RunTwo(s, a, b);
    RunThree(s, [a, b], c, d, e);
    assert [a, b] + [c, d, e] == [a, b, c, d, e];
  }

  lemma RunOne(s: State, actions: seq<Action>, a: Action)
    ensures Run(s, actions + [a]) == Next(Run(s, actions), a)
  {
    assert (actions + [a])[..|actions|] == actions;
  }

  /** Worker steps left until `Done` once the flag is cleared. */
  function StepsLeft(w: WorkerPc): nat {
    match w
    case Done => 0
    case Off => 0
    case LoopTest => 1
    case AfterWait => 1
    case TestPredicate => 2
    case WantMutex => 3
    case Sleeping => 4
    case AboutToSleep => 5
    case Callback(_) => 2
    case Planning(_) => 3
    case Unlocking(_) => 4
    case Taking => 5
  }

  predicate Awake(w: WorkerPc) {
    !w.Sleeping? && !w.AboutToSleep?
  }

  /** Once `stop` has cleared the flag, a worker that is awake never goes to sleep again, and every
      step it makes brings it closer to its end. */
  lemma WindsDown(s: State, a: Action)
    requires Inv(s) && Enabled(s, a)
    requires s.controller == StopJoin && Awake(s.worker)
    ensures var t := Effect(s, a);
            && Awake(t.worker)
            && (a.Join? || t.controller == StopJoin)
            && (a.WorkerStep? || a.PlanFails? ==> StepsLeft(t.worker) < StepsLeft(s.worker))
            && (!a.WorkerStep? && !a.PlanFails? && !a.Join? ==> t.worker == s.worker)
  {
    hide Locking, Accounted, Delivered, RequestsWake, StopWindow;
    if a.WorkerStep? { WorkerWindsDown(s); }
  }

  lemma WorkerWindsDown(s: State)
    requires LifeCycle(s) && Enabled(s, WorkerStep) && !s.running
    requires !s.worker.AboutToSleep?
    ensures var t := WorkerNext(s);
            && !t.worker.Sleeping? && !t.worker.AboutToSleep?
            && t.controller == s.controller
            && StepsLeft(t.worker) < StepsLeft(s.worker)
  {
  }

  predicate MovesWorker(s: State, a: Action) {
    Enabled(s, a) && (a.WorkerStep? || a.PlanFails?)
  }

  /** Steps the worker makes in a run. */
  function WorkerMoves(s: State, actions: seq<Action>): nat {
    if actions == [] then 0
    else
      var init := actions[..|actions| - 1];
      WorkerMoves(s, init) + if MovesWorker(Run(s, init), actions[|actions| - 1]) then 1 else 0
  }

  lemma {:induction false} WindsDownAlong(s: State, actions: seq<Action>)
    requires Inv(s) && s.controller == StopJoin && Awake(s.worker)
    requires Join !in actions
    ensures var t := Run(s, actions);
            && Inv(t) && t.controller == StopJoin && Awake(t.worker)
            && StepsLeft(t.worker) + WorkerMoves(s, actions) <= StepsLeft(s.worker)
  {
    hide Inv, Enabled, Effect, StepsLeft;
    if actions != [] {
      var init, last := actions[..|actions| - 1], actions[|actions| - 1];
      assert forall a :: a in init ==> a in actions;
      WindsDownAlong(s, init);
      var t := Run(s, init);
      InvKept(t, last);
      if Enabled(t, last) { WindsDown(t, last); }
    }
  }

  /** `stop` completes: a worker awake when `join` begins makes at most StepsLeft steps in any run,
      whatever clients do meanwhile, and once it has made them it is done and `join` can return. */
  lemma StopCompletes(s: State, actions: seq<Action>)
    requires Inv(s) && s.controller == StopJoin && Awake(s.worker)
    requires Join !in actions
    ensures WorkerMoves(s, actions) <= StepsLeft(s.worker) <= 5
    ensures WorkerMoves(s, actions) == StepsLeft(s.worker) ==>
      && Run(s, actions).worker == Done && Enabled(Run(s, actions), Join)
      && Run(s, actions + [Join]).controller == Idle && Run(s, actions + [Join]).worker == Off
  {
    hide Locking, Accounted, Delivered, RequestsWake, StopWindow, Run;
    WindsDownAlong(s, actions);
    RunOne(s, actions, Join);
  }

  /** A sleeping worker may wake for no reason at all; else a notification wakes it, and nothing
      more. */
  lemma WakesUp(s: State, a: Action)
    requires Inv(s) && s.worker == Sleeping
    ensures Enabled(s, SpuriousWake)
    ensures Enabled(s, a) ==>
      Effect(s, a).worker == if a.SpuriousWake? || a.NotifyOne? || a.NotifyAll? then WantMutex else Sleeping
  {
    hide Predicate, Locking, Accounted, Delivered, RequestsWake, StopWindow;
  }

  /** Until then it can always move, at once or after the client that holds the mutex has moved. */
  lemma WorkerCanMove(s: State)
    requires Inv(s) && s.controller == StopJoin && Awake(s.worker) && s.worker != Done
    ensures Enabled(s, WorkerStep) || exists c :: s.mutex == ClientOwns(c) && (Enabled(s, Store(c)) || Enabled(s, Unlock(c)))
  {
    hide Accounted, Delivered, RequestsWake, StopWindow;
    if s.worker == WantMutex && s.mutex != Free {
      assert ClientHolds(Client(s, s.mutex.c));
    }
  }

  /** After `stop` has returned no callback follows until the next `start`. */
  lemma {:induction false} NoCallbackAfterStop(s: State, actions: seq<Action>)
    requires Inv(s)
    requires s.controller == Idle && !s.running
    requires Start !in actions
    ensures Run(s, actions).callbacks == s.callbacks
    ensures Run(s, actions).controller == Idle && !Run(s, actions).running
    ensures Inv(Run(s, actions))
  {
    hide Locking, Accounted, Delivered, RequestsWake, StopWindow;
    if actions != [] {
      var init, last := actions[..|actions| - 1], actions[|actions| - 1];
      assert forall a :: a in init ==> a in actions;
      NoCallbackAfterStop(s, init);
      var t := Run(s, init);
      InvKept(t, last);
      assert t.worker == Off;
    }
  }
}
