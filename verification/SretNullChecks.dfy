/** `UBSanOptimizeSretNullChecks`: an sret argument is never null, so `icmp eq sret, null` is
    false; its branch is straightened in the original and its uses are folded. */
module SretNullChecks {
  import opened Options
  import opened ConstantRanges
  import opened Ir
  import opened Straightening
  import opened Folding
  import Simulation

  /** A comparison of an sret argument with null, in either operand order. */
  predicate IsNullCheck(i: Instr, sret: set<RegId>) {
    && i.CompareEq?
    && ((i.lhs.Reg? && i.lhs.reg in sret && i.rhs == Lit(Num(0))) ||
        (i.rhs.Reg? && i.rhs.reg in sret && i.lhs == Lit(Num(0))))
  }

  function NullCheckResults(f: Function, sret: set<RegId>): set<RegId> {
    set b, i | b in f.blocks && i in f.blocks[b].instrs && IsNullCheck(i, sret) :: i.dst
  }

  predicate HasNullCheck(f: Function, b: BlockId, sret: set<RegId>) {
    b in f.blocks && exists i :: i in f.blocks[b].instrs && IsNullCheck(i, sret)
  }

  predicate TestsNullCheck(f: Function, b: BlockId, sret: set<RegId>)
    requires b in f.blocks && f.blocks[b].term.CondBr?
  {
    f.blocks[b].term.cond.Reg? && f.blocks[b].term.cond.reg in NullCheckResults(f, sret)
  }

  /** Where such a block ends in a guarded branch, the branch tests a null check and the handler is
      its true side. The pass does not look at this. */
  ghost predicate BranchesOnNullCheck(f: Function, sret: set<RegId>) {
    forall b :: HasNullCheck(f, b, sret) && GuardOf(f, b).Some? ==>
      && TestsNullCheck(f, b, sret)
      && GuardOf(f, b).value.handler == f.blocks[b].term.onTrue
      && GuardOf(f, b).value.cont == f.blocks[b].term.onFalse
  }

  /** Null-check results and sret arguments are each defined only as such. */
  ghost predicate NullChecksDefined(f: Function, sret: set<RegId>) {
    && (forall b, r :: b in f.blocks && r in f.blocks[b].params ==> r !in sret && r !in NullCheckResults(f, sret))
    && (forall b, i :: b in f.blocks && i in f.blocks[b].instrs && Dst(i).Some? ==>
          Dst(i).value !in sret && (Dst(i).value in NullCheckResults(f, sret) ==> IsNullCheck(i, sret)))
  }

  ghost predicate NonNull(regs: Regs, sret: set<RegId>) {
    forall r :: r in sret ==> r in regs && regs[r].Num? && regs[r].n != 0
  }

  // ----- null checks are false along every run -----------------------------------------------

  ghost predicate KeepsSret(i: Instr, sret: set<RegId>) {
    Dst(i).Some? ==> Dst(i).value !in sret
  }

  lemma ExecNonNull(w: Width, env: Env, i: Instr, s: Local, sret: set<RegId>)
    requires NonNull(s.regs, sret) && KeepsSret(i, sret)
    requires Exec(w, env, i, s).Some?
    ensures NonNull(Exec(w, env, i, s).value.regs, sret)
  {
    hide Overflows, Wrap, Visible, WithOverflowValue;
  }

  lemma NullCheckIsFalse(w: Width, env: Env, i: Instr, s: Local, sret: set<RegId>)
    requires NonNull(s.regs, sret) && IsNullCheck(i, sret)
    ensures YieldsFalse(w, env, i, s)
  {
  }

  lemma {:induction false} PrefixNonNull(w: Width, env: Env, instrs: seq<Instr>, k: nat, s: Local, sret: set<RegId>)
    requires k <= |instrs|
    requires forall i :: i in instrs ==> KeepsSret(i, sret)
    requires NonNull(s.regs, sret)
    requires ExecPrefix(w, env, instrs, k, s).Some?
    ensures NonNull(ExecPrefix(w, env, instrs, k, s).value.regs, sret)
  {
    hide Exec, NonNull, KeepsSret;
    if k > 0 {
      PrefixNonNull(w, env, instrs, k - 1, s, sret);
      ExecNonNull(w, env, instrs[k - 1], ExecPrefix(w, env, instrs, k - 1, s).value, sret);
    }
  }

  lemma {:induction false} BindNonNull(regs: Regs, params: seq<RegId>, vs: seq<Value>, sret: set<RegId>)
    requires |params| == |vs|
    requires forall r :: r in params ==> r !in sret
    requires NonNull(regs, sret)
    ensures NonNull(Bind(regs, params, vs), sret)
  {
    if params != [] {
      var n := |params| - 1;
      BindNonNull(regs, params[..n], vs[..n], sret);
    }
  }

  ghost predicate NonNullIn(c: Config, sret: set<RegId>) {
    c.Running? ==> NonNull(c.local.regs, sret)
  }

  lemma EnterNonNull(f: Function, e: Edge, s: Local, sret: set<RegId>)
    requires NullChecksDefined(f, sret) && NonNull(s.regs, sret)
    ensures NonNullIn(Enter(f, e, s), sret)
  {
    hide NonNull, NullCheckResults, IsNullCheck;
    if Enter(f, e, s).Running? {
      BindNonNull(s.regs, f.blocks[e.target].params, ReadAll(e.args, s.regs).value, sret);
    }
  }

  lemma LeaveNonNull(f: Function, t: Terminator, s: Local, sret: set<RegId>)
    requires NullChecksDefined(f, sret) && NonNull(s.regs, sret)
    ensures NonNullIn(Leave(f, t, s), sret)
  {
    hide NonNull, NullChecksDefined, Enter;
    match t {
      case Jump(e) => EnterNonNull(f, e, s, sret);
      case CondBr(_, a, b) => EnterNonNull(f, a, s, sret); EnterNonNull(f, b, s, sret);
      case _ =>
    }
  }

  lemma InstrsKeepSret(f: Function, b: BlockId, sret: set<RegId>)
    requires NullChecksDefined(f, sret) && b in f.blocks
    ensures forall i :: i in f.blocks[b].instrs ==> KeepsSret(i, sret)
    ensures forall i :: i in f.blocks[b].instrs && Erased(i, NullCheckResults(f, sret)) ==> IsNullCheck(i, sret)
  {
  }

  lemma StepNonNull(f: Function, env: Env, c: Config, sret: set<RegId>)
    requires NullChecksDefined(f, sret) && NonNullIn(c, sret)
    ensures NonNullIn(Step(f, env, c), sret)
    ensures FalseAt(f, env, c, NullCheckResults(f, sret))
  {
    hide Exec, NonNull, NullChecksDefined, Leave, NullCheckResults, YieldsFalse, IsNullCheck, Erased, KeepsSret;
    if c.Running? && c.block in f.blocks {
      var b := f.blocks[c.block];
      InstrsKeepSret(f, c.block, sret);
      forall k: nat | k <= |b.instrs| && ExecPrefix(f.width, env, b.instrs, k, c.local).Some?
        ensures NonNull(ExecPrefix(f.width, env, b.instrs, k, c.local).value.regs, sret)
        ensures k < |b.instrs| && IsNullCheck(b.instrs[k], sret) ==>
          YieldsFalse(f.width, env, b.instrs[k], ExecPrefix(f.width, env, b.instrs, k, c.local).value)
      {
        PrefixNonNull(f.width, env, b.instrs, k, c.local, sret);
        if k < |b.instrs| && IsNullCheck(b.instrs[k], sret) {
          NullCheckIsFalse(f.width, env, b.instrs[k], ExecPrefix(f.width, env, b.instrs, k, c.local).value, sret);
        }
      }
      var s := ExecPrefix(f.width, env, b.instrs, |b.instrs|, c.local);
      if s.Some? {
        LeaveNonNull(f, b.term, s.value, sret);
      }
    }
  }

  lemma {:induction false} RunNonNull(f: Function, env: Env, args: Regs, sret: set<RegId>, n: nat)
    requires NullChecksDefined(f, sret) && NonNull(args, sret)
    ensures NonNullIn(Run(f, env, Start(f, args), n), sret)
    ensures FalseAt(f, env, Run(f, env, Start(f, args), n), NullCheckResults(f, sret))
  {
    hide Step, NonNull, NullChecksDefined, FalseAt, NullCheckResults;
    if n > 0 {
      RunNonNull(f, env, args, sret, n - 1);
      StepNonNull(f, env, Run(f, env, Start(f, args), n - 1), sret);
    }
    StepNonNull(f, env, Run(f, env, Start(f, args), n), sret);
  }

  // ----- the straightened branches were never taken -------------------------------------------------

  function SretStraightened(f: Function, checks: seq<BlockId>): Function {
    StraightenAll(f, checks)
  }

  ghost predicate ListsNullChecks(f: Function, checks: seq<BlockId>, sret: set<RegId>) {
    forall b :: b in checks <==> HasNullCheck(f, b, sret)
  }

  /** At the end of a block the results of null checks are false. */
  lemma EndZeroed(f: Function, env: Env, c: Config, E: set<RegId>)
    requires c.Running? && c.block in f.blocks
    requires ZeroedIn(c, E) && FalseAt(f, env, c, E)
    ensures var b := f.blocks[c.block];
            var s := ExecPrefix(f.width, env, b.instrs, |b.instrs|, c.local);
            s.Some? ==> Zeroed(s.value.regs, E)
  {
    hide Exec, Zeroed, YieldsFalse, ErasedAreFalse;
    var b := f.blocks[c.block];
    if ExecPrefix(f.width, env, b.instrs, |b.instrs|, c.local).Some? {
      FoldPrefix(f.width, env, b.instrs, |b.instrs|, c.local, E);
    }
  }

  lemma SameEnter(f: Function, g: Function, e: Edge, s: Local, done: set<BlockId>)
    requires ClonedFrom(f, g, done)
    requires e.target in g.blocks
    ensures Enter(f, e, s) == Enter(g, e, s)
  {
    hide GuardOf;
    assert BlockCloned(f, g, done, e.target);
  }

  /** Block b, left with these registers, goes to the handler it guards. */
  ghost predicate ToHandler(f: Function, b: BlockId, s: Local) {
    && GuardOf(f, b).Some?
    && b in f.blocks && f.blocks[b].term.CondBr?
    && var t := f.blocks[b].term;
       var c := ReadNum(t.cond, s.regs);
       c.Some? && GuardOf(f, b).value.handler == if c.value != 0 then t.onTrue else t.onFalse
  }

  /** The run is in a checked block and about to leave it for its handler. */
  ghost predicate TakesHandler(f: Function, env: Env, c: Config, done: set<BlockId>) {
    c.Running? && c.block in done && c.block in f.blocks &&
    var b := f.blocks[c.block];
    var s := ExecPrefix(f.width, env, b.instrs, |b.instrs|, c.local);
    s.Some? && ToHandler(f, c.block, s.value)
  }

  lemma SameLeave(f: Function, g: Function, b: BlockId, s: Local, done: set<BlockId>)
    requires ClonedFrom(f, g, done) && b in g.blocks
    requires b in done ==> !ToHandler(f, b, s)
    requires !Leave(f, f.blocks[b].term, s).Stuck?
    ensures Leave(g, g.blocks[b].term, s) == Leave(f, f.blocks[b].term, s)
  {
    hide GuardOf, Enter;
    assert BlockCloned(f, g, done, b);
    var t := g.blocks[b].term;
    forall e | e in Edges(t)
      ensures Enter(f, e, s) == Enter(g, e, s)
    {
      SameEnter(f, g, e, s, done);
    }
    match t {
      case Jump(e) =>
        assert e in Edges(t);
        if b in done && GuardOf(f, b).Some? {
          GuardSides(f, b);
        }
      case CondBr(_, x, y) => assert x in Edges(t) && y in Edges(t);
      case _ =>
    }
  }

  /** The two sides of a guarded branch. */
  lemma GuardSides(f: Function, b: BlockId)
    requires GuardOf(f, b).Some?
    ensures b in f.blocks && f.blocks[b].term.CondBr?
    ensures var guard, t := GuardOf(f, b).value, f.blocks[b].term;
            && guard.handler.target != guard.cont.target
            && (guard == Guard(t.onTrue, t.onFalse) || guard == Guard(t.onFalse, t.onTrue))
  {
  }

  lemma SameStep(f: Function, g: Function, env: Env, c: Config, done: set<BlockId>)
    requires ClonedFrom(f, g, done)
    requires !TakesHandler(f, env, c, done)
    requires c.Running? ==> c.block in g.blocks
    requires !Step(f, env, c).Stuck?
    ensures Step(g, env, c) == Step(f, env, c)
  {
    hide Exec, GuardOf, Leave, ToHandler;
    if c.Running? {
      var b := f.blocks[c.block];
      var s := ExecPrefix(f.width, env, b.instrs, |b.instrs|, c.local);
      assert BlockCloned(f, g, done, c.block);
      SameLeave(f, g, c.block, s.value, done);
    }
  }

  lemma ParamsNotErased(f: Function, sret: set<RegId>)
    requires NullChecksDefined(f, sret)
    ensures ParamsKept(f, NullCheckResults(f, sret))
  {
  }

  ghost predicate ArgsNotErased(f: Function, args: Regs, sret: set<RegId>) {
    forall r :: r in NullCheckResults(f, sret) ==> r !in args
  }

  ghost predicate NoHandlerTaken(f: Function, env: Env, args: Regs, done: set<BlockId>, n: nat) {
    forall m: nat :: m < n ==> !TakesHandler(f, env, Run(f, env, Start(f, args), m), done)
  }

  lemma {:induction false} SameRun(f: Function, g: Function, env: Env, args: Regs, done: set<BlockId>, n: nat)
    requires ClonedFrom(f, g, done)
    requires NoHandlerTaken(f, env, args, done, n)
    requires !Run(f, env, Start(f, args), n).Stuck?
    ensures Run(g, env, Start(g, args), n) == Run(f, env, Start(f, args), n)
  {
    hide Step, GuardOf, TakesHandler;
    if n > 0 {
      var c := Run(f, env, Start(f, args), n - 1);
      StuckStays(f, env, c);
      SameRun(f, g, env, args, done, n - 1);
      InsideClone(f, g, env, args, done, n - 1);
      SameStep(f, g, env, c, done);
    }
  }

  lemma InsideClone(f: Function, g: Function, env: Env, args: Regs, done: set<BlockId>, n: nat)
    requires ClonedFrom(f, g, done)
    ensures var c := Run(g, env, Start(g, args), n); c.Running? ==> c.block in g.blocks
  {
    hide GuardOf, Step;
    Simulation.CloneStaysInside(g, env, args, n);
  }

  lemma RunZeroed(f: Function, env: Env, args: Regs, sret: set<RegId>, n: nat)
    requires NullChecksDefined(f, sret)
    requires NonNull(args, sret) && ArgsNotErased(f, args, sret)
    requires !Run(f, env, Start(f, args), n).Stuck?
    ensures ZeroedIn(Run(f, env, Start(f, args), n), NullCheckResults(f, sret))
    ensures FalseAt(f, env, Run(f, env, Start(f, args), n), NullCheckResults(f, sret))
  {
    hide Step, FalseAt, NullCheckResults, NullChecksDefined, NonNull, Run, ParamsKept, ZeroedIn;
    forall m: nat | m <= n
      ensures FalseAt(f, env, Run(f, env, Start(f, args), m), NullCheckResults(f, sret))
    {
      RunNonNull(f, env, args, sret, m);
    }
    ParamsNotErased(f, sret);
    FoldingPreservesRun(f, env, args, NullCheckResults(f, sret), n);
  }

  lemma FalseAtClone(f: Function, g: Function, env: Env, c: Config, done: set<BlockId>, E: set<RegId>)
    requires ClonedFrom(f, g, done)
    requires FalseAt(f, env, c, E)
    ensures FalseAt(g, env, c, E)
  {
    hide GuardOf, ErasedAreFalse;
    if c.Running? && c.block in g.blocks {
      assert BlockCloned(f, g, done, c.block);
    }
  }

  lemma KeptInClone(f: Function, g: Function, done: set<BlockId>, E: set<RegId>)
    requires ClonedFrom(f, g, done) && ParamsKept(f, E)
    ensures ParamsKept(g, E)
  {
    hide GuardOf;
    forall b, r | b in g.blocks && r in g.blocks[b].params
      ensures r !in E
    {
      assert BlockCloned(f, g, done, b);
    }
  }

  lemma {:induction false} NotStuckEarlier(f: Function, env: Env, c: Config, m: nat, n: nat)
    requires m <= n
    requires !Run(f, env, c, n).Stuck?
    ensures !Run(f, env, c, m).Stuck?
    decreases n - m
  {
    hide Step;
    if m < n {
      NotStuckEarlier(f, env, c, m + 1, n);
      StuckStays(f, env, Run(f, env, c, m));
    }
  }

  function SretOptimized(f: Function, checks: seq<BlockId>, sret: set<RegId>): Function {
    FoldFalse(SretStraightened(f, checks), NullCheckResults(f, sret))
  }

  /** As long as the original takes no handler out of a checked block, the pass keeps its run,
      whatever those blocks branch on. */
  lemma KeptUntilHandler(f: Function, checks: seq<BlockId>, env: Env, args: Regs, sret: set<RegId>, n: nat)
    requires Closed(f) && NullChecksDefined(f, sret)
    requires NonNull(args, sret) && ArgsNotErased(f, args, sret)
    requires !Run(f, env, Start(f, args), n).Stuck?
    requires NoHandlerTaken(f, env, args, ToSet(checks), n)
    ensures Run(SretOptimized(f, checks, sret), env, Start(f, args), n) ==
            Erase(Run(f, env, Start(f, args), n), NullCheckResults(f, sret))
  {
    hide Step, Run, FalseAt, NullCheckResults, NullChecksDefined, NonNull, ParamsKept, FoldFalse, TakesHandler,
         ClonedFrom, StraightenAll, ZeroedIn;
    var g, E := SretStraightened(f, checks), NullCheckResults(f, sret);
    var done := ToSet(checks);
    StraightenAllClones(f, checks);
    ParamsNotErased(f, sret);
    KeptInClone(f, g, done, E);
    forall m: nat | m <= n
      ensures Run(g, env, Start(g, args), m) == Run(f, env, Start(f, args), m)
      ensures FalseAt(g, env, Run(g, env, Start(g, args), m), E)
    {
      NotStuckEarlier(f, env, Start(f, args), m, n);
      SameRun(f, g, env, args, done, m);
      RunNonNull(f, env, args, sret, m);
      FalseAtClone(f, g, env, Run(f, env, Start(f, args), m), done, E);
    }
    FoldingPreservesRun(g, env, args, E, n);
    SameStart(f, g, args, done);
  }

  lemma AfterJump(f: Function, env: Env, c: Config, e: Edge)
    requires c.Running? && c.block in f.blocks ==> f.blocks[c.block].term == Jump(e)
    requires c.Running?
    ensures Step(f, env, c).Running? ==> Step(f, env, c).block == e.target
  {
  }

  lemma AfterHandler(f: Function, env: Env, c: Config, done: set<BlockId>)
    requires TakesHandler(f, env, c, done) && !Step(f, env, c).Stuck?
    ensures Step(f, env, c).Running? && Step(f, env, c).block == GuardOf(f, c.block).value.handler.target
  {
    hide Exec, GuardOf;
  }

  lemma StraightenedTerm(f: Function, checks: seq<BlockId>, sret: set<RegId>, b: BlockId)
    requires Closed(f)
    requires b in SretOptimized(f, checks, sret).blocks && b in checks && GuardOf(f, b).Some?
    ensures SretOptimized(f, checks, sret).blocks[b].term ==
            Jump(SubstEdge(GuardOf(f, b).value.cont, NullCheckResults(f, sret)))
  {
    hide GuardOf, StraightenAll, NullCheckResults, FoldInstrs;
    StraightenAllClones(f, checks);
    assert BlockCloned(f, SretStraightened(f, checks), ToSet(checks), b);
  }

  /** Where the original takes a handler, the result of the pass goes another way. */
  lemma HandlerSkipped(f: Function, checks: seq<BlockId>, env: Env, sret: set<RegId>, c: Config, E: set<RegId>)
    requires Closed(f) && E == NullCheckResults(f, sret)
    requires TakesHandler(f, env, c, ToSet(checks)) && !Step(f, env, c).Stuck?
    ensures Step(SretOptimized(f, checks, sret), env, Erase(c, E)) != Erase(Step(f, env, c), E)
  {
    hide Step, SretOptimized, GuardOf, ExecPrefix;
    var g := SretOptimized(f, checks, sret);
    AfterHandler(f, env, c, ToSet(checks));
    GuardSides(f, c.block);
    if c.block in g.blocks {
      StraightenedTerm(f, checks, sret, c.block);
    }
    AfterJump(g, env, Erase(c, E), SubstEdge(GuardOf(f, c.block).value.cont, E));
  }

  /** For any function and any branches: straightening the blocks of null checks in the original and
      folding their results keeps a run from a non-null sret argument if and only if the run never
      leaves such a block for its handler. */
  lemma SretRunsKeptExactly(f: Function, checks: seq<BlockId>, env: Env, args: Regs, sret: set<RegId>, n: nat)
    requires Closed(f) && NullChecksDefined(f, sret)
    requires NonNull(args, sret) && ArgsNotErased(f, args, sret)
    requires !Run(f, env, Start(f, args), n).Stuck?
    ensures (forall m: nat :: m <= n ==> Run(SretOptimized(f, checks, sret), env, Start(f, args), m) ==
                                         Erase(Run(f, env, Start(f, args), m), NullCheckResults(f, sret)))
       <==> NoHandlerTaken(f, env, args, ToSet(checks), n)
  {
    hide Step, TakesHandler, SretOptimized, NullCheckResults, NullChecksDefined, NonNull, ArgsNotErased, Closed, Erase;
    var g, E, c0 := SretOptimized(f, checks, sret), NullCheckResults(f, sret), Start(f, args);
    if NoHandlerTaken(f, env, args, ToSet(checks), n) {
      forall m: nat | m <= n
        ensures Run(g, env, c0, m) == Erase(Run(f, env, c0, m), E)
      {
        NotStuckEarlier(f, env, c0, m, n);
        KeptUntilHandler(f, checks, env, args, sret, m);
      }
    } else {
      var m: nat :| m < n && TakesHandler(f, env, Run(f, env, c0, m), ToSet(checks));
      NotStuckEarlier(f, env, c0, m + 1, n);
      HandlerSkipped(f, checks, env, sret, Run(f, env, c0, m), E);
      assert Run(g, env, c0, m + 1) == Step(g, env, Run(g, env, c0, m));
    }
  }

  /** A block whose null check shares its branch with another check: it branches on register 5
      being 1, not on the null check of register 0. */
  const SHARED_BLOCK := Block([], [CompareEq(1, Reg(0), Lit(Num(0))), CompareEq(2, Reg(5), Lit(Num(1)))],
                              CondBr(Reg(2), Edge(1, []), Edge(2, [])))
  const SHARED_HANDLER := Block([], [Call(3, "__ubsan_handle_type_mismatch", [])], Jump(Edge(2, [])))
  const SHARED_CONT := Block([], [], Ret(Lit(Num(0))))

  function SharedBranch(w: Width): Function {
    Function(w, 0, map[0 := SHARED_BLOCK, 1 := SHARED_HANDLER, 2 := SHARED_CONT])
  }

  /** A non-null sret argument, and the other check fails. */
  const SHARED_ARGS: Regs := map[0 := Num(1), 5 := Num(1)]

  lemma SharedHandlers(w: Width)
    ensures GuardOf(SharedBranch(w), 0) == Some(Guard(Edge(1, []), Edge(2, [])))
    ensures SHARED_BLOCK.instrs[0] in SHARED_BLOCK.instrs
  {
    var h := "__ubsan_handle_type_mismatch";
    assert h[..|UBSAN_PREFIX|] == UBSAN_PREFIX;
    assert SHARED_HANDLER.instrs[0] in SHARED_HANDLER.instrs;
  }

  lemma SharedClosed(w: Width)
    ensures Closed(SharedBranch(w))
  {
  }

  lemma SharedChecks(w: Width, b: BlockId, i: Instr)
    ensures b in SharedBranch(w).blocks && i in SharedBranch(w).blocks[b].instrs && IsNullCheck(i, {0}) <==>
            b == 0 && i == CompareEq(1, Reg(0), Lit(Num(0)))
  {
    assert SHARED_BLOCK.instrs[0] in SHARED_BLOCK.instrs;
  }

  lemma SharedShape(w: Width)
    ensures Closed(SharedBranch(w))
    ensures ListsNullChecks(SharedBranch(w), [0], {0}) && NullCheckResults(SharedBranch(w), {0}) == {1}
    ensures NullChecksDefined(SharedBranch(w), {0})
    ensures NonNull(SHARED_ARGS, {0}) && ArgsNotErased(SharedBranch(w), SHARED_ARGS, {0})
  {
    hide Closed, IsNullCheck, NullChecksDefined;
    SharedClosed(w);
    forall b, i
      ensures b in SharedBranch(w).blocks && i in SharedBranch(w).blocks[b].instrs && IsNullCheck(i, {0}) <==>
              b == 0 && i == CompareEq(1, Reg(0), Lit(Num(0)))
    {
      SharedChecks(w, b, i);
    }
    var check := CompareEq(1, Reg(0), Lit(Num(0)));
    assert check in SharedBranch(w).blocks[0].instrs && IsNullCheck(check, {0});
    SharedDefined(w);
  }

  lemma SharedDefined(w: Width)
    requires NullCheckResults(SharedBranch(w), {0}) == {1}
    ensures NullChecksDefined(SharedBranch(w), {0})
  {
    hide NullCheckResults;
    SharedHandlers(w);
  }

  lemma SharedExec(w: Width, env: Env)
    ensures ExecPrefix(w, env, SHARED_BLOCK.instrs, 2, Local(SHARED_ARGS, [])) ==
            Some(Local(SHARED_ARGS[1 := Num(0)][2 := Num(1)], []))
  {
    assert ExecPrefix(w, env, SHARED_BLOCK.instrs, 0, Local(SHARED_ARGS, [])) == Some(Local(SHARED_ARGS, []));
    assert ExecPrefix(w, env, SHARED_BLOCK.instrs, 1, Local(SHARED_ARGS, [])) ==
           Some(Local(SHARED_ARGS[1 := Num(0)], []));
  }

  /** On it, from a non-null sret argument, the pass loses the call of the other check's handler. */
  lemma SharedBranchLosesCall(w: Width, env: Env)
    ensures var f := SharedBranch(w);
            && Closed(f) && ListsNullChecks(f, [0], {0}) && NullChecksDefined(f, {0})
            && NonNull(SHARED_ARGS, {0}) && ArgsNotErased(f, SHARED_ARGS, {0})
            && !Run(f, env, Start(f, SHARED_ARGS), 1).Stuck?
            && Run(SretOptimized(f, [0], {0}), env, Start(f, SHARED_ARGS), 1) !=
               Erase(Run(f, env, Start(f, SHARED_ARGS), 1), NullCheckResults(f, {0}))
  {
    hide Step, SretOptimized, GuardOf, NullCheckResults, ExecPrefix, Closed, ListsNullChecks, NullChecksDefined,
         TakesHandler, ArgsNotErased, NonNull;
    var f := SharedBranch(w);
    var c := Start(f, SHARED_ARGS);
    SharedShape(w);
    SharedStep(w, env);
    HandlerSkipped(f, [0], env, {0}, c, NullCheckResults(f, {0}));
    assert SHARED_ARGS - {1} == SHARED_ARGS;
    OneStep(f, env, c);
    OneStep(SretOptimized(f, [0], {0}), env, c);
  }

  lemma OneStep(f: Function, env: Env, c: Config)
    ensures Run(f, env, c, 1) == Step(f, env, c)
  {
    NextRun(f, env, c, 0);
  }

  lemma SharedStep(w: Width, env: Env)
    ensures var f := SharedBranch(w);
            TakesHandler(f, env, Start(f, SHARED_ARGS), {0}) && !Step(f, env, Start(f, SHARED_ARGS)).Stuck?
    ensures ToSet([0]) == {0}
  {
    hide GuardOf, ExecPrefix;
    SharedHandlers(w);
    SharedExec(w, env);
  }

  /** A branch on a null check takes its handler if and only if the handler is on the false side. */
  lemma NullCheckBranch(f: Function, env: Env, args: Regs, sret: set<RegId>, done: set<BlockId>, n: nat)
    requires NullChecksDefined(f, sret) && NonNull(args, sret) && ArgsNotErased(f, args, sret)
    requires !Run(f, env, Start(f, args), n + 1).Stuck?
    requires var c := Run(f, env, Start(f, args), n);
             c.Running? && c.block in done && GuardOf(f, c.block).Some? && TestsNullCheck(f, c.block, sret)
    ensures var c := Run(f, env, Start(f, args), n);
            TakesHandler(f, env, c, done) <==> GuardOf(f, c.block).value.handler == f.blocks[c.block].term.onFalse
  {
    hide Exec, GuardOf, Run, NullCheckResults, NullChecksDefined, NonNull, FalseAt, Zeroed, Enter;
    var c := Run(f, env, Start(f, args), n);
    NextRun(f, env, Start(f, args), n);
    GuardSides(f, c.block);
    StuckStays(f, env, c);
    RunZeroed(f, env, args, sret, n);
    EndZeroed(f, env, c, NullCheckResults(f, sret));
    var b := f.blocks[c.block];
    var s := ExecPrefix(f.width, env, b.instrs, |b.instrs|, c.local).value;
    ReadsZero(b.term.cond, s, NullCheckResults(f, sret));
  }

  lemma ReadsZero(o: Operand, s: Local, E: set<RegId>)
    requires o.Reg? && o.reg in E && Zeroed(s.regs, E)
    ensures ReadNum(o, s.regs).Some? ==> ReadNum(o, s.regs) == Some(0)
  {
  }

  lemma NoHandlerOnNullCheck(f: Function, checks: seq<BlockId>, env: Env, args: Regs, sret: set<RegId>, n: nat)
    requires ListsNullChecks(f, checks, sret)
    requires BranchesOnNullCheck(f, sret) && NullChecksDefined(f, sret)
    requires NonNull(args, sret) && ArgsNotErased(f, args, sret)
    requires !Run(f, env, Start(f, args), n).Stuck?
    ensures NoHandlerTaken(f, env, args, ToSet(checks), n)
  {
    hide Run, NullChecksDefined, NonNull, ArgsNotErased, GuardOf, Step, HasNullCheck, NullCheckResults;
    forall m: nat | m < n
      ensures !TakesHandler(f, env, Run(f, env, Start(f, args), m), ToSet(checks))
    {
      var c := Run(f, env, Start(f, args), m);
      if TakesHandler(f, env, c, ToSet(checks)) {
        NotStuckEarlier(f, env, Start(f, args), m + 1, n);
        GuardSides(f, c.block);
        NullCheckBranch(f, env, args, sret, ToSet(checks), m);
      }
    }
  }

  /** The shape UBSan gives to null checks: every run from a non-null sret argument is kept. */
  lemma SretEliminationPreservesRuns(f: Function, checks: seq<BlockId>, env: Env, args: Regs, sret: set<RegId>, n: nat)
    requires Closed(f) && ListsNullChecks(f, checks, sret)
    requires BranchesOnNullCheck(f, sret) && NullChecksDefined(f, sret)
    requires NonNull(args, sret) && ArgsNotErased(f, args, sret)
    requires !Run(f, env, Start(f, args), n).Stuck?
    ensures Run(SretOptimized(f, checks, sret), env, Start(f, args), n) ==
            Erase(Run(f, env, Start(f, args), n), NullCheckResults(f, sret))
  {
    hide *;
    NoHandlerOnNullCheck(f, checks, env, args, sret, n);
    KeptUntilHandler(f, checks, env, args, sret, n);
  }

  lemma SameStart(f: Function, g: Function, args: Regs, done: set<BlockId>)
    requires ClonedFrom(f, g, done)
    ensures Start(f, args) == Start(g, args)
  {
  }

  // ----- the result, block by block ----------------------------------------------------------------

  /** A comparison whose two operands are an sret argument and null. */
  lemma NullCheckOperands(i: Instr, sret: set<RegId>)
    ensures IsNullCheck(i, sret) <==>
      i.CompareEq? && exists r :: r in sret && multiset{i.lhs, i.rhs} == multiset{Reg(r), Lit(Num(0))}
  {
    if i.CompareEq? {
      forall r | multiset{i.lhs, i.rhs} == multiset{Reg(r), Lit(Num(0))}
        ensures (i.lhs == Reg(r) && i.rhs == Lit(Num(0))) || (i.rhs == Reg(r) && i.lhs == Lit(Num(0)))
      {
        assert i.lhs in multiset{i.lhs, i.rhs} && i.rhs in multiset{i.lhs, i.rhs};
        assert Reg(r) in multiset{i.lhs, i.rhs} && Lit(Num(0)) in multiset{i.lhs, i.rhs};
      }
      if i.lhs.Reg? && i.rhs == Lit(Num(0)) {
        assert multiset{i.lhs, i.rhs} == multiset{Reg(i.lhs.reg), Lit(Num(0))};
      }
      if i.rhs.Reg? && i.lhs == Lit(Num(0)) {
        assert multiset{i.lhs, i.rhs} == multiset{Reg(i.rhs.reg), Lit(Num(0))};
      }
    }
  }

  /** Every surviving block with a null check whose branch had exactly one handler, on either side,
      ends in a jump to the other side; no null check of the original is left in it. */
  lemma NullChecksStraightened(f: Function, checks: seq<BlockId>, sret: set<RegId>, b: BlockId, i: Instr, r: RegId)
    requires Closed(f) && ListsNullChecks(f, checks, sret)
    requires b in SretOptimized(f, checks, sret).blocks
    requires b in f.blocks && i in f.blocks[b].instrs && f.blocks[b].term.CondBr?
    requires i.CompareEq? && r in sret && multiset{i.lhs, i.rhs} == multiset{Reg(r), Lit(Num(0))}
    ensures var t, end, E := f.blocks[b].term, SretOptimized(f, checks, sret).blocks[b].term, NullCheckResults(f, sret);
            && (IsHandler(f, t.onTrue.target) && !IsHandler(f, t.onFalse.target) ==> end == Jump(SubstEdge(t.onFalse, E)))
            && (IsHandler(f, t.onFalse.target) && !IsHandler(f, t.onTrue.target) ==> end == Jump(SubstEdge(t.onTrue, E)))
    ensures forall x :: x in SretOptimized(f, checks, sret).blocks[b].instrs && Dst(x).Some? ==> Dst(x).value != i.dst
  {
    hide IsHandler, GuardOf, StraightenAll, FoldInstrs, IsNullCheck, NullCheckResults;
    NullCheckOperands(i, sret);
    var g, E := SretStraightened(f, checks), NullCheckResults(f, sret);
    StraightenAllClones(f, checks);
    assert BlockCloned(f, g, ToSet(checks), b);
    CloneEnds(f, g, ToSet(checks), b);
    IsResult(f, sret, b, i);
    forall x | x in SretOptimized(f, checks, sret).blocks[b].instrs && Dst(x).Some?
      ensures Dst(x).value != i.dst
    {
      var o := FoldedInstr(f.blocks[b].instrs, E, x);
    }
  }

  lemma IsResult(f: Function, sret: set<RegId>, b: BlockId, i: Instr)
    requires b in f.blocks && i in f.blocks[b].instrs && IsNullCheck(i, sret)
    ensures i.dst in NullCheckResults(f, sret) && HasNullCheck(f, b, sret)
  {
  }
}
