/** A counting loop as IR: check count + step, leave when count is the limit, else go on with the
    sum. The pass keeps its runs if and only if the counter makes no full turn. With step -1 and
    limit 0 it is the pass's motivating loop, `while (count--)`. */
module CountingLoop {
  import opened Options
  import opened ConstantRanges
  import opened EndpointBound
  import opened Ir
  import opened Straightening
  import opened Simulation
  import opened Folding
  import opened CheckElimination

  const START: RegId := 0
  const COUNT: RegId := 1
  const SUM: RegId := 2
  const BIT: RegId := 3
  const NEXT: RegId := 4
  const IS_LAST: RegId := 5
  const STORED: RegId := 6
  const UNUSED: RegId := 7

  function Check(step: int): Instr {
    WithOverflow(SUM, Add, true, Reg(COUNT), Lit(Num(step)))
  }

  const ENTRY_BLOCK := Block([], [], Jump(Edge(1, [Reg(START)])))

  function LoopBlock(step: int): Block {
    Block([COUNT], [Check(step), ExtractValue(BIT, Reg(SUM), 1)], CondBr(Reg(BIT), Edge(2, []), Edge(3, [])))
  }

  const HANDLER_BLOCK := Block([], [Call(UNUSED, "__ubsan_handle_sub_overflow", [Reg(COUNT)])], Jump(Edge(3, [])))

  function TestBlock(limit: int): Block {
    Block([], [ExtractValue(NEXT, Reg(SUM), 0), CompareEq(IS_LAST, Reg(COUNT), Lit(Num(limit)))],
          CondBr(Reg(IS_LAST), Edge(5, []), Edge(4, [])))
  }

  const BODY_BLOCK := Block([], [Call(STORED, "store", [Reg(NEXT)])], Jump(Edge(1, [Reg(NEXT)])))
  const EXIT_BLOCK := Block([], [], Ret(Reg(COUNT)))

  function Loop(w: Width, step: int, limit: int): Function {
    Function(w, 0, map[0 := ENTRY_BLOCK, 1 := LoopBlock(step), 2 := HANDLER_BLOCK, 3 := TestBlock(limit),
                       4 := BODY_BLOCK, 5 := EXIT_BLOCK])
  }

  const LAYOUT: seq<BlockId> := [0, 1, 2, 3, 4, 5]

  /** The clone: the loop block jumps to the test and the handler is gone. */
  function StraightLoop(w: Width, step: int, limit: int): Function {
    Function(w, 0, map[0 := ENTRY_BLOCK, 1 := LoopBlock(step).(term := Jump(Edge(3, []))), 3 := TestBlock(limit),
                       4 := BODY_BLOCK, 5 := EXIT_BLOCK])
  }

  /** The recurrence of the counter, with its start known to be in `first`; nothing else is known. */
  function CounterReport(w: Width, first: Range, step: int, limit: int): Report {
    Counter(w, first, None, step, limit)
  }

  function OnlyRange(r: Range): Report {
    Report(r, None, None)
  }

  function LoopReports(w: Width, first: Range, step: int, limit: int): Reports {
    (r: RegId) =>
      if r == SUM then (CounterReport(w, first, step, limit), OnlyRange(Range(step, step)))
      else (OnlyRange(Range(1, 0)), OnlyRange(Range(1, 0)))
  }

  /** The counter first meets the limit at iteration b. */
  ghost predicate StopsAfter(w: Width, s: int, step: int, limit: int, b: nat) {
    && InSigned(w, s) && InSigned(w, step)
    && Iterate(w, s, step, b) == limit
    && forall k: nat :: k < b ==> Iterate(w, s, step, k) != limit
  }

  function Args(s: int): Regs {
    map[START := Num(s)]
  }

  // ----- shape ---------------------------------------------------------------------------------

  lemma Prefixes()
    ensures IsUBSanSite("__ubsan_handle_sub_overflow")
    ensures !IsUBSanSite("store")
  {
    var h := "__ubsan_handle_sub_overflow";
    assert h[..|UBSAN_PREFIX|] == UBSAN_PREFIX;
  }

  lemma Handlers(w: Width, step: int, limit: int, b: BlockId)
    ensures IsHandler(Loop(w, step, limit), b) <==> b == 2
  {
    Prefixes();
    if b == 2 {
      assert HANDLER_BLOCK.instrs[0] in HANDLER_BLOCK.instrs;
    }
  }

  lemma Guards(w: Width, step: int, limit: int, b: BlockId)
    ensures GuardOf(Loop(w, step, limit), b) == if b == 1 then Some(Guard(Edge(2, []), Edge(3, []))) else None
  {
    hide IsHandler;
    Handlers(w, step, limit, 2);
    Handlers(w, step, limit, 3);
    Handlers(w, step, limit, 4);
    Handlers(w, step, limit, 5);
  }

  lemma Checks(w: Width, step: int, limit: int, b: BlockId)
    ensures HasCheck(Loop(w, step, limit), b) <==> b == 1
  {
    if b == 1 { assert LoopBlock(step).instrs[0] in LoopBlock(step).instrs; }
  }

  lemma LoopBranches(w: Width, step: int, limit: int)
    ensures forall b :: CheckBranch(Loop(w, step, limit), b) <==> b == 1
    ensures forall b :: CheckHandler(Loop(w, step, limit), b) <==> b == 2
    ensures GuardOf(Loop(w, step, limit), 1) == Some(Guard(Edge(2, []), Edge(3, [])))
  {
    hide GuardOf, HasCheck, Loop;
    forall b
      ensures CheckBranch(Loop(w, step, limit), b) <==> b == 1
    {
      Guards(w, step, limit, b);
      Checks(w, step, limit, b);
    }
    Guards(w, step, limit, 1);
    assert CheckBranch(Loop(w, step, limit), 1);
  }

  lemma LoopClosed(w: Width, step: int, limit: int)
    ensures Closed(Loop(w, step, limit))
  {
  }

  lemma NoLocals(os: seq<Operand>)
    ensures !Mentions(os, {})
  {
  }

  lemma PlainWithoutLocals(b: Block)
    ensures PlainBlock(b, {})
  {
    hide Mentions;
    NoLocals(TermUses(b.term));
    forall i | i in b.instrs
      ensures PlainInstr(i, {})
    {
      NoLocals(Uses(i));
    }
  }

  lemma LoopHandlerOk(w: Width, step: int, limit: int)
    requires CheckBranch(Loop(w, step, limit), 1)
    requires GuardOf(Loop(w, step, limit), 1) == Some(Guard(Edge(2, []), Edge(3, [])))
    ensures HandlerOk(Loop(w, step, limit), 1, {})
  {
    hide GuardOf, HasCheck;
    Prefixes();
  }

  lemma HandlerEntries(w: Width, step: int, limit: int, p: BlockId, e: Edge)
    requires p in Loop(w, step, limit).blocks && e in Edges(Loop(w, step, limit).blocks[p].term) && e.target == 2
    ensures p == 1
  {
  }

  lemma LoopWellFormed(w: Width, step: int, limit: int)
    ensures WellFormed(Loop(w, step, limit), {})
  {
    hide GuardOf, CheckBranch, CheckHandler, Loop, HandlerOk, PlainBlock, Closed;
    LoopBranches(w, step, limit);
    LoopClosed(w, step, limit);
    LoopHandlerOk(w, step, limit);
    forall b | b in Loop(w, step, limit).blocks
      ensures PlainBlock(Loop(w, step, limit).blocks[b], {})
    {
      PlainWithoutLocals(Loop(w, step, limit).blocks[b]);
    }
    forall p, e | && p in Loop(w, step, limit).blocks && e in Edges(Loop(w, step, limit).blocks[p].term)
                  && CheckHandler(Loop(w, step, limit), e.target)
      ensures CheckBranch(Loop(w, step, limit), p) && GuardOf(Loop(w, step, limit), p).value.handler.target == e.target
    {
      HandlerEntries(w, step, limit, p, e);
    }
  }

  /** The one place each register is defined. */
  function Home(r: RegId): (BlockId, int) {
    if r == COUNT then (1, -1)
    else if r == SUM then (1, 0)
    else if r == BIT then (1, 1)
    else if r == NEXT then (3, 0)
    else if r == IS_LAST then (3, 1)
    else (4, 0)
  }

  lemma DefinedAtHome(w: Width, step: int, limit: int, b: BlockId, k: int, r: RegId)
    requires Defines(Loop(w, step, limit), b, k, r)
    ensures (b, k) == Home(r) && r != START
  {
    Prefixes();
  }

  lemma LoopSingleAssignment(w: Width, step: int, limit: int, s: int)
    ensures SingleAssignment(Loop(w, step, limit), Args(s))
  {
    hide Defines, Home;
    forall b: BlockId, k: int, r: RegId | Defines(Loop(w, step, limit), b, k, r)
      ensures (b, k) == Home(r) && r != START
    {
      DefinedAtHome(w, step, limit, b, k, r);
    }
  }

  // ----- the clone ------------------------------------------------------------------------------

  lemma CheckBlocksSnoc(f: Function, layout: seq<BlockId>, b: BlockId)
    requires b in f.blocks
    ensures CheckBlocks(f, layout + [b]) == CheckBlocks(f, layout) + ChecksIn(f.blocks[b].instrs, b)
  {
    assert (layout + [b])[..|layout|] == layout;
  }

  lemma NoChecks(w: Width, step: int, limit: int, b: BlockId)
    requires b in Loop(w, step, limit).blocks && b != 1
    ensures ChecksIn(Loop(w, step, limit).blocks[b].instrs, b) == []
  {
    Checks(w, step, limit, b);
    var r := ChecksIn(Loop(w, step, limit).blocks[b].instrs, b);
    if r != [] { FirstIn(r); }
  }

  lemma FirstIn(r: seq<BlockId>)
    requires r != []
    ensures r[0] in r
  {
  }

  lemma LoopChecks(step: int)
    ensures ChecksIn(LoopBlock(step).instrs, 1) == [1]
  {
    var bit := ExtractValue(BIT, Reg(SUM), 1);
    assert [Check(step), bit][..1] == [Check(step)] && [Check(step)][..0] == [];
    assert ChecksIn([Check(step)], 1) == [1];
  }

  lemma OneCheck(w: Width, step: int, limit: int)
    ensures CheckBlocks(Loop(w, step, limit), LAYOUT) == [1]
  {
    hide ChecksIn, CheckBlocks, HasCheck;
    var f := Loop(w, step, limit);
    NoChecks(w, step, limit, 0);
    NoChecks(w, step, limit, 2);
    NoChecks(w, step, limit, 3);
    NoChecks(w, step, limit, 4);
    NoChecks(w, step, limit, 5);
    LoopChecks(step);
    NothingListed(f);
    CheckBlocksSnoc(f, [], 0);
    CheckBlocksSnoc(f, [0], 1);
    CheckBlocksSnoc(f, [0, 1], 2);
    CheckBlocksSnoc(f, [0, 1, 2], 3);
    CheckBlocksSnoc(f, [0, 1, 2, 3], 4);
    CheckBlocksSnoc(f, [0, 1, 2, 3, 4], 5);
    LayoutByOne();
  }

  lemma LayoutByOne()
    ensures [] + [0] == [0] && [0] + [1] == [0, 1] && [0, 1] + [2] == [0, 1, 2]
    ensures [0, 1, 2] + [3] == [0, 1, 2, 3] && [0, 1, 2, 3] + [4] == [0, 1, 2, 3, 4]
    ensures [0, 1, 2, 3, 4] + [5] == LAYOUT
  {
  }

  lemma NothingListed(f: Function)
    ensures CheckBlocks(f, []) == []
  {
  }

  lemma CloneOfLoop(w: Width, step: int, limit: int)
    ensures Straightened(Loop(w, step, limit), LAYOUT) == StraightLoop(w, step, limit)
  {
    hide StraightenBlock, CheckBlocks;
    OneCheck(w, step, limit);
    assert [1][..0] == [];
    assert StraightenAll(Loop(w, step, limit), [1]) == StraightenBlock(Loop(w, step, limit), 1);
    StraightenedBlock(w, step, limit);
  }

  function Rewired(w: Width, step: int, limit: int): Function {
    Loop(w, step, limit).(blocks := Loop(w, step, limit).blocks[1 := LoopBlock(step).(term := Jump(Edge(3, [])))])
  }

  lemma HandlerUnreached(w: Width, step: int, limit: int)
    ensures !HasPredecessor(Rewired(w, step, limit), 2)
    ensures Rewired(w, step, limit).blocks - {2} == StraightLoop(w, step, limit).blocks
  {
  }

  lemma StraightenedBlock(w: Width, step: int, limit: int)
    ensures StraightenBlock(Loop(w, step, limit), 1) == StraightLoop(w, step, limit)
  {
    hide GuardOf, HasPredecessor;
    Guards(w, step, limit, 1);
    HandlerUnreached(w, step, limit);
  }

  // ----- one step at a time -----------------------------------------------------------------------

  /** Everything but the end of the loop block and the handler. */
  ghost predicate LoopLike(g: Function, w: Width, step: int, limit: int) {
    && g.width == w && g.entry == 0
    && {0, 1, 3, 4, 5} <= g.blocks.Keys
    && g.blocks[0] == ENTRY_BLOCK && g.blocks[3] == TestBlock(limit)
    && g.blocks[4] == BODY_BLOCK && g.blocks[5] == EXIT_BLOCK
    && g.blocks[1].params == [COUNT] && g.blocks[1].instrs == LoopBlock(step).instrs
  }

  predicate Holds(regs: Regs, r: RegId, v: int) {
    r in regs && regs[r] == Num(v)
  }

  /** About to check with the counter at v. */
  predicate AtLoop(c: Config, v: int) {
    c.Running? && c.block == 1 && Holds(c.local.regs, COUNT, v)
  }

  predicate AtTest(c: Config, v: int, next: int) {
    && c.Running? && c.block == 3
    && Holds(c.local.regs, COUNT, v)
    && SUM in c.local.regs && c.local.regs[SUM].Pair? && c.local.regs[SUM].n == next
  }

  predicate AtBody(c: Config, next: int) {
    c.Running? && c.block == 4 && Holds(c.local.regs, NEXT, next)
  }

  predicate AtExit(c: Config) {
    c.Running? && c.block == 5
  }

  lemma ExecTwo(w: Width, env: Env, a: Instr, b: Instr, s: Local)
    ensures ExecPrefix(w, env, [a, b], 2, s) ==
            var t := Exec(w, env, a, s); if t.Some? then Exec(w, env, b, t.value) else None
  {
    hide Exec;
    assert ExecPrefix(w, env, [a, b], 1, s) == Exec(w, env, a, s);
  }

  lemma ReadOne(o: Operand, regs: Regs)
    ensures ReadAll([o], regs) == if Read(o, regs).Some? then Some([Read(o, regs).value]) else None
  {
    assert [o][..0] == [];
    assert ReadAll([], regs) == Some([]);
    assert ReadAll([o], regs) ==
           var last := Read(o, regs); if last.Some? then Some([] + [last.value]) else None;
    if Read(o, regs).Some? { assert [] + [Read(o, regs).value] == [Read(o, regs).value]; }
  }

  lemma BindOne(regs: Regs, r: RegId, v: Value)
    ensures Bind(regs, [r], [v]) == regs[r := v]
  {
    assert [r][..0] == [] && [v][..0] == [];
    assert Bind(regs, [], []) == regs;
  }

  lemma EnterLoop(g: Function, w: Width, step: int, limit: int, from: RegId, v: int, s: Local)
    requires LoopLike(g, w, step, limit) && Holds(s.regs, from, v)
    ensures AtLoop(Enter(g, Edge(1, [Reg(from)]), s), v)
  {
    ReadOne(Reg(from), s.regs);
    BindOne(s.regs, COUNT, Num(v));
  }

  lemma StartStep(g: Function, w: Width, step: int, limit: int, env: Env, s: int)
    requires LoopLike(g, w, step, limit)
    ensures AtLoop(Step(g, env, Start(g, Args(s))), s)
  {
    hide Enter;
    EnterLoop(g, w, step, limit, START, s, Local(Args(s), []));
  }

  /** The check computes the next value, and the bit says whether it overflowed. */
  lemma CheckBlock(w: Width, step: int, env: Env, s: Local, v: int)
    requires Holds(s.regs, COUNT, v)
    ensures var t := ExecPrefix(w, env, LoopBlock(step).instrs, 2, s);
            && t.Some?
            && Holds(t.value.regs, COUNT, v)
            && Holds(t.value.regs, BIT, if Overflows(w, Add, true, v, step) then 1 else 0)
            && SUM in t.value.regs && t.value.regs[SUM].Pair? && t.value.regs[SUM].n == Wrap(w, v + step)
  {
    hide Overflows, Wrap;
    ExecTwo(w, env, Check(step), ExtractValue(BIT, Reg(SUM), 1), s);
  }

  lemma TestStep(g: Function, w: Width, step: int, limit: int, env: Env, c: Config, v: int, next: int)
    requires LoopLike(g, w, step, limit) && AtTest(c, v, next)
    ensures v == limit ==> AtExit(Step(g, env, c))
    ensures v != limit ==> AtBody(Step(g, env, c), next)
  {
    ExecTwo(w, env, ExtractValue(NEXT, Reg(SUM), 0), CompareEq(IS_LAST, Reg(COUNT), Lit(Num(limit))), c.local);
  }

  lemma BodyStep(g: Function, w: Width, step: int, limit: int, env: Env, c: Config, next: int)
    requires LoopLike(g, w, step, limit) && AtBody(c, next)
    ensures AtLoop(Step(g, env, c), next)
  {
    hide Enter;
    var t := ExecPrefix(w, env, BODY_BLOCK.instrs, 1, c.local);
    StoreStep(w, env, c.local, next);
    EnterLoop(g, w, step, limit, NEXT, next, t.value);
  }

  lemma StoreStep(w: Width, env: Env, s: Local, next: int)
    requires Holds(s.regs, NEXT, next)
    ensures var t := ExecPrefix(w, env, BODY_BLOCK.instrs, 1, s);
            t.Some? && Holds(t.value.regs, NEXT, next)
  {
    Prefixes();
    ReadOne(Reg(NEXT), s.regs);
    assert ExecPrefix(w, env, BODY_BLOCK.instrs, 1, s) == Exec(w, env, BODY_BLOCK.instrs[0], s);
  }

  lemma CloneCheckStep(w: Width, step: int, limit: int, env: Env, c: Config, v: int)
    requires AtLoop(c, v)
    ensures AtTest(Step(StraightLoop(w, step, limit), env, c), v, Wrap(w, v + step))
  {
    hide Wrap;
    CheckBlock(w, step, env, c.local, v);
  }

  lemma CheckStep(w: Width, step: int, limit: int, env: Env, c: Config, v: int)
    requires AtLoop(c, v)
    ensures var t := Step(Loop(w, step, limit), env, c);
            if Overflows(w, Add, true, v, step) then t.Running? && t.block == 2 else AtTest(t, v, Wrap(w, v + step))
  {
    hide Wrap, Overflows;
    CheckBlock(w, step, env, c.local, v);
  }

  // ----- the clone's counter runs through the recurrence ------------------------------------------

  lemma WrapCongruent(w: Width, x: int, q: int)
    ensures Wrap(w, x + q * Modulus(w)) == Wrap(w, x)
  {
    var m := Modulus(w);
    var y := x + q * m;
    assert x == x / m * m + x % m && y == y / m * m + y % m;
    var t := y / m - x / m - q;
    assert t * m == y / m * m - x / m * m - q * m;
    Multiples(t, m);
  }

  lemma IterateNext(w: Width, s: int, step: int, k: nat)
    ensures Wrap(w, Iterate(w, s, step, k) + step) == Iterate(w, s, step, k + 1)
    ensures InSigned(w, s) ==> Iterate(w, s, step, 0) == s
  {
    hide Wrap;
    var q := WrapShift(w, s + k * step);
    ExactNext(s, step, k);
    WrapCongruent(w, s + (k + 1) * step, q);
    WrapNear(w, s);
  }

  /** The clone is in iteration k <= b. */
  ghost predicate InIteration(c: Config, w: Width, s: int, step: int, b: nat, k: nat) {
    k <= b &&
    var v, next := Iterate(w, s, step, k), Iterate(w, s, step, k + 1);
    AtLoop(c, v) || AtTest(c, v, next) || (AtBody(c, next) && k < b)
  }

  ghost predicate CounterInv(c: Config, w: Width, s: int, step: int, b: nat) {
    || (c.Running? && c.block == 0 && Holds(c.local.regs, START, s))
    || (exists k: nat :: InIteration(c, w, s, step, b, k))
    || AtExit(c)
    || !c.Running?
  }

  lemma IterationStep(w: Width, step: int, limit: int, env: Env, c: Config, s: int, b: nat, k: nat)
    requires StopsAfter(w, s, step, limit, b)
    requires InIteration(c, w, s, step, b, k)
    ensures CounterInv(Step(StraightLoop(w, step, limit), env, c), w, s, step, b)
  {
    hide Iterate, Step;
    var g := StraightLoop(w, step, limit);
    var v, next, t := Iterate(w, s, step, k), Iterate(w, s, step, k + 1), Step(g, env, c);
    IterateNext(w, s, step, k);
    if AtLoop(c, v) {
      CloneCheckStep(w, step, limit, env, c, v);
      assert InIteration(t, w, s, step, b, k);
    } else if AtTest(c, v, next) {
      TestStep(g, w, step, limit, env, c, v, next);
      if v != limit { assert InIteration(t, w, s, step, b, k); }
    } else {
      BodyStep(g, w, step, limit, env, c, next);
      assert InIteration(t, w, s, step, b, k + 1);
    }
  }

  lemma ExitStep(w: Width, step: int, limit: int, env: Env, c: Config)
    requires AtExit(c)
    ensures !Step(StraightLoop(w, step, limit), env, c).Running?
  {
  }

  lemma {:induction false} CounterAlways(w: Width, step: int, limit: int, env: Env, s: int, b: nat, m: nat)
    requires StopsAfter(w, s, step, limit, b)
    ensures var g := StraightLoop(w, step, limit);
            CounterInv(Run(g, env, Start(g, Args(s)), m), w, s, step, b)
  {
    hide Step, Iterate, InIteration;
    var g := StraightLoop(w, step, limit);
    if m > 0 {
      var c := Run(g, env, Start(g, Args(s)), m - 1);
      CounterAlways(w, step, limit, env, s, b, m - 1);
      if AtExit(c) {
        ExitStep(w, step, limit, env, c);
      } else if k: nat :| InIteration(c, w, s, step, b, k) {
        IterationStep(w, step, limit, env, c, s, b, k);
      } else if c.Running? {
        FromEntry(g, w, step, limit, env, c, s);
        IsFirstIteration(Step(g, env, c), w, s, step, b);
      } else {
        Halted(g, env, c);
      }
    }
  }

  lemma Halted(g: Function, env: Env, c: Config)
    requires !c.Running?
    ensures Step(g, env, c) == c
  {
  }

  lemma FromEntry(g: Function, w: Width, step: int, limit: int, env: Env, c: Config, s: int)
    requires LoopLike(g, w, step, limit)
    requires c.Running? && c.block == 0 && Holds(c.local.regs, START, s)
    ensures AtLoop(Step(g, env, c), s)
  {
    hide Enter;
    EnterLoop(g, w, step, limit, START, s, c.local);
  }

  lemma IsFirstIteration(c: Config, w: Width, s: int, step: int, b: nat)
    requires InSigned(w, s) && AtLoop(c, s)
    ensures InIteration(c, w, s, step, b, 0)
  {
    IterateNext(w, s, step, 0);
  }

  lemma CounterFacts(w: Width, first: Range, step: int, limit: int, s: int, b: nat, k: nat)
    requires StopsAfter(w, s, step, limit, b) && first.Contains(s) && k <= b
    ensures FactsHold(w, CounterReport(w, first, step, limit), s, b, k, Iterate(w, s, step, k))
  {
  }

  lemma StepFacts(w: Width, step: int)
    ensures FactsHold(w, OnlyRange(Range(step, step)), 0, 0, 0, step)
  {
  }

  lemma LoopReportsFit(w: Width, first: Range, step: int, limit: int)
    requires InSigned(w, step)
    ensures ReportsFit(w, LoopReports(w, first, step, limit))
  {
    forall r: RegId
      ensures LoopReports(w, first, step, limit)(r).0.range.Fits(w)
      ensures LoopReports(w, first, step, limit)(r).1.range.Fits(w)
    {
      var report := LoopReports(w, first, step, limit)(r);
      if r == SUM {
        assert report == (CounterReport(w, first, step, limit), OnlyRange(Range(step, step)));
        assert report.0.range == FullRange(w) && report.1.range == Range(step, step);
      } else {
        assert report == (OnlyRange(Range(1, 0)), OnlyRange(Range(1, 0)));
      }
    }
  }

  /** The counter makes b iterations. */
  function LoopTrips(b: nat): Trips {
    (r: RegId) => (b, 0)
  }

  /** The reports are true of the clone, whether the counter makes a full turn or not. */
  lemma LoopReportsTrue(w: Width, first: Range, step: int, limit: int, env: Env, s: int, b: nat)
    requires StopsAfter(w, s, step, limit, b) && first.Contains(s)
    ensures ReportsTrue(Straightened(Loop(w, step, limit), LAYOUT), env, Args(s),
                        LoopReports(w, first, step, limit), LoopTrips(b))
    ensures ReportsFit(w, LoopReports(w, first, step, limit))
  {
    hide Run, Exec, Iterate, FactsHold;
    CloneOfLoop(w, step, limit);
    LoopReportsFit(w, first, step, limit);
    var g, reports := StraightLoop(w, step, limit), LoopReports(w, first, step, limit);
    forall m: nat, b1: BlockId, k1: nat, t: Local
      | ReachesInstr(g, env, Args(s), m, b1, k1, t) && g.blocks[b1].instrs[k1].WithOverflow?
      ensures CheckReported(w, g.blocks[b1].instrs[k1], t, reports, LoopTrips(b))
    {
      CounterAlways(w, step, limit, env, s, b, m);
      assert b1 == 1 && k1 == 0;
      var c := Run(g, env, Start(g, Args(s)), m);
      var k: nat :| InIteration(c, w, s, step, b, k);
      CounterFacts(w, first, step, limit, s, b, k);
      StepFacts(w, step);
    }
  }

  lemma LoopTurns(w: Width, first: Range, step: int, limit: int, b: nat)
    ensures NoFullTurns(w, LoopReports(w, first, step, limit), LoopTrips(b)) <==> b * Magnitude(step) < Modulus(w)
  {
    var reports := LoopReports(w, first, step, limit);
    assert reports(SUM) == (CounterReport(w, first, step, limit), OnlyRange(Range(step, step)));
    assert LoopTrips(b)(SUM) == (b, 0);
    forall r: RegId | r != SUM
      ensures reports(r) == (OnlyRange(Range(1, 0)), OnlyRange(Range(1, 0)))
    {
    }
  }

  // ----- what the pass does to the loop -----------------------------------------------------------

  ghost predicate Accepted(w: Width, first: Range, step: int, limit: int) {
    RangesProveNoOverflow(w, Add, true, BoundOverflowOperand(w, CounterReport(w, first, step, limit)), Range(step, step))
  }

  function LoopBounds(w: Width, first: Range, step: int, limit: int): Bounds {
    BoundsOf(w, LoopReports(w, first, step, limit))
  }

  lemma CheckFolded(w: Width, first: Range, step: int, limit: int)
    requires Accepted(w, first, step, limit)
    ensures var f := Loop(w, step, limit);
            && Removable(f, Straightened(f, LAYOUT), LoopBounds(w, first, step, limit)) == {SUM}
            && OverflowBits(f, {SUM}) == {BIT}
  {
    hide RangesProveNoOverflow, BoundOverflowOperand, Proved, Straightened, BoundsOf;
    var f, bounds := Loop(w, step, limit), LoopBounds(w, first, step, limit);
    var g := Straightened(f, LAYOUT);
    CloneOfLoop(w, step, limit);
    CheckProved(w, first, step, limit);
    assert Check(step) == f.blocks[1].instrs[0] && Check(step) in f.blocks[1].instrs;
    assert SUM in Removable(f, g, bounds);
    forall r | r in Removable(f, g, bounds)
      ensures r == SUM
    {
      var b, i :| b in f.blocks && i in f.blocks[b].instrs && b in g.blocks && Proved(f.width, i, bounds) && i.dst == r;
      ProvedIsCheck(f.width, i, bounds);
      OnlyCheck(w, step, limit, b, i);
    }
    LoopBits(w, step, limit);
  }

  lemma CheckProved(w: Width, first: Range, step: int, limit: int)
    requires Accepted(w, first, step, limit)
    ensures Proved(w, Check(step), LoopBounds(w, first, step, limit))
  {
    hide RangesProveNoOverflow;
    assert BoundOverflowOperand(w, OnlyRange(Range(step, step))) == Range(step, step);
  }

  lemma OnlyCheck(w: Width, step: int, limit: int, b: BlockId, i: Instr)
    requires b in Loop(w, step, limit).blocks && i in Loop(w, step, limit).blocks[b].instrs && i.WithOverflow?
    ensures b == 1 && i == Check(step)
  {
  }

  lemma LoopBits(w: Width, step: int, limit: int)
    ensures OverflowBits(Loop(w, step, limit), {SUM}) == {BIT}
  {
    assert Loop(w, step, limit).blocks[1].instrs[1] in Loop(w, step, limit).blocks[1].instrs;
  }

  lemma OptimizedLoop(w: Width, first: Range, step: int, limit: int)
    requires Accepted(w, first, step, limit)
    ensures var f := Loop(w, step, limit);
            Optimized(f, LAYOUT, LoopBounds(w, first, step, limit)) == FoldFalse(f, {BIT})
  {
    hide Removable, OverflowBits, FoldFalse, Straightened;
    CheckFolded(w, first, step, limit);
  }

  lemma FoldedTargets(w: Width, step: int, limit: int, b: BlockId, s: Local)
    requires b in FoldFalse(Loop(w, step, limit), {BIT}).blocks && b != 2
    ensures var g := FoldFalse(Loop(w, step, limit), {BIT});
            var c := Leave(g, g.blocks[b].term, s);
            c.Running? ==> c.block != 2
  {
    hide FoldInstrs, SubstAll;
  }

  /** The folded loop never calls its handler. */
  lemma {:induction false} HandlerNeverEntered(w: Width, step: int, limit: int, env: Env, args: Regs, n: nat)
    ensures var c := Run(FoldFalse(Loop(w, step, limit), {BIT}), env, Start(Loop(w, step, limit), args), n);
            c.Running? ==> c.block != 2
  {
    hide FoldFalse, Leave, ExecPrefix;
    if n > 0 {
      HandlerNeverEntered(w, step, limit, env, args, n - 1);
      var g := FoldFalse(Loop(w, step, limit), {BIT});
      var c := Run(g, env, Start(Loop(w, step, limit), args), n - 1);
      if c.Running? && c.block in g.blocks {
        var s := ExecPrefix(g.width, env, g.blocks[c.block].instrs, |g.blocks[c.block].instrs|, c.local);
        if s.Some? { FoldedTargets(w, step, limit, c.block, s.value); }
      }
    }
  }

  /** Before the first overflow the original reaches iteration k after 3k + 1 steps. */
  lemma {:induction false} ReachesIteration(w: Width, step: int, limit: int, env: Env, s: int, b: nat, k: nat)
    requires StopsAfter(w, s, step, limit, b) && k <= b
    requires forall l: nat :: l < k ==> !Overflows(w, Add, true, Iterate(w, s, step, l), step)
    ensures AtLoop(Run(Loop(w, step, limit), env, Start(Loop(w, step, limit), Args(s)), 3 * k + 1), Iterate(w, s, step, k))
  {
    hide Step, Iterate, Overflows;
    var f := Loop(w, step, limit);
    var c := Start(f, Args(s));
    if k == 0 {
      StartStep(f, w, step, limit, env, s);
      IterateNext(w, s, step, 0);
      assert Run(f, env, c, 1) == Step(f, env, Run(f, env, c, 0));
    } else {
      ReachesIteration(w, step, limit, env, s, b, k - 1);
      var n := 3 * (k - 1) + 1;
      var v, next := Iterate(w, s, step, k - 1), Iterate(w, s, step, k);
      IterateNext(w, s, step, k - 1);
      CheckStep(w, step, limit, env, Run(f, env, c, n), v);
      TestStep(f, w, step, limit, env, Run(f, env, c, n + 1), v, next);
      BodyStep(f, w, step, limit, env, Run(f, env, c, n + 2), next);
    }
  }

  /** The first iteration that overflows. */
  lemma FirstOverflow(w: Width, s: int, step: int, k: nat) returns (l: nat)
    requires Overflows(w, Add, true, Iterate(w, s, step, k), step)
    ensures l <= k && Overflows(w, Add, true, Iterate(w, s, step, l), step)
    ensures forall j: nat :: j < l ==> !Overflows(w, Add, true, Iterate(w, s, step, j), step)
  {
    hide Iterate, Overflows;
    l := 0;
    while !Overflows(w, Add, true, Iterate(w, s, step, l), step)
      invariant l <= k
      invariant forall j: nat :: j < l ==> !Overflows(w, Add, true, Iterate(w, s, step, j), step)
      decreases k - l
    {
      l := l + 1;
    }
  }

  /** Some run of the original calls the handler where the folded loop goes on. */
  lemma HandlerLost(w: Width, first: Range, step: int, limit: int, env: Env, s: int, b: nat, k: nat) returns (n: nat)
    requires StopsAfter(w, s, step, limit, b) && k <= b
    requires Overflows(w, Add, true, Iterate(w, s, step, k), step)
    requires Accepted(w, first, step, limit)
    ensures var f := Loop(w, step, limit);
            && !Run(f, env, Start(f, Args(s)), n).Stuck?
            && Run(Optimized(f, LAYOUT, LoopBounds(w, first, step, limit)), env, Start(f, Args(s)), n) !=
               Erase(Run(f, env, Start(f, Args(s)), n), {BIT})
  {
    hide Run, Iterate, Overflows, Optimized, FoldFalse, StopsAfter, Accepted, LoopBounds;
    var f := Loop(w, step, limit);
    var l := FirstOverflow(w, s, step, k);
    ReachesIteration(w, step, limit, env, s, b, l);
    n := 3 * l + 2;
    NextRun(f, env, Start(f, Args(s)), 3 * l + 1);
    CheckStep(w, step, limit, env, Run(f, env, Start(f, Args(s)), 3 * l + 1), Iterate(w, s, step, l));
    OptimizedLoop(w, first, step, limit);
    HandlerNeverEntered(w, step, limit, env, Args(s), n);
  }

  lemma LoopKept(w: Width, first: Range, step: int, limit: int, env: Env, s: int, b: nat, n: nat)
    requires StopsAfter(w, s, step, limit, b) && first.Contains(s)
    requires Accepted(w, first, step, limit)
    requires NoFullTurns(w, LoopReports(w, first, step, limit), LoopTrips(b))
    requires !Run(Loop(w, step, limit), env, Start(Loop(w, step, limit), Args(s)), n).Stuck?
    ensures var f := Loop(w, step, limit);
            Run(Optimized(f, LAYOUT, LoopBounds(w, first, step, limit)), env, Start(f, Args(s)), n) ==
            Erase(Run(f, env, Start(f, Args(s)), n), {BIT})
  {
    hide Run, WellFormed, SingleAssignment, ReportsTrue, NoFullTurns, ReportsFit, Straightened, Optimized,
         Accepted, BoundsOf, StopsAfter, LoopReports;
    LoopWellFormed(w, step, limit);
    LoopSingleAssignment(w, step, limit, s);
    LoopReportsTrue(w, first, step, limit, env, s, b);
    CheckFolded(w, first, step, limit);
    EliminationPreservesRuns(Loop(w, step, limit), LAYOUT, LoopReports(w, first, step, limit), LoopTrips(b), env, {},
                             Args(s), n);
  }

  /** The reports are true of the clone in any case; and once the decision accepts the check from
      them, the pass keeps every run of the loop if and only if the counter makes no full turn of the
      register. Otherwise a call of the handler is lost. */
  lemma LoopKeptExactly(w: Width, first: Range, step: int, limit: int, env: Env, s: int, b: nat)
    requires StopsAfter(w, s, step, limit, b) && first.Contains(s)
    requires Accepted(w, first, step, limit)
    ensures ReportsTrue(Straightened(Loop(w, step, limit), LAYOUT), env, Args(s),
                        LoopReports(w, first, step, limit), LoopTrips(b))
    ensures (forall n: nat :: var f := Loop(w, step, limit);
              !Run(f, env, Start(f, Args(s)), n).Stuck? ==>
                Run(Optimized(f, LAYOUT, LoopBounds(w, first, step, limit)), env, Start(f, Args(s)), n) ==
                Erase(Run(f, env, Start(f, Args(s)), n), {BIT}))
       <==> NoFullTurns(w, LoopReports(w, first, step, limit), LoopTrips(b))
  {
    hide Run, Optimized, Iterate, Overflows, RangesProveNoOverflow, BoundOverflowOperand, LoopBounds, Loop, FactsHold,
         ReportsTrue, NoFullTurns;
    LoopReportsTrue(w, first, step, limit, env, s, b);
    LoopTurns(w, first, step, limit, b);
    if b * Magnitude(step) < Modulus(w) {
      forall n: nat | !Run(Loop(w, step, limit), env, Start(Loop(w, step, limit), Args(s)), n).Stuck?
        ensures var f := Loop(w, step, limit);
                Run(Optimized(f, LAYOUT, LoopBounds(w, first, step, limit)), env, Start(f, Args(s)), n) ==
                Erase(Run(f, env, Start(f, Args(s)), n), {BIT})
      {
        LoopKept(w, first, step, limit, env, s, b, n);
      }
    } else {
      forall k: nat | k <= b
        ensures FactsHold(w, CounterReport(w, first, step, limit), s, b, k, Iterate(w, s, step, k))
      {
        CounterFacts(w, first, step, limit, s, b, k);
      }
      AcceptedExactly(w, CounterReport(w, first, step, limit), Range(step, step), s, step, b);
      var k: nat :| k <= b && Overflows(w, Add, true, Iterate(w, s, step, k), step);
      var n := HandlerLost(w, first, step, limit, env, s, b, k);
    }
  }

  /** For every width from 8 on, 32 included, the loop from 100u by -100u until 56u: all reports are
      true of the clone, the pass removes its check, and a call is lost. */
  lemma FullTurnLosesCall(w: Width, env: Env) returns (n: nat)
    requires w >= 8
    ensures var u := Pow2(w - 8);
            var first, f := Range(100 * u, 100 * u), Loop(w, -100 * u, 56 * u);
            && Accepted(w, first, -100 * u, 56 * u)
            && ReportsTrue(Straightened(f, LAYOUT), env, Args(100 * u), LoopReports(w, first, -100 * u, 56 * u), LoopTrips(3))
            && !Run(f, env, Start(f, Args(100 * u)), n).Stuck?
            && Run(Optimized(f, LAYOUT, LoopBounds(w, first, -100 * u, 56 * u)), env, Start(f, Args(100 * u)), n) !=
               Erase(Run(f, env, Start(f, Args(100 * u)), n), {BIT})
  {
    hide Run, Optimized, RangesProveNoOverflow, BoundOverflowOperand, LoopBounds, Loop, Overflows, ReportsTrue, Straightened,
         StopsAfter, Iterate, ReportedTruly;
    var u := Pow2(w - 8);
    FullTurnEscapes(w);
    TurnStops(w);
    LoopReportsTrue(w, Range(100 * u, 100 * u), -100 * u, 56 * u, env, 100 * u, 3);
    n := HandlerLost(w, Range(100 * u, 100 * u), -100 * u, 56 * u, env, 100 * u, 3, 2);
  }

  lemma TurnStops(w: Width)
    requires w >= 8
    ensures var u := Pow2(w - 8); StopsAfter(w, 100 * u, -100 * u, 56 * u, 3)
  {
    hide Wrap;
    var u := Pow2(w - 8);
    HighBits(w);
    WrapNear(w, 100 * u + 0 * (-100 * u));
    WrapNear(w, 100 * u + 1 * (-100 * u));
    WrapNear(w, 100 * u + 2 * (-100 * u));
    WrapNear(w, 100 * u + 3 * (-100 * u));
  }

  // ----- while (count--) --------------------------------------------------------------------------

  lemma CountdownStops(w: Width, s: int)
    requires 0 <= s <= SignedMax(w)
    ensures StopsAfter(w, s, -1, 0, s)
  {
    hide Iterate;
    forall k: nat | k <= s
      ensures Iterate(w, s, -1, k) == s - k
    {
      CountdownNeverOverflows(w, s, k);
    }
  }

  /** From any start known to be non-negative the pass folds the check of `count--`, and every run
      keeps its calls, its result and all registers but the folded bit. */
  lemma CountdownCheckRemoved(w: Width, env: Env, first: Range, s: int, n: nat)
    requires first.Fits(w) && first.lo >= 0 && first.Contains(s)
    requires !Run(Loop(w, -1, 0), env, Start(Loop(w, -1, 0), Args(s)), n).Stuck?
    ensures var f, bounds := Loop(w, -1, 0), LoopBounds(w, first, -1, 0);
            && Removable(f, Straightened(f, LAYOUT), bounds) == {SUM}
            && OverflowBits(f, {SUM}) == {BIT}
            && Run(Optimized(f, LAYOUT, bounds), env, Start(f, Args(s)), n) ==
               Erase(Run(f, env, Start(f, Args(s)), n), {BIT})
  {
    hide Run, Optimized, RangesProveNoOverflow, BoundOverflowOperand, LoopBounds, Loop, Removable, OverflowBits,
         Straightened, StopsAfter;
    CountdownRemovable(w, first);
    CountdownStops(w, s);
    CheckFolded(w, first, -1, 0);
    LoopTurns(w, first, -1, 0, s);
    LoopKept(w, first, -1, 0, env, s, s, n);
  }
}
