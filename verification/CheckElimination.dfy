/** Folding the overflow bits of removable checks to false in the original function, on the
    strength of bounds that were proved on the straightened clone only. */
module CheckElimination {
  import opened Options
  import opened ConstantRanges
  import opened EndpointBound
  import opened Ir
  import opened Straightening
  import opened Simulation
  import opened Folding

  /** `extractvalue %wo, 1` of a check in W. */
  predicate IsBitOf(i: Instr, W: set<RegId>) {
    i.ExtractValue? && i.index == 1 && i.agg.Reg? && i.agg.reg in W
  }

  /** The overflow bits of the checks in W. */
  function OverflowBits(f: Function, W: set<RegId>): set<RegId> {
    set b, i | b in f.blocks && i in f.blocks[b].instrs && IsBitOf(i, W) :: i.dst
  }

  // ----- which checks are removable -----------------------------------------------------------

  /** What the analyses report about the two operands of a check, named by its result register. */
  type Reports = RegId -> (Report, Report)

  /** The bounds the pass works with: `boundOverflowOperand` of each report. */
  function BoundsOf(w: Width, reports: Reports): Bounds {
    (r: RegId) => (BoundOverflowOperand(w, reports(r).0), BoundOverflowOperand(w, reports(r).1))
  }

  /** Bounds for the two operands of a check. */
  type Bounds = RegId -> (Range, Range)

  predicate Proved(w: Width, i: Instr, bounds: Bounds) {
    i.WithOverflow? && RangesProveNoOverflow(w, i.op, i.signed, bounds(i.dst).0, bounds(i.dst).1)
  }

  /** Checks whose twin survives in the clone g and is proved there. */
  function Removable(f: Function, g: Function, bounds: Bounds): set<RegId> {
    set b, i | b in f.blocks && i in f.blocks[b].instrs && b in g.blocks && Proved(f.width, i, bounds) :: i.dst
  }

  function Optimized(f: Function, layout: seq<BlockId>, bounds: Bounds): Function {
    FoldFalse(f, OverflowBits(f, Removable(f, Straightened(f, layout), bounds)))
  }

  /** The most iterations the reported recurrences of a check's operands make, by its result register. */
  type Trips = RegId -> (nat, nat)

  /** The only assumption on the analyses: on the runs of the clone their reports are true. */
  ghost predicate ReportsTrue(g: Function, env: Env, args: Regs, reports: Reports, trips: Trips) {
    forall m: nat, b: BlockId, k: nat, t: Local ::
      ReachesInstr(g, env, args, m, b, k, t) && g.blocks[b].instrs[k].WithOverflow? ==>
        CheckReported(g.width, g.blocks[b].instrs[k], t, reports, trips)
  }

  ghost predicate CheckReported(w: Width, i: Instr, t: Local, reports: Reports, trips: Trips)
    requires i.WithOverflow?
  {
    && OperandReported(w, ReadNum(i.lhs, t.regs), reports(i.dst).0, trips(i.dst).0)
    && OperandReported(w, ReadNum(i.rhs, t.regs), reports(i.dst).1, trips(i.dst).1)
  }

  ghost predicate OperandReported(w: Width, v: Option<int>, report: Report, trips: nat) {
    v.Some? ==> exists start: int, b: nat, k: nat :: FactsHold(w, report, start, b, k, v.value) && b <= trips
  }

  /** What the pass takes for granted and does not test. */
  ghost predicate NoFullTurns(w: Width, reports: Reports, trips: Trips) {
    forall r :: NoFullTurn(w, reports(r).0, trips(r).0) && NoFullTurn(w, reports(r).1, trips(r).1)
  }

  ghost predicate ReportsFit(w: Width, reports: Reports) {
    forall r :: reports(r).0.range.Fits(w) && reports(r).1.range.Fits(w)
  }

  /** Bounds that hold on the runs of the clone. */
  ghost predicate SoundOn(g: Function, env: Env, args: Regs, bounds: Bounds) {
    forall m: nat, b: BlockId, k: nat, t: Local ::
      ReachesInstr(g, env, args, m, b, k, t) && g.blocks[b].instrs[k].WithOverflow? ==>
        OperandsWithin(g.blocks[b].instrs[k], t, bounds)
  }

  lemma OperandBounded(w: Width, v: Option<int>, report: Report, trips: nat)
    requires OperandReported(w, v, report, trips) && NoFullTurn(w, report, trips)
    ensures v.Some? ==> BoundOverflowOperand(w, report).Contains(v.value)
  {
    hide FactsHold, BoundOverflowOperand, NoFullTurn;
    if v.Some? {
      var start: int, b: nat, k: nat :| FactsHold(w, report, start, b, k, v.value) && b <= trips;
      FewerIterations(w, report, b, trips);
      BoundIsSound(w, report, start, b, k, v.value);
    }
  }

  lemma CheckBounded(w: Width, i: Instr, t: Local, reports: Reports, trips: Trips)
    requires i.WithOverflow? && CheckReported(w, i, t, reports, trips) && NoFullTurns(w, reports, trips)
    ensures OperandsWithin(i, t, BoundsOf(w, reports))
  {
    hide OperandReported, BoundOverflowOperand, NoFullTurn;
    OperandBounded(w, ReadNum(i.lhs, t.regs), reports(i.dst).0, trips(i.dst).0);
    OperandBounded(w, ReadNum(i.rhs, t.regs), reports(i.dst).1, trips(i.dst).1);
  }

  /** True reports about the clone, without a full turn, make the bounds of the pass sound there. */
  lemma FactsMakeBoundsSound(g: Function, env: Env, args: Regs, reports: Reports, trips: Trips)
    requires ReportsTrue(g, env, args, reports, trips) && NoFullTurns(g.width, reports, trips)
    ensures SoundOn(g, env, args, BoundsOf(g.width, reports))
  {
    hide CheckReported, OperandsWithin, NoFullTurns, Run, Exec, BoundOverflowOperand;
    forall m: nat, b: BlockId, k: nat, t: Local
      | ReachesInstr(g, env, args, m, b, k, t) && g.blocks[b].instrs[k].WithOverflow?
      ensures OperandsWithin(g.blocks[b].instrs[k], t, BoundsOf(g.width, reports))
    {
      CheckBounded(g.width, g.blocks[b].instrs[k], t, reports, trips);
    }
  }

  lemma ReportsFitBounds(w: Width, reports: Reports)
    requires ReportsFit(w, reports)
    ensures BoundsFit(w, BoundsOf(w, reports))
  {
    hide BoundOverflowOperand;
    forall r
      ensures BoundOverflowOperand(w, reports(r).0).Fits(w) && BoundOverflowOperand(w, reports(r).1).Fits(w)
    {
      BoundFits(w, reports(r).0);
      BoundFits(w, reports(r).1);
    }
  }

  predicate OperandsWithin(i: Instr, t: Local, bounds: Bounds)
    requires i.WithOverflow?
  {
    && (ReadNum(i.lhs, t.regs).Some? ==> bounds(i.dst).0.Contains(ReadNum(i.lhs, t.regs).value))
    && (ReadNum(i.rhs, t.regs).Some? ==> bounds(i.dst).1.Contains(ReadNum(i.rhs, t.regs).value))
  }

  ghost predicate BoundsFit(w: Width, bounds: Bounds) {
    forall r :: bounds(r).0.Fits(w) && bounds(r).1.Fits(w)
  }

  // ----- static single assignment ------------------------------------------------------------

  /** Register r is defined by instruction k of block b, or by parameter -k-1 when k is negative. */
  predicate Defines(f: Function, b: BlockId, k: int, r: RegId) {
    b in f.blocks &&
    if k >= 0 then k < |f.blocks[b].instrs| && Dst(f.blocks[b].instrs[k]) == Some(r)
    else -k - 1 < |f.blocks[b].params| && f.blocks[b].params[-k - 1] == r
  }

  ghost predicate SingleAssignment(f: Function, args: Regs) {
    && (forall b, k, c, l, r :: Defines(f, b, k, r) && Defines(f, c, l, r) ==> b == c && k == l)
    && (forall b, k, r :: Defines(f, b, k, r) ==> r !in args)
  }

  /** What single assignment says about a set W of checks and the set E of their overflow bits. */
  ghost predicate DefinedAsMeant(b: Block, W: set<RegId>, E: set<RegId>) {
    && (forall r :: r in b.params ==> r !in W && r !in E)
    && (forall i :: i in b.instrs && Dst(i).Some? ==>
          && (Dst(i).value in W ==> i.WithOverflow?)
          && (Dst(i).value in E ==> IsBitOf(i, W)))
  }

  lemma DefinitionsFromSSA(f: Function, args: Regs, W: set<RegId>)
    requires SingleAssignment(f, args)
    requires forall r :: r in W ==> exists b, k :: Defines(f, b, k, r) && k >= 0 && f.blocks[b].instrs[k].WithOverflow?
    ensures forall b :: b in f.blocks ==> DefinedAsMeant(f.blocks[b], W, OverflowBits(f, W))
    ensures forall r :: r in OverflowBits(f, W) || r in W ==> r !in args
  {
    var E := OverflowBits(f, W);
    forall r | r in E
      ensures exists b, k :: Defines(f, b, k, r) && k >= 0 && IsBitOf(f.blocks[b].instrs[k], W)
    {
      var b, i :| b in f.blocks && i in f.blocks[b].instrs && IsBitOf(i, W) && i.dst == r;
      var k :| 0 <= k < |f.blocks[b].instrs| && f.blocks[b].instrs[k] == i;
      assert Defines(f, b, k, r);
    }
    forall b | b in f.blocks
      ensures DefinedAsMeant(f.blocks[b], W, E)
    {
      forall r | r in f.blocks[b].params
        ensures r !in W && r !in E
      {
        var p :| 0 <= p < |f.blocks[b].params| && f.blocks[b].params[p] == r;
        assert Defines(f, b, -p - 1, r);
      }
      forall i | i in f.blocks[b].instrs && Dst(i).Some?
        ensures Dst(i).value in W ==> i.WithOverflow?
        ensures Dst(i).value in E ==> IsBitOf(i, W)
      {
        var k :| 0 <= k < |f.blocks[b].instrs| && f.blocks[b].instrs[k] == i;
        assert Defines(f, b, k, Dst(i).value);
      }
    }
  }

  // ----- the overflow bits of removable checks are false ------------------------------------------

  /** The pairs computed by the checks in W carry a false bit. */
  ghost predicate PairsClean(regs: Regs, W: set<RegId>) {
    forall r :: r in W && r in regs ==> regs[r].Pair? && !regs[r].overflow
  }

  /** The check does not overflow on the operands it reads, if it is one of W. */
  predicate CheckHolds(w: Width, i: Instr, s: Local, W: set<RegId>) {
    i.WithOverflow? && i.dst in W && ReadNum(i.lhs, s.regs).Some? && ReadNum(i.rhs, s.regs).Some? ==>
      !Overflows(w, i.op, i.signed, ReadNum(i.lhs, s.regs).value, ReadNum(i.rhs, s.regs).value)
  }

  ghost predicate DefinesAsMeant(i: Instr, W: set<RegId>, E: set<RegId>) {
    Dst(i).Some? ==> (Dst(i).value in W ==> i.WithOverflow?) && (Dst(i).value in E ==> IsBitOf(i, W))
  }

  lemma PairsStayClean(w: Width, env: Env, i: Instr, s: Local, W: set<RegId>, E: set<RegId>)
    requires PairsClean(s.regs, W)
    requires DefinesAsMeant(i, W, E) && CheckHolds(w, i, s, W)
    requires Exec(w, env, i, s).Some?
    ensures PairsClean(Exec(w, env, i, s).value.regs, W)
  {
    hide Overflows, Wrap, Visible;
  }

  lemma BitIsFalse(w: Width, env: Env, i: Instr, s: Local, W: set<RegId>, E: set<RegId>)
    requires PairsClean(s.regs, W)
    requires DefinesAsMeant(i, W, E) && Erased(i, E)
    ensures YieldsFalse(w, env, i, s)
  {
  }

  ghost predicate ChecksHold(w: Width, env: Env, instrs: seq<Instr>, s: Local, W: set<RegId>) {
    forall k: nat :: k < |instrs| && ExecPrefix(w, env, instrs, k, s).Some? ==>
      CheckHolds(w, instrs[k], ExecPrefix(w, env, instrs, k, s).value, W)
  }

  lemma {:induction false} PrefixClean(w: Width, env: Env, instrs: seq<Instr>, k: nat, s: Local, W: set<RegId>, E: set<RegId>)
    requires k <= |instrs|
    requires forall i :: i in instrs ==> DefinesAsMeant(i, W, E)
    requires PairsClean(s.regs, W) && ChecksHold(w, env, instrs, s, W)
    requires ExecPrefix(w, env, instrs, k, s).Some?
    ensures PairsClean(ExecPrefix(w, env, instrs, k, s).value.regs, W)
  {
    hide Exec, PairsClean, DefinesAsMeant, CheckHolds;
    if k > 0 {
      PrefixClean(w, env, instrs, k - 1, s, W, E);
      var t := ExecPrefix(w, env, instrs, k - 1, s).value;
      assert CheckHolds(w, instrs[k - 1], t, W);
      PairsStayClean(w, env, instrs[k - 1], t, W, E);
    }
  }

  lemma {:induction false} BindClean(regs: Regs, params: seq<RegId>, vs: seq<Value>, W: set<RegId>)
    requires |params| == |vs|
    requires forall r :: r in params ==> r !in W
    requires PairsClean(regs, W)
    ensures PairsClean(Bind(regs, params, vs), W)
  {
    if params != [] {
      var n := |params| - 1;
      BindClean(regs, params[..n], vs[..n], W);
    }
  }

  ghost predicate CleanIn(c: Config, W: set<RegId>) {
    c.Running? ==> PairsClean(c.local.regs, W)
  }

  lemma EnterClean(f: Function, e: Edge, s: Local, W: set<RegId>, E: set<RegId>)
    requires forall b :: b in f.blocks ==> DefinedAsMeant(f.blocks[b], W, E)
    requires PairsClean(s.regs, W)
    ensures CleanIn(Enter(f, e, s), W)
  {
    hide PairsClean;
    var c := Enter(f, e, s);
    if c.Running? {
      BindClean(s.regs, f.blocks[e.target].params, ReadAll(e.args, s.regs).value, W);
    }
  }

  lemma LeaveClean(f: Function, t: Terminator, s: Local, W: set<RegId>, E: set<RegId>)
    requires forall b :: b in f.blocks ==> DefinedAsMeant(f.blocks[b], W, E)
    requires PairsClean(s.regs, W)
    ensures CleanIn(Leave(f, t, s), W)
  {
    hide PairsClean, Enter, DefinedAsMeant;
    match t {
      case Jump(e) => EnterClean(f, e, s, W, E);
      case CondBr(_, a, b) => EnterClean(f, a, s, W, E); EnterClean(f, b, s, W, E);
      case _ =>
    }
  }

  lemma StepClean(f: Function, env: Env, c: Config, W: set<RegId>, E: set<RegId>)
    requires forall b :: b in f.blocks ==> DefinedAsMeant(f.blocks[b], W, E)
    requires CleanIn(c, W)
    requires c.Running? && c.block in f.blocks ==> ChecksHold(f.width, env, f.blocks[c.block].instrs, c.local, W)
    ensures CleanIn(Step(f, env, c), W)
    ensures FalseAt(f, env, c, E)
  {
    hide Exec, PairsClean, Leave, ChecksHold, Erased, YieldsFalse, IsBitOf;
    if c.Running? && c.block in f.blocks {
      var b := f.blocks[c.block];
      assert DefinedAsMeant(b, W, E);
      MeantOneByOne(b, W, E);
      forall k: nat | k <= |b.instrs| && ExecPrefix(f.width, env, b.instrs, k, c.local).Some?
        ensures PairsClean(ExecPrefix(f.width, env, b.instrs, k, c.local).value.regs, W)
      {
        PrefixClean(f.width, env, b.instrs, k, c.local, W, E);
      }
      forall k: nat | k < |b.instrs| && ExecPrefix(f.width, env, b.instrs, k, c.local).Some? && Erased(b.instrs[k], E)
        ensures YieldsFalse(f.width, env, b.instrs[k], ExecPrefix(f.width, env, b.instrs, k, c.local).value)
      {
        BitIsFalse(f.width, env, b.instrs[k], ExecPrefix(f.width, env, b.instrs, k, c.local).value, W, E);
      }
      var s := ExecPrefix(f.width, env, b.instrs, |b.instrs|, c.local);
      if s.Some? {
        LeaveClean(f, b.term, s.value, W, E);
      }
    }
  }

  lemma MeantOneByOne(b: Block, W: set<RegId>, E: set<RegId>)
    requires DefinedAsMeant(b, W, E)
    ensures forall i :: i in b.instrs ==> DefinesAsMeant(i, W, E)
  {
  }

  // ----- whole runs ---------------------------------------------------------------------------------

  /** A removable check never overflows in the original, because the clone reads the same operands. */
  lemma RemovableChecksHold(f: Function, layout: seq<BlockId>, bounds: Bounds, env: Env, locals: set<RegId>, args: Regs, n: nat)
    requires WellFormed(f, locals) && IsLayout(f, layout) && SingleAssignment(f, args)
    requires BoundsFit(f.width, bounds)
    requires SoundOn(Straightened(f, layout), env, args, bounds)
    ensures var c := Run(f, env, Start(f, args), n);
            c.Running? && c.block in f.blocks ==>
              ChecksHold(f.width, env, f.blocks[c.block].instrs, c.local, Removable(f, Straightened(f, layout), bounds))
  {
    hide Exec, Overflows, RangesProveNoOverflow, WellFormed, Straightened, Run;
    var g := Straightened(f, layout);
    var W := Removable(f, g, bounds);
    var c := Run(f, env, Start(f, args), n);
    if c.Running? && c.block in f.blocks {
      var instrs := f.blocks[c.block].instrs;
      forall k: nat | k < |instrs| && ExecPrefix(f.width, env, instrs, k, c.local).Some?
        ensures CheckHolds(f.width, instrs[k], ExecPrefix(f.width, env, instrs, k, c.local).value, W)
      {
        var s := ExecPrefix(f.width, env, instrs, k, c.local).value;
        if instrs[k].WithOverflow? && instrs[k].dst in W {
          RemovableIsProved(f, g, bounds, args, c.block, k);
          OneCheckHolds(f, layout, bounds, env, locals, args, n, c.block, k, s);
        }
      }
    }
  }

  lemma RemovableIsProved(f: Function, g: Function, bounds: Bounds, args: Regs, b: BlockId, k: nat)
    requires SingleAssignment(f, args)
    requires b in f.blocks && k < |f.blocks[b].instrs|
    requires f.blocks[b].instrs[k].WithOverflow? && f.blocks[b].instrs[k].dst in Removable(f, g, bounds)
    ensures Proved(f.width, f.blocks[b].instrs[k], bounds)
  {
    hide RangesProveNoOverflow;
    var r := f.blocks[b].instrs[k].dst;
    var c, i :| c in f.blocks && i in f.blocks[c].instrs && c in g.blocks && Proved(f.width, i, bounds) && i.dst == r;
    var l :| 0 <= l < |f.blocks[c].instrs| && f.blocks[c].instrs[l] == i;
    assert Defines(f, b, k, r) && Defines(f, c, l, r);
  }

  lemma OneCheckHolds(f: Function, layout: seq<BlockId>, bounds: Bounds, env: Env, locals: set<RegId>, args: Regs,
                      n: nat, b: BlockId, k: nat, s: Local)
    requires WellFormed(f, locals) && IsLayout(f, layout)
    requires BoundsFit(f.width, bounds)
    requires SoundOn(Straightened(f, layout), env, args, bounds)
    requires ReachesInstr(f, env, args, n, b, k, s)
    requires Proved(f.width, f.blocks[b].instrs[k], bounds)
    ensures CheckHolds(f.width, f.blocks[b].instrs[k], s, {f.blocks[b].instrs[k].dst})
  {
    hide Exec, Overflows, RangesProveNoOverflow, Run, Straightened;
    var g, i := Straightened(f, layout), f.blocks[b].instrs[k];
    StraightenedIsClone(f, layout);
    var m, t := CheckOperandsTransfer(f, g, env, locals, args, n, b, k, s);
    assert OperandsWithin(i, t, bounds);
    var x, y := ReadNum(i.lhs, s.regs), ReadNum(i.rhs, s.regs);
    if x.Some? && y.Some? {
      assert bounds(i.dst).0.Fits(f.width) && bounds(i.dst).1.Fits(f.width);
      ProvedNeverOverflows(f.width, i.op, i.signed, bounds(i.dst).0, bounds(i.dst).1, x.value, y.value);
    }
  }

  lemma {:induction false} BitsFalseAlongRun(f: Function, layout: seq<BlockId>, bounds: Bounds, env: Env,
                                              locals: set<RegId>, args: Regs, n: nat)
    requires WellFormed(f, locals) && IsLayout(f, layout) && SingleAssignment(f, args)
    requires BoundsFit(f.width, bounds)
    requires SoundOn(Straightened(f, layout), env, args, bounds)
    ensures var W := Removable(f, Straightened(f, layout), bounds);
            CleanIn(Run(f, env, Start(f, args), n), W) && FalseAt(f, env, Run(f, env, Start(f, args), n), OverflowBits(f, W))
  {
    hide Step, Straightened, WellFormed, SoundOn, PairsClean, Removable, OverflowBits, ChecksHold, FalseAt,
         DefinedAsMeant, SingleAssignment, BoundsFit, IsLayout, Defines;
    var W := Removable(f, Straightened(f, layout), bounds);
    var E := OverflowBits(f, W);
    RemovableAreChecks(f, Straightened(f, layout), bounds);
    DefinitionsFromSSA(f, args, W);
    if n == 0 {
      StartClean(f, args, W);
    } else {
      var c := Run(f, env, Start(f, args), n - 1);
      BitsFalseAlongRun(f, layout, bounds, env, locals, args, n - 1);
      RemovableChecksHold(f, layout, bounds, env, locals, args, n - 1);
      StepClean(f, env, c, W, E);
    }
    RemovableChecksHold(f, layout, bounds, env, locals, args, n);
    StepClean(f, env, Run(f, env, Start(f, args), n), W, E);
  }

  lemma StartClean(f: Function, args: Regs, W: set<RegId>)
    requires forall r :: r in W ==> r !in args
    ensures CleanIn(Start(f, args), W)
  {
  }

  lemma MeantParamsKept(f: Function, W: set<RegId>, E: set<RegId>)
    requires forall b :: b in f.blocks ==> DefinedAsMeant(f.blocks[b], W, E)
    ensures ParamsKept(f, E)
  {
  }

  /** Folding every check that sound bounds prove leaves every run as it was. */
  lemma SoundBoundsPreserveRuns(f: Function, layout: seq<BlockId>, bounds: Bounds, env: Env,
                                locals: set<RegId>, args: Regs, n: nat)
    requires WellFormed(f, locals) && IsLayout(f, layout) && SingleAssignment(f, args)
    requires BoundsFit(f.width, bounds)
    requires SoundOn(Straightened(f, layout), env, args, bounds)
    requires !Run(f, env, Start(f, args), n).Stuck?
    ensures var E := OverflowBits(f, Removable(f, Straightened(f, layout), bounds));
            Run(Optimized(f, layout, bounds), env, Start(f, args), n) == Erase(Run(f, env, Start(f, args), n), E)
  {
    hide Step, Run, Straightened, WellFormed, SoundOn, FoldFalse, Removable, OverflowBits, FalseAt,
         DefinedAsMeant, SingleAssignment, BoundsFit, IsLayout, Defines, ParamsKept, CleanIn, ZeroedIn;
    var W := Removable(f, Straightened(f, layout), bounds);
    var E := OverflowBits(f, W);
    RemovableAreChecks(f, Straightened(f, layout), bounds);
    DefinitionsFromSSA(f, args, W);
    MeantParamsKept(f, W, E);
    forall m: nat | m < n
      ensures FalseAt(f, env, Run(f, env, Start(f, args), m), E)
    {
      BitsFalseAlongRun(f, layout, bounds, env, locals, args, m);
    }
    FoldingPreservesRun(f, env, args, E, n);
  }

  /** The pass: from true reports about the clone, without a full turn, folding every removable check
      at once leaves every run of the original as it was: the same blocks, the same handler calls and
      visible calls, the same result, and the same registers except the erased bits. */
  lemma EliminationPreservesRuns(f: Function, layout: seq<BlockId>, reports: Reports, trips: Trips, env: Env,
                                 locals: set<RegId>, args: Regs, n: nat)
    requires WellFormed(f, locals) && IsLayout(f, layout) && SingleAssignment(f, args)
    requires ReportsFit(f.width, reports)
    requires ReportsTrue(Straightened(f, layout), env, args, reports, trips) && NoFullTurns(f.width, reports, trips)
    requires !Run(f, env, Start(f, args), n).Stuck?
    ensures var bounds := BoundsOf(f.width, reports);
            var E := OverflowBits(f, Removable(f, Straightened(f, layout), bounds));
            Run(Optimized(f, layout, bounds), env, Start(f, args), n) == Erase(Run(f, env, Start(f, args), n), E)
  {
    hide Run, Straightened, WellFormed, ReportsTrue, NoFullTurns, SoundOn, Optimized, OverflowBits, Removable,
         ReportsFit, BoundsFit, IsLayout, SingleAssignment, Clone, BoundsOf;
    var g := Straightened(f, layout);
    WellFormedIsClosed(f, locals);
    StraightenedIsClone(f, layout);
    CloneFacts(f, g, f.entry);
    ReportsFitBounds(f.width, reports);
    FactsMakeBoundsSound(g, env, args, reports, trips);
    SoundBoundsPreserveRuns(f, layout, BoundsOf(f.width, reports), env, locals, args, n);
  }

  lemma RemovableAreChecks(f: Function, g: Function, bounds: Bounds)
    ensures forall r :: r in Removable(f, g, bounds) ==>
      exists b, k :: Defines(f, b, k, r) && k >= 0 && f.blocks[b].instrs[k].WithOverflow?
  {
    forall r | r in Removable(f, g, bounds)
      ensures exists b, k :: Defines(f, b, k, r) && k >= 0 && f.blocks[b].instrs[k].WithOverflow?
    {
      var b, i :| b in f.blocks && i in f.blocks[b].instrs && Proved(f.width, i, bounds) && i.dst == r;
      var k :| 0 <= k < |f.blocks[b].instrs| && f.blocks[b].instrs[k] == i;
      ProvedIsCheck(f.width, i, bounds);
      assert Defines(f, b, k, r);
    }
  }

  lemma ProvedIsCheck(w: Width, i: Instr, bounds: Bounds)
    requires Proved(w, i, bounds)
    ensures i.WithOverflow? && Dst(i) == Some(i.dst)
  {
  }

  // ----- nothing is missed ---------------------------------------------------------------------------

  /** A check is removable if and only if its twin survives in the clone and no two values within the
      bounds of its operands overflow. */
  lemma RemovableExactly(f: Function, g: Function, bounds: Bounds, args: Regs, b: BlockId, i: Instr)
    requires SingleAssignment(f, args) && BoundsFit(f.width, bounds)
    requires b in f.blocks && i in f.blocks[b].instrs && i.WithOverflow? && !(i.op == Mul && i.signed)
    requires !bounds(i.dst).0.IsEmpty() && !bounds(i.dst).1.IsEmpty()
    ensures i.dst in Removable(f, g, bounds) <==>
      b in g.blocks && forall x, y :: bounds(i.dst).0.Contains(x) && bounds(i.dst).1.Contains(y) ==>
                                        !Overflows(f.width, i.op, i.signed, x, y)
  {
    hide RangesProveNoOverflow, Overflows;
    assert bounds(i.dst).0.Fits(f.width) && bounds(i.dst).1.Fits(f.width);
    DecisionIsExact(f.width, i.op, i.signed, bounds(i.dst).0, bounds(i.dst).1);
    RemovableWhere(f, g, bounds, args, b, i);
  }

  lemma RemovableWhere(f: Function, g: Function, bounds: Bounds, args: Regs, b: BlockId, i: Instr)
    requires SingleAssignment(f, args)
    requires b in f.blocks && i in f.blocks[b].instrs && i.WithOverflow?
    ensures i.dst in Removable(f, g, bounds) <==>
            b in g.blocks && RangesProveNoOverflow(f.width, i.op, i.signed, bounds(i.dst).0, bounds(i.dst).1)
  {
    hide RangesProveNoOverflow;
    if i.dst in Removable(f, g, bounds) {
      var c, x :| c in f.blocks && x in f.blocks[c].instrs && c in g.blocks && Proved(f.width, x, bounds) && x.dst == i.dst;
      var k :| 0 <= k < |f.blocks[b].instrs| && f.blocks[b].instrs[k] == i;
      var l :| 0 <= l < |f.blocks[c].instrs| && f.blocks[c].instrs[l] == x;
      assert Defines(f, b, k, i.dst) && Defines(f, c, l, i.dst);
    }
  }

  /** A signed multiplication is never removed. */
  lemma SignedProductsStay(f: Function, g: Function, bounds: Bounds, args: Regs, b: BlockId, i: Instr)
    requires SingleAssignment(f, args)
    requires b in f.blocks && i in f.blocks[b].instrs && i.WithOverflow? && i.op == Mul && i.signed
    ensures i.dst !in Removable(f, g, bounds)
  {
    RemovableWhere(f, g, bounds, args, b, i);
  }

  /** After the pass no instruction extracts the overflow bit of a removable check any more. */
  lemma NoBitLeft(f: Function, layout: seq<BlockId>, bounds: Bounds, b: BlockId, x: Instr)
    requires b in Optimized(f, layout, bounds).blocks && x in Optimized(f, layout, bounds).blocks[b].instrs
    requires x.ExtractValue? && x.index == 1 && x.agg.Reg?
    ensures x.agg.reg !in Removable(f, Straightened(f, layout), bounds)
  {
    hide Removable, Straightened, FoldInstrs;
    var W := Removable(f, Straightened(f, layout), bounds);
    var i := FoldedInstr(f.blocks[b].instrs, OverflowBits(f, W), x);
    assert i.ExtractValue? && i.index == 1 && i.agg == x.agg;
    assert x.agg.reg in W <==> IsBitOf(i, W);
  }
}
