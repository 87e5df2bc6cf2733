/** Replacing registers by false. `FoldFalse` is the rewrite both passes end with
    (`replaceAllUsesWith(false)` and `eraseFromParent`); it is right whenever every erased
    definition produces false in the runs of the original. */
module Folding {
  import opened Options
  import opened ConstantRanges
  import opened Ir

  function Subst(o: Operand, E: set<RegId>): Operand {
    if o.Reg? && o.reg in E then Lit(Num(0)) else o
  }

  function SubstAll(os: seq<Operand>, E: set<RegId>): (r: seq<Operand>)
    ensures |r| == |os|
    ensures forall k :: 0 <= k < |os| ==> r[k] == Subst(os[k], E)
  {
    seq(|os|, k requires 0 <= k < |os| => Subst(os[k], E))
  }

  function SubstInstr(i: Instr, E: set<RegId>): Instr {
    match i
    case Arith(d, op, a, b) => Arith(d, op, Subst(a, E), Subst(b, E))
    case CompareEq(d, a, b) => CompareEq(d, Subst(a, E), Subst(b, E))
    case CompareLess(d, a, b) => CompareLess(d, Subst(a, E), Subst(b, E))
    case WithOverflow(d, op, signed, a, b) => WithOverflow(d, op, signed, Subst(a, E), Subst(b, E))
    case ExtractValue(d, agg, index) => ExtractValue(d, Subst(agg, E), index)
    case Call(d, callee, args) => Call(d, callee, SubstAll(args, E))
  }

  function SubstEdge(e: Edge, E: set<RegId>): Edge {
    Edge(e.target, SubstAll(e.args, E))
  }

  function SubstTerm(t: Terminator, E: set<RegId>): Terminator {
    match t
    case Jump(e) => Jump(SubstEdge(e, E))
    case CondBr(c, a, b) => CondBr(Subst(c, E), SubstEdge(a, E), SubstEdge(b, E))
    case Ret(o) => Ret(Subst(o, E))
    case Unreachable => Unreachable
  }

  predicate Erased(i: Instr, E: set<RegId>) {
    Dst(i).Some? && Dst(i).value in E
  }

  function FoldInstrs(instrs: seq<Instr>, E: set<RegId>): seq<Instr> {
    if instrs == [] then []
    else
      var init, last := FoldInstrs(instrs[..|instrs| - 1], E), instrs[|instrs| - 1];
      if Erased(last, E) then init else init + [SubstInstr(last, E)]
  }

  function FoldBlock(b: Block, E: set<RegId>): Block {
    Block(b.params, FoldInstrs(b.instrs, E), SubstTerm(b.term, E))
  }

  /** Replace all uses of the registers in E by false and erase their definitions. */
  function FoldFalse(f: Function, E: set<RegId>): Function {
    f.(blocks := map b | b in f.blocks :: FoldBlock(f.blocks[b], E))
  }

  /** Whatever is in the result was in the original, and was not erased. */
  lemma {:induction false} FoldedInstr(instrs: seq<Instr>, E: set<RegId>, x: Instr) returns (i: Instr)
    requires x in FoldInstrs(instrs, E)
    ensures i in instrs && !Erased(i, E) && x == SubstInstr(i, E)
  {
    var n := |instrs| - 1;
    if !Erased(instrs[n], E) && x == SubstInstr(instrs[n], E) {
      i := instrs[n];
    } else {
      i := FoldedInstr(instrs[..n], E, x);
    }
  }

  // ----- one instruction -----------------------------------------------------------------------

  function Without(s: Local, E: set<RegId>): Local {
    Local(s.regs - E, s.trace)
  }

  function Erase(c: Config, E: set<RegId>): Config {
    if c.Running? then Running(c.block, Without(c.local, E)) else c
  }

  /** Erased registers that have been computed are false. */
  ghost predicate Zeroed(regs: Regs, E: set<RegId>) {
    forall r :: r in E && r in regs ==> regs[r] == Num(0)
  }

  lemma FoldRead(o: Operand, regs: Regs, E: set<RegId>)
    requires Zeroed(regs, E)
    requires Read(o, regs).Some?
    ensures Read(Subst(o, E), regs - E) == Read(o, regs)
  {
  }

  lemma {:induction false} FoldReadAll(os: seq<Operand>, regs: Regs, E: set<RegId>)
    requires Zeroed(regs, E)
    requires ReadAll(os, regs).Some?
    ensures ReadAll(SubstAll(os, E), regs - E) == ReadAll(os, regs)
  {
    if os != [] {
      var n := |os| - 1;
      FoldReadAll(os[..n], regs, E);
      FoldRead(os[n], regs, E);
      assert SubstAll(os, E)[..n] == SubstAll(os[..n], E);
    }
  }

  lemma UpdateWithout(regs: Regs, E: set<RegId>, r: RegId, v: Value)
    ensures r !in E ==> regs[r := v] - E == (regs - E)[r := v]
    ensures r in E ==> regs[r := v] - E == regs - E
  {
  }

  lemma FoldExec(w: Width, env: Env, i: Instr, s: Local, E: set<RegId>)
    requires Zeroed(s.regs, E)
    requires Exec(w, env, i, s).Some? && !Erased(i, E)
    ensures Exec(w, env, SubstInstr(i, E), Without(s, E)) == Some(Without(Exec(w, env, i, s).value, E))
    ensures Zeroed(Exec(w, env, i, s).value.regs, E)
  {
    hide Overflows, Wrap, Visible, WithOverflowValue, Subst, SubstAll;
    forall o | o in Uses(i) && Read(o, s.regs).Some?
      ensures Read(Subst(o, E), s.regs - E) == Read(o, s.regs)
    {
      FoldRead(o, s.regs, E);
    }
    var t := Exec(w, env, i, s).value;
    if i.Call? {
      FoldReadAll(i.args, s.regs, E);
      UpdateWithout(s.regs, E, i.dst, env(Visible(t.trace)));
    } else {
      UpdateWithout(s.regs, E, i.dst, t.regs[i.dst]);
    }
  }

  /** What erasing instruction i needs: it only defines its register, and defines it as false. */
  ghost predicate YieldsFalse(w: Width, env: Env, i: Instr, s: Local) {
    !i.Call? && (Exec(w, env, i, s).Some? ==> Exec(w, env, i, s).value.regs[i.dst] == Num(0))
  }

  lemma ErasedExec(w: Width, env: Env, i: Instr, s: Local, E: set<RegId>)
    requires Zeroed(s.regs, E)
    requires Erased(i, E) && YieldsFalse(w, env, i, s)
    requires Exec(w, env, i, s).Some?
    ensures Without(Exec(w, env, i, s).value, E) == Without(s, E)
    ensures Zeroed(Exec(w, env, i, s).value.regs, E)
  {
    hide Overflows, Wrap, WithOverflowValue;
    var t := Exec(w, env, i, s).value;
    UpdateWithout(s.regs, E, i.dst, t.regs[i.dst]);
  }

  // ----- one block -------------------------------------------------------------------------------

  /** Every erased instruction the block runs from s yields false. */
  ghost predicate ErasedAreFalse(w: Width, env: Env, instrs: seq<Instr>, s: Local, E: set<RegId>) {
    forall k: nat :: k < |instrs| && ExecPrefix(w, env, instrs, k, s).Some? && Erased(instrs[k], E) ==>
      YieldsFalse(w, env, instrs[k], ExecPrefix(w, env, instrs, k, s).value)
  }

  lemma {:induction false} FoldPrefix(w: Width, env: Env, instrs: seq<Instr>, k: nat, s: Local, E: set<RegId>)
    requires k <= |instrs|
    requires Zeroed(s.regs, E)
    requires ErasedAreFalse(w, env, instrs, s, E)
    requires ExecPrefix(w, env, instrs, k, s).Some?
    ensures Zeroed(ExecPrefix(w, env, instrs, k, s).value.regs, E)
    ensures ExecAll(w, env, FoldInstrs(instrs[..k], E), Without(s, E)) == Some(Without(ExecPrefix(w, env, instrs, k, s).value, E))
  {
    hide Exec, Zeroed, YieldsFalse, SubstInstr, Erased;
    if k == 0 {
      assert instrs[..k] == [];
    } else {
      var i := instrs[k - 1];
      FoldPrefix(w, env, instrs, k - 1, s, E);
      var t := ExecPrefix(w, env, instrs, k - 1, s).value;
      assert instrs[..k][..k - 1] == instrs[..k - 1];
      if Erased(i, E) {
        ErasedExec(w, env, i, t, E);
      } else {
        FoldExec(w, env, i, t, E);
        ExecSnoc(w, env, FoldInstrs(instrs[..k - 1], E), SubstInstr(i, E), Without(s, E));
      }
    }
  }

  function ExecAll(w: Width, env: Env, instrs: seq<Instr>, s: Local): Option<Local> {
    ExecPrefix(w, env, instrs, |instrs|, s)
  }

  lemma {:induction false} PrefixOfAppend(w: Width, env: Env, instrs: seq<Instr>, i: Instr, k: nat, s: Local)
    requires k <= |instrs|
    ensures ExecPrefix(w, env, instrs + [i], k, s) == ExecPrefix(w, env, instrs, k, s)
  {
    hide Exec;
    if k > 0 { PrefixOfAppend(w, env, instrs, i, k - 1, s); }
  }

  lemma ExecSnoc(w: Width, env: Env, instrs: seq<Instr>, i: Instr, s: Local)
    ensures ExecAll(w, env, instrs + [i], s) ==
            var t := ExecAll(w, env, instrs, s); if t.Some? then Exec(w, env, i, t.value) else None
  {
    hide Exec;
    PrefixOfAppend(w, env, instrs, i, |instrs|, s);
  }

  // ----- one step ----------------------------------------------------------------------------------

  /** Block parameters are never erased. */
  ghost predicate ParamsKept(f: Function, E: set<RegId>) {
    forall b, r :: b in f.blocks && r in f.blocks[b].params ==> r !in E
  }

  lemma {:induction false} BindWithout(regs: Regs, params: seq<RegId>, vs: seq<Value>, E: set<RegId>)
    requires |params| == |vs|
    requires forall r :: r in params ==> r !in E
    requires Zeroed(regs, E)
    ensures Bind(regs, params, vs) - E == Bind(regs - E, params, vs)
    ensures Zeroed(Bind(regs, params, vs), E)
  {
    if params != [] {
      var n := |params| - 1;
      BindWithout(regs, params[..n], vs[..n], E);
      UpdateWithout(Bind(regs, params[..n], vs[..n]), E, params[n], vs[n]);
    }
  }

  ghost predicate ZeroedIn(c: Config, E: set<RegId>) {
    c.Running? ==> Zeroed(c.local.regs, E)
  }

  lemma FoldEnter(f: Function, e: Edge, s: Local, E: set<RegId>)
    requires ParamsKept(f, E) && Zeroed(s.regs, E)
    requires !Enter(f, e, s).Stuck?
    ensures Enter(FoldFalse(f, E), SubstEdge(e, E), Without(s, E)) == Erase(Enter(f, e, s), E)
    ensures ZeroedIn(Enter(f, e, s), E)
  {
    hide Zeroed, SubstAll, FoldInstrs, SubstTerm;
    FoldReadAll(e.args, s.regs, E);
    BindWithout(s.regs, f.blocks[e.target].params, ReadAll(e.args, s.regs).value, E);
    assert FoldFalse(f, E).blocks[e.target].params == f.blocks[e.target].params;
    assert |SubstAll(e.args, E)| == |e.args|;
  }

  lemma FoldLeave(f: Function, t: Terminator, s: Local, E: set<RegId>)
    requires ParamsKept(f, E) && Zeroed(s.regs, E)
    requires !Leave(f, t, s).Stuck?
    ensures Leave(FoldFalse(f, E), SubstTerm(t, E), Without(s, E)) == Erase(Leave(f, t, s), E)
    ensures ZeroedIn(Leave(f, t, s), E)
  {
    hide Zeroed, Enter, FoldFalse, SubstEdge, ParamsKept, Subst;
    match t {
      case Jump(e) => FoldEnter(f, e, s, E);
      case CondBr(cond, a, b) =>
        FoldRead(cond, s.regs, E);
        FoldEnter(f, if ReadNum(cond, s.regs).value != 0 then a else b, s, E);
      case Ret(o) => FoldRead(o, s.regs, E);
      case Unreachable =>
    }
  }

  /** The block the configuration is at meets the condition on erased instructions. */
  ghost predicate FalseAt(f: Function, env: Env, c: Config, E: set<RegId>) {
    c.Running? && c.block in f.blocks ==> ErasedAreFalse(f.width, env, f.blocks[c.block].instrs, c.local, E)
  }

  lemma FoldStep(f: Function, env: Env, c: Config, E: set<RegId>)
    requires ParamsKept(f, E) && ZeroedIn(c, E) && FalseAt(f, env, c, E)
    requires !Step(f, env, c).Stuck?
    ensures Step(FoldFalse(f, E), env, Erase(c, E)) == Erase(Step(f, env, c), E)
    ensures ZeroedIn(Step(f, env, c), E)
  {
    hide Zeroed, Leave, SubstTerm, ErasedAreFalse, Exec, FoldInstrs;
    if c.Running? {
      var b := f.blocks[c.block];
      var n := |b.instrs|;
      FoldPrefix(f.width, env, b.instrs, n, c.local, E);
      assert b.instrs[..n] == b.instrs;
      FoldLeave(f, b.term, ExecPrefix(f.width, env, b.instrs, n, c.local).value, E);
    }
  }

  // ----- whole runs ------------------------------------------------------------------------------------

  /** If erased definitions yield false along the run, the folded function runs the same: the same
      blocks, trace and result, and the same registers except the erased ones. */
  lemma {:induction false} FoldingPreservesRun(f: Function, env: Env, args: Regs, E: set<RegId>, n: nat)
    requires ParamsKept(f, E)
    requires forall r :: r in E ==> r !in args
    requires forall m: nat :: m < n ==> FalseAt(f, env, Run(f, env, Start(f, args), m), E)
    requires !Run(f, env, Start(f, args), n).Stuck?
    ensures Run(FoldFalse(f, E), env, Start(f, args), n) == Erase(Run(f, env, Start(f, args), n), E)
    ensures ZeroedIn(Run(f, env, Start(f, args), n), E)
  {
    hide Step, FoldFalse, FalseAt;
    if n == 0 {
      assert args - E == args;
    } else {
      var c := Run(f, env, Start(f, args), n - 1);
      StuckStays(f, env, c);
      FoldingPreservesRun(f, env, args, E, n - 1);
      FoldStep(f, env, c, E);
    }
  }

  lemma StuckStays(f: Function, env: Env, c: Config)
    ensures c.Stuck? ==> Step(f, env, c).Stuck?
  {
  }

  // ----- folding one register at a time ------------------------------------------------------------

  lemma SubstTwice(o: Operand, E: set<RegId>, d: RegId)
    ensures Subst(Subst(o, E), {d}) == Subst(o, E + {d})
  {
  }

  lemma SubstAllTwice(os: seq<Operand>, E: set<RegId>, d: RegId)
    ensures SubstAll(SubstAll(os, E), {d}) == SubstAll(os, E + {d})
  {
    forall k | 0 <= k < |os|
      ensures SubstAll(SubstAll(os, E), {d})[k] == SubstAll(os, E + {d})[k]
    {
      SubstTwice(os[k], E, d);
    }
  }

  lemma SubstInstrTwice(i: Instr, E: set<RegId>, d: RegId)
    ensures SubstInstr(SubstInstr(i, E), {d}) == SubstInstr(i, E + {d})
    ensures Erased(SubstInstr(i, E), {d}) == Erased(i, {d})
  {
    hide Subst, SubstAll;
    forall o: Operand
      ensures Subst(Subst(o, E), {d}) == Subst(o, E + {d})
    {
      SubstTwice(o, E, d);
    }
    if i.Call? { SubstAllTwice(i.args, E, d); }
  }

  lemma {:induction false} FoldInstrsTwice(instrs: seq<Instr>, E: set<RegId>, d: RegId)
    ensures FoldInstrs(FoldInstrs(instrs, E), {d}) == FoldInstrs(instrs, E + {d})
  {
    hide SubstInstr;
    if instrs != [] {
      var n := |instrs| - 1;
      var init, last := FoldInstrs(instrs[..n], E), instrs[n];
      FoldInstrsTwice(instrs[..n], E, d);
      SubstInstrTwice(last, E, d);
      assert (init + [SubstInstr(last, E)])[..|init|] == init;
    }
  }

  lemma SubstTermTwice(t: Terminator, E: set<RegId>, d: RegId)
    ensures SubstTerm(SubstTerm(t, E), {d}) == SubstTerm(t, E + {d})
  {
    hide Subst, SubstAll;
    forall o: Operand
      ensures Subst(Subst(o, E), {d}) == Subst(o, E + {d})
    {
      SubstTwice(o, E, d);
    }
    match t {
      case Jump(e) => SubstAllTwice(e.args, E, d);
      case CondBr(c, a, b) => SubstAllTwice(a.args, E, d); SubstAllTwice(b.args, E, d);
      case _ =>
    }
  }

  lemma FoldFalseTwice(f: Function, E: set<RegId>, d: RegId)
    ensures FoldFalse(FoldFalse(f, E), {d}) == FoldFalse(f, E + {d})
  {
    hide FoldInstrs, SubstTerm;
    forall b | b in f.blocks
      ensures FoldBlock(FoldBlock(f.blocks[b], E), {d}) == FoldBlock(f.blocks[b], E + {d})
    {
      FoldInstrsTwice(f.blocks[b].instrs, E, d);
      SubstTermTwice(f.blocks[b].term, E, d);
    }
  }

  lemma {:induction false} FoldNoInstrs(instrs: seq<Instr>)
    ensures FoldInstrs(instrs, {}) == instrs
  {
    if instrs != [] {
      FoldNoInstrs(instrs[..|instrs| - 1]);
      var i := instrs[|instrs| - 1];
      if i.Call? { assert SubstAll(i.args, {}) == i.args; }
    }
  }

  lemma FoldNothing(f: Function)
    ensures FoldFalse(f, {}) == f
  {
    forall b | b in f.blocks
      ensures FoldBlock(f.blocks[b], {}) == f.blocks[b]
    {
      FoldNoInstrs(f.blocks[b].instrs);
      forall os: seq<Operand>
        ensures SubstAll(os, {}) == os
      {
      }
    }
  }
}
