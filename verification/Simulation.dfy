/** The straightened clone simulates the original: until the original aborts, it visits the same
    non-handler blocks with the same registers and the same visible calls. */
module Simulation {
  import opened Options
  import opened ConstantRanges
  import opened Ir
  import opened Straightening

  /** A branch the pass straightens, and the handler it guards. */
  ghost predicate CheckBranch(f: Function, b: BlockId) {
    HasCheck(f, b) && GuardOf(f, b).Some?
  }

  ghost predicate CheckHandler(f: Function, h: BlockId) {
    exists b :: CheckBranch(f, b) && GuardOf(f, b).value.handler.target == h
  }

  /** Inside a handler: UBSan calls, and temporaries of its own (`locals`). */
  predicate QuietInstr(i: Instr, locals: set<RegId>) {
    if i.Call? then IsUBSanSite(i.callee) else !i.WithOverflow? && i.dst in locals
  }

  /** A handler aborts, or goes where its branch would have gone. */
  ghost predicate HandlerOk(f: Function, b: BlockId, locals: set<RegId>)
    requires CheckBranch(f, b)
  {
    var guard := GuardOf(f, b).value;
    var h := f.blocks[guard.handler.target];
    && h.params == []
    && (forall i :: i in h.instrs ==> QuietInstr(i, locals))
    && (h.term == Unreachable || h.term == Jump(guard.cont))
  }

  predicate PlainInstr(i: Instr, locals: set<RegId>) {
    !Mentions(Uses(i), locals) && (Dst(i).Some? ==> Dst(i).value !in locals)
  }

  /** Handler temporaries are neither read nor written outside handlers. */
  predicate PlainBlock(b: Block, locals: set<RegId>) {
    && (forall r :: r in b.params ==> r !in locals)
    && (forall i :: i in b.instrs ==> PlainInstr(i, locals))
    && !Mentions(TermUses(b.term), locals)
  }

  /** The shape UBSan code generation gives to checks and handlers. */
  ghost predicate WellFormed(f: Function, locals: set<RegId>) {
    && Closed(f)
    && (forall b {:trigger HandlerOk(f, b, locals)} :: CheckBranch(f, b) ==> HandlerOk(f, b, locals))
    && (forall b {:trigger PlainBlock(f.blocks[b], locals)} :: b in f.blocks && !CheckHandler(f, b) ==> PlainBlock(f.blocks[b], locals))
    && (forall p, e :: p in f.blocks && e in Edges(f.blocks[p].term) && CheckHandler(f, e.target) ==>
          CheckBranch(f, p) && GuardOf(f, p).value.handler.target == e.target)
  }

  // ----- agreement outside the handler temporaries --------------------------------------------

  ghost predicate Agree(locals: set<RegId>, s: Local, t: Local) {
    s.regs - locals == t.regs - locals && Visible(s.trace) == Visible(t.trace)
  }

  lemma SameRegister(locals: set<RegId>, r: Regs, q: Regs, x: RegId)
    requires r - locals == q - locals
    requires x !in locals
    ensures x in r <==> x in q
    ensures x in r ==> r[x] == q[x]
  {
    assert x in r <==> x in r - locals;
    assert x in q <==> x in q - locals;
    if x in r { assert (r - locals)[x] == r[x] && (q - locals)[x] == q[x]; }
  }

  lemma SameRead(locals: set<RegId>, r: Regs, q: Regs, os: seq<Operand>, o: Operand)
    requires r - locals == q - locals
    requires o in os && !Mentions(os, locals)
    ensures Read(o, r) == Read(o, q)
  {
    if o.Reg? { SameRegister(locals, r, q, o.reg); }
  }

  lemma {:induction false} SameReadAll(locals: set<RegId>, r: Regs, q: Regs, os: seq<Operand>)
    requires r - locals == q - locals
    requires !Mentions(os, locals)
    ensures ReadAll(os, r) == ReadAll(os, q)
  {
    if os != [] {
      var init := os[..|os| - 1];
      assert forall o :: o in init ==> o in os;
      SameReadAll(locals, r, q, init);
      SameRead(locals, r, q, os, os[|os| - 1]);
    }
  }

  lemma VisibleAppend(t: Trace, e: Event)
    ensures Visible(t + [e]) == if IsUBSanSite(e.callee) then Visible(t) else Visible(t) + [e]
  {
    assert (t + [e])[..|t|] == t;
  }

  lemma UpdateBoth(locals: set<RegId>, r: Regs, q: Regs, x: RegId, v: Value)
    requires r - locals == q - locals
    ensures r[x := v] - locals == q[x := v] - locals
  {
    forall y | y !in locals
      ensures y in r <==> y in q
      ensures y in r ==> r[y] == q[y]
    {
      SameRegister(locals, r, q, y);
    }
  }

  lemma UpdateLocal(locals: set<RegId>, r: Regs, x: RegId, v: Value)
    requires x in locals
    ensures r[x := v] - locals == r - locals
  {
  }

  ghost predicate BothAgree(locals: set<RegId>, s: Option<Local>, t: Option<Local>) {
    (s.None? && t.None?) || (s.Some? && t.Some? && Agree(locals, s.value, t.value))
  }

  lemma ExecAgrees(w: Width, env: Env, i: Instr, locals: set<RegId>, s: Local, t: Local)
    requires PlainInstr(i, locals)
    requires Agree(locals, s, t)
    ensures BothAgree(locals, Exec(w, env, i, s), Exec(w, env, i, t))
  {
    hide Overflows, Wrap, Visible, Mentions;
    SameReadAll(locals, s.regs, t.regs, Uses(i));
    forall o | o in Uses(i)
      ensures Read(o, s.regs) == Read(o, t.regs)
    {
      SameRead(locals, s.regs, t.regs, Uses(i), o);
    }
    if Exec(w, env, i, s).Some? {
      if i.Call? {
        var vs := ReadAll(i.args, s.regs).value;
        VisibleAppend(s.trace, Event(i.callee, vs));
        VisibleAppend(t.trace, Event(i.callee, vs));
        UpdateBoth(locals, s.regs, t.regs, i.dst, env(Visible(s.trace + [Event(i.callee, vs)])));
      } else {
        UpdateBoth(locals, s.regs, t.regs, i.dst, Exec(w, env, i, s).value.regs[i.dst]);
      }
    }
  }

  lemma {:induction false} PrefixAgrees(w: Width, env: Env, instrs: seq<Instr>, k: nat, locals: set<RegId>, s: Local, t: Local)
    requires k <= |instrs|
    requires forall i :: i in instrs ==> PlainInstr(i, locals)
    requires Agree(locals, s, t)
    ensures BothAgree(locals, ExecPrefix(w, env, instrs, k, s), ExecPrefix(w, env, instrs, k, t))
  {
    hide Exec, Agree, PlainInstr;
    if k > 0 {
      PrefixAgrees(w, env, instrs, k - 1, locals, s, t);
      var p := ExecPrefix(w, env, instrs, k - 1, s);
      var q := ExecPrefix(w, env, instrs, k - 1, t);
      if p.Some? {
        ExecAgrees(w, env, instrs[k - 1], locals, p.value, q.value);
      }
    }
  }

  /** Running handler instructions changes nothing but temporaries and invisible calls. */
  lemma ExecQuiet(w: Width, env: Env, i: Instr, locals: set<RegId>, s: Local)
    requires QuietInstr(i, locals)
    requires Exec(w, env, i, s).Some?
    ensures Agree(locals, Exec(w, env, i, s).value, s)
  {
    if i.Call? {
      VisibleAppend(s.trace, Event(i.callee, ReadAll(i.args, s.regs).value));
    } else {
      UpdateLocal(locals, s.regs, i.dst, Exec(w, env, i, s).value.regs[i.dst]);
    }
  }

  lemma {:induction false} PrefixQuiet(w: Width, env: Env, instrs: seq<Instr>, k: nat, locals: set<RegId>, s: Local)
    requires k <= |instrs|
    requires forall i :: i in instrs ==> QuietInstr(i, locals)
    requires ExecPrefix(w, env, instrs, k, s).Some?
    ensures Agree(locals, ExecPrefix(w, env, instrs, k, s).value, s)
  {
    hide Exec, QuietInstr;
    if k > 0 {
      PrefixQuiet(w, env, instrs, k - 1, locals, s);
      ExecQuiet(w, env, instrs[k - 1], locals, ExecPrefix(w, env, instrs, k - 1, s).value);
    }
  }

  lemma {:induction false} BindAgrees(locals: set<RegId>, r: Regs, q: Regs, params: seq<RegId>, vs: seq<Value>)
    requires |params| == |vs|
    requires r - locals == q - locals
    ensures Bind(r, params, vs) - locals == Bind(q, params, vs) - locals
  {
    if params != [] {
      var n := |params| - 1;
      BindAgrees(locals, r, q, params[..n], vs[..n]);
      UpdateBoth(locals, Bind(r, params[..n], vs[..n]), Bind(q, params[..n], vs[..n]), params[n], vs[n]);
    }
  }

  // ----- the simulation ------------------------------------------------------------------------

  ghost predicate GuardsFrom(f: Function, g: Function, p: BlockId, h: BlockId) {
    p in g.blocks && CheckBranch(f, p) && GuardOf(f, p).value.handler.target == h
  }

  /** The clone is where the original is; while the original is in a handler, the clone has
      already taken the continue edge; once the original is stuck or has aborted, nothing is said. */
  ghost predicate Related(f: Function, g: Function, locals: set<RegId>, o: Config, c: Config) {
    match o
    case Stuck => true
    case Aborted(_) => true
    case Returned(v, t) => c.Returned? && c.result == v && Visible(c.trace) == Visible(t)
    case Running(b, s) =>
      if CheckHandler(f, b) then
        exists p, t :: GuardsFrom(f, g, p, b) && Agree(locals, s, t) && c == Enter(g, GuardOf(f, p).value.cont, t)
      else c.Running? && c.block == b && Agree(locals, s, c.local)
  }

  function CheckSet(f: Function): set<BlockId> {
    set b | b in f.blocks && HasCheck(f, b)
  }

  ghost predicate Clone(f: Function, g: Function) {
    ClonedFrom(f, g, CheckSet(f))
  }

  lemma StraightenedIsClone(f: Function, layout: seq<BlockId>)
    requires Closed(f) && IsLayout(f, layout)
    ensures Clone(f, Straightened(f, layout))
  {
    hide ClonedFrom, HasCheck;
    StraightenAllClones(f, CheckBlocks(f, layout));
    assert ToSet(CheckBlocks(f, layout)) == CheckSet(f);
  }

  lemma CloneFacts(f: Function, g: Function, b: BlockId)
    requires Clone(f, g)
    ensures g.width == f.width && g.entry == f.entry && Closed(g)
    ensures b in g.blocks ==>
      && b in f.blocks
      && g.blocks[b].params == f.blocks[b].params
      && g.blocks[b].instrs == f.blocks[b].instrs
      && g.blocks[b].term == if CheckBranch(f, b) then Jump(GuardOf(f, b).value.cont) else f.blocks[b].term
  {
    hide GuardOf, HasCheck;
    if b in g.blocks {
      assert BlockCloned(f, g, CheckSet(f), b);
    }
  }

  lemma EnterRelated(f: Function, g: Function, locals: set<RegId>, e: Edge, s: Local, t: Local)
    requires WellFormed(f, locals) && Clone(f, g)
    requires e.target in g.blocks && !CheckHandler(f, e.target)
    requires !Mentions(e.args, locals)
    requires Agree(locals, s, t)
    ensures Related(f, g, locals, Enter(f, e, s), Enter(g, e, t))
  {
    hide WellFormed, Clone, CheckHandler, Mentions;
    CloneFacts(f, g, e.target);
    SameReadAll(locals, s.regs, t.regs, e.args);
    var params, vs := f.blocks[e.target].params, ReadAll(e.args, s.regs);
    if |params| == |e.args| && vs.Some? {
      BindAgrees(locals, s.regs, t.regs, params, vs.value);
    }
  }

  lemma CheckHandlersAreQuiet(f: Function, locals: set<RegId>)
    requires WellFormed(f, locals)
    ensures forall h :: CheckHandler(f, h) ==> IsHandler(f, h) && h != f.entry
    ensures forall h, i :: CheckHandler(f, h) && i in f.blocks[h].instrs ==> QuietInstr(i, locals)
  {
    hide HasCheck, IsHandler;
    forall h | CheckHandler(f, h)
      ensures IsHandler(f, h) && h != f.entry
      ensures forall i :: i in f.blocks[h].instrs ==> QuietInstr(i, locals)
    {
      var b :| CheckBranch(f, b) && GuardOf(f, b).value.handler.target == h;
      GuardEdges(f, b);
      assert HandlerOk(f, b, locals);
    }
  }

  lemma ContIsPlain(f: Function, locals: set<RegId>, p: BlockId)
    requires WellFormed(f, locals) && CheckBranch(f, p)
    ensures !CheckHandler(f, GuardOf(f, p).value.cont.target)
    ensures !CheckHandler(f, p)
    ensures !Mentions(GuardOf(f, p).value.cont.args, locals)
  {
    hide GuardOf, IsHandler, CheckHandler;
    GuardEdges(f, p);
    CheckHandlersAreQuiet(f, locals);
    var i :| i in f.blocks[p].instrs && i.WithOverflow?;
    assert !QuietInstr(i, locals);
    assert PlainBlock(f.blocks[p], locals);
    EdgeArgsPlain(f.blocks[p].term, GuardOf(f, p).value.cont, locals);
  }

  /** The original finishes a handler; the clone does not move. */
  lemma StepInHandler(f: Function, g: Function, env: Env, locals: set<RegId>, o: Config, c: Config)
    requires WellFormed(f, locals) && Clone(f, g)
    requires o.Running? && CheckHandler(f, o.block)
    requires Related(f, g, locals, o, c)
    ensures Related(f, g, locals, Step(f, env, o), c)
  {
    hide GuardOf, Exec, Agree, HasCheck, WellFormed, Clone, CheckHandler, Enter, ExecPrefix;
    var p, t :| GuardsFrom(f, g, p, o.block) && Agree(locals, o.local, t) && c == Enter(g, GuardOf(f, p).value.cont, t);
    HandlerOf(f, locals, p);
    var h := f.blocks[o.block];
    var s := ExecPrefix(f.width, env, h.instrs, |h.instrs|, o.local);
    if s.Some? && h.term != Unreachable {
      PrefixQuiet(f.width, env, h.instrs, |h.instrs|, locals, o.local);
      AgreeTransitive(locals, s.value, o.local, t);
      LeaveHandler(f, g, locals, p, s.value, t);
    }
  }

  lemma HandlerOf(f: Function, locals: set<RegId>, p: BlockId)
    requires WellFormed(f, locals) && CheckBranch(f, p)
    ensures GuardOf(f, p).value.handler.target in f.blocks
    ensures HandlerOk(f, p, locals)
  {
    GuardEdges(f, p);
  }

  lemma LeaveHandler(f: Function, g: Function, locals: set<RegId>, p: BlockId, s: Local, t: Local)
    requires WellFormed(f, locals) && Clone(f, g) && CheckBranch(f, p) && p in g.blocks
    requires Agree(locals, s, t)
    ensures Related(f, g, locals, Enter(f, GuardOf(f, p).value.cont, s), Enter(g, GuardOf(f, p).value.cont, t))
  {
    hide GuardOf, Agree, HasCheck, Related, CheckHandler, Enter;
    var cont := GuardOf(f, p).value.cont;
    ContIsPlain(f, locals, p);
    CloneFacts(f, g, p);
    assert cont in Edges(g.blocks[p].term);
    EnterRelated(f, g, locals, cont, s, t);
  }

  lemma AgreeTransitive(locals: set<RegId>, a: Local, b: Local, c: Local)
    requires Agree(locals, a, b) && Agree(locals, b, c)
    ensures Agree(locals, a, c)
  {
  }

  /** Outside handlers both sides run the same block; at a straightened branch the original may
      turn into the handler while the clone takes the continue edge. */
  lemma StepOutside(f: Function, g: Function, env: Env, locals: set<RegId>, o: Config, c: Config)
    requires WellFormed(f, locals) && Clone(f, g)
    requires o.Running? && !CheckHandler(f, o.block)
    requires Related(f, g, locals, o, c)
    requires c.block in g.blocks
    ensures Related(f, g, locals, Step(f, env, o), Step(g, env, c))
  {
    hide GuardOf, Exec, Agree, HasCheck;
    CloneFacts(f, g, o.block);
    var b := f.blocks[o.block];
    assert PlainBlock(b, locals);
    PrefixAgrees(f.width, env, b.instrs, |b.instrs|, locals, o.local, c.local);
    var s := ExecPrefix(f.width, env, b.instrs, |b.instrs|, o.local);
    var t := ExecPrefix(f.width, env, b.instrs, |b.instrs|, c.local);
    if s.Some? {
      if CheckBranch(f, o.block) {
        LeaveStraightened(f, g, locals, o.block, s.value, t.value);
      } else {
        LeaveUnchanged(f, g, locals, o.block, s.value, t.value);
      }
    }
  }

  lemma LeaveStraightened(f: Function, g: Function, locals: set<RegId>, p: BlockId, s: Local, t: Local)
    requires WellFormed(f, locals) && Clone(f, g)
    requires p in g.blocks && CheckBranch(f, p)
    requires Agree(locals, s, t)
    ensures Related(f, g, locals, Leave(f, f.blocks[p].term, s), Enter(g, GuardOf(f, p).value.cont, t))
  {
    hide Agree, HasCheck, GuardOf, Enter, Leave, WellFormed, CheckHandler, GuardsFrom;
    var guard := GuardOf(f, p).value;
    CloneFacts(f, g, p);
    ContIsPlain(f, locals, p);
    assert guard.cont in Edges(g.blocks[p].term);
    EnterRelated(f, g, locals, guard.cont, s, t);
    EnterHandler(f, g, locals, p, s, t);
    LeaveGuard(f, p, s);
  }

  lemma LeaveGuard(f: Function, p: BlockId, s: Local)
    requires GuardOf(f, p).Some?
    ensures var guard := GuardOf(f, p).value;
            Leave(f, f.blocks[p].term, s) in {Stuck, Enter(f, guard.handler, s), Enter(f, guard.cont, s)}
  {
  }

  lemma EnterHandler(f: Function, g: Function, locals: set<RegId>, p: BlockId, s: Local, t: Local)
    requires WellFormed(f, locals)
    requires p in g.blocks && CheckBranch(f, p)
    requires Agree(locals, s, t)
    ensures Related(f, g, locals, Enter(f, GuardOf(f, p).value.handler, s), Enter(g, GuardOf(f, p).value.cont, t))
  {
    hide Agree, HasCheck, GuardOf;
    var guard := GuardOf(f, p).value;
    var o := Enter(f, guard.handler, s);
    if o.Running? {
      assert HandlerOk(f, p, locals);
      assert o.local == s;
      assert GuardsFrom(f, g, p, guard.handler.target);
    }
  }

  lemma LeaveUnchanged(f: Function, g: Function, locals: set<RegId>, p: BlockId, s: Local, t: Local)
    requires WellFormed(f, locals) && Clone(f, g)
    requires p in g.blocks && !CheckBranch(f, p) && !CheckHandler(f, p)
    requires Agree(locals, s, t)
    ensures Related(f, g, locals, Leave(f, f.blocks[p].term, s), Leave(g, f.blocks[p].term, t))
  {
    hide GuardOf, HasCheck, Mentions, PlainInstr, Enter, CheckHandler, Agree;
    var term := f.blocks[p].term;
    CloneFacts(f, g, p);
    assert PlainBlock(f.blocks[p], locals);
    TermReads(locals, s, t, term);
    forall e | e in Edges(term)
      ensures Related(f, g, locals, Enter(f, e, s), Enter(g, e, t))
    {
      EdgeArgsPlain(term, e, locals);
      EnterRelated(f, g, locals, e, s, t);
    }
    LeaveEdges(f, g, locals, term, s, t);
  }

  /** Both sides read the same operands at the end of a block. */
  ghost predicate SameTermReads(s: Local, t: Local, term: Terminator) {
    forall o :: o in TermUses(term) ==> Read(o, s.regs) == Read(o, t.regs)
  }

  lemma TermReads(locals: set<RegId>, s: Local, t: Local, term: Terminator)
    requires Agree(locals, s, t)
    requires !Mentions(TermUses(term), locals)
    ensures SameTermReads(s, t, term)
  {
    forall o | o in TermUses(term)
      ensures Read(o, s.regs) == Read(o, t.regs)
    {
      SameRead(locals, s.regs, t.regs, TermUses(term), o);
    }
  }

  lemma LeaveEdges(f: Function, g: Function, locals: set<RegId>, term: Terminator, s: Local, t: Local)
    requires Agree(locals, s, t) && SameTermReads(s, t, term)
    requires forall e :: e in Edges(term) ==> Related(f, g, locals, Enter(f, e, s), Enter(g, e, t))
    ensures Related(f, g, locals, Leave(f, term, s), Leave(g, term, t))
  {
    hide CheckHandler, Enter;
    match term {
      case Jump(e) => assert e in Edges(term);
      case CondBr(cond, a, b) =>
        assert a in Edges(term) && b in Edges(term);
        assert cond in TermUses(term);
      case Ret(o) => assert o in TermUses(term);
      case Unreachable =>
    }
  }

  lemma EdgeArgsPlain(term: Terminator, e: Edge, locals: set<RegId>)
    requires e in Edges(term)
    requires !Mentions(TermUses(term), locals)
    ensures !Mentions(e.args, locals)
  {
    assert forall o :: o in e.args ==> o in TermUses(term);
  }

  /** The clone never leaves its blocks. */
  lemma {:induction false} CloneStaysInside(g: Function, env: Env, args: Regs, m: nat)
    requires Closed(g)
    ensures var c := Run(g, env, Start(g, args), m); c.Running? ==> c.block in g.blocks
  {
    hide Exec;
    if m > 0 {
      CloneStaysInside(g, env, args, m - 1);
    }
  }

  /** Every original run is matched by a clone run until the original aborts. */
  lemma {:induction false} StraighteningSimulates(f: Function, g: Function, env: Env, locals: set<RegId>, args: Regs, n: nat)
    returns (m: nat)
    requires WellFormed(f, locals) && Clone(f, g)
    ensures m <= n
    ensures Related(f, g, locals, Run(f, env, Start(f, args), n), Run(g, env, Start(g, args), m))
  {
    hide GuardOf, Step, HasCheck, Related, WellFormed, CheckHandler;
    if n == 0 {
      m := 0;
      StartRelated(f, g, locals, args);
    } else {
      m := StraighteningSimulates(f, g, env, locals, args, n - 1);
      var o, c := Run(f, env, Start(f, args), n - 1), Run(g, env, Start(g, args), m);
      CloneFacts(f, g, f.entry);
      CloneStaysInside(g, env, args, m);
      if !o.Running? {
        StepDone(f, env, o);
      } else if CheckHandler(f, o.block) {
        StepInHandler(f, g, env, locals, o, c);
      } else {
        RelatedOutside(f, g, locals, o, c);
        StepOutside(f, g, env, locals, o, c);
        m := m + 1;
      }
    }
  }

  lemma StartRelated(f: Function, g: Function, locals: set<RegId>, args: Regs)
    requires WellFormed(f, locals) && Clone(f, g)
    ensures Related(f, g, locals, Start(f, args), Start(g, args))
  {
    hide CheckHandler;
    CheckHandlersAreQuiet(f, locals);
    CloneFacts(f, g, f.entry);
  }

  lemma StepDone(f: Function, env: Env, o: Config)
    requires !o.Running?
    ensures Step(f, env, o) == o
  {
  }

  // ----- transfer of operand facts -----------------------------------------------------------------

  /** The run has an instruction of block b at hand with the first k instructions done. */
  ghost predicate ReachesInstr(f: Function, env: Env, args: Regs, n: nat, b: BlockId, k: nat, s: Local) {
    var c := Run(f, env, Start(f, args), n);
    && c.Running? && c.block == b && b in f.blocks && k < |f.blocks[b].instrs|
    && ExecPrefix(f.width, env, f.blocks[b].instrs, k, c.local) == Some(s)
  }

  /** Whatever the original's overflow check reads, the clone's twin reads in some reachable state. */
  lemma CheckOperandsTransfer(f: Function, g: Function, env: Env, locals: set<RegId>, args: Regs,
                              n: nat, b: BlockId, k: nat, s: Local) returns (m: nat, t: Local)
    requires WellFormed(f, locals) && Clone(f, g)
    requires ReachesInstr(f, env, args, n, b, k, s)
    requires f.blocks[b].instrs[k].WithOverflow?
    ensures ReachesInstr(g, env, args, m, b, k, t)
    ensures g.blocks[b].instrs[k] == f.blocks[b].instrs[k]
    ensures ReadNum(f.blocks[b].instrs[k].lhs, s.regs) == ReadNum(f.blocks[b].instrs[k].lhs, t.regs)
    ensures ReadNum(f.blocks[b].instrs[k].rhs, s.regs) == ReadNum(f.blocks[b].instrs[k].rhs, t.regs)
  {
    hide GuardOf, Exec, Run, Related, WellFormed, Clone, CheckHandler, Mentions, Visible;
    var i := f.blocks[b].instrs[k];
    m := StraighteningSimulates(f, g, env, locals, args, n);
    ChecksAreOutside(f, locals, b, i);
    var o, c := Run(f, env, Start(f, args), n), Run(g, env, Start(g, args), m);
    RelatedOutside(f, g, locals, o, c);
    CloneFacts(f, g, b);
    CloneStaysInside(g, env, args, m);
    PrefixAgrees(f.width, env, f.blocks[b].instrs, k, locals, o.local, c.local);
    t := ExecPrefix(g.width, env, g.blocks[b].instrs, k, c.local).value;
    assert PlainInstr(i, locals);
    SameRead(locals, s.regs, t.regs, Uses(i), i.lhs);
    SameRead(locals, s.regs, t.regs, Uses(i), i.rhs);
  }

  lemma RelatedOutside(f: Function, g: Function, locals: set<RegId>, o: Config, c: Config)
    requires Related(f, g, locals, o, c)
    requires o.Running? && !CheckHandler(f, o.block)
    ensures c.Running? && c.block == o.block && Agree(locals, o.local, c.local)
  {
  }

  lemma ChecksAreOutside(f: Function, locals: set<RegId>, b: BlockId, i: Instr)
    requires WellFormed(f, locals)
    requires b in f.blocks && i in f.blocks[b].instrs && i.WithOverflow?
    ensures !CheckHandler(f, b)
    ensures PlainBlock(f.blocks[b], locals)
  {
    hide GuardOf, HasCheck, CheckHandler;
    CheckHandlersAreQuiet(f, locals);
    assert !QuietInstr(i, locals);
  }

  // ----- handlers leave the clone ------------------------------------------------------------------

  /** Branches to handler h that are still to be straightened. */
  ghost predicate StillGuards(f: Function, done: set<BlockId>, h: BlockId) {
    exists p :: p !in done && CheckBranch(f, p) && GuardOf(f, p).value.handler.target == h
  }

  lemma EntryStillGuards(f: Function, g: Function, locals: set<RegId>, done: set<BlockId>, h: BlockId)
    requires WellFormed(f, locals) && CheckHandler(f, h)
    requires ClonedFrom(f, g, done) && HasPredecessor(g, h)
    ensures StillGuards(f, done, h)
  {
    hide GuardOf, HasCheck, CheckHandler, IsHandler;
    var p :| p in g.blocks && EdgeFrom(g, p, h);
    assert BlockCloned(f, g, done, p);
    var e :| e in Edges(g.blocks[p].term) && e.target == h;
    CheckHandlersAreQuiet(f, locals);
    if GuardOf(f, p).Some? { GuardEdges(f, p); }
    assert e in Edges(f.blocks[p].term);
  }

  lemma {:induction false} HandlersLeave(f: Function, locals: set<RegId>, checks: seq<BlockId>, h: BlockId)
    requires WellFormed(f, locals) && CheckHandler(f, h)
    requires forall b :: b in checks ==> HasCheck(f, b)
    ensures h in StraightenAll(f, checks).blocks ==> StillGuards(f, ToSet(checks), h)
  {
    hide GuardOf, HasCheck, WellFormed, HasPredecessor, ClonedFrom;
    if checks == [] {
      assert ToSet(checks) == {};
    } else {
      var init, b := checks[..|checks| - 1], checks[|checks| - 1];
      var g, next := StraightenAll(f, init), StraightenAll(f, checks);
      assert checks == init + [b] && ToSet(checks) == ToSet(init) + {b};
      HandlersLeave(f, locals, init, h);
      WellFormedIsClosed(f, locals);
      StraightenAllClones(f, init);
      StraightenAllClones(f, checks);
      NothingAdded(g, b);
      if h in next.blocks {
        if HasPredecessor(next, h) {
          EntryStillGuards(f, next, locals, ToSet(checks), h);
        } else {
          if CheckBranch(f, b) { CheckBranchKept(f, locals, init, b); }
          Unentered(f, g, ToSet(init), b, h);
        }
      }
    }
  }

  lemma NothingAdded(g: Function, b: BlockId)
    ensures StraightenBlock(g, b).blocks.Keys <= g.blocks.Keys
  {
  }

  lemma WellFormedIsClosed(f: Function, locals: set<RegId>)
    requires WellFormed(f, locals)
    ensures Closed(f)
  {
  }

  lemma CheckBranchKept(f: Function, locals: set<RegId>, checks: seq<BlockId>, b: BlockId)
    requires WellFormed(f, locals) && CheckBranch(f, b)
    requires forall c :: c in checks ==> HasCheck(f, c)
    ensures b in StraightenAll(f, checks).blocks
  {
    hide GuardOf, WellFormed;
    WellFormedIsClosed(f, locals);
    if b !in StraightenAll(f, checks).blocks {
      var p := DroppedAreGuarded(f, checks, b);
      assert CheckBranch(f, p);
      ContIsPlain(f, locals, b);
    }
  }

  /** Every handler of an overflow check leaves the clone. */
  lemma HandlersDropped(f: Function, locals: set<RegId>, layout: seq<BlockId>, h: BlockId)
    requires WellFormed(f, locals) && IsLayout(f, layout) && CheckHandler(f, h)
    ensures h !in Straightened(f, layout).blocks
  {
    hide GuardOf, HasCheck, WellFormed;
    HandlersLeave(f, locals, CheckBlocks(f, layout), h);
    assert forall p :: CheckBranch(f, p) ==> p in ToSet(CheckBlocks(f, layout)) by { ChecksListed(f, layout); }
  }

  lemma ChecksListed(f: Function, layout: seq<BlockId>)
    requires IsLayout(f, layout)
    ensures forall p :: HasCheck(f, p) ==> p in ToSet(CheckBlocks(f, layout))
  {
  }

  /** A handler left without entries by a step was not the handler of the straightened branch. */
  lemma Unentered(f: Function, g: Function, done: set<BlockId>, b: BlockId, h: BlockId)
    requires Closed(f) && ClonedFrom(f, g, done) && StillGuards(f, done, h)
    requires CheckBranch(f, b) ==> b in g.blocks
    requires h in StraightenBlock(g, b).blocks && !HasPredecessor(StraightenBlock(g, b), h)
    ensures StillGuards(f, done + {b}, h)
  {
    hide GuardOf, HasCheck, HasPredecessor, ClonedFrom, IsHandler;
    var p :| p !in done && CheckBranch(f, p) && GuardOf(f, p).value.handler.target == h;
    if p == b {
      GuardInClone(f, g, done, b);
    }
  }
}
