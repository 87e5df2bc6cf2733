/** A small control-flow-graph IR with the parts of LLVM IR the passes look at, and its runs.
    Phi nodes are block parameters bound by the arguments on each edge. Memory and other calls
    are an environment that answers from the history of visible (non-UBSan) calls. */
module Ir {
  import opened Options
  import opened ConstantRanges

  type BlockId = nat
  type RegId = nat

  /** An integer, or the {result, overflow bit} pair of a `with.overflow` intrinsic. */
  datatype Value = Num(n: int) | Pair(n: int, overflow: bool)

  datatype Operand = Lit(value: Value) | Reg(reg: RegId)

  datatype Instr =
    | Arith(dst: RegId, op: BinaryOp, lhs: Operand, rhs: Operand)
    | CompareEq(dst: RegId, lhs: Operand, rhs: Operand)
    | CompareLess(dst: RegId, lhs: Operand, rhs: Operand)
    | WithOverflow(dst: RegId, op: BinaryOp, signed: bool, lhs: Operand, rhs: Operand)
    | ExtractValue(dst: RegId, agg: Operand, index: nat)
    | Call(dst: RegId, callee: string, args: seq<Operand>)

  datatype Edge = Edge(target: BlockId, args: seq<Operand>)

  datatype Terminator =
    | Jump(edge: Edge)
    | CondBr(cond: Operand, onTrue: Edge, onFalse: Edge)
    | Ret(result: Operand)
    | Unreachable

  datatype Block = Block(params: seq<RegId>, instrs: seq<Instr>, term: Terminator)

  datatype Function = Function(width: Width, entry: BlockId, blocks: map<BlockId, Block>)

  const UBSAN_PREFIX := "__ubsan_handle_"

  predicate IsUBSanSite(callee: string) {
    UBSAN_PREFIX <= callee
  }

  // ----- running ----------------------------------------------------------------------------

  type Regs = map<RegId, Value>
  datatype Event = Event(callee: string, args: seq<Value>)
  type Trace = seq<Event>
  /** The value returned by the last call of a visible history. */
  type Env = Trace -> Value

  /** The trace without the diagnostics of UBSan handlers. */
  function Visible(trace: Trace): Trace {
    if trace == [] then []
    else if IsUBSanSite(trace[|trace| - 1].callee) then Visible(trace[..|trace| - 1])
    else Visible(trace[..|trace| - 1]) + [trace[|trace| - 1]]
  }

  function Read(o: Operand, regs: Regs): Option<Value> {
    match o
    case Lit(v) => Some(v)
    case Reg(r) => if r in regs then Some(regs[r]) else None
  }

  function ReadNum(o: Operand, regs: Regs): Option<int> {
    var v := Read(o, regs);
    if v.Some? && v.value.Num? then Some(v.value.n) else None
  }

  function ReadAll(os: seq<Operand>, regs: Regs): (r: Option<seq<Value>>)
    ensures r.Some? ==> |r.value| == |os|
  {
    if os == [] then Some([])
    else
      var init, last := ReadAll(os[..|os| - 1], regs), Read(os[|os| - 1], regs);
      if init.Some? && last.Some? then Some(init.value + [last.value]) else None
  }

  datatype Local = Local(regs: Regs, trace: Trace)

  function Flag(b: bool): Value {
    Num(if b then 1 else 0)
  }

  function WithOverflowValue(w: Width, op: BinaryOp, signed: bool, x: int, y: int): Value {
    var exact := if signed then Exact(op, x, y) else Exact(op, Unsigned(w, x), Unsigned(w, y));
    Pair(Wrap(w, exact), Overflows(w, op, signed, x, y))
  }

  function Exec(w: Width, env: Env, i: Instr, s: Local): Option<Local> {
    match i
    case Arith(dst, op, a, b) =>
      var x, y := ReadNum(a, s.regs), ReadNum(b, s.regs);
      if x.Some? && y.Some? then Some(s.(regs := s.regs[dst := Num(Wrap(w, Exact(op, x.value, y.value)))])) else None
    case CompareEq(dst, a, b) =>
      var x, y := ReadNum(a, s.regs), ReadNum(b, s.regs);
      if x.Some? && y.Some? then Some(s.(regs := s.regs[dst := Flag(x.value == y.value)])) else None
    case CompareLess(dst, a, b) =>
      var x, y := ReadNum(a, s.regs), ReadNum(b, s.regs);
      if x.Some? && y.Some? then Some(s.(regs := s.regs[dst := Flag(x.value < y.value)])) else None
    case WithOverflow(dst, op, signed, a, b) =>
      var x, y := ReadNum(a, s.regs), ReadNum(b, s.regs);
      if x.Some? && y.Some? then Some(s.(regs := s.regs[dst := WithOverflowValue(w, op, signed, x.value, y.value)])) else None
    case ExtractValue(dst, agg, index) =>
      var v := Read(agg, s.regs);
      if v.Some? && v.value.Pair? && index == 0 then Some(s.(regs := s.regs[dst := Num(v.value.n)]))
      else if v.Some? && v.value.Pair? && index == 1 then Some(s.(regs := s.regs[dst := Flag(v.value.overflow)]))
      else None
    case Call(dst, callee, args) =>
      var vs := ReadAll(args, s.regs);
      if vs.None? then None
      else
        var trace := s.trace + [Event(callee, vs.value)];
        if IsUBSanSite(callee) then Some(s.(trace := trace))
        else Some(Local(s.regs[dst := env(Visible(trace))], trace))
  }

  /** Running the first k instructions of a block. */
  function ExecPrefix(w: Width, env: Env, instrs: seq<Instr>, k: nat, s: Local): Option<Local>
    requires k <= |instrs|
  {
    if k == 0 then Some(s)
    else
      var prev := ExecPrefix(w, env, instrs, k - 1, s);
      if prev.Some? then Exec(w, env, instrs[k - 1], prev.value) else None
  }

  datatype Config =
    | Running(block: BlockId, local: Local)
    | Returned(result: Value, trace: Trace)
    | Aborted(trace: Trace)
    | Stuck

  /** Parameters are bound in parallel, after all arguments are read. */
  function Bind(regs: Regs, params: seq<RegId>, vs: seq<Value>): Regs
    requires |params| == |vs|
  {
    if params == [] then regs
    else Bind(regs, params[..|params| - 1], vs[..|vs| - 1])[params[|params| - 1] := vs[|vs| - 1]]
  }

  function Enter(f: Function, e: Edge, s: Local): Config {
    if e.target in f.blocks && |f.blocks[e.target].params| == |e.args| then
      var vs := ReadAll(e.args, s.regs);
      if vs.Some? then Running(e.target, s.(regs := Bind(s.regs, f.blocks[e.target].params, vs.value))) else Stuck
    else Stuck
  }

  function Leave(f: Function, t: Terminator, s: Local): Config {
    match t
    case Jump(e) => Enter(f, e, s)
    case CondBr(cond, a, b) =>
      var c := ReadNum(cond, s.regs);
      if c.None? then Stuck else Enter(f, if c.value != 0 then a else b, s)
    case Ret(o) =>
      var v := Read(o, s.regs);
      if v.Some? then Returned(v.value, s.trace) else Stuck
    case Unreachable => Aborted(s.trace)
  }

  /** One step runs one block to the start of the next. */
  function Step(f: Function, env: Env, c: Config): Config {
    if !c.Running? then c
    else if c.block !in f.blocks then Stuck
    else
      var b := f.blocks[c.block];
      var s := ExecPrefix(f.width, env, b.instrs, |b.instrs|, c.local);
      if s.Some? then Leave(f, b.term, s.value) else Stuck
  }

  function Run(f: Function, env: Env, c: Config, n: nat): Config {
    if n == 0 then c else Step(f, env, Run(f, env, c, n - 1))
  }

  lemma NextRun(f: Function, env: Env, c: Config, n: nat)
    ensures Run(f, env, c, n + 1) == Step(f, env, Run(f, env, c, n))
  {
  }

  function Start(f: Function, args: Regs): Config {
    Running(f.entry, Local(args, []))
  }

  // ----- shape ------------------------------------------------------------------------------

  function Edges(t: Terminator): seq<Edge> {
    match t
    case Jump(e) => [e]
    case CondBr(_, a, b) => [a, b]
    case _ => []
  }

  predicate EdgeFrom(f: Function, b: BlockId, target: BlockId) {
    b in f.blocks && exists e :: e in Edges(f.blocks[b].term) && e.target == target
  }

  /** Every edge leads to a block, and none leads back to the entry. */
  ghost predicate Closed(f: Function) {
    && f.entry in f.blocks
    && forall b, e :: b in f.blocks && e in Edges(f.blocks[b].term) ==> e.target in f.blocks && e.target != f.entry
  }

  function Dst(i: Instr): Option<RegId> {
    if i.Call? && IsUBSanSite(i.callee) then None else Some(i.dst)
  }

  function Uses(i: Instr): seq<Operand> {
    match i
    case Arith(_, _, a, b) => [a, b]
    case CompareEq(_, a, b) => [a, b]
    case CompareLess(_, a, b) => [a, b]
    case WithOverflow(_, _, _, a, b) => [a, b]
    case ExtractValue(_, agg, _) => [agg]
    case Call(_, _, args) => args
  }

  function TermUses(t: Terminator): seq<Operand> {
    match t
    case Jump(e) => e.args
    case CondBr(c, a, b) => [c] + a.args + b.args
    case Ret(o) => [o]
    case Unreachable => []
  }

  predicate Mentions(os: seq<Operand>, regs: set<RegId>) {
    exists o :: o in os && o.Reg? && o.reg in regs
  }
}
