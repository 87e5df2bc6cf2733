/** The passes as they run: they collect work lists and rewrite the blocks of a function in place. */
module OverflowPass {
  import opened Options
  import opened ConstantRanges
  import opened EndpointBound
  import opened Ir
  import opened Straightening
  import opened Folding
  import opened CheckElimination
  import opened SretNullChecks

  class IrFunction {
    const width: Width
    const entry: BlockId
    const layout: seq<BlockId>
    var blocks: map<BlockId, Block>

    function View(): Function
      reads this
    {
      Function(width, entry, blocks)
    }

    /** Every block is listed in the layout; deleted blocks may still be listed. */
    ghost predicate Valid()
      reads this
    {
      forall b :: b in blocks ==> b in layout
    }

    constructor (width: Width, entry: BlockId, layout: seq<BlockId>, blocks: map<BlockId, Block>)
      ensures View() == Function(width, entry, blocks) && this.layout == layout
    {
      this.width := width;
      this.entry := entry;
      this.layout := layout;
      this.blocks := blocks;
    }

    method ContainsUBSanSite(b: BlockId) returns (found: bool)
      ensures found == IsHandler(View(), b)
    {
      if b !in blocks {
        return false;
      }
      var instrs := blocks[b].instrs;
      var k := 0;
      while k < |instrs|
        invariant 0 <= k <= |instrs|
        invariant forall l :: 0 <= l < k ==> !(instrs[l].Call? && IsUBSanSite(instrs[l].callee))
      {
        if instrs[k].Call? && IsUBSanSite(instrs[k].callee) {
          return true;
        }
        k := k + 1;
      }
      return false;
    }

    method PredEmpty(b: BlockId) returns (empty: bool)
      requires Valid()
      ensures empty == !HasPredecessor(View(), b)
    {
      var i := 0;
      while i < |layout|
        invariant 0 <= i <= |layout|
        invariant forall l :: 0 <= l < i ==> !EdgeFrom(View(), layout[l], b)
      {
        if EdgeFrom(View(), layout[i], b) {
          return false;
        }
        i := i + 1;
      }
      return true;
    }

    method CollectCheckBlocks() returns (wos: seq<BlockId>)
      ensures wos == CheckBlocks(View(), layout)
    {
      wos := [];
      var i := 0;
      while i < |layout|
        invariant 0 <= i <= |layout|
        invariant wos == CheckBlocks(View(), layout[..i])
      {
        assert layout[..i + 1][..i] == layout[..i];
        var b := layout[i];
        if b in blocks {
          var instrs, before, k := blocks[b].instrs, wos, 0;
          while k < |instrs|
            invariant 0 <= k <= |instrs|
            invariant wos == before + ChecksIn(instrs[..k], b)
          {
            assert instrs[..k + 1][..k] == instrs[..k];
            if instrs[k].WithOverflow? {
              wos := wos + [b];
            }
            k := k + 1;
          }
          assert instrs[..k] == instrs;
        }
        i := i + 1;
      }
      assert layout[..i] == layout;
    }

    /** The two roles of the successors of a conditional branch; the last one found of each kind wins. */
    method ClassifySuccessors(b: BlockId) returns (handler: Option<Edge>, cont: Option<Edge>)
      requires b in blocks && blocks[b].term.CondBr?
      ensures handler.Some? && cont.Some? <==> GuardOf(View(), b).Some?
      ensures handler.Some? && cont.Some? ==> GuardOf(View(), b).value == Guard(handler.value, cont.value)
    {
      handler, cont := None, None;
      var t := blocks[b].term;
      var isHandler := ContainsUBSanSite(t.onTrue.target);
      if isHandler { handler := Some(t.onTrue); } else { cont := Some(t.onTrue); }
      isHandler := ContainsUBSanSite(t.onFalse.target);
      if isHandler { handler := Some(t.onFalse); } else { cont := Some(t.onFalse); }
    }

    /** Rewire the branch of one block and delete the handler if nothing else leads to it. */
    method StraightenHandlerBranch(b: BlockId)
      requires Valid()
      modifies this`blocks
      ensures Valid()
      ensures View() == StraightenBlock(old(View()), b)
    {
      if b in blocks && blocks[b].term.CondBr? {
        var handler, cont := ClassifySuccessors(b);
        if handler.Some? && cont.Some? {
          blocks := blocks[b := blocks[b].(term := Jump(cont.value))];
          var empty := PredEmpty(handler.value.target);
          if empty {
            blocks := blocks - {handler.value.target};
          }
        }
      }
    }

    method StraightenOverflowBranches()
      requires Valid()
      modifies this`blocks
      ensures Valid()
      ensures View() == Straightened(old(View()), layout)
    {
      hide StraightenBlock;
      var wos := CollectCheckBlocks();
      var i := 0;
      while i < |wos|
        invariant 0 <= i <= |wos|
        invariant Valid()
        invariant View() == StraightenAll(old(View()), wos[..i])
      {
        assert wos[..i + 1][..i] == wos[..i];
        StraightenHandlerBranch(wos[i]);
        i := i + 1;
      }
      assert wos[..i] == wos;
    }

    /** Replace the uses of one register by false and erase its definition. */
    method FoldBit(d: RegId)
      modifies this`blocks
      ensures View() == FoldFalse(old(View()), {d})
      ensures blocks.Keys == old(blocks.Keys)
    {
      blocks := map b | b in blocks :: FoldBlock(blocks[b], {d});
    }
  }

  // ----- the pass ------------------------------------------------------------------------------

  /** Bound both operands of a check and decide. */
  method IsProved(w: Width, x: Instr, reports: Reports) returns (proved: bool)
    ensures proved == Proved(w, x, BoundsOf(w, reports))
  {
    hide BoundOverflowOperand, RangesProveNoOverflow;
    if !x.WithOverflow? {
      return false;
    }
    var lhs := BoundOverflowOperand(w, reports(x.dst).0);
    var rhs := BoundOverflowOperand(w, reports(x.dst).1);
    return RangesProveNoOverflow(w, x.op, x.signed, lhs, rhs);
  }

  method ProvedIn(w: Width, instrs: seq<Instr>, reports: Reports) returns (r: set<RegId>)
    ensures r == set x | x in instrs && Proved(w, x, BoundsOf(w, reports)) :: x.dst
  {
    hide Proved;
    ghost var bounds := BoundsOf(w, reports);
    r := {};
    var k := 0;
    while k < |instrs|
      invariant 0 <= k <= |instrs|
      invariant r == set x | x in instrs[..k] && Proved(w, x, bounds) :: x.dst
    {
      assert instrs[..k + 1] == instrs[..k] + [instrs[k]];
      var proved := IsProved(w, instrs[k], reports);
      if proved {
        r := r + {instrs[k].dst};
      }
      k := k + 1;
    }
    assert instrs[..k] == instrs;
  }

  /** `reports` is what the analyses say about the operands on the clone. */
  method CollectRemovableFromClone(orig: IrFunction, reports: Reports) returns (removable: set<RegId>)
    requires orig.Valid()
    ensures removable == Removable(orig.View(), Straightened(orig.View(), orig.layout), BoundsOf(orig.width, reports))
  {
    ghost var bounds := BoundsOf(orig.width, reports);
    hide Proved, Straightened;
    var clone := new IrFunction(orig.width, orig.entry, orig.layout, orig.blocks);
    clone.StraightenOverflowBranches();
    ghost var f, g := orig.View(), clone.View();
    removable := {};
    var i := 0;
    while i < |orig.layout|
      invariant 0 <= i <= |orig.layout|
      invariant clone.View() == g
      invariant removable == set b, x |
                    b in f.blocks && b in orig.layout[..i] && x in f.blocks[b].instrs &&
                    b in g.blocks && Proved(f.width, x, bounds) :: x.dst
    {
      var b := orig.layout[i];
      assert orig.layout[..i + 1] == orig.layout[..i] + [b];
      if b in orig.blocks && b in clone.blocks {
        var proved := ProvedIn(orig.width, orig.blocks[b].instrs, reports);
        removable := removable + proved;
      }
      i := i + 1;
    }
    assert orig.layout[..i] == orig.layout;
  }

  /** The whole pass; true when something was folded. */
  method Optimize(f: IrFunction, reports: Reports) returns (changed: bool)
    requires f.Valid()
    modifies f`blocks
    ensures f.View() == Optimized(old(f.View()), f.layout, BoundsOf(f.width, reports))
    ensures var bounds := BoundsOf(f.width, reports);
            changed <==>
            OverflowBits(old(f.View()), Removable(old(f.View()), Straightened(old(f.View()), f.layout), bounds)) != {}
  {
    hide FoldFalse, OverflowBits, Removable, Straightened, BoundsOf;
    ghost var f0 := f.View();
    FoldNothing(f0);
    var removable := CollectRemovableFromClone(f, reports);
    var bits := OverflowBits(f.View(), removable);
    changed := false;
    ghost var done := {};
    var rest := bits;
    while rest != {}
      invariant rest + done == bits
      invariant f.View() == FoldFalse(f0, done)
      invariant changed <==> done != {}
      decreases rest
    {
      var d :| d in rest;
      FoldFalseTwice(f0, done, d);
      f.FoldBit(d);
      changed := true;
      done, rest := done + {d}, rest - {d};
    }
    assert done == bits;
  }

  // ----- the null-check pass ---------------------------------------------------------------------

  datatype NullCheck = NullCheck(block: BlockId, result: RegId)

  function NullChecksIn(instrs: seq<Instr>, b: BlockId, sret: set<RegId>): (r: seq<NullCheck>)
    ensures forall c :: c in r ==> c.block == b && exists i :: i in instrs && IsNullCheck(i, sret) && i.dst == c.result
    ensures forall i :: i in instrs && IsNullCheck(i, sret) ==> NullCheck(b, i.dst) in r
  {
    if instrs == [] then []
    else
      var last := instrs[|instrs| - 1];
      assert instrs == instrs[..|instrs| - 1] + [last];
      NullChecksIn(instrs[..|instrs| - 1], b, sret) + if IsNullCheck(last, sret) then [NullCheck(b, last.dst)] else []
  }

  function BlocksOf(checks: seq<NullCheck>): (r: seq<BlockId>)
    ensures |r| == |checks|
    ensures forall k :: 0 <= k < |checks| ==> r[k] == checks[k].block
  {
    seq(|checks|, k requires 0 <= k < |checks| => checks[k].block)
  }

  function ResultsOf(checks: seq<NullCheck>): set<RegId> {
    set c | c in checks :: c.result
  }

  /** The checks found by the scan over all blocks, each with its block. */
  ghost predicate AllNullChecks(f: Function, checks: seq<NullCheck>, sret: set<RegId>) {
    && ListsNullChecks(f, BlocksOf(checks), sret)
    && ResultsOf(checks) == NullCheckResults(f, sret)
  }

  method CollectNullChecks(f: IrFunction, sret: set<RegId>) returns (checks: seq<NullCheck>)
    requires f.Valid()
    ensures AllNullChecks(f.View(), checks, sret)
  {
    checks := [];
    var i := 0;
    while i < |f.layout|
      invariant 0 <= i <= |f.layout|
      invariant forall c :: c in checks ==>
        c.block in f.blocks && exists x :: x in f.blocks[c.block].instrs && IsNullCheck(x, sret) && x.dst == c.result
      invariant forall b, x :: b in f.blocks && b in f.layout[..i] && x in f.blocks[b].instrs && IsNullCheck(x, sret) ==>
        NullCheck(b, x.dst) in checks
    {
      var b := f.layout[i];
      assert f.layout[..i + 1] == f.layout[..i] + [b];
      if b in f.blocks {
        checks := checks + NullChecksIn(f.blocks[b].instrs, b, sret);
      }
      i := i + 1;
    }
    assert f.layout[..i] == f.layout;
    forall d
      ensures d in ResultsOf(checks) <==> d in NullCheckResults(f.View(), sret)
    {
    }
  }

  lemma {:induction false} CallsSurviveFold(instrs: seq<Instr>, E: set<RegId>)
    ensures (exists i :: i in FoldInstrs(instrs, E) && i.Call? && IsUBSanSite(i.callee))
       <==> (exists i :: i in instrs && i.Call? && IsUBSanSite(i.callee))
  {
    if instrs != [] {
      var n := |instrs| - 1;
      CallsSurviveFold(instrs[..n], E);
      assert instrs == instrs[..n] + [instrs[n]];
      var last := SubstInstr(instrs[n], E);
      assert last.Call? == instrs[n].Call? && (last.Call? ==> last.callee == instrs[n].callee);
      if instrs[n].Call? && IsUBSanSite(instrs[n].callee) {
        assert last in FoldInstrs(instrs, E);
      }
    }
  }

  lemma HandlerAfterFold(f: Function, E: set<RegId>, b: BlockId)
    ensures IsHandler(FoldFalse(f, E), b) == IsHandler(f, b)
  {
    if b in f.blocks { CallsSurviveFold(f.blocks[b].instrs, E); }
  }

  function SubstGuard(g: Option<Guard>, E: set<RegId>): Option<Guard> {
    if g.Some? then Some(Guard(SubstEdge(g.value.handler, E), SubstEdge(g.value.cont, E))) else None
  }

  lemma GuardAfterFold(f: Function, E: set<RegId>, b: BlockId)
    ensures GuardOf(FoldFalse(f, E), b) == SubstGuard(GuardOf(f, b), E)
  {
    hide IsHandler, FoldInstrs, SubstAll;
    if b in f.blocks && f.blocks[b].term.CondBr? {
      HandlerAfterFold(f, E, f.blocks[b].term.onTrue.target);
      HandlerAfterFold(f, E, f.blocks[b].term.onFalse.target);
    }
  }

  lemma PredecessorAfterFold(f: Function, E: set<RegId>, b: BlockId)
    ensures HasPredecessor(FoldFalse(f, E), b) == HasPredecessor(f, b)
  {
    hide FoldInstrs, SubstAll;
    forall p | p in f.blocks
      ensures EdgeFrom(FoldFalse(f, E), p, b) == EdgeFrom(f, p, b)
    {
      var t := f.blocks[p].term;
      assert |Edges(SubstTerm(t, E))| == |Edges(t)|;
      assert forall k :: 0 <= k < |Edges(t)| ==> Edges(SubstTerm(t, E))[k].target == Edges(t)[k].target;
    }
  }

  /** Straightening and folding commute. */
  lemma StraightenAfterFold(f: Function, E: set<RegId>, b: BlockId)
    ensures StraightenBlock(FoldFalse(f, E), b) == FoldFalse(StraightenBlock(f, b), E)
  {
    hide GuardOf, HasPredecessor, FoldInstrs, SubstAll;
    GuardAfterFold(f, E, b);
    var guard := GuardOf(f, b);
    if guard.Some? {
      GuardEdges(f, b);
      var g := f.(blocks := f.blocks[b := f.blocks[b].(term := Jump(guard.value.cont))]);
      PredecessorAfterFold(g, E, guard.value.handler.target);
      assert FoldFalse(g, E).blocks ==
             FoldFalse(f, E).blocks[b := FoldFalse(f, E).blocks[b].(term := Jump(SubstEdge(guard.value.cont, E)))];
    }
  }

  /** Per check: straighten the branch of its block, then fold the comparison to false. */
  method OptimizeSretNullChecks(f: IrFunction, sret: set<RegId>) returns (changed: bool, ghost checks: seq<BlockId>)
    requires f.Valid()
    modifies f`blocks
    ensures ListsNullChecks(old(f.View()), checks, sret)
    ensures f.View() == SretOptimized(old(f.View()), checks, sret)
    ensures changed <==> NullCheckResults(old(f.View()), sret) != {}
  {
    hide FoldFalse, StraightenBlock, NullCheckResults, HasNullCheck;
    ghost var f0 := f.View();
    var nullChecks := CollectNullChecks(f, sret);
    checks := BlocksOf(nullChecks);
    changed := false;
    FoldNothing(f0);
    var i := 0;
    assert checks[..0] == [] && ResultsOf(nullChecks[..0]) == {};
    while i < |nullChecks|
      invariant 0 <= i <= |nullChecks|
      invariant f.Valid()
      invariant f.View() == FoldFalse(StraightenAll(f0, checks[..i]), ResultsOf(nullChecks[..i]))
      invariant changed <==> i > 0
    {
      ghost var g, E := StraightenAll(f0, checks[..i]), ResultsOf(nullChecks[..i]);
      var c := nullChecks[i];
      assert checks[..i + 1][..i] == checks[..i];
      assert nullChecks[..i + 1] == nullChecks[..i] + [c];
      assert ResultsOf(nullChecks[..i + 1]) == E + {c.result};
      StraightenAfterFold(g, E, c.block);
      f.StraightenHandlerBranch(c.block);
      FoldFalseTwice(StraightenBlock(g, c.block), E, c.result);
      f.FoldBit(c.result);
      changed := true;
      i := i + 1;
    }
    assert checks[..i] == checks && nullChecks[..i] == nullChecks;
    assert changed <==> ResultsOf(nullChecks) != {} by {
      if i > 0 { assert nullChecks[0].result in ResultsOf(nullChecks); }
    }
  }
}
