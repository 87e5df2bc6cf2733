/** `straightenOverflowBranches`: on a clone, every branch that guards an overflow check jumps
    straight to its continue block. The clone simulates the original until that aborts. */
module Straightening {
  import opened Options
  import opened Ir

  // ----- the rewrite ------------------------------------------------------------------------

  predicate IsHandler(f: Function, b: BlockId) {
    b in f.blocks && exists i :: i in f.blocks[b].instrs && i.Call? && IsUBSanSite(i.callee)
  }

  datatype Guard = Guard(handler: Edge, cont: Edge)

  /** The branch of block b, when exactly one of its successors is a handler. */
  function GuardOf(f: Function, b: BlockId): Option<Guard> {
    if b in f.blocks && f.blocks[b].term.CondBr? then
      var t := f.blocks[b].term;
      var onTrue, onFalse := IsHandler(f, t.onTrue.target), IsHandler(f, t.onFalse.target);
      if onTrue && !onFalse then Some(Guard(t.onTrue, t.onFalse))
      else if onFalse && !onTrue then Some(Guard(t.onFalse, t.onTrue))
      else None
    else None
  }

  predicate HasPredecessor(f: Function, b: BlockId) {
    exists p :: p in f.blocks && EdgeFrom(f, p, b)
  }

  function StraightenBlock(f: Function, b: BlockId): Function {
    var guard := GuardOf(f, b);
    if guard.None? then f
    else
      var g := f.(blocks := f.blocks[b := f.blocks[b].(term := Jump(guard.value.cont))]);
      var handler := guard.value.handler.target;
      if HasPredecessor(g, handler) then g else g.(blocks := g.blocks - {handler})
  }

  /** One entry per `with.overflow` instruction, naming its block. */
  function ChecksIn(instrs: seq<Instr>, b: BlockId): (r: seq<BlockId>)
    ensures forall x :: x in r ==> x == b
    ensures b in r <==> exists i :: i in instrs && i.WithOverflow?
  {
    if instrs == [] then []
    else
      var last := instrs[|instrs| - 1];
      assert instrs == instrs[..|instrs| - 1] + [last];
      ChecksIn(instrs[..|instrs| - 1], b) + if last.WithOverflow? then [b] else []
  }

  function CheckBlocks(f: Function, layout: seq<BlockId>): (r: seq<BlockId>)
    ensures forall b :: b in r <==> b in layout && HasCheck(f, b)
  {
    if layout == [] then []
    else
      var b := layout[|layout| - 1];
      assert layout == layout[..|layout| - 1] + [b];
      CheckBlocks(f, layout[..|layout| - 1]) + if b in f.blocks then ChecksIn(f.blocks[b].instrs, b) else []
  }

  predicate HasCheck(f: Function, b: BlockId) {
    b in f.blocks && exists i :: i in f.blocks[b].instrs && i.WithOverflow?
  }

  function StraightenAll(f: Function, checks: seq<BlockId>): Function {
    if checks == [] then f
    else StraightenBlock(StraightenAll(f, checks[..|checks| - 1]), checks[|checks| - 1])
  }

  ghost predicate IsLayout(f: Function, layout: seq<BlockId>) {
    forall b :: b in f.blocks.Keys <==> b in layout
  }

  function Straightened(f: Function, layout: seq<BlockId>): Function {
    StraightenAll(f, CheckBlocks(f, layout))
  }

  // ----- what the rewrite yields -------------------------------------------------------------

  /** g is f with the guarded branches of the blocks in `done` straightened and some blocks dropped. */
  ghost predicate ClonedFrom(f: Function, g: Function, done: set<BlockId>) {
    && g.width == f.width && g.entry == f.entry
    && Closed(g)
    && g.blocks.Keys <= f.blocks.Keys
    && forall b {:trigger BlockCloned(f, g, done, b)} :: b in g.blocks ==> BlockCloned(f, g, done, b)
  }

  /** Block b of the clone: the same instructions, and the same end unless it was straightened. */
  ghost predicate BlockCloned(f: Function, g: Function, done: set<BlockId>, b: BlockId)
    requires b in g.blocks && b in f.blocks
  {
    && g.blocks[b].params == f.blocks[b].params
    && g.blocks[b].instrs == f.blocks[b].instrs
    && g.blocks[b].term ==
       if b in done && GuardOf(f, b).Some? then Jump(GuardOf(f, b).value.cont) else f.blocks[b].term
  }

  lemma GuardInClone(f: Function, g: Function, done: set<BlockId>, b: BlockId)
    requires Closed(f) && ClonedFrom(f, g, done)
    requires b in g.blocks
    ensures GuardOf(g, b) == if b in done then None else GuardOf(f, b)
  {
    assert BlockCloned(f, g, done, b);
    var t := g.blocks[b].term;
    if t.CondBr? {
      assert t.onTrue in Edges(t) && t.onFalse in Edges(t);
      SameHandlers(f, g, done, t.onTrue.target);
      SameHandlers(f, g, done, t.onFalse.target);
    }
  }

  lemma SameHandlers(f: Function, g: Function, done: set<BlockId>, b: BlockId)
    requires ClonedFrom(f, g, done)
    requires b in g.blocks
    ensures IsHandler(g, b) == IsHandler(f, b)
    ensures HasCheck(g, b) == HasCheck(f, b)
  {
    hide GuardOf;
    assert BlockCloned(f, g, done, b);
  }

  lemma GuardEdges(f: Function, b: BlockId)
    requires GuardOf(f, b).Some?
    ensures b in f.blocks
    ensures GuardOf(f, b).value.handler in Edges(f.blocks[b].term)
    ensures GuardOf(f, b).value.cont in Edges(f.blocks[b].term)
    ensures IsHandler(f, GuardOf(f, b).value.handler.target)
    ensures !IsHandler(f, GuardOf(f, b).value.cont.target)
  {
  }

  lemma ClosedAfterRewrite(f: Function, b: BlockId)
    requires Closed(f)
    ensures Closed(StraightenBlock(f, b))
  {
    hide IsHandler;
    if GuardOf(f, b).Some? {
      GuardEdges(f, b);
      var guard := GuardOf(f, b).value;
      var g := f.(blocks := f.blocks[b := f.blocks[b].(term := Jump(guard.cont))]);
      assert Closed(g) by {
        forall p, e | p in g.blocks && e in Edges(g.blocks[p].term)
          ensures e in Edges(f.blocks[p].term)
        {
        }
      }
      var h := guard.handler.target;
      if !HasPredecessor(g, h) {
        forall p, e | p in g.blocks && e in Edges(g.blocks[p].term)
          ensures e.target != h
        {
          assert e.target == h ==> EdgeFrom(g, p, h);
        }
      }
    }
  }

  lemma StraightenBlockClones(f: Function, g: Function, done: set<BlockId>, b: BlockId)
    requires Closed(f) && ClonedFrom(f, g, done)
    ensures ClonedFrom(f, StraightenBlock(g, b), done + {b})
  {
    hide GuardOf, HasPredecessor;
    ClosedAfterRewrite(g, b);
    if b in g.blocks {
      GuardInClone(f, g, done, b);
      assert BlockCloned(f, g, done, b);
    } else {
      NoGuardOutside(g, b);
    }
    var r := StraightenBlock(g, b);
    forall c | c in r.blocks
      ensures BlockCloned(f, r, done + {b}, c)
    {
      assert BlockCloned(f, g, done, c);
    }
  }

  lemma NoGuardOutside(f: Function, b: BlockId)
    requires b !in f.blocks
    ensures GuardOf(f, b).None?
  {
  }

  function ToSet(s: seq<BlockId>): set<BlockId> {
    set b | b in s
  }

  lemma {:induction false} StraightenAllClones(f: Function, checks: seq<BlockId>)
    requires Closed(f)
    ensures ClonedFrom(f, StraightenAll(f, checks), ToSet(checks))
  {
    hide GuardOf, StraightenBlock;
    if checks != [] {
      var init, last := checks[..|checks| - 1], checks[|checks| - 1];
      StraightenAllClones(f, init);
      StraightenBlockClones(f, StraightenAll(f, init), ToSet(init), last);
      assert checks == init + [last];
      assert ToSet(checks) == ToSet(init) + {last};
    }
  }

  lemma {:induction false} NothingToStraighten(f: Function, checks: seq<BlockId>)
    requires forall b :: b in checks ==> GuardOf(f, b).None?
    ensures StraightenAll(f, checks) == f
  {
    if checks != [] {
      NothingToStraighten(f, checks[..|checks| - 1]);
    }
  }

  /** Straightening a straightened function changes nothing more. */
  lemma StraighteningIdempotent(f: Function, layout: seq<BlockId>, layout2: seq<BlockId>)
    requires Closed(f)
    requires IsLayout(f, layout)
    ensures Straightened(Straightened(f, layout), layout2) == Straightened(f, layout)
  {
    hide GuardOf;
    var checks := CheckBlocks(f, layout);
    var g := Straightened(f, layout);
    StraightenAllClones(f, checks);
    forall b | b in CheckBlocks(g, layout2)
      ensures GuardOf(g, b).None?
    {
      SameHandlers(f, g, ToSet(checks), b);
      GuardInClone(f, g, ToSet(checks), b);
    }
    NothingToStraighten(g, CheckBlocks(g, layout2));
  }

  // ----- the result, block by block ----------------------------------------------------------------

  /** What becomes of the end of one conditional branch: when exactly one side, either one, calls a
      UBSan handler, it is a jump to the other side; otherwise it stays. */
  ghost predicate StraightEnd(f: Function, t: Terminator, end: Terminator)
    requires t.CondBr?
  {
    && (IsHandler(f, t.onTrue.target) && !IsHandler(f, t.onFalse.target) ==> end == Jump(t.onFalse))
    && (IsHandler(f, t.onFalse.target) && !IsHandler(f, t.onTrue.target) ==> end == Jump(t.onTrue))
    && (IsHandler(f, t.onTrue.target) == IsHandler(f, t.onFalse.target) ==> end == t)
  }

  lemma CloneEnds(f: Function, g: Function, done: set<BlockId>, b: BlockId)
    requires ClonedFrom(f, g, done) && b in g.blocks
    ensures b in done && f.blocks[b].term.CondBr? ==> StraightEnd(f, f.blocks[b].term, g.blocks[b].term)
    ensures b !in done || !f.blocks[b].term.CondBr? ==> g.blocks[b].term == f.blocks[b].term
  {
    hide IsHandler;
    assert BlockCloned(f, g, done, b);
  }

  /** Every surviving block: a conditional branch after an overflow check is straightened, whichever
      side its handler is on, and no other end changes. */
  lemma EndsStraightened(f: Function, layout: seq<BlockId>, b: BlockId)
    requires Closed(f) && IsLayout(f, layout)
    requires b in Straightened(f, layout).blocks
    ensures b in f.blocks && Straightened(f, layout).blocks[b].instrs == f.blocks[b].instrs
    ensures var t, end := f.blocks[b].term, Straightened(f, layout).blocks[b].term;
            if t.CondBr? && exists i :: i in f.blocks[b].instrs && i.WithOverflow? then StraightEnd(f, t, end) else end == t
  {
    hide IsHandler, GuardOf, StraightEnd;
    var checks := CheckBlocks(f, layout);
    StraightenAllClones(f, checks);
    assert BlockCloned(f, Straightened(f, layout), ToSet(checks), b);
    CloneEnds(f, Straightened(f, layout), ToSet(checks), b);
  }

  /** No check block of the result branches between a handler and something else. */
  lemma NoGuardLeft(f: Function, layout: seq<BlockId>, b: BlockId)
    requires Closed(f) && IsLayout(f, layout)
    requires b in Straightened(f, layout).blocks
    requires exists i :: i in Straightened(f, layout).blocks[b].instrs && i.WithOverflow?
    requires Straightened(f, layout).blocks[b].term.CondBr?
    ensures var g := Straightened(f, layout);
            IsHandler(g, g.blocks[b].term.onTrue.target) == IsHandler(g, g.blocks[b].term.onFalse.target)
  {
    hide IsHandler, GuardOf;
    var checks, g := CheckBlocks(f, layout), Straightened(f, layout);
    StraightenAllClones(f, checks);
    assert BlockCloned(f, g, ToSet(checks), b);
    GuardInClone(f, g, ToSet(checks), b);
    NoGuardMeansAlike(g, b);
  }

  lemma NoGuardMeansAlike(f: Function, b: BlockId)
    requires b in f.blocks && f.blocks[b].term.CondBr? && GuardOf(f, b).None?
    ensures IsHandler(f, f.blocks[b].term.onTrue.target) == IsHandler(f, f.blocks[b].term.onFalse.target)
  {
  }

  /** Only handlers of straightened branches are dropped. */
  lemma {:induction false} DroppedAreGuarded(f: Function, checks: seq<BlockId>, b: BlockId) returns (p: BlockId)
    requires Closed(f)
    requires b in f.blocks && b !in StraightenAll(f, checks).blocks
    ensures p in checks && GuardOf(f, p).Some? && GuardOf(f, p).value.handler.target == b
    ensures IsHandler(f, b)
  {
    hide IsHandler, GuardOf, HasPredecessor;
    var init, last := checks[..|checks| - 1], checks[|checks| - 1];
    var g := StraightenAll(f, init);
    StraightenAllClones(f, init);
    if b in g.blocks {
      p := last;
      GuardEdges(g, p);
      GuardInClone(f, g, ToSet(init), p);
      SameHandlers(f, g, ToSet(init), b);
    } else {
      p := DroppedAreGuarded(f, init, b);
    }
  }
}
