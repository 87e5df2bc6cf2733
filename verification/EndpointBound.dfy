/** `boundOverflowOperand`: intersecting the analyses' ranges with the hull of the two ends of
    an affine recurrence start + k*step (mod 2^w), k = 0..b. */
module EndpointBound {
  import opened Options
  import opened ConstantRanges

  /** Value of the recurrence at iteration k. */
  function Iterate(w: Width, start: int, step: int, k: nat): (v: int)
    ensures InSigned(w, v)
  {
    Wrap(w, start + k * step)
  }

  /** What the analyses report about an add recurrence. `edge` is the range of the start value on
      the loop's entry edge, known when the start is an opaque value with an entry predecessor. */
  datatype Recurrence = Recurrence(affine: bool, start: Range, edge: Option<Range>,
                                   step: Option<int>, tripCountKnown: bool, end: Range)

  function StartRange(w: Width, rec: Recurrence): Range {
    if rec.start.IsFull(w) && rec.edge.Some? then rec.edge.value else rec.start
  }

  predicate Monotone(start: Range, end: Range, step: int) {
    if step < 0 then start.lo >= end.hi else start.hi <= end.lo
  }

  /** What the analyses report about one operand: its range, its range under the loop's guards, and
      its recurrence. */
  datatype Report = Report(range: Range, guarded: Option<Range>, rec: Option<Recurrence>) {
    predicate Known() {
      rec.Some? && rec.value.affine && rec.value.step.Some? && rec.value.tripCountKnown
    }
  }

  function BoundOverflowOperand(w: Width, report: Report): Range {
    var r := if report.guarded.Some? then report.range.IntersectWith(report.guarded.value) else report.range;
    if report.Known() then
      var rec := report.rec.value;
      var start, end := StartRange(w, rec), rec.end;
      if !start.IsFull(w) && !end.IsFull(w) && Monotone(start, end, rec.step.value)
      then r.IntersectWith(start.UnionWith(end))
      else r
    else r
  }

  // ----- modular arithmetic -------------------------------------------------------------------

  function Magnitude(x: int): (r: nat) {
    if x < 0 then -x else x
  }

  lemma WrapShift(w: Width, x: int) returns (q: int)
    ensures Wrap(w, x) == x + q * Modulus(w)
  {
    var m := Modulus(w);
    assert x == x / m * m + x % m;
    if x % m <= SignedMax(w) {
      q := -(x / m);
      assert q * m == -(x / m * m);
    } else {
      q := -(x / m) - 1;
      assert q * m == -(x / m * m) - m;
    }
  }

  lemma Multiples(q: int, m: int)
    requires m > 0
    ensures q >= 1 ==> q * m >= m
    ensures q <= -1 ==> q * m <= -m
  {
    if q >= 1 { assert (q - 1) * m >= 0; }
    if q <= -1 { assert (-q - 1) * m >= 0; }
  }

  /** The two w-bit values closest to x: x itself, or x moved by one modulus. */
  lemma WrapNear(w: Width, x: int)
    ensures InSigned(w, x) ==> Wrap(w, x) == x
    ensures SignedMin(w) - Modulus(w) <= x < SignedMin(w) ==> Wrap(w, x) == x + Modulus(w)
    ensures SignedMax(w) < x <= SignedMax(w) + Modulus(w) ==> Wrap(w, x) == x - Modulus(w)
  {
    var q := WrapShift(w, x);
    var m := Modulus(w);
    Multiples(q, m);
    Multiples(q - 1, m);
    Multiples(q + 1, m);
    assert (q - 1) * m == q * m - m && (q + 1) * m == q * m + m;
  }

  predicate Between(v: int, a: int, b: int) {
    a <= v <= b || b <= v <= a
  }

  /** The value at the last iteration lies on the side of the start that the step points to. */
  predicate OnStepSide(start: int, end: int, step: int) {
    if step < 0 then end <= start else start <= end
  }

  lemma StepsGrow(step: int, k: nat, b: nat)
    requires k <= b
    ensures 0 <= k * Magnitude(step) <= b * Magnitude(step)
    ensures k * step == if step < 0 then -(k * Magnitude(step)) else k * Magnitude(step)
  {
    assert (b - k) * Magnitude(step) >= 0;
  }

  /** Without a full turn, every iterate lies between the two ends, in signed order. */
  lemma IteratesBetweenEnds(w: Width, start: int, step: int, b: nat, k: nat)
    requires InSigned(w, start)
    requires b * Magnitude(step) < Modulus(w)
    requires OnStepSide(start, Iterate(w, start, step, b), step)
    requires k <= b
    ensures Between(Iterate(w, start, step, k), start, Iterate(w, start, step, b))
  {
    StepsGrow(step, k, b);
    StepsGrow(step, b, b);
    WrapNear(w, start + b * step);
    WrapNear(w, start + k * step);
  }

  /** A step of one needs no condition beyond the trip count fitting in a register. */
  lemma UnitStepNeverTurns(w: Width, step: int, b: nat)
    requires Magnitude(step) == 1
    requires b < Modulus(w)
    ensures b * Magnitude(step) < Modulus(w)
  {
  }

  /** The rule does not test for a full turn. For a step no longer than the arc outside the two
      ends, all iterates lie between the ends if and only if there is none ... */
  lemma ShortStepsEscape(w: Width, start: int, step: int, b: nat)
    requires InSigned(w, start)
    requires step != 0
    requires OnStepSide(start, Iterate(w, start, step, b), step)
    requires Magnitude(step) < Modulus(w) - Magnitude(start - Iterate(w, start, step, b))
    ensures (forall k: nat :: k <= b ==> Between(Iterate(w, start, step, k), start, Iterate(w, start, step, b)))
       <==> b * Magnitude(step) < Modulus(w)
  {
    hide Iterate;
    if b * Magnitude(step) < Modulus(w) {
      forall k: nat | k <= b
        ensures Between(Iterate(w, start, step, k), start, Iterate(w, start, step, b))
      {
        IteratesBetweenEnds(w, start, step, b, k);
      }
    } else {
      var k := EscapingIterate(w, start, step, b);
    }
  }

  lemma EscapingIterate(w: Width, start: int, step: int, b: nat) returns (k: nat)
    requires InSigned(w, start)
    requires step != 0
    requires OnStepSide(start, Iterate(w, start, step, b), step)
    requires Magnitude(step) < Modulus(w) - Magnitude(start - Iterate(w, start, step, b))
    requires Modulus(w) <= b * Magnitude(step)
    ensures k <= b
    ensures !Between(Iterate(w, start, step, k), start, Iterate(w, start, step, b))
  {
    hide Iterate, Modulus, Between;
    var end := Iterate(w, start, step, b);
    var size, arc := Magnitude(step), Magnitude(start - end);
    k := FirstBeyond(arc, size, b, Modulus(w));
    IterateOutside(w, start, step, k, arc);
    NotBetween(start, end, Iterate(w, start, step, k), step, arc);
  }

  lemma NotBetween(start: int, end: int, v: int, step: int, arc: nat)
    requires OnStepSide(start, end, step) && arc == Magnitude(start - end)
    requires step < 0 ==> v < start - arc || v > start
    requires step >= 0 ==> v > start + arc || v < start
    ensures !Between(v, start, end)
  {
  }

  /** The first multiple of the step size beyond the arc comes before a full turn. */
  lemma FirstBeyond(arc: nat, size: nat, b: nat, turn: int) returns (k: nat)
    requires size > 0
    requires arc + size < turn <= b * size
    ensures k <= b
    ensures arc < k * size < turn
  {
    k := arc / size + 1;
    assert arc == arc / size * size + arc % size;
    assert k * size == arc / size * size + size;
    FactorOrder(b, k, size);
  }

  lemma FactorOrder(b: int, k: int, size: nat)
    ensures b <= k ==> b * size <= k * size
  {
    if b <= k { assert (k - b) * size >= 0; }
  }

  lemma IterateOutside(w: Width, start: int, step: int, k: nat, arc: nat)
    requires InSigned(w, start)
    requires arc < k * Magnitude(step) < Modulus(w)
    ensures step < 0 ==> Iterate(w, start, step, k) < start - arc || Iterate(w, start, step, k) > start
    ensures step >= 0 ==> Iterate(w, start, step, k) > start + arc || Iterate(w, start, step, k) < start
  {
    hide Wrap, Magnitude;
    StepsGrow(step, k, k);
    WrapNear(w, start + k * step);
  }

  /** ... while a longer step can turn and still leave all iterates between the ends: 127, 41, -45,
      125, 39, -47 on 8 bits. What a full turn always breaks is the decision (`AcceptedExactly`). */
  lemma LongStepsMayStayInside()
    ensures 5 * Magnitude(-86) >= Modulus(8)
    ensures forall k: nat :: k <= 5 ==> Between(Iterate(8, 127, -86, k), 127, Iterate(8, 127, -86, 5))
  {
    EightBits();
    forall k: nat | k <= 5
      ensures Between(Iterate(8, 127, -86, k), 127, -47)
    {
      WrapNear(8, 127 + k * -86);
    }
    WrapNear(8, 127 + 5 * -86);
  }

  lemma EightBits()
    ensures Modulus(8) == 256 && SignedMax(8) == 127 && SignedMin(8) == -128
  {
    assert Pow2(4) == 16;
    assert Pow2(7) == 128;
  }

  // ----- soundness of the bound --------------------------------------------------------------

  /** What the analyses must get right about one operand value: it is in the reported ranges and,
      when a recurrence is reported, it is iterate k of 0..b. */
  ghost predicate FactsHold(w: Width, report: Report, start: int, b: nat, k: nat, v: int) {
    && report.range.Contains(v)
    && (report.guarded.Some? ==> report.guarded.value.Contains(v))
    && (report.Known() ==>
          var rec := report.rec.value;
          && InSigned(w, start)
          && k <= b
          && rec.start.Contains(start) && (rec.edge.Some? ==> rec.edge.value.Contains(start))
          && rec.end.Contains(Iterate(w, start, rec.step.value, b))
          && v == Iterate(w, start, rec.step.value, k))
  }

  /** What the pass takes for granted beside the analyses. */
  predicate NoFullTurn(w: Width, report: Report, b: nat) {
    report.Known() ==> b * Magnitude(report.rec.value.step.value) < Modulus(w)
  }

  lemma FewerIterations(w: Width, report: Report, b: nat, trips: nat)
    requires NoFullTurn(w, report, trips) && b <= trips
    ensures NoFullTurn(w, report, b)
  {
    if report.Known() { StepsGrow(report.rec.value.step.value, b, trips); }
  }

  lemma BoundIsSound(w: Width, report: Report, start: int, b: nat, k: nat, v: int)
    requires FactsHold(w, report, start, b, k, v) && NoFullTurn(w, report, b)
    ensures BoundOverflowOperand(w, report).Contains(v)
  {
    hide Iterate;
    if report.Known() {
      var rec := report.rec.value;
      if Monotone(StartRange(w, rec), rec.end, rec.step.value) {
        IteratesBetweenEnds(w, start, rec.step.value, b, k);
      }
    }
  }

  // ----- the bound is no wider than its reports ------------------------------------------------

  /** Which range bounds the start: the recurrence's own, unless that one says nothing and the loop's
      entry edge is known. */
  ghost predicate StartsWithin(w: Width, rec: Recurrence, first: Range) {
    if rec.start.lo <= SignedMin(w) && SignedMax(w) <= rec.start.hi && rec.edge.Some? then first == rec.edge.value
    else first == rec.start
  }

  /** What the recurrence says about x, when both ends are bounded and ordered as the step goes. */
  ghost predicate WithinEnds(w: Width, first: Range, end: Range, step: int, x: int) {
    !first.IsFull(w) && !end.IsFull(w) ==>
      && (step >= 0 && first.hi <= end.lo ==> first.lo <= x <= end.hi)
      && (step < 0 && first.lo >= end.hi ==> end.lo <= x <= first.hi)
  }

  /** A value is in the bound if and only if every usable report allows it: its range, its range under
      the guards, and the ends of an affine recurrence with a constant step and a known trip count. */
  lemma BoundExactly(w: Width, report: Report, first: Range, x: int)
    requires report.rec.Some? ==> StartsWithin(w, report.rec.value, first)
    requires report.rec.Some? ==> !first.IsEmpty() && !report.rec.value.end.IsEmpty()
    ensures BoundOverflowOperand(w, report).Contains(x) <==>
      && report.range.Contains(x)
      && (report.guarded.Some? ==> report.guarded.value.Contains(x))
      && (report.rec.Some? && report.rec.value.affine && report.rec.value.step.Some? && report.rec.value.tripCountKnown ==>
            WithinEnds(w, first, report.rec.value.end, report.rec.value.step.value, x))
  {
  }

  /** The reported ranges alone suffice: when no value in them overflows, the check is removable,
      whatever else is reported, as long as the operand has a value at all. */
  lemma RangesSuffice(w: Width, op: BinaryOp, signed: bool, report: Report, rhs: Range, v: int)
    requires report.range.Fits(w) && rhs.Fits(w) && !rhs.IsEmpty() && !(op == Mul && signed)
    requires BoundOverflowOperand(w, report).Contains(v)
    requires forall x, y | report.range.Contains(x) && rhs.Contains(y) ::
      (report.guarded.Some? ==> report.guarded.value.Contains(x)) ==> !Overflows(w, op, signed, x, y)
    ensures RangesProveNoOverflow(w, op, signed, BoundOverflowOperand(w, report), rhs)
  {
    hide Overflows, RangesProveNoOverflow;
    var bound := BoundOverflowOperand(w, report);
    BoundFits(w, report);
    forall x | bound.Contains(x)
      ensures report.range.Contains(x) && (report.guarded.Some? ==> report.guarded.value.Contains(x))
    {
    }
    DecisionIsExact(w, op, signed, bound, rhs);
  }

  /** A counter advanced by its own check until it is `last`, nothing else being known. */
  function Counter(w: Width, start: Range, edge: Option<Range>, step: int, last: int): Report {
    Report(FullRange(w), None, Some(Recurrence(true, start, edge, Some(step), true, Range(last, last))))
  }

  /** Its check is removable exactly when the start is known to be on the right side of the last
      value, and the addition after that one does not overflow. */
  lemma CounterRemovable(w: Width, start: Range, edge: Option<Range>, first: Range, step: int, last: int)
    requires StartsWithin(w, Recurrence(true, start, edge, Some(step), true, Range(last, last)), first)
    requires first.Fits(w) && !first.IsEmpty()
    requires InSigned(w, last) && InSigned(w, step) && step != 0
    ensures RangesProveNoOverflow(w, Add, true,
              BoundOverflowOperand(w, Counter(w, start, edge, step, last)), Range(step, step))
       <==> if step > 0 then first.hi <= last && last + step <= SignedMax(w)
            else first.lo >= last && last + step >= SignedMin(w)
  {
  }

  /** Counting down from a start known only on the loop's entry edge, as in testCopyOptimized. */
  lemma EdgeCountdownRemovable(w: Width, edge: Range)
    requires edge.Fits(w) && !edge.IsEmpty()
    ensures RangesProveNoOverflow(w, Add, true,
              BoundOverflowOperand(w, Counter(w, FullRange(w), Some(edge), -1, 0)), Range(-1, -1))
       <==> edge.lo >= 0
  {
    CounterRemovable(w, FullRange(w), Some(edge), edge, -1, 0);
  }

  // ----- the decision and the full turn --------------------------------------------------------

  /** True reports about the operand of a check that itself advances the recurrence; nothing is said
      about a full turn. */
  ghost predicate ReportedTruly(w: Width, report: Report, start: int, step: int, b: nat) {
    && report.Known() && report.rec.value.step == Some(step)
    && forall k: nat :: k <= b ==> FactsHold(w, report, start, b, k, Iterate(w, start, step, k))
  }

  lemma ExactNext(start: int, step: int, k: nat)
    ensures start + (k + 1) * step == start + k * step + step
  {
  }

  /** While no addition overflows, the recurrence is the exact one. */
  lemma {:induction false} ExactWhileNoOverflow(w: Width, start: int, step: int, k: nat)
    requires InSigned(w, start)
    requires forall l: nat :: l < k ==> !Overflows(w, Add, true, Iterate(w, start, step, l), step)
    ensures InSigned(w, start + k * step) && Iterate(w, start, step, k) == start + k * step
  {
    hide Wrap;
    if k == 0 {
      WrapNear(w, start);
    } else {
      ExactWhileNoOverflow(w, start, step, k - 1);
      ExactNext(start, step, k - 1);
      WrapNear(w, start + k * step);
    }
  }

  lemma BoundFits(w: Width, report: Report)
    requires report.range.Fits(w)
    ensures BoundOverflowOperand(w, report).Fits(w)
  {
  }

  /** The decision about an addition that advances its own operand, once it accepts, is right if
      and only if the recurrence makes no full turn of the register before its last iteration. */
  lemma AcceptedExactly(w: Width, report: Report, rhs: Range, start: int, step: int, b: nat)
    requires ReportedTruly(w, report, start, step, b)
    requires report.range.Fits(w) && rhs.Fits(w) && rhs.Contains(step)
    requires RangesProveNoOverflow(w, Add, true, BoundOverflowOperand(w, report), rhs)
    ensures (forall k: nat :: k <= b ==> !Overflows(w, Add, true, Iterate(w, start, step, k), step))
       <==> b * Magnitude(step) < Modulus(w)
  {
    hide Iterate, RangesProveNoOverflow, Overflows, BoundOverflowOperand;
    if b * Magnitude(step) < Modulus(w) {
      BoundFits(w, report);
      forall k: nat | k <= b
        ensures !Overflows(w, Add, true, Iterate(w, start, step, k), step)
      {
        BoundIsSound(w, report, start, b, k, Iterate(w, start, step, k));
        ProvedNeverOverflows(w, Add, true, BoundOverflowOperand(w, report), rhs, Iterate(w, start, step, k), step);
      }
    }
    if forall k: nat :: k <= b ==> !Overflows(w, Add, true, Iterate(w, start, step, k), step) {
      assert FactsHold(w, report, start, b, 0, Iterate(w, start, step, 0));
      ExactWhileNoOverflow(w, start, step, b);
      StepsGrow(step, b, b);
    }
  }

  lemma HighBits(w: Width)
    requires w >= 8
    ensures var u := Pow2(w - 8); Modulus(w) == 256 * u && SignedMax(w) == 128 * u - 1 && SignedMin(w) == -128 * u
  {
    SixteenTimes(w - 8);
    SixteenTimes(w - 4);
  }

  lemma SixteenTimes(n: nat)
    ensures Pow2(n + 3) == 8 * Pow2(n) && Pow2(n + 4) == 16 * Pow2(n)
  {
    assert Pow2(n + 1) == 2 * Pow2(n);
    assert Pow2(n + 2) == 2 * Pow2(n + 1);
    assert Pow2(n + 3) == 2 * Pow2(n + 2);
  }

  /** 100, 0, -100, 56 on 8 bits, and the same times 2^(w-8) on w bits, such as 1677721600, 0,
      -1677721600, 939524096 on 32: the decision accepts this recurrence from exact reports of its
      ends and step, and its third addition overflows. */
  lemma FullTurnEscapes(w: Width)
    requires w >= 8
    ensures var u := Pow2(w - 8);
            var rec := Recurrence(true, Range(100 * u, 100 * u), None, Some(-100 * u), true, Range(56 * u, 56 * u));
            var report := Report(FullRange(w), None, Some(rec));
            && ReportedTruly(w, report, 100 * u, -100 * u, 3)
            && RangesProveNoOverflow(w, Add, true, BoundOverflowOperand(w, report), Range(-100 * u, -100 * u))
            && Iterate(w, 100 * u, -100 * u, 2) == -100 * u
            && Overflows(w, Add, true, -100 * u, -100 * u)
  {
    hide Wrap;
    var u := Pow2(w - 8);
    HighBits(w);
    WrapNear(w, 100 * u + 3 * (-100 * u));
    WrapNear(w, 100 * u + 2 * (-100 * u));
  }

  // ----- other unions of the ends --------------------------------------------------------------

  /** A range as LLVM keeps it: from `first` upwards to `last`, past the largest value to the
      smallest when `last` is below `first`. */
  datatype Arc = Arc(first: int, last: int) {
    predicate Contains(x: int) {
      if first <= last then first <= x <= last else first <= x || x <= last
    }

    /** From its signed minimum to its signed maximum: all that signed decisions look at. */
    function SignedSpan(w: Width): Range {
      if first <= last then Range(first, last) else FullRange(w)
    }
  }

  /** Whatever arc the union and the intersections of a bound yield, if the first and the last value
      are in it, then all values are in its signed span, unless there is a full turn. */
  lemma IteratesInSpan(w: Width, start: int, step: int, b: nat, k: nat, arc: Arc)
    requires InSigned(w, start) && k <= b
    requires b * Magnitude(step) < Modulus(w)
    requires OnStepSide(start, Iterate(w, start, step, b), step)
    requires arc.Contains(start) && arc.Contains(Iterate(w, start, step, b))
    ensures arc.SignedSpan(w).Contains(Iterate(w, start, step, k))
  {
    hide Iterate;
    IteratesBetweenEnds(w, start, step, b, k);
  }

  /** So a signed check accepted on such an arc never overflows. */
  lemma SignedCheckOnAnyArc(w: Width, op: BinaryOp, start: int, step: int, b: nat, k: nat, arc: Arc, rhs: Range, y: int)
    requires InSigned(w, start) && k <= b
    requires b * Magnitude(step) < Modulus(w)
    requires OnStepSide(start, Iterate(w, start, step, b), step)
    requires arc.Contains(start) && arc.Contains(Iterate(w, start, step, b))
    requires InSigned(w, arc.first) && InSigned(w, arc.last) && rhs.Fits(w) && rhs.Contains(y)
    requires RangesProveNoOverflow(w, op, true, arc.SignedSpan(w), rhs)
    ensures !Overflows(w, op, true, Iterate(w, start, step, k), y)
  {
    hide Iterate, RangesProveNoOverflow, Overflows;
    IteratesInSpan(w, start, step, b, k, arc);
    ProvedNeverOverflows(w, op, true, arc.SignedSpan(w), rhs, Iterate(w, start, step, k), y);
  }

  /** An unsigned check is different: for 100, 0, -100 on 8 bits the smallest arc that holds both ends
      goes the other way, no member of it overflows when 50 is subtracted, and iterate 1 does. */
  lemma UnsignedCheckNeedsHull()
    ensures 2 * Magnitude(-100) < Modulus(8)
    ensures OnStepSide(100, Iterate(8, 100, -100, 2), -100)
    ensures Arc(100, -100).Contains(100) && Arc(100, -100).Contains(Iterate(8, 100, -100, 2))
    ensures forall x :: InSigned(8, x) && Arc(100, -100).Contains(x) ==> !Overflows(8, Sub, false, x, 50)
    ensures Overflows(8, Sub, false, Iterate(8, 100, -100, 1), 50)
  {
    EightBits();
    WrapNear(8, 100 + 2 * -100);
    WrapNear(8, 100 + 1 * -100);
  }

  // ----- while (count--) ----------------------------------------------------------------------

  /** The counter of `while (count--)`: it steps by -1 and the back edge is taken until it is 0. */
  function Countdown(w: Width, start: Range): Report {
    Counter(w, start, None, -1, 0)
  }

  /** With nothing else known, the check of `count--` is proved dead exactly when the start is
      known to be non-negative. */
  lemma CountdownRemovable(w: Width, start: Range)
    requires start.Fits(w) && !start.IsEmpty()
    ensures RangesProveNoOverflow(w, Add, true, BoundOverflowOperand(w, Countdown(w, start)), Range(-1, -1))
       <==> start.lo >= 0
  {
  }

  /** And the runs agree: from any non-negative start no decrement overflows. */
  lemma CountdownNeverOverflows(w: Width, start: int, k: nat)
    requires 0 <= start <= SignedMax(w)
    requires k <= start
    ensures Iterate(w, start, -1, k) == start - k
    ensures !Overflows(w, Add, true, Iterate(w, start, -1, k), -1)
  {
    var s := Range(start, start);
    WrapNear(w, start + start * -1);
    WrapNear(w, start + k * -1);
    UnitStepNeverTurns(w, -1, start);
    CountdownRemovable(w, s);
    BoundIsSound(w, Countdown(w, s), start, start, k, Iterate(w, start, -1, k));
    ProvedNeverOverflows(w, Add, true, BoundOverflowOperand(w, Countdown(w, s)), Range(-1, -1),
                         Iterate(w, start, -1, k), -1);
  }
}
