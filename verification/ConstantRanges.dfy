/** Value ranges of w-bit registers and the overflow decision made on them
    (`rangesProveNoOverflow`). Registers hold their signed value; a range is a signed
    interval, empty when lo > hi. */
module ConstantRanges {

  function Pow2(n: nat): (r: int)
    ensures r >= 1
  {
    if n == 0 then 1 else 2 * Pow2(n - 1)
  }

  type Width = w: nat | 1 <= w witness 1

  function Modulus(w: Width): (r: int)
    ensures r == SignedMax(w) - SignedMin(w) + 1
    ensures r >= 2
  {
    Pow2(w)
  }

  function SignedMax(w: Width): (r: int)
    ensures r >= 0
  {
    Pow2(w - 1) - 1
  }

  function SignedMin(w: Width): (r: int)
    ensures r < 0
  {
    -Pow2(w - 1)
  }

  predicate InSigned(w: Width, x: int) {
    SignedMin(w) <= x <= SignedMax(w)
  }

  /** The bit pattern of x, read as unsigned. */
  function Unsigned(w: Width, x: int): int {
    if x < 0 then x + Modulus(w) else x
  }

  /** The signed value of the low w bits of an exact result. */
  function Wrap(w: Width, x: int): (r: int)
    ensures InSigned(w, r)
  {
    var u := x % Modulus(w);
    if u <= SignedMax(w) then u else u - Modulus(w)
  }

  datatype BinaryOp = Add | Sub | Mul

  function Exact(op: BinaryOp, x: int, y: int): int {
    match op
    case Add => x + y
    case Sub => x - y
    case Mul => x * y
  }

  /** The overflow bit of a `with.overflow` intrinsic on signed register values x and y. */
  predicate Overflows(w: Width, op: BinaryOp, signed: bool, x: int, y: int) {
    if signed then !InSigned(w, Exact(op, x, y))
    else !(0 <= Exact(op, Unsigned(w, x), Unsigned(w, y)) < Modulus(w))
  }

  datatype Range = Range(lo: int, hi: int) {
    predicate IsEmpty() {
      lo > hi
    }

    predicate Contains(x: int) {
      lo <= x <= hi
    }

    predicate IsFull(w: Width) {
      lo <= SignedMin(w) && SignedMax(w) <= hi
    }

    /** Every member is a w-bit signed value. */
    predicate Fits(w: Width) {
      IsEmpty() || (SignedMin(w) <= lo && hi <= SignedMax(w))
    }

    function IntersectWith(other: Range): (r: Range)
      ensures forall x :: r.Contains(x) <==> Contains(x) && other.Contains(x)
    {
      Range(if lo < other.lo then other.lo else lo, if hi < other.hi then hi else other.hi)
    }

    /** The signed hull of two non-empty ranges. */
    function UnionWith(other: Range): (r: Range)
      ensures forall x :: Contains(x) || other.Contains(x) ==> r.Contains(x)
    {
      if IsEmpty() then other
      else if other.IsEmpty() then this
      else Range(if lo < other.lo then lo else other.lo, if hi < other.hi then other.hi else hi)
    }

    function UnsignedMin(w: Width): int
      requires !IsEmpty()
    {
      if lo >= 0 then lo else if hi < 0 then lo + Modulus(w) else 0
    }

    function UnsignedMax(w: Width): int
      requires !IsEmpty()
    {
      if lo >= 0 then hi else if hi < 0 then hi + Modulus(w) else Modulus(w) - 1
    }
  }

  function FullRange(w: Width): Range {
    Range(SignedMin(w), SignedMax(w))
  }

  datatype OverflowResult = AlwaysOverflowsLow | AlwaysOverflowsHigh | MayOverflow | NeverOverflows

  function SignedAddMayOverflow(w: Width, a: Range, b: Range): OverflowResult {
    if a.IsEmpty() || b.IsEmpty() then MayOverflow
    else if a.lo >= 0 && b.lo >= 0 && a.lo > SignedMax(w) - b.lo then AlwaysOverflowsHigh
    else if a.hi < 0 && b.hi < 0 && a.hi < SignedMin(w) - b.hi then AlwaysOverflowsLow
    else if a.hi >= 0 && b.hi >= 0 && a.hi > SignedMax(w) - b.hi then MayOverflow
    else if a.lo < 0 && b.lo < 0 && a.lo < SignedMin(w) - b.lo then MayOverflow
    else NeverOverflows
  }

  function SignedSubMayOverflow(w: Width, a: Range, b: Range): OverflowResult {
    if a.IsEmpty() || b.IsEmpty() then MayOverflow
    else if a.lo >= 0 && b.hi < 0 && a.lo > SignedMax(w) + b.hi then AlwaysOverflowsHigh
    else if a.hi < 0 && b.lo >= 0 && a.hi < SignedMin(w) + b.lo then AlwaysOverflowsLow
    else if a.hi >= 0 && b.lo < 0 && a.hi > SignedMax(w) + b.lo then MayOverflow
    else if a.lo < 0 && b.hi >= 0 && a.lo < SignedMin(w) + b.hi then MayOverflow
    else NeverOverflows
  }

  function UnsignedAddMayOverflow(w: Width, a: Range, b: Range): OverflowResult {
    if a.IsEmpty() || b.IsEmpty() then MayOverflow
    else if a.UnsignedMin(w) > Modulus(w) - 1 - b.UnsignedMin(w) then AlwaysOverflowsHigh
    else if a.UnsignedMax(w) > Modulus(w) - 1 - b.UnsignedMax(w) then MayOverflow
    else NeverOverflows
  }

  function UnsignedSubMayOverflow(w: Width, a: Range, b: Range): OverflowResult {
    if a.IsEmpty() || b.IsEmpty() then MayOverflow
    else if a.UnsignedMax(w) < b.UnsignedMin(w) then AlwaysOverflowsLow
    else if a.UnsignedMin(w) < b.UnsignedMax(w) then MayOverflow
    else NeverOverflows
  }

  function UnsignedMulMayOverflow(w: Width, a: Range, b: Range): OverflowResult {
    if a.IsEmpty() || b.IsEmpty() then MayOverflow
    else if a.UnsignedMin(w) * b.UnsignedMin(w) >= Modulus(w) then AlwaysOverflowsHigh
    else if a.UnsignedMax(w) * b.UnsignedMax(w) >= Modulus(w) then MayOverflow
    else NeverOverflows
  }

  /** The decision of the pass; a signed multiplication is never proved. */
  predicate RangesProveNoOverflow(w: Width, op: BinaryOp, signed: bool, lhs: Range, rhs: Range) {
    var res := match op
      case Add => if signed then SignedAddMayOverflow(w, lhs, rhs) else UnsignedAddMayOverflow(w, lhs, rhs)
      case Sub => if signed then SignedSubMayOverflow(w, lhs, rhs) else UnsignedSubMayOverflow(w, lhs, rhs)
      case Mul => if signed then MayOverflow else UnsignedMulMayOverflow(w, lhs, rhs);
    res == NeverOverflows
  }

  // ----- the decision is exact -------------------------------------------------------------

  lemma UnsignedBounds(w: Width, a: Range, x: int)
    requires a.Fits(w) && a.Contains(x)
    ensures 0 <= a.UnsignedMin(w) <= Unsigned(w, x) <= a.UnsignedMax(w) < Modulus(w)
  {
  }

  /** A member of a non-empty range with the least (greatest) bit pattern. */
  function UnsignedLeast(w: Width, a: Range): (x: int)
    requires a.Fits(w) && !a.IsEmpty()
    ensures a.Contains(x) && Unsigned(w, x) == a.UnsignedMin(w)
  {
    if a.lo >= 0 || a.hi < 0 then a.lo else 0
  }

  function UnsignedGreatest(w: Width, a: Range): (x: int)
    requires a.Fits(w) && !a.IsEmpty()
    ensures a.Contains(x) && Unsigned(w, x) == a.UnsignedMax(w)
  {
    if a.lo >= 0 || a.hi < 0 then a.hi else -1
  }

  lemma ProductOrder(a: int, b: int, x: int, y: int)
    requires 0 <= x <= a && 0 <= y <= b
    ensures 0 <= x * y <= a * b
  {
    assert x * y <= a * y;
    assert a * y <= a * b;
  }

  /** Proved ranges never overflow: for every pair of members the overflow bit is false. */
  lemma ProvedNeverOverflows(w: Width, op: BinaryOp, signed: bool, lhs: Range, rhs: Range, x: int, y: int)
    requires lhs.Fits(w) && rhs.Fits(w)
    requires RangesProveNoOverflow(w, op, signed, lhs, rhs)
    requires lhs.Contains(x) && rhs.Contains(y)
    ensures !Overflows(w, op, signed, x, y)
  {
    UnsignedBounds(w, lhs, x);
    UnsignedBounds(w, rhs, y);
    if op == Mul {
      ProductOrder(lhs.UnsignedMax(w), rhs.UnsignedMax(w), Unsigned(w, x), Unsigned(w, y));
    }
  }

  /** A pair of members that overflows, when the ranges are not proved. */
  lemma UnprovedWitness(w: Width, op: BinaryOp, signed: bool, lhs: Range, rhs: Range) returns (x: int, y: int)
    requires lhs.Fits(w) && rhs.Fits(w) && !lhs.IsEmpty() && !rhs.IsEmpty()
    requires !(op == Mul && signed)
    requires !RangesProveNoOverflow(w, op, signed, lhs, rhs)
    ensures lhs.Contains(x) && rhs.Contains(y)
    ensures Overflows(w, op, signed, x, y)
  {
    if signed {
      var high := if op == Add then lhs.hi + rhs.hi else lhs.hi - rhs.lo;
      if high > SignedMax(w) {
        x, y := lhs.hi, if op == Add then rhs.hi else rhs.lo;
      } else {
        x, y := lhs.lo, if op == Add then rhs.lo else rhs.hi;
      }
    } else {
      x := if op == Sub then UnsignedLeast(w, lhs) else UnsignedGreatest(w, lhs);
      y := UnsignedGreatest(w, rhs);
      if op == Mul {
        UnsignedBounds(w, lhs, UnsignedLeast(w, lhs));
        UnsignedBounds(w, rhs, UnsignedLeast(w, rhs));
        ProductOrder(lhs.UnsignedMax(w), rhs.UnsignedMax(w), lhs.UnsignedMin(w), rhs.UnsignedMin(w));
      } else {
        UnsignedBounds(w, lhs, UnsignedLeast(w, lhs));
        UnsignedBounds(w, rhs, UnsignedLeast(w, rhs));
      }
    }
  }

  /** The decision is exact for every operation but signed multiplication: it answers yes on
      non-empty ranges if and only if no pair of members overflows. */
  lemma DecisionIsExact(w: Width, op: BinaryOp, signed: bool, lhs: Range, rhs: Range)
    requires lhs.Fits(w) && rhs.Fits(w) && !lhs.IsEmpty() && !rhs.IsEmpty()
    requires !(op == Mul && signed)
    ensures RangesProveNoOverflow(w, op, signed, lhs, rhs)
       <==> forall x, y :: lhs.Contains(x) && rhs.Contains(y) ==> !Overflows(w, op, signed, x, y)
  {
    hide Overflows, RangesProveNoOverflow;
    if RangesProveNoOverflow(w, op, signed, lhs, rhs) {
      forall x, y | lhs.Contains(x) && rhs.Contains(y)
        ensures !Overflows(w, op, signed, x, y)
      {
        ProvedNeverOverflows(w, op, signed, lhs, rhs, x, y);
      }
    } else {
      var x, y := UnprovedWitness(w, op, signed, lhs, rhs);
    }
  }
}
