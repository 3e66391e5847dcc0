/** Turning range bounds into a where clause with numbered parameters. */
module SqlBounds {
  import opened QueryData

  const TWO_63: nat := 0x8000_0000_0000_0000
  const TWO_64: nat := 0x1_0000_0000_0000_0000

  datatype Comparison = AtLeast | Above | AtMost | Below

  /** One condition of the clause: the column compared with parameter number `param`, counted from 1. */
  datatype Condition = Condition(comparison: Comparison, param: nat)

  /** A 64-bit unsigned number read as a signed one. */
  function AsI64(n: nat): int { if n < TWO_63 then n else n - TWO_64 }

  predicate Holds(c: Condition, params: seq<int>, value: int)
    requires 1 <= c.param <= |params|
  {
    var p := params[c.param - 1];
    match c.comparison
    case AtLeast => value >= p
    case Above => value > p
    case AtMost => value <= p
    case Below => value < p
  }

  /** Every condition refers to a parameter that is there. */
  predicate WellNumbered(clause: seq<Condition>, params: seq<int>) {
    forall c :: c in clause ==> 1 <= c.param <= |params|
  }

  /** The conditions are joined by AND; no condition selects everything. */
  predicate Selects(clause: seq<Condition>, params: seq<int>, value: int)
    requires WellNumbered(clause, params)
  {
    forall c :: c in clause ==> Holds(c, params, value)
  }

  /** The range with its bounds read as signed numbers. */
  predicate SignedRange(value: int, start: Bound, end: Bound) {
    && (match start
        case Included(n) => value >= AsI64(n)
        case Excluded(n) => value > AsI64(n)
        case Unbounded => true)
    && (match end
        case Included(n) => value <= AsI64(n)
        case Excluded(n) => value < AsI64(n)
        case Unbounded => true)
  }

  /** A clause with its parameters. */
  datatype Where = Where(clause: seq<Condition>, params: seq<int>)

  function WhereClause(start: Bound, end: Bound): (w: Where)
    ensures WellNumbered(w.clause, w.params)
  {
    var first := match start
      case Included(n) => Where([Condition(AtLeast, 1)], [AsI64(n)])
      case Excluded(n) => Where([Condition(Above, 1)], [AsI64(n)])
      case Unbounded => Where([], []);
    match end
    case Included(n) => Where(first.clause + [Condition(AtMost, |first.params| + 1)], first.params + [AsI64(n)])
    case Excluded(n) => Where(first.clause + [Condition(Below, |first.params| + 1)], first.params + [AsI64(n)])
    case Unbounded => first
  }

  /** The rows a range query asks for. */
  predicate Selected(value: int, start: Bound, end: Bound) {
    var w := WhereClause(start, end);
    Selects(w.clause, w.params, value)
  }

  method BoundsToWhereClause(start: Bound, end: Bound) returns (clause: seq<Condition>, params: seq<int>)
    ensures Where(clause, params) == WhereClause(start, end)
    ensures |clause| == |params| && forall i :: 0 <= i < |clause| ==> clause[i].param == i + 1
    ensures forall value: int :: Selects(clause, params, value) <==> SignedRange(value, start, end)
  {
    clause, params := [], [];
    match start {
      case Included(n) =>
        params := params + [AsI64(n)];
        clause := clause + [Condition(AtLeast, |params|)];
      case Excluded(n) =>
        params := params + [AsI64(n)];
        clause := clause + [Condition(Above, |params|)];
      case Unbounded =>
    }
    match end {
      case Included(n) =>
        params := params + [AsI64(n)];
        clause := clause + [Condition(AtMost, |params|)];
      case Excluded(n) =>
        params := params + [AsI64(n)];
        clause := clause + [Condition(Below, |params|)];
      case Unbounded =>
    }
    assert Where(clause, params) == WhereClause(start, end);
    forall value: int ensures Selects(clause, params, value) <==> SignedRange(value, start, end) {
      SelectedIsSigned(value, start, end);
      assert Selected(value, start, end) <==> Selects(clause, params, value);
    }
  }

  /** The clause selects the range with its bounds read as signed numbers. */
  lemma SelectedIsSigned(value: int, start: Bound, end: Bound)
    ensures Selected(value, start, end) <==> SignedRange(value, start, end)
  {
    var clause := WhereClause(start, end).clause;
    if |clause| > 0 { assert clause[0] in clause; }
    if |clause| > 1 { assert clause[1] in clause; }
  }

  /** The bound is a 64-bit unsigned number, if there is one. */
  predicate Fits(b: Bound) { b.Unbounded? || b.n < TWO_64 }

  predicate Small(b: Bound) { b.Unbounded? || b.n < TWO_63 }

  /** Exactly when the clause selects the heights of the range, heights being below 2^63: when both bounds
      are below 2^63, or neither is, or the one that is leaves no height in the range anyway. */
  lemma ClauseSelectsRangeIff(start: Bound, end: Bound)
    requires Fits(start) && Fits(end)
    ensures (forall h: nat :: h < TWO_63 ==> (SignedRange(h, start, end) <==> InRange(h, start, end)))
            <==> (|| Small(start) == Small(end)
                  || (!Small(start) && end == Excluded(0))
                  || (!Small(end) && start == Excluded(TWO_63 - 1)))
  {
    if !Small(start) && Small(end) {
      if end == Excluded(0) {
        assert forall h: nat :: !BelowEnd(h, end);
      } else {
        assert SignedRange(0, start, end) && !InRange(0, start, end);
      }
    }
    if Small(start) && !Small(end) {
      assert forall h: nat :: !SignedRange(h, start, end);
      var h: nat := match start case Included(n) => n case Excluded(n) => n + 1 case Unbounded => 0;
      if start != Excluded(TWO_63 - 1) { assert InRange(h, start, end); }
    }
  }

  // ---- The range of heights a clause stands for ----

  /** A start of 2^63 or above becomes negative, and so bounds nothing. */
  function SignedStart(start: Bound): Bound { if Small(start) then start else Unbounded }

  /** An end of 2^63 or above becomes negative, and so leaves nothing. */
  function SignedEnd(end: Bound): Bound { if Small(end) then end else Excluded(0) }

  lemma SelectedIsRange(height: nat, start: Bound, end: Bound)
    requires Fits(start) && Fits(end)
    ensures Selected(height, start, end) <==> InRange(height, SignedStart(start), SignedEnd(end))
  {
    SelectedIsSigned(height, start, end);
  }

  /** In a sequence of `n` rows, the range read as signed numbers lists what the range itself lists. */
  predicate SameRows(start: Bound, end: Bound, n: nat) {
    || Small(start) == Small(end)
    || (!Small(start) && LimitOf(end, n) == 0)
    || (!Small(end) && FirstOf(start) >= n)
  }
}
