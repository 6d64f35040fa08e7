/** `_result`: one check result built from a target, an actual value and an operator. */
module CheckResults {
  import opened Records

  /** `round(x, 1)`. Its exact behaviour is not modelled; it is a parameter of the evaluator. */
  type Rounding = real -> real

  /** The one property of rounding some facts rely on: it keeps non-negative numbers non-negative. */
  ghost predicate KeepsNonNegative(round: Rounding) {
    forall x: real :: 0.0 <= x ==> 0.0 <= round(x)
  }

  /** The requirement is met: the actual value lies on the operator's side of the target. */
  predicate Satisfies(op: Operator, actual: real, target: real) {
    match op
    case AtLeast => target <= actual
    case AtMost => actual <= target
  }

  /** How far `actual` lies on the compliant side of `target`, as a percentage of `target`,
      before rounding. */
  function Headroom(op: Operator, target: real, actual: real): real
    requires target != 0.0
  {
    match op
    case AtLeast => (actual - target) / target * 100.0
    case AtMost => (target - actual) / target * 100.0
  }

  /** `_result(requirement, check, target, actual, unit, operator)`. */
  function MakeResult(requirement: string, check: string, target: real, actual: real,
                      unit: string, op: Operator, round: Rounding): (r: CheckResult)
    ensures r.requirement == requirement && r.check == check && r.unit == unit
    ensures r.target == target && r.actual == actual && r.operator == op
    ensures r.status == Pass <==> Satisfies(op, actual, target)
    ensures target == 0.0 ==> r.margin == 0.0
    ensures target != 0.0 ==> r.margin == round(Headroom(op, target, actual))
  {
    var passed := if op == AtLeast then actual >= target else actual <= target;
    var margin :=
      if target == 0.0 then 0.0
      else if op == AtLeast then round((actual - target) / target * 100.0)
      else round((target - actual) / target * 100.0);
    CheckResult(requirement, check, target, actual, unit, op,
                if passed then Pass else Fail, margin)
  }

  /** Every result's status follows from its own target, actual and operator alone. */
  predicate Consistent(r: CheckResult) {
    r.status == Pass <==> Satisfies(r.operator, r.actual, r.target)
  }

  /** For a positive target the unrounded headroom is non-negative exactly when the
      requirement is met, whichever the operator. */
  lemma HeadroomSignMatchesStatus(op: Operator, target: real, actual: real)
    requires 0.0 < target
    ensures 0.0 <= Headroom(op, target, actual) <==> Satisfies(op, actual, target)
  {
    var d := if op == AtLeast then actual - target else target - actual;
    assert Headroom(op, target, actual) == d / target * 100.0;
    assert Satisfies(op, actual, target) <==> 0.0 <= d;
    DivisionKeepsSign(d, target);
  }

  /** For a negative target the sign flips: the headroom is positive exactly when the
      requirement is NOT met. */
  lemma HeadroomSignInvertedForNegativeTarget(op: Operator, target: real, actual: real)
    requires target < 0.0
    ensures 0.0 < Headroom(op, target, actual) <==> !Satisfies(op, actual, target)
  {
    var d := if op == AtLeast then actual - target else target - actual;
    assert Headroom(op, target, actual) == d / target * 100.0;
    assert Satisfies(op, actual, target) <==> 0.0 <= d;
    DivisionFlipsSign(d, target);
  }

  lemma DivisionKeepsSign(d: real, t: real)
    requires 0.0 < t
    ensures 0.0 <= d / t * 100.0 <==> 0.0 <= d
  {
    assert d / t * t == d;
  }

  lemma DivisionFlipsSign(d: real, t: real)
    requires t < 0.0
    ensures 0.0 < d / t * 100.0 <==> d < 0.0
  {
    assert d / t * t == d;
  }

  /** A passing result with a positive target never carries a negative margin, as long as
      rounding keeps non-negative numbers non-negative. */
  lemma PassingMarginNonNegative(requirement: string, check: string, target: real, actual: real,
                                 unit: string, op: Operator, round: Rounding)
    requires 0.0 < target && KeepsNonNegative(round)
    requires MakeResult(requirement, check, target, actual, unit, op, round).status == Pass
    ensures 0.0 <= MakeResult(requirement, check, target, actual, unit, op, round).margin
  {
    HeadroomSignMatchesStatus(op, target, actual);
  }
}
