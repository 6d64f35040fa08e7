/** The evaluator's fixed rule table, as a specification: which requirement each check reads,
    which target field, which actual value, which unit and which operator, and when the check
    is skipped. The methods of module Compliance follow the source's own control flow and are
    proved to produce exactly what this table prescribes. */
module Rules {
  import opened Records
  import opened CheckResults
  import opened RequirementLookup

  datatype Rule = Range | StructureWeight | CruiseSpeed | MassRollUp

  /** The order in which `run_all_checks` evaluates the rules. */
  const AllRules: seq<Rule> := [Range, StructureWeight, CruiseSpeed, MassRollUp]

  /** The rules of `check_reqs_vs_cad`, in its order. */
  const CadRules: seq<Rule> := [Range, StructureWeight, CruiseSpeed]

  const WeightRequirement := "MaxStructureWeight"

  function Rank(rule: Rule): nat {
    match rule
    case Range => 0
    case StructureWeight => 1
    case CruiseSpeed => 2
    case MassRollUp => 3
  }

  function RequirementName(rule: Rule): string {
    match rule
    case Range => "RangeReq"
    case StructureWeight => WeightRequirement
    case CruiseSpeed => "CruiseSpeed"
    case MassRollUp => WeightRequirement
  }

  function CheckName(rule: Rule): string {
    match rule
    case Range => "Range"
    case StructureWeight => "Structure Weight"
    case CruiseSpeed => "Cruise Speed"
    case MassRollUp => "Architecture Mass Roll-up"
  }

  function TargetField(rule: Rule): string {
    match rule
    case Range => "targetValue"
    case StructureWeight => "maxValue"
    case CruiseSpeed => "minValue"
    case MassRollUp => "maxValue"
  }

  function Unit(rule: Rule): string {
    match rule
    case Range => "nm"
    case StructureWeight => "lb"
    case CruiseSpeed => "kts"
    case MassRollUp => "lb"
  }

  function Op(rule: Rule): Operator {
    match rule
    case Range => AtLeast
    case StructureWeight => AtMost
    case CruiseSpeed => AtLeast
    case MassRollUp => AtMost
  }

  /** The roll-up's target: the `maxValue` of the first requirement record named
      "MaxStructureWeight", scanning the raw records (not the lookup); 0 when there is none. */
  function ScanTarget(reqs: seq<Requirement>): real {
    if reqs == [] then 0.0
    else if reqs[0].name == Some(WeightRequirement) then FieldOrZero(Attributes(reqs[0]), "maxValue")
    else ScanTarget(reqs[1..])
  }

  /** No record before position `i` is named "MaxStructureWeight". */
  ghost predicate NoWeightBefore(reqs: seq<Requirement>, i: int)
    requires 0 <= i <= |reqs|
  {
    forall j :: 0 <= j < i ==> reqs[j].name != Some(WeightRequirement)
  }

  /** The scan stops at the first record named "MaxStructureWeight" and reads its `maxValue`;
      it reads 0 when no record has that name. Later namesakes are never consulted. */
  lemma {:induction false} ScanTargetIsFirstMatch(reqs: seq<Requirement>)
    ensures NoWeightBefore(reqs, |reqs|) ==> ScanTarget(reqs) == 0.0
    ensures forall i :: 0 <= i < |reqs| && reqs[i].name == Some(WeightRequirement) && NoWeightBefore(reqs, i)
                        ==> ScanTarget(reqs) == FieldOrZero(Attributes(reqs[i]), "maxValue")
  {
    if reqs != [] && reqs[0].name != Some(WeightRequirement) {
      var tail := reqs[1..];
      ScanTargetIsFirstMatch(tail);
      assert forall j :: 1 <= j < |reqs| ==> reqs[j] == tail[j - 1];
      if NoWeightBefore(reqs, |reqs|) {
        assert NoWeightBefore(tail, |tail|);
      }
      forall i | 0 <= i < |reqs| && reqs[i].name == Some(WeightRequirement) && NoWeightBefore(reqs, i)
        ensures ScanTarget(reqs) == FieldOrZero(Attributes(reqs[i]), "maxValue")
      {
        assert i > 0;
        assert NoWeightBefore(tail, i - 1);
        assert tail[i - 1] == reqs[i];
      }
    }
  }

  /** The unrounded mass roll-up, accumulated over the parts in iteration order. */
  function MassSum(parts: seq<Part>): real {
    if parts == [] then 0.0 else MassSum(parts[..|parts| - 1]) + MassOf(parts[|parts| - 1])
  }

  /** The mass values that are present, in iteration order. */
  function PresentMasses(parts: seq<Part>): (ms: seq<real>)
    ensures |ms| <= |parts|
    ensures forall m :: m in ms <==> exists i :: 0 <= i < |parts| && parts[i].massValue == Some(m)
  {
    if parts == [] then []
    else
      var rest := PresentMasses(parts[1..]);
      assert forall i :: 1 <= i < |parts| ==> parts[i] == parts[1..][i - 1];
      match parts[0].massValue
      case None => rest
      case Some(m) => [m] + rest
  }

  function Sum(xs: seq<real>): real {
    if xs == [] then 0.0 else xs[0] + Sum(xs[1..])
  }

  /** A rule's target, as read from the requirements. */
  function Target(rule: Rule, reqs: seq<Requirement>): real {
    match rule
    case MassRollUp => ScanTarget(reqs)
    case _ => LookupTarget(BuildLookup(reqs), RequirementName(rule), TargetField(rule))
  }

  /** A rule's actual value: a metric field for the CAD rules, the rounded mass roll-up for the
      architecture rule. */
  function Actual(rule: Rule, parts: seq<Part>, metrics: Metrics, round: Rounding): real {
    match rule
    case Range => MetricOrZero(metrics, "range_mission", "range_nm")
    case StructureWeight => MetricOrZero(metrics, "mass_properties", "empty_weight_lbm")
    case CruiseSpeed => MetricOrZero(metrics, "range_mission", "cruise_speed_kts")
    case MassRollUp => round(MassSum(parts))
  }

  /** The result a rule reports when it is not skipped. */
  function RuleResult(rule: Rule, reqs: seq<Requirement>, parts: seq<Part>, metrics: Metrics,
                      round: Rounding): CheckResult
  {
    MakeResult(RequirementName(rule), CheckName(rule), Target(rule, reqs),
               Actual(rule, parts, metrics, round), Unit(rule), Op(rule), round)
  }

  /** A rule yields its result when its target is non-zero and nothing otherwise. */
  function Outcome(rule: Rule, reqs: seq<Requirement>, parts: seq<Part>, metrics: Metrics,
                   round: Rounding): seq<CheckResult>
  {
    if Target(rule, reqs) == 0.0 then [] else [RuleResult(rule, reqs, parts, metrics, round)]
  }

  /** The outcomes of several rules, concatenated in order. */
  function Outcomes(rules: seq<Rule>, reqs: seq<Requirement>, parts: seq<Part>, metrics: Metrics,
                    round: Rounding): seq<CheckResult>
  {
    Collect(rules, rule => Outcome(rule, reqs, parts, metrics, round))
  }

  /** The rules that are not skipped, in their original order. */
  function Kept(rules: seq<Rule>, reqs: seq<Requirement>): seq<Rule> {
    Filter(rules, rule => Target(rule, reqs) != 0.0)
  }

  function Collect(rules: seq<Rule>, outcomeOf: Rule -> seq<CheckResult>): seq<CheckResult> {
    if rules == [] then [] else outcomeOf(rules[0]) + Collect(rules[1..], outcomeOf)
  }

  function Filter(rules: seq<Rule>, keep: Rule -> bool): seq<Rule> {
    if rules == [] then []
    else if keep(rules[0]) then [rules[0]] + Filter(rules[1..], keep)
    else Filter(rules[1..], keep)
  }

  /** Filtering keeps exactly the rules that pass the test, in their order. */
  lemma {:induction false} FilterIsOrderedSubset(rules: seq<Rule>, keep: Rule -> bool)
    ensures |Filter(rules, keep)| <= |rules|
    ensures forall rule :: rule in Filter(rules, keep) <==> rule in rules && keep(rule)
    ensures StrictlyRanked(rules) ==> StrictlyRanked(Filter(rules, keep))
  {
    if rules != [] {
      var rest := rules[1..];
      FilterIsOrderedSubset(rest, keep);
      assert rules == [rules[0]] + rest;
      if StrictlyRanked(rules) {
        assert StrictlyRanked(rest);
        var kept := Filter(rules, keep);
        forall i, j | 0 <= i < j < |kept| ensures Rank(kept[i]) < Rank(kept[j]) {
          if keep(rules[0]) && i == 0 {
            assert kept[j] in Filter(rest, keep);
            var k :| 0 <= k < |rest| && rest[k] == kept[j];
            assert rules[k + 1] == kept[j];
          }
        }
      }
    }
  }

  /** When every rule yields either nothing or its one result, the collected outcomes are
      the results of the rules that yield something, one each, in order. */
  lemma {:induction false} CollectFollowsFilter(rules: seq<Rule>, outcomeOf: Rule -> seq<CheckResult>,
                                                 keep: Rule -> bool, result: Rule -> CheckResult)
    requires forall rule :: outcomeOf(rule) == if keep(rule) then [result(rule)] else []
    ensures |Collect(rules, outcomeOf)| == |Filter(rules, keep)|
    ensures forall i :: 0 <= i < |Filter(rules, keep)| ==> Collect(rules, outcomeOf)[i] == result(Filter(rules, keep)[i])
  {
    if rules != [] {
      CollectFollowsFilter(rules[1..], outcomeOf, keep, result);
    }
  }

  /** Collecting over two lists one after the other concatenates the outcomes. */
  lemma {:induction false} CollectAppend(r1: seq<Rule>, r2: seq<Rule>, outcomeOf: Rule -> seq<CheckResult>)
    ensures Collect(r1 + r2, outcomeOf) == Collect(r1, outcomeOf) + Collect(r2, outcomeOf)
  {
    if r1 != [] {
      assert (r1 + r2)[0] == r1[0];
      assert (r1 + r2)[1..] == r1[1..] + r2;
      CollectAppend(r1[1..], r2, outcomeOf);
    } else {
      assert r1 + r2 == r2;
    }
  }

  /** The kept rules are exactly the listed rules with a non-zero target, in the list's order. */
  lemma KeptIsOrderedFilter(rules: seq<Rule>, reqs: seq<Requirement>)
    ensures |Kept(rules, reqs)| <= |rules|
    ensures forall rule :: rule in Kept(rules, reqs) <==> rule in rules && Target(rule, reqs) != 0.0
    ensures StrictlyRanked(rules) ==> StrictlyRanked(Kept(rules, reqs))
  {
    FilterIsOrderedSubset(rules, rule => Target(rule, reqs) != 0.0);
  }

  /** The outcomes of a list of rules are the results of its kept rules, one each, in order. */
  lemma OutcomesFollowKept(rules: seq<Rule>, reqs: seq<Requirement>, parts: seq<Part>,
                           metrics: Metrics, round: Rounding)
    ensures |Outcomes(rules, reqs, parts, metrics, round)| == |Kept(rules, reqs)|
    ensures forall i :: 0 <= i < |Kept(rules, reqs)| ==>
              Outcomes(rules, reqs, parts, metrics, round)[i] == RuleResult(Kept(rules, reqs)[i], reqs, parts, metrics, round)
  {
    CollectFollowsFilter(rules, rule => Outcome(rule, reqs, parts, metrics, round),
                         rule => Target(rule, reqs) != 0.0, rule => RuleResult(rule, reqs, parts, metrics, round));
  }

  /** Rules listed in strictly increasing rank. */
  predicate StrictlyRanked(rules: seq<Rule>) {
    forall i, j :: 0 <= i < j < |rules| ==> Rank(rules[i]) < Rank(rules[j])
  }

  lemma {:induction false} SumAppend(xs: seq<real>, x: real)
    ensures Sum(xs + [x]) == Sum(xs) + x
  {
    if xs != [] {
      assert (xs + [x])[1..] == xs[1..] + [x];
      SumAppend(xs[1..], x);
    }
  }

  lemma {:induction false} PresentMassesAppend(parts: seq<Part>, p: Part)
    ensures PresentMasses(parts + [p]) == PresentMasses(parts) + PresentMasses([p])
  {
    if parts != [] {
      assert (parts + [p])[1..] == parts[1..] + [p];
      PresentMassesAppend(parts[1..], p);
    }
  }

  /** The roll-up adds up exactly the mass values that are present: parts without a value
      contribute nothing. */
  lemma {:induction false} MassSumIsSumOfPresentMasses(parts: seq<Part>)
    ensures MassSum(parts) == Sum(PresentMasses(parts))
  {
    if parts != [] {
      var init, last := parts[..|parts| - 1], parts[|parts| - 1];
      assert parts == init + [last];
      MassSumIsSumOfPresentMasses(init);
      PresentMassesAppend(init, last);
      match last.massValue
      case None =>
        assert PresentMasses([last]) == [];
        assert PresentMasses(init) + [] == PresentMasses(init);
      case Some(m) =>
        assert PresentMasses([last]) == [m];
        SumAppend(PresentMasses(init), m);
    }
  }

  /** The positions of the parts whose mass value is `m`. */
  ghost function Carrying(parts: seq<Part>, m: real): set<int> {
    set i | 0 <= i < |parts| && parts[i].massValue == Some(m)
  }

  /** Every present mass value is kept once per part that carries it: repeated values are
      not merged, so the sum sees each of them. */
  lemma {:induction false} PresentMassesKeepsRepeats(parts: seq<Part>)
    ensures forall m :: multiset(PresentMasses(parts))[m] == |Carrying(parts, m)|
  {
    if parts == [] {
      forall m ensures multiset(PresentMasses(parts))[m] == |Carrying(parts, m)| {
        assert Carrying(parts, m) == {};
      }
    } else {
      var n := |parts| - 1;
      var init, last := parts[..n], parts[n];
      assert parts == init + [last];
      PresentMassesKeepsRepeats(init);
      PresentMassesAppend(init, last);
      var tail := PresentMasses([last]);
      assert tail == if last.massValue.Some? then [last.massValue.value] else [] by {
        assert [last][1..] == [];
      }
      assert multiset(PresentMasses(parts)) == multiset(PresentMasses(init)) + multiset(tail);
      forall m ensures multiset(PresentMasses(parts))[m] == |Carrying(parts, m)| {
        CarryingStep(parts, m);
      }
    }
  }

  lemma CarryingStep(parts: seq<Part>, m: real)
    requires parts != []
    ensures |Carrying(parts, m)| == |Carrying(parts[..|parts| - 1], m)| + if parts[|parts| - 1].massValue == Some(m) then 1 else 0
  {
    var n := |parts| - 1;
    var before, after := Carrying(parts[..n], m), Carrying(parts, m);
    if parts[n].massValue == Some(m) {
      assert after == before + {n};
    } else {
      assert after == before;
    }
  }

  /** With no negative mass value present, the roll-up is non-negative. */
  lemma {:induction false} MassSumNonNegative(parts: seq<Part>)
    requires forall i :: 0 <= i < |parts| ==> 0.0 <= MassOf(parts[i])
    ensures 0.0 <= MassSum(parts)
  {
    if parts != [] {
      MassSumNonNegative(parts[..|parts| - 1]);
    }
  }

  /** `check_reqs_vs_cad`'s rules, one after the other. */
  lemma CadOutcomesInOrder(reqs: seq<Requirement>, parts: seq<Part>, metrics: Metrics, round: Rounding)
    ensures Outcomes(CadRules, reqs, parts, metrics, round)
         == Outcome(Range, reqs, parts, metrics, round) + Outcome(StructureWeight, reqs, parts, metrics, round)
            + Outcome(CruiseSpeed, reqs, parts, metrics, round)
  {
    var outcomeOf := rule => Outcome(rule, reqs, parts, metrics, round);
    CollectAppend([Range], [StructureWeight, CruiseSpeed], outcomeOf);
    CollectAppend([StructureWeight], [CruiseSpeed], outcomeOf);
    assert [Range] + [StructureWeight, CruiseSpeed] == CadRules;
    assert [StructureWeight] + [CruiseSpeed] == [StructureWeight, CruiseSpeed];
    SingleCollect(Range, outcomeOf);
    SingleCollect(StructureWeight, outcomeOf);
    SingleCollect(CruiseSpeed, outcomeOf);
  }

  /** All rules: the CAD rules, then the roll-up. */
  lemma AllOutcomesInOrder(reqs: seq<Requirement>, parts: seq<Part>, metrics: Metrics, round: Rounding)
    ensures Outcomes(AllRules, reqs, parts, metrics, round)
         == Outcomes(CadRules, reqs, parts, metrics, round) + Outcome(MassRollUp, reqs, parts, metrics, round)
  {
    var outcomeOf := rule => Outcome(rule, reqs, parts, metrics, round);
    assert AllRules == CadRules + [MassRollUp];
    CollectAppend(CadRules, [MassRollUp], outcomeOf);
    SingleCollect(MassRollUp, outcomeOf);
  }

  lemma SingleCollect(rule: Rule, outcomeOf: Rule -> seq<CheckResult>)
    ensures Collect([rule], outcomeOf) == outcomeOf(rule)
  {
    assert [rule][1..] == [];
  }

  /** The CAD rules read the metrics, never the parts. */
  lemma CadOutcomesIgnoreParts(reqs: seq<Requirement>, p1: seq<Part>, p2: seq<Part>, metrics: Metrics, round: Rounding)
    ensures Outcomes(CadRules, reqs, p1, metrics, round) == Outcomes(CadRules, reqs, p2, metrics, round)
  {
    CadOutcomesInOrder(reqs, p1, metrics, round);
    CadOutcomesInOrder(reqs, p2, metrics, round);
    assert Outcome(Range, reqs, p1, metrics, round) == Outcome(Range, reqs, p2, metrics, round);
    assert Outcome(StructureWeight, reqs, p1, metrics, round) == Outcome(StructureWeight, reqs, p2, metrics, round);
    assert Outcome(CruiseSpeed, reqs, p1, metrics, round) == Outcome(CruiseSpeed, reqs, p2, metrics, round);
  }

  /** Every rule is listed once, at the position of its rank. */
  lemma AllRulesInRankOrder()
    ensures |AllRules| == 4
    ensures forall i :: 0 <= i < |AllRules| ==> Rank(AllRules[i]) == i
    ensures StrictlyRanked(AllRules)
    ensures forall rule :: rule in AllRules
  {
    forall i | 0 <= i < |AllRules| ensures Rank(AllRules[i]) == i {
      if i == 0 {} else if i == 1 {} else if i == 2 {} else {}
    }
    forall rule ensures rule in AllRules {
      assert AllRules[Rank(rule)] == rule;
    }
  }
}
