/** The evaluator's entry points, in the source's own control flow, each proved to produce
    exactly what the rule table of module Rules prescribes. */
module Compliance {
  import opened Records
  import opened CheckResults
  import opened RequirementLookup
  import opened Rules

  /** `check_reqs_vs_cad`: three fixed blocks (Range, Structure Weight, Cruise Speed), each
      reading its target through the lookup and appending a result when the target is
      non-zero. */
  method CheckReqsVsCad(reqs: seq<Requirement>, metrics: Metrics, round: Rounding)
    returns (results: seq<CheckResult>)
    ensures results == Outcomes(CadRules, reqs, [], metrics, round)
  {
    results := [];
    var lookup := BuildLookup(reqs);

    // Range: actual >= target
    var target := LookupTarget(lookup, "RangeReq", "targetValue");
    var actual := MetricOrZero(metrics, "range_mission", "range_nm");
    if target != 0.0 {
      results := results + [MakeResult("RangeReq", "Range", target, actual, "nm", AtLeast, round)];
    }
    assert results == Outcome(Range, reqs, [], metrics, round);
    ghost var sofar := results;

    // Weight: actual <= target
    target := LookupTarget(lookup, "MaxStructureWeight", "maxValue");
    actual := MetricOrZero(metrics, "mass_properties", "empty_weight_lbm");
    if target != 0.0 {
      results := results + [MakeResult("MaxStructureWeight", "Structure Weight", target, actual, "lb", AtMost, round)];
    }
    assert results == sofar + Outcome(StructureWeight, reqs, [], metrics, round);
    sofar := results;

    // Speed: actual >= target
    target := LookupTarget(lookup, "CruiseSpeed", "minValue");
    actual := MetricOrZero(metrics, "range_mission", "cruise_speed_kts");
    if target != 0.0 {
      results := results + [MakeResult("CruiseSpeed", "Cruise Speed", target, actual, "kts", AtLeast, round)];
    }
    assert results == sofar + Outcome(CruiseSpeed, reqs, [], metrics, round);
    CadOutcomesInOrder(reqs, [], metrics, round);
  }

  /** `check_architecture_mass`: a scan for the first record named "MaxStructureWeight"
      that stops there, then, unless its target is zero, a loop adding up the parts' mass
      values and one result comparing the rounded sum with the target. */
  method CheckArchitectureMass(reqs: seq<Requirement>, parts: seq<Part>, round: Rounding)
    returns (results: seq<CheckResult>)
    ensures results == Outcome(MassRollUp, reqs, parts, map[], round)
  {
    var target := 0.0;
    var i := 0;
    while i < |reqs|
      invariant 0 <= i <= |reqs|
      invariant NoWeightBefore(reqs, i)
      invariant target == 0.0
    {
      if reqs[i].name == Some(WeightRequirement) {
        target := FieldOrZero(Attributes(reqs[i]), "maxValue");
        break;
      }
      i := i + 1;
    }
    ScanTargetIsFirstMatch(reqs);
    assert target == ScanTarget(reqs);

    if target == 0.0 {
      return [];
    }

    var totalMass := 0.0;
    for k := 0 to |parts|
      invariant totalMass == MassSum(parts[..k])
    {
      assert parts[..k + 1][..k] == parts[..k];
      totalMass := totalMass + MassOf(parts[k]);
    }
    assert parts[..|parts|] == parts;

    results := [MakeResult(WeightRequirement, "Architecture Mass Roll-up", target, round(totalMass), "lb", AtMost, round)];
  }

  /** `run_all_checks`: the CAD checks' results followed by the roll-up's. */
  method RunAllChecks(reqs: seq<Requirement>, parts: seq<Part>, metrics: Metrics, round: Rounding)
    returns (results: seq<CheckResult>)
    ensures results == Outcomes(AllRules, reqs, parts, metrics, round)
  {
    results := [];
    var cad := CheckReqsVsCad(reqs, metrics, round);
    results := results + cad;
    var mass := CheckArchitectureMass(reqs, parts, round);
    results := results + mass;

    CadOutcomesIgnoreParts(reqs, [], parts, metrics, round);
    assert Outcome(MassRollUp, reqs, parts, map[], round) == Outcome(MassRollUp, reqs, parts, metrics, round);
    AllOutcomesInOrder(reqs, parts, metrics, round);
  }

  /** What `run_all_checks` returns: the results of the rules whose target is non-zero, one
      each, in the fixed order Range, Structure Weight, Cruise Speed, Architecture Mass Roll-up.
      Skipped rules leave no result and nothing is reordered; so there are at most four. */
  lemma AllChecksInFixedOrder(reqs: seq<Requirement>, parts: seq<Part>, metrics: Metrics, round: Rounding)
    ensures var rs, kept := Outcomes(AllRules, reqs, parts, metrics, round), Kept(AllRules, reqs);
      && |rs| == |kept| <= 4
      && (forall i :: 0 <= i < |rs| ==> rs[i] == RuleResult(kept[i], reqs, parts, metrics, round))
      && (forall rule :: rule in kept <==> Target(rule, reqs) != 0.0)
      && StrictlyRanked(kept)
  {
    OutcomesFollowKept(AllRules, reqs, parts, metrics, round);
    KeptIsOrderedFilter(AllRules, reqs);
    AllRulesInRankOrder();
  }

  /** A rule has a result, recognisable by its check name, in the output of `run_all_checks`
      exactly when its target is non-zero. */
  lemma RuleReportedIffTargetNonZero(reqs: seq<Requirement>, parts: seq<Part>, metrics: Metrics,
                                     round: Rounding, rule: Rule)
    ensures var rs := Outcomes(AllRules, reqs, parts, metrics, round);
      (exists i :: 0 <= i < |rs| && rs[i].check == CheckName(rule)) <==> Target(rule, reqs) != 0.0
  {
    var rs, kept := Outcomes(AllRules, reqs, parts, metrics, round), Kept(AllRules, reqs);
    AllChecksInFixedOrder(reqs, parts, metrics, round);
    assert forall i :: 0 <= i < |rs| ==> rs[i].check == CheckName(kept[i]);
    CheckNamesIdentifyRules(kept, rs, rule);
  }

  /** When results carry the check names of a list of rules, position by position, a rule is
      in the list exactly when some result carries its check name. */
  lemma CheckNamesIdentifyRules(kept: seq<Rule>, rs: seq<CheckResult>, rule: Rule)
    requires |rs| == |kept|
    requires forall i :: 0 <= i < |rs| ==> rs[i].check == CheckName(kept[i])
    ensures (exists i :: 0 <= i < |rs| && rs[i].check == CheckName(rule)) <==> rule in kept
  {
    if rule in kept {
      var i :| 0 <= i < |kept| && kept[i] == rule;
      assert rs[i].check == CheckName(rule);
    }
    if i :| 0 <= i < |rs| && rs[i].check == CheckName(rule) {
      CheckNameIsInjective(kept[i], rule);
      assert kept[i] in kept;
    }
  }

  /** Distinct rules report distinct check names. */
  lemma CheckNameIsInjective(r1: Rule, r2: Rule)
    ensures CheckName(r1) == CheckName(r2) ==> r1 == r2
  {
    if r1 != r2 {
      assert |CheckName(r1)| != |CheckName(r2)|;
    }
  }

  /** Every result `run_all_checks` reports has a non-zero target, its status follows from its
      own target, actual and operator, and its margin is the rounded headroom. */
  lemma AllChecksConsistent(reqs: seq<Requirement>, parts: seq<Part>, metrics: Metrics, round: Rounding)
    ensures var rs := Outcomes(AllRules, reqs, parts, metrics, round);
      forall i :: 0 <= i < |rs| ==>
        && rs[i].target != 0.0
        && Consistent(rs[i])
        && rs[i].margin == round(Headroom(rs[i].operator, rs[i].target, rs[i].actual))
  {
    var rs, kept := Outcomes(AllRules, reqs, parts, metrics, round), Kept(AllRules, reqs);
    AllChecksInFixedOrder(reqs, parts, metrics, round);
    forall i | 0 <= i < |rs|
      ensures rs[i].target != 0.0 && Consistent(rs[i])
      ensures rs[i].margin == round(Headroom(rs[i].operator, rs[i].target, rs[i].actual))
    {
      assert kept[i] in kept;
    }
  }

  /** A rule other than the roll-up is skipped when no requirement with `attributes` carries
      its requirement name: records without `attributes` never satisfy it, even by name. */
  lemma MissingRequirementSkipsRule(rule: Rule, reqs: seq<Requirement>, parts: seq<Part>, metrics: Metrics,
                                    round: Rounding)
    requires rule != MassRollUp
    requires forall i :: 0 <= i < |reqs| && reqs[i].name == Some(RequirementName(rule)) ==> !Indexed(reqs[i])
    ensures Outcome(rule, reqs, parts, metrics, round) == []
  {
    UnindexedNameReadsZero(reqs, RequirementName(rule), TargetField(rule));
  }

  /** The roll-up is decided by the first record named "MaxStructureWeight" alone: when its
      `maxValue` is absent or zero there is no roll-up result, whatever later namesakes say. */
  lemma RollUpSkippedByFirstNamesake(reqs: seq<Requirement>, i: int, parts: seq<Part>, metrics: Metrics,
                                     round: Rounding)
    requires 0 <= i < |reqs| && reqs[i].name == Some(WeightRequirement) && NoWeightBefore(reqs, i)
    requires FieldOrZero(Attributes(reqs[i]), "maxValue") == 0.0
    ensures Outcome(MassRollUp, reqs, parts, metrics, round) == []
  {
    ScanTargetIsFirstMatch(reqs);
  }

  /** The roll-up reports the ROUNDED sum of the mass values that are present, and that rounded
      sum, not the raw one, is what decides its status. */
  lemma RollUpComparesRoundedSum(reqs: seq<Requirement>, parts: seq<Part>, metrics: Metrics, round: Rounding)
    requires Outcome(MassRollUp, reqs, parts, metrics, round) != []
    ensures var r := Outcome(MassRollUp, reqs, parts, metrics, round)[0];
      && r.actual == round(Sum(PresentMasses(parts)))
      && r.target == ScanTarget(reqs) != 0.0
      && (r.status == Pass <==> round(Sum(PresentMasses(parts))) <= r.target)
  {
    MassSumIsSumOfPresentMasses(parts);
  }

  /** With no negative mass value and a rounding that keeps non-negative numbers
      non-negative, the roll-up's reported actual value is non-negative. */
  lemma RollUpActualNonNegative(reqs: seq<Requirement>, parts: seq<Part>, metrics: Metrics, round: Rounding)
    requires KeepsNonNegative(round)
    requires forall i :: 0 <= i < |parts| ==> 0.0 <= MassOf(parts[i])
    requires Outcome(MassRollUp, reqs, parts, metrics, round) != []
    ensures 0.0 <= Outcome(MassRollUp, reqs, parts, metrics, round)[0].actual
  {
    MassSumNonNegative(parts);
  }
}
