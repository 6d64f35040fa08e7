/** Worked examples of the evaluator on concrete inputs. Rounding stays a parameter; where an
    outcome depends on it, the example names the rounded value it assumes. */
module Scenarios {
  import opened Records
  import opened CheckResults
  import opened RequirementLookup
  import opened Rules
  import opened Compliance
  import opened Report

  const RangeMetrics: Metrics := map["range_mission" := map["range_nm" := 550.0]]

  function RangeRequirement(target: real): Requirement {
    Requirement(Some("RangeReq"), Some(map["targetValue" := target]))
  }

  /** A range of 550 nm against a 500 nm target passes with a 10% margin. */
  lemma RangeMet(round: Rounding)
    ensures Outcomes(AllRules, [RangeRequirement(500.0)], [], RangeMetrics, round)
         == [CheckResult("RangeReq", "Range", 500.0, 550.0, "nm", AtLeast, Pass, round(10.0))]
  {
    var reqs := [RangeRequirement(500.0)];
    assert reqs[..0] == [];
    assert BuildLookup(reqs) == map[Some("RangeReq") := reqs[0]];
    assert ScanTarget(reqs) == 0.0 by { assert reqs[1..] == []; }
    AllOutcomesInOrder(reqs, [], RangeMetrics, round);
    CadOutcomesInOrder(reqs, [], RangeMetrics, round);
  }

  /** A range of 400 nm against a 500 nm target fails with a -20% margin. */
  lemma RangeMissed(round: Rounding)
    ensures var metrics := map["range_mission" := map["range_nm" := 400.0]];
      Outcomes(AllRules, [RangeRequirement(500.0)], [], metrics, round)
         == [CheckResult("RangeReq", "Range", 500.0, 400.0, "nm", AtLeast, Fail, round(-20.0))]
  {
    var reqs := [RangeRequirement(500.0)];
    var metrics := map["range_mission" := map["range_nm" := 400.0]];
    assert reqs[..0] == [];
    assert BuildLookup(reqs) == map[Some("RangeReq") := reqs[0]];
    assert ScanTarget(reqs) == 0.0 by { assert reqs[1..] == []; }
    AllOutcomesInOrder(reqs, [], metrics, round);
    CadOutcomesInOrder(reqs, [], metrics, round);
  }

  /** No requirements, parts or metrics: no results, and the report is the bare summary. */
  method EmptyInputs(round: Rounding, show: Show) returns (report: string)
    ensures report == "\n  0/0 checks passed"
  {
    var results := RunAllChecks([], [], map[], round);
    AllOutcomesInOrder([], [], map[], round);
    CadOutcomesInOrder([], [], map[], round);
    assert results == [];
    report := FormatReport(results, show);
  }

  /** A requirement without `attributes` never satisfies a rule, even when its name matches. */
  lemma AttributesOmitted(parts: seq<Part>, round: Rounding)
    ensures Outcomes(AllRules, [Requirement(Some("RangeReq"), None)], parts, RangeMetrics, round) == []
  {
    var reqs := [Requirement(Some("RangeReq"), None)];
    assert reqs[..0] == [];
    assert BuildLookup(reqs) == map[];
    assert ScanTarget(reqs) == 0.0 by { assert reqs[1..] == []; }
    AllOutcomesInOrder(reqs, parts, RangeMetrics, round);
    CadOutcomesInOrder(reqs, parts, RangeMetrics, round);
  }

  const WeightReq: Requirement := Requirement(Some("MaxStructureWeight"), Some(map["maxValue" := 1000.0]))

  const ThreeParts: seq<Part> := [Part(Some(400.0)), Part(None), Part(Some(700.25))]

  /** A 1000 lb limit against parts of 400 lb, no recorded mass and 700.25 lb: the roll-up
      compares the rounded sum with the limit and fails. The sum 1100.25 is an exact tie, which
      Python's round-half-even rounding takes to 1100.2. With no mass metric the Structure
      Weight check also runs, reading an empty weight of 0 and passing. */
  lemma MassRollUpExceeded(round: Rounding)
    requires round(1100.25) == 1100.2
    ensures Outcomes(AllRules, [WeightReq], ThreeParts, map[], round)
         == [CheckResult("MaxStructureWeight", "Structure Weight", 1000.0, 0.0, "lb", AtMost, Pass, round(100.0)),
             CheckResult("MaxStructureWeight", "Architecture Mass Roll-up", 1000.0, 1100.2, "lb", AtMost, Fail,
                         round((1000.0 - 1100.2) / 1000.0 * 100.0))]
  {
    var reqs := [WeightReq];
    assert reqs[..0] == [];
    assert BuildLookup(reqs) == map[Some("MaxStructureWeight") := WeightReq];
    assert ScanTarget(reqs) == 1000.0;
    var p1, p2 := ThreeParts[..1], ThreeParts[..2];
    assert p1[..0] == [] && MassSum(p1) == 400.0;
    assert p2[..1] == p1 && MassSum(p2) == 400.0;
    assert ThreeParts[..2] == p2 && MassSum(ThreeParts) == 1100.25;
    AllOutcomesInOrder(reqs, ThreeParts, map[], round);
    CadOutcomesInOrder(reqs, ThreeParts, map[], round);
  }

  /** The two weight checks reach their requirement by different paths: the lookup keeps the
      last "MaxStructureWeight" record that has attributes, while the roll-up stops at the
      first record of that name. Here the first has no attributes, so the Structure Weight
      check runs against 1000 lb and the roll-up is skipped. */
  lemma WeightPathsDiverge(parts: seq<Part>, metrics: Metrics, round: Rounding)
    ensures var reqs := [Requirement(Some("MaxStructureWeight"), None), WeightReq];
      && Target(StructureWeight, reqs) == 1000.0
      && |Outcome(StructureWeight, reqs, parts, metrics, round)| == 1
      && Outcome(MassRollUp, reqs, parts, metrics, round) == []
  {
    var reqs := [Requirement(Some("MaxStructureWeight"), None), WeightReq];
    assert reqs[..1][..0] == [];
    assert reqs[..1] == [reqs[0]];
    assert BuildLookup(reqs[..1]) == map[];
    assert BuildLookup(reqs) == map[Some("MaxStructureWeight") := WeightReq];
    assert ScanTarget(reqs) == 0.0;
  }
}
