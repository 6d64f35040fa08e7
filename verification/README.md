# Compliance checks: requirements against CAD and architecture metrics

This project models the standalone compliance evaluator of the use case
`check-design-meets-requirements`. The evaluator reads three inputs:

- requirement records, each with a `name` and an `attributes` mapping;
- architecture parts, each of which may carry a `mass.value`;
- metric bundles from the CAD analysis (`range_mission`, `mass_properties`).

It evaluates a fixed table of four rules, in this order:

| rule | requirement | target field | actual value | unit | operator |
|---|---|---|---|---|---|
| Range | `RangeReq` | `targetValue` | `range_mission.range_nm` | nm | `>=` |
| Structure Weight | `MaxStructureWeight` | `maxValue` | `mass_properties.empty_weight_lbm` | lb | `<=` |
| Cruise Speed | `CruiseSpeed` | `minValue` | `range_mission.cruise_speed_kts` | kts | `>=` |
| Architecture Mass Roll-up | `MaxStructureWeight` | `maxValue` | sum of the parts' masses, rounded | lb | `<=` |

A rule whose target is zero or absent is skipped. Every other rule yields one check
result with a PASS/FAIL status and a signed percentage margin. A text report lists one
line per result and ends with a "passed/total" summary line.

The two weight rules find their requirement by different routes:

- The three CAD rules read a lookup keyed by requirement name. It holds only records
  whose `attributes` mapping is present and non-empty. When two records share a name,
  the later one wins.
- The roll-up scans the raw records and stops at the first record named
  `MaxStructureWeight`, whatever its attributes.

The model is split into modules:

- `Records` holds the data: requirements, parts, metrics and check results.
- `CheckResults` builds one result (`_result`).
- `RequirementLookup` models the lookup comprehension.
- `Rules` holds the rule table. It serves as the specification: `Outcomes(AllRules, …)`
  is what the evaluator must return.
- `Compliance` holds the three entry points, written with the source's own control flow:
  - straight-line blocks in `check_reqs_vs_cad`;
  - a scan loop with `break`, then a summing loop, in `check_architecture_mass`.

  Each entry point is proved to return exactly what the rule table prescribes. The
  lemmas about the table then carry over to the entry points.
- `Report` models `format_report`: a loop over the results, a count of the passing
  ones, and the lines joined by newlines.
- `Scenarios` works through concrete inputs.

Two behaviours of the source are abstracted as parameters:

- `round(x, 1)` is the parameter `round: real -> real`. A few facts need rounding to
  keep non-negative numbers non-negative (`KeepsNonNegative`); they say so.
- How a number is rendered as text is the parameter `show: real -> string`. The
  30-column padding of the check name is modelled exactly.

Two properties of the margin are worth spelling out:

- **Margin sign.** The margin divides the headroom by the target itself. For a positive
  target the unrounded margin is non-negative exactly when the check passes
  (`CheckResults.HeadroomSignMatchesStatus`). For a negative target the sign is inverted:
  the margin is positive exactly when the check fails
  (`CheckResults.HeadroomSignInvertedForNegativeTarget`).
- **The "+" prefix.** `format_report` writes "+" before every margin that is at least 0.
  A failing check whose margin rounds to zero is therefore also printed with "+". So only
  one direction holds: a passing check with a positive target prints "+"
  (`Report.PassingChecksPrintPlus`).

## Model

| member | source | states |
|---|---|---|
| CheckResults.MakeResult | use-cases/check-design-meets-requirements/compliance_checks.py:80-98 | The result copies requirement, check, target, actual, unit and operator. Its status is PASS exactly when actual lies on the operator's side of the target, compared unrounded. Its margin is 0 when the target is 0; otherwise it is the rounded headroom as a percentage of the target. |
| CheckResults.HeadroomSignMatchesStatus | use-cases/check-design-meets-requirements/compliance_checks.py:82-87 | For a positive target, for both operators, the unrounded margin is non-negative exactly when the check passes. |
| CheckResults.HeadroomSignInvertedForNegativeTarget | use-cases/check-design-meets-requirements/compliance_checks.py:82-87 | For a negative target, the unrounded margin is positive exactly when the check fails. |
| CheckResults.PassingMarginNonNegative | use-cases/check-design-meets-requirements/compliance_checks.py:80-98 | A passing result with a positive target never has a negative margin, given rounding that keeps non-negative numbers non-negative. |
| RequirementLookup.LookupIsLastWins | use-cases/check-design-meets-requirements/compliance_checks.py:28 | The lookup's keys are exactly the names of records whose attributes are present and non-empty. Each key maps to such a record with that name, and a name's last such record wins. |
| RequirementLookup.UnindexedNameReadsZero | use-cases/check-design-meets-requirements/compliance_checks.py:28-32 | A name that no record with attributes carries reads a zero target. |
| RequirementLookup.LookupTargetFromLastNamesake | use-cases/check-design-meets-requirements/compliance_checks.py:28-32 | A name's target field is read from the last record with attributes that carries that name. |
| Rules.ScanTargetIsFirstMatch | use-cases/check-design-meets-requirements/compliance_checks.py:57-61 | The roll-up target is the `maxValue` of the first record named MaxStructureWeight, or 0 when there is none. Later namesakes are never read. |
| Rules.PresentMasses | use-cases/check-design-meets-requirements/compliance_checks.py:68-72 | The values kept are exactly the parts' mass values that are not None, never more than there are parts. |
| Rules.PresentMassesKeepsRepeats | use-cases/check-design-meets-requirements/compliance_checks.py:68-72 | Each present mass value is kept once per part carrying it: its multiplicity among the kept values equals the number of such parts, so repeated values are all summed. |
| Rules.MassSumIsSumOfPresentMasses | use-cases/check-design-meets-requirements/compliance_checks.py:67-72 | The accumulated roll-up equals the sum of the mass values that are present. Parts without a value add nothing. |
| Rules.MassSumNonNegative | use-cases/check-design-meets-requirements/compliance_checks.py:67-72 | With no negative mass value, the roll-up is non-negative. |
| Rules.FilterIsOrderedSubset | use-cases/check-design-meets-requirements/compliance_checks.py:34-49 | Skipping rules keeps exactly those that pass the test. It never adds any, and the order is kept. |
| Rules.CollectFollowsFilter | use-cases/check-design-meets-requirements/compliance_checks.py:34-49 | When each rule yields nothing or one result, the collected results are one per kept rule, position by position. |
| Rules.CollectAppend | use-cases/check-design-meets-requirements/compliance_checks.py:17-19 | Evaluating two rule lists one after the other concatenates their results. |
| Rules.KeptIsOrderedFilter | use-cases/check-design-meets-requirements/compliance_checks.py:34-64 | The rules not skipped are exactly those with a non-zero target, in table order. |
| Rules.OutcomesFollowKept | use-cases/check-design-meets-requirements/compliance_checks.py:34-77 | Each result is the result of the corresponding rule that was not skipped. |
| Rules.CadOutcomesInOrder | use-cases/check-design-meets-requirements/compliance_checks.py:30-51 | The CAD checks yield Range, then Structure Weight, then Cruise Speed. |
| Rules.AllOutcomesInOrder | use-cases/check-design-meets-requirements/compliance_checks.py:17-20 | All results are the CAD results followed by the roll-up's. |
| Rules.CadOutcomesIgnoreParts | use-cases/check-design-meets-requirements/compliance_checks.py:23-51 | The CAD checks do not depend on the architecture parts. |
| Rules.AllRulesInRankOrder | use-cases/check-design-meets-requirements/compliance_checks.py:15-20 | The rule table lists each of the four rules exactly once, in evaluation order. |
| Compliance.CheckReqsVsCad | use-cases/check-design-meets-requirements/compliance_checks.py:23-51 | The three blocks return exactly the table's CAD outcomes: each rule's result when its looked-up target is non-zero, in order. |
| Compliance.CheckArchitectureMass | use-cases/check-design-meets-requirements/compliance_checks.py:54-77 | The scan-then-sum loops return nothing when the first namesake's target is zero. Otherwise they return one result comparing the rounded mass sum with that target. |
| Compliance.RunAllChecks | use-cases/check-design-meets-requirements/compliance_checks.py:15-20 | The entry point returns exactly the outcomes of the whole rule table. |
| Compliance.AllChecksInFixedOrder | use-cases/check-design-meets-requirements/compliance_checks.py:15-77 | There are at most four results, one per rule with a non-zero target, in the fixed order. Skipped rules leave no gap. |
| Compliance.RuleReportedIffTargetNonZero | use-cases/check-design-meets-requirements/compliance_checks.py:34-64 | A rule's check name appears among the results exactly when its target is non-zero. |
| Compliance.CheckNamesIdentifyRules | use-cases/check-design-meets-requirements/compliance_checks.py:35-75 | When results carry the check names of a list of rules position by position, a rule is listed exactly when its check name appears. |
| Compliance.CheckNameIsInjective | use-cases/check-design-meets-requirements/compliance_checks.py:35-75 | The four check names are pairwise distinct. |
| Compliance.AllChecksConsistent | use-cases/check-design-meets-requirements/compliance_checks.py:80-98 | Every result has a non-zero target. Its status follows from its own target, actual and operator alone, and its margin is the rounded headroom. |
| Compliance.MissingRequirementSkipsRule | use-cases/check-design-meets-requirements/compliance_checks.py:28-49 | A CAD rule is skipped when no record with attributes carries its requirement name, even if records without attributes do. |
| Compliance.RollUpSkippedByFirstNamesake | use-cases/check-design-meets-requirements/compliance_checks.py:57-64 | A first MaxStructureWeight record with no `maxValue`, or a zero one, suppresses the roll-up, whatever later records say. |
| Compliance.RollUpComparesRoundedSum | use-cases/check-design-meets-requirements/compliance_checks.py:66-77 | The roll-up's actual value is the rounded sum of the present masses, and its status compares that rounded sum with the target. |
| Compliance.RollUpActualNonNegative | use-cases/check-design-meets-requirements/compliance_checks.py:66-77 | With non-negative masses and sign-keeping rounding, the roll-up's actual value is non-negative. |
| Report.PadRight | use-cases/check-design-meets-requirements/compliance_checks.py:108 | The check name is kept and padded with spaces to at least 30 characters. |
| Report.CountPassing | use-cases/check-design-meets-requirements/compliance_checks.py:112 | The passing count never exceeds the number of results. |
| Report.ResultLines | use-cases/check-design-meets-requirements/compliance_checks.py:104-111 | There is one line per result, and line i renders result i. |
| Report.FormatReport | use-cases/check-design-meets-requirements/compliance_checks.py:101-114 | The loops produce the result lines in order, then the summary line, joined by newlines. With no results the report is the summary "0/0 checks passed" alone. |
| Report.EmptyReport | use-cases/check-design-meets-requirements/compliance_checks.py:112-114 | With no results, the report is the bare summary line. |
| Report.CountPassingCountsPasses | use-cases/check-design-meets-requirements/compliance_checks.py:112 | The summary's numerator is the number of results with status PASS. |
| Report.AllPassIffCountsAgree | use-cases/check-design-meets-requirements/compliance_checks.py:112-113 | The two numbers of the summary agree exactly when every check passed. |
| Report.PassingChecksPrintPlus | use-cases/check-design-meets-requirements/compliance_checks.py:106 | Among the evaluator's results, a passing check with a positive target prints its margin with "+". |
| Scenarios.RangeMet | use-cases/check-design-meets-requirements/compliance_checks.py:30-35 | A 550 nm range against a 500 nm target yields one passing Range result with the rounded margin of 10. |
| Scenarios.RangeMissed | use-cases/check-design-meets-requirements/compliance_checks.py:30-35 | A 400 nm range against a 500 nm target yields one failing Range result with the rounded margin of -20. |
| Scenarios.EmptyInputs | use-cases/check-design-meets-requirements/compliance_checks.py:15-20 | Empty inputs yield no results and the report "0/0 checks passed". |
| Scenarios.AttributesOmitted | use-cases/check-design-meets-requirements/compliance_checks.py:28 | A requirement without attributes yields no result, even under a matching name. |
| Scenarios.MassRollUpExceeded | use-cases/check-design-meets-requirements/compliance_checks.py:37-77 | Masses of 400, none and 700.25 against a 1000 lb limit fail on the rounded sum, which round-half-even takes from the exact tie 1100.25 to 1100.2. The Structure Weight check, with no metric, passes on an empty weight of 0. |
| Scenarios.WeightPathsDiverge | use-cases/check-design-meets-requirements/compliance_checks.py:57-61 | A first MaxStructureWeight record without attributes, followed by one with attributes, runs Structure Weight and skips the roll-up. |

## Left out

- Number formatting: `show` is a parameter, so the exact text Python prints for a
  number is not modelled. This covers `1100.2`, `500.0` and `0` for an integer default.
  It also covers a negative zero margin, which Python prints as "+-0.0%".
- Rounding: `round` is a parameter, so banker's rounding to one decimal is not modelled.
- Floating point: all arithmetic is on exact reals, so binary floating-point error in the
  margin and in the mass sum is not modelled.
- Type coercion errors are not modelled:
  - `float()` on a target or mass value that is not numeric raises `ValueError` or
    `TypeError`;
  - comparing a metric that is not numeric raises `TypeError`;
  - a record whose `attributes` is explicitly null raises `AttributeError` in the
    roll-up's scan.

  Targets, metrics and masses are already numbers, and a null `attributes` is treated
  like a missing one. String targets such as "500" appear here as the number they
  coerce to.
- Null or non-mapping containers: the source also raises `AttributeError` when a part's
  `attributes` or `mass` is null or not a mapping (lines 69-70), and when a metric
  bundle is null (lines 33, 40, 47). The model reads such a part as carrying no mass
  (`Part(None)`) and such a bundle's fields as 0, so it does not capture these errors.
- Integer versus float: the model does not distinguish `int` from `float` values.
  `MakeResult` returns a real margin where the source returns the integer `0` for a zero
  target.
- Operators: `_result` treats any operator other than ">=" like "<="; the model has only
  the two operators the evaluator passes.
- Unused inputs: the keys of the requirement and part mappings (such as `qname`) are
  never read, so the records are sequences in iteration order.
- Other code: the unused `json` import, the example scripts and the platform client
  helper are not part of this model. They do I/O through an external SDK.
