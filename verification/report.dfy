/** `format_report`: the text summary of a list of check results. */
module Report {
  import opened Records
  import opened CheckResults
  import opened Rules
  import opened Compliance

  /** How a number is rendered in the report (Python's float formatting); not modelled. */
  type Show = real -> string

  function Icon(status: Status): string {
    if status == Pass then "PASS" else "FAIL"
  }

  /** The sign written before a margin: "+" for a non-negative margin; a negative one
      carries its own minus sign. */
  function SignPrefix(margin: real): string {
    if margin >= 0.0 then "+" else ""
  }

  /** `f"{s:30s}"`: `s` padded on the right with spaces to at least `width` characters. */
  function PadRight(s: string, width: nat): (r: string)
    ensures |r| == if |s| < width then width else |s|
    ensures r[..|s|] == s && forall i :: |s| <= i < |r| ==> r[i] == ' '
  {
    if |s| < width then s + seq(width - |s|, _ => ' ') else s
  }

  function DigitChar(d: nat): char
    requires d < 10
  {
    "0123456789"[d]
  }

  /** The decimal rendering of a count. */
  function NatToString(n: nat): (s: string)
    ensures |s| > 0
  {
    if n < 10 then [DigitChar(n)] else NatToString(n / 10) + [DigitChar(n % 10)]
  }

  /** The pieces of a formatted string, joined without separator. */
  function Concat(pieces: seq<string>): string {
    if pieces == [] then "" else pieces[0] + Concat(pieces[1..])
  }

  /** One report line per result: the padded check name, PASS or FAIL, the actual value
      against the target with units and operator, and the signed margin. */
  function ResultLine(r: CheckResult, show: Show): string {
    Concat(["  ", PadRight(r.check, 30), " ", Icon(r.status), "  (",
            show(r.actual), " ", r.unit, " ", OperatorSymbol(r.operator), " ", show(r.target), " ", r.unit,
            ", margin: ", SignPrefix(r.margin), show(r.margin), "%)"])
  }

  /** The closing line: how many of how many checks passed. */
  function SummaryLine(passing: nat, total: nat): string {
    Concat(["\n  ", NatToString(passing), "/", NatToString(total), " checks passed"])
  }

  /** The number of results whose status is PASS. */
  function CountPassing(results: seq<CheckResult>): (n: nat)
    ensures n <= |results|
  {
    if results == [] then 0
    else CountPassing(results[..|results| - 1]) + (if results[|results| - 1].status == Pass then 1 else 0)
  }

  /** One line per result, in order. */
  function ResultLines(results: seq<CheckResult>, show: Show): (lines: seq<string>)
    ensures |lines| == |results|
    ensures forall i :: 0 <= i < |results| ==> lines[i] == ResultLine(results[i], show)
  {
    if results == [] then []
    else ResultLines(results[..|results| - 1], show) + [ResultLine(results[|results| - 1], show)]
  }

  /** The report's lines: one per result, in order, then the summary line. */
  function ReportLines(results: seq<CheckResult>, show: Show): seq<string> {
    ResultLines(results, show) + [SummaryLine(CountPassing(results), |results|)]
  }

  /** `"\n".join(lines)` */
  function JoinLines(lines: seq<string>): string {
    if lines == [] then ""
    else if |lines| == 1 then lines[0]
    else JoinLines(lines[..|lines| - 1]) + "\n" + lines[|lines| - 1]
  }

  /** `format_report`: a loop adding one line per result, a count of the passing results,
      the summary line, and the lines joined by newlines. */
  method FormatReport(results: seq<CheckResult>, show: Show) returns (report: string)
    ensures report == JoinLines(ReportLines(results, show))
    ensures results == [] ==> report == "\n  0/0 checks passed"
  {
    var lines: seq<string> := [];
    for i := 0 to |results|
      invariant lines == ResultLines(results[..i], show)
    {
      assert results[..i + 1][..i] == results[..i];
      lines := lines + [ResultLine(results[i], show)];
    }
    assert results[..|results|] == results;
    assert lines == ResultLines(results, show);

    var passing := 0;
    for i := 0 to |results|
      invariant passing == CountPassing(results[..i])
    {
      assert results[..i + 1][..i] == results[..i];
      if results[i].status == Pass {
        passing := passing + 1;
      }
    }
    assert passing == CountPassing(results);

    lines := lines + [SummaryLine(passing, |results|)];
    report := JoinLines(lines);
    if results == [] {
      EmptyReport(show);
    }
  }

  /** With no results the report is the summary line alone. */
  lemma EmptyReport(show: Show)
    ensures JoinLines(ReportLines([], show)) == "\n  0/0 checks passed"
  {
    assert ReportLines([], show) == [SummaryLine(0, 0)];
    assert NatToString(0) == "0";
    var pieces := ["\n  ", "0", "/", "0", " checks passed"];
    assert pieces[1..][1..][1..][1..][1..] == [];
    assert Concat(pieces) == "\n  0/0 checks passed";
  }

  /** The summary's numerator is the number of indices holding a passing result. */
  lemma {:induction false} CountPassingCountsPasses(results: seq<CheckResult>)
    ensures CountPassing(results) == |set i | 0 <= i < |results| && results[i].status == Pass|
  {
    if results != [] {
      var n := |results| - 1;
      var init := results[..n];
      CountPassingCountsPasses(init);
      var before := set i | 0 <= i < n && init[i].status == Pass;
      var after := set i | 0 <= i < |results| && results[i].status == Pass;
      if results[n].status == Pass {
        assert after == before + {n};
        assert n !in before;
      } else {
        assert after == before;
      }
    }
  }

  /** Every check passed exactly when the summary's two counts agree. */
  lemma {:induction false} AllPassIffCountsAgree(results: seq<CheckResult>)
    ensures CountPassing(results) == |results| <==> forall i :: 0 <= i < |results| ==> results[i].status == Pass
  {
    if results != [] {
      var n := |results| - 1;
      AllPassIffCountsAgree(results[..n]);
      assert forall i :: 0 <= i < n ==> results[..n][i] == results[i];
    }
  }

  /** Among the results of `run_all_checks`, a passing check with a positive target is
      printed with a "+" before its margin, provided rounding keeps non-negative numbers
      non-negative; so a margin printed without "+" always belongs to a failing check. */
  lemma PassingChecksPrintPlus(reqs: seq<Requirement>, parts: seq<Part>, metrics: Metrics, round: Rounding)
    requires KeepsNonNegative(round)
    ensures var rs := Outcomes(AllRules, reqs, parts, metrics, round);
      forall i :: 0 <= i < |rs| && 0.0 < rs[i].target && rs[i].status == Pass ==> SignPrefix(rs[i].margin) == "+"
  {
    var rs := Outcomes(AllRules, reqs, parts, metrics, round);
    AllChecksConsistent(reqs, parts, metrics, round);
    forall i | 0 <= i < |rs| && 0.0 < rs[i].target && rs[i].status == Pass
      ensures SignPrefix(rs[i].margin) == "+"
    {
      HeadroomSignMatchesStatus(rs[i].operator, rs[i].target, rs[i].actual);
    }
  }
}
