/** The plain data the compliance evaluator consumes and produces. */
module Records {

  datatype Option<+T> = None | Some(value: T)

  /** A requirement record. `name` is the record's own `name` field (not its key in the
      requirements mapping, which the evaluator never reads). `attributes` is None when the
      record has no `attributes` entry. Only numeric attribute values are represented: the
      evaluator reads `targetValue`, `maxValue` and `minValue`, and for any other entry only
      its key matters (it makes the mapping non-empty), so such an entry may carry any number. */
  datatype Requirement = Requirement(name: Option<string>, attributes: Option<map<string, real>>)

  /** A part record, reduced to what the roll-up reads: `attributes.mass.value`, None when the
      part has no `attributes`, no `mass`, no `value`, or a null `value`. */
  datatype Part = Part(massValue: Option<real>)

  /** Metric bundles by name, each a mapping of scalar fields. */
  type Metrics = map<string, map<string, real>>

  /** The two comparison operators, ">=" and "<=". */
  datatype Operator = AtLeast | AtMost

  datatype Status = Pass | Fail

  /** One check result record. */
  datatype CheckResult = CheckResult(
    requirement: string,
    check: string,
    target: real,
    actual: real,
    unit: string,
    operator: Operator,
    status: Status,
    margin: real)

  function OperatorSymbol(op: Operator): string {
    match op
    case AtLeast => ">="
    case AtMost => "<="
  }

  /** `r.get("attributes", {})` */
  function Attributes(r: Requirement): map<string, real> {
    match r.attributes
    case None => map[]
    case Some(attrs) => attrs
  }

  /** `float(attrs.get(field, 0))` */
  function FieldOrZero(attrs: map<string, real>, field: string): real {
    if field in attrs then attrs[field] else 0.0
  }

  /** `metrics.get(bundle, {}).get(field, 0)` */
  function MetricOrZero(metrics: Metrics, bundle: string, field: string): real {
    if bundle in metrics && field in metrics[bundle] then metrics[bundle][field] else 0.0
  }

  /** What one part adds to the mass roll-up: its value, or nothing when it has none. */
  function MassOf(p: Part): real {
    match p.massValue
    case None => 0.0
    case Some(v) => v
  }
}
