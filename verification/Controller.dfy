/**
  The controller's checks for one request: the request and the solver's result
  are checked, and a failed check replaces the plan by the previous power. What
  can be reported of this is the subject of Reply.dfy.
 */
module Controller {
  import opened Prelude
  import Hankel

  const SLACK: real := 0.000001
  const FIXED_INTERVAL: real := 0.1
  const PAST: int := 20
  const HORIZON: int := 10
  const INPUT_COLS: seq<string> := ["tx_power_dbm"]
  const OUTPUT_COLS: seq<string> := ["prr_awareness", "pir_s", "cbr"]
  const CONTEXT_COLS: seq<string> := ["active_vehicle_count_core", "beacon_interval_s"]

  datatype Limits = Limits(minPower: real, maxPower: real, residual: real)

  datatype Request = Request(step: int, time: real, pastHorizon: int, futureHorizon: int, inputCols: seq<string>,
      outputCols: seq<string>,
      contextCols: Option<seq<string>>, uIni: seq<real>, yIni: seq<real>, dIni: seq<real>, previous: real)
  {
    /** Horizons, columns and lengths are those the controller was built for. */
    predicate Readable() {
      && pastHorizon == PAST && futureHorizon == HORIZON
      && inputCols == INPUT_COLS && outputCols == OUTPUT_COLS && contextCols == Some(CONTEXT_COLS)
      && |uIni| == PAST && |yIni| == 3 * PAST && |dIni| == 2 * PAST
    }
  }

  /** A computed value; magnitudes never distinguish the two infinities. */
  datatype Number = Num(value: real) | Infinity | NotANumber {
    /** The comparison of the language: false whenever a side is not a number. */
    predicate Exceeds(other: Number) {
      match this
      case Num(x) => other.Num? && x > other.value
      case Infinity => other.Num?
      case NotANumber => false
    }
  }

  /** The predicted outputs of one step. */
  datatype Outputs = Outputs(prr: Number, pir: Number, cbr: Number) {
    predicate Finite() {
      prr.Num? && pir.Num? && cbr.Num?
    }
  }

  /** What the solver leaves behind; the last four are the residuals of the measured past and the forecast context. */
  datatype Solution = Solution(status: string, found: bool, objective: Option<Number>, power: seq<Number>,
      outputs: seq<Outputs>, up: Number, yp: Number, dp: Number, df: Number)
  {
    /** The matrices, checked at the start, give one power and one row of outputs per step of the horizon. */
    predicate Shaped() {
      |power| == HORIZON == |outputs|
    }

    function Residuals(): seq<Number> {
      [up, yp, dp, df]
    }
  }

  datatype Failure =
    | BadRequest | BadStatus | NoVector | NoObjective | NotFinite | NoPlan | BelowMinimum | AboveMaximum | Residual

  /** The part of the reply that reaches the radios. */
  datatype Outcome = Outcome(success: bool, power: real, planned: seq<real>)

  predicate Finite(s: seq<Number>) {
    forall x :: x in s ==> x.Num?
  }

  ghost predicate OutputsFinite(rows: seq<Outputs>) {
    forall o :: o in rows ==> o.Finite()
  }

  /** Every planned power is a number within the limits and their slack. */
  ghost predicate PlanWithin(limits: Limits, power: seq<Number>) {
    forall x :: x in power ==> x.Num? && limits.minPower - SLACK <= x.value <= limits.maxPower + SLACK
  }

  /** No residual exceeds the tolerance; a first residual that is not a number hides the others. */
  ghost predicate ResidualsPass(limits: Limits, residuals: seq<Number>)
    requires residuals != []
  {
    residuals[0] == NotANumber || forall r :: r in residuals ==> !r.Exceeds(Num(limits.residual))
  }

  ghost predicate PlanOk(limits: Limits, s: Solution) {
    && s.power != [] && OutputsFinite(s.outputs) && PlanWithin(limits, s.power)
    && ResidualsPass(limits, s.Residuals())
  }

  /** The plan gets as far as being checked; from there on objective and residuals are part of the result. */
  predicate Evaluated(q: Request, s: Solution) {
    && q.Readable() && (s.status == "optimal" || s.status == "optimal_inaccurate") && s.found && s.objective.Some?
  }

  /** A plan that passes every check. */
  ghost predicate Accepted(limits: Limits, q: Request, s: Solution) {
    Evaluated(q, s) && PlanOk(limits, s)
  }

  ghost function Values(power: seq<Number>): (r: seq<real>)
    requires Finite(power)
    ensures |r| == |power| && forall i :: 0 <= i < |r| ==> power[i] == Num(r[i])
  {
    assert forall i :: 0 <= i < |power| ==> power[i] in power;
    seq(|power|, i requires 0 <= i < |power| => power[i].value)
  }

  /** The first power of an accepted plan, and otherwise the previous power. */
  ghost function Answer(limits: Limits, q: Request, s: Solution): Outcome {
    if Accepted(limits, q, s) then Outcome(true, Values(s.power)[0], Values(s.power))
    else Outcome(false, q.previous, [])
  }

  // ----- The checks as written -----

  /** The greatest of a list as the language computes it. */
  method MaxOf(values: seq<Number>) returns (m: Number)
    requires values != []
    ensures m in values && (m == NotANumber <==> values[0] == NotANumber)
    ensures m != NotANumber ==> forall v :: v in values ==> !v.Exceeds(m)
  {
    m := values[0];
    for i := 1 to |values|
      invariant m in values && (m == NotANumber <==> values[0] == NotANumber)
      invariant m != NotANumber ==> forall j :: 0 <= j < i ==> !values[j].Exceeds(m)
    {
      if values[i].Exceeds(m) {
        m := values[i];
      }
    }
  }

  /** The checks in their order, stopping at the first that fails. */
  method CheckSolution(limits: Limits, s: Solution) returns (failure: Option<Failure>)
    ensures failure.None? <==> PlanOk(limits, s)
  {
    failure := CheckFinite(s.power);
    if failure.None? {
      failure := CheckOutputs(s.outputs);
    }
    if failure.None? {
      failure := CheckBounds(limits, s.power);
    }
    if failure.None? {
      var m := MaxOf(s.Residuals());
      assert m.Exceeds(Num(limits.residual)) <==> !ResidualsPass(limits, s.Residuals());
      if m.Exceeds(Num(limits.residual)) {
        failure := Some(Residual);
      }
    }
  }

  method CheckFinite(values: seq<Number>) returns (failure: Option<Failure>)
    ensures failure.None? <==> Finite(values)
  {
    for i := 0 to |values|
      invariant forall j :: 0 <= j < i ==> values[j].Num?
    {
      if !values[i].Num? {
        assert values[i] in values;
        return Some(NotFinite);
      }
    }
    failure := None;
  }

  method CheckOutputs(rows: seq<Outputs>) returns (failure: Option<Failure>)
    ensures failure.None? <==> OutputsFinite(rows)
  {
    for i := 0 to |rows|
      invariant forall j :: 0 <= j < i ==> rows[j].Finite()
    {
      if !rows[i].Finite() {
        assert rows[i] in rows;
        return Some(NotFinite);
      }
    }
    failure := None;
  }

  method CheckBounds(limits: Limits, power: seq<Number>) returns (failure: Option<Failure>)
    requires Finite(power)
    ensures failure.None? <==> power != [] && PlanWithin(limits, power)
  {
    if power == [] {
      return Some(NoPlan);
    }
    assert forall j :: 0 <= j < |power| ==> power[j] in power;
    for i := 0 to |power|
      invariant forall j :: 0 <= j < i ==> limits.minPower - SLACK <= power[j].value
    {
      if power[i].value < limits.minPower - SLACK {
        return Some(BelowMinimum);
      }
    }
    for i := 0 to |power|
      invariant forall j :: 0 <= j < i ==> power[j].value <= limits.maxPower + SLACK
    {
      if power[i].value > limits.maxPower + SLACK {
        return Some(AboveMaximum);
      }
    }
    failure := None;
  }

  /** One request: success exactly for an accepted plan, whose first power is the answer; otherwise the previous power. */
  method Solve(limits: Limits, q: Request, s: Solution) returns (r: Outcome, error: Option<Failure>)
    ensures r == Answer(limits, q, s) && (error.None? <==> r.success)
  {
    error := Attempt(limits, q, s);
    if error.Some? {
      return Outcome(false, q.previous, []), error;
    }
    var planned := [];
    for i := 0 to |s.power|
      invariant planned == Values(s.power)[..i]
    {
      planned := planned + [s.power[i].value];
    }
    r := Outcome(true, planned[0], planned);
  }

  method Attempt(limits: Limits, q: Request, s: Solution) returns (error: Option<Failure>)
    ensures error.None? <==> Accepted(limits, q, s)
  {
    if !q.Readable() {
      return Some(BadRequest);
    }
    if s.status != "optimal" && s.status != "optimal_inaccurate" {
      return Some(BadStatus);
    }
    if !s.found {
      return Some(NoVector);
    }
    if s.objective == None {
      return Some(NoObjective);
    }
    error := CheckSolution(limits, s);
  }

  // ----- The request -----

  function Split(flat: seq<real>, width: nat, n: nat): (rows: seq<Hankel.Row>)
    requires |flat| == n * width
    ensures |rows| == n && Hankel.Rectangular(rows, width)
  {
    if n == 0 then []
    else
      Hankel.ProductStep(n, width);
      Split(flat[..|flat| - width], width, n - 1) + [flat[|flat| - width..]]
  }

  lemma {:induction false} SplitJoins(flat: seq<real>, width: nat, n: nat)
    requires |flat| == n * width
    ensures Hankel.Flatten(Split(flat, width, n)) == flat
  {
    if n > 0 {
      Hankel.ProductStep(n, width);
      var rows := Split(flat, width, n);
      SplitJoins(flat[..|flat| - width], width, n - 1);
      assert rows[..n - 1] == Split(flat[..|flat| - width], width, n - 1);
    }
  }

  /** The list is a history of `past` rows of this width, flattened. */
  ghost predicate Flattened(flat: seq<real>, past: nat, width: nat) {
    exists rows :: |rows| == past && Hankel.Rectangular(rows, width) && Hankel.Flatten(rows) == flat
  }

  lemma FlattenedIff(flat: seq<real>, past: nat, width: nat)
    ensures Flattened(flat, past, width) <==> |flat| == past * width
  {
    if rows :| |rows| == past && Hankel.Rectangular(rows, width) && Hankel.Flatten(rows) == flat {
      Hankel.FlattenLength(rows, width);
    }
    if |flat| == past * width {
      SplitJoins(flat, width, past);
      var rows := Split(flat, width, past);
      assert |rows| == past && Hankel.Rectangular(rows, width) && Hankel.Flatten(rows) == flat;
    }
  }

  /** A request is accepted exactly if horizons and columns are those built in and each signal is twenty flattened rows. */
  lemma ReadableIff(q: Request)
    ensures q.Readable()
       <==> && q.pastHorizon == 20 && q.futureHorizon == 10
            && q.inputCols == INPUT_COLS && q.outputCols == OUTPUT_COLS && q.contextCols == Some(CONTEXT_COLS)
            && Flattened(q.uIni, 20, |INPUT_COLS|) && Flattened(q.yIni, 20, |OUTPUT_COLS|)
            && Flattened(q.dIni, 20, |CONTEXT_COLS|)
  {
    FlattenedIff(q.uIni, 20, 1);
    FlattenedIff(q.yIni, 20, 3);
    FlattenedIff(q.dIni, 20, 2);
  }

  /** The context forecast from the flattened history: the last vehicle count held, the beacon interval fixed. */
  function ForecastContext(dIni: seq<real>, horizon: nat): (r: seq<(real, real)>)
    requires |dIni| == 2 * PAST
    ensures |r| == horizon && forall k :: 0 <= k < horizon ==> r[k] == (dIni[2 * (PAST - 1)], FIXED_INTERVAL)
  {
    if horizon == 0 then [] else ForecastContext(dIni, horizon - 1) + [(dIni[2 * (PAST - 1)], FIXED_INTERVAL)]
  }

  /** If the context was flattened from rows of a vehicle count and an interval, every forecast step holds the newest count. */
  lemma ForecastHoldsNewest(rows: seq<Hankel.Row>, horizon: nat, k: nat)
    requires |rows| == PAST && Hankel.Rectangular(rows, 2) && k < horizon
    ensures |Hankel.Flatten(rows)| == 2 * PAST
    ensures ForecastContext(Hankel.Flatten(rows), horizon)[k] == (rows[PAST - 1][0], 0.1)
  {
    Hankel.FlattenLength(rows, 2);
    Hankel.NewestBlock(rows, 2, 0, PAST);
    assert rows[0..PAST] == rows;
    var flat := Hankel.Flatten(rows);
    assert flat == Hankel.WindowMatrix(rows, 0, PAST);
    assert flat[|flat| - 2..][0] == flat[2 * (PAST - 1)];
  }

  /** A plan that passes keeps the residual tolerance if its first residual is a number; if not, the others may be anything. */
  lemma FirstResidualDecides(limits: Limits, q: Request, s: Solution, yp: Number, dp: Number, df: Number)
    requires Accepted(limits, q, s)
    ensures s.up != NotANumber ==> forall r :: r in s.Residuals() ==> !r.Exceeds(Num(limits.residual))
    ensures Accepted(limits, q, s.(up := NotANumber, yp := yp, dp := dp, df := df))
  {
    assert s.Residuals()[0] == s.up;
    assert s.(up := NotANumber, yp := yp, dp := dp, df := df).Residuals()[0] == NotANumber;
  }

  // ----- Inputs for examples -----

  /** The request of a full history, and a full plan that holds one power. */
  function FullRequest(previous: real): Request {
    Request(0, 2.0, PAST, HORIZON, INPUT_COLS, OUTPUT_COLS, Some(CONTEXT_COLS), seq(PAST, _ => previous),
        seq(3 * PAST, _ => 0.5), seq(2 * PAST, _ => 1.0), previous)
  }

  function ConstantPlan(p: real): Solution {
    Solution("optimal", true, Some(Num(1.0)), seq(HORIZON, _ => Num(p)),
        seq(HORIZON, _ => Outputs(Num(0.9), Num(0.1), Num(0.3))),
        Num(0.0), Num(0.0), Num(0.0), Num(0.0))
  }

  lemma ConstantPlanPasses(limits: Limits, previous: real, p: real)
    requires limits.minPower - SLACK <= p <= limits.maxPower + SLACK && 0.0 <= limits.residual
    ensures Accepted(limits, FullRequest(previous), ConstantPlan(p)) && ConstantPlan(p).Shaped()
    ensures Answer(limits, FullRequest(previous), ConstantPlan(p)).power == p
  {
    var s := ConstantPlan(p);
    assert s.power[0] == Num(p);
    forall r | r in s.Residuals() ensures !r.Exceeds(Num(limits.residual)) {
    }
  }
}
