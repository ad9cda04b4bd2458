/**
  What the controller reports: the outcome of a request with the solver's
  diagnostics, written by a strict JSON printer that refuses every number that
  is not finite. A refusal happens outside the controller's failure handling,
  so then there is no answer at all.
 */
module Reply {
  import opened Prelude
  import opened Controller
  import ControlLoop
  import JsonFields

  // ----- The strict printer -----

  datatype Item =
    | Whole(n: int) | Float(x: Number) | Flag(b: bool) | Nothing | Text(s: string) | Floats(xs: seq<Number>)
  {
    /** Every number in it is finite. */
    predicate Strict() {
      match this
      case Float(x) => x.Num?
      case Floats(xs) => Finite(xs)
      case _ => true
    }
  }

  datatype Entry = Entry(key: string, item: Item)

  /** How numbers are written, and how the simulator converts their text back. */
  datatype Codec = Codec(whole: int -> string, float: real -> string, number: string -> Option<real>) {
    ghost predicate Ok() {
      (forall n :: JsonFields.IsToken(whole(n))) && (forall x :: JsonFields.IsToken(float(x)))
    }

    /** The text written for `x` is converted back to `x`, as the shortest text of a double is. */
    predicate ReadsBack(x: real) {
      number(float(x)) == Some(x)
    }
  }

  function Tokens(c: Codec, xs: seq<Number>): (r: seq<string>)
    requires Finite(xs)
    ensures |r| == |xs| && forall i :: 0 <= i < |r| ==> xs[i].Num? && r[i] == c.float(xs[i].value)
  {
    assert forall i :: 0 <= i < |xs| ==> xs[i] in xs;
    seq(|xs|, i requires 0 <= i < |xs| => c.float(xs[i].value))
  }

  function ValueOf(c: Codec, item: Item): JsonFields.Value
    requires item.Strict()
  {
    match item
    case Whole(n) => JsonFields.Num(c.whole(n))
    case Float(x) => JsonFields.Num(c.float(x.value))
    case Flag(b) => JsonFields.Bool(b)
    case Nothing => JsonFields.Null
    case Text(s) => JsonFields.Str(s)
    case Floats(xs) => JsonFields.Nums(Tokens(c, xs))
  }

  ghost predicate AllStrict(entries: seq<Entry>) {
    forall e :: e in entries ==> e.item.Strict()
  }

  ghost predicate Writes(c: Codec, e: Entry, f: JsonFields.Field) {
    e.item.Strict() && f == JsonFields.Field(e.key, ValueOf(c, e.item))
  }

  ghost function FieldsOf(c: Codec, entries: seq<Entry>): (r: seq<JsonFields.Field>)
    requires AllStrict(entries)
    ensures |r| == |entries|
    ensures forall i :: 0 <= i < |r| ==> Writes(c, entries[i], r[i])
  {
    assert forall i :: 0 <= i < |entries| ==> entries[i] in entries;
    seq(|entries|, i requires 0 <= i < |entries| => JsonFields.Field(entries[i].key, ValueOf(c, entries[i].item)))
  }

  /** The printer goes through the fields in order and gives up at the first number that is not finite. */
  method Dump(c: Codec, entries: seq<Entry>) returns (r: Option<seq<JsonFields.Field>>)
    ensures r.Some? <==> AllStrict(entries)
    ensures r.Some? ==> r.value == FieldsOf(c, entries)
  {
    var fields := [];
    for i := 0 to |entries|
      invariant |fields| == i
      invariant forall j :: 0 <= j < i ==> Writes(c, entries[j], fields[j])
    {
      if !entries[i].item.Strict() {
        assert entries[i] in entries;
        return None;
      }
      fields := fields + [JsonFields.Field(entries[i].key, ValueOf(c, entries[i].item))];
    }
    r := Some(fields);
    assert fields == FieldsOf(c, entries);
  }

  // ----- The response -----

  /** What remains in the result when a check fails: objective and residuals once there is a plan. */
  function Kept(q: Request, s: Solution, x: Number): Item {
    if Evaluated(q, s) then Float(x) else Nothing
  }

  /** The objective and the residuals reported are finite. */
  predicate DiagnosticsFinite(q: Request, s: Solution) {
    Evaluated(q, s) ==> s.objective.value.Num? && s.up.Num? && s.yp.Num? && s.dp.Num? && s.df.Num?
  }

  function Nums(xs: seq<real>): (r: seq<Number>)
    ensures Finite(r) && |r| == |xs| && forall i :: 0 <= i < |r| ==> r[i] == Num(xs[i])
  {
    seq(|xs|, i requires 0 <= i < |xs| => Num(xs[i]))
  }

  function Status(q: Request, s: Solution): string {
    if q.Readable() then s.status else "controller_error"
  }

  /** The leading fields; the printer never refuses these. */
  function Leading(q: Request, s: Solution, r: Outcome): seq<Entry> {
    [Entry("step", Whole(q.step)), Entry("time_s", Float(Num(q.time))), Entry("success", Flag(r.success)),
     Entry("solver_status", Text(Status(q, s))), Entry("tx_power_dbm", Float(Num(r.power)))]
  }

  /** The plan and what it predicts; the first row of outputs is also reported by itself. */
  function Predictions(s: Solution, r: Outcome): seq<Entry>
    requires r.success ==> s.outputs != []
  {
    var rows := if r.success then s.outputs else [];
    [Entry("future_tx_power_dbm", Floats(Nums(r.planned))),
     Entry("predicted_prr", if r.success then Float(rows[0].prr) else Nothing),
     Entry("predicted_pir_s", if r.success then Float(rows[0].pir) else Nothing),
     Entry("predicted_cbr", if r.success then Float(rows[0].cbr) else Nothing),
     Entry("predicted_prr_horizon", Floats(seq(|rows|, i requires 0 <= i < |rows| => rows[i].prr))),
     Entry("predicted_pir_s_horizon", Floats(seq(|rows|, i requires 0 <= i < |rows| => rows[i].pir))),
     Entry("predicted_cbr_horizon", Floats(seq(|rows|, i requires 0 <= i < |rows| => rows[i].cbr)))]
  }

  function Diagnostics(q: Request, s: Solution, elapsed: real): seq<Entry> {
    [Entry("objective", if Evaluated(q, s) then Float(s.objective.value) else Nothing),
     Entry("solve_time_s", Float(Num(elapsed))),
     Entry("max_up_residual", Kept(q, s, s.up)), Entry("max_yp_residual", Kept(q, s, s.yp)),
     Entry("max_dp_residual", Kept(q, s, s.dp)), Entry("max_df_residual", Kept(q, s, s.df))]
  }

  function Context(q: Request, r: Outcome, message: string): seq<Entry>
    requires r.success ==> q.Readable()
  {
    var context := if r.success then ForecastContext(q.dIni, HORIZON) else [];
    [Entry("density_forecast_mode", Text("hold_last")),
     Entry("density_forecast_active_vehicle_count_core",
           Floats(Nums(seq(|context|, i requires 0 <= i < |context| => context[i].0)))),
     Entry("beacon_interval_forecast_s", Floats(Nums(seq(|context|, i requires 0 <= i < |context| => context[i].1)))),
     Entry("error", if r.success then Nothing else Text(message))]
  }

  /** Everything after the leading fields, in order. */
  function Following(q: Request, s: Solution, r: Outcome, elapsed: real, message: string): seq<Entry>
    requires r.success ==> s.outputs != [] && q.Readable()
  {
    Predictions(s, r) + Diagnostics(q, s, elapsed) + Context(q, r, message)
  }

  /** What ends up in the response file, if anything does. */
  ghost function Reported(c: Codec, limits: Limits, q: Request, s: Solution, elapsed: real, message: string):
      Option<JsonFields.Response>
  {
    var r := Answer(limits, q, s);
    if r.success && s.outputs == [] then None
    else
      var rest := Following(q, s, r, elapsed, message);
      if AllStrict(rest) then
        Some(JsonFields.Response(c.whole(q.step), c.float(q.time), r.success, Status(q, s), c.float(r.power),
            FieldsOf(c, rest)))
      else None
  }

  /** One request from reading to writing; None where the program stops instead of answering. */
  method Serve(c: Codec, limits: Limits, q: Request, s: Solution, elapsed: real, message: string)
    returns (fields: Option<seq<JsonFields.Field>>)
    ensures var reply := Reported(c, limits, q, s, elapsed, message);
      fields == if reply.Some? then Some(JsonFields.Payload(reply.value)) else None
  {
    hide Leading, Following, FieldsOf, AllStrict, Answer, JsonFields.Payload;
    var r, error := Solve(limits, q, s);
    SuccessMeans(limits, q, s);
    if r.success && s.outputs == [] {
      return None;
    }
    LeadingFields(c, q, s, r);
    var leading := Dump(c, Leading(q, s, r));
    var rest := Dump(c, Following(q, s, r, elapsed, message));
    fields := if rest.Some? then Some(leading.value + rest.value) else None;
    if rest.Some? {
      PayloadSplits(Reported(c, limits, q, s, elapsed, message).value);
    }
  }

  lemma SuccessMeans(limits: Limits, q: Request, s: Solution)
    ensures Answer(limits, q, s).success <==> Accepted(limits, q, s)
    ensures Answer(limits, q, s).success ==> q.Readable() && Evaluated(q, s)
  {
  }

  lemma PayloadSplits(r: JsonFields.Response)
    ensures JsonFields.Payload(r) == JsonFields.Payload(r.(diagnostics := [])) + r.diagnostics
  {
  }

  lemma LeadingIsStrict(q: Request, s: Solution, r: Outcome)
    ensures AllStrict(Leading(q, s, r))
  {
  }

  lemma LeadingFields(c: Codec, q: Request, s: Solution, r: Outcome)
    ensures AllStrict(Leading(q, s, r))
    ensures FieldsOf(c, Leading(q, s, r))
         == JsonFields.Payload(JsonFields.Response(c.whole(q.step), c.float(q.time), r.success, Status(q, s),
             c.float(r.power), []))
  {
  }

  // ----- When there is an answer -----

  /** The objective and the residuals are finite once there is a plan, and a plan that passes predicts something. */
  ghost predicate Answerable(limits: Limits, q: Request, s: Solution) {
    DiagnosticsFinite(q, s) && (Accepted(limits, q, s) ==> s.outputs != [])
  }

  lemma PredictionsAreStrict(limits: Limits, q: Request, s: Solution)
    requires Accepted(limits, q, s) ==> s.outputs != []
    ensures AllStrict(Predictions(s, Answer(limits, q, s)))
  {
    var r := Answer(limits, q, s);
    var rows := if r.success then s.outputs else [];
    assert forall i :: 0 <= i < |rows| ==> rows[i] in s.outputs && rows[i].Finite();
  }

  lemma DiagnosticsAreStrictIff(q: Request, s: Solution, elapsed: real)
    ensures AllStrict(Diagnostics(q, s, elapsed)) <==> DiagnosticsFinite(q, s)
  {
    hide Request.Readable, Evaluated;
    var d := Diagnostics(q, s, elapsed);
    assert d[0] in d && d[2] in d && d[3] in d && d[4] in d && d[5] in d;
  }

  lemma ContextIsStrict(q: Request, r: Outcome, message: string)
    requires r.success ==> q.Readable()
    ensures AllStrict(Context(q, r, message))
  {
  }

  lemma StrictJoin(a: seq<Entry>, b: seq<Entry>)
    ensures AllStrict(a + b) <==> AllStrict(a) && AllStrict(b)
  {
    assert forall e :: e in a + b <==> e in a || e in b;
  }

  /**
    A response appears if and only if the objective and all residuals that are reported are finite (and an accepted
    plan predicts something): whether the plan passed its check does not matter.
   */
  lemma AnsweredIff(c: Codec, limits: Limits, q: Request, s: Solution, elapsed: real, message: string)
    ensures Reported(c, limits, q, s, elapsed, message).Some? <==> Answerable(limits, q, s)
  {
    hide Predictions, Diagnostics, Context, AllStrict, DiagnosticsFinite, Answer, Accepted, Evaluated, FieldsOf;
    var r := Answer(limits, q, s);
    SuccessMeans(limits, q, s);
    if !(r.success && s.outputs == []) {
      PredictionsAreStrict(limits, q, s);
      DiagnosticsAreStrictIff(q, s, elapsed);
      ContextIsStrict(q, r, message);
      StrictJoin(Predictions(s, r), Diagnostics(q, s, elapsed));
      StrictJoin(Predictions(s, r) + Diagnostics(q, s, elapsed), Context(q, r, message));
    }
  }

  // ----- What the answer looks like -----

  ghost predicate KeysOk(entries: seq<Entry>) {
    forall e :: e in entries ==> JsonFields.IsKey(e.key)
  }

  lemma PlanKeyNames()
    ensures JsonFields.IsKey("future_tx_power_dbm") && JsonFields.IsKey("predicted_prr")
  {
  }

  lemma OutputKeyNames()
    ensures JsonFields.IsKey("predicted_pir_s") && JsonFields.IsKey("predicted_cbr")
  {
  }

  lemma HorizonKeyNames()
    ensures JsonFields.IsKey("predicted_prr_horizon")
  {
  }

  lemma HorizonPirKeyName()
    ensures JsonFields.IsKey("predicted_pir_s_horizon")
  {
  }

  lemma HorizonCbrKeyName()
    ensures JsonFields.IsKey("predicted_cbr_horizon")
  {
  }

  lemma SolveKeyNames()
    ensures JsonFields.IsKey("objective") && JsonFields.IsKey("solve_time_s")
  {
  }

  lemma PastResidualKeyNames()
    ensures JsonFields.IsKey("max_up_residual") && JsonFields.IsKey("max_yp_residual")
  {
  }

  lemma ContextResidualKeyNames()
    ensures JsonFields.IsKey("max_dp_residual") && JsonFields.IsKey("max_df_residual")
  {
  }

  lemma ModeKeyNames()
    ensures JsonFields.IsKey("density_forecast_mode") && JsonFields.IsKey("error")
  {
  }

  lemma CountKeyName()
    ensures JsonFields.IsKey("density_forecast_active_vehicle_count_core")
  {
  }

  lemma IntervalKeyName()
    ensures JsonFields.IsKey("beacon_interval_forecast_s")
  {
  }

  lemma HeadKeyNames()
    ensures JsonFields.IsKey("step") && JsonFields.IsKey("time_s") && JsonFields.IsKey("success")
  {
  }

  lemma CommandKeyNames()
    ensures JsonFields.IsKey("solver_status") && JsonFields.IsKey("tx_power_dbm")
  {
  }

  lemma PredictionKeys(s: Solution, r: Outcome)
    requires r.success ==> s.outputs != []
    ensures KeysOk(Predictions(s, r))
  {
    hide JsonFields.IsKey;
    PlanKeyNames();
    OutputKeyNames();
    HorizonKeyNames();
    HorizonPirKeyName();
    HorizonCbrKeyName();
  }

  lemma DiagnosticKeys(q: Request, s: Solution, elapsed: real)
    ensures KeysOk(Diagnostics(q, s, elapsed))
  {
    hide JsonFields.IsKey;
    SolveKeyNames();
    PastResidualKeyNames();
    ContextResidualKeyNames();
  }

  lemma ContextKeys(q: Request, r: Outcome, message: string)
    requires r.success ==> q.Readable()
    ensures KeysOk(Context(q, r, message))
  {
    hide JsonFields.IsKey;
    ModeKeyNames();
    CountKeyName();
    IntervalKeyName();
  }

  lemma LeadingKeys(q: Request, s: Solution, r: Outcome)
    ensures KeysOk(Leading(q, s, r))
  {
    hide JsonFields.IsKey;
    HeadKeyNames();
    CommandKeyNames();
  }

  lemma StrictIsPrintable(c: Codec, entries: seq<Entry>)
    requires c.Ok() && AllStrict(entries) && KeysOk(entries)
    ensures JsonFields.Printable(FieldsOf(c, entries))
  {
    hide JsonFields.IsKey, JsonFields.IsToken;
    var fields := FieldsOf(c, entries);
    forall i | 0 <= i < |fields| ensures JsonFields.IsKey(fields[i].key) && JsonFields.ValueOk(fields[i].value) {
      assert entries[i] in entries && Writes(c, entries[i], fields[i]);
    }
  }

  lemma PrintableJoin(a: seq<JsonFields.Field>, b: seq<JsonFields.Field>)
    requires JsonFields.Printable(a) && JsonFields.Printable(b)
    ensures JsonFields.Printable(a + b)
  {
    hide JsonFields.IsKey, JsonFields.ValueOk;
  }

  lemma KeysJoin(a: seq<Entry>, b: seq<Entry>)
    requires KeysOk(a) && KeysOk(b)
    ensures KeysOk(a + b)
  {
    hide JsonFields.IsKey;
  }

  /** Every response can be printed, and carries the verdict and the text of the power. */
  lemma ReportIsPrintable(c: Codec, limits: Limits, q: Request, s: Solution, elapsed: real, message: string)
    requires c.Ok() && Reported(c, limits, q, s, elapsed, message).Some?
    ensures var reply, r := Reported(c, limits, q, s, elapsed, message).value, Answer(limits, q, s);
      JsonFields.Printable(JsonFields.Payload(reply)) && reply.success == r.success && reply.power == c.float(r.power)
  {
    hide Leading, Predictions, Diagnostics, Context, AllStrict, KeysOk, Answer, FieldsOf, JsonFields.Payload,
        JsonFields.Printable,
        Evaluated, Request.Readable, Codec.Ok;
    var reply, r := Reported(c, limits, q, s, elapsed, message).value, Answer(limits, q, s);
    SuccessMeans(limits, q, s);
    var rest := Following(q, s, r, elapsed, message);
    PredictionKeys(s, r);
    DiagnosticKeys(q, s, elapsed);
    ContextKeys(q, r, message);
    KeysJoin(Predictions(s, r), Diagnostics(q, s, elapsed));
    KeysJoin(Predictions(s, r) + Diagnostics(q, s, elapsed), Context(q, r, message));
    LeadingKeys(q, s, r);
    LeadingFields(c, q, s, r);
    StrictIsPrintable(c, Leading(q, s, r));
    StrictIsPrintable(c, rest);
    PayloadSplits(reply);
    PrintableJoin(JsonFields.Payload(reply.(diagnostics := [])), reply.diagnostics);
  }

  // ----- Both sides together -----

  /** What the simulator makes of a response text. */
  function Read(c: Codec, text: string): ControlLoop.Response {
    ControlLoop.Response(
      JsonFields.ExtractBool(text, "success") == Some(true),
      match JsonFields.ExtractNumber(text, "tx_power_dbm")
      case None => None
      case Some(token) => c.number(token))
  }

  function TextOf(reply: JsonFields.Response): string {
    JsonFields.Printed(JsonFields.Payload(reply))
  }

  /** The power in force after a request; None if no response ever comes and the simulator gives up waiting. */
  ghost function Effect(c: Codec, cfg: ControlLoop.Config, previous: real, limits: Limits, q: Request, s: Solution,
      elapsed: real, message: string): Option<real>
  {
    match Reported(c, limits, q, s, elapsed, message)
    case None => None
    case Some(reply) => Some(ControlLoop.Applied(cfg, previous, Read(c, TextOf(reply))))
  }

  /** The power that should be in force after a request that is answered. */
  ghost function Intended(cfg: ControlLoop.Config, previous: real, limits: Limits, q: Request, s: Solution): real {
    if Accepted(limits, q, s) && cfg.InBounds(s.power[0].value) then s.power[0].value else previous
  }

  lemma ReportIsApplied(c: Codec, cfg: ControlLoop.Config, previous: real, limits: Limits, q: Request, s: Solution,
      elapsed: real, message: string)
    requires c.Ok() && c.ReadsBack(Answer(limits, q, s).power) && Reported(c, limits, q, s, elapsed, message).Some?
    ensures var reply := Reported(c, limits, q, s, elapsed, message).value;
      ControlLoop.Applied(cfg, previous, Read(c, TextOf(reply))) == Intended(cfg, previous, limits, q, s)
  {
    hide Reported, JsonFields.Printed, JsonFields.Payload, JsonFields.ExtractBool, JsonFields.ExtractNumber, Codec.Ok;
    ReportIsPrintable(c, limits, q, s, elapsed, message);
    JsonFields.CommandIsReadBack(Reported(c, limits, q, s, elapsed, message).value);
  }

  /**
    For every request and every solver result, through printing, extraction and the second check: there is a power in
    force afterwards if and only if the request is answered, namely the first one planned if the plan passes and that
    power also meets the simulator's tighter tolerance, and otherwise the power before.
   */
  lemma PlanTakesEffectIff(c: Codec, cfg: ControlLoop.Config, previous: real, limits: Limits, q: Request, s: Solution,
      elapsed: real, message: string)
    requires c.Ok() && c.ReadsBack(Answer(limits, q, s).power)
    ensures Effect(c, cfg, previous, limits, q, s, elapsed, message)
         == if Answerable(limits, q, s) then Some(Intended(cfg, previous, limits, q, s)) else None
  {
    hide Reported, Answerable, Answer, Intended, Read, TextOf, Codec.Ok, ControlLoop.Applied;
    AnsweredIff(c, limits, q, s, elapsed, message);
    if Answerable(limits, q, s) {
      ReportIsApplied(c, cfg, previous, limits, q, s, elapsed, message);
    }
  }

  /** A success that is reported keeps every tolerance: the residuals are numbers and none exceeds theirs. */
  lemma ReportedSuccessKeepsTolerances(limits: Limits, q: Request, s: Solution)
    requires Accepted(limits, q, s) && Answerable(limits, q, s)
    ensures forall r :: r in s.Residuals() ==> r.Num? && r.value <= limits.residual
    ensures limits.minPower - SLACK <= s.power[0].value <= limits.maxPower + SLACK
  {
    assert s.power[0] in s.power;
    forall r | r in s.Residuals() ensures r.Num? && r.value <= limits.residual {
      assert !r.Exceeds(Num(limits.residual));
    }
  }

  /** Whatever the text, without a verdict or a power in it the power before stays in force. */
  lemma MissingFieldsChangeNothing(c: Codec, cfg: ControlLoop.Config, previous: real, text: string)
    requires JsonFields.ExtractBool(text, "success") == None || JsonFields.ExtractNumber(text, "tx_power_dbm") == None
    ensures ControlLoop.Applied(cfg, previous, Read(c, text)) == previous
  {
    hide JsonFields.ExtractBool, JsonFields.ExtractNumber;
    assert !Read(c, text).success || Read(c, text).power == None;
  }

  // ----- Inputs on which the two sides part -----

  /** Residuals that are not finite: a plan that passes the check, and one above the maximum, and neither is answered. */
  lemma NonFiniteIsNotAnswered(c: Codec, limits: Limits, residual: Number, elapsed: real, message: string)
    requires limits.minPower <= limits.maxPower && 0.0 <= limits.residual && !residual.Num?
    ensures var q := FullRequest(limits.minPower);
      var s := ConstantPlan(limits.minPower).(up := NotANumber, yp := residual, dp := residual, df := residual);
      Accepted(limits, q, s) && Reported(c, limits, q, s, elapsed, message) == None
    ensures var q, s := FullRequest(limits.minPower), ConstantPlan(limits.maxPower + 1.0).(up := residual);
      !Accepted(limits, q, s) && Reported(c, limits, q, s, elapsed, message) == None
  {
    hide Reported;
    var q, p := FullRequest(limits.minPower), ConstantPlan(limits.minPower);
    ConstantPlanPasses(limits, limits.minPower, limits.minPower);
    FirstResidualDecides(limits, q, p, residual, residual, residual);
    AnsweredIff(c, limits, q, p.(up := NotANumber, yp := residual, dp := residual, df := residual), elapsed, message);
    var high := ConstantPlan(limits.maxPower + 1.0).(up := residual);
    assert high.power[0] in high.power && high.power[0] == Num(limits.maxPower + 1.0);
    AnsweredIff(c, limits, q, high, elapsed, message);
  }

  /** With the same limits on both sides, a plan over the whole horizon can be reported as success and yet be refused. */
  lemma AcceptedButRefused(c: Codec, cfg: ControlLoop.Config, residual: real, elapsed: real, message: string)
    returns (p: real)
    requires c.Ok() && cfg.Ok() && 0.0 <= residual
    ensures p == cfg.maxPower + SLACK / 2.0
    ensures var limits, q, s := Limits(cfg.minPower, cfg.maxPower, residual), FullRequest(cfg.initialPower), ConstantPlan(p);
      && Answerable(limits, q, s) && Answer(limits, q, s) == Outcome(true, p, Values(s.power))
      && (c.ReadsBack(p) ==>
            Effect(c, cfg, cfg.initialPower, limits, q, s, elapsed, message) == Some(cfg.initialPower) != Some(p))
  {
    hide Effect;
    p := cfg.maxPower + SLACK / 2.0;
    var limits, q, s := Limits(cfg.minPower, cfg.maxPower, residual), FullRequest(cfg.initialPower), ConstantPlan(p);
    ConstantPlanPasses(limits, cfg.initialPower, p);
    if c.ReadsBack(p) {
      PlanTakesEffectIff(c, cfg, cfg.initialPower, limits, q, s, elapsed, message);
    }
  }
}
