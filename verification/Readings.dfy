/**
  What the simulator reads from a response besides verdict and power: the
  predictions, the solver's objective and time, and the residuals.
 */
module Readings {
  import opened Prelude
  import opened Controller
  import opened Reply
  import JsonFields

  // ----- The keys, in the order of the response -----

  const HEAD := ["step", "time_s", "success", "solver_status", "tx_power_dbm"]
  const PLAN := ["future_tx_power_dbm", "predicted_prr", "predicted_pir_s", "predicted_cbr"]
  const HORIZONS := ["predicted_prr_horizon", "predicted_pir_s_horizon", "predicted_cbr_horizon"]
  const SOLVER := ["objective", "solve_time_s", "max_up_residual", "max_yp_residual", "max_dp_residual", "max_df_residual"]

  function Keys(): (r: seq<string>)
    ensures |r| == 18
  {
    HEAD + PLAN + HORIZONS + SOLVER
  }

  ghost predicate Apart(a: seq<string>, b: seq<string>) {
    forall x, y :: x in a && y in b ==> x != y
  }

  ghost predicate Distinct(a: seq<string>) {
    forall i, j :: 0 <= i < j < |a| ==> a[i] != a[j]
  }

  lemma HeadShapes()
    ensures |HEAD[0]| == 4 && |HEAD[1]| == 6 && |HEAD[2]| == 7 && |HEAD[3]| == 13 && |HEAD[4]| == 12
    ensures HEAD[3][0] == 's' && HEAD[4][0] == 't'
  {
  }

  lemma PlanShapes()
    ensures |PLAN[0]| == 19 && |PLAN[1]| == 13 && |PLAN[2]| == 15 && |PLAN[3]| == 13
    ensures PLAN[1][0] == PLAN[2][0] == PLAN[3][0] == 'p'
    ensures PLAN[1][12] == PLAN[3][12] == 'r' && PLAN[1][10] == 'p' != PLAN[3][10]
  {
  }

  lemma HorizonShapes()
    ensures |HORIZONS[0]| == 21 && |HORIZONS[1]| == 23 && |HORIZONS[2]| == 21 && HORIZONS[0][10] != HORIZONS[2][10]
  {
  }

  lemma SolverShapes()
    ensures |SOLVER[0]| == 9 && |SOLVER[1]| == 12 && |SOLVER[2]| == |SOLVER[3]| == |SOLVER[4]| == |SOLVER[5]| == 15
    ensures SOLVER[1][0] == 's' && SOLVER[2][0] == SOLVER[3][0] == SOLVER[4][0] == SOLVER[5][0] == 'm'
    ensures SOLVER[2][4..6] == "up" && SOLVER[3][4..6] == "yp" && SOLVER[4][4..6] == "dp" && SOLVER[5][4..6] == "df"
  {
  }

  lemma PlanAfterHead()
    ensures Apart(HEAD, PLAN) && Distinct(HEAD) && Distinct(PLAN)
  {
    HeadShapes();
    PlanShapes();
  }

  lemma HorizonsAfterPlan()
    ensures Apart(HEAD, HORIZONS) && Apart(PLAN, HORIZONS) && Distinct(HORIZONS)
  {
    HeadShapes();
    PlanShapes();
    HorizonShapes();
  }

  lemma SolverAfterHead()
    ensures Apart(HEAD, SOLVER) && Distinct(SOLVER)
  {
    HeadShapes();
    SolverShapes();
  }

  lemma SolverAfterPlan()
    ensures Apart(PLAN, SOLVER) && Apart(HORIZONS, SOLVER)
  {
    PlanShapes();
    HorizonShapes();
    SolverShapes();
  }

  lemma DistinctJoin(a: seq<string>, b: seq<string>)
    requires Distinct(a) && Distinct(b) && Apart(a, b)
    ensures Distinct(a + b)
  {
    var s := a + b;
    forall i, j | 0 <= i < j < |s| ensures s[i] != s[j] {
      if i < |a| <= j {
        assert s[i] == a[i] && s[j] == b[j - |a|] && a[i] in a && b[j - |a|] in b;
      } else if |a| <= i {
        assert s[i] == b[i - |a|] && s[j] == b[j - |a|];
      }
    }
  }

  lemma ApartJoin(a: seq<string>, b: seq<string>, c: seq<string>)
    requires Apart(a, c) && Apart(b, c)
    ensures Apart(a + b, c)
  {
  }

  lemma KeysAreDistinct()
    ensures Distinct(Keys())
  {
    hide Distinct, Apart;
    PlanAfterHead();
    HorizonsAfterPlan();
    SolverAfterHead();
    SolverAfterPlan();
    DistinctJoin(HEAD, PLAN);
    ApartJoin(HEAD, PLAN, HORIZONS);
    DistinctJoin(HEAD + PLAN, HORIZONS);
    ApartJoin(HEAD, PLAN, SOLVER);
    ApartJoin(HEAD + PLAN, HORIZONS, SOLVER);
    DistinctJoin(HEAD + PLAN + HORIZONS, SOLVER);
  }

  // ----- The fields of a response -----

  lemma HeadIsLeading(r: JsonFields.Response)
    ensures |JsonFields.Payload(r)| >= 5 && JsonFields.Payload(r)[5..] == r.diagnostics
    ensures forall i :: 0 <= i < 5 ==> JsonFields.Payload(r)[i].key == HEAD[i]
  {
  }

  lemma PredictionOrder(s: Solution, r: Outcome)
    requires r.success ==> s.outputs != []
    ensures var e := Predictions(s, r);
      |e| == 7 && forall i :: 0 <= i < 7 ==> !e[i].item.Text? && e[i].key == (PLAN + HORIZONS)[i]
  {
  }

  lemma DiagnosticOrder(q: Request, s: Solution, elapsed: real)
    ensures var e := Diagnostics(q, s, elapsed);
      |e| == 6 && forall i :: 0 <= i < 6 ==> !e[i].item.Text? && e[i].key == SOLVER[i]
  {
    hide Request.Readable;
  }

  /** After the head come the entries of predictions and solver, none of them a string. */
  lemma ReportOrder(c: Codec, limits: Limits, q: Request, s: Solution, elapsed: real, message: string)
    requires Reported(c, limits, q, s, elapsed, message).Some?
    ensures var reply, r := Reported(c, limits, q, s, elapsed, message).value, Answer(limits, q, s);
      && (r.success ==> s.outputs != []) && |Predictions(s, r)| == 7 && |Diagnostics(q, s, elapsed)| == 6
      && |reply.diagnostics| >= 13
      && forall i :: 0 <= i < 13 ==>
           Writes(c, (Predictions(s, r) + Diagnostics(q, s, elapsed))[i], reply.diagnostics[i])
  {
    hide Predictions, Diagnostics, Context, AllStrict, Answer, Request.Readable, Writes;
    var r := Answer(limits, q, s);
    SuccessMeans(limits, q, s);
    PredictionOrder(s, r);
    DiagnosticOrder(q, s, elapsed);
    var rest := Following(q, s, r, elapsed, message);
    assert forall i :: 0 <= i < 13 ==> rest[i] == (Predictions(s, r) + Diagnostics(q, s, elapsed))[i];
  }

  lemma ReportKeys(c: Codec, limits: Limits, q: Request, s: Solution, elapsed: real, message: string)
    requires Reported(c, limits, q, s, elapsed, message).Some?
    ensures var fields := JsonFields.Payload(Reported(c, limits, q, s, elapsed, message).value);
      && |fields| >= 18 && (forall i :: 0 <= i < 18 ==> fields[i].key == Keys()[i])
      && (forall i :: 5 <= i < 18 ==> !fields[i].value.Str?)
  {
    hide Reported, Predictions, Diagnostics, Answer, Request.Readable, JsonFields.Payload;
    var reply := Reported(c, limits, q, s, elapsed, message).value;
    var fields := JsonFields.Payload(reply);
    ReportOrder(c, limits, q, s, elapsed, message);
    PredictionOrder(s, Answer(limits, q, s));
    DiagnosticOrder(q, s, elapsed);
    HeadIsLeading(reply);
    assert |Keys()| == 18;
    assert |fields| == 5 + |fields[5..]|;
    assert forall i :: 0 <= i < 5 ==> Keys()[i] == HEAD[i];
    forall i | 5 <= i < 18 ensures fields[i].key == Keys()[i] && !fields[i].value.Str? {
      assert fields[i] == reply.diagnostics[i - 5];
      assert Keys()[i] == (PLAN + HORIZONS + SOLVER)[i - 5];
    }
  }

  /** Any number after the head is read, or found missing, unless the status mimics its key. */
  lemma FieldIsRead(c: Codec, limits: Limits, q: Request, s: Solution, elapsed: real, message: string, k: nat)
    requires c.Ok() && Reported(c, limits, q, s, elapsed, message).Some? && 5 <= k < 18
    requires !JsonFields.Mimics(JsonFields.Str(Status(q, s)), Keys()[k])
    ensures var reply := Reported(c, limits, q, s, elapsed, message).value;
      && |reply.diagnostics| >= 13
      && JsonFields.ExtractNumber(TextOf(reply), Keys()[k])
      == match reply.diagnostics[k - 5].value case Num(t) => Some(t) case _ => None
  {
    hide Keys, JsonFields.Mimics, JsonFields.Printable, JsonFields.Printed, JsonFields.ExtractNumber, Codec.Ok, Reported,
        JsonFields.Target, JsonFields.IsKey;
    var reply := Reported(c, limits, q, s, elapsed, message).value;
    var fields := JsonFields.Payload(reply);
    ReportIsPrintable(c, limits, q, s, elapsed, message);
    ReportKeys(c, limits, q, s, elapsed, message);
    KeysAreDistinct();
    JsonFields.FieldAt(fields, Keys()[k], k);
    JsonFields.DiagnosticIsFoundIff(reply, Keys()[k], k);
    StatusReported(c, limits, q, s, elapsed, message);
    assert fields[k] in fields;
    KeyOfPrintable(fields, k);
    JsonFields.ExtractNumberIsTarget(fields, Keys()[k]);
  }

  lemma StatusReported(c: Codec, limits: Limits, q: Request, s: Solution, elapsed: real, message: string)
    requires Reported(c, limits, q, s, elapsed, message).Some?
    ensures Reported(c, limits, q, s, elapsed, message).value.status == Status(q, s)
  {
  }

  lemma KeyOfPrintable(fields: seq<JsonFields.Field>, k: nat)
    requires JsonFields.Printable(fields) && k < |fields|
    ensures JsonFields.IsKey(fields[k].key)
  {
    hide JsonFields.IsKey;
    assert fields[k] in fields;
  }

  // ----- What is read -----

  /** The simulator finds the text of `x` under the key; if there is no number, it finds none. */
  ghost predicate Found(c: Codec, text: string, key: string, x: Option<Number>) {
    JsonFields.ExtractNumber(text, key)
      == match x
         case Some(Num(v)) => Some(c.float(v))
         case _ => None
  }

  lemma KeyNames()
    ensures Keys()[6] == "predicted_prr" && Keys()[7] == "predicted_pir_s" && Keys()[8] == "predicted_cbr"
    ensures Keys()[12] == "objective" && Keys()[13] == "solve_time_s" && Keys()[14] == "max_up_residual"
    ensures Keys()[15] == "max_yp_residual" && Keys()[16] == "max_dp_residual" && Keys()[17] == "max_df_residual"
  {
  }

  /** The predictions read are the first row of an accepted plan; none are read if the plan was refused. */
  lemma PredictionsAreRead(c: Codec, limits: Limits, q: Request, s: Solution, elapsed: real, message: string)
    requires c.Ok() && Reported(c, limits, q, s, elapsed, message).Some?
    requires forall k :: 6 <= k <= 8 ==> !JsonFields.Mimics(JsonFields.Str(Status(q, s)), Keys()[k])
    ensures var text, ok := TextOf(Reported(c, limits, q, s, elapsed, message).value), Accepted(limits, q, s);
      && (ok ==> s.outputs != [])
      && Found(c, text, "predicted_prr", if ok then Some(s.outputs[0].prr) else None)
      && Found(c, text, "predicted_pir_s", if ok then Some(s.outputs[0].pir) else None)
      && Found(c, text, "predicted_cbr", if ok then Some(s.outputs[0].cbr) else None)
  {
    hide Keys, JsonFields.Mimics, JsonFields.Printed, JsonFields.ExtractNumber, Codec.Ok, Reported, Accepted, Answer,
        Status, Diagnostics;
    ReportOrder(c, limits, q, s, elapsed, message);
    SuccessMeans(limits, q, s);
    KeyNames();
    FieldIsRead(c, limits, q, s, elapsed, message, 6);
    FieldIsRead(c, limits, q, s, elapsed, message, 7);
    FieldIsRead(c, limits, q, s, elapsed, message, 8);
  }

  /** The solver's objective and residuals are read once a plan was evaluated, the time of the solve always. */
  lemma DiagnosticsAreRead(c: Codec, limits: Limits, q: Request, s: Solution, elapsed: real, message: string)
    requires c.Ok() && Reported(c, limits, q, s, elapsed, message).Some?
    requires forall k :: 12 <= k < 18 ==> !JsonFields.Mimics(JsonFields.Str(Status(q, s)), Keys()[k])
    ensures var text, ok := TextOf(Reported(c, limits, q, s, elapsed, message).value), Evaluated(q, s);
      && Found(c, text, "objective", if ok then s.objective else None)
      && Found(c, text, "solve_time_s", Some(Num(elapsed)))
      && Found(c, text, "max_up_residual", if ok then Some(s.up) else None)
      && Found(c, text, "max_yp_residual", if ok then Some(s.yp) else None)
      && Found(c, text, "max_dp_residual", if ok then Some(s.dp) else None)
      && Found(c, text, "max_df_residual", if ok then Some(s.df) else None)
  {
    hide Keys, JsonFields.Mimics, JsonFields.Printed, JsonFields.ExtractNumber, Codec.Ok, Reported, Accepted, Answer,
        Status, Predictions, Request.Readable;
    ReportOrder(c, limits, q, s, elapsed, message);
    KeyNames();
    FieldIsRead(c, limits, q, s, elapsed, message, 12);
    FieldIsRead(c, limits, q, s, elapsed, message, 13);
    FieldIsRead(c, limits, q, s, elapsed, message, 14);
    FieldIsRead(c, limits, q, s, elapsed, message, 15);
    FieldIsRead(c, limits, q, s, elapsed, message, 16);
    FieldIsRead(c, limits, q, s, elapsed, message, 17);
  }

  /** A status without a quote mimics no key but itself. */
  lemma PlainStatus(status: string, key: string)
    requires '"' !in status && status != key
    ensures !JsonFields.Mimics(JsonFields.Str(status), key)
  {
    var t := "\"" + key;
    assert t[0] == '"';
  }

  lemma KeyLengths()
    ensures |Keys()[6]| == 13 && |Keys()[7]| == 15 && |Keys()[8]| == 13 && |Keys()[12]| == 9 && |Keys()[13]| == 12
    ensures |Keys()[14]| == |Keys()[15]| == |Keys()[16]| == |Keys()[17]| == 15
  {
    PlanShapes();
    SolverShapes();
  }

  lemma GoodStatus(q: Request, s: Solution)
    requires Evaluated(q, s)
    ensures '"' !in Status(q, s) && |Status(q, s)| in {7, 18}
  {
    hide Request.Readable;
  }

  /**
    All that the simulator logs of an accepted plan: the first row of the
    prediction, the objective, the time of the solve and the residuals.
   */
  lemma AcceptedPlanIsRead(c: Codec, limits: Limits, q: Request, s: Solution, elapsed: real, message: string)
    requires c.Ok() && Accepted(limits, q, s) && Reported(c, limits, q, s, elapsed, message).Some?
    ensures var text := TextOf(Reported(c, limits, q, s, elapsed, message).value);
      && s.outputs != [] && Found(c, text, "predicted_prr", Some(s.outputs[0].prr))
      && Found(c, text, "predicted_pir_s", Some(s.outputs[0].pir)) && Found(c, text, "predicted_cbr", Some(s.outputs[0].cbr))
      && Found(c, text, "objective", s.objective) && Found(c, text, "solve_time_s", Some(Num(elapsed)))
      && Found(c, text, "max_up_residual", Some(s.up)) && Found(c, text, "max_yp_residual", Some(s.yp))
      && Found(c, text, "max_dp_residual", Some(s.dp)) && Found(c, text, "max_df_residual", Some(s.df))
  {
    hide Keys, JsonFields.Mimics, Codec.Ok, Reported, Found, Status, TextOf, PlanOk, Request.Readable;
    GoodStatus(q, s);
    KeyLengths();
    forall k | 6 <= k <= 8 || 12 <= k < 18
      ensures !JsonFields.Mimics(JsonFields.Str(Status(q, s)), Keys()[k])
    {
      PlainStatus(Status(q, s), Keys()[k]);
    }
    PredictionsAreRead(c, limits, q, s, elapsed, message);
    DiagnosticsAreRead(c, limits, q, s, elapsed, message);
  }

  /** The lists of an accepted plan are written whole: its powers, and each predicted output over the horizon. */
  lemma ListsAreReported(c: Codec, limits: Limits, q: Request, s: Solution, elapsed: real, message: string, i: nat)
    requires Accepted(limits, q, s) && Reported(c, limits, q, s, elapsed, message).Some?
    ensures var fields := Reported(c, limits, q, s, elapsed, message).value.diagnostics;
      && |fields| >= 7 && (forall k | k in {0, 4, 5, 6} :: fields[k].value.Nums?)
      && |fields[0].value.tokens| == |s.power|
      && |fields[4].value.tokens| == |fields[5].value.tokens| == |fields[6].value.tokens| == |s.outputs|
      && (i < |s.power| ==> s.power[i].Num? && fields[0].value.tokens[i] == c.float(s.power[i].value))
      && (i < |s.outputs| ==>
            && s.outputs[i].Finite() && fields[4].value.tokens[i] == c.float(s.outputs[i].prr.value)
            && fields[5].value.tokens[i] == c.float(s.outputs[i].pir.value)
            && fields[6].value.tokens[i] == c.float(s.outputs[i].cbr.value))
  {
    hide Reported, Diagnostics, Request.Readable, ResidualsPass;
    ReportOrder(c, limits, q, s, elapsed, message);
    SuccessMeans(limits, q, s);
    var fields := Reported(c, limits, q, s, elapsed, message).value.diagnostics;
    var e := Predictions(s, Answer(limits, q, s));
    assert Writes(c, e[0], fields[0]) && Writes(c, e[4], fields[4]) && Writes(c, e[5], fields[5]) && Writes(c, e[6], fields[6]);
    if i < |s.power| {
      assert s.power[i] in s.power;
    }
    if i < |s.outputs| {
      assert s.outputs[i] in s.outputs;
    }
  }

  lemma HeadNames()
    ensures Keys()[0] == "step" && Keys()[1] == "time_s"
  {
  }

  /** Number and time of the request are read back from every response. */
  lemma RequestIsNamed(c: Codec, limits: Limits, q: Request, s: Solution, elapsed: real, message: string)
    requires c.Ok() && Reported(c, limits, q, s, elapsed, message).Some?
    ensures var text := TextOf(Reported(c, limits, q, s, elapsed, message).value);
      && JsonFields.ExtractNumber(text, "step") == Some(c.whole(q.step))
      && JsonFields.ExtractNumber(text, "time_s") == Some(c.float(q.time))
  {
    hide Keys, JsonFields.Printable, JsonFields.Printed, JsonFields.ExtractNumber, Codec.Ok, Reported, JsonFields.Target,
        JsonFields.IsKey, JsonFields.Mimics;
    var reply := Reported(c, limits, q, s, elapsed, message).value;
    var fields := JsonFields.Payload(reply);
    ReportIsPrintable(c, limits, q, s, elapsed, message);
    ReportKeys(c, limits, q, s, elapsed, message);
    HeadReported(c, limits, q, s, elapsed, message);
    KeysAreDistinct();
    HeadNames();
    for k := 0 to 2
      invariant k > 0 ==> JsonFields.ExtractNumber(TextOf(reply), "step") == Some(reply.step)
      invariant k > 1 ==> JsonFields.ExtractNumber(TextOf(reply), "time_s") == Some(reply.time)
    {
      JsonFields.FieldAt(fields, Keys()[k], k);
      JsonFields.TargetIsFieldIff(fields, Keys()[k]);
      JsonFields.NoMimic(fields[0].value, Keys()[k]);
      KeyOfPrintable(fields, k);
      JsonFields.ExtractNumberIsTarget(fields, Keys()[k]);
    }
  }

  lemma HeadReported(c: Codec, limits: Limits, q: Request, s: Solution, elapsed: real, message: string)
    requires Reported(c, limits, q, s, elapsed, message).Some?
    ensures var reply := Reported(c, limits, q, s, elapsed, message).value;
      reply.step == c.whole(q.step) && reply.time == c.float(q.time)
  {
  }

  /** After the residuals a response holds the forecast of the context, and the message exactly if the plan was refused. */
  lemma ContextIsReported(c: Codec, limits: Limits, q: Request, s: Solution, elapsed: real, message: string, i: nat)
    requires Reported(c, limits, q, s, elapsed, message).Some? && i < HORIZON
    ensures var fields, ok := Reported(c, limits, q, s, elapsed, message).value.diagnostics, Accepted(limits, q, s);
      && |fields| == 17 && fields[14].value.Nums? && fields[15].value.Nums?
      && fields[16].value == (if ok then JsonFields.Null else JsonFields.Str(message))
      && |fields[14].value.tokens| == |fields[15].value.tokens| == (if ok then HORIZON else 0)
      && (ok ==> q.Readable() && fields[14].value.tokens[i] == c.float(q.dIni[2 * PAST - 2])
                 && fields[15].value.tokens[i] == c.float(0.1))
  {
    hide Predictions, Diagnostics, Reported, Accepted;
    var r := Answer(limits, q, s);
    SuccessMeans(limits, q, s);
    ContextOrder(c, limits, q, s, elapsed, message);
    var fields := Reported(c, limits, q, s, elapsed, message).value.diagnostics;
    var e := Context(q, r, message);
    assert Writes(c, e[1], fields[14]) && Writes(c, e[2], fields[15]) && Writes(c, e[3], fields[16]);
  }

  lemma ContextOrder(c: Codec, limits: Limits, q: Request, s: Solution, elapsed: real, message: string)
    requires Reported(c, limits, q, s, elapsed, message).Some?
    ensures var fields, r := Reported(c, limits, q, s, elapsed, message).value.diagnostics, Answer(limits, q, s);
      && (r.success ==> q.Readable()) && |Context(q, r, message)| == 4 && |fields| == 17
      && forall i :: 0 <= i < 4 ==> Writes(c, Context(q, r, message)[i], fields[13 + i])
  {
    hide Predictions, Diagnostics, AllStrict, Answer, Request.Readable, Writes;
    var r := Answer(limits, q, s);
    SuccessMeans(limits, q, s);
    PredictionOrder(s, r);
    DiagnosticOrder(q, s, elapsed);
    var rest := Following(q, s, r, elapsed, message);
    assert forall i :: 0 <= i < 4 ==> rest[13 + i] == Context(q, r, message)[i];
  }
}
