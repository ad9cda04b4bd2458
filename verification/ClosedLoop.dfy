/**
  The whole closed loop: the simulator's event loop blocks on the file bridge
  inside a control step, the controller answers with the checked result of its
  solver, printed as JSON, and the simulator extracts the power from the text.
  A result that cannot be printed ends the controller instead. The file
  operations of the two processes interleave in any way.
 */
module ClosedLoop {
  import opened Prelude
  import Bridge
  import BridgeRuns
  import ControlLoop
  import Controller
  import JsonFields
  import Reply

  /** The request as text and the request as the controller parses it are outside this model. */
  datatype Setup = Setup(cfg: ControlLoop.Config, limits: Controller.Limits, limit: nat,
      render: ControlLoop.Request -> string, parse: string -> Controller.Request, codec: Reply.Codec)
  {
    ghost predicate Ok() {
      cfg.Ok() && codec.Ok()
    }

    /** The request as the controller sees it, whatever is lost on the way. */
    ghost function Request(q: ControlLoop.Request): Controller.Request {
      parse(render(q))
    }
  }

  /** What the solver leaves behind, the time it took, and the message of an error, should there be one. */
  datatype Solve = Solve(solution: Controller.Solution, elapsed: real, message: string)

  /** `crashed`: the controller has ended; `solutions` observes what the solver left behind, one per request answered. */
  datatype World = World(loop: ControlLoop.World, bridge: Bridge.State, crashed: bool, solutions: seq<Controller.Solution>)

  /**
    `Local` is an event of the simulator that needs no command, `Ask` begins a control step, `Work` is any
    other file operation, `Answer` the end of a solve, `Crash` one whose result
    cannot be printed, and `Finish` the end of the control step.
   */
  datatype Step =
    | Local
    | Ask
    | Work(operation: Bridge.Step)
    | Answer(solve: Solve)
    | Crash(solve: Solve)
    | Finish

  // ----- Steps -----

  /** The next event is a control step with a full history. */
  predicate Asks(cfg: ControlLoop.Config, w: ControlLoop.World) {
    w.bridge.Some? && w.bridge.value.Before(w.sampler) && w.bridge.value.time <= cfg.evalEnd + ControlLoop.TICK
    && ControlLoop.Pushes(cfg, w) && w.history.Pushed(cfg.tini, w.latest.value).Ready(cfg.tini)
  }

  function NextRequest(cfg: ControlLoop.Config, w: ControlLoop.World): ControlLoop.Request
    requires Asks(cfg, w)
  {
    ControlLoop.Request(w.step, w.history.Pushed(cfg.tini, w.latest.value).samples, w.previous)
  }

  /** What is reported of a solve for a request text. */
  ghost function ReportOf(s: Setup, request: string, x: Solve): Option<JsonFields.Response> {
    Reply.Reported(s.codec, s.limits, s.parse(request), x.solution, x.elapsed, x.message)
  }

  /** The solver's result has the shape of the matrices, and the power reported is converted back exactly. */
  ghost predicate Sound(s: Setup, request: string, x: Solve) {
    && x.solution.Shaped()
    && s.codec.ReadsBack(Controller.Answer(s.limits, s.parse(request), x.solution).power)
  }

  ghost predicate Solving(w: World) {
    !w.crashed && w.bridge.ctl.Solving? && w.bridge.ctl.pending != []
  }

  ghost predicate Enabled(s: Setup, w: World, step: Step) {
    match step
    case Local => w.bridge.sim.Idle? && !Asks(s.cfg, w.loop)
    case Ask => w.bridge.sim.Idle? && Asks(s.cfg, w.loop)
    case Work(op) => !op.OpenRequest? && !op.Solve? && !op.ReadResponse? && Bridge.Enabled(s.limit, w.bridge, op)
    case Answer(x) => Solving(w) && Sound(s, w.bridge.ctl.request, x) && ReportOf(s, w.bridge.ctl.request, x).Some?
    case Crash(x) => Solving(w) && Sound(s, w.bridge.ctl.request, x) && ReportOf(s, w.bridge.ctl.request, x).None?
    case Finish => Bridge.Enabled(s.limit, w.bridge, Bridge.ReadResponse)
  }

  ghost function Next(s: Setup, w: World, step: Step): World
    requires Enabled(s, w, step)
  {
    match step
    case Local => w.(loop := ControlLoop.Next(s.cfg, w.loop, ControlLoop.Response(false, None)))
    case Ask =>
      w.(bridge := Bridge.Next(s.limit, w.bridge, Bridge.OpenRequest(s.render(NextRequest(s.cfg, w.loop)))))
    case Work(op) => w.(bridge := Bridge.Next(s.limit, w.bridge, op))
    case Answer(x) =>
      var text := Reply.TextOf(ReportOf(s, w.bridge.ctl.request, x).value);
      w.(bridge := Bridge.Next(s.limit, w.bridge, Bridge.Solve(text)), solutions := w.solutions + [x.solution])
    case Crash(_) => w.(crashed := true)
    case Finish =>
      var text := w.bridge.responses[Bridge.Name(w.bridge.next)];
      w.(loop := ControlLoop.Next(s.cfg, w.loop, Reply.Read(s.codec, text)),
         bridge := Bridge.Next(s.limit, w.bridge, Bridge.ReadResponse))
  }

  ghost predicate Reaches(s: Setup, steps: seq<Step>, w: World)
    decreases |steps|, 0
  {
    if steps == [] then w == World(ControlLoop.Initial(s.cfg), Bridge.Initial(), false, [])
    else ReachesBy(s, steps[..|steps| - 1], steps[|steps| - 1], w)
  }

  ghost predicate ReachesBy(s: Setup, steps: seq<Step>, last: Step, w: World)
    decreases |steps|, 1
  {
    exists before :: Reaches(s, steps, before) && Leads(s, before, last, w)
  }

  ghost predicate Leads(s: Setup, before: World, step: Step, w: World) {
    Enabled(s, before, step) && Next(s, before, step) == w
  }

  // ----- The invariant -----

  /** Every answer is the printed outcome of its request and its solution. */
  ghost predicate AnswersOk(s: Setup, solved: seq<Bridge.Answer>, solutions: seq<Controller.Solution>) {
    |solutions| == |solved| && forall k :: 0 <= k < |solved| ==> AnswerOk(s, solved[k], solutions[k])
  }

  ghost predicate AnswerOk(s: Setup, a: Bridge.Answer, solution: Controller.Solution) {
    exists x: Solve :: x.solution == solution && Sound(s, a.request, x)
                       && ReportOf(s, a.request, x).Some? && a.response == Reply.TextOf(ReportOf(s, a.request, x).value)
  }

  /** The request texts are those of the loop's requests, and while the simulator waits that of the one about to be logged. */
  ghost predicate InStep(s: Setup, w: World) {
    && |w.loop.requests| == w.bridge.next
    && (forall k :: 0 <= k < |w.loop.requests| && k < |w.bridge.sent| ==>
          w.bridge.sent[k] == s.render(w.loop.requests[k]))
    && (!w.bridge.sim.Idle? ==> Asks(s.cfg, w.loop) && Pending(w.bridge) == s.render(NextRequest(s.cfg, w.loop)))
  }

  ghost function Pending(b: Bridge.State): string {
    if b.sim.Writing? then b.sim.text else if b.next < |b.sent| then b.sent[b.next] else ""
  }

  /** The power in force after the `k`-th command. */
  ghost function PowerAfter(w: ControlLoop.World, k: nat): real {
    if k + 1 < |w.requests| then w.requests[k + 1].previous else w.previous
  }

  ghost predicate EffectsOk(s: Setup, loop: ControlLoop.World, solutions: seq<Controller.Solution>) {
    && |loop.requests| <= |solutions|
    && (if loop.requests == [] then loop.previous else loop.requests[0].previous) == s.cfg.initialPower
    && forall k :: 0 <= k < |loop.requests| ==> EffectOk(s, loop, solutions, k)
  }

  ghost predicate EffectOk(s: Setup, loop: ControlLoop.World, solutions: seq<Controller.Solution>, k: nat)
    requires k < |loop.requests| <= |solutions|
  {
    var q := loop.requests[k];
    && Reply.Answerable(s.limits, s.Request(q), solutions[k])
    && PowerAfter(loop, k) == Reply.Intended(s.cfg, q.previous, s.limits, s.Request(q), solutions[k])
  }

  ghost predicate Inv(s: Setup, w: World) {
    && ControlLoop.Inv(s.cfg, w.loop) && Bridge.Inv(w.bridge)
    && AnswersOk(s, w.bridge.solved, w.solutions) && InStep(s, w) && EffectsOk(s, w.loop, w.solutions)
    && (w.crashed ==> w.bridge.ctl.Solving?)
  }

  // ----- The event loop -----

  lemma LoopKeepsInv(cfg: ControlLoop.Config, w: ControlLoop.World, r: ControlLoop.Response)
    requires cfg.Ok() && ControlLoop.Inv(cfg, w)
    ensures ControlLoop.Inv(cfg, ControlLoop.Next(cfg, w, r))
  {
    hide ControlLoop.Inv, ControlLoop.BridgeStep, ControlLoop.SampleStep;
    if w.bridge.Some? && w.bridge.value.Before(w.sampler) {
      ControlLoop.BridgeKeepsInv(cfg, w, r);
    } else {
      ControlLoop.SampleKeepsInv(cfg, w);
    }
  }

  /** Only a control step with a full history logs a request and may change the power. */
  lemma LoopSteps(cfg: ControlLoop.Config, w: ControlLoop.World, r: ControlLoop.Response)
    ensures var w' := ControlLoop.Next(cfg, w, r);
      if Asks(cfg, w)
      then w'.requests == w.requests + [NextRequest(cfg, w)] && w'.previous == ControlLoop.Applied(cfg, w.previous, r)
      else w'.requests == w.requests && w'.previous == w.previous
  {
  }

  // ----- The response text -----

  /** The simulator extracts verdict and power of every answer. */
  lemma AnswerIsRead(s: Setup, a: Bridge.Answer, solution: Controller.Solution, previous: real)
    requires s.Ok() && AnswerOk(s, a, solution)
    ensures ControlLoop.Applied(s.cfg, previous, Reply.Read(s.codec, a.response))
         == Reply.Intended(s.cfg, previous, s.limits, s.parse(a.request), solution)
    ensures Reply.Answerable(s.limits, s.parse(a.request), solution)
  {
    hide Controller.Answer, Reply.Reported, Reply.Answerable, Reply.Intended, Reply.Read, Reply.TextOf;
    var q := s.parse(a.request);
    var x: Solve :| x.solution == solution && Sound(s, a.request, x)
                    && ReportOf(s, a.request, x).Some? && a.response == Reply.TextOf(ReportOf(s, a.request, x).value);
    Reply.AnsweredIff(s.codec, s.limits, q, solution, x.elapsed, x.message);
    Reply.ReportIsApplied(s.codec, s.cfg, previous, s.limits, q, solution, x.elapsed, x.message);
  }

  // ----- Steps keep the invariant -----

  lemma LocalKeepsInv(s: Setup, w: World)
    requires s.Ok() && Inv(s, w) && Enabled(s, w, Local)
    ensures Inv(s, Next(s, w, Local))
  {
    hide ControlLoop.Inv, Bridge.Inv, AnswersOk, ControlLoop.Next, Asks, NextRequest, Reply.Intended, Reply.Answerable;
    var r := ControlLoop.Response(false, None);
    LoopKeepsInv(s.cfg, w.loop, r);
    LoopSteps(s.cfg, w.loop, r);
    var w' := Next(s, w, Local);
    forall k | 0 <= k < |w'.loop.requests| ensures EffectOk(s, w'.loop, w'.solutions, k) {
      assert EffectOk(s, w.loop, w.solutions, k);
    }
  }

  lemma AskKeepsInv(s: Setup, w: World)
    requires s.Ok() && Inv(s, w) && Enabled(s, w, Ask)
    ensures Inv(s, Next(s, w, Ask))
  {
    hide ControlLoop.Inv, Bridge.Inv, AnswersOk, Asks, NextRequest, EffectsOk;
    Bridge.StepKeepsInv(s.limit, w.bridge, Bridge.OpenRequest(s.render(NextRequest(s.cfg, w.loop))));
  }

  /** Between opening a request and reading its response the texts of the simulator's requests stay. */
  ghost predicate SameTexts(b: Bridge.State, b': Bridge.State) {
    && b'.next == b.next && b'.sim.Idle? == b.sim.Idle? && (!b.sim.Idle? ==> Pending(b') == Pending(b))
    && b.next <= |b.sent| && b.next <= |b'.sent| && b'.sent[..b.next] == b.sent[..b.next]
  }

  lemma WorkFrame(limit: nat, b: Bridge.State, op: Bridge.Step)
    requires Bridge.Inv(b) && Bridge.Enabled(limit, b, op) && !op.OpenRequest? && !op.Solve? && !op.ReadResponse?
    ensures var b' := Bridge.Next(limit, b, op);
      SameTexts(b, b') && b'.solved == b.solved && (b.ctl.Solving? ==> b'.ctl == b.ctl)
  {
    hide Bridge.ResponsesOk, Bridge.AnswersOk, Bridge.RequestsOk, Bridge.Snapshot;
  }

  lemma InStepFrame(s: Setup, w: World, b': Bridge.State)
    requires InStep(s, w) && SameTexts(w.bridge, b')
    ensures InStep(s, w.(bridge := b'))
  {
    hide Asks, NextRequest, Pending;
    forall k | 0 <= k < |w.loop.requests| ensures b'.sent[k] == s.render(w.loop.requests[k]) {
      assert b'.sent[k] == b'.sent[..b'.next][k] == w.bridge.sent[..b'.next][k];
    }
  }

  lemma WorkKeepsInv(s: Setup, w: World, op: Bridge.Step)
    requires s.Ok() && Inv(s, w) && Enabled(s, w, Work(op))
    ensures Inv(s, Next(s, w, Work(op)))
  {
    hide ControlLoop.Inv, Bridge.Inv, AnswersOk, InStep, EffectsOk, SameTexts, Bridge.Enabled, Bridge.Next;
    Bridge.StepKeepsInv(s.limit, w.bridge, op);
    WorkFrame(s.limit, w.bridge, op);
    InStepFrame(s, w, Bridge.Next(s.limit, w.bridge, op));
  }

  lemma AnswerKeepsInv(s: Setup, w: World, x: Solve)
    requires s.Ok() && Inv(s, w) && Enabled(s, w, Answer(x))
    ensures Inv(s, Next(s, w, Answer(x)))
  {
    hide ControlLoop.Inv, Bridge.Inv, Asks, NextRequest, ReportOf, Sound, Reply.TextOf;
    var text := Reply.TextOf(ReportOf(s, w.bridge.ctl.request, x).value);
    Bridge.StepKeepsInv(s.limit, w.bridge, Bridge.Solve(text));
    var w' := Next(s, w, Answer(x));
    var a := Bridge.Answer(w.bridge.ctl.pending[0], w.bridge.ctl.request, text);
    assert w'.bridge.solved == w.bridge.solved + [a];
    assert AnswerOk(s, a, x.solution);
    hide AnswerOk, Reply.Intended, Reply.Answerable;
    forall k | 0 <= k < |w'.loop.requests| ensures EffectOk(s, w'.loop, w'.solutions, k) {
      assert EffectOk(s, w.loop, w.solutions, k);
    }
  }

  lemma CrashKeepsInv(s: Setup, w: World, x: Solve)
    requires s.Ok() && Inv(s, w) && Enabled(s, w, Crash(x))
    ensures Inv(s, Next(s, w, Crash(x)))
  {
    hide ControlLoop.Inv, Bridge.Inv, AnswersOk, EffectsOk, Asks, NextRequest, ReportOf, Sound;
  }

  /** What is read is the answer to the pending request. */
  lemma ReadIsAnswer(limit: nat, b: Bridge.State)
    requires Bridge.Inv(b) && Bridge.Enabled(limit, b, Bridge.ReadResponse)
    ensures b.next < |b.solved| && b.responses[Bridge.Name(b.next)] == b.solved[b.next].response
    ensures b.next < |b.sent| && b.solved[b.next].request == b.sent[b.next] == Pending(b)
  {
    hide Bridge.RequestsOk;
  }

  /** The new request gets the effect of its own answer; the earlier ones keep theirs. */
  lemma EffectIsAdded(s: Setup, loop: ControlLoop.World, loop': ControlLoop.World, q: ControlLoop.Request,
      solutions: seq<Controller.Solution>)
    requires EffectsOk(s, loop, solutions) && |loop.requests| < |solutions|
    requires loop'.requests == loop.requests + [q] && q.previous == loop.previous
    requires loop'.previous
          == Reply.Intended(s.cfg, q.previous, s.limits, s.Request(q), solutions[|loop.requests|])
    requires Reply.Answerable(s.limits, s.Request(q), solutions[|loop.requests|])
    ensures EffectsOk(s, loop', solutions)
  {
    hide Reply.Intended, Reply.Answerable;
    forall k | 0 <= k < |loop'.requests| ensures EffectOk(s, loop', solutions, k) {
      if k < |loop.requests| {
        assert EffectOk(s, loop, solutions, k);
        assert PowerAfter(loop', k) == PowerAfter(loop, k);
      }
    }
  }

  lemma FinishKeepsInv(s: Setup, w: World)
    requires s.Ok() && Inv(s, w) && Enabled(s, w, Finish)
    ensures Inv(s, Next(s, w, Finish))
  {
    hide ControlLoop.Inv, Bridge.Inv, ControlLoop.Next, Reply.Intended, Reply.Answerable, Reply.Read, AnswerOk, Asks,
        NextRequest, EffectOk, ControlLoop.Applied;
    var n := w.bridge.next;
    ReadIsAnswer(s.limit, w.bridge);
    Bridge.StepKeepsInv(s.limit, w.bridge, Bridge.ReadResponse);
    var q, text := NextRequest(s.cfg, w.loop), w.bridge.responses[Bridge.Name(n)];
    var loop' := ControlLoop.Next(s.cfg, w.loop, Reply.Read(s.codec, text));
    LoopKeepsInv(s.cfg, w.loop, Reply.Read(s.codec, text));
    LoopSteps(s.cfg, w.loop, Reply.Read(s.codec, text));
    AnswerIsRead(s, w.bridge.solved[n], w.solutions[n], w.loop.previous);
    NextRequestPrevious(s.cfg, w.loop);
    EffectIsAdded(s, w.loop, loop', q, w.solutions);
  }

  lemma NextRequestPrevious(cfg: ControlLoop.Config, w: ControlLoop.World)
    requires Asks(cfg, w)
    ensures NextRequest(cfg, w).previous == w.previous
  {
  }

  lemma StepKeepsInv(s: Setup, w: World, step: Step)
    requires s.Ok() && Inv(s, w) && Enabled(s, w, step)
    ensures Inv(s, Next(s, w, step))
  {
    hide Inv, Enabled, Next;
    match step
    case Local => LocalKeepsInv(s, w);
    case Ask => AskKeepsInv(s, w);
    case Work(op) => WorkKeepsInv(s, w, op);
    case Answer(x) => AnswerKeepsInv(s, w, x);
    case Crash(x) => CrashKeepsInv(s, w, x);
    case Finish => FinishKeepsInv(s, w);
  }

  lemma {:induction false} EveryRunKeepsInv(s: Setup, steps: seq<Step>, w: World)
    requires s.Ok() && Reaches(s, steps, w)
    ensures Inv(s, w)
    decreases |steps|
  {
    hide Inv, Enabled, Next;
    if steps == [] {
      InitialInv(s);
    } else {
      var step := steps[|steps| - 1];
      var before :| Reaches(s, steps[..|steps| - 1], before) && Leads(s, before, step, w);
      EveryRunKeepsInv(s, steps[..|steps| - 1], before);
      StepKeepsInv(s, before, step);
    }
  }

  lemma InitialInv(s: Setup)
    requires s.Ok()
    ensures Inv(s, World(ControlLoop.Initial(s.cfg), Bridge.Initial(), false, []))
  {
    hide ControlLoop.Inv, Bridge.Inv;
    ControlLoop.InitialInv(s.cfg);
    Bridge.InitialInv();
  }

  // ----- What every run guarantees -----

  /**
    In every interleaving each request that is answered could be answered, and the power in force after
    command `k` is the first power of the plan computed for request `k`, if that plan passes and the
    power is within the simulator's bounds, and otherwise the power before it.
   */
  lemma PowerFollowsPlans(s: Setup, steps: seq<Step>, w: World, k: nat)
    requires s.Ok() && Reaches(s, steps, w) && k < |w.loop.requests|
    ensures k < |w.solutions| && Reply.Answerable(s.limits, s.Request(w.loop.requests[k]), w.solutions[k])
    ensures var q, plan := w.loop.requests[k], w.solutions[k];
      PowerAfter(w.loop, k) ==
        if Controller.Accepted(s.limits, s.Request(q), plan) && s.cfg.InBounds(plan.power[0].value) then plan.power[0].value
        else q.previous
  {
    hide Reaches, ControlLoop.Inv, Bridge.Inv, AnswersOk, InStep, PowerAfter, Reply.Answerable;
    EveryRunKeepsInv(s, steps, w);
    assert EffectOk(s, w.loop, w.solutions, k);
  }

  /** A solve ends in an answer or in the end of the controller, and in an answer exactly if its diagnostics are finite. */
  lemma SolveEndsIff(s: Setup, w: World, x: Solve)
    requires Solving(w) && Sound(s, w.bridge.ctl.request, x)
    ensures Enabled(s, w, Answer(x)) <==> Reply.DiagnosticsFinite(s.parse(w.bridge.ctl.request), x.solution)
    ensures Enabled(s, w, Crash(x)) <==> !Enabled(s, w, Answer(x))
  {
    hide Reply.Reported, Reply.DiagnosticsFinite, Controller.Accepted;
    Reply.AnsweredIff(s.codec, s.limits, s.parse(w.bridge.ctl.request), x.solution, x.elapsed, x.message);
  }

  lemma SolvingWaits(b: Bridge.State)
    requires Bridge.Inv(b) && b.ctl.Solving?
    ensures b.sim.Waiting? && Bridge.Name(b.next) !in b.responses
  {
    hide Bridge.RequestsOk;
  }

  /** When the controller has ended nothing happens any more: the simulator waits for the response until it gives up. */
  lemma CrashIsFinal(s: Setup, steps: seq<Step>, w: World, step: Step)
    requires s.Ok() && Reaches(s, steps, w) && w.crashed
    ensures w.bridge.sim.Waiting? && !Enabled(s, w, step)
  {
    hide Reaches, ControlLoop.Inv, Bridge.Inv, AnswersOk, InStep, EffectsOk, Bridge.Snapshot;
    EveryRunKeepsInv(s, steps, w);
    SolvingWaits(w.bridge);
  }

  /** The requests are numbered without gaps, and the power of the radios is the one after the last command. */
  lemma PowerInForce(s: Setup, steps: seq<Step>, w: World)
    requires s.Ok() && Reaches(s, steps, w)
    ensures w.loop.power == if w.loop.requests == [] then s.cfg.initialPower else PowerAfter(w.loop, |w.loop.requests| - 1)
    ensures s.cfg.InBounds(w.loop.power) && |w.loop.requests| == w.bridge.next
  {
    hide Reaches, Bridge.Inv;
    EveryRunKeepsInv(s, steps, w);
  }

  // ----- Progress -----

  ghost predicate Walks(s: Setup, w: World, path: seq<Step>, t: World)
    decreases |path|
  {
    if path == [] then w == t else Enabled(s, w, path[0]) && Walks(s, Next(s, w, path[0]), path[1..], t)
  }

  /** The solver can leave something behind for this request text that is answered. */
  ghost predicate Solvable(s: Setup, request: string, x: Solve) {
    Sound(s, request, x) && ReportOf(s, request, x).Some?
  }

  /** While the simulator waits, some step of the loop brings the response closer or reads it. */
  lemma WaitGetsCloser(s: Setup, w: World, x: Solve) returns (step: Step)
    requires Bridge.Inv(w.bridge) && !w.crashed && !w.bridge.sim.Idle? && (s.limit == 0 || w.bridge.next < s.limit)
    requires Solvable(s, Pending(w.bridge), x)
    ensures Enabled(s, w, step) && !step.Local? && !step.Ask? && !step.Crash?
    ensures !step.Finish? ==>
        var t := Next(s, w, step);
        && BridgeRuns.Closer(w.bridge, t.bridge) && t.loop == w.loop && !t.crashed
        && t.bridge.next == w.bridge.next && !t.bridge.sim.Idle? && Pending(t.bridge) == Pending(w.bridge)
  {
    hide Bridge.Inv, Bridge.Enabled, Bridge.Next, BridgeRuns.Closer, Pending, ReportOf, Sound, Bridge.Snapshot;
    var op := BridgeRuns.BusyIsNeverStuck(s.limit, w.bridge);
    BusyDoesNotOpen(s.limit, w.bridge, op);
    if op.ReadResponse? {
      step := Finish;
    } else if op.Solve? {
      step := Answer(x);
      SolvesPending(s.limit, w.bridge, op);
      var text := Reply.TextOf(ReportOf(s, w.bridge.ctl.request, x).value);
      SolveFrame(s.limit, w.bridge, text);
      BridgeRuns.StepsGetCloser(s.limit, w.bridge, Bridge.Solve(text));
    } else {
      step := Work(op);
      WorkFrame(s.limit, w.bridge, op);
      BridgeRuns.StepsGetCloser(s.limit, w.bridge, op);
    }
  }

  lemma BusyDoesNotOpen(limit: nat, b: Bridge.State, op: Bridge.Step)
    requires Bridge.Enabled(limit, b, op) && !b.sim.Idle?
    ensures !op.OpenRequest?
  {
  }

  lemma SolvesPending(limit: nat, b: Bridge.State, op: Bridge.Step)
    requires Bridge.Inv(b) && Bridge.Enabled(limit, b, op) && op.Solve? && !b.sim.Idle?
    ensures b.ctl.Solving? && b.ctl.pending != [] && b.ctl.request == Pending(b)
  {
    hide Bridge.RequestsOk, Bridge.ResponsesOk, Bridge.AnswersOk;
    SolvingWaits(b);
  }

  lemma SolveFrame(limit: nat, b: Bridge.State, text: string)
    requires Bridge.Inv(b) && b.ctl.Solving? && b.ctl.pending != []
    ensures Bridge.Enabled(limit, b, Bridge.Solve(text))
    ensures var t := Bridge.Next(limit, b, Bridge.Solve(text)); SameTexts(b, t) && t != b
  {
    hide Bridge.RequestsOk, Bridge.ResponsesOk, Bridge.AnswersOk;
  }

  /**
    From every world in which the controller has not ended, if the next request, should there be one, can be solved
    and answered, some run of the two processes works off the next event of the simulator.
   */
  lemma EventCanFinish(s: Setup, w: World, x: Solve) returns (path: seq<Step>, t: World, r: ControlLoop.Response)
    requires s.Ok() && Inv(s, w) && !w.crashed && w.bridge.sim.Idle?
    requires Asks(s.cfg, w.loop) ==> Solvable(s, s.render(NextRequest(s.cfg, w.loop)), x)
    requires Asks(s.cfg, w.loop) ==> s.limit == 0 || w.bridge.next < s.limit
    ensures Walks(s, w, path, t) && t.bridge.sim.Idle? && !t.crashed && t.loop == ControlLoop.Next(s.cfg, w.loop, r)
  {
    hide Inv, ControlLoop.Next, Asks, NextRequest, Solvable, Bridge.Next;
    if Asks(s.cfg, w.loop) {
      AskOpens(s, w);
      StepKeepsInv(s, w, Ask);
      var rest;
      rest, t, r := CommandCanFinish(s, Next(s, w, Ask), x);
      path := [Ask] + rest;
      assert path[1..] == rest;
    } else {
      path, r := [Local], ControlLoop.Response(false, None);
      t := Next(s, w, Local);
      assert path[1..] == [] && Walks(s, t, [], t);
    }
  }

  lemma AskOpens(s: Setup, w: World)
    requires Enabled(s, w, Ask)
    ensures var t := Next(s, w, Ask);
      && !t.bridge.sim.Idle? && t.bridge.next == w.bridge.next && t.loop == w.loop && t.crashed == w.crashed
      && Pending(t.bridge) == s.render(NextRequest(s.cfg, w.loop))
  {
    hide Asks, NextRequest;
  }

  lemma {:induction false} CommandCanFinish(s: Setup, w: World, x: Solve)
    returns (path: seq<Step>, t: World, r: ControlLoop.Response)
    requires s.Ok() && Inv(s, w) && !w.crashed && !w.bridge.sim.Idle? && (s.limit == 0 || w.bridge.next < s.limit)
    requires Solvable(s, Pending(w.bridge), x)
    ensures Walks(s, w, path, t) && t.bridge.sim.Idle? && !t.crashed && t.loop == ControlLoop.Next(s.cfg, w.loop, r)
    decreases BridgeRuns.SimulatorStages(w.bridge) + BridgeRuns.ControllerStages(w.bridge), BridgeRuns.Unwritten(w.bridge)
  {
    hide Inv, Enabled, Next, Solvable, Pending, Bridge.Inv, BridgeRuns.SimulatorStages, BridgeRuns.ControllerStages,
        BridgeRuns.Unwritten, ControlLoop.Next, SameTexts;
    BridgeIsOk(s, w);
    var step := WaitGetsCloser(s, w, x);
    var v := Next(s, w, step);
    StepKeepsInv(s, w, step);
    if step.Finish? {
      r := FinishReads(s, w);
      path, t := [Finish], v;
      assert path[1..] == [] && Walks(s, t, [], t);
    } else {
      var rest;
      rest, t, r := CommandCanFinish(s, v, x);
      path := [step] + rest;
      assert path[1..] == rest;
    }
  }

  lemma BridgeIsOk(s: Setup, w: World)
    requires Inv(s, w)
    ensures Bridge.Inv(w.bridge)
  {
  }

  lemma FinishReads(s: Setup, w: World) returns (r: ControlLoop.Response)
    requires Enabled(s, w, Finish)
    ensures var t := Next(s, w, Finish);
      t.bridge.sim.Idle? && t.crashed == w.crashed && t.loop == ControlLoop.Next(s.cfg, w.loop, r)
  {
    hide ControlLoop.Next, Reply.Read;
    r := Reply.Read(s.codec, w.bridge.responses[Bridge.Name(w.bridge.next)]);
  }
}
