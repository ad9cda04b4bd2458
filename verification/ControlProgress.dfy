/** The periodic control loop goes on: how many control steps have run, and how many commands were requested, by any time. */
module ControlProgress {
  import opened Prelude
  import opened ControlLoop

  /** When the first control step is due. */
  function FirstStep(cfg: Config): int {
    cfg.evalStart + cfg.period + OFFSET
  }

  /** When the control step after `n` others is due. */
  function StepTime(cfg: Config, n: nat): int {
    if n == 0 then FirstStep(cfg) else StepTime(cfg, n - 1) + cfg.period
  }

  /** The next step is due after as many periods as steps have run, and is pending unless it would be after the evaluation. */
  ghost predicate Pending(cfg: Config, w: World) {
    var next := StepTime(cfg, w.ran);
    && (w.bridge.Some? ==> w.bridge.value.time == next && (w.ran > 0 ==> next <= cfg.evalEnd + TICK))
    && (w.bridge.None? ==> next > cfg.evalEnd + TICK)
  }

  /** Events are never overdue, and the steps run are in the past. */
  ghost predicate OnTime(cfg: Config, w: World) {
    && w.now <= w.sampler.time && (w.bridge.Some? ==> w.now <= w.bridge.value.time)
    && SampleTime(cfg.period, w.taken) <= w.now
    && (w.ran > 0 ==> StepTime(cfg, w.ran - 1) <= w.now && StepTime(cfg, w.ran - 1) <= cfg.evalEnd + TICK)
  }

  lemma NextKeepsPace(cfg: Config, w: World, r: Response)
    requires cfg.Ok() && Pending(cfg, w) && OnTime(cfg, w) && SamplerOk(cfg, w)
    ensures Pending(cfg, Next(cfg, w, r)) && OnTime(cfg, Next(cfg, w, r))
  {
    hide Applied, Pushes;
  }

  lemma {:induction false} RunKeepsPace(cfg: Config, responses: seq<Response>)
    requires cfg.Ok()
    ensures Pending(cfg, Run(cfg, responses)) && OnTime(cfg, Run(cfg, responses))
  {
    hide Pending, OnTime, Next, Aligned, Consecutive, HistoryOk, RequestsOk;
    if responses == [] {
      InitialPace(cfg);
    } else {
      EveryRunKeepsInv(cfg, responses[..|responses| - 1]);
      RunKeepsPace(cfg, responses[..|responses| - 1]);
      NextKeepsPace(cfg, Run(cfg, responses[..|responses| - 1]), responses[|responses| - 1]);
    }
  }

  lemma InitialPace(cfg: Config)
    requires cfg.Ok()
    ensures Pending(cfg, Initial(cfg)) && OnTime(cfg, Initial(cfg))
  {
  }

  // ----- Step times as numbers -----

  lemma {:induction false} StepTimeIs(cfg: Config, n: nat)
    ensures StepTime(cfg, n) == FirstStep(cfg) + n * cfg.period
  {
    if n > 0 {
      StepTimeIs(cfg, n - 1);
      OneMore(n, cfg.period);
    }
  }

  lemma {:induction false} SampleTimeIs(period: int, n: nat)
    ensures SampleTime(period, n) == n * period
  {
    if n > 0 {
      SampleTimeIs(period, n - 1);
      OneMore(n, period);
    }
  }

  lemma OneMore(n: int, period: int)
    ensures n * period == (n - 1) * period + period
  {
  }

  lemma QuotientIs(d: int, period: int, n: int)
    requires 0 < period && n * period <= d < n * period + period
    ensures d / period == n
  {
    var q, r := d / period, d % period;
    assert d == q * period + r;
    OneMore(q + 1, period);
    OneMore(n + 1, period);
    if q < n {
      Ordered(q + 1, n, period);
    }
    if q > n {
      Ordered(n + 1, q, period);
    }
  }

  lemma Ordered(a: int, b: int, period: int)
    requires 0 < period && a <= b
    ensures a * period <= b * period
  {
  }

  // ----- How far the loop has come -----

  /** Everything due up to `t` has happened, and nothing after it. */
  ghost predicate At(w: World, t: int) {
    w.now <= t < w.sampler.time && (w.bridge.Some? ==> t < w.bridge.value.time)
  }

  /**
    At any time of the evaluation one control step has run per period since the first was due; each pushed a sample,
    and each after the history was full requested a command.
   */
  lemma StepsByTime(cfg: Config, responses: seq<Response>, t: int)
    requires cfg.Ok() && At(Run(cfg, responses), t) && FirstStep(cfg) <= t <= cfg.evalEnd + TICK
    ensures var w, n := Run(cfg, responses), (t - FirstStep(cfg)) / cfg.period + 1;
      && w.ran == n && |w.pushes| == n
      && |w.requests| == if n < cfg.tini then 0 else n - cfg.tini + 1
  {
    hide Run;
    var w := Run(cfg, responses);
    RunKeepsPace(cfg, responses);
    EveryRunKeepsInv(cfg, responses);
    assert StepTime(cfg, w.ran) > t;
    assert w.ran > 0 && StepTime(cfg, w.ran - 1) <= t;
    StepTimeIs(cfg, w.ran);
    StepTimeIs(cfg, w.ran - 1);
    OneMore(w.ran, cfg.period);
    QuotientIs(t - FirstStep(cfg), cfg.period, w.ran - 1);
  }

  /** One sample has been taken per period since the start. */
  lemma SamplesByTime(cfg: Config, responses: seq<Response>, t: int)
    requires cfg.Ok() && At(Run(cfg, responses), t)
    ensures Run(cfg, responses).taken == t / cfg.period
  {
    hide Run;
    var w := Run(cfg, responses);
    RunKeepsPace(cfg, responses);
    EveryRunKeepsInv(cfg, responses);
    SampleTimeIs(cfg.period, w.taken);
    SampleTimeIs(cfg.period, w.taken + 1);
    OneMore(w.taken + 1, cfg.period);
    QuotientIs(t, cfg.period, w.taken);
  }

  /** Before the first step is due, and if the evaluation ends before that, nothing is requested. */
  lemma NothingBefore(cfg: Config, responses: seq<Response>, t: int)
    requires cfg.Ok() && At(Run(cfg, responses), t) && (t < FirstStep(cfg) || cfg.evalEnd + TICK < FirstStep(cfg))
    ensures Run(cfg, responses).ran == 0 && Run(cfg, responses).requests == []
  {
    hide Run;
    var w := Run(cfg, responses);
    RunKeepsPace(cfg, responses);
    EveryRunKeepsInv(cfg, responses);
    if w.ran > 0 {
      StepTimeIs(cfg, w.ran - 1);
      Ordered(0, w.ran - 1, cfg.period);
    }
  }

  ghost function Left(time: int, t: int): nat {
    if time <= t then t - time + 1 else 0
  }

  ghost function Distance(w: World, t: int): nat {
    Left(w.sampler.time, t) + if w.bridge.Some? then Left(w.bridge.value.time, t) + 1 else 0
  }

  lemma NextIsCloser(cfg: Config, w: World, r: Response, t: int)
    requires cfg.Ok() && w.now <= t && !At(w, t) && OnTime(cfg, w)
    ensures Distance(Next(cfg, w, r), t) < Distance(w, t) && Next(cfg, w, r).now <= t
  {
    hide Applied, Pushes;
  }

  /** Whatever the responses, every time is reached. */
  lemma {:induction false} EveryTimeIsReached(cfg: Config, responses: seq<Response>, stream: nat -> Response, t: int)
    returns (n: nat)
    requires cfg.Ok() && Run(cfg, responses).now <= t && responses == seq(|responses|, i requires 0 <= i => stream(i))
    ensures At(Run(cfg, seq(n, i requires 0 <= i => stream(i))), t)
    decreases Distance(Run(cfg, responses), t)
  {
    hide Next, At, OnTime, Distance;
    var w := Run(cfg, responses);
    if At(w, t) {
      n := |responses|;
    } else {
      var more := responses + [stream(|responses|)];
      assert more[..|responses|] == responses;
      RunKeepsPace(cfg, responses);
      NextIsCloser(cfg, w, stream(|responses|), t);
      n := EveryTimeIsReached(cfg, more, stream, t);
    }
  }
}
