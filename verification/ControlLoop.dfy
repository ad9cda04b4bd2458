/**
  The two periodic loops of the simulator: the logger samples every period,
  and one microsecond after the evaluation start plus a period the bridge
  begins to push the latest sample and request a command. Times are integer
  nanoseconds; events at the same time run in the order they were scheduled.
 */
module ControlLoop {
  import opened Prelude

  /** `tini` is the past horizon; powers may leave [minPower, maxPower] by the tolerance. */
  datatype Config = Config(period: int, evalStart: int, evalEnd: int, tini: nat, minPower: real, maxPower: real,
      initialPower: real) {
    ghost predicate Ok() {
      1 < period && 0 <= evalStart && 0 < tini && minPower <= initialPower <= maxPower
    }

    /** A power that may be applied. */
    predicate InBounds(p: real) {
      minPower - TOLERANCE <= p <= maxPower + TOLERANCE
    }
  }

  const TOLERANCE: real := 0.000000001

  /** One microsecond, and the tolerance of one nanosecond used in comparisons of times. */
  const OFFSET: int := 1000
  const TICK: int := 1

  /** The `index`-th sample of the logger, with the power then in force. */
  datatype Sample = Sample(index: nat, time: int, power: real)

  /** `power` is None where the field is missing or not finite. */
  datatype Response = Response(success: bool, power: Option<real>)

  // ----- The bridge -----

  datatype History = History(samples: seq<Sample>, last: Option<int>) {
    predicate Accepts(x: Sample) {
      last.None? || x.time > last.value + TICK
    }

    function Pushed(tini: nat, x: Sample): History {
      if Accepts(x) then History(Newest(samples + [x], tini), Some(x.time)) else this
    }

    predicate Ready(tini: nat) {
      |samples| == tini
    }
  }

  function Newest<T>(s: seq<T>, n: nat): (r: seq<T>)
    ensures |r| == if |s| < n then |s| else n
  {
    if |s| <= n then s else s[|s| - n..]
  }

  /** The history after any samples have been pushed. */
  function PushedAll(tini: nat, xs: seq<Sample>): History {
    if xs == [] then History([], None) else PushedAll(tini, xs[..|xs| - 1]).Pushed(tini, xs[|xs| - 1])
  }

  ghost predicate Spaced(s: seq<Sample>) {
    forall i, j :: 0 <= i < j < |s| ==> s[i].time + TICK < s[j].time
  }

  ghost predicate NewestAtEnd(h: History) {
    match h.last
    case None => h.samples == []
    case Some(t) => h.samples != [] && h.samples[|h.samples| - 1].time == t
  }

  lemma PushKeepsOrder(tini: nat, h: History, x: Sample)
    requires 0 < tini && Spaced(h.samples) && NewestAtEnd(h) && |h.samples| <= tini
    ensures var h' := h.Pushed(tini, x);
      && Spaced(h'.samples) && NewestAtEnd(h') && |h'.samples| <= tini && h'.last.Some? && x.time <= h'.last.value + TICK
      && (h.last.Some? ==> h.last.value <= h'.last.value)
    ensures h.Accepts(x) ==> h.Pushed(tini, x).samples[|h.Pushed(tini, x).samples| - 1] == x
    ensures forall y :: y in h.Pushed(tini, x).samples ==> y in h.samples || y == x
  {
  }

  /** Whatever samples are pushed, those kept are pushed ones, each later than the last by more than the tolerance. */
  lemma {:induction false} PushesIncrease(tini: nat, xs: seq<Sample>)
    requires 0 < tini
    ensures var h := PushedAll(tini, xs);
      && Spaced(h.samples) && |h.samples| <= tini && NewestAtEnd(h) && (h.last.Some? <==> xs != [])
      && (forall x :: x in h.samples ==> x in xs) && (forall x :: x in xs ==> x.time <= h.last.value + TICK)
  {
    if xs != [] {
      hide Spaced, NewestAtEnd, History.Pushed;
      var init, x := xs[..|xs| - 1], xs[|xs| - 1];
      PushesIncrease(tini, init);
      assert xs == init + [x];
      PushKeepsOrder(tini, PushedAll(tini, init), x);
    }
  }

  /** A sample later than all before it, by more than the tolerance, is taken. */
  lemma LaterIsPushed(tini: nat, xs: seq<Sample>, x: Sample)
    requires 0 < tini && forall y :: y in xs ==> y.time + TICK < x.time
    ensures var s := PushedAll(tini, xs + [x]).samples; s != [] && s[|s| - 1] == x
  {
    hide Spaced, History.Pushed;
    assert (xs + [x])[..|xs + [x]| - 1] == xs;
    var h := PushedAll(tini, xs);
    PushesIncrease(tini, xs);
    if h.last.Some? {
      assert h.samples[|h.samples| - 1] in xs;
    }
    PushKeepsOrder(tini, h, x);
  }

  /** A response is applied only if it reports success and its power is in bounds. */
  function Applied(cfg: Config, previous: real, r: Response): real {
    if r.success && r.power.Some? && cfg.InBounds(r.power.value) then r.power.value else previous
  }

  class DeepcFileBridge {
    const cfg: Config
    var samples: seq<Sample>
    var hasLastSample: bool
    var lastSampleTime: int

    ghost function View(): History
      reads this
    {
      History(samples, if hasLastSample then Some(lastSampleTime) else None)
    }

    constructor (cfg: Config)
      ensures this.cfg == cfg && View() == History([], None)
    {
      this.cfg := cfg;
      samples, hasLastSample, lastSampleTime := [], false, -1;
    }

    method PushSample(x: Sample) returns (pushed: bool)
      modifies this
      ensures pushed == old(View()).Accepts(x)
      ensures View() == old(View()).Pushed(cfg.tini, x)
    {
      if hasLastSample && x.time <= lastSampleTime + TICK {
        return false;
      }
      samples := samples + [x];
      ghost var all := samples;
      while |samples| > cfg.tini
        invariant |samples| <= |all| && samples == all[|all| - |samples|..]
        invariant |samples| >= cfg.tini || samples == all
      {
        samples := samples[1..];
      }
      hasLastSample, lastSampleTime := true, x.time;
      pushed := true;
    }

    method RequestControl(previous: real, r: Response) returns (power: real)
      requires View().Ready(cfg.tini)
      ensures power == Applied(cfg, previous, r)
      ensures cfg.InBounds(previous) ==> cfg.InBounds(power)
    {
      var candidate, hasPower := previous, r.power.Some?;
      if hasPower {
        candidate := r.power.value;
      }
      var success := r.success && hasPower && cfg.InBounds(candidate);
      power := if success then candidate else previous;
    }
  }

  // ----- The event loop -----

  datatype Timer = Timer(time: int, uid: nat) {
    predicate Before(other: Timer) {
      time < other.time || (time == other.time && uid < other.uid)
    }
  }

  /** What was sent to the controller: its number, the history, and the previous command. */
  datatype Request = Request(number: nat, history: seq<Sample>, previous: real)

  /** The last three fields only observe the run: the bridge steps run, the samples pushed and the requests sent. */
  datatype World = World(
    now: int, nextUid: nat, sampler: Timer, bridge: Option<Timer>,
    taken: nat, power: real, latest: Option<Sample>,
    history: History, previous: real, step: nat,
    ran: nat, pushes: seq<Sample>, requests: seq<Request>)

  function Initial(cfg: Config): World {
    World(0, 2, Timer(cfg.period, 0), Some(Timer(cfg.evalStart + cfg.period + OFFSET, 1)),
          0, cfg.initialPower, None, History([], None), cfg.initialPower, 0, 0, [], [])
  }

  /** Run the next event; `r` is the response should that event send a request. */
  function Next(cfg: Config, w: World, r: Response): World {
    if w.bridge.Some? && w.bridge.value.Before(w.sampler) then BridgeStep(cfg, w.(now := w.bridge.value.time), r)
    else SampleStep(cfg, w.(now := w.sampler.time))
  }

  function SampleStep(cfg: Config, w: World): World {
    w.(latest := Some(Sample(w.taken + 1, w.now, w.power)), taken := w.taken + 1,
        sampler := Timer(w.now + cfg.period, w.nextUid), nextUid := w.nextUid + 1)
  }

  function BridgeStep(cfg: Config, w: World, r: Response): World {
    if w.now > cfg.evalEnd + TICK then w.(bridge := None)
    else Rescheduled(cfg, Controlled(cfg, w, r))
  }

  predicate Pushes(cfg: Config, w: World) {
    && w.latest.Some?
    && w.latest.value.time + TICK >= cfg.evalStart && w.latest.value.time <= cfg.evalEnd + TICK
    && w.history.Accepts(w.latest.value)
  }

  function Controlled(cfg: Config, w: World, r: Response): World {
    if Pushes(cfg, w) then
      var h := w.history.Pushed(cfg.tini, w.latest.value);
      var pushed := w.(ran := w.ran + 1, history := h, pushes := w.pushes + [w.latest.value]);
      if h.Ready(cfg.tini) then
        var p := Applied(cfg, w.previous, r);
        pushed.(previous := p, power := p, step := w.step + 1, requests := w.requests
            + [Request(w.step, h.samples, w.previous)])
      else pushed
    else w.(ran := w.ran + 1)
  }

  function Rescheduled(cfg: Config, w: World): World {
    if w.now + cfg.period <= cfg.evalEnd + TICK
    then w.(bridge := Some(Timer(w.now + cfg.period, w.nextUid)), nextUid := w.nextUid + 1)
    else w.(bridge := None)
  }

  function Run(cfg: Config, responses: seq<Response>): World {
    if responses == [] then Initial(cfg)
    else Next(cfg, Run(cfg, responses[..|responses| - 1]), responses[|responses| - 1])
  }

  // ----- The invariant -----

  /** The time of the n-th sample. */
  ghost function SampleTime(period: int, n: nat): int {
    if n == 0 then 0 else SampleTime(period, n - 1) + period
  }

  /** The sample to push is still to be taken. */
  ghost predicate Early(w: World, b: Timer) {
    w.sampler.time < b.time
  }

  /** The sample to push is the latest one, taken since the last command. */
  ghost predicate Due(cfg: Config, w: World, b: Timer) {
    && w.sampler.time - cfg.period < b.time <= w.sampler.time && b.uid < w.sampler.uid
    && w.latest == Some(Sample(w.taken, w.sampler.time - cfg.period, w.previous))
  }

  /** The pending bridge step will push the first sample since it could begin, or the one after the last pushed. */
  ghost predicate Aligned(cfg: Config, w: World, b: Timer) {
    && b.uid < w.nextUid
    && (Early(w, b) || Due(cfg, w, b))
    && if w.pushes == [] then b.time == cfg.evalStart + cfg.period + OFFSET
       else
         var last := w.pushes[|w.pushes| - 1];
         && cfg.evalStart + cfg.period + OFFSET <= b.time - cfg.period <= last.time + cfg.period < b.time
         && w.taken == last.index + (if Early(w, b) then 0 else 1)
         && w.sampler.time == last.time + (if Early(w, b) then cfg.period else 2 * cfg.period)
  }

  ghost predicate SamplerOk(cfg: Config, w: World) {
    w.sampler.uid < w.nextUid && w.sampler.time == SampleTime(cfg.period, w.taken + 1)
  }

  ghost predicate Consecutive(cfg: Config, pushes: seq<Sample>) {
    && (pushes != [] ==> cfg.evalStart + OFFSET <= pushes[0].time < cfg.evalStart + OFFSET + cfg.period)
    && (forall i :: 0 <= i < |pushes| ==> pushes[i].time == SampleTime(cfg.period, pushes[i].index))
    && (forall i :: 0 < i < |pushes| ==> pushes[i].index == pushes[i - 1].index + 1)
  }

  ghost predicate HistoryOk(cfg: Config, h: History, pushes: seq<Sample>) {
    && h.samples == Newest(pushes, cfg.tini)
    && h.last == if pushes == [] then None else Some(pushes[|pushes| - 1].time)
  }

  ghost predicate RequestsOk(cfg: Config, requests: seq<Request>, step: nat, pushes: seq<Sample>) {
    && |requests| == step == (if |pushes| < cfg.tini then 0 else |pushes| - cfg.tini + 1)
    && forall k :: 0 <= k < |requests| ==> RequestOk(cfg, requests[k], k, pushes)
  }

  ghost predicate RequestOk(cfg: Config, r: Request, k: nat, pushes: seq<Sample>) {
    && r.number == k && 0 < cfg.tini && k + cfg.tini <= |pushes|
    && r.history == pushes[k..k + cfg.tini] && r.history[cfg.tini - 1].power == r.previous
  }

  ghost predicate Inv(cfg: Config, w: World) {
    && SamplerOk(cfg, w)
    && (w.bridge.Some? ==> Aligned(cfg, w, w.bridge.value))
    && w.ran == |w.pushes|
    && w.power == w.previous && cfg.InBounds(w.previous)
    && Consecutive(cfg, w.pushes)
    && HistoryOk(cfg, w.history, w.pushes)
    && RequestsOk(cfg, w.requests, w.step, w.pushes)
  }

  lemma InitialInv(cfg: Config)
    requires cfg.Ok()
    ensures Inv(cfg, Initial(cfg))
  {
    assert SampleTime(cfg.period, 1) == cfg.period;
  }

  lemma SampleKeepsInv(cfg: Config, w: World)
    requires cfg.Ok() && Inv(cfg, w) && !(w.bridge.Some? && w.bridge.value.Before(w.sampler))
    ensures Inv(cfg, SampleStep(cfg, w.(now := w.sampler.time)))
  {
    hide RequestsOk, Consecutive, HistoryOk;
  }

  // ----- A bridge step -----

  lemma PushKeepsConsecutive(cfg: Config, pushes: seq<Sample>, x: Sample)
    requires cfg.Ok() && Consecutive(cfg, pushes) && x.time == SampleTime(cfg.period, x.index)
    requires if pushes == [] then cfg.evalStart + OFFSET <= x.time < cfg.evalStart + OFFSET + cfg.period
             else x.index == pushes[|pushes| - 1].index + 1
    ensures Consecutive(cfg, pushes + [x])
  {
  }

  lemma PushKeepsHistory(cfg: Config, h: History, pushes: seq<Sample>, x: Sample)
    requires cfg.Ok() && HistoryOk(cfg, h, pushes) && h.Accepts(x)
    ensures HistoryOk(cfg, h.Pushed(cfg.tini, x), pushes + [x])
    ensures h.Pushed(cfg.tini, x).Ready(cfg.tini) <==> |pushes| + 1 >= cfg.tini
  {
  }

  lemma {:induction false} RequestsStay(cfg: Config, r: Request, k: nat, pushes: seq<Sample>, x: Sample)
    requires RequestOk(cfg, r, k, pushes)
    ensures RequestOk(cfg, r, k, pushes + [x])
  {
    assert (pushes + [x])[k..k + cfg.tini] == pushes[k..k + cfg.tini];
  }

  /** Every bridge step that runs finds exactly one new sample to push. */
  lemma AlignedPushes(cfg: Config, w: World, b: Timer)
    requires cfg.Ok() && Inv(cfg, w) && w.bridge == Some(b) && b.Before(w.sampler) && b.time <= cfg.evalEnd + TICK
    ensures Due(cfg, w, b) && Pushes(cfg, w)
  {
    hide RequestsOk, Consecutive;
  }

  lemma RequestIsAdded(cfg: Config, requests: seq<Request>, step: nat, pushes: seq<Sample>, x: Sample, previous: real)
    requires cfg.Ok() && RequestsOk(cfg, requests, step, pushes) && x.power == previous
    ensures var now, h := pushes + [x], Newest(pushes + [x], cfg.tini);
      if |now| >= cfg.tini then RequestsOk(cfg, requests + [Request(step, h, previous)], step + 1, now)
      else RequestsOk(cfg, requests, step, now)
  {
    var now := pushes + [x];
    forall k | 0 <= k < |requests| ensures RequestOk(cfg, requests[k], k, now) {
      hide RequestOk;
      RequestsStay(cfg, requests[k], k, pushes, x);
    }
    if |now| >= cfg.tini {
      assert now[step..step + cfg.tini] == Newest(now, cfg.tini);
      assert RequestOk(cfg, Request(step, Newest(now, cfg.tini), previous), step, now);
    }
  }

  /** Pushing the sample that is due, and requesting a command once the history is full. */
  lemma ControlledKeepsLogs(cfg: Config, w: World, b: Timer, r: Response)
    requires cfg.Ok() && Inv(cfg, w) && w.bridge == Some(b) && Due(cfg, w, b) && Pushes(cfg, w)
    requires w.pushes == [] ==> cfg.evalStart + OFFSET <= w.latest.value.time < cfg.evalStart + OFFSET + cfg.period
    ensures var c, x := Controlled(cfg, w, r), w.latest.value;
      && c.ran == w.ran + 1 && c.pushes == w.pushes + [x]
      && c == w.(ran := c.ran, pushes := c.pushes, history := c.history, previous := c.previous, power := c.power,
          step := c.step, requests := c.requests)
      && c.power == c.previous && cfg.InBounds(c.previous)
      && Consecutive(cfg, c.pushes) && HistoryOk(cfg, c.history, c.pushes) && RequestsOk(cfg, c.requests, c.step, c.pushes)
  {
    hide RequestsOk, Consecutive, HistoryOk;
    var x := w.latest.value;
    PushKeepsConsecutive(cfg, w.pushes, x) by {
      DueIsNext(cfg, w, b);
    }
    PushKeepsHistory(cfg, w.history, w.pushes, x);
    PushedIsNewest(cfg, w.history, w.pushes, x);
    RequestIsAdded(cfg, w.requests, w.step, w.pushes, x, w.previous);
  }

  lemma PushedIsNewest(cfg: Config, h: History, pushes: seq<Sample>, x: Sample)
    requires HistoryOk(cfg, h.Pushed(cfg.tini, x), pushes + [x])
    ensures h.Pushed(cfg.tini, x).samples == Newest(pushes + [x], cfg.tini)
  {
  }

  lemma DueIsNext(cfg: Config, w: World, b: Timer)
    requires cfg.Ok() && SamplerOk(cfg, w) && w.bridge == Some(b) && Aligned(cfg, w, b) && Due(cfg, w, b)
    ensures w.latest.value.time == SampleTime(cfg.period, w.latest.value.index)
    ensures w.pushes != [] ==> w.latest.value.index == w.pushes[|w.pushes| - 1].index + 1
    ensures w.pushes == [] ==> cfg.evalStart + OFFSET <= w.latest.value.time < cfg.evalStart + OFFSET + cfg.period
  {
  }

  /** The next bridge step comes one period later, with exactly one sample in between. */
  lemma RescheduledIsAligned(cfg: Config, w: World, c: World, b: Timer)
    requires cfg.Ok() && SamplerOk(cfg, w) && Aligned(cfg, w, b) && Due(cfg, w, b)
    requires c.pushes == w.pushes + [w.latest.value] && c.now == b.time
    requires c.sampler == w.sampler && c.taken == w.taken && c.nextUid == w.nextUid
    ensures SamplerOk(cfg, Rescheduled(cfg, c))
    ensures var next := Rescheduled(cfg, c); next.bridge.Some? ==> Aligned(cfg, next, next.bridge.value)
  {
    var next := Rescheduled(cfg, c);
    if next.bridge.Some? {
      assert Early(next, next.bridge.value);
      assert next.pushes[|next.pushes| - 1] == w.latest.value;
    }
  }

  lemma NowDoesNotMatter(cfg: Config, w: World, b: Timer)
    requires cfg.Ok() && Inv(cfg, w) && w.bridge == Some(b)
    ensures Inv(cfg, w.(now := b.time)) && Aligned(cfg, w.(now := b.time), b)
    ensures SamplerOk(cfg, w.(now := b.time, bridge := None))
  {
  }

  lemma BridgeKeepsInv(cfg: Config, w: World, r: Response)
    requires cfg.Ok() && Inv(cfg, w) && w.bridge.Some? && w.bridge.value.Before(w.sampler)
    ensures Inv(cfg, BridgeStep(cfg, w.(now := w.bridge.value.time), r))
  {
    hide Controlled, Pushes, Aligned, SamplerOk, RequestsOk, Consecutive, HistoryOk, Due;
    var b := w.bridge.value;
    var w' := w.(now := b.time);
    NowDoesNotMatter(cfg, w, b);
    if b.time <= cfg.evalEnd + TICK {
      AlignedPushes(cfg, w', b);
      DueIsNext(cfg, w', b);
      ControlledKeepsLogs(cfg, w', b, r);
      RescheduledIsAligned(cfg, w', Controlled(cfg, w', r), b);
    }
  }

  // ----- What every run guarantees -----

  lemma {:induction false} EveryRunKeepsInv(cfg: Config, responses: seq<Response>)
    requires cfg.Ok()
    ensures Inv(cfg, Run(cfg, responses))
  {
    hide Inv, BridgeStep, SampleStep;
    if responses == [] {
      InitialInv(cfg);
    } else {
      EveryRunKeepsInv(cfg, responses[..|responses| - 1]);
      var w, r := Run(cfg, responses[..|responses| - 1]), responses[|responses| - 1];
      if w.bridge.Some? && w.bridge.value.Before(w.sampler) {
        BridgeKeepsInv(cfg, w, r);
      } else {
        SampleKeepsInv(cfg, w);
      }
    }
  }

  /** Every bridge step pushes exactly one sample, none is skipped or repeated, and the history is the last few. */
  lemma SamplesArePushedInOrder(cfg: Config, responses: seq<Response>)
    requires cfg.Ok()
    ensures var w := Run(cfg, responses);
      && |w.pushes| == w.ran
      && (forall i :: 0 <= i < |w.pushes| ==> w.pushes[i].index == w.pushes[0].index + i
                                              && w.pushes[i].time == SampleTime(cfg.period, w.pushes[i].index))
      && (w.pushes != [] ==> cfg.evalStart + OFFSET <= w.pushes[0].time < cfg.evalStart + OFFSET + cfg.period)
      && w.history.samples == Newest(w.pushes, cfg.tini)
  {
    hide Run;
    EveryRunKeepsInv(cfg, responses);
    var w := Run(cfg, responses);
    forall i | 0 <= i < |w.pushes| ensures w.pushes[i].index == w.pushes[0].index + i {
      IndexFromFirst(cfg, w.pushes, i);
    }
  }

  lemma {:induction false} IndexFromFirst(cfg: Config, pushes: seq<Sample>, i: nat)
    requires Consecutive(cfg, pushes) && i < |pushes|
    ensures pushes[i].index == pushes[0].index + i
  {
    if i > 0 {
      IndexFromFirst(cfg, pushes, i - 1);
    }
  }

  /** Requests are numbered 0, 1, 2, …; each carries a full history whose last power is the previous command. */
  lemma RequestsAreGapless(cfg: Config, responses: seq<Response>, k: nat)
    requires cfg.Ok() && k < |Run(cfg, responses).requests|
    ensures var w := Run(cfg, responses); var r := w.requests[k];
      && |w.requests| == (if w.ran < cfg.tini then 0 else w.ran - cfg.tini + 1)
      && r.number == k && k + cfg.tini <= |w.pushes| && r.history == w.pushes[k..k + cfg.tini]
      && r.history[cfg.tini - 1].power == r.previous
  {
    hide Run;
    EveryRunKeepsInv(cfg, responses);
    assert RequestOk(cfg, Run(cfg, responses).requests[k], k, Run(cfg, responses).pushes);
  }

  /** Whatever the controller answers, the power in force stays in bounds. */
  lemma PowerStaysInBounds(cfg: Config, responses: seq<Response>)
    requires cfg.Ok()
    ensures cfg.minPower - 0.000000001 <= Run(cfg, responses).power <= cfg.maxPower + 0.000000001
  {
    hide Run;
    EveryRunKeepsInv(cfg, responses);
  }

  /**
    The power changes only with a request, and then to the one answered, if the answer is a success and holds a power
    within a billionth of the bounds.
   */
  lemma PowerFollowsResponses(cfg: Config, responses: seq<Response>, r: Response)
    requires cfg.Ok()
    ensures var w, w' := Run(cfg, responses), Run(cfg, responses + [r]);
      && |w.requests| <= |w'.requests| <= |w.requests| + 1
      && w'.power ==
           if |w'.requests| > |w.requests| && r.success && r.power.Some?
             && cfg.minPower - 0.000000001 <= r.power.value <= cfg.maxPower + 0.000000001
           then r.power.value else w.power
  {
    assert (responses + [r])[..|responses + [r]| - 1] == responses;
    hide SampleTime, History.Pushed, Inv;
    EveryRunKeepsInv(cfg, responses);
    CommandIsPower(cfg, Run(cfg, responses));
  }

  lemma CommandIsPower(cfg: Config, w: World)
    requires Inv(cfg, w)
    ensures w.power == w.previous
  {
  }
}
