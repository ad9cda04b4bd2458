/**
  The whole run as one state machine: radios lent and taken back by the
  schedule, applications started and stopped, messages sent and received,
  and samples taken, interleaved in any way that respects time.
 */
module KpiRun {
  import opened Prelude
  import opened Mobility
  import opened CamApp
  import opened Pool
  import opened Schedule
  import opened Agenda
  import opened PoolRoom
  import opened KpiLog
  import opened KpiRefinement

  /**
    The last six fields only observe the run: the unbounded history, the
    cutoff of the last pruning, the radio each vehicle was ever given, the
    triples accepted and the receptions logged so far, and the samples written.
   */
  datatype World = World(now: int, queue: seq<Event>, pool: PoolView, log: Log,
                         hist: History, cutoff: int, home: map<Vehicle, Node>,
                         accepted: seq<Triple>, heard: seq<RxEvent>, samples: seq<Sample>)

  /**
    `PoolEvent` is the head of the event queue. A transmission carries the
    vehicles found in range; a reception is any packet whatsoever: the key
    in its tag, the radio it came from, and the position of the receiver.
   */
  datatype Step =
    | PoolEvent
    | Lifecycle(time: int, node: Node, change: AppStep)
    | Transmit(time: int, node: Node, pos: Vec, eligible: set<Vehicle>)
    | Receive(time: int, node: Node, source: Node, key: TxKey, pos: Vec)
    | TakeSample(time: int)

  // ----- Steps -----

  function InstallAll(p: PoolView, nodes: seq<Node>): PoolView {
    if nodes == [] then p else InstallApp(InstallAll(p, nodes[..|nodes| - 1]), nodes[|nodes| - 1])
  }

  /** Initial assignment, then one application per radio, then the schedule. */
  ghost function Start(cfg: Config, s: Setup, queue: seq<Event>): Result<World, Abort>
    requires s.Ok()
  {
    match AssignInitial(s, |s.ids|)
    case Err(e) => Err(e)
    case Ok(p) => Ok(World(0, queue, InstallAll(p, s.nodes), Log([], [], {}, map[]),
                           History([], []), -cfg.window, p.vehicleToNode, [], [], []))
  }

  ghost predicate Enabled(w: World, step: Step) {
    match step
    case PoolEvent => w.queue != []
    case Lifecycle(t, _, change) => change != Tag && w.now <= t && (w.queue == [] || t <= w.queue[0].time)
    case _ => w.now <= step.time && (w.queue == [] || step.time <= w.queue[0].time)
  }

  ghost function Next(cfg: Config, s: Setup, w: World, step: Step): Result<World, Abort>
    requires Enabled(w, step)
  {
    match step
    case PoolEvent => FireNext(s, w)
    case Lifecycle(t, n, change) => Ok(w.(now := t, pool := StepApp(w.pool, n, change)))
    case Transmit(t, n, pos, eligible) => Ok(TransmitNow(cfg, w.(now := t), n, pos, eligible))
    case Receive(t, n, source, key, pos) => Ok(ReceiveNow(cfg, w.(now := t), n, source, key, pos))
    case TakeSample(t) => Ok(SampleNow(cfg, w.(now := t)))
  }

  ghost function FireNext(s: Setup, w: World): Result<World, Abort>
    requires w.queue != []
  {
    var e := w.queue[0];
    match Fire(s.tracks, w.pool, e)
    case Err(a) => Err(a)
    case Ok(p) =>
      var home :=
        if e.AssignAt? && e.vehicle in p.vehicleToNode then w.home[e.vehicle := p.vehicleToNode[e.vehicle]]
        else w.home;
      Ok(w.(now := e.time, queue := w.queue[1..], pool := p, home := home))
  }

  /** The application tags the message with its next number; the logger records it if it is admitted. */
  ghost function TransmitNow(cfg: Config, w: World, n: Node, pos: Vec, eligible: set<Vehicle>): World {
    if n in w.pool.apps && w.pool.apps[n].Tags() then
      var app := w.pool.apps[n];
      var tagged := w.(pool := StepApp(w.pool, n, Tag));
      if TxAdmitted(cfg, w.pool.nodeToVehicle, w.now, app.vehicle.value, n, pos)
      then Sent(cfg, tagged, TxKey(app.vehicle.value, app.nextSequence), eligible)
      else tagged
    else w
  }

  ghost function Sent(cfg: Config, w: World, key: TxKey, eligible: set<Vehicle>): World {
    w.(log := RecordTx(cfg, w.log, w.now, key, eligible),
       hist := Sends(w.hist, w.now, key, eligible),
       cutoff := w.now - cfg.window)
  }

  /** A packet counts if its source radio still carries the tagged vehicle and the logger admits it. */
  ghost function ReceiveNow(cfg: Config, w: World, n: Node, source: Node, key: TxKey, pos: Vec): World {
    var p := w.pool;
    if && n in p.apps && p.apps[n].vehicle.Some?
       && Maps(p.nodeToVehicle, source, key.vehicle)
       && RxAdmitted(cfg, p.nodeToVehicle, p.vehicleToNode, w.now, key.vehicle, p.apps[n].vehicle.value)
       && InsideCore(cfg, pos)
    then Heard(cfg, w, key, p.apps[n].vehicle.value)
    else w
  }

  ghost function Heard(cfg: Config, w: World, key: TxKey, receiver: Vehicle): World {
    var accepts := Accepts(w.log, key, receiver);
    w.(log := RecordRx(cfg, w.log, w.now, key, receiver),
       hist := Receives(w.hist, w.now, key, receiver),
       cutoff := if accepts then w.now - cfg.window else w.cutoff,
       accepted := if accepts then w.accepted + [Triple(key, receiver)] else w.accepted,
       heard := if accepts then w.heard + [Added(w.log, w.now, key, receiver).rx[|w.log.rx|]] else w.heard)
  }

  ghost function SampleNow(cfg: Config, w: World): World {
    var log := Prune(w.log, w.now - cfg.window);
    w.(log := log, cutoff := w.now - cfg.window, samples := w.samples + [SampleOf(log, w.now)])
  }

  /** The world after a sequence of enabled steps, or the reason why the simulator stopped. */
  ghost predicate Reaches(cfg: Config, s: Setup, queue: seq<Event>, steps: seq<Step>, w: World)
    requires s.Ok()
    decreases |steps|, 0
  {
    if steps == [] then Start(cfg, s, queue) == Ok(w)
    else ReachesBy(cfg, s, queue, steps[..|steps| - 1], steps[|steps| - 1], w)
  }

  ghost predicate ReachesBy(cfg: Config, s: Setup, queue: seq<Event>, steps: seq<Step>, last: Step, w: World)
    requires s.Ok()
    decreases |steps|, 1
  {
    exists before :: Reaches(cfg, s, queue, steps, before) && Leads(cfg, s, before, last, w)
  }

  ghost predicate Leads(cfg: Config, s: Setup, before: World, step: Step, w: World) {
    Enabled(before, step) && Next(cfg, s, before, step) == Ok(w)
  }

  // ----- The invariant -----

  /** `home` remembers every vehicle's radio, and a vehicle that has one is never assigned again. */
  ghost predicate HomeOk(queue: seq<Event>, vn: map<Vehicle, Node>, home: map<Vehicle, Node>) {
    && (forall v :: v in vn ==> Maps(home, v, vn[v]))
    && (forall e :: e in queue && e.AssignAt? ==> e.vehicle !in home)
  }

  /** Every number used by a vehicle is below the counter of its radio's application. */
  ghost predicate KeysCounted(sent: seq<TxEvent>, apps: map<Node, App>, home: map<Vehicle, Node>) {
    forall e :: e in sent ==> Counted(e.key, apps, home)
  }

  ghost predicate Counted(key: TxKey, apps: map<Node, App>, home: map<Vehicle, Node>) {
    key.vehicle in home && home[key.vehicle] in apps && key.seqNo < apps[home[key.vehicle]].nextSequence
  }

  ghost predicate Scheduling(s: Setup, now: int, queue: seq<Event>, pool: PoolView, home: map<Vehicle, Node>)
    requires s.Ok()
  {
    && PoolInv(s.tracks, ToSet(s.nodes), pool)
    && AgendaInv(s, now, queue, pool.active)
    && HomeOk(queue, pool.vehicleToNode, home)
  }

  ghost predicate Logging(cfg: Config, now: int, log: Log, hist: History, cutoff: int) {
    HistoryOk(hist, now) && Refines(log, hist, cutoff) && cutoff <= now - cfg.window
  }

  /** No triple was accepted twice, and every sample has its counts in order. */
  ghost predicate Observed(first: seq<Reception>, accepted: seq<Triple>, samples: seq<Sample>) {
    && NoDup(accepted)
    && (forall k, r :: Triple(k, r) in accepted ==> Seen(first, k, r))
    && (forall x :: x in samples ==> x.successCount <= x.eligibleCount)
  }

  ghost predicate RunInv(cfg: Config, s: Setup, w: World)
    requires s.Ok()
  {
    && Scheduling(s, w.now, w.queue, w.pool, w.home)
    && KeysCounted(w.hist.sent, w.pool.apps, w.home)
    && Logging(cfg, w.now, w.log, w.hist, w.cutoff)
    && Observed(w.hist.first, w.accepted, w.samples)
    && Paced(w.log.rx, w.log.lastRx, w.heard)
  }

  // ----- The start -----

  lemma {:induction false} InstallAllKeepsInv(tracks: Tracks, nodes: set<Node>, p: PoolView, list: seq<Node>)
    requires PoolInv(tracks, nodes, p) && forall n :: n in list ==> n in nodes
    ensures PoolInv(tracks, nodes, InstallAll(p, list))
    ensures InstallAll(p, list).active == p.active && InstallAll(p, list).vehicleToNode == p.vehicleToNode
  {
    if list != [] {
      InstallAllKeepsInv(tracks, nodes, p, list[..|list| - 1]);
      InstallAppKeepsInv(tracks, nodes, InstallAll(p, list[..|list| - 1]), list[|list| - 1]);
    }
  }

  lemma StartInv(cfg: Config, s: Setup, queue: seq<Event>)
    requires s.Ok() && QueueFor(s, queue) && Start(cfg, s, queue).Ok?
    ensures RunInv(cfg, s, Start(cfg, s, queue).value)
  {
    var p := AssignInitial(s, |s.ids|).value;
    InitialActive(s, |s.ids|);
    AgendaStarts(s, queue);
    InstallAllKeepsInv(s.tracks, ToSet(s.nodes), p, s.nodes);
    forall e | e in queue && e.AssignAt? ensures e.vehicle !in p.vehicleToNode {
      assert Scheduled(s, e);
      assert e.vehicle !in p.active;
    }
  }

  // ----- Time passes -----

  lemma LoggingWaits(cfg: Config, now: int, log: Log, hist: History, cutoff: int, t: int)
    requires Logging(cfg, now, log, hist, cutoff) && now <= t
    ensures Logging(cfg, t, log, hist, cutoff)
  {
    hide Refines, WasEligible;
  }

  lemma WaitKeepsInv(cfg: Config, s: Setup, w: World, t: int)
    requires s.Ok() && RunInv(cfg, s, w) && w.now <= t && (w.queue == [] || t <= w.queue[0].time)
    ensures RunInv(cfg, s, w.(now := t))
  {
    hide PoolInv, AgendaInv, HomeOk, Logging, KeysCounted, Observed, Paced;
    AgendaWaits(s, w.now, w.queue, w.pool.active, t);
    LoggingWaits(cfg, w.now, w.log, w.hist, w.cutoff, t);
  }

  // ----- Pool events -----

  lemma LaterAssignmentsAreOthers(s: Setup, now: int, queue: seq<Event>, active: set<Vehicle>, e: Event)
    requires s.Ok() && AgendaInv(s, now, queue, active) && queue != [] && queue[0].AssignAt?
    requires e in queue[1..] && e.AssignAt?
    ensures e.vehicle != queue[0].vehicle
  {
    TailMembers(queue);
    assert queue[0] in queue && Scheduled(s, queue[0]) && Scheduled(s, e);
  }

  lemma FireKeepsHome(s: Setup, w: World)
    requires s.Ok() && Scheduling(s, w.now, w.queue, w.pool, w.home) && w.queue != [] && FireNext(s, w).Ok?
    ensures var w' := FireNext(s, w).value; HomeOk(w'.queue, w'.pool.vehicleToNode, w'.home)
    ensures forall v :: v in w.home ==> Maps(FireNext(s, w).value.home, v, w.home[v])
  {
    var w', e := FireNext(s, w).value, w.queue[0];
    assert e in w.queue;
    forall x | x in w'.queue && x.AssignAt? ensures x.vehicle !in w'.home {
      assert x in w.queue;
      if e.AssignAt? {
        LaterAssignmentsAreOthers(s, w.now, w.queue, w.pool.active, x);
      }
    }
  }

  /** Counters only grow and a vehicle's radio never changes, so numbers used stay below their counter. */
  lemma CountersGrow(sent: seq<TxEvent>, apps: map<Node, App>, home: map<Vehicle, Node>, apps': map<Node, App>,
      home': map<Vehicle, Node>)
    requires KeysCounted(sent, apps, home)
    requires forall v :: v in home ==> Maps(home', v, home[v])
    requires CountersAtLeast(apps, apps')
    ensures KeysCounted(sent, apps', home')
  {
    forall e | e in sent ensures Counted(e.key, apps', home') {
      assert Counted(e.key, apps, home);
      assert Maps(home', e.key.vehicle, home[e.key.vehicle]);
    }
  }

  ghost predicate CountersAtLeast(apps: map<Node, App>, apps': map<Node, App>) {
    forall n :: n in apps ==> n in apps' && apps[n].nextSequence <= apps'[n].nextSequence
  }

  lemma FireKeepsCounters(tracks: Tracks, p: PoolView, e: Event)
    requires Fire(tracks, p, e).Ok?
    ensures CountersAtLeast(p.apps, Fire(tracks, p, e).value.apps)
  {
  }

  lemma FireAdvances(s: Setup, w: World)
    requires s.Ok() && Scheduling(s, w.now, w.queue, w.pool, w.home) && w.queue != []
    ensures w.now <= w.queue[0].time
  {
    assert w.queue[0] in w.queue;
  }

  lemma FireKeepsRun(cfg: Config, s: Setup, w: World)
    requires s.Ok() && RunInv(cfg, s, w) && w.queue != [] && FireNext(s, w).Ok?
    ensures RunInv(cfg, s, FireNext(s, w).value)
  {
    hide PoolInv, AgendaInv, HomeOk, Fire, Logging, KeysCounted, Observed, Paced, CountersAtLeast;
    var w' := FireNext(s, w).value;
    FireKeepsInv(s, w.now, w.queue, w.pool);
    FireKeepsHome(s, w);
    FireKeepsCounters(s.tracks, w.pool, w.queue[0]);
    CountersGrow(w.hist.sent, w.pool.apps, w.home, w'.pool.apps, w'.home);
    FireAdvances(s, w);
    LoggingWaits(cfg, w.now, w.log, w.hist, w.cutoff, w'.now);
  }

  // ----- Application lifecycle -----

  lemma StepAppFrame(p: PoolView, n: Node, step: AppStep)
    ensures StepApp(p, n, step) == p.(apps := StepApp(p, n, step).apps)
    ensures CountersAtLeast(p.apps, StepApp(p, n, step).apps)
  {
  }

  lemma StepAppKeepsInv(cfg: Config, s: Setup, w: World, n: Node, step: AppStep)
    requires s.Ok() && RunInv(cfg, s, w)
    ensures RunInv(cfg, s, w.(pool := StepApp(w.pool, n, step)))
  {
    hide PoolInv, AgendaInv, HomeOk, StepApp, Logging, KeysCounted, Observed, Paced, CountersAtLeast;
    AppStepKeepsInv(s.tracks, ToSet(s.nodes), w.pool, n, step);
    StepAppFrame(w.pool, n, step);
    assert forall v :: v in w.home ==> Maps(w.home, v, w.home[v]);
    CountersGrow(w.hist.sent, w.pool.apps, w.home, StepApp(w.pool, n, step).apps, w.home);
  }

  // ----- Transmissions -----

  /** The number an application is about to use has never been used by its vehicle. */
  lemma NextKeyIsFresh(s: Setup, w: World, n: Node)
    requires s.Ok() && Scheduling(s, w.now, w.queue, w.pool, w.home) && KeysCounted(w.hist.sent, w.pool.apps, w.home)
    requires n in w.pool.apps && w.pool.apps[n].Tags()
    ensures Maps(w.home, w.pool.apps[n].vehicle.value, n)
    ensures TxKey(w.pool.apps[n].vehicle.value, w.pool.apps[n].nextSequence) !in Keys(w.hist.sent)
  {
    var v := w.pool.apps[n].vehicle.value;
    assert Maps(w.pool.nodeToVehicle, n, v);
    assert Maps(w.pool.vehicleToNode, v, n);
    forall e | e in w.hist.sent ensures e.key != TxKey(v, w.pool.apps[n].nextSequence) {
      assert Counted(e.key, w.pool.apps, w.home);
    }
  }

  lemma TransmitKeepsRun(cfg: Config, s: Setup, w: World, n: Node, pos: Vec, eligible: set<Vehicle>)
    requires s.Ok() && 0 <= cfg.window && RunInv(cfg, s, w)
    ensures RunInv(cfg, s, TransmitNow(cfg, w, n, pos, eligible))
  {
    hide Scheduling, Logging, KeysCounted, Observed, Paced, Sent, TxAdmitted, Keys;
    if n in w.pool.apps && w.pool.apps[n].Tags() {
      var key := TxKey(w.pool.apps[n].vehicle.value, w.pool.apps[n].nextSequence);
      var tagged := w.(pool := StepApp(w.pool, n, Tag));
      NextKeyIsFresh(s, w, n);
      StepAppKeepsInv(cfg, s, w, n, Tag);
      SentKeepsRun(cfg, s, tagged, key, eligible);
    }
  }

  lemma RecordTxKeepsPaced(cfg: Config, log: Log, now: int, key: TxKey, eligible: set<Vehicle>, heard: seq<RxEvent>)
    requires Paced(log.rx, log.lastRx, heard)
    ensures var log' := RecordTx(cfg, log, now, key, eligible); Paced(log'.rx, log'.lastRx, heard)
  {
    PruneKeepsPaced(log.(tx := log.tx + [TxEvent(now, key, eligible)]), now - cfg.window, heard);
  }

  lemma SentKeepsRun(cfg: Config, s: Setup, w: World, key: TxKey, eligible: set<Vehicle>)
    requires s.Ok() && 0 <= cfg.window && RunInv(cfg, s, w)
    requires key !in Keys(w.hist.sent) && Counted(key, w.pool.apps, w.home)
    ensures RunInv(cfg, s, Sent(cfg, w, key, eligible))
  {
    hide Scheduling, HistoryOk, Refines, RecordTx, Keys, Observed, Counted, Paced;
    TxRefines(cfg, w.log, w.hist, w.now, w.cutoff, key, eligible);
    RecordTxKeepsPaced(cfg, w.log, w.now, key, eligible, w.heard);
  }

  // ----- Receptions -----

  lemma SeenGrows(h: History, now: int, key: TxKey, receiver: Vehicle, k: TxKey, r: Vehicle)
    requires Seen(h.first, k, r)
    ensures Seen(Receives(h, now, key, receiver).first, k, r)
  {
    var x :| x in h.first && x.key == k && x.receiver == r;
    assert x in Receives(h, now, key, receiver).first;
  }

  lemma AcceptanceIsObserved(w: World, h: History, key: TxKey, receiver: Vehicle, accepts: bool)
    requires Observed(w.hist.first, w.accepted, w.samples) && h == Receives(w.hist, w.now, key, receiver)
    requires accepts ==> !Seen(w.hist.first, key, receiver) && Seen(h.first, key, receiver)
    ensures Observed(h.first, if accepts then w.accepted + [Triple(key, receiver)] else w.accepted, w.samples)
  {
    hide Receives, Seen;
    forall k, r | Triple(k, r) in w.accepted ensures Seen(h.first, k, r) {
      SeenGrows(w.hist, w.now, key, receiver, k, r);
    }
  }

  lemma RecordRxKeepsPaced(cfg: Config, log: Log, now: int, key: TxKey, receiver: Vehicle, heard: seq<RxEvent>)
    requires Paced(log.rx, log.lastRx, heard)
    ensures var log', a := RecordRx(cfg, log, now, key, receiver), Added(log, now, key, receiver);
      Paced(log'.rx, log'.lastRx, if Accepts(log, key, receiver) then heard + [a.rx[|log.rx|]] else heard)
  {
    hide Paced, Accepts, Prune;
    AddedKeepsPaced(log, now, key, receiver, heard);
    if Accepts(log, key, receiver) {
      var a := Added(log, now, key, receiver);
      PruneKeepsPaced(a, now - cfg.window, heard + [a.rx[|log.rx|]]);
    }
  }

  lemma HeardKeepsRun(cfg: Config, s: Setup, w: World, key: TxKey, receiver: Vehicle)
    requires s.Ok() && RunInv(cfg, s, w)
    ensures RunInv(cfg, s, Heard(cfg, w, key, receiver))
  {
    hide Scheduling, HistoryOk, Refines, RecordRx, Accepts, Observed, Seen, WasEligible, KeysCounted, Paced;
    assert Receives(w.hist, w.now, key, receiver).sent == w.hist.sent;
    hide Receives;
    ReceiveKeepsHistory(w.hist, w.now, key, receiver);
    RxRefines(cfg, w.log, w.hist, w.now, w.cutoff, key, receiver);
    AcceptanceIsObserved(w, Receives(w.hist, w.now, key, receiver), key, receiver, Accepts(w.log, key, receiver));
    RecordRxKeepsPaced(cfg, w.log, w.now, key, receiver, w.heard);
  }

  lemma ReceiveKeepsRun(cfg: Config, s: Setup, w: World, n: Node, source: Node, key: TxKey, pos: Vec)
    requires s.Ok() && RunInv(cfg, s, w)
    ensures RunInv(cfg, s, ReceiveNow(cfg, w, n, source, key, pos))
  {
    hide RunInv, Heard, RxAdmitted, InsideCore;
    if n in w.pool.apps && w.pool.apps[n].vehicle.Some? {
      HeardKeepsRun(cfg, s, w, key, w.pool.apps[n].vehicle.value);
    }
  }

  // ----- Samples -----

  lemma SampleKeepsRun(cfg: Config, s: Setup, w: World)
    requires s.Ok() && RunInv(cfg, s, w)
    ensures RunInv(cfg, s, SampleNow(cfg, w))
  {
    hide Scheduling, HistoryOk, Refines, Prune, Seen, KeysCounted, SampleOf, Covered, Paced;
    var c := w.now - cfg.window;
    PruneRefines(w.log, w.hist, w.now, w.cutoff, c);
    RefinementIsCovered(Prune(w.log, c), w.hist, w.now, c);
    SuccessesAreEligible(Prune(w.log, c), w.now);
    PruneKeepsPaced(w.log, c, w.heard);
  }

  // ----- All runs -----

  lemma StepKeepsInv(cfg: Config, s: Setup, w: World, step: Step)
    requires s.Ok() && 0 <= cfg.window && RunInv(cfg, s, w) && Enabled(w, step) && Next(cfg, s, w, step).Ok?
    ensures RunInv(cfg, s, Next(cfg, s, w, step).value)
  {
    hide RunInv, TransmitNow, ReceiveNow, SampleNow, FireNext, StepApp;
    match step
    case PoolEvent => FireKeepsRun(cfg, s, w);
    case Lifecycle(t, n, change) =>
      WaitKeepsInv(cfg, s, w, t);
      StepAppKeepsInv(cfg, s, w.(now := t), n, change);
    case Transmit(t, n, pos, eligible) =>
      WaitKeepsInv(cfg, s, w, t);
      TransmitKeepsRun(cfg, s, w.(now := t), n, pos, eligible);
    case Receive(t, n, source, key, pos) =>
      WaitKeepsInv(cfg, s, w, t);
      ReceiveKeepsRun(cfg, s, w.(now := t), n, source, key, pos);
    case TakeSample(t) =>
      WaitKeepsInv(cfg, s, w, t);
      SampleKeepsRun(cfg, s, w.(now := t));
  }

  lemma {:induction false} RunsKeepInv(cfg: Config, s: Setup, queue: seq<Event>, steps: seq<Step>, w: World)
    requires s.Ok() && 0 <= cfg.window && QueueFor(s, queue) && Reaches(cfg, s, queue, steps, w)
    ensures RunInv(cfg, s, w)
    decreases |steps|
  {
    hide RunInv, Start, Next, QueueFor, Enabled;
    if steps == [] {
      StartInv(cfg, s, queue);
    } else {
      var before :| Reaches(cfg, s, queue, steps[..|steps| - 1], before) && Leads(cfg, s, before, steps[|steps| - 1], w);
      RunsKeepInv(cfg, s, queue, steps[..|steps| - 1], before);
      StepKeepsInv(cfg, s, before, steps[|steps| - 1]);
    }
  }

  /** In every run, every ratio written lies between 0 and 1, no triple is accepted twice, and no key is sent twice. */
  lemma EveryRatioIsAtMostOne(cfg: Config, s: Setup, queue: seq<Event>, steps: seq<Step>, w: World)
    requires s.Ok() && 0 <= cfg.window && QueueFor(s, queue) && Reaches(cfg, s, queue, steps, w)
    ensures forall x :: x in w.samples ==> x.successCount <= x.eligibleCount && 0.0 <= x.Prr() <= 1.0
    ensures NoDup(w.accepted)
    ensures forall i, j :: 0 <= i < j < |w.hist.sent| ==> w.hist.sent[i].key != w.hist.sent[j].key
  {
    hide QueueFor, Reaches, Scheduling, KeysCounted, Refines;
    RunsKeepInv(cfg, s, queue, steps, w);
    forall x | x in w.samples ensures 0.0 <= x.Prr() <= 1.0 {
      RatioRange(x);
    }
  }

  /** In every run each logged reception carries the time since the last one logged for its pair, however long ago. */
  lemma IntervalsAreGaps(cfg: Config, s: Setup, queue: seq<Event>, steps: seq<Step>, w: World, e: RxEvent)
    requires s.Ok() && 0 <= cfg.window && QueueFor(s, queue) && Reaches(cfg, s, queue, steps, w) && e in w.log.rx
    ensures exists i :: 0 <= i < |w.heard| && w.heard[i] == e && IntervalAt(w.heard, i)
  {
    hide QueueFor, Reaches, Scheduling, KeysCounted, Logging, Observed, IntervalAt;
    RunsKeepInv(cfg, s, queue, steps, w);
    var i :| 0 <= i < |w.heard| && w.heard[i] == e;
    assert IntervalAt(w.heard, i);
  }

  /** If the vehicles always fit, no step of any run stops the simulator, whichever way ties fall. */
  lemma NoRunStops(cfg: Config, s: Setup, queue: seq<Event>, steps: seq<Step>, w: World, step: Step)
    requires s.Ok() && 0 <= cfg.window && QueueFor(s, queue) && FitsAlways(s)
    requires Reaches(cfg, s, queue, steps, w) && Enabled(w, step)
    ensures Next(cfg, s, w, step).Ok?
  {
    hide QueueFor, Reaches, PoolInv, AgendaInv, HomeOk, KeysCounted, Logging, Observed, Paced, FitsAlways, Fire;
    RunsKeepInv(cfg, s, queue, steps, w);
    if step.PoolEvent? {
      OnlyExhaustionAborts(s, w.now, w.queue, w.pool);
      if w.queue[0].AssignAt? {
        AssignmentFindsRadio(s, w.now, w.queue, w.pool);
      }
    }
  }

  /** The simulator starts, and every step of every run succeeds. */
  ghost predicate NeverStops(cfg: Config, s: Setup, queue: seq<Event>)
    requires s.Ok()
  {
    && Start(cfg, s, queue).Ok?
    && forall steps, w, step :: Reaches(cfg, s, queue, steps, w) && Enabled(w, step) ==> Next(cfg, s, w, step).Ok?
  }

  /** The run in which nothing happens but the first `k` events of the schedule. */
  lemma {:induction false} BareRun(cfg: Config, s: Setup, queue: seq<Event>, k: nat) returns (steps: seq<Step>, w: World)
    requires s.Ok() && k <= |queue| && NeverStops(cfg, s, queue)
    ensures Reaches(cfg, s, queue, steps, w) && w.queue == queue[k..] && w.now == TimeAfter(queue, k)
  {
    if k == 0 {
      steps, w := [], Start(cfg, s, queue).value;
    } else {
      var before, last;
      before, last := BareRun(cfg, s, queue, k - 1);
      assert Enabled(last, PoolEvent);
      steps, w := before + [PoolEvent], Next(cfg, s, last, PoolEvent).value;
      assert steps[..|steps| - 1] == before;
      assert Leads(cfg, s, last, PoolEvent, w);
    }
  }

  lemma FitMeansNeverStops(cfg: Config, s: Setup, queue: seq<Event>)
    requires s.Ok() && 0 <= cfg.window && QueueFor(s, queue) && FitsAlways(s)
    ensures NeverStops(cfg, s, queue)
  {
    hide QueueFor, Reaches, Enabled, Next, FitsAlways;
    InitialFindsRadio(s, |s.ids|);
    forall steps, w, step | Reaches(cfg, s, queue, steps, w) && Enabled(w, step) ensures Next(cfg, s, w, step).Ok? {
      NoRunStops(cfg, s, queue, steps, w, step);
    }
  }

  lemma NeverStoppingNeedsRoom(cfg: Config, s: Setup, queue: seq<Event>)
    requires s.Ok() && 0 <= cfg.window && QueueFor(s, queue) && AssignsFirst(queue) && NeverStops(cfg, s, queue)
    ensures FitsAlways(s)
  {
    hide NeverStops, Reaches, PoolInv, AgendaInv, HomeOk, KeysCounted, Logging, Observed, Paced, FitsAt, AssignsFirst;
    forall t | 0 <= t <= s.sim ensures FitsAt(s, t) {
      var k := SplitOfSchedule(s, queue, t);
      var steps, w := BareRun(cfg, s, queue, k);
      RunsKeepInv(cfg, s, queue, steps, w);
      FitWasNeeded(s, w.now, w.queue, w.pool, t);
    }
  }

  /** On any tracks: no run of any order of the schedule stops the simulator if and only if the vehicles always fit. */
  lemma NoOrderStopsIff(cfg: Config, s: Setup)
    requires s.Ok() && 0 <= cfg.window
    ensures (forall queue :: QueueFor(s, queue) ==> NeverStops(cfg, s, queue)) <==> FitsAlways(s)
  {
    hide QueueFor, NeverStops, FitsAlways, AssignsFirst;
    if FitsAlways(s) {
      forall queue | QueueFor(s, queue) ensures NeverStops(cfg, s, queue) {
        FitMeansNeverStops(cfg, s, queue);
      }
    }
    if forall queue :: QueueFor(s, queue) ==> NeverStops(cfg, s, queue) {
      var queue := OrderedQueue(s);
      NeverStoppingNeedsRoom(cfg, s, queue);
    }
  }

  /** On a common grid: no run stops the simulator if and only if those with a row and the leaked ones always fit. */
  lemma NeverStopsOnGridIff(cfg: Config, s: Setup, g: int, queue: seq<Event>)
    requires s.Ok() && 0 <= cfg.window && QueueFor(s, queue) && GridSetup(s, g)
    ensures NeverStops(cfg, s, queue) <==> RoomAlways(s)
  {
    hide QueueFor, NeverStops, FitsAlways, RoomAlways, AssignsFirst, GridSetup;
    RoomOnGridIff(s, g);
    if RoomAlways(s) {
      FitMeansNeverStops(cfg, s, queue);
    }
    if NeverStops(cfg, s, queue) {
      GridHasNoTies(s, g, queue);
      NeverStoppingNeedsRoom(cfg, s, queue);
    }
  }

  /**
    In every run whose tracks are on a grid, once the events up to `t` have
    fired the vehicles with a radio are those whose track covers `t` (and the
    leaked ones), and an application disseminates exactly when it runs on one of their radios.
   */
  lemma RunFollowsTracks(cfg: Config, s: Setup, g: int, queue: seq<Event>, steps: seq<Step>, w: World, t: int)
    requires s.Ok() && 0 <= cfg.window && QueueFor(s, queue) && GridSetup(s, g) && Reaches(cfg, s, queue, steps, w)
    requires 0 <= t <= s.sim && w.now <= t && forall e :: e in w.queue ==> t < e.time
    ensures w.pool.active == Expected(s, t) + Leaked(s)
    ensures var apps := w.pool.apps;
      forall n :: n in apps ==> (apps[n].disseminating <==> apps[n].running && n in w.pool.nodeToVehicle)
  {
    hide QueueFor, Reaches, AgendaInv, HomeOk, KeysCounted, Logging, Observed, Paced, GridSetup, Inverse, Partition,
        CarriersFollow;
    RunsKeepInv(cfg, s, queue, steps, w);
    ActiveSetIsExact(s, g, w.now, w.queue, w.pool.active, t);
  }

  ghost predicate SentSince(sent: seq<TxEvent>, key: TxKey, cutoff: int) {
    exists e :: e in sent && e.key == key && e.time >= cutoff
  }

  /**
    Sample `x` counts the messages sent within the window at its time, the deliveries due for them, and those of
    these deliveries that were received.
   */
  ghost predicate Sees(cfg: Config, h: History, x: Sample) {
    var c := x.time - cfg.window;
    && x.txCount == |set e | e in h.sent && e.time >= c|
    && x.eligibleCount == |set e, r | e in h.sent && e.time >= c && r in e.eligible :: Triple(e.key, r)|
    && x.successCount == |set r | r in h.first && SentSince(h.sent, r.key, c) :: Triple(r.key, r.receiver)|
  }

  /** The reception intervals of the sample are those of the receptions in its window, taken from all ever logged. */
  ghost predicate SeesIntervals(cfg: Config, h: History, heard: seq<RxEvent>, x: Sample) {
    exists rx: seq<RxEvent> ::
      && Projected(rx) == LiveReceptions(h.first, Keys(InWindow(h.sent, x.time - cfg.window)))
      && (forall e :: e in rx ==> e in heard)
      && x.pirSum == PirSum(rx) && x.pirCount == PirCount(rx)
  }

  lemma SampleSeesIntervals(cfg: Config, s: Setup, w: World)
    requires s.Ok() && RunInv(cfg, s, w)
    ensures SeesIntervals(cfg, w.hist, w.heard, SampleOf(Prune(w.log, w.now - cfg.window), w.now))
  {
    hide Scheduling, KeysCounted, HistoryOk, Prune, InWindow, LiveReceptions, Keys, EligibleSum, Successes, IntervalAt, PirSum,
        PirCount;
    var c := w.now - cfg.window;
    PruneRefines(w.log, w.hist, w.now, w.cutoff, c);
    PruneKeepsPaced(w.log, c, w.heard);
    var rx := Prune(w.log, c).rx;
    assert Projected(rx) == LiveReceptions(w.hist.first, Keys(InWindow(w.hist.sent, c)));
  }

  lemma SampleSeesTheWindow(cfg: Config, s: Setup, w: World)
    requires s.Ok() && RunInv(cfg, s, w)
    ensures Sees(cfg, w.hist, SampleOf(Prune(w.log, w.now - cfg.window), w.now))
  {
    hide Scheduling, KeysCounted, Observed, Paced, HistoryOk, Refines, Prune, InWindow, LiveReceptions, Keys, EligibleSum,
        Successes;
    var c := w.now - cfg.window;
    PruneRefines(w.log, w.hist, w.now, w.cutoff, c);
    TransmissionsOfWindow(Prune(w.log, c), w.hist, w.now, c);
    ReceptionsOfWindow(Prune(w.log, c), w.hist, w.now, c);
  }

  /** `h'` continues `h` with entries from time `t` on. */
  ghost predicate Continues(h: History, h': History, t: int) {
    && h.sent <= h'.sent && h.first <= h'.first
    && (forall i :: |h.sent| <= i < |h'.sent| ==> t <= h'.sent[i].time)
    && (forall i :: |h.first| <= i < |h'.first| ==> t <= h'.first[i].time)
  }

  lemma StepContinues(cfg: Config, s: Setup, w: World, step: Step)
    requires s.Ok() && RunInv(cfg, s, w) && Enabled(w, step) && Next(cfg, s, w, step).Ok?
    ensures var w' := Next(cfg, s, w, step).value;
      && w.now <= w'.now && Continues(w.hist, w'.hist, w.now)
      && w'.samples == if step.TakeSample? then w.samples
          + [SampleOf(Prune(w.log, step.time - cfg.window), step.time)] else w.samples
  {
    hide Scheduling, KeysCounted, Logging, Observed, Paced, WasEligible, Seen, RecordRx, RecordTx, Prune, SampleOf, Fire;
    if step.PoolEvent? {
      FireAdvances(s, w);
    }
  }

  /**
    Every sample written in a run was taken at some step, and its counts are those of
    the window of everything that was sent and first received up to that step; what
    came later came at its time or after.
   */
  lemma {:induction false} SamplesSeeTheWindow(cfg: Config, s: Setup, queue: seq<Event>, steps: seq<Step>, w: World, i: nat)
    returns (j: nat, before: World)
    requires s.Ok() && 0 <= cfg.window && QueueFor(s, queue) && Reaches(cfg, s, queue, steps, w) && i < |w.samples|
    ensures j < |steps| && Reaches(cfg, s, queue, steps[..j], before) && steps[j] == TakeSample(w.samples[i].time)
    ensures Sees(cfg, before.hist, w.samples[i]) && SeesIntervals(cfg, before.hist, before.heard, w.samples[i])
    ensures Continues(before.hist, w.hist, w.samples[i].time)
    ensures w.samples[i].time <= w.now
    decreases |steps|
  {
    hide RunInv, Next, QueueFor, Enabled, Sees, SeesIntervals, SampleOf, Prune;
    var init, last := steps[..|steps| - 1], steps[|steps| - 1];
    var v :| Reaches(cfg, s, queue, init, v) && Leads(cfg, s, v, last, w);
    RunsKeepInv(cfg, s, queue, init, v);
    StepContinues(cfg, s, v, last);
    if i < |v.samples| {
      j, before := SamplesSeeTheWindow(cfg, s, queue, init, v, i);
      assert steps[..j] == init[..j];
    } else {
      j, before := |steps| - 1, v;
      TakenSampleSees(cfg, s, v, last);
    }
  }

  lemma SampleTimeIsNow(log: Log, now: int)
    ensures SampleOf(log, now).time == now
  {
  }

  lemma TakenSampleSees(cfg: Config, s: Setup, w: World, step: Step)
    requires s.Ok() && RunInv(cfg, s, w) && Enabled(w, step) && step.TakeSample?
    ensures Sees(cfg, w.hist, SampleOf(Prune(w.log, step.time - cfg.window), step.time))
    ensures SeesIntervals(cfg, w.hist, w.heard, SampleOf(Prune(w.log, step.time - cfg.window), step.time))
    ensures SampleOf(Prune(w.log, step.time - cfg.window), step.time).time == step.time
    ensures Next(cfg, s, w, step).value.now == step.time && Next(cfg, s, w, step).value.hist == w.hist
  {
    hide RunInv, Sees, SeesIntervals, SampleOf, Prune;
    SampleTimeIsNow(Prune(w.log, step.time - cfg.window), step.time);
    WaitKeepsInv(cfg, s, w, step.time);
    SampleSeesTheWindow(cfg, s, w.(now := step.time));
    SampleSeesIntervals(cfg, s, w.(now := step.time));
  }

  ghost function DeliveriesOf(first: seq<Reception>): seq<Triple> {
    seq(|first|, i requires 0 <= i < |first| => Triple(first[i].key, first[i].receiver))
  }

  lemma WindowIsDistinct(h: History, now: int, c: int)
    requires HistoryOk(h, now)
    ensures var tx := InWindow(h.sent, c); forall i, j :: 0 <= i < j < |tx| ==> tx[i].key != tx[j].key
  {
    WindowStaysDistinct(h.sent, c);
  }

  lemma {:induction false} WindowStaysDistinct(sent: seq<TxEvent>, c: int)
    requires forall i, j :: 0 <= i < j < |sent| ==> sent[i].key != sent[j].key
    ensures var tx := InWindow(sent, c); forall i, j :: 0 <= i < j < |tx| ==> tx[i].key != tx[j].key
  {
    if sent != [] {
      var init, last := sent[..|sent| - 1], sent[|sent| - 1];
      WindowStaysDistinct(init, c);
      InWindowMembers(init, c);
      assert forall e :: e in InWindow(init, c) ==> e in init && e.key != last.key;
    }
  }

  lemma TransmissionsOfWindow(log: Log, h: History, now: int, c: int)
    requires HistoryOk(h, now) && log.tx == InWindow(h.sent, c)
    ensures |log.tx| == |set e | e in h.sent && e.time >= c|
    ensures EligibleSum(log.tx) == |set e, r | e in h.sent && e.time >= c && r in e.eligible :: Triple(e.key, r)|
  {
    hide HistoryOk, InWindow;
    InWindowMembers(h.sent, c);
    WindowIsDistinct(h, now, c);
    EligibleSumIsOwed(log.tx);
    assert Owed(log.tx) == set e, r | e in h.sent && e.time >= c && r in e.eligible :: Triple(e.key, r);
    NoDupCardinality(log.tx);
    assert ToSet(log.tx) == set e | e in h.sent && e.time >= c;
  }

  lemma ReceptionsOfWindow(log: Log, h: History, now: int, c: int)
    requires HistoryOk(h, now) && Refines(log, h, c)
    ensures |Successes(log.rx, Keys(log.tx))|
         == |set r | r in h.first && SentSince(h.sent, r.key, c) :: Triple(r.key, r.receiver)|
  {
    var keys := Keys(log.tx);
    var live := LiveReceptions(h.first, keys);
    LiveReceptionMembers(h.first, keys);
    SuccessesAreDeliveries(log.rx, keys);
    KeysOfWindow(h.sent, c);
    DeliveriesAsSet(live, h, c);
  }

  lemma KeysOfWindow(sent: seq<TxEvent>, c: int)
    ensures forall k :: k in Keys(InWindow(sent, c)) <==> SentSince(sent, k, c)
  {
    hide InWindow;
    InWindowMembers(sent, c);
  }

  lemma DeliveriesAsSet(live: seq<Reception>, h: History, c: int)
    requires forall r :: r in live <==> r in h.first && SentSince(h.sent, r.key, c)
    ensures ToSet(DeliveriesOf(live)) == set r | r in h.first && SentSince(h.sent, r.key, c) :: Triple(r.key, r.receiver)
  {
    hide SentSince;
    var d := DeliveriesOf(live);
    var due := set r | r in h.first && SentSince(h.sent, r.key, c) :: Triple(r.key, r.receiver);
    forall t ensures t in ToSet(d) <==> t in due {
      if t in due {
        var r :| r in h.first && SentSince(h.sent, r.key, c) && Triple(r.key, r.receiver) == t;
        var i :| 0 <= i < |live| && live[i] == r;
        assert d[i] == t;
      }
      if t in ToSet(d) {
        var i :| 0 <= i < |d| && d[i] == t;
        assert live[i] in live;
      }
    }
  }

  lemma SuccessesAreDeliveries(rx: seq<RxEvent>, keys: set<TxKey>)
    requires forall r :: r in Projected(rx) ==> r.key in keys
    ensures Successes(rx, keys) == ToSet(DeliveriesOf(Projected(rx)))
  {
    var d := DeliveriesOf(Projected(rx));
    forall t ensures t in Successes(rx, keys) <==> t in ToSet(d) {
      if t in Successes(rx, keys) {
        var i :| 0 <= i < |rx| && rx[i].Delivery() == t;
        assert d[i] == t;
      }
      if t in ToSet(d) {
        var i :| 0 <= i < |d| && d[i] == t;
        assert Projected(rx)[i] in Projected(rx);
        assert rx[i] in rx && rx[i].Delivery() == t;
      }
    }
  }

  // ----- When something is logged -----

  ghost predicate Evaluating(cfg: Config, now: int, pos: Vec) {
    && cfg.evalStart <= now && (cfg.evalEnd >= 0 ==> now <= cfg.evalEnd)
    && (cfg.coreEnabled && cfg.coreOnX ==> cfg.coreMin <= pos.x <= cfg.coreMax)
    && (cfg.coreEnabled && !cfg.coreOnX ==> cfg.coreMin <= pos.y <= cfg.coreMax)
  }

  /** The application of `n` runs on a radio lent to `v`. */
  ghost predicate SendsFor(w: World, n: Node, v: Vehicle) {
    n in w.pool.apps && w.pool.apps[n].running && Maps(w.pool.nodeToVehicle, n, v)
  }

  /**
    A transmission of the application on `n` is logged with its time, its vehicle and the next number, and with the
    vehicles in range, if and only if the application runs, its radio is lent, and time and place are evaluated; the
    number is used up in any case if the application runs on a lent radio.
   */
  lemma TransmitIsLoggedIff(cfg: Config, s: Setup, w: World, n: Node, pos: Vec, eligible: set<Vehicle>, v: Vehicle)
    requires s.Ok() && RunInv(cfg, s, w)
    ensures var w' := TransmitNow(cfg, w, n, pos, eligible);
      && (SendsFor(w, n, v) && Evaluating(cfg, w.now, pos) ==>
            w'.hist.sent == w.hist.sent + [TxEvent(w.now, TxKey(v, w.pool.apps[n].nextSequence), eligible)])
      && (SendsFor(w, n, v) ==> n in w'.pool.apps && w'.pool.apps[n].nextSequence == w.pool.apps[n].nextSequence + 1)
      && ((forall u :: !SendsFor(w, n, u)) || !Evaluating(cfg, w.now, pos) ==> w'.hist == w.hist)
  {
    hide KeysCounted, Logging, Observed, Paced, RecordTx, AgendaInv, HomeOk, Partition, CarriersFollow, Inverse;
    if n in w.pool.apps {
      assert w.pool.apps[n].vehicle == Lookup(w.pool.nodeToVehicle, n);
      if w.pool.apps[n].Tags() {
        assert SendsFor(w, n, w.pool.apps[n].vehicle.value);
      }
    }
  }

  /** A message with this key was logged and is not forgotten, `r` should hear it, and has not been logged to. */
  ghost predicate Awaited(h: History, key: TxKey, r: Vehicle, cutoff: int) {
    && SentSince(h.sent, key, cutoff) && WasEligible(h.sent, key, r) && !Seen(h.first, key, r)
  }

  lemma AcceptsAwaited(log: Log, h: History, now: int, cutoff: int, key: TxKey, r: Vehicle)
    requires HistoryOk(h, now) && Refines(log, h, cutoff)
    ensures Accepts(log, key, r) <==> Awaited(h, key, r, cutoff)
  {
    hide HistoryOk, Refines, Accepts, WasEligible, Seen;
    KeysOfWindow(h.sent, cutoff);
    AcceptsIff(log, h, now, cutoff, key, r);
  }

  /**
    A packet received on a radio lent to `r` is logged if and only if the radio it came from still carries the tagged
    vehicle, time and place are evaluated, and the message is awaited.
   */
  lemma ReceptionIsLoggedIff(cfg: Config, s: Setup, w: World, n: Node, source: Node, key: TxKey, pos: Vec, r: Vehicle)
    requires s.Ok() && RunInv(cfg, s, w) && n in w.pool.apps && Maps(w.pool.nodeToVehicle, n, r)
    ensures var w' := ReceiveNow(cfg, w, n, source, key, pos);
      if Maps(w.pool.nodeToVehicle, source, key.vehicle) && Evaluating(cfg, w.now, pos) && Awaited(w.hist, key, r, w.cutoff)
      then w'.accepted == w.accepted + [Triple(key, r)] && w'.hist.first == w.hist.first + [Reception(w.now, key, r)]
      else w'.accepted == w.accepted
  {
    hide KeysCounted, HistoryOk, Refines, Observed, Paced, RecordRx, Accepts, AgendaInv, HomeOk, Partition, CarriersFollow,
        SentSince, WasEligible, Seen;
    AcceptsAwaited(w.log, w.hist, w.now, w.cutoff, key, r);
    assert w.pool.apps[n].vehicle == Lookup(w.pool.nodeToVehicle, n) == Some(r);
    assert Maps(w.pool.vehicleToNode, r, n);
    if Maps(w.pool.nodeToVehicle, source, key.vehicle) {
      assert Maps(w.pool.vehicleToNode, key.vehicle, source);
    }
  }

  /** A packet on a radio that is not lent, or that has no application, is ignored. */
  lemma StrangersAreIgnored(cfg: Config, s: Setup, w: World, n: Node, source: Node, key: TxKey, pos: Vec)
    requires s.Ok() && RunInv(cfg, s, w) && (n !in w.pool.apps || n !in w.pool.nodeToVehicle)
    ensures ReceiveNow(cfg, w, n, source, key, pos) == w
  {
    hide KeysCounted, Logging, Observed, Paced, AgendaInv, HomeOk, Partition, CarriersFollow, Inverse;
  }

  // ----- When the log forgets -----

  /**
    After every sample, every logged transmission and every logged reception
    the log holds exactly the transmissions of the window; no other step changes it.
   */
  lemma LoggingPrunes(cfg: Config, s: Setup, queue: seq<Event>, steps: seq<Step>, before: World, last: Step, w: World)
    requires s.Ok() && 0 <= cfg.window && QueueFor(s, queue) && Reaches(cfg, s, queue, steps, before)
    requires Leads(cfg, s, before, last, w)
    ensures if last.TakeSample? || w.hist.sent != before.hist.sent || w.accepted != before.accepted
            then w.cutoff == w.now - cfg.window && ForgottenBefore(w, w.now - cfg.window)
            else w.cutoff == before.cutoff && w.log == before.log
  {
    RunsKeepInv(cfg, s, queue, steps, before);
    StepKeepsInv(cfg, s, before, last);
    StepMovesCutoff(cfg, s, before, last, w);
    LogIsWindow(cfg, s, w);
  }

  /** The log holds the transmissions sent from `t` on, and only them. */
  ghost predicate ForgottenBefore(w: World, t: int) {
    forall e :: e in w.log.tx <==> e in w.hist.sent && t <= e.time
  }

  lemma LogIsWindow(cfg: Config, s: Setup, w: World)
    requires s.Ok() && RunInv(cfg, s, w)
    ensures ForgottenBefore(w, w.cutoff)
  {
    hide Scheduling, KeysCounted, Observed, Paced, HistoryOk;
    InWindowMembers(w.hist.sent, w.cutoff);
  }

  lemma StepMovesCutoff(cfg: Config, s: Setup, before: World, last: Step, w: World)
    requires s.Ok() && RunInv(cfg, s, before) && Leads(cfg, s, before, last, w)
    ensures if last.TakeSample? || w.hist.sent != before.hist.sent || w.accepted != before.accepted
            then w.cutoff == w.now - cfg.window else w.cutoff == before.cutoff && w.log == before.log
  {
    hide RunInv, RecordTx, Prune, Accepts, Fire, Added;
    if last.Transmit? {
      SendingGrows(before.hist, last.time, last.eligible);
    }
  }

  lemma SendingGrows(h: History, now: int, eligible: set<Vehicle>)
    ensures forall key :: Sends(h, now, key, eligible).sent != h.sent
  {
    assert forall key :: |Sends(h, now, key, eligible).sent| == |h.sent| + 1;
  }
}
