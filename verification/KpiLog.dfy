/**
  The sliding-window log of transmissions and receptions behind the packet
  reception ratio: its steps on values, and the logger object that takes them.
 */
module KpiLog {
  import opened Prelude
  import opened Mobility
  import opened Pool

  /** `evalEnd < 0` means an open evaluation window. */
  datatype Config = Config(window: int, range: real, evalStart: int, evalEnd: int,
                           coreEnabled: bool, coreOnX: bool, coreMin: real, coreMax: real)

  datatype TxKey = TxKey(vehicle: Vehicle, seqNo: nat)

  datatype Triple = Triple(key: TxKey, receiver: Vehicle)

  datatype Link = Link(sender: Vehicle, receiver: Vehicle)

  /** `eligible` are the vehicles in awareness range when the message was sent. */
  datatype TxEvent = TxEvent(time: int, key: TxKey, eligible: set<Vehicle>)

  datatype RxEvent = RxEvent(time: int, key: TxKey, receiver: Vehicle, pir: Option<int>) {
    function Delivery(): Triple { Triple(key, receiver) }
  }

  datatype Log = Log(tx: seq<TxEvent>, rx: seq<RxEvent>, triples: set<Triple>, lastRx: map<Link, int>)

  // ----- Filters -----

  predicate InsideEvaluation(cfg: Config, t: int) {
    t >= cfg.evalStart && (cfg.evalEnd < 0 || t <= cfg.evalEnd)
  }

  predicate InsideCore(cfg: Config, p: Vec) {
    !cfg.coreEnabled ||
    var c := if cfg.coreOnX then p.x else p.y;
    cfg.coreMin <= c <= cfg.coreMax
  }

  /** Planar distance at most the awareness range, without the square root. */
  predicate InRange(cfg: Config, a: Vec, b: Vec) {
    var dx, dy := a.x - b.x, a.y - b.y;
    0.0 <= cfg.range && dx * dx + dy * dy <= cfg.range * cfg.range
  }

  lemma SquaresCompare(d: real, r: real)
    requires 0.0 <= d && 0.0 <= r
    ensures d * d <= r * r <==> d <= r
  {
    if d <= r {
      assert d * d <= d * r <= r * r;
    } else {
      assert d * d - r * r == (d - r) * (d + r) && 0.0 < d - r && 0.0 < d + r;
    }
  }

  lemma SquareOfStep(d: real, ux: real, uy: real)
    requires ux * ux + uy * uy == 1.0
    ensures (d * ux) * (d * ux) + (d * uy) * (d * uy) == d * d
  {
    assert (d * ux) * (d * ux) == d * d * (ux * ux) && (d * uy) * (d * uy) == d * d * (uy * uy);
    assert d * d * (ux * ux) + d * d * (uy * uy) == d * d * (ux * ux + uy * uy);
  }

  /** The range is a disc: a position `d` away in any direction is in range if and only if `d` is at most the range. */
  lemma RangeIsDisc(cfg: Config, a: Vec, ux: real, uy: real, d: real)
    requires ux * ux + uy * uy == 1.0 && 0.0 <= d
    ensures InRange(cfg, a, Vec(a.x + d * ux, a.y + d * uy)) <==> d <= cfg.range
  {
    SquareOfStep(-d, ux, uy);
    assert a.x - (a.x + d * ux) == -d * ux && a.y - (a.y + d * uy) == -d * uy;
    if 0.0 <= cfg.range {
      SquaresCompare(d, cfg.range);
    }
  }

  predicate TxAdmitted(cfg: Config, nv: map<Node, Vehicle>, now: int, v: Vehicle, n: Node, pos: Vec) {
    Maps(nv, n, v) && InsideEvaluation(cfg, now) && InsideCore(cfg, pos)
  }

  /** Node `n` carries a vehicle that a message sent by `sender` should reach. */
  predicate Hears(cfg: Config, nv: map<Node, Vehicle>, at: Node -> Vec, sender: Vehicle, senderNode: Node, pos: Vec, n: Node) {
    n != senderNode && n in nv && nv[n] != sender && InsideCore(cfg, at(n)) && InRange(cfg, pos, at(n))
  }

  /**
    A radio `d` away hears a message if and only if it is another one, carries another vehicle, stands inside the core
    if there is one, and is no farther than the range.
   */
  lemma HearsIff(cfg: Config, nv: map<Node, Vehicle>, at: Node -> Vec, sender: Vehicle, senderNode: Node, pos: Vec, n: Node,
      ux: real, uy: real, d: real)
    requires ux * ux + uy * uy == 1.0 && 0.0 <= d && at(n) == Vec(pos.x + d * ux, pos.y + d * uy)
    ensures Hears(cfg, nv, at, sender, senderNode, pos, n)
       <==> && n != senderNode && n in nv && nv[n] != sender && d <= cfg.range
            && (cfg.coreEnabled && cfg.coreOnX ==> cfg.coreMin <= pos.x + d * ux <= cfg.coreMax)
            && (cfg.coreEnabled && !cfg.coreOnX ==> cfg.coreMin <= pos.y + d * uy <= cfg.coreMax)
  {
    hide InRange;
    RangeIsDisc(cfg, pos, ux, uy, d);
  }

  predicate RxAdmitted(cfg: Config, nv: map<Node, Vehicle>, vn: map<Vehicle, Node>, now: int, sender: Vehicle,
      receiver: Vehicle) {
    && InsideEvaluation(cfg, now)
    && sender in vn && receiver in vn
    && Maps(nv, vn[sender], sender) && Maps(nv, vn[receiver], receiver)
  }

  // ----- Pruning -----

  function TxTime(e: TxEvent): int {
    e.time
  }

  function RxTime(e: RxEvent): int {
    e.time
  }

  /** How many events at the front are older than the cutoff. */
  function Old<E>(events: seq<E>, time: E -> int, cutoff: int): (n: nat)
    ensures n <= |events|
    ensures forall i :: 0 <= i < n ==> time(events[i]) < cutoff
  {
    if events != [] && time(events[0]) < cutoff
    then
      assert forall i :: 1 <= i < |events| ==> events[i] == events[1..][i - 1];
      1 + Old(events[1..], time, cutoff)
    else 0
  }

  function Keys(tx: seq<TxEvent>): set<TxKey> {
    set e | e in tx :: e.key
  }

  function Live(rx: seq<RxEvent>, keys: set<TxKey>): seq<RxEvent> {
    if rx == [] then []
    else
      var last := rx[|rx| - 1];
      Live(rx[..|rx| - 1], keys) + if last.key in keys then [last] else []
  }

  function Triples(rx: seq<RxEvent>): set<Triple> {
    set e | e in rx :: e.Delivery()
  }

  function DeadTriples(rx: seq<RxEvent>, keys: set<TxKey>): set<Triple> {
    set e | e in rx && e.key !in keys :: e.Delivery()
  }

  function PopTx(log: Log, cutoff: int): Log {
    log.(tx := log.tx[Old(log.tx, TxTime, cutoff)..])
  }

  function PopRx(log: Log, cutoff: int): Log {
    var n := Old(log.rx, RxTime, cutoff);
    log.(rx := log.rx[n..], triples := log.triples - Triples(log.rx[..n]))
  }

  function DropDead(log: Log, keys: set<TxKey>): Log {
    log.(rx := Live(log.rx, keys), triples := log.triples - DeadTriples(log.rx, keys))
  }

  function Prune(log: Log, cutoff: int): Log {
    var popped := PopTx(log, cutoff);
    DropDead(PopRx(popped, cutoff), Keys(popped.tx))
  }

  // ----- Recording -----

  function RecordTx(cfg: Config, log: Log, now: int, key: TxKey, eligible: set<Vehicle>): Log {
    Prune(log.(tx := log.tx + [TxEvent(now, key, eligible)]), now - cfg.window)
  }

  /** The most recent transmission with this key. */
  function FindTx(tx: seq<TxEvent>, key: TxKey): (r: Option<TxEvent>)
    ensures r == None <==> key !in Keys(tx)
    ensures r.Some? ==> r.value in tx && r.value.key == key
  {
    if tx == [] then None
    else if tx[|tx| - 1].key == key then Some(tx[|tx| - 1])
    else
      assert tx == tx[..|tx| - 1] + [tx[|tx| - 1]];
      FindTx(tx[..|tx| - 1], key)
  }

  predicate Accepts(log: Log, key: TxKey, receiver: Vehicle) {
    && FindTx(log.tx, key).Some?
    && receiver in FindTx(log.tx, key).value.eligible
    && Triple(key, receiver) !in log.triples
  }

  function RecordRx(cfg: Config, log: Log, now: int, key: TxKey, receiver: Vehicle): Log {
    if Accepts(log, key, receiver) then Prune(Added(log, now, key, receiver), now - cfg.window) else log
  }

  /** The reception interval is the time since the last logged reception of the same pair. */
  function Added(log: Log, now: int, key: TxKey, receiver: Vehicle): Log {
    var link := Link(key.vehicle, receiver);
    var pir := if link in log.lastRx then Some(now - log.lastRx[link]) else None;
    Log(log.tx, log.rx + [RxEvent(now, key, receiver, pir)], log.triples + {Triple(key, receiver)}, log.lastRx[link := now])
  }

  // ----- Sampling -----

  datatype Sample = Sample(time: int, txCount: nat, eligibleCount: nat, successCount: nat, pirSum: int, pirCount: nat) {
    function Prr(): real {
      if eligibleCount > 0 then successCount as real / eligibleCount as real else 0.0
    }
  }

  function EligibleSum(tx: seq<TxEvent>): nat {
    if tx == [] then 0 else EligibleSum(tx[..|tx| - 1]) + |tx[|tx| - 1].eligible|
  }

  function Successes(rx: seq<RxEvent>, keys: set<TxKey>): set<Triple> {
    set e | e in rx && e.key in keys :: e.Delivery()
  }

  function PirSum(rx: seq<RxEvent>): int {
    if rx == [] then 0
    else PirSum(rx[..|rx| - 1]) + (match rx[|rx| - 1].pir case None => 0 case Some(p) => p)
  }

  function PirCount(rx: seq<RxEvent>): nat {
    if rx == [] then 0 else PirCount(rx[..|rx| - 1]) + (if rx[|rx| - 1].pir.Some? then 1 else 0)
  }

  function SampleOf(log: Log, now: int): Sample {
    Sample(now, |log.tx|, EligibleSum(log.tx), |Successes(log.rx, Keys(log.tx))|, PirSum(log.rx), PirCount(log.rx))
  }

  /** The sums over receptions add up over parts, and a single reception adds its interval, if it has one. */
  lemma {:induction false} PirTotalsAdd(a: seq<RxEvent>, b: seq<RxEvent>, e: RxEvent)
    ensures PirSum(a + b) == PirSum(a) + PirSum(b) && PirCount(a + b) == PirCount(a) + PirCount(b)
    ensures PirSum([e]) == (if e.pir.Some? then e.pir.value else 0) && PirCount([e]) == if e.pir.Some? then 1 else 0
  {
    assert [e][..0] == [];
    if b == [] {
      assert a + b == a;
    } else {
      assert (a + b)[..|a + b| - 1] == a + b[..|b| - 1];
      PirTotalsAdd(a, b[..|b| - 1], e);
    }
  }

  // ----- The logger object -----

  class KpiLogger {
    const cfg: Config
    var txEvents: seq<TxEvent>
    var rxEvents: seq<RxEvent>
    var loggedTriples: set<Triple>
    var lastRx: map<Link, int>

    ghost function View(): Log
      reads this
    {
      Log(txEvents, rxEvents, loggedTriples, lastRx)
    }

    constructor (cfg: Config)
      ensures this.cfg == cfg && View() == Log([], [], {}, map[])
    {
      this.cfg := cfg;
      txEvents, rxEvents, loggedTriples, lastRx := [], [], {}, map[];
    }

    method LogTx(nodes: seq<Node>, nv: map<Node, Vehicle>, at: Node -> Vec, now: int, v: Vehicle, n: Node, seqNo: nat, pos: Vec)
      returns (ghost eligible: set<Vehicle>)
      modifies this
      ensures forall r :: r in eligible <==> exists m :: m in nodes && Hears(cfg, nv, at, v, n, pos, m) && nv[m] == r
      ensures View() == if TxAdmitted(cfg, nv, now, v, n, pos)
                        then RecordTx(cfg, old(View()), now, TxKey(v, seqNo), eligible) else old(View())
    {
      var inRange := EligibleReceivers(cfg, nodes, nv, at, v, n, pos);
      eligible := inRange;
      if n !in nv || nv[n] != v || !InsideEvaluation(cfg, now) || !InsideCore(cfg, pos) {
        return;
      }
      txEvents := txEvents + [TxEvent(now, TxKey(v, seqNo), inRange)];
      PruneOldEvents(now);
    }

    method LogRx(nv: map<Node, Vehicle>, vn: map<Vehicle, Node>, now: int, key: TxKey, receiver: Vehicle, pos: Vec)
      modifies this
      ensures View() == if RxAdmitted(cfg, nv, vn, now, key.vehicle, receiver) && InsideCore(cfg, pos)
                        then RecordRx(cfg, old(View()), now, key, receiver) else old(View())
    {
      hide Prune, FindTx, RxAdmitted, InsideCore, Added;
      if !RxAdmitted(cfg, nv, vn, now, key.vehicle, receiver) {
        return;
      }
      var tx := FindTxEvent(key);
      if tx == None || !InsideCore(cfg, pos) || receiver !in tx.value.eligible {
        return;
      }
      if Triple(key, receiver) in loggedTriples {
        return;
      }
      AppendRx(now, key, receiver);
      PruneOldEvents(now);
    }

    method AppendRx(now: int, key: TxKey, receiver: Vehicle)
      modifies `rxEvents, `loggedTriples, `lastRx
      ensures View() == Added(old(View()), now, key, receiver)
    {
      loggedTriples := loggedTriples + {Triple(key, receiver)};
      var link := Link(key.vehicle, receiver);
      var pir := None;
      if link in lastRx {
        pir := Some(now - lastRx[link]);
      }
      lastRx := lastRx[link := now];
      rxEvents := rxEvents + [RxEvent(now, key, receiver, pir)];
    }

    method FindTxEvent(key: TxKey) returns (r: Option<TxEvent>)
      ensures r == FindTx(txEvents, key)
      ensures r == None ==> forall e :: e in txEvents ==> e.key != key
      ensures r.Some? ==> exists i ::
          && 0 <= i < |txEvents| && txEvents[i] == r.value && r.value.key == key
          && forall j :: i < j < |txEvents| ==> txEvents[j].key != key
    {
      var i := |txEvents|;
      assert txEvents[..i] == txEvents;
      while i > 0
        invariant 0 <= i <= |txEvents| && FindTx(txEvents, key) == FindTx(txEvents[..i], key)
        invariant forall j :: i <= j < |txEvents| ==> txEvents[j].key != key
      {
        assert txEvents[..i][..i - 1] == txEvents[..i - 1];
        i := i - 1;
        if txEvents[i].key == key {
          return Some(txEvents[i]);
        }
      }
      r := None;
    }

    method PruneOldEvents(now: int)
      modifies `txEvents, `rxEvents, `loggedTriples
      ensures View() == Prune(old(View()), now - cfg.window)
    {
      hide Keys, PopTx, PopRx, DropDead;
      var cutoff := now - cfg.window;
      PopOldTx(cutoff);
      ghost var popped := View();
      var keys := ActiveKeys();
      PopOldRx(cutoff);
      ghost var front := View();
      RemoveDeadRx(keys);
      assert popped == PopTx(old(View()), cutoff) && keys == Keys(popped.tx);
      assert front == PopRx(popped, cutoff) && View() == DropDead(front, keys);
    }

    method PopOldTx(cutoff: int)
      modifies `txEvents
      ensures View() == PopTx(old(View()), cutoff)
    {
      ghost var n := 0;
      while txEvents != [] && txEvents[0].time < cutoff
        invariant n <= |old(txEvents)| && txEvents == old(txEvents)[n..]
        invariant Old(old(txEvents), TxTime, cutoff) == n + Old(txEvents, TxTime, cutoff)
        decreases |txEvents|
      {
        txEvents, n := txEvents[1..], n + 1;
      }
    }

    method ActiveKeys() returns (keys: set<TxKey>)
      ensures keys == Keys(txEvents)
    {
      keys := {};
      for i := 0 to |txEvents|
        invariant keys == Keys(txEvents[..i])
      {
        keys := keys + {txEvents[i].key};
        assert txEvents[..i + 1] == txEvents[..i] + [txEvents[i]];
      }
      assert txEvents[..|txEvents|] == txEvents;
    }

    method PopOldRx(cutoff: int)
      modifies `rxEvents, `loggedTriples
      ensures View() == PopRx(old(View()), cutoff)
    {
      ghost var n := 0;
      while rxEvents != [] && rxEvents[0].time < cutoff
        invariant n <= |old(rxEvents)| && rxEvents == old(rxEvents)[n..]
        invariant Old(old(rxEvents), RxTime, cutoff) == n + Old(rxEvents, RxTime, cutoff)
        invariant loggedTriples == old(loggedTriples) - Triples(old(rxEvents)[..n])
        decreases |rxEvents|
      {
        assert old(rxEvents)[..n + 1] == old(rxEvents)[..n] + [rxEvents[0]];
        loggedTriples := loggedTriples - {rxEvents[0].Delivery()};
        rxEvents, n := rxEvents[1..], n + 1;
      }
    }

    method RemoveDeadRx(keys: set<TxKey>)
      modifies `rxEvents, `loggedTriples
      ensures View() == DropDead(old(View()), keys)
    {
      var kept := [];
      for i := 0 to |rxEvents|
        invariant rxEvents == old(rxEvents)
        invariant kept == Live(rxEvents[..i], keys)
        invariant loggedTriples == old(loggedTriples) - DeadTriples(rxEvents[..i], keys)
      {
        assert rxEvents[..i + 1] == rxEvents[..i] + [rxEvents[i]];
        if rxEvents[i].key in keys {
          kept := kept + [rxEvents[i]];
        } else {
          loggedTriples := loggedTriples - {rxEvents[i].Delivery()};
        }
      }
      assert rxEvents[..|rxEvents|] == rxEvents;
      rxEvents := kept;
    }

    method TakeSample(now: int) returns (s: Sample)
      modifies this
      ensures View() == Prune(old(View()), now - cfg.window) && s == SampleOf(View(), now)
    {
      PruneOldEvents(now);
      var denom := CountEligible();
      var keys := ActiveKeys();
      var unique := UniqueSuccesses(keys);
      var pirSum, pirCount := PirTotals();
      s := Sample(now, |txEvents|, denom, |unique|, pirSum, pirCount);
    }

    method CountEligible() returns (denom: nat)
      ensures denom == EligibleSum(txEvents)
    {
      denom := 0;
      for i := 0 to |txEvents|
        invariant denom == EligibleSum(txEvents[..i])
      {
        assert txEvents[..i + 1][..i] == txEvents[..i];
        denom := denom + |txEvents[i].eligible|;
      }
      assert txEvents[..|txEvents|] == txEvents;
    }

    method UniqueSuccesses(keys: set<TxKey>) returns (unique: set<Triple>)
      ensures unique == Successes(rxEvents, keys)
    {
      unique := {};
      for i := 0 to |rxEvents|
        invariant unique == Successes(rxEvents[..i], keys)
      {
        assert rxEvents[..i + 1] == rxEvents[..i] + [rxEvents[i]];
        if rxEvents[i].key in keys {
          unique := unique + {rxEvents[i].Delivery()};
        }
      }
      assert rxEvents[..|rxEvents|] == rxEvents;
    }

    method PirTotals() returns (sum: int, count: nat)
      ensures sum == PirSum(rxEvents) && count == PirCount(rxEvents)
    {
      sum, count := 0, 0;
      for i := 0 to |rxEvents|
        invariant sum == PirSum(rxEvents[..i]) && count == PirCount(rxEvents[..i])
      {
        assert rxEvents[..i + 1][..i] == rxEvents[..i];
        if rxEvents[i].pir.Some? {
          sum, count := sum + rxEvents[i].pir.value, count + 1;
        }
      }
      assert rxEvents[..|rxEvents|] == rxEvents;
    }
  }

  method EligibleReceivers(cfg: Config, nodes: seq<Node>, nv: map<Node, Vehicle>, at: Node -> Vec, v: Vehicle,
      n: Node, pos: Vec)
    returns (eligible: set<Vehicle>)
    ensures forall r :: r in eligible <==> exists m :: m in nodes && Hears(cfg, nv, at, v, n, pos, m) && nv[m] == r
  {
    eligible := {};
    for i := 0 to |nodes|
      invariant forall r :: r in eligible <==> exists m :: m in nodes[..i] && Hears(cfg, nv, at, v, n, pos, m) && nv[m] == r
    {
      var m := nodes[i];
      assert nodes[..i + 1] == nodes[..i] + [m];
      if m == n || m !in nv || nv[m] == v || !InsideCore(cfg, at(m)) {
        continue;
      }
      if InRange(cfg, pos, at(m)) {
        eligible := eligible + {nv[m]};
      }
    }
    assert nodes[..|nodes|] == nodes;
  }
}
