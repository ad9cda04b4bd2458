/**
  The pruned log against a logger that never forgets: what the deques hold
  after every step, and why a sample never counts more successes than
  eligible receptions.
 */
module KpiRefinement {
  import opened Prelude
  import opened Mobility
  import opened Pool
  import opened KpiLog

  // ----- The unbounded logger -----

  datatype Reception = Reception(time: int, key: TxKey, receiver: Vehicle)

  /** Every transmission logged, and the first eligible reception of every triple. */
  datatype History = History(sent: seq<TxEvent>, first: seq<Reception>)

  ghost predicate WasEligible(sent: seq<TxEvent>, key: TxKey, receiver: Vehicle) {
    exists e :: e in sent && e.key == key && receiver in e.eligible
  }

  ghost predicate Seen(first: seq<Reception>, key: TxKey, receiver: Vehicle) {
    exists r :: r in first && r.key == key && r.receiver == receiver
  }

  ghost function Sends(h: History, now: int, key: TxKey, eligible: set<Vehicle>): History {
    h.(sent := h.sent + [TxEvent(now, key, eligible)])
  }

  ghost function Receives(h: History, now: int, key: TxKey, receiver: Vehicle): History {
    if WasEligible(h.sent, key, receiver) && !Seen(h.first, key, receiver)
    then h.(first := h.first + [Reception(now, key, receiver)]) else h
  }

  /** Time-ordered transmissions with unique keys; each triple received at most once, not before it was sent. */
  ghost predicate HistoryOk(h: History, now: int) {
    && (forall i, j :: 0 <= i < j < |h.sent| ==> h.sent[i].time <= h.sent[j].time)
    && (forall i, j :: 0 <= i < j < |h.sent| ==> h.sent[i].key != h.sent[j].key)
    && (forall e :: e in h.sent ==> e.time <= now)
    && (forall i, j :: 0 <= i < j < |h.first| ==>
          h.first[i].key != h.first[j].key || h.first[i].receiver != h.first[j].receiver)
    && (forall r :: r in h.first ==> WasEligible(h.sent, r.key, r.receiver))
    && (forall r, e :: r in h.first && e in h.sent && e.key == r.key ==> e.time <= r.time)
  }

  // ----- The window -----

  ghost function InWindow(sent: seq<TxEvent>, cutoff: int): seq<TxEvent> {
    if sent == [] then []
    else
      var last := sent[|sent| - 1];
      InWindow(sent[..|sent| - 1], cutoff) + if last.time >= cutoff then [last] else []
  }

  ghost function LiveReceptions(first: seq<Reception>, keys: set<TxKey>): seq<Reception> {
    if first == [] then []
    else
      var last := first[|first| - 1];
      LiveReceptions(first[..|first| - 1], keys) + if last.key in keys then [last] else []
  }

  ghost function Projected(rx: seq<RxEvent>): seq<Reception> {
    seq(|rx|, i requires 0 <= i < |rx| => Reception(rx[i].time, rx[i].key, rx[i].receiver))
  }

  /**
    The deques hold exactly the logged transmissions inside the window and
    the first receptions of those, and the triple set is theirs.
   */
  ghost predicate Refines(log: Log, h: History, cutoff: int) {
    && log.tx == InWindow(h.sent, cutoff)
    && Projected(log.rx) == LiveReceptions(h.first, Keys(log.tx))
    && log.triples == Triples(log.rx)
  }

  lemma {:induction false} InWindowMembers(sent: seq<TxEvent>, cutoff: int)
    ensures forall e :: e in InWindow(sent, cutoff) <==> e in sent && e.time >= cutoff
  {
    if sent != [] {
      InWindowMembers(sent[..|sent| - 1], cutoff);
      assert sent == sent[..|sent| - 1] + [sent[|sent| - 1]];
    }
  }

  lemma {:induction false} LiveReceptionMembers(first: seq<Reception>, keys: set<TxKey>)
    ensures forall r :: r in LiveReceptions(first, keys) <==> r in first && r.key in keys
  {
    if first != [] {
      LiveReceptionMembers(first[..|first| - 1], keys);
      assert first == first[..|first| - 1] + [first[|first| - 1]];
    }
  }

  lemma {:induction false} LiveMembers(rx: seq<RxEvent>, keys: set<TxKey>)
    ensures forall e :: e in Live(rx, keys) <==> e in rx && e.key in keys
  {
    if rx != [] {
      LiveMembers(rx[..|rx| - 1], keys);
      assert rx == rx[..|rx| - 1] + [rx[|rx| - 1]];
    }
  }

  /** A later window is a window of the earlier one. */
  lemma {:induction false} WindowOfWindow(sent: seq<TxEvent>, c: int, c': int)
    requires c <= c'
    ensures InWindow(InWindow(sent, c), c') == InWindow(sent, c')
  {
    if sent != [] {
      var init, last := sent[..|sent| - 1], sent[|sent| - 1];
      WindowOfWindow(init, c, c');
      if last.time >= c {
        assert (InWindow(init, c) + [last])[..|InWindow(init, c)|] == InWindow(init, c);
      } else {
        assert InWindow(sent, c) == InWindow(init, c);
      }
    }
  }

  /** Dropping the old front of a time-ordered deque leaves exactly the window. */
  lemma {:induction false} FrontPopsAreWindow(tx: seq<TxEvent>, cutoff: int)
    requires forall i, j :: 0 <= i < j < |tx| ==> tx[i].time <= tx[j].time
    ensures tx[Old(tx, TxTime, cutoff)..] == InWindow(tx, cutoff)
  {
    if tx == [] {
    } else if tx[0].time < cutoff {
      FrontPopsAreWindow(tx[1..], cutoff);
      assert tx[1 + Old(tx[1..], TxTime, cutoff)..] == tx[1..][Old(tx[1..], TxTime, cutoff)..];
      WindowSkipsOld(tx, cutoff);
    } else {
      WindowKeepsAll(tx, cutoff);
    }
  }

  lemma {:induction false} WindowSkipsOld(tx: seq<TxEvent>, cutoff: int)
    requires tx != [] && tx[0].time < cutoff
    ensures InWindow(tx, cutoff) == InWindow(tx[1..], cutoff)
  {
    if |tx| > 1 {
      var init := tx[..|tx| - 1];
      WindowSkipsOld(init, cutoff);
      assert tx[1..][..|tx| - 2] == init[1..];
    }
  }

  lemma {:induction false} WindowKeepsAll(tx: seq<TxEvent>, cutoff: int)
    requires forall e :: e in tx ==> e.time >= cutoff
    ensures InWindow(tx, cutoff) == tx
  {
    if tx != [] {
      var init, last := tx[..|tx| - 1], tx[|tx| - 1];
      assert tx == init + [last];
      WindowKeepsAll(init, cutoff);
      assert last in tx;
    }
  }

  lemma {:induction false} WindowKeepsOrder(sent: seq<TxEvent>, cutoff: int)
    requires forall i, j :: 0 <= i < j < |sent| ==> sent[i].time <= sent[j].time
    ensures forall i, j :: 0 <= i < j < |InWindow(sent, cutoff)| ==>
              InWindow(sent, cutoff)[i].time <= InWindow(sent, cutoff)[j].time
  {
    if sent != [] {
      var init, last := sent[..|sent| - 1], sent[|sent| - 1];
      WindowKeepsOrder(init, cutoff);
      InWindowMembers(init, cutoff);
      assert forall i :: 0 <= i < |InWindow(init, cutoff)| ==> InWindow(init, cutoff)[i] in init;
    }
  }

  lemma {:induction false} ProjectionOfLive(rx: seq<RxEvent>, keys: set<TxKey>)
    ensures Projected(Live(rx, keys)) == LiveReceptions(Projected(rx), keys)
  {
    if rx != [] {
      var init := rx[..|rx| - 1];
      ProjectionOfLive(init, keys);
      assert Projected(rx)[..|rx| - 1] == Projected(init);
    }
  }

  lemma {:induction false} LiveOfLive(first: seq<Reception>, keys: set<TxKey>, keys': set<TxKey>)
    requires keys' <= keys
    ensures LiveReceptions(LiveReceptions(first, keys), keys') == LiveReceptions(first, keys')
  {
    if first != [] {
      var init, last := first[..|first| - 1], first[|first| - 1];
      LiveOfLive(init, keys, keys');
      if last.key in keys {
        assert (LiveReceptions(init, keys) + [last])[..|LiveReceptions(init, keys)|] == LiveReceptions(init, keys);
      } else {
        assert LiveReceptions(first, keys) == LiveReceptions(init, keys);
      }
    }
  }

  /** Popping receptions that are dead anyway changes nothing after the dead ones are removed. */
  lemma {:induction false} LiveSkipsDead(rx: seq<RxEvent>, n: nat, keys: set<TxKey>)
    requires n <= |rx| && forall i :: 0 <= i < n ==> rx[i].key !in keys
    ensures Live(rx[n..], keys) == Live(rx, keys)
  {
    if |rx| == n {
      AllDead(rx, keys);
    } else {
      var init := rx[..|rx| - 1];
      LiveSkipsDead(init, n, keys);
      assert rx[n..][..|rx| - n - 1] == init[n..];
    }
  }

  lemma {:induction false} AllDead(rx: seq<RxEvent>, keys: set<TxKey>)
    requires forall i :: 0 <= i < |rx| ==> rx[i].key !in keys
    ensures Live(rx, keys) == []
  {
    if rx != [] {
      AllDead(rx[..|rx| - 1], keys);
    }
  }

  lemma LoggedRx(log: Log, h: History, now: int, cutoff: int, e: RxEvent)
    requires HistoryOk(h, now) && Refines(log, h, cutoff) && e in log.rx
    ensures Reception(e.time, e.key, e.receiver) in h.first && e.key in Keys(log.tx)
  {
    var i :| 0 <= i < |log.rx| && log.rx[i] == e;
    assert Projected(log.rx)[i] == Reception(e.time, e.key, e.receiver);
    LiveReceptionMembers(h.first, Keys(log.tx));
  }

  lemma KeysShrink(sent: seq<TxEvent>, c: int, c': int)
    requires c <= c'
    ensures Keys(InWindow(sent, c')) <= Keys(InWindow(sent, c)) <= Keys(sent)
  {
    InWindowMembers(sent, c);
    InWindowMembers(sent, c');
  }

  /** A reception older than the cutoff belongs to a transmission outside the window. */
  lemma OldReceptionIsDead(log: Log, h: History, now: int, c: int, c': int, e: RxEvent)
    requires HistoryOk(h, now) && Refines(log, h, c) && e in log.rx && e.time < c'
    ensures e.key !in Keys(InWindow(h.sent, c'))
  {
    LoggedRx(log, h, now, c, e);
    InWindowMembers(h.sent, c');
  }

  lemma PrunedTriples(triples: set<Triple>, rx: seq<RxEvent>, n: nat, keys: set<TxKey>)
    requires triples == Triples(rx) && n <= |rx| && forall i :: 0 <= i < n ==> rx[i].key !in keys
    ensures triples - Triples(rx[..n]) - DeadTriples(rx[n..], keys) == Triples(Live(rx, keys))
  {
    LiveMembers(rx, keys);
    assert rx == rx[..n] + rx[n..];
    var kept := triples - Triples(rx[..n]) - DeadTriples(rx[n..], keys);
    forall t ensures t in kept <==> t in Triples(Live(rx, keys)) {
      if t in Triples(Live(rx, keys)) {
        var e :| e in rx && e.key in keys && e.Delivery() == t;
        assert t !in Triples(rx[..n]) && t !in DeadTriples(rx[n..], keys);
      }
    }
  }

  /** Pruning at a later cutoff moves the log to the later window. */
  lemma PruneRefines(log: Log, h: History, now: int, c: int, c': int)
    requires HistoryOk(h, now) && Refines(log, h, c) && c <= c'
    ensures Refines(Prune(log, c'), h, c')
  {
    var tx' := log.tx[Old(log.tx, TxTime, c')..];
    WindowKeepsOrder(h.sent, c);
    FrontPopsAreWindow(log.tx, c');
    WindowOfWindow(h.sent, c, c');
    var keys, n := Keys(tx'), Old(log.rx, RxTime, c');
    forall i | 0 <= i < n ensures log.rx[i].key !in keys {
      OldReceptionIsDead(log, h, now, c, c', log.rx[i]);
    }
    LiveSkipsDead(log.rx, n, keys);
    ProjectionOfLive(log.rx, keys);
    KeysShrink(h.sent, c, c');
    LiveOfLive(h.first, Keys(log.tx), keys);
    PrunedTriples(log.triples, log.rx, n, keys);
    assert Prune(log, c').tx == tx' && Prune(log, c').rx == Live(log.rx, keys);
  }

  // ----- Transmissions -----

  lemma SendKeepsHistory(h: History, now: int, key: TxKey, eligible: set<Vehicle>)
    requires HistoryOk(h, now) && key !in Keys(h.sent)
    ensures HistoryOk(Sends(h, now, key, eligible), now)
  {
    var h' := Sends(h, now, key, eligible);
    forall r | r in h'.first ensures WasEligible(h'.sent, r.key, r.receiver) && r.key != key {
      var e :| e in h.sent && e.key == r.key && r.receiver in e.eligible;
      assert e in h'.sent && e.key in Keys(h.sent);
    }
    forall e | e in h.sent ensures e.key != key {
      assert e.key in Keys(h.sent);
    }
    assert forall i :: 0 <= i < |h.sent| ==> h.sent[i] in h.sent;
  }

  lemma NewKeyIsNotLive(first: seq<Reception>, keys: set<TxKey>, key: TxKey)
    requires forall r :: r in first ==> r.key != key
    ensures LiveReceptions(first, keys + {key}) == LiveReceptions(first, keys)
  {
  }

  lemma SentRefines(log: Log, h: History, now: int, c: int, key: TxKey, eligible: set<Vehicle>)
    requires HistoryOk(h, now) && Refines(log, h, c) && key !in Keys(h.sent) && c <= now
    ensures Refines(log.(tx := log.tx + [TxEvent(now, key, eligible)]), Sends(h, now, key, eligible), c)
  {
    var e, h' := TxEvent(now, key, eligible), Sends(h, now, key, eligible);
    assert h'.sent[..|h'.sent| - 1] == h.sent;
    assert Keys(log.tx + [e]) == Keys(log.tx) + {key};
    forall r | r in h.first ensures r.key != key {
      var e :| e in h.sent && e.key == r.key;
      assert e.key in Keys(h.sent);
    }
    NewKeyIsNotLive(h.first, Keys(log.tx), key);
  }

  /** Logging a fresh transmission keeps the log the window of the history. */
  lemma TxRefines(cfg: Config, log: Log, h: History, now: int, c: int, key: TxKey, eligible: set<Vehicle>)
    requires HistoryOk(h, now) && Refines(log, h, c) && key !in Keys(h.sent)
    requires c <= now - cfg.window <= now
    ensures HistoryOk(Sends(h, now, key, eligible), now)
    ensures Refines(RecordTx(cfg, log, now, key, eligible), Sends(h, now, key, eligible), now - cfg.window)
  {
    hide Prune, Refines, HistoryOk, Keys;
    SendKeepsHistory(h, now, key, eligible);
    SentRefines(log, h, now, c, key, eligible);
    PruneRefines(log.(tx := log.tx + [TxEvent(now, key, eligible)]), Sends(h, now, key, eligible), now, c, now - cfg.window);
  }

  // ----- Receptions -----

  /** Unique keys: the transmission found is the one every other definition talks about. */
  lemma FindIsUnique(log: Log, h: History, now: int, c: int, key: TxKey, receiver: Vehicle)
    requires HistoryOk(h, now) && Refines(log, h, c) && key in Keys(log.tx)
    ensures FindTx(log.tx, key).Some?
    ensures receiver in FindTx(log.tx, key).value.eligible <==> WasEligible(h.sent, key, receiver)
  {
    InWindowMembers(h.sent, c);
    var e := FindTx(log.tx, key).value;
    assert e in h.sent;
    if e' :| e' in h.sent && e'.key == key && receiver in e'.eligible {
      assert e' == e;
    }
  }

  lemma TripleIsSeen(log: Log, h: History, now: int, c: int, key: TxKey, receiver: Vehicle)
    requires HistoryOk(h, now) && Refines(log, h, c) && key in Keys(log.tx)
    ensures Triple(key, receiver) in log.triples <==> Seen(h.first, key, receiver)
  {
    if Triple(key, receiver) in log.triples {
      var e :| e in log.rx && e.Delivery() == Triple(key, receiver);
      LoggedRx(log, h, now, c, e);
    }
    if r :| r in h.first && r.key == key && r.receiver == receiver {
      LiveReceptionMembers(h.first, Keys(log.tx));
      var i :| 0 <= i < |log.rx| && Projected(log.rx)[i] == r;
      assert log.rx[i].Delivery() == Triple(key, receiver);
    }
  }

  /**
    While the transmission is in the window the pruned log accepts exactly what the unbounded logger
    accepts; afterwards nothing.
   */
  lemma AcceptsIff(log: Log, h: History, now: int, c: int, key: TxKey, receiver: Vehicle)
    requires HistoryOk(h, now) && Refines(log, h, c)
    ensures Accepts(log, key, receiver)
      <==> key in Keys(InWindow(h.sent, c)) && WasEligible(h.sent, key, receiver) && !Seen(h.first, key, receiver)
  {
    if key in Keys(log.tx) {
      FindIsUnique(log, h, now, c, key, receiver);
      TripleIsSeen(log, h, now, c, key, receiver);
    }
  }

  lemma ReceiveKeepsHistory(h: History, now: int, key: TxKey, receiver: Vehicle)
    requires HistoryOk(h, now)
    ensures HistoryOk(Receives(h, now, key, receiver), now)
  {
    assert forall i :: 0 <= i < |h.first| ==> h.first[i] in h.first;
  }

  /** A reception attempt keeps the log the window of the history; no triple is ever accepted twice. */
  lemma RxRefines(cfg: Config, log: Log, h: History, now: int, c: int, key: TxKey, receiver: Vehicle)
    requires HistoryOk(h, now) && Refines(log, h, c) && c <= now - cfg.window
    ensures Accepts(log, key, receiver) ==>
              !Seen(h.first, key, receiver) && Seen(Receives(h, now, key, receiver).first, key, receiver)
    ensures Refines(RecordRx(cfg, log, now, key, receiver), Receives(h, now, key, receiver),
                    if Accepts(log, key, receiver) then now - cfg.window else c)
  {
    hide Prune, Refines, HistoryOk, Keys, Seen, WasEligible, Accepts, Receives;
    AcceptsIff(log, h, now, c, key, receiver);
    if Accepts(log, key, receiver) {
      ReceiveKeepsHistory(h, now, key, receiver);
      AddedRefines(log, h, now, c, key, receiver);
      PruneRefines(Added(log, now, key, receiver), Receives(h, now, key, receiver), now, c, now - cfg.window);
    } else {
      RejectedRefines(log, h, now, c, key, receiver);
    }
  }

  lemma RejectedRefines(log: Log, h: History, now: int, c: int, key: TxKey, receiver: Vehicle)
    requires HistoryOk(h, now) && Refines(log, h, c) && !Accepts(log, key, receiver)
    ensures Refines(log, Receives(h, now, key, receiver), c)
  {
    var h' := Receives(h, now, key, receiver);
    AcceptsIff(log, h, now, c, key, receiver);
    if h' != h {
      assert h'.first[..|h'.first| - 1] == h.first;
      assert LiveReceptions(h'.first, Keys(log.tx)) == LiveReceptions(h.first, Keys(log.tx));
    }
  }

  lemma AddedRefines(log: Log, h: History, now: int, c: int, key: TxKey, receiver: Vehicle)
    requires HistoryOk(h, now) && Refines(log, h, c) && Accepts(log, key, receiver)
    ensures Refines(Added(log, now, key, receiver), Receives(h, now, key, receiver), c)
    ensures Seen(Receives(h, now, key, receiver).first, key, receiver)
  {
    var log', h' := Added(log, now, key, receiver), Receives(h, now, key, receiver);
    AcceptsIff(log, h, now, c, key, receiver);
    var e := log'.rx[|log.rx|];
    assert log'.rx == log.rx + [e] && h'.first == h.first + [Reception(now, key, receiver)];
    assert h'.first[..|h'.first| - 1] == h.first && h'.first[|h.first|] in h'.first;
    assert Projected(log'.rx) == Projected(log.rx) + [Reception(now, key, receiver)];
    assert Triples(log'.rx) == Triples(log.rx) + {e.Delivery()};
  }

  // ----- The reception ratio -----

  /** Every reception whose transmission is listed has a listed transmission it was eligible for. */
  ghost predicate Covered(log: Log) {
    forall e :: e in log.rx && e.key in Keys(log.tx) ==> WasEligible(log.tx, e.key, e.receiver)
  }

  ghost function Deliverable(e: TxEvent): set<Triple> {
    set r | r in e.eligible :: Triple(e.key, r)
  }

  ghost function AllDeliverable(tx: seq<TxEvent>): set<Triple> {
    if tx == [] then {} else AllDeliverable(tx[..|tx| - 1]) + Deliverable(tx[|tx| - 1])
  }

  lemma {:induction false} DeliverableCardinality(key: TxKey, time: int, eligible: set<Vehicle>)
    ensures |Deliverable(TxEvent(time, key, eligible))| == |eligible|
  {
    if eligible == {} {
      assert Deliverable(TxEvent(time, key, eligible)) == {};
    } else {
      var r :| r in eligible;
      DeliverableCardinality(key, time, eligible - {r});
      assert Deliverable(TxEvent(time, key, eligible)) == Deliverable(TxEvent(time, key, eligible - {r})) + {Triple(key, r)};
    }
  }

  lemma {:induction false} AllDeliverableBound(tx: seq<TxEvent>)
    ensures |AllDeliverable(tx)| <= EligibleSum(tx)
    ensures forall k, r :: WasEligible(tx, k, r) ==> Triple(k, r) in AllDeliverable(tx)
  {
    if tx != [] {
      var init, last := tx[..|tx| - 1], tx[|tx| - 1];
      AllDeliverableBound(init);
      DeliverableCardinality(last.key, last.time, last.eligible);
      assert tx == init + [last];
      UnionBound(AllDeliverable(init), Deliverable(last));
      forall k, r | WasEligible(tx, k, r) ensures Triple(k, r) in AllDeliverable(tx) {
        var e :| e in tx && e.key == k && r in e.eligible;
        if e in init {
          assert WasEligible(init, k, r);
        }
      }
    }
  }

  /** Every message and every vehicle that should hear it. */
  ghost function Owed(tx: seq<TxEvent>): set<Triple> {
    set e, r | e in tx && r in e.eligible :: Triple(e.key, r)
  }

  lemma OwedGrows(init: seq<TxEvent>, last: TxEvent)
    requires forall e :: e in init ==> e.key != last.key
    ensures Owed(init + [last]) == Owed(init) + Deliverable(last) && Owed(init) !! Deliverable(last)
  {
    forall t ensures t in Owed(init + [last]) <==> t in Owed(init) || t in Deliverable(last) {
      if t in Owed(init + [last]) {
        var e :| e in init + [last] && t.receiver in e.eligible && t == Triple(e.key, t.receiver);
        assert e in init || e == last;
      }
    }
  }

  /** With pairwise different keys the denominator of the ratio counts exactly the deliveries that are due. */
  lemma {:induction false} EligibleSumIsOwed(tx: seq<TxEvent>)
    requires forall i, j :: 0 <= i < j < |tx| ==> tx[i].key != tx[j].key
    ensures EligibleSum(tx) == |Owed(tx)|
  {
    hide Owed, Deliverable;
    if tx == [] {
      NothingOwed();
    } else {
      var init, last := tx[..|tx| - 1], tx[|tx| - 1];
      assert tx == init + [last];
      EligibleSumIsOwed(init);
      DeliverableCardinality(last.key, last.time, last.eligible);
      OwedGrows(init, last);
    }
  }

  lemma NothingOwed()
    ensures Owed([]) == {}
  {
  }

  lemma UnionBound<T>(a: set<T>, b: set<T>)
    ensures |a + b| <= |a| + |b|
  {
    assert a + b == a + (b - a);
    SubsetCardinality(b - a, b);
  }

  /** A sample over a covered log never counts more successes than eligible receptions. */
  lemma SuccessesAreEligible(log: Log, now: int)
    requires Covered(log)
    ensures SampleOf(log, now).successCount <= SampleOf(log, now).eligibleCount
  {
    AllDeliverableBound(log.tx);
    var successes := Successes(log.rx, Keys(log.tx));
    forall t | t in successes ensures t in AllDeliverable(log.tx) {
      var e :| e in log.rx && e.key in Keys(log.tx) && e.Delivery() == t;
      assert WasEligible(log.tx, e.key, e.receiver);
    }
    SubsetCardinality(successes, AllDeliverable(log.tx));
  }

  lemma RefinementIsCovered(log: Log, h: History, now: int, c: int)
    requires HistoryOk(h, now) && Refines(log, h, c)
    ensures Covered(log)
  {
    forall e | e in log.rx && e.key in Keys(log.tx) ensures WasEligible(log.tx, e.key, e.receiver) {
      LoggedRx(log, h, now, c, e);
      FindIsUnique(log, h, now, c, e.key, e.receiver);
      var tx := FindTx(log.tx, e.key).value;
      assert tx in log.tx && e.receiver in tx.eligible;
    }
  }

  /** The ratio that is written gives the successes among the eligible receptions, and is at most 1 if these are more. */
  lemma RatioRange(s: Sample)
    ensures s.Prr() * s.eligibleCount as real == if s.eligibleCount > 0 then s.successCount as real else 0.0
    ensures s.eligibleCount == 0 ==> s.Prr() == 0.0
    ensures 0.0 <= s.Prr()
    ensures s.Prr() <= 1.0 <==> s.successCount <= s.eligibleCount || s.eligibleCount == 0
  {
    if s.eligibleCount > 0 {
      var n, d := s.successCount as real, s.eligibleCount as real;
      assert s.Prr() * d == n;
      if s.Prr() <= 1.0 {
        assert s.Prr() * d <= 1.0 * d;
      }
    }
  }

  // ----- Reception intervals -----

  ghost function LinkOf(e: RxEvent): Link {
    Link(e.key.vehicle, e.receiver)
  }

  /** The time of the latest of these receptions on a link. */
  ghost function LatestOf(heard: seq<RxEvent>, link: Link): Option<int> {
    if heard == [] then None
    else
      var e := heard[|heard| - 1];
      if LinkOf(e) == link then Some(e.time) else LatestOf(heard[..|heard| - 1], link)
  }

  /** Reception `j` is the last one on the link of reception `i` before it. */
  ghost predicate IsPrevious(heard: seq<RxEvent>, j: nat, i: nat) {
    && j < i < |heard| && LinkOf(heard[j]) == LinkOf(heard[i])
    && forall k :: j < k < i ==> LinkOf(heard[k]) != LinkOf(heard[i])
  }

  /** The interval of reception `i` is the time since the one before it on the same link, if there is one. */
  ghost predicate IntervalAt(heard: seq<RxEvent>, i: nat)
    requires i < |heard|
  {
    match heard[i].pir
    case None => forall j :: 0 <= j < i ==> LinkOf(heard[j]) != LinkOf(heard[i])
    case Some(gap) => exists j: nat :: IsPrevious(heard, j, i) && gap == heard[i].time - heard[j].time
  }

  lemma {:induction false} LatestMeans(heard: seq<RxEvent>, link: Link) returns (j: nat)
    ensures LatestOf(heard, link) == None ==> forall k :: 0 <= k < |heard| ==> LinkOf(heard[k]) != link
    ensures LatestOf(heard, link).Some? ==>
        && j < |heard| && LinkOf(heard[j]) == link && Some(heard[j].time) == LatestOf(heard, link)
        && forall k :: j < k < |heard| ==> LinkOf(heard[k]) != link
  {
    j := 0;
    if heard != [] {
      var e := heard[|heard| - 1];
      if LinkOf(e) == link {
        j := |heard| - 1;
      } else {
        j := LatestMeans(heard[..|heard| - 1], link);
      }
    }
  }

  /** An interval taken from the latest earlier reception on the link is right. */
  lemma LatestIsInterval(heard: seq<RxEvent>, i: nat)
    requires i < |heard|
    requires heard[i].pir == match LatestOf(heard[..i], LinkOf(heard[i]))
                             case None => None
                             case Some(t) => Some(heard[i].time - t)
    ensures IntervalAt(heard, i)
  {
    var j := LatestMeans(heard[..i], LinkOf(heard[i]));
    if heard[i].pir.Some? {
      assert IsPrevious(heard, j, i);
    }
  }

  /**
    `heard` are all receptions ever logged: the last-reception map is theirs, every interval is right,
    and the deque holds some of them.
   */
  ghost predicate Paced(rx: seq<RxEvent>, lastRx: map<Link, int>, heard: seq<RxEvent>) {
    && (forall link :: Lookup(lastRx, link) == LatestOf(heard, link))
    && (forall i :: 0 <= i < |heard| ==> IntervalAt(heard, i))
    && (forall e :: e in rx ==> e in heard)
  }

  lemma PruneKeepsPaced(log: Log, cutoff: int, heard: seq<RxEvent>)
    requires Paced(log.rx, log.lastRx, heard)
    ensures Paced(Prune(log, cutoff).rx, Prune(log, cutoff).lastRx, heard)
  {
    var popped := PopRx(PopTx(log, cutoff), cutoff);
    LiveMembers(popped.rx, Keys(popped.tx));
    assert forall e :: e in popped.rx ==> e in log.rx;
    assert Prune(log, cutoff).lastRx == log.lastRx;
  }

  lemma EarlierInterval(heard: seq<RxEvent>, e: RxEvent, i: nat)
    requires i < |heard| && IntervalAt(heard, i)
    ensures IntervalAt(heard + [e], i)
  {
    if heard[i].pir.Some? {
      var j: nat :| IsPrevious(heard, j, i) && heard[i].pir.value == heard[i].time - heard[j].time;
      assert IsPrevious(heard + [e], j, i);
    }
  }

  lemma AddedKeepsPaced(log: Log, now: int, key: TxKey, receiver: Vehicle, heard: seq<RxEvent>)
    requires Paced(log.rx, log.lastRx, heard)
    ensures var a := Added(log, now, key, receiver);
      |a.rx| == |log.rx| + 1 && Paced(a.rx, a.lastRx, heard + [a.rx[|log.rx|]])
  {
    hide IntervalAt;
    var a := Added(log, now, key, receiver);
    var e, heard' := a.rx[|log.rx|], heard + [a.rx[|log.rx|]];
    assert heard'[..|heard|] == heard;
    forall i | 0 <= i < |heard'| ensures IntervalAt(heard', i) {
      if i < |heard| {
        EarlierInterval(heard, e, i);
      } else {
        assert Lookup(log.lastRx, LinkOf(e)) == LatestOf(heard, LinkOf(e));
        LatestIsInterval(heard', i);
      }
    }
    forall link ensures Lookup(a.lastRx, link) == LatestOf(heard', link) {
      assert Lookup(log.lastRx, link) == LatestOf(heard, link);
    }
  }

  // ----- Unique keys are needed -----

  const SENDER := Vehicle(1)
  const NEAR := Vehicle(2)
  const FAR := Vehicle(3)
  const REPEATED := TxKey(SENDER, 0)
  const SENT := TxEvent(0, REPEATED, {NEAR})
  const AGAIN := TxEvent(5, REPEATED, {FAR})
  const GOT_NEAR := RxEvent(1, REPEATED, NEAR, None)
  const GOT_FAR := RxEvent(6, REPEATED, FAR, None)
  const AFTER_SEND := Log([SENT], [], {}, map[])
  const AFTER_NEAR := Log([SENT], [GOT_NEAR], {GOT_NEAR.Delivery()}, map[Link(SENDER, NEAR) := 1])
  const AFTER_REPEAT := AFTER_NEAR.(tx := [SENT, AGAIN])
  const AFTER_FAR := Log([SENT, AGAIN], [GOT_NEAR, GOT_FAR], {GOT_NEAR.Delivery(), GOT_FAR.Delivery()},
                         map[Link(SENDER, NEAR) := 1, Link(SENDER, FAR) := 6])

  lemma KeysOfRun()
    ensures Keys([SENT]) == Keys([AGAIN]) == Keys([SENT, AGAIN]) == {REPEATED}
  {
    assert SENT in [SENT] && AGAIN in [AGAIN] && SENT in [SENT, AGAIN];
  }

  /** A vehicle sends number 0 twice, with different vehicles in range. */
  lemma RepeatedKeyRun(cfg: Config)
    requires cfg.window == 10
    ensures RecordTx(cfg, Log([], [], {}, map[]), 0, REPEATED, {NEAR}) == AFTER_SEND
    ensures RecordRx(cfg, AFTER_SEND, 1, REPEATED, NEAR) == AFTER_NEAR
    ensures RecordTx(cfg, AFTER_NEAR, 5, REPEATED, {FAR}) == AFTER_REPEAT
    ensures RecordRx(cfg, AFTER_REPEAT, 6, REPEATED, FAR) == AFTER_FAR
  {
    hide Prune, Keys;
    KeysOfRun();
    assert [] + [SENT] == [SENT] && [SENT] + [AGAIN] == [SENT, AGAIN] && [GOT_NEAR] + [GOT_FAR] == [GOT_NEAR, GOT_FAR];
    NothingToPrune(AFTER_SEND, -10);
    NothingToPrune(AFTER_NEAR, -9);
    NothingToPrune(AFTER_REPEAT, -5);
    NothingToPrune(AFTER_FAR, -4);
    assert Added(AFTER_SEND, 1, REPEATED, NEAR) == AFTER_NEAR by {
      assert [] + [GOT_NEAR] == [GOT_NEAR];
    }
    assert Added(AFTER_REPEAT, 6, REPEATED, FAR) == AFTER_FAR;
  }

  lemma FirstSendIsOld()
    ensures PopTx(AFTER_FAR, 1) == AFTER_FAR.(tx := [AGAIN])
    ensures PopTx(AFTER_FAR.(tx := [AGAIN]), 1) == AFTER_FAR.(tx := [AGAIN])
  {
    assert [SENT, AGAIN][1..] == [AGAIN] && [AGAIN][0..] == [AGAIN];
    assert Old([AGAIN], TxTime, 1) == 0 && Old([SENT, AGAIN], TxTime, 1) == 1;
  }

  lemma BothAreSuccesses()
    ensures Successes(AFTER_FAR.rx, {REPEATED}) == {GOT_NEAR.Delivery(), GOT_FAR.Delivery()}
  {
    assert GOT_NEAR in AFTER_FAR.rx && GOT_FAR in AFTER_FAR.rx;
  }

  lemma OneEligible()
    ensures EligibleSum([AGAIN]) == 1
  {
    assert [AGAIN][..0] == [];
  }

  /** The sample taken at the end of that run writes a ratio of two. */
  lemma RepeatedKeyBreaksRatio(cfg: Config)
    requires cfg.window == 10
    ensures SampleOf(Prune(AFTER_FAR, 11 - cfg.window), 11).Prr() == 2.0
  {
    hide Keys, Successes, EligibleSum, PopTx, PopRx, DropDead, PirSum, PirCount;
    var log := AFTER_FAR.(tx := [AGAIN]);
    KeysOfRun();
    FirstSendIsOld();
    assert Prune(AFTER_FAR, 1) == Prune(log, 1);
    NothingToPrune(log, 1);
    OneEligible();
    BothAreSuccesses();
  }

  lemma NothingToPrune(log: Log, cutoff: int)
    requires forall e :: e in log.tx ==> cutoff <= e.time
    requires forall e :: e in log.rx ==> cutoff <= e.time && e.key in Keys(log.tx)
    ensures Prune(log, cutoff) == log
  {
    assert Old(log.tx, TxTime, cutoff) == 0 && Old(log.rx, RxTime, cutoff) == 0;
    assert log.tx[0..] == log.tx && log.rx[0..] == log.rx && log.rx[..0] == [];
    assert PopTx(log, cutoff) == log;
    assert PopRx(log, cutoff) == log;
    AllLive(log.rx, Keys(log.tx));
  }

  lemma {:induction false} AllLive(rx: seq<RxEvent>, keys: set<TxKey>)
    requires forall e :: e in rx ==> e.key in keys
    ensures Live(rx, keys) == rx && DeadTriples(rx, keys) == {}
  {
    if rx != [] {
      var init, last := rx[..|rx| - 1], rx[|rx| - 1];
      assert rx == init + [last] && last in rx;
      AllLive(init, keys);
    }
  }
}
