/**
  The busy-interval logger: recording, front pruning and the mean over
  radios, and the proof that pruning never changes a ratio.
 */
module CbrLog {
  import opened Prelude
  import opened Pool
  import opened Cbr

  // ----- Recording and pruning on values -----

  predicate InsideEvaluation(cfg: Config, t: int) {
    t >= cfg.evalStart && (cfg.evalEnd < 0 || t <= cfg.evalEnd)
  }

  predicate ShouldRecord(cfg: Config, filter: Filter, context: string, t: int) {
    && InsideEvaluation(cfg, t)
    && (filter.Absent? || (cfg.parse(context).Some? && filter.Passes(cfg.parse(context).value)))
  }

  /** Append to the deque of `context`, created on first use. */
  function Append(entries: seq<Entry>, context: string, node: Option<Node>, x: Interval): seq<Entry> {
    if entries == [] then [Entry(context, node, [x])]
    else if entries[0].context == context then [entries[0].(intervals := entries[0].intervals + [x])] + entries[1..]
    else [entries[0]] + Append(entries[1..], context, node, x)
  }

  /** How many intervals at the front ended before the cutoff. */
  function Ended(intervals: seq<Interval>, cutoff: int): (n: nat)
    ensures n <= |intervals|
    ensures forall i :: 0 <= i < n ==> intervals[i].end < cutoff
  {
    if intervals != [] && intervals[0].end < cutoff
    then
      assert forall i :: 1 <= i < |intervals| ==> intervals[i] == intervals[1..][i - 1];
      1 + Ended(intervals[1..], cutoff)
    else 0
  }

  function PruneEntry(e: Entry, cutoff: int): Entry {
    e.(intervals := e.intervals[Ended(e.intervals, cutoff)..])
  }

  function Prune(entries: seq<Entry>, cutoff: int): (r: seq<Entry>)
    ensures |r| == |entries| && forall i :: 0 <= i < |r| ==> r[i] == PruneEntry(entries[i], cutoff)
  {
    if entries == [] then [] else [PruneEntry(entries[0], cutoff)] + Prune(entries[1..], cutoff)
  }

  // ----- The mean over radios -----

  /** The sum and the number of the busy fractions of one radio's contexts. */
  datatype Share = Share(sum: real, count: nat) {
    function Mean(): real {
      if count > 0 then sum / count as real else 0.0
    }
  }

  predicate Counts(e: Entry, filter: Filter) {
    e.node.Some? && filter.Passes(e.node.value)
  }

  /** The radios named by a context and let through by the filter. */
  ghost function Radios(entries: seq<Entry>, filter: Filter): set<Node> {
    if entries == [] then {}
    else
      var e, before := entries[|entries| - 1], Radios(entries[..|entries| - 1], filter);
      if Counts(e, filter) then before + {e.node.value} else before
  }

  ghost function ShareOf(entries: seq<Entry>, n: Node, now: int, window: int): (r: Share)
    requires 0 < window
    ensures 0.0 <= r.sum <= r.count as real
  {
    if entries == [] then Share(0.0, 0)
    else
      var e, before := entries[|entries| - 1], ShareOf(entries[..|entries| - 1], n, now, window);
      if e.node == Some(n) then Share(before.sum + Fraction(e.intervals, now, window), before.count + 1) else before
  }

  ghost function Shares(entries: seq<Entry>, now: int, window: int, filter: Filter): map<Node, Share>
    requires 0 < window
  {
    map n | n in Radios(entries, filter) :: ShareOf(entries, n, now, window)
  }

  ghost function Pick(shares: map<Node, Share>): (n: Node)
    requires shares != map[]
    ensures n in shares
  {
    assert shares.Keys != {};
    var n :| n in shares;
    n
  }

  ghost function MeanSum(shares: map<Node, Share>): real
    decreases |shares|
  {
    if shares == map[] then 0.0
    else
      var n := Pick(shares);
      RemoveOne(shares, n);
      shares[n].Mean() + MeanSum(shares - {n})
  }

  lemma RemoveOne(shares: map<Node, Share>, n: Node)
    requires n in shares
    ensures |shares - {n}| == |shares| - 1
  {
    assert (shares - {n}).Keys == shares.Keys - {n};
    assert |(shares - {n}).Keys| == |shares - {n}| && |shares.Keys| == |shares|;
  }

  /** The order in which radios are added up does not matter. */
  lemma {:induction false} MeanSumTakes(shares: map<Node, Share>, n: Node)
    requires n in shares
    ensures MeanSum(shares) == shares[n].Mean() + MeanSum(shares - {n})
    decreases |shares|
  {
    var k := Pick(shares);
    if k != n {
      RemoveOne(shares, k);
      RemoveOne(shares, n);
      MeanSumTakes(shares - {k}, n);
      MeanSumTakes(shares - {n}, k);
      assert shares - {k} - {n} == shares - {n} - {k};
    }
  }

  /** The evaluated radios the filter lets through. */
  function Passing(nodes: seq<Node>, filter: Filter): seq<Node> {
    if nodes == [] then []
    else
      var n, before := nodes[|nodes| - 1], Passing(nodes[..|nodes| - 1], filter);
      if filter.Passes(n) then before + [n] else before
  }

  lemma {:induction false} PassingMembers(nodes: seq<Node>, filter: Filter)
    ensures forall n :: n in Passing(nodes, filter) <==> n in nodes && filter.Passes(n)
    ensures NoDup(nodes) ==> NoDup(Passing(nodes, filter))
  {
    if nodes != [] {
      var init, last := nodes[..|nodes| - 1], nodes[|nodes| - 1];
      assert nodes == init + [last];
      PassingMembers(init, filter);
      if NoDup(nodes) {
        assert last !in init;
      }
    }
  }

  ghost function ChannelCbr(cfg: Config, entries: seq<Entry>, now: int, filter: Filter): real
    requires cfg.Ok()
  {
    var shares := Shares(entries, now, cfg.window, filter);
    var total := MeanSum(shares);
    if cfg.evaluated != [] then
      var d := |Passing(cfg.evaluated, filter)|;
      if d > 0 then total / d as real else 0.0
    else if shares == map[] then 0.0
    else total / |shares| as real
  }

  /** The nearest share to `x`. */
  function Clamp(x: real): (r: real)
    ensures 0.0 <= r <= 1.0 && (x < r ==> r == 0.0) && (x > r ==> r == 1.0)
  {
    var low := if x < 0.0 then 0.0 else x;
    if 1.0 < low then 1.0 else low
  }

  // ----- The ratio is a ratio -----

  lemma MeanInRange(x: Share)
    requires 0.0 <= x.sum <= x.count as real
    ensures 0.0 <= x.Mean() <= 1.0
  {
    if x.count > 0 {
      RatioInRange(x.sum, x.count as real);
    }
  }

  lemma {:induction false} MeanSumInRange(shares: map<Node, Share>)
    requires forall n :: n in shares ==> 0.0 <= shares[n].sum <= shares[n].count as real
    ensures 0.0 <= MeanSum(shares) <= |shares| as real
    decreases |shares|
  {
    if shares != map[] {
      var n := Pick(shares);
      RemoveOne(shares, n);
      MeanInRange(shares[n]);
      MeanSumInRange(shares - {n});
    }
  }

  lemma {:induction false} RadiosPass(entries: seq<Entry>, filter: Filter)
    ensures forall n :: n in Radios(entries, filter) ==> filter.Passes(n)
  {
    if entries != [] {
      RadiosPass(entries[..|entries| - 1], filter);
    }
  }

  /** No more radios are recorded than divide the sum. */
  ghost predicate Fits(cfg: Config, entries: seq<Entry>, filter: Filter) {
    var counted := Passing(cfg.evaluated, filter);
    cfg.evaluated == [] || counted == [] || |Radios(entries, filter)| <= |counted|
  }

  /** It is enough that every recorded radio is an evaluated one. */
  lemma EvaluatedRadiosFit(cfg: Config, entries: seq<Entry>, filter: Filter)
    requires cfg.Ok() && forall n :: n in Radios(entries, filter) ==> n in cfg.evaluated
    ensures Fits(cfg, entries, filter)
  {
    var counted := Passing(cfg.evaluated, filter);
    PassingMembers(cfg.evaluated, filter);
    RadiosPass(entries, filter);
    NoDupCardinality(counted);
    SubsetCardinality(Radios(entries, filter), ToSet(counted));
  }

  /** Then the ratio lies in [0, 1] before it is clamped. */
  lemma UnclampedInRange(cfg: Config, entries: seq<Entry>, now: int, filter: Filter)
    requires cfg.Ok() && Fits(cfg, entries, filter)
    ensures 0.0 <= ChannelCbr(cfg, entries, now, filter) <= 1.0
    ensures Clamp(ChannelCbr(cfg, entries, now, filter)) == ChannelCbr(cfg, entries, now, filter)
  {
    var shares, counted := Shares(entries, now, cfg.window, filter), Passing(cfg.evaluated, filter);
    MeanSumInRange(shares);
    assert shares.Keys == Radios(entries, filter) && |shares.Keys| == |shares|;
    if cfg.evaluated != [] {
      if counted != [] {
        RatioInRange(MeanSum(shares), |counted| as real);
      }
    } else if shares != map[] {
      assert shares.Keys != {};
      RatioInRange(MeanSum(shares), |shares| as real);
    }
  }

  // Conversely: the same contexts with every channel busy for the whole window.

  ghost predicate SameContexts(a: seq<Entry>, b: seq<Entry>) {
    |a| == |b| && forall i :: 0 <= i < |a| ==> a[i].context == b[i].context && a[i].node == b[i].node
  }

  ghost function Saturated(entries: seq<Entry>, x: Interval): (r: seq<Entry>)
    ensures SameContexts(entries, r) && forall i :: 0 <= i < |r| ==> r[i].intervals == [x]
  {
    seq(|entries|, i requires 0 <= i < |entries| => entries[i].(intervals := [x]))
  }

  lemma {:induction false} RadiosOfContexts(a: seq<Entry>, b: seq<Entry>, filter: Filter)
    requires SameContexts(a, b)
    ensures Radios(a, filter) == Radios(b, filter)
  {
    if a != [] {
      RadiosOfContexts(a[..|a| - 1], b[..|b| - 1], filter);
    }
  }

  lemma WholeWindow(now: int, window: int)
    requires 0 < window
    ensures Fraction([Interval(now - window, now)], now, window) == 1.0
  {
    var x := Interval(now - window, now);
    forall t | now - window <= t < now ensures Covers([x], t) {
      assert [x][0] == x;
    }
    MeasureFull([x], now - window, now);
  }

  lemma {:induction false} SaturatedShare(entries: seq<Entry>, n: Node, now: int, window: int, filter: Filter)
    requires 0 < window && forall i :: 0 <= i < |entries| ==> entries[i].intervals == [Interval(now - window, now)]
    ensures var x := ShareOf(entries, n, now, window);
      x.sum == x.count as real && (n in Radios(entries, filter) ==> x.count > 0)
  {
    if entries != [] {
      WholeWindow(now, window);
      SaturatedShare(entries[..|entries| - 1], n, now, window, filter);
    }
  }

  lemma {:induction false} MeanSumOfOnes(shares: map<Node, Share>)
    requires forall n :: n in shares ==> shares[n].Mean() == 1.0
    ensures MeanSum(shares) == |shares| as real
    decreases |shares|
  {
    if shares != map[] {
      var n := Pick(shares);
      MeanSumTakes(shares, n);
      RemoveOne(shares, n);
      MeanSumOfOnes(shares - {n});
    }
  }

  lemma MoreThanOne(x: real, d: real)
    requires 0.0 < d < x
    ensures x / d > 1.0
  {
    assert (x / d) * d == x;
  }

  lemma SaturatedExceeds(cfg: Config, entries: seq<Entry>, now: int, filter: Filter)
    requires cfg.Ok() && !Fits(cfg, entries, filter)
    ensures ChannelCbr(cfg, Saturated(entries, Interval(now - cfg.window, now)), now, filter) > 1.0
  {
    hide Fraction, ShareOf, MeanSum, Passing;
    var full := Saturated(entries, Interval(now - cfg.window, now));
    var shares, counted := Shares(full, now, cfg.window, filter), Passing(cfg.evaluated, filter);
    RadiosOfContexts(entries, full, filter);
    assert shares.Keys == Radios(full, filter) && |shares.Keys| == |shares|;
    forall n | n in shares ensures shares[n].Mean() == 1.0 {
      SaturatedShare(full, n, now, cfg.window, filter);
    }
    MeanSumOfOnes(shares);
    MoreThanOne(|shares| as real, |counted| as real);
  }

  /** The clamp is superfluous for every content of the deques if and only if the recorded radios fit. */
  lemma ClampSuperfluousIff(cfg: Config, entries: seq<Entry>, now: int, filter: Filter)
    requires cfg.Ok()
    ensures Fits(cfg, entries, filter)
      <==> forall other :: SameContexts(entries, other) ==> ChannelCbr(cfg, other, now, filter) <= 1.0
  {
    hide ChannelCbr, Saturated, Passing;
    if Fits(cfg, entries, filter) {
      forall other | SameContexts(entries, other) ensures ChannelCbr(cfg, other, now, filter) <= 1.0 {
        RadiosOfContexts(entries, other, filter);
        UnclampedInRange(cfg, other, now, filter);
      }
    } else {
      SaturatedExceeds(cfg, entries, now, filter);
    }
  }

  // ----- What the ratio is made of -----

  /** Sums and numbers of busy shares add up over contexts, and a single context adds its share to the radio it names. */
  lemma {:induction false} SharesAdd(a: seq<Entry>, b: seq<Entry>, e: Entry, n: Node, now: int, window: int)
    requires 0 < window
    ensures ShareOf(a + b, n, now, window).sum == ShareOf(a, n, now, window).sum + ShareOf(b, n, now, window).sum
    ensures ShareOf(a + b, n, now, window).count == ShareOf(a, n, now, window).count + ShareOf(b, n, now, window).count
    ensures ShareOf([e], n, now, window)
         == if e.node == Some(n) then Share(Fraction(e.intervals, now, window), 1) else Share(0.0, 0)
  {
    hide Fraction;
    assert [e][..0] == [];
    if b == [] {
      assert a + b == a;
    } else {
      assert (a + b)[..|a + b| - 1] == a + b[..|b| - 1];
      SharesAdd(a, b[..|b| - 1], e, n, now, window);
    }
  }

  lemma {:induction false} RadiosAreNamed(entries: seq<Entry>, filter: Filter)
    ensures forall n :: n in Radios(entries, filter) <==> filter.Passes(n) && exists e :: e in entries && e.node == Some(n)
  {
    if entries != [] {
      var init, last := entries[..|entries| - 1], entries[|entries| - 1];
      assert entries == init + [last];
      RadiosAreNamed(init, filter);
    }
  }

  /** The mean of a radio is the sum of its shares over their number. */
  lemma MeanIsAverage(x: Share)
    requires x.count > 0
    ensures x.Mean() * x.count as real == x.sum
  {
    QuotientTimes(x.sum, x.count as real);
  }

  /** The radios that count: the evaluated ones that pass the filter if any are evaluated, and otherwise the recorded ones. */
  ghost function Counted(cfg: Config, entries: seq<Entry>, filter: Filter): set<Node> {
    if cfg.evaluated != [] then set n | n in cfg.evaluated && filter.Passes(n) else Radios(entries, filter)
  }

  lemma PassingCount(cfg: Config, entries: seq<Entry>, filter: Filter)
    requires cfg.Ok() && cfg.evaluated != []
    ensures |Passing(cfg.evaluated, filter)| == |Counted(cfg, entries, filter)|
  {
    PassingMembers(cfg.evaluated, filter);
    NoDupCardinality(Passing(cfg.evaluated, filter));
    assert ToSet(Passing(cfg.evaluated, filter)) == Counted(cfg, entries, filter);
  }

  lemma SharesCount(entries: seq<Entry>, now: int, window: int, filter: Filter)
    requires 0 < window
    ensures |Shares(entries, now, window, filter)| == |Radios(entries, filter)|
  {
    hide ShareOf, Radios;
    var shares := Shares(entries, now, window, filter);
    assert shares.Keys == Radios(entries, filter) && |shares| == |shares.Keys|;
  }

  /** The ratio times the number of radios that count is the sum of the means of the recorded ones. */
  lemma RatioIsMeanOverRadios(cfg: Config, entries: seq<Entry>, now: int, filter: Filter)
    requires cfg.Ok()
    ensures var ratio, sum := ChannelCbr(cfg, entries, now, filter), MeanSum(Shares(entries, now, cfg.window, filter));
      var counted := Counted(cfg, entries, filter);
      if counted == {} then ratio == 0.0 else ratio * |counted| as real == sum
  {
    hide MeanSum, Shares, Passing, Counted;
    var shares := Shares(entries, now, cfg.window, filter);
    if cfg.evaluated != [] {
      PassingCount(cfg, entries, filter);
      if |Passing(cfg.evaluated, filter)| > 0 {
        QuotientTimes(MeanSum(shares), |Passing(cfg.evaluated, filter)| as real);
      }
    } else {
      SharesCount(entries, now, cfg.window, filter);
      RecordedCount(cfg, entries, filter);
      if shares != map[] {
        assert shares.Keys != {};
        QuotientTimes(MeanSum(shares), |shares| as real);
      }
    }
  }

  lemma RecordedCount(cfg: Config, entries: seq<Entry>, filter: Filter)
    requires cfg.evaluated == []
    ensures Counted(cfg, entries, filter) == Radios(entries, filter)
  {
  }

  // ----- Pruning never changes a ratio -----

  /** `kept` is `full` without a front of intervals that ended before the cutoff. */
  ghost predicate FrontDropped(full: seq<Interval>, kept: seq<Interval>, cutoff: int) {
    && |kept| <= |full| && kept == full[|full| - |kept|..]
    && forall i :: 0 <= i < |full| - |kept| ==> full[i].end < cutoff
  }

  ghost predicate Abridges(full: seq<Entry>, kept: seq<Entry>, cutoff: int) {
    && SameContexts(full, kept)
    && forall i :: 0 <= i < |full| ==> FrontDropped(full[i].intervals, kept[i].intervals, cutoff)
  }

  lemma DroppedDoNotCover(full: seq<Interval>, kept: seq<Interval>, cutoff: int, t: int)
    requires FrontDropped(full, kept, cutoff) && cutoff <= t
    ensures Covers(full, t) <==> Covers(kept, t)
  {
    var k := |full| - |kept|;
    if i :| 0 <= i < |full| && full[i].start <= t < full[i].end {
      assert i >= k && kept[i - k] == full[i];
    }
    if i :| 0 <= i < |kept| && kept[i].start <= t < kept[i].end {
      assert full[k + i] == kept[i];
    }
  }

  lemma SameFraction(full: seq<Interval>, kept: seq<Interval>, cutoff: int, now: int, window: int)
    requires 0 < window && FrontDropped(full, kept, cutoff) && cutoff <= now - window
    ensures Fraction(full, now, window) == Fraction(kept, now, window)
  {
    forall t | now - window <= t ensures Covers(full, t) <==> Covers(kept, t) {
      DroppedDoNotCover(full, kept, cutoff, t);
    }
    MeasureSame(full, kept, now - window, now);
  }

  lemma {:induction false} SameShare(full: seq<Entry>, kept: seq<Entry>, cutoff: int, n: Node, now: int, window: int)
    requires 0 < window && Abridges(full, kept, cutoff) && cutoff <= now - window
    ensures ShareOf(full, n, now, window) == ShareOf(kept, n, now, window)
  {
    if full != [] {
      var last := |full| - 1;
      assert Abridges(full[..last], kept[..last], cutoff);
      SameShare(full[..last], kept[..last], cutoff, n, now, window);
      SameFraction(full[last].intervals, kept[last].intervals, cutoff, now, window);
    }
  }

  lemma SameCbr(cfg: Config, full: seq<Entry>, kept: seq<Entry>, cutoff: int, now: int, filter: Filter)
    requires cfg.Ok() && Abridges(full, kept, cutoff) && cutoff <= now - cfg.window
    ensures ChannelCbr(cfg, full, now, filter) == ChannelCbr(cfg, kept, now, filter)
  {
    RadiosOfContexts(full, kept, filter);
    hide Abridges, Radios, ShareOf, MeanSum, Passing;
    forall n ensures ShareOf(full, n, now, cfg.window) == ShareOf(kept, n, now, cfg.window) {
      SameShare(full, kept, cutoff, n, now, cfg.window);
    }
    assert Shares(full, now, cfg.window, filter) == Shares(kept, now, cfg.window, filter);
  }

  lemma PruneDrops(full: seq<Interval>, kept: seq<Interval>, c: int, c': int)
    requires FrontDropped(full, kept, c) && c <= c'
    ensures FrontDropped(full, kept[Ended(kept, c')..], c')
  {
    var k, m := |full| - |kept|, Ended(kept, c');
    assert kept[m..] == full[k + m..];
    assert forall j :: k <= j < k + m ==> full[j] == kept[j - k];
  }

  lemma PruneAbridges(full: seq<Entry>, kept: seq<Entry>, c: int, c': int)
    requires Abridges(full, kept, c) && c <= c'
    ensures Abridges(full, Prune(kept, c'), c')
  {
    hide FrontDropped, Ended;
    forall i | 0 <= i < |full| ensures FrontDropped(full[i].intervals, Prune(kept, c')[i].intervals, c') {
      PruneDrops(full[i].intervals, kept[i].intervals, c, c');
    }
  }

  lemma AppendDrops(full: seq<Interval>, kept: seq<Interval>, c: int, x: Interval)
    requires FrontDropped(full, kept, c)
    ensures FrontDropped(full + [x], kept + [x], c)
  {
    assert (full + [x])[|full| - |kept|..] == kept + [x];
  }

  lemma AbridgesCons(a: Entry, b: Entry, full: seq<Entry>, kept: seq<Entry>, c: int)
    requires a.context == b.context && a.node == b.node && FrontDropped(a.intervals, b.intervals, c) && Abridges(full, kept, c)
    ensures Abridges([a] + full, [b] + kept, c)
  {
    hide FrontDropped;
  }

  lemma AbridgesTail(full: seq<Entry>, kept: seq<Entry>, c: int)
    requires Abridges(full, kept, c) && full != []
    ensures Abridges(full[1..], kept[1..], c)
  {
    hide FrontDropped;
  }

  lemma {:induction false} AppendAbridges(full: seq<Entry>, kept: seq<Entry>, c: int, context: string,
      node: Option<Node>, x: Interval)
    requires Abridges(full, kept, c)
    ensures Abridges(Append(full, context, node, x), Append(kept, context, node, x), c)
  {
    if full == [] {
    } else {
      var a, b := full[0], kept[0];
      AbridgesTail(full, kept, c);
      hide Abridges, FrontDropped;
      if a.context == context {
        AppendDrops(a.intervals, b.intervals, c, x);
        AbridgesCons(a.(intervals := a.intervals + [x]), b.(intervals := b.intervals + [x]), full[1..], kept[1..], c);
      } else {
        AppendAbridges(full[1..], kept[1..], c, context, node, x);
        AbridgesCons(a, b, Append(full[1..], context, node, x), Append(kept[1..], context, node, x), c);
      }
    }
  }

  // ----- Runs -----

  /** A channel-occupied trace, with the filter as it answers at that moment, or any step that only prunes. */
  datatype Op = Occupied(time: int, context: string, duration: int, filter: Filter) | Query(time: int)

  predicate Records(cfg: Config, op: Op) {
    op.Occupied? && ShouldRecord(cfg, op.filter, op.context, op.time) && op.duration > 0
  }

  function Recorded(cfg: Config, entries: seq<Entry>, op: Op): seq<Entry> {
    if Records(cfg, op)
    then Append(entries, op.context, cfg.parse(op.context), Interval(op.time, op.time + op.duration))
    else entries
  }

  function Logged(cfg: Config, entries: seq<Entry>, op: Op): seq<Entry> {
    if Records(cfg, op) || op.Query? then Prune(Recorded(cfg, entries, op), op.time - cfg.window) else entries
  }

  function PrunedRun(cfg: Config, ops: seq<Op>): seq<Entry> {
    if ops == [] then [] else Logged(cfg, PrunedRun(cfg, ops[..|ops| - 1]), ops[|ops| - 1])
  }

  /** The same run on a logger that never prunes. */
  function FullRun(cfg: Config, ops: seq<Op>): seq<Entry> {
    if ops == [] then [] else Recorded(cfg, FullRun(cfg, ops[..|ops| - 1]), ops[|ops| - 1])
  }

  ghost predicate Monotone(ops: seq<Op>, now: int) {
    && (forall i, j :: 0 <= i < j < |ops| ==> ops[i].time <= ops[j].time)
    && (forall i :: 0 <= i < |ops| ==> ops[i].time <= now)
  }

  lemma {:induction false} RunAbridges(cfg: Config, ops: seq<Op>, now: int)
    requires Monotone(ops, now)
    ensures Abridges(FullRun(cfg, ops), PrunedRun(cfg, ops), now - cfg.window)
  {
    hide Append, Prune, FrontDropped;
    if ops != [] {
      var op, init := ops[|ops| - 1], ops[..|ops| - 1];
      var full, kept, c := FullRun(cfg, init), PrunedRun(cfg, init), op.time - cfg.window;
      RunAbridges(cfg, init, op.time);
      if Records(cfg, op) {
        AppendAbridges(full, kept, c, op.context, cfg.parse(op.context), Interval(op.time, op.time + op.duration));
      }
      if Records(cfg, op) || op.Query? {
        PruneAbridges(Recorded(cfg, full, op), Recorded(cfg, kept, op), c, c);
      }
      LaterCutoff(FullRun(cfg, ops), PrunedRun(cfg, ops), c, now - cfg.window);
    }
  }

  lemma {:induction false} AllEndedDropped(intervals: seq<Interval>, cutoff: int)
    ensures var n := Ended(intervals, cutoff); n < |intervals| ==> intervals[n].end >= cutoff
  {
    if intervals != [] && intervals[0].end < cutoff {
      AllEndedDropped(intervals[1..], cutoff);
    }
  }

  /** After every recorded trace and every query no deque begins with an interval that ended before the window. */
  lemma FrontsAreRecent(cfg: Config, ops: seq<Op>, op: Op, k: nat)
    requires Records(cfg, op) || op.Query?
    requires k < |PrunedRun(cfg, ops + [op])|
    ensures var kept := PrunedRun(cfg, ops + [op])[k].intervals; kept != [] ==> op.time - cfg.window <= kept[0].end
  {
    hide Ended, Append, Records;
    assert (ops + [op])[..|ops + [op]| - 1] == ops;
    var entries := Recorded(cfg, PrunedRun(cfg, ops), op);
    assert PrunedRun(cfg, ops + [op]) == Prune(entries, op.time - cfg.window);
    AllEndedDropped(entries[k].intervals, op.time - cfg.window);
  }

  lemma LaterCutoff(full: seq<Entry>, kept: seq<Entry>, c: int, c': int)
    requires Abridges(full, kept, c) && c <= c'
    ensures Abridges(full, kept, c')
  {
  }

  /** After any run with non-decreasing time, every present and future ratio equals that of the full history. */
  lemma PruningIsInvisible(cfg: Config, ops: seq<Op>, now: int, filter: Filter)
    requires cfg.Ok() && Monotone(ops, now)
    ensures ChannelCbr(cfg, PrunedRun(cfg, ops), now, filter) == ChannelCbr(cfg, FullRun(cfg, ops), now, filter)
  {
    RunAbridges(cfg, ops, now);
    SameCbr(cfg, FullRun(cfg, ops), PrunedRun(cfg, ops), now - cfg.window, now, filter);
  }

  // ----- What is recorded -----

  /** The trace `op` makes the channel of context `c` busy at tick `t`, and is recorded. */
  ghost predicate Busy(cfg: Config, op: Op, c: string, t: int) {
    && op.Occupied? && op.context == c && op.time <= t < op.time + op.duration
    && cfg.evalStart <= op.time && (cfg.evalEnd >= 0 ==> op.time <= cfg.evalEnd)
    && (op.filter.Present? ==> cfg.parse(c).Some? && op.filter.accepts(cfg.parse(c).value))
  }

  ghost predicate BusyInRun(cfg: Config, ops: seq<Op>, c: string, t: int) {
    exists op :: op in ops && Busy(cfg, op, c, t)
  }

  ghost predicate CoveredIn(entries: seq<Entry>, c: string, t: int) {
    exists i :: 0 <= i < |entries| && entries[i].context == c && Covers(entries[i].intervals, t)
  }

  /** Each context has one deque, marked with the radio it names. */
  ghost predicate OnePerContext(cfg: Config, entries: seq<Entry>) {
    && (forall i :: 0 <= i < |entries| ==> entries[i].node == cfg.parse(entries[i].context))
    && forall i, j :: 0 <= i < j < |entries| ==> entries[i].context != entries[j].context
  }

  lemma CoversSnoc(intervals: seq<Interval>, x: Interval, t: int)
    ensures Covers(intervals + [x], t) <==> Covers(intervals, t) || x.start <= t < x.end
  {
    var all := intervals + [x];
    assert all[|intervals|] == x;
    if i :| 0 <= i < |intervals| && intervals[i].start <= t < intervals[i].end {
      assert all[i] == intervals[i];
    }
  }

  lemma FirstOrRest(entries: seq<Entry>, c: string, t: int)
    requires entries != []
    ensures CoveredIn(entries, c, t)
      <==> (entries[0].context == c && Covers(entries[0].intervals, t)) || CoveredIn(entries[1..], c, t)
  {
    hide Covers;
    if i :| 0 <= i < |entries| - 1 && entries[1..][i].context == c && Covers(entries[1..][i].intervals, t) {
      assert entries[i + 1] == entries[1..][i];
    }
  }

  lemma {:induction false} AppendCovers(entries: seq<Entry>, context: string, node: Option<Node>, x: Interval, c: string,
      t: int)
    ensures CoveredIn(Append(entries, context, node, x), c, t)
      <==> CoveredIn(entries, c, t) || (c == context && x.start <= t < x.end)
  {
    hide Covers, CoveredIn;
    var all := Append(entries, context, node, x);
    FirstOrRest(all, c, t);
    if entries == [] {
      NothingCovered(c, t);
      CoversSnoc([], x, t);
      assert [] + [x] == [x] && all[1..] == [];
      NoInterval(t);
    } else {
      FirstOrRest(entries, c, t);
      if entries[0].context == context {
        CoversSnoc(entries[0].intervals, x, t);
        assert all[1..] == entries[1..];
      } else {
        AppendCovers(entries[1..], context, node, x, c, t);
        assert all[1..] == Append(entries[1..], context, node, x);
      }
    }
  }

  lemma NothingCovered(c: string, t: int)
    ensures !CoveredIn([], c, t)
  {
  }

  lemma NoInterval(t: int)
    ensures !Covers([], t)
  {
  }

  lemma AppendOnePerContext(cfg: Config, entries: seq<Entry>, context: string, x: Interval)
    requires OnePerContext(cfg, entries)
    ensures OnePerContext(cfg, Append(entries, context, cfg.parse(context), x))
  {
    var i := 0;
    while i < |entries| && entries[i].context != context
      invariant i <= |entries| && forall j :: 0 <= j < i ==> entries[j].context != context
    {
      i := i + 1;
    }
    AppendsAt(entries, i, context, cfg.parse(context), x);
  }

  /** The full history of a context covers exactly the ticks at which a recorded trace makes its channel busy. */
  lemma {:induction false} HistoryCovers(cfg: Config, ops: seq<Op>, c: string, t: int)
    ensures OnePerContext(cfg, FullRun(cfg, ops))
    ensures CoveredIn(FullRun(cfg, ops), c, t) <==> BusyInRun(cfg, ops, c, t)
  {
    hide Append, CoveredIn, OnePerContext;
    if ops == [] {
      NothingCovered(c, t);
      NoContexts(cfg);
    } else {
      var init, op := ops[..|ops| - 1], ops[|ops| - 1];
      assert ops == init + [op];
      HistoryCovers(cfg, init, c, t);
      if Records(cfg, op) {
        var x := Interval(op.time, op.time + op.duration);
        AppendCovers(FullRun(cfg, init), op.context, cfg.parse(op.context), x, c, t);
        AppendOnePerContext(cfg, FullRun(cfg, init), op.context, x);
      }
      assert BusyInRun(cfg, ops, c, t) <==> BusyInRun(cfg, init, c, t) || Busy(cfg, op, c, t);
    }
  }

  lemma NoContexts(cfg: Config)
    ensures OnePerContext(cfg, [])
  {
  }

  /** The pruned logger has the same contexts, and covers the same ticks from the window on. */
  lemma LoggerCovers(cfg: Config, ops: seq<Op>, now: int, c: string, t: int)
    requires Monotone(ops, now) && now - cfg.window <= t
    ensures OnePerContext(cfg, PrunedRun(cfg, ops))
    ensures CoveredIn(PrunedRun(cfg, ops), c, t) <==> BusyInRun(cfg, ops, c, t)
  {
    HistoryCovers(cfg, ops, c, t);
    RunAbridges(cfg, ops, now);
    var full, kept, cutoff := FullRun(cfg, ops), PrunedRun(cfg, ops), now - cfg.window;
    forall i | 0 <= i < |full| ensures Covers(full[i].intervals, t) <==> Covers(kept[i].intervals, t) {
      DroppedDoNotCover(full[i].intervals, kept[i].intervals, cutoff, t);
    }
    hide Covers, FrontDropped, BusyInRun;
  }

  ghost predicate HasContext(entries: seq<Entry>, c: string) {
    exists i :: 0 <= i < |entries| && entries[i].context == c
  }

  lemma AppendAddsContext(entries: seq<Entry>, context: string, node: Option<Node>, x: Interval, c: string)
    ensures HasContext(Append(entries, context, node, x), c) <==> HasContext(entries, c) || c == context
  {
    var i := 0;
    while i < |entries| && entries[i].context != context
      invariant i <= |entries| && forall j :: 0 <= j < i ==> entries[j].context != context
    {
      i := i + 1;
    }
    AppendsAt(entries, i, context, node, x);
    var all := Append(entries, context, node, x);
    assert i < |all| && all[i].context == context;
    if j :| 0 <= j < |entries| && entries[j].context == c {
      assert all[j].context == c;
    }
  }

  ghost predicate NamedInRun(cfg: Config, ops: seq<Op>, c: string) {
    exists op :: op in ops && Busy(cfg, op, c, op.time)
  }

  lemma NamedGrows(cfg: Config, init: seq<Op>, op: Op, c: string)
    ensures NamedInRun(cfg, init + [op], c) <==> NamedInRun(cfg, init, c) || Busy(cfg, op, c, op.time)
  {
    hide Busy;
    assert forall x :: x in init + [op] <==> x in init || x == op;
  }

  /** A deque exists exactly for the contexts of recorded traces, and stays when it is empty. */
  lemma {:induction false} ContextsOfRun(cfg: Config, ops: seq<Op>, c: string)
    ensures HasContext(PrunedRun(cfg, ops), c) <==> NamedInRun(cfg, ops, c)
  {
    hide Append, HasContext, Busy, Prune;
    if ops == [] {
      NoContext(c);
    } else {
      var init, op := ops[..|ops| - 1], ops[|ops| - 1];
      assert ops == init + [op];
      ContextsOfRun(cfg, init, c);
      NamedGrows(cfg, init, op, c);
      hide NamedInRun;
      var entries := PrunedRun(cfg, init);
      RecordsIff(cfg, op, c);
      if Records(cfg, op) {
        AppendAddsContext(entries, op.context, cfg.parse(op.context), Interval(op.time, op.time + op.duration), c);
      }
      PruneKeepsContexts(Recorded(cfg, entries, op), op.time - cfg.window, c);
    }
  }

  lemma NoContext(c: string)
    ensures !HasContext([], c)
  {
  }

  lemma PruneKeepsContexts(entries: seq<Entry>, cutoff: int, c: string)
    ensures HasContext(Prune(entries, cutoff), c) <==> HasContext(entries, c)
  {
    var r := Prune(entries, cutoff);
    assert forall i :: 0 <= i < |r| ==> r[i].context == entries[i].context;
    if i :| 0 <= i < |entries| && entries[i].context == c {
      assert r[i].context == c;
    }
  }

  lemma RecordsIff(cfg: Config, op: Op, c: string)
    ensures Records(cfg, op) && op.context == c <==> Busy(cfg, op, c, op.time)
  {
  }

  /** The busy share of a deque is the share of the window's ticks at which a recorded trace makes its channel busy. */
  lemma BusyShareOfRun(cfg: Config, ops: seq<Op>, now: int, k: nat)
    requires cfg.Ok() && Monotone(ops, now) && k < |PrunedRun(cfg, ops)|
    ensures var e := PrunedRun(cfg, ops)[k];
      e.node == cfg.parse(e.context) && Fraction(e.intervals, now, cfg.window) * cfg.window as real
           == |set t | now - cfg.window <= t < now && BusyInRun(cfg, ops, e.context, t)| as real
  {
    hide PrunedRun, BusyInRun, Covers, Fraction;
    var entries := PrunedRun(cfg, ops);
    var e := entries[k];
    FractionIsShare(e.intervals, now, cfg.window);
    LoggerCovers(cfg, ops, now, e.context, now);
    forall t | now - cfg.window <= t < now ensures Covers(e.intervals, t) <==> BusyInRun(cfg, ops, e.context, t) {
      LoggerCovers(cfg, ops, now, e.context, t);
      if i :| 0 <= i < |entries| && entries[i].context == e.context && Covers(entries[i].intervals, t) {
        assert i == k;
      }
    }
    assert (set t | now - cfg.window <= t < now && Covers(e.intervals, t))
        == set t | now - cfg.window <= t < now && BusyInRun(cfg, ops, e.context, t);
  }

  // ----- When a run needs the clamp -----

  ghost predicate EvaluatedOnly(cfg: Config, entries: seq<Entry>) {
    forall e :: e in entries && e.node.Some? ==> e.node.value in cfg.evaluated
  }

  /** The traced radio, if the context names one, is an evaluated one. */
  predicate TracesEvaluated(cfg: Config, op: Op) {
    op.Occupied? && cfg.parse(op.context).Some? ==> cfg.parse(op.context).value in cfg.evaluated
  }

  lemma {:induction false} AppendKeepsEvaluated(cfg: Config, entries: seq<Entry>, context: string,
      node: Option<Node>, x: Interval)
    requires EvaluatedOnly(cfg, entries) && (node.Some? ==> node.value in cfg.evaluated)
    ensures EvaluatedOnly(cfg, Append(entries, context, node, x))
  {
    if entries != [] && entries[0].context != context {
      AppendKeepsEvaluated(cfg, entries[1..], context, node, x);
    }
  }

  lemma {:induction false} RunKeepsEvaluated(cfg: Config, ops: seq<Op>)
    requires forall op :: op in ops ==> TracesEvaluated(cfg, op)
    ensures EvaluatedOnly(cfg, PrunedRun(cfg, ops))
  {
    hide Append, Prune;
    if ops != [] {
      var init, op := ops[..|ops| - 1], ops[|ops| - 1];
      RunKeepsEvaluated(cfg, init);
      assert op in ops;
      var entries := PrunedRun(cfg, init);
      if Records(cfg, op) {
        AppendKeepsEvaluated(cfg, entries, op.context, cfg.parse(op.context), Interval(op.time, op.time + op.duration));
      }
      PruneKeepsEvaluated(cfg, Recorded(cfg, entries, op), op.time - cfg.window);
    }
  }

  lemma PruneKeepsEvaluated(cfg: Config, entries: seq<Entry>, cutoff: int)
    requires EvaluatedOnly(cfg, entries)
    ensures EvaluatedOnly(cfg, Prune(entries, cutoff))
  {
    var r := Prune(entries, cutoff);
    forall i | 0 <= i < |r| && r[i].node.Some? ensures r[i].node.value in cfg.evaluated {
      assert entries[i] in entries;
    }
  }

  lemma {:induction false} RadiosEvaluated(cfg: Config, entries: seq<Entry>, filter: Filter)
    requires EvaluatedOnly(cfg, entries)
    ensures forall n :: n in Radios(entries, filter) ==> n in cfg.evaluated
  {
    if entries != [] {
      assert entries[|entries| - 1] in entries;
      RadiosEvaluated(cfg, entries[..|entries| - 1], filter);
    }
  }

  /** A run in which only evaluated radios are traced never needs the clamp. */
  lemma EvaluatedRunsNeedNoClamp(cfg: Config, ops: seq<Op>, now: int, filter: Filter)
    requires cfg.Ok()
    requires forall op :: op in ops ==> TracesEvaluated(cfg, op)
    ensures 0.0 <= ChannelCbr(cfg, PrunedRun(cfg, ops), now, filter) <= 1.0
  {
    hide ChannelCbr, Passing;
    RunKeepsEvaluated(cfg, ops);
    RadiosEvaluated(cfg, PrunedRun(cfg, ops), filter);
    EvaluatedRadiosFit(cfg, PrunedRun(cfg, ops), filter);
    UnclampedInRange(cfg, PrunedRun(cfg, ops), now, filter);
  }

  /**
    A second radio traced beside the one evaluated: both are busy for the whole window, and the ratio
    before the clamp exceeds 1.
   */
  lemma StrayRadioNeedsClamp() returns (cfg: Config, ops: seq<Op>)
    ensures cfg.Ok() && Monotone(ops, 10) && ChannelCbr(cfg, PrunedRun(cfg, ops), 10, Absent) > 1.0
  {
    hide ChannelCbr, PrunedRun, Fits;
    cfg := Config(10, 0, -1, [Node(0)], s => if s == "a" then Some(Node(0)) else Some(Node(1)));
    ops := [Occupied(0, "a", 10, Absent), Occupied(0, "b", 10, Absent)];
    SecondLogged(cfg);
    var x := Interval(0, 10);
    var entries := [Entry("a", Some(Node(0)), [x]), Entry("b", Some(Node(1)), [x])];
    TwoRadiosDoNotFit(cfg, entries, Node(0), Node(1));
    SaturatedExceeds(cfg, entries, 10, Absent);
    assert Saturated(entries, x) == entries;
  }

  lemma TwoRadiosDoNotFit(cfg: Config, entries: seq<Entry>, a: Node, b: Node)
    requires a != b && cfg.evaluated == [a]
    requires |entries| == 2 && entries[0].node == Some(a) && entries[1].node == Some(b)
    ensures !Fits(cfg, entries, Absent)
  {
    OneRadio(entries[..1], a);
    assert entries[..1] == [entries[0]];
    assert Radios(entries, Absent) == {a} + {b};
    assert cfg.evaluated[..0] == [];
    assert Passing(cfg.evaluated, Absent) == [a];
  }

  lemma OneRadio(entries: seq<Entry>, a: Node)
    requires |entries| == 1 && entries[0].node == Some(a)
    ensures Radios(entries, Absent) == {a}
  {
    assert entries[..0] == [];
    assert Radios(entries[..0], Absent) == {};
  }

  lemma LoggedAtStart(cfg: Config, entries: seq<Entry>, context: string)
    requires cfg.window == 10 && cfg.evalStart == 0 && cfg.evalEnd == -1
    requires forall i :: 0 <= i < |entries| ==> entries[i].intervals == [Interval(0, 10)] && entries[i].context != context
    ensures Logged(cfg, entries, Occupied(0, context, 10, Absent))
         == entries + [Entry(context, cfg.parse(context), [Interval(0, 10)])]
  {
    hide Prune;
    var x := Interval(0, 10);
    var appended := entries + [Entry(context, cfg.parse(context), [x])];
    AppendsAt(entries, |entries|, context, cfg.parse(context), x);
    forall i | 0 <= i < |appended| ensures PruneEntry(appended[i], -10) == appended[i] {
      assert Ended([x], -10) == 0;
    }
    assert Prune(appended, -10) == appended;
  }

  lemma SecondLogged(cfg: Config)
    requires cfg.window == 10 && cfg.evalStart == 0 && cfg.evalEnd == -1
    ensures PrunedRun(cfg, [Occupied(0, "a", 10, Absent), Occupied(0, "b", 10, Absent)])
         == [Entry("a", cfg.parse("a"), [Interval(0, 10)]), Entry("b", cfg.parse("b"), [Interval(0, 10)])]
  {
    hide Logged;
    var a, b := Occupied(0, "a", 10, Absent), Occupied(0, "b", 10, Absent);
    assert [a, b][..1] == [a] && [a][..0] == [] && "a" != "b";
    LoggedAtStart(cfg, [], "a");
    assert PrunedRun(cfg, [a]) == Logged(cfg, [], a) == [Entry("a", cfg.parse("a"), [Interval(0, 10)])];
    assert PrunedRun(cfg, [a, b]) == Logged(cfg, PrunedRun(cfg, [a]), b);
    LoggedAtStart(cfg, [Entry("a", cfg.parse("a"), [Interval(0, 10)])], "b");
  }

  // ----- The logger object -----

  class CbrLogger {
    const cfg: Config
    var entries: seq<Entry>

    constructor (cfg: Config)
      requires cfg.Ok()
      ensures this.cfg == cfg && entries == []
    {
      this.cfg := cfg;
      entries := [];
    }

    method RecordChannelOccupied(context: string, now: int, duration: int, filter: Filter)
      modifies this
      ensures entries == Logged(cfg, old(entries), Occupied(now, context, duration, filter))
    {
      if !ShouldRecord(cfg, filter, context, now) || duration <= 0 {
        return;
      }
      AppendInterval(context, Interval(now, now + duration));
      PruneAll(now);
    }

    method AppendInterval(context: string, x: Interval)
      modifies this
      ensures entries == Append(old(entries), context, cfg.parse(context), x)
    {
      var i := 0;
      while i < |entries| && entries[i].context != context
        invariant i <= |entries| && forall j :: 0 <= j < i ==> entries[j].context != context
      {
        i := i + 1;
      }
      AppendsAt(entries, i, context, cfg.parse(context), x);
      if i == |entries| {
        entries := entries + [Entry(context, cfg.parse(context), [x])];
      } else {
        entries := entries[i := entries[i].(intervals := entries[i].intervals + [x])];
      }
    }

    method PruneAll(now: int)
      modifies this
      ensures entries == Prune(old(entries), now - cfg.window)
    {
      var cutoff := now - cfg.window;
      for i := 0 to |entries|
        invariant |entries| == |old(entries)|
        invariant forall j :: 0 <= j < i ==> entries[j] == PruneEntry(old(entries)[j], cutoff)
        invariant forall j :: i <= j < |entries| ==> entries[j] == old(entries)[j]
      {
        var kept := PopFront(entries[i].intervals, cutoff);
        entries := entries[i := entries[i].(intervals := kept)];
      }
    }

    /** Front pruning first; the value is the clamped mean, over radios, of the measures of the recorded unions. */
    method ComputeCbr(now: int, filter: Filter) returns (r: real)
      requires cfg.Ok()
      modifies this
      ensures entries == Prune(old(entries), now - cfg.window)
      ensures r == Clamp(ChannelCbr(cfg, entries, now, filter))
    {
      hide ChannelCbr, Clamp, Prune;
      PruneAll(now);
      var x := ComputeChannelOccupiedCbr(cfg, entries, now, filter);
      r := Clamp(x);
    }
  }

  lemma {:induction false} AppendsAt(entries: seq<Entry>, i: nat, context: string, node: Option<Node>, x: Interval)
    requires i <= |entries| && forall j :: 0 <= j < i ==> entries[j].context != context
    requires i < |entries| ==> entries[i].context == context
    ensures Append(entries, context, node, x)
         == if i == |entries| then entries + [Entry(context, node, [x])]
            else entries[i := entries[i].(intervals := entries[i].intervals + [x])]
  {
    if i > 0 {
      AppendsAt(entries[1..], i - 1, context, node, x);
    }
  }

  method PopFront(intervals: seq<Interval>, cutoff: int) returns (kept: seq<Interval>)
    ensures kept == intervals[Ended(intervals, cutoff)..]
  {
    kept := intervals;
    ghost var n := 0;
    while kept != [] && kept[0].end < cutoff
      invariant n <= |intervals| && kept == intervals[n..]
      invariant Ended(intervals, cutoff) == n + Ended(kept, cutoff)
      decreases |kept|
    {
      kept, n := kept[1..], n + 1;
    }
  }

  method ComputeChannelOccupiedCbr(cfg: Config, entries: seq<Entry>, now: int, filter: Filter) returns (r: real)
    requires cfg.Ok()
    ensures r == ChannelCbr(cfg, entries, now, filter)
  {
    var shares := CollectShares(entries, now, cfg.window, filter);
    var total := AddMeans(shares);
    if cfg.evaluated != [] {
      var d := CountEvaluated(cfg.evaluated, filter);
      r := if d > 0 then total / d as real else 0.0;
    } else if shares == map[] {
      r := 0.0;
    } else {
      assert shares.Keys != {};
      r := total / |shares| as real;
    }
  }

  method CollectShares(entries: seq<Entry>, now: int, window: int, filter: Filter) returns (shares: map<Node, Share>)
    requires 0 < window
    ensures shares == Shares(entries, now, window, filter)
  {
    shares := map[];
    for i := 0 to |entries|
      invariant shares == Shares(entries[..i], now, window, filter)
    {
      var e := entries[i];
      ghost var before := shares;
      if e.node.Some? && filter.Passes(e.node.value) {
        var fraction := ComputeBusyFraction(e.intervals, now, window);
        var old' := if e.node.value in shares then shares[e.node.value] else Share(0.0, 0);
        shares := shares[e.node.value := Share(old'.sum + fraction, old'.count + 1)];
      }
      SharesSnoc(entries, i, now, window, filter);
    }
    assert entries[..|entries|] == entries;
  }

  lemma {:induction false} NoShareYet(entries: seq<Entry>, n: Node, now: int, window: int, filter: Filter)
    requires 0 < window && filter.Passes(n) && n !in Radios(entries, filter)
    ensures ShareOf(entries, n, now, window) == Share(0.0, 0)
  {
    if entries != [] {
      var init, last := entries[..|entries| - 1], entries[|entries| - 1];
      NoShareYet(init, n, now, window, filter);
    }
  }

  lemma SharesSnoc(entries: seq<Entry>, i: nat, now: int, window: int, filter: Filter)
    requires 0 < window && i < |entries|
    ensures var e, before, after := entries[i], Shares(entries[..i], now, window, filter),
        Shares(entries[..i + 1], now, window, filter);
      if Counts(e, filter) then
        var x := if e.node.value in before then before[e.node.value] else Share(0.0, 0);
        after == before[e.node.value := Share(x.sum + Fraction(e.intervals, now, window), x.count + 1)]
      else after == before
  {
    hide Fraction;
    var e, before, after := entries[i], entries[..i], entries[..i + 1];
    assert after == before + [e] && after[..|after| - 1] == before;
    RadiosPass(before, filter);
    if Counts(e, filter) {
      if e.node.value !in Radios(before, filter) {
        NoShareYet(before, e.node.value, now, window, filter);
      }
    }
  }

  method AddMeans(shares: map<Node, Share>) returns (total: real)
    ensures total == MeanSum(shares)
  {
    total := 0.0;
    var rest := shares;
    while rest != map[]
      invariant total + MeanSum(rest) == MeanSum(shares)
      decreases |rest|
    {
      assert rest.Keys != {};
      var n :| n in rest;
      MeanSumTakes(rest, n);
      RemoveOne(rest, n);
      total := total + rest[n].Mean();
      rest := rest - {n};
    }
  }

  method CountEvaluated(nodes: seq<Node>, filter: Filter) returns (d: nat)
    ensures d == |Passing(nodes, filter)|
  {
    d := 0;
    for i := 0 to |nodes|
      invariant d == |Passing(nodes[..i], filter)|
    {
      assert nodes[..i + 1][..i] == nodes[..i];
      if filter.Passes(nodes[i]) {
        d := d + 1;
      }
    }
    assert nodes[..|nodes|] == nodes;
  }
}
